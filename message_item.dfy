/**
 * MessageItem.jsx: the pure parts of one rendered chat message (HTML
 * escaping, avatar initials, the code-block language label, the delete button
 * rule) and the self-destruct countdown of an ephemeral message.
 */
module MessageItem {
  import opened Strings
  import opened Protocol

  // ---------------------------------------------------------------- escapeHtml

  /** The replacement `escapeHtml` makes for one character. */
  function EscapeChar(c: char): string {
    if c == '&' then "&amp;"
    else if c == '<' then "&lt;"
    else if c == '>' then "&gt;"
    else if c == '"' then "&quot;"
    else if c == '\'' then "&#039;"
    else [c]
  }

  predicate IsHtmlSpecial(c: char) {
    c == '&' || c == '<' || c == '>' || c == '"' || c == '\''
  }

  /** A character's replacement holds no raw markup character, and an
      ordinary character stands for itself. */
  lemma EscapeCharSafe(c: char)
    ensures |EscapeChar(c)| >= 1
    ensures forall k :: 0 <= k < |EscapeChar(c)| ==> EscapeChar(c)[k] !in "<>\"'"
    ensures !IsHtmlSpecial(c) ==> EscapeChar(c) == [c]
  {
  }

  /** `text.replace(/[&<>"']/g, …)`: every special character replaced by its
      entity, every other character kept. The result never gets shorter, so
      it is empty only for empty text. */
  function EscapeHtml(s: string): (r: string)
    ensures |r| >= |s|
  {
    if s == [] then [] else EscapeChar(s[0]) + EscapeHtml(s[1..])
  }

  /** Text with nothing to escape is kept as it is. */
  lemma {:induction false} EscapeHtmlOfPlain(s: string)
    requires forall k :: 0 <= k < |s| ==> !IsHtmlSpecial(s[k])
    ensures EscapeHtml(s) == s
  {
    if s != [] {
      EscapeHtmlOfPlain(s[1..]);
      assert s == [s[0]] + s[1..];
    }
  }

  /** Escaped text holds no raw `<`, `>`, `"` or `'`. */
  lemma {:induction false} EscapeHtmlHasNoMarkup(s: string)
    ensures forall k :: 0 <= k < |EscapeHtml(s)| ==> EscapeHtml(s)[k] !in "<>\"'"
  {
    if s != [] {
      var e, rest := EscapeChar(s[0]), EscapeHtml(s[1..]);
      EscapeCharSafe(s[0]);
      EscapeHtmlHasNoMarkup(s[1..]);
      assert EscapeHtml(s) == e + rest;
      forall k | 0 <= k < |e + rest| ensures (e + rest)[k] !in "<>\"'" {
        if k >= |e| {
          assert (e + rest)[k] == rest[k - |e|];
        }
      }
    }
  }

  lemma Regroup(e: string, x: string, y: string, whole: string, tail: string, front: string)
    requires whole == e + tail && tail == x + y && front == e + x
    ensures whole == front + y
  {
  }

  /** Escaping works character by character: it distributes over concatenation. */
  lemma {:induction false} EscapeHtmlAppend(a: string, b: string)
    ensures EscapeHtml(a + b) == EscapeHtml(a) + EscapeHtml(b)
  {
    if a == [] {
      assert a + b == b;
    } else {
      var e := EscapeChar(a[0]);
      assert EscapeHtml(a + b) == e + EscapeHtml(a[1..] + b) by {
        assert (a + b)[0] == a[0] && (a + b)[1..] == a[1..] + b;
      }
      assert EscapeHtml(a[1..] + b) == EscapeHtml(a[1..]) + EscapeHtml(b) by {
        EscapeHtmlAppend(a[1..], b);
      }
      assert EscapeHtml(a) == e + EscapeHtml(a[1..]);
      Regroup(e, EscapeHtml(a[1..]), EscapeHtml(b), EscapeHtml(a + b), EscapeHtml(a[1..] + b), EscapeHtml(a));
    }
  }

  /** Decoding the five entities `escapeHtml` writes; a reference inverse. */
  function UnescapeHtml(s: string): string
    decreases |s|
  {
    if s == [] then []
    else if StartsWith(s, "&amp;") then "&" + UnescapeHtml(s[5..])
    else if StartsWith(s, "&lt;") then "<" + UnescapeHtml(s[4..])
    else if StartsWith(s, "&gt;") then ">" + UnescapeHtml(s[4..])
    else if StartsWith(s, "&quot;") then "\"" + UnescapeHtml(s[6..])
    else if StartsWith(s, "&#039;") then "'" + UnescapeHtml(s[6..])
    else [s[0]] + UnescapeHtml(s[1..])
  }

  /** A text differing from an entity in some position does not start with it. */
  lemma NotEntityAt(t: string, entity: string, i: int)
    requires 0 <= i < |entity| && i < |t| && t[i] != entity[i]
    ensures !StartsWith(t, entity)
  {
  }

  lemma UnescapeOfEntity(c: char, entity: string, rest: string)
    requires entity == EscapeChar(c) && IsHtmlSpecial(c)
    ensures UnescapeHtml(entity + rest) == [c] + UnescapeHtml(rest)
  {
    var t := entity + rest;
    assert t[..|entity|] == entity && t[|entity|..] == rest;
    if c == '<' {
      NotEntityAt(t, "&amp;", 1);
    } else if c == '>' {
      NotEntityAt(t, "&amp;", 1);
      NotEntityAt(t, "&lt;", 1);
    } else if c == '"' {
      NotEntityAt(t, "&amp;", 1);
      NotEntityAt(t, "&lt;", 1);
      NotEntityAt(t, "&gt;", 1);
    } else if c == '\'' {
      NotEntityAt(t, "&amp;", 1);
      NotEntityAt(t, "&lt;", 1);
      NotEntityAt(t, "&gt;", 1);
      NotEntityAt(t, "&quot;", 1);
    }
  }

  lemma UnescapeOfPlain(c: char, rest: string)
    requires !IsHtmlSpecial(c)
    ensures UnescapeHtml([c] + rest) == [c] + UnescapeHtml(rest)
  {
    var t := [c] + rest;
    NotEntityAt(t, "&amp;", 0);
    NotEntityAt(t, "&lt;", 0);
    NotEntityAt(t, "&gt;", 0);
    NotEntityAt(t, "&quot;", 0);
    NotEntityAt(t, "&#039;", 0);
    assert t[1..] == rest;
  }

  lemma UnescapeOfEscapeChar(c: char, rest: string)
    ensures UnescapeHtml(EscapeChar(c) + rest) == [c] + UnescapeHtml(rest)
  {
    if IsHtmlSpecial(c) {
      UnescapeOfEntity(c, EscapeChar(c), rest);
    } else {
      UnescapeOfPlain(c, rest);
    }
  }

  /** Escaping loses nothing: decoding the entities gives back the text. */
  lemma {:induction false} UnescapeEscape(s: string)
    ensures UnescapeHtml(EscapeHtml(s)) == s
  {
    if s != [] {
      UnescapeOfEscapeChar(s[0], EscapeHtml(s[1..]));
      UnescapeEscape(s[1..]);
      assert s == [s[0]] + s[1..];
    }
  }

  /** getRenderedContent before Markdown: empty for a missing or empty text,
      otherwise the escaped text handed to the Markdown parser. */
  function RenderSource(text: Option<string>): (html: string)
    ensures html == [] <==> (text.None? || text.value == [])
    ensures text.Some? ==> UnescapeHtml(html) == text.value
  {
    if text.None? || text.value == [] then ""
    else
      UnescapeEscape(text.value);
      EscapeHtml(text.value)
  }

  // ---------------------------------------------------------------- header

  /** `message.name ? message.name.substring(0, 2).toUpperCase() : '??'`. */
  function AvatarText(name: Option<string>): (r: string)
    ensures name.None? || name.value == [] ==> r == "??"
    ensures name.Some? && name.value != [] ==>
              |r| == (if |name.value| < 2 then |name.value| else 2)
              && forall k :: 0 <= k < |r| ==> r[k] == UpperChar(name.value[k])
  {
    if name.None? || name.value == [] then "??"
    else ToUpper(name.value[..if |name.value| < 2 then |name.value| else 2])
  }

  /** `{isOwn && onDelete && …}`: the delete button is shown on the user's own
      messages, and only when a delete handler was passed. */
  predicate DeleteButtonShown(isOwn: bool, hasOnDelete: bool) {
    isOwn && hasOnDelete
  }

  // ---------------------------------------------------------------- code label

  const LanguagePrefix := "language-"

  /** The label of a code block: the text after `language-` in the first class
      of the `<code>` element that starts with it, or `code` when none does. */
  function CodeLabel(classes: seq<string>): (lang: string)
    ensures (forall k :: 0 <= k < |classes| ==> !StartsWith(classes[k], LanguagePrefix)) ==> lang == "code"
  {
    if classes == [] then "code"
    else if StartsWith(classes[0], LanguagePrefix) then classes[0][|LanguagePrefix|..]
    else CodeLabel(classes[1..])
  }

  /** The first `language-` class decides the label, whatever classes follow. */
  lemma {:induction false} CodeLabelOfFirst(classes: seq<string>, i: int)
    requires 0 <= i < |classes| && StartsWith(classes[i], LanguagePrefix)
    requires forall j :: 0 <= j < i ==> !StartsWith(classes[j], LanguagePrefix)
    ensures CodeLabel(classes) == classes[i][|LanguagePrefix|..]
    ensures LanguagePrefix + CodeLabel(classes) == classes[i]
  {
    if i > 0 {
      CodeLabelOfFirst(classes[1..], i - 1);
    }
  }

  // ---------------------------------------------------------------- countdown

  /** `Math.ceil(remaining / 1000)` for a non-negative number of milliseconds. */
  function CeilSeconds(remaining: int): (s: int)
    requires remaining >= 0
    ensures s >= 0
    ensures 1000 * (s - 1) < remaining <= 1000 * s || (s == 0 && remaining == 0)
    ensures s == 0 <==> remaining == 0
  {
    (remaining + 999) / 1000
  }

  /** One interval tick of the countdown at time `now`: the seconds shown and
      whether the message has expired. It expires exactly when the end time is
      reached, and then shows 0. */
  function CountdownAt(endTime: int, now: int): (r: (int, bool))
    ensures r.0 >= 0
    ensures r.1 <==> now >= endTime
    ensures r.1 <==> r.0 == 0
  {
    var remaining := if endTime - now > 0 then endTime - now else 0;
    (CeilSeconds(remaining), remaining <= 0)
  }

  /** The seconds shown never go up as time passes. */
  lemma CountdownNonIncreasing(endTime: int, now1: int, now2: int)
    requires now1 <= now2
    ensures CountdownAt(endTime, now2).0 <= CountdownAt(endTime, now1).0
    ensures CountdownAt(endTime, now1).1 ==> CountdownAt(endTime, now2).1
  {
    var r1 := if endTime - now1 > 0 then endTime - now1 else 0;
    var r2 := if endTime - now2 > 0 then endTime - now2 else 0;
    assert r2 <= r1;
    assert (r2 + 999) / 1000 <= (r1 + 999) / 1000;
  }

  /** The countdown state of one message item: `isExpired`, `countdown`, and the
      end time of the running interval (`None` when no interval runs). */
  class Countdown {
    const ephemeral: int
    var isExpired: bool
    var countdown: Option<int>
    var endTime: Option<int>

    /** An expired item runs no interval. */
    ghost predicate Valid()
      reads this
    {
      isExpired ==> endTime.None?
    }

    constructor (ephemeral: int)
      ensures Valid()
      ensures this.ephemeral == ephemeral && !isExpired && countdown.None? && endTime.None?
    {
      this.ephemeral := ephemeral;
      isExpired, countdown, endTime := false, None, None;
    }

    /** The effect: an interval starts only for an ephemeral message that has
        not expired, ending `ephemeral` milliseconds from now. */
    method Start(now: int)
      requires Valid()
      modifies this
      ensures Valid()
      ensures endTime == (if ephemeral > 0 && !isExpired then Some(now + ephemeral) else old(endTime))
      ensures isExpired == old(isExpired) && countdown == old(countdown)
    {
      if ephemeral > 0 && !isExpired {
        endTime := Some(now + ephemeral);
      }
    }

    /** One interval tick: show the rounded-up seconds; at zero remaining,
        stop the interval and expire. */
    method Tick(now: int)
      requires Valid() && endTime.Some?
      modifies this
      ensures Valid()
      ensures countdown == Some(CountdownAt(old(endTime.value), now).0)
      ensures isExpired <==> CountdownAt(old(endTime.value), now).1
      ensures endTime == (if isExpired then None else old(endTime))
    {
      var step := CountdownAt(endTime.value, now);
      countdown := Some(step.0);
      if step.1 {
        endTime := None;
        isExpired := true;
      }
    }

    /** An expired item renders nothing. */
    predicate Renders()
      reads this
    {
      !isExpired
    }

    /** The `Self-destructs in …s` badge. */
    predicate BadgeShown()
      reads this
    {
      ephemeral > 0 && countdown.Some?
    }
  }

  /** A countdown for a ten-second message shows 10 at the start, 1 in its
      last second, and expires (and disappears) at the end time. */
  method TenSecondCountdown()
  {
    var c := new Countdown(10000);
    c.Start(5000);
    c.Tick(5000);
    assert c.countdown == Some(10) && c.Renders();
    c.Tick(14001);
    assert c.countdown == Some(1) && c.Renders();
    c.Tick(15000);
    assert c.countdown == Some(0) && !c.Renders();
    c.Start(16000);
    assert c.endTime.None?;
  }
}
