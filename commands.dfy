/**
 * Slash-command parsing shared by the plain client (public/script.js) and the
 * React chat screen: the command word, its arguments, the `/poll` line and
 * the text a `/burn` sends.
 */
module Commands {
  import opened Strings

  datatype Command = Command(name: string, args: seq<string>)

  /** `parts = text.split(' ')`, the lower-cased first part, and `parts.slice(1)`. */
  function ParseCommand(text: string): (c: Command)
  {
    var parts := Split(text, ' ');
    Command(ToLower(parts[0]), parts[1..])
  }

  /** `args.join(' ')`: the argument text a command works on. */
  function ArgLine(text: string): string
  {
    Join(ParseCommand(text).args, ' ')
  }

  /** The command word is the text up to the first space, lower-cased, and the
      joined arguments are exactly the text after that space. */
  lemma {:induction false} ArgLineIsRestOfText(text: string)
    ensures ' ' !in text ==> ParseCommand(text).name == ToLower(text) && ArgLine(text) == ""
    ensures ' ' in text ==> exists i :: 0 <= i < |text| && text[i] == ' ' && ' ' !in text[..i]
                                      && ParseCommand(text).name == ToLower(text[..i])
                                      && ArgLine(text) == text[i + 1..]
  {
    var parts := Split(text, ' ');
    JoinSplit(text, ' ');
    if |parts| == 1 {
      assert Join(parts, ' ') == parts[0] == text;
      assert ' ' !in text;
    } else {
      JoinCons(parts[0], parts[1..], ' ');
      assert parts == [parts[0]] + parts[1..];
      var i := |parts[0]|;
      assert text == parts[0] + [' '] + Join(parts[1..], ' ');
      assert text[..i] == parts[0] && text[i] == ' ' && text[i + 1..] == Join(parts[1..], ' ');
    }
  }

  /** The command word and the argument text of `word + " " + rest`. */
  lemma CommandWord(text: string, word: string, rest: string)
    requires text == word + " " + rest && ' ' !in word
    requires forall i :: 0 <= i < |word| ==> LowerChar(word[i]) == word[i]
    ensures ParseCommand(text).name == word && ArgLine(text) == rest
  {
    ArgLineIsRestOfText(text);
    var i :| 0 <= i < |text| && text[i] == ' ' && ' ' !in text[..i]
             && ParseCommand(text).name == ToLower(text[..i]) && ArgLine(text) == text[i + 1..];
    assert text[..|word|] == word && text[|word|] == ' ';
    assert i == |word|;
    assert text[..i] == word;
    assert text[i + 1..] == rest;
  }

  /** A lower-case word with no space, alone, is that command with no
      arguments. */
  lemma CommandWordAlone(word: string)
    requires |word| > 0 && word[0] == '/' && ' ' !in word
    requires forall i :: 0 <= i < |word| ==> LowerChar(word[i]) == word[i]
    ensures StartsWith(word, "/")
    ensures ParseCommand(word).name == word && ArgLine(word) == ""
  {
    ArgLineIsRestOfText(word);
    assert ToLower(word) == word;
  }

  /** A text with no space is its own command word, lower-cased, with no
      arguments. */
  lemma SingleWordCommand(text: string)
    requires ' ' !in text
    ensures ParseCommand(text).name == ToLower(text) && ArgLine(text) == ""
  {
    ArgLineIsRestOfText(text);
  }

  /** The command word is lower-cased: `/CLEAR` is the `/clear` command. */
  lemma CommandWordIgnoresCase()
    ensures StartsWith("/CLEAR", "/") && ParseCommand("/CLEAR").name == "/clear"
  {
    SingleWordCommand("/CLEAR");
    assert ToLower("/CLEAR") == "/clear";
    assert "/CLEAR"[..1] == "/";
  }

  /** A lower-case command word, a space and an argument line: a command
      with that word, whose argument text is the line. */
  lemma SlashCommandText(word: string, rest: string)
    requires |word| > 0 && word[0] == '/' && ' ' !in word
    requires forall i :: 0 <= i < |word| ==> LowerChar(word[i]) == word[i]
    ensures StartsWith(word + " " + rest, "/")
    ensures ParseCommand(word + " " + rest).name == word && ArgLine(word + " " + rest) == rest
  {
    CommandWord(word + " " + rest, word, rest);
    assert (word + " " + rest)[..1] == [word[0]];
  }

  /** `/poll ` followed by a line is the `/poll` command with that line as
      its argument text. */
  lemma PollCommandText(line: string)
    ensures StartsWith("/poll " + line, "/")
    ensures ParseCommand("/poll " + line).name == "/poll" && ArgLine("/poll " + line) == line
  {
    SlashCommandText("/poll", line);
    assert "/poll" + " " + line == "/poll " + line;
  }

  /** `/burn` alone is the `/burn` command with no argument text. */
  lemma BareBurnText()
    ensures StartsWith("/burn", "/")
    ensures ParseCommand("/burn").name == "/burn" && ArgLine("/burn") == ""
  {
    SingleWordCommand("/burn");
    assert ToLower("/burn") == "/burn";
  }

  // ---------------------------------------------------------------- /poll

  function TrimEach(pieces: seq<string>): (r: seq<string>)
    ensures |r| == |pieces| && forall k :: 0 <= k < |r| ==> r[k] == Trim(pieces[k])
  {
    if pieces == [] then [] else [Trim(pieces[0])] + TrimEach(pieces[1..])
  }

  function KeepNonEmpty(pieces: seq<string>): (r: seq<string>)
    ensures |r| <= |pieces|
    ensures forall k :: 0 <= k < |r| ==> r[k] != [] && r[k] in pieces
  {
    if pieces == [] then []
    else if pieces[0] == [] then KeepNonEmpty(pieces[1..])
    else [pieces[0]] + KeepNonEmpty(pieces[1..])
  }

  /** The filter distributes over concatenation: the kept pieces of two runs
      are kept in the same order. */
  lemma {:induction false} KeepNonEmptyAppend(a: seq<string>, b: seq<string>)
    ensures KeepNonEmpty(a + b) == KeepNonEmpty(a) + KeepNonEmpty(b)
    decreases |a|
  {
    if a != [] {
      assert (a + b)[0] == a[0] && (a + b)[1..] == a[1..] + b;
      KeepNonEmptyAppend(a[1..], b);
    } else {
      assert a + b == b;
    }
  }

  /** Every non-empty piece is kept. */
  lemma {:induction false} KeepNonEmptyKeeps(pieces: seq<string>, k: int)
    requires 0 <= k < |pieces| && pieces[k] != []
    ensures pieces[k] in KeepNonEmpty(pieces)
  {
    if k > 0 {
      KeepNonEmptyKeeps(pieces[1..], k - 1);
    }
  }

  /** A trimmed, non-empty piece of a `/poll` line with no `|` in it. */
  predicate IsPollPart(p: string) {
    p != [] && '|' !in p && !IsSpace(p[0]) && !IsSpace(p[|p| - 1])
  }

  /** Trimmed pieces with no `|` in them. */
  predicate TrimmedPieces(pieces: seq<string>) {
    forall k :: 0 <= k < |pieces| ==> '|' !in pieces[k] && (pieces[k] == [] || (!IsSpace(pieces[k][0]) && !IsSpace(pieces[k][|pieces[k]| - 1])))
  }

  /** Trimming pieces free of `|` gives trimmed pieces free of `|`. */
  lemma TrimEachIsTrimmed(pieces: seq<string>)
    requires forall k :: 0 <= k < |pieces| ==> '|' !in pieces[k]
    ensures TrimmedPieces(TrimEach(pieces))
  {
    var t := TrimEach(pieces);
    forall k | 0 <= k < |t| ensures '|' !in t[k] {
      TrimKeepsAbsent(pieces[k], '|');
    }
  }

  /** The non-empty ones among trimmed pieces free of `|` are poll parts. */
  lemma KeptArePollParts(pieces: seq<string>)
    requires TrimmedPieces(pieces)
    ensures forall k :: 0 <= k < |KeepNonEmpty(pieces)| ==> IsPollPart(KeepNonEmpty(pieces)[k])
  {
    var parts := KeepNonEmpty(pieces);
    forall k | 0 <= k < |parts| ensures IsPollPart(parts[k]) {
      var j :| 0 <= j < |pieces| && pieces[j] == parts[k];
    }
  }

  /** `line.split('|').map(s => s.trim()).filter(s => s.length > 0)`. */
  function PollParts(line: string): (parts: seq<string>)
    ensures |parts| <= Count(line, '|') + 1
    ensures forall k :: 0 <= k < |parts| ==> IsPollPart(parts[k])
  {
    var pieces := Split(line, '|');
    TrimEachIsTrimmed(pieces);
    KeptArePollParts(TrimEach(pieces));
    KeepNonEmpty(TrimEach(pieces))
  }

  /** Every piece between `|`s that is not blank is a part, trimmed. */
  lemma PollPartsKeepEveryPiece(line: string, k: int)
    requires 0 <= k < |Split(line, '|')| && !Blank(Split(line, '|')[k])
    ensures Trim(Split(line, '|')[k]) in PollParts(line)
  {
    var pieces := Split(line, '|');
    TrimEmptyIffBlank(pieces[k]);
    KeepNonEmptyKeeps(TrimEach(pieces), k);
  }

  lemma TrimOfTrimmed(p: string)
    requires p == [] || (!IsSpace(p[0]) && !IsSpace(p[|p| - 1]))
    ensures Trim(p) == p
  {
  }

  lemma {:induction false} KeepNonEmptyOfNonEmpty(pieces: seq<string>)
    requires forall k :: 0 <= k < |pieces| ==> pieces[k] != []
    ensures KeepNonEmpty(pieces) == pieces
  {
    if pieces != [] {
      KeepNonEmptyOfNonEmpty(pieces[1..]);
      assert pieces == [pieces[0]] + pieces[1..];
    }
  }

  lemma {:induction false} TrimEachOfPollParts(parts: seq<string>)
    requires forall k :: 0 <= k < |parts| ==> IsPollPart(parts[k])
    ensures TrimEach(parts) == parts
  {
    if parts != [] {
      TrimOfTrimmed(parts[0]);
      TrimEachOfPollParts(parts[1..]);
      assert parts == [parts[0]] + parts[1..];
    }
  }

  lemma PollPartsOfPieces(line: string, parts: seq<string>)
    requires Split(line, '|') == parts
    requires TrimEach(parts) == parts
    requires KeepNonEmpty(parts) == parts
    ensures PollParts(line) == parts
  {
  }

  /** Parsing is the inverse of writing the parts separated by `|`: a line
      built from well-formed parts yields exactly those parts. */
  lemma PollPartsOfJoin(parts: seq<string>)
    requires parts != []
    requires forall k :: 0 <= k < |parts| ==> IsPollPart(parts[k])
    ensures PollParts(Join(parts, '|')) == parts
  {
    SplitJoin(parts, '|');
    TrimEachOfPollParts(parts);
    KeepNonEmptyOfNonEmpty(parts);
    PollPartsOfPieces(Join(parts, '|'), parts);
  }

  datatype PollRequest = PollRequest(question: string, options: seq<string>)

  /** The first part is the question and the rest are the options; fewer than
      three parts ask for no poll. */
  function PollOfParts(parts: seq<string>): (p: Option<PollRequest>)
    ensures p.Some? <==> |parts| >= 3
    ensures p.Some? ==> [p.value.question] + p.value.options == parts && |p.value.options| >= 2
  {
    if |parts| < 3 then None
    else
      assert parts == [parts[0]] + parts[1..];
      Some(PollRequest(parts[0], parts[1..]))
  }

  /** The poll a `/poll` argument line asks for, or `None` when it has fewer
      than three parts (the usage message case). */
  function ParsePoll(line: string): (p: Option<PollRequest>)
    ensures p.Some? <==> |PollParts(line)| >= 3
    ensures p.Some? ==> Count(line, '|') >= 2 && |p.value.options| >= 2
    ensures p.Some? ==> [p.value.question] + p.value.options == PollParts(line)
    ensures p.Some? ==> IsPollPart(p.value.question)
    ensures p.Some? ==> forall k :: 0 <= k < |p.value.options| ==> IsPollPart(p.value.options[k])
  {
    var parts := PollParts(line);
    var p := PollOfParts(parts);
    if p.Some? then
      assert forall k :: 0 <= k < |p.value.options| ==> p.value.options[k] == parts[k + 1];
      p
    else p
  }

  // ---------------------------------------------------------------- fixed texts

  const BurnPrefix := "\U{1F525} [Self-destructing] "
  const EphemeralMarker := " ||ephemeral|10000||"
  const BurnUsage := "Usage: /burn <message>"
  const PollUsage := "Usage: /poll Question | Option 1 | Option 2 ..."
  const ShrugText := "\U{AF}\\_(\U{30C4})_/\U{AF}"

  /** The text a `/burn` sends: the secret between the banner and the
      ten-second ephemeral marker, recoverable from the text. */
  function BurnText(secret: string): (t: string)
    ensures |t| == |BurnPrefix| + |secret| + |EphemeralMarker|
    ensures StartsWith(t, BurnPrefix)
    ensures t[|BurnPrefix|..|t| - |EphemeralMarker|] == secret
    ensures t[|t| - |EphemeralMarker|..] == EphemeralMarker
  {
    BurnPrefix + secret + EphemeralMarker
  }
}
