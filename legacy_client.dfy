/**
 * public/script.js: the plain (non-React) client. Its room histories in
 * `localStorage`, the message container with its 100-node recycling, the
 * deterministic direct-message room id, `sendMessage` and the slash
 * commands, the invitations panel, the typing indicator, attachments, code
 * mode, and the inactivity check at load and on every interval tick.
 */
module LegacyClient {
  import opened Strings
  import opened Protocol
  import opened Browser
  import opened Inactivity
  import opened Commands
  import opened MessageInput

  // ---------------------------------------------------------------- bounded lists

  /** The last `n` elements of `s`, or all of them when it has fewer. */
  function Last<T>(s: seq<T>, n: nat): seq<T>
  {
    if |s| <= n then s else s[|s| - n..]
  }

  /** Push `x`, then drop the oldest element when more than `cap` are held:
      the shape of both saveToHistory's shift/push and renderMessage's
      `removeChild(firstChild)`. The new element is last, and at most the
      oldest one is lost. */
  function PushCapped<T>(s: seq<T>, x: T, cap: nat): (r: seq<T>)
    requires cap > 0
    ensures |r| > 0 && r[|r| - 1] == x
    ensures |r| == (if |s| >= cap then |s| else |s| + 1)
    ensures r[..|r| - 1] == s[|s| + 1 - |r|..]
  {
    if |s| + 1 > cap then
      assert (s[1..] + [x])[..|s| - 1] == s[1..];
      s[1..] + [x]
    else
      assert (s + [x])[..|s|] == s;
      s + [x]
  }

  /** Keeping the last `n` of a longer list and then of an extension is keeping
      the last `n` of the whole. */
  lemma LastOfLast<T>(u: seq<T>, v: seq<T>, n: nat)
    ensures Last(Last(u, n) + v, n) == Last(u + v, n)
  {
    var a := Last(u, n);
    assert a + v == (u + v)[|u| - |a|..];
  }

  /** On a list within the cap, a push keeps exactly the newest `cap` elements. */
  lemma PushCappedIsLast<T>(s: seq<T>, x: T, cap: nat)
    requires cap > 0 && |s| <= cap
    ensures PushCapped(s, x, cap) == Last(s + [x], cap)
  {
  }

  /** A run of capped pushes, oldest first. */
  function PushAll<T>(s: seq<T>, xs: seq<T>, cap: nat): seq<T>
    requires cap > 0
    decreases |xs|
  {
    if xs == [] then s else PushCapped(PushAll(s, xs[..|xs| - 1], cap), xs[|xs| - 1], cap)
  }

  /** One capped push onto the newest `cap` elements of `u` keeps the newest
      `cap` elements of `u` extended by the pushed one. */
  lemma PushOntoLast<T>(u: seq<T>, x: T, cap: nat)
    requires cap > 0
    ensures PushCapped(Last(u, cap), x, cap) == Last(u + [x], cap)
  {
    PushCappedIsLast(Last(u, cap), x, cap);
    LastOfLast(u, [x], cap);
  }

  /** Starting within the cap, any run of pushes keeps exactly the newest `cap`
      elements, in order. */
  lemma {:induction false} PushAllIsLast<T>(s: seq<T>, xs: seq<T>, cap: nat)
    requires cap > 0 && |s| <= cap
    ensures PushAll(s, xs, cap) == Last(s + xs, cap)
    decreases |xs|
  {
    if xs == [] {
      assert s + xs == s;
    } else {
      var init, x := xs[..|xs| - 1], xs[|xs| - 1];
      var u := s + init;
      assert u + [x] == s + xs by { assert init + [x] == xs; }
      assert PushAll(s, init, cap) == Last(u, cap) by { PushAllIsLast(s, init, cap); }
      assert PushCapped(Last(u, cap), x, cap) == Last(u + [x], cap) by { PushOntoLast(u, x, cap); }
    }
  }

  // ---------------------------------------------------------------- room history

  /** `if (history.length > 50) history.shift()` before the push. */
  const HistoryLimit := 50

  /** What saveToHistory has in hand before its push: the stored list
      (whichever client wrote it); `[]` when nothing is stored or the text
      does not parse (the `catch`); `None` when it parses to a number or an
      object, which has no `push`, so the push throws. */
  function SavedList(v: Option<Value>): (r: Option<seq<StoredItem>>)
    ensures v.None? || v.value.Text? ==> r == Some([])
    ensures v.Some? && v.value.History? ==> r == Some(v.value.items)
    ensures r.None? <==> v.Some? && (v.value.Time? || v.value.Session?)
  {
    match v
    case None => Some([])
    case Some(Text(_)) => Some([])
    case Some(History(items)) => Some(items)
    case Some(_) => None
  }

  /** The store after saveToHistory pushed `e` for `roomId`: unchanged for an
      empty room id or when the push throws; otherwise the list read back,
      its oldest item dropped when it holds more than 50, with `e` last. */
  function SavedStore(items: map<string, Value>, roomId: string, e: HistoryEntry): map<string, Value>
  {
    var key := HistoryKey(roomId);
    var list := SavedList(if key in items then Some(items[key]) else None);
    if roomId == "" || list.None? then items
    else items[key := History(PushCapped(list.value, Entry(e), HistoryLimit + 1))]
  }

  /** saveToHistory throws exactly when the push does. */
  predicate SaveThrows(items: map<string, Value>, roomId: string)
  {
    var key := HistoryKey(roomId);
    roomId != "" && key in items && (items[key].Time? || items[key].Session?)
  }

  /** A list the React client wrote is kept, not overwritten: the plain
      client's entry goes after its messages (the oldest dropped beyond 50),
      and the React client then reads the messages back with the entry's
      message last. */
  lemma SaveExtendsReactHistory(items: map<string, Value>, roomId: string, msgs: seq<Message>, e: HistoryEntry)
    requires roomId != "" && HistoryKey(roomId) in items && items[HistoryKey(roomId)] == History(PlainItems(msgs))
    ensures var kept := if |msgs| > HistoryLimit then msgs[1..] else msgs;
            SavedStore(items, roomId, e)[HistoryKey(roomId)] == History(PlainItems(kept) + [Entry(e)])
  {
    var kept := if |msgs| > HistoryLimit then msgs[1..] else msgs;
    var list := PlainItems(msgs);
    var pushed := PushCapped(list, Entry(e), HistoryLimit + 1);
    assert pushed[..|pushed| - 1] == PlainItems(kept);
    assert pushed == pushed[..|pushed| - 1] + [pushed[|pushed| - 1]];
  }

  /** Saving entries one after another into an empty history keeps the newest
      51 of them, in order: the cap is one more than the 50 the code names. */
  lemma SavesKeepNewest(entries: seq<HistoryEntry>)
    ensures PushAll([], entries, HistoryLimit + 1) == Last(entries, HistoryLimit + 1)
    ensures |PushAll([], entries, HistoryLimit + 1)| == (if |entries| < 51 then |entries| else 51)
  {
    PushAllIsLast([], entries, HistoryLimit + 1);
    assert [] + entries == entries;
  }

  // ---------------------------------------------------------------- the message container

  /** A child of the `#messages` container. */
  datatype Node =
    | EmptyStateNode
    | MessageNode(message: Message, own: bool)
    | PollNode(poll: Message)
    | SystemNode(text: string)

  /** DOM recycling: renderMessage keeps at most 100 children. */
  const MaxNodes := 100

  /** The empty state, when shown, is the first child and the only one of its
      kind: it is added only to a freshly cleared container. */
  predicate EmptyStateFirst(nodes: seq<Node>) {
    forall i :: 0 < i < |nodes| ==> nodes[i] != EmptyStateNode
  }

  /** hideEmptyState: `#emptyState` is removed if present. */
  function HideEmptyState(nodes: seq<Node>): (r: seq<Node>)
    ensures |r| <= |nodes|
  {
    if nodes != [] && nodes[0] == EmptyStateNode then nodes[1..] else nodes
  }

  /** On a container where the empty state can only come first, hiding it
      removes it and keeps every other child in order. */
  lemma HideEmptyStateRemovesIt(nodes: seq<Node>)
    requires EmptyStateFirst(nodes)
    ensures EmptyStateNode !in HideEmptyState(nodes)
    ensures var r := HideEmptyState(nodes);
            |r| == |nodes| - (if EmptyStateNode in nodes then 1 else 0)
            && forall i :: 0 <= i < |r| ==> r[i] == nodes[i + |nodes| - |r|]
  {
    var r := HideEmptyState(nodes);
    if nodes != [] && nodes[0] == EmptyStateNode {
      assert r == nodes[1..];
      assert forall i :: 0 <= i < |r| ==> r[i] == nodes[i + 1];
      assert EmptyStateNode !in r by {
        forall i | 0 <= i < |r| ensures r[i] != EmptyStateNode {
          assert r[i] == nodes[i + 1];
        }
      }
    } else {
      assert r == nodes;
      assert EmptyStateNode !in nodes by {
        forall i | 0 <= i < |nodes| ensures nodes[i] != EmptyStateNode {
          if i == 0 { assert nodes != [] && nodes[0] != EmptyStateNode; }
        }
      }
    }
  }

  lemma HideKeepsEmptyStateFirst(nodes: seq<Node>)
    ensures EmptyStateFirst(nodes) ==> EmptyStateFirst(HideEmptyState(nodes))
  {
    if EmptyStateFirst(nodes) && nodes != [] && nodes[0] == EmptyStateNode {
      var r := nodes[1..];
      forall i | 0 < i < |r| ensures r[i] != EmptyStateNode {
        assert r[i] == nodes[i + 1];
      }
    }
  }

  lemma PushKeepsEmptyStateFirst(nodes: seq<Node>, x: Node, cap: nat)
    requires cap > 0 && x != EmptyStateNode
    ensures EmptyStateFirst(nodes) ==> EmptyStateFirst(PushCapped(nodes, x, cap))
  {
    var r := PushCapped(nodes, x, cap);
    if EmptyStateFirst(nodes) {
      forall i | 0 < i < |r| ensures r[i] != EmptyStateNode {
        if i < |r| - 1 {
          assert r[i] == r[..|r| - 1][i] == nodes[|nodes| + 1 - |r| + i];
        }
      }
    }
  }

  /** The container after renderMessage (or the point where it threw). */
  datatype Rendering = Rendering(nodes: seq<Node>, threw: bool)

  /** renderMessage(data, isRestoring) as the user `user` sees it. A live
      message hides the empty state first. A restored ephemeral message is
      skipped. A message without a name throws at `data.name.substring`
      before anything is appended. Otherwise the message is appended, owned
      when its name is the user's, and the first child goes when more than
      100 are held. */
  function RenderStep(nodes: seq<Node>, data: Message, isRestoring: bool, user: string): (r: Rendering)
    ensures r.threw <==> data.name.None? && !(isRestoring && data.ephemeral != 0)
    ensures isRestoring && data.ephemeral != 0 ==> r.nodes == nodes
    ensures !r.threw && !(isRestoring && data.ephemeral != 0) ==>
              |r.nodes| > 0 && r.nodes[|r.nodes| - 1] == MessageNode(data, data.name == Some(user))
    ensures |nodes| <= MaxNodes ==> |r.nodes| <= MaxNodes
    ensures EmptyStateFirst(nodes) ==> EmptyStateFirst(r.nodes)
  {
    var shown := if isRestoring then nodes else HideEmptyState(nodes);
    HideKeepsEmptyStateFirst(nodes);
    assert |shown| <= |nodes| && (EmptyStateFirst(nodes) ==> EmptyStateFirst(shown));
    if isRestoring && data.ephemeral != 0 then Rendering(shown, false)
    else if data.name.None? then Rendering(shown, true)
    else
      var node := MessageNode(data, data.name == Some(user));
      PushKeepsEmptyStateFirst(shown, node, MaxNodes);
      Rendering(PushCapped(shown, node, MaxNodes), false)
  }

  /** One entry of restoreHistory's `forEach`: messages are rendered as
      restored, polls are appended (with no cap), anything else is skipped;
      nothing runs after a throw. */
  function RestoreStep(r: Rendering, item: StoredItem, user: string): Rendering
  {
    if r.threw then r
    else match item
      case Entry(e) =>
        if e.kind == "message" then RenderStep(r.nodes, e.data, true, user)
        else if e.kind == "poll" then Rendering(r.nodes + [PollNode(e.data)], false)
        else r
      case Plain(m) =>
        // a React message typed `message` or `poll` has no `data`: the
        // restore throws reading `data.name` or `item.data.id`
        if m.kind == Some("message") || m.kind == Some("poll") then Rendering(r.nodes, true)
        else r
  }

  /** The container after restoring `entries` into a cleared container. */
  function Replay(entries: seq<StoredItem>, user: string): Rendering
    decreases |entries|
  {
    if entries == [] then Rendering([], false)
    else RestoreStep(Replay(entries[..|entries| - 1], user), entries[|entries| - 1], user)
  }

  /** Replaying one more entry is one more restore step. */
  lemma ReplayNext(entries: seq<StoredItem>, i: nat, user: string)
    requires i < |entries|
    ensures Replay(entries[..i + 1], user) == RestoreStep(Replay(entries[..i], user), entries[i], user)
  {
    assert entries[..i + 1][..i] == entries[..i];
  }

  /** The container holds no ephemeral or nameless message and no empty state. */
  predicate ShowsNoEphemeral(ns: seq<Node>) {
    && (forall k :: 0 <= k < |ns| && ns[k].MessageNode? ==> ns[k].message.ephemeral == 0 && ns[k].message.name.Some?)
    && EmptyStateNode !in ns
  }

  /** Appending a child that shows no ephemeral message or empty state, capped
      or not, keeps the container free of them. */
  lemma PushShowsNoEphemeral(ns: seq<Node>, x: Node, cap: nat)
    requires cap > 0 && ShowsNoEphemeral(ns) && ShowsNoEphemeral([x])
    ensures ShowsNoEphemeral(ns + [x]) && ShowsNoEphemeral(PushCapped(ns, x, cap))
  {
    assert [x][0] == x;
    var r := PushCapped(ns, x, cap);
    forall k | 0 <= k < |r| ensures r[k] == x || r[k] in ns {
      if k < |r| - 1 {
        assert r[k] == r[..|r| - 1][k];
      }
    }
    forall k | 0 <= k < |ns| + 1 ensures (ns + [x])[k] == x || (ns + [x])[k] in ns {
      if k < |ns| {
        assert (ns + [x])[k] == ns[k];
      }
    }
  }

  /** One restore step keeps the container free of ephemeral messages and of
      the empty state. */
  lemma RestoreStepShowsNoEphemeral(prev: Rendering, item: StoredItem, user: string)
    requires ShowsNoEphemeral(prev.nodes)
    ensures ShowsNoEphemeral(RestoreStep(prev, item, user).nodes)
  {
    if !prev.threw && item.Entry? {
      var e := item.entry;
      if e.kind == "message" && e.data.ephemeral == 0 && e.data.name.Some? {
        var node := MessageNode(e.data, e.data.name == Some(user));
        assert RestoreStep(prev, item, user).nodes == PushCapped(prev.nodes, node, MaxNodes);
        PushShowsNoEphemeral(prev.nodes, node, MaxNodes);
      } else if e.kind == "poll" {
        PushShowsNoEphemeral(prev.nodes, PollNode(e.data), MaxNodes);
      }
    }
  }

  /** A restored container shows no ephemeral message, no message that would
      have thrown, and no empty state. */
  lemma {:induction false} ReplayShowsNoEphemeral(entries: seq<StoredItem>, user: string)
    ensures var ns := Replay(entries, user).nodes;
            forall k :: 0 <= k < |ns| && ns[k].MessageNode? ==> ns[k].message.ephemeral == 0 && ns[k].message.name.Some?
    ensures EmptyStateNode !in Replay(entries, user).nodes
    decreases |entries|
  {
    if entries != [] {
      var init := entries[..|entries| - 1];
      ReplayShowsNoEphemeral(init, user);
      RestoreStepShowsNoEphemeral(Replay(init, user), entries[|entries| - 1], user);
    }
  }

  /** Once an entry has thrown, the later entries change nothing. */
  lemma {:induction false} ReplayStaysThrown(entries: seq<StoredItem>, i: nat, user: string)
    requires i <= |entries| && Replay(entries[..i], user).threw
    ensures Replay(entries, user) == Replay(entries[..i], user)
    decreases |entries| - i
  {
    if i < |entries| {
      assert entries[..i + 1][..i] == entries[..i];
      ReplayStaysThrown(entries, i + 1, user);
    } else {
      assert entries[..i] == entries;
    }
  }

  /** What restoreHistory leaves in the container, or `None` when the stored
      text does not parse (the parse throws before the container is
      cleared). A number or an object is parsed, the container cleared, and
      the `forEach` throws. A list is replayed; an empty one shows the empty
      state alone. */
  function RestoredPage(stored: Option<Value>, user: string): (r: Option<Rendering>)
    ensures stored.Some? && stored.value.Text? ==> r.None?
    ensures stored.Some? && (stored.value.Time? || stored.value.Session?) ==> r == Some(Rendering([], true))
    ensures stored.None? || stored == Some(History([])) ==> r == Some(Rendering([EmptyStateNode], false))
    ensures stored.Some? && stored.value.History? && stored.value.items != [] ==> r == Some(Replay(stored.value.items, user))
    ensures r.Some? ==> EmptyStateFirst(r.value.nodes)
  {
    match stored
    case Some(Text(_)) => None
    case Some(History(items)) =>
      var r := Replay(items, user);
      ReplayShowsNoEphemeral(items, user);
      if !r.threw && items == [] then
        assert r.nodes + [EmptyStateNode] == [EmptyStateNode];
        Some(Rendering(r.nodes + [EmptyStateNode], false))
      else Some(r)
    case None => Some(Rendering([EmptyStateNode], false))
    case Some(_) => Some(Rendering([], true))
  }

  /** A history holding a message or a poll the React client wrote cannot be
      restored: the replay throws there at the latest. */
  lemma ReactHistoryStopsRestore(msgs: seq<Message>, k: int, user: string)
    requires 0 <= k < |msgs| && (msgs[k].kind == Some("message") || msgs[k].kind == Some("poll"))
    ensures var r := RestoredPage(Some(History(PlainItems(msgs))), user);
            r.Some? && r.value.threw
  {
    var items := PlainItems(msgs);
    ReplayNext(items, k, user);
    ReplayStaysThrown(items, k + 1, user);
  }

  // ---------------------------------------------------------------- direct-message room id

  /** startDM's room id: `DM-x-y` for the two names stripped to `[a-zA-Z0-9]`,
      sorted. */
  function DmRoomId(user: string, target: string): string
  {
    var a, b := Sanitize(user), Sanitize(target);
    if LexLe(a, b) then "DM-" + a + "-" + b else "DM-" + b + "-" + a
  }

  /** Both ends of a conversation derive the same room id. */
  lemma DmRoomIdSymmetric(user: string, target: string)
    ensures DmRoomId(user, target) == DmRoomId(target, user)
  {
    var a, b := Sanitize(user), Sanitize(target);
    LexLeTotal(a, b);
    if LexLe(a, b) && LexLe(b, a) {
      LexLeAntisymmetric(a, b);
    }
  }

  lemma JoinThree(a: string, b: string, c: string, sep: char)
    ensures Join([a, b, c], sep) == a + [sep] + b + [sep] + c
  {
    assert [a, b, c] == [a] + [b, c] && [b, c] == [b] + [c];
    JoinCons(a, [b, c], sep);
    JoinCons(b, [c], sep);
  }

  lemma NoDashInSanitized(s: string)
    ensures '-' !in Sanitize(s)
  {
    var r := Sanitize(s);
    assert forall i :: 0 <= i < |r| ==> r[i] != '-';
  }

  lemma DashedParts(lo: string, hi: string)
    requires '-' !in lo && '-' !in hi
    ensures Split("DM-" + lo + "-" + hi, '-') == ["DM", lo, hi]
  {
    JoinThree("DM", lo, hi, '-');
    assert Join(["DM", lo, hi], '-') == "DM-" + lo + "-" + hi;
    SplitJoin(["DM", lo, hi], '-');
  }

  /** The room id splits on `-` into `DM` and the two stripped names, in order:
      the names can be read back from the id. */
  lemma DmRoomIdParts(user: string, target: string)
    ensures var p := Split(DmRoomId(user, target), '-');
            && |p| == 3 && p[0] == "DM" && LexLe(p[1], p[2])
            && multiset{p[1], p[2]} == multiset{Sanitize(user), Sanitize(target)}
  {
    var a, b := Sanitize(user), Sanitize(target);
    LexLeTotal(a, b);
    NoDashInSanitized(user);
    NoDashInSanitized(target);
    if LexLe(a, b) {
      DashedParts(a, b);
    } else {
      DashedParts(b, a);
    }
  }

  // ---------------------------------------------------------------- sendMessage and commands

  /** sendMessage's decision on the message box and the pending attachment. */
  datatype Decision = Ignore | SlashCommand(cmd: string) | Chat(text: string, attachment: Option<Attachment>)

  /** Blank text without an attachment is ignored; text starting with `/` is
      a command only when no attachment is pending; anything else is sent
      trimmed, with the attachment. */
  function SendDecision(input: string, pending: Option<Attachment>): (d: Decision)
    ensures d.Ignore? <==> Blank(input) && pending.None?
    ensures d.SlashCommand? ==> pending.None? && StartsWith(d.cmd, "/") && d.cmd == Trim(input)
    ensures d.Chat? ==> d.attachment == pending && d.text == Trim(input)
    ensures pending.Some? ==> d.Chat?
  {
    TrimEmptyIffBlank(input);
    var text := Trim(input);
    if text == "" && pending.None? then Ignore
    else if StartsWith(text, "/") && pending.None? then SlashCommand(text)
    else Chat(text, pending)
  }

  /** What a command does: send an event, add a system notice, or empty the
      container (and then add a notice). */
  datatype Action = Send(event: Event) | Say(notice: string) | ClearScreen

  const ClearedNotice := "Chat cleared locally."
  const UnknownCommand := "Unknown command. Try /help"
  const HelpIndent := "                        "
  /** The `/help` template literal, line breaks and indentation included. */
  const HelpText := "\n" + HelpIndent + "**Available Commands:**\n"
                    + HelpIndent + "- `/clear`: Clear local chat\n"
                    + HelpIndent + "- `/poll Q | Opt1 | Opt2`: Create a poll\n"
                    + HelpIndent + "- `/roll [max]`: Roll a dice\n"
                    + HelpIndent + "- `/shrug`: Send shrug\n"
                    + HelpIndent + "- `/burn <msg>`: Send message that deletes in 10s\n"
                    + "                    "

  /** `currentRoom || 'Public'`: the room a poll is created in. */
  function PollRoom(room: string): (r: string)
    ensures r != "" && (room != "" ==> r == room)
  {
    if room == "" then "Public" else room
  }

  /** handleSlashCommand. */
  function SlashAction(cmd: string, room: string, user: string): (a: Action)
    ensures a.Send? && a.event.ChatMessage? ==> a.event.attachment.None?
    ensures a.Send? && a.event.CreatePoll? ==> a.event.pollRoom == PollRoom(room) && a.event.creator == user
  {
    var c := ParseCommand(cmd);
    if c.name == "/clear" then ClearScreen
    else if c.name == "/roll" then Send(RollMessage(if |c.args| > 0 && c.args[0] != "" then Some(c.args[0]) else None))
    else if c.name == "/shrug" then Send(ChatMessage(ShrugText, None))
    else if c.name == "/burn" then
      (if ArgLine(cmd) == "" then Say(BurnUsage) else Send(ChatMessage(BurnText(ArgLine(cmd)), None)))
    else if c.name == "/poll" then
      match ParsePoll(ArgLine(cmd))
      case None => Say(PollUsage)
      case Some(p) => Send(CreatePoll(p.question, p.options, PollRoom(room), user))
    else if c.name == "/help" then Say(HelpText)
    else Say(UnknownCommand)
  }

  /** Typing `/poll ` and parts separated by `|` in the box, with no
      attachment, creates exactly that poll, in the current room or else in
      `Public`. */
  lemma PollRoundTrip(parts: seq<string>, room: string, user: string)
    requires |parts| >= 3
    requires forall k :: 0 <= k < |parts| ==> IsPollPart(parts[k])
    ensures var d := SendDecision("/poll " + Join(parts, '|'), None);
            d.SlashCommand? && SlashAction(d.cmd, room, user) == Send(CreatePoll(parts[0], parts[1..], PollRoom(room), user))
  {
    PollLineIsTrimmed(parts);
    PollPartsOfJoin(parts);
    PollSlashAction(Join(parts, '|'), parts, room, user);
  }

  lemma PollSlashAction(line: string, parts: seq<string>, room: string, user: string)
    requires PollParts(line) == parts && |parts| >= 3
    ensures SlashAction("/poll " + line, room, user) == Send(CreatePoll(parts[0], parts[1..], PollRoom(room), user))
  {
    PollCommandText(line);
    var p := ParsePoll(line).value;
    assert [p.question] + p.options == parts;
    assert p.question == parts[0] && p.options == parts[1..];
  }

  /** A line that starts with `/` and has nothing to trim is a command. */
  lemma TrimmedSlashLine(cmd: string)
    requires |cmd| > 0 && cmd[0] == '/' && !IsSpace(cmd[|cmd| - 1])
    ensures SendDecision(cmd, None) == SlashCommand(cmd)
  {
    TrimOfTrimmed(cmd);
    assert StartsWith(cmd, "/") by { assert cmd[..1] == "/"; }
  }

  lemma PollLineIsTrimmed(parts: seq<string>)
    requires |parts| >= 3
    requires forall k :: 0 <= k < |parts| ==> IsPollPart(parts[k])
    ensures SendDecision("/poll " + Join(parts, '|'), None) == SlashCommand("/poll " + Join(parts, '|'))
  {
    var line := Join(parts, '|');
    var cmd := "/poll " + line;
    JoinLast(parts, '|');
    assert cmd[|cmd| - 1] == line[|line| - 1];
    assert cmd[0] == '/';
    TrimmedSlashLine(cmd);
  }

  /** A `/burn` with no text only shows the usage; with text it sends the
      text wrapped for ten-second self-destruction. */
  lemma BurnOutcome(secret: string, room: string, user: string)
    ensures secret != "" ==> SlashAction("/burn " + secret, room, user) == Send(ChatMessage(BurnText(secret), None))
    ensures SlashAction("/burn", room, user) == Say(BurnUsage)
  {
    if secret != "" {
      SlashCommandText("/burn", secret);
      assert "/burn" + " " + secret == "/burn " + secret;
    }
    BareBurnText();
  }

  /** The action of a command by its command word alone. */
  lemma ActionOfWord(cmd: string, word: string, room: string, user: string)
    requires ParseCommand(cmd).name == word
    ensures word == "/clear" ==> SlashAction(cmd, room, user) == ClearScreen
    ensures word == "/help" ==> SlashAction(cmd, room, user) == Say(HelpText)
    ensures word == "/shrug" ==> SlashAction(cmd, room, user) == Send(ChatMessage(ShrugText, None))
    ensures word !in ["/clear", "/roll", "/shrug", "/burn", "/poll", "/help"] ==>
              SlashAction(cmd, room, user) == Say(UnknownCommand)
  {
  }

  lemma ClearAlone(room: string, user: string)
    ensures SlashAction("/clear", room, user) == ClearScreen
  {
    CommandWordAlone("/clear");
    ActionOfWord("/clear", "/clear", room, user);
  }

  lemma ClearWithArguments(rest: string, room: string, user: string)
    ensures SlashAction("/clear " + rest, room, user) == ClearScreen
  {
    CommandWord("/clear " + rest, "/clear", rest);
    ActionOfWord("/clear " + rest, "/clear", room, user);
  }

  /** `/clear`, with or without arguments, empties the container. */
  lemma ClearOutcome(rest: string, room: string, user: string)
    ensures SlashAction("/clear", room, user) == ClearScreen
    ensures SlashAction("/clear " + rest, room, user) == ClearScreen
  {
    ClearAlone(room, user);
    ClearWithArguments(rest, room, user);
  }

  /** The command word is matched in any letter case. */
  lemma UpperCaseOutcome(room: string, user: string)
    ensures SlashAction("/CLEAR", room, user) == ClearScreen
  {
    CommandWordIgnoresCase();
    ActionOfWord("/CLEAR", "/clear", room, user);
  }

  lemma HelpAlone(room: string, user: string)
    ensures SlashAction("/help", room, user) == Say(HelpText)
  {
    CommandWordAlone("/help");
    ActionOfWord("/help", "/help", room, user);
  }

  lemma HelpWithArguments(rest: string, room: string, user: string)
    ensures SlashAction("/help " + rest, room, user) == Say(HelpText)
  {
    CommandWord("/help " + rest, "/help", rest);
    ActionOfWord("/help " + rest, "/help", room, user);
  }

  /** `/help` shows the help text, arguments ignored. */
  lemma HelpOutcome(rest: string, room: string, user: string)
    ensures SlashAction("/help", room, user) == Say(HelpText)
    ensures SlashAction("/help " + rest, room, user) == Say(HelpText)
  {
    HelpAlone(room, user);
    HelpWithArguments(rest, room, user);
  }

  lemma ShrugAlone(room: string, user: string)
    ensures SlashAction("/shrug", room, user) == Send(ChatMessage(ShrugText, None))
  {
    CommandWordAlone("/shrug");
    ActionOfWord("/shrug", "/shrug", room, user);
  }

  lemma ShrugWithArguments(rest: string, room: string, user: string)
    ensures SlashAction("/shrug " + rest, room, user) == Send(ChatMessage(ShrugText, None))
  {
    CommandWord("/shrug " + rest, "/shrug", rest);
    ActionOfWord("/shrug " + rest, "/shrug", room, user);
  }

  /** `/shrug` sends the shrug as a chat message, arguments ignored. */
  lemma ShrugOutcome(rest: string, room: string, user: string)
    ensures SlashAction("/shrug", room, user) == Send(ChatMessage(ShrugText, None))
    ensures SlashAction("/shrug " + rest, room, user) == Send(ChatMessage(ShrugText, None))
  {
    ShrugAlone(room, user);
    ShrugWithArguments(rest, room, user);
  }

  /** Any other command word only shows the unknown-command notice; `/who`
      is one. */
  lemma UnknownOutcome(cmd: string, room: string, user: string)
    requires ParseCommand(cmd).name !in ["/clear", "/roll", "/shrug", "/burn", "/poll", "/help"]
    ensures SlashAction(cmd, room, user) == Say(UnknownCommand)
    ensures SlashAction("/who", room, user) == Say(UnknownCommand)
  {
    ActionOfWord(cmd, ParseCommand(cmd).name, room, user);
    CommandWordAlone("/who");
    ActionOfWord("/who", "/who", room, user);
  }

  /** The text startDM adds after sending the invitation. */
  function InvitingNotice(targetName: string): (t: string)
    ensures StartsWith(t, "Joined private chat. Inviting ")
    ensures |t| == 33 + |targetName|
    ensures t[|t| - 3..] == "..." && t[30..|t| - 3] == targetName
  {
    var t := "Joined private chat. Inviting " + targetName + "...";
    assert t[..30] == "Joined private chat. Inviting ";
    t
  }

  /** toggleCodeMode switching code mode on: an empty fenced block replaces
      the selection. The cursor, four characters after the selection start,
      sits on the empty line inside the block. */
  function InsertCodeBlock(text: string, start: int, end: int): (r: string)
    requires 0 <= start <= end <= |text|
    ensures |r| == |text| - (end - start) + 8
    ensures r[..start] == text[..start] && r[start + 8..] == text[end..]
    ensures r[start..start + 3] == Fence && r[start + 5..start + 8] == Fence
    ensures r[start + 3] == '\n' && r[start + 4] == '\n'
  {
    text[..start] + "```\n\n```" + text[end..]
  }

  /** joinPublic, joinPrivateRoom and createPrivateRoom: the request for the
      trimmed onboarding boxes, or `None` (an alert) when a box it needs is
      blank. */
  function JoinRequest(isPrivate: bool, creating: bool, name: string, roomId: string, password: string): (e: Option<Event>)
    ensures e.None? <==> Blank(name) || (isPrivate && (Blank(roomId) || Blank(password)))
    ensures e.Some? && !isPrivate ==> e.value == JoinPublic(Trim(name))
    ensures e.Some? && isPrivate && creating ==> e.value == CreateRoom(Trim(name), Trim(roomId), Trim(password))
    ensures e.Some? && isPrivate && !creating ==> e.value == JoinRoom(Trim(name), Trim(roomId), Trim(password))
  {
    TrimEmptyIffBlank(name);
    TrimEmptyIffBlank(roomId);
    TrimEmptyIffBlank(password);
    var n, r, p := Trim(name), Trim(roomId), Trim(password);
    if !isPrivate then
      if n == "" then None else Some(JoinPublic(n))
    else if n == "" || r == "" || p == "" then None
    else if creating then Some(CreateRoom(n, r, p))
    else Some(JoinRoom(n, r, p))
  }

  /** What a command's action does to the events sent and to the container. */
  predicate CommandEffect(a: Action, sent0: seq<Event>, nodes0: seq<Node>, sent1: seq<Event>, nodes1: seq<Node>) {
    match a
    case Send(e) => sent1 == sent0 + [e] && nodes1 == nodes0
    case Say(t) => sent1 == sent0 && nodes1 == nodes0 + [SystemNode(t)]
    case ClearScreen => sent1 == sent0 && nodes1 == [SystemNode(ClearedNotice)]
  }

  /** An invitation shown in the notifications panel. */
  datatype Invitation = Invitation(roomId: string, inviterName: string)

  // ---------------------------------------------------------------- the page

  /** The plain client's page: its globals (`userName`, `currentRoom`,
      `codeModeEnabled`, `pendingAttachment`, the typing timeout), the
      message box, the `#messages` container, the notifications panel, the
      inactivity timer, and the activity throttle. */
  /** renderMessage's steps on the container's children: hide the empty
      state unless restoring, skip an ephemeral message when restoring, stop
      at a missing name, and otherwise append the element, dropping the first
      child beyond the cap. */
  method RenderNodes(nodes: seq<Node>, data: Message, isRestoring: bool, user: string) returns (shown: seq<Node>, threw: bool)
    ensures Rendering(shown, threw) == RenderStep(nodes, data, isRestoring, user)
  {
    shown := if isRestoring then nodes else HideEmptyState(nodes);
    threw := false;
    if isRestoring && data.ephemeral != 0 {
      return;
    }
    if data.name.None? {
      threw := true;
      return;
    }
    var node := MessageNode(data, data.name == Some(user));
    var children := shown + [node];
    if |children| > MaxNodes {
      assert children[1..] == shown[1..] + [node];
      children := children[1..];
    }
    assert children == PushCapped(shown, node, MaxNodes);
    shown := children;
  }

  /** One item of restoreHistory's `forEach` on the container's children:
      a plain client message is rendered as restored, a plain client poll
      appended, and a React message typed `message` or `poll` throws. */
  method RestoreNodes(nodes: seq<Node>, item: StoredItem, user: string) returns (shown: seq<Node>, threw: bool)
    ensures Rendering(shown, threw) == RestoreStep(Rendering(nodes, false), item, user)
  {
    shown, threw := nodes, false;
    match item
    case Entry(e) =>
      if e.kind == "message" {
        shown, threw := RenderNodes(nodes, e.data, true, user);
      } else if e.kind == "poll" {
        shown := nodes + [PollNode(e.data)];
      }
    case Plain(m) =>
      threw := m.kind == Some("message") || m.kind == Some("poll");
  }

  /** The `forEach` over a stored list, into a cleared container: the items
      in order until one throws. */
  method ReplayNodes(history: seq<StoredItem>, user: string) returns (shown: seq<Node>, threw: bool)
    ensures Rendering(shown, threw) == Replay(history, user)
  {
    shown, threw := [], false;
    var i := 0;
    while i < |history| && !threw
      invariant 0 <= i <= |history|
      invariant Replay(history[..i], user) == Rendering(shown, threw)
    {
      ReplayNext(history, i, user);
      shown, threw := RestoreNodes(shown, history[i], user);
      i := i + 1;
    }
    if threw {
      ReplayStaysThrown(history, i, user);
    } else {
      assert history[..i] == history;
    }
  }

  /** restoreHistory's work on the container: nothing when the stored text
      does not parse, a cleared container when the value is not a list, the
      replay otherwise, with the empty state for an empty list. */
  method RestorePageNodes(stored: Option<Value>, user: string) returns (r: Option<Rendering>)
    ensures r == RestoredPage(stored, user)
  {
    if stored.Some? && stored.value.Text? {
      return None;
    }
    if stored.Some? && !stored.value.History? {
      return Some(Rendering([], true));
    }
    var history := if stored.Some? then stored.value.items else [];
    var shown, threw := ReplayNodes(history, user);
    if |history| == 0 {
      assert shown == [] && !threw;
      shown := [EmptyStateNode];
    }
    r := Some(Rendering(shown, threw));
  }

  /** Every field of the page a handler may change, as one value: a handler's
      frame is stated as the old value with only its own fields replaced. */
  datatype PageState = PageState(
    userName: string,
    currentRoom: string,
    draft: string,
    cursor: int,
    codeMode: bool,
    pending: Option<Attachment>,
    typingDeadline: Option<int>,
    nodes: seq<Node>,
    notifications: seq<Invitation>,
    notificationsShown: bool,
    timer: (int, int),
    warning: bool,
    reloaded: bool,
    sent: seq<Event>)

  class Page {
    const store: LocalStorage
    const throttle: ActivityThrottle
    var userName: string
    var currentRoom: string
    /** the message box's value */
    var draft: string
    var cursor: int
    var codeMode: bool
    var pending: Option<Attachment>
    /** when the pending `stop typing` timeout fires */
    var typingDeadline: Option<int>
    var nodes: seq<Node>
    var notifications: seq<Invitation>
    var notificationsShown: bool
    /** the `m:ss` timer as minutes and seconds, and its warning style */
    var timer: (int, int)
    var warning: bool
    /** whether `location.reload()` was called */
    var reloaded: bool
    var sent: seq<Event>

    function State(): PageState
      reads this
    {
      PageState(userName, currentRoom, draft, cursor, codeMode, pending, typingDeadline, nodes, notifications, notificationsShown, timer, warning, reloaded, sent)
    }

    ghost predicate Valid()
      reads this, throttle
    {
      throttle.store == store && throttle.Valid() && EmptyStateFirst(nodes)
    }

    /** The page as loaded, its container holding the empty state or nothing. */
    constructor (store: LocalStorage, showsEmptyState: bool)
      ensures Valid() && fresh(throttle)
      ensures this.store == store && userName == "" && currentRoom == "" && draft == "" && !codeMode
      ensures pending.None? && typingDeadline.None? && notifications == [] && !notificationsShown
      ensures nodes == (if showsEmptyState then [EmptyStateNode] else []) && !reloaded && sent == []
    {
      this.store := store;
      throttle := new ActivityThrottle(store);
      userName, currentRoom, draft, cursor, codeMode := "", "", "", 0, false;
      pending, typingDeadline := None, None;
      nodes := if showsEmptyState then [EmptyStateNode] else [];
      notifications, notificationsShown := [], false;
      timer, warning, reloaded, sent := (2, 0), false, false, [];
    }

    // ------------------------------------------------------------ session

    /** The load handler: a recorded activity more than two minutes old
        clears the whole store; then the current time is recorded. The name
        box is prefilled with the saved name, if any. */
    method OnLoad(now: int) returns (prefill: Option<string>)
      requires Valid()
      modifies store
      ensures Valid()
      ensures store.items == (if ExpiredAtLoad(old(store.items), now) then map[] else old(store.items))[LastActiveKey := Time(now)]
      ensures prefill == SavedText(store.items, NameKey)
    {
      if ExpiredAtLoad(store.items, now) {
        store.Clear();
      }
      store.SetItem(LastActiveKey, Time(now));
      prefill := SavedText(store.items, NameKey);
    }

    /** `mousemove`, `keydown`, `click` or `scroll`: through the throttle. */
    method OnActivity(now: int)
      requires Valid()
      requires throttle.writes != [] ==> now >= throttle.writes[|throttle.writes| - 1]
      modifies throttle, store
      ensures Valid()
      ensures old(throttle.Throttled(now)) ==>
                store.items == old(store.items) && throttle.writes == old(throttle.writes)
                && throttle.throttledUntil == old(throttle.throttledUntil)
      ensures !old(throttle.Throttled(now)) ==>
                store.items == old(store.items)[LastActiveKey := Time(now)]
                && throttle.writes == old(throttle.writes) + [now]
                && throttle.throttledUntil == Some(now + ThrottleWindow)
    {
      throttle.OnActivity(now);
    }

    /** `window.leaveRoom` as the load handler redefines it: clear the store
        and reload. */
    method LeaveRoom()
      requires Valid()
      modifies this, store
      ensures Valid()
      ensures State() == old(State()).(reloaded := reloaded)
      ensures store.items == map[] && reloaded
      ensures timer == old(timer) && warning == old(warning)
      ensures nodes == old(nodes) && sent == old(sent) && currentRoom == old(currentRoom)
    {
      store.Clear();
      reloaded := true;
    }

    /** The one-second interval: show the time left and its warning; with no
        time left, leave (clearing the store). */
    method Tick(now: int)
      requires Valid()
      modifies this, store
      ensures Valid()
      ensures State() == old(State()).(timer := timer, warning := warning, reloaded := reloaded)
      ensures var remaining := Remaining(LastActive(old(store.items), now), now);
              && timer == TimerDisplay(remaining)
              && warning == ShowsWarning(remaining)
              && store.items == (if remaining == 0 then map[] else old(store.items))
              && reloaded == (old(reloaded) || remaining == 0)
      ensures nodes == old(nodes) && sent == old(sent) && currentRoom == old(currentRoom)
    {
      var lastActive := LastActive(store.items, now);
      var remaining := Remaining(lastActive, now);
      timer := TimerDisplay(remaining);
      warning := ShowsWarning(remaining);
      if remaining <= 0 {
        LeaveRoom();
      }
    }

    // ------------------------------------------------------------ history and rendering

    /** saveToHistory: nothing for an empty room id; otherwise the list read
        back loses its oldest item when it holds more than 50, and the new
        entry is pushed. `threw` when the stored value has no `push`. */
    method SaveToHistory(roomId: string, kind: string, data: Message, now: int) returns (threw: bool)
      requires Valid()
      modifies store
      ensures Valid()
      ensures threw == SaveThrows(old(store.items), roomId)
      ensures store.items == SavedStore(old(store.items), roomId, HistoryEntry(kind, data, now))
    {
      if roomId == "" {
        return false;
      }
      var key := HistoryKey(roomId);
      var list := SavedList(store.GetItem(key));
      if list.None? {
        return true;
      }
      var history := list.value;
      if |history| > HistoryLimit {
        history := history[1..];
      }
      history := history + [Entry(HistoryEntry(kind, data, now))];
      assert history == PushCapped(list.value, Entry(HistoryEntry(kind, data, now)), HistoryLimit + 1);
      store.SetItem(key, History(history));
      threw := false;
    }

    /** renderMessage; `threw` when it stopped at a missing name. */
    method RenderMessage(data: Message, isRestoring: bool) returns (threw: bool)
      requires Valid()
      modifies this
      ensures Valid()
      ensures State() == old(State()).(nodes := nodes)
      ensures Rendering(nodes, threw) == RenderStep(old(nodes), data, isRestoring, userName)
      ensures userName == old(userName) && currentRoom == old(currentRoom) && sent == old(sent)
      ensures notifications == old(notifications) && draft == old(draft) && pending == old(pending)
    {
      nodes, threw := RenderNodes(nodes, data, isRestoring, userName);
    }

    /** One item of restoreHistory's `forEach`. */
    method RestoreEntry(item: StoredItem) returns (threw: bool)
      requires Valid()
      modifies this
      ensures Valid()
      ensures State() == old(State()).(nodes := nodes)
      ensures Rendering(nodes, threw) == RestoreStep(Rendering(old(nodes), false), item, userName)
      ensures userName == old(userName) && currentRoom == old(currentRoom) && sent == old(sent)
      ensures notifications == old(notifications) && draft == old(draft) && pending == old(pending)
    {
      nodes, threw := RestoreNodes(nodes, item, userName);
    }

    /** restoreHistory: the container is cleared and the room's items are
        replayed in order, the empty state shown for an empty history. Text
        that does not parse throws before anything changes, a number or an
        object throws once the container is cleared, and an item that throws
        ends the replay. */
    method RestoreHistory(roomId: string) returns (threw: bool)
      requires Valid()
      modifies this
      ensures Valid()
      ensures State() == old(State()).(nodes := nodes)
      ensures var r := RestoredPage(store.GetItem(HistoryKey(roomId)), userName);
              if r.None? then threw && nodes == old(nodes) else threw == r.value.threw && nodes == r.value.nodes
      ensures userName == old(userName) && currentRoom == old(currentRoom) && sent == old(sent)
      ensures notifications == old(notifications) && draft == old(draft) && pending == old(pending)
    {
      var r := RestorePageNodes(store.GetItem(HistoryKey(roomId)), userName);
      if r.None? {
        threw := true;
      } else {
        nodes, threw := r.value.nodes, r.value.threw;
      }
    }

    /** `chat message`: saved to the current room's history, then rendered;
        a save that throws ends the handler before the render. */
    method OnChatMessage(data: Message, now: int) returns (threw: bool)
      requires Valid()
      modifies this, store
      ensures Valid()
      ensures State() == old(State()).(nodes := nodes)
      ensures store.items == SavedStore(old(store.items), currentRoom, HistoryEntry("message", data, now))
      ensures SaveThrows(old(store.items), currentRoom) ==> threw && nodes == old(nodes)
      ensures !SaveThrows(old(store.items), currentRoom) ==>
                Rendering(nodes, threw) == RenderStep(old(nodes), data, false, userName)
      ensures currentRoom == old(currentRoom) && sent == old(sent)
    {
      threw := SaveToHistory(currentRoom, "message", data, now);
      if !threw {
        threw := RenderMessage(data, false);
      }
    }

    /** `new poll`: saved to the history, then appended after hiding the empty
        state; the 100-child cap is not applied. A save that throws ends the
        handler before the poll is shown. */
    method OnNewPoll(poll: Message, now: int) returns (threw: bool)
      requires Valid()
      modifies this, store
      ensures Valid()
      ensures State() == old(State()).(nodes := nodes)
      ensures store.items == SavedStore(old(store.items), currentRoom, HistoryEntry("poll", poll, now))
      ensures threw == SaveThrows(old(store.items), currentRoom)
      ensures threw ==> nodes == old(nodes)
      ensures !threw ==> nodes == HideEmptyState(old(nodes)) + [PollNode(poll)]
      ensures currentRoom == old(currentRoom) && sent == old(sent)
    {
      threw := SaveToHistory(currentRoom, "poll", poll, now);
      if !threw {
        nodes := HideEmptyState(nodes) + [PollNode(poll)];
      }
    }

    /** `system message`: appended after hiding the empty state, uncapped and
        not saved. */
    method OnSystemMessage(text: string)
      requires Valid()
      modifies this
      ensures Valid()
      ensures State() == old(State()).(nodes := nodes)
      ensures nodes == HideEmptyState(old(nodes)) + [SystemNode(text)]
      ensures currentRoom == old(currentRoom) && sent == old(sent) && draft == old(draft) && pending == old(pending)
    {
      nodes := HideEmptyState(nodes) + [SystemNode(text)];
    }

    /** addSystemMessage: appended as it is, the empty state left in place. */
    method AddSystemMessage(text: string)
      requires Valid()
      modifies this
      ensures Valid()
      ensures State() == old(State()).(nodes := nodes)
      ensures nodes == old(nodes) + [SystemNode(text)]
      ensures userName == old(userName) && currentRoom == old(currentRoom) && sent == old(sent)
      ensures notifications == old(notifications) && draft == old(draft) && pending == old(pending)
    {
      nodes := nodes + [SystemNode(text)];
    }

    // ------------------------------------------------------------ joining

    /** The `room joined` handler registered at script load: the room becomes
        current and the trimmed name box becomes the user name, saved even
        when empty. */
    method RoomJoinedAtLoad(roomId: string, nameBox: string)
      requires Valid()
      modifies this, store
      ensures Valid()
      ensures State() == old(State()).(userName := userName, currentRoom := currentRoom)
      ensures currentRoom == roomId && userName == Trim(nameBox)
      ensures store.items == old(store.items)[NameKey := Text(Trim(nameBox))]
      ensures nodes == old(nodes) && sent == old(sent)
    {
      currentRoom := roomId;
      userName := Trim(nameBox);
      store.SetItem(NameKey, Text(userName));
    }

    /** The `room joined` handler registered by the load handler: the same,
        plus the session record (password included) and the room's history
        restored into the container. */
    method RoomJoinedRestoring(roomId: string, nameBox: string, passwordBox: string)
      requires Valid()
      modifies this, store
      ensures Valid()
      ensures State() == old(State()).(userName := userName, currentRoom := currentRoom, nodes := nodes)
      ensures currentRoom == roomId && userName == Trim(nameBox)
      ensures store.items == old(store.items)[ActiveSessionKey := Session(roomId, Trim(passwordBox), Trim(nameBox))]
                                            [NameKey := Text(Trim(nameBox))]
      ensures var r := RestoredPage(store.GetItem(HistoryKey(roomId)), userName);
              nodes == (if r.None? then old(nodes) else r.value.nodes)
      ensures sent == old(sent)
    {
      currentRoom := roomId;
      userName := Trim(nameBox);
      var password := Trim(passwordBox);
      store.SetItem(ActiveSessionKey, Session(roomId, password, userName));
      store.SetItem(NameKey, Text(userName));
      var _ := RestoreHistory(roomId);
    }

    /** `room joined`: both handlers run, in the order they were registered. */
    method OnRoomJoined(roomId: string, nameBox: string, passwordBox: string)
      requires Valid()
      modifies this, store
      ensures Valid()
      ensures State() == old(State()).(userName := userName, currentRoom := currentRoom, nodes := nodes)
      ensures currentRoom == roomId && userName == Trim(nameBox)
      ensures store.items == old(store.items)[NameKey := Text(Trim(nameBox))]
                                            [ActiveSessionKey := Session(roomId, Trim(passwordBox), Trim(nameBox))]
      ensures var r := RestoredPage(store.GetItem(HistoryKey(roomId)), userName);
              nodes == (if r.None? then old(nodes) else r.value.nodes)
      ensures sent == old(sent)
    {
      RoomJoinedAtLoad(roomId, nameBox);
      RoomJoinedRestoring(roomId, nameBox, passwordBox);
    }

    /** The onboarding buttons: the request for the boxes, or nothing (an
        alert) when one is blank. */
    method Join(isPrivate: bool, creating: bool, nameBox: string, roomBox: string, passwordBox: string)
      requires Valid()
      modifies this
      ensures Valid()
      ensures State() == old(State()).(sent := sent)
      ensures var e := JoinRequest(isPrivate, creating, nameBox, roomBox, passwordBox);
              sent == old(sent) + (if e.Some? then [e.value] else [])
      ensures nodes == old(nodes) && currentRoom == old(currentRoom)
    {
      var e := JoinRequest(isPrivate, creating, nameBox, roomBox, passwordBox);
      if e.Some? {
        sent := sent + [e.value];
      }
    }

    // ------------------------------------------------------------ sending

    /** handleSlashCommand. `/clear` empties the container and says so; the
        stored history is kept. */
    method HandleSlashCommand(cmd: string)
      requires Valid()
      modifies this
      ensures Valid()
      ensures State() == old(State()).(nodes := nodes, sent := sent)
      ensures CommandEffect(SlashAction(cmd, old(currentRoom), old(userName)), old(sent), old(nodes), sent, nodes)
      ensures userName == old(userName) && currentRoom == old(currentRoom)
      ensures draft == old(draft) && pending == old(pending) && notifications == old(notifications)
    {
      match SlashAction(cmd, currentRoom, userName)
      case Send(e) =>
        sent := sent + [e];
      case Say(t) =>
        AddSystemMessage(t);
      case ClearScreen =>
        nodes := [];
        AddSystemMessage(ClearedNotice);
    }

    /** sendMessage. */
    method SendMessage()
      requires Valid()
      modifies this
      ensures Valid()
      ensures State() == old(State()).(draft := draft, pending := pending, nodes := nodes, sent := sent)
      ensures match SendDecision(old(draft), old(pending))
              case Ignore => sent == old(sent) && nodes == old(nodes) && draft == old(draft) && pending == old(pending)
              case SlashCommand(cmd) =>
                && draft == "" && pending == old(pending)
                && CommandEffect(SlashAction(cmd, old(currentRoom), old(userName)), old(sent), old(nodes), sent, nodes)
              case Chat(text, attachment) =>
                && sent == old(sent) + [ChatMessage(text, attachment), StopTyping]
                && draft == "" && pending.None? && nodes == old(nodes)
      ensures userName == old(userName) && currentRoom == old(currentRoom) && notifications == old(notifications)
    {
      var decision := SendDecision(draft, pending);
      if decision.SlashCommand? {
        HandleSlashCommand(decision.cmd);
        draft := "";
      } else if decision.Chat? {
        sent := sent + [ChatMessage(decision.text, decision.attachment)];
        draft := "";
        pending := None;
        sent := sent + [StopTyping];
      }
    }

    /** The message box's `keydown`: Enter without Shift sends. */
    method HandleKeyDown(key: string, shift: bool)
      requires Valid()
      modifies this
      ensures Valid()
      ensures State() == old(State()).(draft := draft, pending := pending, nodes := nodes, sent := sent)
      ensures !(key == "Enter" && !shift) ==> sent == old(sent) && nodes == old(nodes) && draft == old(draft)
      ensures key == "Enter" && !shift && SendDecision(old(draft), old(pending)).Chat? ==>
                sent == old(sent) + [ChatMessage(Trim(old(draft)), old(pending)), StopTyping] && draft == ""
      ensures key == "Enter" && !shift ==>
              match SendDecision(old(draft), old(pending))
              case Ignore => sent == old(sent) && nodes == old(nodes) && draft == old(draft) && pending == old(pending)
              case SlashCommand(cmd) =>
                && draft == "" && pending == old(pending)
                && CommandEffect(SlashAction(cmd, old(currentRoom), old(userName)), old(sent), old(nodes), sent, nodes)
              case Chat(text, attachment) =>
                && sent == old(sent) + [ChatMessage(text, attachment), StopTyping]
                && draft == "" && pending.None? && nodes == old(nodes)
    {
      if key == "Enter" && !shift {
        SendMessage();
      }
    }

    /** The message box's `input`: `typing` is sent on every input, and the
        one-second `stop typing` timeout restarts. */
    method HandleInput(text: string, now: int)
      requires Valid()
      modifies this
      ensures Valid()
      ensures State() == old(State()).(draft := draft, typingDeadline := typingDeadline, sent := sent)
      ensures draft == text && sent == old(sent) + [Typing] && typingDeadline == Some(now + TypingDelay)
      ensures nodes == old(nodes) && pending == old(pending)
    {
      draft := text;
      sent := sent + [Typing];
      typingDeadline := Some(now + TypingDelay);
    }

    /** The `stop typing` timeout fires. */
    method TypingTimeout(now: int)
      requires Valid() && typingDeadline.Some? && now >= typingDeadline.value
      modifies this
      ensures Valid()
      ensures State() == old(State()).(typingDeadline := typingDeadline, sent := sent)
      ensures sent == old(sent) + [StopTyping] && typingDeadline.None?
      ensures nodes == old(nodes) && draft == old(draft) && pending == old(pending)
    {
      sent := sent + [StopTyping];
      typingDeadline := None;
    }

    /** handleFileUpload: no file, or one over 5 MiB (an alert), leaves the
        pending attachment as it was; any other file becomes it. */
    method HandleFileUpload(file: Option<PickedFile>)
      requires Valid()
      modifies this
      ensures Valid()
      ensures State() == old(State()).(pending := pending)
      ensures file.None? || !AcceptsFile(file.value.size) ==> pending == old(pending)
      ensures file.Some? && AcceptsFile(file.value.size) ==>
                pending == Some(Attachment(file.value.name, file.value.mime, file.value.dataUrl))
      ensures draft == old(draft) && sent == old(sent) && nodes == old(nodes)
    {
      if file.None? {
        return;
      }
      if file.value.size > MaxFileSize {
        return;
      }
      pending := Some(Attachment(file.value.name, file.value.mime, file.value.dataUrl));
    }

    /** clearAttachment. */
    method ClearAttachment()
      requires Valid()
      modifies this
      ensures Valid()
      ensures State() == old(State()).(pending := pending)
      ensures pending.None? && draft == old(draft) && sent == old(sent) && nodes == old(nodes)
    {
      pending := None;
    }

    /** toggleCodeMode on the box's selection. */
    method ToggleCodeMode(start: int, end: int)
      requires Valid() && 0 <= start <= end <= |draft|
      modifies this
      ensures Valid()
      ensures State() == old(State()).(draft := draft, cursor := cursor, codeMode := codeMode)
      ensures codeMode == !old(codeMode)
      ensures codeMode ==> draft == InsertCodeBlock(old(draft), start, end) && cursor == start + 4
      ensures !codeMode ==> draft == old(draft) && cursor == old(cursor)
      ensures sent == old(sent) && nodes == old(nodes) && pending == old(pending)
    {
      codeMode := !codeMode;
      if codeMode {
        draft := draft[..start] + "```\n\n```" + draft[end..];
        cursor := start + 4;
      }
    }

    // ------------------------------------------------------------ direct messages

    /** startDM: join the room derived from both names, invite the target, and
        say so. */
    method StartDm(targetId: string, targetName: string)
      requires Valid()
      modifies this
      ensures Valid()
      ensures State() == old(State()).(nodes := nodes, sent := sent)
      ensures var roomId := DmRoomId(userName, targetName);
              sent == old(sent) + [JoinRoom(userName, roomId, "dm"), InviteUser(targetId, roomId, userName)]
      ensures nodes == old(nodes) + [SystemNode(InvitingNotice(targetName))]
      ensures userName == old(userName) && currentRoom == old(currentRoom) && notifications == old(notifications)
    {
      var dmRoomId := DmRoomId(userName, targetName);
      sent := sent + [JoinRoom(userName, dmRoomId, "dm")];
      sent := sent + [InviteUser(targetId, dmRoomId, userName)];
      AddSystemMessage(InvitingNotice(targetName));
    }

    /** `invite received`: the panel is shown with the invitation added last. */
    method OnInviteReceived(roomId: string, inviterName: string)
      requires Valid()
      modifies this
      ensures Valid()
      ensures State() == old(State()).(notifications := notifications, notificationsShown := notificationsShown)
      ensures notifications == old(notifications) + [Invitation(roomId, inviterName)] && notificationsShown
      ensures sent == old(sent) && nodes == old(nodes)
    {
      notifications := notifications + [Invitation(roomId, inviterName)];
      notificationsShown := true;
    }

    /** acceptInvite: join the room with the `dm` password and remove the
        invitation; the panel hides once no invitation is left. */
    method AcceptInvite(k: int)
      requires Valid() && 0 <= k < |notifications|
      modifies this
      ensures Valid()
      ensures State() == old(State()).(notifications := notifications, notificationsShown := notificationsShown, sent := sent)
      ensures sent == old(sent) + [JoinRoom(userName, old(notifications)[k].roomId, "dm")]
      ensures notifications == old(notifications)[..k] + old(notifications)[k + 1..]
      ensures notificationsShown == (old(notificationsShown) && notifications != [])
      ensures nodes == old(nodes) && currentRoom == old(currentRoom)
    {
      sent := sent + [JoinRoom(userName, notifications[k].roomId, "dm")];
      notifications := notifications[..k] + notifications[k + 1..];
      if |notifications| == 0 {
        notificationsShown := false;
      }
    }

    /** Ignore: the invitation is removed; the panel stays as it is. */
    method IgnoreInvite(k: int)
      requires Valid() && 0 <= k < |notifications|
      modifies this
      ensures Valid()
      ensures State() == old(State()).(notifications := notifications)
      ensures notifications == old(notifications)[..k] + old(notifications)[k + 1..]
      ensures notificationsShown == old(notificationsShown) && sent == old(sent) && nodes == old(nodes)
    {
      notifications := notifications[..k] + notifications[k + 1..];
    }
  }
}
