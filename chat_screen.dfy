/**
 * ChatScreen.jsx: the React client's message list and direct-message invite
 * list, the socket events that change them, the slash commands of
 * handleSendMessage, and leaving the room.
 */
module ChatScreen {
  import opened Strings
  import opened Protocol
  import opened Browser
  import opened Commands

  // ---------------------------------------------------------------- update poll

  /** `{ ...m, ...updatedPoll }` for the entry whose id is the poll id: the
      update's three fields replace the entry's, everything else is kept. */
  function MergePoll(m: Message, u: PollUpdate): (r: Message)
    ensures r.pollId == u.pollId && r.options == Some(u.options) && r.totalVotes == Some(u.totalVotes)
    ensures r.(pollId := m.pollId, options := m.options, totalVotes := m.totalVotes) == m
  {
    m.(pollId := u.pollId, options := Some(u.options), totalVotes := Some(u.totalVotes))
  }

  /** `prev.map(m => m.id === updatedPoll.pollId ? { ...m, ...updatedPoll } : m)`:
      the entries with the poll's id take the update's fields, all others and
      the length stay as they were. */
  function ApplyPollUpdate(messages: seq<Message>, u: PollUpdate): (r: seq<Message>)
    ensures |r| == |messages|
    ensures forall i :: 0 <= i < |r| ==> r[i].id == messages[i].id
    ensures forall i :: 0 <= i < |r| && messages[i].id != u.pollId ==> r[i] == messages[i]
    ensures forall i :: 0 <= i < |r| && messages[i].id == u.pollId ==> r[i] == MergePoll(messages[i], u)
  {
    if messages == [] then []
    else
      var head := if messages[0].id == u.pollId then MergePoll(messages[0], u) else messages[0];
      var rest := ApplyPollUpdate(messages[1..], u);
      assert forall i :: 0 < i <= |rest| ==> ([head] + rest)[i] == rest[i - 1] && messages[i] == messages[1..][i - 1];
      [head] + rest
  }

  /** Receiving the same update twice leaves the list as receiving it once. */
  lemma PollUpdateIdempotent(messages: seq<Message>, u: PollUpdate)
    ensures ApplyPollUpdate(ApplyPollUpdate(messages, u), u) == ApplyPollUpdate(messages, u)
  {
    var once := ApplyPollUpdate(messages, u);
    var twice := ApplyPollUpdate(once, u);
    forall i | 0 <= i < |twice| ensures twice[i] == once[i] {
      if messages[i].id == u.pollId {
        assert MergePoll(MergePoll(messages[i], u), u) == MergePoll(messages[i], u);
      }
    }
  }

  // ---------------------------------------------------------------- message deleted

  /** `prev.filter(msg => msg.id !== deletedMsgId)`: no entry with the id is
      left, and what is left was in the list. */
  function DeleteById(messages: seq<Message>, id: Option<Id>): (r: seq<Message>)
    ensures |r| <= |messages|
    ensures forall i :: 0 <= i < |r| ==> r[i].id != id && r[i] in messages
  {
    if messages == [] then []
    else if messages[0].id == id then DeleteById(messages[1..], id)
    else [messages[0]] + DeleteById(messages[1..], id)
  }

  /** Only entries with the id are removed: every other entry keeps its
      number of occurrences. */
  lemma {:induction false} DeleteByIdKeepsOthers(messages: seq<Message>, id: Option<Id>, m: Message)
    requires m.id != id
    ensures multiset(DeleteById(messages, id))[m] == multiset(messages)[m]
  {
    if messages != [] {
      DeleteByIdKeepsOthers(messages[1..], id, m);
      assert messages == [messages[0]] + messages[1..];
    }
  }

  /** Deletion keeps the order of what remains: it deletes from each part of
      a list separately. */
  lemma {:induction false} DeleteByIdAppend(a: seq<Message>, b: seq<Message>, id: Option<Id>)
    ensures DeleteById(a + b, id) == DeleteById(a, id) + DeleteById(b, id)
  {
    if a == [] {
      assert a + b == b;
    } else {
      assert (a + b)[0] == a[0] && (a + b)[1..] == a[1..] + b;
      DeleteByIdAppend(a[1..], b, id);
      if a[0].id == id {
        assert DeleteById(a + b, id) == DeleteById(a[1..] + b, id);
      } else {
        assert DeleteById(a + b, id) == [a[0]] + DeleteById(a[1..] + b, id);
      }
    }
  }

  /** A list without the id is left as it is, so deleting twice is deleting once. */
  lemma {:induction false} DeleteByIdIdempotent(messages: seq<Message>, id: Option<Id>)
    requires forall i :: 0 <= i < |messages| ==> messages[i].id != id
    ensures DeleteById(messages, id) == messages
  {
    if messages != [] {
      DeleteByIdIdempotent(messages[1..], id);
      assert messages == [messages[0]] + messages[1..];
    }
  }

  // ---------------------------------------------------------------- invites

  /** `{ fromId, fromName, id: Date.now() }`. */
  datatype InviteRequest = InviteRequest(fromId: string, fromName: string, id: int)

  predicate HasRequestFrom(requests: seq<InviteRequest>, fromId: string) {
    exists k :: 0 <= k < |requests| && requests[k].fromId == fromId
  }

  /** No two requests come from the same sender. */
  predicate UniqueSenders(requests: seq<InviteRequest>) {
    forall i, j :: 0 <= i < j < |requests| ==> requests[i].fromId != requests[j].fromId
  }

  /** `dm request received`: a request from a sender already listed is
      ignored; otherwise it is appended. */
  function AddInvite(requests: seq<InviteRequest>, fromId: string, fromName: string, now: int): (r: seq<InviteRequest>)
    ensures HasRequestFrom(requests, fromId) ==> r == requests
    ensures !HasRequestFrom(requests, fromId) ==> r == requests + [InviteRequest(fromId, fromName, now)]
    ensures UniqueSenders(requests) ==> UniqueSenders(r)
    ensures HasRequestFrom(r, fromId)
  {
    if HasRequestFrom(requests, fromId) then requests
    else
      var r := requests + [InviteRequest(fromId, fromName, now)];
      assert r[|requests|].fromId == fromId;
      r
  }

  /** Putting the first request of a list of distinct senders back in front
      of some of the later ones keeps the senders distinct. */
  lemma ConsUnique(requests: seq<InviteRequest>, rest: seq<InviteRequest>)
    requires requests != [] && forall k :: 0 <= k < |rest| ==> rest[k] in requests[1..]
    ensures UniqueSenders(requests) && UniqueSenders(rest) ==> UniqueSenders([requests[0]] + rest)
  {
    if UniqueSenders(requests) && UniqueSenders(rest) {
      var r := [requests[0]] + rest;
      forall i, j | 0 <= i < j < |r| ensures r[i].fromId != r[j].fromId {
        if i == 0 {
          var m :| 0 <= m < |requests[1..]| && requests[1..][m] == rest[j - 1];
          assert requests[m + 1] == r[j];
        } else {
          assert r[i] == rest[i - 1] && r[j] == rest[j - 1];
        }
      }
    }
  }

  /** `prev.filter(r => r.id !== req.id)`: every request with that id goes,
      the others stay in order. */
  function RemoveInvite(requests: seq<InviteRequest>, id: int): (r: seq<InviteRequest>)
    ensures |r| <= |requests|
    ensures forall k :: 0 <= k < |r| ==> r[k].id != id && r[k] in requests
    ensures forall q :: q in requests && q.id != id ==> q in r
  {
    if requests == [] then []
    else
      var rest := RemoveInvite(requests[1..], id);
      assert requests == [requests[0]] + requests[1..];
      if requests[0].id == id then rest
      else [requests[0]] + rest
  }

  /** The filter works request by request, so the kept requests stay in
      their order. */
  lemma {:induction false} RemoveInviteAppend(a: seq<InviteRequest>, b: seq<InviteRequest>, id: int)
    ensures RemoveInvite(a + b, id) == RemoveInvite(a, id) + RemoveInvite(b, id)
  {
    if a == [] {
      assert a + b == b;
    } else {
      assert (a + b)[0] == a[0] && (a + b)[1..] == a[1..] + b;
      RemoveInviteAppend(a[1..], b, id);
      if a[0].id == id {
        assert RemoveInvite(a + b, id) == RemoveInvite(a[1..] + b, id);
      } else {
        assert RemoveInvite(a + b, id) == [a[0]] + RemoveInvite(a[1..] + b, id);
      }
    }
  }

  /** A single request is kept exactly when it has another id. */
  lemma RemoveInviteOne(q: InviteRequest, id: int)
    ensures RemoveInvite([q], id) == (if q.id == id then [] else [q])
  {
    assert [q][1..] == [];
  }

  /** Dropping requests never makes two of the rest share a sender. */
  lemma {:induction false} RemoveInviteKeepsUnique(requests: seq<InviteRequest>, id: int)
    requires UniqueSenders(requests)
    ensures UniqueSenders(RemoveInvite(requests, id))
  {
    if requests != [] {
      var rest := RemoveInvite(requests[1..], id);
      assert UniqueSenders(requests[1..]) by {
        forall i, j | 0 <= i < j < |requests[1..]| ensures requests[1..][i].fromId != requests[1..][j].fromId {
          assert requests[1..][i] == requests[i + 1] && requests[1..][j] == requests[j + 1];
        }
      }
      RemoveInviteKeepsUnique(requests[1..], id);
      if requests[0].id != id {
        ConsUnique(requests, rest);
      }
    }
  }

  // ---------------------------------------------------------------- addMessage

  /** The condition under which addMessage writes the history: anything but a
      system message, or a system message whose text mentions `joined`. */
  predicate ShouldPersist(m: Message) {
    m.kind != Some("system") || (m.text.Some? && Contains(m.text.value, "joined"))
  }

  /** `item.data || item`: a plain client entry gives its `data`, a message
      is taken as it is. */
  function ItemMessage(item: StoredItem): Message
  {
    match item
    case Entry(e) => e.data
    case Plain(m) => m
  }

  /** The messages restored from a room's stored history: each item's
      message, in order; `None` when the stored value is no list (the parse
      or the `map` throws, and the `catch` keeps the list as it was). */
  function RestoredMessages(stored: Option<Value>): (r: Option<seq<Message>>)
    ensures stored.None? ==> r == Some([])
    ensures stored.Some? && stored.value.History? ==>
              r.Some? && |r.value| == |stored.value.items|
              && forall i :: 0 <= i < |r.value| ==> r.value[i] == ItemMessage(stored.value.items[i])
    ensures r.None? <==> stored.Some? && (stored.value.Text? || stored.value.Time? || stored.value.Session?)
  {
    match stored
    case None => Some([])
    case Some(History(items)) => Some(seq(|items|, i requires 0 <= i < |items| => ItemMessage(items[i])))
    case Some(_) => None
  }

  /** What this client writes, it reads back unchanged. */
  lemma RestoreReadsBackSaved(messages: seq<Message>)
    ensures RestoredMessages(Some(History(PlainItems(messages)))) == Some(messages)
  {
    var r := RestoredMessages(Some(History(PlainItems(messages))));
    assert r.value == messages;
  }

  // ---------------------------------------------------------------- slash commands

  /** What sending a text does: emit an event, add a system notice, or clear
      the room's messages and history. */
  datatype Outcome = Emit(event: Event) | Notice(notice: string) | ClearHistory

  const CommandList := "Commands: /clear, /roll [max], /shrug, /burn <msg>, /poll Q|A|B"

  /** handleSendMessage's decision. The text is not trimmed, and a command
      never carries the attachment. */
  function SendOutcome(text: string, attachment: Option<Attachment>, room: string, user: string): (o: Outcome)
    ensures !StartsWith(text, "/") ==> o == Emit(ChatMessage(text, attachment))
    ensures StartsWith(text, "/") ==> !(o.Emit? && o.event.ChatMessage? && o.event.attachment.Some?)
  {
    if !StartsWith(text, "/") then Emit(ChatMessage(text, attachment))
    else
      var c := ParseCommand(text);
      if c.name == "/clear" then ClearHistory
      else if c.name == "/roll" then Emit(RollMessage(if |c.args| > 0 && c.args[0] != "" then Some(c.args[0]) else None))
      else if c.name == "/shrug" then Emit(ChatMessage(ShrugText, None))
      else if c.name == "/burn" then
        (if ArgLine(text) == "" then Notice(BurnUsage) else Emit(ChatMessage(BurnText(ArgLine(text)), None)))
      else if c.name == "/poll" then
        match ParsePoll(ArgLine(text))
        case None => Notice(PollUsage)
        case Some(p) => Emit(CreatePoll(p.question, p.options, room, user))
      else Notice(CommandList)
  }

  /** A `/poll` line fewer than three non-empty parts adds only the usage
      notice; otherwise it asks the server for the poll of those parts in
      this room, and neither case clears or emits anything else. */
  lemma PollCommandOutcome(text: string, attachment: Option<Attachment>, room: string, user: string)
    requires StartsWith(text, "/") && ParseCommand(text).name == "/poll"
    ensures |PollParts(ArgLine(text))| < 3 ==> SendOutcome(text, attachment, room, user) == Notice(PollUsage)
    ensures |PollParts(ArgLine(text))| >= 3 ==>
              var parts := PollParts(ArgLine(text));
              SendOutcome(text, attachment, room, user) == Emit(CreatePoll(parts[0], parts[1..], room, user))
  {
    var parts := PollParts(ArgLine(text));
    if |parts| >= 3 {
      var p := ParsePoll(ArgLine(text)).value;
      assert [p.question] + p.options == parts;
      assert p.question == parts[0] && p.options == parts[1..];
    }
  }

  /** Typing `/poll ` and then the question and options separated by `|`
      creates exactly that poll in this room. */
  lemma PollCommandRoundTrip(parts: seq<string>, attachment: Option<Attachment>, room: string, user: string)
    requires |parts| >= 3
    requires forall k :: 0 <= k < |parts| ==> IsPollPart(parts[k])
    ensures SendOutcome("/poll " + Join(parts, '|'), attachment, room, user)
            == Emit(CreatePoll(parts[0], parts[1..], room, user))
  {
    var text := "/poll " + Join(parts, '|');
    PollCommandText(Join(parts, '|'));
    PollPartsOfJoin(parts);
    PollCommandOutcome(text, attachment, room, user);
  }

  /** `/burn` and a non-empty secret send the secret wrapped for ten-second
      self-destruction; `/burn` alone adds only the usage notice. */
  lemma BurnCommandOutcome(secret: string, attachment: Option<Attachment>, room: string, user: string)
    ensures secret != "" ==> SendOutcome("/burn " + secret, attachment, room, user) == Emit(ChatMessage(BurnText(secret), None))
    ensures SendOutcome("/burn", attachment, room, user) == Notice(BurnUsage)
  {
    if secret != "" {
      SlashCommandText("/burn", secret);
      assert "/burn" + " " + secret == "/burn " + secret;
    }
    BareBurnText();
  }

  /** The outcome of a command text by its command word alone. */
  lemma OutcomeOfWord(text: string, word: string, attachment: Option<Attachment>, room: string, user: string)
    requires StartsWith(text, "/") && ParseCommand(text).name == word
    ensures word == "/clear" ==> SendOutcome(text, attachment, room, user) == ClearHistory
    ensures word == "/shrug" ==> SendOutcome(text, attachment, room, user) == Emit(ChatMessage(ShrugText, None))
    ensures word !in ["/clear", "/roll", "/shrug", "/burn", "/poll"] ==>
              SendOutcome(text, attachment, room, user) == Notice(CommandList)
  {
  }

  lemma ClearAlone(attachment: Option<Attachment>, room: string, user: string)
    ensures SendOutcome("/clear", attachment, room, user) == ClearHistory
  {
    CommandWordAlone("/clear");
    OutcomeOfWord("/clear", "/clear", attachment, room, user);
  }

  lemma ClearWithArguments(rest: string, attachment: Option<Attachment>, room: string, user: string)
    ensures SendOutcome("/clear " + rest, attachment, room, user) == ClearHistory
  {
    CommandWord("/clear " + rest, "/clear", rest);
    assert ("/clear " + rest)[..1] == "/";
    OutcomeOfWord("/clear " + rest, "/clear", attachment, room, user);
  }

  /** `/clear`, with or without arguments, clears the room's messages and
      history, whatever attachment is pending. */
  lemma ClearCommandOutcome(rest: string, attachment: Option<Attachment>, room: string, user: string)
    ensures SendOutcome("/clear", attachment, room, user) == ClearHistory
    ensures SendOutcome("/clear " + rest, attachment, room, user) == ClearHistory
  {
    ClearAlone(attachment, room, user);
    ClearWithArguments(rest, attachment, room, user);
  }

  /** The command word is matched in any letter case. */
  lemma UpperCaseCommandOutcome(attachment: Option<Attachment>, room: string, user: string)
    ensures SendOutcome("/CLEAR", attachment, room, user) == ClearHistory
  {
    CommandWordIgnoresCase();
    OutcomeOfWord("/CLEAR", "/clear", attachment, room, user);
  }

  lemma ShrugAlone(attachment: Option<Attachment>, room: string, user: string)
    ensures SendOutcome("/shrug", attachment, room, user) == Emit(ChatMessage(ShrugText, None))
  {
    CommandWordAlone("/shrug");
    OutcomeOfWord("/shrug", "/shrug", attachment, room, user);
  }

  lemma ShrugWithArguments(rest: string, attachment: Option<Attachment>, room: string, user: string)
    ensures SendOutcome("/shrug " + rest, attachment, room, user) == Emit(ChatMessage(ShrugText, None))
  {
    CommandWord("/shrug " + rest, "/shrug", rest);
    assert ("/shrug " + rest)[..1] == "/";
    OutcomeOfWord("/shrug " + rest, "/shrug", attachment, room, user);
  }

  /** `/shrug` sends the shrug text as a chat message, arguments ignored and
      the pending attachment left out. */
  lemma ShrugCommandOutcome(rest: string, attachment: Option<Attachment>, room: string, user: string)
    ensures SendOutcome("/shrug", attachment, room, user) == Emit(ChatMessage(ShrugText, None))
    ensures SendOutcome("/shrug " + rest, attachment, room, user) == Emit(ChatMessage(ShrugText, None))
  {
    ShrugAlone(attachment, room, user);
    ShrugWithArguments(rest, attachment, room, user);
  }

  /** Any other command word only adds the notice listing the commands. */
  lemma UnknownCommandOutcome(text: string, attachment: Option<Attachment>, room: string, user: string)
    requires StartsWith(text, "/")
    requires ParseCommand(text).name !in ["/clear", "/roll", "/shrug", "/burn", "/poll"]
    ensures SendOutcome(text, attachment, room, user) == Notice(CommandList)
  {
    OutcomeOfWord(text, ParseCommand(text).name, attachment, room, user);
  }

  /** This client has no `/help`: it gets the notice listing the commands. */
  lemma HelpCommandOutcome(attachment: Option<Attachment>, room: string, user: string)
    ensures SendOutcome("/help", attachment, room, user) == Notice(CommandList)
  {
    CommandWordAlone("/help");
    OutcomeOfWord("/help", "/help", attachment, room, user);
  }

  /** Leaving removes the name, the room, the activity time and this room's
      history; other rooms' histories and the voter id stay. */
  function LeaveStore(items: map<string, Value>, room: string): (r: map<string, Value>)
    ensures forall k :: k in r <==> k in items && k !in {NameKey, RoomKey, LastActiveKey, HistoryKey(room)}
    ensures forall k :: k in r ==> r[k] == items[k]
  {
    items - {NameKey, RoomKey, LastActiveKey, HistoryKey(room)}
  }

  lemma LeaveKeepsOtherRooms(items: map<string, Value>, room: string, other: string)
    requires other != room
    ensures HistoryKey(other) in LeaveStore(items, room) <==> HistoryKey(other) in items
    ensures UuidKey in LeaveStore(items, room) <==> UuidKey in items
    ensures HistoryKey(room) !in LeaveStore(items, room)
  {
    HistoryKeyIsNotSessionKey(other);
    if HistoryKey(other) == HistoryKey(room) {
      HistoryKeyInjective(other, room);
    }
  }

  // ---------------------------------------------------------------- the component

  class Screen {
    const store: LocalStorage
    const user: string
    /** `socket.id` */
    const socketId: string
    var room: string
    var messages: seq<Message>
    var inviteRequests: seq<InviteRequest>
    var sent: seq<Event>
    var reloaded: bool

    ghost predicate Valid()
      reads this
    {
      UniqueSenders(inviteRequests)
    }

    constructor (store: LocalStorage, user: string, socketId: string, room: string)
      ensures Valid()
      ensures this.store == store && this.user == user && this.socketId == socketId && this.room == room
      ensures messages == [] && inviteRequests == [] && sent == [] && !reloaded
    {
      this.store, this.user, this.socketId, this.room := store, user, socketId, room;
      messages, inviteRequests, sent, reloaded := [], [], [], false;
    }

    /** The `[room]` effect: restore the room's history (kept as it was when
        the stored value cannot be read) and ask for the user list. */
    method Restore()
      requires Valid()
      modifies this
      ensures Valid()
      ensures var restored := RestoredMessages(store.GetItem(HistoryKey(room)));
              messages == (if restored.Some? then restored.value else old(messages))
      ensures sent == old(sent) + [RequestUsers]
      ensures room == old(room) && inviteRequests == old(inviteRequests) && reloaded == old(reloaded)
    {
      var restored := RestoredMessages(store.GetItem(HistoryKey(room)));
      if restored.Some? {
        messages := restored.value;
      }
      sent := sent + [RequestUsers];
    }

    /** addMessage: append at the end; write the whole list to the room's
        history unless it is a system notice without `joined`. */
    method AddMessage(m: Message)
      requires Valid()
      modifies this, store
      ensures Valid()
      ensures messages == old(messages) + [m]
      ensures store.items == (if ShouldPersist(m) then old(store.items)[HistoryKey(room) := History(PlainItems(messages))]
                              else old(store.items))
      ensures room == old(room) && inviteRequests == old(inviteRequests) && sent == old(sent) && reloaded == old(reloaded)
    {
      messages := messages + [m];
      if ShouldPersist(m) {
        store.SetItem(HistoryKey(room), History(PlainItems(messages)));
      }
    }

    /** `chat message`: the message is added as type `message`. */
    method OnChatMessage(m: Message)
      requires Valid()
      modifies this, store
      ensures Valid()
      ensures messages == old(messages) + [m.(kind := Some("message"))]
      ensures store.items == old(store.items)[HistoryKey(room) := History(PlainItems(messages))]
      ensures room == old(room) && inviteRequests == old(inviteRequests) && sent == old(sent)
      ensures reloaded == old(reloaded)
    {
      AddMessage(m.(kind := Some("message")));
    }

    /** `system message`: a system entry stamped with the current time. */
    method OnSystemMessage(text: string, now: int)
      requires Valid()
      modifies this, store
      ensures Valid()
      ensures messages == old(messages) + [SystemMessage(text, NumId(now))]
      ensures store.items == (if Contains(text, "joined") then old(store.items)[HistoryKey(room) := History(PlainItems(messages))]
                              else old(store.items))
      ensures room == old(room) && inviteRequests == old(inviteRequests) && sent == old(sent)
      ensures reloaded == old(reloaded)
    {
      AddMessage(SystemMessage(text, NumId(now)));
    }

    /** `new poll`: the poll is added as type `poll`. */
    method OnNewPoll(p: Message)
      requires Valid()
      modifies this, store
      ensures Valid()
      ensures messages == old(messages) + [p.(kind := Some("poll"))]
      ensures store.items == old(store.items)[HistoryKey(room) := History(PlainItems(messages))]
      ensures room == old(room) && inviteRequests == old(inviteRequests) && sent == old(sent)
      ensures reloaded == old(reloaded)
    {
      AddMessage(p.(kind := Some("poll")));
    }

    /** `update poll`: merged into the list; the history is not rewritten. */
    method OnUpdatePoll(u: PollUpdate)
      requires Valid()
      modifies this
      ensures Valid()
      ensures messages == ApplyPollUpdate(old(messages), u)
      ensures room == old(room) && inviteRequests == old(inviteRequests) && sent == old(sent)
      ensures reloaded == old(reloaded)
    {
      messages := ApplyPollUpdate(messages, u);
    }

    /** `message deleted`: removed from the list and from the history. */
    method OnMessageDeleted(id: Option<Id>)
      requires Valid()
      modifies this, store
      ensures Valid()
      ensures messages == DeleteById(old(messages), id)
      ensures store.items == old(store.items)[HistoryKey(room) := History(PlainItems(messages))]
      ensures room == old(room) && inviteRequests == old(inviteRequests) && sent == old(sent)
      ensures reloaded == old(reloaded)
    {
      messages := DeleteById(messages, id);
      store.SetItem(HistoryKey(room), History(PlainItems(messages)));
    }

    /** `dm request received`. */
    method OnDmRequest(fromId: string, fromName: string, now: int)
      requires Valid()
      modifies this
      ensures Valid()
      ensures inviteRequests == AddInvite(old(inviteRequests), fromId, fromName, now)
      ensures room == old(room) && messages == old(messages) && sent == old(sent)
      ensures reloaded == old(reloaded)
    {
      inviteRequests := AddInvite(inviteRequests, fromId, fromName, now);
    }

    /** `join dm room`: announce the join, switch to the room, save it, and
        drop every pending invite. */
    method OnJoinDmRoom(roomId: string)
      requires Valid()
      modifies this, store
      ensures Valid()
      ensures sent == old(sent) + [JoinDm(roomId, user)]
      ensures room == roomId && inviteRequests == []
      ensures store.items == old(store.items)[RoomKey := Text(roomId)]
      ensures messages == old(messages)
      ensures reloaded == old(reloaded)
    {
      sent := sent + [JoinDm(roomId, user)];
      room := roomId;
      store.SetItem(RoomKey, Text(roomId));
      inviteRequests := [];
    }

    /** handleAcceptInvite: tell the server, naming this socket as the
        receiver, and drop the request. */
    method Accept(req: InviteRequest)
      requires Valid()
      modifies this
      ensures Valid()
      ensures sent == old(sent) + [DmAccepted(req.fromId, socketId)]
      ensures inviteRequests == RemoveInvite(old(inviteRequests), req.id)
      ensures room == old(room) && messages == old(messages)
      ensures reloaded == old(reloaded)
    {
      sent := sent + [DmAccepted(req.fromId, socketId)];
      RemoveInviteKeepsUnique(inviteRequests, req.id);
      inviteRequests := RemoveInvite(inviteRequests, req.id);
    }

    /** handleDeclineInvite: drop the request and tell no one. */
    method Decline(req: InviteRequest)
      requires Valid()
      modifies this
      ensures Valid()
      ensures inviteRequests == RemoveInvite(old(inviteRequests), req.id)
      ensures sent == old(sent) && room == old(room) && messages == old(messages)
      ensures reloaded == old(reloaded)
    {
      RemoveInviteKeepsUnique(inviteRequests, req.id);
      inviteRequests := RemoveInvite(inviteRequests, req.id);
    }

    /** handleDeleteMessage: ask the server to delete the message in this room. */
    method HandleDeleteMessage(msgId: Option<Id>)
      requires Valid()
      modifies this
      ensures Valid()
      ensures sent == old(sent) + [DeleteMessage(msgId, room)]
      ensures room == old(room) && messages == old(messages) && inviteRequests == old(inviteRequests)
      ensures reloaded == old(reloaded)
    {
      sent := sent + [DeleteMessage(msgId, room)];
    }

    /** handleStartDM: the request goes out only when the user confirms it. */
    method HandleStartDm(targetId: string, confirmed: bool)
      requires Valid()
      modifies this
      ensures Valid()
      ensures sent == old(sent) + (if confirmed then [SendDmRequest(targetId, user)] else [])
      ensures room == old(room) && messages == old(messages) && inviteRequests == old(inviteRequests)
      ensures reloaded == old(reloaded)
    {
      if confirmed {
        sent := sent + [SendDmRequest(targetId, user)];
      }
    }

    /** handleSendMessage. */
    method HandleSendMessage(text: string, attachment: Option<Attachment>, now: int)
      requires Valid()
      modifies this, store
      ensures Valid()
      ensures match SendOutcome(text, attachment, old(room), user)
              case Emit(e) =>
                sent == old(sent) + [e] && messages == old(messages) && store.items == old(store.items)
              case Notice(t) =>
                sent == old(sent) && messages == old(messages) + [SystemMessage(t, NumId(now))]
                && store.items == (if ShouldPersist(SystemMessage(t, NumId(now)))
                                   then old(store.items)[HistoryKey(old(room)) := History(PlainItems(messages))]
                                   else old(store.items))
              case ClearHistory =>
                sent == old(sent) && messages == [] && store.items == old(store.items) - {HistoryKey(old(room))}
      ensures room == old(room) && inviteRequests == old(inviteRequests)
      ensures reloaded == old(reloaded)
    {
      match SendOutcome(text, attachment, room, user)
      case Emit(e) =>
        sent := sent + [e];
      case Notice(t) =>
        AddMessage(SystemMessage(t, NumId(now)));
      case ClearHistory =>
        messages := [];
        store.RemoveItem(HistoryKey(room));
    }

    /** handleLeave: the session keys and this room's history are removed and
        the page reloads. */
    method HandleLeave()
      requires Valid()
      modifies this, store
      ensures Valid()
      ensures store.items == LeaveStore(old(store.items), room)
      ensures reloaded
      ensures room == old(room) && messages == old(messages) && sent == old(sent)
      ensures inviteRequests == old(inviteRequests)
    {
      ghost var before := store.items;
      store.RemoveItem(NameKey);
      store.RemoveItem(RoomKey);
      store.RemoveItem(LastActiveKey);
      store.RemoveItem(HistoryKey(room));
      assert store.items == before - {NameKey} - {RoomKey} - {LastActiveKey} - {HistoryKey(room)};
      assert store.items == before - {NameKey, RoomKey, LastActiveKey, HistoryKey(room)};
      reloaded := true;
    }
  }
}
