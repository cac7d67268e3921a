/**
 * The values exchanged between the chat clients and the server: chat and poll
 * messages as the clients hold them, file attachments, poll options, and the
 * events a client emits on its socket.
 */
module Protocol {
  import opened Strings

  /** A message id: the server's string ids, or `Date.now()` for the
      system messages a client makes for itself. */
  datatype Id = StrId(s: string) | NumId(n: int)

  datatype Attachment = Attachment(name: string, mime: string, data: string)

  datatype PollOption = PollOption(text: string, count: int)

  /** One entry of a client's message list: a chat message, a system notice or
      a poll. Absent JavaScript properties are `None`; `ephemeral` is the
      self-destruct delay in milliseconds, 0 when the property is absent. */
  datatype Message = Message(
    id: Option<Id>,
    kind: Option<string>,
    name: Option<string>,
    text: Option<string>,
    color: Option<string>,
    roomId: Option<string>,
    question: Option<string>,
    options: Option<seq<PollOption>>,
    pollId: Option<Id>,
    totalVotes: Option<int>,
    ephemeral: int,
    attachment: Option<Attachment>)

  /** The `update poll` payload `{ pollId, options, totalVotes }`. */
  datatype PollUpdate = PollUpdate(pollId: Option<Id>, options: seq<PollOption>, totalVotes: int)

  /** A system message as both clients build it: `{ text, type: 'system', id }`. */
  function SystemMessage(text: string, id: Id): (m: Message)
    ensures m.kind == Some("system") && m.text == Some(text) && m.id == Some(id)
  {
    Message(Some(id), Some("system"), None, Some(text), None, None, None, None, None, None, 0, None)
  }

  /** Events a client emits to the server. */
  datatype Event =
    | JoinPublic(name: string)
    | JoinRoom(name: string, roomId: string, password: string)
    | CreateRoom(name: string, roomId: string, password: string)
    | JoinDm(roomId: string, dmName: string)
    | InviteUser(targetId: string, inviteRoom: string, inviterName: string)
    | SendDmRequest(targetId: string, fromName: string)
    | DmAccepted(fromId: string, toId: string)
    | ChatMessage(text: string, attachment: Option<Attachment>)
      /** `/roll`: a chat message announcing a random number up to the given bound. */
    | RollMessage(maxArg: Option<string>)
    | CreatePoll(question: string, pollOptions: seq<string>, pollRoom: string, creator: string)
    | VotePoll(votePoll: Option<Id>, optionIndex: int, voter: string, userId: string)
    | DeleteMessage(msgId: Option<Id>, deleteRoom: string)
    | RequestUsers
    | Typing
    | StopTyping
}
