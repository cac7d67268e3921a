/**
 * MessageList.jsx: what each entry of the chat screen's message list is shown
 * as. An empty list shows only the empty state; otherwise every entry becomes
 * one row, in list order.
 */
module MessageList {
  import opened Strings
  import opened Protocol
  import MessageItem

  datatype Row =
    | SystemRow(text: Option<string>)
    | PollRow(poll: Message)
    | ItemRow(message: Message, isOwn: bool)

  datatype View = EmptyState | Rows(rows: seq<Row>)

  /** JavaScript truthiness of an optional string. */
  predicate Truthy(s: Option<string>) {
    s.Some? && s.value != ""
  }

  /** The branch of the `messages.map` callback an entry takes: the
      `type === 'system'` test first, then `roomId && options`, then a
      message item that is the user's own when its name is the user's name. */
  function RowOf(m: Message, userName: string): Row
  {
    if m.kind == Some("system") then SystemRow(m.text)
    else if Truthy(m.roomId) && m.options.Some? then PollRow(m)
    else ItemRow(m, m.name == Some(userName))
  }

  function RowsOf(messages: seq<Message>, userName: string): (rows: seq<Row>)
    ensures |rows| == |messages|
  {
    if messages == [] then [] else [RowOf(messages[0], userName)] + RowsOf(messages[1..], userName)
  }

  /** The rendered list. */
  function Render(messages: seq<Message>, userName: string): View
  {
    if |messages| == 0 then EmptyState else Rows(RowsOf(messages, userName))
  }

  lemma {:induction false} RowsOfAt(messages: seq<Message>, userName: string, i: int)
    requires 0 <= i < |messages|
    ensures RowsOf(messages, userName)[i] == RowOf(messages[i], userName)
  {
    if i > 0 {
      RowsOfAt(messages[1..], userName, i - 1);
    }
  }

  /** An empty list renders only the empty state; any other list renders one
      row per entry, in order: system entries as system rows whatever else
      they hold, non-system entries with a room id and options as polls, and
      everything else as a message item that is the user's own exactly when
      its name is the user's name. */
  lemma RenderClassifies(messages: seq<Message>, userName: string, i: int)
    requires 0 <= i < |messages|
    ensures Render([], userName) == EmptyState
    ensures Render(messages, userName).Rows? && |Render(messages, userName).rows| == |messages|
    ensures var row := Render(messages, userName).rows[i];
            var m := messages[i];
            && (row.SystemRow? <==> m.kind == Some("system"))
            && (row.SystemRow? ==> row.text == m.text)
            && (row.PollRow? <==> m.kind != Some("system") && Truthy(m.roomId) && m.options.Some?)
            && (row.PollRow? ==> row.poll == m)
            && (row.ItemRow? ==> row.message == m && (row.isOwn <==> m.name == Some(userName)))
  {
    RowsOfAt(messages, userName, i);
  }

  /** Whether a row shows a delete button. Only message items can; the list
      always passes them a delete handler (a function, so truthy). */
  predicate DeleteButtonAt(row: Row) {
    row.ItemRow? && MessageItem.DeleteButtonShown(row.isOwn, true)
  }

  /** A delete button appears on exactly the non-system, non-poll entries
      whose name is the user's name. */
  lemma DeleteButtonOnOwnMessages(messages: seq<Message>, userName: string, i: int)
    requires 0 <= i < |messages|
    ensures var m := messages[i];
            DeleteButtonAt(Render(messages, userName).rows[i])
            <==> m.kind != Some("system") && !(Truthy(m.roomId) && m.options.Some?) && m.name == Some(userName)
  {
    RowsOfAt(messages, userName, i);
  }
}
