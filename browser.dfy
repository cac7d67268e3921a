/**
 * The browser's `localStorage` as both clients use it: a key-value store
 * whose values are kept in their parsed form (a name, a timestamp, a history
 * list) rather than as the JSON or decimal text the browser holds.
 */
module Browser {
  import opened Strings
  import opened Protocol

  /** An entry of the plain client's room history: `{ type, data, timestamp }`. */
  datatype HistoryEntry = HistoryEntry(kind: string, data: Message, timestamp: int)

  /** An item of a stored history list. Both clients keep a room's history
      under the same key: the plain client pushes entries, the React client
      writes its messages as they are, and either may extend the other's list. */
  datatype StoredItem = Entry(entry: HistoryEntry) | Plain(message: Message)

  datatype Value =
    | Text(s: string)
    | Time(t: int)
      /** a history list */
    | History(items: seq<StoredItem>)
      /** the plain client's `{ roomId, password, name }` session record */
    | Session(roomId: string, password: string, sessionName: string)

  /** `JSON.stringify(messages)` as the React client writes it: every message
      stored as it is, in order. */
  function PlainItems(msgs: seq<Message>): (r: seq<StoredItem>)
    ensures |r| == |msgs| && forall k :: 0 <= k < |r| ==> r[k] == Plain(msgs[k])
  {
    seq(|msgs|, k requires 0 <= k < |msgs| => Plain(msgs[k]))
  }

  const NameKey := "chatjet_name"
  const RoomKey := "chatjet_room"
  const LastActiveKey := "chatjet_last_active"
  const UuidKey := "chatjet_uuid"
  const HistoryPrefix := "chatjet_hist_"
  const ActiveSessionKey := "chatjet_active_session"

  /** The key of a room's history: `chatjet_hist_${roomId}`. */
  function HistoryKey(roomId: string): (k: string)
    ensures StartsWith(k, HistoryPrefix) && k[|HistoryPrefix|..] == roomId
  {
    HistoryPrefix + roomId
  }

  /** Different rooms keep their histories under different keys. */
  lemma HistoryKeyInjective(a: string, b: string)
    requires HistoryKey(a) == HistoryKey(b)
    ensures a == b
  {
    assert a == HistoryKey(a)[|HistoryPrefix|..];
  }

  /** No history key is one of the session keys, so removing the session keys
      leaves every history in place. */
  lemma HistoryKeyIsNotSessionKey(roomId: string)
    ensures HistoryKey(roomId) !in {NameKey, RoomKey, LastActiveKey, UuidKey}
  {
    var k := HistoryKey(roomId);
    assert k[8] == 'h';
    assert NameKey[8] == 'n' && RoomKey[8] == 'r' && LastActiveKey[8] == 'l' && UuidKey[8] == 'u';
  }

  /** The string stored under `key` when it is present and truthy (non-empty),
      as `if (localStorage.getItem(key))` sees it. */
  function SavedText(items: map<string, Value>, key: string): (r: Option<string>)
    ensures r.Some? <==> key in items && items[key].Text? && items[key].s != ""
    ensures r.Some? ==> items[key] == Text(r.value)
  {
    if key in items && items[key].Text? && items[key].s != "" then Some(items[key].s) else None
  }

  class LocalStorage {
    var items: map<string, Value>

    constructor ()
      ensures items == map[]
    {
      items := map[];
    }

    function GetItem(key: string): (v: Option<Value>)
      reads this
      ensures v.Some? <==> key in items
      ensures v.Some? ==> v.value == items[key]
    {
      if key in items then Some(items[key]) else None
    }

    method SetItem(key: string, v: Value)
      modifies this
      ensures items == old(items)[key := v]
    {
      items := items[key := v];
    }

    method RemoveItem(key: string)
      modifies this
      ensures items == old(items) - {key}
    {
      items := items - {key};
    }

    method Clear()
      modifies this
      ensures items == map[]
    {
      items := map[];
    }
  }
}
