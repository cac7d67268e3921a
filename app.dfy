/**
 * App.jsx: the root of the React client. It checks the inactivity timeout,
 * records activity, restores the saved name, rejoins the public room once on
 * connect, follows `room joined`, persists the name, and shows the
 * onboarding form until a room is joined.
 */
module App {
  import opened Strings
  import opened Protocol
  import opened Browser
  import opened Inactivity

  /** What the inactivity wipe leaves of the store: everything but the name,
      the room and the last-activity time. Room histories survive. */
  function WipeSession(items: map<string, Value>): (r: map<string, Value>)
    ensures NameKey !in r && RoomKey !in r && LastActiveKey !in r
    ensures forall k :: k in r <==> k in items && k !in {NameKey, RoomKey, LastActiveKey}
    ensures forall k :: k in r ==> r[k] == items[k]
  {
    items - {NameKey, RoomKey, LastActiveKey}
  }

  /** Every room history, and the voter id, survive the wipe unchanged. */
  lemma WipeKeepsHistories(items: map<string, Value>, roomId: string)
    ensures HistoryKey(roomId) in WipeSession(items) <==> HistoryKey(roomId) in items
    ensures HistoryKey(roomId) in items ==> WipeSession(items)[HistoryKey(roomId)] == items[HistoryKey(roomId)]
    ensures UuidKey in WipeSession(items) <==> UuidKey in items
  {
    HistoryKeyIsNotSessionKey(roomId);
  }

  /** JavaScript truthiness of the current room. */
  predicate HasRoom(room: Option<string>) {
    room.Some? && room.value != ""
  }

  /** The outcome of the connect-time auto-rejoin: the event emitted (if any),
      the new `hasAutoJoined` flag, and the name restored (if any). */
  datatype Rejoin = Rejoin(emit: Option<Event>, autoJoined: bool, restoredName: Option<string>)

  /** The `connect` handler's decision, from the saved name and room, the
      `hasAutoJoined` flag and the current room. */
  function AutoRejoin(savedName: Option<string>, savedRoom: Option<string>, hasAutoJoined: bool,
                      currentRoom: Option<string>): (r: Rejoin)
  {
    if savedName.Some? && savedRoom.Some? && !hasAutoJoined && !HasRoom(currentRoom) then
      if savedRoom.value == "Public" then Rejoin(Some(JoinPublic(savedName.value)), true, savedName)
      else Rejoin(None, false, savedName)
    else Rejoin(None, hasAutoJoined, None)
  }

  /** A join is emitted only with a saved name, the saved room `Public`, no
      earlier auto-join and no current room, and it carries the saved name. A
      saved private room restores the name but emits nothing and leaves the
      flag clear; the flag ends set exactly when it was set or a join went out. */
  lemma AutoRejoinDecision(savedName: Option<string>, savedRoom: Option<string>, hasAutoJoined: bool,
                           currentRoom: Option<string>)
    ensures var r := AutoRejoin(savedName, savedRoom, hasAutoJoined, currentRoom);
            && (r.emit.Some? <==> savedName.Some? && savedRoom == Some("Public") && !hasAutoJoined && !HasRoom(currentRoom))
            && (r.emit.Some? ==> r.emit.value == JoinPublic(savedName.value))
            && (r.autoJoined <==> hasAutoJoined || r.emit.Some?)
            && (r.restoredName.Some? <==> savedName.Some? && savedRoom.Some? && !hasAutoJoined && !HasRoom(currentRoom))
            && (r.restoredName.Some? ==> r.restoredName == savedName)
  {
  }

  /** The rejoin happens at most once: after a join was emitted, no later
      connect emits another. */
  lemma AutoRejoinAtMostOnce(savedName: Option<string>, savedRoom: Option<string>, hasAutoJoined: bool,
                             room1: Option<string>, name2: Option<string>, saved2: Option<string>,
                             room2: Option<string>)
    requires AutoRejoin(savedName, savedRoom, hasAutoJoined, room1).emit.Some?
    ensures AutoRejoin(name2, saved2, AutoRejoin(savedName, savedRoom, hasAutoJoined, room1).autoJoined, room2).emit.None?
  {
  }

  /** The state of the App component, with its `hasAutoJoined` ref and the
      activity handler it installs. */
  class AppState {
    const store: LocalStorage
    const throttle: ActivityThrottle
    var userName: string
    var currentRoom: Option<string>
    var hasAutoJoined: bool
    var timeLeft: int
    var isLoading: bool
    /** whether `window.location.reload()` was called */
    var reloaded: bool
    var sent: seq<Event>

    ghost predicate Valid()
      reads this, throttle
    {
      throttle.store == store && throttle.Valid() && timeLeft >= 0
    }

    constructor (store: LocalStorage)
      ensures Valid() && fresh(throttle)
      ensures this.store == store && userName == "" && currentRoom.None? && !hasAutoJoined
      ensures timeLeft == SessionTimeout && isLoading && !reloaded && sent == []
    {
      this.store := store;
      throttle := new ActivityThrottle(store);
      userName, currentRoom, hasAutoJoined := "", None, false;
      timeLeft, isLoading, reloaded, sent := SessionTimeout, true, false, [];
    }

    /** checkTimeout: the time left is shown, and when none is left the
        session keys are removed and the page reloads. */
    method CheckTimeout(now: int)
      requires Valid()
      modifies this, store
      ensures Valid()
      ensures timeLeft == Remaining(LastActive(old(store.items), now), now)
      ensures store.items == (if timeLeft == 0 then WipeSession(old(store.items)) else old(store.items))
      ensures reloaded == (old(reloaded) || timeLeft == 0)
      ensures userName == old(userName) && currentRoom == old(currentRoom) && sent == old(sent)
      ensures hasAutoJoined == old(hasAutoJoined) && isLoading == old(isLoading)
    {
      var lastActive := LastActive(store.items, now);
      var remaining := Remaining(lastActive, now);
      timeLeft := remaining;
      if remaining == 0 {
        ghost var before := store.items;
        store.RemoveItem(NameKey);
        store.RemoveItem(RoomKey);
        store.RemoveItem(LastActiveKey);
        assert store.items == before - {NameKey} - {RoomKey} - {LastActiveKey};
        assert store.items == before - {NameKey, RoomKey, LastActiveKey};
        reloaded := true;
      }
    }

    /** The `[userName]` effect: a non-empty name is saved under `chatjet_name`. */
    method SetUserName(name: string)
      requires Valid()
      modifies this, store
      ensures Valid()
      ensures userName == name
      ensures store.items == (if name != "" then old(store.items)[NameKey := Text(name)] else old(store.items))
      ensures currentRoom == old(currentRoom) && hasAutoJoined == old(hasAutoJoined) && sent == old(sent)
      ensures timeLeft == old(timeLeft) && isLoading == old(isLoading) && reloaded == old(reloaded)
    {
      userName := name;
      if name != "" {
        store.SetItem(NameKey, Text(name));
      }
    }

    /** The mount effect: a first timeout check, then the saved name is
        restored when a name and a room are saved and no auto-join happened. */
    method Mount(now: int)
      requires Valid()
      modifies this, store
      ensures Valid()
      ensures timeLeft == Remaining(LastActive(old(store.items), now), now)
      ensures var checked := if timeLeft == 0 then WipeSession(old(store.items)) else old(store.items);
              var name := SavedText(checked, NameKey);
              if name.Some? && SavedText(checked, RoomKey).Some? && !old(hasAutoJoined) then
                userName == name.value && store.items == checked[NameKey := Text(name.value)]
              else
                userName == old(userName) && store.items == checked
      ensures reloaded == (old(reloaded) || timeLeft == 0)
      ensures !isLoading && currentRoom == old(currentRoom) && hasAutoJoined == old(hasAutoJoined) && sent == old(sent)
    {
      CheckTimeout(now);
      var savedName := SavedText(store.items, NameKey);
      var savedRoom := SavedText(store.items, RoomKey);
      if savedName.Some? && savedRoom.Some? && !hasAutoJoined {
        SetUserName(savedName.value);
      }
      isLoading := false;
    }

    /** An activity event goes through the throttle. */
    method OnActivity(now: int)
      requires Valid()
      requires throttle.writes != [] ==> now >= throttle.writes[|throttle.writes| - 1]
      modifies throttle, store
      ensures Valid()
      ensures old(throttle.Throttled(now)) ==> throttle.writes == old(throttle.writes) && store.items == old(store.items)
                                                && throttle.throttledUntil == old(throttle.throttledUntil)
      ensures !old(throttle.Throttled(now)) ==> throttle.writes == old(throttle.writes) + [now]
                                                 && store.items == old(store.items)[LastActiveKey := Time(now)]
                                                 && throttle.throttledUntil == Some(now + ThrottleWindow)
    {
      throttle.OnActivity(now);
    }

    /** The `connect` handler. */
    method OnConnect()
      requires Valid()
      modifies this, store
      ensures Valid()
      ensures var r := AutoRejoin(SavedText(old(store.items), NameKey), SavedText(old(store.items), RoomKey),
                                  old(hasAutoJoined), old(currentRoom));
              && hasAutoJoined == r.autoJoined
              && sent == old(sent) + (if r.emit.Some? then [r.emit.value] else [])
              && userName == (if r.restoredName.Some? then r.restoredName.value else old(userName))
              && store.items == (if r.restoredName.Some? then old(store.items)[NameKey := Text(r.restoredName.value)]
                                 else old(store.items))
      ensures currentRoom == old(currentRoom) && timeLeft == old(timeLeft) && isLoading == old(isLoading)
      ensures reloaded == old(reloaded)
    {
      var r := AutoRejoin(SavedText(store.items, NameKey), SavedText(store.items, RoomKey), hasAutoJoined, currentRoom);
      hasAutoJoined := r.autoJoined;
      if r.restoredName.Some? {
        SetUserName(r.restoredName.value);
      }
      if r.emit.Some? {
        sent := sent + [r.emit.value];
      }
    }

    /** `room joined`: the room becomes current and is saved. */
    method OnRoomJoined(roomId: string)
      requires Valid()
      modifies this, store
      ensures Valid()
      ensures currentRoom == Some(roomId)
      ensures store.items == old(store.items)[RoomKey := Text(roomId)]
      ensures userName == old(userName) && hasAutoJoined == old(hasAutoJoined) && sent == old(sent)
      ensures timeLeft == old(timeLeft) && isLoading == old(isLoading) && reloaded == old(reloaded)
    {
      currentRoom := Some(roomId);
      store.SetItem(RoomKey, Text(roomId));
    }

    /** The onboarding form is shown exactly while there is no current room;
        otherwise the chat screen is. */
    predicate ShowsOnboarding()
      reads this
    {
      !HasRoom(currentRoom)
    }
  }

  /** A returning user of the public room: the mount restores the name and the
      first connect rejoins; a reconnect does not rejoin again. */
  method ReturningPublicUser()
  {
    var store := new LocalStorage();
    store.SetItem(NameKey, Text("ann"));
    store.SetItem(RoomKey, Text("Public"));
    store.SetItem(LastActiveKey, Time(0));
    assert SavedText(store.items, NameKey) == Some("ann") && SavedText(store.items, RoomKey) == Some("Public");
    assert LastActive(store.items, 60000) == 0;
    var app := new AppState(store);
    app.Mount(60000);
    assert app.userName == "ann" && app.timeLeft == 60000;
    app.OnConnect();
    assert app.sent == [JoinPublic("ann")];
    app.OnConnect();
    assert app.sent == [JoinPublic("ann")];
    assert app.ShowsOnboarding();
    app.OnRoomJoined("Public");
    assert !app.ShowsOnboarding();
  }
}
