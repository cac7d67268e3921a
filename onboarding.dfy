/**
 * Onboarding.jsx: the React client's join form. `handleJoin` checks the
 * name, saves it and hands it to the app, then asks the server to join the
 * public chat or to join or create a private room.
 */
module Onboarding {
  import opened Strings
  import opened Protocol
  import opened Browser
  import LegacyClient

  const NameError := "Please enter your name"
  const RoomError := "Please enter Room ID and Password"

  /** What one `handleJoin` call does: the error it leaves shown, whether it
      saved the name (and passed it to `setUser`), and the request it sends. */
  datatype JoinAttempt = JoinAttempt(error: string, named: bool, request: Option<Event>)

  /** handleJoin on the form's boxes. The checks trim, but the name, room id
      and password travel as typed. A blank room id or password in private
      mode stops the request only after the name has been saved. */
  function Attempt(isPrivate: bool, creating: bool, name: string, roomId: string, password: string): (j: JoinAttempt)
    ensures j.named <==> !Blank(name)
    ensures j.request.Some? <==> !Blank(name) && !(isPrivate && (Blank(roomId) || Blank(password)))
    ensures j.error == (if Blank(name) then NameError else if j.request.None? then RoomError else "")
    ensures j.request.Some? && !isPrivate ==> j.request.value == JoinPublic(name)
    ensures j.request.Some? && isPrivate && creating ==> j.request.value == CreateRoom(name, roomId, password)
    ensures j.request.Some? && isPrivate && !creating ==> j.request.value == JoinRoom(name, roomId, password)
  {
    TrimEmptyIffBlank(name);
    TrimEmptyIffBlank(roomId);
    TrimEmptyIffBlank(password);
    if Trim(name) == "" then JoinAttempt(NameError, false, None)
    else if !isPrivate then JoinAttempt("", true, Some(JoinPublic(name)))
    else if Trim(roomId) == "" || Trim(password) == "" then JoinAttempt(RoomError, true, None)
    else if creating then JoinAttempt("", true, Some(CreateRoom(name, roomId, password)))
    else JoinAttempt("", true, Some(JoinRoom(name, roomId, password)))
  }

  /** The React form and the plain client's join buttons accept the same
      boxes and ask for the same kind of request; they differ only in that
      the plain client sends the boxes trimmed, so on boxes with nothing to
      trim the requests are identical. */
  lemma AttemptAgreesWithPlainClient(isPrivate: bool, creating: bool, name: string, roomId: string, password: string)
    ensures var j := Attempt(isPrivate, creating, name, roomId, password);
            var e := LegacyClient.JoinRequest(isPrivate, creating, name, roomId, password);
            && (j.request.Some? <==> e.Some?)
            && (j.request.Some? ==> j.request.value.JoinPublic? == e.value.JoinPublic?
                                    && j.request.value.CreateRoom? == e.value.CreateRoom?)
            && (Trim(name) == name && Trim(roomId) == roomId && Trim(password) == password ==> j.request == e)
  {
  }

  /** The form's state, the name handed to the app through `setUser`, and
      the requests sent. */
  class Form {
    const store: LocalStorage
    var isPrivate: bool
    var name: string
    var roomId: string
    var password: string
    var error: string
    var user: Option<string>
    var sent: seq<Event>

    /** The form as mounted: public mode, the name box holding the saved
        name (or nothing). */
    constructor (store: LocalStorage)
      ensures this.store == store && !isPrivate && roomId == "" && password == "" && error == ""
      ensures name == SavedText(store.items, NameKey).GetOr("")
      ensures user.None? && sent == []
    {
      this.store := store;
      isPrivate := false;
      name := SavedText(store.items, NameKey).GetOr("");
      roomId, password, error := "", "", "";
      user, sent := None, [];
    }

    /** The mode buttons and the three boxes. */
    method Edit(isPrivate: bool, name: string, roomId: string, password: string)
      modifies this
      ensures this.isPrivate == isPrivate && this.name == name && this.roomId == roomId && this.password == password
      ensures error == old(error) && user == old(user) && sent == old(sent)
    {
      this.isPrivate, this.name, this.roomId, this.password := isPrivate, name, roomId, password;
    }

    /** handleJoin: a blank name is reported and nothing else happens;
        otherwise the name is saved as typed and handed to the app, and the
        request for the mode is sent unless a private box is blank. */
    method HandleJoin(creating: bool)
      modifies this, store
      ensures error == Attempt(isPrivate, creating, name, roomId, password).error
      ensures var j := Attempt(isPrivate, creating, name, roomId, password);
              sent == old(sent) + (if j.request.Some? then [j.request.value] else [])
      ensures Attempt(isPrivate, creating, name, roomId, password).named ==>
                store.items == old(store.items)[NameKey := Text(name)] && user == Some(name)
      ensures !Attempt(isPrivate, creating, name, roomId, password).named ==>
                store.items == old(store.items) && user == old(user)
      ensures isPrivate == old(isPrivate) && name == old(name) && roomId == old(roomId) && password == old(password)
    {
      ghost var j := Attempt(isPrivate, creating, name, roomId, password);
      TrimEmptyIffBlank(name);
      if Trim(name) == "" {
        error := NameError;
        return;
      }
      error := "";
      store.SetItem(NameKey, Text(name));
      user := Some(name);
      if !isPrivate {
        sent := sent + [JoinPublic(name)];
        return;
      }
      TrimEmptyIffBlank(roomId);
      TrimEmptyIffBlank(password);
      if Trim(roomId) == "" || Trim(password) == "" {
        error := RoomError;
        return;
      }
      var request := if creating then CreateRoom(name, roomId, password) else JoinRoom(name, roomId, password);
      assert j.request == Some(request);
      sent := sent + [request];
    }
  }

  /** A private join with no password saves the name but sends nothing; once
      the password is typed the same button sends the request as typed. */
  method PrivateJoinNeedsPassword()
  {
    var store := new LocalStorage();
    var form := new Form(store);
    form.Edit(true, " ada", "lab", "");
    assert !Blank(" ada") by { assert !IsSpace(" ada"[1]); }
    assert Blank("");
    form.HandleJoin(false);
    assert form.error == RoomError && form.sent == [] && form.user == Some(" ada");
    form.Edit(true, " ada", "lab", "pw");
    assert !Blank("lab") by { assert !IsSpace("lab"[0]); }
    assert !Blank("pw") by { assert !IsSpace("pw"[0]); }
    form.HandleJoin(false);
    assert form.error == "" && form.sent == [JoinRoom(" ada", "lab", "pw")];
  }
}
