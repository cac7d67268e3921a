/**
 * The server of server.js: a colour and a display name per connected socket,
 * and the `chat message` relay that stamps each message with the sender's
 * stored name and colour.
 */
module Server {

  /** `c = 50` in getRandomColor: channels at or below it are brightened. */
  const DarkLimit := 50

  datatype Color = Rgb(r: int, g: int, b: int)

  predicate IsChannel(c: int) {
    0 <= c <= 255
  }

  /** The brightening step of getRandomColor for one channel: a channel of at
      most 50 is doubled, a brighter one is kept. It stays a channel value and
      never gets darker, but it ends above 50 only when it started above 25. */
  function Brighten(channel: int): (out: int)
    ensures IsChannel(channel) ==> IsChannel(out)
    ensures channel >= 0 ==> out >= channel
    ensures channel >= 0 ==> (out > DarkLimit <==> channel > DarkLimit / 2)
  {
    if channel <= DarkLimit then channel * 2 else channel
  }

  /** getRandomColor with its three `Math.ceil(Math.random() * 255)` draws
      given as `raw`. */
  function BrightColor(raw: Color): (c: Color)
    ensures IsChannel(raw.r) && IsChannel(raw.g) && IsChannel(raw.b) ==>
              IsChannel(c.r) && IsChannel(c.g) && IsChannel(c.b)
  {
    Rgb(Brighten(raw.r), Brighten(raw.g), Brighten(raw.b))
  }

  /** `{ name: userName, message: msg, color: userColor }`. */
  datatype Broadcast<Payload> = Broadcast(name: string, message: Payload, color: Color)

  /** `userNames[userId] || 'Unknown'`: the stored name when it is a
      non-empty string, otherwise `Unknown`; never empty. */
  function SenderName(userNames: map<string, string>, socketId: string): (name: string)
    ensures name != ""
    ensures socketId in userNames && userNames[socketId] != "" ==> name == userNames[socketId]
    ensures (socketId !in userNames || userNames[socketId] == "") ==> name == "Unknown"
  {
    if socketId in userNames && userNames[socketId] != "" then userNames[socketId] else "Unknown"
  }

  class Server<Payload> {
    var userColors: map<string, Color>
    var userNames: map<string, string>
    /** colours sent to single sockets with `socket.emit('color', …)` */
    var colorsSent: seq<(string, Color)>
    /** payloads sent to every socket with `io.emit('chat message', …)` */
    var broadcasts: seq<Broadcast<Payload>>

    /** Every socket with a stored name also has a colour: names are only set
        for connected sockets, and disconnect removes both entries. */
    ghost predicate Valid()
      reads this
    {
      userNames.Keys <= userColors.Keys
    }

    constructor ()
      ensures Valid()
      ensures userColors == map[] && userNames == map[] && colorsSent == [] && broadcasts == []
    {
      userColors, userNames, colorsSent, broadcasts := map[], map[], [], [];
    }

    /** `io.on('connection')`: a brightened colour is stored under the socket id
        and sent to that socket. */
    method Connect(socketId: string, raw: Color)
      requires Valid()
      modifies this
      ensures Valid()
      ensures userColors == old(userColors)[socketId := BrightColor(raw)]
      ensures userNames == old(userNames)
      ensures colorsSent == old(colorsSent) + [(socketId, BrightColor(raw))]
      ensures broadcasts == old(broadcasts)
    {
      var color := BrightColor(raw);
      userColors := userColors[socketId := color];
      colorsSent := colorsSent + [(socketId, color)];
    }

    /** `disconnect`: only this socket's colour and name are deleted. */
    method Disconnect(socketId: string)
      requires Valid()
      modifies this
      ensures Valid()
      ensures userColors == old(userColors) - {socketId}
      ensures userNames == old(userNames) - {socketId}
      ensures colorsSent == old(colorsSent) && broadcasts == old(broadcasts)
    {
      userColors := userColors - {socketId};
      userNames := userNames - {socketId};
    }

    /** `set name`: overwrites this socket's name only. */
    method SetName(socketId: string, name: string)
      requires Valid() && socketId in userColors
      modifies this
      ensures Valid()
      ensures userNames == old(userNames)[socketId := name]
      ensures userColors == old(userColors)
      ensures colorsSent == old(colorsSent) && broadcasts == old(broadcasts)
    {
      userNames := userNames[socketId := name];
    }

    /** `chat message`: the message is broadcast to everyone with the sender's
        name (or `Unknown`) and colour; the registry is unchanged. */
    method ChatMessage(socketId: string, msg: Payload)
      requires Valid() && socketId in userColors
      modifies this
      ensures Valid()
      ensures broadcasts == old(broadcasts) + [Broadcast(SenderName(old(userNames), socketId), msg, old(userColors)[socketId])]
      ensures userColors == old(userColors) && userNames == old(userNames) && colorsSent == old(colorsSent)
    {
      broadcasts := broadcasts + [Broadcast(SenderName(userNames, socketId), msg, userColors[socketId])];
    }
  }

  /** A name set on one socket is the one its messages carry, and other
      sockets' names are not affected. */
  method NameReachesBroadcast<Payload>(msg: Payload)
  {
    var s := new Server<Payload>();
    s.Connect("a", Rgb(10, 100, 30));
    s.Connect("b", Rgb(200, 200, 200));
    s.SetName("a", "Ann");
    s.ChatMessage("a", msg);
    s.ChatMessage("b", msg);
    assert s.broadcasts[0] == Broadcast("Ann", msg, Rgb(20, 100, 60));
    assert s.broadcasts[1].name == "Unknown";
    s.Disconnect("a");
    assert "a" !in s.userNames && s.userNames.Keys == {};
  }
}
