/** The server's entry point: the configuration defaults, the two origin
    checks (HTTP CORS and the socket server's CORS), and the chat relay over
    sockets. Environment variables are parameters; the socket transport is
    reduced to room membership and the list of emitted events. */
module ServerIndex {
  import opened Common
  import opened Text
  import opened MessageModel

  const DefaultClientUrl := "http://localhost:5173"

  /** `process.env.CLIENT_URL || 'http://localhost:5173'`: unset or empty falls back. */
  function ClientUrl(env: Option<string>): (r: string)
    ensures env.None? || env == Some("") ==> r == DefaultClientUrl
    ensures env.Some? && env.value != "" ==> r == env.value
  {
    if env.None? || env.value == "" then DefaultClientUrl else env.value
  }

  /** `process.env.NODE_ENV === 'production'`. */
  predicate IsProd(nodeEnv: Option<string>) {
    nodeEnv == Some("production")
  }

  /** The HTTP CORS origin callback as written: no origin passes; in
      development any origin that starts with `http://localhost` passes; in
      production only the client URL passes. */
  predicate CorsAllows(origin: Option<string>, isProd: bool, clientUrl: string) {
    if origin.None? || origin.value == "" then true
    else if !isProd && StartsWith(origin.value, "http://localhost") then true
    else isProd && origin.value == clientUrl
  }

  /** `/^http:\/\/localhost:\d+$/`: the prefix, then one or more ASCII digits, then the end. */
  predicate LocalhostWithPort(origin: string) {
    var prefix := "http://localhost:";
    StartsWith(origin, prefix) && |origin| > |prefix| && AllDigits(origin[|prefix|..])
  }

  /** The socket server's CORS rule: the client URL in production, the
      localhost-with-port pattern in development. */
  predicate SocketAllows(origin: string, isProd: bool, clientUrl: string) {
    if isProd then origin == clientUrl else LocalhostWithPort(origin)
  }

  /** In production the two checks agree on every origin that is sent. */
  lemma ProdChecksAgree(origin: string, clientUrl: string)
    requires origin != ""
    ensures CorsAllows(Some(origin), true, clientUrl) <==> SocketAllows(origin, true, clientUrl)
  {
  }

  /** In development everything the socket server admits, the HTTP check admits too. */
  lemma DevSocketImpliesCors(origin: string, clientUrl: string)
    ensures SocketAllows(origin, false, clientUrl) ==> CorsAllows(Some(origin), false, clientUrl)
  {
    if SocketAllows(origin, false, clientUrl) {
      assert origin[..|"http://localhost"|] == "http://localhost";
    }
  }

  /** As written, the development HTTP check also admits a host that merely
      begins with `localhost`, which the socket rule refuses. */
  lemma CorsAdmitsLookalikeHost()
    ensures CorsAllows(Some("http://localhost.example.com"), false, DefaultClientUrl)
    ensures !SocketAllows("http://localhost.example.com", false, DefaultClientUrl)
  {
    var o := "http://localhost.example.com";
    assert o[..|"http://localhost"|] == "http://localhost";
    assert o[..|"http://localhost:"|] != "http://localhost:" by {
      assert o[|"http://localhost"|] == '.';
    }
  }

  /** The HTTP check with development limited to the pattern the socket
      server uses (`http://localhost:<port>`), which the comment in the source
      describes as "any localhost port". */
  predicate CorsAllowsIntended(origin: Option<string>, isProd: bool, clientUrl: string) {
    if origin.None? || origin.value == "" then true
    else SocketAllows(origin.value, isProd, clientUrl)
  }

  /** With that correction the two servers admit exactly the same sent origins,
      in both environments, and a lookalike host is refused. */
  lemma IntendedChecksAgree(origin: string, isProd: bool, clientUrl: string)
    requires origin != ""
    ensures CorsAllowsIntended(Some(origin), isProd, clientUrl) <==> SocketAllows(origin, isProd, clientUrl)
    ensures CorsAllowsIntended(Some(origin), isProd, clientUrl) ==> CorsAllows(Some(origin), isProd, clientUrl)
  {
    DevSocketImpliesCors(origin, clientUrl);
  }

  type SocketId = nat

  /** One `io.to(room).emit('receive_message', message)`. */
  datatype Emit = Emit(room: Id, message: Message)

  /** A `send_message` payload; absent fields are `None`. */
  datatype Payload = Payload(
    sender: Option<Id>,
    receiver: Option<Id>,
    content: Option<string>,
    mtype: Option<string>,
    fileData: Option<string>,
    fileName: Option<string>,
    fileMime: Option<string>)

  /** `x || ''` on an optional string field. */
  function OrEmpty(s: Option<string>): (r: string)
    ensures s.Some? ==> r == s.value
    ensures s.None? ==> r == ""
  {
    s.GetOr("")
  }

  /** The message `send_message` saves, or `None` when saving fails validation:
      a missing sender or receiver (`required`) or a type outside the enum.
      A missing or empty type is `text`. */
  function NewMessage(id: Id, p: Payload, now: int): (r: Option<Message>)
    ensures r.Some? <==>
      && p.sender.Some? && p.receiver.Some?
      && (p.mtype.None? || p.mtype.value == "" || ParseType(p.mtype.value).Some?)
    ensures r.Some? ==> var m := r.value;
      && m.id == id && m.sender == p.sender.value && m.receiver == p.receiver.value
      && m.content == OrEmpty(p.content) && m.fileData == OrEmpty(p.fileData)
      && m.fileName == OrEmpty(p.fileName) && m.fileMime == OrEmpty(p.fileMime)
      && !m.read && m.createdAt == now
      && (p.mtype.None? || p.mtype.value == "" ==> m.mtype == Text)
      && (p.mtype.Some? && p.mtype.value != "" ==> TypeName(m.mtype) == p.mtype.value)
  {
    var t := if p.mtype.None? || p.mtype.value == "" then "text" else p.mtype.value;
    match ParseType(t)
    case None => None
    case Some(mt) =>
      if p.sender.None? || p.receiver.None? then None
      else Some(Message(id, p.sender.value, p.receiver.value, OrEmpty(p.content), mt,
                        OrEmpty(p.fileData), OrEmpty(p.fileName), OrEmpty(p.fileMime), false, now))
  }

  /** The sockets subscribed to a room. */
  function Members(rooms: map<SocketId, set<Id>>, room: Id): set<SocketId> {
    set s | s in rooms && room in rooms[s]
  }

  /** The socket server's state: which rooms each connected socket has
      joined, and every event emitted so far. */
  class Relay {
    var rooms: map<SocketId, set<Id>>
    var outbox: seq<Emit>

    constructor ()
      ensures rooms == map[] && outbox == []
    {
      rooms := map[];
      outbox := [];
    }

    /** A new connection, in no room yet. */
    method Connect(socket: SocketId)
      modifies this
      ensures rooms == old(rooms)[socket := {}] && outbox == old(outbox)
    {
      rooms := rooms[socket := {}];
    }

    /** `join_room`: the socket joins the room named by the user id it sends.
        Nothing checks that the id is the socket's own user. */
    method JoinRoom(socket: SocketId, userId: Id)
      modifies this
      ensures rooms == old(rooms)[socket := (if socket in old(rooms) then old(rooms)[socket] else {}) + {userId}]
      ensures outbox == old(outbox)
      ensures socket in Members(rooms, userId)
    {
      var joined := if socket in rooms then rooms[socket] else {};
      rooms := rooms[socket := joined + {userId}];
    }

    /** `disconnect`: the source only logs; the socket library drops the
        socket from every room it was in. */
    method Disconnect(socket: SocketId)
      modifies this
      ensures rooms == old(rooms) - {socket} && outbox == old(outbox)
      ensures forall room :: socket !in Members(rooms, room)
    {
      rooms := rooms - {socket};
    }

    /** `send_message`: the message is saved and then emitted to the
        receiver's room and to the sender's room, in that order; when saving
        fails the error is only logged, so nothing is stored and nothing is sent. */
    method SendMessage(store: Messages, p: Payload, now: int)
      requires store.Valid()
      modifies this, store
      ensures store.Valid() && rooms == old(rooms)
      ensures match NewMessage(old(store.nextId), p, now)
        case None =>
          store.all == old(store.all) && store.nextId == old(store.nextId) && outbox == old(outbox)
        case Some(m) =>
          && store.all == old(store.all) + [m] && store.nextId == old(store.nextId) + 1
          && outbox == old(outbox) + [Emit(m.receiver, m), Emit(m.sender, m)]
    {
      var saved := NewMessage(store.nextId, p, now);
      if saved.None? {
        return;
      }
      var m := saved.value;
      store.Insert(m);
      outbox := outbox + [Emit(m.receiver, m)];
      outbox := outbox + [Emit(m.sender, m)];
    }
  }

  /** The two emits of one message reach every socket in either user's room;
      a socket receives one copy per room of the two it is in, so one in both
      rooms (always so for a message to oneself) receives it twice. */
  lemma SendReachesBothRooms(rooms: map<SocketId, set<Id>>, m: Message, socket: SocketId)
    ensures var emits := [Emit(m.receiver, m), Emit(m.sender, m)];
      var copies := |set k | 0 <= k < 2 && socket in Members(rooms, emits[k].room)|;
      && (copies > 0 <==> socket in rooms && (m.receiver in rooms[socket] || m.sender in rooms[socket]))
      && copies == (if socket in Members(rooms, m.receiver) then 1 else 0)
                  + (if socket in Members(rooms, m.sender) then 1 else 0)
      && (m.sender == m.receiver && socket in Members(rooms, m.sender) ==> copies == 2)
  {
    var emits := [Emit(m.receiver, m), Emit(m.sender, m)];
    var ks := set k | 0 <= k < 2 && socket in Members(rooms, emits[k].room);
    if socket in rooms && m.receiver in rooms[socket] {
      assert 0 in ks;
    }
    if socket in rooms && m.sender in rooms[socket] {
      assert 1 in ks;
    }
    var r := if socket in Members(rooms, m.receiver) then {0} else {};
    var t := if socket in Members(rooms, m.sender) then {1} else {};
    assert ks == r + t;
    assert |r + t| == |r| + |t|;
  }
}
