/**
 The connection handlers of the signaling server, run one at a time on the
 event loop: the shared `rooms` table and, per live socket, the listeners its
 `join-room` calls registered.
 */
module SignalServer {
  import opened Membership
  import opened Relay

  /**
   The disconnect listeners of socket `sid`, one per `join-room` call, run in
   registration order; each replaces the list of the room it remembers by that
   list without `sid`. A room remembered twice is filtered twice, to the same
   effect as once.
   */
  method RunDisconnectListeners(rooms: Rooms, joined: seq<RoomId>, sid: SessionId) returns (table: Rooms)
    requires forall room :: room in joined ==> room in rooms
    ensures table == LeaveAll(rooms, joined, sid)
  {
    table := rooms;
    var i := 0;
    assert joined[..0] == [];
    assert LeaveAll(rooms, [], sid) == rooms;
    while i < |joined|
      invariant 0 <= i <= |joined|
      invariant table == LeaveAll(rooms, joined[..i], sid)
    {
      assert joined[..i + 1] == joined[..i] + [joined[i]];
      LeaveAllStep(rooms, joined[..i], joined[i], sid);
      table := table[joined[i] := Without(table[joined[i]], sid)];
      i := i + 1;
    }
    assert joined[..i] == joined;
  }

  class Registry {
    /** The `rooms` table. */
    var rooms: Rooms
    /** For each live socket, the room captured by each `join-room` listener set it registered. */
    var listeners: Listeners

    ghost predicate Valid()
      reads this
    {
      Consistent(rooms, listeners)
    }

    /** The server starts with no room and no connection. */
    constructor ()
      ensures Valid()
      ensures rooms == map[] && listeners == map[]
    {
      rooms := map[];
      listeners := map[];
    }

    /** A new connection: the socket has no listeners until it joins a room. */
    method Connect(sid: SessionId)
      requires Valid()
      requires sid !in listeners
      modifies this
      ensures Valid()
      ensures rooms == old(rooms)
      ensures listeners == old(listeners)[sid := []]
      ensures forall room :: room in rooms ==> sid !in rooms[room]
    {
      ConnectConsistent(rooms, listeners, sid);
      listeners := listeners[sid := []];
    }

    /**
     `join-room`: create the room if it is absent, append the socket, reply
     with the other members, and register one more set of listeners that
     remember `room`.
     */
    method Join(sid: SessionId, room: RoomId) returns (roster: seq<SessionId>)
      requires Valid()
      requires sid in listeners
      modifies this
      ensures Valid()
      ensures rooms == JoinRooms(old(rooms), room, sid)
      ensures listeners == old(listeners)[sid := old(listeners[sid]) + [room]]
      ensures roster == Without(Members(old(rooms), room), sid)
      ensures sid !in roster
      ensures forall id :: id in roster <==> id in Members(old(rooms), room) && id != sid
    {
      JoinConsistent(rooms, listeners, room, sid);
      JoinRoster(rooms, room, sid);
      ghost var joinedRooms := JoinRooms(rooms, room, sid);
      if room !in rooms {
        rooms := rooms[room := []];
      }
      rooms := rooms[room := rooms[room] + [sid]];
      assert rooms == joinedRooms;
      roster := Without(rooms[room], sid);
      listeners := listeners[sid := listeners[sid] + [room]];
    }

    /**
     `sending-signal`: every listener the socket registered forwards the signal,
     so a socket that joined k times emits k identical `user-joined` events.
     */
    method SendingSignal<S>(sid: SessionId, p: SignalPayload<S>) returns (sent: seq<Envelope<S>>)
      requires sid in listeners
      ensures |sent| == |listeners[sid]|
      ensures forall i :: 0 <= i < |sent| ==>
        sent[i].UserJoined? && sent[i].to == p.userToSignal && sent[i].callerId == sid && sent[i].signal == p.signal
    {
      var handlers := listeners[sid];
      sent := [];
      var i := 0;
      while i < |handlers|
        invariant 0 <= i <= |handlers|
        invariant |sent| == i
        invariant forall k :: 0 <= k < i ==> sent[k] == ForwardSignal(sid, p)
      {
        sent := sent + [ForwardSignal(sid, p)];
        i := i + 1;
      }
    }

    /**
     `returning-signal`: every listener the socket registered returns the
     answer to the caller named in the payload, once per `join-room` call.
     */
    method ReturningSignal<S>(sid: SessionId, p: ReturningSignalPayload<S>) returns (sent: seq<Envelope<S>>)
      requires sid in listeners
      ensures |sent| == |listeners[sid]|
      ensures forall i :: 0 <= i < |sent| ==>
        sent[i].ReceivingReturnedSignal? && sent[i].to == p.callerId && sent[i].id == sid && sent[i].signal == p.signal
    {
      var handlers := listeners[sid];
      sent := [];
      var i := 0;
      while i < |handlers|
        invariant 0 <= i <= |handlers|
        invariant |sent| == i
        invariant forall k :: 0 <= k < i ==> sent[k] == ReturnSignal(sid, p)
      {
        sent := sent + [ReturnSignal(sid, p)];
        i := i + 1;
      }
    }

    /**
     `disconnect`: each disconnect listener, in registration order, filters the
     socket out of the room it remembers; then the socket and its listeners are gone.
     */
    method Disconnect(sid: SessionId)
      requires Valid()
      requires sid in listeners
      modifies this
      ensures Valid()
      ensures rooms == LeaveAll(old(rooms), old(listeners[sid]), sid)
      ensures listeners == old(listeners) - {sid}
      ensures rooms.Keys == old(rooms).Keys
      ensures forall room :: room in rooms ==> sid !in rooms[room]
    {
      DisconnectConsistent(rooms, listeners, sid);
      LeaveAllEffect(rooms, listeners[sid], sid);
      var table := RunDisconnectListeners(rooms, listeners[sid], sid);
      rooms := table;
      listeners := listeners - {sid};
    }
  }

  /**
   Two peers meet in "lobby": the second joiner is told about the first, and
   the first peer's offer reaches the second with the first as caller.
   */
  method LobbyMeeting<S>(offer: S)
  {
    assert Without(["s1"], "s2") == ["s1"];
    var server := new Registry();
    server.Connect("s1");
    var roster1 := server.Join("s1", "lobby");
    assert roster1 == [];
    server.Connect("s2");
    var roster2 := server.Join("s2", "lobby");
    assert roster2 == ["s1"];
    var sent := server.SendingSignal("s1", SignalPayload("s2", offer, None));
    assert sent == [UserJoined("s2", offer, "s1")];
  }
}
