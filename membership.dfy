/**
 The room table of the signaling server (`rooms` in index.ts) and the pure
 operations on it: the filter that builds a roster and that disconnect applies,
 the effect of a join, the effect of a disconnect, and the invariant that ties
 the table to the listeners each live socket has registered.
 */
module Membership {

  /** A socket id, assigned by the transport and unique per connection. */
  type SessionId = string
  /** A room id, chosen by the client that sends `join-room`. */
  type RoomId = string

  /** The `rooms` table: each room maps to its members in join order. */
  type Rooms = map<RoomId, seq<SessionId>>

  /**
   For each live socket, the room id captured by each `join-room` call it made,
   in call order. Every entry stands for one `sending-signal`, one
   `returning-signal` and one `disconnect` listener registered on that socket.
   */
  type Listeners = map<SessionId, seq<RoomId>>

  /** `ids.filter((id) => id !== sid)`: every element of `ids` except `sid`, in order. */
  function Without(ids: seq<SessionId>, sid: SessionId): (r: seq<SessionId>)
    ensures forall id :: id in r <==> id in ids && id != sid
    ensures |r| <= |ids|
  {
    if ids == [] then []
    else if ids[0] == sid then Without(ids[1..], sid)
    else [ids[0]] + Without(ids[1..], sid)
  }

  /** Filtering distributes over concatenation, so the relative order of the kept ids is preserved. */
  lemma {:induction false} WithoutAppend(a: seq<SessionId>, b: seq<SessionId>, sid: SessionId)
    ensures Without(a + b, sid) == Without(a, sid) + Without(b, sid)
  {
    if a != [] {
      assert (a + b)[1..] == a[1..] + b;
      WithoutAppend(a[1..], b, sid);
    } else {
      assert a + b == b;
    }
  }

  /** Filtering removes every occurrence of `sid` and keeps every other id as often as it occurred. */
  lemma {:induction false} WithoutCounts(ids: seq<SessionId>, sid: SessionId)
    ensures multiset(Without(ids, sid)) == multiset(ids)[sid := 0]
  {
    if ids != [] {
      WithoutCounts(ids[1..], sid);
      assert ids == [ids[0]] + ids[1..];
    }
  }

  /** Filtering out an id that does not occur changes nothing. */
  lemma {:induction false} WithoutAbsent(ids: seq<SessionId>, sid: SessionId)
    requires sid !in ids
    ensures Without(ids, sid) == ids
  {
    if ids != [] {
      WithoutAbsent(ids[1..], sid);
      assert ids == [ids[0]] + ids[1..];
    }
  }

  /** Filtering twice is filtering once. */
  lemma WithoutIdempotent(ids: seq<SessionId>, sid: SessionId)
    ensures Without(Without(ids, sid), sid) == Without(ids, sid)
  {
    WithoutAbsent(Without(ids, sid), sid);
  }

  /** A list that holds nothing but `sid` filters to the empty list. */
  lemma {:induction false} WithoutOnly(ids: seq<SessionId>, sid: SessionId)
    requires forall id :: id in ids ==> id == sid
    ensures Without(ids, sid) == []
  {
    if ids != [] {
      assert ids[0] in ids;
      assert forall id :: id in ids[1..] ==> id in ids;
      WithoutOnly(ids[1..], sid);
    }
  }

  /** The members of `room`; a room that was never created has none. */
  function Members(rooms: Rooms, room: RoomId): (members: seq<SessionId>)
  {
    if room in rooms then rooms[room] else []
  }

  /** The table after `sid` joins `room`: created empty when absent, then `sid` appended. */
  function JoinRooms(rooms: Rooms, room: RoomId, sid: SessionId): (joined: Rooms)
    ensures joined.Keys == rooms.Keys + {room}
    ensures multiset(joined[room]) == multiset(Members(rooms, room)) + multiset{sid}
    ensures forall other :: other in rooms && other != room ==> joined[other] == rooms[other]
  {
    rooms[room := Members(rooms, room) + [sid]]
  }

  /**
   A join creates `room` if needed, appends `sid` to its list even when `sid`
   is already there, and leaves every other room as it was.
   */
  lemma JoinRoomsEffect(rooms: Rooms, room: RoomId, sid: SessionId)
    ensures JoinRooms(rooms, room, sid).Keys == rooms.Keys + {room}
    ensures room !in rooms ==> JoinRooms(rooms, room, sid)[room] == [sid]
    ensures room in rooms ==> JoinRooms(rooms, room, sid)[room] == rooms[room] + [sid]
    ensures multiset(JoinRooms(rooms, room, sid)[room])[sid] == multiset(Members(rooms, room))[sid] + 1
    ensures forall other :: other in rooms && other != room ==> JoinRooms(rooms, room, sid)[other] == rooms[other]
  {
  }

  /**
   The roster sent to a joiner: every member the room had before the join other
   than the joiner, in order and with repetitions, and never the joiner.
   */
  lemma {:induction false} JoinRoster(rooms: Rooms, room: RoomId, sid: SessionId)
    ensures Without(JoinRooms(rooms, room, sid)[room], sid) == Without(Members(rooms, room), sid)
    ensures multiset(Without(JoinRooms(rooms, room, sid)[room], sid)) == multiset(Members(rooms, room))[sid := 0]
    ensures sid !in Without(JoinRooms(rooms, room, sid)[room], sid)
  {
    WithoutAppend(Members(rooms, room), [sid], sid);
    assert Without([sid], sid) == [];
    WithoutCounts(Members(rooms, room), sid);
  }

  /**
   The table after the disconnect listeners of `sid` have run: each room in
   `joined` is filtered, every other room is untouched, and no key is removed.
   */
  function LeaveAll(rooms: Rooms, joined: seq<RoomId>, sid: SessionId): (left: Rooms)
    ensures left.Keys == rooms.Keys
    ensures forall room :: room in rooms && room in joined ==> sid !in left[room]
    ensures forall room :: room in rooms ==> |left[room]| <= |rooms[room]|
    ensures forall room :: room in rooms && room !in joined ==> left[room] == rooms[room]
  {
    map room | room in rooms :: if room in joined then Without(rooms[room], sid) else rooms[room]
  }

  /**
   Disconnect keeps every room key, removes every occurrence of `sid` from the
   rooms it joined while keeping the other members in order, and leaves the rooms
   it never joined as they were. A room left with no member maps to `[]`.
   */
  lemma LeaveAllEffect(rooms: Rooms, joined: seq<RoomId>, sid: SessionId)
    ensures LeaveAll(rooms, joined, sid).Keys == rooms.Keys
    ensures forall room :: room in rooms && room in joined ==>
      sid !in LeaveAll(rooms, joined, sid)[room] &&
      multiset(LeaveAll(rooms, joined, sid)[room]) == multiset(rooms[room])[sid := 0]
    ensures forall room :: room in rooms && room !in joined ==> LeaveAll(rooms, joined, sid)[room] == rooms[room]
    ensures forall room :: room in rooms && room in joined && (forall id :: id in rooms[room] ==> id == sid) ==>
      LeaveAll(rooms, joined, sid)[room] == []
  {
    forall room | room in rooms && room in joined
      ensures multiset(LeaveAll(rooms, joined, sid)[room]) == multiset(rooms[room])[sid := 0]
    {
      WithoutCounts(rooms[room], sid);
    }
    forall room | room in rooms && room in joined && (forall id :: id in rooms[room] ==> id == sid)
      ensures LeaveAll(rooms, joined, sid)[room] == []
    {
      WithoutOnly(rooms[room], sid);
    }
  }

  /**
   One more disconnect listener, for `room`, filters that room once more; a room
   already filtered by an earlier listener is not changed by it.
   */
  lemma LeaveAllStep(rooms: Rooms, joined: seq<RoomId>, room: RoomId, sid: SessionId)
    requires room in rooms
    ensures var before := LeaveAll(rooms, joined, sid);
            LeaveAll(rooms, joined + [room], sid) == before[room := Without(before[room], sid)]
  {
    var before := LeaveAll(rooms, joined, sid);
    if room in joined {
      WithoutIdempotent(rooms[room], sid);
    }
    assert forall r :: r in joined + [room] <==> r in joined || r == room;
  }

  /** A disconnect of a session that is in none of the rooms it names leaves the table equal to before. */
  lemma LeaveAllAbsent(rooms: Rooms, joined: seq<RoomId>, sid: SessionId)
    requires forall room :: room in rooms && room in joined ==> sid !in rooms[room]
    ensures LeaveAll(rooms, joined, sid) == rooms
  {
    forall room | room in rooms && room in joined
      ensures LeaveAll(rooms, joined, sid)[room] == rooms[room]
    {
      WithoutAbsent(rooms[room], sid);
    }
  }

  /** Running the same disconnect twice is running it once. */
  lemma LeaveAllIdempotent(rooms: Rooms, joined: seq<RoomId>, sid: SessionId)
    ensures LeaveAll(LeaveAll(rooms, joined, sid), joined, sid) == LeaveAll(rooms, joined, sid)
  {
    LeaveAllEffect(rooms, joined, sid);
    LeaveAllAbsent(LeaveAll(rooms, joined, sid), joined, sid);
  }

  /** Every room a live socket listens for is a key of the table. */
  ghost predicate ListenedRoomsExist(rooms: Rooms, listeners: Listeners)
  {
    forall sid, room :: sid in listeners && room in listeners[sid] ==> room in rooms
  }

  /** Only live sockets are members of a room. */
  ghost predicate MembersAreLive(rooms: Rooms, listeners: Listeners)
  {
    forall room, sid :: room in rooms && sid in rooms[room] ==> sid in listeners
  }

  /** A live socket occurs in a room exactly as often as it has a listener for that room. */
  ghost predicate CountsAgree(rooms: Rooms, listeners: Listeners)
  {
    forall room, sid :: room in rooms && sid in listeners ==>
      multiset(rooms[room])[sid] == multiset(listeners[sid])[room]
  }

  /**
   The room table agrees with the listeners: every room a live socket listens
   for exists; only live sockets are members; and a live socket occurs in a
   room exactly as often as it joined that room.
   */
  ghost predicate Consistent(rooms: Rooms, listeners: Listeners)
  {
    ListenedRoomsExist(rooms, listeners) && MembersAreLive(rooms, listeners) && CountsAgree(rooms, listeners)
  }

  /** A new connection has no listeners and, by consistency, is in no room. */
  lemma ConnectConsistent(rooms: Rooms, listeners: Listeners, sid: SessionId)
    requires Consistent(rooms, listeners)
    requires sid !in listeners
    ensures Consistent(rooms, listeners[sid := []])
    ensures forall room :: room in rooms ==> sid !in rooms[room]
  {
  }

  /** Appending `y` adds one to the count of `y` and leaves every other count as it was. */
  lemma CountAppend<T>(xs: seq<T>, y: T, x: T)
    ensures multiset(xs + [y])[x] == multiset(xs)[x] + if x == y then 1 else 0
  {
  }

  /** The counts of one socket in one room still agree after a join, if they agreed before. */
  lemma JoinCountAt(rooms: Rooms, listeners: Listeners, room: RoomId, sid: SessionId, r: RoomId, s: SessionId)
    requires sid in listeners && s in listeners
    requires r in rooms ==> multiset(rooms[r])[s] == multiset(listeners[s])[r]
    requires r !in rooms ==> r !in listeners[s]
    requires r in JoinRooms(rooms, room, sid)
    ensures multiset(JoinRooms(rooms, room, sid)[r])[s] == multiset(listeners[sid := listeners[sid] + [room]][s])[r]
  {
    if s == sid {
      CountAppend(listeners[sid], room, r);
    }
    if r == room {
      CountAppend(Members(rooms, room), sid, s);
    }
  }

  /** A join adds one occurrence of `sid` to `room` and one listener for `room` to `sid`, so the counts still agree. */
  lemma JoinCounts(rooms: Rooms, listeners: Listeners, room: RoomId, sid: SessionId)
    requires ListenedRoomsExist(rooms, listeners) && CountsAgree(rooms, listeners)
    requires sid in listeners
    ensures CountsAgree(JoinRooms(rooms, room, sid), listeners[sid := listeners[sid] + [room]])
  {
    var rooms', listeners' := JoinRooms(rooms, room, sid), listeners[sid := listeners[sid] + [room]];
    forall r, s | r in rooms' && s in listeners'
      ensures multiset(rooms'[r])[s] == multiset(listeners'[s])[r]
    {
      JoinCountAt(rooms, listeners, room, sid, r, s);
    }
  }

  /** A join keeps the table consistent with the listeners, the join adding one listener for `room`. */
  lemma JoinConsistent(rooms: Rooms, listeners: Listeners, room: RoomId, sid: SessionId)
    requires Consistent(rooms, listeners)
    requires sid in listeners
    ensures Consistent(JoinRooms(rooms, room, sid), listeners[sid := listeners[sid] + [room]])
  {
    var rooms', listeners' := JoinRooms(rooms, room, sid), listeners[sid := listeners[sid] + [room]];
    assert ListenedRoomsExist(rooms', listeners');
    assert MembersAreLive(rooms', listeners');
    JoinCounts(rooms, listeners, room, sid);
  }

  /**
   A disconnect keeps the table consistent once the socket's listeners are
   gone, and afterwards the socket is in no room at all.
   */
  lemma DisconnectConsistent(rooms: Rooms, listeners: Listeners, sid: SessionId)
    requires Consistent(rooms, listeners)
    requires sid in listeners
    ensures Consistent(LeaveAll(rooms, listeners[sid], sid), listeners - {sid})
    ensures forall room :: room in rooms ==> sid !in LeaveAll(rooms, listeners[sid], sid)[room]
  {
    var rooms', listeners' := LeaveAll(rooms, listeners[sid], sid), listeners - {sid};
    LeaveAllEffect(rooms, listeners[sid], sid);
    forall room | room in rooms
      ensures sid !in rooms'[room]
    {
      if room !in listeners[sid] {
        assert multiset(rooms[room])[sid] == 0;
      }
    }
    assert ListenedRoomsExist(rooms', listeners');
    assert MembersAreLive(rooms', listeners');
    forall r, s | r in rooms' && s in listeners'
      ensures multiset(rooms'[r])[s] == multiset(listeners'[s])[r]
    {
      if r in listeners[sid] {
        WithoutCounts(rooms[r], sid);
      }
    }
  }

  /**
   Two sockets join "lobby" and leave again: after the first departure the other
   socket is still listed, and after the second the room is still a key, with
   no member.
   */
  lemma LobbyEmptied()
    ensures var full := JoinRooms(JoinRooms(map[], "lobby", "s1"), "lobby", "s2");
            var half := LeaveAll(full, ["lobby"], "s2");
            var empty := LeaveAll(half, ["lobby"], "s1");
            full["lobby"] == ["s1", "s2"] && half["lobby"] == ["s1"] &&
            "lobby" in empty && empty["lobby"] == []
  {
    var full := JoinRooms(JoinRooms(map[], "lobby", "s1"), "lobby", "s2");
    assert full["lobby"] == ["s1", "s2"];
    assert Without(["s1", "s2"], "s2") == ["s1"];
    assert Without(["s1"], "s1") == [];
  }
}
