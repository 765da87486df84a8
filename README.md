# WebRTC signaling relay: room registry and signal relay

This project models the core of a small WebRTC signaling server (`index.ts`).
Browser peers connect over a socket, send `join-room` with a room id, and get back
the ids of the other members (`all-users`). They then exchange offers and answers
through the server with `sending-signal` and `returning-signal`. The server keeps
one mutable table, `rooms`, which maps each room id to the list of socket ids that
joined it. A `disconnect` filters the socket out of that table again.

The handlers run one at a time on a single event loop, so the model is a
sequential state machine:

- `membership.dfy` (module `Membership`): the table as a `map<RoomId, seq<SessionId>>`.
  It holds the filter `Without` (`ids.filter((id) => id !== sid)`), the effect of a
  join (`JoinRooms`) and the effect of a disconnect (`LeaveAll`), with lemmas about
  them. It also holds `Consistent`, the invariant linking the table to the
  listeners each live socket has registered.
- `relay.dfy` (module `Relay`): the two payloads and the envelope each relay
  listener hands to the transport. The signal is opaque, so it is a type parameter `S`.
- `server.dfy` (module `SignalServer`): class `Registry`. Its fields are the table
  `rooms` and, per live socket, `listeners`. `listeners` lists the room ids
  captured by each `join-room` call of that socket, in call order. Every
  `join-room` call registers a new `sending-signal`, `returning-signal` and
  `disconnect` listener, each closing over that call's room id, and the model
  keeps exactly that. Consequences:
  - a socket that joined k times relays every signal k times;
  - on disconnect, each of its disconnect listeners filters its own room;
  - the socket leaves every room it joined.

  `RunDisconnectListeners` runs those listeners in registration order over a
  table value. `LobbyMeeting` walks two peers into a room through the class.

The model follows the code, not the design description of the system, in these places:
- A second join by the same socket appends its id again. There is no de-duplication.
- A socket may be a member of several rooms at once.
- A room is never deleted. When its last member disconnects it stays, mapped to `[]`.
  A later join reuses the empty list, because `[]` is truthy in JavaScript.
- There are no display names and no chat messages. The code has neither.
- A join sends no arrival notice (`user-joined-room`) to the other members, and
  a disconnect sends no departure notice (`user-left`). The code emits neither,
  so the model has no such envelopes.

`Consistent` is stronger than "the keys exist". For every live socket `s` and
room `r`, `s` occurs in `rooms[r]` exactly as many times as `r` occurs in `s`'s
listener list. Also, no socket that has disconnected is a member of any room.
Every handler keeps it. It makes the `?.` at index.ts:51 unreachable: a room
captured by a listener is always a key of the table.

## Model

| member | source | states |
|---|---|---|
| `Membership.Without` | index.ts:33 | the filtered list holds exactly the ids of the input other than the socket's own id, and is no longer than the input |
| `Membership.WithoutAppend` | index.ts:33 | filtering distributes over concatenation, so the kept ids stay in their original relative order |
| `Membership.WithoutCounts` | index.ts:51 | filtering removes every occurrence of the socket id and keeps every other id exactly as often as it occurred |
| `Membership.WithoutAbsent` | index.ts:51 | filtering an id out of a list that does not contain it returns the list unchanged |
| `Membership.WithoutIdempotent` | index.ts:51 | filtering the same id twice gives the same list as filtering it once |
| `Membership.WithoutOnly` | index.ts:51 | a list holding only the socket's id filters to the empty list |
| `Membership.JoinRooms` | index.ts:30-31 | the table after a join: the room becomes a key, its list gains exactly one more `sid`, and every other room keeps its list; `Membership.JoinRoomsEffect` pins the list down exactly |
| `Membership.JoinRoomsEffect` | index.ts:30-31 | after a join the room is a key; an absent room now maps to `[sid]`, an existing one to its old list plus `sid` at the end; the socket's count there rises by one even if it was already present; no other room changes |
| `Membership.JoinRoster` | index.ts:30-34 | the roster computed after the push equals the room's members before the join minus the joiner, in order and with multiplicity, and never contains the joiner |
| `Membership.LeaveAll` | index.ts:50-52 | the table after a disconnect: same keys, `sid` in none of the rooms it joined, no list longer than before, rooms it never joined unchanged; `Membership.LeaveAllEffect` adds the exact counts and the empty-room case |
| `Membership.LeaveAllEffect` | index.ts:50-52 | disconnect keeps every room key; every room the socket joined loses all occurrences of it and keeps the other members' counts; rooms it never joined are unchanged; a room whose members were all that socket becomes `[]` and is not deleted |
| `Membership.LeaveAllStep` | index.ts:51 | one more disconnect listener for a room filters that room's list once more and changes no other room; a room already filtered by an earlier listener of the same socket is not changed again |
| `Membership.LobbyEmptied` | index.ts:29-52 | two sockets join "lobby" and leave: after the first leaves the other is still listed; after both leave "lobby" is still a key and maps to `[]` |
| `Membership.LeaveAllAbsent` | index.ts:51 | a disconnect of a socket absent from the rooms it names leaves the whole table equal to before |
| `Membership.LeaveAllIdempotent` | index.ts:51 | applying the same disconnect twice gives the same table as applying it once |
| `Membership.ConnectConsistent` | index.ts:28 | registering a new socket with no listeners keeps the table consistent, and that socket is in no room |
| `Membership.JoinConsistent` | index.ts:29-53 | a join, which appends the socket to the room and registers one more listener set for that room, keeps the table consistent with the listeners |
| `Membership.DisconnectConsistent` | index.ts:50-52 | running all disconnect listeners and dropping the socket keeps the table consistent, and the socket is afterwards in no room at all |
| `Relay.ForwardSignal` | index.ts:37-40 | the envelope of one `sending-signal` listener is a `user-joined` event to the payload's `userToSignal`, with the sending socket as `callerId` and the signal unchanged; `Relay.ForwardSignalEnvelope` adds that the payload's own `callerId` has no effect |
| `Relay.ReturnSignal` | index.ts:44-47 | the envelope of one `returning-signal` listener is a `receiving-returned-signal` event to the payload's `callerId`, with the answering socket as `id` and the signal unchanged; `Relay.OfferAnswerRoundTrip` ties it to `Relay.ForwardSignal` |
| `Relay.ForwardSignalEnvelope` | index.ts:36-41 | a `sending-signal` yields a `user-joined` event addressed to `userToSignal`, with `callerId` the sending socket whatever the payload's `callerId` says, and the signal unchanged |
| `Relay.ReturnSignalEnvelope` | index.ts:43-48 | a `returning-signal` yields a `receiving-returned-signal` event addressed to the payload's `callerId`, with `id` the answering socket and the signal unchanged |
| `Relay.OfferAnswerRoundTrip` | index.ts:36-48 | an answer returned to the caller named in a forwarded offer reaches the offering socket from the answering socket, even when the offer's payload claimed another caller |
| `SignalServer.RunDisconnectListeners` | index.ts:50-52 | running one filter per registered disconnect listener, in order, yields exactly the disconnect table `LeaveAll`, also when a room was joined more than once |
| `SignalServer.Registry.constructor` | index.ts:26 | the server starts with an empty room table and no connection |
| `SignalServer.Registry.Connect` | index.ts:28 | a new connection has no listeners, the table is unchanged, and the socket is in no room |
| `SignalServer.Registry.Join` | index.ts:29-34 | the table becomes `JoinRooms` of the old one; one listener set for the room is added; the roster is the old members without the joiner (both directions of membership), and never the joiner; consistency is kept |
| `SignalServer.Registry.SendingSignal` | index.ts:36-41 | one `user-joined` envelope per registered listener, each addressed to the target, from the sending socket, with the signal unchanged |
| `SignalServer.Registry.ReturningSignal` | index.ts:43-48 | one `receiving-returned-signal` envelope per registered listener, each addressed to the payload's caller, from the answering socket, with the signal unchanged |
| `SignalServer.Registry.Disconnect` | index.ts:50-52 | the table becomes `LeaveAll` of the old one over the socket's listener rooms; no key is removed; the socket's listeners are gone; it is in no room; consistency is kept |

## Left out

- The Express app, the HTTP server, the socket.io server with its CORS setting, and `server.listen` with its log line (index.ts:1-9, 56). These are process start-up and foreign library calls.
- Delivery through `socket.emit` and `io.to(...).emit(...)` (index.ts:34, 37, 44). `Join` returns the roster that `all-users` carries. The relay methods return the envelopes they would emit. Whether the addressee is still connected is up to the transport: an envelope to a gone socket is dropped there, not in this code.
- Socket id assignment by the transport. `Connect` takes the id as a parameter and requires that no live socket already has it.
- JavaScript plain-object behaviour of `rooms[roomId]` for keys such as `"constructor"` or `"__proto__"`. The model uses a map with no inherited keys.
- The `undefined` result of `?.` at index.ts:51. It needs a listener whose room is not a key, and `Consistent` rules that out, so `RunDisconnectListeners` requires every listened room to be a key.
- The structure of the signal (`any` in index.ts:13, 18). It is an uninterpreted type parameter.
- SendingSignal: takes the payload as a typed record with a string `userToSignal`. The source checks nothing. A `null` or `undefined` payload makes the listener throw a TypeError at index.ts:37, and a non-string `userToSignal` is handed to `io.to` as it is. The model cannot express either case.
- ReturningSignal: takes the payload as a typed record with a string `callerId`. A `null` or `undefined` payload throws a TypeError at index.ts:44, and a non-string `callerId` is handed to `io.to` as it is. The model cannot express either case.
- Disconnect of a socket that never connected, and events arriving after a socket's disconnect. The transport does not deliver either, so the methods require the socket to be live.
