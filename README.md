# online-uno server core, modelled in Dafny

online-uno is a small multiplayer Uno server. Clients connect over TCP and
exchange JSON messages. Each message is framed by a 4-byte big-endian length.
The server keeps two process-wide lists:
- the active rooms, each with an owner, an ordered member list, a capacity and an id;
- the active sessions, one logged-in `User` per successful login.

Each connection runs a dispatch loop. The loop handles REGISTER, LOGIN, WHOAMI,
LOGOUT, ROOM_CREATION and ROOM_CONNECTION requests until a request raises or
the peer goes away. Then a cleanup runs over the two lists and removes from
them while iterating over them.
- The session loop calls `list.remove` at each session under the user's name
  that the iterator reaches. `remove` drops the first session with that name,
  which may sit before the iterator, and the iterator still moves on by one.
  So not every session under the name goes: three sessions under one name end
  as the last one alone, and of two adjacent ones the second stays.
- The room loop closes the rooms the user owns after notifying their members,
  and takes the user out of the other rooms it looks at. Removing a closed
  room shifts the next room under the iterator, which then moves past it: that
  room is not looked at, so the user keeps a seat in it.

`SweepSessionsSkipsNeighbour`, `SweepSessionsRemovesBehind`,
`SweepPlanSkipsNext` and `LeaveEffect` state these cases.

This project models that core in six modules:

- `Wrappers` (wrappers.dfy) holds the Option, Outcome and Result types.
- `Proto` (proto.dfy) is the framing codec of lib/proto.py:
  - message kinds and their wire names;
  - the big-endian header with `ToBytes`/`FromBytes`, proved to be a bijection;
  - `EncodeFrame` and `SendMessage` over a `Socket` that records what was written;
  - the chunked read loop `RecvBody`/`RecvMessage` over a stream of unread bytes, proved against `ReadFrame`, with the sizes passed to `recv` returned and bounded;
  - the wire round trip.
- `Users` (users.dfy) is lib/user.py:
  - `User` is a value (name, id, connection) whose equality is by name;
  - the class-level id counter is the class `UserIds`;
  - list helpers work under name equality: `ContainsName`, `CountNamed`, `Others` and `RemoveFirstNamed`, which is `list.remove`.
- `Rooms` (rooms.dfy) is lib/room.py:
  - `Room` is a class whose `users` and `owner` change in place;
  - `RoomIds` is the class-level counter;
  - `NewRoom` draws the id before the game engine may refuse the player count.
- `Cleanup` (cleanup.dfy) gives the reference meaning of the two remove-while-iterating loops of the disconnect cleanup:
  - `SweepSessions` for the session loop;
  - `SweepPlan` and `Keep` for the room loop.

  Python's list iterator keeps a position and advances it by one. A removal shifts the next element into the current position, so the iterator skips that element. The lemmas prove what this does and does not remove.
- `Server` (server.py) holds everything in the class `Registry`:
  - the two lists;
  - every `send_message` as an `Outgoing` record appended to `outbox`;
  - connections the server closes, kept in `closed`;
  - the handlers, the per-request dispatch `Handle`, the request loop `Converse`, the per-connection `Serve`, and the cleanup `Disconnect`.

  The session side of the request loop also has a pure reference meaning:
  - `Dispatch` is one request's effect on the connection's session, the session list and the user id counter;
  - `Trace` is the states the loop passes through, ending at the first request that raises.

  `Handle` and `Serve` are proved against them.

`Registry.Valid()` is the invariant every handler keeps: room ids are distinct and below the counter, and no two rooms have owners with the same name.

External collaborators become inputs:
- the account database (login lookup, account creation) is the `accepted` flag of an `Incoming` request;
- whether the Uno engine accepts a player count is `gameBuilds`;
- which members' connections fail during the cleanup is the `broken` set.

Where the code and the design notes disagree, the model follows the code:
- login does not stop a second session under a name that is already logged in, so several sessions may share a name;
- the code defines only the eleven message kinds of lib/proto.py.

## Model

| member | source | states |
|---|---|---|
| Proto.MessageType.Name | lib/proto.py:6-17 | the wire name of each kind, which is the enum member's name; `ParseTypeName` proves no two kinds share one |
| Proto.ParseType | lib/proto.py:6-17 | a "type" string is recognised only as the kind whose `.name` it is |
| Proto.ParseTypeName | lib/proto.py:6-17 | every kind's name is recognised as that kind, so names identify kinds |
| Proto.MaxFrameLengthIsHeaderRange | lib/proto.py:35 | a 4-byte header holds exactly the lengths below 2^32 |
| Proto.ToBytes | lib/proto.py:35 | `to_bytes(width)` in big-endian order is exactly `width` bytes, for every number below 256^width |
| Proto.FromBytes | lib/proto.py:22 | `int.from_bytes` in big-endian order is below 256 to the power of the byte count |
| Proto.FromBytesToBytes | lib/proto.py:35 | `from_bytes` undoes `to_bytes(width)` for every number that fits |
| Proto.ToBytesFromBytes | lib/proto.py:22 | `to_bytes` of the decoded header gives back the header bytes, so the header is a bijection |
| Proto.EncodeFrame | lib/proto.py:34-37 | a frame exists iff the payload is shorter than 2^32 bytes; it is 4 header bytes decoding to the payload length, followed by the payload |
| Proto.SendMessage | lib/proto.py:33-37 | an oversized payload fails before anything is written; otherwise the socket receives the header and then the payload |
| Proto.Recv | lib/proto.py:21 | one read takes the next min(n, available) bytes; the bytes read plus the bytes left are the bytes before |
| Proto.ReadFrame | lib/proto.py:19-28 | a stream shorter than the header yields no payload. Otherwise the payload and the unread rest together are the bytes after the header. The payload is as long as the header says, or all that is left when fewer bytes remain |
| Proto.RecvTwice | lib/proto.py:24-28 | two consecutive reads take what one read of the combined size takes |
| Proto.RecvBody | lib/proto.py:23-28 | the chunk loop reads exactly what one read of the announced length reads; the request sizes sum to that length; each is between 1 and 1024, and all but the last are 1024 |
| Proto.RecvMessage | lib/proto.py:19-28 | recv_message first asks for 4 bytes, then for chunks summing to the decoded header value, and returns `ReadFrame` of the stream |
| Proto.RoundTrip | lib/proto.py:19-37 | reading back a frame that send_message wrote, followed by any bytes, yields the original payload and leaves those bytes unread |
| Proto.EmptyFrame | lib/proto.py:27-28 | a zero header yields an empty payload and consumes only the header |
| Users.Equals | lib/user.py:26-27 | `__eq__`: the other value is a User with the same name; `EqualsByName` and `EqualsOnlyUsers` state its properties |
| Users.EqualsByName | lib/user.py:26-27 | two users are equal iff their names agree; equality is symmetric and ignores id and connection |
| Users.EqualsOnlyUsers | lib/user.py:27 | a user never equals a value that is not a user |
| Users.UserIds.constructor | lib/user.py:6 | the user id counter starts at 0 |
| Users.UserIds.NewUser | lib/user.py:8-12 | a new user keeps the given name and connection, gets the counter's value as id, and the counter goes up by one |
| Users.ContainsName | lib/room.py:20-21 | true iff some user in the list has the name |
| Users.FirstNamed | lib/room.py:35 | the position `list.remove` searches for: the first user with the name, or the length when there is none |
| Users.Others | lib/room.py:35 | the users without the name, with their count; exactly the list's users whose name differs |
| Users.RemoveFirstNamed | lib/room.py:35 | removes one user with the name when there is one, lowering that name's count by one; keeps every other user in order; keeps names distinct, and with distinct names leaves nobody with the name |
| Users.RemoveAtCount | lib/room.py:35 | dropping the first user with the name lowers that name's count by one |
| Users.RemoveAtOthers | lib/room.py:35 | dropping the first user with the name keeps every other user in order |
| Users.RemoveAtDistinct | lib/room.py:35 | with distinct names, dropping the user with the name keeps names distinct and leaves nobody with it |
| Rooms.RoomIds.constructor | lib/room.py:8 | the room id counter starts at 0 |
| Rooms.RoomIds.Take | lib/room.py:15-17 | hands out the counter's value and advances the counter by one |
| Rooms.SeatNewcomer | lib/room.py:24-30 | appending a user with an unseated name to a room that is not full keeps names distinct and the count within capacity |
| Rooms.Room.constructor | lib/room.py:12-18 | a new room has members `[creator]`, owner `creator`, the given capacity and id, and a game built for that player count |
| Rooms.Room.HasUser | lib/room.py:20-21 | true iff some member has the user's name |
| Rooms.Room.IsFull | lib/room.py:47-49 | `is_full`: the member count equals the capacity; `FullAtCapacity` states what that means |
| Rooms.Room.PlayerCount | lib/room.py:55-57 | `player_count`: the number of members; `AddUser` states that a successful add raises it by one |
| Rooms.FullAtCapacity | lib/room.py:47-49 | in a well-formed room, `is_full` (an `==` test) holds iff no seat is free; a room over capacity never counts as full |
| Rooms.Room.AddUser | lib/room.py:24-30 | a full room raises RoomFull and a seated name raises AlreadyInRoom, both leaving the members unchanged; otherwise the user is appended and the count grows by one; the owner never changes; distinct names within capacity are preserved |
| Rooms.Room.RemoveUser | lib/room.py:32-37 | an unseated name raises NotInRoom and changes nothing; otherwise the first member with the name is removed; if that was the owner's name, the new first member becomes owner, and when nobody is left it raises after the removal |
| Rooms.NewRoom | lib/room.py:12-18 | the counter always advances by one, even when the game refuses the player count; on success it returns a fresh room with the creator as sole member and owner, the drawn id and the given capacity |
| Cleanup.SweepSessions | server.py:193-196 | the session loop, with Python's iterator position made explicit: a removal at the position moves the next session into it, and the position still advances |
| Cleanup.SweepSessionsKeepsOthers | server.py:193-196 | the session loop keeps every session with another name, in order |
| Cleanup.SweepSessionsRemoves | server.py:193-196 | the session loop never adds a session with the name, and removes at least one when the iterator reaches one |
| Cleanup.SweepSessionsSingle | server.py:193-196 | with at most one session with the name, none is left afterwards |
| Cleanup.SweepSessionsSkipsNeighbour | server.py:193-196 | of two adjacent sessions with the same name, the second is stepped over and stays |
| Cleanup.SweepSessionsRemovesBehind | server.py:193-196 | of three sessions with the same name only the last stays: the second match removes the session that sat behind the iterator |
| Cleanup.SweepPlan | server.py:198-211 | the step the room loop takes at each position of the room list, one per room: close an owned room and step over the one after it, or visit another's room |
| Cleanup.SweepPlanSteps | server.py:198-211 | the room loop closes only rooms the user owns, visits only rooms owned by others, and steps over a room only right after closing one |
| Cleanup.SweepPlanClosesOwned | server.py:198-209 | with distinct owner names, every room the user owns is closed |
| Cleanup.SweepPlanSkipsNext | server.py:198-209 | the room after a closed one is stepped over whoever owns it: it is neither closed nor left |
| Cleanup.Keep | server.py:209 | the rooms left in the list after the room loop: those at positions the plan does not close, in order, at most as many as before |
| Cleanup.KeepMembers | server.py:209 | a room stays in the list iff it sits at a position the loop does not close |
| Cleanup.KeepOrder | server.py:209 | the rooms that stay keep their relative order |
| Cleanup.Leave | server.py:210-211 | a visited room that seats the user's name loses the first member with it; any other room keeps its members |
| Cleanup.LeaveEffect | server.py:210-211 | only a visited room changes; it keeps every member with another name, and with distinct names it no longer seats the user |
| Cleanup.SweepPlanAt | server.py:198-211 | at each position the loop reaches, the step follows from the owner, and the rest of the plan is the plan of what follows |
| Cleanup.KeepPass | server.py:210-211 | visiting or stepping over a room keeps it and moves the iterator on by one |
| Cleanup.KeepClose | server.py:209 | removing the room under the iterator shifts the next room into its place |
| Server.Dispatched | server.py:170-182 | the six request kinds serve_client hands to a handler |
| Server.Route | server.py:170-187 | a "type" is routed to a dispatched request kind whose name it is, or to the ERROR reply when no dispatched kind has that name |
| Server.FindRoom | server.py:135 | the first room with the id, or none iff no room has it |
| Server.OwnedBy | server.py:103 | true iff some room's owner has the name |
| Server.CloseNotices | server.py:200-207 | the ROOM_CLOSE_UPDATE messages a closing room sends, in member order, skipping members whose connection is broken |
| Server.Unreachable | server.py:200-207 | the members' connections whose send fails and which the server closes |
| Server.CloseReachesMembers | server.py:200-207 | closing a room sends a bare ROOM_CLOSE_UPDATE to exactly the members with working connections, and closes exactly the members' broken connections |
| Server.ClosePrefix | server.py:200-207 | each further member adds either its notice or its closed connection |
| Server.NotifyClose | server.py:200-207 | the member loop sends the notices of `CloseNotices` and closes the connections of `Unreachable`; a failed send does not stop it |
| Server.VisitRoom | server.py:210-211 | a visited room loses the leaving user if seated, and keeps its owner |
| Server.CloseRoom | server.py:199-209 | a room owned by the leaving user is notified and removed, and the iterator moves past the room that shifts into its place |
| Server.PassRoom | server.py:210-211 | a room owned by someone else loses the leaving user and the iterator moves on by one |
| Server.SweepStep | server.py:198-211 | one step of the room loop keeps the loop's invariant |
| Server.CloseStep | server.py:199-209 | the invariant after closing the room under the iterator |
| Server.VisitStep | server.py:210-211 | the invariant after visiting the room under the iterator |
| Server.WalkRooms | server.py:198-211 | the room loop leaves `Keep` of the plan as the list; each room's members become `Leave` of its step; owners never change; the notices and closed connections are those of the closed rooms |
| Server.SweepRooms | server.py:198-211 | the room loop, stated on the rooms' state before it runs; with distinct ids and owner names, the rooms left keep them distinct, none is owned by the user, and every room owned by someone else stays |
| Server.SweepKeepsRooms | server.py:198-211 | the rooms the plan keeps have distinct ids and owners, exclude the user's rooms, and include all others |
| Server.Registry.constructor | server.py:13-16 | the server starts with no rooms, sessions, messages or closed connections, and both counters at 0 |
| Server.Registry.Registered | server.py:18-32 | the effect of register_user: a missing field raises; otherwise the reply is OK when the account is created and ERROR otherwise; nothing else changes |
| Server.Registry.Register | server.py:18-32 | ensures `Registered` |
| Server.Registry.LoggedIn | server.py:34-65 | the effect of login_user: a missing field raises; an existing session gets ERROR and is kept; rejected credentials get ERROR and no session; otherwise exactly one new session is appended with the next user id and OK is sent |
| Server.Registry.Login | server.py:34-65 | ensures `LoggedIn` |
| Server.Registry.Answered | server.py:67-78 | the effect of whoami: OK with the session's name, or ERROR without a session; nothing else changes |
| Server.Registry.Whoami | server.py:67-78 | ensures `Answered` |
| Server.Registry.LoggedOut | server.py:80-92 | the effect of logout_user: without a session, ERROR; with one, the first session with its name is removed and OK sent, or it raises when there is none |
| Server.Registry.Logout | server.py:80-92 | ensures `LoggedOut` |
| Server.Registry.RoomCreated | server.py:94-124 | the effect of create_room. A missing player count raises. No session, or an owner name that already owns a room, gets ERROR and adds no room. A refused game gets ERROR after using up an id. Success appends one fresh room owned by the user, with the drawn id, and replies OK with that id |
| Server.Registry.CreateRoom | server.py:94-124 | ensures `RoomCreated`; Valid() is kept and the existing rooms' members and owners do not change |
| Server.Registry.ValidAfterCreate | server.py:102-119 | appending a room with a newly drawn id and an owner name owning no room keeps Valid() |
| Server.Registry.RoomJoined | server.py:126-163 | the effect of join_room: no session, an unknown id, a full room, or a seated name gets ERROR and changes no membership; a missing room id raises; success appends the user to that room only and sends ROOM_JOIN_UPDATE to every member, the joiner included, with the joiner's name, the capacity and the new count |
| Server.Registry.JoinRoom | server.py:126-163 | ensures `RoomJoined`; Valid() is kept |
| Server.Registry.StillValid | server.py:149 | changing only members keeps Valid() |
| Server.Registry.Broadcast | server.py:156-162 | one ROOM_JOIN_UPDATE per member, in seating order, each carrying the joiner's name, the capacity and the member count |
| Server.Registry.LogOutByName | server.py:193-196 | the sessions become `SweepSessions` of the old ones; every other name's sessions stay; with at most one session under the name, none is left |
| Server.Registry.LeaveRooms | server.py:197-211 | the room loop on the active rooms: the list becomes `Keep` of the plan, members `Leave`, and the outbox and closed set grow by the closed rooms' notices and failures; the user owns no remaining room; every room of another owner stays; Valid() is kept |
| Server.Registry.EndSession | server.py:191-211 | the cleanup for a logged-in user: the sessions become `SweepSessions` of the old ones. The room list becomes `Keep` of the plan, each room's members `Leave` of its step, and owners do not change. The closed rooms' ROOM_CLOSE_UPDATE notices are appended, and their members' broken connections are closed. The user owns no remaining room, and other owners' rooms stay |
| Server.Registry.CleanedUp | server.py:188-212 | what the cleanup leaves, given what it started from. No room changes owner. Without a session, only the connection is closed. With one, the rooms become `Keep` of the plan and members `Leave` of each step; the closed rooms' notices are sent, and their members' broken connections are closed, as is the connection itself (`closed` is a set, so the order of the closings is not modelled) |
| Server.Registry.Disconnect | server.py:188-212 | ensures `CleanedUp` from the state it starts in; with a session, the sessions are swept and no remaining room is owned by the user; no room is added |
| Server.Dispatch | server.py:165-187 | one request's effect on the session side: a missing type raises; a routed type changes what its handler changes, and only LOGIN and LOGOUT change anything; every raise happens before a change |
| Server.Trace | server.py:165-187 | the session states the request loop passes through: the start, then one more per request handled, at most one per request |
| Server.TraceSteps | server.py:165-187 | each request is handled from the state the one before left, and the loop stops at the first request that raises or at the end of the input |
| Server.TraceFrom | server.py:168-187 | the trace from a position is the state there followed by the trace after that request, unless it raises |
| Server.Registry.HandleAccount | server.py:170-178 | the REGISTER, LOGIN, WHOAMI and LOGOUT branches: each reaches its own handler and has that handler's effect; no room changes; on the session side it is `Dispatch` |
| Server.Registry.HandleRoom | server.py:179-182 | the ROOM_CREATION and ROOM_CONNECTION branches: each reaches its own handler and has that handler's effect; the sessions do not change; on the session side it is `Dispatch`. No existing room changes owner; ROOM_CREATION keeps every existing room's members, and ROOM_CONNECTION draws no room id |
| Server.Registry.Handle | server.py:169-187 | a request without a type raises; an unrouted type gets ERROR and changes nothing else; each routed type has exactly its handler's effect (`Registered`, `LoggedIn`, `Answered`, `LoggedOut`, `RoomCreated`, `RoomJoined`); on the session side it is `Dispatch`, and a raise changes nothing there. No existing room changes owner, and only ROOM_CONNECTION changes an existing room's members; only ROOM_CREATION draws a room id. Valid() is kept, earlier messages are kept, and no connection is closed |
| Server.Registry.Step | server.py:169-187 | the session-side facts of `Handle`, which the request loop uses: `Dispatch`, no change on a raise, Valid() kept, earlier messages kept |
| Server.Registry.Converse | server.py:166-187 | the request loop walks `Trace`: it handles as many requests as the trace has steps and ends in its last state; Valid() is kept, earlier messages are kept, and no connection is closed |
| Server.Registry.Serve | server.py:165-212 | the request loop from no session, then the cleanup. The number of requests handled and the final session are those of `Trace`, and so is the user id counter. The sessions are the trace's last list, swept of the final session's name. Then `CleanedUp` holds of the rooms, owners, owner names, members and messages the cleanup started from, which the ghost results return: the cleanup's room changes, close notices and closed connections. Valid() holds, and the final session's name owns no room |

## Left out

- JSON encoding and decoding (`json.dumps`/`json.loads`): frame payloads are opaque bytes. A handler receives the decoded message as a `Request` whose fields are absent when the message lacks them.
- Socket semantics: a read returns the requested number of bytes whenever that many are unread. Short reads happen only at the end of the stream. `sendall` always delivers the whole buffer. `send_and_recv_message` (lib/proto.py:39-41) is only the composition of the two and has no member of its own.
- The message kinds' numeric `auto()` values: only their names travel on the wire.
- Threads and locks: the model is sequential, one request or one cleanup at a time. create_room checks for an existing room and appends the new one under two separate lock acquisitions, so two threads can race between the check and the append; the model cannot show this.
- The account database and models.py: the answer of the credential lookup or of the account creation is an input. A database exception inside login_user is answered like rejected credentials, which the code also does.
- The Uno engine: only the player count the game was built for is kept. Whether its constructor raises is an input.
- main.py, client.py, the accept loop with its port-bind retry, and all `print` logging have no modelled counterpart.
- The User, Room and Registry accessors (`name`, `id`, `connection`, `users`, `owner`, `max_player_count`, `game`) are the fields of the model's types.
- Rooms.Room.IsFull and Rooms.Room.PlayerCount: no contract of their own; `FullAtCapacity` and `AddUser` state their meaning.
- Sends inside the handlers are assumed to succeed. Only the cleanup's ROOM_CLOSE_UPDATE sends can fail, for the connections in `broken`. A send that fails inside a handler raises after the handler has changed state, and the model does not show these cases:
  - login_user appends the new session (server.py:53-54) before sending OK (server.py:55). If OK fails, the `except` sends ERROR and returns None (server.py:60-65), so the loop's `user` is None while the session stays in the list. If that ERROR send fails too, login raises with `user` still None. Either way the cleanup never sweeps that session.
  - join_room seats the joiner (server.py:149) before the broadcast loop (server.py:156-162). One failed send stops the loop: the members after it are not told, and the joiner's own connection goes into the cleanup although the join succeeded.
  - register_user has already created the account (server.py:23) when its OK send fails.
- A send to a connection that an earlier cleanup closed is modelled as succeeding unless that connection is in `broken`. Nothing ties `broken` to `closed`.
- Server.Registry.LeaveRooms: the room loop runs over a copy of the room list that is stored back at the end, and its notices are appended after the loop. Nothing else touches the list or the outbox in between, so the final state is the same.
- Server.Registry.Serve: the request loop's effect on rooms and messages is not stated. Its contract states the session side through `Trace`, and the cleanup through `CleanedUp`. It does not relate the rooms and messages the cleanup starts from to those before the loop.
- Server.Registry.Converse: states only the session side of the loop (`Trace`), Valid(), the closed set and the outbox prefix. It does not sum the per-request room and message effects that `Handle` states over the loop.
- Server.Registry.Step: passes on only the session-side facts of `Handle` and its frame. The per-kind effects and the room clauses of `Handle` stay with `Handle`, since the request loop's proof does not use them.
- Server.Registry.Disconnect: it states the sessions left through `SweepSessions`. The facts that need at most one session under the name are stated by `LogOutByName` and `EndSession`.
- A `room_id` that is not an integer in the JSON is not modelled; the model takes the id as an integer. The code compares it with each room's id by `==` (server.py:135). So a float equal to an integer (`3.0`) or a boolean (`true` is 1) matches that room and goes on to `add_user`. Any other value matches no room and gets ERROR.
