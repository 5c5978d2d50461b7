/**
 * server.py: the process-wide lists of active rooms and sessions, the request
 * handlers that change them, the per-connection dispatch loop and the cleanup
 * that runs when a connection ends. Every send_message becomes a record in
 * `outbox`; the database and the game engine are external collaborators whose
 * answers arrive as inputs.
 */
module Server {
  import opened Wrappers
  import opened Proto
  import opened Users
  import opened Rooms
  import opened Cleanup

  /** The fields a message carries besides its type. */
  datatype Fields =
    | NoFields
    | RoomIdField(roomId: nat)          // OK to ROOM_CREATION_REQUEST
    | UsernameField(username: string)   // OK to WHOAMI_REQUEST
    | JoinFields(username: string, maxPlayerCount: int, currentPlayerCount: nat)  // ROOM_JOIN_UPDATE

  /** One send_message call: the connection written to, the message type and its fields. */
  datatype Outgoing = Outgoing(to: Conn, kind: MessageType, fields: Fields)

  /**
   * A decoded request: its "type" field and the fields the handlers read,
   * each absent when the message lacks it (indexing it raises KeyError).
   */
  datatype Request = Request(
    kind: Option<string>,
    username: Option<string>,
    password: Option<string>,
    playerCount: Option<int>,
    roomId: Option<int>)

  /**
   * A request together with the answer of the external collaborator it
   * consults: for LOGIN_REQUEST whether the account store holds these
   * credentials, for REGISTER_REQUEST whether the account could be created,
   * for ROOM_CREATION_REQUEST whether the game engine accepts the player count.
   */
  datatype Incoming = Incoming(request: Request, accepted: bool)

  /** The request types serve_client dispatches to a handler; any other type gets ERROR. */
  predicate Dispatched(t: MessageType)
  {
    t in {RegisterRequest, LoginRequest, WhoamiRequest, LogoutRequest, RoomCreationRequest, RoomConnectionRequest}
  }

  /**
   * The handler serve_client picks for a "type" string: one of the dispatched
   * request types whose name it is, or none, when the request gets ERROR.
   */
  function Route(kind: string): (r: Option<MessageType>)
    ensures r.Some? ==> Dispatched(r.value) && r.value.Name() == kind
    ensures r.None? ==> forall t: MessageType :: Dispatched(t) ==> t.Name() != kind
  {
    var t := ParseType(kind);
    if t.Some? && Dispatched(t.value) then t else None
  }

  /** `incoming` carries a "type" that serve_client routes to handler `t`. */
  predicate Routed(incoming: Incoming, t: MessageType)
  {
    incoming.request.kind.Some? && Route(incoming.request.kind.value) == Some(t)
  }

  /** The first room with id `id`: `next(filter(lambda room: room.id == id, rooms), None)`. */
  function FindRoom(rs: seq<Room>, id: int): (r: Option<Room>)
    ensures r.None? <==> forall k :: 0 <= k < |rs| ==> rs[k].id != id
    ensures r.Some? ==> exists k :: 0 <= k < |rs| && rs[k] == r.value && r.value.id == id
                                    && forall j :: 0 <= j < k ==> rs[j].id != id
  {
    if rs == [] then None
    else if rs[0].id == id then Some(rs[0])
    else
      var r := FindRoom(rs[1..], id);
      if r.Some? then
        var k :| 0 <= k < |rs[1..]| && rs[1..][k] == r.value && r.value.id == id
                 && forall j :: 0 <= j < k ==> rs[1..][j].id != id;
        assert rs[k + 1] == r.value;
        r
      else r
  }

  /** Whether some room is owned by a user called `name`: create_room's duplicate check. */
  function OwnedBy(rs: seq<Room>, name: string): (b: bool)
    reads rs
    ensures b <==> exists k :: 0 <= k < |rs| && rs[k].owner.name == name
  {
    if rs == [] then false else rs[0].owner.name == name || OwnedBy(rs[1..], name)
  }

  /** The ids of the rooms, in order. */
  function Ids(rs: seq<Room>): seq<nat>
  {
    seq(|rs|, k requires 0 <= k < |rs| => rs[k].id)
  }

  /** The owner names of the rooms, in order. */
  ghost function Owners(rs: seq<Room>): seq<string>
    reads rs
  {
    seq(|rs|, k requires 0 <= k < |rs| reads rs => rs[k].owner.name)
  }

  /** The owners of the rooms, in order. */
  ghost function Holders(rs: seq<Room>): seq<User>
    reads rs
  {
    seq(|rs|, k requires 0 <= k < |rs| reads rs => rs[k].owner)
  }

  /** The member lists of the rooms, in order. */
  ghost function Members(rs: seq<Room>): seq<seq<User>>
    reads rs
  {
    seq(|rs|, k requires 0 <= k < |rs| reads rs => rs[k].users)
  }

  /** The ROOM_CLOSE_UPDATE messages that reach `members`, in order; sends to `broken` connections fail. */
  function CloseNotices(members: seq<User>, broken: set<Conn>): seq<Outgoing>
  {
    if members == [] then []
    else
      var last := members[|members| - 1];
      CloseNotices(members[..|members| - 1], broken)
        + (if last.connection in broken then [] else [Outgoing(last.connection, RoomCloseUpdate, NoFields)])
  }

  /** The members' connections whose send fails and which the server therefore closes. */
  function Unreachable(members: seq<User>, broken: set<Conn>): set<Conn>
  {
    if members == [] then {}
    else
      var last := members[|members| - 1];
      Unreachable(members[..|members| - 1], broken) + (if last.connection in broken then {last.connection} else {})
  }

  /**
   * Closing a room notifies exactly the members whose connection works, with a
   * bare ROOM_CLOSE_UPDATE, and closes exactly the members' broken connections.
   */
  lemma {:induction false} CloseReachesMembers(members: seq<User>, broken: set<Conn>)
    ensures forall o :: o in CloseNotices(members, broken) ==>
              o.kind == RoomCloseUpdate && o.fields == NoFields && o.to !in broken
              && exists k :: 0 <= k < |members| && o.to == members[k].connection
    ensures forall k :: 0 <= k < |members| && members[k].connection !in broken ==>
              Outgoing(members[k].connection, RoomCloseUpdate, NoFields) in CloseNotices(members, broken)
    ensures forall c :: c in Unreachable(members, broken) <==>
              c in broken && exists k :: 0 <= k < |members| && members[k].connection == c
  {
    if members != [] {
      var n := |members| - 1;
      CloseReachesMembers(members[..n], broken);
      assert forall k :: 0 <= k < n ==> members[..n][k] == members[k];
    }
  }

  /** One more member adds that member's notice or that member's closed connection. */
  lemma ClosePrefix(members: seq<User>, broken: set<Conn>, i: nat)
    requires i < |members|
    ensures CloseNotices(members[..i + 1], broken) == CloseNotices(members[..i], broken)
              + (if members[i].connection in broken then [] else [Outgoing(members[i].connection, RoomCloseUpdate, NoFields)])
    ensures Unreachable(members[..i + 1], broken) == Unreachable(members[..i], broken)
              + (if members[i].connection in broken then {members[i].connection} else {})
  {
    assert members[..i + 1][..i] == members[..i];
  }

  /** The close notices of one pass of the room loop over the first `n` rooms: those of every room the plan closes. */
  function SweepNotices(members: seq<seq<User>>, plan: seq<Step>, broken: set<Conn>, n: nat): seq<Outgoing>
    requires |members| == |plan| && n <= |members|
  {
    if n == 0 then []
    else SweepNotices(members, plan, broken, n - 1)
           + (if plan[n - 1] == Close then CloseNotices(members[n - 1], broken) else [])
  }

  /** The connections closed by one pass of the room loop over the first `n` rooms. */
  function SweepUnreachable(members: seq<seq<User>>, plan: seq<Step>, broken: set<Conn>, n: nat): set<Conn>
    requires |members| == |plan| && n <= |members|
  {
    if n == 0 then {}
    else SweepUnreachable(members, plan, broken, n - 1)
           + (if plan[n - 1] == Close then Unreachable(members[n - 1], broken) else {})
  }

  /**
   * What serve_client's loop threads from one request to the next on the
   * session side: the connection's `user` variable, active_sessions and the
   * user id counter.
   */
  datatype SessionState = SessionState(session: Option<User>, sessions: seq<User>, nextUserId: nat)

  /**
   * The session side of one pass of serve_client's loop: the state after the
   * request, or None when its handler raises. A handler that raises does so
   * before it changes anything: a missing field is read first, and logout's
   * `remove` fails before removing.
   */
  function Dispatch(conn: Conn, incoming: Incoming, s: SessionState): Option<SessionState>
  {
    var req := incoming.request;
    if req.kind.None? then None
    else
      var t := Route(req.kind.value);
      if t == Some(RegisterRequest) then
        if req.username.None? || req.password.None? then None else Some(s)
      else if t == Some(LoginRequest) then
        if req.username.None? || req.password.None? then None
        else if s.session.Some? || !incoming.accepted then Some(s)
        else
          var u := User(req.username.value, s.nextUserId, conn);
          Some(SessionState(Some(u), s.sessions + [u], s.nextUserId + 1))
      else if t == Some(LogoutRequest) then
        if s.session.None? then Some(s)
        else if !ContainsName(s.sessions, s.session.value.name) then None
        else Some(SessionState(None, RemoveFirstNamed(s.sessions, s.session.value.name), s.nextUserId))
      else if t == Some(RoomCreationRequest) then
        if req.playerCount.None? then None else Some(s)
      else if t == Some(RoomConnectionRequest) then
        if s.session.Some? && req.roomId.None? then None else Some(s)
      else Some(s)
  }

  /**
   * The session states serve_client's loop passes through on `script`,
   * starting from `s`: one more after each request handled, ending with the
   * state the cleanup starts from.
   */
  function Trace(conn: Conn, script: seq<Incoming>, s: SessionState): (t: seq<SessionState>)
    ensures 1 <= |t| <= |script| + 1 && t[0] == s
    decreases |script|
  {
    if script == [] then [s]
    else
      match Dispatch(conn, script[0], s)
      case None => [s]
      case Some(s') => [s] + Trace(conn, script[1..], s')
  }

  /**
   * The loop handles the requests in order, each from the state the one
   * before left, and stops at the first request that raises, or at the end of
   * the input.
   */
  lemma {:induction false} TraceSteps(conn: Conn, script: seq<Incoming>, s: SessionState)
    ensures var t := Trace(conn, script, s);
            && (forall k :: 0 <= k < |t| - 1 ==> Dispatch(conn, script[k], t[k]) == Some(t[k + 1]))
            && (|t| - 1 < |script| ==> Dispatch(conn, script[|t| - 1], t[|t| - 1]).None?)
    decreases |script|
  {
    if script != [] && Dispatch(conn, script[0], s).Some? {
      var s' := Dispatch(conn, script[0], s).value;
      TraceSteps(conn, script[1..], s');
      var t, t' := Trace(conn, script, s), Trace(conn, script[1..], s');
      assert t == [s] + t';
      forall k | 1 <= k < |t| - 1
        ensures Dispatch(conn, script[k], t[k]) == Some(t[k + 1])
      {
        assert script[k] == script[1..][k - 1] && t[k] == t'[k - 1] && t[k + 1] == t'[k];
      }
      if |t| - 1 < |script| {
        assert script[|t| - 1] == script[1..][|t'| - 1];
      }
    }
  }

  /** The trace from position `i` of the script: the state there, then the trace after its request. */
  lemma TraceFrom(conn: Conn, script: seq<Incoming>, i: nat, s: SessionState)
    requires i < |script|
    ensures Trace(conn, script[i..], s)
            == [s] + match Dispatch(conn, script[i], s)
                     case None => []
                     case Some(s') => Trace(conn, script[i + 1..], s')
  {
    assert script[i..][0] == script[i] && script[i..][1..] == script[i + 1..];
  }

  /** The module-level state of server.py, with the two id counters and the messages sent. */
  class Registry {
    var rooms: seq<Room>       // active_rooms
    var sessions: seq<User>    // active_sessions
    var outbox: seq<Outgoing>  // every message sent, in order
    var closed: set<Conn>      // connections the server has closed
    const userIds: UserIds
    const roomIds: RoomIds

    /**
     * Room ids are unique and were all drawn from the counter; no two rooms
     * have owners of the same name (create_room refuses a second room).
     */
    ghost predicate Valid()
      reads this, rooms, roomIds
    {
      && Distinct(Ids(rooms))
      && Distinct(Owners(rooms))
      && (forall r :: r in rooms ==> r.id < roomIds.next)
    }

    constructor ()
      ensures Valid()
      ensures rooms == [] && sessions == [] && outbox == [] && closed == {}
      ensures fresh(userIds) && fresh(roomIds) && userIds.next == 0 && roomIds.next == 0
    {
      rooms, sessions, outbox, closed := [], [], [], {};
      userIds := new UserIds();
      roomIds := new RoomIds();
    }

    /** register_user's effect: the account store decides; the reply says how it went. */
    twostate predicate Registered(conn: Conn, username: Option<string>, password: Option<string>, created: bool,
                                  raised: bool)
      reads this
    {
      && (raised <==> username.None? || password.None?)
      && outbox == (if raised then old(outbox)
                    else old(outbox) + [Outgoing(conn, if created then Ok else Error, NoFields)])
      && rooms == old(rooms) && sessions == old(sessions) && closed == old(closed)
    }

    /** register_user. */
    method Register(conn: Conn, username: Option<string>, password: Option<string>, created: bool)
      returns (raised: bool)
      modifies this
      ensures Registered(conn, username, password, created, raised)
    {
      if username.None? || password.None? {
        return true;
      }
      outbox := outbox + [Outgoing(conn, if created then Ok else Error, NoFields)];
      raised := false;
    }

    /**
     * login_user's effect: a connection that already has a session is refused
     * and keeps it; credentials the account store rejects give no session;
     * otherwise a new session is created and appended. Nothing checks whether
     * another connection is logged in under the same name.
     */
    twostate predicate LoggedIn(conn: Conn, username: Option<string>, password: Option<string>, session: Option<User>,
                                credentialsMatch: bool, new next: Option<User>, raised: bool)
      reads this, userIds
    {
      && (raised <==> username.None? || password.None?)
      && (raised ==> next == session && sessions == old(sessions) && outbox == old(outbox)
                     && userIds.next == old(userIds.next))
      && (!raised && session.Some? ==>
            next == session && sessions == old(sessions) && userIds.next == old(userIds.next)
            && outbox == old(outbox) + [Outgoing(conn, Error, NoFields)])
      && (!raised && session.None? && !credentialsMatch ==>
            next == None && sessions == old(sessions) && userIds.next == old(userIds.next)
            && outbox == old(outbox) + [Outgoing(conn, Error, NoFields)])
      && (!raised && session.None? && credentialsMatch ==>
            next == Some(User(username.value, old(userIds.next), conn))
            && sessions == old(sessions) + [next.value] && userIds.next == old(userIds.next) + 1
            && outbox == old(outbox) + [Outgoing(conn, Ok, NoFields)])
      && rooms == old(rooms) && closed == old(closed)
    }

    /** login_user. */
    method Login(conn: Conn, username: Option<string>, password: Option<string>, session: Option<User>,
                 credentialsMatch: bool)
      returns (next: Option<User>, raised: bool)
      modifies this, userIds
      ensures LoggedIn(conn, username, password, session, credentialsMatch, next, raised)
    {
      if username.None? || password.None? {
        return session, true;
      }
      raised := false;
      if session.Some? {
        outbox := outbox + [Outgoing(conn, Error, NoFields)];
        return session, false;
      }
      if !credentialsMatch {
        outbox := outbox + [Outgoing(conn, Error, NoFields)];
        return None, false;
      }
      var u := userIds.NewUser(username.value, conn);
      sessions := sessions + [u];
      outbox := outbox + [Outgoing(conn, Ok, NoFields)];
      next := Some(u);
    }

    /** whoami's effect: the session's name, or ERROR without a session. */
    twostate predicate Answered(conn: Conn, session: Option<User>)
      reads this
    {
      && outbox == old(outbox) + [if session.Some? then Outgoing(conn, Ok, UsernameField(session.value.name))
                                  else Outgoing(conn, Error, NoFields)]
      && rooms == old(rooms) && sessions == old(sessions) && closed == old(closed)
    }

    /** whoami. */
    method Whoami(conn: Conn, session: Option<User>)
      modifies this
      ensures Answered(conn, session)
    {
      if session.None? {
        outbox := outbox + [Outgoing(conn, Error, NoFields)];
      } else {
        outbox := outbox + [Outgoing(conn, Ok, UsernameField(session.value.name))];
      }
    }

    /**
     * logout_user's effect: removes the first session with the session's name,
     * which need not be this connection's own; when there is none, `remove`
     * raises.
     */
    twostate predicate LoggedOut(conn: Conn, session: Option<User>, raised: bool)
      reads this
    {
      && (session.None? ==>
            !raised && sessions == old(sessions) && outbox == old(outbox) + [Outgoing(conn, Error, NoFields)])
      && (session.Some? && !ContainsName(old(sessions), session.value.name) ==>
            raised && sessions == old(sessions) && outbox == old(outbox))
      && (session.Some? && ContainsName(old(sessions), session.value.name) ==>
            !raised && sessions == RemoveFirstNamed(old(sessions), session.value.name)
            && outbox == old(outbox) + [Outgoing(conn, Ok, NoFields)])
      && rooms == old(rooms) && closed == old(closed)
    }

    /** logout_user. */
    method Logout(conn: Conn, session: Option<User>) returns (raised: bool)
      modifies this
      ensures LoggedOut(conn, session, raised)
    {
      if session.None? {
        outbox := outbox + [Outgoing(conn, Error, NoFields)];
        return false;
      }
      if !ContainsName(sessions, session.value.name) {
        return true;
      }
      sessions := RemoveFirstNamed(sessions, session.value.name);
      outbox := outbox + [Outgoing(conn, Ok, NoFields)];
      raised := false;
    }

    /**
     * create_room's effect: player_count is read first; a connection without
     * a session and a user who already owns a room are refused; a game that
     * refuses the player count is an error too (after the room id was drawn).
     * On success the room is appended and its id sent back.
     */
    twostate predicate RoomCreated(conn: Conn, playerCount: Option<int>, session: Option<User>, gameBuilds: bool,
                                   raised: bool)
      reads this, rooms, roomIds
    {
      && (raised <==> playerCount.None?)
      && (raised ==> rooms == old(rooms) && outbox == old(outbox) && roomIds.next == old(roomIds.next))
      && (!raised && (session.None? || old(OwnedBy(rooms, session.value.name))) ==>
            rooms == old(rooms) && roomIds.next == old(roomIds.next)
            && outbox == old(outbox) + [Outgoing(conn, Error, NoFields)])
      && (!raised && session.Some? && !old(OwnedBy(rooms, session.value.name)) && !gameBuilds ==>
            rooms == old(rooms) && roomIds.next == old(roomIds.next) + 1
            && outbox == old(outbox) + [Outgoing(conn, Error, NoFields)])
      && (!raised && session.Some? && !old(OwnedBy(rooms, session.value.name)) && gameBuilds ==>
            |rooms| == |old(rooms)| + 1 && rooms[..|old(rooms)|] == old(rooms)
            && fresh(rooms[|old(rooms)|])
            && rooms[|old(rooms)|].owner == session.value && rooms[|old(rooms)|].users == [session.value]
            && rooms[|old(rooms)|].id == old(roomIds.next)
            && rooms[|old(rooms)|].maxPlayerCount == playerCount.value
            && roomIds.next == old(roomIds.next) + 1
            && outbox == old(outbox) + [Outgoing(conn, Ok, RoomIdField(old(roomIds.next)))])
      && sessions == old(sessions) && closed == old(closed)
    }

    /** create_room. */
    method CreateRoom(conn: Conn, playerCount: Option<int>, session: Option<User>, gameBuilds: bool)
      returns (raised: bool)
      requires Valid()
      modifies this, roomIds
      ensures Valid()
      ensures RoomCreated(conn, playerCount, session, gameBuilds, raised)
      ensures forall r :: r in old(rooms) ==> r.users == old(r.users) && r.owner == old(r.owner)
    {
      var added: Option<Room> := None;
      if playerCount.None? {
        raised := true;
      } else {
        raised := false;
        if session.None? || OwnedBy(rooms, session.value.name) {
          outbox := outbox + [Outgoing(conn, Error, NoFields)];
        } else {
          var room := NewRoom(session.value, playerCount.value, roomIds, gameBuilds);
          if room.None? {
            outbox := outbox + [Outgoing(conn, Error, NoFields)];
          } else {
            rooms := rooms + [room.value];
            outbox := outbox + [Outgoing(conn, Ok, RoomIdField(room.value.id))];
            added := room;
          }
        }
      }
      ValidAfterCreate(added);
    }

    /**
     * Appending a room whose id was drawn after every existing one and whose
     * owner's name owns no room keeps Valid(); so does drawing an id alone.
     */
    twostate lemma ValidAfterCreate(new added: Option<Room>)
      requires old(Valid()) && roomIds.next >= old(roomIds.next)
      requires forall r :: r in old(rooms) ==> r.owner == old(r.owner)
      requires added.None? ==> rooms == old(rooms)
      requires added.Some? ==>
                 && rooms == old(rooms) + [added.value]
                 && old(roomIds.next) <= added.value.id < roomIds.next
                 && forall r :: r in old(rooms) ==> old(r.owner.name) != added.value.owner.name
      ensures Valid()
    {
      var before := old(rooms);
      if added.Some? {
        assert Ids(rooms) == Ids(before) + [added.value.id];
        assert Owners(rooms) == old(Owners(rooms)) + [added.value.owner.name];
      } else {
        assert Owners(rooms) == old(Owners(rooms));
      }
    }

    /**
     * join_room's effect: a connection without a session is refused (before
     * room_id is read), and so are an unknown id, a full room and a name
     * already seated; otherwise the user is seated and every member, the
     * newcomer included, is sent ROOM_JOIN_UPDATE with the new member count.
     */
    twostate predicate RoomJoined(conn: Conn, roomId: Option<int>, session: Option<User>, raised: bool)
      reads this, rooms
    {
      && (raised <==> session.Some? && roomId.None?)
      && rooms == old(rooms) && sessions == old(sessions) && closed == old(closed)
      && (forall r :: r in rooms ==> r.owner == old(r.owner))
      && (session.None? ==>
            outbox == old(outbox) + [Outgoing(conn, Error, NoFields)]
            && forall r :: r in rooms ==> r.users == old(r.users))
      && (raised ==> outbox == old(outbox) && forall r :: r in rooms ==> r.users == old(r.users))
      && (session.Some? && roomId.Some? &&
          (FindRoom(rooms, roomId.value).None?
           || old(FindRoom(rooms, roomId.value).value.IsFull())
           || old(FindRoom(rooms, roomId.value).value.HasUser(session.value))) ==>
            outbox == old(outbox) + [Outgoing(conn, Error, NoFields)]
            && forall r :: r in rooms ==> r.users == old(r.users))
      && (session.Some? && roomId.Some? && FindRoom(rooms, roomId.value).Some?
          && !old(FindRoom(rooms, roomId.value).value.IsFull())
          && !old(FindRoom(rooms, roomId.value).value.HasUser(session.value)) ==>
            var room := FindRoom(rooms, roomId.value).value;
            && room.users == old(room.users) + [session.value]
            && (forall r :: r in rooms && r != room ==> r.users == old(r.users))
            && |outbox| == |old(outbox)| + |room.users|
            && outbox[..|old(outbox)|] == old(outbox)
            && forall k :: 0 <= k < |room.users| ==>
                 outbox[|old(outbox)| + k]
                 == Outgoing(room.users[k].connection, RoomJoinUpdate,
                             JoinFields(session.value.name, room.maxPlayerCount, |room.users|)))
    }

    /** join_room. */
    method JoinRoom(conn: Conn, roomId: Option<int>, session: Option<User>) returns (raised: bool)
      requires Valid()
      modifies this, rooms
      ensures Valid()
      ensures RoomJoined(conn, roomId, session, raised)
    {
      if session.None? {
        outbox := outbox + [Outgoing(conn, Error, NoFields)];
        raised := false;
      } else if roomId.None? {
        raised := true;
      } else {
        raised := false;
        var user := session.value;
        var found := FindRoom(rooms, roomId.value);
        if found.None? || found.value.IsFull() {
          outbox := outbox + [Outgoing(conn, Error, NoFields)];
        } else {
          var room := found.value;
          var added := room.AddUser(user);
          if added.Fail? {
            outbox := outbox + [Outgoing(conn, Error, NoFields)];
          } else {
            Broadcast(room.users, user.name, room.maxPlayerCount);
          }
        }
      }
      StillValid();
    }

    /** Changing only the members of rooms keeps Valid(): it speaks of ids and owners alone. */
    twostate lemma StillValid()
      requires old(Valid()) && rooms == old(rooms) && roomIds.next == old(roomIds.next)
      requires forall r :: r in rooms ==> r.owner == old(r.owner)
      ensures Valid()
    {
      assert Owners(rooms) == old(Owners(rooms));
    }

    /** The loop of join_room that sends ROOM_JOIN_UPDATE to each member in seating order. */
    method Broadcast(members: seq<User>, joiner: string, maxPlayerCount: int)
      modifies this
      ensures |outbox| == |old(outbox)| + |members| && outbox[..|old(outbox)|] == old(outbox)
      ensures forall k :: 0 <= k < |members| ==>
                outbox[|old(outbox)| + k]
                == Outgoing(members[k].connection, RoomJoinUpdate, JoinFields(joiner, maxPlayerCount, |members|))
      ensures rooms == old(rooms) && sessions == old(sessions) && closed == old(closed)
    {
      var i := 0;
      while i < |members|
        invariant 0 <= i <= |members|
        invariant |outbox| == |old(outbox)| + i && outbox[..|old(outbox)|] == old(outbox)
        invariant forall k :: 0 <= k < i ==>
                    outbox[|old(outbox)| + k]
                    == Outgoing(members[k].connection, RoomJoinUpdate, JoinFields(joiner, maxPlayerCount, |members|))
        invariant rooms == old(rooms) && sessions == old(sessions) && closed == old(closed)
      {
        outbox := outbox + [Outgoing(members[i].connection, RoomJoinUpdate,
                                     JoinFields(joiner, maxPlayerCount, |members|))];
        i := i + 1;
      }
    }
  
    /**
     * The session loop of the disconnect cleanup: walks active_sessions by
     * position and, at each session bearing `name`, removes the first session
     * bearing it.
     */
    method LogOutByName(name: string)
      modifies this
      ensures sessions == SweepSessions(old(sessions), name, 0)
      ensures Others(sessions, name) == Others(old(sessions), name)
      ensures CountNamed(old(sessions), name) <= 1 ==> !ContainsName(sessions, name)
      ensures rooms == old(rooms) && outbox == old(outbox) && closed == old(closed)
    {
      SweepSessionsKeepsOthers(sessions, name, 0);
      if CountNamed(sessions, name) <= 1 {
        SweepSessionsSingle(sessions, name);
      }
      var i := 0;
      while i < |sessions|
        invariant SweepSessions(sessions, name, i) == SweepSessions(old(sessions), name, 0)
        invariant rooms == old(rooms) && outbox == old(outbox) && closed == old(closed)
        decreases |sessions| - i
      {
        if sessions[i].name == name {
          sessions := RemoveFirstNamed(sessions, name);
        }
        i := i + 1;
      }
    }

    /**
     * The room loop of the disconnect cleanup, run by a connection whose
     * session is `user`: rooms it owns are closed and removed, the others
     * lose it as a member. Sends that fail close the member's connection.
     */
    method LeaveRooms(user: User, broken: set<Conn>)
      requires Valid()
      modifies this, rooms
      ensures Valid()
      ensures rooms == Keep(old(rooms), SweepPlan(old(Owners(rooms)), user.name), |old(rooms)|)
      ensures forall k :: 0 <= k < |old(rooms)| ==> old(rooms)[k].owner == old(rooms[k].owner)
      ensures forall k :: 0 <= k < |old(rooms)| ==>
                old(rooms)[k].users
                == Leave(old(rooms[k].users), SweepPlan(old(Owners(rooms)), user.name)[k], user.name)
      ensures outbox == old(outbox)
                + SweepNotices(old(Members(rooms)), SweepPlan(old(Owners(rooms)), user.name), broken, |old(rooms)|)
      ensures closed == old(closed)
                + SweepUnreachable(old(Members(rooms)), SweepPlan(old(Owners(rooms)), user.name), broken, |old(rooms)|)
      ensures sessions == old(sessions)
      ensures forall r :: r in rooms ==> r in old(rooms) && r.owner.name != user.name
      ensures forall r :: r in old(rooms) && old(r.owner.name) != user.name ==> r in rooms
    {
      var kept, sent, shut := SweepRooms(rooms, user, broken);
      rooms, outbox, closed := kept, outbox + sent, closed + shut;
      ValidAfterSweep();
    }

    /** A list of rooms drawn from the old one, with distinct ids and owner names, keeps Valid(). */
    twostate lemma ValidAfterSweep()
      requires old(Valid()) && roomIds.next == old(roomIds.next)
      requires Distinct(Ids(rooms)) && Distinct(Owners(rooms))
      requires forall r :: r in rooms ==> r in old(rooms)
      ensures Valid()
    {
    }

    /**
     * What the disconnect cleanup of `conn` leaves, given what it started
     * from: the rooms `rooms0` with owners `holders`, owner names `owners`
     * and member lists `members`, the messages `outbox0` and the closed
     * connections `closed0`. No room changes owner. Without a session only
     * the connection is closed. With one, the room loop keeps the rooms its
     * plan does not close, each room's members become `Leave` of its step,
     * the closed rooms' members are notified, and the members' broken
     * connections are closed, as is `conn`.
     */
    ghost predicate CleanedUp(conn: Conn, session: Option<User>, broken: set<Conn>, rooms0: seq<Room>,
                              holders: seq<User>, owners: seq<string>, members: seq<seq<User>>,
                              outbox0: seq<Outgoing>, closed0: set<Conn>)
      reads this, rooms0
    {
      && |holders| == |rooms0| && |owners| == |rooms0| && |members| == |rooms0|
      && (forall k :: 0 <= k < |rooms0| ==> rooms0[k].owner == holders[k])
      && (session.None? ==>
            && rooms == rooms0 && outbox == outbox0 && closed == closed0 + {conn}
            && forall k :: 0 <= k < |rooms0| ==> rooms0[k].users == members[k])
      && (session.Some? ==>
            var plan := SweepPlan(owners, session.value.name);
            && rooms == Keep(rooms0, plan, |rooms0|)
            && (forall k :: 0 <= k < |rooms0| ==> rooms0[k].owner.name == owners[k])
            && (forall k :: 0 <= k < |rooms0| ==> rooms0[k].users == Leave(members[k], plan[k], session.value.name))
            && outbox == outbox0 + SweepNotices(members, plan, broken, |rooms0|)
            && closed == closed0 + SweepUnreachable(members, plan, broken, |rooms0|) + {conn})
    }

    /**
     * The cleanup of serve_client once the loop has raised: a connection with
     * a session logs out every session bearing its name that the iterator
     * reaches and leaves the rooms as LeaveRooms says; the connection is
     * closed in every case.
     */
    method Disconnect(conn: Conn, session: Option<User>, broken: set<Conn>)
      requires Valid()
      modifies this, rooms
      ensures Valid()
      ensures conn in closed && old(closed) <= closed
      ensures |outbox| >= |old(outbox)| && outbox[..|old(outbox)|] == old(outbox)
      ensures forall r :: r in rooms ==> r in old(rooms)
      ensures session.None? ==>
                rooms == old(rooms) && sessions == old(sessions) && outbox == old(outbox) && closed == old(closed) + {conn}
      ensures CleanedUp(conn, session, broken, old(rooms), old(Holders(rooms)), old(Owners(rooms)),
                        old(Members(rooms)), old(outbox), old(closed))
      ensures session.Some? ==> sessions == SweepSessions(old(sessions), session.value.name, 0)
      ensures session.Some? && old(CountNamed(sessions, session.value.name)) <= 1 ==>
                !ContainsName(sessions, session.value.name)
      ensures session.Some? ==> forall r :: r in rooms ==> r.owner.name != session.value.name
      ensures session.Some? ==> forall r :: r in old(rooms) && old(r.owner.name) != session.value.name ==> r in rooms
    {
      if session.Some? {
        EndSession(session.value, broken);
      }
      closed := closed + {conn};
    }

    /** The cleanup of serve_client for a logged-in user: the session loop, then the room loop. */
    method EndSession(user: User, broken: set<Conn>)
      requires Valid()
      modifies this, rooms
      ensures Valid()
      ensures old(closed) <= closed
      ensures |outbox| >= |old(outbox)| && outbox[..|old(outbox)|] == old(outbox)
      ensures sessions == SweepSessions(old(sessions), user.name, 0)
      ensures old(CountNamed(sessions, user.name)) <= 1 ==> !ContainsName(sessions, user.name)
      ensures rooms == Keep(old(rooms), SweepPlan(old(Owners(rooms)), user.name), |old(rooms)|)
      ensures forall k :: 0 <= k < |old(rooms)| ==> old(rooms)[k].owner == old(rooms[k].owner)
      ensures forall k :: 0 <= k < |old(rooms)| ==>
                old(rooms)[k].users
                == Leave(old(rooms[k].users), SweepPlan(old(Owners(rooms)), user.name)[k], user.name)
      ensures outbox == old(outbox)
                + SweepNotices(old(Members(rooms)), SweepPlan(old(Owners(rooms)), user.name), broken, |old(rooms)|)
      ensures closed == old(closed)
                + SweepUnreachable(old(Members(rooms)), SweepPlan(old(Owners(rooms)), user.name), broken, |old(rooms)|)
      ensures forall r :: r in rooms ==> r in old(rooms) && r.owner.name != user.name
      ensures forall r :: r in old(rooms) && old(r.owner.name) != user.name ==> r in rooms
    {
      LogOutByName(user.name);
      StillValid();
      LeaveRooms(user, broken);
    }

    /** The session side of the registry, with `session` as the connection's session. */
    function SessionOf(session: Option<User>): SessionState
      reads this, userIds
    {
      SessionState(session, sessions, userIds.next)
    }

    /**
     * The branches of serve_client's dispatch that reach register_user,
     * login_user, whoami or logout_user. None of them touches a room.
     */
    method HandleAccount(conn: Conn, incoming: Incoming, session: Option<User>) returns (next: Option<User>, raised: bool)
      requires Routed(incoming, RegisterRequest) || Routed(incoming, LoginRequest)
               || Routed(incoming, WhoamiRequest) || Routed(incoming, LogoutRequest)
      modifies this, userIds
      ensures rooms == old(rooms) && closed == old(closed) && roomIds.next == old(roomIds.next)
      ensures |outbox| >= |old(outbox)| && outbox[..|old(outbox)|] == old(outbox)
      ensures Dispatch(conn, incoming, old(SessionOf(session))) == if raised then None else Some(SessionOf(next))
      ensures raised ==> next == session && SessionOf(next) == old(SessionOf(session))
      ensures Routed(incoming, RegisterRequest) ==>
                Registered(conn, incoming.request.username, incoming.request.password, incoming.accepted, raised)
      ensures Routed(incoming, LoginRequest) ==>
                LoggedIn(conn, incoming.request.username, incoming.request.password, session, incoming.accepted,
                         next, raised)
      ensures Routed(incoming, WhoamiRequest) ==> !raised && Answered(conn, session)
      ensures Routed(incoming, LogoutRequest) ==> LoggedOut(conn, session, raised)
    {
      var req := incoming.request;
      next := session;
      var t := Route(req.kind.value);
      if t == Some(RegisterRequest) {
        raised := Register(conn, req.username, req.password, incoming.accepted);
      } else if t == Some(LoginRequest) {
        next, raised := Login(conn, req.username, req.password, session, incoming.accepted);
      } else if t == Some(WhoamiRequest) {
        Whoami(conn, session);
        raised := false;
      } else {
        raised := Logout(conn, session);
        if !raised {
          next := None;
        }
      }
    }

    /**
     * The branches of serve_client's dispatch that reach create_room or
     * join_room. Neither touches the sessions.
     */
    method HandleRoom(conn: Conn, incoming: Incoming, session: Option<User>) returns (raised: bool)
      requires Valid()
      requires Routed(incoming, RoomCreationRequest) || Routed(incoming, RoomConnectionRequest)
      modifies this, rooms, roomIds
      ensures Valid()
      ensures closed == old(closed)
      ensures |outbox| >= |old(outbox)| && outbox[..|old(outbox)|] == old(outbox)
      ensures forall k :: 0 <= k < |rooms| ==> rooms[k] in old(rooms) || fresh(rooms[k])
      ensures Dispatch(conn, incoming, old(SessionOf(session))) == if raised then None else Some(SessionOf(session))
      ensures SessionOf(session) == old(SessionOf(session))
      ensures forall r :: r in old(rooms) ==> r.owner == old(r.owner)
      ensures !Routed(incoming, RoomConnectionRequest) ==> forall r :: r in old(rooms) ==> r.users == old(r.users)
      ensures !Routed(incoming, RoomCreationRequest) ==> roomIds.next == old(roomIds.next)
      ensures Routed(incoming, RoomCreationRequest) ==>
                RoomCreated(conn, incoming.request.playerCount, session, incoming.accepted, raised)
      ensures Routed(incoming, RoomConnectionRequest) ==> RoomJoined(conn, incoming.request.roomId, session, raised)
    {
      var req := incoming.request;
      if Route(req.kind.value) == Some(RoomCreationRequest) {
        raised := CreateRoom(conn, req.playerCount, session, incoming.accepted);
        assert rooms == old(rooms) || rooms == old(rooms) + [rooms[|old(rooms)|]];
      } else {
        raised := JoinRoom(conn, req.roomId, session);
      }
    }

    /**
     * One pass of serve_client's loop: dispatches the request on its "type"
     * and returns the connection's session afterwards and whether the
     * handler raised. A request without a type raises; a type that names no
     * handled request is answered with ERROR; every other type reaches its
     * handler, whose effect the matching clause below states. On the session
     * side the pass is `Dispatch`.
     */
    method Handle(conn: Conn, incoming: Incoming, session: Option<User>) returns (next: Option<User>, raised: bool)
      requires Valid()
      modifies this, rooms, userIds, roomIds
      ensures Valid()
      ensures closed == old(closed)
      ensures |outbox| >= |old(outbox)| && outbox[..|old(outbox)|] == old(outbox)
      ensures forall k :: 0 <= k < |rooms| ==> rooms[k] in old(rooms) || fresh(rooms[k])
      ensures Dispatch(conn, incoming, old(SessionOf(session))) == if raised then None else Some(SessionOf(next))
      ensures raised ==> next == session && SessionOf(next) == old(SessionOf(session))
      ensures forall r :: r in old(rooms) ==> r.owner == old(r.owner)
      ensures !Routed(incoming, RoomConnectionRequest) ==> forall r :: r in old(rooms) ==> r.users == old(r.users)
      ensures !Routed(incoming, RoomCreationRequest) ==> roomIds.next == old(roomIds.next)
      ensures incoming.request.kind.None? ==> raised && outbox == old(outbox) && rooms == old(rooms)
      ensures incoming.request.kind.Some? && Route(incoming.request.kind.value).None? ==>
                !raised && next == session && outbox == old(outbox) + [Outgoing(conn, Error, NoFields)]
                && rooms == old(rooms) && sessions == old(sessions)
      ensures Routed(incoming, RegisterRequest) ==>
                Registered(conn, incoming.request.username, incoming.request.password, incoming.accepted, raised)
      ensures Routed(incoming, LoginRequest) ==>
                LoggedIn(conn, incoming.request.username, incoming.request.password, session, incoming.accepted,
                         next, raised)
      ensures Routed(incoming, WhoamiRequest) ==> !raised && Answered(conn, session)
      ensures Routed(incoming, LogoutRequest) ==> LoggedOut(conn, session, raised)
      ensures Routed(incoming, RoomCreationRequest) ==>
                RoomCreated(conn, incoming.request.playerCount, session, incoming.accepted, raised)
      ensures Routed(incoming, RoomConnectionRequest) ==> RoomJoined(conn, incoming.request.roomId, session, raised)
    {
      var req := incoming.request;
      next := session;
      if req.kind.None? {
        raised := true;
      } else {
        var t := Route(req.kind.value);
        if t.None? {
          outbox := outbox + [Outgoing(conn, Error, NoFields)];
          raised := false;
        } else if t == Some(RoomCreationRequest) || t == Some(RoomConnectionRequest) {
          raised := HandleRoom(conn, incoming, session);
        } else {
          next, raised := HandleAccount(conn, incoming, session);
          StillValid();
        }
      }
    }

    /** Handle, with only the facts the request loop relies on. */
    method Step(conn: Conn, incoming: Incoming, session: Option<User>) returns (next: Option<User>, raised: bool)
      requires Valid()
      modifies this, rooms, userIds, roomIds
      ensures Valid()
      ensures closed == old(closed)
      ensures |outbox| >= |old(outbox)| && outbox[..|old(outbox)|] == old(outbox)
      ensures forall k :: 0 <= k < |rooms| ==> rooms[k] in old(rooms) || fresh(rooms[k])
      ensures Dispatch(conn, incoming, old(SessionOf(session))) == if raised then None else Some(SessionOf(next))
      ensures raised ==> SessionOf(next) == old(SessionOf(session))
    {
      next, raised := Handle(conn, incoming, session);
    }

    /**
     * The request loop of serve_client: handles requests in order until one
     * raises or the input ends (recv_message raises once the peer is gone).
     * Returns how many requests were handled without raising and the
     * session the connection holds at the end; on the session side the loop
     * walks `Trace` from `session`.
     */
    method Converse(conn: Conn, script: seq<Incoming>, session: Option<User>) returns (handled: nat, last: Option<User>)
      requires Valid()
      modifies this, rooms, userIds, roomIds
      ensures Valid()
      ensures closed == old(closed)
      ensures |outbox| >= |old(outbox)| && outbox[..|old(outbox)|] == old(outbox)
      ensures forall k :: 0 <= k < |rooms| ==> rooms[k] in old(rooms) || fresh(rooms[k])
      ensures var t := Trace(conn, script, old(SessionOf(session)));
              handled == |t| - 1 && t[handled] == SessionOf(last)
    {
      ghost var goal := Trace(conn, script, SessionOf(session));
      last := session;
      var i := 0;
      var stop := false;
      assert script[0..] == script;
      while i < |script| && !stop
        invariant i <= |script| && i < |goal|
        invariant !stop ==> Trace(conn, script[i..], SessionOf(last)) == goal[i..]
        invariant stop ==> |goal| == i + 1 && goal[i] == SessionOf(last)
        invariant Valid()
        invariant closed == old(closed)
        invariant |outbox| >= |old(outbox)| && outbox[..|old(outbox)|] == old(outbox)
        invariant forall k :: 0 <= k < |rooms| ==> rooms[k] in old(rooms) || fresh(rooms[k])
        decreases |script| - i, !stop
      {
        var raised;
        ghost var before := rooms;
        TraceFrom(conn, script, i, SessionOf(last));
        last, raised := Step(conn, script[i], last);
        forall k | 0 <= k < |rooms|
          ensures rooms[k] in old(rooms) || fresh(rooms[k])
        {
          if rooms[k] in before {
            var j :| 0 <= j < |before| && before[j] == rooms[k];
          }
        }
        if raised {
          stop := true;
        } else {
          i := i + 1;
        }
      }
      if !stop {
        assert script[i..] == [];
      }
      handled := i;
    }

    /**
     * serve_client: the request loop from a connection without a session,
     * then the cleanup, which sweeps the final session's name from the list
     * and leaves or closes that user's rooms. The ghost results record what
     * the cleanup started from: the rooms with their owners, owner names and
     * members, and the messages the request loop sent.
     */
    method Serve(conn: Conn, script: seq<Incoming>, broken: set<Conn>)
      returns (handled: nat, last: Option<User>, ghost before: seq<Room>, ghost holders: seq<User>,
               ghost owners: seq<string>, ghost members: seq<seq<User>>, ghost replies: seq<Outgoing>)
      requires Valid()
      modifies this, rooms, userIds, roomIds
      ensures Valid()
      ensures var t := Trace(conn, script, old(SessionOf(None)));
              && handled == |t| - 1 && last == t[handled].session && userIds.next == t[handled].nextUserId
              && sessions == if last.Some? then SweepSessions(t[handled].sessions, last.value.name, 0)
                             else t[handled].sessions
      ensures CleanedUp(conn, last, broken, before, holders, owners, members, old(outbox) + replies, old(closed))
      ensures last.Some? ==> forall r :: r in rooms ==> r.owner.name != last.value.name
    {
      handled, last := Converse(conn, script, None);
      before, holders, owners, members := rooms, Holders(rooms), Owners(rooms), Members(rooms);
      replies := outbox[|old(outbox)|..];
      assert outbox == old(outbox) + replies;
      Disconnect(conn, last, broken);
    }
  }

  /**
   * The notification loop for a closing room: every member is sent
   * ROOM_CLOSE_UPDATE; a failed send closes that member's connection and the
   * loop goes on with the next member. Returns the messages sent and the
   * connections closed.
   */
  method NotifyClose(members: seq<User>, broken: set<Conn>) returns (sent: seq<Outgoing>, shut: set<Conn>)
    ensures sent == CloseNotices(members, broken)
    ensures shut == Unreachable(members, broken)
  {
    sent, shut := [], {};
    var i := 0;
    while i < |members|
      invariant 0 <= i <= |members|
      invariant sent == CloseNotices(members[..i], broken)
      invariant shut == Unreachable(members[..i], broken)
    {
      ClosePrefix(members, broken, i);
      if members[i].connection in broken {
        shut := shut + {members[i].connection};
      } else {
        sent := sent + [Outgoing(members[i].connection, RoomCloseUpdate, NoFields)];
      }
      i := i + 1;
    }
    assert members[..i] == members;
  }

  /** A room the room loop visits loses the leaving user, if seated; its owner is someone else and stays. */
  method VisitRoom(room: Room, user: User)
    requires room.owner.name != user.name
    modifies room
    ensures room.users == Leave(old(room.users), Visit, user.name)
    ensures room.owner == old(room.owner)
  {
    if room.HasUser(user) {
      var _ := room.RemoveUser(user);
    }
  }

  /**
   * Where the room loop stands once it has dealt with the first `j` rooms of
   * `rs`: the list holds the rooms kept so far followed by the untouched rest,
   * the iterator is at the end of the kept part (or past the end after
   * removing the last room), `cur` holds the member lists `plan` leaves the
   * rooms dealt with and the original ones of the rest, and the notices and
   * closed connections are those of the rooms closed so far.
   */
  ghost predicate Swept(rs: seq<Room>, owners: seq<string>, members: seq<seq<User>>, plan: seq<Step>,
                        name: string, broken: set<Conn>, j: nat, list: seq<Room>, i: nat,
                        sent: seq<Outgoing>, shut: set<Conn>, cur: seq<seq<User>>)
  {
    && |owners| == |rs| && |members| == |rs| && |plan| == |rs| && |cur| == |rs| && j <= |rs|
    && list == Keep(rs, plan, j) + rs[j..]
    && (i == |Keep(rs, plan, j)| || (j == |rs| && i == |list| + 1))
    && plan[j..] == SweepPlan(owners[j..], name)
    && (forall k :: 0 <= k < |rs| ==> cur[k] == if k < j then Leave(members[k], plan[k], name) else members[k])
    && sent == SweepNotices(members, plan, broken, j)
    && shut == SweepUnreachable(members, plan, broken, j)
  }

  /** The rooms of `rs` have the owners `holders` and the member lists `cur`. */
  ghost predicate Holds(rs: seq<Room>, holders: seq<User>, cur: seq<seq<User>>)
    reads rs
  {
    |holders| == |rs| && |cur| == |rs| && forall k :: 0 <= k < |rs| ==> rs[k].owner == holders[k] && rs[k].users == cur[k]
  }

  /** Before the room loop runs, nothing has been dealt with. */
  lemma SweptStart(rs: seq<Room>, owners: seq<string>, members: seq<seq<User>>, plan: seq<Step>,
                   name: string, broken: set<Conn>)
    requires |owners| == |rs| && |members| == |rs| && plan == SweepPlan(owners, name)
    ensures Swept(rs, owners, members, plan, name, broken, 0, rs, 0, [], {}, members)
  {
    assert rs[0..] == rs && owners[0..] == owners;
  }

  /** When the iterator runs off the list, every room has been dealt with. */
  lemma SweptDone(rs: seq<Room>, owners: seq<string>, members: seq<seq<User>>, plan: seq<Step>,
                  name: string, broken: set<Conn>, j: nat, list: seq<Room>, i: nat,
                  sent: seq<Outgoing>, shut: set<Conn>, cur: seq<seq<User>>)
    requires Swept(rs, owners, members, plan, name, broken, j, list, i, sent, shut, cur) && i >= |list|
    ensures j == |rs| && list == Keep(rs, plan, |rs|)
    ensures sent == SweepNotices(members, plan, broken, |rs|) && shut == SweepUnreachable(members, plan, broken, |rs|)
    ensures forall k :: 0 <= k < |rs| ==> cur[k] == Leave(members[k], plan[k], name)
  {
  }

  /** Closing the room under the iterator: the list loses it and the iterator steps over the room after it. */
  lemma CloseList(rs: seq<Room>, owners: seq<string>, plan: seq<Step>, name: string, j: nat, list: seq<Room>, i: nat)
    requires |owners| == |rs| && |plan| == |rs| && j < |rs|
    requires list == Keep(rs, plan, j) + rs[j..] && i == |Keep(rs, plan, j)|
    requires plan[j..] == SweepPlan(owners[j..], name) && owners[j] == name
    ensures var j' := if j + 1 < |rs| then j + 2 else j + 1;
            && j' <= |rs|
            && list[..i] + list[i + 1..] == Keep(rs, plan, j') + rs[j'..]
            && (i + 1 == |Keep(rs, plan, j')| || (j' == |rs| && i + 1 == |list[..i] + list[i + 1..]| + 1))
            && plan[j'..] == SweepPlan(owners[j'..], name)
            && plan[j] == Close && (j + 1 < |rs| ==> plan[j + 1] == Skip)
  {
    SweepPlanAt(owners, name, plan, j);
    KeepClose(rs, plan, j, list, i);
    if j + 1 < |rs| {
      KeepPass(rs, plan, j + 1, list[..i] + list[i + 1..]);
    } else {
      assert plan[j + 1..] == [] && owners[j + 1..] == [];
    }
  }

  /** Closing the room at position `j` adds its notices and its closed connections; stepping over the next adds none. */
  lemma CloseSends(members: seq<seq<User>>, plan: seq<Step>, broken: set<Conn>, j: nat, j': nat,
                   sent: seq<Outgoing>, shut: set<Conn>)
    requires |members| == |plan| && j < j' <= |plan| && j' <= j + 2
    requires plan[j] == Close && (j + 1 < j' ==> plan[j + 1] == Skip)
    requires sent == SweepNotices(members, plan, broken, j) && shut == SweepUnreachable(members, plan, broken, j)
    ensures sent + CloseNotices(members[j], broken) == SweepNotices(members, plan, broken, j')
    ensures shut + Unreachable(members[j], broken) == SweepUnreachable(members, plan, broken, j')
  {
    assert SweepNotices(members, plan, broken, j + 1) == sent + CloseNotices(members[j], broken);
    if j + 1 < j' {
      assert SweepNotices(members, plan, broken, j + 2) == SweepNotices(members, plan, broken, j + 1) + [];
    }
  }

  /** Closing the room under the iterator: it leaves the list and the room after it is stepped over. */
  lemma CloseStep(rs: seq<Room>, owners: seq<string>, members: seq<seq<User>>, plan: seq<Step>,
                  name: string, broken: set<Conn>, j: nat, list: seq<Room>, i: nat,
                  sent: seq<Outgoing>, shut: set<Conn>, cur: seq<seq<User>>)
    requires Swept(rs, owners, members, plan, name, broken, j, list, i, sent, shut, cur)
    requires i == |Keep(rs, plan, j)| && j < |rs| && owners[j] == name
    ensures var j' := if j + 1 < |rs| then j + 2 else j + 1;
            Swept(rs, owners, members, plan, name, broken, j', list[..i] + list[i + 1..], i + 1,
                  sent + CloseNotices(members[j], broken), shut + Unreachable(members[j], broken), cur)
  {
    var j' := if j + 1 < |rs| then j + 2 else j + 1;
    CloseList(rs, owners, plan, name, j, list, i);
    CloseSends(members, plan, broken, j, j', sent, shut);
    forall k | 0 <= k < |rs|
      ensures cur[k] == if k < j' then Leave(members[k], plan[k], name) else members[k]
    {
      if j <= k < j' {
        assert plan[k] != Visit;
      }
    }
  }

  /** Visiting the room under the iterator: the leaving user gets out of it and the iterator moves on. */
  lemma VisitStep(rs: seq<Room>, owners: seq<string>, members: seq<seq<User>>, plan: seq<Step>,
                  name: string, broken: set<Conn>, j: nat, list: seq<Room>, i: nat,
                  sent: seq<Outgoing>, shut: set<Conn>, cur: seq<seq<User>>)
    requires Swept(rs, owners, members, plan, name, broken, j, list, i, sent, shut, cur)
    requires i == |Keep(rs, plan, j)| && j < |rs| && owners[j] != name
    ensures Swept(rs, owners, members, plan, name, broken, j + 1, list, i + 1, sent, shut,
                  cur[j := Leave(members[j], Visit, name)])
  {
    SweepPlanAt(owners, name, plan, j);
    KeepPass(rs, plan, j, list);
    assert SweepNotices(members, plan, broken, j + 1) == sent + [];
    assert SweepUnreachable(members, plan, broken, j + 1) == shut + {};
    var cur' := cur[j := Leave(members[j], Visit, name)];
    forall k | 0 <= k < |rs|
      ensures cur'[k] == if k < j + 1 then Leave(members[k], plan[k], name) else members[k]
    {
      if k != j {
        assert cur'[k] == cur[k];
      }
    }
  }

  /**
   * The room loop reaches a room owned by the leaving user: its members are
   * notified, it is removed from the list, and the iterator moves past the
   * room that shifts into its place.
   */
  method CloseRoom(rs: seq<Room>, user: User, broken: set<Conn>, ghost holders: seq<User>, ghost owners: seq<string>,
                   ghost members: seq<seq<User>>, ghost plan: seq<Step>, ghost j: nat, list: seq<Room>, i: nat,
                   sent: seq<Outgoing>, shut: set<Conn>, ghost cur: seq<seq<User>>)
    returns (list': seq<Room>, sent': seq<Outgoing>, shut': set<Conn>, ghost j': nat)
    requires Swept(rs, owners, members, plan, user.name, broken, j, list, i, sent, shut, cur)
    requires Holds(rs, holders, cur) && (forall k :: 0 <= k < |rs| ==> holders[k].name == owners[k])
    requires i < |list| && list[i].owner.name == user.name
    ensures Swept(rs, owners, members, plan, user.name, broken, j', list', i + 1, sent', shut', cur)
    ensures |list'| < |list|
  {
    KeepCurrent(rs, plan, j, list, i);
    var room := list[i];
    var notices, unreachable := NotifyClose(room.users, broken);
    CloseStep(rs, owners, members, plan, user.name, broken, j, list, i, sent, shut, cur);
    sent', shut' := sent + notices, shut + unreachable;
    // `remove` finds the room by identity, at the iterator's position
    list' := list[..i] + list[i + 1..];
    j' := if j + 1 < |rs| then j + 2 else j + 1;
  }

  /** The room loop reaches a room owned by someone else: the leaving user, if seated, gets out of it. */
  method PassRoom(rs: seq<Room>, user: User, broken: set<Conn>, ghost holders: seq<User>, ghost owners: seq<string>,
                  ghost members: seq<seq<User>>, ghost plan: seq<Step>, ghost j: nat, list: seq<Room>, i: nat,
                  ghost sent: seq<Outgoing>, ghost shut: set<Conn>, ghost cur: seq<seq<User>>)
    returns (ghost cur': seq<seq<User>>)
    requires Distinct(rs) && Swept(rs, owners, members, plan, user.name, broken, j, list, i, sent, shut, cur)
    requires Holds(rs, holders, cur) && (forall k :: 0 <= k < |rs| ==> holders[k].name == owners[k])
    requires i < |list| && list[i].owner.name != user.name
    modifies list[i]
    ensures Swept(rs, owners, members, plan, user.name, broken, j + 1, list, i + 1, sent, shut, cur')
    ensures Holds(rs, holders, cur')
  {
    KeepCurrent(rs, plan, j, list, i);
    var room := list[i];
    VisitStep(rs, owners, members, plan, user.name, broken, j, list, i, sent, shut, cur);
    VisitRoom(room, user);
    forall k | 0 <= k < |rs| && k != j
      ensures rs[k].owner == holders[k] && rs[k].users == cur[k]
    {
      assert rs[k] != room;
    }
    cur' := cur[j := room.users];
  }

  /** One step of the room loop, at the room under the iterator. */
  method SweepStep(rs: seq<Room>, user: User, broken: set<Conn>, ghost holders: seq<User>, ghost owners: seq<string>,
                   ghost members: seq<seq<User>>, ghost plan: seq<Step>, ghost j: nat, list: seq<Room>, i: nat,
                   sent: seq<Outgoing>, shut: set<Conn>, ghost cur: seq<seq<User>>)
    returns (list': seq<Room>, sent': seq<Outgoing>, shut': set<Conn>, ghost j': nat, ghost cur': seq<seq<User>>)
    requires Distinct(rs) && Swept(rs, owners, members, plan, user.name, broken, j, list, i, sent, shut, cur)
    requires Holds(rs, holders, cur) && (forall k :: 0 <= k < |rs| ==> holders[k].name == owners[k])
    requires i < |list|
    modifies rs
    ensures Swept(rs, owners, members, plan, user.name, broken, j', list', i + 1, sent', shut', cur')
    ensures Holds(rs, holders, cur')
    ensures |list'| <= |list|
  {
    KeepCurrent(rs, plan, j, list, i);
    if list[i].owner.name == user.name {
      list', sent', shut', j' := CloseRoom(rs, user, broken, holders, owners, members, plan, j, list, i, sent, shut, cur);
      cur' := cur;
    } else {
      cur' := PassRoom(rs, user, broken, holders, owners, members, plan, j, list, i, sent, shut, cur);
      list', sent', shut', j' := list, sent, shut, j + 1;
    }
  }

  /**
   * The room loop itself, over the list `rs` whose owners are `holders`
   * (called `owners`) and whose member lists are `members`: walks it by
   * position, closing the rooms the leaving user owns and taking the user
   * out of the others it reaches. Returns the list left, the messages sent
   * and the connections closed.
   */
  method WalkRooms(rs: seq<Room>, user: User, broken: set<Conn>,
                   ghost holders: seq<User>, ghost owners: seq<string>, ghost members: seq<seq<User>>)
    returns (list: seq<Room>, sent: seq<Outgoing>, shut: set<Conn>)
    requires Distinct(rs) && |holders| == |rs| && |owners| == |rs| && |members| == |rs|
    requires forall k :: 0 <= k < |rs| ==> holders[k].name == owners[k]
    requires Holds(rs, holders, members)
    modifies rs
    ensures forall k :: 0 <= k < |rs| ==> rs[k].owner == holders[k]
    ensures forall k :: 0 <= k < |rs| ==> rs[k].users == Leave(members[k], SweepPlan(owners, user.name)[k], user.name)
    ensures list == Keep(rs, SweepPlan(owners, user.name), |rs|)
    ensures sent == SweepNotices(members, SweepPlan(owners, user.name), broken, |rs|)
    ensures shut == SweepUnreachable(members, SweepPlan(owners, user.name), broken, |rs|)
  {
    ghost var plan := SweepPlan(owners, user.name);
    ghost var cur := members;
    list, sent, shut := rs, [], {};
    var i: nat := 0;
    ghost var j: nat := 0;
    SweptStart(rs, owners, members, plan, user.name, broken);
    while i < |list|
      invariant Swept(rs, owners, members, plan, user.name, broken, j, list, i, sent, shut, cur)
      invariant Holds(rs, holders, cur)
      decreases |list| - i
    {
      list, sent, shut, j, cur := SweepStep(rs, user, broken, holders, owners, members, plan, j, list, i, sent, shut, cur);
      i := i + 1;
    }
    SweptDone(rs, owners, members, plan, user.name, broken, j, list, i, sent, shut, cur);
  }

  /**
   * The room loop over `rs`, stated on the rooms' owners and members before
   * it runs: which rooms stay in the list, what every room's members become,
   * which notices go out and which connections close. With distinct ids and
   * distinct owner names the rooms left have them too, none is owned by the
   * leaving user, and every room owned by someone else stays.
   */
  method SweepRooms(rs: seq<Room>, user: User, broken: set<Conn>) returns (list: seq<Room>, sent: seq<Outgoing>, shut: set<Conn>)
    requires Distinct(Ids(rs)) && Distinct(Owners(rs))
    modifies rs
    ensures list == Keep(rs, SweepPlan(old(Owners(rs)), user.name), |rs|)
    ensures forall k :: 0 <= k < |rs| ==> rs[k].owner == old(rs[k].owner)
    ensures forall k :: 0 <= k < |rs| ==>
              rs[k].users == Leave(old(rs[k].users), SweepPlan(old(Owners(rs)), user.name)[k], user.name)
    ensures sent == SweepNotices(old(Members(rs)), SweepPlan(old(Owners(rs)), user.name), broken, |rs|)
    ensures shut == SweepUnreachable(old(Members(rs)), SweepPlan(old(Owners(rs)), user.name), broken, |rs|)
    ensures Distinct(Ids(list)) && Distinct(Owners(list))
    ensures forall r :: r in list ==> r in rs && r.owner.name != user.name
    ensures forall k :: 0 <= k < |rs| && old(rs[k].owner.name) != user.name ==> rs[k] in list
  {
    ghost var holders, owners, members := Holders(rs), Owners(rs), Members(rs);
    forall a, b | 0 <= a < b < |rs| ensures rs[a] != rs[b] {
      assert Ids(rs)[a] != Ids(rs)[b];
    }
    list, sent, shut := WalkRooms(rs, user, broken, holders, owners, members);
    SweepKeepsRooms(rs, owners, user.name);
  }

  /**
   * What the room loop keeps: with distinct ids and distinct owner names, the
   * kept rooms have them too, no kept room is owned by `name`, and every room
   * owned by someone else is kept.
   */
  lemma SweepKeepsRooms(before: seq<Room>, owners: seq<string>, name: string)
    requires |owners| == |before|
    requires forall k :: 0 <= k < |before| ==> before[k].owner.name == owners[k]
    requires Distinct(Ids(before)) && Distinct(owners)
    ensures var kept := Keep(before, SweepPlan(owners, name), |before|);
            && Distinct(Ids(kept)) && Distinct(Owners(kept))
            && (forall r :: r in kept ==> r in before && r.owner.name != name)
            && (forall k :: 0 <= k < |before| && owners[k] != name ==> before[k] in kept)
  {
    var plan := SweepPlan(owners, name);
    var kept := Keep(before, plan, |before|);
    var ids, names := Ids(kept), Owners(kept);
    forall a, b | 0 <= a < b < |kept|
      ensures ids[a] != ids[b] && names[a] != names[b]
    {
      var a', b' := KeepOrder(before, plan, |before|, a, b);
      assert Ids(before)[a'] != Ids(before)[b'];
    }
    assert Distinct(ids) && Distinct(names);
    forall r | r in kept
      ensures r in before && r.owner.name != name
    {
      KeepMembers(before, plan, |before|, r);
      var k :| 0 <= k < |before| && before[k] == r && plan[k] != Close;
      if r.owner.name == name {
        SweepPlanClosesOwned(owners, name, k);
      }
    }
    forall k | 0 <= k < |before| && owners[k] != name
      ensures before[k] in kept
    {
      SweepPlanSteps(owners, name, k);
      KeepMembers(before, plan, |before|, before[k]);
    }
  }
}
