/**
 * lib/room.py: a room has an ordered member list (its seating order), an
 * owner, a capacity and an id drawn from a class-wide counter. Members are
 * told apart by name only.
 */
module Rooms {
  import opened Wrappers
  import opened Users

  /**
   * The Uno engine a room owns. Its rules are not part of this model: only
   * the seat count it was built for is kept.
   */
  datatype Game = UnoGame(playerCount: int)

  /** The exceptions Room raises. */
  datatype RoomError =
    | RoomFull       // add_user on a full room
    | AlreadyInRoom  // add_user with a name already seated
    | NotInRoom      // remove_user with a name not seated
    | NoMemberLeft   // remove_user took the owner and nobody is left to own the room

  /** The class-level id counter of Room. */
  class RoomIds {
    var next: nat

    constructor ()
      ensures next == 0
    {
      next := 0;
    }

    /** Hands out the counter's value and advances the counter. */
    method Take() returns (id: nat)
      modifies this
      ensures id == old(next) && next == old(next) + 1
    {
      id := next;
      next := next + 1;
    }
  }

  /** Members have distinct names and do not outnumber the seats. */
  predicate Seated(users: seq<User>, maxPlayerCount: int)
  {
    DistinctNames(users) && |users| <= maxPlayerCount
  }

  /** Appending a newcomer with a fresh name to a room that is not full keeps it Seated. */
  lemma SeatNewcomer(users: seq<User>, maxPlayerCount: int, u: User)
    requires Seated(users, maxPlayerCount)
    requires |users| != maxPlayerCount && !ContainsName(users, u.name)
    ensures Seated(users + [u], maxPlayerCount)
  {
    var s := users + [u];
    forall i, j | 0 <= i < j < |s| ensures s[i].name != s[j].name {
      if j == |users| {
        assert s[i] == users[i];
      } else {
        assert s[i] == users[i] && s[j] == users[j];
      }
    }
  }

  class Room {
    var users: seq<User>
    var owner: User
    const id: nat
    const maxPlayerCount: int
    const game: Game

    /** The field assignments of Room.__init__, once the id is drawn and the game is built. */
    constructor (creator: User, playerCount: int, roomId: nat)
      ensures users == [creator] && owner == creator
      ensures id == roomId && maxPlayerCount == playerCount && game == UnoGame(playerCount)
    {
      users := [creator];
      owner := creator;
      id := roomId;
      maxPlayerCount := playerCount;
      game := UnoGame(playerCount);
    }

    ghost predicate WellFormed()
      reads this
    {
      Seated(users, maxPlayerCount)
    }

    /** has_user: some member bears `u`'s name. */
    function HasUser(u: User): (b: bool)
      reads this
      ensures b <==> exists k :: 0 <= k < |users| && users[k].name == u.name
    {
      ContainsName(users, u.name)
    }

    /** is_full: the member count is exactly the capacity. */
    function IsFull(): bool
      reads this
    {
      maxPlayerCount == |users|
    }

    /** player_count. */
    function PlayerCount(): nat
      reads this
    {
      |users|
    }

    /**
     * add_user: refuses a full room, then scans the members for `u`'s name,
     * and only then appends `u`.
     */
    method AddUser(u: User) returns (r: Outcome<RoomError>)
      modifies this
      ensures r == if old(IsFull()) then Fail(RoomFull)
                   else if old(HasUser(u)) then Fail(AlreadyInRoom)
                   else Pass
      ensures users == if r.Pass? then old(users) + [u] else old(users)
      ensures r.Pass? ==> PlayerCount() == old(PlayerCount()) + 1
      ensures owner == old(owner)
      ensures old(WellFormed()) ==> WellFormed()
    {
      if IsFull() {
        return Fail(RoomFull);
      }
      var i := 0;
      while i < |users|
        invariant 0 <= i <= |users|
        invariant forall j :: 0 <= j < i ==> users[j].name != u.name
      {
        if users[i].name == u.name {
          return Fail(AlreadyInRoom);
        }
        i := i + 1;
      }
      if WellFormed() {
        SeatNewcomer(users, maxPlayerCount, u);
      }
      users := users + [u];
      r := Pass;
    }

    /**
     * remove_user: refuses a name that is not seated; otherwise removes the
     * first member bearing it and, when that was the owner's name, hands
     * ownership to the new first member. When nobody is left, the removal has
     * already happened and indexing the empty list raises.
     */
    method RemoveUser(u: User) returns (r: Outcome<RoomError>)
      modifies this
      ensures !old(HasUser(u)) ==> r == Fail(NotInRoom) && users == old(users) && owner == old(owner)
      ensures old(HasUser(u)) ==> users == RemoveFirstNamed(old(users), u.name)
      ensures old(HasUser(u)) && u.name != old(owner).name ==> r == Pass && owner == old(owner)
      ensures old(HasUser(u)) && u.name == old(owner).name && users != [] ==> r == Pass && owner == users[0]
      ensures old(HasUser(u)) && u.name == old(owner).name && users == [] ==> r == Fail(NoMemberLeft) && owner == old(owner)
      ensures old(WellFormed()) ==> WellFormed()
    {
      if !HasUser(u) {
        return Fail(NotInRoom);
      }
      users := RemoveFirstNamed(users, u.name);
      r := Pass;
      if u.name == owner.name {
        if users == [] {
          return Fail(NoMemberLeft);
        }
        owner := users[0];
      }
    }
  }

  /**
   * is_full compares the member count with `==`: in a well-formed room that
   * is the same as having no free seat, while a room holding more members
   * than its capacity would never count as full.
   */
  lemma FullAtCapacity(room: Room)
    ensures room.WellFormed() ==> (room.IsFull() <==> room.PlayerCount() >= room.maxPlayerCount)
    ensures room.PlayerCount() > room.maxPlayerCount ==> !room.IsFull()
  {
  }

  /**
   * Room(creator, player_count): the id is drawn from the counter before the
   * game is built, so a game that refuses the player count still uses up an id.
   */
  method NewRoom(creator: User, playerCount: int, ids: RoomIds, gameBuilds: bool) returns (r: Option<Room>)
    modifies ids
    ensures ids.next == old(ids.next) + 1
    ensures r.Some? <==> gameBuilds
    ensures r.Some? ==> fresh(r.value)
    ensures r.Some? ==> r.value.users == [creator] && r.value.owner == creator
    ensures r.Some? ==> r.value.id == old(ids.next) && r.value.maxPlayerCount == playerCount
  {
    var id := ids.Take();
    if !gameBuilds {
      return None;
    }
    var room := new Room(creator, playerCount, id);
    r := Some(room);
  }
}
