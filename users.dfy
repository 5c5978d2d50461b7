/**
 * lib/user.py: a logged-in user is a name, an id drawn from a class-wide
 * counter, and the connection it talks over. Users compare equal by name
 * alone, so every list operation of the server (`in`, `remove`) works on names.
 */
module Users {

  /** An open socket; only its identity matters to the model. */
  type Conn = nat

  datatype User = User(name: string, id: nat, connection: Conn)

  /** The right operand of `__eq__`, which may be any object. */
  datatype Value = UserValue(user: User) | OtherValue

  /** User.__eq__: the other value is a User with the same name. */
  predicate Equals(u: User, other: Value)
  {
    other.UserValue? && other.user.name == u.name
  }

  /** Equality ignores ids and connections and is symmetric between users. */
  lemma EqualsByName(u: User, w: User)
    ensures Equals(u, UserValue(w)) <==> u.name == w.name
    ensures Equals(u, UserValue(w)) <==> Equals(w, UserValue(u))
    ensures Equals(u, UserValue(User(u.name, w.id, w.connection)))
  {
  }

  /** A user never equals a value that is not a user. */
  lemma EqualsOnlyUsers(u: User)
    ensures !Equals(u, OtherValue)
  {
  }

  /** The class-level id counter of User. */
  class UserIds {
    var next: nat

    constructor ()
      ensures next == 0
    {
      next := 0;
    }

    /** User(name, connection): takes the counter's value as id and advances the counter. */
    method NewUser(name: string, connection: Conn) returns (u: User)
      modifies this
      ensures u.name == name && u.connection == connection
      ensures u.id == old(next) && next == old(next) + 1
    {
      u := User(name, next, connection);
      next := next + 1;
    }
  }

  /** Whether some user in `s` is called `name`: `u in s` under name equality. */
  function ContainsName(s: seq<User>, name: string): (b: bool)
    ensures b <==> exists k :: 0 <= k < |s| && s[k].name == name
  {
    if s == [] then false else s[0].name == name || ContainsName(s[1..], name)
  }

  /** The position of the first user called `name`, or |s| when there is none. */
  function FirstNamed(s: seq<User>, name: string): (k: nat)
    ensures k <= |s|
    ensures k < |s| <==> ContainsName(s, name)
    ensures k < |s| ==> s[k].name == name
    ensures forall j :: 0 <= j < k ==> s[j].name != name
  {
    if s == [] then 0
    else if s[0].name == name then 0
    else 1 + FirstNamed(s[1..], name)
  }

  /** How many users in `s` are called `name`. */
  function CountNamed(s: seq<User>, name: string): (c: nat)
    ensures c <= |s|
    ensures c == 0 <==> !ContainsName(s, name)
  {
    if s == [] then 0 else (if s[0].name == name then 1 else 0) + CountNamed(s[1..], name)
  }

  /** The users of `s` not called `name`, in order. */
  function Others(s: seq<User>, name: string): (r: seq<User>)
    ensures |r| + CountNamed(s, name) == |s|
    ensures forall u {:trigger u in r} :: u in r ==> u in s && u.name != name
    ensures forall u {:trigger u in s} :: u in s && u.name != name ==> u in r
  {
    if s == [] then []
    else
      assert forall u {:trigger u in s} :: u in s ==> u == s[0] || u in s[1..];
      if s[0].name == name then Others(s[1..], name)
      else [s[0]] + Others(s[1..], name)
  }

  /** No two users of `s` share a name. */
  predicate DistinctNames(s: seq<User>)
  {
    forall i, j :: 0 <= i < j < |s| ==> s[i].name != s[j].name
  }

  /** `s.remove(u)` for a `u` called `name`: drops the first user so called, if any. */
  function RemoveFirstNamed(s: seq<User>, name: string): (r: seq<User>)
    ensures !ContainsName(s, name) ==> r == s
    ensures ContainsName(s, name) ==> |r| == |s| - 1 && CountNamed(r, name) == CountNamed(s, name) - 1
    ensures Others(r, name) == Others(s, name)
    ensures forall u :: u in r ==> u in s
    ensures DistinctNames(s) ==> DistinctNames(r) && !ContainsName(r, name)
  {
    var k := FirstNamed(s, name);
    if k < |s| then
      RemoveAtCount(s, k, name);
      RemoveAtOthers(s, k, name);
      if DistinctNames(s) then RemoveAtDistinct(s, k, name); s[..k] + s[k + 1..]
      else s[..k] + s[k + 1..]
    else s
  }

  /** Dropping the user at the first position called `name` lowers that name's count by one. */
  lemma {:induction false} RemoveAtCount(s: seq<User>, k: nat, name: string)
    requires k == FirstNamed(s, name) && k < |s|
    ensures CountNamed(s[..k] + s[k + 1..], name) == CountNamed(s, name) - 1
  {
    var t := s[..k] + s[k + 1..];
    if k > 0 {
      assert t[0] == s[0] && t[1..] == s[1..][..k - 1] + s[1..][k..];
      RemoveAtCount(s[1..], k - 1, name);
      assert CountNamed(t, name) == CountNamed(t[1..], name);
    } else {
      assert t == s[1..];
    }
  }

  /** Dropping the user at the first position called `name` keeps every other user, in order. */
  lemma {:induction false} RemoveAtOthers(s: seq<User>, k: nat, name: string)
    requires k == FirstNamed(s, name) && k < |s|
    ensures Others(s[..k] + s[k + 1..], name) == Others(s, name)
  {
    var t := s[..k] + s[k + 1..];
    if k > 0 {
      assert t[0] == s[0] && t[1..] == s[1..][..k - 1] + s[1..][k..];
      RemoveAtOthers(s[1..], k - 1, name);
      assert Others(t, name) == [s[0]] + Others(t[1..], name);
    } else {
      assert t == s[1..];
    }
  }

  /** With distinct names, dropping the one user called `name` leaves nobody so called. */
  lemma RemoveAtDistinct(s: seq<User>, k: nat, name: string)
    requires DistinctNames(s) && k < |s| && s[k].name == name
    ensures DistinctNames(s[..k] + s[k + 1..]) && !ContainsName(s[..k] + s[k + 1..], name)
  {
    var r := s[..k] + s[k + 1..];
    assert forall j :: 0 <= j < |r| ==> r[j] == s[if j < k then j else j + 1];
  }
}
