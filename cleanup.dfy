/**
 * What the disconnect cleanup of server.py does to its two lists. Both loops
 * remove from a Python list while iterating over it. The list iterator keeps
 * a position and advances it by one per step; a removal shifts the next
 * element into the current position, so the iterator steps over that element
 * without looking at it.
 */
module Cleanup {
  import opened Users

  /** No element of `s` occurs twice. */
  predicate Distinct<T(==)>(s: seq<T>)
  {
    forall i, j :: 0 <= i < j < |s| ==> s[i] != s[j]
  }

  /**
   * The session loop, from iterator position `i`: when the session there is
   * called `name`, `remove` drops the FIRST session so called, which may be an
   * earlier one the iterator stepped over.
   */
  function SweepSessions(s: seq<User>, name: string, i: nat): seq<User>
    decreases |s| - i
  {
    if i >= |s| then s
    else if s[i].name == name then SweepSessions(RemoveFirstNamed(s, name), name, i + 1)
    else SweepSessions(s, name, i + 1)
  }

  /** The session loop only removes sessions called `name`: all others stay, in order. */
  lemma {:induction false} SweepSessionsKeepsOthers(s: seq<User>, name: string, i: nat)
    ensures Others(SweepSessions(s, name, i), name) == Others(s, name)
    decreases |s| - i
  {
    if i < |s| {
      if s[i].name == name {
        SweepSessionsKeepsOthers(RemoveFirstNamed(s, name), name, i + 1);
      } else {
        SweepSessionsKeepsOthers(s, name, i + 1);
      }
    }
  }

  /**
   * The session loop never adds a session called `name`, and removes at least
   * one when the iterator reaches one.
   */
  lemma {:induction false} SweepSessionsRemoves(s: seq<User>, name: string, i: nat)
    ensures CountNamed(SweepSessions(s, name, i), name) <= CountNamed(s, name)
    ensures (exists k :: i <= k < |s| && s[k].name == name) ==>
              CountNamed(SweepSessions(s, name, i), name) < CountNamed(s, name)
    decreases |s| - i
  {
    if i < |s| {
      if s[i].name == name {
        SweepSessionsRemoves(RemoveFirstNamed(s, name), name, i + 1);
      } else {
        SweepSessionsRemoves(s, name, i + 1);
        if exists k :: i <= k < |s| && s[k].name == name {
          var k :| i <= k < |s| && s[k].name == name;
          assert i + 1 <= k;
        }
      }
    }
  }

  /** With at most one session called `name`, the loop leaves none. */
  lemma SweepSessionsSingle(s: seq<User>, name: string)
    requires CountNamed(s, name) <= 1
    ensures !ContainsName(SweepSessions(s, name, 0), name)
    ensures Others(SweepSessions(s, name, 0), name) == Others(s, name)
  {
    SweepSessionsRemoves(s, name, 0);
    SweepSessionsKeepsOthers(s, name, 0);
  }

  /** Two adjacent sessions with the same name: the iterator steps over the second, which stays. */
  lemma SweepSessionsSkipsNeighbour(a: User, b: User)
    requires a.name == b.name
    ensures SweepSessions([a, b], a.name, 0) == [b]
  {
    assert RemoveFirstNamed([a, b], a.name) == [b];
    assert SweepSessions([b], a.name, 1) == [b];
  }

  /**
   * Three sessions with the same name: the first match removes the first
   * session, the iterator moves on to the third, whose match removes the
   * second, which sat behind the iterator. The third stays.
   */
  lemma SweepSessionsRemovesBehind(a: User, b: User, c: User)
    requires a.name == b.name == c.name
    ensures SweepSessions([a, b, c], a.name, 0) == [c]
  {
    assert RemoveFirstNamed([a, b, c], a.name) == [b, c];
    assert RemoveFirstNamed([b, c], a.name) == [c];
    assert SweepSessions([c], a.name, 2) == [c];
  }

  /** What the room loop does with the room at each position. */
  datatype Step =
    | Close  // owned by the leaving user: members notified, room removed
    | Visit  // looked at: the leaving user, if seated, is removed
    | Skip   // stepped over after a removal: left as it is

  /**
   * The room loop's step at every position, given the rooms' owner names: a
   * room owned by `name` is closed and removed, and the room after it shifts
   * into its position and is stepped over.
   */
  function SweepPlan(owners: seq<string>, name: string): (plan: seq<Step>)
    ensures |plan| == |owners|
    decreases |owners|
  {
    if owners == [] then []
    else if owners[0] != name then [Visit] + SweepPlan(owners[1..], name)
    else if |owners| == 1 then [Close]
    else [Close, Skip] + SweepPlan(owners[2..], name)
  }

  /**
   * Only owned rooms are closed, only other rooms are visited, and a room is
   * stepped over only right after a closed one.
   */
  lemma {:induction false} SweepPlanSteps(owners: seq<string>, name: string, k: nat)
    requires k < |owners|
    ensures SweepPlan(owners, name)[k] == Close ==> owners[k] == name
    ensures SweepPlan(owners, name)[k] == Visit ==> owners[k] != name
    ensures SweepPlan(owners, name)[k] == Skip ==> k > 0 && SweepPlan(owners, name)[k - 1] == Close
    decreases |owners|
  {
    if owners[0] != name {
      if k > 0 {
        SweepPlanSteps(owners[1..], name, k - 1);
      }
    } else if |owners| > 1 && k >= 2 {
      SweepPlanSteps(owners[2..], name, k - 2);
    }
  }

  /** When owner names are distinct, the loop closes every room the leaving user owns. */
  lemma SweepPlanClosesOwned(owners: seq<string>, name: string, k: nat)
    requires Distinct(owners) && k < |owners| && owners[k] == name
    ensures SweepPlan(owners, name)[k] == Close
  {
    SweepPlanSteps(owners, name, k);
    if SweepPlan(owners, name)[k] == Skip {
      SweepPlanSteps(owners, name, k - 1);
    }
  }

  /** The room right after the closed one is not looked at, whoever owns it. */
  lemma SweepPlanSkipsNext(owner: string, other: string)
    ensures SweepPlan([owner, other], owner) == [Close, Skip]
  {
    assert [owner, other][2..] == [];
  }

  /** The elements among the first `n` of `xs` at positions the plan does not close, in order. */
  function Keep<T>(xs: seq<T>, plan: seq<Step>, n: nat): (r: seq<T>)
    requires |xs| == |plan| && n <= |xs|
    ensures |r| <= n
  {
    if n == 0 then []
    else Keep(xs, plan, n - 1) + (if plan[n - 1] == Close then [] else [xs[n - 1]])
  }

  /** An element survives exactly when it sits at a position the plan does not close. */
  lemma {:induction false} KeepMembers<T>(xs: seq<T>, plan: seq<Step>, n: nat, x: T)
    requires |xs| == |plan| && n <= |xs|
    ensures x in Keep(xs, plan, n) <==> exists k :: 0 <= k < n && xs[k] == x && plan[k] != Close
  {
    if n > 0 {
      KeepMembers(xs, plan, n - 1, x);
    }
  }

  /** The kept elements appear in `xs` in the same order. */
  lemma {:induction false} KeepOrder<T>(xs: seq<T>, plan: seq<Step>, n: nat, a: nat, b: nat) returns (a': nat, b': nat)
    requires |xs| == |plan| && n <= |xs| && a < b < |Keep(xs, plan, n)|
    ensures a' < b' < n && Keep(xs, plan, n)[a] == xs[a'] && Keep(xs, plan, n)[b] == xs[b']
  {
    var prefix := Keep(xs, plan, n - 1);
    if b < |prefix| {
      a', b' := KeepOrder(xs, plan, n - 1, a, b);
    } else {
      KeepMembers(xs, plan, n - 1, prefix[a]);
      var k :| 0 <= k < n - 1 && xs[k] == prefix[a] && plan[k] != Close;
      a', b' := k, n - 1;
    }
  }

  /** What the room loop does to the members of a room it reaches with step `step`. */
  function Leave(users: seq<User>, step: Step, name: string): seq<User>
  {
    if step == Visit && ContainsName(users, name) then RemoveFirstNamed(users, name) else users
  }

  /**
   * Only a visited room changes; it keeps every member with another name, and
   * with distinct names the leaving user is no longer among its members.
   */
  lemma LeaveEffect(users: seq<User>, step: Step, name: string)
    ensures step != Visit ==> Leave(users, step, name) == users
    ensures Others(Leave(users, step, name), name) == Others(users, name)
    ensures DistinctNames(users) && step == Visit ==> !ContainsName(Leave(users, step, name), name)
  {
  }

  /**
   * The plan seen from a position the loop reaches: the step there follows
   * from the owner, and the rest of the plan is the plan of what follows.
   */
  lemma SweepPlanAt(owners: seq<string>, name: string, plan: seq<Step>, j: nat)
    requires |plan| == |owners| && j < |owners|
    requires plan[j..] == SweepPlan(owners[j..], name)
    ensures owners[j] != name ==> plan[j] == Visit && plan[j + 1..] == SweepPlan(owners[j + 1..], name)
    ensures owners[j] == name ==> plan[j] == Close
    ensures owners[j] == name && j + 1 < |owners| ==>
              plan[j + 1] == Skip && plan[j + 2..] == SweepPlan(owners[j + 2..], name)
  {
    assert plan[j..][0] == plan[j];
    assert owners[j..][0] == owners[j];
    if owners[j] != name {
      assert plan[j..][1..] == plan[j + 1..];
      assert owners[j..][1..] == owners[j + 1..];
    } else if j + 1 < |owners| {
      assert plan[j..][1] == plan[j + 1];
      assert plan[j..][2..] == plan[j + 2..];
      assert owners[j..][2..] == owners[j + 2..];
    }
  }

  /**
   * The room loop's list while it runs: the kept part of the first `j` rooms
   * followed by the untouched rest; the iterator at the end of the kept part
   * looks at the room in position `j`.
   */
  lemma KeepCurrent<T>(xs: seq<T>, plan: seq<Step>, j: nat, rs: seq<T>, i: nat)
    requires |xs| == |plan| && j <= |xs|
    requires rs == Keep(xs, plan, j) + xs[j..] && i == |Keep(xs, plan, j)| && i < |rs|
    ensures j < |xs| && rs[i] == xs[j]
  {
  }

  /** Visiting or stepping over the room at position `j` keeps it and moves on by one. */
  lemma KeepPass<T>(xs: seq<T>, plan: seq<Step>, j: nat, rs: seq<T>)
    requires |xs| == |plan| && j < |xs| && plan[j] != Close
    requires rs == Keep(xs, plan, j) + xs[j..]
    ensures rs == Keep(xs, plan, j + 1) + xs[j + 1..]
    ensures |Keep(xs, plan, j + 1)| == |Keep(xs, plan, j)| + 1
  {
    assert xs[j..] == [xs[j]] + xs[j + 1..];
  }

  /** Closing the room at position `j` removes it: the room after it takes its place. */
  lemma KeepClose<T>(xs: seq<T>, plan: seq<Step>, j: nat, rs: seq<T>, i: nat)
    requires |xs| == |plan| && j < |xs| && plan[j] == Close
    requires rs == Keep(xs, plan, j) + xs[j..] && i == |Keep(xs, plan, j)|
    ensures rs[..i] + rs[i + 1..] == Keep(xs, plan, j + 1) + xs[j + 1..]
    ensures |Keep(xs, plan, j + 1)| == i
  {
    assert rs[..i] == Keep(xs, plan, j);
    assert rs[i + 1..] == xs[j + 1..];
  }
}
