// The fork table (philo/philo_routin.c): one mutex per fork, modelled as the
// identity of the philosopher holding it. Locking a held fork is where the
// calling thread would block; the model reports that instead of waiting.
module Forks {
  import opened Ring

  /** Owner value of a fork nobody holds. */
  const FREE: int := -1

  /** Every held fork is held by one of the two philosophers who use it. */
  predicate ProperOwners(o: seq<int>) {
    forall f :: 0 <= f < |o| ==> o[f] == FREE || (0 <= o[f] < |o| && UsesFork(o[f], f, |o|))
  }

  /**
   * take_forks on an owner table: lock the first fork, then the second, and
   * stop at the first one already held. Returns how many forks were taken.
   */
  function TakeSpec(o: seq<int>, id: int): (r: (nat, seq<int>))
    requires 0 <= id < |o|
    ensures r.0 <= 2 && |r.1| == |o|
    ensures r.0 == 0 <==> o[FirstFork(id, |o|)] != FREE
    ensures r.0 == 0 ==> r.1 == o
  {
    var a := FirstFork(id, |o|);
    var b := SecondFork(id, |o|);
    if o[a] != FREE then (0, o)
    else if o[a := id][b] != FREE then (1, o[a := id])
    else (2, o[a := id][b := id])
  }

  /** put_forks on an owner table: unlock the left fork, then the right one. */
  function PutSpec(o: seq<int>, id: int): (r: seq<int>)
    requires 0 <= id < |o|
    ensures |r| == |o| && r[LeftFork(id)] == FREE && r[RightFork(id, |o|)] == FREE
  {
    o[LeftFork(id) := FREE][RightFork(id, |o|) := FREE]
  }

  /**
   * Taking forks never takes a fork somebody holds, touches no fork but the
   * philosopher's own two, and leaves the taken ones held by the taker.
   */
  lemma {:induction false} TakeRespectsHolders(o: seq<int>, id: int)
    requires 0 <= id < |o| && ProperOwners(o)
    ensures var (k, o') := TakeSpec(o, id);
      && |o'| == |o| && k <= 2 && ProperOwners(o')
      && (forall f :: 0 <= f < |o| && o[f] != FREE ==> o'[f] == o[f])
      && (forall f :: 0 <= f < |o| && !UsesFork(id, f, |o|) ==> o'[f] == o[f])
      && (k >= 1 ==> o'[FirstFork(id, |o|)] == id)
      && (k == 2 ==> o'[SecondFork(id, |o|)] == id)
  {
    ForkPair(id, |o|);
  }

  /** Releasing forks keeps every fork held by one of its users. */
  lemma {:induction false} PutKeepsOwners(o: seq<int>, id: int)
    requires 0 <= id < |o| && ProperOwners(o)
    ensures ProperOwners(PutSpec(o, id))
    ensures forall f :: 0 <= f < |o| && !UsesFork(id, f, |o|) ==> PutSpec(o, id)[f] == o[f]
  {
  }

  /**
   * With two or more philosophers and both forks free, a philosopher takes
   * both, and releasing them gives back the table it started from.
   */
  lemma {:induction false} TakeThenPutRestores(o: seq<int>, id: int)
    requires 2 <= |o| && 0 <= id < |o|
    requires o[LeftFork(id)] == FREE && o[RightFork(id, |o|)] == FREE
    ensures TakeSpec(o, id).0 == 2
    ensures TakeSpec(o, id).1 == o[LeftFork(id) := id][RightFork(id, |o|) := id]
    ensures PutSpec(TakeSpec(o, id).1, id) == o
  {
    var n := |o|;
    ForkPair(id, n);
    var l, r := LeftFork(id), RightFork(id, n);
    if id % 2 == 0 {
      assert TakeSpec(o, id).1 == o[l := id][r := id];
    } else {
      assert TakeSpec(o, id).1 == o[r := id][l := id] == o[l := id][r := id];
    }
    PutUndoesTake(o, id);
  }

  /** Releasing a pair of forks that were free before they were taken restores the table. */
  lemma {:induction false} PutUndoesTake(o: seq<int>, id: int)
    requires 2 <= |o| && 0 <= id < |o|
    requires o[LeftFork(id)] == FREE && o[RightFork(id, |o|)] == FREE
    ensures PutSpec(o[LeftFork(id) := id][RightFork(id, |o|) := id], id) == o
  {
    var l, r := LeftFork(id), RightFork(id, |o|);
    assert o[l := id][r := id][l := FREE][r := FREE] == o;
  }

  /**
   * A philosopher ends up with two forks only when there are two distinct
   * forks and both were free.
   */
  lemma {:induction false} BothTakenOnlyIfFree(o: seq<int>, id: int)
    requires 0 <= id < |o| && TakeSpec(o, id).0 == 2
    ensures |o| >= 2 && o[LeftFork(id)] == FREE && o[RightFork(id, |o|)] == FREE
  {
    ForkPair(id, |o|);
  }

  /**
   * A lone philosopher has both hands on fork 0: it takes it once and then
   * blocks on the same fork.
   */
  lemma LoneTakesOneFork(o: seq<int>)
    requires |o| == 1 && o[0] == FREE
    ensures TakeSpec(o, 0) == (1, [0])
  {
    assert RightFork(0, 1) == 0;
    assert o[0 := 0] == [0];
  }

  class ForkTable {
    /** owner[f] is the philosopher holding fork f, or FREE. */
    var owner: array<int>

    /** The forks array as malloc returns it: allocated, not yet initialised. */
    constructor Allocate(n: nat)
      ensures fresh(owner) && owner.Length == n
    {
      owner := new int[n];
    }

    /** pthread_mutex_init on fork `f`: the fork starts unlocked. */
    method InitFork(f: int)
      requires 0 <= f < owner.Length
      modifies owner
      ensures owner[..] == old(owner[..])[f := FREE]
    {
      owner[f] := FREE;
    }

    /** pthread_mutex_lock on fork `f`: succeeds only on a free fork. */
    method Lock(f: int, who: int) returns (ok: bool)
      requires 0 <= f < owner.Length
      modifies owner
      ensures ok == (old(owner[f]) == FREE)
      ensures owner[..] == if ok then old(owner[..])[f := who] else old(owner[..])
    {
      ok := owner[f] == FREE;
      if ok {
        owner[f] := who;
      }
    }

    /** pthread_mutex_unlock on fork `f`, by the philosopher holding it. */
    method Unlock(f: int, who: int)
      requires 0 <= f < owner.Length && owner[f] == who
      modifies owner
      ensures owner[..] == old(owner[..])[f := FREE]
    {
      owner[f] := FREE;
    }
  }
}
