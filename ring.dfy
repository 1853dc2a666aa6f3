// Ring topology of the table (philo/philo_routin.c, philo/philo.c): which
// forks a philosopher uses, in which order it takes them, and who its
// neighbours are. Philosophers and forks are both numbered 0 .. n-1.
module Ring {

  /** The left fork of philosopher `id` is fork `id`. */
  function LeftFork(id: int): int {
    id
  }

  /**
   * The right fork of philosopher `id` is the one it shares with its right
   * neighbour; philo/philo_routin.c computes it as (id + 1) % n (see
   * RightForkIsMod).
   */
  function RightFork(id: int, n: int): (f: int)
    requires 0 <= id < n
    ensures 0 <= f < n
  {
    RightNeighbour(id, n)
  }

  /** Even philosophers take the left fork first, odd ones the right fork. */
  function FirstFork(id: int, n: int): (f: int)
    requires 0 <= id < n
    ensures 0 <= f < n && (f == LeftFork(id) || f == RightFork(id, n))
    ensures f == LeftFork(id) <==> id % 2 == 0
  {
    if id % 2 == 0 then LeftFork(id) else RightFork(id, n)
  }

  /** The other one of the two forks. */
  function SecondFork(id: int, n: int): (f: int)
    requires 0 <= id < n
    ensures 0 <= f < n && (f == LeftFork(id) || f == RightFork(id, n))
    ensures n >= 2 ==> f != FirstFork(id, n)
    ensures n >= 2 ==> (f == RightFork(id, n) <==> id % 2 == 0)
  {
    if id % 2 == 0 then RightFork(id, n) else LeftFork(id)
  }

  /** Philosopher `p` takes fork `f` as its left or its right fork. */
  predicate UsesFork(p: int, f: int, n: int)
    requires 0 <= p < n
  {
    f == LeftFork(p) || f == RightFork(p, n)
  }

  /**
   * The neighbours whose tickets a philosopher compares with its own; the
   * wait loop of philo/philo.c computes them as (id + n - 1) % n and (id + 1) % n.
   */
  function LeftNeighbour(id: int, n: int): (p: int)
    requires 0 <= id < n
    ensures 0 <= p < n
  {
    if id == 0 then n - 1 else id - 1
  }

  function RightNeighbour(id: int, n: int): (p: int)
    requires 0 <= id < n
    ensures 0 <= p < n
  {
    if id + 1 < n then id + 1 else 0
  }

  /** The wrap-around successor is the (id + 1) % n of philo/philo_routin.c and philo/philo.c. */
  lemma RightForkIsMod(id: int, n: int)
    requires 0 <= id < n
    ensures RightFork(id, n) == RightNeighbour(id, n) == (id + 1) % n
  {
    if id + 1 == n {
      assert (id + 1) % n == 0;
    } else {
      assert (id + 1) % n == id + 1;
    }
  }

  /** The wrap-around predecessor is the (id + n - 1) % n of philo/philo.c. */
  lemma LeftNeighbourIsMod(id: int, n: int)
    requires 0 <= id < n
    ensures LeftNeighbour(id, n) == (id + n - 1) % n
  {
    if id == 0 {
      assert (id + n - 1) % n == n - 1;
    } else {
      assert id + n - 1 == (id - 1) + n;
    }
  }

  /**
   * Both forks are on the table; they are two different forks as soon as
   * there are two philosophers, and the same fork 0 for a lone philosopher.
   */
  lemma ForkPair(id: int, n: int)
    requires 0 <= id < n
    ensures 0 <= LeftFork(id) < n && 0 <= RightFork(id, n) < n
    ensures n >= 2 ==> LeftFork(id) != RightFork(id, n)
    ensures n == 1 ==> LeftFork(id) == RightFork(id, n) == 0
    ensures {FirstFork(id, n), SecondFork(id, n)} == {LeftFork(id), RightFork(id, n)}
  {
  }

  /** Walking left then right (or right then left) comes back to the start. */
  lemma NeighboursInverse(id: int, n: int)
    requires 0 <= id < n
    ensures 0 <= LeftNeighbour(id, n) < n && 0 <= RightNeighbour(id, n) < n
    ensures RightNeighbour(LeftNeighbour(id, n), n) == id
    ensures LeftNeighbour(RightNeighbour(id, n), n) == id
  {
  }

  /**
   * Fork `f` is used by exactly two philosophers: `f` itself (as its left
   * fork) and its left neighbour (as its right fork).
   */
  lemma {:induction false} ForkUsers(p: int, f: int, n: int)
    requires 0 <= p < n && 0 <= f < n
    ensures UsesFork(p, f, n) <==> p == f || p == LeftNeighbour(f, n)
  {
    NeighboursInverse(f, n);
    NeighboursInverse(p, n);
    if p != f && RightFork(p, n) == f {
      assert RightNeighbour(p, n) == f;
      assert p == LeftNeighbour(RightNeighbour(p, n), n);
    }
  }

  /**
   * A rank on forks: odd forks are ranked 2; fork 0 is ranked 1 on a ring of
   * odd size (where the last, even, philosopher takes it second); the other
   * even forks are ranked 0.
   */
  function ForkRank(f: int, n: int): int {
    if f % 2 == 1 then 2 else if f == 0 && n % 2 == 1 then 1 else 0
  }

  /**
   * Resource ordering behind the parity rule: with two or more philosophers,
   * everyone takes its forks in strictly increasing rank.
   */
  lemma AcquireInRankOrder(id: int, n: int)
    requires 2 <= n && 0 <= id < n
    ensures ForkRank(FirstFork(id, n), n) < ForkRank(SecondFork(id, n), n)
  {
  }

  /** With an even number of philosophers, first forks are even and second forks odd. */
  lemma {:induction false} EvenRingParity(id: int, n: int)
    requires 2 <= n && n % 2 == 0 && 0 <= id < n
    ensures FirstFork(id, n) % 2 == 0 && SecondFork(id, n) % 2 == 1
  {
    if id % 2 == 0 {
      assert id != n - 1;
    }
  }

  /**
   * Philosopher `p`, holding its first fork, waits for its second fork,
   * which `q` holds as its own first fork.
   */
  predicate WaitsOn(p: int, q: int, n: int)
    requires 0 <= p < n && 0 <= q < n
  {
    SecondFork(p, n) == FirstFork(q, n)
  }

  /** The `j`-th philosopher of `cycle` waits on the next one round the cycle. */
  predicate WaitLink(cycle: seq<int>, j: int, n: int)
    requires 0 <= j < |cycle|
    requires forall i :: 0 <= i < |cycle| ==> 0 <= cycle[i] < n
  {
    WaitsOn(cycle[j], cycle[if j + 1 < |cycle| then j + 1 else 0], n)
  }

  /** Every philosopher of `cycle` waits on the next one, the last on the first. */
  predicate WaitCycle(cycle: seq<int>, n: int)
    requires forall i :: 0 <= i < |cycle| ==> 0 <= cycle[i] < n
  {
    forall j {:trigger WaitLink(cycle, j, n)} :: 0 <= j < |cycle| ==> WaitLink(cycle, j, n)
  }

  /** A member of `cycle` whose first fork has the highest rank, among the first `len`. */
  function HighestFirstFork(cycle: seq<int>, n: int, len: int): (m: int)
    requires 1 <= len <= |cycle|
    requires forall i :: 0 <= i < |cycle| ==> 0 <= cycle[i] < n
    ensures 0 <= m < len
    ensures forall j :: 0 <= j < len ==>
      ForkRank(FirstFork(cycle[j], n), n) <= ForkRank(FirstFork(cycle[m], n), n)
  {
    if len == 1 then 0
    else
      var m := HighestFirstFork(cycle, n, len - 1);
      if ForkRank(FirstFork(cycle[len - 1], n), n) > ForkRank(FirstFork(cycle[m], n), n)
      then len - 1 else m
  }

  /**
   * No circular wait: with two or more philosophers there is no cycle of
   * philosophers each waiting for a fork the next one holds first. Nobody
   * blocked on its first fork holds anything, so this rules out deadlock.
   */
  lemma {:induction false} NoWaitCycle(cycle: seq<int>, n: int)
    requires 2 <= n && |cycle| >= 1
    requires forall j :: 0 <= j < |cycle| ==> 0 <= cycle[j] < n
    ensures !WaitCycle(cycle, n)
  {
    var m := HighestFirstFork(cycle, n, |cycle|);
    AcquireInRankOrder(cycle[m], n);
    assert !WaitLink(cycle, m, n);
  }
}
