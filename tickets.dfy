// The neighbour-starvation rule of philo/philo.c: a hungry philosopher draws
// a ticket from a shared counter and holds back while its ticket is more than
// THRESH * N newer than a neighbour's. A philosopher that is not hungry holds
// HIGH_SENTINEL.
module Tickets {
  import opened PhiloConsts
  import opened Ring

  /** The condition of the wait loop in neighbors_starvation_wait. */
  predicate MustWait(t: seq<int>, id: int, n: int)
    requires n == |t| && 0 <= id < n
  {
    || t[id] - t[LeftNeighbour(id, n)] > THRESH * n
    || t[id] - t[RightNeighbour(id, n)] > THRESH * n
  }

  /** Tickets fit in a C int, so none is above HIGH_SENTINEL. */
  predicate IntTickets(t: seq<int>) {
    forall j :: 0 <= j < |t| ==> t[j] <= HIGH_SENTINEL
  }

  /**
   * A philosopher waits exactly when a hungry neighbour's ticket is more than
   * THRESH * N older than its own: a neighbour holding the sentinel never
   * causes a wait.
   */
  lemma {:induction false} WaitOnlyForHungryNeighbour(t: seq<int>, id: int)
    requires 0 <= id < |t| && IntTickets(t)
    ensures var n := |t|;
      var l, r := LeftNeighbour(id, n), RightNeighbour(id, n);
      MustWait(t, id, n) <==>
        || (t[l] != HIGH_SENTINEL && t[id] - t[l] > THRESH * n)
        || (t[r] != HIGH_SENTINEL && t[id] - t[r] > THRESH * n)
  {
    var n := |t|;
    assert t[id] <= HIGH_SENTINEL;
  }

  /** The index of a smallest ticket among the first `len`. */
  function OldestTicket(t: seq<int>, len: int): (m: int)
    requires 1 <= len <= |t|
    ensures 0 <= m < len
    ensures forall j :: 0 <= j < len ==> t[m] <= t[j]
  {
    if len == 1 then 0
    else
      var m := OldestTicket(t, len - 1);
      if t[len - 1] < t[m] then len - 1 else m
  }

  /**
   * The wait rule cannot hold everyone back: the philosopher holding the
   * oldest ticket never waits.
   */
  lemma {:induction false} OldestNeverWaits(t: seq<int>)
    requires |t| >= 1
    ensures 0 <= OldestTicket(t, |t|) < |t|
    ensures !MustWait(t, OldestTicket(t, |t|), |t|)
  {
    var n := |t|;
    var m := OldestTicket(t, n);
    NeighboursInverse(m, n);
    assert t[m] <= t[LeftNeighbour(m, n)] && t[m] <= t[RightNeighbour(m, n)];
  }

  /** Someone may always proceed, whatever the tickets are. */
  lemma NotEveryoneWaits(t: seq<int>)
    requires |t| >= 1
    ensures exists id :: 0 <= id < |t| && !MustWait(t, id, |t|)
  {
    OldestNeverWaits(t);
  }

  /** A lone philosopher is its own neighbour and never waits on itself. */
  lemma {:induction false} LoneNeverWaits(t: seq<int>)
    requires |t| == 1
    ensures !MustWait(t, 0, 1)
  {
    assert LeftNeighbour(0, 1) == 0 && RightNeighbour(0, 1) == 0;
  }
}
