// The philosopher thread of philo/philo.c and philo/philo_routin.c, as atomic
// steps on the shared environment: status lines, taking and releasing forks,
// the ticket handshake with the neighbours, the start-up stagger and the meal
// bookkeeping of one pass of the loop. Time is the parameter `now`; a lock
// or wait that would block is reported instead of waited on.
module Routine {
  import opened PhiloConsts
  import opened Utils
  import opened Ring
  import opened Forks
  import opened Tickets
  import opened Logging
  import opened Environment

  const TAKEN: seq<char> := "has taken a fork"
  const EATING: seq<char> := "is eating"
  const SLEEPING: seq<char> := "is sleeping"
  const THINKING: seq<char> := "is thinking"

  /** The status messages are C string literals: no NUL inside. */
  lemma MessagesHaveNoNul()
    ensures NoNul(TAKEN) && NoNul(EATING) && NoNul(SLEEPING) && NoNul(THINKING)
  {
  }

  /** `k` copies of the same line. */
  function Repeat(r: Record, k: nat): (rs: seq<Record>)
    ensures |rs| == k && forall j :: 0 <= j < k ==> rs[j] == r
  {
    if k == 0 then [] else Repeat(r, k - 1) + [r]
  }

  /** The line philosopher `id` logs at time `now`: elapsed time, 1-based id, cut status. */
  function Event(start: int, now: int, id: int, status: seq<char>): (r: Record)
    ensures r.timestamp == now - start && r.id == id + 1 && |r.text| < STATUS_SIZE
  {
    Record(now - start, id + 1, StatusText(status))
  }

  /** print_status of philo/log_flusher.c: hands the line to the log buffer. */
  method PrintStatus(env: Env, id: int, status: seq<char>, now: int)
    requires env.Valid() && NoNul(status)
    modifies env.log`count, env.log.entries
    ensures env.Valid()
    ensures env.log.Contents() == LogAppend(old(env.log.Contents()), Event(env.startTime, now, id, status))
  {
    var timestamp := now - env.startTime;
    env.log.BufferedPrint(timestamp, id + 1, status);
  }

  /**
   * print_status of philo/philo.c: prints straight to standard output, and
   * prints nothing once the simulation has ended.
   */
  method PrintStatusDirect(env: Env, id: int, status: seq<char>, now: int)
    requires NoNul(status)
    modifies env`output
    ensures env.ended ==> env.output == old(env.output)
    ensures !env.ended ==> env.output == old(env.output) + [Record(now - env.startTime, id + 1, status)]
  {
    if !env.ended {
      env.output := env.output + [Record(now - env.startTime, id + 1, status)];
    }
  }

  /**
   * take_forks: lock the first fork by parity, log it, then the second fork
   * and log it. Stops where a lock would block and returns the number of
   * forks taken.
   */
  method TakeForks(env: Env, id: int, now: int) returns (taken: nat)
    requires env.Valid() && 0 <= id < env.numPhilo
    modifies env.forks.owner, env.log`count, env.log.entries
    ensures env.Valid()
    ensures (taken, env.forks.owner[..]) == TakeSpec(old(env.forks.owner[..]), id)
    ensures env.log.Contents() ==
      LogAppendAll(old(env.log.Contents()), Repeat(Event(env.startTime, now, id, TAKEN), taken))
  {
    var n := env.numPhilo;
    ghost var o := env.forks.owner[..];
    ghost var c := env.log.Contents();
    ghost var ev := Event(env.startTime, now, id, TAKEN);
    var ok := LockAndLog(env, id, FirstFork(id, n), now);
    if !ok {
      assert LogAppendAll(c, Repeat(ev, 0)) == c;
      return 0;
    }
    ok := LockAndLog(env, id, SecondFork(id, n), now);
    if !ok {
      LogAppendAllOne(c, ev);
      assert Repeat(ev, 1) == [ev];
      return 1;
    }
    LogAppendAllPair(c, ev, ev);
    assert Repeat(ev, 2) == [ev, ev];
    return 2;
  }

  /** One half of take_forks: lock fork `f` and, once it is held, log "has taken a fork". */
  method LockAndLog(env: Env, id: int, f: int, now: int) returns (ok: bool)
    requires env.Valid() && 0 <= id < env.numPhilo && 0 <= f < env.numPhilo
    requires UsesFork(id, f, env.numPhilo)
    modifies env.forks.owner, env.log`count, env.log.entries
    ensures env.Valid()
    ensures ok == (old(env.forks.owner[f]) == FREE)
    ensures env.forks.owner[..] == if ok then old(env.forks.owner[..])[f := id] else old(env.forks.owner[..])
    ensures env.log.Contents() == if ok
      then LogAppend(old(env.log.Contents()), Event(env.startTime, now, id, TAKEN))
      else old(env.log.Contents())
  {
    ok := env.forks.Lock(f, id);
    if ok {
      MessagesHaveNoNul();
      PrintStatus(env, id, TAKEN, now);
    }
  }

  /** put_forks: unlock the left fork, then the right one; the caller holds both. */
  method PutForks(env: Env, id: int)
    requires env.Valid() && 0 <= id < env.numPhilo && env.numPhilo >= 2
    requires env.forks.owner[LeftFork(id)] == id && env.forks.owner[RightFork(id, env.numPhilo)] == id
    modifies env.forks.owner
    ensures env.Valid()
    ensures env.forks.owner[..] == PutSpec(old(env.forks.owner[..]), id)
  {
    ForkPair(id, env.numPhilo);
    RightForkIsMod(id, env.numPhilo);
    env.forks.Unlock(id, id);
    env.forks.Unlock((id + 1) % env.numPhilo, id);
  }

  /**
   * neighbors_starvation_wait: draw the next ticket, then report whether
   * the wait loop would block on it.
   */
  method NeighborsStarvationWait(env: Env, id: int) returns (mustWait: bool)
    requires env.Valid() && 0 <= id < env.numPhilo
    modifies env.ticketNums, env`ticketCounter
    ensures env.Valid()
    ensures env.ticketNums[..] == old(env.ticketNums[..])[id := old(env.ticketCounter)]
    ensures env.ticketCounter == old(env.ticketCounter) + 1
    ensures mustWait == MustWait(env.ticketNums[..], id, env.numPhilo)
    ensures forall j :: 0 <= j < env.numPhilo && j != id && env.ticketNums[j] != HIGH_SENTINEL ==>
      env.ticketNums[j] < env.ticketNums[id]
  {
    var n := env.numPhilo;
    var left := (id + n - 1) % n;
    var right := (id + 1) % n;
    LeftNeighbourIsMod(id, n);
    RightForkIsMod(id, n);
    env.ticketNums[id] := env.ticketCounter;
    env.ticketCounter := env.ticketCounter + 1;
    mustWait := env.ticketNums[id] - env.ticketNums[left] > THRESH * n
      || env.ticketNums[id] - env.ticketNums[right] > THRESH * n;
  }

  /** done_eating: the philosopher is no longer hungry; no other ticket changes. */
  method DoneEating(env: Env, id: int)
    requires env.Valid() && 0 <= id < env.numPhilo
    modifies env.ticketNums
    ensures env.Valid()
    ensures env.ticketNums[..] == old(env.ticketNums[..])[id := HIGH_SENTINEL]
  {
    env.ticketNums[id] := HIGH_SENTINEL;
  }

  /** Philosophers that think before their first meal. */
  predicate Staggered(n: int, id: int) {
    id % 2 == 1 || (id == 0 && n % 2 == 1)
  }

  /**
   * The start of routine: with an odd count philosopher 0 thinks for two
   * meal times; odd philosophers think for one; the others start at once.
   */
  method Stagger(env: Env, id: int, now: int) returns (delay: int)
    requires env.Valid() && 0 <= id < env.numPhilo
    modifies env.log`count, env.log.entries
    ensures env.Valid()
    ensures delay == if id == 0 && env.numPhilo % 2 == 1 then 2 * env.eatTime
      else if id % 2 == 1 then env.eatTime else 0
    ensures env.log.Contents() == if Staggered(env.numPhilo, id)
      then LogAppend(old(env.log.Contents()), Event(env.startTime, now, id, THINKING))
      else old(env.log.Contents())
  {
    var n := env.numPhilo;
    MessagesHaveNoNul();
    delay := 0;
    if n % 2 == 1 && id == 0 {
      PrintStatus(env, id, THINKING, now);
      delay := 2 * env.eatTime;
    }
    if n % 2 == 1 && id % 2 == 1 {
      PrintStatus(env, id, THINKING, now);
      delay := env.eatTime;
    } else if n % 2 == 0 && id % 2 == 1 {
      PrintStatus(env, id, THINKING, now);
      delay := env.eatTime;
    }
  }

  /**
   * The stagger separates neighbours: with two or more philosophers, each
   * one that starts at once has both neighbours thinking first.
   */
  lemma {:induction false} StaggerSeparatesNeighbours(n: int, id: int)
    requires 2 <= n && 0 <= id < n && !Staggered(n, id)
    ensures Staggered(n, LeftNeighbour(id, n)) && Staggered(n, RightNeighbour(id, n))
  {
  }

  /** With an even count, exactly the philosophers taking their left fork first start at once. */
  lemma {:induction false} EvenStaggerFollowsForkOrder(n: int, id: int)
    requires 2 <= n && n % 2 == 0 && 0 <= id < n
    ensures !Staggered(n, id) <==> FirstFork(id, n) == LeftFork(id)
  {
    ForkPair(id, n);
  }

  /** The condition of routine's loop: the simulation runs and meals remain to be eaten. */
  predicate KeepsEating(ended: bool, mealsLimit: int, meals: int) {
    !ended && (mealsLimit == -1 || meals < mealsLimit)
  }

  /**
   * Once the loop condition fails it stays false: meals only grow and
   * `ended` is never cleared. Without a limit only `ended` stops the loop.
   */
  lemma LoopStopIsFinal(ended: bool, mealsLimit: int, meals: int, ended': bool, meals': int)
    requires !KeepsEating(ended, mealsLimit, meals)
    requires meals <= meals' && (ended ==> ended')
    ensures !KeepsEating(ended', mealsLimit, meals')
    ensures mealsLimit == -1 ==> ended'
  {
  }

  /** The record of philosopher `id` after one meal that started at `now`. */
  function Fed(p: Philo, now: int): Philo {
    p.(meals := p.meals + 1, lastMeal := now)
  }

  /** The start of a meal: last_meal becomes the current time, then "is eating". */
  method StartMeal(env: Env, id: int, now: int)
    requires env.Valid() && 0 <= id < env.numPhilo
    modifies env.philos, env.log`count, env.log.entries
    ensures env.Valid()
    ensures env.philos[..] == old(env.philos[..])[id := old(env.philos[id]).(lastMeal := now)]
    ensures env.log.Contents() == LogAppend(old(env.log.Contents()), Event(env.startTime, now, id, EATING))
  {
    env.philos[id] := env.philos[id].(lastMeal := now);
    MessagesHaveNoNul();
    PrintStatus(env, id, EATING, now);
  }

  /**
   * The end of a meal: one more meal counted, both forks released, the
   * ticket given back, then "is sleeping".
   */
  method FinishMeal(env: Env, id: int, now: int)
    requires env.Valid() && 0 <= id < env.numPhilo && env.numPhilo >= 2
    requires env.forks.owner[LeftFork(id)] == id && env.forks.owner[RightFork(id, env.numPhilo)] == id
    modifies env.philos, env.forks.owner, env.ticketNums, env.log`count, env.log.entries
    ensures env.Valid()
    ensures env.philos[..] == old(env.philos[..])[id := old(env.philos[id]).(meals := old(env.philos[id].meals) + 1)]
    ensures env.forks.owner[..] == PutSpec(old(env.forks.owner[..]), id)
    ensures env.ticketNums[..] == old(env.ticketNums[..])[id := HIGH_SENTINEL]
    ensures env.log.Contents() == LogAppend(old(env.log.Contents()), Event(env.startTime, now, id, SLEEPING))
  {
    env.philos[id] := env.philos[id].(meals := env.philos[id].meals + 1);
    PutForks(env, id);
    DoneEating(env, id);
    MessagesHaveNoNul();
    PrintStatus(env, id, SLEEPING, now);
  }

  /**
   * The meal of one pass of routine's loop, forks in hand: start eating at
   * t1, count the meal, release forks and ticket and go to sleep at t2,
   * think at t3.
   */
  method Meal(env: Env, id: int, t1: int, t2: int, t3: int)
    requires env.Valid() && 0 <= id < env.numPhilo && env.numPhilo >= 2
    requires env.forks.owner[LeftFork(id)] == id && env.forks.owner[RightFork(id, env.numPhilo)] == id
    modifies env.philos, env.forks.owner, env.ticketNums, env.log`count, env.log.entries
    ensures env.Valid()
    ensures env.philos[..] == old(env.philos[..])[id := Fed(old(env.philos[id]), t1)]
    ensures env.forks.owner[..] == PutSpec(old(env.forks.owner[..]), id)
    ensures env.ticketNums[..] == old(env.ticketNums[..])[id := HIGH_SENTINEL]
    ensures env.log.Contents() == LogAppendAll(old(env.log.Contents()), [
      Event(env.startTime, t1, id, EATING), Event(env.startTime, t2, id, SLEEPING),
      Event(env.startTime, t3, id, THINKING)])
  {
    ghost var c := env.log.Contents();
    ghost var ps := env.philos[..];
    ghost var e1, e2, e3 := Event(env.startTime, t1, id, EATING),
      Event(env.startTime, t2, id, SLEEPING), Event(env.startTime, t3, id, THINKING);
    StartMeal(env, id, t1);
    FedInTwoSteps(ps, id, t1);
    ghost var c1 := env.log.Contents();
    FinishMeal(env, id, t2);
    ghost var c2 := env.log.Contents();
    MessagesHaveNoNul();
    PrintStatus(env, id, THINKING, t3);
    LogAppendAllTriple(c, e1, e2, e3);
    assert c1 == LogAppend(c, e1);
    assert c2 == LogAppend(c1, e2);
    assert env.log.Contents() == LogAppend(c2, e3);
  }

  /** Stamping the meal's start, then counting it, feeds the philosopher once. */
  lemma FedInTwoSteps(ps: seq<Philo>, id: int, now: int)
    requires 0 <= id < |ps|
    ensures var q := ps[id].(lastMeal := now);
      ps[id := q][id := q.(meals := q.meals + 1)] == ps[id := Fed(ps[id], now)]
  {
  }

  /** A second write to the same slot hides the first. */
  lemma UpdateTwice(s: seq<int>, i: int, x: int, y: int)
    requires 0 <= i < |s|
    ensures s[i := x][i := y] == s[i := y]
  {
  }

  /** The lines one full pass of the loop body logs, in order. */
  function CycleLog(start: int, id: int, t0: int, t1: int, t2: int, t3: int): seq<Record> {
    [Event(start, t0, id, TAKEN), Event(start, t0, id, TAKEN), Event(start, t1, id, EATING),
     Event(start, t2, id, SLEEPING), Event(start, t3, id, THINKING)]
  }

  /** The cycle's lines are the two fork lines followed by the meal's three. */
  lemma CycleLogSplits(c: seq<Record>, start: int, id: int, t0: int, t1: int, t2: int, t3: int)
    ensures LogAppendAll(LogAppendAll(c, [Event(start, t0, id, TAKEN), Event(start, t0, id, TAKEN)]),
      [Event(start, t1, id, EATING), Event(start, t2, id, SLEEPING), Event(start, t3, id, THINKING)])
      == LogAppendAll(c, CycleLog(start, id, t0, t1, t2, t3))
  {
    var ev := Event(start, t0, id, TAKEN);
    var rest := [Event(start, t1, id, EATING), Event(start, t2, id, SLEEPING), Event(start, t3, id, THINKING)];
    LogAppendAllConcat(c, [ev, ev], rest);
    assert [ev, ev] + rest == CycleLog(start, id, t0, t1, t2, t3);
  }

  /**
   * Where a pass of the loop body stops: the fresh ticket `counter` makes the
   * philosopher wait for a neighbour, or a fork it needs is held.
   */
  predicate WouldBlock(tickets: seq<int>, counter: int, owners: seq<int>, id: int)
    requires |tickets| == |owners| && 0 <= id < |owners|
  {
    MustWait(tickets[id := counter], id, |owners|) || TakeSpec(owners, id).0 < 2
  }

  /**
   * How many forks the first half of a pass takes, and the fork table it
   * leaves: none and the table unchanged when the fresh ticket `counter`
   * makes the philosopher wait, otherwise what take_forks does.
   */
  function TakeOutcome(tickets: seq<int>, counter: int, owners: seq<int>, id: int): (res: (nat, seq<int>))
    requires |tickets| == |owners| && 0 <= id < |owners|
    ensures res.0 <= 2 && |res.1| == |owners|
    ensures res.0 == 2 <==> !WouldBlock(tickets, counter, owners, id)
    ensures res.0 == 0 ==> res.1 == owners
  {
    if MustWait(tickets[id := counter], id, |owners|) then (0, owners) else TakeSpec(owners, id)
  }

  /**
   * The first half of routine's loop body: draw a ticket, then take both
   * forks at time t0. Reports `blocked` where the thread would wait.
   */
  method GetForks(env: Env, id: int, t0: int) returns (blocked: bool)
    requires env.Valid() && 0 <= id < env.numPhilo
    modifies env`ticketCounter, env.ticketNums, env.forks.owner, env.log`count, env.log.entries
    ensures env.Valid()
    ensures env.ticketCounter == old(env.ticketCounter) + 1
    ensures env.ticketNums[..] == old(env.ticketNums[..])[id := old(env.ticketCounter)]
    ensures blocked == WouldBlock(old(env.ticketNums[..]), old(env.ticketCounter), old(env.forks.owner[..]), id)
    ensures env.forks.owner[..] == TakeOutcome(old(env.ticketNums[..]), old(env.ticketCounter), old(env.forks.owner[..]), id).1
    ensures env.log.Contents() == LogAppendAll(old(env.log.Contents()), Repeat(Event(env.startTime, t0, id, TAKEN),
      TakeOutcome(old(env.ticketNums[..]), old(env.ticketCounter), old(env.forks.owner[..]), id).0))
    ensures !blocked ==>
      && env.numPhilo >= 2
      && old(env.forks.owner[LeftFork(id)]) == FREE && old(env.forks.owner[RightFork(id, env.numPhilo)]) == FREE
      && env.forks.owner[..] == old(env.forks.owner[..])[LeftFork(id) := id][RightFork(id, env.numPhilo) := id]
      && env.forks.owner[LeftFork(id)] == id && env.forks.owner[RightFork(id, env.numPhilo)] == id
      && env.log.Contents() == LogAppendAll(old(env.log.Contents()),
           [Event(env.startTime, t0, id, TAKEN), Event(env.startTime, t0, id, TAKEN)])
  {
    ghost var o := env.forks.owner[..];
    ghost var c := env.log.Contents();
    ghost var ev := Event(env.startTime, t0, id, TAKEN);
    var mustWait := NeighborsStarvationWait(env, id);
    if mustWait {
      assert LogAppendAll(c, Repeat(ev, 0)) == c;
      return true;
    }
    var taken := TakeForks(env, id, t0);
    if taken < 2 {
      return true;
    }
    BothTakenOnlyIfFree(o, id);
    TakeThenPutRestores(o, id);
    assert Repeat(ev, 2) == [ev, ev];
    return false;
  }

  /**
   * One pass of routine's loop body: draw a ticket at t0, take both forks,
   * eat from t1, put the forks down and give the ticket back at t2, wake and
   * think at t3. Where the thread would wait (on its neighbours' tickets or
   * on a fork) the pass stops and reports `blocked`.
   */
  method EatCycle(env: Env, id: int, t0: int, t1: int, t2: int, t3: int) returns (blocked: bool)
    requires env.Valid() && 0 <= id < env.numPhilo
    modifies env`ticketCounter, env.ticketNums, env.forks.owner, env.philos, env.log`count, env.log.entries
    ensures env.Valid()
    ensures env.ticketCounter == old(env.ticketCounter) + 1
    ensures blocked == WouldBlock(old(env.ticketNums[..]), old(env.ticketCounter), old(env.forks.owner[..]), id)
    ensures blocked ==>
      && env.philos[..] == old(env.philos[..])
      && env.ticketNums[..] == old(env.ticketNums[..])[id := old(env.ticketCounter)]
      && env.forks.owner[..] == TakeOutcome(old(env.ticketNums[..]), old(env.ticketCounter), old(env.forks.owner[..]), id).1
      && env.log.Contents() == LogAppendAll(old(env.log.Contents()), Repeat(Event(env.startTime, t0, id, TAKEN),
           TakeOutcome(old(env.ticketNums[..]), old(env.ticketCounter), old(env.forks.owner[..]), id).0))
    ensures !blocked ==>
      && env.numPhilo >= 2
      && env.forks.owner[..] == old(env.forks.owner[..])
      && env.ticketNums[..] == old(env.ticketNums[..])[id := HIGH_SENTINEL]
      && env.philos[..] == old(env.philos[..])[id := Fed(old(env.philos[id]), t1)]
      && env.log.Contents() == LogAppendAll(old(env.log.Contents()), CycleLog(env.startTime, id, t0, t1, t2, t3))
  {
    ghost var o := env.forks.owner[..];
    ghost var c := env.log.Contents();
    blocked := GetForks(env, id, t0);
    if blocked {
      return;
    }
    Meal(env, id, t1, t2, t3);
    PutUndoesTake(o, id);
    CycleLogSplits(c, env.startTime, id, t0, t1, t2, t3);
    UpdateTwice(old(env.ticketNums[..]), id, old(env.ticketCounter), HIGH_SENTINEL);
  }
}
