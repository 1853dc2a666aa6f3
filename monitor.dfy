// The monitor thread of philo/monitor.c. One pass of its outer loop scans
// the philosophers in index order: the first one that has gone hungry for
// longer than the death time is reported dead and ends the simulation;
// otherwise, with a meal limit, the simulation ends once everyone has eaten
// enough. The clock is the parameter `now`.
module Monitor {
  import opened PhiloConsts
  import opened Logging
  import opened Environment
  import opened Routine

  const DIED: seq<char> := "died"

  /** A philosopher whose last meal began more than `dieTime` ago is dead (strictly more). */
  predicate IsDead(now: int, lastMeal: int, dieTime: int) {
    now - lastMeal > dieTime
  }

  /** A philosopher is full only when there is a limit and it has eaten that many meals. */
  predicate IsFull(meals: int, mealsLimit: int) {
    mealsLimit != -1 && meals >= mealsLimit
  }

  /** The lowest index of a dead philosopher, if any. */
  function FirstDead(ps: seq<Philo>, now: int, dieTime: int): (r: Option<nat>)
    ensures r.Some? ==> r.value < |ps| && IsDead(now, ps[r.value].lastMeal, dieTime)
    ensures r.Some? ==> forall j :: 0 <= j < r.value ==> !IsDead(now, ps[j].lastMeal, dieTime)
    ensures r.None? <==> forall j :: 0 <= j < |ps| ==> !IsDead(now, ps[j].lastMeal, dieTime)
  {
    if ps == [] then None
    else
      var r := FirstDead(ps[..|ps| - 1], now, dieTime);
      if r.Some? then r
      else if IsDead(now, ps[|ps| - 1].lastMeal, dieTime) then Some(|ps| - 1)
      else None
  }

  /** How many philosophers are full. */
  function FullCount(ps: seq<Philo>, mealsLimit: int): (k: nat)
    ensures k <= |ps|
    ensures mealsLimit == -1 ==> k == 0
  {
    if ps == [] then 0
    else FullCount(ps[..|ps| - 1], mealsLimit) + if IsFull(ps[|ps| - 1].meals, mealsLimit) then 1 else 0
  }

  /** Everyone is counted full exactly when everyone is full. */
  lemma {:induction false} FullCountAll(ps: seq<Philo>, mealsLimit: int)
    ensures FullCount(ps, mealsLimit) == |ps| <==> forall j :: 0 <= j < |ps| ==> IsFull(ps[j].meals, mealsLimit)
  {
    if ps != [] {
      var init := ps[..|ps| - 1];
      FullCountAll(init, mealsLimit);
      assert forall j :: 0 <= j < |init| ==> init[j] == ps[j];
    }
  }

  /** What one scan of the monitor finds. */
  datatype Verdict = Died(index: nat) | AllFull | Running

  /**
   * The scan's verdict: the first dead philosopher, else "all full" when a
   * meal limit is set and every philosopher reached it, else nothing.
   */
  function Scan(ps: seq<Philo>, now: int, dieTime: int, mealsLimit: int): (v: Verdict)
    ensures v.Died? ==> v.index < |ps|
  {
    match FirstDead(ps, now, dieTime)
    case Some(i) => Died(i)
    case None => if mealsLimit != -1 && FullCount(ps, mealsLimit) == |ps| then AllFull else Running
  }

  /**
   * The verdict in plain terms: a death is the lowest dead index; the table
   * is "all full" only when nobody is dead, a limit is set and everybody
   * reached it; without a limit only a death ends the simulation.
   */
  lemma ScanVerdict(ps: seq<Philo>, now: int, dieTime: int, mealsLimit: int)
    ensures forall i :: 0 <= i < |ps| ==>
      (Scan(ps, now, dieTime, mealsLimit) == Died(i) <==>
        IsDead(now, ps[i].lastMeal, dieTime) && forall j :: 0 <= j < i ==> !IsDead(now, ps[j].lastMeal, dieTime))
    ensures Scan(ps, now, dieTime, mealsLimit) == AllFull <==>
      && (forall j :: 0 <= j < |ps| ==> !IsDead(now, ps[j].lastMeal, dieTime))
      && mealsLimit != -1
      && (forall j :: 0 <= j < |ps| ==> IsFull(ps[j].meals, mealsLimit))
    ensures mealsLimit == -1 ==> !Scan(ps, now, dieTime, mealsLimit).AllFull?
  {
    FullCountAll(ps, mealsLimit);
  }

  /**
   * A philosopher leaves its loop (with the simulation still running)
   * exactly when the monitor counts it full.
   */
  lemma LeavesLoopWhenFull(mealsLimit: int, meals: int)
    ensures KeepsEating(false, mealsLimit, meals) <==> !IsFull(meals, mealsLimit)
  {
  }

  /**
   * One pass of monitor's outer loop at time `now`. Returns whether the
   * loop stops: it stops when `ended` was already set, when it finds a dead
   * philosopher (announced once, 1-based, straight on standard output), or
   * when every philosopher is full. `ended` is only ever set, never cleared.
   */
  method MonitorPass(env: Env, now: int) returns (stop: bool)
    requires env.philos.Length == env.numPhilo
    modifies env`ended, env`output
    ensures stop == env.ended
    ensures env.ended == (old(env.ended) || !Scan(env.philos[..], now, env.dieTime, env.mealsLimit).Running?)
    ensures env.output == if !old(env.ended) && Scan(env.philos[..], now, env.dieTime, env.mealsLimit).Died?
      then old(env.output) + [Record(now - env.startTime, Scan(env.philos[..], now, env.dieTime, env.mealsLimit).index + 1, DIED)]
      else old(env.output)
  {
    if env.ended {
      return true;
    }
    var full := 0;
    var i := 0;
    while i < env.numPhilo
      invariant 0 <= i <= env.numPhilo
      invariant FirstDead(env.philos[..i], now, env.dieTime) == None
      invariant full == FullCount(env.philos[..i], env.mealsLimit)
      invariant !env.ended && env.output == old(env.output)
    {
      var timeSinceMeal := now - env.philos[i].lastMeal;
      var mcount := env.philos[i].meals;
      if timeSinceMeal > env.dieTime {
        if !env.ended {
          env.ended := true;
          env.output := env.output + [Record(now - env.startTime, i + 1, DIED)];
        }
        FirstDeadAt(env.philos[..], now, env.dieTime, i);
        return true;
      }
      if env.mealsLimit != -1 && mcount >= env.mealsLimit {
        full := full + 1;
      }
      assert env.philos[..i + 1][..i] == env.philos[..i];
      i := i + 1;
    }
    assert env.philos[..i] == env.philos[..];
    if env.mealsLimit != -1 && full == env.numPhilo {
      env.ended := true;
    }
    stop := env.ended;
  }

  /** The scan stops at `i` when nobody before it is dead and it is. */
  lemma FirstDeadAt(ps: seq<Philo>, now: int, dieTime: int, i: nat)
    requires i < |ps| && FirstDead(ps[..i], now, dieTime) == None && IsDead(now, ps[i].lastMeal, dieTime)
    ensures FirstDead(ps, now, dieTime) == Some(i)
  {
    assert forall j :: 0 <= j < i ==> ps[..i][j] == ps[j];
  }
}
