// The shared simulation state t_env of philo/philo.h and its set-up in
// philo/init_env.c and philo/setup_philos.c, plus one pass of the log
// flusher thread of philo/log_flusher.c, which reads the `ended` flag.
module Environment {
  import opened PhiloConsts
  import opened Utils
  import opened Forks
  import opened Logging

  /** One t_philo: its 0-based id, meals eaten, time of its last meal and its environment. */
  datatype Philo = Philo(id: int, meals: int, lastMeal: int, env: Env?)

  /** The five numbers init_env reads from the command line. */
  datatype Config = Config(numPhilo: int, dieTime: int, eatTime: int, sleepTime: int, mealsLimit: int)

  /** What init_env makes of the arguments: ft_atoi of each, -1 when no meal limit is given. */
  function ParseConfig(ac: int, av: seq<seq<char>>): (c: Config)
    requires 5 <= |av| && forall i :: 1 <= i < 5 ==> Terminated(av[i])
    requires ac == 6 ==> 6 <= |av| && Terminated(av[5])
    ensures ac != 6 ==> c.mealsLimit == -1
  {
    Config(AtoiValue(av[1]), AtoiValue(av[2]), AtoiValue(av[3]), AtoiValue(av[4]),
      if ac == 6 then AtoiValue(av[5]) else -1)
  }

  class Env {
    var numPhilo: int
    var dieTime: int
    var eatTime: int
    var sleepTime: int
    /** The number of meals each philosopher must eat, or -1 for no limit. */
    var mealsLimit: int
    var ended: bool
    var startTime: int
    var forks: ForkTable
    var philos: array<Philo>
    var ticketNums: array<int>
    var ticketCounter: int
    var log: LogBuffer
    /** Every line written to standard output, in order. */
    ghost var output: seq<Record>

    /** The configuration fields. */
    function Settings(): Config
      reads this
    {
      Config(numPhilo, dieTime, eatTime, sleepTime, mealsLimit)
    }

    /**
     * The arrays hold one slot per philosopher, the fork table and the log
     * buffer are consistent, and every ticket is either the sentinel or one
     * the counter has already handed out.
     */
    ghost predicate Valid()
      reads this, forks, forks.owner, log, log.entries, philos, ticketNums
    {
      && forks.owner.Length == numPhilo
      && philos.Length == numPhilo
      && ticketNums.Length == numPhilo
      && forks.owner != ticketNums
      && log.Valid()
      && 0 <= ticketCounter
      && forall i :: 0 <= i < numPhilo ==> ticketNums[i] == HIGH_SENTINEL || 0 <= ticketNums[i] < ticketCounter
    }

    /** The environment as main allocates it, before init_env has run. */
    constructor ()
      ensures fresh(forks) && fresh(forks.owner) && fresh(log) && fresh(log.entries)
      ensures log.Valid() && log.count == 0
      ensures output == []
    {
      numPhilo, dieTime, eatTime, sleepTime, mealsLimit := 0, 0, 0, 0, 0;
      ended, startTime, ticketCounter := false, 0, 0;
      forks := new ForkTable.Allocate(0);
      philos := new Philo[0];
      ticketNums := new int[0];
      log := new LogBuffer();
      output := [];
    }

    /**
     * init_env: reads the four (or five) numeric arguments, allocates the
     * arrays, empties the log buffer, releases every fork, marks every
     * philosopher as not hungry and starts the clock. The four allocation
     * outcomes are parameters.
     */
    method Init(ac: int, av: seq<seq<char>>, forksOk: bool, philosOk: bool, condsOk: bool,
                ticketsOk: bool, now: int) returns (status: int)
      requires 5 <= |av| && forall i :: 1 <= i < 5 ==> Terminated(av[i])
      requires ac == 6 ==> 6 <= |av| && Terminated(av[5])
      requires log.entries.Length == LOG_BUFFER_SIZE
      modifies this, log
      ensures Settings() == ParseConfig(ac, av)
      ensures output == old(output)
      ensures status == EXIT_SUCCESS || status == EXIT_FAILURE
      ensures status == EXIT_SUCCESS <==> forksOk && philosOk && condsOk && ticketsOk && numPhilo >= 0
      ensures status == EXIT_SUCCESS ==>
        Started(now) && fresh(forks) && fresh(forks.owner) && fresh(philos) && fresh(ticketNums)
    {
      ReadConfig(ac, av);
      status := AllocMem(forksOk, philosOk, condsOk, ticketsOk);
      if status == EXIT_FAILURE {
        return;
      }
      Prepare(now);
    }

    /**
     * The state init_env leaves on success: consistent, every fork free,
     * nobody hungry, the log empty, no ticket issued, running since `now`.
     */
    ghost predicate Started(now: int)
      reads this, forks, forks.owner, log, log.entries, philos, ticketNums
    {
      && Valid()
      && (forall f :: 0 <= f < numPhilo ==> forks.owner[f] == FREE)
      && (forall i :: 0 <= i < numPhilo ==> ticketNums[i] == HIGH_SENTINEL)
      && log.Contents() == [] && ticketCounter == 0 && !ended && startTime == now
    }

    /** The rest of init_env once the arrays exist: empty log, mutexes, tickets, clock. */
    method Prepare(now: int)
      requires forks.owner.Length == numPhilo && philos.Length == numPhilo && ticketNums.Length == numPhilo
      requires forks.owner != ticketNums && log.entries.Length == LOG_BUFFER_SIZE
      modifies log`count, forks.owner, ticketNums, this`ticketCounter, this`ended, this`startTime
      ensures Started(now) && Settings() == old(Settings())
    {
      log.Reset();
      InitMutexes();
      Start(now);
    }

    /** The first lines of init_env: the configuration, with -1 standing for no meal limit. */
    method ReadConfig(ac: int, av: seq<seq<char>>)
      requires 5 <= |av| && forall i :: 1 <= i < 5 ==> Terminated(av[i])
      requires ac == 6 ==> 6 <= |av| && Terminated(av[5])
      modifies this`numPhilo, this`dieTime, this`eatTime, this`sleepTime, this`mealsLimit
      ensures Settings() == ParseConfig(ac, av)
    {
      numPhilo := Atoi(av[1]);
      dieTime := Atoi(av[2]);
      eatTime := Atoi(av[3]);
      sleepTime := Atoi(av[4]);
      if ac == 6 {
        mealsLimit := Atoi(av[5]);
      } else {
        mealsLimit := -1;
      }
    }

    /**
     * alloc_mem: fails when any of the four arrays could not be allocated;
     * a negative count asks for an impossible size and fails as well.
     */
    method AllocMem(forksOk: bool, philosOk: bool, condsOk: bool, ticketsOk: bool) returns (status: int)
      modifies this`forks, this`philos, this`ticketNums
      ensures Settings() == old(Settings())
      ensures status == EXIT_SUCCESS || status == EXIT_FAILURE
      ensures status == EXIT_SUCCESS <==> forksOk && philosOk && condsOk && ticketsOk && numPhilo >= 0
      ensures status == EXIT_SUCCESS ==>
        && fresh(forks) && fresh(forks.owner) && fresh(philos) && fresh(ticketNums)
        && forks.owner.Length == numPhilo && philos.Length == numPhilo && ticketNums.Length == numPhilo
        && forks.owner != ticketNums
    {
      if !forksOk || !philosOk || !condsOk || !ticketsOk || numPhilo < 0 {
        return EXIT_FAILURE;
      }
      forks := new ForkTable.Allocate(numPhilo);
      philos := new Philo[numPhilo](_ => Philo(0, 0, 0, null));
      ticketNums := new int[numPhilo];
      return EXIT_SUCCESS;
    }

    /** The end of init_env: no ticket issued yet, the simulation running, the clock started. */
    method Start(now: int)
      requires forks.owner.Length == numPhilo && philos.Length == numPhilo && ticketNums.Length == numPhilo
      requires forks.owner != ticketNums && log.Valid()
      requires forall i :: 0 <= i < numPhilo ==> ticketNums[i] == HIGH_SENTINEL
      modifies this`ticketCounter, this`ended, this`startTime
      ensures Valid() && ticketCounter == 0 && !ended && startTime == now
    {
      ticketCounter := 0;
      ended := false;
      startTime := now;
    }

    /** The per-philosopher loop of init_mutexes: each fork unlocked, each ticket the sentinel. */
    method InitMutexes()
      requires forks.owner.Length == numPhilo && ticketNums.Length == numPhilo
      requires forks.owner != ticketNums
      modifies forks.owner, ticketNums
      ensures forall f :: 0 <= f < numPhilo ==> forks.owner[f] == FREE
      ensures forall i :: 0 <= i < numPhilo ==> ticketNums[i] == HIGH_SENTINEL
    {
      var i := 0;
      while i < numPhilo
        invariant 0 <= i <= numPhilo
        invariant forall f :: 0 <= f < i ==> forks.owner[f] == FREE
        invariant forall k :: 0 <= k < i ==> ticketNums[k] == HIGH_SENTINEL
      {
        forks.InitFork(i);
        ticketNums[i] := HIGH_SENTINEL;
        i := i + 1;
      }
    }

    /** After setup_philos: philosopher `i` has id `i`, no meals, and last ate at the start. */
    ghost predicate Ready()
      reads this, forks, forks.owner, log, log.entries, philos, ticketNums
    {
      && Valid()
      && forall i :: 0 <= i < numPhilo ==> philos[i].id == i && philos[i].env == this
    }

    /** setup_philos: writes every philosopher slot and nothing else. */
    method SetupPhilos()
      requires Valid()
      modifies philos
      ensures Ready()
      ensures forall i :: 0 <= i < numPhilo ==> philos[i] == Philo(i, 0, startTime, this)
      ensures forall i, j :: 0 <= i < j < numPhilo ==> philos[i].id != philos[j].id
    {
      var i := 0;
      while i < numPhilo
        invariant 0 <= i <= numPhilo
        invariant forall k :: 0 <= k < i ==> philos[k] == Philo(k, 0, startTime, this)
      {
        philos[i] := Philo(i, 0, startTime, this);
        i := i + 1;
      }
    }

    /**
     * One pass of the log_flusher loop: while the simulation runs or lines
     * are buffered, print every buffered line in order and empty the buffer.
     * The flusher stops only once `ended` is set and nothing is buffered.
     */
    method FlusherPass() returns (running: bool)
      requires Valid()
      modifies log`count, this`output
      ensures Valid()
      ensures running == FlusherRuns(ended, old(log.count))
      ensures running ==> output == old(output) + old(log.Contents()) && log.count == 0
      ensures !running ==> ended && old(log.count) == 0 && output == old(output) && log.count == 0
    {
      running := FlusherRuns(ended, log.count);
      if running {
        var printed := log.Flush();
        output := output + printed;
      }
    }
  }
}
