# Dining philosophers: a Dafny model of the sequential rules

The program is a pthreads dining-philosophers simulation. N philosophers sit at a
round table with one fork between each pair of neighbours. Each philosopher
thread repeatedly:

1. draws a ticket from a shared counter;
2. takes its two forks, in an order set by the parity of its id;
3. eats and then puts the forks down;
4. gives its ticket back;
5. sleeps and thinks.

A monitor thread watches for a philosopher that has gone without food for
longer than the death time, or for everybody having eaten enough meals. A
flusher thread prints the status lines that the philosophers leave in a
bounded log buffer.

This project models every such rule as an atomic step on explicit state.
Time is a parameter (`now`, `t0` … `t3`). A lock or wait that would block is
reported as a result instead of waited on. Nothing of the scheduling between
threads is modelled.

Modules, one per part of the program:

- `PhiloConsts` (philo/philo.h): `HIGH_SENTINEL`, `THRESH`, `LOG_BUFFER_SIZE`,
  the 32-character status size, and the exit codes of `<stdlib.h>`.
- `Utils` (philo/utils.c): C strings as character buffers holding a NUL, plus
  `ft_strlen`, `ft_isspace`, `ft_isdigit`, `ft_atoi` and `ft_strncpy`.
  - `AtoiValue` is the reference definition that the pointer-walking `Atoi`
    method is proved against.
  - A round-trip lemma: a rendered number parses back to itself.
- `ValidateArgs` (philo/validate_args.c): `validate_args` as a method with
  nested loops, proved equal to the predicate `ArgsValid`, plus its edge cases.
- `Ring` (philo/philo_routin.c, philo/philo.c): the fork and neighbour
  arithmetic and the parity acquisition order.
  - A rank on forks that every philosopher acquires in increasing order.
  - From that rank, a proof that no cycle of philosophers can each wait on a
    fork the next one holds, for two or more philosophers.
- `Forks`: the fork mutexes as a `ForkTable` class over an owner array.
  - `TakeSpec` and `PutSpec` state what `take_forks` and `put_forks` do to
    that array.
  - Lemmas: ownership is respected, and taking then putting restores the
    table.
- `Tickets` (philo/philo.c): the neighbour-starvation wait predicate.
  - A neighbour holding the sentinel never causes a wait.
  - The holder of the oldest ticket never waits.
- `Logging` (philo/log_flusher.c, philo/philo.h): the `LogBuffer` class.
  - `buffered_print` appends while there is room and drops otherwise,
    truncating the status to 31 characters through `ft_strncpy`.
  - The flusher's drain prints the entries in order and empties the buffer.
  - `LogAppend` and `LogAppendAll` specify runs of appends.
- `Environment` (philo/init_env.c, philo/setup_philos.c, philo/log_flusher.c):
  the shared `Env` class, with `init_env`, `alloc_mem`, the ticket loop of
  `init_mutexes`, `setup_philos` and one pass of `log_flusher`. Standard
  output is the ghost sequence `output`.
- `Routine` (philo/philo.c, philo/philo_routin.c, philo/log_flusher.c): the
  philosopher's steps.
  - The two versions of `print_status`.
  - `take_forks`, `put_forks`, `neighbors_starvation_wait` and `done_eating`.
  - The start-up stagger and the loop condition.
  - `EatCycle`, one complete pass of the loop body, composed from the steps.
- `Monitor` (philo/monitor.c): one pass of the monitor's scan.
  - Specified by `FirstDead`, `FullCount` and `Scan`.
  - The pass sets `ended` and prints "died" exactly as the scan's verdict
    says.

Where the documentation of the program and its code differ, the model
follows the code:

- `ft_atoi` accepts one leading '+' or '-', but `validate_args` rejects any
  argument holding a sign (`+4`, `-4`), since it requires digits only.
- `validate_args` accepts an empty argument after the first: its digit loop
  never runs on it, and `ft_atoi` later reads it as 0.
- The buffered `print_status` (philo/log_flusher.c) does not look at `ended`.
  Only the direct version in philo/philo.c suppresses output after the end.
- `main` never calls `validate_args`. It checks only the argument count
  before `init_env` parses the numbers. `main` is not part of this model.

## Model

| member | source | states |
|---|---|---|
| `Utils.IsSpace` | philo/utils.c:84-88 | the six C whitespace characters; none is a digit, a sign or NUL (`CharClasses`) |
| `Utils.IsDigit` | philo/utils.c:98-101 | '0' to '9' exactly (`CharClasses`); the same test as validate_args.c's ft_isdigit |
| `Utils.CLen` | philo/utils.c:50-58 | the length of a C string is the index of the first NUL: a NUL is there and none comes before |
| `Utils.StrLen` | philo/utils.c:50-58 | ft_strlen's loop stops at the first NUL of the buffer |
| `Utils.CharClasses` | philo/utils.c:84-101 | whitespace is not a digit, a sign or NUL, and a digit is not a sign or NUL |
| `Utils.SkipSpaces` | philo/utils.c:121-122 | the first non-whitespace index; every character skipped is whitespace, and the scan stays inside the string |
| `Utils.DigitsEnd` | philo/utils.c:130-134 | the end of the maximal run of digits; every character in the run is a digit and the first after it is not |
| `Utils.SignEnd` | philo/utils.c:123-129 | at most one '-' or '+' is consumed, and never past the terminator |
| `Utils.AtoiValue` | philo/utils.c:114-136 | the value ft_atoi computes: blanks skipped, one optional sign, the maximal digit run as an unbounded integer; 0 without digits (`AtoiWithoutDigits`), the round trip `AtoiOfRendered` |
| `Utils.Atoi` | philo/utils.c:114-136 | ft_atoi returns sign times the decimal value of the maximal digit run after leading blanks and one optional sign |
| `Utils.SkipSpacesLoop` | philo/utils.c:121-122 | the whitespace loop stops where `SkipSpaces` says |
| `Utils.DigitsLoop` | philo/utils.c:130-134 | the digit loop accumulates the decimal value of exactly the maximal digit run |
| `Utils.DecimalValueStep` | philo/utils.c:132 | reading one more digit multiplies the value so far by ten and adds the digit |
| `Utils.AtoiWithoutDigits` | philo/utils.c:119-135 | with no digit after the optional sign ("", "+", "-x") the result is 0 |
| `Utils.AtoiOfDigits` | philo/utils.c:114-136 | on a string of digits only, ft_atoi is its decimal value |
| `Utils.AtoiOfRendered` | philo/utils.c:114-136 | round trip: blanks, a sign, the decimal digits of n and a non-digit tail parse back to n (or -n after '-') |
| `Utils.CopyOf` | philo/utils.c:28-39 | the string ft_strncpy leaves is empty for a null source, and otherwise the first min(n, strlen(src)) characters of src |
| `Utils.StrNCopy` | philo/utils.c:28-39 | copies src[0..k) with k = min(n, strlen(src)), writes a NUL at k and no index beyond it; dest then holds `CopyOf(src, n)` |
| `ValidateArgs.ArgsValid` | philo/validate_args.c:44-55 | the acceptance condition: 4 or 5 arguments, av[1] non-empty and parsing to at least 1, every argument digits only; `Validate` is proved equal to it |
| `ValidateArgs.Validate` | philo/validate_args.c:39-59 | validate_args accepts exactly when there are 4 or 5 arguments, av[1] is non-empty and parses to at least 1, and every argument is all digits |
| `ValidateArgs.ValidArgsAreNumbers` | philo/validate_args.c:44-58 | accepted arguments parse to their plain decimal value, and the philosopher count is at least 1 |
| `ValidateArgs.NonDigitRejected` | philo/validate_args.c:47-55 | any non-digit (a sign, a space) in any argument makes the check fail |
| `ValidateArgs.OnlyArgumentsRead` | philo/validate_args.c:44-57 | the verdict depends only on av[1..ac-1]; av[0] and entries from ac on are never read |
| `ValidateArgs.ZeroCountRejected` | philo/validate_args.c:44 | with 4 or 5 arguments, "0" as the philosopher count parses to 0 and is rejected |
| `ValidateArgs.EmptyLaterArgAccepted` | philo/validate_args.c:50-55 | emptying any argument av[i], 2 ≤ i < ac, of an accepted vector keeps it accepted, since the digit loop never runs |
| `ValidateArgs.SignedCountRejected` | philo/validate_args.c:44-55 | with 4 or 5 arguments, "+4" parses to 4 (passing the ft_atoi test) but is still rejected by the digit check |
| `Ring.LeftFork` | philo/philo_routin.c:57 | the left fork of philosopher id is fork id, shared with its left neighbour (`ForkUsers`) |
| `Ring.RightFork` | philo/philo_routin.c:57-58 | the right fork is the one shared with the right neighbour and lies in [0, N) |
| `Ring.LeftNeighbour` | philo/philo.c:70 | the left neighbour lies in [0, N) |
| `Ring.RightNeighbour` | philo/philo.c:71 | the right neighbour lies in [0, N) |
| `Ring.RightForkIsMod` | philo/philo_routin.c:58 | the right fork and the right neighbour both equal (id + 1) % N |
| `Ring.LeftNeighbourIsMod` | philo/philo.c:70 | the left neighbour equals (id + N - 1) % N |
| `Ring.FirstFork` | philo/philo_routin.c:59-69 | the fork locked first is on the table and is one of the philosopher's two: the left one for even ids, the right one for odd ids |
| `Ring.SecondFork` | philo/philo_routin.c:59-70 | the fork locked second is on the table and is one of the philosopher's two; with N ≥ 2 it differs from the first, and it is the right fork exactly for even ids |
| `Ring.ForkPair` | philo/philo_routin.c:57-72 | both forks lie on the table; they differ when N ≥ 2 and are both fork 0 when N = 1; first and second fork are the left and right fork in some order |
| `Ring.NeighboursInverse` | philo/philo.c:70-71 | stepping left then right, or right then left, returns to the same philosopher |
| `Ring.ForkUsers` | philo/philo_routin.c:57-58 | fork f is used by exactly philosopher f and its left neighbour |
| `Ring.AcquireInRankOrder` | philo/philo_routin.c:42-72 | with N ≥ 2 every philosopher takes its forks in strictly increasing rank |
| `Ring.EvenRingParity` | philo/philo_routin.c:59-72 | with an even N, every first fork is even and every second fork odd |
| `Ring.NoWaitCycle` | philo/philo_routin.c:42-72 | with N ≥ 2 there is no cycle of philosophers each waiting on a fork the next one holds first (no circular wait) |
| `Forks.TakeSpec` | philo/philo_routin.c:57-72 | take_forks on the owner table takes at most two forks, takes none and changes nothing exactly when the first fork is held, and keeps the table's size |
| `Forks.PutSpec` | philo/philo_routin.c:84-85 | put_forks leaves both of the philosopher's forks free and keeps the table's size |
| `Forks.TakeRespectsHolders` | philo/philo_routin.c:59-72 | take_forks never takes a held fork, touches only the taker's two forks, keeps every fork held by one of its users, and leaves the taken forks owned by the taker |
| `Forks.PutKeepsOwners` | philo/philo_routin.c:84-85 | put_forks keeps every fork held by one of its users and changes no other fork |
| `Forks.TakeThenPutRestores` | philo/philo_routin.c:57-85 | with N ≥ 2 and both forks free, take_forks takes both and put_forks releases exactly them, restoring the table |
| `Forks.PutUndoesTake` | philo/philo_routin.c:84-85 | releasing both forks after they were taken from free gives back the original table |
| `Forks.BothTakenOnlyIfFree` | philo/philo_routin.c:59-72 | a philosopher ends up with two forks only when N ≥ 2 and both were free |
| `Forks.LoneTakesOneFork` | philo/philo_routin.c:57-64 | a lone philosopher takes fork 0 once and then blocks on the same fork |
| `Forks.ForkTable.Allocate` | philo/init_env.c:40 | the forks array holds one fresh slot per philosopher |
| `Forks.ForkTable.InitFork` | philo/init_env.c:30 | initialising a fork mutex leaves it unlocked and changes no other fork |
| `Forks.ForkTable.Lock` | philo/philo_routin.c:61 | locking succeeds exactly on a free fork, which then belongs to the caller; otherwise nothing changes |
| `Forks.ForkTable.Unlock` | philo/philo_routin.c:84 | the holder's unlock frees that fork and nothing else |
| `Tickets.MustWait` | philo/philo.c:75-76 | the wait-loop condition: the caller's ticket exceeds its left or right neighbour's by more than THRESH·N; characterised by `WaitOnlyForHungryNeighbour` |
| `Tickets.WaitOnlyForHungryNeighbour` | philo/philo.c:75-76 | the wait predicate holds exactly when a neighbour not holding the sentinel has a ticket more than THRESH·N older |
| `Tickets.OldestNeverWaits` | philo/philo.c:75-76 | the holder of the smallest ticket never waits |
| `Tickets.NotEveryoneWaits` | philo/philo.c:75-79 | whatever the tickets, some philosopher does not wait |
| `Tickets.LoneNeverWaits` | philo/philo.c:70-76 | a lone philosopher is its own neighbour and never waits |
| `Logging.Printed` | philo/log_flusher.c:51-54 | an entry prints with its timestamp and id, and its text is shorter than the 32-character buffer |
| `Logging.Records` | philo/log_flusher.c:49-56 | a run of entries prints one line per entry |
| `Logging.RecordsAt` | philo/log_flusher.c:49-56 | line k printed is entry k's line: the flush keeps index order |
| `Logging.StatusText` | philo/log_flusher.c:22-23 | the stored status has at most 31 characters |
| `Logging.StatusTextIsCopy` | philo/log_flusher.c:22-23 | the truncation rule is exactly what ft_strncpy with bound 31 leaves |
| `Logging.LogAppend` | philo/log_flusher.c:18-25 | one buffered_print either appends the line or leaves the lines unchanged, and never takes the buffer past LOG_BUFFER_SIZE |
| `Logging.LogAppendAll` | philo/log_flusher.c:18-25 | a run of buffered_print calls, one LogAppend per line in order; `LogAppendAllKeepsEarliest` and `LogAppendAllConcat` state what it keeps |
| `Logging.LogAppendAllConcat` | philo/log_flusher.c:18-25 | appending one run of lines after another is the same as appending the two runs joined |
| `Logging.LogAppendAllKeepsEarliest` | philo/log_flusher.c:18-25 | a run of buffered_print calls keeps what was buffered, adds the earliest lines that fit, drops the rest, and never exceeds LOG_BUFFER_SIZE |
| `Logging.LogAppendAllFitsOrDrops` | philo/log_flusher.c:18 | with enough room every line is kept; on a full buffer every line is dropped |
| `Logging.LogBuffer.Contents` | philo/philo.h:25-30 | the buffered lines number exactly `count`, at most LOG_BUFFER_SIZE |
| `Logging.LogBuffer.constructor` | philo/philo.h:25-30 | a new buffer has LOG_BUFFER_SIZE slots and no entries |
| `Logging.LogBuffer.Reset` | philo/init_env.c:57-62 | init_log_buffer empties the buffer |
| `Logging.LogBuffer.BufferedPrint` | philo/log_flusher.c:15-27 | with room, the entry goes in at index count and count grows by one; when full, nothing changes; earlier entries are untouched; the status is cut to 31 characters |
| `Logging.LogBuffer.Flush` | philo/log_flusher.c:47-58 | the drain prints the entries 0..count-1 in index order and then sets count to 0 |
| `Logging.CopyStatus` | philo/log_flusher.c:22-23 | after ft_strncpy and the forced final NUL, the entry's status buffer holds the status cut to 31 characters |
| `Environment.Env.constructor` | philo/philo.h:42-60 | a new environment owns a fresh, empty log buffer and has printed nothing |
| `Environment.ParseConfig` | philo/init_env.c:68-75 | the configuration is ft_atoi of the arguments, and there is no meal limit (-1) unless ac is 6 |
| `Environment.Env.Init` | philo/init_env.c:64-86 | the configuration is ft_atoi of av[1..4], with meals_limit ft_atoi(av[5]) or -1; success exactly when the four allocations succeed and the count is not negative; on success every fork is free, every ticket is the sentinel, the log is empty, the counter is 0, ended is false and the clock starts at `now`; nothing is printed |
| `Environment.Env.ReadConfig` | philo/init_env.c:68-75 | num_philo, die_time, eat_time and sleep_time are ft_atoi of av[1..4]; meals_limit is ft_atoi(av[5]) when ac == 6 and -1 otherwise |
| `Environment.Env.AllocMem` | philo/init_env.c:38-55 | alloc_mem fails when any of the four allocations fails; on success the arrays are fresh, one slot per philosopher; the configuration is unchanged |
| `Environment.Env.Prepare` | philo/init_env.c:78-84 | after the arrays exist, init_env leaves every fork free, every ticket the sentinel, the log empty, the counter 0 and ended false |
| `Environment.Env.Start` | philo/init_env.c:82-84 | the ticket counter starts at 0, ended at false and the clock at `now` |
| `Environment.Env.InitMutexes` | philo/init_env.c:27-35 | after the loop every fork is unlocked and every ticket is HIGH_SENTINEL |
| `Environment.Env.SetupPhilos` | philo/setup_philos.c:15-28 | philosopher i gets id i, no meals, last meal at the start time and the environment; ids are distinct; only the philosophers array changes |
| `Logging.FlusherRuns` | philo/log_flusher.c:45 | the flusher's loop condition: the simulation has not ended or lines are still buffered; `FlusherPass` stops exactly when it fails |
| `Environment.Env.FlusherPass` | philo/log_flusher.c:45-60 | the flusher runs while the simulation runs or lines are buffered; a pass prints the buffered lines in order and empties the buffer; it stops only after ended is set and the buffer is empty |
| `Routine.Event` | philo/log_flusher.c:34-35 | a status line carries now - start_time and the 1-based id p->id + 1, with a text shorter than 32 characters |
| `Routine.PrintStatus` | philo/log_flusher.c:30-36 | print_status appends (or drops, when full) the line for `now` to the log buffer |
| `Routine.PrintStatusDirect` | philo/philo.c:20-26 | the direct print_status emits nothing once ended is set and exactly one line otherwise |
| `Routine.TakeForks` | philo/philo_routin.c:52-73 | take_forks changes the fork table as `TakeSpec` says, and logs one "has taken a fork" line per fork actually taken |
| `Routine.LockAndLog` | philo/philo_routin.c:61-62 | a "has taken a fork" line is logged exactly when the lock succeeds |
| `Routine.PutForks` | philo/philo_routin.c:82-86 | put_forks releases the left fork and then the right one, as `PutSpec` says |
| `Routine.NeighborsStarvationWait` | philo/philo.c:63-81 | the caller's ticket becomes the old counter, the counter grows by exactly one, the new ticket is newer than every other issued ticket, and the result is the wait predicate on the new tickets |
| `Routine.DoneEating` | philo/philo.c:88-102 | only the caller's ticket changes, to HIGH_SENTINEL; the counter is untouched |
| `Routine.Stagger` | philo/philo.c:112-126 | with odd N, philosopher 0 thinks for 2·eat_time and odd ids for eat_time; with even N, odd ids think for eat_time and even ids start at once; exactly the staggered ones log "is thinking" |
| `Routine.Staggered` | philo/philo.c:112-126 | the philosophers that think before their first meal: odd ids, and id 0 when N is odd; `Stagger` logs "is thinking" exactly for them |
| `Routine.StaggerSeparatesNeighbours` | philo/philo.c:112-126 | with N ≥ 2, both neighbours of a philosopher that starts at once think first |
| `Routine.EvenStaggerFollowsForkOrder` | philo/philo.c:122-126 | with even N, exactly the philosophers taking their left fork first start at once |
| `Routine.KeepsEating` | philo/philo.c:128-129 | the loop condition: not ended, and either no limit or fewer meals than the limit; `LeavesLoopWhenFull` and `LoopStopIsFinal` state its meaning |
| `Routine.LoopStopIsFinal` | philo/philo.c:128-129 | once the loop condition fails it stays false as meals grow and ended stays set; without a limit only ended stops the loop |
| `Routine.StartMeal` | philo/philo.c:134-138 | last_meal becomes `now` and "is eating" is logged; nothing else changes |
| `Routine.FinishMeal` | philo/philo.c:140-145 | meals grows by one, both forks are released, the ticket becomes the sentinel and "is sleeping" is logged |
| `Routine.Fed` | philo/philo.c:135-140 | the meal bookkeeping: one more meal and last_meal set to the meal's start; `FedInTwoSteps` shows the two separate updates give it |
| `Routine.Meal` | philo/philo.c:134-148 | a meal feeds the philosopher once, releases its forks, returns its ticket and logs eating, sleeping and thinking in that order |
| `Routine.FedInTwoSteps` | philo/philo.c:135-140 | stamping last_meal and then counting the meal updates the philosopher once, as `Fed` says |
| `Routine.WouldBlock` | philo/philo.c:131-132 | a pass blocks when the fresh ticket makes the philosopher wait or take_forks gets fewer than two forks; `TakeOutcome` takes two forks exactly when it does not hold |
| `Routine.TakeOutcome` | philo/philo.c:131-132 | the first half of a pass takes at most two forks, takes none and leaves the table when it has to wait for a neighbour, and takes two exactly when it does not block |
| `Routine.GetForks` | philo/philo.c:131-132 | a ticket is drawn, then the forks are taken; the pass is blocked exactly when the wait predicate holds or a fork is held; blocked on the tickets, no fork is taken and nothing logged; otherwise the table follows take_forks with one line per fork taken (0, 1 or 2); unblocked, both forks were free and now belong to the caller |
| `Routine.EatCycle` | philo/philo.c:128-149 | one pass of the loop: blocked exactly as `WouldBlock` says; blocked, the philosophers are unchanged, the ticket is drawn, and forks and log are as `TakeOutcome` says (a fork taken before blocking stays held, with its line logged); unblocked, N ≥ 2, the fork table is restored, only the caller's ticket changes (to the sentinel), the caller has one more meal with last_meal at t1, and the five lines are logged in order |
| `Monitor.IsDead` | philo/monitor.c:31-34 | a philosopher is dead when strictly more than die_time has passed since its last meal |
| `Monitor.IsFull` | philo/monitor.c:45-46 | a philosopher is full only under a set limit and with at least meals_limit meals |
| `Monitor.FirstDead` | philo/monitor.c:28-43 | the scan reports the lowest index whose time since its last meal is strictly more than die_time, and none exactly when nobody is dead |
| `Monitor.FullCount` | philo/monitor.c:45-46 | the full count never exceeds N and is 0 without a meal limit |
| `Monitor.FullCountAll` | philo/monitor.c:45-50 | everyone is counted full exactly when everyone has at least meals_limit meals under a set limit |
| `Monitor.Scan` | philo/monitor.c:26-50 | a reported death names a philosopher on the table |
| `Monitor.ScanVerdict` | philo/monitor.c:26-50 | death at i exactly when i is dead and nobody before it is; "all full" exactly when nobody is dead, a limit is set and everybody reached it; never "all full" without a limit |
| `Monitor.LeavesLoopWhenFull` | philo/monitor.c:45-46 | with the simulation running, a philosopher leaves its loop exactly when the monitor counts it full |
| `Monitor.MonitorPass` | philo/monitor.c:24-53 | ended is set by a death or by everyone being full, and never cleared; "died" with the 1-based id is printed once, only if ended was not already set; the pass stops exactly when ended is set |

## Left out

- Threads: creation, joining, the start barrier and the logger thread started by `init_env` (philo/init_env.c:81) are not modelled. Each rule is an atomic step, and no interleaving of steps is explored.
- Locks and condition variables:
  - Fork mutexes are modelled only as ownership in an owner array.
  - A lock on a held fork returns `ok = false` instead of blocking.
  - The `pthread_cond_wait` loop of `neighbors_starvation_wait` is modelled by its predicate, which is returned. The wake-up after waiting is not modelled.
  - `pthread_cond_signal`, `print_mutex`, `meal_mutex`, `hunger_lock` and the log buffer mutex are not modelled.
- Mutex initialisation failures in `init_mutexes` (philo/init_env.c:19-32) are not modelled; the ticket loop always succeeds.
- Time: `get_time`, `precise_sleep` and `usleep` become parameters. `Stagger` returns its delay instead of sleeping.
- `Routine.TakeForks`: stamps both "has taken a fork" lines with the one time `now`; the program reads the clock in each `print_status` (philo/philo_routin.c:62,64).
- `Routine.LockAndLog`: takes the time of its line as the parameter `now` rather than reading the clock after the lock is obtained.
- `Routine.GetForks`: stamps both "has taken a fork" lines with the one time `t0`. The program reads the clock anew in each `print_status` (philo/philo_routin.c:62,64 through philo/log_flusher.c:34).
- `Routine.EatCycle`: `last_meal` and the "is eating" line share the time `t1`, and both fork lines share `t0`. The program reads the clock separately for `last_meal` (philo/philo.c:135) and for each line.
- `Monitor.MonitorPass`: takes one `now` for the whole pass. The program reads the clock again for every philosopher and for the "died" line.
- Output formatting with `printf` is not modelled; standard output is the ghost sequence `Env.output` of (timestamp, id, text) records. `print_error` is not modelled.
- Data races are not claimed absent. The program reads `ended` and the buffer's `count` without a lock, and increments `meals` outside `meal_mutex`.
- `Utils.Atoi`: returns the unbounded value of the digits. It does not model the overflow of `long long` or the implementation-defined `(int)` cast.
- `Routine.NeighborsStarvationWait`: the ticket counter is unbounded. Its wrap-around past 2147483647 (the sentinel value) is not modelled.
- `Environment.Env.AllocMem`: the four `malloc` outcomes are parameters. A negative count is treated as a failed allocation, since the requested size wraps to a huge `size_t`. Freeing on failure and the error message are not modelled.
- Teardown (philo/clean_up.c, philo/memory_managment.c, philo/free_memory_utils.c), the `init_mutexes*` wrappers, `init_program`, `start_threads`, `start_routin`, `join_threads` and `main` are not part of this model.
- Only one version of each function is modelled:
  - `take_forks` and `put_forks` come from philo/philo_routin.c; the copies in philo/philo.c are identical.
  - Both versions of `print_status` are modelled. The philosopher steps use the buffered one from philo/log_flusher.c, because its signature matches the header.
- The loop of `routine` is modelled as its condition (`KeepsEating`) plus one complete pass (`EatCycle`). A pass that would block stops there, and the thread resuming later is not modelled.
