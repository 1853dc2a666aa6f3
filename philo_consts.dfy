// Shared constants of the simulation (philo/philo.h) and a small Option type.
module PhiloConsts {

  /** Ticket value of a philosopher that is not hungry (INT_MAX). */
  const HIGH_SENTINEL: int := 2147483647

  /** Starvation threshold factor of the ticket scheme. */
  const THRESH: int := 5

  /** Capacity of the log buffer. */
  const LOG_BUFFER_SIZE: int := 1024

  /** Size of the `status` character array of a log entry, terminator included. */
  const STATUS_SIZE: int := 32

  /** Exit codes, as in <stdlib.h>. */
  const EXIT_SUCCESS: int := 0
  const EXIT_FAILURE: int := 1

  /** A possibly-null pointer, or an absent result. */
  datatype Option<T> = None | Some(value: T)
}
