/** What the servers take from POSIX.1-2017, System Interfaces, section 3. */
module Posix {

  /** The largest value a semaphore holds; `sem_post` at this value fails and changes nothing. */
  const SEM_VALUE_MAX: nat := 0x7FFF_FFFF

  /** `sem_post`: whose result both servers ignore. */
  function SemPost(sem: nat): nat
  {
    if sem < SEM_VALUE_MAX then sem + 1 else sem
  }
}
