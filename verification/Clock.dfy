/** Time as the delivery pipeline sees it.

    The worker reads a nanosecond clock; every timestamp that reaches the database is
    floored to whole seconds.  An instant is an integer number of nanoseconds since the
    epoch and `Sec` is the second under which it is stored. */
module Clock {
  const NANOS_PER_SECOND := 1_000_000_000
  const NANOS_PER_MILLI := 1_000_000

  function Sec(t: int): int {
    t / NANOS_PER_SECOND
  }

  lemma SecBounds(t: int)
    ensures Sec(t) * NANOS_PER_SECOND <= t < (Sec(t) + 1) * NANOS_PER_SECOND
  {
  }

  lemma SecMonotone(s: int, t: int)
    requires s <= t
    ensures Sec(s) <= Sec(t)
  {
  }

  /** Moving an instant by whole seconds moves its stored second by as many. */
  lemma SecShift(t: int, k: int)
    ensures Sec(t + k * NANOS_PER_SECOND) == Sec(t) + k
  {
  }
}
