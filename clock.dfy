/** Instants are integers (milliseconds since the epoch). The source keeps
    them as ISO-8601 strings and compares them as text in SQL, which orders
    them the same way as the numbers for the dates this system produces. */
module Clock {

  const DayMillis: int := 24 * 60 * 60 * 1000

  /** The worker's interval and the width of the `'last5min'` window. */
  const FiveMinutesMillis: int := 5 * 60 * 1000

  /** `new Date()` moved back by `days` days with `setDate(getDate() - days)`. */
  function DaysBefore(now: int, days: int): (cutoff: int)
    ensures days >= 0 ==> cutoff <= now
    ensures now - cutoff == days * DayMillis
  {
    now - days * DayMillis
  }
}
