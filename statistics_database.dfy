/** `StatisticsDatabase` (server/src/statistics/database.ts): static
    methods that run the `statistics` table's statements. */
module StatisticsDatabase {
  import opened Wrappers
  import opened StatisticsTable
  import Clock

  const DefaultDaysToKeep: int := 7

  /** `insertStatistics`: appends exactly one row built from `s`; the
      existing rows stay as they were. */
  method InsertStatistics(t: Table, s: StatisticsInsert)
    requires t.Valid()
    modifies t
    ensures t.Valid()
    ensures t.rows == old(t.rows) + [RowOf(old(t.nextId), s)]
  {
    t.Insert(s);
  }

  /** `getLatestStatistics`: `null` for an empty table, otherwise a stored
      row with the greatest `computed_at`. */
  function GetLatestStatistics(t: Table): (r: Option<StatisticsRow>)
    reads t
    ensures r.None? <==> |t.rows| == 0
    ensures r.Some? ==> r.value in t.rows && forall x :: x in t.rows ==> x.computedAt <= r.value.computedAt
  {
    t.SelectLatest()
  }

  /** `cleanupOldStatistics`: deletes the rows older than `daysToKeep` days
      that are not among the 10 most recent, and returns how many. */
  method CleanupOldStatistics(t: Table, now: int, daysToKeep: int := DefaultDaysToKeep) returns (removed: nat)
    requires t.Valid()
    modifies t
    ensures t.Valid()
    ensures t.rows == CleanupRows(old(t.rows), Clock.DaysBefore(now, daysToKeep))
    ensures removed == |old(t.rows)| - |t.rows|
  {
    removed := t.Cleanup(now, daysToKeep);
  }
}
