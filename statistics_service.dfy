/** The statistics read/write helpers (server/src/statistics/service.ts):
    insert and cleanup delegate to `StatisticsDatabase`; the latest read
    decodes the stored row. */
module StatisticsService {
  import opened Wrappers
  import opened StatisticsTable
  import StatisticsDatabase
  import Clock

  /** `insertStatistics`: only delegates. */
  method InsertStatistics(t: Table, s: StatisticsInsert)
    requires t.Valid()
    modifies t
    ensures t.Valid()
    ensures t.rows == old(t.rows) + [RowOf(old(t.nextId), s)]
  {
    StatisticsDatabase.InsertStatistics(t, s);
  }

  /** `getLatestStatistics`: `null` exactly when the table is empty;
      otherwise the newest row decoded, with the total and the timestamp
      passed through and a `NULL` popular list read as `[]`. */
  function GetLatestStatistics(t: Table): (r: Option<ComputedStatistics>)
    reads t
    ensures r.None? <==> |t.rows| == 0
    ensures r.Some? ==> exists row :: row in t.rows && r.value == Decode(row)
                         && forall x :: x in t.rows ==> x.computedAt <= row.computedAt
  {
    match StatisticsDatabase.GetLatestStatistics(t)
    case None => None
    case Some(row) => Some(Decode(row))
  }

  /** `cleanupOldStatistics`: only delegates, keeping 7 days by default. */
  method CleanupOldStatistics(t: Table, now: int, daysToKeep: int := StatisticsDatabase.DefaultDaysToKeep)
    returns (removed: nat)
    requires t.Valid()
    modifies t
    ensures t.Valid()
    ensures t.rows == CleanupRows(old(t.rows), Clock.DaysBefore(now, daysToKeep))
    ensures removed == |old(t.rows)| - |t.rows|
  {
    removed := StatisticsDatabase.CleanupOldStatistics(t, now, daysToKeep);
  }

  /** Inserting a snapshot newer than every stored one and then reading the
      latest gives back that snapshot as encoded. */
  method InsertThenReadLatest(t: Table, s: StatisticsInsert) returns (r: Option<ComputedStatistics>)
    requires t.Valid()
    requires forall x :: x in t.rows ==> x.computedAt < s.computedAt
    modifies t
    ensures r == Some(ComputedStatistics(s.top5Queries, s.totalRequests, s.popularCharacters.GetOr([]),
                                         s.popularMovies.GetOr([]), s.computedAt))
  {
    var id := t.nextId;
    LatestAfterNewerInsert(t.rows, id, s);
    InsertStatistics(t, s);
    r := GetLatestStatistics(t);
    DecodeRowOf(id, s);
  }
}
