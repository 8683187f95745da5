/** `StatisticsTableService` (server/src/database/statisticsTableService.ts):
    a second front over the same `statistics` table that prepares the same
    three statements and decodes inside its latest read. */
module StatisticsTableService {
  import opened Wrappers
  import opened StatisticsTable
  import Clock

  class StatisticsTableService {
    const table: Table

    constructor (table: Table)
      ensures this.table == table
    {
      this.table := table;
    }

    /** `insertStatistics`: appends one row; an absent popular list is stored
        as `NULL`. */
    method InsertStatistics(s: StatisticsInsert)
      requires table.Valid()
      modifies table
      ensures table.Valid()
      ensures table.rows == old(table.rows) + [RowOf(old(table.nextId), s)]
    {
      table.Insert(s);
    }

    /** `getLatestStatistics`: `null` when the table is empty, otherwise the
        row with the greatest `computed_at`, decoded. */
    function GetLatestStatistics(): (r: Option<ComputedStatistics>)
      reads this, table
      ensures r.None? <==> |table.rows| == 0
      ensures r.Some? ==> exists row :: row in table.rows && r.value == Decode(row)
                           && forall x :: x in table.rows ==> x.computedAt <= row.computedAt
    {
      match table.SelectLatest()
      case None => None
      case Some(row) => Some(Decode(row))
    }

    /** `cleanupOldStatistics`, 7 days by default. */
    method CleanupOldStatistics(now: int, daysToKeep: int := 7) returns (removed: nat)
      requires table.Valid()
      modifies table
      ensures table.Valid()
      ensures table.rows == CleanupRows(old(table.rows), Clock.DaysBefore(now, daysToKeep))
      ensures removed == |old(table.rows)| - |table.rows|
    {
      removed := table.Cleanup(now, daysToKeep);
    }
  }
}
