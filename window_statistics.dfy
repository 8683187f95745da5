/** `StatisticsService` (server/src/services/statisticsService.ts): request
    statistics for a time window, computed on demand from the event table.
    It only reads the table. */
module WindowStatistics {
  import opened Wrappers
  import opened Seqs
  import opened Ranking
  import opened RequestEvents
  import Clock

  /** The `timeWindow` argument; `None` when it is omitted. */
  datatype TimeWindow = Last5Min | AllTime

  datatype TimeRange = TimeRange(start: int, end: int)

  /** `RequestStatistics`. */
  datatype RequestStatistics = RequestStatistics(
    top5Queries: seq<Ranked>,
    totalRequests: nat,
    lastUpdated: int,
    timeWindow: TimeRange)

  /** `getEmptyStats`, at the instant `now` it reads. */
  function EmptyStats(now: int): (s: RequestStatistics)
    ensures s.top5Queries == [] && s.totalRequests == 0 && s.lastUpdated == now
    ensures s.timeWindow.end == now && s.timeWindow.end - s.timeWindow.start == 5 * 60 * 1000
  {
    RequestStatistics([], 0, now, TimeRange(now - Clock.FiveMinutesMillis, now))
  }

  /** The start of the window: five minutes back for `'last5min'`, nothing
      otherwise. */
  function Since(window: Option<TimeWindow>, now: int): Option<int> {
    if window == Some(Last5Min) then Some(now - Clock.FiveMinutesMillis) else None
  }

  /** `computeStatistics` read at `now`. `fails` says whether a query threw,
      in which case the result is the empty statistics read at `failureNow`
      (`getEmptyStats` reads the clock again). The top-5 list ignores the
      window: the store's top-5 query takes no start. */
  function ComputeStatistics(rows: seq<Event>, window: Option<TimeWindow>, now: int, fails: bool, failureNow: int)
    : (s: RequestStatistics)
    ensures fails ==> s.top5Queries == [] && s.totalRequests == 0 && s.lastUpdated == failureNow
                      && s.timeWindow == TimeRange(failureNow - 5 * 60 * 1000, failureNow)
    ensures !fails ==> s.top5Queries == Top5Queries(rows) && s.lastUpdated == now && s.timeWindow.end == now
    ensures !fails && window == Some(Last5Min) ==>
              s.totalRequests == |Filter(rows, ProcessedSince(now - 5 * 60 * 1000))|
              && s.timeWindow.start == now - 5 * 60 * 1000
    ensures !fails && window != Some(Last5Min) ==>
              s.totalRequests == CountStatus(rows, Processed) && s.timeWindow.start == 0
  {
    if fails then EmptyStats(failureNow)
    else
      var since := Since(window, now);
      var top5 := Top5Queries(rows);
      var total: nat :=
        if since.Some? then |SelectRecentProcessed(rows, since.value)|
        else ProcessedOrZero(EventCountsByStatus(rows));
      RequestStatistics(top5, total, now, TimeRange(since.GetOr(0), now))
  }

  /** The `'last5min'` total counts exactly the processed events no older
      than five minutes; the other windows count every processed event. */
  lemma WindowTotals(rows: seq<Event>, now: int, failureNow: int)
    ensures ComputeStatistics(rows, Some(Last5Min), now, false, failureNow).totalRequests
              <= ComputeStatistics(rows, None, now, false, failureNow).totalRequests
    ensures ComputeStatistics(rows, Some(AllTime), now, false, failureNow)
              == ComputeStatistics(rows, None, now, false, failureNow)
  {
    FilterCountStatus(rows, ProcessedSince(now - Clock.FiveMinutesMillis));
  }

  /** A filter that keeps only processed rows keeps no more than all of them. */
  lemma {:induction false} FilterCountStatus(rows: seq<Event>, p: Event -> bool)
    requires forall e :: p(e) ==> e.status == Processed
    ensures |Filter(rows, p)| <= CountStatus(rows, Processed)
  {
    if |rows| > 0 {
      FilterCountStatus(rows[1..], p);
    }
  }

  /** `getDatabaseEventCounts`: the per-status counts, or `{}` when the
      query throws. */
  function GetDatabaseEventCounts(rows: seq<Event>, fails: bool): (m: map<Status, nat>)
    ensures fails ==> m == map[]
    ensures !fails ==> forall st :: st in m <==> CountStatus(rows, st) > 0
    ensures !fails ==> forall st :: st in m ==> m[st] == CountStatus(rows, st)
  {
    if fails then map[] else EventCountsByStatus(rows)
  }
}
