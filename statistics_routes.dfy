/** The GET `/` handler of the statistics routes
    (server/src/statistics/routes.ts): the latest snapshot reshaped into the
    response body, a placeholder when there is none, and an error body when
    reading throws. */
module StatisticsRoutes {
  import opened Wrappers
  import opened Ranking
  import opened StatisticsTable
  import StatisticsService

  /** What a failed read threw: an `Error` with its message, or any other
      value. */
  datatype Thrown = ErrorValue(message: string) | OtherValue

  datatype RequestData = RequestData(top5Queries: seq<Ranked>, totalRequests: int)

  datatype ContentData = ContentData(popularCharacters: seq<Ranked>, popularMovies: seq<Ranked>)

  /** The `data` member: flat when there is no snapshot, nested when there is. */
  datatype Data =
    | Placeholder(top5Queries: seq<Ranked>, totalRequests: int, lastUpdated: int)
    | Populated(lastUpdated: int, requestData: RequestData, contentData: ContentData)

  /** The JSON body and its HTTP status. */
  datatype Response =
    | Success(message: string, data: Data)
    | Failure(status: int, message: string, error: string)

  const NoDataMessage: string := "No statistics available yet. Worker may still be computing initial data."
  const DataMessage: string := "Star Wars Statistics"
  const ErrorMessage: string := "Error retrieving statistics"
  const UnknownError: string := "Unknown error"

  /** The HTTP status of a response (`c.json` answers 200 unless told otherwise). */
  function StatusOf(r: Response): int {
    if r.Success? then 200 else r.status
  }

  /** The handler, given what `getLatestStatistics()` returned or threw and
      the instant `now` the placeholder reads. */
  function GetStatistics(latest: Result<Option<ComputedStatistics>, Thrown>, now: int): (r: Response)
    ensures latest.Err? ==> StatusOf(r) == 500 && r.Failure? && r.message == ErrorMessage
    ensures latest.Err? && latest.error.ErrorValue? ==> r.Failure? && r.error == latest.error.message
    ensures latest.Err? && latest.error.OtherValue? ==> r.Failure? && r.error == UnknownError
    ensures latest.Ok? ==> StatusOf(r) == 200 && r.Success?
    ensures latest == Ok(None) ==> r.Success? && r.message == NoDataMessage && r.data == Placeholder([], 0, now)
    ensures latest.Ok? && latest.value.Some? ==>
              r.Success? && r.message == DataMessage && r.data.Populated?
              && r.data.lastUpdated == latest.value.value.computedAt
              && r.data.requestData == RequestData(latest.value.value.top5Queries, latest.value.value.totalRequests)
              && r.data.contentData == ContentData(latest.value.value.popularCharacters, latest.value.value.popularMovies)
  {
    match latest
    case Err(e) =>
      Failure(500, ErrorMessage, match e case ErrorValue(m) => m case OtherValue => UnknownError)
    case Ok(None) =>
      Success(NoDataMessage, Placeholder([], 0, now))
    case Ok(Some(stats)) =>
      Success(DataMessage, Populated(stats.computedAt,
                                     RequestData(stats.top5Queries, stats.totalRequests),
                                     ContentData(stats.popularCharacters, stats.popularMovies)))
  }

  /** Served from a snapshot table: the placeholder exactly when the table
      is empty; otherwise the figures of a newest row, with a `NULL` popular
      list served as `[]`. */
  lemma ServedFromTable(t: Table, now: int)
    ensures var r := GetStatistics(Ok(StatisticsService.GetLatestStatistics(t)), now);
      && r.Success?
      && (r.data.Placeholder? <==> |t.rows| == 0)
      && (r.data.Populated? ==>
            exists row :: row in t.rows && (forall x :: x in t.rows ==> x.computedAt <= row.computedAt)
              && r.data.lastUpdated == row.computedAt
              && r.data.requestData == RequestData(row.top5Queries, row.totalRequests)
              && r.data.contentData == ContentData(row.popularCharacters.GetOr([]), row.popularMovies.GetOr([])))
  {
    var latest := StatisticsService.GetLatestStatistics(t);
    if latest.Some? {
      var row :| row in t.rows && latest.value == Decode(row)
                 && forall x :: x in t.rows ==> x.computedAt <= row.computedAt;
      assert GetStatistics(Ok(latest), now).data.requestData == RequestData(row.top5Queries, row.totalRequests);
    }
  }
}
