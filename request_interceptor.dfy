/** `requestInterceptor` (server/src/middleware/requestInterceptor.ts): the
    middleware that runs the route handler and, for a successful request
    outside the statistics routes, records it as a pending request event.
    The handler's outcome, the fresh id and the clock readings are
    parameters. */
module RequestInterceptor {
  import opened Wrappers
  import opened Seqs
  import opened RequestEvents

  /** The request as the middleware sees it. */
  datatype Request = Request(httpMethod: string, path: string)

  /** Whatever the handler threw. */
  datatype HandlerError = HandlerError(message: string)

  /** How `await next()` ended: with a response status, or by throwing. */
  datatype HandlerOutcome = Responded(status: int) | Threw(error: HandlerError)

  const StatisticsSegment: string := "/statistics"

  /** The only status that is recorded. */
  const RecordedStatus: int := 200

  /** Paths containing `/statistics` are never recorded. */
  function Tracked(path: string): bool {
    !Contains(path, StatisticsSegment)
  }

  /** Whether the request ends up as an event (insert failures aside). */
  function Records(req: Request, outcome: HandlerOutcome): bool {
    Tracked(req.path) && outcome == Responded(RecordedStatus)
  }

  /** A request is recorded exactly when the handler answered 200 and
      `/statistics` occurs nowhere in its path. */
  lemma RecordsIff(req: Request, outcome: HandlerOutcome)
    ensures Records(req, outcome) <==>
      outcome.Responded? && outcome.status == 200 && forall i :: !OccursAt(req.path, "/statistics", i)
  {
    ContainsIff(req.path, StatisticsSegment);
  }

  /** The insert built after a 200 response: the request's id, method and
      path, the timestamp taken before the handler ran, the elapsed time,
      status code 200 and status pending. */
  function RecordedEvent(req: Request, requestId: string, timestamp: int, startTime: int, endTime: int): (e: EventInsert)
    ensures e.id == requestId && e.httpMethod == req.httpMethod && e.path == req.path
    ensures e.timestamp == timestamp && e.responseTime == Some(endTime - startTime)
    ensures e.statusCode == Some(200) && e.status == Some(Pending)
  {
    EventInsert(requestId, req.httpMethod, req.path, timestamp, Some(endTime - startTime), Some(RecordedStatus), Some(Pending))
  }

  /** The stored row is pending with status code 200; a zero elapsed time is
      stored as `NULL` like any other zero response time. */
  lemma RecordedRow(req: Request, requestId: string, timestamp: int, startTime: int, endTime: int)
    ensures var row := RowOf(RecordedEvent(req, requestId, timestamp, startTime, endTime));
      && row.id == requestId && row.httpMethod == req.httpMethod && row.path == req.path
      && row.timestamp == timestamp && row.status == Pending && row.statusCode == Some(200)
      && (row.responseTime.None? <==> endTime == startTime)
      && (endTime != startTime ==> row.responseTime == Some(endTime - startTime))
  {
    RowOfStores(RecordedEvent(req, requestId, timestamp, startTime, endTime));
  }

  /** One request through the middleware. `startTime` and `timestamp` are
      read before the handler runs and `endTime` after it. A handler error is
      rethrown and records nothing; a failed insert is swallowed. */
  method Intercept(events: RequestEventsService, req: Request, outcome: HandlerOutcome,
                   requestId: string, startTime: int, timestamp: int, endTime: int)
    returns (r: Outcome<HandlerError>)
    requires events.Valid()
    modifies events
    ensures events.Valid()
    ensures outcome.Threw? ==> r == Fail(outcome.error)
    ensures outcome.Responded? ==> r == Pass
    ensures Records(req, outcome) && requestId !in Ids(old(events.rows)) ==>
      events.rows == old(events.rows) + [RowOf(RecordedEvent(req, requestId, timestamp, startTime, endTime))]
    ensures !Records(req, outcome) || requestId in Ids(old(events.rows)) ==> events.rows == old(events.rows)
  {
    if !Tracked(req.path) {
      match outcome {
        case Threw(err) => return Fail(err);
        case Responded(_) => return Pass;
      }
    }
    match outcome {
      case Threw(err) =>
        return Fail(err);
      case Responded(status) =>
        if status == RecordedStatus {
          var inserted := events.InsertEvent(RecordedEvent(req, requestId, timestamp, startTime, endTime));
        }
        return Pass;
    }
  }
}
