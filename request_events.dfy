/** The `request_events` table and `RequestEventsService`
    (server/src/database/requestEventsService.ts): every SQL statement is a
    function over the table's rows, and the service is a class whose `rows`
    field its insert, update and delete methods reassign. */
module RequestEvents {
  import opened Wrappers
  import opened Seqs
  import opened Ranking
  import Clock

  /** The event lifecycle status. The declared union is pending, processed
      and failed; `updateEventComplete` also writes `'completed'`, so the
      model admits it. */
  datatype Status = Pending | Processed | Failed | Completed

  /** A row of `request_events`; `None` is SQL `NULL`. */
  datatype Event = Event(
    id: string,
    httpMethod: string,
    path: string,
    timestamp: int,
    responseTime: Option<int>,
    statusCode: Option<int>,
    status: Status)

  /** `RequestEventInsert`: what a caller hands to `insertEvent`. */
  datatype EventInsert = EventInsert(
    id: string,
    httpMethod: string,
    path: string,
    timestamp: int,
    responseTime: Option<int>,
    statusCode: Option<int>,
    status: Option<Status>)

  /** A failed statement (SQLite raises an error). */
  datatype DbError = ConstraintViolation(message: string)

  const MoviePrefix: string := "/api/movies/"
  const PeoplePrefix: string := "/api/people/"

  /** JavaScript's `v || null` on an optional number: absent and 0 both bind
      `NULL`. */
  function OrNull(v: Option<int>): Option<int> {
    if v == Some(0) then None else v
  }

  /** The row `insertEvent` binds: numbers through `|| null`, status
      through `|| 'pending'`. */
  function RowOf(e: EventInsert): Event {
    Event(e.id, e.httpMethod, e.path, e.timestamp, OrNull(e.responseTime), OrNull(e.statusCode),
          e.status.GetOr(Pending))
  }

  /** Inserting stores the given id, method, path and timestamp; status
      defaults to pending; a response time or status code of 0 or absent is
      stored as `NULL`, any other value as given. */
  lemma RowOfStores(e: EventInsert)
    ensures var r := RowOf(e);
      && r.id == e.id && r.httpMethod == e.httpMethod && r.path == e.path && r.timestamp == e.timestamp
      && (r.status == if e.status.Some? then e.status.value else Pending)
      && (r.responseTime.None? <==> (e.responseTime.None? || e.responseTime == Some(0)))
      && (r.responseTime.Some? ==> r.responseTime == e.responseTime)
      && (r.statusCode.None? <==> (e.statusCode.None? || e.statusCode == Some(0)))
      && (r.statusCode.Some? ==> r.statusCode == e.statusCode)
  {
  }

  function Ids(rows: seq<Event>): seq<string> {
    seq(|rows|, i requires 0 <= i < |rows| => rows[i].id)
  }

  /** `id` is the table's primary key. */
  ghost predicate DistinctIds(rows: seq<Event>) {
    forall i, j :: 0 <= i < j < |rows| ==> rows[i].id != rows[j].id
  }

  /** The columns an `UPDATE ... WHERE id = ?` sets. */
  datatype Update =
    | SetStatus(status: Status)
    | SetResponse(responseTime: int, statusCode: int, status: Status)

  function Apply(e: Event, u: Update): Event {
    match u
    case SetStatus(st) => e.(status := st)
    case SetResponse(rt, sc, st) => e.(responseTime := Some(rt), statusCode := Some(sc), status := st)
  }

  /** `UPDATE request_events SET ... WHERE id = ?`. */
  function UpdateWhereId(rows: seq<Event>, id: string, u: Update): seq<Event> {
    seq(|rows|, i requires 0 <= i < |rows| => if rows[i].id == id then Apply(rows[i], u) else rows[i])
  }

  /** A status update keeps every row in place, rewrites only the status of
      the rows with that id and leaves every other row as it was; an unknown
      id changes nothing. */
  lemma UpdateStatusFrame(rows: seq<Event>, id: string, st: Status)
    ensures var r := UpdateWhereId(rows, id, SetStatus(st));
      && |r| == |rows|
      && (forall i :: 0 <= i < |rows| && rows[i].id != id ==> r[i] == rows[i])
      && (forall i :: 0 <= i < |rows| && rows[i].id == id ==> r[i].status == st && r[i].(status := rows[i].status) == rows[i])
      && (id !in Ids(rows) ==> r == rows)
  {
    var r := UpdateWhereId(rows, id, SetStatus(st));
    if id !in Ids(rows) {
      forall i | 0 <= i < |rows| ensures r[i] == rows[i] {
        assert Ids(rows)[i] == rows[i].id;
      }
    }
  }

  /** A response update keeps every row in place and rewrites only the
      response time, status code and status of the rows with that id; every
      other row, and every other column, is left as it was. */
  lemma UpdateResponseFrame(rows: seq<Event>, id: string, rt: int, sc: int, st: Status)
    ensures var r := UpdateWhereId(rows, id, SetResponse(rt, sc, st));
      && |r| == |rows|
      && (forall i :: 0 <= i < |rows| && rows[i].id != id ==> r[i] == rows[i])
      && (forall i :: 0 <= i < |rows| && rows[i].id == id ==>
            r[i].responseTime == Some(rt) && r[i].statusCode == Some(sc) && r[i].status == st
            && r[i].(responseTime := rows[i].responseTime, statusCode := rows[i].statusCode, status := rows[i].status) == rows[i])
      && (id !in Ids(rows) ==> r == rows)
  {
    var r := UpdateWhereId(rows, id, SetResponse(rt, sc, st));
    if id !in Ids(rows) {
      forall i | 0 <= i < |rows| ensures r[i] == rows[i] {
        assert Ids(rows)[i] == rows[i].id;
      }
    }
  }

  /** Every row whose id is in `ids` now has status processed; the effect
      of calling `markEventProcessed` once per id, in any order. */
  function MarkAll(rows: seq<Event>, ids: set<string>): seq<Event> {
    seq(|rows|, i requires 0 <= i < |rows| => if rows[i].id in ids then rows[i].(status := Processed) else rows[i])
  }

  /** Marking one more id processed extends the marked set by that id. */
  lemma MarkOneMore(rows: seq<Event>, ids: set<string>, id: string)
    ensures UpdateWhereId(MarkAll(rows, ids), id, SetStatus(Processed)) == MarkAll(rows, ids + {id})
  {
  }

  function IsPending(e: Event): bool {
    e.status == Pending
  }

  function HasStatus(st: Status): Event -> bool {
    (e: Event) => e.status == st
  }

  function ProcessedSince(since: int): Event -> bool {
    (e: Event) => e.timestamp >= since && e.status == Processed
  }

  function TimestampAsc(e: Event): int {
    e.timestamp
  }

  function TimestampDesc(e: Event): int {
    -e.timestamp
  }

  /** `SELECT * ... WHERE status = 'pending' ORDER BY timestamp ASC`: a
      reordering of the pending rows, oldest first. */
  function SelectNonCompleted(rows: seq<Event>): (r: seq<Event>)
    ensures multiset(r) == multiset(Filter(rows, IsPending))
    ensures forall i, j :: 0 <= i < j < |r| ==> r[i].timestamp <= r[j].timestamp
  {
    var r := SortBy(Filter(rows, IsPending), TimestampAsc);
    assert forall i, j :: 0 <= i < j < |r| ==> TimestampAsc(r[i]) <= TimestampAsc(r[j]);
    r
  }

  /** `SELECT * ... WHERE status = ? ORDER BY timestamp DESC`: a
      reordering of the rows with that status, newest first. */
  function SelectByStatus(rows: seq<Event>, st: Status): (r: seq<Event>)
    ensures multiset(r) == multiset(Filter(rows, HasStatus(st)))
    ensures forall i, j :: 0 <= i < j < |r| ==> r[i].timestamp >= r[j].timestamp
  {
    var r := SortBy(Filter(rows, HasStatus(st)), TimestampDesc);
    assert forall i, j :: 0 <= i < j < |r| ==> TimestampDesc(r[i]) <= TimestampDesc(r[j]);
    r
  }

  /** `SELECT * ... WHERE timestamp >= ? AND status = 'processed' ORDER BY
      timestamp DESC`: a reordering of the processed rows no older than
      `since`, newest first. */
  function SelectRecentProcessed(rows: seq<Event>, since: int): (r: seq<Event>)
    ensures multiset(r) == multiset(Filter(rows, ProcessedSince(since)))
    ensures forall i, j :: 0 <= i < j < |r| ==> r[i].timestamp >= r[j].timestamp
  {
    var r := SortBy(Filter(rows, ProcessedSince(since)), TimestampDesc);
    assert forall i, j :: 0 <= i < j < |r| ==> TimestampDesc(r[i]) <= TimestampDesc(r[j]);
    r
  }

  /** Each read returns exactly the rows its `WHERE` clause selects, each as
      often as it is stored. */
  lemma SelectsExact(rows: seq<Event>, e: Event, st: Status, since: int)
    ensures multiset(SelectNonCompleted(rows))[e] == if e.status == Pending then multiset(rows)[e] else 0
    ensures multiset(SelectByStatus(rows, st))[e] == if e.status == st then multiset(rows)[e] else 0
    ensures multiset(SelectRecentProcessed(rows, since))[e] ==
              if e.status == Processed && e.timestamp >= since then multiset(rows)[e] else 0
  {
    FilterMultiplicity(rows, IsPending, e);
    FilterMultiplicity(rows, HasStatus(st), e);
    FilterMultiplicity(rows, ProcessedSince(since), e);
  }

  /** Number of rows with status `st` (one group of `GROUP BY status`). */
  function CountStatus(rows: seq<Event>, st: Status): nat {
    if |rows| == 0 then 0
    else (if rows[0].status == st then 1 else 0) + CountStatus(rows[1..], st)
  }

  /** No row is lost or counted twice: the four status counts add up to the
      number of rows. */
  lemma {:induction false} StatusCountsSum(rows: seq<Event>)
    ensures CountStatus(rows, Pending) + CountStatus(rows, Processed)
          + CountStatus(rows, Failed) + CountStatus(rows, Completed) == |rows|
  {
    if |rows| > 0 {
      StatusCountsSum(rows[1..]);
    }
  }

  /** Appending a row adds one to its status's count and nothing to the others. */
  lemma {:induction false} CountStatusAppend(rows: seq<Event>, e: Event, st: Status)
    ensures CountStatus(rows + [e], st) == CountStatus(rows, st) + (if e.status == st then 1 else 0)
  {
    if |rows| > 0 {
      assert (rows + [e])[1..] == rows[1..] + [e];
      CountStatusAppend(rows[1..], e, st);
    }
  }

  /** A row of `SELECT status, COUNT(*) ... GROUP BY status`. */
  datatype StatusCount = StatusCount(status: Status, count: nat)

  /** The `GROUP BY status` result: one row per status that occurs. */
  function StatusGroups(rows: seq<Event>): (g: seq<StatusCount>)
    ensures forall k :: 0 <= k < |g| ==> g[k].count == CountStatus(rows, g[k].status) && g[k].count > 0
  {
    var all := AllStatusCounts(rows);
    var g := Filter(all, Occurs);
    assert forall k :: 0 <= k < |g| ==> g[k] in all;
    g
  }

  function AllStatusCounts(rows: seq<Event>): seq<StatusCount> {
    [StatusCount(Pending, CountStatus(rows, Pending)),
     StatusCount(Processed, CountStatus(rows, Processed)),
     StatusCount(Failed, CountStatus(rows, Failed)),
     StatusCount(Completed, CountStatus(rows, Completed))]
  }

  function Occurs(c: StatusCount): bool {
    c.count > 0
  }

  /** Every status that occurs has its group. */
  lemma StatusGroupsComplete(rows: seq<Event>, st: Status)
    requires CountStatus(rows, st) > 0
    ensures exists k :: 0 <= k < |StatusGroups(rows)| && StatusGroups(rows)[k].status == st
  {
    var c := StatusCount(st, CountStatus(rows, st));
    assert c in AllStatusCounts(rows);
    var g := StatusGroups(rows);
    assert c in g;
    var k :| 0 <= k < |g| && g[k] == c;
  }

  /** What `getEventCountsByStatus` returns: each status that occurs, mapped
      to its number of rows. */
  function EventCountsByStatus(rows: seq<Event>): (m: map<Status, nat>)
    ensures forall st :: st in m <==> CountStatus(rows, st) > 0
    ensures forall st :: st in m ==> m[st] == CountStatus(rows, st)
  {
    map st | st in {Pending, Processed, Failed, Completed} && CountStatus(rows, st) > 0 :: CountStatus(rows, st)
  }

  /** `EventCountsByStatus` is the only map with its two properties. */
  lemma CountsMapUnique(m: map<Status, nat>, rows: seq<Event>)
    requires forall st :: st in m <==> CountStatus(rows, st) > 0
    requires forall st :: st in m ==> m[st] == CountStatus(rows, st)
    ensures m == EventCountsByStatus(rows)
  {
  }

  /** The counts map sums to the number of rows (an absent key counts 0). */
  lemma EventCountsSum(rows: seq<Event>)
    ensures var m := EventCountsByStatus(rows);
      (if Pending in m then m[Pending] else 0) + (if Processed in m then m[Processed] else 0)
      + (if Failed in m then m[Failed] else 0) + (if Completed in m then m[Completed] else 0) == |rows|
  {
    StatusCountsSum(rows);
  }

  /** The count under the `processed` key, or 0 when the key is absent
      (`eventCounts.processed || 0`). */
  function ProcessedOrZero(counts: map<Status, nat>): nat {
    if Processed in counts then counts[Processed] else 0
  }

  /** The paths of the processed rows, in table order. */
  function ProcessedPaths(rows: seq<Event>): seq<string> {
    if |rows| == 0 then []
    else (if rows[0].status == Processed then [rows[0].path] else []) + ProcessedPaths(rows[1..])
  }

  /** Number of processed rows whose path is exactly `p`. */
  function PathHits(rows: seq<Event>, p: string): nat {
    if |rows| == 0 then 0
    else (if rows[0].status == Processed && rows[0].path == p then 1 else 0) + PathHits(rows[1..], p)
  }

  lemma {:induction false} PathHitsAreOccurrences(rows: seq<Event>, p: string)
    ensures PathHits(rows, p) == Occurrences(ProcessedPaths(rows), p)
  {
    if |rows| > 0 {
      PathHitsAreOccurrences(rows[1..], p);
      var head := if rows[0].status == Processed then [rows[0].path] else [];
      assert ProcessedPaths(rows) == head + ProcessedPaths(rows[1..]);
      assert multiset(ProcessedPaths(rows)) == multiset(head) + multiset(ProcessedPaths(rows[1..]));
    }
  }

  /** `SELECT path, COUNT(*) ... WHERE status = 'processed' GROUP BY path
      ORDER BY count DESC LIMIT 5`. */
  function Top5Queries(rows: seq<Event>): (r: seq<Ranked>)
    ensures |r| <= 5
    ensures DistinctKeys(r)
    ensures CountsNonIncreasing(r)
    ensures forall i :: 0 <= i < |r| ==> r[i].count == PathHits(rows, r[i].key) && r[i].count > 0
    ensures forall p :: p !in Keys(r) ==>
              (PathHits(rows, p) == 0 || (|r| == 5 && forall i :: 0 <= i < |r| ==> PathHits(rows, p) <= r[i].count))
  {
    var s := ProcessedPaths(rows);
    var r := TopN(s, 5);
    forall p ensures PathHits(rows, p) == Occurrences(s, p) {
      PathHitsAreOccurrences(rows, p);
    }
    r
  }

  /** `SELECT path, COUNT(*) ... WHERE status = 'processed' GROUP BY path
      ORDER BY count DESC` (`getUniquePaths`, which answers `[]` when the
      statement fails): every processed path once, with its count, most
      requested first. */
  function UniquePaths(rows: seq<Event>, fails: bool): (r: seq<Ranked>)
    ensures fails ==> r == []
    ensures !fails ==> DistinctKeys(r) && CountsNonIncreasing(r)
    ensures !fails ==> forall i :: 0 <= i < |r| ==> r[i].count == PathHits(rows, r[i].key) && r[i].count > 0
    ensures !fails ==> forall p :: PathHits(rows, p) > 0 ==> p in Keys(r)
  {
    if fails then []
    else
      var s := ProcessedPaths(rows);
      var r := RankAll(s);
      assert forall p :: PathHits(rows, p) == Occurrences(s, p) by {
        forall p ensures PathHits(rows, p) == Occurrences(s, p) {
          PathHitsAreOccurrences(rows, p);
        }
      }
      r
  }

  /** The entity id of a detail path: `path LIKE prefix || '%' AND path NOT
      LIKE prefix || '%/%'` selects the paths that are the prefix followed by
      text without `/`, and `SUBSTR(path, LENGTH(prefix) + 1)` is that text. */
  function DetailId(path: string, prefix: string): Option<string> {
    if prefix <= path && '/' !in path[|prefix|..] then Some(path[|prefix|..]) else None
  }

  /** A path yields an id exactly when it is the prefix followed by that id
      and the id holds no `/`: `/api/people/1/films` yields nothing. */
  lemma DetailIdIff(path: string, prefix: string, id: string)
    ensures DetailId(path, prefix) == Some(id) <==> path == prefix + id && '/' !in id
  {
    if path == prefix + id {
      assert prefix <= path;
      assert path[|prefix|..] == id;
    }
    if DetailId(path, prefix) == Some(id) {
      assert path == path[..|prefix|] + path[|prefix|..];
    }
  }

  /** The ids extracted from the processed detail paths, in table order. */
  function EntityIds(rows: seq<Event>, prefix: string): seq<string> {
    if |rows| == 0 then []
    else
      var d := DetailId(rows[0].path, prefix);
      (if rows[0].status == Processed && d.Some? then [d.value] else []) + EntityIds(rows[1..], prefix)
  }

  /** An extracted id holds no `/`, and an id is counted exactly as often as
      its own detail path was requested: sub-resource paths never count. */
  lemma {:induction false} EntityIdsCount(rows: seq<Event>, prefix: string, id: string)
    ensures id in EntityIds(rows, prefix) ==> '/' !in id
    ensures '/' !in id ==> Occurrences(EntityIds(rows, prefix), id) == PathHits(rows, prefix + id)
  {
    if |rows| > 0 {
      EntityIdsCount(rows[1..], prefix, id);
      var d := DetailId(rows[0].path, prefix);
      var head := if rows[0].status == Processed && d.Some? then [d.value] else [];
      assert EntityIds(rows, prefix) == head + EntityIds(rows[1..], prefix);
      assert multiset(EntityIds(rows, prefix)) == multiset(head) + multiset(EntityIds(rows[1..], prefix));
      DetailIdIff(rows[0].path, prefix, id);
    }
  }

  /** `SUBSTR(path, LENGTH(prefix) + 1) AS id, COUNT(*) ... WHERE status =
      'processed' AND <detail path> GROUP BY id ORDER BY count DESC LIMIT 3`:
      at most 3 distinct ids, each counted over its exact detail path only,
      most requested first, and no omitted id requested more. */
  function PopularEntities(rows: seq<Event>, prefix: string): (r: seq<Ranked>)
    ensures |r| <= 3
    ensures DistinctKeys(r)
    ensures CountsNonIncreasing(r)
    ensures forall i :: 0 <= i < |r| ==>
              '/' !in r[i].key && r[i].count == PathHits(rows, prefix + r[i].key) && r[i].count > 0
    ensures forall id :: '/' !in id && id !in Keys(r) ==>
              (PathHits(rows, prefix + id) == 0 || (|r| == 3 && forall i :: 0 <= i < |r| ==> PathHits(rows, prefix + id) <= r[i].count))
  {
    var s := EntityIds(rows, prefix);
    var r := TopN(s, 3);
    forall id ensures (id in s ==> '/' !in id) && ('/' !in id ==> Occurrences(s, id) == PathHits(rows, prefix + id)) {
      EntityIdsCount(rows, prefix, id);
    }
    r
  }

  /** `getMostPopularCharacters`: the popular ids under `/api/people/`. */
  function PopularCharacters(rows: seq<Event>): (r: seq<Ranked>)
    ensures |r| <= 3 && DistinctKeys(r) && CountsNonIncreasing(r)
    ensures forall i :: 0 <= i < |r| ==> '/' !in r[i].key && r[i].count == PathHits(rows, "/api/people/" + r[i].key)
  {
    PopularEntities(rows, PeoplePrefix)
  }

  /** `getMostPopularMovies`: the popular ids under `/api/movies/`. */
  function PopularMovies(rows: seq<Event>): (r: seq<Ranked>)
    ensures |r| <= 3 && DistinctKeys(r) && CountsNonIncreasing(r)
    ensures forall i :: 0 <= i < |r| ==> '/' !in r[i].key && r[i].count == PathHits(rows, "/api/movies/" + r[i].key)
  {
    PopularEntities(rows, MoviePrefix)
  }

  datatype ContentPopularity = ContentPopularity(characters: seq<Ranked>, movies: seq<Ranked>)

  /** `getContentPopularityStats`: both lists when both statements succeed,
      two empty lists when either fails. */
  function ContentPopularityStats(rows: seq<Event>, charactersFail: bool, moviesFail: bool): (r: ContentPopularity)
    ensures !charactersFail && !moviesFail ==> r.characters == PopularCharacters(rows) && r.movies == PopularMovies(rows)
    ensures charactersFail || moviesFail ==> r.characters == [] && r.movies == []
  {
    if charactersFail || moviesFail then ContentPopularity([], [])
    else ContentPopularity(PopularCharacters(rows), PopularMovies(rows))
  }

  function Survives(cutoff: int): Event -> bool {
    (e: Event) => !(e.timestamp < cutoff && e.status == Processed)
  }

  function Expires(cutoff: int): Event -> bool {
    (e: Event) => e.timestamp < cutoff && e.status == Processed
  }

  /** What `DELETE FROM request_events WHERE timestamp < ? AND status =
      'processed'` leaves: the other rows, in order; pending, failed and
      completed rows always survive. */
  function RetainedEvents(rows: seq<Event>, cutoff: int): (r: seq<Event>)
    ensures forall e :: e in r <==> e in rows && (e.timestamp >= cutoff || e.status != Processed)
    ensures forall e :: e in rows && e.status != Processed ==> e in r
    ensures |rows| - |r| == |Filter(rows, Expires(cutoff))|
  {
    FilterComplement(rows, Survives(cutoff), Expires(cutoff));
    Filter(rows, Survives(cutoff))
  }

  const DefaultEventDaysToKeep: int := 30

  class RequestEventsService {
    var rows: seq<Event>

    ghost predicate Valid()
      reads this
    {
      DistinctIds(rows)
    }

    constructor ()
      ensures Valid() && rows == []
    {
      rows := [];
    }

    /** `insertEvent`: appends the bound row, or fails (and the caller sees
        the error) when the id is already taken. */
    method InsertEvent(e: EventInsert) returns (r: Outcome<DbError>)
      requires Valid()
      modifies this
      ensures Valid()
      ensures e.id in Ids(old(rows)) ==> r.Fail? && rows == old(rows)
      ensures e.id !in Ids(old(rows)) ==> r == Pass && rows == old(rows) + [RowOf(e)]
    {
      if e.id in Ids(rows) {
        return Fail(ConstraintViolation("UNIQUE constraint failed: request_events.id"));
      }
      forall i | 0 <= i < |rows| ensures rows[i].id != e.id {
        assert Ids(rows)[i] == rows[i].id;
      }
      rows := rows + [RowOf(e)];
      r := Pass;
    }

    /** `updateEventStatus`. */
    method UpdateEventStatus(id: string, st: Status)
      requires Valid() && st != Completed
      modifies this
      ensures Valid()
      ensures rows == UpdateWhereId(old(rows), id, SetStatus(st))
    {
      rows := UpdateWhereId(rows, id, SetStatus(st));
    }

    /** `updateEventResponse`: sets both numbers as given and status pending. */
    method UpdateEventResponse(id: string, responseTime: int, statusCode: int)
      requires Valid()
      modifies this
      ensures Valid()
      ensures rows == UpdateWhereId(old(rows), id, SetResponse(responseTime, statusCode, Pending))
    {
      rows := UpdateWhereId(rows, id, SetResponse(responseTime, statusCode, Pending));
    }

    /** `updateEventComplete`: writes status `'completed'`. */
    method UpdateEventComplete(id: string, responseTime: int, statusCode: int)
      requires Valid()
      modifies this
      ensures Valid()
      ensures rows == UpdateWhereId(old(rows), id, SetResponse(responseTime, statusCode, Completed))
    {
      rows := UpdateWhereId(rows, id, SetResponse(responseTime, statusCode, Completed));
    }

    /** `updateEventFailed`: status code 500, status failed. */
    method UpdateEventFailed(id: string, responseTime: int)
      requires Valid()
      modifies this
      ensures Valid()
      ensures rows == UpdateWhereId(old(rows), id, SetResponse(responseTime, 500, Failed))
    {
      rows := UpdateWhereId(rows, id, SetResponse(responseTime, 500, Failed));
    }

    /** `markEventProcessed`. */
    method MarkEventProcessed(id: string)
      requires Valid()
      modifies this
      ensures Valid()
      ensures rows == UpdateWhereId(old(rows), id, SetStatus(Processed))
    {
      rows := UpdateWhereId(rows, id, SetStatus(Processed));
    }

    /** `getNonCompletedEvents`. */
    function GetNonCompletedEvents(): (r: seq<Event>)
      reads this
      ensures multiset(r) == multiset(Filter(rows, IsPending))
      ensures forall i, j :: 0 <= i < j < |r| ==> r[i].timestamp <= r[j].timestamp
    {
      SelectNonCompleted(rows)
    }

    /** `getEventsByStatus`. */
    function GetEventsByStatus(st: Status): (r: seq<Event>)
      reads this
      requires st != Completed
      ensures multiset(r) == multiset(Filter(rows, HasStatus(st)))
      ensures forall i, j :: 0 <= i < j < |r| ==> r[i].timestamp >= r[j].timestamp
    {
      SelectByStatus(rows, st)
    }

    /** `getRecentCompletedEvents`. */
    function GetRecentCompletedEvents(since: int): (r: seq<Event>)
      reads this
      ensures multiset(r) == multiset(Filter(rows, ProcessedSince(since)))
      ensures forall i, j :: 0 <= i < j < |r| ==> r[i].timestamp >= r[j].timestamp
    {
      SelectRecentProcessed(rows, since)
    }

    /** `getEventCountsByStatus`: copies the `GROUP BY status` rows into a
        dictionary one by one. */
    method GetEventCountsByStatus() returns (counts: map<Status, nat>)
      ensures counts == EventCountsByStatus(rows)
    {
      var groups := StatusGroups(rows);
      ghost var spec := EventCountsByStatus(rows);
      counts := map[];
      var i := 0;
      while i < |groups|
        invariant 0 <= i <= |groups|
        invariant forall st :: st in counts ==> st in spec && counts[st] == spec[st]
        invariant forall k :: 0 <= k < i ==> groups[k].status in counts
      {
        var g := groups[i];
        assert g.status in spec && spec[g.status] == g.count;
        counts := counts[g.status := g.count];
        i := i + 1;
      }
      forall st | st in spec ensures st in counts {
        StatusGroupsComplete(rows, st);
      }
      assert counts == spec;
    }

    /** `getTop5Queries`. */
    function GetTop5Queries(): (r: seq<Ranked>)
      reads this
      ensures |r| <= 5 && DistinctKeys(r) && CountsNonIncreasing(r)
      ensures forall i :: 0 <= i < |r| ==> r[i].count == PathHits(rows, r[i].key)
    {
      Top5Queries(rows)
    }

    /** `getMostPopularCharacters`. */
    function GetMostPopularCharacters(): (r: seq<Ranked>)
      reads this
      ensures |r| <= 3 && CountsNonIncreasing(r)
      ensures forall i :: 0 <= i < |r| ==> r[i].count == PathHits(rows, PeoplePrefix + r[i].key)
    {
      PopularCharacters(rows)
    }

    /** `getMostPopularMovies`. */
    function GetMostPopularMovies(): (r: seq<Ranked>)
      reads this
      ensures |r| <= 3 && CountsNonIncreasing(r)
      ensures forall i :: 0 <= i < |r| ==> r[i].count == PathHits(rows, MoviePrefix + r[i].key)
    {
      PopularMovies(rows)
    }

    /** `cleanupOldEvents`: deletes the processed rows older than `daysToKeep`
        days (30 by default) before `now` and returns how many it deleted. */
    method CleanupOldEvents(now: int, daysToKeep: int := DefaultEventDaysToKeep) returns (removed: nat)
      requires Valid()
      modifies this
      ensures Valid()
      ensures rows == RetainedEvents(old(rows), Clock.DaysBefore(now, daysToKeep))
      ensures removed == |old(rows)| - |rows|
    {
      var cutoff := Clock.DaysBefore(now, daysToKeep);
      var before := rows;
      rows := RetainedEvents(rows, cutoff);
      forall i, j | 0 <= i < j < |rows| ensures rows[i].id != rows[j].id {
        FilterKeepsDistinctIds(before, Survives(cutoff));
      }
      removed := |before| - |rows|;
    }
  }

  /** Deleting rows keeps the primary key unique. */
  lemma {:induction false} FilterKeepsDistinctIds(rows: seq<Event>, p: Event -> bool)
    requires DistinctIds(rows)
    ensures DistinctIds(Filter(rows, p))
  {
    if |rows| > 0 {
      FilterKeepsDistinctIds(rows[1..], p);
      var t := Filter(rows[1..], p);
      forall k | 0 <= k < |t| ensures t[k].id != rows[0].id {
        assert t[k] in rows[1..];
      }
    }
  }
}
