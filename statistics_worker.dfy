/** `StatisticsWorker` (server/src/workers/statisticsWorker.ts): a
    start/stop state machine over one repeating timer, whose cycle drains
    the pending request events and appends one snapshot. The timer is
    explicit: `Start` installs it, `Stop` clears it and `Tick` is one firing. */
module StatisticsWorker {
  import opened Wrappers
  import opened Seqs
  import opened Ranking
  import opened RequestEvents
  import ST = StatisticsTable
  import StatisticsService

  /** A timer handle as `setInterval` returns it. */
  type TimerId = nat

  /** Which database calls of one cycle throw. */
  datatype Faults = Faults(
    readPendingFails: bool,     // `getNonCompletedEvents`
    markFails: set<string>,     // `markEventProcessed` for these ids
    computeFails: bool,         // any query of `computeStatisticsForTimeWindow`
    insertFails: bool)          // `insertStatistics`

  const NoFaults := Faults(false, {}, false, false)

  /** The all-time figures `computeStatisticsForTimeWindow` gathers. */
  datatype WindowStatistics = WindowStatistics(
    top5Queries: seq<Ranked>,
    totalRequests: nat,
    popularCharacters: seq<Ranked>,
    popularMovies: seq<Ranked>)

  /** What a cycle computes from the event table, or the zeroed figures when
      a query throws. */
  function AllTimeStatistics(rows: seq<Event>, fails: bool): (w: WindowStatistics)
    ensures fails ==> w == WindowStatistics([], 0, [], [])
    ensures !fails ==> w.totalRequests == CountStatus(rows, Processed)
    ensures !fails ==> w.top5Queries == Top5Queries(rows)
    ensures !fails ==> w.popularCharacters == PopularCharacters(rows) && w.popularMovies == PopularMovies(rows)
  {
    if fails then WindowStatistics([], 0, [], [])
    else WindowStatistics(Top5Queries(rows), ProcessedOrZero(EventCountsByStatus(rows)),
                          PopularCharacters(rows), PopularMovies(rows))
  }

  /** The snapshot `computeAndStoreStatistics` inserts: both popular lists
      are present (possibly empty) and carry no names. */
  function SnapshotOf(w: WindowStatistics, now: int): ST.StatisticsInsert {
    ST.StatisticsInsert(w.top5Queries, w.totalRequests, Some(w.popularCharacters), Some(w.popularMovies), now)
  }

  /** The snapshot table after `computeAndStoreStatistics` ran against the
      event rows `rows`: one more row, unless the insert threw. */
  function AfterStore(stats: seq<ST.StatisticsRow>, nextId: nat, rows: seq<Event>, now: int, f: Faults): seq<ST.StatisticsRow> {
    if f.insertFails then stats
    else stats + [ST.RowOf(nextId, SnapshotOf(AllTimeStatistics(rows, f.computeFails), now))]
  }

  /** The ids of the rows `getNonCompletedEvents` returns. */
  function PendingIds(rows: seq<Event>): set<string> {
    set e | e in rows && e.status == Pending :: e.id
  }

  /** The event table after a drain: every row with the id of a pending row
      is processed, except the ids whose update threw; nothing is marked
      when the read threw. */
  function Drained(rows: seq<Event>, f: Faults): seq<Event> {
    if f.readPendingFails then rows else MarkAll(rows, PendingIds(rows) - f.markFails)
  }

  /** A drain keeps every row in place; each pending row whose own update did
      not fail is processed afterwards and every other row is unchanged,
      so a failure on one event does not keep the others from being marked.
      The last clause needs the primary key: with distinct ids only pending
      rows are touched. */
  lemma DrainedEffect(rows: seq<Event>, f: Faults)
    requires DistinctIds(rows)
    ensures |Drained(rows, f)| == |rows|
    ensures !f.readPendingFails ==> forall i :: 0 <= i < |rows| && rows[i].status == Pending && rows[i].id !in f.markFails ==>
              Drained(rows, f)[i] == rows[i].(status := Processed)
    ensures forall i :: 0 <= i < |rows| && (rows[i].status != Pending || rows[i].id in f.markFails) ==>
              Drained(rows, f)[i] == rows[i]
  {
    if !f.readPendingFails {
      forall i | 0 <= i < |rows| && rows[i].status != Pending ensures rows[i].id !in PendingIds(rows) {
      }
    }
  }

  /** Marking exactly the pending rows moves the pending count into the
      processed count. */
  lemma {:induction false} MarkPendingCounts(rows: seq<Event>, ids: set<string>)
    requires forall i :: 0 <= i < |rows| ==> (rows[i].id in ids <==> rows[i].status == Pending)
    ensures CountStatus(MarkAll(rows, ids), Processed) == CountStatus(rows, Pending) + CountStatus(rows, Processed)
    ensures CountStatus(MarkAll(rows, ids), Pending) == 0
  {
    if |rows| > 0 {
      assert MarkAll(rows, ids)[1..] == MarkAll(rows[1..], ids);
      MarkPendingCounts(rows[1..], ids);
    }
  }

  /** Starting from N pending and no processed events, a cycle without
      failures appends a snapshot whose total is N. */
  lemma CycleTotal(rows: seq<Event>, now: int)
    requires DistinctIds(rows) && CountStatus(rows, Processed) == 0
    ensures SnapshotOf(AllTimeStatistics(Drained(rows, NoFaults), false), now).totalRequests == CountStatus(rows, Pending)
  {
    var ids := PendingIds(rows);
    forall i | 0 <= i < |rows| ensures rows[i].id in ids <==> rows[i].status == Pending {
    }
    assert Drained(rows, NoFaults) == MarkAll(rows, ids - {});
    assert ids - {} == ids;
    MarkPendingCounts(rows, ids);
  }

  /** The ids of the first `i` events of `pending`. */
  ghost function IdsBefore(pending: seq<Event>, i: nat): set<string>
    requires i <= |pending|
  {
    set k | 0 <= k < i :: pending[k].id
  }

  lemma IdsBeforeStep(pending: seq<Event>, i: nat)
    requires i < |pending|
    ensures IdsBefore(pending, i + 1) == IdsBefore(pending, i) + {pending[i].id}
  {
  }

  /** One iteration of the drain: marking the next event, or skipping it
      when its update throws, extends the set of marked ids by that event. */
  lemma DrainStep(rows: seq<Event>, pending: seq<Event>, i: nat, fails: set<string>)
    requires i < |pending|
    ensures pending[i].id !in fails ==>
      UpdateWhereId(MarkAll(rows, IdsBefore(pending, i) - fails), pending[i].id, SetStatus(Processed))
        == MarkAll(rows, IdsBefore(pending, i + 1) - fails)
    ensures pending[i].id in fails ==>
      MarkAll(rows, IdsBefore(pending, i) - fails) == MarkAll(rows, IdsBefore(pending, i + 1) - fails)
  {
    IdsBeforeStep(pending, i);
    var id := pending[i].id;
    if id !in fails {
      MarkOneMore(rows, IdsBefore(pending, i) - fails, id);
      assert (IdsBefore(pending, i) - fails) + {id} == IdsBefore(pending, i + 1) - fails;
    } else {
      assert IdsBefore(pending, i) - fails == IdsBefore(pending, i + 1) - fails;
    }
  }

  /** The events `getNonCompletedEvents` reads are the pending rows. */
  lemma SelectedPending(rows: seq<Event>, pending: seq<Event>, e: Event)
    requires pending == SelectNonCompleted(rows)
    ensures e in pending <==> e in rows && e.status == Pending
  {
    assert e in pending <==> e in multiset(pending);
    assert e in Filter(rows, IsPending) <==> e in multiset(Filter(rows, IsPending));
  }

  /** The ids of the events `getNonCompletedEvents` read are the pending ids. */
  lemma SelectedPendingIds(rows: seq<Event>, pending: seq<Event>)
    requires pending == SelectNonCompleted(rows)
    ensures IdsBefore(pending, |pending|) == PendingIds(rows)
  {
    forall x | x in PendingIds(rows) ensures x in IdsBefore(pending, |pending|) {
      var e :| e in rows && e.status == Pending && e.id == x;
      SelectedPending(rows, pending, e);
      var k :| 0 <= k < |pending| && pending[k] == e;
    }
    forall x | x in IdsBefore(pending, |pending|) ensures x in PendingIds(rows) {
      var k :| 0 <= k < |pending| && pending[k].id == x;
      SelectedPending(rows, pending, pending[k]);
    }
  }

  /** After the last iteration the marked ids are the pending ids less the
      failed ones, which is the drain. */
  lemma DrainComplete(rows: seq<Event>, pending: seq<Event>, f: Faults)
    requires pending == SelectNonCompleted(rows) && !f.readPendingFails
    ensures MarkAll(rows, IdsBefore(pending, |pending|) - f.markFails) == Drained(rows, f)
  {
    SelectedPendingIds(rows, pending);
  }

  class StatisticsWorker {
    var isRunning: bool
    /** `intervalId`: the installed timer, `None` for `null`. */
    var intervalId: Option<TimerId>
    /** The timers installed and not yet cleared. */
    var liveTimers: set<TimerId>
    const events: RequestEventsService
    const statistics: ST.Table

    /** Running exactly when a timer is installed, and that timer is the
        only live one. */
    ghost predicate Valid()
      reads this, events, statistics
    {
      && (isRunning <==> intervalId.Some?)
      && liveTimers == (if intervalId.Some? then {intervalId.value} else {})
      && events.Valid() && statistics.Valid()
    }

    constructor (events: RequestEventsService, statistics: ST.Table)
      requires events.Valid() && statistics.Valid()
      ensures Valid() && !isRunning && intervalId == None && liveTimers == {}
      ensures this.events == events && this.statistics == statistics
    {
      this.events := events;
      this.statistics := statistics;
      isRunning := false;
      intervalId := None;
      liveTimers := {};
    }

    /** `isWorkerRunning`. */
    function IsWorkerRunning(): (r: bool)
      reads this, events, statistics
      requires Valid()
      ensures r <==> intervalId.Some?
    {
      isRunning
    }

    /** `processPendingEvents`: reads the pending events once, then marks
        each one processed; an id whose update throws is skipped and the loop
        carries on. */
    method ProcessPendingEvents(f: Faults)
      requires Valid()
      modifies events
      ensures Valid()
      ensures events.rows == Drained(old(events.rows), f)
    {
      if f.readPendingFails {
        return;
      }
      var rows0 := events.rows;
      var pending := events.GetNonCompletedEvents();
      MarkEach(pending, f.markFails);
      DrainComplete(rows0, pending, f);
    }

    /** The `for` loop of `processPendingEvents`: marks each event of
        `pending` processed in turn, skipping the ids whose update throws. */
    method MarkEach(pending: seq<Event>, fails: set<string>)
      requires events.Valid()
      modifies events
      ensures events.Valid()
      ensures events.rows == MarkAll(old(events.rows), IdsBefore(pending, |pending|) - fails)
    {
      ghost var rows0 := events.rows;
      var i := 0;
      while i < |pending|
        invariant 0 <= i <= |pending|
        invariant events.Valid()
        invariant events.rows == MarkAll(rows0, IdsBefore(pending, i) - fails)
      {
        DrainStep(rows0, pending, i, fails);
        if pending[i].id !in fails {
          events.MarkEventProcessed(pending[i].id);
        }
        i := i + 1;
      }
    }

    /** `computeStatisticsForTimeWindow`: reads only. */
    method ComputeStatisticsForTimeWindow(fails: bool) returns (w: WindowStatistics)
      ensures w == AllTimeStatistics(events.rows, fails)
    {
      if fails {
        return WindowStatistics([], 0, [], []);
      }
      var top5 := events.GetTop5Queries();
      var counts := events.GetEventCountsByStatus();
      var total := ProcessedOrZero(counts);
      var characters := events.GetMostPopularCharacters();
      var movies := events.GetMostPopularMovies();
      w := WindowStatistics(top5, total, characters, movies);
    }

    /** `computeAndStoreStatistics`: appends one snapshot stamped `now`
        (zeroed when the computation fails), or nothing when the insert
        throws. */
    method ComputeAndStoreStatistics(now: int, f: Faults)
      requires Valid()
      modifies statistics
      ensures Valid()
      ensures statistics.rows == AfterStore(old(statistics.rows), old(statistics.nextId), events.rows, now, f)
    {
      var w := ComputeStatisticsForTimeWindow(f.computeFails);
      if !f.insertFails {
        StatisticsService.InsertStatistics(statistics, SnapshotOf(w, now));
      }
    }

    /** `processStatistics`: one cycle. It changes only event statuses and
        appends at most one snapshot; it deletes nothing and adds no names. */
    method ProcessStatistics(now: int, f: Faults)
      requires Valid()
      modifies events, statistics
      ensures Valid()
      ensures events.rows == Drained(old(events.rows), f)
      ensures statistics.rows == AfterStore(old(statistics.rows), old(statistics.nextId), events.rows, now, f)
    {
      ProcessPendingEvents(f);
      ComputeAndStoreStatistics(now, f);
    }

    /** `start`: when stopped, sets the flag, installs the timer `timer` and
        runs one cycle at once; when already running, does nothing. */
    method Start(timer: TimerId, now: int, f: Faults)
      requires Valid()
      modifies this, events, statistics
      ensures Valid() && isRunning && |liveTimers| == 1
      ensures old(isRunning) ==>
        intervalId == old(intervalId) && liveTimers == old(liveTimers)
        && events.rows == old(events.rows) && statistics.rows == old(statistics.rows)
        && statistics.nextId == old(statistics.nextId)
      ensures !old(isRunning) ==>
        intervalId == Some(timer) && liveTimers == {timer}
        && events.rows == Drained(old(events.rows), f)
        && statistics.rows == AfterStore(old(statistics.rows), old(statistics.nextId), events.rows, now, f)
    {
      if isRunning {
        return;
      }
      isRunning := true;
      intervalId := Some(timer);
      liveTimers := liveTimers + {timer};
      ProcessStatistics(now, f);
    }

    /** `stop`: when running, clears the timer and the flag; when stopped,
        does nothing. */
    method Stop()
      requires Valid()
      modifies this
      ensures Valid() && !isRunning && intervalId == None && liveTimers == {}
    {
      if !isRunning {
        return;
      }
      if intervalId.Some? {
        liveTimers := liveTimers - {intervalId.value};
        intervalId := None;
      }
      isRunning := false;
    }

    /** One firing of timer `timer`: a cycle when it is live, nothing when it
        was cleared. */
    method Tick(timer: TimerId, now: int, f: Faults)
      requires Valid()
      modifies events, statistics
      ensures Valid()
      ensures timer !in liveTimers ==>
        events.rows == old(events.rows) && statistics.rows == old(statistics.rows)
        && statistics.nextId == old(statistics.nextId)
      ensures timer in liveTimers ==>
        events.rows == Drained(old(events.rows), f)
        && statistics.rows == AfterStore(old(statistics.rows), old(statistics.nextId), events.rows, now, f)
    {
      if timer in liveTimers {
        ProcessStatistics(now, f);
      }
    }
  }
}
