/** The `statistics` table of precomputed snapshots, shared by
    `StatisticsDatabase` (server/src/statistics/database.ts) and
    `StatisticsTableService` (server/src/database/statisticsTableService.ts),
    which prepare the same three statements against the same table. */
module StatisticsTable {
  import opened Wrappers
  import opened Seqs
  import opened Ranking
  import Clock

  /** `StatisticsInsert`: the popular lists are optional. */
  datatype StatisticsInsert = StatisticsInsert(
    top5Queries: seq<Ranked>,
    totalRequests: int,
    popularCharacters: Option<seq<Ranked>>,
    popularMovies: Option<seq<Ranked>>,
    computedAt: int)

  /** A stored row; `None` is SQL `NULL`. `id` is the row's integer key,
      assigned in insertion order. */
  datatype StatisticsRow = StatisticsRow(
    id: nat,
    top5Queries: seq<Ranked>,
    totalRequests: int,
    popularCharacters: Option<seq<Ranked>>,
    popularMovies: Option<seq<Ranked>>,
    computedAt: int)

  /** `ComputedStatistics`: what reading the latest row decodes to. */
  datatype ComputedStatistics = ComputedStatistics(
    top5Queries: seq<Ranked>,
    totalRequests: int,
    popularCharacters: seq<Ranked>,
    popularMovies: seq<Ranked>,
    computedAt: int)

  ghost predicate DistinctIds(rows: seq<StatisticsRow>) {
    forall i, j :: 0 <= i < j < |rows| ==> rows[i].id != rows[j].id
  }

  /** How many of the most recent rows cleanup always keeps. */
  const KeepMostRecent: nat := 10

  /** The row the insert statement stores. A present popular list is stored
      even when empty (an array is truthy); an absent one becomes `NULL`. */
  function RowOf(id: nat, s: StatisticsInsert): (row: StatisticsRow)
    ensures row.id == id && row.top5Queries == s.top5Queries && row.totalRequests == s.totalRequests
    ensures row.computedAt == s.computedAt
    ensures row.popularCharacters == s.popularCharacters && row.popularMovies == s.popularMovies
    ensures row.popularCharacters.None? <==> s.popularCharacters.None?
    ensures row.popularMovies.None? <==> s.popularMovies.None?
  {
    StatisticsRow(id, s.top5Queries, s.totalRequests, s.popularCharacters, s.popularMovies, s.computedAt)
  }

  /** The decoding in `getLatestStatistics`: a `NULL` popular list reads as
      `[]`; everything else passes through. */
  function Decode(row: StatisticsRow): (c: ComputedStatistics)
    ensures c.top5Queries == row.top5Queries && c.totalRequests == row.totalRequests && c.computedAt == row.computedAt
    ensures row.popularCharacters.None? ==> c.popularCharacters == []
    ensures row.popularMovies.None? ==> c.popularMovies == []
    ensures row.popularCharacters.Some? ==> c.popularCharacters == row.popularCharacters.value
    ensures row.popularMovies.Some? ==> c.popularMovies == row.popularMovies.value
  {
    ComputedStatistics(row.top5Queries, row.totalRequests,
                       row.popularCharacters.GetOr([]), row.popularMovies.GetOr([]), row.computedAt)
  }

  /** Decoding a stored snapshot gives back what was inserted, with an absent
      popular list read back as `[]`. */
  lemma DecodeRowOf(id: nat, s: StatisticsInsert)
    ensures Decode(RowOf(id, s)) ==
      ComputedStatistics(s.top5Queries, s.totalRequests, s.popularCharacters.GetOr([]),
                         s.popularMovies.GetOr([]), s.computedAt)
  {
  }

  /** Sort key for `ORDER BY computed_at DESC`. */
  function NewestFirst(row: StatisticsRow): int {
    -row.computedAt
  }

  /** The rows ordered by `computed_at DESC` (both `selectLatest` and the
      cleanup sub-query use this order). */
  function ByRecency(rows: seq<StatisticsRow>): (r: seq<StatisticsRow>)
    ensures multiset(r) == multiset(rows) && |r| == |rows|
    ensures forall i, j :: 0 <= i < j < |r| ==> r[i].computedAt >= r[j].computedAt
  {
    var r := SortBy(rows, NewestFirst);
    assert forall i, j :: 0 <= i < j < |r| ==> NewestFirst(r[i]) <= NewestFirst(r[j]);
    r
  }

  /** `SELECT * FROM statistics ORDER BY computed_at DESC LIMIT 1`: nothing
      for an empty table, otherwise a stored row no other row is newer than. */
  function Latest(rows: seq<StatisticsRow>): (r: Option<StatisticsRow>)
    ensures r.None? <==> |rows| == 0
    ensures r.Some? ==> r.value in rows && forall x :: x in rows ==> x.computedAt <= r.value.computedAt
  {
    var sorted := ByRecency(rows);
    if |sorted| == 0 then None
    else
      assert sorted[0] in multiset(rows);
      assert forall x :: x in rows ==> x.computedAt <= sorted[0].computedAt by {
        forall x | x in rows ensures x.computedAt <= sorted[0].computedAt {
          assert x in multiset(sorted);
          var k :| 0 <= k < |sorted| && sorted[k] == x;
        }
      }
      Some(sorted[0])
  }

  /** A snapshot newer than every stored row is what the latest read returns
      once it is inserted, and it decodes to the inserted values (an absent
      popular list as `[]`). */
  lemma LatestAfterNewerInsert(rows: seq<StatisticsRow>, id: nat, s: StatisticsInsert)
    requires forall x :: x in rows ==> x.computedAt < s.computedAt
    ensures Latest(rows + [RowOf(id, s)]) == Some(RowOf(id, s))
    ensures Decode(Latest(rows + [RowOf(id, s)]).value) ==
      ComputedStatistics(s.top5Queries, s.totalRequests, s.popularCharacters.GetOr([]),
                         s.popularMovies.GetOr([]), s.computedAt)
  {
    var all := rows + [RowOf(id, s)];
    assert RowOf(id, s) in all;
  }

  /** The ids of the first 10 rows of an ordering of the table. */
  function TopTenIds(sorted: seq<StatisticsRow>): set<nat> {
    var recent := Take(sorted, KeepMostRecent);
    set k | 0 <= k < |recent| :: recent[k].id
  }

  /** The ids of the 10 most recent rows (the `NOT IN` sub-query). */
  function RecentIds(rows: seq<StatisticsRow>): set<nat> {
    TopTenIds(ByRecency(rows))
  }

  function Kept(cutoff: int, recent: set<nat>): StatisticsRow -> bool {
    (row: StatisticsRow) => !(row.computedAt < cutoff && row.id !in recent)
  }

  function Deleted(cutoff: int, recent: set<nat>): StatisticsRow -> bool {
    (row: StatisticsRow) => row.computedAt < cutoff && row.id !in recent
  }

  /** What `DELETE FROM statistics WHERE computed_at < ? AND id NOT IN
      (<10 most recent>)` leaves: the rows that are not older than the cutoff
      or are among the 10 most recent, in order; the number removed is the
      number of rows that are both. */
  function CleanupRows(rows: seq<StatisticsRow>, cutoff: int): (r: seq<StatisticsRow>)
    ensures forall x :: x in r <==> x in rows && (x.computedAt >= cutoff || x.id in RecentIds(rows))
    ensures forall x :: x in rows && x.computedAt >= cutoff ==> x in r
    ensures |rows| - |r| == |Filter(rows, Deleted(cutoff, RecentIds(rows)))|
  {
    var recent := RecentIds(rows);
    FilterComplement(rows, Kept(cutoff, recent), Deleted(cutoff, recent));
    Filter(rows, Kept(cutoff, recent))
  }

  /** The first `n` elements of a sequence are a sub-multiset of it. */
  lemma {:induction false} TakeSubMultiset<T>(s: seq<T>, n: nat)
    ensures multiset(Take(s, n)) <= multiset(s)
    ensures |Take(s, n)| == if |s| <= n then |s| else n
  {
    if n < |s| {
      assert s == s[..n] + s[n..];
      assert multiset(s) == multiset(s[..n]) + multiset(s[n..]);
    }
  }

  /** Every row among the 10 most recent survives cleanup, so at least
      min(10, |rows|) rows remain. */
  lemma CleanupKeepsTen(rows: seq<StatisticsRow>, cutoff: int)
    ensures |CleanupRows(rows, cutoff)| >= if |rows| <= KeepMostRecent then |rows| else KeepMostRecent
  {
    var sorted := ByRecency(rows);
    var recent := Take(sorted, KeepMostRecent);
    var p := Kept(cutoff, RecentIds(rows));
    TakeSubMultiset(sorted, KeepMostRecent);
    forall x | x in recent ensures p(x) {
      var k :| 0 <= k < |recent| && recent[k] == x;
      assert x.id in RecentIds(rows);
    }
    SubMultisetFilterLength(recent, rows, p);
  }

  /** The row the latest read returns is never removed by cleanup, and stays
      the latest. */
  lemma CleanupKeepsLatest(rows: seq<StatisticsRow>, cutoff: int)
    requires |rows| > 0
    ensures Latest(rows).value in CleanupRows(rows, cutoff)
    ensures forall x :: x in CleanupRows(rows, cutoff) ==> x.computedAt <= Latest(rows).value.computedAt
  {
    var sorted := ByRecency(rows);
    var recent := Take(sorted, KeepMostRecent);
    assert recent[0] == sorted[0] == Latest(rows).value;
    assert sorted[0].id in RecentIds(rows);
  }

  /** SQL may order rows with equal `computed_at` differently in the latest
      read and in the sub-query. Whatever newest-first order the sub-query
      uses, the cleanup keeps a row that no stored row is newer than. */
  lemma CleanupKeepsNewestAnyOrder(rows: seq<StatisticsRow>, cutoff: int, sorted: seq<StatisticsRow>)
    requires |rows| > 0
    requires multiset(sorted) == multiset(rows)
    requires forall i, j :: 0 <= i < j < |sorted| ==> sorted[i].computedAt >= sorted[j].computedAt
    ensures exists x :: x in rows && Kept(cutoff, TopTenIds(sorted))(x)
                        && forall y :: y in rows ==> y.computedAt <= x.computedAt
  {
    assert rows[0] in multiset(sorted);
    var x := sorted[0];
    assert x in multiset(rows);
    assert Take(sorted, KeepMostRecent)[0] == x;
    assert x.id in TopTenIds(sorted);
    forall y | y in rows ensures y.computedAt <= x.computedAt {
      assert y in multiset(sorted);
      var k :| 0 <= k < |sorted| && sorted[k] == y;
    }
  }

  /** The table and the key its next insert receives. */
  class Table {
    var rows: seq<StatisticsRow>
    var nextId: nat

    /** Keys are distinct and below the next one. */
    ghost predicate Valid()
      reads this
    {
      (forall i :: 0 <= i < |rows| ==> rows[i].id < nextId) && DistinctIds(rows)
    }

    constructor ()
      ensures Valid() && rows == [] && nextId == 0
    {
      rows := [];
      nextId := 0;
    }

    /** The insert statement: appends one row and leaves the others as they were. */
    method Insert(s: StatisticsInsert)
      requires Valid()
      modifies this
      ensures Valid()
      ensures rows == old(rows) + [RowOf(old(nextId), s)] && nextId == old(nextId) + 1
    {
      rows := rows + [RowOf(nextId, s)];
      nextId := nextId + 1;
    }

    /** The latest-row statement. */
    function SelectLatest(): (r: Option<StatisticsRow>)
      reads this
      ensures r.None? <==> |rows| == 0
      ensures r.Some? ==> r.value in rows && forall x :: x in rows ==> x.computedAt <= r.value.computedAt
    {
      Latest(rows)
    }

    /** The cleanup statement with the cutoff `daysToKeep` days before `now`;
        returns the number of rows deleted. */
    method Cleanup(now: int, daysToKeep: int) returns (removed: nat)
      requires Valid()
      modifies this
      ensures Valid()
      ensures rows == CleanupRows(old(rows), Clock.DaysBefore(now, daysToKeep)) && nextId == old(nextId)
      ensures removed == |old(rows)| - |rows|
    {
      var before := rows;
      var cutoff := Clock.DaysBefore(now, daysToKeep);
      rows := CleanupRows(rows, cutoff);
      FilterKeepsDistinct(before, Kept(cutoff, RecentIds(before)));
      forall i | 0 <= i < |rows| ensures rows[i].id < nextId {
        assert rows[i] in before;
      }
      removed := |before| - |rows|;
    }
  }

  /** Deleting rows keeps the keys distinct. */
  lemma {:induction false} FilterKeepsDistinct(rows: seq<StatisticsRow>, p: StatisticsRow -> bool)
    requires DistinctIds(rows)
    ensures DistinctIds(Filter(rows, p))
  {
    if |rows| > 0 {
      FilterKeepsDistinct(rows[1..], p);
      var t := Filter(rows[1..], p);
      forall k | 0 <= k < |t| ensures t[k].id != rows[0].id {
        assert t[k] in rows[1..];
      }
    }
  }
}
