/** The `SELECT key, COUNT(*) ... GROUP BY key ORDER BY count DESC LIMIT n`
    shape shared by the top-5 paths query, the two popular-entity queries and
    the unique-paths query. SQL leaves the order of equal counts unspecified;
    the model fixes one order, and every property below holds for any order
    with non-increasing counts. */
module Ranking {
  import opened Seqs

  /** One row of a grouped count: the key (a path or an entity id) and how
      many rows had it. */
  datatype Ranked = Ranked(key: string, count: nat)

  function Keys(r: seq<Ranked>): seq<string> {
    seq(|r|, i requires 0 <= i < |r| => r[i].key)
  }

  ghost predicate DistinctKeys(r: seq<Ranked>) {
    forall i, j :: 0 <= i < j < |r| ==> r[i].key != r[j].key
  }

  ghost predicate CountsNonIncreasing(r: seq<Ranked>) {
    forall i, j :: 0 <= i < j < |r| ==> r[i].count >= r[j].count
  }

  /** Sort key for `ORDER BY count DESC`. */
  function CountDesc(e: Ranked): int {
    -(e.count as int)
  }

  /** The groups of `GROUP BY key` with `COUNT(*)`: every distinct key of
      `s` once, with its number of occurrences. */
  function Tally(s: seq<string>): (r: seq<Ranked>)
    ensures DistinctKeys(r)
    ensures forall i :: 0 <= i < |r| ==> r[i].key in s && r[i].count == Occurrences(s, r[i].key)
    ensures forall x :: x in s ==> x in Keys(r)
  {
    var d := Distinct(s);
    var r := seq(|d|, i requires 0 <= i < |d| => Ranked(d[i], Occurrences(s, d[i])));
    assert forall x :: x in s ==> x in Keys(r) by {
      forall x | x in s ensures x in Keys(r) {
        var i :| 0 <= i < |d| && d[i] == x;
        assert Keys(r)[i] == x;
      }
    }
    r
  }

  /** Reordering a sequence keeps its keys distinct. */
  lemma PermutationKeepsDistinctKeys(a: seq<Ranked>, b: seq<Ranked>)
    requires multiset(a) == multiset(b)
    requires DistinctKeys(a)
    ensures DistinctKeys(b)
  {
    assert NoDuplicates(a) by {
      forall p, q | 0 <= p < q < |a| ensures a[p] != a[q] {
        assert a[p].key != a[q].key;
      }
    }
    forall i, j | 0 <= i < j < |b| ensures b[i].key != b[j].key {
      NoDuplicatesMultiplicity(a, b[i]);
      SinglePosition(b, i, j);
      assert b[i] in multiset(a) && b[j] in multiset(a);
      var p :| 0 <= p < |a| && a[p] == b[i];
      var q :| 0 <= q < |a| && a[q] == b[j];
    }
  }

  /** Reordering keeps each entry's count tied to its key, and keeps the
      set of keys. */
  lemma PermutationKeepsEntries(s: seq<string>, a: seq<Ranked>, b: seq<Ranked>)
    requires multiset(a) == multiset(b)
    requires forall i :: 0 <= i < |a| ==> a[i].key in s && a[i].count == Occurrences(s, a[i].key)
    requires forall x :: x in s ==> x in Keys(a)
    ensures forall i :: 0 <= i < |b| ==> b[i].key in s && b[i].count == Occurrences(s, b[i].key)
    ensures forall x :: x in s <==> x in Keys(b)
  {
    forall i | 0 <= i < |b| ensures b[i].key in s && b[i].count == Occurrences(s, b[i].key) {
      assert b[i] in multiset(a);
    }
    forall x | x in s ensures x in Keys(b) {
      var k :| 0 <= k < |a| && Keys(a)[k] == x;
      assert a[k] in multiset(b);
      var m :| 0 <= m < |b| && b[m] == a[k];
      assert Keys(b)[m] == x;
    }
  }

  lemma SortedByCountDesc(r: seq<Ranked>)
    requires SortedBy(r, CountDesc)
    ensures CountsNonIncreasing(r)
  {
    forall i, j | 0 <= i < j < |r| ensures r[i].count >= r[j].count {
      assert CountDesc(r[i]) <= CountDesc(r[j]);
    }
  }

  /** All groups of `s`, ordered by count descending (the unique-paths
      query, which has no `LIMIT`). */
  function RankAll(s: seq<string>): (r: seq<Ranked>)
    ensures DistinctKeys(r)
    ensures CountsNonIncreasing(r)
    ensures forall i :: 0 <= i < |r| ==> r[i].key in s && r[i].count == Occurrences(s, r[i].key)
    ensures forall x :: x in s <==> x in Keys(r)
  {
    var t := Tally(s);
    var r := SortBy(t, CountDesc);
    PermutationKeepsDistinctKeys(t, r);
    PermutationKeepsEntries(s, t, r);
    SortedByCountDesc(r);
    r
  }

  /** What `LIMIT n` leaves out of a ranking counts no more than what it keeps. */
  lemma TakeOmitted(s: seq<string>, all: seq<Ranked>, n: nat, x: string)
    requires CountsNonIncreasing(all)
    requires forall i :: 0 <= i < |all| ==> all[i].count == Occurrences(s, all[i].key)
    requires x in Keys(all) && x !in Keys(Take(all, n))
    ensures |Take(all, n)| == n
    ensures forall i :: 0 <= i < n ==> Occurrences(s, x) <= Take(all, n)[i].count
  {
    var r := Take(all, n);
    var m :| 0 <= m < |all| && Keys(all)[m] == x;
    forall k | 0 <= k < |r| ensures all[k].key != x {
      assert Keys(r)[k] == all[k].key;
    }
    forall i | 0 <= i < n ensures Occurrences(s, x) <= r[i].count {
      assert r[i] == all[i];
    }
  }

  /** Keeping a prefix of a ranking keeps its keys distinct, its order and
      each entry's count. */
  lemma TakeKeepsEntries(s: seq<string>, all: seq<Ranked>, n: nat)
    requires DistinctKeys(all) && CountsNonIncreasing(all)
    requires forall i :: 0 <= i < |all| ==> all[i].key in s && all[i].count == Occurrences(s, all[i].key)
    ensures var r := Take(all, n);
      |r| <= n && DistinctKeys(r) && CountsNonIncreasing(r)
      && forall i :: 0 <= i < |r| ==> r[i].key in s && r[i].count == Occurrences(s, r[i].key)
  {
    var r := Take(all, n);
    assert forall i :: 0 <= i < |r| ==> r[i] == all[i];
  }

  /** The first `n` groups of `s` by count descending
      (`ORDER BY count DESC LIMIT n`): at most `n` entries with distinct keys,
      each with its exact count, in non-increasing order; a key is left out
      only when the list is full and then counts no more than any entry. */
  function TopN(s: seq<string>, n: nat): (r: seq<Ranked>)
    ensures |r| <= n
    ensures DistinctKeys(r)
    ensures CountsNonIncreasing(r)
    ensures forall i :: 0 <= i < |r| ==> r[i].key in s && r[i].count == Occurrences(s, r[i].key)
    ensures forall x :: x in s && x !in Keys(r) ==>
              |r| == n && forall i :: 0 <= i < |r| ==> Occurrences(s, x) <= r[i].count
  {
    var all := RankAll(s);
    TakeKeepsEntries(s, all, n);
    forall x | x in s && x !in Keys(Take(all, n))
      ensures |Take(all, n)| == n && forall i :: 0 <= i < n ==> Occurrences(s, x) <= Take(all, n)[i].count
    {
      TakeOmitted(s, all, n, x);
    }
    Take(all, n)
  }
}
