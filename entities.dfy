/** The `entities` table (server/src/database/init.ts) and the record types
    stored in it (server/src/database/types.ts): each row holds one movie or
    one person, keyed by the pair of its id and its type. */
module Entities {
  import opened Wrappers
  import opened Seqs

  /** `MovieProperties` (server/src/movies/service.ts). */
  datatype MovieProperties = MovieProperties(
    title: string,
    episodeId: int,
    openingCrawl: string,
    director: string,
    producer: string,
    releaseDate: string,
    species: seq<string>,
    starships: seq<string>,
    vehicles: seq<string>,
    characters: seq<string>,
    planets: seq<string>,
    url: string,
    created: string,
    edited: string)

  /** `PersonProperties` (server/src/people/service.ts). */
  datatype PersonProperties = PersonProperties(
    name: string,
    birthYear: string,
    eyeColor: string,
    gender: string,
    hairColor: string,
    height: string,
    mass: string,
    skinColor: string,
    homeworld: string,
    films: seq<string>,
    species: seq<string>,
    starships: seq<string>,
    vehicles: seq<string>,
    url: string,
    created: string,
    edited: string)

  /** `DatabaseMovie`: the properties together with the id. */
  datatype DatabaseMovie = DatabaseMovie(id: string, props: MovieProperties)

  /** `DatabasePerson`: the properties together with the id. */
  datatype DatabasePerson = DatabasePerson(id: string, props: PersonProperties)

  /** `{ id, name }`: what the searches return. */
  datatype Summary = Summary(id: string, name: string)

  /** The `type` column. */
  datatype EntityType = MovieType | PersonType

  /** The `data` column: the stored record. */
  datatype Data = MovieData(movie: DatabaseMovie) | PersonData(person: DatabasePerson)

  datatype EntityRow = EntityRow(id: string, kind: EntityType, data: Data)

  predicate HasKey(row: EntityRow, id: string, kind: EntityType) {
    row.id == id && row.kind == kind
  }

  /** `PRIMARY KEY (id, type)`. */
  ghost predicate UniqueKeys(rows: seq<EntityRow>) {
    forall i, j :: 0 <= i < j < |rows| ==> !HasKey(rows[j], rows[i].id, rows[i].kind)
  }

  /** What the save statements write: a movie record under its own id in a
      movie row, a person record under its own id in a person row. */
  ghost predicate WellTyped(row: EntityRow) {
    match row.data
    case MovieData(m) => row.kind == MovieType && m.id == row.id
    case PersonData(p) => row.kind == PersonType && p.id == row.id
  }

  function OtherKey(id: string, kind: EntityType): EntityRow -> bool {
    (row: EntityRow) => !HasKey(row, id, kind)
  }

  /** `INSERT OR REPLACE INTO entities (id, type, data)`: the row with the
      same key, if any, is deleted and the new row is added. */
  function Upsert(rows: seq<EntityRow>, row: EntityRow): (r: seq<EntityRow>)
    ensures row in r
    ensures forall x :: x in r <==> x == row || (x in rows && !HasKey(x, row.id, row.kind))
  {
    Filter(rows, OtherKey(row.id, row.kind)) + [row]
  }

  /** `SELECT data FROM entities WHERE id = ? AND type = ?`. */
  function Find(rows: seq<EntityRow>, id: string, kind: EntityType): (r: Option<EntityRow>)
    ensures r.Some? ==> r.value in rows && HasKey(r.value, id, kind)
    ensures r.None? ==> forall x :: x in rows ==> !HasKey(x, id, kind)
  {
    if |rows| == 0 then None
    else if HasKey(rows[0], id, kind) then Some(rows[0])
    else Find(rows[1..], id, kind)
  }

  /** With a unique key, the lookup finds the one row holding it. */
  lemma {:induction false} FindUnique(rows: seq<EntityRow>, row: EntityRow)
    requires UniqueKeys(rows) && row in rows
    ensures Find(rows, row.id, row.kind) == Some(row)
  {
    if rows[0] != row {
      assert row in rows[1..];
      FindUnique(rows[1..], row);
    }
  }

  /** After an upsert the new row is what its key finds, and every other key
      finds what it found before. */
  lemma {:induction false} FindUpsert(rows: seq<EntityRow>, row: EntityRow, id: string, kind: EntityType)
    ensures Find(Upsert(rows, row), id, kind) ==
      if HasKey(row, id, kind) then Some(row) else Find(rows, id, kind)
  {
    var p := OtherKey(row.id, row.kind);
    if |rows| == 0 {
      assert Upsert(rows, row) == [row];
    } else {
      FindUpsert(rows[1..], row, id, kind);
      if p(rows[0]) {
        assert Upsert(rows, row) == [rows[0]] + Upsert(rows[1..], row);
      } else {
        assert Upsert(rows, row) == Upsert(rows[1..], row);
      }
    }
  }

  /** An upsert keeps the key unique. */
  lemma UpsertKeepsKeys(rows: seq<EntityRow>, row: EntityRow)
    requires UniqueKeys(rows)
    ensures UniqueKeys(Upsert(rows, row))
  {
    var kept := Filter(rows, OtherKey(row.id, row.kind));
    FilterKeepsUnique(rows, OtherKey(row.id, row.kind));
    var r := kept + [row];
    forall i, j | 0 <= i < j < |r| ensures !HasKey(r[j], r[i].id, r[i].kind) {
      if j == |kept| {
        assert r[i] in kept;
      }
    }
  }

  lemma {:induction false} FilterKeepsUnique(rows: seq<EntityRow>, p: EntityRow -> bool)
    requires UniqueKeys(rows)
    ensures UniqueKeys(Filter(rows, p))
  {
    if |rows| > 0 {
      FilterKeepsUnique(rows[1..], p);
      var t := Filter(rows[1..], p);
      forall k | 0 <= k < |t| ensures !HasKey(t[k], rows[0].id, rows[0].kind) {
        assert t[k] in rows[1..];
      }
    }
  }

  /** The shared in-memory database's `entities` table. */
  class EntityTable {
    var rows: seq<EntityRow>

    ghost predicate Valid()
      reads this
    {
      UniqueKeys(rows) && forall i :: 0 <= i < |rows| ==> WellTyped(rows[i])
    }

    constructor ()
      ensures Valid() && rows == []
    {
      rows := [];
    }

    /** The insert-or-replace statement. */
    method InsertOrReplace(row: EntityRow)
      requires Valid() && WellTyped(row)
      modifies this
      ensures Valid()
      ensures rows == Upsert(old(rows), row)
    {
      UpsertKeepsKeys(rows, row);
      rows := Upsert(rows, row);
      forall i | 0 <= i < |rows| ensures WellTyped(rows[i]) {
        assert rows[i] in rows;
      }
    }
  }

  /** `EntityNotFoundException` (server/src/shared/exceptions.ts). */
  datatype EntityNotFoundException = EntityNotFoundException(message: string)

  /** `new EntityNotFoundException(entityType, entityId)`. */
  function NotFound(entityType: string, entityId: string): EntityNotFoundException {
    EntityNotFoundException(entityType + " with id '" + entityId + "' not found")
  }

  /** `ids.map(lookup).filter(Boolean)`: the records found for `ids`, in
      the order of `ids`, with the ids that find nothing dropped. */
  function Resolve<T>(ids: seq<string>, lookup: string -> Option<T>): (r: seq<T>)
    ensures |r| <= |ids|
  {
    if |ids| == 0 then []
    else
      (match lookup(ids[0]) case Some(x) => [x] case None => []) + Resolve(ids[1..], lookup)
  }

  /** Resolving keeps the order of the ids: resolving a concatenation
      concatenates the results. */
  lemma {:induction false} ResolveAppend<T>(a: seq<string>, b: seq<string>, lookup: string -> Option<T>)
    ensures Resolve(a + b, lookup) == Resolve(a, lookup) + Resolve(b, lookup)
  {
    if |a| == 0 {
      assert a + b == b;
    } else {
      assert (a + b)[1..] == a[1..] + b;
      ResolveAppend(a[1..], b, lookup);
    }
  }

  /** A record is in the result exactly when some id finds it. */
  lemma {:induction false} ResolveMembers<T>(ids: seq<string>, lookup: string -> Option<T>, x: T)
    ensures x in Resolve(ids, lookup) <==> exists k :: 0 <= k < |ids| && lookup(ids[k]) == Some(x)
  {
    if |ids| > 0 {
      ResolveMembers(ids[1..], lookup, x);
      if lookup(ids[0]) == Some(x) {
        assert x in Resolve(ids, lookup);
      }
      if k :| 0 <= k < |ids[1..]| && lookup(ids[1..][k]) == Some(x) {
        assert lookup(ids[k + 1]) == Some(x);
      }
      if k :| 0 <= k < |ids| && lookup(ids[k]) == Some(x) {
        if k > 0 {
          assert lookup(ids[1..][k - 1]) == Some(x);
        }
      }
    }
  }

  /** When every id finds a record nothing is dropped, and the i-th record
      is the one the i-th id finds. */
  lemma {:induction false} ResolveAllFound<T>(ids: seq<string>, lookup: string -> Option<T>)
    requires forall k :: 0 <= k < |ids| ==> lookup(ids[k]).Some?
    ensures |Resolve(ids, lookup)| == |ids|
    ensures forall k :: 0 <= k < |ids| ==> Resolve(ids, lookup)[k] == lookup(ids[k]).value
  {
    if |ids| > 0 {
      ResolveAllFound(ids[1..], lookup);
      var r := Resolve(ids, lookup);
      assert r == [lookup(ids[0]).value] + Resolve(ids[1..], lookup);
      forall k | 0 < k < |ids| ensures r[k] == lookup(ids[k]).value {
        assert ids[1..][k - 1] == ids[k];
      }
    }
  }
}
