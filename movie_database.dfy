/** `MovieDatabase` (server/src/movies/database.ts): the movie rows of the
    `entities` table. The save is a statement on the shared table; the reads
    are functions of its rows. */
module MovieDatabase {
  import opened Wrappers
  import opened Seqs
  import opened Entities

  const DefaultSearchLimit: nat := 10

  /** The row `saveMovie` writes: `{ id, ...properties }` under the key
      `(id, 'movie')`. */
  function MovieRow(id: string, properties: MovieProperties): EntityRow {
    EntityRow(id, MovieType, MovieData(DatabaseMovie(id, properties)))
  }

  /** `saveMovie`: inserts the movie, replacing any earlier movie with the
      same id. */
  method SaveMovie(table: EntityTable, id: string, properties: MovieProperties)
    requires table.Valid()
    modifies table
    ensures table.Valid()
    ensures table.rows == Upsert(old(table.rows), MovieRow(id, properties))
  {
    table.InsertOrReplace(MovieRow(id, properties));
  }

  /** `getMovie`: the stored record, or `null`. */
  function GetMovie(rows: seq<EntityRow>, id: string): (r: Option<DatabaseMovie>)
    ensures r.Some? ==> exists x :: x in rows && HasKey(x, id, MovieType) && x.data == MovieData(r.value)
    ensures (forall x :: x in rows ==> !HasKey(x, id, MovieType)) ==> r.None?
  {
    match Find(rows, id, MovieType)
    case Some(EntityRow(_, _, MovieData(m))) => Some(m)
    case _ => None
  }

  /** `movieExists`: whether `getMovie` finds a record. */
  function MovieExists(rows: seq<EntityRow>, id: string): (r: bool)
    ensures r ==> exists x :: x in rows && HasKey(x, id, MovieType)
    ensures (forall x :: x in rows ==> !HasKey(x, id, MovieType)) ==> !r
  {
    GetMovie(rows, id).Some?
  }

  /** In a well-typed table, a movie exists exactly when a movie row has
      its id, and the record found carries that id. */
  lemma MovieExistsIff(t: EntityTable, id: string)
    requires t.Valid()
    ensures MovieExists(t.rows, id) <==> exists x :: x in t.rows && HasKey(x, id, MovieType)
    ensures MovieExists(t.rows, id) ==> GetMovie(t.rows, id).value.id == id
  {
    var f := Find(t.rows, id, MovieType);
    if f.Some? {
      var k :| 0 <= k < |t.rows| && t.rows[k] == f.value;
      assert WellTyped(t.rows[k]);
    }
  }

  /** After `saveMovie(id, p)`, `getMovie(id)` is `p` with `id`. */
  lemma SaveThenGet(rows: seq<EntityRow>, id: string, p: MovieProperties)
    ensures GetMovie(Upsert(rows, MovieRow(id, p)), id) == Some(DatabaseMovie(id, p))
  {
    FindUpsert(rows, MovieRow(id, p), id, MovieType);
  }

  /** Upserting any row other than the movie `id` — another movie, or any
      person — leaves `getMovie(id)` as it was. */
  lemma UpsertKeepsOtherMovies(rows: seq<EntityRow>, row: EntityRow, id: string)
    requires !HasKey(row, id, MovieType)
    ensures GetMovie(Upsert(rows, row), id) == GetMovie(rows, id)
  {
    FindUpsert(rows, row, id, MovieType);
  }

  /** `getAllMovies`: every stored movie, in table order. */
  function GetAllMovies(rows: seq<EntityRow>): (r: seq<DatabaseMovie>)
    ensures |r| <= |rows|
    ensures forall m :: m in r <==> exists x :: x in rows && x.kind == MovieType && x.data == MovieData(m)
  {
    if |rows| == 0 then []
    else
      var rest := GetAllMovies(rows[1..]);
      match rows[0]
      case EntityRow(_, MovieType, MovieData(m)) => [m] + rest
      case _ => rest
  }

  function Title(m: DatabaseMovie): string {
    m.props.title
  }

  /** The stored movies whose title contains `query` (`LIKE '%query%'`), in
      table order. */
  function Matching(rows: seq<EntityRow>, query: string): (r: seq<DatabaseMovie>)
    ensures forall m :: m in r <==> m in GetAllMovies(rows) && Contains(m.props.title, query)
  {
    Filter(GetAllMovies(rows), (m: DatabaseMovie) => Contains(Title(m), query))
  }

  /** `{ id, name: title }`. */
  function SummaryOf(m: DatabaseMovie): Summary {
    Summary(m.id, m.props.title)
  }

  function Summaries(ms: seq<DatabaseMovie>): (r: seq<Summary>)
    ensures |r| == |ms| && forall i :: 0 <= i < |ms| ==> r[i] == SummaryOf(ms[i])
  {
    if |ms| == 0 then [] else [SummaryOf(ms[0])] + Summaries(ms[1..])
  }

  /** `searchMovies(query, limit)`: the id and title of the first `limit`
      matching movies, in table order. */
  function SearchMovies(rows: seq<EntityRow>, query: string, limit: nat := DefaultSearchLimit): (r: seq<Summary>)
    ensures |r| == if |Matching(rows, query)| <= limit then |Matching(rows, query)| else limit
    ensures forall i :: 0 <= i < |r| ==> r[i] == SummaryOf(Matching(rows, query)[i])
  {
    Summaries(Take(Matching(rows, query), limit))
  }

  /** Every entry a search returns is the id and title of a stored movie
      whose title contains the query, and there are at most `limit`. */
  lemma SearchMoviesSound(rows: seq<EntityRow>, query: string, limit: nat)
    ensures |SearchMovies(rows, query, limit)| <= limit
    ensures forall i :: 0 <= i < |SearchMovies(rows, query, limit)| ==>
              exists m :: m in GetAllMovies(rows) && Contains(m.props.title, query)
                          && SearchMovies(rows, query, limit)[i] == SummaryOf(m)
  {
    var ms := Matching(rows, query);
    var r := SearchMovies(rows, query, limit);
    forall i | 0 <= i < |r|
      ensures exists m :: m in GetAllMovies(rows) && Contains(m.props.title, query) && r[i] == SummaryOf(m)
    {
      assert ms[i] in ms;
    }
  }

  /** A search returns fewer than `limit` entries only when every stored
      movie whose title contains the query is listed. */
  lemma SearchMoviesComplete(rows: seq<EntityRow>, query: string, limit: nat, m: DatabaseMovie)
    requires |SearchMovies(rows, query, limit)| < limit
    requires m in GetAllMovies(rows) && Contains(m.props.title, query)
    ensures SummaryOf(m) in SearchMovies(rows, query, limit)
  {
    var ms := Matching(rows, query);
    var k :| 0 <= k < |ms| && ms[k] == m;
    assert SearchMovies(rows, query, limit)[k] == SummaryOf(m);
  }
}
