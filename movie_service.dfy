/** The movie service (server/src/movies/service.ts): search and detail
    lookups over the `entities` table, with a movie's characters resolved
    from the person rows. */
module MovieService {
  import opened Wrappers
  import opened Seqs
  import opened Entities
  import MovieDatabase
  import PeopleDatabase

  /** `BaseMovie`. */
  datatype BaseMovie = BaseMovie(id: string, title: string)

  /** `Movie`: exactly these four members. */
  datatype Movie = Movie(id: string, title: string, openingCrawl: string, characters: seq<Summary>)

  /** `searchMovies(query)`: the store's search with `query ?? ''`, each
      `{id, name}` turned into `{title: name, id}` in the same order. */
  function SearchMovies(rows: seq<EntityRow>, query: Option<string>): (r: seq<BaseMovie>)
    ensures var found := MovieDatabase.SearchMovies(rows, query.GetOr(""));
      |r| == |found| && forall i :: 0 <= i < |r| ==> r[i] == BaseMovie(found[i].id, found[i].name)
  {
    var found := MovieDatabase.SearchMovies(rows, query.GetOr(""));
    seq(|found|, i requires 0 <= i < |found| => BaseMovie(found[i].id, found[i].name))
  }

  /** Without a query every title matches, so the search lists the first
      ten movies of the table, each with its id and title. */
  lemma SearchWithoutQuery(rows: seq<EntityRow>)
    ensures var all := MovieDatabase.GetAllMovies(rows);
      var r := SearchMovies(rows, None);
      && |r| == (if |all| <= 10 then |all| else 10)
      && forall i :: 0 <= i < |r| ==> r[i] == BaseMovie(all[i].id, all[i].props.title)
  {
    var all := MovieDatabase.GetAllMovies(rows);
    FilterAll(all, (m: DatabaseMovie) => Contains(MovieDatabase.Title(m), ""));
    assert MovieDatabase.Matching(rows, "") == all;
  }

  /** How `getMovie` finds a movie's characters. */
  function PersonLookup(rows: seq<EntityRow>): string -> Option<DatabasePerson> {
    (id: string) => PeopleDatabase.GetPerson(rows, id)
  }

  /** `transformToMovie`: the id, title and opening crawl of the record, and
      each character as `{id, name}` in the order given. */
  function TransformToMovie(m: DatabaseMovie, characters: seq<DatabasePerson>): (r: Movie)
    ensures r.id == m.id && r.title == m.props.title && r.openingCrawl == m.props.openingCrawl
    ensures |r.characters| == |characters|
    ensures forall i :: 0 <= i < |characters| ==> r.characters[i] == PeopleDatabase.TransformToBasePerson(characters[i])
  {
    Movie(m.id, m.props.title, m.props.openingCrawl,
          seq(|characters|, i requires 0 <= i < |characters| => PeopleDatabase.TransformToBasePerson(characters[i])))
  }

  /** The projection reads nothing but the id, title and opening crawl of
      the record: every other property is dropped. */
  lemma TransformToMovieDropsRest(a: DatabaseMovie, b: DatabaseMovie, characters: seq<DatabasePerson>)
    requires a.id == b.id && a.props.title == b.props.title && a.props.openingCrawl == b.props.openingCrawl
    ensures TransformToMovie(a, characters) == TransformToMovie(b, characters)
  {
  }

  /** `getMovie(id)`: throws `EntityNotFoundException` with the message
      "Movie with id '<id>' not found" when no movie has the id; otherwise
      the projection of the stored record with its characters looked up in
      order and the missing ones dropped. */
  function GetMovie(rows: seq<EntityRow>, id: string): (r: Result<Movie, EntityNotFoundException>)
    ensures r.Err? <==> MovieDatabase.GetMovie(rows, id).None?
    ensures r.Err? ==> r.error.message == "Movie with id '" + id + "' not found"
    ensures r.Ok? ==> var m := MovieDatabase.GetMovie(rows, id).value;
      r.value == TransformToMovie(m, Resolve(m.props.characters, PersonLookup(rows)))
  {
    match MovieDatabase.GetMovie(rows, id)
    case None => Err(NotFound("Movie", id))
    case Some(m) => Ok(TransformToMovie(m, Resolve(m.props.characters, PersonLookup(rows))))
  }

  /** Read from a well-formed table, the lookup fails exactly when no movie
      row has the id; a found movie carries the id, its stored title and
      crawl, and never more characters than it has character ids. */
  lemma GetMovieFromTable(t: EntityTable, id: string)
    requires t.Valid()
    ensures GetMovie(t.rows, id).Err? <==> forall x :: x in t.rows ==> !HasKey(x, id, MovieType)
    ensures GetMovie(t.rows, id).Ok? ==>
      var m := MovieDatabase.GetMovie(t.rows, id).value;
      var r := GetMovie(t.rows, id).value;
      && MovieRowHolds(t.rows, id, m)
      && r.id == id && r.title == m.props.title && r.openingCrawl == m.props.openingCrawl
      && |r.characters| <= |m.props.characters|
  {
    MovieDatabase.MovieExistsIff(t, id);
  }

  /** Every character a found movie lists is the person one of its
      character ids finds. */
  lemma GetMovieCharactersFound(rows: seq<EntityRow>, id: string, c: Summary)
    requires GetMovie(rows, id).Ok? && c in GetMovie(rows, id).value.characters
    ensures var m := MovieDatabase.GetMovie(rows, id).value;
      exists k :: 0 <= k < |m.props.characters| && CharacterAt(rows, m, k) == Some(c)
  {
    var m := MovieDatabase.GetMovie(rows, id).value;
    var found := Resolve(m.props.characters, PersonLookup(rows));
    var chars := TransformToMovie(m, found).characters;
    var i :| 0 <= i < |chars| && chars[i] == c;
    ResolveMembers(m.props.characters, PersonLookup(rows), found[i]);
    var k :| 0 <= k < |m.props.characters| && PersonLookup(rows)(m.props.characters[k]) == Some(found[i]);
    assert CharacterAt(rows, m, k) == Some(c);
  }

  /** Every character id of a found movie that finds a person puts that
      person among its characters. */
  lemma GetMovieCharactersAll(rows: seq<EntityRow>, id: string, k: nat)
    requires GetMovie(rows, id).Ok?
    requires k < |MovieDatabase.GetMovie(rows, id).value.props.characters|
    requires CharacterAt(rows, MovieDatabase.GetMovie(rows, id).value, k).Some?
    ensures CharacterAt(rows, MovieDatabase.GetMovie(rows, id).value, k).value in GetMovie(rows, id).value.characters
  {
    var m := MovieDatabase.GetMovie(rows, id).value;
    var found := Resolve(m.props.characters, PersonLookup(rows));
    var chars := TransformToMovie(m, found).characters;
    var p := PeopleDatabase.GetPerson(rows, m.props.characters[k]).value;
    ResolveMembers(m.props.characters, PersonLookup(rows), p);
    var i :| 0 <= i < |found| && found[i] == p;
    assert chars[i] == PeopleDatabase.TransformToBasePerson(p);
  }

  /** The `{id, name}` of the person the movie's k-th character id finds. */
  function CharacterAt(rows: seq<EntityRow>, m: DatabaseMovie, k: nat): Option<Summary>
    requires k < |m.props.characters|
  {
    match PeopleDatabase.GetPerson(rows, m.props.characters[k])
    case Some(p) => Some(PeopleDatabase.TransformToBasePerson(p))
    case None => None
  }

  /** The movie row with key `(id, 'movie')` holds the record `m`. */
  ghost predicate MovieRowHolds(rows: seq<EntityRow>, id: string, m: DatabaseMovie) {
    exists x :: x in rows && HasKey(x, id, MovieType) && x.data == MovieData(m)
  }
}
