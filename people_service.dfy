/** The people service (server/src/people/service.ts): search and detail
    lookups over the `entities` table, with a person's films resolved from
    the movie rows. */
module PeopleService {
  import opened Wrappers
  import opened Seqs
  import opened Entities
  import MovieDatabase
  import PeopleDatabase

  /** `BasePerson`. */
  datatype BasePerson = BasePerson(id: string, name: string)

  /** `Person`: exactly these nine members. */
  datatype Person = Person(
    id: string,
    name: string,
    birthYear: string,
    gender: string,
    eyeColor: string,
    hairColor: string,
    height: string,
    mass: string,
    movies: seq<Summary>)

  /** `getPeople(name)`: the store's search with `name ?? ''`, each
      `{id, name}` kept in the same order. */
  function GetPeople(rows: seq<EntityRow>, name: Option<string>): (r: seq<BasePerson>)
    ensures var found := PeopleDatabase.SearchPeople(rows, name.GetOr(""));
      |r| == |found| && forall i :: 0 <= i < |r| ==> r[i] == BasePerson(found[i].id, found[i].name)
  {
    var found := PeopleDatabase.SearchPeople(rows, name.GetOr(""));
    seq(|found|, i requires 0 <= i < |found| => BasePerson(found[i].id, found[i].name))
  }

  /** Without a name every person matches, so the search lists the first
      ten people of the table, each with its id and name. */
  lemma GetPeopleWithoutName(rows: seq<EntityRow>)
    ensures var all := PeopleDatabase.GetAllPeople(rows);
      var r := GetPeople(rows, None);
      && |r| == (if |all| <= 10 then |all| else 10)
      && forall i :: 0 <= i < |r| ==> r[i] == BasePerson(all[i].id, all[i].props.name)
  {
    var all := PeopleDatabase.GetAllPeople(rows);
    FilterAll(all, (m: DatabasePerson) => Contains(PeopleDatabase.Name(m), ""));
    assert PeopleDatabase.Matching(rows, "") == all;
  }

  /** How `getPerson` finds a person's films. */
  function MovieLookup(rows: seq<EntityRow>): string -> Option<DatabaseMovie> {
    (id: string) => MovieDatabase.GetMovie(rows, id)
  }

  /** `transformToPerson`: eight properties of the record, and each film as
      `{id, name: title}` in the order given. */
  function TransformToPerson(p: DatabasePerson, movies: seq<DatabaseMovie>): (r: Person)
    ensures r.id == p.id && r.name == p.props.name && r.birthYear == p.props.birthYear
    ensures r.gender == p.props.gender && r.eyeColor == p.props.eyeColor && r.hairColor == p.props.hairColor
    ensures r.height == p.props.height && r.mass == p.props.mass
    ensures |r.movies| == |movies|
    ensures forall i :: 0 <= i < |movies| ==> r.movies[i] == Summary(movies[i].id, movies[i].props.title)
  {
    Person(p.id, p.props.name, p.props.birthYear, p.props.gender, p.props.eyeColor, p.props.hairColor,
           p.props.height, p.props.mass,
           seq(|movies|, i requires 0 <= i < |movies| => MovieDatabase.SummaryOf(movies[i])))
  }

  /** The projection reads nothing but those eight properties: the skin
      colour, homeworld, films list and the rest are dropped. */
  lemma TransformToPersonDropsRest(a: DatabasePerson, b: DatabasePerson, movies: seq<DatabaseMovie>)
    requires a.id == b.id && a.props.name == b.props.name && a.props.birthYear == b.props.birthYear
    requires a.props.gender == b.props.gender && a.props.eyeColor == b.props.eyeColor
    requires a.props.hairColor == b.props.hairColor && a.props.height == b.props.height && a.props.mass == b.props.mass
    ensures TransformToPerson(a, movies) == TransformToPerson(b, movies)
  {
  }

  /** `getPerson(id)`: throws `EntityNotFoundException` with the message
      "Person with id '<id>' not found" when no person has the id;
      otherwise the projection of the stored record with its films looked
      up in order and the missing ones dropped. */
  function GetPerson(rows: seq<EntityRow>, id: string): (r: Result<Person, EntityNotFoundException>)
    ensures r.Err? <==> PeopleDatabase.GetPerson(rows, id).None?
    ensures r.Err? ==> r.error.message == "Person with id '" + id + "' not found"
    ensures r.Ok? ==> var p := PeopleDatabase.GetPerson(rows, id).value;
      r.value == TransformToPerson(p, Resolve(p.props.films, MovieLookup(rows)))
  {
    match PeopleDatabase.GetPerson(rows, id)
    case None => Err(NotFound("Person", id))
    case Some(p) => Ok(TransformToPerson(p, Resolve(p.props.films, MovieLookup(rows))))
  }

  /** Read from a well-formed table, the lookup fails exactly when no person
      row has the id; a found person carries the id and its stored name,
      and never more films than it has film ids. */
  lemma GetPersonFromTable(t: EntityTable, id: string)
    requires t.Valid()
    ensures GetPerson(t.rows, id).Err? <==> forall x :: x in t.rows ==> !HasKey(x, id, PersonType)
    ensures GetPerson(t.rows, id).Ok? ==>
      var p := PeopleDatabase.GetPerson(t.rows, id).value;
      var r := GetPerson(t.rows, id).value;
      && PersonRowHolds(t.rows, id, p)
      && r.id == id && r.name == p.props.name
      && |r.movies| <= |p.props.films|
  {
    PeopleDatabase.PersonExistsIff(t, id);
  }

  /** The `{id, name: title}` of the movie the person's k-th film id finds. */
  function FilmAt(rows: seq<EntityRow>, p: DatabasePerson, k: nat): Option<Summary>
    requires k < |p.props.films|
  {
    match MovieDatabase.GetMovie(rows, p.props.films[k])
    case Some(m) => Some(MovieDatabase.SummaryOf(m))
    case None => None
  }

  /** Every film a found person lists is the movie one of its film ids
      finds. */
  lemma GetPersonMoviesFound(rows: seq<EntityRow>, id: string, c: Summary)
    requires GetPerson(rows, id).Ok? && c in GetPerson(rows, id).value.movies
    ensures var p := PeopleDatabase.GetPerson(rows, id).value;
      exists k :: 0 <= k < |p.props.films| && FilmAt(rows, p, k) == Some(c)
  {
    var p := PeopleDatabase.GetPerson(rows, id).value;
    var found := Resolve(p.props.films, MovieLookup(rows));
    var ms := TransformToPerson(p, found).movies;
    var i :| 0 <= i < |ms| && ms[i] == c;
    ResolveMembers(p.props.films, MovieLookup(rows), found[i]);
    var k :| 0 <= k < |p.props.films| && MovieLookup(rows)(p.props.films[k]) == Some(found[i]);
    assert FilmAt(rows, p, k) == Some(c);
  }

  /** Every film id of a found person that finds a movie puts that movie
      among its films. */
  lemma GetPersonMoviesAll(rows: seq<EntityRow>, id: string, k: nat)
    requires GetPerson(rows, id).Ok?
    requires k < |PeopleDatabase.GetPerson(rows, id).value.props.films|
    requires FilmAt(rows, PeopleDatabase.GetPerson(rows, id).value, k).Some?
    ensures FilmAt(rows, PeopleDatabase.GetPerson(rows, id).value, k).value in GetPerson(rows, id).value.movies
  {
    var p := PeopleDatabase.GetPerson(rows, id).value;
    var found := Resolve(p.props.films, MovieLookup(rows));
    var ms := TransformToPerson(p, found).movies;
    var m := MovieDatabase.GetMovie(rows, p.props.films[k]).value;
    ResolveMembers(p.props.films, MovieLookup(rows), m);
    var i :| 0 <= i < |found| && found[i] == m;
    assert ms[i] == MovieDatabase.SummaryOf(m);
  }

  /** The person row with key `(id, 'person')` holds the record `p`. */
  ghost predicate PersonRowHolds(rows: seq<EntityRow>, id: string, p: DatabasePerson) {
    exists x :: x in rows && HasKey(x, id, PersonType) && x.data == PersonData(p)
  }
}
