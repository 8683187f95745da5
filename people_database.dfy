/** `PeopleDatabase` (server/src/people/database.ts): the person rows of the
    `entities` table. The save is a statement on the shared table; the reads
    are functions of its rows. */
module PeopleDatabase {
  import opened Wrappers
  import opened Seqs
  import opened Entities

  const DefaultSearchLimit: nat := 10

  /** The row `savePerson` writes: `{ id, ...properties }` under the key
      `(id, 'person')`. */
  function PersonRow(id: string, properties: PersonProperties): EntityRow {
    EntityRow(id, PersonType, PersonData(DatabasePerson(id, properties)))
  }

  /** `savePerson`: inserts the person, replacing any earlier person with the
      same id. */
  method SavePerson(table: EntityTable, id: string, properties: PersonProperties)
    requires table.Valid()
    modifies table
    ensures table.Valid()
    ensures table.rows == Upsert(old(table.rows), PersonRow(id, properties))
  {
    table.InsertOrReplace(PersonRow(id, properties));
  }

  /** `getPerson`: the stored record, or `null`. */
  function GetPerson(rows: seq<EntityRow>, id: string): (r: Option<DatabasePerson>)
    ensures r.Some? ==> exists x :: x in rows && HasKey(x, id, PersonType) && x.data == PersonData(r.value)
    ensures (forall x :: x in rows ==> !HasKey(x, id, PersonType)) ==> r.None?
  {
    match Find(rows, id, PersonType)
    case Some(EntityRow(_, _, PersonData(m))) => Some(m)
    case _ => None
  }

  /** `personExists`: whether `getPerson` finds a record. */
  function PersonExists(rows: seq<EntityRow>, id: string): (r: bool)
    ensures r ==> exists x :: x in rows && HasKey(x, id, PersonType)
    ensures (forall x :: x in rows ==> !HasKey(x, id, PersonType)) ==> !r
  {
    GetPerson(rows, id).Some?
  }

  /** In a well-typed table, a person exists exactly when a person row has
      its id, and the record found carries that id. */
  lemma PersonExistsIff(t: EntityTable, id: string)
    requires t.Valid()
    ensures PersonExists(t.rows, id) <==> exists x :: x in t.rows && HasKey(x, id, PersonType)
    ensures PersonExists(t.rows, id) ==> GetPerson(t.rows, id).value.id == id
  {
    var f := Find(t.rows, id, PersonType);
    if f.Some? {
      var k :| 0 <= k < |t.rows| && t.rows[k] == f.value;
      assert WellTyped(t.rows[k]);
    }
  }

  /** After `savePerson(id, p)`, `getPerson(id)` is `p` with `id`. */
  lemma SaveThenGet(rows: seq<EntityRow>, id: string, p: PersonProperties)
    ensures GetPerson(Upsert(rows, PersonRow(id, p)), id) == Some(DatabasePerson(id, p))
  {
    FindUpsert(rows, PersonRow(id, p), id, PersonType);
  }

  /** Upserting any row other than the person `id` — another person, or any
      movie — leaves `getPerson(id)` as it was. */
  lemma UpsertKeepsOtherPeople(rows: seq<EntityRow>, row: EntityRow, id: string)
    requires !HasKey(row, id, PersonType)
    ensures GetPerson(Upsert(rows, row), id) == GetPerson(rows, id)
  {
    FindUpsert(rows, row, id, PersonType);
  }

  /** `getAllPeople`: every stored person, in table order. */
  function GetAllPeople(rows: seq<EntityRow>): (r: seq<DatabasePerson>)
    ensures |r| <= |rows|
    ensures forall m :: m in r <==> exists x :: x in rows && x.kind == PersonType && x.data == PersonData(m)
  {
    if |rows| == 0 then []
    else
      var rest := GetAllPeople(rows[1..]);
      match rows[0]
      case EntityRow(_, PersonType, PersonData(m)) => [m] + rest
      case _ => rest
  }

  function Name(m: DatabasePerson): string {
    m.props.name
  }

  /** The stored people whose name contains `query` (`LIKE '%query%'`), in
      table order. */
  function Matching(rows: seq<EntityRow>, query: string): (r: seq<DatabasePerson>)
    ensures forall m :: m in r <==> m in GetAllPeople(rows) && Contains(m.props.name, query)
  {
    Filter(GetAllPeople(rows), (m: DatabasePerson) => Contains(Name(m), query))
  }

  /** `{ id, name }`. */
  function SummaryOf(m: DatabasePerson): Summary {
    Summary(m.id, m.props.name)
  }

  function Summaries(ms: seq<DatabasePerson>): (r: seq<Summary>)
    ensures |r| == |ms| && forall i :: 0 <= i < |ms| ==> r[i] == SummaryOf(ms[i])
  {
    if |ms| == 0 then [] else [SummaryOf(ms[0])] + Summaries(ms[1..])
  }

  /** `searchPeople(query, limit)`: the id and name of the first `limit`
      matching people, in table order. */
  function SearchPeople(rows: seq<EntityRow>, query: string, limit: nat := DefaultSearchLimit): (r: seq<Summary>)
    ensures |r| == if |Matching(rows, query)| <= limit then |Matching(rows, query)| else limit
    ensures forall i :: 0 <= i < |r| ==> r[i] == SummaryOf(Matching(rows, query)[i])
  {
    Summaries(Take(Matching(rows, query), limit))
  }

  /** Every entry a search returns is the id and name of a stored person
      whose name contains the query, and there are at most `limit`. */
  lemma SearchPeopleSound(rows: seq<EntityRow>, query: string, limit: nat)
    ensures |SearchPeople(rows, query, limit)| <= limit
    ensures forall i :: 0 <= i < |SearchPeople(rows, query, limit)| ==>
              exists m :: m in GetAllPeople(rows) && Contains(m.props.name, query)
                          && SearchPeople(rows, query, limit)[i] == SummaryOf(m)
  {
    var ms := Matching(rows, query);
    var r := SearchPeople(rows, query, limit);
    forall i | 0 <= i < |r|
      ensures exists m :: m in GetAllPeople(rows) && Contains(m.props.name, query) && r[i] == SummaryOf(m)
    {
      assert ms[i] in ms;
    }
  }

  /** A search returns fewer than `limit` entries only when every stored
      person whose name contains the query is listed. */
  lemma SearchPeopleComplete(rows: seq<EntityRow>, query: string, limit: nat, m: DatabasePerson)
    requires |SearchPeople(rows, query, limit)| < limit
    requires m in GetAllPeople(rows) && Contains(m.props.name, query)
    ensures SummaryOf(m) in SearchPeople(rows, query, limit)
  {
    var ms := Matching(rows, query);
    var k :| 0 <= k < |ms| && ms[k] == m;
    assert SearchPeople(rows, query, limit)[k] == SummaryOf(m);
  }

  /** `transformToBasePerson`: a person reduced to its id and name. */
  function TransformToBasePerson(p: DatabasePerson): (r: Summary)
    ensures r.id == p.id && r.name == p.props.name
  {
    SummaryOf(p)
  }
}
