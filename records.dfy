/**
 * Create, read, update and delete on the `employees` table, keyed by its
 * `id` field. Each operation is one unit of work on the database: it either
 * commits completely or, when the database rejects the commit, leaves the
 * database as it was.
 */
module Records {
  import opened Schema
  import opened Importer

  const EmployeesTable: string := "employees"
  const IdField: string := "id"

  datatype Option<T> = None | Some(value: T)

  /** The reported result of a write: committed, no record with that id, or rolled back. */
  datatype CrudOutcome = Done | NotFound | Failed

  /** What `read_employees` returns: the records, or the error text of a failed query. */
  datatype ReadResult = Rows(rows: seq<Row>) | ReadError

  /**
   * What `filter_by(id=…).first()` yields: an error when the table has no `id`
   * column for the filter to name, no record, or the position of the first one.
   */
  datatype Found = NoIdColumn | NoMatch | At(k: nat)

  /** Python truthiness of an id argument: None, zero and empty text are false. */
  predicate Truthy(id: Value) {
    match id
    case Null => false
    case IntV(i) => i != 0
    case RealV(r) => r != 0.0
    case BoolV(b) => b
    case TextV(s) => s != ""
    case StampV(_) => true
  }

  /** `filter_by(id=...)`: the row's id equals the argument; a None argument selects rows whose id IS NULL. */
  predicate HasId(row: Row, id: Value) {
    Field(row, IdField) == id
  }

  /** The rows the id filter selects, in table order. */
  function Matching(rows: seq<Row>, id: Value): (r: seq<Row>)
    ensures forall i :: 0 <= i < |r| ==> HasId(r[i], id)
    ensures forall row :: row in r <==> row in rows && HasId(row, id)
  {
    if rows == [] then []
    else
      assert forall row :: row in rows <==> row == rows[0] || row in rows[1..];
      (if HasId(rows[0], id) then [rows[0]] else []) + Matching(rows[1..], id)
  }

  /**
   * `read_employees`: every row when the id is falsy; otherwise the rows with
   * that id, or an error when the table has no `id` column to filter on.
   */
  function Read(t: Table, id: Value): (r: ReadResult)
    ensures r.ReadError? <==> Truthy(id) && IdField !in NameSet(t.columns)
    ensures r.Rows? ==> forall row :: row in r.rows <==> row in t.rows && (!Truthy(id) || HasId(row, id))
  {
    if !Truthy(id) then Rows(t.rows)
    else if IdField !in NameSet(t.columns) then ReadError
    else Rows(Matching(t.rows, id))
  }

  /** `.first()`: the position of the first row with that id. */
  function FirstMatch(rows: seq<Row>, id: Value): (k: Option<nat>)
    ensures k.Some? ==> k.value < |rows| && HasId(rows[k.value], id)
                        && forall j :: 0 <= j < k.value ==> !HasId(rows[j], id)
    ensures k.None? ==> forall j :: 0 <= j < |rows| ==> !HasId(rows[j], id)
  {
    if rows == [] then None
    else if HasId(rows[0], id) then Some(0)
    else match FirstMatch(rows[1..], id)
      case None => None
      case Some(k) => Some(k + 1)
  }

  /** The lookup of `update_employee` and `delete_employee`: the id filter, then `.first()`. */
  function FindFirst(t: Table, id: Value): (f: Found)
    ensures f.NoIdColumn? <==> IdField !in NameSet(t.columns)
    ensures f.NoMatch? ==> Matching(t.rows, id) == []
    ensures f.At? ==> f.k < |t.rows| && HasId(t.rows[f.k], id)
                      && forall j :: 0 <= j < f.k ==> !HasId(t.rows[j], id)
  {
    if IdField !in NameSet(t.columns) then NoIdColumn
    else match FirstMatch(t.rows, id)
      case None =>
        NoMatchIsEmpty(t.rows, id);
        NoMatch
      case Some(k) => At(k)
  }

  /** The message a write reports, given what the lookup found and whether the commit was accepted. */
  function WriteOutcome(f: Found, accepted: bool): CrudOutcome {
    match f
    case NoIdColumn => Failed
    case NoMatch => NotFound
    case At(_) => if accepted then Done else Failed
  }

  /** The fields of `data` that are columns: what `Employee(**data)` sets. */
  function KnownFields(data: map<string, Value>, columns: set<string>): Row {
    map k | k in data && k in columns :: data[k]
  }

  /** `row` with every field of `data` that is a column overwritten. */
  function Patched(row: Row, data: map<string, Value>, columns: set<string>): Row {
    map k | k in row.Keys + (data.Keys * columns) :: if k in data && k in columns then data[k] else row[k]
  }

  function Create(t: Table, data: map<string, Value>): Table {
    t.(rows := t.rows + [KnownFields(data, NameSet(t.columns))])
  }

  function Update(t: Table, k: nat, data: map<string, Value>): Table
    requires k < |t.rows|
  {
    t.(rows := t.rows[k := Patched(t.rows[k], data, NameSet(t.columns))])
  }

  function Delete(t: Table, k: nat): Table
    requires k < |t.rows|
  {
    t.(rows := t.rows[..k] + t.rows[k + 1..])
  }

  /** The constructor's loop over the keyword arguments: copy the columns, warn about the rest. */
  method FilterFields(columns: set<string>, data: map<string, Value>) returns (row: Row, ignored: set<string>)
    ensures row == KnownFields(data, columns)
    ensures ignored == data.Keys - columns
  {
    row, ignored := map[], {};
    var pending := data.Keys;
    while pending != {}
      invariant pending <= data.Keys
      invariant row.Keys == (data.Keys - pending) * columns
      invariant forall k :: k in row ==> k in data && row[k] == data[k]
      invariant ignored == (data.Keys - pending) - columns
      decreases pending
    {
      var key :| key in pending;
      if key in columns {
        row := row[key := data[key]];
      } else {
        ignored := ignored + {key};
      }
      pending := pending - {key};
    }
  }

  /** The update's loop: set each given field the record has. */
  method ApplyUpdate(columns: set<string>, row: Row, data: map<string, Value>) returns (updated: Row)
    ensures updated == Patched(row, data, columns)
  {
    updated := row;
    var pending := data.Keys;
    while pending != {}
      invariant pending <= data.Keys
      invariant updated.Keys == row.Keys + (data.Keys - pending) * columns
      invariant forall k :: k in updated ==>
                  updated[k] == if k in data && k !in pending && k in columns then data[k] else row[k]
      decreases pending
    {
      var key :| key in pending;
      if key in columns {
        updated := updated[key := data[key]];
      }
      pending := pending - {key};
    }
  }

  /** `create_employee`: add the record built from the known fields of `data`. */
  method CreateEmployee(db: Database, data: map<string, Value>, accepted: bool) returns (outcome: CrudOutcome, ignored: set<string>)
    requires db.Valid() && EmployeesTable in db.tables
    modifies db
    ensures db.Valid()
    ensures var t := old(db.tables)[EmployeesTable];
      db.tables == if accepted then old(db.tables)[EmployeesTable := Create(t, data)] else old(db.tables)
    ensures outcome == if accepted then Done else Failed
    ensures ignored == data.Keys - NameSet(old(db.tables)[EmployeesTable].columns)
  {
    var t := db.tables[EmployeesTable];
    var row;
    row, ignored := FilterFields(NameSet(t.columns), data);
    if accepted {
      CreateKeepsWellFormed(t, data);
      db.tables := db.tables[EmployeesTable := t.(rows := t.rows + [row])];
      outcome := Done;
    } else {
      outcome := Failed;
    }
  }

  /**
   * `update_employee`: overwrite the known fields of the first record with that
   * id. A table without an `id` column makes the query fail: nothing changes.
   */
  method UpdateEmployee(db: Database, id: Value, data: map<string, Value>, accepted: bool) returns (outcome: CrudOutcome)
    requires db.Valid() && EmployeesTable in db.tables
    modifies db
    ensures db.Valid()
    ensures var t := old(db.tables)[EmployeesTable];
      var found := FindFirst(t, id);
      && outcome == WriteOutcome(found, accepted)
      && db.tables == if found.At? && accepted then old(db.tables)[EmployeesTable := Update(t, found.k, data)]
                      else old(db.tables)
  {
    var t := db.tables[EmployeesTable];
    var found := FindFirst(t, id);
    if found.NoIdColumn? {
      return Failed;
    } else if found.NoMatch? {
      return NotFound;
    }
    var k := found.k;
    var updated := ApplyUpdate(NameSet(t.columns), t.rows[k], data);
    if accepted {
      UpdateKeepsWellFormed(t, k, data);
      db.tables := db.tables[EmployeesTable := t.(rows := t.rows[k := updated])];
      outcome := Done;
    } else {
      outcome := Failed;
    }
  }

  /**
   * `delete_employee`: remove the first record with that id. A table without
   * an `id` column makes the query fail: nothing changes.
   */
  method DeleteEmployee(db: Database, id: Value, accepted: bool) returns (outcome: CrudOutcome)
    requires db.Valid() && EmployeesTable in db.tables
    modifies db
    ensures db.Valid()
    ensures var t := old(db.tables)[EmployeesTable];
      var found := FindFirst(t, id);
      && outcome == WriteOutcome(found, accepted)
      && db.tables == if found.At? && accepted then old(db.tables)[EmployeesTable := Delete(t, found.k)]
                      else old(db.tables)
  {
    var t := db.tables[EmployeesTable];
    var found := FindFirst(t, id);
    if found.NoIdColumn? {
      return Failed;
    } else if found.NoMatch? {
      return NotFound;
    }
    if accepted {
      DeleteKeepsWellFormed(t, found.k);
      db.tables := db.tables[EmployeesTable := Delete(t, found.k)];
      outcome := Done;
    } else {
      outcome := Failed;
    }
  }

  lemma CreateKeepsWellFormed(t: Table, data: map<string, Value>)
    requires WellFormed(t)
    ensures WellFormed(Create(t, data))
  {
  }

  lemma UpdateKeepsWellFormed(t: Table, k: nat, data: map<string, Value>)
    requires WellFormed(t) && k < |t.rows|
    ensures WellFormed(Update(t, k, data))
  {
    var u := Update(t, k, data);
    forall i | 0 <= i < |u.rows| ensures u.rows[i].Keys <= NameSet(u.columns) {
      if i != k { assert u.rows[i] == t.rows[i]; }
    }
  }

  lemma DeleteKeepsWellFormed(t: Table, k: nat)
    requires WellFormed(t) && k < |t.rows|
    ensures WellFormed(Delete(t, k))
  {
    var d := Delete(t, k);
    forall i | 0 <= i < |d.rows| ensures d.rows[i].Keys <= NameSet(d.columns) {
      if i < k { assert d.rows[i] == t.rows[i]; } else { assert d.rows[i] == t.rows[i + 1]; }
    }
  }

  /** The created record holds exactly the fields of `data` that are columns; unknown keys are dropped. */
  lemma CreateStoresKnownFields(t: Table, data: map<string, Value>)
    ensures var c := Create(t, data);
      && |c.rows| == |t.rows| + 1 && c.rows[..|t.rows|] == t.rows
      && (forall k :: k in NameSet(t.columns) ==> Field(c.rows[|t.rows|], k) == Field(data, k))
      && (forall k :: k !in NameSet(t.columns) ==> k !in c.rows[|t.rows|])
  {
  }

  /** An update changes only the given fields that are columns, and only in the one record. */
  lemma UpdateWritesOnlyKnownFields(t: Table, k: nat, data: map<string, Value>)
    requires k < |t.rows|
    ensures var u := Update(t, k, data);
      && |u.rows| == |t.rows|
      && (forall j :: 0 <= j < |t.rows| && j != k ==> u.rows[j] == t.rows[j])
      && (forall f :: f in data && f in NameSet(t.columns) ==> Field(u.rows[k], f) == data[f])
      && (forall f :: f !in data || f !in NameSet(t.columns) ==> Field(u.rows[k], f) == Field(t.rows[k], f))
  {
  }

  /** No record has the id exactly when `.first()` finds none. */
  lemma NotFoundIffNoMatch(rows: seq<Row>, id: Value)
    ensures FirstMatch(rows, id).None? <==> Matching(rows, id) == []
  {
    var m := Matching(rows, id);
    if FirstMatch(rows, id).Some? {
      assert rows[FirstMatch(rows, id).value] in m;
    }
    assert m != [] ==> m[0] in m;
  }

  lemma {:induction false} MatchingConcat(a: seq<Row>, b: seq<Row>, id: Value)
    ensures Matching(a + b, id) == Matching(a, id) + Matching(b, id)
  {
    if a == [] {
      assert a + b == b;
    } else {
      assert (a + b)[1..] == a[1..] + b;
      MatchingConcat(a[1..], b, id);
    }
  }

  /** After creating a record with a truthy id, reading that id yields what it did before plus the new record. */
  lemma ReadAfterCreate(t: Table, data: map<string, Value>, id: Value)
    requires Truthy(id) && IdField in NameSet(t.columns) && IdField in data && data[IdField] == id
    ensures Read(t, id).Rows?
    ensures Read(Create(t, data), id) == Rows(Read(t, id).rows + [KnownFields(data, NameSet(t.columns))])
  {
    var row := KnownFields(data, NameSet(t.columns));
    MatchingConcat(t.rows, [row], id);
    assert [row][1..] == [];
  }

  lemma {:induction false} NoMatchIsEmpty(rows: seq<Row>, id: Value)
    requires forall j :: 0 <= j < |rows| ==> !HasId(rows[j], id)
    ensures Matching(rows, id) == []
  {
    if rows != [] {
      assert forall j :: 0 <= j < |rows[1..]| ==> rows[1..][j] == rows[j + 1];
      NoMatchIsEmpty(rows[1..], id);
    }
  }

  lemma {:induction false} EmptyIsNoMatch(rows: seq<Row>, id: Value)
    requires Matching(rows, id) == []
    ensures forall j :: 0 <= j < |rows| ==> !HasId(rows[j], id)
  {
    if rows != [] {
      EmptyIsNoMatch(rows[1..], id);
      assert forall j :: 1 <= j < |rows| ==> rows[j] == rows[1..][j - 1];
    }
  }

  /** Deleting the first record with an id leaves the records with that id except the first. */
  lemma ReadAfterDelete(t: Table, id: Value, k: nat)
    requires FirstMatch(t.rows, id) == Some(k)
    ensures Matching(Delete(t, k).rows, id) == Matching(t.rows, id)[1..]
  {
    var rows := t.rows;
    var pre, mid, post := rows[..k], rows[k], rows[k + 1..];
    assert rows == pre + ([mid] + post);
    assert Delete(t, k).rows == pre + post;
    assert forall j :: 0 <= j < |pre| ==> pre[j] == rows[j];
    NoMatchIsEmpty(pre, id);
    MatchingConcat(pre, post, id);
    MatchingConcat(pre, [mid] + post, id);
    MatchingConcat([mid], post, id);
    MatchingOne(mid, id);
    calc {
      Matching(rows, id);
      Matching(pre, id) + Matching([mid] + post, id);
      Matching([mid] + post, id);
      [mid] + Matching(post, id);
    }
    assert Matching(Delete(t, k).rows, id) == Matching(post, id);
  }

  lemma MatchingOne(row: Row, id: Value)
    requires HasId(row, id)
    ensures Matching([row], id) == [row]
  {
    assert [row][1..] == [];
  }

  /** A falsy id (None, zero, false, empty text) reads every row, in table order, whatever the columns. */
  lemma FalsyIdReadsAll(t: Table, id: Value)
    requires !Truthy(id)
    ensures Read(t, id) == Rows(t.rows)
  {
  }

  lemma {:induction false} FirstMatchAtEnd(rows: seq<Row>, row: Row, id: Value)
    requires forall j :: 0 <= j < |rows| ==> !HasId(rows[j], id)
    requires HasId(row, id)
    ensures FirstMatch(rows + [row], id) == Some(|rows|)
  {
    if rows != [] {
      assert (rows + [row])[1..] == rows[1..] + [row];
      assert forall j :: 0 <= j < |rows[1..]| ==> rows[1..][j] == rows[j + 1];
      FirstMatchAtEnd(rows[1..], row, id);
    }
  }

  /** A record appended after rows none of which has its id is the first, and only, one with it. */
  lemma OnlyMatchAtEnd(rows: seq<Row>, row: Row, id: Value)
    requires Matching(rows, id) == [] && HasId(row, id)
    ensures FirstMatch(rows + [row], id) == Some(|rows|)
    ensures Matching(rows + [row], id) == [row]
  {
    MatchingConcat(rows, [row], id);
    assert [row][1..] == [];
    EmptyIsNoMatch(rows, id);
    FirstMatchAtEnd(rows, row, id);
  }

  /**
   * The demonstrated lifecycle, for an id no record has: create, then read
   * that id gives exactly the created record; update it with fields other
   * than the id; delete it; then reading the id gives nothing.
   */
  lemma {:induction false} Lifecycle(t: Table, id: Value, data: map<string, Value>, changes: map<string, Value>)
    requires Truthy(id) && IdField in NameSet(t.columns) && IdField in data && data[IdField] == id
    requires IdField !in changes
    requires Matching(t.rows, id) == []
    ensures var created := Create(t, data);
      var row := KnownFields(data, NameSet(t.columns));
      && Read(created, id) == Rows([row])
      && FindFirst(created, id) == At(|t.rows|)
      && var updated := Update(created, |t.rows|, changes);
      && FindFirst(updated, id) == At(|t.rows|)
      && var deleted := Delete(updated, |t.rows|);
      && Read(deleted, id) == Rows([])
      && FindFirst(deleted, id) == NoMatch
  {
    var created := Create(t, data);
    var row := KnownFields(data, NameSet(t.columns));
    assert HasId(row, id);
    assert created.rows == t.rows + [row];
    OnlyMatchAtEnd(t.rows, row, id);
    assert Read(created, id) == Rows([row]);
    var updated := Update(created, |t.rows|, changes);
    var patched := Patched(row, changes, NameSet(t.columns));
    assert Field(patched, IdField) == Field(row, IdField);
    assert updated.rows == t.rows + [patched];
    OnlyMatchAtEnd(t.rows, patched, id);
    ReadAfterDelete(updated, id, |t.rows|);
    var deleted := Delete(updated, |t.rows|);
    assert Read(deleted, id) == Rows(Matching(deleted.rows, id));
    NotFoundIffNoMatch(deleted.rows, id);
  }
}
