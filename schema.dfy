/**
 * The data the importer works on: cell values, rows, column descriptors,
 * tables and sheets, and the value-level steps of a sheet's import —
 * building the column descriptors, finding the columns a table lacks,
 * and turning a sheet's cells into rows.
 */
module Schema {
  import opened Naming
  import opened SqlTypes

  /** A scalar cell value; NULL stands for pandas' missing value. */
  datatype Value = Null | IntV(i: int) | RealV(r: real) | BoolV(b: bool) | TextV(s: string) | StampV(ticks: int)

  /** A stored row: column name to value; a column the row has no entry for holds NULL. */
  type Row = map<string, Value>

  /** A column descriptor: name, type and whether it belongs to the primary key. */
  datatype Column = Column(name: string, sqlType: SqlType, primaryKey: bool)

  /** A table: its ordered columns and its rows in insertion order. */
  datatype Table = Table(columns: seq<Column>, rows: seq<Row>)

  /**
   * One spreadsheet tab as read with its first row as the header: the tab's name,
   * the raw header names, the dtype tests of each column, and the data rows.
   */
  datatype Sheet = Sheet(name: string, header: seq<string>, dtypes: seq<DTypeTests>, cells: seq<seq<Value>>)

  /** A data frame is rectangular: one dtype per column and one cell per column in every row. */
  predicate Rectangular(sheet: Sheet) {
    && |sheet.dtypes| == |sheet.header|
    && forall i :: 0 <= i < |sheet.cells| ==> |sheet.cells[i]| == |sheet.header|
  }

  /** The value a row holds for column `name`. */
  function Field(row: Row, name: string): Value {
    if name in row then row[name] else Null
  }

  function Names(columns: seq<Column>): (r: seq<string>)
    ensures |r| == |columns|
    ensures forall i :: 0 <= i < |columns| ==> r[i] == columns[i].name
  {
    if columns == [] then [] else [columns[0].name] + Names(columns[1..])
  }

  function NameSet(columns: seq<Column>): set<string> {
    set i | 0 <= i < |columns| :: columns[i].name
  }

  predicate Distinct(names: seq<string>) {
    forall i, j :: 0 <= i < j < |names| ==> names[i] != names[j]
  }

  /** Table invariant: column names are unique and every stored field names a column. */
  predicate WellFormed(t: Table) {
    && Distinct(Names(t.columns))
    && forall i :: 0 <= i < |t.rows| ==> t.rows[i].Keys <= NameSet(t.columns)
  }

  /** The descriptor of one column: inferred type, primary key when its name is the key's. */
  function Descriptor(name: string, d: DTypeTests, pkName: string): Column {
    Column(name, Infer(d), name == pkName)
  }

  /** The descriptors of all columns, in sheet order. */
  function Descriptors(names: seq<string>, dtypes: seq<DTypeTests>, pkName: string): (r: seq<Column>)
    requires |names| == |dtypes|
    ensures |r| == |names|
  {
    seq(|names|, i requires 0 <= i < |names| => Descriptor(names[i], dtypes[i], pkName))
  }

  /** The loop that builds the columns of a sheet by appending one descriptor per column. */
  method BuildColumns(names: seq<string>, dtypes: seq<DTypeTests>, pkName: string) returns (columns: seq<Column>)
    requires |names| == |dtypes|
    ensures |columns| == |names|
    ensures forall i :: 0 <= i < |names| ==>
              columns[i].name == names[i] && columns[i].sqlType == Infer(dtypes[i])
              && columns[i].primaryKey == (names[i] == pkName)
    ensures columns == Descriptors(names, dtypes, pkName)
  {
    columns := [];
    var i := 0;
    while i < |names|
      invariant 0 <= i <= |names|
      invariant |columns| == i
      invariant forall k :: 0 <= k < i ==> columns[k] == Descriptor(names[k], dtypes[k], pkName)
    {
      columns := columns + [Column(names[i], Infer(dtypes[i]), names[i] == pkName)];
      i := i + 1;
    }
  }

  /** With the first column's name as the key, the first descriptor is a key column. */
  lemma FirstColumnIsKey(names: seq<string>, dtypes: seq<DTypeTests>)
    requires |names| == |dtypes| && |names| > 0
    ensures Descriptors(names, dtypes, names[0])[0].primaryKey
  {
  }

  /** With distinct names, the first column is the only key column. */
  lemma OnlyFirstIsKey(names: seq<string>, dtypes: seq<DTypeTests>, i: int)
    requires |names| == |dtypes| && Distinct(names)
    requires 0 <= i < |names|
    ensures Descriptors(names, dtypes, names[0])[i].primaryKey <==> i == 0
  {
  }

  /** The descriptor an `ALTER TABLE … ADD COLUMN` creates: same name and type, never a key column. */
  function Added(c: Column): Column {
    Column(c.name, c.sqlType, false)
  }

  /** The incoming columns whose names are not in `existing`, in incoming order, as added by ALTER TABLE. */
  function Missing(existing: set<string>, incoming: seq<Column>): seq<Column> {
    if incoming == [] then []
    else (if incoming[0].name in existing then [] else [Added(incoming[0])]) + Missing(existing, incoming[1..])
  }

  /** Order: the missing columns of a concatenation are those of each part, in turn. */
  lemma {:induction false} MissingConcat(existing: set<string>, a: seq<Column>, b: seq<Column>)
    ensures Missing(existing, a + b) == Missing(existing, a) + Missing(existing, b)
  {
    if a != [] {
      assert (a + b)[1..] == a[1..] + b;
      MissingConcat(existing, a[1..], b);
    } else {
      assert a + b == b;
    }
  }

  /** The diff of one more column is the diff so far followed by that column, if it is missing. */
  lemma MissingSnoc(existing: set<string>, incoming: seq<Column>, i: int)
    requires 0 <= i < |incoming|
    ensures Missing(existing, incoming[..i + 1])
      == Missing(existing, incoming[..i]) + (if incoming[i].name in existing then [] else [Added(incoming[i])])
  {
    assert incoming[..i + 1] == incoming[..i] + [incoming[i]];
    MissingConcat(existing, incoming[..i], [incoming[i]]);
    assert [incoming[i]][1..] == [];
  }

  /** Exactly the incoming names not already present are added, none as a key column, with their own types. */
  lemma {:induction false} MissingContents(existing: set<string>, incoming: seq<Column>)
    ensures NameSet(Missing(existing, incoming)) == NameSet(incoming) - existing
    ensures forall c :: c in Missing(existing, incoming) ==> !c.primaryKey && c.name !in existing
    ensures forall c :: c in Missing(existing, incoming) ==> exists k :: 0 <= k < |incoming| && Added(incoming[k]) == c
  {
    if incoming != [] {
      MissingContents(existing, incoming[1..]);
      var m := Missing(existing, incoming);
      var rest := Missing(existing, incoming[1..]);
      var head := if incoming[0].name in existing then [] else [Added(incoming[0])];
      assert m == head + rest;
      assert NameSet(incoming) == {incoming[0].name} + NameSet(incoming[1..]) by {
        forall x | x in NameSet(incoming) ensures x in {incoming[0].name} + NameSet(incoming[1..]) {
          var k :| 0 <= k < |incoming| && incoming[k].name == x;
          if k > 0 { assert incoming[1..][k - 1].name == x; }
        }
        forall x | x in NameSet(incoming[1..]) ensures x in NameSet(incoming) {
          var k :| 0 <= k < |incoming[1..]| && incoming[1..][k].name == x;
          assert incoming[k + 1].name == x;
        }
      }
      assert NameSet(m) == NameSet(head) + NameSet(rest) by {
        forall x | x in NameSet(m) ensures x in NameSet(head) + NameSet(rest) {
          var k :| 0 <= k < |m| && m[k].name == x;
          if k < |head| { assert head[k].name == x; } else { assert rest[k - |head|].name == x; }
        }
        forall x | x in NameSet(head) + NameSet(rest) ensures x in NameSet(m) {
          if x in NameSet(head) {
            var k :| 0 <= k < |head| && head[k].name == x;
            assert m[k].name == x;
          } else {
            var k :| 0 <= k < |rest| && rest[k].name == x;
            assert m[k + |head|].name == x;
          }
        }
      }
      assert NameSet(head) == (if incoming[0].name in existing then {} else {incoming[0].name}) by {
        if incoming[0].name !in existing { assert head[0].name == incoming[0].name; }
      }
      forall c | c in rest ensures exists k :: 0 <= k < |incoming| && Added(incoming[k]) == c {
        var k :| 0 <= k < |incoming[1..]| && Added(incoming[1..][k]) == c;
        assert Added(incoming[k + 1]) == c;
      }
    }
  }

  /** Distinct incoming names give distinct added names. */
  lemma {:induction false} MissingDistinct(existing: set<string>, incoming: seq<Column>)
    requires Distinct(Names(incoming))
    ensures Distinct(Names(Missing(existing, incoming)))
  {
    if incoming != [] {
      var rest := Missing(existing, incoming[1..]);
      assert Distinct(Names(incoming[1..])) by {
        forall i, j | 0 <= i < j < |incoming[1..]| ensures Names(incoming[1..])[i] != Names(incoming[1..])[j] {
          assert Names(incoming)[i + 1] != Names(incoming)[j + 1];
        }
      }
      MissingDistinct(existing, incoming[1..]);
      if incoming[0].name !in existing {
        MissingContents(existing, incoming[1..]);
        assert incoming[0].name !in NameSet(incoming[1..]) by {
          forall k | 0 <= k < |incoming[1..]| ensures incoming[1..][k].name != incoming[0].name {
            assert Names(incoming)[0] != Names(incoming)[k + 1];
          }
        }
        var m := Missing(existing, incoming);
        assert m == [Added(incoming[0])] + rest;
        forall i, j | 0 <= i < j < |m| ensures Names(m)[i] != Names(m)[j] {
          if i == 0 {
            assert Names(m)[j] == rest[j - 1].name;
            assert rest[j - 1].name in NameSet(rest);
          } else {
            assert Names(m)[i] == Names(rest)[i - 1] && Names(m)[j] == Names(rest)[j - 1];
          }
        }
      }
    }
  }

  /** Nothing is missing when every incoming name is already present. */
  lemma UpToDateMissesNothing(existing: set<string>, incoming: seq<Column>)
    requires NameSet(incoming) <= existing
    ensures Missing(existing, incoming) == []
  {
    MissingContents(existing, incoming);
  }

  /** One data row as a record: the i-th column name maps to the i-th cell. */
  function RowOf(names: seq<string>, values: seq<Value>): (r: Row)
    requires |values| == |names|
    ensures forall x :: x in r <==> x in names
  {
    if names == [] then map[]
    else RowOf(names[1..], values[1..])[names[0] := values[0]]
  }

  /** With distinct names every column keeps its own cell. */
  lemma {:induction false} RowOfValues(names: seq<string>, values: seq<Value>, i: int)
    requires |values| == |names| && Distinct(names)
    requires 0 <= i < |names|
    ensures RowOf(names, values)[names[i]] == values[i]
  {
    if i > 0 {
      assert names[1..][i - 1] == names[i] && values[1..][i - 1] == values[i];
      assert Distinct(names[1..]) by {
        forall p, q | 0 <= p < q < |names[1..]| ensures names[1..][p] != names[1..][q] {
          assert names[p + 1] != names[q + 1];
        }
      }
      RowOfValues(names[1..], values[1..], i - 1);
      assert names[0] != names[i];
    }
  }

  /** The rows a sheet contributes, one record per data row. */
  function SheetRows(names: seq<string>, cells: seq<seq<Value>>): (rows: seq<Row>)
    requires forall i :: 0 <= i < |cells| ==> |cells[i]| == |names|
    ensures |rows| == |cells|
    ensures forall i :: 0 <= i < |cells| ==> rows[i] == RowOf(names, cells[i])
  {
    if cells == [] then [] else [RowOf(names, cells[0])] + SheetRows(names, cells[1..])
  }
}
