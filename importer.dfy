/**
 * The per-sheet import: skip empty sheets, normalise names, build the column
 * descriptors, create the table or add the columns it lacks, then append the
 * sheet's rows. `SheetStep` and `ImportAll` state the effect on the database
 * as values; the `Database` class performs the same steps in place.
 */
module Importer {
  import opened Naming
  import opened SqlTypes
  import opened Schema

  /** What happened to one sheet. `Halted` ends the whole run. */
  datatype Outcome = Skipped | Loaded | LoadFailed | Halted

  type Tables = map<string, Table>

  /** Every table of the database keeps the table invariant. */
  predicate AllWellFormed(tables: Tables) {
    forall n :: n in tables ==> WellFormed(tables[n])
  }

  /** An empty data frame: no data rows or no columns. */
  predicate IsEmptySheet(sheet: Sheet) {
    |sheet.cells| == 0 || |sheet.header| == 0
  }

  function TableName(sheet: Sheet): string {
    Normalize(sheet.name)
  }

  function ColumnNames(sheet: Sheet): seq<string> {
    NormalizeAll(sheet.header)
  }

  /** The sheet's column descriptors; the key is the normalised first header. */
  function SheetColumns(sheet: Sheet): (r: seq<Column>)
    requires Rectangular(sheet) && |sheet.header| > 0
    ensures Names(r) == ColumnNames(sheet)
    ensures NameSet(r) == set x | x in ColumnNames(sheet)
  {
    var r := Descriptors(ColumnNames(sheet), sheet.dtypes, Normalize(sheet.header[0]));
    assert Names(r) == ColumnNames(sheet);
    assert forall x :: x in ColumnNames(sheet) ==> x in NameSet(r) by {
      forall x | x in ColumnNames(sheet) ensures x in NameSet(r) {
        var i :| 0 <= i < |ColumnNames(sheet)| && ColumnNames(sheet)[i] == x;
        assert r[i].name == x;
      }
    }
    r
  }

  /** Create the table with all columns, or append the columns it lacks. */
  function SyncSchema(tables: Tables, name: string, columns: seq<Column>): Tables {
    if name !in tables then tables[name := Table(columns, [])]
    else
      var t := tables[name];
      tables[name := Table(t.columns + Missing(NameSet(t.columns), columns), t.rows)]
  }

  /** Append-mode load; a rejected load leaves the database as it was. */
  function LoadRows(tables: Tables, name: string, rows: seq<Row>, accepted: bool): Tables
    requires name in tables
  {
    if accepted then tables[name := tables[name].(rows := tables[name].rows + rows)] else tables
  }

  /**
   * One iteration of the sheet loop. A sheet whose normalised column names
   * collide halts the run before it touches the database.
   */
  function SheetStep(tables: Tables, sheet: Sheet, accepted: bool): (Tables, Outcome)
    requires Rectangular(sheet)
  {
    if IsEmptySheet(sheet) then (tables, Skipped)
    else if !Distinct(ColumnNames(sheet)) then (tables, Halted)
    else
      var name := TableName(sheet);
      var synced := SyncSchema(tables, name, SheetColumns(sheet));
      (LoadRows(synced, name, SheetRows(ColumnNames(sheet), sheet.cells), accepted),
       if accepted then Loaded else LoadFailed)
  }

  predicate AllRectangular(sheets: seq<Sheet>) {
    forall i :: 0 <= i < |sheets| ==> Rectangular(sheets[i])
  }

  /** The whole sheet loop, in sheet order, stopping after a halting sheet. */
  function ImportAll(tables: Tables, sheets: seq<Sheet>, accepts: seq<bool>): (Tables, seq<Outcome>)
    requires |accepts| == |sheets| && AllRectangular(sheets)
    decreases |sheets|
  {
    if sheets == [] then (tables, [])
    else
      var (next, outcome) := SheetStep(tables, sheets[0], accepts[0]);
      if outcome == Halted then (next, [Halted])
      else
        var (last, outcomes) := ImportAll(next, sheets[1..], accepts[1..]);
        (last, [outcome] + outcomes)
  }

  lemma SuffixRectangular(sheets: seq<Sheet>, k: int)
    requires AllRectangular(sheets) && 0 <= k <= |sheets|
    ensures AllRectangular(sheets[k..])
  {
    forall i | 0 <= i < |sheets| - k ensures Rectangular(sheets[k..][i]) {
      assert sheets[k..][i] == sheets[k + i];
    }
  }

  /** `later` only grew from `earlier`: no table vanished, no column or row was dropped or changed. */
  predicate Extends(earlier: Tables, later: Tables) {
    forall n :: n in earlier ==>
      && n in later
      && |earlier[n].columns| <= |later[n].columns|
      && later[n].columns[..|earlier[n].columns|] == earlier[n].columns
      && |earlier[n].rows| <= |later[n].rows|
      && later[n].rows[..|earlier[n].rows|] == earlier[n].rows
  }

  lemma NamesConcat(a: seq<Column>, b: seq<Column>)
    ensures Names(a + b) == Names(a) + Names(b)
    ensures NameSet(a + b) == NameSet(a) + NameSet(b)
  {
    assert Names(a + b) == Names(a) + Names(b);
    forall x | x in NameSet(a + b) ensures x in NameSet(a) + NameSet(b) {
      var k :| 0 <= k < |a + b| && (a + b)[k].name == x;
      if k < |a| { assert a[k].name == x; } else { assert b[k - |a|].name == x; }
    }
    forall x | x in NameSet(a) + NameSet(b) ensures x in NameSet(a + b) {
      if x in NameSet(a) {
        var k :| 0 <= k < |a| && a[k].name == x;
        assert (a + b)[k].name == x;
      } else {
        var k :| 0 <= k < |b| && b[k].name == x;
        assert (a + b)[k + |a|].name == x;
      }
    }
  }

  /** A sheet with no rows or no columns changes nothing. */
  lemma EmptySheetIsSkipped(tables: Tables, sheet: Sheet, accepted: bool)
    requires Rectangular(sheet) && IsEmptySheet(sheet)
    ensures SheetStep(tables, sheet, accepted) == (tables, Skipped)
  {
  }

  /** A sheet whose normalised column names collide changes nothing and halts the run. */
  lemma CollidingNamesHalt(tables: Tables, sheet: Sheet, accepted: bool)
    requires Rectangular(sheet) && !IsEmptySheet(sheet)
    requires !Distinct(ColumnNames(sheet))
    ensures SheetStep(tables, sheet, accepted) == (tables, Halted)
  {
  }

  /** Only the sheet's own table can change. */
  lemma OtherTablesUnchanged(tables: Tables, sheet: Sheet, accepted: bool, n: string)
    requires Rectangular(sheet)
    requires n != TableName(sheet)
    ensures var r := SheetStep(tables, sheet, accepted).0; (n in r <==> n in tables) && (n in tables ==> r[n] == tables[n])
  {
  }

  /**
   * A new table gets exactly the sheet's normalised columns in sheet order,
   * each with its inferred type, the first as the only key column; its rows
   * are the sheet's records when the load is accepted and none otherwise.
   */
  lemma NewTableHasSheetColumns(tables: Tables, sheet: Sheet, accepted: bool)
    requires Rectangular(sheet) && !IsEmptySheet(sheet) && Distinct(ColumnNames(sheet))
    requires TableName(sheet) !in tables
    ensures var (r, outcome) := SheetStep(tables, sheet, accepted);
      && TableName(sheet) in r
      && var t := r[TableName(sheet)];
      && |t.columns| == |sheet.header|
      && (forall i :: 0 <= i < |sheet.header| ==>
            && t.columns[i].name == Normalize(sheet.header[i])
            && t.columns[i].sqlType == Infer(sheet.dtypes[i])
            && (t.columns[i].primaryKey <==> i == 0))
      && t.rows == (if accepted then SheetRows(ColumnNames(sheet), sheet.cells) else [])
      && outcome == (if accepted then Loaded else LoadFailed)
  {
    var names := ColumnNames(sheet);
    var cols := SheetColumns(sheet);
    forall i | 0 <= i < |sheet.header| ensures cols[i].primaryKey <==> i == 0 {
      assert Normalize(sheet.header[0]) == names[0];
      OnlyFirstIsKey(names, sheet.dtypes, i);
    }
  }

  /**
   * An existing table keeps its columns as they were and gains exactly the
   * sheet's columns it lacked, in sheet order, none of them a key column;
   * its rows are kept and the sheet's records appended when accepted.
   */
  lemma ExistingTableGainsMissing(tables: Tables, sheet: Sheet, accepted: bool)
    requires Rectangular(sheet) && !IsEmptySheet(sheet) && Distinct(ColumnNames(sheet))
    requires TableName(sheet) in tables
    ensures var r := SheetStep(tables, sheet, accepted).0;
      var before := tables[TableName(sheet)];
      var added := Missing(NameSet(before.columns), SheetColumns(sheet));
      && TableName(sheet) in r
      && r[TableName(sheet)].columns == before.columns + added
      && NameSet(added) == (set x | x in ColumnNames(sheet)) - NameSet(before.columns)
      && (forall c :: c in added ==> !c.primaryKey)
      && r[TableName(sheet)].rows == before.rows + (if accepted then SheetRows(ColumnNames(sheet), sheet.cells) else [])
  {
    var before := tables[TableName(sheet)];
    MissingContents(NameSet(before.columns), SheetColumns(sheet));
  }

  /** Re-importing a sheet adds no column: the second sync leaves the schema as the first left it. */
  lemma ResyncAddsNoColumns(tables: Tables, sheet: Sheet, accepted1: bool, accepted2: bool)
    requires Rectangular(sheet) && !IsEmptySheet(sheet) && Distinct(ColumnNames(sheet))
    ensures var once := SheetStep(tables, sheet, accepted1).0;
      var twice := SheetStep(once, sheet, accepted2);
      var name := TableName(sheet);
      && name in once && name in twice.0
      && twice.0[name].columns == once[name].columns
      && twice.0[name].rows == once[name].rows + (if accepted2 then SheetRows(ColumnNames(sheet), sheet.cells) else [])
      && twice.1 == (if accepted2 then Loaded else LoadFailed)
  {
    var name := TableName(sheet);
    var cols := SheetColumns(sheet);
    var once := SheetStep(tables, sheet, accepted1).0;
    var now := once[name].columns;
    assert NameSet(cols) <= NameSet(now) by {
      if name in tables {
        var before := tables[name].columns;
        assert now == before + Missing(NameSet(before), cols);
        NamesConcat(before, Missing(NameSet(before), cols));
        MissingContents(NameSet(before), cols);
      }
    }
    UpToDateMissesNothing(NameSet(now), cols);
    assert now + [] == now;
  }

  /** The rows a load appends are those of the sheet only: the count grows by the sheet's row count. */
  lemma LoadIsAppendOnly(tables: Tables, sheet: Sheet, accepted: bool)
    requires Rectangular(sheet) && !IsEmptySheet(sheet) && Distinct(ColumnNames(sheet))
    ensures var r := SheetStep(tables, sheet, accepted).0;
      var name := TableName(sheet);
      var prior := if name in tables then tables[name].rows else [];
      && name in r
      && |r[name].rows| == |prior| + (if accepted then |sheet.cells| else 0)
      && r[name].rows[..|prior|] == prior
  {
    var name := TableName(sheet);
    var prior := if name in tables then tables[name].rows else [];
    var r := SheetStep(tables, sheet, accepted).0;
    assert r[name].rows == prior + (if accepted then SheetRows(ColumnNames(sheet), sheet.cells) else []);
  }

  /** After a sync the table holds every incoming name, keeps its old ones, and its names are still distinct. */
  lemma SyncKeepsNamesDistinct(tables: Tables, name: string, cols: seq<Column>)
    requires AllWellFormed(tables) && Distinct(Names(cols))
    ensures var t := SyncSchema(tables, name, cols)[name];
      && NameSet(cols) <= NameSet(t.columns)
      && Distinct(Names(t.columns))
      && (name in tables ==> NameSet(tables[name].columns) <= NameSet(t.columns))
  {
    if name in tables {
      var before := tables[name].columns;
      var added := Missing(NameSet(before), cols);
      var now := before + added;
      assert SyncSchema(tables, name, cols)[name].columns == now;
      NamesConcat(before, added);
      MissingContents(NameSet(before), cols);
      MissingDistinct(NameSet(before), cols);
      assert WellFormed(tables[name]);
      forall i, j | 0 <= i < j < |now| ensures Names(now)[i] != Names(now)[j] {
        if i < |before| && j >= |before| {
          assert Names(now)[j] == added[j - |before|].name;
          assert added[j - |before|] in added;
          assert Names(now)[i] == before[i].name;
          assert before[i].name in NameSet(before);
        } else if i >= |before| {
          assert Names(now)[i] == Names(added)[i - |before|];
          assert Names(now)[j] == Names(added)[j - |before|];
        } else {
          assert Names(now)[i] == Names(before)[i];
          assert Names(now)[j] == Names(before)[j];
        }
      }
    }
  }

  /** Syncing a table with distinct incoming names keeps every table well formed. */
  lemma SyncKeepsWellFormed(tables: Tables, name: string, cols: seq<Column>)
    requires AllWellFormed(tables) && Distinct(Names(cols))
    ensures AllWellFormed(SyncSchema(tables, name, cols))
  {
    SyncKeepsNamesDistinct(tables, name, cols);
    var t := SyncSchema(tables, name, cols)[name];
    if name in tables {
      assert t.rows == tables[name].rows;
      assert WellFormed(tables[name]);
    }
    assert WellFormed(t);
  }

  /** Appending rows whose fields are all columns keeps every table well formed. */
  lemma LoadKeepsWellFormed(tables: Tables, name: string, rows: seq<Row>, accepted: bool)
    requires AllWellFormed(tables) && name in tables
    requires forall i :: 0 <= i < |rows| ==> rows[i].Keys <= NameSet(tables[name].columns)
    ensures AllWellFormed(LoadRows(tables, name, rows, accepted))
  {
    if accepted {
      var t := LoadRows(tables, name, rows, accepted)[name];
      assert WellFormed(tables[name]);
      forall i | 0 <= i < |t.rows| ensures t.rows[i].Keys <= NameSet(t.columns) {
        if i >= |tables[name].rows| {
          assert t.rows[i] == rows[i - |tables[name].rows|];
        } else {
          assert t.rows[i] == tables[name].rows[i];
        }
      }
    }
  }

  /** One sheet step keeps every table well formed. */
  lemma StepKeepsWellFormed(tables: Tables, sheet: Sheet, accepted: bool)
    requires Rectangular(sheet) && AllWellFormed(tables)
    ensures AllWellFormed(SheetStep(tables, sheet, accepted).0)
  {
    if !IsEmptySheet(sheet) && Distinct(ColumnNames(sheet)) {
      var name := TableName(sheet);
      var names := ColumnNames(sheet);
      var cols := SheetColumns(sheet);
      var synced := SyncSchema(tables, name, cols);
      var records := SheetRows(names, sheet.cells);
      SyncKeepsNamesDistinct(tables, name, cols);
      SyncKeepsWellFormed(tables, name, cols);
      forall i | 0 <= i < |records| ensures records[i].Keys <= NameSet(synced[name].columns) {
        assert records[i] == RowOf(names, sheet.cells[i]);
      }
      LoadKeepsWellFormed(synced, name, records, accepted);
    }
  }

  /** One sheet step only grows the database. */
  lemma StepExtends(tables: Tables, sheet: Sheet, accepted: bool)
    requires Rectangular(sheet)
    ensures Extends(tables, SheetStep(tables, sheet, accepted).0)
  {
    var r := SheetStep(tables, sheet, accepted).0;
    forall n | n in tables
      ensures n in r && |tables[n].columns| <= |r[n].columns|
        && r[n].columns[..|tables[n].columns|] == tables[n].columns
        && |tables[n].rows| <= |r[n].rows| && r[n].rows[..|tables[n].rows|] == tables[n].rows
    {
      if !IsEmptySheet(sheet) && Distinct(ColumnNames(sheet)) && n == TableName(sheet) {
        var t := tables[n];
        assert r[n].columns == t.columns + Missing(NameSet(t.columns), SheetColumns(sheet));
        assert r[n].rows == t.rows + (if accepted then SheetRows(ColumnNames(sheet), sheet.cells) else []);
      }
    }
  }

  lemma ExtendsTransitive(a: Tables, b: Tables, c: Tables)
    requires Extends(a, b) && Extends(b, c)
    ensures Extends(a, c)
  {
    forall n | n in a
      ensures n in c && |a[n].columns| <= |c[n].columns| && c[n].columns[..|a[n].columns|] == a[n].columns
        && |a[n].rows| <= |c[n].rows| && c[n].rows[..|a[n].rows|] == a[n].rows
    {
      assert c[n].columns[..|a[n].columns|] == c[n].columns[..|b[n].columns|][..|a[n].columns|];
      assert c[n].rows[..|a[n].rows|] == c[n].rows[..|b[n].rows|][..|a[n].rows|];
    }
  }

  /**
   * The whole run keeps every table well formed and only grows the database:
   * tables are never dropped, columns never removed or retyped, rows never lost.
   */
  lemma {:induction false} ImportAllKeepsAndExtends(tables: Tables, sheets: seq<Sheet>, accepts: seq<bool>)
    requires |accepts| == |sheets| && AllRectangular(sheets) && AllWellFormed(tables)
    ensures AllWellFormed(ImportAll(tables, sheets, accepts).0)
    ensures Extends(tables, ImportAll(tables, sheets, accepts).0)
    decreases |sheets|
  {
    if sheets != [] {
      var next := SheetStep(tables, sheets[0], accepts[0]).0;
      StepKeepsWellFormed(tables, sheets[0], accepts[0]);
      StepExtends(tables, sheets[0], accepts[0]);
      if SheetStep(tables, sheets[0], accepts[0]).1 != Halted {
        SuffixRectangular(sheets, 1);
        ImportAllKeepsAndExtends(next, sheets[1..], accepts[1..]);
        ExtendsTransitive(tables, next, ImportAll(next, sheets[1..], accepts[1..]).0);
      }
    }
  }

  /**
   * The run reports one outcome per sheet it reached. Only a halting sheet
   * ends it: a skipped sheet or a failed load is followed by the next sheet,
   * and a run that stops short of the last sheet stops on a halting one.
   */
  lemma {:induction false} ImportAllOutcomes(tables: Tables, sheets: seq<Sheet>, accepts: seq<bool>)
    requires |accepts| == |sheets| && AllRectangular(sheets)
    ensures var o := ImportAll(tables, sheets, accepts).1;
      && |o| <= |sheets|
      && (sheets != [] ==> o != [])
      && (forall i :: 0 <= i < |o| - 1 ==> o[i] != Halted)
      && (|o| < |sheets| ==> o != [] && o[|o| - 1] == Halted)
    decreases |sheets|
  {
    if sheets != [] {
      var (next, outcome) := SheetStep(tables, sheets[0], accepts[0]);
      if outcome != Halted {
        SuffixRectangular(sheets, 1);
        ImportAllOutcomes(next, sheets[1..], accepts[1..]);
        var rest := ImportAll(next, sheets[1..], accepts[1..]).1;
        assert ImportAll(tables, sheets, accepts).1 == [outcome] + rest;
      }
    }
  }

  /** The database the importer works on, updated in place. */
  class Database {
    var tables: Tables

    predicate Valid()
      reads this
    {
      AllWellFormed(tables)
    }

    constructor (initial: Tables)
      requires AllWellFormed(initial)
      ensures Valid() && tables == initial
    {
      tables := initial;
    }

    /**
     * `Table(...).create(engine)`: a new, empty table with the given columns.
     * The database refuses a column name given twice, so the names are distinct.
     */
    method CreateTable(name: string, columns: seq<Column>)
      requires Valid() && name !in tables && Distinct(Names(columns))
      modifies this
      ensures Valid()
      ensures tables == old(tables)[name := Table(columns, [])]
    {
      SyncKeepsWellFormed(tables, name, columns);
      tables := tables[name := Table(columns, [])];
    }

    /**
     * The ALTER TABLE loop: one ADD COLUMN per sheet column missing from the
     * existing column set. A name added twice would make the second ADD COLUMN
     * fail, so the incoming names are distinct.
     */
    method AddMissingColumns(name: string, columns: seq<Column>) returns (added: seq<string>)
      requires Valid() && name in tables && Distinct(Names(columns))
      modifies this
      ensures Valid()
      ensures var t := old(tables)[name];
        tables == old(tables)[name := Table(t.columns + Missing(NameSet(t.columns), columns), t.rows)]
      ensures added == Names(Missing(NameSet(old(tables)[name].columns), columns))
    {
      var existing := NameSet(tables[name].columns);
      ghost var before := tables[name];
      added := [];
      var i := 0;
      assert columns[..0] == [];
      assert before.columns + [] == before.columns && Table(before.columns, before.rows) == before;
      assert old(tables)[name := before] == old(tables);
      while i < |columns|
        invariant 0 <= i <= |columns|
        invariant tables == old(tables)[name := Table(before.columns + Missing(existing, columns[..i]), before.rows)]
        invariant added == Names(Missing(existing, columns[..i]))
      {
        MissingSnoc(existing, columns, i);
        ghost var sofar := Missing(existing, columns[..i]);
        ghost var step := if columns[i].name in existing then [] else [Added(columns[i])];
        NamesConcat(sofar, step);
        assert before.columns + (sofar + step) == (before.columns + sofar) + step;
        assert sofar + [] == sofar && before.columns + sofar + [] == before.columns + sofar;
        if columns[i].name !in existing {
          var t := tables[name];
          tables := tables[name := t.(columns := t.columns + [Added(columns[i])])];
          added := added + [columns[i].name];
        }
        i := i + 1;
      }
      assert columns[..i] == columns;
      SyncKeepsWellFormed(old(tables), name, columns);
    }

    /**
     * `to_sql(..., if_exists='append')`: append the rows unless the database
     * rejects them. An INSERT naming a field that is not a column always
     * fails, so every field of the rows is a column of the table.
     */
    method AppendRows(name: string, rows: seq<Row>, accepted: bool) returns (ok: bool)
      requires Valid() && name in tables
      requires forall i :: 0 <= i < |rows| ==> rows[i].Keys <= NameSet(tables[name].columns)
      modifies this
      ensures Valid()
      ensures tables == LoadRows(old(tables), name, rows, accepted)
      ensures ok == accepted
    {
      LoadKeepsWellFormed(tables, name, rows, accepted);
      ok := accepted;
      if ok {
        tables := tables[name := tables[name].(rows := tables[name].rows + rows)];
      }
    }

    /** One iteration of the sheet loop. */
    method ProcessSheet(sheet: Sheet, accepted: bool) returns (outcome: Outcome)
      requires Valid() && Rectangular(sheet)
      modifies this
      ensures Valid()
      ensures (tables, outcome) == SheetStep(old(tables), sheet, accepted)
    {
      if |sheet.cells| == 0 || |sheet.header| == 0 {
        return Skipped;
      }
      var tableName := Normalize(sheet.name);
      var pkName := Normalize(sheet.header[0]);
      var names := NormalizeAll(sheet.header);
      if !Distinct(names) {
        return Halted;
      }
      var columns := BuildColumns(names, sheet.dtypes, pkName);
      assert columns == SheetColumns(sheet);
      SyncKeepsNamesDistinct(tables, tableName, columns);
      if tableName !in tables {
        CreateTable(tableName, columns);
      } else {
        var _ := AddMissingColumns(tableName, columns);
      }
      var rows := SheetRows(names, sheet.cells);
      forall i | 0 <= i < |rows| ensures rows[i].Keys <= NameSet(tables[tableName].columns) {
        assert rows[i] == RowOf(names, sheet.cells[i]);
      }
      var ok := AppendRows(tableName, rows, accepted);
      outcome := if ok then Loaded else LoadFailed;
    }

    /** The loop over all sheets of the workbook, in order; a halting sheet ends it. */
    method ImportWorkbook(sheets: seq<Sheet>, accepts: seq<bool>) returns (outcomes: seq<Outcome>)
      requires Valid() && |accepts| == |sheets| && AllRectangular(sheets)
      modifies this
      ensures Valid()
      ensures (tables, outcomes) == ImportAll(old(tables), sheets, accepts)
    {
      outcomes := [];
      var i := 0;
      assert sheets[0..] == sheets && accepts[0..] == accepts;
      ghost var whole := ImportAll(tables, sheets, accepts);
      assert [] + whole.1 == whole.1;
      while i < |sheets|
        invariant 0 <= i <= |sheets| && Valid()
        invariant AllRectangular(sheets[i..])
        invariant ImportAll(old(tables), sheets, accepts)
          == (ImportAll(tables, sheets[i..], accepts[i..]).0, outcomes + ImportAll(tables, sheets[i..], accepts[i..]).1)
      {
        assert sheets[i..][0] == sheets[i] && sheets[i..][1..] == sheets[i + 1..];
        assert accepts[i..][0] == accepts[i] && accepts[i..][1..] == accepts[i + 1..];
        SuffixRectangular(sheets, i + 1);
        ghost var goal := ImportAll(old(tables), sheets, accepts);
        ghost var rest := ImportAll(SheetStep(tables, sheets[i], accepts[i]).0, sheets[i + 1..], accepts[i + 1..]);
        var outcome := ProcessSheet(sheets[i], accepts[i]);
        if outcome == Halted {
          outcomes := outcomes + [outcome];
          return;
        }
        assert goal == (rest.0, outcomes + ([outcome] + rest.1));
        assert outcomes + ([outcome] + rest.1) == (outcomes + [outcome]) + rest.1;
        outcomes := outcomes + [outcome];
        i := i + 1;
      }
      assert sheets[i..] == [] && accepts[i..] == [];
      assert outcomes + [] == outcomes;
    }
  }
}
