# Spreadsheet-to-database import, modelled in Dafny

`sample.py` is a script that reads every tab of an Excel workbook and maps it
to a PostgreSQL table. Per tab it:

- skips the tab when it has no rows or no columns;
- normalises the tab name and the column headers;
- infers a column type for each column;
- flags the first column as primary key;
- creates the table, or adds the columns the table lacks with `ALTER TABLE … ADD COLUMN`;
- appends the tab's rows.

It then runs create, read, update and delete on the `employees` table, keyed by `id`.

This project models that logic. The database is a map from table name to a
table, which holds an ordered column list (name, type, primary-key flag) and
a sequence of rows. A row maps column names to values. A column the row has
no entry for holds NULL.

- `naming.dfy` (module `Naming`): ASCII lower-casing, one-character replacement and their composition `Normalize`.
- `sqltypes.dfy` (module `SqlTypes`): the if/elif chain from dtype tests to `Integer`, `Float`, `Boolean`, `DateTime` or `String`.
- `schema.dfy` (module `Schema`): values, rows, column descriptors, tables, sheets, the descriptor-building loop, the missing-column diff and the row records.
- `importer.dfy` (module `Importer`): the per-sheet step and the whole sheet loop as functions (`SheetStep`, `ImportAll`), their lemmas, and the class `Database` whose methods carry out the same steps in place.
- `records.dfy` (module `Records`): the CRUD operations on `employees` and their lemmas.

Choices the model makes:

- **Dtypes.** A column's pandas dtype is represented by the answers of the four dtype tests (`DTypeTests`). This keeps the priority of the if/elif chain visible.
- **Colliding column names.** Two headers can normalise to the same name (`First Name` and `first-name`). Then `df[col_name]` returns a frame, and `.dtype` raises an error nobody catches, so the run ends before that tab touches the database. The model's outcome for this is `Halted`, and `ImportAll` stops there. As a result, every table the model creates has exactly one key column.
- **Database verdicts.** Whether the database accepts a load or a commit is a boolean parameter `accepted`. A rejected load is reported and the loop goes on. A rejected commit rolls back. Either way the database is left as it was.
- **`ADD COLUMN` and the key.** The statement built at `sample.py:76` does not declare a primary key, so columns added to an existing table are never key columns. The key is fixed when the table is created.
- **Key flag and schema errors.** The code flags every column whose normalised name equals the first one's as a key column. With colliding names the run halts, as above, so only the first column is ever a key. An error from `CREATE TABLE` or `ADD COLUMN` is not caught and would end the run; the model's statements always succeed (see "Left out").
- **The `id` filter.** `filter_by(id=…)` needs the `employees` table to have an `id` column. Without one the query raises: `read_employees` with a truthy id returns its error text, and `update_employee` and `delete_employee` report an error and change nothing. A falsy id makes `read_employees` skip the filter, so it returns every row even then.
- **`first()`.** `update_employee` and `delete_employee` act on the first row with the id, taken in insertion order.

## Model

| member | source | states |
|---|---|---|
| `Naming.Lower` | sample.py:42 | lower-casing keeps the length and lower-cases each ASCII letter in place |
| `Naming.Replace` | sample.py:42 | replacement keeps the length and swaps every occurrence of the pattern character, leaving the others |
| `Naming.Normalize` | sample.py:42 | the lower/replace/replace chain keeps the length of the name, and each character becomes its lower-case form, or `_` if it was a space or hyphen |
| `Naming.NormalizeIsNormal` | sample.py:42 | a normalised name contains no space, no hyphen and no upper-case ASCII letter |
| `Naming.NormalizeFixesNormal` | sample.py:46 | a name that is already normal is left unchanged |
| `Naming.NormalizeIdempotent` | sample.py:49 | normalising twice gives the same name as normalising once |
| `Naming.NormalizeConcat` | sample.py:42 | normalisation works character by character: it distributes over concatenation |
| `Naming.NormalizeAll` | sample.py:49 | renaming the columns keeps their number and order and normalises each one |
| `SqlTypes.Infer` | sample.py:18-28 | the if/elif chain itself; its meaning is stated by `SqlTypes.InferFollowsPriority` and `SqlTypes.InferCases` |
| `SqlTypes.FirstPassing` | sample.py:18-28 | reference definition: the chosen type's test holds and no earlier test in the list holds; with no test holding, the result is `String` |
| `SqlTypes.InferFollowsPriority` | sample.py:18-28 | the if/elif chain equals reading integer, float, boolean, datetime in that order with `String` as fallback |
| `SqlTypes.InferCases` | sample.py:18-28 | each of the five results holds exactly when its own test holds and every earlier test fails (both directions) |
| `Schema.Descriptor` | sample.py:58-60 | one descriptor: the column's name, its inferred type, and the key flag set when the name equals the key name; its properties are stated by `Schema.BuildColumns`, `Schema.FirstColumnIsKey` and `Schema.OnlyFirstIsKey` |
| `Schema.Descriptors` | sample.py:56-60 | one descriptor per sheet column, in sheet order; `Schema.BuildColumns` proves the loop equal to it |
| `Schema.BuildColumns` | sample.py:56-60 | the loop yields one descriptor per column in sheet order, with the column's name, its inferred type, and the key flag set exactly when the name equals the key name |
| `Schema.FirstColumnIsKey` | sample.py:45-60 | with the normalised first header as key name, the first column is a key column |
| `Schema.OnlyFirstIsKey` | sample.py:45-60 | with distinct names, a column is a key column exactly when it is the first |
| `Schema.Added` | sample.py:76 | the descriptor `ADD COLUMN` creates: the sheet column's name and type, never a key column; stated by `Schema.MissingContents` |
| `Schema.Missing` | sample.py:70-78 | the columns the ALTER loop adds, as a definition; its properties are stated by `Schema.MissingConcat`, `Schema.MissingSnoc`, `Schema.MissingContents` and `Schema.MissingDistinct` |
| `Schema.MissingConcat` | sample.py:73-78 | columns are added in sheet order: the diff of a concatenation is the diff of each part, one after the other |
| `Schema.MissingSnoc` | sample.py:73-77 | one more sheet column extends the added columns by that column exactly when it is missing |
| `Schema.MissingContents` | sample.py:70-78 | the names added are exactly the sheet's names minus the existing ones; no added column is a key column; each keeps its sheet column's name and type |
| `Schema.MissingDistinct` | sample.py:73-77 | distinct sheet names give distinct added names |
| `Schema.UpToDateMissesNothing` | sample.py:73-74 | when the table already has every sheet column, nothing is added |
| `Schema.RowOf` | sample.py:82 | a loaded record's fields are exactly the sheet's column names |
| `Schema.RowOfValues` | sample.py:82 | with distinct names each field holds its own column's cell |
| `Schema.SheetRows` | sample.py:82 | the load produces one record per data row, in row order |
| `Importer.IsEmptySheet` | sample.py:37 | `df.empty or df.columns.empty`: no data rows or no columns; its effect is stated by `Importer.EmptySheetIsSkipped` |
| `Importer.SyncSchema` | sample.py:62-78 | create the table with all columns, or append the missing ones; stated by `Importer.NewTableHasSheetColumns`, `Importer.ExistingTableGainsMissing` and `Importer.SyncKeepsNamesDistinct` |
| `Importer.LoadRows` | sample.py:81-85 | the append-mode load under the database's verdict; stated by `Importer.LoadIsAppendOnly` and `Importer.LoadKeepsWellFormed` |
| `Importer.SheetStep` | sample.py:35-85 | one iteration of the sheet loop; its properties are the `Importer` lemmas below, from `EmptySheetIsSkipped` to `StepExtends` |
| `Importer.ImportAll` | sample.py:35-87 | the whole sheet loop; stated by `Importer.ImportAllKeepsAndExtends` and `Importer.ImportAllOutcomes` |
| `Importer.TableName` | sample.py:42 | the normalised sheet name the tab is stored under; its properties are those of `Naming.Normalize` |
| `Importer.ColumnNames` | sample.py:49 | the normalised headers in sheet order; stated by `Naming.NormalizeAll` and `Importer.SheetColumns` |
| `Importer.SheetColumns` | sample.py:44-60 | the descriptors' names are the normalised headers, in order |
| `Importer.EmptySheetIsSkipped` | sample.py:37-39 | a sheet with zero rows or zero columns leaves every table unchanged and is reported skipped |
| `Importer.CollidingNamesHalt` | sample.py:49-58 | a sheet whose normalised column names collide leaves the database unchanged and halts the run |
| `Importer.OtherTablesUnchanged` | sample.py:35-85 | a sheet step, whatever the sheet, touches no table other than its own |
| `Importer.NewTableHasSheetColumns` | sample.py:56-66 | an absent table is created with exactly the sheet's normalised columns in sheet order, with their inferred types and only the first as key; it holds the sheet's rows if the load was accepted, otherwise none |
| `Importer.ExistingTableGainsMissing` | sample.py:67-85 | an existing table keeps its columns as a prefix and gains exactly the non-key columns it lacked, in sheet order; its rows are kept and the sheet's rows appended if accepted |
| `Importer.ResyncAddsNoColumns` | sample.py:70-85 | importing the same sheet again adds no column, whatever the first load's verdict; the second load appends the rows once more (no dedup) when accepted, and otherwise adds nothing and reports a failed load |
| `Importer.LoadIsAppendOnly` | sample.py:81-85 | prior rows are a prefix of the new rows, and the row count grows by the sheet's row count (or by nothing on a failed load) |
| `Importer.SyncKeepsNamesDistinct` | sample.py:62-78 | after the schema step the table has every sheet column and all its old ones, and its column names are still unique |
| `Importer.SyncKeepsWellFormed` | sample.py:62-78 | the schema step keeps every table's invariant |
| `Importer.LoadKeepsWellFormed` | sample.py:81-85 | appending rows whose fields are columns keeps every table's invariant |
| `Importer.StepKeepsWellFormed` | sample.py:35-85 | one sheet step keeps every table's invariant: unique column names, and every stored field is a column |
| `Importer.StepExtends` | sample.py:35-85 | one sheet step never drops a table and never removes or changes an existing column or row |
| `Importer.ImportAllKeepsAndExtends` | sample.py:35-87 | the whole sheet loop keeps the invariant and only grows the database |
| `Importer.ImportAllOutcomes` | sample.py:35-87 | the loop reports at most one outcome per sheet and at least one for a non-empty workbook; only the last outcome can be `Halted`; a skipped sheet or a failed load is followed by the next sheet, so a run that stops short of the last sheet stops on a halting one |
| `Importer.Database.constructor` | sample.py:11-15 | the database starts as the given well-formed tables |
| `Importer.Database.CreateTable` | sample.py:62-66 | given distinct column names (the database refuses a repeated one), creation adds the new empty table, changes nothing else, and keeps every table's invariant |
| `Importer.Database.AddMissingColumns` | sample.py:67-78 | given distinct incoming names (a repeated `ADD COLUMN` fails), the ALTER loop appends exactly the missing non-key columns in sheet order, keeps the rows, returns the added names, and keeps every table's invariant |
| `Importer.Database.AppendRows` | sample.py:81-85 | given rows whose fields are all columns (an INSERT naming a non-column always fails), an accepted load appends the rows; a rejected one changes nothing and reports failure; every table keeps its invariant |
| `Importer.Database.ProcessSheet` | sample.py:35-85 | the in-place sheet step yields the tables and outcome of `SheetStep` and keeps the invariant |
| `Importer.Database.ImportWorkbook` | sample.py:35-87 | the in-place sheet loop yields the tables and outcomes of `ImportAll` and keeps the invariant |
| `Records.Truthy` | sample.py:120 | Python truthiness of the id: None, zero, false and empty text are false; used by `Records.Read` and stated by `Records.FalsyIdReadsAll` |
| `Records.HasId` | sample.py:121 | the `filter_by(id=…)` test: the row's `id` equals the argument, a None argument selecting a NULL id; stated by `Records.Matching` |
| `Records.Matching` | sample.py:121 | the id filter returns exactly the stored rows with that id |
| `Records.MatchingConcat` | sample.py:121 | the id filter preserves table order: the filter of a concatenation is the filter of each part, one after the other |
| `Records.Read` | sample.py:117-124 | the read fails exactly when the id is truthy and the table has no `id` column; otherwise a truthy id returns exactly the rows with that id and a falsy id returns every row |
| `Records.FirstMatch` | sample.py:129 | `.first()` finds the lowest position whose row has the id, or reports that no row has it |
| `Records.FindFirst` | sample.py:129 | the lookup fails exactly when the table has no `id` column (a lookup the database rejects is under "Left out"); otherwise it gives the lowest position whose row has the id, or reports there is none and then no row matches |
| `Records.WriteOutcome` | sample.py:130-139 | the reported result: an error for a failed lookup, not-found for no match, and for a match done or rolled back by the commit's verdict; used by `Records.UpdateEmployee` and `Records.DeleteEmployee` |
| `Records.KnownFields` | sample.py:94-99 | the fields `Employee(**data)` sets; stated by `Records.FilterFields` and `Records.CreateStoresKnownFields` |
| `Records.Patched` | sample.py:131-133 | the record after the `setattr` loop; stated by `Records.ApplyUpdate` and `Records.UpdateWritesOnlyKnownFields` |
| `Records.Create` | sample.py:109-111 | the table with the new record appended; stated by `Records.CreateStoresKnownFields`, `Records.CreateKeepsWellFormed` and `Records.ReadAfterCreate` |
| `Records.Update` | sample.py:129-134 | the table with one record patched; stated by `Records.UpdateWritesOnlyKnownFields` and `Records.UpdateKeepsWellFormed` |
| `Records.Delete` | sample.py:144-147 | the table with one record removed; stated by `Records.ReadAfterDelete` and `Records.DeleteKeepsWellFormed` |
| `Records.FilterFields` | sample.py:94-99 | the constructor's loop keeps exactly the supplied keys that are columns, with their values, and warns about exactly the rest |
| `Records.ApplyUpdate` | sample.py:131-133 | the update loop overwrites exactly the supplied fields that are columns and keeps every other field |
| `Records.CreateEmployee` | sample.py:106-115 | an accepted create appends the filtered record; a rejected one rolls back; unknown keys are reported |
| `Records.UpdateEmployee` | sample.py:126-139 | a table without an `id` column reports an error and changes nothing; an absent id reports not-found and changes nothing; otherwise the first matching record is patched if the commit is accepted |
| `Records.DeleteEmployee` | sample.py:141-152 | a table without an `id` column reports an error and changes nothing; an absent id reports not-found and changes nothing; otherwise the first matching record is removed if the commit is accepted |
| `Records.CreateKeepsWellFormed` | sample.py:94-99 | a created record stores only column fields |
| `Records.UpdateKeepsWellFormed` | sample.py:131-133 | an updated record stores only column fields |
| `Records.DeleteKeepsWellFormed` | sample.py:144-147 | deleting a record keeps the table invariant |
| `Records.CreateStoresKnownFields` | sample.py:94-99 | the new record agrees with the input on every column, holds no non-column key, and earlier rows are kept |
| `Records.UpdateWritesOnlyKnownFields` | sample.py:129-135 | only the found record changes: supplied column fields take the new values, all other fields keep theirs |
| `Records.NotFoundIffNoMatch` | sample.py:129-136 | `.first()` finds nothing exactly when no row has the id |
| `Records.ReadAfterCreate` | sample.py:106-121 | after creating a record with a truthy id, reading that id gives the earlier matches followed by the new record |
| `Records.ReadAfterDelete` | sample.py:141-149 | after deleting the first record with an id, the matches for that id are the earlier matches minus the first |
| `Records.OnlyMatchAtEnd` | sample.py:121-129 | a record appended after rows none of which has its id is the first and only match |
| `Records.FalsyIdReadsAll` | sample.py:120-122 | reading with any falsy id (None, 0, 0.0, false, empty text) returns every row in table order, even without an `id` column |
| `Records.Lifecycle` | sample.py:157-177 | the demo sequence: for a fresh id, reading after create gives exactly the created record; an update that leaves the id alone still finds it; after delete, reading gives nothing and the lookup reports not-found |

## Left out

- Excel parsing and pandas dtype detection (`sample.py:31-36`). A sheet arrives already parsed, and each column carries the answers of the dtype tests. Headers are taken to be strings.
- The engine, the connection URL and the credentials (`sample.py:7-15`). Console output and `__repr__` (`sample.py:101-103`) are observational only.
- Caching of `metadata.reflect`. The model assumes each reflection shows the current database. SQLAlchemy's `reflect` does not reload a table already held in the `MetaData`. So columns added by `ALTER` earlier in the same run stay invisible to a later tab of the same table and to the `Employee` mapping. The model does not capture that stale view.
- Transactions and sessions (`sample.py:71-72` and `107-115`). Each operation is atomic on the in-memory map. The database's checks on a write are not modelled; their verdict is the `accepted` parameter. For update and delete it covers only the commit, not the query. Those checks include value types, primary-key uniqueness and NOT NULL.
- Failure of `CREATE TABLE` or `ADD COLUMN`: for example an empty identifier, or a quote inside a name. In the model both statements always succeed. (An identifier longer than 63 bytes is truncated by PostgreSQL, not refused; the model keeps names whole.)
- Type conflicts between an existing column and a newly inferred type. The source never reconciles them, and the model keeps the existing type.
- Unicode case folding of `str.lower()`. Only ASCII letters are lower-cased.
- `Records.Read`: of the errors `read_employees` catches (`sample.py:123-124`), only the missing `id` column is modelled. Errors of the database itself are not, for example a lost connection or an id the column's type cannot be compared with. In the model such a read returns rows.
- `Records.CreateEmployee`: column defaults are not modelled. A column the data omits holds NULL in the model. The database fills in the column's default instead, for example a generated value for an integer `id` key that SQLAlchemy created as SERIAL (`sample.py:60`, `64-65`). So `create_employee({'name': 'Bob'})` commits a record with a fresh id, where the model stores one whose id is NULL.
- `Records.FindFirst`: a lookup the database rejects is not modelled. An example is an id of a kind the `id` column's type cannot be compared with, such as text against an integer column. The source's query raises there (`sample.py:129`, `144`). In the model the lookup gives `NoMatch` or a match by structural equality.
- `Records.UpdateEmployee`: a lookup the database rejects reports not-found in the model, where the source rolls back and reports an error (`sample.py:137-139`). The `accepted` verdict covers only the commit. Also, `hasattr` holds for attributes that are not columns. The model writes column fields only. Setting a non-column attribute is not modelled: a plain one never reaches the database, and a read-only one such as `__weakref__` raises, which the source reports as an error.
- `Records.DeleteEmployee`: a lookup the database rejects reports not-found in the model, where the source rolls back and reports an error (`sample.py:150-152`). The `accepted` verdict covers only the commit.
- The mapping of `Employee` requires the table to have a primary key. That failure is not modelled. The `employees` guard (`sample.py:90`) is the precondition that the table exists.
- SQL equality between values of different kinds (for example `1001` and `1001.0`), and the row order of queries without `ORDER BY`. The model compares values structurally and keeps insertion order.
