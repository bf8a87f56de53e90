# cascading.jdbc in Dafny

A model of the core of the cascading.jdbc connector. The connector lets a Cascading flow
read from and write to a SQL table through Hadoop's DBInputFormat and DBOutputFormat. The
model covers these parts:

- **TableDesc** (`TableDescs`): the create, drop and exists-probe statements. The create
  statement is built by an imperative loop over a `decl` array, which is proved equal to a
  pure specification. Its error cases are modelled: a missing column definition array throws
  NullPointerException, a short one throws ArrayIndexOutOfBoundsException.
- **JDBCScheme** (`Schemes`):
  - the constructor's `updateBy` check and the fields it derives;
  - the insert-or-update decision in `sink`;
  - `source`, `sourceInit` and `sinkInit` over a `JobConf` object.
- **JDBCTap** (`Taps`): a class whose methods drive a `Database` object (`Databases`). That
  object holds the set of tables, the statements the server received, counters of opened and
  closed connections, and a script of environment faults. Each fault decides the fate of one
  connection attempt: the driver is missing, the connection is refused, the statement fails,
  or the close fails. Each method of the sink lifecycle is proved equal to a pure function of
  the database state:
  - `pathExists`, `makeDirs` and `deletePath`;
  - `sinkInit`, and `executeUpdate`/`executeQuery` with their connection discipline.

  The lifecycle properties are proved about those functions.
- **TupleRecord** (`Records`): `write` binds parameter `i + 1` to element `i`, and
  `readFields` rebuilds the tuple from a row. The round trip between the two is proved.
- **AsterDataTableDesc** and **ADDimensionTableDesc** (`AsterDataTables`, `ADDimensionTables`):
  - the optional `PARTITION KEY( ... )` clause, appended in place to the caller's list;
  - the dimension table's two templates.
- **AsterDataScheme** (`AsterDataSchemes`): the in-place `cleanTuple` loop exactly as
  written, and the escaping it was evidently meant to do (see Findings). Also the formats
  and limit its constructors choose.

`Base` holds Option, Result, the Java exceptions that matter, and an Outcome for calls that
either return or throw. `Text` holds `Util.join` and `String.format` restricted to `%s`.
It also holds `String.replaceAll` for a one-character pattern, with Java's rule that a
backslash in the replacement text makes the next character literal. `Tuples` holds tuple
values and field selection. `Hadoop` holds the job configuration the connector writes to.

Where the code and its documentation disagree, the model follows the code:

- The class comment of JDBCScheme (src/java/cascading/jdbc/JDBCScheme.java:31-32) says a
  record becomes an UPDATE when its `updateBy` values are all non-null. The code
  (src/java/cascading/jdbc/JDBCScheme.java:147-150) writes an INSERT only when they are all
  null. So a record with some null and some non-null key values is an UPDATE here
  (`Schemes.ClassifyUpdateIff`).

## Model

| member | source | states |
|---|---|---|
| TableDescs.NewTableDesc | src/java/cascading/jdbc/TableDesc.java:44-48 | the two-argument constructor leaves column definitions and primary key null |
| TableDescs.PrimaryKeyClause | src/java/cascading/jdbc/TableDesc.java:84 | the primary-key clause is `PRIMARY KEY( key )` |
| TableDescs.ColumnClauses | src/java/cascading/jdbc/TableDesc.java:75-81 | one clause per column name, name and definition at the same index joined by a space |
| TableDescs.CreateClauses | src/java/cascading/jdbc/TableDesc.java:73-84 | the column clauses in order, then the primary-key clause last exactly when a non-empty key is set |
| TableDescs.TableCreateStatement | src/java/cascading/jdbc/TableDesc.java:71-87 | succeeds exactly when every column has a definition; null definitions throw NullPointerException, too few throw ArrayIndexOutOfBoundsException at the first missing index; otherwise `CREATE TABLE name ( clauses joined by ", " )` |
| TableDescs.GetTableCreateStatement | src/java/cascading/jdbc/TableDesc.java:71-87 | the `decl` array loop returns exactly `TableCreateStatement`, including where it throws |
| TableDescs.TableDropStatement | src/java/cascading/jdbc/TableDesc.java:94-97 | `DROP TABLE name` |
| TableDescs.TableExistsQuery | src/java/cascading/jdbc/TableDesc.java:104-107 | `select 1 from name where 1 = 0` |
| Schemes.UpdateValueFieldsPermutation | src/java/cascading/jdbc/JDBCScheme.java:70 | the value fields are a permutation of distinct columns, same length, with the update columns last in their given order |
| Schemes.NewJDBCScheme | src/java/cascading/jdbc/JDBCScheme.java:55-79 | throws IllegalArgumentException exactly when a non-empty `updateBy` names a column outside `columns`; on success the derived fields satisfy `Valid`, and a null or empty `updateBy` leaves the update fields null |
| Schemes.NewDefaultJDBCScheme | src/java/cascading/jdbc/JDBCScheme.java:88-112 | the shorter constructors set no formats and cannot fail without `updateBy` |
| Schemes.UpdateFieldsSelectable | src/java/cascading/jdbc/JDBCScheme.java:142-143 | the update and value columns can be selected from any entry carrying the scheme's columns |
| Schemes.ClassifyUpdateIff | src/java/cascading/jdbc/JDBCScheme.java:140-155 | a record is an UPDATE exactly when update columns are configured and at least one of them is non-null in the record |
| Schemes.SinkRecord | src/java/cascading/jdbc/JDBCScheme.java:138-156 | the collected value is null exactly for inserts and otherwise is the key record itself; the key holds the value fields when updating and the sink fields otherwise |
| Schemes.Sink | src/java/cascading/jdbc/JDBCScheme.java:138-156 | exactly one `collect` per call, the record given by `SinkRecord` |
| Schemes.Source | src/java/cascading/jdbc/JDBCScheme.java:133-136 | returns the record's tuple |
| Schemes.JoinedOrderBy | src/java/cascading/jdbc/JDBCScheme.java:117 | null exactly when `orderBy` is null; a single name is passed unchanged |
| Schemes.SourceInit | src/java/cascading/jdbc/JDBCScheme.java:114-122 | the input is the table, no conditions, the joined order and the columns; the input format changes only when the scheme names one |
| Schemes.SinkInit | src/java/cascading/jdbc/JDBCScheme.java:124-131 | the output is the table, the columns and the `updateBy` field; the output format changes only when the scheme names one |
| Schemes.UpdateScenario | src/test/cascading/jdbc/JDBCTest.java:104 | for columns num, lower, upper keyed by num and lower, the value fields are upper, num, lower, and a record with num set is an UPDATE |
| Tuples.Subtract | src/java/cascading/jdbc/JDBCScheme.java:70 | `Fields.subtract` keeps exactly the fields not named, and keeps distinctness |
| Tuples.SelectTuple | src/java/cascading/jdbc/JDBCScheme.java:142-143 | `selectTuple` returns one value per selected name, in selector order |
| Tuples.NullTupleIff | src/java/cascading/jdbc/JDBCScheme.java:71 | a key equals the all-null sentinel exactly when every element is null |
| Records.TupleRecord.Write | src/java/cascading/jdbc/TupleRecord.java:41-45 | binds parameter `i + 1` to element `i` and touches no other parameter; a null tuple throws NullPointerException before binding anything |
| Records.TupleRecord.ReadFields | src/java/cascading/jdbc/TupleRecord.java:47-53 | the new tuple is the row, column `i + 1` at element `i`, whatever the record held before |
| Records.TupleRecord.GetTuple | src/java/cascading/jdbc/TupleRecord.java:36-39 | returns what was last stored |
| Records.TupleRecord.SetTuple | src/java/cascading/jdbc/TupleRecord.java:31-34 | stores the tuple |
| Records.BindingsRoundTrip | src/java/cascading/jdbc/TupleRecord.java:41-53 | reading back the parameters a tuple was bound to gives the tuple |
| Records.WriteThenRead | src/java/cascading/jdbc/TupleRecord.java:41-53 | writing a tuple and reading the returned row into a fresh record yields the same tuple |
| Taps.CheckSinkMode | src/java/cascading/jdbc/JDBCTap.java:119-120 | fails exactly when column definitions are null and the mode is not APPEND, with the constructor's message |
| Taps.JDBCTap.New | src/java/cascading/jdbc/JDBCTap.java:110-124 | throws IllegalArgumentException exactly when `CheckSinkMode` fails; otherwise a fresh tap holding the arguments |
| Taps.JDBCTap.NewAppend | src/java/cascading/jdbc/JDBCTap.java:94-97 | the overloads without a sink mode use APPEND and always construct |
| Taps.JDBCTap.NewWithoutCredentials | src/java/cascading/jdbc/JDBCTap.java:79-82 | no username or password, and the same check as the main constructor |
| Taps.JDBCTap.GetPath | src/java/cascading/jdbc/JDBCTap.java:154-157 | `jdbc:/` followed by the connection URL with every `:` turned into `_`, character for character; the string handed to the `Path` constructor |
| Taps.JDBCTap.DbConfiguration | src/java/cascading/jdbc/JDBCTap.java:175-178 | credentials are passed exactly when a username is set |
| Taps.JDBCTap.ConnectionFailure | src/java/cascading/jdbc/JDBCTap.java:201-228 | a connection is obtained exactly when the driver loads and the connection opens; otherwise the TapException names the driver or the URL |
| Taps.JDBCTap.Execute | src/java/cascading/jdbc/JDBCTap.java:230-302 | one connection attempt per call; under the modelled faults a connection once opened is closed; the statement reaches the server only if connected; it succeeds exactly when it is not refused and the table state allows it, and changes the tables only then |
| Taps.JDBCTap.CreateConnection | src/java/cascading/jdbc/JDBCTap.java:201-228 | throws as `ConnectionFailure` says for a missing driver or a refused connection, else opens one connection; the auto-commit failure after opening is not modelled |
| Taps.JDBCTap.ExecuteUpdate | src/java/cascading/jdbc/JDBCTap.java:230-265 | the outcome and the new database state are those of `Execute`; a failing close is swallowed |
| Taps.JDBCTap.ExecuteQuery | src/java/cascading/jdbc/JDBCTap.java:267-302 | the outcome and the new database state are those of `Execute`; a failing close is swallowed |
| Taps.JDBCTap.PathExistsSpec | src/java/cascading/jdbc/JDBCTap.java:346-360 | true exactly when the probe connects, is not refused and the table exists; tables unchanged; connections released under the modelled faults |
| Taps.JDBCTap.PathExists | src/java/cascading/jdbc/JDBCTap.java:346-360 | the answer and new state are those of `PathExistsSpec` |
| Taps.JDBCTap.MakeDirsSpec | src/java/cascading/jdbc/JDBCTap.java:304-323 | an existing table is reported without a CREATE; a true answer means the table exists; only a missing or short column definition array throws |
| Taps.JDBCTap.MakeDirsOnlyAdds | src/java/cascading/jdbc/JDBCTap.java:304-323 | `makeDirs` never removes a table and adds at most this tap's table |
| Taps.JDBCTap.MakeDirsSendsNoDrop | src/java/cascading/jdbc/JDBCTap.java:304-323 | `makeDirs` sends no DROP |
| Taps.JDBCTap.MakeDirs | src/java/cascading/jdbc/JDBCTap.java:304-323 | the answer and new state are those of `MakeDirsSpec` |
| Taps.JDBCTap.MakeDirsIdempotent | src/java/cascading/jdbc/JDBCTap.java:304-307 | after `makeDirs` answered true, an undisturbed second call answers true and sends only the probe |
| Taps.JDBCTap.DeletePathSpec | src/java/cascading/jdbc/JDBCTap.java:325-344 | a table the probe misses is reported deleted without a DROP, even when the miss is a connection failure; connections released under the modelled faults |
| Taps.JDBCTap.DeletePathOnlyRemoves | src/java/cascading/jdbc/JDBCTap.java:325-344 | `deletePath` never adds a table and removes at most this tap's table |
| Taps.JDBCTap.DeletePathSendsNoCreate | src/java/cascading/jdbc/JDBCTap.java:325-344 | `deletePath` sends no CREATE |
| Taps.JDBCTap.DeleteExistingWithoutFaults | src/java/cascading/jdbc/JDBCTap.java:325-344 | with no faults an existing table is probed, dropped and probed again, the answer is true and the table is gone |
| Taps.JDBCTap.DeleteWithoutFaults | src/java/cascading/jdbc/JDBCTap.java:325-344 | with no faults `deletePath` answers true and the table is absent afterwards |
| Taps.JDBCTap.DeletePath | src/java/cascading/jdbc/JDBCTap.java:325-344 | the answer and new state are those of `DeletePathSpec` |
| Taps.JDBCTap.SinkInitSpec | src/java/cascading/jdbc/JDBCTap.java:183-199 | success leaves the table present; connections released under the modelled faults; the only failures are the two TapExceptions and the create statement's exception |
| Taps.JDBCTap.DropStepSendsNoCreate | src/java/cascading/jdbc/JDBCTap.java:187-188 | the drop step sends no CREATE, and outside REPLACE mode or inside a task it does nothing |
| Taps.JDBCTap.SinkInitDropsOnlyWhenReplacing | src/java/cascading/jdbc/JDBCTap.java:186-188 | a DROP is sent only in REPLACE mode and only outside a task |
| Taps.JDBCTap.SinkInitDropsFirst | src/java/cascading/jdbc/JDBCTap.java:187-191 | every DROP `sinkInit` sends comes before every CREATE it sends |
| Taps.JDBCTap.SinkInit | src/java/cascading/jdbc/JDBCTap.java:183-199 | the outcome and database state are those of `SinkInitSpec`; on success the connection settings and the scheme's output settings are configured, on failure the configuration is untouched |
| Taps.JDBCTap.SourceInit | src/java/cascading/jdbc/JDBCTap.java:169-181 | the input path is `GetPath()`, then the connection settings, then the scheme's input settings |
| Taps.JDBCTap.MakeMissingWithoutFaults | src/java/cascading/jdbc/JDBCTap.java:304-323 | with no faults a missing table is probed, created and probed again, and the answer is true |
| Taps.JDBCTap.ReplaceExistingTable | src/java/cascading/jdbc/JDBCTap.java:183-199 | with no faults, REPLACE on an existing table sends probe, DROP, probe, probe, CREATE, probe, and succeeds with the table present |
| Taps.DropsThenCreates | src/java/cascading/jdbc/JDBCTap.java:187-191 | a stretch without CREATE followed by a stretch without DROP puts every DROP first |
| AsterDataTables.NewAsterDataTableDesc | src/java/cascading/jdbc/asterdata/AsterDataTableDesc.java:27-30 | name only, no partition key |
| AsterDataTables.WithColumns | src/java/cascading/jdbc/asterdata/AsterDataTableDesc.java:32-35 | the four-argument constructor sets no partition key |
| AsterDataTables.WithPartitionKey | src/java/cascading/jdbc/asterdata/AsterDataTableDesc.java:37-41 | the five-argument constructor has a partition key exactly when the argument is non-null and non-empty |
| AsterDataTables.PartitionKeyClause | src/java/cascading/jdbc/asterdata/AsterDataTableDesc.java:49 | the clause is `PARTITION KEY( key )` |
| AsterDataTables.CreateTableBody | src/java/cascading/jdbc/asterdata/AsterDataTableDesc.java:44-51 | the base clauses unchanged and in order, then exactly one partition clause when there is a partition key, and nothing more |
| AsterDataTables.AddCreateTableBodyTo | src/java/cascading/jdbc/asterdata/AsterDataTableDesc.java:43-52 | extends the caller's list in place by `CreateTableBody` and returns that same list |
| AsterDataTables.CreateTableStatement | src/java/cascading/jdbc/asterdata/AsterDataTableDesc.java:43-52 | `CREATE TABLE name ( body joined by ", " )` |
| AsterDataTables.DropTableStatement | src/java/cascading/jdbc/TableDesc.java:94-97 | `DROP TABLE name`, the inherited `TableDescs.TableDropStatement` of a description with the same name |
| AsterDataTables.PartitionClauseJoined | src/java/cascading/jdbc/asterdata/AsterDataTableDesc.java:48-49 | in the joined body the partition clause follows the base clauses after one more `, ` |
| AsterDataTables.NoPartitionKeyIsPlainTable | src/java/cascading/jdbc/asterdata/AsterDataTableDesc.java:46-51 | without a partition key the statement is exactly the plain `TableDesc` one |
| ADDimensionTables.NewADDimensionTableDesc | src/java/cascading/jdbc/asterdata/ADDimensionTableDesc.java:20-23 | forwards all five arguments, partition key included |
| ADDimensionTables.DimensionCreateTableStatement | src/java/cascading/jdbc/asterdata/ADDimensionTableDesc.java:26-29 | `CREATE DIMENSION TABLE name ( body )` |
| ADDimensionTables.DimensionDropTableStatement | src/java/cascading/jdbc/asterdata/ADDimensionTableDesc.java:32-35 | `DROP TABLE name CASCADE` |
| ADDimensionTables.OnlyTemplatesDiffer | src/java/cascading/jdbc/asterdata/ADDimensionTableDesc.java:18-36 | after the leading keywords the dimension and plain create statements are the same text; the dimension drop is the plain drop plus ` CASCADE` |
| ADDimensionTables.DimensionKeepsPartitionClause | src/java/cascading/jdbc/asterdata/ADDimensionTableDesc.java:20-23 | a dimension table with a partition key ends its body with the partition clause |
| AsterDataSchemes.NewAsterDataScheme | src/java/cascading/jdbc/asterdata/AsterDataScheme.java:54-57 | the Aster Data input format, no output format, and the base constructor's `updateBy` check |
| AsterDataSchemes.NewLiteralQueryScheme | src/java/cascading/jdbc/asterdata/AsterDataScheme.java:94-112 | the Aster Data input format, and limit -1 when none is given |
| AsterDataSchemes.CleanTuple | src/java/cascading/jdbc/asterdata/AsterDataScheme.java:114-129 | returns the same tuple; only String elements change, each as `CleanValue` says |
| AsterDataSchemes.CleanValueAsWritten | src/java/cascading/jdbc/asterdata/AsterDataScheme.java:123-124 | as written, a String keeps its length, each newline becomes the letter `n`, quotes are not doubled, no newline remains |
| AsterDataSchemes.NonStringsUntouched | src/java/cascading/jdbc/asterdata/AsterDataScheme.java:121 | non-String elements are left as they are |
| AsterDataSchemes.QuoteDoublingLost | src/java/cascading/jdbc/asterdata/AsterDataScheme.java:123-124 | a lone quote comes back undoubled |
| AsterDataSchemes.NewlineBecomesLetterN | src/java/cascading/jdbc/asterdata/AsterDataScheme.java:124 | a line break comes back as the letter `n` |
| AsterDataSchemes.CleanTupleEscaped | src/java/cascading/jdbc/asterdata/AsterDataScheme.java:114-129 | the corrected loop: returns the same tuple, each String escaped by `EscapedValue` |
| AsterDataSchemes.EscapedQuotes | src/java/cascading/jdbc/asterdata/AsterDataScheme.java:123 | the corrected escaping doubles every quote |
| AsterDataSchemes.EscapedNewlines | src/java/cascading/jdbc/asterdata/AsterDataScheme.java:124 | the corrected escaping leaves no line break |
| AsterDataSchemes.EscapedBackslashes | src/java/cascading/jdbc/asterdata/AsterDataScheme.java:124 | the corrected escaping adds exactly one backslash per line break |

## Left out

- JDBC driver mechanics are not modelled: connections, statements, auto-commit and commit, result sets beyond one row. `Databases.Database` stands in for the server and its environment, with a fault script in place of driver and network failures.
- Logging (`LOG.info`, `LOG.warn`) is not modelled, including the warning printed for non-APPEND sink modes.
- `openForRead`, `openForWrite`, `getPathModified` and `toString` are host-framework plumbing (iterators, collectors, the clock) and are not modelled.
- The JDBCTap constructor that takes a table name (src/java/cascading/jdbc/JDBCTap.java:65-68) is not modelled. It relies on a one-argument `TableDesc` constructor that TableDesc.java does not have.
- The Hadoop side of `DBInputFormat.setInput`, `DBOutputFormat.setOutput`, `DBConfiguration.configureDB` and `FileInputFormat.setInputPaths` is not modelled. Their arguments are recorded in `Hadoop.JobConf`.
- ADInputFormat.java is not part of this model. It only skips a transaction-isolation call on a live connection.
- AsterDataScheme's other constructor overloads (src/java/cascading/jdbc/asterdata/AsterDataScheme.java:24-92) are not modelled beyond the choice of input and output format, because the JDBCScheme constructors they call (conditions, limits, field objects) are not in JDBCScheme.java.
- AsterDataTables.AddCreateTableBodyTo: the base class's `addCreateTableBodyTo` is not in TableDesc.java, so its clauses are a parameter that the hook appends in order.
- AsterDataTables.CreateTableStatement: the base class's statement assembly from `getCreateTableFormat` is not in TableDesc.java; the templates are assumed to be filled as at TableDesc.java:86.
- ADDimensionTables.DimensionCreateTableStatement: the same assumption as for the plain Aster Data statement.
- Text.ReplaceAll: `$` group references in replacement text and multi-character patterns are not modelled. A trailing lone backslash in the replacement text is copied literally, where Java's `Matcher.appendReplacement` throws IllegalArgumentException. No replacement string in the connector uses any of these.
- Text.Format: only `%s` directives are modelled, and calls with too few arguments are excluded. No template in the connector needs more.
- Null elements inside `columnNames` or `columnDefs` and a null `tableName` are not modelled. Strings here are never null.
- Records.TupleRecord.ReadFields: the `(Comparable)` cast of each column value is not modelled; every value is one of the modelled kinds.
- Schemes.UpdateValueFieldsPermutation: stated for distinct column names only. `Fields` with repeated names are outside the model.
- Taps.JDBCTap.CreateConnection: a failure of `setAutoCommit( false )` after the connection has opened (src/java/cascading/jdbc/JDBCTap.java:216, 224-226) is not modelled. In the source that path throws a TapException and leaks the open connection: the caller's `connection` is still null, so it is never closed.
- Taps.JDBCTap.Execute: the promise that every opened connection is closed holds only for the modelled faults, and so does the same promise in `PathExistsSpec`, `MakeDirsSpec`, `DeletePathSpec` and `SinkInitSpec`. The auto-commit failure above leaves one connection open.
- Taps.JDBCTap.GetPath: only the string passed to the Hadoop `Path` constructor is modelled, not the `Path` object parsed from it.
- Taps.JDBCTap.Execute: a statement that throws after the server applied it, for example on `commit`, is treated as not applied.
- Host-engine KEEP-mode behaviour is outside this model. The tap itself treats KEEP like APPEND except in the constructor check.
- The Tap is modelled with the plain `TableDesc` only. The shown JDBCTap calls `getCreateTableStatement`, which is not in TableDesc.java; `getTableCreateStatement` stands in for it.

## Findings

| source | as written | input that shows it | evidently intended | confidence | as-written member | corrected member |
|---|---|---|---|---|---|---|
| src/java/cascading/jdbc/asterdata/AsterDataScheme.java:123-124 | the second `set` recomputes from the original value and overwrites the quote-doubled string, so quotes are never doubled | the String `'` comes back as `'` | quotes doubled and newlines escaped, with the second replacement applied to the first one's result | high, not executed | AsterDataSchemes.QuoteDoublingLost | AsterDataSchemes.CleanTupleEscaped |
| src/java/cascading/jdbc/asterdata/AsterDataScheme.java:124 | the replacement text backslash-n is read by `replaceAll` as an escaped `n`, so each line break becomes the letter `n` | the String `a`, line break, `b` comes back as `anb` | each line break becomes the two characters backslash and `n` | medium, not executed | AsterDataSchemes.NewlineBecomesLetterN | AsterDataSchemes.EscapedNewlines |
