/**
 * `AsterDataTableDesc`: a table description for Aster Data that may name a partition key,
 * which adds a `PARTITION KEY( ... )` clause after the clauses of the base description.
 *
 * The base description's own clause list (`super.addCreateTableBodyTo`) comes from a
 * revision of `TableDesc` with a list of primary keys; it is a parameter here
 * (`superClauses`), which the base hook appends in order.
 */
module AsterDataTables {
  import opened Base
  import opened Text
  import TableDescs

  /** A description as the three constructors leave it; absent arguments are null (None). */
  datatype AsterDataTableDesc = AsterDataTableDesc(
    tableName: string,
    columnNames: Option<seq<string>>,
    columnDefs: Option<seq<string>>,
    primaryKeys: Option<seq<string>>,
    partitionKey: Option<string>)

  /** The template of the partition-key clause. */
  const PartitionKeyFormat: string := "PARTITION KEY( %s )"

  /** `AsterDataTableDesc(tableName)`: a name only, no partition key. */
  function NewAsterDataTableDesc(tableName: string): (d: AsterDataTableDesc)
    ensures d.tableName == tableName && d.columnNames.None? && d.columnDefs.None? && d.primaryKeys.None?
    ensures !HasPartitionKey(d)
  {
    AsterDataTableDesc(tableName, None, None, None, None)
  }

  /** The four-argument constructor: columns and keys, no partition key. */
  function WithColumns(tableName: string, columnNames: seq<string>, columnDefs: seq<string>,
                       primaryKeys: seq<string>): (d: AsterDataTableDesc)
    ensures d.tableName == tableName && d.columnNames == Some(columnNames)
    ensures d.columnDefs == Some(columnDefs) && d.primaryKeys == Some(primaryKeys)
    ensures !HasPartitionKey(d)
  {
    AsterDataTableDesc(tableName, Some(columnNames), Some(columnDefs), Some(primaryKeys), None)
  }

  /** The five-argument constructor: as the four-argument one, plus the (possibly null) partition key. */
  function WithPartitionKey(tableName: string, columnNames: seq<string>, columnDefs: seq<string>,
                            primaryKeys: seq<string>, partitionKey: Option<string>): (d: AsterDataTableDesc)
    ensures d == WithColumns(tableName, columnNames, columnDefs, primaryKeys).(partitionKey := partitionKey)
    ensures HasPartitionKey(d) <==> partitionKey.Some? && partitionKey.value != ""
  {
    AsterDataTableDesc(tableName, Some(columnNames), Some(columnDefs), Some(primaryKeys), partitionKey)
  }

  /** `hasPartitionKey()`: the key is neither null nor empty. */
  predicate HasPartitionKey(d: AsterDataTableDesc)
  {
    d.partitionKey.Some? && |d.partitionKey.value| != 0
  }

  /** `String.format("PARTITION KEY( %s )", key)`. */
  function PartitionKeyClause(key: string): (r: string)
    ensures r == "PARTITION KEY( " + key + " )"
  {
    FormatOne(PartitionKeyFormat, "PARTITION KEY( ", " )", key);
    Format(PartitionKeyFormat, [key])
  }

  /**
   * The clauses `addCreateTableBodyTo` contributes: the base clauses in their order, then
   * exactly one partition-key clause when there is a partition key.
   */
  function CreateTableBody(d: AsterDataTableDesc, superClauses: seq<string>): (r: seq<string>)
    ensures |r| == |superClauses| + (if HasPartitionKey(d) then 1 else 0)
    ensures r[..|superClauses|] == superClauses
    ensures HasPartitionKey(d) ==> r[|superClauses|] == PartitionKeyClause(d.partitionKey.value)
    ensures !HasPartitionKey(d) ==> r == superClauses
  {
    if HasPartitionKey(d) then superClauses + [PartitionKeyClause(d.partitionKey.value)] else superClauses
  }

  /** A `java.util.List<String>` that callers extend in place. */
  class StringList {
    var items: seq<string>

    constructor (items: seq<string>)
      ensures this.items == items
    {
      this.items := items;
    }

    /** `add(x)`. */
    method Add(x: string)
      modifies this
      ensures items == old(items) + [x]
    {
      items := items + [x];
    }
  }

  /**
   * `addCreateTableBodyTo(createTableStatement)`: the base hook appends its clauses, then
   * the partition-key clause is appended; the same list is returned.
   */
  method AddCreateTableBodyTo(d: AsterDataTableDesc, list: StringList, superClauses: seq<string>)
    returns (r: StringList)
    modifies list
    ensures r == list
    ensures list.items == old(list.items) + CreateTableBody(d, superClauses)
  {
    ghost var before := list.items;
    for i := 0 to |superClauses|
      invariant list.items == before + superClauses[..i]
    {
      list.Add(superClauses[i]);
      assert superClauses[..i + 1] == superClauses[..i] + [superClauses[i]];
    }
    assert superClauses[..|superClauses|] == superClauses;
    if HasPartitionKey(d) {
      list.Add(PartitionKeyClause(d.partitionKey.value));
    }
    return list;
  }

  /** What follows the leading keywords of a create statement: the name and the parenthesised body. */
  function StatementTail(d: AsterDataTableDesc, superClauses: seq<string>): string
  {
    d.tableName + " ( " + Join(CreateTableBody(d, superClauses), ", ") + " )"
  }

  /** The create statement with the base template, over the body above. */
  function CreateTableStatement(d: AsterDataTableDesc, superClauses: seq<string>): (r: string)
    ensures r == "CREATE TABLE " + StatementTail(d, superClauses)
  {
    var body := Join(CreateTableBody(d, superClauses), ", ");
    FormatTwo(TableDescs.CreateTableFormat, "CREATE TABLE ", " ( ", " )", d.tableName, body);
    Regroup("CREATE TABLE ", d.tableName, " ( ", body, " )");
    Format(TableDescs.CreateTableFormat, [d.tableName, body])
  }

  /**
   * The drop statement is inherited from `TableDesc`, whose `getTableDropStatement` reads
   * only the table name.
   */
  function DropTableStatement(d: AsterDataTableDesc): (r: string)
    ensures r == "DROP TABLE " + d.tableName
  {
    TableDescs.TableDropStatement(TableDescs.NewTableDesc(d.tableName, []))
  }

  /** In the joined body, the partition-key clause follows the base clauses after one more separator. */
  lemma PartitionClauseJoined(d: AsterDataTableDesc, superClauses: seq<string>)
    requires HasPartitionKey(d) && |superClauses| > 0
    ensures Join(CreateTableBody(d, superClauses), ", ")
         == Join(superClauses, ", ") + ", " + PartitionKeyClause(d.partitionKey.value)
  {
    JoinSnoc(superClauses, PartitionKeyClause(d.partitionKey.value), ", ");
  }

  /**
   * Without a partition key, and with the base clauses of a `TableDesc` of the same name,
   * the statement is exactly the one `TableDesc` builds.
   */
  lemma NoPartitionKeyIsPlainTable(d: AsterDataTableDesc, base: TableDescs.TableDesc)
    requires !HasPartitionKey(d) && d.tableName == base.tableName && TableDescs.CanCreate(base)
    ensures CreateTableStatement(d, TableDescs.CreateClauses(base)) == TableDescs.TableCreateStatement(base).value
  {
  }
}
