/**
 * `ADDimensionTableDesc`: an Aster Data dimension table. It differs from
 * `AsterDataTableDesc` only in its create and drop templates.
 */
module ADDimensionTables {
  import opened Base
  import opened Text
  import opened AsterDataTables

  /** `getCreateTableFormat()`. */
  const DimensionCreateTableFormat: string := "CREATE DIMENSION TABLE %s ( %s )"
  /** `getDropTableFormat()`. */
  const DimensionDropTableFormat: string := "DROP TABLE %s CASCADE"

  /** The constructor forwards all five arguments, partition key included. */
  function NewADDimensionTableDesc(tableName: string, columnNames: seq<string>, columnDefs: seq<string>,
                                   primaryKeys: seq<string>, partitionKey: Option<string>): (d: AsterDataTableDesc)
    ensures d == WithPartitionKey(tableName, columnNames, columnDefs, primaryKeys, partitionKey)
    ensures HasPartitionKey(d) <==> partitionKey.Some? && partitionKey.value != ""
  {
    AsterDataTableDesc(tableName, Some(columnNames), Some(columnDefs), Some(primaryKeys), partitionKey)
  }

  /** The create statement with the dimension template, over the inherited body. */
  function DimensionCreateTableStatement(d: AsterDataTableDesc, superClauses: seq<string>): (r: string)
    ensures r == "CREATE DIMENSION TABLE " + StatementTail(d, superClauses)
  {
    var body := Join(CreateTableBody(d, superClauses), ", ");
    FormatTwo(DimensionCreateTableFormat, "CREATE DIMENSION TABLE ", " ( ", " )", d.tableName, body);
    Regroup("CREATE DIMENSION TABLE ", d.tableName, " ( ", body, " )");
    Format(DimensionCreateTableFormat, [d.tableName, body])
  }

  /** The drop statement with the dimension template: dependent objects are dropped too. */
  function DimensionDropTableStatement(d: AsterDataTableDesc): (r: string)
    ensures r == "DROP TABLE " + d.tableName + " CASCADE"
  {
    FormatOne(DimensionDropTableFormat, "DROP TABLE ", " CASCADE", d.tableName);
    Format(DimensionDropTableFormat, [d.tableName])
  }

  /**
   * Only the templates differ: after the leading keywords both create statements are
   * the same text, and the dimension drop is the plain drop with " CASCADE" appended.
   */
  lemma OnlyTemplatesDiffer(d: AsterDataTableDesc, superClauses: seq<string>)
    ensures DimensionCreateTableStatement(d, superClauses)[|"CREATE DIMENSION TABLE "|..]
         == CreateTableStatement(d, superClauses)[|"CREATE TABLE "|..]
    ensures DimensionDropTableStatement(d) == DropTableStatement(d) + " CASCADE"
  {
    DropPrefix("CREATE DIMENSION TABLE ", StatementTail(d, superClauses));
    DropPrefix("CREATE TABLE ", StatementTail(d, superClauses));
  }

  /** A dimension table with a partition key ends its body with the partition clause. */
  lemma DimensionKeepsPartitionClause(d: AsterDataTableDesc, superClauses: seq<string>)
    requires HasPartitionKey(d) && |superClauses| > 0
    ensures DimensionCreateTableStatement(d, superClauses)
         == "CREATE DIMENSION TABLE " + d.tableName + " ( " + Join(superClauses, ", ")
            + ", " + PartitionKeyClause(d.partitionKey.value) + " )"
  {
    var head := "CREATE DIMENSION TABLE ";
    var body := Join(CreateTableBody(d, superClauses), ", ");
    PartitionClauseJoined(d, superClauses);
    Regroup(head, d.tableName, " ( ", body, " )");
    Splice(head + d.tableName + " ( ", Join(superClauses, ", "), ", ", PartitionKeyClause(d.partitionKey.value), " )");
  }
}
