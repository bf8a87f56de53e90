/**
 * `TableDesc`: the name, columns, column definitions and primary key of a SQL table, and
 * the three statements built from them (create, drop, exists probe).
 */
module TableDescs {
  import opened Base
  import opened Text

  /**
   * A table description. `columnDefs` and `primaryKey` are null (None) when the
   * two-argument constructor was used.
   */
  datatype TableDesc = TableDesc(
    tableName: string,
    columnNames: seq<string>,
    columnDefs: Option<seq<string>>,
    primaryKey: Option<string>)

  /** The template the create statement is formatted with: table name, then the joined clauses. */
  const CreateTableFormat: string := "CREATE TABLE %s ( %s )"
  /** The template of the drop statement. */
  const DropTableFormat: string := "DROP TABLE %s"
  /** The template of the probe that fails exactly when the table is missing. */
  const ExistsQueryFormat: string := "select 1 from %s where 1 = 0"
  /** The template of the primary-key clause. */
  const PrimaryKeyFormat: string := "PRIMARY KEY( %s )"

  /** `TableDesc(tableName, columnNames)`: no column definitions and no primary key. */
  function NewTableDesc(tableName: string, columnNames: seq<string>): (d: TableDesc)
    ensures d.tableName == tableName && d.columnNames == columnNames
    ensures d.columnDefs == None && !HasPrimaryKey(d)
  {
    TableDesc(tableName, columnNames, None, None)
  }

  /** `hasPrimaryKey()`: the key is neither null nor empty. */
  predicate HasPrimaryKey(d: TableDesc)
  {
    d.primaryKey.Some? && |d.primaryKey.value| != 0
  }

  /** `columnName + " " + columnDef`. */
  function ColumnClause(name: string, def: string): string
  {
    name + " " + def
  }

  /** `String.format("PRIMARY KEY( %s )", key)`. */
  function PrimaryKeyClause(key: string): (r: string)
    ensures r == "PRIMARY KEY( " + key + " )"
  {
    FormatOne(PrimaryKeyFormat, "PRIMARY KEY( ", " )", key);
    Format(PrimaryKeyFormat, [key])
  }

  /** The column clauses, one per column name, pairing each name with the definition at its index. */
  function ColumnClauses(names: seq<string>, defs: seq<string>): (r: seq<string>)
    requires |names| <= |defs|
    ensures |r| == |names|
    ensures forall i :: 0 <= i < |names| ==> r[i] == ColumnClause(names[i], defs[i])
  {
    if names == [] then []
    else [ColumnClause(names[0], defs[0])] + ColumnClauses(names[1..], defs[1..])
  }

  /**
   * Whether the create statement can be built: every column name has a definition at its
   * index (extra definitions are ignored). With no columns the definitions are never read.
   */
  predicate CanCreate(d: TableDesc)
  {
    |d.columnNames| == 0 || (d.columnDefs.Some? && |d.columnNames| <= |d.columnDefs.value|)
  }

  /** The definitions the loop reads, `[]` when there are none to read. */
  function DefsOf(d: TableDesc): (defs: seq<string>)
    requires CanCreate(d)
    ensures |d.columnNames| <= |defs|
  {
    if |d.columnNames| == 0 then [] else d.columnDefs.value
  }

  /**
   * The clauses of the create statement: one per column in column order, then the
   * primary-key clause as the last one exactly when there is a primary key.
   */
  function CreateClauses(d: TableDesc): (r: seq<string>)
    requires CanCreate(d)
    ensures |r| == |d.columnNames| + (if HasPrimaryKey(d) then 1 else 0)
    ensures forall i :: 0 <= i < |d.columnNames| ==>
      r[i] == ColumnClause(d.columnNames[i], d.columnDefs.value[i])
    ensures HasPrimaryKey(d) ==> r[|r| - 1] == PrimaryKeyClause(d.primaryKey.value)
  {
    ColumnClauses(d.columnNames, DefsOf(d))
      + (if HasPrimaryKey(d) then [PrimaryKeyClause(d.primaryKey.value)] else [])
  }

  /**
   * What `getTableCreateStatement` returns, or the exception it throws: a null
   * `columnDefs` is dereferenced at the first column, and a short one is indexed past
   * its end at the first column it lacks.
   */
  function TableCreateStatement(d: TableDesc): (r: Result<string>)
    ensures r.Success? <==> CanCreate(d)
    ensures r.Failure? && d.columnDefs.None? ==> r.error == NullPointerException
    ensures r.Failure? && d.columnDefs.Some? ==>
      r.error == ArrayIndexOutOfBoundsException(|d.columnDefs.value|)
    ensures r.Success? ==>
      r.value == "CREATE TABLE " + d.tableName + " ( " + Join(CreateClauses(d), ", ") + " )"
  {
    if !CanCreate(d) then
      if d.columnDefs.None? then Failure(NullPointerException)
      else Failure(ArrayIndexOutOfBoundsException(|d.columnDefs.value|))
    else
      var body := Join(CreateClauses(d), ", ");
      FormatTwo(CreateTableFormat, "CREATE TABLE ", " ( ", " )", d.tableName, body);
      Success(Format(CreateTableFormat, [d.tableName, body]))
  }

  /**
   * `getTableCreateStatement()`: fills one slot of `decl` per column, sets the last slot
   * to the primary-key clause when there is one, and formats the joined slots.
   */
  method GetTableCreateStatement(d: TableDesc) returns (r: Result<string>)
    ensures r == TableCreateStatement(d)
  {
    var n := |d.columnNames|;
    var decl := new string[n + (if HasPrimaryKey(d) then 1 else 0)];

    var i := 0;
    while i < n
      invariant 0 <= i <= n
      invariant i > 0 ==> d.columnDefs.Some? && i <= |d.columnDefs.value|
      invariant forall k :: 0 <= k < i ==>
        decl[k] == ColumnClause(d.columnNames[k], d.columnDefs.value[k])
    {
      if d.columnDefs.None? {
        return Failure(NullPointerException);
      }
      if i >= |d.columnDefs.value| {
        return Failure(ArrayIndexOutOfBoundsException(i));
      }
      decl[i] := ColumnClause(d.columnNames[i], d.columnDefs.value[i]);
      i := i + 1;
    }

    if HasPrimaryKey(d) {
      decl[decl.Length - 1] := PrimaryKeyClause(d.primaryKey.value);
    }

    assert decl[..] == CreateClauses(d);
    FormatTwo(CreateTableFormat, "CREATE TABLE ", " ( ", " )", d.tableName, Join(decl[..], ", "));
    return Success(Format(CreateTableFormat, [d.tableName, Join(decl[..], ", ")]));
  }

  /** `getTableDropStatement()`. */
  function TableDropStatement(d: TableDesc): (r: string)
    ensures r == "DROP TABLE " + d.tableName
  {
    FormatOne(DropTableFormat, "DROP TABLE ", "", d.tableName);
    assert "DROP TABLE " + d.tableName + "" == "DROP TABLE " + d.tableName;
    Format(DropTableFormat, [d.tableName])
  }

  /** `getTableExistsQuery()`. */
  function TableExistsQuery(d: TableDesc): (r: string)
    ensures r == "select 1 from " + d.tableName + " where 1 = 0"
  {
    FormatOne(ExistsQueryFormat, "select 1 from ", " where 1 = 0", d.tableName);
    Format(ExistsQueryFormat, [d.tableName])
  }
}
