/**
 * `JDBCScheme`: which columns a tap reads and writes, in which order, and whether each
 * outgoing record becomes an INSERT or an UPDATE keyed by the `updateBy` columns.
 */
module Schemes {
  import opened Base
  import opened Text
  import opened Tuples
  import opened Hadoop
  import opened Records

  /** The fields the five-argument constructor sets only when `updateBy` is non-empty. */
  datatype UpdateConfig = UpdateConfig(
    updateBy: seq<string>,
    updateValueFields: seq<string>,
    updateIfTuple: Tuple)

  /**
   * A scheme. Its fields are assigned once, by the constructor; `columnFields`, the
   * source fields and the sink fields are all `columns`.
   */
  datatype JDBCScheme = JDBCScheme(
    inputFormatClass: Option<InputFormatClass>,
    outputFormatClass: Option<OutputFormatClass>,
    columns: seq<string>,
    orderBy: Option<seq<string>>,
    update: Option<UpdateConfig>)
  {
    /** The value of the `updateBy` field: null unless update columns were configured. */
    function UpdateBy(): Option<seq<string>>
    {
      if update.None? then None else Some(update.value.updateBy)
    }

    /** `getSourceFields()`. */
    function SourceFields(): seq<string> { columns }

    /** `getSinkFields()`. */
    function SinkFields(): seq<string> { columns }

    /** What the constructor guarantees about the derived fields. */
    predicate Valid()
    {
      update.Some? ==>
        && |update.value.updateBy| != 0
        && ContainsAll(columns, update.value.updateBy)
        && update.value.updateValueFields == UpdateValueFields(columns, update.value.updateBy)
        && update.value.updateIfTuple == NullTuple(|update.value.updateBy|)
    }
  }

  /** `columnFields.subtract(updateByFields).append(updateByFields)`. */
  function UpdateValueFields(columns: seq<string>, updateBy: seq<string>): seq<string>
  {
    Subtract(columns, updateBy) + updateBy
  }

  /**
   * The value columns are the columns with the update columns moved to the end, each
   * keeping its relative order; for distinct names that is a permutation of the columns.
   */
  lemma UpdateValueFieldsPermutation(columns: seq<string>, updateBy: seq<string>)
    requires Unique(columns) && Unique(updateBy) && ContainsAll(columns, updateBy)
    ensures multiset(UpdateValueFields(columns, updateBy)) == multiset(columns)
    ensures |UpdateValueFields(columns, updateBy)| == |columns|
    ensures UpdateValueFields(columns, updateBy)[|columns| - |updateBy|..] == updateBy
  {
    var rest := Subtract(columns, updateBy);
    var r := rest + updateBy;
    forall x
      ensures multiset(r)[x] == multiset(columns)[x]
    {
      MultisetOfUnique(rest, x);
      MultisetOfUnique(updateBy, x);
      MultisetOfUnique(columns, x);
    }
    assert multiset(r) == multiset(columns);
    assert |r| == |columns| by {
      calc {
        |r|;
        |multiset(r)|;
        |multiset(columns)|;
        |columns|;
      }
    }
  }

  /**
   * The five-argument constructor. A non-empty `updateBy` naming a column that is not in
   * `columns` is rejected; otherwise the update fields are derived from it, and a null
   * or empty `updateBy` leaves them all null.
   */
  function NewJDBCScheme(
    inputFormatClass: Option<InputFormatClass>, outputFormatClass: Option<OutputFormatClass>,
    columns: seq<string>, orderBy: Option<seq<string>>, updateBy: Option<seq<string>>): (r: Result<JDBCScheme>)
    ensures r.Failure? <==>
      updateBy.Some? && |updateBy.value| != 0 && !ContainsAll(columns, updateBy.value)
    ensures r.Failure? ==>
      r.error == IllegalArgumentException("columns must contain updateBy column names")
    ensures r.Success? ==> r.value.Valid()
    ensures r.Success? ==>
      && r.value.columns == columns && r.value.orderBy == orderBy
      && r.value.inputFormatClass == inputFormatClass
      && r.value.outputFormatClass == outputFormatClass
    ensures r.Success? ==>
      r.value.UpdateBy() == (if updateBy.Some? && |updateBy.value| != 0 then updateBy else None)
  {
    if updateBy.Some? && |updateBy.value| != 0 then
      if !ContainsAll(columns, updateBy.value) then
        Failure(IllegalArgumentException("columns must contain updateBy column names"))
      else
        var update := UpdateConfig(updateBy.value, UpdateValueFields(columns, updateBy.value),
                                   NullTuple(|updateBy.value|));
        Success(JDBCScheme(inputFormatClass, outputFormatClass, columns, orderBy, Some(update)))
    else
      Success(JDBCScheme(inputFormatClass, outputFormatClass, columns, orderBy, None))
  }

  /**
   * The one-, two- and three-argument constructors: no input or output format of their
   * own, and without `updateBy` they cannot fail.
   */
  function NewDefaultJDBCScheme(columns: seq<string>, orderBy: Option<seq<string>>, updateBy: Option<seq<string>>)
    : (r: Result<JDBCScheme>)
    ensures r == NewJDBCScheme(None, None, columns, orderBy, updateBy)
    ensures r.Success? ==> r.value.inputFormatClass.None? && r.value.outputFormatClass.None?
    ensures updateBy.None? ==> r.Success? && r.value.UpdateBy().None?
  {
    NewJDBCScheme(None, None, columns, orderBy, updateBy)
  }

  /** The kind of write a record becomes. */
  datatype WriteKind = Insert | Update

  /** One `outputCollector.collect(key, value)`; `value` is None for null, else the same record as `key`. */
  datatype Collected = Collected(key: Tuple, value: Option<Tuple>)

  /** The entries `sink` is handed: tuples over (at least) the scheme's sink fields. */
  predicate Sinkable(s: JDBCScheme, e: TupleEntry)
  {
    s.Valid() && e.Valid() && ContainsAll(e.fields, s.columns)
  }

  /** The update columns are among the columns, and so are the value columns. */
  lemma UpdateFieldsSelectable(s: JDBCScheme, e: TupleEntry)
    requires Sinkable(s, e) && s.update.Some?
    ensures ContainsAll(e.fields, s.update.value.updateBy)
    ensures ContainsAll(e.fields, s.update.value.updateValueFields)
  {
  }

  /**
   * The test in `sink`: without update columns every record is an insert; with them, a
   * record is an insert when its key values equal the all-null sentinel, else an update.
   */
  function Classify(s: JDBCScheme, e: TupleEntry): WriteKind
    requires Sinkable(s, e)
  {
    if s.update.None? then Insert
    else
      UpdateFieldsSelectable(s, e);
      if SelectTuple(e, s.update.value.updateBy) == s.update.value.updateIfTuple then Insert else Update
  }

  /**
   * A record is an update exactly when update columns are configured and at least one of
   * them is non-null in the record; a partly-null key is therefore an update.
   */
  lemma ClassifyUpdateIff(s: JDBCScheme, e: TupleEntry)
    requires Sinkable(s, e)
    ensures Classify(s, e) == Update <==>
      s.update.Some? && exists k :: k in s.update.value.updateBy && Get(e, k) != Null
  {
    if s.update.Some? {
      var keys := s.update.value.updateBy;
      UpdateFieldsSelectable(s, e);
      var key := SelectTuple(e, keys);
      NullTupleIff(key);
      if exists k :: k in keys && Get(e, k) != Null {
        var k :| k in keys && Get(e, k) != Null;
        var i :| 0 <= i < |keys| && keys[i] == k;
        assert key[i] != Null;
      }
    }
  }

  /** What one `sink` call collects. */
  function SinkRecord(s: JDBCScheme, e: TupleEntry): (c: Collected)
    requires Sinkable(s, e)
    ensures c.value.None? <==> Classify(s, e) == Insert
    ensures c.value.Some? ==> c.value.value == c.key
    ensures s.update.None? ==> c.key == SelectTuple(e, s.SinkFields())
    ensures s.update.Some? ==> c.key == SelectTuple(e, s.update.value.updateValueFields)
  {
    if s.update.Some? then
      UpdateFieldsSelectable(s, e);
      var allValues := SelectTuple(e, s.update.value.updateValueFields);
      if Classify(s, e) == Insert then Collected(allValues, None) else Collected(allValues, Some(allValues))
    else
      Collected(SelectTuple(e, s.SinkFields()), None)
  }

  /** The collector `sink` writes to. */
  class OutputCollector {
    var collected: seq<Collected>

    constructor ()
      ensures collected == []
    {
      collected := [];
    }

    /** `collect(key, value)`. */
    method Collect(key: Tuple, value: Option<Tuple>)
      modifies this
      ensures collected == old(collected) + [Collected(key, value)]
    {
      collected := collected + [Collected(key, value)];
    }
  }

  /** `sink(tupleEntry, outputCollector)`: exactly one `collect` per call. */
  method Sink(s: JDBCScheme, e: TupleEntry, out: OutputCollector)
    requires Sinkable(s, e)
    modifies out
    ensures out.collected == old(out.collected) + [SinkRecord(s, e)]
  {
    if s.update.Some? {
      UpdateFieldsSelectable(s, e);
      var allValues := SelectTuple(e, s.update.value.updateValueFields);
      var updateValues := SelectTuple(e, s.update.value.updateBy);
      if updateValues == s.update.value.updateIfTuple {
        out.Collect(allValues, None);
      } else {
        out.Collect(allValues, Some(allValues));
      }
      return;
    }
    out.Collect(SelectTuple(e, s.SinkFields()), None);
  }

  /** `source(key, value)`: the tuple the record read. */
  method Source(value: TupleRecord) returns (t: Option<Tuple>)
    ensures t == value.tuple
  {
    t := value.GetTuple();
  }

  /** The `orderBy` names joined by ", ", or null when `orderBy` is null. */
  function JoinedOrderBy(s: JDBCScheme): (r: Option<string>)
    ensures r.None? <==> s.orderBy.None?
    ensures s.orderBy.Some? && |s.orderBy.value| == 1 ==> r == Some(s.orderBy.value[0])
  {
    if s.orderBy.Some? then Some(Join(s.orderBy.value, ", ")) else None
  }

  /**
   * `sourceInit(tap, conf)`: the table, no conditions, the joined order and the columns go
   * to `DBInputFormat.setInput`; the input format is set only when the scheme names one.
   */
  method SourceInit(s: JDBCScheme, tableName: string, conf: JobConf)
    modifies conf`input, conf`inputFormat
    ensures conf.input == Some(InputSetup(tableName, None, JoinedOrderBy(s), s.columns))
    ensures conf.inputFormat == if s.inputFormatClass.Some? then s.inputFormatClass else old(conf.inputFormat)
  {
    conf.input := Some(InputSetup(tableName, None, JoinedOrderBy(s), s.columns));
    if s.inputFormatClass.Some? {
      conf.inputFormat := s.inputFormatClass;
    }
  }

  /**
   * `sinkInit(tap, conf)`: the table, the columns and the `updateBy` field, unchanged, go to
   * `DBOutputFormat.setOutput`; the output format is set only when the scheme names one.
   */
  method SinkInit(s: JDBCScheme, tableName: string, conf: JobConf)
    modifies conf`output, conf`outputFormat
    ensures conf.output == Some(OutputSetup(DBOutputFormat, tableName, s.columns, s.UpdateBy()))
    ensures conf.outputFormat == if s.outputFormatClass.Some? then s.outputFormatClass else old(conf.outputFormat)
  {
    conf.output := Some(OutputSetup(DBOutputFormat, tableName, s.columns, s.UpdateBy()));
    if s.outputFormatClass.Some? {
      conf.outputFormat := s.outputFormatClass;
    }
  }

  /**
   * The update pass of the repository's end-to-end test: columns num, lower, upper keyed
   * by num and lower. The value columns put upper first, and a record whose num is set is
   * an update even when lower is null.
   */
  lemma UpdateScenario(e: TupleEntry)
    requires e.Valid() && ContainsAll(e.fields, ["num", "lower", "upper"])
    requires Get(e, "num") != Null
    ensures NewJDBCScheme(None, None, ["num", "lower", "upper"], None, Some(["num", "lower"])).Success?
    ensures var s := NewJDBCScheme(None, None, ["num", "lower", "upper"], None, Some(["num", "lower"])).value;
      && s.update.value.updateValueFields == ["upper", "num", "lower"]
      && Classify(s, e) == Update
  {
    var s := NewJDBCScheme(None, None, ["num", "lower", "upper"], None, Some(["num", "lower"])).value;
    assert Subtract(["num", "lower", "upper"], ["num", "lower"]) == ["upper"] by {
      assert ["num", "lower", "upper"][1..] == ["lower", "upper"];
      assert ["lower", "upper"][1..] == ["upper"];
      assert ["upper"][1..] == [];
    }
    ClassifyUpdateIff(s, e);
  }
}
