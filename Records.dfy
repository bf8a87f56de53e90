/**
 * `TupleRecord`: carries one tuple between the pipeline and JDBC, binding it to the
 * parameters of a prepared statement and rebuilding it from a result row.
 */
module Records {
  import opened Base
  import opened Tuples

  /** A prepared statement's parameters, by 1-based index. */
  class PreparedStatement {
    var parameters: map<nat, Value>

    constructor ()
      ensures parameters == map[]
    {
      parameters := map[];
    }

    /** `setObject(index, value)`. */
    method SetObject(index: nat, value: Value)
      modifies this
      ensures parameters == old(parameters)[index := value]
    {
      parameters := parameters[index := value];
    }
  }

  /**
   * The current row of a result set: `getObject(i)` is `row[i - 1]` and
   * `getMetaData().getColumnCount()` is `|row|`.
   */
  datatype ResultSet = ResultSet(row: seq<Value>)

  /** The parameters that binding tuple `t` sets: index `i + 1` holds element `i`. */
  function Bindings(t: Tuple): (m: map<nat, Value>)
    ensures forall i :: i in m ==> 1 <= i <= |t|
    ensures forall i :: 1 <= i <= |t| ==> i in m && m[i] == t[i - 1]
  {
    if t == [] then map[] else Bindings(t[..|t| - 1])[|t| := t[|t| - 1]]
  }

  /** The row a database returns for `n` columns stored from parameters `1..n`. */
  function RowOf(parameters: map<nat, Value>, n: nat): (row: seq<Value>)
    requires forall i :: 1 <= i <= n ==> i in parameters
    ensures |row| == n
    ensures forall i :: 0 <= i < n ==> row[i] == parameters[i + 1]
  {
    seq(n, i requires 0 <= i < n => parameters[i + 1])
  }

  /** Binding one more element extends the bound parameters by exactly that element. */
  lemma BindingsStep(base: map<nat, Value>, t: Tuple, i: nat)
    requires i < |t|
    ensures (base + Bindings(t[..i]))[i + 1 := t[i]] == base + Bindings(t[..i + 1])
  {
    assert t[..i + 1][..i] == t[..i];
    assert Bindings(t[..i + 1]) == Bindings(t[..i])[i + 1 := t[i]];
  }

  /** Reading back the parameters a tuple was bound to gives the tuple. */
  lemma BindingsRoundTrip(t: Tuple, parameters: map<nat, Value>)
    requires forall i :: 1 <= i <= |t| ==> i in parameters && parameters[i] == t[i - 1]
    ensures RowOf(parameters, |t|) == t
  {
  }

  class TupleRecord {
    var tuple: Option<Tuple>

    /** `TupleRecord()`: no tuple yet. */
    constructor Empty()
      ensures tuple == None
    {
      tuple := None;
    }

    /** `TupleRecord(tuple)`. */
    constructor (tuple: Option<Tuple>)
      ensures this.tuple == tuple
    {
      this.tuple := tuple;
    }

    /** `setTuple(tuple)`. */
    method SetTuple(tuple: Option<Tuple>)
      modifies this
      ensures this.tuple == tuple
    {
      this.tuple := tuple;
    }

    /** `getTuple()`: what the constructor or the last `setTuple` stored. */
    method GetTuple() returns (t: Option<Tuple>)
      ensures t == tuple
    {
      t := tuple;
    }

    /**
     * `write(statement)`: binds parameter `i + 1` to element `i` for every element and
     * touches no other parameter. A null tuple throws before anything is bound.
     */
    method Write(statement: PreparedStatement) returns (o: Outcome)
      modifies statement
      ensures tuple.None? ==> o == Fail(NullPointerException) && statement.parameters == old(statement.parameters)
      ensures tuple.Some? ==> o == Pass && statement.parameters == old(statement.parameters) + Bindings(tuple.value)
    {
      if tuple.None? {
        return Fail(NullPointerException);
      }
      var t := tuple.value;
      for i := 0 to |t|
        invariant statement.parameters == old(statement.parameters) + Bindings(t[..i])
      {
        BindingsStep(old(statement.parameters), t, i);
        statement.SetObject(i + 1, t[i]);
      }
      assert t[..|t|] == t;
      return Pass;
    }

    /**
     * `readFields(resultSet)`: discards the old tuple and rebuilds it from the row,
     * element `i` from column `i + 1`.
     */
    method ReadFields(resultSet: ResultSet)
      modifies this
      ensures tuple == Some(resultSet.row)
    {
      tuple := Some([]);
      for i := 0 to |resultSet.row|
        invariant tuple == Some(resultSet.row[..i])
      {
        tuple := Some(tuple.value + [resultSet.row[i]]);
        assert resultSet.row[..i + 1] == resultSet.row[..i] + [resultSet.row[i]];
      }
      assert resultSet.row[..|resultSet.row|] == resultSet.row;
    }
  }

  /**
   * Write a tuple through one record, let the database return the bound values as a
   * row, and read that row into a second record: the second record holds the tuple.
   */
  method WriteThenRead(t: Tuple) returns (back: Option<Tuple>)
    ensures back == Some(t)
  {
    var sent := new TupleRecord(Some(t));
    var statement := new PreparedStatement();
    var o := sent.Write(statement);
    BindingsRoundTrip(t, statement.parameters);
    var row := ResultSet(RowOf(statement.parameters, |t|));
    var received := new TupleRecord.Empty();
    received.ReadFields(row);
    back := received.GetTuple();
  }
}
