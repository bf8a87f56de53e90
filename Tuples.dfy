/**
 * The pipeline's records as the connector sees them: a tuple is a row of values, a field
 * list is a sequence of names, and a tuple entry pairs the two. Only the operations the
 * connector calls are modelled (contains, subtract, append, selectTuple, Tuple.size).
 */
module Tuples {

  /** A tuple element: SQL NULL, a Java String, or another comparable value. */
  datatype Value = Null | Str(s: string) | Int(i: int)

  type Tuple = seq<Value>

  /** A tuple with its field names; the engine keeps the two the same width. */
  datatype TupleEntry = TupleEntry(fields: seq<string>, tuple: Tuple)
  {
    predicate Valid() { |fields| == |tuple| }
  }

  /** No name occurs twice. */
  predicate Unique(names: seq<string>)
  {
    forall i, j :: 0 <= i < j < |names| ==> names[i] != names[j]
  }

  /** `Fields.contains(Fields)`: every name of `names` is one of `fields`. */
  predicate ContainsAll(fields: seq<string>, names: seq<string>)
  {
    forall n :: n in names ==> n in fields
  }

  /** `Fields.subtract`: the fields not named in `names`, in their original order. */
  function Subtract(fields: seq<string>, names: seq<string>): (r: seq<string>)
    ensures forall n :: n in r <==> n in fields && n !in names
    ensures Unique(fields) ==> Unique(r)
  {
    if fields == [] then []
    else if fields[0] in names then Subtract(fields[1..], names)
    else [fields[0]] + Subtract(fields[1..], names)
  }

  /** Position of the first field called `name`. */
  function IndexOf(fields: seq<string>, name: string): (i: nat)
    requires name in fields
    ensures i < |fields| && fields[i] == name
    ensures forall j :: 0 <= j < i ==> fields[j] != name
  {
    if fields[0] == name then 0 else 1 + IndexOf(fields[1..], name)
  }

  /** The value the entry holds for field `name`. */
  function Get(e: TupleEntry, name: string): Value
    requires e.Valid() && name in e.fields
  {
    e.tuple[IndexOf(e.fields, name)]
  }

  /** `TupleEntry.selectTuple(selector)`: the entry's values for the selected names, in selector order. */
  function SelectTuple(e: TupleEntry, selector: seq<string>): (r: Tuple)
    requires e.Valid() && ContainsAll(e.fields, selector)
    ensures |r| == |selector|
    ensures forall i :: 0 <= i < |selector| ==> r[i] == Get(e, selector[i])
  {
    if selector == [] then [] else [Get(e, selector[0])] + SelectTuple(e, selector[1..])
  }

  /** `Tuple.size(n)`: a tuple of `n` nulls. */
  function NullTuple(n: nat): (r: Tuple)
    ensures |r| == n
    ensures forall i :: 0 <= i < n ==> r[i] == Null
  {
    if n == 0 then [] else [Null] + NullTuple(n - 1)
  }

  /** A tuple equals the all-null tuple of its width exactly when every element is null. */
  lemma NullTupleIff(t: Tuple)
    ensures t == NullTuple(|t|) <==> forall i :: 0 <= i < |t| ==> t[i] == Null
  {
    if forall i :: 0 <= i < |t| ==> t[i] == Null {
      assert t == NullTuple(|t|);
    }
  }

  /** In a sequence without repeats every member occurs exactly once. */
  lemma {:induction false} MultisetOfUnique(s: seq<string>, x: string)
    requires Unique(s)
    ensures multiset(s)[x] == if x in s then 1 else 0
  {
    if s != [] {
      assert s == [s[0]] + s[1..];
      assert Unique(s[1..]);
      MultisetOfUnique(s[1..], x);
      assert s[0] !in s[1..];
    }
  }
}
