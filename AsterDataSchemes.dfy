/**
 * `AsterDataScheme`: a `JDBCScheme` reading through `ADInputFormat` with no output format
 * of its own, whose `cleanTuple` hook rewrites the String values of a result tuple in place.
 */
module AsterDataSchemes {
  import opened Base
  import opened Text
  import opened Tuples
  import opened Hadoop
  import opened Schemes

  /** `AsterDataScheme(columns, orderBy, updateBy)`: a JDBCScheme with the Aster Data input format and no output format. */
  function NewAsterDataScheme(columns: seq<string>, orderBy: Option<seq<string>>, updateBy: Option<seq<string>>)
    : (r: Result<JDBCScheme>)
    ensures r == NewJDBCScheme(Some(ADInputFormat), None, columns, orderBy, updateBy)
    ensures r.Success? ==> r.value.inputFormatClass == Some(ADInputFormat) && r.value.outputFormatClass.None?
    ensures r.Failure? <==> updateBy.Some? && |updateBy.value| != 0 && !ContainsAll(columns, updateBy.value)
  {
    NewJDBCScheme(Some(ADInputFormat), None, columns, orderBy, updateBy)
  }

  /** What the literal-query constructors hand to the base scheme. */
  datatype LiteralQuery = LiteralQuery(
    inputFormatClass: InputFormatClass,
    columns: seq<string>,
    selectQuery: string,
    countQuery: string,
    limit: int)

  /** The literal-query constructors: the Aster Data input format, and limit -1 when none is given. */
  function NewLiteralQueryScheme(columns: seq<string>, selectQuery: string, countQuery: string, limit: Option<int>)
    : (q: LiteralQuery)
    ensures q.inputFormatClass == ADInputFormat
    ensures q.columns == columns && q.selectQuery == selectQuery && q.countQuery == countQuery
    ensures q.limit == if limit.Some? then limit.value else -1
  {
    LiteralQuery(ADInputFormat, columns, selectQuery, countQuery, if limit.Some? then limit.value else -1)
  }

  /**
   * One element after `cleanTuple` as written: the second `set` overwrites the
   * quote-doubled string with one computed from the original value, and the replacement
   * text backslash-n inserts the letter 'n' for each newline.
   */
  function CleanValue(v: Value): Value
  {
    if v.Str? then Str(ReplaceAll(v.s, '\n', "\\n")) else v
  }

  /**
   * One element as the escaping was evidently meant: quotes doubled, then each newline
   * replaced by the two characters backslash and 'n'.
   */
  function EscapedValue(v: Value): Value
  {
    if v.Str? then Str(ReplaceAll(ReplaceAll(v.s, '\'', "''"), '\n', "\\\\n")) else v
  }

  /**
   * `cleanTuple(result)` as written: each String element is replaced, other elements are
   * kept, the tuple keeps its size and the same tuple is returned.
   */
  method CleanTuple(result: array<Value>) returns (r: array<Value>)
    modifies result
    ensures r == result
    ensures forall i :: 0 <= i < result.Length ==> result[i] == CleanValue(old(result[i]))
  {
    for i := 0 to result.Length
      invariant forall k :: 0 <= k < i ==> result[k] == CleanValue(old(result[k]))
      invariant forall k :: i <= k < result.Length ==> result[k] == old(result[k])
    {
      var value := result[i];
      if value.Str? {
        result[i] := Str(ReplaceAll(value.s, '\'', "''"));
        result[i] := Str(ReplaceAll(value.s, '\n', "\\n"));
      }
    }
    return result;
  }

  /** The corrected `cleanTuple`: the second replacement applies to the first one's result. */
  method CleanTupleEscaped(result: array<Value>) returns (r: array<Value>)
    modifies result
    ensures r == result
    ensures forall i :: 0 <= i < result.Length ==> result[i] == EscapedValue(old(result[i]))
  {
    for i := 0 to result.Length
      invariant forall k :: 0 <= k < i ==> result[k] == EscapedValue(old(result[k]))
      invariant forall k :: i <= k < result.Length ==> result[k] == old(result[k])
    {
      var value := result[i];
      if value.Str? {
        var quoted := ReplaceAll(value.s, '\'', "''");
        result[i] := Str(ReplaceAll(quoted, '\n', "\\\\n"));
      }
    }
    return result;
  }

  /**
   * As written, a String keeps its length, every newline becomes the letter 'n', every
   * other character stays, and quotes are not doubled.
   */
  lemma CleanValueAsWritten(s: string)
    ensures var r := CleanValue(Str(s)).s;
      && |r| == |s|
      && (forall i :: 0 <= i < |s| ==> r[i] == if s[i] == '\n' then 'n' else s[i])
      && Count(r, '\'') == Count(s, '\'')
      && Count(r, '\n') == 0
  {
    assert ReplacementText("\\n") == "n";
    ReplaceAllOneChar(s, '\n', "\\n");
    ReplaceAllCount(s, '\n', "\\n", '\'');
    ReplaceAllCount(s, '\n', "\\n", '\n');
  }

  /** Elements that are not Strings are left as they are, by both versions. */
  lemma NonStringsUntouched(v: Value)
    requires !v.Str?
    ensures CleanValue(v) == v && EscapedValue(v) == v
  {
  }

  /** The two replacement texts of the corrected escaping, with Java's backslash rule applied. */
  lemma EscapeTexts()
    ensures ReplacementText("''") == "''"
    ensures ReplacementText("\\\\n") == "\\n"
    ensures Count("''", '\'') == 2 && Count("''", '\n') == 0 && Count("''", '\\') == 0
    ensures Count("\\n", '\'') == 0 && Count("\\n", '\n') == 0 && Count("\\n", '\\') == 1
  {
  }

  /** The corrected escaping doubles every quote. */
  lemma EscapedQuotes(s: string)
    ensures Count(EscapedValue(Str(s)).s, '\'') == 2 * Count(s, '\'')
  {
    EscapeTexts();
    var quoted := ReplaceAll(s, '\'', "''");
    ReplaceAllCount(s, '\'', "''", '\'');
    ReplaceAllCount(quoted, '\n', "\\\\n", '\'');
  }

  /** The corrected escaping leaves no line break. */
  lemma EscapedNewlines(s: string)
    ensures Count(EscapedValue(Str(s)).s, '\n') == 0
  {
    EscapeTexts();
    var quoted := ReplaceAll(s, '\'', "''");
    ReplaceAllCount(quoted, '\n', "\\\\n", '\n');
  }

  /** The corrected escaping adds exactly one backslash per line break. */
  lemma EscapedBackslashes(s: string)
    ensures Count(EscapedValue(Str(s)).s, '\\') == Count(s, '\\') + Count(s, '\n')
  {
    EscapeTexts();
    var quoted := ReplaceAll(s, '\'', "''");
    ReplaceAllCount(s, '\'', "''", '\n');
    ReplaceAllCount(s, '\'', "''", '\\');
    ReplaceAllCount(quoted, '\n', "\\\\n", '\\');
  }

  /** A lone quote comes back undoubled from `cleanTuple` as written. */
  lemma QuoteDoublingLost()
    ensures CleanValue(Str("'")) == Str("'")
    ensures EscapedValue(Str("'")) == Str("''")
  {
    assert ReplacementText("''") == "''";
    assert ReplaceAll("'", '\'', "''") == "''";
    assert ReplaceAll("''", '\n', "\\\\n") == "''";
  }

  /** A line break comes back as the letter 'n' from `cleanTuple` as written. */
  lemma NewlineBecomesLetterN()
    ensures CleanValue(Str("a\nb")) == Str("anb")
    ensures EscapedValue(Str("a\nb")) == Str("a\\nb")
  {
    assert ReplacementText("\\n") == "n";
    assert ReplacementText("\\\\n") == "\\n";
    assert ReplaceAll("a\nb", '\'', "''") == "a\nb";
    assert ReplaceAll("b", '\n', "\\n") == "b";
    assert ReplaceAll("a\nb", '\n', "\\n") == "anb";
    assert ReplaceAll("b", '\n', "\\\\n") == "b";
    assert ReplaceAll("a\nb", '\n', "\\\\n") == "a\\nb";
  }
}
