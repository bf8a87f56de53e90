/**
 * The string operations the connector uses: `Util.join`, `String.format` with `%s`
 * directives only, and `String.replaceAll` with a one-character pattern.
 */
module Text {

  /** Number of occurrences of `c` in `s`. */
  function Count(s: string, c: char): nat
  {
    if s == [] then 0 else (if s[0] == c then 1 else 0) + Count(s[1..], c)
  }

  /** `Util.join(parts, delim)`: the parts in order, with `delim` between neighbours. */
  function Join(parts: seq<string>, delim: string): string
  {
    if |parts| == 0 then ""
    else if |parts| == 1 then parts[0]
    else parts[0] + delim + Join(parts[1..], delim)
  }

  /** Appending one more part adds exactly one delimiter and that part at the end. */
  lemma {:induction false} JoinSnoc(parts: seq<string>, last: string, delim: string)
    requires |parts| > 0
    ensures Join(parts + [last], delim) == Join(parts, delim) + delim + last
  {
    if |parts| == 1 {
      assert parts + [last] == [parts[0], last];
      assert ([parts[0], last])[1..] == [last];
    } else {
      assert (parts + [last])[1..] == parts[1..] + [last];
      JoinSnoc(parts[1..], last, delim);
    }
  }

  /** Removing a prefix gives back the rest. */
  lemma DropPrefix(p: string, x: string)
    ensures (p + x)[|p|..] == x
  {
  }

  /** Regrouping a five-part concatenation after its first part. */
  lemma Regroup(p: string, a: string, m: string, b: string, q: string)
    ensures p + a + m + b + q == p + (a + m + b + q)
  {
  }

  /** Replacing a middle part by its three pieces, regrouped left to right. */
  lemma Splice(x: string, j: string, c: string, k: string, q: string)
    ensures x + (j + c + k) + q == x + j + c + k + q
  {
  }

  /** Whether `fmt` starts with the directive `%s`. */
  predicate AtSlot(fmt: string)
  {
    |fmt| >= 2 && fmt[0] == '%' && fmt[1] == 's'
  }

  /** Number of `%s` directives `Format` finds in `fmt`. */
  function Slots(fmt: string): nat
  {
    if fmt == [] then 0
    else if AtSlot(fmt) then 1 + Slots(fmt[2..])
    else Slots(fmt[1..])
  }

  /**
   * `String.format(fmt, args)` where every directive is `%s`: the k-th directive is replaced
   * by `args[k]`, other text is copied. Java raises MissingFormatArgumentException when
   * there are fewer arguments than directives; callers here never do that.
   */
  function Format(fmt: string, args: seq<string>): string
    requires Slots(fmt) <= |args|
  {
    if fmt == [] then ""
    else if AtSlot(fmt) then args[0] + Format(fmt[2..], args[1..])
    else [fmt[0]] + Format(fmt[1..], args)
  }

  /** A literal prefix without `%` is copied and consumes no argument. */
  lemma {:induction false} FormatLiteral(lit: string, rest: string, args: seq<string>)
    requires '%' !in lit
    requires Slots(rest) <= |args|
    ensures Slots(lit + rest) == Slots(rest)
    ensures Format(lit + rest, args) == lit + Format(rest, args)
  {
    if lit != [] {
      assert (lit + rest)[1..] == lit[1..] + rest;
      assert lit[0] in lit;
      FormatLiteral(lit[1..], rest, args);
      assert lit == [lit[0]] + lit[1..];
    } else {
      assert lit + rest == rest;
    }
  }

  /** A leading `%s` is replaced by the first argument. */
  lemma FormatSlot(rest: string, a: string, args: seq<string>)
    requires Slots(rest) <= |args|
    ensures Slots("%s" + rest) == 1 + Slots(rest)
    ensures Format("%s" + rest, [a] + args) == a + Format(rest, args)
  {
    assert ("%s" + rest)[2..] == rest;
    assert ([a] + args)[1..] == args;
  }

  /** A literal prefix followed by `%s`: the prefix is copied, the directive takes the first argument. */
  lemma FormatPrefixSlot(pre: string, rest: string, a: string, args: seq<string>)
    requires '%' !in pre
    requires Slots(rest) <= |args|
    ensures Slots(pre + "%s" + rest) == 1 + Slots(rest)
    ensures Format(pre + "%s" + rest, [a] + args) == pre + a + Format(rest, args)
  {
    FormatSlot(rest, a, args);
    FormatLiteral(pre, "%s" + rest, [a] + args);
    assert pre + "%s" + rest == pre + ("%s" + rest);
  }

  /** The template `pre %s post` with one argument. */
  lemma FormatOne(fmt: string, pre: string, post: string, a: string)
    requires fmt == pre + "%s" + post
    requires '%' !in pre && '%' !in post
    ensures Slots(fmt) == 1
    ensures Format(fmt, [a]) == pre + a + post
  {
    FormatLiteral(post, "", []);
    assert post + "" == post;
    FormatPrefixSlot(pre, post, a, []);
    assert [a] + [] == [a];
  }

  /** The template `pre %s mid %s post` with two arguments. */
  lemma FormatTwo(fmt: string, pre: string, mid: string, post: string, a: string, b: string)
    requires fmt == pre + "%s" + mid + "%s" + post
    requires '%' !in pre && '%' !in mid && '%' !in post
    ensures Slots(fmt) == 2
    ensures Format(fmt, [a, b]) == pre + a + mid + b + post
  {
    var rest := mid + "%s" + post;
    FormatOne(rest, mid, post, b);
    FormatPrefixSlot(pre, rest, a, [b]);
    assert [a] + [b] == [a, b];
    assert fmt == pre + "%s" + rest;
    assert pre + a + (mid + b + post) == pre + a + mid + b + post;
  }

  /**
   * The text `Matcher.appendReplacement` inserts for a replacement string: a backslash
   * makes the next character literal. (`$` group references are not modelled; none of
   * the connector's replacement strings contains `$`.)
   */
  function ReplacementText(rep: string): string
  {
    if rep == [] then ""
    else if rep[0] == '\\' && |rep| >= 2 then [rep[1]] + ReplacementText(rep[2..])
    else [rep[0]] + ReplacementText(rep[1..])
  }

  /** `s.replaceAll(p, rep)` for a pattern `p` that is one character matching itself. */
  function ReplaceAll(s: string, p: char, rep: string): string
  {
    if s == [] then ""
    else (if s[0] == p then ReplacementText(rep) else [s[0]]) + ReplaceAll(s[1..], p, rep)
  }

  /** Replacing by one character maps the string character by character. */
  lemma {:induction false} ReplaceAllOneChar(s: string, p: char, rep: string)
    requires |ReplacementText(rep)| == 1
    ensures |ReplaceAll(s, p, rep)| == |s|
    ensures forall i :: 0 <= i < |s| ==>
      ReplaceAll(s, p, rep)[i] == if s[i] == p then ReplacementText(rep)[0] else s[i]
  {
    if s != [] {
      ReplaceAllOneChar(s[1..], p, rep);
    }
  }

  /** How many `d` remain after replacing every `p` by the replacement text. */
  lemma {:induction false} ReplaceAllCount(s: string, p: char, rep: string, d: char)
    ensures Count(ReplaceAll(s, p, rep), d)
         == (if p == d then 0 else Count(s, d)) + Count(s, p) * Count(ReplacementText(rep), d)
  {
    if s != [] {
      var k := Count(ReplacementText(rep), d);
      var head := if s[0] == p then ReplacementText(rep) else [s[0]];
      var tail := ReplaceAll(s[1..], p, rep);
      ReplaceAllCount(s[1..], p, rep, d);
      assert ReplaceAll(s, p, rep) == head + tail;
      CountConcat(head, tail, d);
      if s[0] == p {
        MulSucc(Count(s[1..], p), k);
      } else {
        assert Count(head, d) == if s[0] == d then 1 else 0 by {
          assert [s[0]][1..] == [];
        }
      }
    }
  }

  /** One more factor of `n + 1` adds `k`. */
  lemma MulSucc(n: nat, k: nat)
    ensures (n + 1) * k == k + n * k
  {
  }

  /** Occurrences add up over a concatenation. */
  lemma {:induction false} CountConcat(a: string, b: string, c: char)
    ensures Count(a + b, c) == Count(a, c) + Count(b, c)
  {
    if a != [] {
      assert (a + b)[1..] == a[1..] + b;
      CountConcat(a[1..], b, c);
    } else {
      assert a + b == b;
    }
  }
}
