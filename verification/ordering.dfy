/**
 * Python's `sorted(...)` on the two kinds of keys the merge script sorts:
 * region names (ascending, by code point) and years (descending, as ints).
 */
module Ordering {

  /** Python's `<` on `str`: code-point lexicographic order, a proper prefix first. */
  predicate StrLt(a: string, b: string)
    decreases |a|
  {
    if |a| == 0 then |b| > 0
    else if |b| == 0 then false
    else if a[0] != b[0] then a[0] < b[0]
    else StrLt(a[1..], b[1..])
  }

  lemma {:induction false} StrLtIrreflexive(a: string)
    ensures !StrLt(a, a)
  {
    if |a| > 0 {
      StrLtIrreflexive(a[1..]);
    }
  }

  lemma {:induction false} StrLtTransitive(a: string, b: string, c: string)
    requires StrLt(a, b) && StrLt(b, c)
    ensures StrLt(a, c)
  {
    if |a| > 0 && a[0] == b[0] && b[0] == c[0] {
      StrLtTransitive(a[1..], b[1..], c[1..]);
    }
  }

  lemma {:induction false} StrLtTotal(a: string, b: string)
    requires a != b
    ensures StrLt(a, b) || StrLt(b, a)
  {
    if |a| > 0 && |b| > 0 && a[0] == b[0] {
      assert a == [a[0]] + a[1..] && b == [b[0]] + b[1..];
      StrLtTotal(a[1..], b[1..]);
    }
  }

  ghost predicate StrictlyAscending(s: seq<string>) {
    forall i, j :: 0 <= i < j < |s| ==> StrLt(s[i], s[j])
  }

  ghost predicate StrictlyDescending(s: seq<int>) {
    forall i, j :: 0 <= i < j < |s| ==> s[i] > s[j]
  }

  /** Inserts `x` into a strictly ascending list unless it is already there. */
  function InsertAscending(x: string, s: seq<string>): (r: seq<string>)
    requires StrictlyAscending(s)
    ensures StrictlyAscending(r)
    ensures forall y :: y in r <==> y == x || y in s
  {
    if |s| == 0 then [x]
    else if x == s[0] then s
    else if StrLt(x, s[0]) then
      assert forall j :: 0 <= j < |s| ==> StrLt(x, s[j]) by {
        forall j | 0 < j < |s|
          ensures StrLt(x, s[j])
        {
          StrLtTransitive(x, s[0], s[j]);
        }
      }
      [x] + s
    else
      StrLtTotal(x, s[0]);
      var rest := InsertAscending(x, s[1..]);
      assert forall y :: y in rest ==> StrLt(s[0], y);
      [s[0]] + rest
  }

  /** `sorted(set(xs))` for strings: every element of `xs` once, strictly ascending. */
  function SortAscending(xs: seq<string>): (r: seq<string>)
    ensures StrictlyAscending(r)
    ensures forall y :: y in r <==> y in xs
  {
    if |xs| == 0 then [] else InsertAscending(xs[|xs| - 1], SortAscending(xs[..|xs| - 1]))
  }

  /** Inserts `x` into a strictly descending list unless it is already there. */
  function InsertDescending(x: int, s: seq<int>): (r: seq<int>)
    requires StrictlyDescending(s)
    ensures StrictlyDescending(r)
    ensures forall y :: y in r <==> y == x || y in s
    ensures |r| > 0 && r[0] == if |s| == 0 || x > s[0] then x else s[0]
  {
    if |s| == 0 then [x]
    else if x == s[0] then s
    else if x > s[0] then [x] + s
    else
      var rest := InsertDescending(x, s[1..]);
      [s[0]] + rest
  }

  /** `sorted(set(xs), reverse=True)` for integers: every element once, strictly descending. */
  function SortDescending(xs: seq<int>): (r: seq<int>)
    ensures StrictlyDescending(r)
    ensures forall y :: y in r <==> y in xs
  {
    if |xs| == 0 then [] else InsertDescending(xs[|xs| - 1], SortDescending(xs[..|xs| - 1]))
  }
}
