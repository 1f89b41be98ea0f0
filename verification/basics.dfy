/**
 * Shared vocabulary of the dashboard model: JavaScript's "maybe a value"
 * (`null`/`undefined` versus a value), the `x || 0` idiom, sums, and the
 * first-appearance de-duplication `Array.from(new Set(xs))`.
 */
module Basics {

  /** `None` stands for JavaScript `null`/`undefined` (or Python `None`). */
  datatype Option<+T> = None | Some(value: T) {
    function GetOr(default: T): T {
      match this
      case Some(v) => v
      case None => default
    }
  }

  /** JavaScript `x || 0` on a number that may be missing (NaN is not modelled). */
  function OrZero(x: Option<real>): real {
    x.GetOr(0.0)
  }

  /** Left-to-right sum, as `reduce((sum, x) => sum + x, 0)`. */
  function Sum(xs: seq<real>): real {
    if |xs| == 0 then 0.0 else Sum(xs[..|xs| - 1]) + xs[|xs| - 1]
  }

  ghost predicate Distinct<T>(s: seq<T>) {
    forall i, j :: 0 <= i < j < |s| ==> s[i] != s[j]
  }

  /** Position of the first occurrence of `x` in `s`. */
  function FirstIndex<T(==)>(s: seq<T>, x: T): (k: nat)
    requires x in s
    ensures k < |s| && s[k] == x
    ensures forall j :: 0 <= j < k ==> s[j] != x
  {
    if s[0] == x then 0 else 1 + FirstIndex(s[1..], x)
  }

  /** Within a prefix, first occurrences are where they are in the whole sequence. */
  lemma FirstIndexInPrefix<T>(s: seq<T>, k: nat)
    requires k <= |s|
    ensures forall x :: x in s[..k] ==> FirstIndex(s, x) == FirstIndex(s[..k], x)
  {
    forall x | x in s[..k]
      ensures FirstIndex(s, x) == FirstIndex(s[..k], x)
    {
      var a, b := FirstIndex(s, x), FirstIndex(s[..k], x);
      assert s[b] == x;
      assert a <= b;
      assert s[..k][a] == x;
    }
  }

  /**
   * `r` lists the distinct elements of `s`, each once, ordered by where it
   * first occurs in `s`.
   */
  ghost predicate FirstAppearanceOrder<T>(s: seq<T>, r: seq<T>) {
    && (forall i :: 0 <= i < |r| ==> r[i] in s)
    && (forall i :: 0 <= i < |s| ==> s[i] in r)
    && Distinct(r)
    && (forall i, j :: 0 <= i < j < |r| ==> FirstIndex(s, r[i]) < FirstIndex(s, r[j]))
  }

  /** Extending `s` by one element extends its first-appearance listing accordingly. */
  lemma FirstAppearanceStep<T>(s: seq<T>, d: seq<T>)
    requires |s| > 0
    requires FirstAppearanceOrder(s[..|s| - 1], d)
    ensures FirstAppearanceOrder(s, if s[|s| - 1] in d then d else d + [s[|s| - 1]])
  {
    var prefix, last := s[..|s| - 1], s[|s| - 1];
    FirstIndexInPrefix(s, |s| - 1);
    forall i | 0 <= i < |s|
      ensures s[i] in d || s[i] == last
    {
      if i < |s| - 1 {
        assert s[i] == prefix[i];
      }
    }
    if last !in d {
      var r := d + [last];
      assert FirstIndex(s, last) == |s| - 1;
      forall i, j | 0 <= i < j < |r|
        ensures FirstIndex(s, r[i]) < FirstIndex(s, r[j])
      {
        assert r[i] == d[i] && r[i] in prefix;
        if j < |d| {
          assert r[j] == d[j] && r[j] in prefix;
        }
      }
    }
  }

  /**
   * `Array.from(new Set(s))`: the distinct elements of `s`, each kept at its
   * first appearance. The result is characterised independently of the
   * recursion: same elements, no repeats, ordered by first occurrence in `s`.
   */
  /** `Array.from(new Set(s))`: holding exactly the elements of `s`. */
  function Dedup<T(==)>(s: seq<T>): (d: seq<T>)
    ensures forall i :: 0 <= i < |d| ==> d[i] in s
    ensures forall i :: 0 <= i < |s| ==> s[i] in d
  {
    if |s| == 0 then []
    else
      var d := Dedup(s[..|s| - 1]);
      if s[|s| - 1] in d then d else d + [s[|s| - 1]]
  }

  lemma {:induction false} DedupIsFirstAppearanceOrder<T>(s: seq<T>)
    ensures FirstAppearanceOrder(s, Dedup(s))
  {
    if |s| > 0 {
      DedupIsFirstAppearanceOrder(s[..|s| - 1]);
      FirstAppearanceStep(s, Dedup(s[..|s| - 1]));
    }
  }
}
