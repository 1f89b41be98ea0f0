/**
 * Python dictionaries as the preprocessing scripts use them: insertion-ordered
 * association lists. Reading a key finds its last entry, which is what
 * `json.load` keeps when a key repeats; assigning a key replaces its value in
 * place, or appends the key when it is new.
 */
module Dicts {
  import opened Basics

  type Dict<V> = seq<(string, V)>

  /** The keys, in insertion order. */
  function Keys<V>(d: Dict<V>): (ks: seq<string>)
    ensures |ks| == |d|
    ensures forall i :: 0 <= i < |d| ==> ks[i] == d[i].0
  {
    seq(|d|, i requires 0 <= i < |d| => d[i].0)
  }

  /** `d[i]` is the entry `(k, v)` and no later entry has the key `k`. */
  ghost predicate IsLastEntry<V>(d: Dict<V>, i: nat, k: string, v: V)
    requires i < |d|
  {
    d[i] == (k, v) && forall j :: i < j < |d| ==> d[j].0 != k
  }

  /** `d[k]`, or `None` where Python raises `KeyError`: the value of the last entry of `k`. */
  function Get<V>(d: Dict<V>, k: string): (r: Option<V>)
    ensures r.Some? <==> k in Keys(d)
  {
    if |d| == 0 then None
    else if d[|d| - 1].0 == k then Some(d[|d| - 1].1)
    else
      var r := Get(d[..|d| - 1], k);
      assert k in Keys(d) ==> k in Keys(d[..|d| - 1]) by {
        if k in Keys(d) {
          var i :| 0 <= i < |d| && Keys(d)[i] == k;
          assert Keys(d[..|d| - 1])[i] == k;
        }
      }
      r
  }

  /** A key that is present reads the value of its last entry. */
  lemma {:induction false} GetIsLastEntry<V>(d: Dict<V>, k: string)
    requires k in Keys(d)
    ensures exists i :: 0 <= i < |d| && IsLastEntry(d, i, k, Get(d, k).value)
  {
    var n := |d| - 1;
    if d[n].0 == k {
      assert Get(d, k) == Some(d[n].1);
      assert IsLastEntry(d, n, k, d[n].1);
    } else {
      var i :| 0 <= i < |d| && Keys(d)[i] == k;
      assert Keys(d[..n])[i] == k;
      GetIsLastEntry(d[..n], k);
      var j :| 0 <= j < n && IsLastEntry(d[..n], j, k, Get(d[..n], k).value);
      assert IsLastEntry(d, j, k, Get(d, k).value);
    }
  }

  /** The last entry of a key is what reading the key gives. */
  lemma {:induction false} LastEntryIsGet<V>(d: Dict<V>, i: nat)
    requires i < |d| && IsLastEntry(d, i, d[i].0, d[i].1)
    ensures Get(d, d[i].0) == Some(d[i].1)
  {
    var n := |d| - 1;
    if i < n {
      assert IsLastEntry(d[..n], i, d[i].0, d[i].1);
      LastEntryIsGet(d[..n], i);
    }
  }

  /** Reading a concatenation: the second part wins for its own keys. */
  lemma {:induction false} GetAppend<V>(a: Dict<V>, b: Dict<V>, k: string)
    ensures Get(a + b, k) == if k in Keys(b) then Get(b, k) else Get(a, k)
  {
    if |b| == 0 {
      assert a + b == a;
    } else {
      var n := |b| - 1;
      var ab := a + b;
      assert ab[|ab| - 1] == b[n];
      if b[n].0 == k {
        assert Keys(b)[n] == k;
      } else {
        assert ab[..|ab| - 1] == a + b[..n];
        assert Get(ab, k) == Get(a + b[..n], k);
        assert Get(b, k) == Get(b[..n], k);
        GetAppend(a, b[..n], k);
        KeysDropLast(b, k);
      }
    }
  }

  /** Dropping the last entry loses no other key. */
  lemma KeysDropLast<V>(d: Dict<V>, k: string)
    requires |d| > 0 && d[|d| - 1].0 != k
    ensures k in Keys(d) <==> k in Keys(d[..|d| - 1])
  {
    var n := |d| - 1;
    if k in Keys(d) {
      var j :| 0 <= j < |d| && Keys(d)[j] == k;
      assert Keys(d[..n])[j] == k;
    }
    if k in Keys(d[..n]) {
      var j :| 0 <= j < n && Keys(d[..n])[j] == k;
      assert Keys(d)[j] == k;
    }
  }

  /** Two lists with the same keys that agree on every entry of `k` agree on `d[k]`. */
  lemma {:induction false} GetAgrees<V>(a: Dict<V>, b: Dict<V>, k: string)
    requires |a| == |b|
    requires forall i :: 0 <= i < |a| ==> a[i].0 == b[i].0
    requires forall i :: 0 <= i < |a| && a[i].0 == k ==> a[i] == b[i]
    ensures Get(a, k) == Get(b, k)
  {
    if |a| > 0 {
      var n := |a| - 1;
      GetAgrees(a[..n], b[..n], k);
    }
  }

  /** `d[k] = v`. */
  function Assign<V>(d: Dict<V>, k: string, v: V): Dict<V> {
    if k in Keys(d) then seq(|d|, i requires 0 <= i < |d| => if d[i].0 == k then (k, v) else d[i])
    else d + [(k, v)]
  }

  /** After `d[k] = v`, `k` reads `v` and every other key reads as before. */
  lemma AssignThenGet<V>(d: Dict<V>, k: string, v: V, k': string)
    ensures Get(Assign(d, k, v), k') == if k' == k then Some(v) else Get(d, k')
  {
    var r := Assign(d, k, v);
    if k in Keys(d) {
      if k' == k {
        GetAgrees(r, seq(|d|, i requires 0 <= i < |d| => (d[i].0, v)), k);
        AllOneValue(d, k, v);
      } else {
        GetAgrees(r, d, k');
      }
    } else {
      assert r[..|d|] == d;
    }
  }

  /** `d[k] = v` keeps the key order and appends a new key at the end. */
  lemma AssignKeys<V>(d: Dict<V>, k: string, v: V)
    ensures Keys(Assign(d, k, v)) == if k in Keys(d) then Keys(d) else Keys(d) + [k]
  {
  }

  /** Where every value is `v`, a present key reads `v`. */
  lemma AllOneValue<V>(d: Dict<V>, k: string, v: V)
    requires k in Keys(d)
    ensures Get(seq(|d|, i requires 0 <= i < |d| => (d[i].0, v)), k) == Some(v)
  {
    var e := seq(|d|, i requires 0 <= i < |d| => (d[i].0, v));
    assert Keys(e) == Keys(d);
    GetIsLastEntry(e, k);
  }

  /** The nested read `d[y][r]` of a dictionary of dictionaries, `None` when either key is missing. */
  function Lookup<V>(d: Dict<Dict<V>>, y: string, r: string): Option<V> {
    match Get(d, y)
    case None => None
    case Some(inner) => Get(inner, r)
  }

  /** `if y not in d: d[y] = {}` followed by `d[y][r] = v`. */
  function Put<V>(d: Dict<Dict<V>>, y: string, r: string, v: V): Dict<Dict<V>> {
    var inner := Get(d, y).GetOr([]);
    Assign(d, y, Assign(inner, r, v))
  }

  /** Filing an entry adds its year at the end when the year is new, and keeps the year order. */
  lemma PutKeys<V>(d: Dict<Dict<V>>, y: string, r: string, v: V)
    ensures Keys(Put(d, y, r, v)) == if y in Keys(d) then Keys(d) else Keys(d) + [y]
  {
    AssignKeys(d, y, Assign(Get(d, y).GetOr([]), r, v));
  }

  /** After `d[y][r] = v`, that entry reads `v` and every other entry reads as before. */
  lemma PutThenLookup<V>(d: Dict<Dict<V>>, y: string, r: string, v: V, y': string, r': string)
    ensures Lookup(Put(d, y, r, v), y', r') == if y' == y && r' == r then Some(v) else Lookup(d, y', r')
  {
    var inner := Get(d, y).GetOr([]);
    AssignThenGet(d, y, Assign(inner, r, v), y');
    if y' == y {
      AssignThenGet(inner, r, v, r');
    }
  }

  /** `{k: f(v) for k, v in d.items()}`: the same keys in the same order, each value converted. */
  function MapValues<V, W>(d: Dict<V>, f: V -> W): (e: Dict<W>)
    ensures Keys(e) == Keys(d)
    ensures forall i :: 0 <= i < |d| ==> e[i].1 == f(d[i].1)
  {
    seq(|d|, i requires 0 <= i < |d| => (d[i].0, f(d[i].1)))
  }

  /** Reading a converted dictionary is converting what the original reads. */
  lemma {:induction false} GetMapValues<V, W>(d: Dict<V>, f: V -> W, k: string)
    ensures Get(MapValues(d, f), k) == match Get(d, k) case None => None case Some(v) => Some(f(v))
  {
    if |d| > 0 {
      var n := |d| - 1;
      assert MapValues(d, f)[..n] == MapValues(d[..n], f);
      GetMapValues(d[..n], f, k);
    }
  }
}
