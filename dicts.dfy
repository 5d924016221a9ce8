/**
 * Insertion-ordered dictionaries with string keys, as Python's `dict` keeps
 * them: assigning an existing key overwrites its value in place, assigning a
 * new key appends it at the end.
 */
module Dicts {
  import opened Common

  /** `keys` is the iteration order; `values` holds the entries. */
  datatype ODict<V> = ODict(keys: seq<string>, values: map<string, V>)

  /** Every key listed once, and exactly the keys of `values`. */
  predicate Valid<V>(d: ODict<V>)
  {
    && d.values.Keys == (set k | k in d.keys)
    && forall a, b :: 0 <= a < b < |d.keys| ==> d.keys[a] != d.keys[b]
  }

  function Empty<V>(): (d: ODict<V>)
    ensures Valid(d) && d.keys == [] && d.values == map[]
  {
    ODict([], map[])
  }

  /** `d[k] = v`. */
  function Put<V>(d: ODict<V>, k: string, v: V): (r: ODict<V>)
    requires Valid(d)
    ensures Valid(r)
    ensures r.values == d.values[k := v]
    ensures k in d.values ==> r.keys == d.keys
    ensures k !in d.values ==> r.keys == d.keys + [k]
  {
    if k in d.values then ODict(d.keys, d.values[k := v])
    else
      var r := ODict(d.keys + [k], d.values[k := v]);
      assert forall a :: 0 <= a < |d.keys| ==> r.keys[a] == d.keys[a] && d.keys[a] != k;
      r
  }

  /** `sum(f(v) for v in d.values())`, added up in key order from the back. */
  function SumBy<V>(keys: seq<string>, m: map<string, V>, f: V -> int): int
    requires forall k :: k in keys ==> k in m
  {
    if keys == [] then 0 else SumBy(keys[..|keys| - 1], m, f) + f(m[keys[|keys| - 1]])
  }

  /** The sum over a key list does not see an entry whose key is not listed. */
  lemma {:induction false} SumByOther<V>(keys: seq<string>, m: map<string, V>, f: V -> int, k: string, v: V)
    requires forall j :: j in keys ==> j in m
    requires k !in keys
    ensures SumBy(keys, m[k := v], f) == SumBy(keys, m, f)
  {
    if keys != [] {
      var init := keys[..|keys| - 1];
      assert forall j :: j in init ==> j in keys;
      SumByOther(init, m, f, k, v);
    }
  }

  /** Overwriting one listed key changes the sum by the difference of the two values. */
  lemma {:induction false} SumByReplace<V>(keys: seq<string>, m: map<string, V>, f: V -> int, k: string, v: V)
    requires forall j :: j in keys ==> j in m
    requires forall a, b :: 0 <= a < b < |keys| ==> keys[a] != keys[b]
    requires k in keys
    ensures SumBy(keys, m[k := v], f) == SumBy(keys, m, f) - f(m[k]) + f(v)
  {
    var n := |keys| - 1;
    var init := keys[..n];
    assert forall j :: j in init ==> j in keys;
    if keys[n] == k {
      assert forall a :: 0 <= a < n ==> init[a] == keys[a] && keys[a] != keys[n];
      SumByOther(init, m, f, k, v);
    } else {
      assert k in init by {
        var i :| 0 <= i < |keys| && keys[i] == k;
        assert i < n && init[i] == k;
      }
      SumByReplace(init, m, f, k, v);
    }
  }

  /** The sum of a dictionary's values under `f`. */
  function Total<V>(d: ODict<V>, f: V -> int): int
    requires Valid(d)
  {
    SumBy(d.keys, d.values, f)
  }

  /** `d[k] = v` replaces the contribution of `k` (zero when it was absent) by `f(v)`. */
  lemma PutTotal<V>(d: ODict<V>, k: string, v: V, f: V -> int)
    requires Valid(d)
    ensures Total(Put(d, k, v), f) == Total(d, f) - (if k in d.values then f(d.values[k]) else 0) + f(v)
  {
    var r := Put(d, k, v);
    if k in d.values {
      SumByReplace(d.keys, d.values, f, k, v);
    } else {
      assert k !in d.keys;
      var n := |r.keys| - 1;
      assert r.keys[..n] == d.keys && r.keys[n] == k;
      assert SumBy(r.keys, r.values, f) == SumBy(d.keys, r.values, f) + f(v);
      SumByOther(d.keys, d.values, f, k, v);
    }
  }

  /** Assigning the same key twice leaves only the second value. */
  lemma PutTwice<V>(d: ODict<V>, k: string, v: V, w: V)
    requires Valid(d)
    ensures Put(Put(d, k, v), k, w) == Put(d, k, w)
  {
  }

  /** The key order with `k` taken out. */
  function Without(keys: seq<string>, k: string): (r: seq<string>)
    ensures forall j :: j in r <==> j in keys && j != k
    ensures |r| <= |keys|
  {
    if keys == [] then [] else (if keys[0] == k then [] else [keys[0]]) + Without(keys[1..], k)
  }

  /** Taking a key out keeps the other keys distinct and in their order. */
  lemma {:induction false} WithoutSpec(keys: seq<string>, k: string)
    requires forall a, b :: 0 <= a < b < |keys| ==> keys[a] != keys[b]
    ensures var r := Without(keys, k);
            (forall a, b :: 0 <= a < b < |r| ==> r[a] != r[b]) && IsSubsequence(r, keys)
            && (k in keys ==> |r| == |keys| - 1)
            && (k !in keys ==> r == keys)
    decreases |keys|
  {
    if keys != [] {
      var tail := keys[1..];
      assert forall a, b :: 0 <= a < b < |tail| ==> tail[a] != tail[b] by {
        forall a, b | 0 <= a < b < |tail| ensures tail[a] != tail[b] {
          assert tail[a] == keys[a + 1] && tail[b] == keys[b + 1];
        }
      }
      WithoutSpec(tail, k);
      assert keys == [keys[0]] + tail;
      var rest := Without(tail, k);
      assert keys[0] !in tail by {
        forall b | 0 <= b < |tail| ensures tail[b] != keys[0] {
          assert tail[b] == keys[b + 1];
        }
      }
      SubsequenceCons(rest, keys[0], tail);
      if keys[0] == k {
        assert Without(keys, k) == rest == tail;
      } else {
        var r := [keys[0]] + rest;
        assert forall a :: 1 <= a < |r| ==> r[a] == rest[a - 1] && r[a] in tail;
      }
    }
  }

  /** `del d[k]` for a key it holds; the key leaves the iteration order. */
  function Delete<V>(d: ODict<V>, k: string): (r: ODict<V>)
    requires Valid(d)
    ensures Valid(r)
    ensures r.values == d.values - {k}
    ensures r.keys == Without(d.keys, k)
  {
    WithoutSpec(d.keys, k);
    ODict(Without(d.keys, k), d.values - {k})
  }

  /** `list(d.values())`, in key order. */
  function Values<V>(d: ODict<V>): (r: seq<V>)
    requires Valid(d)
    ensures |r| == |d.keys|
  {
    seq(|d.keys|, i requires 0 <= i < |d.keys| && Valid(d) => d.values[d.keys[i]])
  }

  /** The values list holds exactly the dictionary's values, one per key. */
  lemma ValuesSpec<V>(d: ODict<V>)
    requires Valid(d)
    ensures forall v :: v in Values(d) <==> exists k :: k in d.values && d.values[k] == v
  {
    forall v | (exists k :: k in d.values && d.values[k] == v) ensures v in Values(d) {
      var k :| k in d.values && d.values[k] == v;
      var i :| 0 <= i < |d.keys| && d.keys[i] == k;
      assert Values(d)[i] == v;
    }
  }
}
