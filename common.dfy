/** Small value types and sequence helpers shared by every module of the model. */
module Common {

  /** A value that may be absent: a missing dictionary key or a Python `None`. */
  datatype Option<+T> = None | Some(value: T)

  /** `d.get(key, default)`: the value if present, else the default. */
  function GetOr<T>(o: Option<T>, default: T): T
  {
    match o
    case Some(v) => v
    case None => default
  }

  /** Python truthiness of an optional integer: `None` and `0` are false. */
  predicate Truthy(n: Option<int>)
  {
    n.Some? && n.value != 0
  }

  /** Python truthiness of an optional string. */
  predicate TruthyStr(s: Option<string>)
  {
    s.Some? && s.value != ""
  }

  function Min(a: int, b: int): int { if a <= b then a else b }
  function Max(a: int, b: int): int { if a >= b then a else b }

  /** Python's slice `s[:n]`, including its meaning for a negative `n` (drop the last `-n` items). */
  function PyPrefix<T>(s: seq<T>, n: int): (r: seq<T>)
    ensures |r| == if n >= 0 then Min(n, |s|) else Max(0, |s| + n)
    ensures r == s[..|r|]
  {
    if n >= 0 then (if n <= |s| then s[..n] else s)
    else if |s| + n >= 0 then s[..|s| + n]
    else []
  }

  /** `a` is obtained from `b` by deleting elements (order preserved). */
  predicate IsSubsequence<T(==)>(a: seq<T>, b: seq<T>)
    decreases |b|
  {
    if a == [] then true
    else if b == [] then false
    else if a[0] == b[0] then IsSubsequence(a[1..], b[1..])
    else IsSubsequence(a, b[1..])
  }

  lemma {:induction false} SubsequenceElements<T>(a: seq<T>, b: seq<T>)
    requires IsSubsequence(a, b)
    ensures |a| <= |b|
    ensures forall x :: x in a ==> x in b
    decreases |b|
  {
    if a != [] {
      if a[0] == b[0] {
        SubsequenceElements(a[1..], b[1..]);
        assert forall x :: x in a ==> x == a[0] || x in a[1..];
      } else {
        SubsequenceElements(a, b[1..]);
      }
    }
  }

  lemma {:induction false} SubsequenceOfSelf<T>(a: seq<T>)
    ensures IsSubsequence(a, a)
    decreases |a|
  {
    if a != [] {
      SubsequenceOfSelf(a[1..]);
    }
  }

  /** Adding an element in front of the longer sequence keeps the relation. */
  lemma {:induction false} SubsequenceWeaken<T>(a: seq<T>, b: seq<T>)
    requires b != [] && IsSubsequence(a, b[1..])
    ensures IsSubsequence(a, b)
    decreases |b|, 0
  {
    if a != [] && a[0] == b[0] {
      SubsequenceDropHead(a, b[1..]);
    }
  }

  /** Deleting the first element of the shorter sequence keeps the relation. */
  lemma {:induction false} SubsequenceDropHead<T>(a: seq<T>, b: seq<T>)
    requires a != [] && IsSubsequence(a, b)
    ensures IsSubsequence(a[1..], b)
    decreases |b|, 1
  {
    if a[0] == b[0] {
      if b[1..] != [] {
        SubsequenceWeaken(a[1..], b);
      } else {
        assert a[1..] == [];
      }
    } else {
      SubsequenceDropHead(a, b[1..]);
      SubsequenceWeaken(a[1..], b);
    }
  }

  lemma {:induction false} SubsequenceCons<T>(a: seq<T>, x: T, b: seq<T>)
    requires IsSubsequence(a, b)
    ensures IsSubsequence(a, [x] + b)
    ensures IsSubsequence([x] + a, [x] + b)
  {
    assert ([x] + b)[1..] == b;
    assert ([x] + a)[1..] == a;
    SubsequenceWeaken(a, [x] + b);
  }

  lemma {:induction false} SubsequenceTrans<T>(a: seq<T>, b: seq<T>, c: seq<T>)
    requires IsSubsequence(a, b) && IsSubsequence(b, c)
    ensures IsSubsequence(a, c)
    decreases |c|
  {
    if a == [] {
    } else if b == [] {
    } else if c == [] {
    } else if b[0] == c[0] {
      if a[0] == b[0] {
        SubsequenceTrans(a[1..], b[1..], c[1..]);
      } else {
        SubsequenceTrans(a, b[1..], c[1..]);
        SubsequenceWeaken(a, c);
      }
    } else {
      SubsequenceTrans(a, b, c[1..]);
      SubsequenceWeaken(a, c);
    }
  }

  /** Appending the same element to both sequences, or only to the longer one, keeps the relation. */
  lemma {:induction false} SubsequenceSnoc<T>(a: seq<T>, b: seq<T>, x: T)
    requires IsSubsequence(a, b)
    ensures IsSubsequence(a, b + [x]) && IsSubsequence(a + [x], b + [x])
    decreases |b|
  {
    if a == [] {
      assert a + [x] == [x];
      SingletonSubsequence(b, x);
    } else {
      assert (b + [x])[1..] == b[1..] + [x];
      assert (a + [x])[1..] == a[1..] + [x];
      if a[0] == b[0] {
        SubsequenceSnoc(a[1..], b[1..], x);
      } else {
        SubsequenceSnoc(a, b[1..], x);
      }
    }
  }

  lemma {:induction false} SingletonSubsequence<T>(b: seq<T>, x: T)
    ensures IsSubsequence([x], b + [x])
    decreases |b|
  {
    if b == [] {
      assert [x][1..] == [];
    } else if b[0] == x {
      assert [x][1..] == [];
    } else {
      assert (b + [x])[1..] == b[1..] + [x];
      SingletonSubsequence(b[1..], x);
    }
  }

  lemma {:induction false} PrefixIsSubsequence<T>(s: seq<T>, n: nat)
    requires n <= |s|
    ensures IsSubsequence(s[..n], s)
    decreases |s|
  {
    if n > 0 {
      PrefixIsSubsequence(s[1..], n - 1);
      assert s[..n][1..] == s[1..][..n - 1];
    } else {
      assert s[..n] == [];
    }
  }

  /** All the lists of a list of lists, one after another (`for xs in xss: out.extend(xs)`). */
  function Concat<T>(xss: seq<seq<T>>): (r: seq<T>)
    decreases |xss|
  {
    if xss == [] then [] else Concat(xss[..|xss| - 1]) + xss[|xss| - 1]
  }

  lemma ConcatSnoc<T>(xss: seq<seq<T>>, ys: seq<T>)
    ensures Concat(xss + [ys]) == Concat(xss) + ys
  {
    assert (xss + [ys])[..|xss|] == xss;
  }

  lemma {:induction false} ConcatAppend<T>(a: seq<seq<T>>, b: seq<seq<T>>)
    ensures Concat(a + b) == Concat(a) + Concat(b)
    decreases |b|
  {
    if b == [] {
      assert a + b == a;
    } else {
      var init := b[..|b| - 1];
      ConcatAppend(a, init);
      assert (a + b)[..|a + b| - 1] == a + init;
    }
  }

  /** A concatenation is the lists before the `k`-th, the `k`-th, and the lists after it. */
  lemma ConcatAt<T>(xss: seq<seq<T>>, k: nat)
    requires k < |xss|
    ensures Concat(xss) == Concat(xss[..k]) + xss[k] + Concat(xss[k + 1..])
  {
    var a, x, rest := xss[..k], xss[k], xss[k + 1..];
    SplitAround(xss, k);
    ConcatAppend(a, [x] + rest);
    ConcatAppend([x], rest);
    ConcatSingle(x);
  }

  /** A non-empty list is its head followed by its tail. */
  lemma HeadTail<T>(xs: seq<T>)
    requires xs != []
    ensures [xs[0]] + xs[1..] == xs
  {
  }

  /** Putting an element in front of a non-empty list keeps its last element. */
  lemma LastOfCons<T>(x: T, ys: seq<T>)
    requires ys != []
    ensures ([x] + ys)[|[x] + ys| - 1] == ys[|ys| - 1]
  {
  }

  lemma SplitAround<T>(xs: seq<T>, k: nat)
    requires k < |xs|
    ensures xs == xs[..k] + ([xs[k]] + xs[k + 1..])
  {
    var b := [xs[k]] + xs[k + 1..];
    forall i | 0 <= i < |xs| ensures xs[i] == (xs[..k] + b)[i] {
      if i > k {
        assert b[i - k] == xs[k + 1..][i - k - 1];
      }
    }
  }

  lemma ConcatSingle<T>(x: seq<T>)
    ensures Concat([x]) == x
  {
    assert [x][..0] == [];
  }

  /** Every element of a concatenation comes from one of its lists, and every list's elements are in it. */
  lemma {:induction false} ConcatMember<T>(xss: seq<seq<T>>, x: T)
    ensures x in Concat(xss) <==> exists j :: 0 <= j < |xss| && x in xss[j]
    decreases |xss|
  {
    if xss != [] {
      var init := xss[..|xss| - 1];
      ConcatMember(init, x);
      if x in Concat(xss) && x !in xss[|xss| - 1] {
        var j :| 0 <= j < |init| && x in init[j];
        assert xss[j] == init[j];
      }
      if exists j :: 0 <= j < |xss| && x in xss[j] {
        var j :| 0 <= j < |xss| && x in xss[j];
        if j < |init| {
          assert init[j] == xss[j];
        }
      }
    }
  }

  /** Keeping, for each candidate, either the candidate alone or nothing gives a subsequence of the candidates that holds every kept one. */
  lemma {:induction false} ConcatPicks<T>(pieces: seq<seq<T>>, cands: seq<T>)
    requires |pieces| == |cands|
    requires forall i :: 0 <= i < |pieces| ==> pieces[i] == [] || pieces[i] == [cands[i]]
    ensures IsSubsequence(Concat(pieces), cands)
    ensures forall i :: 0 <= i < |pieces| && pieces[i] != [] ==> cands[i] in Concat(pieces)
    decreases |pieces|
  {
    if pieces == [] {
      assert Concat(pieces) == [];
    } else {
      var n := |pieces| - 1;
      var init := pieces[..n];
      var cinit := cands[..n];
      ConcatPicks(init, cinit);
      assert cands == cinit + [cands[n]];
      assert Concat(pieces) == Concat(init) + pieces[n];
      SubsequenceSnoc(Concat(init), cinit, cands[n]);
      if pieces[n] == [] {
        assert Concat(pieces) == Concat(init);
      }
      forall i | 0 <= i < |pieces| && pieces[i] != [] ensures cands[i] in Concat(pieces) {
        if i < n {
          assert init[i] == pieces[i] && cinit[i] == cands[i];
        }
      }
    }
  }

  /** The results of the calls that succeeded, in call order; a failed call (`None`) adds nothing. */
  function Successes<T>(outcomes: seq<Option<seq<T>>>): (r: seq<T>)
    decreases |outcomes|
  {
    if outcomes == [] then []
    else (if outcomes[0].Some? then outcomes[0].value else []) + Successes(outcomes[1..])
  }

  lemma {:induction false} SuccessesAppend<T>(a: seq<Option<seq<T>>>, b: seq<Option<seq<T>>>)
    ensures Successes(a + b) == Successes(a) + Successes(b)
    decreases |a|
  {
    if a != [] {
      assert (a + b)[1..] == a[1..] + b;
      SuccessesAppend(a[1..], b);
    } else {
      assert a + b == b;
    }
  }

  /** Every collected item comes from some successful call; with no success nothing is collected. */
  lemma {:induction false} SuccessesOrigin<T>(outcomes: seq<Option<seq<T>>>)
    ensures (forall i :: 0 <= i < |outcomes| ==> outcomes[i].None?) ==> Successes(outcomes) == []
    ensures forall x :: x in Successes(outcomes) ==>
              exists i :: 0 <= i < |outcomes| && outcomes[i].Some? && x in outcomes[i].value
    decreases |outcomes|
  {
    if outcomes != [] {
      var tail := outcomes[1..];
      SuccessesOrigin(tail);
      assert forall i :: 0 <= i < |tail| ==> tail[i] == outcomes[i + 1];
      forall x | x in Successes(outcomes)
        ensures exists i :: 0 <= i < |outcomes| && outcomes[i].Some? && x in outcomes[i].value
      {
        if outcomes[0].Some? && x in outcomes[0].value {
        } else {
          assert x in Successes(tail);
          var i :| 0 <= i < |tail| && tail[i].Some? && x in tail[i].value;
          assert outcomes[i + 1] == tail[i];
        }
      }
    }
  }

  /** How many times `x` occurs in `xs`. */
  function Occurrences<T(==)>(xs: seq<T>, x: T): (n: nat)
    ensures n <= |xs|
    decreases |xs|
  {
    if xs == [] then 0
    else Occurrences(xs[..|xs| - 1], x) + (if xs[|xs| - 1] == x then 1 else 0)
  }

  lemma OccurrencesSnoc<T>(xs: seq<T>, y: T, x: T)
    ensures Occurrences(xs + [y], x) == Occurrences(xs, x) + (if y == x then 1 else 0)
  {
    assert (xs + [y])[..|xs|] == xs;
  }

  lemma {:induction false} OccurrencesPositive<T>(xs: seq<T>, x: T)
    ensures Occurrences(xs, x) > 0 <==> x in xs
    decreases |xs|
  {
    if xs != [] {
      OccurrencesPositive(xs[..|xs| - 1], x);
      assert xs == xs[..|xs| - 1] + [xs[|xs| - 1]];
    }
  }

  /** The distinct items of `xs`, in order of first appearance: the key order of a dictionary filled from `xs`. */
  function FirstAppearances<T(==)>(xs: seq<T>): seq<T>
    decreases |xs|
  {
    if xs == [] then []
    else
      var init := xs[..|xs| - 1];
      if xs[|xs| - 1] in init then FirstAppearances(init) else FirstAppearances(init) + [xs[|xs| - 1]]
  }

  lemma FirstAppearancesSnoc<T>(xs: seq<T>, y: T)
    ensures FirstAppearances(xs + [y]) == if y in xs then FirstAppearances(xs) else FirstAppearances(xs) + [y]
  {
    assert (xs + [y])[..|xs|] == xs;
  }

  /** The position of the first occurrence of `x` in `xs`. */
  function FirstIndex<T(==)>(xs: seq<T>, x: T): (k: nat)
    requires x in xs
    ensures k < |xs| && xs[k] == x
    ensures forall m :: 0 <= m < k ==> xs[m] != x
  {
    if xs[0] == x then 0
    else
      var k := FirstIndex(xs[1..], x);
      assert forall m :: 1 <= m < k + 1 ==> xs[m] == xs[1..][m - 1];
      k + 1
  }

  /** A position holding `x` with no `x` before it is the first index. */
  lemma FirstIndexUnique<T>(xs: seq<T>, x: T, k: nat)
    requires k < |xs| && xs[k] == x && forall m :: 0 <= m < k ==> xs[m] != x
    ensures FirstIndex(xs, x) == k
  {
  }

  /**
   * The first appearances are exactly the items of `xs`, each once, ordered
   * by where each first occurs.
   */
  lemma {:induction false} FirstAppearancesSpec<T>(xs: seq<T>)
    ensures forall x :: x in FirstAppearances(xs) <==> x in xs
    ensures forall a, b :: 0 <= a < b < |FirstAppearances(xs)| ==> FirstAppearances(xs)[a] != FirstAppearances(xs)[b]
    ensures forall a, b :: 0 <= a < b < |FirstAppearances(xs)| ==>
              FirstIndex(xs, FirstAppearances(xs)[a]) < FirstIndex(xs, FirstAppearances(xs)[b])
    decreases |xs|
  {
    if xs != [] {
      var init, y := xs[..|xs| - 1], xs[|xs| - 1];
      assert xs == init + [y];
      FirstAppearancesSpec(init);
      var r := FirstAppearances(init);
      forall x | x in init ensures FirstIndex(xs, x) == FirstIndex(init, x) {
        FirstIndexUnique(xs, x, FirstIndex(init, x));
      }
      if y !in init {
        FirstIndexUnique(xs, y, |init|);
        assert FirstAppearances(xs) == r + [y];
        forall a, b | 0 <= a < b < |r + [y]|
          ensures FirstIndex(xs, (r + [y])[a]) < FirstIndex(xs, (r + [y])[b])
        {
          assert (r + [y])[a] == r[a] && r[a] in r;
          if b < |r| {
            assert (r + [y])[b] == r[b] && r[b] in r;
          } else {
            assert (r + [y])[b] == y;
          }
        }
      } else {
        assert FirstAppearances(xs) == r;
        forall a, b | 0 <= a < b < |r| ensures FirstIndex(xs, r[a]) < FirstIndex(xs, r[b]) {
          assert r[a] in r && r[b] in r;
        }
      }
    }
  }

  /** The sum of the counts of the listed keys. */
  function SumOver<K>(keys: seq<K>, counts: map<K, nat>): nat
    requires forall k :: k in keys ==> k in counts
    decreases |keys|
  {
    if keys == [] then 0 else SumOver(keys[..|keys| - 1], counts) + counts[keys[|keys| - 1]]
  }

  /** Updating the count of a key that is not listed leaves the sum alone. */
  lemma {:induction false} SumOverOther<K>(keys: seq<K>, counts: map<K, nat>, k: K, v: nat)
    requires forall j :: j in keys ==> j in counts
    requires k !in keys
    ensures SumOver(keys, counts[k := v]) == SumOver(keys, counts)
    decreases |keys|
  {
    if keys != [] {
      assert keys[|keys| - 1] in keys;
      SumOverOther(keys[..|keys| - 1], counts, k, v);
    }
  }

  /** Adding one to the count of a key listed once adds one to the sum. */
  lemma {:induction false} SumOverIncrement<K>(keys: seq<K>, counts: map<K, nat>, k: K)
    requires forall j :: j in keys ==> j in counts
    requires forall a, b :: 0 <= a < b < |keys| ==> keys[a] != keys[b]
    requires k in keys
    ensures SumOver(keys, counts[k := counts[k] + 1]) == SumOver(keys, counts) + 1
    decreases |keys|
  {
    var n := |keys| - 1;
    var init := keys[..n];
    if keys[n] == k {
      assert forall a :: 0 <= a < n ==> init[a] == keys[a] && keys[a] != keys[n];
      assert k !in init;
      SumOverOther(init, counts, k, counts[k] + 1);
    } else {
      assert k in init by {
        var a :| 0 <= a < |keys| && keys[a] == k;
        assert a < n;
        assert init[a] == k;
      }
      SumOverIncrement(init, counts, k);
    }
  }

  /**
   * An insertion-ordered counting dictionary of `xs`: each distinct item
   * listed once in `keys` in order of first appearance, and `counts` giving its number of occurrences.
   */
  ghost predicate IsHistogram<K(!new)>(keys: seq<K>, counts: map<K, nat>, xs: seq<K>)
  {
    && counts.Keys == (set k | k in keys)
    && keys == FirstAppearances(xs)
    && (forall a, b :: 0 <= a < b < |keys| ==> keys[a] != keys[b])
    && (forall k :: k in keys <==> k in xs)
    && (forall k :: k in counts ==> counts[k] == Occurrences(xs, k))
    && SumOver(keys, counts) == |xs|
  }

  /** One step of `counts[x] = counts.get(x, 0) + 1`. */
  lemma HistogramAdd<K(!new)>(keys: seq<K>, counts: map<K, nat>, xs: seq<K>, x: K)
    requires IsHistogram(keys, counts, xs)
    ensures x in counts ==> IsHistogram(keys, counts[x := counts[x] + 1], xs + [x])
    ensures x !in counts ==> IsHistogram(keys + [x], counts[x := 1], xs + [x])
  {
    if x in counts {
      HistogramAddOld(keys, counts, xs, x);
    } else {
      HistogramAddNew(keys, counts, xs, x);
    }
  }

  /** `counts[x] = counts.get(x, 0) + 1` on an insertion-ordered dictionary. */
  method HistogramInsert<K(!new)>(keys: seq<K>, counts: map<K, nat>, ghost xs: seq<K>, x: K)
    returns (keys': seq<K>, counts': map<K, nat>)
    requires IsHistogram(keys, counts, xs)
    ensures IsHistogram(keys', counts', xs + [x])
    ensures x in counts ==> keys' == keys && counts' == counts[x := counts[x] + 1]
    ensures x !in counts ==> keys' == keys + [x] && counts' == counts[x := 1]
  {
    HistogramAdd(keys, counts, xs, x);
    if x in counts {
      keys', counts' := keys, counts[x := counts[x] + 1];
    } else {
      keys', counts' := keys + [x], counts[x := 1];
    }
  }

  lemma HistogramAddOld<K(!new)>(keys: seq<K>, counts: map<K, nat>, xs: seq<K>, x: K)
    requires IsHistogram(keys, counts, xs) && x in counts
    ensures IsHistogram(keys, counts[x := counts[x] + 1], xs + [x])
  {
    forall k ensures Occurrences(xs + [x], k) == Occurrences(xs, k) + (if x == k then 1 else 0) {
      OccurrencesSnoc(xs, x, k);
    }
    SumOverIncrement(keys, counts, x);
    FirstAppearancesSnoc(xs, x);
  }

  lemma HistogramAddNew<K(!new)>(keys: seq<K>, counts: map<K, nat>, xs: seq<K>, x: K)
    requires IsHistogram(keys, counts, xs) && x !in counts
    ensures IsHistogram(keys + [x], counts[x := 1], xs + [x])
  {
    var keys', counts' := keys + [x], counts[x := 1];
    assert x !in keys && x !in xs;
    HistogramCountsNew(counts, xs, x);
    DistinctSnoc(keys, x);
    HistogramSumNew(keys, counts, x);
    FirstAppearancesSnoc(xs, x);
    HistogramKeysNew(keys, counts, xs, x);
  }

  /** The key set and the listed keys after a first occurrence of `x`. */
  lemma HistogramKeysNew<K>(keys: seq<K>, counts: map<K, nat>, xs: seq<K>, x: K)
    requires counts.Keys == (set k | k in keys)
    requires forall k :: k in keys <==> k in xs
    ensures counts[x := 1].Keys == (set k | k in keys + [x])
    ensures forall k :: k in keys + [x] <==> k in xs + [x]
  {
  }

  /** The counts after a first occurrence of `x`. */
  lemma HistogramCountsNew<K>(counts: map<K, nat>, xs: seq<K>, x: K)
    requires forall k :: k in counts ==> counts[k] == Occurrences(xs, k)
    requires x !in xs
    ensures forall k :: k in counts[x := 1] ==> counts[x := 1][k] == Occurrences(xs + [x], k)
  {
    forall k | k in counts[x := 1] ensures counts[x := 1][k] == Occurrences(xs + [x], k) {
      OccurrencesSnoc(xs, x, k);
      if k == x {
        OccurrencesPositive(xs, x);
      }
    }
  }

  /** Appending an unlisted key keeps the keys distinct. */
  lemma DistinctSnoc<K>(keys: seq<K>, x: K)
    requires forall a, b :: 0 <= a < b < |keys| ==> keys[a] != keys[b]
    requires x !in keys
    ensures forall a, b :: 0 <= a < b < |keys + [x]| ==> (keys + [x])[a] != (keys + [x])[b]
  {
  }

  /** Listing a new key with count 1 adds one to the sum. */
  lemma HistogramSumNew<K>(keys: seq<K>, counts: map<K, nat>, x: K)
    requires forall k :: k in keys ==> k in counts
    requires x !in counts
    ensures forall k :: k in keys + [x] ==> k in counts[x := 1]
    ensures SumOver(keys + [x], counts[x := 1]) == SumOver(keys, counts) + 1
  {
    assert x !in keys;
    assert (keys + [x])[..|keys + [x]| - 1] == keys;
    SumOverOther(keys, counts, x, 1);
  }
}
