/**
 * The record-level building blocks every searcher shares: first-seen
 * deduplication on an identity key, the year-range filter with Python's
 * truthiness of the bounds, the per-query target arithmetic, and the query
 * loop of the orchestrators that stops once enough papers are collected.
 */
module Records {
  import opened Common
  import opened Strs

  // ---------------------------------------------------------------------
  // Deduplication: keep the first record per identity key; records without
  // a key (the source's empty string) are dropped.

  /** The records the loop `for x in xs: k = key(x); if k and k not in seen: seen.add(k); out.append(x)` keeps. */
  function Dedup<T>(xs: seq<T>, key: T -> Option<string>, seen: set<string>): (r: seq<T>)
    decreases |xs|
  {
    if xs == [] then []
    else
      match key(xs[0])
      case None => Dedup(xs[1..], key, seen)
      case Some(k) =>
        if k in seen then Dedup(xs[1..], key, seen) else [xs[0]] + Dedup(xs[1..], key, seen + {k})
  }

  /** Every kept record has a key, not already seen, and no two kept records share a key. */
  predicate FreshDistinctKeys<T>(ys: seq<T>, key: T -> Option<string>, seen: set<string>)
  {
    (forall i :: 0 <= i < |ys| ==> key(ys[i]).Some? && key(ys[i]).value !in seen)
    && (forall i, j :: 0 <= i < j < |ys| ==> key(ys[i]) != key(ys[j]))
  }

  /** The record at index `i` is the first one carrying its key, and that key is new. */
  predicate FirstOfKey<T>(xs: seq<T>, key: T -> Option<string>, seen: set<string>, i: int)
    requires 0 <= i < |xs|
  {
    key(xs[i]).Some? && key(xs[i]).value !in seen
    && forall j :: 0 <= j < i ==> key(xs[j]) != key(xs[i])
  }

  lemma {:induction false} DedupSubsequence<T>(xs: seq<T>, key: T -> Option<string>, seen: set<string>)
    ensures IsSubsequence(Dedup(xs, key, seen), xs)
    decreases |xs|
  {
    if xs != [] {
      assert xs == [xs[0]] + xs[1..];
      match key(xs[0])
      case None =>
        DedupSubsequence(xs[1..], key, seen);
        SubsequenceCons(Dedup(xs[1..], key, seen), xs[0], xs[1..]);
      case Some(k) =>
        if k in seen {
          DedupSubsequence(xs[1..], key, seen);
          SubsequenceCons(Dedup(xs[1..], key, seen), xs[0], xs[1..]);
        } else {
          DedupSubsequence(xs[1..], key, seen + {k});
          SubsequenceCons(Dedup(xs[1..], key, seen + {k}), xs[0], xs[1..]);
        }
    }
  }

  lemma {:induction false} DedupKeys<T>(xs: seq<T>, key: T -> Option<string>, seen: set<string>)
    ensures FreshDistinctKeys(Dedup(xs, key, seen), key, seen)
    decreases |xs|
  {
    if xs != [] {
      match key(xs[0])
      case None =>
        DedupKeys(xs[1..], key, seen);
      case Some(k) =>
        if k in seen {
          DedupKeys(xs[1..], key, seen);
        } else {
          var rest := Dedup(xs[1..], key, seen + {k});
          DedupKeys(xs[1..], key, seen + {k});
          var r := [xs[0]] + rest;
          assert forall i :: 1 <= i < |r| ==> r[i] == rest[i - 1];
        }
    }
  }

  /** Some record of `ys` carries key `k`. */
  predicate HasKey<T>(ys: seq<T>, key: T -> Option<string>, k: string)
  {
    exists j :: 0 <= j < |ys| && key(ys[j]) == Some(k)
  }

  /** Every key that occurs in the input (and was not seen before) is represented in the output. */
  lemma {:induction false} DedupComplete<T>(xs: seq<T>, key: T -> Option<string>, seen: set<string>)
    ensures forall i :: 0 <= i < |xs| && key(xs[i]).Some? && key(xs[i]).value !in seen ==>
              HasKey(Dedup(xs, key, seen), key, key(xs[i]).value)
    decreases |xs|
  {
    if xs != [] {
      var tail := xs[1..];
      var r := Dedup(xs, key, seen);
      if key(xs[0]).None? || key(xs[0]).value in seen {
        DedupComplete(tail, key, seen);
        assert r == Dedup(tail, key, seen);
        forall i | 0 <= i < |xs| && key(xs[i]).Some? && key(xs[i]).value !in seen
          ensures HasKey(r, key, key(xs[i]).value)
        {
          assert xs[i] == tail[i - 1];
        }
      } else {
        var k := key(xs[0]).value;
        var rest := Dedup(tail, key, seen + {k});
        assert r == [xs[0]] + rest;
        DedupComplete(tail, key, seen + {k});
        forall i | 0 <= i < |xs| && key(xs[i]).Some? && key(xs[i]).value !in seen
          ensures HasKey(r, key, key(xs[i]).value)
        {
          if key(xs[i]) == Some(k) {
            assert key(r[0]) == key(xs[i]);
          } else {
            assert xs[i] == tail[i - 1];
            assert HasKey(rest, key, key(xs[i]).value);
            var j :| 0 <= j < |rest| && key(rest[j]) == key(xs[i]);
            assert r[j + 1] == rest[j];
          }
        }
      }
    }
  }

  /** The first record of every new key is kept. */
  lemma {:induction false} DedupKeepsFirst<T>(xs: seq<T>, key: T -> Option<string>, seen: set<string>)
    ensures forall i :: 0 <= i < |xs| && FirstOfKey(xs, key, seen, i) ==> xs[i] in Dedup(xs, key, seen)
    decreases |xs|
  {
    if xs != [] {
      var tail := xs[1..];
      var seen' := if key(xs[0]).Some? && key(xs[0]).value !in seen then seen + {key(xs[0]).value} else seen;
      DedupKeepsFirst(tail, key, seen');
      forall i | 0 <= i < |xs| && FirstOfKey(xs, key, seen, i)
        ensures xs[i] in Dedup(xs, key, seen)
      {
        if i > 0 {
          assert xs[i] == tail[i - 1];
          assert key(xs[0]) != key(xs[i]);
          assert FirstOfKey(tail, key, seen', i - 1) by {
            forall j | 0 <= j < i - 1 ensures key(tail[j]) != key(tail[i - 1]) {
              assert tail[j] == xs[j + 1];
            }
          }
        }
      }
    }
  }

  /** Deduplicating a list whose keys are already present, fresh and distinct changes nothing. */
  lemma {:induction false} DedupOfDistinct<T>(ys: seq<T>, key: T -> Option<string>, seen: set<string>)
    requires FreshDistinctKeys(ys, key, seen)
    ensures Dedup(ys, key, seen) == ys
    decreases |ys|
  {
    if ys != [] {
      var k := key(ys[0]).value;
      var tail := ys[1..];
      assert FreshDistinctKeys(tail, key, seen + {k}) by {
        forall i | 0 <= i < |tail| ensures key(tail[i]).Some? && key(tail[i]).value !in seen + {k} {
          assert tail[i] == ys[i + 1];
          assert key(ys[0]) != key(ys[i + 1]);
        }
        forall i, j | 0 <= i < j < |tail| ensures key(tail[i]) != key(tail[j]) {
          assert tail[i] == ys[i + 1] && tail[j] == ys[j + 1];
        }
      }
      DedupOfDistinct(tail, key, seen + {k});
    }
  }

  /** Running the deduplication a second time is a no-op. */
  lemma DedupIdempotent<T>(xs: seq<T>, key: T -> Option<string>)
    ensures Dedup(Dedup(xs, key, {}), key, {}) == Dedup(xs, key, {})
  {
    DedupKeys(xs, key, {});
    DedupOfDistinct(Dedup(xs, key, {}), key, {});
  }

  /** The loop of the source's `deduplicate_*` / `_deduplicate_papers` with its `seen` set. */
  method DedupLoop<T>(xs: seq<T>, key: T -> Option<string>) returns (unique: seq<T>)
    ensures unique == Dedup(xs, key, {})
  {
    var seen: set<string> := {};
    unique := [];
    var i := 0;
    while i < |xs|
      invariant 0 <= i <= |xs|
      invariant unique + Dedup(xs[i..], key, seen) == Dedup(xs, key, {})
    {
      var x := xs[i];
      assert xs[i..][1..] == xs[i + 1..];
      match key(x) {
        case None =>
        case Some(k) =>
          if k !in seen {
            seen := seen + {k};
            unique := unique + [x];
          }
      }
      i := i + 1;
    }
    assert xs[i..] == [];
  }

  // ---------------------------------------------------------------------
  // Year filtering

  /** `year is not None`, and each truthy bound holds. */
  predicate InYearRange(year: Option<int>, start: Option<int>, end: Option<int>)
  {
    year.Some?
    && (Truthy(start) ==> year.value >= start.value)
    && (Truthy(end) ==> year.value <= end.value)
  }

  /** The records whose year is in range, in input order. */
  function KeepInYearRange<T>(xs: seq<T>, year: T -> Option<int>, start: Option<int>, end: Option<int>): (r: seq<T>)
    decreases |xs|
  {
    if xs == [] then []
    else
      KeepInYearRange(xs[..|xs| - 1], year, start, end)
      + (if InYearRange(year(xs[|xs| - 1]), start, end) then [xs[|xs| - 1]] else [])
  }

  /** `_filter_by_year` / `filter_by_year`: the identity when neither bound is truthy. */
  function FilterByYear<T>(xs: seq<T>, year: T -> Option<int>, start: Option<int>, end: Option<int>): (r: seq<T>)
  {
    if !Truthy(start) && !Truthy(end) then xs else KeepInYearRange(xs, year, start, end)
  }

  /** The kept records are exactly the input's records in range, and the filter splits over concatenation (so order and multiplicity are kept). */
  lemma {:induction false} KeepInYearRangeSpec<T>(xs: seq<T>, ys: seq<T>, year: T -> Option<int>, start: Option<int>, end: Option<int>)
    ensures KeepInYearRange(xs + ys, year, start, end)
            == KeepInYearRange(xs, year, start, end) + KeepInYearRange(ys, year, start, end)
    ensures forall x :: x in KeepInYearRange(xs, year, start, end) <==> x in xs && InYearRange(year(x), start, end)
    decreases |ys|
  {
    if ys == [] {
      assert xs + ys == xs;
    } else {
      var ys' := ys[..|ys| - 1];
      assert (xs + ys)[..|xs + ys| - 1] == xs + ys';
      KeepInYearRangeSpec(xs, ys', year, start, end);
    }
    KeepMembership(xs, year, start, end);
  }

  lemma {:induction false} KeepMembership<T>(xs: seq<T>, year: T -> Option<int>, start: Option<int>, end: Option<int>)
    ensures forall x :: x in KeepInYearRange(xs, year, start, end) <==> x in xs && InYearRange(year(x), start, end)
    decreases |xs|
  {
    if xs != [] {
      var init := xs[..|xs| - 1];
      KeepMembership(init, year, start, end);
      assert xs == init + [xs[|xs| - 1]];
    }
  }

  /** Filtering a second time with the same bounds changes nothing. */
  lemma {:induction false} FilterByYearIdempotent<T>(xs: seq<T>, year: T -> Option<int>, start: Option<int>, end: Option<int>)
    ensures FilterByYear(FilterByYear(xs, year, start, end), year, start, end) == FilterByYear(xs, year, start, end)
  {
    if Truthy(start) || Truthy(end) {
      KeepTwice(xs, year, start, end);
    }
  }

  lemma {:induction false} KeepTwice<T>(xs: seq<T>, year: T -> Option<int>, start: Option<int>, end: Option<int>)
    ensures KeepInYearRange(KeepInYearRange(xs, year, start, end), year, start, end) == KeepInYearRange(xs, year, start, end)
    decreases |xs|
  {
    if xs != [] {
      var init := xs[..|xs| - 1];
      var last := xs[|xs| - 1];
      KeepTwice(init, year, start, end);
      var k := KeepInYearRange(init, year, start, end);
      var tailPart := if InYearRange(year(last), start, end) then [last] else [];
      KeepInYearRangeSpec(k, tailPart, year, start, end);
      if tailPart != [] {
        assert tailPart[..0] == [];
      }
    }
  }

  /** The source's filtering loop. */
  method FilterByYearLoop<T>(xs: seq<T>, year: T -> Option<int>, start: Option<int>, end: Option<int>)
    returns (filtered: seq<T>)
    ensures filtered == FilterByYear(xs, year, start, end)
  {
    if !Truthy(start) && !Truthy(end) {
      return xs;
    }
    filtered := [];
    var i := 0;
    while i < |xs|
      invariant 0 <= i <= |xs|
      invariant filtered == KeepInYearRange(xs[..i], year, start, end)
    {
      assert xs[..i + 1][..i] == xs[..i];
      var y := year(xs[i]);
      if y.Some? && !(Truthy(start) && y.value < start.value) && !(Truthy(end) && y.value > end.value) {
        filtered := filtered + [xs[i]];
      }
      i := i + 1;
    }
    assert xs[..i] == xs;
  }

  // ---------------------------------------------------------------------
  // Per-query targets

  /** `max(floor, total // queries)` with Python's floor division. */
  function PerQueryTarget(total: int, queries: nat, floor: int): (r: int)
    requires queries > 0
    ensures r >= floor
    ensures r > floor ==> r * queries <= total < (r + 1) * queries
  {
    Max(floor, total / queries)
  }

  // ---------------------------------------------------------------------
  // The orchestrators' query loop: per query either an exception (None) or a
  // list of papers; extend, and stop after a success that reaches the limit.

  function CollectUntil<T>(outcomes: seq<Option<seq<T>>>, acc: seq<T>, limit: int): (r: seq<T>)
    decreases |outcomes|
  {
    if outcomes == [] then acc
    else
      match outcomes[0]
      case None => CollectUntil(outcomes[1..], acc, limit)
      case Some(papers) =>
        if |acc + papers| >= limit then acc + papers else CollectUntil(outcomes[1..], acc + papers, limit)
  }

  /** How many queries the loop runs before it stops. */
  function CollectStop<T>(outcomes: seq<Option<seq<T>>>, acc: seq<T>, limit: int): (k: nat)
    ensures k <= |outcomes|
    decreases |outcomes|
  {
    if outcomes == [] then 0
    else
      match outcomes[0]
      case None => 1 + CollectStop(outcomes[1..], acc, limit)
      case Some(papers) =>
        if |acc + papers| >= limit then 1 else 1 + CollectStop(outcomes[1..], acc + papers, limit)
  }

  lemma SuccessesPrefixCons<T>(outcomes: seq<Option<seq<T>>>, k: nat)
    requires 0 < |outcomes| && k < |outcomes|
    ensures Successes(outcomes[..k + 1])
            == (if outcomes[0].Some? then outcomes[0].value else []) + Successes(outcomes[1..][..k])
  {
    assert outcomes[..k + 1][1..] == outcomes[1..][..k];
  }

  /** The collected list is exactly what the queries the loop ran returned. */
  lemma {:induction false} CollectUntilRan<T>(outcomes: seq<Option<seq<T>>>, acc: seq<T>, limit: int)
    ensures CollectUntil(outcomes, acc, limit) == acc + Successes(outcomes[..CollectStop(outcomes, acc, limit)])
    decreases |outcomes|
  {
    if outcomes == [] {
      assert outcomes[..0] == [];
    } else {
      var head := outcomes[0];
      var acc' := if head.Some? then acc + head.value else acc;
      if head.Some? && |acc + head.value| >= limit {
        SuccessesPrefixCons(outcomes, 0);
        assert outcomes[1..][..0] == [];
      } else {
        var rest := outcomes[1..];
        var k := CollectStop(rest, acc', limit);
        assert CollectStop(outcomes, acc, limit) == k + 1;
        assert CollectUntil(outcomes, acc, limit) == CollectUntil(rest, acc', limit);
        CollectUntilRan(rest, acc', limit);
        SuccessesPrefixCons(outcomes, k);
        assert acc + Successes(outcomes[..k + 1]) == acc' + Successes(rest[..k]);
      }
    }
  }

  /** The loop stops before the last query only right after a successful query that reached the limit. */
  lemma {:induction false} CollectUntilStopsAtLimit<T>(outcomes: seq<Option<seq<T>>>, acc: seq<T>, limit: int)
    ensures var k := CollectStop(outcomes, acc, limit);
      k < |outcomes| ==> 0 < k && outcomes[k - 1].Some? && |CollectUntil(outcomes, acc, limit)| >= limit
    decreases |outcomes|
  {
    if outcomes != [] {
      var head := outcomes[0];
      if !(head.Some? && |acc + head.value| >= limit) {
        var acc' := if head.Some? then acc + head.value else acc;
        CollectUntilStopsAtLimit(outcomes[1..], acc', limit);
      }
    }
  }

  /** No successful query before the last one run had reached the limit. */
  lemma {:induction false} CollectUntilNoEarlierStop<T>(outcomes: seq<Option<seq<T>>>, acc: seq<T>, limit: int)
    ensures forall j :: 0 <= j < CollectStop(outcomes, acc, limit) - 1 && outcomes[j].Some? ==>
              |acc + Successes(outcomes[..j + 1])| < limit
    decreases |outcomes|
  {
    if outcomes != [] {
      var head := outcomes[0];
      var tail := outcomes[1..];
      if !(head.Some? && |acc + head.value| >= limit) {
        var acc' := if head.Some? then acc + head.value else acc;
        CollectUntilNoEarlierStop(tail, acc', limit);
        forall j | 0 <= j < CollectStop(outcomes, acc, limit) - 1 && outcomes[j].Some?
          ensures |acc + Successes(outcomes[..j + 1])| < limit
        {
          SuccessesPrefixCons(outcomes, j);
          if j == 0 {
            assert tail[..0] == [];
          } else {
            assert outcomes[j] == tail[j - 1];
            SuccessesPrefixCons(tail, j - 1);
            SuccessesPrefixCons(outcomes, j);
            assert acc + Successes(outcomes[..j + 1]) == acc' + Successes(tail[..j]);
          }
        }
      }
    }
  }

  /** The source's `for query in queries: try ... except: continue; if len(all) >= max: break` loop. */
  method CollectUntilLoop<T>(outcomes: seq<Option<seq<T>>>, limit: int) returns (all: seq<T>)
    ensures all == CollectUntil(outcomes, [], limit)
  {
    all := [];
    var i := 0;
    while i < |outcomes|
      invariant 0 <= i <= |outcomes|
      invariant CollectUntil(outcomes[i..], all, limit) == CollectUntil(outcomes, [], limit)
    {
      assert outcomes[i..][1..] == outcomes[i + 1..];
      match outcomes[i] {
        case None =>
          i := i + 1;
          continue;
        case Some(papers) =>
          all := all + papers;
      }
      if |all| >= limit {
        return;
      }
      i := i + 1;
    }
  }

  // ---------------------------------------------------------------------
  // Properties of the year filter and truncation used by the search pipeline

  lemma {:induction false} KeepSubsequence<T>(xs: seq<T>, year: T -> Option<int>, start: Option<int>, end: Option<int>)
    ensures IsSubsequence(KeepInYearRange(xs, year, start, end), xs)
    decreases |xs|
  {
    if xs == [] {
    } else {
      var init := xs[..|xs| - 1];
      var last := xs[|xs| - 1];
      assert xs == init + [last];
      var k := KeepInYearRange(init, year, start, end);
      KeepSubsequence(init, year, start, end);
      SubsequenceSnoc(k, init, last);
      if InYearRange(year(last), start, end) {
        assert KeepInYearRange(xs, year, start, end) == k + [last];
      } else {
        assert KeepInYearRange(xs, year, start, end) == k;
      }
    }
  }

  lemma {:induction false} KeepDistinct<T>(xs: seq<T>, key: T -> Option<string>, year: T -> Option<int>,
                                           start: Option<int>, end: Option<int>)
    requires FreshDistinctKeys(xs, key, {})
    ensures FreshDistinctKeys(KeepInYearRange(xs, year, start, end), key, {})
    decreases |xs|
  {
    if xs != [] {
      var init := xs[..|xs| - 1];
      var last := xs[|xs| - 1];
      assert forall i :: 0 <= i < |init| ==> init[i] == xs[i];
      KeepDistinct(init, key, year, start, end);
      KeepInRange(init, year, start, end);
      var k := KeepInYearRange(init, year, start, end);
      if InYearRange(year(last), start, end) {
        forall i | 0 <= i < |k| ensures key(k[i]) != key(last) {
          var j :| 0 <= j < |init| && init[j] == k[i];
        }
      }
    }
  }

  lemma KeepInRange<T>(xs: seq<T>, year: T -> Option<int>, start: Option<int>, end: Option<int>)
    ensures forall i :: 0 <= i < |KeepInYearRange(xs, year, start, end)| ==>
              InYearRange(year(KeepInYearRange(xs, year, start, end)[i]), start, end)
              && KeepInYearRange(xs, year, start, end)[i] in xs
  {
    KeepMembership(xs, year, start, end);
    var k := KeepInYearRange(xs, year, start, end);
    assert forall i :: 0 <= i < |k| ==> k[i] in k;
  }

  lemma PrefixDistinct<T>(xs: seq<T>, key: T -> Option<string>, n: int)
    requires FreshDistinctKeys(xs, key, {})
    ensures FreshDistinctKeys(PyPrefix(xs, n), key, {})
  {
    var r := PyPrefix(xs, n);
    assert forall i :: 0 <= i < |r| ==> r[i] == xs[i];
  }

  // ---------------------------------------------------------------------
  // The post-fetch pipeline of the searchers' `search`: one fetch per query
  // with the per-query limit max(1, max_results // #queries), concatenation,
  // deduplication, the year filter when a bound is truthy, truncation.

  /** The parts of a search strategy the searchers read: `search_queries` and `year_range`. */
  datatype Strategy = Strategy(queries: seq<string>, yearStart: Option<int>, yearEnd: Option<int>)

  /** `all_papers.extend(papers)` over the queries, each rewritten by `build` before the fetch. */
  function FetchAll<Q, T>(queries: seq<string>, build: string -> Q, fetch: (Q, int) -> seq<T>, perQuery: int): seq<T>
    decreases |queries|
  {
    if queries == [] then []
    else FetchAll(queries[..|queries| - 1], build, fetch, perQuery) + fetch(build(queries[|queries| - 1]), perQuery)
  }

  function SearchResult<Q, T>(queries: seq<string>, maxResults: int, start: Option<int>, end: Option<int>,
                              build: string -> Q, fetch: (Q, int) -> seq<T>,
                              key: T -> Option<string>, year: T -> Option<int>): seq<T>
  {
    if queries == [] then []
    else
      PostFetch(FetchAll(queries, build, fetch, PerQueryTarget(maxResults, |queries|, 1)), maxResults, start, end, key, year)
  }

  /** The year filter keeps order, distinct keys, and only in-range records once a bound is given. */
  lemma FilterByYearSpec<T>(u: seq<T>, key: T -> Option<string>, year: T -> Option<int>, start: Option<int>, end: Option<int>)
    requires FreshDistinctKeys(u, key, {})
    ensures var f := FilterByYear(u, year, start, end);
      && IsSubsequence(f, u)
      && FreshDistinctKeys(f, key, {})
      && (Truthy(start) || Truthy(end) ==> forall i :: 0 <= i < |f| ==> InYearRange(year(f[i]), start, end))
  {
    var f := FilterByYear(u, year, start, end);
    if Truthy(start) || Truthy(end) {
      KeepSubsequence(u, year, start, end);
      KeepDistinct(u, key, year, start, end);
      KeepInRange(u, year, start, end);
    } else {
      SubsequenceOfSelf(u);
    }
  }

  /** Dedup, filter and truncation of the fetched papers `all`. */
  function PostFetch<T>(all: seq<T>, maxResults: int, start: Option<int>, end: Option<int>,
                        key: T -> Option<string>, year: T -> Option<int>): seq<T>
  {
    PyPrefix(FilterByYear(Dedup(all, key, {}), year, start, end), maxResults)
  }

  lemma PostFetchSpec<T>(all: seq<T>, maxResults: int, start: Option<int>, end: Option<int>,
                         key: T -> Option<string>, year: T -> Option<int>)
    ensures var r := PostFetch(all, maxResults, start, end, key, year);
      && (maxResults >= 0 ==> |r| <= maxResults)
      && IsSubsequence(r, all)
      && FreshDistinctKeys(r, key, {})
      && (Truthy(start) || Truthy(end) ==> forall i :: 0 <= i < |r| ==> InYearRange(year(r[i]), start, end))
  {
    var u := Dedup(all, key, {});
    var f := FilterByYear(u, year, start, end);
    var r := PyPrefix(f, maxResults);
    DedupSubsequence(all, key, {});
    DedupKeys(all, key, {});
    FilterByYearSpec(u, key, year, start, end);
    SubsequenceTrans(f, u, all);
    PrefixIsSubsequence(f, |r|);
    SubsequenceTrans(r, f, all);
    PrefixDistinct(f, key, maxResults);
  }

  /**
   * No queries gives no papers; otherwise the result keeps fetched papers in
   * order, at most `max_results` of them, with distinct identity keys, and
   * within the year range whenever a bound is given.
   */
  lemma SearchResultSpec<Q, T>(queries: seq<string>, maxResults: int, start: Option<int>, end: Option<int>,
                               build: string -> Q, fetch: (Q, int) -> seq<T>,
                               key: T -> Option<string>, year: T -> Option<int>)
    ensures var r := SearchResult(queries, maxResults, start, end, build, fetch, key, year);
      && (queries == [] ==> r == [])
      && (maxResults >= 0 ==> |r| <= maxResults)
      && (queries != [] ==> IsSubsequence(r, FetchAll(queries, build, fetch, PerQueryTarget(maxResults, |queries|, 1))))
      && FreshDistinctKeys(r, key, {})
      && (Truthy(start) || Truthy(end) ==> forall i :: 0 <= i < |r| ==> InYearRange(year(r[i]), start, end))
  {
    if queries != [] {
      PostFetchSpec(FetchAll(queries, build, fetch, PerQueryTarget(maxResults, |queries|, 1)), maxResults, start, end, key, year);
    }
  }

  /** The source's `search` body after each fetch: the query loop, then dedup, filter and truncation. */
  method Search<Q, T>(queries: seq<string>, maxResults: int, start: Option<int>, end: Option<int>,
                      build: string -> Q, fetch: (Q, int) -> seq<T>,
                      key: T -> Option<string>, year: T -> Option<int>) returns (papers: seq<T>)
    ensures papers == SearchResult(queries, maxResults, start, end, build, fetch, key, year)
  {
    if queries == [] {
      return [];
    }
    var perQuery := Max(1, maxResults / |queries|);
    var all: seq<T> := [];
    var i := 0;
    while i < |queries|
      invariant 0 <= i <= |queries|
      invariant all == FetchAll(queries[..i], build, fetch, perQuery)
    {
      assert queries[..i + 1][..i] == queries[..i];
      var fetched := fetch(build(queries[i]), perQuery);
      if fetched != [] {
        all := all + fetched;
      }
      i := i + 1;
    }
    assert queries[..i] == queries;
    var unique := DedupLoop(all, key);
    if Truthy(start) || Truthy(end) {
      unique := FilterByYearLoop(unique, year, start, end);
    }
    papers := PyPrefix(unique, maxResults);
  }

  // ---------------------------------------------------------------------
  // Publication year

  /**
   * `_extract_year_from_date(date_string)` of the arXiv and government
   * searchers: nothing for the empty string, otherwise the first four-digit
   * run. When `datetime.fromisoformat` accepts the string, the string starts
   * with the four-digit year, which is then also the first four-digit run,
   * so both paths of the source give this value.
   */
  function DateYear(date: string): (r: Option<int>)
  {
    if date == "" then None else FirstFourDigitNumber(date)
  }

  /** No year without a date or without four digits in a row; an ISO date yields its leading year. */
  lemma DateYearSpec(date: string, y: int, rest: string)
    ensures date == "" ==> DateYear(date) == None
    ensures DateYear(date).Some? ==> 0 <= DateYear(date).value <= 9999
    ensures (forall j :: !FourDigitsAt(date, j)) ==> DateYear(date) == None
    ensures 1000 <= y <= 9999 ==> DateYear(IntToString(y) + rest) == Some(y)
  {
    if 1000 <= y <= 9999 {
      YearRoundTrip(y, rest);
      NatToStringLength4(y);
    }
  }

  // ---------------------------------------------------------------------
  // The orchestrators' collection: query loop, title dedup, truncation

  /** `paper.get('title', '').lower().strip()` as an identity key, when non-empty. */
  function TitleKey(title: Option<string>): Option<string>
  {
    var t := Strip(Lower(GetOr(title, "")));
    if t != "" then Some(t) else None
  }

  /** What each query of the loop yields: the search's papers, or None when the search raised. */
  function QueryOutcomes<T>(queries: seq<string>, perQuery: int, search: (string, int) -> Option<seq<T>>): seq<Option<seq<T>>>
  {
    seq(|queries|, i requires 0 <= i < |queries| => search(queries[i], perQuery))
  }

  /** No queries collect nothing; otherwise the loop runs with `max(5, max_papers // #queries)` per query, then dedup and `[:max_papers]`. */
  function Collected<T>(queries: seq<string>, maxPapers: int, search: (string, int) -> Option<seq<T>>,
                        key: T -> Option<string>): seq<T>
  {
    if queries == [] then []
    else
      var outcomes := QueryOutcomes(queries, PerQueryTarget(maxPapers, |queries|, 5), search);
      PyPrefix(Dedup(CollectUntil(outcomes, [], maxPapers), key, {}), maxPapers)
  }

  /**
   * No queries give no papers. Otherwise each query asks for at least five
   * papers, the loop runs the queries in order and stops early only once
   * `max_papers` papers are collected, and the result keeps, in order and
   * with distinct keys, at most `max_papers` of the papers returned by the
   * queries that ran.
   */
  lemma CollectedSpec<T>(queries: seq<string>, maxPapers: int, search: (string, int) -> Option<seq<T>>,
                         key: T -> Option<string>)
    ensures queries == [] ==> Collected(queries, maxPapers, search, key) == []
    ensures queries != [] ==> PerQueryTarget(maxPapers, |queries|, 5) >= 5
    ensures maxPapers >= 0 ==> |Collected(queries, maxPapers, search, key)| <= maxPapers
    ensures FreshDistinctKeys(Collected(queries, maxPapers, search, key), key, {})
    ensures queries != [] ==>
              var outcomes := QueryOutcomes(queries, PerQueryTarget(maxPapers, |queries|, 5), search);
              var ran := CollectStop(outcomes, [], maxPapers);
              IsSubsequence(Collected(queries, maxPapers, search, key), Successes(outcomes[..ran]))
              && (ran < |queries| ==> |CollectUntil(outcomes, [], maxPapers)| >= maxPapers)
  {
    if queries != [] {
      var outcomes := QueryOutcomes(queries, PerQueryTarget(maxPapers, |queries|, 5), search);
      var all := CollectUntil(outcomes, [], maxPapers);
      var u := Dedup(all, key, {});
      var r := PyPrefix(u, maxPapers);
      CollectUntilRan(outcomes, [], maxPapers);
      assert all == Successes(outcomes[..CollectStop(outcomes, [], maxPapers)]);
      CollectUntilStopsAtLimit(outcomes, [], maxPapers);
      DedupSubsequence(all, key, {});
      DedupKeys(all, key, {});
      PrefixIsSubsequence(u, |r|);
      SubsequenceTrans(r, u, all);
      PrefixDistinct(u, key, maxPapers);
    }
  }

  /** `search_and_collect` / `_step3_search_papers` after each search: the query loop, then dedup and truncation. */
  method Collect<T>(queries: seq<string>, maxPapers: int, search: (string, int) -> Option<seq<T>>,
                    key: T -> Option<string>) returns (papers: seq<T>)
    ensures papers == Collected(queries, maxPapers, search, key)
  {
    if queries == [] {
      return [];
    }
    var perQuery := Max(5, maxPapers / |queries|);
    var all := CollectUntilLoop(QueryOutcomes(queries, perQuery, search), maxPapers);
    var unique := DedupLoop(all, key);
    papers := PyPrefix(unique, maxPapers);
  }
}
