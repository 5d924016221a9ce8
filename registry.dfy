/**
 * The pluggable source registry of the lightweight system: sources kept in
 * an insertion-ordered dictionary keyed by their id, with registration,
 * removal, lookup, listing by category, and the choice of sources and the
 * keying of results for a search.
 */
module Registry {
  import opened Common
  import Dicts

  datatype Category = Academic | Government | InternationalOrg | HumanRights | ThinkTank | News | General

  /** `SourceInfo`. */
  datatype SourceInfo = SourceInfo(id: string, name: string, category: Category, description: string,
                                   domains: seq<string>, requiresApiKey: bool)

  /** A source as the registry sees it: its fixed description. Its search is a parameter of `Search`. */
  datatype Source = Source(info: SourceInfo)

  /** The registry's dictionary: each source stored under its own id. */
  predicate WellKeyed(d: Dicts.ODict<Source>)
  {
    Dicts.Valid(d) && forall id :: id in d.values ==> d.values[id].info.id == id
  }

  /** A registered id is the id of the source stored at one of the key positions, and only those are. */
  lemma ListedIds(d: Dicts.ODict<Source>, id: string)
    requires WellKeyed(d)
    ensures id in d.values <==> exists i :: 0 <= i < |d.keys| && d.values[d.keys[i]].info.id == id
  {
    assert id in d.values <==> id in d.keys;
    if id in d.keys {
      var i :| 0 <= i < |d.keys| && d.keys[i] == id;
      assert d.values[d.keys[i]].info.id == id;
    }
  }

  // ---------------------------------------------------------------------
  // Queries on the dictionary

  /** The registered sources, in registration order of their ids. */
  function AllSources(d: Dicts.ODict<Source>): seq<Source>
    requires Dicts.Valid(d)
  {
    Dicts.Values(d)
  }

  /** `[s.info for s in self._sources.values()]`. */
  function Infos(sources: seq<Source>): (r: seq<SourceInfo>)
    ensures |r| == |sources| && forall i :: 0 <= i < |sources| ==> r[i] == sources[i].info
  {
    seq(|sources|, i requires 0 <= i < |sources| => sources[i].info)
  }

  /** The sources of one category, in order. */
  function OfCategory(sources: seq<Source>, c: Category): seq<Source>
  {
    if sources == [] then []
    else (if sources[0].info.category == c then [sources[0]] else []) + OfCategory(sources[1..], c)
  }

  /** `OfCategory` keeps exactly the sources of the category, in their order. */
  lemma {:induction false} OfCategorySpec(sources: seq<Source>, c: Category)
    ensures forall s :: s in OfCategory(sources, c) <==> s in sources && s.info.category == c
    ensures IsSubsequence(OfCategory(sources, c), sources)
    decreases |sources|
  {
    if sources != [] {
      var rest := OfCategory(sources[1..], c);
      OfCategorySpec(sources[1..], c);
      assert sources == [sources[0]] + sources[1..];
      SubsequenceCons(rest, sources[0], sources[1..]);
      if sources[0].info.category != c {
        assert OfCategory(sources, c) == rest;
      }
    }
  }

  /** `[self._sources[sid] for sid in source_ids if sid in self._sources]`. */
  function Lookup(d: Dicts.ODict<Source>, ids: seq<string>): seq<Source>
  {
    if ids == [] then []
    else (if ids[0] in d.values then [d.values[ids[0]]] else []) + Lookup(d, ids[1..])
  }

  /** A looked-up source is the one registered under a requested id; every requested registered id is looked up. */
  lemma {:induction false} LookupSpec(d: Dicts.ODict<Source>, ids: seq<string>)
    requires WellKeyed(d)
    ensures forall s :: s in Lookup(d, ids) ==> s.info.id in ids && s.info.id in d.values && d.values[s.info.id] == s
    ensures forall id :: id in ids && id in d.values ==> d.values[id] in Lookup(d, ids)
    ensures |Lookup(d, ids)| <= |ids|
    decreases |ids|
  {
    if ids != [] {
      LookupSpec(d, ids[1..]);
      assert forall id :: id in ids ==> id == ids[0] || id in ids[1..];
    }
  }

  /** The lookup keeps the requested order and repeats: a list's result is its halves' results one after the other. */
  lemma {:induction false} LookupAppend(d: Dicts.ODict<Source>, a: seq<string>, b: seq<string>)
    ensures Lookup(d, a + b) == Lookup(d, a) + Lookup(d, b)
    decreases |a|
  {
    if a == [] {
      assert a + b == b;
    } else {
      assert (a + b)[0] == a[0];
      assert (a + b)[1..] == a[1..] + b;
      LookupAppend(d, a[1..], b);
    }
  }

  /** One requested id gives its source when it is registered and nothing otherwise. */
  lemma LookupSingle(d: Dicts.ODict<Source>, id: string)
    ensures Lookup(d, [id]) == if id in d.values then [d.values[id]] else []
  {
    assert [id][1..] == [];
  }

  /** The sources `search` uses: the registered ones among `source_ids`, or all of them when that is None or empty. */
  function SelectSources(d: Dicts.ODict<Source>, sourceIds: Option<seq<string>>): seq<Source>
    requires Dicts.Valid(d)
  {
    if sourceIds.Some? && sourceIds.value != [] then Lookup(d, sourceIds.value) else AllSources(d)
  }

  /** `{sid: results for sid, results in results_list}`: a failed search (None) gives [], a later entry for an id wins. */
  function ResultsMap<R>(sources: seq<Source>, query: string, maxResults: int,
                         run: (Source, string, int) -> Option<seq<R>>): map<string, seq<R>>
    decreases |sources|
  {
    if sources == [] then map[]
    else
      var last := sources[|sources| - 1];
      ResultsMap(sources[..|sources| - 1], query, maxResults, run)[last.info.id := GetOr(run(last, query, maxResults), [])]
  }

  /** The results are keyed by the ids of the searched sources, and a source's id maps to its results or []. */
  lemma {:induction false} ResultsMapSpec<R>(sources: seq<Source>, query: string, maxResults: int,
                                             run: (Source, string, int) -> Option<seq<R>>)
    ensures ResultsMap(sources, query, maxResults, run).Keys == set s | s in sources :: s.info.id
    ensures forall id :: id in ResultsMap(sources, query, maxResults, run) ==>
              exists s :: s in sources && s.info.id == id
                && ResultsMap(sources, query, maxResults, run)[id] == GetOr(run(s, query, maxResults), [])
    decreases |sources|
  {
    if sources != [] {
      var init := sources[..|sources| - 1];
      ResultsMapSpec(init, query, maxResults, run);
      assert sources == init + [sources[|sources| - 1]];
      assert forall s :: s in sources <==> s in init || s == sources[|sources| - 1];
    }
  }

  /** The results of searching `sources`, {} when there are none. */
  function SearchResults<R>(sources: seq<Source>, query: string, maxResults: int,
                            run: (Source, string, int) -> Option<seq<R>>): map<string, seq<R>>
  {
    if sources == [] then map[] else ResultsMap(sources, query, maxResults, run)
  }

  /**
   * On a well-keyed dictionary, every searched id is a registered one that
   * was requested (any registered id when none are requested), every
   * requested registered id is searched, and its results are its source's
   * results or [] when that search raised.
   */
  lemma SearchSpec<R>(d: Dicts.ODict<Source>, sourceIds: Option<seq<string>>, query: string, maxResults: int,
                      run: (Source, string, int) -> Option<seq<R>>)
    requires WellKeyed(d)
    ensures forall id :: id in SearchResults(SelectSources(d, sourceIds), query, maxResults, run) ==>
              id in d.values
              && SearchResults(SelectSources(d, sourceIds), query, maxResults, run)[id]
                 == GetOr(run(d.values[id], query, maxResults), [])
    ensures sourceIds.Some? && sourceIds.value != [] ==>
              forall id :: id in d.values ==>
                (id in SearchResults(SelectSources(d, sourceIds), query, maxResults, run) <==> id in sourceIds.value)
    ensures sourceIds.None? || sourceIds.value == [] ==>
              SearchResults(SelectSources(d, sourceIds), query, maxResults, run).Keys == d.values.Keys
  {
    var sel := SelectSources(d, sourceIds);
    SelectedSources(d, sourceIds);
    assert SearchResults(sel, query, maxResults, run) == ResultsMap(sel, query, maxResults, run);
    ResultsOfRegistered(d, sel, query, maxResults, run);
  }

  /** Searching registered sources keys each result by its source's registered id. */
  lemma ResultsOfRegistered<R>(d: Dicts.ODict<Source>, sel: seq<Source>, query: string, maxResults: int,
                               run: (Source, string, int) -> Option<seq<R>>)
    requires WellKeyed(d)
    requires forall s :: s in sel ==> s.info.id in d.values && d.values[s.info.id] == s
    ensures forall id :: id in ResultsMap(sel, query, maxResults, run) ==>
              id in d.values && ResultsMap(sel, query, maxResults, run)[id] == GetOr(run(d.values[id], query, maxResults), [])
    ensures forall id :: id in d.values ==> (id in ResultsMap(sel, query, maxResults, run) <==> d.values[id] in sel)
  {
    var r := ResultsMap(sel, query, maxResults, run);
    ResultsMapSpec(sel, query, maxResults, run);
    forall id | id in r ensures id in d.values && r[id] == GetOr(run(d.values[id], query, maxResults), []) {
      var s :| s in sel && s.info.id == id && r[id] == GetOr(run(s, query, maxResults), []);
    }
    forall id | id in d.values ensures id in r <==> d.values[id] in sel {
      if d.values[id] in sel {
        assert d.values[id].info.id == id;
      }
      if id in r {
        var s :| s in sel && s.info.id == id;
      }
    }
  }

  /**
   * The selected sources are registered ones; with ids requested, a
   * registered source is selected exactly when its id was requested, and
   * without, every registered source is.
   */
  lemma SelectedSources(d: Dicts.ODict<Source>, sourceIds: Option<seq<string>>)
    requires WellKeyed(d)
    ensures forall s :: s in SelectSources(d, sourceIds) ==> s.info.id in d.values && d.values[s.info.id] == s
    ensures sourceIds.Some? && sourceIds.value != [] ==>
              forall id :: id in d.values ==> (d.values[id] in SelectSources(d, sourceIds) <==> id in sourceIds.value)
    ensures sourceIds.None? || sourceIds.value == [] ==>
              forall id :: id in d.values ==> d.values[id] in SelectSources(d, sourceIds)
  {
    if sourceIds.Some? && sourceIds.value != [] {
      LookupSpec(d, sourceIds.value);
    } else {
      Dicts.ValuesSpec(d);
    }
  }

  // ---------------------------------------------------------------------
  // Search by category

  /** The ids searched by `search_by_category`: those of the category's sources. */
  function CategoryIds(d: Dicts.ODict<Source>, c: Category): seq<string>
    requires Dicts.Valid(d)
  {
    var sources := OfCategory(AllSources(d), c);
    seq(|sources|, i requires 0 <= i < |sources| => sources[i].info.id)
  }

  /** `search_by_category` as written: the category's ids passed on as `source_ids`. */
  function CategorySearchAsWritten<R>(d: Dicts.ODict<Source>, c: Category, query: string, maxResults: int,
                                      run: (Source, string, int) -> Option<seq<R>>): map<string, seq<R>>
    requires Dicts.Valid(d)
  {
    SearchResults(SelectSources(d, Some(CategoryIds(d, c))), query, maxResults, run)
  }

  /**
   * With no source of the category registered, the id list is empty, which
   * `search` reads as "no filter": every registered source is searched.
   */
  lemma EmptyCategorySearchesAll<R>(d: Dicts.ODict<Source>, c: Category, query: string, maxResults: int,
                                    run: (Source, string, int) -> Option<seq<R>>)
    requires WellKeyed(d)
    requires OfCategory(AllSources(d), c) == [] && d.keys != []
    ensures CategorySearchAsWritten(d, c, query, maxResults, run).Keys == d.values.Keys
    ensures CategorySearchAsWritten(d, c, query, maxResults, run) != map[]
  {
    SearchSpec(d, Some(CategoryIds(d, c)), query, maxResults, run);
    assert d.keys[0] in d.values;
  }

  /** `search_by_category` as evidently intended: only the category's sources are searched. */
  function CategorySearch<R>(d: Dicts.ODict<Source>, c: Category, query: string, maxResults: int,
                             run: (Source, string, int) -> Option<seq<R>>): map<string, seq<R>>
    requires Dicts.Valid(d)
  {
    SearchResults(OfCategory(AllSources(d), c), query, maxResults, run)
  }

  /**
   * The intended search covers exactly the registered sources of the
   * category, with their results or []; no source of the category gives {}.
   */
  lemma CategorySearchSpec<R>(d: Dicts.ODict<Source>, c: Category, query: string, maxResults: int,
                              run: (Source, string, int) -> Option<seq<R>>)
    requires WellKeyed(d)
    ensures var r := CategorySearch(d, c, query, maxResults, run);
            (forall id :: id in r <==> id in d.values && d.values[id].info.category == c)
            && (forall id :: id in r ==> r[id] == GetOr(run(d.values[id], query, maxResults), []))
    ensures OfCategory(AllSources(d), c) == [] ==> CategorySearch(d, c, query, maxResults, run) == map[]
  {
    var sel := OfCategory(AllSources(d), c);
    ResultsMapSpec(sel, query, maxResults, run);
    OfCategorySpec(AllSources(d), c);
    Dicts.ValuesSpec(d);
    forall id | id in d.values && d.values[id].info.category == c
      ensures id in CategorySearch(d, c, query, maxResults, run)
    {
      assert d.values[id] in sel;
    }
  }

  // ---------------------------------------------------------------------
  // Registration and removal

  /**
   * Registering stores the source under its id, grows the registry by one
   * exactly when the id was new (an existing id keeps its place), and leaves
   * every other entry as it was.
   */
  lemma RegisterSpec(d: Dicts.ODict<Source>, source: Source)
    requires WellKeyed(d)
    ensures var r := Dicts.Put(d, source.info.id, source);
            WellKeyed(r) && source.info.id in r.values && r.values[source.info.id] == source
            && |r.keys| == |d.keys| + (if source.info.id in d.values then 0 else 1)
            && (forall id :: id != source.info.id ==> (id in r.values <==> id in d.values))
            && (forall id :: id != source.info.id && id in d.values ==> r.values[id] == d.values[id])
  {
  }

  /** Removing a registered id takes out that entry only, shrinking the registry by one. */
  lemma UnregisterSpec(d: Dicts.ODict<Source>, id: string)
    requires WellKeyed(d) && id in d.values
    ensures var r := Dicts.Delete(d, id);
            WellKeyed(r) && id !in r.values && |r.keys| == |d.keys| - 1
            && (forall k :: k != id ==> (k in r.values <==> k in d.values))
            && (forall k :: k != id && k in d.values ==> r.values[k] == d.values[k])
  {
    Dicts.WithoutSpec(d.keys, id);
  }

  // ---------------------------------------------------------------------
  // The registry

  class SourceRegistry {
    var sources: Dicts.ODict<Source>

    ghost predicate Valid()
      reads this
    {
      WellKeyed(sources)
    }

    constructor()
      ensures Valid() && sources == Dicts.ODict([], map[])
    {
      sources := Dicts.ODict([], map[]);
    }

    /** `register(source)`: stored under its id, overwriting in place when the id is taken. */
    method Register(source: Source)
      requires Valid()
      modifies this
      ensures Valid()
      ensures sources == Dicts.Put(old(sources), source.info.id, source)
    {
      sources := Dicts.Put(sources, source.info.id, source);
    }

    /** `unregister(source_id)`: True and the entry removed when the id is registered, False and no change otherwise. */
    method Unregister(id: string) returns (removed: bool)
      requires Valid()
      modifies this
      ensures Valid()
      ensures removed == (id in old(sources.values))
      ensures sources == if removed then Dicts.Delete(old(sources), id) else old(sources)
    {
      if id in sources.values {
        sources := Dicts.Delete(sources, id);
        return true;
      }
      return false;
    }

    /** `get(source_id)`. */
    function Get(id: string): (r: Option<Source>)
      reads this
      ensures r.Some? <==> id in sources.values
      ensures r.Some? ==> r.value == sources.values[id]
    {
      if id in sources.values then Some(sources.values[id]) else None
    }

    /** `list_sources()`: one info per registered id, in registration order. */
    function ListSources(): (r: seq<SourceInfo>)
      reads this
      requires Valid()
      ensures |r| == |sources.keys|
      ensures forall i :: 0 <= i < |r| ==> r[i] == sources.values[sources.keys[i]].info
    {
      Infos(AllSources(sources))
    }

    /** `get_by_category(category)`. */
    function GetByCategory(c: Category): seq<Source>
      reads this
      requires Valid()
    {
      OfCategory(AllSources(sources), c)
    }

    /** `__len__()`. */
    function Len(): (n: nat)
      reads this
      requires Valid()
      ensures n == |sources.values|
    {
      Dicts.ValuesSpec(sources);
      KeysCount(sources);
      |sources.keys|
    }

    /** `__contains__(source_id)`: the ids `get` finds are exactly the ids `list_sources` lists. */
    predicate Has(id: string): (b: bool)
      reads this
      requires Valid()
      ensures b <==> Get(id).Some?
      ensures b <==> exists i :: 0 <= i < |ListSources()| && ListSources()[i].id == id
    {
      ListedIds(sources, id);
      var listed := ListSources();
      assert forall i :: 0 <= i < |listed| ==> listed[i].id == sources.values[sources.keys[i]].info.id;
      id in sources.values
    }

    /** `search(query, source_ids, max_results_per_source)`, the sources' searches run one after another as `run`. */
    method Search<R>(query: string, sourceIds: Option<seq<string>>, maxResults: int,
                     run: (Source, string, int) -> Option<seq<R>>) returns (results: map<string, seq<R>>)
      requires Valid()
      ensures results == SearchResults(SelectSources(sources, sourceIds), query, maxResults, run)
    {
      var selected := SelectSources(sources, sourceIds);
      if selected == [] {
        return map[];
      }
      results := map[];
      var i := 0;
      while i < |selected|
        invariant 0 <= i <= |selected|
        invariant results == ResultsMap(selected[..i], query, maxResults, run)
      {
        assert selected[..i + 1][..i] == selected[..i];
        results := results[selected[i].info.id := GetOr(run(selected[i], query, maxResults), [])];
        i := i + 1;
      }
      assert selected[..i] == selected;
    }

    /** `search_by_category(query, category, max_results_per_source)` as written. */
    method SearchByCategory<R>(query: string, c: Category, maxResults: int,
                               run: (Source, string, int) -> Option<seq<R>>) returns (results: map<string, seq<R>>)
      requires Valid()
      ensures results == CategorySearchAsWritten(sources, c, query, maxResults, run)
    {
      results := Search(query, Some(CategoryIds(sources, c)), maxResults, run);
    }
  }

  /** A valid dictionary has one key per entry. */
  lemma KeysCount(d: Dicts.ODict<Source>)
    requires Dicts.Valid(d)
    ensures |d.keys| == |d.values|
  {
    DistinctCard(d.keys);
  }

  /** A list of distinct strings has as many elements as its set. */
  lemma {:induction false} DistinctCard(keys: seq<string>)
    requires forall a, b :: 0 <= a < b < |keys| ==> keys[a] != keys[b]
    ensures |set k | k in keys| == |keys|
    decreases |keys|
  {
    if keys != [] {
      var tail := keys[1..];
      assert forall a, b :: 0 <= a < b < |tail| ==> tail[a] != tail[b] by {
        forall a, b | 0 <= a < b < |tail| ensures tail[a] != tail[b] {
          assert tail[a] == keys[a + 1] && tail[b] == keys[b + 1];
        }
      }
      DistinctCard(tail);
      assert keys[0] !in tail by {
        forall b | 0 <= b < |tail| ensures tail[b] != keys[0] {
          assert tail[b] == keys[b + 1];
        }
      }
      assert (set k | k in keys) == (set k | k in tail) + {keys[0]};
    }
  }
}
