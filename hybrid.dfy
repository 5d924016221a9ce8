/**
 * The deterministic parts of the lightweight hybrid research system: the
 * validation of the engine ratios the language model proposes, the number
 * of papers asked of each engine, the combined query, the merge of the
 * three engines' results, the title deduplication with truncation, and the
 * per-paper reports.
 */
module Hybrid {
  import opened Common
  import opened Strs
  import Records

  // ---------------------------------------------------------------------
  // Engine ratios

  /** The parsed reply of the language model: each ratio key may be missing. */
  datatype RatioStrategy = RatioStrategy(arxiv: Option<int>, semanticScholar: Option<int>, ieee: Option<int>,
                                         reasoning: Option<string>)

  const DefaultReasoning := "デフォルト戦略"
  const ParseErrorReasoning := "デフォルト戦略（パースエラー）"

  /** The 50/30/20 split used whenever the reply is unusable. */
  function DefaultStrategy(reasoning: string): RatioStrategy
  {
    RatioStrategy(Some(50), Some(30), Some(20), Some(reasoning))
  }

  /** `get('arxiv_ratio', 0) + get('semantic_scholar_ratio', 0) + get('ieee_ratio', 0)`. */
  function RatioTotal(s: RatioStrategy): int
  {
    GetOr(s.arxiv, 0) + GetOr(s.semanticScholar, 0) + GetOr(s.ieee, 0)
  }

  /**
   * The end of `_determine_search_strategy`: a reply that could not be
   * parsed (None) or whose ratios do not add up to 100 is replaced by the
   * default split; any other reply is returned as it is.
   */
  function ValidateStrategy(reply: Option<RatioStrategy>): RatioStrategy
  {
    match reply
    case None => DefaultStrategy(ParseErrorReasoning)
    case Some(s) => if RatioTotal(s) != 100 then DefaultStrategy(DefaultReasoning) else s
  }

  /**
   * The validated strategy's ratios always add up to 100 (missing ones
   * counting as 0); a parsed reply that adds up to 100 is kept unchanged,
   * and every other reply gives 50/30/20 with the reason of the fallback.
   */
  lemma ValidateStrategySpec(reply: Option<RatioStrategy>)
    ensures RatioTotal(ValidateStrategy(reply)) == 100
    ensures reply.Some? && RatioTotal(reply.value) == 100 ==> ValidateStrategy(reply) == reply.value
    ensures reply.None? ==> ValidateStrategy(reply) == RatioStrategy(Some(50), Some(30), Some(20), Some(ParseErrorReasoning))
    ensures reply.Some? && RatioTotal(reply.value) != 100 ==>
              ValidateStrategy(reply) == RatioStrategy(Some(50), Some(30), Some(20), Some(DefaultReasoning))
  {
  }

  /** The three ratios once every key is known. */
  datatype Ratios = Ratios(arxiv: int, semanticScholar: int, ieee: int)

  /** `run_research` and `_parallel_search` read the ratios by subscript: a missing key raises (None). */
  function ReadRatios(s: RatioStrategy): Option<Ratios>
  {
    if s.arxiv.Some? && s.semanticScholar.Some? && s.ieee.Some? then
      Some(Ratios(s.arxiv.value, s.semanticScholar.value, s.ieee.value))
    else None
  }

  /**
   * A reply missing one ratio passes the validation when the other two add
   * up to 100, and the subscripts that read it afterwards then raise.
   */
  lemma MissingRatioAccepted(reply: Option<RatioStrategy>)
    requires reply == Some(RatioStrategy(Some(60), Some(40), None, None))
    ensures ValidateStrategy(reply) == reply.value
    ensures ReadRatios(ValidateStrategy(reply)).None?
  {
  }

  /** The validated ratios with a missing key read as 0, as the validation counts it. */
  function ResolveRatios(reply: Option<RatioStrategy>): Ratios
  {
    var s := ValidateStrategy(reply);
    Ratios(GetOr(s.arxiv, 0), GetOr(s.semanticScholar, 0), GetOr(s.ieee, 0))
  }

  /**
   * The resolved ratios add up to 100 for every reply, and agree with the
   * subscripted reads whenever those succeed.
   */
  lemma ResolveRatiosSpec(reply: Option<RatioStrategy>)
    ensures var r := ResolveRatios(reply); r.arxiv + r.semanticScholar + r.ieee == 100
    ensures ReadRatios(ValidateStrategy(reply)).Some? ==> ReadRatios(ValidateStrategy(reply)).value == ResolveRatios(reply)
  {
    ValidateStrategySpec(reply);
  }

  // ---------------------------------------------------------------------
  // Per-engine counts

  /** Python's `int(n / d)` for a positive `d`: the quotient truncated toward zero. */
  function TruncDiv(n: int, d: int): int
    requires d > 0
  {
    if n >= 0 then n / d else -((-n) / d)
  }

  /** `int(self.max_papers * ratio / 100)`. */
  function EngineCount(maxPapers: int, ratio: int): int
  {
    TruncDiv(maxPapers * ratio, 100)
  }

  /** The papers asked of arXiv, Semantic Scholar and IEEE. */
  function EngineCounts(maxPapers: int, r: Ratios): Ratios
  {
    Ratios(EngineCount(maxPapers, r.arxiv), EngineCount(maxPapers, r.semanticScholar), EngineCount(maxPapers, r.ieee))
  }

  /** For a non-negative ratio, the count is the largest `c` with `100 * c <= maxPapers * ratio`. */
  lemma EngineCountSpec(maxPapers: int, ratio: int)
    requires maxPapers >= 0 && ratio >= 0
    ensures var c := EngineCount(maxPapers, ratio);
            c >= 0 && 100 * c <= maxPapers * ratio < 100 * (c + 1)
  {
    assert maxPapers * ratio >= 0;
  }

  /**
   * With non-negative ratios adding up to 100, the three counts are at most
   * `max_papers` in total, and lose less than 3 papers to the truncation.
   */
  lemma EngineCountsSum(maxPapers: int, r: Ratios)
    requires maxPapers >= 0 && r.arxiv >= 0 && r.semanticScholar >= 0 && r.ieee >= 0
    requires r.arxiv + r.semanticScholar + r.ieee == 100
    ensures var c := EngineCounts(maxPapers, r);
            maxPapers - 3 < c.arxiv + c.semanticScholar + c.ieee <= maxPapers
  {
    var c := EngineCounts(maxPapers, r);
    EngineCountSpec(maxPapers, r.arxiv);
    EngineCountSpec(maxPapers, r.semanticScholar);
    EngineCountSpec(maxPapers, r.ieee);
    Distribute3(maxPapers, r.arxiv, r.semanticScholar, r.ieee);
  }

  lemma Distribute3(m: int, a: int, b: int, c: int)
    ensures m * a + m * b + m * c == m * (a + b + c)
  {
  }

  /** The default split asks ten papers as 5, 3 and 2. */
  lemma DefaultCounts()
    ensures EngineCounts(10, ResolveRatios(None)) == Ratios(5, 3, 2)
  {
  }

  // ---------------------------------------------------------------------
  // The parallel search

  /** The keys of a lightweight searcher's paper that the hybrid system reads. */
  datatype LitePaper = LitePaper(title: string, authors: seq<string>, publishedDate: string, url: string,
                                 abstractText: Option<string>, source: string)

  /** One engine's `search_papers(query, year_start, year_end, count)`; None when it raised. */
  type Engine = (string, Option<int>, Option<int>, int) -> Option<seq<LitePaper>>

  const QuerySeparator := " OR "

  /** `' OR '.join(keywords)`. */
  function SearchQuery(keywords: seq<string>): string
  {
    Join(keywords, QuerySeparator)
  }

  /** The query holds every keyword; one keyword is the query itself and none gives the empty query. */
  lemma SearchQuerySpec(keywords: seq<string>)
    ensures forall k :: 0 <= k < |keywords| ==> Contains(SearchQuery(keywords), keywords[k])
    ensures |keywords| == 1 ==> SearchQuery(keywords) == keywords[0]
    ensures keywords == [] ==> SearchQuery(keywords) == ""
  {
    forall k | 0 <= k < |keywords| ensures Contains(SearchQuery(keywords), keywords[k]) {
      JoinContains(keywords, QuerySeparator, k);
    }
  }

  /** The loop over `asyncio.gather(...)`'s results: failed engines are skipped, the others extend the list. */
  method MergeResults(results: seq<Option<seq<LitePaper>>>) returns (all: seq<LitePaper>)
    ensures all == Successes(results)
  {
    all := [];
    var i := 0;
    while i < |results|
      invariant 0 <= i <= |results|
      invariant all == Successes(results[..i])
    {
      assert results[..i + 1] == results[..i] + [results[i]];
      SuccessesAppend(results[..i], [results[i]]);
      if results[i].Some? {
        all := all + results[i].value;
      }
      i := i + 1;
    }
    assert results[..i] == results;
  }

  /** The three engines' outcomes, in the order arXiv, Semantic Scholar, IEEE. */
  function EngineOutcomes(counts: Ratios, query: string, yearStart: Option<int>, yearEnd: Option<int>,
                          arxiv: Engine, semanticScholar: Engine, ieee: Engine): seq<Option<seq<LitePaper>>>
  {
    [arxiv(query, yearStart, yearEnd, counts.arxiv),
     semanticScholar(query, yearStart, yearEnd, counts.semanticScholar),
     ieee(query, yearStart, yearEnd, counts.ieee)]
  }

  /** `_parallel_search(search_strategy, keywords, year_start, year_end)` with the ratios resolved. */
  function ParallelSearch(ratios: Ratios, maxPapers: int, keywords: seq<string>, yearStart: Option<int>, yearEnd: Option<int>,
                          arxiv: Engine, semanticScholar: Engine, ieee: Engine): seq<LitePaper>
  {
    Successes(EngineOutcomes(EngineCounts(maxPapers, ratios), SearchQuery(keywords), yearStart, yearEnd,
                             arxiv, semanticScholar, ieee))
  }

  /** The merged list is the successful engines' papers, arXiv first, then Semantic Scholar, then IEEE. */
  lemma ParallelSearchSpec(ratios: Ratios, maxPapers: int, keywords: seq<string>, yearStart: Option<int>, yearEnd: Option<int>,
                           arxiv: Engine, semanticScholar: Engine, ieee: Engine)
    ensures var o := EngineOutcomes(EngineCounts(maxPapers, ratios), SearchQuery(keywords), yearStart, yearEnd,
                                    arxiv, semanticScholar, ieee);
            ParallelSearch(ratios, maxPapers, keywords, yearStart, yearEnd, arxiv, semanticScholar, ieee)
            == GetOr(o[0], []) + GetOr(o[1], []) + GetOr(o[2], [])
  {
    var o := EngineOutcomes(EngineCounts(maxPapers, ratios), SearchQuery(keywords), yearStart, yearEnd,
                            arxiv, semanticScholar, ieee);
    assert o[1..][1..] == [o[2]];
    assert Successes([o[2]]) == GetOr(o[2], []) + Successes([o[2]][1..]);
    assert Successes(o[1..]) == GetOr(o[1], []) + Successes([o[2]]);
    assert Successes(o) == GetOr(o[0], []) + Successes(o[1..]);
  }

  // ---------------------------------------------------------------------
  // Deduplication and ranking

  /** `paper['title'].lower().strip()`: every paper has a key, the blank one included. */
  function RankKey(p: LitePaper): Option<string>
  {
    Some(Strip(Lower(p.title)))
  }

  /** `_deduplicate_and_rank(papers, ...)`: first paper per normalised title, then `[:max_papers]` when longer. */
  function Ranked(papers: seq<LitePaper>, maxPapers: int): seq<LitePaper>
  {
    var unique := Records.Dedup(papers, RankKey, {});
    if |unique| > maxPapers then PyPrefix(unique, maxPapers) else unique
  }

  method DeduplicateAndRank(papers: seq<LitePaper>, maxPapers: int) returns (ranked: seq<LitePaper>)
    ensures ranked == Ranked(papers, maxPapers)
  {
    ranked := Records.DedupLoop(papers, RankKey);
    if |ranked| > maxPapers {
      ranked := PyPrefix(ranked, maxPapers);
    }
  }

  /**
   * The result keeps input order, holds no two papers with the same
   * normalised title (so at most one blank-titled paper), and has
   * `min(max_papers, #distinct titles)` papers.
   */
  lemma RankedSpec(papers: seq<LitePaper>, maxPapers: int)
    ensures var r := Ranked(papers, maxPapers);
            IsSubsequence(r, papers)
            && (forall i, j :: 0 <= i < j < |r| ==> Strip(Lower(r[i].title)) != Strip(Lower(r[j].title)))
            && (forall i, j :: 0 <= i < j < |r| ==> !(Strip(Lower(r[i].title)) == "" && Strip(Lower(r[j].title)) == ""))
            && (maxPapers >= 0 ==> |r| == Min(maxPapers, |Records.Dedup(papers, RankKey, {})|))
  {
    var unique := Records.Dedup(papers, RankKey, {});
    var r := Ranked(papers, maxPapers);
    Records.DedupSubsequence(papers, RankKey, {});
    Records.DedupKeys(papers, RankKey, {});
    RankedPrefix(papers, maxPapers);
    PrefixIsSubsequence(unique, |r|);
    SubsequenceTrans(r, unique, papers);
    forall i, j | 0 <= i < j < |r| ensures Strip(Lower(r[i].title)) != Strip(Lower(r[j].title)) {
      assert RankKey(unique[i]) != RankKey(unique[j]);
    }
  }

  /** The ranked papers are the first ones the deduplication keeps. */
  lemma RankedPrefix(papers: seq<LitePaper>, maxPapers: int)
    ensures var unique := Records.Dedup(papers, RankKey, {});
            var r := Ranked(papers, maxPapers);
            |r| <= |unique| && r == unique[..|r|]
  {
  }

  /**
   * When no more than `max_papers` distinct titles occur, the first paper of
   * each normalised title is kept and every normalised title of the input
   * is represented.
   */
  lemma RankedComplete(papers: seq<LitePaper>, maxPapers: int)
    requires |Records.Dedup(papers, RankKey, {})| <= maxPapers
    ensures var r := Ranked(papers, maxPapers);
            (forall i :: 0 <= i < |papers| && Records.FirstOfKey(papers, RankKey, {}, i) ==> papers[i] in r)
            && (forall i :: 0 <= i < |papers| ==>
                  (exists j :: 0 <= j < |r| && Strip(Lower(r[j].title)) == Strip(Lower(papers[i].title))))
  {
    var r := Ranked(papers, maxPapers);
    assert r == Records.Dedup(papers, RankKey, {});
    Records.DedupKeepsFirst(papers, RankKey, {});
    Records.DedupComplete(papers, RankKey, {});
    forall i | 0 <= i < |papers|
      ensures exists j :: 0 <= j < |r| && Strip(Lower(r[j].title)) == Strip(Lower(papers[i].title))
    {
      assert Records.HasKey(r, RankKey, Strip(Lower(papers[i].title)));
      var j :| 0 <= j < |r| && RankKey(r[j]) == Some(Strip(Lower(papers[i].title)));
    }
  }

  // ---------------------------------------------------------------------
  // Reports

  const NoAbstract := "アブストラクトなし"

  /** One entry of `_generate_reports`. */
  datatype Report = Report(title: string, authors: seq<string>, publishedDate: string, url: string,
                           abstractText: string, source: string)

  /** `_generate_reports(papers)`: one report per paper, in order, the abstract defaulting to "アブストラクトなし". */
  method GenerateReports(papers: seq<LitePaper>) returns (reports: seq<Report>)
    ensures |reports| == |papers|
    ensures forall i :: 0 <= i < |papers| ==>
              reports[i].title == papers[i].title && reports[i].authors == papers[i].authors
              && reports[i].publishedDate == papers[i].publishedDate && reports[i].url == papers[i].url
              && reports[i].source == papers[i].source
              && reports[i].abstractText == GetOr(papers[i].abstractText, NoAbstract)
  {
    reports := [];
    for i := 0 to |papers|
      invariant |reports| == i
      invariant forall k :: 0 <= k < i ==>
                  reports[k] == Report(papers[k].title, papers[k].authors, papers[k].publishedDate, papers[k].url,
                                       GetOr(papers[k].abstractText, NoAbstract), papers[k].source)
    {
      var p := papers[i];
      reports := reports + [Report(p.title, p.authors, p.publishedDate, p.url, GetOr(p.abstractText, NoAbstract), p.source)];
    }
  }

  // ---------------------------------------------------------------------
  // The research run up to the deduplicated papers

  /** `run_research` up to `_deduplicate_and_rank`: resolve the ratios, search the three engines, deduplicate. */
  function ResearchPapers(reply: Option<RatioStrategy>, maxPapers: int, keywords: seq<string>,
                          yearStart: Option<int>, yearEnd: Option<int>,
                          arxiv: Engine, semanticScholar: Engine, ieee: Engine): seq<LitePaper>
  {
    Ranked(ParallelSearch(ResolveRatios(reply), maxPapers, keywords, yearStart, yearEnd, arxiv, semanticScholar, ieee),
           maxPapers)
  }

  /**
   * At most `max_papers` papers come out, with distinct normalised titles,
   * and each was returned by one of the three engines for the keyword query.
   */
  lemma ResearchPapersSpec(reply: Option<RatioStrategy>, maxPapers: int, keywords: seq<string>,
                           yearStart: Option<int>, yearEnd: Option<int>,
                           arxiv: Engine, semanticScholar: Engine, ieee: Engine)
    ensures var r := ResearchPapers(reply, maxPapers, keywords, yearStart, yearEnd, arxiv, semanticScholar, ieee);
            (maxPapers >= 0 ==> |r| <= maxPapers)
            && (forall i, j :: 0 <= i < j < |r| ==> Strip(Lower(r[i].title)) != Strip(Lower(r[j].title)))
    ensures var o := EngineOutcomes(EngineCounts(maxPapers, ResolveRatios(reply)), SearchQuery(keywords), yearStart, yearEnd,
                                    arxiv, semanticScholar, ieee);
            forall p :: p in ResearchPapers(reply, maxPapers, keywords, yearStart, yearEnd, arxiv, semanticScholar, ieee) ==>
              exists e :: 0 <= e < 3 && o[e].Some? && p in o[e].value
  {
    var all := ParallelSearch(ResolveRatios(reply), maxPapers, keywords, yearStart, yearEnd, arxiv, semanticScholar, ieee);
    var o := EngineOutcomes(EngineCounts(maxPapers, ResolveRatios(reply)), SearchQuery(keywords), yearStart, yearEnd,
                            arxiv, semanticScholar, ieee);
    RankedSpec(all, maxPapers);
    SubsequenceElements(Ranked(all, maxPapers), all);
    SuccessesOrigin(o);
  }
}
