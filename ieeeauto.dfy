/**
 * The deterministic parts of the IEEE Xplore searcher driven by a browser
 * agent: the search task text handed to the agent per query, the case-insensitive
 * title deduplication, and the query loop of `search_and_collect`.
 */
module IeeeAuto {
  import opened Common
  import opened Strs
  import Records
  import Ochiai

  type Paper = Ochiai.PaperInfo

  // ---------------------------------------------------------------------
  // Deduplication by normalised title

  /** The identity of a paper: its lower-cased, stripped title, when non-empty. */
  function TitleOf(p: Paper): Option<string>
  {
    Records.TitleKey(p.title)
  }

  /** `_deduplicate_papers(papers)`. */
  method DeduplicatePapers(papers: seq<Paper>) returns (unique: seq<Paper>)
    ensures unique == Records.Dedup(papers, TitleOf, {})
  {
    unique := Records.DedupLoop(papers, TitleOf);
  }

  /**
   * The kept papers appear in input order, none has a blank normalised
   * title, no two share one, the first paper of each normalised title is
   * kept, every non-blank normalised title of the input is represented, and
   * deduplicating again changes nothing.
   */
  lemma DeduplicateSpec(papers: seq<Paper>)
    ensures IsSubsequence(Records.Dedup(papers, TitleOf, {}), papers)
    ensures forall i :: 0 <= i < |Records.Dedup(papers, TitleOf, {})| ==>
              Strip(Lower(GetOr(Records.Dedup(papers, TitleOf, {})[i].title, ""))) != ""
    ensures forall i, j :: 0 <= i < j < |Records.Dedup(papers, TitleOf, {})| ==>
              Strip(Lower(GetOr(Records.Dedup(papers, TitleOf, {})[i].title, "")))
              != Strip(Lower(GetOr(Records.Dedup(papers, TitleOf, {})[j].title, "")))
    ensures forall i :: 0 <= i < |papers| && TitleOf(papers[i]).Some?
                        && (forall j :: 0 <= j < i ==> TitleOf(papers[j]) != TitleOf(papers[i])) ==>
              papers[i] in Records.Dedup(papers, TitleOf, {})
    ensures forall i :: 0 <= i < |papers| && TitleOf(papers[i]).Some? ==>
              exists j :: 0 <= j < |Records.Dedup(papers, TitleOf, {})|
                          && TitleOf(Records.Dedup(papers, TitleOf, {})[j]) == TitleOf(papers[i])
    ensures Records.Dedup(Records.Dedup(papers, TitleOf, {}), TitleOf, {}) == Records.Dedup(papers, TitleOf, {})
  {
    var u := Records.Dedup(papers, TitleOf, {});
    Records.DedupSubsequence(papers, TitleOf, {});
    Records.DedupKeys(papers, TitleOf, {});
    Records.DedupIdempotent(papers, TitleOf);
    Records.DedupKeepsFirst(papers, TitleOf, {});
    Records.DedupComplete(papers, TitleOf, {});
    forall i, j | 0 <= i < j < |u|
      ensures Strip(Lower(GetOr(u[i].title, ""))) != Strip(Lower(GetOr(u[j].title, "")))
    {
      assert TitleOf(u[i]) != TitleOf(u[j]);
    }
    forall i | 0 <= i < |papers| && TitleOf(papers[i]).Some?
               && (forall j :: 0 <= j < i ==> TitleOf(papers[j]) != TitleOf(papers[i]))
      ensures papers[i] in u
    {
      assert Records.FirstOfKey(papers, TitleOf, {}, i);
    }
    forall i | 0 <= i < |papers| && TitleOf(papers[i]).Some?
      ensures exists j :: 0 <= j < |u| && TitleOf(u[j]) == TitleOf(papers[i])
    {
      assert Records.HasKey(u, TitleOf, TitleOf(papers[i]).value);
    }
  }

  /** A paper with just a title and one author, as in the deduplication test. */
  function TitledPaper(title: string, author: string): Paper
  {
    Ochiai.PaperInfo(Some(title), Some([author]), None, None, None, None, None)
  }

  const PaperA := "Paper A"
  const PaperB := "Paper B"
  const PaperAUpper := "PAPER A"
  const KeyA := "paper a"
  const KeyB := "paper b"

  /** A title whose lower-case form has no white space at either end has that form as its key. */
  lemma TitleKeyOfTrimmed(title: string, key: string)
    requires Lower(title) == key && |key| > 0 && !IsSpace(key[0]) && !IsSpace(key[|key| - 1])
    ensures Records.TitleKey(Some(title)) == Some(key)
  {
  }

  lemma KeyOfPaperA(title: string)
    requires title == PaperA
    ensures Records.TitleKey(Some(title)) == Some(KeyA)
  {
    assert Lower(title) == KeyA;
    TitleKeyOfTrimmed(title, KeyA);
  }

  lemma KeyOfPaperAUpper(title: string)
    requires title == PaperAUpper
    ensures Records.TitleKey(Some(title)) == Some(KeyA)
  {
    assert Lower(title) == KeyA;
    TitleKeyOfTrimmed(title, KeyA);
  }

  lemma KeyOfPaperB(title: string)
    requires title == PaperB
    ensures Records.TitleKey(Some(title)) == Some(KeyB)
  {
    assert Lower(title) == KeyB;
    TitleKeyOfTrimmed(title, KeyB);
  }

  /** Keys a, b, a, a keep the first two records. */
  lemma DedupPattern<T>(xs: seq<T>, key: T -> Option<string>, a: string, b: string)
    requires |xs| == 4 && a != b
    requires key(xs[0]) == Some(a) && key(xs[1]) == Some(b) && key(xs[2]) == Some(a) && key(xs[3]) == Some(a)
    ensures Records.Dedup(xs, key, {}) == xs[..2]
  {
    var s0: set<string> := {};
    var s1 := s0 + {a};
    var s2 := s1 + {b};
    assert xs[3..][1..] == [];
    assert Records.Dedup(xs[3..], key, s2) == [];
    assert xs[2..][1..] == xs[3..];
    assert Records.Dedup(xs[2..], key, s2) == [];
    assert xs[1..][1..] == xs[2..];
    assert Records.Dedup(xs[1..], key, s1) == [xs[1]];
    assert Records.Dedup(xs, key, s0) == [xs[0]] + Records.Dedup(xs[1..], key, s1);
  }

  /** "Paper A", "Paper B", "Paper A", "PAPER A" keeps the first "Paper A" and "Paper B". */
  lemma DedupCaseInsensitive(papers: seq<Paper>)
    requires papers == [TitledPaper(PaperA, "Author 1"), TitledPaper(PaperB, "Author 2"),
                        TitledPaper(PaperA, "Author 1"), TitledPaper(PaperAUpper, "Author 3")]
    ensures Records.Dedup(papers, TitleOf, {}) == papers[..2]
    ensures Records.Dedup(papers, TitleOf, {})[0].title == Some(PaperA)
    ensures Records.Dedup(papers, TitleOf, {})[1].title == Some(PaperB)
  {
    SampleKeys(papers, PaperA, PaperB, PaperAUpper);
    DedupPattern(papers, TitleOf, KeyA, KeyB);
  }

  lemma SampleKeys(papers: seq<Paper>, a: string, b: string, c: string)
    requires a == PaperA && b == PaperB && c == PaperAUpper
    requires |papers| == 4 && papers[0].title == Some(a) && papers[1].title == Some(b)
             && papers[2].title == Some(a) && papers[3].title == Some(c)
    ensures TitleOf(papers[0]) == Some(KeyA) && TitleOf(papers[1]) == Some(KeyB)
            && TitleOf(papers[2]) == Some(KeyA) && TitleOf(papers[3]) == Some(KeyA) && KeyA != KeyB
  {
    KeyOfPaperA(a);
    KeyOfPaperB(b);
    KeyOfPaperAUpper(c);
    assert KeyA[6] != KeyB[6];
  }

  // ---------------------------------------------------------------------
  // The agent's task

  /** The strategy's `year_range` entry; either bound may be missing. */
  datatype YearRange = YearRange(start: Option<int>, end: Option<int>)

  /** The parts of a search strategy the searcher reads. */
  datatype SearchStrategy = SearchStrategy(queries: Option<seq<string>>, yearRange: Option<YearRange>)

  const DefaultStartYear := 2018
  const DefaultEndYear := 2024

  /** `search_strategy.get('year_range', {}).get('start', 2018)`. */
  function StartYear(yearRange: Option<YearRange>): int
  {
    if yearRange.Some? && yearRange.value.start.Some? then yearRange.value.start.value else DefaultStartYear
  }

  /** `search_strategy.get('year_range', {}).get('end', 2024)`. */
  function EndYear(yearRange: Option<YearRange>): int
  {
    if yearRange.Some? && yearRange.value.end.Some? then yearRange.value.end.value else DefaultEndYear
  }

  const TargetSite := "IEEE Xplore"
  const OutputFormat := "JSON"
  const Quote := "\""
  const TaskIntro := "で以下の検索を実行し、論文情報を収集してください：\n\n検索クエリ: "
  const TaskYearsLabel := "\n出版年範囲: "
  const TaskCountLabel := "\n取得件数: 最大"
  const TaskSteps := "件\n\n手順:\n1. IEEE Xplore (https://ieeexplore.ieee.org/) にアクセス\n2. 検索ボックスに \""
  const TaskFilterStep := "\" を入力して検索\n3. 出版年フィルタで "
  const TaskCollectStep := " を設定\n4. 検索結果から上位"
  const TaskFields := "件の論文について以下の情報を収集:\n   - タイトル\n   - 著者\n   - 出版年\n   - 出版物名（Journal/Conference名）\n   - DOI\n   - Abstract\n   - 論文URL\n   - PDFダウンロードリンク（可能であれば）\n\n5. 収集した情報を"
  const TaskFormat := "形式で以下のように出力:\n{\n  \"papers\": [\n    {\n      \"title\": \"論文タイトル\",\n      \"authors\": [\"著者1\", \"著者2\"],\n      \"year\": 2023,\n      \"publication\": \"Journal/Conference名\",\n      \"doi\": \"10.1109/...\",\n      \"abstract\": \"要約文\",\n      \"url\": \"https://ieeexplore.ieee.org/document/...\",\n      \"pdf_url\": \"PDF URL if available\"\n    }\n  ]\n}\n\n注意:\n- 各論文のページを個別に訪問して詳細情報を確認してください\n- 情報が取得できない項目は \"N/A\" としてください\n- PDFは直接ダウンロードせず、URLのみ記録してください\n"

  /** The fixed texts of the search task, in order. */
  const TaskTexts := ["\n", TargetSite, TaskIntro, TaskYearsLabel, TaskCountLabel, TaskSteps, TaskFilterStep,
                      TaskCollectStep, TaskFields, OutputFormat, TaskFormat]

  /** The pieces of the search task text in order: the fixed texts `texts`, with the query, year range and count spliced in (each twice). */
  function TaskPieces(texts: seq<string>, query: string, s: string, e: string, n: string): seq<string>
    requires |texts| == 11
  {
    [texts[0], texts[1], texts[2], Quote + query + Quote, texts[3], s + " - " + e, texts[4], n,
     texts[5], query, texts[6], s + "-" + e, texts[7], n, texts[8], texts[9], texts[10]]
  }

  /** `_build_search_task(query, max_results, search_strategy)`: the f-string with the query, the year range and the count spliced in. */
  function BuildSearchTask(query: string, maxResults: int, yearRange: Option<YearRange>): string
  {
    Concat(TaskPieces(TaskTexts, query, IntToString(StartYear(yearRange)), IntToString(EndYear(yearRange)),
                      IntToString(maxResults)))
  }

  /** Whatever the fixed texts, the search task holds the site and format texts, the quoted query, the year range and the count. */
  lemma TaskPiecesContain(texts: seq<string>, query: string, s: string, e: string, n: string)
    requires |texts| == 11
    ensures var task := Concat(TaskPieces(texts, query, s, e, n));
            Contains(task, texts[1]) && Contains(task, Quote + query + Quote) && Contains(task, s + " - " + e)
            && Contains(task, n) && Contains(task, texts[9])
  {
    var pieces := TaskPieces(texts, query, s, e, n);
    ContainsPart(pieces, 1);
    ContainsPart(pieces, 3);
    ContainsPart(pieces, 5);
    ContainsPart(pieces, 7);
    ContainsPart(pieces, 15);
  }

  /**
   * The search task names the site, the quoted query, the year range "start - end"
   * with 2018 and 2024 for missing bounds, the number of results, and the
   * JSON output format.
   */
  lemma BuildSearchTaskSpec(query: string, maxResults: int, yearRange: Option<YearRange>)
    ensures Contains(BuildSearchTask(query, maxResults, yearRange), TargetSite)
    ensures Contains(BuildSearchTask(query, maxResults, yearRange), Quote + query + Quote)
    ensures Contains(BuildSearchTask(query, maxResults, yearRange),
                     IntToString(StartYear(yearRange)) + " - " + IntToString(EndYear(yearRange)))
    ensures Contains(BuildSearchTask(query, maxResults, yearRange), IntToString(maxResults))
    ensures Contains(BuildSearchTask(query, maxResults, yearRange), OutputFormat)
    ensures (yearRange.None? || yearRange.value.start.None?) ==> StartYear(yearRange) == 2018
    ensures (yearRange.None? || yearRange.value.end.None?) ==> EndYear(yearRange) == 2024
  {
    TaskPiecesContain(TaskTexts, query, IntToString(StartYear(yearRange)), IntToString(EndYear(yearRange)),
                      IntToString(maxResults));
  }

  lemma SampleYears(yearRange: Option<YearRange>)
    requires yearRange == Some(YearRange(Some(2020), Some(2024)))
    ensures IntToString(StartYear(yearRange)) + " - " + IntToString(EndYear(yearRange)) == "2020 - 2024"
  {
    assert IntToString(2020) == "2020";
    assert IntToString(2024) == "2024";
  }

  lemma SampleCount()
    ensures IntToString(10) == "10"
  {
  }

  /** With the year range 2020 to 2024 and ten results, the search task states "2020 - 2024" and the count 10. */
  lemma SampleSearchTask(query: string, yearRange: Option<YearRange>)
    requires yearRange == Some(YearRange(Some(2020), Some(2024)))
    ensures Contains(BuildSearchTask(query, 10, yearRange), "2020 - 2024")
    ensures Contains(BuildSearchTask(query, 10, yearRange), "10")
  {
    SampleYears(yearRange);
    SampleCount();
    BuildSearchTaskSpec(query, 10, yearRange);
  }

  // ---------------------------------------------------------------------
  // The query loop

  /** One search through the agent: the search task for the query and count, run by the agent; None when the run raised. */
  function AgentSearch(yearRange: Option<YearRange>, agent: string -> Option<seq<Paper>>): (string, int) -> Option<seq<Paper>>
  {
    (query: string, n: int) => agent(BuildSearchTask(query, n, yearRange))
  }

  /** `search_and_collect(search_strategy, max_papers)`, with the agent's run and the parsing of its history as `agent`. */
  method SearchAndCollect(strategy: SearchStrategy, maxPapers: int, agent: string -> Option<seq<Paper>>)
    returns (papers: seq<Paper>)
    ensures papers == Records.Collected(GetOr(strategy.queries, []), maxPapers, AgentSearch(strategy.yearRange, agent), TitleOf)
  {
    papers := Records.Collect(GetOr(strategy.queries, []), maxPapers, AgentSearch(strategy.yearRange, agent), TitleOf);
  }

  /**
   * Without queries nothing is collected. Otherwise at most `max_papers`
   * papers come back, with distinct non-blank normalised titles, and each
   * of them was returned by the agent for the search task of one of the queries,
   * asking for `max(5, max_papers // #queries)` papers within the
   * strategy's year range.
   */
  lemma SearchAndCollectSpec(strategy: SearchStrategy, maxPapers: int, agent: string -> Option<seq<Paper>>)
    ensures GetOr(strategy.queries, []) == [] ==>
              Records.Collected(GetOr(strategy.queries, []), maxPapers, AgentSearch(strategy.yearRange, agent), TitleOf) == []
    ensures maxPapers >= 0 ==>
              |Records.Collected(GetOr(strategy.queries, []), maxPapers, AgentSearch(strategy.yearRange, agent), TitleOf)| <= maxPapers
    ensures Records.FreshDistinctKeys(Records.Collected(GetOr(strategy.queries, []), maxPapers,
                                                        AgentSearch(strategy.yearRange, agent), TitleOf), TitleOf, {})
    ensures var queries := GetOr(strategy.queries, []);
            forall p :: p in Records.Collected(queries, maxPapers, AgentSearch(strategy.yearRange, agent), TitleOf) ==>
              exists i :: 0 <= i < |queries|
                && agent(BuildSearchTask(queries[i], Records.PerQueryTarget(maxPapers, |queries|, 5), strategy.yearRange)).Some?
                && p in agent(BuildSearchTask(queries[i], Records.PerQueryTarget(maxPapers, |queries|, 5), strategy.yearRange)).value
  {
    var queries := GetOr(strategy.queries, []);
    var search := AgentSearch(strategy.yearRange, agent);
    Records.CollectedSpec(queries, maxPapers, search, TitleOf);
    if queries != [] {
      var n := Records.PerQueryTarget(maxPapers, |queries|, 5);
      var outcomes := Records.QueryOutcomes(queries, n, search);
      var ran := Records.CollectStop(outcomes, [], maxPapers);
      var r := Records.Collected(queries, maxPapers, search, TitleOf);
      SubsequenceElements(r, Successes(outcomes[..ran]));
      SuccessesOrigin(outcomes[..ran]);
      forall p | p in r
        ensures exists i :: 0 <= i < |queries|
                  && agent(BuildSearchTask(queries[i], n, strategy.yearRange)).Some?
                  && p in agent(BuildSearchTask(queries[i], n, strategy.yearRange)).value
      {
        var i :| 0 <= i < ran && outcomes[..ran][i].Some? && p in outcomes[..ran][i].value;
        assert outcomes[i] == agent(BuildSearchTask(queries[i], n, strategy.yearRange));
      }
    }
  }
}
