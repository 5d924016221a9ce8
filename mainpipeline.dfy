/**
 * The deterministic parts of the five-step orchestrator: the title
 * deduplication, the search step's per-query target and truncation, and the
 * file name of each paper's report.
 */
module MainPipeline {
  import opened Common
  import opened Strs
  import Records
  import Ochiai
  import IeeeAuto

  type Paper = Ochiai.PaperInfo

  // ---------------------------------------------------------------------
  // Deduplication

  /**
   * `_deduplicate_papers(papers)`: the same title rule as the IEEE searcher.
   * The kept papers appear in input order, each with a non-blank normalised
   * title, and no two share one.
   */
  method DeduplicatePapers(papers: seq<Paper>) returns (unique: seq<Paper>)
    ensures unique == Records.Dedup(papers, IeeeAuto.TitleOf, {})
    ensures IsSubsequence(unique, papers)
    ensures forall i :: 0 <= i < |unique| ==> Strip(Lower(GetOr(unique[i].title, ""))) != ""
    ensures forall i, j :: 0 <= i < j < |unique| ==>
              Strip(Lower(GetOr(unique[i].title, ""))) != Strip(Lower(GetOr(unique[j].title, "")))
  {
    unique := Records.DedupLoop(papers, IeeeAuto.TitleOf);
    IeeeAuto.DeduplicateSpec(papers);
  }

  // ---------------------------------------------------------------------
  // The search step

  /**
   * `_step3_search_papers(search_strategy)`, with the IEEE service's search
   * as `search` (None when it raised): the strategy's queries (none when the
   * key is missing) searched in order, then dedup and `[:max_papers]`.
   */
  method SearchPapers(searchQueries: Option<seq<string>>, maxPapers: int, search: (string, int) -> Option<seq<Paper>>)
    returns (papers: seq<Paper>)
    ensures papers == Records.Collected(GetOr(searchQueries, []), maxPapers, search, IeeeAuto.TitleOf)
  {
    papers := Records.Collect(GetOr(searchQueries, []), maxPapers, search, IeeeAuto.TitleOf);
  }

  /**
   * Without queries nothing is collected. Otherwise each query asks for
   * `max(5, max_papers // #queries)` papers, at most `max_papers` come back
   * with distinct non-blank normalised titles, and each was returned by the
   * search of one of the queries.
   */
  lemma SearchPapersSpec(searchQueries: Option<seq<string>>, maxPapers: int, search: (string, int) -> Option<seq<Paper>>)
    ensures GetOr(searchQueries, []) == [] ==>
              Records.Collected(GetOr(searchQueries, []), maxPapers, search, IeeeAuto.TitleOf) == []
    ensures GetOr(searchQueries, []) != [] ==>
              var n := Records.PerQueryTarget(maxPapers, |GetOr(searchQueries, [])|, 5);
              n == Max(5, maxPapers / |GetOr(searchQueries, [])|) && n >= 5
    ensures maxPapers >= 0 ==>
              |Records.Collected(GetOr(searchQueries, []), maxPapers, search, IeeeAuto.TitleOf)| <= maxPapers
    ensures Records.FreshDistinctKeys(Records.Collected(GetOr(searchQueries, []), maxPapers, search, IeeeAuto.TitleOf),
                                      IeeeAuto.TitleOf, {})
    ensures var queries := GetOr(searchQueries, []);
            forall p :: p in Records.Collected(queries, maxPapers, search, IeeeAuto.TitleOf) ==>
              exists i :: 0 <= i < |queries|
                && search(queries[i], Records.PerQueryTarget(maxPapers, |queries|, 5)).Some?
                && p in search(queries[i], Records.PerQueryTarget(maxPapers, |queries|, 5)).value
  {
    var queries := GetOr(searchQueries, []);
    Records.CollectedSpec(queries, maxPapers, search, IeeeAuto.TitleOf);
    if queries != [] {
      var n := Records.PerQueryTarget(maxPapers, |queries|, 5);
      var outcomes := Records.QueryOutcomes(queries, n, search);
      var ran := Records.CollectStop(outcomes, [], maxPapers);
      var r := Records.Collected(queries, maxPapers, search, IeeeAuto.TitleOf);
      SubsequenceElements(r, Successes(outcomes[..ran]));
      SuccessesOrigin(outcomes[..ran]);
      forall p | p in r
        ensures exists i :: 0 <= i < |queries| && search(queries[i], n).Some? && p in search(queries[i], n).value
      {
        var i :| 0 <= i < ran && outcomes[..ran][i].Some? && p in outcomes[..ran][i].value;
        assert outcomes[i] == search(queries[i], n);
      }
    }
  }

  // ---------------------------------------------------------------------
  // Report file names

  const DefaultTitle := "paper"

  /** `f'{idx:03d}_{safe_title}.md'` with the title sanitised and cut to 50 characters, "paper" when missing. */
  function ReportFileName(idx: nat, title: Option<string>): string
  {
    Pad3(idx) + "_" + Ochiai.SafeTitle(GetOr(title, DefaultTitle)) + Ochiai.ReportExtension
  }

  /** The file names of the reports of `papers`, numbered from 1. */
  function ReportFileNames(papers: seq<Paper>): seq<string>
  {
    seq(|papers|, i requires 0 <= i < |papers| => ReportFileName(i + 1, papers[i].title))
  }

  /**
   * The name starts with the index written in at least three digits, then
   * '_'; then come the sanitised title's safe characters (at most 50, from
   * "paper" when the title is missing) and ".md".
   */
  lemma ReportFileNameSpec(idx: nat, title: Option<string>)
    ensures var name := ReportFileName(idx, title);
            var d := Max(3, |NatToString(idx)|);
            var t := GetOr(title, DefaultTitle);
            |name| == d + 1 + Min(50, |t|) + 3
            && (forall i :: 0 <= i < d ==> IsDigit(name[i]))
            && DigitsValue(name[..d]) == idx
            && name[d] == '_'
            && (forall i :: d < i < |name| - 3 ==> Ochiai.IsSafeChar(name[i]))
            && name[|name| - 3..] == ".md"
    ensures title.None? ==> ReportFileName(idx, title) == Pad3(idx) + "_paper.md"
  {
    var p := Pad3(idx);
    var s := Ochiai.SafeTitle(GetOr(title, DefaultTitle));
    Pad3Spec(idx);
    Ochiai.SafeTitleSpec(GetOr(title, DefaultTitle));
    ReportNameParts(p, s);
    if title.None? {
      DefaultReportName(idx);
    }
  }

  /** The pieces of a report file name sit where they were put. */
  lemma ReportNameParts(p: string, s: string)
    ensures (p + "_" + s + ".md")[..|p|] == p
    ensures (p + "_" + s + ".md")[|p|] == '_'
    ensures forall i :: |p| < i < |p| + 1 + |s| ==> (p + "_" + s + ".md")[i] == s[i - |p| - 1]
    ensures (p + "_" + s + ".md")[|p| + 1 + |s|..] == ".md"
  {
  }

  /** Without a title the report is "<index>_paper.md". */
  lemma DefaultReportName(idx: nat)
    ensures ReportFileName(idx, None) == Pad3(idx) + "_paper.md"
  {
    assert DefaultTitle == "paper";
    Ochiai.SafeTitleSpec(DefaultTitle);
    assert Ochiai.SafeTitle(DefaultTitle) == DefaultTitle;
  }

  /** Two report names are equal only for the same index. */
  lemma ReportFileNameInjective(m: nat, n: nat, s: Option<string>, t: Option<string>)
    requires ReportFileName(m, s) == ReportFileName(n, t)
    ensures m == n
  {
    var a, b := Pad3(m), Pad3(n);
    var name := ReportFileName(m, s);
    Pad3Spec(m);
    Pad3Spec(n);
    assert name == a + "_" + Ochiai.SafeTitle(GetOr(s, DefaultTitle)) + Ochiai.ReportExtension;
    assert name == b + "_" + Ochiai.SafeTitle(GetOr(t, DefaultTitle)) + Ochiai.ReportExtension;
    var k := Min(|a|, |b|);
    assert k < |a| ==> IsDigit(name[k]);
    assert k < |b| ==> IsDigit(name[k]);
    assert k == |a| || k == |b| ==> name[k] == '_';
    assert a == name[..|a|] == b;
  }

  /** Reports with different indexes get different names. */
  lemma ReportFileNamesDiffer(m: nat, n: nat, s: Option<string>, t: Option<string>)
    requires m != n
    ensures ReportFileName(m, s) != ReportFileName(n, t)
  {
    if ReportFileName(m, s) == ReportFileName(n, t) {
      ReportFileNameInjective(m, n, s, t);
    }
  }

  /** The reports of a session never share a file name, even for papers with the same title. */
  lemma ReportFileNamesDistinct(papers: seq<Paper>)
    ensures |ReportFileNames(papers)| == |papers|
    ensures forall i, j :: 0 <= i < j < |papers| ==> ReportFileNames(papers)[i] != ReportFileNames(papers)[j]
  {
    var names := ReportFileNames(papers);
    forall i, j | 0 <= i < j < |papers| ensures names[i] != names[j] {
      assert names[i] == ReportFileName(i + 1, papers[i].title);
      assert names[j] == ReportFileName(j + 1, papers[j].title);
      ReportFileNamesDiffer(i + 1, j + 1, papers[i].title, papers[j].title);
    }
  }
}
