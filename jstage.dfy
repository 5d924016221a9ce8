/**
 * The J-STAGE searcher: query rewriting, article normalisation, article URL
 * construction, Japanese-script detection, first-seen deduplication on
 * DOI, then URL, then normalised title, and the post-fetch search pipeline.
 */
module JStage {
  import opened Common
  import opened Strs
  import Records

  const BaseUrl := "https://www.jstage.jst.go.jp"
  const ArticleBase := "https://www.jstage.jst.go.jp/article/"
  const Source := "J-STAGE"
  const AndOperator := " AND "
  const OrOperator := " OR "
  const OrReplacement := " | "

  // ---------------------------------------------------------------------
  // Query rewriting

  /** The API parameters `{'text': ..., 'service': '1'}`. */
  datatype Query = Query(text: string, service: string)

  /** `build_jstage_query`: " AND " becomes a space, then " OR " becomes " | ". */
  function BuildQuery(search: string): (q: Query)
    ensures q.service == "1"
    ensures q.text == Join(Split(Join(Split(search, AndOperator), " "), OrOperator), OrReplacement)
  {
    ReplaceIsJoinSplit(search, AndOperator, " ");
    ReplaceIsJoinSplit(Replace(search, AndOperator, " "), OrOperator, OrReplacement);
    Query(Replace(Replace(search, AndOperator, " "), OrOperator, OrReplacement), "1")
  }

  /** A query without either operator is sent as it is. */
  lemma BuildQueryPlain(search: string)
    requires !Contains(search, AndOperator) && !Contains(search, OrOperator)
    ensures BuildQuery(search).text == search
  {
    ReplaceAbsent(search, AndOperator, " ");
    ReplaceAbsent(search, OrOperator, OrReplacement);
  }

  // ---------------------------------------------------------------------
  // Article URLs

  /** End of the run of digits starting at `from`. */
  function DigitRunEnd(s: string, from: nat): (e: nat)
    requires from <= |s|
    ensures from <= e <= |s|
    ensures forall k :: from <= k < e ==> IsDigit(s[k])
    ensures e < |s| ==> !IsDigit(s[e])
    decreases |s| - from
  {
    if from < |s| && IsDigit(s[from]) then DigitRunEnd(s, from + 1) else from
  }

  /** Index of the first '/' at or after `from`, or `|s|`. */
  function SlashFrom(s: string, from: nat): (e: nat)
    requires from <= |s|
    ensures from <= e <= |s|
    ensures forall k :: from <= k < e ==> s[k] != '/'
    ensures e < |s| ==> s[e] == '/'
    decreases |s| - from
  {
    if from < |s| && s[from] != '/' then SlashFrom(s, from + 1) else from
  }

  /**
   * The regular expression `10\.\d+/([^/]+)/` matched at index `i`: its
   * group. Both repetitions are greedy and must be followed by '/', which
   * neither can consume, so the maximal runs are the only candidates.
   */
  function DoiMatchAt(s: string, i: nat): (r: Option<string>)
    requires i <= |s|
    ensures r.Some? ==> |r.value| > 0 && '/' !in r.value
  {
    if i + 3 > |s| || s[i..i + 3] != "10." then None
    else
      var d := DigitRunEnd(s, i + 3);
      if d == i + 3 || d == |s| || s[d] != '/' then None
      else
        var e := SlashFrom(s, d + 1);
        if e == d + 1 || e == |s| then None
        else Some(s[d + 1..e])
  }

  /** `re.search(r'10\.\d+/([^/]+)/', doi)`: the group of the leftmost match at or after `from`. */
  function DoiJournalCode(s: string, from: nat): (r: Option<string>)
    requires from <= |s|
    ensures r.Some? ==> exists i :: from <= i <= |s| && DoiMatchAt(s, i) == r
    ensures r.None? ==> forall i :: from <= i <= |s| ==> DoiMatchAt(s, i).None?
    decreases |s| - from
  {
    if DoiMatchAt(s, from).Some? then DoiMatchAt(s, from)
    else if from == |s| then None
    else DoiJournalCode(s, from + 1)
  }

  /** Where the text after the last '/' of `s` starts: just past that '/', or 0 when there is none. */
  function AfterLastSlash(s: string): (k: nat)
    ensures k <= |s|
    ensures forall j :: k <= j < |s| ==> s[j] != '/'
    ensures k > 0 ==> s[k - 1] == '/'
    decreases |s|
  {
    if s == [] then 0
    else if s[|s| - 1] == '/' then |s|
    else AfterLastSlash(s[..|s| - 1])
  }

  /** The start of the last piece is the only index with a '/' (or the start) before it and none after. */
  lemma AfterLastSlashUnique(s: string, k: nat)
    requires k <= |s| && forall j :: k <= j < |s| ==> s[j] != '/'
    requires k > 0 ==> s[k - 1] == '/'
    ensures AfterLastSlash(s) == k
  {
  }

  /** `doi.split("/")[-1]`: what follows the last '/', or the whole text when there is none. */
  function LastSegment(s: string): (r: string)
    ensures '/' !in r
    ensures |r| <= |s| && s[|s| - |r|..] == r
    ensures |r| < |s| ==> s[|s| - |r| - 1] == '/'
  {
    var k := AfterLastSlash(s);
    assert '/' !in s[k..] by {
      forall j | 0 <= j < |s| - k ensures s[k..][j] != '/' {
        assert s[k..][j] == s[k + j];
      }
    }
    s[k..]
  }

  lemma NoSlash(s: string)
    requires IndexFrom(s, "/", 0).None?
    ensures '/' !in s
  {
    forall k | 0 <= k < |s| ensures s[k] != '/' {
      assert !OccursAt(s, "/", k);
      assert s[k..k + 1] == [s[k]];
    }
  }

  /** The text after the last '/' is the last piece of `split("/")`. */
  lemma {:induction false} LastSegmentIsLastPart(s: string)
    ensures LastSegment(s) == Split(s, "/")[|Split(s, "/")| - 1]
    decreases |s|
  {
    match IndexFrom(s, "/", 0)
    case None =>
      LastSegmentNoSlash(s);
      assert LastSegment(s) == Split(s, "/")[0];
    case Some(i) =>
      assert s[i] == s[i..i + 1][0] == '/';
      assert Contains(s, "/");
      var t := s[i + 1..];
      assert EndOfFirst(s, "/") == i + 1;
      SplitLastPiece(s, "/", i + 1);
      LastSegmentIsLastPart(t);
      LastSegmentAfterSlash(s, i);
      assert PieceCarries: Split(s, "/")[|Split(s, "/")| - 1] == Split(t, "/")[|Split(t, "/")| - 1];
      assert Induction: LastSegment(t) == Split(t, "/")[|Split(t, "/")| - 1];
      assert SegmentCarries: LastSegment(s) == LastSegment(t);
      LastPieceStep(s, t);
  }

  /** The step of the induction: the last piece and the last segment both carry over from `t` to `s`. */
  lemma LastPieceStep(s: string, t: string)
    requires Split(s, "/")[|Split(s, "/")| - 1] == Split(t, "/")[|Split(t, "/")| - 1]
    requires LastSegment(t) == Split(t, "/")[|Split(t, "/")| - 1]
    requires LastSegment(s) == LastSegment(t)
    ensures LastSegment(s) == Split(s, "/")[|Split(s, "/")| - 1]
  {
  }

  /** Without a '/', the text is its own last piece and the only piece of its split. */
  lemma LastSegmentNoSlash(s: string)
    requires IndexFrom(s, "/", 0).None?
    ensures Split(s, "/") == [s] && LastSegment(s) == s
  {
    NoSlash(s);
    AfterLastSlashUnique(s, 0);
  }

  /** After any '/', the rest of the text has the same last piece. */
  lemma LastSegmentAfterSlash(s: string, i: nat)
    requires i < |s| && s[i] == '/'
    ensures LastSegment(s) == LastSegment(s[i + 1..])
  {
    var t := s[i + 1..];
    var m := AfterLastSlash(t);
    forall j | i + 1 + m <= j < |s| ensures s[j] != '/' {
      assert s[j] == t[j - i - 1];
    }
    if m > 0 {
      assert s[i + m] == t[m - 1];
    }
    AfterLastSlashUnique(s, i + 1 + m);
    assert s[i + 1 + m..] == t[m..];
  }

  /** `build_article_url(doi, journal, volume, issue, page)`. */
  function BuildArticleUrl(doi: Option<string>, journal: Option<string>, volume: Option<string>,
                           issue: Option<string>, page: Option<string>): string
  {
    if TruthyStr(doi) then
      match DoiJournalCode(doi.value, 0)
      case Some(code) => ArticleBase + code + "/" + LastSegment(doi.value)
      case None => ArticleBase + doi.value
    else if TruthyStr(journal) && TruthyStr(volume) then
      ArticleBase + journal.value + "/" + volume.value
      + (if TruthyStr(issue) then "/" + issue.value else "")
      + (if TruthyStr(page) then "/" + page.value else "")
    else BaseUrl
  }

  /** The DOI `10.<digits>/<code>/<rest>` starts with a match whose group is `<code>`. */
  lemma DoiCodeOfStandardDoi(digits: string, code: string, rest: string)
    requires |digits| > 0 && forall k :: 0 <= k < |digits| ==> IsDigit(digits[k])
    requires |code| > 0 && '/' !in code
    ensures DoiJournalCode("10." + digits + "/" + code + "/" + rest, 0) == Some(code)
  {
    var s := "10." + digits + "/" + code + "/" + rest;
    var d := 3 + |digits|;
    assert s[..3] == "10.";
    assert forall k :: 3 <= k < d ==> s[k] == digits[k - 3];
    DigitRunFrom(s, 3, d);
    assert s[d] == '/';
    assert forall k :: d + 1 <= k < d + 1 + |code| ==> s[k] == code[k - d - 1];
    SlashFromAt(s, d + 1, d + 1 + |code|);
    assert s[d + 1..d + 1 + |code|] == code;
    DoiMatchAtRuns(s, 0, d, d + 1 + |code|);
    assert DoiMatchAt(s, 0) == Some(code);
  }

  /** A match at `i` whose digit run ends at the '/' at `d` and whose group ends at the '/' at `e`. */
  lemma DoiMatchAtRuns(s: string, i: nat, d: nat, e: nat)
    requires i + 3 <= |s| && s[i..i + 3] == "10."
    requires DigitRunEnd(s, i + 3) == d && i + 3 < d < |s| && s[d] == '/'
    requires SlashFrom(s, d + 1) == e && d + 1 < e < |s|
    ensures DoiMatchAt(s, i) == Some(s[d + 1..e])
  {
  }

  lemma {:induction false} DigitRunFrom(s: string, from: nat, d: nat)
    requires from <= d < |s| && !IsDigit(s[d]) && forall k :: from <= k < d ==> IsDigit(s[k])
    ensures DigitRunEnd(s, from) == d
    decreases d - from
  {
    if from < d {
      DigitRunFrom(s, from + 1, d);
    }
  }

  lemma {:induction false} SlashFromAt(s: string, from: nat, e: nat)
    requires from <= e < |s| && s[e] == '/' && forall k :: from <= k < e ==> s[k] != '/'
    ensures SlashFrom(s, from) == e
    decreases e - from
  {
    if from < e {
      SlashFromAt(s, from + 1, e);
    }
  }

  /**
   * The three forms of an article URL: from a DOI with a journal code, from
   * any other DOI, and from journal and volume with the optional issue and page.
   */
  lemma BuildArticleUrlForms(doi: Option<string>, journal: Option<string>, volume: Option<string>,
                             issue: Option<string>, page: Option<string>)
    ensures TruthyStr(doi) && DoiJournalCode(doi.value, 0).Some? ==>
              BuildArticleUrl(doi, journal, volume, issue, page)
              == ArticleBase + DoiJournalCode(doi.value, 0).value + "/" + LastSegment(doi.value)
    ensures TruthyStr(doi) && DoiJournalCode(doi.value, 0).None? ==>
              BuildArticleUrl(doi, journal, volume, issue, page) == ArticleBase + doi.value
    ensures !TruthyStr(doi) && !(TruthyStr(journal) && TruthyStr(volume)) ==>
              BuildArticleUrl(doi, journal, volume, issue, page) == BaseUrl
    ensures !TruthyStr(doi) && TruthyStr(journal) && TruthyStr(volume) && !TruthyStr(issue) && !TruthyStr(page) ==>
              BuildArticleUrl(doi, journal, volume, issue, page) == ArticleBase + journal.value + "/" + volume.value
    ensures !TruthyStr(doi) && TruthyStr(journal) && TruthyStr(volume) && TruthyStr(issue) && TruthyStr(page) ==>
              BuildArticleUrl(doi, journal, volume, issue, page)
              == ArticleBase + journal.value + "/" + volume.value + "/" + issue.value + "/" + page.value
  {
  }

  /** A match needs two slashes: one after the digits and one after the group. */
  lemma DoiMatchSlashes(s: string, i: nat)
    requires i <= |s| && DoiMatchAt(s, i).Some?
    ensures exists d, e :: 0 <= d < e < |s| && s[d] == '/' && s[e] == '/'
  {
    var d := DigitRunEnd(s, i + 3);
    var e := SlashFrom(s, d + 1);
    assert s[d] == '/' && s[e] == '/';
  }

  const SampleDoi := "10.2197/ipsjdc.2023.0001"

  /** The test DOI `10.2197/ipsjdc.2023.0001` has one '/', so the whole DOI is the path. */
  lemma SampleDoiUrl()
    ensures BuildArticleUrl(Some(SampleDoi), None, None, None, None) == ArticleBase + SampleDoi
  {
    var s := SampleDoi;
    assert forall k :: 0 <= k < |s| && k != 7 ==> s[k] != '/';
    if DoiJournalCode(s, 0).Some? {
      var i :| 0 <= i <= |s| && DoiMatchAt(s, i) == DoiJournalCode(s, 0);
      DoiMatchSlashes(s, i);
    }
  }

  // ---------------------------------------------------------------------
  // Japanese-script detection

  /** Hiragana U+3040–309F, katakana U+30A0–30FF, CJK ideographs U+4E00–9FFF. */
  predicate IsJapanese(c: char)
  {
    ('\U{3040}' <= c <= '\U{309F}') || ('\U{30A0}' <= c <= '\U{30FF}') || ('\U{4E00}' <= c <= '\U{9FFF}')
  }

  /** `contains_japanese`: the character-class search, one character at a time. */
  function ContainsJapanese(text: string): bool
    decreases |text|
  {
    text != [] && (IsJapanese(text[0]) || ContainsJapanese(text[1..]))
  }

  lemma {:induction false} ContainsJapaneseSpec(text: string)
    ensures ContainsJapanese(text) <==> exists i :: 0 <= i < |text| && IsJapanese(text[i])
    decreases |text|
  {
    if text != [] {
      ContainsJapaneseSpec(text[1..]);
      if !IsJapanese(text[0]) && exists i :: 0 <= i < |text| && IsJapanese(text[i]) {
        var i :| 0 <= i < |text| && IsJapanese(text[i]);
        assert text[1..][i - 1] == text[i];
      }
    }
  }

  /** Text of ASCII characters alone is never Japanese. */
  lemma AsciiIsNotJapanese(text: string)
    requires forall i :: 0 <= i < |text| ==> text[i] < '\U{0080}'
    ensures !ContainsJapanese(text)
  {
    ContainsJapaneseSpec(text);
  }

  // ---------------------------------------------------------------------
  // Article normalisation

  /** An entry of `authors`: a dict with an optional `name`, a string, or anything else. */
  datatype AuthorItem = NamedAuthor(name: Option<string>) | PlainAuthor(text: string) | OtherAuthor

  /** A J-STAGE article dictionary; `None` is a missing key, and `authors` is `None` when absent or not a list. */
  datatype Article = Article(
    title: Option<string>, authors: Option<seq<AuthorItem>>, abstractText: Option<string>,
    journal: Option<string>, year: Option<int>, publishedDate: Option<string>,
    volume: Option<string>, issue: Option<string>, pages: Option<string>,
    doi: Option<string>, url: Option<string>)

  /** The standardised paper dictionary. */
  datatype Paper = Paper(
    title: string, authors: seq<string>, abstractText: string, journal: string, year: Option<int>,
    volume: string, issue: string, pages: string, doi: string, url: string, source: string)

  /** What one author entry contributes: a dict's truthy name, or the string itself. */
  function AuthorContribution(a: AuthorItem): seq<string>
  {
    match a
    case NamedAuthor(name) => if TruthyStr(name) then [name.value] else []
    case PlainAuthor(text) => [text]
    case OtherAuthor => []
  }

  /** The authors list built in order, from the back. */
  function AuthorNames(items: seq<AuthorItem>): seq<string>
    decreases |items|
  {
    if items == [] then [] else AuthorNames(items[..|items| - 1]) + AuthorContribution(items[|items| - 1])
  }

  /** Each name comes from one entry, and no dict entry contributes an empty name. */
  lemma {:induction false} AuthorNamesSpec(items: seq<AuthorItem>)
    ensures |AuthorNames(items)| <= |items|
    ensures forall n :: n in AuthorNames(items) ==>
              (exists i :: 0 <= i < |items| && items[i] == PlainAuthor(n))
              || (n != "" && exists i :: 0 <= i < |items| && items[i] == NamedAuthor(Some(n)))
    decreases |items|
  {
    if items != [] {
      var init := items[..|items| - 1];
      AuthorNamesSpec(init);
      assert forall i :: 0 <= i < |init| ==> init[i] == items[i];
    }
  }

  /** The names of a list are those of its two halves, one after the other. */
  lemma {:induction false} AuthorNamesAppend(a: seq<AuthorItem>, b: seq<AuthorItem>)
    ensures AuthorNames(a + b) == AuthorNames(a) + AuthorNames(b)
    decreases |b|
  {
    if b == [] {
      assert a + b == a;
    } else {
      var init, last := b[..|b| - 1], b[|b| - 1];
      var ab := a + b;
      assert ab[..|ab| - 1] == a + init;
      assert ab[|ab| - 1] == last;
      assert AuthorNames(ab) == AuthorNames(a + init) + AuthorContribution(last);
      AuthorNamesAppend(a, init);
      assert AuthorNames(b) == AuthorNames(init) + AuthorContribution(last);
    }
  }

  /** A string entry gives itself, a dict entry its truthy name, and anything else no name. */
  lemma AuthorNamesSingle(x: AuthorItem)
    ensures x.PlainAuthor? ==> AuthorNames([x]) == [x.text]
    ensures x.NamedAuthor? && x.name.Some? && x.name.value != "" ==> AuthorNames([x]) == [x.name.value]
    ensures (x.NamedAuthor? && (x.name.None? || x.name.value == "")) || x.OtherAuthor? ==> AuthorNames([x]) == []
  {
    assert [x][..0] == [];
  }

  /** Every string entry and every dict entry with a non-empty name contributes its name. */
  lemma AuthorNamesComplete(items: seq<AuthorItem>, i: nat)
    requires i < |items|
    ensures items[i].PlainAuthor? ==> items[i].text in AuthorNames(items)
    ensures items[i].NamedAuthor? && items[i].name.Some? && items[i].name.value != "" ==>
              items[i].name.value in AuthorNames(items)
  {
    var x := items[i];
    assert items == items[..i] + [x] + items[i + 1..];
    AuthorNamesAppend(items[..i] + [x], items[i + 1..]);
    AuthorNamesAppend(items[..i], [x]);
    AuthorNamesSingle(x);
  }

  /** `year`, else (when falsy) the first four-digit run of a truthy `published_date`. */
  function ArticleYear(a: Article): Option<int>
  {
    if !Truthy(a.year) && TruthyStr(a.publishedDate) then FirstFourDigitNumber(a.publishedDate.value) else a.year
  }

  /** `url`, else (when falsy) the DOI-built URL for a truthy DOI. */
  function ArticleUrl(a: Article): string
  {
    if !TruthyStr(a.url) && TruthyStr(a.doi) then BuildArticleUrl(a.doi, None, None, None, None)
    else GetOr(a.url, "")
  }

  /** `parse_article`, with its author loop. */
  method ParseArticle(a: Article) returns (p: Paper)
    ensures p.authors == AuthorNames(GetOr(a.authors, []))
    ensures p.year == ArticleYear(a) && p.url == ArticleUrl(a) && p.source == Source
    ensures p.title == GetOr(a.title, "") && p.abstractText == GetOr(a.abstractText, "") && p.journal == GetOr(a.journal, "")
    ensures p.volume == GetOr(a.volume, "") && p.issue == GetOr(a.issue, "") && p.pages == GetOr(a.pages, "")
    ensures p.doi == GetOr(a.doi, "")
  {
    var items := GetOr(a.authors, []);
    var authors: seq<string> := [];
    var i := 0;
    while i < |items|
      invariant 0 <= i <= |items|
      invariant authors == AuthorNames(items[..i])
    {
      assert items[..i + 1][..i] == items[..i];
      match items[i] {
        case NamedAuthor(name) =>
          if TruthyStr(name) {
            authors := authors + [name.value];
          }
        case PlainAuthor(text) =>
          authors := authors + [text];
        case OtherAuthor =>
      }
      i := i + 1;
    }
    assert items[..i] == items;
    var year := a.year;
    if !Truthy(year) && TruthyStr(a.publishedDate) {
      year := FirstFourDigitNumber(a.publishedDate.value);
    }
    var url := GetOr(a.url, "");
    if url == "" && TruthyStr(a.doi) {
      url := BuildArticleUrl(a.doi, None, None, None, None);
    }
    p := Paper(GetOr(a.title, ""), authors, GetOr(a.abstractText, ""), GetOr(a.journal, ""), year,
               GetOr(a.volume, ""), GetOr(a.issue, ""), GetOr(a.pages, ""), GetOr(a.doi, ""), url, Source);
  }

  // ---------------------------------------------------------------------
  // Deduplication, year filter, search

  /** DOI if non-empty, else URL if non-empty, else the lower-cased stripped title if non-empty. */
  function DedupKey(p: Paper): (k: Option<string>)
    ensures k.Some? ==> k.value != ""
  {
    if p.doi != "" then Some(p.doi)
    else if p.url != "" then Some(p.url)
    else
      var t := Strip(Lower(p.title));
      if t != "" then Some(t) else None
  }

  function PaperYear(p: Paper): Option<int> { p.year }

  /** `deduplicate_papers`. */
  method DeduplicatePapers(papers: seq<Paper>) returns (unique: seq<Paper>)
    ensures unique == Records.Dedup(papers, DedupKey, {})
  {
    unique := Records.DedupLoop(papers, DedupKey);
  }

  /**
   * The deduplication keeps papers in input order, with pairwise distinct
   * keys, drops papers with no DOI, no URL and a blank title, keeps the first
   * paper of every key, and is a no-op on its own output.
   */
  lemma DeduplicateSpec(papers: seq<Paper>)
    ensures var u := Records.Dedup(papers, DedupKey, {});
      && IsSubsequence(u, papers)
      && Records.FreshDistinctKeys(u, DedupKey, {})
      && Records.Dedup(u, DedupKey, {}) == u
    ensures forall i :: 0 <= i < |papers| && Records.FirstOfKey(papers, DedupKey, {}, i) ==>
              papers[i] in Records.Dedup(papers, DedupKey, {})
  {
    Records.DedupSubsequence(papers, DedupKey, {});
    Records.DedupKeys(papers, DedupKey, {});
    Records.DedupIdempotent(papers, DedupKey);
    Records.DedupKeepsFirst(papers, DedupKey, {});
  }

  /** `_filter_by_year`. */
  method FilterByYear(papers: seq<Paper>, start: Option<int>, end: Option<int>) returns (filtered: seq<Paper>)
    ensures filtered == Records.FilterByYear(papers, PaperYear, start, end)
    ensures !Truthy(start) && !Truthy(end) ==> filtered == papers
    ensures Truthy(start) || Truthy(end) ==>
              forall p :: p in filtered <==> p in papers && Records.InYearRange(p.year, start, end)
  {
    filtered := Records.FilterByYearLoop(papers, PaperYear, start, end);
    Records.KeepMembership(papers, PaperYear, start, end);
  }

  /** `search` after each fetch; `fetch` stands for `_fetch_jstage_results`. */
  method Search(strategy: Records.Strategy, maxResults: int, fetch: (Query, int) -> seq<Paper>)
    returns (papers: seq<Paper>)
    ensures papers == Records.SearchResult(strategy.queries, maxResults, strategy.yearStart, strategy.yearEnd,
                                           BuildQuery, fetch, DedupKey, PaperYear)
  {
    papers := Records.Search(strategy.queries, maxResults, strategy.yearStart, strategy.yearEnd,
                             BuildQuery, fetch, DedupKey, PaperYear);
  }

  /** The source's `_fetch_jstage_results`, which returns no papers. */
  function StubFetch(q: Query, limit: int): seq<Paper> { [] }

  /** With the source's own fetch every search returns no papers. */
  lemma StubSearchIsEmpty(strategy: Records.Strategy, maxResults: int)
    ensures Records.SearchResult(strategy.queries, maxResults, strategy.yearStart, strategy.yearEnd,
                                 BuildQuery, StubFetch, DedupKey, PaperYear) == []
  {
    if strategy.queries != [] {
      StubFetchAll(strategy.queries, Records.PerQueryTarget(maxResults, |strategy.queries|, 1));
    }
  }

  lemma {:induction false} StubFetchAll(queries: seq<string>, perQuery: int)
    ensures Records.FetchAll(queries, BuildQuery, StubFetch, perQuery) == []
    decreases |queries|
  {
    if queries != [] {
      StubFetchAll(queries[..|queries| - 1], perQuery);
    }
  }
}
