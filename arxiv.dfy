/**
 * The arXiv searcher's deterministic parts: the boolean-query rewrite, arXiv
 * identifier extraction, the abstract and PDF links, the year of a
 * publication date, the parse of one dictionary-shaped feed entry, and the
 * deduplicate / year-filter / truncate pipeline after the fetches.
 */
module Arxiv {
  import opened Common
  import opened Strs
  import Records

  const Source := "arXiv"
  const AbsPrefix := "https://arxiv.org/abs/"
  const PdfPrefix := "https://arxiv.org/pdf/"
  const PdfSuffix := ".pdf"

  // ---------------------------------------------------------------------
  // Query rewriting

  /** The operator rewrite followed by `' '.join(query.split())`. */
  function QueryText(search: string): string
  {
    NormalizeSpaces(Replace(Replace(Replace(search, "AND", " AND "), "OR", " OR "), "NOT", " ANDNOT "))
  }

  /** `build_arxiv_query(search_string, year_start, year_end)`; the year bounds do not enter the query. */
  function BuildArxivQuery(search: string, yearStart: Option<int>, yearEnd: Option<int>): string
  {
    QueryText(search)
  }

  /**
   * The query never starts or ends with white space and has no two white-space
   * characters in a row; the years never change it; a search string without
   * operator text only has its white space collapsed; and collapsing again
   * changes nothing.
   */
  lemma BuildArxivQuerySpec(search: string, yearStart: Option<int>, yearEnd: Option<int>)
    ensures forall i :: 0 <= i < |BuildArxivQuery(search, yearStart, yearEnd)|
                        && IsSpace(BuildArxivQuery(search, yearStart, yearEnd)[i]) ==>
              && BuildArxivQuery(search, yearStart, yearEnd)[i] == ' '
              && 0 < i < |BuildArxivQuery(search, yearStart, yearEnd)| - 1
              && !IsSpace(BuildArxivQuery(search, yearStart, yearEnd)[i - 1])
              && !IsSpace(BuildArxivQuery(search, yearStart, yearEnd)[i + 1])
    ensures BuildArxivQuery(search, yearStart, yearEnd) == BuildArxivQuery(search, None, None)
    ensures NormalizeSpaces(BuildArxivQuery(search, yearStart, yearEnd)) == BuildArxivQuery(search, yearStart, yearEnd)
    ensures !Contains(search, "AND") && !Contains(search, "OR") && !Contains(search, "NOT") ==>
              BuildArxivQuery(search, yearStart, yearEnd) == NormalizeSpaces(search)
  {
    var padded := Replace(Replace(Replace(search, "AND", " AND "), "OR", " OR "), "NOT", " ANDNOT ");
    NormalizeSpacesShape(padded);
    NormalizeSpacesIdempotent(padded);
    if !Contains(search, "AND") && !Contains(search, "OR") && !Contains(search, "NOT") {
      ReplaceAbsent(search, "AND", " AND ");
      ReplaceAbsent(search, "OR", " OR ");
      ReplaceAbsent(search, "NOT", " ANDNOT ");
    }
  }

  // ---------------------------------------------------------------------
  // The regular expression `(\d{4}\.\d{4,5})`

  /** Four digits, a dot and four more digits start at `i`. */
  predicate ArxivIdAt(s: string, i: int)
  {
    FourDigitsAt(s, i) && i + 9 <= |s| && s[i + 4] == '.' && FourDigitsAt(s, i + 5)
  }

  /** Where the greedy `\d{4,5}` stops: after a fifth digit when there is one. */
  function MatchEnd(s: string, i: int): (e: nat)
    requires ArxivIdAt(s, i)
    ensures e == i + 9 || e == i + 10
    ensures e <= |s|
  {
    if i + 9 < |s| && IsDigit(s[i + 9]) then i + 10 else i + 9
  }

  /** Leftmost index `>= from` where a match starts. */
  function ArxivIdFrom(s: string, from: nat): (r: Option<nat>)
    requires from <= |s|
    ensures r.Some? ==> from <= r.value && ArxivIdAt(s, r.value)
                        && forall j :: from <= j < r.value ==> !ArxivIdAt(s, j)
    ensures r.None? ==> forall j :: from <= j ==> !ArxivIdAt(s, j)
    decreases |s| - from
  {
    if from + 9 > |s| then None
    else if ArxivIdAt(s, from) then Some(from)
    else ArxivIdFrom(s, from + 1)
  }

  /** A bare identifier: the whole text is one match of the pattern. */
  predicate IsArxivId(t: string)
  {
    ArxivIdAt(t, 0) && MatchEnd(t, 0) == |t|
  }

  /** `extract_arxiv_id(id_string)`: the first match, or the input unchanged. */
  function ExtractArxivId(s: string): string
  {
    match ArxivIdFrom(s, 0)
    case None => s
    case Some(i) => s[i..MatchEnd(s, i)]
  }

  /** With no match the text comes back unchanged; otherwise the leftmost match, which is a bare identifier. */
  lemma ExtractArxivIdSpec(s: string)
    ensures (forall i :: !ArxivIdAt(s, i)) ==> ExtractArxivId(s) == s
    ensures (exists i :: ArxivIdAt(s, i)) ==>
              && IsArxivId(ExtractArxivId(s))
              && exists i :: ArxivIdAt(s, i) && (forall j :: 0 <= j < i ==> !ArxivIdAt(s, j))
                             && ExtractArxivId(s) == s[i..MatchEnd(s, i)]
  {
    match ArxivIdFrom(s, 0)
    case None =>
    case Some(i) =>
      MatchIsId(s, i);
  }

  lemma MatchIsId(s: string, i: nat)
    requires ArxivIdAt(s, i)
    ensures IsArxivId(s[i..MatchEnd(s, i)])
  {
    var t := s[i..MatchEnd(s, i)];
    assert forall k :: 0 <= k < |t| ==> t[k] == s[i + k];
  }

  /** Extracting from an extracted identifier changes nothing. */
  lemma ExtractIdempotent(s: string)
    ensures ExtractArxivId(ExtractArxivId(s)) == ExtractArxivId(s)
  {
    match ArxivIdFrom(s, 0)
    case None =>
    case Some(i) =>
      var t := s[i..MatchEnd(s, i)];
      MatchIsId(s, i);
      assert ArxivIdFrom(t, 0) == Some(0);
  }

  /**
   * An identifier after digit-free text, followed by something that does not
   * extend its digits (a version suffix, `.pdf`, nothing), is what comes out.
   */
  lemma ExtractAfter(p: string, t: string, rest: string)
    requires forall k :: 0 <= k < |p| ==> !IsDigit(p[k])
    requires IsArxivId(t)
    requires rest == [] || !IsDigit(rest[0])
    ensures ExtractArxivId(p + t + rest) == t
  {
    var s := p + t + rest;
    assert forall k :: 0 <= k < |t| ==> s[|p| + k] == t[k];
    assert ArxivIdAt(s, |p|);
    assert forall j :: 0 <= j < |p| ==> !ArxivIdAt(s, j) by {
      assert forall j :: 0 <= j < |p| ==> s[j] == p[j];
    }
    assert ArxivIdFrom(s, 0) == Some(|p|);
    if rest != [] {
      assert s[|p| + |t|] == rest[0];
    }
    assert MatchEnd(s, |p|) == |p| + |t|;
    assert s[|p|..|p| + |t|] == t;
  }

  const SampleEntryId := "http://arxiv.org/abs/2301.12345v1"
  const SampleAbsHttp := "http://arxiv.org/abs/"

  /** `http://arxiv.org/abs/2301.12345v1` gives `2301.12345`. */
  lemma ExtractFromEntryUrl()
    ensures ExtractArxivId(SampleEntryId) == "2301.12345"
  {
    assert SampleEntryId == SampleAbsHttp + "2301.12345" + "v1";
    ExtractAfter(SampleAbsHttp, "2301.12345", "v1");
  }

  /** `1234.5678v2` gives `1234.5678`: the version suffix is not part of the identifier. */
  lemma ExtractDropsVersion()
    ensures ExtractArxivId("1234.5678v2") == "1234.5678"
  {
    assert "1234.5678v2" == [] + "1234.5678" + "v2";
    ExtractAfter([], "1234.5678", "v2");
  }

  /** A bare `2301.12345` is already clean. */
  lemma ExtractKeepsBareId()
    ensures ExtractArxivId("2301.12345") == "2301.12345"
  {
    assert "2301.12345" == [] + "2301.12345" + [];
    ExtractAfter([], "2301.12345", []);
  }

  // ---------------------------------------------------------------------
  // Links

  /** `f'https://arxiv.org/abs/{arxiv_id}'`. */
  function AbsUrl(id: string): string
  {
    AbsPrefix + id
  }

  /** `build_pdf_url(arxiv_id)`. */
  function PdfUrl(id: string): string
  {
    PdfPrefix + id + PdfSuffix
  }

  /** Each link determines the identifier it was built from. */
  lemma UrlsInjective(a: string, b: string)
    ensures AbsUrl(a) == AbsUrl(b) ==> a == b
    ensures PdfUrl(a) == PdfUrl(b) ==> a == b
  {
    if AbsUrl(a) == AbsUrl(b) {
      assert a == AbsUrl(a)[|AbsPrefix|..];
      assert b == AbsUrl(b)[|AbsPrefix|..];
    }
    if PdfUrl(a) == PdfUrl(b) {
      assert |a| == |b|;
      assert a == PdfUrl(a)[|PdfPrefix|..|PdfPrefix| + |a|];
      assert b == PdfUrl(b)[|PdfPrefix|..|PdfPrefix| + |b|];
    }
  }

  /** Extraction recovers a bare identifier from either link. */
  lemma UrlsRecoverId(id: string)
    requires IsArxivId(id)
    ensures ExtractArxivId(AbsUrl(id)) == id
    ensures ExtractArxivId(PdfUrl(id)) == id
  {
    assert AbsUrl(id) == AbsPrefix + id + [];
    ExtractAfter(AbsPrefix, id, []);
    ExtractAfter(PdfPrefix, id, PdfSuffix);
  }

  // ---------------------------------------------------------------------
  // Parsing one dictionary-shaped entry

  /** An item of `entry['authors']`: a dict with an optional `name`, or any other value as its `str`. */
  datatype EntryAuthor = AuthorDict(name: Option<string>) | AuthorValue(text: string)

  /** A category dict with an optional `term`. */
  datatype Category = Category(term: Option<string>)

  /** The keys `parse_entry` reads; `None` is a missing key. */
  datatype Entry = Entry(id: Option<string>, title: Option<string>, summary: Option<string>,
                         published: Option<string>, authors: Option<seq<EntryAuthor>>,
                         primaryCategory: Option<Category>, categories: Option<seq<Category>>)

  datatype Paper = Paper(title: string, authors: seq<string>, abstractText: string, arxivId: string,
                         url: string, pdfUrl: string, publishedDate: string, year: Option<int>,
                         categories: seq<string>, source: string)

  function AuthorName(a: EntryAuthor): string
  {
    match a
    case AuthorDict(name) => GetOr(name, "")
    case AuthorValue(text) => text
  }

  /** `cat.get('term', '')`. */
  function Term(c: Category): string
  {
    GetOr(c.term, "")
  }

  predicate Distinct(xs: seq<string>)
  {
    forall a, b :: 0 <= a < b < |xs| ==> xs[a] != xs[b]
  }

  /** The loop over further categories: append each non-empty term not yet listed. */
  function AddTerms(cats: seq<string>, cs: seq<Category>): seq<string>
    decreases |cs|
  {
    if cs == [] then cats
    else
      var t := Term(cs[0]);
      AddTerms(if t != "" && t !in cats then cats + [t] else cats, cs[1..])
  }

  /** Some category in `cs` has term `x`. */
  predicate HasTerm(cs: seq<Category>, x: string)
  {
    exists i :: 0 <= i < |cs| && Term(cs[i]) == x
  }

  lemma HasTermCons(cs: seq<Category>, x: string)
    requires cs != []
    ensures HasTerm(cs, x) <==> Term(cs[0]) == x || HasTerm(cs[1..], x)
  {
    if HasTerm(cs, x) {
      var i :| 0 <= i < |cs| && Term(cs[i]) == x;
      if i > 0 {
        assert Term(cs[1..][i - 1]) == x;
      }
    }
    if HasTerm(cs[1..], x) {
      var i :| 0 <= i < |cs[1..]| && Term(cs[1..][i]) == x;
      assert Term(cs[i + 1]) == x;
    }
  }

  /** The loop keeps what was listed, in front, adds no duplicates, and lists exactly the earlier entries and the non-empty terms. */
  lemma {:induction false} AddTermsSpec(cats: seq<string>, cs: seq<Category>)
    ensures |AddTerms(cats, cs)| >= |cats| && AddTerms(cats, cs)[..|cats|] == cats
    ensures Distinct(cats) ==> Distinct(AddTerms(cats, cs))
    ensures forall x :: x in AddTerms(cats, cs) <==> x in cats || (x != "" && HasTerm(cs, x))
    decreases |cs|
  {
    if cs != [] {
      var t := Term(cs[0]);
      var next := if t != "" && t !in cats then cats + [t] else cats;
      AddTermsSpec(next, cs[1..]);
      assert AddTerms(next, cs[1..])[..|cats|] == next[..|cats|];
      forall x ensures HasTerm(cs, x) <==> t == x || HasTerm(cs[1..], x) {
        HasTermCons(cs, x);
      }
    }
  }

  /** The primary term, listed first even when it is empty. */
  function InitialCategories(e: Entry): seq<string>
  {
    if e.primaryCategory.Some? then [Term(e.primaryCategory.value)] else []
  }

  function Categories(e: Entry): seq<string>
  {
    AddTerms(InitialCategories(e), GetOr(e.categories, []))
  }

  /**
   * The categories begin with the primary term when there is one, hold no
   * duplicates, and are exactly that term plus the non-empty further terms.
   */
  lemma CategoriesSpec(e: Entry)
    ensures e.primaryCategory.Some? ==> |Categories(e)| >= 1 && Categories(e)[0] == Term(e.primaryCategory.value)
    ensures Distinct(Categories(e))
    ensures forall x :: x in Categories(e) <==>
              (e.primaryCategory.Some? && x == Term(e.primaryCategory.value))
              || (x != "" && HasTerm(GetOr(e.categories, []), x))
  {
    AddTermsSpec(InitialCategories(e), GetOr(e.categories, []));
  }

  /** The author loop of `parse_entry`: one name per item, in order. */
  method ParseAuthors(entryAuthors: seq<EntryAuthor>) returns (authors: seq<string>)
    ensures |authors| == |entryAuthors|
    ensures forall i :: 0 <= i < |authors| ==> authors[i] == AuthorName(entryAuthors[i])
  {
    authors := [];
    var i := 0;
    while i < |entryAuthors|
      invariant 0 <= i <= |entryAuthors|
      invariant |authors| == i
      invariant forall k :: 0 <= k < i ==> authors[k] == AuthorName(entryAuthors[k])
    {
      match entryAuthors[i] {
        case AuthorDict(name) => authors := authors + [GetOr(name, "")];
        case AuthorValue(text) => authors := authors + [text];
      }
      i := i + 1;
    }
  }

  /** The category code of `parse_entry`. */
  method ParseCategories(e: Entry) returns (categories: seq<string>)
    ensures categories == Categories(e)
  {
    categories := [];
    if e.primaryCategory.Some? {
      categories := categories + [Term(e.primaryCategory.value)];
    }
    var cs := GetOr(e.categories, []);
    assert categories == InitialCategories(e) && cs[0..] == cs;
    var j := 0;
    while j < |cs|
      invariant 0 <= j <= |cs|
      invariant AddTerms(categories, cs[j..]) == Categories(e)
    {
      assert cs[j..][1..] == cs[j + 1..];
      var term := Term(cs[j]);
      if term != "" && term !in categories {
        categories := categories + [term];
      }
      j := j + 1;
    }
    assert cs[j..] == [];
  }

  /** `parse_entry(entry)`. */
  method ParseEntry(e: Entry) returns (p: Paper)
    ensures p.arxivId == ExtractArxivId(GetOr(e.id, ""))
    ensures |p.authors| == |GetOr(e.authors, [])|
    ensures forall i :: 0 <= i < |p.authors| ==> p.authors[i] == AuthorName(GetOr(e.authors, [])[i])
    ensures p.categories == Categories(e)
    ensures p.url == AbsUrl(p.arxivId) && p.pdfUrl == PdfUrl(p.arxivId)
    ensures p.publishedDate == GetOr(e.published, "") && p.year == Records.DateYear(p.publishedDate)
    ensures p.title == GetOr(e.title, "") && p.abstractText == GetOr(e.summary, "") && p.source == Source
  {
    var arxivId := ExtractArxivId(GetOr(e.id, ""));
    var authors := ParseAuthors(GetOr(e.authors, []));
    var publishedDate := GetOr(e.published, "");
    var year := Records.DateYear(publishedDate);
    var categories := ParseCategories(e);
    p := Paper(GetOr(e.title, ""), authors, GetOr(e.summary, ""), arxivId, AbsUrl(arxivId),
               PdfUrl(arxivId), publishedDate, year, categories, Source);
  }

  // ---------------------------------------------------------------------
  // Deduplication, year filter and the search pipeline

  /** `paper.get('arxiv_id', '')`, when non-empty. */
  function DedupKey(p: Paper): Option<string>
  {
    if p.arxivId != "" then Some(p.arxivId) else None
  }

  function PaperYear(p: Paper): Option<int> { p.year }

  /** `deduplicate_papers(papers)`. */
  method DeduplicatePapers(papers: seq<Paper>) returns (unique: seq<Paper>)
    ensures unique == Records.Dedup(papers, DedupKey, {})
  {
    unique := Records.DedupLoop(papers, DedupKey);
  }

  /**
   * The kept papers appear in input order, have non-empty, pairwise distinct
   * identifiers, include the first paper of every identifier, and are a
   * fixed point of the deduplication.
   */
  lemma DeduplicateSpec(papers: seq<Paper>)
    ensures IsSubsequence(Records.Dedup(papers, DedupKey, {}), papers)
    ensures forall i :: 0 <= i < |Records.Dedup(papers, DedupKey, {})| ==>
              Records.Dedup(papers, DedupKey, {})[i].arxivId != ""
    ensures forall i, j :: 0 <= i < j < |Records.Dedup(papers, DedupKey, {})| ==>
              Records.Dedup(papers, DedupKey, {})[i].arxivId != Records.Dedup(papers, DedupKey, {})[j].arxivId
    ensures forall i :: 0 <= i < |papers| && papers[i].arxivId != ""
                        && (forall j :: 0 <= j < i ==> papers[j].arxivId != papers[i].arxivId) ==>
              papers[i] in Records.Dedup(papers, DedupKey, {})
    ensures Records.Dedup(Records.Dedup(papers, DedupKey, {}), DedupKey, {}) == Records.Dedup(papers, DedupKey, {})
  {
    var u := Records.Dedup(papers, DedupKey, {});
    Records.DedupSubsequence(papers, DedupKey, {});
    Records.DedupKeys(papers, DedupKey, {});
    Records.DedupIdempotent(papers, DedupKey);
    Records.DedupKeepsFirst(papers, DedupKey, {});
    forall i, j | 0 <= i < j < |u| ensures u[i].arxivId != u[j].arxivId {
      assert DedupKey(u[i]) != DedupKey(u[j]);
    }
    forall i | 0 <= i < |papers| && papers[i].arxivId != ""
               && (forall j :: 0 <= j < i ==> papers[j].arxivId != papers[i].arxivId)
      ensures papers[i] in u
    {
      assert Records.FirstOfKey(papers, DedupKey, {}, i);
    }
  }

  /** `filter_by_year(papers, year_start, year_end)`. */
  method FilterByYear(papers: seq<Paper>, start: Option<int>, end: Option<int>) returns (filtered: seq<Paper>)
    ensures filtered == Records.FilterByYear(papers, PaperYear, start, end)
    ensures !Truthy(start) && !Truthy(end) ==> filtered == papers
    ensures Truthy(start) || Truthy(end) ==>
              forall p :: p in filtered <==> p in papers && Records.InYearRange(p.year, start, end)
  {
    filtered := Records.FilterByYearLoop(papers, PaperYear, start, end);
    Records.KeepMembership(papers, PaperYear, start, end);
  }

  /** `search(search_strategy, max_results)`; `fetch` stands for `_fetch_arxiv_results`. */
  method Search(strategy: Records.Strategy, maxResults: int, fetch: (string, int) -> seq<Paper>)
    returns (papers: seq<Paper>)
    ensures papers == Records.SearchResult(strategy.queries, maxResults, strategy.yearStart, strategy.yearEnd,
                                           QueryText, fetch, DedupKey, PaperYear)
  {
    papers := Records.Search(strategy.queries, maxResults, strategy.yearStart, strategy.yearEnd,
                             QueryText, fetch, DedupKey, PaperYear);
  }
}
