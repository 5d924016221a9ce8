/**
 * The Semantic Scholar searcher of the lightweight system: the request's
 * year parameter and the normalisation of each returned paper.
 */
module SemanticScholar {
  import opened Common
  import opened Strs

  // ---------------------------------------------------------------------
  // The request

  /** Python truthiness of an optional year: present and non-zero. */
  predicate TruthyYear(y: Option<int>)
  {
    y.Some? && y.value != 0
  }

  /** The `year` request parameter: "s-e", "s-" or "-e" by which bounds are truthy, absent otherwise. */
  function YearParam(yearStart: Option<int>, yearEnd: Option<int>): Option<string>
  {
    if TruthyYear(yearStart) && TruthyYear(yearEnd) then Some(IntToString(yearStart.value) + "-" + IntToString(yearEnd.value))
    else if TruthyYear(yearStart) then Some(IntToString(yearStart.value) + "-")
    else if TruthyYear(yearEnd) then Some("-" + IntToString(yearEnd.value))
    else None
  }

  /** `t` is a non-empty run of decimal digits whose value is `n`. */
  predicate ReadsAs(t: string, n: int)
  {
    t != "" && (forall i :: 0 <= i < |t| ==> IsDigit(t[i])) && DigitsValue(t) == n
  }

  /**
   * The parameter is present exactly when a bound is truthy. For positive
   * years it reads back as the bounds: split on '-', the two sides are the
   * decimal start and end, an open side being empty.
   */
  lemma YearParamSpec(yearStart: Option<int>, yearEnd: Option<int>)
    ensures YearParam(yearStart, yearEnd).Some? <==> TruthyYear(yearStart) || TruthyYear(yearEnd)
    ensures (yearStart.None? || yearStart.value > 0) && (yearEnd.None? || yearEnd.value > 0)
            && YearParam(yearStart, yearEnd).Some? ==>
              var parts := Split(YearParam(yearStart, yearEnd).value, "-");
              |parts| == 2
              && (if yearStart.Some? then ReadsAs(parts[0], yearStart.value) else parts[0] == "")
              && (if yearEnd.Some? then ReadsAs(parts[1], yearEnd.value) else parts[1] == "")
  {
    if (yearStart.None? || yearStart.value > 0) && (yearEnd.None? || yearEnd.value > 0) && YearParam(yearStart, yearEnd).Some? {
      var s := if yearStart.Some? then NatToString(yearStart.value) else "";
      var e := if yearEnd.Some? then NatToString(yearEnd.value) else "";
      if yearStart.Some? {
        NatToStringRoundTrip(yearStart.value);
      }
      if yearEnd.Some? {
        NatToStringRoundTrip(yearEnd.value);
      }
      assert YearParam(yearStart, yearEnd).value == Join([s, e], "-");
      SplitJoin([s, e], "-");
    }
  }

  const Fields := "paperId,title,authors,year,abstract,url,openAccessPdf,citationCount,influentialCitationCount"

  /** The query parameters of the `paper/search` request. */
  datatype SearchParams = SearchParams(query: string, limit: int, fields: string, year: Option<string>)

  function RequestParams(query: string, yearStart: Option<int>, yearEnd: Option<int>, maxResults: int): SearchParams
  {
    SearchParams(query, maxResults, Fields, YearParam(yearStart, yearEnd))
  }

  // ---------------------------------------------------------------------
  // Parsing one paper

  /** An author entry of the response. */
  datatype RawAuthor = RawAuthor(name: Option<string>)

  /** A paper entry of the response; each key may be missing. */
  datatype RawPaper = RawPaper(paperId: Option<string>, title: Option<string>, authors: Option<seq<RawAuthor>>,
                               year: Option<int>, abstractText: Option<string>, url: Option<string>,
                               openAccessPdf: Option<map<string, string>>, citationCount: Option<int>,
                               influentialCitationCount: Option<int>)

  /** The searcher's normalised paper. */
  datatype Paper = Paper(title: string, authors: seq<string>, publishedDate: string, url: string, pdfUrl: Option<string>,
                         abstractText: string, source: string, citationCount: int, influentialCitationCount: int)

  const UnknownAuthor := "Unknown"
  const UnknownTitle := "Unknown Title"
  const NotAvailable := "N/A"
  const NoAbstract := "アブストラクトなし"
  const SourceName := "Semantic Scholar API"
  const PaperPage := "https://www.semanticscholar.org/paper/"

  function AuthorNames(authors: seq<RawAuthor>): seq<string>
  {
    seq(|authors|, i requires 0 <= i < |authors| => GetOr(authors[i].name, UnknownAuthor))
  }

  /** The open-access link, looked up only when the entry is a non-empty mapping. */
  function PdfUrl(openAccessPdf: Option<map<string, string>>): Option<string>
  {
    if openAccessPdf.Some? && |openAccessPdf.value| > 0 then
      (if "url" in openAccessPdf.value then Some(openAccessPdf.value["url"]) else None)
    else None
  }

  /** The paper's Semantic Scholar page when it has an id, else its own `url`, else "N/A". */
  function PaperUrl(paperId: Option<string>, url: Option<string>): string
  {
    var id := GetOr(paperId, "");
    if id != "" then PaperPage + id else GetOr(url, NotAvailable)
  }

  /** `_parse_paper(paper_data)`. */
  function ParsePaper(raw: RawPaper): Paper
  {
    Paper(GetOr(raw.title, UnknownTitle), AuthorNames(GetOr(raw.authors, [])),
          if raw.year.Some? then IntToString(raw.year.value) else NotAvailable,
          PaperUrl(raw.paperId, raw.url), PdfUrl(raw.openAccessPdf),
          GetOr(raw.abstractText, NoAbstract), SourceName,
          GetOr(raw.citationCount, 0), GetOr(raw.influentialCitationCount, 0))
  }

  /**
   * The authors keep their number and order, a nameless one becoming
   * "Unknown". The URL is the paper page of a non-empty id, from which the
   * id reads back, else the record's URL, else "N/A". A PDF link exists only
   * for a non-empty open-access entry that has one. Missing title, abstract
   * and counts become "Unknown Title", "アブストラクトなし" and 0, and the
   * source is always "Semantic Scholar API".
   */
  lemma ParsePaperSpec(raw: RawPaper)
    ensures var p := ParsePaper(raw);
            var authors := GetOr(raw.authors, []);
            |p.authors| == |authors|
            && (forall i :: 0 <= i < |authors| ==>
                  (authors[i].name.Some? ==> p.authors[i] == authors[i].name.value)
                  && (authors[i].name.None? ==> p.authors[i] == "Unknown"))
    ensures var p := ParsePaper(raw);
            (GetOr(raw.paperId, "") != "" ==>
               |p.url| > |PaperPage| && p.url[..|PaperPage|] == PaperPage && p.url[|PaperPage|..] == raw.paperId.value)
            && (GetOr(raw.paperId, "") == "" && raw.url.Some? ==> p.url == raw.url.value)
            && (GetOr(raw.paperId, "") == "" && raw.url.None? ==> p.url == "N/A")
    ensures ParsePaper(raw).pdfUrl.Some? <==>
              raw.openAccessPdf.Some? && |raw.openAccessPdf.value| > 0 && "url" in raw.openAccessPdf.value
    ensures ParsePaper(raw).pdfUrl.Some? ==> ParsePaper(raw).pdfUrl.value == raw.openAccessPdf.value["url"]
    ensures var p := ParsePaper(raw);
            p.title == GetOr(raw.title, "Unknown Title") && p.abstractText == GetOr(raw.abstractText, "アブストラクトなし")
            && p.citationCount == GetOr(raw.citationCount, 0)
            && p.influentialCitationCount == GetOr(raw.influentialCitationCount, 0)
            && p.source == "Semantic Scholar API"
    ensures raw.year.Some? && raw.year.value >= 0 ==> DigitsValue(ParsePaper(raw).publishedDate) == raw.year.value
    ensures raw.year.None? ==> ParsePaper(raw).publishedDate == "N/A"
  {
    if raw.year.Some? && raw.year.value >= 0 {
      NatToStringRoundTrip(raw.year.value);
    }
  }

  // ---------------------------------------------------------------------
  // The search

  /** The response of the request: None when it failed, otherwise its `data` entry (None when missing). */
  type Fetch = SearchParams -> Option<Option<seq<RawPaper>>>

  /** `search_papers(query, year_start, year_end, max_results)`: every entry parsed, in order; nothing on a failed request. */
  method SearchPapers(query: string, yearStart: Option<int>, yearEnd: Option<int>, maxResults: int, fetch: Fetch)
    returns (papers: seq<Paper>)
    ensures var response := fetch(RequestParams(query, yearStart, yearEnd, maxResults));
            var data := if response.Some? then GetOr(response.value, []) else [];
            |papers| == |data| && forall i :: 0 <= i < |data| ==> papers[i] == ParsePaper(data[i])
  {
    papers := [];
    var response := fetch(RequestParams(query, yearStart, yearEnd, maxResults));
    if response.Some? {
      var data := GetOr(response.value, []);
      for i := 0 to |data|
        invariant |papers| == i
        invariant forall k :: 0 <= k < i ==> papers[k] == ParsePaper(data[k])
      {
        papers := papers + [ParsePaper(data[i])];
      }
    }
  }
}
