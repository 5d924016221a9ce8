/**
 * The government-documents searcher: its fixed table of sources, the
 * supported countries, document-type detection and agency extraction by
 * ordered pattern tables, the parse of one document, type and year filters,
 * and the deduplication whose one "seen" set holds URLs and titles alike.
 */
module GovDocs {
  import opened Common
  import opened Strs
  import Records

  // ---------------------------------------------------------------------
  // Source table

  /** One entry of `_initialize_sources()`; a missing key is `None`. */
  datatype SourceInfo = SourceInfo(id: string, name: string, country: Option<string>,
                                   organization: Option<string>, url: string,
                                   searchUrl: Option<string>, description: string)

  /** `_initialize_sources()`: the dictionary as (key, entry) pairs in insertion order. */
  function Sources(): seq<(string, SourceInfo)>
  {
    [ ("usa_gov", SourceInfo("usa_gov", "USA.gov", Some("USA"), None, "https://www.usa.gov",
                             Some("https://search.usa.gov/search"), "Official US Government portal")),
      ("japan_gov", SourceInfo("japan_gov", "e-Gov (Japan)", Some("Japan"), None, "https://www.e-gov.go.jp",
                               None, "Japanese government portal")),
      ("uk_gov", SourceInfo("uk_gov", "GOV.UK", Some("UK"), None, "https://www.gov.uk",
                            Some("https://www.gov.uk/api/search.json"), "UK Government official website")),
      ("eu", SourceInfo("eu", "EUR-Lex", None, Some("European Union"), "https://eur-lex.europa.eu",
                        None, "EU law and publications")),
      ("who", SourceInfo("who", "World Health Organization", None, Some("WHO"), "https://www.who.int",
                         None, "WHO publications and guidelines")),
      ("un", SourceInfo("un", "United Nations", None, Some("UN"), "https://www.un.org",
                        None, "UN documents and resolutions")) ]
  }

  /** `get_available_sources()`. */
  function AvailableSources(): (r: seq<SourceInfo>)
    ensures |r| == |Sources()|
    ensures forall i :: 0 <= i < |r| ==> r[i] == Sources()[i].1
  {
    seq(|Sources()|, i requires 0 <= i < |Sources()| => Sources()[i].1)
  }

  /** The keys of the source table, in order. */
  function SourceIds(): (r: seq<string>)
    ensures |r| == |Sources()|
    ensures forall i :: 0 <= i < |r| ==> r[i] == Sources()[i].0
  {
    seq(|Sources()|, i requires 0 <= i < |Sources()| => Sources()[i].0)
  }

  /** Six sources under distinct keys; each one's id is its key, and each has a name, a url and a country or an organization. */
  lemma SourceTableSpec()
    ensures |AvailableSources()| == 6
    ensures forall i :: 0 <= i < |AvailableSources()| ==>
              && AvailableSources()[i].id == SourceIds()[i]
              && AvailableSources()[i].name != "" && AvailableSources()[i].url != ""
              && (AvailableSources()[i].country.Some? || AvailableSources()[i].organization.Some?)
    ensures forall i, j :: 0 <= i < j < |SourceIds()| ==> SourceIds()[i] != SourceIds()[j]
  {
  }

  /** A value `get_supported_countries` collects from one source. */
  predicate Supports(src: SourceInfo, x: string)
  {
    src.country == Some(x) || src.organization == Some(x)
  }

  /** `get_supported_countries()`: every country and organization, as a set (the source returns `list(set(...))`). */
  method GetSupportedCountries() returns (countries: set<string>)
    ensures forall x :: x in countries <==> exists i :: 0 <= i < |AvailableSources()| && Supports(AvailableSources()[i], x)
  {
    var sources := AvailableSources();
    var collected: seq<string> := [];
    var i := 0;
    while i < |sources|
      invariant 0 <= i <= |sources|
      invariant forall x :: x in collected <==> exists k :: 0 <= k < i && Supports(sources[k], x)
    {
      var src := sources[i];
      if src.country.Some? {
        collected := collected + [src.country.value];
      }
      if src.organization.Some? {
        collected := collected + [src.organization.value];
      }
      i := i + 1;
    }
    countries := set x | x in collected;
  }

  // ---------------------------------------------------------------------
  // Document type detection

  /** One alternative of a type pattern: a literal, or two words with white space between them (`a\s+b`). */
  datatype Alt = Word(w: string) | Spaced(first: string, second: string)

  /** `a\s+b` matches at `i`. */
  predicate SpacedAt(s: string, i: int, a: string, b: string)
  {
    OccursAt(s, a, i)
    && exists k :: i + |a| < k <= |s| && (forall m :: i + |a| <= m < k ==> IsSpace(s[m])) && OccursAt(s, b, k)
  }

  predicate AltMatches(s: string, alt: Alt)
  {
    match alt
    case Word(w) => Contains(s, w)
    case Spaced(a, b) => exists i :: 0 <= i <= |s| && SpacedAt(s, i, a, b)
  }

  /** `re.search(pattern, s)` for a pattern written as alternatives. */
  predicate PatternMatches(s: string, pattern: seq<Alt>)
  {
    exists j :: 0 <= j < |pattern| && AltMatches(s, pattern[j])
  }

  const DefaultType := "Government Document"

  /**
   * `type_patterns`, in order; `(action|memorandum|directive)` and the like
   * are spelled out as alternatives, and `guidelines?` as `guideline`, which
   * a search finds exactly when it finds `guidelines?`.
   */
  function TypeTable(): seq<(seq<Alt>, string)>
  {
    [ExecutiveOrderRow, PresidentialRow, PublicCommentRow, ReportRow, WhitePaperRow, PolicyPaperRow,
     RegulationRow, LegislationRow, HearingRow, GuidelinesRow, StrategyRow, BudgetRow]
  }

  const ExecutiveOrderRow := ([Word("executive order")], "Executive Order")
  const PresidentialRow := ([Spaced("presidential", "action"), Spaced("presidential", "memorandum"),
                             Spaced("presidential", "directive")], "Presidential Document")
  const PublicCommentRow := ([Spaced("public", "comment")], "Public Comment")
  const ReportRow := ([Spaced("annual", "report"), Spaced("quarterly", "report"), Spaced("monthly", "report")], "Report")
  const WhitePaperRow := ([Word("white paper")], "White Paper")
  const PolicyPaperRow := ([Spaced("policy", "brief"), Spaced("policy", "paper"), Spaced("policy", "statement")],
                           "Policy Paper")
  const RegulationRow := ([Word("regulation")], "Regulation")
  const LegislationRow := ([Word("bill"), Spaced("act", "of")], "Legislation")
  const HearingRow := ([Word("hearing"), Word("testimony")], "Hearing")
  const GuidelinesRow := ([Word("guideline")], "Guidelines")
  const StrategyRow := ([Word("strategy"), Word("roadmap")], "Strategic Document")
  const BudgetRow := ([Word("budget")], "Budget Document")

  /** The label of the first row of `table` at or after `k` whose pattern matches, or the default. */
  function TypeFrom(s: string, table: seq<(seq<Alt>, string)>, k: nat): string
    requires k <= |table|
    decreases |table| - k
  {
    if k == |table| then DefaultType
    else if PatternMatches(s, table[k].0) then table[k].1
    else TypeFrom(s, table, k + 1)
  }

  /** The type `detect_document_type(title)` returns. */
  function DocumentType(title: string): string
  {
    TypeFrom(Lower(title), TypeTable(), 0)
  }

  lemma {:induction false} TypeFromSpec(s: string, table: seq<(seq<Alt>, string)>, k: nat)
    requires k <= |table|
    ensures (forall j :: k <= j < |table| ==> !PatternMatches(s, table[j].0)) ==> TypeFrom(s, table, k) == DefaultType
    ensures (exists j :: k <= j < |table| && PatternMatches(s, table[j].0)) ==>
              exists j :: k <= j < |table| && PatternMatches(s, table[j].0)
                          && (forall m :: k <= m < j ==> !PatternMatches(s, table[m].0))
                          && TypeFrom(s, table, k) == table[j].1
    decreases |table| - k
  {
    if k < |table| {
      if PatternMatches(s, table[k].0) {
        assert TypeFrom(s, table, k) == table[k].1;
      } else {
        TypeFromSpec(s, table, k + 1);
        if exists j :: k < j < |table| && PatternMatches(s, table[j].0) {
          var j :| k < j < |table| && PatternMatches(s, table[j].0)
                   && (forall m :: k < m < j ==> !PatternMatches(s, table[m].0))
                   && TypeFrom(s, table, k + 1) == table[j].1;
          assert forall m :: k <= m < j ==> !PatternMatches(s, table[m].0);
        }
      }
    }
  }

  /**
   * The detected type is the label of the first table row whose pattern
   * matches the lower-cased title, or "Government Document" when none does.
   */
  lemma DocumentTypeSpec(title: string)
    ensures (forall j :: 0 <= j < |TypeTable()| ==> !PatternMatches(Lower(title), TypeTable()[j].0)) ==>
              DocumentType(title) == DefaultType
    ensures (exists j :: 0 <= j < |TypeTable()| && PatternMatches(Lower(title), TypeTable()[j].0)) ==>
              exists j :: 0 <= j < |TypeTable()| && PatternMatches(Lower(title), TypeTable()[j].0)
                          && (forall m :: 0 <= m < j ==> !PatternMatches(Lower(title), TypeTable()[m].0))
                          && DocumentType(title) == TypeTable()[j].1
  {
    TypeFromSpec(Lower(title), TypeTable(), 0);
  }

  /** `detect_document_type(title)`: the loop over `type_patterns` with its early return. */
  method DetectDocumentType(title: string) returns (docType: string)
    ensures docType == DocumentType(title)
  {
    var titleLower := Lower(title);
    var table := TypeTable();
    var k := 0;
    while k < |table|
      invariant 0 <= k <= |table|
      invariant TypeFrom(titleLower, table, k) == DocumentType(title)
    {
      if PatternMatches(titleLower, table[k].0) {
        return table[k].1;
      }
      k := k + 1;
    }
    return DefaultType;
  }

  /** The character `c` is in every word of the alternative, or in one of its two words. */
  predicate AltHas(alt: Alt, c: char)
  {
    match alt
    case Word(w) => c in w
    case Spaced(a, b) => c in a || c in b
  }

  /** A pattern each of whose alternatives needs a character the text lacks does not match. */
  lemma PatternAbsent(s: string, pattern: seq<Alt>, c: char)
    requires c !in s
    requires forall j :: 0 <= j < |pattern| ==> AltHas(pattern[j], c)
    ensures !PatternMatches(s, pattern)
  {
    forall j | 0 <= j < |pattern| ensures !AltMatches(s, pattern[j]) {
      match pattern[j]
      case Word(w) => NoOccurrence(s, w, c);
      case Spaced(a, b) =>
        if c in a { NoOccurrence(s, a, c); } else { NoOccurrence(s, b, c); }
    }
  }

  lemma TypeSkip(s: string, table: seq<(seq<Alt>, string)>, k: nat)
    requires k < |table| && !PatternMatches(s, table[k].0)
    ensures TypeFrom(s, table, k) == TypeFrom(s, table, k + 1)
  {
  }

  lemma TypeHit(s: string, table: seq<(seq<Alt>, string)>, k: nat)
    requires k < |table| && PatternMatches(s, table[k].0)
    ensures TypeFrom(s, table, k) == table[k].1
  {
  }

  /** A title the public-comment pattern matches gets that row's label once the search reaches it. */
  lemma PublicCommentRowHit(s: string)
    requires PatternMatches(s, PublicCommentRow.0)
    ensures TypeFrom(s, TypeTable(), 2) == "Public Comment"
  {
    assert TypeTable()[2] == PublicCommentRow;
    TypeHit(s, TypeTable(), 2);
  }

  /** A title the report pattern matches gets that row's label once the search reaches it. */
  lemma ReportRowHit(s: string)
    requires PatternMatches(s, ReportRow.0)
    ensures TypeFrom(s, TypeTable(), 3) == "Report"
  {
    assert TypeTable()[3] == ReportRow;
    TypeHit(s, TypeTable(), 3);
  }

  /** `a\s+b` matched at `i` when `a`, one space and `b` follow each other there. */
  lemma SpacedHit(s: string, pattern: seq<Alt>, j: nat, i: nat)
    requires j < |pattern| && pattern[j].Spaced?
    requires OccursAt(s, pattern[j].first, i) && i + |pattern[j].first| < |s|
    requires IsSpace(s[i + |pattern[j].first|])
    requires OccursAt(s, pattern[j].second, i + |pattern[j].first| + 1)
    ensures PatternMatches(s, pattern)
  {
    assert SpacedAt(s, i, pattern[j].first, pattern[j].second);
    assert AltMatches(s, pattern[j]);
  }

  const PublicCommentTitle := "Public" + " " + "Comment" + " on Regulation"
  const PublicCommentLower := "public" + " " + "comment" + " on regulation"

  /** A row whose every alternative needs a character the text lacks is passed over. */
  lemma SkipRow(s: string, k: nat, c: char)
    requires k < |TypeTable()| && c !in s
    requires forall j :: 0 <= j < |TypeTable()[k].0| ==> AltHas(TypeTable()[k].0[j], c)
    ensures TypeFrom(s, TypeTable(), k) == TypeFrom(s, TypeTable(), k + 1)
  {
    PatternAbsent(s, TypeTable()[k].0, c);
  }

  /** None of the characters of `cs` is in the two sample titles. */
  lemma CharsAbsent(s: string, cs: string)
    requires (s == PublicCommentLower && cs == "xd") || (s == AnnualReportLower && cs == "xdb")
    ensures forall c :: c in cs ==> c !in s
  {
  }

  lemma PublicCommentRows(s: string)
    requires s == PublicCommentLower
    ensures TypeFrom(s, TypeTable(), 0) == "Public Comment"
  {
    CharsAbsent(s, "xd");
    SkipRow(s, 0, 'x');
    PublicCommentFrom1(s);
  }

  lemma PublicCommentFrom1(s: string)
    requires s == PublicCommentLower
    ensures TypeFrom(s, TypeTable(), 1) == "Public Comment"
  {
    CharsAbsent(s, "xd");
    SkipRow(s, 1, 'd');
    PublicCommentHit(s);
  }

  lemma PublicCommentHit(s: string)
    requires s == PublicCommentLower
    ensures TypeFrom(s, TypeTable(), 2) == "Public Comment"
  {
    OccursAtStart("public", " " + "comment" + " on regulation");
    OccursInfix("public" + " ", "comment", " on regulation");
    SpacedHit(s, PublicCommentRow.0, 0, 0);
    PublicCommentRowHit(s);
  }

  /** "Public Comment on Regulation" is a public comment: that row comes before the regulation row. */
  lemma PublicCommentBeforeRegulation(title: string)
    requires title == PublicCommentTitle
    ensures DocumentType(title) == "Public Comment"
  {
    PublicCommentTitleLower();
    PublicCommentRows(Lower(title));
  }

  lemma PublicCommentTitleLower()
    ensures Lower(PublicCommentTitle) == PublicCommentLower
  {
    LowerConcat("Public" + " " + "Comment", " on Regulation");
    LowerConcat("Public" + " ", "Comment");
    LowerConcat("Public", " ");
    assert Lower("Public") == "public" && Lower(" ") == " " && Lower("Comment") == "comment";
    assert Lower(" on Regulation") == " on regulation";
  }

  const AnnualReportTitle := "Annual" + " " + "Report" + " FY2024"
  const AnnualReportLower := "annual" + " " + "report" + " fy2024"

  lemma AnnualReportRows(s: string)
    requires s == AnnualReportLower
    ensures TypeFrom(s, TypeTable(), 0) == "Report"
  {
    CharsAbsent(s, "xdb");
    SkipRow(s, 0, 'x');
    AnnualReportFrom1(s);
  }

  lemma AnnualReportFrom1(s: string)
    requires s == AnnualReportLower
    ensures TypeFrom(s, TypeTable(), 1) == "Report"
  {
    CharsAbsent(s, "xdb");
    SkipRow(s, 1, 'd');
    AnnualReportFrom2(s);
  }

  lemma AnnualReportFrom2(s: string)
    requires s == AnnualReportLower
    ensures TypeFrom(s, TypeTable(), 2) == "Report"
  {
    CharsAbsent(s, "xdb");
    SkipRow(s, 2, 'b');
    AnnualReportHit(s);
  }

  lemma AnnualReportHit(s: string)
    requires s == AnnualReportLower
    ensures TypeFrom(s, TypeTable(), 3) == "Report"
  {
    OccursAtStart("annual", " " + "report" + " fy2024");
    OccursInfix("annual" + " ", "report", " fy2024");
    SpacedHit(s, ReportRow.0, 0, 0);
    ReportRowHit(s);
  }

  /** "Annual Report FY2024" is a report. */
  lemma AnnualReportIsReport(title: string)
    requires title == AnnualReportTitle
    ensures DocumentType(title) == "Report"
  {
    AnnualReportTitleLower();
    AnnualReportRows(Lower(title));
  }

  lemma AnnualReportTitleLower()
    ensures Lower(AnnualReportTitle) == AnnualReportLower
  {
    LowerConcat("Annual" + " " + "Report", " FY2024");
    LowerConcat("Annual" + " ", "Report");
    LowerConcat("Annual", " ");
    assert Lower("Annual") == "annual" && Lower(" ") == " " && Lower("Report") == "report";
    assert Lower(" FY2024") == " fy2024";
  }

  // ---------------------------------------------------------------------
  // Parsed documents, filters and deduplication

  /** The keys `parse_document` reads; `None` is a missing key. */
  datatype RawDocument = RawDocument(title: Option<string>, url: Option<string>, publishedDate: Option<string>,
                                     year: Option<int>, agency: Option<string>, country: Option<string>,
                                     organization: Option<string>, documentType: Option<string>,
                                     abstractText: Option<string>)

  /** The standardized document `parse_document` returns. */
  datatype Document = Document(title: string, url: string, publishedDate: string, year: Option<int>,
                               agency: string, country: string, organization: string,
                               documentType: string, abstractText: string, source: string)

  const SourceSeparator := " - "

  /** `source_parts`: the agency, then the country or else the organization, each only when truthy. */
  function SourceParts(d: RawDocument): seq<string>
  {
    var parts := (if TruthyStr(d.agency) then [d.agency.value] else [])
      + (if TruthyStr(d.country) then [d.country.value]
         else if TruthyStr(d.organization) then [d.organization.value] else []);
    if parts == [] then [DefaultType] else parts
  }

  /** `parse_document(document)`. */
  function ParseDocument(d: RawDocument): Document
  {
    var year := if Truthy(d.year) then d.year else Records.DateYear(GetOr(d.publishedDate, ""));
    var docType := if TruthyStr(d.documentType) then d.documentType.value else DocumentType(GetOr(d.title, ""));
    Document(GetOr(d.title, ""), GetOr(d.url, ""), GetOr(d.publishedDate, ""), year,
             GetOr(d.agency, ""), GetOr(d.country, ""), GetOr(d.organization, ""),
             docType, GetOr(d.abstractText, ""), Join(SourceParts(d), SourceSeparator))
  }

  /**
   * The source line names the agency and the country (the organization when
   * there is no country) joined by " - ", or says "Government Document" when
   * all three are blank; a given type is kept and a missing one detected from
   * the title; a given year is kept and a missing one read off the date.
   */
  lemma ParseDocumentSpec(d: RawDocument)
    ensures !TruthyStr(d.agency) && !TruthyStr(d.country) && !TruthyStr(d.organization) ==>
              ParseDocument(d).source == DefaultType
    ensures TruthyStr(d.agency) && TruthyStr(d.country) ==>
              ParseDocument(d).source == d.agency.value + SourceSeparator + d.country.value
    ensures TruthyStr(d.agency) && !TruthyStr(d.country) && TruthyStr(d.organization) ==>
              ParseDocument(d).source == d.agency.value + SourceSeparator + d.organization.value
    ensures TruthyStr(d.agency) && !TruthyStr(d.country) && !TruthyStr(d.organization) ==>
              ParseDocument(d).source == d.agency.value
    ensures !TruthyStr(d.agency) && TruthyStr(d.country) ==> ParseDocument(d).source == d.country.value
    ensures !TruthyStr(d.agency) && !TruthyStr(d.country) && TruthyStr(d.organization) ==>
              ParseDocument(d).source == d.organization.value
    ensures TruthyStr(d.documentType) ==> ParseDocument(d).documentType == d.documentType.value
    ensures !TruthyStr(d.documentType) ==> ParseDocument(d).documentType == DocumentType(GetOr(d.title, ""))
    ensures Truthy(d.year) ==> ParseDocument(d).year == d.year
    ensures !Truthy(d.year) ==> ParseDocument(d).year == Records.DateYear(GetOr(d.publishedDate, ""))
  {
    var parts := SourceParts(d);
    if |parts| == 2 {
      assert Join(parts, SourceSeparator) == parts[0] + SourceSeparator + Join(parts[1..], SourceSeparator);
    }
  }

  const SampleTitle := "National AI Strategy 2024"
  const SampleAgency := "Department of Technology"
  const SampleDate := "2024" + "-03-15"

  const SampleDocument := RawDocument(Some(SampleTitle), Some("https://www.gov.example.com/ai-strategy-2024"),
                                       Some(SampleDate), None, Some(SampleAgency), Some("USA"), None,
                                       Some("Policy Paper"), Some("This document outlines..."))

  lemma Year2024Digits()
    ensures IntToString(2024) == "2024"
  {
  }

  /** The parsed sample policy paper: year 2024 from its date, its own type, and agency and country as its source. */
  lemma ParseSampleDocument(d: RawDocument)
    requires d == SampleDocument
    ensures ParseDocument(d).year == Some(2024)
    ensures ParseDocument(d).documentType == "Policy Paper"
    ensures ParseDocument(d).source == SampleAgency + " - " + "USA"
    ensures ParseDocument(d).title == SampleTitle
  {
    ParseDocumentSpec(d);
    Year2024Digits();
    Records.DateYearSpec(SampleDate, 2024, "-03-15");
  }

  /** `filter_by_type(documents, allowed_types)`. */
  function FilterByType(docs: seq<Document>, allowed: seq<string>): seq<Document>
  {
    if docs == [] then []
    else
      var rest := FilterByType(docs[..|docs| - 1], allowed);
      if docs[|docs| - 1].documentType in allowed then rest + [docs[|docs| - 1]] else rest
  }

  /** The filter keeps, in order, exactly the documents of an allowed type. */
  lemma {:induction false} FilterByTypeSpec(docs: seq<Document>, allowed: seq<string>)
    ensures IsSubsequence(FilterByType(docs, allowed), docs)
    ensures forall x :: x in FilterByType(docs, allowed) <==> x in docs && x.documentType in allowed
    decreases |docs|
  {
    if docs != [] {
      var init := docs[..|docs| - 1];
      var last := docs[|docs| - 1];
      FilterByTypeSpec(init, allowed);
      assert docs == init + [last];
      SubsequenceSnoc(FilterByType(init, allowed), init, last);
    }
  }

  /** A list's result is its halves' results one after the other. */
  lemma {:induction false} FilterByTypeAppend(a: seq<Document>, b: seq<Document>, allowed: seq<string>)
    ensures FilterByType(a + b, allowed) == FilterByType(a, allowed) + FilterByType(b, allowed)
    decreases |b|
  {
    if b == [] {
      assert a + b == a;
    } else {
      var init, last := b[..|b| - 1], b[|b| - 1];
      var ab := a + b;
      assert ab[..|ab| - 1] == a + init;
      assert ab[|ab| - 1] == last;
      FilterByTypeAppend(a, init, allowed);
      var fa, fi := FilterByType(a, allowed), FilterByType(init, allowed);
      assert FilterByType(a + init, allowed) == fa + fi;
      if last.documentType in allowed {
        assert FilterByType(b, allowed) == fi + [last];
        assert FilterByType(ab, allowed) == (fa + fi) + [last];
      } else {
        assert FilterByType(b, allowed) == fi;
        assert FilterByType(ab, allowed) == fa + fi;
      }
    }
  }

  /** One document is kept exactly when its type is allowed. */
  lemma FilterByTypeSingle(d: Document, allowed: seq<string>)
    ensures FilterByType([d], allowed) == if d.documentType in allowed then [d] else []
  {
    assert [d][..0] == [];
  }

  /** The identity `deduplicate_documents` uses: the URL, or else the lower-cased stripped title. */
  function DedupKey(d: Document): Option<string>
  {
    if d.url != "" then Some(d.url)
    else
      var t := Strip(Lower(d.title));
      if t != "" then Some(t) else None
  }

  function DocYear(d: Document): Option<int> { d.year }

  /** `deduplicate_documents(documents)`. */
  method DeduplicateDocuments(docs: seq<Document>) returns (unique: seq<Document>)
    ensures unique == Records.Dedup(docs, DedupKey, {})
  {
    unique := Records.DedupLoop(docs, DedupKey);
  }

  /**
   * The kept documents appear in input order, never one without URL and
   * with a blank title, never two under the same key, and include the first
   * document of every key.
   */
  lemma DeduplicateSpec(docs: seq<Document>)
    ensures IsSubsequence(Records.Dedup(docs, DedupKey, {}), docs)
    ensures forall i :: 0 <= i < |Records.Dedup(docs, DedupKey, {})| ==>
              Records.Dedup(docs, DedupKey, {})[i].url != "" || Strip(Lower(Records.Dedup(docs, DedupKey, {})[i].title)) != ""
    ensures forall i, j :: 0 <= i < j < |Records.Dedup(docs, DedupKey, {})| ==>
              DedupKey(Records.Dedup(docs, DedupKey, {})[i]) != DedupKey(Records.Dedup(docs, DedupKey, {})[j])
    ensures forall i :: 0 <= i < |docs| && Records.FirstOfKey(docs, DedupKey, {}, i) ==>
              docs[i] in Records.Dedup(docs, DedupKey, {})
  {
    Records.DedupSubsequence(docs, DedupKey, {});
    Records.DedupKeys(docs, DedupKey, {});
    Records.DedupKeepsFirst(docs, DedupKey, {});
  }

  /** A document without URL whose title equals an earlier document's URL is dropped: URLs and titles share one seen set. */
  lemma SharedSeenSet(a: Document, b: Document)
    requires a.url == "x" && b.url == "" && b.title == "x"
    ensures Records.Dedup([a, b], DedupKey, {}) == [a]
  {
    assert Lower("x") == "x";
    assert Strip("x") == "x" by {
      assert !IsSpace('x');
    }
    assert DedupKey(a) == Some("x");
    assert DedupKey(b) == Some("x");
    assert [a, b][1..] == [b] && [b][1..] == [];
    assert Records.Dedup([b], DedupKey, {"x"}) == [];
    var none: set<string> := {};
    assert none + {"x"} == {"x"};
    assert Records.Dedup([a, b], DedupKey, none) == [a] + Records.Dedup([b], DedupKey, {"x"});
  }

  /** `_filter_by_year(documents, year_start, year_end)`. */
  method FilterByYear(docs: seq<Document>, start: Option<int>, end: Option<int>) returns (filtered: seq<Document>)
    ensures filtered == Records.FilterByYear(docs, DocYear, start, end)
    ensures !Truthy(start) && !Truthy(end) ==> filtered == docs
    ensures Truthy(start) || Truthy(end) ==>
              forall x :: x in filtered <==> x in docs && Records.InYearRange(x.year, start, end)
  {
    filtered := Records.FilterByYearLoop(docs, DocYear, start, end);
    Records.KeepMembership(docs, DocYear, start, end);
  }

  // ---------------------------------------------------------------------
  // Agency extraction

  /** `agency_patterns`, in insertion order. */
  function AgencyTable(): seq<(string, string)>
  {
    [ ("whitehouse.gov", "White House"), ("fda.gov", "FDA"), ("cdc.gov", "CDC"), ("nih.gov", "NIH"),
      ("nsf.gov", "NSF"), ("nasa.gov", "NASA"), ("doe.gov", "Department of Energy"),
      ("defense.gov", "Department of Defense"), ("state.gov", "Department of State"),
      ("mhlw.go.jp", "MHLW"), ("mext.go.jp", "MEXT"), ("meti.go.jp", "METI"),
      ("gov.uk", "UK Government"), ("europa.eu", "European Union"), ("who.int", "WHO") ]
  }

  const DefaultAgency := "Government Agency"

  /** The agency of the first row of `table` at or after `k` whose pattern is in `s`. */
  function AgencyFrom(s: string, table: seq<(string, string)>, k: nat): Option<string>
    requires k <= |table|
    decreases |table| - k
  {
    if k == |table| then None
    else if Contains(s, table[k].0) then Some(table[k].1)
    else AgencyFrom(s, table, k + 1)
  }

  lemma {:induction false} AgencyFromSpec(s: string, table: seq<(string, string)>, k: nat)
    requires k <= |table|
    ensures (forall j :: k <= j < |table| ==> !Contains(s, table[j].0)) <==> AgencyFrom(s, table, k).None?
    ensures AgencyFrom(s, table, k).Some? ==>
              exists j :: k <= j < |table| && Contains(s, table[j].0)
                          && (forall m :: k <= m < j ==> !Contains(s, table[m].0))
                          && AgencyFrom(s, table, k) == Some(table[j].1)
    decreases |table| - k
  {
    if k < |table| {
      if Contains(s, table[k].0) {
        assert AgencyFrom(s, table, k) == Some(table[k].1);
      } else {
        AgencyFromSpec(s, table, k + 1);
        assert AgencyFrom(s, table, k) == AgencyFrom(s, table, k + 1);
        if AgencyFrom(s, table, k).Some? {
          var j :| k + 1 <= j < |table| && Contains(s, table[j].0)
                   && (forall m :: k + 1 <= m < j ==> !Contains(s, table[m].0))
                   && AgencyFrom(s, table, k + 1) == Some(table[j].1);
          assert forall m :: k <= m < j ==> !Contains(s, table[m].0);
        }
      }
    }
  }

  /** End of the run of non-slash characters starting at `j`. */
  function SlashFrom(s: string, j: nat): (e: nat)
    requires j <= |s|
    ensures j <= e <= |s|
    ensures forall m :: j <= m < e ==> s[m] != '/'
    ensures e < |s| ==> s[e] == '/'
    decreases |s| - j
  {
    if j == |s| || s[j] == '/' then j else SlashFrom(s, j + 1)
  }

  /** `https?://(?:www\.)?([^/]+)` matched at `i`, as its group. */
  function HostAt(s: string, i: nat): (r: Option<string>)
    requires i <= |s|
    ensures r.Some? ==> r.value != [] && '/' !in r.value
  {
    var scheme := if OccursAt(s, "https://", i) then 8 else if OccursAt(s, "http://", i) then 7 else 0;
    if scheme == 0 then None
    else
      var j := i + scheme;
      if OccursAt(s, "www.", j) && j + 4 < |s| && s[j + 4] != '/' then Some(s[j + 4..SlashFrom(s, j + 4)])
      else if j < |s| && s[j] != '/' then Some(s[j..SlashFrom(s, j)])
      else None
  }

  /** The leftmost match at or after `i`. */
  function HostFrom(s: string, i: nat): Option<string>
    requires i <= |s|
    decreases |s| - i
  {
    if HostAt(s, i).Some? then HostAt(s, i)
    else if i == |s| then None
    else HostFrom(s, i + 1)
  }

  lemma {:induction false} HostFromSpec(s: string, i: nat)
    requires i <= |s|
    ensures HostFrom(s, i).Some? ==> HostFrom(s, i).value != [] && '/' !in HostFrom(s, i).value
    decreases |s| - i
  {
    if HostAt(s, i).None? && i < |s| {
      HostFromSpec(s, i + 1);
    }
  }

  /** `domain.split('.')[0].upper()`. */
  function DomainLabel(domain: string): string
  {
    Upper(Split(domain, ".")[0])
  }

  /** The value `extract_agency(url)` returns. */
  function AgencyOf(url: string): string
  {
    match AgencyFrom(Lower(url), AgencyTable(), 0)
    case Some(agency) => agency
    case None =>
      match HostFrom(url, 0)
      case Some(domain) => DomainLabel(domain)
      case None => DefaultAgency
  }

  /** `extract_agency(url)`: the table loop with its early return, then the host fallback. */
  method ExtractAgency(url: string) returns (agency: string)
    ensures agency == AgencyOf(url)
  {
    var urlLower := Lower(url);
    var table := AgencyTable();
    var k := 0;
    while k < |table|
      invariant 0 <= k <= |table|
      invariant AgencyFrom(urlLower, table, k) == AgencyFrom(urlLower, table, 0)
    {
      if Contains(urlLower, table[k].0) {
        return table[k].1;
      }
      k := k + 1;
    }
    match HostFrom(url, 0) {
      case Some(domain) => agency := DomainLabel(domain);
      case None => agency := DefaultAgency;
    }
  }

  /**
   * The agency of the first table pattern found in the lower-cased URL;
   * failing that, the upper-cased first label of the host; failing that,
   * "Government Agency".
   */
  lemma AgencyOfSpec(url: string)
    ensures (exists j :: 0 <= j < |AgencyTable()| && Contains(Lower(url), AgencyTable()[j].0)) ==>
              exists j :: 0 <= j < |AgencyTable()| && Contains(Lower(url), AgencyTable()[j].0)
                          && (forall m :: 0 <= m < j ==> !Contains(Lower(url), AgencyTable()[m].0))
                          && AgencyOf(url) == AgencyTable()[j].1
    ensures (forall j :: 0 <= j < |AgencyTable()| ==> !Contains(Lower(url), AgencyTable()[j].0)) ==>
              (HostFrom(url, 0).Some? ==> AgencyOf(url) == DomainLabel(HostFrom(url, 0).value))
              && (HostFrom(url, 0).None? ==> AgencyOf(url) == DefaultAgency)
  {
    AgencyFromSpec(Lower(url), AgencyTable(), 0);
  }

  /** The host label is the part of the host before its first dot, upper-cased. */
  lemma DomainLabelSpec(domain: string)
    ensures |DomainLabel(domain)| <= |domain|
    ensures DomainLabel(domain) == Upper(domain[..|DomainLabel(domain)|])
    ensures forall m :: 0 <= m < |DomainLabel(domain)| ==> domain[m] != '.'
    ensures |DomainLabel(domain)| < |domain| ==> domain[|DomainLabel(domain)|] == '.'
  {
    match IndexFrom(domain, ".", 0)
    case None =>
      forall m | 0 <= m < |domain| ensures domain[m] != '.' {
        assert !OccursAt(domain, ".", m);
      }
    case Some(i) =>
      forall m | 0 <= m < i ensures domain[m] != '.' {
        assert !OccursAt(domain, ".", m);
      }
  }

  const WhiteHouseUrl := "https://www." + "whitehouse.gov" + "/ai-policy/"
  const FdaUrl := "https://www." + "fda.gov" + "/medical-devices/ai"

  /** Neither sample URL has an upper-case letter, and the FDA one has no "u". */
  lemma SampleUrlsLower(url: string)
    requires url == WhiteHouseUrl || url == FdaUrl
    ensures Lower(url) == url
    ensures url == FdaUrl ==> 'u' !in url
  {
    if url == WhiteHouseUrl {
      WhiteHouseUrlLower();
    } else {
      FdaUrlLower();
    }
  }

  lemma WwwLower()
    ensures Lower("https://www.") == "https://www."
  {
  }

  lemma WhiteHouseUrlLower()
    ensures Lower(WhiteHouseUrl) == WhiteHouseUrl
  {
    WwwLower();
    assert Lower("whitehouse.gov") == "whitehouse.gov";
    assert Lower("/ai-policy/") == "/ai-policy/";
    LowerConcat("https://www.", "whitehouse.gov");
    LowerConcat("https://www." + "whitehouse.gov", "/ai-policy/");
  }

  lemma FdaUrlLower()
    ensures Lower(FdaUrl) == FdaUrl
    ensures 'u' !in FdaUrl
  {
    WwwLower();
    assert Lower("fda.gov") == "fda.gov";
    FdaPathLower();
    LowerConcat("https://www.", "fda.gov");
    LowerConcat("https://www." + "fda.gov", "/medical-devices/ai");
    assert 'u' !in "https://www." && 'u' !in "fda.gov";
  }

  /** A short piece of the sample URLs: lower case, without "u". */
  lemma LowerPiece(s: string)
    requires s == "/medical" || s == "-devices" || s == "/ai"
    ensures Lower(s) == s && 'u' !in s
  {
  }

  lemma FdaPathLower()
    ensures Lower("/medical-devices/ai") == "/medical-devices/ai"
    ensures 'u' !in "/medical-devices/ai"
  {
    LowerPiece("/medical");
    LowerPiece("-devices");
    LowerPiece("/ai");
    LowerConcat("/medical", "-devices");
    LowerConcat("/medical" + "-devices", "/ai");
    assert "/medical-devices/ai" == "/medical" + "-devices" + "/ai";
  }

  /** The White House URL hits the first table row. */
  lemma WhiteHouseAgency(url: string)
    requires url == WhiteHouseUrl
    ensures AgencyOf(url) == "White House"
  {
    SampleUrlsLower(url);
    ContainsInfix("https://www.", "whitehouse.gov", "/ai-policy/");
  }

  /** The FDA URL misses the White House row and hits the FDA row. */
  lemma FdaAgency(url: string)
    requires url == FdaUrl
    ensures AgencyOf(url) == "FDA"
  {
    SampleUrlsLower(url);
    NoOccurrence(url, "whitehouse.gov", 'u');
    ContainsInfix("https://www.", "fda.gov", "/medical-devices/ai");
  }

  // ---------------------------------------------------------------------
  // Searching all sources

  /** `search_source(source_id, query, max_results)`: an unknown source and every known one give no documents. */
  function SearchSource(sourceId: string, query: string, maxResults: int): seq<Document> { [] }

  /** The documents the loop over the sources collects for one query. */
  function Gathered(ids: seq<string>, query: string, perSource: int,
                    search: (string, string, int) -> seq<Document>): seq<Document>
  {
    if ids == [] then []
    else Gathered(ids[..|ids| - 1], query, perSource, search) + search(ids[|ids| - 1], query, perSource)
  }

  /**
   * What `search_all_sources` returns: nothing without queries; otherwise
   * the first query sent to every source, deduplicated, then year-filtered.
   * The source filters only when the strategy has a non-empty `year_range`;
   * an empty one gives two `None` bounds, for which the filter changes
   * nothing, so filtering always is the same.
   */
  function AllSourcesResult(queries: seq<string>, start: Option<int>, end: Option<int>, perSource: int,
                            search: (string, string, int) -> seq<Document>): seq<Document>
  {
    if queries == [] then []
    else Records.FilterByYear(Records.Dedup(Gathered(SourceIds(), queries[0], perSource, search), DedupKey, {}),
                              DocYear, start, end)
  }

  /**
   * The result never repeats a key, only holds gathered documents, and with
   * a year bound holds only documents of known year within the bounds.
   */
  lemma AllSourcesSpec(queries: seq<string>, start: Option<int>, end: Option<int>, perSource: int,
                       search: (string, string, int) -> seq<Document>)
    ensures Records.FreshDistinctKeys(AllSourcesResult(queries, start, end, perSource, search), DedupKey, {})
    ensures queries != [] ==>
              IsSubsequence(AllSourcesResult(queries, start, end, perSource, search),
                            Gathered(SourceIds(), queries[0], perSource, search))
    ensures Truthy(start) || Truthy(end) ==>
              forall i :: 0 <= i < |AllSourcesResult(queries, start, end, perSource, search)| ==>
                Records.InYearRange(AllSourcesResult(queries, start, end, perSource, search)[i].year, start, end)
  {
    if queries != [] {
      var all := Gathered(SourceIds(), queries[0], perSource, search);
      var u := Records.Dedup(all, DedupKey, {});
      Records.DedupKeys(all, DedupKey, {});
      Records.DedupSubsequence(all, DedupKey, {});
      Records.FilterByYearSpec(u, DedupKey, DocYear, start, end);
      SubsequenceTrans(Records.FilterByYear(u, DocYear, start, end), u, all);
    }
  }

  /** With the source's own `search_source` every search finds nothing. */
  lemma StubSearchIsEmpty(queries: seq<string>, start: Option<int>, end: Option<int>, perSource: int)
    ensures AllSourcesResult(queries, start, end, perSource, SearchSource) == []
  {
    if queries != [] {
      GatheredStub(SourceIds(), queries[0], perSource);
    }
  }

  lemma {:induction false} GatheredStub(ids: seq<string>, query: string, perSource: int)
    ensures Gathered(ids, query, perSource, SearchSource) == []
    decreases |ids|
  {
    if ids != [] {
      GatheredStub(ids[..|ids| - 1], query, perSource);
    }
  }

  /** `search_all_sources(search_strategy, max_results_per_source)`. */
  method SearchAllSources(queries: seq<string>, start: Option<int>, end: Option<int>, perSource: int,
                          search: (string, string, int) -> seq<Document>) returns (docs: seq<Document>)
    ensures docs == AllSourcesResult(queries, start, end, perSource, search)
  {
    if queries == [] {
      return [];
    }
    var primary := queries[0];
    var ids := SourceIds();
    var all: seq<Document> := [];
    var i := 0;
    while i < |ids|
      invariant 0 <= i <= |ids|
      invariant all == Gathered(ids[..i], primary, perSource, search)
    {
      assert ids[..i + 1][..i] == ids[..i];
      var found := search(ids[i], primary, perSource);
      if found != [] {
        all := all + found;
      }
      i := i + 1;
    }
    assert ids[..i] == ids;
    var unique := DeduplicateDocuments(all);
    docs := FilterByYear(unique, start, end);
  }
}
