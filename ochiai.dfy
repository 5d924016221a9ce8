/**
 * The deterministic parts of the Ochiai-style report generator: the code
 * fence stripped from a model reply, the paper metadata, research context
 * and search strategy texts put into the prompts, and the file name a
 * report is saved under.
 */
module Ochiai {
  import opened Common
  import opened Strs
  import PrismaStrategy

  // ---------------------------------------------------------------------
  // Code fences around a model reply

  const MarkdownFence := "```markdown"
  const Fence := "```"

  /**
   * The report kept from a reply (`generate_paper_report` and
   * `generate_summary_report` strip in the same way): inside a "```markdown"
   * block; else inside the first fenced block when a second fence closes it;
   * else the reply unchanged.
   */
  function StripCodeFence(reply: string): string
  {
    if Contains(reply, MarkdownFence) then Strip(Split(Split(reply, MarkdownFence)[1], Fence)[0])
    else if Contains(reply, Fence) && |Split(reply, Fence)| >= 3 then Strip(Split(reply, Fence)[1])
    else reply
  }

  /** A "```markdown" opener is also a plain fence. */
  lemma MarkdownFenceIsFence(reply: string)
    ensures Contains(reply, MarkdownFence) ==> Contains(reply, Fence)
  {
    if Contains(reply, MarkdownFence) {
      OccursPrefix(reply, MarkdownFence, Fence, IndexFrom(reply, MarkdownFence, 0).value);
      ContainsIff(reply, Fence);
    }
  }

  /** A second fence after the first exists exactly when splitting on fences gives three pieces or more. */
  lemma SecondFence(reply: string)
    requires Contains(reply, Fence)
    ensures |Split(reply, Fence)| >= 3 <==> IndexFrom(reply, Fence, EndOfFirst(reply, Fence)).Some?
  {
    var n := EndOfFirst(reply, Fence);
    SplitThird(reply, Fence);
    IndexFromShift(reply, Fence, n, 0);
  }

  /**
   * With a "```markdown" opener, the report runs from the end of the first
   * opener to the next fence (when that fence closes before a further
   * opener), or to the end of the reply when no fence follows. Otherwise,
   * when two fences occur, it is the text between the first two. In every
   * such case it is stripped; a reply with at most one fence is kept as it is.
   */
  lemma StripCodeFenceSpec(reply: string)
    ensures Contains(reply, MarkdownFence) ==>
              StripCodeFence(reply)
              == Strip(UpTo(UpTo(reply, MarkdownFence, EndOfFirst(reply, MarkdownFence)), Fence, 0))
    ensures Contains(reply, MarkdownFence) && IndexFrom(reply, Fence, EndOfFirst(reply, MarkdownFence)).None? ==>
              StripCodeFence(reply) == Strip(reply[EndOfFirst(reply, MarkdownFence)..])
    ensures Contains(reply, MarkdownFence) && IndexFrom(reply, Fence, EndOfFirst(reply, MarkdownFence)).Some?
            && IndexFrom(reply, Fence, EndOfFirst(reply, MarkdownFence)).value + |Fence|
               <= UpToEnd(reply, MarkdownFence, EndOfFirst(reply, MarkdownFence)) ==>
              StripCodeFence(reply)
              == Strip(reply[EndOfFirst(reply, MarkdownFence)..IndexFrom(reply, Fence, EndOfFirst(reply, MarkdownFence)).value])
    ensures !Contains(reply, MarkdownFence) && Contains(reply, Fence)
            && IndexFrom(reply, Fence, EndOfFirst(reply, Fence)).Some? ==>
              StripCodeFence(reply)
              == Strip(reply[EndOfFirst(reply, Fence)..IndexFrom(reply, Fence, EndOfFirst(reply, Fence)).value])
    ensures !Contains(reply, MarkdownFence)
            && (!Contains(reply, Fence) || IndexFrom(reply, Fence, EndOfFirst(reply, Fence)).None?) ==>
              StripCodeFence(reply) == reply
  {
    MarkdownFenceIsFence(reply);
    if Contains(reply, MarkdownFence) {
      var n := EndOfFirst(reply, MarkdownFence);
      SecondPieceCut(reply, MarkdownFence, Fence);
      if IndexFrom(reply, Fence, n).None? {
        UpToNestedNone(reply, MarkdownFence, Fence, n);
      } else if IndexFrom(reply, Fence, n).value + |Fence| <= UpToEnd(reply, MarkdownFence, n) {
        UpToNestedCut(reply, MarkdownFence, Fence, n);
      }
    } else if Contains(reply, Fence) {
      SecondFence(reply);
      if IndexFrom(reply, Fence, EndOfFirst(reply, Fence)).Some? {
        SplitSecond(reply, Fence);
      }
    }
  }

  // ---------------------------------------------------------------------
  // Paper metadata

  /** The paper record the generator reads; every key may be missing. */
  datatype PaperInfo = PaperInfo(
    title: Option<string>, authors: Option<seq<string>>, year: Option<int>, publication: Option<string>,
    doi: Option<string>, url: Option<string>, abstractText: Option<string>)

  const NotAvailable := "N/A"
  const AuthorSeparator := ", "
  const TitleLabel := "Title: "
  const AuthorsLabel := "Authors: "
  const YearLabel := "Year: "
  const PublicationLabel := "Publication: "
  const DoiLabel := "DOI: "
  const UrlLabel := "URL: "
  const AbstractHeading := "\nAbstract:\n"
  const MetadataHeadings := [TitleLabel, AuthorsLabel, YearLabel, PublicationLabel, DoiLabel, UrlLabel]

  /** The text of an optional year: `str(year)`, or "N/A" when missing. */
  function YearText(year: Option<int>): string
  {
    if year.Some? then IntToString(year.value) else NotAvailable
  }

  /** The lines of `_format_paper_metadata`: six headed lines, then the abstract block when the abstract is truthy. */
  function MetadataLines(p: PaperInfo): seq<string>
  {
    [TitleLabel + GetOr(p.title, NotAvailable), AuthorsLabel + Join(GetOr(p.authors, [NotAvailable]), AuthorSeparator),
     YearLabel + YearText(p.year), PublicationLabel + GetOr(p.publication, NotAvailable),
     DoiLabel + GetOr(p.doi, NotAvailable), UrlLabel + GetOr(p.url, NotAvailable)]
    + (if TruthyStr(p.abstractText) then [AbstractHeading + p.abstractText.value] else [])
  }

  /** `_format_paper_metadata(paper_info)`. */
  method FormatPaperMetadata(p: PaperInfo) returns (text: string)
    ensures text == Join(MetadataLines(p), "\n")
  {
    var parts := [];
    parts := parts + [TitleLabel + GetOr(p.title, NotAvailable)];
    parts := parts + [AuthorsLabel + Join(GetOr(p.authors, [NotAvailable]), AuthorSeparator)];
    parts := parts + [YearLabel + YearText(p.year)];
    parts := parts + [PublicationLabel + GetOr(p.publication, NotAvailable)];
    parts := parts + [DoiLabel + GetOr(p.doi, NotAvailable)];
    parts := parts + [UrlLabel + GetOr(p.url, NotAvailable)];
    if TruthyStr(p.abstractText) {
      parts := parts + [AbstractHeading + p.abstractText.value];
    }
    assert parts == MetadataLines(p);
    text := Join(parts, "\n");
  }

  /** The value each metadata heading shows: the record's value, or "N/A" when the key is missing. */
  function MetadataValue(p: PaperInfo, i: nat): string
    requires i < 6
  {
    match i
    case 0 => if p.title.Some? then p.title.value else "N/A"
    case 1 => if p.authors.Some? then Join(p.authors.value, ", ") else "N/A"
    case 2 => if p.year.Some? then IntToString(p.year.value) else "N/A"
    case 3 => if p.publication.Some? then p.publication.value else "N/A"
    case 4 => if p.doi.Some? then p.doi.value else "N/A"
    case _ => if p.url.Some? then p.url.value else "N/A"
  }

  /**
   * The metadata text has the six heading lines in the order Title,
   * Authors, Year, Publication, DOI, URL, each heading followed by its value
   * or "N/A"; an abstract block follows exactly when the abstract is a
   * non-empty string, and then the text ends with that abstract.
   */
  lemma MetadataSpec(p: PaperInfo)
    ensures |MetadataLines(p)| == if TruthyStr(p.abstractText) then 7 else 6
    ensures forall i :: 0 <= i < 6 ==> MetadataLines(p)[i] == MetadataHeadings[i] + MetadataValue(p, i)
    ensures TruthyStr(p.abstractText) ==>
              Join(MetadataLines(p), "\n") == Join(MetadataLines(p)[..6], "\n") + "\n\nAbstract:\n" + p.abstractText.value
    ensures !TruthyStr(p.abstractText) ==> Join(MetadataLines(p), "\n") == Join(MetadataLines(p)[..6], "\n")
  {
    var lines := MetadataLines(p);
    assert Join([NotAvailable], AuthorSeparator) == NotAvailable;
    if TruthyStr(p.abstractText) {
      JoinSnoc(lines[..6], AbstractHeading + p.abstractText.value, "\n");
      assert lines[..6] + [AbstractHeading + p.abstractText.value] == lines;
    } else {
      assert lines[..6] == lines;
    }
  }

  /** Joining with one more part adds the separator and that part. */
  lemma {:induction false} JoinSnoc(parts: seq<string>, last: string, sep: string)
    requires |parts| >= 1
    ensures Join(parts + [last], sep) == Join(parts, sep) + sep + last
    decreases |parts|
  {
    if |parts| == 1 {
      assert (parts + [last])[1..] == [last];
    } else {
      JoinSnoc(parts[1..], last, sep);
      assert (parts + [last])[1..] == parts[1..] + [last];
    }
  }

  // ---------------------------------------------------------------------
  // Research context

  /** The lines of this generator's `_format_research_context`: the theme and field, then purpose, problem and technologies when truthy. */
  function ContextLines(info: PrismaStrategy.ResearchInfo): seq<string>
  {
    PrismaStrategy.HeadLines(info)
    + PrismaStrategy.TextLine(PrismaStrategy.PurposeLabel, info.purpose)
    + PrismaStrategy.TextLine(PrismaStrategy.ProblemLabel, info.problem)
    + PrismaStrategy.ListLine(PrismaStrategy.TechnologiesLabel, info.technologies)
  }

  /** `_format_research_context(research_context)`. */
  method FormatResearchContext(info: PrismaStrategy.ResearchInfo) returns (text: string)
    ensures text == Join(ContextLines(info), "\n")
  {
    var parts := [PrismaStrategy.ThemeLabel + GetOr(info.theme, NotAvailable)];
    parts := parts + [PrismaStrategy.FieldLabel + GetOr(info.field, NotAvailable)];
    assert parts == PrismaStrategy.HeadLines(info);
    parts := PrismaStrategy.AppendText(parts, PrismaStrategy.PurposeLabel, info.purpose);
    parts := PrismaStrategy.AppendText(parts, PrismaStrategy.ProblemLabel, info.problem);
    parts := PrismaStrategy.AppendList(parts, PrismaStrategy.TechnologiesLabel, info.technologies);
    text := Join(parts, "\n");
  }

  /**
   * This context is the strategy generator's context of the same answers
   * without the additional information and the known papers, and a prefix
   * of the strategy generator's context of the full answers.
   */
  lemma ContextAgrees(info: PrismaStrategy.ResearchInfo)
    ensures ContextLines(info) == PrismaStrategy.ContextLines(info.(additionalContext := None, knownPapers := None))
    ensures ContextLines(info) <= PrismaStrategy.ContextLines(info)
  {
  }

  /**
   * The context opens with the theme and field lines ("N/A" when missing),
   * then holds, in the order purpose, problem, technologies, exactly the
   * lines of the truthy answers among those three: a truthy answer has its
   * line, and no line carries the heading of an unanswered field, of the
   * additional information or of the known papers.
   */
  lemma ContextSpec(info: PrismaStrategy.ResearchInfo)
    ensures |ContextLines(info)| >= 2
    ensures ContextLines(info)[0] == PrismaStrategy.ThemeLabel + GetOr(info.theme, "N/A")
    ensures ContextLines(info)[1] == PrismaStrategy.FieldLabel + GetOr(info.field, "N/A")
    ensures IsSubsequence(ContextLines(info)[2..],
                          PrismaStrategy.CandidateLines(info.(additionalContext := None, knownPapers := None)))
    ensures forall i :: 0 <= i < 3 && PrismaStrategy.Answered(info, i) ==>
              PrismaStrategy.CandidateLines(info)[i] in ContextLines(info)[2..]
    ensures forall i, l :: 0 <= i < 5 && (i >= 3 || !PrismaStrategy.Answered(info, i)) && l in ContextLines(info)[2..] ==>
              !StartsWith(l, PrismaStrategy.OptionalHeadings[i])
  {
    var core := info.(additionalContext := None, knownPapers := None);
    ContextAgrees(info);
    PrismaStrategy.ContextLinesSpec(core);
    CoreAnswers(info);
  }

  /** Dropping the additional information and known papers keeps the first three answers and their lines. */
  lemma CoreAnswers(info: PrismaStrategy.ResearchInfo)
    ensures var core := info.(additionalContext := None, knownPapers := None);
            (forall i :: 0 <= i < 3 ==> (PrismaStrategy.Answered(core, i) <==> PrismaStrategy.Answered(info, i))
                                        && PrismaStrategy.CandidateLines(core)[i] == PrismaStrategy.CandidateLines(info)[i])
            && !PrismaStrategy.Answered(core, 3) && !PrismaStrategy.Answered(core, 4)
  {
  }

  // ---------------------------------------------------------------------
  // Search strategy

  /** The strategy fields the summary prompt shows; both keys may be missing. */
  datatype StrategyInfo = StrategyInfo(primaryKeywords: Option<seq<string>>, searchQueries: Option<seq<string>>)

  const KeywordsLabel := "主要キーワード: "
  const QueriesHeading := "\n検索クエリ:"

  /** The line for the `n`-th query (numbered from 1). */
  function QueryLine(n: nat, query: string): string
  {
    "  " + NatToString(n) + ". " + query
  }

  /** The numbered query lines, the first numbered 1. */
  function QueryLines(queries: seq<string>): seq<string>
  {
    seq(|queries|, i requires 0 <= i < |queries| => QueryLine(i + 1, queries[i]))
  }

  /** A list key that is present and non-empty. */
  predicate TruthyList(xs: Option<seq<string>>)
  {
    xs.Some? && xs.value != []
  }

  /** The lines of `_format_search_strategy`: the keywords line when keywords exist, then the queries heading and the numbered queries when queries exist. */
  function StrategyLines(s: StrategyInfo): seq<string>
  {
    (if TruthyList(s.primaryKeywords) then [KeywordsLabel + Join(s.primaryKeywords.value, ", ")] else [])
    + (if TruthyList(s.searchQueries) then [QueriesHeading] + QueryLines(s.searchQueries.value) else [])
  }

  /** `_format_search_strategy(strategy)`: the `enumerate(..., 1)` loop appends one numbered line per query. */
  method FormatSearchStrategy(s: StrategyInfo) returns (text: string)
    ensures text == Join(StrategyLines(s), "\n")
  {
    var parts: seq<string> := [];
    if TruthyList(s.primaryKeywords) {
      parts := parts + [KeywordsLabel + Join(s.primaryKeywords.value, ", ")];
    }
    if TruthyList(s.searchQueries) {
      var queries := s.searchQueries.value;
      parts := parts + [QueriesHeading];
      ghost var head := parts;
      var i := 0;
      while i < |queries|
        invariant 0 <= i <= |queries|
        invariant parts == head + QueryLines(queries[..i])
      {
        assert QueryLines(queries[..i + 1]) == QueryLines(queries[..i]) + [QueryLine(i + 1, queries[i])];
        parts := parts + [QueryLine(i + 1, queries[i])];
        i := i + 1;
      }
      assert queries[..i] == queries;
    }
    assert parts == StrategyLines(s);
    text := Join(parts, "\n");
  }

  /**
   * The keywords line comes first when there are keywords; when there are
   * queries, the heading follows and then one line per query in list order,
   * the `i`-th query (from 0) on the line numbered `i + 1`; two query lines
   * are equal only when their numbers and their queries are.
   */
  lemma StrategySpec(s: StrategyInfo)
    ensures var k := if TruthyList(s.primaryKeywords) then 1 else 0;
            |StrategyLines(s)| == k + (if TruthyList(s.searchQueries) then 1 + |s.searchQueries.value| else 0)
            && (TruthyList(s.primaryKeywords) ==> StartsWith(StrategyLines(s)[0], KeywordsLabel))
            && (TruthyList(s.searchQueries) ==>
                  StrategyLines(s)[k] == QueriesHeading
                  && forall i :: 0 <= i < |s.searchQueries.value| ==>
                       StrategyLines(s)[k + 1 + i] == QueryLine(i + 1, s.searchQueries.value[i]))
  {
    if TruthyList(s.primaryKeywords) {
      var l := KeywordsLabel + Join(s.primaryKeywords.value, ", ");
      assert l[..|KeywordsLabel|] == KeywordsLabel;
    }
  }

  /** The number and the query can be read back from a query line. */
  lemma QueryLineInjective(m: nat, n: nat, p: string, q: string)
    requires QueryLine(m, p) == QueryLine(n, q)
    ensures m == n && p == q
  {
    var a, b := NatToString(m), NatToString(n);
    var line := QueryLine(m, p);
    assert line == "  " + a + ". " + p;
    assert line == "  " + b + ". " + q;
    var k := Min(|a|, |b|);
    assert k < |a| ==> IsDigit(line[2 + k]);
    assert k < |b| ==> IsDigit(line[2 + k]);
    assert k == |a| || k == |b| ==> line[2 + k] == '.';
    assert a == line[2..2 + |a|] == b;
    NatToStringInjective(m, n);
    assert p == line[4 + |a|..] == q;
  }

  /** The numbered query lines are pairwise different, even for repeated queries. */
  lemma QueryLinesDistinct(queries: seq<string>)
    ensures forall i, j :: 0 <= i < j < |queries| ==> QueryLines(queries)[i] != QueryLines(queries)[j]
  {
    forall i, j | 0 <= i < j < |queries| ensures QueryLines(queries)[i] != QueryLines(queries)[j] {
      if QueryLines(queries)[i] == QueryLines(queries)[j] {
        QueryLineInjective(i + 1, j + 1, queries[i], queries[j]);
      }
    }
  }

  // ---------------------------------------------------------------------
  // Report file name

  /** The characters `save_report` keeps in a file name: letters, digits, space, '-' and '_'. */
  predicate IsSafeChar(c: char)
  {
    IsAlnum(c) || c in " -_"
  }

  function SafeChar(c: char): char
  {
    if IsSafeChar(c) then c else '_'
  }

  const MaxTitleLength := 50
  const ReportExtension := ".md"

  /** The sanitised title: unsafe characters become '_', then the first 50 are kept. */
  function SafeTitle(title: string): string
  {
    PyPrefix(seq(|title|, i requires 0 <= i < |title| => SafeChar(title[i])), MaxTitleLength)
  }

  /**
   * The sanitised title keeps the first 50 positions of the title; at each
   * a safe character is kept and any other becomes '_', so every character
   * is safe. Sanitising twice changes nothing.
   */
  lemma SafeTitleSpec(title: string)
    ensures |SafeTitle(title)| == Min(50, |title|)
    ensures forall i :: 0 <= i < |SafeTitle(title)| ==> IsSafeChar(SafeTitle(title)[i])
    ensures forall i :: 0 <= i < |SafeTitle(title)| && IsSafeChar(title[i]) ==> SafeTitle(title)[i] == title[i]
    ensures forall i :: 0 <= i < |SafeTitle(title)| && !IsSafeChar(title[i]) ==> SafeTitle(title)[i] == '_'
    ensures SafeTitle(SafeTitle(title)) == SafeTitle(title)
  {
  }

  /** The file `save_report` writes for a title: "<sanitised title>.md" for a non-empty title, the output path itself (None) otherwise. */
  function ReportFileName(title: Option<string>): Option<string>
  {
    if TruthyStr(title) then Some(SafeTitle(title.value) + ReportExtension) else None
  }

  /**
   * A non-empty title gives a name of at most 53 characters that ends with
   * ".md" and holds no path separator and no other '.', so the report stays
   * in the output directory; an empty or missing title names no file.
   */
  lemma ReportFileNameSpec(title: Option<string>)
    ensures ReportFileName(title).Some? <==> TruthyStr(title)
    ensures ReportFileName(title).Some? ==>
              var name := ReportFileName(title).value;
              |name| <= 53 && |name| >= 4 && name[|name| - 3..] == ".md"
              && '/' !in name && forall i :: 0 <= i < |name| - 3 ==> name[i] != '.'
  {
    if TruthyStr(title) {
      SafeTitleSpec(title.value);
    }
  }
}
