/**
 * The deterministic parts of the PRISMA search-strategy generator: the JSON
 * text cut out of a model reply, the research-context text given to the
 * model, and the fallback strategy used when the model's answer is unusable.
 */
module PrismaStrategy {
  import opened Common
  import opened Strs

  // ---------------------------------------------------------------------
  // JSON text of a model reply

  const JsonFence := "```json"
  const Fence := "```"

  /** The JSON text `generate_search_strategy` takes from a reply: inside a "```json" block, else inside the first fenced block, else the whole reply, stripped. */
  function JsonText(reply: string): string
  {
    if Contains(reply, JsonFence) then Strip(Split(Split(reply, JsonFence)[1], Fence)[0])
    else if Contains(reply, Fence) then Strip(Split(Split(reply, Fence)[1], Fence)[0])
    else Strip(reply)
  }

  /** A "```json" opener is also a plain fence. */
  lemma JsonFenceIsFence(reply: string)
    ensures Contains(reply, JsonFence) ==> Contains(reply, Fence)
  {
    if Contains(reply, JsonFence) {
      OccursPrefix(reply, JsonFence, Fence, IndexFrom(reply, JsonFence, 0).value);
      ContainsIff(reply, Fence);
    }
  }

  /** With a "```json" opener, the text runs from the end of the first opener up to the next fence inside its block. */
  lemma JsonBlock(reply: string)
    requires Contains(reply, JsonFence)
    ensures JsonText(reply) == Strip(UpTo(UpTo(reply, JsonFence, EndOfFirst(reply, JsonFence)), Fence, 0))
  {
    SecondPieceCut(reply, JsonFence, Fence);
  }

  /** Without a "```json" opener but with a fence, the text runs from the end of the first fence up to the next. */
  lemma PlainBlock(reply: string)
    requires !Contains(reply, JsonFence) && Contains(reply, Fence)
    ensures JsonText(reply) == Strip(UpTo(reply, Fence, EndOfFirst(reply, Fence)))
  {
    SecondPieceOnce(reply, Fence);
  }

  /**
   * With a "```json" opener, the text runs from the end of the first opener
   * to the next fence (when that fence closes before any further opener),
   * or to the end of the reply when no fence follows. With only plain fences,
   * it is the text between the first two fences, or everything after a lone
   * fence. Without fences it is the reply. Every result is stripped.
   */
  lemma JsonTextSpec(reply: string)
    ensures Contains(reply, JsonFence) ==>
              JsonText(reply) == Strip(UpTo(UpTo(reply, JsonFence, EndOfFirst(reply, JsonFence)), Fence, 0))
    ensures Contains(reply, JsonFence) && IndexFrom(reply, Fence, EndOfFirst(reply, JsonFence)).None? ==>
              JsonText(reply) == Strip(reply[EndOfFirst(reply, JsonFence)..])
    ensures Contains(reply, JsonFence) && IndexFrom(reply, Fence, EndOfFirst(reply, JsonFence)).Some?
            && IndexFrom(reply, Fence, EndOfFirst(reply, JsonFence)).value + |Fence|
               <= UpToEnd(reply, JsonFence, EndOfFirst(reply, JsonFence)) ==>
              JsonText(reply) == Strip(reply[EndOfFirst(reply, JsonFence)..IndexFrom(reply, Fence, EndOfFirst(reply, JsonFence)).value])
    ensures !Contains(reply, JsonFence) && Contains(reply, Fence) ==>
              JsonText(reply) == Strip(UpTo(reply, Fence, EndOfFirst(reply, Fence)))
    ensures !Contains(reply, Fence) ==> JsonText(reply) == Strip(reply)
  {
    JsonFenceIsFence(reply);
    if Contains(reply, JsonFence) {
      var n := EndOfFirst(reply, JsonFence);
      JsonBlock(reply);
      if IndexFrom(reply, Fence, n).None? {
        UpToNestedNone(reply, JsonFence, Fence, n);
      } else if IndexFrom(reply, Fence, n).value + |Fence| <= UpToEnd(reply, JsonFence, n) {
        UpToNestedCut(reply, JsonFence, Fence, n);
      }
    } else if Contains(reply, Fence) {
      PlainBlock(reply);
    }
  }

  // ---------------------------------------------------------------------
  // Research context

  /** The interview answers: every key may be missing. */
  datatype ResearchInfo = ResearchInfo(
    theme: Option<string>, field: Option<string>, purpose: Option<string>, problem: Option<string>,
    technologies: Option<seq<string>>, additionalContext: Option<string>, knownPapers: Option<seq<string>>)

  const ThemeLabel := "研究テーマ: "
  const FieldLabel := "研究分野: "
  const PurposeLabel := "研究目的: "
  const ProblemLabel := "問題意識: "
  const TechnologiesLabel := "注目技術: "
  const AdditionalLabel := "追加情報: "
  const KnownPapersLabel := "既知の研究: "
  const NotAvailable := "N/A"
  const ListSeparator := ", "

  /** A line for an optional text answer, present only when the answer is a non-empty string. */
  function TextLine(heading: string, value: Option<string>): seq<string>
  {
    if TruthyStr(value) then [heading + value.value] else []
  }

  /** A line for an optional list answer, present only when the list is non-empty; its items are comma-joined. */
  function ListLine(heading: string, items: Option<seq<string>>): seq<string>
  {
    if items.Some? && items.value != [] then [heading + Join(items.value, ListSeparator)] else []
  }

  /** The two lines every context starts with. */
  function HeadLines(info: ResearchInfo): seq<string>
  {
    [ThemeLabel + GetOr(info.theme, NotAvailable), FieldLabel + GetOr(info.field, NotAvailable)]
  }

  /** The optional lines, in the order `_format_research_context` appends them. */
  function OptionalLines(info: ResearchInfo): seq<string>
  {
    TextLine(PurposeLabel, info.purpose) + TextLine(ProblemLabel, info.problem)
    + ListLine(TechnologiesLabel, info.technologies) + TextLine(AdditionalLabel, info.additionalContext)
    + ListLine(KnownPapersLabel, info.knownPapers)
  }

  /** The lines `_format_research_context` collects. */
  function ContextLines(info: ResearchInfo): seq<string>
  {
    HeadLines(info) + OptionalLines(info)
  }

  const OptionalHeadings := [PurposeLabel, ProblemLabel, TechnologiesLabel, AdditionalLabel, KnownPapersLabel]

  /** The optional lines, one group per heading. */
  function OptionalGroups(info: ResearchInfo): seq<seq<string>>
  {
    [TextLine(PurposeLabel, info.purpose), TextLine(ProblemLabel, info.problem),
     ListLine(TechnologiesLabel, info.technologies), TextLine(AdditionalLabel, info.additionalContext),
     ListLine(KnownPapersLabel, info.knownPapers)]
  }

  /** Every optional line that could appear, in the order the context lists them. */
  function CandidateLines(info: ResearchInfo): seq<string>
  {
    [PurposeLabel + GetOr(info.purpose, ""), ProblemLabel + GetOr(info.problem, ""),
     TechnologiesLabel + Join(GetOr(info.technologies, []), ListSeparator),
     AdditionalLabel + GetOr(info.additionalContext, ""),
     KnownPapersLabel + Join(GetOr(info.knownPapers, []), ListSeparator)]
  }

  /** Whether the answer behind the `i`-th optional heading is truthy: a non-empty string or a non-empty list. */
  predicate Answered(info: ResearchInfo, i: nat)
  {
    match i
    case 0 => TruthyStr(info.purpose)
    case 1 => TruthyStr(info.problem)
    case 2 => info.technologies.Some? && info.technologies.value != []
    case 3 => TruthyStr(info.additionalContext)
    case _ => info.knownPapers.Some? && info.knownPapers.value != []
  }

  lemma OptionalLinesGroups(info: ResearchInfo)
    ensures OptionalLines(info) == Concat(OptionalGroups(info))
  {
    var g := OptionalGroups(info);
    assert Concat(g[..0]) == [];
    ConcatSnoc(g[..0], g[0]);
    assert g[..0] + [g[0]] == g[..1];
    ConcatSnoc(g[..1], g[1]);
    assert g[..1] + [g[1]] == g[..2];
    ConcatSnoc(g[..2], g[2]);
    assert g[..2] + [g[2]] == g[..3];
    ConcatSnoc(g[..3], g[3]);
    assert g[..3] + [g[3]] == g[..4];
    ConcatSnoc(g[..4], g[4]);
    assert g[..4] + [g[4]] == g;
  }

  /** Each group is its candidate line or nothing, its candidate when the answer is truthy, and its lines start with its heading. */
  lemma GroupsAreCandidates(info: ResearchInfo)
    ensures forall i :: 0 <= i < 5 ==>
              (Answered(info, i) ==> OptionalGroups(info)[i] == [CandidateLines(info)[i]])
              && (!Answered(info, i) ==> OptionalGroups(info)[i] == [])
    ensures forall j, l :: 0 <= j < 5 && l in OptionalGroups(info)[j] ==> StartsWith(l, OptionalHeadings[j])
  {
    var g := OptionalGroups(info);
    var c := CandidateLines(info);
    forall j, l | 0 <= j < 5 && l in g[j] ensures StartsWith(l, OptionalHeadings[j]) {
      assert l == c[j];
      assert c[j][..|OptionalHeadings[j]|] == OptionalHeadings[j];
    }
  }

  /**
   * The context opens with the theme and field lines ("N/A" when missing);
   * then come, in the fixed order purpose, problem, technologies,
   * additional context, known papers, exactly the lines of the truthy
   * answers: a truthy answer has its line, and no line carries the heading
   * of an answer that is missing or empty.
   */
  lemma ContextLinesSpec(info: ResearchInfo)
    ensures |ContextLines(info)| >= 2
    ensures ContextLines(info)[0] == ThemeLabel + GetOr(info.theme, NotAvailable)
    ensures ContextLines(info)[1] == FieldLabel + GetOr(info.field, NotAvailable)
    ensures IsSubsequence(ContextLines(info)[2..], CandidateLines(info))
    ensures forall i :: 0 <= i < 5 && Answered(info, i) ==> CandidateLines(info)[i] in ContextLines(info)[2..]
    ensures forall i, l :: 0 <= i < 5 && !Answered(info, i) && l in ContextLines(info)[2..] ==>
              !StartsWith(l, OptionalHeadings[i])
  {
    var g := OptionalGroups(info);
    assert ContextLines(info)[2..] == OptionalLines(info);
    OptionalLinesGroups(info);
    GroupsAreCandidates(info);
    ConcatPicks(g, CandidateLines(info));
    forall i | 0 <= i < 5 && !Answered(info, i)
      ensures forall l :: l in Concat(g) ==> !StartsWith(l, OptionalHeadings[i])
    {
      NoLineForHeading(g, OptionalHeadings, i);
    }
  }

  /** `if value: parts.append(f'{heading}{value}')`. */
  method AppendText(parts: seq<string>, heading: string, value: Option<string>) returns (r: seq<string>)
    ensures r == parts + TextLine(heading, value)
  {
    r := parts;
    if TruthyStr(value) {
      r := r + [heading + value.value];
    }
  }

  /** `if items: parts.append(f'{heading}{", ".join(items)}')`. */
  method AppendList(parts: seq<string>, heading: string, items: Option<seq<string>>) returns (r: seq<string>)
    ensures r == parts + ListLine(heading, items)
  {
    r := parts;
    if items.Some? && items.value != [] {
      r := r + [heading + Join(items.value, ListSeparator)];
    }
  }

  /** `_format_research_context(research_info)`: the lines appended one by one, then joined by newlines. */
  method FormatResearchContext(info: ResearchInfo) returns (text: string)
    ensures text == Join(ContextLines(info), "\n")
  {
    var parts := [ThemeLabel + GetOr(info.theme, NotAvailable)];
    parts := parts + [FieldLabel + GetOr(info.field, NotAvailable)];
    parts := AppendText(parts, PurposeLabel, info.purpose);
    parts := AppendText(parts, ProblemLabel, info.problem);
    parts := AppendList(parts, TechnologiesLabel, info.technologies);
    parts := AppendText(parts, AdditionalLabel, info.additionalContext);
    parts := AppendList(parts, KnownPapersLabel, info.knownPapers);
    assert parts == HeadLines(info) + OptionalLines(info);
    text := Join(parts, "\n");
  }

  // ---------------------------------------------------------------------
  // Fallback strategy

  /** A search strategy as the generator returns it. */
  datatype SearchStrategy = SearchStrategy(
    primaryKeywords: seq<string>, relatedKeywords: seq<string>, exclusionKeywords: seq<string>,
    searchQueries: seq<string>, yearStart: int, yearEnd: int, publicationTypes: seq<string>)

  const KeywordSeparator := " AND "
  const FallbackYearStart := 2018
  const FallbackYearEnd := 2024
  const FallbackTypes := ["Journal", "Conference"]
  const MaxTechnologies := 3

  /** The keywords of `_generate_fallback_strategy`: theme and field when non-empty, then at most three technologies. */
  function FallbackKeywords(info: ResearchInfo): seq<string>
  {
    var theme := GetOr(info.theme, "");
    var field := GetOr(info.field, "");
    (if theme != "" then [theme] else []) + (if field != "" then [field] else [])
    + PyPrefix(GetOr(info.technologies, []), MaxTechnologies)
  }

  /** The value `_generate_fallback_strategy(research_info)` returns. */
  function FallbackStrategy(info: ResearchInfo): SearchStrategy
  {
    var keywords := FallbackKeywords(info);
    var theme := GetOr(info.theme, "");
    var query := if |keywords| >= 2 then Join(PyPrefix(keywords, 3), KeywordSeparator)
                 else if theme != "" then theme else GetOr(info.field, "");
    SearchStrategy(keywords, [], [], [query], FallbackYearStart, FallbackYearEnd, FallbackTypes)
  }

  /** `_generate_fallback_strategy(research_info)`: the keyword list built by appending and extending. */
  method GenerateFallbackStrategy(info: ResearchInfo) returns (strategy: SearchStrategy)
    ensures strategy == FallbackStrategy(info)
  {
    var theme := GetOr(info.theme, "");
    var field := GetOr(info.field, "");
    var technologies := GetOr(info.technologies, []);
    var keywords := [];
    if theme != "" {
      keywords := keywords + [theme];
    }
    if field != "" {
      keywords := keywords + [field];
    }
    keywords := keywords + PyPrefix(technologies, MaxTechnologies);
    assert keywords == FallbackKeywords(info);
    var queries := if |keywords| >= 2 then [Join(PyPrefix(keywords, 3), KeywordSeparator)]
                   else [if theme != "" then theme else field];
    strategy := SearchStrategy(keywords, [], [], queries, FallbackYearStart, FallbackYearEnd, FallbackTypes);
  }

  /**
   * The fallback has exactly one query; its keywords are the non-empty theme,
   * then the non-empty field, then the first three technologies in order;
   * with two keywords or more the query joins the first three with " AND ",
   * otherwise it is the theme, or the field when the theme is empty; the
   * years are 2018 to 2024, the types journal and conference, and there are
   * no related or exclusion keywords.
   */
  lemma FallbackStrategySpec(info: ResearchInfo)
    ensures |FallbackStrategy(info).searchQueries| == 1
    ensures var n := (if GetOr(info.theme, "") != "" then 1 else 0) + (if GetOr(info.field, "") != "" then 1 else 0);
            |FallbackStrategy(info).primaryKeywords| == n + Min(3, |GetOr(info.technologies, [])|)
            && FallbackStrategy(info).primaryKeywords[n..] == GetOr(info.technologies, [])[..Min(3, |GetOr(info.technologies, [])|)]
    ensures GetOr(info.theme, "") != "" ==> FallbackStrategy(info).primaryKeywords[0] == info.theme.value
    ensures GetOr(info.field, "") != "" ==>
              FallbackStrategy(info).primaryKeywords[if GetOr(info.theme, "") != "" then 1 else 0] == info.field.value
    ensures |FallbackStrategy(info).primaryKeywords| >= 2 ==>
              FallbackStrategy(info).searchQueries[0]
              == Join(FallbackStrategy(info).primaryKeywords[..Min(3, |FallbackStrategy(info).primaryKeywords|)], KeywordSeparator)
    ensures |FallbackStrategy(info).primaryKeywords| < 2 ==>
              FallbackStrategy(info).searchQueries[0]
              == (if GetOr(info.theme, "") != "" then info.theme.value else GetOr(info.field, ""))
    ensures FallbackStrategy(info).relatedKeywords == [] && FallbackStrategy(info).exclusionKeywords == []
    ensures FallbackStrategy(info).yearStart == 2018 && FallbackStrategy(info).yearEnd == 2024
    ensures FallbackStrategy(info).publicationTypes == ["Journal", "Conference"]
  {
  }

  /** A theme alone is both the only keyword and the only query. */
  lemma ThemeOnlyFallback(info: ResearchInfo)
    requires info.theme == Some("AI safety") && info.field.None? && info.technologies.None?
    ensures FallbackStrategy(info).primaryKeywords == ["AI safety"]
    ensures FallbackStrategy(info).searchQueries == ["AI safety"]
  {
  }
}
