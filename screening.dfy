/**
 * PRISMA screening: the criteria record, automated rule-based screening of
 * one paper (year, then language, then publication type), the manager's
 * record list with its summary histogram, and the field-dependent default
 * criteria.
 */
module Screening {
  import opened Common
  import opened Strs
  import Records

  /** Inclusion and exclusion criteria; `year_range` is the pair `start`, `end`. */
  datatype ScreeningCriteria = ScreeningCriteria(
    inclusion: seq<string>,
    exclusion: seq<string>,
    languages: seq<string>,
    yearStart: int,
    yearEnd: int,
    publicationTypes: seq<string>,
    studyDesigns: seq<string>)

  /** The criteria used when none are given. */
  function DefaultScreeningCriteria(): (c: ScreeningCriteria)
  {
    ScreeningCriteria([], [], ["English"], 2018, 2024, ["Journal Article", "Conference Paper"], [])
  }

  /** One screening decision about one paper. */
  datatype ScreeningRecord = ScreeningRecord(
    paperId: string,
    title: string,
    decision: string,
    exclusionReason: Option<string>,
    screeningStage: string,
    screenerId: string,
    notes: Option<string>)

  /** The keys of the paper dictionary that screening reads; `None` is an absent key. */
  datatype Paper = Paper(
    doi: Option<string>,
    url: Option<string>,
    title: Option<string>,
    year: Option<int>,
    language: Option<string>,
    publicationType: Option<string>)

    /** `paper.get('doi') or paper.get('url') or paper.get('title', '')[:50]`. */
  function PaperId(p: Paper): string
  {
    if TruthyStr(p.doi) then p.doi.value
    else if TruthyStr(p.url) then p.url.value
    else PyPrefix(GetOr(p.title, ""), 50)
  }

  lemma PaperIdSpec(p: Paper)
    ensures TruthyStr(p.doi) ==> PaperId(p) == p.doi.value
    ensures !TruthyStr(p.doi) && TruthyStr(p.url) ==> PaperId(p) == p.url.value
    ensures !TruthyStr(p.doi) && !TruthyStr(p.url) ==>
              |PaperId(p)| <= 50 && PaperId(p) == GetOr(p.title, "")[..|PaperId(p)|]
              && (|GetOr(p.title, "")| <= 50 ==> PaperId(p) == GetOr(p.title, ""))
  {
  }

  /** The year check passes: no truthy year, or one inside the inclusive range. */
  predicate YearPasses(c: ScreeningCriteria, p: Paper)
  {
    !Truthy(p.year) || c.yearStart <= p.year.value <= c.yearEnd
  }

  /** `paper.get('language', 'English')`. */
  function Language(p: Paper): string
  {
    GetOr(p.language, "English")
  }

  predicate LanguagePasses(c: ScreeningCriteria, p: Paper)
  {
    Language(p) in c.languages
  }

  /** The type check passes: no truthy type, or a listed one. */
  predicate TypePasses(c: ScreeningCriteria, p: Paper)
  {
    !TruthyStr(p.publicationType) || p.publicationType.value in c.publicationTypes
  }

  const YearReasonPrefix := "Outside year range ("
  const LanguageReasonPrefix := "Language not in criteria: "
  const TypeReasonPrefix := "Publication type not in criteria: "
  const PassedNote := "Passed automated screening criteria"

  function YearReason(c: ScreeningCriteria): string
  {
    YearReasonPrefix + IntToString(c.yearStart) + "-" + IntToString(c.yearEnd) + ")"
  }

  function LanguageReason(language: string): string
  {
    LanguageReasonPrefix + language
  }

  function TypeReason(pubType: string): string
  {
    TypeReasonPrefix + pubType
  }

  function Excluded(p: Paper, stage: string, reason: string): ScreeningRecord
  {
    ScreeningRecord(PaperId(p), GetOr(p.title, ""), "Exclude", Some(reason), stage, "automated", None)
  }

  /** `screen_paper_automated`: the first failing check decides the reason; otherwise the paper is included. */
  function ScreenPaper(c: ScreeningCriteria, p: Paper, stage: string): (r: ScreeningRecord)
    ensures r.paperId == PaperId(p) && r.title == GetOr(p.title, "")
    ensures r.screeningStage == stage && r.screenerId == "automated"
  {
    if Truthy(p.year) && (p.year.value < c.yearStart || p.year.value > c.yearEnd) then
      Excluded(p, stage, YearReason(c))
    else if Language(p) !in c.languages then
      Excluded(p, stage, LanguageReason(Language(p)))
    else if TruthyStr(p.publicationType) && p.publicationType.value !in c.publicationTypes then
      Excluded(p, stage, TypeReason(p.publicationType.value))
    else
      ScreeningRecord(PaperId(p), GetOr(p.title, ""), "Include", None, stage, "automated",
                      Some(PassedNote))
  }

  /** Include exactly when all three checks pass; every exclusion carries a non-empty reason. */
  lemma ScreenDecision(c: ScreeningCriteria, p: Paper, stage: string)
    ensures var r := ScreenPaper(c, p, stage);
      (r.decision == "Include" <==> YearPasses(c, p) && LanguagePasses(c, p) && TypePasses(c, p))
      && (r.decision == "Include" || r.decision == "Exclude")
      && (r.decision == "Include" ==> r.exclusionReason.None?)
      && (r.decision == "Exclude" ==> r.exclusionReason.Some? && r.exclusionReason.value != "")
  {
  }

  /** The year check comes first, then the language, then the publication type. */
  lemma ScreenPrecedence(c: ScreeningCriteria, p: Paper, stage: string)
    ensures var r := ScreenPaper(c, p, stage);
      (!YearPasses(c, p) ==> r.exclusionReason == Some(YearReason(c)))
      && (YearPasses(c, p) && !LanguagePasses(c, p) ==> r.exclusionReason == Some(LanguageReason(Language(p))))
      && (YearPasses(c, p) && LanguagePasses(c, p) && !TypePasses(c, p)
          ==> r.exclusionReason == Some(TypeReason(p.publicationType.value)))
  {
  }

  /** A missing or falsy year, or a missing or empty type, is never a reason to exclude. */
  lemma ScreenIgnoresFalsy(c: ScreeningCriteria, p: Paper, stage: string)
    ensures !Truthy(p.year) ==> ScreenPaper(c, p, stage) == ScreenPaper(c, p.(year := None), stage)
    ensures !TruthyStr(p.publicationType) ==>
              ScreenPaper(c, p, stage) == ScreenPaper(c, p.(publicationType := None), stage)
  {
  }

  // ---------------------------------------------------------------------
  // The manager and its summary

  /** How many records carry decision `d`. */
  function CountDecision(records: seq<ScreeningRecord>, d: string): (n: nat)
    ensures n <= |records|
    decreases |records|
  {
    if records == [] then 0
    else CountDecision(records[..|records| - 1], d) + (if records[|records| - 1].decision == d then 1 else 0)
  }

  /** Counts of three different decisions never exceed the number of records. */
  lemma {:induction false} DecisionCountsBound(records: seq<ScreeningRecord>, u: string, v: string, w: string)
    requires u != v && v != w && u != w
    ensures CountDecision(records, u) + CountDecision(records, v) + CountDecision(records, w) <= |records|
    decreases |records|
  {
    if records != [] {
      DecisionCountsBound(records[..|records| - 1], u, v, w);
    }
  }

  /** A record that feeds the histogram: an exclusion with a non-empty reason. */
  predicate HasReason(r: ScreeningRecord)
  {
    r.decision == "Exclude" && TruthyStr(r.exclusionReason)
  }

  /** The reasons of the records that feed the histogram, in record order. */
  function ReasonsOf(records: seq<ScreeningRecord>): (rs: seq<string>)
    decreases |records|
  {
    if records == [] then []
    else
      var last := records[|records| - 1];
      ReasonsOf(records[..|records| - 1]) + (if HasReason(last) then [last.exclusionReason.value] else [])
  }

  /** Every histogram entry comes from an excluded record, so the histogram total is at most `excluded`. */
  lemma {:induction false} ReasonsBound(records: seq<ScreeningRecord>)
    ensures |ReasonsOf(records)| <= CountDecision(records, "Exclude")
    decreases |records|
  {
    if records != [] {
      ReasonsBound(records[..|records| - 1]);
    }
  }

  lemma ReasonsOfStep(records: seq<ScreeningRecord>, i: nat)
    requires i < |records|
    ensures ReasonsOf(records[..i + 1])
            == ReasonsOf(records[..i]) + (if HasReason(records[i]) then [records[i].exclusionReason.value] else [])
  {
    assert records[..i + 1][..i] == records[..i];
  }

  /** `get_screening_summary()`; the histogram is an insertion-ordered dictionary. */
  datatype Summary = Summary(
    total: nat,
    included: nat,
    excluded: nat,
    uncertain: nat,
    reasonKeys: seq<string>,
    reasonCounts: map<string, nat>)

  class ScreeningManager {
    var criteria: ScreeningCriteria
    var records: seq<ScreeningRecord>

    /** `ScreeningManager(criteria)`: the default criteria when none are given, and no records. */
    constructor (given: Option<ScreeningCriteria>)
      ensures criteria == GetOr(given, DefaultScreeningCriteria())
      ensures records == []
    {
      criteria := GetOr(given, DefaultScreeningCriteria());
      records := [];
    }

    /** `add_record`: appends exactly one record. */
    method AddRecord(r: ScreeningRecord)
      modifies this
      ensures records == old(records) + [r]
      ensures criteria == old(criteria)
    {
      records := records + [r];
    }

    /** `get_screening_summary`. */
    method GetScreeningSummary() returns (s: Summary)
      ensures records == [] ==> s == Summary(0, 0, 0, 0, [], map[])
      ensures s.total == |records|
      ensures s.included == CountDecision(records, "Include")
      ensures s.excluded == CountDecision(records, "Exclude")
      ensures s.uncertain == CountDecision(records, "Uncertain")
      ensures s.included + s.excluded + s.uncertain <= s.total
      ensures IsHistogram(s.reasonKeys, s.reasonCounts, ReasonsOf(records))
      ensures |ReasonsOf(records)| <= s.excluded
    {
      ReasonsBound(records);
      if |records| == 0 {
        return Summary(0, 0, 0, 0, [], map[]);
      }
      var included := CountDecision(records, "Include");
      var excluded := CountDecision(records, "Exclude");
      var uncertain := CountDecision(records, "Uncertain");
      DecisionCountsBound(records, "Include", "Exclude", "Uncertain");
      var keys, counts := ReasonHistogram(records);
      s := Summary(|records|, included, excluded, uncertain, keys, counts);
    }
  }

  /** The loop that fills `exclusion_reasons`: keys in order of first appearance, one count per reason. */
  method ReasonHistogram(records: seq<ScreeningRecord>) returns (keys: seq<string>, counts: map<string, nat>)
    ensures IsHistogram(keys, counts, ReasonsOf(records))
  {
    keys := [];
    counts := map[];
    ghost var seen: seq<string> := [];
    var i := 0;
    while i < |records|
      invariant 0 <= i <= |records|
      invariant seen == ReasonsOf(records[..i])
      invariant IsHistogram(keys, counts, seen)
    {
      ReasonsOfStep(records, i);
      var r := records[i];
      if r.decision == "Exclude" && r.exclusionReason.Some? && r.exclusionReason.value != "" {
        assert HasReason(r);
        var reason := r.exclusionReason.value;
        keys, counts := HistogramInsert(keys, counts, seen, reason);
        seen := seen + [reason];
      } else {
        assert !HasReason(r);
      }
      i := i + 1;
    }
    assert records[..i] == records;
  }

  // ---------------------------------------------------------------------
  // Default criteria

  /** Which field-specific additions apply: the lower-cased field is matched against two fixed lists. */
  datatype FieldKind = Technical | LifeScience | OtherField

  function KindOf(field: string): FieldKind
  {
    var f := Lower(field);
    if f in ["computer science", "engineering", "ai", "machine learning"] then Technical
    else if f in ["medicine", "healthcare", "biology"] then LifeScience
    else OtherField
  }

  const PeerReviewedPublication := "Peer-reviewed publication (journal article or conference paper)"
  const DirectlyAddresses := "Directly addresses "
  const OriginalResearch := "Reports original research or systematic review"
  const EmpiricalData := "Provides empirical data or theoretical framework"
  const NotPeerReviewed := "Not peer-reviewed (blog posts, white papers, etc.)"
  const NotInEnglish := "Not in English"
  const OutsideYearRange := "Outside specified publication year range"
  const EditorialPiece := "Editorial, commentary, or opinion piece without original research"
  const DuplicatePublication := "Duplicate publication of same study"
  const DescribesMethodology := "Describes methodology or algorithm clearly"
  const PerformanceEvaluation := "Includes performance evaluation"
  const PurelyTheoretical := "Purely theoretical without implementation details"
  const DescribesStudyDesign := "Describes study design and sample"
  const ClinicalOutcomes := "Reports clinical or experimental outcomes"
  const SmallCaseReport := "Case report with n<5"
  const NoEthicalApproval := "No ethical approval mentioned for human subjects"

  function BaseInclusion(theme: string): (r: seq<string>)
  {
    [PeerReviewedPublication, DirectlyAddresses + theme, OriginalResearch, EmpiricalData]
  }

  function BaseExclusion(): (r: seq<string>)
  {
    [NotPeerReviewed, NotInEnglish, OutsideYearRange, EditorialPiece, DuplicatePublication]
  }

  function ExtraInclusion(kind: FieldKind): seq<string>
  {
    match kind
    case Technical => [DescribesMethodology, PerformanceEvaluation]
    case LifeScience => [DescribesStudyDesign, ClinicalOutcomes]
    case OtherField => []
  }

  function ExtraExclusion(kind: FieldKind): seq<string>
  {
    match kind
    case Technical => [PurelyTheoretical]
    case LifeScience => [SmallCaseReport, NoEthicalApproval]
    case OtherField => []
  }

  /** `generate_default_criteria(field, theme)`. */
  function DefaultCriteria(field: string, theme: string): (c: ScreeningCriteria)
  {
    CriteriaFor(KindOf(field), theme)
  }

  function CriteriaFor(kind: FieldKind, theme: string): (c: ScreeningCriteria)
  {
    ScreeningCriteria(BaseInclusion(theme) + ExtraInclusion(kind), BaseExclusion() + ExtraExclusion(kind),
                      ["English"], 2018, 2024, ["Journal Article", "Conference Paper"], [])
  }

  /** Whatever the field: English only, 2018 to 2024, journal articles and conference papers. */
  lemma DefaultCriteriaFixed(field: string, theme: string)
    ensures var c := DefaultCriteria(field, theme);
      c.languages == ["English"] && c.yearStart == 2018 && c.yearEnd == 2024
      && c.publicationTypes == ["Journal Article", "Conference Paper"]
  {
  }

  /** The 4 base inclusion and 5 base exclusion entries come first, then 2+1 (technical) or 2+2 (life science) more. */
  lemma DefaultCriteriaLists(field: string, theme: string)
    ensures var c := DefaultCriteria(field, theme);
      && |c.inclusion| == 4 + (if KindOf(field) == OtherField then 0 else 2)
      && |c.exclusion| == 5 + (match KindOf(field) case Technical => 1 case LifeScience => 2 case OtherField => 0)
      && c.inclusion[..4] == BaseInclusion(theme) && c.exclusion[..5] == BaseExclusion()
  {
    CriteriaForLists(KindOf(field), theme);
  }

  lemma CriteriaForLists(kind: FieldKind, theme: string)
    ensures var c := CriteriaFor(kind, theme);
      && |c.inclusion| == 4 + (if kind == OtherField then 0 else 2)
      && |c.exclusion| == 5 + (match kind case Technical => 1 case LifeScience => 2 case OtherField => 0)
      && c.inclusion[..4] == BaseInclusion(theme) && c.exclusion[..5] == BaseExclusion()
  {
    var c := CriteriaFor(kind, theme);
    assert c.inclusion[..4] == BaseInclusion(theme);
    assert c.exclusion[..5] == BaseExclusion();
  }

  /** Field matching ignores letter case. */
  lemma FieldCaseInsensitive(field: string)
    ensures KindOf(Upper(field)) == KindOf(field)
  {
    assert Lower(Upper(field)) == Lower(field);
  }

  /** Screening under the default year range and language: the five papers of the integration workflow give 3 included and 2 excluded. */
  lemma MixedFivePapers(c: ScreeningCriteria)
    requires c.languages == ["English"] && c.yearStart == 2018 && c.yearEnd == 2024
    ensures var rs := [ScreenPaper(c, Paper(None, None, Some("AI in Healthcare 2023"), Some(2023), Some("English"), None), "title_abstract"),
                       ScreenPaper(c, Paper(None, None, Some("Old AI Study"), Some(2015), Some("English"), None), "title_abstract"),
                       ScreenPaper(c, Paper(None, None, Some("German AI Study"), Some(2023), Some("German"), None), "title_abstract"),
                       ScreenPaper(c, Paper(None, None, Some("Recent AI Research"), Some(2024), Some("English"), None), "title_abstract"),
                       ScreenPaper(c, Paper(None, None, Some("Another Recent Study"), Some(2022), Some("English"), None), "title_abstract")];
      CountDecision(rs, "Include") == 3 && CountDecision(rs, "Exclude") == 2
  {
    var st := "title_abstract";
    var r0 := ScreenPaper(c, Paper(None, None, Some("AI in Healthcare 2023"), Some(2023), Some("English"), None), st);
    var r1 := ScreenPaper(c, Paper(None, None, Some("Old AI Study"), Some(2015), Some("English"), None), st);
    var r2 := ScreenPaper(c, Paper(None, None, Some("German AI Study"), Some(2023), Some("German"), None), st);
    var r3 := ScreenPaper(c, Paper(None, None, Some("Recent AI Research"), Some(2024), Some("English"), None), st);
    var r4 := ScreenPaper(c, Paper(None, None, Some("Another Recent Study"), Some(2022), Some("English"), None), st);
    assert "English" in c.languages && "German" !in c.languages;
    assert r0.decision == "Include" && r1.decision == "Exclude" && r2.decision == "Exclude";
    assert r3.decision == "Include" && r4.decision == "Include";
    CountFive([r0, r1, r2, r3, r4]);
  }

  lemma CountFive(rs: seq<ScreeningRecord>)
    requires |rs| == 5
    requires rs[0].decision == "Include" && rs[1].decision == "Exclude" && rs[2].decision == "Exclude"
    requires rs[3].decision == "Include" && rs[4].decision == "Include"
    ensures CountDecision(rs, "Include") == 3 && CountDecision(rs, "Exclude") == 2
  {
    assert "Include" != "Exclude";
    assert rs[..1][..0] == [];
    assert CountDecision(rs[..1], "Include") == 1 && CountDecision(rs[..1], "Exclude") == 0;
    assert rs[..2][..1] == rs[..1];
    assert CountDecision(rs[..2], "Include") == 1 && CountDecision(rs[..2], "Exclude") == 1;
    assert rs[..3][..2] == rs[..2];
    assert CountDecision(rs[..3], "Include") == 1 && CountDecision(rs[..3], "Exclude") == 2;
    assert rs[..4][..3] == rs[..3];
    assert CountDecision(rs[..4], "Include") == 2 && CountDecision(rs[..4], "Exclude") == 2;
    assert rs[..5] == rs;
  }
}
