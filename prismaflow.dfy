/**
 * The PRISMA 2020 flow diagram counters: per-source record counts, duplicates,
 * exclusion reasons per stage, and the derived totals that explicit
 * recalculation steps refresh. Counts are plain integers: nothing is clamped,
 * so a derived count may go negative.
 */
module PrismaFlow {
  import opened Common
  import opened Dicts

  datatype DatabaseEntry = DatabaseEntry(count: int, searchDate: string)

  datatype Identification = Identification(
    databases: ODict<DatabaseEntry>,
    otherSources: ODict<int>,
    totalIdentified: int,
    duplicatesRemoved: int)

  datatype Screening = Screening(
    recordsScreened: int,
    recordsExcluded: int,
    exclusionReasons: ODict<int>)

  datatype Eligibility = Eligibility(
    reportsSought: int,
    reportsNotRetrieved: int,
    reportsAssessed: int,
    reportsExcluded: int,
    exclusionReasons: ODict<int>)

  datatype Included = Included(studiesIncluded: int, reportsIncluded: int)

  /** The nested `self.data` dictionary, one datatype per stage. */
  datatype FlowData = FlowData(
    identification: Identification,
    screening: Screening,
    eligibility: Eligibility,
    included: Included)

  /** The numbers a rendered diagram shows, in box order. */
  datatype DiagramCounts = DiagramCounts(
    identified: int, duplicates: int, screened: int, screenExcluded: int,
    sought: int, notRetrieved: int, assessed: int, eligibilityExcluded: int,
    studies: int, reports: int)

  predicate ValidData(d: FlowData)
  {
    && Valid(d.identification.databases)
    && Valid(d.identification.otherSources)
    && Valid(d.screening.exclusionReasons)
    && Valid(d.eligibility.exclusionReasons)
  }

  function EntryCount(e: DatabaseEntry): int { e.count }
  function Count(n: int): int { n }

  /** The diagram a fresh `PRISMAFlowDiagram()` holds. */
  function InitialData(): (d: FlowData)
    ensures ValidData(d)
  {
    FlowData(
      Identification(Empty(), Empty(), 0, 0),
      Screening(0, 0, Empty()),
      Eligibility(0, 0, 0, 0, Empty()),
      Included(0, 0))
  }

  // ---------------------------------------------------------------------
  // The recalculation steps as functions of the data

  /** `sum(db['count'] ...) + sum(other_sources.values())`. */
  function Identified(d: FlowData): int
    requires ValidData(d)
  {
    Total(d.identification.databases, EntryCount) + Total(d.identification.otherSources, Count)
  }

  function ScreeningExcluded(d: FlowData): int
    requires ValidData(d)
  {
    Total(d.screening.exclusionReasons, Count)
  }

  function EligibilityExcluded(d: FlowData): int
    requires ValidData(d)
  {
    Total(d.eligibility.exclusionReasons, Count)
  }

  /** `_recalculate_totals`. */
  function WithTotals(d: FlowData): (r: FlowData)
    requires ValidData(d)
    ensures ValidData(r)
  {
    d.(identification := d.identification.(totalIdentified := Identified(d)))
  }

  /** `_recalculate_screening`. */
  function WithScreening(d: FlowData): (r: FlowData)
    requires ValidData(d)
    ensures ValidData(r)
  {
    d.(screening := d.screening.(
      recordsScreened := d.identification.totalIdentified - d.identification.duplicatesRemoved,
      recordsExcluded := ScreeningExcluded(d)))
  }

  /** `_recalculate_eligibility`. */
  function WithEligibility(d: FlowData): (r: FlowData)
    requires ValidData(d)
    ensures ValidData(r)
  {
    var sought := d.screening.recordsScreened - d.screening.recordsExcluded;
    d.(eligibility := d.eligibility.(
      reportsSought := sought,
      reportsExcluded := EligibilityExcluded(d),
      reportsAssessed := sought - d.eligibility.reportsNotRetrieved))
  }

  /** Totals, then screening, then eligibility, as `generate_mermaid_diagram` runs them. */
  function Refreshed(d: FlowData): (r: FlowData)
    requires ValidData(d)
    ensures ValidData(r)
  {
    WithEligibility(WithScreening(WithTotals(d)))
  }

  /** The counts a rendered diagram shows. */
  function CountsOf(d: FlowData): DiagramCounts
  {
    DiagramCounts(
      d.identification.totalIdentified, d.identification.duplicatesRemoved,
      d.screening.recordsScreened, d.screening.recordsExcluded,
      d.eligibility.reportsSought, d.eligibility.reportsNotRetrieved,
      d.eligibility.reportsAssessed, d.eligibility.reportsExcluded,
      d.included.studiesIncluded, d.included.reportsIncluded)
  }

  /**
   * After the full recalculation every derived count is determined by the
   * entered data alone, and the entered data is untouched.
   */
  lemma RefreshedCounts(d: FlowData)
    requires ValidData(d)
    ensures var r := Refreshed(d);
      && r.identification.totalIdentified == Identified(d)
      && r.screening.recordsScreened == Identified(d) - d.identification.duplicatesRemoved
      && r.screening.recordsExcluded == ScreeningExcluded(d)
      && r.eligibility.reportsSought == Identified(d) - d.identification.duplicatesRemoved - ScreeningExcluded(d)
      && r.eligibility.reportsExcluded == EligibilityExcluded(d)
      && r.eligibility.reportsAssessed == r.eligibility.reportsSought - d.eligibility.reportsNotRetrieved
      && r.identification.databases == d.identification.databases
      && r.identification.otherSources == d.identification.otherSources
      && r.identification.duplicatesRemoved == d.identification.duplicatesRemoved
      && r.screening.exclusionReasons == d.screening.exclusionReasons
      && r.eligibility.exclusionReasons == d.eligibility.exclusionReasons
      && r.eligibility.reportsNotRetrieved == d.eligibility.reportsNotRetrieved
      && r.included == d.included
  {
  }

  /** Running the recalculation sequence twice gives the state of running it once. */
  lemma RefreshIdempotent(d: FlowData)
    requires ValidData(d)
    ensures Refreshed(Refreshed(d)) == Refreshed(d)
  {
    RefreshedCounts(d);
    RefreshedCounts(Refreshed(d));
  }

  /** Setting a source's count replaces its earlier contribution to the total. */
  lemma IdentifiedAfterDatabase(d: FlowData, name: string, e: DatabaseEntry)
    requires ValidData(d)
    ensures var dbs := d.identification.databases;
      var r := d.(identification := d.identification.(databases := Put(dbs, name, e)));
      Identified(r) == Identified(d) - (if name in dbs.values then dbs.values[name].count else 0) + e.count
  {
    PutTotal(d.identification.databases, name, e, EntryCount);
  }

  lemma IdentifiedAfterOtherSource(d: FlowData, name: string, count: int)
    requires ValidData(d)
    ensures var os := d.identification.otherSources;
      var r := d.(identification := d.identification.(otherSources := Put(os, name, count)));
      Identified(r) == Identified(d) - (if name in os.values then os.values[name] else 0) + count
  {
    PutTotal(d.identification.otherSources, name, count, Count);
  }

  /** An exclusion reason's count is set, not added: the stage total changes by the difference. */
  lemma ScreeningAfterExclusion(d: FlowData, reason: string, count: int)
    requires ValidData(d)
    ensures var rs := d.screening.exclusionReasons;
      var r := d.(screening := d.screening.(exclusionReasons := Put(rs, reason, count)));
      ScreeningExcluded(r) == ScreeningExcluded(d) - (if reason in rs.values then rs.values[reason] else 0) + count
  {
    PutTotal(d.screening.exclusionReasons, reason, count, Count);
  }

  lemma EligibilityAfterExclusion(d: FlowData, reason: string, count: int)
    requires ValidData(d)
    ensures var rs := d.eligibility.exclusionReasons;
      var r := d.(eligibility := d.eligibility.(exclusionReasons := Put(rs, reason, count)));
      EligibilityExcluded(r) == EligibilityExcluded(d) - (if reason in rs.values then rs.values[reason] else 0) + count
  {
    PutTotal(d.eligibility.exclusionReasons, reason, count, Count);
  }

  /** Nothing is clamped: more duplicates than records gives a negative screened count. */
  lemma NoClamping()
    ensures var d := InitialData().(identification := InitialData().identification.(duplicatesRemoved := 5));
      Refreshed(d).screening.recordsScreened == -5
  {
  }

  // ---------------------------------------------------------------------
  // The diagram object

  class PrismaFlowDiagram {
    var data: FlowData

    predicate Valid()
      reads this
    {
      ValidData(data)
    }

    /** `PRISMAFlowDiagram()`: every counter 0, every reason and source table empty. */
    constructor ()
      ensures Valid() && data == InitialData()
      ensures data.identification.databases.keys == [] && data.identification.otherSources.keys == []
      ensures data.screening.exclusionReasons.keys == [] && data.eligibility.exclusionReasons.keys == []
      ensures CountsOf(data) == DiagramCounts(0, 0, 0, 0, 0, 0, 0, 0, 0, 0)
    {
      data := InitialData();
    }

    /** `add_database_results`; a falsy search date becomes `today`, the clock's date. */
    method AddDatabaseResults(name: string, count: int, searchDate: Option<string>, today: string)
      requires Valid()
      modifies this
      ensures Valid()
      ensures var entry := DatabaseEntry(count, if TruthyStr(searchDate) then searchDate.value else today);
        data == WithTotals(old(data).(identification :=
          old(data).identification.(databases := Put(old(data).identification.databases, name, entry))))
      ensures data.identification.totalIdentified == Identified(data)
    {
      var date := if TruthyStr(searchDate) then searchDate.value else today;
      var id := data.identification;
      data := data.(identification := id.(databases := Put(id.databases, name, DatabaseEntry(count, date))));
      RecalculateTotals();
    }

    /** `add_other_source_results`. */
    method AddOtherSourceResults(name: string, count: int)
      requires Valid()
      modifies this
      ensures Valid()
      ensures data == WithTotals(old(data).(identification :=
          old(data).identification.(otherSources := Put(old(data).identification.otherSources, name, count))))
      ensures data.identification.totalIdentified == Identified(data)
    {
      var id := data.identification;
      data := data.(identification := id.(otherSources := Put(id.otherSources, name, count)));
      RecalculateTotals();
    }

    /** `set_duplicates_removed`: no recalculation, so derived counts stay as they were. */
    method SetDuplicatesRemoved(count: int)
      requires Valid()
      modifies this
      ensures Valid()
      ensures data == old(data).(identification := old(data).identification.(duplicatesRemoved := count))
    {
      data := data.(identification := data.identification.(duplicatesRemoved := count));
    }

    /** `add_screening_exclusion`: sets the reason's count, then refreshes the screening stage. */
    method AddScreeningExclusion(reason: string, count: int)
      requires Valid()
      modifies this
      ensures Valid()
      ensures data == WithScreening(old(data).(screening :=
          old(data).screening.(exclusionReasons := Put(old(data).screening.exclusionReasons, reason, count))))
      ensures data.screening.recordsExcluded == ScreeningExcluded(data)
    {
      var sc := data.screening;
      data := data.(screening := sc.(exclusionReasons := Put(sc.exclusionReasons, reason, count)));
      RecalculateScreening();
    }

    /** `add_eligibility_exclusion`: sets the reason's count, then refreshes the eligibility stage. */
    method AddEligibilityExclusion(reason: string, count: int)
      requires Valid()
      modifies this
      ensures Valid()
      ensures data == WithEligibility(old(data).(eligibility :=
          old(data).eligibility.(exclusionReasons := Put(old(data).eligibility.exclusionReasons, reason, count))))
      ensures data.eligibility.reportsExcluded == EligibilityExcluded(data)
    {
      var el := data.eligibility;
      data := data.(eligibility := el.(exclusionReasons := Put(el.exclusionReasons, reason, count)));
      RecalculateEligibility();
    }

    /** `set_reports_not_retrieved`: no recalculation. */
    method SetReportsNotRetrieved(count: int)
      requires Valid()
      modifies this
      ensures Valid()
      ensures data == old(data).(eligibility := old(data).eligibility.(reportsNotRetrieved := count))
    {
      data := data.(eligibility := data.eligibility.(reportsNotRetrieved := count));
    }

    /** `set_final_included(studies, reports)`: a falsy `reports` (None or 0) means `studies`. */
    method SetFinalIncluded(studies: int, reports: Option<int>)
      requires Valid()
      modifies this
      ensures Valid()
      ensures data.included.studiesIncluded == studies
      ensures data.included.reportsIncluded == if Truthy(reports) then reports.value else studies
      ensures data.identification == old(data).identification && data.screening == old(data).screening
      ensures data.eligibility == old(data).eligibility
    {
      data := data.(included := Included(studies, if Truthy(reports) then reports.value else studies));
    }

    method RecalculateTotals()
      requires Valid()
      modifies this
      ensures Valid() && data == WithTotals(old(data))
    {
      var dbTotal := Total(data.identification.databases, EntryCount);
      var otherTotal := Total(data.identification.otherSources, Count);
      data := data.(identification := data.identification.(totalIdentified := dbTotal + otherTotal));
    }

    method RecalculateScreening()
      requires Valid()
      modifies this
      ensures Valid() && data == WithScreening(old(data))
    {
      var screened := data.identification.totalIdentified - data.identification.duplicatesRemoved;
      data := data.(screening := data.screening.(recordsScreened := screened));
      data := data.(screening := data.screening.(recordsExcluded := Total(data.screening.exclusionReasons, Count)));
    }

    method RecalculateEligibility()
      requires Valid()
      modifies this
      ensures Valid() && data == WithEligibility(old(data))
    {
      var el := data.eligibility;
      el := el.(reportsSought := data.screening.recordsScreened - data.screening.recordsExcluded);
      el := el.(reportsExcluded := Total(el.exclusionReasons, Count));
      el := el.(reportsAssessed := el.reportsSought - el.reportsNotRetrieved);
      data := data.(eligibility := el);
    }

    /** The recalculation `generate_mermaid_diagram` runs, and the counts its boxes show. */
    method GenerateMermaidCounts() returns (counts: DiagramCounts)
      requires Valid()
      modifies this
      ensures Valid() && data == Refreshed(old(data))
      ensures counts == CountsOf(data)
    {
      RecalculateTotals();
      RecalculateScreening();
      RecalculateEligibility();
      counts := CountsOf(data);
    }
  }

  const ExampleDate := "2024-10-18"
  const Ieee := "IEEE Xplore"
  const PubMed := "PubMed"
  const ArXiv := "arXiv"
  const Citations := "Citation searching"
  const NotRelevant := "Not relevant to topic"
  const NotEnglish := "Not in English"
  const WrongType := "Wrong publication type"
  const InsufficientData := "Insufficient data"
  const NotPeerReviewed := "Not peer-reviewed"
  const DuplicatePublication := "Duplicate publication"

  /**
   * `create_example_diagram()`, and the counts it holds: each stage was
   * refreshed by its last exclusion, so they are already current.
   */
  method CreateExampleDiagram() returns (diagram: PrismaFlowDiagram, counts: DiagramCounts)
    ensures diagram.Valid() && counts == CountsOf(diagram.data)
    ensures counts == DiagramCounts(825, 180, 645, 395, 250, 8, 242, 52, 30, 33)
  {
    diagram := new PrismaFlowDiagram();
    ExampleIdentification(diagram);
    ExampleScreening(diagram);
    ExampleEligibility(diagram);
    diagram.SetFinalIncluded(30, Some(33));
    counts := CountsOf(diagram.data);
  }

  /** The identification part of the example: three databases, one other source, 180 duplicates. */
  method ExampleIdentification(diagram: PrismaFlowDiagram)
    requires diagram.Valid() && diagram.data == InitialData()
    modifies diagram
    ensures diagram.Valid()
    ensures diagram.data.identification.totalIdentified == 825
    ensures diagram.data.identification.duplicatesRemoved == 180
    ensures diagram.data.screening == InitialData().screening
    ensures diagram.data.eligibility == InitialData().eligibility
    ensures diagram.data.included == InitialData().included
  {
    ExampleDatabases(diagram);
    ghost var d := diagram.data;
    diagram.AddOtherSourceResults(Citations, 25);
    IdentifiedAfterOtherSource(d, Citations, 25);
    diagram.SetDuplicatesRemoved(180);
  }

  method ExampleDatabases(diagram: PrismaFlowDiagram)
    requires diagram.Valid() && diagram.data == InitialData()
    modifies diagram
    ensures diagram.Valid()
    ensures Identified(diagram.data) == 800 && diagram.data.identification.otherSources == Empty()
    ensures diagram.data.identification.duplicatesRemoved == 0
    ensures diagram.data.screening == InitialData().screening
    ensures diagram.data.eligibility == InitialData().eligibility
    ensures diagram.data.included == InitialData().included
  {
    assert |Ieee| == 11 && |PubMed| == 6 && |ArXiv| == 5;
    ghost var d := diagram.data;
    assert Identified(d) == 0;
    diagram.AddDatabaseResults(Ieee, 450, Some(ExampleDate), "");
    IdentifiedAfterDatabase(d, Ieee, DatabaseEntry(450, ExampleDate));
    d := diagram.data;
    assert Identified(d) == 450 && d.identification.databases.keys == [Ieee];
    diagram.AddDatabaseResults(PubMed, 230, Some(ExampleDate), "");
    IdentifiedAfterDatabase(d, PubMed, DatabaseEntry(230, ExampleDate));
    d := diagram.data;
    assert Identified(d) == 680 && d.identification.databases.keys == [Ieee, PubMed];
    diagram.AddDatabaseResults(ArXiv, 120, Some(ExampleDate), "");
    IdentifiedAfterDatabase(d, ArXiv, DatabaseEntry(120, ExampleDate));
    assert Identified(diagram.data) == 800;
  }

  /** The screening part: three reasons totalling 395. */
  method ExampleScreening(diagram: PrismaFlowDiagram)
    requires diagram.Valid()
    requires diagram.data.identification.totalIdentified == 825
    requires diagram.data.identification.duplicatesRemoved == 180
    requires diagram.data.screening == InitialData().screening
    modifies diagram
    ensures diagram.Valid()
    ensures diagram.data.identification == old(diagram.data.identification)
    ensures diagram.data.screening.recordsScreened == 645 && diagram.data.screening.recordsExcluded == 395
    ensures diagram.data.eligibility == old(diagram.data.eligibility)
    ensures diagram.data.included == old(diagram.data.included)
  {
    ghost var d := diagram.data;
    diagram.AddScreeningExclusion(NotRelevant, 320);
    ScreeningAfterExclusion(d, NotRelevant, 320);
    d := diagram.data;
    diagram.AddScreeningExclusion(NotEnglish, 45);
    ScreeningAfterExclusion(d, NotEnglish, 45);
    d := diagram.data;
    diagram.AddScreeningExclusion(WrongType, 30);
    ScreeningAfterExclusion(d, WrongType, 30);
  }

  /** The eligibility part: 8 reports not retrieved, three reasons totalling 52. */
  method ExampleEligibility(diagram: PrismaFlowDiagram)
    requires diagram.Valid()
    requires diagram.data.screening.recordsScreened == 645 && diagram.data.screening.recordsExcluded == 395
    requires diagram.data.eligibility == InitialData().eligibility
    modifies diagram
    ensures diagram.Valid()
    ensures diagram.data.identification == old(diagram.data.identification)
    ensures diagram.data.screening == old(diagram.data.screening)
    ensures diagram.data.eligibility.reportsSought == 250 && diagram.data.eligibility.reportsNotRetrieved == 8
    ensures diagram.data.eligibility.reportsAssessed == 242 && diagram.data.eligibility.reportsExcluded == 52
    ensures diagram.data.included == old(diagram.data.included)
  {
    diagram.SetReportsNotRetrieved(8);
    ghost var d := diagram.data;
    diagram.AddEligibilityExclusion(InsufficientData, 35);
    EligibilityAfterExclusion(d, InsufficientData, 35);
    d := diagram.data;
    diagram.AddEligibilityExclusion(NotPeerReviewed, 12);
    EligibilityAfterExclusion(d, NotPeerReviewed, 12);
    d := diagram.data;
    diagram.AddEligibilityExclusion(DuplicatePublication, 5);
    EligibilityAfterExclusion(d, DuplicatePublication, 5);
  }
}
