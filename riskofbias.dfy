/**
 * Risk-of-bias assessment after the Cochrane RoB 2 tool: the five fixed
 * domains, rating one domain of an assessment in place, and the overall
 * judgement (any High gives High, else any Some concerns gives Some
 * concerns, else Low).
 */
module RiskOfBias {
  import opened Common

  /** One of the RoB 2 domains: its key in the domain table, its name and description. */
  datatype Domain = Domain(id: string, name: string, description: string)

  /** The entry stored per assessed domain: `{'rating': ..., 'rationale': ...}`. */
  datatype DomainRating = DomainRating(rating: string, rationale: string)

  /** Why `assess_domain` refused a rating: `ValueError` for a rating, `KeyError` for a domain. */
  datatype AssessError = InvalidRating(message: string) | UnknownDomain(message: string)

  const Low := "Low"
  const SomeConcerns := "Some concerns"
  const High := "High"

  /** `valid_ratings`. */
  function ValidRatings(): seq<string>
  {
    [Low, SomeConcerns, High]
  }

  const Randomization := "randomization"
  const Deviations := "deviations"
  const MissingData := "missing_data"
  const OutcomeMeasurement := "outcome_measurement"
  const SelectionReporting := "selection_reporting"

  const RandomizationDomain := Domain(Randomization, "Randomization process",
                                      "Bias arising from the randomization process")
  const DeviationsDomain := Domain(Deviations, "Deviations from intended interventions",
                                   "Bias due to deviations from intended interventions")
  const MissingDataDomain := Domain(MissingData, "Missing outcome data", "Bias due to missing outcome data")
  const OutcomeDomain := Domain(OutcomeMeasurement, "Measurement of the outcome",
                                "Bias in measurement of the outcome")
  const SelectionDomain := Domain(SelectionReporting, "Selection of the reported result",
                                  "Bias in selection of the reported result")

  /** `_initialize_domains()`, in table order. */
  function Domains(): seq<Domain>
  {
    [RandomizationDomain, DeviationsDomain, MissingDataDomain, OutcomeDomain, SelectionDomain]
  }

  /** `domain_id in self.domains`. */
  predicate IsDomain(domainId: string)
  {
    exists i :: 0 <= i < |Domains()| && Domains()[i].id == domainId
  }

  /** Exactly five domains, with the five fixed ids in table order. */
  lemma DomainTable()
    ensures |Domains()| == 5
    ensures forall x :: IsDomain(x) <==>
              x in [Randomization, Deviations, MissingData, OutcomeMeasurement, SelectionReporting]
    ensures forall i, j :: 0 <= i < j < |Domains()| ==> Domains()[i].id != Domains()[j].id
  {
    var ds := Domains();
    forall x | x in [Randomization, Deviations, MissingData, OutcomeMeasurement, SelectionReporting]
      ensures IsDomain(x)
    {
      if x == Randomization { assert ds[0].id == x; }
      else if x == Deviations { assert ds[1].id == x; }
      else if x == MissingData { assert ds[2].id == x; }
      else if x == OutcomeMeasurement { assert ds[3].id == x; }
      else { assert ds[4].id == x; }
    }
  }

  const InvalidRatingPrefix := "Invalid rating: "
  const InvalidRatingSuffix := ". Must be one of ['Low', 'Some concerns', 'High']"
  const UnknownDomainPrefix := "Unknown domain: "

  /** `f'Invalid rating: {rating}. Must be one of {self.valid_ratings}'`. */
  function InvalidRatingMessage(rating: string): string
  {
    InvalidRatingPrefix + rating + InvalidRatingSuffix
  }

  function UnknownDomainMessage(domainId: string): string
  {
    UnknownDomainPrefix + domainId
  }

  /** The judgement over a set of domain ratings, ignoring order and repetition. */
  function OverallOf(ratings: set<string>): (r: string)
  {
    if High in ratings then High
    else if SomeConcerns in ratings then SomeConcerns
    else Low
  }

  /** The ratings present in the assessment's domain entries. */
  function RatingsOf(entries: map<string, DomainRating>): set<string>
  {
    set id | id in entries :: entries[id].rating
  }

  /** `calculate_overall_risk`'s value: "Unknown" with no entries, otherwise the RoB 2 judgement. */
  function OverallRisk(entries: map<string, DomainRating>): (r: string)
  {
    if entries == map[] then "Unknown" else OverallOf(RatingsOf(entries))
  }

  /** The RoB 2 precedence, stated over the domains. */
  lemma OverallRiskSpec(entries: map<string, DomainRating>)
    ensures entries == map[] <==> OverallRisk(entries) == "Unknown"
    ensures OverallRisk(entries) == High <==> exists id :: id in entries && entries[id].rating == High
    ensures OverallRisk(entries) == SomeConcerns <==>
              (forall id :: id in entries ==> entries[id].rating != High)
              && exists id :: id in entries && entries[id].rating == SomeConcerns
    ensures OverallRisk(entries) == Low <==>
              entries != map[] && forall id :: id in entries ==> entries[id].rating !in [High, SomeConcerns]
  {
    if entries != map[] {
      var id :| id in entries;
      assert entries[id].rating in RatingsOf(entries);
    }
    forall id | id in entries ensures entries[id].rating in RatingsOf(entries) {
    }
  }

  /** With valid ratings only, the judgement is Low exactly when every domain is Low. */
  lemma OverallLowIffAllLow(entries: map<string, DomainRating>)
    requires entries != map[]
    requires forall id :: id in entries ==> entries[id].rating in ValidRatings()
    ensures OverallRisk(entries) == Low <==> forall id :: id in entries ==> entries[id].rating == Low
  {
    OverallRiskSpec(entries);
  }

  /** The same judgement over the list `[d['rating'] for d in ...values()]`, in dict order. */
  function OverallOfList(ratings: seq<string>): (r: string)
  {
    if High in ratings then High
    else if SomeConcerns in ratings then SomeConcerns
    else Low
  }

  /** Reordering the domain ratings never changes the judgement, which sees only the set of ratings. */
  lemma OverallOrderIndependent(xs: seq<string>, ys: seq<string>)
    requires multiset(xs) == multiset(ys)
    ensures OverallOfList(xs) == OverallOfList(ys)
    ensures OverallOfList(xs) == OverallOf(set x | x in xs)
  {
    assert High in xs <==> High in multiset(xs);
    assert High in ys <==> High in multiset(ys);
    assert SomeConcerns in xs <==> SomeConcerns in multiset(xs);
    assert SomeConcerns in ys <==> SomeConcerns in multiset(ys);
  }

  /** Re-rating one domain as High turns the judgement to High, whatever the other ratings. */
  lemma RerateHigh(entries: map<string, DomainRating>, domainId: string, rationale: string)
    ensures OverallRisk(entries[domainId := DomainRating(High, rationale)]) == High
  {
    var e := entries[domainId := DomainRating(High, rationale)];
    assert e[domainId].rating in RatingsOf(e);
  }

  /** The assessment of one study; `assess_domain` and `calculate_overall_risk` update it in place. */
  class Assessment {
    var paperId: string
    var title: string
    var domainAssessments: map<string, DomainRating>
    var overallRisk: Option<string>
    var assessorId: string
    var notes: string

    /** `create_blank_assessment(paper_id, title)`. */
    constructor (paperId: string, title: string)
      ensures this.paperId == paperId && this.title == title
      ensures domainAssessments == map[] && overallRisk == None
      ensures assessorId == "automated" && notes == ""
    {
      this.paperId := paperId;
      this.title := title;
      domainAssessments := map[];
      overallRisk := None;
      assessorId := "automated";
      notes := "";
    }

    /**
     * `assess_domain(self, domain_id, rating, rationale)`: the rating is
     * checked first, then the domain; on success only this domain's entry
     * is (over)written.
     */
    method AssessDomain(domainId: string, rating: string, rationale: string) returns (err: Option<AssessError>)
      modifies this
      ensures rating !in ValidRatings() ==> err == Some(InvalidRating(InvalidRatingMessage(rating)))
      ensures rating in ValidRatings() && !IsDomain(domainId) ==> err == Some(UnknownDomain(UnknownDomainMessage(domainId)))
      ensures err.Some? ==> domainAssessments == old(domainAssessments)
      ensures err.None? <==> rating in ValidRatings() && IsDomain(domainId)
      ensures err.None? ==> domainAssessments == old(domainAssessments)[domainId := DomainRating(rating, rationale)]
      ensures paperId == old(paperId) && title == old(title) && overallRisk == old(overallRisk)
      ensures assessorId == old(assessorId) && notes == old(notes)
    {
      if rating !in ValidRatings() {
        return Some(InvalidRating(InvalidRatingMessage(rating)));
      }
      if !IsDomain(domainId) {
        return Some(UnknownDomain(UnknownDomainMessage(domainId)));
      }
      domainAssessments := domainAssessments[domainId := DomainRating(rating, rationale)];
      return None;
    }

    /** `calculate_overall_risk(self)`: stores the judgement unless there is nothing to judge. */
    method CalculateOverallRisk() returns (overall: string)
      modifies this
      ensures overall == OverallRisk(domainAssessments)
      ensures domainAssessments == old(domainAssessments)
      ensures old(domainAssessments) == map[] ==> overallRisk == old(overallRisk)
      ensures old(domainAssessments) != map[] ==> overallRisk == Some(overall)
      ensures paperId == old(paperId) && title == old(title)
      ensures assessorId == old(assessorId) && notes == old(notes)
    {
      if domainAssessments == map[] {
        return "Unknown";
      }
      overall := OverallOf(RatingsOf(domainAssessments));
      overallRisk := Some(overall);
    }
  }
}
