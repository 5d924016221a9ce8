/**
 * Independent screening by several reviewers: an append-only decision log,
 * Cohen's kappa between two reviewers, conflict and consensus detection,
 * majority vote and per-reviewer statistics.
 */
module Reviewers {
  import opened Common

  /** One reviewer's verdict on one paper (`decision` is "Include", "Exclude" or "Uncertain" by convention; the reason defaults to ""). */
  datatype ScreeningDecision = ScreeningDecision(paperId: string, reviewerId: string, decision: string, reason: string)

  /** The `{'id', 'name'}` entry stored per reviewer. */
  datatype Reviewer = Reviewer(id: string, name: string)

  /** A paper whose decisions disagree: the paper, all its decisions and how many there are. */
  datatype Conflict = Conflict(paperId: string, decisions: seq<ScreeningDecision>, reviewers: nat)

  /** Per-reviewer counts. */
  datatype ReviewerStats = ReviewerStats(totalScreened: nat, included: nat, excluded: nat, uncertain: nat)

  // ---------------------------------------------------------------------
  // Queries over the log

  /** `[d for d in log if d.paper_id == paperId]`. */
  function DecisionsFor(log: seq<ScreeningDecision>, paperId: string): (r: seq<ScreeningDecision>)
    decreases |log|
  {
    if log == [] then []
    else
      var last := log[|log| - 1];
      DecisionsFor(log[..|log| - 1], paperId) + (if last.paperId == paperId then [last] else [])
  }

  /** Exactly the logged decisions about the paper, in log order, duplicates kept. */
  lemma {:induction false} DecisionsForSpec(log: seq<ScreeningDecision>, paperId: string)
    ensures forall d :: d in DecisionsFor(log, paperId) <==> d in log && d.paperId == paperId
    ensures IsSubsequence(DecisionsFor(log, paperId), log)
    ensures |DecisionsFor(log, paperId)| <= |log|
    decreases |log|
  {
    if log != [] {
      var init := log[..|log| - 1];
      var last := log[|log| - 1];
      DecisionsForSpec(init, paperId);
      assert log == init + [last];
      SubsequenceSnoc(DecisionsFor(init, paperId), init, last);
      if last.paperId != paperId {
        assert DecisionsFor(log, paperId) == DecisionsFor(init, paperId) + [];
        assert DecisionsFor(init, paperId) + [] == DecisionsFor(init, paperId);
        assert IsSubsequence(DecisionsFor(init, paperId), init + [last]);
      }
    }
  }

  /** Recording a decision adds it to the paper's list only, at the end. */
  lemma DecisionsForAppend(log: seq<ScreeningDecision>, d: ScreeningDecision, paperId: string)
    ensures DecisionsFor(log + [d], paperId)
            == DecisionsFor(log, paperId) + (if d.paperId == paperId then [d] else [])
  {
    assert (log + [d])[..|log + [d]| - 1] == log;
  }

  /** How many decisions in `ds` carry the value `v`. */
  function Votes(ds: seq<ScreeningDecision>, v: string): (n: nat)
    ensures n <= |ds|
    decreases |ds|
  {
    if ds == [] then 0
    else Votes(ds[..|ds| - 1], v) + (if ds[|ds| - 1].decision == v then 1 else 0)
  }

  lemma VotesSnoc(ds: seq<ScreeningDecision>, d: ScreeningDecision, v: string)
    ensures Votes(ds + [d], v) == Votes(ds, v) + (if d.decision == v then 1 else 0)
  {
    assert (ds + [d])[..|ds|] == ds;
  }

  lemma {:induction false} VotesPositive(ds: seq<ScreeningDecision>, i: int)
    requires 0 <= i < |ds|
    ensures Votes(ds, ds[i].decision) > 0
    decreases |ds|
  {
    if i < |ds| - 1 {
      VotesPositive(ds[..|ds| - 1], i);
    }
  }

  /** Votes for three different values never exceed the number of decisions. */
  lemma {:induction false} VotesOfThree(ds: seq<ScreeningDecision>, u: string, v: string, w: string)
    requires u != v && v != w && u != w
    ensures Votes(ds, u) + Votes(ds, v) + Votes(ds, w) <= |ds|
    decreases |ds|
  {
    if ds != [] {
      VotesOfThree(ds[..|ds| - 1], u, v, w);
    }
  }

  /** The distinct decision strings of a list (`{d.decision for d in ds}`). */
  function DecisionValues(ds: seq<ScreeningDecision>): set<string>
  {
    set d | d in ds :: d.decision
  }

  /** The distinct paper ids of the log (`{d.paper_id for d in log}`). */
  function PaperIds(log: seq<ScreeningDecision>): set<string>
  {
    set d | d in log :: d.paperId
  }

  /** At least two decisions, and more than one distinct decision string. */
  predicate IsConflict(log: seq<ScreeningDecision>, paperId: string)
  {
    |DecisionsFor(log, paperId)| >= 2 && |DecisionValues(DecisionsFor(log, paperId))| > 1
  }

  /** An entry of `get_conflicts`: a conflicting paper with all its decisions and their number. */
  predicate ConflictEntry(log: seq<ScreeningDecision>, c: Conflict)
  {
    IsConflict(log, c.paperId) && c.decisions == DecisionsFor(log, c.paperId) && c.reviewers == |c.decisions|
  }

  /** At least two decisions, all with the same decision string. */
  predicate IsConsensus(log: seq<ScreeningDecision>, paperId: string)
  {
    |DecisionsFor(log, paperId)| >= 2 && |DecisionValues(DecisionsFor(log, paperId))| == 1
  }

  /** A paper with two or more decisions is a conflict or a consensus, never both; other papers are neither. */
  lemma ConflictConsensusPartition(log: seq<ScreeningDecision>, paperId: string)
    ensures |DecisionsFor(log, paperId)| >= 2 ==> (IsConflict(log, paperId) <==> !IsConsensus(log, paperId))
    ensures |DecisionsFor(log, paperId)| < 2 ==> !IsConflict(log, paperId) && !IsConsensus(log, paperId)
  {
    var ds := DecisionsFor(log, paperId);
    if |ds| >= 2 {
      assert ds[0].decision in DecisionValues(ds);
    }
  }

  /** `get_reviewer_statistics`: counts over this reviewer's own decisions. */
  function ReviewerStatistics(log: seq<ScreeningDecision>, reviewerId: string): (s: ReviewerStats)
    ensures s.totalScreened == |ByReviewer(log, reviewerId)|
    ensures s.included + s.excluded + s.uncertain <= s.totalScreened
  {
    var mine := ByReviewer(log, reviewerId);
    VotesOfThree(mine, "Include", "Exclude", "Uncertain");
    ReviewerStats(|mine|, Votes(mine, "Include"), Votes(mine, "Exclude"), Votes(mine, "Uncertain"))
  }

  /** `[d for d in log if d.reviewer_id == reviewerId]`. */
  function ByReviewer(log: seq<ScreeningDecision>, reviewerId: string): (r: seq<ScreeningDecision>)
    ensures forall d :: d in r ==> d in log && d.reviewerId == reviewerId
    decreases |log|
  {
    if log == [] then []
    else
      var last := log[|log| - 1];
      ByReviewer(log[..|log| - 1], reviewerId) + (if last.reviewerId == reviewerId then [last] else [])
  }

  /** The positions in the log of this reviewer's decisions. */
  function PositionsBy(log: seq<ScreeningDecision>, reviewerId: string, n: nat): set<nat>
    requires n <= |log|
  {
    set i: nat | i < n && log[i].reviewerId == reviewerId
  }

  lemma PositionsStep(log: seq<ScreeningDecision>, reviewerId: string, n: nat)
    requires n < |log|
    ensures |PositionsBy(log, reviewerId, n + 1)|
            == |PositionsBy(log, reviewerId, n)| + (if log[n].reviewerId == reviewerId then 1 else 0)
  {
    var before := PositionsBy(log, reviewerId, n);
    if log[n].reviewerId == reviewerId {
      assert PositionsBy(log, reviewerId, n + 1) == before + {n};
      assert n !in before;
      DisjointUnionCard(before, {n});
    } else {
      assert PositionsBy(log, reviewerId, n + 1) == before;
    }
  }

  lemma PositionsOfPrefix(log: seq<ScreeningDecision>, reviewerId: string, n: nat)
    requires n <= |log|
    ensures PositionsBy(log[..n], reviewerId, n) == PositionsBy(log, reviewerId, n)
  {
  }

  /** This reviewer's list has one entry per position of the log holding one of their decisions. */
  lemma {:induction false} ByReviewerCount(log: seq<ScreeningDecision>, reviewerId: string)
    ensures |ByReviewer(log, reviewerId)| == |PositionsBy(log, reviewerId, |log|)|
    decreases |log|
  {
    if log != [] {
      var n := |log| - 1;
      ByReviewerCount(log[..n], reviewerId);
      PositionsOfPrefix(log, reviewerId, n);
      PositionsStep(log, reviewerId, n);
    }
  }

  // ---------------------------------------------------------------------
  // Cohen's kappa

  /** `{d.paper_id: d.decision for d in log if d.reviewer_id == reviewerId}`: the last logged decision wins. */
  function LastDecisions(log: seq<ScreeningDecision>, reviewerId: string): (m: map<string, string>)
    decreases |log|
  {
    if log == [] then map[]
    else
      var last := log[|log| - 1];
      var m := LastDecisions(log[..|log| - 1], reviewerId);
      if last.reviewerId == reviewerId then m[last.paperId := last.decision] else m
  }

  /** Whether the entry is this reviewer's decision on the paper. */
  predicate Decides(d: ScreeningDecision, reviewerId: string, p: string)
  {
    d.reviewerId == reviewerId && d.paperId == p
  }

  /** The position of this reviewer's last decision on the paper, if any. */
  function LastIndex(log: seq<ScreeningDecision>, reviewerId: string, p: string): (r: Option<nat>)
    ensures r.Some? ==> r.value < |log| && Decides(log[r.value], reviewerId, p)
                        && forall j :: r.value < j < |log| ==> !Decides(log[j], reviewerId, p)
    ensures r.None? ==> forall j :: 0 <= j < |log| ==> !Decides(log[j], reviewerId, p)
    decreases |log|
  {
    if log == [] then None
    else if Decides(log[|log| - 1], reviewerId, p) then Some(|log| - 1)
    else
      var r := LastIndex(log[..|log| - 1], reviewerId, p);
      assert forall j :: 0 <= j < |log| - 1 ==> log[..|log| - 1][j] == log[j];
      r
  }

  /** This reviewer's map holds exactly the papers they decided, each with their latest decision. */
  lemma {:induction false} LastDecisionsLatest(log: seq<ScreeningDecision>, reviewerId: string)
    ensures forall p :: p in LastDecisions(log, reviewerId) <==> LastIndex(log, reviewerId, p).Some?
    ensures forall p :: p in LastDecisions(log, reviewerId) ==>
              LastDecisions(log, reviewerId)[p] == log[LastIndex(log, reviewerId, p).value].decision
    decreases |log|
  {
    if log != [] {
      var n := |log| - 1;
      var init := log[..n];
      LastDecisionsLatest(init, reviewerId);
      forall p | !Decides(log[n], reviewerId, p)
        ensures LastIndex(log, reviewerId, p) == LastIndex(init, reviewerId, p)
      {
      }
      forall p | p in LastDecisions(init, reviewerId) && !Decides(log[n], reviewerId, p)
        ensures log[LastIndex(log, reviewerId, p).value] == init[LastIndex(init, reviewerId, p).value]
      {
      }
    }
  }

  /**
   * Kappa from the four counts over the common papers, exactly as the
   * source computes it: observed agreement, the two literal-"Include"
   * rates, the expected agreement of the binary simplification, and the
   * special case of an expected agreement of 1.
   */
  function KappaOfCounts(total: nat, agreements: nat, include1: nat, include2: nat): real
    requires total > 0
  {
    KappaOfRates(Rate(agreements, total), ExpectedAgreement(Rate(include1, total), Rate(include2, total)))
  }

  /** Kappa from the observed agreement `po` and the expected agreement `pe`. */
  function KappaOfRates(po: real, pe: real): real
  {
    if pe == 1.0 then 1.0 else (po - pe) / (1.0 - pe)
  }

  /** `count / total` as a real number. */
  function Rate(count: nat, total: nat): real
    requires total > 0
  {
    count as real / total as real
  }

  /** Expected agreement of two raters with Include-rates `a` and `b` under the binary simplification. */
  function ExpectedAgreement(a: real, b: real): real
  {
    a * b + (1.0 - a) * (1.0 - b)
  }

  function CommonPapers(log: seq<ScreeningDecision>, r1: string, r2: string): set<string>
  {
    LastDecisions(log, r1).Keys * LastDecisions(log, r2).Keys
  }

  /** `calculate_cohen_kappa(r1, r2)`. */
  function Kappa(log: seq<ScreeningDecision>, r1: string, r2: string): real
  {
    KappaOfMaps(LastDecisions(log, r1), LastDecisions(log, r2))
  }

  /** Kappa of two reviewers' latest decisions, over the papers both decided. */
  function KappaOfMaps(m1: map<string, string>, m2: map<string, string>): real
  {
    var common := m1.Keys * m2.Keys;
    if common == {} then 0.0
    else KappaOfCounts(|common|, |Agreeing(m1, m2)|, |Including1(m1, m2)|, |Including2(m1, m2)|)
  }

  /** The common papers on which both reviewers made the same decision. */
  function Agreeing(m1: map<string, string>, m2: map<string, string>): set<string>
  {
    set p | p in m1.Keys * m2.Keys && m1[p] == m2[p]
  }

  /** The common papers the first reviewer marked "Include". */
  function Including1(m1: map<string, string>, m2: map<string, string>): set<string>
  {
    set p | p in m1.Keys * m2.Keys && m1[p] == "Include"
  }

  /** The common papers the second reviewer marked "Include". */
  function Including2(m1: map<string, string>, m2: map<string, string>): set<string>
  {
    set p | p in m1.Keys * m2.Keys && m2[p] == "Include"
  }

  /** The integer form of the expected agreement, scaled by `n * n`. */
  function ExpectedScaled(n: int, i1: int, i2: int): int
  {
    i1 * i2 + (n - i1) * (n - i2)
  }

  lemma MulNonneg(x: int, y: int)
    requires x >= 0 && y >= 0
    ensures x * y >= 0
  {
  }

  lemma ExpectedScaledBound(n: int, i1: int, i2: int)
    requires 0 <= i1 <= n && 0 <= i2 <= n
    ensures ExpectedScaled(n, i1, i2) <= n * n
    ensures ExpectedScaled(n, i1, i2) == n * n <==> (i1 == 0 && i2 == 0) || (i1 == n && i2 == n)
  {
    assert n * n - ExpectedScaled(n, i1, i2) == i1 * (n - i2) + i2 * (n - i1);
    MulNonneg(i1, n - i2);
    MulNonneg(i2, n - i1);
    if i1 * (n - i2) == 0 && i2 * (n - i1) == 0 {
      if i1 != 0 {
        assert n - i2 == 0;
        assert i2 != 0;
      }
    }
  }

  lemma RateTimesTotal(count: nat, total: nat)
    requires total > 0
    ensures Rate(count, total) * (total as real) == count as real
  {
  }

  /** The expected agreement times `n^2` is the integer `ExpectedScaled`. */
  lemma ExpectedTimesSquare(a: real, b: real, n: real, i1: real, i2: real)
    requires a * n == i1 && b * n == i2
    ensures ExpectedAgreement(a, b) * (n * n) == i1 * i2 + (n - i1) * (n - i2)
  {
    assert a * b * (n * n) == (a * n) * (b * n);
    assert (1.0 - a) * (1.0 - b) * (n * n) == (n - a * n) * (n - b * n);
  }

  lemma MulAsReal(x: int, y: int)
    ensures (x * y) as real == (x as real) * (y as real)
  {
  }

  lemma ExpectedScaledReal(total: nat, include1: nat, include2: nat)
    requires total > 0
    ensures ExpectedAgreement(Rate(include1, total), Rate(include2, total)) * ((total as real) * (total as real))
            == ExpectedScaled(total, include1, include2) as real
  {
    var N := total as real;
    RateTimesTotal(include1, total);
    RateTimesTotal(include2, total);
    ExpectedTimesSquare(Rate(include1, total), Rate(include2, total), N, include1 as real, include2 as real);
    MulAsReal(include1, include2);
    MulAsReal(total - include1, total - include2);
  }

  lemma DivScale(u: real, v: real, c: real)
    requires v != 0.0 && c != 0.0
    ensures u / v == (u * c) / (v * c)
  {
  }

  lemma ScaledForm(po: real, pe: real, c: real, A: real, P: real)
    requires c > 0.0 && po * c == A && pe * c == P && pe != 1.0
    ensures (po - pe) / (1.0 - pe) == (A - P) / (c - P)
  {
    DivScale(po - pe, 1.0 - pe, c);
    assert (po - pe) * c == A - P;
    assert (1.0 - pe) * c == c - P;
  }

  lemma ScaledPo(po: real, n: real, a: real)
    requires po * n == a
    ensures po * (n * n) == n * a
  {
    assert po * (n * n) == (po * n) * n;
  }

  lemma Cancel(x: real, c: real)
    requires c > 0.0 && x * c == c
    ensures x == 1.0
  {
    assert (x - 1.0) * c == 0.0;
  }

  lemma SquarePositive(n: real)
    requires n > 0.0
    ensures n * n > 0.0
  {
  }

  lemma PeOne(pe: real, c: real, p: real)
    requires c > 0.0 && pe * c == p && p == c
    ensures pe == 1.0
  {
    Cancel(pe, c);
  }

  /** The expected agreement is 1 exactly when its scaled integer form is `n^2`; kappa is then 1. */
  lemma KappaWhenExpectedIsOne(total: nat, agreements: nat, include1: nat, include2: nat)
    requires total > 0 && ExpectedScaled(total, include1, include2) == total * total
    ensures KappaOfCounts(total, agreements, include1, include2) == 1.0
  {
    var N := total as real;
    var P := ExpectedScaled(total, include1, include2);
    var pe := ExpectedAgreement(Rate(include1, total), Rate(include2, total));
    ExpectedScaledReal(total, include1, include2);
    MulAsReal(total, total);
    SquarePositive(N);
    PeOne(pe, N * N, P as real);
  }

  /** Otherwise kappa is `(n * agreements - P) / (n^2 - P)` with `P` the scaled expected agreement. */
  lemma KappaScaled(total: nat, agreements: nat, include1: nat, include2: nat)
    requires total > 0 && ExpectedScaled(total, include1, include2) != total * total
    ensures var P := ExpectedScaled(total, include1, include2);
      KappaOfCounts(total, agreements, include1, include2)
      == ((total * agreements) as real - P as real) / ((total * total) as real - P as real)
  {
    var P := ExpectedScaled(total, include1, include2);
    PoScaled(total, agreements);
    PeScaled(total, include1, include2);
    KappaOfRatesScaled(Rate(agreements, total), ExpectedAgreement(Rate(include1, total), Rate(include2, total)),
                       (total * total) as real, (total * agreements) as real, P as real);
  }

  lemma PoScaled(total: nat, agreements: nat)
    requires total > 0
    ensures Rate(agreements, total) * (total * total) as real == (total * agreements) as real
  {
    var N := total as real;
    RateTimesTotal(agreements, total);
    MulAsReal(total, agreements);
    MulAsReal(total, total);
    ScaledPo(Rate(agreements, total), N, agreements as real);
  }

  lemma PeScaled(total: nat, include1: nat, include2: nat)
    requires total > 0
    ensures ExpectedAgreement(Rate(include1, total), Rate(include2, total)) * (total * total) as real
            == ExpectedScaled(total, include1, include2) as real
    ensures (total * total) as real > 0.0
  {
    ExpectedScaledReal(total, include1, include2);
    MulAsReal(total, total);
    SquarePositive(total as real);
  }

  lemma KappaOfRatesScaled(po: real, pe: real, c: real, A: real, P: real)
    requires c > 0.0 && po * c == A && pe * c == P && P != c
    ensures KappaOfRates(po, pe) == (A - P) / (c - P)
  {
    PeNotOne(pe, c, P);
    ScaledForm(po, pe, c, A, P);
  }

  lemma PeNotOne(pe: real, c: real, p: real)
    requires c > 0.0 && pe * c == p && p != c
    ensures pe != 1.0
  {
  }

  lemma DivAtMostOne(u: real, v: real)
    requires v > 0.0 && u <= v
    ensures u / v <= 1.0
  {
  }

  lemma DivAtLeastMinusOne(u: real, v: real)
    requires v > 0.0 && -v <= u
    ensures -1.0 <= u / v
  {
  }

  lemma MulMonotone(a: int, b: int, c: int)
    requires a >= 0 && b <= c
    ensures a * b <= a * c
  {
    MulNonneg(a, c - b);
    assert a * (c - b) == a * c - a * b;
  }

  /** The expected agreement is 1 exactly when both Include-rates are 0 or both are 1. */
  lemma ExpectedIsOneIff(total: nat, include1: nat, include2: nat)
    requires 0 < total && include1 <= total && include2 <= total
    ensures ExpectedAgreement(Rate(include1, total), Rate(include2, total)) == 1.0
            <==> (include1 == 0 && include2 == 0) || (include1 == total && include2 == total)
  {
    var N := total as real;
    var P := ExpectedScaled(total, include1, include2);
    var pe := ExpectedAgreement(Rate(include1, total), Rate(include2, total));
    ExpectedScaledReal(total, include1, include2);
    ExpectedScaledBound(total, include1, include2);
    MulAsReal(total, total);
    SquarePositive(N);
    if P == total * total {
      PeOne(pe, N * N, P as real);
    } else {
      PeNotOne(pe, N * N, P as real);
    }
  }

  /** Kappa never exceeds 1, and it is exactly 1 when both Include-rates are 0 or both are 1. */
  lemma KappaOfCountsAtMostOne(total: nat, agreements: nat, include1: nat, include2: nat)
    requires 0 < total && agreements <= total && include1 <= total && include2 <= total
    ensures KappaOfCounts(total, agreements, include1, include2) <= 1.0
    ensures (include1 == 0 && include2 == 0) || (include1 == total && include2 == total)
            ==> KappaOfCounts(total, agreements, include1, include2) == 1.0
  {
    ExpectedScaledBound(total, include1, include2);
    var P := ExpectedScaled(total, include1, include2);
    if P == total * total {
      KappaWhenExpectedIsOne(total, agreements, include1, include2);
    } else {
      KappaScaled(total, agreements, include1, include2);
      MulMonotone(total, agreements, total);
      DivAtMostOne((total * agreements) as real - P as real, (total * total) as real - P as real);
    }
  }

  /**
   * When every decision is "Include" or "Exclude", the common papers split
   * into `x` (Include/Include), `y` (Include/Exclude), `z` (Exclude/Include)
   * and `w` (Exclude/Exclude), and kappa is at least -1.
   */
  lemma KappaOfCountsBinaryLowerBound(x: nat, y: nat, z: nat, w: nat)
    requires x + y + z + w > 0
    ensures -1.0 <= KappaOfCounts(x + y + z + w, x + w, x + y, x + z)
  {
    var n := x + y + z + w;
    ExpectedScaledBound(n, x + y, x + z);
    var P := ExpectedScaled(n, x + y, x + z);
    if P == n * n {
      KappaWhenExpectedIsOne(n, x + w, x + y, x + z);
    } else {
      KappaScaled(n, x + w, x + y, x + z);
      BinaryNumeratorBound(x, y, z, w);
      DivAtLeastMinusOne((n * (x + w)) as real - P as real, (n * n) as real - P as real);
    }
  }

  /** In the binary case the scaled numerator is at least minus the scaled denominator. */
  lemma BinaryNumeratorBound(x: nat, y: nat, z: nat, w: nat)
    ensures var n := x + y + z + w;
      -(n * n - ExpectedScaled(n, x + y, x + z)) <= n * (x + w) - ExpectedScaled(n, x + y, x + z)
  {
    BinaryIdentity(x, y, z, w);
    MulNonneg(x, y + z);
    MulNonneg(x, w);
    MulNonneg(w, y + z);
    assert (y - z) * (y - z) >= 0;
  }

  lemma BinaryIdentity(x: int, y: int, z: int, w: int)
    ensures var n := x + y + z + w;
      n * (x + w) + n * n - 2 * ExpectedScaled(n, x + y, x + z)
      == x * (y + z) + 4 * x * w + (y - z) * (y - z) + w * (y + z)
  {
  }

  lemma DisjointUnionCard<U>(a: set<U>, b: set<U>)
    requires a * b == {}
    ensures |a + b| == |a| + |b|
  {
  }

  /** Kappa is 0 without common papers and never exceeds 1. */
  lemma KappaAtMostOne(log: seq<ScreeningDecision>, r1: string, r2: string)
    ensures CommonPapers(log, r1, r2) == {} ==> Kappa(log, r1, r2) == 0.0
    ensures Kappa(log, r1, r2) <= 1.0
  {
    var m1 := LastDecisions(log, r1);
    var m2 := LastDecisions(log, r2);
    var common := m1.Keys * m2.Keys;
    if common != {} {
      SubsetCard(Agreeing(m1, m2), common);
      SubsetCard(Including1(m1, m2), common);
      SubsetCard(Including2(m1, m2), common);
      KappaOfCountsAtMostOne(|common|, |Agreeing(m1, m2)|, |Including1(m1, m2)|, |Including2(m1, m2)|);
    }
  }

  lemma SubsetCard<U>(a: set<U>, b: set<U>)
    requires a <= b
    ensures |a| <= |b|
  {
    assert b == a + (b - a);
    DisjointUnionCard(a, b - a);
  }

  /** Every decision on a common paper is "Include" or "Exclude". */
  predicate BinaryOnCommon(log: seq<ScreeningDecision>, r1: string, r2: string)
  {
    IsBinary(LastDecisions(log, r1), LastDecisions(log, r2))
  }

  /** Both reviewers decided every common paper with "Include" or "Exclude". */
  predicate IsBinary(m1: map<string, string>, m2: map<string, string>)
  {
    forall p :: p in m1.Keys * m2.Keys ==>
      (m1[p] == "Include" || m1[p] == "Exclude") && (m2[p] == "Include" || m2[p] == "Exclude")
  }

  /** The common papers the two reviewers decided `a` and `b` respectively. */
  function Cell(m1: map<string, string>, m2: map<string, string>, a: string, b: string): set<string>
  {
    set p | p in m1.Keys * m2.Keys && m1[p] == a && m2[p] == b
  }

  lemma CellsCommon(m1: map<string, string>, m2: map<string, string>)
    requires IsBinary(m1, m2)
    ensures |m1.Keys * m2.Keys| == |Cell(m1, m2, "Include", "Include")| + |Cell(m1, m2, "Include", "Exclude")|
                                  + |Cell(m1, m2, "Exclude", "Include")| + |Cell(m1, m2, "Exclude", "Exclude")|
  {
    var X, Y := Cell(m1, m2, "Include", "Include"), Cell(m1, m2, "Include", "Exclude");
    var Z, W := Cell(m1, m2, "Exclude", "Include"), Cell(m1, m2, "Exclude", "Exclude");
    assert "Include" != "Exclude";
    forall p | p in m1.Keys * m2.Keys ensures p in (X + Y) + (Z + W) {
      if m1[p] == "Include" {
        if m2[p] == "Include" { assert p in X; } else { assert p in Y; }
      } else {
        if m2[p] == "Include" { assert p in Z; } else { assert p in W; }
      }
    }
    assert m1.Keys * m2.Keys == (X + Y) + (Z + W);
    DisjointUnionCard(X, Y);
    DisjointUnionCard(Z, W);
    DisjointUnionCard(X + Y, Z + W);
  }

  lemma CellsAgreeing(m1: map<string, string>, m2: map<string, string>)
    requires IsBinary(m1, m2)
    ensures |Agreeing(m1, m2)| == |Cell(m1, m2, "Include", "Include")| + |Cell(m1, m2, "Exclude", "Exclude")|
  {
    var X, W := Cell(m1, m2, "Include", "Include"), Cell(m1, m2, "Exclude", "Exclude");
    assert "Include" != "Exclude";
    assert Agreeing(m1, m2) == X + W;
    DisjointUnionCard(X, W);
  }

  lemma CellsIncluding(m1: map<string, string>, m2: map<string, string>)
    requires IsBinary(m1, m2)
    ensures |Including1(m1, m2)| == |Cell(m1, m2, "Include", "Include")| + |Cell(m1, m2, "Include", "Exclude")|
    ensures |Including2(m1, m2)| == |Cell(m1, m2, "Include", "Include")| + |Cell(m1, m2, "Exclude", "Include")|
  {
    var X, Y := Cell(m1, m2, "Include", "Include"), Cell(m1, m2, "Include", "Exclude");
    var Z := Cell(m1, m2, "Exclude", "Include");
    assert "Include" != "Exclude";
    assert Including1(m1, m2) == X + Y;
    DisjointUnionCard(X, Y);
    assert Including2(m1, m2) == X + Z;
    DisjointUnionCard(X, Z);
  }

  /** With only "Include" and "Exclude" on the common papers, kappa lies between -1 and 1. */
  lemma KappaBinaryRange(log: seq<ScreeningDecision>, r1: string, r2: string)
    requires BinaryOnCommon(log, r1, r2)
    ensures -1.0 <= Kappa(log, r1, r2) <= 1.0
  {
    KappaAtMostOne(log, r1, r2);
    var m1 := LastDecisions(log, r1);
    var m2 := LastDecisions(log, r2);
    if m1.Keys * m2.Keys != {} {
      CellsCommon(m1, m2);
      CellsAgreeing(m1, m2);
      CellsIncluding(m1, m2);
      KappaOfCountsBinaryLowerBound(|Cell(m1, m2, "Include", "Include")|, |Cell(m1, m2, "Include", "Exclude")|,
                                    |Cell(m1, m2, "Exclude", "Include")|, |Cell(m1, m2, "Exclude", "Exclude")|);
    }
  }

  predicate IsUniqueMajority(ds: seq<ScreeningDecision>, v: string)
  {
    Votes(ds, v) > 0 && forall d :: d in ds && d.decision != v ==> Votes(ds, d.decision) < Votes(ds, v)
  }

  /** Two different decision strings share the highest vote count. */
  predicate IsTie(ds: seq<ScreeningDecision>)
  {
    exists d1, d2 :: d1 in ds && d2 in ds && d1.decision != d2.decision
      && Votes(ds, d1.decision) == Votes(ds, d2.decision)
      && forall d :: d in ds ==> Votes(ds, d.decision) <= Votes(ds, d1.decision)
  }

  class ReviewerManager {
    var reviewers: map<string, Reviewer>
    var decisions: seq<ScreeningDecision>

    constructor ()
      ensures reviewers == map[] && decisions == []
    {
      reviewers := map[];
      decisions := [];
    }

    /** `add_reviewer`: stores the entry under the id, overwriting an earlier one. */
    method AddReviewer(reviewerId: string, name: string)
      modifies this
      ensures reviewers == old(reviewers)[reviewerId := Reviewer(reviewerId, name)]
      ensures decisions == old(decisions)
    {
      reviewers := reviewers[reviewerId := Reviewer(reviewerId, name)];
    }

    /** `record_decision`: appends exactly one decision. */
    method RecordDecision(d: ScreeningDecision)
      modifies this
      ensures decisions == old(decisions) + [d]
      ensures reviewers == old(reviewers)
    {
      decisions := decisions + [d];
    }

    /** `resolve_by_majority`: counts votes in an insertion-ordered dictionary, then picks the single maximum. */
    method ResolveByMajority(paperId: string) returns (r: Option<string>)
      ensures var ds := DecisionsFor(decisions, paperId);
        (ds == [] ==> r == None)
        && (r.Some? ==> IsUniqueMajority(ds, r.value))
        && (r.None? && ds != [] ==> IsTie(ds))
    {
      var ds := DecisionsFor(decisions, paperId);
      if ds == [] {
        return None;
      }
      var keys, counts := CountVotes(ds);
      TallyKeys(ds, keys, counts);
      var maxVotes := MaxCount(keys, counts);
      var majority := ValuesWithCount(keys, counts, maxVotes);
      MajorityOutcome(ds, keys, counts, maxVotes, majority);
      if |majority| == 1 {
        return Some(majority[0]);
      } else {
        return None;
      }
    }

    /** `get_conflicts`: one entry per conflicting paper (the log's paper set is visited in an unspecified order). */
    method GetConflicts() returns (conflicts: seq<Conflict>)
      ensures forall c :: c in conflicts ==>
        IsConflict(decisions, c.paperId) && c.decisions == DecisionsFor(decisions, c.paperId)
        && c.reviewers == |c.decisions|
      ensures forall p :: IsConflict(decisions, p) ==> exists c :: c in conflicts && c.paperId == p
      ensures forall a, b :: 0 <= a < b < |conflicts| ==> conflicts[a].paperId != conflicts[b].paperId
    {
      conflicts := [];
      var papers := PaperIds(decisions);
      var remaining := papers;
      while remaining != {}
        invariant remaining <= papers
        invariant forall c :: c in conflicts ==> ConflictEntry(decisions, c) && c.paperId !in remaining
        invariant forall p :: p in papers && p !in remaining && IsConflict(decisions, p) ==>
          exists c :: c in conflicts && c.paperId == p
        invariant forall a, b :: 0 <= a < b < |conflicts| ==> conflicts[a].paperId != conflicts[b].paperId
        decreases |remaining|
      {
        var p :| p in remaining;
        var ds := DecisionsFor(decisions, p);
        if |ds| >= 2 && |DecisionValues(ds)| > 1 {
          var c := Conflict(p, ds, |ds|);
          assert ConflictEntry(decisions, c);
          assert forall a :: 0 <= a < |conflicts| ==> conflicts[a].paperId != p by {
            forall a | 0 <= a < |conflicts| ensures conflicts[a].paperId != p {
              assert conflicts[a] in conflicts;
            }
          }
          conflicts := conflicts + [c];
        }
        remaining := remaining - {p};
      }
      forall p | IsConflict(decisions, p) ensures p in papers {
        var ds := DecisionsFor(decisions, p);
        DecisionsForSpec(decisions, p);
        assert ds[0] in decisions;
      }
    }

    /** `get_consensus_papers`: every paper with two or more decisions that all agree. */
    method GetConsensusPapers() returns (consensus: seq<string>)
      ensures forall p :: p in consensus <==> IsConsensus(decisions, p)
      ensures forall a, b :: 0 <= a < b < |consensus| ==> consensus[a] != consensus[b]
    {
      consensus := [];
      var papers := PaperIds(decisions);
      var remaining := papers;
      while remaining != {}
        invariant remaining <= papers
        invariant forall p :: p in consensus <==> p in papers - remaining && IsConsensus(decisions, p)
        invariant forall a, b :: 0 <= a < b < |consensus| ==> consensus[a] != consensus[b]
        decreases |remaining|
      {
        var p :| p in remaining;
        var ds := DecisionsFor(decisions, p);
        if |ds| >= 2 && |DecisionValues(ds)| == 1 {
          assert p !in consensus;
          consensus := consensus + [p];
        }
        remaining := remaining - {p};
      }
      forall p | IsConsensus(decisions, p) ensures p in papers {
        var ds := DecisionsFor(decisions, p);
        DecisionsForSpec(decisions, p);
        assert ds[0] in decisions;
      }
    }
  }

  /** The decision strings of `ds`, in log order. */
  function Ballot(ds: seq<ScreeningDecision>): (r: seq<string>)
    ensures |r| == |ds| && forall i :: 0 <= i < |ds| ==> r[i] == ds[i].decision
  {
    seq(|ds|, i requires 0 <= i < |ds| => ds[i].decision)
  }

  /** `keys` lists each decision string of `ds` once, in order of first appearance, and `counts` maps it to its number of votes. */
  ghost predicate IsTally(ds: seq<ScreeningDecision>, keys: seq<string>, counts: map<string, nat>)
  {
    IsHistogram(keys, counts, Ballot(ds))
  }

  /** The votes for `v` are its occurrences in the ballot. */
  lemma {:induction false} VotesAreOccurrences(ds: seq<ScreeningDecision>, v: string)
    ensures Votes(ds, v) == Occurrences(Ballot(ds), v)
    decreases |ds|
  {
    if ds != [] {
      var init := ds[..|ds| - 1];
      VotesAreOccurrences(init, v);
      assert Ballot(ds)[..|ds| - 1] == Ballot(init);
    }
  }

  /** A tally lists each decision value once, in order of first appearance, with its number of votes. */
  lemma TallyFacts(ds: seq<ScreeningDecision>, keys: seq<string>, counts: map<string, nat>)
    requires IsTally(ds, keys, counts)
    ensures counts.Keys == (set k | k in keys)
    ensures keys == FirstAppearances(Ballot(ds))
    ensures forall a, b :: 0 <= a < b < |keys| ==> keys[a] != keys[b]
    ensures forall k :: k in keys <==> exists j :: 0 <= j < |ds| && ds[j].decision == k
    ensures forall k :: k in counts ==> counts[k] == Votes(ds, k)
  {
    forall k ensures k in keys <==> exists j :: 0 <= j < |ds| && ds[j].decision == k {
      if k in keys {
        var j :| 0 <= j < |Ballot(ds)| && Ballot(ds)[j] == k;
        assert ds[j].decision == k;
      }
      if exists j :: 0 <= j < |ds| && ds[j].decision == k {
        var j :| 0 <= j < |ds| && ds[j].decision == k;
        assert Ballot(ds)[j] == k;
      }
    }
    forall k | k in counts ensures counts[k] == Votes(ds, k) {
      VotesAreOccurrences(ds, k);
    }
  }

  lemma TallyKeys(ds: seq<ScreeningDecision>, keys: seq<string>, counts: map<string, nat>)
    requires ds != [] && IsTally(ds, keys, counts)
    ensures keys != [] && forall k :: k in keys ==> k in counts
    ensures forall a, b :: 0 <= a < b < |keys| ==> keys[a] != keys[b]
  {
    TallyFacts(ds, keys, counts);
    assert ds[0].decision in keys;
  }

  /** The outcome of the majority vote: one value at the maximum wins, two or more make a tie. */
  lemma MajorityOutcome(ds: seq<ScreeningDecision>, keys: seq<string>, counts: map<string, nat>,
                        maxVotes: nat, majority: seq<string>)
    requires IsTally(ds, keys, counts)
    requires forall k :: k in keys ==> counts[k] <= maxVotes
    requires exists j :: 0 <= j < |keys| && counts[keys[j]] == maxVotes
    requires forall x :: x in majority <==> x in keys && counts[x] == maxVotes
    requires forall a, b :: 0 <= a < b < |majority| ==> majority[a] != majority[b]
    ensures majority != []
    ensures |majority| == 1 ==> IsUniqueMajority(ds, majority[0])
    ensures |majority| != 1 ==> IsTie(ds)
  {
    var jMax :| 0 <= jMax < |keys| && counts[keys[jMax]] == maxVotes;
    assert keys[jMax] in majority;
    if |majority| == 1 {
      UniqueWinner(ds, keys, counts, maxVotes, majority[0]);
    } else {
      TieFound(ds, keys, counts, maxVotes, majority[0], majority[1]);
    }
  }

  /** A key alone in reaching the largest count wins the majority vote. */
  lemma UniqueWinner(ds: seq<ScreeningDecision>, keys: seq<string>, counts: map<string, nat>, maxVotes: nat, winner: string)
    requires IsTally(ds, keys, counts)
    requires forall k :: k in keys ==> counts[k] <= maxVotes
    requires winner in keys && counts[winner] == maxVotes
    requires forall k :: k in keys && counts[k] == maxVotes ==> k == winner
    ensures IsUniqueMajority(ds, winner)
  {
    TallyFacts(ds, keys, counts);
    var j :| 0 <= j < |ds| && ds[j].decision == winner;
    VotesPositive(ds, j);
    forall d | d in ds && d.decision != winner
      ensures Votes(ds, d.decision) < Votes(ds, winner)
    {
      var i :| 0 <= i < |ds| && ds[i] == d;
      assert d.decision in keys;
    }
  }

  /** Two different keys reaching the largest count make a tie. */
  lemma TieFound(ds: seq<ScreeningDecision>, keys: seq<string>, counts: map<string, nat>, maxVotes: nat, w1: string, w2: string)
    requires IsTally(ds, keys, counts)
    requires forall k :: k in keys ==> counts[k] <= maxVotes
    requires w1 in keys && w2 in keys && w1 != w2 && counts[w1] == maxVotes && counts[w2] == maxVotes
    ensures IsTie(ds)
  {
    TallyFacts(ds, keys, counts);
    var j1 :| 0 <= j1 < |ds| && ds[j1].decision == w1;
    var j2 :| 0 <= j2 < |ds| && ds[j2].decision == w2;
    forall d | d in ds ensures Votes(ds, d.decision) <= Votes(ds, ds[j1].decision) {
      var i :| 0 <= i < |ds| && ds[i] == d;
      assert d.decision in keys;
    }
    assert ds[j1] in ds && ds[j2] in ds;
  }

  /**
   * The vote-counting loop of `resolve_by_majority`: the dictionary's keys in
   * insertion order (first appearance) and the number of votes for each.
   */
  method CountVotes(ds: seq<ScreeningDecision>) returns (keys: seq<string>, counts: map<string, nat>)
    ensures IsTally(ds, keys, counts)
  {
    keys := [];
    counts := map[];
    var i := 0;
    while i < |ds|
      invariant 0 <= i <= |ds|
      invariant IsTally(ds[..i], keys, counts)
    {
      assert Ballot(ds[..i + 1]) == Ballot(ds[..i]) + [ds[i].decision];
      keys, counts := HistogramInsert(keys, counts, Ballot(ds[..i]), ds[i].decision);
      i := i + 1;
    }
    assert ds[..i] == ds;
  }

  /** `max(vote_counts.values())`: a largest count, attained by some key. */
  method MaxCount(keys: seq<string>, counts: map<string, nat>) returns (maxVotes: nat)
    requires keys != [] && forall k :: k in keys ==> k in counts
    ensures forall k :: k in keys ==> counts[k] <= maxVotes
    ensures exists j :: 0 <= j < |keys| && counts[keys[j]] == maxVotes
  {
    maxVotes := counts[keys[0]];
    var m := 1;
    while m < |keys|
      invariant 1 <= m <= |keys|
      invariant forall k :: k in keys[..m] ==> counts[k] <= maxVotes
      invariant exists j :: 0 <= j < m && counts[keys[j]] == maxVotes
    {
      if counts[keys[m]] > maxVotes {
        maxVotes := counts[keys[m]];
      }
      m := m + 1;
    }
    assert keys[..m] == keys;
  }

  /** `[dec for dec, count in vote_counts.items() if count == max_votes]`: distinct, in key order. */
  method ValuesWithCount(keys: seq<string>, counts: map<string, nat>, target: nat) returns (hits: seq<string>)
    requires forall k :: k in keys ==> k in counts
    requires forall a, b :: 0 <= a < b < |keys| ==> keys[a] != keys[b]
    ensures forall x :: x in hits <==> x in keys && counts[x] == target
    ensures forall a, b :: 0 <= a < b < |hits| ==> hits[a] != hits[b]
    ensures IsSubsequence(hits, keys)
  {
    hits := [];
    var t := 0;
    while t < |keys|
      invariant 0 <= t <= |keys|
      invariant forall x :: x in hits <==> x in keys[..t] && counts[x] == target
      invariant forall a, b :: 0 <= a < b < |hits| ==> hits[a] != hits[b]
      invariant IsSubsequence(hits, keys[..t])
    {
      assert keys[..t + 1] == keys[..t] + [keys[t]];
      if counts[keys[t]] == target {
        assert keys[t] !in hits;
        SubsequenceSnoc(hits, keys[..t], keys[t]);
        hits := hits + [keys[t]];
      } else {
        SubsequenceSnoc(hits, keys[..t], keys[t]);
      }
      t := t + 1;
    }
    assert keys[..t] == keys;
  }

  lemma {:induction false} VotesWitness(ds: seq<ScreeningDecision>, v: string)
    requires Votes(ds, v) > 0
    ensures exists j :: 0 <= j < |ds| && ds[j].decision == v
    decreases |ds|
  {
    if ds[|ds| - 1].decision != v {
      VotesWitness(ds[..|ds| - 1], v);
      var j :| 0 <= j < |ds| - 1 && ds[..|ds| - 1][j].decision == v;
      assert ds[j] == ds[..|ds| - 1][j];
    }
  }
}
