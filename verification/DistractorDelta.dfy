/** The distractor deltas of the search benchmark: which of them can be positive, and when. */
module DistractorDelta {
  import opened Wrappers
  import opened Strings
  import opened Sorting
  import opened Rounding
  import opened RetrievalMetrics
  import opened SearchScoring
  import opened ContextRetrieval
  import opened DistractorPlacement
  import opened DistractorEffect

  // ----- One run -----

  lemma GoldIsEvidence(fx: ScoredFixture, mode: SearchMode, a: Anchor)
    ensures a in Distinct(GoldAnchors(fx)) <==> exists c :: c in EvidenceCandidates(fx, mode) && c.anchor == a
  {
    var gold, es := GoldAnchors(fx), EvidenceCandidates(fx, mode);
    if a in Distinct(gold) {
      var i :| 0 <= i < |gold| && gold[i] == a;
      assert es[i].anchor == a;
    }
    if exists c :: c in es && c.anchor == a {
      var i :| 0 <= i < |es| && es[i].anchor == a;
      assert gold[i] == a;
    }
  }

  lemma CandidatesSplit(fx: ScoredFixture, mode: SearchMode)
    ensures Candidates(fx, mode, false) == EvidenceCandidates(fx, mode)
    ensures Candidates(fx, mode, true) == EvidenceCandidates(fx, mode) + DistractorCandidates(fx, mode)
  {}

  /** Every gold anchor found with distractors is found without them. */
  lemma HitsShrink(fx: ScoredFixture, mode: SearchMode, budget: nat, a: Anchor)
    requires a in Distinct(GoldAnchors(fx)) && a in Retrieved(fx, mode, budget, true)
    ensures a in Retrieved(fx, mode, budget, false)
  {
    hide EvidenceCandidates, DistractorCandidates, GoldAnchors, Ranking, Take, Anchors, Ranks, Candidates;
    var es, ds := EvidenceCandidates(fx, mode), DistractorCandidates(fx, mode);
    CandidatesSplit(fx, mode);
    FixtureIsSeparate(fx, mode);
    GoldIsEvidence(fx, mode, a);
    var r, q := RankPlaces(es, ds, budget, a);
  }

  lemma CleanRunsRetrieveGold(fx: ScoredFixture, mode: SearchMode, budget: nat)
    ensures forall a | a in Retrieved(fx, mode, budget, false) :: a in Distinct(GoldAnchors(fx))
  {
    hide EvidenceCandidates, DistractorCandidates, GoldAnchors, Ranking, Take, Ranks, Candidates, Distinct;
    var es := EvidenceCandidates(fx, mode);
    CandidatesSplit(fx, mode);
    RankingFacts(es);
    TakeIsPrefix(Ranking(es), budget);
    forall a | a in Retrieved(fx, mode, budget, false) ensures a in Distinct(GoldAnchors(fx)) {
      var rows := Take(Ranking(es), budget);
      var i :| 0 <= i < |rows| && Anchors(rows)[i] == a;
      assert Ranking(es)[i] in Ranking(es);
      GoldIsEvidence(fx, mode, a);
    }
  }

  lemma Share(x: real, y: real, d: nat)
    requires x <= y && d > 0
    ensures x / d as real <= y / d as real
  {}

  lemma RecallNeverRises(fx: ScoredFixture, mode: SearchMode, budget: nat)
    ensures var gold := Distinct(GoldAnchors(fx));
      Recall(gold, Retrieved(fx, mode, budget, true)) <= Recall(gold, Retrieved(fx, mode, budget, false))
  {
    hide Retrieved, GoldAnchors, Distinct;
    var gold := Distinct(GoldAnchors(fx));
    var clean, noisy := Retrieved(fx, mode, budget, false), Retrieved(fx, mode, budget, true);
    forall a | a in Hits(gold, noisy) ensures a in Hits(gold, clean) {
      HitsShrink(fx, mode, budget, a);
    }
    SubsetSize(Hits(gold, noisy), Hits(gold, clean));
    if gold != {} {
      Share(|Hits(gold, noisy)| as real, |Hits(gold, clean)| as real, |gold|);
    }
  }

  lemma PrecisionNeverRises(fx: ScoredFixture, mode: SearchMode, budget: nat)
    ensures var gold := Distinct(GoldAnchors(fx));
      Precision(gold, Retrieved(fx, mode, budget, true)) <= Precision(gold, Retrieved(fx, mode, budget, false))
  {
    hide Retrieved, GoldAnchors;
    var gold := Distinct(GoldAnchors(fx));
    var clean, noisy := Retrieved(fx, mode, budget, false), Retrieved(fx, mode, budget, true);
    CleanRunsRetrieveGold(fx, mode, budget);
    assert Hits(gold, clean) == Distinct(clean);
    SubsetSize(Hits(gold, noisy), Distinct(noisy));
    if clean == [] {
      forall a | a in gold ensures a !in noisy {
        if a in noisy {
          HitsShrink(fx, mode, budget, a);
          assert false;
        }
      }
      assert Hits(gold, noisy) == {};
    } else {
      assert clean[0] in Distinct(clean);
      WholeShare(|Distinct(clean)|);
    }
    if noisy != [] {
      assert noisy[0] in Distinct(noisy);
      Share(|Hits(gold, noisy)| as real, |Distinct(noisy)| as real, |Distinct(noisy)|);
      WholeShare(|Distinct(noisy)|);
    }
  }

  lemma WholeShare(d: nat)
    requires d > 0
    ensures d as real / d as real == 1.0
  {}

  lemma {:induction false} InverseRanksShrink(anchors: seq<Anchor>, clean: map<Anchor, nat>, noisy: map<Anchor, nat>)
    requires forall a | a in anchors && a in noisy :: a in clean && 0 < clean[a] <= noisy[a]
    ensures InverseRanks(anchors, noisy) <= InverseRanks(anchors, clean)
  {
    if anchors != [] {
      var a := anchors[0];
      InverseRanksShrink(anchors[1..], clean, noisy);
      if a in noisy {
        InverseOrder(clean[a], noisy[a]);
      } else if a in clean && clean[a] > 0 {
        InverseOrder(clean[a], clean[a]);
      }
    }
  }

  lemma EfficiencyNeverRises(fx: ScoredFixture, mode: SearchMode, budget: nat)
    requires InBlocks(Ranking(EvidenceCandidates(fx, mode)))
    ensures var gold := Distinct(GoldAnchors(fx));
      Efficiency(gold, Retrieved(fx, mode, budget, true)) <= Efficiency(gold, Retrieved(fx, mode, budget, false))
  {
    hide EvidenceCandidates, DistractorCandidates, GoldAnchors, Ranking, Take, Anchors, Ranks, Candidates, InBlocks,
      Distinct, InverseRanks;
    var es, ds := EvidenceCandidates(fx, mode), DistractorCandidates(fx, mode);
    var gold := Distinct(GoldAnchors(fx));
    var clean, noisy := Retrieved(fx, mode, budget, false), Retrieved(fx, mode, budget, true);
    CandidatesSplit(fx, mode);
    FixtureIsSeparate(fx, mode);
    RanksAreLast(clean);
    RanksAreLast(noisy);
    if gold != {} {
      forall a | a in SortedKeys(gold) && a in Ranks(noisy)
        ensures a in Ranks(clean) && 0 < Ranks(clean)[a] <= Ranks(noisy)[a]
      {
        GoldIsEvidence(fx, mode, a);
        RankNeverImproves(es, ds, budget, a);
      }
      InverseRanksShrink(SortedKeys(gold), Ranks(clean), Ranks(noisy));
      Share(InverseRanks(SortedKeys(gold), Ranks(noisy)), InverseRanks(SortedKeys(gold), Ranks(clean)), |gold|);
    }
  }

  /** Adding distractors never raises recall or precision, nor efficiency when equal anchors stand together. */
  lemma DistractorsNeverHelp(fx: ScoredFixture, mode: SearchMode, budget: nat)
    ensures var clean, noisy := RunMetrics(fx, mode, budget, false), RunMetrics(fx, mode, budget, true);
      && noisy.recall <= clean.recall && noisy.precision <= clean.precision
      && (InBlocks(Ranking(EvidenceCandidates(fx, mode))) ==> noisy.efficiency <= clean.efficiency)
  {
    hide Recall, Precision, Efficiency, Round4, Retrieved, GoldAnchors, InBlocks, Ranking;
    var gold := Distinct(GoldAnchors(fx));
    var clean, noisy := Retrieved(fx, mode, budget, false), Retrieved(fx, mode, budget, true);
    hide Distinct;
    RecallNeverRises(fx, mode, budget);
    PrecisionNeverRises(fx, mode, budget);
    Round4IsMonotone(Recall(gold, noisy), Recall(gold, clean));
    Round4IsMonotone(Precision(gold, noisy), Precision(gold, clean));
    if InBlocks(Ranking(EvidenceCandidates(fx, mode))) {
      EfficiencyNeverRises(fx, mode, budget);
      Round4IsMonotone(Efficiency(gold, noisy), Efficiency(gold, clean));
    }
  }

  // ----- The deltas of a fixture -----

  const SEARCH_MODES := [Grep, Vector, Hybrid]
  const OUTPUT_PROFILES := ["inline_text", "resource_link"]

  function Sum(values: seq<real>): real {
    if values == [] then 0.0 else values[0] + Sum(values[1..])
  }

  function Mean(values: seq<real>): real {
    if values == [] then 0.0 else Sum(values) / |values| as real
  }

  function RecallsOf(runs: seq<Metrics>): seq<real> {
    seq(|runs|, i requires 0 <= i < |runs| => runs[i].recall)
  }

  function PrecisionsOf(runs: seq<Metrics>): seq<real> {
    seq(|runs|, i requires 0 <= i < |runs| => runs[i].precision)
  }

  function EfficienciesOf(runs: seq<Metrics>): seq<real> {
    seq(|runs|, i requires 0 <= i < |runs| => runs[i].efficiency)
  }

  /** The `distractor_delta` entry. */
  function Delta(noisy: seq<Metrics>, clean: seq<Metrics>): Metrics {
    Metrics(Round4(Mean(RecallsOf(noisy)) - Mean(RecallsOf(clean))),
            Round4(Mean(PrecisionsOf(noisy)) - Mean(PrecisionsOf(clean))),
            Round4(Mean(EfficienciesOf(noisy)) - Mean(EfficienciesOf(clean))))
  }

  const RUN_COUNT: nat := |SEARCH_MODES| * |OUTPUT_PROFILES|

  /** The metrics of all runs of a fixture, mode by mode and profile by profile. */
  function Runs(fx: ScoredFixture, budget: nat, includeDistractors: bool): (runs: seq<Metrics>)
    ensures |runs| == RUN_COUNT
  {
    seq(RUN_COUNT, i requires 0 <= i < RUN_COUNT => RunMetrics(fx, SEARCH_MODES[i / 2], budget, includeDistractors))
  }

  function FixtureDelta(fx: ScoredFixture, budget: nat): Metrics {
    Delta(Runs(fx, budget, true), Runs(fx, budget, false))
  }

  method EvaluateRuns(root: int -> real, fx: SearchFixture, budget: int, includeDistractors: bool)
    returns (runs: seq<Metrics>)
    requires budget >= 1
    ensures runs == Runs(Scored(root, fx), budget, includeDistractors)
  {
    hide RunMetrics, Scored;
    runs := [];
    for m := 0 to |SEARCH_MODES|
      invariant |runs| == 2 * m
      invariant forall i | 0 <= i < |runs| ::
        runs[i] == RunMetrics(Scored(root, fx), SEARCH_MODES[i / 2], budget, includeDistractors)
    {
      for p := 0 to |OUTPUT_PROFILES|
        invariant |runs| == 2 * m + p
        invariant forall i | 0 <= i < |runs| ::
          runs[i] == RunMetrics(Scored(root, fx), SEARCH_MODES[i / 2], budget, includeDistractors)
      {
        var metrics := EvaluateSearchRun(root, fx, SEARCH_MODES[m], budget, includeDistractors);
        runs := runs + [metrics.value];
      }
    }
  }

  lemma {:induction false} SumIsMonotone(x: seq<real>, y: seq<real>)
    requires |x| == |y| && forall i | 0 <= i < |x| :: x[i] <= y[i]
    ensures Sum(x) <= Sum(y)
  {
    if x != [] {
      SumIsMonotone(x[1..], y[1..]);
    }
  }

  lemma MeanDeltaIsNotPositive(x: seq<real>, y: seq<real>)
    requires |x| == |y| && forall i | 0 <= i < |x| :: x[i] <= y[i]
    ensures Round4(Mean(x) - Mean(y)) <= 0.0
  {
    SumIsMonotone(x, y);
    if x != [] {
      Share(Sum(x), Sum(y), |x|);
    }
    Round4IsMonotone(Mean(x) - Mean(y), 0.0);
    Round4OfWhole(0);
  }

  /**
   The three distractor deltas of a fixture.  Recall and precision never rise; efficiency does not
   when, in every mode, equal evidence anchors stand together with one score.  None stands for the
   error on a budget below one.
   */
  method EvaluateFixtureDelta(root: int -> real, fx: SearchFixture, budget: int) returns (r: Option<Metrics>)
    ensures r == if budget < 1 then None else Some(FixtureDelta(Scored(root, fx), budget))
    ensures r.Some? ==> r.value.recall <= 0.0 && r.value.precision <= 0.0
    ensures r.Some? && (forall mode :: InBlocks(Ranking(EvidenceCandidates(Scored(root, fx), mode)))) ==>
      r.value.efficiency <= 0.0
  {
    hide RunMetrics, Round4, Mean, InBlocks, Ranking, EvidenceCandidates, Scored;
    if budget < 1 {
      return None;
    }
    var clean := EvaluateRuns(root, fx, budget, false);
    var noisy := EvaluateRuns(root, fx, budget, true);
    r := Some(Delta(noisy, clean));
    ghost var scored := Scored(root, fx);
    forall i | 0 <= i < |clean|
      ensures noisy[i].recall <= clean[i].recall && noisy[i].precision <= clean[i].precision
      ensures InBlocks(Ranking(EvidenceCandidates(scored, SEARCH_MODES[i / 2])))
        ==> noisy[i].efficiency <= clean[i].efficiency
    {
      DistractorsNeverHelp(scored, SEARCH_MODES[i / 2], budget);
    }
    MeanDeltaIsNotPositive(RecallsOf(noisy), RecallsOf(clean));
    MeanDeltaIsNotPositive(PrecisionsOf(noisy), PrecisionsOf(clean));
    if forall mode :: InBlocks(Ranking(EvidenceCandidates(scored, mode))) {
      MeanDeltaIsNotPositive(EfficienciesOf(noisy), EfficienciesOf(clean));
    }
  }

  /** Distinct evidence anchors are always in blocks. */
  lemma DistinctAnchorsAreInBlocks(fx: ScoredFixture, mode: SearchMode)
    requires forall i, j | 0 <= i < j < |fx.evidence| ::
      EvidenceAnchor(fx.evidence[i]) != EvidenceAnchor(fx.evidence[j])
    ensures InBlocks(Ranking(EvidenceCandidates(fx, mode)))
  {
    hide EvidenceAnchor;
    var es := EvidenceCandidates(fx, mode);
    var rows := Ranking(es);
    RankingFacts(es);
    hide Ranking;
    forall i, j | 0 <= i < j < |rows| ensures AnchorAt(rows, i) != AnchorAt(rows, j) {
      RowsAreOnce(es, rows, i, j);
    }
  }

  lemma RowsAreOnce(es: seq<Candidate>, rows: seq<Row>, i: nat, j: nat)
    requires multiset(rows) == multiset(Filter(Rows(es), Positive())) && i < j < |rows|
    requires forall k, m | 0 <= k < m < |es| :: es[k].anchor != es[m].anchor
    ensures AnchorAt(rows, i) != AnchorAt(rows, j)
  {
    hide Rows, Positive, Filter;
    assert rows[i] in multiset(rows) && rows[j] in multiset(rows);
    assert rows[i] in Rows(es) && rows[j] in Rows(es);
    if rows[i] == rows[j] {
      assert rows == rows[..i] + [rows[i]] + rows[i + 1..j] + [rows[j]] + rows[j + 1..];
      assert multiset(rows)[rows[i]] >= 2;
      FilterMultiset(Rows(es), Positive(), rows[i]);
      RowOccursOnce(es, |es|, rows[i]);
      assert false;
    }
  }

  lemma {:induction false} RowOccursOnce(es: seq<Candidate>, n: nat, r: Row)
    requires n <= |es|
    ensures n == |es| ==> Rows(es)[..n] == Rows(es)
    ensures multiset(Rows(es)[..n])[r] <= 1
    ensures r.index >= n ==> multiset(Rows(es)[..n])[r] == 0
  {
    if n > 0 {
      RowOccursOnce(es, n - 1, r);
      assert Rows(es)[..n] == Rows(es)[..n - 1] + [Rows(es)[n - 1]];
    }
  }
}
