/** What the three deltas of a fixture are, and when distractors cost precision. */
module DeltaMeaning {
  import opened Rounding
  import opened RetrievalMetrics
  import opened SearchScoring
  import opened ContextRetrieval
  import opened DistractorPlacement
  import opened DistractorEffect
  import opened DistractorDelta

  // ----- The deltas are mean differences over the three modes -----

  lemma MeanOfPairs(x: seq<real>, g: real, v: real, h: real)
    requires x == [g, g, v, v, h, h]
    ensures Mean(x) == (g + v + h) / 3.0
  {
    PairSum(h, []);
    PairSum(v, [h, h]);
    PairSum(g, [v, v, h, h]);
    assert [h, h] + [] == [h, h] && [v, v] + [h, h] == [v, v, h, h] && [g, g] + [v, v, h, h] == x;
  }

  lemma PairSum(x: real, rest: seq<real>)
    ensures Sum([x, x] + rest) == x + x + Sum(rest)
  {
    assert ([x, x] + rest)[1..] == [x] + rest && ([x] + rest)[1..] == rest;
  }

  lemma RunsInPairs(fx: ScoredFixture, b: nat, noisy: bool)
    ensures var g, v, h := RunMetrics(fx, Grep, b, noisy), RunMetrics(fx, Vector, b, noisy),
                           RunMetrics(fx, Hybrid, b, noisy);
      Runs(fx, b, noisy) == [g, g, v, v, h, h]
  {
    hide RunMetrics;
  }

  /** Each delta is the rounded mean over the three modes of what a run reports with distractors minus without. */
  lemma DeltaIsMeanDifference(fx: ScoredFixture, b: nat)
    ensures var (g, v, h) := (RunMetrics(fx, Grep, b, true), RunMetrics(fx, Vector, b, true),
                              RunMetrics(fx, Hybrid, b, true));
      var (g', v', h') := (RunMetrics(fx, Grep, b, false), RunMetrics(fx, Vector, b, false),
                           RunMetrics(fx, Hybrid, b, false));
      var delta := FixtureDelta(fx, b);
      && delta.recall == Round4(((g.recall - g'.recall) + (v.recall - v'.recall) + (h.recall - h'.recall)) / 3.0)
      && delta.precision
           == Round4(((g.precision - g'.precision) + (v.precision - v'.precision) + (h.precision - h'.precision)) / 3.0)
      && delta.efficiency
           == Round4(((g.efficiency - g'.efficiency) + (v.efficiency - v'.efficiency)
                      + (h.efficiency - h'.efficiency)) / 3.0)
  {
    hide RunMetrics, Round4, Mean, Runs;
    RunsInPairs(fx, b, true);
    RunsInPairs(fx, b, false);
    DeltaOfPairs(RunMetrics(fx, Grep, b, true), RunMetrics(fx, Vector, b, true), RunMetrics(fx, Hybrid, b, true),
      RunMetrics(fx, Grep, b, false), RunMetrics(fx, Vector, b, false), RunMetrics(fx, Hybrid, b, false));
  }

  lemma DeltaOfPairs(g: Metrics, v: Metrics, h: Metrics, g': Metrics, v': Metrics, h': Metrics)
    ensures var delta := Delta([g, g, v, v, h, h], [g', g', v', v', h', h']);
      && delta.recall == Round4(((g.recall - g'.recall) + (v.recall - v'.recall) + (h.recall - h'.recall)) / 3.0)
      && delta.precision
           == Round4(((g.precision - g'.precision) + (v.precision - v'.precision) + (h.precision - h'.precision)) / 3.0)
      && delta.efficiency
           == Round4(((g.efficiency - g'.efficiency) + (v.efficiency - v'.efficiency)
                      + (h.efficiency - h'.efficiency)) / 3.0)
  {
    hide Round4, Mean;
    var noisy, clean := [g, g, v, v, h, h], [g', g', v', v', h', h'];
    MeanOfPairs(RecallsOf(noisy), g.recall, v.recall, h.recall);
    MeanOfPairs(RecallsOf(clean), g'.recall, v'.recall, h'.recall);
    MeanOfPairs(PrecisionsOf(noisy), g.precision, v.precision, h.precision);
    MeanOfPairs(PrecisionsOf(clean), g'.precision, v'.precision, h'.precision);
    MeanOfPairs(EfficienciesOf(noisy), g.efficiency, v.efficiency, h.efficiency);
    MeanOfPairs(EfficienciesOf(clean), g'.efficiency, v'.efficiency, h'.efficiency);
  }

  // ----- What precision says -----

  /** A retrieval has precision 1 exactly when it brings gold alone; an empty one when there is no gold. */
  lemma PrecisionIsOneExactly(gold: set<Anchor>, retrieved: seq<Anchor>)
    ensures retrieved != [] ==> (Precision(gold, retrieved) == 1.0 <==> forall a | a in retrieved :: a in gold)
    ensures retrieved == [] ==> Precision(gold, retrieved) == if gold == {} then 1.0 else 0.0
    ensures retrieved != [] && (forall a | a in retrieved :: a !in gold) ==> Precision(gold, retrieved) == 0.0
  {
    var hits, all := Hits(gold, retrieved), Distinct(retrieved);
    if retrieved != [] {
      assert retrieved[0] in all;
      SubsetSize(hits, all);
      WholeShareOnly(|hits|, |all|);
      if |hits| == |all| {
        SubsetOfSameSize(hits, all);
        assert forall a | a in retrieved :: a in all;
      }
      if forall a | a in retrieved :: a in gold {
        assert hits == all;
      }
      if forall a | a in retrieved :: a !in gold {
        assert hits == {};
      }
    }
  }

  ghost predicate RetrievesDistractor(fx: ScoredFixture, mode: SearchMode, b: nat) {
    exists d :: d in fx.distractors && DistractorAnchor(fx.id, d) in Retrieved(fx, mode, b, true)
  }

  /** What a run retrieves is gold or the anchor of a distractor, and never both. */
  lemma GoldOrDistractor(fx: ScoredFixture, mode: SearchMode, b: nat)
    ensures RetrievesDistractor(fx, mode, b)
      <==> exists a :: a in Retrieved(fx, mode, b, true) && a !in Distinct(GoldAnchors(fx))
  {
    hide Retrieved, Distinct, GoldAnchors, EvidenceCandidates, DistractorCandidates;
    var es, ds := EvidenceCandidates(fx, mode), DistractorCandidates(fx, mode);
    FixtureIsSeparate(fx, mode);
    DistractorsHaveAnchors(fx, mode);
    if d :| d in fx.distractors && DistractorAnchor(fx.id, d) in Retrieved(fx, mode, b, true) {
      GoldIsEvidence(fx, mode, DistractorAnchor(fx.id, d));
    }
    if a :| a in Retrieved(fx, mode, b, true) && a !in Distinct(GoldAnchors(fx)) {
      var c := RetrievedCandidate(fx, mode, b, a);
      GoldIsEvidence(fx, mode, a);
    }
  }

  lemma DistractorsHaveAnchors(fx: ScoredFixture, mode: SearchMode)
    ensures forall d | d in fx.distractors ::
      exists c :: c in DistractorCandidates(fx, mode) && c.anchor == DistractorAnchor(fx.id, d)
    ensures forall c | c in DistractorCandidates(fx, mode) ::
      exists d :: d in fx.distractors && c.anchor == DistractorAnchor(fx.id, d)
  {
    hide DistractorAnchor;
    var ds := DistractorCandidates(fx, mode);
    forall d | d in fx.distractors ensures exists c :: c in ds && c.anchor == DistractorAnchor(fx.id, d) {
      var i :| 0 <= i < |fx.distractors| && fx.distractors[i] == d;
      assert ds[i] in ds;
    }
    forall c | c in ds ensures exists d :: d in fx.distractors && c.anchor == DistractorAnchor(fx.id, d) {
      var i :| 0 <= i < |ds| && ds[i] == c;
      assert fx.distractors[i] in fx.distractors;
    }
  }

  lemma RetrievedCandidate(fx: ScoredFixture, mode: SearchMode, b: nat, a: Anchor) returns (c: Candidate)
    requires a in Retrieved(fx, mode, b, true)
    ensures c.anchor == a && (c in EvidenceCandidates(fx, mode) || c in DistractorCandidates(fx, mode))
  {
    hide EvidenceCandidates, DistractorCandidates, Ranking, Take, Ranks, Candidates;
    var es, ds := EvidenceCandidates(fx, mode), DistractorCandidates(fx, mode);
    CandidatesSplit(fx, mode);
    RankingFacts(es + ds);
    RankIsLastPlace(Ranking(es + ds), b, a);
    var r := Ranks(Anchors(Take(Ranking(es + ds), b)))[a] - 1;
    assert Ranking(es + ds)[r] in Ranking(es + ds);
    c := Ranking(es + ds)[r].candidate;
  }

  // ----- When distractors cost precision -----

  function PrecisionOf(fx: ScoredFixture, mode: SearchMode, b: nat, noisy: bool): real {
    Precision(Distinct(GoldAnchors(fx)), Retrieved(fx, mode, b, noisy))
  }

  /** Nothing is lost when no distractor is retrieved, or when the run has no precision to lose. */
  ghost predicate KeepsPrecision(fx: ScoredFixture, mode: SearchMode, b: nat) {
    !RetrievesDistractor(fx, mode, b) || (Retrieved(fx, mode, b, false) == [] && fx.evidence != [])
  }

  lemma CleanPrecision(fx: ScoredFixture, mode: SearchMode, b: nat)
    ensures PrecisionOf(fx, mode, b, false)
         == if Retrieved(fx, mode, b, false) != [] || fx.evidence == [] then 1.0 else 0.0
  {
    hide Retrieved, Precision;
    CleanRunsRetrieveGold(fx, mode, b);
    PrecisionIsOneExactly(Distinct(GoldAnchors(fx)), Retrieved(fx, mode, b, false));
    GoldIsThere(fx);
  }

  lemma GoldIsThere(fx: ScoredFixture)
    ensures Distinct(GoldAnchors(fx)) == {} <==> fx.evidence == []
  {
    if fx.evidence != [] {
      assert GoldAnchors(fx)[0] in Distinct(GoldAnchors(fx));
    }
  }

  /** With distractors precision never rises, and stays the same exactly when it is kept. */
  lemma PrecisionFallsExactly(fx: ScoredFixture, mode: SearchMode, b: nat)
    ensures PrecisionOf(fx, mode, b, true) <= PrecisionOf(fx, mode, b, false)
    ensures PrecisionOf(fx, mode, b, true) == PrecisionOf(fx, mode, b, false) <==> KeepsPrecision(fx, mode, b)
  {
    hide Retrieved, Precision, Distinct, GoldAnchors, RetrievesDistractor;
    var gold, clean, noisy := Distinct(GoldAnchors(fx)), Retrieved(fx, mode, b, false), Retrieved(fx, mode, b, true);
    PrecisionNeverRises(fx, mode, b);
    CleanPrecision(fx, mode, b);
    GoldIsThere(fx);
    GoldOrDistractor(fx, mode, b);
    PrecisionIsOneExactly(gold, noisy);
    forall a | a in gold && a in noisy ensures a in clean {
      HitsShrink(fx, mode, b, a);
    }
    if noisy == [] {
      NothingLost(fx, mode, b);
    } else {
      assert noisy[0] in noisy;
    }
  }

  /** A run that retrieves nothing with distractors retrieves nothing without them. */
  lemma NothingLost(fx: ScoredFixture, mode: SearchMode, b: nat)
    requires Retrieved(fx, mode, b, true) == []
    ensures Retrieved(fx, mode, b, false) == []
  {
    hide EvidenceCandidates, DistractorCandidates, Ranking, Take, Candidates, Anchors;
    var es, ds := EvidenceCandidates(fx, mode), DistractorCandidates(fx, mode);
    CandidatesSplit(fx, mode);
    FixtureIsSeparate(fx, mode);
    AnchorsOfTake(Ranking(es), b);
    AnchorsOfTake(Ranking(es + ds), b);
    if Ranking(es) != [] {
      EvidenceIsPlaced(es, ds, 0);
    }
  }

  /** The precision delta before rounding, which is 0 exactly when every mode keeps its precision. */
  lemma PrecisionDeltaIsZeroExactly(fx: ScoredFixture, b: nat)
    ensures var delta := ((PrecisionOf(fx, Grep, b, true) - PrecisionOf(fx, Grep, b, false))
                          + (PrecisionOf(fx, Vector, b, true) - PrecisionOf(fx, Vector, b, false))
                          + (PrecisionOf(fx, Hybrid, b, true) - PrecisionOf(fx, Hybrid, b, false))) / 3.0;
      && delta <= 0.0
      && (delta == 0.0 <==> forall mode :: KeepsPrecision(fx, mode, b))
  {
    hide PrecisionOf, KeepsPrecision;
    PrecisionFallsExactly(fx, Grep, b);
    PrecisionFallsExactly(fx, Vector, b);
    PrecisionFallsExactly(fx, Hybrid, b);
    if KeepsPrecision(fx, Grep, b) && KeepsPrecision(fx, Vector, b) && KeepsPrecision(fx, Hybrid, b) {
      forall mode ensures KeepsPrecision(fx, mode, b) {
        assert mode.Grep? || mode.Vector? || mode.Hybrid?;
      }
    }
  }
}
