/** A fixture whose precision a distractor halves. */
module PrecisionFall {
  import opened Strings
  import opened Sorting
  import opened Rounding
  import opened RetrievalMetrics
  import opened SearchScoring
  import opened ContextRetrieval
  import opened DistractorDelta
  import opened DeltaMeaning
  import opened EfficiencyExactness
  import opened EfficiencyRise

  const ONLY_EVIDENCE := Evidence("p", "alpha", "alpha")
  const WEAKER := Distractor("d", Join(["alpha", "beta"], ' '))

  /** One anchor, and a distractor that says the same and more. */
  const FALLING: SearchFixture := SearchFixture("f", "alpha", [ONLY_EVIDENCE], [WEAKER])

  lemma FallingTokens()
    ensures Tokens("alpha") == ["alpha"] && Tokens(EvidenceText(ONLY_EVIDENCE)) == ["alpha"]
  {
    hide Tokens;
    TokensOfWord("p");
    TokensOfWord("alpha");
    TokensApart("p", '\n', "alpha");
  }

  lemma WeakerTokens()
    ensures Tokens(DistractorText(WEAKER)) == ["alpha", "beta"]
  {
    hide Tokens, Join;
    DistractorTokens(WEAKER);
    TokensOfWords(["alpha", "beta"]);
    FilterAll(["alpha", "beta"], LongEnough());
  }

  lemma WeakerVector(root: int -> real)
    requires IsRoot(root)
    ensures 0.0 < VectorScore(root, ["alpha"], ["alpha", "beta"]) <= 1.0
  {
    var words := ["alpha", "beta"];
    VectorScoreBounds(root, ["alpha"], words);
    hide Dot, SquaredNorm, IsRoot;
    Occurs(words);
    NormIsLarge(["alpha"]);
    NormIsLarge(words);
    RootIsPositive(root, SquaredNorm(["alpha"]));
    RootIsPositive(root, SquaredNorm(words));
    ProductIsPositive(root(SquaredNorm(["alpha"])), root(SquaredNorm(words)));
  }

  /** In every mode the distractor scores, and no more than the evidence. */
  lemma FallingScores(root: int -> real, mode: SearchMode)
    requires IsRoot(root)
    ensures 0.0 < Score(root, "alpha", DistractorText(WEAKER), mode)
               <= Score(root, "alpha", EvidenceText(ONLY_EVIDENCE), mode)
  {
    hide Tokens, Occurrences, VectorScore, IsRoot;
    FallingTokens();
    WeakerTokens();
    WeakerVector(root);
    CopiesOfToken(root, ["alpha"], 1);
    Occurs(["alpha", "beta"]);
  }

  lemma TwoAreRanked(e: Candidate, d: Candidate)
    requires e.isEvidence && !d.isEvidence && 0.0 < d.score <= e.score
    ensures Ranking([e]) == [Row(e, 0)] && Ranking([e, d]) == [Row(e, 0), Row(d, 1)]
  {
    SortFixpoint(Rows([e]), ByRank());
    SortFixpoint(Rows([e, d]), ByRank());
    FilterAll(Rows([e]), Positive());
    FilterAll(Rows([e, d]), Positive());
  }

  lemma FallingCandidates(root: int -> real, mode: SearchMode)
    ensures var fx := Scored(root, FALLING);
      && GoldAnchors(fx) == [FileAnchor("p", "alpha")]
      && EvidenceCandidates(fx, mode)
           == [Candidate(FileAnchor("p", "alpha"), true, EvidenceCandidates(fx, mode)[0].score)]
      && DistractorCandidates(fx, mode)
           == [Candidate(NamedAnchor("f", "d"), false, DistractorCandidates(fx, mode)[0].score)]
  {
    hide Score, EvidenceText, DistractorText, FileAnchor, NamedAnchor;
    var fx := Scored(root, FALLING);
    assert fx.id == "f" && fx.evidence[0].path == "p" && fx.evidence[0].text == "alpha" && fx.distractors[0].id == "d";
    assert EvidenceAnchor(fx.evidence[0]) == FileAnchor("p", "alpha");
    assert DistractorAnchor(fx.id, fx.distractors[0]) == NamedAnchor("f", "d");
  }

  lemma FallingRuns(root: int -> real, mode: SearchMode)
    requires IsRoot(root)
    ensures var fx, a, d := Scored(root, FALLING), FileAnchor("p", "alpha"), NamedAnchor("f", "d");
      && a != d && GoldAnchors(fx) == [a]
      && Retrieved(fx, mode, 2, false) == [a] && Retrieved(fx, mode, 2, true) == [a, d]
  {
    hide Score, IsRoot, Ranking, EvidenceText, DistractorText;
    var fx, a, d := Scored(root, FALLING), FileAnchor("p", "alpha"), NamedAnchor("f", "d");
    assert a[0] == 'f' && d[0] == 'd';
    hide FileAnchor, NamedAnchor;
    FallingScores(root, mode);
    FallingCandidates(root, mode);
    EvidenceScores(root, FALLING, mode, 0);
    NoiseScores(root, FALLING, mode, 0);
    CandidatesSplit(fx, mode);
    var e, n := EvidenceCandidates(fx, mode)[0], DistractorCandidates(fx, mode)[0];
    assert [e] + [n] == [e, n] && Noise(root, FALLING, mode) == [n];
    TwoAreRanked(e, n);
    assert Anchors([Row(e, 0), Row(n, 1)]) == [a, d];
  }

  lemma HalfPrecision(a: Anchor, d: Anchor)
    requires a != d
    ensures MetricBlock([a], [a]).recall == 1.0 && MetricBlock([a], [a]).precision == 1.0
    ensures MetricBlock([a], [a, d]).recall == 1.0 && MetricBlock([a], [a, d]).precision == 0.5
  {
    hide Efficiency;
    assert Distinct([a]) == {a} && Distinct([a, d]) == {a, d} && |{a, d}| == 2;
    assert Hits({a}, [a]) == {a} && Hits({a}, [a, d]) == {a};
    assert (1.0 * 10000.0).Floor == 10000 && (0.5 * 10000.0).Floor == 5000;
  }

  /** Budget 2 retrieves the distractor in every mode: recall stays, precision is halved. */
  lemma PrecisionFalls(root: int -> real)
    requires IsRoot(root)
    ensures FixtureDelta(Scored(root, FALLING), 2).recall == 0.0
    ensures FixtureDelta(Scored(root, FALLING), 2).precision == -0.5
  {
    hide MetricBlock, Retrieved, FALLING, IsRoot, Scored, FileAnchor, NamedAnchor, FixtureDelta, GoldAnchors;
    var fx, a, d := Scored(root, FALLING), FileAnchor("p", "alpha"), NamedAnchor("f", "d");
    forall mode ensures RunMetrics(fx, mode, 2, false) == MetricBlock([a], [a])
                     && RunMetrics(fx, mode, 2, true) == MetricBlock([a], [a, d]) && a != d {
      FallingRuns(root, mode);
    }
    assert RunMetrics(fx, Grep, 2, false) == MetricBlock([a], [a]);
    HalfPrecision(a, d);
    hide RunMetrics;
    DeltaIsMeanDifference(fx, 2);
    RoundedHalf();
  }

  lemma RoundedHalf()
    ensures Round4(0.0) == 0.0 && Round4(-0.5) == -0.5
  {
    assert (-0.5 * 10000.0).Floor == -5000 && (0.0 * 10000.0).Floor == 0;
  }
}
