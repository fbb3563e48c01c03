/** A fixture whose efficiency a distractor raises, down to the reported delta, and one that no texts raise. */
module EfficiencyRise {
  import opened Strings
  import opened Sorting
  import opened Rounding
  import opened RetrievalMetrics
  import opened SearchScoring
  import opened ContextRetrieval
  import opened DistractorPlacement
  import opened DistractorEffect
  import opened DistractorGain
  import opened DistractorDelta
  import opened EfficiencyExactness
  import opened DeltaExactness

  const LINE := Join(["s", "t", "alpha", "beta", "gamma", "delta"], ' ')
  const EVIDENCE_S := Evidence("p", "s", LINE)
  const EVIDENCE_T := Evidence("p", "t", LINE)
  const STRONGER := Distractor("d", Join(["alpha", "alpha"], ' '))

  /** Two anchors of one line of the file p, each listed twice, and one stronger distractor. */
  const RISING: SearchFixture :=
    SearchFixture("f", "alpha", [EVIDENCE_S, EVIDENCE_T, EVIDENCE_T, EVIDENCE_S], [STRONGER])

  // ----- Scores -----

  lemma TextTokens()
    ensures Tokens("alpha") == ["alpha"] && Tokens(DistractorText(STRONGER)) == ["alpha", "alpha"]
  {
    hide Tokens, Join;
    TokensOfWord("alpha");
    DistractorTokens(STRONGER);
    TokensOfWords(["alpha", "alpha"]);
    FilterAll(["alpha", "alpha"], LongEnough());
  }

  lemma LineTokens()
    ensures EvidenceText(EVIDENCE_T) == EvidenceText(EVIDENCE_S)
    ensures Tokens(EvidenceText(EVIDENCE_S)) == ["alpha", "beta", "gamma", "delta"]
  {
    hide Tokens, Join;
    TokensOfWord("p");
    TokensApart("p", '\n', LINE);
    TokensOfWords(["s", "t", "alpha", "beta", "gamma", "delta"]);
    LongWords();
  }

  lemma LongWords()
    ensures Filter(["s", "t", "alpha", "beta", "gamma", "delta"], LongEnough()) == ["alpha", "beta", "gamma", "delta"]
  {
    FilterConcat(["s", "t"], ["alpha", "beta", "gamma", "delta"], LongEnough());
    assert ["s", "t"] + ["alpha", "beta", "gamma", "delta"] == ["s", "t", "alpha", "beta", "gamma", "delta"];
    FilterNone(["s", "t"], LongEnough());
    FilterAll(["alpha", "beta", "gamma", "delta"], LongEnough());
  }

  lemma Occurs(words: seq<string>)
    ensures Occurrences(["alpha"], words) == Dot(["alpha"], words) == multiset(words)["alpha"]
  {
    OccurrencesAreDot(["alpha"], words);
    assert ["alpha"][1..] == [];
  }

  lemma Norms()
    ensures SquaredNorm(["alpha"]) == 1 && SquaredNorm(["alpha", "beta", "gamma", "delta"]) == 4
  {
    hide Dot;
    Occurs(["alpha"]);
    var four := ["alpha", "beta", "gamma", "delta"];
    OccurrencesAreDot(four, four);
    SumOfEqual(four, CountIn(four), 1);
  }

  lemma {:induction false} SumOfEqual(words: seq<string>, f: string -> int, v: int)
    requires forall w | w in words :: f(w) == v
    ensures SumOver(words, f) == v * |words|
  {
    if words != [] {
      assert words[0] in words;
      SumOfEqual(words[1..], f, v);
    }
  }

  lemma Roots(root: int -> real)
    requires IsRoot(root)
    ensures root(1) == 1.0 && root(4) == 2.0
  {
    RootOrder(root(1), 1.0);
    RootOrder(1.0, root(1));
    RootOrder(root(4), 2.0);
    RootOrder(2.0, root(4));
  }

  /** A text of n times the one question token. */
  lemma CopiesOfToken(root: int -> real, words: seq<string>, n: nat)
    requires IsRoot(root) && n > 0 && |words| == n && forall w | w in words :: w == "alpha"
    ensures ScoreOfWords(root, ["alpha"], words, Grep) == n as real
    ensures ScoreOfWords(root, ["alpha"], words, Vector) == 1.0
    ensures ScoreOfWords(root, ["alpha"], words, Hybrid) == n as real + 1.0
  {
    hide Dot, IsRoot, VectorScore;
    CountOfEqual(words, "alpha");
    Occurs(words);
    Norms();
    OccurrencesAreDot(words, words);
    assert SquaredNorm(words) == n * n by {
      SumOfEqual(words, CountIn(words), n);
    }
    ScaledVectorScore(root, ["alpha"], words, n);
  }

  lemma {:induction false} CountOfEqual(words: seq<string>, a: string)
    requires forall w | w in words :: w == a
    ensures multiset(words)[a] == |words|
  {
    if words != [] {
      assert words == [words[0]] + words[1..] && words[0] in words;
      forall w | w in words[1..] ensures w == a {
        assert w in words;
      }
      CountOfEqual(words[1..], a);
    }
  }

  function EvidenceScore(mode: SearchMode): real {
    match mode
    case Grep => 1.0
    case Vector => 0.5
    case Hybrid => 1.5
  }

  function StrongerScore(mode: SearchMode): real {
    match mode
    case Grep => 2.0
    case Vector => 1.0
    case Hybrid => 3.0
  }

  lemma RisingScores(root: int -> real, mode: SearchMode)
    requires IsRoot(root)
    ensures Score(root, "alpha", EvidenceText(EVIDENCE_S), mode) == EvidenceScore(mode)
    ensures Score(root, "alpha", EvidenceText(EVIDENCE_T), mode) == EvidenceScore(mode)
    ensures Score(root, "alpha", DistractorText(STRONGER), mode) == StrongerScore(mode)
  {
    hide Tokens, IsRoot, ScoreOfWords, EvidenceText, DistractorText;
    TextTokens();
    LineTokens();
    OneInFour(root, mode);
    CopiesOfToken(root, ["alpha", "alpha"], 2);
  }

  lemma OneInFour(root: int -> real, mode: SearchMode)
    requires IsRoot(root)
    ensures ScoreOfWords(root, ["alpha"], ["alpha", "beta", "gamma", "delta"], mode) == EvidenceScore(mode)
  {
    hide Occurrences, Dot, SquaredNorm, IsRoot;
    Norms();
    Roots(root);
    Occurs(["alpha", "beta", "gamma", "delta"]);
  }

  // ----- Rankings -----

  function Mirrored(a: Anchor, b: Anchor, x: real, y: real): seq<Candidate> {
    [Candidate(a, true, x), Candidate(b, true, y), Candidate(b, true, y), Candidate(a, true, x)]
  }

  function Repeating(a: Anchor, b: Anchor, score: real): seq<Candidate> {
    Mirrored(a, b, score, score)
  }

  lemma RepeatingIsRanked(a: Anchor, b: Anchor, score: real)
    requires score > 0.0
    ensures Ranking(Repeating(a, b, score)) == Rows(Repeating(a, b, score))
  {
    SortFixpoint(Rows(Repeating(a, b, score)), ByRank());
    FilterAll(Rows(Repeating(a, b, score)), Positive());
  }

  /** The four rows are worth 7/12 where they stand, and 9/12 one place further back. */
  lemma WorthOfRepeating(a: Anchor, b: Anchor, score: real)
    requires a != b
    ensures var rows := Rows(Repeating(a, b, score));
      MovedWorth(rows, [0, 0, 0, 0], 4) == 7.0 / 12.0 && MovedWorth(rows, [1, 1, 1, 1], 4) == 9.0 / 12.0
  {
    var rows := Rows(Repeating(a, b, score));
    assert [1, 1, 1, 1][..3] == [1, 1, 1];
    assert Survivors([0, 0, 0, 0], 4) == 4 && Survivors([1, 1, 1, 1], 4) == 3;
    assert AnchorAt(rows, 0) == a && AnchorAt(rows, 1) == b && AnchorAt(rows, 2) == b && AnchorAt(rows, 3) == a;
    assert !LastOf(rows, 4, 0) && !LastOf(rows, 4, 1) && LastOf(rows, 4, 2) && LastOf(rows, 4, 3);
    assert LastOf(rows, 3, 0) && !LastOf(rows, 3, 1) && LastOf(rows, 3, 2);
    hide LastOf, Rows;
    FourWorths(rows, [0, 0, 0, 0], 4);
    FourWorths(rows, [1, 1, 1, 1], 3);
  }

  lemma FourWorths(rows: seq<Row>, d: seq<nat>, n: nat)
    requires 3 <= n <= 4 == |rows| == |d|
    ensures Worth(rows, n, d, 3)
         == (if LastOf(rows, n, 0) then 1.0 / (1 + d[0]) as real else 0.0)
          + (if LastOf(rows, n, 1) then 1.0 / (2 + d[1]) as real else 0.0)
          + (if LastOf(rows, n, 2) then 1.0 / (3 + d[2]) as real else 0.0)
    ensures n == 4 ==>
      Worth(rows, n, d, 4) == Worth(rows, n, d, 3) + if LastOf(rows, n, 3) then 1.0 / (4 + d[3]) as real else 0.0
  {
    hide LastOf;
    assert Worth(rows, n, d, 1) == Worth(rows, n, d, 0) + if LastOf(rows, n, 0) then 1.0 / (1 + d[0]) as real else 0.0;
    assert Worth(rows, n, d, 2) == Worth(rows, n, d, 1) + if LastOf(rows, n, 1) then 1.0 / (2 + d[1]) as real else 0.0;
  }

  /** Shares of the two anchors. */
  lemma RoundedEfficiencies()
    ensures Round4(7.0 / 12.0 / 2.0) == 0.2917 && Round4(9.0 / 12.0 / 2.0) == 0.375
  {
    assert (7.0 / 12.0 / 2.0 * 10000.0).Floor == 2916 && (9.0 / 12.0 / 2.0 * 10000.0).Floor == 3750;
  }

  lemma RisingCandidates(root: int -> real, mode: SearchMode)
    requires IsRoot(root)
    ensures EvidenceCandidates(Scored(root, RISING), mode)
         == Repeating(FileAnchor("p", "s"), FileAnchor("p", "t"), EvidenceScore(mode))
    ensures var noise := Noise(root, RISING, mode); |noise| == 1 && noise[0].score == StrongerScore(mode)
  {
    hide Score, IsRoot, FileAnchor, EvidenceText;
    var scored := Scored(root, RISING);
    RisingScores(root, mode);
    NoiseScores(root, RISING, mode, 0);
    assert forall i | 0 <= i < 4 :: scored.evidence[i].score(mode) == EvidenceScore(mode);
  }

  lemma RisingGold(root: int -> real)
    ensures var a, b := FileAnchor("p", "s"), FileAnchor("p", "t"); a != b && Gold(root, RISING) == {a, b}
  {
    hide Score, EvidenceText;
    var a, b := FileAnchor("p", "s"), FileAnchor("p", "t");
    assert a == "file:" + "p" + ":" + "s" && b == "file:" + "p" + ":" + "t";
    assert a[7] == 's' && b[7] == 't';
    hide FileAnchor;
    assert GoldAnchors(Scored(root, RISING)) == [a, b, b, a];
  }

  /** The distractor moves all four rows by one place. */
  lemma RisingShifts(root: int -> real, mode: SearchMode)
    requires IsRoot(root)
    ensures var rows := EvidenceRanking(root, RISING, mode);
      && rows == Rows(Repeating(FileAnchor("p", "s"), FileAnchor("p", "t"), EvidenceScore(mode)))
      && Shifts(rows, []) == [0, 0, 0, 0] && Shifts(rows, Noise(root, RISING, mode)) == [1, 1, 1, 1]
  {
    hide IsRoot, Scored, EvidenceCandidates, Noise, Ranking, FileAnchor;
    var score, noise := EvidenceScore(mode), Noise(root, RISING, mode);
    RisingCandidates(root, mode);
    RepeatingIsRanked(FileAnchor("p", "s"), FileAnchor("p", "t"), score);
    AllAhead(noise, StrongerScore(mode), score);
  }

  lemma RisingWorth(root: int -> real, mode: SearchMode)
    requires IsRoot(root)
    ensures RunEfficiency(root, RISING, mode, 4, false) == 7.0 / 12.0 / 2.0
    ensures RunEfficiency(root, RISING, mode, 4, true) == 9.0 / 12.0 / 2.0
  {
    hide IsRoot, FileAnchor, Noise, Gold, MovedWorth, RunEfficiency, EvidenceRanking, Shifts, Repeating, Rows, RISING;
    RisingGold(root);
    RisingShifts(root, mode);
    WorthOfRepeating(FileAnchor("p", "s"), FileAnchor("p", "t"), EvidenceScore(mode));
    RunIsMovedWorth(root, RISING, mode, 4, false);
    RunIsMovedWorth(root, RISING, mode, 4, true);
  }

  /** In every mode the distractor raises the efficiency that a run with budget 4 reports. */
  lemma RunCanRise(root: int -> real, mode: SearchMode)
    requires IsRoot(root)
    ensures RunMetrics(Scored(root, RISING), mode, 4, false).efficiency == 0.2917
    ensures RunMetrics(Scored(root, RISING), mode, 4, true).efficiency == 0.375
  {
    hide IsRoot, RunMetrics, RISING, RunEfficiency, Round4, Scored;
    RisingWorth(root, mode);
    ReportedIsRounded(root, RISING, mode, 4, false);
    ReportedIsRounded(root, RISING, mode, 4, true);
    RoundedEfficiencies();
  }

  lemma {:induction false} TotalOfEqual(values: seq<real>, v: real)
    requires forall i | 0 <= i < |values| :: values[i] == v
    ensures Sum(values) == |values| as real * v
  {
    if values != [] {
      TotalOfEqual(values[1..], v);
      assert |values| as real == |values[1..]| as real + 1.0;
    }
  }

  lemma MeanOfEqual(values: seq<real>, v: real)
    requires values != [] && forall i | 0 <= i < |values| :: values[i] == v
    ensures Mean(values) == v
  {
    TotalOfEqual(values, v);
    hide Sum;
  }

  /** So the efficiency delta of the fixture is positive. */
  lemma EfficiencyCanRise(root: int -> real)
    requires IsRoot(root)
    ensures FixtureDelta(Scored(root, RISING), 4).efficiency == 0.0833
  {
    hide RunMetrics, Mean, Round4, RISING, Scored, IsRoot;
    var scored := Scored(root, RISING);
    forall mode ensures RunMetrics(scored, mode, 4, false).efficiency == 0.2917
                     && RunMetrics(scored, mode, 4, true).efficiency == 0.375 {
      RunCanRise(root, mode);
    }
    MeanOfEqual(EfficienciesOf(Runs(scored, 4, true)), 0.375);
    MeanOfEqual(EfficienciesOf(Runs(scored, 4, false)), 0.2917);
    RoundsToItself();
  }

  lemma RoundsToItself()
    ensures Round4(0.0833) == 0.0833
  {
    assert (0.0833 * 10000.0).Floor == 833;
  }

  // ----- A fixture that no texts raise -----

  const EVIDENCE_U := Evidence("alpha", "alpha", "alpha")
  const EVIDENCE_V := Evidence("alpha", "alpha alpha", Join(["alpha", "alpha", "alpha"], ' '))

  /** The same order of listing, but the vector scores are 1 already and the others put equal anchors together. */
  const SATURATED: SearchFixture :=
    SearchFixture("g", "alpha", [EVIDENCE_U, EVIDENCE_V, EVIDENCE_V, EVIDENCE_U], [])

  lemma SaturatedTokens()
    ensures Tokens("alpha") == ["alpha"]
    ensures Tokens(EvidenceText(EVIDENCE_U)) == ["alpha", "alpha"]
    ensures Tokens(EvidenceText(EVIDENCE_V)) == ["alpha", "alpha", "alpha", "alpha"]
  {
    hide Tokens, Join;
    TokensOfWords(["alpha", "alpha", "alpha"]);
    TokensOfWord("alpha");
    TokensApart("alpha", '\n', EVIDENCE_U.snippet);
    TokensApart("alpha", '\n', EVIDENCE_V.snippet);
    FilterAll(["alpha"], LongEnough());
    FilterAll(["alpha", "alpha", "alpha"], LongEnough());
  }

  lemma SaturatedScores(root: int -> real, mode: SearchMode)
    requires IsRoot(root)
    ensures var u, v := Score(root, "alpha", EvidenceText(EVIDENCE_U), mode),
                        Score(root, "alpha", EvidenceText(EVIDENCE_V), mode);
      if mode == Vector then u == v == 1.0 else u != v
  {
    hide Tokens, ScoreOfWords;
    SaturatedTokens();
    CopiesOfToken(root, ["alpha", "alpha"], 2);
    CopiesOfToken(root, ["alpha", "alpha", "alpha", "alpha"], 4);
  }

  lemma SaturatedCandidates(root: int -> real, mode: SearchMode)
    ensures EvidenceCandidates(Scored(root, SATURATED), mode)
         == Mirrored(FileAnchor("alpha", "alpha"), FileAnchor("alpha", "alpha alpha"),
              Score(root, "alpha", EvidenceText(EVIDENCE_U), mode),
              Score(root, "alpha", EvidenceText(EVIDENCE_V), mode))
  {
    hide Score, EvidenceText, FileAnchor, Scored, EvidenceCandidates;
    EvidenceScores(root, SATURATED, mode, 0);
    EvidenceScores(root, SATURATED, mode, 1);
    EvidenceScores(root, SATURATED, mode, 2);
    EvidenceScores(root, SATURATED, mode, 3);
  }

  lemma SaturatedAnchors()
    ensures FileAnchor("alpha", "alpha") != FileAnchor("alpha", "alpha alpha")
  {
    assert |FileAnchor("alpha", "alpha")| < |FileAnchor("alpha", "alpha alpha")|;
  }

  lemma MirroredTell(a: Anchor, b: Anchor, x: real, y: real)
    requires a != b && x != y
    ensures InBlocks(Ranking(Mirrored(a, b, x, y)))
  {
    hide InBlocks, Ranking;
    forall c, d | c in Mirrored(a, b, x, y) && d in Mirrored(a, b, x, y)
      ensures c.score == d.score <==> c.anchor == d.anchor
    {
      assert c == Candidate(a, true, x) || c == Candidate(b, true, y);
      assert d == Candidate(a, true, x) || d == Candidate(b, true, y);
    }
    ScoresTellAnchors(Mirrored(a, b, x, y));
  }

  lemma SaturatedHasNoGain(root: int -> real, mode: SearchMode)
    requires IsRoot(root)
    ensures NoGain(mode, EvidenceRanking(root, SATURATED, mode))
  {
    hide Score, IsRoot, EvidenceText, Ranking, InBlocks, FileAnchor, EvidenceCandidates, Scored, NoGain;
    var es, rows := EvidenceCandidates(Scored(root, SATURATED), mode), EvidenceRanking(root, SATURATED, mode);
    SaturatedScores(root, mode);
    SaturatedCandidates(root, mode);
    SaturatedAnchors();
    if mode == Vector {
      RankingFacts(es);
      forall n: nat | n < |rows| ensures !Pushable(mode, rows, n) {
        assert rows[n] in rows && rows[n].candidate in es;
      }
      NothingPushable(mode, rows);
    } else {
      MirroredTell(es[0].anchor, es[1].anchor, es[0].score, es[1].score);
      BlocksNeverGain(root, SATURATED, mode);
    }
  }

  lemma NothingPushable(mode: SearchMode, rows: seq<Row>)
    requires forall n: nat | n < |rows| :: !Pushable(mode, rows, n)
    ensures NoGain(mode, rows)
  {}

  /** Whatever the distractor texts and the budget, the efficiency delta of this fixture is not positive. */
  lemma SaturatedNeverRises(root: int -> real, ds: seq<Distractor>, b: nat)
    requires IsRoot(root) && b >= 1
    ensures FixtureDelta(Scored(root, With(SATURATED, ds)), b).efficiency <= 0.0
  {
    hide NoGain, EvidenceRanking, FixtureDelta;
    forall mode ensures NoGain(mode, EvidenceRanking(root, SATURATED, mode)) {
      SaturatedHasNoGain(root, mode);
    }
    RunsWithoutGain(root, SATURATED, ds, b);
  }
}
