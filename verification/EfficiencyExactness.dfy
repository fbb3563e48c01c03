/** Exactly when no distractor texts raise the efficiency of a run, rounded or not, in one budget or in any. */
module EfficiencyExactness {
  import opened Sorting
  import opened Rounding
  import opened RetrievalMetrics
  import opened SearchScoring
  import opened ContextRetrieval
  import opened DistractorPlacement
  import opened DistractorEffect
  import opened DistractorGain
  import opened DistractorDelta

  function With(fx: SearchFixture, distractors: seq<Distractor>): SearchFixture {
    fx.(distractors := distractors)
  }

  function EvidenceRanking(root: int -> real, fx: SearchFixture, mode: SearchMode): seq<Row> {
    Ranking(EvidenceCandidates(Scored(root, fx), mode))
  }

  /** The distractors of a fixture as candidates of a mode. */
  function Noise(root: int -> real, fx: SearchFixture, mode: SearchMode): seq<Candidate> {
    DistractorCandidates(Scored(root, fx), mode)
  }

  function Gold(root: int -> real, fx: SearchFixture): set<Anchor> {
    Distinct(GoldAnchors(Scored(root, fx)))
  }

  /** The efficiency of a run before rounding. */
  function RunEfficiency(root: int -> real, fx: SearchFixture, mode: SearchMode, b: nat, noisy: bool): real {
    Efficiency(Gold(root, fx), Retrieved(Scored(root, fx), mode, b, noisy))
  }

  function Shared(gold: set<Anchor>, worth: real): real {
    if gold == {} then 1.0 else worth / |gold| as real
  }

  /** The efficiency of a run whose budget b keeps n evidence rows at the least loss. */
  function Value(root: int -> real, fx: SearchFixture, mode: SearchMode, n: nat, b: nat): real
    requires n <= Reach(EvidenceRanking(root, fx, mode), b)
  {
    Shared(Gold(root, fx), Kept(EvidenceRanking(root, fx, mode), n, b))
  }

  /** The value without distractors. */
  function CleanValue(root: int -> real, fx: SearchFixture, mode: SearchMode, b: nat): real {
    Value(root, fx, mode, Reach(EvidenceRanking(root, fx, mode), b), b)
  }

  // ----- Runs are worth what their rows are -----

  lemma EvidenceIsGold(fx: ScoredFixture, mode: SearchMode)
    ensures Golden(EvidenceCandidates(fx, mode), DistractorCandidates(fx, mode), Distinct(GoldAnchors(fx)))
    ensures Golden(EvidenceCandidates(fx, mode), [], Distinct(GoldAnchors(fx)))
  {
    var es, ds := EvidenceCandidates(fx, mode), DistractorCandidates(fx, mode);
    FixtureIsSeparate(fx, mode);
    hide EvidenceCandidates, DistractorCandidates, GoldAnchors, Distinct;
    forall c | c in es || c in ds ensures c.anchor in Distinct(GoldAnchors(fx)) <==> c in es {
      GoldIsEvidence(fx, mode, c.anchor);
    }
  }

  lemma ShareOfPositions(gold: set<Anchor>, retrieved: seq<Anchor>)
    ensures Efficiency(gold, retrieved) == Shared(gold, PositionSum(retrieved, gold, |retrieved|))
  {
    hide PositionSum;
    if gold != {} {
      EfficiencyByPosition(gold, retrieved);
      hide Efficiency;
    }
  }

  /** The distractors that enter a run. */
  function Entering(root: int -> real, fx: SearchFixture, mode: SearchMode, noisy: bool): seq<Candidate> {
    if noisy then Noise(root, fx, mode) else []
  }

  /** The efficiency of a run is given by how far its distractors move each row of the evidence ranking. */
  lemma RunIsMovedWorth(root: int -> real, fx: SearchFixture, mode: SearchMode, b: nat, noisy: bool)
    ensures var rows := EvidenceRanking(root, fx, mode);
      RunEfficiency(root, fx, mode, b, noisy)
        == Shared(Gold(root, fx), MovedWorth(rows, Shifts(rows, Entering(root, fx, mode, noisy)), b))
  {
    hide Efficiency, Ranking, MovedWorth, Shifts, Scored, EvidenceCandidates, DistractorCandidates, GoldAnchors,
      Distinct, Anchors, Take, PositionSum, Golden, Shared, Candidates;
    var scored := Scored(root, fx);
    var es, ds := EvidenceCandidates(scored, mode), Entering(root, fx, mode, noisy);
    CandidatesSplit(scored, mode);
    EvidenceIsGold(scored, mode);
    assert es + [] == es;
    RunWorth(es, ds, Gold(root, fx), b);
    ShareOfPositions(Gold(root, fx), Retrieved(scored, mode, b, noisy));
  }

  lemma ShareOrder(gold: set<Anchor>, x: real, y: real)
    requires x <= y
    ensures Shared(gold, x) <= Shared(gold, y)
  {
    if gold != {} {
      Share(x, y, |gold|);
    }
  }

  lemma CleanRunIsKept(root: int -> real, fx: SearchFixture, mode: SearchMode, b: nat)
    ensures RunEfficiency(root, fx, mode, b, false) == CleanValue(root, fx, mode, b)
  {
    hide RunEfficiency, MovedWorth, Shifts, Shared, Gold, EvidenceRanking, Kept, Reach;
    RunIsMovedWorth(root, fx, mode, b, false);
    NothingMoves(EvidenceRanking(root, fx, mode), b);
  }

  /** The evidence ranking and the gold anchors do not depend on the distractors. */
  lemma WithKeeps(root: int -> real, fx: SearchFixture, ds: seq<Distractor>, mode: SearchMode)
    ensures EvidenceRanking(root, With(fx, ds), mode) == EvidenceRanking(root, fx, mode)
    ensures Gold(root, With(fx, ds)) == Gold(root, fx)
  {
    assert Scored(root, With(fx, ds)).evidence == Scored(root, fx).evidence;
    assert EvidenceCandidates(Scored(root, With(fx, ds)), mode) == EvidenceCandidates(Scored(root, fx), mode);
    assert GoldAnchors(Scored(root, With(fx, ds))) == GoldAnchors(Scored(root, fx));
    hide Ranking, Distinct;
  }

  lemma EvidenceIsSorted(root: int -> real, fx: SearchFixture, mode: SearchMode)
    ensures Sorted(EvidenceRanking(root, fx, mode), ByRank())
  {
    RankingFacts(EvidenceCandidates(Scored(root, fx), mode));
    hide Ranking;
  }

  // ----- Which rows distractors can get ahead of -----

  /** No vector score exceeds 1; in the other modes a text can score more than any given one. */
  predicate Pushable(mode: SearchMode, rows: seq<Row>, n: nat)
    requires n < |rows|
  {
    mode == Vector ==> ScoreAt(rows, n) < 1.0
  }

  lemma NoiseScores(root: int -> real, fx: SearchFixture, mode: SearchMode, k: nat)
    requires k < |fx.distractors|
    ensures |Noise(root, fx, mode)| == |fx.distractors|
    ensures Noise(root, fx, mode)[k].score == Score(root, fx.question, DistractorText(fx.distractors[k]), mode)
  {
    hide Score, DistractorText;
    assert Scored(root, fx).distractors[k].score
        == ScoreOf(root, fx.question, DistractorText(fx.distractors[k]));
  }

  lemma EvidenceScores(root: int -> real, fx: SearchFixture, mode: SearchMode, i: nat)
    requires i < |fx.evidence|
    ensures |EvidenceCandidates(Scored(root, fx), mode)| == |fx.evidence|
    ensures EvidenceCandidates(Scored(root, fx), mode)[i]
         == Candidate(FileAnchor(fx.evidence[i].path, fx.evidence[i].text), true,
              Score(root, fx.question, EvidenceText(fx.evidence[i]), mode))
  {
    hide Score, EvidenceText, FileAnchor;
    var e, score := fx.evidence[i], ScoreOf(root, fx.question, EvidenceText(fx.evidence[i]));
    assert Scored(root, fx).evidence[i] == EvidenceItem(e.path, e.text, score);
    assert score(mode) == Score(root, fx.question, EvidenceText(e), mode);
  }

  lemma AheadIsPushable(root: int -> real, fx: SearchFixture, mode: SearchMode, n: nat)
    requires IsRoot(root) && n < |EvidenceRanking(root, fx, mode)|
    requires Ahead(Noise(root, fx, mode), ScoreAt(EvidenceRanking(root, fx, mode), n)) > 0
    ensures Pushable(mode, EvidenceRanking(root, fx, mode), n)
  {
    hide EvidenceRanking, Ahead, Score, IsRoot;
    var ds := Noise(root, fx, mode);
    SomeoneAhead(ds, ScoreAt(EvidenceRanking(root, fx, mode), n));
    var k :| 0 <= k < |ds| && ds[k].score > ScoreAt(EvidenceRanking(root, fx, mode), n);
    NoiseScores(root, fx, mode, k);
    VectorIsAtMostOne(root, fx.question, DistractorText(fx.distractors[k]));
  }

  lemma VectorIsAtMostOne(root: int -> real, question: string, text: string)
    requires IsRoot(root)
    ensures Score(root, question, text, Vector) <= 1.0
  {
    hide Tokens, VectorScore;
    VectorScoreBounds(root, Tokens(question), Tokens(text));
  }

  /** A distractor with the text of a candidate has the candidate's score in every mode. */
  lemma SameText(root: int -> real, question: string, id: string, text: string, mode: SearchMode)
    ensures Score(root, question, DistractorText(Distractor(id, text)), mode) == Score(root, question, text, mode)
  {
    hide Tokens, ScoreOfWords;
    DistractorTokens(Distractor(id, text));
  }

  lemma DistractorTokens(d: Distractor)
    ensures Tokens(DistractorText(d)) == Tokens(d.text)
  {
    hide Tokens;
    NoTokens();
    TokensApart("", '\n', d.text);
    assert [] + Tokens(d.text) == Tokens(d.text);
  }

  /** Every row of the evidence ranking has the score of some evidence text. */
  lemma RowHasText(root: int -> real, fx: SearchFixture, mode: SearchMode, i: nat) returns (text: string)
    requires i < |EvidenceRanking(root, fx, mode)|
    ensures Score(root, fx.question, text, mode) == ScoreAt(EvidenceRanking(root, fx, mode), i) > 0.0
  {
    hide Score, Ranking;
    var rows, es := EvidenceRanking(root, fx, mode), EvidenceCandidates(Scored(root, fx), mode);
    RankingFacts(es);
    assert rows[i] in rows;
    var k :| 0 <= k < |es| && es[k] == rows[i].candidate;
    text := EvidenceText(fx.evidence[k]);
    EvidenceScores(root, fx, mode, k);
  }

  lemma ScoringNeedsTokens(root: int -> real, question: string, text: string, mode: SearchMode)
    requires Score(root, question, text, mode) > 0.0
    ensures Tokens(question) != []
  {
    hide Tokens;
  }

  /** A text that scores more than row n and no more than the rows before its score group. */
  lemma PushingText(root: int -> real, fx: SearchFixture, mode: SearchMode, n: nat) returns (text: string)
    requires IsRoot(root) && n < |EvidenceRanking(root, fx, mode)|
    requires Pushable(mode, EvidenceRanking(root, fx, mode), n)
    ensures var rows := EvidenceRanking(root, fx, mode);
      var t, s := GroupStart(rows, n, n), Score(root, fx.question, text, mode);
      ScoreAt(rows, n) < s && (t > 0 ==> s <= ScoreAt(rows, t - 1))
  {
    hide EvidenceRanking, IsRoot, Tokens, Score;
    var rows := EvidenceRanking(root, fx, mode);
    EvidenceIsSorted(root, fx, mode);
    var t := GroupStart(rows, n, n);
    if t > 0 {
      text := RowHasText(root, fx, mode, t - 1);
      assert ByRank()(rows[t - 1], rows[n]);
    } else {
      var own := RowHasText(root, fx, mode, n);
      ScoringNeedsTokens(root, fx.question, own, mode);
      var k := ScoreAt(rows, n).Floor + 1;
      text := Repeated(fx.question, k);
      QuestionScores(root, fx.question, k, mode);
    }
  }

  lemma QuestionScores(root: int -> real, question: string, k: nat, mode: SearchMode)
    requires IsRoot(root) && k > 0 && Tokens(question) != []
    ensures Score(root, question, Repeated(question, k), mode) >= if mode == Vector then 1.0 else k as real
  {
    hide Tokens, ScoreOfWords;
    RepeatedScores(root, question, k);
  }

  // ----- What a run can be worth -----

  /** A run is worth at most what some number of kept rows is worth, and only pushable rows are lost. */
  lemma NoisyRunIsBounded(root: int -> real, fx: SearchFixture, mode: SearchMode, b: nat) returns (n: nat)
    requires IsRoot(root)
    ensures n <= Reach(EvidenceRanking(root, fx, mode), b)
    ensures RunEfficiency(root, fx, mode, b, true) <= Value(root, fx, mode, n, b)
    ensures n < Reach(EvidenceRanking(root, fx, mode), b) ==> Pushable(mode, EvidenceRanking(root, fx, mode), n)
  {
    var rows, ds := EvidenceRanking(root, fx, mode), Noise(root, fx, mode);
    EvidenceIsSorted(root, fx, mode);
    hide RunEfficiency, MovedWorth, Shifts, Shared, Gold, EvidenceRanking, Kept, Noise, Ahead, IsRoot;
    RunIsMovedWorth(root, fx, mode, b, true);
    n := KeptBounds(rows, ds, b);
    ShareOrder(Gold(root, fx), MovedWorth(rows, Shifts(rows, ds), b), Kept(rows, n, b));
    if n < Reach(rows, b) {
      AheadIsPushable(root, fx, mode, n);
    }
  }

  /** What n kept rows are worth is reached when row n is pushable. */
  lemma ValueIsReached(root: int -> real, fx: SearchFixture, mode: SearchMode, n: nat, b: nat)
    returns (ds: seq<Distractor>)
    requires IsRoot(root) && n < Reach(EvidenceRanking(root, fx, mode), b)
    requires Pushable(mode, EvidenceRanking(root, fx, mode), n)
    ensures RunEfficiency(root, With(fx, ds), mode, b, true) == Value(root, fx, mode, n, b)
  {
    var rows := EvidenceRanking(root, fx, mode);
    EvidenceIsSorted(root, fx, mode);
    hide RunEfficiency, MovedWorth, Shifts, Shared, Gold, EvidenceRanking, Kept, Noise, Ahead, IsRoot, Score,
      GroupStart;
    var text := PushingText(root, fx, mode, n);
    ds := seq(b - n, _ => Distractor("push", text));
    var noise := Noise(root, With(fx, ds), mode);
    CopiesScore(root, fx, text, b - n, mode);
    WithKeeps(root, fx, ds, mode);
    RunIsMovedWorth(root, With(fx, ds), mode, b, true);
    KeptIsReached(rows, noise, Score(root, fx.question, text, mode), n, b);
  }

  lemma CopiesScore(root: int -> real, fx: SearchFixture, text: string, k: nat, mode: SearchMode)
    ensures var noise := Noise(root, With(fx, seq(k, _ => Distractor("push", text))), mode);
      |noise| == k && forall d | d in noise :: d.score == Score(root, fx.question, text, mode)
  {
    hide Score, DistractorText;
    var copies := seq(k, _ => Distractor("push", text));
    var noise := Noise(root, With(fx, copies), mode);
    assert |noise| == k;
    SameText(root, fx.question, "push", text, mode);
    forall i | 0 <= i < k ensures noise[i].score == Score(root, fx.question, text, mode) {
      NoiseScores(root, With(fx, copies), mode, i);
    }
  }

  // ----- Exactly when a run never gains in a budget -----

  /** Losing row n of those that budget b reaches is worth no more than losing none, for every row that can be lost. */
  ghost predicate NoGainIn(mode: SearchMode, rows: seq<Row>, b: nat) {
    forall n: nat | n < Reach(rows, b) && Pushable(mode, rows, n) :: Kept(rows, n, b) <= Kept(rows, Reach(rows, b), b)
  }

  ghost predicate RunNeverRisesIn(root: int -> real, fx: SearchFixture, mode: SearchMode, b: nat) {
    forall ds: seq<Distractor> ::
      RunEfficiency(root, With(fx, ds), mode, b, true) <= RunEfficiency(root, fx, mode, b, false)
  }

  lemma GoldIsNotEmpty(root: int -> real, fx: SearchFixture, mode: SearchMode)
    requires EvidenceRanking(root, fx, mode) != []
    ensures Gold(root, fx) != {}
  {
    var scored, rows := Scored(root, fx), EvidenceRanking(root, fx, mode);
    RankingFacts(EvidenceCandidates(scored, mode));
    hide Ranking, Distinct, GoldAnchors, EvidenceCandidates;
    assert rows[0] in rows;
    GoldIsEvidence(scored, mode, rows[0].candidate.anchor);
  }

  lemma ValueOrder(root: int -> real, fx: SearchFixture, mode: SearchMode, n: nat, m: nat, b: nat)
    requires n < m <= Reach(EvidenceRanking(root, fx, mode), b)
    ensures Value(root, fx, mode, n, b) <= Value(root, fx, mode, m, b)
      <==> Kept(EvidenceRanking(root, fx, mode), n, b) <= Kept(EvidenceRanking(root, fx, mode), m, b)
  {
    hide EvidenceRanking, Gold, Kept;
    var rows := EvidenceRanking(root, fx, mode);
    GoldIsNotEmpty(root, fx, mode);
    QuotientOrder(Kept(rows, n, b), Kept(rows, m, b), |Gold(root, fx)|);
  }

  lemma QuotientOrder(x: real, y: real, d: nat)
    requires d > 0
    ensures x / d as real <= y / d as real <==> x <= y
  {
    assert x / d as real * d as real == x && y / d as real * d as real == y;
  }

  /**
   No distractor texts raise the efficiency of a run in budget b exactly when no row that can be pushed out
   of the budget is worth losing.
   */
  lemma EfficiencyNeverRisesExactly(root: int -> real, fx: SearchFixture, mode: SearchMode, b: nat)
    requires IsRoot(root)
    ensures RunNeverRisesIn(root, fx, mode, b) <==> NoGainIn(mode, EvidenceRanking(root, fx, mode), b)
  {
    hide EvidenceRanking, Gold, RunEfficiency, Value, Kept, With, Pushable, IsRoot, Reach;
    var rows := EvidenceRanking(root, fx, mode);
    var reach := Reach(rows, b);
    CleanRunIsKept(root, fx, mode, b);
    if RunNeverRisesIn(root, fx, mode, b) {
      forall n: nat | n < reach && Pushable(mode, rows, n) ensures Kept(rows, n, b) <= Kept(rows, reach, b) {
        var ds := ValueIsReached(root, fx, mode, n, b);
        ValueOrder(root, fx, mode, n, reach, b);
      }
    }
    if NoGainIn(mode, rows, b) {
      forall ds: seq<Distractor>
        ensures RunEfficiency(root, With(fx, ds), mode, b, true) <= RunEfficiency(root, fx, mode, b, false)
      {
        var n := AnyRunIsBounded(root, fx, ds, mode, b);
        if n < reach {
          ValueOrder(root, fx, mode, n, reach, b);
        }
      }
    }
  }

  /** The bound with the distractors exchanged. */
  lemma AnyRunIsBounded(root: int -> real, fx: SearchFixture, ds: seq<Distractor>, mode: SearchMode, b: nat)
    returns (n: nat)
    requires IsRoot(root)
    ensures n <= Reach(EvidenceRanking(root, fx, mode), b)
    ensures RunEfficiency(root, With(fx, ds), mode, b, true) <= Value(root, fx, mode, n, b)
    ensures n < Reach(EvidenceRanking(root, fx, mode), b) ==> Pushable(mode, EvidenceRanking(root, fx, mode), n)
  {
    hide EvidenceRanking, Gold, RunEfficiency, Kept, Pushable, IsRoot, Reach, With;
    WithKeeps(root, fx, ds, mode);
    n := NoisyRunIsBounded(root, With(fx, ds), mode, b);
  }

  // ----- In any budget -----

  /** The condition for all budgets: only those within the evidence ranking matter. */
  ghost predicate NoGain(mode: SearchMode, rows: seq<Row>) {
    forall n: nat, b: nat | n < b <= |rows| && Pushable(mode, rows, n) :: Kept(rows, n, b) <= Kept(rows, b, b)
  }

  ghost predicate RunNeverRises(root: int -> real, fx: SearchFixture, mode: SearchMode) {
    forall b: nat | b >= 1 :: RunNeverRisesIn(root, fx, mode, b)
  }

  lemma NoGainInAnyBudget(mode: SearchMode, rows: seq<Row>)
    ensures NoGain(mode, rows) <==> forall b: nat | b >= 1 :: NoGainIn(mode, rows, b)
  {
    hide Kept, Pushable;
    if NoGain(mode, rows) {
      forall b: nat, n: nat | b >= 1 && n < Reach(rows, b) && Pushable(mode, rows, n)
        ensures Kept(rows, n, b) <= Kept(rows, Reach(rows, b), b)
      {
        if b > |rows| {
          KeptCap(rows, n, |rows|, b);
          KeptCap(rows, |rows|, |rows|, b);
        }
      }
    }
    if forall b: nat | b >= 1 :: NoGainIn(mode, rows, b) {
      forall n: nat, b: nat | n < b <= |rows| && Pushable(mode, rows, n) ensures Kept(rows, n, b) <= Kept(rows, b, b) {
        assert NoGainIn(mode, rows, b) && n < Reach(rows, b) == b;
      }
    }
  }

  /**
   No distractor texts and no budget raise the efficiency of a run exactly when no row of the evidence
   ranking that can be pushed out of a budget within the ranking is worth losing there.
   */
  lemma EfficiencyNeverRisesInAnyBudget(root: int -> real, fx: SearchFixture, mode: SearchMode)
    requires IsRoot(root)
    ensures RunNeverRises(root, fx, mode) <==> NoGain(mode, EvidenceRanking(root, fx, mode))
  {
    hide EvidenceRanking, RunNeverRisesIn, NoGainIn, NoGain, IsRoot;
    var rows := EvidenceRanking(root, fx, mode);
    NoGainInAnyBudget(mode, rows);
    forall b: nat ensures RunNeverRisesIn(root, fx, mode, b) <==> NoGainIn(mode, rows, b) {
      EfficiencyNeverRisesExactly(root, fx, mode, b);
    }
  }

  /** Equal anchors that stand together with one score never gain. */
  lemma BlocksNeverGain(root: int -> real, fx: SearchFixture, mode: SearchMode)
    requires IsRoot(root) && InBlocks(EvidenceRanking(root, fx, mode))
    ensures NoGain(mode, EvidenceRanking(root, fx, mode))
  {
    EfficiencyNeverRisesInAnyBudget(root, fx, mode);
    hide InBlocks, NoGain, Efficiency, EvidenceRanking, Retrieved, With, Scored, IsRoot;
    forall ds: seq<Distractor>, b: nat
      ensures RunEfficiency(root, With(fx, ds), mode, b, true) <= RunEfficiency(root, fx, mode, b, false)
    {
      WithKeeps(root, fx, ds, mode);
      BlockedRunNeverRises(root, With(fx, ds), mode, b);
      CleanRunIsKept(root, fx, mode, b);
      CleanRunIsKept(root, With(fx, ds), mode, b);
    }
  }

  lemma BlockedRunNeverRises(root: int -> real, fx: SearchFixture, mode: SearchMode, b: nat)
    requires InBlocks(EvidenceRanking(root, fx, mode))
    ensures RunEfficiency(root, fx, mode, b, true) <= RunEfficiency(root, fx, mode, b, false)
  {
    hide InBlocks, Efficiency, Ranking, Retrieved, Scored;
    EfficiencyNeverRises(Scored(root, fx), mode, b);
  }

  // ----- The rounded efficiency that a run reports -----

  function Reported(root: int -> real, fx: SearchFixture, mode: SearchMode, b: nat, noisy: bool): real {
    RunMetrics(Scored(root, fx), mode, b, noisy).efficiency
  }

  lemma ReportedIsRounded(root: int -> real, fx: SearchFixture, mode: SearchMode, b: nat, noisy: bool)
    ensures Reported(root, fx, mode, b, noisy) == Round4(RunEfficiency(root, fx, mode, b, noisy))
  {
    hide Efficiency, Recall, Precision, Retrieved, GoldAnchors, Distinct, Round4, Scored;
  }

  /** For the rounded efficiency that a run reports in budget b, the same holds with both sides rounded. */
  lemma ReportedEfficiencyNeverRisesExactly(root: int -> real, fx: SearchFixture, mode: SearchMode, b: nat)
    requires IsRoot(root)
    ensures (forall ds: seq<Distractor> ::
               Reported(root, With(fx, ds), mode, b, true) <= Reported(root, fx, mode, b, false))
      <==> forall n: nat | n < Reach(EvidenceRanking(root, fx, mode), b)
                           && Pushable(mode, EvidenceRanking(root, fx, mode), n) ::
             Round4(Value(root, fx, mode, n, b)) <= Round4(CleanValue(root, fx, mode, b))
  {
    hide EvidenceRanking, RunEfficiency, Value, CleanValue, With, Pushable, IsRoot, Reach, Round4, Reported;
    var rows := EvidenceRanking(root, fx, mode);
    CleanRunIsKept(root, fx, mode, b);
    ReportedIsRounded(root, fx, mode, b, false);
    if forall ds: seq<Distractor> ::
         Reported(root, With(fx, ds), mode, b, true) <= Reported(root, fx, mode, b, false) {
      forall n: nat | n < Reach(rows, b) && Pushable(mode, rows, n)
        ensures Round4(Value(root, fx, mode, n, b)) <= Round4(CleanValue(root, fx, mode, b))
      {
        var ds := ValueIsReached(root, fx, mode, n, b);
        ReportedIsRounded(root, With(fx, ds), mode, b, true);
      }
    }
    if forall n: nat | n < Reach(rows, b) && Pushable(mode, rows, n) ::
         Round4(Value(root, fx, mode, n, b)) <= Round4(CleanValue(root, fx, mode, b)) {
      forall ds: seq<Distractor>
        ensures Reported(root, With(fx, ds), mode, b, true) <= Reported(root, fx, mode, b, false)
      {
        var n := AnyRunIsBounded(root, fx, ds, mode, b);
        ReportedIsRounded(root, With(fx, ds), mode, b, true);
        Round4IsMonotone(RunEfficiency(root, With(fx, ds), mode, b, true), Value(root, fx, mode, n, b));
        CleanValueMeans(root, fx, mode, b);
      }
    }
  }

  /** In any budget: again only those within the evidence ranking matter. */
  lemma ReportedNeverRisesInAnyBudget(root: int -> real, fx: SearchFixture, mode: SearchMode)
    requires IsRoot(root)
    ensures (forall ds: seq<Distractor>, b: nat | b >= 1 ::
               Reported(root, With(fx, ds), mode, b, true) <= Reported(root, fx, mode, b, false))
      <==> forall n: nat, b: nat | n < b <= |EvidenceRanking(root, fx, mode)|
                                   && Pushable(mode, EvidenceRanking(root, fx, mode), n) ::
             Round4(Value(root, fx, mode, n, b)) <= Round4(Value(root, fx, mode, b, b))
  {
    hide EvidenceRanking, Value, With, Pushable, IsRoot, Round4, Reported;
    var rows := EvidenceRanking(root, fx, mode);
    forall b: nat ensures (forall ds: seq<Distractor> ::
                             Reported(root, With(fx, ds), mode, b, true) <= Reported(root, fx, mode, b, false))
        <==> forall n: nat | n < Reach(rows, b) && Pushable(mode, rows, n) ::
               Round4(Value(root, fx, mode, n, b)) <= Round4(CleanValue(root, fx, mode, b)) {
      ReportedEfficiencyNeverRisesExactly(root, fx, mode, b);
    }
    if forall n: nat, b: nat | n < b <= |rows| && Pushable(mode, rows, n) ::
         Round4(Value(root, fx, mode, n, b)) <= Round4(Value(root, fx, mode, b, b)) {
      forall n: nat, b: nat | n < Reach(rows, b) && Pushable(mode, rows, n)
        ensures Round4(Value(root, fx, mode, n, b)) <= Round4(CleanValue(root, fx, mode, b))
      {
        if b > |rows| {
          ValueCap(root, fx, mode, n, b);
          Round4IsMonotone(Value(root, fx, mode, n, b), Value(root, fx, mode, n, |rows|));
        }
      }
    }
    if forall ds: seq<Distractor>, b: nat | b >= 1 ::
         Reported(root, With(fx, ds), mode, b, true) <= Reported(root, fx, mode, b, false) {
      forall n: nat, b: nat | n < b <= |rows| && Pushable(mode, rows, n)
        ensures Round4(Value(root, fx, mode, n, b)) <= Round4(Value(root, fx, mode, b, b))
      {
        assert n < Reach(rows, b) == b;
        assert CleanValue(root, fx, mode, b) == Value(root, fx, mode, b, b);
      }
    }
  }

  lemma ValueCap(root: int -> real, fx: SearchFixture, mode: SearchMode, n: nat, b: nat)
    requires n <= |EvidenceRanking(root, fx, mode)| <= b
    ensures Value(root, fx, mode, n, b) <= Value(root, fx, mode, n, |EvidenceRanking(root, fx, mode)|)
    ensures CleanValue(root, fx, mode, b) == CleanValue(root, fx, mode, |EvidenceRanking(root, fx, mode)|)
  {
    hide EvidenceRanking, Gold, Kept, Shared;
    var rows := EvidenceRanking(root, fx, mode);
    KeptCap(rows, n, |rows|, b);
    KeptCap(rows, |rows|, |rows|, b);
    ShareOrder(Gold(root, fx), Kept(rows, n, b), Kept(rows, n, |rows|));
  }

  lemma CleanValueMeans(root: int -> real, fx: SearchFixture, mode: SearchMode, b: nat)
    ensures CleanValue(root, fx, mode, b) == Value(root, fx, mode, Reach(EvidenceRanking(root, fx, mode), b), b)
  {}
}
