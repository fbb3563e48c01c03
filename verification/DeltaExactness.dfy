/**
 Exactly when no distractor texts make the efficiency delta of a fixture positive.  All that a distractor
 does to the delta is given by its cut: how many rows of the evidence ranking of each mode it leaves in front.
 */
module DeltaExactness {
  import opened Sorting
  import opened Rounding
  import opened SearchScoring
  import opened TextScores
  import opened ContextRetrieval
  import opened DistractorPlacement
  import opened DistractorGain
  import opened DistractorDelta
  import opened EfficiencyExactness

  // ----- Cuts -----

  datatype Cut = Cut(grep: nat, vector: nat, hybrid: nat)

  function At(c: Cut, mode: SearchMode): nat {
    match mode
    case Grep => c.grep
    case Vector => c.vector
    case Hybrid => c.hybrid
  }

  /** The first of the sorted rows that scores less than s, searched backwards from row i. */
  function Start(rows: seq<Row>, s: real, i: nat): (start: nat)
    requires i <= |rows|
    ensures start <= i && forall j | start <= j < i :: ScoreAt(rows, j) < s
    ensures start > 0 ==> ScoreAt(rows, start - 1) >= s
  {
    if i > 0 && ScoreAt(rows, i - 1) < s then Start(rows, s, i - 1) else i
  }

  function StartIn(root: int -> real, fx: SearchFixture, d: Distractor, mode: SearchMode): nat {
    var rows := EvidenceRanking(root, fx, mode);
    Start(rows, Score(root, fx.question, DistractorText(d), mode), |rows|)
  }

  function CutOf(root: int -> real, fx: SearchFixture, d: Distractor): Cut {
    Cut(StartIn(root, fx, d, Grep), StartIn(root, fx, d, Vector), StartIn(root, fx, d, Hybrid))
  }

  function CutsOf(root: int -> real, fx: SearchFixture, ds: seq<Distractor>): (cuts: seq<Cut>)
    ensures |cuts| == |ds| && forall i | 0 <= i < |ds| :: cuts[i] == CutOf(root, fx, ds[i])
  {
    seq(|ds|, i requires 0 <= i < |ds| => CutOf(root, fx, ds[i]))
  }

  /** How many cuts lie at row i or before it. */
  function Before(cuts: seq<Cut>, mode: SearchMode, i: nat): nat {
    if cuts == [] then 0 else Before(cuts[1..], mode, i) + if At(cuts[0], mode) <= i then 1 else 0
  }

  function CutShifts(size: nat, cuts: seq<Cut>, mode: SearchMode): (d: seq<nat>)
    ensures |d| == size && forall i | 0 <= i < size :: d[i] == Before(cuts, mode, i)
  {
    seq(size, i requires 0 <= i < size => Before(cuts, mode, i))
  }

  /** The efficiency of a run in terms of cuts. */
  function CutValue(root: int -> real, fx: SearchFixture, mode: SearchMode, cuts: seq<Cut>, b: nat): real {
    var rows := EvidenceRanking(root, fx, mode);
    Shared(Gold(root, fx), MovedWorth(rows, CutShifts(|rows|, cuts, mode), b))
  }

  /** The reported efficiencies of the six runs. */
  function CutReports(root: int -> real, fx: SearchFixture, cuts: seq<Cut>, b: nat): (values: seq<real>)
    ensures |values| == RUN_COUNT
  {
    seq(RUN_COUNT, i requires 0 <= i < RUN_COUNT => Round4(CutValue(root, fx, SEARCH_MODES[i / 2], cuts, b)))
  }

  function CutDelta(root: int -> real, fx: SearchFixture, cuts: seq<Cut>, b: nat): real {
    Round4(Mean(CutReports(root, fx, cuts, b)) - Mean(CutReports(root, fx, [], b)))
  }

  // ----- The delta is that of the cuts -----

  lemma {:induction false} AheadIsBefore(
    rows: seq<Row>, noise: seq<Candidate>, cuts: seq<Cut>, mode: SearchMode, i: nat)
    requires Sorted(rows, ByRank()) && i < |rows| && |noise| == |cuts|
    requires forall k | 0 <= k < |noise| :: At(cuts[k], mode) == Start(rows, noise[k].score, |rows|)
    ensures Ahead(noise, ScoreAt(rows, i)) == Before(cuts, mode, i)
  {
    hide Start, Sorted;
    if noise != [] {
      AheadIsBefore(rows, noise[1..], cuts[1..], mode, i);
      StartMeans(rows, noise[0].score, i);
    }
  }

  lemma StartMeans(rows: seq<Row>, s: real, i: nat)
    requires Sorted(rows, ByRank()) && i < |rows|
    ensures Start(rows, s, |rows|) <= i <==> ScoreAt(rows, i) < s
  {
    var start := Start(rows, s, |rows|);
    assert i + 1 < start ==> ByRank()(rows[i], rows[start - 1]);
  }

  lemma ShiftsAreCuts(root: int -> real, fx: SearchFixture, ds: seq<Distractor>, mode: SearchMode)
    ensures var rows := EvidenceRanking(root, fx, mode);
      Shifts(rows, Noise(root, With(fx, ds), mode)) == CutShifts(|rows|, CutsOf(root, fx, ds), mode)
  {
    var rows, noise, cuts := EvidenceRanking(root, fx, mode), Noise(root, With(fx, ds), mode), CutsOf(root, fx, ds);
    EvidenceIsSorted(root, fx, mode);
    hide EvidenceRanking, Noise, Score, Start, Ahead, Before;
    NoiseSize(root, With(fx, ds), mode);
    forall k | 0 <= k < |noise| ensures At(cuts[k], mode) == Start(rows, noise[k].score, |rows|) {
      NoiseScores(root, With(fx, ds), mode, k);
    }
    forall i | 0 <= i < |rows| ensures Ahead(noise, ScoreAt(rows, i)) == Before(cuts, mode, i) {
      AheadIsBefore(rows, noise, cuts, mode, i);
    }
  }

  lemma NoiseSize(root: int -> real, fx: SearchFixture, mode: SearchMode)
    ensures |Noise(root, fx, mode)| == |fx.distractors|
  {}

  lemma RunIsCutValue(root: int -> real, fx: SearchFixture, ds: seq<Distractor>, mode: SearchMode, b: nat)
    ensures RunEfficiency(root, With(fx, ds), mode, b, true)
         == CutValue(root, fx, mode, CutsOf(root, fx, ds), b)
    ensures RunEfficiency(root, With(fx, ds), mode, b, false) == CutValue(root, fx, mode, [], b)
  {
    hide EvidenceRanking, Gold, RunEfficiency, Noise, MovedWorth, CutsOf, Shared, With;
    var rows := EvidenceRanking(root, fx, mode);
    WithKeeps(root, fx, ds, mode);
    RunIsMovedWorth(root, With(fx, ds), mode, b, true);
    RunIsMovedWorth(root, With(fx, ds), mode, b, false);
    ShiftsAreCuts(root, fx, ds, mode);
    assert Shifts(rows, []) == CutShifts(|rows|, [], mode);
  }

  /** The efficiency delta depends on the cuts of the distractors alone, and is computed from them. */
  lemma DeltaIsCutDelta(root: int -> real, fx: SearchFixture, ds: seq<Distractor>, b: nat)
    ensures FixtureDelta(Scored(root, With(fx, ds)), b).efficiency == CutDelta(root, fx, CutsOf(root, fx, ds), b)
  {
    hide RunMetrics, Scored, With, CutsOf, CutValue, Round4, Mean, RunEfficiency;
    var scored, cuts := Scored(root, With(fx, ds)), CutsOf(root, fx, ds);
    forall i | 0 <= i < RUN_COUNT
      ensures EfficienciesOf(Runs(scored, b, true))[i] == CutReports(root, fx, cuts, b)[i]
      ensures EfficienciesOf(Runs(scored, b, false))[i] == CutReports(root, fx, [], b)[i]
    {
      var mode := SEARCH_MODES[i / 2];
      RunIsCutValue(root, fx, ds, mode, b);
      ReportedIsRounded(root, With(fx, ds), mode, b, true);
      ReportedIsRounded(root, With(fx, ds), mode, b, false);
    }
    assert EfficienciesOf(Runs(scored, b, true)) == CutReports(root, fx, cuts, b);
    assert EfficienciesOf(Runs(scored, b, false)) == CutReports(root, fx, [], b);
  }

  // ----- More distractors of one cut than the budget change nothing -----

  ghost predicate Climbs(d: seq<nat>) {
    forall i, j | 0 <= i < j < |d| :: d[i] <= d[j]
  }

  /** Rows that leave the budget either way do not tell two shifts apart. */
  lemma SameWorth(rows: seq<Row>, d: seq<nat>, e: seq<nat>, b: nat)
    requires |d| == |rows| == |e| && Climbs(d)
    requires forall i | 0 <= i < |rows| :: d[i] == e[i] || (d[i] >= b && e[i] >= b)
    ensures MovedWorth(rows, d, b) == MovedWorth(rows, e, b)
  {
    hide Worth, Survivors;
    SurvivorsFit(d, b);
    SurvivorsFit(e, b);
    var n, m := Survivors(d, b), Survivors(e, b);
    assert (n > 0 ==> n - 1 + d[n - 1] < b) && (m > 0 ==> m - 1 + e[m - 1] < b);
    assert n == m;
    WorthFalls(rows, n, d, e, n);
  }

  lemma {:induction false} BeforeGrows(cuts: seq<Cut>, mode: SearchMode, i: nat, j: nat)
    requires i <= j
    ensures Before(cuts, mode, i) <= Before(cuts, mode, j)
  {
    if cuts != [] {
      BeforeGrows(cuts[1..], mode, i, j);
    }
  }

  lemma {:induction false} BeforeCounts(cuts: seq<Cut>, c: Cut, mode: SearchMode, i: nat)
    requires At(c, mode) <= i
    ensures Before(cuts, mode, i) >= multiset(cuts)[c]
  {
    if cuts != [] {
      BeforeCounts(cuts[1..], c, mode, i);
      assert cuts == [cuts[0]] + cuts[1..];
    }
  }

  function Without(cuts: seq<Cut>, k: nat): seq<Cut>
    requires k < |cuts|
  {
    cuts[..k] + cuts[k + 1..]
  }

  lemma {:induction false} BeforeWithout(cuts: seq<Cut>, k: nat, mode: SearchMode, i: nat)
    requires k < |cuts|
    ensures Before(cuts, mode, i) == Before(Without(cuts, k), mode, i) + if At(cuts[k], mode) <= i then 1 else 0
  {
    if k == 0 {
      assert Without(cuts, k) == cuts[1..];
    } else {
      assert Without(cuts, k)[1..] == Without(cuts[1..], k - 1);
      BeforeWithout(cuts[1..], k - 1, mode, i);
    }
  }

  lemma SurplusValue(root: int -> real, fx: SearchFixture, mode: SearchMode, cuts: seq<Cut>, k: nat, b: nat)
    requires k < |cuts| && multiset(cuts)[cuts[k]] > b
    ensures CutValue(root, fx, mode, Without(cuts, k), b) == CutValue(root, fx, mode, cuts, b)
  {
    hide EvidenceRanking, Gold, MovedWorth, Before, Without, Shared;
    var rows := EvidenceRanking(root, fx, mode);
    var d, e := CutShifts(|rows|, cuts, mode), CutShifts(|rows|, Without(cuts, k), mode);
    forall i | 0 <= i < |rows| ensures d[i] == e[i] || (d[i] >= b && e[i] >= b) {
      BeforeWithout(cuts, k, mode, i);
      if At(cuts[k], mode) <= i {
        BeforeCounts(cuts, cuts[k], mode, i);
      }
    }
    forall i, j | 0 <= i < j < |rows| ensures d[i] <= d[j] {
      BeforeGrows(cuts, mode, i, j);
    }
    SameWorth(rows, d, e, b);
  }

  lemma SurplusDelta(root: int -> real, fx: SearchFixture, cuts: seq<Cut>, k: nat, b: nat)
    requires k < |cuts| && multiset(cuts)[cuts[k]] > b
    ensures CutDelta(root, fx, Without(cuts, k), b) == CutDelta(root, fx, cuts, b)
  {
    hide CutValue, Round4, Mean, Without;
    forall i | 0 <= i < RUN_COUNT
      ensures CutReports(root, fx, Without(cuts, k), b)[i] == CutReports(root, fx, cuts, b)[i]
    {
      SurplusValue(root, fx, SEARCH_MODES[i / 2], cuts, k, b);
    }
    assert CutReports(root, fx, Without(cuts, k), b) == CutReports(root, fx, cuts, b);
  }

  // ----- Exactly when the delta never rises -----

  /** The cut of a text with these hits and this sum of squares. */
  function PairCut(root: int -> real, fx: SearchFixture, hits: int, norm: int): Cut {
    Cut(PairStart(root, fx, hits, norm, Grep), PairStart(root, fx, hits, norm, Vector),
        PairStart(root, fx, hits, norm, Hybrid))
  }

  function PairStart(root: int -> real, fx: SearchFixture, hits: int, norm: int, mode: SearchMode): nat {
    var rows := EvidenceRanking(root, fx, mode);
    Start(rows, PairScore(root, Tokens(fx.question), hits, norm, mode), |rows|)
  }

  /** The cut follows from two numbers that the question's own tokens allow. */
  ghost predicate Attainable(root: int -> real, fx: SearchFixture, c: Cut) {
    exists hits, norm :: Possible(Tokens(fx.question), hits, norm) && PairCut(root, fx, hits, norm) == c
  }

  lemma CutIsPairCut(root: int -> real, fx: SearchFixture, d: Distractor)
    requires IsRoot(root)
    ensures var query, words := Tokens(fx.question), Tokens(d.text);
      CutOf(root, fx, d) == PairCut(root, fx, Occurrences(query, words), SquaredNorm(words))
  {
    hide Start, EvidenceRanking, Tokens, Occurrences, SquaredNorm, ScoreOfWords, PairScore, IsRoot;
    DistractorTokens(d);
    forall mode ensures Score(root, fx.question, DistractorText(d), mode)
        == PairScore(root, Tokens(fx.question), Occurrences(Tokens(fx.question), Tokens(d.text)),
             SquaredNorm(Tokens(d.text)), mode) {
      ScoreOfPair(root, Tokens(fx.question), Tokens(d.text), mode);
    }
  }

  /** The attainable cuts are exactly those that texts have. */
  lemma AttainableExactly(root: int -> real, fx: SearchFixture, c: Cut)
    requires IsRoot(root)
    ensures Attainable(root, fx, c) <==> exists d: Distractor :: CutOf(root, fx, d) == c
  {
    hide Tokens, Occurrences, SquaredNorm, CutOf, PairCut, Possible, IsRoot;
    var query := Tokens(fx.question);
    if Attainable(root, fx, c) {
      var hits, norm :| Possible(query, hits, norm) && PairCut(root, fx, hits, norm) == c;
      TextsExactly(fx.question, hits, norm);
      var text :| Occurrences(query, Tokens(text)) == hits && SquaredNorm(Tokens(text)) == norm;
      CutIsPairCut(root, fx, Distractor("d", text));
    }
    if d: Distractor :| CutOf(root, fx, d) == c {
      var hits, norm := Occurrences(query, Tokens(d.text)), SquaredNorm(Tokens(d.text));
      CutIsPairCut(root, fx, d);
      TextsExactly(fx.question, hits, norm);
      assert SomeText(query, hits, norm);
      assert Possible(query, hits, norm);
    }
  }

  /** Attainable cuts, none of them more often than the budget has places. */
  ghost predicate Enough(root: int -> real, fx: SearchFixture, cuts: seq<Cut>, b: nat) {
    (forall c | c in cuts :: Attainable(root, fx, c)) && forall c | c in cuts :: multiset(cuts)[c] <= b
  }

  ghost predicate NoCutGain(root: int -> real, fx: SearchFixture, b: nat) {
    forall cuts: seq<Cut> | Enough(root, fx, cuts, b) :: CutDelta(root, fx, cuts, b) <= 0.0
  }

  ghost predicate DeltaNeverRisesIn(root: int -> real, fx: SearchFixture, b: nat) {
    forall ds: seq<Distractor> :: FixtureDelta(Scored(root, With(fx, ds)), b).efficiency <= 0.0
  }

  lemma {:induction false} Realised(root: int -> real, fx: SearchFixture, cuts: seq<Cut>)
    returns (ds: seq<Distractor>)
    requires IsRoot(root) && forall c | c in cuts :: Attainable(root, fx, c)
    ensures CutsOf(root, fx, ds) == cuts
  {
    hide CutOf, Attainable, IsRoot;
    ds := [];
    if cuts != [] {
      var rest := Realised(root, fx, cuts[1..]);
      assert cuts[0] in cuts;
      AttainableExactly(root, fx, cuts[0]);
      var d: Distractor :| CutOf(root, fx, d) == cuts[0];
      ds := [d] + rest;
    }
  }

  lemma {:induction false} DropSurplus(root: int -> real, fx: SearchFixture, cuts: seq<Cut>, b: nat)
    returns (few: seq<Cut>)
    requires forall c | c in cuts :: Attainable(root, fx, c)
    ensures Enough(root, fx, few, b) && CutDelta(root, fx, few, b) == CutDelta(root, fx, cuts, b)
    decreases |cuts|
  {
    hide Attainable, CutDelta;
    if c :| c in cuts && multiset(cuts)[c] > b {
      var k :| 0 <= k < |cuts| && cuts[k] == c;
      SurplusDelta(root, fx, cuts, k, b);
      few := DropSurplus(root, fx, Without(cuts, k), b);
    } else {
      few := cuts;
    }
  }

  /**
   No distractor texts make the efficiency delta positive in budget b exactly when no cuts that texts can have,
   each at most b times, give a positive delta: finitely many sums decide.
   */
  lemma DeltaNeverRisesExactly(root: int -> real, fx: SearchFixture, b: nat)
    requires IsRoot(root)
    ensures DeltaNeverRisesIn(root, fx, b) <==> NoCutGain(root, fx, b)
  {
    hide CutDelta, CutOf, FixtureDelta, Scored, With, Enough, Attainable, IsRoot;
    if DeltaNeverRisesIn(root, fx, b) {
      forall cuts: seq<Cut> | Enough(root, fx, cuts, b) ensures CutDelta(root, fx, cuts, b) <= 0.0 {
        EnoughIsAttainable(root, fx, cuts, b);
        var ds := Realised(root, fx, cuts);
        DeltaIsCutDelta(root, fx, ds, b);
      }
    }
    if NoCutGain(root, fx, b) {
      forall ds: seq<Distractor> ensures FixtureDelta(Scored(root, With(fx, ds)), b).efficiency <= 0.0 {
        var cuts := CutsOf(root, fx, ds);
        forall c | c in cuts ensures Attainable(root, fx, c) {
          var i :| 0 <= i < |cuts| && cuts[i] == c;
          assert CutOf(root, fx, ds[i]) == c;
          AttainableExactly(root, fx, c);
        }
        var few := DropSurplus(root, fx, cuts, b);
        DeltaIsCutDelta(root, fx, ds, b);
      }
    }
  }

  lemma EnoughIsAttainable(root: int -> real, fx: SearchFixture, cuts: seq<Cut>, b: nat)
    requires Enough(root, fx, cuts, b)
    ensures forall c | c in cuts :: Attainable(root, fx, c)
  {}

  // ----- Runs that never gain -----

  /** When no row of any mode is worth losing, no distractor texts make the delta positive in any budget. */
  lemma RunsWithoutGain(root: int -> real, fx: SearchFixture, ds: seq<Distractor>, b: nat)
    requires IsRoot(root) && b >= 1 && forall mode :: NoGain(mode, EvidenceRanking(root, fx, mode))
    ensures FixtureDelta(Scored(root, With(fx, ds)), b).efficiency <= 0.0
  {
    hide NoGain, EvidenceRanking, RunMetrics, Scored, With, RunEfficiency, Round4, Mean, IsRoot, CutValue;
    var scored := Scored(root, With(fx, ds));
    var noisy, clean := EfficienciesOf(Runs(scored, b, true)), EfficienciesOf(Runs(scored, b, false));
    forall i | 0 <= i < RUN_COUNT ensures noisy[i] <= clean[i] {
      var mode := SEARCH_MODES[i / 2];
      EfficiencyNeverRisesInAnyBudget(root, fx, mode);
      assert RunNeverRisesIn(root, fx, mode, b);
      RunIsCutValue(root, fx, ds, mode, b);
      RunIsCutValue(root, fx, fx.distractors, mode, b);
      NoChange(fx);
      ReportedIsRounded(root, With(fx, ds), mode, b, true);
      ReportedIsRounded(root, With(fx, ds), mode, b, false);
      Round4IsMonotone(RunEfficiency(root, With(fx, ds), mode, b, true), RunEfficiency(root, fx, mode, b, false));
    }
    MeanDeltaIsNotPositive(noisy, clean);
  }

  lemma NoChange(fx: SearchFixture)
    ensures With(fx, fx.distractors) == fx
  {}
}
