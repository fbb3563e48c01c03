/**
 The exact worth of a run.  Distractors move every evidence row back by the number of distractors that
 score more, so a run is worth what the moved rows still within the budget are worth.  The cheapest way to
 push row n out of a budget is to put distractors right before the rows of its score.
 */
module DistractorGain {
  import opened Sorting
  import opened RetrievalMetrics
  import opened ContextRetrieval
  import opened DistractorPlacement

  // ----- What moved rows are worth -----

  /** Row i is the last one of its anchor among the first n rows. */
  predicate LastOf(rows: seq<Row>, n: nat, i: nat)
    requires i < n <= |rows|
  {
    forall j | i < j < n :: AnchorAt(rows, j) != AnchorAt(rows, i)
  }

  /** The inverse ranks of the anchors that end among the first k of n kept rows, row i moved back by d[i]. */
  function Worth(rows: seq<Row>, n: nat, d: seq<nat>, k: nat): real
    requires k <= n <= |rows| == |d|
  {
    if k == 0 then 0.0
    else Worth(rows, n, d, k - 1) + if LastOf(rows, n, k - 1) then 1.0 / (k + d[k - 1]) as real else 0.0
  }

  /** How many moved rows a budget keeps. */
  function Survivors(d: seq<nat>, b: nat): (n: nat)
    ensures n <= |d| && (n > 0 ==> n - 1 + d[n - 1] < b)
    ensures forall i | n <= i < |d| :: i + d[i] >= b
  {
    if d == [] || |d| - 1 + d[|d| - 1] < b then |d| else Survivors(d[..|d| - 1], b)
  }

  /** The sum of inverse ranks when row i is moved back by d[i] and the budget is b. */
  function MovedWorth(rows: seq<Row>, d: seq<nat>, b: nat): real
    requires |d| == |rows|
  {
    Worth(rows, Survivors(d, b), d, Survivors(d, b))
  }

  /** How far these distractors move the rows. */
  function Shifts(rows: seq<Row>, distractors: seq<Candidate>): (d: seq<nat>)
    ensures |d| == |rows| && forall i | 0 <= i < |rows| :: d[i] == Ahead(distractors, ScoreAt(rows, i))
  {
    seq(|rows|, i requires 0 <= i < |rows| => Ahead(distractors, ScoreAt(rows, i)))
  }

  // ----- A place scores when its row is the last of its anchor -----

  /** A ranking of evidence and distractors, in which exactly the evidence has a gold anchor. */
  ghost predicate Golden(evidence: seq<Candidate>, distractors: seq<Candidate>, gold: set<Anchor>) {
    && Separate(evidence, distractors)
    && (forall c | c in evidence :: c.anchor in gold) && (forall c | c in distractors :: c.anchor !in gold)
  }

  lemma ScoresMeans(noisy: seq<Row>, gold: set<Anchor>, t: nat, p: nat)
    requires p < t <= |noisy|
    ensures Scores(Anchors(noisy[..t]), gold, p)
      <==> AnchorAt(noisy, p) in gold && forall q | p < q < t :: AnchorAt(noisy, q) != AnchorAt(noisy, p)
  {
    var ret := Anchors(noisy[..t]);
    assert forall q | 0 <= q < t :: ret[q] == AnchorAt(noisy, q);
    hide Anchors;
    if ret[p] in ret[p + 1..] {
      var k :| 0 <= k < |ret[p + 1..]| && ret[p + 1..][k] == ret[p];
      assert ret[p + 1 + k] == ret[p];
    }
    forall q | p < q < t ensures ret[q] in ret[p + 1..] {
      assert ret[p + 1..][q - p - 1] == ret[q];
    }
  }

  lemma GoldIsEvidenceRow(evidence: seq<Candidate>, distractors: seq<Candidate>, gold: set<Anchor>, p: nat)
    requires Golden(evidence, distractors, gold) && p < |Ranking(evidence + distractors)|
    ensures var noisy := Ranking(evidence + distractors); AnchorAt(noisy, p) in gold <==> IsEvidence()(noisy[p])
  {
    RankingFacts(evidence + distractors);
    hide Ranking, Filter;
    assert Ranking(evidence + distractors)[p] in Ranking(evidence + distractors);
  }

  /** Later evidence rows come at later places, one place for each row. */
  lemma PlacesInOrder(noisy: seq<Row>, p: nat, q: nat)
    requires p <= |noisy| && q <= |noisy|
    ensures Count(noisy, p) < Count(noisy, q) ==> p < q
    ensures p < q && p < |noisy| && IsEvidence()(noisy[p]) ==> Count(noisy, p) < Count(noisy, q)
  {
    hide Count;
    if q <= p {
      CountGrows(noisy, q, p);
    } else {
      CountStep(noisy, p);
      CountGrows(noisy, p + 1, q);
    }
  }

  lemma ScoresIsLast(
    evidence: seq<Candidate>, distractors: seq<Candidate>, gold: set<Anchor>, t: nat, p: nat)
    requires Golden(evidence, distractors, gold) && p < t <= |Ranking(evidence + distractors)|
    requires IsEvidence()(Ranking(evidence + distractors)[p])
    ensures var noisy, rows := Ranking(evidence + distractors), Ranking(evidence);
      && Count(noisy, p) < Count(noisy, t) <= |rows|
      && (Scores(Anchors(noisy[..t]), gold, p) <==> LastOf(rows, Count(noisy, t), Count(noisy, p)))
  {
    hide Count, Scores, Filter, Ranking, Ahead, Golden;
    var noisy, rows := Ranking(evidence + distractors), Ranking(evidence);
    assert Separate(evidence, distractors) by { RevealGolden(evidence, distractors, gold); }
    CountBounds(evidence, distractors, t);
    PlacesInOrder(noisy, p, t);
    EvidenceStands(evidence, distractors, p);
    GoldIsEvidenceRow(evidence, distractors, gold, p);
    ScoresMeans(noisy, gold, t, p);
    var n, i := Count(noisy, t), Count(noisy, p);
    forall j | i < j < n ensures exists q :: p < q < t && AnchorAt(noisy, q) == AnchorAt(rows, j) {
      var q := PlaceOf(noisy, j, t);
      PlacesInOrder(noisy, p, q);
      EvidenceStands(evidence, distractors, q);
      assert AnchorAt(noisy, q) == AnchorAt(rows, j);
    }
    forall q | p < q < t && AnchorAt(noisy, q) == AnchorAt(noisy, p)
      ensures i < Count(noisy, q) < n && AnchorAt(rows, Count(noisy, q)) == AnchorAt(rows, i)
    {
      GoldIsEvidenceRow(evidence, distractors, gold, q);
      PlacesInOrder(noisy, p, q);
      PlacesInOrder(noisy, q, t);
      EvidenceStands(evidence, distractors, q);
    }
  }

  lemma RevealGolden(evidence: seq<Candidate>, distractors: seq<Candidate>, gold: set<Anchor>)
    requires Golden(evidence, distractors, gold)
    ensures Separate(evidence, distractors)
  {}

  // ----- The worth of a run -----

  lemma {:induction false} SumOfPlaces(
    evidence: seq<Candidate>, distractors: seq<Candidate>, gold: set<Anchor>, t: nat, p: nat)
    requires Golden(evidence, distractors, gold) && p <= t <= |Ranking(evidence + distractors)|
    ensures var noisy, rows := Ranking(evidence + distractors), Ranking(evidence);
      && Count(noisy, p) <= Count(noisy, t) <= |rows|
      && PositionSum(Anchors(noisy[..t]), gold, p)
           == Worth(rows, Count(noisy, t), Shifts(rows, distractors), Count(noisy, p))
  {
    hide Count, LastOf, Golden, Ranking, Ahead, Scores, Anchors;
    var noisy, rows := Ranking(evidence + distractors), Ranking(evidence);
    assert Separate(evidence, distractors) by { RevealGolden(evidence, distractors, gold); }
    CountBounds(evidence, distractors, t);
    CountGrows(noisy, p, t);
    CountEnds(noisy);
    if p > 0 {
      SumOfPlaces(evidence, distractors, gold, t, p - 1);
      CountStep(noisy, p - 1);
      if IsEvidence()(noisy[p - 1]) {
        ScoresIsLast(evidence, distractors, gold, t, p - 1);
        EvidenceStands(evidence, distractors, p - 1);
      } else {
        GoldIsEvidenceRow(evidence, distractors, gold, p - 1);
        ScoresMeans(noisy, gold, t, p - 1);
      }
    }
  }

  /** The budget keeps the rows that still stand within it. */
  lemma KeptRows(evidence: seq<Candidate>, distractors: seq<Candidate>, b: nat)
    requires Separate(evidence, distractors)
    ensures var noisy, rows := Ranking(evidence + distractors), Ranking(evidence);
      var t := if b <= |noisy| then b else |noisy|;
      Count(noisy, t) == Survivors(Shifts(rows, distractors), b)
  {
    hide Ranking, Count, Ahead, Survivors, Separate;
    var noisy, rows := Ranking(evidence + distractors), Ranking(evidence);
    var d, t := Shifts(rows, distractors), if b <= |noisy| then b else |noisy|;
    CountBounds(evidence, distractors, t);
    var n, m := Count(noisy, t), Survivors(d, b);
    SurvivorsFit(d, b);
    if n < m {
      EvidenceIsPlaced(evidence, distractors, m - 1);
      PlacesInOrder(noisy, m - 1 + d[m - 1], t);
    }
    if m < n {
      EvidenceIsPlaced(evidence, distractors, m);
      PlacesInOrder(noisy, m + d[m], t);
    }
  }

  lemma SurvivorsFit(d: seq<nat>, b: nat)
    ensures var n := Survivors(d, b);
      && n <= |d| && (n > 0 ==> n - 1 + d[n - 1] < b)
      && forall i | n <= i < |d| :: i + d[i] >= b
  {}

  /** A run is worth exactly what its evidence rows, moved back by the distractors, are worth. */
  lemma RunWorth(evidence: seq<Candidate>, distractors: seq<Candidate>, gold: set<Anchor>, b: nat)
    requires Golden(evidence, distractors, gold)
    ensures var rows, ret := Ranking(evidence), Anchors(Take(Ranking(evidence + distractors), b));
      PositionSum(ret, gold, |ret|) == MovedWorth(rows, Shifts(rows, distractors), b)
  {
    hide Ranking, Count, Worth, PositionSum, Survivors, Shifts, Golden;
    assert Separate(evidence, distractors) by { RevealGolden(evidence, distractors, gold); }
    var noisy := Ranking(evidence + distractors);
    var t := if b <= |noisy| then b else |noisy|;
    KeptRows(evidence, distractors, b);
    SumOfPlaces(evidence, distractors, gold, t, t);
    assert Take(noisy, b) == noisy[..t];
  }

  // ----- Losing row n at the least loss -----

  /** The first row of the score of row n, searched backwards from row i. */
  function GroupStart(rows: seq<Row>, n: nat, i: nat): (start: nat)
    requires i <= n < |rows|
    ensures start <= i && forall j | start <= j < i :: ScoreAt(rows, j) == ScoreAt(rows, n)
    ensures start > 0 ==> ScoreAt(rows, start - 1) != ScoreAt(rows, n)
  {
    if i > 0 && ScoreAt(rows, i - 1) == ScoreAt(rows, n) then GroupStart(rows, n, i - 1) else i
  }

  /** How far rows move when row n is just pushed out of budget b: those from its score group on move along. */
  function LeastShifts(rows: seq<Row>, n: nat, b: nat): (d: seq<nat>)
    requires n <= |rows| && n <= b
    ensures |d| == |rows|
  {
    seq(|rows|, i requires 0 <= i < |rows| => if n < |rows| && i >= GroupStart(rows, n, n) then b - n else 0)
  }

  /** The sum of inverse ranks when budget b keeps n evidence rows and loses as little as possible. */
  function Kept(rows: seq<Row>, n: nat, b: nat): real
    requires n <= |rows| && n <= b
  {
    Worth(rows, n, LeastShifts(rows, n, b), n)
  }

  /** How many evidence rows a budget keeps when there are no distractors. */
  function Reach(rows: seq<Row>, b: nat): (n: nat)
    ensures n <= |rows| && n <= b
  {
    if b <= |rows| then b else |rows|
  }

  /** Moving rows back never makes the kept ones worth more. */
  lemma {:induction false} WorthFalls(rows: seq<Row>, n: nat, near: seq<nat>, far: seq<nat>, k: nat)
    requires k <= n <= |rows| == |near| == |far| && forall i | 0 <= i < n :: near[i] <= far[i]
    ensures Worth(rows, n, far, k) <= Worth(rows, n, near, k)
    ensures (forall i | 0 <= i < n :: near[i] == far[i]) ==> Worth(rows, n, far, k) == Worth(rows, n, near, k)
  {
    hide LastOf;
    if k > 0 {
      WorthFalls(rows, n, near, far, k - 1);
      InverseOrder(k + near[k - 1], k + far[k - 1]);
    }
  }

  /** A run with distractors is worth at most what the rows it keeps are worth at the least loss. */
  lemma KeptBounds(rows: seq<Row>, distractors: seq<Candidate>, b: nat) returns (n: nat)
    requires Sorted(rows, ByRank())
    ensures n <= Reach(rows, b) && MovedWorth(rows, Shifts(rows, distractors), b) <= Kept(rows, n, b)
    ensures n < Reach(rows, b) ==> Ahead(distractors, ScoreAt(rows, n)) > 0
  {
    hide Worth, Survivors, Ahead;
    var d := Shifts(rows, distractors);
    SurvivorsFit(d, b);
    n := Survivors(d, b);
    var near := LeastShifts(rows, n, b);
    forall i | 0 <= i < n ensures near[i] <= d[i] {
      if n < |rows| && i >= GroupStart(rows, n, n) {
        assert ScoreAt(rows, i) == ScoreAt(rows, n);
      }
    }
    WorthFalls(rows, n, near, d, n);
  }

  /** Distractors right before the score group of row n are worth exactly that. */
  lemma KeptIsReached(rows: seq<Row>, distractors: seq<Candidate>, score: real, n: nat, b: nat)
    requires Sorted(rows, ByRank()) && n < |rows| && n < b && |distractors| == b - n
    requires forall d | d in distractors :: d.score == score
    requires var t := GroupStart(rows, n, n); ScoreAt(rows, n) < score && (t > 0 ==> score <= ScoreAt(rows, t - 1))
    ensures MovedWorth(rows, Shifts(rows, distractors), b) == Kept(rows, n, b)
  {
    hide Worth, Ahead, Survivors;
    var d := LeastShifts(rows, n, b);
    assert Shifts(rows, distractors) == d by {
      forall i | 0 <= i < |rows| ensures Ahead(distractors, ScoreAt(rows, i)) == d[i] {
        AheadOfGroup(rows, distractors, score, n, i);
      }
    }
    hide GroupStart, Shifts;
    SurvivorsFit(d, b);
    assert n + d[n] == b && (n > 0 ==> n - 1 + d[n - 1] < b);
  }

  lemma AheadOfGroup(rows: seq<Row>, distractors: seq<Candidate>, score: real, n: nat, i: nat)
    requires Sorted(rows, ByRank()) && n < |rows| && i < |rows|
    requires forall d | d in distractors :: d.score == score
    requires var t := GroupStart(rows, n, n); ScoreAt(rows, n) < score && (t > 0 ==> score <= ScoreAt(rows, t - 1))
    ensures Ahead(distractors, ScoreAt(rows, i)) == if i >= GroupStart(rows, n, n) then |distractors| else 0
  {
    hide Ahead;
    var t := GroupStart(rows, n, n);
    AllAhead(distractors, score, ScoreAt(rows, i));
    assert i + 1 < t ==> ByRank()(rows[i], rows[t - 1]);
    assert i > n ==> ByRank()(rows[n], rows[i]);
  }

  /** Without distractors every row stays where it is. */
  lemma NothingMoves(rows: seq<Row>, b: nat)
    ensures MovedWorth(rows, Shifts(rows, []), b) == Kept(rows, Reach(rows, b), b)
  {
    hide Worth, Survivors;
    var d, n := Shifts(rows, []), Reach(rows, b);
    SurvivorsFit(d, b);
    var m := Survivors(d, b);
    assert (m < |rows| ==> m + d[m] >= b) && (m > 0 ==> m - 1 + d[m - 1] < b);
    assert m == n;
    WorthFalls(rows, n, d, LeastShifts(rows, n, b), n);
  }

  // ----- Larger budgets -----

  /** A budget beyond all evidence rows gives no more than one that just covers them. */
  lemma KeptCap(rows: seq<Row>, n: nat, small: nat, large: nat)
    requires n <= |rows| <= small <= large
    ensures Kept(rows, n, large) <= Kept(rows, n, small)
    ensures n == |rows| ==> Kept(rows, n, large) == Kept(rows, n, small)
  {
    hide Worth;
    WorthFalls(rows, n, LeastShifts(rows, n, small), LeastShifts(rows, n, large), n);
  }
}
