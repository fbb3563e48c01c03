/** Where evidence stands in a ranking: after the evidence before it and the distractors that score more. */
module DistractorPlacement {
  import opened Sorting
  import opened RetrievalMetrics
  import opened ContextRetrieval

  /** Evidence and distractors are told apart by kind and never share an anchor. */
  ghost predicate Separate(evidence: seq<Candidate>, distractors: seq<Candidate>) {
    && (forall c | c in evidence :: c.isEvidence)
    && (forall c | c in distractors :: !c.isEvidence)
    && (forall c, d | c in evidence && d in distractors :: c.anchor != d.anchor)
  }

  function AnchorAt(rows: seq<Row>, i: nat): Anchor
    requires i < |rows|
  {
    rows[i].candidate.anchor
  }

  function ScoreAt(rows: seq<Row>, i: nat): real
    requires i < |rows|
  {
    rows[i].candidate.score
  }

  lemma RankingFacts(candidates: seq<Candidate>)
    ensures Sorted(Ranking(candidates), ByRank())
    ensures forall r | r in Ranking(candidates) :: r.candidate in candidates && r.candidate.score > 0.0
    ensures multiset(Ranking(candidates)) == multiset(Filter(Rows(candidates), Positive()))
  {
    var rows := Rows(candidates);
    RanksAreOrdered();
    SortSorts(rows, ByRank());
    SortPermutes(rows, ByRank());
    SortSameElements(rows, ByRank());
    FilterSorted(StableSort(rows, ByRank()), Positive(), ByRank());
    FilterPermutes(StableSort(rows, ByRank()), rows, Positive());
    hide StableSort;
    forall r | r in Ranking(candidates) ensures r.candidate in candidates && r.candidate.score > 0.0 {
      assert r in rows;
    }
  }

  lemma RankingKeepsEvidence(evidence: seq<Candidate>, distractors: seq<Candidate>)
    requires Separate(evidence, distractors)
    ensures Filter(Ranking(evidence + distractors), IsEvidence()) == Ranking(evidence)
  {
    EvidenceRankingIsKept(evidence, distractors);
  }

  // ----- Counting evidence rows in a ranking -----

  function Count(noisy: seq<Row>, p: nat): nat
    requires p <= |noisy|
  {
    |Filter(noisy[..p], IsEvidence())|
  }

  lemma CountStep(noisy: seq<Row>, p: nat)
    requires p < |noisy|
    ensures Count(noisy, p + 1) == Count(noisy, p) + if IsEvidence()(noisy[p]) then 1 else 0
  {
    assert noisy[..p + 1] == noisy[..p] + [noisy[p]];
    FilterConcat(noisy[..p], [noisy[p]], IsEvidence());
    assert Filter([noisy[p]], IsEvidence()) == if IsEvidence()(noisy[p]) then [noisy[p]] else [];
  }

  lemma {:induction false} CountGrows(noisy: seq<Row>, p: nat, q: nat)
    requires p <= q <= |noisy|
    ensures Count(noisy, p) <= Count(noisy, q) <= Count(noisy, p) + (q - p)
  {
    hide Count;
    if p < q {
      CountGrows(noisy, p, q - 1);
      CountStep(noisy, q - 1);
    }
  }

  lemma CountEnds(noisy: seq<Row>)
    ensures Count(noisy, 0) == 0 && Count(noisy, |noisy|) == |Filter(noisy, IsEvidence())|
  {
    assert noisy[..|noisy|] == noisy && noisy[..0] == [];
  }

  /** An evidence row is the row with its count in the evidence ranking. */
  lemma EvidenceAt(noisy: seq<Row>, p: nat)
    requires p < |noisy| && IsEvidence()(noisy[p])
    ensures Count(noisy, p) < |Filter(noisy, IsEvidence())|
    ensures Filter(noisy, IsEvidence())[Count(noisy, p)] == noisy[p]
  {
    assert noisy == noisy[..p] + ([noisy[p]] + noisy[p + 1..]);
    FilterConcat(noisy[..p], [noisy[p]] + noisy[p + 1..], IsEvidence());
    FilterConcat([noisy[p]], noisy[p + 1..], IsEvidence());
    assert Filter([noisy[p]], IsEvidence()) == [noisy[p]];
  }

  /** The place of an evidence row among all rows. */
  lemma {:induction false} PlaceOf(noisy: seq<Row>, i: nat, t: nat) returns (q: nat)
    requires t <= |noisy| && i < Count(noisy, t)
    ensures q < t && IsEvidence()(noisy[q]) && Count(noisy, q) == i
  {
    hide Count;
    CountEnds(noisy);
    CountStep(noisy, t - 1);
    if Count(noisy, t - 1) == i {
      return t - 1;
    }
    q := PlaceOf(noisy, i, t - 1);
  }

  // ----- The distractors before an evidence row -----

  /** How many candidates score more than s. */
  function Ahead(distractors: seq<Candidate>, s: real): nat {
    if distractors == [] then 0
    else Ahead(distractors[1..], s) + if distractors[0].score > s then 1 else 0
  }

  function Outscores(s: real): Row -> bool {
    (r: Row) => !r.candidate.isEvidence && r.candidate.score > s
  }

  lemma {:induction false} FilterParts(rows: seq<Row>, p: Row -> bool, q: Row -> bool)
    requires forall r | r in rows :: p(r) <==> !q(r)
    ensures |Filter(rows, p)| + |Filter(rows, q)| == |rows|
  {
    if rows != [] {
      assert rows[0] in rows;
      FilterParts(rows[1..], p, q);
    }
  }

  lemma {:induction false} FilterTwice(rows: seq<Row>, p: Row -> bool, q: Row -> bool)
    requires forall r | r in rows && q(r) :: p(r)
    ensures Filter(Filter(rows, p), q) == Filter(rows, q)
  {
    if rows != [] {
      assert rows[0] in rows;
      FilterTwice(rows[1..], p, q);
      FilterConcat(if p(rows[0]) then [rows[0]] else [], Filter(rows[1..], p), q);
      assert Filter([rows[0]], q) == if q(rows[0]) then [rows[0]] else [];
    }
  }

  /** The rows before an evidence row are evidence or score more. */
  lemma RowsBefore(noisy: seq<Row>, p: nat)
    requires Sorted(noisy, ByRank()) && p < |noisy| && IsEvidence()(noisy[p])
    ensures p == Count(noisy, p) + |Filter(noisy, Outscores(ScoreAt(noisy, p)))|
  {
    hide Filter;
    var outscores := Outscores(ScoreAt(noisy, p));
    forall r | r in noisy[..p] ensures IsEvidence()(r) <==> !outscores(r) {
      var q :| 0 <= q < p && noisy[q] == r;
      assert ByRank()(noisy[q], noisy[p]);
    }
    FilterParts(noisy[..p], IsEvidence(), outscores);
    forall r | r in noisy[p..] ensures !outscores(r) {
      var q :| 0 <= q < |noisy[p..]| && noisy[p..][q] == r;
      assert q == 0 || ByRank()(noisy[p], noisy[p + q]);
    }
    FilterNone(noisy[p..], outscores);
    assert noisy == noisy[..p] + noisy[p..];
    FilterConcat(noisy[..p], noisy[p..], outscores);
  }

  lemma {:induction false} OutscoringRows(rows: seq<Row>, distractors: seq<Candidate>, s: real)
    requires |rows| == |distractors| && forall i | 0 <= i < |rows| :: rows[i].candidate == distractors[i]
    requires forall c | c in distractors :: !c.isEvidence
    ensures |Filter(rows, Outscores(s))| == Ahead(distractors, s)
  {
    if rows != [] {
      assert distractors[0] in distractors;
      OutscoringRows(rows[1..], distractors[1..], s);
    }
  }

  lemma OutscoringInRanking(evidence: seq<Candidate>, distractors: seq<Candidate>, s: real)
    requires Separate(evidence, distractors) && s > 0.0
    ensures |Filter(Ranking(evidence + distractors), Outscores(s))| == Ahead(distractors, s)
  {
    hide Ranking, Sorted, Ahead, Filter, Rows, Separate;
    RankingFacts(evidence + distractors);
    var ranking, all := Ranking(evidence + distractors), Rows(evidence + distractors);
    FilterPermutes(ranking, Filter(all, Positive()), Outscores(s));
    FilterTwice(all, Positive(), Outscores(s));
    SameSize(Filter(ranking, Outscores(s)), Filter(all, Outscores(s)));
    OutscoringListed(evidence, distractors, s);
  }

  lemma OutscoringListed(evidence: seq<Candidate>, distractors: seq<Candidate>, s: real)
    requires Separate(evidence, distractors)
    ensures |Filter(Rows(evidence + distractors), Outscores(s))| == Ahead(distractors, s)
  {
    var few, all := Rows(evidence), Rows(evidence + distractors);
    forall r | r in few ensures r.candidate.isEvidence {
      assert r.candidate in evidence;
    }
    assert all == few + all[|few|..];
    OutscoringRows(all[|few|..], distractors, s);
    hide Filter, Ahead, Rows;
    FilterConcat(few, all[|few|..], Outscores(s));
    FilterNone(few, Outscores(s));
  }

  lemma SameSize(x: seq<Row>, y: seq<Row>)
    requires multiset(x) == multiset(y)
    ensures |x| == |y|
  {
    assert |x| == |multiset(x)| == |multiset(y)| == |y|;
  }

  /**
   An evidence row of the ranking with distractors is the row with its count in the evidence ranking,
   and stands behind as many distractors as score more.
   */
  lemma EvidenceStands(evidence: seq<Candidate>, distractors: seq<Candidate>, p: nat)
    requires Separate(evidence, distractors) && p < |Ranking(evidence + distractors)|
    requires IsEvidence()(Ranking(evidence + distractors)[p])
    ensures var noisy, rows := Ranking(evidence + distractors), Ranking(evidence);
      var i := Count(noisy, p);
      i < |rows| && noisy[p] == rows[i] && p == i + Ahead(distractors, ScoreAt(rows, i))
  {
    var noisy := Ranking(evidence + distractors);
    RankingFacts(evidence + distractors);
    RankingKeepsEvidence(evidence, distractors);
    hide Ranking, Count, Ahead, Filter;
    EvidenceAt(noisy, p);
    RowsBefore(noisy, p);
    assert noisy[p] in noisy;
    OutscoringInRanking(evidence, distractors, ScoreAt(noisy, p));
  }

  lemma CountBounds(evidence: seq<Candidate>, distractors: seq<Candidate>, t: nat)
    requires Separate(evidence, distractors) && t <= |Ranking(evidence + distractors)|
    ensures var noisy := Ranking(evidence + distractors);
      Count(noisy, t) <= |Ranking(evidence)| == Count(noisy, |noisy|)
  {
    RankingKeepsEvidence(evidence, distractors);
    hide Ranking, Count, Filter, Separate;
    var noisy := Ranking(evidence + distractors);
    CountEnds(noisy);
    CountGrows(noisy, t, |noisy|);
  }

  /** Every row of the evidence ranking stands there. */
  lemma EvidenceIsPlaced(evidence: seq<Candidate>, distractors: seq<Candidate>, i: nat)
    requires Separate(evidence, distractors) && i < |Ranking(evidence)|
    ensures var noisy, rows := Ranking(evidence + distractors), Ranking(evidence);
      var p := i + Ahead(distractors, ScoreAt(rows, i));
      p < |noisy| && noisy[p] == rows[i] && IsEvidence()(noisy[p]) && Count(noisy, p) == i
  {
    hide Ranking, Count, Ahead, Separate;
    var noisy := Ranking(evidence + distractors);
    CountBounds(evidence, distractors, |noisy|);
    var p := PlaceOf(noisy, i, |noisy|);
    EvidenceStands(evidence, distractors, p);
  }

  lemma {:induction false} AheadGrows(distractors: seq<Candidate>, s: real, s': real)
    requires s >= s'
    ensures Ahead(distractors, s) <= Ahead(distractors, s') <= |distractors|
  {
    if distractors != [] {
      AheadGrows(distractors[1..], s, s');
    }
  }

  lemma {:induction false} SomeoneAhead(distractors: seq<Candidate>, s: real)
    requires Ahead(distractors, s) > 0
    ensures exists d :: d in distractors && d.score > s
  {
    if distractors[0].score > s {
      assert distractors[0] in distractors;
    } else {
      SomeoneAhead(distractors[1..], s);
    }
  }

  /** Of distractors with one score either all are ahead or none is. */
  lemma {:induction false} AllAhead(distractors: seq<Candidate>, score: real, s: real)
    requires forall d | d in distractors :: d.score == score
    ensures Ahead(distractors, s) == if score > s then |distractors| else 0
  {
    if distractors != [] {
      assert distractors[0] in distractors;
      AllAhead(distractors[1..], score, s);
    }
  }

  // ----- Budgets -----

  lemma TakeIsPrefix(rows: seq<Row>, n: nat)
    ensures |Take(rows, n)| == if n <= |rows| then n else |rows|
    ensures forall i | 0 <= i < |Take(rows, n)| :: Take(rows, n)[i] == rows[i]
  {}

  lemma AnchorsOfTake(rows: seq<Row>, budget: nat)
    ensures |Anchors(Take(rows, budget))| == if budget <= |rows| then budget else |rows|
    ensures forall i | 0 <= i < |rows| && i < budget :: Anchors(Take(rows, budget))[i] == rows[i].candidate.anchor
  {}

  /** The rank of an anchor is the place of its last row within the budget. */
  lemma RankIsLastPlace(rows: seq<Row>, budget: nat, a: Anchor)
    requires a in Anchors(Take(rows, budget))
    ensures var anchors := Anchors(Take(rows, budget));
      && a in Ranks(anchors) && 1 <= Ranks(anchors)[a] <= |rows| && Ranks(anchors)[a] <= budget
      && AnchorAt(rows, Ranks(anchors)[a] - 1) == a
      && forall i | Ranks(anchors)[a] <= i < |rows| && i < budget :: rows[i].candidate.anchor != a
  {
    hide Ranks, Take, Anchors;
    var anchors := Anchors(Take(rows, budget));
    AnchorsOfTake(rows, budget);
    RanksAreLast(anchors);
    forall i | Ranks(anchors)[a] <= i < |rows| && i < budget ensures rows[i].candidate.anchor != a {
      assert i + 1 <= Ranks(anchors)[anchors[i]];
    }
  }

  lemma PlaceIsRetrieved(rows: seq<Row>, budget: nat, j: nat)
    requires j < |rows| && j < budget
    ensures AnchorAt(rows, j) in Anchors(Take(rows, budget))
  {
    hide Take, Anchors;
    AnchorsOfTake(rows, budget);
    assert Anchors(Take(rows, budget))[j] == AnchorAt(rows, j);
  }
}
