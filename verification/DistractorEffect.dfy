/** What adding distractors can do to ranks under the same budget. */
module DistractorEffect {
  import opened Sorting
  import opened RetrievalMetrics
  import opened SearchScoring
  import opened ContextRetrieval
  import opened DistractorPlacement

  lemma AnchorsDiffer(e: EvidenceItem, fixtureId: string, d: DistractorItem)
    ensures EvidenceAnchor(e) != DistractorAnchor(fixtureId, d)
  {
    assert EvidenceAnchor(e)[0] == 'f';
    assert DistractorAnchor(fixtureId, d)[0] == 'd';
  }

  lemma FixtureIsSeparate(fx: ScoredFixture, mode: SearchMode)
    ensures Separate(EvidenceCandidates(fx, mode), DistractorCandidates(fx, mode))
  {
    var es, ds := EvidenceCandidates(fx, mode), DistractorCandidates(fx, mode);
    forall c, d | c in es && d in ds ensures c.anchor != d.anchor {
      var i :| 0 <= i < |es| && es[i] == c;
      var j :| 0 <= j < |ds| && ds[j] == d;
      AnchorsDiffer(fx.evidence[i], fx.id, fx.distractors[j]);
    }
  }

  /** Rows with the same anchor stand together and have one score; true whenever the anchors are distinct. */
  ghost predicate InBlocks(rows: seq<Row>) {
    forall i, j, m | 0 <= i <= m <= j < |rows| && AnchorAt(rows, i) == AnchorAt(rows, j) ::
      AnchorAt(rows, m) == AnchorAt(rows, i) && ScoreAt(rows, m) == ScoreAt(rows, i)
  }

  /** When scores and anchors tell each other, equal anchors stand together. */
  lemma ScoresTellAnchors(evidence: seq<Candidate>)
    requires forall c, d | c in evidence && d in evidence :: c.score == d.score <==> c.anchor == d.anchor
    ensures InBlocks(Ranking(evidence))
  {
    var rows := Ranking(evidence);
    RankingFacts(evidence);
    hide Ranking, Filter;
    forall i, j, m | 0 <= i <= m <= j < |rows| && AnchorAt(rows, i) == AnchorAt(rows, j)
      ensures AnchorAt(rows, m) == AnchorAt(rows, i) && ScoreAt(rows, m) == ScoreAt(rows, i)
    {
      assert rows[i] in rows && rows[m] in rows && rows[j] in rows;
      assert (i == m || ByRank()(rows[i], rows[m])) && (m == j || ByRank()(rows[m], rows[j]));
    }
  }

  /** A retrieved evidence anchor belongs to an evidence row. */
  lemma GoldRowIsEvidence(evidence: seq<Candidate>, distractors: seq<Candidate>, r: nat)
    requires Separate(evidence, distractors) && r < |Ranking(evidence + distractors)|
    requires exists c :: c in evidence && c.anchor == AnchorAt(Ranking(evidence + distractors), r)
    ensures IsEvidence()(Ranking(evidence + distractors)[r])
  {
    var noisy := Ranking(evidence + distractors);
    RankingFacts(evidence + distractors);
    hide Ranking, Filter;
    assert noisy[r] in noisy && noisy[r].candidate in evidence + distractors;
  }

  /** Row i of the evidence ranking is followed by another row of its anchor and its score. */
  predicate Joined(rows: seq<Row>, i: nat) {
    i + 1 < |rows| && AnchorAt(rows, i + 1) == AnchorAt(rows, i) && ScoreAt(rows, i + 1) == ScoreAt(rows, i)
  }

  /**
   When the last row of an anchor within the budget, row q, is pushed out of it, the anchor's rank does not
   improve if the rows from its new last row on are joined.
   */
  lemma LastPlaceIsNoEarlier(evidence: seq<Candidate>, distractors: seq<Candidate>, b: nat, r: nat, q: nat)
    requires Separate(evidence, distractors)
    requires var noisy, rows := Ranking(evidence + distractors), Ranking(evidence);
      && r < |noisy| && r < b && q < |rows| && q < b && IsEvidence()(noisy[r])
      && AnchorAt(rows, q) == AnchorAt(noisy, r)
      && (forall m | r < m < |noisy| && m < b :: noisy[m].candidate.anchor != AnchorAt(noisy, r))
      && (Count(noisy, r) < q && Ahead(distractors, ScoreAt(rows, q)) > 0 ==> Joined(rows, Count(noisy, r)))
    ensures q <= r
  {
    hide Ranking, Count, Ahead, Filter, Separate;
    var noisy, rows := Ranking(evidence + distractors), Ranking(evidence);
    EvidenceStands(evidence, distractors, r);
    EvidenceIsPlaced(evidence, distractors, q);
    if r < q {
      EvidenceIsPlaced(evidence, distractors, Count(noisy, r) + 1);
    }
  }

  /** No anchor of the evidence is ranked better with distractors than without. */
  lemma RankNeverImproves(evidence: seq<Candidate>, distractors: seq<Candidate>, budget: nat, a: Anchor)
    requires Separate(evidence, distractors) && InBlocks(Ranking(evidence))
    requires a in Anchors(Take(Ranking(evidence + distractors), budget))
    requires exists c :: c in evidence && c.anchor == a
    ensures var clean := Anchors(Take(Ranking(evidence), budget));
      var noisy := Anchors(Take(Ranking(evidence + distractors), budget));
      && a in clean && a in Ranks(clean) && a in Ranks(noisy)
      && Ranks(clean)[a] <= Ranks(noisy)[a]
  {
    var r, q := RankPlaces(evidence, distractors, budget, a);
    hide Ranks, Ranking, InBlocks, Filter, Take, Anchors, Count, Ahead;
    var noisy, rows := Ranking(evidence + distractors), Ranking(evidence);
    EvidenceStands(evidence, distractors, r);
    if Count(noisy, r) < q {
      BlockStep(rows, Count(noisy, r), q);
    }
    LastPlaceIsNoEarlier(evidence, distractors, budget, r, q);
  }

  /** The last places of an anchor in both rankings, and with them its ranks. */
  lemma RankPlaces(evidence: seq<Candidate>, distractors: seq<Candidate>, budget: nat, a: Anchor)
    returns (r: nat, q: nat)
    requires Separate(evidence, distractors)
    requires a in Anchors(Take(Ranking(evidence + distractors), budget))
    requires exists c :: c in evidence && c.anchor == a
    ensures var clean := Anchors(Take(Ranking(evidence), budget));
      var noisy := Anchors(Take(Ranking(evidence + distractors), budget));
      && a in clean && a in Ranks(clean) && a in Ranks(noisy)
      && Ranks(clean)[a] == q + 1 && Ranks(noisy)[a] == r + 1
    ensures var noisy, rows := Ranking(evidence + distractors), Ranking(evidence);
      && r < |noisy| && r < budget && q < |rows| && q < budget && IsEvidence()(noisy[r])
      && AnchorAt(rows, q) == a && AnchorAt(noisy, r) == a
      && forall m | r < m < |noisy| && m < budget :: noisy[m].candidate.anchor != a
  {
    hide Ranks, Ranking, Filter, Take, Anchors, Count, Ahead;
    var clean, noisy := Ranking(evidence), Ranking(evidence + distractors);
    RankIsLastPlace(noisy, budget, a);
    r := Ranks(Anchors(Take(noisy, budget)))[a] - 1;
    GoldRowIsEvidence(evidence, distractors, r);
    EvidenceStands(evidence, distractors, r);
    PlaceIsRetrieved(clean, budget, Count(noisy, r));
    RankIsLastPlace(clean, budget, a);
    q := Ranks(Anchors(Take(clean, budget)))[a] - 1;
  }

  lemma BlockStep(rows: seq<Row>, j: nat, q: nat)
    requires InBlocks(rows) && j < q < |rows| && AnchorAt(rows, j) == AnchorAt(rows, q)
    ensures Joined(rows, j)
  {
    assert j <= j + 1 <= q;
  }
}
