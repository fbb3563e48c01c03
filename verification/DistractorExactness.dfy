/** Exactly when no distractor texts improve the rank of an evidence anchor. */
module DistractorExactness {
  import opened Sorting
  import opened RetrievalMetrics
  import opened SearchScoring
  import opened ContextRetrieval
  import opened DistractorPlacement
  import opened DistractorEffect
  import opened DistractorGain
  import opened EfficiencyExactness

  /** With these distractors and this budget the evidence anchor a is ranked better than without. */
  ghost predicate Improves(evidence: seq<Candidate>, distractors: seq<Candidate>, budget: nat, a: Anchor) {
    var clean := Anchors(Take(Ranking(evidence), budget));
    var noisy := Anchors(Take(Ranking(evidence + distractors), budget));
    && (exists c :: c in evidence && c.anchor == a) && a in noisy
    && (a in clean && a in Ranks(clean) && a in Ranks(noisy) ==> Ranks(noisy)[a] < Ranks(clean)[a])
  }

  /** Row j repeats an anchor of the rows before it. */
  ghost predicate Repeats(rows: seq<Row>, j: nat)
    requires j < |rows|
  {
    exists i | 0 <= i < j :: AnchorAt(rows, i) == AnchorAt(rows, j)
  }

  /** Every row that can be pushed out and repeats an anchor comes right after a row of that anchor and its score. */
  ghost predicate RepeatsJoined(mode: SearchMode, rows: seq<Row>) {
    forall j: nat | 0 < j < |rows| && Pushable(mode, rows, j) && Repeats(rows, j) :: Joined(rows, j - 1)
  }

  // ----- The condition is enough -----

  lemma {:induction false} JoinedFrom(mode: SearchMode, rows: seq<Row>, i: nat, q: nat)
    requires RepeatsJoined(mode, rows) && i < q < |rows| && AnchorAt(rows, i) == AnchorAt(rows, q)
    requires Pushable(mode, rows, q)
    ensures Joined(rows, i)
    decreases q
  {
    assert Repeats(rows, q) && Joined(rows, q - 1);
    if i < q - 1 {
      JoinedFrom(mode, rows, i, q - 1);
    }
  }

  lemma JoinedNeverImproves(
    mode: SearchMode, evidence: seq<Candidate>, distractors: seq<Candidate>, budget: nat, a: Anchor)
    requires Separate(evidence, distractors) && RepeatsJoined(mode, Ranking(evidence))
    requires forall q: nat | q < |Ranking(evidence)| && Ahead(distractors, ScoreAt(Ranking(evidence), q)) > 0 ::
      Pushable(mode, Ranking(evidence), q)
    ensures !Improves(evidence, distractors, budget, a)
  {
    if Improves(evidence, distractors, budget, a) {
      var r, q := RankPlaces(evidence, distractors, budget, a);
      hide Ranks, Ranking, Take, Anchors, Count, Ahead, Separate, Filter, RepeatsJoined, Pushable;
      var noisy, rows := Ranking(evidence + distractors), Ranking(evidence);
      EvidenceStands(evidence, distractors, r);
      var i := Count(noisy, r);
      if i < q && Ahead(distractors, ScoreAt(rows, q)) > 0 {
        JoinedFrom(mode, rows, i, q);
      }
      LastPlaceIsNoEarlier(evidence, distractors, budget, r, q);
    }
  }

  // ----- The condition is needed -----

  /** The latest row before row j with its anchor. */
  lemma {:induction false} LastRepeat(rows: seq<Row>, j: nat, m: nat) returns (i: nat)
    requires m <= j < |rows| && exists k | 0 <= k < m :: AnchorAt(rows, k) == AnchorAt(rows, j)
    ensures i < m && AnchorAt(rows, i) == AnchorAt(rows, j)
    ensures forall k | i < k < m :: AnchorAt(rows, k) != AnchorAt(rows, j)
  {
    i := m - 1;
    if AnchorAt(rows, i) != AnchorAt(rows, j) {
      i := LastRepeat(rows, j, m - 1);
    }
  }

  /** One distractor before the score group of row j pushes it out of the budget that ends with it. */
  lemma OneDistractorImproves(evidence: seq<Candidate>, d: Candidate, j: nat)
    requires Separate(evidence, [d]) && 0 < j < |Ranking(evidence)|
    requires Repeats(Ranking(evidence), j) && !Joined(Ranking(evidence), j - 1)
    requires var rows, t := Ranking(evidence), GroupStart(Ranking(evidence), j, j);
      ScoreAt(rows, j) < d.score && (t > 0 ==> d.score <= ScoreAt(rows, t - 1))
    ensures Improves(evidence, [d], j + 1, AnchorAt(Ranking(evidence), j))
  {
    var rows, noisy, a := Ranking(evidence), Ranking(evidence + [d]), AnchorAt(Ranking(evidence), j);
    RankingFacts(evidence);
    hide Ranks, Ranking, Take, Anchors, Count, Filter, Separate, GroupStart, Ahead, Joined, Sorted;
    assert rows[j] in rows && rows[j].candidate in evidence;
    RepeatIsRetrieved(evidence, d, j);
    var r, q := RankPlaces(evidence, [d], j + 1, a);
    EarlierRow(evidence, d, r, j);
    RankOfLast(rows, j);
  }

  lemma EarlierRow(evidence: seq<Candidate>, d: Candidate, r: nat, j: nat)
    requires Separate(evidence, [d]) && 0 < j < |Ranking(evidence)| && !Joined(Ranking(evidence), j - 1)
    requires var rows, t := Ranking(evidence), GroupStart(Ranking(evidence), j, j);
      ScoreAt(rows, j) < d.score && (t > 0 ==> d.score <= ScoreAt(rows, t - 1))
    requires r < |Ranking(evidence + [d])| && r <= j && IsEvidence()(Ranking(evidence + [d])[r])
    requires AnchorAt(Ranking(evidence + [d]), r) == AnchorAt(Ranking(evidence), j)
    ensures r < j
  {
    RankingFacts(evidence);
    hide Ranking, Count, Filter, Separate, GroupStart, Ahead, Joined, Sorted;
    EvidenceStands(evidence, [d], r);
    EarlierPlace(Ranking(evidence), d, Count(Ranking(evidence + [d]), r), j);
  }

  lemma RankOfLast(rows: seq<Row>, j: nat)
    requires j < |rows|
    ensures var anchors := Anchors(Take(rows, j + 1));
      AnchorAt(rows, j) in Ranks(anchors) && Ranks(anchors)[AnchorAt(rows, j)] == j + 1
  {
    hide Ranks, Take, Anchors;
    PlaceIsRetrieved(rows, j + 1, j);
    RankIsLastPlace(rows, j + 1, AnchorAt(rows, j));
  }

  lemma RepeatIsRetrieved(evidence: seq<Candidate>, d: Candidate, j: nat)
    requires Separate(evidence, [d]) && 0 < j < |Ranking(evidence)|
    requires Repeats(Ranking(evidence), j) && !Joined(Ranking(evidence), j - 1)
    requires var rows, t := Ranking(evidence), GroupStart(Ranking(evidence), j, j);
      ScoreAt(rows, j) < d.score && (t > 0 ==> d.score <= ScoreAt(rows, t - 1))
    ensures AnchorAt(Ranking(evidence), j) in Anchors(Take(Ranking(evidence + [d]), j + 1))
  {
    var rows := Ranking(evidence);
    RankingFacts(evidence);
    hide Ranking, Take, Anchors, Count, Filter, Separate, GroupStart, Ahead, Joined, Sorted;
    var i := LastRepeat(rows, j, j);
    EarlierPlace(rows, d, i, j);
    EvidenceIsPlaced(evidence, [d], i);
    PlaceIsRetrieved(Ranking(evidence + [d]), j + 1, i + Ahead([d], ScoreAt(rows, i)));
  }

  /** A row with the anchor of row j that still stands within the budget stands before place j. */
  lemma EarlierPlace(rows: seq<Row>, d: Candidate, k: nat, j: nat)
    requires Sorted(rows, ByRank()) && 0 < j < |rows| && k < |rows| && AnchorAt(rows, k) == AnchorAt(rows, j)
    requires !Joined(rows, j - 1) && (k < j || k + Ahead([d], ScoreAt(rows, k)) <= j)
    requires var t := GroupStart(rows, j, j);
      ScoreAt(rows, j) < d.score && (t > 0 ==> d.score <= ScoreAt(rows, t - 1))
    ensures k + Ahead([d], ScoreAt(rows, k)) < j
  {
    hide Ahead;
    AheadOfGroup(rows, [d], d.score, j, k);
  }

  lemma UnjoinedImproves(root: int -> real, fx: SearchFixture, mode: SearchMode, j: nat)
    returns (ds: seq<Distractor>, a: Anchor)
    requires IsRoot(root) && 0 < j < |EvidenceRanking(root, fx, mode)|
    requires Pushable(mode, EvidenceRanking(root, fx, mode), j) && Repeats(EvidenceRanking(root, fx, mode), j)
    requires !Joined(EvidenceRanking(root, fx, mode), j - 1)
    ensures Improves(EvidenceCandidates(Scored(root, fx), mode), Noise(root, With(fx, ds), mode), j + 1, a)
  {
    hide Improves, Ranking, Repeats, Joined, Score, IsRoot, EvidenceCandidates, GroupStart, Pushable;
    var es := EvidenceCandidates(Scored(root, fx), mode);
    var text := PushingText(root, fx, mode, j);
    ds := seq(1, _ => Distractor("push", text));
    a := AnchorAt(Ranking(es), j);
    CopiesScore(root, fx, text, 1, mode);
    NoiseIsSeparate(root, fx, ds, mode);
    var noise := Noise(root, With(fx, ds), mode);
    assert noise == [noise[0]] && noise[0] in noise;
    OneDistractorImproves(es, noise[0], j);
  }

  lemma NoiseIsSeparate(root: int -> real, fx: SearchFixture, ds: seq<Distractor>, mode: SearchMode)
    ensures Separate(EvidenceCandidates(Scored(root, fx), mode), Noise(root, With(fx, ds), mode))
  {
    FixtureIsSeparate(Scored(root, With(fx, ds)), mode);
    assert Scored(root, With(fx, ds)).evidence == Scored(root, fx).evidence;
    assert EvidenceCandidates(Scored(root, With(fx, ds)), mode) == EvidenceCandidates(Scored(root, fx), mode);
  }

  // ----- Both -----

  /** When every row can be pushed out, the condition is that equal anchors stand together with one score. */
  lemma JoinedIsInBlocks(mode: SearchMode, rows: seq<Row>)
    requires forall j: nat | j < |rows| :: Pushable(mode, rows, j)
    ensures RepeatsJoined(mode, rows) <==> InBlocks(rows)
  {
    hide Pushable;
    if InBlocks(rows) {
      forall j: nat | 0 < j < |rows| && Repeats(rows, j) ensures Joined(rows, j - 1) {
        var i :| 0 <= i < j && AnchorAt(rows, i) == AnchorAt(rows, j);
        assert i <= j - 1 <= j;
      }
    }
    if RepeatsJoined(mode, rows) {
      forall i, j, m | 0 <= i <= m <= j < |rows| && AnchorAt(rows, i) == AnchorAt(rows, j)
        ensures AnchorAt(rows, m) == AnchorAt(rows, i) && ScoreAt(rows, m) == ScoreAt(rows, i)
      {
        SameUpTo(mode, rows, i, m, j);
      }
    }
  }

  lemma {:induction false} SameUpTo(mode: SearchMode, rows: seq<Row>, i: nat, m: nat, j: nat)
    requires i <= m <= j < |rows| && AnchorAt(rows, i) == AnchorAt(rows, j) && RepeatsJoined(mode, rows)
    requires forall k: nat | k < |rows| :: Pushable(mode, rows, k)
    ensures AnchorAt(rows, m) == AnchorAt(rows, i) && ScoreAt(rows, m) == ScoreAt(rows, i)
    decreases m - i
  {
    hide RepeatsJoined, Pushable;
    if i < m {
      JoinedFrom(mode, rows, i, j);
      SameUpTo(mode, rows, i + 1, m, j);
    }
  }

  ghost predicate NeverImproves(root: int -> real, fx: SearchFixture, mode: SearchMode) {
    forall ds: seq<Distractor>, budget: nat, a ::
      !Improves(EvidenceCandidates(Scored(root, fx), mode), Noise(root, With(fx, ds), mode), budget, a)
  }

  /**
   No distractor texts and no budget improve the rank of an evidence anchor exactly when every row that can be
   pushed out and repeats an anchor comes right after a row of that anchor and its score.
   */
  lemma RankNeverImprovesExactly(root: int -> real, fx: SearchFixture, mode: SearchMode)
    requires IsRoot(root)
    ensures NeverImproves(root, fx, mode) <==> RepeatsJoined(mode, EvidenceRanking(root, fx, mode))
  {
    hide Improves, Ranking, Score, IsRoot, EvidenceCandidates, Repeats, Joined, Pushable, Ahead, With, Noise, Scored;
    var es, rows := EvidenceCandidates(Scored(root, fx), mode), EvidenceRanking(root, fx, mode);
    if RepeatsJoined(mode, rows) {
      forall ds: seq<Distractor>, budget: nat, a ensures !Improves(es, Noise(root, With(fx, ds), mode), budget, a) {
        NoiseIsSeparate(root, fx, ds, mode);
        WithKeeps(root, fx, ds, mode);
        forall q: nat | q < |rows| && Ahead(Noise(root, With(fx, ds), mode), ScoreAt(rows, q)) > 0
          ensures Pushable(mode, rows, q)
        {
          AheadIsPushable(root, With(fx, ds), mode, q);
        }
        JoinedNeverImproves(mode, es, Noise(root, With(fx, ds), mode), budget, a);
      }
    }
    if NeverImproves(root, fx, mode) {
      forall j: nat | 0 < j < |rows| && Pushable(mode, rows, j) && Repeats(rows, j) ensures Joined(rows, j - 1) {
        if !Joined(rows, j - 1) {
          var ds, a := UnjoinedImproves(root, fx, mode, j);
          assert false;
        }
      }
    }
  }

  /** In the modes whose scores have no limit, exactly when equal anchors stand together with one score. */
  lemma BlocksAreExact(root: int -> real, fx: SearchFixture, mode: SearchMode)
    requires IsRoot(root) && mode != Vector
    ensures NeverImproves(root, fx, mode) <==> InBlocks(EvidenceRanking(root, fx, mode))
  {
    hide NeverImproves, RepeatsJoined, InBlocks, EvidenceRanking, IsRoot;
    RankNeverImprovesExactly(root, fx, mode);
    JoinedIsInBlocks(mode, EvidenceRanking(root, fx, mode));
  }
}
