/** The offline search benchmark: ranked retrieval within a budget, with and without distractors. */
module ContextRetrieval {
  import opened Wrappers
  import opened Sorting
  import opened RetrievalMetrics
  import opened SearchScoring

  // ----- Fixtures -----

  /** An anchor of a file with the lines around its first occurrence. */
  datatype Evidence = Evidence(path: string, text: string, snippet: string)

  datatype Distractor = Distractor(id: string, text: string)

  datatype SearchFixture =
    SearchFixture(id: string, question: string, evidence: seq<Evidence>, distractors: seq<Distractor>)

  /** The text of a candidate: its path, if it has one, and what it says on the lines below. */
  function EvidenceText(e: Evidence): string {
    e.path + ['\n'] + e.snippet
  }

  function DistractorText(d: Distractor): string {
    "" + ['\n'] + d.text
  }

  /** An evidence anchor or a distractor with its score in each mode. */
  datatype EvidenceItem = EvidenceItem(path: string, text: string, score: SearchMode -> real)

  datatype DistractorItem = DistractorItem(id: string, score: SearchMode -> real)

  datatype ScoredFixture = ScoredFixture(id: string, evidence: seq<EvidenceItem>, distractors: seq<DistractorItem>)

  function ScoreOf(root: int -> real, question: string, text: string): SearchMode -> real {
    (mode: SearchMode) => Score(root, question, text, mode)
  }

  /** The fixture with its texts scored against its question. */
  function Scored(root: int -> real, fx: SearchFixture): ScoredFixture {
    ScoredFixture(fx.id,
      seq(|fx.evidence|, i requires 0 <= i < |fx.evidence| =>
        EvidenceItem(fx.evidence[i].path, fx.evidence[i].text,
          ScoreOf(root, fx.question, EvidenceText(fx.evidence[i])))),
      seq(|fx.distractors|, i requires 0 <= i < |fx.distractors| =>
        DistractorItem(fx.distractors[i].id, ScoreOf(root, fx.question, DistractorText(fx.distractors[i])))))
  }

  datatype Candidate = Candidate(anchor: Anchor, isEvidence: bool, score: real)

  function FileAnchor(path: string, text: string): Anchor {
    "file:" + path + ":" + text
  }

  function EvidenceAnchor(e: EvidenceItem): Anchor {
    FileAnchor(e.path, e.text)
  }

  function NamedAnchor(fixtureId: string, id: string): Anchor {
    "distractor:" + fixtureId + ":" + id
  }

  function DistractorAnchor(fixtureId: string, d: DistractorItem): Anchor {
    NamedAnchor(fixtureId, d.id)
  }

  function EvidenceCandidates(fx: ScoredFixture, mode: SearchMode): seq<Candidate> {
    seq(|fx.evidence|, i requires 0 <= i < |fx.evidence| =>
      Candidate(EvidenceAnchor(fx.evidence[i]), true, fx.evidence[i].score(mode)))
  }

  function DistractorCandidates(fx: ScoredFixture, mode: SearchMode): seq<Candidate> {
    seq(|fx.distractors|, i requires 0 <= i < |fx.distractors| =>
      Candidate(DistractorAnchor(fx.id, fx.distractors[i]), false, fx.distractors[i].score(mode)))
  }

  function Candidates(fx: ScoredFixture, mode: SearchMode, includeDistractors: bool): seq<Candidate> {
    EvidenceCandidates(fx, mode) + if includeDistractors then DistractorCandidates(fx, mode) else []
  }

  // ----- Ranking -----

  datatype Row = Row(candidate: Candidate, index: nat)

  /** The sort key: higher score first, then evidence before distractors, then the order of listing. */
  predicate RowLe(x: Row, y: Row) {
    || x.candidate.score > y.candidate.score
    || (x.candidate.score == y.candidate.score
        && (if x.candidate.isEvidence == y.candidate.isEvidence then x.index <= y.index else x.candidate.isEvidence))
  }

  function ByRank(): (Row, Row) -> bool {
    (x: Row, y: Row) => RowLe(x, y)
  }

  function Positive(): Row -> bool {
    (r: Row) => r.candidate.score > 0.0
  }

  function IsEvidence(): Row -> bool {
    (r: Row) => r.candidate.isEvidence
  }

  function Rows(candidates: seq<Candidate>): (rows: seq<Row>)
    ensures |rows| == |candidates| && forall i | 0 <= i < |rows| :: rows[i] == Row(candidates[i], i)
  {
    seq(|candidates|, i requires 0 <= i < |candidates| => Row(candidates[i], i))
  }

  /** All rows with a positive score, best first. */
  function Ranking(candidates: seq<Candidate>): seq<Row> {
    Filter(StableSort(Rows(candidates), ByRank()), Positive())
  }

  function Take<T>(s: seq<T>, n: nat): seq<T> {
    if n <= |s| then s[..n] else s
  }

  function Anchors(rows: seq<Row>): (anchors: seq<Anchor>)
    ensures |anchors| == |rows| && forall i | 0 <= i < |rows| :: anchors[i] == rows[i].candidate.anchor
  {
    seq(|rows|, i requires 0 <= i < |rows| => rows[i].candidate.anchor)
  }

  function Retrieved(fx: ScoredFixture, mode: SearchMode, budget: nat, includeDistractors: bool): seq<Anchor> {
    Anchors(Take(Ranking(Candidates(fx, mode, includeDistractors)), budget))
  }

  function GoldAnchors(fx: ScoredFixture): seq<Anchor> {
    seq(|fx.evidence|, i requires 0 <= i < |fx.evidence| => EvidenceAnchor(fx.evidence[i]))
  }

  function RunMetrics(fx: ScoredFixture, mode: SearchMode, budget: nat, includeDistractors: bool): Metrics {
    MetricBlock(GoldAnchors(fx), Retrieved(fx, mode, budget, includeDistractors))
  }

  /** A candidate before it is scored. */
  datatype Unscored = Unscored(anchor: Anchor, isEvidence: bool, text: string)

  function UnscoredCandidates(fx: SearchFixture, includeDistractors: bool): seq<Unscored> {
    seq(|fx.evidence|, i requires 0 <= i < |fx.evidence| =>
      Unscored(FileAnchor(fx.evidence[i].path, fx.evidence[i].text), true, EvidenceText(fx.evidence[i])))
    + if includeDistractors then
        seq(|fx.distractors|, i requires 0 <= i < |fx.distractors| =>
          Unscored(NamedAnchor(fx.id, fx.distractors[i].id), false, DistractorText(fx.distractors[i])))
      else []
  }

  lemma UnscoredAreCandidates(root: int -> real, fx: SearchFixture, mode: SearchMode, includeDistractors: bool)
    ensures var texts := UnscoredCandidates(fx, includeDistractors);
      var candidates := Candidates(Scored(root, fx), mode, includeDistractors);
      && |texts| == |candidates|
      && forall i | 0 <= i < |texts| :: candidates[i]
           == Candidate(texts[i].anchor, texts[i].isEvidence, Score(root, fx.question, texts[i].text, mode))
  {
    hide Score, FileAnchor, NamedAnchor, EvidenceText, DistractorText;
    var texts, scored := UnscoredCandidates(fx, includeDistractors), Scored(root, fx);
    var es, ds := EvidenceCandidates(scored, mode), DistractorCandidates(scored, mode);
    var n := |fx.evidence|;
    forall i | 0 <= i < |texts|
      ensures Candidates(scored, mode, includeDistractors)[i]
           == Candidate(texts[i].anchor, texts[i].isEvidence, Score(root, fx.question, texts[i].text, mode))
    {
      assert if i < n then es[i].score == ScoreOf(root, fx.question, EvidenceText(fx.evidence[i]))(mode)
             else ds[i - n].score == ScoreOf(root, fx.question, DistractorText(fx.distractors[i - n]))(mode);
    }
  }

  /** `_evaluate_search_run`; None stands for the error on a budget below one. */
  method EvaluateSearchRun(
    root: int -> real, fx: SearchFixture, mode: SearchMode, budget: int, includeDistractors: bool)
    returns (metrics: Option<Metrics>)
    ensures metrics == if budget < 1 then None else Some(RunMetrics(Scored(root, fx), mode, budget, includeDistractors))
  {
    hide MetricBlock, StableSort, Filter, Score, Candidates, UnscoredCandidates;
    if budget < 1 {
      return None;
    }
    var candidates := UnscoredCandidates(fx, includeDistractors);
    ghost var all := Candidates(Scored(root, fx), mode, includeDistractors);
    UnscoredAreCandidates(root, fx, mode, includeDistractors);
    var scored: seq<Row> := [];
    for index := 0 to |candidates|
      invariant |scored| == index && forall i | 0 <= i < index :: scored[i] == Row(all[i], i)
    {
      var c := candidates[index];
      scored := scored + [Row(Candidate(c.anchor, c.isEvidence, Score(root, fx.question, c.text, mode)), index)];
    }
    assert scored == Rows(all);
    var ranked := Take(Filter(StableSort(scored, ByRank()), Positive()), budget);
    var gold := seq(|fx.evidence|, i requires 0 <= i < |fx.evidence| =>
      FileAnchor(fx.evidence[i].path, fx.evidence[i].text));
    assert gold == GoldAnchors(Scored(root, fx));
    metrics := Some(MetricBlock(gold, Anchors(ranked)));
  }

  // ----- Evidence keeps its order when distractors are added -----

  lemma RanksAreOrdered()
    ensures TotalPreorder(ByRank())
  {}

  lemma RowsAreKnownByIndex(candidates: seq<Candidate>, x: Row, y: Row)
    requires x in Rows(candidates) && y in Rows(candidates) && x.index == y.index
    ensures x == y
  {}

  lemma {:induction false} FilterCommutes(rows: seq<Row>, p: Row -> bool, q: Row -> bool)
    ensures Filter(Filter(rows, p), q) == Filter(Filter(rows, q), p)
  {
    if rows != [] {
      var head, tail := [rows[0]], rows[1..];
      FilterCommutes(tail, p, q);
      FilterConcat(if p(rows[0]) then head else [], Filter(tail, p), q);
      FilterConcat(if q(rows[0]) then head else [], Filter(tail, q), p);
      assert Filter(head, p) == if p(rows[0]) then head else [];
      assert Filter(head, q) == if q(rows[0]) then head else [];
    }
  }

  lemma EvidenceRows(evidence: seq<Candidate>, distractors: seq<Candidate>)
    requires forall c | c in evidence :: c.isEvidence
    requires forall c | c in distractors :: !c.isEvidence
    ensures Filter(Rows(evidence + distractors), IsEvidence()) == Rows(evidence)
  {
    var few, all := Rows(evidence), Rows(evidence + distractors);
    assert all == few + all[|few|..];
    FilterConcat(few, all[|few|..], IsEvidence());
    FilterAll(few, IsEvidence());
    FilterNone(all[|few|..], IsEvidence());
  }

  /** Sorting with distractors and then dropping them is sorting without them. */
  lemma EvidenceOrderIsKept(evidence: seq<Candidate>, distractors: seq<Candidate>)
    requires forall c | c in evidence :: c.isEvidence
    requires forall c | c in distractors :: !c.isEvidence
    ensures Filter(StableSort(Rows(evidence + distractors), ByRank()), IsEvidence())
         == StableSort(Rows(evidence), ByRank())
  {
    hide StableSort;
    EvidenceRows(evidence, distractors);
    RanksAreOrdered();
    var few := Rows(evidence);
    forall x, y | x in few && y in few && ByRank()(x, y) && ByRank()(y, x) ensures x == y {
      RowsAreKnownByIndex(evidence, x, y);
    }
    FilterOfSort(Rows(evidence + distractors), IsEvidence(), ByRank());
  }

  lemma EvidenceRankingIsKept(evidence: seq<Candidate>, distractors: seq<Candidate>)
    requires forall c | c in evidence :: c.isEvidence
    requires forall c | c in distractors :: !c.isEvidence
    ensures Filter(Ranking(evidence + distractors), IsEvidence()) == Ranking(evidence)
  {
    EvidenceOrderIsKept(evidence, distractors);
    FilterCommutes(StableSort(Rows(evidence + distractors), ByRank()), Positive(), IsEvidence());
  }

  /** What a budget keeps of the filtered list is a prefix of the filtered list. */
  lemma FilterOfTake(rows: seq<Row>, keep: Row -> bool, n: nat)
    ensures Filter(Take(rows, n), keep) <= Take(Filter(rows, keep), n)
  {
    if n <= |rows| {
      assert rows == rows[..n] + rows[n..];
      FilterConcat(rows[..n], rows[n..], keep);
      FilterIsShorter(rows[..n], keep);
    } else {
      FilterIsShorter(rows, keep);
    }
  }

  /** The evidence retrieved with distractors is a prefix of the evidence retrieved without them. */
  lemma RetrievedEvidenceIsPrefix(evidence: seq<Candidate>, distractors: seq<Candidate>, budget: nat)
    requires forall c | c in evidence :: c.isEvidence
    requires forall c | c in distractors :: !c.isEvidence
    ensures Filter(Take(Ranking(evidence + distractors), budget), IsEvidence()) <= Take(Ranking(evidence), budget)
  {
    hide Ranking, Take, Filter;
    EvidenceRankingIsKept(evidence, distractors);
    FilterOfTake(Ranking(evidence + distractors), IsEvidence(), budget);
  }

  lemma {:induction false} FilterIsShorter(rows: seq<Row>, keep: Row -> bool)
    ensures |Filter(rows, keep)| <= |rows|
  {
    if rows != [] {
      FilterIsShorter(rows[1..], keep);
    }
  }

  lemma TakeHolds(rows: seq<Row>, n: nat, m: nat)
    requires m < |rows|
    ensures m < n ==> rows[m] in Take(rows, n)
  {
    if m < n {
      assert Take(rows, n)[m] == rows[m];
    }
  }

  /** Nothing left out of the budget scores better than what is returned, and nothing returned scores zero or less. */
  lemma BestScoresAreReturned(candidates: seq<Candidate>, budget: nat, i: nat, k: nat)
    requires i < |Take(Ranking(candidates), budget)| && k < |candidates|
    ensures Take(Ranking(candidates), budget)[i].candidate.score > 0.0
    ensures candidates[k].score > 0.0 && Row(candidates[k], k) !in Take(Ranking(candidates), budget)
      ==> candidates[k].score <= Take(Ranking(candidates), budget)[i].candidate.score
  {
    var rows, ranking := Rows(candidates), Ranking(candidates);
    RanksAreOrdered();
    SortSorts(rows, ByRank());
    SortSameElements(rows, ByRank());
    FilterSorted(StableSort(rows, ByRank()), Positive(), ByRank());
    hide StableSort;
    assert ranking[i] in ranking;
    var r := Row(candidates[k], k);
    if candidates[k].score > 0.0 && r !in Take(ranking, budget) {
      assert rows[k] == r && r in ranking;
      var m :| 0 <= m < |ranking| && ranking[m] == r;
      TakeHolds(ranking, budget, m);
      assert ByRank()(ranking[i], ranking[m]);
    }
  }
}
