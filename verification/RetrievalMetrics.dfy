/** Recall, precision and rank-weighted efficiency of a retrieved list against gold anchors. */
module RetrievalMetrics {
  import opened Strings
  import opened Rounding

  type Anchor = string

  /** `{anchor: index + 1}` over the retrieved list: a repeated anchor keeps its last rank. */
  function Ranks(retrieved: seq<Anchor>): map<Anchor, nat> {
    if retrieved == [] then map[]
    else Ranks(retrieved[..|retrieved| - 1])[retrieved[|retrieved| - 1] := |retrieved|]
  }

  lemma {:induction false} RanksAreLast(retrieved: seq<Anchor>)
    ensures forall a :: a in Ranks(retrieved) <==> a in retrieved
    ensures forall a | a in retrieved ::
      1 <= Ranks(retrieved)[a] <= |retrieved| && retrieved[Ranks(retrieved)[a] - 1] == a
    ensures forall i | 0 <= i < |retrieved| :: i + 1 <= Ranks(retrieved)[retrieved[i]]
  {
    if retrieved != [] {
      var n := |retrieved| - 1;
      RanksAreLast(retrieved[..n]);
      assert retrieved == retrieved[..n] + [retrieved[n]];
      forall i | 0 <= i < |retrieved| ensures i + 1 <= Ranks(retrieved)[retrieved[i]] {
        if i < n {
          assert retrieved[..n][i] == retrieved[i];
        }
      }
    }
  }

  function InverseRank(a: Anchor, ranks: map<Anchor, nat>): real {
    if a in ranks && ranks[a] > 0 then 1.0 / ranks[a] as real else 0.0
  }

  function InverseRanks(anchors: seq<Anchor>, ranks: map<Anchor, nat>): real {
    if anchors == [] then 0.0 else InverseRank(anchors[0], ranks) + InverseRanks(anchors[1..], ranks)
  }

  function Hits(gold: set<Anchor>, retrieved: seq<Anchor>): set<Anchor> {
    set a | a in gold && a in retrieved
  }

  function Distinct(anchors: seq<Anchor>): set<Anchor> {
    set a | a in anchors
  }

  function Recall(gold: set<Anchor>, retrieved: seq<Anchor>): real {
    if gold == {} then 1.0 else |Hits(gold, retrieved)| as real / |gold| as real
  }

  function Precision(gold: set<Anchor>, retrieved: seq<Anchor>): real {
    if retrieved != [] && Distinct(retrieved) != {} then |Hits(gold, retrieved)| as real / |Distinct(retrieved)| as real
    else if gold == {} then 1.0 else 0.0
  }

  function Efficiency(gold: set<Anchor>, retrieved: seq<Anchor>): real {
    if gold == {} then 1.0 else InverseRanks(SortedKeys(gold), Ranks(retrieved)) / |gold| as real
  }

  datatype Metrics = Metrics(recall: real, precision: real, efficiency: real)

  /** The three rates of `_metric_block`. */
  function MetricBlock(gold: seq<Anchor>, retrieved: seq<Anchor>): Metrics {
    var g := Distinct(gold);
    Metrics(Round4(Recall(g, retrieved)), Round4(Precision(g, retrieved)), Round4(Efficiency(g, retrieved)))
  }

  // ----- Ranks are distinct, so efficiency is at most harmonic -----

  function Harmonic(n: nat): real {
    if n == 0 then 0.0 else Harmonic(n - 1) + 1.0 / n as real
  }

  /** Whether position i holds a wanted anchor for the last time. */
  predicate Scores(retrieved: seq<Anchor>, wanted: set<Anchor>, i: nat)
    requires i < |retrieved|
  {
    retrieved[i] in wanted && retrieved[i] !in retrieved[i + 1..]
  }

  function ScoringPositions(retrieved: seq<Anchor>, wanted: set<Anchor>, n: nat): nat
    requires n <= |retrieved|
  {
    if n == 0 then 0
    else ScoringPositions(retrieved, wanted, n - 1) + if Scores(retrieved, wanted, n - 1) then 1 else 0
  }

  function PositionSum(retrieved: seq<Anchor>, wanted: set<Anchor>, n: nat): real
    requires n <= |retrieved|
  {
    if n == 0 then 0.0
    else PositionSum(retrieved, wanted, n - 1) + if Scores(retrieved, wanted, n - 1) then 1.0 / n as real else 0.0
  }

  lemma InverseOrder(a: nat, b: nat)
    requires 0 < a <= b
    ensures 0.0 < 1.0 / b as real <= 1.0 / a as real <= 1.0
  {}

  lemma {:induction false} PositionsAreHarmonic(retrieved: seq<Anchor>, wanted: set<Anchor>, n: nat)
    requires n <= |retrieved|
    ensures ScoringPositions(retrieved, wanted, n) <= n
    ensures PositionSum(retrieved, wanted, n) <= Harmonic(ScoringPositions(retrieved, wanted, n))
  {
    if n > 0 {
      PositionsAreHarmonic(retrieved, wanted, n - 1);
      InverseOrder(ScoringPositions(retrieved, wanted, n - 1) + 1, n);
    }
  }

  lemma {:induction false} LastPosition(retrieved: seq<Anchor>, i: nat)
    requires i < |retrieved|
    ensures retrieved[i] in Ranks(retrieved)
    ensures retrieved[i] !in retrieved[i + 1..] <==> Ranks(retrieved)[retrieved[i]] == i + 1
  {
    RanksAreLast(retrieved);
    var r := Ranks(retrieved)[retrieved[i]];
    if r > i + 1 {
      assert retrieved[i + 1..][r - 2 - i] == retrieved[r - 1];
    }
    if retrieved[i] in retrieved[i + 1..] {
      var j :| 0 <= j < |retrieved[i + 1..]| && retrieved[i + 1..][j] == retrieved[i];
      assert retrieved[i + 1 + j] == retrieved[i];
    }
  }

  /** Adding one wanted anchor adds its rank's inverse once. */
  lemma {:induction false} OneMoreWanted(retrieved: seq<Anchor>, wanted: set<Anchor>, a: Anchor, n: nat)
    requires n <= |retrieved| && a !in wanted
    ensures var ranks := Ranks(retrieved);
      var counts := a in ranks && ranks[a] <= n && ranks[a] > 0;
      && PositionSum(retrieved, wanted + {a}, n)
           == PositionSum(retrieved, wanted, n) + (if counts then 1.0 / ranks[a] as real else 0.0)
      && ScoringPositions(retrieved, wanted + {a}, n)
           == ScoringPositions(retrieved, wanted, n) + (if counts then 1 else 0)
  {
    hide Ranks;
    if n > 0 {
      OneMoreWanted(retrieved, wanted, a, n - 1);
      LastPosition(retrieved, n - 1);
    }
    RanksAreLast(retrieved);
  }

  lemma NothingWanted(retrieved: seq<Anchor>, n: nat)
    requires n <= |retrieved|
    ensures PositionSum(retrieved, {}, n) == 0.0 && ScoringPositions(retrieved, {}, n) == 0
  {
    if n > 0 {
      NothingWanted(retrieved, n - 1);
    }
  }

  lemma OneMoreAnchor(anchors: seq<Anchor>)
    requires anchors != [] && forall i, j | 0 <= i < j < |anchors| :: anchors[i] != anchors[j]
    ensures Distinct(anchors) == Distinct(anchors[1..]) + {anchors[0]} && anchors[0] !in Distinct(anchors[1..])
  {}

  lemma OneMoreHit(wanted: set<Anchor>, a: Anchor, retrieved: seq<Anchor>)
    requires a !in wanted
    ensures |Hits(wanted + {a}, retrieved)| == |Hits(wanted, retrieved)| + if a in retrieved then 1 else 0
  {
    if a in retrieved {
      assert Hits(wanted + {a}, retrieved) == Hits(wanted, retrieved) + {a};
    } else {
      assert Hits(wanted + {a}, retrieved) == Hits(wanted, retrieved);
    }
  }

  /** Summing over the anchors is summing over the positions that score. */
  lemma {:induction false} SumsAgree(retrieved: seq<Anchor>, anchors: seq<Anchor>)
    requires forall i, j | 0 <= i < j < |anchors| :: anchors[i] != anchors[j]
    ensures InverseRanks(anchors, Ranks(retrieved)) == PositionSum(retrieved, Distinct(anchors), |retrieved|)
    ensures ScoringPositions(retrieved, Distinct(anchors), |retrieved|) == |Hits(Distinct(anchors), retrieved)|
  {
    RanksAreLast(retrieved);
    hide Ranks;
    if anchors == [] {
      assert Distinct(anchors) == {} && Hits({}, retrieved) == {};
      NothingWanted(retrieved, |retrieved|);
    } else {
      var a, rest := anchors[0], Distinct(anchors[1..]);
      SumsAgree(retrieved, anchors[1..]);
      OneMoreAnchor(anchors);
      hide Distinct, Hits;
      OneMoreWanted(retrieved, rest, a, |retrieved|);
      OneMoreHit(rest, a, retrieved);
    }
  }

  lemma {:induction false} InverseRanksAtMostHits(retrieved: seq<Anchor>, anchors: seq<Anchor>)
    requires forall i, j | 0 <= i < j < |anchors| :: anchors[i] != anchors[j]
    ensures 0.0 <= InverseRanks(anchors, Ranks(retrieved)) <= |Hits(Distinct(anchors), retrieved)| as real
  {
    RanksAreLast(retrieved);
    hide Ranks;
    if anchors != [] {
      var a, rest := anchors[0], Distinct(anchors[1..]);
      InverseRanksAtMostHits(retrieved, anchors[1..]);
      OneMoreAnchor(anchors);
      hide Distinct, Hits;
      OneMoreHit(rest, a, retrieved);
      if a in retrieved {
        InverseOrder(1, Ranks(retrieved)[a]);
      }
    }
  }

  lemma SortedKeysAreDistinct(keys: set<string>)
    ensures Distinct(SortedKeys(keys)) == keys
  {}

  /** Efficiency counts the positions that score. */
  lemma {:induction false} EfficiencyByPosition(gold: set<Anchor>, retrieved: seq<Anchor>)
    requires gold != {}
    ensures Efficiency(gold, retrieved) == PositionSum(retrieved, gold, |retrieved|) / |gold| as real
  {
    SortedKeysAreDistinct(gold);
    SumsAgree(retrieved, SortedKeys(gold));
  }

  lemma Shares(sum: real, hits: real, g: real)
    requires 0.0 <= sum <= hits <= g && g > 0.0
    ensures 0.0 <= sum / g <= hits / g <= 1.0 && sum / g * g == sum
  {}

  /**
   Efficiency is between 0 and recall, recall is at most 1, and efficiency times the number of gold
   anchors is at most the harmonic number of the hits, even when the retrieved list repeats anchors.
   */
  lemma EfficiencyBounds(gold: set<Anchor>, retrieved: seq<Anchor>)
    ensures 0.0 <= Efficiency(gold, retrieved) <= Recall(gold, retrieved) <= 1.0
    ensures gold != {} ==>
      Efficiency(gold, retrieved) * |gold| as real <= Harmonic(|Hits(gold, retrieved)|)
  {
    hide InverseRanks, Harmonic, Ranks, Hits, SortedKeys;
    if gold != {} {
      SumBounds(gold, retrieved);
      var sum := InverseRanks(SortedKeys(gold), Ranks(retrieved));
      var hits, g := |Hits(gold, retrieved)| as real, |gold| as real;
      assert Efficiency(gold, retrieved) == sum / g && Recall(gold, retrieved) == hits / g;
      hide Efficiency, Recall;
      Shares(sum, hits, g);
    }
  }

  lemma {:induction false} SumBounds(gold: set<Anchor>, retrieved: seq<Anchor>)
    ensures 0.0 <= InverseRanks(SortedKeys(gold), Ranks(retrieved)) <= |Hits(gold, retrieved)| as real <= |gold| as real
    ensures InverseRanks(SortedKeys(gold), Ranks(retrieved)) <= Harmonic(|Hits(gold, retrieved)|)
  {
    hide InverseRanks, Harmonic, Ranks, PositionSum, ScoringPositions, Hits;
    SortedKeysAreDistinct(gold);
    hide Distinct;
    var anchors := SortedKeys(gold);
    InverseRanksAtMostHits(retrieved, anchors);
    SumsAgree(retrieved, anchors);
    PositionsAreHarmonic(retrieved, gold, |retrieved|);
    HitsAtMostGold(gold, retrieved);
  }

  lemma HitsAtMostGold(gold: set<Anchor>, retrieved: seq<Anchor>)
    ensures |Hits(gold, retrieved)| <= |gold|
  {
    SubsetSize(Hits(gold, retrieved), gold);
  }

  lemma {:induction false} SubsetSize(a: set<Anchor>, b: set<Anchor>)
    requires a <= b
    ensures |a| <= |b|
    decreases |a|
  {
    if a != {} {
      var x :| x in a;
      SubsetSize(a - {x}, b - {x});
    }
  }

  // ----- Full marks -----

  /** Recall is 1 exactly when every gold anchor is retrieved. */
  lemma RecallIsOneExactly(gold: set<Anchor>, retrieved: seq<Anchor>)
    ensures Recall(gold, retrieved) == 1.0 <==> forall a | a in gold :: a in retrieved
  {
    var hits := Hits(gold, retrieved);
    HitsAtMostGold(gold, retrieved);
    if gold != {} {
      WholeShareOnly(|hits|, |gold|);
      if |hits| == |gold| {
        SubsetOfSameSize(hits, gold);
      }
      if forall a | a in gold :: a in retrieved {
        assert hits == gold;
      }
    }
  }

  lemma WholeShareOnly(x: nat, d: nat)
    requires d > 0
    ensures x as real / d as real == 1.0 <==> x == d
  {}

  lemma SubsetOfSameSize(a: set<Anchor>, b: set<Anchor>)
    requires a <= b && |a| == |b|
    ensures a == b
  {
    if x :| x in b && x !in a {
      SubsetSize(a, b - {x});
      assert false;
    }
  }
}
