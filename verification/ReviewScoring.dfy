/** Precision, recall and thresholds of a review evaluation, for one fixture and for a pack. */
module ReviewScoring {
  import opened Rounding
  import opened ReviewMatching

  datatype Thresholds = Thresholds(minPrecision: real, minRecall: real, maxSpurious: int)

  const DEFAULT_THRESHOLDS := Thresholds(1.0, 1.0, 0)

  /** A quotient before rounding; `empty` stands for 0 / 0. */
  function Quotient(numerator: nat, denominator: nat, empty: real): real {
    if denominator == 0 then empty else numerator as real / denominator as real
  }

  /** `_ratio`. */
  function Ratio(numerator: nat, denominator: nat, empty: real): real {
    if denominator == 0 then empty else Round4(Quotient(numerator, denominator, empty))
  }

  datatype Counts = Counts(expected: nat, actual: nat, truePositives: nat, missed: nat, spurious: nat)

  /** Counts as matching produces them. */
  ghost predicate Balanced(c: Counts) {
    c.truePositives + c.missed == c.expected && c.truePositives + c.spurious == c.actual
  }

  predicate ThresholdsMet(c: Counts, t: Thresholds) {
    && Ratio(c.truePositives, c.truePositives + c.spurious, 1.0) >= t.minPrecision
    && Ratio(c.truePositives, c.expected, 1.0) >= t.minRecall
    && c.spurious <= t.maxSpurious
  }

  datatype ReviewFixture = ReviewFixture(expected: seq<Expectation>, findings: seq<ReviewFinding>)

  function FixtureCounts(fx: ReviewFixture): Counts {
    var m := Greedy(fx.expected, fx.findings, |fx.expected|);
    Counts(|fx.expected|, |fx.findings|, |m.truePositives|, |m.missed|, |Spurious(fx.findings, m.used, |fx.findings|)|)
  }

  lemma FixtureBalances(fx: ReviewFixture)
    ensures Balanced(FixtureCounts(fx))
  {
    Conservation(fx.expected, fx.findings);
  }

  // ----- Passing one fixture -----

  lemma ShortfallOfOne(part: nat, whole: nat)
    requires part <= whole && whole > 0
    ensures Quotient(part, whole, 1.0) <= 1.0
    ensures Quotient(part, whole, 1.0) >= 1.0 - 0.00005 <==> 20000 * (whole - part) <= whole
  {
    QuotientTimes(part, whole);
    var q := Quotient(part, whole, 1.0);
    hide Quotient;
    Shortfall(q, whole as real, (whole - part) as real);
  }

  lemma QuotientTimes(n: nat, d: nat)
    requires d > 0
    ensures Quotient(n, d, 1.0) * d as real == n as real
  {}

  lemma ScaledOrder(a: real, b: real, d: real)
    requires d > 0.0
    ensures a * d <= b * d <==> a <= b
  {}

  lemma Shortfall(q: real, w: real, missing: real)
    requires w > 0.0 && missing >= 0.0 && q * w == w - missing
    ensures q <= 1.0
    ensures q >= 1.0 - 0.00005 <==> 20000.0 * missing <= w
  {
    ScaledOrder(q, 1.0, w);
    ScaledOrder(1.0 - 0.00005, q, w);
  }

  /** The default recall check passes exactly when at most one expectation in 20000 is missed. */
  lemma RecallPassesExactly(c: Counts)
    requires Balanced(c)
    ensures Ratio(c.truePositives, c.expected, 1.0) >= 1.0 <==> 20000 * c.missed <= c.expected
  {
    if c.expected > 0 {
      ShortfallOfOne(c.truePositives, c.expected);
      Round4ReachesOne(Quotient(c.truePositives, c.expected, 1.0));
    }
  }

  lemma PrecisionWithoutSpurious(c: Counts)
    requires c.spurious == 0
    ensures Ratio(c.truePositives, c.truePositives + c.spurious, 1.0) == 1.0
  {
    if c.truePositives > 0 {
      assert Quotient(c.truePositives, c.truePositives, 1.0) == 1.0;
      Round4OfWhole(1);
    }
  }

  /** The part of the whole reaches k steps of 1/10000, within half a step; an empty whole counts as 10000 steps. */
  predicate Reaches(part: nat, whole: nat, k: int) {
    if whole == 0 then k <= 10000
    else 20000 * part > (2 * k - 1) * whole || (20000 * part == (2 * k - 1) * whole && k % 2 == 0)
  }

  /** What any thresholds of four decimals decide, in whole numbers. */
  lemma ThresholdsDecide(c: Counts, t: Thresholds, precision: int, recall: int)
    requires Balanced(c) && t.minPrecision * 10000.0 == precision as real && t.minRecall * 10000.0 == recall as real
    ensures ThresholdsMet(c, t)
      <==> && Reaches(c.truePositives, c.actual, precision) && Reaches(c.truePositives, c.expected, recall)
           && c.spurious <= t.maxSpurious
  {
    hide Ratio, Reaches;
    RatioReaches(c.truePositives, c.actual, t.minPrecision, precision);
    RatioReaches(c.truePositives, c.expected, t.minRecall, recall);
  }

  lemma RatioReaches(part: nat, whole: nat, least: real, k: int)
    requires least * 10000.0 == k as real
    ensures Ratio(part, whole, 1.0) >= least <==> Reaches(part, whole, k)
  {
    if whole > 0 {
      QuotientTimes(part, whole);
      var q := Quotient(part, whole, 1.0);
      hide Quotient;
      RoundReaches(q * 10000.0, k);
      var rounded := RoundHalfEven(q * 10000.0);
      assert Ratio(part, whole, 1.0) == rounded as real / 10000.0;
      assert Ratio(part, whole, 1.0) >= least <==> rounded >= k;
      Multiplied(q, part, whole, 2 * k - 1);
    }
  }

  lemma Multiplied(q: real, part: nat, whole: nat, m: int)
    requires whole > 0 && q * whole as real == part as real
    ensures 2.0 * (q * 10000.0) > m as real <==> 20000 * part > m * whole
    ensures 2.0 * (q * 10000.0) == m as real <==> 20000 * part == m * whole
  {
    var x := 2.0 * (q * 10000.0);
    assert x * whole as real == 20000.0 * (q * whole as real);
    assert (20000 * part) as real == 20000.0 * part as real;
    assert (m * whole) as real == m as real * whole as real;
    ScaledOrder(x, m as real, whole as real);
    ScaledOrder(m as real, x, whole as real);
  }

  /** What the default thresholds decide, in whole numbers. */
  lemma DefaultThresholdsDecide(c: Counts)
    requires Balanced(c)
    ensures ThresholdsMet(c, DEFAULT_THRESHOLDS) <==> c.spurious == 0 && 20000 * c.missed <= c.expected
  {
    RecallPassesExactly(c);
    if c.spurious == 0 {
      PrecisionWithoutSpurious(c);
    }
  }

  /**
   A fixture with fewer than 20000 expectations passes the default thresholds exactly when greedy
   matching pairs every expectation with its own finding and leaves no finding over.
   */
  lemma PassingIsPerfect(fx: ReviewFixture)
    requires |fx.expected| < 20000
    ensures FixtureOk(fx, DEFAULT_THRESHOLDS)
      <==> |fx.expected| == |fx.findings| == |Greedy(fx.expected, fx.findings, |fx.expected|).truePositives|
  {
    hide ThresholdsMet;
    FixtureBalances(fx);
    DefaultThresholdsDecide(FixtureCounts(fx));
  }

  // ----- A pack of fixtures -----

  function Plus(a: Counts, b: Counts): Counts {
    Counts(a.expected + b.expected, a.actual + b.actual, a.truePositives + b.truePositives, a.missed + b.missed,
           a.spurious + b.spurious)
  }

  function Totals(fixtures: seq<ReviewFixture>, n: nat): Counts
    requires n <= |fixtures|
  {
    if n == 0 then Counts(0, 0, 0, 0, 0) else Plus(Totals(fixtures, n - 1), FixtureCounts(fixtures[n - 1]))
  }

  function PackCounts(fixtures: seq<ReviewFixture>): Counts {
    Totals(fixtures, |fixtures|)
  }

  predicate FixtureOk(fx: ReviewFixture, t: Thresholds) {
    ThresholdsMet(FixtureCounts(fx), t)
  }

  method EvaluateFixture(fx: ReviewFixture, thresholds: Thresholds) returns (c: Counts, ok: bool)
    ensures c == FixtureCounts(fx) && ok == FixtureOk(fx, thresholds)
  {
    hide ThresholdsMet;
    var matching, spurious := MatchFixture(fx.expected, fx.findings);
    c := Counts(|fx.expected|, |fx.findings|, |matching.truePositives|, |matching.missed|, |spurious|);
    ok := ThresholdsMet(c, thresholds);
  }

  /** The totals meet the thresholds, and so does every fixture. */
  predicate PackOk(fixtures: seq<ReviewFixture>, t: Thresholds) {
    && ThresholdsMet(PackCounts(fixtures), t)
    && forall i | 0 <= i < |fixtures| :: FixtureOk(fixtures[i], t)
  }

  /** The accumulating loop and the verdict of `evaluate_review_fixtures`. */
  method EvaluateReviewFixtures(fixtures: seq<ReviewFixture>, thresholds: Thresholds) returns (ok: bool, totals: Counts)
    ensures totals == PackCounts(fixtures) && ok == PackOk(fixtures, thresholds)
  {
    hide ThresholdsMet, FixtureCounts, FixtureOk, Plus;
    var allOk := true;
    totals := Counts(0, 0, 0, 0, 0);
    for i := 0 to |fixtures|
      invariant totals == Totals(fixtures, i)
      invariant allOk <==> forall j | 0 <= j < i :: FixtureOk(fixtures[j], thresholds)
    {
      var counts, fixtureOk := EvaluateFixture(fixtures[i], thresholds);
      allOk := allOk && fixtureOk;
      totals := Plus(totals, counts);
    }
    ok := allOk && ThresholdsMet(totals, thresholds);
  }

  /** Under the default thresholds the aggregate check adds nothing: the pack is ok exactly when every fixture is. */
  lemma FixturesOkMakePackOk(fixtures: seq<ReviewFixture>)
    ensures PackOk(fixtures, DEFAULT_THRESHOLDS)
      <==> forall i | 0 <= i < |fixtures| :: FixtureOk(fixtures[i], DEFAULT_THRESHOLDS)
  {
    hide ThresholdsMet, Totals, FixtureCounts, FixtureOk;
    if forall i | 0 <= i < |fixtures| :: FixtureOk(fixtures[i], DEFAULT_THRESHOLDS) {
      TotalsStayWithin(fixtures, |fixtures|);
      TotalsBalance(fixtures, |fixtures|);
      DefaultThresholdsDecide(Totals(fixtures, |fixtures|));
    }
  }

  lemma {:induction false} TotalsBalance(fixtures: seq<ReviewFixture>, n: nat)
    requires n <= |fixtures|
    ensures Balanced(Totals(fixtures, n))
  {
    hide FixtureCounts;
    if n > 0 {
      TotalsBalance(fixtures, n - 1);
      FixtureBalances(fixtures[n - 1]);
    }
  }

  lemma {:induction false} TotalsStayWithin(fixtures: seq<ReviewFixture>, n: nat)
    requires n <= |fixtures|
    requires forall i | 0 <= i < n :: FixtureOk(fixtures[i], DEFAULT_THRESHOLDS)
    ensures Totals(fixtures, n).spurious == 0 && 20000 * Totals(fixtures, n).missed <= Totals(fixtures, n).expected
  {
    hide ThresholdsMet, FixtureCounts;
    if n > 0 {
      TotalsStayWithin(fixtures, n - 1);
      FixtureBalances(fixtures[n - 1]);
      DefaultThresholdsDecide(FixtureCounts(fixtures[n - 1]));
    }
  }

  function Precision(c: Counts): real {
    Quotient(c.truePositives, c.truePositives + c.spurious, 1.0)
  }

  function Recall(c: Counts): real {
    Quotient(c.truePositives, c.expected, 1.0)
  }

  /** The unrounded aggregate precision lies between any bounds of the fixture precisions; so does recall. */
  lemma {:induction false} AggregateLiesBetween(fixtures: seq<ReviewFixture>, n: nat, lo: real, hi: real)
    requires 0 < n <= |fixtures|
    ensures (forall i | 0 <= i < n :: lo <= Precision(FixtureCounts(fixtures[i])) <= hi)
      ==> lo <= Precision(Totals(fixtures, n)) <= hi
    ensures (forall i | 0 <= i < n :: lo <= Recall(FixtureCounts(fixtures[i])) <= hi)
      ==> lo <= Recall(Totals(fixtures, n)) <= hi
  {
    hide FixtureCounts;
    var last := FixtureCounts(fixtures[n - 1]);
    if n == 1 {
      assert Totals(fixtures, 0) == Counts(0, 0, 0, 0, 0);
      assert Totals(fixtures, 1) == last;
    } else {
      AggregateLiesBetween(fixtures, n - 1, lo, hi);
      TotalsBalance(fixtures, n - 1);
      FixtureBalances(fixtures[n - 1]);
      hide Precision, Recall, Plus;
      SumLiesBetween(Totals(fixtures, n - 1), last, lo, hi);
    }
  }

  lemma SumLiesBetween(a: Counts, b: Counts, lo: real, hi: real)
    requires Balanced(a) && Balanced(b)
    ensures lo <= Precision(a) <= hi && lo <= Precision(b) <= hi ==> lo <= Precision(Plus(a, b)) <= hi
    ensures lo <= Recall(a) <= hi && lo <= Recall(b) <= hi ==> lo <= Recall(Plus(a, b)) <= hi
  {
    hide Quotient;
    Mediant(a.truePositives, a.truePositives + a.spurious, b.truePositives, b.truePositives + b.spurious, lo, hi);
    Mediant(a.truePositives, a.expected, b.truePositives, b.expected, lo, hi);
  }

  lemma Mediant(n: nat, d: nat, n': nat, d': nat, lo: real, hi: real)
    requires n <= d && n' <= d'
    ensures lo <= Quotient(n, d, 1.0) <= hi && lo <= Quotient(n', d', 1.0) <= hi
      ==> lo <= Quotient(n + n', d + d', 1.0) <= hi
  {
    if d > 0 && d' > 0 {
      QuotientTimes(n, d);
      QuotientTimes(n', d');
      QuotientTimes(n + n', d + d');
      var q, r, s := Quotient(n, d, 1.0), Quotient(n', d', 1.0), Quotient(n + n', d + d', 1.0);
      hide Quotient;
      if lo <= q <= hi && lo <= r <= hi {
        WeightedBetween(q, r, s, d as real, d' as real, lo, hi);
      }
    }
  }

  lemma WeightedBetween(q: real, r: real, s: real, x: real, y: real, lo: real, hi: real)
    requires x > 0.0 && y > 0.0 && s * (x + y) == q * x + r * y
    requires lo <= q <= hi && lo <= r <= hi
    ensures lo <= s <= hi
  {
    ScaledOrder(lo, q, x);
    ScaledOrder(q, hi, x);
    ScaledOrder(lo, r, y);
    ScaledOrder(r, hi, y);
    assert lo * x <= q * x <= hi * x && lo * y <= r * y <= hi * y;
    assert lo * (x + y) == lo * x + lo * y && hi * (x + y) == hi * x + hi * y;
    assert lo * (x + y) <= s * (x + y) <= hi * (x + y);
    ScaledOrder(lo, s, x + y);
    ScaledOrder(s, hi, x + y);
  }
}
