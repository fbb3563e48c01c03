/** Scoring review findings: greedy first-fit matching, ratios and thresholds. */
module ReviewMatching {
  import opened Wrappers
  import opened Strings

  // ----- Expectations and findings -----

  /** A normalised finding; its text is lower-case. */
  datatype ReviewFinding = ReviewFinding(path: string, line: Option<int>, text: string)

  /** An expectation with its terms lower-cased; absent text fields are empty. */
  datatype Expectation = Expectation(
    path: string, line: Option<int>, lineTolerance: int, matchTerms: seq<string>, matchAny: seq<string>, id: string)

  function Abs(x: int): nat {
    if x < 0 then -x else x
  }

  predicate MatchesExpectation(e: Expectation, f: ReviewFinding) {
    if e.path != "" && e.path != f.path then false
    else if e.line.Some? && f.line.Some? && Abs(e.line.value - f.line.value) > e.lineTolerance then false
    else if e.matchTerms != [] then forall term | term in e.matchTerms :: Contains(f.text, term)
    else if e.matchAny != [] then exists term | term in e.matchAny :: Contains(f.text, term)
    else e.id != "" && Contains(f.text, e.id)
  }

  /** The finding is in the expected file, when one is named, and within the tolerance, when both lines are known. */
  ghost predicate InPlace(e: Expectation, f: ReviewFinding) {
    && (e.path == "" || f.path == e.path)
    && forall at, line | e.line == Some(at) && f.line == Some(line) ::
         at - e.lineTolerance <= line <= at + e.lineTolerance
  }

  /** All required terms; without those one of the alternatives; without either the id, which must not be empty. */
  ghost predicate Mentions(e: Expectation, text: string) {
    && (e.matchTerms != [] ==> forall i | 0 <= i < |e.matchTerms| :: Contains(text, e.matchTerms[i]))
    && (e.matchTerms == [] && e.matchAny != [] ==> exists i :: 0 <= i < |e.matchAny| && Contains(text, e.matchAny[i]))
    && (e.matchTerms == [] && e.matchAny == [] ==> e.id != "" && Contains(text, e.id))
  }

  /** A finding matches exactly when it is in place and mentions what is expected. */
  lemma MatchMeans(e: Expectation, f: ReviewFinding)
    ensures MatchesExpectation(e, f) <==> InPlace(e, f) && Mentions(e, f.text)
  {
    hide Contains;
    if e.line.Some? && f.line.Some? {
      var at, line := e.line.value, f.line.value;
      assert Abs(at - line) <= e.lineTolerance <==> at - e.lineTolerance <= line <= at + e.lineTolerance;
    }
    assert forall i | 0 <= i < |e.matchTerms| :: e.matchTerms[i] in e.matchTerms;
    assert forall i | 0 <= i < |e.matchAny| :: e.matchAny[i] in e.matchAny;
  }

  /** A wider tolerance and a longer text lose no match. */
  lemma MatchesWiden(e: Expectation, f: ReviewFinding, tolerance: int, before: string, after: string)
    requires MatchesExpectation(e, f) && e.lineTolerance <= tolerance
    ensures MatchesExpectation(e.(lineTolerance := tolerance), f.(text := before + f.text + after))
  {
    var wide, longer := e.(lineTolerance := tolerance), f.(text := before + f.text + after);
    hide Contains;
    MatchMeans(e, f);
    MatchMeans(wide, longer);
    forall needle | Contains(f.text, needle) ensures Contains(longer.text, needle) {
      ContainsWider(before, f.text, after, needle);
    }
  }

  lemma ContainsWider(before: string, text: string, after: string, needle: string)
    requires Contains(text, needle)
    ensures Contains(before + text + after, needle)
  {
    var i :| 0 <= i <= |text| && OccursAt(text, i, needle);
    assert (before + text + after)[|before| + i..|before| + i + |needle|] == text[i..i + |needle|];
    assert OccursAt(before + text + after, |before| + i, needle);
  }

  method FirstMatchingFinding(e: Expectation, findings: seq<ReviewFinding>, used: set<nat>) returns (index: Option<nat>)
    ensures index == FirstMatch(e, findings, used, 0)
    ensures index.Some? ==>
      index.value < |findings| && index.value !in used && MatchesExpectation(e, findings[index.value])
    ensures forall i | 0 <= i < (if index.Some? then index.value else |findings|) && i !in used ::
      !MatchesExpectation(e, findings[i])
  {
    hide MatchesExpectation;
    for i := 0 to |findings|
      invariant FirstMatch(e, findings, used, 0) == FirstMatch(e, findings, used, i)
      invariant forall j | 0 <= j < i && j !in used :: !MatchesExpectation(e, findings[j])
    {
      if i in used {
        continue;
      }
      if MatchesExpectation(e, findings[i]) {
        return Some(i);
      }
    }
    return None;
  }

  function FirstMatch(e: Expectation, findings: seq<ReviewFinding>, used: set<nat>, i: nat): (index: Option<nat>)
    requires i <= |findings|
    ensures index.Some? ==>
      i <= index.value < |findings| && index.value !in used && MatchesExpectation(e, findings[index.value])
    ensures index.None? ==> forall j | i <= j < |findings| && j !in used :: !MatchesExpectation(e, findings[j])
    decreases |findings| - i
  {
    if i == |findings| then None
    else if i !in used && MatchesExpectation(e, findings[i]) then Some(i)
    else FirstMatch(e, findings, used, i + 1)
  }

  // ----- Greedy matching -----

  datatype Pair = Pair(expected: nat, actual: nat)

  datatype Matching = Matching(truePositives: seq<Pair>, missed: seq<nat>, used: set<nat>)

  /** The matching after the first n expectations. */
  function Greedy(expected: seq<Expectation>, findings: seq<ReviewFinding>, n: nat): Matching
    requires n <= |expected|
  {
    if n == 0 then Matching([], [], {})
    else
      var before := Greedy(expected, findings, n - 1);
      match FirstMatch(expected[n - 1], findings, before.used, 0)
      case None => before.(missed := before.missed + [n - 1])
      case Some(i) =>
        before.(truePositives := before.truePositives + [Pair(n - 1, i)], used := before.used + {i})
  }

  function Spurious(findings: seq<ReviewFinding>, used: set<nat>, n: nat): seq<nat>
    requires n <= |findings|
  {
    if n == 0 then []
    else Spurious(findings, used, n - 1) + if n - 1 in used then [] else [n - 1]
  }

  /** The matching loops of `_evaluate_fixture`. */
  method MatchFixture(expected: seq<Expectation>, findings: seq<ReviewFinding>)
    returns (matching: Matching, spurious: seq<nat>)
    ensures matching == Greedy(expected, findings, |expected|)
    ensures spurious == Spurious(findings, matching.used, |findings|)
    ensures |matching.truePositives| + |matching.missed| == |expected|
    ensures |matching.truePositives| + |spurious| == |findings|
  {
    hide MatchesExpectation;
    var truePositives: seq<Pair> := [];
    var missed: seq<nat> := [];
    var used: set<nat> := {};
    for n := 0 to |expected|
      invariant Matching(truePositives, missed, used) == Greedy(expected, findings, n)
    {
      var index := FirstMatchingFinding(expected[n], findings, used);
      if index.None? {
        missed := missed + [n];
        continue;
      }
      used := used + {index.value};
      truePositives := truePositives + [Pair(n, index.value)];
    }
    matching := Matching(truePositives, missed, used);
    spurious := [];
    for i := 0 to |findings|
      invariant spurious == Spurious(findings, used, i)
    {
      if i in used {
        continue;
      }
      spurious := spurious + [i];
    }
    Conservation(expected, findings);
  }

  // ----- What the matching satisfies -----

  function ExpectedOf(pairs: seq<Pair>): (r: set<nat>)
    ensures |r| <= |pairs|
  {
    if pairs == [] then {} else ExpectedOf(pairs[..|pairs| - 1]) + {pairs[|pairs| - 1].expected}
  }

  function ActualOf(pairs: seq<Pair>): (r: set<nat>)
    ensures |r| <= |pairs|
  {
    if pairs == [] then {} else ActualOf(pairs[..|pairs| - 1]) + {pairs[|pairs| - 1].actual}
  }

  lemma {:induction false} PairIsCovered(pairs: seq<Pair>, p: Pair)
    requires p in pairs
    ensures p.expected in ExpectedOf(pairs) && p.actual in ActualOf(pairs)
  {
    if p != pairs[|pairs| - 1] {
      PairIsCovered(pairs[..|pairs| - 1], p);
    }
  }

  lemma CoveredBySnoc(pairs: seq<Pair>, p: Pair)
    ensures ExpectedOf(pairs + [p]) == ExpectedOf(pairs) + {p.expected}
    ensures ActualOf(pairs + [p]) == ActualOf(pairs) + {p.actual}
  {
    assert (pairs + [p])[..|pairs|] == pairs;
  }

  ghost predicate Accounted(m: Matching, n: nat, findings: seq<ReviewFinding>) {
    && |m.truePositives| + |m.missed| == n
    && |m.used| == |m.truePositives| && m.used == ActualOf(m.truePositives)
    && (forall i | i in m.used :: i < |findings|)
    && (forall e | e in m.missed :: e < n)
    && (forall e | e in ExpectedOf(m.truePositives) :: e < n)
    && (forall e: nat | e < n :: e in m.missed <==> e !in ExpectedOf(m.truePositives))
  }

  lemma AccountedHit(m: Matching, n: nat, findings: seq<ReviewFinding>, i: nat)
    requires Accounted(m, n, findings) && i < |findings| && i !in m.used
    ensures Accounted(m.(truePositives := m.truePositives + [Pair(n, i)], used := m.used + {i}), n + 1, findings)
  {
    CoveredBySnoc(m.truePositives, Pair(n, i));
    hide ExpectedOf, ActualOf;
  }

  lemma AccountedMiss(m: Matching, n: nat, findings: seq<ReviewFinding>)
    requires Accounted(m, n, findings)
    ensures Accounted(m.(missed := m.missed + [n]), n + 1, findings)
  {
    hide ExpectedOf, ActualOf;
  }

  lemma {:induction false} GreedyAccounts(expected: seq<Expectation>, findings: seq<ReviewFinding>, n: nat)
    requires n <= |expected|
    ensures Accounted(Greedy(expected, findings, n), n, findings)
  {
    hide MatchesExpectation, Accounted, FirstMatch;
    if n == 0 {
      NothingMatched(findings);
    } else {
      GreedyAccounts(expected, findings, n - 1);
      var before := Greedy(expected, findings, n - 1);
      FirstMatchFits(expected[n - 1], findings, before.used);
      match FirstMatch(expected[n - 1], findings, before.used, 0)
      case None => AccountedMiss(before, n - 1, findings);
      case Some(i) => AccountedHit(before, n - 1, findings, i);
    }
  }

  lemma FirstMatchFits(e: Expectation, findings: seq<ReviewFinding>, used: set<nat>)
    ensures var index := FirstMatch(e, findings, used, 0);
      index.Some? ==> index.value < |findings| && index.value !in used && MatchesExpectation(e, findings[index.value])
  {}

  lemma NothingMatched(findings: seq<ReviewFinding>)
    ensures Accounted(Matching([], [], {}), 0, findings)
  {}

  function Below(used: set<nat>, n: nat): set<nat> {
    set i | i in used && i < n
  }

  lemma BelowNext(used: set<nat>, n: nat)
    ensures |Below(used, n + 1)| == |Below(used, n)| + if n in used then 1 else 0
  {
    if n in used {
      assert Below(used, n + 1) == Below(used, n) + {n};
    } else {
      assert Below(used, n + 1) == Below(used, n);
    }
  }

  lemma {:induction false} SpuriousAreUnused(findings: seq<ReviewFinding>, used: set<nat>, n: nat)
    requires n <= |findings|
    ensures forall i: nat :: i in Spurious(findings, used, n) <==> i < n && i !in used
    ensures |Spurious(findings, used, n)| + |Below(used, n)| == n
  {
    if n > 0 {
      hide Below;
      SpuriousAreUnused(findings, used, n - 1);
      BelowNext(used, n - 1);
    }
  }

  /** True positives and misses make up the expectations; true positives and spurious findings make up the findings. */
  lemma Conservation(expected: seq<Expectation>, findings: seq<ReviewFinding>)
    ensures var m := Greedy(expected, findings, |expected|);
      && |m.truePositives| + |m.missed| == |expected|
      && |m.truePositives| + |Spurious(findings, m.used, |findings|)| == |findings|
  {
    var m := Greedy(expected, findings, |expected|);
    GreedyAccounts(expected, findings, |expected|);
    SpuriousAreUnused(findings, m.used, |findings|);
    assert Below(m.used, |findings|) == m.used;
  }

  /** A list of pairs, in the order of their expectations, in which no finding occurs twice and all match. */
  ghost predicate OneToOne(pairs: seq<Pair>, expected: seq<Expectation>, findings: seq<ReviewFinding>, n: nat)
    requires n <= |expected|
  {
    && (forall i, j | 0 <= i < j < |pairs| ::
          pairs[i].expected < pairs[j].expected && pairs[i].actual != pairs[j].actual)
    && forall p | p in pairs :: p.expected < n && p.actual < |findings|
                             && MatchesExpectation(expected[p.expected], findings[p.actual])
  }

  lemma OneToOneSnoc(pairs: seq<Pair>, expected: seq<Expectation>, findings: seq<ReviewFinding>, n: nat, i: nat)
    requires n < |expected| && OneToOne(pairs, expected, findings, n)
    requires i < |findings| && i !in ActualOf(pairs) && MatchesExpectation(expected[n], findings[i])
    ensures OneToOne(pairs + [Pair(n, i)], expected, findings, n + 1)
  {
    hide MatchesExpectation, ExpectedOf, ActualOf;
    forall p | p in pairs ensures p.actual != i {
      PairIsCovered(pairs, p);
    }
  }

  lemma OneToOneGrows(pairs: seq<Pair>, expected: seq<Expectation>, findings: seq<ReviewFinding>, n: nat)
    requires n < |expected| && OneToOne(pairs, expected, findings, n)
    ensures OneToOne(pairs, expected, findings, n + 1)
  {
    hide MatchesExpectation;
  }

  lemma NoPairs(expected: seq<Expectation>, findings: seq<ReviewFinding>)
    ensures OneToOne([], expected, findings, 0)
  {}

  lemma UsedAreActual(expected: seq<Expectation>, findings: seq<ReviewFinding>, n: nat)
    requires n <= |expected|
    ensures Greedy(expected, findings, n).used == ActualOf(Greedy(expected, findings, n).truePositives)
  {
    hide Greedy, ActualOf;
    GreedyAccounts(expected, findings, n);
  }

  /** No finding is matched twice, no expectation is matched twice, and every matched pair does match. */
  lemma {:induction false} GreedyIsInjective(expected: seq<Expectation>, findings: seq<ReviewFinding>, n: nat)
    requires n <= |expected|
    ensures OneToOne(Greedy(expected, findings, n).truePositives, expected, findings, n)
  {
    hide MatchesExpectation, ActualOf, FirstMatch, OneToOne;
    if n == 0 {
      NoPairs(expected, findings);
    } else {
      GreedyIsInjective(expected, findings, n - 1);
      UsedAreActual(expected, findings, n - 1);
      var before := Greedy(expected, findings, n - 1);
      FirstMatchFits(expected[n - 1], findings, before.used);
      match FirstMatch(expected[n - 1], findings, before.used, 0)
      case None =>
        OneToOneGrows(before.truePositives, expected, findings, n - 1);
      case Some(i) =>
        OneToOneSnoc(before.truePositives, expected, findings, n - 1, i);
    }
  }

  lemma {:induction false} MissedMatchesNoneLeft(
    expected: seq<Expectation>, findings: seq<ReviewFinding>, n: nat, e: nat, i: nat)
    requires n <= |expected| && i < |findings|
    requires e in Greedy(expected, findings, n).missed && i !in Greedy(expected, findings, n).used
    ensures e < n && !MatchesExpectation(expected[e], findings[i])
  {
    hide MatchesExpectation;
    if n > 0 {
      var before := Greedy(expected, findings, n - 1);
      if e in before.missed {
        MissedMatchesNoneLeft(expected, findings, n - 1, e, i);
      }
    }
  }

  /** No missed expectation matches any spurious finding. */
  lemma {:induction false} GreedyIsMaximal(expected: seq<Expectation>, findings: seq<ReviewFinding>, e: nat, i: nat)
    requires e in Greedy(expected, findings, |expected|).missed
    requires i in Spurious(findings, Greedy(expected, findings, |expected|).used, |findings|)
    ensures e < |expected| && i < |findings| && !MatchesExpectation(expected[e], findings[i])
  {
    hide MatchesExpectation;
    SpuriousAreUnused(findings, Greedy(expected, findings, |expected|).used, |findings|);
    MissedMatchesNoneLeft(expected, findings, |expected|, e, i);
  }

  // ----- Against any other matching -----

  ghost predicate IsMatching(expected: seq<Expectation>, findings: seq<ReviewFinding>, m: set<Pair>) {
    && (forall p | p in m :: p.expected < |expected| && p.actual < |findings|
                          && MatchesExpectation(expected[p.expected], findings[p.actual]))
    && (forall p, q | p in m && q in m && p != q :: p.expected != q.expected && p.actual != q.actual)
  }

  lemma {:induction false} AtMostByActual(m: set<Pair>, actuals: set<nat>)
    requires forall p, q | p in m && q in m && p != q :: p.actual != q.actual
    requires forall p | p in m :: p.actual in actuals
    ensures |m| <= |actuals|
    decreases |m|
  {
    if m != {} {
      var p :| p in m;
      AtMostByActual(m - {p}, actuals - {p.actual});
    }
  }

  lemma {:induction false} AtMostByExpected(m: set<Pair>, expecteds: set<nat>)
    requires forall p, q | p in m && q in m && p != q :: p.expected != q.expected
    requires forall p | p in m :: p.expected in expecteds
    ensures |m| <= |expecteds|
    decreases |m|
  {
    if m != {} {
      var p :| p in m;
      AtMostByExpected(m - {p}, expecteds - {p.expected});
    }
  }

  /** The greedy matching finds at least half of what any one-to-one matching could. */
  lemma GreedyIsHalfOptimal(expected: seq<Expectation>, findings: seq<ReviewFinding>, m: set<Pair>)
    requires IsMatching(expected, findings, m)
    ensures |m| <= 2 * |Greedy(expected, findings, |expected|).truePositives|
  {
    hide MatchesExpectation;
    var g := Greedy(expected, findings, |expected|);
    GreedyAccounts(expected, findings, |expected|);
    var covered := ExpectedOf(g.truePositives);
    var byExpected := set p | p in m && p.expected in covered;
    var byActual := set p | p in m && p.actual in g.used;
    forall p | p in m ensures p in byExpected + byActual {
      if p.expected !in covered && p.actual !in g.used {
        assert p.expected in g.missed;
        MissedMatchesNoneLeft(expected, findings, |expected|, p.expected, p.actual);
        assert false;
      }
    }
    assert m == byExpected + byActual;
    AtMostByExpected(byExpected, covered);
    AtMostByActual(byActual, g.used);
  }

  lemma TermsOfPair()
    ensures var first, second := Expectation("", None, 3, [], ["a"], ""), Expectation("", None, 3, ["b"], [], "");
      var both, one := ReviewFinding("", None, "ab"), ReviewFinding("", None, "a");
      && MatchesExpectation(first, both) && MatchesExpectation(first, one)
      && MatchesExpectation(second, both) && !MatchesExpectation(second, one)
  {
    var first, second := Expectation("", None, 3, [], ["a"], ""), Expectation("", None, 3, ["b"], [], "");
    assert OccursAt("ab", 0, "a") && OccursAt("a", 0, "a") && OccursAt("ab", 1, "b");
    assert "a" in first.matchAny && "b" in second.matchTerms;
    assert !Contains("a", "b");
  }

  /** The factor two is attained: the first expectation takes the only finding the second one matches. */
  lemma GreedyCanHalve()
    ensures var expected := [Expectation("", None, 3, [], ["a"], ""), Expectation("", None, 3, ["b"], [], "")];
      var findings := [ReviewFinding("", None, "ab"), ReviewFinding("", None, "a")];
      && |Greedy(expected, findings, 2).truePositives| == 1
      && IsMatching(expected, findings, {Pair(0, 1), Pair(1, 0)}) && |{Pair(0, 1), Pair(1, 0)}| == 2
  {
    var first, second := Expectation("", None, 3, [], ["a"], ""), Expectation("", None, 3, ["b"], [], "");
    var both, one := ReviewFinding("", None, "ab"), ReviewFinding("", None, "a");
    var expected, findings := [first, second], [both, one];
    hide MatchesExpectation;
    TermsOfPair();
    assert FirstMatch(first, findings, {}, 0) == Some(0);
    assert Greedy(expected, findings, 0) == Matching([], [], {});
    assert Greedy(expected, findings, 1) == Matching([Pair(0, 0)], [], {0});
    assert FirstMatch(second, findings, {0}, 2) == None;
    assert FirstMatch(second, findings, {0}, 1) == None;
    assert FirstMatch(second, findings, {0}, 0) == None;
  }
}
