/** Strings as the scripts use them: code-point order, splitting and joining, substring tests. */
module Strings {

  // ----- Lexicographic order -----

  predicate Le(a: string, b: string) {
    a == [] || (b != [] && (a[0] < b[0] || (a[0] == b[0] && Le(a[1..], b[1..]))))
  }

  lemma {:induction false} LeTotal(a: string, b: string)
    ensures Le(a, b) || Le(b, a)
  {
    if a != [] && b != [] {
      LeTotal(a[1..], b[1..]);
    }
  }

  lemma {:induction false} LeAntisymmetric(a: string, b: string)
    requires Le(a, b) && Le(b, a)
    ensures a == b
  {
    if a != [] && b != [] {
      LeAntisymmetric(a[1..], b[1..]);
      assert a == [a[0]] + a[1..] && b == [b[0]] + b[1..];
    }
  }

  lemma {:induction false} LeTransitive(a: string, b: string, c: string)
    requires Le(a, b) && Le(b, c)
    ensures Le(a, c)
  {
    if a != [] && a[0] == b[0] == c[0] {
      LeTransitive(a[1..], b[1..], c[1..]);
    }
  }

  // ----- Sets of keys in sorted order -----

  lemma HasLeast(keys: set<string>) returns (least: string)
    requires keys != {}
    ensures least in keys && forall k | k in keys :: Le(least, k)
  {
    var k :| k in keys;
    if keys == {k} {
      LeTotal(k, k);
      return k;
    }
    var m := HasLeast(keys - {k});
    LeTotal(k, m);
    LeTotal(k, k);
    least := if Le(k, m) then k else m;
    forall j | j in keys
      ensures Le(least, j)
    {
      if j != k && least == k {
        LeTransitive(k, m, j);
      }
    }
  }

  lemma LeastIsUnique(keys: set<string>)
    requires keys != {}
    ensures exists k :: k in keys && forall j | j in keys :: Le(k, j)
    ensures forall k, k' | k in keys && k' in keys
                           && (forall j | j in keys :: Le(k, j)) && (forall j | j in keys :: Le(k', j))
              :: k == k'
  {
    var least := HasLeast(keys);
    forall k, k' | k in keys && k' in keys
                   && (forall j | j in keys :: Le(k, j)) && (forall j | j in keys :: Le(k', j))
      ensures k == k'
    {
      LeAntisymmetric(k, k');
    }
  }

  function Least(keys: set<string>): (least: string)
    requires keys != {}
    ensures least in keys && forall k | k in keys :: Le(least, k)
  {
    LeastIsUnique(keys);
    var k :| k in keys && forall j | j in keys :: Le(k, j);
    k
  }

  /** The keys of a set in increasing order, each once. */
  function SortedKeys(keys: set<string>): (sorted: seq<string>)
    ensures forall k :: k in keys <==> k in sorted
    ensures forall i, j | 0 <= i < j < |sorted| :: sorted[i] != sorted[j]
    ensures forall i, j | 0 <= i < j < |sorted| :: Le(sorted[i], sorted[j])
    decreases |keys|
  {
    if keys == {} then [] else [Least(keys)] + SortedKeys(keys - {Least(keys)})
  }

  function LowerChar(c: char): char {
    if 'A' <= c <= 'Z' then (c as int + 32) as char else c
  }

  predicate IsUpper(c: char) {
    'A' <= c <= 'Z'
  }

  /** The two cases of one letter: they have the same place in their alphabets. */
  predicate Cases(upper: char, lower: char) {
    'A' <= upper <= 'Z' && 'a' <= lower <= 'z' && upper - 'A' == lower - 'a'
  }

  /** Each upper-case letter becomes its lower-case one, and nothing else changes. */
  lemma LowerLetters(c: char)
    ensures !IsUpper(c) ==> LowerChar(c) == c
    ensures IsUpper(c) ==> Cases(c, LowerChar(c))
  {}

  // ----- Split and join on one separator -----

  function Split(s: string, sep: char): (parts: seq<string>)
    ensures |parts| >= 1
    ensures forall p | p in parts :: sep !in p
  {
    if s == [] then [""]
    else
      var rest := Split(s[1..], sep);
      if s[0] == sep then [""] + rest else [[s[0]] + rest[0]] + rest[1..]
  }

  function Join(parts: seq<string>, sep: char): string {
    if parts == [] then ""
    else if |parts| == 1 then parts[0]
    else parts[0] + [sep] + Join(parts[1..], sep)
  }

  lemma FirstThenRest(parts: seq<string>, sep: char) returns (rest: string)
    requires parts != []
    ensures Join(parts, sep) == parts[0] + rest
    ensures |parts| > 1 ==> Join(parts, sep) == parts[0] + [sep] + Join(parts[1..], sep)
  {
    rest := if |parts| == 1 then "" else [sep] + Join(parts[1..], sep);
  }

  lemma {:induction false} SplitOfPlain(p: string, sep: char)
    requires sep !in p
    ensures Split(p, sep) == [p]
  {
    if p != [] {
      SplitOfPlain(p[1..], sep);
      assert [p[0]] + p[1..] == p;
    }
  }

  lemma {:induction false} SplitAfterPlain(p: string, sep: char, rest: string)
    requires sep !in p
    ensures Split(p + [sep] + rest, sep) == [p] + Split(rest, sep)
  {
    var s := p + [sep] + rest;
    if p == [] {
      assert s[1..] == rest;
    } else {
      assert s[1..] == p[1..] + [sep] + rest;
      SplitAfterPlain(p[1..], sep, rest);
      assert [p[0]] + p[1..] == p;
    }
  }

  /** Joining separator-free parts loses nothing: splitting gives them back. */
  lemma {:induction false} SplitJoin(parts: seq<string>, sep: char)
    requires parts != []
    requires forall p | p in parts :: sep !in p
    ensures Split(Join(parts, sep), sep) == parts
  {
    if |parts| == 1 {
      SplitOfPlain(parts[0], sep);
    } else {
      SplitAfterPlain(parts[0], sep, Join(parts[1..], sep));
      SplitJoin(parts[1..], sep);
    }
  }

  // ----- Substrings -----

  predicate OccursAt<T(==)>(text: seq<T>, i: int, needle: seq<T>) {
    0 <= i <= |text| - |needle| && text[i..i + |needle|] == needle
  }

  predicate Contains<T(==)>(text: seq<T>, needle: seq<T>) {
    exists i | 0 <= i <= |text| :: OccursAt(text, i, needle)
  }

  lemma ContainsMiddle<T>(before: seq<T>, needle: seq<T>, after: seq<T>)
    ensures Contains(before + needle + after, needle)
  {
    var text := before + needle + after;
    assert OccursAt(text, |before|, needle);
  }
}
