/** How the search benchmark scores a text against a question in its three modes. */
module SearchScoring {
  import opened Strings
  import opened Sorting

  datatype SearchMode = Grep | Vector | Hybrid

  // ----- Tokens -----

  predicate IsTokenChar(c: char) {
    'a' <= c <= 'z' || '0' <= c <= '9' || c == '_'
  }

  /** The pieces of token characters of the lower-cased text, with an empty piece between adjacent separators. */
  function Pieces(text: string): (pieces: seq<string>)
    ensures pieces != []
  {
    if text == [] then [""]
    else
      var c, rest := LowerChar(text[0]), Pieces(text[1..]);
      if IsTokenChar(c) then [[c] + rest[0]] + rest[1..] else [""] + rest
  }

  function LongEnough(): string -> bool {
    (piece: string) => |piece| >= 3
  }

  function Tokens(text: string): seq<string> {
    Filter(Pieces(text), LongEnough())
  }

  /** Any character but a letter, in either case, a digit or an underscore. */
  predicate Separates(c: char) {
    !('a' <= c <= 'z') && !('A' <= c <= 'Z') && !('0' <= c <= '9') && c != '_'
  }

  /** A separator ends a piece: texts put together with one between them have the tokens of both. */
  lemma {:induction false} PiecesApart(a: string, sep: char, b: string)
    requires Separates(sep)
    ensures Pieces(a + [sep] + b) == Pieces(a) + Pieces(b)
  {
    var text := a + [sep] + b;
    if a == [] {
      assert text[1..] == b;
    } else {
      assert text[1..] == a[1..] + [sep] + b;
      PiecesApart(a[1..], sep, b);
    }
  }

  lemma TokensApart(a: string, sep: char, b: string)
    requires Separates(sep)
    ensures Tokens(a + [sep] + b) == Tokens(a) + Tokens(b)
  {
    PiecesApart(a, sep, b);
    FilterConcat(Pieces(a), Pieces(b), LongEnough());
  }

  lemma NoTokens()
    ensures Tokens("") == []
  {}

  predicate IsWord(s: string) {
    forall c | c in s :: 'a' <= c <= 'z' || '0' <= c <= '9' || c == '_'
  }

  lemma {:induction false} PiecesOfWord(word: string)
    requires IsWord(word)
    ensures Pieces(word) == [word]
  {
    if word != [] {
      assert forall c | c in word[1..] :: c in word;
      PiecesOfWord(word[1..]);
      assert word[0] in word && LowerChar(word[0]) == word[0];
      assert [word[0]] + word[1..] == word;
    }
  }

  lemma TokensOfWord(word: string)
    requires IsWord(word)
    ensures Tokens(word) == Filter([word], LongEnough())
  {
    PiecesOfWord(word);
  }

  /** Words written on one line are read back, but for the short ones. */
  lemma {:induction false} TokensOfWords(words: seq<string>)
    requires words != [] && forall w | w in words :: IsWord(w)
    ensures Tokens(Join(words, ' ')) == Filter(words, LongEnough())
  {
    hide Tokens, IsWord;
    assert words[0] in words;
    TokensOfWord(words[0]);
    if |words| == 1 {
      assert words == [words[0]];
    } else {
      TokensOfWords(words[1..]);
      TokensApart(words[0], ' ', Join(words[1..], ' '));
      FilterConcat([words[0]], words[1..], LongEnough());
      assert words == [words[0]] + words[1..];
    }
  }

  /** The same text, but for upper-case letters of the first that are lower-case in the second. */
  ghost predicate SameButCase(a: string, b: string) {
    |a| == |b| && forall i | 0 <= i < |a| :: a[i] == b[i] || Cases(a[i], b[i])
  }

  lemma {:induction false} PiecesIgnoreCase(a: string, b: string)
    requires SameButCase(a, b)
    ensures Pieces(a) == Pieces(b)
  {
    if a != [] {
      assert forall i | 0 <= i < |a| - 1 :: a[1..][i] == a[i + 1] && b[1..][i] == b[i + 1];
      PiecesIgnoreCase(a[1..], b[1..]);
    }
  }

  /** Letter case does not matter. */
  lemma TokensIgnoreCase(a: string, b: string)
    requires SameButCase(a, b)
    ensures Tokens(a) == Tokens(b)
  {
    PiecesIgnoreCase(a, b);
  }

  // ----- Counting -----

  function SumOver(words: seq<string>, f: string -> int): int {
    if words == [] then 0 else f(words[0]) + SumOver(words[1..], f)
  }

  /** `words.count`, and what a Counter of the words holds. */
  function CountIn(words: seq<string>): string -> int {
    (w: string) => multiset(words)[w]
  }

  function Times(f: string -> int, g: string -> int): string -> int {
    (w: string) => f(w) * g(w)
  }

  /** The keys of a Counter: every word once. */
  function Keys(words: seq<string>): (keys: seq<string>)
    ensures forall w :: w in keys <==> w in words
    ensures forall i, j | 0 <= i < j < |keys| :: keys[i] != keys[j]
  {
    if words == [] then []
    else if words[0] in words[1..] then Keys(words[1..])
    else [words[0]] + Keys(words[1..])
  }

  /** `grep_score`: for every question token, with repeats, how often the text has it. */
  function Occurrences(query: seq<string>, words: seq<string>): int {
    SumOver(query, CountIn(words))
  }

  /** The product of the two Counters. */
  function Dot(query: seq<string>, words: seq<string>): int {
    SumOver(Keys(query), Times(CountIn(query), CountIn(words)))
  }

  /** The sum of the squared counts. */
  function SquaredNorm(words: seq<string>): int {
    Dot(words, words)
  }

  // ----- Scores -----

  /** `math.sqrt` on natural numbers. */
  ghost predicate IsRoot(root: int -> real) {
    forall n :: n >= 0 ==> root(n) >= 0.0 && root(n) * root(n) == n as real
  }

  function Cosine(dot: real, queryNorm: real, textNorm: real): real {
    if queryNorm == 0.0 || textNorm == 0.0 then 0.0 else dot / (queryNorm * textNorm)
  }

  function VectorScore(root: int -> real, query: seq<string>, words: seq<string>): real {
    if query == [] || words == [] then 0.0
    else Cosine(Dot(query, words) as real, root(SquaredNorm(query)), root(SquaredNorm(words)))
  }

  /** `grep_norm`. */
  function HitsPerToken(hits: int, query: seq<string>): real {
    hits as real / (if |query| > 1 then |query| else 1) as real
  }

  function ScoreOfWords(root: int -> real, query: seq<string>, words: seq<string>, mode: SearchMode): real {
    match mode
    case Grep => Occurrences(query, words) as real
    case Vector => VectorScore(root, query, words)
    case Hybrid => HitsPerToken(Occurrences(query, words), query) + VectorScore(root, query, words)
  }

  function Score(root: int -> real, question: string, text: string, mode: SearchMode): real {
    ScoreOfWords(root, Tokens(question), Tokens(text), mode)
  }

  // ----- The two ways of counting agree -----

  lemma {:induction false} SumOfSum(words: seq<string>, f: string -> int, g: string -> int, h: string -> int)
    requires forall w | w in words :: h(w) == f(w) + g(w)
    ensures SumOver(words, h) == SumOver(words, f) + SumOver(words, g)
  {
    if words != [] {
      assert words[0] in words;
      SumOfSum(words[1..], f, g, h);
    }
  }

  lemma {:induction false} SumScaled(words: seq<string>, f: string -> int, g: string -> int, k: int)
    requires forall w | w in words :: g(w) == k * f(w)
    ensures SumOver(words, g) == k * SumOver(words, f)
  {
    if words != [] {
      assert words[0] in words;
      SumScaled(words[1..], f, g, k);
    }
  }

  lemma {:induction false} SumConcat(a: seq<string>, b: seq<string>, f: string -> int)
    ensures SumOver(a + b, f) == SumOver(a, f) + SumOver(b, f)
  {
    if a == [] {
      assert a + b == b;
    } else {
      assert (a + b)[1..] == a[1..] + b;
      SumConcat(a[1..], b, f);
    }
  }

  /** One key of a list without repeats. */
  lemma {:induction false} SumAtKey(keys: seq<string>, a: string, f: string -> int)
    requires forall i, j | 0 <= i < j < |keys| :: keys[i] != keys[j]
    ensures SumOver(keys, Times(CountIn([a]), f)) == if a in keys then f(a) else 0
  {
    if keys != [] {
      SumAtKey(keys[1..], a, f);
      assert multiset([a])[keys[0]] == if keys[0] == a then 1 else 0;
    }
  }

  lemma NothingCounted(f: string -> int)
    ensures forall w :: Times(CountIn([]), f)(w) == 0
  {}

  lemma CountOfFirst(words: seq<string>, f: string -> int)
    requires words != []
    ensures forall w ::
      Times(CountIn(words), f)(w) == Times(CountIn([words[0]]), f)(w) + Times(CountIn(words[1..]), f)(w)
  {
    assert words == [words[0]] + words[1..];
    forall w ensures Times(CountIn(words), f)(w)
                  == Times(CountIn([words[0]]), f)(w) + Times(CountIn(words[1..]), f)(w) {
      Spread(f(w), CountIn([words[0]])(w), CountIn(words[1..])(w));
    }
  }

  /** Summing over keys with counts is summing over the words with repeats. */
  lemma {:induction false} SumByKeys(keys: seq<string>, words: seq<string>, f: string -> int)
    requires forall i, j | 0 <= i < j < |keys| :: keys[i] != keys[j]
    requires forall w | w in words :: w in keys
    ensures SumOver(keys, Times(CountIn(words), f)) == SumOver(words, f)
  {
    hide Times, CountIn;
    if words == [] {
      NothingCounted(f);
      SumScaled(keys, f, Times(CountIn(words), f), 0);
    } else {
      SumByKeys(keys, words[1..], f);
      SumAtKey(keys, words[0], f);
      var one, rest, all := Times(CountIn([words[0]]), f), Times(CountIn(words[1..]), f), Times(CountIn(words), f);
      CountOfFirst(words, f);
      SumOfSum(keys, one, rest, all);
    }
  }

  /** The grep score is the numerator of the vector score. */
  lemma OccurrencesAreDot(query: seq<string>, words: seq<string>)
    ensures Occurrences(query, words) == Dot(query, words)
  {
    SumByKeys(Keys(query), query, CountIn(words));
  }

  // ----- The vector score is at most 1 -----

  lemma Square(a: int, b: int, x: int, y: int)
    ensures x * x * (a * a) - 2 * (x * y) * (a * b) + y * y * (b * b) == (x * a - y * b) * (x * a - y * b) >= 0
  {}

  lemma {:induction false} SquaresAreNotNegative(keys: seq<string>, f: string -> int, g: string -> int, x: int, y: int)
    ensures var ff, fg, gg := SumOver(keys, Times(f, f)), SumOver(keys, Times(f, g)), SumOver(keys, Times(g, g));
      x * x * ff - 2 * (x * y) * fg + y * y * gg >= 0
  {
    if keys != [] {
      var w := keys[0];
      SquaresAreNotNegative(keys[1..], f, g, x, y);
      Square(f(w), g(w), x, y);
      Spread(x * x, f(w) * f(w), SumOver(keys[1..], Times(f, f)));
      Spread(2 * (x * y), f(w) * g(w), SumOver(keys[1..], Times(f, g)));
      Spread(y * y, g(w) * g(w), SumOver(keys[1..], Times(g, g)));
    }
  }

  lemma Spread(x: int, a: int, b: int)
    ensures x * (a + b) == x * a + x * b
  {}

  /** The inequality of Cauchy and Schwarz for word counts. */
  lemma CauchySchwarz(query: seq<string>, words: seq<string>)
    ensures SquaredNorm(query) >= |query| && SquaredNorm(words) >= |words|
    ensures 0 <= Dot(query, words)
    ensures Dot(query, words) * Dot(query, words) <= SquaredNorm(query) * SquaredNorm(words)
  {
    var keys, q, t := Keys(query + words), CountIn(query), CountIn(words);
    NormIsLarge(query);
    NormIsLarge(words);
    OccurrencesAreDot(query, words);
    OccurrencesAreDot(query, query);
    OccurrencesAreDot(words, words);
    SumByKeys(keys, query, q);
    SumByKeys(keys, query, t);
    SumByKeys(keys, words, t);
    SumIsNotNegative(query, t);
    var qq, qt, tt := SumOver(query, q), SumOver(query, t), SumOver(words, t);
    if tt == 0 {
      assert words == [];
      SumScaled(query, t, t, 0);
    } else {
      SquaresAreNotNegative(keys, q, t, tt, qt);
      Discriminant(qq, qt, tt);
    }
  }

  lemma Discriminant(a: int, b: int, c: int)
    requires c > 0 && c * c * a - 2 * (c * b) * b + b * b * c >= 0
    ensures b * b <= a * c
  {
    assert c * c * a - 2 * (c * b) * b + b * b * c == c * (a * c - b * b);
  }

  lemma {:induction false} SumIsNotNegative(words: seq<string>, f: string -> int)
    requires forall w | w in words :: f(w) >= 0
    ensures SumOver(words, f) >= 0
    ensures (forall w | w in words :: f(w) >= 1) ==> SumOver(words, f) >= |words|
  {
    if words != [] {
      assert words[0] in words;
      SumIsNotNegative(words[1..], f);
    }
  }

  lemma NormIsLarge(words: seq<string>)
    ensures SquaredNorm(words) >= |words|
  {
    OccurrencesAreDot(words, words);
    SumIsNotNegative(words, CountIn(words));
  }

  lemma ProductIsPositive(x: real, y: real)
    requires x > 0.0 && y > 0.0
    ensures x * y > 0.0
  {}

  lemma RootIsPositive(root: int -> real, n: int)
    requires IsRoot(root) && n > 0
    ensures root(n) > 0.0 && root(n) * root(n) == n as real
  {}

  lemma RootOrder(x: real, y: real)
    requires x >= 0.0 && y >= 0.0
    ensures x * x <= y * y <==> x <= y
  {
    if x > y {
      ProductIsPositive(x - y, x + y);
      assert x * x - y * y == (x - y) * (x + y);
    } else {
      assert x * x <= x * y <= y * y;
    }
  }

  /** The vector score of any text is between 0 and 1. */
  lemma VectorScoreBounds(root: int -> real, query: seq<string>, words: seq<string>)
    requires IsRoot(root)
    ensures 0.0 <= VectorScore(root, query, words) <= 1.0
  {
    hide Dot, SquaredNorm, IsRoot, Cosine;
    if query != [] && words != [] {
      CauchySchwarz(query, words);
      RootIsPositive(root, SquaredNorm(query));
      RootIsPositive(root, SquaredNorm(words));
      RootsBound(root(SquaredNorm(query)), root(SquaredNorm(words)), SquaredNorm(query), SquaredNorm(words),
        Dot(query, words));
    }
  }

  lemma RootsBound(x: real, y: real, a: int, b: int, dot: int)
    requires x > 0.0 && y > 0.0 && x * x == a as real && y * y == b as real
    requires 0 <= dot && dot * dot <= a * b
    ensures 0.0 <= Cosine(dot as real, x, y) <= 1.0
  {
    var d, r := dot as real, x * y;
    ProductIsPositive(x, y);
    assert r * r == (x * x) * (y * y) == (a * b) as real;
    assert d * d == (dot * dot) as real;
    RootOrder(d, r);
    Fraction(d, r);
  }

  lemma WholeFraction(d: real)
    requires d > 0.0
    ensures d / d == 1.0
  {}

  lemma Fraction(d: real, r: real)
    requires 0.0 <= d <= r && r > 0.0
    ensures 0.0 <= d / r <= 1.0
  {}

  // ----- The question as a text -----

  /** The question written k times, one copy a line. */
  function Repeated(question: string, k: nat): string {
    if k == 0 then "" else question + ['\n'] + Repeated(question, k - 1)
  }

  lemma {:induction false} CountsOfRepeated(question: string, k: nat)
    ensures forall w :: CountIn(Tokens(Repeated(question, k)))(w) == k * CountIn(Tokens(question))(w)
  {
    hide Tokens;
    if k == 0 {
      NoTokens();
    } else {
      CountsOfRepeated(question, k - 1);
      TokensApart(question, '\n', Repeated(question, k - 1));
    }
  }

  lemma ProductsOfRepeated(question: string, k: nat)
    ensures var query, words := Tokens(question), Tokens(Repeated(question, k));
      Dot(query, words) == k * SquaredNorm(query) && SquaredNorm(words) == k * (k * SquaredNorm(query))
  {
    CountsOfRepeated(question, k);
    hide Tokens, Repeated, Dot, SquaredNorm;
    ProductsOfScaled(Tokens(question), Tokens(Repeated(question, k)), k);
  }

  lemma ProductsOfScaled(query: seq<string>, words: seq<string>, k: nat)
    requires forall w :: CountIn(words)(w) == k * CountIn(query)(w)
    ensures Dot(query, words) == k * SquaredNorm(query) && SquaredNorm(words) == k * Dot(query, words)
  {
    hide Keys;
    var keys, q, t := Keys(query), CountIn(query), CountIn(words);
    forall w ensures Times(q, t)(w) == k * Times(q, q)(w) && Times(t, t)(w) == k * Times(q, t)(w) {
      assert t(w) == k * q(w);
      Regroup(k, q(w), q(w));
      Regroup(k, q(w), t(w));
    }
    forall w | w in words ensures w in keys {
      assert t(w) >= 1;
    }
    SumByKeys(keys, words, t);
    SumByKeys(Keys(words), words, t);
    hide Times, CountIn;
    SumScaled(keys, Times(q, q), Times(q, t), k);
    SumScaled(keys, Times(q, t), Times(t, t), k);
  }

  lemma Regroup(k: int, a: int, b: int)
    ensures (k * a) * b == k * (a * b) && b * (k * a) == k * (b * a)
  {}

  lemma RootOfSquare(root: int -> real, k: nat, n: nat)
    requires IsRoot(root)
    ensures root(k * (k * n)) == k as real * root(n)
  {
    var x, y := root(k * (k * n)), k as real * root(n);
    assert y * y == (k as real * k as real) * (root(n) * root(n));
    assert x * x == (k * (k * n)) as real == k as real * (k as real * n as real);
    RootOrder(x, y);
    RootOrder(y, x);
  }

  /**
   The question written k times has vector score 1, and more than any given number in the other modes
   when k is large.
   */
  lemma RepeatedScores(root: int -> real, question: string, k: nat)
    requires IsRoot(root) && k > 0 && Tokens(question) != []
    ensures ScoreOfWords(root, Tokens(question), Tokens(Repeated(question, k)), Grep) >= k as real
    ensures ScoreOfWords(root, Tokens(question), Tokens(Repeated(question, k)), Vector) == 1.0
    ensures ScoreOfWords(root, Tokens(question), Tokens(Repeated(question, k)), Hybrid) >= k as real
  {
    hide Tokens, Repeated, Dot, SquaredNorm, Occurrences, VectorScore;
    var query, words := Tokens(question), Tokens(Repeated(question, k));
    ProductsOfRepeated(question, k);
    OccurrencesAreDot(query, words);
    NormIsLarge(query);
    ScaledVectorScore(root, query, words, k);
    MeanOfMany(k, SquaredNorm(query), |query|);
  }

  /**
   The three modes: grep counts the hits, hybrid adds the mean of the hits over the question's tokens to the
   vector score, and without question tokens every score is 0.
   */
  lemma ModesRelate(root: int -> real, query: seq<string>, words: seq<string>)
    ensures query != [] ==>
      (ScoreOfWords(root, query, words, Hybrid) - ScoreOfWords(root, query, words, Vector)) * |query| as real
      == ScoreOfWords(root, query, words, Grep)
    ensures query == [] ==> forall mode :: ScoreOfWords(root, query, words, mode) == 0.0
  {
    hide VectorScore, Occurrences;
    var hits := Occurrences(query, words);
    if query == [] {
      assert hits == 0 && VectorScore(root, query, words) == 0.0 by {
        NoQuestion(root, words);
      }
    } else {
      var n := |query| as real;
      assert HitsPerToken(hits, query) == hits as real / n;
    }
  }

  lemma NoQuestion(root: int -> real, words: seq<string>)
    ensures Occurrences([], words) == 0 && VectorScore(root, [], words) == 0.0
  {}

  lemma ScaledVectorScore(root: int -> real, query: seq<string>, words: seq<string>, k: nat)
    requires IsRoot(root) && k > 0 && query != []
    requires Dot(query, words) == k * SquaredNorm(query) && SquaredNorm(words) == k * Dot(query, words)
    ensures VectorScore(root, query, words) == 1.0
  {
    hide Dot, SquaredNorm;
    EmptyNorm();
    NormIsLarge(query);
    var n := SquaredNorm(query);
    WholeProductIsPositive(k, n);
    WholeProductIsPositive(k, k * n);
    assert words != [];
    RootOfSquare(root, k, n);
    RootIsPositive(root, n);
    CosineOfMultiple(root(n), root(SquaredNorm(words)), Dot(query, words), k, n);
  }

  lemma WholeProductIsPositive(a: int, b: int)
    requires a > 0 && b > 0
    ensures a * b > 0
  {}

  lemma EmptyNorm()
    ensures SquaredNorm([]) == 0
  {}

  lemma CosineOfMultiple(x: real, y: real, dot: int, k: nat, n: nat)
    requires x > 0.0 && k > 0 && x * x == n as real && y == k as real * x && dot == k * n
    ensures Cosine(dot as real, x, y) == 1.0
  {
    ProductIsPositive(k as real, x);
    ProductIsPositive(x, y);
    assert x * y == k as real * (x * x) == dot as real;
    WholeFraction(x * y);
  }

  lemma MeanOfMany(k: nat, n: nat, d: nat)
    requires n >= d >= 1
    ensures (k * n) as real / d as real >= k as real
    ensures k * n >= k
  {
    assert (k * n) as real >= k as real * d as real by {
      assert k * n >= k * d;
    }
    Quotient((k * n) as real, k as real, d as real);
  }

  lemma Quotient(x: real, y: real, d: real)
    requires d > 0.0 && x >= y * d
    ensures x / d >= y
  {}
}
