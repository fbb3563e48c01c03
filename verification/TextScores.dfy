/**
 Which scores texts can have.  A text's scores follow from two numbers: how often it has the question tokens,
 and the sum of its squared counts.  Other words add to the second number alone, as much or as little as wanted.
 */
module TextScores {
  import opened Strings
  import opened Sorting
  import opened SearchScoring

  /** The scores that follow from the two numbers. */
  function PairScore(root: int -> real, query: seq<string>, hits: int, norm: int, mode: SearchMode): real {
    var vector := if query == [] then 0.0 else Cosine(hits as real, root(SquaredNorm(query)), root(norm));
    match mode
    case Grep => hits as real
    case Vector => vector
    case Hybrid => HitsPerToken(hits, query) + vector
  }

  lemma ScoreOfPair(root: int -> real, query: seq<string>, words: seq<string>, mode: SearchMode)
    requires IsRoot(root)
    ensures ScoreOfWords(root, query, words, mode)
         == PairScore(root, query, Occurrences(query, words), SquaredNorm(words), mode)
  {
    hide Dot, SquaredNorm, Occurrences, IsRoot, Cosine, HitsPerToken;
    OccurrencesAreDot(query, words);
    if words == [] {
      EmptyNorm();
      assert SquaredNorm(words) == 0;
      NothingScores(root, Dot(query, words) as real, root(SquaredNorm(query)));
    }
  }

  lemma NothingScores(root: int -> real, dot: real, queryNorm: real)
    requires IsRoot(root)
    ensures Cosine(dot, queryNorm, root(0)) == 0.0
  {
    RootOrder(root(0), 0.0);
  }

  predicate OnlyFrom(words: seq<string>, query: seq<string>) {
    forall x | x in words :: x in query
  }

  /** Some list of question tokens has that many hits, and no larger sum of squares. */
  ghost predicate Possible(query: seq<string>, hits: int, norm: int) {
    exists w: seq<string> :: OnlyFrom(w, query) && Occurrences(query, w) == hits && SquaredNorm(w) <= norm
  }

  ghost predicate SomeText(query: seq<string>, hits: int, norm: int) {
    exists text :: Occurrences(query, Tokens(text)) == hits && SquaredNorm(Tokens(text)) == norm
  }

  // ----- One more word -----

  lemma {:induction false} SumOfOne(words: seq<string>, x: string)
    ensures SumOver(words, CountIn([x])) == CountIn(words)(x)
  {
    if words != [] {
      SumOfOne(words[1..], x);
      assert words == [words[0]] + words[1..];
    }
  }

  lemma OneMoreHit(query: seq<string>, words: seq<string>, x: string)
    ensures Occurrences(query, words + [x]) == Occurrences(query, words) + CountIn(query)(x)
  {
    SumOfSum(query, CountIn(words), CountIn([x]), CountIn(words + [x]));
    SumOfOne(query, x);
  }

  lemma OneMoreSquare(words: seq<string>, x: string)
    ensures SquaredNorm(words + [x]) == SquaredNorm(words) + 2 * CountIn(words)(x) + 1
  {
    var more := words + [x];
    OccurrencesAreDot(more, more);
    OccurrencesAreDot(more, words);
    OccurrencesAreDot(words, words);
    OneMoreHit(more, words, x);
    OneMoreHit(words, words, x);
    SumCommutes(more, words);
    assert CountIn(more)(x) == CountIn(words)(x) + 1;
  }

  /** The product of two lists of words is symmetric. */
  lemma {:induction false} SumCommutes(a: seq<string>, b: seq<string>)
    ensures Occurrences(a, b) == Occurrences(b, a)
    decreases |b|
  {
    if b == [] {
      SumScaled(a, CountIn(a), CountIn(b), 0);
    } else {
      var n := |b| - 1;
      SumCommutes(a, b[..n]);
      assert b == b[..n] + [b[n]];
      OneMoreHit(a, b[..n], b[n]);
      SumConcat(b[..n], [b[n]], CountIn(a));
    }
  }

  // ----- Leaving out the other words -----

  lemma {:induction false} Restricted(query: seq<string>, words: seq<string>) returns (w: seq<string>)
    ensures OnlyFrom(w, query) && forall x | x in query :: CountIn(w)(x) == CountIn(words)(x)
    ensures Occurrences(query, w) == Occurrences(query, words) && SquaredNorm(w) <= SquaredNorm(words)
  {
    hide SquaredNorm;
    if words == [] {
      return [];
    }
    var n := |words| - 1;
    var x := words[n];
    w := Restricted(query, words[..n]);
    assert words == words[..n] + [x];
    OneMoreSquare(words[..n], x);
    if x in query {
      OneMoreSquare(w, x);
      w := w + [x];
    }
    SumScaled(query, CountIn(words), CountIn(w), 1);
  }

  // ----- Adding other words -----

  function Longest(words: seq<string>): (n: nat)
    ensures forall w | w in words :: |w| <= n
  {
    if words == [] then 0
    else
      var n := Longest(words[1..]);
      if |words[0]| > n then |words[0]| else n
  }

  function LongerWord(words: seq<string>): (word: string)
    ensures IsWord(word) && |word| >= 3 && word !in words
  {
    seq(Longest(words) + 3, _ => 'z')
  }

  predicate AllTokens(words: seq<string>) {
    forall w | w in words :: IsWord(w) && |w| >= 3
  }

  lemma {:induction false} Padded(query: seq<string>, w: seq<string>, k: nat) returns (words: seq<string>)
    requires AllTokens(w)
    ensures AllTokens(words)
    ensures Occurrences(query, words) == Occurrences(query, w) && SquaredNorm(words) == SquaredNorm(w) + k
  {
    hide SquaredNorm, Occurrences;
    words := w;
    if k > 0 {
      var fewer := Padded(query, w, k - 1);
      var x := LongerWord(fewer + query);
      assert x !in fewer && x !in query;
      OneMoreHit(query, fewer, x);
      OneMoreSquare(fewer, x);
      words := fewer + [x];
    }
  }

  // ----- Exactly the possible pairs -----

  lemma {:induction false} PiecesAreWords(text: string)
    ensures forall p | p in Pieces(text) :: IsWord(p)
  {
    if text != [] {
      PiecesAreWords(text[1..]);
      var rest := Pieces(text[1..]);
      assert rest[0] in rest;
    }
  }

  lemma TokensAreTokens(text: string)
    ensures AllTokens(Tokens(text))
  {
    PiecesAreWords(text);
    hide Pieces;
  }

  lemma TextOf(words: seq<string>) returns (text: string)
    requires AllTokens(words)
    ensures Tokens(text) == words
  {
    if words == [] {
      NoTokens();
      return "";
    }
    hide Tokens;
    TokensOfWords(words);
    FilterAll(words, LongEnough());
    text := Join(words, ' ');
  }

  /**
   A text with these hits and this sum of squares exists exactly when some list of question tokens has
   the hits and no larger sum of squares.
   */
  lemma TextsExactly(question: string, hits: int, norm: int)
    ensures SomeText(Tokens(question), hits, norm) <==> Possible(Tokens(question), hits, norm)
  {
    hide SquaredNorm, Occurrences;
    var query := Tokens(question);
    TokensAreTokens(question);
    hide Tokens;
    if SomeText(query, hits, norm) {
      var text :| Occurrences(query, Tokens(text)) == hits && SquaredNorm(Tokens(text)) == norm;
      var w := Restricted(query, Tokens(text));
    }
    if Possible(query, hits, norm) {
      var w: seq<string> :| OnlyFrom(w, query) && Occurrences(query, w) == hits && SquaredNorm(w) <= norm;
      var words := Padded(query, w, norm - SquaredNorm(w));
      var text := TextOf(words);
    }
  }
}
