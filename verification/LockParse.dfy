/** What the lock parser accepts, over the logical lines of any text. */
module LockParse {
  import opened Wrappers
  import opened Strings
  import opened Sorting
  import opened LockText

  // ----- Exact requirements -----

  /** The line begins with a name of n characters, "==" and the start of a version. */
  predicate ExactAt(line: string, n: nat) {
    && 1 <= n && n + 2 < |line| && line[n..n + 2] == "==" && !IsSpace(line[n + 2]) && line[n + 2] != '\\'
    && forall i | 0 <= i < n :: IsNameChar(line[i])
  }

  ghost predicate Named(line: string, name: string) {
    exists n: nat :: ExactAt(line, n) && name == CanonicalName(line[..n])
  }

  lemma PackageNameMeans(line: string)
    ensures PackageName(line).None? <==> forall n: nat :: !ExactAt(line, n)
    ensures forall n: nat | ExactAt(line, n) :: PackageName(line) == Some(line[..n])
    ensures forall name :: Named(line, name) <==>
      PackageName(line).Some? && name == CanonicalName(PackageName(line).value)
  {
    var n := NameLength(line);
    assert PackageName(line).Some? <==> ExactAt(line, n) by {
      assert n + 2 < |line| ==> line[n..n + 2] == [line[n], line[n + 1]];
    }
    forall m: nat | ExactAt(line, m) ensures m == n {
      assert line[m] == line[m..m + 2][0] == '=';
    }
    hide CanonicalName;
  }

  // ----- Hashes -----

  /** The hashes are those after the hash marks of the line, all of them, in order, in lower case. */
  ghost predicate HashesOf(line: string, hashes: seq<string>) {
    exists marks: seq<nat> :: MarksOf(line, 0, marks) && hashes == DigestsAt(line, marks)
  }

  /** The positions from i on at which a hash stands, in order. */
  ghost predicate MarksOf(line: string, i: nat, marks: seq<nat>) {
    && (forall k, m | 0 <= k < m < |marks| :: marks[k] < marks[m])
    && (forall k | 0 <= k < |marks| :: HashAt(line, marks[k]))
    && (forall j: nat :: j in marks <==> j >= i && HashAt(line, j))
  }

  function DigestAt(line: string, i: nat): string
    requires HashAt(line, i)
  {
    Lower(line[i + |HASH_MARK|..i + |HASH_MARK| + DIGEST_LENGTH])
  }

  function DigestsAt(line: string, marks: seq<nat>): (hashes: seq<string>)
    requires forall k | 0 <= k < |marks| :: HashAt(line, marks[k])
    ensures |hashes| == |marks|
  {
    seq(|marks|, k requires 0 <= k < |marks| && HashAt(line, marks[k]) => DigestAt(line, marks[k]))
  }

  /** Two hyphens stand at a hash mark, and nowhere inside a hash. */
  lemma HyphensOfHash(line: string, i: nat)
    requires HashAt(line, i)
    ensures line[i] == '-' && line[i + 1] == '-'
    ensures forall j | i < j < i + |HASH_MARK| + DIGEST_LENGTH ::
              line[j] != '-' || line[j + 1..] == [] || line[j + 1] != '-'
  {
    var mark, digest := line[i..i + |HASH_MARK|], line[i + |HASH_MARK|..i + |HASH_MARK| + DIGEST_LENGTH];
    assert line[i] == mark[0] && line[i + 1] == mark[1];
    forall j | i < j < i + |HASH_MARK| + DIGEST_LENGTH
      ensures line[j] != '-' || line[j + 1..] == [] || line[j + 1] != '-'
    {
      if j < i + |HASH_MARK| {
        assert line[j] == mark[j - i] && line[i + 2] == mark[2];
      } else {
        assert line[j] == digest[j - i - |HASH_MARK|] && digest[j - i - |HASH_MARK|] in digest;
      }
    }
  }

  /** Two hashes do not overlap. */
  lemma HashesAreApart(line: string, i: nat, j: nat)
    requires HashAt(line, i) && i < j < i + |HASH_MARK| + DIGEST_LENGTH
    ensures !HashAt(line, j)
  {
    HyphensOfHash(line, i);
    if HashAt(line, j) {
      HyphensOfHash(line, j);
    }
  }

  lemma HashFits(line: string, i: nat)
    requires HashAt(line, i)
    ensures i + |HASH_MARK| + DIGEST_LENGTH <= |line| && |HASH_MARK| == 14
  {}

  lemma NoHashAtEnd(line: string, j: nat)
    requires j >= |line|
    ensures !HashAt(line, j)
  {}

  lemma HashesStep(line: string, i: nat)
    requires i < |line|
    ensures HashAt(line, i) ==>
      HashesFrom(line, i) == [DigestAt(line, i)] + HashesFrom(line, i + |HASH_MARK| + DIGEST_LENGTH)
    ensures !HashAt(line, i) ==> HashesFrom(line, i) == HashesFrom(line, i + 1)
  {}

  lemma {:induction false} HashesFromMean(line: string, i: nat) returns (marks: seq<nat>)
    requires i <= |line|
    ensures MarksOf(line, i, marks) && HashesFrom(line, i) == DigestsAt(line, marks)
    decreases |line| - i
  {
    hide HashAt, HashesFrom, DigestAt;
    if i == |line| {
      marks := [];
      forall j: nat | j >= i ensures !HashAt(line, j) {
        NoHashAtEnd(line, j);
      }
      NothingFromEnd(line);
      return;
    }
    HashesStep(line, i);
    if HashAt(line, i) {
      HashFits(line, i);
      var rest := HashesFromMean(line, i + |HASH_MARK| + DIGEST_LENGTH);
      marks := [i] + rest;
      forall j: nat | i < j < i + |HASH_MARK| + DIGEST_LENGTH ensures !HashAt(line, j) {
        HashesAreApart(line, i, j);
      }
      MarksStep(line, i, i + |HASH_MARK| + DIGEST_LENGTH, rest);
      DigestsStep(line, i, rest);
    } else {
      marks := HashesFromMean(line, i + 1);
    }
  }

  lemma MarksStep(line: string, i: nat, end: nat, rest: seq<nat>)
    requires HashAt(line, i) && i < end && MarksOf(line, end, rest)
    requires forall j: nat | i < j < end :: !HashAt(line, j)
    ensures MarksOf(line, i, [i] + rest)
  {
    hide HashAt;
    var marks := [i] + rest;
    forall k | 0 <= k < |rest| ensures marks[k + 1] == rest[k] && rest[k] >= end {
      assert rest[k] in rest;
    }
    forall k, m | 0 <= k < m < |marks| ensures marks[k] < marks[m] {
      assert marks[m] == rest[m - 1];
    }
    assert forall j: nat :: j in marks <==> j == i || j in rest;
  }

  lemma DigestsStep(line: string, i: nat, rest: seq<nat>)
    requires HashAt(line, i) && forall k | 0 <= k < |rest| :: HashAt(line, rest[k])
    ensures DigestsAt(line, [i] + rest) == [DigestAt(line, i)] + DigestsAt(line, rest)
  {
    hide HashAt, DigestAt;
  }

  lemma NothingFromEnd(line: string)
    ensures HashesFrom(line, |line|) == []
  {}

  /** There are no hashes exactly when there is no hash mark with a digest. */
  lemma HashesExist(line: string)
    ensures HashesOf(line, HashesFrom(line, 0))
    ensures HashesFrom(line, 0) == [] <==> forall j: nat :: !HashAt(line, j)
  {
    hide HashAt, HashesFrom;
    var marks := HashesFromMean(line, 0);
    assert marks != [] ==> marks[0] in marks;
  }

  // ----- The logical lines of a text -----

  function JoinedOf(text: string): Joining {
    JoinLines(Joining([], ""), Lines(text))
  }

  /** Row i repeats the canonical name of an earlier row. */
  ghost predicate Repeats(lines: seq<string>, i: nat)
    requires i < |lines|
  {
    exists j: nat, name :: j < i && Named(lines[j], name) && Named(lines[i], name)
  }

  ghost predicate Hashed(line: string) {
    exists j: nat :: HashAt(line, j)
  }

  ghost predicate Exact(line: string) {
    exists n: nat :: ExactAt(line, n)
  }

  ghost predicate Passes(lines: seq<string>, i: nat)
    requires i < |lines|
  {
    Exact(lines[i]) && !Repeats(lines, i) && Hashed(lines[i])
  }

  ghost predicate FailsWith(lines: seq<string>, i: nat, e: LockError)
    requires i < |lines|
  {
    if !Exact(lines[i]) then e == NotExact
    else if Repeats(lines, i) then e == Duplicate
    else e == MissingHash && !Hashed(lines[i])
  }

  function Flat(lists: seq<seq<string>>): seq<string> {
    if lists == [] then [] else Flat(lists[..|lists| - 1]) + lists[|lists| - 1]
  }

  /** What is read off accepted lines: a name and at least one hash from each. */
  ghost predicate ReadFrom(lines: seq<string>, n: nat, names: seq<string>, hashes: seq<seq<string>>)
    requires n <= |lines|
  {
    && |names| == |hashes| == n
    && forall i | 0 <= i < n :: Named(lines[i], names[i]) && HashesOf(lines[i], hashes[i]) && hashes[i] != []
  }

  ghost predicate Accepted(
    sha: string -> string, section: string, lines: seq<string>, info: LockInfo)
  {
    exists names, hashes ::
      && ReadFrom(lines, |lines|, names, hashes)
      && info.packageCount == |lines| && info.hashCount == |Flat(hashes)|
      && info.contentDigest == sha(Join([section] + names + StableSort(Flat(hashes), ByString()), '\n'))
  }

  ghost predicate Judged(
    sha: string -> string, section: string, text: string, r: Result<LockInfo, LockError>)
  {
    var Joining(lines, dangling) := JoinedOf(text);
    && (r.Ok? <==> dangling == "" && lines != [] && forall i | 0 <= i < |lines| :: Passes(lines, i))
    && (r.Ok? ==> Accepted(sha, section, lines, r.value) && r.value.hashCount >= r.value.packageCount)
    && (r.Err? ==>
          if dangling != "" then r.error == DanglingContinuation
          else if lines == [] then r.error == NoPackages
          else exists i: nat | i < |lines| :: FailsWith(lines, i, r.error) && forall j: nat | j < i :: Passes(lines, j))
  }

  // ----- The parser judges exactly so -----

  lemma NameOf(line: string)
    ensures Exact(line) <==> PackageName(line).Some?
    ensures forall name :: Named(line, name) <==>
      PackageName(line).Some? && name == CanonicalName(PackageName(line).value)
  {
    hide CanonicalName;
    PackageNameMeans(line);
  }

  lemma SeenMeansRepeats(lines: seq<string>, n: nat, names: seq<string>, hashes: seq<seq<string>>, name: string)
    requires n < |lines| && ReadFrom(lines, n, names, hashes) && Named(lines[n], name)
    ensures name in names <==> Repeats(lines, n)
  {
    hide Named, HashesOf;
    if name in names {
      var j :| 0 <= j < n && names[j] == name;
      assert Named(lines[j], name);
    }
    if Repeats(lines, n) {
      var j: nat, other :| j < n && Named(lines[j], other) && Named(lines[n], other);
      NameOf(lines[j]);
      NameOf(lines[n]);
      assert names[j] == name;
    }
  }

  lemma FlatSnoc(lists: seq<seq<string>>, last: seq<string>)
    ensures Flat(lists + [last]) == Flat(lists) + last
  {
    assert (lists + [last])[..|lists|] == lists;
  }

  /** One more line: it fails as described, or adds its name and its hashes. */
  lemma AddStep(lines: seq<string>, n: nat, names: seq<string>, hashes: seq<seq<string>>)
    returns (name: string, found: seq<string>)
    requires n < |lines| && ReadFrom(lines, n, names, hashes)
    ensures var r := AddPackage(Packages(names, Flat(hashes)), lines[n]);
      && (r.Err? ==> FailsWith(lines, n, r.error))
      && (r.Ok? ==> && Passes(lines, n) && ReadFrom(lines, n + 1, names + [name], hashes + [found])
                    && r.value == Packages(names + [name], Flat(hashes + [found])))
  {
    hide CanonicalName, PackageName, HashesFrom, HashAt, Named, HashesOf, Repeats, ExactAt;
    NameOf(lines[n]);
    HashesExist(lines[n]);
    name := if PackageName(lines[n]).Some? then CanonicalName(PackageName(lines[n]).value) else "";
    found := HashesFrom(lines[n], 0);
    FlatSnoc(hashes, found);
    if PackageName(lines[n]).Some? {
      SeenMeansRepeats(lines, n, names, hashes, name);
    }
  }

  ghost predicate Collected(lines: seq<string>, n: nat, r: Result<Packages, LockError>) {
    && (r.Ok? ==>
          && (forall i | n <= i < |lines| :: Passes(lines, i))
          && exists names, hashes ::
               ReadFrom(lines, |lines|, names, hashes) && r.value == Packages(names, Flat(hashes)))
    && (r.Err? ==> exists i: nat | n <= i < |lines| ::
          FailsWith(lines, i, r.error) && forall j: nat | n <= j < i :: Passes(lines, j))
  }

  lemma {:induction false} CollectMeans(lines: seq<string>, n: nat, names: seq<string>, hashes: seq<seq<string>>)
    requires n <= |lines| && ReadFrom(lines, n, names, hashes)
    ensures Collected(lines, n, CollectPackages(Packages(names, Flat(hashes)), lines[n..]))
    decreases |lines| - n
  {
    hide AddPackage, Passes, FailsWith, ReadFrom, Flat;
    if n < |lines| {
      assert lines[n..][0] == lines[n] && lines[n..][1..] == lines[n + 1..];
      var name, found := AddStep(lines, n, names, hashes);
      if AddPackage(Packages(names, Flat(hashes)), lines[n]).Ok? {
        CollectMeans(lines, n + 1, names + [name], hashes + [found]);
      }
    }
  }

  lemma PassingDoesNotFail(lines: seq<string>, i: nat, e: LockError)
    requires i < |lines|
    ensures !(Passes(lines, i) && FailsWith(lines, i, e))
  {}

  lemma {:induction false} EnoughHashes(lines: seq<string>, n: nat, names: seq<string>, hashes: seq<seq<string>>)
    requires n <= |lines| && ReadFrom(lines, n, names, hashes)
    ensures |Flat(hashes)| >= n
  {
    hide Named, HashesOf;
    if n > 0 {
      EnoughHashes(lines, n - 1, names[..n - 1], hashes[..n - 1]);
    }
  }

  /**
   A text is accepted exactly when no continuation dangles, there is a logical line, and every logical line
   begins with an exact requirement of a new canonical name and has a hash.  The names and all the hashes are
   then those of the lines.  Otherwise the error is that of the first line that fails.
   */
  lemma ParsedExactly(sha: string -> string, section: string, text: string)
    ensures Judged(sha, section, text, Validate(sha, section, text))
  {
    hide JoinLines, Lines, Passes, FailsWith, ReadFrom, StableSort, Join;
    var lines, r := JoinedOf(text).logical, CollectPackages(Packages([], []), JoinedOf(text).logical);
    NothingRead(lines);
    CollectMeans(lines, 0, [], []);
    assert lines[0..] == lines;
    if r.Ok? {
      var names, hashes :| ReadFrom(lines, |lines|, names, hashes) && r.value == Packages(names, Flat(hashes));
      EnoughHashes(lines, |lines|, names, hashes);
      NamesOfLines(lines, names, hashes);
    } else {
      var i: nat :| i < |lines| && FailsWith(lines, i, r.error);
      PassingDoesNotFail(lines, i, r.error);
    }
  }

  lemma NothingRead(lines: seq<string>)
    ensures ReadFrom(lines, 0, [], []) && Flat([]) == []
  {}

  lemma NamesOfLines(lines: seq<string>, names: seq<string>, hashes: seq<seq<string>>)
    requires ReadFrom(lines, |lines|, names, hashes)
    ensures |names| == |lines|
  {}
}
