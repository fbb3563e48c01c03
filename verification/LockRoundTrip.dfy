/** The parser reads back what the printer wrote. */
module LockRoundTrip {
  import opened Wrappers
  import opened Strings
  import opened Sorting
  import opened LockText

  // ----- Rows that a resolver produces -----

  /** A non-empty name over the name characters, an exact version, and a 64-digit digest. */
  ghost predicate CleanRow(r: LockRow) {
    && r.name != "" && (forall c | c in r.name :: IsNameChar(c))
    && r.version != "" && (forall c | c in r.version :: !IsSpace(c) && c != '\\')
    && (forall i: nat :: !HashAt(r.version, i))
    && IsDigest(r.digest)
  }

  ghost predicate DistinctNames(rows: seq<LockRow>) {
    forall i, j | 0 <= i < j < |rows| :: CanonicalName(rows[i].name) != CanonicalName(rows[j].name)
  }

  ghost predicate CleanHeader(h: LockHeader) {
    && (forall t | t in h.before :: OneLine(t)) && (forall t | t in h.after :: OneLine(t))
    && OneLine(h.schema) && OneLine(h.section) && OneLine(h.input) && OneLine(h.inputDigest)
  }

  // ----- Cutting a joined text into its lines -----

  lemma {:induction false} LinesOfPlain(p: string)
    requires OneLine(p)
    ensures Lines(p) == [p]
  {
    if p != [] {
      LinesOfPlain(p[1..]);
      assert [p[0]] + p[1..] == p;
    }
  }

  lemma {:induction false} LinesAfterPlain(p: string, rest: string)
    requires OneLine(p)
    ensures Lines(p + ['\n'] + rest) == [p] + Lines(rest)
  {
    var s := p + ['\n'] + rest;
    if p == [] {
      assert s[1..] == rest;
    } else {
      assert s[1..] == p[1..] + ['\n'] + rest;
      LinesAfterPlain(p[1..], rest);
      assert [p[0]] + p[1..] == p;
    }
  }

  lemma {:induction false} LinesOfJoined(lines: seq<string>)
    requires lines != [] && forall l | l in lines :: OneLine(l)
    ensures Lines(Join(lines, '\n')) == lines
  {
    if |lines| == 1 {
      LinesOfPlain(lines[0]);
    } else {
      LinesAfterPlain(lines[0], Join(lines[1..], '\n'));
      LinesOfJoined(lines[1..]);
    }
  }

  // ----- Stripping -----

  lemma StripOfTight(s: string)
    requires s != "" && !IsSpace(s[0]) && !IsSpace(s[|s| - 1])
    ensures Strip(s) == s
  {}

  lemma StripOfIndented(s: string)
    requires s != "" && !IsSpace(s[0]) && !IsSpace(s[|s| - 1])
    ensures Strip("    " + s) == s
  {
    var t := "    " + s;
    assert t[1..] == "   " + s && t[1..][1..] == "  " + s && t[1..][1..][1..] == " " + s && t[1..][1..][1..][1..] == s;
    assert t[0] == t[1..][0] == t[1..][1..][0] == t[1..][1..][1..][0] == ' ';
    assert StripLeft(t) == StripLeft(t[1..]) == StripLeft(t[1..][1..]) == StripLeft(t[1..][1..][1..]) == StripLeft(s);
  }

  lemma {:induction false} StripRightKeepsHead(s: string)
    requires s != "" && !IsSpace(s[0])
    ensures StripRight(s) != "" && StripRight(s)[0] == s[0]
  {
    if IsSpace(s[|s| - 1]) {
      StripRightKeepsHead(s[..|s| - 1]);
    }
  }

  lemma CommentIsSkipped(j: Joining, line: string)
    requires line == "" || line[0] == '#'
    ensures JoinStep(j, line) == j
  {
    if line != "" {
      StripRightKeepsHead(line);
    }
  }

  // ----- Physical to logical lines -----

  lemma {:induction false} JoinLinesInTwo(j: Joining, x: seq<string>, y: seq<string>)
    ensures JoinLines(j, x + y) == JoinLines(JoinLines(j, x), y)
    decreases |x|
  {
    hide JoinStep;
    if x == [] {
      assert x + y == y;
    } else {
      assert (x + y)[1..] == x[1..] + y;
      JoinLinesInTwo(JoinStep(j, x[0]), x[1..], y);
    }
  }

  lemma {:induction false} CommentsAreSkipped(j: Joining, lines: seq<string>)
    requires forall l | l in lines :: l == "" || l[0] == '#'
    ensures JoinLines(j, lines) == j
  {
    hide JoinStep;
    if lines != [] {
      CommentIsSkipped(j, lines[0]);
      CommentsAreSkipped(j, lines[1..]);
    }
  }

  /** What a printed row becomes as a logical line. */
  function LogicalLine(r: LockRow): string {
    r.name + "==" + r.version + " " + HASH_MARK + r.digest
  }

  function LogicalLines(rows: seq<LockRow>): seq<string> {
    if rows == [] then [] else [LogicalLine(rows[0])] + LogicalLines(rows[1..])
  }

  lemma NameStartsPlain(r: LockRow)
    requires CleanRow(r)
    ensures !IsSpace(r.name[0]) && r.name[0] != '#' && r.name[0] != '='
    ensures !IsSpace(r.version[|r.version| - 1])
  {
    assert r.name[0] in r.name && IsNameChar(r.name[0]);
    assert r.version[|r.version| - 1] in r.version;
  }

  lemma NameLineContinues(j: Joining, r: LockRow)
    requires CleanRow(r)
    ensures JoinStep(j, NameLine(r)) == j.(current := j.current + (r.name + "==" + r.version) + " ")
  {
    var line, pinned := NameLine(r), r.name + "==" + r.version;
    assert line == pinned + " \\";
    NameStartsPlain(r);
    assert line[0] == r.name[0] && line[|line| - 1] == '\\';
    StripOfTight(line);
    var cut := line[..|line| - 1];
    assert cut == pinned + " ";
    assert pinned[|pinned| - 1] == r.version[|r.version| - 1] && pinned[0] == r.name[0];
    StripTrailingBlank(pinned);
  }

  lemma StripTrailingBlank(s: string)
    requires s != "" && !IsSpace(s[0]) && !IsSpace(s[|s| - 1])
    ensures Strip(s + " ") == s
  {
    var t := s + " ";
    assert t[..|t| - 1] == s && t[|t| - 1] == ' ' && IsSpace(' ');
    assert StripLeft(t) == t && StripRight(t) == StripRight(s) == s;
  }

  lemma HashLineCompletes(j: Joining, r: LockRow)
    requires CleanRow(r) && j.current == r.name + "==" + r.version + " "
    ensures JoinStep(j, HashLine(r)) == Joining(j.logical + [LogicalLine(r)], "")
  {
    var core := HASH_MARK + r.digest;
    assert HashLine(r) == "    " + core;
    assert core[0] == '-' && core[|core| - 1] == r.digest[DIGEST_LENGTH - 1];
    assert IsHex(core[|core| - 1]);
    StripOfIndented(core);
    NameStartsPlain(r);
    var line := LogicalLine(r);
    assert j.current + core == line;
    assert line[0] == r.name[0] && line[|line| - 1] == core[|core| - 1];
    StripOfTight(line);
  }

  lemma JoinTwoLines(j: Joining, x: string, y: string)
    ensures JoinLines(j, [x, y]) == JoinStep(JoinStep(j, x), y)
  {
    hide JoinStep;
    assert [x, y][1..] == [y] && [y][1..] == [];
    assert JoinLines(JoinStep(JoinStep(j, x), y), []) == JoinStep(JoinStep(j, x), y);
    assert JoinLines(JoinStep(j, x), [y]) == JoinStep(JoinStep(j, x), y);
  }

  lemma RowBecomesLogical(logical: seq<string>, r: LockRow)
    requires CleanRow(r)
    ensures JoinLines(Joining(logical, ""), [NameLine(r), HashLine(r)]) == Joining(logical + [LogicalLine(r)], "")
  {
    hide JoinStep, NameLine, HashLine, LogicalLine, CleanRow, JoinLines;
    var j := Joining(logical, "");
    NameLineContinues(j, r);
    assert "" + (r.name + "==" + r.version) + " " == r.name + "==" + r.version + " ";
    HashLineCompletes(JoinStep(j, NameLine(r)), r);
    JoinTwoLines(j, NameLine(r), HashLine(r));
  }

  lemma FirstRow(rows: seq<LockRow>)
    requires rows != []
    ensures BodyLines(rows) == [NameLine(rows[0]), HashLine(rows[0])] + BodyLines(rows[1..])
    ensures LogicalLines(rows) == [LogicalLine(rows[0])] + LogicalLines(rows[1..])
  {
    hide NameLine, HashLine, LogicalLine;
  }

  lemma {:induction false} BodyBecomesLogical(logical: seq<string>, rows: seq<LockRow>)
    requires forall r | r in rows :: CleanRow(r)
    ensures JoinLines(Joining(logical, ""), BodyLines(rows)) == Joining(logical + LogicalLines(rows), "")
    decreases |rows|
  {
    hide JoinStep, NameLine, HashLine, LogicalLine, CleanRow;
    if rows == [] {
      assert logical + [] == logical;
    } else {
      hide JoinLines, BodyLines, LogicalLines;
      var r := rows[0];
      assert r in rows;
      FirstRow(rows);
      RowBecomesLogical(logical, r);
      JoinLinesInTwo(Joining(logical, ""), [NameLine(r), HashLine(r)], BodyLines(rows[1..]));
      BodyBecomesLogical(logical + [LogicalLine(r)], rows[1..]);
      assert logical + [LogicalLine(r)] + LogicalLines(rows[1..])
          == logical + ([LogicalLine(r)] + LogicalLines(rows[1..]));
    }
  }

  // ----- One logical line -----

  lemma {:induction false} NameLengthIs(name: string, rest: string)
    requires (forall c | c in name :: IsNameChar(c)) && rest != "" && !IsNameChar(rest[0])
    ensures NameLength(name + rest) == |name|
  {
    var line := name + rest;
    if name != "" {
      assert line[1..] == name[1..] + rest;
      NameLengthIs(name[1..], rest);
    }
  }

  lemma NameIsFound(r: LockRow)
    requires CleanRow(r)
    ensures PackageName(LogicalLine(r)) == Some(r.name)
  {
    hide HASH_MARK, HashAt, IsDigest;
    var line, rest := LogicalLine(r), "==" + r.version + " " + HASH_MARK + r.digest;
    assert line == r.name + rest;
    NameLengthIs(r.name, rest);
    var n := |r.name|;
    assert NameLength(line) == n && r.version[0] in r.version;
    assert line[n] == rest[0] == '=' && line[n + 1] == rest[1] == '=' && line[n + 2] == rest[2] == r.version[0];
    assert line[..n] == r.name;
  }

  /** Inside an occurrence of the hash mark with its digest there is no blank, and "=" only before "sha". */
  lemma HashHasNoBlank(line: string, i: nat, k: nat)
    requires HashAt(line, i) && i <= k < i + |HASH_MARK| + DIGEST_LENGTH
    ensures line[k] != ' '
    ensures line[k] == '=' ==> k == i + 6
    ensures k == i + 5 ==> line[k] == 'h'
    ensures k == i + 7 ==> line[k] == 's'
  {
    if k < i + |HASH_MARK| {
      assert line[k] == line[i..i + |HASH_MARK|][k - i] == HASH_MARK[k - i];
    } else {
      var d := line[i + |HASH_MARK|..i + |HASH_MARK| + DIGEST_LENGTH];
      assert line[k] == d[k - i - |HASH_MARK|];
      assert IsHex(line[k]);
    }
  }

  lemma MarkHasEquals(line: string, i: nat)
    requires HashAt(line, i)
    ensures line[i + 6] == '='
  {
    assert line[i + 6] == line[i..i + |HASH_MARK|][6];
  }

  lemma NoEarlyHash(r: LockRow, i: nat)
    requires CleanRow(r) && i < |r.name| + 2 + |r.version| + 1
    ensures !HashAt(LogicalLine(r), i)
  {
    var line, n, v := LogicalLine(r), |r.name|, |r.version|;
    var blank := n + 2 + v;
    assert line == r.name + ("==" + (r.version + (" " + (HASH_MARK + r.digest))));
    assert line[n] == '=' && line[n + 1] == '=' && line[blank] == ' ';
    assert i + 6 < n ==> line[i + 6] == r.name[i + 6] && r.name[i + 6] in r.name;
    if HashAt(line, i) {
      if blank < i + |HASH_MARK| + DIGEST_LENGTH {
        HashHasNoBlank(line, i, blank);
      } else if i + 6 < n {
        MarkHasEquals(line, i);
      } else if i < n + 2 {
        HashHasNoBlank(line, i, n + 1);
        HashHasNoBlank(line, i, if i <= n then n else i);
      } else {
        HashWithinVersion(r, i);
      }
      assert false;
    }
  }

  lemma HashWithinVersion(r: LockRow, i: nat)
    requires |r.name| + 2 <= i && i + |HASH_MARK| + DIGEST_LENGTH <= |r.name| + 2 + |r.version|
    requires HashAt(LogicalLine(r), i)
    ensures HashAt(r.version, i - |r.name| - 2)
  {
    var line, k := LogicalLine(r), |r.name| + 2;
    assert line[k..k + |r.version|] == r.version;
    var o := i - k;
    assert line[i..i + |HASH_MARK|] == r.version[o..o + |HASH_MARK|];
    assert line[i + |HASH_MARK|..i + |HASH_MARK| + DIGEST_LENGTH]
        == r.version[o + |HASH_MARK|..o + |HASH_MARK| + DIGEST_LENGTH];
  }

  lemma {:induction false} SkipToHash(line: string, i: nat, k: nat)
    requires i <= k <= |line| && forall m: nat | i <= m < k :: !HashAt(line, m)
    ensures HashesFrom(line, i) == HashesFrom(line, k)
    decreases k - i
  {
    hide HashAt;
    if i < k {
      SkipToHash(line, i + 1, k);
    }
  }

  lemma HashAfterVersion(r: LockRow, k: nat)
    requires CleanRow(r) && k == |r.name| + 2 + |r.version| + 1
    ensures var line, start := LogicalLine(r), k + |HASH_MARK|;
      HashAt(line, k) && start + DIGEST_LENGTH == |line| && line[start..start + DIGEST_LENGTH] == r.digest
  {
    var line, start := LogicalLine(r), k + |HASH_MARK|;
    assert line[k..start] == HASH_MARK;
    assert line[start..start + DIGEST_LENGTH] == r.digest;
  }

  lemma HashIsFound(r: LockRow)
    requires CleanRow(r)
    ensures HashesFrom(LogicalLine(r), 0) == [Lower(r.digest)]
  {
    var line, k := LogicalLine(r), |r.name| + 2 + |r.version| + 1;
    forall m: nat | m < k ensures !HashAt(line, m) {
      NoEarlyHash(r, m);
    }
    SkipToHash(line, 0, k);
    HashAfterVersion(r, k);
    hide HashAt, LogicalLine, HASH_MARK, Lower;
    assert HashesFrom(line, |line|) == [];
  }

  // ----- All logical lines -----

  function CanonicalNames(rows: seq<LockRow>): (names: seq<string>)
    ensures |names| == |rows| && forall i | 0 <= i < |rows| :: names[i] == CanonicalName(rows[i].name)
  {
    seq(|rows|, i requires 0 <= i < |rows| => CanonicalName(rows[i].name))
  }

  function LowerDigests(rows: seq<LockRow>): (digests: seq<string>)
    ensures |digests| == |rows| && forall i | 0 <= i < |rows| :: digests[i] == Lower(rows[i].digest)
  {
    seq(|rows|, i requires 0 <= i < |rows| => Lower(rows[i].digest))
  }

  lemma RowIsAdded(p: Packages, r: LockRow)
    requires CleanRow(r) && CanonicalName(r.name) !in p.names
    ensures AddPackage(p, LogicalLine(r))
         == Ok(Packages(p.names + [CanonicalName(r.name)], p.hashes + [Lower(r.digest)]))
  {
    hide CanonicalName, LogicalLine, PackageName, HashesFrom, CleanRow;
    NameIsFound(r);
    HashIsFound(r);
  }

  lemma {:induction false} RowsAreCollected(p: Packages, rows: seq<LockRow>)
    requires (forall r | r in rows :: CleanRow(r)) && DistinctNames(rows)
    requires forall i | 0 <= i < |rows| :: CanonicalName(rows[i].name) !in p.names
    ensures CollectPackages(p, LogicalLines(rows))
         == Ok(Packages(p.names + CanonicalNames(rows), p.hashes + LowerDigests(rows)))
    decreases |rows|
  {
    hide CanonicalName, LogicalLine, AddPackage, CleanRow;
    if rows == [] {
      assert p.names + CanonicalNames(rows) == p.names && p.hashes + LowerDigests(rows) == p.hashes;
    } else {
      var r, rest := rows[0], rows[1..];
      assert r in rows;
      RowIsAdded(p, r);
      var next := Packages(p.names + [CanonicalName(r.name)], p.hashes + [Lower(r.digest)]);
      forall i | 0 <= i < |rest| ensures CanonicalName(rest[i].name) !in next.names {
        assert rest[i] == rows[i + 1];
      }
      RowsAreCollected(next, rest);
      RestOfRows(p, rows);
    }
  }

  lemma RestOfRows(p: Packages, rows: seq<LockRow>)
    requires rows != []
    ensures p.names + [CanonicalName(rows[0].name)] + CanonicalNames(rows[1..]) == p.names + CanonicalNames(rows)
    ensures p.hashes + [Lower(rows[0].digest)] + LowerDigests(rows[1..]) == p.hashes + LowerDigests(rows)
  {}

  // ----- The round trip -----

  lemma {:induction false} BodyIsOneLine(rows: seq<LockRow>)
    requires forall r | r in rows :: CleanRow(r)
    ensures forall l | l in BodyLines(rows) :: OneLine(l)
  {
    if rows != [] {
      hide CleanRow, NameLine, HashLine;
      assert rows[0] in rows;
      RowIsOneLine(rows[0]);
      BodyIsOneLine(rows[1..]);
    }
  }

  lemma RowIsOneLine(r: LockRow)
    requires CleanRow(r)
    ensures OneLine(NameLine(r)) && OneLine(HashLine(r))
  {
    forall c | c in NameLine(r) ensures !IsLineBreak(c) {
      assert c in r.name || c in r.version || c in {'=', ' ', '\\'};
    }
    assert OneLine(HASH_MARK);
    forall c | c in HashLine(r) ensures !IsLineBreak(c) {
      assert c == ' ' || c in HASH_MARK || c in r.digest;
    }
  }

  lemma HeaderIsComment(h: LockHeader)
    requires CleanHeader(h)
    ensures forall l | l in HeaderLines(h) :: OneLine(l) && (l == "" || l[0] == '#')
  {
    forall l | l in CommentLines(h.before) + CommentLines(h.after) ensures OneLine(l) && l[0] == '#' {
      assert exists t :: (t in h.before || t in h.after) && l == "#" + t;
    }
    MarkersAreComments(h);
    hide Markers, CommentLines, OneLine, CleanHeader;
  }

  lemma MarkersAreComments(h: LockHeader)
    requires CleanHeader(h)
    ensures forall l | l in Markers(h) :: OneLine(l) && l != "" && l[0] == '#'
  {
    assert OneLine("# schema: ") && OneLine("# section: ") && OneLine("# input: ") && OneLine("# input-digest: ");
    assert OneLine("# schema: " + h.schema) && OneLine("# section: " + h.section);
    assert OneLine("# input: " + h.input) && OneLine("# input-digest: " + h.inputDigest);
    hide OneLine, CleanHeader;
  }

  lemma PrintedLinesJoin(h: LockHeader, rows: seq<LockRow>)
    requires CleanHeader(h) && forall r | r in rows :: CleanRow(r)
    ensures JoinLines(Joining([], ""), Lines(Format(h, rows))) == Joining(LogicalLines(rows), "")
  {
    hide HeaderLines, BodyLines, CleanHeader, CleanRow, JoinStep, LogicalLines, Lines;
    var lines := HeaderLines(h) + BodyLines(rows) + [""];
    HeaderIsComment(h);
    BodyIsOneLine(rows);
    LinesOfJoined(lines);
    var start := Joining([], "");
    assert lines == HeaderLines(h) + (BodyLines(rows) + [""]);
    JoinLinesInTwo(start, HeaderLines(h), BodyLines(rows) + [""]);
    CommentsAreSkipped(start, HeaderLines(h));
    JoinLinesInTwo(start, BodyLines(rows), [""]);
    BodyBecomesLogical([], rows);
    CommentsAreSkipped(JoinLines(start, BodyLines(rows)), [""]);
    assert [] + LogicalLines(rows) == LogicalLines(rows);
  }

  /**
   The parser accepts what the printer wrote for any non-empty list of clean rows with distinct
   canonical names, counts one package and one hash per row, and digests exactly those canonical
   names in order and those hashes sorted.
   */
  lemma FormatThenValidate(sha: string -> string, h: LockHeader, rows: seq<LockRow>)
    requires rows != [] && CleanHeader(h) && (forall r | r in rows :: CleanRow(r)) && DistinctNames(rows)
    ensures var material := [h.section] + CanonicalNames(rows) + StableSort(LowerDigests(rows), ByString());
      Validate(sha, h.section, Format(h, rows)) == Ok(LockInfo(|rows|, |rows|, sha(Join(material, '\n'))))
  {
    hide CleanHeader, CleanRow, CanonicalNames, LowerDigests, LogicalLines, Lines, Format, JoinLines,
      CollectPackages, DistinctNames, StableSort;
    PrintedLinesJoin(h, rows);
    RowsAreCollected(Packages([], []), rows);
    CollectedNothingElse(rows);
  }

  lemma CollectedNothingElse(rows: seq<LockRow>)
    ensures [] + CanonicalNames(rows) == CanonicalNames(rows) && |CanonicalNames(rows)| == |rows|
    ensures [] + LowerDigests(rows) == LowerDigests(rows) && |LowerDigests(rows)| == |rows|
  {}

  // ----- Exactly when printed rows are accepted -----

  lemma {:induction false} CollectedOnlyIfDistinct(p: Packages, rows: seq<LockRow>)
    requires forall r | r in rows :: CleanRow(r)
    requires CollectPackages(p, LogicalLines(rows)).Ok?
    ensures DistinctNames(rows) && forall i | 0 <= i < |rows| :: CanonicalName(rows[i].name) !in p.names
    decreases |rows|
  {
    hide CanonicalName, LogicalLine, AddPackage, CleanRow;
    if rows != [] {
      var r, rest := rows[0], rows[1..];
      assert r in rows;
      if CanonicalName(r.name) in p.names {
        RepeatIsRefused(p, r);
        assert false;
      }
      RowIsAdded(p, r);
      var next := Packages(p.names + [CanonicalName(r.name)], p.hashes + [Lower(r.digest)]);
      CollectedOnlyIfDistinct(next, rest);
      forall i | 0 < i < |rows|
        ensures CanonicalName(rows[i].name) !in p.names && CanonicalName(rows[i].name) != CanonicalName(r.name)
      {
        assert rest[i - 1] == rows[i];
        assert CanonicalName(rest[i - 1].name) !in next.names;
      }
      forall i, j | 0 < i < j < |rows| ensures CanonicalName(rows[i].name) != CanonicalName(rows[j].name) {
        assert rest[i - 1] == rows[i] && rest[j - 1] == rows[j];
      }
    }
  }

  lemma RepeatIsRefused(p: Packages, r: LockRow)
    requires CleanRow(r) && CanonicalName(r.name) in p.names
    ensures AddPackage(p, LogicalLine(r)) == Err(Duplicate)
  {
    hide CanonicalName, LogicalLine, PackageName, HashesFrom, CleanRow;
    NameIsFound(r);
  }

  /** Clean rows are accepted after printing exactly when their canonical names are distinct. */
  lemma AcceptedIffDistinct(sha: string -> string, h: LockHeader, rows: seq<LockRow>)
    requires rows != [] && CleanHeader(h) && forall r | r in rows :: CleanRow(r)
    ensures Validate(sha, h.section, Format(h, rows)).Ok? <==> DistinctNames(rows)
  {
    hide CleanHeader, CleanRow, DistinctNames, Format, LogicalLines, CollectPackages, JoinLines, Lines, ContentDigest;
    if DistinctNames(rows) {
      FormatThenValidate(sha, h, rows);
    } else if Validate(sha, h.section, Format(h, rows)).Ok? {
      PrintedLinesJoin(h, rows);
      CollectedOnlyIfDistinct(Packages([], []), rows);
      assert false;
    }
  }
}
