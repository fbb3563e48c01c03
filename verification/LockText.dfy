/** Hash-pinned requirement files: the printer, the line-continuation parser, and their agreement. */
module LockText {
  import opened Wrappers
  import opened Strings
  import opened Sorting

  // ----- Characters -----

  /** Where `str.splitlines` ends a line. */
  predicate IsLineBreak(c: char) {
    c as int in {0x0a, 0x0b, 0x0c, 0x0d, 0x1c, 0x1d, 0x1e, 0x85, 0x2028, 0x2029}
  }

  /** `str.isspace` of one character, which is also the class \s. */
  predicate IsSpace(c: char) {
    || 0x09 <= c as int <= 0x0d || 0x1c <= c as int <= 0x20 || 0x2000 <= c as int <= 0x200a
    || c as int in {0x85, 0xa0, 0x1680, 0x2028, 0x2029, 0x202f, 0x205f, 0x3000}
  }

  predicate IsNameChar(c: char) {
    'A' <= c <= 'Z' || 'a' <= c <= 'z' || '0' <= c <= '9' || c == '_' || c == '.' || c == '-'
  }

  predicate IsHex(c: char) {
    '0' <= c <= '9' || 'a' <= c <= 'f' || 'A' <= c <= 'F'
  }

  predicate OneLine(s: string) {
    forall c | c in s :: !IsLineBreak(c)
  }

  function Lower(s: string): (r: string)
    ensures |r| == |s| && forall i | 0 <= i < |s| :: r[i] == LowerChar(s[i])
  {
    seq(|s|, i requires 0 <= i < |s| => LowerChar(s[i]))
  }

  // ----- Canonical names -----

  predicate IsSeparator(c: char) {
    c == '-' || c == '_' || c == '.'
  }

  function DropSeparators(s: string): (r: string)
    ensures |r| <= |s|
    ensures r == [] || !IsSeparator(r[0])
  {
    if s != [] && IsSeparator(s[0]) then DropSeparators(s[1..]) else s
  }

  /** `_canonical_name`: each run of separators becomes one "-", letters become lower-case. */
  function CanonicalName(s: string): string
    decreases |s|
  {
    if s == [] then []
    else if IsSeparator(s[0]) then ['-'] + CanonicalName(DropSeparators(s[1..]))
    else [LowerChar(s[0])] + CanonicalName(s[1..])
  }

  /** No upper-case letter, no dot, no underscore, and hyphens only one at a time. */
  predicate IsCanonical(s: string) {
    forall i | 0 <= i < |s| ::
      !IsUpper(s[i]) && s[i] != '_' && s[i] != '.' && (s[i] == '-' && i + 1 < |s| ==> s[i + 1] != '-')
  }

  lemma {:induction false} CanonicalNameIsCanonical(s: string)
    ensures IsCanonical(CanonicalName(s))
    ensures CanonicalName(s) != [] ==> s != [] && (IsSeparator(CanonicalName(s)[0]) <==> IsSeparator(s[0]))
    decreases |s|
  {
    if s != [] {
      var rest := if IsSeparator(s[0]) then DropSeparators(s[1..]) else s[1..];
      CanonicalNameIsCanonical(rest);
      assert CanonicalName(s)[1..] == CanonicalName(rest);
      assert forall i | 1 <= i < |CanonicalName(s)| :: CanonicalName(s)[i] == CanonicalName(rest)[i - 1];
    }
  }

  lemma {:induction false} CanonicalIsFixed(s: string)
    requires IsCanonical(s)
    ensures CanonicalName(s) == s
  {
    if s != [] {
      assert forall i | 0 <= i < |s| - 1 :: s[1..][i] == s[i + 1];
      CanonicalIsFixed(s[1..]);
      assert s == [s[0]] + s[1..];
      if IsSeparator(s[0]) {
        assert s[0] == '-' && (|s| > 1 ==> !IsSeparator(s[1]));
        assert DropSeparators(s[1..]) == s[1..];
      }
    }
  }

  lemma {:induction false} CanonicalNameOfWord(word: string)
    requires forall c | c in word :: !IsSeparator(c)
    ensures CanonicalName(word) == Lower(word)
  {
    if word != [] {
      assert word[0] in word;
      CanonicalNameOfWord(word[1..]);
    }
  }

  lemma {:induction false} DropsAll(separators: string, rest: string)
    requires forall c | c in separators :: IsSeparator(c)
    requires rest == [] || !IsSeparator(rest[0])
    ensures DropSeparators(separators + rest) == rest
  {
    if separators == [] {
      assert separators + rest == rest;
    } else {
      assert separators[0] in separators && (separators + rest)[1..] == separators[1..] + rest;
      DropsAll(separators[1..], rest);
    }
  }

  lemma {:induction false} DropsWithin(name: string, rest: string)
    requires name != [] && !IsSeparator(name[|name| - 1])
    ensures var dropped := DropSeparators(name);
      && DropSeparators(name + rest) == dropped + rest
      && dropped != [] && !IsSeparator(dropped[|dropped| - 1])
  {
    if IsSeparator(name[0]) {
      assert (name + rest)[1..] == name[1..] + rest;
      DropsWithin(name[1..], rest);
    }
  }

  lemma SeparatorsFirst(separators: string, rest: string)
    requires separators != [] && forall c | c in separators :: c == '-' || c == '_' || c == '.'
    requires rest == [] || !IsSeparator(rest[0])
    ensures CanonicalName(separators + rest) == ['-'] + CanonicalName(rest)
  {
    assert separators[0] in separators && (separators + rest)[1..] == separators[1..] + rest;
    assert forall c | c in separators[1..] :: c in separators;
    DropsAll(separators[1..], rest);
  }

  lemma {:induction false} CanonicalNameAfter(name: string, after: string)
    requires name == [] || !IsSeparator(name[|name| - 1])
    ensures CanonicalName(name + after) == CanonicalName(name) + CanonicalName(after)
    decreases |name|
  {
    if name == [] {
      assert name + after == after;
    } else {
      var head, rest := CanonicalNameFrom(name, after);
      hide CanonicalName, IsSeparator;
      CanonicalNameAfter(rest, after);
    }
  }

  /** Separators between two names, whichever and however many, become one hyphen. */
  lemma CanonicalNameAcross(a: string, between: string, b: string)
    requires between != [] && forall c | c in between :: c == '-' || c == '_' || c == '.'
    requires a == [] || !IsSeparator(a[|a| - 1])
    requires b == [] || !IsSeparator(b[0])
    ensures CanonicalName(a + (between + b)) == CanonicalName(a) + (['-'] + CanonicalName(b))
  {
    hide CanonicalName, IsSeparator;
    SeparatorsFirst(between, b);
    CanonicalNameAfter(a, between + b);
  }

  /** How the canonical form of a name that ends in no separator begins, whatever follows. */
  lemma CanonicalNameFrom(name: string, after: string) returns (head: char, rest: string)
    requires name != [] && !IsSeparator(name[|name| - 1])
    ensures |rest| < |name| && (rest == [] || !IsSeparator(rest[|rest| - 1]))
    ensures CanonicalName(name) == [head] + CanonicalName(rest)
    ensures CanonicalName(name + after) == [head] + CanonicalName(rest + after)
  {
    assert (name + after)[1..] == name[1..] + after;
    head, rest := if IsSeparator(name[0]) then '-' else LowerChar(name[0]), name[1..];
    if IsSeparator(name[0]) {
      assert |name| > 1 && rest[|rest| - 1] == name[|name| - 1];
      DropsWithin(name[1..], after);
      rest := DropSeparators(name[1..]);
    }
  }

  /** Canonicalising twice is canonicalising once, and the fixed points are exactly the canonical names. */
  lemma {:induction false} CanonicalNameIsIdempotent(s: string)
    ensures CanonicalName(CanonicalName(s)) == CanonicalName(s)
    ensures CanonicalName(s) == s <==> IsCanonical(s)
  {
    CanonicalNameIsCanonical(s);
    CanonicalIsFixed(CanonicalName(s));
    if IsCanonical(s) {
      CanonicalIsFixed(s);
    }
  }

  // ----- Lines -----

  /** The text cut at every line break; splitting CR LF twice only adds a blank line, which the parser skips. */
  function Lines(text: string): (lines: seq<string>)
    ensures |lines| >= 1
  {
    if text == [] then [""]
    else
      var rest := Lines(text[1..]);
      if IsLineBreak(text[0]) then [""] + rest else [[text[0]] + rest[0]] + rest[1..]
  }

  function StripLeft(s: string): (r: string)
    ensures r == [] || !IsSpace(r[0])
    ensures |r| <= |s|
  {
    if s != [] && IsSpace(s[0]) then StripLeft(s[1..]) else s
  }

  function StripRight(s: string): (r: string)
    ensures |r| <= |s|
  {
    if s != [] && IsSpace(s[|s| - 1]) then StripRight(s[..|s| - 1]) else s
  }

  function Strip(s: string): string {
    StripRight(StripLeft(s))
  }

  // ----- The parser -----

  datatype LockError = DanglingContinuation | NotExact | Duplicate | MissingHash | NoPackages

  datatype Joining = Joining(logical: seq<string>, current: string)

  /** One physical line: blank and comment lines are skipped, a trailing backslash continues. */
  function JoinStep(j: Joining, line: string): Joining {
    var stripped := Strip(line);
    if stripped == "" || stripped[0] == '#' then j
    else if stripped[|stripped| - 1] == '\\' then
      j.(current := j.current + Strip(stripped[..|stripped| - 1]) + " ")
    else
      Joining(j.logical + [Strip(j.current + stripped)], "")
  }

  function JoinLines(j: Joining, lines: seq<string>): Joining
    decreases |lines|
  {
    if lines == [] then j else JoinLines(JoinStep(j, lines[0]), lines[1..])
  }

  function NameLength(line: string): (n: nat)
    ensures n <= |line|
    ensures forall i | 0 <= i < n :: IsNameChar(line[i])
    ensures n < |line| ==> !IsNameChar(line[n])
  {
    if line != [] && IsNameChar(line[0]) then 1 + NameLength(line[1..]) else 0
  }

  /** The name of `name==version` at the start of a line, as the package pattern finds it. */
  function PackageName(line: string): Option<string> {
    var n := NameLength(line);
    if n >= 1 && n + 2 < |line| && line[n] == '=' && line[n + 1] == '=' && !IsSpace(line[n + 2]) && line[n + 2] != '\\'
    then Some(line[..n]) else None
  }

  const HASH_MARK: string := "--hash=sha256:"
  const DIGEST_LENGTH: nat := 64

  predicate IsDigest(d: string) {
    |d| == DIGEST_LENGTH && forall c | c in d :: IsHex(c)
  }

  predicate HashAt(line: string, i: nat) {
    && i + |HASH_MARK| + DIGEST_LENGTH <= |line|
    && line[i..i + |HASH_MARK|] == HASH_MARK
    && IsDigest(line[i + |HASH_MARK|..i + |HASH_MARK| + DIGEST_LENGTH])
  }

  /** All digests that follow the hash mark, left to right without overlap. */
  function HashesFrom(line: string, i: nat): seq<string>
    requires i <= |line|
    decreases |line| - i
  {
    if i == |line| then []
    else if HashAt(line, i) then
      var start := i + |HASH_MARK|;
      [Lower(line[start..start + DIGEST_LENGTH])] + HashesFrom(line, start + DIGEST_LENGTH)
    else HashesFrom(line, i + 1)
  }

  datatype Packages = Packages(names: seq<string>, hashes: seq<string>)

  function AddPackage(p: Packages, line: string): Result<Packages, LockError> {
    match PackageName(line)
    case None => Err(NotExact)
    case Some(raw) =>
      var name := CanonicalName(raw);
      if name in p.names then Err(Duplicate)
      else
        var hashes := HashesFrom(line, 0);
        if hashes == [] then Err(MissingHash) else Ok(Packages(p.names + [name], p.hashes + hashes))
  }

  function CollectPackages(p: Packages, logical: seq<string>): Result<Packages, LockError>
    decreases |logical|
  {
    if logical == [] then Ok(p)
    else
      match AddPackage(p, logical[0])
      case Err(e) => Err(e)
      case Ok(next) => CollectPackages(next, logical[1..])
  }

  datatype LockInfo = LockInfo(packageCount: nat, hashCount: nat, contentDigest: string)

  function ByString(): (string, string) -> bool {
    (a: string, b: string) => Le(a, b)
  }

  function ContentDigest(sha: string -> string, section: string, p: Packages): string {
    sha(Join([section] + p.names + StableSort(p.hashes, ByString()), '\n'))
  }

  function Validate(sha: string -> string, section: string, text: string): Result<LockInfo, LockError> {
    var joined := JoinLines(Joining([], ""), Lines(text));
    if joined.current != "" then Err(DanglingContinuation)
    else
      match CollectPackages(Packages([], []), joined.logical)
      case Err(e) => Err(e)
      case Ok(p) =>
        if p.names == [] then Err(NoPackages)
        else Ok(LockInfo(|p.names|, |p.hashes|, ContentDigest(sha, section, p)))
  }

  /** `_validate_lock_text`. */
  method ValidateLockText(sha: string -> string, section: string, text: string) returns (r: Result<LockInfo, LockError>)
    ensures r == Validate(sha, section, text)
  {
    hide Strip, PackageName, HashesFrom, CanonicalName, Lines, StableSort, ContentDigest;
    var lines := Lines(text);
    var logical: seq<string>, current := [], "";
    for i := 0 to |lines|
      invariant JoinLines(Joining(logical, current), lines[i..]) == JoinLines(Joining([], ""), lines)
    {
      assert lines[i..][1..] == lines[i + 1..];
      var stripped := Strip(lines[i]);
      if stripped == "" || stripped[0] == '#' {
        continue;
      }
      if stripped[|stripped| - 1] == '\\' {
        current := current + Strip(stripped[..|stripped| - 1]) + " ";
        continue;
      }
      logical := logical + [Strip(current + stripped)];
      current := "";
    }
    assert lines[|lines|..] == [];
    if current != "" {
      return Err(DanglingContinuation);
    }
    var packages: seq<string>, hashes: seq<string> := [], [];
    for i := 0 to |logical|
      invariant CollectPackages(Packages(packages, hashes), logical[i..]) == CollectPackages(Packages([], []), logical)
    {
      assert logical[i..][1..] == logical[i + 1..];
      var raw := PackageName(logical[i]);
      if raw.None? {
        return Err(NotExact);
      }
      var name := CanonicalName(raw.value);
      if name in packages {
        return Err(Duplicate);
      }
      var lineHashes := HashesFrom(logical[i], 0);
      if lineHashes == [] {
        return Err(MissingHash);
      }
      packages := packages + [name];
      hashes := hashes + lineHashes;
    }
    assert logical[|logical|..] == [];
    if packages == [] {
      return Err(NoPackages);
    }
    r := Ok(LockInfo(|packages|, |hashes|, ContentDigest(sha, section, Packages(packages, hashes))));
  }

  // ----- The printer -----

  datatype LockRow = LockRow(name: string, version: string, digest: string)

  /** The comment texts of the header; the four that `check` looks for are given separately. */
  datatype LockHeader = LockHeader(
    before: seq<string>, schema: string, section: string, input: string, inputDigest: string, after: seq<string>)

  function CommentLines(texts: seq<string>): seq<string> {
    seq(|texts|, i requires 0 <= i < |texts| => "#" + texts[i])
  }

  function SchemaMarker(schema: string): string { "# schema: " + schema }

  function SectionMarker(section: string): string { "# section: " + section }

  function InputMarker(input: string): string { "# input: " + input }

  function InputDigestMarker(digest: string): string { "# input-digest: " + digest }

  function Markers(h: LockHeader): seq<string> {
    [SchemaMarker(h.schema), SectionMarker(h.section), InputMarker(h.input), InputDigestMarker(h.inputDigest)]
  }

  function HeaderLines(h: LockHeader): seq<string> {
    CommentLines(h.before) + Markers(h) + CommentLines(h.after) + [""]
  }

  function NameLine(r: LockRow): string {
    r.name + "==" + r.version + " \\"
  }

  function HashLine(r: LockRow): string {
    "    " + HASH_MARK + r.digest
  }

  function BodyLines(rows: seq<LockRow>): seq<string> {
    if rows == [] then [] else [NameLine(rows[0]), HashLine(rows[0])] + BodyLines(rows[1..])
  }

  /** `_format_lock_file`. */
  function Format(h: LockHeader, rows: seq<LockRow>): string {
    Join(HeaderLines(h) + BodyLines(rows) + [""], '\n')
  }
}
