/**
 The temporary directory of one benchmark run, as a map from paths to directories and files, with
 the file operations the runner performs on it.  A path is the list of its parts below the
 temporary directory.
 */
module Workspace {
  import opened Wrappers
  import opened Strings

  // ----- Text -----

  type CodePoint = c: int | 0 <= c < 0x11_0000

  /** A Python string: code points, lone surrogates included (JSON input can contain them). */
  type Text = seq<CodePoint>

  /** UTF-8 encoding raises on a surrogate and on nothing else. */
  predicate Encodable(text: Text) {
    forall c | c in text :: !(0xD800 <= c < 0xE000)
  }

  // ----- Paths -----

  type Path = seq<string>

  const REPO: Path := ["repo"]
  const ARTIFACTS: Path := ["artifacts"]
  const SNAPSHOTS: Path := ["snapshots"]
  const IGNORED_TREE_PARTS := {".git", "__pycache__", ".pytest_cache"}

  /** Paths that hashing, snapshots and restores look at. */
  predicate Visible(p: Path) {
    forall part | part in p :: part !in IGNORED_TREE_PARTS
  }

  /** The parts of a declared path: empty parts and "." disappear. */
  function Parts(raw: string): Path {
    DropEmptyParts(Split(raw, '/'))
  }

  function DropEmptyParts(parts: seq<string>): (p: Path)
    ensures "" !in p && "." !in p
  {
    if parts == [] then []
    else
      var rest := DropEmptyParts(parts[1..]);
      if parts[0] == "" || parts[0] == "." then rest else [parts[0]] + rest
  }

  /** `_validate_relative_path` together with `_normalize_relpath`. */
  function NormalizeRelpath(raw: string): Option<Path> {
    if raw == "" || raw[0] == '/' || raw[0] == '~' || ".." in Parts(raw) then None else Some(Parts(raw))
  }

  /** `_snapshot_name` accepts these names; "." and ".." are among them. */
  predicate SafeSnapshotName(name: string) {
    name != "" && forall c | c in name ::
      'A' <= c <= 'Z' || 'a' <= c <= 'z' || '0' <= c <= '9' || c == '_' || c == '.' || c == '-'
  }

  /** Names that address a directory of their own below the snapshot root. */
  predicate OwnDirectory(name: string) {
    name != "." && name != ".."
  }

  // ----- Trees -----

  datatype Node = Dir | File(text: Text)

  type Tree = map<Path, Node>

  datatype Error =
    | BenchmarkError | KeyError | FileNotFoundError | FileExistsError | NotADirectoryError
    | IsADirectoryError | UnicodeEncodeError | CommandError | SearchError | UnexpectedExitCode

  datatype Effect = Done(tree: Tree) | Raised(tree: Tree, error: Error)

  predicate IsDir(t: Tree, p: Path) {
    p in t && t[p].Dir?
  }

  predicate IsFile(t: Tree, p: Path) {
    p in t && t[p].File?
  }

  /** The text of the file p below base, if there is one. */
  function FileAt(t: Tree, base: Path, p: Path): Option<Text> {
    if IsFile(t, base + p) then Some(t[base + p].text) else None
  }

  /** What `_hash_tree` sees below base: the visible files with their contents. */
  function VisibleFiles(t: Tree, base: Path): (files: map<Path, Text>)
    ensures forall p :: p in files <==> Visible(p) && FileAt(t, base, p).Some?
    ensures forall p | p in files :: FileAt(t, base, p) == Some(files[p])
  {
    var below := set k | k in t && base <= k && t[k].File? && Visible(k[|base|..]) :: k[|base|..];
    assert forall k | k in t && base <= k :: k == base + k[|base|..];
    assert forall p | IsFile(t, base + p) && Visible(p) :: (base + p)[|base|..] == p && p in below;
    map p | p in below :: t[base + p].text
  }

  function RemoveTree(t: Tree, dir: Path): Tree {
    map k | k in t && !(dir <= k) :: t[k]
  }

  function CopiedPaths(t: Tree, source: Path, target: Path): (copied: set<Path>)
    ensures forall k | k in copied :: target <= k && source + k[|target|..] in t && Visible(k[|target|..])
    ensures forall p | Visible(p) && source + p in t :: target + p in copied
  {
    var copied := set k | k in t && source <= k && Visible(k[|source|..]) :: target + k[|source|..];
    assert forall k | k in t && source <= k :: k == source + k[|source|..];
    assert forall p | Visible(p) && source + p in t ::
        source <= source + p && (source + p)[|source|..] == p && target + p in copied;
    copied
  }

  /** `shutil.copytree(source, target, ignore=_copy_ignore)`. */
  function CopyTree(t: Tree, source: Path, target: Path): Tree {
    t + map k | k in CopiedPaths(t, source, target) :: t[source + k[|target|..]]
  }

  function ProperPrefixes(p: Path): set<Path> {
    set i | 0 <= i < |p| :: p[..i]
  }

  /** `mkdir(parents=True, exist_ok=True)` on the parent of target, when no file is in the way. */
  function WithParents(t: Tree, target: Path): Tree {
    t + map k | k in ProperPrefixes(target) && k !in t :: Dir
  }

  /**
   Creates the missing parents of target and writes text there.  The file is opened, and so
   emptied, before the text is encoded.
   */
  function WriteText(t: Tree, target: Path, text: Text): Effect {
    if exists k | k in ProperPrefixes(target) :: IsFile(t, k) then
      Raised(t, if target != [] && IsFile(t, target[..|target| - 1]) then FileExistsError else NotADirectoryError)
    else if IsDir(t, target) then
      Raised(WithParents(t, target), IsADirectoryError)
    else if !Encodable(text) then
      Raised(WithParents(t, target)[target := File([])], UnicodeEncodeError)
    else
      Done(WithParents(t, target)[target := File(text)])
  }

  function NotADirectory(t: Tree, p: Path): Error {
    if p in t then NotADirectoryError else FileNotFoundError
  }

  /**
   `_snapshot`.  The name "." addresses the snapshot root itself; ".." addresses its parent, so the
   whole temporary directory is emptied before the removal of ".." itself fails.
   */
  function TakeSnapshot(t: Tree, name: string): Effect {
    if !SafeSnapshotName(name) then
      Raised(t, BenchmarkError)
    else if name == ".." then
      if IsDir(t, SNAPSHOTS) then Raised(map[[] := Dir], FileNotFoundError)
      else if !IsDir(t, REPO) then Raised(t, NotADirectory(t, REPO))
      else Raised(t[SNAPSHOTS := Dir], FileExistsError)
    else
      var target := SnapshotDir(name);
      if IsFile(t, target) then Raised(t, NotADirectoryError)
      else
        var cleared := RemoveTree(t, target);
        if !IsDir(t, REPO) then Raised(cleared, NotADirectory(t, REPO))
        else if target != SNAPSHOTS && IsFile(t, SNAPSHOTS) then Raised(cleared, NotADirectoryError)
        else Done(CopyTree(WithParents(cleared, target), REPO, target))
  }

  function SnapshotDir(name: string): Path {
    if name == "." then SNAPSHOTS else if name == ".." then [] else SNAPSHOTS + [name]
  }

  /** `_restore_snapshot`. */
  function RestoreSnapshot(t: Tree, name: string): Effect {
    var source := SnapshotDir(name);
    if !SafeSnapshotName(name) || !IsDir(t, source) || (name == ".." && !IsDir(t, SNAPSHOTS)) then
      Raised(t, BenchmarkError)
    else if !IsDir(t, REPO) then
      Raised(t, NotADirectory(t, REPO))
    else
      Done(CopyTree(RemoveTree(t, REPO), source, REPO))
  }

  /** The paths of a tree, put below the repository. */
  function MovedPaths(after: Tree): (moved: set<Path>)
    ensures forall q :: REPO + q in moved <==> q in after
    ensures forall k | k in moved :: REPO <= k && k[1..] in after
  {
    var moved := set k | k in after :: REPO + k;
    assert forall q :: (REPO + q)[1..] == q;
    moved
  }

  /** The repository after a command that left `after` (paths relative to the repository) behind. */
  function ReplaceRepo(t: Tree, after: Tree): Tree {
    RemoveTree(t, REPO) + (map k | k in MovedPaths(after) :: after[k[1..]]) + map[REPO := Dir]
  }

  // ----- How the operations change the files below a directory -----

  predicate Apart(a: Path, b: Path) {
    !(a <= b) && !(b <= a)
  }

  lemma WithParentsFileAt(t: Tree, target: Path, base: Path, p: Path)
    ensures FileAt(WithParents(t, target), base, p) == FileAt(t, base, p)
  {}

  lemma WriteTextFileAt(t: Tree, target: Path, text: Text, base: Path, p: Path)
    requires target != base + p
    ensures FileAt(WriteText(t, target, text).tree, base, p) == FileAt(t, base, p)
  {}

  lemma RemoveTreeFileAt(t: Tree, dir: Path, base: Path, p: Path)
    requires Apart(dir, base)
    ensures FileAt(RemoveTree(t, dir), base, p) == FileAt(t, base, p)
  {}

  lemma CopyTreeFrame(t: Tree, source: Path, target: Path, base: Path, p: Path)
    requires Apart(target, base)
    ensures FileAt(CopyTree(t, source, target), base, p) == FileAt(t, base, p)
  {}

  lemma CopyTreeFileAt(t: Tree, source: Path, target: Path, p: Path)
    requires forall k | k in t :: !(target <= k)
    ensures FileAt(CopyTree(t, source, target), target, p) == if Visible(p) then FileAt(t, source, p) else None
  {
    var copied := CopiedPaths(t, source, target);
    var k := target + p;
    assert k[|target|..] == p;
    if k in copied {
      assert CopyTree(t, source, target)[k] == t[source + p];
    } else {
      assert k !in t;
    }
  }

  lemma CopyTreeIsDir(t: Tree, source: Path, target: Path)
    requires IsDir(t, source)
    ensures IsDir(CopyTree(t, source, target), target)
  {
    assert source + [] == source && target + [] == target;
    assert Visible([]);
    assert target + [] in CopiedPaths(t, source, target);
    assert target[|target|..] == [];
  }

  // ----- What a write achieves -----

  /** A write succeeds exactly when no file is in the way, the target is no directory, and the text can be encoded. */
  lemma WriteTextExactly(t: Tree, base: Path, p: Path, text: Text)
    ensures var e := WriteText(t, base + p, text);
      && (e.Done? <==> && (forall k | k in ProperPrefixes(base + p) :: !IsFile(t, k))
                       && !IsDir(t, base + p) && Encodable(text))
      && (e.Done? ==> FileAt(e.tree, base, p) == Some(text)
                      && forall k | k in ProperPrefixes(base + p) :: IsDir(e.tree, k))
  {}

  // ----- Normalised paths -----

  /** The walk of the operating system from a directory, without symbolic links; the root is its own parent. */
  function Walk(dir: Path, parts: seq<string>): Path
    decreases |parts|
  {
    if parts == [] then dir
    else
      match parts[0]
      case "" => Walk(dir, parts[1..])
      case "." => Walk(dir, parts[1..])
      case ".." => Walk(if dir == [] then [] else dir[..|dir| - 1], parts[1..])
      case name => Walk(dir + [name], parts[1..])
  }

  /** Where a path leads when it is used in this directory; one with a leading slash starts at the root. */
  function Located(dir: Path, raw: string): Path {
    Walk(if raw != "" && raw[0] == '/' then [] else dir, Split(raw, '/'))
  }

  /**
   A declared path is refused exactly when it is empty, begins with a slash or a tilde, or goes up; any other
   leads from every directory to the normalised path below it.
   */
  lemma NormalizedIsLocated(dir: Path, raw: string)
    ensures NormalizeRelpath(raw).None? <==> raw == "" || raw[0] in {'/', '~'} || ".." in Split(raw, '/')
    ensures forall p | NormalizeRelpath(raw) == Some(p) :: Located(dir, raw) == dir + p
  {
    var parts := Split(raw, '/');
    DroppedPartsAreParts(parts);
    PartsAreKept(parts);
    if ".." !in parts {
      WalkGoesDown(dir, parts);
    }
  }

  lemma {:induction false} PartsAreKept(parts: seq<string>)
    ensures forall q | q in parts && q != "" && q != "." :: q in DropEmptyParts(parts)
  {
    if parts != [] {
      PartsAreKept(parts[1..]);
    }
  }

  lemma {:induction false} WalkGoesDown(dir: Path, parts: seq<string>)
    requires ".." !in parts
    ensures Walk(dir, parts) == dir + DropEmptyParts(parts)
    decreases |parts|
  {
    if parts != [] {
      var down := if parts[0] == "" || parts[0] == "." then dir else dir + [parts[0]];
      WalkGoesDown(down, parts[1..]);
    }
  }

  lemma {:induction false} DropNothing(parts: seq<string>)
    requires "" !in parts && "." !in parts
    ensures DropEmptyParts(parts) == parts
  {
    if parts != [] {
      DropNothing(parts[1..]);
      assert parts[0] in parts;
      assert parts == [parts[0]] + parts[1..];
    }
  }

  lemma {:induction false} DroppedPartsAreParts(parts: seq<string>)
    ensures forall q | q in DropEmptyParts(parts) :: q in parts
  {
    if parts != [] {
      DroppedPartsAreParts(parts[1..]);
    }
  }

  /**
   A normalised path written out with slashes is normalised again to itself, unless it begins with
   a tilde: "./~x" is accepted and becomes "~x", which is refused.
   */
  lemma NormalizedAgain(raw: string)
    requires NormalizeRelpath(raw).Some? && NormalizeRelpath(raw).value != []
    ensures var p := NormalizeRelpath(raw).value;
      && p[0] != ""
      && NormalizeRelpath(Join(p, '/')) == if p[0][0] == '~' then None else Some(p)
  {
    var p := NormalizeRelpath(raw).value;
    DroppedPartsAreParts(Split(raw, '/'));
    assert p[0] in p;
    SplitJoin(p, '/');
    DropNothing(p);
    assert Join(p, '/')[0] == p[0][0];
    assert p[0][0] in p[0];
  }
}
