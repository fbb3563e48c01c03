/**
 What a run can do to files: which actions leave every uncounted path as it was set up, what a
 stored snapshot survives, and what the verdict therefore guarantees.
 */
module RunSafety {
  import opened Wrappers
  import opened Workspace
  import opened Runner
  import RunTrace

  type Files = map<Path, Text>

  ghost predicate Ready(t: Tree) {
    IsDir(t, REPO) && IsDir(t, SNAPSHOTS)
  }

  function Lookup(files: Files, p: Path): Option<Text> {
    if p in files then Some(files[p]) else None
  }

  /** Below base, every visible path that was never counted as written is as it was set up. */
  ghost predicate Agrees(setup: Files, t: Tree, base: Path, counted: multiset<Path>) {
    forall p | Visible(p) && p !in counted :: FileAt(t, base, p) == Lookup(setup, p)
  }

  /** The repository and every stored snapshot agree with the set-up files on uncounted paths. */
  ghost predicate Guarded(setup: Files, st: RunState) {
    && Ready(st.tree)
    && Agrees(setup, st.tree, REPO, st.writeCounts)
    && forall name | OwnDirectory(name) && IsDir(st.tree, SnapshotDir(name)) ::
         Agrees(setup, st.tree, SnapshotDir(name), st.writeCounts)
  }

  // ----- Which actions stay within what is counted -----

  /** A permitted write that empties a visible file and then fails, because its text has no UTF-8 form. */
  predicate TruncatingWrite(fx: Fixture, a: Action) {
    && a.path.Some?
    && NormalizeRelpath(a.path.value).Some?
    && var p := NormalizeRelpath(a.path.value).value;
       p != [] && Visible(p) && RepoMutationAllowed(fx, p) && !Encodable(a.content)
  }

  /** What a caller can check of an action beforehand. */
  predicate Tracked(fx: Fixture, a: Action) {
    a.tool in fx.allowedTools ==>
      match a.tool
      case WriteFile => !TruncatingWrite(fx, a)
      case Snapshot => OwnDirectory(SnapshotName(a)) || !SafeSnapshotName(SnapshotName(a))
      case Restore => OwnDirectory(SnapshotName(a)) || !SafeSnapshotName(SnapshotName(a))
      case RunCommand => a.run.repoAfter.None? || !ValidCommand(a.argv)
      case _ => true
  }

  // ----- One operation at a time -----

  ghost predicate SameFiles(t: Tree, t': Tree, base: Path) {
    forall p :: FileAt(t', base, p) == FileAt(t, base, p)
  }

  /** The directory base is there before and after, or before and after not, with the same files. */
  ghost predicate SameDirectory(t: Tree, t': Tree, base: Path) {
    IsDir(t', base) == IsDir(t, base) && SameFiles(t, t', base)
  }

  /** Every stored snapshot is left as it was. */
  ghost predicate SameSnapshots(t: Tree, t': Tree) {
    forall name | OwnDirectory(name) :: SameDirectory(t, t', SnapshotDir(name))
  }

  /** Below base are exactly the visible files of the directory source of t. */
  ghost predicate VisibleCopy(t: Tree, source: Path, t': Tree, base: Path) {
    forall p :: FileAt(t', base, p) == if Visible(p) then FileAt(t, source, p) else None
  }

  lemma SnapshotDirsApart(name: string)
    requires OwnDirectory(name)
    ensures SnapshotDir(name) == ["snapshots", name]
    ensures Apart(SnapshotDir(name), REPO) && Apart(REPO, SnapshotDir(name))
    ensures forall other | OwnDirectory(other) && other != name :: Apart(SnapshotDir(name), SnapshotDir(other))
  {
    assert SnapshotDir(name)[0] == "snapshots" && REPO[0] == "repo";
    forall other | OwnDirectory(other) && other != name ensures Apart(SnapshotDir(name), SnapshotDir(other)) {
      assert SnapshotDir(name)[1] == name && SnapshotDir(other)[1] == other;
    }
  }

  lemma WriteIsLocal(t: Tree, area: Path, p: Path, text: Text)
    requires Ready(t) && (area == REPO || area == ARTIFACTS)
    ensures var t' := WriteText(t, area + p, text).tree;
      && Ready(t') && SameSnapshots(t, t')
      && forall other, q | other in {REPO, ARTIFACTS} && (area != other || q != p) ::
           FileAt(t', other, q) == FileAt(t, other, q)
  {
    var target := area + p;
    var t' := WriteText(t, target, text).tree;
    assert target[0] == area[0];
    forall other, q | other in {REPO, ARTIFACTS} && (area != other || q != p)
      ensures FileAt(t', other, q) == FileAt(t, other, q)
    {
      assert |other| == 1 && (other + q)[0] == other[0] && (other + q)[1..] == q && (area + p)[1..] == p;
      WriteTextFileAt(t, target, text, other, q);
    }
    forall name | OwnDirectory(name) ensures SameDirectory(t, t', SnapshotDir(name)) {
      assert SnapshotDir(name)[0] == "snapshots";
      forall q ensures FileAt(t', SnapshotDir(name), q) == FileAt(t, SnapshotDir(name), q) {
        assert (SnapshotDir(name) + q)[0] == "snapshots";
      }
    }
  }

  lemma CleanWriteKeepsRepo(t: Tree, p: Path, text: Text)
    requires IsDir(t, REPO) && (p == [] || Encodable(text)) && WriteText(t, REPO + p, text).Raised?
    ensures SameFiles(t, WriteText(t, REPO + p, text).tree, REPO)
  {
    assert REPO + [] == REPO;
  }

  // ----- Snapshots -----

  lemma ParentsOfSnapshot(t: Tree, name: string)
    requires Ready(t) && OwnDirectory(name)
    ensures forall k | k in WithParents(t, SnapshotDir(name)) :: k in t || k == []
    ensures forall k | k in t :: k in WithParents(t, SnapshotDir(name)) && WithParents(t, SnapshotDir(name))[k] == t[k]
  {
    SnapshotDirsApart(name);
    forall k | k in ProperPrefixes(SnapshotDir(name)) ensures k == [] || k == SNAPSHOTS {
      assert |k| < 2;
    }
  }

  /** Clearing the target of a snapshot and creating its parents changes no other directory. */
  lemma ClearingIsLocal(t: Tree, name: string, base: Path)
    requires Ready(t) && OwnDirectory(name)
    requires base != [] && !(SnapshotDir(name) <= base)
    ensures var cleared := WithParents(RemoveTree(t, SnapshotDir(name)), SnapshotDir(name));
      && (forall k | k in cleared :: !(SnapshotDir(name) <= k))
      && IsDir(cleared, base) == IsDir(t, base)
      && (Apart(SnapshotDir(name), base) ==> SameFiles(t, cleared, base))
  {
    var removed := RemoveTree(t, SnapshotDir(name));
    SnapshotDirsApart(name);
    assert !(SnapshotDir(name) <= SNAPSHOTS) && !(SnapshotDir(name) <= REPO);
    ParentsOfSnapshot(removed, name);
    if Apart(SnapshotDir(name), base) {
      forall q ensures FileAt(WithParents(removed, SnapshotDir(name)), base, q) == FileAt(t, base, q) {
        RemoveTreeFileAt(t, SnapshotDir(name), base, q);
        WithParentsFileAt(removed, SnapshotDir(name), base, q);
      }
    }
  }

  lemma CopyIsLocal(t: Tree, source: Path, target: Path, base: Path)
    requires !(target <= base)
    ensures IsDir(CopyTree(t, source, target), base) == IsDir(t, base)
    ensures Apart(target, base) ==> SameFiles(t, CopyTree(t, source, target), base)
  {
    if Apart(target, base) {
      forall q ensures FileAt(CopyTree(t, source, target), base, q) == FileAt(t, base, q) {
        CopyTreeFrame(t, source, target, base, q);
      }
    }
  }

  /** A snapshot under its own name copies the visible repository there and touches nothing else. */
  lemma SnapshotIsLocal(t: Tree, name: string)
    requires Ready(t) && OwnDirectory(name)
    ensures var e := TakeSnapshot(t, name);
      && Ready(e.tree) && SameFiles(t, e.tree, REPO)
      && (forall other | OwnDirectory(other) && other != name :: SameDirectory(t, e.tree, SnapshotDir(other)))
      && (e.Raised? ==> e.tree == t)
      && (e.Done? ==> IsDir(e.tree, SnapshotDir(name)) && VisibleCopy(t, REPO, e.tree, SnapshotDir(name)))
      && (e.Done? <==> SafeSnapshotName(name) && !IsFile(t, SnapshotDir(name)))
  {
    hide RemoveTree, WithParents, CopyTree;
    var target := SnapshotDir(name);
    var e := TakeSnapshot(t, name);
    SnapshotDirsApart(name);
    ClearingIsLocal(t, name, REPO);
    if e.Done? {
      var cleared := WithParents(RemoveTree(t, target), target);
      ClearingIsLocal(t, name, SNAPSHOTS);
      CopyIsLocal(cleared, REPO, target, REPO);
      CopyIsLocal(cleared, REPO, target, SNAPSHOTS);
      CopyTreeIsDir(cleared, REPO, target);
      forall q ensures FileAt(e.tree, target, q) == if Visible(q) then FileAt(t, REPO, q) else None {
        CopyTreeFileAt(cleared, REPO, target, q);
      }
      forall other | OwnDirectory(other) && other != name ensures SameDirectory(t, e.tree, SnapshotDir(other)) {
        SnapshotDirsApart(other);
        ClearingIsLocal(t, name, SnapshotDir(other));
        CopyIsLocal(cleared, REPO, target, SnapshotDir(other));
      }
    }
  }

  lemma RemoveRepoIsLocal(t: Tree, base: Path)
    requires !(REPO <= base)
    ensures IsDir(RemoveTree(t, REPO), base) == IsDir(t, base)
    ensures Apart(REPO, base) ==> SameFiles(t, RemoveTree(t, REPO), base)
  {
    if Apart(REPO, base) {
      forall q ensures FileAt(RemoveTree(t, REPO), base, q) == FileAt(t, base, q) {
        RemoveTreeFileAt(t, REPO, base, q);
      }
    }
  }

  /** A restore rebuilds the repository, from the snapshot when the name has a directory of its own. */
  lemma RestoreIsLocal(t: Tree, name: string)
    requires Ready(t)
    ensures var e := RestoreSnapshot(t, name);
      && Ready(e.tree) && SameSnapshots(t, e.tree)
      && (e.Raised? ==> e.tree == t)
      && (OwnDirectory(name) ==> (e.Done? <==> SafeSnapshotName(name) && IsDir(t, SnapshotDir(name))))
      && (OwnDirectory(name) && e.Done? ==> VisibleCopy(t, SnapshotDir(name), e.tree, REPO))
  {
    var e := RestoreSnapshot(t, name);
    if e.Done? {
      var source := SnapshotDir(name);
      var cleared := RemoveTree(t, REPO);
      assert !(REPO <= SNAPSHOTS) && !(REPO <= source) by {
        assert SNAPSHOTS[0] == "snapshots" && REPO[0] == "repo";
        assert source == [] || source[0] == "snapshots";
      }
      RemoveRepoIsLocal(t, source);
      RemoveRepoIsLocal(t, SNAPSHOTS);
      CopyTreeIsDir(cleared, source, REPO);
      CopyIsLocal(cleared, source, REPO, SNAPSHOTS);
      forall other | OwnDirectory(other) ensures SameDirectory(t, e.tree, SnapshotDir(other)) {
        SnapshotDirsApart(other);
        RemoveRepoIsLocal(t, SnapshotDir(other));
        CopyIsLocal(cleared, source, REPO, SnapshotDir(other));
      }
      if OwnDirectory(name) {
        SnapshotDirsApart(name);
        forall q ensures FileAt(e.tree, REPO, q) == if Visible(q) then FileAt(t, source, q) else None {
          CopyTreeFileAt(cleared, source, REPO, q);
        }
      }
    }
  }

  /** A command that leaves another repository behind changes no snapshot. */
  lemma ReplaceRepoIsLocal(t: Tree, after: Tree)
    requires Ready(t)
    ensures var t' := ReplaceRepo(t, after);
      && Ready(t') && SameSnapshots(t, t')
      && forall q :: FileAt(t', REPO, q) == if q != [] then FileAt(after, [], q) else None
  {
    hide ReplaceRepo;
    var t' := ReplaceRepo(t, after);
    ReplacedRoot(t, after);
    ReplacedElsewhere(t, after, SNAPSHOTS);
    forall q ensures FileAt(t', REPO, q) == if q != [] then FileAt(after, [], q) else None {
      ReplacedFile(t, after, q);
    }
    forall name | OwnDirectory(name) ensures SameDirectory(t, t', SnapshotDir(name)) {
      SnapshotDirsApart(name);
      assert SnapshotDir(name) + [] == SnapshotDir(name);
      ReplacedElsewhere(t, after, SnapshotDir(name));
      forall q ensures FileAt(t', SnapshotDir(name), q) == FileAt(t, SnapshotDir(name), q) {
        ReplacedElsewhere(t, after, SnapshotDir(name) + q);
      }
    }
  }

  lemma MovedPathsOf(after: Tree, q: Path)
    ensures REPO + q in MovedPaths(after) <==> q in after
    ensures forall k | k in MovedPaths(after) :: REPO <= k && k[1..] in after
  {}

  lemma ReplacedFile(t: Tree, after: Tree, q: Path)
    ensures FileAt(ReplaceRepo(t, after), REPO, q) == if q != [] then FileAt(after, [], q) else None
  {
    hide MovedPaths;
    MovedPathsOf(after, q);
    assert [] + q == q && (REPO + q)[1..] == q;
    if q == [] {
      assert REPO + q == REPO;
    } else {
      assert REPO + q != REPO;
    }
  }

  lemma ReplacedRoot(t: Tree, after: Tree)
    ensures IsDir(ReplaceRepo(t, after), REPO)
  {}

  lemma ReplacedElsewhere(t: Tree, after: Tree, k: Path)
    requires k != [] && k[0] == "snapshots"
    ensures k in ReplaceRepo(t, after) <==> k in t
    ensures k in t ==> ReplaceRepo(t, after)[k] == t[k]
  {
    assert REPO[0] == "repo";
  }

  // ----- Tracked actions keep the guard, and only they do -----

  lemma GuardTransfers(setup: Files, st: RunState, st': RunState)
    requires Guarded(setup, st) && Ready(st'.tree) && SameSnapshots(st.tree, st'.tree)
    requires st.writeCounts <= st'.writeCounts && Agrees(setup, st'.tree, REPO, st'.writeCounts)
    ensures Guarded(setup, st')
  {
    forall name | OwnDirectory(name) && IsDir(st'.tree, SnapshotDir(name))
      ensures Agrees(setup, st'.tree, SnapshotDir(name), st'.writeCounts)
    {
      assert SameDirectory(st.tree, st'.tree, SnapshotDir(name));
    }
  }

  lemma WriteKeepsGuard(setup: Files, fx: Fixture, st: RunState, a: Action)
    requires Guarded(setup, st) && !TruncatingWrite(fx, a)
    ensures Guarded(setup, WriteAttempt(fx, st, a).st)
  {
    hide WriteText, NormalizeRelpath, RepoMutationAllowed;
    var st' := WriteAttempt(fx, st, a).st;
    if st'.tree != st.tree || st'.writeCounts != st.writeCounts {
      var p := NormalizeRelpath(a.path.value).value;
      WriteIsLocal(st.tree, REPO, p, a.content);
      if WriteText(st.tree, REPO + p, a.content).Raised? && Visible(p) {
        CleanWriteKeepsRepo(st.tree, p, a.content);
      }
      GuardTransfers(setup, st, st');
    }
  }

  lemma ArtifactKeepsGuard(setup: Files, fx: Fixture, st: RunState, a: Action)
    requires Guarded(setup, st)
    ensures Guarded(setup, ArtifactAttempt(fx, st, a).st)
  {
    hide WriteText, NormalizeRelpath;
    var st' := ArtifactAttempt(fx, st, a).st;
    if st' != st {
      WriteIsLocal(st.tree, ARTIFACTS, NormalizeRelpath(a.path.value).value, a.content);
      GuardTransfers(setup, st, st');
    }
  }

  lemma SnapshotKeepsGuard(setup: Files, st: RunState, a: Action)
    requires Guarded(setup, st) && (OwnDirectory(SnapshotName(a)) || !SafeSnapshotName(SnapshotName(a)))
    ensures Guarded(setup, SnapshotAttempt(st, a).st)
  {
    var name := SnapshotName(a);
    if OwnDirectory(name) {
      SnapshotIsLocal(st.tree, name);
      hide TakeSnapshot;
      var st' := SnapshotAttempt(st, a).st;
      forall other | OwnDirectory(other) && IsDir(st'.tree, SnapshotDir(other))
        ensures Agrees(setup, st'.tree, SnapshotDir(other), st'.writeCounts)
      {
        if other != name {
          assert SameDirectory(st.tree, st'.tree, SnapshotDir(other));
        }
      }
    }
  }

  lemma RestoreKeepsGuard(setup: Files, st: RunState, a: Action)
    requires Guarded(setup, st) && (OwnDirectory(SnapshotName(a)) || !SafeSnapshotName(SnapshotName(a)))
    ensures Guarded(setup, RestoreAttempt(st, a).st)
  {
    var name := SnapshotName(a);
    if OwnDirectory(name) {
      RestoreIsLocal(st.tree, name);
      hide RestoreSnapshot;
      GuardTransfers(setup, st, RestoreAttempt(st, a).st);
    }
  }

  lemma PerformKeepsGuard(setup: Files, fx: Fixture, st: RunState, a: Action)
    requires Guarded(setup, st) && Tracked(fx, a)
    ensures Guarded(setup, Perform(fx, st, a).st)
  {
    hide WriteAttempt, ArtifactAttempt, SnapshotAttempt, RestoreAttempt, TruncatingWrite, SafeSnapshotName, ReplaceRepo;
    if a.tool in fx.allowedTools {
      match a.tool
      case WriteFile => WriteKeepsGuard(setup, fx, st, a);
      case WriteArtifact => ArtifactKeepsGuard(setup, fx, st, a);
      case Snapshot => SnapshotKeepsGuard(setup, st, a);
      case Restore => RestoreKeepsGuard(setup, st, a);
      case _ =>
    }
  }

  lemma TrackedKeepsGuard(setup: Files, fx: Fixture, st: RunState, index: nat, a: Action)
    requires Guarded(setup, st) && Tracked(fx, a)
    ensures Guarded(setup, Execute(fx, st, index, a))
  {
    PerformKeepsGuard(setup, fx, st, a);
    RunTrace.ExecuteAppends(fx, st, index, a);
  }

  /** A repository holding one file, set up as such. */
  const ONE_FILE: Tree := EMPTY_WORKSPACE[["repo", "a"] := File([])]

  lemma EmptyIsGuarded()
    ensures Guarded(map[], Fresh(EMPTY_WORKSPACE))
  {
    var t := EMPTY_WORKSPACE;
    forall k | k in t ensures t[k].Dir? && |k| <= 1 {}
    forall name | OwnDirectory(name) ensures !IsDir(t, SnapshotDir(name)) {
      SnapshotDirsApart(name);
    }
  }

  lemma OneFileIsGuarded()
    ensures Guarded(map[["a"] := []], Fresh(ONE_FILE))
  {
    var t := ONE_FILE;
    forall k | k in t ensures t[k].Dir? || k == REPO + ["a"] {}
    forall p ensures FileAt(t, REPO, p) == Lookup(map[["a"] := []], p) {
      assert (REPO + p)[1..] == p;
      assert REPO + ["a"] == ["repo", "a"];
    }
    forall name | OwnDirectory(name) ensures !IsDir(t, SnapshotDir(name)) {
      SnapshotDirsApart(name);
      assert ["repo", "a"][0] == "repo" && SnapshotDir(name)[0] == "snapshots";
    }
  }

  lemma TruncatingWriteBreaksGuard(fx: Fixture, index: nat, a: Action)
    requires a.tool == WriteFile && WriteFile in fx.allowedTools && TruncatingWrite(fx, a)
    ensures !Guarded(map[], Execute(fx, Fresh(EMPTY_WORKSPACE), index, a))
  {
    var st := Fresh(EMPTY_WORKSPACE);
    var p := NormalizeRelpath(a.path.value).value;
    var target := REPO + p;
    RunTrace.ExecuteAppends(fx, st, index, a);
    assert target !in st.tree by {
      assert |target| > 1;
    }
    assert WriteText(st.tree, target, a.content).tree[target] == File([]);
    var st' := Execute(fx, st, index, a);
    assert FileAt(st'.tree, REPO, p) == Some([]);
    assert Visible(p) && p !in st'.writeCounts;
  }

  lemma CommandBreaksGuard(fx: Fixture, index: nat, a: Action) returns (setup: Files, st: RunState)
    requires a.tool == RunCommand && RunCommand in fx.allowedTools
    requires a.run.repoAfter.Some? && ValidCommand(a.argv)
    ensures Guarded(setup, st) && !Guarded(setup, Execute(fx, st, index, a))
  {
    hide Execute, ReplaceRepo, ValidCommand;
    var after := a.run.repoAfter.value;
    if p :| p != [] && Visible(p) && FileAt(after, [], p).Some? {
      setup, st := map[], Fresh(EMPTY_WORKSPACE);
      EmptyIsGuarded();
      CommandLeaves(fx, st, index, a, p);
      assert Lookup(setup, p) == None;
    } else {
      setup, st := map[["a"] := []], Fresh(ONE_FILE);
      OneFileIsGuarded();
      CommandLeaves(fx, st, index, a, ["a"]);
      assert Visible(["a"]) && FileAt(after, [], ["a"]) == None;
      assert Lookup(setup, ["a"]) == Some([]);
    }
  }

  lemma CommandLeaves(fx: Fixture, st: RunState, index: nat, a: Action, p: Path)
    requires Ready(st.tree) && p != []
    requires a.tool == RunCommand && RunCommand in fx.allowedTools
    requires a.run.repoAfter.Some? && ValidCommand(a.argv)
    ensures var st' := Execute(fx, st, index, a);
      FileAt(st'.tree, REPO, p) == FileAt(a.run.repoAfter.value, [], p) && st'.writeCounts == st.writeCounts
  {
    CommandActs(fx, st, a);
    RunTrace.ExecuteAppends(fx, st, index, a);
    ReplaceRepoIsLocal(st.tree, a.run.repoAfter.value);
    hide Perform, Execute, ReplaceRepo;
  }

  lemma CommandActs(fx: Fixture, st: RunState, a: Action)
    requires a.tool == RunCommand && RunCommand in fx.allowedTools && IsDir(st.tree, REPO)
    requires a.run.repoAfter.Some? && ValidCommand(a.argv)
    ensures var st' := Perform(fx, st, a).st;
      st'.tree == ReplaceRepo(st.tree, a.run.repoAfter.value) && st'.writeCounts == st.writeCounts
  {
    hide ReplaceRepo, ValidCommand, GateOr, IsDir;
  }

  lemma SnapshotNameBreaksGuard(fx: Fixture, index: nat, a: Action) returns (setup: Files, st: RunState)
    requires a.tool == Snapshot && Snapshot in fx.allowedTools
    requires !OwnDirectory(SnapshotName(a))
    ensures Guarded(setup, st) && !Guarded(setup, Execute(fx, st, index, a))
  {
    hide Execute, Guarded;
    if SnapshotName(a) == ".." {
      setup, st := map[], Fresh(EMPTY_WORKSPACE);
      EmptyIsGuarded();
      ParentSnapshotBreaksGuard(fx, st, index, a);
    } else {
      setup, st := DotSnapshotBreaksGuard(fx, index, a);
    }
  }

  /** The snapshot ".." empties the whole temporary directory. */
  lemma ParentSnapshotBreaksGuard(fx: Fixture, st: RunState, index: nat, a: Action)
    requires a.tool == Snapshot && Snapshot in fx.allowedTools && SnapshotName(a) == ".." && IsDir(st.tree, SNAPSHOTS)
    ensures forall setup :: !Guarded(setup, Execute(fx, st, index, a))
  {
    assert TakeSnapshot(st.tree, "..").tree == map[[] := Dir];
    hide TakeSnapshot;
    SnapshotActionTree(fx, st, index, a);
    hide Execute;
    assert REPO != [];
  }

  /** The snapshot "." turns the directories of the repository into snapshots. */
  lemma DotSnapshotListsRepo(t: Tree, d: string, q: Path)
    requires Ready(t) && OwnDirectory(d) && Visible([d] + q) && IsDir(t, REPO + [d])
    ensures var t' := TakeSnapshot(t, ".").tree;
      IsDir(t', SnapshotDir(d)) && FileAt(t', SnapshotDir(d), q) == FileAt(t, REPO, [d] + q)
  {
    hide WithParents, RemoveTree, CopyTree;
    var cleared := WithParents(RemoveTree(t, SNAPSHOTS), SNAPSHOTS);
    assert TakeSnapshot(t, ".").tree == CopyTree(cleared, REPO, SNAPSHOTS);
    ClearedSnapshots(t, REPO + [d]);
    ClearedSnapshots(t, REPO + ([d] + q));
    CopyTreeFileAt(cleared, REPO, SNAPSHOTS, [d] + q);
    assert SNAPSHOTS + ([d] + q) == SnapshotDir(d) + q;
    assert d in [d] + q;
    CopiedDirectory(cleared, REPO, SNAPSHOTS, [d]);
  }

  lemma ClearedSnapshots(t: Tree, k: Path)
    requires Ready(t) && k != [] && k[0] == "repo"
    ensures var cleared := WithParents(RemoveTree(t, SNAPSHOTS), SNAPSHOTS);
      && (k in cleared <==> k in t) && (k in t ==> cleared[k] == t[k])
      && forall j | j in cleared :: !(SNAPSHOTS <= j)
  {
    assert SNAPSHOTS[0] == "snapshots";
    assert k !in ProperPrefixes(SNAPSHOTS);
  }

  lemma CopiedDirectory(t: Tree, source: Path, target: Path, d: Path)
    requires IsDir(t, source + d) && Visible(d)
    ensures IsDir(CopyTree(t, source, target), target + d)
  {
    assert target + d in CopiedPaths(t, source, target);
    assert (target + d)[|target|..] == d;
  }

  lemma SnapshotActionTree(fx: Fixture, st: RunState, index: nat, a: Action)
    requires a.tool == Snapshot && Snapshot in fx.allowedTools
    ensures var st' := Execute(fx, st, index, a);
      st'.tree == TakeSnapshot(st.tree, SnapshotName(a)).tree && st'.writeCounts == st.writeCounts
  {
    RunTrace.ExecuteAppends(fx, st, index, a);
    hide Execute, TakeSnapshot, SnapshotName;
  }

  lemma DotSnapshotBreaksGuard(fx: Fixture, index: nat, a: Action) returns (setup: Files, st: RunState)
    requires a.tool == Snapshot && Snapshot in fx.allowedTools && SnapshotName(a) == "."
    ensures Guarded(setup, st) && !Guarded(setup, Execute(fx, st, index, a))
  {
    hide Execute, TakeSnapshot, FileAt, Guarded, ONE_DIRECTORY, SnapshotName, SnapshotDir, IsDir;
    setup, st := map[["d", "f"] := []], Fresh(ONE_DIRECTORY);
    OneDirectoryIsGuarded();
    SnapshotActionTree(fx, st, index, a);
    GuardedIsReady(setup, st);
    DotSnapshotListsRepo(st.tree, "d", ["f"]);
    ExtraFileBreaksGuard(setup, Execute(fx, st, index, a), "d", ["f"]);
  }

  lemma GuardedIsReady(setup: Files, st: RunState)
    requires Guarded(setup, st)
    ensures Ready(st.tree)
  {}

  lemma ExtraFileBreaksGuard(setup: Files, st: RunState, name: string, p: Path)
    requires OwnDirectory(name) && IsDir(st.tree, SnapshotDir(name)) && FileAt(st.tree, SnapshotDir(name), p).Some?
    requires Visible(p) && p !in setup && p !in st.writeCounts
    ensures !Guarded(setup, st)
  {
    hide FileAt;
    assert Lookup(setup, p) == None;
  }

  /** A repository holding one directory with one file. */
  const ONE_DIRECTORY: Tree := EMPTY_WORKSPACE[["repo", "d"] := Dir][["repo", "d", "f"] := File([])]

  lemma OneDirectoryIsGuarded()
    ensures Guarded(map[["d", "f"] := []], Fresh(ONE_DIRECTORY))
    ensures IsDir(ONE_DIRECTORY, REPO + ["d"]) && FileAt(ONE_DIRECTORY, REPO, ["d"] + ["f"]) == Some([])
    ensures OwnDirectory("d") && Visible(["d"] + ["f"])
  {
    var t := ONE_DIRECTORY;
    assert ["d"] + ["f"] == ["d", "f"] && REPO + ["d"] == ["repo", "d"];
    forall p ensures FileAt(t, REPO, p) == Lookup(map[["d", "f"] := []], p) {
      assert (REPO + p)[1..] == p;
      assert REPO + ["d", "f"] == ["repo", "d", "f"];
    }
    forall name | OwnDirectory(name) ensures !IsDir(t, SnapshotDir(name)) {
      SnapshotDirsApart(name);
      assert ["repo", "d"][0] == "repo" && SnapshotDir(name)[0] == "snapshots";
    }
  }

  /** Restoring "." or ".." leaves no set-up file of the repository at its place. */
  lemma RestoreOfParentLosesFile(name: string)
    requires !OwnDirectory(name)
    ensures FileAt(RestoreSnapshot(ONE_FILE, name).tree, REPO, ["a"]) == None
  {
    hide CopyTree;
    var t := ONE_FILE;
    var source := SnapshotDir(name);
    var cleared := RemoveTree(t, REPO);
    assert SafeSnapshotName(name);
    assert RestoreSnapshot(t, name).tree == CopyTree(cleared, source, REPO);
    CopyTreeFileAt(cleared, source, REPO, ["a"]);
    forall k | k in cleared ensures cleared[k].Dir? {
      assert REPO <= ["repo", "a"];
    }
  }

  lemma RestoreNameBreaksGuard(fx: Fixture, index: nat, a: Action)
    requires a.tool == Restore && Restore in fx.allowedTools
    requires !OwnDirectory(SnapshotName(a))
    ensures !Guarded(map[["a"] := []], Execute(fx, Fresh(ONE_FILE), index, a))
  {
    hide Execute, RestoreSnapshot;
    var st := Fresh(ONE_FILE);
    RunTrace.ExecuteAppends(fx, st, index, a);
    RestoreOfParentLosesFile(SnapshotName(a));
    hide OwnDirectory, SnapshotName;
    var st' := Execute(fx, st, index, a);
    assert FileAt(st'.tree, REPO, ["a"]) == None && ["a"] !in st'.writeCounts;
    assert Visible(["a"]) && Lookup(map[["a"] := []], ["a"]) == Some([]);
  }

  ghost predicate AlwaysKeepsGuard(fx: Fixture, index: nat, a: Action) {
    forall setup: Files, st: RunState | Guarded(setup, st) :: Guarded(setup, Execute(fx, st, index, a))
  }

  /**
   Exactly the tracked actions keep uncounted paths as they were set up, in the repository and in
   every stored snapshot, from every state in which that holds.
   */
  lemma TrackedExactly(fx: Fixture, index: nat, a: Action)
    ensures AlwaysKeepsGuard(fx, index, a) <==> Tracked(fx, a)
  {
    hide Execute;
    if Tracked(fx, a) {
      forall setup: Files, st: RunState | Guarded(setup, st) ensures Guarded(setup, Execute(fx, st, index, a)) {
        TrackedKeepsGuard(setup, fx, st, index, a);
      }
    } else {
      match a.tool
      case WriteFile =>
        EmptyIsGuarded();
        TruncatingWriteBreaksGuard(fx, index, a);
      case Snapshot =>
        var setup, st := SnapshotNameBreaksGuard(fx, index, a);
      case Restore =>
        OneFileIsGuarded();
        RestoreNameBreaksGuard(fx, index, a);
      case RunCommand =>
        var setup, st := CommandBreaksGuard(fx, index, a);
    }
  }
}
