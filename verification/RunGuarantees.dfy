/** Whole runs: what a verdict guarantees about files, and what a restore gives back. */
module RunGuarantees {
  import opened Wrappers
  import opened Workspace
  import opened Runner
  import opened RunSafety
  import RunTrace
  import Strings

  // ----- From set-up to verdict -----

  lemma {:induction false} SetupIsReady(files: seq<(string, Text)>, n: nat)
    requires n <= |files| && SetupTree(files, n).Some?
    ensures var t := SetupTree(files, n).value;
      Ready(t) && forall name | OwnDirectory(name) :: !IsDir(t, SnapshotDir(name))
  {
    hide WriteText, NormalizeRelpath;
    if n == 0 {
      EmptyIsGuarded();
      forall name | OwnDirectory(name) ensures !IsDir(EMPTY_WORKSPACE, SnapshotDir(name)) {
        SnapshotDirsApart(name);
        forall k | k in EMPTY_WORKSPACE ensures |k| <= 1 {}
      }
    } else {
      SetupIsReady(files, n - 1);
      var before := SetupTree(files, n - 1).value;
      var p := NormalizeRelpath(files[n - 1].0).value;
      WriteIsLocal(before, REPO, p, files[n - 1].1);
      var t := SetupTree(files, n).value;
      assert t == WriteText(before, REPO + p, files[n - 1].1).tree;
      forall name | OwnDirectory(name) ensures !IsDir(t, SnapshotDir(name)) {
        assert SameDirectory(before, t, SnapshotDir(name));
      }
    }
  }

  lemma SetupIsGuarded(fx: Fixture, start: Tree)
    requires SetupTree(fx.setupFiles, |fx.setupFiles|) == Some(start)
    ensures Guarded(VisibleFiles(start, REPO), Fresh(start))
  {
    SetupIsReady(fx.setupFiles, |fx.setupFiles|);
  }

  lemma {:induction false} RunKeepsGuard(setup: Files, fx: Fixture, start: RunState, n: nat)
    requires n <= |fx.actions| && Guarded(setup, start)
    requires forall i | 0 <= i < n :: Tracked(fx, fx.actions[i])
    ensures Guarded(setup, After(fx, start, n))
  {
    hide Execute, Tracked;
    if n > 0 {
      RunKeepsGuard(setup, fx, start, n - 1);
      TrackedKeepsGuard(setup, fx, After(fx, start, n - 1), n - 1, fx.actions[n - 1]);
    }
  }

  /** A command that leaves the repository alone, or is refused. */
  predicate ReadOnly(a: Action) {
    a.run.repoAfter.None? || !ValidCommand(a.argv)
  }

  lemma {:induction false} VerificationKeepsTree(fx: Fixture, st: RunState, n: nat)
    requires n <= |fx.commands| && Verified(fx, st, n).Some?
    requires forall i | 0 <= i < n :: ReadOnly(fx.commands[i])
    ensures Verified(fx, st, n).value.0.tree == st.tree
  {
    hide ReplaceRepo, ValidCommand;
    if n > 0 {
      VerificationKeepsTree(fx, st, n - 1);
    }
  }

  ghost predicate TrackedFixture(fx: Fixture) {
    && (forall i | 0 <= i < |fx.actions| :: Tracked(fx, fx.actions[i]))
    && (forall i | 0 <= i < |fx.commands| :: ReadOnly(fx.commands[i]))
  }

  /** The end of a run of tracked actions still agrees with the set-up files wherever nothing was counted. */
  lemma FinishIsGuarded(fx: Fixture)
    requires TrackedFixture(fx) && Finish(fx).Some?
    ensures Guarded(Finish(fx).value.initial, Finish(fx).value.st)
  {
    hide After, VisibleFiles, SetupTree, RunDeclaredCommand;
    var start := SetupTree(fx.setupFiles, |fx.setupFiles|).value;
    var acted := After(fx, Fresh(start), |fx.actions|);
    SetupIsGuarded(fx, start);
    RunKeepsGuard(VisibleFiles(start, REPO), fx, Fresh(start), |fx.actions|);
    VerificationKeepsTree(fx, acted, |fx.commands|);
    RunTrace.FinishTrace(fx, start);
    var end := Finish(fx).value;
    assert end.st.tree == acted.tree && end.st.writeCounts == acted.writeCounts;
    assert end.initial == VisibleFiles(start, REPO);
    GuardReadsOnlyFiles(end.initial, acted, end.st);
  }

  lemma GuardReadsOnlyFiles(setup: Files, st: RunState, st': RunState)
    requires st'.tree == st.tree && st'.writeCounts == st.writeCounts && Guarded(setup, st)
    ensures Guarded(setup, st')
  {}

  /**
   When `forbidden_path_mutation` passes, every visible path that matches a forbidden pattern ends
   with its set-up content, or absent if it was absent, through any mix of tracked actions.
   */
  lemma ForbiddenPathsUntouched(fx: Fixture, k: nat, p: Path, j: nat)
    requires TrackedFixture(fx) && RunReport(fx).Some?
    requires k < |fx.invariants| && fx.invariants[k].ForbiddenPathMutation?
    requires RunReport(fx).value.findings[k].status == StatusPassed
    requires Visible(p) && j < |fx.invariants[k].paths| && fx.invariants[k].paths[j](p)
    ensures FileAt(Finish(fx).value.st.tree, REPO, p) == Lookup(Finish(fx).value.initial, p)
  {
    hide Finish, ArtifactPassed, Findings;
    FinishIsGuarded(fx);
    var end := Finish(fx).value;
    FindingStatus(fx, k);
    hide RunReport, Guarded;
    assert ForbiddenPathMutationStatus(end.st.writeCounts, fx.invariants[k].paths) == StatusPassed;
    assert MatchesAny(p, fx.invariants[k].paths);
    assert p !in end.st.writeCounts;
    GuardAt(end.initial, end.st, p);
  }

  lemma GuardAt(setup: Files, st: RunState, p: Path)
    requires Guarded(setup, st) && Visible(p) && p !in st.writeCounts
    ensures FileAt(st.tree, REPO, p) == Lookup(setup, p)
  {}

  lemma FindingStatus(fx: Fixture, k: nat)
    requires RunReport(fx).Some? && k < |fx.invariants|
    ensures |RunReport(fx).value.findings| == |fx.invariants|
    ensures var end := Finish(fx).value;
      RunReport(fx).value.findings[k].status == StatusOf(fx, end.st, end.initial, fx.invariants[k])
  {
    hide Finish, ArtifactPassed, StatusOf;
  }

  lemma GuardedWithoutWrites(initial: Files, st: RunState)
    requires Guarded(initial, st) && st.writeCounts == multiset{} && forall p | p in initial :: Visible(p)
    ensures VisibleFiles(st.tree, REPO) == initial
  {
    var final := VisibleFiles(st.tree, REPO);
    assert Agrees(initial, st.tree, REPO, st.writeCounts);
    hide Guarded;
    assert forall p | p in final :: Visible(p) && Some(final[p]) == Lookup(initial, p);
    assert forall p | p in initial :: FileAt(st.tree, REPO, p) == Lookup(initial, p);
    assert final.Keys == initial.Keys;
  }

  lemma UnchangedPasses(fx: Fixture, st: RunState)
    ensures StatusOf(fx, st, VisibleFiles(st.tree, REPO), NoRepoMutation) == StatusPassed
  {}

  /** A tracked run that counted no write leaves the visible repository unchanged, so `no_repo_mutation` passes. */
  lemma UncountedRunChangesNothing(fx: Fixture)
    requires TrackedFixture(fx) && Finish(fx).Some? && Finish(fx).value.st.writeCounts == multiset{}
    ensures VisibleFiles(Finish(fx).value.st.tree, REPO) == Finish(fx).value.initial
    ensures StatusOf(fx, Finish(fx).value.st, Finish(fx).value.initial, NoRepoMutation) == StatusPassed
  {
    FinishIsGuarded(fx);
    InitialIsVisible(fx);
    hide Finish, Guarded, VisibleFiles, StatusOf;
    UnchangedPasses(fx, Finish(fx).value.st);
    GuardedWithoutWrites(Finish(fx).value.initial, Finish(fx).value.st);
  }

  lemma InitialIsVisible(fx: Fixture)
    requires Finish(fx).Some?
    ensures forall p | p in Finish(fx).value.initial :: Visible(p)
  {
    hide After, SetupTree, Verified;
  }

  // ----- Snapshots survive, and a restore gives them back -----

  /** The actions that leave the stored snapshot `name` in place. */
  predicate KeepsSnapshot(fx: Fixture, a: Action, name: string) {
    a.tool == Snapshot && Snapshot in fx.allowedTools && SafeSnapshotName(SnapshotName(a))
    ==> OwnDirectory(SnapshotName(a)) && SnapshotName(a) != name
  }

  ghost predicate Stored(t: Tree, name: string) {
    Ready(t) && IsDir(t, SnapshotDir(name))
  }

  lemma PerformKeepsSnapshot(fx: Fixture, st: RunState, a: Action, name: string)
    requires Stored(st.tree, name) && OwnDirectory(name) && KeepsSnapshot(fx, a, name)
    ensures var t' := Perform(fx, st, a).st.tree;
      Stored(t', name) && SameDirectory(st.tree, t', SnapshotDir(name))
  {
    hide NormalizeRelpath, RepoMutationAllowed, SafeSnapshotName, ReplaceRepo, ValidCommand, WriteText, RestoreSnapshot,
      GateOr, Encodable;
    if a.tool in fx.allowedTools {
      match a.tool
      case WriteFile =>
        if a.path.Some? && NormalizeRelpath(a.path.value).Some? {
          WriteIsLocal(st.tree, REPO, NormalizeRelpath(a.path.value).value, a.content);
        }
      case WriteArtifact =>
        if a.path.Some? && NormalizeRelpath(a.path.value).Some? {
          WriteIsLocal(st.tree, ARTIFACTS, NormalizeRelpath(a.path.value).value, a.content);
        }
      case Snapshot =>
        if SafeSnapshotName(SnapshotName(a)) {
          SnapshotIsLocal(st.tree, SnapshotName(a));
        }
      case Restore =>
        RestoreIsLocal(st.tree, SnapshotName(a));
      case RunCommand =>
        if a.run.repoAfter.Some? {
          ReplaceRepoIsLocal(st.tree, a.run.repoAfter.value);
        }
      case _ =>
    }
  }

  lemma {:induction false} SnapshotSurvives(fx: Fixture, start: RunState, name: string, i: nat, j: nat)
    requires i <= j <= |fx.actions| && OwnDirectory(name)
    requires Stored(After(fx, start, i).tree, name)
    requires forall k | i <= k < j :: KeepsSnapshot(fx, fx.actions[k], name)
    ensures Stored(After(fx, start, j).tree, name)
    ensures SameFiles(After(fx, start, i).tree, After(fx, start, j).tree, SnapshotDir(name))
  {
    hide Execute, Perform, KeepsSnapshot, Stored, FileAt, SnapshotDir, IsDir;
    if i < j {
      SnapshotSurvives(fx, start, name, i, j - 1);
      var before := After(fx, start, j - 1);
      RunTrace.ExecuteAppends(fx, before, j - 1, fx.actions[j - 1]);
      PerformKeepsSnapshot(fx, before, fx.actions[j - 1], name);
    }
  }

  /** Under a name of its own a snapshot that succeeds stores the visible repository, in whatever state it is taken. */
  lemma TakenIsStored(t: Tree, name: string)
    requires OwnDirectory(name) && TakeSnapshot(t, name).Done?
    ensures var t' := TakeSnapshot(t, name).tree; Stored(t', name) && VisibleCopy(t, REPO, t', SnapshotDir(name))
  {
    var target := SnapshotDir(name);
    var removed := RemoveTree(t, target);
    var cleared := WithParents(removed, target);
    SnapshotDirsApart(name);
    assert TakeSnapshot(t, name).tree == CopyTree(cleared, REPO, target);
    ClearedForSnapshot(t, name);
    hide TakeSnapshot, CopyTree, WithParents, RemoveTree;
    CopyTreeIsDir(cleared, REPO, target);
    CopyIsLocal(cleared, REPO, target, REPO);
    CopyIsLocal(cleared, REPO, target, SNAPSHOTS);
    var t' := CopyTree(cleared, REPO, target);
    forall q ensures FileAt(t', target, q) == if Visible(q) then FileAt(t, REPO, q) else None {
      CopyTreeFileAt(cleared, REPO, target, q);
      RemoveTreeFileAt(t, target, REPO, q);
      WithParentsFileAt(removed, target, REPO, q);
    }
  }

  lemma ClearedForSnapshot(t: Tree, name: string)
    requires OwnDirectory(name) && IsDir(t, REPO) && !IsFile(t, SNAPSHOTS)
    ensures var cleared := WithParents(RemoveTree(t, SnapshotDir(name)), SnapshotDir(name));
      && IsDir(cleared, REPO) && IsDir(cleared, SNAPSHOTS) && forall k | k in cleared :: !(SnapshotDir(name) <= k)
  {
    var target := SnapshotDir(name);
    SnapshotDirsApart(name);
    assert target[..1] == SNAPSHOTS;
    assert forall k | k in ProperPrefixes(target) :: |k| < 2;
    assert !(target <= SNAPSHOTS) && !(target <= REPO);
    assert REPO !in ProperPrefixes(target) by {
      assert REPO[0] == "repo" && target[0] == "snapshots";
    }
  }

  lemma SnapshotActionStores(fx: Fixture, st: RunState, index: nat, a: Action)
    requires a.tool == Snapshot && OwnDirectory(SnapshotName(a)) && Succeeded(Perform(fx, st, a))
    ensures var t' := Execute(fx, st, index, a).tree;
      Stored(t', SnapshotName(a)) && VisibleCopy(st.tree, REPO, t', SnapshotDir(SnapshotName(a)))
  {
    RunTrace.ExecuteAppends(fx, st, index, a);
    hide Execute, TakeSnapshot, Stored, VisibleCopy;
    TakenIsStored(st.tree, SnapshotName(a));
  }

  predicate Succeeded(attempt: Attempt) {
    RunTrace.Succeeded(attempt.ending)
  }

  lemma RestoreActionCopies(fx: Fixture, st: RunState, index: nat, a: Action)
    requires a.tool == Restore && Restore in fx.allowedTools
    requires OwnDirectory(SnapshotName(a)) && SafeSnapshotName(SnapshotName(a)) && Stored(st.tree, SnapshotName(a))
    ensures Succeeded(Perform(fx, st, a))
    ensures VisibleCopy(st.tree, SnapshotDir(SnapshotName(a)), Execute(fx, st, index, a).tree, REPO)
  {
    RunTrace.ExecuteAppends(fx, st, index, a);
    RestoreIsLocal(st.tree, SnapshotName(a));
    hide Execute, RestoreSnapshot;
  }

  /**
   From any state, restoring a name gives back exactly the visible repository at its latest successful
   snapshot, whatever writes, commands, restores and other snapshots ran in between.
   */
  lemma RestoreRecoversSnapshot(fx: Fixture, start: RunState, i: nat, j: nat)
    requires i < j < |fx.actions|
    requires var name := SnapshotName(fx.actions[i]);
      && OwnDirectory(name) && SnapshotName(fx.actions[j]) == name
      && fx.actions[i].tool == Snapshot && fx.actions[j].tool == Restore && Restore in fx.allowedTools
      && Succeeded(Perform(fx, After(fx, start, i), fx.actions[i]))
      && forall k | i < k < j :: KeepsSnapshot(fx, fx.actions[k], name)
    ensures Succeeded(Perform(fx, After(fx, start, j), fx.actions[j]))
    ensures VisibleCopy(After(fx, start, i).tree, REPO, After(fx, start, j + 1).tree, REPO)
    ensures VisibleFiles(After(fx, start, j + 1).tree, REPO) == VisibleFiles(After(fx, start, i).tree, REPO)
  {
    hide Execute, Perform, SafeSnapshotName, KeepsSnapshot, After, Stored, VisibleCopy, SameFiles, VisibleFiles;
    var name := SnapshotName(fx.actions[i]);
    var taken, before := After(fx, start, i), After(fx, start, j);
    SuccessfulNameIsSafe(fx, taken, fx.actions[i]);
    SnapshotActionStores(fx, taken, i, fx.actions[i]);
    AfterNext(fx, start, i);
    SnapshotSurvives(fx, start, name, i + 1, j);
    RestoreActionCopies(fx, before, j, fx.actions[j]);
    AfterNext(fx, start, j);
    CopyOfCopy(taken.tree, After(fx, start, i + 1).tree, before.tree, After(fx, start, j + 1).tree, SnapshotDir(name));
  }

  lemma SuccessfulNameIsSafe(fx: Fixture, st: RunState, a: Action)
    requires a.tool == Snapshot && Succeeded(Perform(fx, st, a))
    ensures SafeSnapshotName(SnapshotName(a))
  {}

  lemma CopyOfCopy(taken: Tree, stored: Tree, before: Tree, restored: Tree, dir: Path)
    requires VisibleCopy(taken, REPO, stored, dir) && SameFiles(stored, before, dir)
    requires VisibleCopy(before, dir, restored, REPO)
    ensures VisibleCopy(taken, REPO, restored, REPO)
    ensures VisibleFiles(restored, REPO) == VisibleFiles(taken, REPO)
  {
    forall p ensures FileAt(restored, REPO, p) == if Visible(p) then FileAt(taken, REPO, p) else None {
      assert FileAt(before, dir, p) == FileAt(stored, dir, p);
    }
    var a, b := VisibleFiles(restored, REPO), VisibleFiles(taken, REPO);
    assert a.Keys == b.Keys;
  }

  // ----- Exactly the right actions -----

  ghost predicate AlwaysKeepsSnapshot(fx: Fixture, index: nat, a: Action, name: string) {
    forall st: RunState | Stored(st.tree, name) ::
      var t' := Execute(fx, st, index, a).tree;
      Stored(t', name) && SameDirectory(st.tree, t', SnapshotDir(name))
  }

  /** A repository with one file and a stored empty snapshot. */
  function OneFileAndSnapshot(name: string): Tree {
    ONE_FILE[SnapshotDir(name) := Dir]
  }

  lemma SnapshotOverwrites(fx: Fixture, index: nat, a: Action, name: string)
    requires OwnDirectory(name) && !KeepsSnapshot(fx, a, name)
    ensures !AlwaysKeepsSnapshot(fx, index, a, name)
  {
    hide Execute, TakeSnapshot, Stored, SafeSnapshotName, ONE_FILE;
    var st := Fresh(OneFileAndSnapshot(name));
    RunTrace.ExecuteAppends(fx, st, index, a);
    assert Execute(fx, st, index, a).tree == TakeSnapshot(st.tree, SnapshotName(a)).tree;
    hide Perform;
    OneFileIsStored(name);
    TakingOverwrites(st.tree, SnapshotName(a), name);
  }

  lemma TakingOverwrites(t: Tree, taken: string, name: string)
    requires t == OneFileAndSnapshot(name) && OwnDirectory(name) && SafeSnapshotName(taken)
    requires taken == name || !OwnDirectory(taken)
    ensures var t' := TakeSnapshot(t, taken).tree;
      !(Stored(t', name) && SameDirectory(t, t', SnapshotDir(name)))
  {
    hide TakeSnapshot;
    OneFileIsStored(name);
    if taken == name {
      SnapshotIsLocal(t, name);
      assert Visible(["a"]);
    } else if taken == "." {
      DotSnapshotDropsSnapshots(t, name);
    } else {
      DotDotSnapshotDropsAll(t);
    }
  }

  lemma OneFileIsStored(name: string)
    requires OwnDirectory(name)
    ensures var t := OneFileAndSnapshot(name);
      && Stored(t, name) && !IsDir(t, REPO + [name])
      && FileAt(t, REPO, ["a"]) == Some([]) && FileAt(t, SnapshotDir(name), ["a"]) == None
  {
    SnapshotDirsApart(name);
    assert REPO + ["a"] == ["repo", "a"];
    assert (SnapshotDir(name) + ["a"])[0] == "snapshots" && (REPO + [name])[0] == "repo";
    assert |SnapshotDir(name) + ["a"]| == 3 && |REPO + [name]| == 2;
  }

  /** The snapshot "." discards every stored snapshot the repository has no directory for. */
  lemma DotSnapshotDropsSnapshots(t: Tree, name: string)
    requires Ready(t) && OwnDirectory(name) && !IsDir(t, REPO + [name])
    ensures !IsDir(TakeSnapshot(t, ".").tree, SnapshotDir(name))
  {
    assert SafeSnapshotName(".");
    var cleared := WithParents(RemoveTree(t, SNAPSHOTS), SNAPSHOTS);
    assert SnapshotDir(name)[..1] == SNAPSHOTS;
    assert SnapshotDir(name) !in cleared;
    assert SnapshotDir(name)[1..] == [name];
    assert REPO + [name] !in ProperPrefixes(SNAPSHOTS);
    assert !IsDir(cleared, REPO + [name]);
  }

  lemma DotDotSnapshotDropsAll(t: Tree)
    requires Ready(t)
    ensures !Ready(TakeSnapshot(t, "..").tree)
  {
    assert SafeSnapshotName("..");
  }

  /** Exactly the actions of `KeepsSnapshot` leave the stored snapshot as it is in every state. */
  lemma KeepsSnapshotExactly(fx: Fixture, index: nat, a: Action, name: string)
    requires OwnDirectory(name)
    ensures AlwaysKeepsSnapshot(fx, index, a, name) <==> KeepsSnapshot(fx, a, name)
  {
    if KeepsSnapshot(fx, a, name) {
      forall st: RunState | Stored(st.tree, name)
        ensures var t' := Execute(fx, st, index, a).tree;
          Stored(t', name) && SameDirectory(st.tree, t', SnapshotDir(name))
      {
        RunTrace.ExecuteAppends(fx, st, index, a);
        PerformKeepsSnapshot(fx, st, a, name);
        hide Execute, Perform;
      }
    } else {
      SnapshotOverwrites(fx, index, a, name);
    }
  }

  // ----- What `snapshot_before_mutation` guarantees -----

  lemma {:induction false} EventsAreKept(fx: Fixture, start: Tree, m: nat, n: nat)
    requires m <= n <= |fx.actions|
    ensures |After(fx, Fresh(start), m).toolEvents| == m
    ensures |After(fx, Fresh(start), n).toolEvents| == n
    ensures After(fx, Fresh(start), n).toolEvents[..m] == After(fx, Fresh(start), m).toolEvents
  {
    hide Execute, Perform;
    RunTrace.OneEventPerAction(fx, start, m);
    RunTrace.OneEventPerAction(fx, start, n);
    if m < n {
      EventsAreKept(fx, start, m, n - 1);
      RunTrace.ExecuteAppends(fx, After(fx, Fresh(start), n - 1), n - 1, fx.actions[n - 1]);
    }
  }

  /** The recorded status of an action is how it ended. */
  lemma {:induction false} EventTellsEnding(fx: Fixture, start: Tree, s: nat, n: nat)
    requires s < n <= |fx.actions|
    ensures |After(fx, Fresh(start), n).toolEvents| == n
    ensures After(fx, Fresh(start), n).toolEvents[s].tool == fx.actions[s].tool
    ensures After(fx, Fresh(start), n).toolEvents[s].passed
      <==> Succeeded(Perform(fx, After(fx, Fresh(start), s), fx.actions[s]))
  {
    hide Execute, Perform;
    EventsAreKept(fx, start, s + 1, n);
    EventsAreKept(fx, start, s, s);
    RunTrace.ExecuteAppends(fx, After(fx, Fresh(start), s), s, fx.actions[s]);
    var events := After(fx, Fresh(start), n).toolEvents;
    assert events[..s + 1][s] == events[s];
  }

  lemma {:induction false} NoWriteNoCount(fx: Fixture, start: Tree, n: nat)
    requires n <= |fx.actions|
    requires forall i | 0 <= i < n :: fx.actions[i].tool != WriteFile
    ensures After(fx, Fresh(start), n).writeCounts == multiset{}
  {
    hide Execute, Perform;
    if n > 0 {
      NoWriteNoCount(fx, start, n - 1);
      var before := After(fx, Fresh(start), n - 1);
      RunTrace.ExecuteAppends(fx, before, n - 1, fx.actions[n - 1]);
      RunTrace.PerformCounts(fx, before, fx.actions[n - 1]);
    }
  }

  lemma TrackedKeepsStored(fx: Fixture, st: RunState, index: nat, a: Action, name: string)
    requires Stored(st.tree, name) && OwnDirectory(name) && Tracked(fx, a)
    ensures Stored(Execute(fx, st, index, a).tree, name)
  {
    RunTrace.ExecuteAppends(fx, st, index, a);
    hide Execute, SafeSnapshotName, TruncatingWrite, ValidCommand;
    if KeepsSnapshot(fx, a, name) {
      PerformKeepsSnapshot(fx, st, a, name);
      hide Perform;
    } else {
      SnapshotIsLocal(st.tree, name);
      hide TakeSnapshot;
    }
  }

  lemma {:induction false} StoredStays(fx: Fixture, start: RunState, name: string, i: nat, j: nat)
    requires i <= j <= |fx.actions| && OwnDirectory(name) && Stored(After(fx, start, i).tree, name)
    requires forall k | i <= k < j :: Tracked(fx, fx.actions[k])
    ensures Stored(After(fx, start, j).tree, name)
  {
    hide Execute, Tracked, Stored;
    if i < j {
      StoredStays(fx, start, name, i, j - 1);
      TrackedKeepsStored(fx, After(fx, start, j - 1), j - 1, fx.actions[j - 1], name);
    }
  }

  /** Some snapshot was taken before the first write of an ok run that declares `snapshot_before_mutation`. */
  lemma SnapshotPrecedesWrite(fx: Fixture, start: Tree, k: nat, w: nat) returns (s: nat)
    requires SetupTree(fx.setupFiles, |fx.setupFiles|) == Some(start)
    requires RunReport(fx).Some? && RunReport(fx).value.ok
    requires k < |fx.invariants| && fx.invariants[k].SnapshotBeforeMutation?
    requires w < |fx.actions| && fx.actions[w].tool == WriteFile
    ensures s < w && fx.actions[s].tool == Snapshot
    ensures Succeeded(Perform(fx, After(fx, Fresh(start), s), fx.actions[s]))
  {
    hide RunReport, Finish, Perform, After, SetupTree, SnapshotBeforeMutationStatus;
    ReportHasFinish(fx);
    RunTrace.OkMeansEveryEventPassed(fx);
    RunTrace.FinishTrace(fx, start);
    FindingStatus(fx, k);
    VerdictOk(fx, k);
    var events := After(fx, Fresh(start), |fx.actions|).toolEvents;
    EventTellsEnding(fx, start, w, |fx.actions|);
    assert Uses(WriteFile)(events[w]);
    RunTrace.SnapshotBeforeMutationDecides(events);
    assert RunTrace.Occurs(events, Uses(WriteFile));
    assert RunTrace.SelectedBefore(events, Uses(Snapshot), w);
    s :| 0 <= s < w && s < |events| && Uses(Snapshot)(events[s]);
    EventTellsEnding(fx, start, s, |fx.actions|);
  }

  lemma ReportHasFinish(fx: Fixture)
    requires RunReport(fx).Some?
    ensures Finish(fx).Some?
  {
    hide Finish;
  }

  lemma VerdictOk(fx: Fixture, k: nat)
    requires RunReport(fx).Some? && RunReport(fx).value.ok && k < |RunReport(fx).value.findings|
    ensures RunReport(fx).value.findings[k].status != StatusFailed
  {
    hide Finish, ArtifactPassed, Findings;
  }

  /**
   In an ok run that declares `snapshot_before_mutation` and writes, some stored snapshot equals
   the whole set-up repository at the moment of the first write.
   */
  lemma SnapshotHoldsSetup(fx: Fixture, start: Tree, k: nat, w: nat) returns (name: string)
    requires SetupTree(fx.setupFiles, |fx.setupFiles|) == Some(start)
    requires RunReport(fx).Some? && RunReport(fx).value.ok
    requires k < |fx.invariants| && fx.invariants[k].SnapshotBeforeMutation?
    requires w < |fx.actions| && fx.actions[w].tool == WriteFile
    requires forall i | 0 <= i < w :: fx.actions[i].tool != WriteFile && Tracked(fx, fx.actions[i])
    ensures var t := After(fx, Fresh(start), w).tree;
      && OwnDirectory(name) && IsDir(t, SnapshotDir(name))
      && VisibleFiles(t, SnapshotDir(name)) == VisibleFiles(start, REPO)
  {
    hide RunReport, Execute, SetupTree, After, Perform, SafeSnapshotName, Tracked, VisibleFiles, Guarded, FileAt;
    var s := SnapshotPrecedesWrite(fx, start, k, w);
    var setup := VisibleFiles(start, REPO);
    var taken, first := After(fx, Fresh(start), s), After(fx, Fresh(start), w);
    SetupIsGuarded(fx, start);
    RunKeepsGuard(setup, fx, Fresh(start), s);
    RunKeepsGuard(setup, fx, Fresh(start), w);
    NoWriteNoCount(fx, start, w);
    name := SnapshotName(fx.actions[s]);
    SuccessfulIsAllowed(fx, taken, fx.actions[s]);
    GuardedIsReady(setup, taken);
    SnapshotActionStores(fx, taken, s, fx.actions[s]);
    AfterNext(fx, Fresh(start), s);
    StoredStays(fx, Fresh(start), name, s + 1, w);
    SameVisible(setup, first, name);
  }

  lemma AfterNext(fx: Fixture, start: RunState, n: nat)
    requires n < |fx.actions|
    ensures After(fx, start, n + 1) == Execute(fx, After(fx, start, n), n, fx.actions[n])
  {
    hide Execute;
  }

  lemma SuccessfulIsAllowed(fx: Fixture, st: RunState, a: Action)
    requires a.tool == Snapshot && Succeeded(Perform(fx, st, a)) && Tracked(fx, a)
    ensures OwnDirectory(SnapshotName(a))
  {}

  lemma SameVisible(setup: Files, st: RunState, name: string)
    requires Guarded(setup, st) && st.writeCounts == multiset{} && OwnDirectory(name) && Stored(st.tree, name)
    requires forall p | p in setup :: Visible(p)
    ensures VisibleFiles(st.tree, SnapshotDir(name)) == setup
  {
    var files := VisibleFiles(st.tree, SnapshotDir(name));
    assert Agrees(setup, st.tree, SnapshotDir(name), st.writeCounts);
    assert forall p | Visible(p) :: FileAt(st.tree, SnapshotDir(name), p) == Lookup(setup, p);
    assert files.Keys == setup.Keys;
  }

  // ----- Set-up -----

  /** After set-up each declared file holds its text, unless a later declaration names the same path. */
  lemma {:induction false} SetupHoldsFiles(files: seq<(string, Text)>, n: nat, k: nat)
    requires k < n <= |files| && SetupTree(files, n).Some?
    requires forall m | k < m < n :: NormalizeRelpath(files[m].0) != NormalizeRelpath(files[k].0)
    ensures NormalizeRelpath(files[k].0).Some?
    ensures FileAt(SetupTree(files, n).value, REPO, NormalizeRelpath(files[k].0).value) == Some(files[k].1)
  {
    hide WriteText, NormalizeRelpath, FileAt;
    SetupIsReady(files, n - 1);
    var before := SetupTree(files, n - 1).value;
    var p := NormalizeRelpath(files[n - 1].0).value;
    if k == n - 1 {
      WriteTextExactly(before, REPO, p, files[k].1);
    } else {
      SetupHoldsFiles(files, n - 1, k);
      WriteIsLocal(before, REPO, p, files[n - 1].1);
    }
  }

  // ----- What the check does not see -----

  /**
   A truncating write empties an existing file, is reported as failed, and leaves the outcome of
   every `forbidden_path_mutation` check as it was.
   */
  lemma TruncationEscapesCheck(fx: Fixture, st: RunState, index: nat, a: Action, patterns: seq<Pattern>)
    requires a.tool == WriteFile && WriteFile in fx.allowedTools && TruncatingWrite(fx, a)
    requires var p := NormalizeRelpath(a.path.value).value;
      IsFile(st.tree, REPO + p) && forall k | k in ProperPrefixes(REPO + p) :: !IsFile(st.tree, k)
    ensures var p := NormalizeRelpath(a.path.value).value;
      var st' := Execute(fx, st, index, a);
      && FileAt(st'.tree, REPO, p) == Some([])
      && st'.actionFailures == st.actionFailures + [Failure(index, WriteFile, UnicodeEncodeError)]
      && ForbiddenPathMutationStatus(st'.writeCounts, patterns) == ForbiddenPathMutationStatus(st.writeCounts, patterns)
  {
    hide NormalizeRelpath, RepoMutationAllowed;
  }

  const DOT_SNAPSHOT: Action := Action(Snapshot, None, [], ".", [], [], CommandRun(NoCode, None), false)
  const WRITE_A: Action := Action(WriteFile, Some("a"), [], "", [], [], CommandRun(NoCode, None), false)

  /** A run that takes the snapshot "." of an empty repository and then writes. */
  const DOT_FIRST: Fixture := Fixture(
    {Snapshot, WriteFile}, true, [(p: Path) => true], false, false, [], [DOT_SNAPSHOT, WRITE_A], [], [],
    [SnapshotBeforeMutation])

  lemma DotTree()
    ensures var e := TakeSnapshot(EMPTY_WORKSPACE, ".");
      && e.Done? && IsDir(e.tree, REPO) && !IsDir(e.tree, REPO + ["a"]) && forall k :: !IsFile(e.tree, k)
  {
    hide WithParents, RemoveTree, CopyTree;
    assert SafeSnapshotName(".");
    assert REPO[0] == "repo" && (REPO + ["a"])[0] == "repo" && SNAPSHOTS[0] == "snapshots";
    ClearedSnapshots(EMPTY_WORKSPACE, REPO);
    ClearedSnapshots(EMPTY_WORKSPACE, REPO + ["a"]);
    var cleared := WithParents(RemoveTree(EMPTY_WORKSPACE, SNAPSHOTS), SNAPSHOTS);
    assert TakeSnapshot(EMPTY_WORKSPACE, ".") == Done(CopyTree(cleared, REPO, SNAPSHOTS));
    ClearedHasNoFiles(EMPTY_WORKSPACE);
    CopiedDirectories(cleared, REPO, SNAPSHOTS);
  }

  lemma ClearedHasNoFiles(t: Tree)
    requires forall k :: !IsFile(t, k)
    ensures forall k :: !IsFile(WithParents(RemoveTree(t, SNAPSHOTS), SNAPSHOTS), k)
  {
    forall k ensures !IsFile(WithParents(RemoveTree(t, SNAPSHOTS), SNAPSHOTS), k) {
      assert !IsFile(t, k);
    }
  }

  /** A copy of directories alone brings no files, and nothing outside its target. */
  lemma CopiedDirectories(t: Tree, source: Path, target: Path)
    requires forall k :: !IsFile(t, k)
    ensures forall k :: !IsFile(CopyTree(t, source, target), k)
    ensures forall k | !(target <= k) :: IsDir(CopyTree(t, source, target), k) == IsDir(t, k)
  {
    forall k ensures !IsFile(CopyTree(t, source, target), k) {
      assert !IsFile(t, k);
      assert target <= k ==> !IsFile(t, source + k[|target|..]);
    }
  }

  lemma PathA()
    ensures NormalizeRelpath("a") == Some(["a"])
  {
    Strings.SplitOfPlain("a", '/');
    DropNothing(["a"]);
  }

  lemma FirstEvents()
    ensures var st := After(DOT_FIRST, Fresh(EMPTY_WORKSPACE), 1);
      && st.toolEvents == [Event(0, Snapshot, true, None)] && st.actionFailures == []
      && st.tree == TakeSnapshot(EMPTY_WORKSPACE, ".").tree
  {
    hide TakeSnapshot;
    DotTree();
    assert After(DOT_FIRST, Fresh(EMPTY_WORKSPACE), 0) == Fresh(EMPTY_WORKSPACE);
  }

  lemma SecondEvents()
    ensures var st := After(DOT_FIRST, Fresh(EMPTY_WORKSPACE), 2);
      && st.toolEvents == [Event(0, Snapshot, true, None), Event(1, WriteFile, true, None)] && st.actionFailures == []
  {
    hide TakeSnapshot, WriteText, NormalizeRelpath, After;
    FirstEvents();
    DotTree();
    PathA();
    var st := After(DOT_FIRST, Fresh(EMPTY_WORKSPACE), 1);
    WriteTextExactly(st.tree, REPO, ["a"], []);
    assert DOT_FIRST.mutationPaths[0](["a"]);
    AfterNext(DOT_FIRST, Fresh(EMPTY_WORKSPACE), 1);
  }

  lemma DotFirstIsOk()
    ensures RunReport(DOT_FIRST).Some? && RunReport(DOT_FIRST).value.ok
  {
    hide After, VisibleFiles;
    SecondEvents();
    var st := After(DOT_FIRST, Fresh(EMPTY_WORKSPACE), 2);
    RunTrace.SnapshotBeforeMutationDecides(st.toolEvents);
  }

  /**
   Without that condition it can fail: after the snapshot "." of an empty set-up the run is ok, and no
   snapshot is stored when the first write comes.
   */
  lemma DotSnapshotStoresNothing()
    ensures SetupTree(DOT_FIRST.setupFiles, 0) == Some(EMPTY_WORKSPACE)
    ensures RunReport(DOT_FIRST).Some? && RunReport(DOT_FIRST).value.ok
    ensures forall name | OwnDirectory(name) ::
      !IsDir(After(DOT_FIRST, Fresh(EMPTY_WORKSPACE), 1).tree, SnapshotDir(name))
  {
    hide After, RunReport, TakeSnapshot;
    DotFirstIsOk();
    FirstEvents();
    forall name | OwnDirectory(name)
      ensures !IsDir(After(DOT_FIRST, Fresh(EMPTY_WORKSPACE), 1).tree, SnapshotDir(name))
    {
      assert (REPO + [name])[0] == "repo";
      DotSnapshotDropsSnapshots(EMPTY_WORKSPACE, name);
    }
  }
}
