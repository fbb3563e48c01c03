/** When an action passes, what a file action fails with, and when a run ends in an exception. */
module RunEndings {
  import opened Wrappers
  import opened Workspace
  import opened Runner
  import opened RunTrace
  import opened RunFindings

  // ----- When an action passes -----

  /** The name an action gives its snapshot. */
  function GivenName(a: Action): string {
    if a.name != "" then a.name else "snapshot"
  }

  /** A snapshot can be taken: the name is safe and has a place, and no file stands where a directory is needed. */
  ghost predicate CanSnapshot(t: Tree, name: string) {
    && SafeSnapshotName(name) && name != ".." && IsDir(t, REPO)
    && !IsFile(t, SNAPSHOTS) && (name != "." ==> !IsFile(t, SNAPSHOTS + [name]))
  }

  /** A snapshot can be restored: its directory is there, and so is the repository. */
  ghost predicate CanRestore(t: Tree, name: string) {
    && SafeSnapshotName(name) && IsDir(t, REPO)
    && match name
       case "." => IsDir(t, SNAPSHOTS)
       case ".." => IsDir(t, SNAPSHOTS) && IsDir(t, [])
       case _ => IsDir(t, SNAPSHOTS + [name])
  }

  /** What the declared action asks of the fixture and the tree it finds. */
  ghost predicate Works(fx: Fixture, t: Tree, a: Action) {
    a.tool in fx.allowedTools
    && match a.tool
       case SafetyGate => Encodable(a.gate)
       case ReadFile =>
         a.path.Some? && exists p :: NormalizeRelpath(a.path.value) == Some(p) && FileAt(t, REPO, p).Some?
       case Search => a.searchSucceeds
       case WriteFile =>
         exists p :: Writable(t, REPO, a, p) && fx.repoMutations
                  && exists i :: 0 <= i < |fx.mutationPaths| && fx.mutationPaths[i](p)
       case WriteArtifact => fx.artifactMutations && exists p :: Writable(t, ARTIFACTS, a, p)
       case Snapshot => CanSnapshot(t, GivenName(a))
       case Restore => CanRestore(t, GivenName(a))
       case RunCommand => ValidCommand(a.argv) && IsDir(t, REPO) && a.run.exit == ExpectedCode
       case RetryMarker => true
       case OtherTool(_) => false
  }

  lemma SnapshotPasses(st: RunState, a: Action)
    ensures Succeeded(SnapshotAttempt(st, a).ending) <==> CanSnapshot(st.tree, GivenName(a))
  {
    hide CopyTree, WithParents, RemoveTree, SafeSnapshotName;
  }

  lemma RestorePasses(st: RunState, a: Action)
    ensures Succeeded(RestoreAttempt(st, a).ending) <==> CanRestore(st.tree, GivenName(a))
  {
    hide CopyTree, RemoveTree, SafeSnapshotName;
  }

  /** File actions, as their own results have it. */
  lemma FileActionPasses(fx: Fixture, st: RunState, a: Action)
    requires a.tool in fx.allowedTools && (a.tool == ReadFile || a.tool == WriteFile || a.tool == WriteArtifact)
    ensures Succeeded(Perform(fx, st, a).ending) <==> Works(fx, st.tree, a)
  {
    hide Perform, Execute, Succeeded, GateOf, Writable;
    ExecuteAppends(fx, st, 0, a);
    var e := Execute(fx, st, 0, a).toolEvents[|st.toolEvents|];
    assert e.passed == Succeeded(Perform(fx, st, a).ending);
    if a.tool == ReadFile {
      ReadEnds(fx, st, 0, a);
    } else if a.tool == WriteFile {
      WriteEnds(fx, st, 0, a);
    } else {
      ArtifactWriteEnds(fx, st, 0, a);
    }
  }

  /** An action passes exactly when it works in the tree it finds. */
  lemma ActionPasses(fx: Fixture, st: RunState, a: Action)
    ensures Succeeded(Perform(fx, st, a).ending) <==> Works(fx, st.tree, a)
  {
    hide CanSnapshot, CanRestore, ReadAttempt, WriteAttempt, ArtifactAttempt, SnapshotAttempt, RestoreAttempt, Writable,
      NormalizeRelpath, ReplaceRepo, ValidCommand, IsDir, FileAt;
    if a.tool in fx.allowedTools {
      match a.tool
      case ReadFile => FileActionPasses(fx, st, a);
      case WriteFile => FileActionPasses(fx, st, a);
      case WriteArtifact => FileActionPasses(fx, st, a);
      case Snapshot => SnapshotPasses(st, a);
      case Restore => RestorePasses(st, a);
      case _ =>
    }
  }

  /** In a run, the event of action i is a passed one exactly when it works in the tree the earlier ones left. */
  lemma {:induction false} PassesExactly(fx: Fixture, start: Tree, i: nat, n: nat)
    requires i < n <= |fx.actions|
    ensures var events := After(fx, Fresh(start), n).toolEvents;
      |events| == n && (events[i].passed <==> Works(fx, After(fx, Fresh(start), i).tree, fx.actions[i]))
  {
    hide Perform, Execute, Works;
    var before := After(fx, Fresh(start), n - 1);
    OneEventPerAction(fx, start, n - 1);
    ExecuteAppends(fx, before, n - 1, fx.actions[n - 1]);
    if i < n - 1 {
      PassesExactly(fx, start, i, n - 1);
    } else {
      ActionPasses(fx, before, fx.actions[i]);
    }
  }

  /**
   A report is ok exactly when every action works in the tree the earlier ones left, every verification
   command ends with the expected code, every expected artifact is present, and every invariant is met or idle.
   */
  lemma ReportOkExactly(fx: Fixture, start: Tree)
    requires SetupTree(fx.setupFiles, |fx.setupFiles|) == Some(start) && RunReport(fx).Some?
    ensures var end := Finish(fx).value.st;
      && |end.toolEvents| == |fx.actions|
      && (RunReport(fx).value.ok
          <==> && (forall i | 0 <= i < |fx.actions| :: Works(fx, After(fx, Fresh(start), i).tree, fx.actions[i]))
               && (forall i | 0 <= i < |fx.commands| :: fx.commands[i].run.exit == ExpectedCode)
               && (forall i | 0 <= i < |fx.artifacts| :: Present(end.tree, fx.artifacts[i]))
               && (forall i | 0 <= i < |fx.invariants| ::
                     Idle(fx, fx.invariants[i]) || Met(fx, start, end, fx.invariants[i])))
  {
    hide *;
    ReportMeansFinished(fx);
    OkExactly(fx);
    AllPassExactly(fx, start);
    NoneFailsExactly(fx, start);
  }

  lemma ReportMeansFinished(fx: Fixture)
    requires RunReport(fx).Some?
    ensures Finish(fx).Some?
  {
    hide Finish, ArtifactResults;
  }

  lemma AllPassExactly(fx: Fixture, start: Tree)
    requires SetupTree(fx.setupFiles, |fx.setupFiles|) == Some(start) && Finish(fx).Some?
    ensures var events := Finish(fx).value.st.toolEvents;
      && |events| == |fx.actions|
      && forall i | 0 <= i < |events| ::
           events[i].passed <==> Works(fx, After(fx, Fresh(start), i).tree, fx.actions[i])
  {
    hide Finish, Works, After, SetupTree, VisibleFiles;
    FinishTrace(fx, start);
    OneEventPerAction(fx, start, |fx.actions|);
    forall i | 0 <= i < |fx.actions|
      ensures After(fx, Fresh(start), |fx.actions|).toolEvents[i].passed
        <==> Works(fx, After(fx, Fresh(start), i).tree, fx.actions[i])
    {
      PassesExactly(fx, start, i, |fx.actions|);
    }
  }

  lemma NoneFailsExactly(fx: Fixture, start: Tree)
    requires SetupTree(fx.setupFiles, |fx.setupFiles|) == Some(start) && Finish(fx).Some?
    ensures var end := Finish(fx).value;
      && |end.st.toolEvents| == |fx.actions|
      && forall i | 0 <= i < |fx.invariants| ::
           StatusOf(fx, end.st, end.initial, fx.invariants[i]) != StatusFailed
           <==> Idle(fx, fx.invariants[i]) || Met(fx, start, end.st, fx.invariants[i])
  {
    hide Finish, Idle, Met, StatusOf, SetupTree;
    AllPassExactly(fx, start);
    forall i | 0 <= i < |fx.invariants|
      ensures var end := Finish(fx).value;
        StatusOf(fx, end.st, end.initial, fx.invariants[i]) != StatusFailed
        <==> Idle(fx, fx.invariants[i]) || Met(fx, start, end.st, fx.invariants[i])
    {
      FindingsDecide(fx, start, fx.invariants[i]);
    }
  }

  // ----- When a run ends in an exception -----

  /** A verification command that raises: nothing to run, nowhere to run it, or no exit code. */
  predicate Raises(a: Action) {
    !ValidCommand(a.argv) || a.run.exit == NoCode
  }

  lemma {:induction false} VerifiedRaisesExactly(fx: Fixture, st: RunState, n: nat)
    requires n <= |fx.commands|
    ensures Verified(fx, st, n).None?
      <==> n > 0 && (!IsDir(st.tree, REPO) || exists i :: 0 <= i < n && Raises(fx.commands[i]))
    ensures Verified(fx, st, n).Some? && IsDir(st.tree, REPO) ==> IsDir(Verified(fx, st, n).value.0.tree, REPO)
  {
    hide RunDeclaredCommand, Raises, IsDir;
    if n > 0 {
      VerifiedRaisesExactly(fx, st, n - 1);
      if Verified(fx, st, n - 1).Some? {
        CommandRaises(Verified(fx, st, n - 1).value.0.tree, fx.commands[n - 1]);
      }
    }
  }

  lemma CommandRaises(t: Tree, a: Action)
    ensures RunDeclaredCommand(t, a).CommandRaised? <==> !IsDir(t, REPO) || Raises(a)
    ensures IsDir(t, REPO) ==> IsDir(RunDeclaredCommand(t, a).tree, REPO)
  {
    hide ValidCommand, GateOr;
  }

  lemma {:induction false} ArtifactsRaiseExactly(t: Tree, expected: seq<ExpectedArtifact>)
    ensures ArtifactResults(t, expected).None?
      <==> exists i :: 0 <= i < |expected| && NormalizeRelpath(expected[i].path).None?
  {
    hide NormalizeRelpath, Strings.Contains, FileAt;
    if expected != [] {
      ArtifactsRaiseExactly(t, expected[1..]);
      if i :| 0 <= i < |expected| && NormalizeRelpath(expected[i].path).None? && i > 0 {
        assert expected[1..][i - 1] == expected[i];
      }
    }
  }

  /**
   A run whose set-up went through ends without a report exactly when a verification command raises, has no
   repository to run in, or an expected artifact has an unsafe path.
   */
  lemma RunRaisesExactly(fx: Fixture, start: Tree)
    requires SetupTree(fx.setupFiles, |fx.setupFiles|) == Some(start)
    ensures RunReport(fx).None?
      <==> || (fx.commands != [] && !IsDir(After(fx, Fresh(start), |fx.actions|).tree, REPO))
           || (exists i :: 0 <= i < |fx.commands| && Raises(fx.commands[i]))
           || exists i :: 0 <= i < |fx.artifacts| && NormalizeRelpath(fx.artifacts[i].path).None?
  {
    hide After, Verified, ArtifactResults, NormalizeRelpath, IsDir, VisibleFiles, SetupTree, Raises, StatusOf;
    var acted := After(fx, Fresh(start), |fx.actions|);
    VerifiedRaisesExactly(fx, acted, |fx.commands|);
    if Finish(fx).Some? {
      ArtifactsRaiseExactly(Finish(fx).value.st.tree, fx.artifacts);
    }
  }

  // ----- Test results -----

  /** What the test-gated commands among the first n leave. */
  function TestResults(fx: Fixture, n: nat): seq<CommandResult>
    requires n <= |fx.commands|
  {
    if n == 0 then []
    else
      TestResults(fx, n - 1)
      + if fx.commands[n - 1].gate == TEST_GATE
        then [CommandResult(TEST_GATE, fx.commands[n - 1].run.exit == ExpectedCode)] else []
  }

  lemma {:induction false} VerifiedTests(fx: Fixture, st: RunState, n: nat)
    requires n <= |fx.commands| && Verified(fx, st, n).Some?
    ensures Verified(fx, st, n).value.0.testEvents == st.testEvents + TestResults(fx, n)
  {
    hide RunDeclaredCommand, TEST_GATE;
    if n > 0 {
      VerifiedTests(fx, st, n - 1);
      if fx.commands[n - 1].gate == TEST_GATE {
        CommandReports(Verified(fx, st, n - 1).value.0.tree, fx.commands[n - 1]);
      }
    }
  }

  lemma CommandReports(t: Tree, a: Action)
    requires RunDeclaredCommand(t, a).Exited? && a.gate == TEST_GATE
    ensures RunDeclaredCommand(t, a).result == CommandResult(TEST_GATE, a.run.exit == ExpectedCode)
  {
    hide Ascii, TEST_GATE, ReplaceRepo, ValidCommand;
    TestGateIsNamed();
  }

  /** A finished run has a test result for each test-gated event, and then one for each test-gated command. */
  lemma TestResultsFollow(fx: Fixture, start: Tree)
    requires SetupTree(fx.setupFiles, |fx.setupFiles|) == Some(start) && Finish(fx).Some?
    ensures var acted := After(fx, Fresh(start), |fx.actions|);
      && |acted.testEvents| == TestCount(Finish(fx).value.st.toolEvents)
      && Finish(fx).value.st.testEvents == acted.testEvents + TestResults(fx, |fx.commands|)
  {
    hide After, Verified, VisibleFiles, SetupTree, TestCount, TestResults;
    CountersMatchTrace(fx, start, |fx.actions|);
    FinishTrace(fx, start);
    VerifiedTests(fx, After(fx, Fresh(start), |fx.actions|), |fx.commands|);
  }

  // ----- What a failed file action fails with -----

  ghost predicate FileAbove(t: Tree, target: Path) {
    exists k | k in ProperPrefixes(target) :: IsFile(t, k)
  }

  function Parent(p: Path): Path
    requires p != []
  {
    p[..|p| - 1]
  }

  /**
   The error of a permitted write or read of a safe path.  A write meets what stands above its target before
   the target itself, and its content last; a read looks at the target first.
   */
  lemma FileActionReasons(fx: Fixture, st: RunState, index: nat, a: Action, p: Path)
    requires a.tool in fx.allowedTools && a.path.Some? && NormalizeRelpath(a.path.value) == Some(p)
    requires a.tool == ReadFile || (a.tool == WriteFile && RepoMutationAllowed(fx, p))
             || (a.tool == WriteArtifact && fx.artifactMutations)
    requires !Works(fx, st.tree, a)
    ensures var target := (if a.tool == WriteArtifact then ARTIFACTS else REPO) + p;
      var reason :=
        if a.tool == ReadFile then
          if IsDir(st.tree, target) then IsADirectoryError
          else if FileAbove(st.tree, target) then NotADirectoryError else FileNotFoundError
        else if FileAbove(st.tree, target) then
          if IsFile(st.tree, Parent(target)) then FileExistsError else NotADirectoryError
        else if IsDir(st.tree, target) then IsADirectoryError else UnicodeEncodeError;
      Execute(fx, st, index, a).actionFailures == st.actionFailures + [Failure(index, a.tool, reason)]
  {
    ExecuteAppends(fx, st, index, a);
    hide NormalizeRelpath, IsDir, IsFile, WithParents, RepoMutationAllowed;
    ActionPasses(fx, st, a);
    hide Works;
  }
}
