/** What file actions do and what every kind of finding says, in terms of the declared actions and the two trees. */
module RunFindings {
  import opened Wrappers
  import opened Workspace
  import opened Runner
  import opened RunTrace

  // ----- File actions -----

  /** The declared path names a file below base, and nothing stands in the way of writing this text there. */
  ghost predicate Writable(t: Tree, base: Path, a: Action, p: Path) {
    && a.path.Some? && NormalizeRelpath(a.path.value) == Some(p)
    && (forall k | k in ProperPrefixes(base + p) :: !IsFile(t, k)) && !IsDir(t, base + p)
    && Encodable(a.content)
  }

  /**
   A permitted write passes exactly when repository writes are on, a pattern allows the path and nothing is
   in its way; the file then reads back as the content, and its path is counted once more.
   */
  lemma WriteEnds(fx: Fixture, st: RunState, index: nat, a: Action)
    requires a.tool == WriteFile && WriteFile in fx.allowedTools
    ensures var st' := Execute(fx, st, index, a);
      var passed := exists p :: Writable(st.tree, REPO, a, p) && fx.repoMutations
                             && exists i :: 0 <= i < |fx.mutationPaths| && fx.mutationPaths[i](p);
      && st'.toolEvents == st.toolEvents + [Event(index, WriteFile, passed, None)]
      && (!passed ==> st'.writeCounts == st.writeCounts)
      && (passed ==>
            && a.path.Some? && NormalizeRelpath(a.path.value).Some?
            && FileAt(st'.tree, REPO, NormalizeRelpath(a.path.value).value) == Some(a.content)
            && st'.writeCounts == st.writeCounts + multiset{NormalizeRelpath(a.path.value).value})
  {
    hide WriteText, NormalizeRelpath, IsDir, IsFile, FileAt, Encodable;
    if a.path.Some? && NormalizeRelpath(a.path.value).Some? {
      var p := NormalizeRelpath(a.path.value).value;
      WriteTextExactly(st.tree, REPO, p, a.content);
      assert Writable(st.tree, REPO, a, p) <==> WriteText(st.tree, REPO + p, a.content).Done?;
      assert RepoMutationAllowed(fx, p)
        <==> fx.repoMutations && exists i :: 0 <= i < |fx.mutationPaths| && fx.mutationPaths[i](p);
    }
  }

  /** A permitted artifact write passes exactly when artifact writes are on and nothing is in its way. */
  lemma ArtifactWriteEnds(fx: Fixture, st: RunState, index: nat, a: Action)
    requires a.tool == WriteArtifact && WriteArtifact in fx.allowedTools
    ensures var st' := Execute(fx, st, index, a);
      var passed := fx.artifactMutations && exists p :: Writable(st.tree, ARTIFACTS, a, p);
      && st'.toolEvents == st.toolEvents + [Event(index, WriteArtifact, passed, None)]
      && st'.writeCounts == st.writeCounts
      && (passed ==>
            && a.path.Some? && NormalizeRelpath(a.path.value).Some?
            && FileAt(st'.tree, ARTIFACTS, NormalizeRelpath(a.path.value).value) == Some(a.content))
  {
    hide WriteText, NormalizeRelpath, IsDir, IsFile, FileAt, Encodable;
    if a.path.Some? && NormalizeRelpath(a.path.value).Some? {
      var p := NormalizeRelpath(a.path.value).value;
      WriteTextExactly(st.tree, ARTIFACTS, p, a.content);
      assert Writable(st.tree, ARTIFACTS, a, p) <==> WriteText(st.tree, ARTIFACTS + p, a.content).Done?;
    }
  }

  /** A permitted read passes exactly when the declared path names a file of the repository; it changes nothing else. */
  lemma ReadEnds(fx: Fixture, st: RunState, index: nat, a: Action)
    requires a.tool == ReadFile && ReadFile in fx.allowedTools
    ensures var st' := Execute(fx, st, index, a);
      var passed := a.path.Some? && exists p :: NormalizeRelpath(a.path.value) == Some(p)
                                             && FileAt(st.tree, REPO, p).Some?;
      && st' == st.(toolEvents := st.toolEvents + [Event(index, ReadFile, passed, None)],
                    actionFailures := st'.actionFailures)
  {
    hide NormalizeRelpath;
    if a.path.Some? && NormalizeRelpath(a.path.value).Some? {
      var p := NormalizeRelpath(a.path.value).value;
      assert IsFile(st.tree, REPO + p) <==> FileAt(st.tree, REPO, p).Some?;
    }
  }

  // ----- Counted paths -----

  /** Action i is a write of path p that passed. */
  ghost predicate Wrote(fx: Fixture, events: seq<Event>, i: nat, p: Path)
    requires i < |events| && i < |fx.actions|
  {
    && fx.actions[i].tool == WriteFile && events[i].passed
    && fx.actions[i].path.Some? && NormalizeRelpath(fx.actions[i].path.value) == Some(p)
  }

  lemma OneMoreWrite(fx: Fixture, st: RunState, index: nat, a: Action, p: Path)
    ensures p in Execute(fx, st, index, a).writeCounts
      <==> p in st.writeCounts
           || (&& a.tool == WriteFile && Succeeded(Perform(fx, st, a).ending)
               && a.path.Some? && NormalizeRelpath(a.path.value) == Some(p))
  {
    hide WriteText, NormalizeRelpath, RunDeclaredCommand, TakeSnapshot, RestoreSnapshot, GateOr, RepoMutationAllowed;
    ExecuteAppends(fx, st, index, a);
    hide Execute;
  }

  /** The counted paths are those of the writes that passed. */
  lemma {:induction false} CountedExactly(fx: Fixture, start: Tree, n: nat, p: Path)
    requires n <= |fx.actions|
    ensures var st := After(fx, Fresh(start), n);
      |st.toolEvents| == n && (p in st.writeCounts <==> exists i: nat | i < n :: Wrote(fx, st.toolEvents, i, p))
  {
    hide Execute, Perform, NormalizeRelpath;
    OneEventPerAction(fx, start, n);
    if n > 0 {
      CountedExactly(fx, start, n - 1, p);
      var before, a := After(fx, Fresh(start), n - 1), fx.actions[n - 1];
      var st := After(fx, Fresh(start), n);
      ExecuteAppends(fx, before, n - 1, a);
      OneMoreWrite(fx, before, n - 1, a, p);
      assert st.toolEvents[n - 1].passed == Succeeded(Perform(fx, before, a).ending);
      forall i: nat | i < n - 1 ensures Wrote(fx, before.toolEvents, i, p) <==> Wrote(fx, st.toolEvents, i, p) {
        assert st.toolEvents[i] == before.toolEvents[i];
      }
      assert Wrote(fx, st.toolEvents, n - 1, p)
        <==> (&& a.tool == WriteFile && Succeeded(Perform(fx, before, a).ending)
              && a.path.Some? && NormalizeRelpath(a.path.value) == Some(p));
    }
  }

  // ----- Findings -----

  /** Every use of the tool comes after some action that names one of the others. */
  ghost predicate EachAfter(fx: Fixture, tool: Tool, earlier: seq<Tool>) {
    forall i | 0 <= i < |fx.actions| && fx.actions[i].tool == tool ::
      exists j :: 0 <= j < i && fx.actions[j].tool in earlier
  }

  ghost predicate Names(fx: Fixture, tool: Tool) {
    exists i :: 0 <= i < |fx.actions| && fx.actions[i].tool == tool
  }

  /** What the declared invariant asks of the actions, their events, and the trees before and after. */
  ghost predicate Met(fx: Fixture, start: Tree, end: RunState, inv: Invariant)
    requires |end.toolEvents| == |fx.actions|
  {
    match inv
    case RequiredGate(gate) => exists i :: 0 <= i < |fx.actions| && OpensGate(fx, fx.actions[i], gate)
    case RequiredTool(tool) => Names(fx, tool)
    case ForbiddenTool(tool) => !Names(fx, tool)
    case ToolOrder(tool, earlier) => Names(fx, tool) && EachAfter(fx, tool, earlier)
    case SnapshotBeforeMutation => Names(fx, WriteFile) && EachAfter(fx, WriteFile, [Snapshot])
    case TestAfterMutation =>
      Names(fx, WriteFile)
      && forall i | 0 <= i < |fx.actions| && fx.actions[i].tool == WriteFile ::
           exists j :: i < j < |fx.actions| && fx.actions[j].tool == RunCommand
                    && end.toolEvents[j].gate == Some(TEST_GATE)
    case ForbiddenPathMutation(patterns) =>
      patterns != []
      && forall i: nat, p, k | i < |fx.actions| && Wrote(fx, end.toolEvents, i, p) && 0 <= k < |patterns| ::
           !patterns[k](p)
    case NoRepoMutation => forall p | Visible(p) :: FileAt(end.tree, REPO, p) == FileAt(start, REPO, p)
    case NoNetwork => !fx.network
    case UnknownInvariant(_) => false
  }

  /** The checks of an order say nothing about a run that does not name their tool. */
  ghost predicate Idle(fx: Fixture, inv: Invariant) {
    match inv
    case ToolOrder(tool, _) => !Names(fx, tool)
    case SnapshotBeforeMutation => !Names(fx, WriteFile)
    case TestAfterMutation => !Names(fx, WriteFile)
    case _ => false
  }

  lemma SameFilesSameMap(t: Tree, t': Tree)
    ensures VisibleFiles(t, REPO) == VisibleFiles(t', REPO)
      <==> forall p | Visible(p) :: FileAt(t', REPO, p) == FileAt(t, REPO, p)
  {
    hide FileAt, Visible;
    var x, y := VisibleFiles(t, REPO), VisibleFiles(t', REPO);
    if x == y {
      forall p | Visible(p) ensures FileAt(t', REPO, p) == FileAt(t, REPO, p) {
        assert p in x <==> p in y;
      }
    }
    if forall p | Visible(p) :: FileAt(t', REPO, p) == FileAt(t, REPO, p) {
      assert forall p :: p in x <==> p in y;
    }
  }

  /** Events name the tools of their actions, so what occurs in the trace is what the actions name. */
  lemma OccursMeansNames(fx: Fixture, events: seq<Event>, tool: Tool)
    requires |events| == |fx.actions|
    requires forall i | 0 <= i < |events| :: events[i].tool == fx.actions[i].tool
    ensures Occurs(events, Uses(tool)) <==> Names(fx, tool)
    ensures HasTool(events, tool) <==> Names(fx, tool)
  {
    if i :| 0 <= i < |fx.actions| && fx.actions[i].tool == tool {
      assert Uses(tool)(events[i]) && events[i] in events;
    }
  }

  lemma BeforeMeansAfter(fx: Fixture, events: seq<Event>, tool: Tool, earlier: seq<Tool>)
    requires |events| == |fx.actions|
    requires forall i | 0 <= i < |events| :: events[i].tool == fx.actions[i].tool
    ensures (forall i | 0 <= i < |events| && events[i].tool == tool :: SelectedBefore(events, UsesAny(earlier), i))
      <==> EachAfter(fx, tool, earlier)
  {
    forall i | 0 <= i < |events|
      ensures SelectedBefore(events, UsesAny(earlier), i) <==> exists j :: 0 <= j < i && fx.actions[j].tool in earlier
    {
      BeforeMeansEarlier(fx, events, earlier, i);
    }
    hide SelectedBefore;
  }

  lemma BeforeMeansEarlier(fx: Fixture, events: seq<Event>, earlier: seq<Tool>, i: nat)
    requires i < |events| == |fx.actions|
    requires forall i | 0 <= i < |events| :: events[i].tool == fx.actions[i].tool
    ensures SelectedBefore(events, UsesAny(earlier), i) <==> exists j :: 0 <= j < i && fx.actions[j].tool in earlier
  {
    if j :| 0 <= j < i && fx.actions[j].tool in earlier {
      assert UsesAny(earlier)(events[j]);
    }
  }

  lemma TestsAfter(fx: Fixture, events: seq<Event>)
    requires |events| == |fx.actions|
    requires forall i | 0 <= i < |events| :: events[i].tool == fx.actions[i].tool
    ensures forall i: nat | i < |events| ::
      SelectedAfter(events, TestGated(), i)
      <==> exists j :: i < j < |fx.actions| && fx.actions[j].tool == RunCommand && events[j].gate == Some(TEST_GATE)
  {
    forall i: nat | i < |events|
      ensures SelectedAfter(events, TestGated(), i)
        <==> exists j :: i < j < |fx.actions| && fx.actions[j].tool == RunCommand && events[j].gate == Some(TEST_GATE)
    {
      if j :| i < j < |fx.actions| && fx.actions[j].tool == RunCommand && events[j].gate == Some(TEST_GATE) {
        assert TestGated()(events[j]);
      }
    }
  }

  lemma OrderStatusDecides(fx: Fixture, start: Tree, end: RunState, initial: map<Path, Text>, inv: Invariant)
    requires inv.ToolOrder? || inv.SnapshotBeforeMutation? || inv.TestAfterMutation?
    requires InOrder(end.toolEvents) && |end.toolEvents| == |fx.actions|
    requires forall i | 0 <= i < |fx.actions| :: end.toolEvents[i].tool == fx.actions[i].tool
    ensures StatusOf(fx, end, initial, inv)
         == if Idle(fx, inv) then NotApplicable else if Met(fx, start, end, inv) then StatusPassed else StatusFailed
  {
    hide ToolOrderStatus, SnapshotBeforeMutationStatus, TestAfterMutationStatus, Occurs, SelectedAfter, SelectedBefore,
      InOrder, TEST_GATE;
    var events := end.toolEvents;
    match inv
    case ToolOrder(tool, earlier) =>
      OccursMeansNames(fx, events, tool);
      BeforeMeansAfter(fx, events, tool, earlier);
      ToolOrderDecides(events, tool, earlier);
      if earlier == [] && Names(fx, tool) {
        NothingEarlier(fx, tool);
      }
    case SnapshotBeforeMutation =>
      OccursMeansNames(fx, events, WriteFile);
      BeforeMeansAfter(fx, events, WriteFile, [Snapshot]);
      UsesOne(events, Snapshot);
      SnapshotBeforeMutationDecides(events);
    case TestAfterMutation =>
      OccursMeansNames(fx, events, WriteFile);
      TestsAfter(fx, events);
      TestAfterMutationDecides(events);
  }

  lemma UsesOne(events: seq<Event>, tool: Tool)
    ensures forall i :: SelectedBefore(events, Uses(tool), i) <==> SelectedBefore(events, UsesAny([tool]), i)
  {
    assert forall e: Event :: Uses(tool)(e) <==> UsesAny([tool])(e);
  }

  lemma NothingEarlier(fx: Fixture, tool: Tool)
    requires Names(fx, tool)
    ensures !EachAfter(fx, tool, [])
  {}

  /**
   Every finding of a finished run says of its invariant exactly this: not applicable when an order has
   nothing to order, passed when the invariant is met, failed otherwise.
   */
  lemma FindingsDecide(fx: Fixture, start: Tree, inv: Invariant)
    requires SetupTree(fx.setupFiles, |fx.setupFiles|) == Some(start) && Finish(fx).Some?
    ensures var end := Finish(fx).value;
      && |end.st.toolEvents| == |fx.actions|
      && StatusOf(fx, end.st, end.initial, inv)
           == if Idle(fx, inv) then NotApplicable
              else if Met(fx, start, end.st, inv) then StatusPassed
              else StatusFailed
  {
    hide Finish, After, StatusOf, Met, Idle, VisibleFiles, SetupTree, InOrder;
    FinishTrace(fx, start);
    OneEventPerAction(fx, start, |fx.actions|);
    RunsAreInOrder(fx, start, |fx.actions|);
    var end := Finish(fx).value;
    if inv.ToolOrder? || inv.SnapshotBeforeMutation? || inv.TestAfterMutation? {
      OrderStatusDecides(fx, start, end.st, end.initial, inv);
    } else if inv.ForbiddenPathMutation? {
      PathStatusDecides(fx, start, end, inv);
    } else {
      if inv.RequiredGate? {
        GateFindingDecides(fx, start, |fx.actions|, inv.gate);
      }
      PresenceStatusDecides(fx, start, end, inv);
    }
  }

  lemma PathStatusDecides(fx: Fixture, start: Tree, end: Finished, inv: Invariant)
    requires inv.ForbiddenPathMutation? && |end.st.toolEvents| == |fx.actions|
    requires var acted := After(fx, Fresh(start), |fx.actions|);
      end.st.writeCounts == acted.writeCounts && end.st.toolEvents == acted.toolEvents
    ensures !Idle(fx, inv)
    ensures StatusOf(fx, end.st, end.initial, inv) == PassedIf(Met(fx, start, end.st, inv))
  {
    hide After, NormalizeRelpath, Wrote;
    var events := end.st.toolEvents;
    forall p ensures p in end.st.writeCounts <==> exists i: nat | i < |fx.actions| :: Wrote(fx, events, i, p) {
      CountedExactly(fx, start, |fx.actions|, p);
    }
    if Met(fx, start, end.st, inv) {
      forall p | p in end.st.writeCounts ensures !MatchesAny(p, inv.paths) {
        var i: nat :| i < |fx.actions| && Wrote(fx, events, i, p);
      }
    } else if inv.paths != [] {
      var i: nat, p, k :| i < |fx.actions| && Wrote(fx, events, i, p) && 0 <= k < |inv.paths| && inv.paths[k](p);
      assert p in end.st.writeCounts && MatchesAny(p, inv.paths);
    }
  }

  lemma PresenceStatusDecides(fx: Fixture, start: Tree, end: Finished, inv: Invariant)
    requires !inv.ToolOrder? && !inv.SnapshotBeforeMutation? && !inv.TestAfterMutation? && !inv.ForbiddenPathMutation?
    requires |end.st.toolEvents| == |fx.actions| && end.initial == VisibleFiles(start, REPO)
    requires forall i | 0 <= i < |fx.actions| :: end.st.toolEvents[i].tool == fx.actions[i].tool
    requires inv.RequiredGate? ==>
      (inv.gate in end.st.safetyGates
       <==> exists i :: 0 <= i < |fx.actions| && OpensGate(fx, fx.actions[i], inv.gate))
    ensures !Idle(fx, inv)
    ensures StatusOf(fx, end.st, end.initial, inv) == PassedIf(Met(fx, start, end.st, inv))
  {
    hide VisibleFiles, FileAt, OpensGate, HasTool, Names, Visible;
    match inv
    case RequiredTool(tool) => OccursMeansNames(fx, end.st.toolEvents, tool);
    case ForbiddenTool(tool) => OccursMeansNames(fx, end.st.toolEvents, tool);
    case NoRepoMutation => SameFilesSameMap(start, end.st.tree);
    case _ =>
  }
}
