/** What a run's trace and counters say, for every fixture and any number of actions. */
module RunTrace {
  import opened Wrappers
  import opened Strings
  import opened Workspace
  import opened Runner

  // ----- One event per action, failures one-to-one with failed events -----

  function FailedEvents(): Event -> bool {
    (e: Event) => !e.passed
  }

  function ActionIndexes(failures: seq<Failure>): seq<nat> {
    if failures == [] then [] else [failures[0].actionIndex] + ActionIndexes(failures[1..])
  }

  lemma {:induction false} IndexesOfSnoc(events: seq<Event>, e: Event, selected: Event -> bool)
    ensures IndexesOf(events + [e], selected) == IndexesOf(events, selected) + if selected(e) then [e.index] else []
  {
    if events == [] {
      assert events + [e] == [e];
    } else {
      assert (events + [e])[1..] == events[1..] + [e];
      IndexesOfSnoc(events[1..], e, selected);
      var head := if selected(events[0]) then [events[0].index] else [];
      var last := if selected(e) then [e.index] else [];
      assert IndexesOf(events, selected) == head + IndexesOf(events[1..], selected);
      assert head + (IndexesOf(events[1..], selected) + last) == head + IndexesOf(events[1..], selected) + last;
    }
  }

  lemma {:induction false} ActionIndexesSnoc(failures: seq<Failure>, f: Failure)
    ensures ActionIndexes(failures + [f]) == ActionIndexes(failures) + [f.actionIndex]
  {
    if failures == [] {
      assert failures + [f] == [f];
    } else {
      assert (failures + [f])[1..] == failures[1..] + [f];
      ActionIndexesSnoc(failures[1..], f);
    }
  }

  lemma PerformKeepsTrace(fx: Fixture, st: RunState, a: Action)
    ensures var st' := Perform(fx, st, a).st;
      st'.toolEvents == st.toolEvents && st'.actionFailures == st.actionFailures
  {
    hide RunDeclaredCommand, WriteText, NormalizeRelpath, TakeSnapshot, RestoreSnapshot, Encodable, GateOr;
  }

  predicate Succeeded(ending: Ending) {
    ending.Passed? || ending.PassedCommand?
  }

  function GateOf(ending: Ending): Option<Text> {
    if ending.PassedCommand? || ending.ExitMismatch? then Some(ending.gate) else None
  }

  /** One action adds one event, and one failure entry exactly when that event failed. */
  lemma ExecuteAppends(fx: Fixture, st: RunState, index: nat, a: Action)
    ensures var Attempt(done, ending) := Perform(fx, st, a);
      var st' := Execute(fx, st, index, a);
      && st' == done.(toolEvents := st'.toolEvents, actionFailures := st'.actionFailures)
      && st'.toolEvents == st.toolEvents + [Event(index, a.tool, Succeeded(ending), GateOf(ending))]
      && ActionIndexes(st'.actionFailures)
         == ActionIndexes(st.actionFailures) + if Succeeded(ending) then [] else [index]
  {
    PerformKeepsTrace(fx, st, a);
    hide Perform;
    var st' := Execute(fx, st, index, a);
    if st'.actionFailures != st.actionFailures {
      ActionIndexesSnoc(st.actionFailures, st'.actionFailures[|st.actionFailures|]);
    } else {
      assert ActionIndexes(st.actionFailures) + [] == ActionIndexes(st.actionFailures);
    }
  }

  lemma {:induction false} OneEventPerAction(fx: Fixture, start: Tree, n: nat)
    requires n <= |fx.actions|
    ensures var st := After(fx, Fresh(start), n);
      && |st.toolEvents| == n
      && (forall i | 0 <= i < n :: st.toolEvents[i].index == i && st.toolEvents[i].tool == fx.actions[i].tool)
      && ActionIndexes(st.actionFailures) == IndexesOf(st.toolEvents, FailedEvents())
  {
    hide Execute;
    if n > 0 {
      OneEventPerAction(fx, start, n - 1);
      var before := After(fx, Fresh(start), n - 1);
      ExecuteAppends(fx, before, n - 1, fx.actions[n - 1]);
      hide Perform;
      var e := After(fx, Fresh(start), n).toolEvents[n - 1];
      IndexesOfSnoc(before.toolEvents, e, FailedEvents());
    }
  }

  lemma {:induction false} IndexesOfMembers(events: seq<Event>, selected: Event -> bool, i: nat)
    ensures i in IndexesOf(events, selected)
      <==> exists k :: 0 <= k < |events| && selected(events[k]) && events[k].index == i
  {
    if events != [] {
      IndexesOfMembers(events[1..], selected, i);
      if exists k :: 0 <= k < |events| && selected(events[k]) && events[k].index == i {
        var k :| 0 <= k < |events| && selected(events[k]) && events[k].index == i;
        if k > 0 {
          assert events[1..][k - 1] == events[k];
        }
      }
    }
  }

  /** The actions of a finished run, as its verdict sees them. */
  lemma FinishTrace(fx: Fixture, start: Tree)
    requires SetupTree(fx.setupFiles, |fx.setupFiles|) == Some(start)
    requires Finish(fx).Some?
    ensures var acted := After(fx, Fresh(start), |fx.actions|);
      && Finish(fx).value.st.toolEvents == acted.toolEvents
      && Finish(fx).value.st.actionFailures == acted.actionFailures
      && Finish(fx).value.st.writeCounts == acted.writeCounts
      && Finish(fx).value.st.safetyGates == acted.safetyGates
      && Finish(fx).value.initial == VisibleFiles(start, REPO)
  {
    hide After, RunDeclaredCommand, VisibleFiles;
    VerifiedKeepsTrace(fx, After(fx, Fresh(start), |fx.actions|), |fx.commands|);
  }

  lemma {:induction false} VerifiedKeepsTrace(fx: Fixture, st: RunState, n: nat)
    requires n <= |fx.commands| && Verified(fx, st, n).Some?
    ensures var st' := Verified(fx, st, n).value.0;
      && st'.toolEvents == st.toolEvents && st'.actionFailures == st.actionFailures
      && st'.writeCounts == st.writeCounts && st'.safetyGates == st.safetyGates
  {
    hide RunDeclaredCommand;
    if n > 0 {
      VerifiedKeepsTrace(fx, st, n - 1);
    }
  }

  /** A run that is reported ok has a trace in which every event passed, one event per action. */
  lemma OkMeansEveryEventPassed(fx: Fixture)
    requires RunReport(fx).Some? && RunReport(fx).value.ok
    ensures var events := Finish(fx).value.st.toolEvents;
      |events| == |fx.actions| && forall i | 0 <= i < |events| :: events[i].passed && events[i].index == i
  {
    hide After, Verified, VisibleFiles, ArtifactPassed, StatusOf, SetupTree;
    var start := SetupTree(fx.setupFiles, |fx.setupFiles|).value;
    FinishTrace(fx, start);
    OneEventPerAction(fx, start, |fx.actions|);
    var events := Finish(fx).value.st.toolEvents;
    assert Finish(fx).value.st.actionFailures == [];
    assert IndexesOf(events, FailedEvents()) == [];
    forall i | 0 <= i < |events| ensures events[i].passed {
      IndexesOfMembers(events, FailedEvents(), i);
    }
  }

  // ----- How commands end -----

  /** The gate of a command, where a missing one counts as "verification". */
  function NamedGate(a: Action): Text {
    if a.gate != [] then a.gate else Ascii("verification")
  }

  /**
   A permitted command with a valid argv over an existing repository passes exactly when it ends with
   the expected code.  Another code is a failed event that still counts as a test; no code is an error.
   */
  lemma CommandEnds(fx: Fixture, st: RunState, index: nat, a: Action)
    requires a.tool == RunCommand && RunCommand in fx.allowedTools && ValidCommand(a.argv) && IsDir(st.tree, REPO)
    ensures var st' := Execute(fx, st, index, a);
      && st'.toolEvents == st.toolEvents + [Event(index, RunCommand, a.run.exit == ExpectedCode,
                                                  if a.run.exit == NoCode then None else Some(NamedGate(a)))]
      && st'.actionFailures == st.actionFailures
           + (if a.run.exit == UnexpectedCode then [Failure(index, RunCommand, UnexpectedExitCode)]
              else if a.run.exit == NoCode then [Failure(index, RunCommand, CommandError)] else [])
      && st'.testEvents == st.testEvents
           + (if a.gate == TEST_GATE && a.run.exit != NoCode
              then [CommandResult(TEST_GATE, a.run.exit == ExpectedCode)] else [])
      && st'.tree == if a.run.repoAfter.None? then st.tree else ReplaceRepo(st.tree, a.run.repoAfter.value)
  {
    CommandActs(fx, st, a);
    hide Perform, TEST_GATE, NamedGate, ReplaceRepo, ValidCommand;
  }

  lemma CommandActs(fx: Fixture, st: RunState, a: Action)
    requires a.tool == RunCommand && RunCommand in fx.allowedTools && ValidCommand(a.argv) && IsDir(st.tree, REPO)
    ensures var Attempt(st', ending) := Perform(fx, st, a);
      && ending == (if a.run.exit == ExpectedCode then PassedCommand(NamedGate(a))
                    else if a.run.exit == UnexpectedCode then ExitMismatch(NamedGate(a)) else Failed(CommandError))
      && st'.tree == (if a.run.repoAfter.None? then st.tree else ReplaceRepo(st.tree, a.run.repoAfter.value))
      && st'.toolEvents == st.toolEvents && st'.actionFailures == st.actionFailures
      && st'.testEvents == st.testEvents
           + (if a.gate == TEST_GATE && a.run.exit != NoCode
              then [CommandResult(TEST_GATE, a.run.exit == ExpectedCode)] else [])
  {
    hide Ascii, TEST_GATE, ReplaceRepo, ValidCommand, IsDir;
    assert TEST_GATE != [] by {
      TestGateIsNamed();
    }
  }

  lemma TestGateIsNamed()
    ensures |TEST_GATE| == 4
  {}

  /** A command that starts pip, venv or anything but Python is refused, and nothing is run. */
  lemma RefusedCommandFails(fx: Fixture, st: RunState, index: nat, a: Action)
    requires a.tool == RunCommand && RunCommand in fx.allowedTools
    requires a.argv == [] || a.argv[0] !in {"python", "python3"}
             || exists rest, starter | starter in {"pip", "venv"} :: a.argv[1..] == ["-m", starter] + rest
    ensures Execute(fx, st, index, a)
         == st.(toolEvents := st.toolEvents + [Event(index, RunCommand, false, None)],
                actionFailures := st.actionFailures + [Failure(index, RunCommand, BenchmarkError)])
  {
    if a.argv != [] && a.argv[0] in {"python", "python3"} {
      var rest, starter :| starter in {"pip", "venv"} && a.argv[1..] == ["-m", starter] + rest;
      assert a.argv[1] == a.argv[1..][0] && a.argv[2] == a.argv[1..][1];
    }
  }

  /** Without verification commands that raise there is a result for each, passed exactly on the expected code. */
  lemma {:induction false} VerifiedEnds(fx: Fixture, st: RunState, n: nat)
    requires n <= |fx.commands| && Verified(fx, st, n).Some?
    ensures var results := Verified(fx, st, n).value.1;
      && |results| == n
      && forall i | 0 <= i < n ::
           && results[i] == CommandResult(NamedGate(fx.commands[i]), fx.commands[i].run.exit == ExpectedCode)
           && fx.commands[i].run.exit != NoCode && ValidCommand(fx.commands[i].argv)
  {
    hide ReplaceRepo, ValidCommand, Ascii, IsDir;
    if n > 0 {
      VerifiedEnds(fx, st, n - 1);
    }
  }

  lemma CommandsEnd(fx: Fixture)
    requires Finish(fx).Some?
    ensures var results := Finish(fx).value.commands;
      && |results| == |fx.commands|
      && forall i | 0 <= i < |results| :: results[i].passed <==> fx.commands[i].run.exit == ExpectedCode
  {
    hide Verified, After, SetupTree, VisibleFiles;
    var start := SetupTree(fx.setupFiles, |fx.setupFiles|).value;
    VerifiedEnds(fx, After(fx, Fresh(start), |fx.actions|), |fx.commands|);
  }

  // ----- What an ok report says -----

  lemma {:induction false} ArtifactResultsAre(t: Tree, expected: seq<ExpectedArtifact>)
    requires ArtifactResults(t, expected).Some?
    ensures var results := ArtifactResults(t, expected).value;
      |results| == |expected| && forall i | 0 <= i < |expected| :: ArtifactPassed(t, expected[i]) == Some(results[i])
  {
    hide ArtifactPassed;
    if expected != [] {
      ArtifactResultsAre(t, expected[1..]);
    }
  }

  /** The artifact is a file that contains every required text and no excluded one. */
  ghost predicate Present(t: Tree, e: ExpectedArtifact) {
    exists p :: NormalizeRelpath(e.path) == Some(p)
             && HasContents(t, if e.inArtifacts then ARTIFACTS else REPO, p, e.mustContain, e.mustNotContain)
  }

  ghost predicate HasContents(t: Tree, base: Path, p: Path, required: seq<Text>, excluded: seq<Text>) {
    exists text :: FileAt(t, base, p) == Some(text) && Includes(text, required) && Excludes(text, excluded)
  }

  ghost predicate Includes(text: Text, needles: seq<Text>) {
    forall needle | needle in needles :: Contains(text, needle)
  }

  ghost predicate Excludes(text: Text, needles: seq<Text>) {
    forall needle | needle in needles :: !Contains(text, needle)
  }

  lemma PassedIsPresent(t: Tree, e: ExpectedArtifact)
    ensures ArtifactPassed(t, e) == Some(true) <==> Present(t, e)
  {
    hide NormalizeRelpath, Contains, FileAt;
    if NormalizeRelpath(e.path).Some? {
      var p := NormalizeRelpath(e.path).value;
      var base := if e.inArtifacts then ARTIFACTS else REPO;
      assert FileAt(t, base, p).Some? ==>
        (ArtifactPassed(t, e) == Some(true)
         <==> Includes(FileAt(t, base, p).value, e.mustContain)
              && Excludes(FileAt(t, base, p).value, e.mustNotContain));
    }
  }

  /**
   A report is ok exactly when every event passed, every declared verification command ended with the
   expected code, every expected artifact is present with the right contents, and no invariant failed.
   */
  lemma OkExactly(fx: Fixture)
    requires RunReport(fx).Some?
    ensures var end := Finish(fx).value;
      RunReport(fx).value.ok
      <==> && (forall i | 0 <= i < |end.st.toolEvents| :: end.st.toolEvents[i].passed)
           && (forall i | 0 <= i < |fx.commands| :: fx.commands[i].run.exit == ExpectedCode)
           && (forall i | 0 <= i < |fx.artifacts| :: Present(end.st.tree, fx.artifacts[i]))
           && (forall i | 0 <= i < |fx.invariants| ::
                 StatusOf(fx, end.st, end.initial, fx.invariants[i]) != StatusFailed)
  {
    hide After, Verified, VisibleFiles, ArtifactPassed, StatusOf, SetupTree, Present, ArtifactResults;
    var end := Finish(fx).value;
    var start := SetupTree(fx.setupFiles, |fx.setupFiles|).value;
    FinishTrace(fx, start);
    CommandsEnd(fx);
    NoFailureIffAllPassed(fx, start, |fx.actions|);
    ArtifactResultsAre(end.st.tree, fx.artifacts);
    hide Finish;
    var results := ArtifactResults(end.st.tree, fx.artifacts).value;
    forall i | 0 <= i < |fx.artifacts| ensures results[i] <==> Present(end.st.tree, fx.artifacts[i]) {
      PassedIsPresent(end.st.tree, fx.artifacts[i]);
    }
    assert false in results <==> exists i :: 0 <= i < |results| && !results[i];
  }

  // ----- Counters -----

  function PassedCount(events: seq<Event>, tool: Tool): nat {
    if events == [] then 0
    else
      PassedCount(events[..|events| - 1], tool)
      + if events[|events| - 1].tool == tool && events[|events| - 1].passed then 1 else 0
  }

  function TestCount(events: seq<Event>): nat {
    if events == [] then 0
    else TestCount(events[..|events| - 1]) + if TestGated()(events[|events| - 1]) then 1 else 0
  }

  /** A permitted safety gate whose name UTF-8 cannot encode: the one action that is counted and fails. */
  predicate UnencodableGate(fx: Fixture, a: Action) {
    a.tool == SafetyGate && SafetyGate in fx.allowedTools && !Encodable(GateOr(a.gate, "unnamed"))
  }

  function UnencodableGates(fx: Fixture, n: nat): nat
    requires n <= |fx.actions|
  {
    if n == 0 then 0
    else UnencodableGates(fx, n - 1) + if UnencodableGate(fx, fx.actions[n - 1]) then 1 else 0
  }

  function One(b: bool): nat {
    if b then 1 else 0
  }

  lemma PerformCounts(fx: Fixture, st: RunState, a: Action)
    ensures var Attempt(st', ending) := Perform(fx, st, a);
      && |st'.writeCounts| == |st.writeCounts| + One(a.tool == WriteFile && Succeeded(ending))
      && st'.snapshotsCreated == st.snapshotsCreated + One(a.tool == Snapshot && Succeeded(ending))
      && st'.rollbacksRestored == st.rollbacksRestored + One(a.tool == Restore && Succeeded(ending))
      && st'.retryCount == st.retryCount + One(a.tool == RetryMarker && Succeeded(ending))
      && |st'.safetyGates| == |st.safetyGates|
           + One(a.tool == SafetyGate && Succeeded(ending)) + One(UnencodableGate(fx, a))
  {
    hide WriteText, NormalizeRelpath, TakeSnapshot, RestoreSnapshot, GateOr, RunDeclaredCommand;
  }

  lemma PerformTests(fx: Fixture, st: RunState, a: Action)
    ensures var Attempt(st', ending) := Perform(fx, st, a);
      && (ending.PassedCommand? || ending.ExitMismatch? ==> a.tool == RunCommand)
      && |st'.testEvents| == |st.testEvents|
           + One((ending.PassedCommand? || ending.ExitMismatch?) && ending.gate == TEST_GATE)
  {
    hide WriteText, NormalizeRelpath, TakeSnapshot, RestoreSnapshot;
    var verification := Ascii("verification");
    assert |verification| == 12 && |TEST_GATE| == 4;
  }

  lemma NothingCounted()
    ensures TestCount([]) == 0 && forall tool: Tool :: PassedCount([], tool) == 0
  {}

  lemma CountsSnoc(events: seq<Event>, e: Event)
    ensures forall tool: Tool ::
      PassedCount(events + [e], tool) == PassedCount(events, tool) + One(e.tool == tool && e.passed)
    ensures TestCount(events + [e]) == TestCount(events) + One(TestGated()(e))
  {
    assert (events + [e])[..|events|] == events;
  }

  /** Each counter of the runner counts the passed events of its tool; test results count the test-gated events. */
  lemma {:induction false} CountersMatchTrace(fx: Fixture, start: Tree, n: nat)
    requires n <= |fx.actions|
    ensures var st := After(fx, Fresh(start), n);
      && |st.writeCounts| == PassedCount(st.toolEvents, WriteFile)
      && st.snapshotsCreated == PassedCount(st.toolEvents, Snapshot)
      && st.rollbacksRestored == PassedCount(st.toolEvents, Restore)
      && st.retryCount == PassedCount(st.toolEvents, RetryMarker)
      && |st.testEvents| == TestCount(st.toolEvents)
      && |st.safetyGates| == PassedCount(st.toolEvents, SafetyGate) + UnencodableGates(fx, n)
  {
    hide Perform, Execute, UnencodableGate, PassedCount, TestCount;
    if n == 0 {
      NothingCounted();
    } else {
      CountersMatchTrace(fx, start, n - 1);
      var before := After(fx, Fresh(start), n - 1);
      var a := fx.actions[n - 1];
      ExecuteAppends(fx, before, n - 1, a);
      PerformCounts(fx, before, a);
      PerformTests(fx, before, a);
      var ending := Perform(fx, before, a).ending;
      CountsSnoc(before.toolEvents, Event(n - 1, a.tool, Succeeded(ending), GateOf(ending)));
    }
  }

  /** The gate list matches the passed gate events exactly when every permitted gate name can be encoded. */
  lemma GatesMatchIff(fx: Fixture, start: Tree, n: nat)
    requires n <= |fx.actions|
    ensures var st := After(fx, Fresh(start), n);
      |st.safetyGates| == PassedCount(st.toolEvents, SafetyGate)
      <==> forall i | 0 <= i < n :: !UnencodableGate(fx, fx.actions[i])
  {
    CountersMatchTrace(fx, start, n);
    NoUnencodableGates(fx, n);
  }

  lemma {:induction false} NoUnencodableGates(fx: Fixture, n: nat)
    requires n <= |fx.actions|
    ensures UnencodableGates(fx, n) == 0 <==> forall i | 0 <= i < n :: !UnencodableGate(fx, fx.actions[i])
  {
    if n > 0 {
      NoUnencodableGates(fx, n - 1);
    }
  }

  /** Concretely: a lone surrogate satisfies a required gate although its action is reported as failed. */
  lemma FailedGateSatisfiesRequirement(fx: Fixture, a: Action, start: Tree)
    requires fx.actions == [a] && SafetyGate in fx.allowedTools
    requires a.tool == SafetyGate && a.gate == [0xD800]
    ensures var st := After(fx, Fresh(start), 1);
      && st.actionFailures == [Failure(0, SafetyGate, UnicodeEncodeError)]
      && StatusOf(fx, st, map[], RequiredGate([0xD800])) == StatusPassed
  {
    assert After(fx, Fresh(start), 0) == Fresh(start);
    assert !Encodable([0xD800]) by {
      assert 0xD800 in [0xD800 as CodePoint];
    }
  }

  // ----- The temporal checks -----

  ghost predicate InOrder(events: seq<Event>) {
    forall i | 0 <= i < |events| :: events[i].index == i
  }

  lemma RunsAreInOrder(fx: Fixture, start: Tree, n: nat)
    requires n <= |fx.actions|
    ensures InOrder(After(fx, Fresh(start), n).toolEvents)
  {
    OneEventPerAction(fx, start, n);
  }

  ghost predicate Occurs(events: seq<Event>, selected: Event -> bool) {
    exists k :: 0 <= k < |events| && selected(events[k])
  }

  ghost predicate SelectedBefore(events: seq<Event>, selected: Event -> bool, i: int) {
    exists k :: 0 <= k < i && k < |events| && selected(events[k])
  }

  ghost predicate SelectedAfter(events: seq<Event>, selected: Event -> bool, i: int) {
    exists k :: i < k < |events| && 0 <= k && selected(events[k])
  }

  lemma IndexesInOrder(events: seq<Event>, selected: Event -> bool)
    requires InOrder(events)
    ensures forall i :: i in IndexesOf(events, selected) <==> 0 <= i < |events| && selected(events[i])
  {
    forall i: nat ensures i in IndexesOf(events, selected) <==> i < |events| && selected(events[i]) {
      IndexesOfMembers(events, selected, i);
    }
    forall i: int | i in IndexesOf(events, selected) ensures 0 <= i {}
  }

  lemma IndexesNonempty(events: seq<Event>, selected: Event -> bool)
    requires InOrder(events)
    ensures IndexesOf(events, selected) != [] <==> Occurs(events, selected)
  {
    IndexesInOrder(events, selected);
    var s := IndexesOf(events, selected);
    if s != [] {
      assert s[0] in s;
    }
  }

  /** Comparing the two minima decides whether every selected event has an earlier event of the other kind. */
  lemma {:induction false} MinimaDecide(events: seq<Event>, early: Event -> bool, late: Event -> bool)
    requires InOrder(events)
    requires IndexesOf(events, early) != [] && IndexesOf(events, late) != []
    ensures Min(IndexesOf(events, early)) < Min(IndexesOf(events, late))
      <==> forall i | 0 <= i < |events| && late(events[i]) :: SelectedBefore(events, early, i)
  {
    IndexesInOrder(events, early);
    IndexesInOrder(events, late);
    var e, l := Min(IndexesOf(events, early)), Min(IndexesOf(events, late));
    assert late(events[l]) && early(events[e]);
    if e < l {
      forall i | 0 <= i < |events| && late(events[i]) ensures SelectedBefore(events, early, i) {
        assert i in IndexesOf(events, late);
      }
    } else {
      assert forall k | 0 <= k < |events| && early(events[k]) :: k in IndexesOf(events, early);
      assert !SelectedBefore(events, early, l);
    }
  }

  lemma MaximaDecide(events: seq<Event>, early: Event -> bool, late: Event -> bool)
    requires InOrder(events)
    requires IndexesOf(events, early) != [] && IndexesOf(events, late) != []
    ensures Max(IndexesOf(events, early)) < Max(IndexesOf(events, late))
      <==> forall i | 0 <= i < |events| && early(events[i]) :: SelectedAfter(events, late, i)
  {
    IndexesInOrder(events, early);
    IndexesInOrder(events, late);
    var e, l := Max(IndexesOf(events, early)), Max(IndexesOf(events, late));
    assert late(events[l]) && early(events[e]);
    if e < l {
      forall i | 0 <= i < |events| && early(events[i]) ensures SelectedAfter(events, late, i) {
        assert i in IndexesOf(events, early);
      }
    } else {
      assert forall k | 0 <= k < |events| && late(events[k]) :: k in IndexesOf(events, late);
      assert !SelectedAfter(events, late, e);
    }
  }

  /** `tool_order` passes exactly when the tool ran and every use of it comes after some declared prerequisite. */
  lemma ToolOrderDecides(events: seq<Event>, tool: Tool, mustFollowAny: seq<Tool>)
    requires InOrder(events)
    ensures ToolOrderStatus(events, tool, mustFollowAny) == NotApplicable <==> !Occurs(events, Uses(tool))
    ensures ToolOrderStatus(events, tool, mustFollowAny) == StatusPassed
      <==> && Occurs(events, Uses(tool)) && mustFollowAny != []
           && forall i | 0 <= i < |events| && events[i].tool == tool
                :: SelectedBefore(events, UsesAny(mustFollowAny), i)
  {
    var early, late := UsesAny(mustFollowAny), Uses(tool);
    IndexesNonempty(events, late);
    IndexesNonempty(events, early);
    assert forall i | 0 <= i < |events| :: late(events[i]) <==> events[i].tool == tool;
    if Occurs(events, late) {
      if Occurs(events, early) {
        MinimaDecide(events, early, late);
      } else {
        var k :| 0 <= k < |events| && late(events[k]);
        assert !SelectedBefore(events, early, k);
      }
    }
  }

  lemma SnapshotBeforeMutationDecides(events: seq<Event>)
    requires InOrder(events)
    ensures SnapshotBeforeMutationStatus(events) == NotApplicable <==> !Occurs(events, Uses(WriteFile))
    ensures SnapshotBeforeMutationStatus(events) == StatusPassed
      <==> && Occurs(events, Uses(WriteFile))
           && forall i | 0 <= i < |events| && events[i].tool == WriteFile
                :: SelectedBefore(events, Uses(Snapshot), i)
  {
    var early, late := Uses(Snapshot), Uses(WriteFile);
    IndexesNonempty(events, late);
    IndexesNonempty(events, early);
    assert forall i | 0 <= i < |events| :: late(events[i]) <==> events[i].tool == WriteFile;
    if Occurs(events, late) {
      if Occurs(events, early) {
        MinimaDecide(events, early, late);
      } else {
        var k :| 0 <= k < |events| && late(events[k]);
        assert !SelectedBefore(events, early, k);
      }
    }
  }

  lemma TestAfterMutationDecides(events: seq<Event>)
    requires InOrder(events)
    ensures TestAfterMutationStatus(events) == NotApplicable <==> !Occurs(events, Uses(WriteFile))
    ensures TestAfterMutationStatus(events) == StatusPassed
      <==> && Occurs(events, Uses(WriteFile))
           && forall i | 0 <= i < |events| && events[i].tool == WriteFile
                :: SelectedAfter(events, TestGated(), i)
  {
    var early, late := Uses(WriteFile), TestGated();
    IndexesNonempty(events, late);
    IndexesNonempty(events, early);
    assert forall i | 0 <= i < |events| :: early(events[i]) <==> events[i].tool == WriteFile;
    if Occurs(events, early) {
      if Occurs(events, late) {
        MaximaDecide(events, early, late);
      } else {
        var k :| 0 <= k < |events| && early(events[k]);
        assert !SelectedAfter(events, late, k);
      }
    }
  }

  // ----- The presence checks -----

  /** A tool counts as used as soon as an action names it, whether or not that action passed or was permitted. */
  lemma {:induction false} ToolFindingsDecide(fx: Fixture, start: Tree, n: nat, tool: Tool)
    requires n <= |fx.actions|
    ensures HasTool(After(fx, Fresh(start), n).toolEvents, tool)
      <==> exists i :: 0 <= i < n && fx.actions[i].tool == tool
  {
    hide After;
    OneEventPerAction(fx, start, n);
    var events := After(fx, Fresh(start), n).toolEvents;
    if i :| 0 <= i < n && fx.actions[i].tool == tool {
      assert events[i] in events;
    }
    if HasTool(events, tool) {
      var e :| e in events && e.tool == tool;
      var i :| 0 <= i < |events| && events[i] == e;
      assert fx.actions[i].tool == tool;
    }
  }

  lemma PerformGates(fx: Fixture, st: RunState, a: Action)
    ensures Perform(fx, st, a).st.safetyGates
         == if a.tool == SafetyGate && SafetyGate in fx.allowedTools
            then st.safetyGates + [GateOr(a.gate, "unnamed")] else st.safetyGates
  {
    hide WriteText, NormalizeRelpath, TakeSnapshot, RestoreSnapshot, GateOr, RunDeclaredCommand;
  }

  predicate OpensGate(fx: Fixture, a: Action, gate: Text) {
    a.tool == SafetyGate && SafetyGate in fx.allowedTools && GateOr(a.gate, "unnamed") == gate
  }

  /** `required_gate` passes exactly when a permitted gate action names the gate. */
  lemma {:induction false} GateFindingDecides(fx: Fixture, start: Tree, n: nat, gate: Text)
    requires n <= |fx.actions|
    ensures gate in After(fx, Fresh(start), n).safetyGates
      <==> exists i :: 0 <= i < n && OpensGate(fx, fx.actions[i], gate)
  {
    hide Execute, Perform, GateOr;
    if n > 0 {
      GateFindingDecides(fx, start, n - 1, gate);
      var before := After(fx, Fresh(start), n - 1);
      ExecuteAppends(fx, before, n - 1, fx.actions[n - 1]);
      PerformGates(fx, before, fx.actions[n - 1]);
    }
  }

  /** No failure is recorded exactly when every event passed. */
  lemma NoFailureIffAllPassed(fx: Fixture, start: Tree, n: nat)
    requires n <= |fx.actions|
    ensures var st := After(fx, Fresh(start), n);
      st.actionFailures == [] <==> forall i | 0 <= i < |st.toolEvents| :: st.toolEvents[i].passed
  {
    hide After;
    OneEventPerAction(fx, start, n);
    var st := After(fx, Fresh(start), n);
    IndexesNonempty(st.toolEvents, FailedEvents());
    assert forall i | 0 <= i < |st.toolEvents| :: FailedEvents()(st.toolEvents[i]) <==> !st.toolEvents[i].passed;
  }
}
