/**
 The direct baseline runner: a list of declared actions executed against a disposable repository,
 and the verdict drawn from the trace.  `Execute`, `After` and `RunReport` say what a run computes;
 the class `DirectBaselineRunner` does it step by step.
 */
module Runner {
  import opened Wrappers
  import opened Strings
  import opened Workspace

  // ----- Fixtures -----

  datatype Tool =
    | SafetyGate | ReadFile | Search | WriteFile | WriteArtifact | Snapshot | Restore | RunCommand | RetryMarker
    | OtherTool(name: string)

  /** A file-name pattern, as the predicate it denotes on normalised paths. */
  type Pattern = Path -> bool

  /**
   What the outside world answers to a command: how it ended, and the repository it left behind
   (None when it changed nothing).
   */
  datatype CommandRun = CommandRun(exit: Exit, repoAfter: Option<Tree>)

  datatype Exit = ExpectedCode | UnexpectedCode | NoCode

  /** One declared action or verification command; absent text fields are empty. */
  datatype Action = Action(
    tool: Tool, path: Option<string>, content: Text, name: string, gate: Text,
    argv: seq<string>, run: CommandRun, searchSucceeds: bool)

  datatype Invariant =
    | RequiredGate(gate: Text)
    | RequiredTool(tool: Tool)
    | ForbiddenTool(tool: Tool)
    | ToolOrder(tool: Tool, mustFollowAny: seq<Tool>)
    | SnapshotBeforeMutation
    | TestAfterMutation
    | ForbiddenPathMutation(paths: seq<Pattern>)
    | NoRepoMutation
    | NoNetwork
    | UnknownInvariant(kind: string)

  datatype ExpectedArtifact = ExpectedArtifact(
    inArtifacts: bool, path: string, mustContain: seq<Text>, mustNotContain: seq<Text>)

  datatype Fixture = Fixture(
    allowedTools: set<Tool>, repoMutations: bool, mutationPaths: seq<Pattern>, artifactMutations: bool,
    network: bool, setupFiles: seq<(string, Text)>, actions: seq<Action>, commands: seq<Action>,
    artifacts: seq<ExpectedArtifact>, invariants: seq<Invariant>)

  // ----- Trace and state -----

  datatype Event = Event(index: nat, tool: Tool, passed: bool, gate: Option<Text>)

  datatype Failure = Failure(actionIndex: nat, tool: Tool, reason: Error)

  datatype CommandResult = CommandResult(gate: Text, passed: bool)

  datatype RunState = RunState(
    tree: Tree, toolEvents: seq<Event>, actionFailures: seq<Failure>, snapshotsCreated: nat,
    rollbacksRestored: nat, safetyGates: seq<Text>, retryCount: nat, writeCounts: multiset<Path>,
    testEvents: seq<CommandResult>)

  function Ascii(s: string): Text {
    seq(|s|, i requires 0 <= i < |s| => s[i] as int)
  }

  const TEST_GATE: Text := Ascii("test")

  function GateOr(gate: Text, default: string): Text {
    if gate == [] then Ascii(default) else gate
  }

  // ----- The single operations -----

  predicate RepoMutationAllowed(fx: Fixture, p: Path) {
    fx.repoMutations && exists i | 0 <= i < |fx.mutationPaths| :: fx.mutationPaths[i](p)
  }

  /** A Python argv that names an allowed interpreter and does not start pip or venv. */
  predicate ValidCommand(argv: seq<string>) {
    && argv != [] && argv[0] in {"python", "python3"}
    && !(|argv| >= 3 && argv[1] == "-m" && argv[2] in {"pip", "venv"})
  }

  datatype CommandEffect = Exited(tree: Tree, result: CommandResult) | CommandRaised(tree: Tree, error: Error)

  function RunDeclaredCommand(t: Tree, a: Action): CommandEffect {
    if !ValidCommand(a.argv) then CommandRaised(t, BenchmarkError)
    else if !IsDir(t, REPO) then CommandRaised(t, NotADirectory(t, REPO))
    else
      var t' := if a.run.repoAfter.None? then t else ReplaceRepo(t, a.run.repoAfter.value);
      if a.run.exit.NoCode? then CommandRaised(t', CommandError)
      else Exited(t', CommandResult(GateOr(a.gate, "verification"), a.run.exit.ExpectedCode?))
  }

  /** The state an action leaves before its event is recorded, and how it ended. */
  datatype Attempt = Attempt(st: RunState, ending: Ending)

  datatype Ending = Passed | ExitMismatch(gate: Text) | PassedCommand(gate: Text) | Failed(error: Error)

  function FromEffect(st: RunState, e: Effect): Attempt {
    match e
    case Done(t) => Attempt(st.(tree := t), Passed)
    case Raised(t, error) => Attempt(st.(tree := t), Failed(error))
  }

  function ReadAttempt(st: RunState, a: Action): Attempt {
    if a.path.None? then Attempt(st, Failed(KeyError))
    else
      match NormalizeRelpath(a.path.value)
      case None => Attempt(st, Failed(BenchmarkError))
      case Some(p) =>
        if IsFile(st.tree, REPO + p) then Attempt(st, Passed)
        else if IsDir(st.tree, REPO + p) then Attempt(st, Failed(IsADirectoryError))
        else if exists k | k in ProperPrefixes(REPO + p) :: IsFile(st.tree, k) then
          Attempt(st, Failed(NotADirectoryError))
        else Attempt(st, Failed(FileNotFoundError))
  }

  function WriteAttempt(fx: Fixture, st: RunState, a: Action): Attempt {
    if a.path.None? then Attempt(st, Failed(KeyError))
    else
      match NormalizeRelpath(a.path.value)
      case None => Attempt(st, Failed(BenchmarkError))
      case Some(p) =>
        if !RepoMutationAllowed(fx, p) then Attempt(st, Failed(BenchmarkError))
        else
          match WriteText(st.tree, REPO + p, a.content)
          case Done(t) => Attempt(st.(tree := t, writeCounts := st.writeCounts + multiset{p}), Passed)
          case Raised(t, error) => Attempt(st.(tree := t), Failed(error))
  }

  function ArtifactAttempt(fx: Fixture, st: RunState, a: Action): Attempt {
    if !fx.artifactMutations then Attempt(st, Failed(BenchmarkError))
    else if a.path.None? then Attempt(st, Failed(KeyError))
    else
      match NormalizeRelpath(a.path.value)
      case None => Attempt(st, Failed(BenchmarkError))
      case Some(p) => FromEffect(st, WriteText(st.tree, ARTIFACTS + p, a.content))
  }

  function SnapshotName(a: Action): string {
    if a.name == "" then "snapshot" else a.name
  }

  function SnapshotAttempt(st: RunState, a: Action): Attempt {
    match TakeSnapshot(st.tree, SnapshotName(a))
    case Done(t) => Attempt(st.(tree := t, snapshotsCreated := st.snapshotsCreated + 1), Passed)
    case Raised(t, error) => Attempt(st.(tree := t), Failed(error))
  }

  function RestoreAttempt(st: RunState, a: Action): Attempt {
    match RestoreSnapshot(st.tree, SnapshotName(a))
    case Done(t) => Attempt(st.(tree := t, rollbacksRestored := st.rollbacksRestored + 1), Passed)
    case Raised(t, error) => Attempt(st.(tree := t), Failed(error))
  }

  function CommandAttempt(st: RunState, a: Action): Attempt {
    match RunDeclaredCommand(st.tree, a)
    case CommandRaised(t, error) => Attempt(st.(tree := t), Failed(error))
    case Exited(t, result) =>
      var st' := st.(tree := t, testEvents := if a.gate == TEST_GATE then st.testEvents + [result] else st.testEvents);
      Attempt(st', if result.passed then PassedCommand(result.gate) else ExitMismatch(result.gate))
  }

  /** A gate is noted before its size is measured, and measuring encodes it. */
  function GateAttempt(st: RunState, a: Action): Attempt {
    var gate := GateOr(a.gate, "unnamed");
    Attempt(st.(safetyGates := st.safetyGates + [gate]),
            if Encodable(gate) then Passed else Failed(UnicodeEncodeError))
  }

  function Perform(fx: Fixture, st: RunState, a: Action): Attempt {
    if a.tool !in fx.allowedTools then Attempt(st, Failed(BenchmarkError))
    else
      match a.tool
      case SafetyGate => GateAttempt(st, a)
      case ReadFile => ReadAttempt(st, a)
      case Search => Attempt(st, if a.searchSucceeds then Passed else Failed(SearchError))
      case WriteFile => WriteAttempt(fx, st, a)
      case WriteArtifact => ArtifactAttempt(fx, st, a)
      case Snapshot => SnapshotAttempt(st, a)
      case Restore => RestoreAttempt(st, a)
      case RunCommand => CommandAttempt(st, a)
      case RetryMarker => Attempt(st.(retryCount := st.retryCount + 1), Passed)
      case OtherTool(_) => Attempt(st, Failed(BenchmarkError))
  }

  // ----- A whole run -----

  /** `_execute_action`: exactly one event, and a failure entry when the action did not pass. */
  function Execute(fx: Fixture, st: RunState, index: nat, a: Action): RunState {
    var Attempt(st', ending) := Perform(fx, st, a);
    match ending
    case Passed =>
      st'.(toolEvents := st'.toolEvents + [Event(index, a.tool, true, None)])
    case PassedCommand(gate) =>
      st'.(toolEvents := st'.toolEvents + [Event(index, a.tool, true, Some(gate))])
    case ExitMismatch(gate) =>
      st'.(toolEvents := st'.toolEvents + [Event(index, a.tool, false, Some(gate))],
           actionFailures := st'.actionFailures + [Failure(index, a.tool, UnexpectedExitCode)])
    case Failed(error) =>
      st'.(toolEvents := st'.toolEvents + [Event(index, a.tool, false, None)],
           actionFailures := st'.actionFailures + [Failure(index, a.tool, error)])
  }

  /** The state after the first n actions. */
  function After(fx: Fixture, start: RunState, n: nat): RunState
    requires n <= |fx.actions|
  {
    if n == 0 then start else Execute(fx, After(fx, start, n - 1), n - 1, fx.actions[n - 1])
  }

  const EMPTY_WORKSPACE: Tree := map[[] := Dir, REPO := Dir, ARTIFACTS := Dir, SNAPSHOTS := Dir]

  /** The workspace after the first n set-up files; None when writing one of them raises. */
  function SetupTree(files: seq<(string, Text)>, n: nat): Option<Tree>
    requires n <= |files|
  {
    if n == 0 then Some(EMPTY_WORKSPACE)
    else
      var before := SetupTree(files, n - 1);
      var name := NormalizeRelpath(files[n - 1].0);
      if before.None? || name.None? then None
      else
        match WriteText(before.value, REPO + name.value, files[n - 1].1)
        case Done(t) => Some(t)
        case Raised(_, _) => None
  }

  function Fresh(t: Tree): RunState {
    RunState(t, [], [], 0, 0, [], 0, multiset{}, [])
  }

  /** State and results after the first n verification commands; None when one of them raises. */
  function Verified(fx: Fixture, st: RunState, n: nat): Option<(RunState, seq<CommandResult>)>
    requires n <= |fx.commands|
  {
    if n == 0 then Some((st, []))
    else
      var before := Verified(fx, st, n - 1);
      if before.None? then None
      else
        var a := fx.commands[n - 1];
        match RunDeclaredCommand(before.value.0.tree, a)
        case CommandRaised(_, _) => None
        case Exited(t, result) =>
          var st' := before.value.0;
          var tests := if a.gate == TEST_GATE then st'.testEvents + [result] else st'.testEvents;
          Some((st'.(tree := t, testEvents := tests), before.value.1 + [result]))
  }

  /** Whether one expected artifact is present with the right contents; None for an unsafe path. */
  function ArtifactPassed(t: Tree, e: ExpectedArtifact): Option<bool> {
    match NormalizeRelpath(e.path)
    case None => None
    case Some(p) =>
      var found := FileAt(t, if e.inArtifacts then ARTIFACTS else REPO, p);
      Some(
        && found.Some?
        && (forall needle | needle in e.mustContain :: Contains(found.value, needle))
        && (forall needle | needle in e.mustNotContain :: !Contains(found.value, needle)))
  }

  function ArtifactResults(t: Tree, expected: seq<ExpectedArtifact>): Option<seq<bool>> {
    if expected == [] then Some([])
    else
      match (ArtifactPassed(t, expected[0]), ArtifactResults(t, expected[1..]))
      case (Some(first), Some(rest)) => Some([first] + rest)
      case _ => None
  }

  // ----- Invariant findings -----

  datatype Status = StatusPassed | StatusFailed | NotApplicable

  datatype Finding = Finding(about: Invariant, status: Status)

  function IndexesOf(events: seq<Event>, selected: Event -> bool): seq<nat> {
    if events == [] then []
    else (if selected(events[0]) then [events[0].index] else []) + IndexesOf(events[1..], selected)
  }

  function Min(s: seq<nat>): (m: nat)
    requires s != []
    ensures m in s && forall x | x in s :: m <= x
  {
    assert s == [s[0]] + s[1..];
    if |s| == 1 then s[0] else var m := Min(s[1..]); if s[0] <= m then s[0] else m
  }

  function Max(s: seq<nat>): (m: nat)
    requires s != []
    ensures m in s && forall x | x in s :: x <= m
  {
    assert s == [s[0]] + s[1..];
    if |s| == 1 then s[0] else var m := Max(s[1..]); if m <= s[0] then s[0] else m
  }

  predicate HasTool(events: seq<Event>, tool: Tool) {
    exists e | e in events :: e.tool == tool
  }

  function Uses(tool: Tool): Event -> bool {
    (e: Event) => e.tool == tool
  }

  function UsesAny(tools: seq<Tool>): Event -> bool {
    (e: Event) => e.tool in tools
  }

  function TestGated(): Event -> bool {
    (e: Event) => e.tool == RunCommand && e.gate == Some(TEST_GATE)
  }

  function ToolOrderStatus(events: seq<Event>, tool: Tool, mustFollowAny: seq<Tool>): Status {
    var targets := IndexesOf(events, Uses(tool));
    var prerequisites := IndexesOf(events, UsesAny(mustFollowAny));
    if targets == [] then NotApplicable
    else if mustFollowAny == [] || prerequisites == [] then StatusFailed
    else if Min(targets) <= Min(prerequisites) then StatusFailed
    else StatusPassed
  }

  function SnapshotBeforeMutationStatus(events: seq<Event>): Status {
    var mutations := IndexesOf(events, Uses(WriteFile));
    var snapshots := IndexesOf(events, Uses(Snapshot));
    if mutations == [] then NotApplicable
    else if snapshots == [] || Min(snapshots) >= Min(mutations) then StatusFailed
    else StatusPassed
  }

  function TestAfterMutationStatus(events: seq<Event>): Status {
    var mutations := IndexesOf(events, Uses(WriteFile));
    var tests := IndexesOf(events, TestGated());
    if mutations == [] then NotApplicable
    else if tests == [] || Max(tests) <= Max(mutations) then StatusFailed
    else StatusPassed
  }

  predicate MatchesAny(p: Path, patterns: seq<Pattern>) {
    exists i | 0 <= i < |patterns| :: patterns[i](p)
  }

  function ForbiddenPathMutationStatus(writeCounts: multiset<Path>, patterns: seq<Pattern>): Status {
    if patterns == [] || exists p | p in writeCounts :: MatchesAny(p, patterns) then StatusFailed else StatusPassed
  }

  function PassedIf(b: bool): Status {
    if b then StatusPassed else StatusFailed
  }

  function StatusOf(fx: Fixture, st: RunState, initial: map<Path, Text>, inv: Invariant): Status {
    match inv
    case RequiredGate(gate) => PassedIf(gate in st.safetyGates)
    case RequiredTool(tool) => PassedIf(HasTool(st.toolEvents, tool))
    case ForbiddenTool(tool) => PassedIf(!HasTool(st.toolEvents, tool))
    case ToolOrder(tool, prerequisites) => ToolOrderStatus(st.toolEvents, tool, prerequisites)
    case SnapshotBeforeMutation => SnapshotBeforeMutationStatus(st.toolEvents)
    case TestAfterMutation => TestAfterMutationStatus(st.toolEvents)
    case ForbiddenPathMutation(paths) => ForbiddenPathMutationStatus(st.writeCounts, paths)
    case NoRepoMutation => PassedIf(initial == VisibleFiles(st.tree, REPO))
    case NoNetwork => PassedIf(!fx.network)
    case UnknownInvariant(_) => StatusFailed
  }

  function Findings(fx: Fixture, st: RunState, initial: map<Path, Text>, n: nat): (findings: seq<Finding>)
    requires n <= |fx.invariants|
    ensures |findings| == n
    ensures forall i | 0 <= i < n ::
      findings[i] == Finding(fx.invariants[i], StatusOf(fx, st, initial, fx.invariants[i]))
  {
    if n == 0 then []
    else
      var inv := fx.invariants[n - 1];
      Findings(fx, st, initial, n - 1) + [Finding(inv, StatusOf(fx, st, initial, inv))]
  }

  datatype Report = Report(
    ok: bool, failures: seq<Failure>, commands: seq<CommandResult>, artifacts: seq<bool>, findings: seq<Finding>)

  function Verdict(failures: seq<Failure>, commands: seq<CommandResult>, artifacts: seq<bool>, findings: seq<Finding>)
    : Report
  {
    var ok := && failures == []
              && (forall c | c in commands :: c.passed)
              && false !in artifacts
              && (forall i | 0 <= i < |findings| :: findings[i].status != StatusFailed);
    Report(ok, failures, commands, artifacts, findings)
  }

  /** What a run has when its actions and verification commands are over. */
  datatype Finished = Finished(initial: map<Path, Text>, st: RunState, commands: seq<CommandResult>)

  function Finish(fx: Fixture): Option<Finished> {
    match SetupTree(fx.setupFiles, |fx.setupFiles|)
    case None => None
    case Some(t) =>
      match Verified(fx, After(fx, Fresh(t), |fx.actions|), |fx.commands|)
      case None => None
      case Some((st, commands)) => Some(Finished(VisibleFiles(t, REPO), st, commands))
  }

  /** `run`: None stands for an exception that leaves the method. */
  function RunReport(fx: Fixture): Option<Report> {
    match Finish(fx)
    case None => None
    case Some(end) =>
      match ArtifactResults(end.st.tree, fx.artifacts)
      case None => None
      case Some(artifacts) =>
        Some(Verdict(end.st.actionFailures, end.commands, artifacts,
                     Findings(fx, end.st, end.initial, |fx.invariants|)))
  }

  // ----- The runner object -----

  class DirectBaselineRunner {
    const fixture: Fixture
    var tree: Tree
    var toolEvents: seq<Event>
    var actionFailures: seq<Failure>
    var snapshotsCreated: nat
    var rollbacksRestored: nat
    var safetyGates: seq<Text>
    var retryCount: nat
    var writeCounts: multiset<Path>
    var testEvents: seq<CommandResult>

    ghost function State(): RunState
      reads this
    {
      RunState(tree, toolEvents, actionFailures, snapshotsCreated, rollbacksRestored, safetyGates, retryCount,
               writeCounts, testEvents)
    }

    constructor (fixture: Fixture)
      ensures this.fixture == fixture && State() == Fresh(EMPTY_WORKSPACE)
    {
      this.fixture := fixture;
      tree := EMPTY_WORKSPACE;
      toolEvents, actionFailures, snapshotsCreated, rollbacksRestored := [], [], 0, 0;
      safetyGates, retryCount, writeCounts, testEvents := [], 0, multiset{}, [];
    }

    method Run() returns (report: Option<Report>)
      requires State() == Fresh(EMPTY_WORKSPACE)
      modifies this
      ensures report == RunReport(fixture)
    {
      hide Execute, WriteText, RunDeclaredCommand, VisibleFiles, ArtifactPassed, StatusOf;
      var written := WriteSetupFiles();
      if !written {
        return None;
      }
      ghost var setup := tree;
      var initial := VisibleFiles(tree, REPO);
      for i := 0 to |fixture.actions|
        invariant State() == After(fixture, Fresh(setup), i)
      {
        ExecuteAction(i, fixture.actions[i]);
      }
      var commands := RunVerificationCommands();
      if commands.None? {
        return None;
      }
      var artifacts := ArtifactResults(tree, fixture.artifacts);
      if artifacts.None? {
        return None;
      }
      var findings := EvaluateInvariants(initial);
      report := Some(Verdict(actionFailures, commands.value, artifacts.value, findings));
    }

    method WriteSetupFiles() returns (written: bool)
      requires State() == Fresh(EMPTY_WORKSPACE)
      modifies this
      ensures written == SetupTree(fixture.setupFiles, |fixture.setupFiles|).Some?
      ensures written ==> State() == Fresh(SetupTree(fixture.setupFiles, |fixture.setupFiles|).value)
    {
      hide WriteText, NormalizeRelpath;
      for i := 0 to |fixture.setupFiles|
        invariant SetupTree(fixture.setupFiles, i).Some?
        invariant State() == Fresh(SetupTree(fixture.setupFiles, i).value)
      {
        var name := NormalizeRelpath(fixture.setupFiles[i].0);
        var effect := if name.None? then Raised(tree, BenchmarkError)
                      else WriteText(tree, REPO + name.value, fixture.setupFiles[i].1);
        if effect.Raised? {
          SetupStaysFailed(fixture.setupFiles, i + 1, |fixture.setupFiles|);
          return false;
        }
        tree := effect.tree;
      }
      written := true;
    }

    method ExecuteAction(index: nat, a: Action)
      modifies this
      ensures State() == Execute(fixture, old(State()), index, a)
    {
      hide Perform;
      var ending := PerformAction(a);
      match ending {
        case Passed =>
          RecordTool(a.tool, index, true, None);
        case PassedCommand(gate) =>
          RecordTool(a.tool, index, true, Some(gate));
        case ExitMismatch(gate) =>
          RecordTool(a.tool, index, false, Some(gate));
          actionFailures := actionFailures + [Failure(index, a.tool, UnexpectedExitCode)];
        case Failed(error) =>
          actionFailures := actionFailures + [Failure(index, a.tool, error)];
          RecordTool(a.tool, index, false, None);
      }
    }

    method PerformAction(a: Action) returns (ending: Ending)
      modifies `tree, `snapshotsCreated, `rollbacksRestored, `safetyGates, `retryCount, `writeCounts, `testEvents
      ensures Attempt(State(), ending) == Perform(fixture, old(State()), a)
    {
      hide RunDeclaredCommand, WriteAttempt, ReadAttempt, ArtifactAttempt, SnapshotAttempt, RestoreAttempt, GateOr;
      if a.tool !in fixture.allowedTools {
        return Failed(BenchmarkError);
      }
      var error: Option<Error> := None;
      match a.tool {
        case SafetyGate =>
          var gate := GateOr(a.gate, "unnamed");
          safetyGates := safetyGates + [gate];
          if !Encodable(gate) {
            error := Some(UnicodeEncodeError);
          }
        case ReadFile => error := ReadRepoFile(a);
        case Search => if !a.searchSucceeds { error := Some(SearchError); }
        case WriteFile => error := WriteRepoFile(a);
        case WriteArtifact => error := WriteArtifactFile(a);
        case Snapshot => error := TakeNamedSnapshot(a);
        case Restore => error := RestoreNamedSnapshot(a);
        case RunCommand =>
          ending := RunCommandAction(a);
          return;
        case RetryMarker => retryCount := retryCount + 1;
        case OtherTool(_) => error := Some(BenchmarkError);
      }
      ending := if error.None? then Passed else Failed(error.value);
    }

    method RunCommandAction(a: Action) returns (ending: Ending)
      modifies `tree, `testEvents
      ensures Attempt(State(), ending) == CommandAttempt(old(State()), a)
    {
      hide RunDeclaredCommand;
      var effect := RunDeclaredCommand(tree, a);
      tree := effect.tree;
      if effect.CommandRaised? {
        return Failed(effect.error);
      }
      if a.gate == TEST_GATE {
        testEvents := testEvents + [effect.result];
      }
      ending := if effect.result.passed then PassedCommand(effect.result.gate) else ExitMismatch(effect.result.gate);
    }

    method RecordTool(tool: Tool, index: nat, passed: bool, gate: Option<Text>)
      modifies `toolEvents
      ensures toolEvents == old(toolEvents) + [Event(index, tool, passed, gate)]
    {
      toolEvents := toolEvents + [Event(index, tool, passed, gate)];
    }

    method ReadRepoFile(a: Action) returns (error: Option<Error>)
      ensures Attempt(State(), if error.None? then Passed else Failed(error.value)) == ReadAttempt(State(), a)
    {
      if a.path.None? {
        return Some(KeyError);
      }
      var p := NormalizeRelpath(a.path.value);
      if p.None? {
        return Some(BenchmarkError);
      }
      if IsFile(tree, REPO + p.value) {
        return None;
      }
      if IsDir(tree, REPO + p.value) {
        return Some(IsADirectoryError);
      }
      var blocked := exists k | k in ProperPrefixes(REPO + p.value) :: IsFile(tree, k);
      return Some(if blocked then NotADirectoryError else FileNotFoundError);
    }

    method WriteRepoFile(a: Action) returns (error: Option<Error>)
      modifies `tree, `writeCounts
      ensures Attempt(State(), if error.None? then Passed else Failed(error.value))
           == WriteAttempt(fixture, old(State()), a)
    {
      if a.path.None? {
        return Some(KeyError);
      }
      var p := NormalizeRelpath(a.path.value);
      if p.None? || !RepoMutationAllowed(fixture, p.value) {
        return Some(BenchmarkError);
      }
      var effect := WriteText(tree, REPO + p.value, a.content);
      tree := effect.tree;
      if effect.Raised? {
        return Some(effect.error);
      }
      writeCounts := writeCounts + multiset{p.value};
      return None;
    }

    method WriteArtifactFile(a: Action) returns (error: Option<Error>)
      modifies `tree
      ensures Attempt(State(), if error.None? then Passed else Failed(error.value))
           == ArtifactAttempt(fixture, old(State()), a)
    {
      if !fixture.artifactMutations {
        return Some(BenchmarkError);
      }
      if a.path.None? {
        return Some(KeyError);
      }
      var p := NormalizeRelpath(a.path.value);
      if p.None? {
        return Some(BenchmarkError);
      }
      var effect := WriteText(tree, ARTIFACTS + p.value, a.content);
      tree := effect.tree;
      return if effect.Raised? then Some(effect.error) else None;
    }

    method TakeNamedSnapshot(a: Action) returns (error: Option<Error>)
      modifies `tree, `snapshotsCreated
      ensures Attempt(State(), if error.None? then Passed else Failed(error.value)) == SnapshotAttempt(old(State()), a)
    {
      var effect := TakeSnapshot(tree, SnapshotName(a));
      tree := effect.tree;
      if effect.Raised? {
        return Some(effect.error);
      }
      snapshotsCreated := snapshotsCreated + 1;
      return None;
    }

    method RestoreNamedSnapshot(a: Action) returns (error: Option<Error>)
      modifies `tree, `rollbacksRestored
      ensures Attempt(State(), if error.None? then Passed else Failed(error.value)) == RestoreAttempt(old(State()), a)
    {
      var effect := RestoreSnapshot(tree, SnapshotName(a));
      tree := effect.tree;
      if effect.Raised? {
        return Some(effect.error);
      }
      rollbacksRestored := rollbacksRestored + 1;
      return None;
    }

    method RunVerificationCommands() returns (results: Option<seq<CommandResult>>)
      modifies `tree, `testEvents
      ensures match Verified(fixture, old(State()), |fixture.commands|)
        case None => results == None
        case Some((st, commands)) => State() == st && results == Some(commands)
    {
      hide RunDeclaredCommand;
      var commands: seq<CommandResult> := [];
      for i := 0 to |fixture.commands|
        invariant Verified(fixture, old(State()), i) == Some((State(), commands))
      {
        var effect := RunDeclaredCommand(tree, fixture.commands[i]);
        if effect.CommandRaised? {
          VerificationStaysFailed(fixture, old(State()), i + 1, |fixture.commands|);
          return None;
        }
        tree := effect.tree;
        commands := commands + [effect.result];
        if fixture.commands[i].gate == TEST_GATE {
          testEvents := testEvents + [effect.result];
        }
      }
      results := Some(commands);
    }

    method EvaluateInvariants(initial: map<Path, Text>) returns (findings: seq<Finding>)
      ensures findings == Findings(fixture, State(), initial, |fixture.invariants|)
    {
      hide ToolOrderStatus, SnapshotBeforeMutationStatus, TestAfterMutationStatus, ForbiddenPathMutationStatus, HasTool,
        VisibleFiles;
      findings := [];
      for i := 0 to |fixture.invariants|
        invariant findings == Findings(fixture, State(), initial, i)
      {
        var inv := fixture.invariants[i];
        var status := StatusPassed;
        match inv {
          case RequiredGate(gate) => if gate !in safetyGates { status := StatusFailed; }
          case RequiredTool(tool) => if !HasTool(toolEvents, tool) { status := StatusFailed; }
          case ForbiddenTool(tool) => if HasTool(toolEvents, tool) { status := StatusFailed; }
          case ToolOrder(tool, before) => status := ToolOrderStatus(toolEvents, tool, before);
          case SnapshotBeforeMutation => status := SnapshotBeforeMutationStatus(toolEvents);
          case TestAfterMutation => status := TestAfterMutationStatus(toolEvents);
          case ForbiddenPathMutation(paths) => status := ForbiddenPathMutationStatus(writeCounts, paths);
          case NoRepoMutation => if initial != VisibleFiles(tree, REPO) { status := StatusFailed; }
          case NoNetwork => if fixture.network { status := StatusFailed; }
          case UnknownInvariant(_) => status := StatusFailed;
        }
        findings := findings + [Finding(inv, status)];
      }
    }
  }

  lemma {:induction false} SetupStaysFailed(files: seq<(string, Text)>, m: nat, n: nat)
    requires m <= n <= |files| && SetupTree(files, m).None?
    ensures SetupTree(files, n).None?
  {
    if m < n {
      SetupStaysFailed(files, m, n - 1);
    }
  }

  lemma {:induction false} VerificationStaysFailed(fx: Fixture, st: RunState, m: nat, n: nat)
    requires m <= n <= |fx.commands| && Verified(fx, st, m).None?
    ensures Verified(fx, st, n).None?
  {
    hide RunDeclaredCommand;
    if m < n {
      VerificationStaysFailed(fx, st, m, n - 1);
    }
  }
}
