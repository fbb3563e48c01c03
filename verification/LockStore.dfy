/** The refresh/check protocol over the requirement files, the lock files and the manifest. */
module LockStore {
  import opened Wrappers
  import opened Strings
  import opened LockText

  // ----- Sections, files and manifest -----

  datatype LockSection = LockSection(name: string, inputPath: string, lockPath: string)

  const SECTIONS: seq<LockSection> := [
    LockSection("runtime", "source/requirements.txt", "source/requirements.lock"),
    LockSection("embedding", "source/requirements-embedding.txt", "source/requirements-embedding.lock"),
    LockSection("coding-tools", "source/requirements-coding-tools.txt", "source/requirements-coding-tools.lock")]

  datatype ManifestEntry =
    | Entry(input: string, lock: string, inputDigest: string, lockDigest: string, contentDigest: string,
            packageCount: nat, hashCount: nat)
    | NotAnObject

  datatype Manifest = NoManifest | InvalidManifest | Manifest(sections: map<string, ManifestEntry>)

  datatype Store = Store(files: map<string, string>, manifest: Manifest)

  /**
   The outside of a refresh: the digest function, what the resolver answers for a section, the lock
   schema, and the comment texts of a generated header around the four that `check` looks for.
   */
  datatype Outside = Outside(
    sha: string -> string, resolve: LockSection -> Option<seq<LockRow>>, schema: string,
    before: LockSection -> seq<string>, after: LockSection -> seq<string>)

  function Header(env: Outside, s: LockSection, inputDigest: string): LockHeader {
    LockHeader(env.before(s), env.schema, s.name, s.inputPath, inputDigest, env.after(s))
  }

  // ----- check -----

  datatype CheckError =
    | MissingEntry | InputPathMismatch | LockPathMismatch | InputChanged | LockChanged | ContentMismatch
    | MissingMarker(n: nat) | Unparsable(error: LockError) | LockFileMissing

  function If(condition: bool, e: CheckError): seq<CheckError> {
    if condition then [e] else []
  }

  function DigestOf(env: Outside, files: map<string, string>, path: string): string {
    if path in files then env.sha(files[path]) else "missing"
  }

  /** The errors that `check` reports for one section. */
  function CheckSection(env: Outside, store: Store, s: LockSection): seq<CheckError>
    requires store.manifest.Manifest?
  {
    if s.name !in store.manifest.sections || store.manifest.sections[s.name].NotAnObject? then [MissingEntry]
    else
      var entry := store.manifest.sections[s.name];
      If(entry.input != s.inputPath, InputPathMismatch)
      + If(entry.lock != s.lockPath, LockPathMismatch)
      + If(DigestOf(env, store.files, s.inputPath) != entry.inputDigest, InputChanged)
      + If(DigestOf(env, store.files, s.lockPath) != entry.lockDigest, LockChanged)
      + if s.lockPath !in store.files then [LockFileMissing]
        else LockErrors(env, store.files[s.lockPath], s, entry)
  }

  function LockErrors(env: Outside, text: string, s: LockSection, entry: ManifestEntry): seq<CheckError>
    requires entry.Entry?
  {
    match Validate(env.sha, s.name, text)
    case Err(e) => [Unparsable(e)]
    case Ok(info) =>
      If(info.contentDigest != entry.contentDigest, ContentMismatch)
      + If(!Contains(text, SchemaMarker(env.schema)), MissingMarker(0))
      + If(!Contains(text, SectionMarker(s.name)), MissingMarker(1))
      + If(!Contains(text, InputMarker(s.inputPath)), MissingMarker(2))
      + If(!Contains(text, InputDigestMarker(entry.inputDigest)), MissingMarker(3))
  }

  // ----- refresh -----

  datatype RefreshError = MissingInput | ResolveFailed | BadLock(error: LockError) | BadManifest

  datatype Progress = Progress(files: map<string, string>, entries: map<string, ManifestEntry>)

  /** One section of a refresh; the lock file is written only after its text has been parsed. */
  function RefreshSection(env: Outside, p: Progress, s: LockSection): Result<Progress, RefreshError> {
    if s.inputPath !in p.files then Err(MissingInput)
    else
      match env.resolve(s)
      case None => Err(ResolveFailed)
      case Some(rows) =>
        var inputDigest := env.sha(p.files[s.inputPath]);
        var text := Format(Header(env, s, inputDigest), rows);
        match Validate(env.sha, s.name, text)
        case Err(e) => Err(BadLock(e))
        case Ok(info) =>
          Ok(Progress(
            p.files[s.lockPath := text],
            p.entries[s.name := Entry(s.inputPath, s.lockPath, inputDigest, env.sha(text), info.contentDigest,
                                      info.packageCount, info.hashCount)]))
  }

  /** Progress after the first n sections, and the error that stopped it, if any. */
  function RefreshSections(env: Outside, p: Progress, sections: seq<LockSection>, n: nat)
    : (Progress, Option<RefreshError>)
    requires n <= |sections|
  {
    if n == 0 then (p, None)
    else
      var (before, error) := RefreshSections(env, p, sections, n - 1);
      if error.Some? then (before, error)
      else
        match RefreshSection(env, before, sections[n - 1])
        case Err(e) => (before, Some(e))
        case Ok(next) => (next, None)
  }

  function SetOf(sections: seq<LockSection>): set<LockSection> {
    set s | s in sections
  }

  /** The new manifest: a partial refresh keeps the entries of the sections it did not touch. */
  function MergedManifest(existing: Manifest, sections: seq<LockSection>, entries: map<string, ManifestEntry>)
    : Result<Manifest, RefreshError>
  {
    if SetOf(sections) != SetOf(SECTIONS) && !existing.NoManifest? then
      if existing.InvalidManifest? then Err(BadManifest) else Ok(Manifest(existing.sections + entries))
    else Ok(Manifest(entries))
  }

  /** The store a refresh leaves, and whether it raised. */
  function Refresh(env: Outside, store: Store, sections: seq<LockSection>): (Store, Option<RefreshError>) {
    var (done, error) := RefreshSections(env, Progress(store.files, map[]), sections, |sections|);
    if error.Some? then (Store(done.files, store.manifest), error)
    else
      match MergedManifest(store.manifest, sections, done.entries)
      case Err(e) => (Store(done.files, store.manifest), Some(e))
      case Ok(m) => (Store(done.files, m), None)
  }

  class LockProject {
    const env: Outside
    var files: map<string, string>
    var manifest: Manifest

    constructor (env: Outside, files: map<string, string>, manifest: Manifest)
      ensures this.env == env && this.files == files && this.manifest == manifest
    {
      this.env, this.files, this.manifest := env, files, manifest;
    }

    ghost function State(): Store
      reads this
    {
      Store(files, manifest)
    }

    /** `refresh` up to the final check; an error stands for the exception. */
    method RefreshLocks(sections: seq<LockSection>) returns (error: Option<RefreshError>)
      modifies this
      ensures (State(), error) == Refresh(env, old(State()), sections)
    {
      hide Validate, Format, Header, SetOf;
      var entries: map<string, ManifestEntry> := map[];
      for i := 0 to |sections|
        invariant manifest == old(manifest)
        invariant RefreshSections(env, Progress(old(files), map[]), sections, i) == (Progress(files, entries), None)
      {
        var s := sections[i];
        var step := ResolveAndFormat(s);
        if step.Err? {
          StoppedStays(env, Progress(old(files), map[]), sections, i + 1, |sections|);
          return Some(step.error);
        }
        files := files[s.lockPath := step.value.0];
        entries := entries[s.name := step.value.1];
      }
      if SetOf(sections) != SetOf(SECTIONS) && !manifest.NoManifest? {
        if manifest.InvalidManifest? {
          return Some(BadManifest);
        }
        entries := manifest.sections + entries;
      }
      manifest := Manifest(entries);
      return None;
    }

    /** The checked lock text of a section and its manifest entry. */
    method ResolveAndFormat(s: LockSection) returns (r: Result<(string, ManifestEntry), RefreshError>)
      ensures forall entries ::
        RefreshSection(env, Progress(files, entries), s)
        == match r
           case Err(e) => Err(e)
           case Ok((text, entry)) => Ok(Progress(files[s.lockPath := text], entries[s.name := entry]))
    {
      hide Format, Validate, Header;
      if s.inputPath !in files {
        return Err(MissingInput);
      }
      var rows := env.resolve(s);
      if rows.None? {
        return Err(ResolveFailed);
      }
      var inputDigest := env.sha(files[s.inputPath]);
      var text := Format(Header(env, s, inputDigest), rows.value);
      var validation := ValidateLockText(env.sha, s.name, text);
      if validation.Err? {
        return Err(BadLock(validation.error));
      }
      var info := validation.value;
      r := Ok((text, Entry(s.inputPath, s.lockPath, inputDigest, env.sha(text), info.contentDigest,
                           info.packageCount, info.hashCount)));
    }

    /** `check`: the errors of each section, and whether there are none; None for a missing or invalid manifest. */
    method Check(sections: seq<LockSection>) returns (ok: bool, errors: Option<seq<seq<CheckError>>>)
      ensures errors.Some? <==> manifest.Manifest?
      ensures errors.Some? ==>
        && |errors.value| == |sections|
        && (forall i | 0 <= i < |sections| :: errors.value[i] == CheckSection(env, State(), sections[i]))
        && (ok <==> forall i | 0 <= i < |sections| :: errors.value[i] == [])
    {
      hide CheckSection;
      ok := true;
      if !manifest.Manifest? {
        return false, None;
      }
      var found: seq<seq<CheckError>> := [];
      for i := 0 to |sections|
        invariant |found| == i && forall j | 0 <= j < i :: found[j] == CheckSection(env, State(), sections[j])
        invariant ok <==> forall j | 0 <= j < i :: found[j] == []
      {
        var sectionErrors := CheckSection(env, Store(files, manifest), sections[i]);
        ok := ok && sectionErrors == [];
        found := found + [sectionErrors];
      }
      errors := Some(found);
    }
  }

  lemma {:induction false} StoppedStays(env: Outside, p: Progress, sections: seq<LockSection>, m: nat, n: nat)
    requires m <= n <= |sections| && RefreshSections(env, p, sections, m).1.Some?
    ensures RefreshSections(env, p, sections, n) == RefreshSections(env, p, sections, m)
  {
    hide RefreshSection;
    if m < n {
      StoppedStays(env, p, sections, m, n - 1);
    }
  }

  // ----- Which files belong to which section -----

  /** Names and lock files are a section's own, and no lock file is an input. */
  ghost predicate Apart(sections: seq<LockSection>) {
    && (forall s, t | s in sections && t in sections && s != t :: s.name != t.name && s.lockPath != t.lockPath)
    && (forall s, t | s in sections && t in sections :: s.lockPath != t.inputPath)
  }

  lemma SectionsAreApart()
    ensures Apart(SECTIONS)
  {
    assert |"runtime"| == 7 && |"embedding"| == 9 && |"coding-tools"| == 12;
    assert |"source/requirements.txt"| == 23 && |"source/requirements.lock"| == 24;
    assert |"source/requirements-embedding.txt"| == 33 && |"source/requirements-embedding.lock"| == 34;
    assert |"source/requirements-coding-tools.txt"| == 36 && |"source/requirements-coding-tools.lock"| == 37;
  }

  lemma {:induction false} ContainsLine(lines: seq<string>, i: nat)
    requires i < |lines|
    ensures Contains(Join(lines, '\n'), lines[i])
    decreases |lines|
  {
    hide Contains, Join;
    var rest := FirstThenRest(lines, '\n');
    if i == 0 {
      assert [] + lines[0] + rest == lines[0] + rest;
      ContainsMiddle([], lines[0], rest);
    } else {
      ContainsLine(lines[1..], i - 1);
      ContainsAfter(lines[0] + ['\n'], Join(lines[1..], '\n'), lines[i]);
    }
  }

  lemma ContainsAfter(before: string, text: string, needle: string)
    requires Contains(text, needle)
    ensures Contains(before + text, needle)
  {
    var k :| 0 <= k <= |text| && OccursAt(text, k, needle);
    assert (before + text)[|before| + k..|before| + k + |needle|] == text[k..k + |needle|];
    assert OccursAt(before + text, |before| + k, needle);
  }

  /** A printed lock file contains the four markers that `check` looks for. */
  lemma FormatHasMarkers(h: LockHeader, rows: seq<LockRow>, m: nat)
    requires m < 4
    ensures Contains(Format(h, rows), Markers(h)[m])
  {
    var lines := HeaderLines(h) + BodyLines(rows) + [""];
    hide BodyLines;
    assert HeaderLines(h)[|h.before| + m] == Markers(h)[m];
    ContainsLine(lines, |h.before| + m);
  }

  // ----- What a refresh guarantees -----

  /** A section whose files and entry are as a refresh leaves them. */
  ghost predicate Consistent(env: Outside, p: Progress, s: LockSection) {
    && s.name in p.entries && p.entries[s.name].Entry? && s.inputPath in p.files && s.lockPath in p.files
    && LockErrors(env, p.files[s.lockPath], s, p.entries[s.name]) == []
    && p.entries[s.name].input == s.inputPath && p.entries[s.name].lock == s.lockPath
    && p.entries[s.name].inputDigest == env.sha(p.files[s.inputPath])
    && p.entries[s.name].lockDigest == env.sha(p.files[s.lockPath])
  }

  lemma RefreshedSectionIsConsistent(env: Outside, p: Progress, s: LockSection)
    requires RefreshSection(env, p, s).Ok? && s.lockPath != s.inputPath
    ensures Consistent(env, RefreshSection(env, p, s).value, s)
  {
    hide Validate, Format;
    var inputDigest := env.sha(p.files[s.inputPath]);
    var h, rows := Header(env, s, inputDigest), env.resolve(s).value;
    FormatHasMarkers(h, rows, 0);
    FormatHasMarkers(h, rows, 1);
    FormatHasMarkers(h, rows, 2);
    FormatHasMarkers(h, rows, 3);
    hide SchemaMarker, SectionMarker, InputMarker, InputDigestMarker, Contains;
  }

  lemma OtherSectionStays(env: Outside, p: Progress, s: LockSection, t: LockSection)
    requires RefreshSection(env, p, s).Ok?
    requires s.name != t.name && s.lockPath != t.lockPath && s.lockPath != t.inputPath
    ensures var q := RefreshSection(env, p, s).value;
      && (t.name in q.entries <==> t.name in p.entries)
      && (t.name in p.entries ==> q.entries[t.name] == p.entries[t.name])
      && (t.inputPath in q.files <==> t.inputPath in p.files)
      && (t.inputPath in p.files ==> q.files[t.inputPath] == p.files[t.inputPath])
      && (t.lockPath in q.files <==> t.lockPath in p.files)
      && (t.lockPath in p.files ==> q.files[t.lockPath] == p.files[t.lockPath])
  {
    hide Validate, Format;
  }

  lemma {:induction false} RefreshedAreConsistent(env: Outside, p: Progress, sections: seq<LockSection>, n: nat, k: nat)
    requires k < n <= |sections| && Apart(sections)
    requires RefreshSections(env, p, sections, n).1.None?
    ensures Consistent(env, RefreshSections(env, p, sections, n).0, sections[k])
  {
    hide RefreshSection, LockErrors;
    var before := RefreshSections(env, p, sections, n - 1).0;
    if sections[k] == sections[n - 1] {
      RefreshedSectionIsConsistent(env, before, sections[n - 1]);
    } else {
      RefreshedAreConsistent(env, p, sections, n - 1, k);
      OtherSectionStays(env, before, sections[n - 1], sections[k]);
    }
  }

  /** Sections that are not refreshed keep their files, whether or not the refresh gets through. */
  lemma {:induction false} UntouchedFiles(env: Outside, p: Progress, sections: seq<LockSection>, n: nat, t: LockSection)
    requires n <= |sections|
    requires forall s | s in sections :: s.name != t.name && s.lockPath != t.lockPath && s.lockPath != t.inputPath
    ensures var q := RefreshSections(env, p, sections, n).0;
      && (t.name in q.entries <==> t.name in p.entries)
      && (t.inputPath in q.files <==> t.inputPath in p.files)
      && (t.inputPath in p.files ==> q.files[t.inputPath] == p.files[t.inputPath])
      && (t.lockPath in q.files <==> t.lockPath in p.files)
      && (t.lockPath in p.files ==> q.files[t.lockPath] == p.files[t.lockPath])
  {
    hide RefreshSection;
    if n > 0 {
      UntouchedFiles(env, p, sections, n - 1, t);
      var (before, error) := RefreshSections(env, p, sections, n - 1);
      if error.None? && RefreshSection(env, before, sections[n - 1]).Ok? {
        OtherSectionStays(env, before, sections[n - 1], t);
      }
    }
  }

  /** After a refresh that got through, `check` reports no error for any refreshed section. */
  lemma RefreshedSectionsCheck(env: Outside, store: Store, sections: seq<LockSection>, k: nat)
    requires Apart(sections) && k < |sections|
    requires Refresh(env, store, sections).1.None?
    ensures var store' := Refresh(env, store, sections).0;
      store'.manifest.Manifest? && CheckSection(env, store', sections[k]) == []
  {
    hide RefreshSections, LockErrors, SetOf;
    var done := RefreshSections(env, Progress(store.files, map[]), sections, |sections|).0;
    RefreshedAreConsistent(env, Progress(store.files, map[]), sections, |sections|, k);
    var store' := Refresh(env, store, sections).0;
    assert store'.manifest.sections[sections[k].name] == done.entries[sections[k].name];
  }

  /**
   A partial refresh over an existing manifest leaves the check result of every other section as it
   was.
   */
  lemma OtherSectionsUnchanged(env: Outside, store: Store, sections: seq<LockSection>, t: LockSection)
    requires store.manifest.Manifest? && SetOf(sections) != SetOf(SECTIONS)
    requires forall s | s in sections :: s.name != t.name && s.lockPath != t.lockPath && s.lockPath != t.inputPath
    ensures var store' := Refresh(env, store, sections).0;
      store'.manifest.Manifest? && CheckSection(env, store', t) == CheckSection(env, store, t)
  {
    hide RefreshSections, LockErrors, SetOf;
    UntouchedFiles(env, Progress(store.files, map[]), sections, |sections|, t);
  }

  /** For the repository's own table: any selection of its sections, and any section not selected. */
  lemma PartialRefresh(env: Outside, store: Store, sections: seq<LockSection>, t: LockSection)
    requires store.manifest.Manifest? && (forall s | s in sections :: s in SECTIONS)
    requires t in SECTIONS && t !in sections
    ensures var (store', error) := Refresh(env, store, sections);
      && store'.manifest.Manifest? && CheckSection(env, store', t) == CheckSection(env, store, t)
      && (error.None? ==> forall k | 0 <= k < |sections| :: CheckSection(env, store', sections[k]) == [])
  {
    hide Refresh, CheckSection, SECTIONS;
    SectionsAreApart();
    assert t in SetOf(SECTIONS) && t !in SetOf(sections);
    OtherSectionsUnchanged(env, store, sections, t);
    if Refresh(env, store, sections).1.None? {
      forall k | 0 <= k < |sections| ensures CheckSection(env, Refresh(env, store, sections).0, sections[k]) == [] {
        RefreshedSectionsCheck(env, store, sections, k);
      }
    }
  }

  // ----- A refresh that raises part-way -----

  /** The text a refresh prints for a section of the store. */
  function PrintedLock(env: Outside, files: map<string, string>, s: LockSection): Option<string> {
    match env.resolve(s)
    case None => None
    case Some(rows) =>
      if s.inputPath in files then Some(Format(Header(env, s, env.sha(files[s.inputPath])), rows)) else None
  }

  lemma {:induction false} InputsStay(env: Outside, p: Progress, sections: seq<LockSection>, n: nat, t: LockSection)
    requires n <= |sections| && forall s | s in sections :: s.lockPath != t.inputPath
    ensures var q := RefreshSections(env, p, sections, n).0;
      && (t.inputPath in q.files <==> t.inputPath in p.files)
      && (t.inputPath in p.files ==> q.files[t.inputPath] == p.files[t.inputPath])
  {
    hide Validate, Format;
    if n > 0 {
      InputsStay(env, p, sections, n - 1, t);
    }
  }

  lemma SectionIsPrinted(env: Outside, p: Progress, before: Progress, s: LockSection)
    requires RefreshSection(env, before, s).Ok?
    requires s.inputPath in before.files ==> s.inputPath in p.files && p.files[s.inputPath] == before.files[s.inputPath]
    ensures var q := RefreshSection(env, before, s).value;
      s.lockPath in q.files && Some(q.files[s.lockPath]) == PrintedLock(env, p.files, s)
  {
    hide Validate, Format;
  }

  /** The first n sections have the lock files that the refresh prints from their inputs. */
  lemma {:induction false} RefreshedFilesArePrinted(
    env: Outside, p: Progress, sections: seq<LockSection>, n: nat, k: nat)
    requires k < n <= |sections| && Apart(sections) && RefreshSections(env, p, sections, n).1.None?
    ensures var q, s := RefreshSections(env, p, sections, n).0, sections[k];
      s.lockPath in q.files && Some(q.files[s.lockPath]) == PrintedLock(env, p.files, s)
  {
    hide RefreshSection, PrintedLock;
    var before := RefreshSections(env, p, sections, n - 1).0;
    if sections[k] == sections[n - 1] {
      InputsStay(env, p, sections, n - 1, sections[k]);
      SectionIsPrinted(env, p, before, sections[k]);
    } else {
      RefreshedFilesArePrinted(env, p, sections, n - 1, k);
      OtherSectionStays(env, before, sections[n - 1], sections[k]);
    }
  }

  lemma LockChangedMeans(env: Outside, store: Store, s: LockSection)
    requires store.manifest.Manifest? && s.name in store.manifest.sections && store.manifest.sections[s.name].Entry?
    requires s.lockPath in store.files
    ensures LockChanged in CheckSection(env, store, s)
      <==> env.sha(store.files[s.lockPath]) != store.manifest.sections[s.name].lockDigest
  {
    NoDigestErrors(env, store.files[s.lockPath], s, store.manifest.sections[s.name]);
    hide LockErrors;
  }

  /**
   A refresh that gets through the first n sections and then raises leaves those n lock files rewritten
   and the manifest as it was.  `check` then reports the lock file of such a section as changed exactly
   when the text now printed for it has another digest than its entry records.
   */
  lemma FailedRefreshShows(env: Outside, store: Store, sections: seq<LockSection>, n: nat, k: nat)
    requires Apart(sections) && k < n <= |sections|
    requires RefreshSections(env, Progress(store.files, map[]), sections, n).1.None?
    requires Refresh(env, store, sections).1.Some?
    requires n < |sections| ==> RefreshSections(env, Progress(store.files, map[]), sections, n + 1).1.Some?
    ensures var (store', s) := (Refresh(env, store, sections).0, sections[k]);
      && store'.manifest == store.manifest
      && s.lockPath in store'.files && Some(store'.files[s.lockPath]) == PrintedLock(env, store.files, s)
      && (store.manifest.Manifest? && s.name in store.manifest.sections && store.manifest.sections[s.name].Entry? ==>
            (LockChanged in CheckSection(env, store', s)
             <==> env.sha(PrintedLock(env, store.files, s).value) != store.manifest.sections[s.name].lockDigest))
  {
    hide Refresh, RefreshSections, CheckSection, PrintedLock, Apart;
    var s, store' := sections[k], Refresh(env, store, sections).0;
    RefreshedFilesArePrinted(env, Progress(store.files, map[]), sections, n, k);
    FailedRefreshKeeps(env, store, sections, n);
    if store.manifest.Manifest? && s.name in store.manifest.sections && store.manifest.sections[s.name].Entry? {
      LockChangedMeans(env, store', s);
    }
  }

  lemma FailedRefreshKeeps(env: Outside, store: Store, sections: seq<LockSection>, n: nat)
    requires n <= |sections| && RefreshSections(env, Progress(store.files, map[]), sections, n).1.None?
    requires Refresh(env, store, sections).1.Some?
    requires n < |sections| ==> RefreshSections(env, Progress(store.files, map[]), sections, n + 1).1.Some?
    ensures Refresh(env, store, sections).0
         == Store(RefreshSections(env, Progress(store.files, map[]), sections, n).0.files, store.manifest)
  {
    hide RefreshSections, MergedManifest;
    if n < |sections| {
      StoppedStays(env, Progress(store.files, map[]), sections, n + 1, |sections|);
      FailedStepKeepsFiles(env, Progress(store.files, map[]), sections, n);
    }
  }

  /** A refresh gets through some first sections, and through all of them or not through the next one. */
  lemma {:induction false} RefreshStopsSomewhere(env: Outside, p: Progress, sections: seq<LockSection>, m: nat)
    returns (n: nat)
    requires m <= |sections|
    ensures n <= m && RefreshSections(env, p, sections, n).1.None?
    ensures n < m ==> RefreshSections(env, p, sections, n + 1).1.Some?
  {
    hide RefreshSection;
    n := m;
    if RefreshSections(env, p, sections, m).1.Some? {
      n := RefreshStopsSomewhere(env, p, sections, m - 1);
    }
  }

  lemma FailedStepKeepsFiles(env: Outside, p: Progress, sections: seq<LockSection>, n: nat)
    requires n < |sections| && RefreshSections(env, p, sections, n + 1).1.Some?
    requires RefreshSections(env, p, sections, n).1.None?
    ensures RefreshSections(env, p, sections, n + 1).0 == RefreshSections(env, p, sections, n).0
  {
    hide RefreshSection;
  }

  // ----- What check detects -----

  /**
   A section whose files are there checks clean exactly when its entry describes them as they are.  A
   missing lock file is always reported, a missing input unless the entry records the digest "missing".
   */
  lemma CleanCheckMeans(env: Outside, store: Store, s: LockSection)
    requires store.manifest.Manifest? && forall x :: env.sha(x) != "missing"
    ensures CheckSection(env, store, s) == [] ==>
      s.name in store.manifest.sections && store.manifest.sections[s.name].Entry?
    ensures s.name in store.manifest.sections && store.manifest.sections[s.name].Entry?
            && s.inputPath in store.files && s.lockPath in store.files ==>
      (CheckSection(env, store, s) == [] <==> Consistent(env, Progress(store.files, store.manifest.sections), s))
    ensures CheckSection(env, store, s) == [] ==> s.lockPath in store.files
    ensures CheckSection(env, store, s) == [] && s.inputPath !in store.files ==>
      store.manifest.sections[s.name].inputDigest == "missing"
  {
    hide LockErrors;
  }

  /** Over an injective digest, any later change to the input or to the lock file of a clean section is reported. */
  lemma EditsAreDetected(env: Outside, store: Store, s: LockSection, files: map<string, string>)
    requires store.manifest.Manifest? && CheckSection(env, store, s) == []
    requires (forall x, y :: env.sha(x) == env.sha(y) ==> x == y) && forall x :: env.sha(x) != "missing"
    requires s.inputPath in store.files && s.lockPath in store.files
    ensures var edited := CheckSection(env, Store(files, store.manifest), s);
      && (InputChanged in edited <==> !(s.inputPath in files && files[s.inputPath] == store.files[s.inputPath]))
      && (LockChanged in edited <==> !(s.lockPath in files && files[s.lockPath] == store.files[s.lockPath]))
  {
    CleanCheckMeans(env, store, s);
    if s.lockPath in files {
      NoDigestErrors(env, files[s.lockPath], s, store.manifest.sections[s.name]);
    }
    hide LockErrors;
  }

  lemma NoDigestErrors(env: Outside, text: string, s: LockSection, entry: ManifestEntry)
    requires entry.Entry?
    ensures InputChanged !in LockErrors(env, text, s, entry) && LockChanged !in LockErrors(env, text, s, entry)
  {
    hide Validate, Contains;
  }
}
