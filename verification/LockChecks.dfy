/** When `check` reports each of its errors. */
module LockChecks {
  import opened Wrappers
  import opened Strings
  import opened LockText
  import opened LockStore

  predicate AboutText(e: CheckError) {
    e.Unparsable? || e.ContentMismatch? || e.MissingMarker?
  }

  /** Each marker line is reported as missing exactly when the lock text does not contain it. */
  lemma LockErrorsMean(env: Outside, text: string, s: LockSection, entry: ManifestEntry)
    requires entry.Entry?
    ensures var (r, errors) := (Validate(env.sha, s.name, text), LockErrors(env, text, s, entry));
      && (forall e :: Unparsable(e) in errors <==> r == Err(e))
      && (ContentMismatch in errors <==> r.Ok? && r.value.contentDigest != entry.contentDigest)
      && (MissingMarker(0) in errors <==> r.Ok? && !Contains(text, "# schema: " + env.schema))
      && (MissingMarker(1) in errors <==> r.Ok? && !Contains(text, "# section: " + s.name))
      && (MissingMarker(2) in errors <==> r.Ok? && !Contains(text, "# input: " + s.inputPath))
      && (MissingMarker(3) in errors <==> r.Ok? && !Contains(text, "# input-digest: " + entry.inputDigest))
      && forall e | e in errors :: AboutText(e)
  {
    hide Validate, Contains, If;
    var r := Validate(env.sha, s.name, text);
    if r.Ok? {
      var markers := If(!Contains(text, InputDigestMarker(entry.inputDigest)), MissingMarker(3));
      InIfs(r.value.contentDigest != entry.contentDigest, ContentMismatch,
        !Contains(text, SchemaMarker(env.schema)), MissingMarker(0),
        !Contains(text, SectionMarker(s.name)), MissingMarker(1),
        !Contains(text, InputMarker(s.inputPath)), MissingMarker(2), markers);
      IfMeans(!Contains(text, InputDigestMarker(entry.inputDigest)), MissingMarker(3));
    }
  }

  lemma IfMeans(condition: bool, error: CheckError)
    ensures forall e :: e in If(condition, error) <==> condition && e == error
  {}

  lemma InIfs(
    c0: bool, e0: CheckError, c1: bool, e1: CheckError, c2: bool, e2: CheckError, c3: bool, e3: CheckError,
    rest: seq<CheckError>)
    ensures forall e ::
      (e in If(c0, e0) + If(c1, e1) + If(c2, e2) + If(c3, e3) + rest
       <==> (c0 && e == e0) || (c1 && e == e1) || (c2 && e == e2) || (c3 && e == e3) || e in rest)
  {
    hide If;
    IfMeans(c0, e0);
    IfMeans(c1, e1);
    IfMeans(c2, e2);
    IfMeans(c3, e3);
  }

  predicate Recorded(store: Store, s: LockSection) {
    && store.manifest.Manifest? && s.name in store.manifest.sections && store.manifest.sections[s.name].Entry?
  }

  /** A section without an entry has that error alone. */
  lemma MissingEntryMeans(env: Outside, store: Store, s: LockSection)
    requires store.manifest.Manifest?
    ensures MissingEntry in CheckSection(env, store, s) <==> !Recorded(store, s)
    ensures !Recorded(store, s) ==> CheckSection(env, store, s) == [MissingEntry]
  {
    hide LockErrors;
    if Recorded(store, s) && s.lockPath in store.files {
      LockErrorsMean(env, store.files[s.lockPath], s, store.manifest.sections[s.name]);
    }
  }

  function TextErrors(env: Outside, store: Store, s: LockSection): seq<CheckError>
    requires Recorded(store, s)
  {
    if s.lockPath !in store.files then [LockFileMissing]
    else LockErrors(env, store.files[s.lockPath], s, store.manifest.sections[s.name])
  }

  lemma CheckOfRecorded(env: Outside, store: Store, s: LockSection)
    requires Recorded(store, s)
    ensures var entry := store.manifest.sections[s.name];
      CheckSection(env, store, s)
      == If(entry.input != s.inputPath, InputPathMismatch)
       + If(entry.lock != s.lockPath, LockPathMismatch)
       + If(DigestOf(env, store.files, s.inputPath) != entry.inputDigest, InputChanged)
       + If(DigestOf(env, store.files, s.lockPath) != entry.lockDigest, LockChanged)
       + TextErrors(env, store, s)
  {
    hide LockErrors, If;
  }

  lemma TextErrorsMean(env: Outside, store: Store, s: LockSection)
    requires Recorded(store, s)
    ensures forall e | e in TextErrors(env, store, s) :: AboutText(e) || e == LockFileMissing
    ensures LockFileMissing in TextErrors(env, store, s) <==> s.lockPath !in store.files
  {
    hide LockErrors;
    if s.lockPath in store.files {
      LockErrorsMean(env, store.files[s.lockPath], s, store.manifest.sections[s.name]);
    }
  }

  /** When `check` reports each kind of error for a section that has an entry. */
  lemma CheckErrorsMean(env: Outside, store: Store, s: LockSection)
    requires Recorded(store, s)
    ensures var (errors, entry) := (CheckSection(env, store, s), store.manifest.sections[s.name]);
      && (InputPathMismatch in errors <==> entry.input != s.inputPath)
      && (LockPathMismatch in errors <==> entry.lock != s.lockPath)
      && (InputChanged in errors <==> entry.inputDigest != DigestOf(env, store.files, s.inputPath))
      && (LockChanged in errors <==> entry.lockDigest != DigestOf(env, store.files, s.lockPath))
      && (LockFileMissing in errors <==> s.lockPath !in store.files)
      && forall e | AboutText(e) ::
           (e in errors <==> s.lockPath in store.files && e in LockErrors(env, store.files[s.lockPath], s, entry))
  {
    hide LockErrors, If, CheckSection, TextErrors, DigestOf;
    var entry := store.manifest.sections[s.name];
    CheckOfRecorded(env, store, s);
    TextErrorsMean(env, store, s);
    TextErrorsAre(env, store, s);
    InIfs(entry.input != s.inputPath, InputPathMismatch, entry.lock != s.lockPath, LockPathMismatch,
      DigestOf(env, store.files, s.inputPath) != entry.inputDigest, InputChanged,
      DigestOf(env, store.files, s.lockPath) != entry.lockDigest, LockChanged, TextErrors(env, store, s));
  }

  lemma TextErrorsAre(env: Outside, store: Store, s: LockSection)
    requires Recorded(store, s)
    ensures forall e | AboutText(e) ::
      (e in TextErrors(env, store, s)
       <==> s.lockPath in store.files
            && e in LockErrors(env, store.files[s.lockPath], s, store.manifest.sections[s.name]))
  {
    hide LockErrors;
  }
}
