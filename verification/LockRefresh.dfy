/** What a refresh records, and which error stops it, in terms of the store before it. */
module LockRefresh {
  import opened Wrappers
  import opened LockText
  import opened LockStore

  // ----- What is recorded -----

  /** The entry records the paths, the digests of the two files, and what parsing the lock file gives. */
  ghost predicate Records(env: Outside, files: map<string, string>, s: LockSection, entry: ManifestEntry) {
    && entry.Entry? && s.inputPath in files && s.lockPath in files
    && entry.input == s.inputPath && entry.lock == s.lockPath
    && entry.inputDigest == env.sha(files[s.inputPath]) && entry.lockDigest == env.sha(files[s.lockPath])
    && Validate(env.sha, s.name, files[s.lockPath])
         == Ok(LockInfo(entry.packageCount, entry.hashCount, entry.contentDigest))
  }

  lemma SectionIsRecorded(env: Outside, p: Progress, s: LockSection)
    requires RefreshSection(env, p, s).Ok? && s.lockPath != s.inputPath
    ensures var q := RefreshSection(env, p, s).value;
      s.name in q.entries && Records(env, q.files, s, q.entries[s.name])
  {
    hide Validate, Format, Header;
  }

  lemma {:induction false} SectionsAreRecorded(env: Outside, p: Progress, sections: seq<LockSection>, n: nat, k: nat)
    requires k < n <= |sections| && Apart(sections)
    requires RefreshSections(env, p, sections, n).1.None?
    ensures var q := RefreshSections(env, p, sections, n).0;
      sections[k].name in q.entries && Records(env, q.files, sections[k], q.entries[sections[k].name])
  {
    hide RefreshSection, Validate;
    var before := RefreshSections(env, p, sections, n - 1).0;
    if sections[k] == sections[n - 1] {
      SectionIsRecorded(env, before, sections[n - 1]);
    } else {
      SectionsAreRecorded(env, p, sections, n - 1, k);
      OtherSectionStays(env, before, sections[n - 1], sections[k]);
    }
  }

  ghost predicate NamesOne(sections: seq<LockSection>, n: nat, name: string)
    requires n <= |sections|
  {
    exists k :: 0 <= k < n && sections[k].name == name
  }

  lemma {:induction false} EntriesAreNamed(env: Outside, p: Progress, sections: seq<LockSection>, n: nat)
    requires n <= |sections| && p.entries == map[]
    requires RefreshSections(env, p, sections, n).1.None?
    ensures forall name ::
      name in RefreshSections(env, p, sections, n).0.entries <==> NamesOne(sections, n, name)
  {
    hide RefreshSection;
    if n > 0 {
      EntriesAreNamed(env, p, sections, n - 1);
      var before := RefreshSections(env, p, sections, n - 1).0;
      EntryAdded(env, before, sections[n - 1]);
      forall name
        ensures NamesOne(sections, n, name) <==> NamesOne(sections, n - 1, name) || name == sections[n - 1].name
      {
        if NamesOne(sections, n, name) {
          var k :| 0 <= k < n && sections[k].name == name;
        }
      }
    }
  }

  lemma EntryAdded(env: Outside, p: Progress, s: LockSection)
    requires RefreshSection(env, p, s).Ok?
    ensures forall name :: name in RefreshSection(env, p, s).value.entries <==> name in p.entries || name == s.name
  {
    hide Validate, Format, Header;
  }

  /**
   After a refresh that got through, the manifest records every refreshed section as its files are.  Any other
   entry is one of the old manifest, kept as it was, and only a refresh of some sections keeps them.
   */
  lemma ManifestExactly(env: Outside, store: Store, sections: seq<LockSection>)
    requires Apart(sections) && Refresh(env, store, sections).1.None?
    ensures var store' := Refresh(env, store, sections).0;
      && store'.manifest.Manifest?
      && (forall s | s in sections ::
            s.name in store'.manifest.sections && Records(env, store'.files, s, store'.manifest.sections[s.name]))
      && (forall name | !NamesOne(sections, |sections|, name) ::
            (name in store'.manifest.sections
             <==> SetOf(sections) != SetOf(SECTIONS) && store.manifest.Manifest? && name in store.manifest.sections)
            && (name in store'.manifest.sections ==>
                  store'.manifest.sections[name] == store.manifest.sections[name]))
  {
    hide RefreshSections, Records, SetOf, SECTIONS, NamesOne;
    var start := Progress(store.files, map[]);
    var done := RefreshSections(env, start, sections, |sections|).0;
    EntriesAreNamed(env, start, sections, |sections|);
    forall s | s in sections
      ensures s.name in done.entries && Records(env, done.files, s, done.entries[s.name])
    {
      var k :| 0 <= k < |sections| && sections[k] == s;
      SectionsAreRecorded(env, start, sections, |sections|, k);
    }
  }

  // ----- What stops it -----

  /** What a section meets in the store before the refresh: no input, no answer of the resolver, or a bad lock text. */
  function Obstacle(env: Outside, files: map<string, string>, s: LockSection): Option<RefreshError> {
    if s.inputPath !in files then Some(MissingInput)
    else if env.resolve(s).None? then Some(ResolveFailed)
    else
      match Validate(env.sha, s.name, Format(Header(env, s, env.sha(files[s.inputPath])), env.resolve(s).value))
      case Err(e) => Some(BadLock(e))
      case Ok(_) => None
  }

  lemma SectionMeets(env: Outside, p: Progress, s: LockSection, files: map<string, string>)
    requires s.inputPath in p.files <==> s.inputPath in files
    requires s.inputPath in files ==> p.files[s.inputPath] == files[s.inputPath]
    ensures RefreshSection(env, p, s).Ok? <==> Obstacle(env, files, s).None?
    ensures RefreshSection(env, p, s).Err? ==> Obstacle(env, files, s) == Some(RefreshSection(env, p, s).error)
  {
    hide Validate, Format, Header;
  }

  lemma {:induction false} SectionsMeet(env: Outside, p: Progress, sections: seq<LockSection>, n: nat)
    requires n <= |sections| && Apart(sections)
    ensures var error := RefreshSections(env, p, sections, n).1;
      && (error.None? <==> forall i | 0 <= i < n :: Obstacle(env, p.files, sections[i]).None?)
      && (error.Some? ==> exists i :: 0 <= i < n && Obstacle(env, p.files, sections[i]) == error
                                   && forall j | 0 <= j < i :: Obstacle(env, p.files, sections[j]).None?)
  {
    hide RefreshSection, Obstacle;
    if n > 0 {
      SectionsMeet(env, p, sections, n - 1);
      var (before, error) := RefreshSections(env, p, sections, n - 1);
      if error.None? {
        InputsStay(env, p, sections, n - 1, sections[n - 1]);
        SectionMeets(env, before, sections[n - 1], p.files);
      }
    }
  }

  /**
   A refresh gets through exactly when no section meets an obstacle and it has not to merge into an invalid
   manifest.  Otherwise it raises the first obstacle, and that of the manifest last.
   */
  lemma RefreshFailsExactly(env: Outside, store: Store, sections: seq<LockSection>)
    requires Apart(sections)
    ensures var error := Refresh(env, store, sections).1;
      var clear := forall i | 0 <= i < |sections| :: Obstacle(env, store.files, sections[i]).None?;
      && (clear ==> error == if SetOf(sections) != SetOf(SECTIONS) && store.manifest.InvalidManifest?
                             then Some(BadManifest) else None)
      && (!clear ==> exists i :: 0 <= i < |sections| && Obstacle(env, store.files, sections[i]) == error && error.Some?
                              && forall j | 0 <= j < i :: Obstacle(env, store.files, sections[j]).None?)
  {
    hide RefreshSections, Obstacle, SetOf, SECTIONS;
    SectionsMeet(env, Progress(store.files, map[]), sections, |sections|);
  }
}
