/** Projections of a workflow event log: artifact lineage, digest maps and the fork/parent diff. */
module EventLog {
  import opened Strings
  import opened Sorting

  /** A compact artifact reference; a missing digest is empty. */
  datatype ArtifactRef = ArtifactRef(artifactId: string, kind: string, digest: string)

  /** A `fork_marker`; absent fields, and the fields of an absent marker, are empty. */
  datatype ForkMarker = ForkMarker(forkId: string, parentForkId: string)

  datatype Event = Event(
    sequence: int, eventId: string, eventType: string, checkpointId: string, forkId: string, parentForkId: string,
    marker: ForkMarker, artifactRefs: seq<ArtifactRef>, evidenceRefIds: seq<string>)

  // ----- References in log order -----

  datatype Reference = Reference(event: Event, ref: ArtifactRef)

  function EventReferences(e: Event, n: nat): seq<Reference>
    requires n <= |e.artifactRefs|
  {
    if n == 0 then [] else EventReferences(e, n - 1) + [Reference(e, e.artifactRefs[n - 1])]
  }

  function References(events: seq<Event>, n: nat): seq<Reference>
    requires n <= |events|
  {
    if n == 0 then []
    else References(events, n - 1) + EventReferences(events[n - 1], |events[n - 1].artifactRefs|)
  }

  /** The references to one artifact, in order. */
  function RefersTo(id: string): Reference -> bool {
    (r: Reference) => r.ref.artifactId == id
  }

  function HasDigest(): Reference -> bool {
    (r: Reference) => r.ref.digest != ""
  }

  /** The digest of the last reference, or the empty digest. */
  function LastDigest(refs: seq<Reference>): string {
    if refs == [] then "" else refs[|refs| - 1].ref.digest
  }

  // ----- `_artifact_digest_map` -----

  type DigestMap = map<string, string>

  function AddDigest(m: DigestMap, r: Reference): DigestMap {
    if r.ref.artifactId == "" then m else m[r.ref.artifactId := r.ref.digest]
  }

  function Digests(refs: seq<Reference>): DigestMap {
    if refs == [] then map[] else AddDigest(Digests(refs[..|refs| - 1]), refs[|refs| - 1])
  }

  function ArtifactDigestMap(events: seq<Event>): DigestMap {
    Digests(References(events, |events|))
  }

  method BuildDigestMap(events: seq<Event>) returns (m: DigestMap)
    ensures m == ArtifactDigestMap(events)
  {
    hide Digests;
    m := map[];
    NoDigests();
    for i := 0 to |events|
      invariant m == Digests(References(events, i))
    {
      var refs := events[i].artifactRefs;
      assert References(events, i) + EventReferences(events[i], 0) == References(events, i);
      for j := 0 to |refs|
        invariant m == Digests(References(events, i) + EventReferences(events[i], j))
      {
        if refs[j].artifactId != "" {
          m := m[refs[j].artifactId := refs[j].digest];
        }
        DigestsSnoc(References(events, i) + EventReferences(events[i], j), Reference(events[i], refs[j]));
        assert References(events, i) + EventReferences(events[i], j) + [Reference(events[i], refs[j])]
            == References(events, i) + EventReferences(events[i], j + 1);
      }
    }
  }

  lemma NoDigests()
    ensures Digests([]) == map[]
  {}

  lemma DigestsSnoc(refs: seq<Reference>, r: Reference)
    ensures Digests(refs + [r]) == AddDigest(Digests(refs), r)
  {
    assert (refs + [r])[..|refs|] == refs;
  }

  // ----- `artifact_lineage` -----

  datatype Lineage = Lineage(artifactId: string, kind: string, latestDigest: string, producedByEvents: seq<string>,
                             checkpoints: seq<string>, forkIds: seq<string>, evidenceRefIds: seq<string>)

  type LineageMap = map<string, Lineage>

  function AppendNew(list: seq<string>, item: string): seq<string> {
    if item != "" && item !in list then list + [item] else list
  }

  function AppendAllNew(list: seq<string>, items: seq<string>): seq<string> {
    if items == [] then list else AppendNew(AppendAllNew(list, items[..|items| - 1]), items[|items| - 1])
  }

  /** A row takes the digest of the reference unless that is empty, and the identity of its event. */
  function Extend(row: Lineage, r: Reference): Lineage {
    row.(latestDigest := if r.ref.digest != "" then r.ref.digest else row.latestDigest,
         producedByEvents := row.producedByEvents + [r.event.eventId],
         checkpoints := AppendNew(row.checkpoints, r.event.checkpointId),
         forkIds := AppendNew(row.forkIds, r.event.forkId),
         evidenceRefIds := AppendAllNew(row.evidenceRefIds, r.event.evidenceRefIds))
  }

  function NewRow(r: Reference): Lineage {
    Lineage(r.ref.artifactId, r.ref.kind, "", [], [], [], [])
  }

  function AddReference(m: LineageMap, r: Reference): LineageMap {
    var id := r.ref.artifactId;
    if id == "" then m else m[id := Extend(if id in m then m[id] else NewRow(r), r)]
  }

  function Rows(refs: seq<Reference>): LineageMap {
    if refs == [] then map[] else AddReference(Rows(refs[..|refs| - 1]), refs[|refs| - 1])
  }

  /** The sort key of the projection: sequence, then event id. */
  function ByPosition(): (Event, Event) -> bool {
    (a: Event, b: Event) => a.sequence < b.sequence || (a.sequence == b.sequence && Le(a.eventId, b.eventId))
  }

  function Ordered(events: seq<Event>): seq<Event> {
    StableSort(events, ByPosition())
  }

  function LineageOf(events: seq<Event>): LineageMap {
    Rows(References(Ordered(events), |Ordered(events)|))
  }

  function InIdOrder(rows: LineageMap): (lineage: seq<Lineage>) {
    var ids := SortedKeys(rows.Keys);
    seq(|ids|, i requires 0 <= i < |ids| => rows[ids[i]])
  }

  /** The artifact loop of `_projection`. */
  method ProjectLineage(events: seq<Event>) returns (lineage: seq<Lineage>)
    ensures lineage == InIdOrder(LineageOf(events))
  {
    hide Extend, InIdOrder, StableSort, Rows, NewRow;
    NoRows();
    var ordered := Ordered(events);
    var rows: LineageMap := map[];
    for i := 0 to |ordered|
      invariant rows == Rows(References(ordered, i))
    {
      var refs := ordered[i].artifactRefs;
      assert References(ordered, i) + EventReferences(ordered[i], 0) == References(ordered, i);
      for j := 0 to |refs|
        invariant rows == Rows(References(ordered, i) + EventReferences(ordered[i], j))
      {
        var r := Reference(ordered[i], refs[j]);
        if r.ref.artifactId != "" {
          var row := if r.ref.artifactId in rows then rows[r.ref.artifactId] else NewRow(r);
          row := ExtendRow(row, r);
          rows := rows[r.ref.artifactId := row];
        }
        RowsSnoc(References(ordered, i) + EventReferences(ordered[i], j), r);
        assert References(ordered, i) + EventReferences(ordered[i], j) + [r]
            == References(ordered, i) + EventReferences(ordered[i], j + 1);
      }
    }
    lineage := InIdOrder(rows);
  }

  /** The updates of one row, with the loop over the evidence of the event. */
  method ExtendRow(row: Lineage, r: Reference) returns (extended: Lineage)
    ensures extended == Extend(row, r)
  {
    hide AppendNew;
    var checkpoints := AppendNew(row.checkpoints, r.event.checkpointId);
    var forkIds := AppendNew(row.forkIds, r.event.forkId);
    var ids, evidence := r.event.evidenceRefIds, row.evidenceRefIds;
    for i := 0 to |ids|
      invariant evidence == AppendAllNew(row.evidenceRefIds, ids[..i])
    {
      assert ids[..i + 1][..i] == ids[..i];
      evidence := AppendNew(evidence, ids[i]);
    }
    assert ids[..|ids|] == ids;
    extended := row.(latestDigest := if r.ref.digest != "" then r.ref.digest else row.latestDigest,
                     producedByEvents := row.producedByEvents + [r.event.eventId],
                     checkpoints := checkpoints, forkIds := forkIds, evidenceRefIds := evidence);
  }

  lemma NoRows()
    ensures Rows([]) == map[]
  {}

  lemma RowsSnoc(refs: seq<Reference>, r: Reference)
    ensures Rows(refs + [r]) == AddReference(Rows(refs), r)
  {
    assert (refs + [r])[..|refs|] == refs;
  }

  // ----- What a lineage row says -----

  function EventIds(refs: seq<Reference>): seq<string> {
    if refs == [] then [] else EventIds(refs[..|refs| - 1]) + [refs[|refs| - 1].event.eventId]
  }

  lemma FilterSnoc(refs: seq<Reference>, r: Reference, keep: Reference -> bool)
    ensures Filter(refs + [r], keep) == if keep(r) then Filter(refs, keep) + [r] else Filter(refs, keep)
  {
    FilterConcat(refs, [r], keep);
    assert Filter([r], keep) == if keep(r) then [r] else [];
  }

  lemma LastDigestSnoc(refs: seq<Reference>, r: Reference)
    ensures LastDigest(refs + [r]) == r.ref.digest
    ensures EventIds(refs + [r]) == EventIds(refs) + [r.event.eventId]
  {
    assert (refs + [r])[..|refs|] == refs;
  }

  /**
   There is one row per non-empty artifact id that occurs; it lists the event of every reference to
   the artifact once and in order, and its latest digest is the last non-empty one.
   */
  lemma {:induction false} RowSummarises(refs: seq<Reference>, id: string)
    requires id != ""
    ensures var own := Filter(refs, RefersTo(id));
      && (id in Rows(refs) <==> own != [])
      && (id in Rows(refs) ==>
            && Rows(refs)[id].artifactId == id
            && Rows(refs)[id].producedByEvents == EventIds(own)
            && Rows(refs)[id].latestDigest == LastDigest(Filter(own, HasDigest())))
  {
    hide Filter, LastDigest, EventIds;
    if refs == [] {
      assert Filter(refs, RefersTo(id)) == [] by { EmptyFilter(RefersTo(id)); }
    } else {
      var before, r := refs[..|refs| - 1], refs[|refs| - 1];
      assert refs == before + [r];
      RowSummarises(before, id);
      RowsSnoc(before, r);
      FilterSnoc(before, r, RefersTo(id));
      if r.ref.artifactId == id {
        var own := Filter(before, RefersTo(id));
        FilterSnoc(own, r, HasDigest());
        LastDigestSnoc(own, r);
        LastDigestSnoc(Filter(own, HasDigest()), r);
        EmptyFilter(HasDigest());
        EmptySummaries();
      }
    }
  }

  lemma EmptyFilter(keep: Reference -> bool)
    ensures Filter([], keep) == []
  {}

  lemma EmptySummaries()
    ensures LastDigest([]) == "" && EventIds([]) == []
  {}

  lemma {:induction false} NoRowWithoutId(refs: seq<Reference>)
    ensures "" !in Rows(refs) && "" !in Digests(refs)
  {
    if refs != [] {
      NoRowWithoutId(refs[..|refs| - 1]);
    }
  }

  /** The digest map holds, for each id, the digest of its last reference. */
  lemma {:induction false} DigestIsLast(refs: seq<Reference>, id: string)
    requires id != ""
    ensures id in Digests(refs) <==> Filter(refs, RefersTo(id)) != []
    ensures id in Digests(refs) ==> Digests(refs)[id] == LastDigest(Filter(refs, RefersTo(id)))
  {
    hide Filter, LastDigest, Digests;
    if refs == [] {
      EmptyFilter(RefersTo(id));
      NoDigests();
    } else {
      var before, r := refs[..|refs| - 1], refs[|refs| - 1];
      assert refs == before + [r];
      DigestIsLast(before, id);
      DigestsSnoc(before, r);
      FilterSnoc(before, r, RefersTo(id));
      NextDigest(Digests(before), Filter(before, RefersTo(id)), r, id);
    }
  }

  lemma NextDigest(m: DigestMap, own: seq<Reference>, r: Reference, id: string)
    requires id != "" && (id in m <==> own != []) && (id in m ==> m[id] == LastDigest(own))
    ensures var own' := if r.ref.artifactId == id then own + [r] else own;
      && (id in AddDigest(m, r) <==> own' != [])
      && (id in AddDigest(m, r) ==> AddDigest(m, r)[id] == LastDigest(own'))
  {
    hide LastDigest;
    LastDigestSnoc(own, r);
  }

  // ----- The two folds compared -----

  /** Smaller sequence numbers first, and event ids in order under the same number. */
  ghost predicate InSequence(events: seq<Event>) {
    forall i, j | 0 <= i < j < |events| :: Follows(events[i], events[j])
  }

  predicate Follows(a: Event, b: Event) {
    a.sequence <= b.sequence && (a.sequence == b.sequence ==> Le(a.eventId, b.eventId))
  }

  lemma InSequenceIsSorted(events: seq<Event>)
    ensures InSequence(events) <==> Sorted(events, ByPosition())
  {
    hide Le;
    assert forall a, b :: ByPosition()(a, b) <==> Follows(a, b);
  }

  lemma ByPositionOrders()
    ensures TotalPreorder(ByPosition())
  {
    forall x, y ensures ByPosition()(x, y) || ByPosition()(y, x) {
      LeTotal(x.eventId, y.eventId);
    }
    forall x, y, z | ByPosition()(x, y) && ByPosition()(y, z) ensures ByPosition()(x, z) {
      if x.sequence == y.sequence == z.sequence {
        LeTransitive(x.eventId, y.eventId, z.eventId);
      }
    }
  }

  /** The projection walks the events of the log in position order, and a log in that order as it is. */
  lemma OrderedIsSorted(events: seq<Event>)
    ensures InSequence(Ordered(events)) && multiset(Ordered(events)) == multiset(events)
    ensures InSequence(events) ==> Ordered(events) == events
  {
    ByPositionOrders();
    SortSorts(events, ByPosition());
    SortPermutes(events, ByPosition());
    InSequenceIsSorted(events);
    InSequenceIsSorted(Ordered(events));
    if InSequence(events) {
      SortFixpoint(events, ByPosition());
    }
  }

  /** The last reference has a digest, or no reference has one. */
  ghost predicate EndsWithDigest(refs: seq<Reference>) {
    LastDigest(refs) != "" || Filter(refs, HasDigest()) == []
  }

  lemma LatestEqualsLast(refs: seq<Reference>)
    ensures LastDigest(Filter(refs, HasDigest())) == LastDigest(refs) <==> EndsWithDigest(refs)
  {
    if refs != [] {
      var before, r := refs[..|refs| - 1], refs[|refs| - 1];
      assert refs == before + [r];
      FilterSnoc(before, r, HasDigest());
      var kept := Filter(refs, HasDigest());
      if kept != [] {
        assert kept[|kept| - 1] in kept;
      }
    }
  }

  /**
   On a log in sequence order the two folds know the same artifacts, and their digests of one
   artifact agree exactly when its last reference carries a digest or none of its references does.
   */
  lemma {:induction false} FoldsAgreeExactly(events: seq<Event>, id: string)
    requires InSequence(events) && id != ""
    ensures id in LineageOf(events) <==> id in ArtifactDigestMap(events)
    ensures id in ArtifactDigestMap(events) ==>
      (LineageOf(events)[id].latestDigest == ArtifactDigestMap(events)[id]
       <==> EndsWithDigest(Filter(References(events, |events|), RefersTo(id))))
  {
    hide References, Filter, LastDigest, Rows, Digests, EndsWithDigest;
    OrderedIsSorted(events);
    var refs := References(events, |events|);
    RowSummarises(refs, id);
    DigestIsLast(refs, id);
    LatestEqualsLast(Filter(refs, RefersTo(id)));
  }

  /** In particular they agree on every artifact when every reference carries a digest. */
  lemma FoldsAgreeWithDigests(events: seq<Event>, id: string)
    requires InSequence(events) && id != ""
    requires forall e, r | e in events && r in e.artifactRefs :: r.digest != ""
    requires id in ArtifactDigestMap(events)
    ensures id in LineageOf(events) && LineageOf(events)[id].latestDigest == ArtifactDigestMap(events)[id]
  {
    hide LineageOf, ArtifactDigestMap;
    FoldsAgreeExactly(events, id);
    var own := Filter(References(events, |events|), RefersTo(id));
    if own != [] {
      var r := own[|own| - 1];
      assert r in own;
      ReferenceComesFromEvent(events, |events|, r);
    } else {
      EmptyFilter(HasDigest());
    }
  }

  lemma {:induction false} ReferenceComesFromEvent(events: seq<Event>, n: nat, r: Reference)
    requires n <= |events| && r in References(events, n)
    ensures r.event in events && r.ref in r.event.artifactRefs
  {
    if r in References(events, n - 1) {
      ReferenceComesFromEvent(events, n - 1, r);
    } else {
      OwnReference(events[n - 1], |events[n - 1].artifactRefs|, r);
    }
  }

  lemma {:induction false} OwnReference(e: Event, n: nat, r: Reference)
    requires n <= |e.artifactRefs| && r in EventReferences(e, n)
    ensures r.event == e && r.ref in e.artifactRefs
  {
    if r in EventReferences(e, n - 1) {
      OwnReference(e, n - 1, r);
    }
  }
}
