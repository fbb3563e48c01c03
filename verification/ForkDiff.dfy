/** The fork/parent comparison of an event log. */
module ForkDiff {
  import opened Strings
  import opened Sorting
  import opened EventLog

  function InFork(forkId: string): Event -> bool {
    (e: Event) => e.forkId == forkId
  }

  function EventsForFork(events: seq<Event>, forkId: string): seq<Event> {
    Filter(events, InFork(forkId))
  }

  /** The events of one side of the diff: none when no fork id is known. */
  function SideEvents(events: seq<Event>, forkId: string): seq<Event> {
    if forkId == "" then [] else EventsForFork(events, forkId)
  }

  function Or(first: string, second: string): string {
    if first != "" then first else second
  }

  datatype ForkPair = ForkPair(fork: string, parent: string)

  function PairOf(e: Event): ForkPair {
    ForkPair(Or(e.marker.forkId, e.forkId), Or(e.marker.parentForkId, e.parentForkId))
  }

  /** `_infer_fork_pair`: the first event that names both a fork and its parent. */
  function InferForkPair(events: seq<Event>): ForkPair {
    if events == [] then ForkPair("", "")
    else if PairOf(events[0]).fork != "" && PairOf(events[0]).parent != "" then PairOf(events[0])
    else InferForkPair(events[1..])
  }

  /** The pair that is compared: ids that are not given are inferred. */
  function Resolve(events: seq<Event>, forkId: string, parentForkId: string): ForkPair {
    if forkId != "" && parentForkId != "" then ForkPair(forkId, parentForkId)
    else ForkPair(Or(forkId, InferForkPair(events).fork), Or(parentForkId, InferForkPair(events).parent))
  }

  // ----- Changed artifacts -----

  datatype Change = Added | Removed | Changed

  datatype ArtifactChange = ArtifactChange(artifactId: string, parentDigest: string, forkDigest: string, change: Change)

  function DigestIn(m: DigestMap, id: string): string {
    if id in m then m[id] else ""
  }

  function ChangeFor(id: string, parent: string, fork: string): ArtifactChange {
    ArtifactChange(id, parent, fork, if parent == "" then Added else if fork == "" then Removed else Changed)
  }

  function ChangesFor(ids: seq<string>, fork: DigestMap, parent: DigestMap): seq<ArtifactChange> {
    if ids == [] then []
    else
      var id := ids[0];
      (if DigestIn(parent, id) != DigestIn(fork, id)
       then [ChangeFor(id, DigestIn(parent, id), DigestIn(fork, id))] else [])
      + ChangesFor(ids[1..], fork, parent)
  }

  function ChangedArtifacts(fork: DigestMap, parent: DigestMap): seq<ArtifactChange> {
    ChangesFor(SortedKeys(fork.Keys + parent.Keys), fork, parent)
  }

  /** The loop of `_fork_diff` over all artifacts of the two sides. */
  method ListChanges(fork: DigestMap, parent: DigestMap) returns (changes: seq<ArtifactChange>)
    ensures changes == ChangedArtifacts(fork, parent)
  {
    hide SortedKeys, ChangeFor, DigestIn, ChangesFor;
    var ids := SortedKeys(fork.Keys + parent.Keys);
    changes := [];
    for i := 0 to |ids|
      invariant ChangesFor(ids, fork, parent) == changes + ChangesFor(ids[i..], fork, parent)
    {
      ChangesStep(changes, ids, fork, parent, i);
      var parentDigest, forkDigest := DigestIn(parent, ids[i]), DigestIn(fork, ids[i]);
      if parentDigest != forkDigest {
        changes := changes + [ChangeFor(ids[i], parentDigest, forkDigest)];
      }
    }
    assert ids[|ids|..] == [];
    NoChanges(fork, parent);
  }

  lemma ChangesStep(before: seq<ArtifactChange>, ids: seq<string>, fork: DigestMap, parent: DigestMap, i: nat)
    requires i < |ids|
    ensures var p, f := DigestIn(parent, ids[i]), DigestIn(fork, ids[i]);
      before + ChangesFor(ids[i..], fork, parent)
      == (if p != f then before + [ChangeFor(ids[i], p, f)] else before) + ChangesFor(ids[i + 1..], fork, parent)
  {
    hide ChangeFor, DigestIn;
    assert ids[i..][1..] == ids[i + 1..];
  }

  lemma NoChanges(fork: DigestMap, parent: DigestMap)
    ensures ChangesFor([], fork, parent) == []
  {}

  // ----- What the list of changes says -----

  /** What a row for this artifact has to be: both digests, and a label for the side that has none. */
  predicate Describes(c: ArtifactChange, fork: DigestMap, parent: DigestMap) {
    && c.parentDigest == DigestIn(parent, c.artifactId) && c.forkDigest == DigestIn(fork, c.artifactId)
    && (c.change == Added <==> c.parentDigest == "")
    && (c.change == Removed <==> c.forkDigest == "")
  }

  predicate Listed(rows: seq<ArtifactChange>, id: string) {
    exists c :: c in rows && c.artifactId == id
  }

  /** Rows for some of these ids, in their order: those whose digests differ, each with a proper row. */
  ghost predicate Explains(rows: seq<ArtifactChange>, ids: seq<string>, fork: DigestMap, parent: DigestMap) {
    && (forall c | c in rows :: c.artifactId in ids && Describes(c, fork, parent))
    && (forall i, j | 0 <= i < j < |rows| ::
          rows[i].artifactId != rows[j].artifactId && Le(rows[i].artifactId, rows[j].artifactId))
    && forall id | id in ids :: Listed(rows, id) <==> DigestIn(parent, id) != DigestIn(fork, id)
  }

  lemma {:induction false} ChangesForMean(ids: seq<string>, fork: DigestMap, parent: DigestMap)
    requires forall i, j | 0 <= i < j < |ids| :: ids[i] != ids[j] && Le(ids[i], ids[j])
    ensures Explains(ChangesFor(ids, fork, parent), ids, fork, parent)
  {
    hide Explains, DigestIn, Le;
    if ids == [] {
      NothingExplained(fork, parent);
    } else {
      ChangesForMean(ids[1..], fork, parent);
      var id, rest := ids[0], ChangesFor(ids[1..], fork, parent);
      if DigestIn(parent, id) == DigestIn(fork, id) {
        SameDigestExplained(rest, ids, fork, parent);
        assert ChangesFor(ids, fork, parent) == rest;
      } else {
        NewDigestExplained(ChangeFor(id, DigestIn(parent, id), DigestIn(fork, id)), rest, ids, fork, parent);
      }
    }
  }

  lemma NothingExplained(fork: DigestMap, parent: DigestMap)
    ensures Explains([], [], fork, parent)
  {}

  lemma SameDigestExplained(rest: seq<ArtifactChange>, ids: seq<string>, fork: DigestMap, parent: DigestMap)
    requires ids != [] && Explains(rest, ids[1..], fork, parent) && ids[0] !in ids[1..]
    requires DigestIn(parent, ids[0]) == DigestIn(fork, ids[0])
    ensures Explains(rest, ids, fork, parent)
  {
    hide DigestIn, Le, Listed, Describes;
    assert forall id :: id in ids <==> id == ids[0] || id in ids[1..];
    NotListed(rest, ids[0]);
  }

  lemma NewDigestExplained(
    first: ArtifactChange, rest: seq<ArtifactChange>, ids: seq<string>, fork: DigestMap, parent: DigestMap)
    requires ids != [] && Explains(rest, ids[1..], fork, parent)
    requires forall i, j | 0 <= i < j < |ids| :: ids[i] != ids[j] && Le(ids[i], ids[j])
    requires first.artifactId == ids[0] && Describes(first, fork, parent)
    requires DigestIn(parent, ids[0]) != DigestIn(fork, ids[0])
    ensures Explains([first] + rest, ids, fork, parent)
  {
    hide DigestIn, Le, Listed, Describes;
    assert forall id :: id in ids <==> id == ids[0] || id in ids[1..];
    forall c | c in rest ensures c.artifactId != ids[0] && Le(ids[0], c.artifactId) {
      var i :| 0 <= i < |ids[1..]| && ids[1..][i] == c.artifactId;
      assert ids[i + 1] == c.artifactId;
    }
    FirstRow(first, rest);
  }

  lemma NotListed(rows: seq<ArtifactChange>, id: string)
    requires forall c | c in rows :: c.artifactId != id
    ensures !Listed(rows, id)
  {}

  lemma FirstRow(first: ArtifactChange, rest: seq<ArtifactChange>)
    ensures forall id :: Listed([first] + rest, id) <==> id == first.artifactId || Listed(rest, id)
  {
    assert first in [first] + rest && forall c | c in rest :: c in [first] + rest;
  }

  /**
   The rows come in id order, one for each artifact whose digests differ, a missing one read as empty.  A row
   carries the parent's and the fork's digest; it says added when the parent has none, removed when the fork
   has none, and changed otherwise.
   */
  lemma ChangesMean(fork: DigestMap, parent: DigestMap)
    ensures var rows := ChangedArtifacts(fork, parent);
      && (forall c | c in rows :: Describes(c, fork, parent))
      && (forall i, j | 0 <= i < j < |rows| ::
            rows[i].artifactId != rows[j].artifactId && Le(rows[i].artifactId, rows[j].artifactId))
      && forall id ::
           Listed(rows, id) <==> DigestIn(parent, id) != DigestIn(fork, id)
  {
    var ids := SortedKeys(fork.Keys + parent.Keys);
    ChangesForMean(ids, fork, parent);
    hide ChangesFor, Describes;
    forall id | id !in ids ensures DigestIn(parent, id) == DigestIn(fork, id) {
      assert id !in fork.Keys + parent.Keys;
    }
  }

  /** The digests after the changes are made. */
  function Patch(m: DigestMap, changes: seq<ArtifactChange>): DigestMap
    decreases |changes|
  {
    if changes == [] then m else Patch(m[changes[0].artifactId := changes[0].forkDigest], changes[1..])
  }

  lemma {:induction false} PatchTouches(m: DigestMap, ids: seq<string>, fork: DigestMap, parent: DigestMap, id: string)
    requires forall i, j | 0 <= i < j < |ids| :: ids[i] != ids[j]
    ensures DigestIn(Patch(m, ChangesFor(ids, fork, parent)), id)
         == if id in ids && DigestIn(parent, id) != DigestIn(fork, id) then DigestIn(fork, id) else DigestIn(m, id)
    decreases |ids|
  {
    if ids != [] {
      var k := ids[0];
      var m' := if DigestIn(parent, k) != DigestIn(fork, k) then m[k := DigestIn(fork, k)] else m;
      PatchTouches(m', ids[1..], fork, parent, id);
      var rest := ChangesFor(ids[1..], fork, parent);
      if DigestIn(parent, k) != DigestIn(fork, k) {
        var c := ChangeFor(k, DigestIn(parent, k), DigestIn(fork, k));
        assert ChangesFor(ids, fork, parent) == [c] + rest && ([c] + rest)[1..] == rest;
      } else {
        assert ChangesFor(ids, fork, parent) == rest;
      }
      assert id in ids <==> id == k || id in ids[1..];
    }
  }

  /** Patching the parent's digests with the reported changes gives the fork's, a missing artifact read as empty. */
  lemma PatchedParentIsFork(fork: DigestMap, parent: DigestMap, id: string)
    ensures DigestIn(Patch(parent, ChangedArtifacts(fork, parent)), id) == DigestIn(fork, id)
  {
    PatchTouches(parent, SortedKeys(fork.Keys + parent.Keys), fork, parent, id);
  }

  function SwappedChange(c: ArtifactChange): ArtifactChange {
    ArtifactChange(c.artifactId, c.forkDigest, c.parentDigest,
                   match c.change case Added => Removed case Removed => Added case Changed => Changed)
  }

  function Swapped(changes: seq<ArtifactChange>): seq<ArtifactChange> {
    Mapped(changes, c => SwappedChange(c))
  }

  lemma {:induction false} SwapChanges(ids: seq<string>, fork: DigestMap, parent: DigestMap)
    ensures ChangesFor(ids, parent, fork) == Swapped(ChangesFor(ids, fork, parent))
  {
    if ids != [] {
      var id := ids[0];
      var p, f := DigestIn(parent, id), DigestIn(fork, id);
      ChangeSwaps(id, p, f);
      hide ChangeFor, SwappedChange, DigestIn;
      SwapChanges(ids[1..], fork, parent);
    }
  }

  lemma ChangeSwaps(id: string, parent: string, fork: string)
    ensures parent != fork ==> ChangeFor(id, fork, parent) == SwappedChange(ChangeFor(id, parent, fork))
  {}

  // ----- Event counts -----

  function OfType(eventType: string): Event -> bool {
    (e: Event) => e.eventType == eventType
  }

  function TypeCount(events: seq<Event>, eventType: string): nat {
    |Filter(events, OfType(eventType))|
  }

  function Types(events: seq<Event>): set<string> {
    set e | e in events :: e.eventType
  }

  function TypeDelta(fork: seq<Event>, parent: seq<Event>, eventType: string): int {
    TypeCount(fork, eventType) - TypeCount(parent, eventType)
  }

  datatype ForkDiffReport = ForkDiffReport(
    pair: ForkPair, eventDelta: int, typeDeltas: map<string, int>, changedArtifacts: seq<ArtifactChange>)

  /** `_fork_diff`; an empty id stands for one that was not given. */
  function Diff(events: seq<Event>, forkId: string, parentForkId: string): ForkDiffReport {
    DiffOf(events, Resolve(events, forkId, parentForkId))
  }

  function DiffOf(events: seq<Event>, pair: ForkPair): ForkDiffReport {
    var fork, parent := SideEvents(events, pair.fork), SideEvents(events, pair.parent);
    ForkDiffReport(
      pair,
      |fork| - |parent|,
      map t | t in Types(fork) + Types(parent) :: TypeDelta(fork, parent, t),
      ChangedArtifacts(ArtifactDigestMap(fork), ArtifactDigestMap(parent)))
  }

  function SumOver(types: seq<string>, deltas: map<string, int>): int
    requires forall t | t in types :: t in deltas
  {
    if types == [] then 0 else deltas[types[0]] + SumOver(types[1..], deltas)
  }

  function CountOver(types: seq<string>, events: seq<Event>): nat {
    if types == [] then 0 else TypeCount(events, types[0]) + CountOver(types[1..], events)
  }

  lemma {:induction false} CountOneMore(types: seq<string>, e: Event, events: seq<Event>)
    requires forall i, j | 0 <= i < j < |types| :: types[i] != types[j]
    ensures CountOver(types, [e] + events) == CountOver(types, events) + if e.eventType in types then 1 else 0
  {
    if types != [] {
      CountOneMore(types[1..], e, events);
      assert ([e] + events)[1..] == events;
      assert e.eventType in types <==> e.eventType == types[0] || e.eventType in types[1..];
    }
  }

  lemma {:induction false} CountsCoverEvents(types: seq<string>, events: seq<Event>)
    requires forall i, j | 0 <= i < j < |types| :: types[i] != types[j]
    requires forall e | e in events :: e.eventType in types
    ensures CountOver(types, events) == |events|
  {
    if events == [] {
      NoEventsCounted(types);
    } else {
      CountsCoverEvents(types, events[1..]);
      CountOneMore(types, events[0], events[1..]);
      assert events == [events[0]] + events[1..];
    }
  }

  lemma {:induction false} NoEventsCounted(types: seq<string>)
    ensures CountOver(types, []) == 0
  {
    if types != [] {
      NoEventsCounted(types[1..]);
    }
  }

  lemma {:induction false} DeltasAreCounts(
    types: seq<string>, deltas: map<string, int>, fork: seq<Event>, parent: seq<Event>)
    requires forall t | t in types :: t in deltas && deltas[t] == TypeDelta(fork, parent, t)
    ensures SumOver(types, deltas) == CountOver(types, fork) - CountOver(types, parent)
  {
    hide TypeCount;
    if types != [] {
      assert types[0] in types;
      DeltasAreCounts(types[1..], deltas, fork, parent);
    }
  }

  /** The event-type deltas add up to the event delta, with given and with inferred ids. */
  lemma TypeDeltasSumToEventDelta(events: seq<Event>, forkId: string, parentForkId: string)
    ensures var r := Diff(events, forkId, parentForkId);
      SumOver(SortedKeys(r.typeDeltas.Keys), r.typeDeltas) == r.eventDelta
  {
    hide SideEvents, ArtifactDigestMap, ChangedArtifacts, TypeDelta, Resolve;
    var r := Diff(events, forkId, parentForkId);
    var fork, parent := SideEvents(events, r.pair.fork), SideEvents(events, r.pair.parent);
    var types := SortedKeys(r.typeDeltas.Keys);
    assert r.typeDeltas.Keys == Types(fork) + Types(parent);
    DeltasAreCounts(types, r.typeDeltas, fork, parent);
    forall e | e in fork || e in parent ensures e.eventType in types {
      assert e.eventType in Types(fork) + Types(parent);
    }
    CountsCoverEvents(types, fork);
    CountsCoverEvents(types, parent);
  }

  /** The second report is the first one seen from the other side. */
  ghost predicate Opposite(there: ForkDiffReport, back: ForkDiffReport) {
    && back.eventDelta == -there.eventDelta
    && back.typeDeltas.Keys == there.typeDeltas.Keys
    && (forall t | t in there.typeDeltas :: back.typeDeltas[t] == -there.typeDeltas[t])
    && back.changedArtifacts == Swapped(there.changedArtifacts)
  }

  lemma SwapOfPair(events: seq<Event>, pair: ForkPair)
    ensures Opposite(DiffOf(events, pair), DiffOf(events, ForkPair(pair.parent, pair.fork)))
  {
    hide SideEvents, ArtifactDigestMap, TypeCount;
    var fork, parent := SideEvents(events, pair.fork), SideEvents(events, pair.parent);
    var f, p := ArtifactDigestMap(fork), ArtifactDigestMap(parent);
    assert Types(fork) + Types(parent) == Types(parent) + Types(fork);
    assert f.Keys + p.Keys == p.Keys + f.Keys;
    SwapChanges(SortedKeys(f.Keys + p.Keys), f, p);
  }

  /**
   Swapping fork and parent negates every delta and turns added into removed, on every log, exactly
   when both ids are given; an inferred id does not change sides with the arguments.
   */
  lemma SwapNegates(forkId: string, parentForkId: string)
    ensures (forall events :: Opposite(Diff(events, forkId, parentForkId), Diff(events, parentForkId, forkId)))
      <==> forkId != "" && parentForkId != ""
  {
    hide DiffOf, Opposite;
    if forkId != "" && parentForkId != "" {
      forall events ensures Opposite(Diff(events, forkId, parentForkId), Diff(events, parentForkId, forkId)) {
        SwapOfPair(events, ForkPair(forkId, parentForkId));
      }
    } else {
      var events := [OneEvent(forkId + parentForkId)];
      OneEventDiff(forkId, parentForkId);
      OneEventDiff(parentForkId, forkId);
      assert forkId + parentForkId == parentForkId + forkId;
      NotOpposite(Diff(events, forkId, parentForkId), Diff(events, parentForkId, forkId));
    }
  }

  /** An event of a fork whose id, and whose parent's id, are longer than the given one. */
  function OneEvent(given: string): Event {
    Event(1, "e", "t", "", given + "f", given + "p", ForkMarker("", ""), [], [])
  }

  lemma OneEventDiff(forkId: string, parentForkId: string)
    requires forkId == "" || parentForkId == ""
    ensures Diff([OneEvent(forkId + parentForkId)], forkId, parentForkId).eventDelta == if forkId == "" then 1 else 0
  {
    var given := forkId + parentForkId;
    var e := OneEvent(given);
    assert given == (if forkId == "" then parentForkId else forkId);
    assert |given + "f"| == |given| + 1 && (given + "f")[|given|] != (given + "p")[|given|];
    assert InferForkPair([e]) == ForkPair(given + "f", given + "p");
    OnlyEvent(e, Resolve([e], forkId, parentForkId).fork);
    OnlyEvent(e, Resolve([e], forkId, parentForkId).parent);
  }

  lemma OnlyEvent(e: Event, forkId: string)
    requires forkId != ""
    ensures |SideEvents([e], forkId)| == if e.forkId == forkId then 1 else 0
  {
    assert [e][1..] == [] && Filter([], InFork(forkId)) == [];
    assert Filter([e], InFork(forkId)) == if e.forkId == forkId then [e] else [];
  }

  lemma NotOpposite(there: ForkDiffReport, back: ForkDiffReport)
    requires there.eventDelta + back.eventDelta > 0
    ensures !Opposite(there, back)
  {}

  /** Each side of the diff looks only at its own fork's events, each as often as the log has it. */
  lemma ForkSeesOwnEvents(events: seq<Event>, forkId: string, e: Event)
    ensures multiset(SideEvents(events, forkId))[e]
         == if forkId != "" && e.forkId == forkId then multiset(events)[e] else 0
  {
    FilterMultiset(events, InFork(forkId), e);
  }

  /** The event names this fork and this parent, each in its marker, or itself where the marker does not. */
  predicate NamesPair(e: Event, fork: string, parent: string) {
    && fork != "" && parent != ""
    && (fork == e.marker.forkId || (e.marker.forkId == "" && fork == e.forkId))
    && (parent == e.marker.parentForkId || (e.marker.parentForkId == "" && parent == e.parentForkId))
  }

  predicate NamesSomePair(e: Event) {
    (e.marker.forkId != "" || e.forkId != "") && (e.marker.parentForkId != "" || e.parentForkId != "")
  }

  lemma PairIsNamed(e: Event)
    ensures NamesSomePair(e) <==> PairOf(e).fork != "" && PairOf(e).parent != ""
    ensures NamesSomePair(e) ==>
      forall fork, parent :: NamesPair(e, fork, parent) <==> PairOf(e) == ForkPair(fork, parent)
  {}

  /** The inferred pair comes from the first event that names both sides, or is empty when there is none. */
  lemma {:induction false} InferredPairIsFirst(events: seq<Event>)
    ensures (forall e | e in events :: !NamesSomePair(e)) ==> InferForkPair(events) == ForkPair("", "")
    ensures forall n, fork, parent | 0 <= n < |events| && NamesPair(events[n], fork, parent)
                                     && (forall m | 0 <= m < n :: !NamesSomePair(events[m])) ::
              InferForkPair(events) == ForkPair(fork, parent)
  {
    hide PairOf, NamesPair, NamesSomePair;
    if events != [] {
      PairIsNamed(events[0]);
      InferredPairIsFirst(events[1..]);
      forall n, fork, parent | 0 <= n < |events| && NamesPair(events[n], fork, parent)
                               && (forall m | 0 <= m < n :: !NamesSomePair(events[m]))
        ensures InferForkPair(events) == ForkPair(fork, parent)
      {
        if n > 0 {
          assert events[1..][n - 1] == events[n];
          assert forall m | 0 <= m < n - 1 :: events[1..][m] == events[m + 1];
          assert !NamesSomePair(events[0]);
        } else {
          PairNamesSome(events[0], fork, parent);
        }
      }
    }
  }

  lemma PairNamesSome(e: Event, fork: string, parent: string)
    requires NamesPair(e, fork, parent)
    ensures NamesSomePair(e)
  {}
}
