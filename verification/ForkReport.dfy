/** What a fork/parent report says of the log it is drawn from. */
module ForkReport {
  import opened Sorting
  import opened EventLog
  import opened ForkDiff

  /** The number of events of the log on a side of the diff; an unknown id has none. */
  function OnSide(events: seq<Event>, id: string): nat {
    if events == [] then 0 else OnSide(events[1..], id) + if id != "" && events[0].forkId == id then 1 else 0
  }

  function OnSideOfType(events: seq<Event>, id: string, eventType: string): nat {
    if events == [] then 0
    else
      OnSideOfType(events[1..], id, eventType)
      + if id != "" && events[0].forkId == id && events[0].eventType == eventType then 1 else 0
  }

  lemma {:induction false} SideIsCounted(events: seq<Event>, id: string, eventType: string)
    ensures |SideEvents(events, id)| == OnSide(events, id)
    ensures TypeCount(SideEvents(events, id), eventType) == OnSideOfType(events, id, eventType)
  {
    if events != [] {
      SideIsCounted(events[1..], id, eventType);
      var rest := SideEvents(events[1..], id);
      if id != "" && events[0].forkId == id {
        assert SideEvents(events, id) == [events[0]] + rest && ([events[0]] + rest)[1..] == rest;
      } else {
        assert SideEvents(events, id) == rest;
      }
    }
  }

  lemma TypesOnSide(events: seq<Event>, id: string, eventType: string)
    ensures eventType in Types(SideEvents(events, id)) <==> OnSideOfType(events, id, eventType) > 0
  {
    SideIsCounted(events, id, eventType);
    FilterFinds(SideEvents(events, id), eventType);
  }

  lemma {:induction false} FilterFinds(events: seq<Event>, eventType: string)
    ensures eventType in Types(events) <==> TypeCount(events, eventType) > 0
  {
    if events != [] {
      FilterFinds(events[1..], eventType);
      assert eventType in Types(events) <==> events[0].eventType == eventType || eventType in Types(events[1..]);
    }
  }

  /** The digest a side of the diff has for an artifact: that of its last reference there, or the empty one. */
  function SideDigest(events: seq<Event>, id: string, artifact: string): string {
    var side := SideEvents(events, id);
    LastDigest(Filter(References(side, |side|), RefersTo(artifact)))
  }

  lemma SideDigestIsLast(events: seq<Event>, id: string, artifact: string)
    ensures artifact != "" ==>
      DigestIn(ArtifactDigestMap(SideEvents(events, id)), artifact) == SideDigest(events, id, artifact)
    ensures "" !in ArtifactDigestMap(SideEvents(events, id))
  {
    hide Filter, References, SideEvents, Digests;
    var side := SideEvents(events, id);
    if artifact != "" {
      DigestIsLast(References(side, |side|), artifact);
    }
    NoRowWithoutId(References(side, |side|));
  }

  /**
   The report compares the given ids, or the inferred one where none is given.  Its deltas are the events of
   the fork minus those of the parent, in all and by each type that either side has.
   */
  lemma ReportCounts(events: seq<Event>, forkId: string, parentForkId: string)
    ensures var r := Diff(events, forkId, parentForkId);
      && r.pair.fork == (if forkId != "" then forkId else InferForkPair(events).fork)
      && r.pair.parent == (if parentForkId != "" then parentForkId else InferForkPair(events).parent)
      && r.eventDelta == OnSide(events, r.pair.fork) - OnSide(events, r.pair.parent)
      && forall t ::
           (t in r.typeDeltas <==> OnSideOfType(events, r.pair.fork, t) + OnSideOfType(events, r.pair.parent, t) > 0)
           && (t in r.typeDeltas ==>
                 r.typeDeltas[t] == OnSideOfType(events, r.pair.fork, t) - OnSideOfType(events, r.pair.parent, t))
  {
    hide SideEvents, TypeCount, Types, OnSide, OnSideOfType, ArtifactDigestMap, ChangedArtifacts, InferForkPair;
    var pair := Resolve(events, forkId, parentForkId);
    SideIsCounted(events, pair.fork, "");
    SideIsCounted(events, pair.parent, "");
    forall t
      ensures t in Types(SideEvents(events, pair.fork)) <==> OnSideOfType(events, pair.fork, t) > 0
      ensures t in Types(SideEvents(events, pair.parent)) <==> OnSideOfType(events, pair.parent, t) > 0
      ensures TypeCount(SideEvents(events, pair.fork), t) == OnSideOfType(events, pair.fork, t)
      ensures TypeCount(SideEvents(events, pair.parent), t) == OnSideOfType(events, pair.parent, t)
    {
      TypesOnSide(events, pair.fork, t);
      TypesOnSide(events, pair.parent, t);
      SideIsCounted(events, pair.fork, t);
      SideIsCounted(events, pair.parent, t);
    }
  }

  /** Its rows are the artifacts whose last digests on the two sides differ, each with the parent's and the fork's. */
  lemma ReportArtifacts(events: seq<Event>, forkId: string, parentForkId: string, artifact: string)
    requires artifact != ""
    ensures var r := Diff(events, forkId, parentForkId);
      var parent, fork := SideDigest(events, r.pair.parent, artifact), SideDigest(events, r.pair.fork, artifact);
      && (Listed(r.changedArtifacts, artifact) <==> parent != fork)
      && !Listed(r.changedArtifacts, "")
      && forall c | c in r.changedArtifacts && c.artifactId == artifact ::
           && c.parentDigest == parent && c.forkDigest == fork
           && c.change == if parent == "" then Added else if fork == "" then Removed else Changed
  {
    hide SideEvents, SideDigest, ArtifactDigestMap, ChangedArtifacts, Resolve, TypeDelta, Types;
    var r := Diff(events, forkId, parentForkId);
    SideDigestIsLast(events, r.pair.fork, artifact);
    SideDigestIsLast(events, r.pair.parent, artifact);
    ChangesMean(ArtifactDigestMap(SideEvents(events, r.pair.fork)),
                ArtifactDigestMap(SideEvents(events, r.pair.parent)));
  }
}
