/** The id lists of a lineage row: every non-empty id of its references once, in order of first occurrence. */
module LineageLists {
  import opened Sorting
  import opened EventLog

  /** The first position of x, or the length when x does not occur. */
  function FirstIndex(ids: seq<string>, x: string): nat {
    if ids == [] || ids[0] == x then 0 else 1 + FirstIndex(ids[1..], x)
  }

  /** The non-empty ids, each once, in order of first occurrence. */
  ghost predicate FirstOccurrences(list: seq<string>, ids: seq<string>) {
    && (forall x :: x in list <==> x in ids && x != "")
    && forall i, j | 0 <= i < j < |list| :: FirstIndex(ids, list[i]) < FirstIndex(ids, list[j])
  }

  lemma {:induction false} FirstIndexSnoc(ids: seq<string>, last: string, x: string)
    ensures x in ids ==> FirstIndex(ids, x) < |ids|
    ensures FirstIndex(ids + [last], x)
         == if x in ids then FirstIndex(ids, x) else if x == last then |ids| else |ids| + 1
  {
    if ids == [] {
      assert ([] + [last])[1..] == [];
    } else {
      assert (ids + [last])[1..] == ids[1..] + [last];
      FirstIndexSnoc(ids[1..], last, x);
    }
  }

  lemma AppendNewListsFirst(list: seq<string>, ids: seq<string>, last: string)
    requires FirstOccurrences(list, ids)
    ensures FirstOccurrences(AppendNew(list, last), ids + [last])
  {
    var grown := AppendNew(list, last);
    forall x ensures x in ids ==> FirstIndex(ids, x) < |ids|
             ensures FirstIndex(ids + [last], x)
                  == if x in ids then FirstIndex(ids, x) else if x == last then |ids| else |ids| + 1 {
      FirstIndexSnoc(ids, last, x);
    }
    hide FirstIndex;
    assert forall i | 0 <= i < |list| :: list[i] in list && grown[i] == list[i];
  }

  lemma {:induction false} AppendedListsFirst(ids: seq<string>)
    ensures FirstOccurrences(AppendAllNew([], ids), ids)
  {
    if ids != [] {
      hide FirstOccurrences, AppendNew;
      AppendedListsFirst(ids[..|ids| - 1]);
      AppendNewListsFirst(AppendAllNew([], ids[..|ids| - 1]), ids[..|ids| - 1], ids[|ids| - 1]);
      assert ids[..|ids| - 1] + [ids[|ids| - 1]] == ids;
    }
  }

  lemma {:induction false} AppendInTwo(list: seq<string>, x: seq<string>, y: seq<string>)
    ensures AppendAllNew(list, x + y) == AppendAllNew(AppendAllNew(list, x), y)
    decreases |y|
  {
    if y == [] {
      assert x + y == x;
    } else {
      hide AppendNew;
      assert (x + y)[..|x + y| - 1] == x + y[..|y| - 1];
      AppendInTwo(list, x, y[..|y| - 1]);
    }
  }

  lemma AppendOne(list: seq<string>, x: string)
    ensures AppendAllNew(list, [x]) == AppendNew(list, x)
  {
    assert [x][..0] == [];
  }

  // ----- The ids that references carry -----

  function CheckpointIds(refs: seq<Reference>): seq<string> {
    if refs == [] then [] else CheckpointIds(refs[..|refs| - 1]) + [refs[|refs| - 1].event.checkpointId]
  }

  function ForkIds(refs: seq<Reference>): seq<string> {
    if refs == [] then [] else ForkIds(refs[..|refs| - 1]) + [refs[|refs| - 1].event.forkId]
  }

  function EvidenceIds(refs: seq<Reference>): seq<string> {
    if refs == [] then [] else EvidenceIds(refs[..|refs| - 1]) + refs[|refs| - 1].event.evidenceRefIds
  }

  lemma IdsSnoc(refs: seq<Reference>, r: Reference)
    ensures CheckpointIds(refs + [r]) == CheckpointIds(refs) + [r.event.checkpointId]
    ensures ForkIds(refs + [r]) == ForkIds(refs) + [r.event.forkId]
    ensures EvidenceIds(refs + [r]) == EvidenceIds(refs) + r.event.evidenceRefIds
  {
    assert (refs + [r])[..|refs|] == refs;
  }

  /** A row whose kind and id lists are those of the references to its artifact. */
  ghost predicate ListsAllOf(row: Lineage, own: seq<Reference>) {
    && own != [] && row.kind == own[0].ref.kind
    && row.checkpoints == AppendAllNew([], CheckpointIds(own))
    && row.forkIds == AppendAllNew([], ForkIds(own))
    && row.evidenceRefIds == AppendAllNew([], EvidenceIds(own))
  }

  lemma ExtendedListsAll(row: Lineage, own: seq<Reference>, r: Reference)
    requires if own == [] then row == NewRow(r) else ListsAllOf(row, own)
    ensures ListsAllOf(Extend(row, r), own + [r])
  {
    hide AppendNew, AppendAllNew;
    IdsSnoc(own, r);
    AppendInTwo([], CheckpointIds(own), [r.event.checkpointId]);
    AppendInTwo([], ForkIds(own), [r.event.forkId]);
    AppendInTwo([], EvidenceIds(own), r.event.evidenceRefIds);
    AppendOne(AppendAllNew([], CheckpointIds(own)), r.event.checkpointId);
    AppendOne(AppendAllNew([], ForkIds(own)), r.event.forkId);
    NothingAppended();
    hide CheckpointIds, ForkIds, EvidenceIds;
    assert (own + [r])[0] == if own == [] then r else own[0];
  }

  lemma NothingAppended()
    ensures AppendAllNew([], []) == [] && CheckpointIds([]) == [] && ForkIds([]) == [] && EvidenceIds([]) == []
  {}

  lemma {:induction false} RowListsAll(refs: seq<Reference>, id: string)
    requires id != ""
    ensures id in Rows(refs) <==> Filter(refs, RefersTo(id)) != []
    ensures id in Rows(refs) ==> ListsAllOf(Rows(refs)[id], Filter(refs, RefersTo(id)))
  {
    hide Filter, ListsAllOf, Extend, NewRow;
    if refs == [] {
      EmptyFilter(RefersTo(id));
    } else {
      var before, r := refs[..|refs| - 1], refs[|refs| - 1];
      assert refs == before + [r];
      RowListsAll(before, id);
      FilterSnoc(before, r, RefersTo(id));
      if r.ref.artifactId == id {
        ExtendedListsAll(if id in Rows(before) then Rows(before)[id] else NewRow(r), Filter(before, RefersTo(id)), r);
      }
    }
  }

  /**
   A row has the kind of the first reference to its artifact, and lists the checkpoints, the forks and
   the evidence of the events of all of them, each non-empty id once, in order of first occurrence.
   */
  lemma RowListsFirstOccurrences(refs: seq<Reference>, id: string)
    requires id != "" && id in Rows(refs)
    ensures var row, own := Rows(refs)[id], Filter(refs, RefersTo(id));
      && own != [] && row.kind == own[0].ref.kind
      && FirstOccurrences(row.checkpoints, CheckpointIds(own))
      && FirstOccurrences(row.forkIds, ForkIds(own))
      && FirstOccurrences(row.evidenceRefIds, EvidenceIds(own))
  {
    hide Filter, Rows, FirstOccurrences, AppendAllNew, CheckpointIds, ForkIds, EvidenceIds;
    var own := Filter(refs, RefersTo(id));
    RowListsAll(refs, id);
    AppendedListsFirst(CheckpointIds(own));
    AppendedListsFirst(ForkIds(own));
    AppendedListsFirst(EvidenceIds(own));
  }
}
