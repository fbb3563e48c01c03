/** When two catalogs built from live metadata agree, and how far the reported diff explains a disagreement. */
module CatalogAgreement {
  import opened Strings
  import opened Sorting
  import opened Json
  import opened MetadataDiff
  import opened Catalog
  import opened CatalogCompare

  // ----- Entry maps of lists with distinct keys -----

  lemma {:induction false} MapHoldsEntries(h: Host, s: Surface, entries: seq<Json>, k: string)
    requires k in EntryMap(h, s, entries)
    ensures exists e :: e in entries && e.Obj? && EntryKey(h, s, e) == k && EntryMap(h, s, entries)[k] == e.fields
  {
    hide EntryKey;
    if entries != [] {
      var last := entries[|entries| - 1];
      if last.Obj? && EntryKey(h, s, last) == k {
        assert last in entries;
      } else {
        MapHoldsEntries(h, s, entries[..|entries| - 1], k);
        var e :| e in entries[..|entries| - 1] && e.Obj? && EntryKey(h, s, e) == k
                 && EntryMap(h, s, entries[..|entries| - 1])[k] == e.fields;
        assert e in entries;
      }
    }
  }

  lemma {:induction false} EntryIsMapped(h: Host, s: Surface, entries: seq<Json>, i: nat)
    requires Distinct(h, s, entries) && i < |entries| && entries[i].Obj?
    ensures EntryKey(h, s, entries[i]) in EntryMap(h, s, entries)
    ensures EntryMap(h, s, entries)[EntryKey(h, s, entries[i])] == entries[i].fields
  {
    hide EntryKey;
    if i < |entries| - 1 {
      EntryIsMapped(h, s, entries[..|entries| - 1], i);
    }
  }

  // ----- Canonical lists -----

  /** A sorted list of canonical entries with distinct keys. */
  ghost predicate CanonicalList(h: Host, s: Surface, entries: seq<Json>) {
    && Distinct(h, s, entries) && Sorted(entries, ByKey(h, s))
    && forall e | e in entries :: IsCanonical(h, s, e)
  }

  ghost predicate IsCanonical(h: Host, s: Surface, e: Json) {
    exists d: Described :: e == Obj(Redigest(h, s, BareEntry(s, d)))
  }

  lemma BuiltListIsCanonical(h: Host, describe: Describer, s: Surface, items: seq<Json>)
    requires Faithful(h) && UniqueKeys(describe, s, items)
    ensures CanonicalList(h, s, SortedEntries(h, describe, s, items))
  {
    hide ByKey, EntryKey, Redigest;
    var entries := Entries(h, describe, s, items);
    var sorted := SortedEntries(h, describe, s, items);
    EntriesAreDistinct(h, describe, s, items);
    ByKeyOrders(h, s);
    SortSorts(entries, ByKey(h, s));
    SortPermutes(entries, ByKey(h, s));
    SortSameElements(entries, ByKey(h, s));
    DistinctPermutes(h, s, entries, sorted);
    forall e | e in sorted ensures IsCanonical(h, s, e) {
      assert e in entries;
      var i :| 0 <= i < |entries| && entries[i] == e;
      assert e == Obj(Redigest(h, s, BareEntry(s, describe(s, items[i]))));
    }
  }

  lemma DistinctPermutes(h: Host, s: Surface, x: seq<Json>, y: seq<Json>)
    requires Distinct(h, s, x) && multiset(x) == multiset(y)
    ensures Distinct(h, s, y)
  {
    hide EntryKey;
    forall i, j | 0 <= i < j < |y| ensures EntryKey(h, s, y[i]) != EntryKey(h, s, y[j]) {
      if EntryKey(h, s, y[i]) == EntryKey(h, s, y[j]) {
        assert y[i] in multiset(x) && y[j] in multiset(x);
        assert y[i] == y[j];
        assert y == y[..i] + [y[i]] + y[i + 1..j] + [y[j]] + y[j + 1..];
        assert multiset(y)[y[i]] >= 2;
        OnceIfDistinct(h, s, x, y[i]);
        assert false;
      }
    }
  }

  lemma {:induction false} OnceIfDistinct(h: Host, s: Surface, x: seq<Json>, e: Json)
    requires Distinct(h, s, x)
    ensures multiset(x)[e] == if e in x then 1 else 0
  {
    hide EntryKey;
    if x != [] {
      OnceIfDistinct(h, s, x[1..], e);
      assert x == [x[0]] + x[1..];
      assert forall j | 0 <= j < |x| - 1 :: x[1..][j] == x[j + 1];
      assert x[0] !in x[1..];
    }
  }

  lemma SameElementsSameList(h: Host, s: Surface, x: seq<Json>, y: seq<Json>)
    requires CanonicalList(h, s, x) && CanonicalList(h, s, y)
    requires forall e :: e in x <==> e in y
    ensures x == y
  {
    hide EntryKey, IsCanonical;
    forall e ensures multiset(x)[e] == multiset(y)[e] {
      OnceIfDistinct(h, s, x, e);
      OnceIfDistinct(h, s, y, e);
    }
    forall e, f | e in x && f in x && ByKey(h, s)(e, f) && ByKey(h, s)(f, e) ensures e == f {
      LeAntisymmetric(EntryKey(h, s, e), EntryKey(h, s, f));
    }
    SortedUnique(x, y, ByKey(h, s));
  }

  lemma CanonicalHasDigest(h: Host, s: Surface, e: Json)
    requires IsCanonical(h, s, e)
    ensures e.Obj? && "digest" in e.fields && e.fields["digest"].Str?
  {
    hide WithTemplateDigest, BareEntry, Payload;
  }

  lemma SameDigestOfStrings(d: Dict, e: Dict)
    requires "digest" in d && "digest" in e && d["digest"].Str? && e["digest"].Str?
    ensures SameDigest(d, e) <==> d["digest"] == e["digest"]
  {}

  lemma SameDigestSameEntry(h: Host, s: Surface, e: Json, f: Json)
    requires Faithful(h) && IsCanonical(h, s, e) && IsCanonical(h, s, f) && SameDigest(FieldsOf(e), FieldsOf(f))
    ensures e == f
  {
    CanonicalHasDigest(h, s, e);
    CanonicalHasDigest(h, s, f);
    SameDigestOfStrings(e.fields, f.fields);
    hide Redigest, BareEntry, SameDigest, Faithful;
    var x :| e == Obj(Redigest(h, s, BareEntry(s, x)));
    var y :| f == Obj(Redigest(h, s, BareEntry(s, y)));
    DigestDetermines(h, s, x, y);
  }

  lemma MatchedContains(h: Host, s: Surface, x: seq<Json>, y: seq<Json>, e: Json)
    requires Faithful(h) && CanonicalList(h, s, x) && CanonicalList(h, s, y)
    requires e in x
    requires var b, c := EntryMap(h, s, x), EntryMap(h, s, y);
      b.Keys <= c.Keys && forall k | k in b && k in c :: SameDigest(b[k], c[k]) && SameDigest(c[k], b[k])
    ensures e in y
  {
    hide EntryKey, SameDigest, EntryMap, IsCanonical;
    var i :| 0 <= i < |x| && x[i] == e;
    CanonicalHasDigest(h, s, e);
    EntryIsMapped(h, s, x, i);
    var k := EntryKey(h, s, e);
    MapHoldsEntries(h, s, y, k);
    var f :| f in y && f.Obj? && EntryKey(h, s, f) == k && EntryMap(h, s, y)[k] == f.fields;
    SameDigestSameEntry(h, s, e, f);
  }

  /** For canonical lists, a match is equality. */
  lemma MatchedIsEqual(h: Host, s: Surface, x: seq<Json>, y: seq<Json>)
    requires Faithful(h) && CanonicalList(h, s, x) && CanonicalList(h, s, y)
    ensures Matched(CompareEntries(h, s, x, y)) <==> x == y
  {
    hide CompareEntries, Matched, EntryMap, CanonicalList, Faithful;
    MatchedMeans(h, s, x, y);
    if Matched(CompareEntries(h, s, x, y)) {
      forall e ensures e in x <==> e in y {
        if e in x {
          MatchedContains(h, s, x, y, e);
        }
        if e in y {
          MatchedContains(h, s, y, x, e);
        }
      }
      SameElementsSameList(h, s, x, y);
    }
  }

  /**
   Two catalogs built with unique keys per surface: the comparison of the four surfaces says
   "matched" exactly when the whole-catalog digests are equal.
   */
  lemma MatchedIffDigestsEqual(h: Host, blank: CatalogDoc, describe: Describer, live: LiveMetadata,
                               describe': Describer, live': LiveMetadata)
    requires Faithful(h)
    requires forall s: Surface :: UniqueKeys(describe, s, PayloadsOf(live, s))
    requires forall s: Surface :: UniqueKeys(describe', s, PayloadsOf(live', s))
    ensures var a, b := Build(h, blank, describe, live), Build(h, blank, describe', live');
      AllMatched(h, a, b) <==> a.wholeDigest == b.wholeDigest
  {
    hide Build, CompareEntries, Matched, ListOf, CountOf, Items;
    var a, b := Build(h, blank, describe, live), Build(h, blank, describe', live');
    SurfaceAgrees(h, blank, describe, live, describe', live', Tools);
    SurfaceAgrees(h, blank, describe, live, describe', live', Prompts);
    SurfaceAgrees(h, blank, describe, live, describe', live', Resources);
    SurfaceAgrees(h, blank, describe, live, describe', live', Discovery);
    BuiltItems(h, blank, describe, live, Tools);
    BuiltItems(h, blank, describe', live', Tools);
    assert a.wholeDigest == b.wholeDigest <==> CatalogPayload(a) == CatalogPayload(b);
    var p, q := CatalogPayload(a), CatalogPayload(b);
    if p == q {
      assert forall i | 0 <= i < 12 :: p.items[i] == q.items[i];
      assert p.items[8] == q.items[8] && p.items[9] == q.items[9] && p.items[10] == q.items[10]
             && p.items[11] == q.items[11];
    }
  }

  lemma SurfaceAgrees(h: Host, blank: CatalogDoc, describe: Describer, live: LiveMetadata,
                      describe': Describer, live': LiveMetadata, s: Surface)
    requires Faithful(h)
    requires UniqueKeys(describe, s, PayloadsOf(live, s)) && UniqueKeys(describe', s, PayloadsOf(live', s))
    ensures var a, b := Build(h, blank, describe, live), Build(h, blank, describe', live');
      && (Matched(CompareEntries(h, s, Items(a, s), Items(b, s))) <==> ListOf(a, s) == ListOf(b, s))
      && (ListOf(a, s) == ListOf(b, s) ==> CountOf(a, s) == CountOf(b, s))
  {
    hide Build, CompareEntries, Matched, CanonicalList, Faithful;
    BuiltItems(h, blank, describe, live, s);
    BuiltItems(h, blank, describe', live', s);
    BuiltListIsCanonical(h, describe, s, PayloadsOf(live, s));
    BuiltListIsCanonical(h, describe', s, PayloadsOf(live', s));
    MatchedIsEqual(h, s, SortedEntries(h, describe, s, PayloadsOf(live, s)),
                   SortedEntries(h, describe', s, PayloadsOf(live', s)));
  }

  // ----- Duplicate keys -----

  ghost predicate OrderIrrelevant(h: Host, s: Surface, entries: seq<Json>) {
    forall other | multiset(other) == multiset(entries) ::
      StableSort(other, ByKey(h, s)) == StableSort(entries, ByKey(h, s))
  }

  ghost predicate KeysDetermine(h: Host, s: Surface, entries: seq<Json>) {
    forall e, f | e in entries && f in entries && EntryKey(h, s, e) == EntryKey(h, s, f) :: e == f
  }

  lemma {:induction false} InsertBothWays(x: Json, y: Json, s: seq<Json>, le: (Json, Json) -> bool)
    requires TotalPreorder(le) && le(x, y) && le(y, x) && x != y
    ensures Insert(x, Insert(y, s, le), le) != Insert(y, Insert(x, s, le), le)
  {
    if s == [] || le(y, s[0]) {
      assert Insert(x, Insert(y, s, le), le)[0] == x;
      assert Insert(y, Insert(x, s, le), le)[0] == y;
    } else {
      InsertBothWays(x, y, s[1..], le);
      var a, b := Insert(x, Insert(y, s, le), le), Insert(y, Insert(x, s, le), le);
      assert a[1..] == Insert(x, Insert(y, s[1..], le), le);
      assert b[1..] == Insert(y, Insert(x, s[1..], le), le);
    }
  }

  /** The listing order is irrelevant exactly when entries with the same key are the same entry. */
  lemma OrderIrrelevantExactly(h: Host, s: Surface, entries: seq<Json>)
    ensures OrderIrrelevant(h, s, entries) <==> KeysDetermine(h, s, entries)
  {
    hide EntryKey, StableSort;
    if KeysDetermine(h, s, entries) {
      forall other | multiset(other) == multiset(entries)
        ensures StableSort(other, ByKey(h, s)) == StableSort(entries, ByKey(h, s))
      {
        SortsAgree(h, s, other, entries);
      }
    } else {
      var e, f :| e in entries && f in entries && EntryKey(h, s, e) == EntryKey(h, s, f) && e != f;
      TieMatters(h, s, entries, e, f);
    }
  }

  lemma TieMatters(h: Host, s: Surface, entries: seq<Json>, e: Json, f: Json)
    requires e in entries && f in entries && EntryKey(h, s, e) == EntryKey(h, s, f) && e != f
    ensures exists one, two :: multiset(one) == multiset(entries) == multiset(two)
                            && StableSort(one, ByKey(h, s)) != StableSort(two, ByKey(h, s))
  {
    hide EntryKey, ByKey, StableSort, Without;
    var le := ByKey(h, s);
    var rest := Without(Without(entries, e), f);
    TwoFirst(entries, e, f);
    SortTwoFirst(e, f, rest, le);
    SortTwoFirst(f, e, rest, le);
    ByKeyOrders(h, s);
    ByKeyTies(h, s, e, f);
    InsertBothWays(e, f, StableSort(rest, le), le);
    assert multiset([e] + ([f] + rest)) == multiset(entries) == multiset([f] + ([e] + rest));
  }

  lemma ByKeyTies(h: Host, s: Surface, e: Json, f: Json)
    requires EntryKey(h, s, e) == EntryKey(h, s, f)
    ensures ByKey(h, s)(e, f) && ByKey(h, s)(f, e)
  {
    hide EntryKey;
    LeTotal(EntryKey(h, s, e), EntryKey(h, s, f));
  }

  lemma TwoFirst(entries: seq<Json>, e: Json, f: Json)
    requires e in entries && f in entries && e != f
    ensures var rest := Without(Without(entries, e), f);
      multiset([e] + ([f] + rest)) == multiset(entries) == multiset([f] + ([e] + rest))
  {
    RemovedOne(entries, e);
    assert f in multiset(entries) && multiset([e] + Without(entries, e)) == multiset{e} + multiset(Without(entries, e));
    RemovedOne(Without(entries, e), f);
  }

  lemma SortsAgree(h: Host, s: Surface, x: seq<Json>, y: seq<Json>)
    requires KeysDetermine(h, s, y) && multiset(x) == multiset(y)
    ensures StableSort(x, ByKey(h, s)) == StableSort(y, ByKey(h, s))
  {
    var le := ByKey(h, s);
    var a, b := StableSort(x, le), StableSort(y, le);
    ByKeyOrders(h, s);
    SortPermutes(x, le);
    SortPermutes(y, le);
    SortSorts(x, le);
    SortSorts(y, le);
    forall e, f | e in a && f in a && le(e, f) && le(f, e) ensures e == f {
      assert e in multiset(y) && f in multiset(y);
      LeAntisymmetric(EntryKey(h, s, e), EntryKey(h, s, f));
    }
    SortedUnique(a, b, le);
  }

  function Without(s: seq<Json>, e: Json): seq<Json> {
    if s == [] then [] else if s[0] == e then s[1..] else [s[0]] + Without(s[1..], e)
  }

  lemma {:induction false} RemovedOne(s: seq<Json>, e: Json)
    requires e in s
    ensures multiset(s) == multiset([e] + Without(s, e))
  {
    assert s == [s[0]] + s[1..];
    if s[0] != e {
      RemovedOne(s[1..], e);
    }
  }

  // ----- What the diff rows explain -----

  /** A changed entry is reported without a single diff row exactly when Python calls the two metadata values equal. */
  lemma RowsExplainChange(expected: Dict, actual: Dict)
    ensures ChangeRows(expected, actual) == []
      <==> PyEqual(Get(expected, "metadata", EMPTY), Get(actual, "metadata", EMPTY))
  {
    hide DiffRows, PyEqual;
    EmptyIffEqual(Get(expected, "metadata", EMPTY), Get(actual, "metadata", EMPTY), [Key("metadata")]);
  }

  /** Concretely: a flag that turns from true into 1 changes the digest and leaves the diff empty. */
  lemma ChangeWithoutRows(h: Host, name: string)
    requires Faithful(h)
    ensures var x, y := Flagged(name, Bool(true)), Flagged(name, Int(1));
      var e, f := Redigest(h, Tools, BareEntry(Tools, x)), Redigest(h, Tools, BareEntry(Tools, y));
      !SameDigest(e, f) && ChangeRows(e, f) == []
  {
    hide ChangeRows, PyEqual;
    var x, y := Flagged(name, Bool(true)), Flagged(name, Int(1));
    var e, f := Redigest(h, Tools, BareEntry(Tools, x)), Redigest(h, Tools, BareEntry(Tools, y));
    ToolEntryFields(h, x);
    ToolEntryFields(h, y);
    hide Redigest, BareEntry;
    FlagsArePythonEqual(name);
    RowsExplainChange(e, f);
    if SameDigest(e, f) {
      StringsEqual(e["digest"], f["digest"]);
      DigestDetermines(h, Tools, x, y);
      assert false;
    }
  }

  function Flagged(name: string, flag: Json): Described {
    Described(name, name, map["flag" := flag])
  }

  lemma FlagsArePythonEqual(name: string)
    ensures PyEqual(Obj(Flagged(name, Bool(true)).metadata), Obj(Flagged(name, Int(1)).metadata))
    ensures Obj(Flagged(name, Bool(true)).metadata) != Obj(Flagged(name, Int(1)).metadata)
  {
    assert Flagged(name, Bool(true)).metadata["flag"] != Flagged(name, Int(1)).metadata["flag"];
    ObjEqual(Obj(Flagged(name, Bool(true)).metadata), Obj(Flagged(name, Int(1)).metadata));
  }

  lemma StringsEqual(a: Json, b: Json)
    requires a.Str? && b.Str? && PyEqual(a, b)
    ensures a == b
  {}

  lemma ToolEntryFields(h: Host, d: Described)
    ensures var e := Redigest(h, Tools, BareEntry(Tools, d));
      && Get(e, "metadata", EMPTY) == Obj(d.metadata) && "metadata" in e && e["metadata"] == Obj(d.metadata)
      && "digest" in e && e["digest"].Str? && Get(e, "digest", Null) == e["digest"]
  {
    assert "digest" != "metadata" && "name" != "metadata";
    hide Payload;
  }
}
