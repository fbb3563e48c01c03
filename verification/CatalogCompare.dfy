/** Comparing two catalogs surface by surface, and what agreement means for catalogs built from live metadata. */
module CatalogCompare {
  import opened Strings
  import opened Sorting
  import opened Json
  import opened MetadataDiff
  import opened Catalog

  // ----- Comparing the entries of one surface -----

  datatype Change = Change(key: string, baselineDigest: Json, currentDigest: Json, rows: seq<Row>)

  datatype Comparison = Comparison(added: seq<string>, removed: seq<string>, changed: seq<Change>)

  predicate Matched(c: Comparison) {
    c.added == [] && c.removed == [] && c.changed == []
  }

  /** The entries by key; a later entry replaces an earlier one with the same key. */
  function EntryMap(h: Host, s: Surface, entries: seq<Json>): map<string, Dict> {
    if entries == [] then map[]
    else
      var before := EntryMap(h, s, entries[..|entries| - 1]);
      var last := entries[|entries| - 1];
      if last.Obj? then before[EntryKey(h, s, last) := last.fields] else before
  }

  const ROW_LIMIT := 40

  predicate SameDigest(expected: Dict, actual: Dict) {
    PyEqual(Get(expected, "digest", Null), Get(actual, "digest", Null))
  }

  function ChangeRows(expected: Dict, actual: Dict): seq<Row> {
    var all := DiffRows(Get(expected, "metadata", EMPTY), Get(actual, "metadata", EMPTY), [Key("metadata")]);
    Bounded([], all, ROW_LIMIT)
  }

  function ChangeOf(key: string, expected: Dict, actual: Dict): Change {
    Change(key, Get(expected, "digest", Str("")), Get(actual, "digest", Str("")), ChangeRows(expected, actual))
  }

  function Changes(b: map<string, Dict>, c: map<string, Dict>, keys: seq<string>): seq<Change>
    requires forall k | k in keys :: k in b && k in c
  {
    if keys == [] then []
    else
      var k := keys[0];
      (if SameDigest(b[k], c[k]) then [] else [ChangeOf(k, b[k], c[k])]) + Changes(b, c, keys[1..])
  }

  function CompareEntries(h: Host, s: Surface, baseline: seq<Json>, current: seq<Json>): Comparison {
    var b, c := EntryMap(h, s, baseline), EntryMap(h, s, current);
    Comparison(SortedKeys(c.Keys - b.Keys), SortedKeys(b.Keys - c.Keys), Changes(b, c, SortedKeys(b.Keys * c.Keys)))
  }

  // ----- What a comparison says of the two lists -----

  predicate HasKeyAt(h: Host, s: Surface, entries: seq<Json>, k: string, i: nat) {
    i < |entries| && entries[i].Obj? && EntryKey(h, s, entries[i]) == k
  }

  /** Entry i is the one that counts for key k: the last object with that key. */
  ghost predicate LastWith(h: Host, s: Surface, entries: seq<Json>, k: string, i: nat) {
    HasKeyAt(h, s, entries, k, i) && forall j: nat | i < j :: !HasKeyAt(h, s, entries, k, j)
  }

  ghost predicate HasKey(h: Host, s: Surface, entries: seq<Json>, k: string) {
    exists i: nat :: HasKeyAt(h, s, entries, k, i)
  }

  ghost predicate InOrder(keys: seq<string>) {
    forall i, j | 0 <= i < j < |keys| :: keys[i] != keys[j] && Le(keys[i], keys[j])
  }

  ghost predicate Differs(h: Host, s: Surface, baseline: seq<Json>, current: seq<Json>, k: string, i: nat, j: nat) {
    && LastWith(h, s, baseline, k, i) && LastWith(h, s, current, k, j)
    && !PyEqual(Get(baseline[i].fields, "digest", Null), Get(current[j].fields, "digest", Null))
  }

  /** The row of a changed key: digests and metadata of the baseline's entry first, those of the current one second. */
  ghost predicate RowOf(c: Change, expected: Dict, actual: Dict) {
    var rows := DiffRows(Get(expected, "metadata", EMPTY), Get(actual, "metadata", EMPTY), [Key("metadata")]);
    && c.baselineDigest == Get(expected, "digest", Str("")) && c.currentDigest == Get(actual, "digest", Str(""))
    && c.rows == if |rows| <= 40 then rows else rows[..40]
  }

  ghost predicate InKeyOrder(changes: seq<Change>) {
    forall i, j | 0 <= i < j < |changes| :: changes[i].key != changes[j].key && Le(changes[i].key, changes[j].key)
  }

  ghost predicate Lists(changes: seq<Change>, k: string) {
    exists c :: c in changes && c.key == k
  }

  /** The counting entries for key k are there on both sides and have different digests. */
  ghost predicate KeyChanged(h: Host, s: Surface, baseline: seq<Json>, current: seq<Json>, k: string) {
    exists i: nat, j: nat :: Differs(h, s, baseline, current, k, i, j)
  }

  ghost predicate RowsAreOf(h: Host, s: Surface, baseline: seq<Json>, current: seq<Json>, changes: seq<Change>) {
    forall c, i: nat, j: nat
      | c in changes && LastWith(h, s, baseline, c.key, i) && LastWith(h, s, current, c.key, j) ::
      RowOf(c, baseline[i].fields, current[j].fields)
  }

  /**
   Added are the keys only the current list has, removed those only the baseline has, changed those whose
   entries have different digests; each list in key order without repeats.
   */
  ghost predicate Reports(h: Host, s: Surface, baseline: seq<Json>, current: seq<Json>, r: Comparison) {
    && InOrder(r.added) && InOrder(r.removed) && InKeyOrder(r.changed)
    && (forall k :: k in r.added <==> HasKey(h, s, current, k) && !HasKey(h, s, baseline, k))
    && (forall k :: k in r.removed <==> HasKey(h, s, baseline, k) && !HasKey(h, s, current, k))
    && (forall k :: Lists(r.changed, k) <==> KeyChanged(h, s, baseline, current, k))
    && RowsAreOf(h, s, baseline, current, r.changed)
  }

  /** The map knows exactly the keys of the objects, and holds for each the fields of the last one. */
  lemma {:induction false} EntryMapIsLast(h: Host, s: Surface, entries: seq<Json>, k: string) returns (i: nat)
    ensures k in EntryMap(h, s, entries) <==> HasKey(h, s, entries, k)
    ensures k in EntryMap(h, s, entries) ==>
      LastWith(h, s, entries, k, i) && EntryMap(h, s, entries)[k] == entries[i].fields
  {
    hide EntryKey;
    i := 0;
    if entries != [] {
      var n := |entries| - 1;
      if HasKeyAt(h, s, entries, k, n) {
        return n;
      }
      i := EntryMapIsLast(h, s, entries[..n], k);
      assert forall j: nat | j < n :: entries[..n][j] == entries[j];
      assert forall j: nat | j < n :: HasKeyAt(h, s, entries[..n], k, j) <==> HasKeyAt(h, s, entries, k, j);
    }
  }

  lemma ChangeIsRow(k: string, expected: Dict, actual: Dict)
    ensures ChangeOf(k, expected, actual).key == k && RowOf(ChangeOf(k, expected, actual), expected, actual)
  {
    hide DiffRows;
  }

  ghost predicate Explained(changes: seq<Change>, b: map<string, Dict>, c: map<string, Dict>, keys: seq<string>)
    requires forall k | k in keys :: k in b && k in c
  {
    && InKeyOrder(changes)
    && (forall k :: Lists(changes, k) <==> k in keys && !SameDigest(b[k], c[k]))
    && forall r | r in changes :: r.key in keys && RowOf(r, b[r.key], c[r.key])
  }

  lemma {:induction false} ChangesMean(b: map<string, Dict>, c: map<string, Dict>, keys: seq<string>)
    requires InOrder(keys) && forall k | k in keys :: k in b && k in c
    ensures Explained(Changes(b, c, keys), b, c, keys)
  {
    hide SameDigest, ChangeOf, Explained;
    if keys == [] {
      NothingExplained(b, c);
    } else {
      var k := keys[0];
      ChangesMean(b, c, keys[1..]);
      ChangeIsRow(k, b[k], c[k]);
      if SameDigest(b[k], c[k]) {
        SameKeyExplained(Changes(b, c, keys[1..]), b, c, keys);
      } else {
        ChangedKeyExplained(ChangeOf(k, b[k], c[k]), Changes(b, c, keys[1..]), b, c, keys);
      }
    }
  }

  lemma NothingExplained(b: map<string, Dict>, c: map<string, Dict>)
    ensures Explained([], b, c, [])
  {}

  lemma SameKeyExplained(rest: seq<Change>, b: map<string, Dict>, c: map<string, Dict>, keys: seq<string>)
    requires keys != [] && forall k | k in keys :: k in b && k in c
    requires Explained(rest, b, c, keys[1..]) && SameDigest(b[keys[0]], c[keys[0]])
    ensures Explained([] + rest, b, c, keys)
  {
    hide SameDigest, RowOf, Lists;
    assert forall x :: x in keys <==> x == keys[0] || x in keys[1..];
    assert [] + rest == rest;
  }

  lemma ChangedKeyExplained(
    first: Change, rest: seq<Change>, b: map<string, Dict>, c: map<string, Dict>, keys: seq<string>)
    requires keys != [] && InOrder(keys) && forall k | k in keys :: k in b && k in c
    requires Explained(rest, b, c, keys[1..]) && !SameDigest(b[keys[0]], c[keys[0]])
    requires first.key == keys[0] && RowOf(first, b[keys[0]], c[keys[0]])
    ensures Explained([first] + rest, b, c, keys)
  {
    hide SameDigest, RowOf, Lists;
    FirstIsListed(first, rest);
    assert forall x :: x in keys <==> x == keys[0] || x in keys[1..];
    forall r | r in rest ensures r.key != keys[0] && Le(keys[0], r.key) {
      var i :| 0 <= i < |keys[1..]| && keys[1..][i] == r.key;
      assert keys[i + 1] == r.key;
    }
  }

  lemma FirstIsListed(first: Change, rest: seq<Change>)
    ensures forall x :: Lists([first] + rest, x) <==> x == first.key || Lists(rest, x)
  {
    assert first in [first] + rest && forall r | r in rest :: r in [first] + rest;
  }

  /** At a common key the two maps hold the counting entries. */
  lemma CommonKey(h: Host, s: Surface, baseline: seq<Json>, current: seq<Json>, k: string)
    requires k in EntryMap(h, s, baseline) && k in EntryMap(h, s, current)
    ensures var b, c := EntryMap(h, s, baseline), EntryMap(h, s, current);
      && (!SameDigest(b[k], c[k]) <==> KeyChanged(h, s, baseline, current, k))
      && forall i: nat, j: nat | LastWith(h, s, baseline, k, i) && LastWith(h, s, current, k, j) ::
           b[k] == baseline[i].fields && c[k] == current[j].fields
  {
    hide EntryMap, HasKeyAt;
    var x := EntryMapIsLast(h, s, baseline, k);
    var y := EntryMapIsLast(h, s, current, k);
    assert forall i: nat | LastWith(h, s, baseline, k, i) :: i == x;
    assert forall j: nat | LastWith(h, s, current, k, j) :: j == y;
    if KeyChanged(h, s, baseline, current, k) {
      var i: nat, j: nat :| Differs(h, s, baseline, current, k, i, j);
    } else {
      assert !Differs(h, s, baseline, current, k, x, y);
    }
  }

  lemma ComparisonReports(h: Host, s: Surface, baseline: seq<Json>, current: seq<Json>)
    ensures Reports(h, s, baseline, current, CompareEntries(h, s, baseline, current))
  {
    hide CompareEntries, HasKey, KeyChanged, InOrder, InKeyOrder, Lists, RowsAreOf;
    OneSidedKeys(h, s, baseline, current);
    ChangedKeys(h, s, baseline, current);
    ChangedRows(h, s, baseline, current);
  }

  lemma OneSidedKeys(h: Host, s: Surface, baseline: seq<Json>, current: seq<Json>)
    ensures var r := CompareEntries(h, s, baseline, current);
      && InOrder(r.added) && InOrder(r.removed)
      && (forall k :: k in r.added <==> HasKey(h, s, current, k) && !HasKey(h, s, baseline, k))
      && (forall k :: k in r.removed <==> HasKey(h, s, baseline, k) && !HasKey(h, s, current, k))
  {
    hide EntryMap, HasKey, Changes;
    forall k
      ensures k in EntryMap(h, s, baseline) <==> HasKey(h, s, baseline, k)
      ensures k in EntryMap(h, s, current) <==> HasKey(h, s, current, k)
    {
      var i := EntryMapIsLast(h, s, baseline, k);
      var j := EntryMapIsLast(h, s, current, k);
    }
  }

  lemma ChangedKeys(h: Host, s: Surface, baseline: seq<Json>, current: seq<Json>)
    ensures var changes := CompareEntries(h, s, baseline, current).changed;
      InKeyOrder(changes) && forall k :: Lists(changes, k) <==> KeyChanged(h, s, baseline, current, k)
  {
    hide EntryMap, RowOf, Changes, SameDigest, KeyChanged, Lists, InKeyOrder;
    var b, c := EntryMap(h, s, baseline), EntryMap(h, s, current);
    ChangesMean(b, c, SortedKeys(b.Keys * c.Keys));
    forall k ensures k in b && k in c && !SameDigest(b[k], c[k]) <==> KeyChanged(h, s, baseline, current, k) {
      if k in b && k in c {
        CommonKey(h, s, baseline, current, k);
      } else {
        ChangedKeysAreThere(h, s, baseline, current, k);
        var i := EntryMapIsLast(h, s, baseline, k);
        var j := EntryMapIsLast(h, s, current, k);
      }
    }
  }

  lemma ChangedRows(h: Host, s: Surface, baseline: seq<Json>, current: seq<Json>)
    ensures RowsAreOf(h, s, baseline, current, CompareEntries(h, s, baseline, current).changed)
  {
    hide EntryMap, RowOf, Changes, SameDigest, KeyChanged, Lists;
    var b, c := EntryMap(h, s, baseline), EntryMap(h, s, current);
    var changes := Changes(b, c, SortedKeys(b.Keys * c.Keys));
    ChangesMean(b, c, SortedKeys(b.Keys * c.Keys));
    forall r, i: nat, j: nat | r in changes && LastWith(h, s, baseline, r.key, i) && LastWith(h, s, current, r.key, j)
      ensures RowOf(r, baseline[i].fields, current[j].fields)
    {
      CommonKey(h, s, baseline, current, r.key);
    }
  }

  lemma ChangedKeysAreThere(h: Host, s: Surface, baseline: seq<Json>, current: seq<Json>, k: string)
    ensures KeyChanged(h, s, baseline, current, k) ==> HasKey(h, s, baseline, k) && HasKey(h, s, current, k)
  {
    hide HasKeyAt;
  }

  method CompareSurface(h: Host, s: Surface, baseline: seq<Json>, current: seq<Json>) returns (r: Comparison)
    ensures r == CompareEntries(h, s, baseline, current)
    ensures Reports(h, s, baseline, current, r)
  {
    hide EntryMap, Reports;
    ComparisonReports(h, s, baseline, current);
    var b, c := EntryMap(h, s, baseline), EntryMap(h, s, current);
    var changed := ChangedEntries(b, c, SortedKeys(b.Keys * c.Keys));
    r := Comparison(SortedKeys(c.Keys - b.Keys), SortedKeys(b.Keys - c.Keys), changed);
  }

  lemma ChangesStep(b: map<string, Dict>, c: map<string, Dict>, keys: seq<string>, i: nat)
    requires i < |keys| && forall k | k in keys :: k in b && k in c
    ensures Changes(b, c, keys[i..])
         == (if SameDigest(b[keys[i]], c[keys[i]]) then [] else [ChangeOf(keys[i], b[keys[i]], c[keys[i]])])
          + Changes(b, c, keys[i + 1..])
  {
    hide SameDigest, ChangeOf;
    assert keys[i] in keys && keys[i..][1..] == keys[i + 1..];
  }

  lemma NothingChanged(b: map<string, Dict>, c: map<string, Dict>)
    ensures Changes(b, c, []) == []
  {}

  method ChangedEntries(b: map<string, Dict>, c: map<string, Dict>, keys: seq<string>) returns (changed: seq<Change>)
    requires forall k | k in keys :: k in b && k in c
    ensures changed == Changes(b, c, keys)
  {
    hide SameDigest, ChangeOf, Changes;
    changed := [];
    for i := 0 to |keys|
      invariant Changes(b, c, keys) == changed + Changes(b, c, keys[i..])
    {
      ChangesStep(b, c, keys, i);
      var k := keys[i];
      if !SameDigest(b[k], c[k]) {
        var change := DescribeChange(k, b[k], c[k]);
        changed := changed + [change];
      }
    }
    assert keys[|keys|..] == [];
    NothingChanged(b, c);
  }

  method DescribeChange(key: string, expected: Dict, actual: Dict) returns (change: Change)
    ensures change == ChangeOf(key, expected, actual)
  {
    hide DiffRows;
    var rows := DiffMetadata(Get(expected, "metadata", EMPTY), Get(actual, "metadata", EMPTY), ROW_LIMIT);
    change := Change(key, Get(expected, "digest", Str("")), Get(actual, "digest", Str("")), rows);
  }

  /** `_compare_surface_catalogs` reports "matched". */
  predicate AllMatched(h: Host, baseline: CatalogDoc, current: CatalogDoc) {
    && Matched(CompareEntries(h, Tools, Items(baseline, Tools), Items(current, Tools)))
    && Matched(CompareEntries(h, Prompts, Items(baseline, Prompts), Items(current, Prompts)))
    && Matched(CompareEntries(h, Resources, Items(baseline, Resources), Items(current, Resources)))
    && Matched(CompareEntries(h, Discovery, Items(baseline, Discovery), Items(current, Discovery)))
  }

  lemma {:induction false} NoChanges(b: map<string, Dict>, c: map<string, Dict>, keys: seq<string>)
    requires forall k | k in keys :: k in b && k in c
    ensures Changes(b, c, keys) == [] <==> forall k | k in keys :: SameDigest(b[k], c[k])
  {
    hide SameDigest, ChangeOf;
    if keys != [] {
      NoChanges(b, c, keys[1..]);
      assert forall k :: k in keys <==> k == keys[0] || k in keys[1..];
    }
  }

  /** A surface matches exactly when both sides have the same keys with the same digests. */
  lemma {:induction false} MatchedMeans(h: Host, s: Surface, baseline: seq<Json>, current: seq<Json>)
    ensures var b, c := EntryMap(h, s, baseline), EntryMap(h, s, current);
      Matched(CompareEntries(h, s, baseline, current))
      <==> b.Keys == c.Keys && forall k | k in b && k in c :: SameDigest(b[k], c[k])
  {
    hide SameDigest, EntryMap;
    var b, c := EntryMap(h, s, baseline), EntryMap(h, s, current);
    NoChanges(b, c, SortedKeys(b.Keys * c.Keys));
    NoKeys(c.Keys - b.Keys);
    NoKeys(b.Keys - c.Keys);
  }

  lemma NoKeys(keys: set<string>)
    ensures SortedKeys(keys) == [] <==> keys == {}
  {
    if keys != {} {
      var k :| k in keys;
      assert k in SortedKeys(keys);
    }
  }

  // ----- Building a catalog from live metadata -----

  /** What the builder reads off one live item: its key, its name, and its canonical metadata. */
  datatype Described = Described(key: string, name: string, metadata: Dict)

  type Describer = (Surface, Json) -> Described

  datatype LiveMetadata = LiveMetadata(tools: seq<Json>, prompts: seq<Json>, resources: seq<Json>, discovery: seq<Json>)

  function PayloadsOf(live: LiveMetadata, s: Surface): seq<Json> {
    match s
    case Tools => live.tools
    case Prompts => live.prompts
    case Resources => live.resources
    case Discovery => live.discovery
  }

  function BareEntry(s: Surface, d: Described): Dict {
    match s
    case Resources => map["identity" := Str(d.key), "name" := Str(d.name), "metadata" := Obj(d.metadata)]
    case Discovery => map["identity" := Str(d.key), "metadata" := Obj(d.metadata)]
    case _ => map["name" := Str(d.key), "metadata" := Obj(d.metadata)]
  }

  function CanonicalEntry(h: Host, describe: Describer, s: Surface, item: Json): Json {
    Obj(Redigest(h, s, BareEntry(s, describe(s, item))))
  }

  function Canonical(h: Host, describe: Describer, s: Surface): Json -> Json {
    (item: Json) => CanonicalEntry(h, describe, s, item)
  }

  function Entries(h: Host, describe: Describer, s: Surface, items: seq<Json>): seq<Json> {
    Mapped(items, Canonical(h, describe, s))
  }

  function SortedEntries(h: Host, describe: Describer, s: Surface, items: seq<Json>): seq<Json> {
    StableSort(Entries(h, describe, s, items), ByKey(h, s))
  }

  /** `build_tool_catalog_baseline`; `blank` holds the constant fields of the document. */
  function Build(h: Host, blank: CatalogDoc, describe: Describer, live: LiveMetadata): CatalogDoc {
    Refresh(h, blank.(lists := map[
      Tools := Arr(SortedEntries(h, describe, Tools, live.tools)),
      Prompts := Arr(SortedEntries(h, describe, Prompts, live.prompts)),
      Resources := Arr(SortedEntries(h, describe, Resources, live.resources)),
      Discovery := Arr(SortedEntries(h, describe, Discovery, live.discovery))]))
  }

  ghost predicate UniqueKeys(describe: Describer, s: Surface, items: seq<Json>) {
    forall i, j | 0 <= i < j < |items| :: describe(s, items[i]).key != describe(s, items[j]).key
  }

  lemma CanonicalEntryHas(h: Host, describe: Describer, s: Surface, item: Json)
    requires Faithful(h)
    ensures EntryKey(h, s, CanonicalEntry(h, describe, s, item)) == describe(s, item).key
    ensures Redigest(h, s, CanonicalEntry(h, describe, s, item).fields) == CanonicalEntry(h, describe, s, item).fields
  {
    hide WithTemplateDigest, Payload;
    RedigestTwice(h, s, BareEntry(s, describe(s, item)));
    assert "digest" != "metadata" && "digest" != "name" && "digest" != "identity" && "name" != "metadata"
           && "identity" != "metadata" && "identity" != "name";
  }

  /**
   A built entry says what was described: its key, for a resource its name too, and its metadata, in a prompt
   with the digest of the template.
   */
  lemma CanonicalEntrySays(h: Host, describe: Describer, s: Surface, item: Json)
    ensures var e, d := CanonicalEntry(h, describe, s, item).fields, describe(s, item);
      && KeyField(s) in e && e[KeyField(s)] == Str(d.key)
      && (s == Resources ==> "name" in e && e["name"] == Str(d.name))
      && "metadata" in e && SameButTemplateDigest(Obj(d.metadata), e["metadata"])
      && (s != Prompts ==> e["metadata"] == Obj(d.metadata))
      && (s == Prompts ==> TemplateIsDigested(h, e["metadata"]))
  {
    hide Redigest, WithTemplateDigest, Payload, TemplateIsDigested;
    assert "digest" != "metadata" && "digest" != "name" && "digest" != "identity" && "name" != "metadata"
           && "identity" != "metadata" && "identity" != "name";
    RedigestSets(h, s, BareEntry(s, describe(s, item)));
  }

  /** The digest of a canonical entry is that of all its other fields. */
  lemma DigestOfTheRest(h: Host, s: Surface, x: Described)
    ensures var e := Redigest(h, s, BareEntry(s, x));
      && "digest" in e
      && e == (e - {"digest"})["digest" := Str(h.digest(Obj(e - {"digest"})))]
  {
    hide WithTemplateDigest;
    var e := Redigest(h, s, BareEntry(s, x));
    assert "digest" != "metadata" && "digest" != "name" && "digest" != "identity" && "name" != "metadata"
           && "identity" != "metadata" && "identity" != "name";
    assert Payload(s, e - {"digest"}) == e - {"digest"};
  }

  /** A canonical entry is determined by its digest. */
  lemma DigestDetermines(h: Host, s: Surface, x: Described, y: Described)
    requires Faithful(h)
    requires var e, f := Redigest(h, s, BareEntry(s, x)), Redigest(h, s, BareEntry(s, y));
      "digest" in e && "digest" in f && e["digest"] == f["digest"]
    ensures Redigest(h, s, BareEntry(s, x)) == Redigest(h, s, BareEntry(s, y))
  {
    var e, f := Redigest(h, s, BareEntry(s, x)), Redigest(h, s, BareEntry(s, y));
    DigestOfTheRest(h, s, x);
    DigestOfTheRest(h, s, y);
    hide Redigest, BareEntry;
    assert Obj(e - {"digest"}) == Obj(f - {"digest"});
  }

  // ----- A built catalog -----

  ghost predicate Distinct(h: Host, s: Surface, entries: seq<Json>) {
    forall i, j | 0 <= i < j < |entries| :: EntryKey(h, s, entries[i]) != EntryKey(h, s, entries[j])
  }

  lemma EntriesAreDistinct(h: Host, describe: Describer, s: Surface, items: seq<Json>)
    requires Faithful(h) && UniqueKeys(describe, s, items)
    ensures Distinct(h, s, Entries(h, describe, s, items))
  {
    hide CanonicalEntry, EntryKey;
    var entries := Entries(h, describe, s, items);
    forall i | 0 <= i < |items| ensures EntryKey(h, s, entries[i]) == describe(s, items[i]).key {
      CanonicalEntryHas(h, describe, s, items[i]);
    }
  }

  /** With distinct keys, sorting by key does not depend on the order of the entries. */
  lemma SortOfDistinct(h: Host, s: Surface, x: seq<Json>, y: seq<Json>)
    requires Distinct(h, s, x) && multiset(x) == multiset(y)
    ensures StableSort(x, ByKey(h, s)) == StableSort(y, ByKey(h, s))
  {
    var a, b := StableSort(x, ByKey(h, s)), StableSort(y, ByKey(h, s));
    ByKeyOrders(h, s);
    SortPermutes(x, ByKey(h, s));
    SortPermutes(y, ByKey(h, s));
    SortSorts(x, ByKey(h, s));
    SortSorts(y, ByKey(h, s));
    SortSameElements(x, ByKey(h, s));
    forall e, f | e in a && f in a && ByKey(h, s)(e, f) && ByKey(h, s)(f, e) ensures e == f {
      LeAntisymmetric(EntryKey(h, s, e), EntryKey(h, s, f));
      assert e in x && f in x;
    }
    hide EntryKey;
    SortedUnique(a, b, ByKey(h, s));
  }

  lemma SortedEntriesAreSettled(h: Host, describe: Describer, s: Surface, items: seq<Json>)
    requires Faithful(h)
    ensures Settled(h, s, SortedEntries(h, describe, s, items))
  {
    hide CanonicalEntry, Redigest, ByKey;
    var entries := Entries(h, describe, s, items);
    forall e | e in entries ensures e.Obj? && Redigest(h, s, e.fields) == e.fields {
      var i :| 0 <= i < |entries| && entries[i] == e;
      CanonicalIsObject(h, describe, s, items[i]);
      CanonicalEntryHas(h, describe, s, items[i]);
    }
    ByKeyOrders(h, s);
    SortSorts(entries, ByKey(h, s));
    SortSameElements(entries, ByKey(h, s));
  }

  lemma CanonicalIsObject(h: Host, describe: Describer, s: Surface, item: Json)
    ensures CanonicalEntry(h, describe, s, item).Obj?
  {
    hide Redigest;
  }

  /** A built catalog holds, for each surface, the sorted canonical entries. */
  lemma BuiltItems(h: Host, blank: CatalogDoc, describe: Describer, live: LiveMetadata, s: Surface)
    requires Faithful(h)
    ensures var c := Build(h, blank, describe, live);
      && Items(c, s) == SortedEntries(h, describe, s, PayloadsOf(live, s))
      && ListOf(c, s) == Arr(Items(c, s)) && CountOf(c, s) == Int(|Items(c, s)|)
      && c.schema == blank.schema && c.digestAlgorithm == blank.digestAlgorithm
      && c.canonicalization == blank.canonicalization && c.generatedFrom == blank.generatedFrom
      && c.wholeDigest == Str(h.digest(CatalogPayload(c)))
  {
    hide SortedEntries, Settled, RefreshedItems, RefreshSurfaces;
    var listed := blank.(lists := map[
      Tools := Arr(SortedEntries(h, describe, Tools, live.tools)),
      Prompts := Arr(SortedEntries(h, describe, Prompts, live.prompts)),
      Resources := Arr(SortedEntries(h, describe, Resources, live.resources)),
      Discovery := Arr(SortedEntries(h, describe, Discovery, live.discovery))]);
    RefreshSurfacesSettle(h, listed, s);
    SortedEntriesAreSettled(h, describe, s, PayloadsOf(live, s));
    SettledIsFixed(h, s, SortedEntries(h, describe, s, PayloadsOf(live, s)));
    assert Items(listed, s) == SortedEntries(h, describe, s, PayloadsOf(live, s));
    assert CatalogPayload(Refresh(h, listed)) == CatalogPayload(RefreshSurfaces(h, listed));
  }

  /** The order in which live metadata is listed does not matter: the document is the same, whole digest included. */
  lemma BuildIgnoresOrder(h: Host, blank: CatalogDoc, describe: Describer, live: LiveMetadata, other: LiveMetadata)
    requires Faithful(h)
    requires forall s: Surface :: multiset(PayloadsOf(live, s)) == multiset(PayloadsOf(other, s))
    requires forall s: Surface :: UniqueKeys(describe, s, PayloadsOf(live, s))
    ensures Build(h, blank, describe, live) == Build(h, blank, describe, other)
  {
    hide SortedEntries, Refresh;
    SortedEntriesIgnoreOrder(h, describe, Tools, PayloadsOf(live, Tools), PayloadsOf(other, Tools));
    SortedEntriesIgnoreOrder(h, describe, Prompts, PayloadsOf(live, Prompts), PayloadsOf(other, Prompts));
    SortedEntriesIgnoreOrder(h, describe, Resources, PayloadsOf(live, Resources), PayloadsOf(other, Resources));
    SortedEntriesIgnoreOrder(h, describe, Discovery, PayloadsOf(live, Discovery), PayloadsOf(other, Discovery));
  }

  lemma SortedEntriesIgnoreOrder(h: Host, describe: Describer, s: Surface, x: seq<Json>, y: seq<Json>)
    requires Faithful(h) && multiset(x) == multiset(y) && UniqueKeys(describe, s, x)
    ensures SortedEntries(h, describe, s, x) == SortedEntries(h, describe, s, y)
  {
    hide CanonicalEntry, StableSort, Faithful;
    MapPermutes(x, y, Canonical(h, describe, s));
    EntriesAreDistinct(h, describe, s, x);
    SortOfDistinct(h, s, Entries(h, describe, s, x), Entries(h, describe, s, y));
  }
}
