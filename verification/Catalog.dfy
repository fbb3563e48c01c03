/**
 The public tool catalog: building it from live metadata, refreshing its digests, and comparing two
 catalogs surface by surface.
 */
module Catalog {
  import opened Strings
  import opened Sorting
  import opened Json

  // ----- What is taken from the outside -----

  /** `sha256_digest` of a JSON value and Python's `str` of one. */
  datatype Host = Host(digest: Json -> string, str: Json -> string)

  /** Different values have different digests, and `str` of a string is that string. */
  ghost predicate Faithful(h: Host) {
    && (forall a: Json, b: Json :: h.digest(a) == h.digest(b) ==> a == b)
    && (forall s: string :: h.str(Str(s)) == s)
  }

  type Dict = map<string, Json>

  function Get(d: Dict, key: string, default: Json): Json {
    if key in d then d[key] else default
  }

  function FieldsOf(entry: Json): Dict {
    if entry.Obj? then entry.fields else map[]
  }

  // ----- The four surfaces -----

  datatype Surface = Tools | Prompts | Resources | Discovery

  const EMPTY: Json := Obj(map[])

  /**
   A catalog document: the fields named after a surface (its list and its count), the four fields
   that the whole-catalog digest covers besides, that digest, and whatever else the document holds.
   A missing field is Null, or a key that is not in the map.
   */
  datatype CatalogDoc = CatalogDoc(
    lists: map<Surface, Json>, counts: map<Surface, Json>, schema: Json, digestAlgorithm: Json,
    canonicalization: Json, generatedFrom: Json, wholeDigest: Json, other: Dict)

  /** The field that identifies an entry of a surface. */
  function KeyField(s: Surface): string {
    if s == Tools || s == Prompts then "name" else "identity"
  }

  /** The fields of an entry that its digest covers. */
  function Payload(s: Surface, entry: Dict): Dict {
    match s
    case Resources =>
      map["identity" := Get(entry, "identity", Str("")), "name" := Get(entry, "name", Str("")),
          "metadata" := Get(entry, "metadata", EMPTY)]
    case Discovery =>
      map["identity" := Get(entry, "identity", Str("")), "metadata" := Get(entry, "metadata", EMPTY)]
    case _ =>
      map["name" := Get(entry, "name", Str("")), "metadata" := Get(entry, "metadata", EMPTY)]
  }

  /** A prompt's metadata with the digest of its template brought up to date. */
  function WithTemplateDigest(h: Host, metadata: Json): Json {
    if metadata.Obj? && "template" in metadata.fields then
      Obj(metadata.fields["template_digest" := Str(h.digest(metadata.fields["template"]))])
    else metadata
  }

  function Redigest(h: Host, s: Surface, entry: Dict): Dict {
    var current :=
      if s == Prompts && "metadata" in entry then entry["metadata" := WithTemplateDigest(h, entry["metadata"])]
      else entry;
    current["digest" := Str(h.digest(Obj(Payload(s, current))))]
  }

  // ----- Refreshing -----

  function EntryKey(h: Host, s: Surface, entry: Json): string {
    h.str(Get(FieldsOf(entry), KeyField(s), Str("")))
  }

  function ByKey(h: Host, s: Surface): (Json, Json) -> bool {
    (x: Json, y: Json) => Le(EntryKey(h, s, x), EntryKey(h, s, y))
  }

  function Items(c: CatalogDoc, s: Surface): seq<Json> {
    if s in c.lists && c.lists[s].Arr? then c.lists[s].items else []
  }

  function Redigested(h: Host, s: Surface, items: seq<Json>): (r: seq<Json>)
    ensures forall e | e in r :: e.Obj?
  {
    if items == [] then []
    else
      (if items[0].Obj? then [Obj(Redigest(h, s, items[0].fields))] else [])
      + Redigested(h, s, items[1..])
  }

  function RefreshedItems(h: Host, s: Surface, items: seq<Json>): seq<Json> {
    StableSort(Redigested(h, s, items), ByKey(h, s))
  }

  function RefreshSurface(h: Host, c: CatalogDoc, s: Surface): CatalogDoc {
    var items := RefreshedItems(h, s, Items(c, s));
    c.(lists := c.lists[s := Arr(items)], counts := c.counts[s := Int(|items|)])
  }

  function RefreshSurfaces(h: Host, c: CatalogDoc): CatalogDoc {
    RefreshSurface(h, RefreshSurface(h, RefreshSurface(h, RefreshSurface(h, c, Tools), Prompts), Resources), Discovery)
  }

  function ListOf(c: CatalogDoc, s: Surface): Json {
    if s in c.lists then c.lists[s] else Arr([])
  }

  function CountOf(c: CatalogDoc, s: Surface): Json {
    if s in c.counts then c.counts[s] else if s == Tools then Null else Int(0)
  }

  /** The object that the whole-catalog digest covers, as the list of its values in a fixed order of the keys. */
  function CatalogPayload(c: CatalogDoc): Json {
    Arr([c.schema, c.digestAlgorithm, c.canonicalization, c.generatedFrom,
         CountOf(c, Tools), CountOf(c, Prompts), CountOf(c, Resources), CountOf(c, Discovery),
         ListOf(c, Tools), ListOf(c, Prompts), ListOf(c, Resources), ListOf(c, Discovery)])
  }

  /** `refresh_catalog_digests`. */
  function Refresh(h: Host, c: CatalogDoc): CatalogDoc {
    var refreshed := RefreshSurfaces(h, c);
    refreshed.(wholeDigest := Str(h.digest(CatalogPayload(refreshed))))
  }

  method RefreshCatalogDigests(h: Host, catalog: CatalogDoc) returns (refreshed: CatalogDoc)
    ensures refreshed == Refresh(h, catalog)
  {
    hide RefreshSurface;
    refreshed := catalog;
    refreshed := RefreshOneSurface(h, refreshed, Tools);
    refreshed := RefreshOneSurface(h, refreshed, Prompts);
    refreshed := RefreshOneSurface(h, refreshed, Resources);
    refreshed := RefreshOneSurface(h, refreshed, Discovery);
    refreshed := refreshed.(wholeDigest := Str(h.digest(CatalogPayload(refreshed))));
  }

  lemma RedigestedStep(h: Host, s: Surface, items: seq<Json>, i: nat)
    requires i < |items|
    ensures Redigested(h, s, items[i..])
         == (if items[i].Obj? then [Obj(Redigest(h, s, items[i].fields))] else []) + Redigested(h, s, items[i + 1..])
  {
    hide Redigest;
    assert items[i..][1..] == items[i + 1..];
  }

  lemma RedigestedNone(h: Host, s: Surface)
    ensures Redigested(h, s, []) == []
  {}

  method RefreshOneSurface(h: Host, c: CatalogDoc, s: Surface) returns (refreshed: CatalogDoc)
    ensures refreshed == RefreshSurface(h, c, s)
  {
    hide Redigest, ByKey, StableSort, Items, Redigested;
    var items := Items(c, s);
    var entries: seq<Json> := [];
    for i := 0 to |items|
      invariant Redigested(h, s, items) == entries + Redigested(h, s, items[i..])
    {
      RedigestedStep(h, s, items, i);
      if items[i].Obj? {
        entries := entries + [Obj(Redigest(h, s, items[i].fields))];
      }
    }
    RedigestedNone(h, s);
    assert items[|items|..] == [];
    assert entries == Redigested(h, s, items);
    entries := StableSort(entries, ByKey(h, s));
    refreshed := c.(lists := c.lists[s := Arr(entries)], counts := c.counts[s := Int(|entries|)]);
  }

  // ----- Refreshing twice -----

  lemma RedigestTwice(h: Host, s: Surface, entry: Dict)
    ensures Redigest(h, s, Redigest(h, s, entry)) == Redigest(h, s, entry)
  {
    var once := Redigest(h, s, entry);
    assert "digest" != "metadata" && "digest" != "name" && "digest" != "identity";
    if s == Prompts && "metadata" in entry {
      TemplateDigestTwice(h, entry["metadata"]);
      assert once["metadata"] == WithTemplateDigest(h, entry["metadata"]);
      assert once["metadata" := once["metadata"]] == once;
    }
    assert Payload(s, once["digest" := once["digest"]]) == Payload(s, once);
  }

  lemma TemplateDigestTwice(h: Host, metadata: Json)
    ensures WithTemplateDigest(h, WithTemplateDigest(h, metadata)) == WithTemplateDigest(h, metadata)
  {
    assert "template" != "template_digest" by {
      assert |"template"| == 8 && |"template_digest"| == 15;
    }
    var once := WithTemplateDigest(h, metadata);
    if metadata.Obj? && "template" in metadata.fields {
      assert once.fields["template_digest" := once.fields["template_digest"]] == once.fields;
    }
  }

  ghost predicate Settled(h: Host, s: Surface, items: seq<Json>) {
    && (forall e | e in items :: e.Obj? && Redigest(h, s, e.fields) == e.fields)
    && Sorted(items, ByKey(h, s))
  }

  lemma {:induction false} RedigestedAreSettled(h: Host, s: Surface, items: seq<Json>)
    ensures forall e | e in Redigested(h, s, items) :: e.Obj? && Redigest(h, s, e.fields) == e.fields
  {
    hide Redigest;
    if items != [] {
      RedigestedAreSettled(h, s, items[1..]);
      if items[0].Obj? {
        RedigestTwice(h, s, items[0].fields);
      }
    }
  }

  lemma {:induction false} SettledRedigest(h: Host, s: Surface, items: seq<Json>)
    requires forall e | e in items :: e.Obj? && Redigest(h, s, e.fields) == e.fields
    ensures Redigested(h, s, items) == items
  {
    hide Redigest;
    if items != [] {
      SettledRedigest(h, s, items[1..]);
      assert items[0] in items;
      assert items == [items[0]] + items[1..];
    }
  }

  lemma ByKeyOrders(h: Host, s: Surface)
    ensures TotalPreorder(ByKey(h, s))
  {
    forall x: Json, y: Json ensures ByKey(h, s)(x, y) || ByKey(h, s)(y, x) {
      LeTotal(EntryKey(h, s, x), EntryKey(h, s, y));
    }
    forall x: Json, y: Json, z: Json | ByKey(h, s)(x, y) && ByKey(h, s)(y, z) ensures ByKey(h, s)(x, z) {
      LeTransitive(EntryKey(h, s, x), EntryKey(h, s, y), EntryKey(h, s, z));
    }
  }

  lemma RefreshedIsSettled(h: Host, s: Surface, items: seq<Json>)
    ensures Settled(h, s, RefreshedItems(h, s, items))
  {
    hide Redigest, ByKey;
    var redone := Redigested(h, s, items);
    RedigestedAreSettled(h, s, items);
    ByKeyOrders(h, s);
    SortSorts(redone, ByKey(h, s));
    SortSameElements(redone, ByKey(h, s));
  }

  lemma SettledIsFixed(h: Host, s: Surface, items: seq<Json>)
    requires Settled(h, s, items)
    ensures RefreshedItems(h, s, items) == items
  {
    hide Redigest, ByKey;
    SettledRedigest(h, s, items);
    SortFixpoint(items, ByKey(h, s));
  }

  ghost predicate SettledSurface(h: Host, c: CatalogDoc, s: Surface) {
    && s in c.lists && c.lists[s].Arr? && Settled(h, s, c.lists[s].items)
    && s in c.counts && c.counts[s] == Int(|c.lists[s].items|)
  }

  lemma RefreshSettles(h: Host, c: CatalogDoc, s: Surface)
    ensures SettledSurface(h, RefreshSurface(h, c, s), s)
    ensures forall other | other != s && SettledSurface(h, c, other) ::
      SettledSurface(h, RefreshSurface(h, c, s), other)
  {
    hide Settled, RefreshedItems;
    RefreshedIsSettled(h, s, Items(c, s));
  }

  lemma SettledSurfaceIsFixed(h: Host, c: CatalogDoc, s: Surface)
    requires SettledSurface(h, c, s)
    ensures RefreshSurface(h, c, s) == c
  {
    hide Settled, RefreshedItems;
    SettledIsFixed(h, s, c.lists[s].items);
  }

  /** After a refresh every surface is settled, and its list comes from the old list of that surface. */
  lemma RefreshSurfacesSettle(h: Host, c: CatalogDoc, s: Surface)
    ensures SettledSurface(h, RefreshSurfaces(h, c), s)
    ensures RefreshSurfaces(h, c).lists[s] == Arr(RefreshedItems(h, s, Items(c, s)))
    ensures RefreshSurfaces(h, c) == c.(lists := RefreshSurfaces(h, c).lists, counts := RefreshSurfaces(h, c).counts)
  {
    hide SettledSurface, Settled, RefreshedItems;
    var c1 := RefreshSurface(h, c, Tools);
    var c2 := RefreshSurface(h, c1, Prompts);
    var c3 := RefreshSurface(h, c2, Resources);
    RefreshSettles(h, c, Tools);
    RefreshSettles(h, c1, Prompts);
    RefreshSettles(h, c2, Resources);
    RefreshSettles(h, c3, Discovery);
  }

  /** Refreshing a refreshed catalog changes nothing, for any document. */
  lemma RefreshIsIdempotent(h: Host, c: CatalogDoc)
    ensures Refresh(h, Refresh(h, c)) == Refresh(h, c)
  {
    hide RefreshSurface, SettledSurface;
    var once := Refresh(h, c);
    RefreshedSurfaceIsFixed(h, c, Tools);
    RefreshedSurfaceIsFixed(h, c, Prompts);
    RefreshedSurfaceIsFixed(h, c, Resources);
    RefreshedSurfaceIsFixed(h, c, Discovery);
    assert CatalogPayload(once) == CatalogPayload(RefreshSurfaces(h, c));
  }

  lemma RefreshedSurfaceIsFixed(h: Host, c: CatalogDoc, s: Surface)
    ensures RefreshSurface(h, Refresh(h, c), s) == Refresh(h, c)
  {
    hide Settled, RefreshSurfaces, CatalogPayload, RefreshSurface;
    RefreshSurfacesSettle(h, c, s);
    SettledSurfaceIsFixed(h, Refresh(h, c), s);
  }

  // ----- What a refreshed entry holds -----

  predicate TemplateIsDigested(h: Host, metadata: Json) {
    metadata.Obj? && "template" in metadata.fields ==>
      "template_digest" in metadata.fields
      && metadata.fields["template_digest"] == Str(h.digest(metadata.fields["template"]))
  }

  /** Two metadata values that are equal but for the digest of a template. */
  predicate SameButTemplateDigest(m: Json, m': Json) {
    m == m' || (m.Obj? && m'.Obj? && "template" in m.fields
                && m'.fields - {"template_digest"} == m.fields - {"template_digest"})
  }

  /**
   Renewing digests changes nothing but the entry's digest and, in a prompt, the template digest; both are
   then those of what they cover.
   */
  lemma RedigestSets(h: Host, s: Surface, entry: Dict)
    ensures var e := Redigest(h, s, entry);
      && e.Keys == entry.Keys + {"digest"}
      && (forall k | k in entry && k != "digest" && !(s == Prompts && k == "metadata") :: e[k] == entry[k])
      && e["digest"] == Str(h.digest(Obj(Payload(s, e))))
      && (s == Prompts && "metadata" in entry ==>
            TemplateIsDigested(h, e["metadata"]) && SameButTemplateDigest(entry["metadata"], e["metadata"]))
  {
    hide Payload, WithTemplateDigest;
    var e := Redigest(h, s, entry);
    assert "digest" != "metadata";
    PayloadIgnoresDigest(s, e);
    if s == Prompts && "metadata" in entry {
      TemplateDigestSet(h, entry["metadata"]);
      assert e["metadata"] == WithTemplateDigest(h, entry["metadata"]);
      assert e - {"digest"} == entry["metadata" := e["metadata"]] - {"digest"};
      PayloadIgnoresDigest(s, entry["metadata" := e["metadata"]]);
    } else {
      assert e - {"digest"} == entry - {"digest"};
      PayloadIgnoresDigest(s, entry);
    }
  }

  lemma PayloadIgnoresDigest(s: Surface, entry: Dict)
    ensures Payload(s, entry) == Payload(s, entry - {"digest"})
  {
    assert "digest" != "metadata" && "digest" != "name" && "digest" != "identity";
  }

  lemma TemplateDigestSet(h: Host, metadata: Json)
    ensures var m := WithTemplateDigest(h, metadata);
      TemplateIsDigested(h, m) && SameButTemplateDigest(metadata, m)
  {
    assert "template" != "template_digest" by {
      assert |"template"| == 8 && |"template_digest"| == 15;
    }
  }

  /** After a refresh every entry carries its own digest, and every prompt with a template that template's digest. */
  lemma RefreshedEntriesAreDigested(h: Host, c: CatalogDoc, s: Surface, e: Json)
    requires e in Items(Refresh(h, c), s)
    ensures e.Obj? && "digest" in e.fields && e.fields["digest"] == Str(h.digest(Obj(Payload(s, e.fields))))
    ensures s == Prompts && "metadata" in e.fields ==> TemplateIsDigested(h, e.fields["metadata"])
  {
    hide RefreshSurfaces, CatalogPayload, Redigest, Payload, TemplateIsDigested, RefreshedItems;
    RefreshSurfacesSettle(h, c, s);
    RedigestSets(h, s, e.fields);
  }

  /**
   A refreshed surface holds the renewed objects of the old list, each as often as before, in ascending order of
   the field that identifies them, and its count is their number.
   */
  lemma RefreshedInOrder(h: Host, c: CatalogDoc, s: Surface)
    ensures var items := Items(Refresh(h, c), s);
      && ListOf(Refresh(h, c), s) == Arr(items) && CountOf(Refresh(h, c), s) == Int(|items|)
      && multiset(items) == multiset(Redigested(h, s, Items(c, s)))
      && forall i, j | 0 <= i < j < |items| :: Le(EntryKey(h, s, items[i]), EntryKey(h, s, items[j]))
  {
    hide RefreshSurfaces, CatalogPayload, Redigested, EntryKey, StableSort, Settled;
    RefreshSurfacesSettle(h, c, s);
    var redone := Redigested(h, s, Items(c, s));
    ByKeyOrders(h, s);
    SortSorts(redone, ByKey(h, s));
    SortPermutes(redone, ByKey(h, s));
  }

  /** A refresh touches nothing but the four lists, the four counts and the whole digest. */
  lemma RefreshKeepsTheRest(h: Host, c: CatalogDoc)
    ensures var r := Refresh(h, c);
      && r.schema == c.schema && r.digestAlgorithm == c.digestAlgorithm && r.canonicalization == c.canonicalization
      && r.generatedFrom == c.generatedFrom && r.other == c.other
  {
    hide RefreshSurface, CatalogPayload;
    RefreshSurfacesSettle(h, c, Tools);
  }

  /** What two documents must have in common for the same whole digest after a refresh. */
  ghost predicate SameCovered(h: Host, c: CatalogDoc, d: CatalogDoc) {
    && c.schema == d.schema && c.digestAlgorithm == d.digestAlgorithm && c.canonicalization == d.canonicalization
    && c.generatedFrom == d.generatedFrom
    && forall s: Surface :: Items(Refresh(h, c), s) == Items(Refresh(h, d), s)
  }

  /** The whole digests of two refreshed documents are equal exactly when everything they cover is. */
  lemma WholeDigestDetermines(h: Host, c: CatalogDoc, d: CatalogDoc)
    requires Faithful(h)
    ensures Refresh(h, c).wholeDigest == Refresh(h, d).wholeDigest <==> SameCovered(h, c, d)
  {
    hide ListOf, CountOf, RefreshSurfaces, Items;
    var x, y := Refresh(h, c), Refresh(h, d);
    RefreshKeepsTheRest(h, c);
    RefreshKeepsTheRest(h, d);
    forall s: Surface
      ensures ListOf(x, s) == ListOf(y, s) <==> Items(x, s) == Items(y, s)
      ensures ListOf(x, s) == ListOf(y, s) ==> CountOf(x, s) == CountOf(y, s)
    {
      RefreshedInOrder(h, c, s);
      RefreshedInOrder(h, d, s);
    }
    PayloadCovers(h, c);
    PayloadCovers(h, d);
    hide Refresh;
    var p, q := CatalogPayload(x), CatalogPayload(y);
    assert x.wholeDigest == y.wholeDigest <==> p == q;
    if p == q {
      PartsAreEqual(p.items, q.items);
      assert ListOf(x, Tools) == ListOf(y, Tools) && ListOf(x, Prompts) == ListOf(y, Prompts);
      assert ListOf(x, Resources) == ListOf(y, Resources) && ListOf(x, Discovery) == ListOf(y, Discovery);
      forall s: Surface ensures Items(x, s) == Items(y, s) {
        assert s == Tools || s == Prompts || s == Resources || s == Discovery;
      }
    }
  }

  lemma PayloadCovers(h: Host, c: CatalogDoc)
    ensures Refresh(h, c).wholeDigest == Str(h.digest(CatalogPayload(Refresh(h, c))))
  {
    hide RefreshSurfaces;
    assert CatalogPayload(Refresh(h, c)) == CatalogPayload(RefreshSurfaces(h, c));
  }

  lemma PartsAreEqual(p: seq<Json>, q: seq<Json>)
    requires p == q && |p| == 12
    ensures p[0] == q[0] && p[1] == q[1] && p[2] == q[2] && p[3] == q[3]
    ensures p[8] == q[8] && p[9] == q[9] && p[10] == q[10] && p[11] == q[11]
  {}
}
