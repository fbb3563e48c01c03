/** The recursive metadata diff: rows of (path, expected side, actual side), with None for a missing side. */
module MetadataDiff {
  import opened Wrappers
  import opened Strings
  import opened Json

  datatype Step = Key(name: string) | Index(at: nat)

  datatype Row = Row(path: seq<Step>, expected: Option<Json>, actual: Option<Json>)

  // ----- The unbounded diff -----

  function DiffRows(e: Json, a: Json, path: seq<Step>): seq<Row>
    decreases e, 1, 0
  {
    if PyEqual(e, a) then []
    else if e.Obj? && a.Obj? then KeyRows(e, a, SortedKeys(e.fields.Keys + a.fields.Keys), path)
    else if e.Arr? && a.Arr? then ItemRows(e, a, 0, path)
    else [Row(path, Some(e), Some(a))]
  }

  /** The rows for one key that at least one of two objects has. */
  function RowsAtKey(e: Json, a: Json, k: string, here: seq<Step>): seq<Row>
    requires e.Obj? && a.Obj? && (k in e.fields || k in a.fields)
    decreases e, 0, 0
  {
    if k !in e.fields then [Row(here, None, Some(a.fields[k]))]
    else if k !in a.fields then [Row(here, Some(e.fields[k]), None)]
    else DiffRows(e.fields[k], a.fields[k], here)
  }

  function KeyRows(e: Json, a: Json, keys: seq<string>, path: seq<Step>): seq<Row>
    requires e.Obj? && a.Obj?
    requires forall k | k in keys :: k in e.fields || k in a.fields
    decreases e, 0, |keys|
  {
    if keys == [] then []
    else RowsAtKey(e, a, keys[0], path + [Key(keys[0])]) + KeyRows(e, a, keys[1..], path)
  }

  function Longer(e: Json, a: Json): nat
    requires e.Arr? && a.Arr?
  {
    if |e.items| >= |a.items| then |e.items| else |a.items|
  }

  /** The rows for one index within the longer of two lists. */
  function RowsAtIndex(e: Json, a: Json, i: nat, here: seq<Step>): seq<Row>
    requires e.Arr? && a.Arr? && i < Longer(e, a)
    decreases e, 0, 0
  {
    if i >= |e.items| then [Row(here, None, Some(a.items[i]))]
    else if i >= |a.items| then [Row(here, Some(e.items[i]), None)]
    else DiffRows(e.items[i], a.items[i], here)
  }

  function ItemRows(e: Json, a: Json, i: nat, path: seq<Step>): seq<Row>
    requires e.Arr? && a.Arr? && i <= Longer(e, a)
    decreases e, 0, Longer(e, a) - i
  {
    if i == Longer(e, a) then []
    else RowsAtIndex(e, a, i, path + [Index(i)]) + ItemRows(e, a, i + 1, path)
  }

  // ----- `_diff_values` with its output list and limit -----

  /** The output list that the recursive calls share. */
  class RowList {
    var rows: seq<Row>

    constructor ()
      ensures rows == []
    {
      rows := [];
    }
  }

  function Prefix(rows: seq<Row>, n: nat): (r: seq<Row>)
    ensures |r| <= n && r <= rows
  {
    if |rows| <= n then rows else rows[..n]
  }

  lemma PrefixInTwo(first: seq<Row>, second: seq<Row>, n: nat)
    ensures |first| < n ==>
      Prefix(first, n) == first && Prefix(first + second, n) == first + Prefix(second, n - |first|)
    ensures |first| >= n ==> |Prefix(first, n)| == n && Prefix(first + second, n) == Prefix(first, n)
  {}

  /** What a list holds after further rows are appended until it reaches the limit. */
  function Bounded(rows: seq<Row>, more: seq<Row>, limit: int): (r: seq<Row>)
    ensures |rows| < limit ==> |r| <= limit
    ensures rows <= r
  {
    if |rows| >= limit then rows else rows + Prefix(more, limit - |rows|)
  }

  lemma BoundedInTwo(rows: seq<Row>, first: seq<Row>, second: seq<Row>, limit: int)
    requires |rows| < limit
    ensures Bounded(Bounded(rows, first, limit), second, limit) == Bounded(rows, first + second, limit)
  {
    hide Prefix;
    var n := limit - |rows|;
    PrefixInTwo(first, second, n);
    if |first| < n {
      assert Bounded(rows, first, limit) == rows + first;
      assert rows + (first + Prefix(second, n - |first|)) == rows + first + Prefix(second, n - |first|);
    } else {
      assert |Bounded(rows, first, limit)| == limit;
    }
  }

  method DiffValues(e: Json, a: Json, path: seq<Step>, out: RowList, limit: int)
    modifies out
    ensures out.rows == Bounded(old(out.rows), DiffRows(e, a, path), limit)
    decreases e, 1, 0
  {
    if |out.rows| >= limit || PyEqual(e, a) {
      return;
    }
    if e.Obj? && a.Obj? {
      DiffKeys(e, a, path, out, limit);
    } else if e.Arr? && a.Arr? {
      DiffItems(e, a, path, out, limit);
    } else {
      out.rows := out.rows + [Row(path, Some(e), Some(a))];
    }
  }

  method DiffKeys(e: Json, a: Json, path: seq<Step>, out: RowList, limit: int)
    requires e.Obj? && a.Obj? && |out.rows| < limit
    modifies out
    ensures out.rows == Bounded(old(out.rows), KeyRows(e, a, SortedKeys(e.fields.Keys + a.fields.Keys), path), limit)
    decreases e, 0, 1
  {
    hide DiffRows, PyEqual, SortedKeys, Bounded;
    var keys := SortedKeys(e.fields.Keys + a.fields.Keys);
    ghost var whole := Bounded(out.rows, KeyRows(e, a, keys, path), limit);
    for n := 0 to |keys|
      invariant |out.rows| < limit
      invariant Bounded(out.rows, KeyRows(e, a, keys[n..], path), limit) == whole
    {
      var k := keys[n];
      var here := path + [Key(k)];
      assert keys[n..][1..] == keys[n + 1..];
      BoundedInTwo(out.rows, RowsAtKey(e, a, k, here), KeyRows(e, a, keys[n + 1..], path), limit);
      if k !in e.fields {
        AppendIsBounded(out.rows, Row(here, None, Some(a.fields[k])), limit);
        out.rows := out.rows + [Row(here, None, Some(a.fields[k]))];
      } else if k !in a.fields {
        AppendIsBounded(out.rows, Row(here, Some(e.fields[k]), None), limit);
        out.rows := out.rows + [Row(here, Some(e.fields[k]), None)];
      } else {
        DiffValues(e.fields[k], a.fields[k], here, out, limit);
      }
      if |out.rows| >= limit {
        FullIsBounded(out.rows, KeyRows(e, a, keys[n + 1..], path), limit);
        return;
      }
    }
    assert keys[|keys|..] == [];
    NothingIsBounded(out.rows, limit);
  }

  method DiffItems(e: Json, a: Json, path: seq<Step>, out: RowList, limit: int)
    requires e.Arr? && a.Arr? && |out.rows| < limit
    modifies out
    ensures out.rows == Bounded(old(out.rows), ItemRows(e, a, 0, path), limit)
    decreases e, 0, 1
  {
    hide DiffRows, PyEqual, Bounded;
    ghost var whole := Bounded(out.rows, ItemRows(e, a, 0, path), limit);
    for i := 0 to Longer(e, a)
      invariant |out.rows| < limit
      invariant Bounded(out.rows, ItemRows(e, a, i, path), limit) == whole
    {
      var here := path + [Index(i)];
      BoundedInTwo(out.rows, RowsAtIndex(e, a, i, here), ItemRows(e, a, i + 1, path), limit);
      if i >= |e.items| {
        AppendIsBounded(out.rows, Row(here, None, Some(a.items[i])), limit);
        out.rows := out.rows + [Row(here, None, Some(a.items[i]))];
      } else if i >= |a.items| {
        AppendIsBounded(out.rows, Row(here, Some(e.items[i]), None), limit);
        out.rows := out.rows + [Row(here, Some(e.items[i]), None)];
      } else {
        DiffValues(e.items[i], a.items[i], here, out, limit);
      }
      if |out.rows| >= limit {
        FullIsBounded(out.rows, ItemRows(e, a, i + 1, path), limit);
        return;
      }
    }
    NothingIsBounded(out.rows, limit);
  }

  lemma AppendIsBounded(rows: seq<Row>, row: Row, limit: int)
    requires |rows| < limit
    ensures Bounded(rows, [row], limit) == rows + [row]
  {}

  lemma FullIsBounded(rows: seq<Row>, more: seq<Row>, limit: int)
    requires |rows| >= limit
    ensures Bounded(rows, more, limit) == rows
  {}

  lemma NothingIsBounded(rows: seq<Row>, limit: int)
    ensures Bounded(rows, [], limit) == rows
  {}

  /** `metadata_diff`: at most `limit` rows, and all of them when they fit. */
  method DiffMetadata(e: Json, a: Json, limit: int) returns (rows: seq<Row>)
    ensures rows == Bounded([], DiffRows(e, a, [Key("metadata")]), limit)
    ensures rows <= DiffRows(e, a, [Key("metadata")]) && (limit >= 0 ==> |rows| <= limit)
  {
    var out := new RowList();
    DiffValues(e, a, [Key("metadata")], out, limit);
    rows := out.rows;
  }

  // ----- Empty exactly on equal values -----

  lemma {:induction false} EmptyIffEqual(e: Json, a: Json, path: seq<Step>)
    ensures DiffRows(e, a, path) == [] <==> PyEqual(e, a)
    decreases e, 1, 0
  {
    hide PyEqual, KeyRows, ItemRows;
    if e.Obj? && a.Obj? {
      var keys := SortedKeys(e.fields.Keys + a.fields.Keys);
      assert forall k :: k in e.fields || k in a.fields <==> k in keys;
      NoKeyRows(e, a, keys, path);
      ObjEqual(e, a);
    } else if e.Arr? && a.Arr? {
      NoItemRows(e, a, 0, path);
      ArrEqual(e, a);
    }
  }

  lemma {:induction false} NoKeyRows(e: Json, a: Json, keys: seq<string>, path: seq<Step>)
    requires e.Obj? && a.Obj?
    requires forall k | k in keys :: k in e.fields || k in a.fields
    ensures KeyRows(e, a, keys, path) == []
      <==> forall k | k in keys :: k in e.fields && k in a.fields && PyEqual(e.fields[k], a.fields[k])
    decreases e, 0, |keys|
  {
    if keys != [] {
      var k := keys[0];
      NoKeyRows(e, a, keys[1..], path);
      if k in e.fields && k in a.fields {
        EmptyIffEqual(e.fields[k], a.fields[k], path + [Key(k)]);
      }
      assert forall j :: j in keys <==> j == k || j in keys[1..];
    }
  }

  lemma {:induction false} NoItemRows(e: Json, a: Json, i: nat, path: seq<Step>)
    requires e.Arr? && a.Arr? && i <= Longer(e, a)
    ensures ItemRows(e, a, i, path) == []
      <==> && (i == Longer(e, a) || |e.items| == |a.items|)
           && forall j | i <= j < |e.items| && j < |a.items| :: PyEqual(e.items[j], a.items[j])
    decreases e, 0, Longer(e, a) - i
  {
    if i < Longer(e, a) {
      NoItemRows(e, a, i + 1, path);
      if i < |e.items| && i < |a.items| {
        EmptyIffEqual(e.items[i], a.items[i], path + [Index(i)]);
      }
    }
  }

  // ----- Swapping the sides -----

  function Swapped(rows: seq<Row>): seq<Row> {
    seq(|rows|, i requires 0 <= i < |rows| => Row(rows[i].path, rows[i].actual, rows[i].expected))
  }

  lemma SwappedConcat(x: seq<Row>, y: seq<Row>)
    ensures Swapped(x + y) == Swapped(x) + Swapped(y)
  {}

  /** Swapping the arguments swaps the two columns, row by row. */
  lemma {:induction false} SwapSwapsColumns(e: Json, a: Json, path: seq<Step>)
    ensures DiffRows(a, e, path) == Swapped(DiffRows(e, a, path))
    decreases e, 1, 0
  {
    if e.Obj? && a.Obj? {
      assert e.fields.Keys + a.fields.Keys == a.fields.Keys + e.fields.Keys;
      SwapKeyRows(e, a, SortedKeys(e.fields.Keys + a.fields.Keys), path);
    } else if e.Arr? && a.Arr? {
      SwapItemRows(e, a, 0, path);
    }
  }

  lemma {:induction false} SwapKeyRows(e: Json, a: Json, keys: seq<string>, path: seq<Step>)
    requires e.Obj? && a.Obj?
    requires forall k | k in keys :: k in e.fields || k in a.fields
    ensures KeyRows(a, e, keys, path) == Swapped(KeyRows(e, a, keys, path))
    decreases e, 0, |keys|
  {
    if keys != [] {
      var k := keys[0];
      var here := path + [Key(k)];
      SwapKeyRows(e, a, keys[1..], path);
      if k in e.fields && k in a.fields {
        SwapSwapsColumns(e.fields[k], a.fields[k], here);
        SwappedConcat(DiffRows(e.fields[k], a.fields[k], here), KeyRows(e, a, keys[1..], path));
      }
    }
  }

  lemma {:induction false} SwapItemRows(e: Json, a: Json, i: nat, path: seq<Step>)
    requires e.Arr? && a.Arr? && i <= Longer(e, a)
    ensures ItemRows(a, e, i, path) == Swapped(ItemRows(e, a, i, path))
    decreases e, 0, Longer(e, a) - i
  {
    if i < Longer(e, a) {
      var here := path + [Index(i)];
      SwapItemRows(e, a, i + 1, path);
      if i < |e.items| && i < |a.items| {
        SwapSwapsColumns(e.items[i], a.items[i], here);
        SwappedConcat(DiffRows(e.items[i], a.items[i], here), ItemRows(e, a, i + 1, path));
      }
    }
  }
}
