/** Reading a diff as a patch: applying its rows in order turns the expected value into the actual one. */
module MetadataPatch {
  import opened Wrappers
  import opened Strings
  import opened Json
  import opened MetadataDiff

  /**
   Puts `to` at the path.  None removes: a key from its object, and in a list everything from the
   index on, because a diff reports missing items only at the end of a list.
   */
  function ApplyAt(v: Json, path: seq<Step>, to: Option<Json>): Json
    decreases |path|
  {
    if path == [] then (if to.Some? then to.value else v)
    else
      match (path[0], v)
      case (Key(k), Obj(fields)) =>
        if |path| == 1 && to.None? then Obj(fields - {k})
        else if |path| == 1 then Obj(fields[k := to.value])
        else if k in fields then Obj(fields[k := ApplyAt(fields[k], path[1..], to)])
        else v
      case (Index(i), Arr(items)) =>
        if i < |items| then
          if |path| == 1 && to.None? then Arr(items[..i])
          else Arr(items[i := ApplyAt(items[i], path[1..], to)])
        else if i == |items| && |path| == 1 && to.Some? then Arr(items + [to.value])
        else v
      case _ => v
  }

  function Apply(v: Json, rows: seq<Row>): Json
    decreases |rows|
  {
    if rows == [] then v else Apply(ApplyAt(v, rows[0].path, rows[0].actual), rows[1..])
  }

  lemma {:induction false} ApplyInTwo(v: Json, x: seq<Row>, y: seq<Row>)
    ensures Apply(v, x + y) == Apply(Apply(v, x), y)
    decreases |x|
  {
    if x == [] {
      assert x + y == y;
    } else {
      assert (x + y)[1..] == x[1..] + y;
      ApplyInTwo(ApplyAt(v, x[0].path, x[0].actual), x[1..], y);
    }
  }

  // ----- Paths are relative to where a diff starts -----

  function BelowPath(path: seq<Step>, rows: seq<Row>): seq<Row> {
    seq(|rows|, i requires 0 <= i < |rows| => Row(path + rows[i].path, rows[i].expected, rows[i].actual))
  }

  lemma BelowPathConcat(path: seq<Step>, x: seq<Row>, y: seq<Row>)
    ensures BelowPath(path, x + y) == BelowPath(path, x) + BelowPath(path, y)
  {}

  lemma BelowPathTwice(p: seq<Step>, q: seq<Step>, rows: seq<Row>)
    ensures BelowPath(p, BelowPath(q, rows)) == BelowPath(p + q, rows)
  {
    forall i | 0 <= i < |rows| ensures p + (q + rows[i].path) == p + q + rows[i].path {}
  }

  lemma {:induction false} DiffIsRelative(e: Json, a: Json, path: seq<Step>)
    ensures DiffRows(e, a, path) == BelowPath(path, DiffRows(e, a, []))
    decreases e, 1, 0
  {
    if e.Obj? && a.Obj? {
      KeysAreRelative(e, a, SortedKeys(e.fields.Keys + a.fields.Keys), path);
    } else if e.Arr? && a.Arr? {
      ItemsAreRelative(e, a, 0, path);
    } else {
      assert path + [] == path;
    }
  }

  lemma OneStepFurther(e: Json, a: Json, path: seq<Step>, step: Step)
    requires DiffRows(e, a, path + [step]) == BelowPath(path + [step], DiffRows(e, a, []))
    requires DiffRows(e, a, [] + [step]) == BelowPath([] + [step], DiffRows(e, a, []))
    ensures DiffRows(e, a, path + [step]) == BelowPath(path, DiffRows(e, a, [] + [step]))
  {
    BelowPathTwice(path, [] + [step], DiffRows(e, a, []));
    assert path + ([] + [step]) == path + [step];
  }

  lemma {:induction false} KeysAreRelative(e: Json, a: Json, keys: seq<string>, path: seq<Step>)
    requires e.Obj? && a.Obj?
    requires forall k | k in keys :: k in e.fields || k in a.fields
    ensures KeyRows(e, a, keys, path) == BelowPath(path, KeyRows(e, a, keys, []))
    decreases e, 0, |keys|
  {
    if keys != [] {
      hide DiffRows;
      var k := keys[0];
      KeysAreRelative(e, a, keys[1..], path);
      assert path + ([] + [Key(k)]) == path + [Key(k)];
      if k in e.fields && k in a.fields {
        DiffIsRelative(e.fields[k], a.fields[k], path + [Key(k)]);
        DiffIsRelative(e.fields[k], a.fields[k], [] + [Key(k)]);
        OneStepFurther(e.fields[k], a.fields[k], path, Key(k));
      }
      BelowPathConcat(path, RowsAtKey(e, a, k, [] + [Key(k)]), KeyRows(e, a, keys[1..], []));
    }
  }

  lemma {:induction false} ItemsAreRelative(e: Json, a: Json, i: nat, path: seq<Step>)
    requires e.Arr? && a.Arr? && i <= Longer(e, a)
    ensures ItemRows(e, a, i, path) == BelowPath(path, ItemRows(e, a, i, []))
    decreases e, 0, Longer(e, a) - i
  {
    if i < Longer(e, a) {
      hide DiffRows;
      ItemsAreRelative(e, a, i + 1, path);
      assert path + ([] + [Index(i)]) == path + [Index(i)];
      if i < |e.items| && i < |a.items| {
        DiffIsRelative(e.items[i], a.items[i], path + [Index(i)]);
        DiffIsRelative(e.items[i], a.items[i], [] + [Index(i)]);
        OneStepFurther(e.items[i], a.items[i], path, Index(i));
      }
      BelowPathConcat(path, RowsAtIndex(e, a, i, [] + [Index(i)]), ItemRows(e, a, i + 1, []));
    }
  }

  // ----- A patch below one key or index -----

  ghost predicate Grounded(rows: seq<Row>) {
    forall i | 0 <= i < |rows| :: rows[i].path == [] ==> rows[i].actual.Some?
  }

  lemma {:induction false} DiffIsGrounded(e: Json, a: Json)
    ensures Grounded(DiffRows(e, a, []))
  {
    if e.Obj? && a.Obj? {
      KeyRowsAreDeep(e, a, SortedKeys(e.fields.Keys + a.fields.Keys));
    } else if e.Arr? && a.Arr? {
      ItemRowsAreDeep(e, a, 0);
    }
  }

  lemma {:induction false} KeyRowsAreDeep(e: Json, a: Json, keys: seq<string>)
    requires e.Obj? && a.Obj?
    requires forall k | k in keys :: k in e.fields || k in a.fields
    ensures Grounded(KeyRows(e, a, keys, []))
  {
    if keys != [] {
      hide DiffRows;
      var k := keys[0];
      KeyRowsAreDeep(e, a, keys[1..]);
      if k in e.fields && k in a.fields {
        DiffIsRelative(e.fields[k], a.fields[k], [] + [Key(k)]);
      }
    }
  }

  lemma {:induction false} ItemRowsAreDeep(e: Json, a: Json, i: nat)
    requires e.Arr? && a.Arr? && i <= Longer(e, a)
    ensures Grounded(ItemRows(e, a, i, []))
    decreases Longer(e, a) - i
  {
    if i < Longer(e, a) {
      hide DiffRows;
      ItemRowsAreDeep(e, a, i + 1);
      if i < |e.items| && i < |a.items| {
        DiffIsRelative(e.items[i], a.items[i], [] + [Index(i)]);
      }
    }
  }

  lemma {:induction false} ApplyBelowKey(fields: map<string, Json>, k: string, rows: seq<Row>)
    requires k in fields && Grounded(rows)
    ensures Apply(Obj(fields), BelowPath([Key(k)], rows)) == Obj(fields[k := Apply(fields[k], rows)])
    decreases |rows|
  {
    if rows == [] {
      assert fields[k := fields[k]] == fields;
    } else {
      var r := rows[0];
      var path := [Key(k)] + r.path;
      assert path[1..] == r.path;
      var next := ApplyAt(fields[k], r.path, r.actual);
      assert ApplyAt(Obj(fields), path, r.actual) == Obj(fields[k := next]);
      assert BelowPath([Key(k)], rows)[1..] == BelowPath([Key(k)], rows[1..]);
      ApplyBelowKey(fields[k := next], k, rows[1..]);
      assert fields[k := next][k := Apply(next, rows[1..])] == fields[k := Apply(next, rows[1..])];
    }
  }

  lemma {:induction false} ApplyBelowIndex(items: seq<Json>, i: nat, rows: seq<Row>)
    requires i < |items| && Grounded(rows)
    ensures Apply(Arr(items), BelowPath([Index(i)], rows)) == Arr(items[i := Apply(items[i], rows)])
    decreases |rows|
  {
    if rows == [] {
      assert items[i := items[i]] == items;
    } else {
      var r := rows[0];
      var path := [Index(i)] + r.path;
      assert path[1..] == r.path;
      var next := ApplyAt(items[i], r.path, r.actual);
      assert ApplyAt(Arr(items), path, r.actual) == Arr(items[i := next]);
      assert BelowPath([Index(i)], rows)[1..] == BelowPath([Index(i)], rows[1..]);
      ApplyBelowIndex(items[i := next], i, rows[1..]);
      assert items[i := next][i := Apply(next, rows[1..])] == items[i := Apply(next, rows[1..])];
    }
  }

  // ----- The patch property -----

  /** Applying the diff of two values to the first yields a value equal to the second. */
  lemma {:induction false} PatchYieldsActual(e: Json, a: Json)
    ensures PyEqual(Apply(e, DiffRows(e, a, [])), a)
    decreases e, 1, 0
  {
    if PyEqual(e, a) {
    } else if e.Obj? && a.Obj? {
      var keys := SortedKeys(e.fields.Keys + a.fields.Keys);
      var z := PatchKeys(e.fields, e, a, keys);
      assert z.Keys == a.fields.Keys;
      ObjEqual(Obj(z), a);
    } else if e.Arr? && a.Arr? {
      var z := PatchItems(e.items, e, a, 0);
      ArrEqual(Arr(z), a);
    }
  }

  lemma {:induction false} PatchKeys(now: map<string, Json>, e: Json, a: Json, keys: seq<string>)
    returns (z: map<string, Json>)
    requires e.Obj? && a.Obj?
    requires forall i, j | 0 <= i < j < |keys| :: keys[i] != keys[j]
    requires forall k | k in keys :: k in e.fields || k in a.fields
    requires forall k | k in keys :: (k in now <==> k in e.fields) && (k in e.fields ==> now[k] == e.fields[k])
    ensures Apply(Obj(now), KeyRows(e, a, keys, [])) == Obj(z)
    ensures forall k | k in keys :: (k in z <==> k in a.fields) && (k in a.fields ==> PyEqual(z[k], a.fields[k]))
    ensures forall k | k !in keys :: (k in z <==> k in now) && (k in now ==> z[k] == now[k])
    decreases e, 0, |keys|
  {
    if keys == [] {
      return now;
    }
    hide DiffRows, PyEqual;
    var k := keys[0];
    assert [] + [Key(k)] == [Key(k)];
    var step := PatchOneKey(now, e, a, k);
    assert forall j | j in keys[1..] :: j != k;
    z := PatchKeys(step, e, a, keys[1..]);
    ApplyInTwo(Obj(now), RowsAtKey(e, a, k, [] + [Key(k)]), KeyRows(e, a, keys[1..], []));
    assert forall j :: j in keys <==> j == k || j in keys[1..];
  }

  lemma {:induction false} PatchOneKey(now: map<string, Json>, e: Json, a: Json, k: string)
    returns (step: map<string, Json>)
    requires e.Obj? && a.Obj? && (k in e.fields || k in a.fields)
    requires (k in now <==> k in e.fields) && (k in e.fields ==> now[k] == e.fields[k])
    ensures Apply(Obj(now), RowsAtKey(e, a, k, [Key(k)])) == Obj(step)
    ensures (k in step <==> k in a.fields) && (k in a.fields ==> PyEqual(step[k], a.fields[k]))
    ensures forall j | j != k :: (j in step <==> j in now) && (j in now ==> step[j] == now[j])
    decreases e, 0, 0
  {
    hide DiffRows;
    if k !in e.fields {
      step := now[k := a.fields[k]];
    } else if k !in a.fields {
      step := now - {k};
    } else {
      var rows := DiffRows(e.fields[k], a.fields[k], []);
      DiffIsRelative(e.fields[k], a.fields[k], [Key(k)]);
      DiffIsGrounded(e.fields[k], a.fields[k]);
      ApplyBelowKey(now, k, rows);
      PatchYieldsActual(e.fields[k], a.fields[k]);
      step := now[k := Apply(now[k], rows)];
    }
  }

  lemma {:induction false} PatchItems(now: seq<Json>, e: Json, a: Json, i: nat) returns (z: seq<Json>)
    requires e.Arr? && a.Arr? && i <= Longer(e, a)
    requires if i <= |e.items| && i <= |a.items| then |now| == |e.items| && now[i..] == e.items[i..]
             else if i <= |a.items| then |now| == i
             else |now| == |a.items|
    requires forall j | 0 <= j < i && j < |a.items| && j < |now| :: PyEqual(now[j], a.items[j])
    ensures Apply(Arr(now), ItemRows(e, a, i, [])) == Arr(z)
    ensures |z| == |a.items| && forall j | 0 <= j < |z| :: PyEqual(z[j], a.items[j])
    decreases e, 0, Longer(e, a) - i
  {
    if i == Longer(e, a) {
      return now;
    }
    hide DiffRows, PyEqual, Apply, RowsAtIndex;
    assert [] + [Index(i)] == [Index(i)];
    var step := PatchOneItem(now, e, a, i);
    z := PatchItems(step, e, a, i + 1);
    ApplyInTwo(Arr(now), RowsAtIndex(e, a, i, [] + [Index(i)]), ItemRows(e, a, i + 1, []));
  }

  lemma {:induction false} PatchOneItem(now: seq<Json>, e: Json, a: Json, i: nat) returns (step: seq<Json>)
    requires e.Arr? && a.Arr? && i < Longer(e, a)
    requires if i <= |e.items| && i <= |a.items| then |now| == |e.items| && now[i..] == e.items[i..]
             else if i <= |a.items| then |now| == i
             else |now| == |a.items|
    ensures Apply(Arr(now), RowsAtIndex(e, a, i, [Index(i)])) == Arr(step)
    ensures if i + 1 <= |e.items| && i + 1 <= |a.items| then |step| == |e.items| && step[i + 1..] == e.items[i + 1..]
            else if i + 1 <= |a.items| then |step| == i + 1
            else |step| == |a.items|
    ensures forall j | 0 <= j < i && j < |step| :: j < |now| && step[j] == now[j]
    ensures i < |a.items| ==> PyEqual(step[i], a.items[i])
    decreases e, 0, 0
  {
    hide DiffRows;
    if i >= |e.items| {
      step := now + [a.items[i]];
    } else if i >= |a.items| {
      step := if i < |now| then now[..i] else now;
    } else {
      assert now[i] == now[i..][0] == e.items[i..][0] == e.items[i];
      var rows := DiffRows(e.items[i], a.items[i], []);
      DiffIsRelative(e.items[i], a.items[i], [Index(i)]);
      DiffIsGrounded(e.items[i], a.items[i]);
      ApplyBelowIndex(now, i, rows);
      PatchYieldsActual(e.items[i], a.items[i]);
      step := now[i := Apply(now[i], rows)];
      assert step[i + 1..] == now[i..][1..];
      assert e.items[i + 1..] == e.items[i..][1..];
    }
  }
}
