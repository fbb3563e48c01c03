/** JSON values as Python holds them, with Python's notion of equality. */
module Json {

  /**
   A finite float is its whole part (rounded down) and a code of the rest, which is 0 for a whole
   number; booleans, integers and floats are kept apart because they encode differently.
   */
  datatype Json =
    | Null
    | Bool(b: bool)
    | Int(i: int)
    | Float(whole: int, rest: nat)
    | Str(s: string)
    | Arr(items: seq<Json>)
    | Obj(fields: map<string, Json>)

  /** One representative of each class of values that Python's `==` identifies: True == 1 == 1.0. */
  function Norm(v: Json): Json {
    match v
    case Bool(b) => Int(if b then 1 else 0)
    case Float(whole, rest) => if rest == 0 then Int(whole) else v
    case Arr(items) => Arr(seq(|items|, i requires 0 <= i < |items| => Norm(items[i])))
    case Obj(fields) => Obj(map k | k in fields :: Norm(fields[k]))
    case _ => v
  }

  predicate PyEqual(a: Json, b: Json) {
    Norm(a) == Norm(b)
  }

  lemma ObjEqual(a: Json, b: Json)
    requires a.Obj? && b.Obj?
    ensures PyEqual(a, b)
      <==> a.fields.Keys == b.fields.Keys && forall k | k in a.fields :: PyEqual(a.fields[k], b.fields[k])
  {
    var x, y := Norm(a).fields, Norm(b).fields;
    assert x.Keys == a.fields.Keys && y.Keys == b.fields.Keys;
    if a.fields.Keys == b.fields.Keys && forall k | k in a.fields :: PyEqual(a.fields[k], b.fields[k]) {
      assert x == y;
    }
    if PyEqual(a, b) {
      forall k | k in a.fields ensures PyEqual(a.fields[k], b.fields[k]) {
        assert x[k] == y[k];
      }
    }
  }

  lemma ArrEqual(a: Json, b: Json)
    requires a.Arr? && b.Arr?
    ensures PyEqual(a, b)
      <==> |a.items| == |b.items| && forall i | 0 <= i < |a.items| :: PyEqual(a.items[i], b.items[i])
  {
    var x, y := Norm(a).items, Norm(b).items;
    assert |x| == |a.items| && |y| == |b.items|;
    if |a.items| == |b.items| && forall i | 0 <= i < |a.items| :: PyEqual(a.items[i], b.items[i]) {
      assert x == y;
    }
    if PyEqual(a, b) {
      forall i | 0 <= i < |a.items| ensures PyEqual(a.items[i], b.items[i]) {
        assert x[i] == y[i];
      }
    }
  }
}
