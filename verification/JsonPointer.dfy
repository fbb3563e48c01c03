/** JSON Pointer evaluation as the parity report does it, against section 3 and section 4 of RFC 6901. */
module JsonPointer {
  import opened Wrappers
  import opened Strings
  import opened Json

  // ----- Escaping -----

  /** Section 3: "~" becomes "~0" and "/" becomes "~1". */
  function Escape(key: string): string {
    if key == "" then ""
    else (if key[0] == '~' then "~0" else if key[0] == '/' then "~1" else [key[0]]) + Escape(key[1..])
  }

  /** `str.replace` of the two characters "~d" by one character, left to right. */
  function ReplaceTilde(s: string, d: char, with: char): string {
    if s == "" then ""
    else if |s| >= 2 && s[0] == '~' && s[1] == d then [with] + ReplaceTilde(s[2..], d, with)
    else [s[0]] + ReplaceTilde(s[1..], d, with)
  }

  /** The two passes in the order of section 4: first "~1", then "~0". */
  function Unescape(part: string): string {
    ReplaceTilde(ReplaceTilde(part, '1', '/'), '0', '~')
  }

  /** What the first pass leaves of an escaped key: slashes are back, tildes still escaped. */
  function HalfEscape(key: string): string {
    if key == "" then "" else (if key[0] == '~' then "~0" else [key[0]]) + HalfEscape(key[1..])
  }

  /** How one step of a pass goes: over an escape it replaces, and over any other character. */
  lemma ReplaceStep(head: char, rest: string, d: char, with: char)
    ensures ReplaceTilde(['~', d] + rest, d, with) == [with] + ReplaceTilde(rest, d, with)
    ensures head != '~' ==> ReplaceTilde([head] + rest, d, with) == [head] + ReplaceTilde(rest, d, with)
    ensures head != d && head != '~' ==>
      ReplaceTilde(['~', head] + rest, d, with) == ['~', head] + ReplaceTilde(rest, d, with)
  {
    assert (['~', d] + rest)[2..] == rest && ([head] + rest)[1..] == rest;
    assert (['~', head] + rest)[1..] == [head] + rest;
    assert ['~', head] + ReplaceTilde(rest, d, with) == ['~'] + ([head] + ReplaceTilde(rest, d, with));
  }

  lemma {:induction false} FirstPass(key: string)
    ensures ReplaceTilde(Escape(key), '1', '/') == HalfEscape(key)
  {
    if key != "" {
      FirstPass(key[1..]);
      hide ReplaceTilde;
      ReplaceStep(if key[0] == '~' then '0' else key[0], Escape(key[1..]), '1', '/');
    }
  }

  lemma {:induction false} SecondPass(key: string)
    ensures ReplaceTilde(HalfEscape(key), '0', '~') == key
  {
    if key != "" {
      SecondPass(key[1..]);
      hide ReplaceTilde;
      ReplaceStep(key[0], HalfEscape(key[1..]), '0', '~');
    }
  }

  /** Unescaping undoes escaping for every key.  In the other order the passes would read "~01" back as "/". */
  lemma UnescapeEscape(key: string)
    ensures Unescape(Escape(key)) == key
  {
    FirstPass(key);
    SecondPass(key);
  }

  lemma {:induction false} EscapeHasNoSlash(key: string)
    ensures '/' !in Escape(key)
  {
    if key != "" {
      EscapeHasNoSlash(key[1..]);
    }
  }

  // ----- Evaluation -----

  /** One reference token: an object member, or a list item by Python's `int` and its negative indexes. */
  function Step(parseInt: string -> Option<int>, current: Json, part: string): Option<Json> {
    match current
    case Obj(fields) => if part in fields then Some(fields[part]) else None
    case Arr(items) =>
      (match parseInt(part)
       case None => None
       case Some(i) =>
         if 0 <= i < |items| then Some(items[i])
         else if -|items| <= i < 0 then Some(items[|items| + i])
         else None)
    case _ => None
  }

  function Walk(parseInt: string -> Option<int>, current: Json, rawParts: seq<string>): Option<Json>
    decreases |rawParts|
  {
    if rawParts == [] then Some(current)
    else
      match Step(parseInt, current, Unescape(rawParts[0]))
      case None => None
      case Some(next) => Walk(parseInt, next, rawParts[1..])
  }

  function PointerGet(parseInt: string -> Option<int>, value: Json, pointer: string): Option<Json> {
    if pointer == "" || pointer == "/" then Some(value)
    else if pointer[0] != '/' then None
    else Walk(parseInt, value, Split(pointer, '/')[1..])
  }

  /** `_json_pointer_get`; None stands for (False, None). */
  method JsonPointerGet(parseInt: string -> Option<int>, value: Json, pointer: string) returns (found: Option<Json>)
    ensures found == PointerGet(parseInt, value, pointer)
  {
    hide Unescape, Split, Step;
    if pointer == "" || pointer == "/" {
      return Some(value);
    }
    if pointer[0] != '/' {
      return None;
    }
    var parts := Split(pointer, '/');
    SplitIsNotEmpty(pointer);
    var current := value;
    for i := 1 to |parts|
      invariant Walk(parseInt, current, parts[i..]) == Walk(parseInt, value, parts[1..])
    {
      assert parts[i..][1..] == parts[i + 1..];
      var next := Step(parseInt, current, Unescape(parts[i]));
      if next.None? {
        return None;
      }
      current := next.value;
    }
    found := Some(current);
  }

  lemma SplitIsNotEmpty(s: string)
    ensures |Split(s, '/')| >= 1
  {}

  // ----- Encoding a path -----

  datatype PathStep = Member(key: string) | Item(index: nat)

  function Token(decimal: nat -> string, s: PathStep): string {
    match s
    case Member(key) => Escape(key)
    case Item(index) => decimal(index)
  }

  function Tokens(decimal: nat -> string, path: seq<PathStep>): seq<string> {
    if path == [] then [] else [Token(decimal, path[0])] + Tokens(decimal, path[1..])
  }

  /** A "/" before each token. */
  function Encode(decimal: nat -> string, path: seq<PathStep>): string {
    if path == [] then "" else ['/'] + Join(Tokens(decimal, path), '/')
  }

  /** The value at a path: members of objects and items of lists. */
  function Lookup(value: Json, path: seq<PathStep>): Option<Json>
    decreases |path|
  {
    if path == [] then Some(value)
    else
      match (path[0], value)
      case (Member(k), Obj(fields)) => if k in fields then Lookup(fields[k], path[1..]) else None
      case (Item(i), Arr(items)) => if i < |items| then Lookup(items[i], path[1..]) else None
      case _ => None
  }

  /** Decimal digits: no tilde and no slash in them, and `int` reads them back. */
  ghost predicate Digits(decimal: nat -> string, parseInt: string -> Option<int>) {
    forall n: nat :: decimal(n) != "" && '/' !in decimal(n) && '~' !in decimal(n) && parseInt(decimal(n)) == Some(n)
  }

  /** Members are looked up in objects and items in lists, as far as the path goes. */
  ghost predicate Fits(value: Json, path: seq<PathStep>)
    decreases |path|
  {
    path == [] ||
    match (path[0], value)
    case (Member(k), Obj(fields)) => k in fields ==> Fits(fields[k], path[1..])
    case (Item(i), Arr(items)) => i < |items| ==> Fits(items[i], path[1..])
    case (Member(_), Arr(_)) => false
    case (Item(_), Obj(_)) => false
    case _ => true
  }

  lemma {:induction false} PlainIsUnescaped(s: string, d: char, with: char)
    requires '~' !in s
    ensures ReplaceTilde(s, d, with) == s
  {
    if s != "" {
      assert s[0] in s;
      PlainIsUnescaped(s[1..], d, with);
      assert [s[0]] + s[1..] == s;
    }
  }

  lemma {:induction false} TokensHaveNoSlash(
    decimal: nat -> string, parseInt: string -> Option<int>, path: seq<PathStep>)
    requires Digits(decimal, parseInt)
    ensures forall t | t in Tokens(decimal, path) :: '/' !in t
    ensures |Tokens(decimal, path)| == |path|
  {
    if path != [] {
      TokensHaveNoSlash(decimal, parseInt, path[1..]);
      if path[0].Member? {
        EscapeHasNoSlash(path[0].key);
      }
    }
  }

  lemma {:induction false} WalkIsLookup(
    decimal: nat -> string, parseInt: string -> Option<int>, value: Json, path: seq<PathStep>)
    requires Digits(decimal, parseInt) && Fits(value, path)
    ensures Walk(parseInt, value, Tokens(decimal, path)) == Lookup(value, path)
    decreases |path|
  {
    hide Unescape;
    if path != [] {
      var tokens := Tokens(decimal, path);
      assert tokens[1..] == Tokens(decimal, path[1..]);
      match path[0]
      case Member(k) =>
        UnescapeEscape(k);
        if value.Obj? && k in value.fields {
          WalkIsLookup(decimal, parseInt, value.fields[k], path[1..]);
        }
      case Item(i) =>
        DigitsAreUnescaped(decimal, parseInt, i);
        if value.Arr? && i < |value.items| {
          WalkIsLookup(decimal, parseInt, value.items[i], path[1..]);
        }
    }
  }

  lemma DigitsAreUnescaped(decimal: nat -> string, parseInt: string -> Option<int>, i: nat)
    requires Digits(decimal, parseInt)
    ensures Unescape(decimal(i)) == decimal(i)
  {
    PlainIsUnescaped(decimal(i), '1', '/');
    PlainIsUnescaped(decimal(i), '0', '~');
  }

  lemma EncodedParts(decimal: nat -> string, parseInt: string -> Option<int>, path: seq<PathStep>)
    requires Digits(decimal, parseInt) && path != []
    ensures Split(Encode(decimal, path), '/')[1..] == Tokens(decimal, path)
    ensures Encode(decimal, path) == "/" <==> path == [Member("")]
  {
    var tokens := Tokens(decimal, path);
    TokensHaveNoSlash(decimal, parseInt, path);
    SplitJoin(tokens, '/');
    var pointer := Encode(decimal, path);
    assert pointer[1..] == Join(tokens, '/');
    assert Split(pointer, '/') == [""] + Split(Join(tokens, '/'), '/');
    if |path| == 1 {
      assert Join(tokens, '/') == tokens[0];
      if path[0].Member? && path[0].key != "" {
        assert Escape(path[0].key) != "";
      }
    } else {
      assert |Join(tokens, '/')| >= 1;
    }
  }

  /**
   Evaluating the encoding of a path returns the value at that path, or nothing when there is
   none, for every path that looks up members in objects and items in lists, except the path whose
   only key is empty: its pointer "/" is read as the whole document.
   */
  lemma PointerReadsPath(decimal: nat -> string, parseInt: string -> Option<int>, value: Json, path: seq<PathStep>)
    requires Digits(decimal, parseInt) && Fits(value, path)
    ensures PointerGet(parseInt, value, Encode(decimal, path))
         == if path == [Member("")] then Some(value) else Lookup(value, path)
  {
    hide Tokens, Split, Join;
    if path != [] {
      EncodedParts(decimal, parseInt, path);
      WalkIsLookup(decimal, parseInt, value, path);
    }
  }

  /** The exception is a real one: a document with an empty key is not equal to what it holds there. */
  lemma EmptyKeyIsNotReached(decimal: nat -> string, parseInt: string -> Option<int>, inner: Json)
    requires Digits(decimal, parseInt)
    ensures var document := Obj(map["" := inner]);
      && Lookup(document, [Member("")]) == Some(inner)
      && PointerGet(parseInt, document, Encode(decimal, [Member("")])) == Some(document)
      && document != inner
  {
    var document := Obj(map["" := inner]);
    assert document.fields[""] == inner;
    assert Fits(document, [Member("")]);
    PointerReadsPath(decimal, parseInt, document, [Member("")]);
  }

  /**
   An index from the end reads the same item as the index from the start, and an index beyond either end reads
   nothing.  The token is any text that `int` reads as that index.
   */
  lemma IndexFromEnd(parseInt: string -> Option<int>, items: seq<Json>, token: string, i: int)
    requires parseInt(token) == Some(i) && token != "" && '/' !in token && '~' !in token
    ensures forall k | 0 <= k < |items| && (i == k || i == k - |items|) ::
      PointerGet(parseInt, Arr(items), ['/'] + token) == Some(items[k])
    ensures !(-|items| <= i < |items|) ==> PointerGet(parseInt, Arr(items), ['/'] + token) == None
  {
    var pointer := ['/'] + token;
    SplitJoin([token], '/');
    assert Join([token], '/') == token && pointer[1..] == token;
    assert Split(pointer, '/')[1..] == [token];
    PlainIsUnescaped(token, '1', '/');
    PlainIsUnescaped(token, '0', '~');
    assert Unescape(token) == token;
    var step := Step(parseInt, Arr(items), token);
    assert step.Some? ==> Walk(parseInt, step.value, []) == step;
  }

  /** For object keys alone: reading back is exact for all documents just when the path is not the single empty key. */
  lemma KeyPathsReadExactly(decimal: nat -> string, parseInt: string -> Option<int>, path: seq<PathStep>)
    requires Digits(decimal, parseInt)
    ensures (forall value | Fits(value, path) ::
               PointerGet(parseInt, value, Encode(decimal, path)) == Lookup(value, path))
      <==> path != [Member("")]
  {
    if path == [Member("")] {
      EmptyKeyIsNotReached(decimal, parseInt, Null);
      assert Fits(Obj(map["" := Null]), path);
    } else {
      forall value | Fits(value, path)
        ensures PointerGet(parseInt, value, Encode(decimal, path)) == Lookup(value, path)
      {
        PointerReadsPath(decimal, parseInt, value, path);
      }
    }
  }
}
