/** From a resolver report to lock rows: one row per canonical name, in sorted order. */
module LockReport {
  import opened Wrappers
  import opened Strings
  import opened LockText
  import opened LockRoundTrip

  /** An item of the report; its digest has been checked to be 64 hexadecimal digits. */
  datatype ReportItem = NotAnObject | Incomplete | Installed(name: string, version: string, digest: string)

  datatype ReportError = IncompleteItem | ConflictingRows | NoItems

  type RowMap = map<string, LockRow>

  function RowOf(item: ReportItem): LockRow
    requires item.Installed?
  {
    LockRow(CanonicalName(item.name), item.version, Lower(item.digest))
  }

  function AddItem(rows: RowMap, item: ReportItem): Result<RowMap, ReportError> {
    match item
    case NotAnObject => Ok(rows)
    case Incomplete => Err(IncompleteItem)
    case Installed(_, _, _) =>
      var row := RowOf(item);
      if row.name in rows && rows[row.name] != row then Err(ConflictingRows) else Ok(rows[row.name := row])
  }

  function AddItems(items: seq<ReportItem>, n: nat): Result<RowMap, ReportError>
    requires n <= |items|
  {
    if n == 0 then Ok(map[])
    else
      match AddItems(items, n - 1)
      case Err(e) => Err(e)
      case Ok(rows) => AddItem(rows, items[n - 1])
  }

  function InOrder(rows: RowMap): seq<LockRow> {
    var names := SortedKeys(rows.Keys);
    seq(|names|, i requires 0 <= i < |names| => rows[names[i]])
  }

  /** `_lock_rows_from_report`. */
  method LockRowsFromReport(items: seq<ReportItem>) returns (r: Result<seq<LockRow>, ReportError>)
    ensures match AddItems(items, |items|)
      case Err(e) => r == Err(e)
      case Ok(rows) => r == if rows == map[] then Err(NoItems) else Ok(InOrder(rows))
  {
    hide RowOf;
    var rows: RowMap := map[];
    for n := 0 to |items|
      invariant AddItems(items, n) == Ok(rows)
    {
      var item := items[n];
      if item.NotAnObject? {
        continue;
      }
      if item.Incomplete? {
        ErrorStays(items, n + 1, |items|);
        return Err(IncompleteItem);
      }
      var row := RowOf(item);
      if row.name in rows && rows[row.name] != row {
        ErrorStays(items, n + 1, |items|);
        return Err(ConflictingRows);
      }
      rows := rows[row.name := row];
    }
    if rows == map[] {
      return Err(NoItems);
    }
    r := Ok(InOrder(rows));
  }

  lemma {:induction false} ErrorStays(items: seq<ReportItem>, m: nat, n: nat)
    requires m <= n <= |items| && AddItems(items, m).Err?
    ensures AddItems(items, n) == AddItems(items, m)
  {
    hide AddItem;
    if m < n {
      ErrorStays(items, m, n - 1);
    }
  }

  ghost predicate Keyed(rows: RowMap) {
    forall k | k in rows :: rows[k].name == k
  }

  /** The collected rows are exactly the rows of the installed items. */
  lemma {:induction false} RowsOfItems(items: seq<ReportItem>, n: nat)
    requires n <= |items| && AddItems(items, n).Ok?
    ensures Keyed(AddItems(items, n).value)
    ensures forall r ::
      (r in AddItems(items, n).value.Values <==> exists i :: 0 <= i < n && items[i].Installed? && RowOf(items[i]) == r)
  {
    hide RowOf;
    if n > 0 {
      RowsOfItems(items, n - 1);
      var before, after := AddItems(items, n - 1).value, AddItems(items, n).value;
      if items[n - 1].Installed? {
        var row := RowOf(items[n - 1]);
        RowIsItsName(items[n - 1], before);
        forall r ensures r in after.Values <==> r == row || r in before.Values {
          if r in before.Values {
            var k :| k in before && before[k] == r;
            assert after[k] == r;
          }
          if r == row {
            assert after[row.name] == r;
          }
        }
      }
    }
  }

  lemma RowIsItsName(item: ReportItem, rows: RowMap)
    requires item.Installed? && Keyed(rows)
    ensures Keyed(rows[RowOf(item).name := RowOf(item)])
  {}

  /** Item i is installed and disagrees with an installed item before it: the same canonical name, another row. */
  ghost predicate Conflicts(items: seq<ReportItem>, i: nat)
    requires i < |items|
  {
    items[i].Installed?
    && exists j :: 0 <= j < i && items[j].Installed?
                && RowOf(items[j]).name == RowOf(items[i]).name && RowOf(items[j]) != RowOf(items[i])
  }

  ghost predicate Collectable(items: seq<ReportItem>, i: nat)
    requires i < |items|
  {
    !items[i].Incomplete? && !Conflicts(items, i)
  }

  /** What one more item does: it is refused as incomplete, refused as a conflict, or collected. */
  lemma NextItem(items: seq<ReportItem>, i: nat)
    requires i < |items| && AddItems(items, i).Ok?
    ensures AddItems(items, i + 1).Ok? <==> Collectable(items, i)
    ensures AddItems(items, i + 1).Err? ==>
      AddItems(items, i + 1).error == if items[i].Incomplete? then IncompleteItem else ConflictingRows
  {
    hide RowOf;
    RowsOfItems(items, i);
    if items[i].Installed? {
      var before, row := AddItems(items, i).value, RowOf(items[i]);
      if row.name in before && before[row.name] != row {
        assert before[row.name] in before.Values;
      }
      forall j | 0 <= j < i && items[j].Installed? && RowOf(items[j]).name == row.name
        ensures row.name in before && before[row.name] == RowOf(items[j])
      {
        assert RowOf(items[j]) in before.Values;
      }
    }
  }

  /**
   Collecting gets through exactly when no item is incomplete and none conflicts with one before it; otherwise
   the error is that of the first such item.
   */
  lemma {:induction false} CollectedIffConsistent(items: seq<ReportItem>, n: nat)
    requires n <= |items|
    ensures AddItems(items, n).Ok? <==> forall i: nat | i < n :: Collectable(items, i)
    ensures AddItems(items, n).Err? ==> exists i: nat | i < n ::
      && !Collectable(items, i) && (forall j: nat | j < i :: Collectable(items, j))
      && AddItems(items, n).error == if items[i].Incomplete? then IncompleteItem else ConflictingRows
  {
    hide Collectable, AddItem;
    if n > 0 {
      CollectedIffConsistent(items, n - 1);
      if AddItems(items, n - 1).Ok? {
        NextItem(items, n - 1);
      }
    }
  }

  /** Nothing is collected exactly when no item is installed; that is the third error. */
  lemma NothingCollected(items: seq<ReportItem>)
    requires AddItems(items, |items|).Ok?
    ensures AddItems(items, |items|).value == map[] <==> forall item | item in items :: !item.Installed?
  {
    hide RowOf, AddItem;
    RowsOfItems(items, |items|);
    var rows := AddItems(items, |items|).value;
    forall i | 0 <= i < |items| && items[i].Installed? ensures rows != map[] {
      assert RowOf(items[i]) in rows.Values;
    }
    if rows != map[] {
      var k :| k in rows;
      assert rows[k] in rows.Values;
    }
  }

  /** Two items give the same row exactly when they agree up to the spelling of the name and the case of the digest. */
  lemma SameRowExactly(a: ReportItem, b: ReportItem)
    requires a.Installed? && b.Installed?
    ensures RowOf(a) == RowOf(b)
      <==> && CanonicalName(a.name) == CanonicalName(b.name) && a.version == b.version
           && |a.digest| == |b.digest|
           && forall i | 0 <= i < |a.digest| :: SameLetter(a.digest[i], b.digest[i])
  {
    forall i | 0 <= i < |a.digest| == |b.digest|
      ensures SameLetter(a.digest[i], b.digest[i]) <==> Lower(a.digest)[i] == Lower(b.digest)[i]
    {
      SameLetterMeans(a.digest[i], b.digest[i]);
    }
    if |a.digest| == |b.digest| {
      assert Lower(a.digest) == Lower(b.digest)
        <==> forall i | 0 <= i < |a.digest| :: Lower(a.digest)[i] == Lower(b.digest)[i];
    } else {
      assert |Lower(a.digest)| != |Lower(b.digest)|;
    }
  }

  /** The same character, or the two cases of one letter. */
  ghost predicate SameLetter(c: char, d: char) {
    c == d || Cases(c, d) || Cases(d, c)
  }

  lemma SameLetterMeans(c: char, d: char)
    ensures SameLetter(c, d) <==> LowerChar(c) == LowerChar(d)
  {
    LowerLetters(c);
    LowerLetters(d);
  }

  ghost predicate CleanItem(item: ReportItem) {
    item.Installed? ==>
      CleanRow(LockRow(item.name, item.version, item.digest))
  }

  lemma {:induction false} CanonicalNameChars(s: string)
    requires forall c | c in s :: IsNameChar(c)
    ensures forall c | c in CanonicalName(s) :: IsNameChar(c)
    ensures s != "" ==> CanonicalName(s) != ""
    decreases |s|
  {
    if s != "" {
      if IsSeparator(s[0]) {
        DroppedChars(s[1..]);
        CanonicalNameChars(DropSeparators(s[1..]));
      } else {
        CanonicalNameChars(s[1..]);
        assert s[0] in s;
      }
    }
  }

  lemma {:induction false} DroppedChars(s: string)
    ensures forall c | c in DropSeparators(s) :: c in s
  {
    if s != "" && IsSeparator(s[0]) {
      DroppedChars(s[1..]);
    }
  }

  lemma RowOfCleanItem(item: ReportItem)
    requires item.Installed? && CleanItem(item)
    ensures CleanRow(RowOf(item)) && CanonicalName(RowOf(item).name) == RowOf(item).name
  {
    CanonicalNameChars(item.name);
    CanonicalNameIsIdempotent(item.name);
    forall c | c in Lower(item.digest) ensures IsHex(c) {
      var i :| 0 <= i < |item.digest| && Lower(item.digest)[i] == c;
      assert item.digest[i] in item.digest;
    }
  }

  /** Rows collected from clean items print to a lock file that the parser accepts with one package per row. */
  lemma ReportRoundTrip(sha: string -> string, h: LockHeader, items: seq<ReportItem>)
    requires CleanHeader(h) && forall i | 0 <= i < |items| :: CleanItem(items[i])
    requires AddItems(items, |items|).Ok? && AddItems(items, |items|).value != map[]
    ensures var rows := InOrder(AddItems(items, |items|).value);
      && Validate(sha, h.section, Format(h, rows)).Ok?
      && Validate(sha, h.section, Format(h, rows)).value.packageCount == |rows|
      && Validate(sha, h.section, Format(h, rows)).value.hashCount == |rows|
  {
    hide CleanRow, CleanItem, RowOf, CanonicalName, CleanHeader, Validate, Format;
    RowsOfItems(items, |items|);
    var collected := AddItems(items, |items|).value;
    var rows := InOrder(collected);
    var names := SortedKeys(collected.Keys);
    forall i | 0 <= i < |rows| ensures CleanRow(rows[i]) && CanonicalName(rows[i].name) == rows[i].name == names[i] {
      assert names[i] in collected && collected[names[i]] in collected.Values;
      var m :| 0 <= m < |items| && items[m].Installed? && RowOf(items[m]) == rows[i];
      RowOfCleanItem(items[m]);
    }
    assert rows != [] by {
      var k :| k in collected;
      assert k in names;
    }
    FormatThenValidate(sha, h, rows);
  }
}
