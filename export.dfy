/** Exporting records to CSV: list-valued fields are joined with commas and
    the rows go to the file one after the other. The file is a sequence of
    rows; the csv module's quoting and the directory creation are not
    modelled. */
module Export {
  import opened Base
  import opened PyText
  import opened Values

  /** `",".join(items)`: every item must be a string; the first that is not
      raises `TypeError`. */
  function JoinStrings(items: seq<Value>): (r: Result<string>)
    ensures r.Ok? <==> forall i :: 0 <= i < |items| ==> items[i].VStr?
  {
    JoinStringsFrom(items, 0)
  }

  function JoinStringsFrom(items: seq<Value>, from: nat): (r: Result<string>)
    requires from <= |items|
    ensures r.Ok? <==> forall i :: from <= i < |items| ==> items[i].VStr?
    ensures r.Err? ==> r.error.kind == TypeError
    decreases |items| - from
  {
    if from == |items| then Ok("")
    else if !items[from].VStr? then
      Fail(TypeError, "sequence item " + IntToStr(from) + ": expected str instance, "
                      + TypeName(items[from]) + " found")
    else
      var rest :- JoinStringsFrom(items, from + 1);
      Ok(if from == |items| - 1 then items[from].s else items[from].s + "," + rest)
  }

  /** The strings of a list of strings. */
  function Strings(items: seq<Value>): (r: seq<string>)
    requires forall i :: 0 <= i < |items| ==> items[i].VStr?
    ensures |r| == |items| && forall i :: 0 <= i < |items| ==> r[i] == items[i].s
  {
    seq(|items|, i requires 0 <= i < |items| => items[i].s)
  }

  /** Joining strings is `Join(",", …)`. */
  lemma {:induction false} JoinStringsFromIsJoin(items: seq<Value>, from: nat)
    requires from <= |items| && forall i :: 0 <= i < |items| ==> items[i].VStr?
    ensures JoinStringsFrom(items, from) == Ok(Join(",", Strings(items)[from..]))
    decreases |items| - from
  {
    if from < |items| {
      JoinStringsFromIsJoin(items, from + 1);
      assert Strings(items)[from..][1..] == Strings(items)[from + 1..];
    }
  }

  /** What `adapt_fields_to_csv` makes of one value. */
  function AdaptValue(v: Value): (r: Result<Value>)
    ensures !v.VList? ==> r == Ok(v)
    ensures v.VList? ==> (r.Ok? <==> forall i :: 0 <= i < |v.items| ==> v.items[i].VStr?)
    ensures r.Ok? ==> !r.value.VList?
  {
    if v.VList? then
      var joined :- JoinStrings(v.items);
      Ok(VStr(joined))
    else Ok(v)
  }

  /** The dict after `adapt_fields_to_csv`: the same keys in the same order,
      every list replaced by its items joined with commas, everything else
      as it was; the first list with a non-string item raises `TypeError`. */
  function Adapted(item: Dict): (r: Result<Dict>)
    ensures r.Ok? <==> forall i :: 0 <= i < |item| ==> AdaptValue(item[i].1).Ok?
    ensures r.Ok? ==> |r.value| == |item|
                      && forall i :: 0 <= i < |item| ==> r.value[i] == (item[i].0, AdaptValue(item[i].1).value)
  {
    if item == [] then Ok([])
    else
      var v :- AdaptValue(item[0].1);
      var rest :- Adapted(item[1..]);
      assert forall i :: 1 <= i < |item| ==> item[1..][i - 1] == item[i];
      Ok([(item[0].0, v)] + rest)
  }

  /** Adapting keeps the keys, joins every list of strings and leaves the
      other values alone. */
  lemma AdaptedMeaning(item: Dict, i: nat)
    requires Adapted(item).Ok? && i < |item|
    ensures DictKeys(Adapted(item).value) == DictKeys(item)
    ensures item[i].1.VList? ==> Adapted(item).value[i].1 == VStr(Join(",", Strings(item[i].1.items)))
    ensures !item[i].1.VList? ==> Adapted(item).value[i].1 == item[i].1
  {
    if item[i].1.VList? {
      JoinStringsFromIsJoin(item[i].1.items, 0);
      assert Strings(item[i].1.items)[0..] == Strings(item[i].1.items);
    }
  }

  /** Adapting an adapted dict changes nothing: no list is left. */
  lemma AdaptedIdempotent(item: Dict)
    requires Adapted(item).Ok?
    ensures Adapted(Adapted(item).value) == Adapted(item)
  {
    var a := Adapted(item).value;
    assert forall i :: 0 <= i < |a| ==> AdaptValue(a[i].1) == Ok(a[i].1);
    var b := Adapted(a).value;
    assert forall i :: 0 <= i < |a| ==> b[i] == a[i];
  }

  /** Putting a key that is already there, and not earlier, replaces its
      value in place. */
  lemma DictPutAt(d: Dict, i: nat, v: Value)
    requires i < |d| && forall j :: 0 <= j < i ==> d[j].0 != d[i].0
    ensures var r := DictPut(d, d[i].0, v);
            |r| == |d| && r[i] == (d[i].0, v) && forall j :: 0 <= j < |d| && j != i ==> r[j] == d[j]
  {
    var k := d[i].0;
    var p, s := d[..i], d[i..];
    assert d == p + s;
    DictPutPrefix(p, s, k, v);
    assert s[0].0 == k && s[1..] == d[i + 1..];
    assert DictPut(s, k, v) == [(k, v)] + d[i + 1..];
    SpliceAt(d, i, (k, v), DictPut(d, k, v));
  }

  /** Replacing entry `i` of `d` by `e` changes that entry only. */
  lemma SpliceAt(d: Dict, i: nat, e: (string, Value), r: Dict)
    requires i < |d| && r == d[..i] + ([e] + d[i + 1..])
    ensures |r| == |d| && r[i] == e && forall j :: 0 <= j < |d| && j != i ==> r[j] == d[j]
  {
  }

  /** Entries before the first one under `k` are kept as they are. */
  lemma {:induction false} DictPutPrefix(p: Dict, s: Dict, k: string, v: Value)
    requires forall j :: 0 <= j < |p| ==> p[j].0 != k
    ensures DictPut(p + s, k, v) == p + DictPut(s, k, v)
  {
    if p != [] {
      var d := p + s;
      assert d[0] == p[0] && d[1..] == p[1..] + s;
      DictPutPrefix(p[1..], s, k, v);
      DictPutCons(d, k, v);
      assert DictPut(d, k, v) == [p[0]] + (p[1..] + DictPut(s, k, v));
      ConsAssoc(p, DictPut(s, k, v));
    } else {
      assert p + s == s;
    }
  }

  lemma ConsAssoc(p: Dict, q: Dict)
    requires p != []
    ensures [p[0]] + (p[1..] + q) == p + q
  {
    assert p == [p[0]] + p[1..];
  }

  lemma DictPutCons(d: Dict, k: string, v: Value)
    requires d != [] && d[0].0 != k
    ensures DictPut(d, k, v) == [d[0]] + DictPut(d[1..], k, v)
  {
  }

  /** The error of an adaptation is that of its first list holding a
      non-string. */
  lemma {:induction false} AdaptedFirstError(item: Dict, i: nat)
    requires i < |item| && AdaptValue(item[i].1).Err?
    requires forall j :: 0 <= j < i ==> AdaptValue(item[j].1).Ok?
    ensures Adapted(item) == Err(AdaptValue(item[i].1).error)
  {
    if i > 0 {
      assert forall j :: 0 <= j < i - 1 ==> item[1..][j] == item[j + 1];
      AdaptedFirstError(item[1..], i - 1);
    }
  }

  /** `d` is `item` with its first `i` entries adapted. */
  predicate AdaptedUpTo(item: Dict, d: Dict, i: nat)
  {
    && i <= |item| && |d| == |item|
    && (forall j :: 0 <= j < |item| ==> d[j].0 == item[j].0)
    && (forall j :: 0 <= j < i ==> AdaptValue(item[j].1).Ok? && d[j].1 == AdaptValue(item[j].1).value)
    && (forall j :: i <= j < |item| ==> d[j] == item[j])
  }

  /** One step of the loop: a list of strings is put back joined. */
  lemma AdaptStep(item: Dict, d: Dict, i: nat)
    requires DistinctKeys(item) && AdaptedUpTo(item, d, i) && i < |item|
    requires AdaptValue(item[i].1).Ok?
    ensures AdaptedUpTo(item, if item[i].1.VList? then DictPut(d, d[i].0, AdaptValue(item[i].1).value) else d, i + 1)
  {
    var v := AdaptValue(item[i].1).value;
    if item[i].1.VList? {
      forall j | 0 <= j < i ensures d[j].0 != d[i].0 {
        assert d[j].0 == item[j].0 && d[i].0 == item[i].0;
      }
      DictPutAt(d, i, v);
      var d' := DictPut(d, d[i].0, v);
      assert d'[i] == (item[i].0, v);
      assert AdaptedUpTo(item, d', i + 1);
    } else {
      assert d[i] == item[i];
    }
  }

  /** All entries adapted: the dict is the adaptation. */
  lemma AdaptDone(item: Dict, d: Dict)
    requires AdaptedUpTo(item, d, |item|)
    ensures Adapted(item) == Ok(d)
  {
    assert Adapted(item).Ok?;
    var a := Adapted(item).value;
    assert forall j :: 0 <= j < |item| ==> a[j] == d[j];
    assert a == d;
  }

  /** `adapt_fields_to_csv(item)`: the dict is rewritten entry by entry.
      The dict is the fresh result of `model_dump`, seen by nobody else, so
      returning the rewritten dict is the same as rewriting it in place. */
  method AdaptFieldsToCsv(item: Dict) returns (r: Result<Dict>)
    requires DistinctKeys(item)
    ensures r == Adapted(item)
  {
    var d := item;
    for i := 0 to |item|
      invariant AdaptedUpTo(item, d, i)
    {
      var key, value := d[i].0, d[i].1;
      if value.VList? {
        var joined := JoinStrings(value.items);
        if joined.Err? {
          AdaptedFirstError(item, i);
          return Err(joined.error);
        }
        AdaptStep(item, d, i);
        d := DictPut(d, key, VStr(joined.value));
      } else {
        AdaptStep(item, d, i);
      }
    }
    AdaptDone(item, d);
    return Ok(d);
  }

  // ---------------------------------------------------------------- write_to_csv

  /** A record to export: its model's field names and its `model_dump`. */
  datatype ExportItem = ExportItem(fieldNames: seq<string>, dump: Dict)

  /** A line of the file: the header, or the dict passed to `writerow`. */
  datatype CsvRow = Header(names: seq<string>) | Row(fields: Dict)

  /** The file being written. */
  class CsvFile {
    var rows: seq<CsvRow>

    constructor ()
      ensures rows == []
    {
      rows := [];
    }
  }

  const NoItemsMessage: string := "No items to export."

  /** The rows written for `items` one after the other, and the error that
      stops the writing, if any. */
  function RowsOf(items: seq<ExportItem>): (r: (seq<CsvRow>, Option<Error>))
    ensures |r.0| <= |items|
  {
    if items == [] then ([], None)
    else
      match Adapted(items[0].dump)
      case Err(e) => ([], Some(e))
      case Ok(a) =>
        var rest := RowsOf(items[1..]);
        ([Row(a)] + rest.0, rest.1)
  }

  /** What `write_to_csv(items, path)` leaves in the file and raises: no
      items is refused before the file is opened; otherwise the header of
      the first item's fields, the first item, and then every item,
      including the first one again. */
  function ExportSpec(items: seq<ExportItem>, before: seq<CsvRow>): (r: (seq<CsvRow>, Option<Error>))
  {
    if items == [] then (before, Some(Error(NotFoundError, NoItemsMessage)))
    else
      var header := [Header(items[0].fieldNames)];
      match Adapted(items[0].dump)
      case Err(e) => (header, Some(e))
      case Ok(first) =>
        var rest := RowsOf(items);
        (header + [Row(first)] + rest.0, rest.1)
  }

  /** `write_to_csv(items, path)` */
  method WriteToCsv(file: CsvFile, items: seq<ExportItem>) returns (err: Option<Error>)
    requires forall i :: 0 <= i < |items| ==> DistinctKeys(items[i].dump)
    modifies file
    ensures (file.rows, err) == ExportSpec(items, old(file.rows))
  {
    if items == [] {
      return Some(Error(NotFoundError, NoItemsMessage));
    }
    file.rows := [Header(items[0].fieldNames)];
    var first := AdaptFieldsToCsv(items[0].dump);
    if first.Err? {
      return Some(first.error);
    }
    file.rows := file.rows + [Row(first.value)];
    ghost var start := file.rows;
    ghost var written: seq<CsvRow> := [];
    assert items[0..] == items && [] + RowsOf(items).0 == RowsOf(items).0;
    for i := 0 to |items|
      invariant file.rows == start + written
      invariant RowsOf(items) == (written + RowsOf(items[i..]).0, RowsOf(items[i..]).1)
    {
      assert items[i..][0] == items[i] && items[i..][1..] == items[i + 1..];
      var row := AdaptFieldsToCsv(items[i].dump);
      if row.Err? {
        assert written + [] == written;
        return Some(row.error);
      }
      assert written + ([Row(row.value)] + RowsOf(items[i + 1..]).0) == (written + [Row(row.value)]) + RowsOf(items[i + 1..]).0;
      file.rows := file.rows + [Row(row.value)];
      written := written + [Row(row.value)];
    }
    assert items[|items|..] == [];
    assert written + [] == written;
    return None;
  }

  /** The rows of an export that goes through: the header, the first item
      twice, then the others, one row each. */
  lemma ExportDuplicatesFirst(items: seq<ExportItem>, before: seq<CsvRow>)
    requires items != [] && forall i :: 0 <= i < |items| ==> Adapted(items[i].dump).Ok?
    ensures var (rows, err) := ExportSpec(items, before);
            && err.None?
            && |rows| == |items| + 2
            && rows[0] == Header(items[0].fieldNames)
            && rows[1] == rows[2] == Row(Adapted(items[0].dump).value)
            && forall i :: 0 <= i < |items| ==> rows[i + 2] == Row(Adapted(items[i].dump).value)
  {
    RowsOfAllOk(items);
  }

  lemma {:induction false} RowsOfAllOk(items: seq<ExportItem>)
    requires forall i :: 0 <= i < |items| ==> Adapted(items[i].dump).Ok?
    ensures RowsOf(items).1.None? && |RowsOf(items).0| == |items|
    ensures forall i :: 0 <= i < |items| ==> RowsOf(items).0[i] == Row(Adapted(items[i].dump).value)
  {
    if items != [] {
      assert forall i :: 1 <= i < |items| ==> items[1..][i - 1] == items[i];
      RowsOfAllOk(items[1..]);
    }
  }

  /** No items: nothing is written and `NotFoundError` is raised. */
  lemma ExportNothing(before: seq<CsvRow>)
    ensures ExportSpec([], before) == (before, Some(Error(NotFoundError, "No items to export.")))
  {
  }
}
