/** The dynamic values that flow through the argument resolver and the list
    engine: Python's `None`, `str`, `int`, `bool`, `datetime.date`,
    `uuid.UUID`, `list` and `dict`, with Python's truth test, `str()` and
    `repr()`. A `dict` is an association list in insertion order, as Python
    keeps it. */
module Values {
  import opened Base
  import opened PyText
  import opened Dates

  /** A `uuid.UUID`: a 128-bit number. */
  datatype Uuid = Uuid(value: nat)

  predicate ValidUuid(u: Uuid)
  {
    u.value < 0x1_0000_0000_0000_0000_0000_0000_0000_0000
  }

  function HexPadded(n: nat, width: nat): (r: string)
    ensures |r| == width
  {
    if width == 0 then [] else HexPadded(n / 16, width - 1) + [HexDigit(n % 16)]
  }

  /** `str(uuid)`: 32 lower-case hex digits grouped 8-4-4-4-12. */
  function UuidStr(u: Uuid): (r: string)
    ensures |r| == 36 && r[8] == '-' && r[13] == '-' && r[18] == '-' && r[23] == '-'
  {
    var h := HexPadded(u.value, 32);
    h[..8] + "-" + h[8..12] + "-" + h[12..16] + "-" + h[16..20] + "-" + h[20..]
  }

  const BadUuidMessage := "badly formed hexadecimal UUID string"
  const NoUuidArgumentMessage := "one of the hex, bytes, bytes_le, fields, or int arguments must be given"
  const NotAnIntegerMessage := "'str' object cannot be interpreted as an integer"

  /** `uuid.UUID(s)`, given the oracle that decides which strings are
      well-formed UUIDs (hex digits with optional braces, dashes or `urn:uuid:`).
      `None` leaves every argument unset, a date's own `replace` refuses the
      text `'urn:'` as its year, and any other value has no `replace`. */
  function ParseUuidValue(parse: string -> Option<Uuid>, v: Value): (r: Result<Value>)
    ensures r.Ok? ==> v.VStr? && parse(v.s).Some? && r.value == VUuid(parse(v.s).value)
    ensures v.VStr? && parse(v.s).None? ==> r.Err? && r.error.kind == ValueError
    ensures (v.VNone? || v.VDate?) ==> r.Err? && r.error.kind == TypeError
    ensures !(v.VStr? || v.VNone? || v.VDate?) ==> r.Err? && r.error.kind == AttributeError
  {
    match v
    case VStr(s) =>
      (match parse(s)
       case Some(u) => Ok(VUuid(u))
       case None => Fail(ValueError, BadUuidMessage))
    case VNone => Fail(TypeError, NoUuidArgumentMessage)
    case VDate(_) => Fail(TypeError, NotAnIntegerMessage)
    case _ => Fail(AttributeError, "'" + TypeName(v) + "' object has no attribute 'replace'")
  }

  datatype Value =
    | VNone
    | VStr(s: string)
    | VInt(i: int)
    | VBool(b: bool)
    | VDate(d: Date)
    | VUuid(u: Uuid)
    | VList(items: seq<Value>)
    | VDict(entries: seq<(string, Value)>)

  /** Python's `not v`: `None`, `""`, `0`, `False`, `[]` and `{}` are falsy;
      dates and UUIDs are always truthy. */
  predicate Falsy(v: Value)
  {
    match v
    case VNone => true
    case VStr(s) => s == ""
    case VInt(i) => i == 0
    case VBool(b) => !b
    case VDate(_) => false
    case VUuid(_) => false
    case VList(items) => items == []
    case VDict(entries) => entries == []
  }

  /** A list of strings as a list of string values, element by element. */
  function StrItems(ss: seq<string>): (r: seq<Value>)
    ensures |r| == |ss| && forall i :: 0 <= i < |ss| ==> r[i] == VStr(ss[i])
  {
    seq(|ss|, i requires 0 <= i < |ss| => VStr(ss[i]))
  }

  function BoolStr(b: bool): string
  {
    if b then "True" else "False"
  }

  /** `str(v)` */
  function PyStr(v: Value): string
  {
    match v
    case VStr(s) => s
    case VDate(d) => FormatIso(d)
    case VUuid(u) => UuidStr(u)
    case _ => Repr(v)
  }

  /** `repr(v)`; containers show their elements by `repr`. */
  function Repr(v: Value): string
  {
    match v
    case VNone => "None"
    case VStr(s) => StrRepr(s)
    case VInt(i) => IntToStr(i)
    case VBool(b) => BoolStr(b)
    case VDate(d) => "datetime.date(" + IntToStr(d.year) + ", " + IntToStr(d.month) + ", " + IntToStr(d.day) + ")"
    case VUuid(u) => "UUID('" + UuidStr(u) + "')"
    case VList(items) => "[" + Join(", ", seq(|items|, i requires 0 <= i < |items| => Repr(items[i]))) + "]"
    case VDict(entries) =>
      "{" + Join(", ", seq(|entries|, i requires 0 <= i < |entries| => StrRepr(entries[i].0) + ": " + Repr(entries[i].1))) + "}"
  }

  /** The type's name as CPython's error messages print it: the class name,
      qualified by its module for the C type `datetime.date`. */
  function TypeName(v: Value): string
  {
    match v
    case VNone => "NoneType"
    case VStr(_) => "str"
    case VInt(_) => "int"
    case VBool(_) => "bool"
    case VDate(_) => "datetime.date"
    case VUuid(_) => "UUID"
    case VList(_) => "list"
    case VDict(_) => "dict"
  }

  /** `iter(v)`: a string yields its characters, a list its items, a dict
      its keys; anything else is not iterable. */
  function Iterate(v: Value): (r: Option<seq<Value>>)
    ensures r.Some? <==> v.VStr? || v.VList? || v.VDict?
    ensures v.VList? ==> r == Some(v.items)
  {
    match v
    case VStr(s) => Some(seq(|s|, i requires 0 <= i < |s| => VStr([s[i]])))
    case VList(items) => Some(items)
    case VDict(entries) => Some(seq(|entries|, i requires 0 <= i < |entries| => VStr(entries[i].0)))
    case _ => None
  }

  function NotIterableMessage(v: Value): string
  {
    "'" + TypeName(v) + "' object is not iterable"
  }

  // ---- dict operations on association lists

  type Dict = seq<(string, Value)>

  predicate HasKey(d: Dict, k: string)
  {
    exists i :: 0 <= i < |d| && d[i].0 == k
  }

  predicate DistinctKeys(d: Dict)
  {
    forall i, j :: 0 <= i < j < |d| ==> d[i].0 != d[j].0
  }

  /** `d.get(k)` */
  function DictGet(d: Dict, k: string): (r: Option<Value>)
    ensures r.Some? <==> HasKey(d, k)
    ensures r.Some? ==> exists i :: 0 <= i < |d| && d[i] == (k, r.value)
  {
    if d == [] then None
    else if d[0].0 == k then Some(d[0].1)
    else
      var r := DictGet(d[1..], k);
      assert forall i :: 1 <= i < |d| ==> d[i] == d[1..][i - 1];
      r
  }

  /** `d[k] = v`: an existing key keeps its place and takes the new value;
      a new key goes at the end. */
  function DictPut(d: Dict, k: string, v: Value): (r: Dict)
    ensures DictKeys(r) == if HasKey(d, k) then DictKeys(d) else DictKeys(d) + [k]
    ensures !HasKey(d, k) ==> r == d + [(k, v)]
  {
    if d == [] then [(k, v)]
    else if d[0].0 == k then [(k, v)] + d[1..]
    else
      var rest := DictPut(d[1..], k, v);
      assert HasKey(d, k) <==> HasKey(d[1..], k) by {
        assert forall i :: 1 <= i < |d| ==> d[i] == d[1..][i - 1];
      }
      assert DictKeys(d) == [d[0].0] + DictKeys(d[1..]);
      assert DictKeys([d[0]] + rest) == [d[0].0] + DictKeys(rest);
      [d[0]] + rest
  }

  lemma {:induction false} DictPutGet(d: Dict, k: string, v: Value, k': string)
    ensures DictGet(DictPut(d, k, v), k') == if k' == k then Some(v) else DictGet(d, k')
  {
    if d != [] && d[0].0 != k {
      DictPutGet(d[1..], k, v, k');
    }
  }

  function DictKeys(d: Dict): (r: seq<string>)
    ensures |r| == |d| && forall i :: 0 <= i < |d| ==> r[i] == d[i].0
  {
    if d == [] then [] else [d[0].0] + DictKeys(d[1..])
  }
}
