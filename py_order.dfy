/** Python's `<` on the sort keys the list engine produces: strings by code
    point, numbers (`bool` counting as 0 and 1), UUIDs by their integer,
    lists of strings lexicographically. Keys of different kinds, and
    containers of anything else, are not ordered: comparing them raises
    `TypeError`. */
module PyOrder {
  import opened PyText
  import opened Dates
  import opened Values
  import opened Sorting

  function CharLess(c: char, d: char): bool
  {
    c < d
  }

  /** `a < b` on `str` */
  function StrLess(a: string, b: string): bool
  {
    SeqLess(a, b, CharLess)
  }

  lemma StrLessStrictWeak()
    ensures StrictWeak(StrLess)
  {
    assert StrictWeak(CharLess);
    forall a, b ensures StrLess(a, b) ==> !StrLess(b, a) {
      SeqLessAsym(a, b, CharLess);
    }
    forall a, b, c ensures StrLess(a, c) ==> StrLess(a, b) || StrLess(b, c) {
      SeqLessNegTrans(a, b, c, CharLess);
    }
  }

  lemma {:induction false} StrLessIrreflexive(a: string)
    ensures !StrLess(a, a)
  {
    if a != [] {
      StrLessIrreflexive(a[1..]);
    }
  }

  datatype Kind = StrKind | NumKind | UuidKind | StrListKind | Unordered

  function KindOf(v: Value): Kind
  {
    match v
    case VStr(_) => StrKind
    case VInt(_) => NumKind
    case VBool(_) => NumKind
    case VUuid(_) => UuidKind
    case VList(items) => if forall i :: 0 <= i < |items| ==> items[i].VStr? then StrListKind else Unordered
    case _ => Unordered
  }

  function KindRank(k: Kind): nat
  {
    match k
    case StrKind => 0
    case NumKind => 1
    case UuidKind => 2
    case StrListKind => 3
    case Unordered => 4
  }

  function NumOf(v: Value): int
  {
    match v
    case VInt(i) => i
    case VBool(b) => if b then 1 else 0
    case _ => 0
  }

  function StrOf(v: Value): string
  {
    if v.VStr? then v.s else ""
  }

  function StrsOf(items: seq<Value>): (r: seq<string>)
    ensures |r| == |items| && forall i :: 0 <= i < |items| ==> r[i] == StrOf(items[i])
  {
    seq(|items|, i requires 0 <= i < |items| => StrOf(items[i]))
  }

  /** `a < b`, wherever Python defines it. Keys of different kinds are put in
      a fixed order of kinds only so that the relation is a strict weak order;
      `Comparable` says when Python compares them without raising. */
  function KeyLess(a: Value, b: Value): bool
  {
    var ka := KindOf(a);
    var kb := KindOf(b);
    if ka != kb then KindRank(ka) < KindRank(kb)
    else
      match ka
      case StrKind => StrLess(a.s, b.s)
      case NumKind => NumOf(a) < NumOf(b)
      case UuidKind => a.u.value < b.u.value
      case StrListKind => SeqLess(StrsOf(a.items), StrsOf(b.items), StrLess)
      case Unordered => false
  }

  lemma KeyLessStrictWeak()
    ensures StrictWeak(KeyLess)
  {
    StrLessStrictWeak();
    forall a, b ensures KeyLess(a, b) ==> !KeyLess(b, a) {
      if KindOf(a) == KindOf(b) && KindOf(a) == StrListKind {
        SeqLessAsym(StrsOf(a.items), StrsOf(b.items), StrLess);
      }
    }
    forall a, b, c ensures KeyLess(a, c) ==> KeyLess(a, b) || KeyLess(b, c) {
      if KindOf(a) == KindOf(b) == KindOf(c) && KindOf(a) == StrListKind {
        SeqLessNegTrans(StrsOf(a.items), StrsOf(b.items), StrsOf(c.items), StrLess);
      }
    }
  }

  /** Keys a sort can order without a `TypeError`: at most one key, or all
      of one orderable kind. */
  predicate Comparable(keys: seq<Value>)
  {
    |keys| < 2 || (KindOf(keys[0]) != Unordered && forall i :: 0 <= i < |keys| ==> KindOf(keys[i]) == KindOf(keys[0]))
  }

  /** `normalize_sort_value`: strings compare case-insensitively, `None`
      as the empty string, dates by their ISO form; anything else as is. */
  function NormalizeSortValue(v: Value): (r: Value)
    ensures v.VStr? ==> r == VStr(Lower(v.s))
    ensures v.VNone? ==> r == VStr("")
    ensures v.VDate? ==> r == VStr(FormatIso(v.d))
    ensures !v.VStr? && !v.VNone? && !v.VDate? ==> r == v
  {
    match v
    case VStr(s) => VStr(Lower(s))
    case VNone => VStr("")
    case VDate(d) => VStr(FormatIso(d))
    case _ => v
  }

  /** After normalisation, strings that differ only in letter case are
      equivalent keys; a missing value sorts before any non-empty string. */
  lemma NormalizedStringsIgnoreCase(s: string, t: string)
    ensures NormalizeSortValue(VStr(s)) == NormalizeSortValue(VStr(Lower(s)))
    ensures Lower(s) == Lower(t) ==> !KeyLess(NormalizeSortValue(VStr(s)), NormalizeSortValue(VStr(t)))
    ensures KeyLess(NormalizeSortValue(VNone), NormalizeSortValue(VStr(t))) <==> t != ""
  {
    LowerIdempotent(s);
    StrLessIrreflexive(Lower(s));
  }

}
