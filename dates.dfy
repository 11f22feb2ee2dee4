/** Proleptic Gregorian calendar dates as Python's `datetime.date` has them:
    years 1 to 9999, the day number `toordinal()` (0001-01-01 is day 1),
    `weekday()` (Monday is 0), adding days, comparison, and the ISO 8601
    calendar form `YYYY-MM-DD` that `isoformat()` writes and
    `fromisoformat()` reads. */
module Dates {
  import opened Base
  import opened PyText

  datatype Date = Date(year: int, month: int, day: int)

  const MinYear := 1
  const MaxYear := 9999

  predicate IsLeapYear(y: int)
  {
    y % 4 == 0 && (y % 100 != 0 || y % 400 == 0)
  }

  function DaysInMonth(y: int, m: int): int
  {
    if m == 2 then (if IsLeapYear(y) then 29 else 28)
    else if m == 4 || m == 6 || m == 9 || m == 11 then 30
    else 31
  }

  function DaysInYear(y: int): int
  {
    if IsLeapYear(y) then 366 else 365
  }

  predicate ValidDate(d: Date)
  {
    MinYear <= d.year <= MaxYear && 1 <= d.month <= 12 && 1 <= d.day <= DaysInMonth(d.year, d.month)
  }

  /** Days in the months of year `y` before month `m`. */
  function DaysBeforeMonth(y: int, m: int): int
  {
    var base :=
      if m <= 1 then 0 else if m == 2 then 31 else if m == 3 then 59 else if m == 4 then 90
      else if m == 5 then 120 else if m == 6 then 151 else if m == 7 then 181
      else if m == 8 then 212 else if m == 9 then 243 else if m == 10 then 273
      else if m == 11 then 304 else 334;
    base + (if m > 2 && IsLeapYear(y) then 1 else 0)
  }

  /** Days in the years before year `y`. */
  function DaysBeforeYear(y: int): int
  {
    var p := y - 1;
    365 * p + p / 4 - p / 100 + p / 400
  }

  /** `date.toordinal()` */
  function Ordinal(d: Date): int
  {
    DaysBeforeYear(d.year) + DaysBeforeMonth(d.year, d.month) + d.day
  }

  const MaxDate := Date(MaxYear, 12, 31)
  const MaxOrdinal := 3652059

  /** `date.weekday()`: 0 is Monday, 6 is Sunday (day 1, 0001-01-01, is a Monday). */
  function Weekday(d: Date): (w: int)
    ensures 0 <= w < 7
  {
    (Ordinal(d) + 6) % 7
  }

  lemma MaxDateFacts()
    ensures ValidDate(MaxDate) && Ordinal(MaxDate) == MaxOrdinal && Weekday(MaxDate) == 4
  {
  }

  /** `a < b` on dates: lexicographic on (year, month, day). */
  predicate Before(a: Date, b: Date)
  {
    a.year < b.year || (a.year == b.year && (a.month < b.month || (a.month == b.month && a.day < b.day)))
  }

  predicate NotAfter(a: Date, b: Date)
  {
    !Before(b, a)
  }

  lemma DivSteps(p: int)
    ensures (p + 1) / 4 - p / 4 == if (p + 1) % 4 == 0 then 1 else 0
    ensures (p + 1) / 100 - p / 100 == if (p + 1) % 100 == 0 then 1 else 0
    ensures (p + 1) / 400 - p / 400 == if (p + 1) % 400 == 0 then 1 else 0
  {
  }

  lemma DaysBeforeNextYear(y: int)
    ensures DaysBeforeYear(y + 1) == DaysBeforeYear(y) + DaysInYear(y)
  {
    var p := y - 1;
    DivSteps(p);
    var a, b, c := (p + 1) / 4 - p / 4, (p + 1) / 100 - p / 100, (p + 1) / 400 - p / 400;
    assert DaysBeforeYear(y + 1) - DaysBeforeYear(y) == 365 + a - b + c;
    assert DaysInYear(y) == 365 + a - b + c by {
      assert a == (if y % 4 == 0 then 1 else 0);
      assert b == (if y % 100 == 0 then 1 else 0);
      assert c == (if y % 400 == 0 then 1 else 0);
      LeapDivisors(y);
    }
  }

  /** Every multiple of 400 is one of 100, and every multiple of 100 one of 4. */
  lemma LeapDivisors(y: int)
    ensures y % 400 == 0 ==> y % 100 == 0
    ensures y % 100 == 0 ==> y % 4 == 0
  {
    var q100, r100 := y / 100, y % 100;
    assert y == 100 * q100 + r100 && 0 <= r100 < 100;
    if y % 400 == 0 {
      var q400 := y / 400;
      assert y == 400 * q400;
      assert r100 == 100 * (4 * q400 - q100);
    }
    if r100 == 0 {
      var q4, r4 := y / 4, y % 4;
      assert y == 4 * q4 + r4 && 0 <= r4 < 4;
      assert r4 == 4 * (25 * q100 - q4);
    }
  }

  lemma MonthsFillYear(d: Date)
    requires ValidDate(d)
    ensures DaysBeforeMonth(d.year, d.month) + d.day <= DaysInYear(d.year)
    ensures DaysBeforeMonth(d.year, d.month) + d.day >= 1
  {
  }

  lemma {:induction false} DaysBeforeYearMonotone(a: int, b: int)
    requires a <= b
    ensures DaysBeforeYear(a) + 365 * (b - a) <= DaysBeforeYear(b)
    decreases b - a
  {
    if a < b {
      DaysBeforeNextYear(a);
      DaysBeforeYearMonotone(a + 1, b);
    }
  }

  /** The day number orders valid dates exactly as they compare. */
  lemma OrdinalOrder(a: Date, b: Date)
    requires ValidDate(a) && ValidDate(b)
    ensures Before(a, b) <==> Ordinal(a) < Ordinal(b)
  {
    MonthsFillYear(a);
    MonthsFillYear(b);
    if a.year < b.year {
      DaysBeforeYearMonotone(a.year + 1, b.year);
      DaysBeforeNextYear(a.year);
    } else if b.year < a.year {
      DaysBeforeYearMonotone(b.year + 1, a.year);
      DaysBeforeNextYear(b.year);
    }
  }

  lemma OrdinalInjective(a: Date, b: Date)
    requires ValidDate(a) && ValidDate(b) && Ordinal(a) == Ordinal(b)
    ensures a == b
  {
    OrdinalOrder(a, b);
    OrdinalOrder(b, a);
  }

  lemma OrdinalRange(d: Date)
    requires ValidDate(d)
    ensures 1 <= Ordinal(d) <= MaxOrdinal
  {
    MaxDateFacts();
    if d != MaxDate {
      OrdinalOrder(d, MaxDate);
    }
    DaysBeforeYearMonotone(1, d.year);
    MonthsFillYear(d);
  }

  /** The day after `d`. */
  function NextDay(d: Date): (r: Date)
    requires ValidDate(d) && d != MaxDate
    ensures ValidDate(r) && Ordinal(r) == Ordinal(d) + 1
  {
    if d.day < DaysInMonth(d.year, d.month) then
      Date(d.year, d.month, d.day + 1)
    else if d.month < 12 then
      Date(d.year, d.month + 1, 1)
    else
      DaysBeforeNextYear(d.year);
      Date(d.year + 1, 1, 1)
  }

  /** `d + timedelta(days=n)`, defined as long as the result is year 9999 or earlier. */
  function AddDays(d: Date, n: nat): (r: Date)
    requires ValidDate(d) && Ordinal(d) + n <= MaxOrdinal
    ensures ValidDate(r) && Ordinal(r) == Ordinal(d) + n
    decreases n
  {
    if n == 0 then d
    else
      MaxDateFacts();
      assert d != MaxDate;
      AddDays(NextDay(d), n - 1)
  }

  /** `(a - b).days` */
  function DaysBetween(a: Date, b: Date): int
  {
    Ordinal(a) - Ordinal(b)
  }

  lemma {:induction false} WeekdayAdvances(d: Date, n: nat)
    requires ValidDate(d) && Ordinal(d) + n <= MaxOrdinal
    ensures Weekday(AddDays(d, n)) == (Weekday(d) + n) % 7
  {
    var o := Ordinal(d);
    var e := AddDays(d, n);
    assert Weekday(e) == (o + n + 6) % 7 by {
      assert Ordinal(e) == o + n;
    }
    assert (o + n + 6) % 7 == (Weekday(d) + n) % 7 by {
      ShiftMod7(o, n);
    }
  }

  lemma ShiftMod7(o: int, n: int)
    ensures (o + n + 6) % 7 == ((o + 6) % 7 + n) % 7
  {
  }

  function NatToPadded(n: nat, width: nat): (r: string)
    ensures |r| == width && forall i :: 0 <= i < |r| ==> IsDigit(r[i])
  {
    if width == 0 then [] else NatToPadded(n / 10, width - 1) + [DigitChar(n % 10)]
  }

  function Pow10(k: nat): nat
  {
    if k == 0 then 1 else 10 * Pow10(k - 1)
  }

  lemma {:induction false} PaddedValue(n: nat, width: nat)
    requires n < Pow10(width)
    ensures DigitsValue(NatToPadded(n, width)) == n
  {
    if width > 0 {
      var r := NatToPadded(n, width);
      assert r[..|r| - 1] == NatToPadded(n / 10, width - 1);
      PaddedValue(n / 10, width - 1);
    }
  }

  /** `date.isoformat()`: `%04d-%02d-%02d`. */
  function FormatIso(d: Date): (r: string)
    ensures |r| == 10 && r[4] == '-' && r[7] == '-'
  {
    NatToPadded(if d.year < 0 then 0 else d.year, 4) + "-"
    + NatToPadded(if d.month < 0 then 0 else d.month, 2) + "-"
    + NatToPadded(if d.day < 0 then 0 else d.day, 2)
  }

  predicate AllDigits(s: string)
  {
    forall i :: 0 <= i < |s| ==> IsDigit(s[i])
  }

  function InvalidIso(s: string): Error
  {
    Error(ValueError, "Invalid isoformat string: " + StrRepr(s))
  }

  /** Number of bytes of `s` in UTF-8. */
  function Utf8Length(s: string): nat
  {
    if s == [] then 0
    else
      var n := s[0] as int;
      (if n < 0x80 then 1 else if n < 0x800 then 2 else if n < 0x10000 then 3 else 4) + Utf8Length(s[1..])
  }

  predicate DigitsAt(s: string, i: nat, width: nat)
  {
    i + width <= |s| && AllDigits(s[i..i + width])
  }

  /** `datetime.date(y, m, d)`: the range checks of the constructor. */
  function MakeDate(y: int, m: int, d: int): (r: Result<Date>)
    ensures r.Ok? <==> ValidDate(Date(y, m, d))
    ensures r.Ok? ==> r.value == Date(y, m, d)
  {
    if y < MinYear || y > MaxYear then Fail(ValueError, "year " + IntToStr(y) + " is out of range")
    else if m < 1 || m > 12 then Fail(ValueError, "month must be in 1..12")
    else if d < 1 || d > DaysInMonth(y, m) then Fail(ValueError, "day is out of range for month")
    else Ok(Date(y, m, d))
  }

  /** `date.fromisoformat(s)` as CPython's C implementation reads it: the
      input must be 7, 8 or 10 bytes long in UTF-8; then come four digits for
      the year, an optional '-', two digits for the month, the same separator
      again if one was used, and two digits for the day; a field out of range
      is rejected by the date constructor. Characters after the day are not
      looked at. The ISO week forms (`YYYY-Www-D`) are not modelled and are
      rejected here. */
  function ParseIso(s: string): (r: Result<Date>)
    ensures r.Ok? ==> ValidDate(r.value)
  {
    var len := Utf8Length(s);
    if len != 7 && len != 8 && len != 10 then Err(InvalidIso(s))
    else if !DigitsAt(s, 0, 4) then Err(InvalidIso(s))
    else
      var dash := |s| > 4 && s[4] == '-';
      var p := if dash then 5 else 4;
      if |s| > p && s[p] == 'W' then Err(InvalidIso(s))
      else if !DigitsAt(s, p, 2) then Err(InvalidIso(s))
      else
        var q := p + 2;
        if dash && !(|s| > q && s[q] == '-') then Err(InvalidIso(s))
        else
          var q' := if dash then q + 1 else q;
          if !DigitsAt(s, q', 2) then Err(InvalidIso(s))
          else MakeDate(DigitsValue(s[..4]), DigitsValue(s[p..p + 2]), DigitsValue(s[q'..q' + 2]))
  }

  lemma {:induction false} Utf8LengthBound(s: string)
    ensures Utf8Length(s) >= |s|
    ensures (forall i :: 0 <= i < |s| ==> s[i] as int < 0x80) ==> Utf8Length(s) == |s|
  {
    if s != [] {
      Utf8LengthBound(s[1..]);
    }
  }

  /** The written form is read back as the same date. */
  lemma ParseFormatIso(d: Date)
    requires ValidDate(d)
    ensures ParseIso(FormatIso(d)) == Ok(d)
  {
    var s := FormatIso(d);
    var ys, ms, ds := NatToPadded(d.year, 4), NatToPadded(d.month, 2), NatToPadded(d.day, 2);
    assert s == ys + "-" + ms + "-" + ds;
    assert s[..4] == ys && s[0..4] == ys && s[5..7] == ms && s[8..10] == ds;
    assert forall i :: 0 <= i < |s| ==> s[i] as int < 0x80;
    Utf8LengthBound(s);
    assert s[5] == ms[0];
    PaddedValue(d.year, 4);
    PaddedValue(d.month, 2);
    PaddedValue(d.day, 2);
  }

  /** A date read from the dashed form is written back as exactly that text. */
  lemma FormatParseIso(s: string)
    requires ParseIso(s).Ok? && |s| > 4 && s[4] == '-'
    ensures FormatIso(ParseIso(s).value) == s
  {
    Utf8LengthBound(s);
    assert |s| == 10;
    var ys, ms, ds := s[..4], s[5..7], s[8..10];
    assert s[0..4] == ys;
    PaddedOfDigits(ys);
    PaddedOfDigits(ms);
    PaddedOfDigits(ds);
    assert s == ys + "-" + ms + "-" + ds;
  }

  lemma ParseIsoUndashed(s: string)
    requires Utf8Length(s) == 10 && DigitsAt(s, 0, 4) && DigitsAt(s, 4, 2) && DigitsAt(s, 6, 2)
    ensures ParseIso(s) == MakeDate(DigitsValue(s[..4]), DigitsValue(s[4..6]), DigitsValue(s[6..8]))
  {
    assert s[..4] == s[0..4];
  }

  /** Without dashes, characters after the day are not looked at: eight
      digits followed by any two more ASCII characters still read as the
      date, as "1990010112" reads as 1990-01-01. */
  lemma ParseIsoIgnoresTail(tail: string)
    requires |tail| == 2 && forall i :: 0 <= i < |tail| ==> tail[i] as int < 0x80
    ensures ParseIso("19900101" + tail) == Ok(Date(1990, 1, 1))
  {
    var s := "19900101" + tail;
    assert s[..4] == "1990" && s[4..6] == "01" && s[6..8] == "01";
    assert Utf8Length(s) == 10 by {
      assert forall i :: 0 <= i < |s| ==> s[i] as int < 0x80 by {
        forall i | 0 <= i < |s| ensures s[i] as int < 0x80 {
          if i >= 8 {
            assert s[i] == tail[i - 8];
          }
        }
      }
      Utf8LengthBound(s);
    }
    SampleDigits();
    assert ParseIso(s) == MakeDate(1990, 1, 1) by {
      ParseIsoUndashed(s);
    }
    assert ValidDate(Date(1990, 1, 1));
  }

  lemma SampleDigits()
    ensures DigitsValue("1990") == 1990 && DigitsValue("01") == 1
  {
    assert "1990"[..3] == "199" && "199"[..2] == "19" && "19"[..1] == "1" && "01"[..1] == "0";
    assert DigitsValue("0") == 0;
  }

  lemma {:induction false} PaddedOfDigits(s: string)
    requires AllDigits(s)
    ensures NatToPadded(DigitsValue(s), |s|) == s
  {
    if s != [] {
      var p := s[..|s| - 1];
      assert AllDigits(p);
      PaddedOfDigits(p);
      assert DigitsValue(s) / 10 == DigitsValue(p);
      assert DigitsValue(s) % 10 == DigitValue(s[|s| - 1]);
    }
  }

  function WeekdayName(w: int): string
  {
    if w == 0 then "Monday" else if w == 1 then "Tuesday" else if w == 2 then "Wednesday"
    else if w == 3 then "Thursday" else if w == 4 then "Friday" else if w == 5 then "Saturday"
    else "Sunday"
  }

  /** `strftime("%Y-%m-%d %A")` for years 1000 and later, in the C locale. */
  function FormatForOutput(d: Date): (r: string)
    requires ValidDate(d)
    ensures |r| > 11 && r[..10] == FormatIso(d) && r[10] == ' '
    ensures r[11..] == WeekdayName(Weekday(d))
  {
    FormatIso(d) + " " + WeekdayName(Weekday(d))
  }

}
