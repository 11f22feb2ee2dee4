/** Birthday arithmetic (`services/birthday`): the anniversary of a birthday
    in a given year, the nearest anniversary not before today, moving a
    weekend date to the next Monday, the age check a stored birthday must
    pass, and the text forms a birthday is edited and shown in. "Today" is a
    parameter: the clock is not modelled. */
module Birthdays {
  import opened Base
  import opened PyText
  import opened Dates

  // ---- get_nearest_anniversary.py

  /** `birthday_in_year`: a 29 February birthday falls on 29 February in
      leap years and on 28 February otherwise; any other birthday keeps its
      month and day. The date constructor rejects a year out of range. */
  function BirthdayInYear(birthday: Date, year: int): (r: Result<Date>)
    ensures r.Ok? ==> ValidDate(r.value) && r.value.year == year && r.value.month == birthday.month
    ensures ValidDate(birthday) && MinYear <= year <= MaxYear ==> r.Ok?
    ensures (year < MinYear || year > MaxYear) ==> r == Fail(ValueError, "year " + IntToStr(year) + " is out of range")
  {
    if birthday.month == 2 && birthday.day == 29 then
      MakeDate(year, 2, if IsLeapYear(year) then 29 else 28)
    else
      MakeDate(year, birthday.month, birthday.day)
  }

  /** The day of the anniversary: the birthday's own day, except that a
      leap-day birthday moves to the 28th in a common year. */
  lemma BirthdayInYearDay(birthday: Date, year: int)
    requires ValidDate(birthday) && MinYear <= year <= MaxYear
    ensures BirthdayInYear(birthday, year).value.day
            == if birthday.month == 2 && birthday.day == 29 && !IsLeapYear(year) then 28 else birthday.day
  {
  }

  /** In its own year a birthday is its own anniversary. */
  lemma BirthdayInOwnYear(birthday: Date)
    requires ValidDate(birthday)
    ensures BirthdayInYear(birthday, birthday.year) == Ok(birthday)
  {
  }

  /** `get_nearest_anniversary`: this year's anniversary unless it is
      already past, then next year's. */
  function NearestAnniversary(birthday: Date, today: Date): (r: Result<Date>)
    ensures r.Ok? ==> ValidDate(r.value) && NotAfter(today, r.value)
    ensures r.Ok? ==> r.value.year == today.year || r.value.year == today.year + 1
  {
    var thisYear :- BirthdayInYear(birthday, today.year);
    if Before(thisYear, today) then
      var next := BirthdayInYear(birthday, today.year + 1);
      assert next.Ok? ==> next.value.year > today.year;
      next
    else
      Ok(thisYear)
  }

  /** The nearest anniversary exists unless today is in the last
      representable year and this year's anniversary is past. */
  lemma NearestAnniversaryDefined(birthday: Date, today: Date)
    requires ValidDate(birthday) && ValidDate(today)
    ensures NearestAnniversary(birthday, today).Ok?
            <==> today.year < MaxYear || NotAfter(today, BirthdayInYear(birthday, today.year).value)
  {
  }

  /** It is the earliest anniversary that is not before today. */
  lemma NearestAnniversaryIsEarliest(birthday: Date, today: Date, year: int)
    requires NearestAnniversary(birthday, today).Ok?
    requires BirthdayInYear(birthday, year).Ok? && NotAfter(today, BirthdayInYear(birthday, year).value)
    ensures NotAfter(NearestAnniversary(birthday, today).value, BirthdayInYear(birthday, year).value)
  {
    var r := NearestAnniversary(birthday, today).value;
    var a := BirthdayInYear(birthday, year).value;
    var thisYear := BirthdayInYear(birthday, today.year);
    if year == today.year {
      assert !Before(thisYear.value, today);
      assert r == a;
    } else if year == today.year + 1 {
      assert r == a || r.year < a.year;
    } else {
      assert year > today.year + 1;
    }
  }

  /** An anniversary falling on today is today. */
  lemma AnniversaryTodayIsToday(birthday: Date, today: Date)
    requires BirthdayInYear(birthday, today.year) == Ok(today)
    ensures NearestAnniversary(birthday, today) == Ok(today)
  {
  }

  /** 9999-12-31 is a Friday, so a Saturday or a Sunday always has the
      following Monday within range. */
  lemma WeekendRoom(d: Date)
    requires ValidDate(d) && Weekday(d) >= 5
    ensures Ordinal(d) + 2 <= MaxOrdinal
  {
    OrdinalRange(d);
    MaxDateFacts();
    assert Ordinal(d) != MaxOrdinal && Ordinal(d) != MaxOrdinal - 1;
  }

  /** `handle_weekend_birthday`: Saturday and Sunday move forward by
      `(0 - weekday) % 7` days, to Monday; other days stay. */
  function HandleWeekend(d: Date): (r: Date)
    requires ValidDate(d)
    ensures ValidDate(r) && Weekday(r) < 5
    ensures 0 <= DaysBetween(r, d) <= 2
    ensures Weekday(d) < 5 ==> r == d
    ensures Weekday(d) >= 5 ==> Weekday(r) == 0 && DaysBetween(r, d) == 7 - Weekday(d)
  {
    var w := Weekday(d);
    if w == 5 || w == 6 then
      var n := (0 - w) % 7;
      WeekendShift(w);
      WeekendRoom(d);
      WeekdayAdvances(d, n);
      AddDays(d, n)
    else
      d
  }

  /** Nothing between the input and the result is a weekday: the move is
      to the first Monday to Friday day on or after the input. */
  lemma HandleWeekendIsFirstWorkday(d: Date, n: nat)
    requires ValidDate(d) && Ordinal(d) + n <= MaxOrdinal
    requires n < DaysBetween(HandleWeekend(d), d)
    ensures Weekday(AddDays(d, n)) >= 5
  {
    var w := Weekday(d);
    assert w >= 5 && w + n < 7;
    WeekdayAdvances(d, n);
    SmallMod7(w + n);
  }

  /** Saturday moves two days and Sunday one, both to a Monday. */
  lemma WeekendShift(w: int)
    requires w == 5 || w == 6
    ensures (0 - w) % 7 == 7 - w && (w + (7 - w)) % 7 == 0
  {
  }

  lemma SmallMod7(x: int)
    requires 0 <= x < 7
    ensures x % 7 == x
  {
  }

  // ---- validate_birthday.py

  const MaxAge: int := 200

  /** `relativedelta(today, birthday).years`: the years between the
      birthday and today, less one when this year's anniversary is still
      to come. */
  function FullYears(today: Date, birthday: Date): int
    requires ValidDate(today) && ValidDate(birthday)
  {
    var anniversary := BirthdayInYear(birthday, today.year).value;
    today.year - birthday.year - (if Before(today, anniversary) then 1 else 0)
  }

  /** The full years are the largest count whose anniversary has come: the
      anniversary after that many years is not after today, and the next
      one is. */
  lemma FullYearsMeaning(today: Date, birthday: Date)
    requires ValidDate(today) && ValidDate(birthday) && NotAfter(birthday, today)
    ensures var n := FullYears(today, birthday);
            && n >= 0
            && NotAfter(BirthdayInYear(birthday, birthday.year + n).value, today)
            && (birthday.year + n + 1 <= MaxYear ==> Before(today, BirthdayInYear(birthday, birthday.year + n + 1).value))
  {
    BirthdayInOwnYear(birthday);
  }

  /** `validate_birthday`: no birthday is accepted as none; a birthday
      after today, or one more than `MaxAge` full years ago, raises
      `InvalidDataError`; any other is kept as given. */
  function ValidateBirthday(date: Option<Date>, today: Date): (r: Result<Option<Date>>)
    requires ValidDate(today) && (date.Some? ==> ValidDate(date.value))
    ensures r.Ok? ==> r.value == date
    ensures date.None? ==> r.Ok?
    ensures date.Some? && Before(today, date.value) ==> r == Fail(InvalidDataError, "Birthday date can not be in future.")
  {
    match date
    case None => Ok(None)
    case Some(d) =>
      if Before(today, d) then Fail(InvalidDataError, "Birthday date can not be in future.")
      else if FullYears(today, d) > MaxAge then
        Fail(InvalidDataError, "Birthday date is invalid. Contact can not be more then 100 years old.")
      else Ok(Some(d))
  }

  /** A birthday that is not in the future is accepted exactly when its
      201st anniversary is still to come. */
  lemma AgeLimit(birthday: Date, today: Date)
    requires ValidDate(today) && ValidDate(birthday) && NotAfter(birthday, today)
    ensures ValidateBirthday(Some(birthday), today).Ok?
            <==> birthday.year + MaxAge + 1 > today.year
                 || Before(today, BirthdayInYear(birthday, birthday.year + MaxAge + 1).value)
  {
    if birthday.year + MaxAge + 1 <= today.year {
      var a := BirthdayInYear(birthday, birthday.year + MaxAge + 1).value;
      if birthday.year + MaxAge + 1 < today.year {
        assert Before(a, today);
      } else {
        assert a == BirthdayInYear(birthday, today.year).value;
      }
    }
  }

  /** A birthday exactly `MaxAge` years ago today is accepted. */
  lemma ExactlyMaxAgeAccepted(today: Date)
    requires ValidDate(today) && ValidDate(Date(today.year - MaxAge, today.month, today.day))
    ensures var b := Date(today.year - MaxAge, today.month, today.day);
            ValidateBirthday(Some(b), today) == Ok(Some(b))
  {
    var b := Date(today.year - MaxAge, today.month, today.day);
    assert BirthdayInYear(b, today.year).value == today;
  }

  // ---- parse_and_format.py

  /** `format_birthday_for_edit`: `isoformat()`, the extended calendar date
      YYYY-MM-DD of section 4.1.2.2 of ISO 8601:2004. */
  function FormatBirthdayForEdit(d: Date): (r: string)
    ensures |r| == 10 && r[4] == '-' && r[7] == '-'
  {
    FormatIso(d)
  }

  /** `parse_birthday`: nothing for `None` or the empty string, otherwise
      `date.fromisoformat`. */
  function ParseBirthday(s: Option<string>): (r: Result<Option<Date>>)
    ensures r.Ok? && r.value.Some? ==> ValidDate(r.value.value)
    ensures s.None? || s == Some("") ==> r == Ok(None)
  {
    match s
    case None => Ok(None)
    case Some(t) =>
      if t == "" then Ok(None)
      else
        var d :- ParseIso(t);
        Ok(Some(d))
  }

  /** Formatting for editing and parsing back gives the same date. */
  lemma ParseFormatBirthday(d: Date)
    requires ValidDate(d)
    ensures ParseBirthday(Some(FormatBirthdayForEdit(d))) == Ok(Some(d))
  {
    ParseFormatIso(d);
  }

  /** A dashed string that parses is the formatted form of its date. */
  lemma FormatParseBirthday(s: string)
    requires ParseBirthday(Some(s)).Ok? && ParseBirthday(Some(s)).value.Some? && |s| > 4 && s[4] == '-'
    ensures FormatBirthdayForEdit(ParseBirthday(Some(s)).value.value) == s
  {
    FormatParseIso(s);
  }

  /** A dashed date parses. */
  lemma ParseBirthdayPlain(s: string)
    requires s == "1990-01-01"
    ensures ParseBirthday(Some(s)) == Ok(Some(Date(1990, 1, 1)))
  {
    assert s[..4] == "1990" && s[5..7] == "01" && s[8..] == "01";
    SampleDigits();
    FormatSample(1990, 1, 1, s);
    ParseFormatBirthday(Date(1990, 1, 1));
  }

  /** The leap day of a leap year parses. */
  lemma ParseBirthdayLeapDay(s: string)
    requires s == "2000-02-29"
    ensures ParseBirthday(Some(s)) == Ok(Some(Date(2000, 2, 29)))
  {
    LeapDayText(s);
    assert ValidDate(Date(2000, 2, 29));
    ParseFormatBirthday(Date(2000, 2, 29));
  }

  lemma LeapDayText(s: string)
    requires s == "2000" + "-02-29"
    ensures FormatBirthdayForEdit(Date(2000, 2, 29)) == s
  {
    var y, m, d := "2000", "02", "29";
    assert s == y + "-" + m + "-" + d;
    assert s[..4] == y && s[5..7] == m && s[8..] == d;
    assert y[..3] == "200" && "200"[..2] == "20" && "20"[..1] == "2" && m[..1] == "0" && d[..1] == "2";
    FormatSample(2000, 2, 29, s);
  }

  lemma FormatSample(y: nat, m: nat, d: nat, s: string)
    requires y < 10000 && m < 100 && d < 100
    requires |s| == 10 && s[4] == '-' && s[7] == '-'
    requires AllDigits(s[..4]) && AllDigits(s[5..7]) && AllDigits(s[8..])
    requires DigitsValue(s[..4]) == y && DigitsValue(s[5..7]) == m && DigitsValue(s[8..]) == d
    ensures FormatBirthdayForEdit(Date(y, m, d)) == s
  {
    PaddedOfDigits(s[..4]);
    PaddedOfDigits(s[5..7]);
    PaddedOfDigits(s[8..]);
    assert s == s[..4] + "-" + s[5..7] + "-" + s[8..];
  }

  /** Day first is not an ISO calendar date. */
  lemma ParseBirthdayDayFirst(s: string)
    requires s == "01-01-1990"
    ensures ParseBirthday(Some(s)).Err?
  {
    assert s[0..4][2] == '-';
  }

  /** A time part makes the text too long. */
  lemma ParseBirthdayTimePart(s: string)
    requires s == "1990-01-01-00-00"
    ensures ParseBirthday(Some(s)).Err?
  {
    Utf8LengthBound(s);
  }

  /** Spaces are not separators. */
  lemma ParseBirthdaySpaces(s: string)
    requires s == "1990 01 01"
    ensures ParseBirthday(Some(s)).Err?
  {
    assert s[4..6][0] == ' ';
  }

  /** Words are not dates. */
  lemma ParseBirthdayWord(s: string)
    requires s == "bla"
    ensures ParseBirthday(Some(s)).Err?
  {
    Utf8LengthBound(s);
  }
}
