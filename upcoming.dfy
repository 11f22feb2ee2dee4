/** `contacts_get_upcoming_birthdays`: the stored contacts whose nearest
    birthday anniversary falls within the next `target_days` days, with the
    date to congratulate them on and that date moved off a weekend.
    "Today" is a parameter: the clock is not modelled. */
module UpcomingBirthdays {
  import opened Base
  import opened Dates
  import opened Sorting
  import opened Birthdays
  import opened Models
  import opened Storage

  datatype AnniversaryContactInfo = AnniversaryContactInfo(
    name: string,
    congratulationDate: Date,
    nonWeekendCongratulationDate: Date)

  /** What one contact contributes: nothing when it has no birthday or the
      anniversary is more than `targetDays` away, else its entry; computing
      the anniversary can fail only at the end of the calendar. */
  function Entry(c: Contact, today: Date, targetDays: int): (r: Result<Option<AnniversaryContactInfo>>)
    requires ValidDate(today)
    ensures c.birthday.None? ==> r == Ok(None)
    ensures c.birthday.Some? ==> (r.Ok? <==> NearestAnniversary(c.birthday.value, today).Ok?)
    ensures r.Ok? && r.value.Some? <==>
              c.birthday.Some? && NearestAnniversary(c.birthday.value, today).Ok?
              && DaysBetween(NearestAnniversary(c.birthday.value, today).value, today) <= targetDays
    ensures r.Ok? && r.value.Some? ==>
              var e := r.value.value;
              && e.name == c.name
              && e.congratulationDate == NearestAnniversary(c.birthday.value, today).value
              && 0 <= DaysBetween(e.congratulationDate, today) <= targetDays
              && e.nonWeekendCongratulationDate == HandleWeekend(e.congratulationDate)
              && ValidDate(e.nonWeekendCongratulationDate) && Weekday(e.nonWeekendCongratulationDate) < 5
              && 0 <= DaysBetween(e.nonWeekendCongratulationDate, e.congratulationDate) <= 2
  {
    match c.birthday
    case None => Ok(None)
    case Some(birthday) =>
      var nearest :- NearestAnniversary(birthday, today);
      OrdinalOrder(nearest, today);
      var days := DaysBetween(nearest, today);
      if days > targetDays then Ok(None)
      else Ok(Some(AnniversaryContactInfo(c.name, nearest, HandleWeekend(nearest))))
  }

  /** The entries of `contacts`, in their order. */
  function Entries(contacts: seq<Contact>, today: Date, targetDays: int): (r: Result<seq<AnniversaryContactInfo>>)
    requires ValidDate(today)
    ensures r.Ok? ==> |r.value| <= |contacts|
  {
    if contacts == [] then Ok([])
    else
      var e :- Entry(contacts[0], today, targetDays);
      var rest :- Entries(contacts[1..], today, targetDays);
      Ok((if e.Some? then [e.value] else []) + rest)
  }

  /** The listing fails exactly when some contact's anniversary cannot be
      computed. */
  lemma {:induction false} EntriesOk(contacts: seq<Contact>, today: Date, targetDays: int)
    requires ValidDate(today)
    ensures Entries(contacts, today, targetDays).Ok? <==> forall i :: 0 <= i < |contacts| ==> Entry(contacts[i], today, targetDays).Ok?
  {
    if contacts != [] {
      assert forall i :: 1 <= i < |contacts| ==> contacts[1..][i - 1] == contacts[i];
      EntriesOk(contacts[1..], today, targetDays);
    }
  }

  /** Every entry comes from a contact, and every contact that is due has
      its entry. */
  lemma {:induction false} EntriesMeaning(contacts: seq<Contact>, today: Date, targetDays: int)
    requires ValidDate(today) && Entries(contacts, today, targetDays).Ok?
    ensures forall e :: e in Entries(contacts, today, targetDays).value
                        <==> exists i :: 0 <= i < |contacts| && Entry(contacts[i], today, targetDays) == Ok(Some(e))
  {
    if contacts != [] {
      assert forall i :: 1 <= i < |contacts| ==> contacts[1..][i - 1] == contacts[i];
      EntriesMeaning(contacts[1..], today, targetDays);
      var r := Entries(contacts, today, targetDays).value;
      var h := Entry(contacts[0], today, targetDays).value;
      var rest := Entries(contacts[1..], today, targetDays).value;
      assert r == (if h.Some? then [h.value] else []) + rest;
      forall e ensures e in r <==> exists i :: 0 <= i < |contacts| && Entry(contacts[i], today, targetDays) == Ok(Some(e)) {
        if e in rest {
          var j :| 0 <= j < |contacts[1..]| && Entry(contacts[1..][j], today, targetDays) == Ok(Some(e));
          assert Entry(contacts[j + 1], today, targetDays) == Ok(Some(e));
        }
        if exists i :: 0 <= i < |contacts| && Entry(contacts[i], today, targetDays) == Ok(Some(e)) {
          var i :| 0 <= i < |contacts| && Entry(contacts[i], today, targetDays) == Ok(Some(e));
          if i > 0 {
            assert Entry(contacts[1..][i - 1], today, targetDays) == Ok(Some(e));
          }
        }
      }
    }
  }

  /** Each contact contributes at most one entry, so the entries are as many
      as the due contacts. */
  function DueCount(contacts: seq<Contact>, today: Date, targetDays: int): nat
    requires ValidDate(today)
  {
    if contacts == [] then 0
    else
      (if Entry(contacts[0], today, targetDays).Ok? && Entry(contacts[0], today, targetDays).value.Some? then 1 else 0)
      + DueCount(contacts[1..], today, targetDays)
  }

  lemma {:induction false} EntriesCount(contacts: seq<Contact>, today: Date, targetDays: int)
    requires ValidDate(today) && Entries(contacts, today, targetDays).Ok?
    ensures |Entries(contacts, today, targetDays).value| == DueCount(contacts, today, targetDays)
  {
    if contacts != [] {
      EntriesCount(contacts[1..], today, targetDays);
    }
  }

  /** `key=lambda x: x.congratulation_date` */
  function ByDate(a: AnniversaryContactInfo, b: AnniversaryContactInfo): bool
  {
    Before(a.congratulationDate, b.congratulationDate)
  }

  lemma ByDateStrictWeak()
    ensures StrictWeak(ByDate)
  {
  }

  /** The result: the entries, stably sorted by date when asked. */
  function UpcomingSpec(contacts: seq<Contact>, today: Date, targetDays: int, sort: bool): Result<seq<AnniversaryContactInfo>>
    requires ValidDate(today)
  {
    var entries :- Entries(contacts, today, targetDays);
    Ok(if sort then SortBy(entries, ByDate) else entries)
  }

  /** Sorting only reorders the entries, into date order. */
  lemma UpcomingSorted(contacts: seq<Contact>, today: Date, targetDays: int)
    requires ValidDate(today) && Entries(contacts, today, targetDays).Ok?
    ensures var sorted := UpcomingSpec(contacts, today, targetDays, true).value;
            && Sorted(sorted, ByDate)
            && multiset(sorted) == multiset(Entries(contacts, today, targetDays).value)
  {
    ByDateStrictWeak();
    SortBySorted(Entries(contacts, today, targetDays).value, ByDate);
  }

  /** The listing from contact `i` on: that contact's entry, if any, then
      the rest; a failure stops it. */
  lemma EntriesStep(contacts: seq<Contact>, i: nat, today: Date, targetDays: int)
    requires ValidDate(today) && i < |contacts|
    ensures var e := Entry(contacts[i], today, targetDays);
            && (e.Err? ==> Entries(contacts[i..], today, targetDays) == Err(e.error))
            && (e.Ok? ==> Entries(contacts[i..], today, targetDays)
                          == Prepend(if e.value.Some? then [e.value.value] else [], Entries(contacts[i + 1..], today, targetDays)))
  {
    assert contacts[i..][0] == contacts[i] && contacts[i..][1..] == contacts[i + 1..];
  }

  /** `contacts_get_upcoming_birthdays(data_storage, target_days, sort=…)` */
  method ContactsGetUpcomingBirthdays(storage: DataStorage, today: Date, targetDays: int, sort: bool)
    returns (r: Result<seq<AnniversaryContactInfo>>)
    requires storage.Valid() && ValidDate(today)
    ensures r == UpcomingSpec(storage.contacts.Values(), today, targetDays, sort)
  {
    var contacts := storage.contacts.Values();
    var upcoming: seq<AnniversaryContactInfo> := [];
    assert contacts[0..] == contacts;
    PrependEmpty(Entries(contacts, today, targetDays));
    for i := 0 to |contacts|
      invariant Entries(contacts, today, targetDays) == Prepend(upcoming, Entries(contacts[i..], today, targetDays))
    {
      var contact := contacts[i];
      EntriesStep(contacts, i, today, targetDays);
      if contact.birthday.None? {
        PrependEmpty(Entries(contacts[i + 1..], today, targetDays));
        continue;
      }
      var nearest := NearestAnniversary(contact.birthday.value, today);
      if nearest.Err? {
        return Err(nearest.error);
      }
      var days := DaysBetween(nearest.value, today);
      if days > targetDays {
        PrependEmpty(Entries(contacts[i + 1..], today, targetDays));
        continue;
      }
      var nonWeekend := HandleWeekend(nearest.value);
      var info := AnniversaryContactInfo(contact.name, nearest.value, nonWeekend);
      assert Entry(contact, today, targetDays) == Ok(Some(info));
      PrependOne(upcoming, info, Entries(contacts[i + 1..], today, targetDays));
      upcoming := upcoming + [info];
    }
    assert contacts[|contacts|..] == [];
    assert upcoming + [] == upcoming;
    if sort {
      upcoming := SortBy(upcoming, ByDate);
    }
    return Ok(upcoming);
  }
}
