/** Phone number lists of a contact (`services/phone/validate_phone_list.py`).
    Whether a number is well formed and valid is decided by the
    `phonenumbers` library, which is an oracle here. */
module Phones {
  import opened Base
  import opened PyText
  import opened ArgsConfig
  import opened Unique

  /** What `phonenumbers.parse` returns: a country code and a national number. */
  datatype PhoneNumber = PhoneNumber(countryCode: nat, nationalNumber: nat)

  /** The library: `parse(number, region)`, `None` where it raises
      `NumberParseException`, and `is_valid_number`. */
  datatype PhoneLib = PhoneLib(parse: (string, Option<string>) -> Option<PhoneNumber>, isValidNumber: PhoneNumber -> bool)

  const DefaultRegion: string := "UA"

  /** `parse_phones`: the comma-separated pieces, empty ones dropped. */
  function ParsePhones(phones: string): (r: seq<string>)
  {
    NonEmpty(Split(phones, ','))
  }

  /** Only the empty pieces are dropped: a piece of blanks is kept, and the
      pieces hold every character of the input but the commas, in order. */
  lemma ParsePhonesKeepsPieces(phones: string)
    ensures forall p :: p in ParsePhones(phones) <==> p in Split(phones, ',') && p != ""
    ensures forall p :: p in ParsePhones(phones) ==> ',' !in p
    ensures Concat(ParsePhones(phones)) == Without(phones, ',')
  {
    ParseListKeepsFields(phones);
  }

  /** The region a number is read in: none for an international number. */
  function RegionFor(number: string): (r: Option<string>)
    ensures r.None? <==> StartsWith(number, "+")
  {
    if StartsWith(number, "+") then None else Some(DefaultRegion)
  }

  /** `validate_phone`: the stripped number, when the library reads it in
      its region and finds it valid. */
  function ValidatePhone(lib: PhoneLib, phone: string): (r: Result<string>)
    ensures r.Ok? <==> Strip(phone) != "" && lib.parse(Strip(phone), RegionFor(Strip(phone))).Some?
                       && lib.isValidNumber(lib.parse(Strip(phone), RegionFor(Strip(phone))).value)
    ensures r.Ok? ==> r.value == Strip(phone)
    ensures r.Err? ==> r.error.kind == InvalidDataError
    ensures Strip(phone) == "" ==> r == Fail(InvalidDataError, "Phone number is empty: " + phone)
  {
    var userPhone := Strip(phone);
    if userPhone == "" then Fail(InvalidDataError, "Phone number is empty: " + phone)
    else
      match lib.parse(userPhone, RegionFor(userPhone))
      case None => Fail(InvalidDataError, "Invalid phone number format: " + userPhone)
      case Some(parsed) =>
        if !lib.isValidNumber(parsed) then Fail(InvalidDataError, "Invalid phone number: " + userPhone)
        else Ok(userPhone)
  }

  /** A valid number comes back without surrounding blanks and otherwise as typed. */
  lemma ValidPhoneIsStripped(lib: PhoneLib, phone: string)
    requires ValidatePhone(lib, phone).Ok?
    ensures NoSpaceAtEnds(ValidatePhone(lib, phone).value)
    ensures exists k :: OccursAt(phone, ValidatePhone(lib, phone).value, k)
  {
    StripIsInfix(phone);
  }

  /** Validating every number in order, stopping at the first failure. */
  function ValidateEach(lib: PhoneLib, phones: seq<string>): (r: Result<seq<string>>)
  {
    if phones == [] then Ok([])
    else
      var v :- ValidatePhone(lib, phones[0]);
      Prepend([v], ValidateEach(lib, phones[1..]))
  }

  /** The validated list holds each number's validated form, in order, when
      every number is valid; otherwise the first invalid number's error. */
  lemma ValidateEachMeaning(lib: PhoneLib, phones: seq<string>)
    ensures var r := ValidateEach(lib, phones);
            && (r.Ok? <==> forall i :: 0 <= i < |phones| ==> ValidatePhone(lib, phones[i]).Ok?)
            && (r.Ok? ==> |r.value| == |phones| && forall i :: 0 <= i < |phones| ==> r.value[i] == ValidatePhone(lib, phones[i]).value)
            && (r.Err? ==> exists i :: 0 <= i < |phones| && ValidatePhone(lib, phones[i]) == Err(r.error)
                                       && (forall j :: 0 <= j < i ==> ValidatePhone(lib, phones[j]).Ok?))
  {
    ValidateEachValues(lib, phones);
    if ValidateEach(lib, phones).Err? {
      ValidateEachFirstError(lib, phones);
    }
  }

  lemma {:induction false} ValidateEachValues(lib: PhoneLib, phones: seq<string>)
    ensures var r := ValidateEach(lib, phones);
            && (r.Ok? <==> forall i :: 0 <= i < |phones| ==> ValidatePhone(lib, phones[i]).Ok?)
            && (r.Ok? ==> |r.value| == |phones| && forall i :: 0 <= i < |phones| ==> r.value[i] == ValidatePhone(lib, phones[i]).value)
  {
    if phones != [] {
      ValidateEachValues(lib, phones[1..]);
      assert forall i :: 1 <= i < |phones| ==> phones[i] == phones[1..][i - 1];
    }
  }

  lemma {:induction false} ValidateEachFirstError(lib: PhoneLib, phones: seq<string>)
    requires ValidateEach(lib, phones).Err?
    ensures var r := ValidateEach(lib, phones);
            exists i :: 0 <= i < |phones| && ValidatePhone(lib, phones[i]) == Err(r.error)
                        && (forall j :: 0 <= j < i ==> ValidatePhone(lib, phones[j]).Ok?)
  {
    var r := ValidateEach(lib, phones);
    if ValidatePhone(lib, phones[0]).Err? {
      assert ValidatePhone(lib, phones[0]) == Err(r.error);
    } else {
      var t := phones[1..];
      ValidateEachFirstError(lib, t);
      var rest := ValidateEach(lib, t);
      assert rest.error == r.error;
      var i :| 0 <= i < |t| && ValidatePhone(lib, t[i]) == Err(rest.error)
               && (forall j :: 0 <= j < i ==> ValidatePhone(lib, t[j]).Ok?);
      assert ValidatePhone(lib, phones[i + 1]) == Err(r.error) by {
        assert t[i] == phones[i + 1];
      }
      assert forall j :: 0 <= j < i + 1 ==> ValidatePhone(lib, phones[j]).Ok? by {
        assert forall j :: 1 <= j < i + 1 ==> phones[j] == t[j - 1];
      }
    }
  }

  /** `validate_phone_list`, as the result it computes. */
  function ValidatePhoneListSpec(lib: PhoneLib, phones: seq<string>): Result<seq<string>>
  {
    var validated :- ValidateEach(lib, phones);
    Ok(Dedupe(validated))
  }

  /** The accepted list holds exactly the validated numbers, each once, in
      the order they first occur. */
  lemma PhoneListMeaning(lib: PhoneLib, phones: seq<string>)
    requires ValidatePhoneListSpec(lib, phones).Ok?
    ensures var r := ValidatePhoneListSpec(lib, phones).value;
            && NoDuplicates(r)
            && (forall x :: x in r <==> exists i :: 0 <= i < |phones| && ValidatePhone(lib, phones[i]) == Ok(x))
  {
    var v := ValidateEach(lib, phones).value;
    ValidatedElements(lib, phones, v);
    DedupeElements(v);
  }

  /** The validated list holds exactly the numbers' validated forms. */
  lemma ValidatedElements(lib: PhoneLib, phones: seq<string>, v: seq<string>)
    requires ValidateEach(lib, phones) == Ok(v)
    ensures forall x :: x in v <==> exists i :: 0 <= i < |phones| && ValidatePhone(lib, phones[i]) == Ok(x)
  {
    ValidateEachValues(lib, phones);
    forall x
      ensures x in v <==> exists i :: 0 <= i < |phones| && ValidatePhone(lib, phones[i]) == Ok(x)
    {
      if x in v {
        var i :| 0 <= i < |v| && v[i] == x;
        assert ValidatePhone(lib, phones[i]) == Ok(x);
      }
      if exists i :: 0 <= i < |phones| && ValidatePhone(lib, phones[i]) == Ok(x) {
        var i :| 0 <= i < |phones| && ValidatePhone(lib, phones[i]) == Ok(x);
        assert v[i] == x;
      }
    }
  }

  /** Numbers that differ only in surrounding blanks make one entry. */
  lemma SameStrippedIsDuplicate(lib: PhoneLib, a: string, b: string)
    requires ValidatePhone(lib, a).Ok? && Strip(a) == Strip(b)
    ensures ValidatePhoneListSpec(lib, [a, b]) == Ok([Strip(a)])
  {
    var v := Strip(a);
    assert [a, b][1..] == [b];
    assert [b][1..] == [];
    assert ValidatePhone(lib, b) == Ok(v);
    assert [v] + [] == [v] && [v] + [v] == [v, v];
    assert ValidateEach(lib, [b]) == Ok([v]);
    assert ValidateEach(lib, [a, b]) == Ok([v, v]);
    assert [v, v][..1] == [v];
    assert [v][..0] == [];
    assert Dedupe([v]) == [v];
    assert Dedupe([v, v]) == [v];
  }

  /** The loop of `validate_phone_list`: validate each number, then keep
      each validated number at its first occurrence. */
  method ValidatePhoneList(lib: PhoneLib, phones: seq<string>) returns (r: Result<seq<string>>)
    ensures r == ValidatePhoneListSpec(lib, phones)
  {
    var validated: seq<string> := [];
    assert phones[0..] == phones;
    PrependEmpty(ValidateEach(lib, phones));
    for i := 0 to |phones|
      invariant ValidateEach(lib, phones) == Prepend(validated, ValidateEach(lib, phones[i..]))
    {
      var v := ValidatePhone(lib, phones[i]);
      assert phones[i..][1..] == phones[i + 1..];
      if v.Err? {
        return Err(v.error);
      }
      PrependOne(validated, v.value, ValidateEach(lib, phones[i + 1..]));
      validated := validated + [v.value];
    }
    assert phones[|phones|..] == [];
    assert validated + [] == validated;
    var unique := DedupeLoop(validated);
    r := Ok(unique);
  }
}
