/** E-mail address lists of a contact (`services/email/validate_email.py`).
    Whether an address is valid, and its normalised form, is decided by the
    `email_validator` library, which is an oracle here. */
module Emails {
  import opened Base
  import opened PyText
  import opened ArgsConfig
  import opened Unique

  /** What `email_validator.validate_email(address, check_deliverability=False)`
      does: raise `EmailNotValidError` with a reason, or return a result
      whose `.normalized` is the address in normal form. */
  datatype EmailCheck = NotValid(reason: string) | Valid(normalized: string)

  type EmailLib = string -> EmailCheck

  /** `parse_emails`: the comma-separated pieces, empty ones dropped. */
  function ParseEmails(emails: string): (r: seq<string>)
  {
    NonEmpty(Split(emails, ','))
  }

  /** Only the empty pieces are dropped: a piece of blanks is kept, and the
      pieces hold every character of the input but the commas, in order. */
  lemma ParseEmailsKeepsPieces(emails: string)
    ensures forall p :: p in ParseEmails(emails) <==> p in Split(emails, ',') && p != ""
    ensures forall p :: p in ParseEmails(emails) ==> ',' !in p
    ensures Concat(ParseEmails(emails)) == Without(emails, ',')
  {
    ParseListKeepsFields(emails);
  }

  /** `validate_email`: a blank address raises `EmptyDataError`; otherwise
      the stripped address is given to the library, whose rejection becomes
      `InvalidDataError` and whose normalised form is the result. */
  function ValidateEmail(lib: EmailLib, email: string): (r: Result<string>)
    ensures r.Ok? <==> Strip(email) != "" && lib(Strip(email)).Valid?
    ensures r.Ok? ==> r.value == lib(Strip(email)).normalized
    ensures r.Err? ==> (r.error.kind == EmptyDataError <==> Strip(email) == "")
    ensures r.Err? ==> r.error.kind == EmptyDataError || r.error.kind == InvalidDataError
  {
    var userEmail := Strip(email);
    if userEmail == "" then Fail(EmptyDataError, "Email address is empty: " + email)
    else
      match lib(userEmail)
      case NotValid(reason) => Fail(InvalidDataError, "Invalid email address: " + userEmail + " (" + reason + ")")
      case Valid(normalized) => Ok(normalized)
  }

  /** The first loop of `validate_email_list`: blank addresses are skipped,
      any other failure stops the loop. */
  function ValidateEach(lib: EmailLib, emails: seq<string>): (r: Result<seq<string>>)
  {
    if emails == [] then Ok([])
    else
      match ValidateEmail(lib, emails[0])
      case Err(e) => if e.kind == EmptyDataError then ValidateEach(lib, emails[1..]) else Err(e)
      case Ok(v) => Prepend([v], ValidateEach(lib, emails[1..]))
  }

  /** A blank address never makes the list fail. */
  predicate Acceptable(lib: EmailLib, email: string)
  {
    Strip(email) == "" || ValidateEmail(lib, email).Ok?
  }

  /** The list is accepted when every non-blank address is valid; it then
      holds the normalised form of each of them, and an address that is
      non-blank and invalid otherwise gives the error. */
  lemma ValidateEachMeaning(lib: EmailLib, emails: seq<string>)
    ensures var r := ValidateEach(lib, emails);
            && (r.Ok? <==> forall i :: 0 <= i < |emails| ==> Acceptable(lib, emails[i]))
            && (r.Ok? ==> forall x :: x in r.value <==> exists i :: 0 <= i < |emails| && ValidateEmail(lib, emails[i]) == Ok(x))
            && (r.Err? ==> r.error.kind == InvalidDataError
                           && exists i :: 0 <= i < |emails| && ValidateEmail(lib, emails[i]) == Err(r.error))
  {
    ValidateEachOk(lib, emails);
    if ValidateEach(lib, emails).Ok? {
      ValidateEachElements(lib, emails);
    } else {
      ValidateEachError(lib, emails);
    }
  }

  lemma {:induction false} ValidateEachOk(lib: EmailLib, emails: seq<string>)
    ensures ValidateEach(lib, emails).Ok? <==> forall i :: 0 <= i < |emails| ==> Acceptable(lib, emails[i])
  {
    if emails != [] {
      ValidateEachOk(lib, emails[1..]);
      assert forall i :: 1 <= i < |emails| ==> emails[i] == emails[1..][i - 1];
    }
  }

  lemma {:induction false} ValidateEachElements(lib: EmailLib, emails: seq<string>)
    requires ValidateEach(lib, emails).Ok?
    ensures forall x :: x in ValidateEach(lib, emails).value <==> exists i :: 0 <= i < |emails| && ValidateEmail(lib, emails[i]) == Ok(x)
  {
    if emails != [] {
      var rest := emails[1..];
      var first := ValidateEmail(lib, emails[0]);
      var vs := ValidateEach(lib, rest).value;
      ValidateEachElements(lib, rest);
      var r := ValidateEach(lib, emails).value;
      assert r == (if first.Ok? then [first.value] else []) + vs;
      forall x
        ensures x in r <==> exists i :: 0 <= i < |emails| && ValidateEmail(lib, emails[i]) == Ok(x)
      {
        if exists i :: 0 <= i < |emails| && ValidateEmail(lib, emails[i]) == Ok(x) {
          var i :| 0 <= i < |emails| && ValidateEmail(lib, emails[i]) == Ok(x);
          if i > 0 {
            assert ValidateEmail(lib, rest[i - 1]) == Ok(x);
          }
        }
        if x in vs {
          var i :| 0 <= i < |rest| && ValidateEmail(lib, rest[i]) == Ok(x);
          assert ValidateEmail(lib, emails[i + 1]) == Ok(x);
        }
      }
    }
  }

  lemma {:induction false} ValidateEachError(lib: EmailLib, emails: seq<string>)
    requires ValidateEach(lib, emails).Err?
    ensures var r := ValidateEach(lib, emails);
            r.error.kind == InvalidDataError && exists i :: 0 <= i < |emails| && ValidateEmail(lib, emails[i]) == Err(r.error)
  {
    var r := ValidateEach(lib, emails);
    var first := ValidateEmail(lib, emails[0]);
    if first.Err? && first.error.kind != EmptyDataError {
      assert ValidateEmail(lib, emails[0]) == Err(r.error);
    } else {
      var rest := emails[1..];
      ValidateEachError(lib, rest);
      assert ValidateEach(lib, rest).error == r.error;
      var i :| 0 <= i < |rest| && ValidateEmail(lib, rest[i]) == Err(r.error);
      assert ValidateEmail(lib, emails[i + 1]) == Err(r.error);
    }
  }

  /** `validate_email_list`, as the result it computes. */
  function ValidateEmailListSpec(lib: EmailLib, emails: seq<string>): Result<seq<string>>
  {
    var validated :- ValidateEach(lib, emails);
    Ok(Dedupe(validated))
  }

  /** The accepted list holds exactly the normalised addresses, each once,
      in the order they first occur; duplicates are exact, so addresses
      the library normalises differently both stay. */
  lemma EmailListMeaning(lib: EmailLib, emails: seq<string>)
    requires ValidateEmailListSpec(lib, emails).Ok?
    ensures var r := ValidateEmailListSpec(lib, emails).value;
            && NoDuplicates(r)
            && (forall x :: x in r <==> exists i :: 0 <= i < |emails| && ValidateEmail(lib, emails[i]) == Ok(x))
  {
    ValidateEachMeaning(lib, emails);
    DedupeElements(ValidateEach(lib, emails).value);
  }

  /** The loops of `validate_email_list`. */
  method ValidateEmailList(lib: EmailLib, emails: seq<string>) returns (r: Result<seq<string>>)
    ensures r == ValidateEmailListSpec(lib, emails)
  {
    var validated: seq<string> := [];
    assert emails[0..] == emails;
    PrependEmpty(ValidateEach(lib, emails));
    for i := 0 to |emails|
      invariant ValidateEach(lib, emails) == Prepend(validated, ValidateEach(lib, emails[i..]))
    {
      var v := ValidateEmail(lib, emails[i]);
      assert emails[i..][1..] == emails[i + 1..];
      if v.Err? {
        if v.error.kind == EmptyDataError {
          continue;
        }
        return Err(v.error);
      }
      PrependOne(validated, v.value, ValidateEach(lib, emails[i + 1..]));
      validated := validated + [v.value];
    }
    assert emails[|emails|..] == [];
    assert validated + [] == validated;
    var unique := DedupeLoop(validated);
    r := Ok(unique);
  }
}
