/** The two record models, `Note` (`models/note.py`) and `Contact`
    (`models/contact.py`): their field constraints as checked on
    construction and on assignment, their one-line displays, their field
    descriptors for the list engine, and attribute access by field name. */
module Models {
  import opened Base
  import opened PyText
  import opened Dates
  import opened Values
  import opened FieldMeta
  import opened ModelMeta
  import opened Preview
  import SortAndFilter
  import Unique
  import Birthdays
  import Phones
  import Emails

  /** The message of a `min_length=1` string constraint that fails. */
  const MinLengthMessage: string := "String should have at least 1 character"

  // ================================================================ Note

  const TrimContentPreview: int := 40

  /** `AllowedKeysToFilterForNote`, a string enum. */
  datatype NoteFilterKey = KeyTitle | KeyContent | KeyTag

  function NoteFilterKeyValue(k: NoteFilterKey): string
  {
    match k
    case KeyTitle => "title"
    case KeyContent => "content"
    case KeyTag => "tag"
  }

  /** `ALLOWED_KEYS_TO_FILTER_FOR_NOTE` */
  const AllowedKeysToFilterForNote: set<string> := {"title", "content", "tag"}

  /** `AllowedKeysToFilterForNote(s)`: the member whose value is exactly `s`. */
  function ParseNoteFilterKey(s: string): (r: Result<NoteFilterKey>)
    ensures r.Ok? ==> NoteFilterKeyValue(r.value) == s
    ensures r.Err? ==> r == Fail(ValueError, StrRepr(s) + " is not a valid AllowedKeysToFilterForNote")
  {
    if s == "title" then Ok(KeyTitle)
    else if s == "content" then Ok(KeyContent)
    else if s == "tag" then Ok(KeyTag)
    else Fail(ValueError, StrRepr(s) + " is not a valid AllowedKeysToFilterForNote")
  }

  /** The enum accepts exactly the allowed keys, and each member's value
      names it back. */
  lemma NoteFilterKeysAllowed(s: string, k: NoteFilterKey)
    ensures ParseNoteFilterKey(s).Ok? <==> s in AllowedKeysToFilterForNote
    ensures NoteFilterKeyValue(k) in AllowedKeysToFilterForNote
    ensures ParseNoteFilterKey(NoteFilterKeyValue(k)) == Ok(k)
  {
  }

  /** A note: `title` and `tags` may be `None`. */
  datatype Note = Note(uid: Uuid, title: Option<string>, content: string, tags: Option<seq<string>>)

  /** The field constraints of `Note`: the content is not empty. */
  predicate ValidNote(n: Note)
  {
    n.content != ""
  }

  /** The value `tags` takes when it is not given: an empty list. */
  const DefaultNoteTags: Option<seq<string>> := Some([])

  /** `Note(uid=..., title=..., content=..., tags=...)`: pydantic rejects
      an empty content with a validation error. */
  function MakeNote(uid: Uuid, title: Option<string>, content: string, tags: Option<seq<string>>): (r: Result<Note>)
    ensures r.Ok? <==> content != ""
    ensures r.Ok? ==> ValidNote(r.value) && r.value == Note(uid, title, content, tags)
    ensures r.Err? ==> r == Fail(ValidationError, MinLengthMessage)
  {
    if content == "" then Fail(ValidationError, MinLengthMessage)
    else Ok(Note(uid, title, content, tags))
  }

  /** `note.title = title` under `validate_assignment`: any string or
      `None` is accepted and nothing else changes. */
  function SetTitle(n: Note, title: Option<string>): (r: Note)
    ensures r.uid == n.uid && r.content == n.content && r.tags == n.tags && r.title == title
    ensures ValidNote(n) ==> ValidNote(r)
  {
    n.(title := title)
  }

  /** `note.content = content` under `validate_assignment`: an empty
      content is rejected and the note keeps its old content. */
  function SetContent(n: Note, content: string): (r: Result<Note>)
    ensures r.Ok? <==> content != ""
    ensures r.Ok? ==> ValidNote(r.value) && r.value.uid == n.uid && r.value.title == n.title
                      && r.value.tags == n.tags && r.value.content == content
    ensures r.Err? ==> r == Fail(ValidationError, MinLengthMessage)
  {
    if content == "" then Fail(ValidationError, MinLengthMessage)
    else Ok(n.(content := content))
  }

  /** The last line of a note's display: its uid in italics. */
  function NoteUidLine(uid: Uuid): (r: string)
    ensures |r| == 44
  {
    "\n<i>" + UuidStr(uid) + "</i>"
  }

  /** `Note.get_prompt_toolkit_output`: the title in bold when there is
      one (even an empty one); otherwise the content on one line,
      shortened to 40 characters, in italics; then the uid line. */
  function NoteOutput(n: Note): string
  {
    var singleLineContent := ReplaceChar(n.content, '\n', ' ');
    var titleTag := if n.title.Some? then "b" else "i";
    var displayTitle := if n.title.Some? then n.title.value else Truncate(singleLineContent, TrimContentPreview);
    "<" + titleTag + ">" + displayTitle + "</" + titleTag + ">" + NoteUidLine(n.uid)
  }

  /** A title that is set is shown as it is, in bold. */
  lemma NoteOutputTitled(n: Note)
    requires n.title.Some?
    ensures NoteOutput(n) == "<b>" + n.title.value + "</b>" + NoteUidLine(n.uid)
  {
  }

  /** Without a title the preview is the content with newlines turned into
      spaces: whole when it fits in 40 characters, otherwise its first 37
      characters followed by "...". */
  lemma NoteOutputUntitled(n: Note)
    requires n.title.None?
    ensures var single := ReplaceChar(n.content, '\n', ' ');
            exists preview: string ::
              && NoteOutput(n) == "<i>" + preview + "</i>" + NoteUidLine(n.uid)
              && '\n' !in preview
              && (|single| <= TrimContentPreview ==> preview == single)
              && (|single| > TrimContentPreview ==> |preview| == 40 && preview[..37] == single[..37] && preview[37..] == "...")
  {
    var single := ReplaceChar(n.content, '\n', ' ');
    var preview := Truncate(single, TrimContentPreview);
    TruncateMeaning(single, TrimContentPreview);
    TruncateTextSingleLine(n.content);
    assert preview == TruncateText(n.content, MaxContentWidth);
    assert NoteOutput(n) == "<i>" + preview + "</i>" + NoteUidLine(n.uid);
  }

  /** Every display ends with a newline and the uid in italics. */
  lemma NoteOutputEndsWithUid(n: Note)
    ensures var o := NoteOutput(n);
            |o| >= 51 && o[|o| - 44..] == "\n<i>" + UuidStr(n.uid) + "</i>"
  {
    var o := NoteOutput(n);
    var head := o[..|o| - 44];
    assert o == head + NoteUidLine(n.uid);
  }

  /** The parse function of the uid field: `uuid.UUID(str(x))`. */
  function NoteUidParse(parseUuid: string -> Option<Uuid>): Value -> Result<Value>
  {
    (x: Value) => ParseUuidValue(parseUuid, VStr(PyStr(x)))
  }

  /** The field descriptors of `Note.get_meta_info`, in declaration order. */
  function NoteFields(parseUuid: string -> Option<Uuid>): seq<FieldItemMetaConfig>
  {
    [ Field("uid").(filterMode := Exact, isGroupable := false, parseFunc := Some(NoteUidParse(parseUuid))),
      Field("title").(isGroupable := false),
      Field("content").(isGroupable := false),
      Field("tags").(aliases := ["tag"], isListBased := true) ]
  }

  function NoteConfig(parseUuid: string -> Option<Uuid>): FieldsMetaConfig
  {
    FieldsMetaConfig(NoteFields(parseUuid))
  }

  /** `Note.get_meta_info()` */
  function NoteMeta(parseUuid: string -> Option<Uuid>): (r: ModelMetaInfo)
    ensures r.singularName == "Note" && r.pluralName == "Notes"
    ensures r.fieldsMetaConfig == NoteConfig(parseUuid)
  {
    FromClass("Note", Some(NoteConfig(parseUuid)))
  }

  /** The note's descriptors: uid is EXACT with a UUID parse function;
      title and content are PARTIAL; none of the three is groupable; tags
      is list-based, answers also to "tag" and is groupable. */
  lemma NoteFieldTable(parseUuid: string -> Option<Uuid>)
    ensures var fs := NoteFields(parseUuid);
            && |fs| == 4
            && fs[0].name == "uid" && fs[0].filterMode == Exact && fs[0].parseFunc.Some? && !fs[0].isGroupable
            && fs[1].name == "title" && fs[1].filterMode == Partial && fs[1].parseFunc.None? && !fs[1].isGroupable
            && fs[2].name == "content" && fs[2].filterMode == Partial && fs[2].parseFunc.None? && !fs[2].isGroupable
            && fs[3].name == "tags" && fs[3].aliases == ["tag"] && fs[3].isListBased && fs[3].isGroupable
            && (forall i :: 0 <= i < 3 ==> !fs[i].isListBased && fs[i].aliases == [])
  {
  }

  /** Every field of a note may be filtered and sorted by. */
  lemma NoteFieldsListed(parseUuid: string -> Option<Uuid>)
    ensures GetFieldsForFiltering(NoteConfig(parseUuid)) == NoteFields(parseUuid)
    ensures GetFieldsForSorting(NoteConfig(parseUuid)) == NoteFields(parseUuid)
  {
    var fs := NoteFields(parseUuid);
    assert forall i :: 0 <= i < |fs| ==> fs[i].isFilterable && fs[i].isSortable;
    AllFieldsListed(NoteConfig(parseUuid));
  }

  /** Which names the note's lookup resolves: each field by its own name,
      and "tag" to "tags"; any other (normalised) name is a `KeyError`. */
  lemma NoteLookup(parseUuid: string -> Option<Uuid>, fieldName: string)
    ensures var key := NormalizeKey(fieldName);
            GetFieldNameFact(NoteConfig(parseUuid), fieldName)
            == if key == "uid" || key == "title" || key == "content" then Ok(key)
               else if key == "tags" || key == "tag" then Ok("tags")
               else Fail(KeyError, NotFoundMessage(key))
  {
    var key := NormalizeKey(fieldName);
    var fs := NoteFields(parseUuid);
    assert Matches(fs[0], key) <==> key == "uid";
    assert Matches(fs[1], key) <==> key == "title";
    assert Matches(fs[2], key) <==> key == "content";
    assert Matches(fs[3], key) <==> key == "tags" || key == "tag";
    var m := FirstMatch(fs, key);
    if m.Some? {
      assert m.value < 4;
      if key == "uid" {
        assert m.value == 0;
      } else if key == "title" {
        assert m.value == 1;
      } else if key == "content" {
        assert m.value == 2;
      } else {
        assert m.value == 3;
      }
    } else {
      assert !Matches(fs[0], key) && !Matches(fs[1], key) && !Matches(fs[2], key) && !Matches(fs[3], key);
    }
  }

  /** Each allowed filter key names a field of the note: "title" and
      "content" their own fields, "tag" the field "tags". */
  lemma AllowedNoteKeysResolve(parseUuid: string -> Option<Uuid>, s: string)
    requires s in AllowedKeysToFilterForNote
    ensures GetFieldNameFact(NoteConfig(parseUuid), s) == Ok(if s == "tag" then "tags" else s)
  {
    assert forall i :: 0 <= i < |s| ==> 'a' <= s[i] <= 'z';
    LowerStripOfPlain(s);
    NoteLookup(parseUuid, s);
  }

  /** A key made of lower-case letters is its own normal form. */
  lemma LowerStripOfPlain(s: string)
    requires forall i :: 0 <= i < |s| ==> 'a' <= s[i] <= 'z'
    ensures NormalizeKey(s) == s
  {
    if s != [] {
      assert !IsSpace(s[0]) && !IsSpace(s[|s| - 1]);
    }
    StripOfStripped(s);
    assert Lower(s) == s;
  }

  /** `getattr(note, name)` for the fields of a note; `None` stands for a
      missing attribute. */
  function NoteAttr(n: Note, name: string): Option<Value>
  {
    if name == "uid" then Some(VUuid(n.uid))
    else if name == "title" then Some(OptionalStr(n.title))
    else if name == "content" then Some(VStr(n.content))
    else if name == "tags" then Some(OptionalStrList(n.tags))
    else None
  }

  function OptionalStr(s: Option<string>): Value
  {
    match s
    case None => VNone
    case Some(t) => VStr(t)
  }

  function OptionalStrList(ss: Option<seq<string>>): Value
  {
    match ss
    case None => VNone
    case Some(t) => VList(StrItems(t))
  }

  /** A uid query is renamed to the field "uid" and its value parsed into
      a UUID, or the validation fails. */
  lemma NoteUidQuery(parseUuid: string -> Option<Uuid>, key: string, s: string)
    requires NormalizeKey(key) == "uid"
    ensures var rq := SortAndFilter.ValidateFilterQueryInDataAction(NoteConfig(parseUuid), [(key, VStr(s))]);
            rq.Ok? ==> exists u :: rq.value == [("uid", VUuid(u))]
  {
    var cfg := NoteConfig(parseUuid);
    NoteLookup(parseUuid, key);
    var raw: Dict := [(key, VStr(s))];
    var value := (fact: string, v: Value) => SortAndFilter.DataActionValue(cfg, fact, v);
    assert SortAndFilter.Lookup(cfg)(key) == Ok("uid");
    var fs := NoteFields(parseUuid);
    assert SortAndFilter.ParseFuncFor(cfg.fields, "uid") == Some(NoteUidParse(parseUuid));
    var q := value("uid", VStr(s));
    assert raw[1..] == [];
    var rq := SortAndFilter.RenameKeys(SortAndFilter.Lookup(cfg), raw, [], value);
    if q.Ok? {
      assert q.value.VUuid?;
      assert rq == SortAndFilter.RenameKeys(SortAndFilter.Lookup(cfg), [], [("uid", q.value)], value);
      assert rq == Ok([("uid", VUuid(q.value.u))]);
    } else {
      assert rq.Err?;
    }
  }

  /** No note passes a query that compares its uid with a UUID. */
  lemma NoteUidEntryFails(parseUuid: string -> Option<Uuid>, n: Note, u: Uuid)
    ensures SortAndFilter.ItemMatches(n, [("uid", VUuid(u))], GetFieldsMetaRegistry(NoteConfig(parseUuid)), NoteAttr, "Note") == Ok(false)
  {
    var fs := NoteFields(parseUuid);
    NoteRegistryUid(parseUuid);
    SortAndFilter.ExactNonStringNeverMatches(fs[0], VUuid(u), VUuid(n.uid));
  }

  lemma NoteRegistryUid(parseUuid: string -> Option<Uuid>)
    ensures var registry := GetFieldsMetaRegistry(NoteConfig(parseUuid));
            "uid" in registry && registry["uid"] == NoteFields(parseUuid)[0]
  {
    var fs := NoteFields(parseUuid);
    assert IsLastNamed(fs, 0);
  }

  /** Filtering notes by uid never keeps a note: the query value is parsed
      into a UUID, and an EXACT comparison of a UUID with the lower-cased
      text of the note's uid is always false. */
  lemma NoteUidFilterNeverMatches(parseUuid: string -> Option<Uuid>, notes: seq<Note>, config: SortAndFilter.ListConfig,
                                  key: string, s: string)
    requires NormalizeKey(key) == "uid"
    requires config.filterMode == Some(SortAndFilter.FilterMatching) && config.filterQuery == [(key, s)]
    ensures var r := SortAndFilter.FilterByMode(notes, NoteMeta(parseUuid), config, NoteAttr);
            r.Ok? ==> r.value == []
  {
    var meta := NoteMeta(parseUuid);
    var cfg := meta.fieldsMetaConfig;
    var r := SortAndFilter.FilterByMode(notes, meta, config, NoteAttr);
    if r.Ok? {
      var raw := SortAndFilter.StrDict(config.filterQuery);
      assert raw == [(key, VStr(s))];
      NoteUidQuery(parseUuid, key, s);
      var u :| SortAndFilter.ValidateFilterQueryInDataAction(cfg, raw).value == [("uid", VUuid(u))];
      var query := [("uid", VUuid(u))];
      var registry := GetFieldsMetaRegistry(cfg);
      assert r == SortAndFilter.Filtered(notes, query, registry, NoteAttr, "Note");
      forall i | 0 <= i < |notes|
        ensures SortAndFilter.ItemMatches(notes[i], query, registry, NoteAttr, "Note") == Ok(false)
      {
        NoteUidEntryFails(parseUuid, notes[i], u);
      }
      SortAndFilter.FilteredNothing(notes, query, registry, NoteAttr, "Note");
    }
  }

  // ================================================================ Contact

  const TrimAddress: int := 10

  /** A contact; its phones and e-mails are kept as validated lists. */
  datatype Contact = Contact(
    uid: Uuid,
    name: string,
    address: Option<string>,
    phones: seq<string>,
    emails: seq<string>,
    birthday: Option<Date>)

  /** What the validators of the contact's fields need from outside: the
      phone-number and e-mail libraries and today's date. */
  datatype ContactEnv = ContactEnv(phoneLib: Phones.PhoneLib, emailLib: Emails.EmailLib, today: Date)

  /** The field constraints of `Contact`: a non-empty name, phones and
      e-mails each listed once, phones free of surrounding blanks, and a
      birthday that is not after today. */
  predicate ValidContact(c: Contact, today: Date)
  {
    && c.name != ""
    && Unique.NoDuplicates(c.phones)
    && (forall i :: 0 <= i < |c.phones| ==> c.phones[i] != "" && NoSpaceAtEnds(c.phones[i]))
    && Unique.NoDuplicates(c.emails)
    && (c.birthday.Some? ==> NotAfter(c.birthday.value, today))
  }

  /** `Contact(...)`. The after-validators of phones, e-mails and birthday
      raise application errors that pydantic lets through at once, in
      field order; only when all three pass does the empty-name check
      surface, as a validation error. */
  function MakeContact(env: ContactEnv, uid: Uuid, name: string, address: Option<string>,
                       phones: seq<string>, emails: seq<string>, birthday: Option<Date>): (r: Result<Contact>)
    requires ValidDate(env.today) && (birthday.Some? ==> ValidDate(birthday.value))
    ensures var ph := Phones.ValidatePhoneListSpec(env.phoneLib, phones);
            var em := Emails.ValidateEmailListSpec(env.emailLib, emails);
            var bd := Birthdays.ValidateBirthday(birthday, env.today);
            && (ph.Err? ==> r == Err(ph.error))
            && (ph.Ok? && em.Err? ==> r == Err(em.error))
            && (ph.Ok? && em.Ok? && bd.Err? ==> r == Err(bd.error))
            && (ph.Ok? && em.Ok? && bd.Ok? && name == "" ==> r == Fail(ValidationError, MinLengthMessage))
            && (r.Ok? <==> ph.Ok? && em.Ok? && bd.Ok? && name != "")
            && (r.Ok? ==> r.value == Contact(uid, name, address, ph.value, em.value, birthday))
  {
    var validPhones :- Phones.ValidatePhoneListSpec(env.phoneLib, phones);
    var validEmails :- Emails.ValidateEmailListSpec(env.emailLib, emails);
    var validBirthday :- Birthdays.ValidateBirthday(birthday, env.today);
    if name == "" then Fail(ValidationError, MinLengthMessage)
    else Ok(Contact(uid, name, address, validPhones, validEmails, validBirthday))
  }

  /** Every contact that construction accepts meets the field constraints. */
  lemma MakeContactValid(env: ContactEnv, uid: Uuid, name: string, address: Option<string>,
                         phones: seq<string>, emails: seq<string>, birthday: Option<Date>)
    requires ValidDate(env.today) && (birthday.Some? ==> ValidDate(birthday.value))
    requires MakeContact(env, uid, name, address, phones, emails, birthday).Ok?
    ensures ValidContact(MakeContact(env, uid, name, address, phones, emails, birthday).value, env.today)
  {
    var c := MakeContact(env, uid, name, address, phones, emails, birthday).value;
    Phones.PhoneListMeaning(env.phoneLib, phones);
    Emails.EmailListMeaning(env.emailLib, emails);
    forall i | 0 <= i < |c.phones|
      ensures c.phones[i] != "" && NoSpaceAtEnds(c.phones[i])
    {
      assert c.phones[i] in c.phones;
      var j :| 0 <= j < |phones| && Phones.ValidatePhone(env.phoneLib, phones[j]) == Ok(c.phones[i]);
      Phones.ValidPhoneIsStripped(env.phoneLib, phones[j]);
    }
  }

  /** A contact with any field left at its default and a non-empty name is
      accepted as given. */
  lemma DefaultsAccepted(env: ContactEnv, uid: Uuid, name: string)
    requires ValidDate(env.today) && name != ""
    ensures MakeContact(env, uid, name, None, [], [], None) == Ok(Contact(uid, name, None, [], [], None))
  {
  }

  /** `Contact(name="")` is rejected. */
  lemma EmptyNameRejected(env: ContactEnv, uid: Uuid)
    requires ValidDate(env.today)
    ensures MakeContact(env, uid, "", None, [], [], None) == Fail(ValidationError, MinLengthMessage)
  {
  }

  /** pydantic's reading of the `datetime.date | None` birthday field: `None`,
      a date, or text in the extended ISO form `YYYY-MM-DD`; anything else
      is a validation error. */
  function BirthdayInput(v: Value): (r: Result<Option<Date>>)
    ensures v.VNone? ==> r == Ok(None)
    ensures v.VDate? ==> r == Ok(Some(v.d))
    ensures v.VStr? ==> (r.Ok? <==> |v.s| == 10 && v.s[4] == '-' && v.s[7] == '-' && ParseIso(v.s).Ok?)
    ensures v.VStr? && r.Ok? ==> r.value == Some(ParseIso(v.s).value)
    ensures !v.VNone? && !v.VDate? && !v.VStr? ==> r.Err?
    ensures r.Err? ==> r.error.kind == ValidationError
  {
    match v
    case VNone => Ok(None)
    case VDate(d) => Ok(Some(d))
    case VStr(s) =>
      if |s| == 10 && s[4] == '-' && s[7] == '-' && ParseIso(s).Ok? then Ok(Some(ParseIso(s).value))
      else Fail(ValidationError, "Input should be a valid date")
    case _ => Fail(ValidationError, "Input should be a valid date")
  }

  /** `Contact(...)` with the birthday given in any form pydantic accepts. A
      birthday that is not a date is a validation error of its own, which
      the application errors of the phone and e-mail validators still
      overtake; an empty name is reported with it. */
  function MakeContactFromInput(env: ContactEnv, uid: Uuid, name: string, address: Option<string>,
                                phones: seq<string>, emails: seq<string>, birthday: Value): (r: Result<Contact>)
    requires ValidDate(env.today) && (birthday.VDate? ==> ValidDate(birthday.d))
    ensures BirthdayInput(birthday).Ok? ==> r == MakeContact(env, uid, name, address, phones, emails, BirthdayInput(birthday).value)
    ensures BirthdayInput(birthday).Err? ==>
              var ph := Phones.ValidatePhoneListSpec(env.phoneLib, phones);
              var em := Emails.ValidateEmailListSpec(env.emailLib, emails);
              && r.Err?
              && (ph.Err? ==> r == Err(ph.error))
              && (ph.Ok? && em.Err? ==> r == Err(em.error))
              && (ph.Ok? && em.Ok? ==> r.error.kind == ValidationError)
  {
    match BirthdayInput(birthday)
    case Ok(bd) => MakeContact(env, uid, name, address, phones, emails, bd)
    case Err(e) =>
      var _ :- Phones.ValidatePhoneListSpec(env.phoneLib, phones);
      var _ :- Emails.ValidateEmailListSpec(env.emailLib, emails);
      if name == "" then Fail(ValidationError, MinLengthMessage) else Err(e)
  }

  /** A birthday written as ISO text builds the same contact as the date
      itself. */
  lemma BirthdayTextAsDate(env: ContactEnv, uid: Uuid, name: string, address: Option<string>,
                           phones: seq<string>, emails: seq<string>, d: Date)
    requires ValidDate(env.today) && ValidDate(d)
    ensures MakeContactFromInput(env, uid, name, address, phones, emails, VStr(FormatIso(d)))
            == MakeContactFromInput(env, uid, name, address, phones, emails, VDate(d))
  {
    ParseFormatIso(d);
  }

  /** The address segment of a contact's display: none for a missing or
      empty address, else ", " and the address cut to 10 characters. */
  function AddressPart(address: Option<string>): string
  {
    var a := if address.Some? then address.value else "";
    var shown := Truncate(a, TrimAddress);
    if shown != "" then ", " + shown else ""
  }

  /** The birthday segment: " (YYYY-MM-DD Weekday)" when there is one. */
  function BirthdayPart(birthday: Option<Date>): string
    requires birthday.Some? ==> ValidDate(birthday.value)
  {
    if birthday.Some? then " (" + FormatForOutput(birthday.value) + ")" else ""
  }

  function ContactUidPart(uid: Uuid): (r: string)
    ensures |r| == 47
  {
    "  (<i>" + UuidStr(uid) + "</i>)"
  }

  /** `Contact.get_prompt_toolkit_output` */
  function ContactOutput(c: Contact): string
    requires c.birthday.Some? ==> ValidDate(c.birthday.value)
  {
    "<b>" + c.name + "</b>" + AddressPart(c.address) + BirthdayPart(c.birthday) + ContactUidPart(c.uid)
  }

  /** The address segment: empty exactly when there is no address text;
      a long address shows its first 7 characters and "...". */
  lemma AddressPartMeaning(address: Option<string>)
    ensures AddressPart(address) == "" <==> address.None? || address.value == ""
    ensures address.Some? && 0 < |address.value| <= TrimAddress ==> AddressPart(address) == ", " + address.value
    ensures address.Some? && |address.value| > TrimAddress
            ==> |AddressPart(address)| == 12 && AddressPart(address) == ", " + address.value[..7] + "..."
  {
    if address.Some? {
      TruncateMeaning(address.value, TrimAddress);
      if |address.value| > TrimAddress {
        assert Truncate(address.value, TrimAddress) == address.value[..7] + "...";
      }
    }
  }

  /** The display starts with the name in bold and ends with the uid. */
  lemma ContactOutputShape(c: Contact)
    requires c.birthday.Some? ==> ValidDate(c.birthday.value)
    ensures var o := ContactOutput(c);
            var head := "<b>" + c.name + "</b>";
            && |o| >= |head| + 47
            && o[..|head|] == head
            && o[|o| - 47..] == "  (<i>" + UuidStr(c.uid) + "</i>)"
  {
    var head := "<b>" + c.name + "</b>";
    var a, b := AddressPart(c.address), BirthdayPart(c.birthday);
    var tail := ContactUidPart(c.uid);
    assert head + a + b == head + (a + b);
    assert ContactOutput(c) == head + (a + b) + tail;
    ConcatEnds(head, a + b, tail);
  }

  lemma ConcatEnds(a: string, b: string, c: string)
    ensures var o := a + b + c;
            |o| == |a| + |b| + |c| && o[..|a|] == a && o[|o| - |c|..] == c
  {
  }

  /** A contact with no address text and no birthday shows only its name
      and uid. */
  lemma ContactOutputBare(c: Contact)
    requires c.address.None? || c.address.value == ""
    requires c.birthday.None?
    ensures ContactOutput(c) == "<b>" + c.name + "</b>  (<i>" + UuidStr(c.uid) + "</i>)"
  {
    AddressPartMeaning(c.address);
  }

  /** `Contact.get_meta_info()`: declared without descriptors. */
  function ContactMeta(): (r: ModelMetaInfo)
    ensures r.singularName == "Contact" && r.pluralName == "Contacts"
    ensures r.fieldsMetaConfig.fields == []
  {
    FromClass("Contact", None)
  }

  /** No field name resolves for a contact, and its registry is empty. */
  lemma ContactLookupFails(fieldName: string)
    ensures GetFieldNameFact(ContactMeta().fieldsMetaConfig, fieldName) == Fail(KeyError, NotFoundMessage(NormalizeKey(fieldName)))
    ensures GetFieldsMetaRegistry(ContactMeta().fieldsMetaConfig) == map[]
  {
    NoDescriptorsNoLookup("Contact", fieldName);
  }

  /** `getattr(contact, name)` for the fields of a contact. */
  function ContactAttr(c: Contact, name: string): Option<Value>
  {
    if name == "uid" then Some(VUuid(c.uid))
    else if name == "name" then Some(VStr(c.name))
    else if name == "address" then Some(OptionalStr(c.address))
    else if name == "phones" then Some(VList(StrItems(c.phones)))
    else if name == "emails" then Some(VList(StrItems(c.emails)))
    else if name == "birthday" then Some(if c.birthday.Some? then VDate(c.birthday.value) else VNone)
    else None
  }
}
