/** The argument schemas the command handlers declare, instantiated with the
    resolver of `args_config.py`. */
module Schemas {
  import opened Base
  import opened PyText
  import opened Values
  import opened ConvertBool
  import opened ArgsConfig

  /** How a schema of one argument parses, once the token count is accepted. */
  lemma ParseOneArg(config: ArgsConfigT, tokens: seq<Option<string>>, nonInteractive: bool, console: Console)
    requires |config.args| == 1 && PreValidation(config.args, tokens, nonInteractive).None?
    ensures ParseSpec(config, tokens, nonInteractive, console)
            == match ParseStep(config.args[0], 0, TokenAt(tokens, 0), nonInteractive, [], console)
               case Err(e) => Err(e)
               case Ok(None) => Instantiate(config.shape, [])
               case Ok(Some(v)) => Instantiate(config.shape, [(config.args[0].name, v)])
  {
    var step := ParseStep(config.args[0], 0, TokenAt(tokens, 0), nonInteractive, [], console);
    if step.Ok? {
      var d := if step.value.Some? then DictPut([], config.args[0].name, step.value.value) else [];
      assert ParseFrom(config.args, tokens, nonInteractive, console, 1, d) == Ok(d);
    }
  }

  /** A schema whose first argument fails fails with that error. */
  lemma ParseFirstFails(config: ArgsConfigT, tokens: seq<Option<string>>, nonInteractive: bool, console: Console)
    requires |config.args| >= 1 && PreValidation(config.args, tokens, nonInteractive).None?
    requires ParseStep(config.args[0], 0, TokenAt(tokens, 0), nonInteractive, [], console).Err?
    ensures ParseSpec(config, tokens, nonInteractive, console)
            == Err(ParseStep(config.args[0], 0, TokenAt(tokens, 0), nonInteractive, [], console).error)
  {
  }

  /** A schema of two arguments whose both steps store a value. */
  lemma ParseTwoSteps(config: ArgsConfigT, tokens: seq<Option<string>>, nonInteractive: bool, console: Console, v0: Value, v1: Value)
    requires |config.args| == 2 && PreValidation(config.args, tokens, nonInteractive).None?
    requires config.args[0].name != config.args[1].name
    requires ParseStep(config.args[0], 0, TokenAt(tokens, 0), nonInteractive, [], console) == Ok(Some(v0))
    requires ParseStep(config.args[1], 1, TokenAt(tokens, 1), nonInteractive, [(config.args[0].name, v0)], console) == Ok(Some(v1))
    ensures ParseSpec(config, tokens, nonInteractive, console)
            == Instantiate(config.shape, [(config.args[0].name, v0), (config.args[1].name, v1)])
  {
    var args := config.args;
    var d1 := [(args[0].name, v0)];
    assert DictPut([], args[0].name, v0) == d1;
    assert ParseFrom(args, tokens, nonInteractive, console, 0, []) == ParseFrom(args, tokens, nonInteractive, console, 1, d1);
    assert !HasKey(d1, args[1].name);
    var d2 := DictPut(d1, args[1].name, v1);
    assert d2 == [(args[0].name, v0), (args[1].name, v1)];
    assert ParseFrom(args, tokens, nonInteractive, console, 1, d1) == ParseFrom(args, tokens, nonInteractive, console, 2, d2);
  }

  /** Instantiating a one-field result: the field's value, or its error. */
  lemma InstantiateOne(f: ResultField, dict: Dict)
    ensures Instantiate([f], dict) == match FieldResult(dict, f)
                                      case Ok(v) => Ok([(f.name, v)])
                                      case Err(e) => Err(e)
  {
    var shape: ResultShape := [f];
    assert shape[0] == f;
    var r := Instantiate(shape, dict);
    if r.Ok? {
      assert |r.value| == 1;
      assert r.value == [(f.name, FieldResult(dict, f).value)];
    }
  }

  /** Instantiating a two-field result from exactly those two fields: the
      stored values validated in order, or the first validation error. */
  lemma InstantiateTwo(shape: ResultShape, dict: Dict)
    requires |shape| == 2 && |dict| == 2 && dict[0].0 == shape[0].name && dict[1].0 == shape[1].name && dict[0].0 != dict[1].0
    ensures Instantiate(shape, dict)
            == match CoerceField(shape[0].typ, dict[0].1)
               case Err(e) => Err(e)
               case Ok(v0) =>
                 match CoerceField(shape[1].typ, dict[1].1)
                 case Err(e) => Err(e)
                 case Ok(v1) => Ok([(dict[0].0, v0), (dict[1].0, v1)])
  {
    assert DictGet(dict, dict[0].0) == Some(dict[0].1);
    assert DictGet(dict, dict[1].0) == Some(dict[1].1);
    assert FieldResult(dict, shape[0]) == CoerceField(shape[0].typ, dict[0].1);
    assert FieldResult(dict, shape[1]) == CoerceField(shape[1].typ, dict[1].1);
    var r := Instantiate(shape, dict);
    if r.Ok? {
      assert |r.value| == 2;
      assert r.value == [(dict[0].0, FieldResult(dict, shape[0]).value), (dict[1].0, FieldResult(dict, shape[1]).value)];
    }
  }

  /** `ARGS_CONFIG_I_EMPTY`: no arguments at all. */
  function EmptySchema(): ArgsConfigT
  {
    ArgsConfigT([], [])
  }

  lemma EmptySchemaTakesNothing(tokens: seq<Option<string>>, nonInteractive: bool, console: Console)
    ensures ParseSpec(EmptySchema(), tokens, nonInteractive, console)
            == if tokens == [] then Ok([]) else Err(Error(InvalidCommandError, "Too many arguments provided."))
  {
  }

  /** `ARGS_CONFIG_I_FORCE`, `EXIT_I_ARGS_CONFIG` and
      `STORAGE_CLEAR_I_ARGS_CONFIG`: one optional BOOL `force` whose field
      defaults to `None`. */
  function ForceSchema(): ArgsConfigT
  {
    ArgsConfigT([ResultField("force", Some(VNone), OptionalBool)], [Arg("force").(typ := Bool)])
  }

  /** Without a token `force` stays `None` in both modes (it does not
      prompt); one token is read as a yes/no word; two are too many. */
  lemma ForceSchemaParses(tokens: seq<Option<string>>, nonInteractive: bool, console: Console)
    ensures tokens == [] ==> ParseSpec(ForceSchema(), tokens, nonInteractive, console) == Ok([("force", VNone)])
    ensures |tokens| == 1 && tokens[0].Some? && tokens[0].value != "" ==>
              ParseSpec(ForceSchema(), tokens, nonInteractive, console)
              == Ok([("force", VBool(Lower(tokens[0].value) in TruthyWords))])
    ensures |tokens| >= 2 ==>
              ParseSpec(ForceSchema(), tokens, nonInteractive, console) == Err(Error(InvalidCommandError, "Too many arguments provided."))
  {
    if tokens == [] {
      ForceNoToken(tokens, nonInteractive, console);
    }
    if |tokens| == 1 && tokens[0].Some? && tokens[0].value != "" {
      ForceOneToken(tokens, nonInteractive, console);
    }
  }

  lemma ForceNoToken(tokens: seq<Option<string>>, nonInteractive: bool, console: Console)
    requires tokens == []
    ensures ParseSpec(ForceSchema(), tokens, nonInteractive, console) == Ok([("force", VNone)])
  {
    var config := ForceSchema();
    var meta := config.args[0];
    ParseOneArg(config, tokens, nonInteractive, console);
    assert TokenAt(tokens, 0) == VNone;
    if nonInteractive {
      assert ParseStep(meta, 0, VNone, true, [], console) == Ok(None);
      InstantiateOne(config.shape[0], []);
    } else {
      assert ParseStep(meta, 0, VNone, false, [], console) == Ok(Some(VNone));
      InstantiateOne(config.shape[0], [("force", VNone)]);
    }
  }

  lemma ForceOneToken(tokens: seq<Option<string>>, nonInteractive: bool, console: Console)
    requires |tokens| == 1 && tokens[0].Some? && tokens[0].value != ""
    ensures ParseSpec(ForceSchema(), tokens, nonInteractive, console)
            == Ok([("force", VBool(Lower(tokens[0].value) in TruthyWords))])
  {
    var config := ForceSchema();
    var meta := config.args[0];
    ParseOneArg(config, tokens, nonInteractive, console);
    var t := tokens[0].value;
    assert TokenAt(tokens, 0) == VStr(t);
    var b := Lower(t) in TruthyWords;
    assert ConvertCommandPartToBool(VStr(t)) == Ok(b);
    assert ParseStep(meta, 0, VStr(t), nonInteractive, [], console) == Ok(Some(VBool(b)));
    InstantiateOne(config.shape[0], [("force", VBool(b))]);
  }

  /** `reparse` of a result whose `force` is `False` gives back `None`, not
      `False`: the falsy field is fed back as a missing token. */
  lemma ForceReparseLosesFalse(console: Console)
    ensures Reparse(ForceSchema(), [("force", VBool(false))], true, console) == Ok([("force", VNone)])
  {
    var parsed := [("force", VBool(false))];
    assert DictGet(parsed, "force") == Some(VBool(false));
    var config := ForceSchema();
    var tokens := ReparseTokens(config.args, parsed);
    assert tokens.Ok? && |tokens.value| == 1 && tokens.value[0] == None;
    assert tokens.value == [None];
    ParseOneArg(config, [None], true, console);
    assert TokenAt([None], 0) == VNone;
    assert ParseStep(config.args[0], 0, VNone, true, [], console) == Ok(None);
    InstantiateOne(config.shape[0], []);
  }

  /** The `uid` then `force` schema of `CONTACT_DELETE_I_ARGS_CONFIG` and,
      with `uidParser`, of `NOTE_DELETE_I_ARGS_CONFIG`: both arguments are
      required and `force` asks with a yes/no dialog when missing. The
      result's `uid` is a UUID field, `parseUuid` being `uuid.UUID`'s parser. */
  function DeleteSchema(uidParser: Option<Value -> Result<Value>>, parseUuid: string -> Option<Uuid>): ArgsConfigT
  {
    ArgsConfigT(
      [ResultField("uid", None, UuidField(parseUuid)), ResultField("force", Some(VNone), OptionalBool)],
      [Arg("uid").(required := true, parserFunc := uidParser),
       Arg("force").(typ := Bool, required := true, allowInputOnEmpty := true)])
  }

  function ContactDeleteSchema(parseUuid: string -> Option<Uuid>): ArgsConfigT
  {
    DeleteSchema(None, parseUuid)
  }

  function NoteDeleteSchema(parseUuid: string -> Option<Uuid>): ArgsConfigT
  {
    DeleteSchema(Some(v => ParseUuidValue(parseUuid, v)), parseUuid)
  }

  lemma DeleteSchemaOrdered(uidParser: Option<Value -> Result<Value>>, parseUuid: string -> Option<Uuid>)
    ensures var c := DeleteSchema(uidParser, parseUuid);
            MakeArgsConfig(c.shape, c.args) == Ok(c)
  {
  }

  /** Without a uid the delete commands fail in both modes: "Not enough
      arguments" in non-interactive mode, "missing" in interactive mode,
      since `uid` does not prompt. */
  lemma DeleteNeedsUid(uidParser: Option<Value -> Result<Value>>, parseUuid: string -> Option<Uuid>, nonInteractive: bool, console: Console)
    ensures ParseSpec(DeleteSchema(uidParser, parseUuid), [], nonInteractive, console)
            == if nonInteractive then Err(Error(InvalidCommandError, "Not enough arguments provided."))
               else Err(Error(InvalidCommandError, "Required argument `uid` is missing."))
  {
    var config := DeleteSchema(uidParser, parseUuid);
    assert RequiredCount(config.args) == 2;
    if !nonInteractive {
      RequiredMissing(config.args[0], 0, VNone, false, [], console);
    }
  }

  /** In interactive mode a contact uid alone is enough to get past the
      arguments: the dialog for the required `force` offers only yes and no,
      so `force` is always a bool. The text is then parsed as a UUID by the
      result class, and a text that is not one is a validation error. */
  lemma ContactDeleteAsksForce(parseUuid: string -> Option<Uuid>, uid: string, console: Console)
    requires uid != ""
    ensures var b := console.choice(1) % 2 == 0;
            ParseSpec(ContactDeleteSchema(parseUuid), [Some(uid)], false, console)
            == match parseUuid(uid)
               case Some(u) => Ok([("uid", VUuid(u)), ("force", VBool(b))])
               case None => Err(Error(ValidationError, "Input should be a valid UUID"))
  {
    var config := ContactDeleteSchema(parseUuid);
    var tokens := [Some(uid)];
    assert RequiredCount(config.args) == 2;
    assert TokenAt(tokens, 0) == VStr(uid);
    assert TokenAt(tokens, 1) == VNone;
    assert ParseStep(config.args[0], 0, VStr(uid), false, [], console) == Ok(Some(VStr(uid)));
    var b := console.choice(1) % 2 == 0;
    ForceDialogAnswer(config.args[1], [("uid", VStr(uid))], console, b);
    ParseTwoSteps(config, tokens, false, console, VStr(uid), VBool(b));
    DeleteFieldsStored(parseUuid, uid, b);
  }

  /** The stored uid text and force bool through the result fields' validation. */
  lemma DeleteFieldsStored(parseUuid: string -> Option<Uuid>, uid: string, b: bool)
    ensures Instantiate(ContactDeleteSchema(parseUuid).shape, [("uid", VStr(uid)), ("force", VBool(b))])
            == match parseUuid(uid)
               case Some(u) => Ok([("uid", VUuid(u)), ("force", VBool(b))])
               case None => Err(Error(ValidationError, "Input should be a valid UUID"))
  {
    var shape := ContactDeleteSchema(parseUuid).shape;
    assert CoerceField(shape[1].typ, VBool(b)) == Ok(VBool(b));
    InstantiateTwo(shape, [("uid", VStr(uid)), ("force", VBool(b))]);
  }

  lemma ForceDialogAnswer(meta: ArgMetaConfig, dict: Dict, console: Console, b: bool)
    requires meta == Arg("force").(typ := Bool, required := true, allowInputOnEmpty := true)
    requires b == (console.choice(1) % 2 == 0)
    ensures ParseStep(meta, 1, VNone, false, dict, console) == Ok(Some(VBool(b)))
  {
    var opts := BoolDialogOptions(true);
    assert opts == [Some(true), Some(false)];
    assert HandleInput(meta, VNone, dict, 1, console) == Ok(VStr(BoolStr(b)));
    assert Lower(BoolStr(b)) in TruthyWords <==> b by {
      if b { assert Lower("True") == "true"; } else { assert Lower("False") == "false"; }
    }
    assert ConvertCommandPartToBool(VStr(BoolStr(b))) == Ok(b);
  }

  /** A note uid the UUID parser rejects is a `ValueError` naming the text. */
  lemma NoteDeleteBadUid(parseUuid: string -> Option<Uuid>, uid: string, force: string, nonInteractive: bool, console: Console)
    requires uid != "" && parseUuid(uid).None?
    ensures ParseSpec(NoteDeleteSchema(parseUuid), [Some(uid), Some(force)], nonInteractive, console)
            == Err(Error(ValueError, "Can't parse argument `uid`: " + uid))
  {
    var config := NoteDeleteSchema(parseUuid);
    var tokens := [Some(uid), Some(force)];
    assert RequiredCount(config.args) == 2;
    assert TokenAt(tokens, 0) == VStr(uid);
    assert ParseArgToArgResult(config.args[0], VStr(uid)) == Fail(ValueError, "badly formed hexadecimal UUID string");
    CoercionFailureRetagged(config.args[0], 0, VStr(uid), nonInteractive, [], console);
    ParseFirstFails(config, tokens, nonInteractive, console);
  }

  const MaxDaysRangeToShowBirthdays: int := 365

  /** `validate_days_to_show_birthdays`: 1 to 365 inclusive pass unchanged
      (`True` counts as 1); anything else is a `ValueError`, and a value that
      cannot be compared with an int, `None` among them, is a `TypeError`. */
  function ValidateDaysToShowBirthdays(v: Value): (r: Result<Value>)
    ensures r.Ok? ==> r.value == v
    ensures v.VInt? ==> (r.Ok? <==> 0 < v.i <= MaxDaysRangeToShowBirthdays)
    ensures v.VInt? && r.Err? ==> r.error == Error(ValueError, "Entered value should be between 1 and 365 days.")
    ensures !v.VInt? && !v.VBool? ==> r.Err? && r.error.kind == TypeError
  {
    var n := match v
             case VInt(i) => Some(i)
             case VBool(b) => Some(if b then 1 else 0)
             case _ => None;
    if n.None? then Fail(TypeError, "'<' not supported between instances of 'int' and '" + TypeName(v) + "'")
    else if 0 < n.value <= MaxDaysRangeToShowBirthdays then Ok(v)
    else Fail(ValueError, "Entered value should be between 1 and 365 days.")
  }

  /** `CONTACTS_GET_BIRTHDAYS_I_ARGS_CONFIG`: one optional INT `days`, with
      the validator; the result field defaults to 7. */
  function GetBirthdaysSchema(): ArgsConfigT
  {
    ArgsConfigT([ResultField("days", Some(VInt(7)), IntField(Some(ValidateDaysToShowBirthdays)))],
                [Arg("days").(typ := Int, validatorFunc := Some(ValidateDaysToShowBirthdays))])
  }

  /** Without a token, non-interactive parsing leaves `days` at its default
      7, but interactive parsing hands `None` to the validator, which fails
      with a `TypeError`. */
  lemma GetBirthdaysWithoutToken(console: Console)
    ensures ParseSpec(GetBirthdaysSchema(), [], true, console) == Ok([("days", VInt(7))])
    ensures ParseSpec(GetBirthdaysSchema(), [], false, console).Err?
    ensures ParseSpec(GetBirthdaysSchema(), [], false, console).error.kind == TypeError
  {
    var config := GetBirthdaysSchema();
    assert TokenAt([], 0) == VNone;
    ParseOneArg(config, [], true, console);
    ParseOneArg(config, [], false, console);
    assert ParseStep(config.args[0], 0, VNone, true, [], console) == Ok(None);
    InstantiateOne(config.shape[0], []);
    ValidatorSeesNone(config.args[0], 0, [], console);
  }

  /** A token that is not an integer is reported as an unparseable `days`. */
  lemma GetBirthdaysNonNumeric(t: string, nonInteractive: bool, console: Console)
    requires t != "" && ParseInt(t).None?
    ensures ParseSpec(GetBirthdaysSchema(), [Some(t)], nonInteractive, console)
            == Err(Error(InvalidCommandError, "Can't parse argument `days`: " + t))
  {
    var config := GetBirthdaysSchema();
    assert TokenAt([Some(t)], 0) == VStr(t);
    IntRejectsNonNumeric(config.args[0], t);
    CoercionFailureRetagged(config.args[0], 0, VStr(t), nonInteractive, [], console);
    ParseFirstFails(config, [Some(t)], nonInteractive, console);
  }

  lemma DaysStep(t: string, n: int, nonInteractive: bool, console: Console)
    requires t != "" && ParseInt(t) == Some(n)
    ensures ParseStep(GetBirthdaysSchema().args[0], 0, VStr(t), nonInteractive, [], console)
            == if 0 < n <= 365 then Ok(Some(VInt(n)))
               else Fail(ValueError, "Entered value should be between 1 and 365 days.")
  {
    var meta := GetBirthdaysSchema().args[0];
    assert ParseArgToArgResult(meta, VStr(t)) == Ok(VInt(n));
    assert CoerceAndValidate(meta, VStr(t)) == ValidateDaysToShowBirthdays(VInt(n));
    if 0 < n <= 365 {
      assert ValidateDaysToShowBirthdays(VInt(n)) == Ok(VInt(n));
    } else {
      assert ValidateDaysToShowBirthdays(VInt(n)) == Fail(ValueError, "Entered value should be between 1 and 365 days.");
    }
    SuppliedTokenStep(meta, 0, VStr(t), nonInteractive, [], console);
  }

  /** The stored in-range `days` passes the result field's validation again. */
  lemma DaysFieldStored(n: int)
    requires 0 < n <= 365
    ensures Instantiate(GetBirthdaysSchema().shape, [("days", VInt(n))]) == Ok([("days", VInt(n))])
  {
    var f := GetBirthdaysSchema().shape[0];
    assert ValidateDaysToShowBirthdays(VInt(n)) == Ok(VInt(n));
    assert CoerceField(f.typ, VInt(n)) == Ok(VInt(n));
    assert FieldResult([("days", VInt(n))], f) == Ok(VInt(n));
    InstantiateOne(f, [("days", VInt(n))]);
  }

  /** An integer token is range-checked by the validator, whose `ValueError`
      is not re-tagged. */
  lemma GetBirthdaysNumeric(t: string, nonInteractive: bool, console: Console)
    requires t != "" && ParseInt(t).Some?
    ensures var n := ParseInt(t).value;
            ParseSpec(GetBirthdaysSchema(), [Some(t)], nonInteractive, console)
            == if 0 < n <= 365 then Ok([("days", VInt(n))])
               else Err(Error(ValueError, "Entered value should be between 1 and 365 days."))
  {
    var config := GetBirthdaysSchema();
    var n := ParseInt(t).value;
    assert TokenAt([Some(t)], 0) == VStr(t);
    DaysStep(t, n, nonInteractive, console);
    if 0 < n <= 365 {
      ParseOneArg(config, [Some(t)], nonInteractive, console);
      DaysFieldStored(n);
    } else {
      ParseFirstFails(config, [Some(t)], nonInteractive, console);
    }
  }

  /** The token "٣" (Arabic-Indic three) asks for three days, as "3" does. */
  lemma GetBirthdaysArabicIndic(t: string, nonInteractive: bool, console: Console)
    requires t == "\U{0663}"
    ensures ParseSpec(GetBirthdaysSchema(), [Some(t)], nonInteractive, console) == Ok([("days", VInt(3))])
  {
    DecimalSingle(t, 3);
    GetBirthdaysNumeric(t, nonInteractive, console);
  }
}
