/** The argument resolver of `args_config.py`: an ordered list of argument
    descriptions (`ArgMetaConfig`) turns the raw tokens of a command into the
    fields of a result object. Per argument it applies defaults, may ask the
    user (the console is an oracle here), coerces the value by type or by a
    parser, and runs a validator. */
module ArgsConfig {
  import opened Base
  import opened PyText
  import opened Dates
  import opened Values
  import opened ConvertBool

  datatype ArgType = Text | Int | Bool | DateArg | ListByComma | DictByCommaAndEqual

  datatype InteractiveMode = TextInput | BoolInput | SelectFromOptions | Custom

  /** The answers the user gives, keyed by the position of the argument being
      asked for (each argument is asked for at most once per parse): what is
      typed at a text prompt, and which entry of a choice dialog is picked
      (taken modulo the number of entries). */
  datatype Console = Console(text: nat -> string, choice: nat -> nat)

  /** `ArgMetaConfig`, without its rendering-only fields (description,
      alternative and boolean texts, format). `default == VNone` stands for
      "no default"; `interactiveOptions` holds the values of the options. */
  datatype ArgMetaConfig = ArgMetaConfig(
    name: string,
    typ: ArgType,
    required: bool,
    default: Value,
    defaultFactory: Option<() -> Value>,
    interactiveMode: Option<InteractiveMode>,
    interactiveOptions: seq<Value>,
    customHandler: Option<(Dict, string) -> Value>,
    parserFunc: Option<Value -> Result<Value>>,
    validatorFunc: Option<Value -> Result<Value>>,
    allowInputOnEmpty: bool)

  /** `ArgMetaConfig(name=name)` with every other field at its declared default. */
  function Arg(name: string): (a: ArgMetaConfig)
    ensures a.name == name && a.typ == Text && !a.required && a.default == VNone
    ensures a.defaultFactory.None? && a.interactiveMode.None? && a.interactiveOptions == []
    ensures a.customHandler.None? && a.parserFunc.None? && a.validatorFunc.None? && !a.allowInputOnEmpty
  {
    ArgMetaConfig(name, Text, false, VNone, None, None, [], None, None, None, false)
  }

  /** The type a field of the result class declares, which decides what
      pydantic does with a value stored for it. */
  datatype FieldType =
    | AnyType                                          // passed through: text, enums, lists, dicts
    | OptionalBool                                     // `bool | None`
    | IntField(after: Option<Value -> Result<Value>>)  // `int`, or `Annotated[int, AfterValidator(after)]`
    | UuidField(parse: string -> Option<Uuid>)         // `uuid.UUID`, or a `NewType` of it

  /** A field of the result class: its name, its default (`None` when the
      field has none and must be supplied) and its declared type. */
  datatype ResultField = ResultField(name: string, default: Option<Value>, typ: FieldType)

  type ResultShape = seq<ResultField>

  datatype ArgsConfigT = ArgsConfigT(shape: ResultShape, args: seq<ArgMetaConfig>)

  // ---------------------------------------------------------------- order

  predicate Misplaced(args: seq<ArgMetaConfig>, j: int)
  {
    0 <= j < |args| && args[j].required && exists i :: 0 <= i < j && !args[i].required
  }

  /** Every required argument comes before every optional one. */
  predicate RequiredFirst(args: seq<ArgMetaConfig>)
  {
    forall i, j :: 0 <= i < j < |args| && !args[i].required ==> !args[j].required
  }

  function MisplacedMessage(name: string): string
  {
    "Required argument `" + name + "` appears after optional arguments. "
    + "All required arguments must come before optional ones."
  }

  /** The check of `validate_order_of_args`, from position `k` on, where
      `sawOptional` tells whether an optional argument came before `k`. */
  function OrderCheck(args: seq<ArgMetaConfig>, k: nat, sawOptional: bool): Result<seq<ArgMetaConfig>>
    requires k <= |args|
    decreases |args| - k
  {
    if k == |args| then Ok(args)
    else if args[k].required then
      if sawOptional then Fail(ValueError, MisplacedMessage(args[k].name))
      else OrderCheck(args, k + 1, sawOptional)
    else OrderCheck(args, k + 1, true)
  }

  /** The order check accepts exactly the lists with required arguments first,
      returns them unchanged, and otherwise names the first required argument
      that has an optional one before it. */
  lemma {:induction false} OrderCheckMeaning(args: seq<ArgMetaConfig>, k: nat, sawOptional: bool)
    requires k <= |args|
    requires sawOptional <==> exists i :: 0 <= i < k && !args[i].required
    requires forall j :: 0 <= j < k ==> !Misplaced(args, j)
    ensures OrderCheck(args, k, sawOptional).Ok? ==> OrderCheck(args, k, sawOptional).value == args
    ensures OrderCheck(args, k, sawOptional).Ok? <==> forall j :: k <= j < |args| ==> !Misplaced(args, j)
    ensures OrderCheck(args, k, sawOptional).Err? ==>
              exists j :: k <= j < |args| && Misplaced(args, j) && (forall j' :: k <= j' < j ==> !Misplaced(args, j'))
                && OrderCheck(args, k, sawOptional).error == Error(ValueError, MisplacedMessage(args[j].name))
    decreases |args| - k
  {
    if k < |args| {
      if args[k].required && sawOptional {
        assert Misplaced(args, k);
      } else {
        assert !Misplaced(args, k);
        OrderCheckMeaning(args, k + 1, sawOptional || !args[k].required);
      }
    }
  }

  lemma NoMisplacedIsRequiredFirst(args: seq<ArgMetaConfig>)
    ensures (forall j :: 0 <= j < |args| ==> !Misplaced(args, j)) <==> RequiredFirst(args)
  {
    if RequiredFirst(args) {
      forall j | 0 <= j < |args| ensures !Misplaced(args, j) {
        if args[j].required {
          assert forall i :: 0 <= i < j ==> args[i].required;
        }
      }
    }
    if forall j :: 0 <= j < |args| ==> !Misplaced(args, j) {
      forall i, j | 0 <= i < j < |args| && !args[i].required ensures !args[j].required {
        assert !Misplaced(args, j);
      }
    }
  }

  /** `validate_order_of_args`: the loop over the arguments with the
      `saw_optional` flag. */
  method ValidateOrderOfArgs(args: seq<ArgMetaConfig>) returns (r: Result<seq<ArgMetaConfig>>)
    ensures r == OrderCheck(args, 0, false)
    ensures r.Ok? <==> RequiredFirst(args)
    ensures r.Ok? ==> r.value == args
    ensures r.Err? ==> exists j :: Misplaced(args, j) && (forall j' :: 0 <= j' < j ==> !Misplaced(args, j'))
                         && r.error == Error(ValueError, MisplacedMessage(args[j].name))
  {
    OrderCheckMeaning(args, 0, false);
    NoMisplacedIsRequiredFirst(args);
    var sawOptional := false;
    var k := 0;
    while k < |args|
      invariant 0 <= k <= |args|
      invariant OrderCheck(args, k, sawOptional) == OrderCheck(args, 0, false)
    {
      if args[k].required {
        if sawOptional {
          return Fail(ValueError, MisplacedMessage(args[k].name));
        }
      } else {
        sawOptional := true;
      }
      k := k + 1;
    }
    return Ok(args);
  }

  /** `ArgsConfig(result_cls=..., args=...)`: building a schema runs the order
      check on its argument list. */
  function MakeArgsConfig(shape: ResultShape, args: seq<ArgMetaConfig>): (r: Result<ArgsConfigT>)
    ensures r.Ok? <==> RequiredFirst(args)
    ensures r.Ok? ==> r.value == ArgsConfigT(shape, args)
  {
    OrderCheckMeaning(args, 0, false);
    NoMisplacedIsRequiredFirst(args);
    var checked :- OrderCheck(args, 0, false);
    Ok(ArgsConfigT(shape, checked))
  }

  // ---------------------------------------------------------------- counts

  function RequiredCount(args: seq<ArgMetaConfig>): (n: nat)
    ensures n <= |args|
  {
    if args == [] then 0 else (if args[0].required then 1 else 0) + RequiredCount(args[1..])
  }

  /** `_parse_i_args_pre_validation`: the token count against the schema. */
  function PreValidation(args: seq<ArgMetaConfig>, tokens: seq<Option<string>>, nonInteractive: bool): Option<Error>
  {
    if |tokens| > |args| then Some(Error(InvalidCommandError, "Too many arguments provided."))
    else if nonInteractive && |tokens| < RequiredCount(args) then Some(Error(InvalidCommandError, "Not enough arguments provided."))
    else None
  }

  // ---------------------------------------------------------------- steps

  function MissingMessage(name: string): string
  {
    "Required argument `" + name + "` is missing."
  }

  /** `handle_default_for_arg` */
  function HandleDefault(meta: ArgMetaConfig, arg: Value, guard: bool): (r: Result<Value>)
    ensures !Falsy(arg) ==> r == Ok(arg)
    ensures Falsy(arg) && meta.default != VNone ==> r == Ok(meta.default)
    ensures Falsy(arg) && meta.default == VNone && meta.defaultFactory.Some? ==> r == Ok(meta.defaultFactory.value())
    ensures Falsy(arg) && meta.default == VNone && meta.defaultFactory.None? ==>
              r == if meta.required && guard then Fail(InvalidCommandError, MissingMessage(meta.name)) else Ok(arg)
  {
    if Falsy(arg) then
      if meta.default != VNone then Ok(meta.default)
      else if meta.defaultFactory.Some? then Ok(meta.defaultFactory.value())
      else if meta.required && guard then Fail(InvalidCommandError, MissingMessage(meta.name))
      else Ok(arg)
    else Ok(arg)
  }

  /** The dialog mode an argument gets when it asks for input: the configured
      one, else the yes/no dialog for BOOL and a text prompt for TEXT. */
  function EffectiveMode(meta: ArgMetaConfig): Option<InteractiveMode>
  {
    if meta.interactiveMode.Some? then meta.interactiveMode
    else if meta.typ == Bool then Some(BoolInput)
    else if meta.typ == Text then Some(TextInput)
    else None
  }

  /** The entries of the yes/no dialog: "skip" only for an optional argument. */
  function BoolDialogOptions(required: bool): (opts: seq<Option<bool>>)
    ensures None in opts <==> !required
  {
    [Some(true), Some(false)] + (if required then [] else [None])
  }

  /** `handle_input_on_empty_arg`, with the console as the oracle. */
  function HandleInput(meta: ArgMetaConfig, arg: Value, dict: Dict, index: nat, console: Console): (r: Result<Value>)
    ensures !(Falsy(arg) && meta.allowInputOnEmpty) ==> r == Ok(arg)
  {
    if !(Falsy(arg) && meta.allowInputOnEmpty) then Ok(arg)
    else
      match EffectiveMode(meta)
      case None => Ok(arg)
      case Some(BoolInput) =>
        var opts := BoolDialogOptions(meta.required);
        var picked := opts[console.choice(index) % |opts|];
        Ok(if picked.None? then VNone else VStr(BoolStr(picked.value)))
      case Some(TextInput) => Ok(VStr(console.text(index)))
      case Some(SelectFromOptions) =>
        if meta.interactiveOptions == [] then Fail(InvalidCommandError, "Argument `" + meta.name + "` ")
        else Ok(meta.interactiveOptions[console.choice(index) % |meta.interactiveOptions|])
      case Some(Custom) =>
        if meta.customHandler.None? then Fail(InvalidCommandError, "Argument `" + meta.name + "` ")
        else Ok(meta.customHandler.value(dict, console.text(index)))
  }

  /** `parse_list`: a list passes through; a string is split on "," with the
      empty pieces dropped. */
  function ParseList(v: Value): (r: Result<Value>)
    ensures v.VList? ==> r == Ok(v)
    ensures v.VStr? ==> r.Ok? && r.value.VList? && r.value.items == StrItems(NonEmpty(Split(v.s, ',')))
  {
    match v
    case VList(_) => Ok(v)
    case VStr(s) => Ok(VList(StrItems(NonEmpty(Split(s, ',')))))
    case _ => Fail(AttributeError, "'" + TypeName(v) + "' object has no attribute 'split'")
  }

  /** `filter(None, pieces)` on strings. */
  function NonEmpty(pieces: seq<string>): (r: seq<string>)
    ensures forall i :: 0 <= i < |r| ==> r[i] != ""
    ensures forall p :: p in r <==> p in pieces && p != ""
  {
    if pieces == [] then [] else (if pieces[0] == "" then [] else [pieces[0]]) + NonEmpty(pieces[1..])
  }

  /** The empty pieces are the only thing dropped: no element is empty or
      holds a comma, and together they hold every other character of the
      input, in order. */
  lemma ParseListKeepsFields(s: string)
    ensures forall x :: x in NonEmpty(Split(s, ',')) ==> x != "" && ',' !in x
    ensures Concat(NonEmpty(Split(s, ','))) == Without(s, ',')
  {
    ConcatNonEmpty(Split(s, ','));
    ConcatSplit(s, ',');
  }

  lemma {:induction false} ConcatNonEmpty(pieces: seq<string>)
    ensures Concat(NonEmpty(pieces)) == Concat(pieces)
  {
    if pieces != [] {
      ConcatNonEmpty(pieces[1..]);
      assert NonEmpty(pieces) == (if pieces[0] == "" then [] else [pieces[0]]) + NonEmpty(pieces[1..]);
      ConcatAppend(if pieces[0] == "" then [] else [pieces[0]], NonEmpty(pieces[1..]));
    }
  }

  lemma {:induction false} ConcatAppend(a: seq<string>, b: seq<string>)
    ensures Concat(a + b) == Concat(a) + Concat(b)
  {
    if a != [] {
      assert (a + b)[1..] == a[1..] + b;
      ConcatAppend(a[1..], b);
    } else {
      assert a + b == b;
    }
  }

  /** One step of the `parse_dict` loop: a piece counts only when splitting it
      on "=" gives exactly two parts, that is when it holds exactly one "="
      (`SplitCount`). */
  function DictPiece(acc: Dict, part: string): Dict
  {
    var kv := Split(part, '=');
    if |kv| != 2 then acc else DictPut(acc, kv[0], VStr(kv[1]))
  }

  function DictPieces(acc: Dict, parts: seq<string>): Dict
    decreases |parts|
  {
    if parts == [] then acc else DictPieces(DictPiece(acc, parts[0]), parts[1..])
  }

  /** The value `parse_dict` ends with for key `k`: that of the last piece
      `k=v`, or what `acc` had before. */
  function LastValueFor(acc: Dict, parts: seq<string>, k: string): Option<Value>
    decreases |parts|
  {
    if parts == [] then DictGet(acc, k)
    else
      var kv := Split(parts[|parts| - 1], '=');
      if |kv| == 2 && kv[0] == k then Some(VStr(kv[1])) else LastValueFor(acc, parts[..|parts| - 1], k)
  }

  lemma {:induction false} DictPiecesSnoc(acc: Dict, parts: seq<string>, last: string)
    ensures DictPieces(acc, parts + [last]) == DictPiece(DictPieces(acc, parts), last)
    decreases |parts|
  {
    if parts == [] {
      assert [last][1..] == [];
    } else {
      assert (parts + [last])[1..] == parts[1..] + [last];
      DictPiecesSnoc(DictPiece(acc, parts[0]), parts[1..], last);
    }
  }

  /** A later piece with the same key wins; a key no piece names keeps what it had. */
  lemma {:induction false} DictPiecesLastWins(acc: Dict, parts: seq<string>, k: string)
    ensures DictGet(DictPieces(acc, parts), k) == LastValueFor(acc, parts, k)
    decreases |parts|
  {
    if parts != [] {
      var init, last := parts[..|parts| - 1], parts[|parts| - 1];
      assert parts == init + [last];
      DictPiecesSnoc(acc, init, last);
      DictPiecesLastWins(acc, init, k);
      var kv := Split(last, '=');
      if |kv| == 2 {
        DictPutGet(DictPieces(acc, init), kv[0], VStr(kv[1]), k);
      }
    }
  }

  /** `parse_dict`: a dict passes through; a string is read piece by piece. */
  function ParseDict(v: Value): (r: Result<Value>)
    ensures v.VDict? ==> r == Ok(v)
  {
    match v
    case VDict(_) => Ok(v)
    case VStr(s) => Ok(VDict(DictPieces([], Split(s, ','))))
    case _ => Fail(AttributeError, "'" + TypeName(v) + "' object has no attribute 'split'")
  }

  /** The loop of `parse_dict` on a string. */
  method ParseDictLoop(s: string) returns (result: Dict)
    ensures result == DictPieces([], Split(s, ','))
    ensures forall k :: DictGet(result, k) == LastValueFor([], Split(s, ','), k)
  {
    var parts := Split(s, ',');
    result := [];
    var i := 0;
    while i < |parts|
      invariant 0 <= i <= |parts|
      invariant DictPieces(result, parts[i..]) == DictPieces([], parts)
    {
      assert parts[i..][1..] == parts[i + 1..];
      var kv := Split(parts[i], '=');
      if |kv| == 2 {
        result := DictPut(result, kv[0], VStr(kv[1]));
      }
      i := i + 1;
    }
    assert parts[i..] == [];
    forall k ensures DictGet(result, k) == LastValueFor([], parts, k) {
      DictPiecesLastWins([], parts, k);
    }
  }

  /** `int(arg)` inside `parse_arg_to_arg_result`. */
  function ToInt(v: Value): (r: Result<Value>)
    ensures r.Ok? ==> r.value.VInt?
  {
    match v
    case VInt(_) => Ok(v)
    case VBool(b) => Ok(VInt(if b then 1 else 0))
    case VUuid(u) => Ok(VInt(u.value))
    case VStr(s) =>
      (match ParseInt(s)
       case Some(n) => Ok(VInt(n))
       case None => Fail(InvalidCommandError, "Invalid integer value: '" + s + "'"))
    case _ => Fail(TypeError, IntArgumentMessage + TypeName(v) + "'")
  }

  const IntArgumentMessage: string :=
    "int() argument must" + " be a string, a" + " bytes-like object" + " or a real number," + " not '"

  /** `datetime.date.fromisoformat(arg)` */
  function ToDate(v: Value): (r: Result<Value>)
    ensures r.Ok? ==> r.value.VDate? && ValidDate(r.value.d)
  {
    match v
    case VStr(s) =>
      var d :- ParseIso(s);
      Ok(VDate(d))
    case _ => Fail(TypeError, "fromisoformat: argument must be str")
  }

  /** `parse_arg_to_arg_result` */
  function ParseArgToArgResult(meta: ArgMetaConfig, arg: Value): (r: Result<Value>)
    ensures arg == VNone ==> r == Ok(VNone)
    ensures arg != VNone && meta.parserFunc.Some? ==> r == meta.parserFunc.value(arg)
  {
    if arg == VNone then Ok(VNone)
    else if meta.parserFunc.Some? then meta.parserFunc.value(arg)
    else
      match meta.typ
      case Text => Ok(VStr(PyStr(arg)))
      case Int => ToInt(arg)
      case Bool =>
        var b :- ConvertCommandPartToBool(arg);
        Ok(VBool(b))
      case ListByComma => ParseList(arg)
      case DictByCommaAndEqual => ParseDict(arg)
      case DateArg => ToDate(arg)
  }

  function CantParseMessage(name: string, arg: Value): string
  {
    "Can't parse argument `" + name + "`: " + PyStr(arg)
  }

  function TokenAt(tokens: seq<Option<string>>, index: nat): Value
  {
    if index < |tokens| && tokens[index].Some? then VStr(tokens[index].value) else VNone
  }

  /** One pass of the loop of `ArgsConfig.parse` for the argument at `index`:
      `Ok(None)` when the argument is skipped (`continue`), else the value
      stored under its name. */
  function ParseStep(meta: ArgMetaConfig, index: nat, token: Value, nonInteractive: bool, dict: Dict, console: Console)
    : Result<Option<Value>>
  {
    var a1 :- HandleDefault(meta, token, nonInteractive);
    if a1 == VNone && nonInteractive then Ok(None)
    else
      var a2 :- HandleInput(meta, a1, dict, index, console);
      var a3 :- HandleDefault(meta, a2, false);
      if Falsy(a3) && meta.required then Fail(InvalidCommandError, MissingMessage(meta.name))
      else
        var v :- CoerceAndValidate(meta, a3);
        Ok(Some(v))
  }

  /** The end of a pass: coercion, whose failure is re-raised with the same
      kind and a message naming the argument, then the validator. */
  function CoerceAndValidate(meta: ArgMetaConfig, arg: Value): Result<Value>
  {
    var coerced := ParseArgToArgResult(meta, arg);
    if coerced.Err? then Err(Error(coerced.error.kind, CantParseMessage(meta.name, arg)))
    else if meta.validatorFunc.Some? then meta.validatorFunc.value(coerced.value)
    else coerced
  }

  /** The loop of `ArgsConfig.parse` from argument `index` on, with `dict`
      holding what earlier arguments stored. */
  function ParseFrom(args: seq<ArgMetaConfig>, tokens: seq<Option<string>>, nonInteractive: bool, console: Console,
                     index: nat, dict: Dict): Result<Dict>
    requires index <= |args|
    decreases |args| - index
  {
    if index == |args| then Ok(dict)
    else
      var step :- ParseStep(args[index], index, TokenAt(tokens, index), nonInteractive, dict, console);
      ParseFrom(args, tokens, nonInteractive, console, index + 1, Store(dict, args[index].name, step))
  }

  /** `result_dict[name] = value`, or nothing for a skipped argument. */
  function Store(dict: Dict, name: string, step: Option<Value>): Dict
  {
    if step.Some? then DictPut(dict, name, step.value) else dict
  }

  /** The integer pydantic's lax mode reads an `int` field's input as:
      an int itself, or a bool as 0 or 1. */
  function LaxInt(v: Value): Option<int>
  {
    match v
    case VInt(i) => Some(i)
    case VBool(b) => Some(if b then 1 else 0)
    case _ => None
  }

  /** An `AfterValidator` run by pydantic: a `ValueError` it raises becomes a
      validation error; any other exception passes through unchanged. */
  function AfterValidated(after: Value -> Result<Value>, v: Value): (r: Result<Value>)
    ensures r.Ok? <==> after(v).Ok?
    ensures r.Ok? ==> r.value == after(v).value
    ensures r.Err? && after(v).error.kind == ValueError ==> r.error == Error(ValidationError, "Value error, " + after(v).error.msg)
    ensures r.Err? && after(v).error.kind != ValueError ==> r.error == after(v).error
  {
    match after(v)
    case Ok(w) => Ok(w)
    case Err(e) => if e.kind == ValueError then Fail(ValidationError, "Value error, " + e.msg) else Err(e)
  }

  /** An optional bool field: `None` and bools pass, 0 and 1 are read as
      false and true. */
  function CoerceBool(v: Value): (r: Result<Value>)
    ensures r.Ok? <==> v.VNone? || v.VBool? || (v.VInt? && (v.i == 0 || v.i == 1))
    ensures r.Ok? ==> r.value == if v.VInt? then VBool(v.i == 1) else v
    ensures r.Err? ==> r.error.kind == ValidationError
  {
    match v
    case VNone => Ok(v)
    case VBool(_) => Ok(v)
    case VInt(i) => if i == 0 || i == 1 then Ok(VBool(i == 1)) else Fail(ValidationError, "Input should be a valid boolean")
    case _ => Fail(ValidationError, "Input should be a valid boolean")
  }

  /** A UUID field: a UUID passes, and text is read by the UUID parser. */
  function CoerceUuid(parse: string -> Option<Uuid>, v: Value): (r: Result<Value>)
    ensures r.Ok? <==> v.VUuid? || (v.VStr? && parse(v.s).Some?)
    ensures r.Ok? ==> r.value == if v.VUuid? then v else VUuid(parse(v.s).value)
    ensures r.Err? ==> r.error.kind == ValidationError
  {
    match v
    case VUuid(_) => Ok(v)
    case VStr(s) =>
      (match parse(s)
       case Some(u) => Ok(VUuid(u))
       case None => Fail(ValidationError, "Input should be a valid UUID"))
    case _ => Fail(ValidationError, "UUID input should be a string, bytes or UUID object")
  }

  /** pydantic's (lax) validation of a value stored for a field of type `typ`. */
  function CoerceField(typ: FieldType, v: Value): (r: Result<Value>)
    ensures typ.AnyType? ==> r == Ok(v)
    ensures typ.OptionalBool? ==>
              (r.Ok? <==> v.VNone? || v.VBool? || (v.VInt? && (v.i == 0 || v.i == 1)))
    ensures typ.OptionalBool? && r.Ok? ==>
              r.value == if v.VInt? then VBool(v.i == 1) else v
    ensures typ.IntField? && LaxInt(v).None? ==> r.Err? && r.error.kind == ValidationError
    ensures typ.IntField? && LaxInt(v).Some? ==>
              r == if typ.after.None? then Ok(VInt(LaxInt(v).value)) else AfterValidated(typ.after.value, VInt(LaxInt(v).value))
    ensures typ.UuidField? ==> (r.Ok? <==> v.VUuid? || (v.VStr? && typ.parse(v.s).Some?))
    ensures typ.UuidField? && r.Ok? ==> r.value == if v.VUuid? then v else VUuid(typ.parse(v.s).value)
    ensures !typ.IntField? && r.Err? ==> r.error.kind == ValidationError
  {
    match typ
    case AnyType => Ok(v)
    case OptionalBool => CoerceBool(v)
    case IntField(after) =>
      (match LaxInt(v)
       case None => Fail(ValidationError, "Input should be a valid integer")
       case Some(n) => if after.None? then Ok(VInt(n)) else AfterValidated(after.value, VInt(n)))
    case UuidField(parse) => CoerceUuid(parse, v)
  }

  /** What a result field becomes: the stored value, validated against the
      field's type; else its default, which pydantic does not validate; else
      a "Field required" validation error. */
  function FieldResult(dict: Dict, f: ResultField): (r: Result<Value>)
    ensures HasKey(dict, f.name) ==> r == CoerceField(f.typ, DictGet(dict, f.name).value)
    ensures !HasKey(dict, f.name) ==> r == if f.default.Some? then Ok(f.default.value) else Fail(ValidationError, "Field required: " + f.name)
  {
    match DictGet(dict, f.name)
    case Some(v) => CoerceField(f.typ, v)
    case None => if f.default.Some? then Ok(f.default.value) else Fail(ValidationError, "Field required: " + f.name)
  }

  /** `result_cls(**result_dict)`: every field is validated, in declaration
      order; the result holds each field's value, and the error is the
      first failing field's. Stored entries the result class has no field
      for are ignored. */
  function Instantiate(shape: ResultShape, dict: Dict): (r: Result<Dict>)
    ensures r.Ok? <==> forall i :: 0 <= i < |shape| ==> FieldResult(dict, shape[i]).Ok?
    ensures r.Ok? ==> |r.value| == |shape| && forall i :: 0 <= i < |shape| ==> r.value[i] == (shape[i].name, FieldResult(dict, shape[i]).value)
    ensures r.Err? ==> exists i :: 0 <= i < |shape| && FieldResult(dict, shape[i]) == Err(r.error)
                                    && forall j :: 0 <= j < i ==> FieldResult(dict, shape[j]).Ok?
    decreases |shape|
  {
    if shape == [] then Ok([])
    else
      match FieldResult(dict, shape[0])
      case Err(e) => Err(e)
      case Ok(v) =>
        assert forall i :: 1 <= i < |shape| ==> shape[i] == shape[1..][i - 1];
        match Instantiate(shape[1..], dict)
        case Err(e) =>
          ghost var k :| 0 <= k < |shape[1..]| && FieldResult(dict, shape[1..][k]) == Err(e)
                         && forall j :: 0 <= j < k ==> FieldResult(dict, shape[1..][j]).Ok?;
          assert FieldResult(dict, shape[k + 1]) == Err(e);
          Err(e)
        case Ok(rest) => Ok([(shape[0].name, v)] + rest)
  }

  /** `ArgsConfig.parse` as a whole. */
  function ParseSpec(config: ArgsConfigT, tokens: seq<Option<string>>, nonInteractive: bool, console: Console): Result<Dict>
  {
    match PreValidation(config.args, tokens, nonInteractive)
    case Some(e) => Err(e)
    case None =>
      var dict :- ParseFrom(config.args, tokens, nonInteractive, console, 0, []);
      Instantiate(config.shape, dict)
  }

  /** `ArgsConfig.parse`: the loop over the argument descriptions that fills
      `result_dict`, then the result object. */
  method Parse(config: ArgsConfigT, tokens: seq<Option<string>>, nonInteractive: bool, console: Console)
    returns (r: Result<Dict>)
    ensures r == ParseSpec(config, tokens, nonInteractive, console)
  {
    var pre := PreValidation(config.args, tokens, nonInteractive);
    if pre.Some? {
      return Err(pre.value);
    }
    var args := config.args;
    var dict: Dict := [];
    var index := 0;
    while index < |args|
      invariant 0 <= index <= |args|
      invariant ParseFrom(args, tokens, nonInteractive, console, index, dict) == ParseFrom(args, tokens, nonInteractive, console, 0, [])
    {
      var step := ParseStep(args[index], index, TokenAt(tokens, index), nonInteractive, dict, console);
      if step.Err? {
        return Err(step.error);
      }
      assert ParseFrom(args, tokens, nonInteractive, console, index, dict)
             == ParseFrom(args, tokens, nonInteractive, console, index + 1, Store(dict, args[index].name, step.value));
      if step.value.Some? {
        dict := DictPut(dict, args[index].name, step.value.value);
      }
      index := index + 1;
    }
    r := Instantiate(config.shape, dict);
  }

  /** The token `reparse` feeds back for a field value: `str(v)` when it is
      truthy, `None` otherwise. */
  function ReparseToken(v: Value): Option<string>
  {
    if Falsy(v) then None else Some(PyStr(v))
  }

  /** The tokens `reparse` builds from an earlier result, one per argument;
      a field the result lacks is an `AttributeError`. */
  function ReparseTokens(args: seq<ArgMetaConfig>, parsed: Dict): (r: Result<seq<Option<string>>>)
    ensures r.Ok? <==> forall i :: 0 <= i < |args| ==> HasKey(parsed, args[i].name)
    ensures r.Ok? ==> |r.value| == |args|
    ensures r.Ok? ==> forall i :: 0 <= i < |args| ==> r.value[i] == ReparseToken(DictGet(parsed, args[i].name).value)
  {
    if args == [] then Ok([])
    else
      var got := DictGet(parsed, args[0].name);
      if got.None? then Fail(AttributeError, "object has no attribute '" + args[0].name + "'")
      else
        var rest :- ReparseTokens(args[1..], parsed);
        assert forall i :: 1 <= i < |args| ==> args[i] == args[1..][i - 1];
        Ok([ReparseToken(got.value)] + rest)
  }

  function Reparse(config: ArgsConfigT, parsed: Dict, nonInteractive: bool, console: Console): Result<Dict>
  {
    var tokens :- ReparseTokens(config.args, parsed);
    ParseSpec(config, tokens, nonInteractive, console)
  }

  // ---------------------------------------------------------------- properties

  /** More tokens than declared arguments fail before any default or prompt,
      in either mode. */
  lemma TooManyArguments(config: ArgsConfigT, tokens: seq<Option<string>>, nonInteractive: bool, console: Console)
    requires |tokens| > |config.args|
    ensures ParseSpec(config, tokens, nonInteractive, console) == Err(Error(InvalidCommandError, "Too many arguments provided."))
  {
  }

  /** Too few tokens for the required arguments fail only in non-interactive
      mode; interactive mode goes on to ask. */
  lemma NotEnoughArguments(config: ArgsConfigT, tokens: seq<Option<string>>, console: Console)
    requires |tokens| <= |config.args|
    ensures |tokens| < RequiredCount(config.args) ==>
              ParseSpec(config, tokens, true, console) == Err(Error(InvalidCommandError, "Not enough arguments provided."))
    ensures PreValidation(config.args, tokens, false).None?
  {
  }

  function Names(args: seq<ArgMetaConfig>): (r: seq<string>)
    ensures |r| == |args| && forall i :: 0 <= i < |args| ==> r[i] == args[i].name
  {
    seq(|args|, i requires 0 <= i < |args| => args[i].name)
  }

  predicate DistinctNames(args: seq<ArgMetaConfig>)
  {
    forall i, j :: 0 <= i < j < |args| ==> args[i].name != args[j].name
  }

  /** A step never skips in interactive mode; in non-interactive mode it
      skips exactly when the value after defaults is `None`. */
  lemma SkipOnlyOnNone(meta: ArgMetaConfig, index: nat, token: Value, nonInteractive: bool, dict: Dict, console: Console)
    ensures ParseStep(meta, index, token, nonInteractive, dict, console) == Ok(None) <==>
              nonInteractive && HandleDefault(meta, token, true) == Ok(VNone)
  {
  }

  /** Storing the next argument's name, new since the names are distinct,
      extends the stored keys by that name. */
  lemma PutNextName(args: seq<ArgMetaConfig>, index: nat, dict: Dict, v: Value)
    requires index < |args| && DistinctNames(args) && DictKeys(dict) == Names(args)[..index]
    ensures DictKeys(DictPut(dict, args[index].name, v)) == Names(args)[..index + 1]
  {
    var name := args[index].name;
    assert !HasKey(dict, name) by {
      forall k | 0 <= k < |dict| ensures dict[k].0 != name {
        assert DictKeys(dict)[k] == Names(args)[k];
      }
    }
    assert Names(args)[..index + 1] == Names(args)[..index] + [name];
  }

  /** A successful parse from `index` is the parse from the next argument
      after storing this one's step. */
  lemma ParseFromUnfold(args: seq<ArgMetaConfig>, tokens: seq<Option<string>>, nonInteractive: bool, console: Console,
                        index: nat, dict: Dict)
    requires index < |args| && ParseFrom(args, tokens, nonInteractive, console, index, dict).Ok?
    ensures var step := ParseStep(args[index], index, TokenAt(tokens, index), nonInteractive, dict, console);
            && step.Ok?
            && ParseFrom(args, tokens, nonInteractive, console, index, dict)
               == ParseFrom(args, tokens, nonInteractive, console, index + 1, Store(dict, args[index].name, step.value))
  {
  }

  /** In interactive mode a successful parse stores every argument, in
      declaration order. */
  lemma {:induction false} InteractiveStoresEveryArgument(args: seq<ArgMetaConfig>, tokens: seq<Option<string>>, console: Console,
                                                           index: nat, dict: Dict)
    requires index <= |args| && DistinctNames(args)
    requires DictKeys(dict) == Names(args)[..index]
    requires ParseFrom(args, tokens, false, console, index, dict).Ok?
    ensures DictKeys(ParseFrom(args, tokens, false, console, index, dict).value) == Names(args)
    decreases |args| - index
  {
    if index == |args| {
      assert Names(args)[..index] == Names(args);
    } else {
      var step := ParseStep(args[index], index, TokenAt(tokens, index), false, dict, console);
      ParseFromUnfold(args, tokens, false, console, index, dict);
      SkipOnlyOnNone(args[index], index, TokenAt(tokens, index), false, dict, console);
      assert step.Ok? && step.value.Some?;
      var name := args[index].name;
      var dict' := Store(dict, name, step.value);
      PutNextName(args, index, dict, step.value.value);
      InteractiveStoresEveryArgument(args, tokens, console, index + 1, dict');
    }
  }

  /** A required argument whose value stays falsy (no default, no factory,
      no prompt) is reported missing in either mode. */
  lemma RequiredMissing(meta: ArgMetaConfig, index: nat, token: Value, nonInteractive: bool, dict: Dict, console: Console)
    requires meta.required && Falsy(token)
    requires meta.default == VNone && meta.defaultFactory.None? && !meta.allowInputOnEmpty
    ensures ParseStep(meta, index, token, nonInteractive, dict, console) == Fail(InvalidCommandError, MissingMessage(meta.name))
  {
  }

  /** A value produced by a default factory, even a falsy one like `[]`,
      is not skipped and goes on to the interactive step. */
  lemma FactoryValueNotSkipped(meta: ArgMetaConfig, index: nat, token: Value, dict: Dict, console: Console)
    requires Falsy(token) && meta.default == VNone && meta.defaultFactory.Some?
    requires meta.defaultFactory.value() != VNone
    ensures ParseStep(meta, index, token, true, dict, console) != Ok(None)
  {
  }

  /** A supplied (truthy) token skips defaults and prompts and goes
      straight to coercion and validation. */
  lemma SuppliedTokenStep(meta: ArgMetaConfig, index: nat, token: Value, nonInteractive: bool, dict: Dict, console: Console)
    requires !Falsy(token)
    ensures ParseStep(meta, index, token, nonInteractive, dict, console)
            == match CoerceAndValidate(meta, token)
               case Ok(v) => Ok(Some(v))
               case Err(e) => Err(e)
  {
  }

  /** When coercing a supplied value fails, the error keeps its kind and
      takes the message "Can't parse argument `name`: value". */
  lemma CoercionFailureRetagged(meta: ArgMetaConfig, index: nat, token: Value, nonInteractive: bool, dict: Dict, console: Console)
    requires !Falsy(token)
    requires ParseArgToArgResult(meta, token).Err?
    ensures ParseStep(meta, index, token, nonInteractive, dict, console)
            == Err(Error(ParseArgToArgResult(meta, token).error.kind, CantParseMessage(meta.name, token)))
  {
  }

  /** The validator runs even on a value that stayed `None`: an optional
      argument with no token, no default and no prompt reaches it in
      interactive mode. */
  lemma ValidatorSeesNone(meta: ArgMetaConfig, index: nat, dict: Dict, console: Console)
    requires !meta.required && meta.default == VNone && meta.defaultFactory.None? && !meta.allowInputOnEmpty
    requires meta.validatorFunc.Some?
    ensures ParseStep(meta, index, VNone, false, dict, console)
            == match meta.validatorFunc.value(VNone)
               case Ok(v) => Ok(Some(v))
               case Err(e) => Err(e)
  {
  }

  /** The prompt runs only for a falsy value with `allow_input_on_empty`;
      with no mode configured only BOOL and TEXT arguments prompt. */
  lemma InteractiveModeFallback(meta: ArgMetaConfig)
    ensures meta.interactiveMode.None? && meta.typ == Bool ==> EffectiveMode(meta) == Some(BoolInput)
    ensures meta.interactiveMode.None? && meta.typ == Text ==> EffectiveMode(meta) == Some(TextInput)
    ensures meta.interactiveMode.None? && meta.typ != Bool && meta.typ != Text ==> EffectiveMode(meta).None?
    ensures meta.interactiveMode.Some? ==> EffectiveMode(meta) == meta.interactiveMode
  {
  }

  /** The yes/no dialog gives `None` (skip) only for an optional argument,
      and otherwise the text "True" or "False". */
  lemma BoolDialogSkipOnlyIfOptional(meta: ArgMetaConfig, arg: Value, dict: Dict, index: nat, console: Console)
    requires Falsy(arg) && meta.allowInputOnEmpty && EffectiveMode(meta) == Some(BoolInput)
    ensures HandleInput(meta, arg, dict, index, console).Ok?
    ensures var v := HandleInput(meta, arg, dict, index, console).value;
            v == VNone || v == VStr("True") || v == VStr("False")
    ensures meta.required ==> HandleInput(meta, arg, dict, index, console).value != VNone
  {
    var opts := BoolDialogOptions(meta.required);
    var picked := opts[console.choice(index) % |opts|];
    if meta.required {
      assert opts == [Some(true), Some(false)];
      assert picked.Some?;
    }
  }

  /** A custom prompt sees the values stored by the earlier arguments; a
      custom or select prompt with nothing configured is an error. */
  lemma CustomAndSelectPrompts(meta: ArgMetaConfig, arg: Value, dict: Dict, index: nat, console: Console)
    requires Falsy(arg) && meta.allowInputOnEmpty
    ensures EffectiveMode(meta) == Some(Custom) && meta.customHandler.Some? ==>
              HandleInput(meta, arg, dict, index, console) == Ok(meta.customHandler.value(dict, console.text(index)))
    ensures EffectiveMode(meta) == Some(Custom) && meta.customHandler.None? ==>
              HandleInput(meta, arg, dict, index, console).Err? && HandleInput(meta, arg, dict, index, console).error.kind == InvalidCommandError
    ensures EffectiveMode(meta) == Some(SelectFromOptions) ==>
              (HandleInput(meta, arg, dict, index, console).Ok? <==> meta.interactiveOptions != [])
    ensures EffectiveMode(meta) == Some(SelectFromOptions) && meta.interactiveOptions != [] ==>
              HandleInput(meta, arg, dict, index, console).value in meta.interactiveOptions
  {
  }

  /** An optional argument without a token whose factory gives a falsy
      value and whose prompt is custom: the prompt's answer, or the
      factory's value again when the answer is falsy, is coerced and
      validated, in either mode. */
  lemma CustomPromptStep(meta: ArgMetaConfig, index: nat, nonInteractive: bool, dict: Dict, console: Console)
    requires !meta.required && meta.default == VNone && meta.defaultFactory.Some?
    requires Falsy(meta.defaultFactory.value()) && meta.defaultFactory.value() != VNone
    requires meta.allowInputOnEmpty && meta.interactiveMode == Some(Custom) && meta.customHandler.Some?
    ensures var answer := meta.customHandler.value(dict, console.text(index));
            var v := CoerceAndValidate(meta, if Falsy(answer) then meta.defaultFactory.value() else answer);
            ParseStep(meta, index, VNone, nonInteractive, dict, console) == if v.Ok? then Ok(Some(v.value)) else Err(v.error)
  {
  }

  /** A LIST_BY_COMMA argument without a parser turns text into the
      list of its non-empty comma-separated pieces. */
  lemma ListArgCoerces(meta: ArgMetaConfig, s: string)
    requires meta.typ == ListByComma && meta.parserFunc.None?
    ensures ParseArgToArgResult(meta, VStr(s)) == Ok(VList(StrItems(NonEmpty(Split(s, ',')))))
  {
  }

  /** INT coercion of text Python's `int()` rejects is an
      `InvalidCommandError` naming the text. */
  lemma IntRejectsNonNumeric(meta: ArgMetaConfig, s: string)
    requires meta.typ == Int && meta.parserFunc.None?
    ensures ParseInt(s).None? ==> ParseArgToArgResult(meta, VStr(s)) == Fail(InvalidCommandError, "Invalid integer value: '" + s + "'")
    ensures ParseInt(s).Some? ==> ParseArgToArgResult(meta, VStr(s)) == Ok(VInt(ParseInt(s).value))
  {
  }

  /** `reparse` turns False, 0, "", [] and {} into a missing token. */
  lemma ReparseDropsFalsy()
    ensures ReparseToken(VBool(false)) == None && ReparseToken(VInt(0)) == None && ReparseToken(VStr("")) == None
    ensures ReparseToken(VList([])) == None && ReparseToken(VDict([])) == None
    ensures ReparseToken(VBool(true)) == Some("True")
  {
  }
}
