/** The list engine of `sort_and_filter.py`: the list modes, the argument
    schema of the list commands with its query validators and prompt guards,
    and `filter_iterable`, which keeps the items matching a filter query and
    orders them by a sequence of keys.

    Python's `getattr(item, name)` is an accessor passed in: `attr(item, name)`
    is `None` when the item has no such attribute. */
module SortAndFilter {
  import opened Base
  import opened PyText
  import opened Values
  import opened FieldMeta
  import opened ModelMeta
  import opened Sorting
  import opened PyOrder
  import opened ArgsConfig

  // ---------------------------------------------------------------- modes

  /** `ListOrderModeEnum`; as a `StrEnum` its members are the strings "default" and "custom". */
  datatype ListOrderMode = OrderDefault | OrderCustom

  /** `ListFilterModeEnum`: "all" and "filter". */
  datatype ListFilterMode = FilterAll | FilterMatching

  function OrderModeValue(m: ListOrderMode): string
  {
    match m
    case OrderDefault => "default"
    case OrderCustom => "custom"
  }

  function FilterModeValue(m: ListFilterMode): string
  {
    match m
    case FilterAll => "all"
    case FilterMatching => "filter"
  }

  const OrderModeValues: seq<string> := ["default", "custom"]
  const FilterModeValues: seq<string> := ["all", "filter"]

  /** The `parser_func` of the two mode arguments, `lambda x: Enum(x) if x
      else None`: a falsy value is no mode, a member's value is that member,
      anything else is a `ValueError`. */
  function ParseEnum(enumName: string, members: seq<string>, v: Value): (r: Result<Value>)
    ensures Falsy(v) ==> r == Ok(VNone)
    ensures r.Ok? && r.value != VNone <==> !Falsy(v) && v.VStr? && v.s in members
    ensures r.Ok? && r.value != VNone ==> r.value == v
    ensures r.Err? ==> r == Fail(ValueError, Repr(v) + " is not a valid " + enumName)
  {
    if Falsy(v) then Ok(VNone)
    else if v.VStr? && v.s in members then Ok(v)
    else Fail(ValueError, Repr(v) + " is not a valid " + enumName)
  }

  function ParseOrderMode(v: Value): Result<Value>
  {
    ParseEnum("ListOrderModeEnum", OrderModeValues, v)
  }

  function ParseFilterMode(v: Value): Result<Value>
  {
    ParseEnum("ListFilterModeEnum", FilterModeValues, v)
  }

  /** Each mode's value parses back to itself; the values of the two enums
      are disjoint, so a filter mode is never taken for an order mode. */
  lemma ModeValuesParse(o: ListOrderMode, f: ListFilterMode)
    ensures ParseOrderMode(VStr(OrderModeValue(o))) == Ok(VStr(OrderModeValue(o)))
    ensures ParseFilterMode(VStr(FilterModeValue(f))) == Ok(VStr(FilterModeValue(f)))
    ensures ParseOrderMode(VStr(FilterModeValue(f))).Err?
    ensures ParseFilterMode(VStr(OrderModeValue(o))).Err?
  {
    OrderModeParses(o);
    FilterModeParses(f);
  }

  lemma OrderModeParses(o: ListOrderMode)
    ensures ParseOrderMode(VStr(OrderModeValue(o))) == Ok(VStr(OrderModeValue(o)))
    ensures OrderModeValue(o) !in FilterModeValues
  {
    assert OrderModeValue(o) in OrderModeValues;
  }

  lemma FilterModeParses(f: ListFilterMode)
    ensures ParseFilterMode(VStr(FilterModeValue(f))) == Ok(VStr(FilterModeValue(f)))
    ensures FilterModeValue(f) !in OrderModeValues
  {
    assert FilterModeValue(f) in FilterModeValues;
  }

  // ---------------------------------------------------------------- prompt guards

  /** The custom handlers of the two query arguments: the answer to the
      prompt when the mode stored earlier in the parse is `mode`, else "".
      The prompt's text is the console's answer. */
  function PromptIfMode(parsed: Dict, modeKey: string, mode: string, answer: string): Value
  {
    if DictGet(parsed, modeKey) == Some(VStr(mode)) then VStr(answer) else VStr("")
  }

  /** `value_interactive_custom_i_order_query_i_wrapper` */
  function OrderQueryHandler(): (Dict, string) -> Value
  {
    (parsed: Dict, answer: string) => PromptIfMode(parsed, "order_mode", "custom", answer)
  }

  /** `value_interactive_custom_i_filter_query_i_wrapper` */
  function FilterQueryHandler(): (Dict, string) -> Value
  {
    (parsed: Dict, answer: string) => PromptIfMode(parsed, "filter_mode", "filter", answer)
  }

  // ---------------------------------------------------------------- query validators

  /** One item of the order-query validator: the key without its leading
      "-"s resolved to a field name, with one "-" put back when the item
      started with one. */
  function ValidateOrderItem(config: FieldsMetaConfig, item: Value): Result<string>
  {
    match item
    case VStr(s) =>
      var key := LStripChar(s, '-');
      (match GetFieldNameFact(config, key)
       case Err(_) => Fail(KeyError, "Ordering by '" + key + "' is not allowed.")
       case Ok(fact) => Ok(if StartsWith(s, "-") then "-" + fact else fact))
    case _ => Fail(AttributeError, "'" + TypeName(item) + "' object has no attribute 'lstrip'")
  }

  /** The validator applied to every item: the first failing item's error,
      or the validated items. */
  function ValidateOrderItems(config: FieldsMetaConfig, items: seq<Value>): (r: Result<seq<string>>)
    ensures r.Ok? <==> forall i :: 0 <= i < |items| ==> ValidateOrderItem(config, items[i]).Ok?
    ensures r.Ok? ==> |r.value| == |items| && forall i :: 0 <= i < |items| ==> ValidateOrderItem(config, items[i]) == Ok(r.value[i])
    ensures r.Err? ==> exists i :: 0 <= i < |items| && ValidateOrderItem(config, items[i]) == Err(r.error)
                                   && forall j :: 0 <= j < i ==> ValidateOrderItem(config, items[j]).Ok?
  {
    if items == [] then Ok([])
    else
      var head :- ValidateOrderItem(config, items[0]);
      assert forall i :: 1 <= i < |items| ==> items[1..][i - 1] == items[i];
      var rest :- ValidateOrderItems(config, items[1..]);
      Ok([head] + rest)
  }

  /** `validate_order_query_i_wrapper(model)`: the value is iterated (a
      string by character, a dict by key) and every item validated. */
  function ValidateOrderQuery(config: FieldsMetaConfig, value: Value): Result<Value>
  {
    match Iterate(value)
    case None => Fail(TypeError, NotIterableMessage(value))
    case Some(items) =>
      var names :- ValidateOrderItems(config, items);
      Ok(VList(StrItems(names)))
  }

  lemma ValidateOrderItemsStep(config: FieldsMetaConfig, items: seq<Value>, i: nat)
    requires i < |items|
    ensures var item := ValidateOrderItem(config, items[i]);
            ValidateOrderItems(config, items[i..])
            == if item.Err? then Err(item.error) else Prepend([item.value], ValidateOrderItems(config, items[i + 1..]))
  {
    assert items[i..][0] == items[i] && items[i..][1..] == items[i + 1..];
  }

  /** The loop of the order-query validator, building `new_list`. */
  method ValidateOrderQueryLoop(config: FieldsMetaConfig, value: Value) returns (r: Result<Value>)
    ensures r == ValidateOrderQuery(config, value)
  {
    var it := Iterate(value);
    if it.None? {
      return Fail(TypeError, NotIterableMessage(value));
    }
    var items := it.value;
    var newList: seq<string> := [];
    var i := 0;
    assert items[0..] == items;
    PrependEmpty(ValidateOrderItems(config, items));
    while i < |items|
      invariant 0 <= i <= |items|
      invariant ValidateOrderItems(config, items) == Prepend(newList, ValidateOrderItems(config, items[i..]))
    {
      ValidateOrderItemsStep(config, items, i);
      var item := ValidateOrderItem(config, items[i]);
      if item.Err? {
        assert ValidateOrderItems(config, items) == Err(item.error);
        return Err(item.error);
      }
      PrependOne(newList, item.value, ValidateOrderItems(config, items[i + 1..]));
      newList := newList + [item.value];
      i := i + 1;
    }
    assert items[i..] == [];
    assert newList + [] == newList;
    assert ValidateOrderItems(config, items) == Ok(newList);
    assert ValidateOrderQuery(config, value) == Ok(VList(StrItems(newList)));
    return Ok(VList(StrItems(newList)));
  }

  /** A validated order item names the field found for its key and keeps
      whether it asked for descending order, so the sort later reads back
      exactly that field and direction. */
  lemma OrderItemRoundTrip(config: FieldsMetaConfig, s: string)
    requires ValidateOrderItem(config, VStr(s)).Ok?
    requires var fact := GetFieldNameFact(config, LStripChar(s, '-'));
             fact.Ok? && (fact.value == [] || fact.value[0] != '-')
    ensures var fact := GetFieldNameFact(config, LStripChar(s, '-')).value;
            var out := ValidateOrderItem(config, VStr(s)).value;
            && (StartsWith(out, "-") <==> StartsWith(s, "-"))
            && LStripChar(out, '-') == fact
  {
    var fact := GetFieldNameFact(config, LStripChar(s, '-')).value;
    if StartsWith(s, "-") {
      var out := "-" + fact;
      assert out[1..] == fact;
    } else {
      assert fact == [] || fact[0] != '-';
    }
  }

  /** Field names that resolve to themselves make the order validator
      idempotent: validating a validated query changes nothing. */
  lemma ValidateOrderItemIdempotent(config: FieldsMetaConfig, s: string)
    requires ValidateOrderItem(config, VStr(s)).Ok?
    requires var fact := GetFieldNameFact(config, LStripChar(s, '-'));
             fact.Ok? && (fact.value == [] || fact.value[0] != '-') && GetFieldNameFact(config, fact.value) == fact
    ensures var out := ValidateOrderItem(config, VStr(s)).value;
            ValidateOrderItem(config, VStr(out)) == Ok(out)
  {
    OrderItemRoundTrip(config, s);
  }

  /** The field-name lookup of a model, `get_field_name_fact`. */
  function Lookup(config: FieldsMetaConfig): string -> Result<string>
  {
    (key: string) => GetFieldNameFact(config, key)
  }

  /** Keys renamed by `lookup` to the field names they resolve to, with
      each value turned by `value(fact, v)`; a key that does not resolve is
      a `KeyError`. Later values for the same field overwrite earlier ones. */
  function RenameKeys(lookup: string -> Result<string>, entries: Dict, acc: Dict, value: (string, Value) -> Result<Value>): Result<Dict>
    decreases |entries|
  {
    if entries == [] then Ok(acc)
    else
      var key := entries[0].0;
      match lookup(key)
      case Err(_) => Fail(KeyError, "Filtering by '" + key + "' is not allowed.")
      case Ok(fact) =>
        var v :- value(fact, entries[0].1);
        RenameKeys(lookup, entries[1..], DictPut(acc, fact, v), value)
  }

  /** A value ends up in the result only under a key some entry resolves to. */
  lemma {:induction false} RenameKeysKeys(lookup: string -> Result<string>, entries: Dict, acc: Dict, value: (string, Value) -> Result<Value>, k: string)
    requires RenameKeys(lookup, entries, acc, value).Ok?
    ensures HasKey(RenameKeys(lookup, entries, acc, value).value, k)
            <==> HasKey(acc, k) || exists i :: 0 <= i < |entries| && lookup(entries[i].0) == Ok(k)
    decreases |entries|
  {
    if entries != [] {
      var fact := lookup(entries[0].0).value;
      var v := value(fact, entries[0].1).value;
      var acc' := DictPut(acc, fact, v);
      RenameKeysKeys(lookup, entries[1..], acc', value, k);
      DictPutGet(acc, fact, v, k);
      ResolvesShift(lookup, entries, k);
    }
  }

  lemma ResolvesShift(lookup: string -> Result<string>, entries: Dict, k: string)
    requires entries != []
    ensures (exists i :: 0 <= i < |entries| && lookup(entries[i].0) == Ok(k))
            <==> lookup(entries[0].0) == Ok(k) || exists i :: 0 <= i < |entries[1..]| && lookup(entries[1..][i].0) == Ok(k)
  {
    assert forall i :: 1 <= i < |entries| ==> entries[1..][i - 1] == entries[i];
  }

  /** Renaming succeeds exactly when every key resolves and every value is
      accepted. */
  lemma {:induction false} RenameKeysOk(lookup: string -> Result<string>, entries: Dict, acc: Dict, value: (string, Value) -> Result<Value>)
    ensures RenameKeys(lookup, entries, acc, value).Ok?
            <==> forall i :: 0 <= i < |entries| ==>
                   lookup(entries[i].0).Ok? && value(lookup(entries[i].0).value, entries[i].1).Ok?
    decreases |entries|
  {
    if entries != [] {
      assert forall i :: 1 <= i < |entries| ==> entries[1..][i - 1] == entries[i];
      var fact := lookup(entries[0].0);
      if fact.Ok? && value(fact.value, entries[0].1).Ok? {
        RenameKeysOk(lookup, entries[1..], DictPut(acc, fact.value, value(fact.value, entries[0].1).value), value);
      }
    }
  }

  /** The first key that does not resolve is the one reported, whatever follows it. */
  lemma {:induction false} RenameKeysFirstUnknown(lookup: string -> Result<string>, entries: Dict, acc: Dict, value: (string, Value) -> Result<Value>, i: nat)
    requires i < |entries| && lookup(entries[i].0).Err?
    requires forall j :: 0 <= j < i ==>
               lookup(entries[j].0).Ok? && value(lookup(entries[j].0).value, entries[j].1).Ok?
    ensures RenameKeys(lookup, entries, acc, value) == Fail(KeyError, "Filtering by '" + entries[i].0 + "' is not allowed.")
    decreases i
  {
    if i > 0 {
      assert forall j :: 1 <= j < |entries| ==> entries[1..][j - 1] == entries[j];
      var fact := lookup(entries[0].0).value;
      RenameKeysFirstUnknown(lookup, entries[1..], DictPut(acc, fact, value(fact, entries[0].1).value), value, i - 1);
    }
  }

  /** The loop shared by the two filter-query validators, building `new_dict`. */
  method RenameKeysLoop(lookup: string -> Result<string>, entries: Dict, value: (string, Value) -> Result<Value>) returns (r: Result<Dict>)
    ensures r == RenameKeys(lookup, entries, [], value)
  {
    var newDict: Dict := [];
    var i := 0;
    while i < |entries|
      invariant 0 <= i <= |entries|
      invariant RenameKeys(lookup, entries, [], value) == RenameKeys(lookup, entries[i..], newDict, value)
    {
      assert entries[i..][0] == entries[i] && entries[i..][1..] == entries[i + 1..];
      var (key, val) := entries[i];
      var fact := lookup(key);
      if fact.Err? {
        return Fail(KeyError, "Filtering by '" + key + "' is not allowed.");
      }
      var v := value(fact.value, val);
      if v.Err? {
        return Err(v.error);
      }
      newDict := DictPut(newDict, fact.value, v.value);
      i := i + 1;
    }
    assert entries[i..] == [];
    return Ok(newDict);
  }

  function KeepValue(): (string, Value) -> Result<Value>
  {
    (fact: string, v: Value) => Ok(v)
  }

  /** `validate_filter_query_i_wrapper(model)`: the keys of the parsed dict
      renamed to field names, the values kept. */
  function ValidateFilterQuery(config: FieldsMetaConfig, value: Value): (r: Result<Value>)
    ensures value.VDict? && value.entries == [] ==> r == Ok(VDict([]))
    ensures !value.VDict? ==> r == Fail(AttributeError, "'" + TypeName(value) + "' object has no attribute 'items'")
  {
    match value
    case VDict(entries) =>
      var d :- RenameKeys(Lookup(config), entries, [], KeepValue());
      Ok(VDict(d))
    case _ => Fail(AttributeError, "'" + TypeName(value) + "' object has no attribute 'items'")
  }

  /** The parse function of the first field with name `name`, as the inner
      search loop of `validate_filter_query_in_data_action` finds it. */
  function ParseFuncFor(fields: seq<FieldItemMetaConfig>, name: string): (r: Option<Value -> Result<Value>>)
    ensures (forall i :: 0 <= i < |fields| ==> fields[i].name != name) ==> r.None?
    ensures forall i :: 0 <= i < |fields| && fields[i].name == name && (forall j :: 0 <= j < i ==> fields[j].name != name)
                        ==> r == fields[i].parseFunc
  {
    if fields == [] then None
    else if fields[0].name == name then fields[0].parseFunc
    else
      assert forall i :: 1 <= i < |fields| ==> fields[1..][i - 1] == fields[i];
      ParseFuncFor(fields[1..], name)
  }

  /** The value a data-action filter query compares with: `parse_func(val)`
      when the field has one, else `val.lower()`. */
  function DataActionValue(config: FieldsMetaConfig, fact: string, v: Value): (r: Result<Value>)
    ensures ParseFuncFor(config.fields, fact).Some? ==> r == ParseFuncFor(config.fields, fact).value(v)
    ensures ParseFuncFor(config.fields, fact).None? && v.VStr? ==> r == Ok(VStr(Lower(v.s)))
  {
    match ParseFuncFor(config.fields, fact)
    case Some(p) => p(v)
    case None =>
      if v.VStr? then Ok(VStr(Lower(v.s)))
      else Fail(AttributeError, "'" + TypeName(v) + "' object has no attribute 'lower'")
  }

  /** `validate_filter_query_in_data_action` */
  function ValidateFilterQueryInDataAction(config: FieldsMetaConfig, filterQuery: Dict): Result<Dict>
  {
    RenameKeys(Lookup(config), filterQuery, [], (fact: string, v: Value) => DataActionValue(config, fact, v))
  }

  /** Every key of a validated query names a registered field, so the
      registry lookup in `filter_iterable` never raises. */
  lemma ValidatedKeysRegistered(config: FieldsMetaConfig, filterQuery: Dict, k: string)
    requires ValidateFilterQueryInDataAction(config, filterQuery).Ok?
    requires HasKey(ValidateFilterQueryInDataAction(config, filterQuery).value, k)
    ensures k in GetFieldsMetaRegistry(config)
  {
    var value := (fact: string, v: Value) => DataActionValue(config, fact, v);
    RenameKeysKeys(Lookup(config), filterQuery, [], value, k);
    var i :| 0 <= i < |filterQuery| && GetFieldNameFact(config, filterQuery[i].0) == Ok(k);
    LookupResultIsRegistered(config, filterQuery[i].0);
  }

  // ---------------------------------------------------------------- argument schema

  function OrderModeArg(): ArgMetaConfig
  {
    Arg("order_mode").(parserFunc := Some(ParseOrderMode), allowInputOnEmpty := true,
                       interactiveMode := Some(SelectFromOptions),
                       interactiveOptions := [VStr("default"), VStr("custom")])
  }

  function OrderQueryArg(config: FieldsMetaConfig): ArgMetaConfig
  {
    Arg("order_query").(typ := ListByComma, defaultFactory := Some(() => VList([])), allowInputOnEmpty := true,
                        interactiveMode := Some(Custom), customHandler := Some(OrderQueryHandler()),
                        validatorFunc := Some((v: Value) => ValidateOrderQuery(config, v)))
  }

  function FilterModeArg(): ArgMetaConfig
  {
    Arg("filter_mode").(parserFunc := Some(ParseFilterMode), allowInputOnEmpty := true,
                        interactiveMode := Some(SelectFromOptions),
                        interactiveOptions := [VStr("all"), VStr("filter")])
  }

  function FilterQueryArg(config: FieldsMetaConfig): ArgMetaConfig
  {
    Arg("filter_query").(typ := DictByCommaAndEqual, defaultFactory := Some(() => VDict([])), allowInputOnEmpty := true,
                         interactiveMode := Some(Custom), customHandler := Some(FilterQueryHandler()),
                         validatorFunc := Some((v: Value) => ValidateFilterQuery(config, v)))
  }

  /** `collect_args_config_i_for_model(model)`: four optional arguments, the
      fields of `ListIArgs` all defaulting to `None`. */
  function ListArgsConfig(meta: ModelMetaInfo): ArgsConfigT
  {
    ArgsConfigT(
      [ResultField("order_mode", Some(VNone), AnyType), ResultField("order_query", Some(VNone), AnyType),
       ResultField("filter_mode", Some(VNone), AnyType), ResultField("filter_query", Some(VNone), AnyType)],
      [OrderModeArg(), OrderQueryArg(meta.fieldsMetaConfig), FilterModeArg(), FilterQueryArg(meta.fieldsMetaConfig)])
  }

  /** Unless the order mode picked earlier is "custom", the order query is
      not asked for: it resolves to `[]` whatever the console holds. */
  lemma OrderQuerySkippedUnlessCustom(config: FieldsMetaConfig, parsed: Dict, nonInteractive: bool, console: Console)
    requires DictGet(parsed, "order_mode") != Some(VStr("custom"))
    ensures ParseStep(OrderQueryArg(config), 1, VNone, nonInteractive, parsed, console) == Ok(Some(VList([])))
  {
    var meta := OrderQueryArg(config);
    CustomPromptStep(meta, 1, nonInteractive, parsed, console);
    assert meta.customHandler.value(parsed, console.text(1)) == VStr("");
    assert ValidateOrderItems(config, []) == Ok([]);
    assert CoerceAndValidate(meta, VList([])) == Ok(VList([]));
  }

  /** With "custom" picked, the answer to the prompt is split on commas and
      validated. */
  lemma OrderQueryAskedWhenCustom(config: FieldsMetaConfig, parsed: Dict, nonInteractive: bool, console: Console)
    requires DictGet(parsed, "order_mode") == Some(VStr("custom")) && console.text(1) != ""
    ensures var answer := console.text(1);
            var step := ParseStep(OrderQueryArg(config), 1, VNone, nonInteractive, parsed, console);
            var v := ValidateOrderQuery(config, VList(StrItems(NonEmpty(Split(answer, ',')))));
            step == if v.Ok? then Ok(Some(v.value)) else Err(v.error)
  {
    var meta := OrderQueryArg(config);
    var answer := console.text(1);
    CustomPromptStep(meta, 1, nonInteractive, parsed, console);
    assert meta.customHandler.value(parsed, answer) == VStr(answer);
    var items := VList(StrItems(NonEmpty(Split(answer, ','))));
    assert meta.typ == ListByComma && meta.parserFunc.None?;
    ListArgCoerces(meta, answer);
    assert CoerceAndValidate(meta, VStr(answer)) == meta.validatorFunc.value(items);
  }

  /** Unless the filter mode picked earlier is "filter", the filter query
      resolves to `{}` without a prompt. */
  lemma FilterQuerySkippedUnlessFilter(config: FieldsMetaConfig, parsed: Dict, nonInteractive: bool, console: Console)
    requires DictGet(parsed, "filter_mode") != Some(VStr("filter"))
    ensures ParseStep(FilterQueryArg(config), 3, VNone, nonInteractive, parsed, console) == Ok(Some(VDict([])))
  {
    var meta := FilterQueryArg(config);
    CustomPromptStep(meta, 3, nonInteractive, parsed, console);
    assert meta.customHandler.value(parsed, console.text(3)) == VStr("");
    assert CoerceAndValidate(meta, VDict([])) == Ok(VDict([]));
  }

  // ---------------------------------------------------------------- the list configuration

  /** `ListConfig` */
  datatype ListConfig = ListConfig(
    orderMode: Option<ListOrderMode>,
    orderQuery: seq<string>,
    filterMode: Option<ListFilterMode>,
    filterQuery: seq<(string, string)>)

  /** `ListConfig()`: no modes, empty queries. */
  function DefaultListConfig(): ListConfig
  {
    ListConfig(None, [], None, [])
  }

  /** The `dict[str, str]` of a filter query as a dict of values. */
  function StrDict(q: seq<(string, string)>): (d: Dict)
    ensures |d| == |q| && forall i :: 0 <= i < |q| ==> d[i] == (q[i].0, VStr(q[i].1))
  {
    seq(|q|, i requires 0 <= i < |q| => (q[i].0, VStr(q[i].1)))
  }

  // ---------------------------------------------------------------- filtering

  function NoAttributeMessage(modelName: string, name: string): string
  {
    "'" + modelName + "' object has no attribute '" + name + "'"
  }

  function InNeedsStringMessage(q: Value): string
  {
    "'in <string>' requires string as left operand, not " + TypeName(q)
  }

  /** `str(v).lower()` */
  function LowerStr(v: Value): Value
  {
    VStr(Lower(PyStr(v)))
  }

  /** Whether a field value that is present and not `None` passes the query
      value `q`: EXACT compares `q` with `str(v).lower()`, PARTIAL looks for
      `q` inside it; a list-based field passes when one of its elements does. */
  function FieldMatches(f: FieldItemMetaConfig, q: Value, v: Value): Result<bool>
  {
    if f.isListBased then
      match Iterate(v)
      case None => Fail(TypeError, NotIterableMessage(v))
      case Some(elems) =>
        if f.filterMode == Exact then Ok(exists i :: 0 <= i < |elems| && q == LowerStr(elems[i]))
        else if elems == [] then Ok(false)
        else if !q.VStr? then Fail(TypeError, InNeedsStringMessage(q))
        else Ok(exists i :: 0 <= i < |elems| && Contains(Lower(PyStr(elems[i])), q.s))
    else if f.filterMode == Exact then Ok(q == LowerStr(v))
    else if !q.VStr? then Fail(TypeError, InNeedsStringMessage(q))
    else Ok(Contains(Lower(PyStr(v)), q.s))
  }

  /** The matching ignores the letter case of the field's text. */
  lemma FieldMatchesIgnoresCase(f: FieldItemMetaConfig, q: Value, s: string)
    requires !f.isListBased
    ensures FieldMatches(f, q, VStr(s)) == FieldMatches(f, q, VStr(Lower(s)))
  {
    LowerIdempotent(s);
  }

  /** An exact match is also a partial one, and the empty string matches
      every scalar partially. */
  lemma ExactImpliesPartial(f: FieldItemMetaConfig, q: string, v: Value)
    requires f.filterMode == Exact && !f.isListBased
    ensures FieldMatches(f, VStr(q), v) == Ok(true) ==> FieldMatches(f.(filterMode := Partial), VStr(q), v) == Ok(true)
    ensures FieldMatches(f.(filterMode := Partial), VStr(""), v) == Ok(true)
  {
    var t := Lower(PyStr(v));
    if FieldMatches(f, VStr(q), v) == Ok(true) {
      assert t == q;
      assert OccursAt(t, q, 0);
    }
    assert OccursAt(t, "", 0);
  }

  /** A list-based field passes exactly when one of its elements, alone in
      a list, passes. */
  lemma ListFieldMatchesSomeElement(f: FieldItemMetaConfig, q: Value, items: seq<Value>)
    requires f.isListBased && (f.filterMode == Exact || q.VStr?)
    ensures FieldMatches(f, q, VList(items)) == Ok(true)
            <==> exists i :: 0 <= i < |items| && FieldMatches(f, q, VList([items[i]])) == Ok(true)
  {
    ListFieldPasses(f, q, items);
    forall i | 0 <= i < |items|
      ensures FieldMatches(f, q, VList([items[i]])) == Ok(true) <==> ElementPasses(f, q, items[i])
    {
      ListFieldPasses(f, q, [items[i]]);
      assert [items[i]][0] == items[i];
    }
  }

  /** One element of a list-based field passing the query value. */
  predicate ElementPasses(f: FieldItemMetaConfig, q: Value, e: Value)
    requires f.filterMode == Exact || q.VStr?
  {
    if f.filterMode == Exact then q == LowerStr(e) else Contains(Lower(PyStr(e)), q.s)
  }

  lemma ListFieldPasses(f: FieldItemMetaConfig, q: Value, items: seq<Value>)
    requires f.isListBased && (f.filterMode == Exact || q.VStr?)
    ensures FieldMatches(f, q, VList(items)) == Ok(true) <==> exists i :: 0 <= i < |items| && ElementPasses(f, q, items[i])
  {
    assert Iterate(VList(items)) == Some(items);
  }

  /** An EXACT field compared with a query value that is not a string (one
      a parse function made, such as a UUID) never matches. */
  lemma ExactNonStringNeverMatches(f: FieldItemMetaConfig, q: Value, v: Value)
    requires f.filterMode == Exact && !f.isListBased && !q.VStr?
    ensures FieldMatches(f, q, v) == Ok(false)
  {
  }

  /** What one query entry requires of an item: a registered field, present
      on the item, not `None`, and passing the query value. */
  predicate EntryHolds<T>(item: T, entry: (string, Value), registry: map<string, FieldItemMetaConfig>,
                          attr: (T, string) -> Option<Value>)
  {
    && entry.0 in registry
    && attr(item, registry[entry.0].name).Some?
    && attr(item, registry[entry.0].name).value != VNone
    && FieldMatches(registry[entry.0], entry.1, attr(item, registry[entry.0].name).value) == Ok(true)
  }

  /** The inner loop of `filter_iterable` for one item: the query entries in
      order, stopping at the first that fails (`is_good = False; break`) or raises. */
  function ItemMatches<T>(item: T, query: Dict, registry: map<string, FieldItemMetaConfig>,
                          attr: (T, string) -> Option<Value>, modelName: string): Result<bool>
    decreases |query|
  {
    if query == [] then Ok(true)
    else
      var name := query[0].0;
      if name !in registry then Fail(KeyError, StrRepr(name))
      else
        var f := registry[name];
        match attr(item, f.name)
        case None => Fail(AttributeError, NoAttributeMessage(modelName, f.name))
        case Some(v) =>
          if v == VNone then Ok(false)
          else
            var m :- FieldMatches(f, query[0].1, v);
            if !m then Ok(false) else ItemMatches(item, query[1..], registry, attr, modelName)
  }

  /** The query entries are combined with AND: an item is kept exactly when
      every entry holds for it. */
  lemma {:induction false} ItemMatchesAll<T>(item: T, query: Dict, registry: map<string, FieldItemMetaConfig>,
                                            attr: (T, string) -> Option<Value>, modelName: string)
    ensures ItemMatches(item, query, registry, attr, modelName) == Ok(true)
            <==> forall k :: 0 <= k < |query| ==> EntryHolds(item, query[k], registry, attr)
    decreases |query|
  {
    if query != [] {
      ItemMatchesHead(item, query, registry, attr, modelName);
      ItemMatchesAll(item, query[1..], registry, attr, modelName);
      assert forall k :: 1 <= k < |query| ==> query[1..][k - 1] == query[k];
      assert (forall k :: 0 <= k < |query| ==> EntryHolds(item, query[k], registry, attr))
             <==> EntryHolds(item, query[0], registry, attr)
                  && forall k :: 0 <= k < |query[1..]| ==> EntryHolds(item, query[1..][k], registry, attr);
    }
  }

  /** One entry at a time: the first entry holds and the rest match. */
  lemma ItemMatchesHead<T>(item: T, query: Dict, registry: map<string, FieldItemMetaConfig>,
                           attr: (T, string) -> Option<Value>, modelName: string)
    requires query != []
    ensures ItemMatches(item, query, registry, attr, modelName) == Ok(true)
            <==> EntryHolds(item, query[0], registry, attr) && ItemMatches(item, query[1..], registry, attr, modelName) == Ok(true)
  {
  }

  /** The inner loop, with its `is_good` flag. */
  method MatchItem<T>(item: T, query: Dict, registry: map<string, FieldItemMetaConfig>,
                      attr: (T, string) -> Option<Value>, modelName: string)
    returns (r: Result<bool>)
    ensures r == ItemMatches(item, query, registry, attr, modelName)
  {
    var isGood := true;
    var j := 0;
    while j < |query|
      invariant 0 <= j <= |query|
      invariant ItemMatches(item, query, registry, attr, modelName) == ItemMatches(item, query[j..], registry, attr, modelName)
    {
      assert query[j..][0] == query[j] && query[j..][1..] == query[j + 1..];
      var (name, q) := query[j];
      if name !in registry {
        return Fail(KeyError, StrRepr(name));
      }
      var f := registry[name];
      var v := attr(item, f.name);
      if v.None? {
        return Fail(AttributeError, NoAttributeMessage(modelName, f.name));
      }
      if v.value == VNone {
        isGood := false;
        break;
      }
      var m := FieldMatches(f, q, v.value);
      if m.Err? {
        return Err(m.error);
      }
      if !m.value {
        isGood := false;
        break;
      }
      j := j + 1;
    }
    return Ok(isGood);
  }

  /** The items that match, in their order; the first item whose matching
      raises stops the whole. */
  function Filtered<T>(items: seq<T>, query: Dict, registry: map<string, FieldItemMetaConfig>,
                       attr: (T, string) -> Option<Value>, modelName: string): (r: Result<seq<T>>)
    ensures r.Ok? ==> |r.value| <= |items|
    decreases |items|
  {
    if items == [] then Ok([])
    else
      var m :- ItemMatches(items[0], query, registry, attr, modelName);
      var rest :- Filtered(items[1..], query, registry, attr, modelName);
      Ok((if m then [items[0]] else []) + rest)
  }

  /** Filtering succeeds exactly when no item's matching raises. */
  lemma {:induction false} FilteredOk<T>(items: seq<T>, query: Dict, registry: map<string, FieldItemMetaConfig>,
                                        attr: (T, string) -> Option<Value>, modelName: string)
    ensures Filtered(items, query, registry, attr, modelName).Ok?
            <==> forall i :: 0 <= i < |items| ==> ItemMatches(items[i], query, registry, attr, modelName).Ok?
    decreases |items|
  {
    if items != [] {
      assert forall i :: 1 <= i < |items| ==> items[1..][i - 1] == items[i];
      FilteredOk(items[1..], query, registry, attr, modelName);
    }
  }

  /** A successful filtering keeps exactly the items that match. */
  lemma {:induction false} FilteredKeepsMatching<T>(items: seq<T>, query: Dict, registry: map<string, FieldItemMetaConfig>,
                                                   attr: (T, string) -> Option<Value>, modelName: string)
    requires Filtered(items, query, registry, attr, modelName).Ok?
    ensures forall x :: x in Filtered(items, query, registry, attr, modelName).value
                        <==> x in items && ItemMatches(x, query, registry, attr, modelName) == Ok(true)
    decreases |items|
  {
    if items != [] {
      assert forall x :: x in items <==> x == items[0] || x in items[1..] by {
        assert items == [items[0]] + items[1..];
      }
      FilteredKeepsMatching(items[1..], query, registry, attr, modelName);
    }
  }

  /** When no item matches, nothing is kept. */
  lemma {:induction false} FilteredNothing<T>(items: seq<T>, query: Dict, registry: map<string, FieldItemMetaConfig>,
                                             attr: (T, string) -> Option<Value>, modelName: string)
    requires forall i :: 0 <= i < |items| ==> ItemMatches(items[i], query, registry, attr, modelName) == Ok(false)
    ensures Filtered(items, query, registry, attr, modelName) == Ok([])
    decreases |items|
  {
    if items != [] {
      assert forall i :: 1 <= i < |items| ==> items[1..][i - 1] == items[i];
      FilteredNothing(items[1..], query, registry, attr, modelName);
    }
  }

  /** A failing filtering reports the error of the first item whose matching raises. */
  lemma {:induction false} FilteredFirstError<T>(items: seq<T>, query: Dict, registry: map<string, FieldItemMetaConfig>,
                                                attr: (T, string) -> Option<Value>, modelName: string)
    requires Filtered(items, query, registry, attr, modelName).Err?
    ensures exists i :: 0 <= i < |items|
                        && ItemMatches(items[i], query, registry, attr, modelName) == Err(Filtered(items, query, registry, attr, modelName).error)
                        && forall j :: 0 <= j < i ==> ItemMatches(items[j], query, registry, attr, modelName).Ok?
    decreases |items|
  {
    var e := Filtered(items, query, registry, attr, modelName).error;
    if ItemMatches(items[0], query, registry, attr, modelName).Ok? {
      FilteredFirstError(items[1..], query, registry, attr, modelName);
      var i :| 0 <= i < |items[1..]|
               && ItemMatches(items[1..][i], query, registry, attr, modelName) == Err(e)
               && forall j :: 0 <= j < i ==> ItemMatches(items[1..][j], query, registry, attr, modelName).Ok?;
      assert items[i + 1] == items[1..][i];
      assert forall j :: 1 <= j < i + 1 ==> items[j] == items[1..][j - 1];
    } else {
      assert ItemMatches(items[0], query, registry, attr, modelName) == Err(e);
    }
  }

  /** Filtering a concatenation filters each part in turn. */
  lemma {:induction false} FilteredAppend<T>(a: seq<T>, b: seq<T>, query: Dict, registry: map<string, FieldItemMetaConfig>,
                                            attr: (T, string) -> Option<Value>, modelName: string)
    ensures var ra := Filtered(a, query, registry, attr, modelName);
            Filtered(a + b, query, registry, attr, modelName)
            == if ra.Err? then ra else Prepend(ra.value, Filtered(b, query, registry, attr, modelName))
    decreases |a|
  {
    if a == [] {
      assert a + b == b;
      PrependEmpty(Filtered(b, query, registry, attr, modelName));
    } else {
      assert (a + b)[0] == a[0] && (a + b)[1..] == a[1..] + b;
      FilteredAppend(a[1..], b, query, registry, attr, modelName);
      var m := ItemMatches(a[0], query, registry, attr, modelName);
      var ra' := Filtered(a[1..], query, registry, attr, modelName);
      var rb := Filtered(b, query, registry, attr, modelName);
      if m.Ok? && ra'.Ok? && rb.Ok? {
        var h := if m.value then [a[0]] else [];
        assert h + (ra'.value + rb.value) == (h + ra'.value) + rb.value;
      }
    }
  }

  /** An empty query keeps every item, in order. */
  lemma {:induction false} FilteredEmptyQuery<T>(items: seq<T>, registry: map<string, FieldItemMetaConfig>,
                                                attr: (T, string) -> Option<Value>, modelName: string)
    ensures Filtered(items, [], registry, attr, modelName) == Ok(items)
    decreases |items|
  {
    if items != [] {
      FilteredEmptyQuery(items[1..], registry, attr, modelName);
      assert [items[0]] + items[1..] == items;
    }
  }

  // ---------------------------------------------------------------- ordering

  /** `normalize_sort_value(getattr(item, name))`, for an item that has the attribute. */
  function SortKey<T>(attr: (T, string) -> Option<Value>, name: string): T -> Value
  {
    (x: T) => if attr(x, name).Some? then NormalizeSortValue(attr(x, name).value) else VNone
  }

  /** Items compared by their keys. */
  function ByKey<T>(key: T -> Value): (T, T) -> bool
  {
    (a: T, b: T) => KeyLess(key(a), key(b))
  }

  /** The order one entry of the order query sorts by: its field with the
      leading "-"s stripped, reversed when it starts with "-". */
  function KeyOrder<T>(attr: (T, string) -> Option<Value>, entry: string): (T, T) -> bool
  {
    var lt := ByKey(SortKey(attr, LStripChar(entry, '-')));
    if StartsWith(entry, "-") then Flip(lt) else lt
  }

  lemma KeyOrderStrictWeak<T(!new)>(attr: (T, string) -> Option<Value>, entry: string)
    ensures StrictWeak(KeyOrder(attr, entry))
  {
    KeyLessStrictWeak();
    var lt := ByKey(SortKey(attr, LStripChar(entry, '-')));
    assert StrictWeak(lt);
    if StartsWith(entry, "-") {
      FlipStrictWeak(lt);
    }
  }

  /** The keys of all items, computed before the sort compares any: the
      first item without the attribute raises. */
  function SortKeys<T>(s: seq<T>, attr: (T, string) -> Option<Value>, name: string, modelName: string): (r: Result<seq<Value>>)
    ensures r.Ok? <==> forall i :: 0 <= i < |s| ==> attr(s[i], name).Some?
    ensures r.Ok? ==> |r.value| == |s| && forall i :: 0 <= i < |s| ==> r.value[i] == SortKey(attr, name)(s[i])
    ensures r.Err? ==> r == Fail(AttributeError, NoAttributeMessage(modelName, name))
  {
    if s == [] then Ok([])
    else
      assert forall i :: 1 <= i < |s| ==> s[1..][i - 1] == s[i];
      match attr(s[0], name)
      case None => Fail(AttributeError, NoAttributeMessage(modelName, name))
      case Some(v) =>
        var rest :- SortKeys(s[1..], attr, name, modelName);
        Ok([NormalizeSortValue(v)] + rest)
  }

  /** One `result.sort(key=..., reverse=...)` of the ordering loop. Keys of
      kinds Python cannot compare make it raise `TypeError`. */
  function SortStep<T>(s: seq<T>, entry: string, attr: (T, string) -> Option<Value>, modelName: string): (r: Result<seq<T>>)
    ensures r.Ok? ==> r.value == SortBy(s, KeyOrder(attr, entry))
    ensures r.Ok? <==> (forall i :: 0 <= i < |s| ==> attr(s[i], LStripChar(entry, '-')).Some?)
                       && Comparable(SortKeys(s, attr, LStripChar(entry, '-'), modelName).value)
  {
    var keys :- SortKeys(s, attr, LStripChar(entry, '-'), modelName);
    if !Comparable(keys) then Fail(TypeError, "'<' not supported between instances")
    else Ok(SortBy(s, KeyOrder(attr, entry)))
  }

  /** CUSTOM ordering: one stable sort per entry of the query, the last
      entry first, so the first entry dominates. */
  function CustomOrder<T>(items: seq<T>, query: seq<string>, attr: (T, string) -> Option<Value>, modelName: string): Result<seq<T>>
  {
    if query == [] then Ok(items)
    else
      var s :- CustomOrder(items, query[1..], attr, modelName);
      SortStep(s, query[0], attr, modelName)
  }

  function Orders<T>(attr: (T, string) -> Option<Value>, query: seq<string>): (r: seq<(T, T) -> bool>)
    ensures |r| == |query| && forall i :: 0 <= i < |query| ==> r[i] == KeyOrder(attr, query[i])
  {
    seq(|query|, i requires 0 <= i < |query| => KeyOrder(attr, query[i]))
  }

  /** A successful custom ordering is a permutation of its input sorted in
      the lexicographic order of the query's keys; in particular it is in
      the order of the first key. */
  lemma {:induction false} CustomOrderIsLex<T(!new)>(items: seq<T>, query: seq<string>, attr: (T, string) -> Option<Value>, modelName: string)
    requires CustomOrder(items, query, attr, modelName).Ok?
    ensures var r := CustomOrder(items, query, attr, modelName).value;
            && r == SortByEach(items, Orders(attr, query))
            && multiset(r) == multiset(items)
            && Sorted(r, Lex(Orders(attr, query)))
            && (query != [] ==> Sorted(r, KeyOrder(attr, query[0])))
  {
    CustomOrderIsSortByEach(items, query, attr, modelName);
    forall i | 0 <= i < |query| ensures StrictWeak(Orders(attr, query)[i]) {
      KeyOrderStrictWeak(attr, query[i]);
    }
    SortByEachIsLex(items, Orders(attr, query));
    if query != [] {
      var r := CustomOrder(items, query, attr, modelName).value;
      var s := CustomOrder(items, query[1..], attr, modelName).value;
      KeyOrderStrictWeak(attr, query[0]);
      SortBySorted(s, KeyOrder(attr, query[0]));
    }
  }

  /** Custom ordering is stable: the result is the input rearranged by a
      permutation of its positions, and items that no key of the query
      tells apart keep their input order. */
  lemma CustomOrderStable<T(!new)>(items: seq<T>, query: seq<string>, attr: (T, string) -> Option<Value>, modelName: string)
    requires CustomOrder(items, query, attr, modelName).Ok?
    ensures var r := CustomOrder(items, query, attr, modelName).value;
            var pos := EachPositions(items, Orders(attr, query));
            && |r| == |items|
            && (forall k :: 0 <= k < |items| ==> 0 <= pos[k] < |items| && r[k] == items[pos[k]])
            && (forall k, l :: 0 <= k < l < |items| ==> pos[k] != pos[l])
            && (forall k, l :: 0 <= k < l < |items| && TiedOnAll(Orders(attr, query), r[k], r[l]) ==> pos[k] < pos[l])
  {
    CustomOrderIsSortByEach(items, query, attr, modelName);
    forall i | 0 <= i < |query| ensures StrictWeak(Orders(attr, query)[i]) {
      KeyOrderStrictWeak(attr, query[i]);
    }
    SortByEachStable(items, Orders(attr, query));
  }

  lemma {:induction false} CustomOrderIsSortByEach<T>(items: seq<T>, query: seq<string>, attr: (T, string) -> Option<Value>, modelName: string)
    requires CustomOrder(items, query, attr, modelName).Ok?
    ensures CustomOrder(items, query, attr, modelName).value == SortByEach(items, Orders(attr, query))
  {
    if query != [] {
      CustomOrderIsSortByEach(items, query[1..], attr, modelName);
      assert Orders(attr, query)[1..] == Orders(attr, query[1..]);
    }
  }

  /** A failing later entry fails the whole ordering with its error. */
  lemma {:induction false} CustomOrderFails<T>(items: seq<T>, query: seq<string>, k: nat, attr: (T, string) -> Option<Value>, modelName: string)
    requires k <= |query| && CustomOrder(items, query[k..], attr, modelName).Err?
    ensures CustomOrder(items, query, attr, modelName) == CustomOrder(items, query[k..], attr, modelName)
    decreases k
  {
    if k > 0 {
      assert query[1..][k - 1..] == query[k..];
      CustomOrderFails(items, query[1..], k - 1, attr, modelName);
    }
  }

  // ---------------------------------------------------------------- filter_iterable

  /** The filtering half of `filter_iterable`. */
  function FilterByMode<T>(items: seq<T>, meta: ModelMetaInfo, config: ListConfig, attr: (T, string) -> Option<Value>): Result<seq<T>>
  {
    match config.filterMode
    case None => Fail(ValueError, "Filter mode is not specified.")
    case Some(FilterAll) => Ok(items)
    case Some(FilterMatching) =>
      var query :- ValidateFilterQueryInDataAction(meta.fieldsMetaConfig, StrDict(config.filterQuery));
      Filtered(items, query, GetFieldsMetaRegistry(meta.fieldsMetaConfig), attr, meta.singularName)
  }

  /** `filter_iterable(iterable, model, list_config)` */
  function FilterIterableSpec<T>(items: seq<T>, meta: ModelMetaInfo, config: ListConfig, attr: (T, string) -> Option<Value>): Result<seq<T>>
  {
    var filtered :- FilterByMode(items, meta, config, attr);
    match config.orderMode
    case None => Fail(ValueError, "Order mode is not specified.")
    case Some(OrderDefault) => Ok(filtered)
    case Some(OrderCustom) => CustomOrder(filtered, config.orderQuery, attr, meta.singularName)
  }

  lemma FilteredStep<T>(items: seq<T>, i: nat, query: Dict, registry: map<string, FieldItemMetaConfig>,
                        attr: (T, string) -> Option<Value>, modelName: string)
    requires i < |items|
    ensures var m := ItemMatches(items[i], query, registry, attr, modelName);
            Filtered(items[i..], query, registry, attr, modelName)
            == if m.Err? then Err(m.error)
               else Prepend(if m.value then [items[i]] else [], Filtered(items[i + 1..], query, registry, attr, modelName))
  {
    assert items[i..][0] == items[i] && items[i..][1..] == items[i + 1..];
  }

  /** The filtering loop of `filter_iterable`, appending each matching item to `result`. */
  method FilterItems<T>(items: seq<T>, query: Dict, registry: map<string, FieldItemMetaConfig>,
                        attr: (T, string) -> Option<Value>, modelName: string)
    returns (r: Result<seq<T>>)
    ensures r == Filtered(items, query, registry, attr, modelName)
  {
    var result: seq<T> := [];
    var i := 0;
    assert items[0..] == items;
    PrependEmpty(Filtered(items, query, registry, attr, modelName));
    while i < |items|
      invariant 0 <= i <= |items|
      invariant Filtered(items, query, registry, attr, modelName)
                == Prepend(result, Filtered(items[i..], query, registry, attr, modelName))
    {
      FilteredStep(items, i, query, registry, attr, modelName);
      var good := MatchItem(items[i], query, registry, attr, modelName);
      if good.Err? {
        return Err(good.error);
      }
      var rest := Filtered(items[i + 1..], query, registry, attr, modelName);
      if good.value {
        PrependOne(result, items[i], rest);
        result := result + [items[i]];
      } else {
        PrependEmpty(rest);
      }
      i := i + 1;
    }
    assert items[i..] == [];
    assert result + [] == result;
    return Ok(result);
  }

  /** The ordering loop of `filter_iterable`: one sort per entry of the
      reversed order query. */
  method OrderItems<T>(items: seq<T>, query: seq<string>, attr: (T, string) -> Option<Value>, modelName: string)
    returns (r: Result<seq<T>>)
    ensures r == CustomOrder(items, query, attr, modelName)
  {
    var result := items;
    var k := |query|;
    assert query[k..] == [];
    while k > 0
      invariant 0 <= k <= |query|
      invariant CustomOrder(items, query[k..], attr, modelName) == Ok(result)
    {
      k := k - 1;
      assert query[k..][0] == query[k] && query[k..][1..] == query[k + 1..];
      var sorted := SortStep(result, query[k], attr, modelName);
      if sorted.Err? {
        CustomOrderFails(items, query, k, attr, modelName);
        return Err(sorted.error);
      }
      result := sorted.value;
    }
    assert query[0..] == query;
    return Ok(result);
  }

  /** `filter_iterable(iterable, model, list_config)`: the filtering loop,
      then the ordering loop. */
  method FilterIterable<T>(items: seq<T>, meta: ModelMetaInfo, config: ListConfig, attr: (T, string) -> Option<Value>)
    returns (r: Result<seq<T>>)
    ensures r == FilterIterableSpec(items, meta, config, attr)
  {
    var result: seq<T>;
    match config.filterMode {
      case None =>
        return Fail(ValueError, "Filter mode is not specified.");
      case Some(FilterAll) =>
        result := items;
      case Some(FilterMatching) =>
        var validated := ValidateFilterQueryInDataAction(meta.fieldsMetaConfig, StrDict(config.filterQuery));
        if validated.Err? {
          return Err(validated.error);
        }
        var filtered := FilterItems(items, validated.value, GetFieldsMetaRegistry(meta.fieldsMetaConfig), attr, meta.singularName);
        if filtered.Err? {
          return Err(filtered.error);
        }
        result := filtered.value;
    }
    assert FilterByMode(items, meta, config, attr) == Ok(result);
    match config.orderMode {
      case None =>
        return Fail(ValueError, "Order mode is not specified.");
      case Some(OrderDefault) =>
        return Ok(result);
      case Some(OrderCustom) =>
        r := OrderItems(result, config.orderQuery, attr, meta.singularName);
    }
  }

  // ---------------------------------------------------------------- properties of filter_iterable

  /** ALL with DEFAULT order returns the items as they are. */
  lemma AllDefaultIsIdentity<T>(items: seq<T>, meta: ModelMetaInfo, config: ListConfig, attr: (T, string) -> Option<Value>)
    requires config.filterMode == Some(FilterAll) && config.orderMode == Some(OrderDefault)
    ensures FilterIterableSpec(items, meta, config, attr) == Ok(items)
  {
  }

  /** A missing filter mode is reported first; a missing order mode only
      once the filtering succeeded. */
  lemma MissingModes<T>(items: seq<T>, meta: ModelMetaInfo, config: ListConfig, attr: (T, string) -> Option<Value>)
    ensures config.filterMode.None? ==> FilterIterableSpec(items, meta, config, attr) == Fail(ValueError, "Filter mode is not specified.")
    ensures config.filterMode == Some(FilterAll) && config.orderMode.None?
            ==> FilterIterableSpec(items, meta, config, attr) == Fail(ValueError, "Order mode is not specified.")
    ensures config.orderMode.None? && FilterIterableSpec(items, meta, config, attr).Ok? ==> false
  {
  }

  /** FILTER with DEFAULT order keeps exactly the items for which every
      renamed query entry holds, and never fails on the registry lookup. */
  lemma FilterDefaultKeepsMatching<T>(items: seq<T>, meta: ModelMetaInfo, config: ListConfig, attr: (T, string) -> Option<Value>)
    requires config.filterMode == Some(FilterMatching) && config.orderMode == Some(OrderDefault)
    requires FilterIterableSpec(items, meta, config, attr).Ok?
    ensures var query := ValidateFilterQueryInDataAction(meta.fieldsMetaConfig, StrDict(config.filterQuery)).value;
            var registry := GetFieldsMetaRegistry(meta.fieldsMetaConfig);
            forall x :: x in FilterIterableSpec(items, meta, config, attr).value
                        <==> x in items && forall k :: 0 <= k < |query| ==> EntryHolds(x, query[k], registry, attr)
  {
    var query := ValidateFilterQueryInDataAction(meta.fieldsMetaConfig, StrDict(config.filterQuery)).value;
    var registry := GetFieldsMetaRegistry(meta.fieldsMetaConfig);
    FilteredKeepsMatching(items, query, registry, attr, meta.singularName);
    forall x | x in items {
      ItemMatchesAll(x, query, registry, attr, meta.singularName);
    }
  }

  /** FILTER with an empty query keeps everything. */
  lemma EmptyFilterKeepsAll<T>(items: seq<T>, meta: ModelMetaInfo, config: ListConfig, attr: (T, string) -> Option<Value>)
    requires config.filterMode == Some(FilterMatching) && config.filterQuery == []
    ensures FilterByMode(items, meta, config, attr) == Ok(items)
  {
    assert StrDict([]) == [];
    FilteredEmptyQuery(items, GetFieldsMetaRegistry(meta.fieldsMetaConfig), attr, meta.singularName);
  }
}
