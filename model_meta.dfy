/** Field descriptors of a record model (`field_meta.py`): which fields
    exist, under which aliases, and whether and how they may be filtered
    and sorted by. */
module FieldMeta {
  import opened Base
  import opened PyText
  import opened Values

  datatype FilterMode = Exact | Partial

  /** `FieldItemMetaConfig`; the free-text `description` is not modelled. */
  datatype FieldItemMetaConfig = FieldItemMetaConfig(
    name: string,
    aliases: seq<string>,
    parseFunc: Option<Value -> Result<Value>>,
    isListBased: bool,
    isFilterable: bool,
    filterMode: FilterMode,
    isSortable: bool,
    isGroupable: bool)

  /** `FieldItemMetaConfig(name=name)`: every other attribute at its default. */
  function Field(name: string): (f: FieldItemMetaConfig)
    ensures f.name == name && f.aliases == [] && f.parseFunc.None? && !f.isListBased
    ensures f.isFilterable && f.filterMode == Partial && f.isSortable && f.isGroupable
  {
    FieldItemMetaConfig(name, [], None, false, true, Partial, true, true)
  }

  datatype FieldsMetaConfig = FieldsMetaConfig(fields: seq<FieldItemMetaConfig>)

  /** The key a lookup compares: `field_name.strip().lower()`. */
  function NormalizeKey(s: string): string
  {
    Lower(Strip(s))
  }

  /** A field answers to `key` by its name or by one of its aliases, both as stored. */
  predicate Matches(f: FieldItemMetaConfig, key: string)
  {
    f.name == key || key in f.aliases
  }

  function FirstMatch(fields: seq<FieldItemMetaConfig>, key: string): (r: Option<nat>)
    ensures r.Some? ==> r.value < |fields| && Matches(fields[r.value], key)
    ensures r.Some? ==> forall j :: 0 <= j < r.value ==> !Matches(fields[j], key)
    ensures r.None? ==> forall j :: 0 <= j < |fields| ==> !Matches(fields[j], key)
  {
    if fields == [] then None
    else if Matches(fields[0], key) then Some(0)
    else
      assert forall j :: 1 <= j < |fields| ==> fields[j] == fields[1..][j - 1];
      match FirstMatch(fields[1..], key)
      case None => None
      case Some(i) => Some(i + 1)
  }

  function NotFoundMessage(key: string): string
  {
    "Field with name or alias '" + key + "' not found."
  }

  /** `get_field_name_fact`: the name of the first field, in declaration
      order, that answers to the normalised key; a `KeyError` when none does. */
  function GetFieldNameFact(config: FieldsMetaConfig, fieldName: string): (r: Result<string>)
    ensures r.Err? ==> r == Fail(KeyError, NotFoundMessage(NormalizeKey(fieldName)))
  {
    var key := NormalizeKey(fieldName);
    match FirstMatch(config.fields, key)
    case Some(i) => Ok(config.fields[i].name)
    case None => Fail(KeyError, NotFoundMessage(key))
  }

  /** The lookup succeeds exactly when some field answers to the key, and
      then returns the name of the first such field. */
  lemma GetFieldNameFactFindsFirst(config: FieldsMetaConfig, fieldName: string)
    ensures var r := GetFieldNameFact(config, fieldName);
            var key := NormalizeKey(fieldName);
            && (r.Ok? <==> exists i :: 0 <= i < |config.fields| && Matches(config.fields[i], key))
            && (r.Ok? ==> exists i :: 0 <= i < |config.fields| && r.value == config.fields[i].name
                                      && Matches(config.fields[i], key)
                                      && forall j :: 0 <= j < i ==> !Matches(config.fields[j], key))
  {
    var key := NormalizeKey(fieldName);
    var m := FirstMatch(config.fields, key);
    if m.Some? {
      assert Matches(config.fields[m.value], key);
    }
  }

  /** Aliases are not lower-cased before the comparison, so an alias with
      an upper-case letter never matches any input. */
  lemma UpperCaseAliasNeverMatches(alias: string, fieldName: string)
    requires Lower(alias) != alias
    ensures NormalizeKey(fieldName) != alias
  {
    LowerIdempotent(Strip(fieldName));
  }

  /** A name is found whatever its case and surrounding whitespace. */
  lemma LookupIgnoresCaseOfInput(config: FieldsMetaConfig, i: nat, fieldName: string)
    requires i < |config.fields| && config.fields[i].name == NormalizeKey(fieldName)
    ensures GetFieldNameFact(config, fieldName).Ok?
  {
  }

  /** The filtering and sorting flags play no part in the lookup. */
  lemma {:induction false} LookupIgnoresFlags(a: seq<FieldItemMetaConfig>, b: seq<FieldItemMetaConfig>, key: string)
    requires |a| == |b|
    requires forall i :: 0 <= i < |a| ==> a[i].name == b[i].name && a[i].aliases == b[i].aliases
    ensures FirstMatch(a, key) == FirstMatch(b, key)
  {
    if a != [] {
      LookupIgnoresFlags(a[1..], b[1..], key);
    }
  }

  lemma SameLookupWithoutFlags(a: FieldsMetaConfig, b: FieldsMetaConfig, fieldName: string)
    requires |a.fields| == |b.fields|
    requires forall i :: 0 <= i < |a.fields| ==> a.fields[i].name == b.fields[i].name && a.fields[i].aliases == b.fields[i].aliases
    ensures GetFieldNameFact(a, fieldName) == GetFieldNameFact(b, fieldName)
  {
    LookupIgnoresFlags(a.fields, b.fields, NormalizeKey(fieldName));
  }

  /** No later field has the name of field `i`. */
  predicate IsLastNamed(fields: seq<FieldItemMetaConfig>, i: nat)
    requires i < |fields|
  {
    forall j :: i < j < |fields| ==> fields[j].name != fields[i].name
  }

  /** `get_fields_meta_registry`: name to descriptor; of fields sharing a
      name the last one wins. */
  function Registry(fields: seq<FieldItemMetaConfig>): map<string, FieldItemMetaConfig>
  {
    if fields == [] then map[]
    else Registry(fields[..|fields| - 1])[fields[|fields| - 1].name := fields[|fields| - 1]]
  }

  /** The registry has an entry for exactly the names of the fields. */
  lemma {:induction false} RegistryKeys(fields: seq<FieldItemMetaConfig>)
    ensures forall k :: k in Registry(fields) <==> exists i :: 0 <= i < |fields| && fields[i].name == k
  {
    if fields != [] {
      var init := fields[..|fields| - 1];
      var last := fields[|fields| - 1];
      RegistryKeys(init);
      forall k ensures k in Registry(fields) <==> exists i :: 0 <= i < |fields| && fields[i].name == k {
        if k in Registry(fields) && k != last.name {
          assert Registry(fields) == Registry(init)[last.name := last];
          assert k in Registry(init);
          var i :| 0 <= i < |init| && init[i].name == k;
          assert fields[i].name == k;
        }
        if exists i :: 0 <= i < |fields| && fields[i].name == k {
          var i :| 0 <= i < |fields| && fields[i].name == k;
          if i < |init| {
            assert init[i].name == k;
          }
        }
      }
    }
  }

  /** A name maps to the last field carrying it. */
  lemma {:induction false} RegistryLast(fields: seq<FieldItemMetaConfig>, i: nat)
    requires i < |fields| && IsLastNamed(fields, i)
    ensures fields[i].name in Registry(fields) && Registry(fields)[fields[i].name] == fields[i]
  {
    var init := fields[..|fields| - 1];
    if i < |init| {
      assert init[i] == fields[i] && fields[i].name != fields[|fields| - 1].name;
      assert IsLastNamed(init, i) by {
        forall j | i < j < |init| ensures init[j].name != init[i].name {
          assert init[j] == fields[j];
        }
      }
      RegistryLast(init, i);
    }
  }

  function GetFieldsMetaRegistry(config: FieldsMetaConfig): (r: map<string, FieldItemMetaConfig>)
    ensures forall k :: k in r <==> exists i :: 0 <= i < |config.fields| && config.fields[i].name == k
    ensures forall i :: 0 <= i < |config.fields| && IsLastNamed(config.fields, i) ==> r[config.fields[i].name] == config.fields[i]
  {
    RegistryKeys(config.fields);
    forall i | 0 <= i < |config.fields| && IsLastNamed(config.fields, i)
      ensures Registry(config.fields)[config.fields[i].name] == config.fields[i]
    {
      RegistryLast(config.fields, i);
    }
    Registry(config.fields)
  }

  /** The registry has an entry for every name the lookup can return. */
  lemma LookupResultIsRegistered(config: FieldsMetaConfig, fieldName: string)
    requires GetFieldNameFact(config, fieldName).Ok?
    ensures GetFieldNameFact(config, fieldName).value in GetFieldsMetaRegistry(config)
  {
  }

  /** The fields satisfying `keep`, in declaration order. */
  function FieldsWhere(fields: seq<FieldItemMetaConfig>, keep: FieldItemMetaConfig -> bool): (r: seq<FieldItemMetaConfig>)
    ensures |r| <= |fields|
    ensures forall i :: 0 <= i < |r| ==> keep(r[i])
    ensures forall f :: f in r <==> f in fields && keep(f)
  {
    if fields == [] then []
    else
      var rest := FieldsWhere(fields[1..], keep);
      assert forall f :: f in fields <==> f == fields[0] || f in fields[1..] by {
        assert fields == [fields[0]] + fields[1..];
      }
      (if keep(fields[0]) then [fields[0]] else []) + rest
  }

  /** Filtering a concatenation filters each part, keeping the parts' order. */
  lemma {:induction false} FieldsWhereAppend(a: seq<FieldItemMetaConfig>, b: seq<FieldItemMetaConfig>, keep: FieldItemMetaConfig -> bool)
    ensures FieldsWhere(a + b, keep) == FieldsWhere(a, keep) + FieldsWhere(b, keep)
  {
    if a == [] {
      assert a + b == b;
    } else {
      assert (a + b)[0] == a[0] && (a + b)[1..] == a[1..] + b;
      FieldsWhereAppend(a[1..], b, keep);
    }
  }

  /** When every field passes, filtering keeps the list as it is. */
  lemma {:induction false} FieldsWhereAll(fields: seq<FieldItemMetaConfig>, keep: FieldItemMetaConfig -> bool)
    requires forall i :: 0 <= i < |fields| ==> keep(fields[i])
    ensures FieldsWhere(fields, keep) == fields
  {
    if fields != [] {
      assert forall i :: 1 <= i < |fields| ==> fields[1..][i - 1] == fields[i];
      FieldsWhereAll(fields[1..], keep);
    }
  }

  predicate IsFilterable(f: FieldItemMetaConfig)
  {
    f.isFilterable
  }

  predicate IsSortable(f: FieldItemMetaConfig)
  {
    f.isSortable
  }

  /** `get_fields_for_filtering` */
  function GetFieldsForFiltering(config: FieldsMetaConfig): (r: seq<FieldItemMetaConfig>)
    ensures forall f :: f in r <==> f in config.fields && f.isFilterable
  {
    FieldsWhere(config.fields, IsFilterable)
  }

  /** `get_fields_for_sorting` */
  function GetFieldsForSorting(config: FieldsMetaConfig): (r: seq<FieldItemMetaConfig>)
    ensures forall f :: f in r <==> f in config.fields && f.isSortable
  {
    FieldsWhere(config.fields, IsSortable)
  }

  /** A model whose every field may be filtered and sorted by offers all of
      them, in declaration order, for both. */
  lemma AllFieldsListed(config: FieldsMetaConfig)
    requires forall i :: 0 <= i < |config.fields| ==> config.fields[i].isFilterable && config.fields[i].isSortable
    ensures GetFieldsForFiltering(config) == config.fields
    ensures GetFieldsForSorting(config) == config.fields
  {
    FieldsWhereAll(config.fields, IsFilterable);
    FieldsWhereAll(config.fields, IsSortable);
  }

  function FieldNames(fields: seq<FieldItemMetaConfig>): (r: seq<string>)
    ensures |r| == |fields| && forall i :: 0 <= i < |fields| ==> r[i] == fields[i].name
  {
    seq(|fields|, i requires 0 <= i < |fields| => fields[i].name)
  }

  /** `get_field_names_for_filtering` */
  function GetFieldNamesForFiltering(config: FieldsMetaConfig): seq<string>
  {
    FieldNames(GetFieldsForFiltering(config))
  }

  /** A field declared with defaults only is offered for filtering and
      sorting, and is found by its own name alone. */
  lemma DefaultFieldIsListed(name: string, fieldName: string)
    ensures var config := FieldsMetaConfig([Field(name)]);
            && GetFieldsForFiltering(config) == [Field(name)]
            && GetFieldsForSorting(config) == [Field(name)]
            && (GetFieldNameFact(config, fieldName).Ok? <==> NormalizeKey(fieldName) == name)
  {
    var config := FieldsMetaConfig([Field(name)]);
    assert config.fields[1..] == [];
    assert config.fields[0] == Field(name);
  }
}

/** `ModelMetaInfo` of `model_meta_info.py`: a model's display names and
    its field descriptors. */
module ModelMeta {
  import opened Base
  import opened FieldMeta

  datatype ModelMetaInfo = ModelMetaInfo(singularName: string, pluralName: string, fieldsMetaConfig: FieldsMetaConfig)

  /** `ModelMetaInfo.from_class`: the singular name is the class name, the
      plural appends "s"; without descriptors the field list is empty. */
  function FromClass(className: string, fieldsMetaConfig: Option<FieldsMetaConfig>): (r: ModelMetaInfo)
    ensures r.singularName == className
    ensures r.pluralName == className + "s" && |r.pluralName| == |className| + 1
    ensures fieldsMetaConfig.Some? ==> r.fieldsMetaConfig == fieldsMetaConfig.value
    ensures fieldsMetaConfig.None? ==> r.fieldsMetaConfig.fields == []
  {
    ModelMetaInfo(className, className + "s",
      match fieldsMetaConfig
      case Some(c) => c
      case None => FieldsMetaConfig([]))
  }

  /** A model declared without descriptors resolves no field name at all. */
  lemma NoDescriptorsNoLookup(className: string, fieldName: string)
    ensures GetFieldNameFact(FromClass(className, None).fieldsMetaConfig, fieldName)
            == Fail(KeyError, NotFoundMessage(NormalizeKey(fieldName)))
  {
  }
}
