# persyval core, modelled in Dafny

persyval is a console assistant that keeps contacts and notes. A command line is
tokenised into a command word and arguments. A per-command argument schema resolves
those arguments into a typed record, applying defaults, asking the user for missing
values, coercing and validating them. A dispatch queue then runs the handlers. The
handlers call data actions on two uid-keyed dictionaries of contacts and notes.

This project is a Dafny model of that core, with proofs of the properties the code
promises. One module per area of the program:

- `Base`, `PyText`, `Values`, `Dicts`, `Unique`, `Sorting`, `PyOrder`, `Dates`: the vocabulary.
  - Python's exceptions are modelled as `Result` values.
  - `str` operations, the dynamic values and truth test, and insertion-ordered dicts are included.
  - So are first-occurrence deduplication, the stable `list.sort`, Python's `<` on sort keys, and `datetime.date`.
- `ArgsConfig`, `Schemas`, `ConvertBool`, `Commands`, `ExecutionQueues`: the front end.
  - `ArgsConfig` is the argument resolver of `args_config.py`; `Schemas` holds the concrete schemas the handlers declare.
  - `ConvertBool` reads yes/no words.
  - `Commands` holds the tokenizer, the "no arguments" guard, the command registry walk and the completer.
  - `ExecutionQueues` is the FIFO dispatch queue, as a class over a sequence.
- `FieldMeta`, `ModelMeta`, `Models`, `SortAndFilter`: the field descriptors and the two record models.
  - `SortAndFilter` is the list engine that filters by field queries and sorts by several keys.
- `Storage`, `ListActions`, `RecordActions`: the data actions.
  - `Storage` is the in-memory store, as a class with the two dictionaries.
  - `ListActions` holds the list actions; `RecordActions` the add/get/update/delete actions, as methods on the store.
- `Birthdays`, `UpcomingBirthdays`: the birthday rules.
  - `Birthdays` covers anniversaries, including 29 February, weekend shifting and age limits.
  - `UpcomingBirthdays` is the upcoming-birthdays listing.
- `Phones`, `Emails`, `Export`, `NoteEditor`, `Preview`, `NotesByTag`, `NoteQueries`: the text services.
  - Phone and e-mail list validation.
  - Flattening records for CSV export, and the export's row sequence.
  - The note editor template and its parsing.
  - Truncated previews and grouping notes by tag.
  - The notes handler's filter prompt.

The outside world is passed in as parameters:
- The clock ("today", the note timestamp).
- The answers of the console prompts, as a `Console` of scripted choices and texts.
- The text returned by the external editor.
- The `phonenumbers`, `email_validator` and `uuid.UUID` parsers, as function-valued oracles.

Where the source's parts disagree, the model follows the code.
- `contact.py:10` and `sort_and_filter.py:10` import `format_birthday_for_edit_and_export` from `parse_and_format.py`, which defines only `format_birthday_for_output`, `format_birthday_for_edit` and `parse_birthday`.
  As written, both modules fail to load with `ImportError`, so neither the contact model nor the list engine can run.
  The function is used by the contact's birthday serializer (`contact.py:70-72`) and by the sort-key normaliser (`sort_and_filter.py:349`).
  The model takes it to be the ISO form that `format_birthday_for_edit` produces.
- The command meta class has no `hidden` field, though `iterate_over_commands_meta` reads one. Reading a field that is not there raises `AttributeError`.
  So the default walk, and with it the completer, always fails (`Commands.NoHiddenAttributeFails`).
- `handlers/notes.py:15-20` imports `LIST_FILTER_MODE_REGISTRY`, `ListFilterModeEnum` and `NotesListConfig` from `data_actions/note_list.py`, which defines only `note_list`. As written that handler module fails to load.
- Several modules import `ArgMetaConfig`, `ArgsConfig` or `ArgType` from `commands/command_meta.py`, which defines only `CommandMeta`. As written each of them fails to load with `ImportError`:
  - `handlers/contacts_get_upcoming_birthdays.py:7`;
  - `handlers/shared/args_i_empty.py:1` and `handlers/shared/args_i_force.py:3`, and with them every handler that imports those two, such as `handlers/storage_stats.py:5`;
  - `handlers/exit.py:3`, `handlers/note_add.py:8`, `handlers/contact_edit.py:11`, `handlers/contacts_root.py:5` and `handlers/storage_show_birthdays.py:8`.

  So none of these schemas is reachable as written. The `Schemas` members model each file's own definitions: the validators, the result classes and the argument lists (`Schemas.EmptySchemaTakesNothing`, `Schemas.ForceSchemaParses` and `Schemas.ForceReparseLosesFalse` for the two shared schemas).
- `ArgsConfig.parse` takes its arguments by keyword only (`args_config.py:134-139`). `contacts_get_upcoming_birthdays.py:46`, `storage_show_birthdays.py:46` and `contacts_root.py:57`, `:68` and `:79` pass them positionally, as in `CONFIG.parse(self.args)`, and each of those calls raises `TypeError`. The model's `Parse` takes the arguments as the keyword form does.
- `chat/get_input.py:23` calls `get_completer(use_advanced_completer=...)`, but `get_completer` (`completer.py:34`) takes no parameter, so that call raises `TypeError`.
- `notes_list.py` uses a configuration shape that `ListConfig` lacks, so it has its own configuration type.
- The persistence format in `data_storage.py` does not match the store the data actions use.
  Only the two dictionaries are modelled.
- `parse_birthday("")` returns `None` in the code, although `test_birthday.py` lists it among the inputs that raise. The model returns `None`.

These behaviours of the code as written are stated and proved:
- Filtering notes by `uid` never matches anything (`Models.NoteUidFilterNeverMatches`).
  The query value is parsed into a UUID and then compared for equality with the text of the field.
- Of the filter-query checks in `handlers/notes.py`, the ones at lines 149 and 159-162 never fire (`NoteQueries.FilterQueries`).
  `split(",")` always returns a piece, and `parse_queries` has already refused any other key. The check at line 155 refuses an answer without a `key=value` piece (`NoteQueries.NoQueryRefused`).
- The notes prompt accepts a `tag` query that the notes list action then refuses (`NoteQueries.FilterByPromptTag`).
- An export writes its first item twice: `export_items.py:36-46` writes `first`, then loops over all of the items (`Export.ExportDuplicatesFirst`).
- With no `hidden` attribute on the command meta class, the default command walk fails at its first command (`Commands.NoHiddenAttributeFails`).

## Model

| member | source | states |
|---|---|---|
| ArgsConfig.Arg | src/persyval/services/commands/args_config.py:46-68 | an argument description built from a name alone has the declared defaults: TEXT, optional, no default or factory, no dialog mode, options, handler, parser or validator, no input on empty |
| ArgsConfig.OrderCheckMeaning | src/persyval/services/commands/args_config.py:78-92 | the order check accepts a list exactly when no required argument follows an optional one, returns it unchanged, and otherwise fails with `ValueError` naming the first such argument |
| ArgsConfig.NoMisplacedIsRequiredFirst | src/persyval/services/commands/args_config.py:78-92 | "no required argument after an optional one" is the same as "every required argument precedes every optional one" |
| ArgsConfig.ValidateOrderOfArgs | src/persyval/services/commands/args_config.py:78-92 | the `saw_optional` loop: succeeds iff required arguments come first, returns the list unchanged, and reports the first misplaced argument by name |
| ArgsConfig.MakeArgsConfig | src/persyval/services/commands/args_config.py:95-97 | building a schema runs the order validator: it succeeds iff required arguments come first, keeping the list as given |
| ArgsConfig.RequiredCount | src/persyval/services/commands/args_config.py:127-129 | the number of required arguments never exceeds the number of arguments |
| ArgsConfig.TooManyArguments | src/persyval/services/commands/args_config.py:123-125 | more tokens than arguments fails with `InvalidCommandError` "Too many arguments provided." before any default or prompt, in either mode |
| ArgsConfig.NotEnoughArguments | src/persyval/services/commands/args_config.py:127-132 | in non-interactive mode fewer tokens than required arguments fails with "Not enough arguments provided."; in interactive mode the count check never fails |
| ArgsConfig.HandleDefault | src/persyval/services/commands/args_config.py:213-229 | a truthy value is kept; a falsy one takes the default if set, else the factory's value, else is a missing-argument error only for a required argument under the guard, and is kept otherwise |
| ArgsConfig.BoolDialogOptions | src/persyval/services/commands/args_config.py:280-285 | the yes/no dialog offers "skip" exactly when the argument is optional |
| ArgsConfig.HandleInput | src/persyval/services/commands/args_config.py:255-311 | nothing is asked and the value is kept unless it is falsy and `allow_input_on_empty` is set |
| ArgsConfig.InteractiveModeFallback | src/persyval/services/commands/args_config.py:261-267 | a configured dialog mode is used as is; without one BOOL gets the yes/no dialog, TEXT a text prompt, and every other type no prompt |
| ArgsConfig.BoolDialogSkipOnlyIfOptional | src/persyval/services/commands/args_config.py:272-286 | the yes/no dialog never fails and gives "True", "False" or `None`, and `None` only for an optional argument |
| ArgsConfig.CustomAndSelectPrompts | src/persyval/services/commands/args_config.py:289-307 | a custom handler receives the result dict built so far; a CUSTOM mode without handler is an `InvalidCommandError`; a select succeeds iff options exist and returns one of them |
| ArgsConfig.ParseList | src/persyval/services/commands/args_config.py:349-353 | a list passes through unchanged; a string becomes the list of its non-empty comma-separated pieces |
| ArgsConfig.NonEmpty | src/persyval/services/commands/args_config.py:353 | `filter(None, …)` keeps exactly the non-empty pieces |
| Values.StrItems | src/persyval/services/commands/args_config.py:353 | each piece becomes a string value, in order; the same conversion gives a note's tags and a contact's phones and e-mails as list values |
| ArgsConfig.ParseListKeepsFields | src/persyval/services/commands/args_config.py:349-353 | no list element is empty or holds a comma, and the elements concatenated give the input with its commas removed: only empty pieces are dropped |
| ArgsConfig.ConcatNonEmpty | src/persyval/services/commands/args_config.py:353 | dropping empty pieces does not change their concatenation |
| ArgsConfig.DictPiecesSnoc | src/persyval/services/commands/args_config.py:362-368 | the loop over the pieces processes one more piece by one more step |
| ArgsConfig.DictPiecesLastWins | src/persyval/services/commands/args_config.py:362-368 | the value of a key is that of the last piece with exactly one "=" naming it, and a key no piece names keeps what it had |
| ArgsConfig.ParseDict | src/persyval/services/commands/args_config.py:356-358 | a dict passes through unchanged |
| ArgsConfig.ParseDictLoop | src/persyval/services/commands/args_config.py:360-370 | the loop produces the piece-by-piece dictionary, in which each key holds the value of the last well-formed piece naming it |
| ArgsConfig.ToInt | src/persyval/services/commands/args_config.py:331-336 | `int(arg)` gives an integer whenever it succeeds; text `int()` rejects raises `InvalidCommandError` "Invalid integer value". `int()` reads the decimal digits of every script, with a sign, underscores between digits and surrounding whitespace |
| PyText.DecimalValue | src/persyval/services/commands/args_config.py:333 | a character has a digit value below 10 only if it is an ASCII digit or lies at or above U+0660, and every ASCII digit has its usual value |
| PyText.DigitFromBeyond | src/persyval/services/commands/args_config.py:333 | runs of decimal digits lying wholly below a character do not decide its value |
| PyText.ArabicIndicTwelve | src/persyval/services/commands/args_config.py:333 | `int("١٢")` is 12 |
| PyText.FullwidthMinusThree | src/persyval/services/commands/args_config.py:333 | `int("-３")` is -3 |
| PyText.ArabicIndicLikeAscii | src/persyval/services/commands/args_config.py:333 | `int("٣")` and `int("3")` are both 3 |
| ArgsConfig.ToDate | src/persyval/services/commands/args_config.py:343-344 | `date.fromisoformat` gives a valid calendar date whenever it succeeds |
| ArgsConfig.ParseArgToArgResult | src/persyval/services/commands/args_config.py:314-346 | `None` coerces to `None`, and a parser function overrides the built-in coercion |
| ArgsConfig.ListArgCoerces | src/persyval/services/commands/args_config.py:339-340 | LIST_BY_COMMA text without a parser becomes the list of its non-empty comma pieces |
| ArgsConfig.IntRejectsNonNumeric | src/persyval/services/commands/args_config.py:331-336 | INT text without a parser becomes its integer, or fails with `InvalidCommandError` "Invalid integer value: 'text'" |
| ArgsConfig.Instantiate | src/persyval/services/commands/args_config.py:210 | `result_cls(**result_dict)` validates the fields in declaration order and succeeds iff every one does; the result then holds each field's validated stored value, else its default, in field order; otherwise the error is the first failing field's |
| ArgsConfig.FieldResult | src/persyval/services/commands/args_config.py:210 | a field takes its stored value after its type's validation, else its default, which is not validated, else fails with "Field required" |
| ArgsConfig.CoerceBool | src/persyval/services/handlers/contact_delete.py:14 | a `bool \| None` field accepts exactly `None`, a bool, 0 and 1; 0 and 1 become false and true and the rest is kept; every rejection is a validation error |
| ArgsConfig.CoerceUuid | src/persyval/services/handlers/contact_delete.py:13 | a `UUID` field accepts exactly a UUID and text the UUID parser reads, the text becoming the parsed UUID; every rejection is a validation error |
| ArgsConfig.CoerceField | src/persyval/services/handlers/contact_delete.py:12-14 | the lax validation of a declared field type: an untyped field takes anything; an optional bool takes `None`, a bool, or 0 and 1 as false and true; an `int` takes an int, or a bool as 0 or 1, and then runs its after-validator; a UUID field takes a UUID, or text the UUID parser accepts, as that UUID; anything else is a validation error |
| ArgsConfig.AfterValidated | src/persyval/services/handlers/contacts_get_upcoming_birthdays.py:26-27 | an after-validator's result is kept; a `ValueError` it raises becomes a validation error with the same message, and any other exception passes through |
| ArgsConfig.Parse | src/persyval/services/commands/args_config.py:134-210 | the loop over the argument descriptions computes exactly the whole-parse function: pre-validation, one step per argument, then the result object |
| ArgsConfig.SkipOnlyOnNone | src/persyval/services/commands/args_config.py:152-161 | an argument is skipped only in non-interactive mode, and exactly when its value after defaults is `None` |
| ArgsConfig.InteractiveStoresEveryArgument | src/persyval/services/commands/args_config.py:145-208 | in interactive mode a successful parse stores every argument, under its own name, in declaration order |
| ArgsConfig.RequiredMissing | src/persyval/services/commands/args_config.py:190-192 | a required argument that stays falsy (no default, factory or prompt) fails with "Required argument `name` is missing." in either mode |
| ArgsConfig.FactoryValueNotSkipped | src/persyval/services/commands/args_config.py:152-161 | a default factory's value, even a falsy one such as `[]`, is not skipped in non-interactive mode |
| ArgsConfig.SuppliedTokenStep | src/persyval/services/commands/args_config.py:152-208 | a truthy token skips defaults and prompts and goes straight to coercion and validation |
| ArgsConfig.CoercionFailureRetagged | src/persyval/services/commands/args_config.py:194-201 | a coercion failure is re-raised with the same kind and the message "Can't parse argument `name`: value" |
| ArgsConfig.ValidatorSeesNone | src/persyval/services/commands/args_config.py:203-205 | the validator runs even on a value that stayed `None`, and its result is what is stored |
| ArgsConfig.CustomPromptStep | src/persyval/services/commands/args_config.py:172-208 | for an optional argument whose factory gives a falsy value and whose prompt is custom, the handler's answer, or the factory's value when the answer is falsy, is coerced and stored, in either mode |
| ArgsConfig.ReparseTokens | src/persyval/services/commands/args_config.py:99-109 | `reparse` builds one token per argument, `str(v)` for a truthy field and `None` for a falsy one, and fails iff the earlier result lacks a field |
| ArgsConfig.ReparseDropsFalsy | src/persyval/services/commands/args_config.py:108 | False, 0, "", [] and {} are fed back as missing tokens, so they are re-resolved as missing; True becomes "True" |
| ArgsConfig.Names | src/persyval/services/commands/args_config.py:146 | the names of the arguments, in declaration order |
| ConvertBool.ConvertCommandPartToBool | src/persyval/utils/convert_command_part_to_bool.py:1-4 | a bool is returned unchanged; a string is true exactly when its lower-case form is one of "1", "true", "yes", "y", "on"; any other value raises `AttributeError` |
| ConvertBool.ConvertIgnoresCase | src/persyval/utils/convert_command_part_to_bool.py:4 | a word and its lower-case form convert alike |
| ConvertBool.ConvertStringTotal | src/persyval/utils/convert_command_part_to_bool.py:4 | a string never raises, and every string outside the truthy words reads as false |
| ConvertBool.ConvertExamples | src/persyval/utils/convert_command_part_to_bool.py:4 | "TRUE" and "Yes" are true; "false", "no" and "garbage" are false |
| Commands.ParseCommand | src/persyval/services/commands/commands_enum.py:5-14 | `Command(s)` succeeds exactly when `s` is, case-sensitively, the value of some command, and returns that command |
| Commands.CommandValues | src/persyval/services/commands/commands_enum.py:12-14 | the only command values are "help" and "exit" |
| Commands.ParseInput | src/persyval/services/parse_input/parse_input.py:38-50 | blank input is HELP with no arguments; a first word that is not a command value fails with `InvalidCommandError` carrying the raw input; otherwise the command and the remaining words, none of them empty or holding whitespace |
| Commands.BlankInputIsHelp | src/persyval/services/parse_input/parse_input.py:41-44 | input made only of whitespace gives the default command, HELP, with no arguments |
| Commands.ParseInputKeepsWords | src/persyval/services/parse_input/parse_input.py:41-50 | the command and its arguments concatenated are the input without its whitespace, and the argument count is the word count minus one |
| Commands.ParseInputOfWords | src/persyval/services/parse_input/parse_input.py:41-50 | words joined with single spaces, the first a command value, parse back to that command and the other words |
| Commands.ParseInputOfJoined | src/persyval/services/parse_input/parse_input.py:41-50 | round trip: a command's value followed by words, joined with spaces, parses to that command and exactly those words |
| Commands.NoDirectArgsCheck | src/persyval/services/handlers_base/helpers/no_direct_args_check.py:9-12 | the check passes exactly when there are no arguments at all, and otherwise fails with "Command does not take any arguments." |
| Commands.IterateOverCommandsMeta | src/persyval/services/commands/iterate_over_commands_meta.py:12-19 | the walk succeeds iff every command of the order is registered and, without `show_hidden`, its entry has a `hidden` attribute; it then yields the registry entries of the order, in order, less those whose `hidden` is true unless `show_hidden`; otherwise it fails at the first command it cannot pass, with `KeyError` for an unregistered one and `AttributeError` for a missing `hidden` |
| Commands.SelectShown | src/persyval/services/commands/iterate_over_commands_meta.py:16-19 | the entries kept are exactly the listed ones the walk shows |
| Commands.SelectShownAppend | src/persyval/services/commands/iterate_over_commands_meta.py:13-19 | the selection over two listings in a row is the first one's selection followed by the second's, so the order of the commands is kept |
| Commands.SelectShownAll | src/persyval/services/commands/iterate_over_commands_meta.py:16-19 | when every entry is shown, none is left out and the order is unchanged |
| Commands.NoHiddenAttributeFails | src/persyval/services/commands/iterate_over_commands_meta.py:13-16 | when no registry entry has a `hidden` attribute, the default walk fails at its first command, with `AttributeError` when that one is registered, and the completer cannot be built |
| Commands.ShowHiddenYieldsAll | src/persyval/services/commands/iterate_over_commands_meta.py:12-19 | with `show_hidden` the listing succeeds iff every listed command is registered, and then holds each command's entry, in order |
| Commands.WordBeforeCursor | src/persyval/services/console/completer.py:27 | the word before the cursor is a suffix of the text and holds no whitespace |
| Commands.MatchingHints | src/persyval/services/console/completer.py:29-31 | exactly the hints starting with the word are offered, in hint order, each replacing the word |
| Commands.GetCompletions | src/persyval/services/console/completer.py:17-31 | nothing is offered once the text, left-stripped, holds a space; otherwise the hints matching the lower-cased word before the cursor |
| Commands.EmptyWordOffersAll | src/persyval/services/console/completer.py:27-31 | with no word typed every hint is offered, in order, replacing nothing |
| Commands.OffersAppend | src/persyval/services/console/completer.py:29-31 | a hint is offered by two listings in a row iff one of them offers it |
| Commands.GetCompleterHints | src/persyval/services/console/completer.py:34-35 | the completer can be built iff HELP and EXIT are both registered with a `hidden` attribute; its hints are then the values of the commands that are not hidden, in display order, each a command value; otherwise it fails with the walk's first error |
| ExecutionQueues.FullArgs | src/persyval/services/execution_queue/execution_queue.py:16-18 | `HandlerFullArgs(command=c)` holds that command, and its arguments default to `None` |
| ExecutionQueues.ExecutionQueue.constructor | src/persyval/services/execution_queue/execution_queue.py:24-25 | a freshly created queue is empty |
| ExecutionQueues.ExecutionQueue.Put | src/persyval/services/execution_queue/execution_queue.py:21 | `put` adds exactly one item at the tail and keeps the queued items and their order |
| ExecutionQueues.ExecutionQueue.Get | src/persyval/services/execution_queue/execution_queue.py:21 | `get` removes and returns the oldest item, leaving the rest in order |
| ExecutionQueues.FifoOrder | src/persyval/services/execution_queue/execution_queue.py:21 | items come out in the order they were put, also when one is put after an earlier one was taken |
| ExecutionQueues.Drain | src/persyval/services/execution_queue/execution_queue.py:21 | getting until the queue is empty yields exactly what it held, in order |
| FieldMeta.Field | src/persyval/services/model_meta/field_meta.py:14-44 | a descriptor given only a name has no aliases and no parse function, is not list-based, is filterable, sortable and groupable, and filters PARTIAL |
| FieldMeta.FirstMatch | src/persyval/services/model_meta/field_meta.py:62-64 | the position found is that of the first field, in declaration order, whose name or one of whose aliases equals the key; none is found only when no field answers to it |
| FieldMeta.GetFieldNameFact | src/persyval/services/model_meta/field_meta.py:60-67 | a failed lookup is the `KeyError` "Field with name or alias '<normalised key>' not found." |
| FieldMeta.GetFieldNameFactFindsFirst | src/persyval/services/model_meta/field_meta.py:60-64 | the lookup strips and lower-cases its input, succeeds iff some field answers to that key by name or alias, and returns the name of the first such field |
| FieldMeta.UpperCaseAliasNeverMatches | src/persyval/services/model_meta/field_meta.py:61-63 | aliases are compared as stored, so an alias with an upper-case letter never equals a normalised input |
| FieldMeta.LookupIgnoresCaseOfInput | src/persyval/services/model_meta/field_meta.py:61-64 | a field is found by its name whatever the case and the surrounding whitespace of the input |
| FieldMeta.LookupIgnoresFlags | src/persyval/services/model_meta/field_meta.py:62-64 | the search looks only at names and aliases: two field lists equal in those find the same position |
| FieldMeta.SameLookupWithoutFlags | src/persyval/services/model_meta/field_meta.py:60-67 | the `is_filterable` and `is_sortable` flags play no part in the lookup |
| FieldMeta.RegistryKeys | src/persyval/services/model_meta/field_meta.py:57-58 | the registry has an entry for exactly the field names |
| FieldMeta.RegistryLast | src/persyval/services/model_meta/field_meta.py:57-58 | a name maps to the last field declared with it |
| FieldMeta.GetFieldsMetaRegistry | src/persyval/services/model_meta/field_meta.py:57-58 | the dict comprehension maps exactly the field names, each to the last field carrying it |
| FieldMeta.LookupResultIsRegistered | src/persyval/services/model_meta/field_meta.py:57-64 | every name the lookup returns has a registry entry |
| FieldMeta.FieldsWhere | src/persyval/services/model_meta/field_meta.py:69-76 | the list comprehension keeps exactly the fields passing the test |
| FieldMeta.FieldsWhereAppend | src/persyval/services/model_meta/field_meta.py:69-76 | filtering keeps the declaration order: filtering a concatenation concatenates the filtered parts |
| FieldMeta.FieldsWhereAll | src/persyval/services/model_meta/field_meta.py:69-76 | when every field passes, the list is returned as it is |
| FieldMeta.GetFieldsForFiltering | src/persyval/services/model_meta/field_meta.py:69-70 | exactly the declared fields that are filterable |
| FieldMeta.GetFieldsForSorting | src/persyval/services/model_meta/field_meta.py:75-76 | exactly the declared fields that are sortable |
| FieldMeta.AllFieldsListed | src/persyval/services/model_meta/field_meta.py:69-76 | when every field is filterable and sortable both getters return all fields in declaration order |
| FieldMeta.FieldNames | src/persyval/services/model_meta/field_meta.py:72-73 | the names of the fields, in order |
| FieldMeta.DefaultFieldIsListed | src/persyval/services/model_meta/field_meta.py:14-76 | a field with default flags is offered for filtering and sorting, and the lookup finds it exactly when the normalised input is its name |
| ModelMeta.FromClass | src/persyval/services/model_meta/model_meta_info.py:17-28 | the singular name is the class name, the plural name the class name with "s" appended; supplied descriptors are kept, and none gives an empty field list |
| ModelMeta.NoDescriptorsNoLookup | src/persyval/services/model_meta/model_meta_info.py:12-15 | a model declared without descriptors fails every field-name lookup with `KeyError` |
| SortAndFilter.ParseEnum | src/persyval/services/handlers/shared/sort_and_filter.py:176 | the mode parser gives no mode for a falsy value, the member for one of the enum's values, and `ValueError` "… is not a valid …" for anything else |
| SortAndFilter.ModeValuesParse | src/persyval/services/handlers/shared/sort_and_filter.py:26-35 | each mode's value parses back to itself, and the values of the two enums are disjoint, so neither parser accepts the other's values |
| SortAndFilter.OrderModeParses | src/persyval/services/handlers/shared/sort_and_filter.py:176 | "default" and "custom" parse as order modes and are not filter-mode values |
| SortAndFilter.FilterModeParses | src/persyval/services/handlers/shared/sort_and_filter.py:193 | "all" and "filter" parse as filter modes and are not order-mode values |
| SortAndFilter.ValidateOrderItems | src/persyval/services/handlers/shared/sort_and_filter.py:149-163 | the order-query validator succeeds iff every item does, then holds each item's validated form in order, and otherwise reports the first failing item's error |
| SortAndFilter.ValidateOrderItemsStep | src/persyval/services/handlers/shared/sort_and_filter.py:150-161 | the validation from item `i` on is that item's result followed by the rest, a failure stopping it |
| SortAndFilter.ValidateOrderQueryLoop | src/persyval/services/handlers/shared/sort_and_filter.py:145-165 | the `new_list` loop computes exactly the validator function: leading "-"s stripped, the name resolved, one "-" put back, `KeyError` "Ordering by 'k' is not allowed." on the first unknown key |
| SortAndFilter.OrderItemRoundTrip | src/persyval/services/handlers/shared/sort_and_filter.py:151-159 | a validated item starts with "-" iff the original did, and without its "-" it is the field name found, so the sort reads back that field and direction |
| SortAndFilter.ValidateOrderItemIdempotent | src/persyval/services/handlers/shared/sort_and_filter.py:151-159 | when field names resolve to themselves, validating an already validated item changes nothing |
| SortAndFilter.RenameKeysKeys | src/persyval/services/handlers/shared/sort_and_filter.py:106-116 | the renamed dict has exactly the field names the query keys resolve to |
| SortAndFilter.RenameKeysOk | src/persyval/services/handlers/shared/sort_and_filter.py:232-247 | renaming succeeds iff every key resolves and every value is accepted |
| SortAndFilter.RenameKeysFirstUnknown | src/persyval/services/handlers/shared/sort_and_filter.py:233-237 | the first key that does not resolve is reported as `KeyError` "Filtering by 'k' is not allowed.", whatever follows it |
| SortAndFilter.RenameKeysLoop | src/persyval/services/handlers/shared/sort_and_filter.py:231-249 | the `new_dict` loop shared by both filter-query validators computes exactly the renaming function |
| SortAndFilter.ValidateFilterQuery | src/persyval/services/handlers/shared/sort_and_filter.py:102-118 | an empty query validates to an empty dict, and a value that is not a dict has no `items` and raises `AttributeError` |
| SortAndFilter.ParseFuncFor | src/persyval/services/handlers/shared/sort_and_filter.py:239-243 | the parse function is that of the first field with the resolved name, and none when no field has that name |
| SortAndFilter.DataActionValue | src/persyval/services/handlers/shared/sort_and_filter.py:245 | a field with a parse function compares with `parse_func(val)`, any other with `val.lower()` |
| SortAndFilter.ValidatedKeysRegistered | src/persyval/services/handlers/shared/sort_and_filter.py:269-275 | every key of a validated query is in the registry, so `fields_meta_registry[field_name]` never raises |
| SortAndFilter.OrderQuerySkippedUnlessCustom | src/persyval/services/handlers/shared/sort_and_filter.py:121-126 | unless the order mode picked earlier is "custom" the order query is not asked for and resolves to `[]` |
| SortAndFilter.OrderQueryAskedWhenCustom | src/persyval/services/handlers/shared/sort_and_filter.py:124-140 | with "custom" picked, the answer to the prompt is split on commas and validated |
| SortAndFilter.FilterQuerySkippedUnlessFilter | src/persyval/services/handlers/shared/sort_and_filter.py:85-90 | unless the filter mode picked earlier is "filter" the filter query is not asked for and resolves to `{}` |
| SortAndFilter.StrDict | src/persyval/services/handlers/shared/sort_and_filter.py:222 | the `dict[str, str]` filter query as a dict of string values, entry by entry |
| SortAndFilter.FieldMatchesIgnoresCase | src/persyval/services/handlers/shared/sort_and_filter.py:290-301 | the field's text is lower-cased before comparing, so its case never matters |
| SortAndFilter.ExactImpliesPartial | src/persyval/services/handlers/shared/sort_and_filter.py:284-303 | an EXACT match is also a PARTIAL one, and the empty query value matches every scalar field partially |
| SortAndFilter.ListFieldMatchesSomeElement | src/persyval/services/handlers/shared/sort_and_filter.py:285-299 | a list-based field passes exactly when one of its elements alone would pass |
| SortAndFilter.ListFieldPasses | src/persyval/services/handlers/shared/sort_and_filter.py:286-297 | a list-based field passes iff some element equals (EXACT) or contains (PARTIAL) the query value after `str(e).lower()` |
| SortAndFilter.ExactNonStringNeverMatches | src/persyval/services/handlers/shared/sort_and_filter.py:290 | an EXACT query value that is not a string, such as one a parse function produced, never equals `str(v).lower()` |
| SortAndFilter.ItemMatchesAll | src/persyval/services/handlers/shared/sort_and_filter.py:273-308 | the queries are combined with AND: an item passes iff for every entry the field is registered, present, not `None` and matches |
| SortAndFilter.MatchItem | src/persyval/services/handlers/shared/sort_and_filter.py:273-305 | the `is_good` loop over the query entries computes exactly the per-item match, stopping at the first failure |
| SortAndFilter.Filtered | src/persyval/services/handlers/shared/sort_and_filter.py:271-308 | filtering returns no more items than it was given |
| SortAndFilter.FilteredOk | src/persyval/services/handlers/shared/sort_and_filter.py:271-308 | filtering succeeds iff no item's matching raises |
| SortAndFilter.FilteredKeepsMatching | src/persyval/services/handlers/shared/sort_and_filter.py:271-308 | a successful filtering keeps exactly the items that match |
| SortAndFilter.FilteredNothing | src/persyval/services/handlers/shared/sort_and_filter.py:271-308 | when no item matches the result is empty |
| SortAndFilter.FilteredFirstError | src/persyval/services/handlers/shared/sort_and_filter.py:271-308 | a failing filtering reports the error of the first item whose matching raises |
| SortAndFilter.FilteredAppend | src/persyval/services/handlers/shared/sort_and_filter.py:272-308 | filtering keeps the input order: filtering a concatenation filters each part in turn |
| SortAndFilter.FilteredEmptyQuery | src/persyval/services/handlers/shared/sort_and_filter.py:274 | an empty query keeps every item, in order |
| SortAndFilter.KeyOrderStrictWeak | src/persyval/services/handlers/shared/sort_and_filter.py:324-330 | the order of one query entry, reversed or not, is a strict weak order, as `list.sort` needs |
| SortAndFilter.SortKeys | src/persyval/services/handlers/shared/sort_and_filter.py:327-328 | the keys are computed for every item before any comparison, and the first item without the attribute raises `AttributeError` |
| SortAndFilter.SortStep | src/persyval/services/handlers/shared/sort_and_filter.py:324-330 | one `result.sort(...)` succeeds iff every item has the attribute and the keys are mutually comparable, and then is the stable sort by that key, reversed for a leading "-" |
| SortAndFilter.Orders | src/persyval/services/handlers/shared/sort_and_filter.py:323-325 | one order per entry of the order query, in query order |
| SortAndFilter.CustomOrderIsLex | src/persyval/services/handlers/shared/sort_and_filter.py:318-330 | CUSTOM ordering is a permutation of the filtered items sorted lexicographically by the query's keys, so the first key dominates |
| SortAndFilter.CustomOrderStable | src/persyval/services/handlers/shared/sort_and_filter.py:318-330 | CUSTOM ordering is stable: the result is the items rearranged by a permutation of their positions, and items that no key of the query tells apart keep their input order |
| SortAndFilter.CustomOrderIsSortByEach | src/persyval/services/handlers/shared/sort_and_filter.py:323-330 | sorting once per key in reversed order is the same as the sort-by-each reference definition |
| SortAndFilter.CustomOrderFails | src/persyval/services/handlers/shared/sort_and_filter.py:323-330 | a sort that fails for a later key fails the whole ordering with its error |
| SortAndFilter.FilteredStep | src/persyval/services/handlers/shared/sort_and_filter.py:272-308 | filtering from item `i` on is that item, if it matches, followed by the rest, a raise stopping it |
| SortAndFilter.FilterItems | src/persyval/services/handlers/shared/sort_and_filter.py:271-308 | the loop appending each matching item to `result` computes exactly the filtering function |
| SortAndFilter.OrderItems | src/persyval/services/handlers/shared/sort_and_filter.py:319-330 | the loop over the reversed order query computes exactly the custom ordering function |
| SortAndFilter.FilterIterable | src/persyval/services/handlers/shared/sort_and_filter.py:252-336 | `filter_iterable` computes exactly its specification: filter by mode, then order by mode |
| SortAndFilter.AllDefaultIsIdentity | src/persyval/services/handlers/shared/sort_and_filter.py:261-317 | ALL with DEFAULT ordering returns the items as they are |
| SortAndFilter.MissingModes | src/persyval/services/handlers/shared/sort_and_filter.py:310-334 | a missing filter mode raises "Filter mode is not specified." first; a missing order mode raises "Order mode is not specified." after the filtering, and never succeeds |
| SortAndFilter.FilterDefaultKeepsMatching | src/persyval/services/handlers/shared/sort_and_filter.py:263-308 | FILTER with DEFAULT ordering keeps exactly the items for which every validated query entry holds |
| SortAndFilter.EmptyFilterKeepsAll | src/persyval/services/handlers/shared/sort_and_filter.py:263-308 | FILTER with an empty query keeps every item |
| UpcomingBirthdays.Entry | src/persyval/services/data_actions/contacts_get_upcoming_birthdays.py:29-47 | a contact without a birthday contributes nothing; one with a birthday fails iff its nearest anniversary cannot be computed, and contributes an entry iff that anniversary is at most `target_days` away, the entry carrying its name, that date, and `handle_weekend_birthday` of that date: the date itself when it is a weekday, the following Monday when it is a Saturday or Sunday |
| UpcomingBirthdays.Entries | src/persyval/services/data_actions/contacts_get_upcoming_birthdays.py:29-47 | never more entries than contacts |
| UpcomingBirthdays.EntriesOk | src/persyval/services/data_actions/contacts_get_upcoming_birthdays.py:29-47 | the listing fails exactly when some contact's anniversary cannot be computed |
| UpcomingBirthdays.EntriesMeaning | src/persyval/services/data_actions/contacts_get_upcoming_birthdays.py:29-47 | every entry comes from a contact that is due, and every contact that is due has its entry |
| UpcomingBirthdays.EntriesCount | src/persyval/services/data_actions/contacts_get_upcoming_birthdays.py:29-47 | there are exactly as many entries as due contacts |
| UpcomingBirthdays.UpcomingSorted | src/persyval/services/data_actions/contacts_get_upcoming_birthdays.py:49-50 | with `sort=True` the entries come out in congratulation-date order and are a permutation of the unsorted ones |
| UpcomingBirthdays.EntriesStep | src/persyval/services/data_actions/contacts_get_upcoming_birthdays.py:29-47 | the listing from contact `i` on is that contact's entry, if any, then the rest, a failure stopping it |
| UpcomingBirthdays.ContactsGetUpcomingBirthdays | src/persyval/services/data_actions/contacts_get_upcoming_birthdays.py:18-52 | the loop over the stored contacts, then the optional sort, computes exactly the listing specification, for "today" given as a parameter |
| NotesByTag.NormalizedIsNeverNoTag | src/persyval/services/handlers/notes_list.py:42-45 | a normalised tag is lower-case, so it never collides with the "(No tag)" key |
| NotesByTag.GroupKeys | src/persyval/services/handlers/notes_list.py:40-45 | a note with tags is filed once under each tag, stripped and lower-cased; a note with `None` or an empty list of tags only under "(No tag)" |
| NotesByTag.GroupNotesByTag | src/persyval/services/handlers/notes_list.py:36-47 | the loops over the notes and their tags build exactly the grouping function |
| NotesByTag.CountPositive | src/persyval/services/handlers/notes_list.py:41-43 | a note is filed under a key at least once exactly when the key is one of its group keys |
| NotesByTag.AppendEntry | src/persyval/services/handlers/notes_list.py:43 | appending to a `defaultdict(list)` creates the group if missing and adds the note at its end, leaving the other groups alone |
| NotesByTag.AppendAllEntry | src/persyval/services/handlers/notes_list.py:41-43 | filing a note under each of its keys adds it to a group once per occurrence of that key and creates the missing groups |
| NotesByTag.GroupedMeaning | src/persyval/services/handlers/notes_list.py:36-47 | each group holds exactly the notes filed under its key, in input order, once per occurrence, and a group exists iff it is non-empty |
| NotesByTag.MembersNonEmpty | src/persyval/services/handlers/notes_list.py:36-47 | a group is non-empty exactly when some note is filed under its key |
| NotesByTag.GroupKeysMeaning | src/persyval/services/handlers/notes_list.py:36-47 | the groups are exactly the normalised tags of the notes, and "(No tag)" exists iff some note has no tags |
| NotesByTag.TagLessStrictWeak | src/persyval/services/handlers/notes_list.py:103-106 | the key `(tag == "(No tag)", tag)` orders the group names strictly and weakly |
| NotesByTag.SortedTagsMeaning | src/persyval/services/handlers/notes_list.py:102-106 | the offered group names are sorted, each listed once, all groups listed, and "(No tag)" comes last whenever present |
| NoteEditor.PostProcess | src/persyval/services/handlers/notes/add_and_edit.py:63-69 | a cancelled edit and an all-whitespace text give `None`; any other text comes back stripped and non-empty |
| NoteEditor.KeptLines | src/persyval/services/handlers/notes/add_and_edit.py:72-73 | `clean` keeps only lines that are non-blank and not comments, never more lines than it was given |
| NoteEditor.KeptLinesAllKept | src/persyval/services/handlers/notes/add_and_edit.py:72-73 | lines that are all kept come through `clean`'s filter unchanged and in order |
| NoteEditor.Clean | src/persyval/services/handlers/notes/add_and_edit.py:72-73 | a cleaned section has no whitespace at either end |
| NoteEditor.CleanOfCommentsOnly | src/persyval/services/handlers/notes/add_and_edit.py:72-73 | a section of blank and comment lines only cleans to the empty string |
| NoteEditor.SplitOnce | src/persyval/services/handlers/notes/add_and_edit.py:79-82 | `split(marker, maxsplit=1)`: the title part holds no marker and, when the marker occurs, the text is title part + marker + body part; without it the body part is empty |
| NoteEditor.DefaultTitle | src/persyval/services/handlers/notes/add_and_edit.py:89-90 | the fallback title is "Note " followed by 16 characters of date and time, with no whitespace at its ends |
| NoteEditor.ExtractTitleAndBody | src/persyval/services/handlers/notes/add_and_edit.py:76-94 | title and body are the cleaned parts, an empty title falling back to "Note <date> <time>" and an empty body to "(No content)", so both always hold text |
| NoteEditor.ExtractedNoteIsValid | src/persyval/services/handlers/notes/add_and_edit.py:31-32 | the note built from an extracted title and body always passes the `Note` model's validation |
| NoteEditor.NoMarkerNoBody | src/persyval/services/handlers/notes/add_and_edit.py:79-92 | text without the marker line is all title, and the body is "(No content)" |
| NoteEditor.FormEditorTemplateText | src/persyval/services/handlers/notes/add_and_edit.py:97-108 | the template is the two title comment lines, the title, a blank line, the marker, the body comment line, a blank line and the content, a missing note or title giving empty text |
| NoteEditor.TemplateRoundTrip | src/persyval/services/handlers/notes/add_and_edit.py:63-108 | a note saved as the template shows it comes back from `open_editor_template` and `extract_title_and_body` with its title and content unchanged, or the defaults where they were empty |
| NoteEditor.NewNoteTemplate | src/persyval/services/handlers/notes/add_and_edit.py:21-32 | the template for a new note, saved unchanged, gives the default title and "(No content)" |
| NoteEditor.TemplateLinesFacts | src/persyval/services/handlers/notes/add_and_edit.py:101-106 | the template's fixed lines are comments `clean` drops, and only the marker line holds the marker |
| Preview.TruncateMeaning | src/persyval/services/handlers/note_list.py:16-22 | text that fits is returned as it is, and longer text is cut to exactly `max_width` characters: its first `max_width - 3` followed by "..." |
| Preview.TruncateTextSingleLine | src/persyval/services/handlers/note_list.py:12-22 | the note list's preview holds no newline and is at most 40 characters, and short text only has its newlines turned into spaces |
| NoteQueries.IsQueryOneEquals | src/persyval/services/handlers/notes.py:59-60 | a piece is a query exactly when it holds exactly one "=" |
| NoteQueries.ParseQueriesFrom | src/persyval/services/handlers/notes.py:56-67 | the parsed queries form a well-formed dictionary |
| NoteQueries.ParseQueries | src/persyval/services/handlers/notes.py:56-67 | the loop over the pieces computes exactly the parsing function: non-queries skipped, an unknown key raising `ValueError`, a repeated key overwritten in place |
| NoteQueries.ParseQueriesOk | src/persyval/services/handlers/notes.py:56-67 | parsing fails exactly when some query names a key outside `title`, `content` and `tag` |
| NoteQueries.ParseQueriesKeys | src/persyval/services/handlers/notes.py:56-67 | the keys of the result are exactly those the queries name |
| NoteQueries.ParseQueriesLastWins | src/persyval/services/handlers/notes.py:63-65 | a key's value is the raw value of the last query naming it |
| NoteQueries.LaterKeysKept | src/persyval/services/handlers/notes.py:65 | a key no later query names keeps its value |
| NoteQueries.FilterQueries | src/persyval/services/handlers/notes.py:147-162 | an accepted answer has at least one query and only allowed keys, so the handler's checks at lines 149 and 159-162 never fire |
| NoteQueries.NoQueryRefused | src/persyval/services/handlers/notes.py:153-157 | an answer with no `key=value` piece is refused with `InvalidCommandError` "Queries are required." |
| NoteQueries.NoQueriesParseEmpty | src/persyval/services/handlers/notes.py:58-61 | pieces that are not queries leave the result as it was |
| NoteQueries.FilterByPromptTag | src/persyval/services/handlers/notes.py:164-172 | listing with the prompt's queries in FILTER mode succeeds exactly when no `tag` query is given, since the handler accepts `tag` but the list action's registry does not know it |
| ListActions.ContactsListAll | src/persyval/services/data_actions/contacts_list.py:16-24 | listing the contacts in ALL mode with the default order gives every stored contact, in storage order |
| ListActions.ContactsListFilterRejected | src/persyval/services/data_actions/contacts_list.py:16-24 | `Contact` declares no field metadata, so FILTER with any query raises `KeyError` "Filtering by 'k' is not allowed." on its first key |
| ListActions.ListFilterModeRegistryKeyed | src/persyval/services/data_actions/contact_list.py:22-34 | every filter mode has its registry entry, keyed by its own mode, titled "Show all" or "Filter" |
| ListActions.ContactList | src/persyval/services/data_actions/contact_list.py:46-53 | `contact_list` succeeds exactly in ALL mode, with the stored contacts, and raises `NotImplementedError` otherwise |
| ListActions.ContactListsAgree | src/persyval/services/data_actions/contact_list.py:46-53 | in ALL mode `contact_list` and `contacts_list` with the default order return the same contacts |
| ListActions.ExtractQueries | src/persyval/services/data_actions/notes_list.py:13-30 | extraction succeeds iff only `title` and `content` are queried, returns those queries lower-cased or `None`, and otherwise raises `ValueError` |
| ListActions.LowerIfSet | src/persyval/services/data_actions/notes_list.py:21-24 | a query that is set is lower-cased, a missing one stays missing |
| ListActions.ExtractQueriesUnknownKeys | src/persyval/services/data_actions/notes_list.py:26-28 | the error message "Unknown queries. Keys: …" names exactly the unknown keys, in the order they were given |
| ListActions.LowerSlice | src/persyval/services/data_actions/notes_list.py:39-45 | lower-casing a piece of a text is taking that piece of the lower-cased text |
| ListActions.NoteFoundByOwnText | src/persyval/services/data_actions/notes_list.py:33-48 | a note matches any piece of its own title together with any piece of its own content, whatever their case |
| ListActions.EmptyQueriesMatch | src/persyval/services/data_actions/notes_list.py:38-48 | a missing or empty query matches every note |
| ListActions.MatchingNotes | src/persyval/services/data_actions/notes_list.py:60 | the filtered list is never longer than the stored notes |
| ListActions.MatchingNotesMeaning | src/persyval/services/data_actions/notes_list.py:60 | the comprehension keeps exactly the stored notes that match |
| ListActions.MatchingNotesAppend | src/persyval/services/data_actions/notes_list.py:60 | the comprehension keeps storage order: the result for a concatenation is the results for its parts, concatenated |
| ListActions.MatchingNotesAll | src/persyval/services/data_actions/notes_list.py:60 | when every note matches, all are returned as they are |
| ListActions.NotesListFiltered | src/persyval/services/data_actions/notes_list.py:51-60 | outside ALL, the listing succeeds iff only title and content are queried, and then returns exactly the stored notes that match |
| ListActions.NotesListRejectsTag | src/persyval/services/data_actions/notes_list.py:51-60 | a `tag` query outside ALL mode raises `ValueError` |
| ListActions.UidBeforeStrictWeak | src/persyval/services/data_actions/note_list.py:11 | ordering notes by uid is a strict weak order |
| ListActions.NoteListByUid | src/persyval/services/data_actions/note_list.py:8-13 | the list of stored notes comes back sorted by uid, as a permutation of the stored notes, one per uid |
| Storage.DataStorage.constructor | src/persyval/services/data_storage/data_storage.py:1-93 | a new storage holds no contacts and no notes and satisfies the storage invariant |
| RecordActions.ContactAdd | src/persyval/services/data_actions/contact_add.py:10-21 | an already stored uid raises `AlreadyExistsError` "Contact with uid … already exists." and changes nothing; otherwise the contact is stored under its uid, and the notes are untouched |
| RecordActions.ContactGet | src/persyval/services/data_actions/contact_get.py:10-18 | the stored contact is returned iff its uid is stored, and otherwise `NotFoundError` "Contact with uid … not found." |
| RecordActions.ContactUpdate | src/persyval/services/data_actions/contact_update.py:10-20 | the dictionary assignment never raises: the contact is stored under its uid, replacing or adding, and is returned |
| RecordActions.ContactDelete | src/persyval/services/data_actions/contact_delete.py:10-19 | a missing uid raises `NotFoundError` and changes nothing; a stored one is removed, the rest kept in order |
| RecordActions.ContactRemove | src/persyval/services/data_actions/contact_remove.py:10-18 | the same effect on the contacts as `contact_delete` |
| RecordActions.NoteAdd | src/persyval/services/data_actions/note_add.py:10-20 | an already stored uid raises `AlreadyExistsError` and changes nothing; otherwise the note is stored under its uid |
| RecordActions.NoteGet | src/persyval/services/data_actions/note_get.py:11-19 | the stored note is returned iff its uid is stored, and otherwise `NotFoundError` "Note with uid … not found." |
| RecordActions.UpdatedNote | src/persyval/services/data_actions/note_update.py:17-19 | the title is always replaced; the content is replaced iff it is not empty, an empty one being refused by validation after the title has already changed |
| RecordActions.NoteUpdate | src/persyval/services/data_actions/note_update.py:10-23 | a missing uid raises `NotFoundError` and changes nothing; a stored note is updated in its place, the contacts untouched |
| RecordActions.NoteDelete | src/persyval/services/data_actions/note_delete.py:10-19 | a missing uid raises `NotFoundError` and changes nothing; a stored note is removed |
| RecordActions.ContactLifeCycle | src/persyval/services/data_actions/contact_add.py:10-21 | on a new storage an added contact is found again unchanged, a second add is refused, the first delete succeeds and the second is refused, leaving no contacts |
| RecordActions.NoteEditEmptyContent | src/persyval/services/data_actions/note_update.py:16-19 | updating a note with an empty content fails validation yet leaves the new title in the stored note, in its place |
| Models.ParseNoteFilterKey | src/persyval/models/note.py:22-25 | `AllowedKeysToFilterForNote(s)` gives the member whose value is exactly `s`, and otherwise `ValueError` "'s' is not a valid AllowedKeysToFilterForNote" |
| Models.NoteFilterKeysAllowed | src/persyval/models/note.py:22-28 | the enum accepts exactly the strings of `ALLOWED_KEYS_TO_FILTER_FOR_NOTE`, and every member's value parses back to that member |
| Models.MakeNote | src/persyval/models/note.py:31-48 | a note is constructed iff its content is not empty, then with exactly the given fields; otherwise a `min_length` validation error |
| Models.SetTitle | src/persyval/models/note.py:33-52 | assigning the title accepts any string or `None`, changes only the title and keeps the note valid |
| Models.SetContent | src/persyval/models/note.py:37-52 | assigning the content is accepted iff it is not empty, changes only the content, and otherwise raises the `min_length` validation error |
| Models.NoteUidLine | src/persyval/models/note.py:70 | the uid line of a note's display has a fixed length of 44 characters |
| Models.NoteOutputTitled | src/persyval/models/note.py:57-70 | a note with a title, even an empty one, shows it as it is, in bold, followed by its uid |
| Models.NoteOutputUntitled | src/persyval/models/note.py:55-70 | a note without a title shows its content on one line in italics: whole when at most 40 characters, otherwise its first 37 characters and "..." |
| Models.NoteOutputEndsWithUid | src/persyval/models/note.py:70 | every note display ends with a newline and the uid in italics |
| Models.NoteMeta | src/persyval/models/note.py:74-106 | `Note.get_meta_info()` is named "Note" / "Notes" and carries the note's field descriptors |
| Models.NoteFieldTable | src/persyval/models/note.py:80-103 | uid is EXACT with a UUID parse function; title and content are PARTIAL; none of the three is groupable or list-based; tags is list-based, answers also to "tag" and is groupable |
| Models.NoteFieldsListed | src/persyval/models/note.py:80-103 | every field of a note may be filtered and sorted by |
| Models.NoteLookup | src/persyval/models/note.py:80-103 | a note resolves each field by its own name and "tag" to "tags"; any other name is a `KeyError` |
| Models.AllowedNoteKeysResolve | src/persyval/models/note.py:22-101 | each allowed filter key names a field of the note: "title" and "content" their own, "tag" the field "tags" |
| Models.LowerStripOfPlain | src/persyval/models/note.py:22-25 | a key of lower-case letters is its own normal form |
| Models.NoteUidQuery | src/persyval/models/note.py:86 | a uid query is renamed to "uid" and its value parsed into a UUID, or the validation fails |
| Models.NoteUidEntryFails | src/persyval/models/note.py:84-86 | a query comparing a note's uid with a parsed UUID never matches, since the EXACT check compares it with the lower-cased text of the uid |
| Models.NoteRegistryUid | src/persyval/models/note.py:81-87 | the note's registry holds the uid descriptor under "uid" |
| Models.NoteUidFilterNeverMatches | src/persyval/models/note.py:81-87 | filtering notes by uid in FILTER mode never keeps a note |
| Models.MakeContact | src/persyval/models/contact.py:41-68 | construction runs the phone, e-mail and birthday validators in field order, the first failure winning; only when all pass is an empty name refused; otherwise the contact holds the validated lists |
| Models.MakeContactValid | src/persyval/models/contact.py:41-68 | every contact construction accepts meets the field constraints: a non-empty name, validated phones and e-mails, a birthday not in the future |
| Models.BirthdayInput | src/persyval/models/contact.py:65-68 | the birthday field takes `None`, a date, or text in the `YYYY-MM-DD` form, read as that date; anything else is a validation error |
| Models.MakeContactFromInput | src/persyval/models/contact.py:41-68 | construction with the birthday in any accepted form is construction with the date it stands for; a birthday that is not a date always fails, as a validation error unless a phone or e-mail validator's error comes first |
| Models.BirthdayTextAsDate | src/persyval/tests/test_contacts_model.py:28-41 | a birthday given as its ISO text builds the same contact as the date itself |
| Models.DefaultsAccepted | src/persyval/models/contact.py:42-68 | a contact with every field but the name at its default is accepted |
| Models.EmptyNameRejected | src/persyval/models/contact.py:44 | `Contact(name="")` is rejected with the `min_length` validation error |
| Models.ContactUidPart | src/persyval/models/contact.py:99 | the uid segment of a contact's display has a fixed length of 47 characters |
| Models.AddressPartMeaning | src/persyval/models/contact.py:81-87 | the address segment is empty exactly when there is no address text, and a long address shows its first 7 characters and "..." |
| Models.ContactOutputShape | src/persyval/models/contact.py:78-101 | a contact's display starts with the name in bold and ends with the uid in italics |
| Models.ContactOutputBare | src/persyval/models/contact.py:78-101 | a contact without address text and birthday shows only its name and uid |
| Models.ContactMeta | src/persyval/models/contact.py:103-106 | `Contact.get_meta_info()` is named "Contact" / "Contacts" and declares no field descriptors |
| Models.ContactLookupFails | src/persyval/models/contact.py:103-106 | no field name resolves for a contact, and its registry is empty |
| Birthdays.BirthdayInYear | src/persyval/services/birthday/get_nearest_anniversary.py:13-17 | the anniversary lies in the given year and the birthday's month; it exists for every year `date` supports, and outside them `ValueError` "year … is out of range" is raised |
| Birthdays.BirthdayInYearDay | src/persyval/services/birthday/get_nearest_anniversary.py:9-17 | the anniversary keeps the birthday's day, except that 29 February becomes 28 February in a common year |
| Birthdays.BirthdayInOwnYear | src/persyval/services/birthday/get_nearest_anniversary.py:13-17 | in its own year a birthday is its own anniversary |
| Birthdays.NearestAnniversary | src/persyval/services/birthday/get_nearest_anniversary.py:20-26 | the nearest anniversary is not before today, and falls in this year or the next |
| Birthdays.NearestAnniversaryDefined | src/persyval/services/birthday/get_nearest_anniversary.py:20-26 | the nearest anniversary exists for every birthday and today, except when next year's is needed and is past year 9999 |
| Birthdays.NearestAnniversaryIsEarliest | src/persyval/services/birthday/get_nearest_anniversary.py:20-26 | no anniversary in any year is both not before today and earlier than the one returned |
| Birthdays.AnniversaryTodayIsToday | src/persyval/services/birthday/get_nearest_anniversary.py:21-23 | an anniversary falling on today is returned as today |
| Birthdays.WeekendRoom | src/persyval/services/birthday/get_nearest_anniversary.py:44-50 | a Saturday or Sunday always has the following Monday within the calendar, since 9999-12-31 is a Friday |
| Birthdays.HandleWeekend | src/persyval/services/birthday/get_nearest_anniversary.py:44-52 | the result is a weekday at most two days later; a weekday is kept, and Saturday and Sunday move to the next Monday |
| Birthdays.HandleWeekendIsFirstWorkday | src/persyval/services/birthday/get_nearest_anniversary.py:44-52 | every day from the input up to the result is a weekend day, so the result is the first weekday on or after it |
| Birthdays.FullYearsMeaning | src/persyval/services/birthday/validate_birthday.py:41 | `relativedelta(...).years` is the largest count of years whose anniversary has come by today |
| Birthdays.ValidateBirthday | src/persyval/services/birthday/validate_birthday.py:23-46 | no birthday is accepted as none; a future birthday raises `InvalidDataError` "Birthday date can not be in future."; an accepted birthday is returned as given |
| Birthdays.AgeLimit | src/persyval/services/birthday/validate_birthday.py:36-46 | a birthday not in the future is accepted exactly when its 201st anniversary is still to come |
| Birthdays.ExactlyMaxAgeAccepted | src/persyval/services/birthday/validate_birthday.py:8-42 | a birthday exactly 200 years ago today is accepted |
| Birthdays.FormatBirthdayForEdit | src/persyval/services/birthday/parse_and_format.py:24-25 | the edit form is ten characters with dashes at positions 4 and 7 |
| Birthdays.ParseBirthday | src/persyval/services/birthday/parse_and_format.py:28-29 | `None` and "" parse to no birthday, and any date parsed is a valid date |
| Birthdays.ParseFormatBirthday | src/persyval/services/birthday/parse_and_format.py:24-29 | formatting a birthday for editing and parsing it back gives the same date |
| Birthdays.FormatParseBirthday | src/persyval/services/birthday/parse_and_format.py:24-29 | a dashed string that parses is exactly the edit form of its date |
| Birthdays.ParseBirthdayPlain | src/persyval/services/birthday/parse_and_format.py:28-29 | "1990-01-01" parses as 1 January 1990 |
| Birthdays.ParseBirthdayLeapDay | src/persyval/services/birthday/parse_and_format.py:28-29 | "2000-02-29" parses as the leap day of 2000 |
| Birthdays.ParseBirthdayDayFirst | src/persyval/services/birthday/parse_and_format.py:28-29 | the day-first "01-01-1990" is refused |
| Birthdays.ParseBirthdayTimePart | src/persyval/services/birthday/parse_and_format.py:28-29 | a birthday with extra dashed parts is refused |
| Birthdays.ParseBirthdaySpaces | src/persyval/services/birthday/parse_and_format.py:28-29 | spaces are not accepted as separators |
| Birthdays.ParseBirthdayWord | src/persyval/services/birthday/parse_and_format.py:28-29 | a word is not a date |
| Dates.Weekday | src/persyval/services/birthday/get_nearest_anniversary.py:29-46 | `weekday()` is between 0 (Monday) and 6 (Sunday) |
| Dates.MaxDateFacts | src/persyval/services/birthday/get_nearest_anniversary.py:44-50 | 9999-12-31, the last date, is a Friday |
| Dates.OrdinalOrder | src/persyval/services/birthday/get_nearest_anniversary.py:23 | comparing dates is comparing their day numbers |
| Dates.OrdinalInjective | src/persyval/services/birthday/get_nearest_anniversary.py:23 | two valid dates with the same day number are equal |
| Dates.NextDay | src/persyval/services/birthday/get_nearest_anniversary.py:50 | the day after a date other than the last is valid and has the next day number |
| Dates.AddDays | src/persyval/services/birthday/get_nearest_anniversary.py:50 | adding `timedelta(days=n)` gives a valid date `n` day numbers later |
| Dates.WeekdayAdvances | src/persyval/services/birthday/get_nearest_anniversary.py:46-50 | the weekday advances by `n` modulo 7 when `n` days are added |
| Dates.FormatIso | src/persyval/services/birthday/parse_and_format.py:24-25 | `isoformat()` is ten characters with dashes at positions 4 and 7 |
| Dates.MakeDate | src/persyval/services/birthday/get_nearest_anniversary.py:16 | `date(y, m, d)` succeeds exactly for a valid calendar date |
| Dates.ParseIso | src/persyval/services/birthday/parse_and_format.py:29 | a date `fromisoformat` returns is a valid date |
| Dates.ParseFormatIso | src/persyval/services/birthday/parse_and_format.py:24-29 | the written form of a date reads back as that date |
| Dates.FormatParseIso | src/persyval/services/birthday/parse_and_format.py:24-29 | a date read from the dashed form is written back as exactly that text |
| Dates.ParseIsoUndashed | src/persyval/services/birthday/parse_and_format.py:29 | the undashed eight-digit form reads the year, month and day from fixed positions |
| Dates.ParseIsoIgnoresTail | src/persyval/services/birthday/parse_and_format.py:29 | in the undashed form of ten characters, the two after the day are not looked at |
| Dates.FormatForOutput | src/persyval/services/birthday/parse_and_format.py:20-21 | `strftime("%Y-%m-%d %A")` is the ISO form, a space and the English weekday name |
| Schemas.ParseOneArg | src/persyval/services/commands/args_config.py:134-210 | a one-argument schema parses to the instantiation of what its single step stored, or that step's error |
| Schemas.ParseFirstFails | src/persyval/services/commands/args_config.py:145-208 | a schema whose first argument's step fails fails with that error |
| Schemas.ParseTwoSteps | src/persyval/services/commands/args_config.py:145-210 | a two-argument schema whose steps both store a value parses to the instantiation of both |
| Schemas.InstantiateOne | src/persyval/services/commands/args_config.py:210 | a one-field result holds the field's validated stored value or its default, or fails with that field's error |
| Schemas.InstantiateTwo | src/persyval/services/commands/args_config.py:210 | a two-field result built from exactly those two fields holds both stored values after their validation, or fails with the first field's validation error, else the second's |
| Schemas.EmptySchemaTakesNothing | src/persyval/services/handlers/shared/args_i_empty.py:9-12 | a command without arguments accepts no tokens and refuses any with "Too many arguments provided." |
| Schemas.ForceSchemaParses | src/persyval/services/handlers/shared/args_i_force.py:6-18 | without a token `force` stays `None` in both modes; one token is read as a yes/no word; two are too many |
| Schemas.ForceReparseLosesFalse | src/persyval/services/handlers/shared/args_i_force.py:6-18 | reparsing a result whose `force` is `False` gives back `None`, the falsy field being fed back as a missing token |
| Schemas.DeleteSchemaOrdered | src/persyval/services/handlers/contact_delete.py:17-33 | the delete schemas pass the order check: both arguments are required |
| Schemas.DeleteNeedsUid | src/persyval/services/handlers/contact_delete.py:17-33 | without a uid the delete commands fail: "Not enough arguments provided." in non-interactive mode, "Required argument `uid` is missing." in interactive mode, since `uid` does not prompt |
| Schemas.DeleteFieldsStored | src/persyval/services/handlers/contact_delete.py:12-14 | a stored uid text and force bool become the parsed UUID and that bool, or a UUID validation error when the parser rejects the text |
| Schemas.ContactDeleteAsksForce | src/persyval/services/handlers/contact_delete.py:12-31 | interactively a contact uid alone is enough for the arguments: the required `force` is asked with a yes/no dialog and is always a bool; the result class then reads the uid as a UUID, and a text that is not one is a validation error |
| Schemas.ForceDialogAnswer | src/persyval/services/handlers/contact_delete.py:24-31 | the missing `force` is the yes/no dialog's answer |
| Schemas.NoteDeleteBadUid | src/persyval/services/handlers/note_delete.py:26-30 | a note uid `uuid.UUID` rejects fails with `ValueError` "Can't parse argument `uid`: …" |
| Schemas.ValidateDaysToShowBirthdays | src/persyval/services/handlers/contacts_get_upcoming_birthdays.py:15-23 | 1 to 365 days pass unchanged, other integers raise `ValueError` "Entered value should be between 1 and 365 days.", and a value not comparable with an int raises `TypeError` |
| Schemas.GetBirthdaysWithoutToken | src/persyval/services/handlers/contacts_get_upcoming_birthdays.py:26-39 | without a token non-interactive parsing gives the default of 7 days, while interactive parsing runs the validator on `None` and fails with `TypeError` |
| Schemas.GetBirthdaysNonNumeric | src/persyval/services/handlers/contacts_get_upcoming_birthdays.py:30-39 | a token that is not an integer fails as an unparseable `days` |
| Schemas.DaysStep | src/persyval/services/handlers/contacts_get_upcoming_birthdays.py:30-39 | an integer token is coerced and then range-checked |
| Schemas.DaysFieldStored | src/persyval/services/handlers/contacts_get_upcoming_birthdays.py:18-27 | an in-range stored `days` passes the result field's `int` type and its after-validator a second time unchanged |
| Schemas.GetBirthdaysNumeric | src/persyval/services/handlers/contacts_get_upcoming_birthdays.py:18-39 | an integer token within 1 to 365 is accepted as is; any other fails with the validator's `ValueError`, its message not rewritten |
| Schemas.GetBirthdaysArabicIndic | src/persyval/services/handlers/contacts_get_upcoming_birthdays.py:18-39 | the token "٣" asks for three days, exactly as "3" does |
| Phones.ParsePhonesKeepsPieces | src/persyval/services/phone/validate_phone_list.py:10-11 | only empty pieces are dropped: every kept piece is a comma-separated piece of the input, none holds a comma, and together they are the input without its commas |
| Phones.RegionFor | src/persyval/services/phone/validate_phone_list.py:21-24 | a number starting with "+" is read without a region, any other in the default region "UA" |
| Phones.ValidatePhone | src/persyval/services/phone/validate_phone_list.py:14-39 | a number is accepted iff, stripped, it is not empty and the library reads it as valid; it is returned stripped; a failure is an `InvalidDataError`, "Phone number is empty: …" for a blank one |
| Phones.ValidPhoneIsStripped | src/persyval/services/phone/validate_phone_list.py:15-39 | an accepted number has no whitespace at its ends and occurs in the input as typed |
| Phones.ValidateEachMeaning | src/persyval/services/phone/validate_phone_list.py:43-47 | the first loop succeeds iff every number is valid, then holds each validated number in order, and otherwise fails with the first invalid number's error |
| Phones.ValidateEachValues | src/persyval/services/phone/validate_phone_list.py:43-47 | the first loop, on success, holds each number's validated form, in order |
| Phones.ValidateEachFirstError | src/persyval/services/phone/validate_phone_list.py:43-47 | a failing first loop reports the first invalid number's error |
| Phones.PhoneListMeaning | src/persyval/services/phone/validate_phone_list.py:42-57 | the accepted list holds exactly the validated numbers, each once |
| Phones.SameStrippedIsDuplicate | src/persyval/services/phone/validate_phone_list.py:49-57 | numbers that differ only in surrounding whitespace become one entry |
| Phones.ValidatePhoneList | src/persyval/services/phone/validate_phone_list.py:42-57 | the two loops compute exactly the validate-then-deduplicate specification |
| Emails.ParseEmailsKeepsPieces | src/persyval/services/email/validate_email.py:7-8 | only empty pieces are dropped: every kept piece is a comma-separated piece of the input, none holds a comma, and together they are the input without its commas |
| Emails.ValidateEmail | src/persyval/services/email/validate_email.py:11-24 | an address is accepted iff, stripped, it is not empty and the library accepts it, and is returned in the library's normalised form; a blank one raises `EmptyDataError`, an invalid one `InvalidDataError` |
| Emails.ValidateEachMeaning | src/persyval/services/email/validate_email.py:28-35 | blank addresses are skipped; the loop succeeds iff every non-blank address is valid and then holds exactly their normalised forms, otherwise fails with an `InvalidDataError` of one of them |
| Emails.ValidateEachOk | src/persyval/services/email/validate_email.py:28-35 | the first loop succeeds iff every address is blank or valid |
| Emails.ValidateEachElements | src/persyval/services/email/validate_email.py:28-35 | on success the first loop holds exactly the normalised forms of the valid addresses |
| Emails.ValidateEachError | src/persyval/services/email/validate_email.py:30-34 | a failure is always an `InvalidDataError` of one of the addresses, never the skipped `EmptyDataError` |
| Emails.EmailListMeaning | src/persyval/services/email/validate_email.py:27-44 | the accepted list holds exactly the normalised addresses, each once |
| Emails.ValidateEmailList | src/persyval/services/email/validate_email.py:27-44 | the two loops compute exactly the validate-then-deduplicate specification |
| Unique.FirstIndex | src/persyval/services/phone/validate_phone_list.py:49-57 | the first occurrence of a value holds it, and no earlier position does |
| Unique.DedupeElements | src/persyval/services/phone/validate_phone_list.py:49-57 | deduplication keeps every value of the input and no other, each exactly once |
| Unique.FirstIndexUnique | src/persyval/services/phone/validate_phone_list.py:49-57 | the position of the first occurrence is the one with no occurrence before it |
| Unique.DedupeKeepsFirstOrder | src/persyval/services/phone/validate_phone_list.py:49-57 | values come out in the order of their first occurrences |
| Unique.DedupeOfUnique | src/persyval/services/phone/validate_phone_list.py:49-57 | a list without repeats is left as it is |
| Unique.DedupeIdempotent | src/persyval/services/phone/validate_phone_list.py:49-57 | deduplicating twice is deduplicating once |
| Unique.DedupeLoop | src/persyval/services/phone/validate_phone_list.py:50-55 | the loop with the set of values seen computes exactly the deduplication function |
| Export.JoinStrings | src/persyval/services/export/export_items.py:18 | `",".join(items)` succeeds iff every item is a string |
| Export.JoinStringsFrom | src/persyval/services/export/export_items.py:18 | joining from a position succeeds iff every item from there on is a string, and otherwise raises `TypeError` |
| Export.JoinStringsFromIsJoin | src/persyval/services/export/export_items.py:18 | on strings the join is the comma-separated concatenation |
| Export.AdaptValue | src/persyval/services/export/export_items.py:16-18 | a value that is not a list is kept; a list is adapted iff all its items are strings, and never stays a list |
| Export.Adapted | src/persyval/services/export/export_items.py:13-19 | adaptation succeeds iff every value adapts, and keeps the number of entries |
| Export.AdaptedMeaning | src/persyval/services/export/export_items.py:13-19 | adapting keeps the keys in order, joins every list of strings with commas and leaves every other value alone |
| Export.AdaptedIdempotent | src/persyval/services/export/export_items.py:13-19 | adapting an adapted record changes nothing |
| Export.DictPutAt | src/persyval/services/export/export_items.py:18 | assigning an existing key replaces its value in place, keeping the order of the keys |
| Export.AdaptedFirstError | src/persyval/services/export/export_items.py:16-18 | a failing adaptation reports the error of the first list holding a non-string |
| Export.AdaptStep | src/persyval/services/export/export_items.py:16-18 | one step of the loop adapts one more entry |
| Export.AdaptDone | src/persyval/services/export/export_items.py:16-19 | once every entry is adapted the record is the adaptation |
| Export.AdaptFieldsToCsv | src/persyval/services/export/export_items.py:13-19 | the in-place loop over the record computes exactly the adaptation function |
| Export.CsvFile.constructor | src/persyval/services/export/export_items.py:33 | a file opened for writing holds no rows |
| Export.RowsOf | src/persyval/services/export/export_items.py:44-45 | never more rows than items |
| Export.WriteToCsv | src/persyval/services/export/export_items.py:22-45 | the file ends up with the rows of the export specification, and the error raised is the specification's: no items is refused before the file is touched, otherwise the header, the first item, then every item |
| Export.ExportDuplicatesFirst | src/persyval/services/export/export_items.py:36-45 | an export that goes through writes the header, the first item twice, then each other item once |
| Export.RowsOfAllOk | src/persyval/services/export/export_items.py:44-45 | when every item adapts, one row per item, in order |
| Export.ExportNothing | src/persyval/services/export/export_items.py:26-28 | no items: nothing is written and `NotFoundError` "No items to export." is raised |
| PyOrder.NormalizeSortValue | src/persyval/services/handlers/shared/sort_and_filter.py:339-351 | a string sorts by its lower-cased form, `None` as the empty string, a date as its ISO text, any other value as itself |
| PyOrder.NormalizedStringsIgnoreCase | src/persyval/services/handlers/shared/sort_and_filter.py:339-346 | strings that differ only in case sort as equal, and `None` sorts before every non-empty string |
| PyOrder.StrLessStrictWeak | src/persyval/services/handlers/shared/sort_and_filter.py:327-330 | comparing strings by code point is a strict weak order, so sorting by it is well defined |
| PyOrder.KeyLessStrictWeak | src/persyval/services/handlers/shared/sort_and_filter.py:327-330 | Python's `<` on the sort keys of comparable values (numbers and bools together, strings, lists) is a strict weak order |
| Sorting.SortBy | src/persyval/services/handlers/shared/sort_and_filter.py:327-330 | `list.sort` with a key permutes the list |
| Sorting.SortBySorted | src/persyval/services/handlers/shared/sort_and_filter.py:327-330 | under a strict weak order the sorted list is in order |
| Sorting.SortByThen | src/persyval/services/handlers/shared/sort_and_filter.py:323-330 | the sort is stable: a list already ordered by a second key stays ordered by it among elements the new key ties |
| Sorting.FlipStrictWeak | src/persyval/services/handlers/shared/sort_and_filter.py:329 | `reverse=True` sorts by the flipped order, itself a strict weak order |
| Sorting.SortByEachIsLex | src/persyval/services/handlers/shared/sort_and_filter.py:323-330 | sorting by each order field from the last to the first leaves the list ordered lexicographically by the fields, the first one deciding |
| Sorting.SortByEachThen | src/persyval/services/handlers/shared/sort_and_filter.py:323-330 | the same over a list already in a base order: elements that every field ties stay in the base order |
| Sorting.SortByFirsts | src/persyval/services/handlers/shared/sort_and_filter.py:327-330 | sorting elements tagged with their positions, by the elements alone, sorts the elements the same way |
| Sorting.TaggedSortIsTags | src/persyval/services/handlers/shared/sort_and_filter.py:327-330 | the tagged sort holds every element of the input once, each with its own position |
| Sorting.TaggedSortTies | src/persyval/services/handlers/shared/sort_and_filter.py:323-330 | in the tagged sort, two elements every field ties come in the order of their positions |
| Sorting.SortByEachStable | src/persyval/services/handlers/shared/sort_and_filter.py:323-330 | sorting by several fields is stable: the result is the input rearranged by a permutation of its positions, and two elements every field ties keep their input order |
| Sorting.SortByStable | src/persyval/services/handlers/shared/sort_and_filter.py:327-330 | one `list.sort` is stable: the result is the input rearranged by a permutation of its positions, and elements the key ties keep their input order |
| Sorting.SeqLessStrictWeak | src/persyval/services/handlers/shared/sort_and_filter.py:327-330 | Python's comparison of lists, element by element, is a strict weak order when the elements' is |

## Left out

- Persistence: loading, saving and `autosave()` of the store, and its JSON format, are not modelled. The store is the two in-memory dictionaries.
- Aliasing: `note_update` mutates the stored `Note` object in place. The model replaces the dictionary entry with the updated record, so aliases the caller holds are not modelled.
- Interactive I/O: prompts, the yes/no dialog, `choose_from_list` and the external editor are not modelled. Only their answers are, as parameters.
- Rendering: `create_prompt_text_for_arg` markup, rich tables and panels, and the help and intro screens are not modelled.
- The clock: "today" and the note timestamp are parameters.
- Foreign libraries: the validity and normalisation of phone numbers (`phonenumbers`) and e-mail addresses (`email_validator`), and `uuid.UUID` parsing, are oracles.
- `note_add_for_handler` and `note_edit_for_handler` (`add_and_edit.py`) are left out. They are orchestration of an editor call, the clock and a data action; their text-processing steps are modelled.
- The notes menu handlers in `handlers/notes.py` are left out: the choice of action, the tables and the queue puts. Only `parse_queries` and the filter prompt's checks are modelled.
- The `_truncate_text` of `handlers/notes.py` is left out. It is the rule of `Preview.Truncate` with a width of 100.
- CSV details are left out: quoting, directory creation, opening the file, the `ValueError` of `DictWriter` for keys beyond the header, and `model_dump(mode="json")` conversion. An exported record is the dictionary it dumps to.
- The `ListIArgs.model_dump` conversion is left out: list configurations are built directly.
- Only the `YYYY-MM-DD` and `YYYYMMDD` forms of `date.fromisoformat` are modelled, not the ISO week-date forms.
- `queue.Queue` locking and blocking are left out: the queue is a single-threaded FIFO.
- SortAndFilter.SortStep: a sort fails with `TypeError` when the keys are not all of one orderable kind. Python raises only when it actually compares two incomparable keys. The two agree on scalar keys; for lists holding non-strings the model raises where Python may not.
- PyOrder.KeyLess: lists are ordered only when they hold strings. Other lists count as unorderable keys.
- PyText.ParseInt: Python's limit on the length of integer text (`sys.int_info.default_max_str_digits`, 4300 digits, above which `int()` raises `ValueError`) is not modelled: any number of digits is read.
- PyText.Lower: lower-casing maps each character to one character, by the Unicode 15.0 case table for the blocks Basic Latin, Latin-1 Supplement, Latin Extended-A, Greek and Coptic (U+0370 to U+03FF), Cyrillic and Cyrillic Supplement (U+0400 to U+052F), Ukrainian included. In those blocks it agrees with Python's `str.lower` on every character except `İ`. Letters of other blocks keep their case. Python's `str.lower` also lowers those, turns `İ` (U+0130) into two characters and writes a word-final `Σ` as `ς`; none of that is modelled.
- GetFieldNameFact: lower-cases through `PyText.Lower`, so case is ignored only within the blocks that line names, and `İ` and the final sigma are not handled as Python does.
- GetFieldNameFactFindsFirst: lower-cases through `PyText.Lower`, so case is ignored only within the blocks that line names, and `İ` and the final sigma are not handled as Python does.
- LookupIgnoresCaseOfInput: lower-cases through `PyText.Lower`, so case is ignored only within the blocks that line names, and `İ` and the final sigma are not handled as Python does.
- DataActionValue: lower-cases through `PyText.Lower`, so case is ignored only within the blocks that line names, and `İ` and the final sigma are not handled as Python does.
- FieldMatchesIgnoresCase: lower-cases through `PyText.Lower`, so case is ignored only within the blocks that line names, and `İ` and the final sigma are not handled as Python does.
- ListFieldPasses: lower-cases through `PyText.Lower`, so case is ignored only within the blocks that line names, and `İ` and the final sigma are not handled as Python does.
- GroupKeys: lower-cases through `PyText.Lower`, so case is ignored only within the blocks that line names, and `İ` and the final sigma are not handled as Python does.
- ExtractQueries: lower-cases through `PyText.Lower`, so case is ignored only within the blocks that line names, and `İ` and the final sigma are not handled as Python does.
- LowerIfSet: lower-cases through `PyText.Lower`, so case is ignored only within the blocks that line names, and `İ` and the final sigma are not handled as Python does.
- NormalizeSortValue: lower-cases through `PyText.Lower`, so case is ignored only within the blocks that line names, and `İ` and the final sigma are not handled as Python does.
- NormalizedStringsIgnoreCase: lower-cases through `PyText.Lower`, so case is ignored only within the blocks that line names, and `İ` and the final sigma are not handled as Python does.
- LowerSlice: holds for the one-to-one character mapping of `PyText.Lower`. It is false of Python's `str.lower` on `İ`, which lowers to two characters.
- NoteFoundByOwnText: holds for `PyText.Lower`. In Python a title ending in `Σ` lowers to a final `ς` and is not found by the piece "Σ".
- ArgsConfig.Instantiate: pydantic reports every failing field in one `ValidationError`; the model reports the first failing field's error, and its messages are pydantic's short forms.
- ArgsConfig.CoerceField: pydantic's lax reading of text as a bool ("yes", "off" and the like) or as an int, of floats, and of bytes as a UUID is not modelled. The arguments the schemas store for such fields already have the field's type. The enum and collection fields of `ListIArgs` are untyped in the model, since they are stored already converted.
- MakeContactFromInput: of pydantic's date parser only the `YYYY-MM-DD` text form is modelled, not Unix timestamps or datetimes. When an empty name and a bad birthday fail together, the model reports only the name's error, where pydantic lists both.
- Dates.FormatForOutput: the year is printed with four digits, as `isoformat` does. The C library's `%Y` may print a year below 1000 without padding, and `%A` follows the locale where the model writes the English weekday name.
