/** The notes handler's filter prompt: the answer is split at commas, each
    `key=value` piece becomes a query, and the queries go to the notes list
    action in FILTER mode. */
module NoteQueries {
  import opened Base
  import opened PyText
  import opened Dicts
  import opened Models
  import opened Storage
  import opened ListActions
  import SF = SortAndFilter

  /** A piece that splits at "=" into exactly two parts. */
  predicate IsQuery(part: string)
  {
    |Split(part, '=')| == 2
  }

  function QueryKey(part: string): string
    requires IsQuery(part)
  {
    Split(part, '=')[0]
  }

  function QueryValue(part: string): string
    requires IsQuery(part)
  {
    Split(part, '=')[1]
  }

  /** A piece is a query exactly when it holds one "=". */
  lemma IsQueryOneEquals(part: string)
    ensures IsQuery(part) <==> CountChar(part, '=') == 1
  {
    SplitCount(part, '=');
  }

  /** The rest of `parse_queries` once `acc` holds the queries of the pieces
      before `parts`: a piece that is not a query is skipped, a key that is
      not a member of the enum raises `ValueError`, and a key seen again
      overwrites its value in place. */
  function ParseQueriesFrom(parts: seq<string>, acc: OrderedMap<string, string>): (r: Result<OrderedMap<string, string>>)
    requires acc.Valid()
    ensures r.Ok? ==> r.value.Valid()
    decreases |parts|
  {
    if parts == [] then Ok(acc)
    else if !IsQuery(parts[0]) then ParseQueriesFrom(parts[1..], acc)
    else
      var key :- ParseNoteFilterKey(QueryKey(parts[0]));
      ParseQueriesFrom(parts[1..], acc.Set(NoteFilterKeyValue(key), QueryValue(parts[0])))
  }

  function ParseQueriesSpec(parts: seq<string>): (r: Result<OrderedMap<string, string>>)
  {
    ParseQueriesFrom(parts, EmptyMap())
  }

  /** `parse_queries` */
  method ParseQueries(queries: seq<string>) returns (r: Result<OrderedMap<string, string>>)
    ensures r == ParseQueriesSpec(queries)
  {
    var result: OrderedMap<string, string> := EmptyMap();
    for i := 0 to |queries|
      invariant result.Valid()
      invariant ParseQueriesSpec(queries) == ParseQueriesFrom(queries[i..], result)
    {
      assert queries[i..][1..] == queries[i + 1..];
      var split := Split(queries[i], '=');
      if |split| != 2 {
        continue;
      }
      var key, value := split[0], split[1];
      var parsedKey := ParseNoteFilterKey(key);
      if parsedKey.Err? {
        return Err(parsedKey.error);
      }
      result := result.Set(NoteFilterKeyValue(parsedKey.value), value);
    }
    assert queries[|queries|..] == [];
    return Ok(result);
  }

  /** Parsing fails exactly when some query names a key outside
      `title`, `content` and `tag`. */
  lemma {:induction false} ParseQueriesOk(parts: seq<string>, acc: OrderedMap<string, string>)
    requires acc.Valid()
    ensures ParseQueriesFrom(parts, acc).Ok?
            <==> forall i :: 0 <= i < |parts| && IsQuery(parts[i]) ==> QueryKey(parts[i]) in AllowedKeysToFilterForNote
    decreases |parts|
  {
    if parts != [] {
      assert forall i :: 1 <= i < |parts| ==> parts[1..][i - 1] == parts[i];
      if !IsQuery(parts[0]) {
        ParseQueriesOk(parts[1..], acc);
      } else {
        NoteFilterKeysAllowed(QueryKey(parts[0]), KeyTitle);
      }
      if IsQuery(parts[0]) && QueryKey(parts[0]) in AllowedKeysToFilterForNote {
        var key := ParseNoteFilterKey(QueryKey(parts[0])).value;
        ParseQueriesOk(parts[1..], acc.Set(NoteFilterKeyValue(key), QueryValue(parts[0])));
      }
    }
  }

  /** The keys of the result are those of `acc` and those the queries name. */
  lemma {:induction false} ParseQueriesKeys(parts: seq<string>, acc: OrderedMap<string, string>, k: string)
    requires acc.Valid() && ParseQueriesFrom(parts, acc).Ok?
    ensures k in ParseQueriesFrom(parts, acc).value.entries
            <==> k in acc.entries || exists i :: 0 <= i < |parts| && IsQuery(parts[i]) && QueryKey(parts[i]) == k
    decreases |parts|
  {
    if parts != [] {
      assert forall i :: 1 <= i < |parts| ==> parts[1..][i - 1] == parts[i];
      if !IsQuery(parts[0]) {
        ParseQueriesKeys(parts[1..], acc, k);
      } else {
        var key := ParseNoteFilterKey(QueryKey(parts[0])).value;
        ParseQueriesKeys(parts[1..], acc.Set(NoteFilterKeyValue(key), QueryValue(parts[0])), k);
      }
    }
  }

  /** The value of a key is taken raw from the last query naming it. */
  lemma {:induction false} ParseQueriesLastWins(parts: seq<string>, acc: OrderedMap<string, string>, i: nat)
    requires acc.Valid() && ParseQueriesFrom(parts, acc).Ok?
    requires i < |parts| && IsQuery(parts[i])
    requires forall j :: i < j < |parts| && IsQuery(parts[j]) ==> QueryKey(parts[j]) != QueryKey(parts[i])
    ensures QueryKey(parts[i]) in ParseQueriesFrom(parts, acc).value.entries
    ensures ParseQueriesFrom(parts, acc).value.entries[QueryKey(parts[i])] == QueryValue(parts[i])
    decreases |parts|
  {
    assert forall j :: 1 <= j < |parts| ==> parts[1..][j - 1] == parts[j];
    if i == 0 {
      var key := ParseNoteFilterKey(QueryKey(parts[0])).value;
      var acc' := acc.Set(NoteFilterKeyValue(key), QueryValue(parts[0]));
      LaterKeysKept(parts[1..], acc', QueryKey(parts[0]));
    } else if !IsQuery(parts[0]) {
      ParseQueriesLastWins(parts[1..], acc, i - 1);
    } else {
      var key := ParseNoteFilterKey(QueryKey(parts[0])).value;
      ParseQueriesLastWins(parts[1..], acc.Set(NoteFilterKeyValue(key), QueryValue(parts[0])), i - 1);
    }
  }

  /** A key no later query names keeps the value it has in `acc`. */
  lemma {:induction false} LaterKeysKept(parts: seq<string>, acc: OrderedMap<string, string>, k: string)
    requires acc.Valid() && ParseQueriesFrom(parts, acc).Ok? && k in acc.entries
    requires forall j :: 0 <= j < |parts| && IsQuery(parts[j]) ==> QueryKey(parts[j]) != k
    ensures k in ParseQueriesFrom(parts, acc).value.entries
    ensures ParseQueriesFrom(parts, acc).value.entries[k] == acc.entries[k]
    decreases |parts|
  {
    if parts != [] {
      assert forall j :: 1 <= j < |parts| ==> parts[1..][j - 1] == parts[j];
      if !IsQuery(parts[0]) {
        LaterKeysKept(parts[1..], acc, k);
      } else {
        var key := ParseNoteFilterKey(QueryKey(parts[0])).value;
        LaterKeysKept(parts[1..], acc.Set(NoteFilterKeyValue(key), QueryValue(parts[0])), k);
      }
    }
  }

  // ---------------------------------------------------------------- _handler_show_filtered_list

  /** The queries of the handler's prompt answer: split at commas and
      parsed; no query at all is refused. Splitting always yields at least
      one piece, so the handler's check for no pieces never fires, and
      every parsed key is allowed, so its check of the keys never fires
      either. */
  function FilterQueries(answer: string): (r: Result<OrderedMap<string, string>>)
    ensures r.Ok? ==> r.value.Valid() && r.value.keys != []
    ensures r.Ok? ==> forall k :: k in r.value.entries ==> k in AllowedKeysToFilterForNote
  {
    var pieces := Split(answer, ',');
    assert pieces != [];
    var parsed :- ParseQueriesSpec(pieces);
    if parsed.keys == [] then Fail(InvalidCommandError, "Queries are required.")
    else
      forall k | k in parsed.entries ensures k in AllowedKeysToFilterForNote {
        ParseQueriesKeys(pieces, EmptyMap(), k);
        ParseQueriesOk(pieces, EmptyMap());
      }
      Ok(parsed)
  }

  /** The configuration the handler lists notes with. */
  function FilterConfig(queries: OrderedMap<string, string>): NotesListConfig
  {
    NotesListConfig(Some(SF.FilterMatching), queries)
  }

  /** An answer with no query is refused with "Queries are required.". */
  lemma NoQueryRefused(answer: string)
    requires forall i :: 0 <= i < |Split(answer, ',')| ==> !IsQuery(Split(answer, ',')[i])
    ensures FilterQueries(answer) == Fail(InvalidCommandError, "Queries are required.")
  {
    var pieces := Split(answer, ',');
    NoQueriesParseEmpty(pieces, EmptyMap());
  }

  lemma {:induction false} NoQueriesParseEmpty(parts: seq<string>, acc: OrderedMap<string, string>)
    requires acc.Valid()
    requires forall i :: 0 <= i < |parts| ==> !IsQuery(parts[i])
    ensures ParseQueriesFrom(parts, acc) == Ok(acc)
    decreases |parts|
  {
    if parts != [] {
      assert forall i :: 1 <= i < |parts| ==> parts[1..][i - 1] == parts[i];
      NoQueriesParseEmpty(parts[1..], acc);
    }
  }

  /** Filtering from the prompt succeeds exactly when no tag is queried:
      the handler accepts `tag=…`, but the list action does not know it. */
  lemma FilterByPromptTag(storage: DataStorage, answer: string)
    requires storage.Valid() && FilterQueries(answer).Ok?
    ensures NotesList(storage, FilterConfig(FilterQueries(answer).value)).Ok?
            <==> "tag" !in FilterQueries(answer).value.entries
  {
    var q := FilterQueries(answer).value;
    NotesListFiltered(storage, FilterConfig(q));
  }
}
