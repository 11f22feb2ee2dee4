/** The data actions that list the storage: contacts through the shared
    filter engine or as they are stored, notes filtered by title and
    content, and notes in uid order. None of them changes the storage. */
module ListActions {
  import opened Base
  import opened PyText
  import opened Values
  import opened Dicts
  import opened Sorting
  import opened Models
  import opened Storage
  import SF = SortAndFilter
  import FieldMeta

  // ---------------------------------------------------------------- contacts_list.py

  /** `contacts_list`: `filter_iterable` over the stored contacts, in their
      storage order. */
  function ContactsList(storage: DataStorage, config: SF.ListConfig): Result<seq<Contact>>
    reads storage
    requires storage.Valid()
  {
    SF.FilterIterableSpec(storage.contacts.Values(), ContactMeta(), config, ContactAttr)
  }

  /** ALL with the default order lists every stored contact in storage order. */
  lemma ContactsListAll(storage: DataStorage, config: SF.ListConfig)
    requires storage.Valid()
    requires config.filterMode == Some(SF.FilterAll) && config.orderMode == Some(SF.OrderDefault)
    ensures ContactsList(storage, config) == Ok(storage.contacts.Values())
  {
    SF.AllDefaultIsIdentity(storage.contacts.Values(), ContactMeta(), config, ContactAttr);
  }

  /** `Contact` declares no field metadata, so FILTER with any query is
      refused on its first key, whatever the order mode. */
  lemma ContactsListFilterRejected(storage: DataStorage, config: SF.ListConfig)
    requires storage.Valid()
    requires config.filterMode == Some(SF.FilterMatching) && config.filterQuery != []
    ensures ContactsList(storage, config)
            == Fail(KeyError, "Filtering by '" + config.filterQuery[0].0 + "' is not allowed.")
  {
    var cfg := ContactMeta().fieldsMetaConfig;
    var q := SF.StrDict(config.filterQuery);
    ContactLookupFails(q[0].0);
    SF.RenameKeysFirstUnknown(SF.Lookup(cfg), q, [], (fact: string, v: Value) => SF.DataActionValue(cfg, fact, v), 0);
  }

  // ---------------------------------------------------------------- contact_list.py

  datatype ContactsListConfig = ContactsListConfig(
    filterMode: SF.ListFilterMode,
    filterField: Option<string>,
    filterValue: Option<string>)

  datatype ListFilterModeMeta = ListFilterModeMeta(mode: SF.ListFilterMode, title: string)

  /** `LIST_FILTER_MODE_REGISTRY` of the contact list action. */
  const ListFilterModeRegistry: map<SF.ListFilterMode, ListFilterModeMeta> :=
    map[SF.FilterAll := ListFilterModeMeta(SF.FilterAll, "Show all"),
        SF.FilterMatching := ListFilterModeMeta(SF.FilterMatching, "Filter")]

  /** Every mode has an entry, filed under its own mode. */
  lemma ListFilterModeRegistryKeyed(m: SF.ListFilterMode)
    ensures m in ListFilterModeRegistry && ListFilterModeRegistry[m].mode == m
    ensures ListFilterModeRegistry[m].title == if m == SF.FilterAll then "Show all" else "Filter"
  {
  }

  /** `contact_list`: only ALL is implemented. */
  function ContactList(storage: DataStorage, config: ContactsListConfig): (r: Result<seq<Contact>>)
    reads storage
    requires storage.Valid()
    ensures r.Ok? <==> config.filterMode == SF.FilterAll
    ensures r.Err? ==> r.error.kind == NotImplementedError
  {
    if config.filterMode != SF.FilterAll then Fail(NotImplementedError, "")
    else Ok(storage.contacts.Values())
  }

  /** In ALL mode the two contact list actions agree. */
  lemma ContactListsAgree(storage: DataStorage, config: ContactsListConfig, listConfig: SF.ListConfig)
    requires storage.Valid()
    requires config.filterMode == SF.FilterAll
    requires listConfig.filterMode == Some(SF.FilterAll) && listConfig.orderMode == Some(SF.OrderDefault)
    ensures ContactList(storage, config) == ContactsList(storage, listConfig)
  {
    ContactsListAll(storage, listConfig);
  }

  // ---------------------------------------------------------------- notes_list.py

  /** The notes list configuration: a filter mode and the query dictionary. */
  datatype NotesListConfig = NotesListConfig(
    filterMode: Option<SF.ListFilterMode>,
    queriesAsMap: OrderedMap<string, string>)

  /** `extract_queries`: the title and content queries, lower-cased, taken
      out of a copy of the query dictionary; a key left over is refused. */
  function ExtractQueries(queries: OrderedMap<string, string>): (r: Result<(Option<string>, Option<string>)>)
    requires queries.Valid()
    ensures r.Ok? <==> forall k :: k in queries.entries ==> k == "title" || k == "content"
    ensures r.Ok? ==> r.value.0 == (if "title" in queries.entries then Some(Lower(queries.entries["title"])) else None)
    ensures r.Ok? ==> r.value.1 == (if "content" in queries.entries then Some(Lower(queries.entries["content"])) else None)
    ensures r.Err? ==> r.error.kind == ValueError
  {
    var (title, rest) := queries.Pop("title");
    var (content, left) := rest.Pop("content");
    OnlyKnownKeys(queries, left);
    if left.keys != [] then
      Fail(ValueError, "Unknown queries. Keys: " + Join(", ", left.keys))
    else
      Ok((LowerIfSet(title), LowerIfSet(content)))
  }

  /** After popping "title" and "content" no key is left exactly when
      those were the only keys. */
  lemma OnlyKnownKeys(queries: OrderedMap<string, string>, left: OrderedMap<string, string>)
    requires left.Valid() && left.entries == queries.entries - {"title"} - {"content"}
    ensures left.keys == [] <==> forall k :: k in queries.entries ==> k == "title" || k == "content"
  {
    if left.keys != [] {
      assert left.keys[0] in left.entries;
    } else {
      forall k | k in queries.entries
        ensures k == "title" || k == "content"
      {
        assert k !in left.keys;
      }
    }
  }

  /** `if q: q = q.lower()`; lower-casing leaves "" as it is. */
  function LowerIfSet(q: Option<string>): (r: Option<string>)
    ensures r == if q.Some? then Some(Lower(q.value)) else None
  {
    if q.Some? && q.value != "" then Some(Lower(q.value)) else q
  }

  /** The keys named in the error message are exactly the unknown ones, in
      the order of the dictionary. */
  lemma ExtractQueriesUnknownKeys(queries: OrderedMap<string, string>)
    requires queries.Valid() && ExtractQueries(queries).Err?
    ensures var unknown := DropKey(DropKey(queries.keys, "title"), "content");
            && ExtractQueries(queries) == Fail(ValueError, "Unknown queries. Keys: " + Join(", ", unknown))
            && (forall i :: 0 <= i < |unknown| ==> unknown[i] in queries.entries && unknown[i] != "title" && unknown[i] != "content")
            && (forall i :: 0 <= i < |queries.keys| && queries.keys[i] != "title" && queries.keys[i] != "content" ==> queries.keys[i] in unknown)
  {
    var unknown := DropKey(DropKey(queries.keys, "title"), "content");
    forall i | 0 <= i < |unknown|
      ensures unknown[i] in queries.entries
    {
      assert unknown[i] in DropKey(queries.keys, "title");
    }
  }

  /** `(note.title or "")` */
  function TitleText(n: Note): string
  {
    if n.title.Some? then n.title.value else ""
  }

  /** `note_matches`: each query that is set and not empty must occur in
      the lower-cased field. */
  function NoteMatches(n: Note, title: Option<string>, content: Option<string>): bool
  {
    if title.Some? && title.value != "" && !Contains(Lower(TitleText(n)), title.value) then false
    else if content.Some? && content.value != "" && !Contains(Lower(n.content), content.value) then false
    else true
  }

  /** Lower-casing a slice is slicing the lower-cased text. */
  lemma LowerSlice(s: string, i: nat, j: nat)
    requires i <= j <= |s|
    ensures Lower(s[i..j]) == Lower(s)[i..j]
  {
  }

  /** A note is found by any piece of its title together with any piece of
      its content, whatever their case. */
  lemma NoteFoundByOwnText(n: Note, ti: nat, tj: nat, ci: nat, cj: nat)
    requires ti <= tj <= |TitleText(n)| && ci <= cj <= |n.content|
    ensures NoteMatches(n, Some(Lower(TitleText(n)[ti..tj])), Some(Lower(n.content[ci..cj])))
  {
    LowerSlice(TitleText(n), ti, tj);
    LowerSlice(n.content, ci, cj);
    assert OccursAt(Lower(TitleText(n)), Lower(TitleText(n)[ti..tj]), ti);
    assert OccursAt(Lower(n.content), Lower(n.content[ci..cj]), ci);
  }

  /** No query, or empty ones, match every note. */
  lemma EmptyQueriesMatch(n: Note, title: Option<string>, content: Option<string>)
    requires title.None? || title.value == ""
    requires content.None? || content.value == ""
    ensures NoteMatches(n, title, content)
  {
  }

  /** The notes of `notes` that match, in their order. */
  function MatchingNotes(notes: seq<Note>, title: Option<string>, content: Option<string>): (r: seq<Note>)
    ensures |r| <= |notes|
  {
    if notes == [] then []
    else (if NoteMatches(notes[0], title, content) then [notes[0]] else []) + MatchingNotes(notes[1..], title, content)
  }

  /** Exactly the matching notes are kept. */
  lemma {:induction false} MatchingNotesMeaning(notes: seq<Note>, title: Option<string>, content: Option<string>)
    ensures forall n :: n in MatchingNotes(notes, title, content) <==> n in notes && NoteMatches(n, title, content)
  {
    if notes != [] {
      MatchingNotesMeaning(notes[1..], title, content);
      assert notes == [notes[0]] + notes[1..];
    }
  }

  /** Selection keeps the order: the notes of a concatenation are the notes
      of each part, one after the other. */
  lemma {:induction false} MatchingNotesAppend(a: seq<Note>, b: seq<Note>, title: Option<string>, content: Option<string>)
    ensures MatchingNotes(a + b, title, content) == MatchingNotes(a, title, content) + MatchingNotes(b, title, content)
  {
    if a == [] {
      assert a + b == b;
    } else {
      var head := if NoteMatches(a[0], title, content) then [a[0]] else [];
      var ra := MatchingNotes(a[1..], title, content);
      var rb := MatchingNotes(b, title, content);
      assert (a + b)[0] == a[0] && (a + b)[1..] == a[1..] + b;
      MatchingNotesAppend(a[1..], b, title, content);
      assert MatchingNotes(a + b, title, content) == head + (ra + rb);
      assert MatchingNotes(a, title, content) == head + ra;
      assert head + (ra + rb) == (head + ra) + rb;
    }
  }

  /** When every note matches, all are kept as they are. */
  lemma {:induction false} MatchingNotesAll(notes: seq<Note>, title: Option<string>, content: Option<string>)
    requires forall i :: 0 <= i < |notes| ==> NoteMatches(notes[i], title, content)
    ensures MatchingNotes(notes, title, content) == notes
  {
    if notes != [] {
      assert forall i :: 1 <= i < |notes| ==> notes[1..][i - 1] == notes[i];
      MatchingNotesAll(notes[1..], title, content);
    }
  }

  /** `note_list` of `notes_list.py`: ALL lists every stored note; any other
      mode, even none, filters by the extracted queries. */
  function NotesList(storage: DataStorage, config: NotesListConfig): Result<seq<Note>>
    reads storage
    requires storage.Valid() && config.queriesAsMap.Valid()
  {
    if config.filterMode == Some(SF.FilterAll) then Ok(storage.notes.Values())
    else
      var queries :- ExtractQueries(config.queriesAsMap);
      Ok(MatchingNotes(storage.notes.Values(), queries.0, queries.1))
  }

  /** Outside ALL, the listing succeeds exactly when only title and content
      are queried, and then holds exactly the stored notes that match. */
  lemma NotesListFiltered(storage: DataStorage, config: NotesListConfig)
    requires storage.Valid() && config.queriesAsMap.Valid()
    requires config.filterMode != Some(SF.FilterAll)
    ensures NotesList(storage, config).Ok?
            <==> forall k :: k in config.queriesAsMap.entries ==> k == "title" || k == "content"
    ensures NotesList(storage, config).Ok? ==>
              var q := ExtractQueries(config.queriesAsMap).value;
              forall n :: n in NotesList(storage, config).value
                          <==> n in storage.notes.Values() && NoteMatches(n, q.0, q.1)
  {
    if ExtractQueries(config.queriesAsMap).Ok? {
      var q := ExtractQueries(config.queriesAsMap).value;
      MatchingNotesMeaning(storage.notes.Values(), q.0, q.1);
    }
  }

  /** A tag query is not among the keys the notes list understands. */
  lemma NotesListRejectsTag(storage: DataStorage, config: NotesListConfig)
    requires storage.Valid() && config.queriesAsMap.Valid()
    requires config.filterMode != Some(SF.FilterAll) && "tag" in config.queriesAsMap.entries
    ensures NotesList(storage, config).Err? && NotesList(storage, config).error.kind == ValueError
  {
  }

  // ---------------------------------------------------------------- note_list.py

  /** `key=lambda note: note.uid`: UUIDs compare as their integers. */
  function UidBefore(a: Note, b: Note): bool
  {
    a.uid.value < b.uid.value
  }

  lemma UidBeforeStrictWeak()
    ensures StrictWeak(UidBefore)
  {
  }

  /** `note_list`: a fresh list of the stored notes, sorted by uid. */
  method NoteListByUid(storage: DataStorage) returns (r: seq<Note>)
    requires storage.Valid()
    ensures Sorted(r, UidBefore)
    ensures multiset(r) == multiset(storage.notes.Values())
    ensures |r| == |storage.notes.keys|
    ensures r == SortBy(storage.notes.Values(), UidBefore)
  {
    var notesList := storage.notes.Values();
    UidBeforeStrictWeak();
    SortBySorted(notesList, UidBefore);
    notesList := SortBy(notesList, UidBefore);
    return notesList;
  }
}
