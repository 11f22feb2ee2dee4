/** The notes list handler's grouping: `notes_by_tag` files every note under
    each of its normalised tags, or under "(No tag)", and the groups are
    offered sorted by name with "(No tag)" last. */
module NotesByTag {
  import opened PyText
  import opened Dicts
  import opened Unique
  import opened Sorting
  import opened PyOrder
  import opened Models

  const NoTag: string := "(No tag)"

  /** `tag.strip().lower()` */
  function NormalizeTag(tag: string): string
  {
    Lower(Strip(tag))
  }

  /** Lower-casing leaves no capital letter, so no tag normalises to
      "(No tag)". */
  lemma NormalizedIsNeverNoTag(tag: string)
    ensures NormalizeTag(tag) != NoTag
  {
    var t := NormalizeTag(tag);
    if |t| == |NoTag| {
      assert t[1] == LowerChar(Strip(tag)[1]);
      assert t[1] != 'N';
    }
  }

  /** `if note.tags:`: `None` and the empty list both count as no tags. */
  predicate Untagged(n: Note)
  {
    n.tags.None? || n.tags.value == []
  }

  /** The group keys a note is filed under, once per tag. */
  function GroupKeys(n: Note): (r: seq<string>)
    ensures Untagged(n) ==> r == [NoTag]
    ensures !Untagged(n) ==> |r| == |n.tags.value| && forall i :: 0 <= i < |r| ==> r[i] == NormalizeTag(n.tags.value[i])
  {
    if Untagged(n) then [NoTag]
    else seq(|n.tags.value|, i requires 0 <= i < |n.tags.value| => NormalizeTag(n.tags.value[i]))
  }

  /** `tag_dict[key].append(note)` on a `defaultdict(list)`. */
  function Append(d: OrderedMap<string, seq<Note>>, key: string, n: Note): (r: OrderedMap<string, seq<Note>>)
    requires d.Valid()
    ensures r.Valid()
  {
    d.Set(key, (if key in d.entries then d.entries[key] else []) + [n])
  }

  /** `n` appended to the group of each key of `keys`, in order. */
  function AppendAll(d: OrderedMap<string, seq<Note>>, keys: seq<string>, n: Note): (r: OrderedMap<string, seq<Note>>)
    requires d.Valid()
    ensures r.Valid()
    decreases |keys|
  {
    if keys == [] then d else AppendAll(Append(d, keys[0], n), keys[1..], n)
  }

  /** The dictionary `notes_by_tag` builds. */
  function Grouped(notes: seq<Note>): (r: OrderedMap<string, seq<Note>>)
    ensures r.Valid()
  {
    if notes == [] then EmptyMap()
    else AppendAll(Grouped(notes[..|notes| - 1]), GroupKeys(notes[|notes| - 1]), notes[|notes| - 1])
  }

  /** `notes_by_tag` */
  method GroupNotesByTag(notes: seq<Note>) returns (r: OrderedMap<string, seq<Note>>)
    ensures r == Grouped(notes)
  {
    r := EmptyMap();
    for i := 0 to |notes|
      invariant r == Grouped(notes[..i])
    {
      var note := notes[i];
      assert notes[..i + 1][..i] == notes[..i];
      var keys := GroupKeys(note);
      var d := r;
      for j := 0 to |keys|
        invariant d.Valid()
        invariant AppendAll(r, keys, note) == AppendAll(d, keys[j..], note)
      {
        assert keys[j..][1..] == keys[j + 1..];
        d := Append(d, keys[j], note);
      }
      assert keys[|keys|..] == [];
      r := d;
    }
    assert notes[..|notes|] == notes;
  }

  // ---------------------------------------------------------------- what the groups hold

  /** How often `key` occurs in `keys`. */
  function Count(keys: seq<string>, key: string): nat
  {
    if keys == [] then 0 else (if keys[0] == key then 1 else 0) + Count(keys[1..], key)
  }

  lemma {:induction false} CountPositive(keys: seq<string>, key: string)
    ensures Count(keys, key) > 0 <==> key in keys
  {
    if keys != [] {
      CountPositive(keys[1..], key);
      assert keys == [keys[0]] + keys[1..];
    }
  }

  function Repeat(n: Note, k: nat): (r: seq<Note>)
    ensures |r| == k && forall i :: 0 <= i < k ==> r[i] == n
  {
    if k == 0 then [] else [n] + Repeat(n, k - 1)
  }

  /** The reference contents of a group: each note of `notes`, in order, as
      many times as it is filed under `key`. */
  function Members(notes: seq<Note>, key: string): seq<Note>
  {
    if notes == [] then []
    else Members(notes[..|notes| - 1], key) + Repeat(notes[|notes| - 1], Count(GroupKeys(notes[|notes| - 1]), key))
  }

  function GroupOf(d: OrderedMap<string, seq<Note>>, key: string): seq<Note>
  {
    if key in d.entries then d.entries[key] else []
  }

  lemma AppendEntry(d: OrderedMap<string, seq<Note>>, k: string, n: Note, key: string)
    requires d.Valid()
    ensures key in Append(d, k, n).entries <==> key in d.entries || key == k
    ensures GroupOf(Append(d, k, n), key) == GroupOf(d, key) + (if key == k then [n] else [])
  {
  }

  /** Appending under each of `keys` adds `n` to a group once per time its
      key occurs, and creates the groups that were missing. */
  lemma {:induction false} AppendAllEntry(d: OrderedMap<string, seq<Note>>, keys: seq<string>, n: Note, key: string)
    requires d.Valid()
    ensures key in AppendAll(d, keys, n).entries <==> key in d.entries || key in keys
    ensures GroupOf(AppendAll(d, keys, n), key) == GroupOf(d, key) + Repeat(n, Count(keys, key))
    decreases |keys|
  {
    if keys == [] {
      assert GroupOf(d, key) + [] == GroupOf(d, key);
    } else {
      var d' := Append(d, keys[0], n);
      AppendEntry(d, keys[0], n, key);
      AppendAllEntry(d', keys[1..], n, key);
      assert AppendAll(d, keys, n) == AppendAll(d', keys[1..], n);
      assert key in keys <==> key == keys[0] || key in keys[1..] by {
        assert keys == [keys[0]] + keys[1..];
      }
      RepeatCount(n, keys, key);
    }
  }

  lemma RepeatCount(n: Note, keys: seq<string>, key: string)
    requires keys != []
    ensures Repeat(n, Count(keys, key)) == (if keys[0] == key then [n] else []) + Repeat(n, Count(keys[1..], key))
  {
    if keys[0] == key {
      assert Repeat(n, Count(keys, key)) == [n] + Repeat(n, Count(keys[1..], key));
    } else {
      assert [] + Repeat(n, Count(keys[1..], key)) == Repeat(n, Count(keys[1..], key));
    }
  }

  /** Each group holds exactly its reference contents, and a group exists
      exactly when some note is filed under its key. */
  lemma {:induction false} GroupedMeaning(notes: seq<Note>, key: string)
    ensures key in Grouped(notes).entries <==> Members(notes, key) != []
    ensures GroupOf(Grouped(notes), key) == Members(notes, key)
  {
    if notes != [] {
      var init := notes[..|notes| - 1];
      var last := notes[|notes| - 1];
      GroupedMeaning(init, key);
      AppendAllEntry(Grouped(init), GroupKeys(last), last, key);
      CountPositive(GroupKeys(last), key);
    }
  }

  /** A group is non-empty exactly when some note is filed under its key. */
  lemma {:induction false} MembersNonEmpty(notes: seq<Note>, key: string)
    ensures Members(notes, key) != [] <==> exists i :: 0 <= i < |notes| && key in GroupKeys(notes[i])
  {
    if notes != [] {
      var init := notes[..|notes| - 1];
      var last := notes[|notes| - 1];
      MembersNonEmpty(init, key);
      MembersSnoc(notes, init, last, key);
      FiledSnoc(notes, init, last, key);
    }
  }

  /** Appending a note adds to a group exactly when the note is filed under
      its key. */
  lemma MembersSnoc(notes: seq<Note>, init: seq<Note>, last: Note, key: string)
    requires notes != [] && init == notes[..|notes| - 1] && last == notes[|notes| - 1]
    ensures Members(notes, key) != [] <==> Members(init, key) != [] || key in GroupKeys(last)
  {
    CountPositive(GroupKeys(last), key);
  }

  /** Some note of `notes` is filed under `key` exactly when one of `init`
      is or `last` is. */
  lemma FiledSnoc(notes: seq<Note>, init: seq<Note>, last: Note, key: string)
    requires notes != [] && init == notes[..|notes| - 1] && last == notes[|notes| - 1]
    ensures (exists i :: 0 <= i < |notes| && key in GroupKeys(notes[i]))
            <==> (exists i :: 0 <= i < |init| && key in GroupKeys(init[i])) || key in GroupKeys(last)
  {
    ExistsSnoc(notes, init, last, n => key in GroupKeys(n));
  }

  /** Some element satisfies `p` exactly when one of the earlier ones or the
      last one does. */
  lemma ExistsSnoc<T>(s: seq<T>, init: seq<T>, last: T, p: T -> bool)
    requires s != [] && init == s[..|s| - 1] && last == s[|s| - 1]
    ensures (exists i :: 0 <= i < |s| && p(s[i])) <==> (exists i :: 0 <= i < |init| && p(init[i])) || p(last)
  {
    if exists i :: 0 <= i < |s| && p(s[i]) {
      var i :| 0 <= i < |s| && p(s[i]);
      if i < |init| {
        assert init[i] == s[i];
      }
    }
  }

  /** The groups are exactly the normalised tags of the tagged notes, and
      "(No tag)" exists exactly when some note has no tags. */
  lemma GroupKeysMeaning(notes: seq<Note>, key: string)
    ensures key in Grouped(notes).entries <==> exists i :: 0 <= i < |notes| && key in GroupKeys(notes[i])
    ensures NoTag in Grouped(notes).entries <==> exists i :: 0 <= i < |notes| && Untagged(notes[i])
  {
    GroupedMeaning(notes, key);
    MembersNonEmpty(notes, key);
    GroupedMeaning(notes, NoTag);
    MembersNonEmpty(notes, NoTag);
    forall i | 0 <= i < |notes| && !Untagged(notes[i])
      ensures NoTag !in GroupKeys(notes[i])
    {
      forall j | 0 <= j < |notes[i].tags.value| {
        NormalizedIsNeverNoTag(notes[i].tags.value[j]);
      }
    }
  }

  // ---------------------------------------------------------------- the order of the groups

  /** `key=lambda tag: (tag == "(No tag)", tag)`: `False` sorts before
      `True`, then the names by code point. */
  function TagLess(a: string, b: string): bool
  {
    (a != NoTag && b == NoTag) || ((a == NoTag) == (b == NoTag) && StrLess(a, b))
  }

  lemma TagLessStrictWeak()
    ensures StrictWeak(TagLess)
  {
    StrLessStrictWeak();
  }

  /** `sorted(tags_dict.keys(), key=…)` */
  function SortedTags(d: OrderedMap<string, seq<Note>>): seq<string>
  {
    SortBy(d.keys, TagLess)
  }

  lemma {:induction false} CountUnique(s: seq<string>, x: string)
    requires NoDuplicates(s)
    ensures multiset(s)[x] <= 1
  {
    if s != [] {
      assert NoDuplicates(s[1..]);
      CountUnique(s[1..], x);
      assert s == [s[0]] + s[1..];
      if s[0] == x {
        assert x !in s[1..];
      }
    }
  }

  lemma PermutationKeepsUnique(s: seq<string>, t: seq<string>)
    requires NoDuplicates(s) && multiset(s) == multiset(t)
    ensures NoDuplicates(t)
  {
    forall i, j | 0 <= i < j < |t| ensures t[i] != t[j] {
      if t[i] == t[j] {
        var x := t[i];
        assert t == t[..i] + [x] + t[i + 1..j] + [x] + t[j + 1..];
        assert multiset(t)[x] >= 2;
        CountUnique(s, x);
      }
    }
  }

  /** The groups come out sorted, each once, every group listed, and
      "(No tag)" last whenever it is present. */
  lemma SortedTagsMeaning(notes: seq<Note>)
    ensures var s := SortedTags(Grouped(notes));
            && Sorted(s, TagLess)
            && NoDuplicates(s)
            && (forall key :: key in s <==> key in Grouped(notes).entries)
            && (forall i :: 0 <= i < |s| && s[i] == NoTag ==> i == |s| - 1)
  {
    var d := Grouped(notes);
    var s := SortedTags(d);
    TagLessStrictWeak();
    SortBySorted(d.keys, TagLess);
    PermutationKeepsUnique(d.keys, s);
    forall key ensures key in s <==> key in d.keys {
      InMultiset(key, s, d.keys);
    }
    forall i | 0 <= i < |s| && s[i] == NoTag ensures i == |s| - 1 {
      if i < |s| - 1 {
        assert s[i + 1] != NoTag;
        assert TagLess(s[i + 1], s[i]);
      }
    }
  }
}
