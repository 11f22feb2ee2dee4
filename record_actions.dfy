/** The data actions on single records: adding, reading, updating and
    deleting a contact or a note in the storage. Each raises the
    application's error when the uid is (for add) or is not (for the others)
    already stored. */
module RecordActions {
  import opened Base
  import opened Values
  import opened Models
  import opened Dicts
  import opened Storage

  function ExistsMessage(singular: string, uid: Uuid): string
  {
    singular + " with uid " + UuidStr(uid) + " already exists."
  }

  function NotFoundMessage(singular: string, uid: Uuid): string
  {
    singular + " with uid " + UuidStr(uid) + " not found."
  }

  // ---------------------------------------------------------------- contacts

  /** `contact_add`: a uid already stored is refused and nothing changes;
      otherwise the contact is stored under its uid, last in order. */
  method ContactAdd(storage: DataStorage, contact: Contact) returns (r: Result<Contact>)
    requires storage.Valid()
    modifies storage
    ensures storage.Valid() && storage.notes == old(storage.notes)
    ensures contact.uid in old(storage.contacts.entries) ==>
              r == Fail(AlreadyExistsError, ExistsMessage(ContactMeta().singularName, contact.uid))
              && storage.contacts == old(storage.contacts)
    ensures contact.uid !in old(storage.contacts.entries) ==>
              r == Ok(contact) && storage.contacts == old(storage.contacts).Set(contact.uid, contact)
  {
    if contact.uid in storage.contacts.entries {
      return Fail(AlreadyExistsError, ExistsMessage(ContactMeta().singularName, contact.uid));
    }
    storage.contacts := storage.contacts.Set(contact.uid, contact);
    return Ok(contact);
  }

  /** `contact_get`: the stored contact, or `NotFoundError`. */
  function ContactGet(storage: DataStorage, uid: Uuid): (r: Result<Contact>)
    reads storage
    ensures r.Ok? <==> uid in storage.contacts.entries
    ensures r.Ok? ==> r.value == storage.contacts.entries[uid]
    ensures r.Err? ==> r == Fail(NotFoundError, NotFoundMessage("Contact", uid))
  {
    if uid in storage.contacts.entries then Ok(storage.contacts.entries[uid])
    else Fail(NotFoundError, NotFoundMessage("Contact", uid))
  }

  /** `contact_update`: an assignment to the dictionary, which never raises
      `KeyError`, so it stores the contact whether or not its uid was present. */
  method ContactUpdate(storage: DataStorage, contact: Contact) returns (r: Contact)
    requires storage.Valid()
    modifies storage
    ensures storage.Valid() && storage.notes == old(storage.notes)
    ensures storage.contacts == old(storage.contacts).Set(contact.uid, contact)
    ensures r == contact
  {
    storage.contacts := storage.contacts.Set(contact.uid, contact);
    return contact;
  }

  /** `contact_delete` and `contact_remove`: a missing uid raises
      `NotFoundError`; a present one is removed. */
  method ContactDelete(storage: DataStorage, uid: Uuid) returns (err: Option<Error>)
    requires storage.Valid()
    modifies storage
    ensures storage.Valid() && storage.notes == old(storage.notes)
    ensures uid !in old(storage.contacts.entries) ==>
              err == Some(Error(NotFoundError, NotFoundMessage("Contact", uid)))
              && storage.contacts == old(storage.contacts)
    ensures uid in old(storage.contacts.entries) ==>
              err == None && storage.contacts == old(storage.contacts).Delete(uid)
  {
    if uid !in storage.contacts.entries {
      return Some(Error(NotFoundError, NotFoundMessage("Contact", uid)));
    }
    storage.contacts := storage.contacts.Delete(uid);
    return None;
  }

  /** `contact_remove` differs from `contact_delete` only in not saving the
      storage afterwards, which is outside this model. */
  method ContactRemove(storage: DataStorage, uid: Uuid) returns (err: Option<Error>)
    requires storage.Valid()
    modifies storage
    ensures storage.Valid() && storage.notes == old(storage.notes)
    ensures uid !in old(storage.contacts.entries) ==>
              err == Some(Error(NotFoundError, NotFoundMessage("Contact", uid)))
              && storage.contacts == old(storage.contacts)
    ensures uid in old(storage.contacts.entries) ==>
              err == None && storage.contacts == old(storage.contacts).Delete(uid)
  {
    err := ContactDelete(storage, uid);
  }

  // ------------------------------------------------------------------- notes

  /** `note_add`: a uid already stored is refused; otherwise the note is
      stored under its uid, last in order. */
  method NoteAdd(storage: DataStorage, note: Note) returns (r: Result<Note>)
    requires storage.Valid()
    modifies storage
    ensures storage.Valid() && storage.contacts == old(storage.contacts)
    ensures note.uid in old(storage.notes.entries) ==>
              r == Fail(AlreadyExistsError, ExistsMessage("Note", note.uid))
              && storage.notes == old(storage.notes)
    ensures note.uid !in old(storage.notes.entries) ==>
              r == Ok(note) && storage.notes == old(storage.notes).Set(note.uid, note)
  {
    if note.uid in storage.notes.entries {
      return Fail(AlreadyExistsError, ExistsMessage("Note", note.uid));
    }
    storage.notes := storage.notes.Set(note.uid, note);
    return Ok(note);
  }

  /** `note_get`: the stored note, or `NotFoundError` naming the note
      model's singular name. */
  function NoteGet(storage: DataStorage, uid: Uuid): (r: Result<Note>)
    reads storage
    ensures r.Ok? <==> uid in storage.notes.entries
    ensures r.Ok? ==> r.value == storage.notes.entries[uid]
    ensures r.Err? ==> r == Fail(NotFoundError, NotFoundMessage("Note", uid))
  {
    if uid in storage.notes.entries then Ok(storage.notes.entries[uid])
    else Fail(NotFoundError, NotFoundMessage("Note", uid))
  }

  /** What `note_update` leaves in place of the stored note `n`: the title is
      assigned first, then the content; an empty content is refused by the
      model's validation after the title has already changed. */
  function UpdatedNote(n: Note, newTitle: string, newContent: string): (r: (Note, Option<Error>))
    ensures r.0.title == Some(newTitle) && r.0.uid == n.uid && r.0.tags == n.tags
    ensures r.1 == None <==> newContent != ""
    ensures r.1 == None ==> r.0.content == newContent
    ensures r.1 != None ==> r.0.content == n.content && r.1 == Some(Error(ValidationError, MinLengthMessage))
  {
    var titled := SetTitle(n, Some(newTitle));
    match SetContent(titled, newContent)
    case Ok(m) => (m, None)
    case Err(e) => (titled, Some(e))
  }

  /** `note_update`: a missing uid raises `NotFoundError` and changes
      nothing; otherwise the stored note is updated in its place. */
  method NoteUpdate(storage: DataStorage, uid: Uuid, newTitle: string, newContent: string) returns (err: Option<Error>)
    requires storage.Valid()
    modifies storage
    ensures storage.Valid() && storage.contacts == old(storage.contacts)
    ensures uid !in old(storage.notes.entries) ==>
              err == Some(Error(NotFoundError, NotFoundMessage("Note", uid)))
              && storage.notes == old(storage.notes)
    ensures uid in old(storage.notes.entries) ==>
              var u := UpdatedNote(old(storage.notes.entries[uid]), newTitle, newContent);
              err == u.1 && storage.notes == old(storage.notes).Set(uid, u.0)
  {
    if uid !in storage.notes.entries {
      return Some(Error(NotFoundError, NotFoundMessage("Note", uid)));
    }
    var u := UpdatedNote(storage.notes.entries[uid], newTitle, newContent);
    storage.notes := storage.notes.Set(uid, u.0);
    return u.1;
  }

  /** `note_delete`: a missing uid raises `NotFoundError`; a present one is
      removed. */
  method NoteDelete(storage: DataStorage, uid: Uuid) returns (err: Option<Error>)
    requires storage.Valid()
    modifies storage
    ensures storage.Valid() && storage.contacts == old(storage.contacts)
    ensures uid !in old(storage.notes.entries) ==>
              err == Some(Error(NotFoundError, NotFoundMessage("Note", uid)))
              && storage.notes == old(storage.notes)
    ensures uid in old(storage.notes.entries) ==>
              err == None && storage.notes == old(storage.notes).Delete(uid)
  {
    if uid !in storage.notes.entries {
      return Some(Error(NotFoundError, NotFoundMessage("Note", uid)));
    }
    storage.notes := storage.notes.Delete(uid);
    return None;
  }

  // --------------------------------------------------------------- scenarios

  /** The contact life cycle on a fresh storage: after adding a contact it
      is found again, unchanged; adding it a second time is refused;
      deleting it succeeds once and is refused the second time, leaving the
      storage empty. */
  method ContactLifeCycle(contact: Contact)
    returns (got: Result<Contact>, addedAgain: Result<Contact>, deleted: Option<Error>, deletedAgain: Option<Error>, left: seq<Contact>)
    ensures got == Ok(contact)
    ensures addedAgain.Err? && addedAgain.error.kind == AlreadyExistsError
    ensures deleted == None
    ensures deletedAgain.Some? && deletedAgain.value.kind == NotFoundError
    ensures left == []
  {
    var storage := new DataStorage();
    var added := ContactAdd(storage, contact);
    got := ContactGet(storage, contact.uid);
    addedAgain := ContactAdd(storage, contact);
    assert storage.contacts.keys == [contact.uid];
    deleted := ContactDelete(storage, contact.uid);
    assert storage.contacts.keys == DropKey([contact.uid], contact.uid) == [];
    deletedAgain := ContactDelete(storage, contact.uid);
    left := storage.contacts.Values();
  }

  /** Editing a note with an empty content is refused, yet the new title it
      carried is kept, and the note keeps its place in the storage. */
  method NoteEditEmptyContent(note: Note, newTitle: string) returns (err: Option<Error>, after: Result<Note>, notes: seq<Note>)
    requires ValidNote(note)
    ensures err == Some(Error(ValidationError, MinLengthMessage))
    ensures after == Ok(note.(title := Some(newTitle)))
    ensures notes == [note.(title := Some(newTitle))]
  {
    var storage := new DataStorage();
    var added := NoteAdd(storage, note);
    err := NoteUpdate(storage, note.uid, newTitle, "");
    after := NoteGet(storage, note.uid);
    notes := storage.notes.Values();
  }
}
