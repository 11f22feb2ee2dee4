/** The in-memory part of `DataStorage`: the two uid-keyed dictionaries
    of contacts and notes. */
module Storage {
  import opened Base
  import opened Values
  import opened Dicts
  import opened Models

  /** A uid-keyed dictionary of the storage. */
  type UidMap<V> = OrderedMap<Uuid, V>

  /** `DataStorage`, reduced to the dictionaries of its `data`. */
  class DataStorage {
    var contacts: UidMap<Contact>
    var notes: UidMap<Note>

    /** Both dictionaries are well formed, and every record is stored
        under its own uid. */
    ghost predicate Valid()
      reads this
    {
      && contacts.Valid() && notes.Valid()
      && (forall k :: k in contacts.entries ==> contacts.entries[k].uid == k)
      && (forall k :: k in notes.entries ==> notes.entries[k].uid == k)
    }

    /** `Data()`: both dictionaries empty. */
    constructor ()
      ensures Valid()
      ensures contacts == EmptyMap() && notes == EmptyMap()
    {
      contacts := EmptyMap();
      notes := EmptyMap();
    }
  }
}
