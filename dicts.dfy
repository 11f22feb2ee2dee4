/** Python's `dict`, which keeps its keys in insertion order: the key
    order together with the entries. Assigning to a present key keeps its
    place, a new key goes last, and deleting a key closes the gap. */
module Dicts {
  import opened Base
  import opened Unique

  /** The keys of `keys` other than `k`, in order. */
  function DropKey<K(==,!new)>(keys: seq<K>, k: K): (r: seq<K>)
    ensures |r| <= |keys|
    ensures forall x :: x in r <==> x in keys && x != k
  {
    if keys == [] then []
    else
      var rest := DropKey(keys[1..], k);
      assert forall x :: x in keys <==> x == keys[0] || x in keys[1..] by {
        assert keys == [keys[0]] + keys[1..];
      }
      if keys[0] == k then rest else [keys[0]] + rest
  }

  lemma {:induction false} DropKeyKeepsUnique<K(!new)>(keys: seq<K>, k: K)
    requires NoDuplicates(keys)
    ensures NoDuplicates(DropKey(keys, k))
  {
    if keys != [] {
      var rest := DropKey(keys[1..], k);
      assert NoDuplicates(keys[1..]);
      DropKeyKeepsUnique(keys[1..], k);
      if keys[0] != k {
        assert forall i :: 0 <= i < |rest| ==> rest[i] in keys[1..];
        assert forall i :: 0 <= i < |rest| ==> rest[i] != keys[0];
        var r := [keys[0]] + rest;
        assert forall i :: 1 <= i < |r| ==> r[i] == rest[i - 1];
      }
    }
  }

  /** A Python `dict[K, V]`: the keys in insertion order and the entries. */
  datatype OrderedMap<K(==,!new), V> = OrderedMap(keys: seq<K>, entries: map<K, V>)
  {
    /** Every key is listed once, and exactly the keys with an entry are listed. */
    ghost predicate Valid()
    {
      NoDuplicates(keys) && forall k :: k in entries <==> k in keys
    }

    /** `list(d.values())` */
    function Values(): (r: seq<V>)
      requires Valid()
      ensures |r| == |keys| && forall i :: 0 <= i < |keys| ==> r[i] == entries[keys[i]]
    {
      seq(|keys|, i requires 0 <= i < |keys| => entries[keys[i]])
    }

    /** `d[k] = v`: a new key goes last, an existing key keeps its place. */
    function Set(k: K, v: V): (r: OrderedMap<K, V>)
      requires Valid()
      ensures r.Valid()
      ensures r.entries == entries[k := v]
      ensures r.keys == if k in entries then keys else keys + [k]
    {
      if k in entries then OrderedMap(keys, entries[k := v])
      else
        var ks := keys + [k];
        assert forall i :: 0 <= i < |keys| ==> ks[i] == keys[i];
        OrderedMap(ks, entries[k := v])
    }

    /** `del d[k]` on a present key. */
    function Delete(k: K): (r: OrderedMap<K, V>)
      requires Valid() && k in entries
      ensures r.Valid()
      ensures r.entries == entries - {k}
      ensures r.keys == DropKey(keys, k)
    {
      DropKeyKeepsUnique(keys, k);
      OrderedMap(DropKey(keys, k), entries - {k})
    }

    /** `d.pop(k, None)`: the value under `k`, if any, and the dictionary
        without `k`. */
    function Pop(k: K): (r: (Option<V>, OrderedMap<K, V>))
      requires Valid()
      ensures r.1.Valid()
      ensures r.0 == if k in entries then Some(entries[k]) else None
      ensures r.1.entries == entries - {k}
      ensures r.1.keys == DropKey(keys, k)
    {
      if k in entries then (Some(entries[k]), Delete(k))
      else
        assert k !in keys;
        DropKeyAbsent(keys, k);
        assert entries - {k} == entries;
        (None, this)
    }
  }

  function EmptyMap<K(==,!new), V>(): (r: OrderedMap<K, V>)
    ensures r.Valid() && r.Values() == []
  {
    OrderedMap([], map[])
  }

  /** Storing a new key appends its value to the values and leaves every
      other entry as it was. */
  lemma SetNewKey<K(!new), V>(m: OrderedMap<K, V>, k: K, v: V)
    requires m.Valid() && k !in m.entries
    ensures m.Set(k, v).Values() == m.Values() + [v]
    ensures forall k' :: k' in m.entries ==> k' in m.Set(k, v).entries && m.Set(k, v).entries[k'] == m.entries[k']
  {
    var r := m.Set(k, v);
    assert forall i :: 0 <= i < |m.keys| ==> m.keys[i] != k;
  }

  /** Storing under a present key replaces its value in place: the values
      keep their order and only that position changes. */
  lemma SetPresentKey<K(!new), V>(m: OrderedMap<K, V>, k: K, v: V)
    requires m.Valid() && k in m.entries
    ensures |m.Set(k, v).Values()| == |m.Values()|
    ensures forall i :: 0 <= i < |m.keys| ==> m.Set(k, v).Values()[i] == if m.keys[i] == k then v else m.Values()[i]
  {
  }

  /** After a deletion the key is gone, so deleting it again is refused;
      every other entry is kept, in its order. */
  lemma DeleteRemoves<K(!new), V>(m: OrderedMap<K, V>, k: K)
    requires m.Valid() && k in m.entries
    ensures k !in m.Delete(k).entries
    ensures |m.Delete(k).Values()| == |m.Values()| - 1
    ensures forall k' :: k' in m.entries && k' != k ==> k' in m.Delete(k).entries && m.Delete(k).entries[k'] == m.entries[k']
  {
    var r := m.Delete(k);
    var i :| 0 <= i < |m.keys| && m.keys[i] == k;
    assert forall j :: 0 <= j < |m.keys| && j != i ==> m.keys[j] != k;
    DropKeySplit(m.keys, k, i);
  }

  /** Removing a key that occurs once, at `i`, cuts it out of the order. */
  lemma DropKeySplit<K(!new)>(keys: seq<K>, k: K, i: nat)
    requires i < |keys| && keys[i] == k
    requires forall j :: 0 <= j < |keys| && j != i ==> keys[j] != k
    ensures DropKey(keys, k) == keys[..i] + keys[i + 1..]
  {
    var a, b := keys[..i], keys[i + 1..];
    assert keys == a + ([k] + b);
    DropKeyAppend(a, [k] + b, k);
    DropKeyAppend([k], b, k);
    assert DropKey(a, k) == a by {
      assert forall j :: 0 <= j < |a| ==> a[j] == keys[j];
      DropKeyAbsent(a, k);
    }
    assert DropKey(b, k) == b by {
      assert forall j :: 0 <= j < |b| ==> b[j] == keys[i + 1 + j];
      DropKeyAbsent(b, k);
    }
    assert DropKey([k], k) == [];
  }

  /** Removing a key from a concatenation removes it from each part. */
  lemma {:induction false} DropKeyAppend<K(!new)>(a: seq<K>, b: seq<K>, k: K)
    ensures DropKey(a + b, k) == DropKey(a, k) + DropKey(b, k)
  {
    if a == [] {
      assert a + b == b;
    } else {
      assert (a + b)[0] == a[0] && (a + b)[1..] == a[1..] + b;
      DropKeyAppend(a[1..], b, k);
    }
  }

  lemma {:induction false} DropKeyAbsent<K(!new)>(keys: seq<K>, k: K)
    requires forall i :: 0 <= i < |keys| ==> keys[i] != k
    ensures DropKey(keys, k) == keys
  {
    if keys != [] {
      DropKeyAbsent(keys[1..], k);
    }
  }
}
