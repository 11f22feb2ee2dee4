/** Removing repeated values while keeping the order of first occurrence:
    the loop `if x not in seen: out.append(x); seen.add(x)` that the phone
    and e-mail list validators run over their validated entries. */
module Unique {

  predicate NoDuplicates<T(==)>(s: seq<T>)
  {
    forall i, j :: 0 <= i < j < |s| ==> s[i] != s[j]
  }

  /** The position of the first occurrence of `x` in `s`. */
  function FirstIndex<T(==)>(s: seq<T>, x: T): (i: nat)
    requires x in s
    ensures i < |s| && s[i] == x
    ensures forall j :: 0 <= j < i ==> s[j] != x
  {
    if s[0] == x then 0 else 1 + FirstIndex(s[1..], x)
  }

  /** The values of `s`, each once, at the place it first occurs. */
  function Dedupe<T(==)>(s: seq<T>): seq<T>
  {
    if s == [] then []
    else
      var init := s[..|s| - 1];
      var last := s[|s| - 1];
      if last in init then Dedupe(init) else Dedupe(init) + [last]
  }

  /** The result holds every value of the input and no other, once each. */
  lemma {:induction false} DedupeElements<T>(s: seq<T>)
    ensures forall x :: x in Dedupe(s) <==> x in s
    ensures forall i :: 0 <= i < |Dedupe(s)| ==> Dedupe(s)[i] in s
    ensures NoDuplicates(Dedupe(s))
  {
    if s != [] {
      var init := s[..|s| - 1];
      DedupeElements(init);
      assert s == init + [s[|s| - 1]];
    }
  }

  /** The first occurrence is the one with no occurrence before it. */
  lemma {:induction false} FirstIndexUnique<T>(s: seq<T>, x: T, i: nat)
    requires i < |s| && s[i] == x && forall j :: 0 <= j < i ==> s[j] != x
    ensures x in s && FirstIndex(s, x) == i
  {
    if i > 0 {
      assert s[1..][i - 1] == x;
      FirstIndexUnique(s[1..], x, i - 1);
    }
  }

  lemma FirstIndexOfPrefix<T>(s: seq<T>, k: nat, x: T)
    requires k <= |s| && x in s[..k]
    ensures x in s && FirstIndex(s, x) == FirstIndex(s[..k], x)
  {
    var i := FirstIndex(s[..k], x);
    assert forall j :: 0 <= j < i ==> s[j] == s[..k][j];
    FirstIndexUnique(s, x, i);
  }

  /** Values come out in the order of their first occurrences. */
  lemma {:induction false} DedupeKeepsFirstOrder<T>(s: seq<T>)
    ensures forall i, j :: 0 <= i < j < |Dedupe(s)| ==>
              (Dedupe(s)[i] in s && Dedupe(s)[j] in s && FirstIndex(s, Dedupe(s)[i]) < FirstIndex(s, Dedupe(s)[j]))
  {
    DedupeElements(s);
    if s != [] {
      var init := s[..|s| - 1];
      var last := s[|s| - 1];
      DedupeKeepsFirstOrder(init);
      DedupeElements(init);
      var d := Dedupe(init);
      assert s[..|init|] == init;
      forall x | x in d
        ensures x in s && FirstIndex(s, x) == FirstIndex(init, x) < |init|
      {
        assert x in init;
        FirstIndexOfPrefix(s, |init|, x);
      }
      if last !in init {
        assert forall j :: 0 <= j < |init| ==> s[j] == init[j];
        FirstIndexUnique(s, last, |init|);
      }
    }
  }

  /** `Dedupe` leaves a list without repeats as it is. */
  lemma {:induction false} DedupeOfUnique<T>(s: seq<T>)
    requires NoDuplicates(s)
    ensures Dedupe(s) == s
  {
    if s != [] {
      var init := s[..|s| - 1];
      assert NoDuplicates(init);
      DedupeOfUnique(init);
      assert s[|s| - 1] !in init;
      assert s == init + [s[|s| - 1]];
    }
  }

  /** Deduplicating twice is deduplicating once. */
  lemma DedupeIdempotent<T>(s: seq<T>)
    ensures Dedupe(Dedupe(s)) == Dedupe(s)
  {
    DedupeElements(s);
    DedupeOfUnique(Dedupe(s));
  }

  /** The loop: keep a value when the set of values seen so far lacks it. */
  method DedupeLoop<T(==)>(s: seq<T>) returns (r: seq<T>)
    ensures r == Dedupe(s)
  {
    var seen: set<T> := {};
    r := [];
    for i := 0 to |s|
      invariant r == Dedupe(s[..i])
      invariant forall x :: x in seen <==> x in s[..i]
    {
      assert s[..i + 1][..i] == s[..i];
      if s[i] !in seen {
        r := r + [s[i]];
      }
      seen := seen + {s[i]};
      assert forall x :: x in s[..i + 1] <==> x in s[..i] || x == s[i] by {
        assert s[..i + 1] == s[..i] + [s[i]];
      }
    }
    assert s[..|s|] == s;
  }
}
