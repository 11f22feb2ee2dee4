/** Python's `list.sort(key=..., reverse=...)`: a stable sort. It is
    modelled by insertion sort under a strict weak order; the sorted, stable
    permutation it produces is the one any stable sort produces. */
module Sorting {

  /** `lt` is a strict weak order: asymmetric, and "not less" is transitive. */
  ghost predicate StrictWeak<T(!new)>(lt: (T, T) -> bool)
  {
    && (forall a, b :: lt(a, b) ==> !lt(b, a))
    && (forall a, b, c :: lt(a, c) ==> lt(a, b) || lt(b, c))
  }

  /** No element is `lt`-smaller than one before it. */
  predicate Sorted<T>(s: seq<T>, lt: (T, T) -> bool)
  {
    forall i, j :: 0 <= i < j < |s| ==> !lt(s[j], s[i])
  }

  /** Order by `first`, and among elements `first` ties, by `then`. */
  function Then<T>(first: (T, T) -> bool, tie: (T, T) -> bool): (T, T) -> bool
  {
    (a: T, b: T) => first(a, b) || (!first(b, a) && tie(a, b))
  }

  function Flip<T>(lt: (T, T) -> bool): (T, T) -> bool
  {
    (a: T, b: T) => lt(b, a)
  }

  function Never<T>(): (T, T) -> bool
  {
    (a: T, b: T) => false
  }

  /** Insert `x` after every element it is not `lt`-smaller than. */
  function Insert<T>(x: T, s: seq<T>, lt: (T, T) -> bool): (r: seq<T>)
    ensures multiset(r) == multiset(s) + multiset{x}
    ensures |r| == |s| + 1
  {
    if s == [] then [x]
    else if lt(x, s[|s| - 1]) then
      var init := s[..|s| - 1];
      assert s == init + [s[|s| - 1]];
      Insert(x, init, lt) + [s[|s| - 1]]
    else s + [x]
  }

  /** The stable sort of `s` under `lt`. */
  function SortBy<T>(s: seq<T>, lt: (T, T) -> bool): (r: seq<T>)
    ensures multiset(r) == multiset(s)
    ensures |r| == |s|
  {
    if s == [] then []
    else
      var init := s[..|s| - 1];
      assert s == init + [s[|s| - 1]];
      Insert(s[|s| - 1], SortBy(init, lt), lt)
  }

  lemma InMultiset<T>(x: T, s: seq<T>, t: seq<T>)
    requires multiset(s) == multiset(t)
    ensures x in s <==> x in t
  {
    assert x in s <==> x in multiset(s);
    assert x in t <==> x in multiset(t);
  }

  lemma {:induction false} InsertThen<T(!new)>(x: T, t: seq<T>, lt: (T, T) -> bool, p: (T, T) -> bool)
    requires StrictWeak(lt)
    requires Sorted(t, Then(lt, p))
    requires forall e :: e in t ==> !p(x, e)
    ensures Sorted(Insert(x, t, lt), Then(lt, p))
    decreases |t|
  {
    var th := Then(lt, p);
    if t != [] {
      var last := t[|t| - 1];
      var init := t[..|t| - 1];
      if lt(x, last) {
        assert Sorted(init, th) && forall e :: e in init ==> e in t by {
          assert forall k :: 0 <= k < |init| ==> init[k] == t[k];
        }
        InsertThen(x, init, lt, p);
        var ins := Insert(x, init, lt);
        forall i | 0 <= i < |ins|
          ensures !th(last, ins[i])
        {
          var e := ins[i];
          assert e in multiset(init) + multiset{x} by {
            assert e in multiset(ins);
          }
          if e in init {
            var k :| 0 <= k < |init| && init[k] == e;
            assert t[k] == e;
          } else {
            assert e == x;
          }
        }
        SortedSnoc(ins, last, th);
      } else {
        forall i | 0 <= i < |t|
          ensures !th(x, t[i])
        {
          assert t[i] in t;
          if i < |t| - 1 {
            assert !th(last, t[i]);
          }
        }
        SortedSnoc(t, x, th);
      }
    }
  }

  /** A sorted list stays sorted with an element added that is smaller
      than none of it. */
  lemma SortedSnoc<T>(s: seq<T>, y: T, lt: (T, T) -> bool)
    requires Sorted(s, lt)
    requires forall i :: 0 <= i < |s| ==> !lt(y, s[i])
    ensures Sorted(s + [y], lt)
  {
    var r := s + [y];
    forall i, j | 0 <= i < j < |r|
      ensures !lt(r[j], r[i])
    {
      assert r[i] == s[i];
      if j < |s| {
        assert r[j] == s[j];
      }
    }
  }

  /** Stability, stated as the order it leaves: sorting a list already in
      `p` order by `lt` gives `lt` order, with `lt`-ties left in `p` order. */
  lemma {:induction false} SortByThen<T(!new)>(s: seq<T>, lt: (T, T) -> bool, p: (T, T) -> bool)
    requires StrictWeak(lt)
    requires Sorted(s, p)
    ensures Sorted(SortBy(s, lt), Then(lt, p))
    decreases |s|
  {
    if s != [] {
      var init := s[..|s| - 1];
      var x := s[|s| - 1];
      assert forall k :: 0 <= k < |init| ==> init[k] == s[k];
      assert Sorted(init, p);
      SortByThen(init, lt, p);
      var t := SortBy(init, lt);
      forall e | e in t
        ensures !p(x, e)
      {
        InMultiset(e, t, init);
        var k :| 0 <= k < |init| && init[k] == e;
        assert s[k] == e;
      }
      InsertThen(x, t, lt, p);
    }
  }

  /** The result of a sort is in order. */
  lemma SortBySorted<T(!new)>(s: seq<T>, lt: (T, T) -> bool)
    requires StrictWeak(lt)
    ensures Sorted(SortBy(s, lt), lt)
  {
    SortByThen(s, lt, Never());
    var r := SortBy(s, lt);
    assert forall a, b :: Then(lt, Never())(a, b) == lt(a, b);
  }

  lemma FlipStrictWeak<T(!new)>(lt: (T, T) -> bool)
    requires StrictWeak(lt)
    ensures StrictWeak(Flip(lt))
  {
    forall a, b, c | Flip(lt)(a, c)
      ensures Flip(lt)(a, b) || Flip(lt)(b, c)
    {
      assert lt(c, a);
      assert lt(c, b) || lt(b, a);
    }
  }

  /** Lexicographic order over a list of orders, the first dominating. */
  function Lex<T>(lts: seq<(T, T) -> bool>): (T, T) -> bool
  {
    if lts == [] then Never() else Then(lts[0], Lex(lts[1..]))
  }

  /** One stable sort per order, the last order first: the result is in
      the lexicographic order of the list, the first one dominating. */
  function SortByEach<T>(s: seq<T>, lts: seq<(T, T) -> bool>): (r: seq<T>)
    ensures multiset(r) == multiset(s)
  {
    if lts == [] then s else SortBy(SortByEach(s, lts[1..]), lts[0])
  }

  lemma {:induction false} SortByEachIsLex<T(!new)>(s: seq<T>, lts: seq<(T, T) -> bool>)
    requires forall i :: 0 <= i < |lts| ==> StrictWeak(lts[i])
    ensures Sorted(SortByEach(s, lts), Lex(lts))
  {
    if lts != [] {
      assert forall i :: 0 <= i < |lts[1..]| ==> lts[1..][i] == lts[i + 1];
      SortByEachIsLex(s, lts[1..]);
      SortByThen(SortByEach(s, lts[1..]), lts[0], Lex(lts[1..]));
    }
  }

  // ---- stability: sorting elements tagged with their positions

  /** Each element of `s` paired with its position. */
  function Tag<T>(s: seq<T>): (t: seq<(T, int)>)
    ensures |t| == |s| && forall i :: 0 <= i < |s| ==> t[i] == (s[i], i)
  {
    seq(|s|, i requires 0 <= i < |s| => (s[i], i))
  }

  function Firsts<T>(t: seq<(T, int)>): (r: seq<T>)
    ensures |r| == |t| && forall i :: 0 <= i < |t| ==> r[i] == t[i].0
  {
    seq(|t|, i requires 0 <= i < |t| => t[i].0)
  }

  function Seconds<T>(t: seq<(T, int)>): (r: seq<int>)
    ensures |r| == |t| && forall i :: 0 <= i < |t| ==> r[i] == t[i].1
  {
    seq(|t|, i requires 0 <= i < |t| => t[i].1)
  }

  /** `lt` on the elements, the tags ignored. */
  function ByFirst<T>(lt: (T, T) -> bool): ((T, int), (T, int)) -> bool
  {
    (a: (T, int), b: (T, int)) => lt(a.0, b.0)
  }

  function Lift<T>(lts: seq<(T, T) -> bool>): (r: seq<((T, int), (T, int)) -> bool>)
    ensures |r| == |lts| && forall i :: 0 <= i < |lts| ==> r[i] == ByFirst(lts[i])
  {
    seq(|lts|, i requires 0 <= i < |lts| => ByFirst(lts[i]))
  }

  /** The earlier position first. */
  function ByPosition<T>(): ((T, int), (T, int)) -> bool
  {
    (a: (T, int), b: (T, int)) => a.1 < b.1
  }

  /** Lexicographic order over a list of orders, with `base` deciding what
      all of them tie on. */
  function LexThen<T>(lts: seq<(T, T) -> bool>, base: (T, T) -> bool): (T, T) -> bool
  {
    if lts == [] then base else Then(lts[0], LexThen(lts[1..], base))
  }

  /** No order of the list tells `a` and `b` apart. */
  predicate TiedOnAll<T>(lts: seq<(T, T) -> bool>, a: T, b: T)
  {
    forall i :: 0 <= i < |lts| ==> !lts[i](a, b) && !lts[i](b, a)
  }

  lemma FirstsSnoc<T>(t: seq<(T, int)>, y: (T, int))
    ensures Firsts(t + [y]) == Firsts(t) + [y.0]
  {
    assert forall i :: 0 <= i < |t| ==> (t + [y])[i] == t[i];
  }

  /** Inserting a tagged element inserts its element among the elements. */
  lemma {:induction false} InsertFirsts<T>(x: (T, int), t: seq<(T, int)>, lt: (T, T) -> bool)
    ensures Firsts(Insert(x, t, ByFirst(lt))) == Insert(x.0, Firsts(t), lt)
    decreases |t|
  {
    if t != [] {
      var init := t[..|t| - 1];
      var last := t[|t| - 1];
      assert t == init + [last];
      FirstsSnoc(init, last);
      assert Firsts(t)[..|t| - 1] == Firsts(init);
      assert ByFirst(lt)(x, last) == lt(x.0, last.0);
      if lt(x.0, last.0) {
        InsertFirsts(x, init, lt);
        FirstsSnoc(Insert(x, init, ByFirst(lt)), last);
      } else {
        FirstsSnoc(t, x);
      }
    }
  }

  /** Sorting tagged elements by their elements sorts the elements. */
  lemma {:induction false} SortByFirsts<T>(t: seq<(T, int)>, lt: (T, T) -> bool)
    ensures Firsts(SortBy(t, ByFirst(lt))) == SortBy(Firsts(t), lt)
    decreases |t|
  {
    if t != [] {
      var init := t[..|t| - 1];
      SortByFirsts(init, lt);
      assert Firsts(t)[..|t| - 1] == Firsts(init);
      InsertFirsts(t[|t| - 1], SortBy(init, ByFirst(lt)), lt);
    }
  }

  lemma {:induction false} SortByEachFirsts<T>(t: seq<(T, int)>, lts: seq<(T, T) -> bool>)
    ensures Firsts(SortByEach(t, Lift(lts))) == SortByEach(Firsts(t), lts)
  {
    if lts != [] {
      assert Lift(lts)[1..] == Lift(lts[1..]);
      SortByEachFirsts(t, lts[1..]);
      SortByFirsts(SortByEach(t, Lift(lts[1..])), lts[0]);
    }
  }

  lemma ByFirstStrictWeak<T(!new)>(lt: (T, T) -> bool)
    requires StrictWeak(lt)
    ensures StrictWeak(ByFirst(lt))
  {
    forall a: (T, int), b: (T, int) | ByFirst(lt)(a, b)
      ensures !ByFirst(lt)(b, a)
    {
      assert lt(a.0, b.0);
    }
    forall a: (T, int), b: (T, int), c: (T, int) | ByFirst(lt)(a, c)
      ensures ByFirst(lt)(a, b) || ByFirst(lt)(b, c)
    {
      assert lt(a.0, c.0);
      assert lt(a.0, b.0) || lt(b.0, c.0);
      assert ByFirst(lt)(a, b) == lt(a.0, b.0) && ByFirst(lt)(b, c) == lt(b.0, c.0);
    }
  }

  /** `SortByEachIsLex` over an input already in `base` order: what all the
      orders tie on stays in `base` order. */
  lemma {:induction false} SortByEachThen<T(!new)>(s: seq<T>, lts: seq<(T, T) -> bool>, base: (T, T) -> bool)
    requires forall i :: 0 <= i < |lts| ==> StrictWeak(lts[i])
    requires Sorted(s, base)
    ensures Sorted(SortByEach(s, lts), LexThen(lts, base))
  {
    if lts != [] {
      assert forall i :: 0 <= i < |lts[1..]| ==> lts[1..][i] == lts[i + 1];
      SortByEachThen(s, lts[1..], base);
      SortByThen(SortByEach(s, lts[1..]), lts[0], LexThen(lts[1..], base));
    }
  }

  lemma {:induction false} LexThenTied<T>(lts: seq<(T, T) -> bool>, base: (T, T) -> bool, a: T, b: T)
    requires TiedOnAll(lts, a, b)
    ensures LexThen(lts, base)(a, b) == base(a, b)
  {
    if lts != [] {
      assert TiedOnAll(lts[1..], a, b) by {
        assert forall i :: 0 <= i < |lts[1..]| ==> lts[1..][i] == lts[i + 1];
      }
      LexThenTied(lts[1..], base, a, b);
    }
  }

  ghost predicate Distinct<T>(s: seq<T>)
  {
    forall i, j :: 0 <= i < j < |s| ==> s[i] != s[j]
  }

  lemma {:induction false} DistinctCount<T>(s: seq<T>, x: T)
    requires Distinct(s)
    ensures multiset(s)[x] <= 1
  {
    if s != [] {
      var init := s[..|s| - 1];
      assert s == init + [s[|s| - 1]];
      assert forall i :: 0 <= i < |init| ==> init[i] == s[i];
      DistinctCount(init, x);
      if x == s[|s| - 1] {
        assert x !in init;
      }
    }
  }

  lemma RepeatCount<T>(s: seq<T>, k: int, l: int)
    requires 0 <= k < l < |s| && s[k] == s[l]
    ensures multiset(s)[s[k]] >= 2
  {
    assert s == s[..l] + [s[l]] + s[l + 1..];
    assert s[..l][k] == s[k];
  }

  /** A permutation of a list without repeats has none either. */
  lemma DistinctPerm<T>(a: seq<T>, b: seq<T>)
    requires multiset(a) == multiset(b) && Distinct(a)
    ensures Distinct(b)
  {
    forall k, l | 0 <= k < l < |b|
      ensures b[k] != b[l]
    {
      if b[k] == b[l] {
        RepeatCount(b, k, l);
        DistinctCount(a, b[k]);
      }
    }
  }

  /** For each place of `SortByEach(s, lts)`, the position in `s` of the
      element it holds. */
  function EachPositions<T>(s: seq<T>, lts: seq<(T, T) -> bool>): (pos: seq<int>)
    ensures |pos| == |s|
  {
    var t := SortByEach(Tag(s), Lift(lts));
    assert |multiset(t)| == |multiset(Tag(s))|;
    Seconds(t)
  }

  /** The tagged sort holds each element of `s` once, with its position. */
  lemma TaggedSortIsTags<T>(s: seq<T>, lts: seq<(T, T) -> bool>)
    ensures var t := SortByEach(Tag(s), Lift(lts));
            && |t| == |s|
            && (forall k :: 0 <= k < |t| ==> 0 <= t[k].1 < |s| && t[k] == (s[t[k].1], t[k].1))
            && Distinct(t)
  {
    var tg := Tag(s);
    var t := SortByEach(tg, Lift(lts));
    assert |multiset(t)| == |multiset(tg)|;
    forall k | 0 <= k < |t|
      ensures 0 <= t[k].1 < |s| && t[k] == (s[t[k].1], t[k].1)
    {
      assert t[k] in multiset(t);
      assert t[k] in tg;
    }
    assert Distinct(tg);
    DistinctPerm(tg, t);
  }

  /** In the tagged sort, elements no order tells apart come in the order
      of their tags. */
  lemma TaggedSortTies<T(!new)>(s: seq<T>, lts: seq<(T, T) -> bool>, k: int, l: int)
    requires forall i :: 0 <= i < |lts| ==> StrictWeak(lts[i])
    requires var t := SortByEach(Tag(s), Lift(lts));
             0 <= k < l < |t| && TiedOnAll(lts, t[k].0, t[l].0)
    ensures var t := SortByEach(Tag(s), Lift(lts));
            t[k].1 <= t[l].1
  {
    var tg := Tag(s);
    var lifted := Lift(lts);
    var t := SortByEach(tg, lifted);
    forall i | 0 <= i < |lifted| ensures StrictWeak(lifted[i]) {
      ByFirstStrictWeak(lts[i]);
    }
    assert Sorted(tg, ByPosition());
    SortByEachThen(tg, lifted, ByPosition());
    assert TiedOnAll(lifted, t[l], t[k]) by {
      forall i | 0 <= i < |lifted|
        ensures !lifted[i](t[l], t[k]) && !lifted[i](t[k], t[l])
      {
        assert lifted[i](t[l], t[k]) == lts[i](t[l].0, t[k].0);
        assert lifted[i](t[k], t[l]) == lts[i](t[k].0, t[l].0);
      }
    }
    LexThenTied(lifted, ByPosition(), t[l], t[k]);
    assert !LexThen(lifted, ByPosition())(t[l], t[k]);
  }

  /** Stability: the sorted list is `s` rearranged by a permutation of its
      positions, and two elements that no order tells apart come in the
      order of their positions in `s`. */
  lemma SortByEachStable<T(!new)>(s: seq<T>, lts: seq<(T, T) -> bool>)
    requires forall i :: 0 <= i < |lts| ==> StrictWeak(lts[i])
    ensures var r := SortByEach(s, lts);
            var pos := EachPositions(s, lts);
            && |r| == |s|
            && (forall k :: 0 <= k < |s| ==> 0 <= pos[k] < |s| && r[k] == s[pos[k]])
            && (forall k, l :: 0 <= k < l < |s| ==> pos[k] != pos[l])
            && (forall k, l :: 0 <= k < l < |s| && TiedOnAll(lts, r[k], r[l]) ==> pos[k] < pos[l])
  {
    var r := SortByEach(s, lts);
    var pos := EachPositions(s, lts);
    var tg := Tag(s);
    var t := SortByEach(tg, Lift(lts));
    TaggedSortIsTags(s, lts);
    SortByEachFirsts(tg, lts);
    assert Firsts(tg) == s;
    assert r == Firsts(t);
    assert forall k :: 0 <= k < |s| ==> r[k] == t[k].0 && pos[k] == t[k].1;
    forall k, l | 0 <= k < l < |s|
      ensures pos[k] != pos[l]
    {
      assert t[k] != t[l];
    }
    forall k, l | 0 <= k < l < |s| && TiedOnAll(lts, r[k], r[l])
      ensures pos[k] < pos[l]
    {
      TaggedSortTies(s, lts, k, l);
      assert t[k] != t[l];
    }
  }

  /** A single sort is stable. */
  lemma SortByStable<T(!new)>(s: seq<T>, lt: (T, T) -> bool)
    requires StrictWeak(lt)
    ensures var r := SortBy(s, lt);
            var pos := EachPositions(s, [lt]);
            && (forall k :: 0 <= k < |s| ==> 0 <= pos[k] < |s| && r[k] == s[pos[k]])
            && (forall k, l :: 0 <= k < l < |s| ==> pos[k] != pos[l])
            && (forall k, l :: 0 <= k < l < |s| && !lt(r[k], r[l]) && !lt(r[l], r[k]) ==> pos[k] < pos[l])
  {
    var one := [lt];
    assert one[0] == lt && one[1..] == [];
    assert SortByEach(s, one[1..]) == s;
    assert SortByEach(s, one) == SortBy(s, lt);
    SortByEachStable(s, one);
    var r := SortBy(s, lt);
    forall k, l | 0 <= k < l < |s| && !lt(r[k], r[l]) && !lt(r[l], r[k])
      ensures TiedOnAll(one, r[k], r[l])
    {
      TiedOnOne(lt, r[k], r[l]);
    }
  }

  lemma TiedOnOne<T>(lt: (T, T) -> bool, a: T, b: T)
    requires !lt(a, b) && !lt(b, a)
    ensures TiedOnAll([lt], a, b)
  {
  }

  // ---- lexicographic order on sequences

  /** `a < b` for Python sequences whose elements are ordered by `lt`. */
  function SeqLess<X>(a: seq<X>, b: seq<X>, lt: (X, X) -> bool): bool
  {
    if a == [] then b != []
    else if b == [] then false
    else if lt(a[0], b[0]) then true
    else if lt(b[0], a[0]) then false
    else SeqLess(a[1..], b[1..], lt)
  }

  lemma {:induction false} SeqLessAsym<X(!new)>(a: seq<X>, b: seq<X>, lt: (X, X) -> bool)
    requires StrictWeak(lt)
    ensures SeqLess(a, b, lt) ==> !SeqLess(b, a, lt)
  {
    if a != [] && b != [] {
      SeqLessAsym(a[1..], b[1..], lt);
    }
  }

  lemma {:induction false} SeqLessNegTrans<X(!new)>(a: seq<X>, b: seq<X>, c: seq<X>, lt: (X, X) -> bool)
    requires StrictWeak(lt)
    ensures SeqLess(a, c, lt) ==> SeqLess(a, b, lt) || SeqLess(b, c, lt)
  {
    if a != [] && b != [] && c != [] {
      SeqLessNegTrans(a[1..], b[1..], c[1..], lt);
    }
  }

  lemma SeqLessStrictWeak<X(!new)>(lt: (X, X) -> bool)
    requires StrictWeak(lt)
    ensures StrictWeak((a: seq<X>, b: seq<X>) => SeqLess(a, b, lt))
  {
    forall a: seq<X>, b: seq<X> ensures SeqLess(a, b, lt) ==> !SeqLess(b, a, lt) {
      SeqLessAsym(a, b, lt);
    }
    forall a: seq<X>, b: seq<X>, c: seq<X> ensures SeqLess(a, c, lt) ==> SeqLess(a, b, lt) || SeqLess(b, c, lt) {
      SeqLessNegTrans(a, b, c, lt);
    }
  }
}
