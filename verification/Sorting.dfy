/**
 * Stable sorting by a key under a total order, and when its result is a normal form: a list
 * that depends only on which elements there are.
 */
module Sorting {
  ghost predicate TotalOrder<K(!new)>(le: (K, K) -> bool) {
    && (forall a, b :: le(a, b) || le(b, a))
    && (forall a, b :: le(a, b) && le(b, a) ==> a == b)
    && forall a, b, c :: le(a, b) && le(b, c) ==> le(a, c)
  }

  ghost predicate Sorted<T(!new), K(!new)>(s: seq<T>, key: T -> K, le: (K, K) -> bool) {
    forall i, j | 0 <= i < j < |s| :: le(key(s[i]), key(s[j]))
  }

  /** After every element whose key is no larger. */
  function InsertLast<T, K>(s: seq<T>, x: T, key: T -> K, le: (K, K) -> bool): seq<T> {
    if s == [] then [x]
    else if le(key(s[|s| - 1]), key(x)) then s + [x]
    else InsertLast(s[..|s| - 1], x, key, le) + [s[|s| - 1]]
  }

  function SortBy<T, K>(s: seq<T>, key: T -> K, le: (K, K) -> bool): seq<T> {
    if s == [] then [] else InsertLast(SortBy(s[..|s| - 1], key, le), s[|s| - 1], key, le)
  }

  /** The elements of one key, in order. */
  function WithKey<T, K(==)>(s: seq<T>, key: T -> K, k: K): seq<T> {
    if s == [] then []
    else WithKey(s[..|s| - 1], key, k) + (if key(s[|s| - 1]) == k then [s[|s| - 1]] else [])
  }

  /** No element of `s` comes after `x`. */
  ghost predicate AllUpTo<T(!new), K(!new)>(s: seq<T>, x: T, key: T -> K, le: (K, K) -> bool) {
    forall e | e in s :: le(key(e), key(x))
  }

  lemma SortedAppend<T(!new), K(!new)>(s: seq<T>, x: T, key: T -> K, le: (K, K) -> bool)
    ensures Sorted(s, key, le) && AllUpTo(s, x, key, le) ==> Sorted(s + [x], key, le)
    ensures s != [] && Sorted(s, key, le) && le(key(s[|s| - 1]), key(x)) && TotalOrder(le) ==> AllUpTo(s, x, key, le)
    ensures Sorted(s + [x], key, le) ==> Sorted(s, key, le) && AllUpTo(s, x, key, le)
  {
    if Sorted(s + [x], key, le) {
      forall i | 0 <= i < |s|
        ensures le(key(s[i]), key(x))
      {
        assert le(key((s + [x])[i]), key((s + [x])[|s|]));
      }
      forall i, j | 0 <= i < j < |s|
        ensures le(key(s[i]), key(s[j]))
      {
        assert le(key((s + [x])[i]), key((s + [x])[j]));
      }
    }
  }

  lemma {:induction false} InsertMembers<T(!new), K>(s: seq<T>, x: T, key: T -> K, le: (K, K) -> bool)
    ensures multiset(InsertLast(s, x, key, le)) == multiset(s) + multiset{x}
    ensures forall e :: e in InsertLast(s, x, key, le) <==> e in s || e == x
  {
    if s != [] {
      var n := |s| - 1;
      assert s == s[..n] + [s[n]];
      InsertMembers(s[..n], x, key, le);
    }
  }

  lemma {:induction false} InsertSorts<T(!new), K(!new)>(s: seq<T>, x: T, key: T -> K, le: (K, K) -> bool)
    requires TotalOrder(le) && Sorted(s, key, le)
    ensures Sorted(InsertLast(s, x, key, le), key, le)
  {
    if s != [] {
      var n := |s| - 1;
      var before, last := s[..n], s[n];
      assert s == before + [last];
      SortedAppend(before, last, key, le);
      SortedAppend(s, x, key, le);
      if !le(key(last), key(x)) {
        InsertSorts(before, x, key, le);
        InsertMembers(before, x, key, le);
        hide InsertLast, Sorted;
        SortedAppend(InsertLast(before, x, key, le), last, key, le);
      }
    }
  }

  lemma {:induction false} SortBySorts<T(!new), K(!new)>(s: seq<T>, key: T -> K, le: (K, K) -> bool)
    requires TotalOrder(le)
    ensures Sorted(SortBy(s, key, le), key, le) && multiset(SortBy(s, key, le)) == multiset(s)
    decreases |s|
  {
    if s != [] {
      var n := |s| - 1;
      SortBySorts(s[..n], key, le);
      InsertSorts(SortBy(s[..n], key, le), s[n], key, le);
      InsertMembers(SortBy(s[..n], key, le), s[n], key, le);
      assert s == s[..n] + [s[n]];
    }
  }

  lemma {:induction false} InsertIsStable<T(!new), K(!new)>(s: seq<T>, x: T, key: T -> K, le: (K, K) -> bool, k: K)
    requires TotalOrder(le) && Sorted(s, key, le)
    ensures WithKey(InsertLast(s, x, key, le), key, k) == WithKey(s, key, k) + (if key(x) == k then [x] else [])
  {
    if s != [] {
      var n := |s| - 1;
      if le(key(s[n]), key(x)) {
        assert (s + [x])[..n + 1] == s;
      } else {
        InsertIsStable(s[..n], x, key, le, k);
        var init := InsertLast(s[..n], x, key, le);
        assert (init + [s[n]])[..|init|] == init;
        assert key(s[n]) != key(x);
      }
    }
  }

  /** Elements of one key keep their order. */
  lemma {:induction false} SortIsStable<T(!new), K(!new)>(s: seq<T>, key: T -> K, le: (K, K) -> bool, k: K)
    requires TotalOrder(le)
    ensures WithKey(SortBy(s, key, le), key, k) == WithKey(s, key, k)
    decreases |s|
  {
    if s != [] {
      var n := |s| - 1;
      SortIsStable(s[..n], key, le, k);
      SortBySorts(s[..n], key, le);
      InsertIsStable(SortBy(s[..n], key, le), s[n], key, le, k);
    }
  }

  /** Elements with one key are one element. */
  ghost predicate KeysTellApart<T(!new), K(!new)>(s: seq<T>, key: T -> K) {
    forall a, b | a in s && b in s && key(a) == key(b) :: a == b
  }

  /** Two sorted lists of the same elements are the same list, if keys tell the elements apart. */
  lemma {:induction false} SortedIsUnique<T(!new), K(!new)>(a: seq<T>, b: seq<T>, key: T -> K, le: (K, K) -> bool)
    requires TotalOrder(le) && Sorted(a, key, le) && Sorted(b, key, le)
    requires multiset(a) == multiset(b) && KeysTellApart(a, key)
    ensures a == b
  {
    SameLength(a, b);
    if a != [] {
      var n := |a| - 1;
      assert a == a[..n] + [a[n]] && b == b[..n] + [b[n]];
      hide Sorted, AllUpTo, TotalOrder;
      LastsAgree(a[..n], a[n], b[..n], b[n], key, le);
      SortedIsUnique(a[..n], b[..n], key, le);
    }
  }

  lemma SameLength<T>(a: seq<T>, b: seq<T>)
    requires multiset(a) == multiset(b)
    ensures |a| == |b|
  {
    assert |multiset(a)| == |a| && |multiset(b)| == |b|;
  }

  lemma LastsAgree<T(!new), K(!new)>(a: seq<T>, x: T, b: seq<T>, y: T, key: T -> K, le: (K, K) -> bool)
    requires TotalOrder(le) && Sorted(a + [x], key, le) && Sorted(b + [y], key, le)
    requires multiset(a + [x]) == multiset(b + [y]) && KeysTellApart(a + [x], key)
    ensures x == y && Sorted(a, key, le) && Sorted(b, key, le)
    ensures multiset(a) == multiset(b) && KeysTellApart(a, key)
  {
    hide Sorted, AllUpTo, TotalOrder;
    SortedAppend(a, x, key, le);
    SortedAppend(b, y, key, le);
    SameLast(a, x, b, y, key, le);
    WithoutLast(a, x);
    WithoutLast(b, y);
    assert forall e | e in a :: e in a + [x];
  }

  lemma WithoutLast<T>(s: seq<T>, x: T)
    ensures multiset(s) == multiset(s + [x]) - multiset{x}
  {
  }

  /** Both ends are largest, so their keys are equal. */
  lemma SameLast<T(!new), K(!new)>(a: seq<T>, x: T, b: seq<T>, y: T, key: T -> K, le: (K, K) -> bool)
    requires TotalOrder(le) && AllUpTo(a, x, key, le) && AllUpTo(b, y, key, le)
    requires multiset(a + [x]) == multiset(b + [y]) && KeysTellApart(a + [x], key)
    ensures x == y
  {
    assert x in multiset(a + [x]) && y in multiset(b + [y]);
    assert x in b + [y] && y in a + [x];
    assert le(key(x), key(x)) && le(key(y), key(y));
    assert le(key(x), key(y)) && le(key(y), key(x));
  }

  /** Sorting forgets the order of the input, if keys tell the elements apart. */
  lemma SortIsNormalForm<T(!new), K(!new)>(a: seq<T>, b: seq<T>, key: T -> K, le: (K, K) -> bool)
    requires TotalOrder(le) && KeysTellApart(a, key)
    ensures SortBy(a, key, le) == SortBy(b, key, le) <==> multiset(a) == multiset(b)
  {
    SortBySorts(a, key, le);
    SortBySorts(b, key, le);
    if multiset(a) == multiset(b) {
      var sa := SortBy(a, key, le);
      forall x | x in sa
        ensures x in a
      {
        assert x in multiset(sa);
      }
      SortedIsUnique(sa, SortBy(b, key, le), key, le);
    }
  }

  /** Every arrangement of the elements sorts to the same list. */
  ghost predicate OrderIndependent<T(!new), K(!new)>(s: seq<T>, key: T -> K, le: (K, K) -> bool) {
    forall p: seq<T> | multiset(p) == multiset(s) :: SortBy(p, key, le) == SortBy(s, key, le)
  }

  /** The order of the input is forgotten exactly when no two different elements share a key. */
  lemma OrderIndependentIff<T(!new), K(!new)>(s: seq<T>, key: T -> K, le: (K, K) -> bool)
    requires TotalOrder(le)
    ensures OrderIndependent(s, key, le) <==> KeysTellApart(s, key)
  {
    if KeysTellApart(s, key) {
      forall p: seq<T> | multiset(p) == multiset(s)
        ensures SortBy(p, key, le) == SortBy(s, key, le)
      {
        SortIsNormalForm(s, p, key, le);
      }
    } else {
      var a, b :| a in s && b in s && key(a) == key(b) && a != b;
      TwoOrders(s, a, b, key, le);
    }
  }

  lemma WithKeyAppend<T, K>(s: seq<T>, x: T, key: T -> K, k: K)
    ensures WithKey(s + [x], key, k) == WithKey(s, key, k) + (if key(x) == k then [x] else [])
  {
    assert (s + [x])[..|s|] == s;
  }

  lemma PutBack<T>(m: multiset<T>, rest: seq<T>, a: T, b: T)
    requires a in m && b in m && a != b && multiset(rest) == m - multiset{a, b}
    ensures multiset(rest + [a] + [b]) == m
  {
  }

  lemma TailsDiffer<T>(kept: seq<T>, a: T, b: T)
    requires a != b
    ensures kept + [a] + [b] != kept + [b] + [a]
  {
    assert (kept + [a] + [b])[|kept|] == a && (kept + [b] + [a])[|kept|] == b;
  }

  /** A stable sort shows which of two elements with one key came first. */
  lemma OrderShows<T(!new), K(!new)>(rest: seq<T>, a: T, b: T, key: T -> K, le: (K, K) -> bool)
    requires TotalOrder(le) && key(a) == key(b) && a != b
    ensures SortBy(rest + [a] + [b], key, le) != SortBy(rest + [b] + [a], key, le)
  {
    hide TotalOrder, SortBy, WithKey;
    var k := key(a);
    WithKeyAppend(rest, a, key, k);
    WithKeyAppend(rest + [a], b, key, k);
    WithKeyAppend(rest, b, key, k);
    WithKeyAppend(rest + [b], a, key, k);
    TailsDiffer(WithKey(rest, key, k), a, b);
    SortIsStable(rest + [a] + [b], key, le, k);
    SortIsStable(rest + [b] + [a], key, le, k);
  }

  lemma TwoOrders<T(!new), K(!new)>(s: seq<T>, a: T, b: T, key: T -> K, le: (K, K) -> bool)
    requires TotalOrder(le) && a in s && b in s && key(a) == key(b) && a != b
    ensures !OrderIndependent(s, key, le)
  {
    hide TotalOrder, SortBy, Elements;
    assert a in multiset(s) && b in multiset(s);
    var rest := Elements(multiset(s) - multiset{a, b});
    PutBack(multiset(s), rest, a, b);
    PutBack(multiset(s), rest, b, a);
    OrderShows(rest, a, b, key, le);
  }

  /** Some list of the elements of a multiset. */
  ghost function Elements<T>(m: multiset<T>): (s: seq<T>)
    ensures multiset(s) == m
    decreases |m|
  {
    if |m| == 0 then []
    else
      var x :| x in m;
      assert m == m - multiset{x} + multiset{x};
      Elements(m - multiset{x}) + [x]
  }
}
