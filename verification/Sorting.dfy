/**
 Sorting a copy by a comparison, as Array.prototype.sort does: the result is a
 permutation, is sorted when the comparison is a total preorder, and depends only
 on the multiset of elements when the comparison is a total order.
 */
module Sorting {
  ghost predicate TotalPreorder<T(!new)>(leq: (T, T) -> bool) {
    && (forall a, b :: leq(a, b) || leq(b, a))
    && (forall a, b, c :: leq(a, b) && leq(b, c) ==> leq(a, c))
  }

  ghost predicate TotalOrder<T(!new)>(leq: (T, T) -> bool) {
    && TotalPreorder(leq)
    && (forall a, b :: leq(a, b) && leq(b, a) ==> a == b)
  }

  ghost predicate Sorted<T>(leq: (T, T) -> bool, s: seq<T>) {
    forall i, j :: 0 <= i < j < |s| ==> leq(s[i], s[j])
  }

  /** Inserts x before the first element it may precede, so equal elements keep their order. */
  function Insert<T(!new)>(leq: (T, T) -> bool, x: T, s: seq<T>): (r: seq<T>)
    ensures multiset(r) == multiset{x} + multiset(s)
    ensures |r| == |s| + 1
  {
    if s == [] then [x]
    else if leq(x, s[0]) then
      [x] + s
    else
      assert s == [s[0]] + s[1..];
      [s[0]] + Insert(leq, x, s[1..])
  }

  function SortBy<T(!new)>(leq: (T, T) -> bool, s: seq<T>): (r: seq<T>)
    ensures multiset(r) == multiset(s)
    ensures |r| == |s|
  {
    if s == [] then []
    else
      assert s == [s[0]] + s[1..];
      Insert(leq, s[0], SortBy(leq, s[1..]))
  }

  lemma InMultiset<T>(s: seq<T>, x: T)
    ensures x in s <==> x in multiset(s)
  {
  }

  lemma {:induction false} InsertSorted<T(!new)>(leq: (T, T) -> bool, x: T, s: seq<T>)
    requires TotalPreorder(leq) && Sorted(leq, s)
    ensures Sorted(leq, Insert(leq, x, s))
  {
    if s != [] && !leq(x, s[0]) {
      InsertSorted(leq, x, s[1..]);
      var r := Insert(leq, x, s[1..]);
      forall i | 0 <= i < |r| ensures leq(s[0], r[i]) {
        assert r[i] in multiset(r);
        assert r[i] == x || r[i] in s[1..];
      }
    }
  }

  lemma {:induction false} SortBySorted<T(!new)>(leq: (T, T) -> bool, s: seq<T>)
    requires TotalPreorder(leq)
    ensures Sorted(leq, SortBy(leq, s))
  {
    if s != [] {
      SortBySorted(leq, s[1..]);
      InsertSorted(leq, s[0], SortBy(leq, s[1..]));
    }
  }

  /** No two different elements compare both ways. */
  ghost predicate TellsApart<T(!new)>(leq: (T, T) -> bool, a: seq<T>) {
    forall x, y :: x in a && y in a && leq(x, y) && leq(y, x) ==> x == y
  }

  lemma SortedHead<T(!new)>(leq: (T, T) -> bool, a: seq<T>, b: seq<T>)
    requires TellsApart(leq, a)
    requires Sorted(leq, a) && Sorted(leq, b)
    requires multiset(a) == multiset(b) && a != []
    ensures b != [] && a[0] == b[0]
  {
    assert a[0] in multiset(b);
    var i :| 0 <= i < |b| && b[i] == a[0];
    assert b[0] in multiset(a);
    var j :| 0 <= j < |a| && a[j] == b[0];
    assert i == 0 || leq(b[0], b[i]);
    assert j == 0 || leq(a[0], a[j]);
  }

  lemma SortedTail<T(!new)>(leq: (T, T) -> bool, a: seq<T>)
    requires Sorted(leq, a) && a != []
    ensures Sorted(leq, a[1..])
    ensures TellsApart(leq, a) ==> TellsApart(leq, a[1..])
  {
  }

  lemma MultisetTail<T>(a: seq<T>)
    requires a != []
    ensures multiset(a[1..]) == multiset(a) - multiset{a[0]}
  {
    assert a == [a[0]] + a[1..];
  }

  lemma SameTails<T>(a: seq<T>, b: seq<T>)
    requires a != [] && b != [] && a[0] == b[0] && multiset(a) == multiset(b)
    ensures multiset(a[1..]) == multiset(b[1..])
    ensures a[1..] == b[1..] ==> a == b
  {
    MultisetTail(a);
    MultisetTail(b);
    assert a == [a[0]] + a[1..] && b == [b[0]] + b[1..];
  }

  /** A comparison that tells all elements apart leaves one sorted arrangement of each multiset. */
  lemma {:induction false} SortedUnique<T(!new)>(leq: (T, T) -> bool, a: seq<T>, b: seq<T>)
    requires TellsApart(leq, a)
    requires Sorted(leq, a) && Sorted(leq, b)
    requires multiset(a) == multiset(b)
    ensures a == b
  {
    if a == [] {
      assert |multiset(b)| == |b|;
    } else {
      SortedHead(leq, a, b);
      SortedTail(leq, a);
      SortedTail(leq, b);
      SameTails(a, b);
      SortedUnique(leq, a[1..], b[1..]);
    }
  }

  /** Sorting two arrangements of one multiset gives one result. */
  lemma SortCanonical<T(!new)>(leq: (T, T) -> bool, a: seq<T>, b: seq<T>)
    requires TotalOrder(leq)
    ensures SortBy(leq, a) == SortBy(leq, b) <==> multiset(a) == multiset(b)
  {
    if multiset(a) == multiset(b) {
      SortBySorted(leq, a);
      SortBySorted(leq, b);
      SortedUnique(leq, SortBy(leq, a), SortBy(leq, b));
    }
  }

  // -------------------------------------------------- multisets of a sequence

  ghost predicate Distinct<T>(s: seq<T>) {
    forall i, j :: 0 <= i < j < |s| ==> s[i] != s[j]
  }

  lemma TwiceInMultiset<T>(s: seq<T>, i: int, j: int)
    requires 0 <= i < j < |s| && s[i] == s[j]
    ensures multiset(s)[s[i]] >= 2
  {
    assert s == s[..j] + s[j..];
    assert s[i] in s[..j];
    assert s[j..][0] == s[i];
  }

  lemma {:induction false} OnceInMultiset<T>(s: seq<T>, x: T)
    requires Distinct(s)
    ensures multiset(s)[x] <= 1
  {
    if s != [] {
      assert s == [s[0]] + s[1..];
      OnceInMultiset(s[1..], x);
      if s[0] == x {
        assert x !in s[1..];
      }
    }
  }

  /** Two listings without repetition of the same elements are permutations of each other. */
  lemma SameElementsSameMultiset<T(!new)>(a: seq<T>, b: seq<T>)
    requires Distinct(a) && Distinct(b)
    requires forall x :: x in a <==> x in b
    ensures multiset(a) == multiset(b)
  {
    forall x ensures multiset(a)[x] == multiset(b)[x] {
      OnceInMultiset(a, x);
      OnceInMultiset(b, x);
      InMultiset(a, x);
      InMultiset(b, x);
    }
  }

  // ------------------------------------------------------- sorting and mapping

  function Map<T, U>(f: T -> U, s: seq<T>): (r: seq<U>)
    ensures |r| == |s|
    ensures forall i :: 0 <= i < |s| ==> r[i] == f(s[i])
  {
    if s == [] then [] else [f(s[0])] + Map(f, s[1..])
  }

  ghost predicate Agrees<T(!new), U(!new)>(f: T -> U, leq: (T, T) -> bool, leq': (U, U) -> bool) {
    forall a, b :: leq(a, b) == leq'(f(a), f(b))
  }

  lemma {:induction false} InsertMap<T(!new), U(!new)>(
      f: T -> U, leq: (T, T) -> bool, leq': (U, U) -> bool, x: T, s: seq<T>)
    requires Agrees(f, leq, leq')
    ensures Map(f, Insert(leq, x, s)) == Insert(leq', f(x), Map(f, s))
  {
    if s != [] {
      assert Map(f, s)[1..] == Map(f, s[1..]);
      if !leq(x, s[0]) {
        InsertMap(f, leq, leq', x, s[1..]);
      }
    }
  }

  /** Mapping after sorting is sorting after mapping when both comparisons agree. */
  lemma {:induction false} SortMap<T(!new), U(!new)>(
      f: T -> U, leq: (T, T) -> bool, leq': (U, U) -> bool, s: seq<T>)
    requires Agrees(f, leq, leq')
    ensures Map(f, SortBy(leq, s)) == SortBy(leq', Map(f, s))
  {
    if s != [] {
      SortMap(f, leq, leq', s[1..]);
      InsertMap(f, leq, leq', s[0], SortBy(leq, s[1..]));
      assert Map(f, s)[1..] == Map(f, s[1..]);
    }
  }
}
