/**
 * What the C library's qsort() promises: a permutation of its input in
 * non-descending order of the comparator. Ties may come out in any order;
 * no proof outside this module depends on how they are broken here.
 */
module Sorting {
  import opened PtrArray

  ghost predicate SortedBy<T>(s: seq<T>, compare: Comparator<T>) {
    s == [] || (Least(s[0], s[1..], compare) && SortedBy(s[1..], compare))
  }

  ghost predicate Least<T>(x: T, s: seq<T>, compare: Comparator<T>) {
    forall y :: y in s ==> compare(x, y) <= 0
  }

  lemma {:induction false} SortedAt<T>(s: seq<T>, compare: Comparator<T>, i: nat, j: nat)
    requires SortedBy(s, compare) && i < j < |s|
    ensures compare(s[i], s[j]) <= 0
  {
    if i == 0 {
      assert s[j] == s[1..][j - 1];
    } else {
      SortedAt(s[1..], compare, i - 1, j - 1);
    }
  }

  ghost predicate Within<T(!new)>(s: seq<T>, all: set<T>) {
    forall y :: y in s ==> y in all
  }

  ghost predicate Total<T(!new)>(compare: Comparator<T>, all: set<T>) {
    forall x, y :: x in all && y in all ==> compare(x, y) <= 0 || compare(y, x) <= 0
  }

  ghost predicate Transitive<T(!new)>(compare: Comparator<T>, all: set<T>) {
    forall x, y, z :: x in all && y in all && z in all && compare(x, y) <= 0 && compare(y, z) <= 0 ==> compare(x, z) <= 0
  }

  function Place<T>(x: T, s: seq<T>, compare: Comparator<T>): (r: seq<T>)
    ensures multiset(r) == multiset(s) + multiset{x}
  {
    if s == [] || compare(x, s[0]) <= 0 then
      [x] + s
    else
      assert s == [s[0]] + s[1..];
      [s[0]] + Place(x, s[1..], compare)
  }

  function QSort<T>(s: seq<T>, compare: Comparator<T>): (r: seq<T>)
    ensures multiset(r) == multiset(s)
  {
    if s == [] then []
    else
      assert s == [s[0]] + s[1..];
      Place(s[0], QSort(s[1..], compare), compare)
  }

  lemma {:induction false} SameMembers<T>(a: seq<T>, b: seq<T>)
    requires multiset(a) == multiset(b)
    ensures |a| == |b|
    ensures forall x :: x in a <==> x in b
  {
    assert |multiset(a)| == |multiset(b)|;
    forall x | x in a || x in b
      ensures x in a && x in b
    {
      assert x in multiset(a) && x in multiset(b);
    }
  }

  lemma {:induction false} PlaceMembers<T>(x: T, s: seq<T>, compare: Comparator<T>)
    ensures forall y :: y in Place(x, s, compare) <==> y == x || y in s
    ensures |Place(x, s, compare)| == |s| + 1
  {
    if s != [] && compare(x, s[0]) > 0 {
      PlaceMembers(x, s[1..], compare);
    }
  }

  lemma LeastOfPlaced<T>(h: T, x: T, s: seq<T>, compare: Comparator<T>)
    requires Least(h, s, compare) && compare(h, x) <= 0
    ensures Least(h, Place(x, s, compare), compare)
  {
    PlaceMembers(x, s, compare);
  }

  lemma LeastInFront<T(!new)>(x: T, s: seq<T>, compare: Comparator<T>, all: set<T>)
    requires Transitive(compare, all) && x in all && Within(s, all)
    requires s != [] && compare(x, s[0]) <= 0 && Least(s[0], s[1..], compare)
    ensures Least(x, s, compare)
  {
    forall y | y in s
      ensures compare(x, y) <= 0
    {
      if y != s[0] {
        assert y in s[1..] && s[0] in s;
      }
    }
  }

  lemma {:induction false} PlaceSorted<T(!new)>(x: T, s: seq<T>, compare: Comparator<T>, all: set<T>)
    requires Total(compare, all) && Transitive(compare, all) && x in all && Within(s, all)
    requires SortedBy(s, compare)
    ensures SortedBy(Place(x, s, compare), compare)
  {
    if s == [] {
    } else if compare(x, s[0]) <= 0 {
      assert ([x] + s)[1..] == s;
      LeastInFront(x, s, compare, all);
    } else {
      PlaceSorted(x, s[1..], compare, all);
      assert Place(x, s, compare)[1..] == Place(x, s[1..], compare);
      assert s[0] in s;
      LeastOfPlaced(s[0], x, s[1..], compare);
    }
  }

  lemma {:induction false} QSortSorted<T(!new)>(s: seq<T>, compare: Comparator<T>, all: set<T>)
    requires Total(compare, all) && Transitive(compare, all) && Within(s, all)
    ensures SortedBy(QSort(s, compare), compare)
  {
    if s != [] {
      QSortSorted(s[1..], compare, all);
      SameMembers(QSort(s[1..], compare), s[1..]);
      assert s[0] in s && Within(s[1..], all);
      PlaceSorted(s[0], QSort(s[1..], compare), compare, all);
    }
  }

  /** The place in a permutation of `a` where `a`'s first element went. */
  lemma RemoveFirst<T>(a: seq<T>, b: seq<T>) returns (k: nat)
    requires a != [] && multiset(a) == multiset(b)
    ensures k < |b| && b[k] == a[0]
    ensures multiset(a[1..]) == multiset(b[..k] + b[k + 1..])
  {
    SameMembers(a, b);
    assert a[0] in b;
    k :| 0 <= k < |b| && b[k] == a[0];
    assert a == [a[0]] + a[1..];
    assert b == b[..k] + [b[k]] + b[k + 1..];
    assert multiset(a[1..]) == multiset(a) - multiset{a[0]};
  }

  /** No element of `s` occurs twice. */
  ghost predicate Distinct<T>(s: seq<T>) {
    forall i, j :: 0 <= i < j < |s| ==> s[i] != s[j]
  }

  lemma {:induction false} DistinctCount<T>(s: seq<T>, x: T)
    requires Distinct(s)
    ensures multiset(s)[x] <= 1
    ensures multiset(s)[x] == 1 <==> x in s
  {
    if s != [] {
      assert s == [s[0]] + s[1..];
      DistinctCount(s[1..], x);
      if x == s[0] {
        assert x !in s[1..];
      }
    }
  }

  lemma TwiceCount<T>(s: seq<T>, i: nat, j: nat)
    requires i < j < |s|
    ensures s[i] == s[j] ==> multiset(s)[s[i]] >= 2
  {
    assert s == s[..i + 1] + s[i + 1..];
    assert s[i] in s[..i + 1] && s[j] in s[i + 1..];
  }

  /** A permutation of a duplicate-free sequence is duplicate-free. */
  lemma DistinctPermutes<T>(a: seq<T>, b: seq<T>)
    requires multiset(a) == multiset(b) && Distinct(a)
    ensures Distinct(b)
  {
    forall i, j | 0 <= i < j < |b|
      ensures b[i] != b[j]
    {
      DistinctCount(a, b[i]);
      TwiceCount(b, i, j);
    }
  }

  lemma {:induction false} SortedByPairs<T>(s: seq<T>, compare: Comparator<T>)
    requires forall i, j :: 0 <= i < j < |s| ==> compare(s[i], s[j]) <= 0
    ensures SortedBy(s, compare)
  {
    if s != [] {
      SortedByPairs(s[1..], compare);
    }
  }

  lemma TailCount<T>(s: seq<T>)
    requires s != []
    ensures multiset(s[1..]) == multiset(s) - multiset{s[0]}
    ensures forall x :: x in s[1..] ==> x in s
  {
    assert s == [s[0]] + s[1..];
  }

  lemma SortedHead<T>(s: seq<T>, compare: Comparator<T>, x: T)
    requires s != [] && SortedBy(s, compare) && x in s
    ensures x == s[0] || compare(s[0], x) <= 0
  {
    assert s == [s[0]] + s[1..];
  }

  /** Two arrangements of the same elements that are both in strict order are the same. */
  lemma {:induction false} SortedUnique<T(!new)>(a: seq<T>, b: seq<T>, compare: Comparator<T>)
    requires multiset(a) == multiset(b) && SortedBy(a, compare) && SortedBy(b, compare)
    requires forall x, y :: x in a && y in a && compare(x, y) <= 0 && compare(y, x) <= 0 ==> x == y
    ensures a == b
  {
    SameMembers(a, b);
    if a != [] {
      assert a[0] in b && b[0] in a;
      SortedHead(a, compare, b[0]);
      SortedHead(b, compare, a[0]);
      assert a[0] == b[0];
      TailCount(a);
      TailCount(b);
      SortedUnique(a[1..], b[1..], compare);
      assert a == [a[0]] + a[1..] && b == [b[0]] + b[1..];
    }
  }
}
