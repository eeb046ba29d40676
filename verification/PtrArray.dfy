/** The sorted pointer array: binary search for a lower bound, insertion and erasure. */
module PtrArray {

  /** A comparator's result has the sign convention of qsort and bsearch. */
  type Comparator<!T> = (T, T) -> int

  /**
   * `t` is split by `key`: first the elements below it, then at most one
   * equal to it, then the elements above it.
   */
  ghost predicate Split<T>(t: seq<T>, key: T, compare: Comparator<T>) {
    forall i, j :: 0 <= i < j < |t| && compare(t[i], key) >= 0 ==> compare(t[j], key) > 0
  }

  method LowerBound<T>(t: seq<T>, key: T, compare: Comparator<T>) returns (pos: nat, exact: bool)
    requires Split(t, key, compare)
    ensures pos <= |t|
    ensures forall i :: 0 <= i < pos ==> compare(t[i], key) < 0
    ensures forall i :: pos < i < |t| ==> compare(t[i], key) > 0
    ensures pos < |t| ==> compare(t[pos], key) >= 0
    ensures exact <==> pos < |t| && compare(t[pos], key) == 0
  {
    if |t| == 0 {
      return 0, false;
    }
    var first, last := 0, |t| - 1;
    while true
      invariant 0 <= first <= last < |t|
      invariant forall i :: 0 <= i < first ==> compare(t[i], key) < 0
      invariant forall i :: last < i < |t| ==> compare(t[i], key) > 0
      decreases last - first
    {
      var half := (last - first) / 2;
      var c := compare(t[first + half], key);
      if c < 0 {
        assert forall i :: 0 <= i <= first + half ==> compare(t[i], key) < 0;
        var newFirst := first + half + 1;
        if newFirst > last {
          return newFirst, false;
        }
        first := newFirst;
      } else if c > 0 {
        var newLast := first + half - 1;
        if newLast < first {
          return first, false;
        }
        last := newLast;
      } else {
        return first + half, true;
      }
    }
    assert false;
  }

  function Insert<T>(t: seq<T>, x: T, pos: nat): seq<T>
    requires pos <= |t|
  {
    t[..pos] + [x] + t[pos..]
  }

  function Erase<T>(t: seq<T>, begin: nat, end: nat): seq<T>
    requires begin <= end <= |t|
  {
    t[..begin] + t[end..]
  }

  lemma InsertMembers<T>(t: seq<T>, x: T, pos: nat)
    requires pos <= |t|
    ensures forall y :: y in Insert(t, x, pos) <==> y == x || y in t
  {
    assert Insert(t, x, pos)[pos] == x;
    assert t == t[..pos] + t[pos..];
  }

  lemma EraseMembers<T>(t: seq<T>, begin: nat, end: nat)
    requires begin <= end <= |t|
    ensures forall y :: y in t <==> y in Erase(t, begin, end) || y in t[begin..end]
  {
    assert t == t[..begin] + t[begin..end] + t[end..];
  }
}
