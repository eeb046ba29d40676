/** The row lists of the outline view: Shellsort in place, and insertion by bisection. */
module OutlineSort {
  type Comparator<!T> = (T, T) -> int

  /** What sorting needs of a comparator, on the rows at hand. */
  ghost predicate TotalPreorder<T(!new)>(compare: Comparator<T>) {
    && (forall a, b :: Flips(compare, a, b))
    && (forall a, b, c :: Chains(compare, a, b, c))
  }

  predicate Flips<T>(compare: Comparator<T>, a: T, b: T) {
    (compare(a, b) < 0 <==> compare(b, a) > 0) && (compare(a, b) > 0 <==> compare(b, a) < 0)
  }

  predicate Chains<T>(compare: Comparator<T>, a: T, b: T, c: T) {
    compare(a, b) <= 0 && compare(b, c) <= 0 ==> compare(a, c) <= 0
  }

  ghost predicate Ordered<T>(s: seq<T>, compare: Comparator<T>) {
    forall i, j :: 0 <= i < j < |s| ==> compare(s[i], s[j]) <= 0
  }

  // ---- Shellsort ----------------------------------------------------------

  /** Filling the hole at `at` instead of at `to`, after the item at `at` has moved to `to`, makes no difference to what there is. */
  lemma HoleMoves<T>(s: seq<T>, at: nat, to: nat, x: T)
    requires at < |s| && to < |s| && at != to
    ensures multiset(s[to := s[at]][at := x]) == multiset(s[to := x])
  {
    var a, b := s[to := s[at]][at := x], s[to := x];
    assert multiset(a) == multiset(s[to := s[at]]) - multiset{s[at]} + multiset{x};
  }

  /** Within the first `step + 1` items, all but the hole at `hole` are in order, and those after it come after `x`. */
  ghost predicate OrderedAround<T>(s: seq<T>, hole: nat, step: nat, x: T, compare: Comparator<T>) {
    && hole <= step < |s|
    && (forall i, j :: 0 <= i < j <= step && i != hole && j != hole ==> compare(s[i], s[j]) <= 0)
    && (forall j :: hole < j <= step ==> compare(x, s[j]) < 0)
  }

  /** The state of the inner loop with the hole at `hole`: what there is, what is untouched, and the order if the stride is 1. */
  ghost predicate Sinking<T>(was: seq<T>, s: seq<T>, hole: nat, step: nat, x: T, ordered: bool, compare: Comparator<T>) {
    && hole <= step < |s| == |was|
    && multiset(s[hole := x]) == multiset(was)
    && s[step + 1..] == was[step + 1..]
    && (ordered ==> OrderedAround(s, hole, step, x, compare))
  }

  lemma SinkStarts<T>(was: seq<T>, step: nat, ordered: bool, compare: Comparator<T>)
    requires step < |was| && (ordered ==> Ordered(was[..step], compare))
    ensures Sinking(was, was, step, step, was[step], ordered, compare)
  {
    assert was[step := was[step]] == was;
    if ordered {
      forall i, j | 0 <= i < j <= step && i != step && j != step
        ensures compare(was[i], was[j]) <= 0
      {
        var front := was[..step];
        assert compare(front[i], front[j]) <= 0;
      }
    }
  }

  lemma HoleStep<T(!new)>(s: seq<T>, hole: nat, step: nat, x: T, compare: Comparator<T>)
    requires TotalPreorder(compare) && 0 < hole && OrderedAround(s, hole, step, x, compare) && compare(x, s[hole - 1]) < 0
    ensures OrderedAround(s[hole := s[hole - 1]], hole - 1, step, x, compare)
  {
  }

  lemma SinkStep<T(!new)>(was: seq<T>, s: seq<T>, hole: nat, h: nat, step: nat, x: T, ordered: bool, compare: Comparator<T>)
    requires TotalPreorder(compare) && Sinking(was, s, hole, step, x, ordered, compare)
    requires 0 < h <= hole && (ordered ==> h == 1) && compare(x, s[hole - h]) < 0
    ensures Sinking(was, s[hole := s[hole - h]], hole - h, step, x, ordered, compare)
  {
    HoleMoves(s, hole - h, hole, x);
    if ordered {
      HoleStep(s, hole, step, x, compare);
    }
    assert s[hole := s[hole - h]][step + 1..] == s[step + 1..];
  }

  lemma SinkEnds<T(!new)>(was: seq<T>, s: seq<T>, hole: nat, step: nat, x: T, ordered: bool, compare: Comparator<T>)
    requires TotalPreorder(compare) && Sinking(was, s, hole, step, x, ordered, compare)
    requires ordered ==> hole == 0 || compare(x, s[hole - 1]) >= 0
    ensures ordered ==> Ordered(s[hole := x][..step + 1], compare)
    ensures s[hole := x][step + 1..] == was[step + 1..]
  {
    assert s[hole := x][step + 1..] == s[step + 1..];
    if ordered {
      HoleFilled(s, hole, step, x, compare);
    }
  }

  lemma HoleFilled<T(!new)>(s: seq<T>, hole: nat, step: nat, x: T, compare: Comparator<T>)
    requires TotalPreorder(compare) && OrderedAround(s, hole, step, x, compare)
    requires hole == 0 || compare(x, s[hole - 1]) >= 0
    ensures Ordered(s[hole := x][..step + 1], compare)
  {
    var r := s[hole := x][..step + 1];
    forall i, j | 0 <= i < j <= step
      ensures compare(r[i], r[j]) <= 0
    {
      if j == hole {
        assert Flips(compare, x, s[hole - 1]);
        if i < hole - 1 {
          assert compare(s[i], s[hole - 1]) <= 0;
          assert Chains(compare, s[i], s[hole - 1], x);
        }
      } else if i != hole {
        assert compare(s[i], s[j]) <= 0;
      }
    }
  }

  method Set<T>(items: array<T>, at: nat, x: T)
    requires at < items.Length
    modifies items
    ensures items[..] == old(items[..])[at := x]
  {
    items[at] := x;
  }

  method MoveOne<T(!new)>(items: array<T>, ghost was: seq<T>, hole: nat, h: nat, step: nat, ghost x: T, ghost ordered: bool,
                          compare: Comparator<T>) returns (next: nat)
    requires TotalPreorder(compare) && Sinking(was, items[..], hole, step, x, ordered, compare)
    requires 0 < h <= hole && (ordered ==> h == 1) && compare(x, items[hole - h]) < 0
    modifies items
    ensures next == hole - h && Sinking(was, items[..], next, step, x, ordered, compare)
  {
    SinkStep(was, items[..], hole, h, step, x, ordered, compare);
    Set(items, hole, items[hole - h]);
    next := hole - h;
  }

  /** Move the items the one at `step` has to pass up by a stride each; the hole ends up where it belongs. */
  method MoveUp<T(!new)>(items: array<T>, step: nat, h: nat, compare: Comparator<T>, ghost ordered: bool) returns (hole: nat)
    requires TotalPreorder(compare) && 0 < h <= step < items.Length && (ordered ==> h == 1)
    requires ordered ==> Ordered(items[..step], compare)
    modifies items
    ensures Sinking(old(items[..]), items[..], hole, step, old(items[step]), ordered, compare)
    ensures hole < h || compare(old(items[step]), items[hole - h]) >= 0
  {
    var temp := items[step];
    hole := step;
    ghost var was := items[..];
    SinkStarts(was, step, ordered, compare);
    while hole >= h && compare(temp, items[hole - h]) < 0
      invariant Sinking(was, items[..], hole, step, temp, ordered, compare)
      decreases hole
    {
      hole := MoveOne(items, was, hole, h, step, temp, ordered, compare);
    }
  }

  /** Move the item at `step` down by strides of `h` to where it belongs among those it passes. */
  method Sink<T(!new)>(items: array<T>, step: nat, h: nat, compare: Comparator<T>)
    requires TotalPreorder(compare) && 0 < h <= step < items.Length
    modifies items
    ensures multiset(items[..]) == multiset(old(items[..]))
    ensures items[step + 1..] == old(items[step + 1..])
    ensures h == 1 && Ordered(old(items[..step]), compare) ==> Ordered(items[..step + 1], compare)
  {
    var temp := items[step];
    ghost var was, ordered := items[..], h == 1 && Ordered(items[..step], compare);
    var hole := MoveUp(items, step, h, compare, ordered);
    SinkEnds(was, items[..], hole, step, temp, ordered, compare);
    Set(items, hole, temp);
  }

  method Pass<T(!new)>(items: array<T>, h: nat, compare: Comparator<T>)
    requires TotalPreorder(compare) && h > 0
    modifies items
    ensures multiset(items[..]) == multiset(old(items[..]))
    ensures h == 1 ==> Ordered(items[..], compare)
  {
    var step := h;
    while step < items.Length
      invariant h <= step && (step <= items.Length || step == h)
      invariant multiset(items[..]) == multiset(old(items[..]))
      invariant h == 1 && step <= items.Length ==> Ordered(items[..step], compare)
    {
      Sink(items, step, h, compare);
      step := step + 1;
    }
    assert h == 1 && items.Length > 0 ==> step == items.Length;
    assert items[..items.Length] == items[..];
  }

  /** The strides 1, 4, 13, ...: dividing one by three gives the one before, so the last pass has stride 1. */
  predicate Stride(h: nat)
    decreases h
  {
    h == 1 || (h > 1 && h % 3 == 1 && Stride(h / 3))
  }

  method ShellSort<T(!new)>(items: array<T>, compare: Comparator<T>)
    requires TotalPreorder(compare)
    modifies items
    ensures Ordered(items[..], compare) && multiset(items[..]) == multiset(old(items[..]))
  {
    var h: nat := 1;
    while h < items.Length / 9
      invariant Stride(h)
    {
      h := 3 * h + 1;
    }
    while h > 0
      invariant h > 0 ==> Stride(h)
      invariant multiset(items[..]) == multiset(old(items[..]))
      invariant h == 0 ==> Ordered(items[..], compare)
      decreases h
    {
      Pass(items, h, compare);
      h := h / 3;
    }
  }

  // ---- sorted insertion ---------------------------------------------------

  function Inserted<T>(s: seq<T>, x: T, at: nat): seq<T>
    requires at <= |s|
  {
    s[..at] + [x] + s[at..]
  }

  /** All items before `at` are at most `x`, and those from it on at least. */
  ghost predicate Place<T>(s: seq<T>, x: T, at: nat, compare: Comparator<T>) {
    && at <= |s|
    && (forall i :: 0 <= i < at ==> compare(s[i], x) <= 0)
    && (forall i :: at <= i < |s| ==> compare(x, s[i]) <= 0)
  }

  lemma InsertedOrdered<T>(s: seq<T>, x: T, at: nat, compare: Comparator<T>)
    requires Ordered(s, compare) && Place(s, x, at, compare)
    ensures Ordered(Inserted(s, x, at), compare)
  {
    var r := Inserted(s, x, at);
    forall i, j | 0 <= i < j < |r|
      ensures compare(r[i], r[j]) <= 0
    {
      assert r[i] == if i < at then s[i] else if i == at then x else s[i - 1];
      assert r[j] == if j < at then s[j] else if j == at then x else s[j - 1];
    }
  }

  /** The place is in or next to what is left of the list between `lower` and `upper`. */
  ghost predicate Bracket<T>(s: seq<T>, x: T, lower: int, upper: int, compare: Comparator<T>) {
    && 0 <= lower <= upper + 1 <= |s|
    && (forall i :: 0 <= i < lower ==> compare(s[i], x) <= 0)
    && (forall i :: upper < i < |s| ==> compare(x, s[i]) <= 0)
  }

  lemma Narrowed<T(!new)>(s: seq<T>, x: T, lower: int, upper: int, middle: int, compare: Comparator<T>)
    requires TotalPreorder(compare) && Ordered(s, compare) && Bracket(s, x, lower, upper, compare)
    requires lower <= middle <= upper
    ensures compare(x, s[middle]) < 0 ==> Bracket(s, x, lower, middle - 1, compare)
    ensures compare(x, s[middle]) > 0 ==> Bracket(s, x, middle + 1, upper, compare)
    ensures compare(x, s[middle]) == 0 ==> Bracket(s, x, middle, middle, compare)
  {
    assert Flips(compare, x, s[middle]);
    forall i | 0 <= i <= middle && compare(x, s[middle]) >= 0
      ensures compare(s[i], x) <= 0
    {
      assert Chains(compare, s[i], s[middle], x);
    }
    forall i | middle <= i < |s| && compare(x, s[middle]) <= 0
      ensures compare(x, s[i]) <= 0
    {
      assert Chains(compare, x, s[middle], s[i]);
    }
  }

  /** With at most one item left, comparing with the one at `upper` settles the place. */
  lemma Settled<T(!new)>(s: seq<T>, x: T, lower: int, upper: int, compare: Comparator<T>)
    requires TotalPreorder(compare) && Ordered(s, compare) && Bracket(s, x, lower, upper, compare)
    requires lower >= upper >= 0
    ensures upper < |s| && Place(s, x, if compare(x, s[upper]) > 0 then upper + 1 else upper, compare)
  {
    Narrowed(s, x, 0, |s| - 1, upper, compare);
  }

  method Bisect<T(!new)>(list: seq<T>, row: T, compare: Comparator<T>) returns (upper: int)
    requires TotalPreorder(compare) && Ordered(list, compare)
    ensures if list == [] then upper == -1
            else 0 <= upper < |list|
                 && Place(list, row, if compare(row, list[upper]) > 0 then upper + 1 else upper, compare)
  {
    var lower: int := 0;
    upper := |list| - 1;
    while lower < upper
      invariant Bracket(list, row, lower, upper, compare) && (if list == [] then upper == -1 else upper >= 0)
      decreases upper - lower
    {
      var middle := lower + (upper - lower + 1) / 2;
      var cmp := compare(row, list[middle]);
      Narrowed(list, row, lower, upper, middle, compare);
      if cmp < 0 {
        upper := middle - 1;
      } else if cmp > 0 {
        lower := middle + 1;
      } else {
        lower, upper := middle, middle;
      }
    }
    if list != [] {
      Settled(list, row, lower, upper, compare);
    }
  }

  /** AddSorted(): the bisection ends near the place; one more comparison settles it. */
  method AddSorted<T(!new)>(list: seq<T>, row: T, compare: Comparator<T>) returns (r: seq<T>)
    requires TotalPreorder(compare) && Ordered(list, compare)
    ensures Ordered(r, compare) && multiset(r) == multiset(list) + multiset{row}
  {
    var upper := Bisect(list, row, compare);
    if upper < 0 {
      upper := 0;
    } else if upper < |list| {
      if compare(row, list[upper]) > 0 {
        upper := upper + 1;
      }
    }
    InsertedOrdered(list, row, upper, compare);
    InsertedCount(list, row, upper);
    r := Inserted(list, row, upper);
  }

  lemma InsertedCount<T>(s: seq<T>, x: T, at: nat)
    requires at <= |s|
    ensures multiset(Inserted(s, x, at)) == multiset(s) + multiset{x}
  {
    assert s == s[..at] + s[at..];
  }
}
