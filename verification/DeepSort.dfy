/**
 * Sorts all the lists of the row tree with one stack: a list is sorted, and
 * then its rows are searched for child lists, going back up when there are
 * no more.
 */
module DeepSort {
  import opened Outline
  import opened Sorting

  /** How SortList() leaves a list: some arrangement of its rows. */
  type Sorter = seq<Row> -> seq<Row>

  ghost predicate Rearranges(sort: Sorter) {
    forall rows: seq<Row> :: multiset(sort(rows)) == multiset(rows)
  }

  /** One call of SortList(): on the root list or on the child list of a row, and how that was left. */
  datatype Owner = Root | ChildrenOf(row: Row)

  datatype ListSorted = ListSorted(owner: Owner, rows: seq<Row>)

  // ---- the order of sorting, by recursion ---------------------------------

  /** A list first, then the child lists of its rows in their new order. */
  ghost function Sorts(owner: Owner, rows: seq<Row>, sort: Sorter): seq<ListSorted>
    requires Rearranges(sort)
    decreases rows, |rows| + 1
  {
    SortMembers(rows, sort);
    [ListSorted(owner, sort(rows))] + ChildSorts(sort(rows), rows, sort)
  }

  /** The child lists of some of the rows of `all`. */
  ghost function ChildSorts(rows: seq<Row>, all: seq<Row>, sort: Sorter): seq<ListSorted>
    requires Rearranges(sort) && (forall r :: r in rows ==> r in all) && |rows| <= |all|
    decreases all, |rows|
  {
    if rows == [] then []
    else
      var r := rows[0];
      assert r in all;
      (if r.hasChildList then Sorts(ChildrenOf(r), r.children, sort) else []) + ChildSorts(rows[1..], all, sort)
  }

  lemma SortMembers(rows: seq<Row>, sort: Sorter)
    requires Rearranges(sort)
    ensures |sort(rows)| == |rows| && forall r :: r in sort(rows) <==> r in rows
  {
    assert |multiset(sort(rows))| == |multiset(rows)|;
    forall r | r in sort(rows) || r in rows
      ensures r in sort(rows) && r in rows
    {
      assert r in multiset(sort(rows)) && r in multiset(rows);
    }
  }

  // ---- each list once -----------------------------------------------------

  /** The lists below a row, its own first. */
  ghost function RowLists(r: Row): multiset<Owner>
    decreases r, 1
  {
    if r.hasChildList then multiset{ChildrenOf(r)} + ListsBelow(r.children) else multiset{}
  }

  ghost function ListsBelow(rows: seq<Row>): multiset<Owner>
    decreases rows
  {
    if rows == [] then multiset{} else RowLists(rows[0]) + ListsBelow(rows[1..])
  }

  ghost function Owners(log: seq<ListSorted>): multiset<Owner> {
    if log == [] then multiset{} else multiset{log[0].owner} + Owners(log[1..])
  }

  lemma {:induction false} OwnersJoin(a: seq<ListSorted>, b: seq<ListSorted>)
    ensures Owners(a + b) == Owners(a) + Owners(b)
  {
    if a == [] {
      assert a + b == b;
    } else {
      assert (a + b)[1..] == a[1..] + b;
      OwnersJoin(a[1..], b);
    }
  }

  lemma {:induction false} ListsJoin(a: seq<Row>, b: seq<Row>)
    ensures ListsBelow(a + b) == ListsBelow(a) + ListsBelow(b)
  {
    if a == [] {
      assert a + b == b;
    } else {
      assert (a + b)[1..] == a[1..] + b;
      ListsJoin(a[1..], b);
    }
  }

  lemma ListsWithout(rows: seq<Row>, k: nat)
    requires k < |rows|
    ensures ListsBelow(rows) == RowLists(rows[k]) + ListsBelow(rows[..k] + rows[k + 1..])
  {
    assert rows == rows[..k] + rows[k..];
    ListsJoin(rows[..k], rows[k..]);
    assert rows[k..][1..] == rows[k + 1..];
    ListsJoin(rows[..k], rows[k + 1..]);
  }

  /** The order of the rows does not matter to which lists there are. */
  lemma {:induction false} ListsPermute(a: seq<Row>, b: seq<Row>)
    requires multiset(a) == multiset(b)
    ensures ListsBelow(a) == ListsBelow(b)
    decreases |a|
  {
    SameMembers(a, b);
    if a != [] {
      var k := RemoveFirst(a, b);
      ListsWithout(b, k);
      ListsPermute(a[1..], b[..k] + b[k + 1..]);
    }
  }

  /** Whatever the arrangement, every list of the tree is sorted exactly once. */
  lemma {:induction false} EachListOnce(owner: Owner, rows: seq<Row>, sort: Sorter)
    requires Rearranges(sort)
    ensures Owners(Sorts(owner, rows, sort)) == multiset{owner} + ListsBelow(rows)
    decreases rows, |rows| + 1
  {
    SortMembers(rows, sort);
    OwnersJoin([ListSorted(owner, sort(rows))], ChildSorts(sort(rows), rows, sort));
    assert [ListSorted(owner, sort(rows))][1..] == [];
    EachChildListOnce(sort(rows), rows, sort);
    ListsPermute(sort(rows), rows);
  }

  lemma {:induction false} EachChildListOnce(rows: seq<Row>, all: seq<Row>, sort: Sorter)
    requires Rearranges(sort) && (forall r :: r in rows ==> r in all) && |rows| <= |all|
    ensures Owners(ChildSorts(rows, all, sort)) == ListsBelow(rows)
    decreases all, |rows|
  {
    if rows != [] {
      var r := rows[0];
      assert r in all;
      var first := if r.hasChildList then Sorts(ChildrenOf(r), r.children, sort) else [];
      OwnersJoin(first, ChildSorts(rows[1..], all, sort));
      EachChildListOnce(rows[1..], all, sort);
      if r.hasChildList {
        EachListOnce(ChildrenOf(r), r.children, sort);
      }
    }
  }

  // ---- how each list is left, and when ------------------------------------

  /** The list an owner has in the tree with these rows at its root. */
  function ListOf(owner: Owner, root: seq<Row>): seq<Row> {
    if owner.Root? then root else owner.row.children
  }

  /** Each list is left as the sorter arranges its own rows. */
  lemma {:induction false} EachListSorted(owner: Owner, rows: seq<Row>, root: seq<Row>, sort: Sorter, e: ListSorted)
    requires Rearranges(sort) && ListOf(owner, root) == rows && e in Sorts(owner, rows, sort)
    ensures e.rows == sort(ListOf(e.owner, root)) && multiset(e.rows) == multiset(ListOf(e.owner, root))
    decreases rows, |rows| + 1
  {
    SortMembers(rows, sort);
    if e != ListSorted(owner, sort(rows)) {
      EachChildListSorted(sort(rows), rows, root, sort, e);
    }
  }

  lemma {:induction false} EachChildListSorted(rows: seq<Row>, all: seq<Row>, root: seq<Row>, sort: Sorter, e: ListSorted)
    requires Rearranges(sort) && (forall r :: r in rows ==> r in all) && |rows| <= |all| && e in ChildSorts(rows, all, sort)
    ensures e.rows == sort(ListOf(e.owner, root)) && multiset(e.rows) == multiset(ListOf(e.owner, root))
    decreases all, |rows|
  {
    var r := rows[0];
    assert r in all;
    if r.hasChildList && e in Sorts(ChildrenOf(r), r.children, sort) {
      EachListSorted(ChildrenOf(r), r.children, root, sort, e);
    } else {
      EachChildListSorted(rows[1..], all, root, sort, e);
    }
  }

  /** The row that owns the list sorted at `j` is in a list sorted before. */
  ghost predicate ParentBefore(log: seq<ListSorted>, j: nat)
    requires j < |log|
  {
    log[j].owner.ChildrenOf? && exists i :: 0 <= i < j && log[j].owner.row in log[i].rows
  }

  /** Every list but the first is sorted after the one its row is in. */
  lemma {:induction false} ParentsFirst(owner: Owner, rows: seq<Row>, sort: Sorter, j: nat)
    requires Rearranges(sort) && 0 < j < |Sorts(owner, rows, sort)|
    ensures ParentBefore(Sorts(owner, rows, sort), j)
    decreases rows, |rows| + 1
  {
    SortMembers(rows, sort);
    var log, inner := Sorts(owner, rows, sort), ChildSorts(sort(rows), rows, sort);
    ChildParentsFirst(sort(rows), rows, sort, j - 1);
    assert log[j] == inner[j - 1];
    if log[j].owner.row in sort(rows) {
      assert log[0].rows == sort(rows);
    } else {
      var i :| 0 <= i < j - 1 && inner[j - 1].owner.row in inner[i].rows;
      assert log[i + 1] == inner[i];
    }
  }

  lemma {:induction false} ChildParentsFirst(rows: seq<Row>, all: seq<Row>, sort: Sorter, j: nat)
    requires Rearranges(sort) && (forall r :: r in rows ==> r in all) && |rows| <= |all| && j < |ChildSorts(rows, all, sort)|
    ensures ChildSorts(rows, all, sort)[j].owner.ChildrenOf?
    ensures ChildSorts(rows, all, sort)[j].owner.row in rows || ParentBefore(ChildSorts(rows, all, sort), j)
    decreases all, |rows|
  {
    var r := rows[0];
    assert r in all;
    var log, rest := ChildSorts(rows, all, sort), ChildSorts(rows[1..], all, sort);
    var first := if r.hasChildList then Sorts(ChildrenOf(r), r.children, sort) else [];
    assert log == first + rest;
    if j == 0 && first != [] {
      assert log[0].owner == ChildrenOf(r);
    } else if j < |first| {
      ParentsFirst(ChildrenOf(r), r.children, sort, j);
      var i :| 0 <= i < j && first[j].owner.row in first[i].rows;
      assert log[i] == first[i] && log[j] == first[j];
    } else {
      var k := j - |first|;
      ChildParentsFirst(rows[1..], all, sort, k);
      assert log[j] == rest[k];
      if rest[k].owner.row !in rows[1..] {
        var i :| 0 <= i < k && rest[k].owner.row in rest[i].rows;
        assert log[|first| + i] == rest[i];
      }
    }
  }

  // ---- the same with a stack ----------------------------------------------

  /** A list on the stack: sorted, and searched for child lists up to `listIndex`. */
  datatype Frame = Frame(all: seq<Row>, list: seq<Row>, listIndex: nat) {
    ghost predicate Ok() {
      listIndex <= |list| && |list| <= |all| && forall r :: r in list ==> r in all
    }

    ghost function Left(sort: Sorter): seq<ListSorted>
      requires Rearranges(sort) && Ok()
    {
      ChildSorts(list[listIndex..], all, sort)
    }
  }

  ghost predicate StackOk(stack: seq<Frame>) { forall k :: 0 <= k < |stack| ==> stack[k].Ok() }

  ghost function StackLeft(stack: seq<Frame>, sort: Sorter): seq<ListSorted>
    requires Rearranges(sort) && StackOk(stack)
  {
    if stack == [] then [] else stack[|stack| - 1].Left(sort) + StackLeft(stack[..|stack| - 1], sort)
  }

  lemma PushLeft(stack: seq<Frame>, f: Frame, sort: Sorter)
    requires Rearranges(sort) && StackOk(stack) && f.Ok()
    ensures StackOk(stack + [f]) && StackLeft(stack + [f], sort) == f.Left(sort) + StackLeft(stack, sort)
  {
    assert (stack + [f])[..|stack|] == stack;
  }

  lemma RowLeft(f: Frame, sort: Sorter)
    requires Rearranges(sort) && f.Ok() && f.listIndex < |f.list|
    ensures f.list[f.listIndex] in f.all && f.(listIndex := f.listIndex + 1).Ok()
    ensures var r := f.list[f.listIndex];
            f.Left(sort) == (if r.hasChildList then Sorts(ChildrenOf(r), r.children, sort) else [])
                            + f.(listIndex := f.listIndex + 1).Left(sort)
  {
    assert f.list[f.listIndex] in f.list;
    assert f.list[f.listIndex..][1..] == f.list[f.listIndex + 1..];
  }

  lemma Regroup(a: seq<ListSorted>, b: seq<ListSorted>, c: seq<ListSorted>)
    ensures (a + b) + c == a + (b + c)
    ensures [] + a == a && a + [] == a
  {
  }

  /** The next child list to sort. */
  datatype Found = Nothing | Next(row: Row)

  /** What is still to be sorted: the list found, if any, and what is left on the stack. */
  ghost function Pending(found: Found, stack: seq<Frame>, sort: Sorter): seq<ListSorted>
    requires Rearranges(sort) && StackOk(stack)
  {
    (if found.Next? then Sorts(ChildrenOf(found.row), found.row.children, sort) else []) + StackLeft(stack, sort)
  }

  /** Search the rows of one list from its index on. */
  method SearchList(f: Frame, ghost sort: Sorter) returns (found: Found, now: Frame)
    requires Rearranges(sort) && f.Ok()
    ensures now.Ok() && (found.Nothing? ==> now.Left(sort) == [])
    ensures f.Left(sort)
            == (if found.Next? then Sorts(ChildrenOf(found.row), found.row.children, sort) else []) + now.Left(sort)
  {
    now := f;
    while now.listIndex < |now.list|
      invariant now.Ok() && now.list == f.list && f.Left(sort) == now.Left(sort)
      decreases |now.list| - now.listIndex
    {
      RowLeft(now, sort);
      var row := now.list[now.listIndex];
      now := now.(listIndex := now.listIndex + 1);
      if row.hasChildList {
        return Next(row), now;
      }
      Regroup(now.Left(sort), [], []);
    }
    assert now.list[now.listIndex..] == [];
    Regroup([], [], []);
    found := Nothing;
  }

  /** Search the innermost list, backing up as long as there is nothing more. */
  method FindNextList(stack: seq<Frame>, ghost sort: Sorter) returns (found: Found, now: seq<Frame>)
    requires Rearranges(sort) && StackOk(stack)
    ensures StackOk(now) && StackLeft(stack, sort) == Pending(found, now, sort)
    ensures found.Nothing? ==> now == []
  {
    now := stack;
    Regroup(StackLeft(stack, sort), [], []);
    while |now| > 0
      invariant StackOk(now) && StackLeft(stack, sort) == StackLeft(now, sort)
      decreases |now|
    {
      var top, rest := now[|now| - 1], now[..|now| - 1];
      var f;
      found, f := SearchList(top, sort);
      if found.Next? {
        FoundLeft(rest, top, f, found.row, sort);
        return found, rest + [f];
      }
      Regroup(StackLeft(rest, sort), [], []);
      now := rest;
    }
    found := Nothing;
  }

  lemma FoundLeft(rest: seq<Frame>, top: Frame, f: Frame, row: Row, sort: Sorter)
    requires Rearranges(sort) && StackOk(rest) && top.Ok() && f.Ok()
    requires top.Left(sort) == Sorts(ChildrenOf(row), row.children, sort) + f.Left(sort)
    ensures StackOk(rest + [f])
    ensures top.Left(sort) + StackLeft(rest, sort) == Pending(Next(row), rest + [f], sort)
  {
    PushLeft(rest, f, sort);
    Regroup(Sorts(ChildrenOf(row), row.children, sort), f.Left(sort), StackLeft(rest, sort));
  }

  /**
   * DeepSort(), if it is not cancelled: sorts exactly the lists of the tree,
   * each once and every list before those below it.
   */
  method SortAll(rows: seq<Row>, sort: Sorter) returns (log: seq<ListSorted>)
    requires Rearranges(sort)
    ensures log == Sorts(Root, rows, sort)
  {
    log := [];
    var stack: seq<Frame> := [];
    var owner, list := Root, rows;
    var done := false;
    Regroup(Sorts(Root, rows, sort), [], []);
    while !done
      invariant StackOk(stack)
      invariant log + (if done then [] else Sorts(owner, list, sort) + StackLeft(stack, sort)) == Sorts(Root, rows, sort)
      decreases |Sorts(Root, rows, sort)| - |log|, !done
    {
      SortMembers(list, sort);
      var sorted := sort(list);
      ghost var before := StackLeft(stack, sort);
      PushLeft(stack, Frame(list, sorted, 0), sort);
      assert sorted[0..] == sorted;
      OneSort(log, ListSorted(owner, sorted), ChildSorts(sorted, list, sort), before);
      log := log + [ListSorted(owner, sorted)];
      var found: Found;
      found, stack := FindNextList(stack + [Frame(list, sorted, 0)], sort);
      if found.Nothing? {
        Regroup(log, [], []);
        done := true;
      } else {
        owner, list := ChildrenOf(found.row), found.row.children;
      }
    }
    Regroup(log, [], []);
  }

  lemma OneSort(log: seq<ListSorted>, one: ListSorted, inner: seq<ListSorted>, rest: seq<ListSorted>)
    ensures log + (([one] + inner) + rest) == (log + [one]) + (inner + rest)
  {
  }
}
