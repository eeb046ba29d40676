/**
 * The row tree of the outline view: an iterator and a deep sort, each with
 * its own stack instead of recursion.
 */
module Outline {
  datatype Row = Row(id: nat, isExpanded: bool, hasChildList: bool, children: seq<Row>)

  // ---- the preorder of the rows -------------------------------------------

  /** A row and its depth in the tree. */
  datatype Visit = Visit(row: Row, level: nat)

  predicate Opens(row: Row, openOnly: bool) {
    row.hasChildList && (row.isExpanded || !openOnly) && |row.children| > 0
  }

  /** Every row before the rows below it; with `openOnly`, just those under expanded rows. */
  function Visits(rows: seq<Row>, level: nat, openOnly: bool): seq<Visit>
    decreases rows
  {
    if rows == [] then []
    else
      [Visit(rows[0], level)]
      + (if Opens(rows[0], openOnly) then Visits(rows[0].children, level + 1, openOnly) else [])
      + Visits(rows[1..], level, openOnly)
  }

  datatype Entry = Entry(rowSet: seq<Row>, index: nat, depth: nat) {
    predicate Ok() { index < |rowSet| }

    function Left(openOnly: bool): seq<Visit>
      requires Ok()
    {
      Visits(rowSet[index..], depth, openOnly)
    }
  }

  predicate StackOk(stack: seq<Entry>) { forall k :: 0 <= k < |stack| ==> stack[k].Ok() }

  /** What is left to visit in the lists on the stack, innermost last. */
  function StackLeft(stack: seq<Entry>, openOnly: bool): seq<Visit>
    requires StackOk(stack)
  {
    if stack == [] then [] else stack[|stack| - 1].Left(openOnly) + StackLeft(stack[..|stack| - 1], openOnly)
  }

  lemma PushLeft(stack: seq<Entry>, e: Entry, openOnly: bool)
    requires StackOk(stack) && e.Ok()
    ensures StackOk(stack + [e]) && StackLeft(stack + [e], openOnly) == e.Left(openOnly) + StackLeft(stack, openOnly)
  {
    assert (stack + [e])[..|stack|] == stack;
  }

  lemma Nothing(a: seq<Visit>)
    ensures [] + a == a
  {
  }

  /** The current row, then the rows below it if it is open, then the rest of its list, then the lists saved. */
  lemma FirstVisit(rows: seq<Row>, index: nat, level: nat, openOnly: bool, saved: seq<Visit>)
    requires index < |rows|
    ensures Visits(rows[index..], level, openOnly) + saved
            == [Visit(rows[index], level)]
               + if Opens(rows[index], openOnly)
                 then Visits(rows[index].children, level + 1, openOnly) + (Visits(rows[index + 1..], level, openOnly) + saved)
                 else Visits(rows[index + 1..], level, openOnly) + saved
  {
    assert rows[index..][1..] == rows[index + 1..];
    var inner := if Opens(rows[index], openOnly) then Visits(rows[index].children, level + 1, openOnly) else [];
    Regroup([Visit(rows[index], level)], inner, Visits(rows[index + 1..], level, openOnly), saved);
    Nothing(Visits(rows[index + 1..], level, openOnly) + saved);
  }

  lemma Regroup(a: seq<Visit>, b: seq<Visit>, c: seq<Visit>, d: seq<Visit>)
    ensures ((a + b) + c) + d == a + (b + (c + d))
  {
  }

  /** Each saved list is at a smaller depth than those above it, so the stack is never deeper than the tree. */
  predicate Rising(stack: seq<Entry>, depth: nat) {
    |stack| <= depth && (stack != [] ==> stack[|stack| - 1].depth < depth && Rising(stack[..|stack| - 1], stack[|stack| - 1].depth))
  }

  class RecursiveOutlineIterator {
    /** The list being visited; an ended iterator has none. */
    var hasList: bool
    var currentList: seq<Row>
    var currentListIndex: nat
    var currentListDepth: nat
    var stack: seq<Entry>
    const openBranchesOnly: bool

    ghost predicate Valid()
      reads this
    {
      && (hasList ==> currentListIndex < |currentList|)
      && StackOk(stack) && (hasList ==> Rising(stack, currentListDepth))
    }

    /** The visits still to come, the current row first. */
    ghost function Remaining(): seq<Visit>
      reads this
      requires Valid()
    {
      if !hasList then []
      else Visits(currentList[currentListIndex..], currentListDepth, openBranchesOnly) + StackLeft(stack, openBranchesOnly)
    }

    constructor (list: seq<Row>, openBranchesOnly: bool)
      ensures Valid() && this.openBranchesOnly == openBranchesOnly
      ensures Remaining() == Visits(list, 0, openBranchesOnly)
    {
      hasList := list != [];
      currentList := list;
      currentListIndex := 0;
      currentListDepth := 0;
      stack := [];
      this.openBranchesOnly := openBranchesOnly;
      new;
      assert list[0..] == list;
    }

    /** What there is to visit after the current row and the rows below it. */
    ghost function Later(): seq<Visit>
      reads this
      requires Valid() && hasList
    {
      Visits(currentList[currentListIndex + 1..], currentListDepth, openBranchesOnly) + StackLeft(stack, openBranchesOnly)
    }

    /** GoToNext() */
    method GoToNext()
      requires Valid()
      modifies this
      ensures Valid()
      ensures old(hasList) ==>
                old(Remaining()) == [Visit(old(currentList[currentListIndex]), old(currentListDepth))] + Remaining()
      ensures !old(hasList) ==> !hasList
    {
      if hasList {
        var row := currentList[currentListIndex];
        FirstVisit(currentList, currentListIndex, currentListDepth, openBranchesOnly, StackLeft(stack, openBranchesOnly));
        if Opens(row, openBranchesOnly) {
          Enter(row);
        } else {
          Advance();
        }
      }
    }

    /** Visit a row's children; a list that is at its last row need not be saved for that. */
    method Enter(row: Row)
      requires Valid() && hasList && row.children != []
      modifies this
      ensures Valid() && hasList
      ensures Remaining() == Visits(row.children, old(currentListDepth) + 1, openBranchesOnly) + old(Later())
    {
      if currentListIndex < |currentList| - 1 {
        var e := Entry(currentList, currentListIndex + 1, currentListDepth);
        PushLeft(stack, e, openBranchesOnly);
        RisingPush(stack, e);
        stack := stack + [e];
      } else {
        assert currentList[currentListIndex + 1..] == [];
        Nothing(StackLeft(stack, openBranchesOnly));
        RisingDeeper(stack, currentListDepth);
      }
      currentList := row.children;
      currentListIndex := 0;
      currentListDepth := currentListDepth + 1;
      assert row.children[0..] == row.children;
    }

    /** The next row of the list, or of the list saved last. */
    method Advance()
      requires Valid() && hasList
      modifies this
      ensures Valid() && Remaining() == old(Later())
    {
      if currentListIndex < |currentList| - 1 {
        currentListIndex := currentListIndex + 1;
      } else {
        assert currentList[currentListIndex + 1..] == [];
        Nothing(StackLeft(stack, openBranchesOnly));
        Pop();
      }
    }

    /** Back to the list saved last, or to the end. */
    method Pop()
      requires Valid() && hasList
      modifies this
      ensures Valid() && Remaining() == StackLeft(old(stack), openBranchesOnly)
    {
      if |stack| > 0 {
        var top := stack[|stack| - 1];
        stack := stack[..|stack| - 1];
        currentList, currentListIndex, currentListDepth := top.rowSet, top.index, top.depth;
      } else {
        hasList := false;
      }
    }
  }

  lemma RisingPush(stack: seq<Entry>, e: Entry)
    requires Rising(stack, e.depth)
    ensures Rising(stack + [e], e.depth + 1)
  {
    assert (stack + [e])[..|stack|] == stack;
  }

  lemma RisingDeeper(stack: seq<Entry>, depth: nat)
    requires Rising(stack, depth)
    ensures Rising(stack, depth + 1)
  {
  }

  /** Running the iterator to its end visits exactly the preorder, each row with its depth. */
  method VisitAll(list: seq<Row>, openBranchesOnly: bool) returns (made: seq<Visit>)
    ensures made == Visits(list, 0, openBranchesOnly)
  {
    var it := new RecursiveOutlineIterator(list, openBranchesOnly);
    made := [];
    while it.hasList
      invariant it.Valid() && it.openBranchesOnly == openBranchesOnly
      invariant made + it.Remaining() == Visits(list, 0, openBranchesOnly)
      decreases |it.Remaining()|
    {
      var visit := Visit(it.currentList[it.currentListIndex], it.currentListDepth);
      it.GoToNext();
      Made(made, visit, it.Remaining());
      made := made + [visit];
    }
  }

  lemma Made(made: seq<Visit>, visit: Visit, rest: seq<Visit>)
    ensures made + ([visit] + rest) == (made + [visit]) + rest
  {
  }
}
