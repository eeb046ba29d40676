/**
 * The bencode walker. It visits a tree with its own stack of nodes and calls
 * back at every value and container end; printing and freeing are both walks.
 * A node's address is modelled as its path of child indices from the top.
 */
module BencodeWalk {
  import opened BencodeText
  import opened Bencode
  import opened PtrArray
  import opened Sorting

  type Path = seq<nat>

  /** One callback: what it is called for, and the node it is given. */
  datatype Event =
    | OnInt(path: Path, i: Int64)
    | OnBool(path: Path, b: bool)
    | OnStr(path: Path, s: Text)
    | OnListBegin(path: Path)
    | OnDictBegin(path: Path)
    | OnEnd(path: Path)

  predicate IsContainer(v: Benc) { v.List? || v.Dict? }

  function Children(v: Benc): seq<Benc> {
    if IsContainer(v) then v.items else []
  }

  // ---- the order of a node's children -------------------------------------

  /** The part of a string that C code sees: up to the first NUL. */
  function CString(s: Text): Text {
    s[..IndexOf(s, NUL, 0)]
  }

  /** strcmp() on unsigned bytes. */
  function StrCmp(a: Text, b: Text): int {
    if a == [] then (if b == [] then 0 else -1)
    else if b == [] then 1
    else if a[0] != b[0] then a[0] - b[0]
    else StrCmp(a[1..], b[1..])
  }

  function KeyAt(items: seq<Benc>, i: nat): Text {
    if i < |items| && items[i].Str? then CString(items[i].s) else []
  }

  function KeyOrder(items: seq<Benc>): Comparator<nat> {
    (i: nat, j: nat) => StrCmp(KeyAt(items, i), KeyAt(items, j))
  }

  function UpTo(n: nat): seq<nat> { seq(n, i => i) }

  /** The indices of the keys: 0, 2, 4, ... */
  function KeyIndices(items: seq<Benc>): seq<nat> {
    seq((|items| + 1) / 2, i => 2 * i)
  }

  /** Each key index followed by the index of its value. */
  function Paired(keys: seq<nat>): seq<nat> {
    if keys == [] then [] else [keys[0], keys[0] + 1] + Paired(keys[1..])
  }

  function Order(v: Benc, sortDicts: bool): seq<nat> {
    if v.Dict? && sortDicts then Paired(QSort(KeyIndices(v.items), KeyOrder(v.items)))
    else UpTo(|Children(v)|)
  }

  /** Every dict has a string before each value. */
  predicate Proper(v: Benc) {
    match v
    case List(items) => forall c :: c in items ==> Proper(c)
    case Dict(items) =>
      && |items| % 2 == 0
      && (forall i :: 0 <= i < |items| && i % 2 == 0 ==> items[i].Str?)
      && forall c :: c in items ==> Proper(c)
    case _ => true
  }

  predicate IndexList(order: seq<nat>, n: nat) {
    forall k :: 0 <= k < |order| ==> order[k] < n
  }

  lemma {:induction false} PairedIndices(keys: seq<nat>, n: nat)
    requires n % 2 == 0 && forall k :: 0 <= k < |keys| ==> keys[k] < n && keys[k] % 2 == 0
    ensures IndexList(Paired(keys), n) && |Paired(keys)| == 2 * |keys|
  {
    if keys != [] {
      PairedIndices(keys[1..], n);
    }
  }

  lemma KeyIndexEven(items: seq<Benc>, k: nat)
    requires k in KeyIndices(items) && |items| % 2 == 0
    ensures k < |items| && k % 2 == 0
  {
  }

  lemma SortedKeys(items: seq<Benc>, keys: seq<nat>)
    requires multiset(keys) == multiset(KeyIndices(items)) && |items| % 2 == 0
    ensures |keys| == |items| / 2 && forall k :: 0 <= k < |keys| ==> keys[k] < |items| && keys[k] % 2 == 0
  {
    SameMembers(keys, KeyIndices(items));
    forall k | 0 <= k < |keys|
      ensures keys[k] < |items| && keys[k] % 2 == 0
    {
      assert keys[k] in KeyIndices(items);
      KeyIndexEven(items, keys[k]);
    }
  }

  lemma OrderIndices(v: Benc, sortDicts: bool)
    requires Walkable(v, sortDicts)
    ensures IndexList(Order(v, sortDicts), |Children(v)|)
    ensures |Order(v, sortDicts)| == |Children(v)|
  {
    if v.Dict? && sortDicts {
      var keys := QSort(KeyIndices(v.items), KeyOrder(v.items));
      SortedKeys(v.items, keys);
      PairedIndices(keys, |v.items|);
    }
  }

  predicate Walkable(v: Benc, sortDicts: bool) { sortDicts ==> Proper(v) }

  // ---- the recursive traversal --------------------------------------------

  /** The callbacks for one subtree. */
  function Events(v: Benc, path: Path, sortDicts: bool): seq<Event>
    requires Walkable(v, sortDicts)
    decreases v, 1
  {
    OrderIndices(v, sortDicts);
    Begin(v, path) + ChildEvents(v, Order(v, sortDicts), path, sortDicts) + End(v, path)
  }

  function Begin(v: Benc, path: Path): seq<Event> {
    match v
    case Int(i) => [OnInt(path, i)]
    case Bool(b) => [OnBool(path, b)]
    case Str(s) => [OnStr(path, s)]
    case List(_) => [OnListBegin(path)]
    case Dict(_) => [OnDictBegin(path)]
  }

  function End(v: Benc, path: Path): seq<Event> {
    if IsContainer(v) then [OnEnd(path)] else []
  }

  /** The callbacks for the listed children of `v`, in that order. */
  function ChildEvents(v: Benc, order: seq<nat>, path: Path, sortDicts: bool): seq<Event>
    requires Walkable(v, sortDicts) && IndexList(order, |Children(v)|)
    decreases v, 0, |order|
  {
    if order == [] then []
    else
      var c := Children(v)[order[0]];
      assert c in Children(v);
      Events(c, path + [order[0]], sortDicts) + ChildEvents(v, order[1..], path, sortDicts)
  }

  // ---- the walk with its own stack ----------------------------------------

  /** A stack entry: a node, its remaining children in visiting order, and where it is. */
  datatype SaveNode = SaveNode(val: Benc, path: Path, visited: bool, childIndex: nat, children: seq<nat>) {
    predicate Ok(sortDicts: bool) {
      && Walkable(val, sortDicts)
      && IndexList(children, |Children(val)|)
      && childIndex <= |children|
      && (!visited ==> childIndex == 0 && children == Order(val, sortDicts))
    }

    /** The callbacks still to come for this entry. */
    function Left(sortDicts: bool): seq<Event>
      requires Ok(sortDicts)
    {
      (if visited then [] else Begin(val, path))
      + ChildEvents(val, children[childIndex..], path, sortDicts)
      + End(val, path)
    }
  }

  function NodeInit(val: Benc, path: Path, sortDicts: bool): (r: SaveNode)
    requires Walkable(val, sortDicts)
    ensures r.Ok(sortDicts) && r.Left(sortDicts) == Events(val, path, sortDicts)
  {
    OrderIndices(val, sortDicts);
    var r := SaveNode(val, path, false, 0, Order(val, sortDicts));
    assert r.children[0..] == r.children;
    r
  }

  lemma VisitLeft(node: SaveNode, sortDicts: bool)
    requires node.Ok(sortDicts) && !node.visited
    ensures node.Left(sortDicts) == Begin(node.val, node.path) + node.(visited := true).Left(sortDicts)
  {
  }

  lemma NextLeft(node: SaveNode, sortDicts: bool)
    requires node.Ok(sortDicts) && node.visited && node.childIndex < |node.children|
    ensures var index := node.children[node.childIndex];
            && Walkable(Children(node.val)[index], sortDicts)
            && node.(childIndex := node.childIndex + 1).Ok(sortDicts)
            && node.Left(sortDicts) == Events(Children(node.val)[index], node.path + [index], sortDicts)
                                       + node.(childIndex := node.childIndex + 1).Left(sortDicts)
  {
    var k := node.childIndex;
    assert Children(node.val)[node.children[k]] in Children(node.val);
    assert node.children[k..][1..] == node.children[k + 1..];
  }

  lemma LeafEvents(v: Benc, path: Path, sortDicts: bool)
    requires Walkable(v, sortDicts) && !IsContainer(v)
    ensures Events(v, path, sortDicts) == Begin(v, path)
  {
    assert Order(v, sortDicts) == [];
  }

  lemma DoneLeft(node: SaveNode, sortDicts: bool)
    requires node.Ok(sortDicts) && node.visited && node.childIndex == |node.children|
    ensures node.Left(sortDicts) == End(node.val, node.path)
  {
    assert node.children[node.childIndex..] == [];
  }

  /** All entries are sound, and only the innermost may still wait to be visited. */
  predicate StackOk(stack: seq<SaveNode>, sortDicts: bool) {
    stack == [] || (stack[|stack| - 1].Ok(sortDicts) && Below(stack[..|stack| - 1], sortDicts))
  }

  predicate Below(rest: seq<SaveNode>, sortDicts: bool) {
    forall i :: 0 <= i < |rest| ==> rest[i].Ok(sortDicts) && rest[i].visited
  }

  /** The callbacks still to come, the innermost entry's first. */
  function AllLeft(stack: seq<SaveNode>, sortDicts: bool): seq<Event>
    requires StackOk(stack, sortDicts)
  {
    if stack == [] then []
    else stack[|stack| - 1].Left(sortDicts) + AllLeft(stack[..|stack| - 1], sortDicts)
  }

  lemma TopLeft(rest: seq<SaveNode>, node: SaveNode, sortDicts: bool)
    requires Below(rest, sortDicts) && node.Ok(sortDicts)
    ensures StackOk(rest, sortDicts) && StackOk(rest + [node], sortDicts)
    ensures AllLeft(rest + [node], sortDicts) == node.Left(sortDicts) + AllLeft(rest, sortDicts)
  {
    assert (rest + [node])[..|rest|] == rest;
  }

  /** How the measure of the loop is counted: a callback, then the visit of a new entry. */
  function Work(stack: seq<SaveNode>, sortDicts: bool): nat
    requires StackOk(stack, sortDicts)
  {
    2 * |AllLeft(stack, sortDicts)| + if stack != [] && stack[|stack| - 1].visited then 1 else 0
  }

  /** A pass made the first of the callbacks to come, left the others to come, and got closer to the end. */
  predicate Progress(stack: seq<SaveNode>, made: seq<Event>, next: seq<SaveNode>, sortDicts: bool)
    requires StackOk(stack, sortDicts)
  {
    && StackOk(next, sortDicts)
    && AllLeft(stack, sortDicts) == made + AllLeft(next, sortDicts)
    && (Work(next, sortDicts) < Work(stack, sortDicts)
        || (Work(next, sortDicts) == Work(stack, sortDicts) && |next| < |stack|))
  }

  lemma VisitProgress(rest: seq<SaveNode>, node: SaveNode, sortDicts: bool)
    requires Below(rest, sortDicts) && node.Ok(sortDicts) && !node.visited
    ensures StackOk(rest + [node], sortDicts)
    ensures Progress(rest + [node], Begin(node.val, node.path), rest + [node.(visited := true)], sortDicts)
  {
    TopLeft(rest, node, sortDicts);
    VisitLeft(node, sortDicts);
    TopLeft(rest, node.(visited := true), sortDicts);
    Regroup(Begin(node.val, node.path), node.(visited := true).Left(sortDicts), AllLeft(rest, sortDicts), []);
  }

  lemma LeafProgress(rest: seq<SaveNode>, node: SaveNode, moved: SaveNode, now: seq<Event>, sortDicts: bool)
    requires Below(rest, sortDicts) && node.Ok(sortDicts) && node.visited && moved.Ok(sortDicts) && moved.visited
    requires |now| > 0 && node.Left(sortDicts) == now + moved.Left(sortDicts)
    ensures StackOk(rest + [node], sortDicts)
    ensures Progress(rest + [node], now, rest + [moved], sortDicts)
  {
    TopLeft(rest, node, sortDicts);
    TopLeft(rest, moved, sortDicts);
    Regroup(now, moved.Left(sortDicts), AllLeft(rest, sortDicts), []);
  }

  lemma PushProgress(rest: seq<SaveNode>, node: SaveNode, moved: SaveNode, entry: SaveNode, sortDicts: bool)
    requires Below(rest, sortDicts) && node.Ok(sortDicts) && node.visited && moved.Ok(sortDicts) && moved.visited
    requires entry.Ok(sortDicts) && !entry.visited
    requires node.Left(sortDicts) == entry.Left(sortDicts) + moved.Left(sortDicts)
    ensures StackOk(rest + [node], sortDicts)
    ensures Progress(rest + [node], [], rest + [moved] + [entry], sortDicts)
  {
    TopLeft(rest, node, sortDicts);
    TopLeft(rest, moved, sortDicts);
    assert Below(rest + [moved], sortDicts);
    TopLeft(rest + [moved], entry, sortDicts);
    Regroup([], entry.Left(sortDicts), moved.Left(sortDicts), AllLeft(rest, sortDicts));
  }

  lemma Regroup(made: seq<Event>, a: seq<Event>, b: seq<Event>, c: seq<Event>)
    ensures made + (a + (b + c)) == (made + a + b) + c
    ensures (made + a) + b == made + (a + b)
    ensures [] + a == a
  {
  }

  lemma PopProgress(rest: seq<SaveNode>, node: SaveNode, sortDicts: bool)
    requires Below(rest, sortDicts) && node.Ok(sortDicts) && node.visited && node.childIndex == |node.children|
    ensures StackOk(rest + [node], sortDicts)
    ensures Progress(rest + [node], End(node.val, node.path), rest, sortDicts)
  {
    TopLeft(rest, node, sortDicts);
    DoneLeft(node, sortDicts);
  }

  /** One pass of the loop: the callbacks it makes, and the stack after it. */
  method WalkPass(stack: seq<SaveNode>, sortDicts: bool) returns (made: seq<Event>, next: seq<SaveNode>)
    requires stack != [] && StackOk(stack, sortDicts)
    ensures Progress(stack, made, next, sortDicts)
  {
    var node, rest := stack[|stack| - 1], stack[..|stack| - 1];
    assert stack == rest + [node];
    if !node.visited {
      VisitProgress(rest, node, sortDicts);
      return Begin(node.val, node.path), rest + [node.(visited := true)];
    } else if node.childIndex < |node.children| {
      var index := node.children[node.childIndex];
      var child, path := Children(node.val)[index], node.path + [index];
      var moved := node.(childIndex := node.childIndex + 1);
      NextLeft(node, sortDicts);
      if IsContainer(child) {
        PushProgress(rest, node, moved, NodeInit(child, path, sortDicts), sortDicts);
        return [], rest + [moved] + [NodeInit(child, path, sortDicts)];
      } else {
        LeafEvents(child, path, sortDicts);
        LeafProgress(rest, node, moved, Begin(child, path), sortDicts);
        return Begin(child, path), rest + [moved];
      }
    } else {
      PopProgress(rest, node, sortDicts);
      return End(node.val, node.path), rest;
    }
  }

  /**
   * bencWalk(): one loop and a stack. It makes exactly the callbacks of the
   * recursive traversal, in the same order, and ends.
   */
  method Walk(top: Benc, sortDicts: bool) returns (made: seq<Event>)
    requires Walkable(top, sortDicts)
    ensures made == Events(top, [], sortDicts)
  {
    var stack := [NodeInit(top, [], sortDicts)];
    FirstLeft(top, sortDicts);
    made := [];
    while |stack| > 0
      invariant StackOk(stack, sortDicts)
      invariant made + AllLeft(stack, sortDicts) == Events(top, [], sortDicts)
      decreases Work(stack, sortDicts), |stack|
    {
      var now, next := WalkPass(stack, sortDicts);
      Regroup(made, now, AllLeft(next, sortDicts), []);
      made, stack := made + now, next;
    }
  }

  lemma FirstLeft(top: Benc, sortDicts: bool)
    requires Walkable(top, sortDicts)
    ensures StackOk([NodeInit(top, [], sortDicts)], sortDicts)
    ensures AllLeft([NodeInit(top, [], sortDicts)], sortDicts) == Events(top, [], sortDicts)
  {
    TopLeft([], NodeInit(top, [], sortDicts), sortDicts);
    assert [] + [NodeInit(top, [], sortDicts)] == [NodeInit(top, [], sortDicts)];
  }
}
