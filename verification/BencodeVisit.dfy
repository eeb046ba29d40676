/**
 * What a walk visits: every node once, and the end of a container only after
 * everything inside it. Freeing is such a walk, so no freed array is touched.
 */
module BencodeVisit {
  import opened BencodeText
  import opened Bencode
  import opened BencodeWalk
  import opened BencodeCanon
  import opened Sorting

  // ---- the children are each listed once ----------------------------------

  lemma PairedValue(keys: seq<nat>, i: nat)
    requires i < 2 * |keys|
    ensures |Paired(keys)| == 2 * |keys| && Paired(keys)[i] == keys[i / 2] + i % 2
  {
    var k, x := i / 2, i % 2;
    PairedAt(keys, k);
    assert i == 2 * k + x;
  }

  lemma EvenApart(a: nat, b: nat, x: nat, y: nat)
    requires a % 2 == 0 && b % 2 == 0 && x < 2 && y < 2 && a + x == b + y
    ensures a == b && x == y
  {
  }

  predicate Evens(keys: seq<nat>) { forall k :: 0 <= k < |keys| ==> keys[k] % 2 == 0 }

  lemma PairedApart(keys: seq<nat>, i: nat, j: nat)
    requires Distinct(keys) && Evens(keys) && i < j < 2 * |keys|
    ensures |Paired(keys)| == 2 * |keys| && Paired(keys)[i] != Paired(keys)[j]
  {
    PairedValue(keys, i);
    PairedValue(keys, j);
    if keys[i / 2] + i % 2 == keys[j / 2] + j % 2 {
      EvenApart(keys[i / 2], keys[j / 2], i % 2, j % 2);
    }
  }

  lemma PairedDistinct(keys: seq<nat>)
    requires Distinct(keys) && Evens(keys)
    ensures Distinct(Paired(keys))
  {
    PairedLength(keys);
    forall i, j | 0 <= i < j < |Paired(keys)|
      ensures Paired(keys)[i] != Paired(keys)[j]
    {
      PairedApart(keys, i, j);
    }
  }

  lemma PairedCovers(keys: seq<nat>, e: nat, k: nat)
    requires e in keys && (k == e || k == e + 1)
    ensures k in Paired(keys)
  {
    var i :| 0 <= i < |keys| && keys[i] == e;
    PairedAt(keys, i);
  }

  lemma KeyIndexed(items: seq<Benc>, k: nat)
    requires k < |items| && k % 2 == 0
    ensures k in KeyIndices(items)
  {
    assert KeyIndices(items)[k / 2] == k;
  }

  lemma SortedDistinct(items: seq<Benc>)
    requires |items| % 2 == 0
    ensures Distinct(Paired(SortedIndices(items)))
  {
    var keys := SortedIndices(items);
    SortedKeys(items, keys);
    EvensDistinct(items);
    DistinctPermutes(KeyIndices(items), keys);
    PairedDistinct(keys);
  }

  lemma SortedCovers(items: seq<Benc>, k: nat)
    requires |items| % 2 == 0 && k < |items|
    ensures k in Paired(SortedIndices(items))
  {
    var e: nat := k - k % 2;
    KeyIndexed(items, e);
    SameMembers(SortedIndices(items), KeyIndices(items));
    PairedCovers(SortedIndices(items), e, k);
  }

  lemma OrderPermutes(v: Benc, sortDicts: bool)
    requires Walkable(v, sortDicts)
    ensures IndexList(Order(v, sortDicts), |Children(v)|)
    ensures Distinct(Order(v, sortDicts))
    ensures forall k: nat :: k < |Children(v)| ==> k in Order(v, sortDicts)
  {
    OrderIndices(v, sortDicts);
    if v.Dict? && sortDicts {
      SortedDistinct(v.items);
    }
    forall k: nat | k < |Children(v)|
      ensures k in Order(v, sortDicts)
    {
      if v.Dict? && sortDicts {
        SortedCovers(v.items, k);
      } else {
        assert UpTo(|Children(v)|)[k] == k;
      }
    }
  }

  // ---- every callback is for a node of the tree, and every node has its own -

  /** The node at a path below `v`. */
  function NodeAt(v: Benc, p: Path): Option<Benc>
    decreases |p|
  {
    if p == [] then Some(v)
    else if p[0] < |Children(v)| then NodeAt(Children(v)[p[0]], p[1..])
    else None
  }

  lemma {:induction false} ChildEventsHave(v: Benc, order: seq<nat>, path: Path, sortDicts: bool, a: nat)
    requires Walkable(v, sortDicts) && IndexList(order, |Children(v)|) && a in order
    ensures a < |Children(v)| && Children(v)[a] in Children(v)
    ensures forall e :: e in Events(Children(v)[a], path + [a], sortDicts) ==> e in ChildEvents(v, order, path, sortDicts)
  {
    assert Children(v)[order[0]] in Children(v);
    if a != order[0] {
      ChildEventsHave(v, order[1..], path, sortDicts, a);
    }
  }

  /** A node of the tree is visited, and a container's end is announced. */
  lemma {:induction false} EveryNodeVisited(v: Benc, path: Path, sortDicts: bool, p: Path)
    requires Walkable(v, sortDicts) && NodeAt(v, p).Some?
    ensures Begin(NodeAt(v, p).value, path + p)[0] in Events(v, path, sortDicts)
    ensures IsContainer(NodeAt(v, p).value) ==> OnEnd(path + p) in Events(v, path, sortDicts)
    decreases |p|
  {
    if p == [] {
      assert path + p == path;
    } else {
      OrderPermutes(v, sortDicts);
      ChildEventsHave(v, Order(v, sortDicts), path, sortDicts, p[0]);
      EveryNodeVisited(Children(v)[p[0]], path + [p[0]], sortDicts, p[1..]);
      assert path + [p[0]] + p[1..] == path + p;
    }
  }

  /** `e` is a callback that the node below `v` at `p` calls for. */
  predicate CalledFor(e: Event, v: Benc, path: Path, p: Path) {
    && NodeAt(v, p).Some? && e.path == path + p
    && (e in Begin(NodeAt(v, p).value, e.path) || e in End(NodeAt(v, p).value, e.path))
  }

  lemma CalledForChild(e: Event, v: Benc, path: Path, a: nat, p: Path)
    requires a < |Children(v)| && CalledFor(e, Children(v)[a], path + [a], p)
    ensures CalledFor(e, v, path, [a] + p)
  {
    assert ([a] + p)[1..] == p;
    assert path + [a] + p == path + ([a] + p);
  }

  lemma {:induction false} OnlyNodesVisited(v: Benc, path: Path, sortDicts: bool, e: Event) returns (p: Path)
    requires Walkable(v, sortDicts) && e in Events(v, path, sortDicts)
    ensures CalledFor(e, v, path, p)
    decreases v, 1
  {
    p := [];
    assert path + [] == path;
    if e !in Begin(v, path) && e !in End(v, path) {
      OrderIndices(v, sortDicts);
      p := OnlyChildrenVisited(v, Order(v, sortDicts), path, sortDicts, e);
    }
  }

  lemma {:induction false} OnlyChildrenVisited(v: Benc, order: seq<nat>, path: Path, sortDicts: bool, e: Event)
    returns (p: Path)
    requires Walkable(v, sortDicts) && IndexList(order, |Children(v)|) && e in ChildEvents(v, order, path, sortDicts)
    ensures CalledFor(e, v, path, p) && p != [] && p[0] in order
    decreases v, 0, |order|
  {
    var a := order[0];
    assert Children(v)[a] in Children(v);
    if e in Events(Children(v)[a], path + [a], sortDicts) {
      var q := OnlyNodesVisited(Children(v)[a], path + [a], sortDicts, e);
      CalledForChild(e, v, path, a, q);
      p := [a] + q;
    } else {
      p := OnlyChildrenVisited(v, order[1..], path, sortDicts, e);
    }
  }

  // ---- the order of the callbacks -----------------------------------------

  /** `f` may come after `e`: not below a container that has ended, and not a second visit of the same node. */
  predicate MayFollow(e: Event, f: Event) {
    && (e.OnEnd? ==> !(e.path <= f.path))
    && (e.path == f.path ==> f.OnEnd?)
  }

  ghost predicate Tidy(events: seq<Event>) {
    forall i, j :: 0 <= i < j < |events| ==> MayFollow(events[i], events[j])
  }

  lemma JoinTidy(a: seq<Event>, b: seq<Event>)
    requires Tidy(a) && Tidy(b) && forall e, f :: e in a && f in b ==> MayFollow(e, f)
    ensures Tidy(a + b)
  {
    forall i, j | 0 <= i < j < |a + b|
      ensures MayFollow((a + b)[i], (a + b)[j])
    {
      if j < |a| {
      } else if i < |a| {
        assert (a + b)[i] in a && (a + b)[j] in b;
      } else {
        assert MayFollow(b[i - |a|], b[j - |a|]);
      }
    }
  }

  lemma BelowDifferent(e: Event, f: Event, path: Path, p: Path, q: Path)
    requires e.path == path + p && f.path == path + q && p != [] && q != [] && p[0] != q[0]
    ensures MayFollow(e, f)
  {
    assert e.path[|path|] == p[0] && f.path[|path|] == q[0];
  }

  lemma NotInRest(order: seq<nat>, b: nat)
    requires order != [] && Distinct(order) && b in order[1..]
    ensures order[0] != b
  {
  }

  lemma FirstApart(v: Benc, order: seq<nat>, path: Path, sortDicts: bool, e: Event, f: Event)
    requires Walkable(v, sortDicts) && IndexList(order, |Children(v)|) && order != [] && Distinct(order)
    requires Children(v)[order[0]] in Children(v) && e in Events(Children(v)[order[0]], path + [order[0]], sortDicts)
    requires f in ChildEvents(v, order[1..], path, sortDicts)
    ensures MayFollow(e, f)
  {
    var a := order[0];
    var p := OnlyNodesVisited(Children(v)[a], path + [a], sortDicts, e);
    var q := OnlyChildrenVisited(v, order[1..], path, sortDicts, f);
    CalledForChild(e, v, path, a, p);
    NotInRest(order, q[0]);
    BelowDifferent(e, f, path, [a] + p, q);
  }

  lemma {:induction false} ChildEventsTidy(v: Benc, order: seq<nat>, path: Path, sortDicts: bool)
    requires Walkable(v, sortDicts) && IndexList(order, |Children(v)|) && Distinct(order)
    ensures Tidy(ChildEvents(v, order, path, sortDicts))
    decreases v, 0, |order|
  {
    if order != [] {
      var c := Children(v)[order[0]];
      assert c in Children(v);
      EventsTidy(c, path + [order[0]], sortDicts);
      ChildEventsTidy(v, order[1..], path, sortDicts);
      forall e, f | e in Events(c, path + [order[0]], sortDicts) && f in ChildEvents(v, order[1..], path, sortDicts)
        ensures MayFollow(e, f)
      {
        FirstApart(v, order, path, sortDicts, e, f);
      }
      JoinTidy(Events(c, path + [order[0]], sortDicts), ChildEvents(v, order[1..], path, sortDicts));
    }
  }

  lemma AroundTidy(v: Benc, path: Path, inner: seq<Event>)
    requires Tidy(inner) && forall e :: e in inner ==> |e.path| > |path|
    ensures Tidy(Begin(v, path) + inner + End(v, path))
  {
    JoinTidy(Begin(v, path), inner);
    JoinTidy(Begin(v, path) + inner, End(v, path));
  }

  /**
   * In every walk, no node is visited twice, and nothing is called back for a
   * container or anything in it once its end has been announced.
   */
  lemma {:induction false} EventsTidy(v: Benc, path: Path, sortDicts: bool)
    requires Walkable(v, sortDicts)
    ensures Tidy(Events(v, path, sortDicts))
    decreases v, 1
  {
    OrderPermutes(v, sortDicts);
    var inner := ChildEvents(v, Order(v, sortDicts), path, sortDicts);
    ChildEventsTidy(v, Order(v, sortDicts), path, sortDicts);
    forall e | e in inner
      ensures |e.path| > |path|
    {
      var p := OnlyChildrenVisited(v, Order(v, sortDicts), path, sortDicts, e);
    }
    AroundTidy(v, path, inner);
  }

  // ---- freeing ------------------------------------------------------------

  /** The child arrays released by the first `n` callbacks of a freeing walk. */
  ghost function Released(events: seq<Event>, n: nat): set<Path>
    requires n <= |events|
  {
    set i | 0 <= i < n && events[i].OnEnd? :: events[i].path
  }

  lemma ContainerReleased(top: Benc, made: seq<Event>, p: Path)
    requires made == Events(top, [], false) && NodeAt(top, p).Some? && IsContainer(NodeAt(top, p).value)
    ensures p in Released(made, |made|)
  {
    EveryNodeVisited(top, [], false, p);
    EmptyPrefix(p);
    var i :| 0 <= i < |made| && made[i] == OnEnd(p);
    assert made[i].path in Released(made, |made|);
  }

  lemma OnlyContainersReleased(top: Benc, made: seq<Event>, p: Path)
    requires made == Events(top, [], false) && p in Released(made, |made|)
    ensures NodeAt(top, p).Some? && IsContainer(NodeAt(top, p).value)
  {
    var i :| 0 <= i < |made| && made[i].OnEnd? && made[i].path == p;
    var q := OnlyNodesVisited(top, [], false, made[i]);
    EmptyPrefix(q);
  }

  lemma EmptyPrefix(p: Path)
    ensures [] + p == p
  {
  }

  lemma ReleasedAfter(made: seq<Event>, n: nat, p: Path)
    requires Tidy(made) && n < |made| && p <= made[n].path
    ensures p !in Released(made, n)
  {
    forall i | 0 <= i < n
      ensures made[i].OnEnd? ==> made[i].path != p
    {
      assert MayFollow(made[i], made[n]);
    }
  }

  /**
   * tr_bencFree(): each child array is released exactly once, and when a
   * callback is made for a node, no array on the way down to it, nor its own,
   * has been released yet.
   */
  method Free(top: Benc) returns (made: seq<Event>)
    ensures forall p :: NodeAt(top, p).Some? && IsContainer(NodeAt(top, p).value) <==> p in Released(made, |made|)
    ensures forall n, p :: 0 <= n < |made| && p <= made[n].path ==> p !in Released(made, n)
  {
    made := Walk(top, false);
    EventsTidy(top, [], false);
    forall p
      ensures NodeAt(top, p).Some? && IsContainer(NodeAt(top, p).value) <==> p in Released(made, |made|)
    {
      if p in Released(made, |made|) {
        OnlyContainersReleased(top, made, p);
      } else if NodeAt(top, p).Some? && IsContainer(NodeAt(top, p).value) {
        ContainerReleased(top, made, p);
      }
    }
    forall n, p | 0 <= n < |made| && p <= made[n].path
      ensures p !in Released(made, n)
    {
      ReleasedAfter(made, n, p);
    }
  }
}
