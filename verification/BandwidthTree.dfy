/**
 * Many transfers over a tree of nodes between two allocations: what each node
 * is charged, and when that stays within what it was allotted.
 */
module BandwidthTree {
  import opened Bandwidths

  /** A set of nodes with all their ancestors. */
  ghost predicate Tree(nodes: set<Bandwidth>)
    reads nodes
  {
    forall b :: b in nodes ==> Inside(b, nodes) && b.Valid()
  }

  ghost predicate Inside(b: Bandwidth, nodes: set<Bandwidth>)
    reads b
  {
    forall c :: c in b.chain ==> c in nodes
  }

  /** Only the parents and chains matter for a node to be valid. */
  twostate lemma StillValid(b: Bandwidth)
    requires old(b.Valid())
    requires forall c :: c in old(b.chain) ==> c.chain == old(c.chain) && c.parent == old(c.parent)
    ensures b.Valid()
    decreases |old(b.chain)|
  {
    assert b == old(b.chain)[0];
    if b.parent != null {
      assert forall c :: c in old(b.parent.chain) ==> c in old(b.chain);
      StillValid(b.parent);
    }
  }

  /** What one node is to one direction: whether its limit is set, honours its parent's and what it was allotted. */
  twostate predicate SameNode(b: Bandwidth, dir: Direction)
    reads b
  {
    && b.chain == old(b.chain) && b.parent == old(b.parent)
    && b.BandOf(dir).isLimited == old(b.BandOf(dir).isLimited)
    && b.BandOf(dir).honorParentLimits == old(b.BandOf(dir).honorParentLimits)
    && b.BandOf(dir).desiredSpeed == old(b.BandOf(dir).desiredSpeed)
  }

  /** A transfer by the peer of one node. What the socket and the queue allow is an input. */
  datatype Order = Order(leaf: Bandwidth, wanted: nat, sent: nat, speeds: seq<nat>)

  ghost predicate OrderOk(o: Order, nodes: set<Bandwidth>)
    reads o.leaf
  {
    o.leaf in nodes && |o.speeds| == |o.leaf.chain|
  }

  /** The nodes that honour their parents' limits. */
  ghost function Honouring(nodes: set<Bandwidth>, dir: Direction): set<Bandwidth>
    reads nodes
  {
    set b | b in nodes && b.BandOf(dir).honorParentLimits
  }

  /** All the nodes of a chain below `b` are among `honouring`. */
  ghost predicate Bound(chain: seq<Bandwidth>, b: Bandwidth, honouring: set<Bandwidth>) {
    forall i, j :: 0 <= j < i < |chain| && chain[i] == b ==> chain[j] in honouring
  }

  /** The piece bytes moved below `b`. */
  ghost function MovedUnder(b: Bandwidth, moves: seq<nat>, chains: seq<seq<Bandwidth>>): nat
    requires |moves| <= |chains|
  {
    if moves == [] then 0
    else
      MovedUnder(b, moves[..|moves| - 1], chains)
        + if b in chains[|moves| - 1] then moves[|moves| - 1] else 0
  }

  lemma MovedMore(b: Bandwidth, moves: seq<nat>, chains: seq<seq<Bandwidth>>, n: nat)
    requires |moves| < |chains|
    ensures MovedUnder(b, moves + [n], chains) == MovedUnder(b, moves, chains) + if b in chains[|moves|] then n else 0
  {
    assert (moves + [n])[..|moves|] == moves;
  }

  /** How the account of a limited node stands after `moved` bytes since it was `was`. */
  ghost predicate InBooks(was: Account, now: Account, dir: Direction, moved: nat, bound: bool) {
    && now.Of(dir).isLimited == was.Of(dir).isLimited
    && (was.Of(dir).isLimited ==>
          && now.LedgerOf(dir) == Ledger(was.LedgerOf(dir).charged + moved, was.LedgerOf(dir).allotted)
          && (was.Settled(dir) ==> now.Settled(dir))
          && (bound && was.Balanced(dir) ==> now.Balanced(dir)))
  }

  lemma BooksGoOn(was: Account, now: Account, dir: Direction, moved: nat, bound: bool, n: nat)
    requires InBooks(was, now, dir, moved, bound)
    requires now.Of(dir).isLimited && bound ==> n <= now.Of(dir).bytesLeft
    ensures InBooks(was, AfterUse(now, dir, n, true), dir, moved + n, bound)
  {
  }

  lemma BoundCounts(nodes: set<Bandwidth>, leaf: Bandwidth, dir: Direction)
    requires leaf in nodes && Inside(leaf, nodes)
    ensures forall i :: 0 <= i < |leaf.chain| && Bound(leaf.chain, leaf.chain[i], Honouring(nodes, dir)) ==> leaf.Honoured(dir, i)
  {
  }

  /** One transfer, seen from the whole tree. */
  method Step(ghost nodes: set<Bandwidth>, o: Order, dir: Direction) returns (moved: nat)
    requires Tree(nodes) && OrderOk(o, nodes)
    modifies nodes
    ensures Moved(nodes, dir, old(o.leaf.chain), moved)
  {
    assert o.leaf.Valid() && Inside(o.leaf, nodes);
    ghost var chain := o.leaf.chain;
    BoundCounts(nodes, o.leaf, dir);
    moved := o.leaf.Transfer(dir, o.wanted, o.sent, o.speeds);
    forall b | b in nodes
      ensures SameNode(b, dir)
      ensures b.State() == if b in chain then AfterUse(old(b.State()), dir, moved, true) else old(b.State())
    {
      if b in chain {
        var i :| 0 <= i < |chain| && chain[i] == b;
      }
    }
    forall b | b in nodes
      ensures Inside(b, nodes) && b.Valid()
    {
      assert old(Inside(b, nodes));
      StillValid(b);
    }
  }

  // ---- whole runs ---------------------------------------------------------

  ghost predicate OrdersOk(orders: seq<Order>, nodes: set<Bandwidth>)
    reads nodes
  {
    forall i :: 0 <= i < |orders| ==> orders[i].leaf in nodes && OrderOk(orders[i], nodes)
  }

  /** The chains of the peers that make transfers. */
  ghost predicate Chains(orders: seq<Order>, nodes: set<Bandwidth>, chains: seq<seq<Bandwidth>>)
    requires OrdersOk(orders, nodes)
    reads nodes
  {
    |chains| == |orders| && forall i :: 0 <= i < |orders| ==> orders[i].leaf.chain == chains[i]
  }

  /** Whichever peer below `b` moves piece data, the limit of `b` counts for it. */
  ghost predicate AllBound(b: Bandwidth, chains: seq<seq<Bandwidth>>, honouring: set<Bandwidth>) {
    forall i :: 0 <= i < |chains| && b in chains[i] ==> Bound(chains[i], b, honouring)
  }

  /** What holds between two transfers of a run. */
  ghost predicate Running(nodes: set<Bandwidth>, orders: seq<Order>, dir: Direction, start: map<Bandwidth, Account>,
                          moves: seq<nat>, chains: seq<seq<Bandwidth>>, honouring: set<Bandwidth>)
    reads nodes
  {
    && Tree(nodes) && OrdersOk(orders, nodes) && Chains(orders, nodes, chains) && |moves| <= |orders|
    && honouring == Honouring(nodes, dir) && AllInBooks(nodes, dir, start, moves, chains, honouring)
  }

  /** The books of one node after one more transfer. */
  lemma NodeServed(b: Bandwidth, was: Account, before: Account, after: Account, dir: Direction, moves: seq<nat>,
                   chains: seq<seq<Bandwidth>>, bound: bool, n: nat)
    requires |moves| < |chains| && InBooks(was, before, dir, MovedUnder(b, moves, chains), bound)
    requires after == if b in chains[|moves|] then AfterUse(before, dir, n, true) else before
    requires before.Of(dir).isLimited && bound && b in chains[|moves|] ==> n <= before.Of(dir).bytesLeft
    ensures InBooks(was, after, dir, MovedUnder(b, moves + [n], chains), bound)
  {
    MovedMore(b, moves, chains, n);
    if b in chains[|moves|] {
      BooksGoOn(was, before, dir, MovedUnder(b, moves, chains), bound, n);
    }
  }

  ghost predicate AllInBooks(nodes: set<Bandwidth>, dir: Direction, start: map<Bandwidth, Account>,
                             moves: seq<nat>, chains: seq<seq<Bandwidth>>, honouring: set<Bandwidth>)
    requires |moves| <= |chains|
    reads nodes
  {
    forall b :: b in nodes ==>
      b in start && InBooks(start[b], b.State(), dir, MovedUnder(b, moves, chains), AllBound(b, chains, honouring))
  }

  lemma BooksServed(nodes: set<Bandwidth>, dir: Direction, start: map<Bandwidth, Account>, before: map<Bandwidth, Account>,
                    moves: seq<nat>, chains: seq<seq<Bandwidth>>, honouring: set<Bandwidth>, n: nat)
    requires |moves| < |chains|
    requires forall b :: b in nodes ==>
               && b in start && b in before
               && InBooks(start[b], before[b], dir, MovedUnder(b, moves, chains), AllBound(b, chains, honouring))
               && b.State() == if b in chains[|moves|] then AfterUse(before[b], dir, n, true) else before[b]
    requires forall b :: b in nodes && b in chains[|moves|] && before[b].Of(dir).isLimited && AllBound(b, chains, honouring)
               ==> n <= before[b].Of(dir).bytesLeft
    ensures AllInBooks(nodes, dir, start, moves + [n], chains, honouring)
  {
    forall b | b in nodes
      ensures InBooks(start[b], b.State(), dir, MovedUnder(b, moves + [n], chains), AllBound(b, chains, honouring))
    {
      NodeServed(b, start[b], before[b], b.State(), dir, moves, chains, AllBound(b, chains, honouring), n);
    }
  }

  /** What one transfer of a run does. */
  twostate predicate Moved(nodes: set<Bandwidth>, dir: Direction, chain: seq<Bandwidth>, n: nat)
    reads nodes
  {
    && Tree(nodes) && (forall b :: b in nodes ==> SameNode(b, dir))
    && (forall b :: b in nodes ==>
          b.State() == if b in chain then AfterUse(old(b.State()), dir, n, true) else old(b.State()))
    && forall b :: b in nodes && b in chain && old(b.BandOf(dir).isLimited) && Bound(chain, b, old(Honouring(nodes, dir)))
         ==> n <= old(b.BandOf(dir).bytesLeft)
  }

  /** One transfer, which leaves the shape of the tree alone. */
  method Take(ghost nodes: set<Bandwidth>, orders: seq<Order>, k: nat, dir: Direction, ghost chains: seq<seq<Bandwidth>>)
    returns (n: nat)
    requires k < |orders| && Tree(nodes) && OrdersOk(orders, nodes) && Chains(orders, nodes, chains)
    modifies nodes
    ensures Moved(nodes, dir, chains[k], n) && OrdersOk(orders, nodes) && Chains(orders, nodes, chains)
    ensures Honouring(nodes, dir) == old(Honouring(nodes, dir))
  {
    n := Step(nodes, orders[k], dir);
    forall i | 0 <= i < |orders|
      ensures orders[i].leaf in nodes && OrderOk(orders[i], nodes) && orders[i].leaf.chain == chains[i]
    {
      assert old(OrderOk(orders[i], nodes)) && SameNode(orders[i].leaf, dir);
    }
    forall b | b in nodes
      ensures b in Honouring(nodes, dir) <==> b in old(Honouring(nodes, dir))
    {
      assert SameNode(b, dir);
    }
  }

  method Serve(ghost nodes: set<Bandwidth>, orders: seq<Order>, dir: Direction, ghost start: map<Bandwidth, Account>,
               moves: seq<nat>, ghost chains: seq<seq<Bandwidth>>, ghost honouring: set<Bandwidth>)
    returns (n: nat)
    requires |moves| < |orders| && Running(nodes, orders, dir, start, moves, chains, honouring)
    modifies nodes
    ensures Running(nodes, orders, dir, start, moves + [n], chains, honouring)
    ensures forall b :: b in nodes ==> SameNode(b, dir)
  {
    ghost var before := map b | b in nodes :: b.State();
    n := Take(nodes, orders, |moves|, dir, chains);
    BooksServed(nodes, dir, start, before, moves, chains, honouring, n);
  }

  /** Each node's limit starts anew. */
  method AllotAll(nodes: seq<Bandwidth>, ghost all: set<Bandwidth>, dir: Direction, periodMsec: nat)
    requires Tree(all) && forall b :: b in all <==> b in nodes
    modifies all
    ensures Tree(all) && forall b :: b in all ==> SameNode(b, dir)
    ensures forall b :: b in all && b.BandOf(dir).isLimited ==>
              b.State().LedgerOf(dir) == Ledger(0, Allotment(b.BandOf(dir).desiredSpeed, periodMsec)) && b.State().Balanced(dir)
  {
    for i := 0 to |nodes|
      invariant forall b :: b in all ==> SameNode(b, dir)
      invariant forall b :: b in nodes[..i] && b.BandOf(dir).isLimited ==>
                  b.State().LedgerOf(dir) == Ledger(0, Allotment(b.BandOf(dir).desiredSpeed, periodMsec)) && b.State().Balanced(dir)
    {
      assert nodes[i] in all;
      nodes[i].Allot(dir, periodMsec);
      assert nodes[..i + 1] == nodes[..i] + [nodes[i]];
    }
    assert nodes[..|nodes|] == nodes;
    forall b | b in all
      ensures Inside(b, all) && b.Valid()
    {
      assert old(Inside(b, all));
      StillValid(b);
    }
  }

  /** Every limited node has just been allotted its share. */
  ghost predicate Allotted(a: Account, dir: Direction, periodMsec: nat) {
    a.Of(dir).isLimited ==>
      a.LedgerOf(dir) == Ledger(0, Allotment(a.Of(dir).desiredSpeed, periodMsec)) && a.Balanced(dir)
  }

  /** How a limited node's account stands after `moved` bytes since then. */
  ghost predicate Kept(a: Account, dir: Direction, periodMsec: nat, moved: nat, bound: bool) {
    a.Of(dir).isLimited ==>
      var allotted := Allotment(a.Of(dir).desiredSpeed, periodMsec);
      && a.LedgerOf(dir) == Ledger(moved, allotted)
      && a.Of(dir).bytesLeft == allotted - Min(allotted, moved)
      && (bound ==> moved <= allotted)
  }

  lemma KeptBooks(was: Account, now: Account, dir: Direction, periodMsec: nat, moved: nat, bound: bool)
    requires Allotted(was, dir, periodMsec) && InBooks(was, now, dir, moved, bound)
    requires now.Of(dir).desiredSpeed == was.Of(dir).desiredSpeed
    ensures Kept(now, dir, periodMsec, moved, bound)
  {
  }

  method AllotTree(nodes: seq<Bandwidth>, ghost all: set<Bandwidth>, ghost orders: seq<Order>, dir: Direction, periodMsec: nat,
                   ghost chains: seq<seq<Bandwidth>>)
    requires Tree(all) && (forall b :: b in all <==> b in nodes)
    requires OrdersOk(orders, all) && Chains(orders, all, chains)
    modifies all
    ensures Tree(all) && OrdersOk(orders, all) && Chains(orders, all, chains)
    ensures Honouring(all, dir) == old(Honouring(all, dir))
    ensures forall b :: b in all ==> SameNode(b, dir) && Allotted(b.State(), dir, periodMsec)
  {
    AllotAll(nodes, all, dir, periodMsec);
    forall i | 0 <= i < |orders|
      ensures orders[i].leaf in all && OrderOk(orders[i], all) && orders[i].leaf.chain == chains[i]
    {
      assert old(OrderOk(orders[i], all)) && SameNode(orders[i].leaf, dir);
    }
    forall b | b in all
      ensures b in Honouring(all, dir) <==> b in old(Honouring(all, dir))
    {
      assert SameNode(b, dir);
    }
  }

  /**
   * From one allocation to the next, over any transfers of at most their clamps
   * by any peers: each limited node is charged with exactly the piece bytes
   * moved below it, is left with its allotment less that or nothing, and, if
   * its limit counts for all who moved any, is never charged more than that.
   */
  method Pulse(nodes: seq<Bandwidth>, ghost all: set<Bandwidth>, orders: seq<Order>, dir: Direction, periodMsec: nat,
               ghost chains: seq<seq<Bandwidth>>)
    returns (moves: seq<nat>)
    requires Tree(all) && (forall b :: b in all <==> b in nodes)
    requires OrdersOk(orders, all) && Chains(orders, all, chains)
    modifies all
    ensures Tree(all) && |moves| == |orders| == |chains|
    ensures forall b :: b in all ==>
              SameNode(b, dir)
              && Kept(b.State(), dir, periodMsec, MovedUnder(b, moves, chains), AllBound(b, chains, old(Honouring(all, dir))))
  {
    ghost var honouring := Honouring(all, dir);
    AllotTree(nodes, all, orders, dir, periodMsec, chains);
    ghost var start := map b | b in all :: b.State();
    StartBooks(all, orders, dir, start, chains, honouring);
    moves := ServeAll(all, orders, dir, start, chains, honouring);
    forall b | b in all
      ensures Kept(b.State(), dir, periodMsec, MovedUnder(b, moves, chains), AllBound(b, chains, honouring))
    {
      assert Allotted(start[b], dir, periodMsec);
      KeptBooks(start[b], b.State(), dir, periodMsec, MovedUnder(b, moves, chains), AllBound(b, chains, honouring));
    }
  }

  lemma StartBooks(all: set<Bandwidth>, orders: seq<Order>, dir: Direction, start: map<Bandwidth, Account>,
                   chains: seq<seq<Bandwidth>>, honouring: set<Bandwidth>)
    requires Tree(all) && OrdersOk(orders, all) && Chains(orders, all, chains) && honouring == Honouring(all, dir)
    requires forall b :: b in all ==> b in start && start[b] == b.State()
    ensures Running(all, orders, dir, start, [], chains, honouring)
  {
  }

  method ServeAll(ghost nodes: set<Bandwidth>, orders: seq<Order>, dir: Direction, ghost start: map<Bandwidth, Account>,
                  ghost chains: seq<seq<Bandwidth>>, ghost honouring: set<Bandwidth>)
    returns (moves: seq<nat>)
    requires Running(nodes, orders, dir, start, [], chains, honouring)
    modifies nodes
    ensures |moves| == |orders| && Running(nodes, orders, dir, start, moves, chains, honouring)
    ensures forall b :: b in nodes ==> SameNode(b, dir)
  {
    moves := [];
    while |moves| < |orders|
      invariant Running(nodes, orders, dir, start, moves, chains, honouring)
      invariant forall b :: b in nodes ==> SameNode(b, dir)
      decreases |orders| - |moves|
    {
      var n := Serve(nodes, orders, dir, start, moves, chains, honouring);
      moves := moves + [n];
    }
  }
}
