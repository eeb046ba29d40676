/**
 * Sharing out the bandwidth among peers, a small chunk at a time. The order in
 * which peers are picked is random; what is proved holds for every order.
 */
module RoundRobin {
  import opened Bandwidths
  import opened PeerIos

  const INCREMENT: nat := 3000

  // ---- the books ----------------------------------------------------------

  /** Piece data peer `p` has moved from `start` to `now`. */
  function Gone(start: Pool, now: Pool, p: nat): nat
    requires p < |start.peers| == |now.peers|
  {
    if start.peers[p].piece <= now.peers[p].piece then now.peers[p].piece - start.peers[p].piece else 0
  }

  /** ... and all those of the first `n` peers that have node `k` above them. */
  ghost function Under(start: Pool, now: Pool, k: nat, n: nat): nat
    requires n <= |start.peers| == |now.peers|
  {
    if n == 0 then 0
    else Under(start, now, k, n - 1) + if k in start.peers[n - 1].chain then Gone(start, now, n - 1) else 0
  }

  ghost predicate SamePeer(was: Peer, now: Peer) {
    now.chain == was.chain && now.isUtp == was.isUtp && was.piece <= now.piece && now.room <= was.room
  }

  /** Every node has been charged with just the piece data of all the peers below it, whether its limit clamps them or not. */
  ghost predicate Accounted(start: Pool, now: Pool, dir: Direction) {
    && start.Valid() && now.Valid()
    && |now.peers| == |start.peers| && |now.accounts| == |start.accounts|
    && (forall p :: 0 <= p < |now.peers| ==> SamePeer(start.peers[p], now.peers[p]))
    && (forall k :: 0 <= k < |now.accounts| ==>
          now.accounts[k] == AfterUse(start.accounts[k], dir, Under(start, now, k, |now.peers|), true))
  }

  lemma {:induction false} UnderMoved(start: Pool, now: Pool, next: Pool, p: nat, q: nat, k: nat, n: nat)
    requires n <= |start.peers| == |now.peers| && p < |now.peers| && start.peers[p].piece <= now.peers[p].piece
    requires |next.peers| == |now.peers| && next.peers[p].piece == now.peers[p].piece + q
    requires forall r :: 0 <= r < |next.peers| && r != p ==> next.peers[r] == now.peers[r]
    ensures Under(start, next, k, n) == Under(start, now, k, n) + if p < n && k in start.peers[p].chain then q else 0
  {
    if n > 0 {
      UnderMoved(start, now, next, p, q, k, n - 1);
    }
  }

  lemma {:induction false} UnderNone(start: Pool, k: nat, n: nat)
    requires n <= |start.peers|
    ensures Under(start, start, k, n) == 0
  {
    if n > 0 {
      UnderNone(start, k, n - 1);
    }
  }

  lemma NothingMoved(start: Pool, dir: Direction)
    requires start.Valid()
    ensures Accounted(start, start, dir)
  {
    forall k | 0 <= k < |start.accounts|
      ensures start.accounts[k] == AfterUse(start.accounts[k], dir, Under(start, start, k, |start.peers|), true)
    {
      UnderNone(start, k, |start.peers|);
      UseTwice(start.accounts[k], dir, 0, 0);
    }
  }

  /** Piece data is charged to a node once for each peer below it. */
  lemma NodeAccounted(start: Pool, now: Pool, p: nat, dir: Direction, w: World, k: nat)
    requires Accounted(start, now, dir) && p < |now.peers| && k < |now.accounts|
    ensures var next := Flushed(now, p, dir, INCREMENT, w);
            next.accounts[k] == AfterUse(start.accounts[k], dir, Under(start, next, k, |next.peers|), true)
  {
    var q, next := Pieces(now, p, dir, INCREMENT, w), Flushed(now, p, dir, INCREMENT, w);
    assert SamePeer(start.peers[p], now.peers[p]);
    UnderMoved(start, now, next, p, q, k, |now.peers|);
    OneFlushed(now, p, dir, w, k);
    OnTop(start.accounts[k], now.accounts[k], next.accounts[k], dir, Under(start, now, k, |now.peers|),
          Under(start, next, k, |next.peers|), q, k in now.peers[p].chain);
  }

  lemma OneFlushed(now: Pool, p: nat, dir: Direction, w: World, k: nat)
    requires now.Valid() && p < |now.peers| && k < |now.accounts|
    ensures Flushed(now, p, dir, INCREMENT, w).accounts[k]
            == if k in now.peers[p].chain then AfterUse(now.accounts[k], dir, Pieces(now, p, dir, INCREMENT, w), true)
               else now.accounts[k]
  {
  }

  lemma OnTop(was: Account, now: Account, next: Account, dir: Direction, m: nat, n: nat, q: nat, below: bool)
    requires now == AfterUse(was, dir, m, true) && next == if below then AfterUse(now, dir, q, true) else now
    requires n == m + if below then q else 0
    ensures next == AfterUse(was, dir, n, true)
  {
    UseTwice(was, dir, m, q);
  }

  lemma StillAccounted(start: Pool, now: Pool, p: nat, dir: Direction, w: World)
    requires Accounted(start, now, dir) && p < |now.peers|
    ensures Accounted(start, Flushed(now, p, dir, INCREMENT, w), dir)
  {
    var next := Flushed(now, p, dir, INCREMENT, w);
    forall k | 0 <= k < |next.accounts|
      ensures next.accounts[k] == AfterUse(start.accounts[k], dir, Under(start, next, k, |next.peers|), true)
    {
      NodeAccounted(start, now, p, dir, w, k);
    }
    forall r | 0 <= r < |next.peers|
      ensures SamePeer(start.peers[r], next.peers[r])
    {
      assert SamePeer(start.peers[r], now.peers[r]);
    }
  }

  lemma {:induction false} UnderThrough(a: Pool, b: Pool, c: Pool, k: nat, n: nat)
    requires n <= |a.peers| == |b.peers| == |c.peers|
    requires forall p :: 0 <= p < |a.peers| ==> SamePeer(a.peers[p], b.peers[p]) && SamePeer(b.peers[p], c.peers[p])
    ensures Under(a, c, k, n) == Under(a, b, k, n) + Under(b, c, k, n)
  {
    if n > 0 {
      UnderThrough(a, b, c, k, n - 1);
    }
  }

  lemma AccountedThrough(a: Pool, b: Pool, c: Pool, dir: Direction)
    requires Accounted(a, b, dir) && Accounted(b, c, dir)
    ensures Accounted(a, c, dir)
  {
    forall k | 0 <= k < |c.accounts|
      ensures c.accounts[k] == AfterUse(a.accounts[k], dir, Under(a, c, k, |c.peers|), true)
    {
      UnderThrough(a, b, c, k, |c.peers|);
      UseTwice(a.accounts[k], dir, Under(a, b, k, |b.peers|), Under(b, c, k, |c.peers|));
    }
    forall p | 0 <= p < |c.peers|
      ensures SamePeer(a.peers[p], c.peers[p])
    {
      assert SamePeer(a.peers[p], b.peers[p]) && SamePeer(b.peers[p], c.peers[p]);
    }
  }

  /** A limited node is left with its allotment less all that, or with nothing. */
  lemma LeftOver(start: Pool, now: Pool, dir: Direction, k: nat)
    requires Accounted(start, now, dir) && k < |now.accounts|
    requires start.accounts[k].Of(dir).isLimited && start.accounts[k].Settled(dir)
    ensures var a, moved := now.accounts[k], Under(start, now, k, |now.peers|);
            && a.LedgerOf(dir).charged == start.accounts[k].LedgerOf(dir).charged + moved
            && a.LedgerOf(dir).allotted == start.accounts[k].LedgerOf(dir).allotted
            && a.Of(dir).bytesLeft == a.LedgerOf(dir).allotted - Min(a.LedgerOf(dir).allotted, a.LedgerOf(dir).charged)
  {
    UseSettles(start.accounts[k], dir, Under(start, now, k, |now.peers|));
  }

  // ---- the round ----------------------------------------------------------

  ghost function Rooms(peers: seq<Peer>): nat {
    if peers == [] then 0 else peers[0].room + Rooms(peers[1..])
  }

  lemma {:induction false} RoomsLess(peers: seq<Peer>, p: nat, peer: Peer)
    requires p < |peers| && peer.room <= peers[p].room
    ensures Rooms(peers[p := peer]) == Rooms(peers) - (peers[p].room - peer.room)
  {
    if p > 0 {
      assert peers[p := peer][1..] == peers[1..][p - 1 := peer];
      RoomsLess(peers[1..], p - 1, peer);
    } else {
      assert peers[p := peer][1..] == peers[1..];
    }
  }

  ghost predicate Known(peers: seq<nat>, count: nat) {
    forall i :: 0 <= i < |peers| ==> peers[i] < count
  }

  ghost predicate AllStuck(pool: Pool, peers: seq<nat>, dir: Direction) {
    forall i :: 0 <= i < |peers| ==> Stuck(pool, peers[i], dir)
  }

  lemma AllStay(pool: Pool, p: nat, dir: Direction, w: World, peers: seq<nat>)
    requires pool.Valid() && p < |pool.peers| && AllStuck(pool, peers, dir)
    ensures AllStuck(Flushed(pool, p, dir, INCREMENT, w), peers, dir)
  {
    forall i | 0 <= i < |peers|
      ensures Stuck(Flushed(pool, p, dir, INCREMENT, w), peers[i], dir)
    {
      StuckStays(pool, p, dir, INCREMENT, w, peers[i]);
    }
  }

  /** Peers outside the list are as they were. */
  ghost predicate Spared(start: Pool, now: Pool, peers: seq<nat>) {
    |now.peers| == |start.peers| && forall p :: 0 <= p < |now.peers| && p !in peers ==> now.peers[p] == start.peers[p]
  }

  /**
   * A round of plain sending: no speed is ever close to its limit, and the
   * peers listed have nothing but piece data queued and queue nothing more.
   */
  ghost predicate Plain(pool: Pool, dir: Direction, w: World, listed: seq<nat>) {
    && pool.Valid() && dir == Up
    && (forall t: nat :: w.queued(t) == [])
    && (forall t: nat, k: nat :: k < |pool.accounts| ==> Ratio(w.speed(t, k), pool.accounts[k].down.desiredSpeed) <= 0.8)
    && forall p :: p in listed ==> p < |pool.peers| && AllPiece(pool.peers[p].queue)
  }

  lemma PlainIsCalm(pool: Pool, w: World, listed: seq<nat>, p: nat)
    requires Plain(pool, Up, w, listed) && p < |pool.peers|
    ensures Calm(pool, p, Up, w)
  {
    var levels, chain := LevelsOf(pool, p, Up, w), pool.peers[p].chain;
    forall i: nat | i < |levels|
      ensures levels[i].Calm()
    {
      assert Ratio(w.speed(pool.turn, chain[i]), pool.accounts[chain[i]].down.desiredSpeed) <= 0.8;
    }
  }

  lemma StillPlain(pool: Pool, w: World, listed: seq<nat>, p: nat)
    requires Plain(pool, Up, w, listed) && p in listed
    ensures Plain(Flushed(pool, p, Up, INCREMENT, w), Up, w, listed)
  {
    AmountFits(pool, p, Up, INCREMENT, w);
    var next, peer := Flushed(pool, p, Up, INCREMENT, w), pool.peers[p];
    PieceOnly(peer.queue, Amount(pool, p, Up, INCREMENT, w));
    assert next.peers[p].queue == Rest(peer.queue, Amount(pool, p, Up, INCREMENT, w));
    forall t: nat, k: nat | k < |next.accounts|
      ensures Ratio(w.speed(t, k), next.accounts[k].down.desiredSpeed) <= 0.8
    {
      assert next.accounts[k].down.desiredSpeed == pool.accounts[k].down.desiredSpeed;
    }
    forall q | q in listed
      ensures q < |next.peers| && AllPiece(next.peers[q].queue)
    {
      assert q < |pool.peers| && AllPiece(pool.peers[q].queue);
    }
  }

  lemma PlainDropped(pool: Pool, w: World, listed: seq<nat>, p: nat)
    requires Plain(pool, Up, w, listed) && p in listed && Amount(pool, p, Up, INCREMENT, w) != INCREMENT
    ensures Stuck(Flushed(pool, p, Up, INCREMENT, w), p, Up)
  {
    AmountFits(pool, p, Up, INCREMENT, w);
    PlainIsCalm(pool, w, listed, p);
    PieceOnly(pool.peers[p].queue, Amount(pool, p, Up, INCREMENT, w));
    DroppedStuck(pool, p, INCREMENT, w);
  }

  /** Between flushes: the peers from `n` on are done. */
  ghost predicate Going(peers: seq<nat>, listed: seq<nat>, n: nat, start: Pool, pool: Pool, dir: Direction, w: World, plain: bool) {
    && n <= |peers| && multiset(peers) == multiset(listed) && Known(listed, |start.peers|)
    && Accounted(start, pool, dir) && Spared(start, pool, listed)
    && (plain ==> Plain(pool, dir, w, listed) && AllStuck(pool, peers[n..], dir))
  }

  lemma Listed(peers: seq<nat>, listed: seq<nat>, i: nat)
    requires multiset(peers) == multiset(listed) && i < |peers|
    ensures peers[i] in listed
  {
    assert peers[i] in multiset(peers);
    assert peers[i] in multiset(listed);
  }

  /** One flush leaves the books balanced, and uses up room in the socket. */
  lemma GoesOn(peers: seq<nat>, listed: seq<nat>, n: nat, start: Pool, pool: Pool, dir: Direction, w: World, plain: bool, p: nat)
    requires Going(peers, listed, n, start, pool, dir, w, plain) && p in listed && p < |pool.peers|
    ensures Going(peers, listed, n, start, Flushed(pool, p, dir, INCREMENT, w), dir, w, plain)
    ensures Rooms(Flushed(pool, p, dir, INCREMENT, w).peers) == Rooms(pool.peers) - Amount(pool, p, dir, INCREMENT, w)
  {
    AmountFits(pool, p, dir, INCREMENT, w);
    StillAccounted(start, pool, p, dir, w);
    RoomsLess(pool.peers, p, PeerAfter(pool, p, dir, INCREMENT, w));
    if plain {
      StillPlain(pool, w, listed, p);
      AllStay(pool, p, dir, w, peers[n..]);
    }
  }

  lemma OrStops(peers: seq<nat>, listed: seq<nat>, n: nat, start: Pool, pool: Pool, dir: Direction, w: World, plain: bool, p: nat)
    requires Going(peers, listed, n, start, pool, dir, w, plain) && p in listed && p < |pool.peers|
    requires Amount(pool, p, dir, INCREMENT, w) != INCREMENT
    ensures plain ==> Stuck(Flushed(pool, p, dir, INCREMENT, w), p, dir)
  {
    if plain {
      PlainDropped(pool, w, listed, p);
    }
  }

  /** A peer that is done changes places with the last one in play. */
  lemma Dropped(peers: seq<nat>, listed: seq<nat>, n: nat, start: Pool, pool: Pool, dir: Direction, w: World, plain: bool,
                i: nat, after: seq<nat>)
    requires Going(peers, listed, n, start, pool, dir, w, plain) && i < n && (plain ==> Stuck(pool, peers[i], dir))
    requires after == peers[i := peers[n - 1]][n - 1 := peers[i]]
    ensures Going(after, listed, n - 1, start, pool, dir, w, plain)
  {
    var done := after[n - 1..];
    assert done == [peers[i]] + peers[n..];
    if plain {
      forall j | 0 <= j < |done|
        ensures Stuck(pool, done[j], dir)
      {
        assert j > 0 ==> done[j] == peers[n..][j - 1];
      }
    }
  }

  method Serve(ghost peers: seq<nat>, ghost listed: seq<nat>, ghost n: nat, ghost start: Pool, pool: Pool, dir: Direction, w: World,
               ghost plain: bool, p: nat)
    returns (bytesUsed: nat, next: Pool)
    requires Going(peers, listed, n, start, pool, dir, w, plain) && p in listed && p < |pool.peers|
    ensures bytesUsed <= INCREMENT && Going(peers, listed, n, start, next, dir, w, plain)
    ensures Rooms(next.peers) == Rooms(pool.peers) - bytesUsed
    ensures plain && bytesUsed != INCREMENT ==> Stuck(next, p, dir)
  {
    AmountFits(pool, p, dir, INCREMENT, w);
    bytesUsed, next := Flush(pool, p, dir, INCREMENT, w);
    GoesOn(peers, listed, n, start, pool, dir, w, plain, p);
    if bytesUsed != INCREMENT {
      OrStops(peers, listed, n, start, pool, dir, w, plain, p);
    }
  }

  method Round(peers: array<nat>, ghost listed: seq<nat>, n: nat, ghost start: Pool, pool: Pool, dir: Direction, w: World,
               ghost plain: bool)
    returns (n': nat, next: Pool)
    requires 0 < n && Going(peers[..], listed, n, start, pool, dir, w, plain)
    modifies peers
    ensures Going(peers[..], listed, n', start, next, dir, w, plain)
    ensures Rooms(next.peers) < Rooms(pool.peers) || (Rooms(next.peers) == Rooms(pool.peers) && n' < n)
  {
    var i: nat :| i < n;
    Listed(peers[..], listed, i);
    var p := peers[i];
    var bytesUsed;
    bytesUsed, next := Serve(peers[..], listed, n, start, pool, dir, w, plain, p);
    n' := n;
    if bytesUsed != INCREMENT {
      MoveToEnd(peers, listed, n, start, next, dir, w, plain, i);
      n' := n - 1;
    }
  }

  method MoveToEnd(peers: array<nat>, ghost listed: seq<nat>, n: nat, ghost start: Pool, ghost pool: Pool, ghost dir: Direction,
                   ghost w: World, ghost plain: bool, i: nat)
    requires i < n && Going(peers[..], listed, n, start, pool, dir, w, plain) && (plain ==> Stuck(pool, peers[i], dir))
    modifies peers
    ensures Going(peers[..], listed, n - 1, start, pool, dir, w, plain)
  {
    ghost var before := peers[..];
    peers[i], peers[n - 1] := peers[n - 1], peers[i];
    assert peers[..] == before[i := before[n - 1]][n - 1 := before[i]];
    Dropped(before, listed, n, start, pool, dir, w, plain, i, peers[..]);
  }

  /**
   * phaseOne(): ends, whatever the order of picks, with every node charged for
   * just the piece data moved below it; and after a round of plain sending, no
   * peer of the list could go on.
   */
  method PhaseOne(peers: array<nat>, start: Pool, dir: Direction, w: World) returns (pool: Pool)
    requires start.Valid() && Known(peers[..], |start.peers|)
    modifies peers
    ensures multiset(peers[..]) == multiset(old(peers[..]))
    ensures Accounted(start, pool, dir) && Spared(start, pool, old(peers[..]))
    ensures Plain(start, dir, w, old(peers[..])) ==> Plain(pool, dir, w, old(peers[..])) && AllStuck(pool, peers[..], dir)
  {
    ghost var listed, plain := peers[..], Plain(start, dir, w, peers[..]);
    pool := start;
    var n: nat := peers.Length;
    NothingMoved(start, dir);
    while n > 0
      invariant Going(peers[..], listed, n, start, pool, dir, w, plain)
      decreases Rooms(pool.peers), n
    {
      n, pool := Round(peers, listed, n, start, pool, dir, w, plain);
    }
    assert peers[..][0..] == peers[..];
  }

  // ---- protocol messages first --------------------------------------------

  /** The protocol messages at the front of a queue. */
  function Leading(queue: seq<Chunk>): (r: nat)
    ensures r <= Length(queue)
  {
    if queue == [] || queue[0].isPieceData then 0 else queue[0].length + Leading(queue[1..])
  }

  lemma {:induction false} LeadingIsFree(queue: seq<Chunk>, n: nat)
    requires n <= Leading(queue)
    ensures PieceIn(queue, n) == 0
  {
    if n > 0 && queue[0].length <= n {
      LeadingIsFree(queue[1..], n - queue[0].length);
    }
  }

  lemma {:induction false} NoneLeading(queue: seq<Chunk>)
    requires AllPiece(queue)
    ensures Leading(queue) == 0
  {
  }

  /** tr_peerIoFlushOutgoingProtocolMsgs(): writes none of the piece data, and costs no node anything. */
  method FlushProtocol(pool: Pool, p: nat, w: World) returns (next: Pool)
    requires pool.Valid() && p < |pool.peers|
    ensures next.Valid() && next.accounts == pool.accounts && |next.peers| == |pool.peers|
    ensures forall q :: 0 <= q < |next.peers| ==>
              SamePeer(pool.peers[q], next.peers[q]) && next.peers[q].piece == pool.peers[q].piece
    ensures forall q :: 0 <= q < |next.peers| && (q != p || Leading(pool.peers[p].queue) == 0) ==> next.peers[q] == pool.peers[q]
  {
    var n;
    var limit := Leading(pool.peers[p].queue);
    AmountFits(pool, p, Up, limit, w);
    LeadingIsFree(pool.peers[p].queue, Amount(pool, p, Up, limit, w));
    ChargeTwice(pool.accounts, pool.peers[p].chain, Up, 0, 0, true);
    n, next := Flush(pool, p, Up, limit, w);
    assert pool.peers[p].queue + [] == pool.peers[p].queue;
  }

  // ---- the three priorities -----------------------------------------------

  datatype Priority = Low | Normal | High {
    function Rank(): nat {
      match this
      case Low => 0
      case Normal => 1
      case High => 2
    }
  }

  /** The peers of some priority or a higher one. */
  function AtLeast(peers: seq<nat>, priority: seq<Priority>, rank: nat): seq<nat>
    requires Known(peers, |priority|)
  {
    if peers == [] then []
    else
      AtLeast(peers[..|peers| - 1], priority, rank)
        + if priority[peers[|peers| - 1]].Rank() >= rank then [peers[|peers| - 1]] else []
  }

  lemma KnownPart(peers: seq<nat>, part: seq<nat>, count: nat)
    requires Known(peers, count) && forall p :: p in part ==> p in peers
    ensures Known(part, count)
  {
    forall i | 0 <= i < |part|
      ensures part[i] < count
    {
      assert part[i] in peers;
    }
  }

  lemma {:induction false} AtLeastIs(peers: seq<nat>, priority: seq<Priority>, rank: nat, p: nat)
    requires Known(peers, |priority|)
    ensures p in AtLeast(peers, priority, rank) <==> p in peers && p < |priority| && priority[p].Rank() >= rank
  {
    if peers != [] {
      var n := |peers| - 1;
      assert peers == peers[..n] + [peers[n]];
      AtLeastIs(peers[..n], priority, rank, p);
    }
  }

  /** The cases of the switch fall through: a peer is in its own list and in those of all lower priorities. */
  method Lists(peers: seq<nat>, priority: seq<Priority>) returns (high: seq<nat>, normal: seq<nat>, low: seq<nat>)
    requires Known(peers, |priority|)
    ensures high == AtLeast(peers, priority, 2) && normal == AtLeast(peers, priority, 1) && low == AtLeast(peers, priority, 0)
  {
    high, normal, low := [], [], [];
    for i := 0 to |peers|
      invariant high == AtLeast(peers[..i], priority, 2) && normal == AtLeast(peers[..i], priority, 1)
      invariant low == AtLeast(peers[..i], priority, 0)
    {
      assert peers[..i + 1][..i] == peers[..i];
      if priority[peers[i]] == High {
        high := high + [peers[i]];
      }
      if priority[peers[i]] != Low {
        normal := normal + [peers[i]];
      }
      low := low + [peers[i]];
    }
    assert peers[..|peers|] == peers;
  }

  ghost predicate Ranked(part: seq<nat>, peers: seq<nat>, priority: seq<Priority>, rank: nat) {
    Known(part, |priority|) && forall p :: p in part <==> p in peers && p < |priority| && priority[p].Rank() >= rank
  }

  method ByPriority(peers: seq<nat>, priority: seq<Priority>) returns (high: seq<nat>, normal: seq<nat>, low: seq<nat>)
    requires Known(peers, |priority|)
    ensures Ranked(high, peers, priority, 2) && Ranked(normal, peers, priority, 1) && Ranked(low, peers, priority, 0)
  {
    high, normal, low := Lists(peers, priority);
    RankedPart(peers, priority, 2);
    RankedPart(peers, priority, 1);
    RankedPart(peers, priority, 0);
  }

  lemma RankedPart(peers: seq<nat>, priority: seq<Priority>, rank: nat)
    requires Known(peers, |priority|)
    ensures Ranked(AtLeast(peers, priority, rank), peers, priority, rank)
  {
    forall p: nat
      ensures p in AtLeast(peers, priority, rank) <==> p in peers && p < |priority| && priority[p].Rank() >= rank
    {
      AtLeastIs(peers, priority, rank, p);
    }
    KnownPart(peers, AtLeast(peers, priority, rank), |priority|);
  }

  method Phase(peers: seq<nat>, start: Pool, dir: Direction, w: World) returns (pool: Pool)
    requires start.Valid() && Known(peers, |start.peers|)
    ensures Accounted(start, pool, dir) && Spared(start, pool, peers)
    ensures Plain(start, dir, w, peers) ==> Plain(pool, dir, w, peers) && forall p :: p in peers ==> Stuck(pool, p, dir)
  {
    var a := new nat[|peers|](i requires 0 <= i < |peers| => peers[i]);
    assert a[..] == peers;
    pool := PhaseOne(a, start, dir, w);
    if Plain(start, dir, w, peers) {
      forall p | p in peers
        ensures Stuck(pool, p, dir)
      {
        assert p in multiset(peers) && p in multiset(a[..]);
      }
    }
  }

  /** FlushProtocol() for every peer. */
  method FlushAllProtocol(peers: seq<nat>, start: Pool, w: World) returns (pool: Pool)
    requires start.Valid() && Known(peers, |start.peers|)
    ensures pool.Valid() && pool.accounts == start.accounts && |pool.peers| == |start.peers|
    ensures forall q :: 0 <= q < |pool.peers| ==>
              SamePeer(start.peers[q], pool.peers[q]) && pool.peers[q].piece == start.peers[q].piece
    ensures forall q :: 0 <= q < |pool.peers| && (q !in peers || Leading(start.peers[q].queue) == 0) ==>
              pool.peers[q] == start.peers[q]
  {
    pool := start;
    for i := 0 to |peers|
      invariant pool.Valid() && pool.accounts == start.accounts && |pool.peers| == |start.peers|
      invariant forall q :: 0 <= q < |pool.peers| ==>
                  SamePeer(start.peers[q], pool.peers[q]) && pool.peers[q].piece == start.peers[q].piece
      invariant forall q :: 0 <= q < |pool.peers| && (q !in peers || Leading(start.peers[q].queue) == 0) ==>
                  pool.peers[q] == start.peers[q]
    {
      pool := FlushProtocol(pool, peers[i], w);
    }
  }

  lemma ProtocolIsFree(start: Pool, pool: Pool, dir: Direction)
    requires start.Valid() && pool.Valid() && pool.accounts == start.accounts && |pool.peers| == |start.peers|
    requires forall q :: 0 <= q < |pool.peers| ==>
               SamePeer(start.peers[q], pool.peers[q]) && pool.peers[q].piece == start.peers[q].piece
    ensures Accounted(start, pool, dir)
  {
    forall k | 0 <= k < |pool.accounts|
      ensures pool.accounts[k] == AfterUse(start.accounts[k], dir, Under(start, pool, k, |pool.peers|), true)
    {
      UnderFree(start, pool, k, |pool.peers|);
      UseTwice(start.accounts[k], dir, 0, 0);
    }
  }

  lemma {:induction false} UnderFree(start: Pool, pool: Pool, k: nat, n: nat)
    requires n <= |start.peers| == |pool.peers|
    requires forall q :: 0 <= q < |pool.peers| ==> pool.peers[q].piece == start.peers[q].piece
    ensures Under(start, pool, k, n) == 0
  {
    if n > 0 {
      UnderFree(start, pool, k, n - 1);
    }
  }

  lemma PlainPart(pool: Pool, dir: Direction, w: World, all: seq<nat>, part: seq<nat>)
    requires Plain(pool, dir, w, all) && forall p :: p in part ==> p in all
    ensures Plain(pool, dir, w, part)
  {
  }

  /** A phase for some of the peers of a plain round leaves it plain. */
  lemma PlainThrough(before: Pool, after: Pool, dir: Direction, w: World, all: seq<nat>, part: seq<nat>)
    requires Plain(before, dir, w, all) && Plain(after, dir, w, part) && Spared(before, after, part)
    ensures Plain(after, dir, w, all)
  {
    forall p | p in all
      ensures p < |after.peers| && AllPiece(after.peers[p].queue)
    {
      assert p < |before.peers| && AllPiece(before.peers[p].queue);
    }
  }

  method PhasePart(part: seq<nat>, ghost all: seq<nat>, start: Pool, dir: Direction, w: World) returns (pool: Pool)
    requires start.Valid() && Known(all, |start.peers|) && Known(part, |start.peers|) && forall p :: p in part ==> p in all
    ensures Accounted(start, pool, dir) && Spared(start, pool, part)
    ensures Plain(start, dir, w, all) ==> Plain(pool, dir, w, all) && forall p :: p in part ==> Stuck(pool, p, dir)
  {
    if Plain(start, dir, w, all) {
      PlainPart(start, dir, w, all, part);
    }
    pool := Phase(part, start, dir, w);
    if Plain(start, dir, w, all) {
      PlainThrough(start, pool, dir, w, all, part);
    }
  }

  /** The order in which a pool is served: protocol messages, then three rounds. */
  ghost predicate Stages(start: Pool, served: seq<Pool>, dir: Direction, w: World, peers: seq<nat>, priority: seq<Priority>)
    requires |priority| == |start.peers|
  {
    && |served| == 4
    && Accounted(start, served[0], dir) && Accounted(served[0], served[1], dir)
    && Accounted(served[1], served[2], dir) && Accounted(served[2], served[3], dir)
    && served[0].accounts == start.accounts
    && (forall p :: 0 <= p < |priority| && priority[p] != High ==> served[1].peers[p] == served[0].peers[p])
    && (forall p :: 0 <= p < |priority| && priority[p] == Low ==> served[2].peers[p] == served[0].peers[p])
    && (Plain(start, dir, w, peers) ==>
          && (forall p :: p in peers && p < |priority| && priority[p] == High ==> Stuck(served[1], p, dir))
          && (forall p :: p in peers && p < |priority| && priority[p] != Low ==> Stuck(served[2], p, dir))
          && (forall p :: p in peers ==> Stuck(served[3], p, dir)))
  }

  /**
   * The first phase of tr_bandwidthAllocate(): protocol messages go first and
   * cost nothing; peers of high priority are served alone, then those of normal
   * priority with them, then all, each round after plain sending until none of
   * its peers can go on; and every node is charged for just the piece data
   * moved below it.
   */
  method Allocate(peers: seq<nat>, priority: seq<Priority>, start: Pool, dir: Direction, w: World)
    returns (pool: Pool, ghost served: seq<Pool>)
    requires start.Valid() && |priority| == |start.peers| && Known(peers, |start.peers|)
    ensures Stages(start, served, dir, w, peers, priority) && pool == served[3] && Accounted(start, pool, dir)
  {
    var high, normal, low := ByPriority(peers, priority);
    var free := FlushAllProtocol(peers, start, w);
    ProtocolIsFree(start, free, dir);
    if Plain(start, dir, w, peers) {
      PlainFlushed(start, free, dir, w, peers);
    }
    var afterHigh := PhasePart(high, peers, free, dir, w);
    AccountedThrough(start, free, afterHigh, dir);
    var afterNormal := PhasePart(normal, peers, afterHigh, dir, w);
    AccountedThrough(start, afterHigh, afterNormal, dir);
    pool := PhasePart(low, peers, afterNormal, dir, w);
    AccountedThrough(start, afterNormal, pool, dir);
    served := [free, afterHigh, afterNormal, pool];
  }

  lemma PlainFlushed(start: Pool, free: Pool, dir: Direction, w: World, peers: seq<nat>)
    requires Plain(start, dir, w, peers) && free.Valid() && free.accounts == start.accounts && |free.peers| == |start.peers|
    requires forall q :: 0 <= q < |free.peers| && (q !in peers || Leading(start.peers[q].queue) == 0) ==>
               free.peers[q] == start.peers[q]
    ensures Plain(free, dir, w, peers)
  {
    forall p | p in peers
      ensures p < |free.peers| && AllPiece(free.peers[p].queue)
    {
      NoneLeading(start.peers[p].queue);
    }
  }
}
