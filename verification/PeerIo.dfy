/**
 * A peer's connection as the bandwidth nodes see it: a queue of piece data and
 * protocol messages, and flushes that are clamped, moved and charged. Limits
 * clamp as far up as they are honoured; piece data is charged all the way up.
 */
module PeerIos {
  import opened Bandwidths

  /** A stretch of the output buffer. */
  datatype Chunk = Chunk(length: nat, isPieceData: bool)

  /**
   * `chain` lists the peer's node and its ancestors. `room` is what the socket
   * will still take, or give. `piece` counts the piece data moved so far.
   */
  datatype Peer = Peer(chain: seq<nat>, isUtp: bool, queue: seq<Chunk>, room: nat, piece: nat)

  /** The nodes' accounts, the peers, and how many flushes there have been. */
  datatype Pool = Pool(accounts: seq<Account>, peers: seq<Peer>, turn: nat) {
    ghost predicate Valid() {
      forall p :: 0 <= p < |peers| ==> ChainOk(peers[p].chain, |accounts|)
    }
  }

  /** What each flush meets with: measured speeds, piece data among what is read, and what is queued in answer. */
  datatype World = World(speed: (nat, nat) -> nat, pieceRead: nat -> nat, queued: nat -> seq<Chunk>)

  ghost predicate ChainOk(chain: seq<nat>, count: nat) {
    chain != [] && forall i :: 0 <= i < |chain| ==> chain[i] < count
  }

  // ---- the output queue ---------------------------------------------------

  function Length(queue: seq<Chunk>): nat {
    if queue == [] then 0 else queue[0].length + Length(queue[1..])
  }

  /** The queue after its first `n` bytes have been written. */
  function Rest(queue: seq<Chunk>, n: nat): seq<Chunk>
    requires n <= Length(queue)
  {
    if n == 0 then queue
    else if queue[0].length <= n then Rest(queue[1..], n - queue[0].length)
    else [Chunk(queue[0].length - n, queue[0].isPieceData)] + queue[1..]
  }

  /** The piece data among the first `n` bytes. */
  function PieceIn(queue: seq<Chunk>, n: nat): (r: nat)
    requires n <= Length(queue)
    ensures r <= n
  {
    if n == 0 then 0
    else
      var payload := Min(queue[0].length, n);
      (if queue[0].isPieceData then payload else 0)
        + if queue[0].length <= n then PieceIn(queue[1..], n - payload) else 0
  }

  lemma {:induction false} RestLength(queue: seq<Chunk>, n: nat)
    requires n <= Length(queue)
    ensures Length(Rest(queue, n)) == Length(queue) - n
  {
    if n > 0 && queue[0].length <= n {
      RestLength(queue[1..], n - queue[0].length);
    }
  }

  lemma {:induction false} LengthJoins(a: seq<Chunk>, b: seq<Chunk>)
    ensures Length(a + b) == Length(a) + Length(b)
  {
    if a == [] {
      assert a + b == b;
    } else {
      assert (a + b)[1..] == a[1..] + b;
      LengthJoins(a[1..], b);
    }
  }

  /** A queue of nothing but piece data. */
  predicate AllPiece(queue: seq<Chunk>) {
    forall i :: 0 <= i < |queue| ==> queue[i].isPieceData
  }

  lemma {:induction false} PieceOnly(queue: seq<Chunk>, n: nat)
    requires n <= Length(queue) && AllPiece(queue)
    ensures PieceIn(queue, n) == n && AllPiece(Rest(queue, n))
  {
    if n > 0 && queue[0].length <= n {
      PieceOnly(queue[1..], n - queue[0].length);
    }
  }

  // ---- charging -----------------------------------------------------------

  /** tr_bandwidthUsed() up a chain. */
  function Charge(accounts: seq<Account>, chain: seq<nat>, dir: Direction, bytes: nat, isPieceData: bool): (r: seq<Account>)
    ensures |r| == |accounts|
    ensures forall k :: 0 <= k < |r| ==>
              r[k] == if k in chain then AfterUse(accounts[k], dir, bytes, isPieceData) else accounts[k]
  {
    seq(|accounts|, k requires 0 <= k < |accounts| =>
      if k in chain then AfterUse(accounts[k], dir, bytes, isPieceData) else accounts[k])
  }

  /** Charges add up, down to where nothing is left. */
  lemma UseTwice(a: Account, dir: Direction, m: nat, n: nat)
    ensures AfterUse(AfterUse(a, dir, m, true), dir, n, true) == AfterUse(a, dir, m + n, true)
    ensures AfterUse(a, dir, m, false) == a && AfterUse(a, dir, 0, true) == a
  {
  }

  lemma ChargeTwice(accounts: seq<Account>, chain: seq<nat>, dir: Direction, m: nat, n: nat, isPieceData: bool)
    ensures Charge(Charge(accounts, chain, dir, m, true), chain, dir, n, isPieceData)
            == Charge(accounts, chain, dir, if isPieceData then m + n else m, true)
    ensures Charge(accounts, chain, dir, 0, true) == accounts
  {
    forall k | 0 <= k < |accounts|
      ensures AfterUse(AfterUse(accounts[k], dir, m, true), dir, n, isPieceData)
              == AfterUse(accounts[k], dir, if isPieceData then m + n else m, true)
      ensures AfterUse(accounts[k], dir, 0, true) == accounts[k]
    {
      UseTwice(accounts[k], dir, m, n);
      UseTwice(AfterUse(accounts[k], dir, m, true), dir, n, 0);
    }
  }

  /** `left` bytes of `queue` are still to be dealt with; `piece` bytes of piece data have been charged. */
  ghost predicate Writing(accounts: seq<Account>, peer: Peer, written: nat, now: seq<Account>, queue: seq<Chunk>, left: nat, piece: nat)
    requires written <= Length(peer.queue)
  {
    && left <= Length(queue) && Rest(queue, left) == Rest(peer.queue, written)
    && piece + PieceIn(queue, left) == PieceIn(peer.queue, written)
    && now == Charge(accounts, peer.chain, Up, piece, true)
  }

  /** The queue when `payload` bytes of its first chunk are gone. */
  function Shortened(queue: seq<Chunk>, payload: nat): seq<Chunk>
    requires queue != [] && payload <= queue[0].length
  {
    if payload == queue[0].length then queue[1..]
    else [Chunk(queue[0].length - payload, queue[0].isPieceData)] + queue[1..]
  }

  lemma WritingStep(accounts: seq<Account>, peer: Peer, written: nat, now: seq<Account>, queue: seq<Chunk>, left: nat, piece: nat)
    returns (more: nat)
    requires written <= Length(peer.queue) && Writing(accounts, peer, written, now, queue, left, piece) && left > 0
    ensures queue != []
    ensures var payload := Min(queue[0].length, left);
            Writing(accounts, peer, written, Charge(now, peer.chain, Up, payload, queue[0].isPieceData),
                    Shortened(queue, payload), left - payload, more)
  {
    QueueStep(queue, left);
    var payload := Min(queue[0].length, left);
    more := WritingOn(accounts, peer, written, now, queue, left, piece, Shortened(queue, payload), payload, queue[0].isPieceData);
  }

  lemma WritingOn(accounts: seq<Account>, peer: Peer, written: nat, now: seq<Account>, queue: seq<Chunk>, left: nat, piece: nat,
                  next: seq<Chunk>, payload: nat, isPieceData: bool)
    returns (more: nat)
    requires written <= Length(peer.queue) && Writing(accounts, peer, written, now, queue, left, piece)
    requires payload <= left && left - payload <= Length(next) && Rest(next, left - payload) == Rest(queue, left)
    requires PieceIn(queue, left) == (if isPieceData then payload else 0) + PieceIn(next, left - payload)
    ensures Writing(accounts, peer, written, Charge(now, peer.chain, Up, payload, isPieceData), next, left - payload, more)
  {
    more := if isPieceData then piece + payload else piece;
    ChargeTwice(accounts, peer.chain, Up, piece, payload, isPieceData);
  }

  lemma QueueStep(queue: seq<Chunk>, left: nat)
    requires 0 < left <= Length(queue)
    ensures queue != []
    ensures var payload := Min(queue[0].length, left);
            && left - payload <= Length(Shortened(queue, payload))
            && Rest(Shortened(queue, payload), left - payload) == Rest(queue, left)
            && PieceIn(queue, left) == (if queue[0].isPieceData then payload else 0) + PieceIn(Shortened(queue, payload), left - payload)
  {
  }

  /** didWriteWrapper(): the bytes written leave the queue; those that are piece data, and no others, are charged. */
  method DidWrite(accounts: seq<Account>, peer: Peer, written: nat) returns (now: seq<Account>, queue: seq<Chunk>)
    requires written <= Length(peer.queue)
    ensures now == Charge(accounts, peer.chain, Up, PieceIn(peer.queue, written), true)
    ensures queue == Rest(peer.queue, written)
  {
    now, queue := accounts, peer.queue;
    var left := written;
    ghost var piece: nat := 0;
    ChargeTwice(accounts, peer.chain, Up, 0, 0, true);
    while left > 0
      invariant Writing(accounts, peer, written, now, queue, left, piece)
      decreases left, |queue|
    {
      ghost var more := WritingStep(accounts, peer, written, now, queue, left, piece);
      var next := queue[0];
      var payload := Min(next.length, left);
      now := Charge(now, peer.chain, Up, payload, next.isPieceData);
      queue, left, piece := Shortened(queue, payload), left - payload, more;
    }
  }

  // ---- one flush ----------------------------------------------------------

  /** The chain of a peer as the clamp sees it. */
  function LevelsOf(pool: Pool, p: nat, dir: Direction, w: World): (r: seq<Level>)
    requires pool.Valid() && p < |pool.peers|
    ensures |r| == |pool.peers[p].chain| > 0
  {
    var chain := pool.peers[p].chain;
    seq(|chain|, i requires 0 <= i < |chain| && ChainOk(chain, |pool.accounts|) =>
      Level(pool.accounts[chain[i]].Of(dir), pool.accounts[chain[i]].down.desiredSpeed, w.speed(pool.turn, chain[i])))
  }

  /** What may be moved. */
  function Allowed(pool: Pool, p: nat, dir: Direction, limit: nat, w: World): nat
    requires pool.Valid() && p < |pool.peers|
  {
    ClampOver(LevelsOf(pool, p, dir, w), if dir == Up then Min(limit, Length(pool.peers[p].queue)) else limit)
  }

  /** What is moved. Reading from a uTP peer is not done by a flush. */
  function Amount(pool: Pool, p: nat, dir: Direction, limit: nat, w: World): nat
    requires pool.Valid() && p < |pool.peers|
  {
    if dir == Down && pool.peers[p].isUtp then 0
    else Min(Allowed(pool, p, dir, limit, w), pool.peers[p].room)
  }

  lemma AmountFits(pool: Pool, p: nat, dir: Direction, limit: nat, w: World)
    requires pool.Valid() && p < |pool.peers|
    ensures Amount(pool, p, dir, limit, w) <= limit && Amount(pool, p, dir, limit, w) <= pool.peers[p].room
    ensures dir == Up ==> Amount(pool, p, dir, limit, w) <= Length(pool.peers[p].queue)
  {
    ClampShrinks(LevelsOf(pool, p, dir, w), if dir == Up then Min(limit, Length(pool.peers[p].queue)) else limit);
  }

  /** The piece data that is charged for. What was read before may be recognised as piece data only now. */
  function Pieces(pool: Pool, p: nat, dir: Direction, limit: nat, w: World): nat
    requires pool.Valid() && p < |pool.peers|
  {
    AmountFits(pool, p, dir, limit, w);
    if dir == Up then PieceIn(pool.peers[p].queue, Amount(pool, p, dir, limit, w))
    else if pool.peers[p].isUtp || Allowed(pool, p, dir, limit, w) == 0 then 0
    else w.pieceRead(pool.turn)
  }

  function PeerMoved(peer: Peer, queue: seq<Chunk>, n: nat, piece: nat, more: seq<Chunk>): Peer
    requires n <= peer.room
  {
    peer.(queue := queue + (if n > 0 then more else []), room := peer.room - n, piece := peer.piece + piece)
  }

  /** The peer after a flush. Only a peer that has moved something queues anything more. */
  function PeerAfter(pool: Pool, p: nat, dir: Direction, limit: nat, w: World): Peer
    requires pool.Valid() && p < |pool.peers|
  {
    AmountFits(pool, p, dir, limit, w);
    var peer, n := pool.peers[p], Amount(pool, p, dir, limit, w);
    PeerMoved(peer, if dir == Up then Rest(peer.queue, n) else peer.queue, n, Pieces(pool, p, dir, limit, w), w.queued(pool.turn))
  }

  function Flushed(pool: Pool, p: nat, dir: Direction, limit: nat, w: World): (r: Pool)
    requires pool.Valid() && p < |pool.peers|
    ensures r.Valid() && |r.peers| == |pool.peers| && |r.accounts| == |pool.accounts|
  {
    var r := Pool(Charge(pool.accounts, pool.peers[p].chain, dir, Pieces(pool, p, dir, limit, w), true),
                  pool.peers[p := PeerAfter(pool, p, dir, limit, w)], pool.turn + 1);
    assert forall q :: 0 <= q < |r.peers| ==> r.peers[q].chain == pool.peers[q].chain;
    r
  }

  /** tr_peerIoTryRead() */
  method TryRead(pool: Pool, p: nat, limit: nat, w: World) returns (n: nat, accounts: seq<Account>, ghost piece: nat)
    requires pool.Valid() && p < |pool.peers|
    ensures n == Amount(pool, p, Down, limit, w) && piece == Pieces(pool, p, Down, limit, w)
    ensures accounts == Charge(pool.accounts, pool.peers[p].chain, Down, piece, true)
  {
    n, accounts, piece := 0, pool.accounts, 0;
    ChargeTwice(accounts, pool.peers[p].chain, Down, 0, 0, true);
    var howmuch := Allowed(pool, p, Down, limit, w);
    if howmuch > 0 && !pool.peers[p].isUtp {
      n := Min(howmuch, pool.peers[p].room);
      piece := w.pieceRead(pool.turn);
      accounts := Charge(accounts, pool.peers[p].chain, Down, w.pieceRead(pool.turn), true);
    }
  }

  /** tr_peerIoTryWrite() */
  method TryWrite(pool: Pool, p: nat, limit: nat, w: World) returns (n: nat, accounts: seq<Account>, queue: seq<Chunk>)
    requires pool.Valid() && p < |pool.peers|
    ensures n == Amount(pool, p, Up, limit, w) <= Length(pool.peers[p].queue) && queue == Rest(pool.peers[p].queue, n)
    ensures accounts == Charge(pool.accounts, pool.peers[p].chain, Up, Pieces(pool, p, Up, limit, w), true)
  {
    AmountFits(pool, p, Up, limit, w);
    n, accounts, queue := 0, pool.accounts, pool.peers[p].queue;
    ChargeTwice(accounts, pool.peers[p].chain, Up, 0, 0, true);
    var howmuch := Allowed(pool, p, Up, limit, w);
    if howmuch > 0 {
      n := Min(howmuch, pool.peers[p].room);
      accounts, queue := DidWrite(accounts, pool.peers[p], n);
    }
  }

  /** tr_peerIoFlush() */
  method Flush(pool: Pool, p: nat, dir: Direction, limit: nat, w: World) returns (bytesUsed: nat, next: Pool)
    requires pool.Valid() && p < |pool.peers|
    ensures bytesUsed == Amount(pool, p, dir, limit, w) && next == Flushed(pool, p, dir, limit, w)
  {
    var accounts, queue := pool.accounts, pool.peers[p].queue;
    if dir == Up {
      bytesUsed, accounts, queue := TryWrite(pool, p, limit, w);
    } else {
      ghost var piece;
      bytesUsed, accounts, piece := TryRead(pool, p, limit, w);
    }
    AmountFits(pool, p, dir, limit, w);
    var peer := PeerMoved(pool.peers[p], queue, bytesUsed, Pieces(pool, p, dir, limit, w), w.queued(pool.turn));
    next := Pool(accounts, pool.peers[p := peer], pool.turn + 1);
  }

  // ---- why a flush stops --------------------------------------------------

  /** The `i`th limit up the chain clamps this peer. */
  ghost predicate Limits(pool: Pool, p: nat, dir: Direction, i: nat)
    requires pool.Valid() && p < |pool.peers|
  {
    var chain := pool.peers[p].chain;
    i < |chain| && pool.accounts[chain[i]].Of(dir).isLimited
    && forall j :: 0 <= j < i ==> pool.accounts[chain[j]].Of(dir).honorParentLimits
  }

  /** Some limit that clamps this peer has `n` bytes left. */
  ghost predicate SomeLeft(pool: Pool, p: nat, dir: Direction, n: nat)
    requires pool.Valid() && p < |pool.peers|
  {
    exists i: nat :: Limits(pool, p, dir, i) && pool.accounts[pool.peers[p].chain[i]].Of(dir).bytesLeft == n
  }

  /** The peer cannot go on: it has no data, no room, or no bandwidth. */
  ghost predicate Stuck(pool: Pool, p: nat, dir: Direction) {
    && pool.Valid() && p < |pool.peers|
    && ((dir == Up && Length(pool.peers[p].queue) == 0) || pool.peers[p].room == 0 || SomeLeft(pool, p, dir, 0))
  }

  /** No speed on the peer's chain is close to its limit. */
  ghost predicate Calm(pool: Pool, p: nat, dir: Direction, w: World)
    requires pool.Valid() && p < |pool.peers|
  {
    AllCalm(LevelsOf(pool, p, dir, w))
  }

  lemma LimitsCount(pool: Pool, p: nat, dir: Direction, w: World, i: nat)
    requires pool.Valid() && p < |pool.peers|
    ensures Counts(LevelsOf(pool, p, dir, w), i) == Limits(pool, p, dir, i)
    ensures Limits(pool, p, dir, i) ==>
              LevelsOf(pool, p, dir, w)[i].band == pool.accounts[pool.peers[p].chain[i]].Of(dir)
  {
    var levels, chain := LevelsOf(pool, p, dir, w), pool.peers[p].chain;
    forall j | 0 <= j < |chain|
      ensures levels[j].band == pool.accounts[chain[j]].Of(dir)
    {
    }
    if Limits(pool, p, dir, i) {
      forall j | 0 <= j < i
        ensures levels[j].band.honorParentLimits
      {
        assert pool.accounts[chain[j]].Of(dir).honorParentLimits;
      }
    } else if Counts(levels, i) {
      forall j | 0 <= j < i
        ensures pool.accounts[chain[j]].Of(dir).honorParentLimits
      {
        assert levels[j].band.honorParentLimits;
      }
    }
  }

  /** What is moved fits every limit that clamps. */
  lemma AmountWithin(pool: Pool, p: nat, dir: Direction, limit: nat, w: World, i: nat)
    requires pool.Valid() && p < |pool.peers| && Limits(pool, p, dir, i)
    ensures Amount(pool, p, dir, limit, w) <= pool.accounts[pool.peers[p].chain[i]].Of(dir).bytesLeft
  {
    LimitsCount(pool, p, dir, w, i);
    ClampBounds(LevelsOf(pool, p, dir, w), if dir == Up then Min(limit, Length(pool.peers[p].queue)) else limit, i);
  }

  /** Away from the speed limits, less than the limit is moved only for want of data, room or bandwidth. */
  lemma ShortFor(pool: Pool, p: nat, dir: Direction, limit: nat, w: World)
    requires pool.Valid() && p < |pool.peers| && Calm(pool, p, dir, w) && !(dir == Down && pool.peers[p].isUtp)
    requires Amount(pool, p, dir, limit, w) < limit
    ensures var n := Amount(pool, p, dir, limit, w);
            n == pool.peers[p].room || SomeLeft(pool, p, dir, n) || (dir == Up && n == Length(pool.peers[p].queue))
  {
    var levels := LevelsOf(pool, p, dir, w);
    var asked := if dir == Up then Min(limit, Length(pool.peers[p].queue)) else limit;
    var n := Amount(pool, p, dir, limit, w);
    ClampIsLeast(levels, asked);
    if n != pool.peers[p].room {
      assert n == ClampOver(levels, asked);
      if n != asked {
        var i: nat :| Counts(levels, i) && ClampOver(levels, asked) == levels[i].band.bytesLeft;
        LimitsCount(pool, p, dir, w, i);
        assert Limits(pool, p, dir, i) && pool.accounts[pool.peers[p].chain[i]].Of(dir).bytesLeft == n;
      }
    }
  }

  /** Charging changes no more of a band than what is left. */
  lemma SameLimits(pool: Pool, p: nat, dir: Direction, limit: nat, w: World, q: nat, i: nat)
    requires pool.Valid() && p < |pool.peers| && q < |pool.peers|
    ensures Limits(Flushed(pool, p, dir, limit, w), q, dir, i) == Limits(pool, q, dir, i)
    ensures Limits(pool, q, dir, i) ==>
              var k, piece := pool.peers[q].chain[i], Pieces(pool, p, dir, limit, w);
              var left := pool.accounts[k].Of(dir).bytesLeft;
              Flushed(pool, p, dir, limit, w).accounts[k].Of(dir).bytesLeft
              == if k in pool.peers[p].chain then left - Min(left, piece) else left
  {
    assert Flushed(pool, p, dir, limit, w).peers[q].chain == pool.peers[q].chain;
  }

  /** After a flush, some limit that clamps the peer has nothing left just if the piece data was all it had. */
  lemma BlockedAfter(pool: Pool, p: nat, dir: Direction, limit: nat, w: World)
    requires pool.Valid() && p < |pool.peers|
    ensures SomeLeft(Flushed(pool, p, dir, limit, w), p, dir, 0)
            <==> exists i: nat :: Limits(pool, p, dir, i)
                                  && pool.accounts[pool.peers[p].chain[i]].Of(dir).bytesLeft <= Pieces(pool, p, dir, limit, w)
  {
    var next, chain := Flushed(pool, p, dir, limit, w), pool.peers[p].chain;
    forall i: nat | Limits(pool, p, dir, i) || Limits(next, p, dir, i)
      ensures Limits(pool, p, dir, i) && Limits(next, p, dir, i)
      ensures next.accounts[chain[i]].Of(dir).bytesLeft == 0
              <==> pool.accounts[chain[i]].Of(dir).bytesLeft <= Pieces(pool, p, dir, limit, w)
    {
      SameLimits(pool, p, dir, limit, w, p, i);
    }
    if i: nat :| Limits(pool, p, dir, i) && pool.accounts[chain[i]].Of(dir).bytesLeft <= Pieces(pool, p, dir, limit, w) {
      assert Limits(next, p, dir, i) && next.accounts[next.peers[p].chain[i]].Of(dir).bytesLeft == 0;
    }
  }

  /**
   * A peer that has written `n` bytes is stuck if and only if that was all its
   * data and nothing was queued in answer, or all its socket took, or all that
   * some limit had left, every byte of it piece data.
   */
  lemma WrittenStuck(pool: Pool, p: nat, limit: nat, w: World)
    requires pool.Valid() && p < |pool.peers|
    ensures Amount(pool, p, Up, limit, w) <= Length(pool.peers[p].queue)
    ensures var n, peer := Amount(pool, p, Up, limit, w), pool.peers[p];
            Stuck(Flushed(pool, p, Up, limit, w), p, Up)
            <==> || (n == Length(peer.queue) && (n == 0 || Length(w.queued(pool.turn)) == 0))
                 || n == peer.room
                 || (SomeLeft(pool, p, Up, n) && PieceIn(peer.queue, n) == n)
  {
    AmountFits(pool, p, Up, limit, w);
    var n, peer := Amount(pool, p, Up, limit, w), pool.peers[p];
    RestLength(peer.queue, n);
    LengthJoins(Rest(peer.queue, n), if n > 0 then w.queued(pool.turn) else []);
    BlockedAfter(pool, p, Up, limit, w);
    if i: nat :| Limits(pool, p, Up, i) && pool.accounts[peer.chain[i]].Of(Up).bytesLeft <= Pieces(pool, p, Up, limit, w) {
      AmountWithin(pool, p, Up, limit, w, i);
      assert SomeLeft(pool, p, Up, n);
    }
  }

  /**
   * So a peer dropped for writing less than it might, away from the speed
   * limits and with nothing queued in answer, is stuck if and only if it has
   * used up its data or its socket, or what it wrote was piece data throughout.
   */
  lemma DroppedStuck(pool: Pool, p: nat, limit: nat, w: World)
    requires pool.Valid() && p < |pool.peers| && Calm(pool, p, Up, w) && Length(w.queued(pool.turn)) == 0
    requires Amount(pool, p, Up, limit, w) < limit
    ensures Amount(pool, p, Up, limit, w) <= Length(pool.peers[p].queue)
    ensures var n, peer := Amount(pool, p, Up, limit, w), pool.peers[p];
            Stuck(Flushed(pool, p, Up, limit, w), p, Up)
            <==> n == Length(peer.queue) || n == peer.room || PieceIn(peer.queue, n) == n
  {
    WrittenStuck(pool, p, limit, w);
    ShortFor(pool, p, Up, limit, w);
  }

  /** A peer that has read `n` bytes is stuck if and only if there is no more to read, or a limit had no more than it was charged. */
  lemma ReadStuck(pool: Pool, p: nat, limit: nat, w: World)
    requires pool.Valid() && p < |pool.peers|
    ensures Stuck(Flushed(pool, p, Down, limit, w), p, Down)
            <==> || Amount(pool, p, Down, limit, w) == pool.peers[p].room
                 || exists i: nat :: Limits(pool, p, Down, i)
                      && pool.accounts[pool.peers[p].chain[i]].Of(Down).bytesLeft <= Pieces(pool, p, Down, limit, w)
  {
    AmountFits(pool, p, Down, limit, w);
    BlockedAfter(pool, p, Down, limit, w);
  }

  /** Flushing a uTP peer for reading moves and charges nothing, stuck or not. */
  lemma UtpReadsNothing(pool: Pool, p: nat, limit: nat, w: World)
    requires pool.Valid() && p < |pool.peers| && pool.peers[p].isUtp
    ensures Amount(pool, p, Down, limit, w) == 0
    ensures Flushed(pool, p, Down, limit, w) == pool.(turn := pool.turn + 1)
    ensures Stuck(Flushed(pool, p, Down, limit, w), p, Down) == Stuck(pool, p, Down)
  {
    ChargeTwice(pool.accounts, pool.peers[p].chain, Down, 0, 0, true);
    var next, peer := Flushed(pool, p, Down, limit, w), pool.peers[p];
    assert peer.queue + [] == peer.queue;
    assert next.peers == pool.peers;
    forall i: nat
      ensures Limits(next, p, Down, i) == Limits(pool, p, Down, i)
    {
      SameLimits(pool, p, Down, limit, w, p, i);
    }
  }

  /** Who is stuck stays stuck, whoever is flushed. */
  lemma StuckStays(pool: Pool, p: nat, dir: Direction, limit: nat, w: World, q: nat)
    requires pool.Valid() && p < |pool.peers| && Stuck(pool, q, dir)
    ensures Stuck(Flushed(pool, p, dir, limit, w), q, dir)
  {
    AmountFits(pool, p, dir, limit, w);
    var next := Flushed(pool, p, dir, limit, w);
    if SomeLeft(pool, q, dir, 0) {
      var i: nat :| Limits(pool, q, dir, i) && pool.accounts[pool.peers[q].chain[i]].Of(dir).bytesLeft == 0;
      SameLimits(pool, p, dir, limit, w, q, i);
      assert Limits(next, q, dir, i) && next.accounts[next.peers[q].chain[i]].Of(dir).bytesLeft == 0;
    } else if p == q && pool.peers[p].room != 0 {
      assert Rest(pool.peers[p].queue, 0) + [] == pool.peers[p].queue;
    }
  }

  /** Protocol messages make the difference: this peer is dropped, and could go on. */
  lemma StillMoving(w: World)
    requires forall t, k :: w.speed(t, k) == 0
    ensures var node := Account(Band(true, true, 2200, 9000), Band(false, true, 0, 0), Ledger(0, 2200), Ledger(0, 0));
            var queue := [Chunk(2000, true), Chunk(500, false), Chunk(5000, true)];
            var pool := Pool([node], [Peer([0], false, queue, 10000, 0)], 0);
            && pool.Valid() && Calm(pool, 0, Up, w)
            && Amount(pool, 0, Up, 3000, w) == 2200 && Pieces(pool, 0, Up, 3000, w) == 2000
            && Flushed(pool, 0, Up, 3000, w).accounts[0].up.bytesLeft == 200
            && !Stuck(Flushed(pool, 0, Up, 3000, w), 0, Up)
  {
    var node := Account(Band(true, true, 2200, 9000), Band(false, true, 0, 0), Ledger(0, 2200), Ledger(0, 0));
    var queue := [Chunk(2000, true), Chunk(500, false), Chunk(5000, true)];
    var pool := Pool([node], [Peer([0], false, queue, 10000, 0)], 0);
    assert LevelsOf(pool, 0, Up, w) == [Level(node.up, 0, 0)];
    assert queue[1..] == [Chunk(500, false), Chunk(5000, true)] && queue[1..][1..] == [Chunk(5000, true)];
    assert Length(queue) == 7500;
    WrittenStuck(pool, 0, 3000, w);
  }
}
