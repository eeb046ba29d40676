/**
 * The write-back block cache. Seen through `Logical`, each torrent is a plain
 * string of bytes that only WriteBlock changes.
 */
module BlockCache {
  import opened Geometry
  import opened PtrArray
  import opened Sorting
  import opened Storage
  import opened Overlay
  import opened CacheBlocks
  import opened CacheReads

  const MULTIFLAG: nat := 0x1000
  const DONEFLAG: nat := 0x2000
  const SESSIONFLAG: nat := 0x4000

  /** Tells whether all of a torrent's piece has been downloaded. */
  type PieceDone = (int, nat) -> bool

  /** `rank | flag` on a two's complement integer, for a flag of one bit. */
  function OrFlag(rank: int, flag: nat): int
    requires flag > 0
  {
    if (rank / flag) % 2 == 1 then rank else rank + flag
  }

  /** Division that rounds toward zero. */
  function TruncDiv(a: int, b: int): int
    requires b > 0
  {
    if a >= 0 then a / b else -((-a) / b)
  }

  function CompareRuns(a: RunInfo, b: RunInfo): int {
    b.rank - a.rank
  }

  /** How many blocks a trim sets out to flush. */
  function TrimCutoff(maxBlocks: int): int {
    1 + TruncDiv(maxBlocks, 4)
  }

  function MaxBlocksFor(maxBytes: int): int {
    TruncDiv(maxBytes, MAX_BLOCK_SIZE)
  }

  function Rank(r: RunInfo, now: int): int {
    var base := r.len + TruncDiv(now - r.lastBlockTime, 32);
    var withDone := if r.isPieceDone then OrFlag(base, DONEFLAG) else base;
    if r.isMultiPiece then OrFlag(withDone, MULTIFLAG) else withDone
  }

  /** What getBlockRun() records about the run at `r.pos`. */
  ghost predicate Measured(blocks: seq<CacheBlock>, r: RunInfo, done: PieceDone) {
    && LongestFrom(blocks, r.pos, r.len)
    && var last := blocks[r.pos + r.len - 1];
    && r.lastBlockTime == last.time
    && r.isPieceDone == done(last.tor, last.piece)
    && r.isMultiPiece == (last.piece != blocks[r.pos].piece)
  }

  /** What calcRuns() records: the measurements, and the rank they give. */
  ghost predicate Described(blocks: seq<CacheBlock>, r: RunInfo, now: int, done: PieceDone) {
    Measured(blocks, r, done) && r.rank == Rank(r, now)
  }

  lemma RankedIsDescribed(blocks: seq<CacheBlock>, info: RunInfo, now: int, done: PieceDone)
    requires Measured(blocks, info, done)
    ensures Described(blocks, info.(rank := Rank(info, now)), now, done)
  {
  }

  /** What is left of `before` once the given runs are flushed. */
  ghost predicate Flushed(before: seq<CacheBlock>, runs: seq<RunInfo>, after: seq<CacheBlock>) {
    && (forall b :: b in after <==> b in before && !InRuns(before, runs, b))
    && |after| == |before| - TotalLen(runs)
  }

  lemma FlushedStep(before: seq<CacheBlock>, runs: seq<RunInfo>, r: RunInfo, now: seq<CacheBlock>, pos: nat)
    requires Flushed(before, runs, now) && Sorted(now)
    requires r.pos + r.len <= |before| && pos + r.len <= |now| && now[pos..pos + r.len] == Segment(before, r)
    ensures Flushed(before, runs + [r], Erase(now, pos, pos + r.len))
  {
    SortedEraseMembers(now, pos, pos + r.len);
    forall b
      ensures b in Erase(now, pos, pos + r.len) <==> b in before && !InRuns(before, runs + [r], b)
    {
      InRunsStep(before, runs, r, b);
    }
    TotalSplits(runs, [r]);
  }

  /** How one step of flushRuns() carries its invariant over. */
  lemma FlushStep(before: seq<CacheBlock>, all: seq<RunInfo>, i: nat, now: seq<CacheBlock>, pending: seq<RunInfo>)
    requires i < |all| && Sorted(now)
    requires SameSegments(before, all[i..], now, pending) && Flushed(before, all[..i], now)
    ensures var r, rest := pending[0], pending[1..];
            && r.pos + r.len <= |now|
            && Flushed(before, all[..i + 1], Erase(now, r.pos, r.pos + r.len))
            && SameSegments(before, all[i + 1..], now, rest)
  {
    var r := all[i];
    assert all[i..][0] == r && all[..i + 1] == all[..i] + [r];
    assert all[i..][1..] == all[i + 1..];
    FlushedStep(before, all[..i], r, now, pending[0].pos);
  }

  /** With `n` blocks cached, a trim asks for no more blocks than there are. */
  predicate TrimSafe(n: nat, maxBlocks: int) {
    n > maxBlocks ==> TrimCutoff(maxBlocks) <= n
  }

  /** A trim is safe with any number of blocks, unless the limit is -1, -2 or -3 blocks. */
  lemma TrimSafeExactly(maxBlocks: int)
    ensures (forall n: nat :: TrimSafe(n, maxBlocks)) <==> maxBlocks >= 0 || maxBlocks <= -4
  {
    if -4 < maxBlocks < 0 {
      assert !TrimSafe(0, maxBlocks);
    }
  }

  /** The runs of `before`, split into those to flush and those to keep, none of which ranks higher. */
  ghost predicate RankedSplit(before: seq<CacheBlock>, flushed: seq<RunInfo>, kept: seq<RunInfo>, now: int, done: PieceDone) {
    && SortedBy(flushed + kept, CompareRuns)
    && exists chain ::
         && Chain(before, chain, 0, |before|)
         && (forall r :: r in chain ==> Described(before, r, now, done))
         && multiset(flushed + kept) == multiset(chain)
  }

  lemma SplitIsRanked(blocks: seq<CacheBlock>, chain: seq<RunInfo>, all: seq<RunInfo>, flushed: seq<RunInfo>, kept: seq<RunInfo>,
                      now: int, done: PieceDone)
    requires Chain(blocks, chain, 0, |blocks|) && multiset(all) == multiset(chain) && SortedBy(all, CompareRuns)
    requires forall r :: r in chain ==> Described(blocks, r, now, done)
    requires |flushed| <= |all| && flushed == all[..|flushed|] && kept == all[|flushed|..]
    ensures RankedSplit(blocks, flushed, kept, now, done)
    ensures Pending(blocks, flushed)
  {
    assert flushed + kept == all;
    PermutedPending(blocks, chain, all);
    PendingPrefix(blocks, all, |flushed|);
  }

  /** The block the cache found is the only one in which the read starts. */
  lemma FetchIsAnswer(torrents: Torrents, blocks: seq<CacheBlock>, at: Place, hit: bool, pos: nat)
    requires BlocksOk(torrents, blocks) && Sorted(blocks) && at.tor in torrents && torrents[at.tor].blockSize > 0
    requires hit ==> pos < |blocks| && blocks[pos].tor == at.tor && blocks[pos].block == torrents[at.tor].BlockOf(at.piece, at.offset)
    requires !hit ==> forall i :: 0 <= i < |blocks| ==>
               !(blocks[i].tor == at.tor && blocks[i].block == torrents[at.tor].BlockOf(at.piece, at.offset))
    ensures Hit(torrents, blocks, at) == hit
    ensures forall i: nat :: HitAt(torrents, blocks, at, i) ==> hit && i == pos
  {
    if hit {
      assert HitAt(torrents, blocks, at, pos);
      HitUnique(torrents, blocks, at, pos);
    }
  }

  /** What Fetch() leaves in the buffer is the answer. */
  lemma BufferIsAnswer(torrents: Torrents, blocks: seq<CacheBlock>, at: Place, flat: seq<Byte>, before: seq<Byte>,
                       hit: bool, pos: nat, after: seq<Byte>)
    requires BlocksOk(torrents, blocks) && Sorted(blocks) && PlaceOk(torrents, at)
    requires |flat| == torrents[at.tor].totalSize && at.len <= |before|
    requires Hit(torrents, blocks, at) == hit && forall i: nat :: HitAt(torrents, blocks, at, i) ==> hit && i == pos
    requires hit ==> pos < |blocks| && var data := blocks[pos].data;
                                       after == Splice(before, 0, data[..if at.len < |data| then at.len else |data|])
    requires !hit ==> var g := StartOf(torrents, at); after == Splice(before, 0, flat[g..g + at.len])
    ensures after == Answer(torrents, blocks, at, flat, before)
    ensures ReadsRight(torrents, blocks, at) ==> after == Splice(before, 0, Wanted(torrents, blocks, at, flat))
  {
    if hit {
      var data := blocks[pos].data;
      assert data[..|data|] == data;
    }
    if ReadsRight(torrents, blocks, at) {
      RightAnswers(torrents, blocks, at, flat, before);
    }
  }

  predicate Flagged(r: RunInfo) {
    r.isPieceDone || r.isMultiPiece
  }

  /**
   * With every run's length plus age below MULTIFLAG, a flagged run outranks
   * every run that is not flagged.
   */
  lemma FlaggedOutranks(r: RunInfo, q: RunInfo, now: int)
    requires 0 <= r.len + TruncDiv(now - r.lastBlockTime, 32) < MULTIFLAG
    requires 0 <= q.len + TruncDiv(now - q.lastBlockTime, 32) < MULTIFLAG
    requires Flagged(r) && !Flagged(q)
    ensures Rank(r, now) > Rank(q, now)
  {
  }

  /** The runs of `b` span the same positions as those of `a`. */
  ghost predicate SameSpans(a: seq<RunInfo>, b: seq<RunInfo>) {
    |a| == |b| && forall i :: 0 <= i < |a| ==> a[i].pos == b[i].pos && a[i].len == b[i].len
  }

  lemma {:induction false} SpansTotal(a: seq<RunInfo>, b: seq<RunInfo>)
    requires SameSpans(a, b)
    ensures TotalLen(a) == TotalLen(b)
  {
    if a != [] {
      SpansTotal(a[1..], b[1..]);
    }
  }

  lemma SpansInRuns(blocks: seq<CacheBlock>, a: seq<RunInfo>, b: seq<RunInfo>, x: CacheBlock)
    requires SameSpans(a, b) && InRuns(blocks, a, x)
    ensures InRuns(blocks, b, x)
  {
    var r :| r in a && r.pos + r.len <= |blocks| && x in Segment(blocks, r);
    var i :| 0 <= i < |a| && a[i] == r;
    assert b[i] in b && Segment(blocks, b[i]) == Segment(blocks, r);
  }

  lemma SpansFlushed(before: seq<CacheBlock>, a: seq<RunInfo>, b: seq<RunInfo>, after: seq<CacheBlock>)
    requires SameSpans(a, b) && Flushed(before, a, after)
    ensures Flushed(before, b, after)
  {
    SpansTotal(a, b);
    forall x
      ensures InRuns(before, a, x) <==> InRuns(before, b, x)
    {
      if InRuns(before, a, x) {
        SpansInRuns(before, a, b, x);
      } else if InRuns(before, b, x) {
        SpansInRuns(before, b, a, x);
      }
    }
  }

  lemma SpansPending(blocks: seq<CacheBlock>, a: seq<RunInfo>, b: seq<RunInfo>)
    requires SameSpans(a, b) && Pending(blocks, a)
    ensures Pending(blocks, b)
  {
    forall i | 0 <= i < |b|
      ensures 0 < b[i].len && b[i].pos + b[i].len <= |blocks| && Contiguous(Segment(blocks, b[i]))
    {
      assert Segment(blocks, b[i]) == Segment(blocks, a[i]);
    }
    forall i, j | 0 <= i < j < |b|
      ensures Disjoint(b[i], b[j])
    {
      assert Disjoint(a[i], a[j]);
    }
  }

  /** Block `b` is not before block number `block` of torrent `tor`. */
  predicate AtOrAfter(b: CacheBlock, tor: int, block: nat) {
    b.tor > tor || (b.tor == tor && b.block >= block)
  }

  /** `blocks` is `front` and those blocks of `back` that are still there; other torrents' are. */
  ghost predicate Remains(blocks: seq<CacheBlock>, pos: nat, front: seq<CacheBlock>, back: seq<CacheBlock>, tor: int) {
    && pos <= |blocks|
    && blocks[..pos] == front
    && (forall b :: b in blocks[pos..] ==> b in back)
    && (forall b :: b in back && b.tor != tor ==> b in blocks[pos..])
  }

  lemma ErasedRemains(blocks: seq<CacheBlock>, pos: nat, n: nat, tor: int)
    requires pos + n <= |blocks| && forall i :: pos <= i < pos + n ==> blocks[i].tor == tor
    ensures Remains(Erase(blocks, pos, pos + n), pos, blocks[..pos], blocks[pos..], tor)
  {
    var tail := blocks[pos..];
    EraseMembers(tail, 0, n);
    assert forall b :: b in tail[..n] ==> b.tor == tor;
    assert Erase(blocks, pos, pos + n)[pos..] == Erase(tail, 0, n);
  }

  /** In a sorted cache, what follows a block lies past it too. */
  lemma TailPast(blocks: seq<CacheBlock>, pos: nat, b: CacheBlock)
    requires Sorted(blocks) && pos < |blocks| && b in blocks[pos..]
    ensures b == blocks[pos] || CompareBlocks(blocks[pos], b) < 0
  {
    var k :| 0 <= k < |blocks| - pos && blocks[pos..][k] == b;
    if k > 0 {
      assert blocks[pos + k] == b;
    }
  }

  /** Where the loop of a flush stops, no block it was after is left, and none before it is gone. */
  lemma RangeFlushed(before: seq<CacheBlock>, blocks: seq<CacheBlock>, pos: nat, tor: int, first: nat)
    requires Sorted(blocks) && pos <= |before|
    requires forall b :: b in before[..pos] ==> !AtOrAfter(b, tor, first)
    requires forall b :: b in before[pos..] ==> AtOrAfter(b, tor, first)
    requires Remains(blocks, pos, before[..pos], before[pos..], tor)
    ensures forall b :: b in blocks ==> b in before
    ensures forall b :: b in before && b !in blocks ==> b.tor == tor && b.block >= first
    ensures pos == |blocks| || blocks[pos].tor != tor ==> forall b :: b in blocks && b.tor == tor ==> b.block < first
    ensures pos < |blocks| && blocks[pos].tor == tor ==>
              first <= blocks[pos].block && forall b :: b in blocks && b.tor == tor ==> b.block < first || b.block >= blocks[pos].block
  {
    if pos < |blocks| {
      assert blocks[pos] in blocks[pos..];
    }
    assert before == before[..pos] + before[pos..];
    assert blocks == blocks[..pos] + blocks[pos..];
    forall b | b in blocks && b.tor == tor && b.block >= first
      ensures pos < |blocks| && blocks[pos].tor == tor && b.block >= blocks[pos].block
    {
      assert b in blocks[pos..];
      TailPast(blocks, pos, b);
      assert blocks[pos] in blocks[pos..];
    }
  }

  class Cache {
    const torrents: Torrents
    const disks: map<int, TorrentFiles>
    var blocks: seq<CacheBlock>
    var maxBlocks: int
    var maxBytes: int
    var diskWrites: nat
    var diskWriteBytes: nat
    var cacheWrites: nat
    var cacheWriteBytes: nat

    ghost predicate DisksValid()
      reads this, disks.Values
    {
      && disks.Keys == torrents.Keys
      && forall id :: id in torrents ==>
           && torrents[id].Valid()
           && torrents[id].uniqueId == id
           && disks[id].torrent == torrents[id]
           && disks[id].Valid()
    }

    ghost predicate Valid()
      reads this, disks.Values
    {
      && DisksValid()
      && Sorted(blocks)
      && BlocksOk(torrents, blocks)
    }

    /** The bytes of a torrent: cached blocks over what is on disk. */
    ghost function Logical(id: int): (r: seq<Byte>)
      requires Valid() && id in torrents
      reads this, disks.Values
      ensures |r| == torrents[id].totalSize
    {
      View(Extents(torrents, blocks), id, disks[id].Flat())
    }

    constructor (disks: map<int, TorrentFiles>, torrents: Torrents, maxBytes: int)
      requires disks.Keys == torrents.Keys
      requires forall id :: id in torrents ==>
                 && torrents[id].Valid()
                 && torrents[id].uniqueId == id
                 && disks[id].torrent == torrents[id]
                 && disks[id].Valid()
      ensures Valid() && this.disks == disks && this.torrents == torrents
      ensures blocks == [] && this.maxBytes == maxBytes && maxBlocks == MaxBlocksFor(maxBytes)
      ensures forall id :: id in torrents ==> Logical(id) == disks[id].Flat()
    {
      this.disks, this.torrents := disks, torrents;
      this.maxBytes, this.maxBlocks := maxBytes, MaxBlocksFor(maxBytes);
      blocks := [];
      diskWrites, diskWriteBytes, cacheWrites, cacheWriteBytes := 0, 0, 0, 0;
    }

    /** How far the blocks from `pos` on are contiguous. */
    method GetBlockRun(pos: nat, done: PieceDone) returns (info: RunInfo)
      requires pos < |blocks|
      ensures info.pos == pos && Measured(blocks, info, done)
    {
      var first := blocks[pos];
      var i, block := pos, first.block;
      while i < |blocks|
        invariant pos <= i <= |blocks| && block == first.block + (i - pos)
        invariant Contiguous(blocks[pos..i])
        invariant i == pos ==> blocks[i].block == block && blocks[i].tor == first.tor
      {
        var b := blocks[i];
        if b.block != block || b.tor != first.tor {
          break;
        }
        assert blocks[pos..i + 1] == blocks[pos..i] + [b];
        i, block := i + 1, block + 1;
      }
      var last := blocks[i - 1];
      info := RunInfo(pos, 0, last.time, last.piece != first.piece, done(last.tor, last.piece), i - pos);
      if i < |blocks| {
        assert blocks[pos..i + 1][i - pos] == blocks[i];
      }
    }

    /** Records the run at `pos` as number `n`. */
    method AddRun(runs: array<RunInfo>, n: nat, pos: nat, now: int, done: PieceDone, ghost chain: seq<RunInfo>)
      returns (run: RunInfo)
      requires pos < |blocks| && n < runs.Length
      requires Chain(blocks, chain, 0, pos) && runs[..n] == chain
      modifies runs
      ensures run.len > 0 && pos + run.len <= |blocks|
      ensures Described(blocks, run, now, done)
      ensures Chain(blocks, chain + [run], 0, pos + run.len) && runs[..n + 1] == chain + [run]
    {
      var info := GetBlockRun(pos, done);
      RankedIsDescribed(blocks, info, now, done);
      run := info.(rank := Rank(info, now));
      ChainExtends(blocks, chain, 0, pos, run);
      Store(runs, n, run);
    }

    static method Store(runs: array<RunInfo>, n: nat, run: RunInfo)
      requires n < runs.Length
      modifies runs
      ensures runs[..n + 1] == old(runs[..n]) + [run]
    {
      runs[n] := run;
      assert runs[..n + 1] == runs[..n] + [run];
    }

    /** Splits the cache into runs and sorts them, highest rank first. */
    method CalcRuns(runs: array<RunInfo>, now: int, done: PieceDone) returns (n: nat, ghost chain: seq<RunInfo>)
      requires runs.Length >= |blocks|
      modifies runs
      ensures n <= |blocks|
      ensures Chain(blocks, chain, 0, |blocks|)
      ensures forall r :: r in chain ==> Described(blocks, r, now, done)
      ensures multiset(runs[..n]) == multiset(chain)
      ensures SortedBy(runs[..n], CompareRuns)
    {
      var pos: nat := 0;
      n := 0;
      chain := [];
      while pos < |blocks|
        invariant n <= pos <= |blocks|
        invariant Chain(blocks, chain, 0, pos) && runs[..n] == chain
        invariant forall r :: r in chain ==> Described(blocks, r, now, done)
      {
        var run := AddRun(runs, n, pos, now, done, chain);
        chain := chain + [run];
        pos, n := pos + run.len, n + 1;
      }
      SortRuns(runs, n);
    }

    static method SortRuns(runs: array<RunInfo>, n: nat)
      requires n <= runs.Length
      modifies runs
      ensures multiset(runs[..n]) == multiset(old(runs[..n]))
      ensures SortedBy(runs[..n], CompareRuns)
    {
      var sorted := QSort(runs[..n], CompareRuns);
      SameMembers(sorted, runs[..n]);
      QSortSorted(runs[..n], CompareRuns, set r | r in runs[..n]);
      forall i | 0 <= i < n {
        runs[i] := sorted[i];
      }
      assert runs[..n] == sorted;
    }

    /** Copies the data of `blocks[pos..pos + n]` end to end into a buffer. */
    method Gather(pos: nat, n: nat, buf: array<Byte>) returns (walk: nat)
      requires Valid() && pos + n <= |blocks|
      requires buf.Length == n * MAX_BLOCK_SIZE
      modifies buf
      ensures walk <= buf.Length
      ensures buf[..walk] == Joined(Extents(torrents, blocks[pos..pos + n]))
    {
      walk := 0;
      ghost var es := Extents(torrents, blocks[pos..pos + n]);
      forall i | 0 <= i < n
        ensures es[i].data == blocks[pos + i].data && |es[i].data| <= MAX_BLOCK_SIZE
      {
        assert blocks[pos + i] == blocks[pos..pos + n][i];
        BlockInside(torrents[blocks[pos + i].tor], blocks[pos + i].block);
      }
      var i := 0;
      while i < n
        invariant i <= n && walk <= i * MAX_BLOCK_SIZE && walk <= buf.Length
        invariant buf[..walk] == Joined(es[..i])
      {
        JoinedStep(es, i);
        walk := Append(buf, walk, blocks[pos + i].data);
        i := i + 1;
      }
      assert es[..n] == es;
    }

    static method Append(buf: array<Byte>, walk: nat, data: seq<Byte>) returns (end: nat)
      requires walk + |data| <= buf.Length
      modifies buf
      ensures end == walk + |data| && buf[..end] == old(buf[..walk]) + data
    {
      forall k | walk <= k < walk + |data| {
        buf[k] := data[k - walk];
      }
      end := walk + |data|;
      assert buf[..end] == buf[..walk] + buf[walk..end];
    }

    /** tr_ioWrite() of a buffer to where block `b` starts. */
    method ToDisk(b: CacheBlock, len: nat, buf: array<Byte>, ghost start: nat) returns (err: int)
      requires DisksValid() && BlockOk(torrents, b) && len <= buf.Length
      requires start == ExtentOf(torrents, b).start && start < torrents[b.tor].totalSize
      requires start + len <= torrents[b.tor].totalSize
      modifies disks.Values, buf
      ensures DisksValid() && err == 0
      ensures disks[b.tor].Flat() == Splice(old(disks[b.tor].Flat()), start, old(buf[..len]))
      ensures forall id :: id in torrents && id != b.tor ==> disks[id].Flat() == old(disks[id].Flat())
    {
      err := disks[b.tor].IoWrite(b.piece, b.offset, len, buf);
    }

    method Drop(pos: nat, n: nat)
      requires Sorted(blocks) && BlocksOk(torrents, blocks) && pos + n <= |blocks|
      modifies this`blocks
      ensures Sorted(blocks) && BlocksOk(torrents, blocks)
      ensures blocks == Erase(old(blocks), pos, pos + n)
    {
      SortedErase(blocks, pos, pos + n);
      ExtentsErase(torrents, blocks, pos, pos + n);
      blocks := Erase(blocks, pos, pos + n);
    }

    /** Takes a run out of the cache and gathers its data in a buffer. */
    method TakeRun(pos: nat, n: nat) returns (buf: array<Byte>, walk: nat)
      requires Valid() && 0 < n && pos + n <= |blocks|
      modifies this`blocks
      ensures Sorted(blocks) && BlocksOk(torrents, blocks)
      ensures blocks == Erase(old(blocks), pos, pos + n)
      ensures fresh(buf) && walk <= buf.Length
      ensures buf[..walk] == Joined(Extents(torrents, old(blocks)[pos..pos + n]))
    {
      buf := new Byte[n * MAX_BLOCK_SIZE];
      walk := Gather(pos, n, buf);
      Drop(pos, n);
    }

    /** Writes a contiguous run to disk as one transfer and drops it from the cache. */
    method WriteOut(pos: nat, n: nat, ghost own: int, ghost start: nat, ghost data: seq<Byte>) returns (err: int)
      requires Valid() && 0 < n && pos + n <= |blocks|
      requires own == blocks[pos].tor && start == ExtentOf(torrents, blocks[pos]).start
      requires data == Joined(Extents(torrents, blocks[pos..pos + n]))
      requires start < torrents[own].totalSize && start + |data| <= torrents[own].totalSize
      modifies this`blocks, this`diskWrites, this`diskWriteBytes, disks.Values
      ensures Valid() && err == 0
      ensures blocks == Erase(old(blocks), pos, pos + n)
      ensures disks[own].Flat() == Splice(old(disks[own].Flat()), start, data)
      ensures forall id :: id in torrents && id != own ==> disks[id].Flat() == old(disks[id].Flat())
      ensures diskWrites == old(diskWrites) + 1 && diskWriteBytes == old(diskWriteBytes) + |data|
    {
      var b := blocks[pos];
      var buf, walk := TakeRun(pos, n);
      err := ToDisk(b, walk, buf, start);
      diskWrites := diskWrites + 1;
      diskWriteBytes := diskWriteBytes + walk;
    }

    /** The same, seen by readers: no byte of any torrent changes. */
    method FlushContiguous(pos: nat, n: nat) returns (err: int)
      requires Valid() && 0 < n && pos + n <= |blocks| && Contiguous(blocks[pos..pos + n])
      modifies this`blocks, this`diskWrites, this`diskWriteBytes, disks.Values
      ensures Valid() && err == 0
      ensures blocks == Erase(old(blocks), pos, pos + n)
      ensures forall id :: id in torrents ==> Logical(id) == old(Logical(id))
      ensures diskWrites == old(diskWrites) + 1
      ensures diskWriteBytes == old(diskWriteBytes) + |Joined(Extents(torrents, old(blocks)[pos..pos + n]))|
    {
      ghost var own := blocks[pos].tor;
      BlocksApart(torrents, blocks);
      ContiguousTouches(torrents, blocks[pos..pos + n]);
      OneTorrent(blocks, pos, n);
      FlushOwnView(torrents, blocks, pos, n, disks[own].Flat());
      forall id | id in torrents && id != own
        ensures View(Extents(torrents, Erase(blocks, pos, pos + n)), id, disks[id].Flat()) == Logical(id)
      {
        FlushOtherView(torrents, blocks, pos, n, id, disks[id].Flat());
      }
      err := WriteOut(pos, n, own, ExtentOf(torrents, blocks[pos]).start, Joined(Extents(torrents, blocks[pos..pos + n])));
    }

    /** Moves the pending runs behind a flushed run down by its length. */
    static method Renumber(runs: array<RunInfo>, i: nat, n: nat)
      requires i < n <= runs.Length && 0 < runs[i].len
      requires DisjointFrom(runs[i], runs[i + 1..n])
      modifies runs
      ensures DisjointFrom(old(runs[i]), old(runs[i + 1..n]))
      ensures runs[i + 1..n] == ShiftedAll(old(runs[i]), old(runs[i + 1..n]))
    {
      ghost var flushed, rest := runs[i], runs[i + 1..n];
      var j := i + 1;
      while j < n
        invariant i < j <= n && runs[i] == flushed
        invariant forall k :: i < k < j ==> runs[k] == Shifted(flushed, rest[k - i - 1])
        invariant forall k :: j <= k < n ==> runs[k] == rest[k - i - 1]
      {
        assert Disjoint(flushed, rest[j - i - 1]);
        if runs[j].pos > runs[i].pos {
          runs[j] := runs[j].(pos := runs[j].pos - runs[i].len);
        }
        j := j + 1;
      }
    }

    /** Flushes run number `i` and renumbers those after it. */
    method FlushNext(runs: array<RunInfo>, i: nat, n: nat, ghost flushed: RunInfo, ghost rest: seq<RunInfo>) returns (err: int)
      requires i < n <= runs.Length && flushed == runs[i] && rest == runs[i + 1..n]
      requires Valid() && Pending(blocks, [flushed] + rest)
      modifies runs, this`blocks, this`diskWrites, this`diskWriteBytes, disks.Values
      ensures Valid() && err == 0
      ensures flushed.pos + flushed.len <= |old(blocks)|
      ensures blocks == Erase(old(blocks), flushed.pos, flushed.pos + flushed.len)
      ensures Pending(blocks, runs[i + 1..n]) && SameSegments(old(blocks), rest, blocks, runs[i + 1..n])
      ensures forall id :: id in torrents ==> Logical(id) == old(Logical(id))
    {
      PendingTail(blocks, flushed, rest);
      PendingShifts(blocks, flushed, rest);
      err := FlushContiguous(runs[i].pos, runs[i].len);
      Renumber(runs, i, n);
    }

    /**
     * Flushes the runs in the order given. Every pending position stays right
     * although blocks before it leave the array, so exactly the blocks of these
     * runs are flushed.
     */
    method FlushRuns(runs: array<RunInfo>, n: nat) returns (err: int)
      requires Valid() && n <= runs.Length && Pending(blocks, runs[..n])
      modifies runs, this`blocks, this`diskWrites, this`diskWriteBytes, disks.Values
      ensures Valid() && err == 0
      ensures Flushed(old(blocks), old(runs[..n]), blocks)
      ensures forall id :: id in torrents ==> Logical(id) == old(Logical(id))
    {
      ghost var before, all := blocks, runs[..n];
      var i := 0;
      err := 0;
      assert runs[0..n] == all && all[..0] == [];
      while err == 0 && i < n
        invariant 0 <= i <= n && err == 0
        invariant Valid() && Pending(blocks, runs[i..n])
        invariant SameSegments(before, all[i..], blocks, runs[i..n])
        invariant Flushed(before, all[..i], blocks)
        invariant forall id :: id in torrents ==> Logical(id) == old(Logical(id))
      {
        FlushStep(before, all, i, blocks, runs[i..n]);
        assert [runs[i]] + runs[i + 1..n] == runs[i..n];
        err := FlushNext(runs, i, n, runs[i], runs[i + 1..n]);
        i := i + 1;
      }
      assert all[..n] == all;
    }

    /** Takes runs from the front until they hold `cutoff` blocks. */
    static method PickRuns(runs: array<RunInfo>, n: nat, cutoff: int, ghost all: seq<RunInfo>) returns (i: nat)
      requires n <= runs.Length && all == runs[..n] && cutoff <= TotalLen(all)
      ensures i <= n && TotalLen(all[..i]) >= cutoff
      ensures i > 0 ==> TotalLen(all[..i - 1]) < cutoff
    {
      var j := 0;
      i := 0;
      assert all[..n] == all;
      while j < cutoff
        invariant i <= n && j == TotalLen(all[..i])
        invariant i > 0 ==> TotalLen(all[..i - 1]) < cutoff
        decreases n - i
      {
        assert i != n;
        assert all[..i + 1] == all[..i] + [all[i]] && runs[i] == all[i];
        TotalSplits(all[..i], [all[i]]);
        j := j + runs[i].len;
        i := i + 1;
      }
    }

    /** All runs of the cache, highest rank first. */
    method RankedRuns(now: int, done: PieceDone)
      returns (runs: array<RunInfo>, n: nat, ghost all: seq<RunInfo>, ghost chain: seq<RunInfo>)
      ensures fresh(runs) && n <= runs.Length && all == runs[..n]
      ensures Chain(blocks, chain, 0, |blocks|) && multiset(all) == multiset(chain) && SortedBy(all, CompareRuns)
      ensures forall r :: r in chain ==> Described(blocks, r, now, done)
      ensures TotalLen(all) == |blocks|
    {
      runs := new RunInfo[|blocks|];
      n, chain := CalcRuns(runs, now, done);
      all := runs[..n];
      PermutedPending(blocks, chain, all);
    }

    /** Chooses the runs a trim flushes: as few of the highest-ranked as make up the cutoff. */
    method PlanTrim(cutoff: int, now: int, done: PieceDone)
      returns (runs: array<RunInfo>, i: nat, ghost flushed: seq<RunInfo>, ghost kept: seq<RunInfo>)
      requires cutoff <= |blocks|
      ensures fresh(runs) && i <= runs.Length && flushed == runs[..i]
      ensures Pending(blocks, flushed)
      ensures RankedSplit(blocks, flushed, kept, now, done)
      ensures TotalLen(flushed) >= cutoff
      ensures flushed != [] ==> TotalLen(flushed[..|flushed| - 1]) < cutoff
    {
      var n;
      ghost var all, chain;
      runs, n, all, chain := RankedRuns(now, done);
      i := PickRuns(runs, n, cutoff, all);
      flushed, kept := all[..i], all[i..];
      SplitIsRanked(blocks, chain, all, flushed, kept, now, done);
      assert i > 0 ==> flushed[..i - 1] == all[..i - 1];
    }

    /** Flushes the highest-ranked runs when there are more blocks than allowed. */
    method Trim(now: int, done: PieceDone) returns (err: int, ghost flushed: seq<RunInfo>, ghost kept: seq<RunInfo>)
      requires Valid() && TrimSafe(|blocks|, maxBlocks)
      modifies this`blocks, this`diskWrites, this`diskWriteBytes, disks.Values
      ensures Valid() && err == 0
      ensures forall id :: id in torrents ==> Logical(id) == old(Logical(id))
      ensures |old(blocks)| <= maxBlocks ==> blocks == old(blocks)
      ensures |old(blocks)| > maxBlocks ==>
                && RankedSplit(old(blocks), flushed, kept, now, done)
                && Flushed(old(blocks), flushed, blocks)
                && TotalLen(flushed) >= TrimCutoff(maxBlocks)
                && (flushed != [] ==> TotalLen(flushed[..|flushed| - 1]) < TrimCutoff(maxBlocks))
    {
      err, flushed, kept := 0, [], [];
      if |blocks| > maxBlocks {
        var runs, i;
        runs, i, flushed, kept := PlanTrim(TrimCutoff(maxBlocks), now, done);
        err := FlushRuns(runs, i);
      }
    }

    method SetLimit(limit: int, now: int, done: PieceDone) returns (err: int, ghost flushed: seq<RunInfo>, ghost kept: seq<RunInfo>)
      requires Valid() && TrimSafe(|blocks|, MaxBlocksFor(limit))
      modifies this, disks.Values
      ensures Valid() && err == 0
      ensures maxBytes == limit && maxBlocks == MaxBlocksFor(limit)
      ensures cacheWrites == old(cacheWrites) && cacheWriteBytes == old(cacheWriteBytes)
      ensures forall id :: id in torrents ==> Logical(id) == old(Logical(id))
      ensures |old(blocks)| <= maxBlocks ==> blocks == old(blocks)
      ensures |old(blocks)| > maxBlocks ==>
                && RankedSplit(old(blocks), flushed, kept, now, done)
                && Flushed(old(blocks), flushed, blocks)
                && TotalLen(flushed) >= TrimCutoff(maxBlocks)
                && (flushed != [] ==> TotalLen(flushed[..|flushed| - 1]) < TrimCutoff(maxBlocks))
    {
      maxBytes := limit;
      maxBlocks := MaxBlocksFor(limit);
      err, flushed, kept := Trim(now, done);
    }

    // ---- single blocks ------------------------------------------------------

    /** Finds the cached block that holds a byte, or where it would go. */
    method FindBlock(tor: int, piece: nat, offset: nat) returns (pos: nat, found: bool)
      requires Valid() && tor in torrents
      ensures pos <= |blocks|
      ensures found ==> pos < |blocks| && blocks[pos].tor == tor && blocks[pos].block == torrents[tor].BlockOf(piece, offset)
      ensures !found ==>
                forall i :: 0 <= i < |blocks| ==>
                  var key := CacheBlock(tor, 0, 0, 0, 0, torrents[tor].BlockOf(piece, offset), []);
                  if i < pos then CompareBlocks(blocks[i], key) < 0 else CompareBlocks(blocks[i], key) > 0
    {
      var key := CacheBlock(tor, 0, 0, 0, 0, torrents[tor].BlockOf(piece, offset), []);
      SortedSplits(blocks, key);
      pos, found := LowerBound(blocks, key, CompareBlocks);
    }

    method AddBlock(b: CacheBlock, pos: nat)
      requires Valid() && BlockOk(torrents, b) && pos <= |blocks| && Sorted(Insert(blocks, b, pos))
      modifies this`blocks
      ensures Valid() && blocks == Insert(old(blocks), b, pos)
      ensures ExtentOf(torrents, b).End() <= torrents[b.tor].totalSize
      ensures Logical(b.tor) == Splice(old(Logical(b.tor)), ExtentOf(torrents, b).start, b.data)
      ensures forall id :: id in torrents && id != b.tor ==> Logical(id) == old(Logical(id))
    {
      InsertView(torrents, blocks, b, pos, b.tor, disks[b.tor].Flat());
      forall id | id in torrents && id != b.tor
        ensures View(Extents(torrents, Insert(blocks, b, pos)), id, disks[id].Flat()) == Logical(id)
      {
        InsertView(torrents, blocks, b, pos, id, disks[id].Flat());
      }
      blocks := Insert(blocks, b, pos);
    }

    method RenewBlock(b: CacheBlock, pos: nat)
      requires Valid() && pos < |blocks| && b == blocks[pos].(time := b.time, data := b.data) && |b.data| == b.length
      modifies this`blocks
      ensures Valid() && blocks == old(blocks)[pos := b]
      ensures ExtentOf(torrents, b).End() <= torrents[b.tor].totalSize
      ensures Logical(b.tor) == Splice(old(Logical(b.tor)), ExtentOf(torrents, b).start, b.data)
      ensures forall id :: id in torrents && id != b.tor ==> Logical(id) == old(Logical(id))
    {
      SortedReplace(blocks, b, pos);
      ReplaceView(torrents, blocks, b, pos, b.tor, disks[b.tor].Flat());
      forall id | id in torrents && id != b.tor
        ensures View(Extents(torrents, blocks[pos := b]), id, disks[id].Flat()) == Logical(id)
      {
        ReplaceView(torrents, blocks, b, pos, id, disks[id].Flat());
      }
      blocks := blocks[pos := b];
    }

    /** Puts a block in the cache, in place of an older version of it if there is one. */
    method PutBlock(b: CacheBlock)
      requires Valid() && BlockOk(torrents, b) && b.block == torrents[b.tor].BlockOf(b.piece, b.offset)
      modifies this`blocks
      ensures Valid() && |old(blocks)| <= |blocks| <= |old(blocks)| + 1 && |blocks| >= 1
      ensures ExtentOf(torrents, b).End() <= torrents[b.tor].totalSize
      ensures Logical(b.tor) == Splice(old(Logical(b.tor)), ExtentOf(torrents, b).start, b.data)
      ensures forall id :: id in torrents && id != b.tor ==> Logical(id) == old(Logical(id))
    {
      var pos, found := FindBlock(b.tor, b.piece, b.offset);
      if !found {
        SortedInsert(blocks, b, pos);
        AddBlock(b, pos);
      } else {
        SamePlace(torrents, blocks[pos], b);
        RenewBlock(blocks[pos].(time := b.time, data := b.data), pos);
      }
    }

    /** Stores a whole block, then trims the cache. */
    method WriteBlock(tor: int, piece: nat, offset: nat, length: nat, data: seq<Byte>, now: int, done: PieceDone) returns (err: int)
      requires Valid() && tor in torrents
      requires BlockOk(torrents, CacheBlock(tor, piece, offset, length, now, torrents[tor].BlockOf(piece, offset), data))
      modifies this, disks.Values
      ensures Valid() && err == 0
      ensures maxBlocks == old(maxBlocks) && maxBytes == old(maxBytes)
      ensures cacheWrites == old(cacheWrites) + 1 && cacheWriteBytes == old(cacheWriteBytes) + length
      ensures torrents[tor].PieceOffset(piece, offset) + |data| <= torrents[tor].totalSize
      ensures Logical(tor) == Splice(old(Logical(tor)), torrents[tor].PieceOffset(piece, offset), data)
      ensures forall id :: id in torrents && id != tor ==> Logical(id) == old(Logical(id))
      ensures |old(blocks)| <= maxBlocks ==> |blocks| <= maxBlocks
    {
      PutBlock(CacheBlock(tor, piece, offset, length, now, torrents[tor].BlockOf(piece, offset), data));
      cacheWrites := cacheWrites + 1;
      cacheWriteBytes := cacheWriteBytes + length;
      ghost var flushed, kept;
      err, flushed, kept := Trim(now, done);
    }

    // ---- reading ------------------------------------------------------------

    /**
     * Reads `len` bytes. A cached block answers with its first bytes, whatever
     * the offset inside the block; otherwise the disk answers.
     */
    method Fetch(tor: int, piece: nat, offset: nat, len: nat, setme: array<Byte>) returns (err: int, ghost hit: bool, ghost pos: nat)
      requires Valid() && tor in torrents && len <= setme.Length
      requires piece < torrents[tor].pieceCount ==> torrents[tor].InRange(piece, offset, len)
      modifies setme, disks.Values
      ensures Valid() && forall id :: id in torrents ==> disks[id].Flat() == old(disks[id].Flat())
      ensures hit <==> exists i :: 0 <= i < |blocks| && blocks[i].tor == tor && blocks[i].block == torrents[tor].BlockOf(piece, offset)
      ensures hit ==>
                && pos < |blocks| && blocks[pos].tor == tor && blocks[pos].block == torrents[tor].BlockOf(piece, offset)
                && err == 0
                && var n := if len < |blocks[pos].data| then len else |blocks[pos].data|;
                setme[..] == Splice(old(setme[..]), 0, blocks[pos].data[..n])
      ensures !hit && piece < torrents[tor].pieceCount ==>
                && err == 0
                && var g := torrents[tor].PieceOffset(piece, offset);
                setme[..] == Splice(old(setme[..]), 0, disks[tor].Flat()[g..g + len])
      ensures !hit && piece >= torrents[tor].pieceCount ==> err == EINVAL && setme[..] == old(setme[..])
    {
      var at, found := FindBlock(tor, piece, offset);
      hit, pos := found, at;
      if found {
        var data := blocks[at].data;
        CopyOut(data, len, setme);
        err := 0;
      } else {
        err := disks[tor].IoRead(piece, offset, len, setme);
      }
    }

    /**
     * Leaves in the buffer what the first block or the disk answers, which is
     * the torrent's current bytes for every read that is right.
     */
    method ReadBlock(tor: int, piece: nat, offset: nat, len: nat, setme: array<Byte>) returns (err: int)
      requires Valid() && tor in torrents && len <= setme.Length
      requires piece < torrents[tor].pieceCount ==> torrents[tor].InRange(piece, offset, len)
      modifies setme, disks.Values
      ensures Valid() && forall id :: id in torrents ==> Logical(id) == old(Logical(id))
      ensures err != 0 <==> piece >= torrents[tor].pieceCount && !Hit(torrents, blocks, Place(tor, piece, offset, len))
      ensures err != 0 ==> err == EINVAL && setme[..] == old(setme[..])
      ensures piece < torrents[tor].pieceCount ==>
                var at, g := Place(tor, piece, offset, len), torrents[tor].PieceOffset(piece, offset);
                && setme[..] == Answer(torrents, blocks, at, old(disks[tor].Flat()), old(setme[..]))
                && (ReadsRight(torrents, blocks, at) ==> setme[..] == Splice(old(setme[..]), 0, Logical(tor)[g..g + len]))
    {
      ghost var at, before, flat := Place(tor, piece, offset, len), setme[..], disks[tor].Flat();
      ghost var hit, pos;
      err, hit, pos := Fetch(tor, piece, offset, len, setme);
      FetchIsAnswer(torrents, blocks, at, hit, pos);
      if piece < torrents[tor].pieceCount {
        BufferIsAnswer(torrents, blocks, at, flat, before, hit, pos, setme[..]);
      }
    }

    /** evbuffer_copyout(): no more than the data there is. */
    static method CopyOut(data: seq<Byte>, len: nat, setme: array<Byte>)
      requires len <= setme.Length
      modifies setme
      ensures var n := if len < |data| then len else |data|;
              setme[..] == Splice(old(setme[..]), 0, data[..n])
    {
      var n := if len < |data| then len else |data|;
      forall k | 0 <= k < n {
        setme[k] := data[k];
      }
    }

    method PrefetchBlock(tor: int, piece: nat, offset: nat, len: nat) returns (err: int)
      requires Valid() && tor in torrents
      requires piece < torrents[tor].pieceCount ==> torrents[tor].InRange(piece, offset, len)
      modifies disks.Values
      ensures Valid() && forall id :: id in torrents ==> Logical(id) == old(Logical(id))
    {
      var pos, found := FindBlock(tor, piece, offset);
      err := 0;
      if !found {
        var none := new Byte[0];
        err := disks[tor].ReadOrWritePiece(Prefetch, piece, offset, none, len);
      }
    }

    // ---- flushing on request ------------------------------------------------

    /** Marks the leading runs that are finished or span pieces. */
    static method MarkFlagged(runs: array<RunInfo>, n: nat, ghost all: seq<RunInfo>) returns (i: nat)
      requires n <= runs.Length && all == runs[..n]
      modifies runs
      ensures i <= n && (forall k :: 0 <= k < i ==> Flagged(all[k])) && (i < n ==> !Flagged(all[i]))
      ensures SameSpans(all[..i], runs[..i])
    {
      i := 0;
      while i < n && (runs[i].isPieceDone || runs[i].isMultiPiece)
        invariant i <= n && forall k :: 0 <= k < i ==> Flagged(all[k])
        invariant forall k :: 0 <= k < i ==> runs[k].pos == all[k].pos && runs[k].len == all[k].len
        invariant forall k :: i <= k < n ==> runs[k] == all[k]
      {
        runs[i] := runs[i].(rank := OrFlag(runs[i].rank, SESSIONFLAG));
        i := i + 1;
      }
    }

    /** Flushes the leading runs that are finished or span pieces. */
    method FlushDone(now: int, done: PieceDone) returns (err: int, ghost flushed: seq<RunInfo>, ghost kept: seq<RunInfo>)
      requires Valid()
      modifies this`blocks, this`diskWrites, this`diskWriteBytes, disks.Values
      ensures Valid() && err == 0
      ensures forall id :: id in torrents ==> Logical(id) == old(Logical(id))
      ensures old(blocks) == [] ==> blocks == []
      ensures old(blocks) != [] ==>
                && RankedSplit(old(blocks), flushed, kept, now, done)
                && Flushed(old(blocks), flushed, blocks)
                && (forall r :: r in flushed ==> Flagged(r))
                && (kept != [] ==> !Flagged(kept[0]))
    {
      err, flushed, kept := 0, [], [];
      if |blocks| > 0 {
        var runs, i;
        runs, i, flushed, kept := PlanDone(now, done);
        ghost var marked := runs[..i];
        err := FlushRuns(runs, i);
        SpansFlushed(old(blocks), marked, flushed, blocks);
      }
    }

    method PlanDone(now: int, done: PieceDone)
      returns (runs: array<RunInfo>, i: nat, ghost flushed: seq<RunInfo>, ghost kept: seq<RunInfo>)
      ensures fresh(runs) && i <= runs.Length && SameSpans(runs[..i], flushed)
      ensures Pending(blocks, runs[..i])
      ensures RankedSplit(blocks, flushed, kept, now, done)
      ensures forall r :: r in flushed ==> Flagged(r)
      ensures kept != [] ==> !Flagged(kept[0])
    {
      var n;
      ghost var all, chain;
      runs, n, all, chain := RankedRuns(now, done);
      i := MarkFlagged(runs, n, all);
      flushed, kept := all[..i], all[i..];
      SplitIsRanked(blocks, chain, all, flushed, kept, now, done);
      SpansPending(blocks, flushed, runs[..i]);
    }

    method FindBlockPos(tor: int, block: nat) returns (pos: nat)
      requires Valid()
      ensures pos <= |blocks|
      ensures forall b :: b in blocks[..pos] ==> !AtOrAfter(b, tor, block)
      ensures forall b :: b in blocks[pos..] ==> AtOrAfter(b, tor, block)
    {
      var key := CacheBlock(tor, 0, 0, 0, 0, block, []);
      SortedSplits(blocks, key);
      var exact;
      pos, exact := LowerBound(blocks, key, CompareBlocks);
    }

    /** Flushes the run that starts at `pos`, all of it of torrent `tor`. */
    method FlushAt(pos: nat, tor: int, done: PieceDone) returns (err: int)
      requires Valid() && pos < |blocks| && blocks[pos].tor == tor
      modifies this`blocks, this`diskWrites, this`diskWriteBytes, disks.Values
      ensures Valid() && err == 0 && |blocks| < |old(blocks)|
      ensures Remains(blocks, pos, old(blocks)[..pos], old(blocks)[pos..], tor)
      ensures forall id :: id in torrents ==> Logical(id) == old(Logical(id))
    {
      var run := GetBlockRun(pos, done);
      OneTorrent(blocks, pos, run.len);
      ErasedRemains(blocks, pos, run.len, tor);
      err := FlushContiguous(pos, run.len);
    }

    /** Flushes every cached block of a torrent, and nothing else. */
    method FlushTorrent(tor: int, done: PieceDone) returns (err: int)
      requires Valid() && tor in torrents
      modifies this`blocks, this`diskWrites, this`diskWriteBytes, disks.Values
      ensures Valid() && err == 0
      ensures forall b :: b in blocks <==> b in old(blocks) && b.tor != tor
      ensures forall id :: id in torrents ==> Logical(id) == old(Logical(id))
    {
      var pos := FindBlockPos(tor, 0);
      err := 0;
      while err == 0 && pos < |blocks| && blocks[pos].tor == tor
        invariant Valid() && err == 0
        invariant Remains(blocks, pos, old(blocks)[..pos], old(blocks)[pos..], tor)
        invariant forall id :: id in torrents ==> Logical(id) == old(Logical(id))
        decreases |blocks|
      {
        err := FlushAt(pos, tor, done);
      }
      RangeFlushed(old(blocks), blocks, pos, tor, 0);
    }

    /** The loop of tr_cacheFlushFile() over the file's block range. */
    method FlushRange(tor: int, first: nat, last: nat, done: PieceDone) returns (err: int)
      requires Valid() && tor in torrents
      modifies this`blocks, this`diskWrites, this`diskWriteBytes, disks.Values
      ensures Valid() && err == 0
      ensures forall b :: b in blocks ==> b in old(blocks)
      ensures forall b :: b in old(blocks) && b !in blocks ==> b.tor == tor && b.block >= first
      ensures forall b :: b in blocks && b.tor == tor ==> b.block < first || b.block > last
      ensures forall id :: id in torrents ==> Logical(id) == old(Logical(id))
    {
      var pos := FindBlockPos(tor, first);
      ghost var front, back := blocks[..pos], blocks[pos..];
      err := 0;
      while err == 0 && pos < |blocks| && blocks[pos].tor == tor && first <= blocks[pos].block <= last
        invariant Valid() && err == 0
        invariant Remains(blocks, pos, front, back, tor)
        invariant forall id :: id in torrents ==> Logical(id) == old(Logical(id))
        decreases |blocks|
      {
        err := FlushAt(pos, tor, done);
      }
      ghost var before := old(blocks);
      RangeFlushed(before, blocks, pos, tor, first);
    }

    /** Flushes at least the cached blocks of a file, and only blocks of its torrent. */
    method FlushFile(tor: int, file: nat, done: PieceDone) returns (err: int)
      requires Valid() && tor in torrents && file < |torrents[tor].files|
      modifies this`blocks, this`diskWrites, this`diskWriteBytes, disks.Values
      ensures Valid() && err == 0
      ensures forall b :: b in blocks ==> b in old(blocks)
      ensures forall b :: b in old(blocks) && b !in blocks ==> b.tor == tor && b.block >= torrents[tor].FileFirstBlock(file)
      ensures forall b :: b in blocks && b.tor == tor ==>
                b.block < torrents[tor].FileFirstBlock(file) || b.block > torrents[tor].FileLastBlock(file)
      ensures forall id :: id in torrents ==> Logical(id) == old(Logical(id))
    {
      err := FlushRange(tor, torrents[tor].FileFirstBlock(file), torrents[tor].FileLastBlock(file), done);
    }
  }
}
