/**
 * The cached blocks as values: their order, the runs they form, and the
 * extents of bytes they stand for.
 */
module CacheBlocks {
  import opened Geometry
  import opened PtrArray
  import opened Storage
  import opened Overlay
  import opened Sorting

  datatype CacheBlock = CacheBlock(
    tor: int,
    piece: nat,
    offset: nat,
    length: nat,
    time: int,
    block: nat,
    data: seq<Byte>)

  // ---- order --------------------------------------------------------------

  /** Primary key: torrent id; secondary key: block number. */
  function CompareBlocks(a: CacheBlock, b: CacheBlock): int {
    if a.tor != b.tor then (if a.tor < b.tor then -1 else 1)
    else if a.block != b.block then (if a.block < b.block then -1 else 1)
    else 0
  }

  ghost predicate Sorted(blocks: seq<CacheBlock>) {
    forall i, j :: 0 <= i < j < |blocks| ==> CompareBlocks(blocks[i], blocks[j]) < 0
  }

  lemma SortedSplits(blocks: seq<CacheBlock>, key: CacheBlock)
    requires Sorted(blocks)
    ensures Split(blocks, key, CompareBlocks)
  {
    forall i, j | 0 <= i < j < |blocks| && CompareBlocks(blocks[i], key) >= 0
      ensures CompareBlocks(blocks[j], key) > 0
    {
      assert CompareBlocks(blocks[i], blocks[j]) < 0;
    }
  }

  lemma SortedErase(blocks: seq<CacheBlock>, begin: nat, end: nat)
    requires Sorted(blocks) && begin <= end <= |blocks|
    ensures Sorted(Erase(blocks, begin, end))
  {
  }

  lemma SortedUnique(blocks: seq<CacheBlock>, i: nat, j: nat)
    requires Sorted(blocks) && i < |blocks| && j < |blocks| && i != j
    ensures blocks[i] != blocks[j]
  {
    if i < j {
      assert CompareBlocks(blocks[i], blocks[j]) < 0;
    } else {
      assert CompareBlocks(blocks[j], blocks[i]) < 0;
    }
  }

  lemma KeptBlock(blocks: seq<CacheBlock>, begin: nat, end: nat, b: CacheBlock)
    requires Sorted(blocks) && begin <= end <= |blocks| && b in Erase(blocks, begin, end)
    ensures b !in blocks[begin..end]
  {
    var k :| 0 <= k < |blocks| - (end - begin) && Erase(blocks, begin, end)[k] == b;
    var j := if k < begin then k else k + (end - begin);
    assert blocks[j] == b;
    forall i | begin <= i < end
      ensures blocks[i] != b
    {
      SortedUnique(blocks, i, j);
    }
  }

  /** Blocks are unique, so what is erased is gone and everything else stays. */
  lemma SortedEraseMembers(blocks: seq<CacheBlock>, begin: nat, end: nat)
    requires Sorted(blocks) && begin <= end <= |blocks|
    ensures forall b :: b in Erase(blocks, begin, end) <==> b in blocks && b !in blocks[begin..end]
  {
    EraseMembers(blocks, begin, end);
    forall b | b in Erase(blocks, begin, end)
      ensures b !in blocks[begin..end]
    {
      KeptBlock(blocks, begin, end, b);
    }
  }

  lemma SortedInsert(blocks: seq<CacheBlock>, b: CacheBlock, pos: nat)
    requires Sorted(blocks) && pos <= |blocks|
    requires forall i :: 0 <= i < pos ==> CompareBlocks(blocks[i], b) < 0
    requires forall i :: pos <= i < |blocks| ==> CompareBlocks(blocks[i], b) > 0
    ensures Sorted(Insert(blocks, b, pos))
  {
  }

  // ---- blocks as extents --------------------------------------------------

  type Torrents = map<int, Torrent>

  /** A block as the cache holds it: whole, at its own place in its torrent. */
  ghost predicate BlockOk(torrents: Torrents, b: CacheBlock) {
    && b.tor in torrents
    && var t := torrents[b.tor];
    && t.Valid()
    && b.block < t.BlockCount()
    && b.length == |b.data| == t.BlockBytes(b.block)
    && b.piece < t.pieceCount
    && t.PieceOffset(b.piece, b.offset) == t.BlockStart(b.block)
  }

  ghost predicate BlocksOk(torrents: Torrents, blocks: seq<CacheBlock>) {
    forall i :: 0 <= i < |blocks| ==> BlockOk(torrents, blocks[i])
  }

  ghost function ExtentOf(torrents: Torrents, b: CacheBlock): Extent
    requires b.tor in torrents
  {
    Extent(b.tor, torrents[b.tor].PieceOffset(b.piece, b.offset), b.data)
  }

  ghost function Extents(torrents: Torrents, blocks: seq<CacheBlock>): (es: seq<Extent>)
    requires BlocksOk(torrents, blocks)
    ensures |es| == |blocks|
    ensures forall i :: 0 <= i < |es| ==> es[i] == ExtentOf(torrents, blocks[i])
  {
    seq(|blocks|, i requires 0 <= i < |blocks| => ExtentOf(torrents, blocks[i]))
  }

  lemma BlockBefore(torrents: Torrents, a: CacheBlock, b: CacheBlock)
    requires BlockOk(torrents, a) && BlockOk(torrents, b) && a.tor == b.tor && a.block < b.block
    ensures ExtentOf(torrents, a).End() <= ExtentOf(torrents, b).start
    ensures b.block == a.block + 1 ==> ExtentOf(torrents, a).End() == ExtentOf(torrents, b).start
  {
    var t := torrents[a.tor];
    BlockInside(t, a.block);
    MulMono(a.block + 1, b.block, t.blockSize);
  }

  /** Distinct cached blocks never overlap. */
  lemma BlocksApart(torrents: Torrents, blocks: seq<CacheBlock>)
    requires BlocksOk(torrents, blocks) && Sorted(blocks)
    ensures Apart(Extents(torrents, blocks))
  {
    var es := Extents(torrents, blocks);
    forall i, j | 0 <= i < j < |es| && es[i].tor == es[j].tor
      ensures es[i].End() <= es[j].start
    {
      assert CompareBlocks(blocks[i], blocks[j]) < 0;
      BlockBefore(torrents, blocks[i], blocks[j]);
    }
  }

  lemma BlocksInside(torrents: Torrents, blocks: seq<CacheBlock>, id: int)
    requires BlocksOk(torrents, blocks) && id in torrents
    ensures Inside(Extents(torrents, blocks), id, torrents[id].totalSize)
  {
    var es := Extents(torrents, blocks);
    forall i | 0 <= i < |es| && es[i].tor == id
      ensures es[i].End() <= torrents[id].totalSize
    {
      BlockInside(torrents[id], blocks[i].block);
    }
  }

  lemma ExtentsErase(torrents: Torrents, blocks: seq<CacheBlock>, begin: nat, end: nat)
    requires BlocksOk(torrents, blocks) && begin <= end <= |blocks|
    ensures BlocksOk(torrents, Erase(blocks, begin, end))
    ensures Extents(torrents, Erase(blocks, begin, end)) == Erase(Extents(torrents, blocks), begin, end)
  {
  }

  lemma ExtentsInsert(torrents: Torrents, blocks: seq<CacheBlock>, b: CacheBlock, pos: nat)
    requires BlocksOk(torrents, blocks) && BlockOk(torrents, b) && pos <= |blocks|
    ensures BlocksOk(torrents, Insert(blocks, b, pos))
    ensures Extents(torrents, Insert(blocks, b, pos)) == Insert(Extents(torrents, blocks), ExtentOf(torrents, b), pos)
  {
  }

  // ---- runs ---------------------------------------------------------------

  /** A stretch of consecutive block numbers of one torrent. */
  ghost predicate Contiguous(s: seq<CacheBlock>) {
    forall k :: 0 <= k < |s| ==> s[k].tor == s[0].tor && s[k].block == s[0].block + k
  }

  lemma ContiguousTouches(torrents: Torrents, s: seq<CacheBlock>)
    requires BlocksOk(torrents, s) && Contiguous(s)
    ensures Touching(Extents(torrents, s))
  {
    var es := Extents(torrents, s);
    forall i | 0 < i < |es|
      ensures es[i].tor == es[0].tor && es[i].start == es[i - 1].End()
    {
      BlockBefore(torrents, s[i - 1], s[i]);
    }
  }

  /** `len` is how far blocks stay contiguous from `pos` on: no shorter, no longer. */
  ghost predicate LongestFrom(blocks: seq<CacheBlock>, pos: nat, len: nat) {
    && 0 < len
    && pos + len <= |blocks|
    && Contiguous(blocks[pos..pos + len])
    && (pos + len < |blocks| ==> !Contiguous(blocks[pos..pos + len + 1]))
  }

  datatype RunInfo = RunInfo(
    pos: nat,
    rank: int,
    lastBlockTime: int,
    isMultiPiece: bool,
    isPieceDone: bool,
    len: nat)

  function Segment(blocks: seq<CacheBlock>, r: RunInfo): seq<CacheBlock>
    requires r.pos + r.len <= |blocks|
  {
    blocks[r.pos..r.pos + r.len]
  }

  predicate Disjoint(a: RunInfo, b: RunInfo) {
    a.pos + a.len <= b.pos || b.pos + b.len <= a.pos
  }

  /** Runs that can be flushed one after the other, in this order. */
  ghost predicate Pending(blocks: seq<CacheBlock>, runs: seq<RunInfo>) {
    && (forall i :: 0 <= i < |runs| ==>
          0 < runs[i].len && runs[i].pos + runs[i].len <= |blocks| && Contiguous(Segment(blocks, runs[i])))
    && forall i, j :: 0 <= i < j < |runs| ==> Disjoint(runs[i], runs[j])
  }

  function TotalLen(runs: seq<RunInfo>): nat {
    if runs == [] then 0 else runs[0].len + TotalLen(runs[1..])
  }

  /** Where run `r` is found after run `flushed` has left the array. */
  function Shifted(flushed: RunInfo, r: RunInfo): RunInfo
    requires Disjoint(flushed, r)
  {
    if r.pos > flushed.pos && 0 < flushed.len then r.(pos := r.pos - flushed.len) else r
  }

  /** A run that is not flushed is found, unchanged, at its shifted position. */
  lemma SegmentShifts(blocks: seq<CacheBlock>, flushed: RunInfo, r: RunInfo)
    requires 0 < flushed.len && flushed.pos + flushed.len <= |blocks|
    requires 0 < r.len && r.pos + r.len <= |blocks| && Disjoint(flushed, r)
    ensures var after := Erase(blocks, flushed.pos, flushed.pos + flushed.len);
            && Shifted(flushed, r).pos + r.len <= |after|
            && Segment(after, Shifted(flushed, r)) == Segment(blocks, r)
  {
  }

  ghost predicate DisjointFrom(r: RunInfo, rest: seq<RunInfo>) {
    forall k :: 0 <= k < |rest| ==> Disjoint(r, rest[k])
  }

  ghost function ShiftedAll(flushed: RunInfo, rest: seq<RunInfo>): (r: seq<RunInfo>)
    requires DisjointFrom(flushed, rest)
  {
    seq(|rest|, i requires 0 <= i < |rest| => Shifted(flushed, rest[i]))
  }

  /** The runs `b` of `after` are the runs `a` of `before`, block for block. */
  ghost predicate SameSegments(before: seq<CacheBlock>, a: seq<RunInfo>, after: seq<CacheBlock>, b: seq<RunInfo>) {
    && |a| == |b|
    && forall k :: 0 <= k < |a| ==>
         && a[k].pos + a[k].len <= |before|
         && b[k].pos + b[k].len <= |after|
         && b[k].len == a[k].len
         && Segment(after, b[k]) == Segment(before, a[k])
  }

  lemma PendingTail(blocks: seq<CacheBlock>, flushed: RunInfo, rest: seq<RunInfo>)
    requires Pending(blocks, [flushed] + rest)
    ensures 0 < flushed.len && flushed.pos + flushed.len <= |blocks| && Contiguous(Segment(blocks, flushed))
    ensures DisjointFrom(flushed, rest) && Pending(blocks, rest)
  {
    var runs := [flushed] + rest;
    assert runs[0] == flushed;
    forall i | 0 <= i < |rest|
      ensures Disjoint(flushed, rest[i]) && 0 < rest[i].len && rest[i].pos + rest[i].len <= |blocks|
      ensures Contiguous(Segment(blocks, rest[i]))
    {
      assert runs[i + 1] == rest[i] && Disjoint(runs[0], runs[i + 1]);
    }
    forall i, j | 0 <= i < j < |rest|
      ensures Disjoint(rest[i], rest[j])
    {
      assert Disjoint(runs[i + 1], runs[j + 1]);
    }
  }

  lemma ShiftKeepsDisjoint(flushed: RunInfo, a: RunInfo, b: RunInfo)
    requires 0 < flushed.len && 0 < a.len && 0 < b.len
    requires Disjoint(flushed, a) && Disjoint(flushed, b) && Disjoint(a, b)
    ensures Disjoint(Shifted(flushed, a), Shifted(flushed, b))
  {
  }

  /** Flushing the first pending run leaves the others pending, with the same blocks. */
  lemma PendingShifts(blocks: seq<CacheBlock>, flushed: RunInfo, rest: seq<RunInfo>)
    requires 0 < flushed.len && flushed.pos + flushed.len <= |blocks|
    requires DisjointFrom(flushed, rest) && Pending(blocks, rest)
    ensures var after := Erase(blocks, flushed.pos, flushed.pos + flushed.len);
            && SameSegments(blocks, rest, after, ShiftedAll(flushed, rest))
            && Pending(after, ShiftedAll(flushed, rest))
  {
    var after := Erase(blocks, flushed.pos, flushed.pos + flushed.len);
    var shifted := ShiftedAll(flushed, rest);
    forall i | 0 <= i < |rest|
      ensures 0 < shifted[i].len == rest[i].len && shifted[i].pos + shifted[i].len <= |after|
      ensures Segment(after, shifted[i]) == Segment(blocks, rest[i])
    {
      SegmentShifts(blocks, flushed, rest[i]);
    }
    forall i, j | 0 <= i < j < |rest|
      ensures Disjoint(shifted[i], shifted[j])
    {
      ShiftKeepsDisjoint(flushed, rest[i], rest[j]);
    }
  }

  /** Block `b` is in one of the runs. */
  ghost predicate InRuns(blocks: seq<CacheBlock>, runs: seq<RunInfo>, b: CacheBlock) {
    exists r :: r in runs && r.pos + r.len <= |blocks| && b in Segment(blocks, r)
  }

  lemma InRunsStep(blocks: seq<CacheBlock>, runs: seq<RunInfo>, r: RunInfo, b: CacheBlock)
    requires r.pos + r.len <= |blocks|
    ensures InRuns(blocks, runs + [r], b) <==> InRuns(blocks, runs, b) || b in Segment(blocks, r)
  {
    assert r in runs + [r];
    if InRuns(blocks, runs, b) {
      var q :| q in runs && q.pos + q.len <= |blocks| && b in Segment(blocks, q);
      assert q in runs + [r];
    }
  }

  // ---- the partition into runs --------------------------------------------

  /** Runs that follow each other from position `from` to position `to`. */
  ghost predicate Chain(blocks: seq<CacheBlock>, runs: seq<RunInfo>, from: nat, to: nat) {
    if runs == [] then from == to
    else
      && runs[0].pos == from
      && LongestFrom(blocks, from, runs[0].len)
      && Chain(blocks, runs[1..], from + runs[0].len, to)
  }

  lemma {:induction false} ChainExtends(blocks: seq<CacheBlock>, runs: seq<RunInfo>, from: nat, to: nat, r: RunInfo)
    requires Chain(blocks, runs, from, to)
    requires r.pos == to && LongestFrom(blocks, to, r.len)
    ensures Chain(blocks, runs + [r], from, to + r.len)
  {
    if runs == [] {
      assert (runs + [r])[1..] == [];
    } else {
      ChainExtends(blocks, runs[1..], from + runs[0].len, to, r);
      assert (runs + [r])[1..] == runs[1..] + [r];
    }
  }

  /** The runs of a chain account for every position, once. */
  lemma {:induction false} ChainTotal(blocks: seq<CacheBlock>, runs: seq<RunInfo>, from: nat, to: nat)
    requires Chain(blocks, runs, from, to)
    ensures from + TotalLen(runs) == to
  {
    if runs != [] {
      ChainTotal(blocks, runs[1..], from + runs[0].len, to);
    }
  }

  lemma {:induction false} ChainMember(blocks: seq<CacheBlock>, runs: seq<RunInfo>, from: nat, to: nat, r: RunInfo)
    requires Chain(blocks, runs, from, to) && r in runs
    ensures from <= r.pos && r.pos + r.len <= to && LongestFrom(blocks, r.pos, r.len)
  {
    ChainTotal(blocks, runs, from, to);
    if r != runs[0] {
      assert r in runs[1..];
      ChainMember(blocks, runs[1..], from + runs[0].len, to, r);
    }
  }

  lemma {:induction false} ChainDisjoint(blocks: seq<CacheBlock>, runs: seq<RunInfo>, from: nat, to: nat, i: nat, j: nat)
    requires Chain(blocks, runs, from, to) && i < j < |runs|
    ensures runs[i].pos + runs[i].len <= runs[j].pos
    ensures runs[i].len > 0
  {
    if i == 0 {
      assert runs[j] == runs[1..][j - 1];
      ChainMember(blocks, runs[1..], from + runs[0].len, to, runs[j]);
    } else {
      ChainDisjoint(blocks, runs[1..], from + runs[0].len, to, i - 1, j - 1);
    }
  }

  lemma {:induction false} TotalSplits(a: seq<RunInfo>, b: seq<RunInfo>)
    ensures TotalLen(a + b) == TotalLen(a) + TotalLen(b)
  {
    if a == [] {
      assert a + b == b;
    } else {
      TotalSplits(a[1..], b);
      assert (a + b)[1..] == a[1..] + b;
    }
  }

  lemma TotalRemoves(runs: seq<RunInfo>, k: nat)
    requires k < |runs|
    ensures TotalLen(runs) == runs[k].len + TotalLen(runs[..k] + runs[k + 1..])
  {
    var tail := [runs[k]] + runs[k + 1..];
    assert runs == runs[..k] + tail && tail[1..] == runs[k + 1..];
    TotalSplits(runs[..k], tail);
    TotalSplits(runs[..k], runs[k + 1..]);
  }

  lemma {:induction false} TotalPermutes(a: seq<RunInfo>, b: seq<RunInfo>)
    requires multiset(a) == multiset(b)
    ensures TotalLen(a) == TotalLen(b)
  {
    SameMembers(a, b);
    if a != [] {
      var k := RemoveFirst(a, b);
      TotalRemoves(b, k);
      TotalPermutes(a[1..], b[..k] + b[k + 1..]);
    }
  }

  /** However qsort() orders the runs, any leading part of them can be flushed in that order. */
  lemma PermutedPending(blocks: seq<CacheBlock>, chain: seq<RunInfo>, runs: seq<RunInfo>)
    requires Chain(blocks, chain, 0, |blocks|) && multiset(chain) == multiset(runs)
    ensures Pending(blocks, runs) && TotalLen(runs) == |blocks|
  {
    ChainTotal(blocks, chain, 0, |blocks|);
    TotalPermutes(chain, runs);
    SameMembers(chain, runs);
    forall i, j | 0 <= i < j < |chain|
      ensures chain[i] != chain[j]
    {
      ChainDisjoint(blocks, chain, 0, |blocks|, i, j);
    }
    DistinctPermutes(chain, runs);
    forall i | 0 <= i < |runs|
      ensures 0 < runs[i].len && runs[i].pos + runs[i].len <= |blocks| && Contiguous(Segment(blocks, runs[i]))
    {
      assert runs[i] in chain;
      ChainMember(blocks, chain, 0, |blocks|, runs[i]);
    }
    forall i, j | 0 <= i < j < |runs|
      ensures Disjoint(runs[i], runs[j])
    {
      assert runs[i] in chain && runs[j] in chain && runs[i] != runs[j];
      MembersDisjoint(blocks, chain, runs[i], runs[j]);
    }
  }

  lemma MembersDisjoint(blocks: seq<CacheBlock>, chain: seq<RunInfo>, a: RunInfo, b: RunInfo)
    requires Chain(blocks, chain, 0, |blocks|) && a in chain && b in chain && a != b
    ensures Disjoint(a, b)
  {
    var i :| 0 <= i < |chain| && chain[i] == a;
    var j :| 0 <= j < |chain| && chain[j] == b;
    if i < j {
      ChainDisjoint(blocks, chain, 0, |blocks|, i, j);
    } else {
      ChainDisjoint(blocks, chain, 0, |blocks|, j, i);
    }
  }

  lemma PendingPrefix(blocks: seq<CacheBlock>, runs: seq<RunInfo>, n: nat)
    requires Pending(blocks, runs) && n <= |runs|
    ensures Pending(blocks, runs[..n])
  {
  }

  lemma ContiguousExtends(s: seq<CacheBlock>, b: CacheBlock)
    requires s != [] && Contiguous(s)
    ensures Contiguous(s + [b]) <==> b.tor == s[|s| - 1].tor && b.block == s[|s| - 1].block + 1
  {
    var longer := s + [b];
    assert longer[|s|] == b;
  }

  /** Two runs of a chain never touch: a block that could extend a run is in it. */
  lemma {:induction false} ChainMaximal(blocks: seq<CacheBlock>, runs: seq<RunInfo>, from: nat, to: nat, i: nat)
    requires Chain(blocks, runs, from, to) && to <= |blocks| && i + 1 < |runs|
    ensures var p := runs[i + 1].pos;
            && p == runs[i].pos + runs[i].len && 0 < p < |blocks|
            && !(blocks[p].tor == blocks[p - 1].tor && blocks[p].block == blocks[p - 1].block + 1)
  {
    if i > 0 {
      ChainMaximal(blocks, runs[1..], from + runs[0].len, to, i - 1);
    } else {
      var len, p := runs[0].len, from + runs[0].len;
      ChainMember(blocks, runs[1..], p, to, runs[1]);
      assert blocks[from..p + 1] == blocks[from..p] + [blocks[p]];
      assert blocks[from..p][len - 1] == blocks[p - 1];
      ContiguousExtends(blocks[from..p], blocks[p]);
    }
  }

  // ---- what a flush does to the views -------------------------------------

  lemma ExtentsSlice(torrents: Torrents, blocks: seq<CacheBlock>, pos: nat, n: nat)
    requires BlocksOk(torrents, blocks) && pos + n <= |blocks|
    ensures Extents(torrents, blocks[pos..pos + n]) == Extents(torrents, blocks)[pos..pos + n]
  {
  }

  lemma ExtentInside(torrents: Torrents, b: CacheBlock)
    requires BlockOk(torrents, b)
    ensures ExtentOf(torrents, b).start < torrents[b.tor].totalSize
    ensures ExtentOf(torrents, b).End() <= torrents[b.tor].totalSize
  {
    BlockInside(torrents[b.tor], b.block);
  }

  /** Writing out a run as one transfer leaves its own torrent's bytes as they were. */
  lemma FlushOwnView(torrents: Torrents, blocks: seq<CacheBlock>, pos: nat, n: nat, flat: seq<Byte>)
    requires BlocksOk(torrents, blocks) && Apart(Extents(torrents, blocks))
    requires 0 < n && pos + n <= |blocks| && Touching(Extents(torrents, blocks[pos..pos + n]))
    requires |flat| == torrents[blocks[pos].tor].totalSize
    ensures BlocksOk(torrents, Erase(blocks, pos, pos + n))
    ensures var id, start := blocks[pos].tor, ExtentOf(torrents, blocks[pos]).start;
            var data := Joined(Extents(torrents, blocks[pos..pos + n]));
            && start < |flat| && start + |data| <= |flat|
            && View(Extents(torrents, Erase(blocks, pos, pos + n)), id, Splice(flat, start, data))
               == View(Extents(torrents, blocks), id, flat)
  {
    ExtentsSlice(torrents, blocks, pos, n);
    BlocksInside(torrents, blocks, blocks[pos].tor);
    ExtentsErase(torrents, blocks, pos, pos + n);
    ExtentInside(torrents, blocks[pos]);
    var run := Extents(torrents, blocks[pos..pos + n]);
    FlushKeepsView(Extents(torrents, blocks), run, Extents(torrents, Erase(blocks, pos, pos + n)), flat, pos, n,
                   blocks[pos].tor, ExtentOf(torrents, blocks[pos]).start, Joined(run));
  }

  /** ... and every other torrent's bytes too. */
  lemma FlushOtherView(torrents: Torrents, blocks: seq<CacheBlock>, pos: nat, n: nat, id: int, flat: seq<Byte>)
    requires BlocksOk(torrents, blocks) && Apart(Extents(torrents, blocks)) && pos + n <= |blocks|
    requires forall i :: pos <= i < pos + n ==> blocks[i].tor != id
    ensures BlocksOk(torrents, Erase(blocks, pos, pos + n))
    ensures View(Extents(torrents, Erase(blocks, pos, pos + n)), id, flat) == View(Extents(torrents, blocks), id, flat)
  {
    ExtentsErase(torrents, blocks, pos, pos + n);
    FlushKeepsOthers(Extents(torrents, blocks), id, flat, pos, n);
  }

  lemma OneTorrent(blocks: seq<CacheBlock>, pos: nat, n: nat)
    requires pos + n <= |blocks| && Contiguous(blocks[pos..pos + n])
    ensures forall i :: pos <= i < pos + n ==> blocks[i].tor == blocks[pos].tor
  {
    forall i | pos <= i < pos + n
      ensures blocks[i].tor == blocks[pos].tor
    {
      assert blocks[i] == blocks[pos..pos + n][i - pos];
    }
  }

  // ---- what a write does to the views -------------------------------------

  /** A block put in the cache changes its own bytes of its own torrent. */
  lemma InsertView(torrents: Torrents, blocks: seq<CacheBlock>, b: CacheBlock, pos: nat, id: int, flat: seq<Byte>)
    requires BlocksOk(torrents, blocks) && BlockOk(torrents, b) && pos <= |blocks|
    requires Sorted(Insert(blocks, b, pos)) && id in torrents && |flat| == torrents[id].totalSize
    ensures BlocksOk(torrents, Insert(blocks, b, pos))
    ensures id == b.tor ==> ExtentOf(torrents, b).End() <= |flat|
    ensures View(Extents(torrents, Insert(blocks, b, pos)), id, flat)
            == if id == b.tor then Splice(View(Extents(torrents, blocks), id, flat), ExtentOf(torrents, b).start, b.data)
               else View(Extents(torrents, blocks), id, flat)
  {
    ExtentsInsert(torrents, blocks, b, pos);
    BlocksApart(torrents, Insert(blocks, b, pos));
    BlocksInside(torrents, Insert(blocks, b, pos), id);
    ViewAfterInsert(Extents(torrents, blocks), id, flat, pos, ExtentOf(torrents, b));
  }

  lemma ReplaceView(torrents: Torrents, blocks: seq<CacheBlock>, b: CacheBlock, pos: nat, id: int, flat: seq<Byte>)
    requires BlocksOk(torrents, blocks) && Sorted(blocks) && pos < |blocks|
    requires b == blocks[pos].(time := b.time, data := b.data) && |b.data| == b.length
    requires id in torrents && |flat| == torrents[id].totalSize
    ensures BlocksOk(torrents, blocks[pos := b])
    ensures id == b.tor ==> ExtentOf(torrents, b).End() <= |flat|
    ensures View(Extents(torrents, blocks[pos := b]), id, flat)
            == if id == b.tor then Splice(View(Extents(torrents, blocks), id, flat), ExtentOf(torrents, b).start, b.data)
               else View(Extents(torrents, blocks), id, flat)
  {
    var es := Extents(torrents, blocks);
    BlocksApart(torrents, blocks);
    BlocksInside(torrents, blocks, id);
    assert Extents(torrents, blocks[pos := b]) == es[pos := es[pos].(data := b.data)];
    ViewAfterReplace(es, id, flat, pos, b.data);
  }

  /** Two versions of one block have the same length and lie at the same place. */
  lemma SamePlace(torrents: Torrents, a: CacheBlock, b: CacheBlock)
    requires BlockOk(torrents, a) && BlockOk(torrents, b) && a.tor == b.tor && a.block == b.block
    ensures a.length == b.length && ExtentOf(torrents, a).start == ExtentOf(torrents, b).start
  {
  }

  lemma SortedReplace(blocks: seq<CacheBlock>, b: CacheBlock, pos: nat)
    requires Sorted(blocks) && pos < |blocks| && b.tor == blocks[pos].tor && b.block == blocks[pos].block
    ensures Sorted(blocks[pos := b])
  {
  }
}
