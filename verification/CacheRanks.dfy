/**
 * Flushing the finished runs stops at the first run that is not finished: when
 * that leaves none behind, and a cache in which it does.
 */
module CacheRanks {
  import opened Geometry
  import opened Sorting
  import opened Storage
  import opened CacheBlocks
  import opened BlockCache

  /** A run's length, and one more for every 32 seconds it has not grown. */
  function Base(r: RunInfo, now: int): int {
    r.len + TruncDiv(now - r.lastBlockTime, 32)
  }

  predicate HasFlag(rank: int, flag: nat)
    requires flag > 0
  {
    (rank / flag) % 2 == 1
  }

  /** What the flags add to the base: nothing if the age has set their bit already. */
  function Raise(r: RunInfo, now: int): int {
    (if r.isPieceDone && !HasFlag(Base(r, now), DONEFLAG) then DONEFLAG else 0)
    + if r.isMultiPiece && !HasFlag(Base(r, now), MULTIFLAG) then MULTIFLAG else 0
  }

  /** In lengths, ages and flags: a finished or multi-piece run ranks above one that is neither. */
  predicate Outranks(r: RunInfo, q: RunInfo, now: int) {
    Base(r, now) + Raise(r, now) > Base(q, now)
  }

  lemma OutranksIsRank(r: RunInfo, q: RunInfo, now: int)
    requires !Flagged(q)
    ensures Outranks(r, q, now) <==> Rank(r, now) > Rank(q, now)
  {
  }

  // ---- the runs of a cache ------------------------------------------------

  lemma LongestUnique(blocks: seq<CacheBlock>, pos: nat, m: nat, n: nat)
    requires LongestFrom(blocks, pos, m) && LongestFrom(blocks, pos, n)
    ensures m == n
  {
    LongestAtMost(blocks, pos, m, n);
    LongestAtMost(blocks, pos, n, m);
  }

  lemma LongestAtMost(blocks: seq<CacheBlock>, pos: nat, m: nat, n: nat)
    requires LongestFrom(blocks, pos, m) && 0 < n && pos + n <= |blocks| && Contiguous(blocks[pos..pos + n])
    ensures n <= m
  {
    if n > m {
      var long, short := blocks[pos..pos + n], blocks[pos..pos + m + 1];
      forall k | 0 <= k < |short|
        ensures short[k].tor == short[0].tor && short[k].block == short[0].block + k
      {
        assert short[k] == long[k] && short[0] == long[0];
      }
    }
  }

  /** The runs of a cache, in the order of their positions. */
  ghost predicate Runs(blocks: seq<CacheBlock>, chain: seq<RunInfo>, now: int, done: PieceDone) {
    Chain(blocks, chain, 0, |blocks|) && forall r :: r in chain ==> Described(blocks, r, now, done)
  }

  lemma {:induction false} ChainUnique(blocks: seq<CacheBlock>, a: seq<RunInfo>, b: seq<RunInfo>, from: nat, to: nat,
                                       now: int, done: PieceDone)
    requires Chain(blocks, a, from, to) && Chain(blocks, b, from, to)
    requires forall r :: r in a || r in b ==> Described(blocks, r, now, done)
    ensures a == b
  {
    ChainTotal(blocks, a, from, to);
    ChainTotal(blocks, b, from, to);
    if a != [] && b != [] {
      assert a[0] in a && b[0] in b;
      LongestUnique(blocks, from, a[0].len, b[0].len);
      assert a[0] == b[0];
      ChainUnique(blocks, a[1..], b[1..], from + a[0].len, to, now, done);
    } else if a != [] {
      FirstPositive(blocks, a, from, to);
    } else if b != [] {
      FirstPositive(blocks, b, from, to);
    }
  }

  lemma FirstPositive(blocks: seq<CacheBlock>, runs: seq<RunInfo>, from: nat, to: nat)
    requires Chain(blocks, runs, from, to)
    ensures runs != [] ==> from < to
  {
    ChainTotal(blocks, runs, from, to);
  }

  // ---- what is left behind ------------------------------------------------

  /** How a flush of the finished runs can divide the runs: it takes them from the front of some ranked order. */
  ghost predicate DoneSplit(blocks: seq<CacheBlock>, flushed: seq<RunInfo>, kept: seq<RunInfo>, now: int, done: PieceDone) {
    && RankedSplit(blocks, flushed, kept, now, done)
    && (forall r :: r in flushed ==> Flagged(r))
    && (kept != [] ==> !Flagged(kept[0]))
  }

  ghost predicate NoneFlagged(runs: seq<RunInfo>) {
    forall r :: r in runs ==> !Flagged(r)
  }

  /** Ranked runs, those that are not flagged first among equals. */
  function CompareFlagsLast(a: RunInfo, b: RunInfo): int {
    if a.rank != b.rank then b.rank - a.rank else One(Flagged(a)) - One(Flagged(b))
  }

  function One(b: bool): int { if b then 1 else 0 }

  lemma FlagsLastOrder(all: set<RunInfo>)
    ensures Total(CompareFlagsLast, all) && Transitive(CompareFlagsLast, all)
  {
  }

  lemma {:induction false} FlagsLastIsRanked(s: seq<RunInfo>)
    requires SortedBy(s, CompareFlagsLast)
    ensures SortedBy(s, CompareRuns)
  {
    forall i, j | 0 <= i < j < |s|
      ensures CompareRuns(s[i], s[j]) <= 0
    {
      SortedAt(s, CompareFlagsLast, i, j);
    }
    SortedByPairs(s, CompareRuns);
  }

  /** How many flagged runs a list begins with. */
  function Leading(s: seq<RunInfo>): (n: nat)
    ensures n <= |s| && (forall i :: 0 <= i < n ==> Flagged(s[i])) && (n < |s| ==> !Flagged(s[n]))
  {
    if s == [] || !Flagged(s[0]) then 0 else 1 + Leading(s[1..])
  }

  lemma FlagsLast(chain: seq<RunInfo>) returns (all: seq<RunInfo>)
    ensures SortedBy(all, CompareFlagsLast) && SortedBy(all, CompareRuns) && multiset(all) == multiset(chain)
    ensures forall r :: r in all <==> r in chain
  {
    var members := set x | x in chain;
    all := QSort(chain, CompareFlagsLast);
    FlagsLastOrder(members);
    QSortSorted(chain, CompareFlagsLast, members);
    FlagsLastIsRanked(all);
    SameMembers(all, chain);
  }

  /** A flagged run that does not outrank some other one can be left behind. */
  lemma LeftBehind(blocks: seq<CacheBlock>, chain: seq<RunInfo>, now: int, done: PieceDone, r: RunInfo, q: RunInfo)
    returns (flushed: seq<RunInfo>, kept: seq<RunInfo>)
    requires Runs(blocks, chain, now, done) && r in chain && q in chain && Flagged(r) && !Flagged(q) && r.rank <= q.rank
    ensures DoneSplit(blocks, flushed, kept, now, done) && r in kept
  {
    var all := FlagsLast(chain);
    flushed, kept := all[..Leading(all)], all[Leading(all)..];
    LeadingSplit(blocks, chain, all, now, done);
    var i :| 0 <= i < |all| && all[i] == q;
    var j :| 0 <= j < |all| && all[j] == r;
    Behind(all, i, j);
    assert kept[j - Leading(all)] == r;
  }

  lemma LeadingSplit(blocks: seq<CacheBlock>, chain: seq<RunInfo>, all: seq<RunInfo>, now: int, done: PieceDone)
    requires Runs(blocks, chain, now, done) && multiset(all) == multiset(chain) && SortedBy(all, CompareRuns)
    ensures DoneSplit(blocks, all[..Leading(all)], all[Leading(all)..], now, done)
  {
    assert all[..Leading(all)] + all[Leading(all)..] == all;
    assert RankedSplit(blocks, all[..Leading(all)], all[Leading(all)..], now, done);
  }

  lemma Behind(all: seq<RunInfo>, i: nat, j: nat)
    requires SortedBy(all, CompareFlagsLast) && i < |all| && j < |all|
    requires Flagged(all[j]) && !Flagged(all[i]) && all[j].rank <= all[i].rank
    ensures Leading(all) <= i < j
  {
    if j < i {
      SortedAt(all, CompareFlagsLast, j, i);
    }
  }

  lemma NoneBehind(flushed: seq<RunInfo>, kept: seq<RunInfo>)
    requires SortedBy(flushed + kept, CompareRuns) && (kept != [] ==> !Flagged(kept[0]))
    requires forall r, q :: r in kept && q in kept && Flagged(r) && !Flagged(q) ==> r.rank > q.rank
    ensures NoneFlagged(kept)
  {
    forall k | 0 <= k < |kept|
      ensures !Flagged(kept[k])
    {
      var all := flushed + kept;
      assert all[|flushed|] == kept[0] && all[|flushed| + k] == kept[k];
      if k > 0 {
        SortedAt(all, CompareRuns, |flushed|, |flushed| + k);
        assert kept[0] in kept && kept[k] in kept;
      }
    }
  }

  /** No outcome of flushing the finished runs leaves a flagged run in the cache. */
  ghost predicate LeavesNone(blocks: seq<CacheBlock>, now: int, done: PieceDone) {
    forall flushed, kept :: DoneSplit(blocks, flushed, kept, now, done) ==> NoneFlagged(kept)
  }

  /**
   * Whichever way the runs of a cache are sorted by rank, flushing the finished
   * ones leaves none behind if and only if each of them, by its length, age and
   * flags, outranks each run that is not flagged.
   */
  lemma NoFlaggedKept(blocks: seq<CacheBlock>, chain: seq<RunInfo>, now: int, done: PieceDone)
    requires Runs(blocks, chain, now, done)
    ensures LeavesNone(blocks, now, done)
            <==> forall r, q :: r in chain && q in chain && Flagged(r) && !Flagged(q) ==> Outranks(r, q, now)
  {
    forall r, q | r in chain && q in chain && Flagged(r) && !Flagged(q)
      ensures Outranks(r, q, now) <==> r.rank > q.rank
    {
      OutranksIsRank(r, q, now);
    }
    if r, q :| r in chain && q in chain && Flagged(r) && !Flagged(q) && r.rank <= q.rank {
      var flushed, kept := LeftBehind(blocks, chain, now, done, r, q);
      assert !NoneFlagged(kept);
    } else {
      NoneLeft(blocks, chain, now, done);
    }
  }

  lemma NoneLeft(blocks: seq<CacheBlock>, chain: seq<RunInfo>, now: int, done: PieceDone)
    requires Runs(blocks, chain, now, done)
    requires forall r, q :: r in chain && q in chain && Flagged(r) && !Flagged(q) ==> r.rank > q.rank
    ensures LeavesNone(blocks, now, done)
  {
    forall flushed, kept | DoneSplit(blocks, flushed, kept, now, done)
      ensures NoneFlagged(kept)
    {
      SplitMembers(blocks, chain, flushed, kept, now, done);
      NoneBehind(flushed, kept);
    }
  }

  lemma SplitMembers(blocks: seq<CacheBlock>, chain: seq<RunInfo>, flushed: seq<RunInfo>, kept: seq<RunInfo>, now: int, done: PieceDone)
    requires Runs(blocks, chain, now, done) && RankedSplit(blocks, flushed, kept, now, done)
    ensures multiset(flushed + kept) == multiset(chain)
    ensures forall r :: r in flushed || r in kept <==> r in chain
  {
    var other :| Chain(blocks, other, 0, |blocks|) && (forall r :: r in other ==> Described(blocks, r, now, done))
                 && multiset(flushed + kept) == multiset(other);
    ChainUnique(blocks, chain, other, 0, |blocks|, now, done);
    SameMembers(flushed + kept, chain);
  }

  // ---- a finished run left behind -----------------------------------------

  /** Three blocks of four bytes, every block a piece, in one file. */
  predicate Three(t: Torrent) {
    t.uniqueId == 1 && t.pieceSize == 4 && t.pieceCount == 3 && t.totalSize == 12 && t.blockSize == 4 && t.files == [FileSpan(0, 12)]
  }

  lemma ThreeIs(t: Torrent)
    requires Three(t)
    ensures t.Valid() && t.BlockCount() == 3 && t.BlockBytes(0) == t.BlockBytes(2) == 4
    ensures t.BlockStart(0) == t.PieceOffset(0, 0) == 0 && t.BlockStart(2) == t.PieceOffset(2, 0) == 8
  {
    assert t.files[1..] == [];
    assert t.LastPieceSize() == 4 && t.LastBlockSize() == 4;
  }

  /** One block that has been waiting for six days, and one of a piece just finished. */
  function StaleAndFinished(now: int): seq<CacheBlock> {
    [CacheBlock(1, 0, 0, 4, now - 0x80000, 0, [1, 2, 3, 4]), CacheBlock(1, 2, 0, 4, now, 2, [5, 6, 7, 8])]
  }

  function LastDone(tor: int, piece: nat): bool { piece == 2 }

  function StaleRun(now: int): RunInfo { RunInfo(0, 0x4001, now - 0x80000, false, false, 1) }

  function FinishedRun(now: int): RunInfo { RunInfo(1, 0x2001, now, false, true, 1) }

  lemma StaleRuns(now: int)
    ensures Runs(StaleAndFinished(now), [StaleRun(now), FinishedRun(now)], now, LastDone)
  {
    var blocks, chain := StaleAndFinished(now), [StaleRun(now), FinishedRun(now)];
    assert blocks[0..1] == [blocks[0]] && blocks[1..2] == [blocks[1]];
    assert blocks[0..2][0] == blocks[0] && blocks[0..2][1] == blocks[1];
    assert LongestFrom(blocks, 0, 1) && LongestFrom(blocks, 1, 1);
    assert chain[1..] == [FinishedRun(now)] && chain[1..][1..] == [];
    assert Chain(blocks, chain[1..][1..], 2, 2) && Chain(blocks, chain[1..], 1, 2);
    assert Described(blocks, StaleRun(now), now, LastDone);
    assert Described(blocks, FinishedRun(now), now, LastDone);
  }

  lemma FlaggedFront(flushed: seq<RunInfo>, kept: seq<RunInfo>)
    requires forall r :: r in flushed ==> Flagged(r)
    ensures flushed != [] ==> Flagged((flushed + kept)[0])
  {
    assert flushed != [] ==> (flushed + kept)[0] == flushed[0] && flushed[0] in flushed;
  }

  lemma StaleFirst(now: int, all: seq<RunInfo>)
    requires SortedBy(all, CompareRuns) && StaleRun(now) in all
    ensures all[0] != FinishedRun(now)
  {
    SortedHead(all, CompareRuns, StaleRun(now));
    assert CompareRuns(FinishedRun(now), StaleRun(now)) == 0x2000;
  }

  /** No outcome flushes either run: the stale one comes first, and is not flagged. */
  lemma NothingFlushed(now: int, flushed: seq<RunInfo>, kept: seq<RunInfo>)
    requires DoneSplit(StaleAndFinished(now), flushed, kept, now, LastDone)
    ensures flushed == [] && FinishedRun(now) in kept
  {
    var chain, all := [StaleRun(now), FinishedRun(now)], flushed + kept;
    StaleRuns(now);
    SplitMembers(StaleAndFinished(now), chain, flushed, kept, now, LastDone);
    assert StaleRun(now) in chain && FinishedRun(now) in chain;
    StaleFirst(now, all);
    assert all[0] in chain;
    FlaggedFront(flushed, kept);
  }

  lemma NothingLeft(before: seq<CacheBlock>, after: seq<CacheBlock>)
    requires Flushed(before, [], after) && Sorted(before) && |before| == 2 && Sorted(after)
    ensures after == before
  {
    assert forall b :: !InRuns(before, [], b);
    assert after[0] in after && after[1] in after && before[0] in before && before[1] in before;
  }

  /** A cache in which flushing the finished runs leaves a finished run behind. */
  method FinishedLeft(t: Torrent, now: int) returns (cache: Cache, err: int)
    requires Three(t)
    ensures fresh(cache) && cache.Valid() && err == 0
    ensures cache.blocks == StaleAndFinished(now) && LastDone(1, cache.blocks[1].piece)
  {
    ThreeIs(t);
    var files := new TorrentFiles(t, [[0, 0, 0, 0, 0, 0, 0, 0, 0, 0, 0, 0]]);
    cache := new Cache(map[1 := files], map[1 := t], 0x10_0000);
    cache.blocks := StaleAndFinished(now);
    assert BlockOk(cache.torrents, cache.blocks[0]) && BlockOk(cache.torrents, cache.blocks[1]);
    ghost var flushed, kept;
    err, flushed, kept := cache.FlushDone(now, LastDone);
    NothingFlushed(now, flushed, kept);
    NothingLeft(StaleAndFinished(now), cache.blocks);
  }
}
