/**
 * What a read through the cache answers, and exactly when that is what the
 * torrent's bytes are. The cache looks only at the block in which a read
 * starts, and a cached block answers with its first bytes.
 */
module CacheReads {
  import opened Geometry
  import opened Storage
  import opened Overlay
  import opened CacheBlocks

  /** Some block of a torrent, asked for by piece, offset and length. */
  datatype Place = Place(tor: int, piece: nat, offset: nat, len: nat)

  ghost predicate PlaceOk(torrents: Torrents, at: Place) {
    && at.tor in torrents && torrents[at.tor].Valid()
    && at.piece < torrents[at.tor].pieceCount && torrents[at.tor].InRange(at.piece, at.offset, at.len)
  }

  /** Where the read starts in its torrent, and in which block. */
  function StartOf(torrents: Torrents, at: Place): nat
    requires at.tor in torrents
  {
    torrents[at.tor].PieceOffset(at.piece, at.offset)
  }

  function FirstOf(torrents: Torrents, at: Place): nat
    requires at.tor in torrents && torrents[at.tor].blockSize > 0
  {
    torrents[at.tor].BlockOf(at.piece, at.offset)
  }

  /** The `i`th cached block is the one in which the read starts. */
  predicate HitAt(torrents: Torrents, blocks: seq<CacheBlock>, at: Place, i: nat)
    requires at.tor in torrents && torrents[at.tor].blockSize > 0
  {
    i < |blocks| && blocks[i].tor == at.tor && blocks[i].block == FirstOf(torrents, at)
  }

  ghost predicate Hit(torrents: Torrents, blocks: seq<CacheBlock>, at: Place)
    requires at.tor in torrents && torrents[at.tor].blockSize > 0
  {
    exists i: nat :: HitAt(torrents, blocks, at, i)
  }

  /** The block has some of the bytes asked for. */
  ghost predicate Meets(torrents: Torrents, b: CacheBlock, at: Place)
    requires at.tor in torrents && b.tor in torrents
  {
    var e := ExtentOf(torrents, b);
    b.tor == at.tor && e.start < StartOf(torrents, at) + at.len && StartOf(torrents, at) < e.End()
  }

  /**
   * Nothing is asked for; or the first block is cached, and the read starts at
   * its start and stays inside it; or it is not, and no cached block has any of
   * the bytes.
   */
  ghost predicate ReadsRight(torrents: Torrents, blocks: seq<CacheBlock>, at: Place)
    requires BlocksOk(torrents, blocks) && at.tor in torrents && torrents[at.tor].blockSize > 0
  {
    at.len == 0
    || if Hit(torrents, blocks, at) then Aligned(torrents, at)
       else forall i: nat :: i < |blocks| ==> !Meets(torrents, blocks[i], at)
  }

  predicate Aligned(torrents: Torrents, at: Place)
    requires at.tor in torrents && torrents[at.tor].blockSize > 0
  {
    at.offset % torrents[at.tor].blockSize == 0 && at.len <= torrents[at.tor].BlockBytes(FirstOf(torrents, at))
  }

  /** What a buffer holds after the read. */
  ghost function Answer(torrents: Torrents, blocks: seq<CacheBlock>, at: Place, flat: seq<Byte>, before: seq<Byte>): (r: seq<Byte>)
    requires at.tor in torrents && torrents[at.tor].blockSize > 0
    requires StartOf(torrents, at) + at.len <= |flat| && at.len <= |before|
    ensures |r| == |before|
  {
    if i: nat :| HitAt(torrents, blocks, at, i) then
      Splice(before, 0, if at.len < |blocks[i].data| then blocks[i].data[..at.len] else blocks[i].data)
    else Splice(before, 0, flat[StartOf(torrents, at)..StartOf(torrents, at) + at.len])
  }

  // ---- when it is right ---------------------------------------------------

  lemma FirstBlock(torrents: Torrents, at: Place)
    requires PlaceOk(torrents, at)
    ensures var t, b := torrents[at.tor], FirstOf(torrents, at);
            && b < t.BlockCount()
            && StartOf(torrents, at) == t.BlockStart(b) + at.offset % t.blockSize
            && at.offset % t.blockSize < t.BlockBytes(b)
  {
    var t := torrents[at.tor];
    BlockOfIsGlobal(t, at.piece, at.offset);
    QuotientIsBlock(t, StartOf(torrents, at));
    ByteInBlock(t, StartOf(torrents, at), FirstOf(torrents, at));
  }

  lemma HitExtent(torrents: Torrents, blocks: seq<CacheBlock>, at: Place, i: nat)
    requires BlocksOk(torrents, blocks) && PlaceOk(torrents, at) && HitAt(torrents, blocks, at, i)
    ensures var e, t := ExtentOf(torrents, blocks[i]), torrents[at.tor];
            && e.tor == at.tor && e.start == t.BlockStart(FirstOf(torrents, at)) && e.End() <= t.totalSize
            && |e.data| == t.BlockBytes(FirstOf(torrents, at))
            && StartOf(torrents, at) == e.start + at.offset % t.blockSize < e.End()
  {
    FirstBlock(torrents, at);
    assert BlockOk(torrents, blocks[i]);
    ExtentInside(torrents, blocks[i]);
  }

  lemma OrderedPair(blocks: seq<CacheBlock>, i: nat, j: nat)
    requires Sorted(blocks) && i < |blocks| && j < |blocks|
    ensures blocks[i].tor == blocks[j].tor && blocks[i].block == blocks[j].block ==> i == j
  {
    if i < j {
      assert CompareBlocks(blocks[i], blocks[j]) < 0;
    } else if j < i {
      assert CompareBlocks(blocks[j], blocks[i]) < 0;
    }
  }

  lemma HitUnique(torrents: Torrents, blocks: seq<CacheBlock>, at: Place, i: nat)
    requires Sorted(blocks) && at.tor in torrents && torrents[at.tor].blockSize > 0 && HitAt(torrents, blocks, at, i)
    ensures forall j: nat :: HitAt(torrents, blocks, at, j) ==> j == i
  {
    forall j: nat | HitAt(torrents, blocks, at, j)
      ensures j == i
    {
      OrderedPair(blocks, i, j);
    }
  }

  /** A byte of a cached block, seen by a reader. */
  lemma CachedByte(torrents: Torrents, blocks: seq<CacheBlock>, i: nat, flat: seq<Byte>, h: nat)
    requires BlocksOk(torrents, blocks) && Sorted(blocks) && i < |blocks|
    requires |flat| == torrents[blocks[i].tor].totalSize
    requires ExtentOf(torrents, blocks[i]).start <= h < ExtentOf(torrents, blocks[i]).End()
    ensures h < |flat|
    ensures View(Extents(torrents, blocks), blocks[i].tor, flat)[h] == blocks[i].data[h - ExtentOf(torrents, blocks[i]).start]
  {
    BlocksApart(torrents, blocks);
    ExtentInside(torrents, blocks[i]);
    var es := Extents(torrents, blocks);
    assert es[i] == ExtentOf(torrents, blocks[i]);
    Covered(es, blocks[i].tor, flat, es[i], h);
  }

  /** The torrent's bytes that are asked for. */
  ghost function Wanted(torrents: Torrents, blocks: seq<CacheBlock>, at: Place, flat: seq<Byte>): (r: seq<Byte>)
    requires BlocksOk(torrents, blocks) && at.tor in torrents && StartOf(torrents, at) + at.len <= |flat|
    ensures |r| == at.len
  {
    View(Extents(torrents, blocks), at.tor, flat)[StartOf(torrents, at)..StartOf(torrents, at) + at.len]
  }

  lemma RightHit(torrents: Torrents, blocks: seq<CacheBlock>, at: Place, flat: seq<Byte>, i: nat)
    requires BlocksOk(torrents, blocks) && Sorted(blocks) && PlaceOk(torrents, at) && |flat| == torrents[at.tor].totalSize
    requires HitAt(torrents, blocks, at, i) && Aligned(torrents, at)
    ensures at.len <= |blocks[i].data| && Wanted(torrents, blocks, at, flat) == blocks[i].data[..at.len]
  {
    HitExtent(torrents, blocks, at, i);
    var g := StartOf(torrents, at);
    forall k | 0 <= k < at.len
      ensures Wanted(torrents, blocks, at, flat)[k] == blocks[i].data[k]
    {
      CachedByte(torrents, blocks, i, flat, g + k);
    }
  }

  lemma RightMiss(torrents: Torrents, blocks: seq<CacheBlock>, at: Place, flat: seq<Byte>)
    requires BlocksOk(torrents, blocks) && PlaceOk(torrents, at) && |flat| == torrents[at.tor].totalSize
    requires forall i: nat :: i < |blocks| ==> !Meets(torrents, blocks[i], at)
    ensures Wanted(torrents, blocks, at, flat) == flat[StartOf(torrents, at)..StartOf(torrents, at) + at.len]
  {
    var es, g := Extents(torrents, blocks), StartOf(torrents, at);
    forall i | 0 <= i < |es| && es[i].tor == at.tor
      ensures es[i].End() <= g || g + at.len <= es[i].start
    {
      assert !Meets(torrents, blocks[i], at);
    }
    ViewBeside(es, at.tor, flat, g, g + at.len);
  }

  lemma RightAnswers(torrents: Torrents, blocks: seq<CacheBlock>, at: Place, flat: seq<Byte>, before: seq<Byte>)
    requires BlocksOk(torrents, blocks) && Sorted(blocks) && PlaceOk(torrents, at)
    requires |flat| == torrents[at.tor].totalSize && at.len <= |before| && ReadsRight(torrents, blocks, at)
    ensures Answer(torrents, blocks, at, flat, before) == Splice(before, 0, Wanted(torrents, blocks, at, flat))
  {
    if at.len == 0 {
      assert forall s: seq<Byte> :: s[..0] == [];
      assert Wanted(torrents, blocks, at, flat) == [];
    } else if Hit(torrents, blocks, at) {
      var i: nat :| HitAt(torrents, blocks, at, i);
      RightHit(torrents, blocks, at, flat, i);
      HitUnique(torrents, blocks, at, i);
      assert at.len == |blocks[i].data| ==> blocks[i].data[..at.len] == blocks[i].data;
    } else {
      RightMiss(torrents, blocks, at, flat);
    }
  }

  // ---- ... and only then --------------------------------------------------

  /** The same blocks, with other data. */
  ghost predicate SameBlocks(a: seq<CacheBlock>, b: seq<CacheBlock>) {
    |a| == |b| && forall i :: 0 <= i < |a| ==> |b[i].data| == |a[i].data| && b[i] == a[i].(data := b[i].data)
  }

  lemma SameIsOk(torrents: Torrents, a: seq<CacheBlock>, b: seq<CacheBlock>)
    requires SameBlocks(a, b) && BlocksOk(torrents, a) && Sorted(a)
    ensures BlocksOk(torrents, b) && Sorted(b)
  {
    forall i | 0 <= i < |b|
      ensures BlockOk(torrents, b[i])
    {
      assert BlockOk(torrents, a[i]);
    }
    forall i, j | 0 <= i < j < |b|
      ensures CompareBlocks(b[i], b[j]) < 0
    {
      assert CompareBlocks(a[i], a[j]) < 0;
    }
  }

  lemma SameIsRight(torrents: Torrents, a: seq<CacheBlock>, b: seq<CacheBlock>, at: Place)
    requires SameBlocks(a, b) && BlocksOk(torrents, a) && BlocksOk(torrents, b)
    requires at.tor in torrents && torrents[at.tor].blockSize > 0
    ensures ReadsRight(torrents, a, at) ==> ReadsRight(torrents, b, at)
  {
    forall i: nat
      ensures HitAt(torrents, a, at, i) == HitAt(torrents, b, at, i)
    {
    }
    if i: nat :| HitAt(torrents, b, at, i) {
      assert HitAt(torrents, a, at, i);
    }
    if i: nat :| HitAt(torrents, a, at, i) {
      assert HitAt(torrents, b, at, i);
    }
    forall i: nat | i < |b|
      ensures Meets(torrents, b[i], at) == Meets(torrents, a[i], at)
    {
    }
  }

  /** With these blocks cached, a read is right whatever they and the disk contain and whatever the buffer held. */
  ghost predicate AlwaysRight(torrents: Torrents, blocks: seq<CacheBlock>, at: Place)
    requires BlocksOk(torrents, blocks) && Sorted(blocks) && PlaceOk(torrents, at)
  {
    forall contents: seq<CacheBlock>, flat: seq<Byte>, before: seq<Byte> ::
      SameBlocks(blocks, contents) && |flat| == torrents[at.tor].totalSize && |before| == at.len
      ==> RightFor(torrents, blocks, contents, at, flat, before)
  }

  ghost predicate RightFor(torrents: Torrents, blocks: seq<CacheBlock>, contents: seq<CacheBlock>, at: Place,
                           flat: seq<Byte>, before: seq<Byte>)
    requires BlocksOk(torrents, blocks) && Sorted(blocks) && PlaceOk(torrents, at)
    requires SameBlocks(blocks, contents) && |flat| == torrents[at.tor].totalSize && |before| == at.len
  {
    SameIsOk(torrents, blocks, contents);
    Answer(torrents, contents, at, flat, before) == Wanted(torrents, contents, at, flat)
  }

  /** The first byte of the cached block, where another one was asked for. */
  lemma WrongStart(torrents: Torrents, blocks: seq<CacheBlock>, at: Place, i: nat, flat: seq<Byte>)
    returns (contents: seq<CacheBlock>)
    requires BlocksOk(torrents, blocks) && Sorted(blocks) && PlaceOk(torrents, at) && at.len > 0
    requires HitAt(torrents, blocks, at, i) && at.offset % torrents[at.tor].blockSize != 0 && |flat| == torrents[at.tor].totalSize
    ensures SameBlocks(blocks, contents) && BlocksOk(torrents, contents)
    ensures forall before: seq<Byte> :: |before| == at.len ==>
              Answer(torrents, contents, at, flat, before)[0] != Wanted(torrents, contents, at, flat)[0]
  {
    HitExtent(torrents, blocks, at, i);
    var n, k := |blocks[i].data|, at.offset % torrents[at.tor].blockSize;
    var data: seq<Byte> := seq(n, j => if j == 0 then 1 else 0);
    contents := blocks[i := blocks[i].(data := data)];
    SameIsOk(torrents, blocks, contents);
    HitExtent(torrents, contents, at, i);
    CachedByte(torrents, contents, i, flat, StartOf(torrents, at));
    assert Wanted(torrents, contents, at, flat)[0] == data[k] == 0;
    forall before: seq<Byte> | |before| == at.len
      ensures Answer(torrents, contents, at, flat, before)[0] == 1
    {
      AnswerHit(torrents, contents, at, flat, before, i);
    }
  }

  lemma AnswerHit(torrents: Torrents, blocks: seq<CacheBlock>, at: Place, flat: seq<Byte>, before: seq<Byte>, i: nat)
    requires BlocksOk(torrents, blocks) && Sorted(blocks) && PlaceOk(torrents, at)
    requires |flat| == torrents[at.tor].totalSize && at.len <= |before| && HitAt(torrents, blocks, at, i)
    ensures forall k :: 0 <= k < at.len ==>
              Answer(torrents, blocks, at, flat, before)[k] == if k < |blocks[i].data| then blocks[i].data[k] else before[k]
  {
    HitUnique(torrents, blocks, at, i);
  }

  lemma AnswerMiss(torrents: Torrents, blocks: seq<CacheBlock>, at: Place, flat: seq<Byte>, before: seq<Byte>)
    requires PlaceOk(torrents, at) && |flat| == torrents[at.tor].totalSize && at.len <= |before| && !Hit(torrents, blocks, at)
    ensures forall k :: 0 <= k < at.len ==> Answer(torrents, blocks, at, flat, before)[k] == flat[StartOf(torrents, at) + k]
  {
  }

  /**
   * With given blocks cached, every in-range read gets the torrent's current
   * bytes, whatever they are, if and only if it is one of those that are right.
   */
  lemma RightExactly(torrents: Torrents, blocks: seq<CacheBlock>, at: Place)
    requires BlocksOk(torrents, blocks) && Sorted(blocks) && PlaceOk(torrents, at)
    ensures AlwaysRight(torrents, blocks, at) <==> ReadsRight(torrents, blocks, at)
  {
    if ReadsRight(torrents, blocks, at) {
      forall contents: seq<CacheBlock>, flat: seq<Byte>, before: seq<Byte> |
        SameBlocks(blocks, contents) && |flat| == torrents[at.tor].totalSize && |before| == at.len
        ensures RightFor(torrents, blocks, contents, at, flat, before)
      {
        SameIsOk(torrents, blocks, contents);
        SameIsRight(torrents, blocks, contents, at);
        RightAnswers(torrents, contents, at, flat, before);
      }
    } else {
      var contents, flat, before := WrongRead(torrents, blocks, at);
      assert !RightFor(torrents, blocks, contents, at, flat, before);
    }
  }

  lemma WrongRead(torrents: Torrents, blocks: seq<CacheBlock>, at: Place)
    returns (contents: seq<CacheBlock>, flat: seq<Byte>, before: seq<Byte>)
    requires BlocksOk(torrents, blocks) && Sorted(blocks) && PlaceOk(torrents, at) && !ReadsRight(torrents, blocks, at)
    ensures SameBlocks(blocks, contents) && |flat| == torrents[at.tor].totalSize && |before| == at.len
    ensures !RightFor(torrents, blocks, contents, at, flat, before)
  {
    contents := blocks;
    flat, before := Filled(torrents[at.tor].totalSize, 0), Filled(at.len, 0);
    if Hit(torrents, blocks, at) {
      var i: nat :| HitAt(torrents, blocks, at, i);
      if at.offset % torrents[at.tor].blockSize != 0 {
        contents := WrongStart(torrents, blocks, at, i, flat);
      } else {
        before := WrongEnd(torrents, blocks, at, i, flat);
      }
    } else {
      var i: nat :| i < |blocks| && Meets(torrents, blocks[i], at);
      flat := WrongMiss(torrents, blocks, at, i, before);
    }
  }

  /** Past the end of the cached block, the buffer is left as it was. */
  lemma WrongEnd(torrents: Torrents, blocks: seq<CacheBlock>, at: Place, i: nat, flat: seq<Byte>) returns (before: seq<Byte>)
    requires BlocksOk(torrents, blocks) && Sorted(blocks) && PlaceOk(torrents, at) && |flat| == torrents[at.tor].totalSize
    requires HitAt(torrents, blocks, at, i) && at.len > torrents[at.tor].BlockBytes(FirstOf(torrents, at))
    ensures |before| == at.len && Answer(torrents, blocks, at, flat, before) != Wanted(torrents, blocks, at, flat)
  {
    HitExtent(torrents, blocks, at, i);
    var n := |blocks[i].data|;
    var wanted := Wanted(torrents, blocks, at, flat);
    before := Filled(at.len, if wanted[n] == 0 then 1 else 0);
    AnswerHit(torrents, blocks, at, flat, before, i);
    assert Answer(torrents, blocks, at, flat, before)[n] == before[n] != wanted[n];
  }

  /** The disk answers although a block further on is cached. */
  lemma WrongMiss(torrents: Torrents, blocks: seq<CacheBlock>, at: Place, i: nat, before: seq<Byte>) returns (flat: seq<Byte>)
    requires BlocksOk(torrents, blocks) && Sorted(blocks) && PlaceOk(torrents, at) && !Hit(torrents, blocks, at)
    requires i < |blocks| && Meets(torrents, blocks[i], at) && |before| == at.len > 0
    ensures |flat| == torrents[at.tor].totalSize
    ensures Answer(torrents, blocks, at, flat, before) != Wanted(torrents, blocks, at, flat)
  {
    var h := MetByte(torrents, blocks[i], at);
    var stale: Byte := if blocks[i].data[h - ExtentOf(torrents, blocks[i]).start] == 0 then 1 else 0;
    flat := Filled(torrents[at.tor].totalSize, stale);
    assert h < |flat| && flat[h] == stale;
    StaleByte(torrents, blocks, at, i, flat, h, before, stale);
  }

  function Filled(n: nat, b: Byte): (r: seq<Byte>)
    ensures |r| == n && forall k :: 0 <= k < n ==> r[k] == b
  {
    seq(n, k => b)
  }

  lemma MetByte(torrents: Torrents, b: CacheBlock, at: Place) returns (h: nat)
    requires BlockOk(torrents, b) && at.tor in torrents && Meets(torrents, b, at) && at.len > 0
    ensures ExtentOf(torrents, b).start <= h < ExtentOf(torrents, b).End()
    ensures StartOf(torrents, at) <= h < StartOf(torrents, at) + at.len
  {
    h := if ExtentOf(torrents, b).start < StartOf(torrents, at) then StartOf(torrents, at) else ExtentOf(torrents, b).start;
  }

  lemma StaleByte(torrents: Torrents, blocks: seq<CacheBlock>, at: Place, i: nat, flat: seq<Byte>, h: nat, before: seq<Byte>, stale: Byte)
    requires BlocksOk(torrents, blocks) && Sorted(blocks) && PlaceOk(torrents, at) && !Hit(torrents, blocks, at)
    requires |flat| == torrents[at.tor].totalSize && |before| == at.len && i < |blocks| && blocks[i].tor == at.tor
    requires ExtentOf(torrents, blocks[i]).start <= h < ExtentOf(torrents, blocks[i]).End()
    requires StartOf(torrents, at) <= h < StartOf(torrents, at) + at.len
    requires flat[h] == stale != blocks[i].data[h - ExtentOf(torrents, blocks[i]).start]
    ensures Answer(torrents, blocks, at, flat, before) != Wanted(torrents, blocks, at, flat)
  {
    var k := h - StartOf(torrents, at);
    CachedByte(torrents, blocks, i, flat, h);
    AnswerMiss(torrents, blocks, at, flat, before);
    assert Answer(torrents, blocks, at, flat, before)[k] == stale;
    assert Wanted(torrents, blocks, at, flat)[k] == View(Extents(torrents, blocks), at.tor, flat)[h];
  }

  // ---- whatever is cached -------------------------------------------------

  ghost predicate RightIn(torrents: Torrents, blocks: seq<CacheBlock>, at: Place)
    requires PlaceOk(torrents, at)
  {
    BlocksOk(torrents, blocks) && Sorted(blocks) ==> ReadsRight(torrents, blocks, at)
  }

  /** A whole block, as the cache would hold it. */
  function WholeBlock(torrents: Torrents, tor: int, block: nat): CacheBlock
    requires tor in torrents && torrents[tor].blockSize > 0 && torrents[tor].pieceSize > 0
  {
    var t := torrents[tor];
    var start := t.BlockStart(block);
    CacheBlock(tor, start / t.pieceSize, start % t.pieceSize, t.BlockBytes(block), 0, block, Filled(t.BlockBytes(block), 0))
  }

  lemma WholeBlockOk(torrents: Torrents, tor: int, block: nat)
    requires tor in torrents && torrents[tor].Valid() && block < torrents[tor].BlockCount()
    ensures BlockOk(torrents, WholeBlock(torrents, tor, block))
  {
    var t := torrents[tor];
    var start := t.BlockStart(block);
    BlockInside(t, block);
    DivBounds(start, t.pieceSize);
    PieceOfByte(t, start, start / t.pieceSize, start % t.pieceSize);
  }

  lemma PieceOfByte(t: Torrent, g: nat, q: nat, r: nat)
    requires t.Valid() && g < t.totalSize && q == g / t.pieceSize && r == g % t.pieceSize
    ensures q < t.pieceCount && t.PieceOffset(q, r) == g
  {
    DivBounds(g, t.pieceSize);
    if q >= t.pieceCount {
      MulMono(t.pieceCount, q, t.pieceSize);
      PieceInside(t, t.pieceCount - 1);
    }
  }

  lemma OtherBlocks(torrents: Torrents, b: CacheBlock, at: Place)
    requires BlockOk(torrents, b) && PlaceOk(torrents, at) && Aligned(torrents, at)
    requires b.tor == at.tor ==> b.block != FirstOf(torrents, at)
    ensures !Meets(torrents, b, at)
  {
    FirstBlock(torrents, at);
    var t, first := torrents[at.tor], FirstOf(torrents, at);
    BlockInside(t, first);
    if b.tor == at.tor {
      BlockInside(t, b.block);
      if b.block < first {
        MulMono(b.block + 1, first, t.blockSize);
      } else {
        MulMono(first + 1, b.block, t.blockSize);
      }
    }
  }

  /** A read is right whatever is cached if and only if it starts where a block starts and stays inside it. */
  lemma SafeExactly(torrents: Torrents, at: Place)
    requires PlaceOk(torrents, at)
    ensures (forall blocks: seq<CacheBlock> :: RightIn(torrents, blocks, at)) <==> at.len == 0 || Aligned(torrents, at)
  {
    if at.len == 0 || Aligned(torrents, at) {
      forall blocks: seq<CacheBlock> | BlocksOk(torrents, blocks) && Sorted(blocks)
        ensures ReadsRight(torrents, blocks, at)
      {
        SafeIn(torrents, blocks, at);
      }
    } else {
      FirstBlock(torrents, at);
      var b := WholeBlock(torrents, at.tor, FirstOf(torrents, at));
      WholeBlockOk(torrents, at.tor, FirstOf(torrents, at));
      assert HitAt(torrents, [b], at, 0);
      assert !RightIn(torrents, [b], at);
    }
  }

  lemma SafeIn(torrents: Torrents, blocks: seq<CacheBlock>, at: Place)
    requires PlaceOk(torrents, at) && (at.len == 0 || Aligned(torrents, at)) && BlocksOk(torrents, blocks)
    ensures ReadsRight(torrents, blocks, at)
  {
    if at.len > 0 && !Hit(torrents, blocks, at) {
      forall i: nat | i < |blocks|
        ensures !Meets(torrents, blocks[i], at)
      {
        assert !HitAt(torrents, blocks, at, i);
        OtherBlocks(torrents, blocks[i], at);
      }
    }
  }

  // ---- two misreads -------------------------------------------------------

  /** Two blocks of four bytes each, every block a piece, in one file. */
  predicate Small(t: Torrent) {
    t.pieceSize == 4 && t.pieceCount == 2 && t.totalSize == 8 && t.blockSize == 4 && t.files == [FileSpan(0, 8)]
  }

  lemma SmallTorrent(t: Torrent)
    requires Small(t)
    ensures t.Valid() && t.BlockCount() == 2 && t.BlockBytes(0) == t.BlockBytes(1) == 4
    ensures t.BlockStart(0) == 0 && t.BlockStart(1) == 4
  {
    SmallFiles(t.files);
    assert t.LastPieceSize() == 4 && t.LastBlockSize() == 4;
  }

  lemma SmallFiles(files: seq<FileSpan>)
    requires files == [FileSpan(0, 8)]
    ensures Tiled(files, 0, 8)
  {
    assert files[1..] == [];
  }

  lemma SmallPlace(t: Torrent, piece: nat, offset: nat)
    requires Small(t) && piece < 2 && offset < 4
    ensures t.PieceOffset(piece, offset) == 4 * piece + offset && t.BlockOf(piece, offset) == piece && offset % t.blockSize == offset
  {
  }

  lemma SmallBlock(torrents: Torrents, b: CacheBlock)
    requires 1 in torrents && Small(torrents[1]) && b.tor == 1 && b.block < 2 && b.piece == b.block && b.offset == 0
    requires b.length == |b.data| == 4
    ensures BlockOk(torrents, b) && BlocksOk(torrents, [b]) && Sorted([b])
    ensures ExtentOf(torrents, b).start == 4 * b.block && ExtentOf(torrents, b).End() == 4 * b.block + 4
  {
    SmallTorrent(torrents[1]);
    SmallPlace(torrents[1], b.piece, 0);
  }

  /** The second byte on is asked for, and the first bytes of the cached block are answered. */
  lemma MisreadInside(torrents: Torrents, flat: seq<Byte>, before: seq<Byte>, b: CacheBlock, at: Place)
    requires 1 in torrents && Small(torrents[1]) && |flat| == 8 && |before| == 2
    requires b == CacheBlock(1, 0, 0, 4, 0, 0, [1, 2, 3, 4]) && at == Place(1, 0, 1, 2)
    ensures BlocksOk(torrents, [b]) && Sorted([b]) && PlaceOk(torrents, at)
    ensures Answer(torrents, [b], at, flat, before) == [1, 2] && Wanted(torrents, [b], at, flat) == [2, 3]
  {
    SmallTorrent(torrents[1]);
    SmallPlace(torrents[1], 0, 1);
    SmallBlock(torrents, b);
    assert HitAt(torrents, [b], at, 0);
    AnswerHit(torrents, [b], at, flat, before, 0);
    CachedByte(torrents, [b], 0, flat, 1);
    CachedByte(torrents, [b], 0, flat, 2);
  }

  /** A read begins in a block that is not cached and runs into one that is; the disk's old bytes are answered. */
  lemma MisreadAcross(torrents: Torrents, flat: seq<Byte>, before: seq<Byte>, b: CacheBlock, at: Place)
    requires 1 in torrents && Small(torrents[1]) && flat == [0, 0, 0, 0, 0, 0, 0, 0] && |before| == 4
    requires b == CacheBlock(1, 1, 0, 4, 0, 1, [5, 6, 7, 8]) && at == Place(1, 0, 2, 4)
    ensures BlocksOk(torrents, [b]) && Sorted([b]) && PlaceOk(torrents, at)
    ensures Answer(torrents, [b], at, flat, before) == [0, 0, 0, 0] && Wanted(torrents, [b], at, flat)[2..] == [5, 6]
  {
    SmallTorrent(torrents[1]);
    SmallPlace(torrents[1], 0, 2);
    SmallBlock(torrents, b);
    forall i: nat
      ensures !HitAt(torrents, [b], at, i)
    {
    }
    AnswerMiss(torrents, [b], at, flat, before);
    CachedByte(torrents, [b], 0, flat, 4);
    CachedByte(torrents, [b], 0, flat, 5);
  }
}
