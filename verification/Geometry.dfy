/**
 * The geometry of a torrent: how pieces and blocks cut up one byte range, and
 * how the torrent's files tile that same range.
 */
module Geometry {

  const MAX_BLOCK_SIZE: nat := 16384
  const UINT16_RANGE: nat := 0x1_0000

  type Byte = bv8

  /** The position and length of one file inside the torrent's byte range. */
  datatype FileSpan = FileSpan(offset: nat, length: nat) {
    function End(): nat { offset + length }
  }

  /** Halves `b` until it is no larger than MAX_BLOCK_SIZE. */
  function Halved(b: nat): (r: nat)
    ensures r <= MAX_BLOCK_SIZE
    ensures b <= MAX_BLOCK_SIZE ==> r == b
  {
    if b > MAX_BLOCK_SIZE then Halved(b / 2) else b
  }

  function BlockSizeFor(pieceSize: nat): (r: nat)
    ensures r <= MAX_BLOCK_SIZE
    ensures r > 0 ==> pieceSize % r == 0
  {
    var b := Halved(pieceSize);
    if b == 0 || pieceSize % b != 0 then 0 else b
  }

  method GetBlockSize(pieceSize: nat) returns (b: nat)
    ensures b == BlockSizeFor(pieceSize)
  {
    b := pieceSize;
    while b > MAX_BLOCK_SIZE
      invariant Halved(b) == Halved(pieceSize)
    {
      b := b / 2;
    }
    if b == 0 || pieceSize % b != 0 {
      return 0;
    }
  }

  datatype Torrent = Torrent(
    uniqueId: int,
    pieceSize: nat,
    pieceCount: nat,
    totalSize: nat,
    blockSize: nat,
    files: seq<FileSpan>)
  {

    function LastPieceSize(): nat
      requires pieceSize > 0
    {
      if totalSize % pieceSize == 0 then pieceSize else totalSize % pieceSize
    }

    function LastBlockSize(): nat
      requires blockSize > 0
    {
      if totalSize % blockSize == 0 then blockSize else totalSize % blockSize
    }

    function BlockCount(): nat
      requires blockSize > 0
    {
      (totalSize + blockSize - 1) / blockSize
    }

    /** Kept in 16 bits. */
    function BlockCountInPiece(): nat
      requires blockSize > 0
    {
      (pieceSize / blockSize) % UINT16_RANGE
    }

    function BlockCountInLastPiece(): nat
      requires blockSize > 0 && pieceSize > 0
    {
      ((LastPieceSize() + blockSize - 1) / blockSize) % UINT16_RANGE
    }

    // The three sums the source asserts when a torrent is set up.

    predicate PiecesAddUp()
      requires pieceSize > 0
    {
      (pieceCount - 1) * pieceSize + LastPieceSize() == totalSize
    }

    predicate BlocksAddUp()
      requires blockSize > 0
    {
      (BlockCount() - 1) * blockSize + LastBlockSize() == totalSize
    }

    predicate BlocksOfPiecesAddUp()
      requires blockSize > 0 && pieceSize > 0
    {
      (pieceCount - 1) * BlockCountInPiece() + BlockCountInLastPiece() == BlockCount()
    }

    /** What every later calculation relies on. */
    predicate Valid() {
      && pieceSize > 0
      && totalSize > 0
      && 0 < blockSize <= MAX_BLOCK_SIZE
      && pieceSize % blockSize == 0
      && pieceCount > 0
      && PiecesAddUp()
      && Tiled(files, 0, totalSize)
    }

    function PieceBytes(piece: nat): nat
      requires pieceSize > 0
    {
      if piece + 1 == pieceCount then LastPieceSize() else pieceSize
    }

    function BlockBytes(block: nat): nat
      requires blockSize > 0
    {
      if block + 1 == BlockCount() then LastBlockSize() else blockSize
    }

    /** The global offset of a byte given by piece and offset in the piece. */
    function PieceOffset(piece: nat, offset: nat): nat {
      pieceSize * piece + offset
    }

    /** The range starts inside the torrent and does not run past its end. */
    predicate InRange(piece: nat, offset: nat, length: nat) {
      PieceOffset(piece, offset) < totalSize && PieceOffset(piece, offset) + length <= totalSize
    }

    function BlockStart(block: nat): nat {
      block * blockSize
    }

    function BlockOf(piece: nat, offset: nat): nat
      requires blockSize > 0
    {
      piece * (pieceSize / blockSize) + offset / blockSize
    }

    function FirstBlock(piece: nat): nat
      requires blockSize > 0
    {
      pieceSize * piece / blockSize
    }

    function LastBlock(piece: nat): nat
      requires blockSize > 0 && pieceSize > 0
      requires PieceBytes(piece) > 0
    {
      (pieceSize * piece + (PieceBytes(piece) - 1)) / blockSize
    }

    function FileFirstBlock(file: nat): nat
      requires blockSize > 0 && file < |files|
    {
      files[file].offset / blockSize
    }

    function FileLastBlock(file: nat): nat
      requires blockSize > 0 && file < |files|
    {
      if files[file].length == 0 then FileFirstBlock(file)
      else (files[file].offset + files[file].length - 1) / blockSize
    }
  }

  /** The files lie end to end, without gap or overlap, from `from` to `to`. */
  predicate Tiled(files: seq<FileSpan>, from: nat, to: nat) {
    if files == [] then from == to
    else files[0].offset == from && Tiled(files[1..], files[0].End(), to)
  }

  function SumLengths(lengths: seq<nat>): nat {
    if lengths == [] then 0 else lengths[0] + SumLengths(lengths[1..])
  }

  /** The file table, offsets assigned in order. */
  function FileTable(lengths: seq<nat>, from: nat): seq<FileSpan> {
    if lengths == [] then []
    else [FileSpan(from, lengths[0])] + FileTable(lengths[1..], from + lengths[0])
  }

  function InitFromInfo(uniqueId: int, pieceSize: nat, pieceCount: nat, lengths: seq<nat>): Torrent {
    Torrent(uniqueId, pieceSize, pieceCount, SumLengths(lengths), BlockSizeFor(pieceSize), FileTable(lengths, 0))
  }

  lemma {:induction false} FileTableTiles(lengths: seq<nat>, from: nat)
    ensures Tiled(FileTable(lengths, from), from, from + SumLengths(lengths))
  {
    if lengths != [] {
      FileTableTiles(lengths[1..], from + lengths[0]);
      assert FileTable(lengths, from)[1..] == FileTable(lengths[1..], from + lengths[0]);
    }
  }

  // ---- arithmetic ---------------------------------------------------------

  lemma MulMono(a: int, b: int, d: int)
    requires a <= b && d >= 0
    ensures a * d <= b * d
  {
  }

  lemma SmallMultiple(k: int, d: int)
    requires d > 0 && -d < k * d < d
    ensures k == 0
  {
    if k >= 1 {
      MulMono(1, k, d);
    } else if k <= -1 {
      MulMono(k, -1, d);
    }
  }

  lemma DivUnique(g: int, q: int, d: int)
    requires d > 0 && q * d <= g < q * d + d
    ensures g / d == q && g % d == g - q * d
  {
    var p, r := g / d, g % d;
    assert g == p * d + r && 0 <= r < d;
    assert (p - q) * d == p * d - q * d;
    SmallMultiple(p - q, d);
  }

  lemma DivBounds(g: int, d: int)
    requires d > 0
    ensures (g / d) * d <= g < (g / d) * d + d
    ensures g % d == g - (g / d) * d
  {
  }

  /** So many parts of `d`, the last one short or whole, make up `total`. */
  lemma PartsAddUp(total: nat, d: nat, parts: nat, last: nat)
    requires total > 0 && d > 0 && parts == (total + d - 1) / d
    requires last == if total % d == 0 then d else total % d
    ensures parts > 0 && 0 < last <= d && (parts - 1) * d + last == total
  {
    var q, r := total / d, total % d;
    assert total == q * d + r;
    if r == 0 {
      assert q > 0;
      assert q * d <= total + d - 1 < q * d + d;
      DivUnique(total + d - 1, q, d);
      assert (q - 1) * d == q * d - d;
    } else {
      assert (q + 1) * d == q * d + d;
      DivUnique(total + d - 1, q + 1, d);
    }
  }

  // ---- setting up a torrent -----------------------------------------------

  /**
   * A torrent set up from metainfo with an acceptable piece size: the blocks
   * add up, and the pieces do if and only if there are just enough of them for
   * the files. Then the blocks of the pieces add up if and only if the counts
   * of blocks in a piece fit 16 bits.
   */
  lemma InitFromInfoValid(uniqueId: int, pieceSize: nat, pieceCount: nat, lengths: seq<nat>)
    requires pieceSize > 0 && BlockSizeFor(pieceSize) > 0 && SumLengths(lengths) > 0
    ensures var t := InitFromInfo(uniqueId, pieceSize, pieceCount, lengths);
            && t.BlocksAddUp()
            && (t.PiecesAddUp() <==> pieceCount == (t.totalSize + pieceSize - 1) / pieceSize)
            && (t.PiecesAddUp() ==> t.Valid())
            && (t.PiecesAddUp() ==>
                  (t.BlocksOfPiecesAddUp()
                   <==> && (pieceCount > 1 ==> pieceSize / t.blockSize < UINT16_RANGE)
                        && (t.LastPieceSize() + t.blockSize - 1) / t.blockSize < UINT16_RANGE))
  {
    var t := InitFromInfo(uniqueId, pieceSize, pieceCount, lengths);
    var pieces := (t.totalSize + pieceSize - 1) / pieceSize;
    FileTableTiles(lengths, 0);
    PartsAddUp(t.totalSize, t.blockSize, t.BlockCount(), t.LastBlockSize());
    PartsAddUp(t.totalSize, pieceSize, pieces, t.LastPieceSize());
    assert (pieceCount - pieces) * pieceSize == (pieceCount - 1) * pieceSize - (pieces - 1) * pieceSize;
    if t.PiecesAddUp() {
      SmallMultiple(pieceCount - pieces, pieceSize);
      BlocksOfPieces(t);
    }
  }

  /** The blocks of the pieces add up but for what 16 bits cut off. */
  lemma BlocksOfPieces(t: Torrent)
    requires t.Valid()
    ensures t.BlocksOfPiecesAddUp()
            <==> && (t.pieceCount > 1 ==> t.pieceSize / t.blockSize < UINT16_RANGE)
                 && (t.LastPieceSize() + t.blockSize - 1) / t.blockSize < UINT16_RANGE
  {
    var n, k, m := t.pieceCount - 1, t.pieceSize / t.blockSize, (t.LastPieceSize() + t.blockSize - 1) / t.blockSize;
    PieceBlockSum(t, k, m);
    CutOff(n, k, k / UINT16_RANGE, k % UINT16_RANGE, m, m / UINT16_RANGE, m % UINT16_RANGE);
  }

  lemma PieceBlockSum(t: Torrent, k: nat, m: nat)
    requires t.Valid() && k == t.pieceSize / t.blockSize && m == (t.LastPieceSize() + t.blockSize - 1) / t.blockSize
    ensures t.BlockCount() == (t.pieceCount - 1) * k + m
  {
    var n, bs, last := t.pieceCount - 1, t.blockSize, t.LastPieceSize();
    var c := n * k + m;
    DivBounds(t.pieceSize, bs);
    assert t.pieceSize == k * bs;
    DivBounds(last + bs - 1, bs);
    calc {
      c * bs;
      n * k * bs + m * bs;
      { assert n * k * bs == n * (k * bs); }
      n * t.pieceSize + m * bs;
    }
    assert c * bs <= t.totalSize + bs - 1 < c * bs + bs;
    DivUnique(t.totalSize + bs - 1, c, bs);
  }

  lemma CutOff(n: nat, k: nat, kq: nat, kr: nat, m: nat, mq: nat, mr: nat)
    requires k == kq * UINT16_RANGE + kr && kr < UINT16_RANGE && m == mq * UINT16_RANGE + mr && mr < UINT16_RANGE
    ensures n * kr + mr == n * k + m <==> (n > 0 ==> k < UINT16_RANGE) && m < UINT16_RANGE
  {
    assert n * k == n * kq * UINT16_RANGE + n * kr;
    if n > 0 && kq > 0 {
      MulMono(1, n, kq);
    }
  }

  // ---- blocks partition the bytes -----------------------------------------

  /** The block count and the size of the last block account for every byte. */
  lemma BlocksCover(t: Torrent)
    requires t.Valid()
    ensures t.BlockCount() > 0 && 0 < t.LastBlockSize() <= t.blockSize
    ensures t.BlockStart(t.BlockCount() - 1) + t.LastBlockSize() == t.totalSize
  {
    PartsAddUp(t.totalSize, t.blockSize, t.BlockCount(), t.LastBlockSize());
  }

  /** Every block lies inside the torrent and is nonempty; only the last can be short. */
  lemma BlockInside(t: Torrent, b: nat)
    requires t.Valid() && b < t.BlockCount()
    ensures 0 < t.BlockBytes(b) <= t.blockSize <= MAX_BLOCK_SIZE
    ensures t.BlockStart(b) + t.BlockBytes(b) <= t.totalSize
    ensures b + 1 < t.BlockCount() ==> t.BlockStart(b) + t.BlockBytes(b) == t.BlockStart(b + 1)
  {
    BlocksCover(t);
    if b + 1 < t.BlockCount() {
      MulMono(b + 1, t.BlockCount() - 1, t.blockSize);
      assert (b + 1) * t.blockSize == b * t.blockSize + t.blockSize;
    }
  }

  /** Block `b` holds byte `g` only if `b` is the quotient of `g` by the block size. */
  lemma InBlockIsQuotient(t: Torrent, g: nat, b: nat)
    requires t.Valid() && b < t.BlockCount()
    requires t.BlockStart(b) <= g < t.BlockStart(b) + t.BlockBytes(b)
    ensures b == g / t.blockSize && g % t.blockSize == g - t.BlockStart(b)
  {
    BlockInside(t, b);
    DivUnique(g, b, t.blockSize);
  }

  lemma QuotientIsBlock(t: Torrent, g: nat)
    requires t.Valid() && g < t.totalSize
    ensures g / t.blockSize < t.BlockCount()
  {
    var q := g / t.blockSize;
    DivBounds(g, t.blockSize);
    BlocksCover(t);
    if q >= t.BlockCount() {
      MulMono(t.BlockCount(), q, t.blockSize);
    }
  }

  /** A byte lies in exactly one block: the one its offset divided by the block size names. */
  lemma ByteInBlock(t: Torrent, g: nat, b: nat)
    requires t.Valid() && g < t.totalSize && b < t.BlockCount()
    ensures t.BlockStart(b) <= g < t.BlockStart(b) + t.BlockBytes(b) <==> b == g / t.blockSize
  {
    if t.BlockStart(b) <= g < t.BlockStart(b) + t.BlockBytes(b) {
      InBlockIsQuotient(t, g, b);
    }
    if b == g / t.blockSize {
      DivBounds(g, t.blockSize);
      BlocksCover(t);
    }
  }

  // ---- pieces are made of whole blocks ------------------------------------

  lemma WholeBlocks(t: Torrent)
    requires t.Valid()
    ensures t.pieceSize == (t.pieceSize / t.blockSize) * t.blockSize
    ensures t.pieceSize / t.blockSize > 0
  {
    var bs := t.blockSize;
    assert t.pieceSize % bs == 0;
    assert t.pieceSize == (t.pieceSize / bs) * bs + t.pieceSize % bs;
  }

  /** The block number computed from (piece, offset) is the block of the global offset. */
  lemma BlockOfIsGlobal(t: Torrent, piece: nat, offset: nat)
    requires t.Valid()
    ensures t.BlockOf(piece, offset) == t.PieceOffset(piece, offset) / t.blockSize
    ensures t.PieceOffset(piece, offset) % t.blockSize == offset % t.blockSize
    ensures t.PieceOffset(piece, offset) ==
            t.BlockStart(t.BlockOf(piece, offset)) + offset % t.blockSize
  {
    WholeBlocks(t);
    var bs := t.blockSize;
    var n := t.pieceSize / bs;
    var q, r := offset / bs, offset % bs;
    assert offset == q * bs + r;
    assert t.pieceSize * piece == (n * bs) * piece == (piece * n) * bs;
    assert (piece * n + q) * bs == (piece * n) * bs + q * bs;
    DivUnique(t.PieceOffset(piece, offset), piece * n + q, bs);
  }

  lemma PieceInside(t: Torrent, p: nat)
    requires t.Valid() && p < t.pieceCount
    ensures 0 < t.PieceBytes(p) <= t.pieceSize
    ensures t.PieceOffset(p, 0) + t.PieceBytes(p) <= t.totalSize
    ensures p + 1 < t.pieceCount ==> t.PieceOffset(p, 0) + t.PieceBytes(p) == t.PieceOffset(p + 1, 0)
    ensures p + 1 == t.pieceCount ==> t.PieceOffset(p, 0) + t.PieceBytes(p) == t.totalSize
  {
    assert t.totalSize % t.pieceSize >= 0;
    assert t.pieceSize * (p + 1) == t.pieceSize * p + t.pieceSize;
    if p + 1 < t.pieceCount {
      MulMono(p + 1, t.pieceCount - 1, t.pieceSize);
      assert (p + 1) * t.pieceSize == t.pieceSize * (p + 1);
    } else {
      assert (t.pieceCount - 1) * t.pieceSize == t.pieceSize * p;
    }
  }

  /**
   * The blocks of a piece, first to last, hold exactly the bytes of the piece,
   * and the next piece's first block follows this piece's last one.
   */
  lemma PieceBlocks(t: Torrent, p: nat)
    requires t.Valid() && p < t.pieceCount
    ensures t.PieceBytes(p) > 0
    ensures t.FirstBlock(p) <= t.LastBlock(p) < t.BlockCount()
    ensures t.BlockStart(t.FirstBlock(p)) == t.PieceOffset(p, 0)
    ensures t.BlockStart(t.LastBlock(p)) + t.BlockBytes(t.LastBlock(p)) == t.PieceOffset(p, 0) + t.PieceBytes(p)
    ensures p + 1 < t.pieceCount ==> t.FirstBlock(p + 1) == t.LastBlock(p) + 1
    ensures p + 1 == t.pieceCount ==> t.LastBlock(p) + 1 == t.BlockCount()
    ensures p == 0 ==> t.FirstBlock(p) == 0
  {
    PieceInside(t, p);
    PieceFirst(t, p);
    PieceLast(t, p);
    if p + 1 < t.pieceCount {
      PieceFirst(t, p + 1);
      PieceInside(t, p + 1);
      NextBlock(t, t.LastBlock(p), t.FirstBlock(p + 1));
    }
  }

  lemma PieceFirst(t: Torrent, p: nat)
    requires t.Valid() && p < t.pieceCount
    ensures t.FirstBlock(p) < t.BlockCount()
    ensures t.BlockStart(t.FirstBlock(p)) == t.PieceOffset(p, 0)
    ensures p == 0 ==> t.FirstBlock(p) == 0
  {
    PieceInside(t, p);
    BlockOfIsGlobal(t, p, 0);
    QuotientIsBlock(t, t.PieceOffset(p, 0));
  }

  lemma PieceLast(t: Torrent, p: nat)
    requires t.Valid() && p < t.pieceCount
    ensures t.PieceBytes(p) > 0
    ensures t.FirstBlock(p) <= t.LastBlock(p) < t.BlockCount()
    ensures t.BlockStart(t.LastBlock(p)) + t.BlockBytes(t.LastBlock(p)) == t.PieceOffset(p, 0) + t.PieceBytes(p)
    ensures p + 1 == t.pieceCount ==> t.LastBlock(p) + 1 == t.BlockCount()
  {
    PieceInside(t, p);
    var end := t.PieceOffset(p, 0) + t.PieceBytes(p);
    QuotientIsBlock(t, end - 1);
    ByteInBlock(t, end - 1, t.LastBlock(p));
    QuotientMono(t.PieceOffset(p, 0), end - 1, t.blockSize);
    if p + 1 < t.pieceCount {
      PieceFirst(t, p + 1);
      BlockBoundary(t, t.FirstBlock(p + 1));
    } else {
      BlocksCover(t);
      BlockInside(t, t.BlockCount() - 1);
      ByteInBlock(t, end - 1, t.BlockCount() - 1);
    }
  }

  lemma QuotientMono(a: nat, b: nat, d: nat)
    requires a <= b && d > 0
    ensures a / d <= b / d
  {
    DivBounds(a, d);
    DivBounds(b, d);
    if a / d > b / d {
      MulMono(b / d + 1, a / d, d);
    }
  }

  /** The byte just before a block's start is the last byte of the block before it. */
  lemma BlockBoundary(t: Torrent, b: nat)
    requires t.Valid() && 0 < b < t.BlockCount()
    ensures t.BlockStart(b) > 0
    ensures (t.BlockStart(b) - 1) / t.blockSize == b - 1
    ensures t.BlockStart(b - 1) + t.BlockBytes(b - 1) == t.BlockStart(b)
  {
    BlockInside(t, b - 1);
    InBlockIsQuotient(t, t.BlockStart(b) - 1, b - 1);
  }

  /** Blocks whose ends and starts meet are neighbours. */
  lemma NextBlock(t: Torrent, a: nat, b: nat)
    requires t.Valid() && a < t.BlockCount() && b < t.BlockCount()
    requires t.BlockStart(a) + t.BlockBytes(a) == t.BlockStart(b)
    ensures b == a + 1
  {
    BlockInside(t, a);
    BlockInside(t, b);
    if b > 0 {
      BlockBoundary(t, b);
      InBlockIsQuotient(t, t.BlockStart(b) - 1, a);
    }
  }
}
