/**
 * How much of a torrent there is: a set of held blocks, the byte total kept
 * beside it, and two totals that are worked out only when asked for.
 */
module Completions {
  import opened Geometry
  import opened Bitfields
  import Bits

  // ---- byte totals of sets of blocks --------------------------------------

  /** The bytes of the held blocks from `a` up to `b`. */
  ghost function SizeBetween(t: Torrent, held: set<nat>, a: nat, b: nat): nat
    requires t.Valid()
    decreases b
  {
    if a >= b then 0 else SizeBetween(t, held, a, b - 1) + if b - 1 in held then t.BlockBytes(b - 1) else 0
  }

  lemma {:induction false} SizeSplit(t: Torrent, held: set<nat>, a: nat, b: nat, c: nat)
    requires t.Valid() && a <= b <= c
    ensures SizeBetween(t, held, a, c) == SizeBetween(t, held, a, b) + SizeBetween(t, held, b, c)
    decreases c
  {
    if b < c {
      SizeSplit(t, held, a, b, c - 1);
    }
  }

  lemma {:induction false} SizeSame(t: Torrent, x: set<nat>, y: set<nat>, a: nat, b: nat)
    requires t.Valid() && forall n: nat :: a <= n < b ==> (n in x <==> n in y)
    ensures SizeBetween(t, x, a, b) == SizeBetween(t, y, a, b)
    decreases b
  {
    if a < b {
      SizeSame(t, x, y, a, b - 1);
    }
  }

  lemma {:induction false} SizeNone(t: Torrent, held: set<nat>, a: nat, b: nat)
    requires t.Valid() && forall n: nat :: a <= n < b ==> n !in held
    ensures SizeBetween(t, held, a, b) == 0
    decreases b
  {
    if a < b {
      SizeNone(t, held, a, b - 1);
    }
  }

  /** Blocks follow one another, so a run of blocks holds at most the bytes it spans, and all of them if all are held. */
  lemma {:induction false} SizeSpan(t: Torrent, held: set<nat>, a: nat, b: nat)
    requires t.Valid() && a < b <= t.BlockCount()
    ensures SizeBetween(t, held, a, b) <= t.BlockStart(b - 1) + t.BlockBytes(b - 1) - t.BlockStart(a)
    ensures SizeBetween(t, held, a, b) == t.BlockStart(b - 1) + t.BlockBytes(b - 1) - t.BlockStart(a)
            <==> forall n: nat :: a <= n < b ==> n in held
    decreases b
  {
    BlockInside(t, b - 1);
    if a < b - 1 {
      BlockInside(t, b - 2);
      SizeSpan(t, held, a, b - 1);
    }
  }

  /** One block more. */
  lemma SizeAdd(t: Torrent, held: set<nat>, n: nat, size: nat)
    requires t.Valid() && n < size && n !in held
    ensures SizeBetween(t, held + {n}, 0, size) == SizeBetween(t, held, 0, size) + t.BlockBytes(n)
  {
    SizeSplit(t, held, 0, n, size);
    SizeSplit(t, held, n, n + 1, size);
    SizeSplit(t, held + {n}, 0, n, size);
    SizeSplit(t, held + {n}, n, n + 1, size);
    SizeSame(t, held, held + {n}, 0, n);
    SizeSame(t, held, held + {n}, n + 1, size);
  }

  lemma SizeRemove(t: Torrent, held: set<nat>, a: nat, b: nat, size: nat)
    requires t.Valid() && a <= b <= size
    ensures SizeBetween(t, held - Range(a, b), 0, size) == SizeBetween(t, held, 0, size) - SizeBetween(t, held, a, b)
  {
    var rest := held - Range(a, b);
    assert forall n: nat :: n in rest <==> n in held && !Between(a, n, b);
    SizeSplit(t, held, 0, a, size);
    SizeSplit(t, held, a, b, size);
    SizeSplit(t, rest, 0, a, size);
    SizeSplit(t, rest, a, b, size);
    SizeSame(t, held, rest, 0, a);
    SizeNone(t, rest, a, b);
    SizeSame(t, held, rest, b, size);
  }

  // ---- totals from counts -------------------------------------------------

  /** What a count of whole blocks is too much if the last block of the torrent is among them. */
  function Shortfall(t: Torrent, lastHeld: bool): nat
    requires t.Valid()
  {
    BlocksCover(t);
    if lastHeld then t.blockSize - t.LastBlockSize() else 0
  }

  lemma {:induction false} CountedSize(t: Torrent, held: set<nat>, a: nat, b: nat)
    requires t.Valid() && a < b <= t.BlockCount()
    ensures SizeBetween(t, held, a, b) + Shortfall(t, b == t.BlockCount() && b - 1 in held)
            == |held * Range(a, b)| * t.blockSize
    decreases b
  {
    if a < b - 1 {
      CountedSize(t, held, a, b - 1);
    } else {
      assert held * Range(a, a) == {};
    }
    CountedNext(t, held, a, b, |held * Range(a, b - 1)|);
  }

  lemma CountedNext(t: Torrent, held: set<nat>, a: nat, b: nat, count: nat)
    requires t.Valid() && a < b <= t.BlockCount() && count == |held * Range(a, b - 1)|
    requires SizeBetween(t, held, a, b - 1) == count * t.blockSize
    ensures SizeBetween(t, held, a, b) + Shortfall(t, b == t.BlockCount() && b - 1 in held)
            == |held * Range(a, b)| * t.blockSize
  {
    NextInRange(held, a, b);
    BlocksCover(t);
    assert (count + 1) * t.blockSize == count * t.blockSize + t.blockSize;
  }

  /** The bytes of the blocks held, from their number. */
  lemma SizeByCount(t: Torrent, held: set<nat>)
    requires t.Valid() && forall n :: n in held ==> n < t.BlockCount()
    ensures t.BlockCount() > 0
    ensures SizeBetween(t, held, 0, t.BlockCount()) + Shortfall(t, t.BlockCount() - 1 in held) == |held| * t.blockSize
  {
    assert held * Range(0, t.BlockCount()) == held;
    BlocksCover(t);
    CountedSize(t, held, 0, t.BlockCount());
  }

  lemma NextInRange(held: set<nat>, a: nat, b: nat)
    requires a < b
    ensures |held * Range(a, b)| == |held * Range(a, b - 1)| + if b - 1 in held then 1 else 0
  {
    var last: set<nat> := if b - 1 in held then {b - 1} else {};
    forall n: nat
      ensures n in held * Range(a, b) <==> n in held * Range(a, b - 1) + last
    {
      assert Between(a, n, b) == (Between(a, n, b - 1) || n == b - 1);
    }
    assert held * Range(a, b) == held * Range(a, b - 1) + last;
  }

  // ---- pieces -------------------------------------------------------------

  /** The bytes held of a piece. */
  ghost function PieceSize(t: Torrent, held: set<nat>, p: nat): nat
    requires t.Valid() && p < t.pieceCount
  {
    PieceBlocks(t, p);
    SizeBetween(t, held, t.FirstBlock(p), t.LastBlock(p) + 1)
  }

  ghost predicate PieceComplete(t: Torrent, held: set<nat>, p: nat)
    requires t.Valid() && p < t.pieceCount
  {
    PieceBlocks(t, p);
    forall b: nat :: t.FirstBlock(p) <= b <= t.LastBlock(p) ==> b in held
  }

  lemma PieceSpan(t: Torrent, held: set<nat>, p: nat)
    requires t.Valid() && p < t.pieceCount
    ensures PieceSize(t, held, p) <= t.PieceBytes(p)
    ensures PieceSize(t, held, p) == t.PieceBytes(p) <==> PieceComplete(t, held, p)
  {
    PieceBlocks(t, p);
    SizeSpan(t, held, t.FirstBlock(p), t.LastBlock(p) + 1);
  }

  /** The bytes of the complete pieces among the first `n`. */
  ghost function ValidBytes(t: Torrent, held: set<nat>, n: nat): nat
    requires t.Valid() && n <= t.pieceCount
  {
    if n == 0 then 0
    else ValidBytes(t, held, n - 1) + if PieceComplete(t, held, n - 1) then t.PieceBytes(n - 1) else 0
  }

  /** All the bytes of wanted pieces, and what is held of the others. */
  ghost function DoneBytes(t: Torrent, held: set<nat>, dnd: seq<bool>, n: nat): nat
    requires t.Valid() && n <= t.pieceCount == |dnd|
  {
    if n == 0 then 0
    else DoneBytes(t, held, dnd, n - 1) + if dnd[n - 1] then PieceSize(t, held, n - 1) else t.PieceBytes(n - 1)
  }

  /** The bytes still missing from wanted pieces. */
  ghost function MissingBytes(t: Torrent, held: set<nat>, dnd: seq<bool>, n: nat): nat
    requires t.Valid() && n <= t.pieceCount == |dnd|
  {
    if n == 0 then 0
    else
      PieceSpan(t, held, n - 1);
      MissingBytes(t, held, dnd, n - 1) + if dnd[n - 1] then 0 else t.PieceBytes(n - 1) - PieceSize(t, held, n - 1)
  }

  /** Where the first `n` pieces end, in blocks and in bytes. */
  function EndBlock(t: Torrent, n: nat): nat
    requires t.Valid() && n <= t.pieceCount
  {
    if n == 0 then 0 else PieceBlocks(t, n - 1); t.LastBlock(n - 1) + 1
  }

  function EndByte(t: Torrent, n: nat): nat
    requires t.Valid() && n <= t.pieceCount
  {
    if n == 0 then 0 else t.PieceOffset(n - 1, 0) + t.PieceBytes(n - 1)
  }

  lemma EndStep(t: Torrent, n: nat)
    requires t.Valid() && 0 < n <= t.pieceCount
    ensures t.FirstBlock(n - 1) == EndBlock(t, n - 1)
    ensures EndByte(t, n) == EndByte(t, n - 1) + t.PieceBytes(n - 1)
    ensures n == t.pieceCount ==> EndBlock(t, n) == t.BlockCount() && EndByte(t, n) == t.totalSize
  {
    PieceBlocks(t, n - 1);
    PieceInside(t, n - 1);
    if n > 1 {
      PieceBlocks(t, n - 2);
      PieceInside(t, n - 2);
    }
  }

  /** Over the first `n` pieces: valid <= held <= done <= all, and done is held plus what is missing of wanted pieces. */
  lemma {:induction false} Totals(t: Torrent, held: set<nat>, dnd: seq<bool>, n: nat)
    requires t.Valid() && n <= t.pieceCount == |dnd|
    ensures ValidBytes(t, held, n) <= SizeBetween(t, held, 0, EndBlock(t, n))
    ensures DoneBytes(t, held, dnd, n) == SizeBetween(t, held, 0, EndBlock(t, n)) + MissingBytes(t, held, dnd, n)
    ensures DoneBytes(t, held, dnd, n) <= EndByte(t, n)
  {
    if n > 0 {
      Totals(t, held, dnd, n - 1);
      EndStep(t, n);
      PieceSpan(t, held, n - 1);
      PieceOnTop(t, held, n);
    }
  }

  lemma PieceOnTop(t: Torrent, held: set<nat>, n: nat)
    requires t.Valid() && 0 < n <= t.pieceCount
    ensures SizeBetween(t, held, 0, EndBlock(t, n)) == SizeBetween(t, held, 0, EndBlock(t, n - 1)) + PieceSize(t, held, n - 1)
  {
    EndStep(t, n);
    PieceBlocks(t, n - 1);
    SizeSplit(t, held, 0, EndBlock(t, n - 1), EndBlock(t, n));
  }

  /**
   * For every set of held blocks and every choice of wanted pieces: valid
   * bytes are at most the held bytes, those at most the bytes there will be
   * when done, those at most all; and what is left is what is missing of the
   * wanted pieces.
   */
  lemma ByteTotals(t: Torrent, held: set<nat>, dnd: seq<bool>)
    requires t.Valid() && |dnd| == t.pieceCount
    ensures var now := SizeBetween(t, held, 0, t.BlockCount());
            && ValidBytes(t, held, t.pieceCount) <= now <= DoneBytes(t, held, dnd, t.pieceCount) <= t.totalSize
            && DoneBytes(t, held, dnd, t.pieceCount) - now == MissingBytes(t, held, dnd, t.pieceCount)
  {
    Totals(t, held, dnd, t.pieceCount);
    EndStep(t, t.pieceCount);
  }

  /** With every block held, all totals are the size of the torrent. */
  lemma FullTotals(t: Torrent, held: set<nat>, dnd: seq<bool>)
    requires t.Valid() && |dnd| == t.pieceCount && forall b: nat :: b < t.BlockCount() ==> b in held
    ensures DoneBytes(t, held, dnd, t.pieceCount) == t.totalSize
  {
    ByteTotals(t, held, dnd);
    BlocksCover(t);
    SizeSpan(t, held, 0, t.BlockCount());
  }

  ghost function MissingBlocks(t: Torrent, held: set<nat>, p: nat): nat
    requires t.Valid() && p < t.pieceCount
  {
    PieceBlocks(t, p);
    |Range(t.FirstBlock(p), t.LastBlock(p) + 1) - held|
  }

  lemma MissingCount(t: Torrent, held: set<nat>, p: nat)
    requires t.Valid() && p < t.pieceCount
    ensures t.PieceBytes(p) > 0 && t.FirstBlock(p) <= t.LastBlock(p) < t.BlockCount()
    ensures MissingBlocks(t, held, p)
            == t.LastBlock(p) + 1 - t.FirstBlock(p) - |held * Range(t.FirstBlock(p), t.LastBlock(p) + 1)|
    ensures MissingBlocks(t, held, p) == 0 <==> PieceComplete(t, held, p)
  {
    PieceBlocks(t, p);
    MissingFrom(held, t.FirstBlock(p), t.LastBlock(p) + 1);
  }

  lemma NoneMissing(t: Torrent, held: set<nat>, p: nat)
    requires t.Valid() && p < t.pieceCount && forall b: nat :: b < t.BlockCount() ==> b in held
    ensures MissingBlocks(t, held, p) == 0 && PieceComplete(t, held, p)
  {
    PieceBlocks(t, p);
    MissingCount(t, held, p);
  }

  /** A piece's held bytes: whole blocks before the last one, and the last one by its own size. */
  lemma LastApart(t: Torrent, held: set<nat>, p: nat)
    requires t.Valid() && p < t.pieceCount
    ensures t.PieceBytes(p) > 0 && t.FirstBlock(p) <= t.LastBlock(p) < t.BlockCount()
    ensures var f, l := t.FirstBlock(p), t.LastBlock(p);
            PieceSize(t, held, p)
            == (if f != l then |held * Range(f, l)| * t.blockSize else 0) + if l in held then t.BlockBytes(l) else 0
  {
    PieceBlocks(t, p);
    var f, l := t.FirstBlock(p), t.LastBlock(p);
    if f != l {
      CountedSize(t, held, f, l);
    }
  }

  /** A piece's held bytes from the number of its held blocks. */
  lemma CountedPiece(t: Torrent, held: set<nat>, p: nat, f: nat, l: nat, have: nat)
    requires t.Valid() && p < t.pieceCount && t.PieceBytes(p) > 0 && f == t.FirstBlock(p) && l == t.LastBlock(p)
    requires have == |held * Range(f, l + 1)|
    ensures f <= l < t.BlockCount()
    ensures PieceSize(t, held, p) + Shortfall(t, l + 1 == t.BlockCount() && l in held) == have * t.blockSize
  {
    PieceBlocks(t, p);
    CountedSize(t, held, f, l + 1);
  }

  /** How the bytes of the blocks up to `i` grow, and stay within those of all. */
  lemma SizeNext(t: Torrent, held: set<nat>, f: nat, i: nat, l: nat)
    requires t.Valid() && f <= i <= l
    ensures SizeBetween(t, held, f, i + 1) == SizeBetween(t, held, f, i) + if i in held then t.BlockBytes(i) else 0
    ensures SizeBetween(t, held, f, i + 1) <= SizeBetween(t, held, f, l + 1)
  {
    SizeSplit(t, held, f, i + 1, l + 1);
  }

  /** The missing blocks of a piece from the number of its held ones. */
  lemma CountedMissing(t: Torrent, held: set<nat>, p: nat, f: nat, l: nat, have: nat)
    requires t.Valid() && p < t.pieceCount && t.PieceBytes(p) > 0 && f == t.FirstBlock(p) && l == t.LastBlock(p)
    requires have == |held * Range(f, l + 1)|
    ensures MissingBlocks(t, held, p) == l + 1 - f - have
    ensures MissingBlocks(t, held, p) == 0 <==> PieceComplete(t, held, p)
  {
    MissingCount(t, held, p);
  }

  method CountMissing(t: Torrent, blocks: Bitfield, p: nat) returns (n: nat)
    requires t.Valid() && p < t.pieceCount && blocks.Valid() && blocks.bitCount == t.BlockCount()
    ensures n == MissingBlocks(t, blocks.Held(), p)
    ensures n == 0 <==> PieceComplete(t, blocks.Held(), p)
  {
    PieceBlocks(t, p);
    if blocks.HasAll() {
      NoneMissing(t, blocks.Held(), p);
      return 0;
    }
    var f, l := t.FirstBlock(p), t.LastBlock(p);
    var have := blocks.CountRange(f, l + 1);
    CountedMissing(t, blocks.Held(), p, f, l, have);
    n := l + 1 - f - have;
  }

  /** The bytes of the blocks of `b`, from their number. */
  method TotalOfCount(t: Torrent, b: Bitfield, count: nat) returns (size: nat)
    requires t.Valid() && b.Valid() && b.bitCount == t.BlockCount() && count == |b.Held()|
    ensures size == SizeBetween(t, b.Held(), 0, t.BlockCount())
  {
    SizeByCount(t, b.Held());
    BlocksCover(t);
    size := count * t.blockSize;
    if b.Has(t.BlockCount() - 1) {
      size := size - (t.blockSize - t.LastBlockSize());
    }
  }

  /** The sum over complete pieces. */
  method SumComplete(t: Torrent, blocks: Bitfield) returns (size: nat)
    requires t.Valid() && blocks.Valid() && blocks.bitCount == t.BlockCount()
    ensures size == ValidBytes(t, blocks.Held(), t.pieceCount)
  {
    size := 0;
    for i: nat := 0 to t.pieceCount
      invariant size == ValidBytes(t, blocks.Held(), i)
    {
      var missing := CountMissing(t, blocks, i);
      if missing == 0 {
        size := size + t.PieceBytes(i);
      }
    }
  }

  ghost function CompletePieces(t: Torrent, held: set<nat>): set<nat>
    requires t.Valid()
  {
    set p: nat | p < t.pieceCount && PieceComplete(t, held, p)
  }

  lemma AllPieces(t: Torrent, held: set<nat>)
    requires t.Valid() && forall b: nat :: b < t.BlockCount() ==> b in held
    ensures CompletePieces(t, held) == Range(0, t.pieceCount)
  {
    forall p: nat | p < t.pieceCount
      ensures PieceComplete(t, held, p)
    {
      PieceBlocks(t, p);
    }
    assert forall p: nat :: p in Range(0, t.pieceCount) <==> p < t.pieceCount;
  }

  lemma NoPieces(t: Torrent, held: set<nat>)
    requires t.Valid() && held == {}
    ensures CompletePieces(t, held) == {}
  {
    forall p: nat | p < t.pieceCount
      ensures !PieceComplete(t, held, p)
    {
      PieceBlocks(t, p);
      assert t.FirstBlock(p) !in held;
    }
  }

  // ---- the completion object ----------------------------------------------

  class Completion {
    const tor: Torrent
    const blockBitfield: Bitfield
    /** Which pieces are not wanted; part of the torrent's piece table. */
    var dnd: seq<bool>
    var sizeNow: nat
    var sizeWhenDoneLazy: nat
    var sizeWhenDoneIsDirty: bool
    var haveValidLazy: nat
    var haveValidIsDirty: bool

    /** The set of blocks there are. */
    ghost function Held(): set<nat>
      reads this, blockBitfield
    {
      blockBitfield.Held()
    }

    /** The held byte total is right, and so is every lazy total not marked dirty. */
    ghost predicate Valid()
      reads this, blockBitfield
    {
      && tor.Valid() && |dnd| == tor.pieceCount
      && blockBitfield.Valid() && blockBitfield.bitCount == tor.BlockCount()
      && sizeNow == SizeBetween(tor, Held(), 0, tor.BlockCount())
      && (!haveValidIsDirty ==> haveValidLazy == ValidBytes(tor, Held(), tor.pieceCount))
      && (!sizeWhenDoneIsDirty ==> sizeWhenDoneLazy == DoneBytes(tor, Held(), dnd, tor.pieceCount))
    }

    /** tr_cpConstruct() */
    constructor (tor: Torrent, dnd: seq<bool>)
      requires tor.Valid() && |dnd| == tor.pieceCount
      ensures Valid() && this.tor == tor && this.dnd == dnd && Held() == {} && fresh(blockBitfield)
    {
      BlocksCover(tor);
      var field := new Bitfield(tor.BlockCount());
      this.tor := tor;
      this.dnd := dnd;
      blockBitfield := field;
      sizeNow := 0;
      sizeWhenDoneIsDirty := true;
      haveValidIsDirty := true;
      sizeWhenDoneLazy := 0;
      haveValidLazy := 0;
      new;
      SizeNone(tor, {}, 0, tor.BlockCount());
    }

    /** tr_cpBlockInit() */
    method BlockInit(b: Bitfield)
      requires Valid() && b.Valid() && b.bitCount == tor.BlockCount() && b != blockBitfield
      requires b.bits != [] ==> |b.bits| == BytesNeeded(b.bitCount)
      modifies this, blockBitfield
      ensures Valid() && dnd == old(dnd) && Held() == b.Held()
    {
      sizeWhenDoneIsDirty := true;
      haveValidIsDirty := true;
      blockBitfield.SetHasNone();
      blockBitfield.SetFromBitfield(b);
      blockBitfield.TrueCountIsSize();
      sizeNow := TotalOfCount(tor, b, blockBitfield.trueCount);
    }

    /** tr_cpBlockAdd() */
    method BlockAdd(block: nat)
      requires Valid() && block < tor.BlockCount()
      modifies this, blockBitfield
      ensures Valid() && dnd == old(dnd) && Held() == old(Held()) + {block}
    {
      if !blockBitfield.Has(block) {
        SizeAdd(tor, Held(), block, tor.BlockCount());
        blockBitfield.Add(block);
        sizeNow := sizeNow + tor.BlockBytes(block);
        haveValidIsDirty := true;
        sizeWhenDoneIsDirty := true;
      } else {
        assert Held() + {block} == Held();
      }
    }

    /** tr_cpPieceAdd() */
    method PieceAdd(piece: nat)
      requires Valid() && piece < tor.pieceCount
      modifies this, blockBitfield
      ensures Valid() && dnd == old(dnd)
      ensures tor.PieceBytes(piece) > 0
      ensures Held() == old(Held()) + Range(tor.FirstBlock(piece), tor.LastBlock(piece) + 1)
    {
      PieceBlocks(tor, piece);
      var f, l := tor.FirstBlock(piece), tor.LastBlock(piece);
      assert Range(f, f) == {};
      for i: nat := f to l + 1
        invariant Valid() && dnd == old(dnd)
        invariant Held() == old(Held()) + Range(f, i)
      {
        NextRange(f, i);
        BlockAdd(i);
      }
    }

    /** Take the held blocks from `f` to `l` off the byte total. */
    method SubtractBlocks(f: nat, l: nat)
      requires tor.Valid() && blockBitfield.Valid() && blockBitfield.bitCount == tor.BlockCount() && f <= l < tor.BlockCount()
      requires SizeBetween(tor, Held(), f, l + 1) <= sizeNow
      modifies `sizeNow
      ensures sizeNow == old(sizeNow) - SizeBetween(tor, Held(), f, l + 1)
    {
      ghost var held := Held();
      for i: nat := f to l + 1
        invariant Held() == held && SizeBetween(tor, held, f, i) <= old(sizeNow)
        invariant sizeNow == old(sizeNow) - SizeBetween(tor, held, f, i)
      {
        SizeNext(tor, held, f, i, l);
        assert blockBitfield.Has(i) <==> i in held;
        if blockBitfield.Has(i) {
          sizeNow := sizeNow - tor.BlockBytes(i);
        }
      }
    }

    /** Drop the blocks from `f` to `l`, and their bytes. */
    method DropBlocks(f: nat, l: nat)
      requires tor.Valid() && blockBitfield.Valid() && blockBitfield.bitCount == tor.BlockCount() && f <= l < tor.BlockCount()
      requires sizeNow == SizeBetween(tor, Held(), 0, tor.BlockCount())
      modifies `sizeNow, blockBitfield
      ensures blockBitfield.Valid() && blockBitfield.bitCount == tor.BlockCount()
      ensures Held() == old(Held()) - Range(f, l + 1)
      ensures sizeNow == SizeBetween(tor, Held(), 0, tor.BlockCount())
    {
      SizeRemove(tor, Held(), f, l + 1, tor.BlockCount());
      SubtractBlocks(f, l);
      blockBitfield.RemRange(f, l + 1);
    }

    /** tr_cpPieceRem() */
    method PieceRem(piece: nat)
      requires Valid() && piece < tor.pieceCount
      modifies this, blockBitfield
      ensures Valid() && dnd == old(dnd)
      ensures tor.PieceBytes(piece) > 0
      ensures Held() == old(Held()) - Range(tor.FirstBlock(piece), tor.LastBlock(piece) + 1)
    {
      PieceBlocks(tor, piece);
      var f, l := tor.FirstBlock(piece), tor.LastBlock(piece);
      DropBlocks(f, l);
      haveValidIsDirty := true;
      sizeWhenDoneIsDirty := true;
    }

    /** tr_cpInvalidateDND(), called when the wanted pieces have changed */
    method InvalidateDND(wanted: seq<bool>)
      requires Valid() && |wanted| == tor.pieceCount
      modifies this
      ensures Valid() && dnd == wanted && Held() == old(Held())
    {
      dnd := wanted;
      sizeWhenDoneIsDirty := true;
    }

    /** tr_cpMissingBlocksInPiece() */
    method MissingBlocksInPiece(piece: nat) returns (n: nat)
      requires Valid() && piece < tor.pieceCount
      ensures n == MissingBlocks(tor, Held(), piece)
      ensures n == 0 <==> PieceComplete(tor, Held(), piece)
    {
      n := CountMissing(tor, blockBitfield, piece);
    }

    /** tr_cpMissingBytesInPiece(): the last block is looked at by itself, its size being its own. */
    method MissingBytesInPiece(piece: nat) returns (n: nat)
      requires Valid() && piece < tor.pieceCount
      ensures n == tor.PieceBytes(piece) - PieceSize(tor, Held(), piece)
    {
      PieceBlocks(tor, piece);
      PieceSpan(tor, Held(), piece);
      if blockBitfield.HasAll() {
        return 0;
      }
      LastApart(tor, Held(), piece);
      var f, l := tor.FirstBlock(piece), tor.LastBlock(piece);
      var haveBytes := 0;
      if f != l {
        var have := blockBitfield.CountRange(f, l);
        haveBytes := have * tor.blockSize;
      }
      if blockBitfield.Has(l) {
        haveBytes := haveBytes + tor.BlockBytes(l);
      }
      n := tor.PieceBytes(piece) - haveBytes;
    }

    method FreshHaveValid() returns (size: nat)
      requires Valid()
      ensures size == ValidBytes(tor, Held(), tor.pieceCount)
    {
      size := SumComplete(tor, blockBitfield);
    }

    /** tr_cpHaveValid(): worked out afresh only when dirty, and then kept. */
    method HaveValid() returns (size: nat)
      requires Valid()
      modifies `haveValidLazy, `haveValidIsDirty
      ensures Valid() && size == ValidBytes(tor, Held(), tor.pieceCount)
    {
      if haveValidIsDirty {
        haveValidLazy := FreshHaveValid();
        haveValidIsDirty := false;
      }
      size := haveValidLazy;
    }

    /** The bytes held of a piece that is not wanted. */
    method HeldBytes(p: nat) returns (n: nat)
      requires Valid() && p < tor.pieceCount
      ensures n == PieceSize(tor, Held(), p)
    {
      PieceBlocks(tor, p);
      var f, l := tor.FirstBlock(p), tor.LastBlock(p);
      var have := blockBitfield.CountRange(f, l + 1);
      CountedPiece(tor, Held(), p, f, l, have);
      assert blockBitfield.Has(l) <==> l in Held();
      n := have * tor.blockSize;
      if l == tor.BlockCount() - 1 && blockBitfield.Has(l) {
        n := n - (tor.blockSize - tor.LastBlockSize());
      }
    }

    method FreshSizeWhenDone() returns (size: nat)
      requires Valid()
      ensures size == DoneBytes(tor, Held(), dnd, tor.pieceCount)
    {
      if blockBitfield.HasAll() {
        FullTotals(tor, Held(), dnd);
        return tor.totalSize;
      }
      size := 0;
      for p: nat := 0 to tor.pieceCount
        invariant size == DoneBytes(tor, Held(), dnd, p)
      {
        var n := if dnd[p] then 0 else tor.PieceBytes(p);
        if dnd[p] {
          n := HeldBytes(p);
        }
        size := size + n;
      }
    }

    /** tr_cpSizeWhenDone() */
    method SizeWhenDone() returns (size: nat)
      requires Valid()
      modifies `sizeWhenDoneLazy, `sizeWhenDoneIsDirty
      ensures Valid() && size == DoneBytes(tor, Held(), dnd, tor.pieceCount)
    {
      if sizeWhenDoneIsDirty {
        sizeWhenDoneLazy := FreshSizeWhenDone();
        sizeWhenDoneIsDirty := false;
      }
      size := sizeWhenDoneLazy;
    }

    /** tr_cpLeftUntilDone(): what is missing of the wanted pieces. */
    method LeftUntilDone() returns (left: nat)
      requires Valid()
      modifies `sizeWhenDoneLazy, `sizeWhenDoneIsDirty
      ensures Valid() && left == MissingBytes(tor, Held(), dnd, tor.pieceCount)
    {
      var sizeWhenDone := SizeWhenDone();
      ByteTotals(tor, Held(), dnd);
      left := sizeWhenDone - sizeNow;
    }

    /** Which pieces are complete, as flags. */
    method PieceFlags() returns (flags: seq<bool>)
      requires Valid()
      ensures |flags| == tor.pieceCount && FlagSet(flags) == CompletePieces(tor, Held())
    {
      flags := [];
      for i: nat := 0 to tor.pieceCount
        invariant |flags| == i && forall p: nat :: p < i ==> flags[p] == PieceComplete(tor, Held(), p)
      {
        var missing := MissingBlocksInPiece(i);
        flags := flags + [missing == 0];
      }
    }

    /** tr_cpCreatePieceBitfield(): the bytes sent to peers have the bits of the complete pieces. */
    method CreatePieceBitfield() returns (raw: seq<Bits.Byte>)
      requires Valid()
      ensures |raw| == BytesNeeded(tor.pieceCount) && ClearPast(raw, tor.pieceCount)
      ensures Indices(raw, 0, tor.pieceCount) == CompletePieces(tor, Held())
    {
      var pieces := new Bitfield(tor.pieceCount);
      ghost var held := Held();
      if blockBitfield.HasAll() {
        pieces.SetHasAll();
        AllPieces(tor, held);
      } else if !blockBitfield.HasNone() {
        var flags := PieceFlags();
        pieces.SetFromFlags(flags);
      } else {
        NoPieces(tor, held);
      }
      raw := pieces.GetRaw();
    }
  }

  lemma NextRange(f: nat, i: nat)
    requires f <= i
    ensures Range(f, i + 1) == Range(f, i) + {i}
  {
    assert forall n: nat :: Between(f, n, i + 1) <==> Between(f, n, i) || n == i;
  }

  lemma MissingFrom(held: set<nat>, a: nat, b: nat)
    requires a <= b
    ensures |Range(a, b) - held| == b - a - |held * Range(a, b)|
    ensures |Range(a, b) - held| == 0 <==> forall n: nat :: a <= n < b ==> n in held
  {
    RangeSize(a, b);
    assert Range(a, b) == (Range(a, b) - held) + (held * Range(a, b));
    if |Range(a, b) - held| == 0 {
      assert Range(a, b) - held == {};
      forall n: nat | a <= n < b
        ensures n in held
      {
        assert Between(a, n, b) && n in Range(a, b);
      }
    } else {
      var n :| n in Range(a, b) - held;
    }
  }
}
