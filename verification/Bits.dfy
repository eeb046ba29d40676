/** Bits in bytes: bit 0 of a bit array is the most significant bit of its first byte. */
module Bits {
  type Byte = bv8

  /** The byte with just bit `i` set. */
  function Mask(i: nat): Byte
    requires i < 8
  {
    match i
    case 0 => 0x80 case 1 => 0x40 case 2 => 0x20 case 3 => 0x10
    case 4 => 0x08 case 5 => 0x04 case 6 => 0x02 case _ => 0x01
  }

  predicate Bit(b: Byte, i: nat)
    requires i < 8
  {
    b & Mask(i) != 0
  }

  /** Bits `i` and up: what a shift left and back leaves. */
  function From(b: Byte, i: nat): Byte
    requires i < 8
  {
    match i
    case 0 => b case 1 => (b << 1) >> 1 case 2 => (b << 2) >> 2 case 3 => (b << 3) >> 3
    case 4 => (b << 4) >> 4 case 5 => (b << 5) >> 5 case 6 => (b << 6) >> 6 case _ => (b << 7) >> 7
  }

  /** All but the last `i` bits: what a shift right and back leaves. */
  function ButLast(b: Byte, i: nat): Byte
    requires i < 8
  {
    match i
    case 0 => b case 1 => (b >> 1) << 1 case 2 => (b >> 2) << 2 case 3 => (b >> 3) << 3
    case 4 => (b >> 4) << 4 case 5 => (b >> 5) << 5 case 6 => (b >> 6) << 6 case _ => (b >> 7) << 7
  }

  lemma FromBit(b: Byte, i: nat, k: nat)
    requires i < 8 && k < 8
    ensures Bit(From(b, i), k) == (i <= k && Bit(b, k))
  {
  }

  lemma ButLastBit(b: Byte, i: nat, k: nat)
    requires i < 8 && k < 8
    ensures Bit(ButLast(b, i), k) == (k < 8 - i && Bit(b, k))
  {
  }

  // Masks with the bits from `i` on, and with the bits up to and with `i`.
  function HeadMask(i: nat): Byte
    requires i < 8
  {
    match i
    case 0 => 0xFF case 1 => 0x7F case 2 => 0x3F case 3 => 0x1F
    case 4 => 0x0F case 5 => 0x07 case 6 => 0x03 case _ => 0x01
  }

  function TailMask(i: nat): Byte
    requires i < 8
  {
    match i
    case 0 => 0x80 case 1 => 0xC0 case 2 => 0xE0 case 3 => 0xF0
    case 4 => 0xF8 case 5 => 0xFC case 6 => 0xFE case _ => 0xFF
  }

  function Or(a: Byte, b: Byte): Byte { a | b }

  function And(a: Byte, b: Byte): Byte { a & b }

  function Not(a: Byte): Byte { !a }

  lemma MaskBit(i: nat, k: nat)
    requires i < 8 && k < 8
    ensures Bit(Mask(i), k) == (k == i)
  {
  }

  lemma HeadBit(i: nat, k: nat)
    requires i < 8 && k < 8
    ensures Bit(HeadMask(i), k) == (i <= k)
  {
  }

  lemma TailBit(i: nat, k: nat)
    requires i < 8 && k < 8
    ensures Bit(TailMask(i), k) == (k <= i)
  {
  }

  lemma OrBit(a: Byte, b: Byte, k: nat)
    requires k < 8
    ensures Bit(Or(a, b), k) == (Bit(a, k) || Bit(b, k))
  {
  }

  lemma AndBit(a: Byte, b: Byte, k: nat)
    requires k < 8
    ensures Bit(And(a, b), k) == (Bit(a, k) && Bit(b, k))
  {
  }

  lemma NotBit(a: Byte, k: nat)
    requires k < 8
    ensures Bit(Not(a), k) == !Bit(a, k)
  {
  }

  lemma ConstBits(k: nat)
    requires k < 8
    ensures Bit(0xFF, k) && !Bit(0, k)
  {
  }

  // ---- arrays of bits -----------------------------------------------------

  /** Bit `n`; past the array's end the bits are clear. */
  predicate At(bits: seq<Byte>, n: nat) {
    n / 8 < |bits| && Bit(bits[n / 8], n % 8)
  }

  function One(b: bool): nat { if b then 1 else 0 }

  function Count(bits: seq<Byte>, begin: nat, end: nat): nat
    decreases end
  {
    if begin >= end then 0 else Count(bits, begin, end - 1) + One(At(bits, end - 1))
  }

  /** The set bits among a byte's first `n`. */
  function PopFirst(b: Byte, n: nat): nat
    requires n <= 8
  {
    if n == 0 then 0 else PopFirst(b, n - 1) + One(Bit(b, n - 1))
  }

  function Pop(b: Byte): nat { PopFirst(b, 8) }

  /** trueBitCount[], a row for each high half of a byte */
  const TRUE_BIT_COUNT: seq<seq<nat>> := [
    [0, 1, 1, 2, 1, 2, 2, 3, 1, 2, 2, 3, 2, 3, 3, 4],
    [1, 2, 2, 3, 2, 3, 3, 4, 2, 3, 3, 4, 3, 4, 4, 5],
    [1, 2, 2, 3, 2, 3, 3, 4, 2, 3, 3, 4, 3, 4, 4, 5],
    [2, 3, 3, 4, 3, 4, 4, 5, 3, 4, 4, 5, 4, 5, 5, 6],
    [1, 2, 2, 3, 2, 3, 3, 4, 2, 3, 3, 4, 3, 4, 4, 5],
    [2, 3, 3, 4, 3, 4, 4, 5, 3, 4, 4, 5, 4, 5, 5, 6],
    [2, 3, 3, 4, 3, 4, 4, 5, 3, 4, 4, 5, 4, 5, 5, 6],
    [3, 4, 4, 5, 4, 5, 5, 6, 4, 5, 5, 6, 5, 6, 6, 7],
    [1, 2, 2, 3, 2, 3, 3, 4, 2, 3, 3, 4, 3, 4, 4, 5],
    [2, 3, 3, 4, 3, 4, 4, 5, 3, 4, 4, 5, 4, 5, 5, 6],
    [2, 3, 3, 4, 3, 4, 4, 5, 3, 4, 4, 5, 4, 5, 5, 6],
    [3, 4, 4, 5, 4, 5, 5, 6, 4, 5, 5, 6, 5, 6, 6, 7],
    [2, 3, 3, 4, 3, 4, 4, 5, 3, 4, 4, 5, 4, 5, 5, 6],
    [3, 4, 4, 5, 4, 5, 5, 6, 4, 5, 5, 6, 5, 6, 6, 7],
    [3, 4, 4, 5, 4, 5, 5, 6, 4, 5, 5, 6, 5, 6, 6, 7],
    [4, 5, 5, 6, 5, 6, 6, 7, 5, 6, 6, 7, 6, 7, 7, 8]]

  /** The set bits of a byte, looked up. */
  method TrueBitCount(b: Byte) returns (n: nat)
    ensures n == Pop(b)
  {
    TableRight(b);
    n := TRUE_BIT_COUNT[b as nat / 16][b as nat % 16];
  }

  /** The set bits of half a byte. */
  function Half(x: Byte): nat {
    One(x & 8 != 0) + One(x & 4 != 0) + One(x & 2 != 0) + One(x & 1 != 0)
  }

  lemma Halves(b: Byte)
    ensures Pop(b) == Half(b >> 4) + Half(b & 0xF)
    ensures (b >> 4) as nat == b as nat / 16 < 16 && (b & 0xF) as nat == b as nat % 16
    ensures b >> 4 < 16 && b & 0xF < 16
  {
    assert PopFirst(b, 0) == 0;
    assert PopFirst(b, 1) == One(Bit(b, 0));
    assert PopFirst(b, 2) == One(Bit(b, 0)) + One(Bit(b, 1));
    assert PopFirst(b, 4) == One(Bit(b, 0)) + One(Bit(b, 1)) + One(Bit(b, 2)) + One(Bit(b, 3));
    assert PopFirst(b, 6) == PopFirst(b, 4) + One(Bit(b, 4)) + One(Bit(b, 5));
    assert PopFirst(b, 8) == PopFirst(b, 6) + One(Bit(b, 6)) + One(Bit(b, 7));
  }

  lemma FirstRow(x: Byte)
    requires x < 16
    ensures x as nat < 16 && TRUE_BIT_COUNT[0][x as nat] == Half(x)
  {
    if x < 8 {
      if x < 4 {
        assert x == 0 || x == 1 || x == 2 || x == 3;
      } else {
        assert x == 4 || x == 5 || x == 6 || x == 7;
      }
    } else if x < 12 {
      assert x == 8 || x == 9 || x == 10 || x == 11;
    } else {
      assert x == 12 || x == 13 || x == 14 || x == 15;
    }
  }

  lemma OtherRows(h: nat, l: nat)
    requires h < 16 && l < 16
    ensures |TRUE_BIT_COUNT| == 16 && |TRUE_BIT_COUNT[h]| == 16
    ensures TRUE_BIT_COUNT[h][l] == TRUE_BIT_COUNT[0][h] + TRUE_BIT_COUNT[0][l]
  {
  }

  /** Every entry of the table is right. */
  lemma TableRight(b: Byte)
    ensures |TRUE_BIT_COUNT| == 16 && |TRUE_BIT_COUNT[b as nat / 16]| == 16
    ensures TRUE_BIT_COUNT[b as nat / 16][b as nat % 16] == Pop(b)
  {
    Halves(b);
    FirstRow(b >> 4);
    FirstRow(b & 0xF);
    OtherRows(b as nat / 16, b as nat % 16);
  }

  lemma {:induction false} CountSplit(bits: seq<Byte>, a: nat, b: nat, c: nat)
    requires a <= b <= c
    ensures Count(bits, a, c) == Count(bits, a, b) + Count(bits, b, c)
    decreases c
  {
    if b < c {
      CountSplit(bits, a, b, c - 1);
    }
  }

  lemma {:induction false} CountSame(x: seq<Byte>, y: seq<Byte>, a: nat, b: nat)
    requires forall n: nat :: a <= n < b ==> At(x, n) == At(y, n)
    ensures Count(x, a, b) == Count(y, a, b)
    decreases b
  {
    if a < b {
      CountSame(x, y, a, b - 1);
    }
  }

  lemma {:induction false} CountNone(bits: seq<Byte>, a: nat, b: nat)
    requires forall n: nat :: a <= n < b ==> !At(bits, n)
    ensures Count(bits, a, b) == 0
    decreases b
  {
    if a < b {
      CountNone(bits, a, b - 1);
    }
  }

  lemma {:induction false} CountAll(bits: seq<Byte>, a: nat, b: nat)
    requires a <= b && forall n: nat :: a <= n < b ==> At(bits, n)
    ensures Count(bits, a, b) == b - a
    decreases b
  {
    if a < b {
      CountAll(bits, a, b - 1);
    }
  }

  /** A count tells when all bits, or none, are set. */
  lemma {:induction false} CountExtremes(bits: seq<Byte>, a: nat, b: nat)
    requires a <= b
    ensures Count(bits, a, b) <= b - a
    ensures Count(bits, a, b) == 0 <==> forall n: nat :: a <= n < b ==> !At(bits, n)
    ensures Count(bits, a, b) == b - a <==> forall n: nat :: a <= n < b ==> At(bits, n)
    decreases b
  {
    if a < b {
      CountExtremes(bits, a, b - 1);
      assert At(bits, b - 1) || !At(bits, b - 1);
    }
  }

  lemma AtByte(bits: seq<Byte>, k: nat, i: nat)
    requires i < 8
    ensures At(bits, 8 * k + i) == (k < |bits| && Bit(bits[k], i))
  {
    assert (8 * k + i) / 8 == k && (8 * k + i) % 8 == i;
  }

  lemma {:induction false} CountFirst(bits: seq<Byte>, k: nat, n: nat)
    requires k < |bits| && n <= 8
    ensures Count(bits, 8 * k, 8 * k + n) == PopFirst(bits[k], n)
  {
    if n > 0 {
      CountFirst(bits, k, n - 1);
      AtByte(bits, k, n - 1);
    }
  }

  /** A byte's count is its table entry. */
  lemma CountByte(bits: seq<Byte>, k: nat)
    requires k < |bits|
    ensures Count(bits, 8 * k, 8 * k + 8) == Pop(bits[k])
  {
    CountFirst(bits, k, 8);
  }

  lemma PartBits(bits: seq<Byte>, part: seq<Byte>, k: nat, b: Byte, lo: nat, hi: nat)
    requires k < |bits| && lo <= hi <= 8 && part == bits[k := b]
    requires forall i: nat :: i < 8 ==> Bit(b, i) == (lo <= i < hi && Bit(bits[k], i))
    ensures forall n: nat :: 8 * k <= n < 8 * k + 8 ==> At(part, n) == (8 * k + lo <= n < 8 * k + hi && At(bits, n))
  {
    forall n: nat | 8 * k <= n < 8 * k + 8
      ensures At(part, n) == (8 * k + lo <= n < 8 * k + hi && At(bits, n))
    {
      AtPart(bits, part, k, n - 8 * k, b, lo, hi);
    }
  }

  /** Bits `lo` to `hi` of byte `k`, picked out by the value `b`. */
  lemma CountPart(bits: seq<Byte>, k: nat, b: Byte, lo: nat, hi: nat)
    requires k < |bits| && lo <= hi <= 8
    requires forall i: nat :: i < 8 ==> Bit(b, i) == (lo <= i < hi && Bit(bits[k], i))
    ensures Count(bits, 8 * k + lo, 8 * k + hi) == Pop(b)
  {
    var part := bits[k := b];
    PartBits(bits, part, k, b, lo, hi);
    CountByte(part, k);
    CountWithin(bits, part, 8 * k, 8 * k + lo, 8 * k + hi, 8 * k + 8);
  }

  lemma CountWithin(bits: seq<Byte>, part: seq<Byte>, a: nat, b: nat, c: nat, d: nat)
    requires a <= b <= c <= d
    requires forall n: nat :: a <= n < d ==> At(part, n) == (b <= n < c && At(bits, n))
    ensures Count(part, a, d) == Count(bits, b, c)
  {
    CountSplit(part, a, b, d);
    CountSplit(part, b, c, d);
    CountNone(part, a, b);
    CountSame(part, bits, b, c);
    CountNone(part, c, d);
  }

  lemma AtPart(bits: seq<Byte>, part: seq<Byte>, k: nat, i: nat, b: Byte, lo: nat, hi: nat)
    requires k < |bits| && i < 8 && part == bits[k := b] && Bit(b, i) == (lo <= i < hi && Bit(bits[k], i))
    ensures At(part, 8 * k + i) == (lo <= i < hi && At(bits, 8 * k + i))
  {
    AtByte(part, k, i);
    AtByte(bits, k, i);
  }

  lemma CountHead(bits: seq<Byte>, k: nat, lo: nat)
    requires k < |bits| && lo < 8
    ensures Count(bits, 8 * k + lo, 8 * k + 8) == Pop(From(bits[k], lo))
  {
    forall i: nat | i < 8
      ensures Bit(From(bits[k], lo), i) == (lo <= i < 8 && Bit(bits[k], i))
    {
      FromBit(bits[k], lo, i);
    }
    CountPart(bits, k, From(bits[k], lo), lo, 8);
  }

  lemma CountTail(bits: seq<Byte>, k: nat, hi: nat)
    requires k < |bits| && 0 < hi <= 8
    ensures Count(bits, 8 * k, 8 * k + hi) == Pop(ButLast(bits[k], 8 - hi))
  {
    forall i: nat | i < 8
      ensures Bit(ButLast(bits[k], 8 - hi), i) == (0 <= i < hi && Bit(bits[k], i))
    {
      ButLastBit(bits[k], 8 - hi, i);
    }
    CountPart(bits, k, ButLast(bits[k], 8 - hi), 0, hi);
  }

  lemma CountMiddle(bits: seq<Byte>, k: nat, lo: nat, hi: nat)
    requires k < |bits| && lo < hi <= 8
    ensures Count(bits, 8 * k + lo, 8 * k + hi) == Pop(ButLast(From(bits[k], lo), 8 - hi))
  {
    var b := ButLast(From(bits[k], lo), 8 - hi);
    forall i: nat | i < 8
      ensures Bit(b, i) == (lo <= i < hi && Bit(bits[k], i))
    {
      FromBit(bits[k], lo, i);
      ButLastBit(From(bits[k], lo), 8 - hi, i);
    }
    CountPart(bits, k, b, lo, hi);
  }

  lemma CountPast(bits: seq<Byte>, a: nat, b: nat)
    requires 8 * |bits| <= a
    ensures Count(bits, a, b) == 0
  {
    CountNone(bits, a, b);
  }

  // ---- counting byte by byte ----------------------------------------------

  /** countArray() */
  method CountArray(bits: seq<Byte>) returns (n: nat)
    ensures n == Count(bits, 0, 8 * |bits|)
  {
    n := 0;
    var i: nat := |bits|;
    while i > 0
      invariant i <= |bits|
      invariant n == Count(bits, 8 * i, 8 * |bits|)
    {
      i := i - 1;
      CountByte(bits, i);
      CountSplit(bits, 8 * i, 8 * i + 8, 8 * |bits|);
      var count := TrueBitCount(bits[i]);
      n := n + count;
    }
  }

  /** countRange(): partial bytes at both ends, whole bytes between; bits past the array count as clear. */
  method CountRange(bits: seq<Byte>, begin: nat, end: nat) returns (n: nat)
    requires begin < end
    ensures n == Count(bits, begin, end)
  {
    var firstByte: nat, lastByte: nat := begin / 8, (end - 1) / 8;
    if firstByte >= |bits| {
      CountPast(bits, begin, end);
      return 0;
    }
    if firstByte == lastByte {
      var lo: nat, cut: nat := begin - firstByte * 8, (lastByte + 1) * 8 - end;
      CountMiddle(bits, firstByte, lo, 8 - cut);
      n := TrueBitCount(ButLast(From(bits[firstByte], lo), cut));
      return;
    }
    n := CountAcross(bits, begin, end, firstByte, lastByte);
  }

  method CountAcross(bits: seq<Byte>, begin: nat, end: nat, firstByte: nat, lastByte: nat) returns (n: nat)
    requires firstByte < |bits| && firstByte < lastByte
    requires 8 * firstByte <= begin < 8 * firstByte + 8 && 8 * lastByte < end <= 8 * lastByte + 8
    ensures n == Count(bits, begin, end)
  {
    var lo: nat, cut: nat := begin - firstByte * 8, (lastByte + 1) * 8 - end;
    CountHead(bits, firstByte, lo);
    n := TrueBitCount(From(bits[firstByte], lo));
    var walkEnd := if |bits| < lastByte then |bits| else lastByte;
    n := CountBytes(bits, firstByte + 1, walkEnd, begin, n);
    CountEnd(bits, begin, walkEnd, lastByte, end);
    if lastByte < |bits| {
      var count := TrueBitCount(ButLast(bits[lastByte], cut));
      n := n + count;
    }
  }

  /** The whole bytes between the ends. */
  method CountBytes(bits: seq<Byte>, from: nat, walkEnd: nat, ghost begin: nat, head: nat) returns (n: nat)
    requires from <= walkEnd <= |bits| && begin <= 8 * from && head == Count(bits, begin, 8 * from)
    ensures n == Count(bits, begin, 8 * walkEnd)
  {
    n := head;
    for i := from to walkEnd
      invariant n == Count(bits, begin, 8 * i)
    {
      CountByte(bits, i);
      CountSplit(bits, begin, 8 * i, 8 * i + 8);
      var count := TrueBitCount(bits[i]);
      n := n + count;
    }
  }

  lemma CountEnd(bits: seq<Byte>, begin: nat, walkEnd: nat, lastByte: nat, end: nat)
    requires begin <= 8 * walkEnd && walkEnd == (if |bits| < lastByte then |bits| else lastByte)
    requires 8 * lastByte < end <= 8 * lastByte + 8
    ensures Count(bits, begin, end) == Count(bits, begin, 8 * walkEnd)
            + if lastByte < |bits| then Pop(ButLast(bits[lastByte], 8 * lastByte + 8 - end)) else 0
  {
    CountSplit(bits, begin, 8 * walkEnd, end);
    if lastByte < |bits| {
      CountTail(bits, lastByte, end - 8 * lastByte);
    } else {
      CountPast(bits, 8 * walkEnd, end);
    }
  }
}
