/**
 * A bit array of known size that keeps its bytes only while they say
 * something: full and empty fields have no array, and a partly filled one may
 * have a short array. It stands for a set of indices.
 */
module Bitfields {
  import opened Bits

  function BytesNeeded(bitCount: nat): nat { (bitCount + 7) / 8 }

  /** The indices from `begin` up to `end`. */
  ghost function Range(begin: nat, end: nat): set<nat> { set n: nat | n < end && Between(begin, n, end) }

  predicate Between(begin: nat, n: nat, end: nat) { begin <= n < end }

  function Min(a: nat, b: nat): nat { if a < b then a else b }

  function Max(a: nat, b: nat): nat { if a < b then b else a }

  // ---- counting and cardinality -------------------------------------------

  function Indices(bits: seq<Byte>, begin: nat, end: nat): set<nat> {
    set n: nat | begin <= n < end && At(bits, n)
  }

  lemma {:induction false} CountIsCardinality(bits: seq<Byte>, begin: nat, end: nat)
    ensures |Indices(bits, begin, end)| == Count(bits, begin, end)
    decreases end
  {
    if begin >= end {
      assert Indices(bits, begin, end) == {};
    } else {
      CountIsCardinality(bits, begin, end - 1);
      NextIndex(bits, begin, end);
    }
  }

  lemma NextIndex(bits: seq<Byte>, begin: nat, end: nat)
    requires begin < end
    ensures Indices(bits, begin, end) == Indices(bits, begin, end - 1) + if At(bits, end - 1) then {end - 1} else {}
    ensures end - 1 !in Indices(bits, begin, end - 1)
  {
    var last: set<nat> := if At(bits, end - 1) then {end - 1} else {};
    forall n: nat
      ensures n in Indices(bits, begin, end) <==> n in Indices(bits, begin, end - 1) + last
    {
    }
  }

  lemma {:induction false} RangeSize(begin: nat, end: nat)
    requires begin <= end
    ensures |Range(begin, end)| == end - begin
    decreases end
  {
    if begin == end {
      assert Range(begin, end) == {};
    } else {
      RangeSize(begin, end - 1);
      assert Range(begin, end) == Range(begin, end - 1) + {end - 1};
    }
  }

  // ---- writing ranges of bits ---------------------------------------------

  /** memset() on part of an array */
  function Fill(bits: seq<Byte>, from: nat, to: nat, value: Byte): (r: seq<Byte>)
    ensures |r| == |bits|
  {
    seq(|bits|, i requires 0 <= i < |bits| => if from <= i < to then value else bits[i])
  }

  /** set_all_true(): the first `bitCount` bits are set and the rest of their last byte is cleared. */
  function SetAllTrue(bits: seq<Byte>, bitCount: nat): (r: seq<Byte>)
    requires 0 < bitCount && BytesNeeded(bitCount) <= |bits|
    ensures |r| == |bits|
  {
    var n := BytesNeeded(bitCount);
    Fill(bits, 0, n - 1, 0xFF)[n - 1 := TailMask(7 - (n * 8 - bitCount))]
  }

  lemma SetAllTrueBits(bits: seq<Byte>, bitCount: nat, k: nat)
    requires 0 < bitCount && BytesNeeded(bitCount) <= |bits| && (k >= 8 * BytesNeeded(bitCount) ==> !At(bits, k))
    ensures At(SetAllTrue(bits, bitCount), k) == (k < bitCount)
  {
    var n, j := BytesNeeded(bitCount), 7 - (BytesNeeded(bitCount) * 8 - bitCount);
    TailBit(j, k % 8);
    ConstBits(k % 8);
  }

  // Which bits of byte `j` a range of bits covers.

  predicate Covers(begin: nat, last: nat, j: nat, i: nat) { begin <= 8 * j + i <= last }

  lemma CoverSplit(begin: nat, last: nat, j: nat, i: nat)
    requires begin <= last && i < 8
    ensures Covers(begin, last, j, i)
            == ((j > begin / 8 || (j == begin / 8 && begin % 8 <= i)) && (j < last / 8 || (j == last / 8 && i <= last % 8)))
  {
  }

  /** What becomes of byte `j` when `begin` to `last` are set. */
  function OrByte(b: Byte, j: nat, begin: nat, last: nat): Byte {
    var sb, sm, eb, em := begin / 8, HeadMask(begin % 8), last / 8, TailMask(last % 8);
    if j == sb == eb then Or(b, And(sm, em))
    else if j == sb then Or(b, sm)
    else if j == eb then Or(b, em)
    else if sb < j < eb then 0xFF
    else b
  }

  lemma OrByteBit(b: Byte, j: nat, i: nat, begin: nat, last: nat)
    requires begin <= last && i < 8
    ensures Bit(OrByte(b, j, begin, last), i) == (Bit(b, i) || Covers(begin, last, j, i))
  {
    var sb, sm, eb, em := begin / 8, HeadMask(begin % 8), last / 8, TailMask(last % 8);
    CoverSplit(begin, last, j, i);
    if j == sb == eb {
      HeadBit(begin % 8, i);
      TailBit(last % 8, i);
      AndBit(sm, em, i);
      OrBit(b, And(sm, em), i);
    } else if j == sb {
      HeadBit(begin % 8, i);
      OrBit(b, sm, i);
    } else if j == eb {
      TailBit(last % 8, i);
      OrBit(b, em, i);
    } else {
      ConstBits(i);
    }
  }

  /** ... and when they are cleared. */
  function AndByte(b: Byte, j: nat, begin: nat, last: nat): Byte {
    var sb, sm, eb, em := begin / 8, Not(HeadMask(begin % 8)), last / 8, Not(TailMask(last % 8));
    if j == sb == eb then And(b, Or(sm, em))
    else if j == sb then And(b, sm)
    else if j == eb then And(b, em)
    else if sb < j < eb then 0
    else b
  }

  lemma AndByteBit(b: Byte, j: nat, i: nat, begin: nat, last: nat)
    requires begin <= last && i < 8
    ensures Bit(AndByte(b, j, begin, last), i) == (Bit(b, i) && !Covers(begin, last, j, i))
  {
    var sb, sm, eb, em := begin / 8, Not(HeadMask(begin % 8)), last / 8, Not(TailMask(last % 8));
    CoverSplit(begin, last, j, i);
    if j == sb == eb {
      NotHeadBit(begin % 8, i);
      NotTailBit(last % 8, i);
      OrBit(sm, em, i);
      AndBit(b, Or(sm, em), i);
    } else if j == sb {
      NotHeadBit(begin % 8, i);
      AndBit(b, sm, i);
    } else if j == eb {
      NotTailBit(last % 8, i);
      AndBit(b, em, i);
    } else {
      ConstBits(i);
    }
  }

  lemma NotHeadBit(h: nat, i: nat)
    requires h < 8 && i < 8
    ensures Bit(Not(HeadMask(h)), i) == (i < h)
  {
    NotBit(HeadMask(h), i);
    HeadBit(h, i);
  }

  lemma NotTailBit(h: nat, i: nat)
    requires h < 8 && i < 8
    ensures Bit(Not(TailMask(h)), i) == (h < i)
  {
    NotBit(TailMask(h), i);
    TailBit(h, i);
  }

  /** Bits `begin` to `last` set. */
  function OrRange(bits: seq<Byte>, begin: nat, last: nat): (r: seq<Byte>)
    requires begin <= last && last / 8 < |bits|
    ensures |r| == |bits|
    ensures forall j :: 0 <= j < |bits| ==> r[j] == OrByte(bits[j], j, begin, last)
  {
    var sb, sm, eb, em := begin / 8, HeadMask(begin % 8), last / 8, TailMask(last % 8);
    if sb == eb then bits[sb := Or(bits[sb], And(sm, em))]
    else Fill(bits[sb := Or(bits[sb], sm)][eb := Or(bits[eb], em)], sb + 1, eb, 0xFF)
  }

  lemma OrRangeBits(bits: seq<Byte>, begin: nat, last: nat, k: nat)
    requires begin <= last && last / 8 < |bits|
    ensures At(OrRange(bits, begin, last), k) == (At(bits, k) || begin <= k <= last)
  {
    if k / 8 < |bits| {
      OrByteBit(bits[k / 8], k / 8, k % 8, begin, last);
    }
  }

  /** Bits `begin` to `last` cleared. */
  function AndRange(bits: seq<Byte>, begin: nat, last: nat): (r: seq<Byte>)
    requires begin <= last && last / 8 < |bits|
    ensures |r| == |bits|
    ensures forall j :: 0 <= j < |bits| ==> r[j] == AndByte(bits[j], j, begin, last)
  {
    var sb, sm, eb, em := begin / 8, Not(HeadMask(begin % 8)), last / 8, Not(TailMask(last % 8));
    if sb == eb then bits[sb := And(bits[sb], Or(sm, em))]
    else Fill(bits[sb := And(bits[sb], sm)][eb := And(bits[eb], em)], sb + 1, eb, 0)
  }

  lemma AndRangeBits(bits: seq<Byte>, begin: nat, last: nat, k: nat)
    requires begin <= last && last / 8 < |bits|
    ensures At(AndRange(bits, begin, last), k) == (At(bits, k) && !(begin <= k <= last))
  {
    if k / 8 < |bits| {
      AndByteBit(bits[k / 8], k / 8, k % 8, begin, last);
    }
  }

  ghost predicate ClearPast(bits: seq<Byte>, bitCount: nat) {
    forall n: nat :: bitCount <= n ==> !At(bits, n)
  }

  lemma ZeroesAppended(bits: seq<Byte>, n: nat)
    ensures forall k: nat :: At(bits + seq(n, i => 0), k) == At(bits, k)
  {
    forall k: nat
      ensures At(bits + seq(n, i => 0), k) == At(bits, k)
    {
      ConstBits(k % 8);
    }
  }

  // ---- what a change of bits does to the count ----------------------------

  lemma SetOneCount(was: seq<Byte>, now: seq<Byte>, n: nat, size: nat)
    requires n < size && !At(was, n)
    requires forall k: nat :: At(now, k) == (At(was, k) || k == n)
    ensures Count(now, 0, size) == Count(was, 0, size) + 1
  {
    CountSplit(now, 0, n, size);
    CountSplit(now, n, n + 1, size);
    CountSplit(was, 0, n, size);
    CountSplit(was, n, n + 1, size);
    CountSame(was, now, 0, n);
    CountSame(was, now, n + 1, size);
  }

  lemma SetRangeCount(was: seq<Byte>, now: seq<Byte>, begin: nat, end: nat, size: nat)
    requires begin <= end <= size
    requires forall k: nat :: At(now, k) == (At(was, k) || begin <= k < end)
    ensures Count(now, 0, size) == Count(was, 0, size) + (end - begin) - Count(was, begin, end)
  {
    CountSplit(now, 0, begin, size);
    CountSplit(now, begin, end, size);
    CountSplit(was, 0, begin, size);
    CountSplit(was, begin, end, size);
    CountSame(was, now, 0, begin);
    CountAll(now, begin, end);
    CountSame(was, now, end, size);
  }

  lemma ClearRangeCount(was: seq<Byte>, now: seq<Byte>, begin: nat, end: nat, size: nat)
    requires begin <= end <= size
    requires forall k: nat :: At(now, k) == (At(was, k) && !(begin <= k < end))
    ensures Count(now, 0, size) == Count(was, 0, size) - Count(was, begin, end)
  {
    CountSplit(now, 0, begin, size);
    CountSplit(now, begin, end, size);
    CountSplit(was, 0, begin, size);
    CountSplit(was, begin, end, size);
    CountSame(was, now, 0, begin);
    CountNone(now, begin, end);
    CountSame(was, now, end, size);
  }

  // ---- flags --------------------------------------------------------------

  predicate Flagged(flags: seq<bool>, k: nat) { k < |flags| && flags[k] }

  ghost function FlagSet(flags: seq<bool>): set<nat> { set k: nat | k < |flags| && Flagged(flags, k) }

  function CountFlags(flags: seq<bool>, n: nat): nat
    requires n <= |flags|
  {
    if n == 0 then 0 else CountFlags(flags, n - 1) + One(flags[n - 1])
  }

  lemma {:induction false} FlagsExtreme(flags: seq<bool>, n: nat)
    requires n <= |flags|
    ensures CountFlags(flags, n) <= n
    ensures CountFlags(flags, n) == n <==> forall k: nat :: k < n ==> Flagged(flags, k)
    ensures CountFlags(flags, n) == 0 <==> forall k: nat :: k < n ==> !Flagged(flags, k)
  {
    if n > 0 {
      FlagsExtreme(flags, n - 1);
      assert Flagged(flags, n - 1) == flags[n - 1];
    }
  }

  lemma FlagsCounted(flags: seq<bool>)
    ensures CountFlags(flags, |flags|) <= |flags|
    ensures CountFlags(flags, |flags|) == |flags| <==> FlagSet(flags) == Range(0, |flags|)
    ensures CountFlags(flags, |flags|) == 0 <==> FlagSet(flags) == {}
  {
    FlagsExtreme(flags, |flags|);
    assert forall k: nat :: k in Range(0, |flags|) <==> k < |flags|;
    assert forall k: nat :: k in FlagSet(flags) <==> Flagged(flags, k);
  }

  lemma {:induction false} FlagBitsCount(bits: seq<Byte>, flags: seq<bool>, n: nat)
    requires n <= |flags| && forall k: nat :: At(bits, k) == Flagged(flags, k)
    ensures Count(bits, 0, n) == CountFlags(flags, n)
  {
    if n > 0 {
      FlagBitsCount(bits, flags, n - 1);
      assert At(bits, n - 1) == flags[n - 1];
    }
  }

  lemma FlagBits(bits: seq<Byte>, flags: seq<bool>)
    requires forall k: nat :: At(bits, k) == Flagged(flags, k)
    ensures Count(bits, 0, |flags|) == CountFlags(flags, |flags|)
    ensures Indices(bits, 0, |flags|) == FlagSet(flags) && ClearPast(bits, |flags|)
  {
    FlagBitsCount(bits, flags, |flags|);
  }

  // ---- the bit field ------------------------------------------------------

  class Bitfield {
    var bits: seq<Byte>
    var bitCount: nat
    var trueCount: nat
    var haveAllHint: bool
    var haveNoneHint: bool

    predicate HasAll() reads this { if bitCount > 0 then trueCount == bitCount else haveAllHint }

    predicate HasNone() reads this { if bitCount > 0 then trueCount == 0 else haveNoneHint }

    predicate Has(n: nat) reads this {
      HasAll() || (!HasNone() && At(bits, n))
    }

    /** The set of indices the field stands for. */
    ghost function Held(): set<nat> reads this {
      set n: nat | n < bitCount && Has(n)
    }

    /** The array, if there is one, is needed, not too long, clear past the last bit, and counted. */
    ghost predicate Valid() reads this {
      && bitCount > 0 && trueCount <= bitCount && |bits| <= BytesNeeded(bitCount)
      && (bits == [] <==> HasAll() || HasNone())
      && (bits != [] ==> trueCount == Count(bits, 0, bitCount))
      && ClearPast(bits, bitCount)
    }

    constructor (bitCount: nat)
      requires bitCount > 0
      ensures Valid() && this.bitCount == bitCount && Held() == {}
    {
      this.bitCount := bitCount;
      trueCount := 0;
      bits := [];
      haveAllHint := false;
      haveNoneHint := false;
    }

    /** tr_bitfieldCountTrueBits() is the size of the set. */
    lemma TrueCountIsSize()
      requires Valid()
      ensures |Held()| == trueCount
    {
      if HasAll() {
        RangeSize(0, bitCount);
        assert Held() == Range(0, bitCount);
      } else if HasNone() {
        assert Held() == {};
      } else {
        CountIsCardinality(bits, 0, bitCount);
        assert Held() == Indices(bits, 0, bitCount);
      }
    }

    /** tr_bitfieldSetHasNone() */
    method SetHasNone()
      requires bitCount > 0
      modifies this
      ensures Valid() && bitCount == old(bitCount) && Held() == {}
    {
      bits := [];
      trueCount := 0;
      haveAllHint := false;
      haveNoneHint := true;
    }

    /** tr_bitfieldSetHasAll() */
    method SetHasAll()
      requires bitCount > 0
      modifies this
      ensures Valid() && bitCount == old(bitCount) && Held() == Range(0, bitCount)
    {
      bits := [];
      trueCount := bitCount;
      haveAllHint := true;
      haveNoneHint := false;
    }

    /** tr_bitfieldCountRange(): the size of the part of the set in a range. */
    method CountRange(begin: nat, end: nat) returns (n: nat)
      requires Valid() && begin < end
      ensures end <= bitCount ==> n == |Held() * Range(begin, end)|
    {
      if HasAll() {
        RangeSize(begin, end);
        assert end <= bitCount ==> Held() * Range(begin, end) == Range(begin, end);
        return end - begin;
      }
      if HasNone() {
        assert Held() * Range(begin, end) == {};
        return 0;
      }
      n := Bits.CountRange(bits, begin, end);
      CountIsCardinality(bits, begin, end);
      assert end <= bitCount ==> Held() * Range(begin, end) == Indices(bits, begin, end);
    }

    /** tr_bitfieldEnsureBitsAlloced(): a full field gets its ones, any other one zeros. */
    method EnsureBitsAlloced(n: nat)
      requires bitCount > 0 && 0 < n <= bitCount && |bits| <= BytesNeeded(bitCount)
      requires HasAll() ==> bits == []
      modifies `bits
      ensures BytesNeeded(n) <= |bits| <= BytesNeeded(bitCount)
      ensures forall k: nat :: At(bits, k) == if HasAll() then k < bitCount else old(At(bits, k))
    {
      var hasAll := HasAll();
      var bytesNeeded := if hasAll then BytesNeeded(Max(n, trueCount)) else BytesNeeded(n);
      if |bits| < bytesNeeded {
        bits := bits + seq(bytesNeeded - |bits|, i => 0);
        ZeroesAppended(old(bits), bytesNeeded - |old(bits)|);
        if hasAll {
          forall k: nat
            ensures At(SetAllTrue(bits, trueCount), k) == (k < bitCount)
          {
            SetAllTrueBits(bits, trueCount, k);
          }
          bits := SetAllTrue(bits, trueCount);
        }
      }
    }

    /** tr_bitfieldSetTrueCount(): an array that says nothing is dropped. */
    method SetTrueCount(n: nat)
      modifies `trueCount, `bits
      ensures trueCount == n && bits == if HasAll() || HasNone() then [] else old(bits)
    {
      trueCount := n;
      if HasAll() || HasNone() {
        bits := [];
      }
    }

    /** Once the count is right, the field stands for what its array said, kept or not. */
    lemma Settled(all: seq<Byte>)
      requires bitCount > 0 && trueCount == Count(all, 0, bitCount)
      requires bits == if HasAll() || HasNone() then [] else all
      requires |all| <= BytesNeeded(bitCount) && ClearPast(all, bitCount)
      ensures Valid() && Held() == Indices(all, 0, bitCount)
    {
      CountExtremes(all, 0, bitCount);
      if all == [] {
        CountNone(all, 0, bitCount);
      }
    }

    /** What the set is and what an allocated array says are the same. */
    lemma AllocatedBits(before: set<nat>, was: seq<Byte>, all: bool)
      requires bitCount > 0 && trueCount <= bitCount
      requires all == HasAll() && (all || HasNone() ==> was == []) && ClearPast(was, bitCount)
      requires was != [] ==> trueCount == Count(was, 0, bitCount)
      requires was == [] ==> HasAll() || HasNone()
      requires forall k: nat :: At(bits, k) == if all then k < bitCount else At(was, k)
      requires before == set n: nat | n < bitCount && (all || (!HasNone() && At(was, n)))
      ensures ClearPast(bits, bitCount) && Indices(bits, 0, bitCount) == before
      ensures trueCount == Count(bits, 0, bitCount)
    {
      if all {
        CountAll(bits, 0, bitCount);
      } else {
        CountSame(was, bits, 0, bitCount);
        if was == [] {
          CountNone(was, 0, bitCount);
        }
      }
    }

    /** Give the field an array that says all there is to say about its first `n` bits. */
    method Allocate(n: nat)
      requires Valid() && 0 < n <= bitCount
      modifies `bits
      ensures BytesNeeded(n) <= |bits| <= BytesNeeded(bitCount) && ClearPast(bits, bitCount)
      ensures Indices(bits, 0, bitCount) == old(Held()) && trueCount == Count(bits, 0, bitCount)
    {
      ghost var before, was, all := Held(), bits, HasAll();
      EnsureBitsAlloced(n);
      AllocatedBits(before, was, all);
    }

    /** tr_bitfieldAdd() */
    method Add(nth: nat)
      requires Valid() && nth < bitCount
      modifies this
      ensures Valid() && bitCount == old(bitCount) && Held() == old(Held()) + {nth}
    {
      if !Has(nth) {
        Allocate(nth + 1);
        ghost var was := bits;
        assert nth !in Indices(was, 0, bitCount);
        bits := bits[nth / 8 := Or(bits[nth / 8], Mask(nth % 8))];
        AddedBits(was, nth);
        SetOneCount(was, bits, nth, bitCount);
        ghost var all := bits;
        SetTrueCount(trueCount + 1);
        Settled(all);
        assert Indices(all, 0, bitCount) == Indices(was, 0, bitCount) + {nth};
      }
    }

    /** tr_bitfieldAddRange(): a range that reaches past the end is ignored. */
    method AddRange(begin: nat, end: nat)
      requires Valid() && begin < end
      modifies this
      ensures Valid() && bitCount == old(bitCount)
      ensures Held() == if end <= bitCount then old(Held()) + Range(begin, end) else old(Held())
    {
      var have := CountRange(begin, end);
      var diff := end - begin - have;
      if diff == 0 {
        if end <= bitCount {
          FullRange(Held(), begin, end);
        }
        return;
      }
      if end - 1 >= bitCount {
        return;
      }
      Allocate(end);
      ghost var was := bits;
      bits := OrRange(bits, begin, end - 1);
      ghost var all := bits;
      RangeAdded(was, all, begin, end, bitCount);
      SetTrueCount(trueCount + diff);
      Settled(all);
    }

    /** tr_bitfieldRemRange() */
    method RemRange(begin: nat, end: nat)
      requires Valid() && begin < end
      modifies this
      ensures Valid() && bitCount == old(bitCount)
      ensures Held() == if end <= bitCount then old(Held()) - Range(begin, end) else old(Held())
    {
      var diff := CountRange(begin, end);
      if diff == 0 {
        if end <= bitCount {
          EmptyRange(Held(), begin, end);
        }
        return;
      }
      if end - 1 >= bitCount {
        return;
      }
      Allocate(end);
      ghost var was := bits;
      bits := AndRange(bits, begin, end - 1);
      ghost var all := bits;
      RangeRemoved(was, all, begin, end, bitCount);
      SetTrueCount(trueCount - diff);
      Settled(all);
    }

    /** tr_bitfieldGetRaw(): all the bytes, whether or not the field has an array. */
    method GetRaw() returns (raw: seq<Byte>)
      requires Valid()
      ensures |raw| == BytesNeeded(bitCount) && ClearPast(raw, bitCount)
      ensures Indices(raw, 0, bitCount) == Held()
    {
      var n := BytesNeeded(bitCount);
      var zeros: seq<Byte> := seq(n, i => 0);
      ZeroesAppended([], n);
      assert [] + seq(n, i => 0) == zeros;
      if bits != [] {
        raw := bits + seq(n - |bits|, i => 0);
        ZeroesAppended(bits, n - |bits|);
        assert forall k: nat :: At(raw, k) == At(bits, k);
      } else if HasAll() {
        raw := SetAllTrue(zeros, bitCount);
        forall k: nat
          ensures At(raw, k) == (k < bitCount)
        {
          SetAllTrueBits(zeros, bitCount, k);
        }
      } else {
        raw := zeros;
        assert forall k: nat :: !At(raw, k);
      }
    }

    /**
     * tr_bitfieldSetRaw() with `bounded`: the source has to have all the bytes;
     * extra ones are not looked at, and extra bits in the last are cleared.
     */
    method SetRaw(raw: seq<Byte>)
      requires bitCount > 0 && |raw| >= BytesNeeded(bitCount)
      modifies this
      ensures Valid() && bitCount == old(bitCount) && Held() == Indices(raw, 0, bitCount)
    {
      trueCount := 0;
      var byteCount := Min(|raw|, BytesNeeded(bitCount));
      bits := raw[..byteCount];
      var excess := byteCount * 8 - bitCount;
      if excess != 0 {
        bits := bits[byteCount - 1 := And(bits[byteCount - 1], TailMask(7 - excess))];
      }
      TrimmedBits(raw, bits, bitCount);
      ghost var all := bits;
      var n := CountArray(bits);
      CountSplit(all, 0, bitCount, 8 * |all|);
      CountNone(all, bitCount, 8 * |all|);
      SetTrueCount(n);
      Settled(all);
    }

    /** Set the bits that have flags, and count them; what was set stays set. */
    method MarkFlags(flags: seq<bool>) returns (trueFlags: nat)
      requires |flags| == bitCount && |bits| >= BytesNeeded(bitCount)
      modifies `bits
      ensures |bits| == old(|bits|)
      ensures forall k: nat :: At(bits, k) == (old(At(bits, k)) || Flagged(flags, k))
      ensures trueFlags == CountFlags(flags, |flags|)
    {
      trueFlags := 0;
      for i := 0 to |flags|
        invariant |bits| == old(|bits|)
        invariant forall k: nat :: At(bits, k) == (old(At(bits, k)) || (k < i && Flagged(flags, k)))
        invariant trueFlags == CountFlags(flags, i)
      {
        if flags[i] {
          trueFlags := trueFlags + 1;
          AddedBits(bits, i);
          bits := bits[i / 8 := Or(bits[i / 8], Mask(i % 8))];
        }
      }
    }

    /**
     * tr_bitfieldSetFromFlags(). The old count is still there when the array
     * is allocated, so a receiver that was full starts from all ones: it ends
     * up right only if the flags are all true or all false.
     */
    method SetFromFlags(flags: seq<bool>)
      requires Valid() && |flags| == bitCount
      modifies this
      ensures bitCount == old(bitCount)
      ensures Held() == FlagSet(flags)
              <==> (!old(HasAll()) || FlagSet(flags) == Range(0, bitCount) || FlagSet(flags) == {})
      ensures Held() == FlagSet(flags) ==> Valid()
    {
      ghost var wasFull := HasAll();
      bits := [];
      EnsureBitsAlloced(|flags|);
      ghost var start := bits;
      var trueFlags := MarkFlags(flags);
      ghost var all := bits;
      FlagsCounted(flags);
      SetTrueCount(trueFlags);
      if !wasFull {
        FlagBits(all, flags);
        Settled(all);
      } else if HasAll() {
        assert Held() == Range(0, bitCount);
      } else if HasNone() {
        assert Held() == {};
      } else {
        assert Held() == Range(0, bitCount);
      }
    }

    /** tr_bitfieldSetFromBitfield(): a partly filled source has to have its whole array. */
    method SetFromBitfield(src: Bitfield)
      requires bitCount > 0 && src.Valid() && src.bitCount == bitCount && src != this
      requires src.bits != [] ==> |src.bits| == BytesNeeded(bitCount)
      modifies this
      ensures Valid() && bitCount == old(bitCount) && Held() == src.Held()
    {
      if src.HasAll() {
        SetHasAll();
        assert src.Held() == Range(0, bitCount);
      } else if src.HasNone() {
        SetHasNone();
        assert src.Held() == {};
      } else {
        SetRaw(src.bits);
        assert src.Held() == Indices(src.bits, 0, bitCount);
      }
    }
  }

  lemma RangeAdded(was: seq<Byte>, all: seq<Byte>, begin: nat, end: nat, size: nat)
    requires begin < end <= size && (end - 1) / 8 < |was| && all == OrRange(was, begin, end - 1) && ClearPast(was, size)
    ensures ClearPast(all, size)
    ensures Indices(all, 0, size) == Indices(was, 0, size) + Range(begin, end)
    ensures Count(all, 0, size) == Count(was, 0, size) + (end - begin - |Indices(was, 0, size) * Range(begin, end)|)
    ensures |Indices(was, 0, size) * Range(begin, end)| <= end - begin
  {
    BitsAdded(was, begin, end);
    IndicesAdded(was, all, begin, end, size);
    SetRangeCount(was, all, begin, end, size);
    PartSize(was, begin, end, size);
  }

  lemma BitsAdded(was: seq<Byte>, begin: nat, end: nat)
    requires begin < end && (end - 1) / 8 < |was|
    ensures forall k: nat :: At(OrRange(was, begin, end - 1), k) == (At(was, k) || begin <= k < end)
  {
    forall k: nat
      ensures At(OrRange(was, begin, end - 1), k) == (At(was, k) || begin <= k < end)
    {
      OrRangeBits(was, begin, end - 1, k);
    }
  }

  lemma IndicesAdded(was: seq<Byte>, all: seq<Byte>, begin: nat, end: nat, size: nat)
    requires begin < end <= size && forall k: nat :: At(all, k) == (At(was, k) || begin <= k < end)
    ensures ClearPast(was, size) ==> ClearPast(all, size)
    ensures Indices(all, 0, size) == Indices(was, 0, size) + Range(begin, end)
  {
    forall k: nat | k < size
      ensures k in Indices(all, 0, size) <==> k in Indices(was, 0, size) + Range(begin, end)
    {
      assert Between(begin, k, end) == (begin <= k < end);
    }
  }

  lemma RangeRemoved(was: seq<Byte>, all: seq<Byte>, begin: nat, end: nat, size: nat)
    requires begin < end <= size && (end - 1) / 8 < |was| && all == AndRange(was, begin, end - 1) && ClearPast(was, size)
    ensures ClearPast(all, size)
    ensures Indices(all, 0, size) == Indices(was, 0, size) - Range(begin, end)
    ensures Count(all, 0, size) == Count(was, 0, size) - |Indices(was, 0, size) * Range(begin, end)|
  {
    BitsRemoved(was, begin, end);
    IndicesRemoved(was, all, begin, end, size);
    ClearRangeCount(was, all, begin, end, size);
    PartSize(was, begin, end, size);
  }

  lemma BitsRemoved(was: seq<Byte>, begin: nat, end: nat)
    requires begin < end && (end - 1) / 8 < |was|
    ensures forall k: nat :: At(AndRange(was, begin, end - 1), k) == (At(was, k) && !(begin <= k < end))
  {
    forall k: nat
      ensures At(AndRange(was, begin, end - 1), k) == (At(was, k) && !(begin <= k < end))
    {
      AndRangeBits(was, begin, end - 1, k);
    }
  }

  lemma IndicesRemoved(was: seq<Byte>, all: seq<Byte>, begin: nat, end: nat, size: nat)
    requires begin < end <= size && forall k: nat :: At(all, k) == (At(was, k) && !(begin <= k < end))
    ensures ClearPast(was, size) ==> ClearPast(all, size)
    ensures Indices(all, 0, size) == Indices(was, 0, size) - Range(begin, end)
  {
    forall k: nat | k < size
      ensures k in Indices(all, 0, size) <==> k in Indices(was, 0, size) - Range(begin, end)
    {
      assert Between(begin, k, end) == (begin <= k < end);
    }
  }

  lemma TrimmedBits(raw: seq<Byte>, bits: seq<Byte>, bitCount: nat)
    requires bitCount > 0 && BytesNeeded(bitCount) <= |raw|
    requires var n := BytesNeeded(bitCount);
             var excess := n * 8 - bitCount;
             bits == if excess == 0 then raw[..n] else raw[..n][n - 1 := And(raw[n - 1], TailMask(7 - excess))]
    ensures ClearPast(bits, bitCount) && Indices(bits, 0, bitCount) == Indices(raw, 0, bitCount)
  {
    var n := BytesNeeded(bitCount);
    var excess := n * 8 - bitCount;
    forall k: nat
      ensures At(bits, k) == (k < bitCount && At(raw, k))
    {
      if excess > 0 {
        AndBit(raw[n - 1], TailMask(7 - excess), k % 8);
        TailBit(7 - excess, k % 8);
      }
    }
  }

  lemma AddedBits(was: seq<Byte>, nth: nat)
    requires nth / 8 < |was|
    ensures forall k: nat :: At(was[nth / 8 := Or(was[nth / 8], Mask(nth % 8))], k) == (At(was, k) || k == nth)
  {
    forall k: nat
      ensures At(was[nth / 8 := Or(was[nth / 8], Mask(nth % 8))], k) == (At(was, k) || k == nth)
    {
      OrBit(was[nth / 8], Mask(nth % 8), k % 8);
      MaskBit(nth % 8, k % 8);
    }
  }

  lemma FullRange(held: set<nat>, begin: nat, end: nat)
    requires begin <= end && |held * Range(begin, end)| == end - begin
    ensures held + Range(begin, end) == held
  {
    RangeSize(begin, end);
    SubsetSameSize(held * Range(begin, end), Range(begin, end));
  }

  lemma EmptyRange(held: set<nat>, begin: nat, end: nat)
    requires |held * Range(begin, end)| == 0
    ensures held - Range(begin, end) == held
  {
    var part := held * Range(begin, end);
    assert part == {};
    assert forall x :: x in held - Range(begin, end) <==> x in held && x !in part;
  }

  lemma SubsetSameSize(a: set<nat>, b: set<nat>)
    requires a <= b && |a| == |b|
    ensures a == b
  {
    assert b == a + (b - a);
    assert |b| == |a| + |b - a|;
  }

  lemma PartSize(bits: seq<Byte>, begin: nat, end: nat, size: nat)
    requires begin <= end <= size
    ensures |Indices(bits, 0, size) * Range(begin, end)| == Count(bits, begin, end) <= end - begin
    ensures Count(bits, begin, end) <= Count(bits, 0, size)
  {
    CountIsCardinality(bits, begin, end);
    assert Indices(bits, 0, size) * Range(begin, end) == Indices(bits, begin, end);
    CountExtremes(bits, begin, end);
    CountSplit(bits, 0, begin, size);
    CountSplit(bits, begin, end, size);
  }
}
