/**
 * One character in UTF-32, UTF-16 and UTF-8: the bit arithmetic, tables and
 * offsets of the converters (RFC 3629 sections 3 and 4, RFC 2781 section 2).
 */
module UtfChars {
  import opened UtfBits

  type Utf32 = bv32
  type Utf16 = bv16
  type Utf8 = bv8

  const REPLACEMENT_CHAR: Utf32 := 0xFFFD

  predicate IsSurrogate(ch: Utf32) { 0xD800 <= ch <= 0xDFFF }

  /** A Unicode scalar value. */
  predicate IsScalar(ch: Utf32) { ch <= 0x10FFFF && !IsSurrogate(ch) }

  // ---- UTF-8 --------------------------------------------------------------

  function BytesToWrite(ch: Utf32): (r: nat)
    ensures 1 <= r <= 4
  {
    if ch < 0x80 then 1 else if ch < 0x800 then 2 else if ch < 0x1_0000 then 3 else 4
  }

  // First bytes, with firstByteMark[] put on.
  function First2(ch: Utf32): Utf8 { (((ch >> 6) | 0xC0) & 0xFF) as Utf8 }
  function First3(ch: Utf32): Utf8 { (((ch >> 12) | 0xE0) & 0xFF) as Utf8 }
  function First4(ch: Utf32): Utf8 { (((ch >> 18) | 0xF0) & 0xFF) as Utf8 }

  /** A byte after the first: six bits under a mark. */
  function Trail(ch: Utf32): Utf8 { ((ch | 0x80) & 0xBF) as Utf8 }

  function Encode8(ch: Utf32): (r: seq<Utf8>)
    ensures |r| == BytesToWrite(ch)
  {
    if ch < 0x80 then [(ch & 0xFF) as Utf8]
    else if ch < 0x800 then [First2(ch), Trail(ch)]
    else if ch < 0x1_0000 then [First3(ch), Trail(ch >> 6), Trail(ch)]
    else [First4(ch), Trail(ch >> 12), Trail(ch >> 6), Trail(ch)]
  }

  /** trailingBytesForUTF8[] */
  function TrailingBytes(lead: Utf8): (r: nat)
    ensures r <= 5
  {
    if lead < 0xC0 then 0
    else if lead < 0xE0 then 1
    else if lead < 0xF0 then 2
    else if lead < 0xF8 then 3
    else if lead < 0xFC then 4
    else 5
  }

  predicate IsTrail(b: Utf8) { 0x80 <= b <= 0xBF }

  /** isLegalUTF8() on a sequence whose length its first byte has determined. */
  predicate IsLegal(s: seq<Utf8>) {
    && 1 <= |s| <= 4
    && (|s| >= 4 ==> IsTrail(s[3]))
    && (|s| >= 3 ==> IsTrail(s[2]))
    && (|s| >= 2 ==> s[1] <= 0xBF && SecondAllowed(s[0], s[1]))
    && !(0x80 <= s[0] < 0xC2)
    && s[0] <= 0xF4
  }

  /** The bounds on the second byte that depend on the first. */
  predicate SecondAllowed(lead: Utf8, a: Utf8) {
    if lead == 0xE0 then a >= 0xA0
    else if lead == 0xED then 0x80 <= a <= 0x9F
    else if lead == 0xF0 then a >= 0x90
    else if lead == 0xF4 then a <= 0x8F
    else a >= 0x80
  }

  // The bytes are run together six bits apart, marks and all; an offset for
  // the length takes the marks out again.
  function Plus(ch: Utf32, b: Utf8): Utf32 { ch + (b as Utf32) }

  function Shifted(ch: Utf32): Utf32 { ch << 6 }

  function Joined(ch: Utf32, b: Utf8): Utf32 { Plus(Shifted(ch), b) }

  /** offsetsFromUTF8[] */
  function LessOffset(ch: Utf32, extraBytesToRead: nat): Utf32 {
    match extraBytesToRead
    case 0 => ch
    case 1 => ch - 0x3080
    case 2 => ch - 0xE2080
    case _ => ch - 0x03C8_2080
  }

  function Join1(a: Utf8): Utf32 { LessOffset(Plus(0, a), 0) }

  function Join2(a: Utf8, b: Utf8): Utf32 { LessOffset(Joined(Plus(0, a), b), 1) }

  function Join3(a: Utf8, b: Utf8, c: Utf8): Utf32 { LessOffset(Joined(Joined(Plus(0, a), b), c), 2) }

  function Join4(a: Utf8, b: Utf8, c: Utf8, d: Utf8): Utf32 {
    LessOffset(Joined(Joined(Joined(Plus(0, a), b), c), d), 3)
  }

  function Decode8(s: seq<Utf8>): Utf32
    requires 1 <= |s| <= 4
  {
    match |s|
    case 1 => Join1(s[0])
    case 2 => Join2(s[0], s[1])
    case 3 => Join3(s[0], s[1], s[2])
    case _ => Join4(s[0], s[1], s[2], s[3])
  }

  // ---- RFC 3629, section 4 ------------------------------------------------

  /** The grammar's UTF8-char. */
  predicate Utf8Char(s: seq<Utf8>) {
    || (|s| == 1 && s[0] <= 0x7F)
    || (|s| == 2 && 0xC2 <= s[0] <= 0xDF && IsTrail(s[1]))
    || (|s| == 3 && IsTrail(s[2])
        && (|| (s[0] == 0xE0 && 0xA0 <= s[1] <= 0xBF)
            || (0xE1 <= s[0] <= 0xEC && IsTrail(s[1]))
            || (s[0] == 0xED && 0x80 <= s[1] <= 0x9F)
            || (0xEE <= s[0] <= 0xEF && IsTrail(s[1]))))
    || (|s| == 4 && IsTrail(s[2]) && IsTrail(s[3])
        && (|| (s[0] == 0xF0 && 0x90 <= s[1] <= 0xBF)
            || (0xF1 <= s[0] <= 0xF3 && IsTrail(s[1]))
            || (s[0] == 0xF4 && 0x80 <= s[1] <= 0x8F)))
  }

  /** What `isLegalUTF8` lets through beyond the grammar: after F4, the second byte has no lower bound. */
  predicate StrayF4(s: seq<Utf8>) {
    |s| == 4 && s[0] == 0xF4 && s[1] < 0x80 && IsTrail(s[2]) && IsTrail(s[3])
  }

  /** The length of `s` is the one its first byte announces. */
  predicate Measured(s: seq<Utf8>) { |s| >= 1 && |s| == TrailingBytes(s[0]) + 1 }

  /** Legal means: in the grammar, or the F4 exception. */
  lemma LegalExactly(s: seq<Utf8>)
    requires Measured(s)
    ensures IsLegal(s) <==> Utf8Char(s) || StrayF4(s)
    ensures !(Utf8Char(s) && StrayF4(s))
  {
    if |s| >= 2 {
      var allowed := SecondAllowed(s[0], s[1]);
    }
  }

  lemma Split2(ch: Utf32)
    requires 0x80 <= ch < 0x800
    ensures 0xC2 <= First2(ch) <= 0xDF && IsTrail(Trail(ch)) && Join2(First2(ch), Trail(ch)) == ch
  {
  }

  lemma Split3(ch: Utf32)
    requires 0x800 <= ch < 0x1_0000
    ensures Join3(First3(ch), Trail(ch >> 6), Trail(ch)) == ch
  {
  }

  lemma Range3(ch: Utf32)
    requires 0x800 <= ch < 0x1_0000 && !IsSurrogate(ch)
    ensures 0xE0 <= First3(ch) <= 0xEF && IsTrail(Trail(ch >> 6)) && IsTrail(Trail(ch))
    ensures (First3(ch) == 0xE0 ==> 0xA0 <= Trail(ch >> 6)) && (First3(ch) == 0xED ==> Trail(ch >> 6) <= 0x9F)
  {
  }

  lemma Split4(ch: Utf32)
    requires 0x1_0000 <= ch <= 0x10FFFF
    ensures Join4(First4(ch), Trail(ch >> 12), Trail(ch >> 6), Trail(ch)) == ch
  {
  }

  lemma Range4(ch: Utf32)
    requires 0x1_0000 <= ch <= 0x10FFFF
    ensures 0xF0 <= First4(ch) <= 0xF4 && IsTrail(Trail(ch >> 12)) && IsTrail(Trail(ch >> 6)) && IsTrail(Trail(ch))
    ensures (First4(ch) == 0xF0 ==> 0x90 <= Trail(ch >> 12)) && (First4(ch) == 0xF4 ==> Trail(ch >> 12) <= 0x8F)
  {
  }

  lemma Char1(a: Utf8)
    requires a < 0x80
    ensures Utf8Char([a]) && Decode8([a]) == a as Utf32
  {
  }

  lemma Char2(a: Utf8, b: Utf8)
    requires 0xC2 <= a <= 0xDF && IsTrail(b)
    ensures Utf8Char([a, b]) && Decode8([a, b]) == Join2(a, b)
  {
  }

  lemma Char3(a: Utf8, b: Utf8, c: Utf8)
    requires 0xE0 <= a <= 0xEF && (a == 0xE0 ==> 0xA0 <= b) && (a == 0xED ==> b <= 0x9F) && IsTrail(b) && IsTrail(c)
    ensures Utf8Char([a, b, c]) && Decode8([a, b, c]) == Join3(a, b, c)
  {
  }

  lemma Char4(a: Utf8, b: Utf8, c: Utf8, d: Utf8)
    requires 0xF0 <= a <= 0xF4 && (a == 0xF0 ==> 0x90 <= b) && (a == 0xF4 ==> b <= 0x8F)
    requires IsTrail(b) && IsTrail(c) && IsTrail(d)
    ensures Utf8Char([a, b, c, d]) && Decode8([a, b, c, d]) == Join4(a, b, c, d)
  {
  }

  lemma CharMeasured(s: seq<Utf8>)
    requires Utf8Char(s)
    ensures Measured(s)
  {
  }

  lemma EncodedChar(ch: Utf32)
    requires IsScalar(ch)
    ensures Utf8Char(Encode8(ch)) && Decode8(Encode8(ch)) == ch
  {
    if ch < 0x80 {
      Char1((ch & 0xFF) as Utf8);
    } else if ch < 0x800 {
      Split2(ch);
      Char2(First2(ch), Trail(ch));
    } else if ch < 0x1_0000 {
      Split3(ch);
      Range3(ch);
      Char3(First3(ch), Trail(ch >> 6), Trail(ch));
    } else {
      Split4(ch);
      Range4(ch);
      Char4(First4(ch), Trail(ch >> 12), Trail(ch >> 6), Trail(ch));
    }
  }

  /** A scalar value's encoding is in the grammar, its first byte tells its length, and it decodes to the value. */
  lemma EncodeDecodes(ch: Utf32)
    requires IsScalar(ch)
    ensures Utf8Char(Encode8(ch)) && Measured(Encode8(ch)) && IsLegal(Encode8(ch)) && Decode8(Encode8(ch)) == ch
  {
    EncodedChar(ch);
    CharMeasured(Encode8(ch));
    LegalExactly(Encode8(ch));
  }

  /**
   * A legal sequence decodes to a scalar value, and encoding that value gives
   * the sequence back exactly when the sequence is in the grammar.
   */
  lemma DecodeEncodes(s: seq<Utf8>)
    requires Measured(s) && IsLegal(s)
    ensures IsScalar(Decode8(s))
    ensures Encode8(Decode8(s)) == s <==> Utf8Char(s)
  {
    LegalExactly(s);
    var ch := Decode8(s);
    if |s| == 1 {
      Decoded1(s, ch);
    } else if |s| == 2 {
      Decoded2(s, ch);
    } else if |s| == 3 {
      Decoded3(s, ch);
    } else if Utf8Char(s) {
      Decoded4(s, ch);
    } else {
      DecodedStray(s, ch);
    }
  }

  lemma Unsplit2(a: Utf8, b: Utf8)
    requires 0xC2 <= a <= 0xDF && IsTrail(b)
    ensures 0x80 <= Join2(a, b) < 0x800 && First2(Join2(a, b)) == a && Trail(Join2(a, b)) == b
  {
    Unbits2(Join2(a, b), a, b, Plus(0, a), Joined(Plus(0, a), b));
  }

  lemma FirstSum(a: Utf8, x: Utf32)
    requires x == Plus(0, a)
    ensures x == 0 + (a as Utf32)
  {
  }

  lemma NextSum(ch: Utf32, b: Utf8, y: Utf32)
    requires y == Joined(ch, b)
    ensures y == (ch << 6) + (b as Utf32)
  {
  }

  lemma LastSum3(z: Utf32, ch: Utf32)
    requires ch == LessOffset(z, 2)
    ensures ch == z - 0xE2080
  {
  }

  lemma LastSum4(w: Utf32, ch: Utf32)
    requires ch == LessOffset(w, 3)
    ensures ch == w - 0x03C8_2080
  {
  }

  lemma Unsums3(ch: Utf32, a: Utf8, b: Utf8, c: Utf8, x: Utf32, y: Utf32, z: Utf32)
    requires 0xE0 <= a <= 0xEF && (a == 0xE0 ==> 0xA0 <= b) && (a == 0xED ==> b <= 0x9F) && IsTrail(b) && IsTrail(c)
    requires x == 0 + (a as Utf32) && y == (x << 6) + (b as Utf32) && z == (y << 6) + (c as Utf32) && ch == z - 0xE2080
    ensures 0x800 <= ch < 0x1_0000 && !IsSurrogate(ch) && First3(ch) == a && Trail(ch >> 6) == b && Trail(ch) == c
  {
    Unbits3(ch, a, b, c, x, y, z);
  }

  lemma Unsums4(ch: Utf32, a: Utf8, b: Utf8, c: Utf8, d: Utf8, x: Utf32, y: Utf32, z: Utf32, w: Utf32)
    requires 0xF0 <= a <= 0xF4 && (a == 0xF0 ==> 0x90 <= b) && (a == 0xF4 ==> b <= 0x8F)
    requires IsTrail(b) && IsTrail(c) && IsTrail(d)
    requires x == 0 + (a as Utf32) && y == (x << 6) + (b as Utf32) && z == (y << 6) + (c as Utf32)
    requires w == (z << 6) + (d as Utf32) && ch == w - 0x03C8_2080
    ensures 0x1_0000 <= ch <= 0x10FFFF
    ensures First4(ch) == a && Trail(ch >> 12) == b && Trail(ch >> 6) == c && Trail(ch) == d
  {
    Unbits4(ch, a, b, c, d, x, y, z, w);
  }

  lemma UnsumsStray(ch: Utf32, b: Utf8, c: Utf8, d: Utf8, x: Utf32, y: Utf32, z: Utf32, w: Utf32)
    requires b < 0x80 && IsTrail(c) && IsTrail(d)
    requires x == 0 + (0xF4 as Utf8) as Utf32 && y == (x << 6) + (b as Utf32) && z == (y << 6) + (c as Utf32)
    requires w == (z << 6) + (d as Utf32) && ch == w - 0x03C8_2080
    ensures 0x1_0000 <= ch <= 0x10FFFF && First4(ch) != 0xF4
  {
    UnbitsStray(ch, b, c, d, x, y, z, w);
  }

  lemma Unsplit3(a: Utf8, b: Utf8, c: Utf8, x: Utf32, y: Utf32, z: Utf32, ch: Utf32)
    requires 0xE0 <= a <= 0xEF && (a == 0xE0 ==> 0xA0 <= b) && (a == 0xED ==> b <= 0x9F) && IsTrail(b) && IsTrail(c)
    requires x == Plus(0, a) && y == Joined(x, b) && z == Joined(y, c) && ch == LessOffset(z, 2)
    ensures 0x800 <= ch < 0x1_0000 && !IsSurrogate(ch) && First3(ch) == a && Trail(ch >> 6) == b && Trail(ch) == c
  {
    FirstSum(a, x);
    NextSum(x, b, y);
    NextSum(y, c, z);
    LastSum3(z, ch);
    Unsums3(ch, a, b, c, x, y, z);
  }

  lemma Unsplit4(a: Utf8, b: Utf8, c: Utf8, d: Utf8, x: Utf32, y: Utf32, z: Utf32, w: Utf32, ch: Utf32)
    requires 0xF0 <= a <= 0xF4 && (a == 0xF0 ==> 0x90 <= b) && (a == 0xF4 ==> b <= 0x8F)
    requires IsTrail(b) && IsTrail(c) && IsTrail(d)
    requires x == Plus(0, a) && y == Joined(x, b) && z == Joined(y, c) && w == Joined(z, d) && ch == LessOffset(w, 3)
    ensures 0x1_0000 <= ch <= 0x10FFFF
    ensures First4(ch) == a && Trail(ch >> 12) == b && Trail(ch >> 6) == c && Trail(ch) == d
  {
    FirstSum(a, x);
    NextSum(x, b, y);
    NextSum(y, c, z);
    NextSum(z, d, w);
    LastSum4(w, ch);
    Unsums4(ch, a, b, c, d, x, y, z, w);
  }

  lemma UnsplitStray(b: Utf8, c: Utf8, d: Utf8, x: Utf32, y: Utf32, z: Utf32, w: Utf32, ch: Utf32)
    requires b < 0x80 && IsTrail(c) && IsTrail(d)
    requires x == Plus(0, 0xF4) && y == Joined(x, b) && z == Joined(y, c) && w == Joined(z, d) && ch == LessOffset(w, 3)
    ensures 0x1_0000 <= ch <= 0x10FFFF && First4(ch) != 0xF4
  {
    FirstSum(0xF4, x);
    NextSum(x, b, y);
    NextSum(y, c, z);
    NextSum(z, d, w);
    LastSum4(w, ch);
    UnsumsStray(ch, b, c, d, x, y, z, w);
  }

  lemma Decoded1(s: seq<Utf8>, ch: Utf32)
    requires |s| == 1 && Utf8Char(s) && ch == Decode8(s)
    ensures IsScalar(ch) && Encode8(ch) == s
  {
    assert s == [s[0]];
  }

  lemma Decoded2(s: seq<Utf8>, ch: Utf32)
    requires |s| == 2 && Utf8Char(s) && ch == Decode8(s)
    ensures IsScalar(ch) && Encode8(ch) == s
  {
    Unsplit2(s[0], s[1]);
    assert s == [s[0], s[1]];
  }

  lemma Assemble3(ch: Utf32, a: Utf8, b: Utf8, c: Utf8)
    requires 0x800 <= ch < 0x1_0000 && First3(ch) == a && Trail(ch >> 6) == b && Trail(ch) == c
    ensures Encode8(ch) == [a, b, c]
  {
  }

  lemma Assemble4(ch: Utf32, a: Utf8, b: Utf8, c: Utf8, d: Utf8)
    requires 0x1_0000 <= ch && First4(ch) == a && Trail(ch >> 12) == b && Trail(ch >> 6) == c && Trail(ch) == d
    ensures Encode8(ch) == [a, b, c, d]
  {
  }

  lemma Listed3(s: seq<Utf8>)
    requires |s| == 3
    ensures s == [s[0], s[1], s[2]]
  {
  }

  lemma Listed4(s: seq<Utf8>)
    requires |s| == 4
    ensures s == [s[0], s[1], s[2], s[3]]
  {
  }

  lemma Decoded3(s: seq<Utf8>, ch: Utf32)
    requires |s| == 3 && Utf8Char(s) && ch == Decode8(s)
    ensures IsScalar(ch) && Encode8(ch) == s
  {
    var a, b, c := s[0], s[1], s[2];
    Listed3(s);
    var x := Plus(0, a);
    var y := Joined(x, b);
    Unsplit3(a, b, c, x, y, Joined(y, c), ch);
    Assemble3(ch, a, b, c);
  }

  lemma Decoded4(s: seq<Utf8>, ch: Utf32)
    requires |s| == 4 && Utf8Char(s) && ch == Decode8(s)
    ensures IsScalar(ch) && Encode8(ch) == s
  {
    var a, b, c, d := s[0], s[1], s[2], s[3];
    Listed4(s);
    var x := Plus(0, a);
    var y := Joined(x, b);
    var z := Joined(y, c);
    Unsplit4(a, b, c, d, x, y, z, Joined(z, d), ch);
    Assemble4(ch, a, b, c, d);
  }

  lemma DecodedStray(s: seq<Utf8>, ch: Utf32)
    requires StrayF4(s) && ch == Decode8(s)
    ensures IsScalar(ch) && Encode8(ch) != s
  {
    var x := Plus(0, 0xF4);
    var y := Joined(x, s[1]);
    var z := Joined(y, s[2]);
    UnsplitStray(s[1], s[2], s[3], x, y, z, Joined(z, s[3]), ch);
    assert Encode8(ch)[0] == First4(ch);
  }

  /** The exception makes decoding two-to-one: F4 00 80 80 reads as U+80000, like F2 80 80 80. */
  lemma DecodeNotInjective()
    ensures var s, t: seq<Utf8> := [0xF4, 0x00, 0x80, 0x80], [0xF2, 0x80, 0x80, 0x80];
            IsLegal(s) && IsLegal(t) && s != t && Decode8(s) == Decode8(t) == 0x80000
  {
    var s, t: seq<Utf8> := [0xF4, 0x00, 0x80, 0x80], [0xF2, 0x80, 0x80, 0x80];
    assert s[0] != t[0];
  }

  // ---- UTF-16 -------------------------------------------------------------

  predicate IsHigh(u: Utf16) { 0xD800 <= u <= 0xDBFF }

  predicate IsLow(u: Utf16) { 0xDC00 <= u <= 0xDFFF }

  function Widened(u: Utf16): Utf32 { u as Utf32 }

  function Narrow(ch: Utf32): Utf16 { (ch & 0xFFFF) as Utf16 }

  function HighHalf(ch: Utf32): Utf16 { ((((ch - 0x1_0000) >> 10) + 0xD800) & 0xFFFF) as Utf16 }

  function LowHalf(ch: Utf32): Utf16 { ((((ch - 0x1_0000) & 0x3FF) + 0xDC00) & 0xFFFF) as Utf16 }

  function Encode16(ch: Utf32): seq<Utf16> {
    if ch <= 0xFFFF then [Narrow(ch)] else [HighHalf(ch), LowHalf(ch)]
  }

  /** A surrogate pair's character. */
  function Pair(high: Utf16, low: Utf16): Utf32 {
    (((high as Utf32) - 0xD800) << 10) + ((low as Utf32) - 0xDC00) + 0x1_0000
  }

  lemma PairSplits(high: Utf16, low: Utf16, ch: Utf32)
    requires IsHigh(high) && IsLow(low) && ch == Pair(high, low)
    ensures 0xFFFF < ch <= 0x10FFFF && HighHalf(ch) == high && LowHalf(ch) == low
  {
    JoinPair(ch, high, low);
  }

  lemma SplitPairs(ch: Utf32)
    requires 0xFFFF < ch <= 0x10FFFF
    ensures IsHigh(HighHalf(ch)) && IsLow(LowHalf(ch)) && Pair(HighHalf(ch), LowHalf(ch)) == ch
  {
    SplitPair(ch, HighHalf(ch), LowHalf(ch));
  }

  lemma UnitWidens(u: Utf16)
    ensures Widened(u) <= 0xFFFF && Narrow(Widened(u)) == u
    ensures IsSurrogate(Widened(u)) <==> IsHigh(u) || IsLow(u)
  {
  }

  lemma BmpNarrows(ch: Utf32)
    requires ch <= 0xFFFF
    ensures Widened(Narrow(ch)) == ch
    ensures IsSurrogate(ch) <==> IsHigh(Narrow(ch)) || IsLow(Narrow(ch))
  {
  }
}
