/** The bit identities behind the encodings, free of any sequence or table. */
module UtfBits {
  lemma Unbits2(ch: bv32, a: bv8, b: bv8, x: bv32, y: bv32)
    requires 0xC2 <= a <= 0xDF && 0x80 <= b <= 0xBF
    requires x == 0 + (a as bv32) && y == (x << 6) + (b as bv32) && ch == y - 0x3080
    ensures 0x80 <= ch < 0x800
    ensures a == (((ch >> 6) | 0xC0) & 0xFF) as bv8 && b == ((ch | 0x80) & 0xBF) as bv8
  {
  }

  lemma Unbits3(ch: bv32, a: bv8, b: bv8, c: bv8, x: bv32, y: bv32, z: bv32)
    requires 0xE0 <= a <= 0xEF && 0x80 <= b <= 0xBF && 0x80 <= c <= 0xBF
    requires (a == 0xE0 ==> 0xA0 <= b) && (a == 0xED ==> b <= 0x9F)
    requires x == 0 + (a as bv32) && y == (x << 6) + (b as bv32) && z == (y << 6) + (c as bv32) && ch == z - 0xE2080
    ensures 0x800 <= ch < 0x1_0000 && !(0xD800 <= ch <= 0xDFFF)
    ensures a == (((ch >> 12) | 0xE0) & 0xFF) as bv8 && b == (((ch >> 6) | 0x80) & 0xBF) as bv8
    ensures c == ((ch | 0x80) & 0xBF) as bv8
  {
  }

  lemma Unbits4(ch: bv32, a: bv8, b: bv8, c: bv8, d: bv8, x: bv32, y: bv32, z: bv32, w: bv32)
    requires 0xF0 <= a <= 0xF4 && 0x80 <= b <= 0xBF && 0x80 <= c <= 0xBF && 0x80 <= d <= 0xBF
    requires (a == 0xF0 ==> 0x90 <= b) && (a == 0xF4 ==> b <= 0x8F)
    requires x == 0 + (a as bv32) && y == (x << 6) + (b as bv32) && z == (y << 6) + (c as bv32)
    requires w == (z << 6) + (d as bv32) && ch == w - 0x03C8_2080
    ensures 0x1_0000 <= ch <= 0x10FFFF
    ensures a == (((ch >> 18) | 0xF0) & 0xFF) as bv8 && b == (((ch >> 12) | 0x80) & 0xBF) as bv8
    ensures c == (((ch >> 6) | 0x80) & 0xBF) as bv8 && d == ((ch | 0x80) & 0xBF) as bv8
  {
  }

  lemma UnbitsStray(ch: bv32, b: bv8, c: bv8, d: bv8, x: bv32, y: bv32, z: bv32, w: bv32)
    requires b < 0x80 && 0x80 <= c <= 0xBF && 0x80 <= d <= 0xBF
    requires x == 0 + 0xF4 && y == (x << 6) + (b as bv32) && z == (y << 6) + (c as bv32)
    requires w == (z << 6) + (d as bv32) && ch == w - 0x03C8_2080
    ensures 0x1_0000 <= ch <= 0x10FFFF && 0xF4 != (((ch >> 18) | 0xF0) & 0xFF) as bv8
  {
  }

  lemma SplitPair(ch: bv32, h: bv16, l: bv16)
    requires 0xFFFF < ch <= 0x10FFFF
    requires h == ((((ch - 0x1_0000) >> 10) + 0xD800) & 0xFFFF) as bv16
    requires l == ((((ch - 0x1_0000) & 0x3FF) + 0xDC00) & 0xFFFF) as bv16
    ensures 0xD800 <= h <= 0xDBFF && 0xDC00 <= l <= 0xDFFF
    ensures (((h as bv32) - 0xD800) << 10) + ((l as bv32) - 0xDC00) + 0x1_0000 == ch
  {
  }

  lemma JoinPair(ch: bv32, h: bv16, l: bv16)
    requires 0xD800 <= h <= 0xDBFF && 0xDC00 <= l <= 0xDFFF
    requires ch == (((h as bv32) - 0xD800) << 10) + ((l as bv32) - 0xDC00) + 0x1_0000
    ensures 0xFFFF < ch <= 0x10FFFF
    ensures h == ((((ch - 0x1_0000) >> 10) + 0xD800) & 0xFFFF) as bv16
    ensures l == ((((ch - 0x1_0000) & 0x3FF) + 0xDC00) & 0xFFFF) as bv16
  {
  }
}
