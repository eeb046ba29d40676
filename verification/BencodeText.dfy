/**
 * The scalar forms of bencoded text (BEP 3, section "bencoding"): integers
 * between `i` and `e`, and strings after their length and a colon.
 */
module BencodeText {

  /** An unsigned byte. */
  type Octet = b: int | 0 <= b < 256

  type Text = seq<Octet>

  const NUL: Octet := 0
  const MINUS: Octet := 45
  const PLUS: Octet := 43
  const ZERO: Octet := 48
  const COLON: Octet := 58
  const LOWER_D: Octet := 100
  const LOWER_E: Octet := 101
  const LOWER_I: Octet := 105
  const LOWER_L: Octet := 108

  const INT64_MIN: int := -0x8000_0000_0000_0000
  const INT64_MAX: int := 0x7FFF_FFFF_FFFF_FFFF
  const ULONG_MAX: int := 0xFFFF_FFFF_FFFF_FFFF

  type Int64 = x: int | -0x8000_0000_0000_0000 <= x <= 0x7FFF_FFFF_FFFF_FFFF

  datatype Option<T> = None | Some(value: T)

  predicate IsDigit(c: Octet) { ZERO <= c <= ZERO + 9 }

  predicate IsSpace(c: Octet) { c == 32 || 9 <= c <= 13 }

  predicate AllDigits(s: Text) { forall k :: 0 <= k < |s| ==> IsDigit(s[k]) }

  /** memchr(): the first place of `c` from `from` on, or the end. */
  function IndexOf(buf: Text, c: Octet, from: nat): (r: nat)
    requires from <= |buf|
    ensures from <= r <= |buf|
    ensures r < |buf| ==> buf[r] == c
    ensures forall k :: from <= k < r ==> buf[k] != c
    decreases |buf| - from
  {
    if from == |buf| || buf[from] == c then from else IndexOf(buf, c, from + 1)
  }

  // ---- decimal numbers ----------------------------------------------------

  /** The decimal digits printf() writes for `%lu`. */
  function Digits(n: nat): Text {
    if n < 10 then [ZERO + n] else Digits(n / 10) + [ZERO + n % 10]
  }

  /** ... and for a signed number. */
  function Signed(i: int): Text {
    if i < 0 then [MINUS] + Digits(-i) else Digits(i)
  }

  function Num(s: Text): nat
    requires AllDigits(s)
  {
    if s == [] then 0 else Num(s[..|s| - 1]) * 10 + (s[|s| - 1] - ZERO)
  }

  lemma {:induction false} DigitsParse(n: nat)
    ensures Digits(n) != [] && AllDigits(Digits(n))
    ensures Num(Digits(n)) == n
    ensures n > 0 ==> Digits(n)[0] != ZERO
  {
    if n >= 10 {
      DigitsParse(n / 10);
      assert Digits(n)[..|Digits(n)| - 1] == Digits(n / 10);
    } else {
      assert Digits(n)[..0] == [];
    }
  }

  function SkipSpace(s: Text): (r: Text)
    ensures |r| <= |s|
    ensures s == [] || !IsSpace(s[0]) ==> r == s
  {
    if s != [] && IsSpace(s[0]) then SkipSpace(s[1..]) else s
  }

  /** strtoll() over the whole of `s`: the value, or None if `s` is not one number in range. */
  function Strtoll(s: Text): Option<Int64> {
    var t := SkipSpace(s);
    var negative := t != [] && t[0] == MINUS;
    var digits := if t != [] && (t[0] == MINUS || t[0] == PLUS) then t[1..] else t;
    if digits == [] || !AllDigits(digits) then None
    else
      var n: int := Num(digits);
      var value := if negative then -n else n;
      if INT64_MIN <= value <= INT64_MAX then Some(value) else None
  }

  lemma DigitsPlain(n: nat)
    ensures forall k :: 0 <= k < |Digits(n)| ==> IsDigit(Digits(n)[k])
    ensures Digits(n) != [] && SkipSpace(Digits(n)) == Digits(n)
  {
    DigitsParse(n);
  }

  lemma NaturalParses(n: nat)
    requires n <= INT64_MAX
    ensures Strtoll(Digits(n)) == Some(n)
  {
    DigitsParse(n);
    DigitsPlain(n);
  }

  lemma NegativeParses(n: int)
    requires 0 < n <= -INT64_MIN
    ensures Strtoll([MINUS] + Digits(n)) == Some(-n)
  {
    DigitsParse(n);
    assert ([MINUS] + Digits(n))[1..] == Digits(n);
  }

  lemma SignedParses(i: Int64)
    ensures Strtoll(Signed(i)) == Some(i)
    ensures Signed(i) != [] && (i != 0 ==> Signed(i)[0] != ZERO)
    ensures forall k :: 0 <= k < |Signed(i)| ==> Signed(i)[k] != LOWER_E
  {
    var n: int := i;
    DigitsParse(if n < 0 then -n else n);
    if n < 0 {
      NegativeParses(-n);
    } else {
      NaturalParses(n);
    }
  }

  // ---- the two scalar parsers ---------------------------------------------

  /**
   * The text between `i` and the first `e`, as a number. Text with no digits
   * at all is a number only if it is empty. A nonzero number must not start
   * with the digit 0.
   */
  function IntBody(body: Text): Option<Int64> {
    if body == [] then Some(0)
    else
      match Strtoll(body)
      case None => None
      case Some(value) => if value != 0 && body[0] == ZERO then None else Some(value)
  }

  function ParseInt(buf: Text, pos: nat): (r: Option<(Int64, nat)>)
    requires pos < |buf|
    ensures r.Some? ==> pos < r.value.1 <= |buf|
  {
    if buf[pos] != LOWER_I then None
    else
      var end := IndexOf(buf, LOWER_E, pos + 1);
      if end == |buf| then None
      else
        match IntBody(buf[pos + 1..end])
        case None => None
        case Some(value) => Some((value, end + 1))
  }

  /** strtoul() over the whole of `s`, which starts with a digit. */
  function Strtoul(s: Text): Option<nat> {
    if s == [] || !AllDigits(s) || Num(s) > ULONG_MAX then None else Some(Num(s))
  }

  /** Where a string's bytes start and how many there are, and where its text ends. */
  function ParseStr(buf: Text, pos: nat): (r: Option<(nat, nat)>)
    requires pos < |buf|
    ensures r.Some? ==> pos < r.value.0 && r.value.0 + r.value.1 <= |buf|
  {
    if !IsDigit(buf[pos]) then None
    else
      var colon := IndexOf(buf, COLON, pos);
      if colon == |buf| then None
      else
        match Strtoul(buf[pos..colon])
        case None => None
        case Some(len) => if colon + 1 + len > |buf| then None else Some((colon + 1, len))
  }

  /** A size_t handed over as an int keeps its low 32 bits, signed. */
  function ToInt32(n: nat): int {
    var low := n % 0x1_0000_0000;
    if low >= 0x8000_0000 then low - 0x1_0000_0000 else low
  }

  /**
   * tr_bencInitStr(): the length arrives as an int; a negative one means "up
   * to the first NUL".
   */
  function InitStr(buf: Text, start: nat, len: nat): Text
    requires start + len <= |buf|
  {
    var n := ToInt32(len);
    if n < 0 then buf[start..IndexOf(buf, NUL, start)] else buf[start..start + n]
  }

  predicate Infix(buf: Text, pos: nat, t: Text) {
    pos + |t| <= |buf| && buf[pos..pos + |t|] == t
  }

  lemma IndexOfIs(buf: Text, c: Octet, from: nat, k: nat)
    requires from <= k < |buf| && buf[k] == c
    requires forall j :: from <= j < k ==> buf[j] != c
    ensures IndexOf(buf, c, from) == k
  {
  }

  lemma InfixParts(buf: Text, pos: nat, a: Text, b: Text)
    requires Infix(buf, pos, a + b)
    ensures Infix(buf, pos, a) && Infix(buf, pos + |a|, b)
  {
    assert (a + b)[..|a|] == a && (a + b)[|a|..] == b;
    assert buf[pos..pos + |a| + |b|][..|a|] == buf[pos..pos + |a|];
    assert buf[pos..pos + |a| + |b|][|a|..] == buf[pos + |a|..pos + |a| + |b|];
  }

  /** The first `c` after text without `c` is the one that follows the text. */
  lemma IndexAfter(buf: Text, pos: nat, t: Text, c: Octet)
    requires Infix(buf, pos, t) && pos + |t| < |buf| && buf[pos + |t|] == c
    requires forall k :: 0 <= k < |t| ==> t[k] != c
    ensures IndexOf(buf, c, pos) == pos + |t|
  {
    forall j | pos <= j < pos + |t|
      ensures buf[j] != c
    {
      assert buf[j] == buf[pos..pos + |t|][j - pos];
    }
    IndexOfIs(buf, c, pos, pos + |t|);
  }

  lemma ParseIntAt(buf: Text, pos: nat, body: Text, i: Int64)
    requires pos < |buf| && buf[pos] == LOWER_I && Infix(buf, pos + 1, body) && IntBody(body) == Some(i)
    requires pos + 1 + |body| < |buf| && IndexOf(buf, LOWER_E, pos + 1) == pos + 1 + |body|
    ensures ParseInt(buf, pos) == Some((i, pos + 2 + |body|))
  {
    assert buf[pos + 1..pos + 1 + |body|] == body;
  }

  lemma Framed(buf: Text, pos: nat, a: Octet, body: Text, z: Octet)
    requires Infix(buf, pos, [a] + body + [z])
    ensures pos + 1 + |body| < |buf| && buf[pos] == a && buf[pos + 1 + |body|] == z
    ensures Infix(buf, pos + 1, body)
  {
    InfixParts(buf, pos, [a] + body, [z]);
    InfixParts(buf, pos, [a], body);
    InfixAt(buf, pos, a);
    InfixAt(buf, pos + 1 + |body|, z);
  }

  lemma SignedBody(i: Int64)
    ensures IntBody(Signed(i)) == Some(i)
    ensures forall k :: 0 <= k < |Signed(i)| ==> Signed(i)[k] != LOWER_E
  {
    SignedParses(i);
  }

  lemma ParsePrintedInt(buf: Text, pos: nat, i: Int64)
    requires Infix(buf, pos, [LOWER_I] + Signed(i) + [LOWER_E])
    ensures pos < |buf| && buf[pos] == LOWER_I
    ensures ParseInt(buf, pos) == Some((i, pos + |Signed(i)| + 2))
  {
    Framed(buf, pos, LOWER_I, Signed(i), LOWER_E);
    SignedBody(i);
    IndexAfter(buf, pos + 1, Signed(i), LOWER_E);
    ParseIntAt(buf, pos, Signed(i), i);
  }

  lemma InfixAt(buf: Text, pos: nat, c: Octet)
    requires Infix(buf, pos, [c])
    ensures pos < |buf| && buf[pos] == c
  {
    assert buf[pos] == buf[pos..pos + 1][0];
  }

  lemma ParseStrAt(buf: Text, pos: nat, d: Text, len: nat)
    requires Infix(buf, pos, d) && d != [] && IsDigit(d[0]) && Strtoul(d) == Some(len)
    requires pos + |d| < |buf| && IndexOf(buf, COLON, pos) == pos + |d|
    requires pos + |d| + 1 + len <= |buf|
    ensures IsDigit(buf[pos]) && ParseStr(buf, pos) == Some((pos + |d| + 1, len))
  {
    assert buf[pos..pos + |d|] == d;
    assert buf[pos] == d[0];
  }

  lemma DigitsLength(n: nat)
    requires n <= ULONG_MAX
    ensures Strtoul(Digits(n)) == Some(n) && Digits(n) != [] && IsDigit(Digits(n)[0])
    ensures forall k :: 0 <= k < |Digits(n)| ==> Digits(n)[k] != COLON
  {
    DigitsParse(n);
  }

  lemma ParsePrintedStr(buf: Text, pos: nat, s: Text)
    requires Infix(buf, pos, Digits(|s|) + [COLON] + s) && |s| < 0x8000_0000
    ensures pos < |buf| && IsDigit(buf[pos])
    ensures ParseStr(buf, pos) == Some((pos + |Digits(|s|)| + 1, |s|))
    ensures InitStr(buf, pos + |Digits(|s|)| + 1, |s|) == s
  {
    var d := Digits(|s|);
    InfixParts(buf, pos, d + [COLON], s);
    InfixParts(buf, pos, d, [COLON]);
    InfixAt(buf, pos + |d|, COLON);
    DigitsLength(|s|);
    IndexAfter(buf, pos, d, COLON);
    ParseStrAt(buf, pos, d, |s|);
    ToInt32Keeps(|s|);
  }

  lemma ToInt32Keeps(n: nat)
    requires n < 0x8000_0000
    ensures ToInt32(n) == n
  {
  }
}
