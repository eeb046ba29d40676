/** Whole texts: round trips, and conversions that agree with going through UTF-32. */
module UtfStreams {
  import opened UtfChars
  import opened UtfRun
  import opened UtfSteps
  import opened UtfCompose

  ghost predicate Scalars(cs: seq<Utf32>) { All(cs, IsScalar) }

  function EncodeAll(cs: seq<Utf32>): seq<Utf8> { Each(cs, Encode8) }

  /** The grammar's UTF8-octets. */
  predicate Utf8Text(s: seq<Utf8>)
    decreases |s|
  {
    s == []
    || (var n := TrailingBytes(s[0]) + 1;
        n <= |s| && Utf8Char(s[..n]) && Utf8Text(s[n..]))
  }

  // ---- UTF-32 to UTF-8 and back -------------------------------------------

  lemma Encodes8(strict: bool)
    ensures EncodesBy(To8From32(strict), Encode8, IsScalar)
  {
  }

  lemma ReadEncoded(ch: Utf32, rest: seq<Utf8>)
    requires IsScalar(ch)
    ensures Encode8(ch) + rest != [] && Read8(Encode8(ch) + rest) == Char(ch, |Encode8(ch)|)
  {
    EncodeDecodes(ch);
    assert (Encode8(ch) + rest)[..|Encode8(ch)|] == Encode8(ch);
  }

  lemma Decodes8(strict: bool)
    ensures DecodesBy(To32From8(strict), Encode8, IsScalar)
  {
    var f: Utf32 -> seq<Utf8>, ok: Utf32 -> bool := Encode8, IsScalar;
    forall ch: Utf32, rest: seq<Utf8>, room: nat | ok(ch) && room > 0
      ensures To32From8(strict)(f(ch) + rest, room) == Emit(|f(ch)|, [ch], false)
    {
      ReadEncoded(ch, rest);
    }
  }

  /**
   * Any scalar values, through UTF-8 and back, in either mode, with room
   * enough: both conversions take everything and report no error, and the
   * values come back.
   */
  lemma RoundTrip32(cs: seq<Utf32>, room8: nat, room32: nat, strict: bool) returns (bytes: seq<Utf8>)
    requires Scalars(cs) && room8 >= 4 * |cs| && room32 >= |cs|
    ensures Sound(To8From32(strict)) && Sound(To32From8(strict))
    ensures Run(cs, room8, To8From32(strict)) == Outcome(ConversionOK, false, |cs|, bytes)
    ensures Run(bytes, room32, To32From8(strict)) == Outcome(ConversionOK, false, |bytes|, cs)
  {
    bytes := EncodeAll(cs);
    To8From32Ok(strict);
    To32From8Ok(strict);
    Encodes8(strict);
    Decodes8(strict);
    EachLength(cs, Encode8, 4);
    TimesIs(4, |cs|);
    EncodeRun(cs, room8, To8From32(strict), Encode8, IsScalar);
    DecodeRun(cs, room32, To32From8(strict), Encode8, IsScalar);
  }

  // ---- UTF-8 to UTF-32 and back -------------------------------------------

  lemma EncodedFirst(ch: Utf32, rest: seq<Utf8>)
    requires IsScalar(ch) && Utf8Text(rest)
    ensures Utf8Text(Encode8(ch) + rest)
  {
    EncodeDecodes(ch);
    var n := |Encode8(ch)|;
    assert (Encode8(ch) + rest)[..n] == Encode8(ch) && (Encode8(ch) + rest)[n..] == rest;
  }

  lemma {:induction false} EncodedText(cs: seq<Utf32>)
    requires Scalars(cs)
    ensures Utf8Text(EncodeAll(cs))
  {
    if cs != [] {
      EncodedText(cs[1..]);
      EncodedFirst(cs[0], EncodeAll(cs[1..]));
    }
  }

  /** What strict or lenient decoding of one legal sequence does. */
  lemma ScalarStep(s: seq<Utf8>, room: nat, strict: bool)
    requires s != [] && Read8(s).Char? && room > 0
    ensures IsScalar(Read8(s).ch)
    ensures To32From8(strict)(s, room) == Emit(Read8(s).used, [Read8(s).ch], false)
    ensures Encode8(Read8(s).ch) == s[..Read8(s).used] <==> Utf8Char(s[..Read8(s).used])
  {
    DecodeEncodes(s[..Read8(s).used]);
  }

  lemma ScalarRun(s: seq<Utf8>, room: nat, strict: bool, c: Read, left: seq<Utf8>, rest: Outcome<Utf32>)
    requires Sound(To32From8(strict)) && s != [] && c == Read8(s) && c.Char? && room > 0
    requires left == s[c.used..] && rest == Run(left, room - 1, To32From8(strict))
    ensures IsScalar(c.ch) && Run(s, room, To32From8(strict)) == Prepend(Emit(c.used, [c.ch], false), rest)
  {
    ScalarStep(s, room, strict);
    Taken(s, room, To32From8(strict), Emit(c.used, [c.ch], false), left, rest);
  }

  lemma StopRun(s: seq<Utf8>, room: nat, strict: bool)
    requires Sound(To32From8(strict)) && s != [] && (Read8(s).Bad? || room == 0)
    ensures var r := Run(s, room, To32From8(strict));
            r.stop != ConversionOK && !r.flagged && r.used == 0 && r.out == []
  {
  }

  ghost predicate Clean(r: Outcome<Utf32>) { Scalars(r.out) && !r.flagged }

  lemma {:induction false} DecodedScalars(s: seq<Utf8>, room: nat, strict: bool)
    requires Sound(To32From8(strict))
    ensures Clean(Run(s, room, To32From8(strict)))
    decreases |s|
  {
    if s != [] && Read8(s).Char? && room > 0 {
      var left := s[Read8(s).used..];
      DecodedScalars(left, room - 1, strict);
      CleanOn(s, room, strict, Read8(s), left, Run(left, room - 1, To32From8(strict)));
    } else {
      CleanHere(s, room, strict);
    }
  }

  lemma CleanOn(s: seq<Utf8>, room: nat, strict: bool, c: Read, left: seq<Utf8>, rest: Outcome<Utf32>)
    requires Sound(To32From8(strict)) && s != [] && c == Read8(s) && c.Char? && room > 0
    requires left == s[c.used..] && rest == Run(left, room - 1, To32From8(strict)) && Clean(rest)
    ensures Clean(Run(s, room, To32From8(strict)))
  {
    ScalarRun(s, room, strict, c, left, rest);
  }

  lemma CleanHere(s: seq<Utf8>, room: nat, strict: bool)
    requires Sound(To32From8(strict)) && (s != [] && Read8(s).Char? ==> room == 0)
    ensures Clean(Run(s, room, To32From8(strict)))
  {
    if s != [] {
      StopRun(s, room, strict);
    }
  }

  lemma TextStep(s: seq<Utf8>)
    requires Utf8Text(s) && s != []
    ensures Read8(s).Char? && Utf8Char(s[..Read8(s).used]) && Utf8Text(s[Read8(s).used..])
  {
    LegalExactly(s[..TrailingBytes(s[0]) + 1]);
  }

  lemma EncodeFirst(ch: Utf32, rest: seq<Utf32>)
    ensures EncodeAll([ch] + rest) == Encode8(ch) + EncodeAll(rest)
  {
    assert ([ch] + rest)[1..] == rest;
  }

  ghost predicate Reencodes(r: Outcome<Utf32>, s: seq<Utf8>) {
    r.stop == ConversionOK && EncodeAll(r.out) == s
  }

  lemma {:induction false} TextDecodes(s: seq<Utf8>, room: nat, strict: bool)
    requires Sound(To32From8(strict)) && Utf8Text(s) && room >= |s|
    ensures Reencodes(Run(s, room, To32From8(strict)), s)
    decreases |s|
  {
    if s == [] {
      TextEnds(room, strict);
    } else {
      TextStep(s);
      var left := s[Read8(s).used..];
      TextDecodes(left, room - 1, strict);
      TextGoesOn(s, room, strict, Read8(s), left, Run(left, room - 1, To32From8(strict)));
    }
  }

  lemma TextEnds(room: nat, strict: bool)
    requires Sound(To32From8(strict))
    ensures Reencodes(Run([], room, To32From8(strict)), [])
  {
  }

  lemma TextGoesOn(s: seq<Utf8>, room: nat, strict: bool, c: Read, left: seq<Utf8>, rest: Outcome<Utf32>)
    requires Sound(To32From8(strict)) && s != [] && c == Read8(s) && c.Char? && Utf8Char(s[..c.used]) && room > 0
    requires left == s[c.used..] && rest == Run(left, room - 1, To32From8(strict)) && Reencodes(rest, left)
    ensures Reencodes(Run(s, room, To32From8(strict)), s)
  {
    DecodeEncodes(s[..c.used]);
    ScalarRun(s, room, strict, c, left, rest);
    TextGlue(s, c.ch, c.used, rest.out);
  }

  lemma TextGlue(s: seq<Utf8>, ch: Utf32, used: nat, rest: seq<Utf32>)
    requires used <= |s| && Encode8(ch) == s[..used] && EncodeAll(rest) == s[used..]
    ensures EncodeAll([ch] + rest) == s
  {
    EncodeFirst(ch, rest);
    assert s == s[..used] + s[used..];
  }

  /**
   * Bytes that decode without error come back from encoding exactly when they
   * are text of the grammar; what fails is the sequences after F4.
   */
  lemma RoundTrip8(s: seq<Utf8>, room: nat, strict: bool)
    requires room >= |s|
    ensures Sound(To32From8(strict))
    ensures var r := Run(s, room, To32From8(strict));
            Scalars(r.out) && (r.Result() == ConversionOK && EncodeAll(r.out) == s <==> Utf8Text(s))
  {
    To32From8Ok(strict);
    DecodedScalars(s, room, strict);
    var r := Run(s, room, To32From8(strict));
    EncodedText(r.out);
    if Utf8Text(s) {
      TextDecodes(s, room, strict);
    }
  }

  // ---- UTF-32 to UTF-16 and back ------------------------------------------

  lemma Encodes16(strict: bool)
    ensures EncodesBy(To16From32(strict), Encode16, IsScalar)
  {
  }

  lemma ReadEncoded16(ch: Utf32, rest: seq<Utf16>, strict: bool)
    requires IsScalar(ch)
    ensures Encode16(ch) + rest != [] && Read16(Encode16(ch) + rest, strict) == Char(ch, |Encode16(ch)|)
  {
    if ch <= 0xFFFF {
      BmpNarrows(ch);
    } else {
      SplitPairs(ch);
    }
  }

  lemma Decodes16(strict: bool)
    ensures DecodesBy(To32From16(strict), Encode16, IsScalar)
  {
    var f: Utf32 -> seq<Utf16>, ok: Utf32 -> bool := Encode16, IsScalar;
    forall ch: Utf32, rest: seq<Utf16>, room: nat | ok(ch) && room > 0
      ensures To32From16(strict)(f(ch) + rest, room) == Emit(|f(ch)|, [ch], false)
    {
      ReadEncoded16(ch, rest, strict);
    }
  }

  /** The same through UTF-16. */
  lemma RoundTrip16(cs: seq<Utf32>, room16: nat, room32: nat, strict: bool) returns (units: seq<Utf16>)
    requires Scalars(cs) && room16 >= 2 * |cs| && room32 >= |cs|
    ensures Sound(To16From32(strict)) && Sound(To32From16(strict))
    ensures Run(cs, room16, To16From32(strict)) == Outcome(ConversionOK, false, |cs|, units)
    ensures Run(units, room32, To32From16(strict)) == Outcome(ConversionOK, false, |units|, cs)
  {
    units := Each(cs, Encode16);
    To16From32Ok(strict);
    To32From16Ok(strict);
    Encodes16(strict);
    Decodes16(strict);
    EachLength(cs, Encode16, 2);
    TimesIs(2, |cs|);
    EncodeRun(cs, room16, To16From32(strict), Encode16, IsScalar);
    DecodeRun(cs, room32, To32From16(strict), Encode16, IsScalar);
  }

  // ---- through UTF-32 -----------------------------------------------------

  lemma ReadPair(s: seq<Utf16>, strict: bool)
    requires |s| > 1 && IsHigh(s[0]) && IsLow(s[1])
    ensures Read16(s, strict) == Char(Pair(s[0], s[1]), 2)
    ensures 0xFFFF < Read16(s, strict).ch <= 0x10FFFF
  {
    PairSplits(s[0], s[1], Pair(s[0], s[1]));
  }

  lemma ReadUnit(s: seq<Utf16>, strict: bool)
    requires s != [] && !(|s| > 1 && IsHigh(s[0]) && IsLow(s[1])) && Read16(s, strict).Char?
    ensures Read16(s, strict).ch <= 0xFFFF && (strict ==> !IsSurrogate(Read16(s, strict).ch))
  {
    UnitWidens(s[0]);
  }

  /** Strict UTF-16 yields no surrogates; lenient UTF-16 may, and lenient encoding takes them as they are. */
  lemma ReadPassable(s: seq<Utf16>, strict: bool)
    requires s != [] && Read16(s, strict).Char?
    ensures Read16(s, strict).ch <= 0x10FFFF && (strict ==> !IsSurrogate(Read16(s, strict).ch))
  {
    if |s| > 1 && IsHigh(s[0]) && IsLow(s[1]) {
      ReadPair(s, strict);
    } else {
      ReadUnit(s, strict);
    }
  }

  lemma EncodeStep(ch: Utf32, rest: seq<Utf32>, room: nat, strict: bool)
    requires ch <= 0x10FFFF && (strict ==> !IsSurrogate(ch)) && room >= 4
    ensures To8From32(strict)([ch] + rest, room) == Emit(1, Encode8(ch), false)
  {
  }

  lemma Factors16To8(strict: bool)
    ensures Factors(To8From16(strict), To32From16(strict), To8From32(strict), 4)
  {
    forall s: seq<Utf16>, m: nat, n: nat, rest: seq<Utf32>, k: nat |
      s != [] && m > 0 && n >= 4 && k >= 4 && To32From16(strict)(s, m).Emit? && To8From16(strict)(s, n).Emit?
      ensures To8From32(strict)(To32From16(strict)(s, m).out + rest, k) == Emit(1, To8From16(strict)(s, n).out, false)
    {
      ReadPassable(s, strict);
      EncodeStep(Read16(s, strict).ch, rest, k, strict);
    }
  }

  /**
   * UTF-16 to UTF-8 directly is UTF-16 to UTF-32 to UTF-8, for every input and
   * either mode: the same bytes, and an error at the same place.
   */
  lemma Direct8(s: seq<Utf16>, room32: nat, room8: nat, room8b: nat, strict: bool)
    requires room32 >= |s| && room8 >= 4 * |s| && room8b >= 4 * |s|
    ensures Sound(To8From16(strict)) && Sound(To32From16(strict)) && Sound(To8From32(strict))
    ensures Agree(Run(s, room8, To8From16(strict)), Run(s, room32, To32From16(strict)),
                  Run(Run(s, room32, To32From16(strict)).out, room8b, To8From32(strict)))
  {
    To8From16Ok(strict);
    To32From16Ok(strict);
    To8From32Ok(strict);
    Factors16To8(strict);
    TimesIs(4, |s|);
    RunFactors(s, To8From16(strict), To32From16(strict), To8From32(strict), 4, room32, room8, room8b);
  }

  lemma Encode16Step(ch: Utf32, rest: seq<Utf32>, room: nat, strict: bool)
    requires IsScalar(ch) && room >= 2
    ensures To16From32(strict)([ch] + rest, room) == Emit(1, Encode16(ch), false)
  {
  }

  lemma ScalarStep16(s: seq<Utf8>, room: nat, strict: bool)
    requires s != [] && Read8(s).Char? && room >= 2
    ensures IsScalar(Read8(s).ch)
    ensures To16From8(strict)(s, room) == Emit(Read8(s).used, Encode16(Read8(s).ch), false)
  {
    DecodeEncodes(s[..Read8(s).used]);
  }

  lemma Factors8To16(strict: bool)
    ensures Factors(To16From8(strict), To32From8(strict), To16From32(strict), 2)
  {
    forall s: seq<Utf8>, m: nat, n: nat | s != [] && m > 0 && n >= 2
      ensures SameStep(To16From8(strict)(s, n), To32From8(strict)(s, m), 2)
    {
      if Read8(s).Char? {
        ScalarStep(s, m, strict);
        ScalarStep16(s, n, strict);
      }
    }
    forall s: seq<Utf8>, m: nat, n: nat, rest: seq<Utf32>, k: nat |
      s != [] && m > 0 && n >= 2 && k >= 2 && To32From8(strict)(s, m).Emit? && To16From8(strict)(s, n).Emit?
      ensures To16From32(strict)(To32From8(strict)(s, m).out + rest, k) == Emit(1, To16From8(strict)(s, n).out, false)
    {
      ScalarStep(s, m, strict);
      ScalarStep16(s, n, strict);
      Encode16Step(Read8(s).ch, rest, k, strict);
    }
  }

  /** UTF-8 to UTF-16 directly is UTF-8 to UTF-32 to UTF-16, likewise. */
  lemma Direct16(s: seq<Utf8>, room32: nat, room16: nat, room16b: nat, strict: bool)
    requires room32 >= |s| && room16 >= 2 * |s| && room16b >= 2 * |s|
    ensures Sound(To16From8(strict)) && Sound(To32From8(strict)) && Sound(To16From32(strict))
    ensures Agree(Run(s, room16, To16From8(strict)), Run(s, room32, To32From8(strict)),
                  Run(Run(s, room32, To32From8(strict)).out, room16b, To16From32(strict)))
  {
    To16From8Ok(strict);
    To32From8Ok(strict);
    To16From32Ok(strict);
    Factors8To16(strict);
    TimesIs(2, |s|);
    RunFactors(s, To16From8(strict), To32From8(strict), To16From32(strict), 2, room32, room16, room16b);
  }
}
