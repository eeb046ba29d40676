/** What each of the six converters does with one character. */
module UtfSteps {
  import opened UtfChars
  import opened UtfRun

  const REPLACEMENT: seq<Utf8> := Encode8(REPLACEMENT_CHAR)

  function Put<T>(used: nat, out: seq<T>, flagged: bool, room: nat): Step<T> {
    if |out| > room then Stop(TargetExhausted) else Emit(used, out, flagged)
  }

  // ---- from UTF-32 --------------------------------------------------------

  /** A value above the last plane is written as the replacement character even in strict mode, and flagged. */
  function Step32To8(s: seq<Utf32>, room: nat, strict: bool): Step<Utf8> {
    if s == [] then Stop(SourceExhausted)
    else if strict && IsSurrogate(s[0]) then Stop(SourceIllegal)
    else if s[0] <= 0x10FFFF then Put(1, Encode8(s[0]), false, room)
    else Put(1, Encode8(REPLACEMENT_CHAR), true, room)
  }

  /** Here room is looked at first; in strict mode a value above the last plane is flagged and skipped. */
  function Step32To16(s: seq<Utf32>, room: nat, strict: bool): Step<Utf16> {
    if s == [] then Stop(SourceExhausted)
    else if room == 0 then Stop(TargetExhausted)
    else if IsSurrogate(s[0]) then
      if strict then Stop(SourceIllegal) else Emit(1, [Narrow(REPLACEMENT_CHAR)], false)
    else if s[0] > 0x10FFFF then
      if strict then Emit(1, [], true) else Emit(1, [Narrow(REPLACEMENT_CHAR)], false)
    else Put(1, Encode16(s[0]), false, room)
  }

  // ---- from UTF-16 --------------------------------------------------------

  /** One character and the units it takes, or why there is none. */
  datatype Read = Char(ch: Utf32, used: nat) | Bad(result: Result)

  function Read16(s: seq<Utf16>, strict: bool): (r: Read)
    requires s != []
    ensures r.Char? ==> 1 <= r.used <= |s| && r.used <= 2
    ensures r.Bad? ==> r.result == SourceExhausted || r.result == SourceIllegal
  {
    if IsHigh(s[0]) then
      if |s| == 1 then Bad(SourceExhausted)
      else if IsLow(s[1]) then Char(Pair(s[0], s[1]), 2)
      else if strict then Bad(SourceIllegal)
      else Char(Widened(s[0]), 1)
    else if strict && IsLow(s[0]) then Bad(SourceIllegal)
    else Char(Widened(s[0]), 1)
  }

  function Step16To32(s: seq<Utf16>, room: nat, strict: bool): Step<Utf32> {
    if s == [] then Stop(SourceExhausted)
    else
      match Read16(s, strict)
      case Bad(result) => Stop(result)
      case Char(ch, used) => Put(used, [ch], false, room)
  }

  function Step16To8(s: seq<Utf16>, room: nat, strict: bool): Step<Utf8> {
    if s == [] then Stop(SourceExhausted)
    else
      match Read16(s, strict)
      case Bad(result) => Stop(result)
      case Char(ch, used) => Put(used, Encode8(ch), false, room)
  }

  // ---- from UTF-8 ---------------------------------------------------------

  function Read8(s: seq<Utf8>): (r: Read)
    requires s != []
    ensures r.Char? ==> 1 <= r.used <= |s| && r.used <= 4
    ensures r.Char? ==> Measured(s[..r.used]) && IsLegal(s[..r.used]) && r.ch == Decode8(s[..r.used])
    ensures r.Bad? ==> r.result == SourceExhausted || r.result == SourceIllegal
  {
    var extra := TrailingBytes(s[0]);
    if extra >= |s| then Bad(SourceExhausted)
    else if !IsLegal(s[..extra + 1]) then Bad(SourceIllegal)
    else Char(Decode8(s[..extra + 1]), extra + 1)
  }

  function Step8To32(s: seq<Utf8>, room: nat, strict: bool): Step<Utf32> {
    if s == [] then Stop(SourceExhausted)
    else
      match Read8(s)
      case Bad(result) => Stop(result)
      case Char(ch, used) =>
        if room == 0 then Stop(TargetExhausted)
        else if ch > 0x10FFFF then Emit(used, [REPLACEMENT_CHAR], true)
        else if !IsSurrogate(ch) then Emit(used, [ch], false)
        else if strict then Stop(SourceIllegal)
        else Emit(used, [REPLACEMENT_CHAR], false)
  }

  /** What is written for a decoded character. */
  function Write16(ch: Utf32, used: nat, room: nat, strict: bool): Step<Utf16> {
    if room == 0 then Stop(TargetExhausted)
    else if IsSurrogate(ch) || ch > 0x10FFFF then
      if strict then Stop(SourceIllegal) else Emit(used, [Narrow(REPLACEMENT_CHAR)], false)
    else Put(used, Encode16(ch), false, room)
  }

  function Step8To16(s: seq<Utf8>, room: nat, strict: bool): Step<Utf16> {
    if s == [] then Stop(SourceExhausted)
    else
      match Read8(s)
      case Bad(result) => Stop(result)
      case Char(ch, used) => Write16(ch, used, room, strict)
  }

  // ---- as steppers --------------------------------------------------------

  function To8From32(strict: bool): Stepper<Utf32, Utf8> {
    (s: seq<Utf32>, room: nat) => Step32To8(s, room, strict)
  }

  function To16From32(strict: bool): Stepper<Utf32, Utf16> {
    (s: seq<Utf32>, room: nat) => Step32To16(s, room, strict)
  }

  function To32From16(strict: bool): Stepper<Utf16, Utf32> {
    (s: seq<Utf16>, room: nat) => Step16To32(s, room, strict)
  }

  function To8From16(strict: bool): Stepper<Utf16, Utf8> {
    (s: seq<Utf16>, room: nat) => Step16To8(s, room, strict)
  }

  function To32From8(strict: bool): Stepper<Utf8, Utf32> {
    (s: seq<Utf8>, room: nat) => Step8To32(s, room, strict)
  }

  function To16From8(strict: bool): Stepper<Utf8, Utf16> {
    (s: seq<Utf8>, room: nat) => Step8To16(s, room, strict)
  }

  // Every converter can be stopped by a full target and resumed.

  lemma To8From32Ok(strict: bool)
    ensures Sound(To8From32(strict)) && Monotone(To8From32(strict))
  {
  }

  lemma To16From32Ok(strict: bool)
    ensures Sound(To16From32(strict)) && Monotone(To16From32(strict))
  {
  }

  lemma To32From16Ok(strict: bool)
    ensures Sound(To32From16(strict)) && Monotone(To32From16(strict))
  {
  }

  lemma To8From16Ok(strict: bool)
    ensures Sound(To8From16(strict)) && Monotone(To8From16(strict))
  {
  }

  lemma To32From8Ok(strict: bool)
    ensures Sound(To32From8(strict)) && Monotone(To32From8(strict))
  {
  }

  lemma To16From8Ok(strict: bool)
    ensures Sound(To16From8(strict)) && Monotone(To16From8(strict))
  {
  }
}
