/** Checking UTF-8 without converting it. */
module UtfValidate {
  import opened UtfChars
  import opened UtfRun
  import opened UtfSteps
  import opened UtfStreams
  import opened UtfLoops

  /** The length of the longest beginning of `s` that is made of legal sequences. */
  function LegalPrefix(s: seq<Utf8>): (r: nat)
    ensures r <= |s|
    decreases |s|
  {
    if s == [] || Read8(s).Bad? then 0 else Read8(s).used + LegalPrefix(s[Read8(s).used..])
  }

  lemma PrefixStep(s: seq<Utf8>, at: nat, length: nat)
    requires at < |s| && length == TrailingBytes(s[at]) + 1
    ensures if at + length <= |s| && IsLegal(s[at..at + length])
            then LegalPrefix(s[at..]) == length + LegalPrefix(s[at + length..])
            else LegalPrefix(s[at..]) == 0
  {
    if at + length <= |s| {
      assert s[at..at + length] == s[at..][..length];
      assert s[at + length..] == s[at..][length..];
    }
  }

  /** A pointer to a text, and the bytes from there on. */
  datatype Text = Null | Memory(bytes: seq<Utf8>)

  /** What `*end` is set to, if it is. */
  datatype End = Unset | At(pos: nat)

  /** The bytes before the terminating NUL. */
  function StrLen(bytes: seq<Utf8>): (n: nat)
    requires 0 in bytes
    ensures n < |bytes| && bytes[n] == 0 && 0 !in bytes[..n]
  {
    if bytes[0] == 0 then 0 else 1 + StrLen(bytes[1..])
  }

  /** The bytes to look at: up to the NUL, or so many. */
  predicate LengthOk(str: Text, maxLen: int) {
    str.Memory? ==> if maxLen < 0 then 0 in str.bytes else maxLen <= |str.bytes|
  }

  function Checked(str: Text, maxLen: int): seq<Utf8>
    requires str.Memory? && LengthOk(str, maxLen)
  {
    str.bytes[..if maxLen < 0 then StrLen(str.bytes) else maxLen]
  }

  /**
   * tr_utf8_validate(): whether all of the text is legal, and how far it is.
   * No length at all is fine even of no text, and then says nothing of an end.
   */
  method Validate(str: Text, maxLen: int) returns (valid: bool, end: End)
    requires LengthOk(str, maxLen)
    ensures maxLen == 0 ==> valid && end == Unset
    ensures maxLen != 0 && str.Null? ==> !valid && end == Unset
    ensures maxLen != 0 && str.Memory? ==>
              var s := Checked(str, maxLen); end == At(LegalPrefix(s)) && valid == (LegalPrefix(s) == |s|)
  {
    if maxLen == 0 {
      return true, Unset;
    }
    if str.Null? {
      return false, Unset;
    }
    var s := Checked(str, maxLen);
    var at;
    valid, at := ValidateText(s);
    end := At(at);
  }

  method ValidateText(str: seq<Utf8>) returns (valid: bool, end: nat)
    ensures end == LegalPrefix(str) && valid == (end == |str|)
  {
    end := 0;
    if str == [] {
      return true, 0;
    }
    assert str[0..] == str;
    while true
      invariant end < |str| && end + LegalPrefix(str[end..]) == LegalPrefix(str)
      decreases |str| - end
    {
      var length := TrailingBytes(str[end]) + 1;
      PrefixStep(str, end, length);
      if end + length > |str| {
        return false, end;
      }
      var legal := IsLegalUTF8(str, end, length);
      if !legal {
        return false, end;
      }
      end := end + length;
      if end >= |str| {
        return true, end;
      }
    }
  }

  /** A run ended right behind the legal beginning, and well if that is everything. */
  ghost predicate Marks(r: Outcome<Utf32>, s: seq<Utf8>) {
    r.used == LegalPrefix(s) && (r.stop == ConversionOK <==> LegalPrefix(s) == |s|)
  }

  /** Validation accepts exactly the texts that convert, and finds the place where conversion stops. */
  lemma {:induction false} ValidatesWhatConverts(s: seq<Utf8>, room: nat, strict: bool)
    requires Sound(To32From8(strict)) && room >= |s|
    ensures Marks(Run(s, room, To32From8(strict)), s)
    decreases |s|
  {
    if s != [] && Read8(s).Char? {
      var left := s[Read8(s).used..];
      ValidatesWhatConverts(left, room - 1, strict);
      MarksOn(s, room, strict, Read8(s), left, Run(left, room - 1, To32From8(strict)));
    } else {
      MarksHere(s, room, strict);
    }
  }

  lemma MarksOn(s: seq<Utf8>, room: nat, strict: bool, c: Read, left: seq<Utf8>, rest: Outcome<Utf32>)
    requires Sound(To32From8(strict)) && s != [] && c == Read8(s) && c.Char? && room > 0
    requires left == s[c.used..] && rest == Run(left, room - 1, To32From8(strict)) && Marks(rest, left)
    ensures Marks(Run(s, room, To32From8(strict)), s)
  {
    ScalarRun(s, room, strict, c, left, rest);
    Prefixed(s, c, left, rest, Run(s, room, To32From8(strict)));
  }

  lemma MarksHere(s: seq<Utf8>, room: nat, strict: bool)
    requires Sound(To32From8(strict)) && (s != [] ==> Read8(s).Bad?)
    ensures Marks(Run(s, room, To32From8(strict)), s)
  {
    if s != [] {
      StopRun(s, room, strict);
    }
  }

  lemma Prefixed(s: seq<Utf8>, c: Read, left: seq<Utf8>, rest: Outcome<Utf32>, r: Outcome<Utf32>)
    requires s != [] && c == Read8(s) && c.Char? && left == s[c.used..] && r == Prepend(Emit(c.used, [c.ch], false), rest)
    requires Marks(rest, left)
    ensures Marks(r, s)
  {
  }

  const TOO_LARGE: seq<Utf32> := [0x110000, 0x41]

  lemma TooLargeSteps(step: Stepper<Utf32, Utf8>)
    requires step == To8From32(true)
    ensures forall room: nat :: room >= 3 ==> step(TOO_LARGE, room) == Emit(1, Encode8(REPLACEMENT_CHAR), true)
    ensures step([0x41], 1) == Emit(1, Encode8(0x41), false) && step([0x41], 0) == Stop(TargetExhausted)
    ensures TOO_LARGE[1..] == [0x41] && |Encode8(REPLACEMENT_CHAR)| == 3 && |Encode8(0x41)| == 1
  {
  }

  /** A replacement in a first, exhausted run is not reported by the run that resumes it. */
  lemma ReplacementForgotten(step: Stepper<Utf32, Utf8>)
    requires step == To8From32(true)
    ensures Sound(step)
    ensures Run(TOO_LARGE, 3, step) == Outcome(TargetExhausted, true, 1, Encode8(REPLACEMENT_CHAR))
    ensures Run(TOO_LARGE[1..], 1, step).Result() == ConversionOK
    ensures Run(TOO_LARGE, 4, step).Result() == SourceIllegal
  {
    To8From32Ok(true);
    TooLargeSteps(step);
    Forgotten(step, Encode8(REPLACEMENT_CHAR), Encode8(0x41));
  }

  lemma Forgotten(step: Stepper<Utf32, Utf8>, replacement: seq<Utf8>, last: seq<Utf8>)
    requires Sound(step) && |replacement| == 3 && |last| == 1 && TOO_LARGE[1..] == [0x41]
    requires forall room: nat :: room >= 3 ==> step(TOO_LARGE, room) == Emit(1, replacement, true)
    requires step([0x41], 1) == Emit(1, last, false) && step([0x41], 0) == Stop(TargetExhausted)
    ensures Run(TOO_LARGE, 3, step) == Outcome(TargetExhausted, true, 1, replacement)
    ensures Run([0x41], 1, step).Result() == ConversionOK
    ensures Run(TOO_LARGE, 4, step).Result() == SourceIllegal
  {
    var none: Outcome<Utf8> := Outcome(ConversionOK, false, 0, []);
    assert [0x41 as Utf32][1..] == [];
    Taken([0x41], 1, step, Emit(1, last, false), [], none);
    Taken(TOO_LARGE, 4, step, Emit(1, replacement, true), [0x41], Run([0x41], 1, step));
    Taken(TOO_LARGE, 3, step, Emit(1, replacement, true), [0x41], Run([0x41], 0, step));
  }
}
