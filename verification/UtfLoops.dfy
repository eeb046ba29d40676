/**
 * The converters' loops: two positions advance through a source and a target
 * buffer that is written in place, and are backed up when a character does
 * not fit or is illegal.
 */
module UtfLoops {
  import opened UtfBits
  import opened UtfChars
  import opened UtfRun
  import opened UtfSteps

  // ---- one UTF-8 sequence -------------------------------------------------

  /** firstByteMark[] */
  function FirstByteMark(bytesToWrite: nat): Utf32 {
    match bytesToWrite
    case 2 => 0xC0
    case 3 => 0xE0
    case 4 => 0xF0
    case _ => 0x00
  }

  function FirstByte(ch: Utf32, bytesToWrite: nat): Utf8 { ((ch | FirstByteMark(bytesToWrite)) & 0xFF) as Utf8 }

  function Next(ch: Utf32): Utf32 { ch >> 6 }

  lemma Bytes1(ch: Utf32)
    ensures FirstByte(ch, 1) == (ch & 0xFF) as Utf8
  {
  }

  lemma Bytes2(ch: Utf32)
    ensures FirstByte(Next(ch), 2) == First2(ch)
  {
  }

  lemma Bytes3(ch: Utf32)
    ensures FirstByte(Next(Next(ch)), 3) == First3(ch) && Trail(Next(ch)) == Trail(ch >> 6)
  {
  }

  lemma Bytes4(ch: Utf32)
    ensures FirstByte(Next(Next(Next(ch))), 4) == First4(ch)
    ensures Trail(Next(Next(ch))) == Trail(ch >> 12) && Trail(Next(ch)) == Trail(ch >> 6)
  {
  }

  function BytesOf(ch: Utf32, n: nat): seq<Utf8> {
    match n
    case 1 => [FirstByte(ch, 1)]
    case 2 => [FirstByte(Next(ch), 2), Trail(ch)]
    case 3 => [FirstByte(Next(Next(ch)), 3), Trail(Next(ch)), Trail(ch)]
    case _ => [FirstByte(Next(Next(Next(ch))), 4), Trail(Next(Next(ch))), Trail(Next(ch)), Trail(ch)]
  }

  lemma BytesEncode(ch: Utf32)
    ensures BytesOf(ch, BytesToWrite(ch)) == Encode8(ch)
  {
    Bytes1(ch);
    Bytes2(ch);
    Bytes3(ch);
    Bytes4(ch);
  }

  /** The fall-through switch that writes from the last byte back to the first. */
  method WriteBytes(target: array<Utf8>, t: nat, ch: Utf32, bytesToWrite: nat)
    requires 1 <= bytesToWrite <= 4 && t + bytesToWrite <= target.Length
    modifies target
    ensures target[t..t + bytesToWrite] == BytesOf(ch, bytesToWrite)
    ensures forall i :: 0 <= i < target.Length && !(t <= i < t + bytesToWrite) ==> target[i] == old(target[i])
  {
    var p, c := t + bytesToWrite, ch;
    if bytesToWrite >= 4 {
      p := p - 1;
      target[p] := Trail(c);
      c := Next(c);
    }
    if bytesToWrite >= 3 {
      p := p - 1;
      target[p] := Trail(c);
      c := Next(c);
    }
    if bytesToWrite >= 2 {
      p := p - 1;
      target[p] := Trail(c);
      c := Next(c);
    }
    p := p - 1;
    target[p] := FirstByte(c, bytesToWrite);
  }

  /** The fall-through switch that runs a sequence's bytes together. */
  method ReadBytes(source: seq<Utf8>, s: nat, extraBytesToRead: nat) returns (ch: Utf32)
    requires extraBytesToRead <= 3 && s + extraBytesToRead < |source|
    ensures ch == Decode8(source[s..s + extraBytesToRead + 1])
  {
    var p := s;
    ch := 0;
    if extraBytesToRead >= 3 {
      ch := Shifted(Plus(ch, source[p]));
      p := p + 1;
    }
    if extraBytesToRead >= 2 {
      ch := Shifted(Plus(ch, source[p]));
      p := p + 1;
    }
    if extraBytesToRead >= 1 {
      ch := Shifted(Plus(ch, source[p]));
      p := p + 1;
    }
    ch := LessOffset(Plus(ch, source[p]), extraBytesToRead);
  }

  /** isLegalUTF8(): another switch that falls through, from the last byte to the first. */
  method IsLegalUTF8(source: seq<Utf8>, s: nat, length: nat) returns (legal: bool)
    requires 1 <= length && s + length <= |source|
    ensures legal == IsLegal(source[s..s + length])
  {
    if length > 4 {
      return false;
    }
    if length >= 4 && !(0x80 <= source[s + 3] <= 0xBF) {
      return false;
    }
    if length >= 3 && !(0x80 <= source[s + 2] <= 0xBF) {
      return false;
    }
    if length >= 2 {
      var a := source[s + 1];
      if a > 0xBF || !SecondAllowed(source[s], a) {
        return false;
      }
    }
    return !(0x80 <= source[s] < 0xC2) && source[s] <= 0xF4;
  }

  // ---- one pass of a loop -------------------------------------------------

  /** Write a character if it fits. */
  method Put8(target: array<Utf8>, t: nat, ch: Utf32) returns (bytesToWrite: nat, fits: bool)
    requires t <= target.Length
    modifies target
    ensures bytesToWrite == |Encode8(ch)| && fits == (t + bytesToWrite <= target.Length)
    ensures fits ==> target[..t + bytesToWrite] == old(target[..t]) + Encode8(ch)
    ensures !fits ==> target[..] == old(target[..])
  {
    bytesToWrite := BytesToWrite(ch);
    fits := t + bytesToWrite <= target.Length;
    if fits {
      BytesEncode(ch);
      WriteBytes(target, t, ch, bytesToWrite);
      Appended(target, t, bytesToWrite);
    }
  }

  lemma Appended<T>(target: array<T>, t: nat, n: nat)
    requires t + n <= target.Length
    ensures target[..t + n] == target[..t] + target[t..t + n]
  {
  }

  /** Write one unit; there is room. */
  method Put<T>(target: array<T>, t: nat, unit: T)
    requires t < target.Length
    modifies target
    ensures target[..t + 1] == old(target[..t]) + [unit]
  {
    target[t] := unit;
  }

  method Put16(target: array<Utf16>, t: nat, ch: Utf32) returns (units: nat, fits: bool)
    requires t < target.Length
    modifies target
    ensures units == |Encode16(ch)| && fits == (t + units <= target.Length)
    ensures fits ==> target[..t + units] == old(target[..t]) + Encode16(ch)
    ensures !fits ==> target[..] == old(target[..])
  {
    if ch <= 0xFFFF {
      Put(target, t, Narrow(ch));
      return 1, true;
    }
    if t + 1 >= target.Length {
      return 2, false;
    }
    Put(target, t, HighHalf(ch));
    Put(target, t + 1, LowHalf(ch));
    return 2, true;
  }

  /** A surrogate pair is one character. */
  method Take16(source: seq<Utf16>, s: nat, strict: bool) returns (read: Read)
    requires s < |source|
    ensures read == Read16(source[s..], strict)
  {
    var unit := source[s];
    ghost var left := source[s..];
    assert left[0] == unit;
    if IsHigh(unit) {
      if s + 1 == |source| {
        return Bad(SourceExhausted);
      }
      assert left[1] == source[s + 1];
      if IsLow(source[s + 1]) {
        return Char(Pair(unit, source[s + 1]), 2);
      } else if strict {
        return Bad(SourceIllegal);
      }
    } else if strict && IsLow(unit) {
      return Bad(SourceIllegal);
    }
    return Char(Widened(unit), 1);
  }

  method Take8(source: seq<Utf8>, s: nat) returns (read: Read)
    requires s < |source|
    ensures read == Read8(source[s..])
  {
    var extraBytesToRead := TrailingBytes(source[s]);
    if s + extraBytesToRead >= |source| {
      return Bad(SourceExhausted);
    }
    var legal := IsLegalUTF8(source, s, extraBytesToRead + 1);
    assert source[s..s + extraBytesToRead + 1] == source[s..][..extraBytesToRead + 1];
    if !legal {
      return Bad(SourceIllegal);
    }
    var ch := ReadBytes(source, s, extraBytesToRead);
    return Char(ch, extraBytesToRead + 1);
  }

  /** What a pass did: the step it was, and how far it got in both buffers. */
  ghost predicate Passed<T>(now: Step<T>, stop: Result, used: nat, written: nat, flag: bool,
                            before: seq<T>, after: seq<T>, t: nat)
    requires t <= |before|
  {
    if stop == ConversionOK then
      && now.Emit? && now.used == used && now.flagged == flag && written == |now.out|
      && t + written <= |after| && after[..t + written] == before[..t] + now.out
    else
      now == Stop(stop) && after == before
  }

  method Pass32To8(source: seq<Utf32>, s: nat, target: array<Utf8>, t: nat, strict: bool)
    returns (stop: Result, used: nat, written: nat, flag: bool)
    requires s < |source| && t <= target.Length
    modifies target
    ensures Passed(To8From32(strict)(source[s..], target.Length - t), stop, used, written, flag,
                   old(target[..]), target[..], t)
  {
    var ch := source[s];
    if strict && IsSurrogate(ch) {
      return SourceIllegal, 0, 0, false;
    }
    flag := ch > 0x10FFFF;
    if flag {
      ch := REPLACEMENT_CHAR;
    }
    var fits: bool;
    written, fits := Put8(target, t, ch);
    return if fits then ConversionOK else TargetExhausted, 1, written, flag;
  }

  method Pass32To16(source: seq<Utf32>, s: nat, target: array<Utf16>, t: nat, strict: bool)
    returns (stop: Result, used: nat, written: nat, flag: bool)
    requires s < |source| && t <= target.Length
    modifies target
    ensures Passed(To16From32(strict)(source[s..], target.Length - t), stop, used, written, flag,
                   old(target[..]), target[..], t)
  {
    if t >= target.Length {
      return TargetExhausted, 0, 0, false;
    }
    var ch := source[s];
    if IsSurrogate(ch) {
      if strict {
        return SourceIllegal, 0, 0, false;
      }
      Put(target, t, Narrow(REPLACEMENT_CHAR));
      return ConversionOK, 1, 1, false;
    } else if ch > 0x10FFFF {
      if strict {
        return ConversionOK, 1, 0, true;
      }
      Put(target, t, Narrow(REPLACEMENT_CHAR));
      return ConversionOK, 1, 1, false;
    }
    var fits: bool;
    written, fits := Put16(target, t, ch);
    return if fits then ConversionOK else TargetExhausted, 1, written, false;
  }

  method Pass16To32(source: seq<Utf16>, s: nat, target: array<Utf32>, t: nat, strict: bool)
    returns (stop: Result, used: nat, written: nat, flag: bool)
    requires s < |source| && t <= target.Length
    modifies target
    ensures Passed(To32From16(strict)(source[s..], target.Length - t), stop, used, written, flag,
                   old(target[..]), target[..], t)
  {
    var read := Take16(source, s, strict);
    if read.Bad? {
      return read.result, 0, 0, false;
    }
    if t >= target.Length {
      return TargetExhausted, 0, 0, false;
    }
    Put(target, t, read.ch);
    return ConversionOK, read.used, 1, false;
  }

  method Pass16To8(source: seq<Utf16>, s: nat, target: array<Utf8>, t: nat, strict: bool)
    returns (stop: Result, used: nat, written: nat, flag: bool)
    requires s < |source| && t <= target.Length
    modifies target
    ensures Passed(To8From16(strict)(source[s..], target.Length - t), stop, used, written, flag,
                   old(target[..]), target[..], t)
  {
    var read := Take16(source, s, strict);
    if read.Bad? {
      return read.result, 0, 0, false;
    }
    var fits: bool;
    written, fits := Put8(target, t, read.ch);
    return if fits then ConversionOK else TargetExhausted, read.used, written, false;
  }

  method Pass8To32(source: seq<Utf8>, s: nat, target: array<Utf32>, t: nat, strict: bool)
    returns (stop: Result, used: nat, written: nat, flag: bool)
    requires s < |source| && t <= target.Length
    modifies target
    ensures Passed(To32From8(strict)(source[s..], target.Length - t), stop, used, written, flag,
                   old(target[..]), target[..], t)
  {
    var read := Take8(source, s);
    if read.Bad? {
      return read.result, 0, 0, false;
    }
    if t >= target.Length {
      return TargetExhausted, 0, 0, false;
    }
    if read.ch <= 0x10FFFF {
      if !IsSurrogate(read.ch) {
        Put(target, t, read.ch);
      } else if strict {
        return SourceIllegal, 0, 0, false;
      } else {
        Put(target, t, REPLACEMENT_CHAR);
      }
      return ConversionOK, read.used, 1, false;
    }
    Put(target, t, REPLACEMENT_CHAR);
    return ConversionOK, read.used, 1, true;
  }

  method Emit16(target: array<Utf16>, t: nat, ch: Utf32, used: nat, strict: bool)
    returns (stop: Result, written: nat)
    requires t <= target.Length
    modifies target
    ensures Passed(Write16(ch, used, target.Length - t, strict), stop, used, written, false,
                   old(target[..]), target[..], t)
  {
    if t >= target.Length {
      return TargetExhausted, 0;
    }
    if IsSurrogate(ch) || ch > 0x10FFFF {
      if strict {
        return SourceIllegal, 0;
      }
      Put(target, t, Narrow(REPLACEMENT_CHAR));
      return ConversionOK, 1;
    }
    var fits: bool;
    written, fits := Put16(target, t, ch);
    stop := if fits then ConversionOK else TargetExhausted;
  }

  method Pass8To16(source: seq<Utf8>, s: nat, target: array<Utf16>, t: nat, strict: bool)
    returns (stop: Result, used: nat, written: nat, flag: bool)
    requires s < |source| && t <= target.Length
    modifies target
    ensures Passed(To16From8(strict)(source[s..], target.Length - t), stop, used, written, flag,
                   old(target[..]), target[..], t)
  {
    var read := Take8(source, s);
    if read.Bad? {
      return read.result, 0, 0, false;
    }
    used, flag := read.used, false;
    stop, written := Emit16(target, t, read.ch, used, strict);
  }

  // ---- the six converters -------------------------------------------------

  /** A loop has done what a run does first, and the rest of the run is still to come. */
  ghost predicate Done<S(!new), T>(source: seq<S>, step: Stepper<S, T>, flagged: bool, s: nat, buffer: seq<T>, t: nat)
    requires Sound(step)
  {
    && s <= |source| && t <= |buffer|
    && Run(source, |buffer|, step) == Prepend(Emit(s, buffer[..t], flagged), Run(source[s..], |buffer| - t, step))
  }

  lemma Begun<S(!new), T>(source: seq<S>, buffer: seq<T>, step: Stepper<S, T>)
    requires Sound(step)
    ensures Done(source, step, false, 0, buffer, 0)
  {
    Started(source, |buffer|, step);
  }

  lemma Advanced<S(!new), T>(source: seq<S>, step: Stepper<S, T>, flagged: bool, s: nat, t: nat,
                             used: nat, written: nat, flag: bool, before: seq<T>, after: seq<T>)
    requires Sound(step) && s < |source| && |before| == |after| && Done(source, step, flagged, s, before, t)
    requires Passed(step(source[s..], |before| - t), ConversionOK, used, written, flag, before, after, t)
    ensures 0 < used && Done(source, step, flagged || flag, s + used, after, t + written)
  {
    Stepped(Run(source, |before|, step), flagged, s, before[..t], source, |before| - t, step);
  }

  /** What a loop body is for: the loop goes on, or what has been done is the whole run. */
  ghost predicate Went<S(!new), T>(source: seq<S>, step: Stepper<S, T>, stop: Result, flagged: bool, s: nat, buffer: seq<T>, t: nat)
    requires Sound(step)
  {
    if stop == ConversionOK then Done(source, step, flagged, s, buffer, t)
    else t <= |buffer| && Run(source, |buffer|, step) == Outcome(stop, flagged, s, buffer[..t])
  }

  lemma Finished<S(!new), T>(source: seq<S>, step: Stepper<S, T>, flagged: bool, s: nat, buffer: seq<T>, t: nat, stop: Result)
    requires Sound(step) && Done(source, step, flagged, s, buffer, t)
    requires if s < |source| then step(source[s..], |buffer| - t) == Stop(stop) else stop == ConversionOK
    ensures Run(source, |buffer|, step) == Outcome(stop, flagged, s, buffer[..t])
  {
    var rest := Run(source[s..], |buffer| - t, step);
    Ended(Prepend(Emit(s, buffer[..t], flagged), rest), flagged, s, buffer[..t], source, |buffer| - t, step);
  }

  lemma Gone<S(!new), T>(source: seq<S>, step: Stepper<S, T>, flagged: bool, s: nat, t: nat, stop: Result,
                         used: nat, written: nat, flag: bool, before: seq<T>, after: seq<T>,
                         flagged': bool, s': nat, t': nat)
    requires Sound(step) && s < |source| && |before| == |after| && Done(source, step, flagged, s, before, t)
    requires Passed(step(source[s..], |before| - t), stop, used, written, flag, before, after, t)
    requires if stop == ConversionOK then s' == s + used && t' == t + written && flagged' == (flagged || flag)
             else s' == s && t' == t && flagged' == flagged
    ensures Went(source, step, stop, flagged', s', after, t')
    ensures stop == ConversionOK ==> s < s'
  {
    if stop == ConversionOK {
      Advanced(source, step, flagged, s, t, used, written, flag, before, after);
    } else {
      Finished(source, step, flagged, s, before, t, stop);
    }
  }

  method Body32To8(source: seq<Utf32>, s: nat, target: array<Utf8>, t: nat, strict: bool, flagged: bool)
    returns (stop: Result, s': nat, t': nat, flagged': bool)
    requires Sound(To8From32(strict)) && s < |source| && Done(source, To8From32(strict), flagged, s, target[..], t)
    modifies target
    ensures Went(source, To8From32(strict), stop, flagged', s', target[..], t')
    ensures stop == ConversionOK ==> s < s'
  {
    ghost var before := target[..];
    var used, written, flag;
    stop, used, written, flag := Pass32To8(source, s, target, t, strict);
    s', t', flagged' := s, t, flagged;
    if stop == ConversionOK {
      s', t', flagged' := s + used, t + written, flagged || flag;
    }
    Gone(source, To8From32(strict), flagged, s, t, stop, used, written, flag, before, target[..], flagged', s', t');
  }

  method ConvertUTF32toUTF8(source: seq<Utf32>, target: array<Utf8>, strict: bool) returns (result: Result, s: nat, t: nat)
    modifies target
    ensures Sound(To8From32(strict)) && t <= target.Length
    ensures var o := Run(source, target.Length, To8From32(strict));
            result == o.Result() && s == o.used && target[..t] == o.out
  {
    To8From32Ok(strict);
    Begun(source, target[..], To8From32(strict));
    var stop, flagged;
    stop, s, t, flagged := ConversionOK, 0, 0, false;
    while stop == ConversionOK && s < |source|
      invariant Went(source, To8From32(strict), stop, flagged, s, target[..], t)
      decreases |source| - s, stop == ConversionOK
    {
      stop, s, t, flagged := Body32To8(source, s, target, t, strict, flagged);
    }
    if stop == ConversionOK {
      Finished(source, To8From32(strict), flagged, s, target[..], t, stop);
    }
    result := if stop == ConversionOK && flagged then SourceIllegal else stop;
  }

  method Body32To16(source: seq<Utf32>, s: nat, target: array<Utf16>, t: nat, strict: bool, flagged: bool)
    returns (stop: Result, s': nat, t': nat, flagged': bool)
    requires Sound(To16From32(strict)) && s < |source| && Done(source, To16From32(strict), flagged, s, target[..], t)
    modifies target
    ensures Went(source, To16From32(strict), stop, flagged', s', target[..], t')
    ensures stop == ConversionOK ==> s < s'
  {
    ghost var before := target[..];
    var used, written, flag;
    stop, used, written, flag := Pass32To16(source, s, target, t, strict);
    s', t', flagged' := s, t, flagged;
    if stop == ConversionOK {
      s', t', flagged' := s + used, t + written, flagged || flag;
    }
    Gone(source, To16From32(strict), flagged, s, t, stop, used, written, flag, before, target[..], flagged', s', t');
  }

  method ConvertUTF32toUTF16(source: seq<Utf32>, target: array<Utf16>, strict: bool) returns (result: Result, s: nat, t: nat)
    modifies target
    ensures Sound(To16From32(strict)) && t <= target.Length
    ensures var o := Run(source, target.Length, To16From32(strict));
            result == o.Result() && s == o.used && target[..t] == o.out
  {
    To16From32Ok(strict);
    Begun(source, target[..], To16From32(strict));
    var stop, flagged;
    stop, s, t, flagged := ConversionOK, 0, 0, false;
    while stop == ConversionOK && s < |source|
      invariant Went(source, To16From32(strict), stop, flagged, s, target[..], t)
      decreases |source| - s, stop == ConversionOK
    {
      stop, s, t, flagged := Body32To16(source, s, target, t, strict, flagged);
    }
    if stop == ConversionOK {
      Finished(source, To16From32(strict), flagged, s, target[..], t, stop);
    }
    result := if stop == ConversionOK && flagged then SourceIllegal else stop;
  }

  method Body16To32(source: seq<Utf16>, s: nat, target: array<Utf32>, t: nat, strict: bool, flagged: bool)
    returns (stop: Result, s': nat, t': nat, flagged': bool)
    requires Sound(To32From16(strict)) && s < |source| && Done(source, To32From16(strict), flagged, s, target[..], t)
    modifies target
    ensures Went(source, To32From16(strict), stop, flagged', s', target[..], t')
    ensures stop == ConversionOK ==> s < s'
  {
    ghost var before := target[..];
    var used, written, flag;
    stop, used, written, flag := Pass16To32(source, s, target, t, strict);
    s', t', flagged' := s, t, flagged;
    if stop == ConversionOK {
      s', t', flagged' := s + used, t + written, flagged || flag;
    }
    Gone(source, To32From16(strict), flagged, s, t, stop, used, written, flag, before, target[..], flagged', s', t');
  }

  method ConvertUTF16toUTF32(source: seq<Utf16>, target: array<Utf32>, strict: bool) returns (result: Result, s: nat, t: nat)
    modifies target
    ensures Sound(To32From16(strict)) && t <= target.Length
    ensures var o := Run(source, target.Length, To32From16(strict));
            result == o.Result() && s == o.used && target[..t] == o.out
  {
    To32From16Ok(strict);
    Begun(source, target[..], To32From16(strict));
    var stop, flagged;
    stop, s, t, flagged := ConversionOK, 0, 0, false;
    while stop == ConversionOK && s < |source|
      invariant Went(source, To32From16(strict), stop, flagged, s, target[..], t)
      decreases |source| - s, stop == ConversionOK
    {
      stop, s, t, flagged := Body16To32(source, s, target, t, strict, flagged);
    }
    if stop == ConversionOK {
      Finished(source, To32From16(strict), flagged, s, target[..], t, stop);
    }
    result := if stop == ConversionOK && flagged then SourceIllegal else stop;
  }

  method Body16To8(source: seq<Utf16>, s: nat, target: array<Utf8>, t: nat, strict: bool, flagged: bool)
    returns (stop: Result, s': nat, t': nat, flagged': bool)
    requires Sound(To8From16(strict)) && s < |source| && Done(source, To8From16(strict), flagged, s, target[..], t)
    modifies target
    ensures Went(source, To8From16(strict), stop, flagged', s', target[..], t')
    ensures stop == ConversionOK ==> s < s'
  {
    ghost var before := target[..];
    var used, written, flag;
    stop, used, written, flag := Pass16To8(source, s, target, t, strict);
    s', t', flagged' := s, t, flagged;
    if stop == ConversionOK {
      s', t', flagged' := s + used, t + written, flagged || flag;
    }
    Gone(source, To8From16(strict), flagged, s, t, stop, used, written, flag, before, target[..], flagged', s', t');
  }

  method ConvertUTF16toUTF8(source: seq<Utf16>, target: array<Utf8>, strict: bool) returns (result: Result, s: nat, t: nat)
    modifies target
    ensures Sound(To8From16(strict)) && t <= target.Length
    ensures var o := Run(source, target.Length, To8From16(strict));
            result == o.Result() && s == o.used && target[..t] == o.out
  {
    To8From16Ok(strict);
    Begun(source, target[..], To8From16(strict));
    var stop, flagged;
    stop, s, t, flagged := ConversionOK, 0, 0, false;
    while stop == ConversionOK && s < |source|
      invariant Went(source, To8From16(strict), stop, flagged, s, target[..], t)
      decreases |source| - s, stop == ConversionOK
    {
      stop, s, t, flagged := Body16To8(source, s, target, t, strict, flagged);
    }
    if stop == ConversionOK {
      Finished(source, To8From16(strict), flagged, s, target[..], t, stop);
    }
    result := if stop == ConversionOK && flagged then SourceIllegal else stop;
  }

  method Body8To32(source: seq<Utf8>, s: nat, target: array<Utf32>, t: nat, strict: bool, flagged: bool)
    returns (stop: Result, s': nat, t': nat, flagged': bool)
    requires Sound(To32From8(strict)) && s < |source| && Done(source, To32From8(strict), flagged, s, target[..], t)
    modifies target
    ensures Went(source, To32From8(strict), stop, flagged', s', target[..], t')
    ensures stop == ConversionOK ==> s < s'
  {
    ghost var before := target[..];
    var used, written, flag;
    stop, used, written, flag := Pass8To32(source, s, target, t, strict);
    s', t', flagged' := s, t, flagged;
    if stop == ConversionOK {
      s', t', flagged' := s + used, t + written, flagged || flag;
    }
    Gone(source, To32From8(strict), flagged, s, t, stop, used, written, flag, before, target[..], flagged', s', t');
  }

  method ConvertUTF8toUTF32(source: seq<Utf8>, target: array<Utf32>, strict: bool) returns (result: Result, s: nat, t: nat)
    modifies target
    ensures Sound(To32From8(strict)) && t <= target.Length
    ensures var o := Run(source, target.Length, To32From8(strict));
            result == o.Result() && s == o.used && target[..t] == o.out
  {
    To32From8Ok(strict);
    Begun(source, target[..], To32From8(strict));
    var stop, flagged;
    stop, s, t, flagged := ConversionOK, 0, 0, false;
    while stop == ConversionOK && s < |source|
      invariant Went(source, To32From8(strict), stop, flagged, s, target[..], t)
      decreases |source| - s, stop == ConversionOK
    {
      stop, s, t, flagged := Body8To32(source, s, target, t, strict, flagged);
    }
    if stop == ConversionOK {
      Finished(source, To32From8(strict), flagged, s, target[..], t, stop);
    }
    result := if stop == ConversionOK && flagged then SourceIllegal else stop;
  }

  method Body8To16(source: seq<Utf8>, s: nat, target: array<Utf16>, t: nat, strict: bool, flagged: bool)
    returns (stop: Result, s': nat, t': nat, flagged': bool)
    requires Sound(To16From8(strict)) && s < |source| && Done(source, To16From8(strict), flagged, s, target[..], t)
    modifies target
    ensures Went(source, To16From8(strict), stop, flagged', s', target[..], t')
    ensures stop == ConversionOK ==> s < s'
  {
    ghost var before := target[..];
    var used, written, flag;
    stop, used, written, flag := Pass8To16(source, s, target, t, strict);
    s', t', flagged' := s, t, flagged;
    if stop == ConversionOK {
      s', t', flagged' := s + used, t + written, flagged || flag;
    }
    Gone(source, To16From8(strict), flagged, s, t, stop, used, written, flag, before, target[..], flagged', s', t');
  }

  method ConvertUTF8toUTF16(source: seq<Utf8>, target: array<Utf16>, strict: bool) returns (result: Result, s: nat, t: nat)
    modifies target
    ensures Sound(To16From8(strict)) && t <= target.Length
    ensures var o := Run(source, target.Length, To16From8(strict));
            result == o.Result() && s == o.used && target[..t] == o.out
  {
    To16From8Ok(strict);
    Begun(source, target[..], To16From8(strict));
    var stop, flagged;
    stop, s, t, flagged := ConversionOK, 0, 0, false;
    while stop == ConversionOK && s < |source|
      invariant Went(source, To16From8(strict), stop, flagged, s, target[..], t)
      decreases |source| - s, stop == ConversionOK
    {
      stop, s, t, flagged := Body8To16(source, s, target, t, strict, flagged);
    }
    if stop == ConversionOK {
      Finished(source, To16From8(strict), flagged, s, target[..], t, stop);
    }
    result := if stop == ConversionOK && flagged then SourceIllegal else stop;
  }
}
