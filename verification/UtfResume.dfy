/**
 * Converting a text in two buffers: the report of a replaced value is lost
 * with the first one. For which sources the two runs' result differs from that
 * of one run.
 */
module UtfResume {
  import opened UtfChars
  import opened UtfRun
  import opened UtfSteps

  // ---- steps that take one unit each --------------------------------------

  /** What a step does with a unit: it takes no other; it flags, writes or refuses it. */
  ghost predicate ByUnit<T>(step: Stepper<Utf32, T>, flags: Utf32 -> bool, good: Utf32 -> bool, size: Utf32 -> nat) {
    forall s: seq<Utf32>, room: nat :: s != [] ==> TakesUnit(step(s, room), s[0], room, flags, good, size)
  }

  predicate TakesUnit<T>(now: Step<T>, unit: Utf32, room: nat, flags: Utf32 -> bool, good: Utf32 -> bool, size: Utf32 -> nat) {
    && (now.Emit? ==> now.used == 1 && now.flagged == flags(unit) && good(unit) == !flags(unit))
    && (now.Emit? && good(unit) ==> |now.out| == size(unit) <= room)
    && (good(unit) && size(unit) <= room ==> now.Emit?)
  }

  /** The units written for `s`. */
  function Total(s: seq<Utf32>, size: Utf32 -> nat): nat {
    if s == [] then 0 else size(s[0]) + Total(s[1..], size)
  }

  predicate AnyOf(s: seq<Utf32>, p: Utf32 -> bool) {
    exists k :: 0 <= k < |s| && p(s[k])
  }

  predicate AllOf(s: seq<Utf32>, p: Utf32 -> bool) {
    forall k :: 0 <= k < |s| ==> p(s[k])
  }

  lemma AnyOfSplits(s: seq<Utf32>, n: nat, p: Utf32 -> bool)
    requires 0 < n <= |s|
    ensures AnyOf(s[..n], p) <==> p(s[0]) || AnyOf(s[1..][..n - 1], p)
  {
    var head, tail := s[..n], s[1..][..n - 1];
    assert forall k :: 0 < k < n ==> head[k] == tail[k - 1];
    assert forall k :: 0 <= k < n - 1 ==> tail[k] == head[k + 1];
    assert head[0] == s[0];
  }

  lemma AllOfSplits(s: seq<Utf32>, p: Utf32 -> bool)
    requires s != []
    ensures AllOf(s, p) <==> p(s[0]) && AllOf(s[1..], p)
  {
    assert forall k :: 0 < k < |s| ==> s[k] == s[1..][k - 1];
  }

  /** A run is flagged when one of the units it used is. */
  lemma {:induction false} FlaggedExactly<T>(source: seq<Utf32>, room: nat, step: Stepper<Utf32, T>,
                                             flags: Utf32 -> bool, good: Utf32 -> bool, size: Utf32 -> nat)
    requires Sound(step) && ByUnit(step, flags, good, size)
    ensures var r := Run(source, room, step);
            r.flagged <==> AnyOf(source[..r.used], flags)
    decreases |source|
  {
    if source != [] {
      var now := step(source, room);
      assert TakesUnit(now, source[0], room, flags, good, size);
      if now.Emit? {
        var rest := Run(source[1..], room - |now.out|, step);
        FlaggedExactly(source[1..], room - |now.out|, step, flags, good, size);
        AnyOfSplits(source, 1 + rest.used, flags);
        Taken(source, room, step, now, source[1..], rest);
      }
    }
  }

  /** A run ends well when every unit is good and there is room for them. */
  lemma {:induction false} OkExactly<T>(source: seq<Utf32>, room: nat, step: Stepper<Utf32, T>,
                                        flags: Utf32 -> bool, good: Utf32 -> bool, size: Utf32 -> nat)
    requires Sound(step) && ByUnit(step, flags, good, size)
    ensures Run(source, room, step).Result() == ConversionOK <==> AllOf(source, good) && Total(source, size) <= room
    decreases |source|
  {
    if source != [] {
      var now := step(source, room);
      assert TakesUnit(now, source[0], room, flags, good, size);
      AllOfSplits(source, good);
      if now.Emit? {
        OkExactly(source[1..], room - |now.out|, step, flags, good, size);
      }
    }
  }

  /** Two runs end as one does, unless a unit of the first was flagged and the second ends well. */
  lemma ResumedByUnit<T(!new)>(source: seq<Utf32>, room: nat, more: nat, step: Stepper<Utf32, T>, first: Outcome<T>,
                               flags: Utf32 -> bool, good: Utf32 -> bool, size: Utf32 -> nat)
    requires Sound(step) && Monotone(step) && ByUnit(step, flags, good, size)
    requires first == Run(source, room, step) && first.stop == TargetExhausted && room <= |first.out| + more
    ensures var left := source[first.used..];
            Run(source, |first.out| + more, step).Result() == Run(left, more, step).Result()
            <==> !(AnyOf(source[..first.used], flags) && AllOf(left, good) && Total(left, size) <= more)
  {
    FlaggedExactly(source, room, step, flags, good, size);
    OkExactly(source[first.used..], more, step, flags, good, size);
    ResumedResult(source, room, more, step, first, Run(source[first.used..], more, step));
  }

  // ---- the two converters from UTF-32 -------------------------------------

  predicate TooLarge(ch: Utf32) { ch > 0x10FFFF }

  /** A value that is written as it is. */
  predicate Legal(ch: Utf32, strict: bool) { ch <= 0x10FFFF && !(strict && IsSurrogate(ch)) }

  function LegalIn(strict: bool): Utf32 -> bool { ch => Legal(ch, strict) }

  function FlaggedIn(strict: bool): Utf32 -> bool { ch => strict && TooLarge(ch) }

  function WrittenIn(strict: bool): Utf32 -> bool { ch => !strict || Legal(ch, strict) }

  function UnitsToWrite(ch: Utf32): nat {
    if 0xFFFF < ch <= 0x10FFFF then 2 else 1
  }

  lemma To8ByUnit(strict: bool)
    ensures ByUnit(To8From32(strict), TooLarge, LegalIn(strict), BytesToWrite)
  {
    forall s: seq<Utf32>, room: nat | s != []
      ensures TakesUnit(Step32To8(s, room, strict), s[0], room, TooLarge, LegalIn(strict), BytesToWrite)
    {
    }
  }

  lemma To16ByUnit(strict: bool)
    ensures ByUnit(To16From32(strict), FlaggedIn(strict), WrittenIn(strict), UnitsToWrite)
  {
    forall s: seq<Utf32>, room: nat | s != []
      ensures TakesUnit(Step32To16(s, room, strict), s[0], room, FlaggedIn(strict),
                        WrittenIn(strict), UnitsToWrite)
    {
    }
  }

  /** Nothing in `left` is reported, and it fits. */
  predicate Passes8(left: seq<Utf32>, more: nat, strict: bool) {
    && (forall k :: 0 <= k < |left| ==> Legal(left[k], strict))
    && Total(left, BytesToWrite) <= more
  }

  predicate Passes16(left: seq<Utf32>, more: nat, strict: bool) {
    && (forall k :: 0 <= k < |left| ==> !strict || Legal(left[k], strict))
    && Total(left, UnitsToWrite) <= more
  }

  lemma Unit8(source: seq<Utf32>, room: nat, more: nat, strict: bool, step: Stepper<Utf32, Utf8>, first: Outcome<Utf8>)
    requires Sound(step) && Monotone(step) && ByUnit(step, TooLarge, LegalIn(strict), BytesToWrite)
    requires first == Run(source, room, step) && first.stop == TargetExhausted && room <= |first.out| + more
    ensures Run(source, |first.out| + more, step).Result() == Run(source[first.used..], more, step).Result()
            <==> !((exists k :: 0 <= k < first.used && source[k] > 0x10FFFF) && Passes8(source[first.used..], more, strict))
  {
    var used, left := source[..first.used], source[first.used..];
    ResumedByUnit(source, room, more, step, first, TooLarge, LegalIn(strict), BytesToWrite);
    assert AnyOf(used, TooLarge) <==> exists k :: 0 <= k < first.used && source[k] > 0x10FFFF by {
      assert forall k :: 0 <= k < first.used ==> used[k] == source[k];
    }
    assert AllOf(left, LegalIn(strict)) <==> forall k :: 0 <= k < |left| ==> Legal(left[k], strict);
  }

  lemma Unit16(source: seq<Utf32>, room: nat, more: nat, strict: bool, step: Stepper<Utf32, Utf16>, first: Outcome<Utf16>)
    requires Sound(step) && Monotone(step) && ByUnit(step, FlaggedIn(strict), WrittenIn(strict), UnitsToWrite)
    requires first == Run(source, room, step) && first.stop == TargetExhausted && room <= |first.out| + more
    ensures Run(source, |first.out| + more, step).Result() == Run(source[first.used..], more, step).Result()
            <==> !(strict && (exists k :: 0 <= k < first.used && source[k] > 0x10FFFF)
                   && Passes16(source[first.used..], more, strict))
  {
    var used, left := source[..first.used], source[first.used..];
    ResumedByUnit(source, room, more, step, first, FlaggedIn(strict), WrittenIn(strict), UnitsToWrite);
    assert AnyOf(used, FlaggedIn(strict)) <==> strict && exists k :: 0 <= k < first.used && source[k] > 0x10FFFF by {
      assert forall k :: 0 <= k < first.used ==> used[k] == source[k];
    }
    assert AllOf(left, WrittenIn(strict)) <==> forall k :: 0 <= k < |left| ==> !strict || Legal(left[k], strict);
  }

  /**
   * Stopped for lack of room and resumed, the conversion to UTF-8 reports what
   * one run does, if and only if not both: a value above 0x10FFFF was used up
   * before the stop, and all that is left is legal and fits.
   */
  lemma Resumed8Exactly(source: seq<Utf32>, room: nat, more: nat, strict: bool, first: Outcome<Utf8>)
    requires Sound(To8From32(strict)) && first == Run(source, room, To8From32(strict))
    requires first.stop == TargetExhausted && room <= |first.out| + more
    ensures Run(source, |first.out| + more, To8From32(strict)).Result()
            == Run(source[first.used..], more, To8From32(strict)).Result()
            <==> !((exists k :: 0 <= k < first.used && source[k] > 0x10FFFF) && Passes8(source[first.used..], more, strict))
  {
    To8From32Ok(strict);
    To8ByUnit(strict);
    Unit8(source, room, more, strict, To8From32(strict), first);
  }

  /** To UTF-16 the same holds in strict mode; in lenient mode nothing is flagged, and the reports always agree. */
  lemma Resumed16Exactly(source: seq<Utf32>, room: nat, more: nat, strict: bool, first: Outcome<Utf16>)
    requires Sound(To16From32(strict)) && first == Run(source, room, To16From32(strict))
    requires first.stop == TargetExhausted && room <= |first.out| + more
    ensures Run(source, |first.out| + more, To16From32(strict)).Result()
            == Run(source[first.used..], more, To16From32(strict)).Result()
            <==> !(strict && (exists k :: 0 <= k < first.used && source[k] > 0x10FFFF)
                   && Passes16(source[first.used..], more, strict))
  {
    To16From32Ok(strict);
    To16ByUnit(strict);
    Unit16(source, room, more, strict, To16From32(strict), first);
  }

  // ---- the other four -----------------------------------------------------

  ghost predicate NeverFlags<S(!new), T>(step: Stepper<S, T>) {
    forall s: seq<S>, room: nat :: step(s, room).Emit? ==> !step(s, room).flagged
  }

  lemma {:induction false} Unflagged<S(!new), T>(source: seq<S>, room: nat, step: Stepper<S, T>)
    requires Sound(step) && NeverFlags(step)
    ensures !Run(source, room, step).flagged
    decreases |source|
  {
    if source != [] && step(source, room).Emit? {
      var now := step(source, room);
      Unflagged(source[now.used..], room - |now.out|, step);
    }
  }

  lemma DecodedUnflagged(strict: bool)
    ensures NeverFlags(To32From8(strict))
  {
    forall s: seq<Utf8>, room: nat
      ensures var now := To32From8(strict)(s, room);
              now.Emit? ==> !now.flagged
    {
      if s != [] && Read8(s).Char? {
        DecodeEncodes(s[..Read8(s).used]);
      }
    }
  }

  /** Two runs of a step that flags nothing report what one run does. */
  lemma ResumedAlike<S(!new), T(!new)>(source: seq<S>, room: nat, more: nat, step: Stepper<S, T>, first: Outcome<T>)
    requires Sound(step) && Monotone(step) && NeverFlags(step)
    requires first == Run(source, room, step) && first.stop == TargetExhausted && room <= |first.out| + more
    ensures Run(source, |first.out| + more, step).Result() == Run(source[first.used..], more, step).Result()
  {
    Unflagged(source, room, step);
    ResumedResult(source, room, more, step, first, Run(source[first.used..], more, step));
  }

  /** None of the other converters flags anything. */
  lemma OthersNeverFlag(strict: bool)
    ensures NeverFlags(To32From16(strict)) && NeverFlags(To8From16(strict))
    ensures NeverFlags(To32From8(strict)) && NeverFlags(To16From8(strict))
  {
    DecodedUnflagged(strict);
  }
}
