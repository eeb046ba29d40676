/** Runs of steps that undo each other, or that can be done in two stages. */
module UtfCompose {
  import opened UtfRun

  /** The images of all elements, one after another. */
  function Each<S, T>(cs: seq<S>, f: S -> seq<T>): seq<T> {
    if cs == [] then [] else f(cs[0]) + Each(cs[1..], f)
  }

  ghost predicate All<S>(cs: seq<S>, ok: S -> bool) { forall k :: 0 <= k < |cs| ==> ok(cs[k]) }

  /** `step` writes `f(c)` for an acceptable `c`, whatever follows. */
  ghost predicate EncodesBy<S(!new), T>(step: Stepper<S, T>, f: S -> seq<T>, ok: S -> bool) {
    forall c: S, rest: seq<S>, room: nat :: ok(c) && room >= |f(c)| ==> step([c] + rest, room) == Emit(1, f(c), false)
  }

  /** `step` reads `c` where `f(c)` stands, whatever follows. */
  ghost predicate DecodesBy<S(!new), T(!new)>(step: Stepper<T, S>, f: S -> seq<T>, ok: S -> bool) {
    && (forall c: S :: ok(c) ==> f(c) != [])
    && forall c: S, rest: seq<T>, room: nat :: ok(c) && room > 0 ==> step(f(c) + rest, room) == Emit(|f(c)|, [c], false)
  }

  lemma {:induction false} EncodeRun<S(!new), T>(cs: seq<S>, room: nat, step: Stepper<S, T>, f: S -> seq<T>, ok: S -> bool)
    requires Sound(step) && EncodesBy(step, f, ok) && All(cs, ok) && room >= |Each(cs, f)|
    ensures Run(cs, room, step) == Outcome(ConversionOK, false, |cs|, Each(cs, f))
  {
    if cs != [] {
      assert cs == [cs[0]] + cs[1..];
      assert step([cs[0]] + cs[1..], room) == Emit(1, f(cs[0]), false);
      EncodeRun(cs[1..], room - |f(cs[0])|, step, f, ok);
    }
  }

  lemma {:induction false} DecodeRun<S(!new), T(!new)>(cs: seq<S>, room: nat, step: Stepper<T, S>, f: S -> seq<T>, ok: S -> bool)
    requires Sound(step) && DecodesBy(step, f, ok) && All(cs, ok) && room >= |cs|
    ensures Run(Each(cs, f), room, step) == Outcome(ConversionOK, false, |Each(cs, f)|, cs)
  {
    if cs != [] {
      var c, rest := cs[0], Each(cs[1..], f);
      assert step(f(c) + rest, room) == Emit(|f(c)|, [c], false);
      assert (f(c) + rest)[|f(c)|..] == rest;
      DecodeRun(cs[1..], room - 1, step, f, ok);
      assert cs == [c] + cs[1..];
    }
  }

  /** Room for `n` characters. */
  function Times(width: nat, n: nat): nat {
    if n == 0 then 0 else width + Times(width, n - 1)
  }

  lemma {:induction false} TimesIs(width: nat, n: nat)
    ensures Times(width, n) == width * n
  {
    if n > 0 {
      TimesIs(width, n - 1);
    }
  }

  lemma {:induction false} TimesMono(width: nat, a: nat, b: nat)
    requires a < b
    ensures Times(width, a) + width <= Times(width, b)
    decreases b
  {
    if a < b - 1 {
      TimesMono(width, a, b - 1);
    }
  }

  lemma {:induction false} EachLength<S, T>(cs: seq<S>, f: S -> seq<T>, width: nat)
    requires forall k :: 0 <= k < |cs| ==> |f(cs[k])| <= width
    ensures |Each(cs, f)| <= Times(width, |cs|)
  {
    if cs != [] {
      EachLength(cs[1..], f, width);
    }
  }

  /** One step of `direct` is one step of `first`, giving one unit, and one of `second` on that unit. */
  ghost predicate Factors<S(!new), U(!new), T(!new)>(direct: Stepper<S, T>, first: Stepper<S, U>, second: Stepper<U, T>, width: nat) {
    && (forall s: seq<S>, m: nat, n: nat :: s != [] && m > 0 && n >= width ==> SameStep(direct(s, n), first(s, m), width))
    && (forall s: seq<S>, m: nat, n: nat, rest: seq<U>, k: nat ::
          s != [] && m > 0 && n >= width && k >= width && first(s, m).Emit? && direct(s, n).Emit?
          ==> second(first(s, m).out + rest, k) == Emit(1, direct(s, n).out, false))
  }

  predicate SameStep<T(==), U>(direct: Step<T>, first: Step<U>, width: nat) {
    if first.Stop? then direct == Stop(first.result)
    else direct.Emit? && direct.used == first.used && !direct.flagged && !first.flagged && |first.out| == 1 && |direct.out| <= width
  }

  /** `second`, run on what `first` wrote, takes it all, and `direct` writes the same and ends alike. */
  predicate Agree<T(==), U>(direct: Outcome<T>, first: Outcome<U>, second: Outcome<T>) {
    && second == Outcome(ConversionOK, false, |first.out|, second.out)
    && direct == Outcome(first.stop, first.flagged, first.used, second.out)
  }

  /** With room `m`, `n` and `k`, the two stages of `s` agree with the direct run. */
  ghost predicate Staged<S(!new), U(!new), T(!new)>(
      s: seq<S>, direct: Stepper<S, T>, first: Stepper<S, U>, second: Stepper<U, T>, m: nat, n: nat, k: nat)
    requires Sound(direct) && Sound(first) && Sound(second)
  {
    Agree(Run(s, n, direct), Run(s, m, first), Run(Run(s, m, first).out, k, second))
  }

  lemma {:induction false} RunFactors<S(!new), U(!new), T(!new)>(
      s: seq<S>, direct: Stepper<S, T>, first: Stepper<S, U>, second: Stepper<U, T>, width: nat, m: nat, n: nat, k: nat)
    requires Sound(direct) && Sound(first) && Sound(second) && Factors(direct, first, second, width)
    requires m >= |s| && n >= Times(width, |s|) && k >= Times(width, |s|)
    ensures Staged(s, direct, first, second, m, n, k)
    decreases |s|
  {
    if s != [] {
      TimesMono(width, 0, |s|);
      var now := first(s, m);
      Same(s, direct, first, second, width, m, n);
      if now.Emit? {
        var left, t := s[now.used..], direct(s, n).out;
        TimesMono(width, |left|, |s|);
        RunFactors(left, direct, first, second, width, m - 1, n - |t|, k - |t|);
        FactorOn(s, left, direct, first, second, width, m, n, k, now, t);
      }
    }
  }

  lemma FactorOn<S(!new), U(!new), T(!new)>(
      s: seq<S>, left: seq<S>, direct: Stepper<S, T>, first: Stepper<S, U>, second: Stepper<U, T>, width: nat,
      m: nat, n: nat, k: nat, now: Step<U>, t: seq<T>)
    requires Sound(direct) && Sound(first) && Sound(second) && Factors(direct, first, second, width)
    requires s != [] && m > 0 && n >= width && k >= width && |t| <= width && now == first(s, m) && now.Emit?
    requires SameStep(direct(s, n), now, width) && t == direct(s, n).out && now.used <= |s| && left == s[now.used..]
    requires Staged(left, direct, first, second, m - 1, n - |t|, k - |t|)
    ensures Staged(s, direct, first, second, m, n, k)
  {
    var f := Run(left, m - 1, first);
    SecondStep(s, direct, first, second, width, m, n, k, f.out);
    FactorStep(s, left, direct, first, second, m, n, k, now, t, Run(left, n - |t|, direct), f, Run(f.out, k - |t|, second));
  }

  lemma Same<S(!new), U(!new), T(!new)>(
      s: seq<S>, direct: Stepper<S, T>, first: Stepper<S, U>, second: Stepper<U, T>, width: nat, m: nat, n: nat)
    requires Sound(first) && Factors(direct, first, second, width) && s != [] && m > 0 && n >= width
    ensures SameStep(direct(s, n), first(s, m), width)
    ensures first(s, m).Emit? ==> 0 < first(s, m).used <= |s| && direct(s, n) == Emit(first(s, m).used, direct(s, n).out, false)
  {
  }

  lemma FactorStep<S(!new), U(!new), T(!new)>(
      s: seq<S>, left: seq<S>, direct: Stepper<S, T>, first: Stepper<S, U>, second: Stepper<U, T>,
      m: nat, n: nat, k: nat, now: Step<U>, t: seq<T>, d: Outcome<T>, f: Outcome<U>, e: Outcome<T>)
    requires Sound(direct) && Sound(first) && Sound(second) && s != [] && m > 0 && n >= |t| && k >= |t|
    requires now == first(s, m) && now.Emit? && |now.out| == 1 && !now.flagged
    requires now.used <= |s| && left == s[now.used..]
    requires direct(s, n) == Emit(now.used, t, false) && second(now.out + f.out, k) == Emit(1, t, false)
    requires d == Run(left, n - |t|, direct) && f == Run(left, m - 1, first) && e == Run(f.out, k - |t|, second)
    requires Agree(d, f, e)
    ensures Staged(s, direct, first, second, m, n, k)
  {
    Taken(s, n, direct, Emit(now.used, t, false), left, d);
    Taken(s, m, first, now, left, f);
    assert (now.out + f.out)[1..] == f.out;
    Taken(now.out + f.out, k, second, Emit(1, t, false), f.out, e);
    PrependAgree(now, t, d, f, e);
  }

  lemma SecondStep<S(!new), U(!new), T(!new)>(
      s: seq<S>, direct: Stepper<S, T>, first: Stepper<S, U>, second: Stepper<U, T>, width: nat,
      m: nat, n: nat, k: nat, rest: seq<U>)
    requires Factors(direct, first, second, width) && s != [] && m > 0 && n >= width && k >= width
    requires first(s, m).Emit? && direct(s, n).Emit? && |first(s, m).out| == 1
    ensures second(first(s, m).out + rest, k) == Emit(1, direct(s, n).out, false)
    ensures (first(s, m).out + rest)[1..] == rest
  {
  }

  lemma PrependAgree<T, U>(now: Step<U>, t: seq<T>, direct: Outcome<T>, first: Outcome<U>, second: Outcome<T>)
    requires now.Emit? && |now.out| == 1 && !now.flagged && Agree(direct, first, second)
    ensures Agree(Prepend(Emit(now.used, t, false), direct), Prepend(now, first), Prepend(Emit(1, t, false), second))
  {
  }
}
