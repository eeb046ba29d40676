/**
 * A conversion takes one character after another until the source is used up
 * or a character cannot be taken. What it does with one character is a step;
 * this module is about runs of any step.
 */
module UtfRun {
  datatype Result = ConversionOK | SourceExhausted | TargetExhausted | SourceIllegal

  /** Take `used` units and write `out`, or stop; `flagged` means the result is already SourceIllegal. */
  datatype Step<T> = Emit(used: nat, out: seq<T>, flagged: bool) | Stop(result: Result)

  /** Why a run ended, whether it was flagged on the way, and what it read and wrote. */
  datatype Outcome<T> = Outcome(stop: Result, flagged: bool, used: nat, out: seq<T>) {
    function Result(): Result {
      if stop == ConversionOK && flagged then SourceIllegal else stop
    }
  }

  /** The source units left and the room left in the target decide what is done. */
  type Stepper<!S, !T> = (seq<S>, nat) -> Step<T>

  /** A step reads what is there, and writes what fits; a stop has a reason. */
  ghost predicate Sound<S(!new), T>(step: Stepper<S, T>) {
    forall s: seq<S>, room: nat :: s != [] ==>
      match step(s, room)
      case Emit(used, out, _) => 0 < used <= |s| && |out| <= room
      case Stop(result) => result != ConversionOK
  }

  /** More room changes nothing but that a step need not stop for lack of it. */
  ghost predicate Monotone<S(!new), T(!new)>(step: Stepper<S, T>) {
    forall s: seq<S>, n: nat, m: nat :: n <= m && step(s, n) != Stop(TargetExhausted) ==> step(s, m) == step(s, n)
  }

  function Prepend<T>(now: Step<T>, rest: Outcome<T>): Outcome<T>
    requires now.Emit?
  {
    Outcome(rest.stop, now.flagged || rest.flagged, now.used + rest.used, now.out + rest.out)
  }

  ghost function Run<S(!new), T>(source: seq<S>, room: nat, step: Stepper<S, T>): (r: Outcome<T>)
    requires Sound(step)
    ensures r.used <= |source| && |r.out| <= room
    ensures r.stop == ConversionOK ==> r.used == |source|
    decreases |source|
  {
    if source == [] then Outcome(ConversionOK, false, 0, [])
    else
      match step(source, room)
      case Stop(result) => Outcome(result, false, 0, [])
      case Emit(used, out, _) => Prepend(step(source, room), Run(source[used..], room - |out|, step))
  }

  lemma Taken<S(!new), T>(source: seq<S>, room: nat, step: Stepper<S, T>, now: Step<T>, left: seq<S>, rest: Outcome<T>)
    requires Sound(step) && source != [] && now.Emit? && step(source, room) == now
    requires now.used <= |source| && left == source[now.used..]
    requires |now.out| <= room && rest == Run(left, room - |now.out|, step)
    ensures Run(source, room, step) == Prepend(now, rest)
  {
  }

  /** `whole` is what has been done so far, followed by `rest`. */
  predicate Continues<T(==)>(whole: Outcome<T>, flagged: bool, used: nat, out: seq<T>, rest: Outcome<T>) {
    && whole.stop == rest.stop
    && whole.flagged == (flagged || rest.flagged)
    && whole.used == used + rest.used
    && whole.out == out + rest.out
  }

  lemma Started<S(!new), T>(source: seq<S>, room: nat, step: Stepper<S, T>)
    requires Sound(step)
    ensures Continues(Run(source, room, step), false, 0, [], Run(source[0..], room, step))
  {
    assert source[0..] == source;
    assert [] + Run(source, room, step).out == Run(source, room, step).out;
  }

  lemma Stepped<S(!new), T>(whole: Outcome<T>, flagged: bool, used: nat, out: seq<T>,
                            source: seq<S>, room: nat, step: Stepper<S, T>)
    requires Sound(step) && used < |source| && step(source[used..], room).Emit?
    requires Continues(whole, flagged, used, out, Run(source[used..], room, step))
    ensures var now := step(source[used..], room);
            && used + now.used <= |source| && |now.out| <= room
            && Continues(whole, flagged || now.flagged, used + now.used, out + now.out,
                         Run(source[used + now.used..], room - |now.out|, step))
  {
    var now := step(source[used..], room);
    assert source[used..][now.used..] == source[used + now.used..];
    var rest := Run(source[used + now.used..], room - |now.out|, step);
    assert (out + now.out) + rest.out == out + (now.out + rest.out);
  }

  lemma Ended<S(!new), T>(whole: Outcome<T>, flagged: bool, used: nat, out: seq<T>,
                          source: seq<S>, room: nat, step: Stepper<S, T>)
    requires Sound(step) && used <= |source|
    requires used < |source| ==> step(source[used..], room).Stop?
    requires Continues(whole, flagged, used, out, Run(source[used..], room, step))
    ensures whole == Outcome(if used < |source| then step(source[used..], room).result else ConversionOK, flagged, used, out)
  {
    assert out + [] == out;
  }

  lemma RunEmits<S(!new), T>(source: seq<S>, room: nat, step: Stepper<S, T>)
    requires Sound(step) && source != [] && step(source, room).Emit?
    ensures var now := step(source, room);
            Continues(Run(source, room, step), now.flagged, now.used, now.out,
                      Run(source[now.used..], room - |now.out|, step))
  {
  }

  lemma Chained<T>(whole: Outcome<T>, f1: bool, u1: nat, o1: seq<T>, mid: Outcome<T>,
                   f2: bool, u2: nat, o2: seq<T>, rest: Outcome<T>)
    requires Continues(whole, f1, u1, o1, mid) && Continues(mid, f2, u2, o2, rest)
    ensures Continues(whole, f1 || f2, u1 + u2, o1 + o2, rest)
  {
    assert (o1 + o2) + rest.out == o1 + (o2 + rest.out);
  }

  lemma DropTwice<S>(s: seq<S>, m: nat, n: nat)
    requires m + n <= |s|
    ensures s[m..][n..] == s[m + n..]
  {
  }

  /** With the room `first` used and `more`, a run does what `first` did and then what a run of the rest does. */
  ghost predicate Resumes<S(!new), T>(source: seq<S>, more: nat, step: Stepper<S, T>, first: Outcome<T>)
    requires Sound(step) && first.used <= |source|
  {
    Continues(Run(source, |first.out| + more, step), first.flagged, first.used, first.out,
              Run(source[first.used..], more, step))
  }

  /**
   * Stopping for lack of room and resuming in a fresh buffer of `more` units
   * reads and writes what one run in the combined room does.
   */
  lemma {:induction false} Resumed<S(!new), T(!new)>(source: seq<S>, room: nat, more: nat, step: Stepper<S, T>,
                                                     first: Outcome<T>)
    requires Sound(step) && Monotone(step)
    requires first == Run(source, room, step) && first.stop == TargetExhausted && room <= |first.out| + more
    ensures Resumes(source, more, step, first)
    decreases |source|
  {
    var now := step(source, room);
    if now.Stop? {
      AtOnce(source, room, more, step, first);
    } else {
      var left := source[now.used..];
      var tail := Run(left, room - |now.out|, step);
      Unfolded(source, room, step, now, first, tail);
      Resumed(left, room - |now.out|, more, step, tail);
      ResumedOn(source, room, more, step, now, first, left, tail);
    }
  }

  lemma ResumedOn<S(!new), T(!new)>(source: seq<S>, room: nat, more: nat, step: Stepper<S, T>, now: Step<T>,
                                    first: Outcome<T>, left: seq<S>, tail: Outcome<T>)
    requires Sound(step) && Monotone(step) && source != [] && now == step(source, room) && now.Emit?
    requires left == source[now.used..] && room <= |first.out| + more
    requires Continues(first, now.flagged, now.used, now.out, tail) && first.used <= |source|
    requires |first.out| == |now.out| + |tail.out| && Resumes(left, more, step, tail)
    ensures Resumes(source, more, step, first)
  {
    MoreRoom(source, room, |first.out| + more, step);
    DropTwice(source, now.used, tail.used);
    ResumedStep(source, step, |first.out| + more, now, first, tail, Run(source[first.used..], more, step));
  }

  lemma AtOnce<S(!new), T>(source: seq<S>, room: nat, more: nat, step: Stepper<S, T>, first: Outcome<T>)
    requires Sound(step) && (source == [] || step(source, room).Stop?) && first == Run(source, room, step)
    ensures Resumes(source, more, step, first)
  {
    Started(source, more, step);
  }

  lemma Unfolded<S(!new), T>(source: seq<S>, room: nat, step: Stepper<S, T>, now: Step<T>, first: Outcome<T>, tail: Outcome<T>)
    requires Sound(step) && source != [] && now == step(source, room) && now.Emit?
    requires first == Run(source, room, step) && tail == Run(source[now.used..], room - |now.out|, step)
    ensures Continues(first, now.flagged, now.used, now.out, tail)
    ensures now.used + tail.used == first.used <= |source| && |first.out| == |now.out| + |tail.out|
  {
  }

  lemma MoreRoom<S(!new), T(!new)>(source: seq<S>, n: nat, m: nat, step: Stepper<S, T>)
    requires Monotone(step) && n <= m && step(source, n).Emit?
    ensures step(source, m) == step(source, n)
  {
  }

  lemma ResumedStep<S(!new), T(!new)>(source: seq<S>, step: Stepper<S, T>, room: nat, now: Step<T>,
                                      first: Outcome<T>, tail: Outcome<T>, rest: Outcome<T>)
    requires Sound(step) && source != [] && now.Emit? && now == step(source, room)
    requires Continues(first, now.flagged, now.used, now.out, tail)
    requires Continues(Run(source[now.used..], room - |now.out|, step), tail.flagged, tail.used, tail.out, rest)
    ensures Continues(Run(source, room, step), first.flagged, first.used, first.out, rest)
  {
    RunEmits(source, room, step);
    Chained(Run(source, room, step), now.flagged, now.used, now.out,
            Run(source[now.used..], room - |now.out|, step), tail.flagged, tail.used, tail.out, rest);
  }

  /** The result agrees too, except that an earlier replacement is forgotten once the first run has stopped. */
  lemma ResumedResult<S(!new), T(!new)>(source: seq<S>, room: nat, more: nat, step: Stepper<S, T>,
                                        first: Outcome<T>, rest: Outcome<T>)
    requires Sound(step) && Monotone(step)
    requires first == Run(source, room, step) && first.stop == TargetExhausted && room <= |first.out| + more
    requires rest == Run(source[first.used..], more, step)
    ensures Run(source, |first.out| + more, step).Result() == rest.Result()
            <==> !(first.flagged && rest.Result() == ConversionOK)
  {
    Resumed(source, room, more, step, first);
  }
}
