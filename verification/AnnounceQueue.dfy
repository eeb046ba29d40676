/** A tracker tier's queue of announce events. */
module AnnounceQueue {
  datatype Event = None | Completed | Started | Stopped

  predicate IsQueue(q: seq<Event>) {
    // No two neighbours are alike.
    && (forall i :: 0 <= i < |q| - 1 ==> q[i] != q[i + 1])
    // A plain announce is only ever last.
    && (forall i :: 0 <= i < |q| - 1 ==> q[i] != None)
    // Before a "stopped" there is at most a "completed".
    && (forall i :: 0 <= i < |q| && q[i] == Stopped ==> i == 0 || (i == 1 && q[0] == Completed))
  }

  // ---- specification ------------------------------------------------------

  function WithoutTrailing(q: seq<Event>, e: Event): (r: seq<Event>)
    ensures |r| <= |q| && r == q[..|r|]
    ensures r == [] || r[|r| - 1] != e
    ensures forall i :: |r| <= i < |q| ==> q[i] == e
  {
    if q == [] || q[|q| - 1] != e then q else WithoutTrailing(q[..|q| - 1], e)
  }

  /** What a "stopped" leaves of the events before it. */
  function Emptied(q: seq<Event>, e: Event): seq<Event> {
    if e != Stopped then q else if Completed in q then [Completed] else []
  }

  function Pushed(q: seq<Event>, e: Event): seq<Event> {
    WithoutTrailing(WithoutTrailing(Emptied(q, e), None), e) + [e]
  }

  // ---- the queue ----------------------------------------------------------

  class Tier {
    var events: seq<Event>
    var announceAt: int

    /** tier_announce_remove_trailing() */
    method RemoveTrailing(e: Event)
      modifies `events
      ensures events == WithoutTrailing(old(events), e)
    {
      while |events| > 0 && events[|events| - 1] == e
        invariant WithoutTrailing(events, e) == WithoutTrailing(old(events), e)
        decreases |events|
      {
        events := events[..|events| - 1];
      }
    }

    /** tier_announce_event_push() */
    method Push(e: Event, at: int)
      modifies this
      ensures events == Pushed(old(events), e) && announceAt == at
    {
      if |events| > 0 {
        if e == Stopped {
          var hasCompleted := false;
          var i := 0;
          while !hasCompleted && i < |events|
            invariant i <= |events|
            invariant hasCompleted <==> Completed in events[..i]
          {
            hasCompleted := events[i] == Completed;
            assert events[..i + 1] == events[..i] + [events[i]];
            i := i + 1;
          }
          assert hasCompleted <==> Completed in events;
          events := [];
          if hasCompleted {
            events := events + [Completed];
          }
        }
        RemoveTrailing(None);
        RemoveTrailing(e);
      }
      events := events + [e];
      announceAt := at;
    }

    /** tier_announce_event_pull() */
    method Pull() returns (e: Event)
      requires |events| > 0
      modifies `events
      ensures [e] + events == old(events)
    {
      e := events[0];
      events := events[1..];
    }
  }

  // ---- what every push and pull keeps -------------------------------------

  lemma PrefixIsQueue(q: seq<Event>, n: nat)
    requires IsQueue(q) && n <= |q|
    ensures IsQueue(q[..n])
  {
  }

  /** Trailing plain announces and trailing repeats go, so the new event has a different neighbour. */
  lemma PushKeeps(q: seq<Event>, e: Event)
    requires IsQueue(q)
    ensures IsQueue(Pushed(q, e))
    ensures Pushed(q, e)[|Pushed(q, e)| - 1] == e
  {
    var a := Emptied(q, e);
    var b := WithoutTrailing(a, None);
    var c := WithoutTrailing(b, e);
    PrefixIsQueue(a, |b|);
    PrefixIsQueue(b, |c|);
    NoneGone(a);
  }

  /** A queue has at most one plain announce to drop. */
  lemma NoneGone(q: seq<Event>)
    requires IsQueue(q)
    ensures None !in WithoutTrailing(q, None)
  {
  }

  lemma PullKeeps(q: seq<Event>)
    requires IsQueue(q) && q != []
    ensures IsQueue(q[1..])
  {
  }

  /** Which events survive a push: all but plain announces, and "started" when stopping. */
  lemma PushRetains(q: seq<Event>, e: Event, kept: Event)
    requires IsQueue(q) && kept in q
    ensures kept in Pushed(q, e) <==> kept == e || (kept != None && !(kept == Started && e == Stopped))
  {
    var a := Emptied(q, e);
    var b := WithoutTrailing(a, None);
    var c := WithoutTrailing(b, e);
    NoneGone(a);
    if kept != e && kept in a && kept != None {
      var i :| 0 <= i < |a| && a[i] == kept;
      assert i < |b| && i < |c|;
      assert Pushed(q, e)[i] == kept;
    }
  }

  // ---- whole runs ---------------------------------------------------------

  datatype Op = Push(e: Event) | Pull

  /** The queue after a run, and the events pulled; pulling from an empty queue is not done. */
  function Ran(q: seq<Event>, ops: seq<Op>): (seq<Event>, seq<Event>)
    decreases |ops|
  {
    if ops == [] then (q, [])
    else if ops[0].Push? then Ran(Pushed(q, ops[0].e), ops[1..])
    else if q == [] then Ran(q, ops[1..])
    else
      var rest := Ran(q[1..], ops[1..]);
      (rest.0, [q[0]] + rest.1)
  }

  /** Every run from an empty tier leaves a well-formed queue. */
  lemma {:induction false} RunKeeps(q: seq<Event>, ops: seq<Op>)
    requires IsQueue(q)
    ensures IsQueue(Ran(q, ops).0)
    decreases |ops|
  {
    if ops != [] {
      if ops[0].Push? {
        PushKeeps(q, ops[0].e);
        RunKeeps(Pushed(q, ops[0].e), ops[1..]);
      } else if q == [] {
        RunKeeps(q, ops[1..]);
      } else {
        PullKeeps(q);
        RunKeeps(q[1..], ops[1..]);
      }
    }
  }

  /** A queued "completed" or "stopped" stays queued until one is pulled, whatever is pushed. */
  lemma {:induction false} StaysUntilPulled(q: seq<Event>, ops: seq<Op>, kept: Event)
    requires IsQueue(q) && kept in q && (kept == Completed || kept == Stopped)
    ensures kept in Ran(q, ops).0 || kept in Ran(q, ops).1
    decreases |ops|
  {
    if ops != [] {
      if ops[0].Push? {
        PushKeeps(q, ops[0].e);
        PushRetains(q, ops[0].e, kept);
        StaysUntilPulled(Pushed(q, ops[0].e), ops[1..], kept);
      } else {
        PullKeeps(q);
        if q[0] != kept {
          StaysUntilPulled(q[1..], ops[1..], kept);
        }
      }
    }
  }

  /** "started" has no such promise: a "stopped" drops it. */
  lemma StartedDropped()
    ensures Ran([Started], [Push(Stopped)]) == ([Stopped], [])
  {
    assert [Push(Stopped)][1..] == [];
    assert Pushed([Started], Stopped) == [Stopped];
  }

  /** Among the events pulled and those still queued, the one at `i` is a "started". */
  predicate StartedAt(r: (seq<Event>, seq<Event>), i: nat) {
    i < |r.1 + r.0| && (r.1 + r.0)[i] == Started
  }

  /** It is there all through the run. */
  predicate StaysAt(q: seq<Event>, ops: seq<Op>, i: nat) {
    forall n :: 0 <= n <= |ops| ==> StartedAt(Ran(q, ops[..n]), i)
  }

  function Pulls(ops: seq<Op>): nat {
    if ops == [] then 0 else (if ops[0].Pull? then 1 else 0) + Pulls(ops[1..])
  }

  /** Whenever a "stopped" is pushed, the event at `i` has been pulled. */
  predicate PulledByStop(ops: seq<Op>, i: nat) {
    forall k :: 0 <= k < |ops| && ops[k] == Push(Stopped) ==> Pulls(ops[..k]) > i
  }

  /** "started" stays queued until it is pulled if and only if no "stopped" is pushed before that. */
  lemma {:induction false} StartedStays(q: seq<Event>, ops: seq<Op>, i: nat)
    requires IsQueue(q) && i < |q| && q[i] == Started
    ensures StaysAt(q, ops, i) <==> PulledByStop(ops, i)
    decreases |ops|
  {
    assert StartedAt(Ran(q, ops[..0]), i);
    if ops != [] {
      if ops[0] == Push(Stopped) {
        StoppedDrops(q, ops, i);
      } else if ops[0].Push? {
        PushKeeps(q, ops[0].e);
        PushInPlace(q, ops[0].e, i);
        StartedStays(Pushed(q, ops[0].e), ops[1..], i);
        AfterPush(q, ops, i);
      } else if i == 0 {
        PulledFirst(q, ops);
      } else {
        PullKeeps(q);
        StartedStays(q[1..], ops[1..], i - 1);
        AfterPull(q, ops, i);
      }
    }
  }

  lemma StoppedDrops(q: seq<Event>, ops: seq<Op>, i: nat)
    requires ops != [] && ops[0] == Push(Stopped)
    ensures !StaysAt(q, ops, i) && !PulledByStop(ops, i)
  {
    assert ops[..1] == [Push(Stopped)] && [Push(Stopped)][1..] == [] && ops[..0] == [];
    assert Started !in Pushed(q, Stopped);
    assert Ran(q, ops[..1]) == (Pushed(q, Stopped), []);
  }

  lemma InPlace(b: seq<Event>, e: Event, i: nat)
    requires IsQueue(b) && i < |b| && b[i] == Started
    ensures var c := WithoutTrailing(b, e);
            i < |c| || (i == |c| && e == Started)
  {
    assert i > 0 ==> b[i - 1] != b[i - 1 + 1];
  }

  /** Other pushes leave it in its place. */
  lemma PushInPlace(q: seq<Event>, e: Event, i: nat)
    requires IsQueue(q) && i < |q| && q[i] == Started && e != Stopped
    ensures i < |Pushed(q, e)| && Pushed(q, e)[i] == Started
  {
    var b := WithoutTrailing(q, None);
    assert i < |b| && b[i] == Started;
    PrefixIsQueue(q, |b|);
    InPlace(b, e, i);
  }

  lemma PrefixShift(ops: seq<Op>, n: nat)
    requires 0 < n <= |ops|
    ensures ops[..n] != [] && ops[..n][0] == ops[0] && ops[..n][1..] == ops[1..][..n - 1]
    ensures Pulls(ops[..n]) == (if ops[0].Pull? then 1 else 0) + Pulls(ops[1..][..n - 1])
  {
  }

  lemma AfterPush(q: seq<Event>, ops: seq<Op>, i: nat)
    requires ops != [] && ops[0].Push? && ops[0].e != Stopped && StartedAt(Ran(q, ops[..0]), i)
    ensures StaysAt(q, ops, i) <==> StaysAt(Pushed(q, ops[0].e), ops[1..], i)
    ensures PulledByStop(ops, i) <==> PulledByStop(ops[1..], i)
  {
    var left := ops[1..];
    forall n: nat | n <= |left|
      ensures Ran(q, ops[..n + 1]) == Ran(Pushed(q, ops[0].e), left[..n]) && Pulls(ops[..n + 1]) == Pulls(left[..n])
    {
      PrefixShift(ops, n + 1);
    }
    ShiftStays(q, ops, i, Pushed(q, ops[0].e), i);
    ShiftStops(ops, i, i);
  }

  lemma AfterPull(q: seq<Event>, ops: seq<Op>, i: nat)
    requires ops != [] && ops[0].Pull? && q != [] && i > 0 && StartedAt(Ran(q, ops[..0]), i)
    ensures StaysAt(q, ops, i) <==> StaysAt(q[1..], ops[1..], i - 1)
    ensures PulledByStop(ops, i) <==> PulledByStop(ops[1..], i - 1)
  {
    var left := ops[1..];
    forall n: nat | n <= |left|
      ensures StartedAt(Ran(q, ops[..n + 1]), i) == StartedAt(Ran(q[1..], left[..n]), i - 1)
      ensures Pulls(ops[..n + 1]) == 1 + Pulls(left[..n])
    {
      PrefixShift(ops, n + 1);
      var r := Ran(q[1..], left[..n]);
      assert ([q[0]] + r.1) + r.0 == [q[0]] + (r.1 + r.0);
    }
    ShiftStays(q, ops, i, q[1..], i - 1);
    ShiftStops(ops, i, i - 1);
  }

  lemma ShiftStays(q: seq<Event>, ops: seq<Op>, i: nat, p: seq<Event>, j: nat)
    requires ops != [] && StartedAt(Ran(q, ops[..0]), i)
    requires forall n: nat :: n <= |ops[1..]| ==> StartedAt(Ran(q, ops[..n + 1]), i) == StartedAt(Ran(p, ops[1..][..n]), j)
    ensures StaysAt(q, ops, i) <==> StaysAt(p, ops[1..], j)
  {
    if StaysAt(p, ops[1..], j) {
      forall n | 0 <= n <= |ops|
        ensures StartedAt(Ran(q, ops[..n]), i)
      {
        if n > 0 {
          assert StartedAt(Ran(q, ops[..n - 1 + 1]), i) == StartedAt(Ran(p, ops[1..][..n - 1]), j);
        }
      }
    }
  }

  lemma ShiftStops(ops: seq<Op>, i: nat, j: nat)
    requires ops != [] && ops[0] != Push(Stopped) && i == j + (if ops[0].Pull? then 1 else 0)
    ensures PulledByStop(ops, i) <==> PulledByStop(ops[1..], j)
  {
    forall k | 0 <= k < |ops[1..]|
      ensures ops[1..][k] == ops[k + 1]
      ensures Pulls(ops[..k + 1]) > i <==> Pulls(ops[1..][..k]) > j
    {
      PrefixShift(ops, k + 1);
    }
    if PulledByStop(ops[1..], j) {
      forall k | 0 <= k < |ops| && ops[k] == Push(Stopped)
        ensures Pulls(ops[..k]) > i
      {
        assert ops[1..][k - 1] == ops[k - 1 + 1];
      }
    } else {
      var k :| 0 <= k < |ops[1..]| && ops[1..][k] == Push(Stopped) && !(Pulls(ops[1..][..k]) > j);
      assert ops[k + 1] == Push(Stopped);
    }
  }

  lemma PulledFirst(q: seq<Event>, ops: seq<Op>)
    requires q != [] && q[0] == Started && ops != [] && ops[0].Pull? && StartedAt(Ran(q, ops[..0]), 0)
    ensures StaysAt(q, ops, 0) && PulledByStop(ops, 0)
  {
    forall n | 0 < n <= |ops|
      ensures StartedAt(Ran(q, ops[..n]), 0) && Pulls(ops[..n]) > 0
    {
      PrefixShift(ops, n);
    }
  }

  /** A well-formed queue has at most one "stopped", and at most one "completed" before it. */
  lemma OneStopped(q: seq<Event>, i: nat, j: nat)
    requires IsQueue(q) && i < |q| && j < |q| && q[i] == q[j] == Stopped
    ensures i == j && i <= 1 && (i == 1 ==> q[0] == Completed)
  {
  }
}
