/**
 * The transfer history behind a speed: ten slots in a ring, each collecting
 * the bytes of about 200 ms, and a speed kept until the next transfer.
 */
module RateHistory {
  const HISTORY_MSEC: nat := 2000
  const GRANULARITY_MSEC: nat := 200
  const HISTORY_SIZE: nat := 10

  datatype Slot = Slot(date: nat, size: nat)

  /** One transfer: when, how much, and which of the slots opened so far took it. */
  datatype Entry = Entry(time: nat, size: nat, slot: nat)

  // ---- sums over the log --------------------------------------------------

  /** The bytes that went into slot `k`. */
  ghost function SlotSum(log: seq<Entry>, k: int): nat {
    if log == [] then 0
    else SlotSum(log[..|log| - 1], k) + if log[|log| - 1].slot == k then log[|log| - 1].size else 0
  }

  /** The bytes that went into slots from `k` on. */
  ghost function SumFrom(log: seq<Entry>, k: int): nat {
    if log == [] then 0
    else SumFrom(log[..|log| - 1], k) + if log[|log| - 1].slot >= k then log[|log| - 1].size else 0
  }

  /** All bytes transferred after `time`. */
  ghost function Since(log: seq<Entry>, time: int): nat {
    if log == [] then 0
    else Since(log[..|log| - 1], time) + if log[|log| - 1].time > time then log[|log| - 1].size else 0
  }

  lemma {:induction false} SumStep(log: seq<Entry>, k: int)
    ensures SumFrom(log, k) == SlotSum(log, k) + SumFrom(log, k + 1)
  {
    if log != [] {
      SumStep(log[..|log| - 1], k);
    }
  }

  lemma {:induction false} SumNone(log: seq<Entry>, k: int)
    requires forall e :: e in log ==> e.slot < k
    ensures SumFrom(log, k) == 0 && SlotSum(log, k) == 0
  {
    if log != [] {
      assert log[|log| - 1] in log;
      SumNone(log[..|log| - 1], k);
    }
  }

  lemma LogOne(log: seq<Entry>, e: Entry, k: int)
    ensures SlotSum(log + [e], k) == SlotSum(log, k) + if e.slot == k then e.size else 0
  {
    assert (log + [e])[..|log|] == log;
  }

  // ---- the history --------------------------------------------------------

  /** Slots are opened more than 200 ms apart, and each takes what comes within 200 ms of its opening. */
  ghost predicate Recorded(log: seq<Entry>, dates: seq<nat>) {
    && dates != []
    && (forall k :: 0 <= k < |dates| - 1 ==> dates[k] + GRANULARITY_MSEC < dates[k + 1])
    && (forall e :: e in log ==> e.slot < |dates| && dates[e.slot] <= e.time <= dates[e.slot] + GRANULARITY_MSEC)
  }

  lemma {:induction false} Spaced(dates: seq<nat>, j: nat, k: nat)
    requires j <= k < |dates|
    requires forall i :: 0 <= i < |dates| - 1 ==> dates[i] + GRANULARITY_MSEC < dates[i + 1]
    ensures dates[j] + (GRANULARITY_MSEC + 1) * (k - j) <= dates[k]
    decreases k
  {
    if j < k {
      Spaced(dates, j, k - 1);
    }
  }

  /** What a slot holds `c` places behind the newest. */
  ghost function Older(log: seq<Entry>, dates: seq<nat>, c: nat): Slot {
    if c < |dates| then Slot(dates[|dates| - 1 - c], SlotSum(log, |dates| - 1 - c)) else Slot(0, 0)
  }

  /** The ring position `c` places behind `newest`. */
  function Behind(newest: nat, c: nat): nat
    requires newest < HISTORY_SIZE && c < HISTORY_SIZE
  {
    if c <= newest then newest - c else newest + HISTORY_SIZE - c
  }

  /** One step back round the ring. */
  function Previous(i: nat): nat {
    if i == 0 then HISTORY_SIZE - 1 else i - 1
  }

  ghost predicate RingOk(ring: seq<Slot>, newest: nat, log: seq<Entry>, dates: seq<nat>) {
    && |ring| == HISTORY_SIZE && newest < HISTORY_SIZE
    && forall c: nat :: c < HISTORY_SIZE ==> ring[Behind(newest, c)] == Older(log, dates, c)
  }

  /**
   * The slots from `first` on are exactly those opened after `cutoff`. Ten
   * slots are enough to hold them all.
   */
  ghost predicate WindowStarts(dates: seq<nat>, cutoff: nat, first: int) {
    && (forall k: nat :: k < |dates| && k < first ==> dates[k] <= cutoff)
    && (forall k: nat :: k < |dates| && first <= k ==> dates[k] > cutoff)
  }

  /** What the speed is worked out from: the bytes of the slots opened after `now - 2000`. */
  ghost function InWindow(log: seq<Entry>, dates: seq<nat>, cutoff: nat): nat {
    if log == [] then 0
    else
      var e := log[|log| - 1];
      InWindow(log[..|log| - 1], dates, cutoff) + if e.slot < |dates| && dates[e.slot] > cutoff then e.size else 0
  }

  lemma {:induction false} WindowSum(log: seq<Entry>, dates: seq<nat>, cutoff: nat, first: int)
    requires Recorded(log, dates) && WindowStarts(dates, cutoff, first)
    ensures InWindow(log, dates, cutoff) == SumFrom(log, first)
  {
    if log != [] {
      assert log[|log| - 1] in log;
      WindowSum(log[..|log| - 1], dates, cutoff, first);
    }
  }

  /**
   * The bytes counted are at least those of the last 1800 ms and at most those
   * of the last 2000 ms.
   */
  lemma {:induction false} WindowBounds(log: seq<Entry>, dates: seq<nat>, now: nat)
    requires Recorded(log, dates) && now >= HISTORY_MSEC
    ensures Since(log, now - (HISTORY_MSEC - GRANULARITY_MSEC))
            <= InWindow(log, dates, now - HISTORY_MSEC) <= Since(log, now - HISTORY_MSEC)
  {
    if log != [] {
      assert log[|log| - 1] in log;
      WindowBounds(log[..|log| - 1], dates, now);
    }
  }

  /** A slot that is not older than the cutoff is still in the ring. */
  lemma TenAreEnough(dates: seq<nat>, now: nat, k: nat)
    requires dates != [] && forall i :: 0 <= i < |dates| - 1 ==> dates[i] + GRANULARITY_MSEC < dates[i + 1]
    requires dates[|dates| - 1] <= now && HISTORY_MSEC <= now && k + HISTORY_SIZE < |dates|
    ensures dates[k] <= now - HISTORY_MSEC
  {
    Spaced(dates, k, |dates| - 1);
    assert (GRANULARITY_MSEC + 1) * (|dates| - 1 - k) >= (GRANULARITY_MSEC + 1) * HISTORY_SIZE;
  }

  /** The `c` newest slots are all in the window. */
  ghost predicate Newer(dates: seq<nat>, c: nat, cutoff: nat) {
    forall k: nat :: |dates| - c <= k < |dates| ==> dates[k] > cutoff
  }

  /** The search from the newest slot back has stopped `c` places behind it. */
  lemma StoppedAt(dates: seq<nat>, now: nat, c: nat)
    requires dates != [] && forall i :: 0 <= i < |dates| - 1 ==> dates[i] + GRANULARITY_MSEC < dates[i + 1]
    requires dates[|dates| - 1] <= now && HISTORY_MSEC <= now && c <= HISTORY_SIZE
    requires Newer(dates, c, now - HISTORY_MSEC)
    requires c < HISTORY_SIZE && c < |dates| ==> dates[|dates| - 1 - c] <= now - HISTORY_MSEC
    ensures WindowStarts(dates, now - HISTORY_MSEC, |dates| - c)
  {
    forall k: nat | k < |dates| && k < |dates| - c
      ensures dates[k] <= now - HISTORY_MSEC
    {
      if c == HISTORY_SIZE {
        TenAreEnough(dates, now, k);
      } else {
        Spaced(dates, k, |dates| - 1 - c);
      }
    }
  }

  /** The `c` newest slots are in the window, and hold `bytes`. */
  ghost predicate Summed(log: seq<Entry>, dates: seq<nat>, cutoff: nat, c: nat, bytes: nat) {
    Newer(dates, c, cutoff) && bytes == SumFrom(log, |dates| - c)
  }

  /** One slot further back: what it adds to the sum. */
  lemma OneBack(ring: seq<Slot>, newest: nat, log: seq<Entry>, dates: seq<nat>, c: nat, cutoff: nat, bytes: nat)
    requires RingOk(ring, newest, log, dates) && c < HISTORY_SIZE && Summed(log, dates, cutoff, c, bytes)
    ensures ring[Behind(newest, c)].date == if c < |dates| then dates[|dates| - 1 - c] else 0
    ensures ring[Behind(newest, c)].date > cutoff
            ==> Summed(log, dates, cutoff, c + 1, bytes + ring[Behind(newest, c)].size)
  {
    assert ring[Behind(newest, c)] == Older(log, dates, c);
    SumStep(log, |dates| - 1 - c);
  }

  lemma WindowSeen(log: seq<Entry>, dates: seq<nat>, now: nat, c: nat, bytes: nat)
    requires Recorded(log, dates) && dates[|dates| - 1] <= now && HISTORY_MSEC <= now && c <= HISTORY_SIZE
    requires Summed(log, dates, now - HISTORY_MSEC, c, bytes)
    requires c < HISTORY_SIZE && c < |dates| ==> dates[|dates| - 1 - c] <= now - HISTORY_MSEC
    ensures bytes == InWindow(log, dates, now - HISTORY_MSEC)
  {
    StoppedAt(dates, now, c);
    WindowSum(log, dates, now - HISTORY_MSEC, |dates| - c);
  }

  /** Bytes a second, in an unsigned int. */
  function Speed(bytes: nat): nat { (bytes * 1000 / HISTORY_MSEC) % 0x1_0000_0000 }

  class Rate {
    var newest: nat
    const transfers: array<Slot>
    var cacheTime: nat
    var cacheVal: nat
    ghost var log: seq<Entry>
    ghost var dates: seq<nat>

    /** The ring says what the last ten slots took, and a kept speed is right for the time it was worked out for. */
    ghost predicate Valid()
      reads this, transfers
    {
      && transfers.Length == HISTORY_SIZE
      && Recorded(log, dates) && RingOk(transfers[..], newest, log, dates)
      && (cacheTime != 0 ==> cacheTime >= HISTORY_MSEC && cacheVal == Speed(InWindow(log, dates, cacheTime - HISTORY_MSEC)))
    }

    /** Time has not gone back since the last transfer. */
    ghost predicate NotBefore(now: nat)
      reads this
    {
      dates != [] && dates[|dates| - 1] <= now
    }

    constructor ()
      ensures Valid() && log == [] && dates == [0]
      ensures fresh(transfers)
    {
      newest := 0;
      cacheTime := 0;
      cacheVal := 0;
      log := [];
      dates := [0];
      transfers := new Slot[HISTORY_SIZE](i => Slot(0, 0));
    }

    method IntoNewest(now: nat, size: nat)
      requires Valid() && NotBefore(now) && transfers[newest].date + GRANULARITY_MSEC >= now
      modifies this`log, this`cacheTime, transfers
      ensures Valid() && NotBefore(now) && log == old(log) + [Entry(now, size, |dates| - 1)]
    {
      ghost var ring := transfers[..];
      Newest(ring, newest, log, dates);
      transfers[newest] := Slot(transfers[newest].date, transfers[newest].size + size);
      log := log + [Entry(now, size, |dates| - 1)];
      Extended(ring, transfers[..], newest, old(log), log, dates, now, size);
      cacheTime := 0;
    }

    method IntoNext(now: nat, size: nat)
      requires Valid() && NotBefore(now) && transfers[newest].date + GRANULARITY_MSEC < now
      modifies this, transfers
      ensures Valid() && NotBefore(now) && log == old(log) + [Entry(now, size, |dates| - 1)]
      ensures dates == old(dates) + [now]
    {
      ghost var ring, before := transfers[..], newest;
      Newest(ring, newest, log, dates);
      newest := newest + 1;
      if newest == HISTORY_SIZE {
        newest := 0;
      }
      transfers[newest] := Slot(now, size);
      dates := dates + [now];
      log := log + [Entry(now, size, |dates| - 1)];
      Opened(ring, transfers[..], before, newest, old(log), log, old(dates), dates, now, size);
      cacheTime := 0;
    }

    /** bytesUsed(): into the newest slot while it is young, else into a new one in the oldest one's place. */
    method BytesUsed(now: nat, size: nat)
      requires Valid() && NotBefore(now)
      modifies this, transfers
      ensures Valid() && NotBefore(now) && log == old(log) + [Entry(now, size, |dates| - 1)]
    {
      if transfers[newest].date + GRANULARITY_MSEC >= now {
        IntoNewest(now, size);
      } else {
        IntoNext(now, size);
      }
    }

    /** The loop of getSpeed_Bps(): back from the newest slot until one is too old or all have been seen. */
    method WindowBytes(now: nat) returns (bytes: nat)
      requires Valid() && NotBefore(now) && now >= HISTORY_MSEC
      ensures bytes == InWindow(log, dates, now - HISTORY_MSEC)
    {
      var cutoff := now - HISTORY_MSEC;
      var i := newest;
      ghost var c: nat, ring := 0, transfers[..];
      bytes := 0;
      SumNone(log, |dates|);
      while true
        invariant c < HISTORY_SIZE && i == Behind(newest, c)
        invariant Summed(log, dates, cutoff, c, bytes)
        decreases HISTORY_SIZE - c
      {
        OneBack(ring, newest, log, dates, c, cutoff, bytes);
        assert transfers[i] == ring[i];
        if transfers[i].date <= cutoff {
          break;
        }
        bytes := bytes + transfers[i].size;
        c := c + 1;
        i := Previous(i);
        if i == newest {
          break;
        }
      }
      WindowSeen(log, dates, now, c, bytes);
    }

    /** getSpeed_Bps(): a kept speed is never out of date. */
    method GetSpeed(now: nat) returns (speed: nat)
      requires Valid() && NotBefore(now) && now >= HISTORY_MSEC
      modifies `cacheVal, `cacheTime
      ensures Valid() && speed == Speed(InWindow(log, dates, now - HISTORY_MSEC))
    {
      if now != cacheTime {
        var bytes := WindowBytes(now);
        cacheVal := Speed(bytes);
        cacheTime := now;
      }
      speed := cacheVal;
    }
  }

  lemma Newest(ring: seq<Slot>, newest: nat, log: seq<Entry>, dates: seq<nat>)
    requires RingOk(ring, newest, log, dates) && dates != []
    ensures ring[newest] == Slot(dates[|dates| - 1], SlotSum(log, |dates| - 1))
  {
    assert Behind(newest, 0) == newest && ring[Behind(newest, 0)] == Older(log, dates, 0);
  }

  lemma Extended(ring: seq<Slot>, ring': seq<Slot>, newest: nat, log: seq<Entry>, log': seq<Entry>, dates: seq<nat>, now: nat, size: nat)
    requires Recorded(log, dates) && RingOk(ring, newest, log, dates)
    requires dates[|dates| - 1] <= now <= dates[|dates| - 1] + GRANULARITY_MSEC
    requires log' == log + [Entry(now, size, |dates| - 1)]
    requires ring' == ring[newest := Slot(ring[newest].date, ring[newest].size + size)]
    ensures Recorded(log', dates) && RingOk(ring', newest, log', dates)
  {
    forall c: nat | c < HISTORY_SIZE
      ensures ring'[Behind(newest, c)] == Older(log', dates, c)
    {
      assert ring[Behind(newest, c)] == Older(log, dates, c);
      LogOne(log, Entry(now, size, |dates| - 1), |dates| - 1 - c);
    }
  }

  lemma Opened(ring: seq<Slot>, ring': seq<Slot>, newest: nat, newest': nat, log: seq<Entry>, log': seq<Entry>,
               dates: seq<nat>, dates': seq<nat>, now: nat, size: nat)
    requires Recorded(log, dates) && RingOk(ring, newest, log, dates)
    requires dates[|dates| - 1] + GRANULARITY_MSEC < now
    requires dates' == dates + [now] && log' == log + [Entry(now, size, |dates|)]
    requires newest' == (if newest + 1 == HISTORY_SIZE then 0 else newest + 1) && ring' == ring[newest' := Slot(now, size)]
    ensures Recorded(log', dates') && RingOk(ring', newest', log', dates')
  {
    SumNone(log, |dates|);
    forall c: nat | c < HISTORY_SIZE
      ensures ring'[Behind(newest', c)] == Older(log', dates', c)
    {
      LogOne(log, Entry(now, size, |dates|), |dates| - c);
      if c > 0 {
        assert Behind(newest', c) == Behind(newest, c - 1);
        assert ring[Behind(newest, c - 1)] == Older(log, dates, c - 1);
      }
    }
  }
}
