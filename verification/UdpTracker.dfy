/**
 * The client of one UDP tracker (BEP 15): requests wait for an address and a
 * connection, are sent, and are answered by a reply, an error or a timeout.
 */
module UdpTracker {
  const TAU_CONNECTION_TTL_SECS: nat := 60
  const TAU_REQUEST_TTL: nat := 60
  const DNS_TTL_SECS: nat := 3600

  datatype Action = Connect | Announce | Scrape | Error

  function ActionOf(id: nat): Action {
    if id == 0 then Connect else if id == 1 then Announce else if id == 2 then Scrape else Error
  }

  /** is_tau_response_message(), for a message in which there is an action. */
  predicate IsResponse(action: nat, length: nat) {
    && length >= 8
    && (|| (action == 0 && length == 16)
        || ((action == 1 || action == 2) && length >= 20)
        || action == 3)
  }

  /** `sentAt` is 0 until the request has been sent. */
  datatype Request = Request(id: nat, hasCallback: bool, createdAt: nat, sentAt: nat, transactionId: nat)

  /** One callback: which request it answers, and how it came about. */
  datatype Answer = Answer(id: nat, didConnect: bool, didTimeout: bool)

  // ---- who is waiting, and who has been answered --------------------------

  function One(b: bool): nat { if b then 1 else 0 }

  predicate IsFor(r: Request, id: nat) { r.hasCallback && r.id == id }

  /** How often a list has a request that is to be called back as `id`. */
  ghost function Waiting(reqs: seq<Request>, id: nat): nat {
    if reqs == [] then 0 else Waiting(reqs[1..], id) + One(IsFor(reqs[0], id))
  }

  /** How often `id` has been called back. */
  ghost function Answered(answers: seq<Answer>, id: nat): nat {
    if answers == [] then 0 else Answered(answers[..|answers| - 1], id) + One(answers[|answers| - 1].id == id)
  }

  lemma {:induction false} WaitingJoins(a: seq<Request>, b: seq<Request>, id: nat)
    ensures Waiting(a + b, id) == Waiting(a, id) + Waiting(b, id)
  {
    if a == [] {
      assert a + b == b;
    } else {
      assert (a + b)[1..] == a[1..] + b;
      WaitingJoins(a[1..], b, id);
    }
  }

  lemma WaitingAt(reqs: seq<Request>, i: nat, id: nat)
    requires i < |reqs|
    ensures Waiting(reqs, id) == Waiting(reqs[..i], id) + One(IsFor(reqs[i], id)) + Waiting(reqs[i + 1..], id)
  {
    assert reqs == reqs[..i] + reqs[i..];
    WaitingJoins(reqs[..i], reqs[i..], id);
    assert reqs[i..][1..] == reqs[i + 1..];
  }

  lemma AnsweredMore(answers: seq<Answer>, a: Answer, id: nat)
    ensures Answered(answers + [a], id) == Answered(answers, id) + One(a.id == id)
  {
    assert (answers + [a])[..|answers|] == answers;
  }

  // ---- lists of requests --------------------------------------------------

  function Without(reqs: seq<Request>, i: nat): seq<Request>
    requires i < |reqs|
  {
    reqs[..i] + reqs[i + 1..]
  }

  lemma WaitingWithout(reqs: seq<Request>, i: nat, id: nat)
    requires i < |reqs|
    ensures Waiting(reqs, id) == Waiting(Without(reqs, i), id) + One(IsFor(reqs[i], id))
  {
    WaitingAt(reqs, i, id);
    WaitingJoins(reqs[..i], reqs[i + 1..], id);
  }

  lemma WaitingAppend(reqs: seq<Request>, r: Request, id: nat)
    ensures Waiting(reqs + [r], id) == Waiting(reqs, id) + One(IsFor(r, id))
  {
    WaitingJoins(reqs, [r], id);
    assert [r][1..] == [];
  }

  lemma SplitLast(reqs: seq<Request>)
    requires reqs != []
    ensures reqs == reqs[..|reqs| - 1] + [reqs[|reqs| - 1]]
  {
  }

  /** The callbacks for failed or answered requests: one for each that has a callback, in order. */
  function Answers(reqs: seq<Request>, didConnect: bool, didTimeout: bool): seq<Answer> {
    if reqs == [] then []
    else
      Answers(reqs[..|reqs| - 1], didConnect, didTimeout)
        + if reqs[|reqs| - 1].hasCallback then [Answer(reqs[|reqs| - 1].id, didConnect, didTimeout)] else []
  }

  lemma {:induction false} AnswersCount(answers: seq<Answer>, reqs: seq<Request>, didConnect: bool, didTimeout: bool, id: nat)
    ensures Answered(answers + Answers(reqs, didConnect, didTimeout), id) == Answered(answers, id) + Waiting(reqs, id)
  {
    if reqs == [] {
      assert answers + [] == answers;
    } else {
      var init, r := reqs[..|reqs| - 1], reqs[|reqs| - 1];
      AnswersCount(answers, init, didConnect, didTimeout, id);
      WaitingAppend(init, r, id);
      SplitLast(reqs);
      var before := answers + Answers(init, didConnect, didTimeout);
      AnsweredMore(before, Answer(r.id, didConnect, didTimeout), id);
      assert answers + Answers(reqs, didConnect, didTimeout)
          == if r.hasCallback then before + [Answer(r.id, didConnect, didTimeout)] else before;
    }
  }

  /** Nothing is lost or doubled when some waiting requests are answered instead. */
  ghost predicate Moved(reqs: seq<Request>, answers: seq<Answer>, reqs': seq<Request>, answers': seq<Answer>) {
    && answers <= answers'
    && forall id: nat :: Waiting(reqs', id) + Answered(answers', id) == Waiting(reqs, id) + Answered(answers, id)
  }

  lemma AllAnswered(reqs: seq<Request>, answers: seq<Answer>, didConnect: bool, didTimeout: bool)
    ensures Moved(reqs, answers, [], answers + Answers(reqs, didConnect, didTimeout))
  {
    forall id: nat
      ensures Answered(answers + Answers(reqs, didConnect, didTimeout), id) == Answered(answers, id) + Waiting(reqs, id)
    {
      AnswersCount(answers, reqs, didConnect, didTimeout, id);
    }
  }

  /** The callback, if there is one. */
  method Finish(r: Request, didConnect: bool, didTimeout: bool, answers: seq<Answer>) returns (now: seq<Answer>)
    ensures now == answers + Answers([r], didConnect, didTimeout)
  {
    assert Answers([r], didConnect, didTimeout) == if r.hasCallback then [Answer(r.id, didConnect, didTimeout)] else [];
    now := answers;
    if r.hasCallback {
      now := now + [Answer(r.id, didConnect, didTimeout)];
    }
  }

  lemma AnswersLast(reqs: seq<Request>, i: nat, didConnect: bool, didTimeout: bool)
    requires i < |reqs|
    ensures Answers(reqs[..i + 1], didConnect, didTimeout)
            == Answers(reqs[..i], didConnect, didTimeout) + Answers([reqs[i]], didConnect, didTimeout)
  {
    assert reqs[..i + 1][..i] == reqs[..i];
    assert [reqs[i]][..0] == [];
  }

  /** Fail every request of a list. */
  method FailList(reqs: seq<Request>, didConnect: bool, didTimeout: bool, answers: seq<Answer>) returns (now: seq<Answer>)
    ensures now == answers + Answers(reqs, didConnect, didTimeout)
    ensures Moved(reqs, answers, [], now)
  {
    now := answers;
    for i := 0 to |reqs|
      invariant now == answers + Answers(reqs[..i], didConnect, didTimeout)
    {
      AnswersLast(reqs, i, didConnect, didTimeout);
      now := Finish(reqs[i], didConnect, didTimeout, now);
    }
    assert reqs[..|reqs|] == reqs;
    AllAnswered(reqs, answers, didConnect, didTimeout);
  }

  // ---- sending ------------------------------------------------------------

  /** A request that had not been sent now has; if nobody waits for it, it goes. */
  function Marked(reqs: seq<Request>, now: nat): seq<Request> {
    if reqs == [] then [] else Marked(reqs[..|reqs| - 1], now) + MarkedOne(reqs[|reqs| - 1], now)
  }

  function MarkedOne(r: Request, now: nat): seq<Request> {
    if r.sentAt > 0 then [r] else if r.hasCallback then [r.(sentAt := now)] else []
  }

  /** The transaction ids of the requests that have not been sent. */
  function Unsent(reqs: seq<Request>): seq<nat> {
    if reqs == [] then []
    else Unsent(reqs[..|reqs| - 1]) + if reqs[|reqs| - 1].sentAt == 0 then [reqs[|reqs| - 1].transactionId] else []
  }

  predicate AllSent(reqs: seq<Request>) { forall k :: 0 <= k < |reqs| ==> reqs[k].sentAt > 0 }

  /** Sending loses nobody who waits, and leaves nothing unsent. */
  lemma {:induction false} MarkedKeeps(reqs: seq<Request>, now: nat, id: nat)
    requires now > 0
    ensures Waiting(Marked(reqs, now), id) == Waiting(reqs, id) && AllSent(Marked(reqs, now))
  {
    if reqs != [] {
      var init, r := reqs[..|reqs| - 1], reqs[|reqs| - 1];
      MarkedKeeps(init, now, id);
      WaitingAppend(init, r, id);
      SplitLast(reqs);
      if MarkedOne(r, now) != [] {
        WaitingAppend(Marked(init, now), MarkedOne(r, now)[0], id);
        assert MarkedOne(r, now) == [MarkedOne(r, now)[0]];
      } else {
        assert Marked(init, now) + [] == Marked(init, now);
      }
    }
  }

  /** The loop has dealt with the first `j` requests. */
  ghost predicate Sending(reqs: seq<Request>, now: nat, sent: seq<nat>, rest: seq<Request>, packets: seq<nat>, i: nat, j: nat) {
    && j <= |reqs| && i == |Marked(reqs[..j], now)|
    && rest == Marked(reqs[..j], now) + reqs[j..] && packets == sent + Unsent(reqs[..j])
  }

  lemma SendingStep(reqs: seq<Request>, now: nat, sent: seq<nat>, rest: seq<Request>, packets: seq<nat>, i: nat, j: nat)
    requires Sending(reqs, now, sent, rest, packets, i, j) && i < |rest|
    ensures j < |reqs| && rest[i] == reqs[j]
    ensures var r, packets' := rest[i], packets + if rest[i].sentAt == 0 then [rest[i].transactionId] else [];
            if r.sentAt == 0 && !r.hasCallback then Sending(reqs, now, sent, Without(rest, i), packets', i, j + 1)
            else Sending(reqs, now, sent, rest[i := MarkedOne(r, now)[0]], packets', i + 1, j + 1)
  {
    assert reqs[..j + 1][..j] == reqs[..j];
    assert reqs[j..] == [reqs[j]] + reqs[j + 1..];
    assert Marked(reqs[..j + 1], now) == Marked(reqs[..j], now) + MarkedOne(reqs[j], now);
  }

  lemma SendingDone(reqs: seq<Request>, now: nat, sent: seq<nat>, rest: seq<Request>, packets: seq<nat>, i: nat, j: nat)
    requires now > 0 && Sending(reqs, now, sent, rest, packets, i, j) && i >= |rest|
    ensures rest == Marked(reqs, now) && packets == sent + Unsent(reqs) && AllSent(rest)
    ensures forall id: nat :: Waiting(rest, id) == Waiting(reqs, id)
  {
    assert reqs[..j] == reqs && rest == Marked(reqs, now);
    MarkedKeeps(reqs, now, 0);
    forall id: nat
      ensures Waiting(Marked(reqs, now), id) == Waiting(reqs, id)
    {
      MarkedKeeps(reqs, now, id);
    }
  }

  /** Send what has not been sent; a request nobody waits for is dropped once it is sent. */
  method SendList(reqs: seq<Request>, now: nat, sent: seq<nat>) returns (rest: seq<Request>, packets: seq<nat>)
    requires now > 0
    ensures rest == Marked(reqs, now) && packets == sent + Unsent(reqs)
    ensures forall id: nat :: Waiting(rest, id) == Waiting(reqs, id)
    ensures AllSent(rest)
  {
    rest, packets := reqs, sent;
    var i := 0;
    ghost var j := 0;
    while i < |rest|
      invariant Sending(reqs, now, sent, rest, packets, i, j)
      decreases |rest| - i
    {
      SendingStep(reqs, now, sent, rest, packets, i, j);
      j := j + 1;
      if rest[i].sentAt == 0 {
        packets := packets + [rest[i].transactionId];
        if !rest[i].hasCallback {
          rest := Without(rest, i);
        } else {
          rest := rest[i := rest[i].(sentAt := now)];
          i := i + 1;
        }
      } else {
        assert rest[i := rest[i]] == rest && packets + [] == packets;
        i := i + 1;
      }
    }
    SendingDone(reqs, now, sent, rest, packets, i, j);
  }

  // ---- timing out ---------------------------------------------------------

  predicate Expired(r: Request, cancelAll: bool, now: nat) { cancelAll || r.createdAt + TAU_REQUEST_TTL < now }

  predicate Fresh(reqs: seq<Request>, cancelAll: bool, now: nat) {
    forall k :: 0 <= k < |reqs| ==> !Expired(reqs[k], cancelAll, now)
  }

  /** The requests that are too old, or those that are not. */
  function Selected(reqs: seq<Request>, expired: bool, cancelAll: bool, now: nat): seq<Request> {
    if reqs == [] then []
    else
      Selected(reqs[..|reqs| - 1], expired, cancelAll, now)
        + if Expired(reqs[|reqs| - 1], cancelAll, now) == expired then [reqs[|reqs| - 1]] else []
  }

  lemma {:induction false} SelectedSplit(reqs: seq<Request>, cancelAll: bool, now: nat, id: nat)
    ensures Waiting(reqs, id) == Waiting(Selected(reqs, true, cancelAll, now), id) + Waiting(Selected(reqs, false, cancelAll, now), id)
  {
    if reqs != [] {
      var init, r := reqs[..|reqs| - 1], reqs[|reqs| - 1];
      SelectedSplit(init, cancelAll, now, id);
      WaitingAppend(init, r, id);
      SplitLast(reqs);
      var e := Expired(r, cancelAll, now);
      WaitingAppend(Selected(init, e, cancelAll, now), r, id);
      assert Selected(init, !e, cancelAll, now) + [] == Selected(init, !e, cancelAll, now);
    }
  }

  /** The requests kept are not too old, and if none is too old all are kept. */
  lemma {:induction false} SelectedFresh(reqs: seq<Request>, cancelAll: bool, now: nat)
    ensures Fresh(Selected(reqs, false, cancelAll, now), cancelAll, now)
    ensures Fresh(reqs, cancelAll, now) ==> Selected(reqs, true, cancelAll, now) == [] && Selected(reqs, false, cancelAll, now) == reqs
  {
    if reqs != [] {
      SelectedFresh(reqs[..|reqs| - 1], cancelAll, now);
      SplitLast(reqs);
    }
  }

  lemma {:induction false} MarkedFresh(reqs: seq<Request>, cancelAll: bool, now: nat)
    requires Fresh(reqs, cancelAll, now)
    ensures Fresh(Marked(reqs, now), cancelAll, now)
  {
    if reqs != [] {
      MarkedFresh(reqs[..|reqs| - 1], cancelAll, now);
    }
  }

  lemma TimedOut(reqs: seq<Request>, cancelAll: bool, now: nat, answers: seq<Answer>)
    ensures Moved(reqs, answers, Selected(reqs, false, cancelAll, now),
                  answers + Answers(Selected(reqs, true, cancelAll, now), false, true))
    ensures Fresh(Selected(reqs, false, cancelAll, now), cancelAll, now)
  {
    var kept, late := Selected(reqs, false, cancelAll, now), Selected(reqs, true, cancelAll, now);
    SelectedFresh(reqs, cancelAll, now);
    AllAnswered(late, answers, false, true);
    forall id: nat
      ensures Waiting(reqs, id) == Waiting(late, id) + Waiting(kept, id)
    {
      SelectedSplit(reqs, cancelAll, now, id);
    }
  }

  ghost predicate TimingOut(reqs: seq<Request>, cancelAll: bool, now: nat, answers: seq<Answer>,
                            rest: seq<Request>, out: seq<Answer>, i: nat, j: nat)
  {
    && j <= |reqs| && i == |Selected(reqs[..j], false, cancelAll, now)|
    && rest == Selected(reqs[..j], false, cancelAll, now) + reqs[j..]
    && out == answers + Answers(Selected(reqs[..j], true, cancelAll, now), false, true)
  }

  lemma TimingOutStep(reqs: seq<Request>, cancelAll: bool, now: nat, answers: seq<Answer>,
                      rest: seq<Request>, out: seq<Answer>, i: nat, j: nat)
    requires TimingOut(reqs, cancelAll, now, answers, rest, out, i, j) && i < |rest|
    ensures j < |reqs| && rest[i] == reqs[j]
    ensures if Expired(rest[i], cancelAll, now)
            then TimingOut(reqs, cancelAll, now, answers, Without(rest, i), out + Answers([rest[i]], false, true), i, j + 1)
            else TimingOut(reqs, cancelAll, now, answers, rest, out, i + 1, j + 1)
  {
    var kept, gone := Selected(reqs[..j], false, cancelAll, now), Selected(reqs[..j], true, cancelAll, now);
    SelectedLast(reqs, j, false, cancelAll, now);
    SelectedLast(reqs, j, true, cancelAll, now);
    Removed(kept, reqs[j..], rest, i);
    assert reqs[j..][1..] == reqs[j + 1..];
    AnswersMore(answers, gone, reqs[j]);
  }

  lemma SelectedLast(reqs: seq<Request>, j: nat, expired: bool, cancelAll: bool, now: nat)
    requires j < |reqs|
    ensures Selected(reqs[..j + 1], expired, cancelAll, now)
            == if Expired(reqs[j], cancelAll, now) == expired then Selected(reqs[..j], expired, cancelAll, now) + [reqs[j]]
               else Selected(reqs[..j], expired, cancelAll, now)
  {
    assert reqs[..j + 1][..j] == reqs[..j];
  }

  lemma Removed(kept: seq<Request>, more: seq<Request>, rest: seq<Request>, i: nat)
    requires i == |kept| && rest == kept + more && more != []
    ensures Without(rest, i) == kept + more[1..] && rest == (kept + [more[0]]) + more[1..]
  {
  }

  lemma AnswersMore(answers: seq<Answer>, gone: seq<Request>, r: Request)
    ensures answers + Answers(gone + [r], false, true) == (answers + Answers(gone, false, true)) + Answers([r], false, true)
  {
    AnswersLast(gone + [r], |gone|, false, true);
    assert (gone + [r])[..|gone|] == gone && (gone + [r])[..|gone| + 1] == gone + [r];
  }

  /** Fail and drop what is too old. */
  method TimeoutList(reqs: seq<Request>, cancelAll: bool, now: nat, answers: seq<Answer>)
    returns (rest: seq<Request>, out: seq<Answer>)
    ensures rest == Selected(reqs, false, cancelAll, now)
    ensures out == answers + Answers(Selected(reqs, true, cancelAll, now), false, true)
    ensures Moved(reqs, answers, rest, out) && Fresh(rest, cancelAll, now)
  {
    rest, out := reqs, answers;
    var i := 0;
    ghost var j := 0;
    while i < |rest|
      invariant TimingOut(reqs, cancelAll, now, answers, rest, out, i, j)
      decreases |rest| - i
    {
      TimingOutStep(reqs, cancelAll, now, answers, rest, out, i, j);
      j := j + 1;
      if Expired(rest[i], cancelAll, now) {
        out := Finish(rest[i], false, true, out);
        rest := Without(rest, i);
      } else {
        i := i + 1;
      }
    }
    assert reqs[..j] == reqs;
    TimedOut(reqs, cancelAll, now, answers);
  }

  // ---- replies ------------------------------------------------------------

  /** The first sent request with a transaction id, or the end of the list. */
  function FindSent(reqs: seq<Request>, transactionId: nat): (j: nat)
    ensures j <= |reqs|
    ensures j < |reqs| ==> reqs[j].sentAt > 0 && reqs[j].transactionId == transactionId
    ensures forall k :: 0 <= k < j ==> !(reqs[k].sentAt > 0 && reqs[k].transactionId == transactionId)
  {
    if reqs == [] then 0
    else if reqs[0].sentAt > 0 && reqs[0].transactionId == transactionId then 0
    else 1 + FindSent(reqs[1..], transactionId)
  }

  lemma OneAnswered(reqs: seq<Request>, j: nat, answers: seq<Answer>)
    requires j < |reqs|
    ensures Moved(reqs, answers, Without(reqs, j), answers + Answers([reqs[j]], true, false))
  {
    AllAnswered([reqs[j]], answers, true, false);
    forall id: nat
      ensures Waiting(reqs, id) == Waiting(Without(reqs, j), id) + Waiting([reqs[j]], id)
    {
      WaitingWithout(reqs, j, id);
      assert [reqs[j]] == [] + [reqs[j]];
      WaitingAppend([], reqs[j], id);
    }
  }

  /** Some request with this transaction id has been sent. */
  predicate Expects(reqs: seq<Request>, transactionId: nat) {
    exists k :: 0 <= k < |reqs| && reqs[k].sentAt > 0 && reqs[k].transactionId == transactionId
  }

  /** The first sent request with this transaction id has left the list and been answered. */
  ghost predicate Taken(reqs: seq<Request>, answers: seq<Answer>, transactionId: nat, rest: seq<Request>, out: seq<Answer>) {
    var j := FindSent(reqs, transactionId);
    && j < |reqs|
    && rest == reqs[..j] + reqs[j + 1..]
    && out == answers + (if reqs[j].hasCallback then [Answer(reqs[j].id, true, false)] else [])
  }

  /** Look for the request a reply is for, take it off the list, and call back. */
  method Reply(reqs: seq<Request>, transactionId: nat, answers: seq<Answer>)
    returns (rest: seq<Request>, out: seq<Answer>, found: bool)
    ensures Moved(reqs, answers, rest, out)
    ensures found <==> Expects(reqs, transactionId)
    ensures !found ==> rest == reqs && out == answers
    ensures found ==> Taken(reqs, answers, transactionId, rest, out)
  {
    var j := FindSent(reqs, transactionId);
    if j == |reqs| {
      return reqs, answers, false;
    }
    rest := Without(reqs, j);
    out := Finish(reqs[j], true, false, answers);
    OneAnswered(reqs, j, answers);
    found := true;
  }

  // ---- the tracker --------------------------------------------------------

  class Tracker {
    var isAskingDns: bool
    var hasAddr: bool
    var addrExpirationTime: nat
    var connectingAt: nat
    var connectionExpirationTime: nat
    var connectionTransactionId: nat
    var closeAt: nat
    var announces: seq<Request>
    var scrapes: seq<Request>
    /** The callbacks made and the packets sent so far. */
    var answers: seq<Answer>
    var packets: seq<nat>
    /** The requests with a callback made so far. */
    ghost var created: set<nat>

    /** How often a request turns up, waiting or answered. */
    ghost function Times(id: nat): nat
      reads this
    {
      Waiting(announces, id) + Waiting(scrapes, id) + Answered(answers, id)
    }

    /** Every request with a callback waits in just one list, or has been answered, once. */
    ghost predicate Conserved()
      reads this
    {
      forall id: nat :: Times(id) == One(id in created)
    }

    /** While the address is being looked up there is none; while connecting, the old connection has run out. */
    ghost predicate Waits(now: nat)
      reads this
    {
      && (isAskingDns ==> !hasAddr)
      && (connectingAt > 0 ==> connectionExpirationTime <= connectingAt <= now)
    }

    ghost predicate Valid(now: nat)
      reads this
    {
      now > 0 && Conserved() && Waits(now)
    }

    /** A request is answered at most once, and not while it is still pending. */
    lemma AnsweredOnce(id: nat)
      requires Conserved()
      ensures Answered(answers, id) <= 1
      ensures Answered(answers, id) > 0 ==> Waiting(announces, id) == Waiting(scrapes, id) == 0
      ensures id in created <==> Answered(answers, id) > 0 || Waiting(announces, id) > 0 || Waiting(scrapes, id) > 0
    {
      assert Times(id) == One(id in created);
    }

    constructor ()
      ensures Conserved() && Waits(0) && announces == scrapes == [] && answers == []
    {
      isAskingDns := false;
      hasAddr := false;
      addrExpirationTime := 0;
      connectingAt := 0;
      connectionExpirationTime := 0;
      connectionTransactionId := 0;
      closeAt := 0;
      announces := [];
      scrapes := [];
      answers := [];
      packets := [];
      created := {};
    }

    predicate IsIdle()
      reads this
    {
      announces == [] && scrapes == []
    }

    /** tau_tracker_fail_all() */
    method FailAll(didConnect: bool, didTimeout: bool)
      requires Conserved()
      modifies `announces, `scrapes, `answers
      ensures Conserved() && IsIdle() && old(answers) <= answers
      ensures answers == old(answers) + Answers(old(scrapes), didConnect, didTimeout) + Answers(old(announces), didConnect, didTimeout)
    {
      answers := FailList(scrapes, didConnect, didTimeout, answers);
      scrapes := [];
      answers := FailList(announces, didConnect, didTimeout, answers);
      announces := [];
    }

    /** tau_tracker_send_reqs(), with its assertions as the precondition */
    method SendReqs(now: nat)
      requires now > 0 && Conserved()
      requires !isAskingDns && connectingAt == 0 && hasAddr && connectionExpirationTime > now
      modifies `announces, `scrapes, `packets
      ensures Conserved() && AllSent(announces) && AllSent(scrapes)
      ensures announces == Marked(old(announces), now) && scrapes == Marked(old(scrapes), now)
      ensures packets == old(packets) + Unsent(old(announces)) + Unsent(old(scrapes))
    {
      announces, packets := SendList(announces, now, packets);
      scrapes, packets := SendList(scrapes, now, packets);
    }

    /** A failed connection: everything pending is answered, which leaves the upkeep nothing to do but drop an old address. */
    method ConnectionFailed(now: nat)
      requires Valid(now)
      modifies this
      ensures Valid(now) && created == old(created) && old(answers) <= answers
      ensures IsIdle() && connectingAt == 0 && packets == old(packets)
      ensures answers == old(answers) + Answers(old(scrapes), true, false) + Answers(old(announces), true, false)
      ensures hasAddr == (old(hasAddr) && addrExpirationTime > now)
      ensures unchanged(`closeAt, `addrExpirationTime, `connectionExpirationTime, `isAskingDns)
    {
      connectingAt := 0;
      connectionTransactionId := 0;
      FailAll(true, false);
      ExpireAddr(now);
    }

    /** The first step of the upkeep. */
    method ExpireAddr(now: nat)
      modifies `hasAddr
      ensures hasAddr == (old(hasAddr) && addrExpirationTime > now)
    {
      if hasAddr && addrExpirationTime <= now {
        hasAddr := false;
      }
    }

    /** The time to wait for the last requests is over. */
    predicate Closing(now: nat)
      reads this
    {
      closeAt > 0 && closeAt <= now
    }

    /** The tracker has not answered the request for a connection. */
    predicate GivesUp(now: nat)
      reads this
    {
      connectingAt > 0 && connectingAt + TAU_REQUEST_TTL < now
    }

    /** tau_tracker_timeout_reqs() */
    method TimeoutReqs(now: nat)
      requires Valid(now)
      modifies this
      ensures Valid(now) && created == old(created) && old(answers) <= answers
      ensures unchanged(`closeAt, `addrExpirationTime, `connectionExpirationTime, `isAskingDns) && packets == old(packets)
      ensures hasAddr ==> old(hasAddr)
      ensures Fresh(announces, Closing(now), now) && Fresh(scrapes, Closing(now), now)
      ensures connectingAt == if old(GivesUp(now)) then 0 else old(connectingAt)
      ensures old(GivesUp(now)) ==> IsIdle()
      ensures !old(GivesUp(now)) ==>
                && hasAddr == old(hasAddr)
                && announces == Selected(old(announces), false, Closing(now), now)
                && scrapes == Selected(old(scrapes), false, Closing(now), now)
                && answers == old(answers) + Answers(Selected(old(announces), true, Closing(now), now), false, true)
                                           + Answers(Selected(old(scrapes), true, Closing(now), now), false, true)
    {
      var cancelAll := Closing(now);
      if GivesUp(now) {
        ConnectionFailed(now);
      }
      DropLate(cancelAll, now);
    }

    /** The two loops of tau_tracker_timeout_reqs() */
    method DropLate(cancelAll: bool, now: nat)
      requires Conserved()
      modifies `announces, `scrapes, `answers
      ensures Conserved() && old(answers) <= answers
      ensures announces == Selected(old(announces), false, cancelAll, now) && scrapes == Selected(old(scrapes), false, cancelAll, now)
      ensures Fresh(announces, cancelAll, now) && Fresh(scrapes, cancelAll, now)
      ensures answers == old(answers) + Answers(Selected(old(announces), true, cancelAll, now), false, true)
                                      + Answers(Selected(old(scrapes), true, cancelAll, now), false, true)
    {
      announces, answers := TimeoutList(announces, cancelAll, now, answers);
      scrapes, answers := TimeoutList(scrapes, cancelAll, now, answers);
    }

    /** No request is left lying: an address or a connection is on its way, or all has been sent. */
    predicate Progressing()
      reads this
    {
      IsIdle() || isAskingDns || connectingAt > 0 || (AllSent(announces) && AllSent(scrapes))
    }

    /** Nothing pending is too old, and neither is the request for a connection. */
    predicate InTime(now: nat)
      reads this
    {
      !GivesUp(now) && Fresh(announces, Closing(now), now) && Fresh(scrapes, Closing(now), now)
    }

    /** The upkeep asks for an address or a connection, and leaves the requests for later. */
    predicate AsksFirst(now: nat)
      reads this
    {
      var addr := hasAddr && addrExpirationTime > now;
      if addr then connectionExpirationTime <= now && connectingAt == 0 else !isAskingDns
    }

    /**
     * tau_tracker_upkeep(): something is done for every request, those too old
     * are not kept once there is an address and a connection or they are on
     * their way, and nobody is failed before time.
     */
    method Upkeep(now: nat, newTransaction: nat)
      requires Valid(now)
      modifies this
      ensures Valid(now) && created == old(created) && old(answers) <= answers
      ensures Progressing() && closeAt == old(closeAt)
      ensures old(IsIdle()) ==> IsIdle() && answers == old(answers)
      ensures old(AsksFirst(now)) || old(InTime(now)) ==> answers == old(answers)
      ensures old(AsksFirst(now)) ==> announces == old(announces) && scrapes == old(scrapes)
      ensures old(AsksFirst(now)) && !IsIdle() ==> isAskingDns || (connectingAt == now && connectionTransactionId == newTransaction)
      ensures !old(AsksFirst(now)) ==> Fresh(announces, Closing(now), now) && Fresh(scrapes, Closing(now), now)
    {
      ExpireAddr(now);
      if IsIdle() {
        return;
      }
      if !hasAddr && !isAskingDns {
        isAskingDns := true;
        return;
      }
      if hasAddr && connectionExpirationTime <= now && connectingAt == 0 {
        connectingAt := now;
        connectionTransactionId := newTransaction;
        packets := packets + [newTransaction];
        return;
      }
      ServeReqs(now);
    }

    /** The end of the upkeep, when nothing has to be asked for first. */
    method ServeReqs(now: nat)
      requires Valid(now) && !(!hasAddr && !isAskingDns) && !(hasAddr && connectionExpirationTime <= now && connectingAt == 0)
      modifies this
      ensures Valid(now) && created == old(created) && old(answers) <= answers
      ensures Progressing() && closeAt == old(closeAt)
      ensures old(InTime(now)) ==> answers == old(answers)
      ensures Fresh(announces, Closing(now), now) && Fresh(scrapes, Closing(now), now)
    {
      SelectedFresh(announces, Closing(now), now);
      SelectedFresh(scrapes, Closing(now), now);
      TimeoutReqs(now);
      if hasAddr && connectionExpirationTime > now {
        MarkedFresh(announces, Closing(now), now);
        MarkedFresh(scrapes, Closing(now), now);
        SendReqs(now);
      }
    }

    /** tau_tracker_on_dns() */
    method OnDns(failed: bool, now: nat, newTransaction: nat)
      requires Valid(now) && isAskingDns
      modifies this
      ensures Valid(now) && created == old(created) && old(answers) <= answers
      ensures Progressing()
      ensures failed ==>
                IsIdle() && answers == old(answers) + Answers(old(scrapes), false, false) + Answers(old(announces), false, false)
    {
      isAskingDns := false;
      if failed {
        FailAll(false, false);
      } else {
        hasAddr := true;
        addrExpirationTime := now + DNS_TTL_SECS;
        Upkeep(now, newTransaction);
      }
    }

    /** on_tracker_connection_response() to a message */
    method OnConnectionResponse(action: Action, now: nat, newTransaction: nat)
      requires Valid(now)
      modifies this
      ensures Valid(now) && created == old(created) && old(answers) <= answers
      ensures Progressing()
      ensures action != Connect ==>
                IsIdle() && answers == old(answers) + Answers(old(scrapes), true, false) + Answers(old(announces), true, false)
    {
      connectingAt := 0;
      connectionTransactionId := 0;
      if action == Connect {
        connectionExpirationTime := now + TAU_CONNECTION_TTL_SECS;
      } else {
        FailAll(true, false);
      }
      Upkeep(now, newTransaction);
    }

    /** The tracker's answer to the request for a connection has this transaction id. */
    predicate IsConnecting(transactionId: nat)
      reads this
    {
      connectingAt > 0 && transactionId == connectionTransactionId
    }

    /** Nothing but the lists and the answers differs. */
    twostate predicate ConnectionKept()
      reads this
    {
      && unchanged(`isAskingDns, `hasAddr, `addrExpirationTime, `closeAt, `packets, `created)
      && unchanged(`connectingAt, `connectionExpirationTime, `connectionTransactionId)
    }

    /**
     * The part of tau_handle_message() for one tracker: the request that was
     * sent with the message's transaction id is taken off its list, and answered.
     */
    method HandleMessage(action: nat, length: nat, transactionId: nat, now: nat, newTransaction: nat) returns (handled: bool)
      requires Valid(now)
      modifies this
      ensures Valid(now) && created == old(created) && old(answers) <= answers
      ensures handled <==> IsResponse(action, length)
                           && (|| old(IsConnecting(transactionId))
                               || Expects(old(announces), transactionId)
                               || Expects(old(scrapes), transactionId))
      ensures !handled ==> unchanged(this)
      ensures handled && old(IsConnecting(transactionId)) ==> Progressing()
      ensures handled && old(IsConnecting(transactionId)) && action != 0 ==>
                IsIdle() && answers == old(answers) + Answers(old(scrapes), true, false) + Answers(old(announces), true, false)
      ensures handled && !old(IsConnecting(transactionId)) ==>
                && ConnectionKept()
                && if Expects(old(announces), transactionId)
                   then Taken(old(announces), old(answers), transactionId, announces, answers) && scrapes == old(scrapes)
                   else Taken(old(scrapes), old(answers), transactionId, scrapes, answers) && announces == old(announces)
    {
      if !IsResponse(action, length) {
        return false;
      }
      if IsConnecting(transactionId) {
        OnConnectionResponse(ActionOf(action), now, newTransaction);
        return true;
      }
      announces, answers, handled := Reply(announces, transactionId, answers);
      if !handled {
        scrapes, answers, handled := Reply(scrapes, transactionId, answers);
      }
    }

    method Queue(isAnnounce: bool, req: Request)
      requires Conserved() && req.id !in created
      modifies `announces, `scrapes, `created
      ensures Conserved() && created == old(created) + if req.hasCallback then {req.id} else {}
    {
      forall id: nat
        ensures Waiting(announces + [req], id) == Waiting(announces, id) + One(IsFor(req, id))
        ensures Waiting(scrapes + [req], id) == Waiting(scrapes, id) + One(IsFor(req, id))
      {
        WaitingAppend(announces, req, id);
        WaitingAppend(scrapes, req, id);
      }
      if isAnnounce {
        announces := announces + [req];
      } else {
        scrapes := scrapes + [req];
      }
      if req.hasCallback {
        created := created + {req.id};
      }
    }

    /** tr_tracker_udp_announce(): the request is queued, and may be sent at once. */
    method Ask(isAnnounce: bool, id: nat, hasCallback: bool, transactionId: nat, now: nat, newTransaction: nat)
      requires Valid(now) && id !in created
      modifies this
      ensures Valid(now) && created == old(created) + (if hasCallback then {id} else {}) && old(answers) <= answers
      ensures Progressing()
    {
      Queue(isAnnounce, Request(id, hasCallback, now, 0, transactionId));
      Upkeep(now, newTransaction);
    }

    /** tr_tracker_udp_start_shutdown() */
    method StartShutdown(now: nat, newTransaction: nat)
      requires Valid(now)
      modifies this
      ensures Valid(now) && created == old(created) && old(answers) <= answers
      ensures Progressing() && closeAt == now + 3
    {
      closeAt := now + 3;
      Upkeep(now, newTransaction);
    }

    /** The invariant survives the passing of time. */
    lemma Later(now: nat, later: nat)
      requires Valid(now) && now <= later
      ensures Valid(later)
    {
    }
  }
}
