/** Racing certificate queries: `DNSExchange` sends up to six copies of a query,
    half of them padded to a large packet, and keeps the best reply. Senders share
    a buffered channel with the collecting goroutine and look at a cancel channel
    before they transmit; every interleaving is a run of the step system below. */
module CertExchange {
  import opened Common
  import opened Sums

  datatype Error = Canceled | Failure(code: nat) | Unreachable

  datatype Answer = Answer(message: nat, rtt: int)

  /** A queued reply; `large` replies have priority 0, small ones priority 1. */
  datatype Reply = Reply(large: bool, outcome: Result<Answer, Error>)

  const MaxTries: nat := 3
  const ChannelCapacity: nat := 2 * MaxTries

  // ---------------------------------------------------------------- choosing among arrivals

  /** One iteration of the collecting loop, on the best option so far. */
  function Consider(best: Option<Reply>, reply: Reply): Option<Reply>
    requires best.Some? ==> best.value.outcome.Ok?
  {
    if reply.outcome.Err? then best
    else if best.None? || (reply.large && !best.value.large) ||
            (reply.large == best.value.large && reply.outcome.value.rtt < best.value.outcome.value.rtt)
    then Some(reply)
    else best
  }

  function Scan(arrivals: seq<Reply>): (best: Option<Reply>)
    ensures best.Some? ==> best.value.outcome.Ok?
  {
    if arrivals == [] then None else Consider(Scan(arrivals[..|arrivals|-1]), arrivals[|arrivals|-1])
  }

  predicate LargeSuccess(r: Reply) { r.large && r.outcome.Ok? }

  /** The reply the caller is meant to get: the first large success if there is one,
      otherwise the earliest of the fastest small successes. */
  ghost predicate IsChoice(arrivals: seq<Reply>, k: int) {
    && 0 <= k < |arrivals| && arrivals[k].outcome.Ok?
    && (arrivals[k].large ==> forall i :: 0 <= i < k ==> !LargeSuccess(arrivals[i]))
    && (!arrivals[k].large ==>
          && (forall i :: 0 <= i < |arrivals| ==> !LargeSuccess(arrivals[i]))
          && (forall i :: 0 <= i < |arrivals| && arrivals[i].outcome.Ok?
                ==> arrivals[k].outcome.value.rtt <= arrivals[i].outcome.value.rtt)
          && (forall i :: 0 <= i < k && arrivals[i].outcome.Ok?
                ==> arrivals[k].outcome.value.rtt < arrivals[i].outcome.value.rtt))
  }

  /** The loop's best option is that reply, as long as the loop stops at its first
      large success; without any success there is no best option. */
  lemma {:induction false} ScanChooses(arrivals: seq<Reply>) returns (k: int)
    requires forall i :: 0 <= i < |arrivals| - 1 ==> !LargeSuccess(arrivals[i])
    ensures Scan(arrivals).None? <==> forall i :: 0 <= i < |arrivals| ==> arrivals[i].outcome.Err?
    ensures Scan(arrivals).Some? ==> IsChoice(arrivals, k) && arrivals[k] == Scan(arrivals).value
  {
    k := -1;
    if arrivals != [] {
      var n := |arrivals| - 1;
      var k0 := ScanChooses(arrivals[..n]);
      if Scan(arrivals[..n]).Some? && Scan(arrivals) == Scan(arrivals[..n]) {
        k := k0;
        if arrivals[n].outcome.Ok? && arrivals[n] == Scan(arrivals).value {
          assert arrivals[n].outcome.value.rtt == arrivals[k].outcome.value.rtt;
        }
      } else {
        k := n;
      }
    }
  }

  // ---------------------------------------------------------------- one round as a step system

  datatype SenderPc = Sleeping | Exchanging | Sending(reply: Reply) | Sent

  datatype Sender = Sender(large: bool, pc: SenderPc)

  datatype Receiver =
    | Waiting(best: Option<Reply>, err: Option<Error>)
    | Done(best: Option<Reply>, err: Option<Error>)

  /** `closes` counts the times the cancel channel has been closed; `received` is
      the history of replies taken from the channel. */
  datatype State = State(senders: seq<Sender>, channel: seq<Reply>, closes: nat,
                         received: seq<Reply>, receiver: Receiver)

  datatype Action = Wake(i: nat) | Exchange(i: nat, outcome: Result<Answer, Error>)
    | Deliver(i: nat) | Receive | Conclude

  /** The senders of a round: large and small alternate, or only small ones. */
  function Senders(tryFragments: bool): seq<Sender> {
    if tryFragments
    then seq(2 * MaxTries, i => Sender(i % 2 == 0, Sleeping))
    else seq(MaxTries, i => Sender(false, Sleeping))
  }

  predicate Enabled(s: State, a: Action) {
    match a
    case Wake(i) => i < |s.senders| && s.senders[i].pc.Sleeping?
    case Exchange(i, outcome) => i < |s.senders| && s.senders[i].pc.Exchanging?
      && (outcome.Err? ==> outcome.error.Failure?)
    case Deliver(i) => i < |s.senders| && s.senders[i].pc.Sending? && |s.channel| < ChannelCapacity
    case Receive => s.receiver.Waiting? && |s.received| < |s.senders| && s.channel != []
    case Conclude => s.receiver.Waiting? && |s.received| >= |s.senders|
  }

  function SetPc(senders: seq<Sender>, i: nat, pc: SenderPc): (r: seq<Sender>)
    requires i < |senders|
    ensures |r| == |senders|
  {
    senders[i := senders[i].(pc := pc)]
  }

  function Next(s: State, a: Action): State
    requires Enabled(s, a)
    requires s.receiver.best.Some? ==> s.receiver.best.value.outcome.Ok?
  {
    match a
    case Wake(i) =>
      var pc := if s.closes > 0 then Sending(Reply(s.senders[i].large, Err(Canceled))) else Exchanging;
      s.(senders := SetPc(s.senders, i, pc))
    case Exchange(i, outcome) => s.(senders := SetPc(s.senders, i, Sending(Reply(s.senders[i].large, outcome))))
    case Deliver(i) => s.(channel := s.channel + [s.senders[i].pc.reply], senders := SetPc(s.senders, i, Sent))
    case Receive =>
      var reply := s.channel[0];
      var s1 := s.(channel := s.channel[1..], received := s.received + [reply]);
      if reply.outcome.Err? then s1.(receiver := Waiting(s.receiver.best, Some(reply.outcome.error)))
      else
        var best := Consider(s.receiver.best, reply);
        if best != s.receiver.best && best.value.large
        then s1.(receiver := Done(best, s.receiver.err), closes := s.closes + 1)
        else s1.(receiver := Waiting(best, s.receiver.err))
    case Conclude => s.(receiver := Done(s.receiver.best, s.receiver.err))
  }

  function Unsent(w: Sender): nat { if w.pc.Sent? then 0 else 1 }

  /** Steps a sender still has before it. */
  function Remaining(w: Sender): nat {
    match w.pc
    case Sleeping => 3
    case Exchanging => 2
    case Sending(_) => 1
    case Sent => 0
  }

  /** A reply made by an exchange, not by a cancellation. */
  predicate Genuine(r: Reply) { r.outcome.Err? ==> r.outcome.error.Failure? }

  /** The last error among the replies received. */
  function LastError(received: seq<Reply>): Option<Error> {
    if received == [] then None
    else if received[|received|-1].outcome.Err? then Some(received[|received|-1].outcome.error)
    else LastError(received[..|received|-1])
  }

  /** Nothing in flight is a cancellation as long as the cancel channel is open. */
  ghost predicate NoCancellation(s: State) {
    && (forall i :: 0 <= i < |s.channel| ==> Genuine(s.channel[i]))
    && (forall i :: 0 <= i < |s.senders| && s.senders[i].pc.Sending? ==> Genuine(s.senders[i].pc.reply))
  }

  ghost predicate AllGenuine(replies: seq<Reply>) { forall i :: 0 <= i < |replies| ==> Genuine(replies[i]) }

  /** None of the first n replies is a large success. */
  ghost predicate QuietFor(replies: seq<Reply>, n: int) {
    forall i :: 0 <= i < n && i < |replies| ==> !LargeSuccess(replies[i])
  }

  ghost predicate ReceiverInv(s: State) {
    && s.receiver.best == Scan(s.received)
    && s.receiver.err == LastError(s.received)
    && AllGenuine(s.received) && QuietFor(s.received, |s.received| - 1)
    && (s.receiver.Waiting? ==> s.closes == 0 && NoCancellation(s) && QuietFor(s.received, |s.received|))
    && (s.receiver.Done? ==>
          if s.received != [] && LargeSuccess(s.received[|s.received|-1]) then s.closes == 1
          else s.closes == 0 && |s.received| == |s.senders|)
  }

  ghost predicate Inv(s: State) {
    && 0 < |s.senders| <= ChannelCapacity
    && |s.channel| + |s.received| + Sum(s.senders, Unsent) == |s.senders|
    && ReceiverInv(s)
  }

  /** A round right after its senders have been launched. */
  ghost function Start(tryFragments: bool): (s: State)
    ensures Inv(s) && s.senders == Senders(tryFragments)
  {
    SumOf(Senders(tryFragments), Unsent, 1);
    State(Senders(tryFragments), [], 0, [], Waiting(None, None))
  }

  /** While the loop goes on, its best option is a small one. */
  lemma BestIsSmall(received: seq<Reply>)
    requires QuietFor(received, |received|)
    ensures Scan(received).Some? ==> !Scan(received).value.large
  {
    var k := ScanChooses(received);
  }

  /** What one more reply does to best option and last error. */
  lemma OneMoreReply(received: seq<Reply>, reply: Reply)
    ensures Scan(received + [reply]) == Consider(Scan(received), reply)
    ensures LastError(received + [reply]) ==
              if reply.outcome.Err? then Some(reply.outcome.error) else LastError(received)
  {
    assert (received + [reply])[..|received|] == received;
  }

  /** The replies still queued after one has been taken. */
  lemma RestIsGenuine(s: State, rest: State)
    requires NoCancellation(s) && s.channel != [] && rest.channel == s.channel[1..] && rest.senders == s.senders
    ensures NoCancellation(rest) && Genuine(s.channel[0])
  {
  }

  lemma SnocReply(received: seq<Reply>, reply: Reply)
    requires AllGenuine(received) && Genuine(reply) && QuietFor(received, |received|)
    ensures AllGenuine(received + [reply]) && QuietFor(received + [reply], |received|)
    ensures QuietFor(received + [reply], |received| + 1) <==> !LargeSuccess(reply)
    ensures (received + [reply])[|received|] == reply
  {
    assert (received + [reply])[|received|] == reply;
  }

  lemma ReceiveKeepsReceiver(s: State)
    requires ReceiverInv(s) && Enabled(s, Receive)
    ensures ReceiverInv(Next(s, Receive))
  {
    BestIsSmall(s.received);
    OneMoreReply(s.received, s.channel[0]);
    RestIsGenuine(s, Next(s, Receive));
    SnocReply(s.received, s.channel[0]);
  }

  lemma ReceiveKeepsInv(s: State)
    requires Inv(s) && Enabled(s, Receive)
    ensures Inv(Next(s, Receive))
  {
    ReceiveKeepsReceiver(s);
  }

  lemma SenderKeepsInv(s: State, a: Action)
    requires Inv(s) && Enabled(s, a) && (a.Wake? || a.Exchange? || a.Deliver?)
    ensures Inv(Next(s, a))
  {
    var s' := Next(s, a);
    SumUpdate(s.senders, a.i, s'.senders[a.i], Unsent);
    assert s'.senders == s.senders[a.i := s'.senders[a.i]];
    if s.receiver.Waiting? {
      assert NoCancellation(s');
    }
  }

  lemma StepKeepsInv(s: State, a: Action)
    requires Inv(s) && Enabled(s, a)
    ensures Inv(Next(s, a))
  {
    match a
    case Receive => ReceiveKeepsInv(s);
    case Conclude =>
    case _ => SenderKeepsInv(s, a);
  }

  // ---------------------------------------------------------------- runs of one round

  ghost predicate ValidRun(s: State, run: seq<Action>)
    requires Inv(s)
    decreases |run|
  {
    run != [] ==> Enabled(s, run[0]) && (StepKeepsInv(s, run[0]); ValidRun(Next(s, run[0]), run[1..]))
  }

  ghost function After(s: State, run: seq<Action>): (r: State)
    requires Inv(s) && ValidRun(s, run)
    ensures Inv(r) && |r.senders| == |s.senders|
    decreases |run|
  {
    if run == [] then s else (StepKeepsInv(s, run[0]); After(Next(s, run[0]), run[1..]))
  }

  /** For every interleaving of a round: no sender ever finds the channel full, the
      cancel channel is closed at most once, and while a result is awaited some
      participant can move. */
  lemma RoundIsLive(tryFragments: bool, run: seq<Action>) returns (a: Action)
    requires ValidRun(Start(tryFragments), run)
    ensures var r := After(Start(tryFragments), run);
            && r.closes <= 1
            && (forall i :: 0 <= i < |r.senders| && r.senders[i].pc.Sending? ==> |r.channel| < ChannelCapacity)
            && (r.receiver.Waiting? ==> Enabled(r, a))
  {
    var r := After(Start(tryFragments), run);
    forall i | 0 <= i < |r.senders| && r.senders[i].pc.Sending? ensures |r.channel| < ChannelCapacity {
      UnsentLeavesRoom(r, i);
    }
    a := Receive;
    if r.receiver.Waiting? {
      if |r.received| >= |r.senders| {
        a := Conclude;
      } else if r.channel == [] {
        var i := SumPositive(r.senders, Unsent);
        a := match r.senders[i].pc
             case Sleeping => Wake(i)
             case Exchanging => Exchange(i, Err(Failure(0)))
             case _ => Deliver(i);
      }
    }
  }

  lemma UnsentLeavesRoom(s: State, i: int)
    requires Inv(s) && 0 <= i < |s.senders| && !s.senders[i].pc.Sent?
    ensures |s.channel| < ChannelCapacity
  {
    SumUpdate(s.senders, i, s.senders[i].(pc := Sent), Unsent);
  }

  /** For every arrival order: the round ends with the first large success if any
      large reply succeeded before the end, else with the earliest fastest small
      success; with no success it has heard from every sender, and the error it
      holds is a sender's own, never a cancellation. */
  lemma RoundChooses(tryFragments: bool, run: seq<Action>) returns (k: int)
    requires ValidRun(Start(tryFragments), run)
    requires After(Start(tryFragments), run).receiver.Done?
    ensures var r := After(Start(tryFragments), run);
            if r.receiver.best.Some?
            then IsChoice(r.received, k) && r.received[k] == r.receiver.best.value
                 && (|r.received| == |r.senders| || r.received[k].large)
            else |r.received| == |r.senders|
                 && (forall i :: 0 <= i < |r.received| ==> r.received[i].outcome.Err?)
                 && r.receiver.err.Some? && r.receiver.err.value.Failure?
  {
    var r := After(Start(tryFragments), run);
    k := ScanChooses(r.received);
    if r.receiver.best.None? {
      var last := r.received[|r.received|-1];
      assert last.outcome.Err? && Genuine(last);
    }
  }

  ghost function Measure(s: State): nat {
    Sum(s.senders, Remaining) + (|s.senders| - Min(|s.received|, |s.senders|)) + if s.receiver.Waiting? then 1 else 0
  }

  lemma StepLowersMeasure(s: State, a: Action)
    requires Inv(s) && Enabled(s, a)
    ensures Measure(Next(s, a)) < Measure(s)
  {
    if a.Wake? || a.Exchange? || a.Deliver? {
      SumUpdate(s.senders, a.i, Next(s, a).senders[a.i], Remaining);
    }
  }

  lemma {:induction false} RunIsShort(s: State, run: seq<Action>)
    requires Inv(s) && ValidRun(s, run)
    ensures |run| + Measure(After(s, run)) <= Measure(s)
    decreases |run|
  {
    if run != [] {
      StepKeepsInv(s, run[0]);
      StepLowersMeasure(s, run[0]);
      RunIsShort(Next(s, run[0]), run[1..]);
    }
  }

  /** A round takes at most 25 steps in all. */
  lemma RoundEnds(tryFragments: bool, run: seq<Action>)
    requires ValidRun(Start(tryFragments), run)
    ensures |run| <= 4 * ChannelCapacity + 1
  {
    SumOf(Senders(tryFragments), Remaining, 3);
    RunIsShort(Start(tryFragments), run);
  }

  // ---------------------------------------------------------------- the collecting loop and the retry

  /** The error kept is the one received last. */
  lemma {:induction false} LastErrorIsLast(received: seq<Reply>) returns (k: int)
    ensures LastError(received).None? <==> forall i :: 0 <= i < |received| ==> received[i].outcome.Ok?
    ensures LastError(received).Some? ==>
              && 0 <= k < |received| && received[k].outcome == Err(LastError(received).value)
              && forall i :: k < i < |received| ==> received[i].outcome.Ok?
  {
    k := |received| - 1;
    if received != [] && received[k].outcome.Ok? {
      k := LastErrorIsLast(received[..k]);
    }
  }

  /** The position of the first large success, or the number of replies. */
  function FirstLarge(arrivals: seq<Reply>): (r: nat)
    ensures r <= |arrivals|
    ensures forall i :: 0 <= i < r ==> !LargeSuccess(arrivals[i])
    ensures r < |arrivals| ==> LargeSuccess(arrivals[r])
  {
    if arrivals == [] then 0
    else
      var r := FirstLarge(arrivals[..|arrivals|-1]);
      if r < |arrivals| - 1 || LargeSuccess(arrivals[|arrivals|-1]) then r else |arrivals|
  }

  /** The replies a round listens to: all of them, or up to the first large success. */
  function Heard(arrivals: seq<Reply>): seq<Reply> {
    if FirstLarge(arrivals) < |arrivals| then arrivals[..FirstLarge(arrivals)+1] else arrivals
  }

  lemma HeardIs(arrivals: seq<Reply>, taken: nat)
    requires taken <= |arrivals| && (arrivals == [] || taken > 0)
    requires forall i :: 0 <= i < taken - 1 ==> !LargeSuccess(arrivals[i])
    requires taken < |arrivals| ==> LargeSuccess(arrivals[taken-1])
    ensures Heard(arrivals) == arrivals[..taken]
  {
    var r := FirstLarge(arrivals);
    if r < |arrivals| {
      assert r >= taken - 1;
      assert r + 1 == taken;
    } else {
      assert taken == |arrivals|;
    }
  }

  /** Where the collecting goroutine ends up on replies arriving in that order. */
  function Collected(arrivals: seq<Reply>): Receiver { Done(Scan(Heard(arrivals)), LastError(Heard(arrivals))) }

  /** The collecting loop over the replies of one round, in arrival order. */
  method Collect(arrivals: seq<Reply>) returns (best: Option<Reply>, err: Option<Error>, taken: nat)
    ensures taken <= |arrivals| && Heard(arrivals) == arrivals[..taken]
    ensures Done(best, err) == Collected(arrivals)
    ensures forall i :: 0 <= i < taken - 1 ==> !LargeSuccess(arrivals[i])
    ensures taken < |arrivals| ==> taken > 0 && LargeSuccess(arrivals[taken-1])
  {
    best, err, taken := None, None, 0;
    while taken < |arrivals|
      invariant taken <= |arrivals|
      invariant best == Scan(arrivals[..taken])
      invariant best.Some? ==> !best.value.large
      invariant err == LastError(arrivals[..taken])
      invariant forall i :: 0 <= i < taken ==> !LargeSuccess(arrivals[i])
    {
      var reply := arrivals[taken];
      assert arrivals[..taken+1][..taken] == arrivals[..taken];
      taken := taken + 1;
      if reply.outcome.Ok? {
        if best.None? || (reply.large && !best.value.large) ||
           (reply.large == best.value.large && reply.outcome.value.rtt < best.value.outcome.value.rtt) {
          best := Some(reply);
          if reply.large {
            break;
          }
        }
      } else {
        err := Some(reply.outcome.error);
      }
    }
    HeardIs(arrivals, taken);
  }

  /** The choice made on what was taken is the choice on everything that arrives. */
  lemma ChoiceExtends(arrivals: seq<Reply>, taken: nat, k: int)
    requires taken <= |arrivals| && IsChoice(arrivals[..taken], k)
    requires taken < |arrivals| ==> taken > 0 && LargeSuccess(arrivals[taken-1])
    ensures IsChoice(arrivals, k)
  {
  }

  ghost predicate AllFailed(arrivals: seq<Reply>) {
    forall i :: 0 <= i < |arrivals| ==> arrivals[i].outcome.Err?
  }

  ghost predicate Chosen(arrivals: seq<Reply>, reply: Reply) {
    exists k :: IsChoice(arrivals, k) && arrivals[k] == reply
  }

  /** What a caller gets from a finished round. */
  function Verdict(r: Receiver): Result<Reply, Error> {
    if r.best.Some? then Ok(r.best.value)
    else Err(if r.err.Some? then r.err.value else Unreachable)
  }

  datatype Outcome = Outcome(result: Result<Reply, Error>, rounds: nat, direct: bool)

  /** The retry, given how a round through the relay and a direct one end. */
  function Exchanged(relay: bool, fallback: bool, viaRelay: Receiver, directly: Receiver): Outcome {
    if !relay then Outcome(Verdict(directly), 1, true)
    else if viaRelay.best.Some? || !fallback then Outcome(Verdict(viaRelay), 1, false)
    else Outcome(Verdict(directly), 2, true)
  }

  /** The whole exchange, given the replies of a round made through the relay and of
      one made directly, each in arrival order. */
  method DNSExchange(relay: bool, fallback: bool, viaRelay: seq<Reply>, directly: seq<Reply>)
    returns (result: Result<Reply, Error>, rounds: nat, direct: bool)
    ensures Outcome(result, rounds, direct) == Exchanged(relay, fallback, Collected(viaRelay), Collected(directly))
    ensures result.Ok? ==> Chosen(if direct then directly else viaRelay, result.value)
    ensures result.Err? ==> AllFailed(if direct then directly else viaRelay)
    ensures direct <==> !relay || (fallback && AllFailed(viaRelay))
    ensures rounds == if relay && direct then 2 else 1
  {
    var relayed := relay;
    rounds := 0;
    while true
      invariant rounds == if relay && !relayed then 1 else 0
      invariant relayed ==> relay
      invariant relay && !relayed ==> fallback && AllFailed(viaRelay) && Collected(viaRelay).best.None?
      decreases relayed
    {
      var arrivals := if relayed then viaRelay else directly;
      rounds := rounds + 1;
      direct := !relayed;
      var best, err, taken := Collect(arrivals);
      var k := ScanChooses(arrivals[..taken]);
      if best.Some? {
        ChoiceExtends(arrivals, taken, k);
        assert !AllFailed(arrivals);
        return Ok(best.value), rounds, direct;
      }
      assert arrivals[..taken] == arrivals;
      if !relayed || !fallback {
        if err.None? {
          err := Some(Unreachable);
        }
        return Err(err.value), rounds, direct;
      }
      relayed := false;
    }
  }

  /** In every finished run the receiver is where the collecting loop ends up on the
      replies received. */
  lemma RunIsCollected(tryFragments: bool, run: seq<Action>)
    requires ValidRun(Start(tryFragments), run) && After(Start(tryFragments), run).receiver.Done?
    ensures After(Start(tryFragments), run).receiver == Collected(After(Start(tryFragments), run).received)
  {
    var r := After(Start(tryFragments), run);
    HeardIs(r.received, |r.received|);
    assert r.received[..|r.received|] == r.received;
  }

  /** The exchange over any two finished runs, relayed and direct: its result is the
      reply the last round is meant to choose, or an error one of its senders met after
      all of them failed; it goes direct after a relay if and only if fallback is on
      and every relayed attempt failed. */
  lemma ExchangeOverRuns(tryFragments: bool, relay: bool, fallback: bool, viaRelay: seq<Action>, directly: seq<Action>)
    requires ValidRun(Start(tryFragments), viaRelay) && After(Start(tryFragments), viaRelay).receiver.Done?
    requires ValidRun(Start(tryFragments), directly) && After(Start(tryFragments), directly).receiver.Done?
    ensures var a, b := After(Start(tryFragments), viaRelay), After(Start(tryFragments), directly);
            var x := Exchanged(relay, fallback, a.receiver, b.receiver);
            var last := if x.direct then b else a;
            && x == Exchanged(relay, fallback, Collected(a.received), Collected(b.received))
            && (x.result.Ok? ==> Chosen(last.received, x.result.value))
            && (x.result.Ok? ==> x.result.value.large || |last.received| == |last.senders|)
            && (x.result.Err? ==>
                  AllFailed(last.received) && |last.received| == |last.senders| && x.result.error.Failure?)
            && (x.direct <==> !relay || (fallback && AllFailed(a.received)))
            && x.rounds == if relay && x.direct then 2 else 1
  {
    RunIsCollected(tryFragments, viaRelay);
    RunIsCollected(tryFragments, directly);
    var k := RoundChooses(tryFragments, viaRelay);
    var l := RoundChooses(tryFragments, directly);
  }
}
