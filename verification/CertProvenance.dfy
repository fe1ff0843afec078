/** Which sender a reply comes from. A history beside every run of a certificate
    exchange round notes what each sender's exchange returned and in which order senders
    delivered; it is written from the actions alone. */
module CertProvenance {
  import opened Common
  import opened Sums
  import opened CertExchange

  /** `deliveries` lists senders in delivery order. */
  datatype History = History(outcomes: map<nat, Result<Answer, Error>>, deliveries: seq<nat>)

  function Record(h: History, a: Action): History {
    match a
    case Exchange(i, outcome) => h.(outcomes := h.outcomes[i := outcome])
    case Deliver(i) => h.(deliveries := h.deliveries + [i])
    case _ => h
  }

  /** Replies in delivery order: those received, then those still queued. */
  ghost function Delivered(s: State): seq<Reply> { s.received + s.channel }

  /** The reply is sender i's: of its packet size, and what its exchange returned unless
      it was cancelled before it sent anything. */
  ghost predicate MadeBy(h: History, sizes: seq<bool>, i: nat, reply: Reply) {
    && i < |sizes| && reply.large == sizes[i]
    && (reply.outcome == Err(Canceled) || (i in h.outcomes && h.outcomes[i] == reply.outcome))
  }

  ghost predicate SenderInv(h: History, sizes: seq<bool>, i: nat, w: Sender) {
    && i < |sizes| && w.large == sizes[i]
    && (w.pc.Sending? ==> MadeBy(h, sizes, i, w.pc.reply))
    && (w.pc.Sleeping? || w.pc.Exchanging? ==> i !in h.outcomes)
    && (w.pc.Sent? <==> i in h.deliveries)
  }

  ghost predicate ProvenanceInv(s: State, h: History, sizes: seq<bool>) {
    && |sizes| == |s.senders| && |h.deliveries| == |Delivered(s)| && NoDuplicates(h.deliveries)
    && (forall i :: 0 <= i < |s.senders| ==> SenderInv(h, sizes, i, s.senders[i]))
    && (forall k :: 0 <= k < |h.deliveries| ==> MadeBy(h, sizes, h.deliveries[k], Delivered(s)[k]))
  }

  lemma WakeStep(s: State, h: History, sizes: seq<bool>, i: nat)
    requires Inv(s) && ProvenanceInv(s, h, sizes) && Enabled(s, Wake(i))
    ensures ProvenanceInv(Next(s, Wake(i)), h, sizes)
  {
    assert SenderInv(h, sizes, i, s.senders[i]);
    assert Delivered(Next(s, Wake(i))) == Delivered(s);
  }

  lemma ExchangeStep(s: State, h: History, sizes: seq<bool>, i: nat, outcome: Result<Answer, Error>)
    requires Inv(s) && ProvenanceInv(s, h, sizes) && Enabled(s, Exchange(i, outcome))
    ensures ProvenanceInv(Next(s, Exchange(i, outcome)), Record(h, Exchange(i, outcome)), sizes)
  {
    var s', h' := Next(s, Exchange(i, outcome)), Record(h, Exchange(i, outcome));
    assert SenderInv(h, sizes, i, s.senders[i]);
    assert Delivered(s') == Delivered(s);
    forall k | 0 <= k < |h.deliveries| ensures MadeBy(h', sizes, h.deliveries[k], Delivered(s')[k]) {
      assert MadeBy(h, sizes, h.deliveries[k], Delivered(s)[k]);
    }
    forall j | 0 <= j < |s.senders| && j != i ensures SenderInv(h', sizes, j, s.senders[j]) {
      assert SenderInv(h, sizes, j, s.senders[j]);
    }
  }

  lemma DeliverStep(s: State, h: History, sizes: seq<bool>, i: nat)
    requires Inv(s) && ProvenanceInv(s, h, sizes) && Enabled(s, Deliver(i))
    ensures ProvenanceInv(Next(s, Deliver(i)), Record(h, Deliver(i)), sizes)
  {
    var s', h' := Next(s, Deliver(i)), Record(h, Deliver(i));
    assert SenderInv(h, sizes, i, s.senders[i]);
    assert Delivered(s') == Delivered(s) + [s.senders[i].pc.reply];
    forall k | 0 <= k < |h'.deliveries| ensures MadeBy(h', sizes, h'.deliveries[k], Delivered(s')[k]) {
      if k < |h.deliveries| { assert MadeBy(h, sizes, h.deliveries[k], Delivered(s)[k]); }
    }
    forall j | 0 <= j < |s.senders| ensures SenderInv(h', sizes, j, s'.senders[j]) {
      assert SenderInv(h, sizes, j, s.senders[j]);
    }
  }

  lemma ProvenanceStep(s: State, h: History, sizes: seq<bool>, a: Action)
    requires Inv(s) && ProvenanceInv(s, h, sizes) && Enabled(s, a)
    ensures ProvenanceInv(Next(s, a), Record(h, a), sizes)
  {
    match a
    case Wake(i) => WakeStep(s, h, sizes, i);
    case Exchange(i, outcome) => ExchangeStep(s, h, sizes, i, outcome);
    case Deliver(i) => DeliverStep(s, h, sizes, i);
    case Receive => assert Delivered(Next(s, a)) == Delivered(s);
    case Conclude => assert Delivered(Next(s, a)) == Delivered(s);
  }

  // ---------------------------------------------------------------- runs

  ghost function HistoryAfter(h: History, run: seq<Action>): History
    decreases |run|
  {
    if run == [] then h else HistoryAfter(Record(h, run[0]), run[1..])
  }

  /** What is noted of an exchange is an action of the run. */
  lemma {:induction false} OutcomesAreActions(h: History, run: seq<Action>, i: nat)
    requires i in HistoryAfter(h, run).outcomes
    ensures (i in h.outcomes && h.outcomes[i] == HistoryAfter(h, run).outcomes[i])
            || Exchange(i, HistoryAfter(h, run).outcomes[i]) in run
    decreases |run|
  {
    if run != [] {
      OutcomesAreActions(Record(h, run[0]), run[1..], i);
      assert forall x :: x in run[1..] ==> x in run;
    }
  }

  lemma {:induction false} RunKeepsProvenance(s: State, h: History, sizes: seq<bool>, run: seq<Action>)
    requires Inv(s) && ProvenanceInv(s, h, sizes) && ValidRun(s, run)
    ensures ProvenanceInv(After(s, run), HistoryAfter(h, run), sizes)
    decreases |run|
  {
    if run != [] {
      ProvenanceStep(s, h, sizes, run[0]);
      StepKeepsInv(s, run[0]);
      RunKeepsProvenance(Next(s, run[0]), Record(h, run[0]), sizes, run[1..]);
    }
  }

  /** The packet sizes of a round's senders, when it starts. */
  function Sizes(tryFragments: bool): (r: seq<bool>)
    ensures |r| == |Senders(tryFragments)| && forall i :: 0 <= i < |r| ==> r[i] == Senders(tryFragments)[i].large
  {
    seq(|Senders(tryFragments)|, i requires 0 <= i < |Senders(tryFragments)| => Senders(tryFragments)[i].large)
  }

  ghost function RunHistory(run: seq<Action>): History { HistoryAfter(History(map[], []), run) }

  lemma StartHasProvenance(tryFragments: bool)
    ensures ProvenanceInv(Start(tryFragments), History(map[], []), Sizes(tryFragments))
  {
  }

  function Large(w: Sender): nat { if w.large then 1 else 0 }

  function Small(w: Sender): nat { if w.large then 0 else 1 }

  /** A round has three small senders, and three large ones when fragments are tried. */
  lemma SendersMix(tryFragments: bool)
    ensures Sum(Senders(tryFragments), Large) == if tryFragments then 3 else 0
    ensures Sum(Senders(tryFragments), Small) == 3
  {
    var a, b := Sender(true, Sleeping), Sender(false, Sleeping);
    if tryFragments {
      assert Senders(true) == [a, b, a, b, a, b];
      SumAlternating(a, b, Large);
      SumAlternating(a, b, Small);
    } else {
      assert Senders(false) == [b, b, b];
      SumOf(Senders(false), Large, 0);
      SumOf(Senders(false), Small, 1);
    }
  }

  lemma SumAlternating(a: Sender, b: Sender, f: Sender -> nat)
    ensures Sum([a, b, a, b, a, b], f) == 3 * (f(a) + f(b))
  {
    SumSnoc([], a, f); SumSnoc([a], b, f); SumSnoc([a, b], a, f);
    SumSnoc([a, b, a], b, f); SumSnoc([a, b, a, b], a, f); SumSnoc([a, b, a, b, a], b, f);
    assert [] + [a] == [a] && [a] + [b] == [a, b] && [a, b] + [a] == [a, b, a] && [a, b, a] + [b] == [a, b, a, b];
    assert [a, b, a, b] + [a] == [a, b, a, b, a] && [a, b, a, b, a] + [b] == [a, b, a, b, a, b];
  }

  /** In every run, every reply received is what the exchange of one sender returned,
      marked with that sender's packet size, and no two replies are of one sender. */
  lemma RepliesKeepTheirSender(tryFragments: bool, run: seq<Action>, k: nat)
    requires ValidRun(Start(tryFragments), run) && k < |After(Start(tryFragments), run).received|
    ensures var reply, from := After(Start(tryFragments), run).received[k], RunHistory(run).deliveries;
            && k < |from| && NoDuplicates(from) && from[k] < |Senders(tryFragments)|
            && reply.large == Senders(tryFragments)[from[k]].large
            && Exchange(from[k], reply.outcome) in run
  {
    StartHasProvenance(tryFragments);
    RunKeepsProvenance(Start(tryFragments), History(map[], []), Sizes(tryFragments), run);
    var r, h := After(Start(tryFragments), run), RunHistory(run);
    var i := h.deliveries[k];
    assert MadeBy(h, Sizes(tryFragments), i, Delivered(r)[k]);
    assert Genuine(r.received[k]);
    OutcomesAreActions(History(map[], []), run, i);
  }

  /** What a finished round tells its caller about fragments. If the best option is large,
      a large sender's exchange gave that answer. If it is small, a small sender's did, and
      the exchange of every large sender failed. */
  lemma ResultTellsPacketSize(tryFragments: bool, run: seq<Action>)
    requires ValidRun(Start(tryFragments), run)
    requires After(Start(tryFragments), run).receiver.Done? && After(Start(tryFragments), run).receiver.best.Some?
    ensures var best, senders := After(Start(tryFragments), run).receiver.best.value, Senders(tryFragments);
            && (exists i: nat :: i < |senders| && senders[i].large == best.large && Exchange(i, best.outcome) in run)
            && (!best.large ==> forall i :: 0 <= i < |senders| && senders[i].large ==>
                  exists e :: Exchange(i, Err(e)) in run)
  {
    var r, h := After(Start(tryFragments), run), RunHistory(run);
    var senders := Senders(tryFragments);
    var k := RoundChooses(tryFragments, run);
    RepliesKeepTheirSender(tryFragments, run, k);
    if !r.receiver.best.value.large {
      forall i | 0 <= i < |senders| && senders[i].large ensures exists e :: Exchange(i, Err(e)) in run {
        var m := EverySenderHeard(tryFragments, run, i);
        RepliesKeepTheirSender(tryFragments, run, m);
        assert !LargeSuccess(r.received[m]);
        assert Exchange(i, Err(r.received[m].outcome.error)) in run;
      }
    }
  }

  /** A round that stops only after as many replies as senders has heard each of them. */
  lemma EverySenderHeard(tryFragments: bool, run: seq<Action>, i: nat) returns (m: nat)
    requires ValidRun(Start(tryFragments), run) && i < |Senders(tryFragments)|
    requires var r := After(Start(tryFragments), run); |r.received| == |r.senders|
    ensures m < |After(Start(tryFragments), run).received|
    ensures m < |RunHistory(run).deliveries| && RunHistory(run).deliveries[m] == i
  {
    StartHasProvenance(tryFragments);
    RunKeepsProvenance(Start(tryFragments), History(map[], []), Sizes(tryFragments), run);
    var r, h := After(Start(tryFragments), run), RunHistory(run);
    if !r.senders[i].pc.Sent? {
      SumUpdate(r.senders, i, r.senders[i].(pc := Sent), Unsent);
    }
    assert SenderInv(h, Sizes(tryFragments), i, r.senders[i]);
    m :| 0 <= m < |h.deliveries| && h.deliveries[m] == i;
  }

  /** A sleeping sender may wake at any time, and an exchange may end in any way. */
  lemma SendersAreFree(s: State, i: nat, outcome: Result<Answer, Error>)
    requires i < |s.senders| && (outcome.Err? ==> outcome.error.Failure?)
    ensures s.senders[i].pc.Sleeping? ==> Enabled(s, Wake(i))
    ensures s.senders[i].pc.Exchanging? ==> Enabled(s, Exchange(i, outcome))
  {
  }

  // ---------------------------------------------------------------- cancellation

  predicate Idle(w: Sender) {
    w.pc.Sleeping? || w.pc.Sent? || (w.pc.Sending? && w.pc.reply.outcome == Err(Canceled))
  }

  /** Once the cancel channel is closed, a sender that is still asleep never transmits:
      no continuation of the run contains an exchange of it. */
  lemma {:induction false} CancelStopsSleepers(s: State, run: seq<Action>, i: nat)
    requires Inv(s) && s.closes > 0 && i < |s.senders| && Idle(s.senders[i]) && ValidRun(s, run)
    ensures forall outcome :: Exchange(i, outcome) !in run
    decreases |run|
  {
    if run != [] {
      StepKeepsInv(s, run[0]);
      CancelStopsSleepers(Next(s, run[0]), run[1..], i);
      assert forall x :: x in run ==> x == run[0] || x in run[1..];
    }
  }
}
