/** The client counter: a shared 32-bit word that handlers raise and lower with
    load and compare-and-swap loops. Listeners take one slot per client and DNS64
    evaluation takes one more for its subquery. Every load and every
    compare-and-swap is a step of its own. */
module ClientCounter {
  import opened Sums

  const Word: int := 0x1_0000_0000

  /** Where a handler stands in `clientsCountInc` or `clientsCountDec`. */
  datatype Op =
    | Outside
    | IncLoad
    | IncSwap(seen: nat)
    | Inside
    | DecLoad
    | DecSwap(seen: nat)

  /** A handler and the number of slots it has acquired and not given back. */
  datatype Handler = Handler(held: nat, op: Op)

  datatype State = State(count: nat, handlers: seq<Handler>)

  datatype Action =
    | Arrive(i: nat)
    | Subquery(i: nat)
    | Leave(i: nat)
    | Load(i: nat)
    | Swap(i: nat)

  ghost predicate Init(s: State) {
    s.count == 0 && forall i :: 0 <= i < |s.handlers| ==> s.handlers[i] == Handler(0, Outside)
  }

  predicate Enabled(s: State, a: Action) {
    a.i < |s.handlers| &&
    var h := s.handlers[a.i];
    match a
    case Arrive(_) => h.op.Outside?
    // only a client's own query can start a subquery, the subquery cannot
    case Subquery(_) => h.op.Inside? && h.held == 1
    case Leave(_) => h.op.Inside?
    case Load(_) => h.op.IncLoad? || h.op.DecLoad?
    case Swap(_) => h.op.IncSwap? || h.op.DecSwap?
  }

  /** Where a finished increment or decrement returns to. */
  function Resume(held: nat): Handler {
    Handler(held, if held == 0 then Outside else Inside)
  }

  function Lower(held: nat): nat { if held == 0 then 0 else held - 1 }

  predicate SwapSucceeds(s: State, i: nat)
    requires Enabled(s, Swap(i))
  {
    s.handlers[i].op.seen == s.count
  }

  function Next(max: nat, s: State, a: Action): (r: State)
    requires Enabled(s, a)
    ensures |r.handlers| == |s.handlers|
  {
    var h := s.handlers[a.i];
    match a
    case Arrive(i) => s.(handlers := s.handlers[i := h.(op := IncLoad)])
    case Subquery(i) => s.(handlers := s.handlers[i := h.(op := IncLoad)])
    case Leave(i) => s.(handlers := s.handlers[i := h.(op := DecLoad)])
    case Load(i) =>
      if h.op.IncLoad? then
        if s.count >= max then s.(handlers := s.handlers[i := Resume(h.held)])
        else s.(handlers := s.handlers[i := h.(op := IncSwap(s.count))])
      else
        if s.count == 0 then s.(handlers := s.handlers[i := Resume(Lower(h.held))])
        else s.(handlers := s.handlers[i := h.(op := DecSwap(s.count))])
    case Swap(i) =>
      if h.op.IncSwap? then
        if h.op.seen == s.count
        then State((h.op.seen + 1) % Word, s.handlers[i := Resume(h.held + 1)])
        else s.(handlers := s.handlers[i := h.(op := IncLoad)])
      else
        if h.op.seen == s.count
        then State((h.op.seen - 1) % Word, s.handlers[i := Resume(Lower(h.held))])
        else s.(handlers := s.handlers[i := h.(op := DecLoad)])
  }

  function Held(h: Handler): nat { h.held }

  ghost predicate HandlerInv(max: nat, h: Handler) {
    match h.op
    case Outside => h.held == 0
    case IncLoad => h.held <= 1
    case IncSwap(seen) => h.held <= 1 && seen < max
    case Inside => 1 <= h.held <= 2
    case DecLoad => 1 <= h.held <= 2
    case DecSwap(seen) => 1 <= h.held <= 2 && 0 < seen <= max
  }

  ghost predicate Inv(max: nat, s: State) {
    && s.count == Sum(s.handlers, Held)
    && s.count <= max
    && forall i :: 0 <= i < |s.handlers| ==> HandlerInv(max, s.handlers[i])
  }

  lemma SumAtLeast(s: seq<Handler>, i: int)
    requires 0 <= i < |s|
    ensures Sum(s, Held) >= s[i].held
  {
    SumUpdate(s, i, Handler(0, Outside), Held);
  }

  /** The counter moves by exactly as much as the stepping handler's slots. */
  lemma StepKeepsHandler(max: nat, s: State, a: Action)
    requires max < Word && Enabled(s, a) && HandlerInv(max, s.handlers[a.i])
    requires s.handlers[a.i].held <= s.count <= max
    ensures var s' := Next(max, s, a);
            && HandlerInv(max, s'.handlers[a.i])
            && s'.handlers == s.handlers[a.i := s'.handlers[a.i]]
            && s'.count - s.count == s'.handlers[a.i].held - s.handlers[a.i].held
            && s'.count <= max
  {
  }

  lemma StepKeepsInv(max: nat, s: State, a: Action)
    requires max < Word && Inv(max, s) && Enabled(s, a)
    ensures Inv(max, Next(max, s, a))
  {
    SumAtLeast(s.handlers, a.i);
    StepKeepsHandler(max, s, a);
    SumUpdate(s.handlers, a.i, Next(max, s, a).handlers[a.i], Held);
  }

  // ---------------------------------------------------------------- runs

  ghost predicate ValidRun(max: nat, s: State, run: seq<Action>)
    decreases |run|
  {
    run != [] ==> Enabled(s, run[0]) && ValidRun(max, Next(max, s, run[0]), run[1..])
  }

  ghost function After(max: nat, s: State, run: seq<Action>): (r: State)
    requires ValidRun(max, s, run)
    ensures |r.handlers| == |s.handlers|
    decreases |run|
  {
    if run == [] then s else After(max, Next(max, s, run[0]), run[1..])
  }

  lemma {:induction false} RunKeepsInv(max: nat, s: State, run: seq<Action>)
    requires max < Word && Inv(max, s) && ValidRun(max, s, run)
    ensures Inv(max, After(max, s, run))
    decreases |run|
  {
    if run != [] {
      StepKeepsInv(max, s, run[0]);
      RunKeepsInv(max, Next(max, s, run[0]), run[1..]);
    }
  }

  /** In every interleaving the counter equals the number of slots held, never
      exceeds the maximum, and no handler holds more than two slots. */
  lemma CounterIsExact(max: nat, s: State, run: seq<Action>)
    requires max < 0x1_0000_0000 && Init(s) && ValidRun(max, s, run)
    ensures var r := After(max, s, run);
            && r.count == Sum(r.handlers, Held) <= max
            && (forall i :: 0 <= i < |r.handlers| ==> r.handlers[i].held <= 2)
            && ((forall i :: 0 <= i < |r.handlers| ==> r.handlers[i].op.Outside?) ==> r.count == 0)
  {
    SumOf(s.handlers, Held, 0);
    RunKeepsInv(max, s, run);
    var r := After(max, s, run);
    forall i | 0 <= i < |r.handlers| ensures r.handlers[i].held <= 2 {
      assert HandlerInv(max, r.handlers[i]);
    }
    if forall i :: 0 <= i < |r.handlers| ==> r.handlers[i].op.Outside? {
      forall i | 0 <= i < |r.handlers| ensures Held(r.handlers[i]) == 0 {
        assert HandlerInv(max, r.handlers[i]);
      }
      SumOf(r.handlers, Held, 0);
    }
  }

  /** A decrement never finds zero, so the early exit of `clientsCountDec` that
      would drop a slot without giving it back is never taken; and an increment is
      refused exactly when all slots are held. */
  lemma LoadsAreHonest(max: nat, s: State, run: seq<Action>, i: nat)
    requires max < 0x1_0000_0000 && Init(s) && ValidRun(max, s, run)
    requires Enabled(After(max, s, run), Load(i))
    ensures var r := After(max, s, run);
            && (r.handlers[i].op.DecLoad? ==> r.count > 0)
            && (r.handlers[i].op.IncLoad? ==>
                  (Next(max, r, Load(i)).handlers[i] == Resume(r.handlers[i].held) <==> Sum(r.handlers, Held) == max))
  {
    SumOf(s.handlers, Held, 0);
    RunKeepsInv(max, s, run);
    var r := After(max, s, run);
    assert HandlerInv(max, r.handlers[i]);
    SumAtLeast(r.handlers, i);
  }

  predicate Incrementing(h: Handler) { h.op.IncLoad? || h.op.IncSwap? }

  predicate Decrementing(h: Handler) { h.op.DecLoad? || h.op.DecSwap? }

  predicate AtRest(h: Handler) { h.op.Outside? || h.op.Inside? }

  /** How increments and decrements end, whatever step ends them, in every run: an
      increment is refused if and only if all slots are held at that moment, and
      otherwise takes exactly one slot; a decrement gives back exactly one; and no step
      of one handler touches another. */
  lemma OperationsEndProperly(max: nat, s: State, run: seq<Action>, a: Action, i: nat)
    requires max < 0x1_0000_0000 && Init(s) && ValidRun(max, s, run)
    requires Enabled(After(max, s, run), a) && i < |s.handlers|
    ensures var r := After(max, s, run);
            var h, h' := r.handlers[i], Next(max, r, a).handlers[i];
            && (i != a.i ==> h' == h)
            && (Incrementing(h) && AtRest(h') ==>
                  h'.held == if Sum(r.handlers, Held) == max then h.held else h.held + 1)
            && (Decrementing(h) && AtRest(h') ==> h'.held == h.held - 1)
  {
    SumOf(s.handlers, Held, 0);
    RunKeepsInv(max, s, run);
    var r := After(max, s, run);
    assert HandlerInv(max, r.handlers[a.i]);
    SumAtLeast(r.handlers, a.i);
  }

  /** Nothing but its own place holds a handler back. */
  lemma HandlersAreFree(s: State, i: nat)
    requires i < |s.handlers|
    ensures var h := s.handlers[i];
            && (h.op.Outside? ==> Enabled(s, Arrive(i))) && (h.op.Inside? ==> Enabled(s, Leave(i)))
            && (h.op.Inside? && h.held == 1 ==> Enabled(s, Subquery(i)))
            && (h.op.IncLoad? || h.op.DecLoad? ==> Enabled(s, Load(i)))
            && (h.op.IncSwap? || h.op.DecSwap? ==> Enabled(s, Swap(i)))
  {
  }

  /** Left alone, a handler that starts to take or to give back a slot is done after
      its load and its swap. */
  lemma AloneTwoStepsSuffice(max: nat, s: State, run: seq<Action>, a: Action)
    requires max < 0x1_0000_0000 && Init(s) && ValidRun(max, s, run)
    requires Enabled(After(max, s, run), a) && (a.Arrive? || a.Subquery? || a.Leave?)
    requires a.Leave? || After(max, s, run).count < max
    ensures var r := After(max, s, run);
            var r1 := Next(max, r, a);
            && Enabled(r1, Load(a.i))
            && var r2 := Next(max, r1, Load(a.i));
            && Enabled(r2, Swap(a.i))
            && var r3 := Next(max, r2, Swap(a.i));
            && AtRest(r3.handlers[a.i])
            && r3.handlers[a.i].held == r.handlers[a.i].held + (if a.Leave? then -1 else 1)
            && r3.count == r.count + (if a.Leave? then -1 else 1)
  {
    SumOf(s.handlers, Held, 0);
    RunKeepsInv(max, s, run);
    var r := After(max, s, run);
    assert HandlerInv(max, r.handlers[a.i]);
    SumAtLeast(r.handlers, a.i);
  }

  // ---------------------------------------------------------------- lock freedom

  /** Handlers whose pending compare-and-swap is bound to fail if nothing changes. */
  ghost function Stale(s: State): nat { Sum(s.handlers, h => StaleAt(s.count, h)) }

  ghost function StaleAt(count: nat, h: Handler): nat {
    if (h.op.IncSwap? || h.op.DecSwap?) && h.op.seen != count then 1 else 0
  }

  ghost function Failures(max: nat, s: State, run: seq<Action>): nat
    requires ValidRun(max, s, run)
    decreases |run|
  {
    if run == [] then 0
    else (if run[0].Swap? && !SwapSucceeds(s, run[0].i) then 1 else 0) + Failures(max, Next(max, s, run[0]), run[1..])
  }

  ghost function Swaps(max: nat, s: State, run: seq<Action>): nat
    requires ValidRun(max, s, run)
    decreases |run|
  {
    if run == [] then 0
    else (if run[0].Swap? && SwapSucceeds(s, run[0].i) then 1 else 0) + Swaps(max, Next(max, s, run[0]), run[1..])
  }

  lemma StaleStep(max: nat, s: State, a: Action)
    requires Enabled(s, a)
    ensures a.Swap? && SwapSucceeds(s, a.i) ==> Stale(Next(max, s, a)) <= |s.handlers|
    ensures a.Swap? && !SwapSucceeds(s, a.i) ==> Stale(Next(max, s, a)) + 1 == Stale(s)
    ensures !a.Swap? ==> Stale(Next(max, s, a)) <= Stale(s)
  {
    var s' := Next(max, s, a);
    if a.Swap? && SwapSucceeds(s, a.i) {
      SumAtMost(s'.handlers, h => StaleAt(s'.count, h), 1);
    } else {
      assert s'.count == s.count;
      SumUpdate(s.handlers, a.i, s'.handlers[a.i], h => StaleAt(s.count, h));
      assert s'.handlers == s.handlers[a.i := s'.handlers[a.i]];
    }
  }

  lemma {:induction false} FailuresArePaid(max: nat, s: State, run: seq<Action>)
    requires ValidRun(max, s, run)
    ensures Failures(max, s, run) + Stale(After(max, s, run)) <= Stale(s) + |s.handlers| * Swaps(max, s, run)
    decreases |run|
  {
    if run != [] {
      var s1 := Next(max, s, run[0]);
      StaleStep(max, s, run[0]);
      FailuresArePaid(max, s1, run[1..]);
      Distribute(|s.handlers|, Swaps(max, s1, run[1..]));
    }
  }

  lemma Distribute(n: nat, k: nat)
    ensures n * (1 + k) == n + n * k
  {
  }

  /** The retry loops are lock free: with n handlers, every n failed
      compare-and-swaps are paid for by at least one that succeeded. */
  lemma RetriesAreLockFree(max: nat, s: State, run: seq<Action>)
    requires Init(s) && ValidRun(max, s, run)
    ensures Failures(max, s, run) <= |s.handlers| * Swaps(max, s, run)
  {
    SumOf(s.handlers, h => StaleAt(s.count, h), 0);
    FailuresArePaid(max, s, run);
  }
}
