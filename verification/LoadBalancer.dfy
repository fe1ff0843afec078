/** The load balancer over the pool of live servers: selection strategies, the
    RTT estimator with its partial sort, and the potential argument that bounds
    how often it can promote a candidate. */
module LoadBalancer {
  import opened Common

  // ---------------------------------------------------------------- strategies

  datatype Strategy = P2 | PN(n: int) | PH | First | Random

  /** The configuration loader only builds a `PN` strategy for a positive n. */
  predicate ValidStrategy(s: Strategy) { s.PN? ==> s.n >= 1 }

  function ActiveCount(s: Strategy, count: int): int {
    match s
    case P2 => Min(count, 2)
    case PN(n) => Min(count, n)
    case PH => Max(Min(count, 2), count / 2)
    case First => 1
    case Random => count
  }

  /** `rand.Intn(k)`: any draw, brought into range; a draw below k is itself. The source panics unless k is positive. */
  function Intn(draw: nat, k: int): (r: int)
    requires k > 0
    ensures 0 <= r < k
  {
    if draw < k then draw else draw % k
  }

  function GetCandidate(s: Strategy, count: int, draw: nat): (r: int)
    requires ValidStrategy(s) && count > 0
    ensures 0 <= r < ActiveCount(s, count) <= count
  {
    match s
    case P2 => Intn(draw, Min(count, 2))
    case PN(n) => Intn(draw, Min(count, n))
    case PH => Intn(draw, Max(Min(count, 2), count / 2))
    case First => 0
    case Random => Intn(draw, count)
  }

  // ---------------------------------------------------------------- the pool

  /** A live server. `payload` stands for what a certificate refresh brings in
      (keys, magic, addresses); times are in nanoseconds. */
  datatype Server = Server(name: string, payload: nat, initialRtt: int, rtt: real, lastAction: int)

  type Pool = seq<Server>

  const OneMinute: int := 60_000_000_000

  /** A moving average of age 10 that `Set` has already warmed up. */
  function EwmaAdd(value: real, sample: real): real {
    sample * (2.0 / 11.0) + value * (9.0 / 11.0)
  }

  function Swap(s: Pool, i: int, j: int): (r: Pool)
    requires 0 <= i < |s| && 0 <= j < |s|
    ensures |r| == |s|
  {
    s[i := s[j]][j := s[i]]
  }

  /** One left-to-right pass of adjacent exchanges, starting at index i. */
  function BubbleFrom(s: Pool, i: int): (r: Pool)
    requires i >= 1
    ensures |r| == |s|
    decreases |s| - i
  {
    if i >= |s| then s
    else BubbleFrom(if s[i-1].rtt > s[i].rtt then Swap(s, i - 1, i) else s, i + 1)
  }

  function BubblePass(s: Pool): (r: Pool)
    ensures |r| == |s|
  {
    BubbleFrom(s, 1)
  }

  datatype Branch = Unknown | Promote | Retry | Keep

  /** Which branch the estimator takes for the given active server and candidate. */
  function BranchTaken(s: Pool, active: int, current: int, candidate: int, now: int): Branch
    requires 0 <= current < active <= candidate < |s|
  {
    var c, a := s[candidate].rtt, s[current].rtt;
    if a < 0.0 then Unknown
    else if c < a then Promote
    else if c > 0.0 && c >= (s[0].rtt + s[active-1].rtt) / 2.0 * 4.0
            && now - s[candidate].lastAction > OneMinute then Retry
    else Keep
  }

  /** The pool after `estimatorUpdate`, once the candidate has been drawn. */
  function Update(s: Pool, active: int, current: int, candidate: int, now: int): (r: Pool)
    requires 0 <= current < active <= candidate < |s|
    ensures |r| == |s|
  {
    match BranchTaken(s, active, current, candidate, now)
    case Unknown => s[current := s[current].(rtt := s[candidate].rtt)]
    case Promote => BubblePass(Swap(s, candidate, current))
    case Retry =>
      var c := s[candidate];
      BubblePass(s[candidate := c.(rtt := EwmaAdd(c.rtt, c.rtt / 2.0))])
    case Keep => s
  }

  /** The candidate an estimator run looks at, drawn among the inactive servers. */
  function Probed(strategy: Strategy, count: int, draw: nat): (r: int)
    requires ActiveCount(strategy, count) < count
    ensures ActiveCount(strategy, count) <= r < count
  {
    Intn(draw, count - ActiveCount(strategy, count)) + ActiveCount(strategy, count)
  }

  function Estimate(s: Pool, strategy: Strategy, current: int, draw: nat, now: int): (r: Pool)
    requires 0 <= current < ActiveCount(strategy, |s|) <= |s|
    ensures |r| == |s|
  {
    if ActiveCount(strategy, |s|) == |s| then s
    else Update(s, ActiveCount(strategy, |s|), current, Probed(strategy, |s|, draw), now)
  }

  /** `getOne` on a non-empty pool: the pool afterwards and the index handed out. */
  function PoolAfterGetOne(s: Pool, strategy: Strategy, estimator: bool, draw: nat, probe: nat, now: int): (r: Pool)
    requires ValidStrategy(strategy) && s != []
    ensures |r| == |s|
  {
    if estimator then Estimate(s, strategy, GetCandidate(strategy, |s|, draw), probe, now) else s
  }

  // ---------------------------------------------------------------- identity is preserved

  /** Who is in the pool: name and payload of every entry, in order. */
  function Ids(s: Pool): (r: seq<(string, nat)>)
    ensures |r| == |s|
    ensures forall i :: 0 <= i < |s| ==> r[i] == (s[i].name, s[i].payload)
  {
    seq(|s|, i requires 0 <= i < |s| => (s[i].name, s[i].payload))
  }

  lemma SwapKeepsServers(s: Pool, i: int, j: int)
    requires 0 <= i < |s| && 0 <= j < |s|
    ensures multiset(Swap(s, i, j)) == multiset(s)
  {
  }

  lemma {:induction false} BubbleKeepsServers(s: Pool, i: int)
    requires i >= 1
    ensures multiset(BubbleFrom(s, i)) == multiset(s)
    decreases |s| - i
  {
    if i < |s| {
      if s[i-1].rtt > s[i].rtt {
        SwapKeepsServers(s, i - 1, i);
        BubbleKeepsServers(Swap(s, i - 1, i), i + 1);
      } else {
        BubbleKeepsServers(s, i + 1);
      }
    }
  }

  /** Taking the entry at k out takes its server and its identity out of the multisets. */
  lemma WithoutEntry(t: Pool, k: int)
    requires 0 <= k < |t|
    ensures multiset(t) == multiset(t[..k] + t[k+1..]) + multiset{t[k]}
    ensures multiset(Ids(t)) == multiset(Ids(t[..k] + t[k+1..])) + multiset{(t[k].name, t[k].payload)}
  {
    var rest := t[..k] + t[k+1..];
    assert t == t[..k] + [t[k]] + t[k+1..];
    assert Ids(t) == Ids(t)[..k] + [(t[k].name, t[k].payload)] + Ids(t)[k+1..];
    assert Ids(rest) == Ids(t)[..k] + Ids(t)[k+1..];
  }

  /** Equal multisets of servers give equal multisets of identities. */
  lemma {:induction false} PermutationKeepsIds(s: Pool, t: Pool)
    requires multiset(s) == multiset(t)
    ensures multiset(Ids(s)) == multiset(Ids(t))
    decreases |s|
  {
    if |s| == 0 {
      assert |multiset(t)| == |t|;
    } else {
      assert s[0] in multiset(s);
      assert s[0] in t;
      var k :| 0 <= k < |t| && t[k] == s[0];
      WithoutEntry(s, 0);
      WithoutEntry(t, k);
      assert multiset(s[..0] + s[1..]) == multiset(s) - multiset{s[0]};
      assert multiset(t[..k] + t[k+1..]) == multiset(t) - multiset{s[0]};
      PermutationKeepsIds(s[..0] + s[1..], t[..k] + t[k+1..]);
    }
  }

  lemma PromoteKeepsIds(s: Pool, candidate: int, current: int)
    requires 0 <= current < candidate < |s|
    ensures multiset(Ids(BubblePass(Swap(s, candidate, current)))) == multiset(Ids(s))
  {
    SwapKeepsServers(s, candidate, current);
    BubbleKeepsServers(Swap(s, candidate, current), 1);
    PermutationKeepsIds(BubblePass(Swap(s, candidate, current)), s);
  }

  lemma RetimeKeepsIds(s: Pool, i: int, rtt: real)
    requires 0 <= i < |s|
    ensures Ids(s[i := s[i].(rtt := rtt)]) == Ids(s)
  {
  }

  lemma RetryKeepsIds(s: Pool, i: int, rtt: real)
    requires 0 <= i < |s|
    ensures multiset(Ids(BubblePass(s[i := s[i].(rtt := rtt)]))) == multiset(Ids(s))
  {
    var t := s[i := s[i].(rtt := rtt)];
    RetimeKeepsIds(s, i, rtt);
    BubbleKeepsServers(t, 1);
    PermutationKeepsIds(BubblePass(t), t);
  }

  /** Every estimator update permutes the pool: whatever branch is taken and
      whatever RTTs it rewrites, the same servers are in the pool afterwards. */
  lemma UpdateKeepsIds(s: Pool, active: int, current: int, candidate: int, now: int)
    requires 0 <= current < active <= candidate < |s|
    ensures multiset(Ids(Update(s, active, current, candidate, now))) == multiset(Ids(s))
  {
    match BranchTaken(s, active, current, candidate, now)
    case Unknown => RetimeKeepsIds(s, current, s[candidate].rtt);
    case Promote => PromoteKeepsIds(s, candidate, current);
    case Retry => RetryKeepsIds(s, candidate, EwmaAdd(s[candidate].rtt, s[candidate].rtt / 2.0));
    case Keep =>
  }

  lemma GetOneKeepsIds(s: Pool, strategy: Strategy, estimator: bool, draw: nat, probe: nat, now: int)
    requires ValidStrategy(strategy) && s != []
    ensures multiset(Ids(PoolAfterGetOne(s, strategy, estimator, draw, probe, now))) == multiset(Ids(s))
  {
    if estimator && ActiveCount(strategy, |s|) != |s| {
      UpdateKeepsIds(s, ActiveCount(strategy, |s|), GetCandidate(strategy, |s|, draw),
                     Probed(strategy, |s|, probe), now);
    }
  }

  // ---------------------------------------------------------------- what a pass achieves

  ghost predicate SlowestLast(s: Pool) {
    forall i :: 0 <= i < |s| ==> s[i].rtt <= s[|s|-1].rtt
  }

  lemma {:induction false} BubbleMovesSlowest(s: Pool, i: int)
    requires 1 <= i <= |s|
    requires forall k :: 0 <= k < i ==> s[k].rtt <= s[i-1].rtt
    ensures SlowestLast(BubbleFrom(s, i))
    decreases |s| - i
  {
    if i < |s| {
      BubbleMovesSlowest(if s[i-1].rtt > s[i].rtt then Swap(s, i - 1, i) else s, i + 1);
    }
  }

  /** Whenever the estimator runs its partial sort, a slowest server ends up last. */
  lemma PartialSortPutsSlowestLast(s: Pool, active: int, current: int, candidate: int, now: int)
    requires 0 <= current < active <= candidate < |s|
    requires BranchTaken(s, active, current, candidate, now) in {Promote, Retry}
    ensures SlowestLast(Update(s, active, current, candidate, now))
  {
    var c := s[candidate];
    if BranchTaken(s, active, current, candidate, now) == Promote {
      BubbleMovesSlowest(Swap(s, candidate, current), 1);
    } else {
      BubbleMovesSlowest(s[candidate := c.(rtt := EwmaAdd(c.rtt, c.rtt / 2.0))], 1);
    }
  }

  /** Giving a slow candidate a new chance lowers its RTT to 10/11 of what it was and
      leaves every other server as it is. */
  lemma RetryLowersOneRtt(s: Pool, active: int, current: int, candidate: int, now: int)
    requires 0 <= current < active <= candidate < |s|
    requires BranchTaken(s, active, current, candidate, now) == Retry
    ensures var c := s[candidate];
            multiset(Update(s, active, current, candidate, now))
            == multiset(s) - multiset{c} + multiset{c.(rtt := c.rtt * 10.0 / 11.0)}
  {
    var c := s[candidate];
    var t := s[candidate := c.(rtt := EwmaAdd(c.rtt, c.rtt / 2.0))];
    assert EwmaAdd(c.rtt, c.rtt / 2.0) == c.rtt * 10.0 / 11.0;
    BubbleKeepsServers(t, 1);
  }

  /** When each branch is taken: an unknown RTT of the server in use comes first, then a
      faster candidate; a candidate at least four times slower than the mean of the first
      and last active server gets a new chance after more than a minute of rest. */
  lemma BranchMeaning(s: Pool, active: int, current: int, candidate: int, now: int)
    requires 0 <= current < active <= candidate < |s|
    ensures var branch, a, c := BranchTaken(s, active, current, candidate, now), s[current].rtt, s[candidate].rtt;
            && (branch == Unknown <==> a < 0.0)
            && (branch == Promote <==> 0.0 <= a && c < a)
            && (branch == Retry <==>
                  && 0.0 <= a <= c && c > 0.0 && c >= 2.0 * (s[0].rtt + s[active-1].rtt)
                  && now > s[candidate].lastAction + 60 * 1_000_000_000)
  {
  }

  /** A server in use whose RTT is unknown takes over the candidate's; nothing else moves. */
  lemma UnknownAdoptsCandidate(s: Pool, active: int, current: int, candidate: int, now: int, i: int)
    requires 0 <= current < active <= candidate < |s| && 0 <= i < |s|
    requires s[current].rtt < 0.0
    ensures var r := Update(s, active, current, candidate, now)[i];
            r == if i == current then s[i].(rtt := s[candidate].rtt) else s[i]
  {
  }

  /** With the estimator off, and with every server active, the pool stays as it is. */
  lemma PoolStaysWithoutEstimator(s: Pool, strategy: Strategy, estimator: bool, draw: nat, probe: nat, now: int)
    requires ValidStrategy(strategy) && s != [] && (!estimator || strategy == Random)
    ensures PoolAfterGetOne(s, strategy, estimator, draw, probe, now) == s
  {
  }

  /** The size of the active group: two, n, half of the pool but at least two, one or all
      servers, as far as there are that many. */
  lemma ActiveGroup(count: nat, n: nat)
    requires count >= 1 && n >= 1
    ensures ActiveCount(P2, count) == if count == 1 then 1 else 2
    ensures ActiveCount(PN(n), count) == if n <= count then n else count
    ensures ActiveCount(PH, count) == if count == 1 then 1 else if count <= 5 then 2 else count / 2
    ensures ActiveCount(First, count) == 1 && ActiveCount(Random, count) == count
  {
  }

  // ---------------------------------------------------------------- the active group gets faster

  /** The RTTs of the first n servers, added up. */
  ghost function TotalRtt(s: Pool, n: nat): real
    requires n <= |s|
  {
    if n == 0 then 0.0 else TotalRtt(s, n - 1) + s[n-1].rtt
  }

  lemma {:induction false} TotalAfterChange(s: Pool, i: int, x: Server, n: nat)
    requires 0 <= i < |s| && n <= |s|
    ensures TotalRtt(s[i := x], n) == TotalRtt(s, n) + if i < n then x.rtt - s[i].rtt else 0.0
  {
    if n > 0 { TotalAfterChange(s, i, x, n - 1); }
  }

  lemma TotalAfterSwap(s: Pool, i: int, j: int, n: nat)
    requires 0 <= i < |s| && 0 <= j < |s| && i != j && n <= |s|
    ensures TotalRtt(Swap(s, i, j), n) == TotalRtt(s, n)
              + (if i < n then s[j].rtt - s[i].rtt else 0.0) + (if j < n then s[i].rtt - s[j].rtt else 0.0)
  {
    TotalAfterChange(s, i, s[j], n);
    TotalAfterChange(s[i := s[j]], j, s[i], n);
  }

  lemma {:induction false} BubbleKeepsTotalDown(s: Pool, i: int, n: nat)
    requires i >= 1 && n <= |s|
    ensures TotalRtt(BubbleFrom(s, i), n) <= TotalRtt(s, n)
    decreases |s| - i
  {
    if i < |s| {
      if s[i-1].rtt > s[i].rtt {
        TotalAfterSwap(s, i - 1, i, n);
        BubbleKeepsTotalDown(Swap(s, i - 1, i), i + 1, n);
      } else {
        BubbleKeepsTotalDown(s, i + 1, n);
      }
    }
  }

  /** A promotion makes the active group faster as a whole, by at least the difference
      between the server in use and the candidate. */
  lemma PromotionSpeedsUpActive(s: Pool, active: int, current: int, candidate: int, now: int)
    requires 0 <= current < active <= candidate < |s|
    requires BranchTaken(s, active, current, candidate, now) == Promote
    ensures TotalRtt(Update(s, active, current, candidate, now), active)
            <= TotalRtt(s, active) - (s[current].rtt - s[candidate].rtt) < TotalRtt(s, active)
  {
    TotalAfterSwap(s, candidate, current, active);
    BubbleKeepsTotalDown(Swap(s, candidate, current), 1, active);
  }

  // ---------------------------------------------------------------- inversions as a potential

  /** Index pairs whose RTTs are in the wrong order. */
  ghost function Inversions(s: Pool): set<(int, int)> {
    set i: int, j: int | 0 <= i < |s| && i < j < |s| && s[i].rtt > s[j].rtt :: (i, j)
  }

  /** How an inversion of the exchanged pool is charged to one of the original:
      the two exchanged positions trade roles unless the other end lies between them. */
  ghost function Charge(p: (int, int), a: int, c: int): (int, int) {
    if p.1 == a then (p.0, c)
    else if p.1 == c && p.0 < a then (p.0, a)
    else if p.0 == c then (a, p.1)
    else if p.0 == a && p.1 > c then (c, p.1)
    else p
  }

  lemma {:induction false} InjectionBound(xs: set<(int, int)>, ys: set<(int, int)>, a: int, c: int)
    requires a < c
    requires forall p :: p in xs ==> p.0 < p.1
    requires forall p :: p in xs ==> Charge(p, a, c) in ys
    ensures |xs| <= |ys|
    decreases |xs|
  {
    if xs != {} {
      var p :| p in xs;
      forall q | q in xs - {p} ensures Charge(q, a, c) in ys - {Charge(p, a, c)} {
        assert Charge(Charge(q, a, c), a, c) == q;
        assert Charge(Charge(p, a, c), a, c) == p;
      }
      InjectionBound(xs - {p}, ys - {Charge(p, a, c)}, a, c);
    }
  }

  /** Exchanging an inverted pair, adjacent or not, removes at least one inversion. */
  lemma ExchangeLosesInversions(s: Pool, a: int, c: int)
    requires 0 <= a < c < |s| && s[a].rtt > s[c].rtt
    ensures |Inversions(Swap(s, a, c))| < |Inversions(s)|
  {
    var before, after := Inversions(s), Inversions(Swap(s, a, c));
    assert (a, c) in before;
    forall p | p in after ensures Charge(p, a, c) in before - {(a, c)} {
    }
    InjectionBound(after, before - {(a, c)}, a, c);
  }

  lemma {:induction false} BubbleKeepsInversionsDown(s: Pool, i: int)
    requires i >= 1
    ensures |Inversions(BubbleFrom(s, i))| <= |Inversions(s)|
    decreases |s| - i
  {
    if i < |s| {
      if s[i-1].rtt > s[i].rtt {
        ExchangeLosesInversions(s, i - 1, i);
        BubbleKeepsInversionsDown(Swap(s, i - 1, i), i + 1);
      } else {
        BubbleKeepsInversionsDown(s, i + 1);
      }
    }
  }

  /** The promotion branch strictly lowers the number of RTT inversions. */
  lemma PromotionLosesInversions(s: Pool, active: int, current: int, candidate: int, now: int)
    requires 0 <= current < active <= candidate < |s|
    requires BranchTaken(s, active, current, candidate, now) == Promote
    ensures |Inversions(Update(s, active, current, candidate, now))| < |Inversions(s)|
  {
    assert Swap(s, candidate, current) == Swap(s, current, candidate);
    ExchangeLosesInversions(s, current, candidate);
    BubbleKeepsInversionsDown(Swap(s, candidate, current), 1);
  }

  lemma {:induction false} InversionsAtMost(s: Pool)
    ensures 2 * |Inversions(s)| <= |s| * (|s| - 1)
    decreases |s|
  {
    if |s| > 0 {
      InversionsAtMost(s[..|s|-1]);
      InversionsOfLast(s);
      NextTriangle(|s| - 1);
    }
  }

  lemma NextTriangle(n: nat)
    ensures (n + 1) * n == n * (n - 1) + 2 * n
  {
  }

  lemma InversionsOfLast(s: Pool)
    requires |s| > 0
    ensures |Inversions(s)| <= |Inversions(s[..|s|-1])| + |s| - 1
  {
    var n := |s| - 1;
    var top := set p | p in Inversions(s) && p.1 == n;
    assert Inversions(s) == Inversions(s[..n]) + top;
    PairsEndingAt(top, n, n);
  }

  lemma {:induction false} PairsEndingAt(ps: set<(int, int)>, bound: nat, n: int)
    requires forall p :: p in ps ==> 0 <= p.0 < bound && p.1 == n
    ensures |ps| <= bound
  {
    if bound == 0 {
      assert ps == {};
    } else {
      PairsEndingAt(ps - {(bound - 1, n)}, bound - 1, n);
    }
  }

  // ---------------------------------------------------------------- runs of the estimator

  /** One call of `getOne` with the estimator on: its two random draws and the clock. */
  datatype Call = Call(draw: nat, probe: nat, now: int)

  function BranchOf(s: Pool, strategy: Strategy, call: Call): Branch
    requires ValidStrategy(strategy) && s != []
  {
    var active := ActiveCount(strategy, |s|);
    var current := GetCandidate(strategy, |s|, call.draw);
    if active == |s| then Keep
    else BranchTaken(s, active, current, Probed(strategy, |s|, call.probe), call.now)
  }

  /** The pool after a run of calls. */
  function RunCalls(s: Pool, strategy: Strategy, calls: seq<Call>): (r: Pool)
    requires ValidStrategy(strategy) && s != []
    ensures |r| == |s|
    decreases |calls|
  {
    if calls == [] then s
    else RunCalls(PoolAfterGetOne(s, strategy, true, calls[0].draw, calls[0].probe, calls[0].now), strategy, calls[1..])
  }

  /** No call of the run rewrites an RTT. */
  ghost predicate RttsFixed(s: Pool, strategy: Strategy, calls: seq<Call>)
    requires ValidStrategy(strategy) && s != []
    decreases |calls|
  {
    calls != [] ==>
      && BranchOf(s, strategy, calls[0]) in {Promote, Keep}
      && RttsFixed(PoolAfterGetOne(s, strategy, true, calls[0].draw, calls[0].probe, calls[0].now),
                   strategy, calls[1..])
  }

  ghost function Promotions(s: Pool, strategy: Strategy, calls: seq<Call>): nat
    requires ValidStrategy(strategy) && s != []
    decreases |calls|
  {
    if calls == [] then 0
    else (if BranchOf(s, strategy, calls[0]) == Promote then 1 else 0)
         + Promotions(PoolAfterGetOne(s, strategy, true, calls[0].draw, calls[0].probe, calls[0].now),
                      strategy, calls[1..])
  }

  lemma {:induction false} PromotionsPayInversions(s: Pool, strategy: Strategy, calls: seq<Call>)
    requires ValidStrategy(strategy) && s != []
    requires RttsFixed(s, strategy, calls)
    ensures Promotions(s, strategy, calls) + |Inversions(RunCalls(s, strategy, calls))| <= |Inversions(s)|
    decreases |calls|
  {
    if calls != [] {
      var call := calls[0];
      var next := PoolAfterGetOne(s, strategy, true, call.draw, call.probe, call.now);
      if BranchOf(s, strategy, call) == Promote {
        PromotionLosesInversions(s, ActiveCount(strategy, |s|), GetCandidate(strategy, |s|, call.draw),
                                 Probed(strategy, |s|, call.probe), call.now);
      }
      PromotionsPayInversions(next, strategy, calls[1..]);
    }
  }

  /** While no RTT changes, whatever the strategy, the pool and the random draws,
      the estimator promotes a candidate at most n(n-1)/2 times. */
  lemma PromotionsBounded(s: Pool, strategy: Strategy, calls: seq<Call>)
    requires ValidStrategy(strategy) && s != []
    requires RttsFixed(s, strategy, calls)
    ensures 2 * Promotions(s, strategy, calls) <= |s| * (|s| - 1)
  {
    PromotionsPayInversions(s, strategy, calls);
    InversionsAtMost(s);
  }

  /** Every active server can be drawn, and every inactive one can be probed. */
  lemma EveryDrawPossible(strategy: Strategy, count: int, a: nat, c: int)
    requires ValidStrategy(strategy) && a < ActiveCount(strategy, count) <= c < count
    ensures GetCandidate(strategy, count, a) == a
    ensures Probed(strategy, count, c - ActiveCount(strategy, count)) == c
  {
  }

  /** A pool no call can improve any more separates the two groups: every active
      server is at least as fast as every inactive one. */
  lemma QuiescentPoolIsSeparated(s: Pool, strategy: Strategy, now: int, a: int, c: int)
    requires ValidStrategy(strategy) && s != []
    requires forall call: Call :: call.now == now ==> BranchOf(s, strategy, call) == Keep
    requires 0 <= a < ActiveCount(strategy, |s|) <= c < |s|
    ensures s[a].rtt <= s[c].rtt
  {
    var active := ActiveCount(strategy, |s|);
    var call := Call(a, c - active, now);
    EveryDrawPossible(strategy, |s|, a, c);
    assert BranchOf(s, strategy, call) == Keep;
    assert BranchTaken(s, active, a, c, now) == Keep;
  }
}
