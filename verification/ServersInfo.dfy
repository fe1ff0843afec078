/** The shared server table: registered servers, the pool of live servers, and
    the critical sections that change them. Each method is one section the
    source runs under the table's lock, proved against a function on values. */
module ServersInfo {
  import opened Common
  import opened LoadBalancer

  datatype RegisteredServer = RegisteredServer(name: string, stamp: nat)

  // ---------------------------------------------------------------- tables keyed by name

  ghost predicate DistinctNames(s: Pool) {
    forall i, j :: 0 <= i < j < |s| ==> s[i].name != s[j].name
  }

  ghost predicate DistinctRegistered(s: seq<RegisteredServer>) {
    forall i, j :: 0 <= i < j < |s| ==> s[i].name != s[j].name
  }

  predicate HasName(s: Pool, name: string) {
    exists i :: 0 <= i < |s| && s[i].name == name
  }

  predicate IsRegistered(s: seq<RegisteredServer>, name: string) {
    exists i :: 0 <= i < |s| && s[i].name == name
  }

  /** The first entry of that name is replaced; without one the pool is unchanged. */
  function ReplaceFirst(s: Pool, name: string, server: Server): (r: Pool)
    ensures |r| == |s|
  {
    if s == [] then []
    else if s[0].name == name then [server] + s[1..]
    else [s[0]] + ReplaceFirst(s[1..], name, server)
  }

  /** The registration list after `registerServer`: replace by name, or append. */
  function Register(s: seq<RegisteredServer>, entry: RegisteredServer): (r: seq<RegisteredServer>)
  {
    if s == [] then [entry]
    else if s[0].name == entry.name then [entry] + s[1..]
    else [s[0]] + Register(s[1..], entry)
  }

  lemma {:induction false} ReplaceFirstAt(s: Pool, name: string, server: Server, k: int)
    requires 0 <= k < |s| && s[k].name == name
    requires forall i :: 0 <= i < k ==> s[i].name != name
    ensures ReplaceFirst(s, name, server) == s[k := server]
  {
    if k > 0 { ReplaceFirstAt(s[1..], name, server, k - 1); }
  }

  lemma {:induction false} ReplaceFirstAbsent(s: Pool, name: string, server: Server)
    requires !HasName(s, name)
    ensures ReplaceFirst(s, name, server) == s
  {
    if s != [] {
      assert s[0].name != name;
      assert forall i :: 0 <= i < |s[1..]| ==> s[1..][i] == s[i+1];
      ReplaceFirstAbsent(s[1..], name, server);
    }
  }

  lemma {:induction false} RegisterAt(s: seq<RegisteredServer>, entry: RegisteredServer, k: int)
    requires 0 <= k < |s| && s[k].name == entry.name
    requires forall i :: 0 <= i < k ==> s[i].name != entry.name
    ensures Register(s, entry) == s[k := entry]
  {
    if k > 0 { RegisterAt(s[1..], entry, k - 1); }
  }

  lemma {:induction false} RegisterAbsent(s: seq<RegisteredServer>, entry: RegisteredServer)
    requires forall i :: 0 <= i < |s| ==> s[i].name != entry.name
    ensures Register(s, entry) == s + [entry]
  {
    if s != [] { RegisterAbsent(s[1..], entry); }
  }

  /** Registration keeps names distinct, forgets no name and adds at most its own. */
  lemma RegisterKeepsNames(s: seq<RegisteredServer>, entry: RegisteredServer)
    requires DistinctRegistered(s)
    ensures DistinctRegistered(Register(s, entry))
    ensures forall name :: IsRegistered(Register(s, entry), name) <==> IsRegistered(s, name) || name == entry.name
  {
    var r := Register(s, entry);
    if IsRegistered(s, entry.name) {
      var k :| 0 <= k < |s| && s[k].name == entry.name;
      RegisterAt(s, entry, k);
      assert forall i :: 0 <= i < |s| ==> r[i].name == s[i].name;
    } else {
      RegisterAbsent(s, entry);
      assert r[|s|] == entry;
      assert forall i :: 0 <= i < |s| ==> r[i] == s[i];
    }
  }

  /** Registration installs the new stamp under its name and leaves all other
      registrations alone. */
  lemma {:induction false} RegisterInstalls(s: seq<RegisteredServer>, entry: RegisteredServer)
    ensures entry in Register(s, entry)
    ensures forall e: RegisteredServer :: e.name != entry.name ==> (e in Register(s, entry) <==> e in s)
  {
    if s != [] {
      RegisterInstalls(s[1..], entry);
      assert s == [s[0]] + s[1..];
    }
  }

  // ---------------------------------------------------------------- the stable sort of a refresh

  function Insert(s: Pool, x: Server): (r: Pool)
    ensures |r| == |s| + 1
  {
    if s == [] || s[|s|-1].initialRtt <= x.initialRtt then s + [x]
    else Insert(s[..|s|-1], x) + [s[|s|-1]]
  }

  /** `sort.SliceStable` on the initial RTT. */
  function StableSort(s: Pool): (r: Pool)
    ensures |r| == |s|
  {
    if s == [] then [] else Insert(StableSort(s[..|s|-1]), s[|s|-1])
  }

  ghost predicate SortedByInitialRtt(s: Pool) {
    forall i, j :: 0 <= i < j < |s| ==> s[i].initialRtt <= s[j].initialRtt
  }

  /** The entries with one initial RTT, in order. */
  function WithRtt(s: Pool, rtt: int): Pool {
    if s == [] then []
    else WithRtt(s[..|s|-1], rtt) + if s[|s|-1].initialRtt == rtt then [s[|s|-1]] else []
  }

  lemma {:induction false} WithRttSnoc(s: Pool, x: Server, rtt: int)
    ensures WithRtt(s + [x], rtt) == WithRtt(s, rtt) + if x.initialRtt == rtt then [x] else []
  {
  }

  lemma {:induction false} InsertKeepsServers(s: Pool, x: Server)
    ensures multiset(Insert(s, x)) == multiset(s) + multiset{x}
  {
    if s != [] && s[|s|-1].initialRtt > x.initialRtt {
      InsertKeepsServers(s[..|s|-1], x);
      assert s == s[..|s|-1] + [s[|s|-1]];
    }
  }

  lemma {:induction false} InsertKeepsSorted(s: Pool, x: Server)
    requires SortedByInitialRtt(s)
    ensures SortedByInitialRtt(Insert(s, x))
    ensures forall y :: y in Insert(s, x) ==> y == x || y in s
  {
    if s != [] && s[|s|-1].initialRtt > x.initialRtt {
      var init, last := s[..|s|-1], s[|s|-1];
      InsertKeepsSorted(init, x);
      assert forall y :: y in init ==> y.initialRtt <= last.initialRtt;
      var r := Insert(init, x);
      assert forall i :: 0 <= i < |r| ==> r[i] in r && r[i].initialRtt <= last.initialRtt;
    }
  }

  lemma {:induction false} InsertKeepsOrder(s: Pool, x: Server, r: int)
    requires SortedByInitialRtt(s)
    ensures WithRtt(Insert(s, x), r) == WithRtt(s + [x], r)
  {
    if s != [] && s[|s|-1].initialRtt > x.initialRtt {
      var init, last := s[..|s|-1], s[|s|-1];
      assert s == init + [last];
      InsertKeepsOrder(init, x, r);
      WithRttSnoc(Insert(init, x), last, r);
      WithRttSnoc(init, x, r);
      WithRttSnoc(init, last, r);
      WithRttSnoc(s, x, r);
    }
  }

  /** The sort is a sorted permutation that leaves servers of equal RTT in order. */
  lemma {:induction false} StableSortMeaning(s: Pool)
    ensures SortedByInitialRtt(StableSort(s))
    ensures multiset(StableSort(s)) == multiset(s)
    ensures forall r :: WithRtt(StableSort(s), r) == WithRtt(s, r)
  {
    if s != [] {
      var init, last := s[..|s|-1], s[|s|-1];
      assert s == init + [last];
      StableSortMeaning(init);
      InsertKeepsServers(StableSort(init), last);
      InsertKeepsSorted(StableSort(init), last);
      forall r ensures WithRtt(StableSort(s), r) == WithRtt(s, r) {
        InsertKeepsOrder(StableSort(init), last, r);
        WithRttSnoc(StableSort(init), last, r);
        WithRttSnoc(init, last, r);
      }
    }
  }

  // ---------------------------------------------------------------- the table itself

  class ServersInfo {
    var inner: array<Server>
    var registeredServers: seq<RegisteredServer>
    const strategy: Strategy
    const estimator: bool

    constructor (strategy: Strategy, estimator: bool)
      ensures fresh(inner) && inner[..] == [] && registeredServers == []
      ensures this.strategy == strategy && this.estimator == estimator
    {
      this.strategy, this.estimator := strategy, estimator;
      inner, registeredServers := new Server[0], [];
    }

    method RegisterServer(name: string, stamp: nat)
      modifies this`registeredServers
      ensures registeredServers == Register(old(registeredServers), RegisteredServer(name, stamp))
    {
      var entry := RegisteredServer(name, stamp);
      for i := 0 to |registeredServers|
        invariant registeredServers == old(registeredServers)
        invariant forall k :: 0 <= k < i ==> registeredServers[k].name != name
      {
        if registeredServers[i].name == name {
          RegisterAt(registeredServers, entry, i);
          registeredServers := registeredServers[i := entry];
          return;
        }
      }
      RegisterAbsent(registeredServers, entry);
      registeredServers := registeredServers + [entry];
    }

    /** First locked section of a refreshed server: replace by name if present. */
    method ReplaceIfPresent(server: Server) returns (isNew: bool)
      modifies inner
      ensures isNew == !HasName(old(inner[..]), server.name)
      ensures inner[..] == ReplaceFirst(old(inner[..]), server.name, server)
    {
      ghost var before := inner[..];
      for i := 0 to inner.Length
        invariant inner[..] == before
        invariant forall k :: 0 <= k < i ==> inner[k].name != server.name
      {
        if inner[i].name == server.name {
          ReplaceFirstAt(before, server.name, server, i);
          assert before[i].name == server.name;
          inner[i] := server;
          return false;
        }
      }
      ReplaceFirstAbsent(before, server.name, server);
      return true;
    }

    /** Second locked section, entered later: append, growing the backing array. */
    method AppendServer(server: Server)
      modifies this`inner
      ensures fresh(inner)
      ensures inner[..] == old(inner[..]) + [server]
    {
      var grown := new Server[inner.Length + 1](i requires 0 <= i <= inner.Length reads this, inner =>
        if i < inner.Length then inner[i] else server);
      inner := grown;
    }

    method EstimatorUpdate(currentActive: int, draw: nat, now: int)
      requires 0 <= currentActive < ActiveCount(strategy, inner.Length) <= inner.Length
      modifies inner
      ensures inner[..] == Estimate(old(inner[..]), strategy, currentActive, draw, now)
    {
      ghost var before := inner[..];
      var count := inner.Length;
      var active := ActiveCount(strategy, count);
      if active == count { return; }
      var candidate := Intn(draw, count - active) + active;
      var candidateRtt, currentRtt := inner[candidate].rtt, inner[currentActive].rtt;
      if currentRtt < 0.0 {
        inner[currentActive] := inner[currentActive].(rtt := candidateRtt);
        return;
      }
      var partialSort := false;
      if candidateRtt < currentRtt {
        inner[candidate], inner[currentActive] := inner[currentActive], inner[candidate];
        partialSort := true;
      } else if candidateRtt > 0.0 && candidateRtt >= (inner[0].rtt + inner[active-1].rtt) / 2.0 * 4.0 {
        if now - inner[candidate].lastAction > OneMinute {
          inner[candidate] := inner[candidate].(rtt := EwmaAdd(candidateRtt, candidateRtt / 2.0));
          partialSort := true;
        }
      }
      if partialSort { PartialSort(); }
    }

    /** The adjacent-exchange loop, in place. */
    method PartialSort()
      requires inner.Length > 0
      modifies inner
      ensures inner[..] == BubblePass(old(inner[..]))
    {
      var i := 1;
      while i < inner.Length
        invariant 1 <= i <= inner.Length
        invariant BubbleFrom(inner[..], i) == BubblePass(old(inner[..]))
      {
        ghost var s := inner[..];
        if inner[i-1].rtt > inner[i].rtt {
          inner[i-1], inner[i] := inner[i], inner[i-1];
          assert inner[..] == Swap(s, i - 1, i);
        }
        i := i + 1;
      }
    }

    method GetOne(draw: nat, probe: nat, now: int) returns (server: Option<Server>)
      requires ValidStrategy(strategy)
      modifies inner
      ensures server.None? <==> old(inner[..]) == []
      ensures server.None? ==> inner[..] == old(inner[..])
      ensures server.Some? ==>
                && inner[..] == PoolAfterGetOne(old(inner[..]), strategy, estimator, draw, probe, now)
                && server.value == inner[GetCandidate(strategy, inner.Length, draw)]
    {
      var count := inner.Length;
      if count <= 0 { return None; }
      var candidate := GetCandidate(strategy, count, draw);
      if estimator { EstimatorUpdate(candidate, probe, now); }
      return Some(inner[candidate]);
    }
  }
}
