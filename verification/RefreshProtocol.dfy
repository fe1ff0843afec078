/** Certificate refresh as a step system. A refresh round spawns one worker per
    registered server, throttled by a token channel, and collects one result per
    worker from an error channel. Workers interleave freely with each other, with
    forced key updates of servers clients are using, with the load balancer
    reordering the pool and with new registrations. A worker's "is it new" test
    and its append are two separate steps. */
module RefreshProtocol {
  import opened Common
  import opened Sums
  import opened LoadBalancer
  import opened ServersInfo

  // ---------------------------------------------------------------- states

  /** Where a call of `refreshServer` stands; the payload is what the call holds. */
  datatype Pc =
    | NotStarted
    | Probe
    | Fetch
    | Replace(server: Server)
    | Append(server: Server)
    | Enroll
    | Send(ok: bool)
    | Release(ok: bool)
    | Finished(ok: bool)

  datatype Worker = Worker(entry: RegisteredServer, pc: Pc)

  /** The goroutine running `refresh`. */
  datatype Main =
    | Idle
    | Spawning(next: nat)
    | Collecting(got: nat, live: nat, failed: bool)
    | Returned(live: nat, failed: bool)

  /** What the lock protects. */
  datatype Table = Table(inner: Pool, registered: seq<RegisteredServer>)

  datatype Config = Config(concurrency: nat, strategy: Strategy, estimator: bool)

  datatype State = State(
    table: Table,
    handedOut: set<string>,
    workers: seq<Worker>,
    forced: seq<Worker>,
    tokens: nat,
    errors: seq<bool>,
    main: Main)

  datatype Action =
    | BeginRound
    | Spawn
    | StartCollecting
    | Receive
    | Finish
    | Work(i: nat, fetched: Option<Server>)
    | Announce(entry: RegisteredServer)
    | GetOne(draw: nat, probe: nat, now: int)
    | Notice(i: nat, rtt: real, lastAction: int)
    | StartForced(i: nat)
    | ForcedWork(i: nat, fetched: Option<Server>)

  predicate ValidConfig(c: Config) { c.concurrency >= 1 && ValidStrategy(c.strategy) }

  ghost predicate Init(s: State) {
    && s.table.inner == [] && DistinctRegistered(s.table.registered)
    && s.handedOut == {} && s.workers == [] && s.forced == []
    && s.tokens == 0 && s.errors == [] && s.main == Idle
  }

  // ---------------------------------------------------------------- steps

  /** The steps of `refreshServer` itself. A fetch that answers for another name
      ends the process, so such a fetch has no step. */
  predicate CanAdvance(w: Worker, fetched: Option<Server>) {
    && (w.pc.Probe? || w.pc.Fetch? || w.pc.Replace? || w.pc.Append? || w.pc.Enroll?)
    && (w.pc.Fetch? && fetched.Some? ==> fetched.value.name == w.entry.name)
  }

  function Advance(t: Table, w: Worker, fetched: Option<Server>): (r: (Table, Worker))
    requires CanAdvance(w, fetched)
    ensures r.1.entry == w.entry
  {
    match w.pc
    case Probe => (t, w.(pc := Fetch))
    case Fetch =>
      if fetched.None? then (t, w.(pc := Send(false)))
      else (t, w.(pc := Replace(fetched.value.(rtt := fetched.value.initialRtt as real))))
    case Replace(server) =>
      if HasName(t.inner, w.entry.name)
      then (t.(inner := ReplaceFirst(t.inner, w.entry.name, server)), w.(pc := Send(true)))
      else (t, w.(pc := Append(server)))
    case Append(server) => (t.(inner := t.inner + [server]), w.(pc := Enroll))
    case Enroll => (t.(registered := Register(t.registered, w.entry)), w.(pc := Send(true)))
  }

  predicate Enabled(c: Config, s: State, a: Action) {
    match a
    case BeginRound => s.main.Idle? || s.main.Returned?
    case Spawn => s.main.Spawning? && s.main.next < |s.workers| && s.tokens < c.concurrency
    case StartCollecting => s.main.Spawning? && s.main.next >= |s.workers|
    case Receive => s.main.Collecting? && s.main.got < |s.workers| && s.errors != []
    case Finish => s.main.Collecting? && s.main.got >= |s.workers|
    case Work(i, fetched) =>
      && i < |s.workers|
      && match s.workers[i].pc {
           case Send(_) => |s.errors| < |s.workers|
           case Release(_) => s.tokens > 0
           case _ => CanAdvance(s.workers[i], fetched)
         }
    case Announce(_) => true
    case GetOne(_, _, _) => s.table.inner != []
    case Notice(i, _, _) => i < |s.table.inner|
    case StartForced(i) => i < |s.table.registered| && s.table.registered[i].name in s.handedOut
    case ForcedWork(i, fetched) => i < |s.forced| && CanAdvance(s.forced[i], fetched)
  }

  function Fresh(entries: seq<RegisteredServer>): (r: seq<Worker>)
    ensures |r| == |entries|
    ensures forall i :: 0 <= i < |r| ==> r[i] == Worker(entries[i], NotStarted)
  {
    seq(|entries|, i requires 0 <= i < |entries| => Worker(entries[i], NotStarted))
  }

  function SetPc(ws: seq<Worker>, i: int, pc: Pc): (r: seq<Worker>)
    requires 0 <= i < |ws|
    ensures |r| == |ws|
  {
    ws[i := ws[i].(pc := pc)]
  }

  function NextWork(s: State, i: nat, fetched: Option<Server>): State
    requires i < |s.workers|
    requires s.workers[i].pc.Send? || (s.workers[i].pc.Release? && s.tokens > 0) || CanAdvance(s.workers[i], fetched)
  {
    match s.workers[i].pc
    case Send(ok) => s.(errors := s.errors + [ok], workers := SetPc(s.workers, i, Release(ok)))
    case Release(ok) => s.(tokens := s.tokens - 1, workers := SetPc(s.workers, i, Finished(ok)))
    case _ =>
      var (t, w) := Advance(s.table, s.workers[i], fetched);
      s.(table := t, workers := s.workers[i := w])
  }

  function Next(c: Config, s: State, a: Action): State
    requires ValidConfig(c) && Enabled(c, s, a)
  {
    var inner := s.table.inner;
    match a
    case BeginRound => s.(workers := Fresh(s.table.registered), tokens := 0, errors := [], main := Spawning(0))
    case Spawn =>
      s.(tokens := s.tokens + 1, workers := SetPc(s.workers, s.main.next, Probe), main := Spawning(s.main.next + 1))
    case StartCollecting => s.(main := Collecting(0, 0, false))
    case Receive =>
      s.(errors := s.errors[1..],
         main := Collecting(s.main.got + 1, s.main.live + if s.errors[0] then 1 else 0, !s.errors[0]))
    case Finish =>
      s.(table := s.table.(inner := StableSort(inner)),
         main := Returned(s.main.live, if s.main.live > 0 then false else s.main.failed))
    case Work(i, fetched) => NextWork(s, i, fetched)
    case Announce(entry) => s.(table := s.table.(registered := Register(s.table.registered, entry)))
    case GetOne(draw, probe, now) =>
      var pool := PoolAfterGetOne(inner, c.strategy, c.estimator, draw, probe, now);
      s.(table := s.table.(inner := pool),
         handedOut := s.handedOut + {pool[GetCandidate(c.strategy, |pool|, draw)].name})
    case Notice(i, rtt, lastAction) =>
      s.(table := s.table.(inner := inner[i := inner[i].(rtt := rtt, lastAction := lastAction)]))
    case StartForced(i) => s.(forced := s.forced + [Worker(s.table.registered[i], Probe)])
    case ForcedWork(i, fetched) =>
      var (t, w) := Advance(s.table, s.forced[i], fetched);
      s.(table := t, forced := s.forced[i := w])
  }

  // ---------------------------------------------------------------- counting workers

  function Running(w: Worker): nat { if w.pc.NotStarted? || w.pc.Finished? then 0 else 1 }

  function Reported(w: Worker): nat { if w.pc.Release? || w.pc.Finished? then 1 else 0 }

  function ReportedOk(w: Worker): nat {
    match w.pc
    case Release(ok) => if ok then 1 else 0
    case Finished(ok) => if ok then 1 else 0
    case _ => 0
  }

  /** Steps a worker still has before it at most. */
  function Remaining(w: Worker): nat {
    match w.pc
    case NotStarted => 8
    case Probe => 7
    case Fetch => 6
    case Replace(_) => 5
    case Append(_) => 4
    case Enroll => 3
    case Send(_) => 2
    case Release(_) => 1
    case Finished(_) => 0
  }

  function Successes(errors: seq<bool>): nat {
    if errors == [] then 0 else (if errors[0] then 1 else 0) + Successes(errors[1..])
  }

  lemma {:induction false} SuccessesSnoc(errors: seq<bool>, ok: bool)
    ensures Successes(errors + [ok]) == Successes(errors) + if ok then 1 else 0
  {
    if errors != [] {
      assert (errors + [ok])[1..] == errors[1..] + [ok];
      SuccessesSnoc(errors[1..], ok);
    }
  }

  // ---------------------------------------------------------------- the invariant

  /** Both tables have at most one entry per name. */
  ghost predicate TableInv(t: Table) { DistinctRegistered(t.registered) && DistinctNames(t.inner) }

  /** What a worker is about to install: a server of its name, its moving average
      reset to the RTT just measured. */
  ghost predicate ReadyFor(entry: RegisteredServer, server: Server) {
    server.name == entry.name && server.rtt == server.initialRtt as real
  }

  /** What holds of one worker of a round; the `Append` case is the heart of it:
      between the test and the append no one else may add that name. */
  ghost predicate WorkerInv(inner: Pool, w: Worker) {
    match w.pc
    case Replace(server) => ReadyFor(w.entry, server)
    case Append(server) => ReadyFor(w.entry, server) && !HasName(inner, w.entry.name)
    case Enroll => HasName(inner, w.entry.name)
    case Send(ok) => ok ==> HasName(inner, w.entry.name)
    case Release(ok) => ok ==> HasName(inner, w.entry.name)
    case Finished(ok) => ok ==> HasName(inner, w.entry.name)
    case _ => true
  }

  ghost predicate DistinctWorkers(ws: seq<Worker>) {
    forall i, j :: 0 <= i < j < |ws| ==> ws[i].entry.name != ws[j].entry.name
  }

  ghost predicate WorkersInv(inner: Pool, ws: seq<Worker>) {
    && DistinctWorkers(ws)
    && forall i :: 0 <= i < |ws| ==> WorkerInv(inner, ws[i])
  }

  /** A forced update concerns a server a client obtained, so it never appends. */
  ghost predicate ForcedInv(inner: Pool, w: Worker) {
    && HasName(inner, w.entry.name)
    && (w.pc.Probe? || w.pc.Fetch? || w.pc.Replace? || w.pc.Send?)
    && (w.pc.Replace? ==> ReadyFor(w.entry, w.pc.server))
  }

  ghost predicate PoolInv(s: State) {
    && TableInv(s.table)
    && WorkersInv(s.table.inner, s.workers)
    && (forall i :: 0 <= i < |s.forced| ==> ForcedInv(s.table.inner, s.forced[i]))
    && (forall name :: name in s.handedOut ==> HasName(s.table.inner, name))
  }

  function Got(m: Main, n: nat): nat {
    match m
    case Collecting(got, _, _) => got
    case Returned(_, _) => n
    case _ => 0
  }

  function Live(m: Main): nat {
    match m
    case Collecting(_, live, _) => live
    case Returned(live, _) => live
    case _ => 0
  }

  ghost predicate MainInv(m: Main, ws: seq<Worker>) {
    match m
    case Idle => ws == []
    case Spawning(next) => next <= |ws| && forall i :: 0 <= i < |ws| ==> (ws[i].pc.NotStarted? <==> i >= next)
    case Collecting(got, live, failed) =>
      && got <= |ws| && (forall i :: 0 <= i < |ws| ==> !ws[i].pc.NotStarted?)
      && (got == 0 ==> !failed && live == 0) && (got > 0 && live == 0 ==> failed)
    case Returned(live, failed) =>
      && (forall i :: 0 <= i < |ws| ==> !ws[i].pc.NotStarted?)
      && (failed <==> live == 0 && |ws| > 0)
  }

  /** The channels account for every worker: a token per running worker, a queued
      or received result per worker that has reported. */
  ghost predicate ChannelInv(c: Config, s: State) {
    && s.tokens == Sum(s.workers, Running) <= c.concurrency
    && |s.errors| + Got(s.main, |s.workers|) == Sum(s.workers, Reported)
    && Successes(s.errors) + Live(s.main) == Sum(s.workers, ReportedOk)
    && MainInv(s.main, s.workers)
  }

  /** Every name in the pool, and every name a worker may add to it, is registered. */
  ghost predicate RegistrationInv(s: State) {
    && (forall name :: HasName(s.table.inner, name) ==> IsRegistered(s.table.registered, name))
    && (forall i :: 0 <= i < |s.workers| ==> IsRegistered(s.table.registered, s.workers[i].entry.name))
  }

  ghost predicate Inv(c: Config, s: State) { PoolInv(s) && RegistrationInv(s) && ChannelInv(c, s) }

  // ---------------------------------------------------------------- the pool under one step

  ghost predicate KeepsNames(before: Pool, after: Pool) {
    forall name :: HasName(before, name) ==> HasName(after, name)
  }

  ghost predicate AddsOnly(before: Pool, after: Pool, extra: string) {
    forall name :: HasName(after, name) ==> HasName(before, name) || name == extra
  }

  lemma NameAt(s: Pool, i: int)
    requires 0 <= i < |s|
    ensures HasName(s, s[i].name)
  {
  }

  /** Pools that agree on names, position by position. */
  lemma SameNamesPointwise(before: Pool, after: Pool)
    requires |before| == |after| && forall i :: 0 <= i < |before| ==> before[i].name == after[i].name
    ensures KeepsNames(before, after)
  {
  }

  lemma ReplaceAtKeepsNames(s: Pool, k: int, server: Server)
    requires 0 <= k < |s| && s[k].name == server.name
    ensures KeepsNames(s, s[k := server]) && KeepsNames(s[k := server], s)
  {
    SameNamesPointwise(s, s[k := server]);
    SameNamesPointwise(s[k := server], s);
  }

  lemma ReplacePool(t: Table, server: Server)
    requires TableInv(t) && HasName(t.inner, server.name)
    ensures TableInv(t.(inner := ReplaceFirst(t.inner, server.name, server)))
    ensures KeepsNames(t.inner, ReplaceFirst(t.inner, server.name, server))
    ensures KeepsNames(ReplaceFirst(t.inner, server.name, server), t.inner)
  {
    var k :| 0 <= k < |t.inner| && t.inner[k].name == server.name;
    assert DistinctNames(t.inner);
    ReplaceFirstAt(t.inner, server.name, server, k);
    ReplaceAtKeepsNames(t.inner, k, server);
  }

  lemma AppendPool(t: Table, server: Server)
    requires TableInv(t) && !HasName(t.inner, server.name)
    ensures TableInv(t.(inner := t.inner + [server]))
    ensures KeepsNames(t.inner, t.inner + [server])
    ensures AddsOnly(t.inner, t.inner + [server], server.name)
    ensures HasName(t.inner + [server], server.name)
  {
    var r := t.inner + [server];
    NameAt(r, |t.inner|);
    forall name | HasName(t.inner, name) ensures HasName(r, name) {
      var i :| 0 <= i < |t.inner| && t.inner[i].name == name;
      assert r[i].name == name;
    }
    forall name | HasName(r, name) ensures HasName(t.inner, name) || name == server.name {
      var i :| 0 <= i < |r| && r[i].name == name;
      assert i < |t.inner| ==> t.inner[i].name == name;
    }
    forall i | 0 <= i < |t.inner| ensures t.inner[i].name != server.name { NameAt(t.inner, i); }
  }

  lemma {:induction false} OccursTwice<T>(s: seq<T>, x: T)
    ensures multiset(s)[x] >= 1 <==> exists i :: 0 <= i < |s| && s[i] == x
    ensures multiset(s)[x] >= 2 <==> exists i, j :: 0 <= i < j < |s| && s[i] == x && s[j] == x
  {
    if s != [] {
      var init, n := s[..|s|-1], |s| - 1;
      assert s == init + [s[n]];
      OccursTwice(init, x);
      if multiset(s)[x] >= 2 && s[n] == x {
        var i :| 0 <= i < |init| && init[i] == x;
        assert s[i] == x && i < n;
      }
      if i, j :| 0 <= i < j < |s| && s[i] == x && s[j] == x {
        assert init[i] == x;
        assert j < n ==> init[j] == x;
      }
      if i, j :| 0 <= i < j < |init| && init[i] == x && init[j] == x {
        assert s[i] == x && s[j] == x;
      }
    }
  }

  ghost predicate HasId(s: Pool, id: (string, nat)) {
    exists k :: 0 <= k < |s| && Ids(s)[k] == id
  }

  lemma NamesFollowIds(before: Pool, after: Pool)
    requires multiset(Ids(after)) == multiset(Ids(before))
    ensures forall i :: 0 <= i < |before| ==> HasId(after, Ids(before)[i])
    ensures KeepsNames(before, after)
  {
    forall i | 0 <= i < |before| ensures HasId(after, Ids(before)[i]) {
      OccursTwice(Ids(before), Ids(before)[i]);
      OccursTwice(Ids(after), Ids(before)[i]);
    }
    forall name | HasName(before, name) ensures HasName(after, name) {
      var i :| 0 <= i < |before| && before[i].name == name;
      var k :| 0 <= k < |after| && Ids(after)[k] == Ids(before)[i];
      assert after[k].name == name;
    }
  }

  /** Two pools with the same multiset of identities have the same invariant. */
  lemma SamePopulation(t: Table, after: Pool)
    requires TableInv(t)
    requires multiset(Ids(after)) == multiset(Ids(t.inner))
    ensures TableInv(t.(inner := after))
    ensures KeepsNames(t.inner, after) && KeepsNames(after, t.inner)
  {
    NamesFollowIds(t.inner, after);
    NamesFollowIds(after, t.inner);
    SamePopulationDistinct(t, after);
  }

  lemma SamePopulationDistinct(t: Table, after: Pool)
    requires TableInv(t)
    requires multiset(Ids(after)) == multiset(Ids(t.inner))
    requires forall i :: 0 <= i < |after| ==> HasId(t.inner, Ids(after)[i])
    ensures DistinctNames(after)
  {
    forall i, j | 0 <= i < j < |after| ensures after[i].name != after[j].name {
      if after[i].name == after[j].name {
        var x := Ids(after)[i];
        var k :| 0 <= k < |t.inner| && Ids(t.inner)[k] == Ids(after)[i];
        var l :| 0 <= l < |t.inner| && Ids(t.inner)[l] == Ids(after)[j];
        assert t.inner[k].name == t.inner[l].name;
        assert Ids(after)[j] == x;
        OccursTwice(Ids(after), x);
        OccursTwice(Ids(t.inner), x);
        assert false;
      }
    }
  }

  /** Invariants of bystanders survive any change that keeps names and adds at most
      `extra`, provided nobody else was about to append `extra`. */
  lemma BystandersKeep(before: Pool, after: Pool, extra: string, ws: seq<Worker>, i: int)
    requires KeepsNames(before, after) && AddsOnly(before, after, extra)
    requires WorkersInv(before, ws) && 0 <= i < |ws| && ws[i].entry.name == extra
    ensures forall k :: 0 <= k < |ws| && k != i ==> WorkerInv(after, ws[k])
  {
  }

  lemma SameNamesKeepWorkers(before: Pool, after: Pool, ws: seq<Worker>)
    requires KeepsNames(before, after) && KeepsNames(after, before)
    requires WorkersInv(before, ws)
    ensures WorkersInv(after, ws)
  {
  }

  /** One step of a round's own worker. */
  lemma RoundWorkerStep(t: Table, ws: seq<Worker>, i: int, fetched: Option<Server>)
    requires TableInv(t) && WorkersInv(t.inner, ws)
    requires 0 <= i < |ws| && CanAdvance(ws[i], fetched)
    ensures var (t', w) := Advance(t, ws[i], fetched);
            && TableInv(t') && WorkersInv(t'.inner, ws[i := w])
            && KeepsNames(t.inner, t'.inner) && AddsOnly(t.inner, t'.inner, ws[i].entry.name)
  {
    var w0 := ws[i];
    var (t', w) := Advance(t, w0, fetched);
    assert WorkerInv(t.inner, w0);
    if w0.pc.Replace? && HasName(t.inner, w0.entry.name) {
      ReplacePool(t, w0.pc.server);
      SameNamesKeepWorkers(t.inner, t'.inner, ws);
    } else if w0.pc.Append? {
      AppendPool(t, w0.pc.server);
      BystandersKeep(t.inner, t'.inner, w0.entry.name, ws, i);
    } else if w0.pc.Enroll? {
      RegisterKeepsNames(t.registered, w0.entry);
    }
    assert WorkerInv(t'.inner, w);
  }

  /** One step of a forced update: it always finds its server and only replaces it. */
  lemma ForcedWorkerStep(t: Table, ws: seq<Worker>, w0: Worker, fetched: Option<Server>)
    requires TableInv(t) && WorkersInv(t.inner, ws) && ForcedInv(t.inner, w0) && CanAdvance(w0, fetched)
    ensures var (t', w) := Advance(t, w0, fetched);
            && TableInv(t') && WorkersInv(t'.inner, ws) && ForcedInv(t'.inner, w)
            && KeepsNames(t.inner, t'.inner) && KeepsNames(t'.inner, t.inner)
  {
    var (t', w) := Advance(t, w0, fetched);
    if w0.pc.Replace? {
      ReplacePool(t, w0.pc.server);
      SameNamesKeepWorkers(t.inner, t'.inner, ws);
    }
  }

  /** Reordering or re-timing the pool disturbs nobody. */
  lemma ReorderStep(s: State, after: Pool)
    requires PoolInv(s) && multiset(Ids(after)) == multiset(Ids(s.table.inner))
    ensures PoolInv(s.(table := s.table.(inner := after)))
    ensures KeepsNames(s.table.inner, after) && KeepsNames(after, s.table.inner)
  {
    SamePopulation(s.table, after);
    SameNamesKeepWorkers(s.table.inner, after, s.workers);
  }

  lemma PoolWorkStep(s: State, i: nat, fetched: Option<Server>)
    requires PoolInv(s) && i < |s.workers|
    requires s.workers[i].pc.Send? || (s.workers[i].pc.Release? && s.tokens > 0) || CanAdvance(s.workers[i], fetched)
    ensures PoolInv(NextWork(s, i, fetched))
    ensures KeepsNames(s.table.inner, NextWork(s, i, fetched).table.inner)
    ensures AddsOnly(s.table.inner, NextWork(s, i, fetched).table.inner, s.workers[i].entry.name)
  {
    assert WorkerInv(s.table.inner, s.workers[i]);
    if CanAdvance(s.workers[i], fetched) {
      RoundWorkerStep(s.table, s.workers, i, fetched);
    }
  }

  lemma PoolForcedStep(s: State, i: nat, fetched: Option<Server>)
    requires PoolInv(s) && i < |s.forced| && CanAdvance(s.forced[i], fetched)
    ensures var (t, w) := Advance(s.table, s.forced[i], fetched);
            && PoolInv(s.(table := t, forced := s.forced[i := w]))
            && KeepsNames(s.table.inner, t.inner) && KeepsNames(t.inner, s.table.inner)
  {
    ForcedWorkerStep(s.table, s.workers, s.forced[i], fetched);
  }

  lemma PoolFinishStep(s: State)
    requires PoolInv(s)
    ensures PoolInv(s.(table := s.table.(inner := StableSort(s.table.inner))))
    ensures KeepsNames(s.table.inner, StableSort(s.table.inner)) && KeepsNames(StableSort(s.table.inner), s.table.inner)
  {
    StableSortMeaning(s.table.inner);
    PermutationKeepsIds(StableSort(s.table.inner), s.table.inner);
    ReorderStep(s, StableSort(s.table.inner));
  }

  lemma PoolGetOneStep(c: Config, s: State, a: Action)
    requires ValidConfig(c) && PoolInv(s) && a.GetOne? && Enabled(c, s, a)
    ensures PoolInv(Next(c, s, a))
    ensures KeepsNames(s.table.inner, Next(c, s, a).table.inner) && KeepsNames(Next(c, s, a).table.inner, s.table.inner)
  {
    var pool := PoolAfterGetOne(s.table.inner, c.strategy, c.estimator, a.draw, a.probe, a.now);
    GetOneKeepsIds(s.table.inner, c.strategy, c.estimator, a.draw, a.probe, a.now);
    ReorderStep(s, pool);
    NameAt(pool, GetCandidate(c.strategy, |pool|, a.draw));
  }

  lemma PoolNoticeStep(s: State, i: nat, rtt: real, lastAction: int)
    requires PoolInv(s) && i < |s.table.inner|
    ensures var pool := s.table.inner[i := s.table.inner[i].(rtt := rtt, lastAction := lastAction)];
            && PoolInv(s.(table := s.table.(inner := pool)))
            && KeepsNames(s.table.inner, pool) && KeepsNames(pool, s.table.inner)
  {
    var pool := s.table.inner[i := s.table.inner[i].(rtt := rtt, lastAction := lastAction)];
    assert Ids(pool) == Ids(s.table.inner);
    ReorderStep(s, pool);
  }

  lemma PoolRegistrationStep(s: State, entry: RegisteredServer)
    requires PoolInv(s)
    ensures PoolInv(s.(table := s.table.(registered := Register(s.table.registered, entry))))
  {
    RegisterKeepsNames(s.table.registered, entry);
  }

  /** Only a step of a round's worker can add a name to the pool, and only its own. */
  ghost predicate AddsOnlyOwn(s: State, a: Action, after: Pool) {
    if a.Work? && a.i < |s.workers| then AddsOnly(s.table.inner, after, s.workers[a.i].entry.name)
    else KeepsNames(after, s.table.inner)
  }

  /** Every step of every participant keeps the pool invariant and loses no name. */
  lemma PoolStep(c: Config, s: State, a: Action)
    requires ValidConfig(c) && PoolInv(s) && Enabled(c, s, a)
    ensures PoolInv(Next(c, s, a))
    ensures KeepsNames(s.table.inner, Next(c, s, a).table.inner)
    ensures AddsOnlyOwn(s, a, Next(c, s, a).table.inner)
  {
    match a
    case Work(i, fetched) => PoolWorkStep(s, i, fetched);
    case ForcedWork(i, fetched) => PoolForcedStep(s, i, fetched);
    case Finish => PoolFinishStep(s);
    case GetOne(_, _, _) => PoolGetOneStep(c, s, a);
    case Notice(i, rtt, lastAction) => PoolNoticeStep(s, i, rtt, lastAction);
    case Announce(entry) => PoolRegistrationStep(s, entry);
    case Spawn => assert WorkerInv(s.table.inner, s.workers[s.main.next].(pc := Probe));
    case _ =>
  }

  // ---------------------------------------------------------------- registrations under one step

  ghost predicate KeepsRegistered(before: seq<RegisteredServer>, after: seq<RegisteredServer>) {
    forall name :: IsRegistered(before, name) ==> IsRegistered(after, name)
  }

  lemma RegistrationsGrow(c: Config, s: State, a: Action)
    requires ValidConfig(c) && DistinctRegistered(s.table.registered) && Enabled(c, s, a)
    ensures KeepsRegistered(s.table.registered, Next(c, s, a).table.registered)
  {
    match a
    case Work(i, fetched) => RegisterKeepsNames(s.table.registered, s.workers[i].entry);
    case ForcedWork(i, fetched) => RegisterKeepsNames(s.table.registered, s.forced[i].entry);
    case Announce(entry) => RegisterKeepsNames(s.table.registered, entry);
    case _ =>
  }

  /** Workers change hands only when a round begins, and then to registered servers. */
  lemma WorkersStayRegistered(c: Config, s: State, a: Action)
    requires ValidConfig(c) && Enabled(c, s, a) && RegistrationInv(s)
    requires KeepsRegistered(s.table.registered, Next(c, s, a).table.registered)
    ensures var r := Next(c, s, a);
            forall i :: 0 <= i < |r.workers| ==> IsRegistered(r.table.registered, r.workers[i].entry.name)
  {
  }

  /** The registrations of a round's workers are fixed when it begins. */
  lemma SameEntries(c: Config, s: State, a: Action)
    requires ValidConfig(c) && Enabled(c, s, a) && !a.BeginRound?
    ensures |Next(c, s, a).workers| == |s.workers|
    ensures forall i :: 0 <= i < |s.workers| ==> Next(c, s, a).workers[i].entry == s.workers[i].entry
  {
  }

  lemma RegistrationStep(c: Config, s: State, a: Action)
    requires ValidConfig(c) && PoolInv(s) && RegistrationInv(s) && Enabled(c, s, a)
    requires AddsOnlyOwn(s, a, Next(c, s, a).table.inner)
    ensures RegistrationInv(Next(c, s, a))
  {
    RegistrationsGrow(c, s, a);
    WorkersStayRegistered(c, s, a);
  }

  // ---------------------------------------------------------------- the channels under one step

  lemma WorkerChanges(ws: seq<Worker>, i: int, w: Worker)
    requires 0 <= i < |ws|
    ensures Sum(ws[i := w], Running) + Running(ws[i]) == Sum(ws, Running) + Running(w)
    ensures Sum(ws[i := w], Reported) + Reported(ws[i]) == Sum(ws, Reported) + Reported(w)
    ensures Sum(ws[i := w], ReportedOk) + ReportedOk(ws[i]) == Sum(ws, ReportedOk) + ReportedOk(w)
  {
    SumUpdate(ws, i, w, Running);
    SumUpdate(ws, i, w, Reported);
    SumUpdate(ws, i, w, ReportedOk);
  }

  lemma MainInvKeeps(m: Main, ws: seq<Worker>, i: int, w: Worker)
    requires MainInv(m, ws) && 0 <= i < |ws| && !ws[i].pc.NotStarted? && !w.pc.NotStarted?
    ensures MainInv(m, ws[i := w])
  {
  }

  /** A worker inside `refreshServer` moves: the channels see nothing of it. */
  lemma ChannelAdvanceStep(c: Config, s: State, i: nat, w: Worker, t: Table)
    requires ChannelInv(c, s) && i < |s.workers|
    requires Running(s.workers[i]) == Running(w) == 1 && Reported(s.workers[i]) == Reported(w) == 0
    ensures ChannelInv(c, s.(table := t, workers := s.workers[i := w]))
  {
    WorkerChanges(s.workers, i, w);
    MainInvKeeps(s.main, s.workers, i, w);
  }

  lemma ChannelSendStep(c: Config, s: State, i: nat)
    requires ChannelInv(c, s) && i < |s.workers| && s.workers[i].pc.Send?
    ensures ChannelInv(c, NextWork(s, i, None))
  {
    var ok := s.workers[i].pc.ok;
    WorkerChanges(s.workers, i, s.workers[i].(pc := Release(ok)));
    MainInvKeeps(s.main, s.workers, i, s.workers[i].(pc := Release(ok)));
    SuccessesSnoc(s.errors, ok);
  }

  lemma ChannelReleaseStep(c: Config, s: State, i: nat)
    requires ChannelInv(c, s) && i < |s.workers| && s.workers[i].pc.Release? && s.tokens > 0
    ensures ChannelInv(c, NextWork(s, i, None))
  {
    var ok := s.workers[i].pc.ok;
    WorkerChanges(s.workers, i, s.workers[i].(pc := Finished(ok)));
    MainInvKeeps(s.main, s.workers, i, s.workers[i].(pc := Finished(ok)));
  }

  lemma ChannelWorkStep(c: Config, s: State, i: nat, fetched: Option<Server>)
    requires ValidConfig(c) && ChannelInv(c, s) && Enabled(c, s, Work(i, fetched))
    ensures ChannelInv(c, NextWork(s, i, fetched))
  {
    if s.workers[i].pc.Send? {
      ChannelSendStep(c, s, i);
    } else if s.workers[i].pc.Release? {
      ChannelReleaseStep(c, s, i);
    } else {
      var (t, w) := Advance(s.table, s.workers[i], fetched);
      ChannelAdvanceStep(c, s, i, w, t);
    }
  }

  lemma ChannelSpawnStep(c: Config, s: State)
    requires ValidConfig(c) && ChannelInv(c, s) && Enabled(c, s, Spawn)
    ensures ChannelInv(c, Next(c, s, Spawn))
  {
    WorkerChanges(s.workers, s.main.next, s.workers[s.main.next].(pc := Probe));
  }

  lemma ChannelStep(c: Config, s: State, a: Action)
    requires ValidConfig(c) && ChannelInv(c, s) && Enabled(c, s, a)
    ensures ChannelInv(c, Next(c, s, a))
  {
    match a
    case BeginRound =>
      var ws := Fresh(s.table.registered);
      SumOf(ws, Running, 0);
      SumOf(ws, Reported, 0);
      SumOf(ws, ReportedOk, 0);
    case Spawn => ChannelSpawnStep(c, s);
    case Work(i, fetched) => ChannelWorkStep(c, s, i, fetched);
    case _ =>
  }

  // ---------------------------------------------------------------- runs

  ghost predicate ValidRun(c: Config, s: State, run: seq<Action>)
    requires ValidConfig(c)
    decreases |run|
  {
    run != [] ==> Enabled(c, s, run[0]) && ValidRun(c, Next(c, s, run[0]), run[1..])
  }

  ghost function After(c: Config, s: State, run: seq<Action>): State
    requires ValidConfig(c) && ValidRun(c, s, run)
    decreases |run|
  {
    if run == [] then s else After(c, Next(c, s, run[0]), run[1..])
  }

  lemma {:induction false} RunKeepsInv(c: Config, s: State, run: seq<Action>)
    requires ValidConfig(c) && Inv(c, s) && ValidRun(c, s, run)
    ensures Inv(c, After(c, s, run))
    ensures KeepsNames(s.table.inner, After(c, s, run).table.inner)
    decreases |run|
  {
    if run != [] {
      PoolStep(c, s, run[0]);
      RegistrationStep(c, s, run[0]);
      ChannelStep(c, s, run[0]);
      RunKeepsInv(c, Next(c, s, run[0]), run[1..]);
    }
  }

  lemma InitEstablishesInv(c: Config, s: State)
    requires Init(s)
    ensures Inv(c, s)
  {
  }

  /** In every interleaving from start-up, over any number of rounds, names in the
      pool are pairwise distinct, and so are the names registered. */
  lemma NamesStayDistinct(c: Config, s: State, run: seq<Action>)
    requires ValidConfig(c) && Init(s) && ValidRun(c, s, run)
    ensures DistinctNames(After(c, s, run).table.inner) && DistinctRegistered(After(c, s, run).table.registered)
  {
    InitEstablishesInv(c, s);
    RunKeepsInv(c, s, run);
  }

  /** A client that wants to force an update of a server it was handed always finds
      exactly one registration of that name, in every reachable state. */
  lemma ForcedUpdateFindsRegistration(c: Config, s: State, run: seq<Action>, name: string) returns (i: nat)
    requires ValidConfig(c) && Init(s) && ValidRun(c, s, run)
    requires name in After(c, s, run).handedOut
    ensures var r := After(c, s, run);
            && Enabled(c, r, StartForced(i)) && r.table.registered[i].name == name
            && forall j :: 0 <= j < |r.table.registered| && r.table.registered[j].name == name ==> j == i
  {
    InitEstablishesInv(c, s);
    RunKeepsInv(c, s, run);
    var t := After(c, s, run).table;
    assert HasName(t.inner, name);
    i :| 0 <= i < |t.registered| && t.registered[i].name == name;
  }

  /** No name is ever lost: whatever the pool holds at some point of a run, it
      holds at every later point. */
  lemma NoNameIsLost(c: Config, s: State, early: seq<Action>, late: seq<Action>)
    requires ValidConfig(c) && Init(s) && ValidRun(c, s, early)
    requires ValidRun(c, After(c, s, early), late)
    ensures KeepsNames(After(c, s, early).table.inner, After(c, After(c, s, early), late).table.inner)
  {
    InitEstablishesInv(c, s);
    RunKeepsInv(c, s, early);
    RunKeepsInv(c, After(c, s, early), late);
  }

  /** In every reachable state: at most `concurrency` workers run, a worker that
      wants to report never finds the error channel full, and a worker that wants
      to give back its token never finds the token channel empty. */
  lemma ChannelsNeverBlockWorkers(c: Config, s: State, run: seq<Action>, i: nat)
    requires ValidConfig(c) && Init(s) && ValidRun(c, s, run)
    requires i < |After(c, s, run).workers|
    ensures var r := After(c, s, run);
            && Sum(r.workers, Running) <= c.concurrency
            && (r.workers[i].pc.Send? ==> |r.errors| < |r.workers|)
            && (r.workers[i].pc.Release? ==> r.tokens > 0)
  {
    InitEstablishesInv(c, s);
    RunKeepsInv(c, s, run);
    WorkerCanMove(c, After(c, s, run), i);
  }

  /** Every worker that has started and not finished has an enabled step. */
  lemma WorkerCanMove(c: Config, s: State, i: nat)
    requires ValidConfig(c) && ChannelInv(c, s) && i < |s.workers|
    ensures Running(s.workers[i]) == 1 ==> Enabled(c, s, Work(i, None))
    ensures s.workers[i].pc.Send? ==> |s.errors| < |s.workers|
    ensures s.workers[i].pc.Release? ==> s.tokens > 0
  {
    if s.workers[i].pc.Send? {
      var w := s.workers[i].(pc := Finished(true));
      SumUpdate(s.workers, i, w, Reported);
      SumAtMost(s.workers[i := w], Reported, 1);
    } else if s.workers[i].pc.Release? {
      var w := s.workers[i].(pc := Finished(true));
      SumUpdate(s.workers, i, w, Running);
    }
  }

  predicate RoundAction(a: Action) {
    a.Spawn? || a.StartCollecting? || a.Receive? || a.Finish? || a.Work?
  }

  /** The refresh protocol never deadlocks: while a round is under way, in every
      reachable state one of its own steps is enabled. */
  lemma RoundNeverStuck(c: Config, s: State, run: seq<Action>) returns (a: Action)
    requires ValidConfig(c) && Init(s) && ValidRun(c, s, run)
    requires After(c, s, run).main.Spawning? || After(c, s, run).main.Collecting?
    ensures RoundAction(a) && Enabled(c, After(c, s, run), a)
  {
    InitEstablishesInv(c, s);
    RunKeepsInv(c, s, run);
    a := SomeStepEnabled(c, After(c, s, run));
  }

  lemma SomeStepEnabled(c: Config, s: State) returns (a: Action)
    requires ValidConfig(c) && ChannelInv(c, s) && (s.main.Spawning? || s.main.Collecting?)
    ensures RoundAction(a) && Enabled(c, s, a)
  {
    var n := |s.workers|;
    if s.main.Spawning? {
      if s.main.next >= n {
        a := StartCollecting;
      } else if s.tokens < c.concurrency {
        a := Spawn;
      } else {
        var i := SumPositive(s.workers, Running);
        WorkerCanMove(c, s, i);
        a := Work(i, None);
      }
    } else if s.main.got >= n {
      a := Finish;
    } else if s.errors != [] {
      a := Receive;
    } else {
      var i := SumShort(s.workers, Reported);
      WorkerCanMove(c, s, i);
      a := Work(i, None);
    }
  }

  // ---------------------------------------------------------------- a round ends

  function MainRemaining(m: Main, n: nat): nat {
    match m
    case Idle => 0
    case Spawning(next) => n + 2 + if next <= n then n - next else 0
    case Collecting(got, _, _) => 1 + if got <= n then n - got else 0
    case Returned(_, _) => 0
  }

  ghost function Measure(s: State): nat { Sum(s.workers, Remaining) + MainRemaining(s.main, |s.workers|) }

  lemma WorkLowersRemaining(s: State, i: nat, fetched: Option<Server>)
    requires i < |s.workers|
    requires s.workers[i].pc.Send? || (s.workers[i].pc.Release? && s.tokens > 0) || CanAdvance(s.workers[i], fetched)
    ensures Sum(NextWork(s, i, fetched).workers, Remaining) < Sum(s.workers, Remaining)
  {
    SumUpdate(s.workers, i, NextWork(s, i, fetched).workers[i], Remaining);
  }

  /** Every step of the round lowers the measure; nobody else's step raises it. */
  lemma MeasureStep(c: Config, s: State, a: Action)
    requires ValidConfig(c) && ChannelInv(c, s) && Enabled(c, s, a) && !a.BeginRound?
    ensures Measure(Next(c, s, a)) + (if RoundAction(a) then 1 else 0) <= Measure(s)
  {
    match a
    case Work(i, fetched) => WorkLowersRemaining(s, i, fetched);
    case Spawn =>
      SumUpdate(s.workers, s.main.next, s.workers[s.main.next].(pc := Probe), Remaining);
    case _ =>
  }

  ghost function RoundSteps(run: seq<Action>): nat {
    if run == [] then 0 else (if RoundAction(run[0]) then 1 else 0) + RoundSteps(run[1..])
  }

  lemma {:induction false} MeasureOverRun(c: Config, s: State, run: seq<Action>)
    requires ValidConfig(c) && ChannelInv(c, s) && ValidRun(c, s, run)
    requires forall i :: 0 <= i < |run| ==> !run[i].BeginRound?
    ensures RoundSteps(run) + Measure(After(c, s, run)) <= Measure(s)
    decreases |run|
  {
    if run != [] {
      assert !run[0].BeginRound?;
      MeasureStep(c, s, run[0]);
      ChannelStep(c, s, run[0]);
      MeasureOverRun(c, Next(c, s, run[0]), run[1..]);
    }
  }

  /** A round over n registered servers is over after at most 10n + 2 of its own
      steps, however they interleave with everything else. */
  lemma RoundEnds(c: Config, s: State, before: seq<Action>, run: seq<Action>)
    requires ValidConfig(c) && Init(s) && ValidRun(c, s, before) && Enabled(c, After(c, s, before), BeginRound)
    requires ValidRun(c, Next(c, After(c, s, before), BeginRound), run)
    requires forall i :: 0 <= i < |run| ==> !run[i].BeginRound?
    ensures RoundSteps(run) <= 10 * |After(c, s, before).table.registered| + 2
  {
    InitEstablishesInv(c, s);
    RunKeepsInv(c, s, before);
    ChannelStep(c, After(c, s, before), BeginRound);
    var s1 := Next(c, After(c, s, before), BeginRound);
    SumOf(s1.workers, Remaining, 8);
    MeasureOverRun(c, s1, run);
  }

  /** A returned round, in any state that satisfies the invariant. */
  lemma ReturnedState(c: Config, r: State)
    requires Inv(c, r) && r.main.Returned?
    ensures r.errors == []
    ensures forall i :: 0 <= i < |r.workers| ==> Reported(r.workers[i]) == 1
    ensures r.main.live == Sum(r.workers, ReportedOk)
    ensures !r.main.failed <==> r.main.live > 0 || r.workers == []
  {
    SumAtMost(r.workers, Reported, 1);
    forall i | 0 <= i < |r.workers| ensures Reported(r.workers[i]) == 1 {
      if Reported(r.workers[i]) == 0 {
        var w := r.workers[i].(pc := Finished(true));
        SumUpdate(r.workers, i, w, Reported);
        SumAtMost(r.workers[i := w], Reported, 1);
      }
    }
  }

  /** When a round returns, every worker has reported, the live count is the number
      of successful workers, the error is nil iff one succeeded or there was no worker,
      and the name of every server that succeeded is in the pool. */
  lemma RoundResult(c: Config, s: State, run: seq<Action>)
    requires ValidConfig(c) && Init(s) && ValidRun(c, s, run)
    requires After(c, s, run).main.Returned?
    ensures var r := After(c, s, run);
            && r.errors == []
            && (forall i :: 0 <= i < |r.workers| ==> Reported(r.workers[i]) == 1)
            && r.main.live == Sum(r.workers, ReportedOk)
            && (!r.main.failed <==> r.main.live > 0 || r.workers == [])
            && (forall i :: 0 <= i < |r.workers| && ReportedOk(r.workers[i]) == 1
                  ==> HasName(r.table.inner, r.workers[i].entry.name))
  {
    InitEstablishesInv(c, s);
    RunKeepsInv(c, s, run);
    var r := After(c, s, run);
    ReturnedState(c, r);
    forall i | 0 <= i < |r.workers| && ReportedOk(r.workers[i]) == 1
      ensures HasName(r.table.inner, r.workers[i].entry.name)
    {
      assert WorkerInv(r.table.inner, r.workers[i]);
    }
  }

  // ---------------------------------------------------------------- steps of the surroundings

  /** A worker can be started exactly while fewer than `concurrency` are running. */
  lemma SpawnIsHeldBackOnlyByLimit(c: Config, s: State, run: seq<Action>)
    requires ValidConfig(c) && Init(s) && ValidRun(c, s, run)
    requires After(c, s, run).main.Spawning? && After(c, s, run).main.next < |After(c, s, run).workers|
    ensures Enabled(c, After(c, s, run), Spawn) <==> Sum(After(c, s, run).workers, Running) < c.concurrency
  {
    InitEstablishesInv(c, s);
    RunKeepsInv(c, s, run);
  }

  /** Nothing else is held back: a fetch may end in any way, for workers and forced
      updates alike, servers may be announced, handed out and reported on at any time, and
      a round may begin whenever none is under way. */
  lemma SurroundingsAreFree(c: Config, s: State, i: nat, fetched: Option<Server>, entry: RegisteredServer, draw: nat,
                            probe: nat, now: int, rtt: real)
    ensures Enabled(c, s, Announce(entry))
    ensures s.table.inner != [] ==> Enabled(c, s, GetOne(draw, probe, now))
    ensures i < |s.table.inner| ==> Enabled(c, s, Notice(i, rtt, now))
    ensures i < |s.workers| && s.workers[i].pc.Fetch? ==>
              (fetched.Some? ==> fetched.value.name == s.workers[i].entry.name) ==> Enabled(c, s, Work(i, fetched))
    ensures i < |s.forced| && s.forced[i].pc.Fetch? ==>
              (fetched.Some? ==> fetched.value.name == s.forced[i].entry.name) ==> Enabled(c, s, ForcedWork(i, fetched))
    ensures i < |s.forced| && (s.forced[i].pc.Probe? || s.forced[i].pc.Replace?) ==> Enabled(c, s, ForcedWork(i, None))
    ensures Enabled(c, s, BeginRound) <==> !(s.main.Spawning? || s.main.Collecting?)
  {
  }

  /** A registration announced, and the one a worker re-enters for a server it has just
      added, are in the list afterwards, and no registration of another name changes. */
  lemma RegistrationsAreEntered(c: Config, s: State, a: Action)
    requires ValidConfig(c) && Enabled(c, s, a)
    requires a.Announce? || (a.Work? && s.workers[a.i].pc.Enroll?)
    ensures var entry := if a.Announce? then a.entry else s.workers[a.i].entry;
            var before, after := s.table.registered, Next(c, s, a).table.registered;
            entry in after && forall e: RegisteredServer :: e.name != entry.name ==> (e in after <==> e in before)
  {
    RegisterInstalls(s.table.registered, if a.Announce? then a.entry else s.workers[a.i].entry);
  }

  /** What a client reports about a server is what the pool then holds, for that server only. */
  lemma NoticeIsKept(c: Config, s: State, a: Action, j: int)
    requires ValidConfig(c) && a.Notice? && Enabled(c, s, a) && 0 <= j < |s.table.inner|
    ensures var e := Next(c, s, a).table.inner[j];
            if j == a.i then e.rtt == a.rtt && e.lastAction == a.lastAction else e == s.table.inner[j]
  {
  }

  /** Every active server can be the one a client is handed. */
  lemma EveryActiveServerIsHandedOut(c: Config, s: State, i: nat, now: int)
    requires ValidConfig(c) && !c.estimator && i < ActiveCount(c.strategy, |s.table.inner|) <= |s.table.inner|
    ensures Enabled(c, s, GetOne(i, 0, now))
    ensures s.table.inner[i].name in Next(c, s, GetOne(i, 0, now)).handedOut
  {
  }

  /** The last step of a round leaves the pool sorted by initial RTT, servers of
      equal RTT in the order they had. */
  lemma FinishSortsPool(c: Config, s: State)
    requires ValidConfig(c) && Enabled(c, s, Finish)
    ensures var inner := Next(c, s, Finish).table.inner;
            && SortedByInitialRtt(inner) && multiset(inner) == multiset(s.table.inner)
            && forall r :: WithRtt(inner, r) == WithRtt(s.table.inner, r)
  {
    StableSortMeaning(s.table.inner);
  }

  // ---------------------------------------------------------------- the gap is real

  /** Distinct registrations are needed, not just convenient: two workers for one
      name can both find it missing before either appends, and then both append. */
  lemma SameNameTwiceDuplicates(x: Server, y: Server) returns (w0: Worker, w1: Worker)
    requires x.name == y.name
    ensures CanAdvance(w0, None) && CanAdvance(w1, None) && w0.pc == Replace(x) && w1.pc == Replace(y)
    ensures var t0 := Table([], []);
            var (t1, v0) := Advance(t0, w0, None);
            var (t2, v1) := Advance(t1, w1, None);
            && CanAdvance(v0, None) && CanAdvance(v1, None)
            && var (t3, u0) := Advance(t2, v0, None);
               var (t4, u1) := Advance(t3, v1, None);
               !DistinctNames(t4.inner)
  {
    w0, w1 := Worker(RegisteredServer(x.name, 0), Replace(x)), Worker(RegisteredServer(x.name, 0), Replace(y));
    assert ([] + [x] + [y])[0].name == ([] + [x] + [y])[1].name;
  }
}
