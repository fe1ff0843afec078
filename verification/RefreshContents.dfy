/** What a refresh puts into the pool. A history is kept beside every run of the
    refresh protocol: what each fetch returned, and which servers were installed, in
    order. No step reads it, and it is written from the actions and program counters
    alone, not from the pool. */
module RefreshContents {
  import opened Common
  import opened Sums
  import opened LoadBalancer
  import opened ServersInfo
  import opened RefreshProtocol

  // ---------------------------------------------------------------- histories

  /** Who called `refreshServer`: worker i of a round, or the i-th forced update. */
  datatype Source = ByRound(round: nat, i: nat) | ByForced(i: nat)

  datatype Install = Install(origin: Source, server: Server)

  /** `asked` says for which registration each caller fetched, `fetches` what it got. */
  datatype History = History(
    round: nat,
    asked: map<Source, RegisteredServer>,
    fetches: map<Source, Option<Server>>,
    installs: seq<Install>)

  function NoHistory(): History { History(0, map[], map[], []) }

  /** The server a worker's next step is meant to put into the pool: on the replace
      step if the name is there, otherwise on the append. */
  function Installing(t: Table, w: Worker): Option<Server> {
    match w.pc
    case Replace(server) => if HasName(t.inner, w.entry.name) then Some(server) else None
    case Append(server) => Some(server)
    case _ => None
  }

  function RecordWorker(h: History, t: Table, w: Worker, key: Source, fetched: Option<Server>): History {
    if w.pc.Fetch? then h.(asked := h.asked[key := w.entry], fetches := h.fetches[key := fetched])
    else if Installing(t, w).Some? then h.(installs := h.installs + [Install(key, Installing(t, w).value)])
    else h
  }

  function Record(s: State, h: History, a: Action): History {
    match a
    case BeginRound => h.(round := h.round + 1)
    case Work(i, fetched) =>
      if i < |s.workers| then RecordWorker(h, s.table, s.workers[i], ByRound(h.round, i), fetched) else h
    case ForcedWork(i, fetched) =>
      if i < |s.forced| then RecordWorker(h, s.table, s.forced[i], ByForced(i), fetched) else h
    case _ => h
  }

  /** The position of the last install under a name, or -1. */
  function LastInstall(installs: seq<Install>, name: string): (r: int)
    ensures -1 <= r < |installs|
    ensures r >= 0 ==> installs[r].server.name == name
    ensures forall k :: r < k < |installs| ==> installs[k].server.name != name
  {
    if installs == [] then -1
    else if installs[|installs|-1].server.name == name then |installs| - 1
    else LastInstall(installs[..|installs|-1], name)
  }

  // ---------------------------------------------------------------- the pool follows the installs

  /** One entry per name ever installed, holding the payload of its last install. */
  ghost predicate Reflects(inner: Pool, installs: seq<Install>) {
    && (forall i :: 0 <= i < |inner| ==> ReflectsAt(inner[i], installs))
    && (forall k :: 0 <= k < |installs| ==> HasName(inner, installs[k].server.name))
  }

  ghost predicate ReflectsAt(e: Server, installs: seq<Install>) {
    var l := LastInstall(installs, e.name);
    l >= 0 && installs[l].server.payload == e.payload
  }

  lemma ReorderReflects(before: Pool, after: Pool, installs: seq<Install>)
    requires Reflects(before, installs) && multiset(Ids(before)) == multiset(Ids(after))
    ensures Reflects(after, installs)
  {
    NamesFollowIds(before, after);
    NamesFollowIds(after, before);
    forall i | 0 <= i < |after| ensures ReflectsAt(after[i], installs) {
      assert HasId(before, Ids(after)[i]);
      var k :| 0 <= k < |before| && Ids(before)[k] == Ids(after)[i];
      assert ReflectsAt(before[k], installs);
    }
  }

  /** Other names do not notice an install. */
  lemma InstallFrame(e: Server, installs: seq<Install>, x: Install)
    requires x.server.name != e.name && ReflectsAt(e, installs)
    ensures ReflectsAt(e, installs + [x])
  {
  }

  lemma InstalledReflects(installs: seq<Install>, x: Install)
    ensures ReflectsAt(x.server, installs + [x])
  {
  }

  lemma ReplaceAtReflects(inner: Pool, k: int, installs: seq<Install>, x: Install)
    requires DistinctNames(inner) && Reflects(inner, installs) && 0 <= k < |inner| && inner[k].name == x.server.name
    ensures Reflects(inner[k := x.server], installs + [x])
  {
    var r := inner[k := x.server];
    ReplaceAtKeepsNames(inner, k, x.server);
    forall i | 0 <= i < |r| ensures ReflectsAt(r[i], installs + [x]) {
      if i == k {
        InstalledReflects(installs, x);
      } else {
        InstallFrame(inner[i], installs, x);
      }
    }
    forall m | 0 <= m < |installs + [x]| ensures HasName(r, (installs + [x])[m].server.name) {
      if m == |installs| {
        NameAt(r, k);
      } else {
        assert HasName(inner, installs[m].server.name);
      }
    }
  }

  lemma ReplaceReflects(t: Table, server: Server, installs: seq<Install>, origin: Source)
    requires TableInv(t) && Reflects(t.inner, installs) && HasName(t.inner, server.name)
    ensures Reflects(ReplaceFirst(t.inner, server.name, server), installs + [Install(origin, server)])
  {
    var k :| 0 <= k < |t.inner| && t.inner[k].name == server.name;
    ReplaceFirstAt(t.inner, server.name, server, k);
    ReplaceAtReflects(t.inner, k, installs, Install(origin, server));
  }

  lemma AppendReflects(t: Table, server: Server, installs: seq<Install>, origin: Source)
    requires TableInv(t) && Reflects(t.inner, installs) && !HasName(t.inner, server.name)
    ensures Reflects(t.inner + [server], installs + [Install(origin, server)])
  {
    AppendPool(t, server);
    var x := Install(origin, server);
    InstalledReflects(installs, x);
    forall i | 0 <= i < |t.inner| ensures ReflectsAt(t.inner[i], installs + [x]) {
      NameAt(t.inner, i);
      InstallFrame(t.inner[i], installs, x);
    }
  }

  /** A step of `refreshServer` changes the pool exactly when it is recorded to. */
  lemma AdvanceReflects(h: History, t: Table, w: Worker, key: Source, fetched: Option<Server>)
    requires TableInv(t) && Reflects(t.inner, h.installs) && CanAdvance(w, fetched)
    requires WorkerInv(t.inner, w)
    ensures Reflects(Advance(t, w, fetched).0.inner, RecordWorker(h, t, w, key, fetched).installs)
  {
    if w.pc.Replace? && HasName(t.inner, w.entry.name) {
      ReplaceReflects(t, w.pc.server, h.installs, key);
    } else if w.pc.Append? {
      AppendReflects(t, w.pc.server, h.installs, key);
    }
  }

  lemma ReflectsStep(c: Config, s: State, h: History, a: Action)
    requires ValidConfig(c) && PoolInv(s) && Enabled(c, s, a) && Reflects(s.table.inner, h.installs)
    ensures Reflects(Next(c, s, a).table.inner, Record(s, h, a).installs)
  {
    var inner := s.table.inner;
    match a
    case Work(i, fetched) =>
      assert WorkerInv(inner, s.workers[i]);
      if CanAdvance(s.workers[i], fetched) {
        AdvanceReflects(h, s.table, s.workers[i], ByRound(h.round, i), fetched);
      }
    case ForcedWork(i, fetched) =>
      assert ForcedInv(inner, s.forced[i]);
      AdvanceReflects(h, s.table, s.forced[i], ByForced(i), fetched);
    case Finish =>
      StableSortMeaning(inner);
      PermutationKeepsIds(inner, StableSort(inner));
      ReorderReflects(inner, StableSort(inner), h.installs);
    case GetOne(draw, probe, now) =>
      GetOneKeepsIds(inner, c.strategy, c.estimator, draw, probe, now);
      ReorderReflects(inner, PoolAfterGetOne(inner, c.strategy, c.estimator, draw, probe, now), h.installs);
    case Notice(i, rtt, lastAction) =>
      var pool := inner[i := inner[i].(rtt := rtt, lastAction := lastAction)];
      assert Ids(pool) == Ids(inner);
      ReorderReflects(inner, pool, h.installs);
    case _ =>
  }

  // ---------------------------------------------------------------- workers follow their fetches

  /** The same server, but for its moving average. */
  ghost predicate SameButRtt(a: Server, b: Server) { a.(rtt := b.rtt) == b }

  /** The call's fetch gave a server of its own name. */
  ghost predicate Fetched(h: History, key: Source, w: Worker) {
    key in h.fetches && h.fetches[key].Some? && h.fetches[key].value.name == w.entry.name
  }

  ghost predicate Holds(h: History, key: Source, w: Worker, server: Server) {
    Fetched(h, key, w) && SameButRtt(server, h.fetches[key].value)
  }

  /** A call that has ended reports success exactly if its fetch gave a server. */
  ghost predicate Reports(h: History, key: Source, w: Worker, ok: bool) {
    key in h.fetches && (if ok then Fetched(h, key, w) else h.fetches[key].None?)
  }

  ghost predicate FollowsFetch(h: History, key: Source, w: Worker) {
    match w.pc
    case Replace(server) => Holds(h, key, w, server)
    case Append(server) => Holds(h, key, w, server)
    case Enroll => Fetched(h, key, w)
    case Send(ok) => Reports(h, key, w, ok)
    case Release(ok) => Reports(h, key, w, ok)
    case Finished(ok) => Reports(h, key, w, ok)
    case _ => key !in h.fetches
  }

  /** Install k is what its caller fetched. */
  ghost predicate Genuine(h: History, k: int)
    requires 0 <= k < |h.installs|
  {
    var origin := h.installs[k].origin;
    origin in h.fetches && h.fetches[origin].Some? && SameButRtt(h.installs[k].server, h.fetches[origin].value)
  }

  ghost predicate FetchInv(s: State, h: History) {
    && (forall i :: 0 <= i < |s.workers| ==> FollowsFetch(h, ByRound(h.round, i), s.workers[i]))
    && (forall i :: 0 <= i < |s.forced| ==> FollowsFetch(h, ByForced(i), s.forced[i]))
    && (forall key :: key in h.fetches ==> if key.ByRound? then key.round <= h.round else key.i < |s.forced|)
    && (forall k :: 0 <= k < |h.installs| ==> Genuine(h, k))
  }

  /** Recording for one caller leaves what is known of the others alone. */
  lemma RecordFrame(h: History, t: Table, w: Worker, key: Source, fetched: Option<Server>, other: Source, v: Worker)
    requires other != key && FollowsFetch(h, other, v)
    ensures FollowsFetch(RecordWorker(h, t, w, key, fetched), other, v)
  {
  }

  lemma AdvanceFollows(h: History, t: Table, w: Worker, key: Source, fetched: Option<Server>)
    requires CanAdvance(w, fetched) && FollowsFetch(h, key, w)
    ensures FollowsFetch(RecordWorker(h, t, w, key, fetched), key, Advance(t, w, fetched).1)
  {
  }

  lemma InstallsStayGenuine(h: History, t: Table, w: Worker, key: Source, fetched: Option<Server>)
    requires CanAdvance(w, fetched) && FollowsFetch(h, key, w)
    requires forall k :: 0 <= k < |h.installs| ==> Genuine(h, k)
    ensures var h' := RecordWorker(h, t, w, key, fetched);
            forall k :: 0 <= k < |h'.installs| ==> Genuine(h', k)
  {
    var h' := RecordWorker(h, t, w, key, fetched);
    forall k | 0 <= k < |h'.installs| ensures Genuine(h', k) {
      if k < |h.installs| {
        assert Genuine(h, k);
      }
    }
  }

  lemma FetchWorkStep(s: State, h: History, i: nat, fetched: Option<Server>)
    requires FetchInv(s, h) && i < |s.workers| && CanAdvance(s.workers[i], fetched)
    ensures FetchInv(NextWork(s, i, fetched), Record(s, h, Work(i, fetched)))
  {
    var key, w := ByRound(h.round, i), s.workers[i];
    var h' := RecordWorker(h, s.table, w, key, fetched);
    AdvanceFollows(h, s.table, w, key, fetched);
    InstallsStayGenuine(h, s.table, w, key, fetched);
    forall j | 0 <= j < |s.workers| && j != i ensures FollowsFetch(h', ByRound(h.round, j), s.workers[j]) {
      RecordFrame(h, s.table, w, key, fetched, ByRound(h.round, j), s.workers[j]);
    }
    forall j | 0 <= j < |s.forced| ensures FollowsFetch(h', ByForced(j), s.forced[j]) {
      RecordFrame(h, s.table, w, key, fetched, ByForced(j), s.forced[j]);
    }
  }

  lemma FetchForcedStep(s: State, h: History, i: nat, fetched: Option<Server>)
    requires FetchInv(s, h) && i < |s.forced| && CanAdvance(s.forced[i], fetched)
    ensures var (t, w) := Advance(s.table, s.forced[i], fetched);
            FetchInv(s.(table := t, forced := s.forced[i := w]), Record(s, h, ForcedWork(i, fetched)))
  {
    var key, w := ByForced(i), s.forced[i];
    var h' := RecordWorker(h, s.table, w, key, fetched);
    AdvanceFollows(h, s.table, w, key, fetched);
    InstallsStayGenuine(h, s.table, w, key, fetched);
    forall j | 0 <= j < |s.workers| ensures FollowsFetch(h', ByRound(h.round, j), s.workers[j]) {
      RecordFrame(h, s.table, w, key, fetched, ByRound(h.round, j), s.workers[j]);
    }
    forall j | 0 <= j < |s.forced| && j != i ensures FollowsFetch(h', ByForced(j), s.forced[j]) {
      RecordFrame(h, s.table, w, key, fetched, ByForced(j), s.forced[j]);
    }
  }

  lemma FetchStep(c: Config, s: State, h: History, a: Action)
    requires ValidConfig(c) && ChannelInv(c, s) && Enabled(c, s, a) && FetchInv(s, h)
    ensures FetchInv(Next(c, s, a), Record(s, h, a))
  {
    match a
    case Work(i, fetched) =>
      if CanAdvance(s.workers[i], fetched) {
        FetchWorkStep(s, h, i, fetched);
      } else {
        FetchReportStep(s, h, i);
      }
    case ForcedWork(i, fetched) => FetchForcedStep(s, h, i, fetched);
    case BeginRound => FetchBeginStep(s, h);
    case Spawn => FetchSpawnStep(s, h, s.main.next);
    case _ =>
  }

  lemma FetchReportStep(s: State, h: History, i: nat)
    requires FetchInv(s, h) && i < |s.workers|
    requires s.workers[i].pc.Send? || (s.workers[i].pc.Release? && s.tokens > 0)
    ensures FetchInv(NextWork(s, i, None), h)
  {
  }

  lemma FetchSpawnStep(s: State, h: History, i: nat)
    requires FetchInv(s, h) && i < |s.workers| && s.workers[i].pc.NotStarted?
    ensures FetchInv(s.(tokens := s.tokens + 1, workers := SetPc(s.workers, i, Probe), main := Spawning(i + 1)), h)
  {
  }

  lemma FetchBeginStep(s: State, h: History)
    requires FetchInv(s, h)
    ensures FetchInv(s.(workers := Fresh(s.table.registered), tokens := 0, errors := [], main := Spawning(0)),
                     h.(round := h.round + 1))
  {
    var h' := h.(round := h.round + 1);
    forall i | 0 <= i < |s.forced| ensures FollowsFetch(h', ByForced(i), s.forced[i]) {
      assert FollowsFetch(h, ByForced(i), s.forced[i]);
    }
    forall k | 0 <= k < |h'.installs| ensures Genuine(h', k) { assert Genuine(h, k); }
  }

  // ---------------------------------------------------------------- successful workers have installed

  predicate Succeeded(pc: Pc) {
    match pc
    case Enroll => true
    case Send(ok) => ok
    case Release(ok) => ok
    case Finished(ok) => ok
    case _ => false
  }

  /** Install k was made by that caller, and only forced updates came after it under its name. */
  ghost predicate Standing(h: History, key: Source, k: int) {
    && 0 <= k < |h.installs| && h.installs[k].origin == key
    && forall m :: k < m < |h.installs| && h.installs[m].server.name == h.installs[k].server.name
         ==> h.installs[m].origin.ByForced?
  }

  ghost predicate HasStanding(h: History, key: Source) { exists k :: Standing(h, key, k) }

  ghost predicate StandingInv(s: State, h: History) {
    forall i :: 0 <= i < |s.workers| && Succeeded(s.workers[i].pc) ==> HasStanding(h, ByRound(h.round, i))
  }

  /** An install by somebody else does not count against a standing one, unless it is
      another worker's of the same name. */
  lemma StandingSurvives(h: History, key: Source, x: Install)
    requires HasStanding(h, key)
    requires x.origin.ByForced? || forall k :: Standing(h, key, k) ==> x.server.name != h.installs[k].server.name
    ensures HasStanding(h.(installs := h.installs + [x]), key)
  {
    var k :| Standing(h, key, k);
    assert Standing(h.(installs := h.installs + [x]), key, k);
  }

  lemma FreshStanding(h: History, x: Install)
    ensures HasStanding(h.(installs := h.installs + [x]), x.origin)
  {
    assert Standing(h.(installs := h.installs + [x]), x.origin, |h.installs|);
  }

  /** What stands for a worker carries that worker's name. */
  lemma StandingName(s: State, h: History, j: nat, k: int)
    requires FetchInv(s, h) && j < |s.workers| && Succeeded(s.workers[j].pc)
    requires Standing(h, ByRound(h.round, j), k)
    ensures h.installs[k].server.name == s.workers[j].entry.name
  {
    assert Genuine(h, k);
    assert FollowsFetch(h, ByRound(h.round, j), s.workers[j]);
  }

  lemma StandingInstallStep(s: State, h: History, i: nat, server: Server)
    requires FetchInv(s, h) && StandingInv(s, h) && DistinctWorkers(s.workers)
    requires i < |s.workers| && server.name == s.workers[i].entry.name
    ensures var h' := h.(installs := h.installs + [Install(ByRound(h.round, i), server)]);
            && HasStanding(h', ByRound(h.round, i))
            && forall j :: 0 <= j < |s.workers| && j != i && Succeeded(s.workers[j].pc)
                  ==> HasStanding(h', ByRound(h.round, j))
  {
    var x := Install(ByRound(h.round, i), server);
    FreshStanding(h, x);
    forall j | 0 <= j < |s.workers| && j != i && Succeeded(s.workers[j].pc)
      ensures HasStanding(h.(installs := h.installs + [x]), ByRound(h.round, j))
    {
      forall k | Standing(h, ByRound(h.round, j), k) ensures x.server.name != h.installs[k].server.name {
        StandingName(s, h, j, k);
      }
      StandingSurvives(h, ByRound(h.round, j), x);
    }
  }

  /** A step that installs nothing leaves what stands standing. */
  lemma StandingFrame(h: History, h': History, key: Source)
    requires h'.installs == h.installs && HasStanding(h, key)
    ensures HasStanding(h', key)
  {
    var k :| Standing(h, key, k);
    assert Standing(h', key, k);
  }

  lemma StandingWorkStep(s: State, h: History, i: nat, fetched: Option<Server>)
    requires FetchInv(s, h) && StandingInv(s, h) && DistinctWorkers(s.workers)
    requires i < |s.workers| && CanAdvance(s.workers[i], fetched)
    ensures StandingInv(NextWork(s, i, fetched), Record(s, h, Work(i, fetched)))
  {
    var w, h' := s.workers[i], Record(s, h, Work(i, fetched));
    assert FollowsFetch(h, ByRound(h.round, i), w);
    if Installing(s.table, w).Some? {
      StandingInstallStep(s, h, i, Installing(s.table, w).value);
    } else {
      forall j | 0 <= j < |s.workers| && Succeeded(s.workers[j].pc) ensures HasStanding(h', ByRound(h.round, j)) {
        StandingFrame(h, h', ByRound(h.round, j));
      }
    }
  }

  lemma StandingForcedStep(s: State, h: History, i: nat, fetched: Option<Server>)
    requires StandingInv(s, h) && i < |s.forced|
    ensures StandingInv(s, Record(s, h, ForcedWork(i, fetched)))
  {
    var h' := Record(s, h, ForcedWork(i, fetched));
    forall j | 0 <= j < |s.workers| && Succeeded(s.workers[j].pc) ensures HasStanding(h', ByRound(h.round, j)) {
      if h'.installs == h.installs {
        StandingFrame(h, h', ByRound(h.round, j));
      } else {
        StandingSurvives(h, ByRound(h.round, j), h'.installs[|h.installs|]);
      }
    }
  }

  lemma StandingStep(c: Config, s: State, h: History, a: Action)
    requires ValidConfig(c) && PoolInv(s) && Enabled(c, s, a) && FetchInv(s, h) && StandingInv(s, h)
    ensures StandingInv(Next(c, s, a), Record(s, h, a))
  {
    match a
    case Work(i, fetched) =>
      if CanAdvance(s.workers[i], fetched) {
        StandingWorkStep(s, h, i, fetched);
      }
    case ForcedWork(i, fetched) => StandingForcedStep(s, h, i, fetched);
    case _ =>
  }

  // ---------------------------------------------------------------- callers of the current round

  /** Every caller of the current round is one of its workers, and fetches for that
      worker's registration. */
  ghost predicate AskedInv(s: State, h: History) {
    && h.asked.Keys == h.fetches.Keys
    && forall key :: key in h.asked && key.ByRound? && key.round == h.round ==>
         key.i < |s.workers| && h.asked[key] == s.workers[key.i].entry
  }

  lemma AskedStep(c: Config, s: State, h: History, a: Action)
    requires ValidConfig(c) && Enabled(c, s, a) && FetchInv(s, h) && AskedInv(s, h)
    ensures AskedInv(Next(c, s, a), Record(s, h, a))
  {
    var s', h' := Next(c, s, a), Record(s, h, a);
    assert h'.asked.Keys == h'.fetches.Keys;
    if !a.BeginRound? { SameEntries(c, s, a); }
  }

  // ---------------------------------------------------------------- runs with their histories

  ghost function HistoryAfter(c: Config, s: State, h: History, run: seq<Action>): History
    requires ValidConfig(c) && ValidRun(c, s, run)
    decreases |run|
  {
    if run == [] then h else HistoryAfter(c, Next(c, s, run[0]), Record(s, h, run[0]), run[1..])
  }

  ghost predicate ContentInv(s: State, h: History) {
    Reflects(s.table.inner, h.installs) && FetchInv(s, h) && StandingInv(s, h) && AskedInv(s, h)
  }

  lemma StepKeepsContents(c: Config, s: State, h: History, a: Action)
    requires ValidConfig(c) && Inv(c, s) && ContentInv(s, h) && Enabled(c, s, a)
    ensures Inv(c, Next(c, s, a)) && ContentInv(Next(c, s, a), Record(s, h, a))
  {
    ReflectsStep(c, s, h, a);
    FetchStep(c, s, h, a);
    StandingStep(c, s, h, a);
    AskedStep(c, s, h, a);
    PoolStep(c, s, a);
    RegistrationStep(c, s, a);
    ChannelStep(c, s, a);
  }

  lemma {:induction false} RunKeepsContents(c: Config, s: State, h: History, run: seq<Action>)
    requires ValidConfig(c) && Inv(c, s) && ContentInv(s, h) && ValidRun(c, s, run)
    ensures Inv(c, After(c, s, run)) && ContentInv(After(c, s, run), HistoryAfter(c, s, h, run))
    decreases |run|
  {
    if run != [] {
      StepKeepsContents(c, s, h, run[0]);
      RunKeepsContents(c, Next(c, s, run[0]), Record(s, h, run[0]), run[1..]);
    }
  }

  /** In every interleaving from start-up, over any number of rounds: the pool has
      exactly one entry per name ever installed, that entry has the payload of the last
      install under its name, and every install is what its caller's fetch returned. */
  lemma PoolIsFunctional(c: Config, s: State, run: seq<Action>)
    requires ValidConfig(c) && Init(s) && ValidRun(c, s, run)
    ensures var inner, h := After(c, s, run).table.inner, HistoryAfter(c, s, NoHistory(), run);
            && DistinctNames(inner)
            && (forall name :: HasName(inner, name) <==> LastInstall(h.installs, name) >= 0)
            && (forall i :: 0 <= i < |inner| ==> ReflectsAt(inner[i], h.installs))
            && (forall k :: 0 <= k < |h.installs| ==> Genuine(h, k))
  {
    InitEstablishesInv(c, s);
    RunKeepsContents(c, s, NoHistory(), run);
  }

  /** When a round returns, every worker has fetched; it reported success if and only
      if its fetch gave a server; and then it has installed that server, and the pool
      holds, under that name, that server's payload, or that of the last forced update
      of the name if one was installed later. */
  lemma RefreshInstallsWhatItFetched(c: Config, s: State, run: seq<Action>, i: nat) returns (k: int, e: int)
    requires ValidConfig(c) && Init(s) && ValidRun(c, s, run)
    requires After(c, s, run).main.Returned? && i < |After(c, s, run).workers|
    ensures var r, h := After(c, s, run), HistoryAfter(c, s, NoHistory(), run);
            var key := ByRound(h.round, i);
            && key in h.fetches
            && (ReportedOk(r.workers[i]) == 1 <==> h.fetches[key].Some?)
            && (h.fetches[key].Some? ==>
                  var last := LastInstall(h.installs, r.workers[i].entry.name);
                  && 0 <= k <= last && h.installs[k].origin == key
                  && SameButRtt(h.installs[k].server, h.fetches[key].value)
                  && (k < last ==> h.installs[last].origin.ByForced?)
                  && 0 <= e < |r.table.inner| && r.table.inner[e].name == r.workers[i].entry.name
                  && r.table.inner[e].payload == h.installs[last].server.payload)
  {
    InitEstablishesInv(c, s);
    RunKeepsContents(c, s, NoHistory(), run);
    RoundResult(c, s, run);
    var r, h := After(c, s, run), HistoryAfter(c, s, NoHistory(), run);
    k, e := WorkerInstalled(r, h, i);
  }

  lemma WorkerInstalled(r: State, h: History, i: nat) returns (k: int, e: int)
    requires PoolInv(r) && ContentInv(r, h) && i < |r.workers| && Reported(r.workers[i]) == 1
    ensures var key := ByRound(h.round, i);
            && key in h.fetches
            && (ReportedOk(r.workers[i]) == 1 <==> h.fetches[key].Some?)
            && (h.fetches[key].Some? ==>
                  var last := LastInstall(h.installs, r.workers[i].entry.name);
                  && 0 <= k <= last && h.installs[k].origin == key
                  && SameButRtt(h.installs[k].server, h.fetches[key].value)
                  && (k < last ==> h.installs[last].origin.ByForced?)
                  && 0 <= e < |r.table.inner| && r.table.inner[e].name == r.workers[i].entry.name
                  && r.table.inner[e].payload == h.installs[last].server.payload)
  {
    var key, w := ByRound(h.round, i), r.workers[i];
    assert FollowsFetch(h, key, w);
    k, e := 0, 0;
    if h.fetches[key].Some? {
      assert HasStanding(h, key);
      k :| Standing(h, key, k);
      StandingName(r, h, i, k);
      assert Genuine(h, k);
      assert HasName(r.table.inner, w.entry.name);
      e :| 0 <= e < |r.table.inner| && r.table.inner[e].name == w.entry.name;
      assert ReflectsAt(r.table.inner[e], h.installs);
    }
  }

  // ---------------------------------------------------------------- a round covers what is registered

  /** Fetches of the current round by its first n workers that gave a server. */
  ghost function Successful(h: History, n: nat): nat {
    if n == 0 then 0
    else
      var key := ByRound(h.round, n - 1);
      Successful(h, n - 1) + if key in h.fetches && h.fetches[key].Some? then 1 else 0
  }

  lemma {:induction false} SuccessfulIsSum(h: History, ws: seq<Worker>)
    requires forall i :: 0 <= i < |ws| ==>
               var key := ByRound(h.round, i);
               key in h.fetches && (ReportedOk(ws[i]) == 1 <==> h.fetches[key].Some?)
    ensures Sum(ws, ReportedOk) == Successful(h, |ws|)
  {
    if ws != [] {
      var n := |ws| - 1;
      SuccessfulIsSum(h, ws[..n]);
      SumSnoc(ws[..n], ws[n], ReportedOk);
      assert ws == ws[..n] + [ws[n]];
      assert ByRound(h.round, n) in h.fetches;
    }
  }

  ghost predicate NoNewRound(run: seq<Action>) { forall i :: 0 <= i < |run| ==> !run[i].BeginRound? }

  lemma {:induction false} RoundKeepsEntries(c: Config, s: State, h: History, run: seq<Action>)
    requires ValidConfig(c) && ValidRun(c, s, run) && NoNewRound(run)
    ensures HistoryAfter(c, s, h, run).round == h.round
    ensures |After(c, s, run).workers| == |s.workers|
    ensures forall i :: 0 <= i < |s.workers| ==> After(c, s, run).workers[i].entry == s.workers[i].entry
    decreases |run|
  {
    if run != [] {
      assert !run[0].BeginRound?;
      SameEntries(c, s, run[0]);
      RoundKeepsEntries(c, Next(c, s, run[0]), Record(s, h, run[0]), run[1..]);
    }
  }

  /** What a round does, in terms of the servers registered when it begins: at return
      exactly one caller of the round has fetched for each of them, and nobody else;
      the live count is the number of those fetches that gave a server; and the error
      is nil if and only if one did or none was registered. */
  ghost predicate Covers(reg: seq<RegisteredServer>, h: History, main: Main) {
    && DistinctRegistered(reg)
    && (forall i: nat :: ByRound(h.round, i) in h.asked <==> i < |reg|)
    && (forall i :: 0 <= i < |reg| ==> ByRound(h.round, i) in h.asked && h.asked[ByRound(h.round, i)] == reg[i])
    && h.asked.Keys == h.fetches.Keys
    && main.Returned? && main.live == Successful(h, |reg|)
    && (!main.failed <==> main.live > 0 || reg == [])
  }

  lemma RoundCoversRegistrations(c: Config, s: State, before: seq<Action>, run: seq<Action>)
    requires ValidConfig(c) && Init(s) && ValidRun(c, s, before) && Enabled(c, After(c, s, before), BeginRound)
    requires ValidRun(c, Next(c, After(c, s, before), BeginRound), run) && NoNewRound(run)
    requires After(c, Next(c, After(c, s, before), BeginRound), run).main.Returned?
    ensures var b, h0 := After(c, s, before), HistoryAfter(c, s, NoHistory(), before);
            var b', h1 := Next(c, b, BeginRound), Record(b, h0, BeginRound);
            var h := HistoryAfter(c, b', h1, run);
            h.round == h0.round + 1 && Covers(b.table.registered, h, After(c, b', run).main)
  {
    InitEstablishesInv(c, s);
    RunKeepsContents(c, s, NoHistory(), before);
    var b, h0 := After(c, s, before), HistoryAfter(c, s, NoHistory(), before);
    var b', h1 := Next(c, b, BeginRound), Record(b, h0, BeginRound);
    StepKeepsContents(c, b, h0, BeginRound);
    RunKeepsContents(c, b', h1, run);
    RoundKeepsEntries(c, b', h1, run);
    BeginEnlists(c, b, After(c, b', run).workers);
    ReturnedCovers(c, b.table.registered, After(c, b', run), HistoryAfter(c, b', h1, run));
  }

  /** A round starts with one worker for each registration, in order. */
  lemma BeginEnlists(c: Config, b: State, workers: seq<Worker>)
    requires ValidConfig(c) && Enabled(c, b, BeginRound)
    requires var ws := Next(c, b, BeginRound).workers;
             |workers| == |ws| && forall i :: 0 <= i < |ws| ==> workers[i].entry == ws[i].entry
    ensures |workers| == |b.table.registered|
    ensures forall i :: 0 <= i < |workers| ==> workers[i].entry == b.table.registered[i]
  {
  }

  lemma ReturnedCovers(c: Config, reg: seq<RegisteredServer>, r: State, h: History)
    requires Inv(c, r) && ContentInv(r, h) && r.main.Returned? && DistinctRegistered(reg)
    requires |r.workers| == |reg| && forall i :: 0 <= i < |reg| ==> r.workers[i].entry == reg[i]
    ensures Covers(reg, h, r.main)
  {
    ReturnedState(c, r);
    forall i | 0 <= i < |r.workers|
      ensures ByRound(h.round, i) in h.fetches
      ensures ReportedOk(r.workers[i]) == 1 <==> h.fetches[ByRound(h.round, i)].Some?
    {
      var k, e := WorkerInstalled(r, h, i);
    }
    SuccessfulIsSum(h, r.workers);
  }
}
