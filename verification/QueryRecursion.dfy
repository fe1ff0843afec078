/** The mutual recursion between query processing and DNS64 evaluation. A client
    query that reaches the DNS64 response plugin may start a subquery, which is
    processed by the very same code, plugins included. The control skeleton of
    both functions is kept; everything they learn from outside (other plugins,
    the upstream exchange, whether a slot is granted) is a parameter. */
module QueryRecursion {
  import opened Common

  const TypeA: nat := 1
  const TypeAAAA: nat := 28
  const ClassINET: nat := 1

  datatype Question = Question(name: string, qtype: nat, qclass: nat)

  /** A packet as far as the control flow looks at it. */
  datatype Response = Response(size: nat, parses: bool, rcode: nat, answers: seq<nat>)

  datatype Verdict = Continue | Drop | Reject | Synth

  /** What the query plugins leave: the packet's new size, their verdict and a
      synthesized response, if any, with whether it can be packed. No query plugin
      changes the question. */
  datatype QueryStage = QueryStage(size: nat, verdict: Verdict, synth: Option<Response>, packs: bool)

  datatype Plugin = Dns64 | Other(id: nat)

  /** What a response plugin leaves: an error, or a verdict and the new message. */
  datatype PluginStep = Failed | Done(verdict: Verdict, response: Response)

  /** The outside world; `level` counts the activations of query processing below
      the client's own, so answers may differ between a query and its subquery. */
  datatype Env = Env(
    size: (nat, Question) -> nat,
    queryStage: (nat, Question) -> QueryStage,
    hasServer: nat -> bool,
    exchange: (nat, Question) -> Option<Response>,
    other: (nat, nat, Response) -> PluginStep,
    slotGranted: nat -> bool,
    subqueryPacks: Question -> bool,
    synthesize: (Response, Response) -> Response)

  datatype Event = Enter(level: nat) | Acquire | Refused | Release

  datatype Outcome = Outcome(events: seq<Event>, response: Option<Response>)

  datatype PluginsOutcome = PluginsOutcome(events: seq<Event>, step: PluginStep)

  predicate WantsDns64(q: Question) { q.qclass == ClassINET && q.qtype == TypeAAAA }

  function Rank(q: Question): nat { if WantsDns64(q) then 1 else 0 }

  function ProcessIncomingQuery(env: Env, plugins: seq<Plugin>, level: nat, q: Question, onlyCached: bool): Outcome
    decreases Rank(q), 2, 0
  {
    var enter := [Enter(level)];
    if env.size(level, q) < MinDNSPacketSize then Outcome(enter, None)
    else
      var stage := env.queryStage(level, q);
      if stage.size < MinDNSPacketSize || stage.size > MaxDNSPacketSize || stage.verdict == Drop
      then Outcome(enter, None)
      else if stage.synth.Some? && !stage.packs then Outcome(enter, None)
      else if stage.synth.Some? then Outcome(enter, stage.synth)
      else if onlyCached || !env.hasServer(level) then Outcome(enter, None)
      else
        var reply := env.exchange(level, q);
        if reply.None? || reply.value.size < MinDNSPacketSize || reply.value.size > MaxDNSPacketSize
        then Outcome(enter, reply)
        else
          var run := ApplyResponsePlugins(env, plugins, level, q, reply.value);
          Outcome(enter + run.events, if run.step.Done? then Some(run.step.response) else reply)
  }

  function ApplyResponsePlugins(env: Env, plugins: seq<Plugin>, level: nat, q: Question,
                                response: Response): PluginsOutcome
    decreases Rank(q), 1, |plugins| + 1
  {
    if !response.parses then PluginsOutcome([], Done(Continue, response))
    else PluginsFrom(env, plugins, 0, level, q, response)
  }

  function PluginsFrom(env: Env, plugins: seq<Plugin>, i: nat, level: nat, q: Question,
                       response: Response): PluginsOutcome
    requires i <= |plugins|
    decreases Rank(q), 1, |plugins| - i
  {
    if i == |plugins| then PluginsOutcome([], Done(Continue, response))
    else
      var first := if plugins[i].Dns64? then EvalDns64(env, plugins, level, q, response)
                   else PluginsOutcome([], env.other(level, plugins[i].id, response));
      if first.step.Failed? || first.step.verdict != Continue then first
      else
        var rest := PluginsFrom(env, plugins, i + 1, level, q, first.step.response);
        PluginsOutcome(first.events + rest.events, rest.step)
  }

  function EvalDns64(env: Env, plugins: seq<Plugin>, level: nat, q: Question, response: Response): PluginsOutcome
    decreases Rank(q), 0, 0
  {
    if TypeAAAA in response.answers || !WantsDns64(q) then PluginsOutcome([], Done(Continue, response))
    else
      var subquery := q.(qtype := TypeA);
      if !env.subqueryPacks(subquery) then PluginsOutcome([], Failed)
      else if !env.slotGranted(level) then PluginsOutcome([Refused], Failed)
      else
        var sub := ProcessIncomingQuery(env, plugins, level + 1, subquery, false);
        var events := [Acquire] + sub.events + [Release];
        if sub.response.None? || !sub.response.value.parses then PluginsOutcome(events, Failed)
        else if sub.response.value.rcode != 0 || sub.response.value.answers == []
        then PluginsOutcome(events, Done(Continue, response))
        else PluginsOutcome(events, Done(Continue, env.synthesize(response, sub.response.value)))
  }

  // ---------------------------------------------------------------- what a run can do

  predicate SlotEvent(e: Event) { e.Acquire? || e.Refused? || e.Release? }

  /** Slots held after the events, counting from none. */
  function Balance(events: seq<Event>): int {
    if events == [] then 0
    else (match events[0] case Acquire => 1 case Release => -1 case _ => 0) + Balance(events[1..])
  }

  /** At every point of the run between zero and one extra slot is held, none is
      held at the end, and activations never nest deeper than `deepest`. */
  ghost predicate Disciplined(events: seq<Event>, deepest: nat) {
    && (forall k :: 0 <= k <= |events| ==> 0 <= Balance(events[..k]) <= 1)
    && Balance(events) == 0
    && (forall k :: 0 <= k < |events| && events[k].Enter? ==> events[k].level <= deepest)
  }

  lemma {:induction false} BalanceConcat(a: seq<Event>, b: seq<Event>)
    ensures Balance(a + b) == Balance(a) + Balance(b)
  {
    if a == [] {
      assert a + b == b;
    } else {
      assert (a + b)[1..] == a[1..] + b;
      BalanceConcat(a[1..], b);
    }
  }

  lemma DisciplinedConcat(a: seq<Event>, b: seq<Event>, deepest: nat)
    requires Disciplined(a, deepest) && Disciplined(b, deepest)
    ensures Disciplined(a + b, deepest)
  {
    BalanceConcat(a, b);
    forall k | 0 <= k <= |a + b| ensures 0 <= Balance((a + b)[..k]) <= 1 {
      if k <= |a| {
        assert (a + b)[..k] == a[..k];
      } else {
        assert (a + b)[..k] == a + b[..k-|a|];
        BalanceConcat(a, b[..k-|a|]);
      }
    }
  }

  lemma {:induction false} QuietBalance(events: seq<Event>)
    requires forall k :: 0 <= k < |events| ==> !SlotEvent(events[k])
    ensures Balance(events) == 0
  {
    if events != [] { QuietBalance(events[1..]); }
  }

  /** A run of events without slot events, between an acquire and a release. */
  lemma BracketDisciplined(inner: seq<Event>, deepest: nat)
    requires forall k :: 0 <= k < |inner| ==> !SlotEvent(inner[k])
    requires forall k :: 0 <= k < |inner| && inner[k].Enter? ==> inner[k].level <= deepest
    ensures Disciplined([Acquire] + inner + [Release], deepest)
  {
    var events := [Acquire] + inner + [Release];
    QuietBalance(inner);
    BalanceConcat([Acquire], inner);
    BalanceConcat([Acquire] + inner, [Release]);
    forall k | 0 <= k <= |events| ensures 0 <= Balance(events[..k]) <= 1 {
      if k == 0 {
        assert events[..k] == [];
      } else if k <= |inner| + 1 {
        assert events[..k] == [Acquire] + inner[..k-1];
        QuietBalance(inner[..k-1]);
        BalanceConcat([Acquire], inner[..k-1]);
      } else {
        assert events[..k] == events;
      }
    }
  }

  lemma EnterDisciplined(level: nat)
    ensures Disciplined([Enter(level)], level + 1)
  {
  }

  lemma {:induction false} PluginsFlat(env: Env, plugins: seq<Plugin>, i: nat, level: nat,
                                       q: Question, response: Response)
    requires i <= |plugins| && !WantsDns64(q)
    ensures PluginsFrom(env, plugins, i, level, q, response).events == []
    decreases |plugins| - i
  {
    if i < |plugins| {
      var first := if plugins[i].Dns64? then EvalDns64(env, plugins, level, q, response)
                   else PluginsOutcome([], env.other(level, plugins[i].id, response));
      if !(first.step.Failed? || first.step.verdict != Continue) {
        PluginsFlat(env, plugins, i + 1, level, q, first.step.response);
      }
    }
  }

  lemma ProcessFlat(env: Env, plugins: seq<Plugin>, level: nat, q: Question, onlyCached: bool)
    requires !WantsDns64(q) || onlyCached
    ensures ProcessIncomingQuery(env, plugins, level, q, onlyCached).events == [Enter(level)]
  {
    if !onlyCached {
      var reply := env.exchange(level, q);
      if reply.Some? && reply.value.parses {
        PluginsFlat(env, plugins, 0, level, q, reply.value);
      }
    }
  }

  lemma Dns64Disciplined(env: Env, plugins: seq<Plugin>, level: nat, q: Question, response: Response)
    ensures Disciplined(EvalDns64(env, plugins, level, q, response).events, level + 1)
  {
    if !(TypeAAAA in response.answers || !WantsDns64(q)) {
      var subquery := q.(qtype := TypeA);
      ProcessFlat(env, plugins, level + 1, subquery, false);
      BracketDisciplined([Enter(level + 1)], level + 1);
    }
  }

  lemma {:induction false} PluginsDisciplined(env: Env, plugins: seq<Plugin>, i: nat, level: nat,
                                              q: Question, response: Response)
    requires i <= |plugins|
    ensures Disciplined(PluginsFrom(env, plugins, i, level, q, response).events, level + 1)
    decreases |plugins| - i
  {
    if i < |plugins| {
      var first := if plugins[i].Dns64? then EvalDns64(env, plugins, level, q, response)
                   else PluginsOutcome([], env.other(level, plugins[i].id, response));
      Dns64Disciplined(env, plugins, level, q, response);
      if !(first.step.Failed? || first.step.verdict != Continue) {
        PluginsDisciplined(env, plugins, i + 1, level, q, first.step.response);
        DisciplinedConcat(first.events,
                          PluginsFrom(env, plugins, i + 1, level, q, first.step.response).events, level + 1);
      }
    }
  }

  /** For every plugin configuration and every behaviour of the outside world, a
      client query nests query processing at most two deep, holds at most one slot
      beyond its own at any time, and gives every extra slot back. */
  lemma NestingIsBounded(env: Env, plugins: seq<Plugin>, q: Question, onlyCached: bool)
    ensures Disciplined(ProcessIncomingQuery(env, plugins, 0, q, onlyCached).events, 1)
  {
    EnterDisciplined(0);
    if WantsDns64(q) && !onlyCached {
      var reply := env.exchange(0, q);
      if reply.Some? && reply.value.parses {
        PluginsDisciplined(env, plugins, 0, 0, q, reply.value);
        DisciplinedConcat([Enter(0)], PluginsFrom(env, plugins, 0, 0, q, reply.value).events, 1);
      }
      assert [Enter(0)] + [] == [Enter(0)];
    } else {
      ProcessFlat(env, plugins, 0, q, onlyCached);
    }
  }

  // ---------------------------------------------------------------- what is returned

  /** The query is sent upstream, because nothing before the exchange settles it. */
  ghost predicate SentUpstream(env: Env, level: nat, q: Question, onlyCached: bool) {
    var stage := env.queryStage(level, q);
    && env.size(level, q) >= 17 && 17 <= stage.size <= 4096
    && stage.verdict != Drop && stage.synth.None? && !onlyCached && env.hasServer(level)
  }

  /** Before an exchange: dropped, malformed, unanswerable or unpackable queries get
      nothing, and a synthesized response is returned as it is. */
  lemma SettledBeforeExchange(env: Env, plugins: seq<Plugin>, level: nat, q: Question, onlyCached: bool)
    requires !SentUpstream(env, level, q, onlyCached)
    ensures var stage := env.queryStage(level, q);
            ProcessIncomingQuery(env, plugins, level, q, onlyCached).response ==
              if env.size(level, q) >= 17 && 17 <= stage.size <= 4096 && stage.verdict != Drop && stage.packs
              then stage.synth else None
  {
  }

  /** A failed exchange gives nothing; a reply of illegal size, or one that does not
      parse, is returned untouched, whatever plugins there are. */
  lemma UnusableReplyReturned(env: Env, plugins: seq<Plugin>, level: nat, q: Question)
    requires SentUpstream(env, level, q, false)
    requires var reply := env.exchange(level, q);
             reply.Some? ==> !(17 <= reply.value.size <= 4096 && reply.value.parses)
    ensures ProcessIncomingQuery(env, plugins, level, q, false).response == env.exchange(level, q)
  {
  }

  /** What the DNS64 subquery of a question returns. */
  ghost function SubResponse(env: Env, plugins: seq<Plugin>, level: nat, q: Question): Option<Response> {
    ProcessIncomingQuery(env, plugins, level + 1, q.(qtype := 1), false).response
  }

  /** DNS64 has something to do: an Internet AAAA question and no AAAA answer yet. */
  ghost predicate Dns64Applies(q: Question, m: Response) { q.qclass == 1 && q.qtype == 28 && 28 !in m.answers }

  /** The subquery can be made, and what it returns can be read. */
  ghost predicate SubqueryWorks(env: Env, level: nat, q: Question, sub: Option<Response>) {
    env.subqueryPacks(q.(qtype := 1)) && env.slotGranted(level) && sub.Some? && sub.value.parses
  }

  /** Plugin turns message m into m' and lets the next one continue. DNS64 rewrites the
      message exactly if it applies, the subquery works, and its response is a success
      with answers; it leaves the message alone if it does not apply or the response is
      of no use. */
  ghost predicate Continues(env: Env, level: nat, q: Question, sub: Option<Response>, plugin: Plugin,
                            m: Response, m': Response) {
    match plugin
    case Other(id) => env.other(level, id, m) == Done(Continue, m')
    case Dns64 =>
      if !Dns64Applies(q, m) then m' == m
      else SubqueryWorks(env, level, q, sub) &&
           m' == if sub.value.rcode == 0 && sub.value.answers != [] then env.synthesize(m, sub.value) else m
  }

  /** The plugin fails on message m: any other plugin as it says, DNS64 exactly if it
      applies and its subquery does not work. */
  ghost predicate Fails(env: Env, level: nat, q: Question, sub: Option<Response>, plugin: Plugin, m: Response) {
    match plugin
    case Other(id) => env.other(level, id, m).Failed?
    case Dns64 => Dns64Applies(q, m) && !SubqueryWorks(env, level, q, sub)
  }

  /** Messages as they pass from plugin to plugin, starting with the upstream reply. */
  ghost predicate Chain(env: Env, plugins: seq<Plugin>, level: nat, q: Question, msgs: seq<Response>) {
    && 1 <= |msgs| <= |plugins| + 1
    && forall k :: 0 < k < |msgs| ==>
         Continues(env, level, q, SubResponse(env, plugins, level, q), plugins[k-1], msgs[k-1], msgs[k])
  }

  ghost predicate GoodReply(env: Env, level: nat, q: Question, m: Response) {
    && SentUpstream(env, level, q, false) && env.exchange(level, q) == Some(m)
    && 17 <= m.size <= 4096 && m.parses
  }

  /** Running on from the i-th plugin, along a chain. */
  lemma {:induction false} ChainRuns(env: Env, plugins: seq<Plugin>, i: nat, level: nat, q: Question,
                                     msgs: seq<Response>)
    requires Chain(env, plugins, level, q, msgs) && i < |msgs|
    ensures PluginsFrom(env, plugins, i, level, q, msgs[i]).step
            == PluginsFrom(env, plugins, |msgs| - 1, level, q, msgs[|msgs|-1]).step
    decreases |msgs| - i
  {
    if i + 1 < |msgs| {
      assert Continues(env, level, q, SubResponse(env, plugins, level, q), plugins[i+1-1], msgs[i+1-1], msgs[i+1]);
      assert TypeA == 1 && TypeAAAA == 28 && ClassINET == 1;
      ChainRuns(env, plugins, i + 1, level, q, msgs);
    }
  }

  /** If every plugin continues, the client gets the message the last one leaves. */
  lemma PluginsResultReturned(env: Env, plugins: seq<Plugin>, level: nat, q: Question, msgs: seq<Response>)
    requires Chain(env, plugins, level, q, msgs) && GoodReply(env, level, q, msgs[0]) && |msgs| == |plugins| + 1
    ensures ProcessIncomingQuery(env, plugins, level, q, false).response == Some(msgs[|plugins|])
  {
    ChainRuns(env, plugins, 0, level, q, msgs);
  }

  /** If a plugin fails, the client gets the upstream reply. */
  lemma FailureReturnsReply(env: Env, plugins: seq<Plugin>, level: nat, q: Question, msgs: seq<Response>)
    requires Chain(env, plugins, level, q, msgs) && GoodReply(env, level, q, msgs[0]) && |msgs| <= |plugins|
    requires Fails(env, level, q, SubResponse(env, plugins, level, q), plugins[|msgs|-1], msgs[|msgs|-1])
    ensures ProcessIncomingQuery(env, plugins, level, q, false).response == Some(msgs[0])
  {
    ChainRuns(env, plugins, 0, level, q, msgs);
    assert TypeA == 1 && TypeAAAA == 28 && ClassINET == 1;
  }

  /** If a plugin stops the others, the client gets the message that plugin leaves. */
  lemma StopReturnsMessage(env: Env, plugins: seq<Plugin>, level: nat, q: Question, msgs: seq<Response>, m: Response)
    requires Chain(env, plugins, level, q, msgs) && GoodReply(env, level, q, msgs[0]) && |msgs| <= |plugins|
    requires plugins[|msgs|-1].Other?
    requires var step := env.other(level, plugins[|msgs|-1].id, msgs[|msgs|-1]);
             step.Done? && step.verdict != Continue && step.response == m
    ensures ProcessIncomingQuery(env, plugins, level, q, false).response == Some(m)
  {
    ChainRuns(env, plugins, 0, level, q, msgs);
  }

  /** A plugin continues, fails or stops: one of the three results above always applies. */
  lemma {:induction false} ChainExtends(env: Env, plugins: seq<Plugin>, level: nat, q: Question, msgs: seq<Response>)
    returns (all: seq<Response>)
    requires Chain(env, plugins, level, q, msgs)
    ensures Chain(env, plugins, level, q, all) && all[0] == msgs[0]
    ensures |all| == |plugins| + 1
            || Fails(env, level, q, SubResponse(env, plugins, level, q), plugins[|all|-1], all[|all|-1])
            || (plugins[|all|-1].Other? &&
                var step := env.other(level, plugins[|all|-1].id, all[|all|-1]); step.Done? && step.verdict != Continue)
    decreases |plugins| + 1 - |msgs|
  {
    all := msgs;
    if |msgs| <= |plugins| {
      var sub, plugin, m := SubResponse(env, plugins, level, q), plugins[|msgs|-1], msgs[|msgs|-1];
      if plugin.Other? {
        var step := env.other(level, plugin.id, m);
        if step.Done? && step.verdict == Continue {
          all := ChainExtends(env, plugins, level, q, msgs + [step.response]);
        }
      } else if !Fails(env, level, q, sub, plugin, m) {
        var m' := if Dns64Applies(q, m) && sub.value.rcode == 0 && sub.value.answers != []
                  then env.synthesize(m, sub.value) else m;
        all := ChainExtends(env, plugins, level, q, msgs + [m']);
      }
    }
  }

  /** A call made when no slot is free is answered from cache or not at all: it never
      reaches DNS64, never contacts a server and returns only what a query plugin made. */
  lemma CachedOnlyStaysLocal(env: Env, plugins: seq<Plugin>, q: Question)
    ensures var r := ProcessIncomingQuery(env, plugins, 0, q, true);
            && r.events == [Enter(0)]
            && (r.response.Some? ==> r.response == env.queryStage(0, q).synth)
  {
  }
}
