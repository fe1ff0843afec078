/** The response cache: its keys, the lifetime it gives an answer, the TTLs it
    serves, and the promise that a hit is the last answer written for the question. */
module ResponseCache {
  import opened Common

  const Second: int := 1_000_000_000
  const Word: int := 0x1_0000_0000
  const MaxInt64: int := 0x7fff_ffff_ffff_ffff
  const StaleResponseTTL: int := 30 * Second

  const RcodeSuccess: nat := 0
  const RcodeNameError: nat := 3
  const RcodeNotAuth: nat := 9
  const TypeOPT: nat := 41

  type uint16 = x: int | 0 <= x < 0x1_0000
  type uint32 = x: int | 0 <= x < 0x1_0000_0000

  datatype Question = Question(name: seq<byte>, qtype: uint16, qclass: uint16)

  /** A resource record; `data` stands for everything but its type and TTL. */
  datatype Record = Record(rrtype: uint16, ttl: uint32, data: nat)

  datatype Msg = Msg(
    id: uint16,
    response: bool,
    compress: bool,
    truncated: bool,
    rcode: nat,
    flags: nat,
    question: seq<Question>,
    answer: seq<Record>,
    ns: seq<Record>,
    extra: seq<Record>)

  // ---------------------------------------------------------------- keys

  function LowerByte(c: byte): byte { if 65 <= c <= 90 then c + 32 else c }

  function Lower(s: seq<byte>): (r: seq<byte>)
    ensures |r| == |s| && forall i :: 0 <= i < |s| ==> r[i] == LowerByte(s[i])
  {
    seq(|s|, i requires 0 <= i < |s| => LowerByte(s[i]))
  }

  method NormalizeRawQName(name: array<byte>)
    modifies name
    ensures name[..] == Lower(old(name[..]))
  {
    for i := 0 to name.Length
      invariant forall k :: 0 <= k < i ==> name[k] == LowerByte(old(name[k]))
      invariant forall k :: i <= k < name.Length ==> name[k] == old(name[k])
    {
      var c := name[i];
      if c >= 65 && c <= 90 {
        name[i] := c + 32;
      }
    }
  }

  function LittleEndian16(x: uint16): (r: seq<byte>)
    ensures |r| == 2 && r[0] as int + 256 * (r[1] as int) == x
  {
    [x % 256, x / 256]
  }

  /** What is hashed into a cache key. The hash is taken to be injective, so the
      preimage itself serves as the key. */
  type Key = seq<byte>

  function KeyOf(question: Question, dnssec: bool): Key {
    LittleEndian16(question.qtype) + LittleEndian16(question.qclass) + [if dnssec then 1 else 0] + Lower(question.name)
  }

  /** `computeCacheKey`, with the name normalized in a copy of its own. */
  method ComputeCacheKey(question: Question, dnssec: bool) returns (key: Key)
    ensures key == KeyOf(question, dnssec)
  {
    var tmp := LittleEndian16(question.qtype) + LittleEndian16(question.qclass) + [if dnssec then 1 else 0];
    var name := new byte[|question.name|](i requires 0 <= i < |question.name| => question.name[i]);
    assert name[..] == question.name;
    NormalizeRawQName(name);
    key := tmp + name[..];
  }

  ghost predicate SameQuestion(a: Question, aDnssec: bool, b: Question, bDnssec: bool) {
    && a.qtype == b.qtype && a.qclass == b.qclass && aDnssec == bDnssec
    && Lower(a.name) == Lower(b.name)
  }

  /** Two keys are equal exactly for the same type, class and DNSSEC flag and the
      same name up to ASCII case. */
  lemma KeyIsInjective(a: Question, aDnssec: bool, b: Question, bDnssec: bool)
    ensures KeyOf(a, aDnssec) == KeyOf(b, bDnssec) <==> SameQuestion(a, aDnssec, b, bDnssec)
  {
    var ka, kb := KeyOf(a, aDnssec), KeyOf(b, bDnssec);
    if ka == kb {
      assert ka[..2] == LittleEndian16(a.qtype) && kb[..2] == LittleEndian16(b.qtype);
      assert ka[2..4] == LittleEndian16(a.qclass) && kb[2..4] == LittleEndian16(b.qclass);
      assert ka[4] == kb[4];
      assert ka[5..] == Lower(a.name) && kb[5..] == Lower(b.name);
    }
  }

  /** Two bytes are the same for a key exactly if they are equal or the two cases of one
      ASCII letter. */
  lemma CaseOnly(a: byte, b: byte)
    ensures LowerByte(a) == LowerByte(b) <==>
              a == b || (65 <= a <= 90 && b == a + 32) || (65 <= b <= 90 && a == b + 32)
  {
  }

  // ---------------------------------------------------------------- lifetimes

  datatype Limits = Limits(minTTL: uint32, maxTTL: uint32, negMinTTL: uint32, negMaxTTL: uint32)

  function LeastTtl(rs: seq<Record>): (r: uint32)
    requires rs != []
    ensures forall i :: 0 <= i < |rs| ==> r <= rs[i].ttl
    ensures exists i :: 0 <= i < |rs| && r == rs[i].ttl
  {
    if |rs| == 1 then rs[0].ttl
    else
      var rest := LeastTtl(rs[1..]);
      assert exists i :: 0 <= i < |rs| - 1 && rest == rs[1..][i].ttl;
      assert forall i :: 1 <= i < |rs| ==> rs[i] == rs[1..][i-1];
      Min(rs[0].ttl, rest)
  }

  /** The lifetime, in seconds, that the configuration promises for an answer. */
  function Lifetime(msg: Msg, limits: Limits): (r: uint32) {
    if (msg.rcode != RcodeSuccess && msg.rcode != RcodeNameError) || (msg.answer == [] && msg.ns == [])
    then limits.negMinTTL
    else
      var low, high := if msg.rcode == RcodeSuccess then limits.minTTL else limits.negMinTTL,
                       if msg.rcode == RcodeSuccess then limits.maxTTL else limits.negMaxTTL;
      Max(low, Min(high, LeastTtl(if msg.answer != [] then msg.answer else msg.ns)))
  }

  /** The lifetime within given bounds: never below the lower one; above it, never over
      the upper one or any record's TTL, and then equal to one of those; at it, only
      because one of those is not above it. */
  ghost predicate Clamped(life: int, low: int, high: int, rs: seq<Record>) {
    && life >= low
    && (life > low ==>
          && life <= high && (forall i :: 0 <= i < |rs| ==> life <= rs[i].ttl)
          && (life == high || exists i :: 0 <= i < |rs| && life == rs[i].ttl))
    && (life == low ==> high <= low || exists i :: 0 <= i < |rs| && rs[i].ttl <= low)
  }

  /** Answers are bounded by the positive limits, name errors by the negative ones, from
      the answer section or, without one, the authority section; anything else lives for
      the negative minimum. */
  lemma LifetimeMeaning(msg: Msg, limits: Limits)
    ensures var rs := if msg.answer != [] then msg.answer else msg.ns;
            if msg.rcode == 0 && rs != [] then Clamped(Lifetime(msg, limits), limits.minTTL, limits.maxTTL, rs)
            else if msg.rcode == 3 && rs != []
            then Clamped(Lifetime(msg, limits), limits.negMinTTL, limits.negMaxTTL, rs)
            else Lifetime(msg, limits) == limits.negMinTTL
  {
  }

  /** `getMinTTL` computes that lifetime, in nanoseconds, without overflow. */
  method GetMinTTL(msg: Msg, limits: Limits) returns (d: int)
    ensures d == Lifetime(msg, limits) * Second
    ensures 0 <= d <= MaxInt64
  {
    if (msg.rcode != RcodeSuccess && msg.rcode != RcodeNameError) || (|msg.answer| <= 0 && |msg.ns| <= 0) {
      return limits.negMinTTL * Second;
    }
    var ttl: uint32 := if msg.rcode == RcodeSuccess then limits.maxTTL else limits.negMaxTTL;
    ghost var high := ttl;
    var records := if |msg.answer| > 0 then msg.answer else msg.ns;
    for i := 0 to |records|
      invariant ttl <= high && forall k :: 0 <= k < i ==> ttl <= records[k].ttl
      invariant ttl == high || exists k :: 0 <= k < i && ttl == records[k].ttl
    {
      if records[i].ttl < ttl {
        ttl := records[i].ttl;
      }
    }
    assert ttl == Min(high, LeastTtl(records));
    if msg.rcode == RcodeSuccess {
      if ttl < limits.minTTL {
        ttl := limits.minTTL;
      }
    } else {
      if ttl < limits.negMinTTL {
        ttl := limits.negMinTTL;
      }
    }
    return ttl * Second;
  }

  // ---------------------------------------------------------------- served TTLs

  /** The TTL `updateTTL` computes, with its 32-bit conversions written out. */
  function ServedTtl(until: int): uint32 {
    if until <= 0 then 0
    else
      var ttl := (until / Second) % Word;
      if until - ttl * Second >= Second / 2 then (ttl + 1) % Word else ttl
  }

  function SetTtl(rs: seq<Record>, ttl: uint32): (r: seq<Record>)
    ensures |r| == |rs| && forall i :: 0 <= i < |rs| ==> r[i] == rs[i].(ttl := ttl)
  {
    seq(|rs|, i requires 0 <= i < |rs| => rs[i].(ttl := ttl))
  }

  function SetTtlExceptOpt(rs: seq<Record>, ttl: uint32): (r: seq<Record>)
    ensures |r| == |rs|
    ensures forall i :: 0 <= i < |rs| ==> r[i] == if rs[i].rrtype != TypeOPT then rs[i].(ttl := ttl) else rs[i]
  {
    seq(|rs|, i requires 0 <= i < |rs| => if rs[i].rrtype != TypeOPT then rs[i].(ttl := ttl) else rs[i])
  }

  function UpdateTTL(msg: Msg, until: int): Msg {
    var ttl := ServedTtl(until);
    msg.(answer := SetTtl(msg.answer, ttl), ns := SetTtl(msg.ns, ttl), extra := SetTtlExceptOpt(msg.extra, ttl))
  }

  /** A later update erases an earlier one. A cached message shares its records with
      the response whose TTLs are rewritten after the write, so this is why the
      sharing cannot be observed. */
  lemma UpdateErases(msg: Msg, first: int, second: int)
    ensures UpdateTTL(UpdateTTL(msg, first), second) == UpdateTTL(msg, second)
  {
  }

  /** While an entry with a 32-bit lifetime is alive, the served TTL does not wrap and
      is within half a second of the remaining lifetime. */
  lemma ServedTtlIsAccurate(remaining: int)
    requires 0 <= remaining <= (Word - 1) * Second
    ensures 2 * ServedTtl(remaining) * Second - Second <= 2 * remaining
    ensures 2 * remaining < 2 * ServedTtl(remaining) * Second + Second
  {
  }

  lemma ServedTtlNeverGrows(earlier: int, later: int)
    requires later <= earlier <= (Word - 1) * Second
    ensures ServedTtl(later) <= ServedTtl(earlier)
  {
  }

  // ---------------------------------------------------------------- the cache

  datatype Entry = Entry(expiration: int, msg: Msg)

  type Cache = map<Key, Entry>

  predicate Cacheable(msg: Msg) {
    && (msg.rcode == RcodeSuccess || msg.rcode == RcodeNameError || msg.rcode == RcodeNotAuth)
    && !msg.truncated
  }

  /** A response reaching the cache writer: the message, its DNSSEC flag, the limits
      in force, and the clock when it is stored and when its TTLs are rewritten. */
  datatype Write = Write(msg: Msg, dnssec: bool, limits: Limits, now: int, later: int)

  function Expiration(w: Write): int { w.now + Lifetime(w.msg, w.limits) * Second }

  function EntryOf(w: Write): Entry {
    Entry(Expiration(w), UpdateTTL(w.msg, Expiration(w) - w.later))
  }

  /** The cache after a write; messages without a question are never written. */
  function AfterWrite(cache: Cache, w: Write): Cache
    requires w.msg.question != []
  {
    if Cacheable(w.msg) then cache[KeyOf(w.msg.question[0], w.dnssec) := EntryOf(w)] else cache
  }

  datatype Outcome = Miss | Stale(msg: Msg) | Hit(msg: Msg)

  /** The clock as `PluginCache.Eval` reads it: for the expiry check, for the end of
      a stale answer's life, and for the TTLs. */
  datatype Clock = Clock(check: int, base: int, ttl: int)

  /** A stored message made the response to a query. */
  function Synthesized(stored: Msg, query: Msg): Msg {
    stored.(id := query.id, response := true, compress := true, question := query.question)
  }

  function Serve(cache: Cache, query: Msg, dnssec: bool, clock: Clock): Outcome
    requires query.question != []
  {
    var key := KeyOf(query.question[0], dnssec);
    if key !in cache then Miss
    else
      var entry := cache[key];
      var synth := Synthesized(entry.msg, query);
      if clock.check > entry.expiration
      then Stale(UpdateTTL(synth, clock.base + StaleResponseTTL - clock.ttl))
      else Hit(UpdateTTL(synth, entry.expiration - clock.ttl))
  }

  class CachedResponses {
    var cache: Cache

    constructor ()
      ensures cache == map[]
    {
      cache := map[];
    }

    /** The cache writer. `gone` is whatever the replacement policy throws out. */
    method Store(w: Write, gone: set<Key>) returns (served: Msg)
      requires w.msg.question != []
      modifies this
      ensures cache == if Cacheable(w.msg) then AfterWrite(old(cache) - gone, w) else old(cache)
      ensures served == if Cacheable(w.msg) then EntryOf(w).msg else w.msg
    {
      if (w.msg.rcode != RcodeSuccess && w.msg.rcode != RcodeNameError && w.msg.rcode != RcodeNotAuth)
         || w.msg.truncated {
        return w.msg;
      }
      var key := ComputeCacheKey(w.msg.question[0], w.dnssec);
      var ttl := GetMinTTL(w.msg, w.limits);
      var expiration := w.now + ttl;
      served := UpdateTTL(w.msg, expiration - w.later);
      cache := cache - gone;
      cache := cache[key := Entry(expiration, served)];
    }

    /** The cache reader. */
    method Fetch(query: Msg, dnssec: bool, clock: Clock) returns (r: Outcome)
      requires query.question != []
      ensures r == Serve(cache, query, dnssec, clock)
    {
      var key := ComputeCacheKey(query.question[0], dnssec);
      if key !in cache {
        return Miss;
      }
      var expiration := cache[key].expiration;
      var synth := cache[key].msg;
      synth := synth.(id := query.id, response := true, compress := true, question := query.question);
      if clock.check > expiration {
        return Stale(UpdateTTL(synth, clock.base + StaleResponseTTL - clock.ttl));
      }
      return Hit(UpdateTTL(synth, expiration - clock.ttl));
    }
  }

  // ---------------------------------------------------------------- any history, any eviction

  datatype Event = Written(w: Write) | Evicted(gone: set<Key>)

  ghost predicate ValidHistory(events: seq<Event>) {
    forall i :: 0 <= i < |events| && events[i].Written? ==> events[i].w.msg.question != []
  }

  ghost function CacheAfter(events: seq<Event>): Cache
    requires ValidHistory(events)
  {
    if events == [] then map[]
    else
      var before := CacheAfter(events[..|events|-1]);
      match events[|events|-1]
      case Written(w) => assert events[|events|-1].Written?; AfterWrite(before, w)
      case Evicted(gone) => before - gone
  }

  /** Event i stores an answer to that question. */
  ghost predicate Answers(events: seq<Event>, i: int, question: Question, dnssec: bool)
    requires ValidHistory(events) && 0 <= i < |events|
  {
    && events[i].Written? && Cacheable(events[i].w.msg)
    && SameQuestion(events[i].w.msg.question[0], events[i].w.dnssec, question, dnssec)
  }

  /** Event i is the most recent write for the question. */
  ghost predicate LastAnswer(events: seq<Event>, i: int, question: Question, dnssec: bool)
    requires ValidHistory(events)
  {
    && 0 <= i < |events| && Answers(events, i, question, dnssec)
    && forall j :: i < j < |events| ==> !Answers(events, j, question, dnssec)
  }

  /** What the cache holds for a question is its last write, under any eviction. */
  lemma {:induction false} CacheHoldsLastWrite(events: seq<Event>, question: Question, dnssec: bool) returns (i: int)
    requires ValidHistory(events)
    ensures KeyOf(question, dnssec) in CacheAfter(events) ==>
              LastAnswer(events, i, question, dnssec)
              && CacheAfter(events)[KeyOf(question, dnssec)] == EntryOf(events[i].w)
  {
    i := -1;
    if events != [] {
      var n := |events| - 1;
      var init := events[..n];
      var i0 := CacheHoldsLastWrite(init, question, dnssec);
      if events[n].Written? {
        KeyIsInjective(events[n].w.msg.question[0], events[n].w.dnssec, question, dnssec);
      }
      if Answers(events, n, question, dnssec) {
        i := n;
      } else {
        i := i0;
        if KeyOf(question, dnssec) in CacheAfter(events) {
          assert LastAnswer(init, i, question, dnssec);
          forall j | i < j < |events| ensures !Answers(events, j, question, dnssec) {
            if j < n { assert !Answers(init, j, question, dnssec); }
          }
        }
      }
    }
  }

  /** Same message, except for id, question, the response and compression flags and TTLs. */
  ghost predicate SameContent(served: Msg, stored: Msg) {
    && served.rcode == stored.rcode && served.truncated == stored.truncated && served.flags == stored.flags
    && SetTtl(served.answer, 0) == SetTtl(stored.answer, 0)
    && SetTtl(served.ns, 0) == SetTtl(stored.ns, 0)
    && SetTtlExceptOpt(served.extra, 0) == SetTtlExceptOpt(stored.extra, 0)
    && (forall i :: 0 <= i < |stored.extra| && stored.extra[i].rrtype == 41 ==>
          i < |served.extra| && served.extra[i] == stored.extra[i])
  }

  /** Every TTL a client looks at is the given one; options, type 41, keep their own field. */
  ghost predicate TtlsAre(msg: Msg, ttl: uint32) {
    && (forall i :: 0 <= i < |msg.answer| ==> msg.answer[i].ttl == ttl)
    && (forall i :: 0 <= i < |msg.ns| ==> msg.ns[i].ttl == ttl)
    && (forall i :: 0 <= i < |msg.extra| && msg.extra[i].rrtype != 41 ==> msg.extra[i].ttl == ttl)
  }

  lemma UpdateKeepsContent(msg: Msg, until: int)
    ensures SameContent(UpdateTTL(msg, until), msg) && TtlsAre(UpdateTTL(msg, until), ServedTtl(until))
  {
  }

  /** What is served of a stored answer: its content under the query's id and question,
      with the given TTL throughout. */
  ghost predicate ServedFrom(m: Msg, w: Write, query: Msg, ttl: uint32) {
    && m.id == query.id && m.question == query.question && m.response
    && SameContent(m, w.msg) && TtlsAre(m, ttl)
  }

  lemma EntryIsServed(w: Write, query: Msg, until: int)
    ensures ServedFrom(UpdateTTL(Synthesized(EntryOf(w).msg, query), until), w, query, ServedTtl(until))
  {
  }

  /** How an answer in the cache is served: as a hit up to its expiration, counting its
      TTLs down to it, and as stale afterwards, counting down from thirty seconds. */
  lemma EntryServed(cache: Cache, w: Write, query: Msg, dnssec: bool, clock: Clock)
    requires query.question != [] && KeyOf(query.question[0], dnssec) in cache
    requires cache[KeyOf(query.question[0], dnssec)] == EntryOf(w)
    ensures var r := Serve(cache, query, dnssec, clock);
            if clock.check <= Expiration(w)
            then r.Hit? && ServedFrom(r.msg, w, query, ServedTtl(Expiration(w) - clock.ttl))
            else r.Stale? && ServedFrom(r.msg, w, query, ServedTtl(clock.base + StaleResponseTTL - clock.ttl))
  {
    EntryIsServed(w, query, Expiration(w) - clock.ttl);
    EntryIsServed(w, query, clock.base + StaleResponseTTL - clock.ttl);
  }

  /** After any sequence of writes and evictions, a hit returns the most recent write
      for the question, not past that write's expiration, with only id, question,
      flags and TTLs changed; its TTLs are the remaining lifetime to the half second. */
  lemma HitIsLastWrite(events: seq<Event>, query: Msg, dnssec: bool, clock: Clock) returns (i: int)
    requires ValidHistory(events) && query.question != []
    requires Serve(CacheAfter(events), query, dnssec, clock).Hit?
    ensures LastAnswer(events, i, query.question[0], dnssec)
    ensures var w := events[i].w;
            && clock.check <= Expiration(w)
            && ServedFrom(Serve(CacheAfter(events), query, dnssec, clock).msg, w, query,
                          ServedTtl(Expiration(w) - clock.ttl))
            && (w.now <= clock.ttl <= Expiration(w) ==>
                  var ttl, remaining := ServedTtl(Expiration(w) - clock.ttl), Expiration(w) - clock.ttl;
                  2 * ttl * Second - Second <= 2 * remaining < 2 * ttl * Second + Second)
  {
    i := CacheHoldsLastWrite(events, query.question[0], dnssec);
    var w := events[i].w;
    EntryServed(CacheAfter(events), w, query, dnssec, clock);
    if w.now <= clock.ttl <= Expiration(w) {
      ServedTtlIsAccurate(Expiration(w) - clock.ttl);
    }
  }

  /** The same of an answer past its expiration: it is offered as stale, with the id and
      question of the query, and TTLs of thirty seconds if it is served at once. */
  lemma StaleIsLastWrite(events: seq<Event>, query: Msg, dnssec: bool, clock: Clock) returns (i: int)
    requires ValidHistory(events) && query.question != []
    requires Serve(CacheAfter(events), query, dnssec, clock).Stale?
    ensures LastAnswer(events, i, query.question[0], dnssec)
    ensures var w, m := events[i].w, Serve(CacheAfter(events), query, dnssec, clock).msg;
            && clock.check > Expiration(w)
            && ServedFrom(m, w, query, ServedTtl(clock.base + StaleResponseTTL - clock.ttl))
            && (clock.base == clock.ttl ==> TtlsAre(m, 30))
  {
    i := CacheHoldsLastWrite(events, query.question[0], dnssec);
    EntryServed(CacheAfter(events), events[i].w, query, dnssec, clock);
    assert ServedTtl(StaleResponseTTL) == 30;
  }

  /** Reading right after a write: an answer with response code 0, 3 or 9 that is not
      truncated is found under its own question, as a hit exactly up to its lifetime, in
      seconds, after the write; any other answer leaves the cache as it was. */
  lemma WriteThenRead(cache: Cache, w: Write, query: Msg, clock: Clock)
    requires w.msg.question != [] && query.question != []
    requires SameQuestion(w.msg.question[0], w.dnssec, query.question[0], w.dnssec)
    ensures if w.msg.rcode in {0, 3, 9} && !w.msg.truncated
            then var r := Serve(AfterWrite(cache, w), query, w.dnssec, clock);
                 && !r.Miss?
                 && (r.Hit? <==> clock.check <= w.now + Lifetime(w.msg, w.limits) * 1_000_000_000)
                 && SameContent(r.msg, w.msg)
            else AfterWrite(cache, w) == cache
  {
    KeyIsInjective(w.msg.question[0], w.dnssec, query.question[0], w.dnssec);
    if Cacheable(w.msg) {
      EntryServed(AfterWrite(cache, w), w, query, w.dnssec, clock);
    }
  }

  /** The answer that is written goes to the client with its full lifetime as TTL. */
  lemma WriterServesLifetime(w: Write)
    requires w.later == w.now
    ensures TtlsAre(EntryOf(w).msg, Lifetime(w.msg, w.limits)) && SameContent(EntryOf(w).msg, w.msg)
  {
    var life := Lifetime(w.msg, w.limits);
    UpdateKeepsContent(w.msg, Expiration(w) - w.later);
    ServedTtlIsAccurate(life * Second);
  }

  /** A miss means the question was never written, or evicted since its last write. */
  lemma {:induction false} MissMeansEvicted(events: seq<Event>, question: Question, dnssec: bool, i: int)
    requires ValidHistory(events) && LastAnswer(events, i, question, dnssec)
    requires KeyOf(question, dnssec) !in CacheAfter(events)
    ensures exists j :: i < j < |events| && events[j].Evicted? && KeyOf(question, dnssec) in events[j].gone
  {
    var n := |events| - 1;
    var init := events[..n];
    if events[n].Written? {
      KeyIsInjective(events[n].w.msg.question[0], events[n].w.dnssec, question, dnssec);
    }
    if i < n {
      assert Answers(init, i, question, dnssec);
      forall j | i < j < |init|
        ensures !Answers(init, j, question, dnssec) { assert !Answers(events, j, question, dnssec); }
      if KeyOf(question, dnssec) !in CacheAfter(init) {
        MissMeansEvicted(init, question, dnssec, i);
        var j :| i < j < |init| && init[j].Evicted? && KeyOf(question, dnssec) in init[j].gone;
        assert events[j].Evicted?;
      }
    }
  }

  /** An entry past its expiration is only ever offered as stale, with TTLs of at
      most thirty seconds. */
  lemma ExpiredIsOnlyStale(cache: Cache, query: Msg, dnssec: bool, clock: Clock)
    requires query.question != [] && KeyOf(query.question[0], dnssec) in cache
    requires clock.base <= clock.ttl
    ensures var r := Serve(cache, query, dnssec, clock);
            if clock.check <= cache[KeyOf(query.question[0], dnssec)].expiration then r.Hit?
            else r.Stale? && exists ttl: uint32 :: ttl <= 30 && TtlsAre(r.msg, ttl)
  {
    var entry := cache[KeyOf(query.question[0], dnssec)];
    if clock.check > entry.expiration {
      var synth := Synthesized(entry.msg, query);
      var until := clock.base + StaleResponseTTL - clock.ttl;
      UpdateKeepsContent(synth, until);
      ServedTtlNeverGrows(StaleResponseTTL, until);
      assert ServedTtl(StaleResponseTTL) == 30;
    }
  }
}
