/** Choosing a certificate among the TXT answers of a provider. */
module Certificates {
  import opened Common
  import opened TxtRecords

  type Bytes = seq<byte>

  /** An answer record: TXT strings in presentation form, or a record of another type. */
  datatype Answer = NotTxt | Txt(strings: seq<Bytes>)

  datatype Construction = XSalsa20Poly1305 | XChacha20Poly1305

  function Number(c: Construction): nat { if c == XSalsa20Poly1305 then 1 else 2 }

  /** The outside of the selection: signature check under the provider's key, key
      agreement, the clock, and whether dates are ignored. */
  datatype Context = Context(verify: (Bytes, Bytes) -> bool, shared: (Construction, Bytes) -> Bytes,
                             now: nat, ignoreDates: bool)

  datatype CertInfo = CertInfo(serverPk: Bytes, sharedKey: Bytes, magicQuery: Bytes, construction: Construction)

  const CertMagic: Bytes := [0x44, 0x4e, 0x53, 0x43]

  function BigEndian(s: Bytes): nat {
    if s == [] then 0 else BigEndian(s[..|s|-1]) * 256 + s[|s|-1]
  }

  /** The binary certificate an answer carries. */
  function Binary(a: Answer): Bytes {
    if a.NotTxt? then [] else Unescape(Concat(a.strings))
  }

  function Version(cert: Bytes): Option<Construction>
    requires |cert| >= 124
  {
    var v := BigEndian(cert[4..6]);
    if v == 1 then Some(XSalsa20Poly1305) else if v == 2 then Some(XChacha20Poly1305) else None
  }

  function Serial(cert: Bytes): nat requires |cert| >= 124 { BigEndian(cert[112..116]) }

  /** A certificate that may be used now. */
  predicate Usable(ctx: Context, cert: Bytes) {
    && |cert| >= 124
    && cert[..4] == CertMagic
    && Version(cert).Some?
    && ctx.verify(cert[72..], cert[8..72])
    && var begin, end := BigEndian(cert[116..120]), BigEndian(cert[120..124]);
    && begin < end
    && (ctx.ignoreDates || begin <= ctx.now <= end)
  }

  /** A usable certificate: its serial and what would be taken from it. */
  datatype Candidate = Candidate(serial: nat, info: CertInfo)

  function CandidateOf(ctx: Context, answer: Answer): (r: Option<Candidate>)
    ensures r.Some? <==> Usable(ctx, Binary(answer))
  {
    var cert := Binary(answer);
    if !Usable(ctx, cert) then None
    else
      var c := Version(cert).value;
      Some(Candidate(Serial(cert), CertInfo(cert[72..104], ctx.shared(c, cert[72..104]), cert[104..112], c)))
  }

  /** The checks of the selection loop on one answer, in their order. */
  method Examine(ctx: Context, answer: Answer) returns (r: Option<Candidate>)
    ensures r == CandidateOf(ctx, answer)
  {
    if answer.NotTxt? { return None; }
    var cert := PackTXTRR(Concat(answer.strings));
    if |cert| < 124 { return None; }
    if cert[..4] != CertMagic { return None; }
    var version := Version(cert);
    if version.None? { return None; }
    if !ctx.verify(cert[72..], cert[8..72]) { return None; }
    var serial := Serial(cert);
    var begin, end := BigEndian(cert[116..120]), BigEndian(cert[120..124]);
    if begin >= end { return None; }
    if !ctx.ignoreDates && (ctx.now > end || ctx.now < begin) { return None; }
    var pk := cert[72..104];
    return Some(Candidate(serial, CertInfo(pk, ctx.shared(version.value, pk), cert[104..112], version.value)));
  }

  // ---------------------------------------------------------------- the preferred certificate

  /** Higher serial first; at equal serials, the higher construction. */
  predicate AtMost(a: Candidate, b: Candidate) {
    a.serial < b.serial || (a.serial == b.serial && Number(a.info.construction) <= Number(b.info.construction))
  }

  /** The higher serial is preferred; between equal serials, XChaCha20 to XSalsa20. */
  lemma Preference(a: Candidate, b: Candidate)
    ensures AtMost(a, b) && AtMost(b, a) <==> a.serial == b.serial && a.info.construction == b.info.construction
    ensures a.serial < b.serial ==> AtMost(a, b) && !AtMost(b, a)
    ensures a.serial == b.serial ==>
              a.info.construction == XSalsa20Poly1305 && b.info.construction == XChacha20Poly1305 ==>
                AtMost(a, b) && !AtMost(b, a)
  {
  }

  ghost function Candidates(ctx: Context, answers: seq<Answer>): (r: seq<Option<Candidate>>)
    ensures |r| == |answers|
  {
    if answers == [] then []
    else Candidates(ctx, answers[..|answers|-1]) + [CandidateOf(ctx, answers[|answers|-1])]
  }

  lemma {:induction false} CandidateAt(ctx: Context, answers: seq<Answer>, i: nat)
    requires i < |answers|
    ensures Candidates(ctx, answers)[i] == CandidateOf(ctx, answers[i])
  {
    if i < |answers| - 1 { CandidateAt(ctx, answers[..|answers|-1], i); }
  }

  lemma OneMoreCandidate(ctx: Context, answers: seq<Answer>, i: nat)
    requires i < |answers|
    ensures Candidates(ctx, answers[..i+1]) == Candidates(ctx, answers[..i]) + [CandidateOf(ctx, answers[i])]
  {
    assert answers[..i+1][..i] == answers[..i];
  }

  /** Position k holds the last of the most preferred candidates. */
  ghost predicate Preferred(cs: seq<Option<Candidate>>, k: int) {
    && 0 <= k < |cs| && cs[k].Some?
    && (forall j :: 0 <= j < |cs| && cs[j].Some? ==> AtMost(cs[j].value, cs[k].value))
    && (forall j :: k < j < |cs| && cs[j].Some? ==> !AtMost(cs[k].value, cs[j].value))
  }

  ghost predicate NoneUsable(cs: seq<Option<Candidate>>) { forall j :: 0 <= j < |cs| ==> cs[j].None? }

  /** One more answer: it takes over unless the current choice is strictly preferred. */
  lemma OneMore(cs: seq<Option<Candidate>>, next: Option<Candidate>, k: int)
    requires NoneUsable(cs) || Preferred(cs, k)
    ensures next.None? && NoneUsable(cs) ==> NoneUsable(cs + [next])
    ensures next.None? && Preferred(cs, k) ==> Preferred(cs + [next], k)
    ensures next.Some? && NoneUsable(cs) ==> Preferred(cs + [next], |cs|)
    ensures next.Some? && Preferred(cs, k) ==>
              Preferred(cs + [next], if AtMost(cs[k].value, next.value) then |cs| else k)
  {
  }

  /** The position the loop has settled on after some answers. */
  ghost function Pick(cs: seq<Option<Candidate>>): (k: Option<nat>)
    ensures k.Some? ==> k.value < |cs| && cs[k.value].Some?
  {
    if cs == [] then None
    else
      var n := |cs| - 1;
      var k := Pick(cs[..n]);
      if cs[n].Some? && (k.None? || AtMost(cs[k.value].value, cs[n].value)) then Some(n) else k
  }

  lemma {:induction false} PickIsPreferred(cs: seq<Option<Candidate>>)
    ensures Pick(cs).None? <==> NoneUsable(cs)
    ensures Pick(cs).Some? ==> Preferred(cs, Pick(cs).value)
  {
    if cs != [] {
      var n := |cs| - 1;
      PickIsPreferred(cs[..n]);
      OneMore(cs[..n], cs[n], if Pick(cs[..n]).Some? then Pick(cs[..n]).value else 0);
      assert cs == cs[..n] + [cs[n]];
    }
  }

  /** What the loop's variables hold of that choice. */
  ghost function Held(cs: seq<Option<Candidate>>): (r: (Option<CertInfo>, nat, nat)) {
    if Pick(cs).None? then (None, 0, 0)
    else
      var c := cs[Pick(cs).value].value;
      (Some(c.info), c.serial, Number(c.info.construction))
  }

  /** The loop's test for taking over is the preference between candidates. */
  lemma HeldStep(cs: seq<Option<Candidate>>, next: Option<Candidate>)
    ensures var (info, serial, number) := Held(cs);
            Held(cs + [next]) ==
              if next.Some? && !(next.value.serial < serial)
                 && !(next.value.serial == serial && Number(next.value.info.construction) < number)
              then (Some(next.value.info), next.value.serial, Number(next.value.info.construction))
              else (info, serial, number)
  {
    assert (cs + [next])[..|cs|] == cs;
  }

  /** The loop's body: examine one more answer and take it over or not. */
  method Consider(ctx: Context, answers: seq<Answer>, i: nat, info: Option<CertInfo>, serial: nat, number: nat)
    returns (info': Option<CertInfo>, serial': nat, number': nat)
    requires i < |answers| && (info, serial, number) == Held(Candidates(ctx, answers[..i]))
    ensures (info', serial', number') == Held(Candidates(ctx, answers[..i+1]))
  {
    info', serial', number' := info, serial, number;
    var examined := Examine(ctx, answers[i]);
    HeldStep(Candidates(ctx, answers[..i]), examined);
    OneMoreCandidate(ctx, answers, i);
    if examined.None? { return; }
    var Candidate(next, found) := examined.value;
    if next < serial { return; }
    if next == serial && Number(found.construction) < number { return; }
    info', serial', number' := Some(found), next, Number(found.construction);
  }

  /** The choice among the answers: the last most preferred candidate. */
  ghost predicate Chosen(ctx: Context, answers: seq<Answer>, info: CertInfo) {
    exists k :: Preferred(Candidates(ctx, answers), k) && Candidates(ctx, answers)[k].value.info == info
  }

  lemma HeldDecides(ctx: Context, answers: seq<Answer>)
    ensures var info := Held(Candidates(ctx, answers)).0;
            && (info.None? <==> NoneUsable(Candidates(ctx, answers)))
            && (info.Some? ==> Chosen(ctx, answers, info.value))
  {
    PickIsPreferred(Candidates(ctx, answers));
  }

  /** The selection loop. It fails exactly when no answer is usable; otherwise key,
      magic and construction are those of the last most preferred certificate. */
  method SelectCertificate(ctx: Context, answers: seq<Answer>) returns (info: Option<CertInfo>)
    ensures info.None? <==> NoneUsable(Candidates(ctx, answers))
    ensures info.Some? ==> Chosen(ctx, answers, info.value)
  {
    info := None;
    var highestSerial, construction := 0, 0;
    for i := 0 to |answers|
      invariant (info, highestSerial, construction) == Held(Candidates(ctx, answers[..i]))
    {
      info, highestSerial, construction := Consider(ctx, answers, i, info, highestSerial, construction);
    }
    assert answers[..|answers|] == answers;
    HeldDecides(ctx, answers);
  }

  lemma CandidateAppears(a: seq<Answer>, b: seq<Answer>, i: int) returns (j: int)
    requires multiset(a) == multiset(b) && 0 <= i < |a|
    ensures 0 <= j < |b| && b[j] == a[i]
  {
    assert a[i] in multiset(b);
    j :| 0 <= j < |b| && b[j] == a[i];
  }

  /** Reordering the answers changes neither whether a certificate is found nor the
      serial and construction of the one chosen. */
  lemma OrderDoesNotMatter(ctx: Context, a: seq<Answer>, b: seq<Answer>, k: int, l: int)
    requires multiset(a) == multiset(b)
    requires Preferred(Candidates(ctx, a), k)
    ensures !NoneUsable(Candidates(ctx, b))
    ensures Preferred(Candidates(ctx, b), l) ==>
              var x, y := Candidates(ctx, a)[k].value, Candidates(ctx, b)[l].value;
              x.serial == y.serial && x.info.construction == y.info.construction
  {
    var j := CandidateAppears(a, b, k);
    CandidateAt(ctx, a, k);
    CandidateAt(ctx, b, j);
    if Preferred(Candidates(ctx, b), l) {
      var i := CandidateAppears(b, a, l);
      CandidateAt(ctx, b, l);
      CandidateAt(ctx, a, i);
    }
  }

  /** A certificate cut into any number of TXT strings, each escaped on its own, is
      reassembled exactly. */
  lemma SplitCertificateReassembled(parts: seq<Bytes>)
    ensures Binary(Txt(EscapeAll(parts))) == Concat(parts)
  {
    JoinedRoundTrip(parts);
  }

  // ---------------------------------------------------------------- certificates as they are issued

  /** A number in n bytes, most significant first. */
  function ToBytes(x: nat, n: nat): (r: Bytes)
    ensures |r| == n
  {
    if n == 0 then [] else ToBytes(x / 256, n - 1) + [x % 256]
  }

  function Pow256(n: nat): nat { if n == 0 then 1 else 256 * Pow256(n - 1) }

  lemma {:induction false} BytesReadBack(x: nat, n: nat)
    requires x < Pow256(n)
    ensures BigEndian(ToBytes(x, n)) == x
  {
    if n > 0 {
      BytesReadBack(x / 256, n - 1);
      var r := ToBytes(x, n);
      assert r[..n-1] == ToBytes(x / 256, n - 1);
    }
  }

  /** The fields of a certificate, as a provider fills them in. */
  datatype Issue = Issue(version: nat, minor: Bytes, signature: Bytes, pk: Bytes, magic: Bytes, serial: nat, begin: nat,
                         end: nat, extensions: Bytes)

  predicate WellFormed(c: Issue) {
    && c.version < 0x1_0000 && |c.minor| == 2 && |c.signature| == 64 && |c.pk| == 32 && |c.magic| == 8
    && c.serial < 0x1_0000_0000 && c.begin < 0x1_0000_0000 && c.end < 0x1_0000_0000
  }

  /** What is signed: key, client magic, serial, validity, extensions. */
  function Signed(c: Issue): Bytes {
    c.pk + (c.magic + (ToBytes(c.serial, 4) + (ToBytes(c.begin, 4) + (ToBytes(c.end, 4) + c.extensions))))
  }

  function Assemble(c: Issue): Bytes {
    [0x44, 0x4e, 0x53, 0x43] + (ToBytes(c.version, 2) + (c.minor + (c.signature + Signed(c))))
  }

  lemma SignedFields(c: Issue)
    requires WellFormed(c)
    ensures var s := Signed(c);
            && |s| >= 52 && s[..32] == c.pk && s[32..40] == c.magic
            && s[40..44] == ToBytes(c.serial, 4) && s[44..48] == ToBytes(c.begin, 4) && s[48..52] == ToBytes(c.end, 4)
  {
  }

  lemma AssembledFields(c: Issue)
    requires WellFormed(c)
    ensures var cert := Assemble(c);
            && |cert| >= 124 && cert[..4] == CertMagic && cert[4..6] == ToBytes(c.version, 2)
            && cert[8..72] == c.signature && cert[72..] == Signed(c)
  {
  }

  lemma FieldsBehindSignature(c: Issue)
    requires WellFormed(c)
    ensures var cert := Assemble(c);
            && |cert| >= 124 && cert[72..104] == c.pk && cert[104..112] == c.magic
            && cert[112..116] == ToBytes(c.serial, 4)
            && cert[116..120] == ToBytes(c.begin, 4) && cert[120..124] == ToBytes(c.end, 4)
  {
    AssembledFields(c);
    SignedFields(c);
    var cert, s := Assemble(c), Signed(c);
    assert cert[72..104] == cert[72..][..32] && cert[104..112] == cert[72..][32..40];
    assert cert[112..116] == cert[72..][40..44];
    assert cert[116..120] == cert[72..][44..48] && cert[120..124] == cert[72..][48..52];
  }

  lemma FieldsReadBack(c: Issue)
    requires WellFormed(c)
    ensures var cert := Assemble(c);
            && |cert| >= 124 && BigEndian(cert[4..6]) == c.version && BigEndian(cert[112..116]) == c.serial
            && BigEndian(cert[116..120]) == c.begin && BigEndian(cert[120..124]) == c.end
  {
    AssembledFields(c);
    FieldsBehindSignature(c);
    assert Pow256(2) == 0x1_0000 && Pow256(4) == 0x1_0000_0000;
    BytesReadBack(c.version, 2);
    BytesReadBack(c.serial, 4);
    BytesReadBack(c.begin, 4);
    BytesReadBack(c.end, 4);
  }

  /** A certificate as issued, in one TXT answer, is a candidate exactly if its version is
      known, its signature verifies, it begins before it ends and the date is within, or
      ignored; and then its serial, key, client magic and construction are those issued. */
  lemma IssuedCertificateRead(ctx: Context, c: Issue, answer: Answer)
    requires WellFormed(c) && Binary(answer) == Assemble(c)
    ensures var r := CandidateOf(ctx, answer);
            && (r.Some? <==>
                  && (c.version == 1 || c.version == 2) && ctx.verify(Signed(c), c.signature) && c.begin < c.end
                  && (ctx.ignoreDates || c.begin <= ctx.now <= c.end))
            && (r.Some? ==>
                  && r.value.serial == c.serial && r.value.info.serverPk == c.pk && r.value.info.magicQuery == c.magic
                  && r.value.info.construction == (if c.version == 1 then XSalsa20Poly1305 else XChacha20Poly1305)
                  && r.value.info.sharedKey == ctx.shared(r.value.info.construction, c.pk))
  {
    AssembledFields(c);
    FieldsBehindSignature(c);
    FieldsReadBack(c);
  }
}
