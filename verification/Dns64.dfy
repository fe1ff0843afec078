/** IPv4-embedded IPv6 addresses (section 2.2 of RFC 6052) and the discovery of the
    prefix in use (section 3 of RFC 7050). */
module Dns64 {
  import opened Common

  type IPv4 = s: seq<byte> | |s| == 4 witness [0, 0, 0, 0]

  type IPv6 = s: seq<byte> | |s| == 16 witness [0, 0, 0, 0, 0, 0, 0, 0, 0, 0, 0, 0, 0, 0, 0, 0]

  /** An address prefix: sixteen bytes and a length in bits. */
  datatype Prefix = Prefix(ip: IPv6, bits: nat)

  // ---------------------------------------------------------------- embedding

  /** Where byte i of an IPv4 address goes behind `shift` prefix bytes: byte 8 is skipped. */
  function Position(shift: nat, i: nat): nat {
    if shift <= 8 <= shift + i then shift + i + 1 else shift + i
  }

  /** The address embedded behind `shift` prefix bytes. */
  function Extract(ipv6: IPv6, shift: nat): IPv4
    requires shift <= 12
  {
    [ipv6[Position(shift, 0)], ipv6[Position(shift, 1)], ipv6[Position(shift, 2)], ipv6[Position(shift, 3)]]
  }

  predicate Carries(shift: nat, j: int) {
    j == Position(shift, 0) || j == Position(shift, 1) || j == Position(shift, 2) || j == Position(shift, 3)
  }

  /** r is the prefix's own address with ipv4 embedded in it, and nothing else changed. */
  ghost predicate IsEmbedding(r: IPv6, ipv4: IPv4, prefix: Prefix)
    requires prefix.bits / 8 <= 12
  {
    && Extract(r, prefix.bits / 8) == ipv4
    && forall j :: 0 <= j < 16 && !Carries(prefix.bits / 8, j) ==> r[j] == prefix.ip[j]
  }

  /** `translateToIPv6`; the source indexes out of range for prefixes over 103 bits. */
  method TranslateToIPv6(ipv4: IPv4, prefix: Prefix) returns (r: IPv6)
    requires prefix.bits / 8 <= 12
    ensures IsEmbedding(r, ipv4, prefix)
  {
    var ipv6 := new byte[16](i requires 0 <= i < 16 => prefix.ip[i]);
    var shift := prefix.bits / 8;
    ghost var s := shift;
    for i := 0 to 4
      invariant shift == if i > 0 && s <= 8 <= s + i - 1 then s + 1 else s
      invariant forall k :: 0 <= k < i ==> ipv6[Position(s, k)] == ipv4[k]
      invariant forall j :: 0 <= j < 16 && !Carries(s, j) ==> ipv6[j] == prefix.ip[j]
    {
      if shift + i == 8 {
        shift := shift + 1;
      }
      assert shift + i == Position(s, i);
      ipv6[shift + i] := ipv4[i];
    }
    r := ipv6[..];
  }

  /** An address determines and is determined by its prefix and the address embedded. */
  lemma EmbeddingIsUnique(a: IPv6, b: IPv6, ipv4: IPv4, prefix: Prefix)
    requires prefix.bits / 8 <= 12 && IsEmbedding(a, ipv4, prefix) && IsEmbedding(b, ipv4, prefix)
    ensures a == b
  {
  }

  /** A prefix of one of the standard lengths, with zero bytes behind it. */
  ghost predicate Canonical(p: Prefix) {
    && p.bits in {32, 40, 48, 56, 64, 96}
    && forall j :: p.bits / 8 <= j < 16 ==> p.ip[j] == 0
  }

  /** For every standard prefix the embedding keeps the prefix, leaves byte 8 zero
      up to 64 bits, is zero behind the address, and can be undone. */
  lemma EmbeddingLayout(r: IPv6, ipv4: IPv4, p: Prefix)
    requires Canonical(p) && IsEmbedding(r, ipv4, p)
    ensures r[..p.bits/8] == p.ip[..p.bits/8]
    ensures p.bits <= 64 ==> r[8] == 0
    ensures forall j :: Position(p.bits / 8, 3) < j < 16 ==> r[j] == 0
    ensures Extract(r, p.bits / 8) == ipv4
  {
  }

  // ---------------------------------------------------------------- discovery

  const WellKnown1: IPv4 := [192, 0, 0, 170]
  const WellKnown2: IPv4 := [192, 0, 0, 171]

  predicate WellKnown(ipv4: IPv4) { ipv4 == WellKnown1 || ipv4 == WellKnown2 }

  const ZeroIPv6: IPv6 := [0, 0, 0, 0, 0, 0, 0, 0, 0, 0, 0, 0, 0, 0, 0, 0]

  /** The cascade of `fetchPref64`: the prefix length in bytes, or 0. */
  function PrefixEnd(a: IPv6): nat {
    if WellKnown([a[12], a[13], a[14], a[15]]) then 12
    else if WellKnown([a[9], a[10], a[11], a[12]]) then 8
    else if WellKnown([a[7], a[9], a[10], a[11]]) then 7
    else if WellKnown([a[6], a[7], a[9], a[10]]) then 6
    else if WellKnown([a[5], a[6], a[7], a[9]]) then 5
    else if WellKnown([a[4], a[5], a[6], a[7]]) then 4
    else 0
  }

  function Discover(a: IPv6): Option<Prefix> {
    var end := PrefixEnd(a);
    if end == 0 then None else Some(Prefix(a[..end] + ZeroIPv6[end..], end * 8))
  }

  lemma EndIsSound(a: IPv6)
    requires PrefixEnd(a) > 0
    ensures PrefixEnd(a) in {4, 5, 6, 7, 8, 12} && WellKnown(Extract(a, PrefixEnd(a)))
  {
  }

  lemma ZeroTail(a: IPv6, end: nat)
    requires end <= 16
    ensures |a[..end] + ZeroIPv6[end..]| == 16
    ensures (a[..end] + ZeroIPv6[end..])[..end] == a[..end]
    ensures forall j :: end <= j < 16 ==> (a[..end] + ZeroIPv6[end..])[j] == 0
  {
    forall j | end <= j < 16 ensures (a[..end] + ZeroIPv6[end..])[j] == 0 {
      assert (a[..end] + ZeroIPv6[end..])[j] == ZeroIPv6[end..][j-end] == ZeroIPv6[j];
      AllZero(j);
    }
  }

  lemma AllZero(j: nat)
    requires j < 16
    ensures ZeroIPv6[j] == 0
  {
  }

  /** Whatever is discovered is a standard prefix of the address, behind which the
      address embeds a well-known one. */
  lemma DiscoveryIsSound(a: IPv6)
    requires Discover(a).Some?
    ensures var p := Discover(a).value;
            Canonical(p) && a[..p.bits/8] == p.ip[..p.bits/8] && WellKnown(Extract(a, p.bits / 8))
  {
    EndIsSound(a);
    ZeroTail(a, PrefixEnd(a));
  }

  /** No earlier case of the cascade misfires. */
  lemma CascadeFindsEnd(a: IPv6, ipv4: IPv4, p: Prefix)
    requires Canonical(p) && WellKnown(ipv4) && IsEmbedding(a, ipv4, p)
    ensures PrefixEnd(a) == p.bits / 8
  {
  }

  lemma PrefixRebuilt(a: IPv6, ip: IPv6, end: nat)
    requires end <= 16 && a[..end] == ip[..end] && forall j :: end <= j < 16 ==> ip[j] == 0
    ensures a[..end] + ZeroIPv6[end..] == ip
  {
  }

  lemma EmbeddedPrefix(a: IPv6, ipv4: IPv4, p: Prefix)
    requires Canonical(p) && IsEmbedding(a, ipv4, p)
    ensures a[..p.bits/8] + ZeroIPv6[p.bits/8..] == p.ip && p.bits / 8 * 8 == p.bits
  {
    EmbeddingLayout(a, ipv4, p);
    PrefixRebuilt(a, p.ip, p.bits / 8);
  }

  /** Embedding a well-known address behind any standard prefix and running the
      cascade gives back exactly that prefix. */
  lemma DiscoveryInvertsEmbedding(a: IPv6, ipv4: IPv4, p: Prefix)
    requires Canonical(p) && IsEmbedding(a, ipv4, p)
    requires ipv4 == [192, 0, 0, 170] || ipv4 == [192, 0, 0, 171]
    ensures Discover(a) == Some(p)
  {
    CascadeFindsEnd(a, ipv4, p);
    EmbeddedPrefix(a, ipv4, p);
  }

  // ---------------------------------------------------------------- a whole answer

  /** An answer record: an AAAA address, or a record that carries none. */
  type Answer = Option<IPv6>

  function DiscoverAnswer(a: Answer): Option<Prefix> { if a.Some? then Discover(a.value) else None }

  function DiscoverAll(answers: seq<Answer>): (r: seq<Option<Prefix>>)
    ensures |r| == |answers| && forall i :: 0 <= i < |r| ==> r[i] == DiscoverAnswer(answers[i])
  {
    seq(|answers|, i requires 0 <= i < |answers| => DiscoverAnswer(answers[i]))
  }

  /** The values present, each once, in order of first appearance. */
  function Distinct<T(==,!new)>(xs: seq<Option<T>>): (r: seq<T>)
    ensures NoDuplicates(r)
    ensures forall x :: x in r <==> Some(x) in xs
  {
    if xs == [] then []
    else
      var init := Distinct(xs[..|xs|-1]);
      var last := xs[|xs|-1];
      if last.None? || last.value in init then init else init + [last.value]
  }

  /** `fetchPref64` after the exchange: it fails exactly when no answer yields a
      prefix, and otherwise installs all of them, each once. */
  method FetchPref64(answers: seq<Answer>) returns (r: Option<seq<Prefix>>)
    ensures r.None? <==> forall i :: 0 <= i < |answers| ==> DiscoverAnswer(answers[i]).None?
    ensures r.Some? ==> r.value == Distinct(DiscoverAll(answers))
  {
    ghost var found := DiscoverAll(answers);
    var seen: set<Prefix> := {};
    var prefixes: seq<Prefix> := [];
    for i := 0 to |answers|
      invariant prefixes == Distinct(found[..i])
      invariant forall p :: p in seen <==> p in prefixes
    {
      assert found[..i+1][..i] == found[..i];
      var discovered := DiscoverAnswer(answers[i]);
      if discovered.Some? && discovered.value !in seen {
        prefixes := prefixes + [discovered.value];
        seen := seen + {discovered.value};
      }
    }
    assert found[..|answers|] == found;
    if prefixes == [] {
      forall i | 0 <= i < |answers| ensures DiscoverAnswer(answers[i]).None? {
        assert found[i] in found;
      }
      return None;
    }
    assert Some(prefixes[0]) in found;
    return Some(prefixes);
  }

  /** If every answer embeds a well-known address behind some standard prefix, the
      prefixes found are exactly those. */
  lemma AllPrefixesDiscovered(ps: seq<Prefix>, addresses: seq<IPv6>, ipv4s: seq<IPv4>)
    requires |ps| == |addresses| == |ipv4s|
    requires forall i :: 0 <= i < |ps| ==>
               Canonical(ps[i]) && WellKnown(ipv4s[i]) && IsEmbedding(addresses[i], ipv4s[i], ps[i])
    ensures var found := Distinct(DiscoverAll(seq(|ps|, i requires 0 <= i < |ps| => Some(addresses[i]))));
            NoDuplicates(found) && forall p :: p in found <==> p in ps
  {
    var all := DiscoverAll(seq(|ps|, i requires 0 <= i < |ps| => Some(addresses[i])));
    forall i | 0 <= i < |ps| ensures all[i] == Some(ps[i]) {
      DiscoveryInvertsEmbedding(addresses[i], ipv4s[i], ps[i]);
    }
  }

  /** Values that are all different stay in the order they came in. */
  lemma {:induction false} DistinctKeepsOrder<T(!new)>(xs: seq<Option<T>>, values: seq<T>)
    requires |xs| == |values| && NoDuplicates(values) && forall i :: 0 <= i < |xs| ==> xs[i] == Some(values[i])
    ensures Distinct(xs) == values
  {
    if xs != [] {
      var n := |xs| - 1;
      DistinctKeepsOrder(xs[..n], values[..n]);
      assert values == values[..n] + [values[n]];
    }
  }
}
