/** Domain names as character strings: reversal, zones, and the reversed-prefix
    view of a zone that a prefix index works with. */
module DomainNames {

  function Reverse(s: string): (r: string)
    ensures |r| == |s|
    ensures forall i :: 0 <= i < |s| ==> r[i] == s[|s|-1-i]
  {
    seq(|s|, i requires 0 <= i < |s| => s[|s|-1-i])
  }

  /** `StringReverse`: characters are exchanged from both ends inwards. */
  method StringReverse(s: string) returns (r: string)
    ensures r == Reverse(s)
  {
    var chars := new char[|s|](i requires 0 <= i < |s| => s[i]);
    var i, j := 0, |s| - 1;
    while i < |s| / 2
      invariant 0 <= i <= |s| / 2 && j == |s| - 1 - i
      invariant forall k :: i <= k <= j ==> chars[k] == s[k]
      invariant forall k :: 0 <= k < i ==> chars[k] == s[|s|-1-k] && chars[|s|-1-k] == s[k]
    {
      chars[i], chars[j] := chars[j], chars[i];
      i, j := i + 1, j - 1;
    }
    r := chars[..];
  }

  predicate IsPrefix(p: string, s: string) { |p| <= |s| && s[..|p|] == p }

  predicate EndsWith(s: string, t: string) { |t| <= |s| && s[|s|-|t|..] == t }

  predicate Contains(s: string, t: string) {
    exists i :: 0 <= i <= |s| && IsPrefix(t, s[i..])
  }

  /** q is the domain z or one of its subdomains. */
  predicate InZone(q: string, z: string) { q == z || EndsWith(q, "." + z) }

  /** A prefix of s that stops at the end of s or right before a dot. */
  predicate OnBoundary(p: string, s: string)
    requires |p| <= |s|
  {
    |p| == |s| || s[|p|] == '.'
  }

  lemma ReverseTwice(s: string)
    ensures Reverse(Reverse(s)) == s
  {
  }

  lemma ReverseConcat(a: string, b: string)
    ensures Reverse(a + b) == Reverse(b) + Reverse(a)
  {
  }

  /** Zones are label-aligned prefixes of the reversed name. */
  lemma ZoneIsReversedPrefix(q: string, z: string)
    ensures InZone(q, z) <==> IsPrefix(Reverse(z), Reverse(q)) && OnBoundary(Reverse(z), Reverse(q))
  {
    var rz, rq := Reverse(z), Reverse(q);
    if q != z && EndsWith(q, "." + z) {
      var head := q[..|q|-|z|-1];
      assert q == head + ("." + z);
      ReverseConcat(head, "." + z);
      ReverseConcat(".", z);
      assert rq == rz + Reverse(".") + Reverse(head);
    }
    if IsPrefix(rz, rq) && OnBoundary(rz, rq) {
      var k := |q| - |z|;
      assert q[k..] == z by {
        forall i | 0 <= i < |z| ensures q[k + i] == z[i] {
          assert rq[|z|-1-i] == rz[|z|-1-i];
        }
      }
      if k > 0 {
        assert q[k-1] == rq[|z|] == '.';
        assert q[k-1..] == "." + z;
      }
    }
  }

  /** Two zones that hold a common name are nested. */
  lemma ZonesOfOneNameNest(q: string, a: string, b: string)
    requires InZone(q, a) && InZone(q, b) && |a| <= |b|
    ensures InZone(b, a)
  {
    ZoneIsReversedPrefix(q, a);
    ZoneIsReversedPrefix(q, b);
    ZoneIsReversedPrefix(b, a);
    var ra, rb, rq := Reverse(a), Reverse(b), Reverse(q);
    assert rb[..|a|] == rq[..|b|][..|a|] == rq[..|a|] == ra;
    if |a| < |b| { assert rb[|a|] == rq[|a|]; }
  }
}
