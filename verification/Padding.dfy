/** Padding with a 0x80 delimiter and zero bytes, as in ISO/IEC 7816-4. */
module Padding {
  import opened Common
  import opened Slices

  const Delimiter: byte := 0x80

  function Zeros(n: nat): (r: seq<byte>)
    ensures |r| == n && forall i :: 0 <= i < n ==> r[i] == 0
  {
    seq(n, _ => 0)
  }

  function Padded(packet: seq<byte>, minSize: int): (r: seq<byte>)
    ensures |r| == Max(|packet| + 1, minSize)
  {
    packet + [Delimiter] + Zeros(Max(0, minSize - |packet| - 1))
  }

  /** The packet, one byte 0x80, and zeros up to the minimum size. */
  lemma PaddingLayout(packet: seq<byte>, minSize: int)
    ensures var r := Padded(packet, minSize);
            && r[..|packet|] == packet && r[|packet|] == 0x80
            && forall i :: |packet| < i < |r| ==> r[i] == 0
  {
  }

  /** `pad`: the padded packet, in the spare capacity of the packet if it fits; the
      packet's own bytes are untouched. */
  method Pad(packet: Slice, minSize: int) returns (r: Slice)
    requires Valid(packet)
    modifies packet.data
    ensures Valid(r) && Contents(r) == Padded(old(Contents(packet)), minSize)
    ensures Contents(packet) == old(Contents(packet))
    ensures r.data == packet.data || fresh(r.data)
  {
    ghost var p := Contents(packet);
    r := Append(packet, Delimiter);
    ghost var k := 0;
    while r.len < minSize
      invariant Valid(r) && (r.data == packet.data || fresh(r.data))
      invariant Contents(packet) == p
      invariant r.len == |p| + 1 + k && (k > 0 ==> r.len <= minSize)
      invariant Contents(r) == p + [Delimiter] + Zeros(k)
      decreases minSize - r.len
    {
      ghost var before := r;
      r := Append(r, 0);
      k := k + 1;
      assert Zeros(k) == Zeros(k - 1) + [0];
      assert r.data == packet.data ==> Contents(packet) == Contents(r)[..packet.len] == p;
    }
  }

  datatype PaddingError = ShortPacket | DelimiterNotFound

  function Unpadded(s: seq<byte>): Result<seq<byte>, PaddingError> {
    if s == [] then Err(ShortPacket)
    else if s[|s|-1] == Delimiter then Ok(s[..|s|-1])
    else if s[|s|-1] != 0 then Err(DelimiterNotFound)
    else Unpadded(s[..|s|-1])
  }

  method Unpad(packet: seq<byte>) returns (r: Result<seq<byte>, PaddingError>)
    ensures r == Unpadded(packet)
  {
    var i := |packet|;
    assert packet[..i] == packet;
    while true
      invariant 0 <= i <= |packet|
      invariant Unpadded(packet[..i]) == Unpadded(packet)
      decreases i
    {
      if i == 0 {
        return Err(ShortPacket);
      }
      i := i - 1;
      assert packet[..i+1][..i] == packet[..i];
      if packet[i] == Delimiter {
        return Ok(packet[..i]);
      } else if packet[i] != 0 {
        return Err(DelimiterNotFound);
      }
    }
  }

  lemma {:induction false} UnpaddedZeros(s: seq<byte>, n: nat)
    ensures Unpadded(s + Zeros(n)) == Unpadded(s)
  {
    if n > 0 {
      assert (s + Zeros(n))[..|s|+n-1] == s + Zeros(n - 1);
      UnpaddedZeros(s, n - 1);
    } else {
      assert s + Zeros(0) == s;
    }
  }

  /** Unpadding is exactly the inverse of padding: it succeeds with p on the padded
      forms of p, and on nothing else. */
  lemma {:induction false} UnpadInvertsPad(s: seq<byte>, p: seq<byte>)
    ensures Unpadded(s) == Ok(p) <==> s == Padded(p, |s|)
    decreases |s|
  {
    if s == Padded(p, |s|) {
      UnpaddedZeros(p + [Delimiter], Max(0, |s| - |p| - 1));
      assert (p + [Delimiter])[..|p|] == p;
    }
    if Unpadded(s) == Ok(p) {
      if s[|s|-1] == Delimiter {
        assert s == p + [Delimiter] + Zeros(0);
      } else {
        var init := s[..|s|-1];
        UnpadInvertsPad(init, p);
        assert |Padded(p, |init|)| == |init|;
        assert Zeros(|s| - |p| - 1) == Zeros(|init| - |p| - 1) + [0];
        assert s == init + [0];
      }
    }
  }

  lemma UnpadPad(p: seq<byte>, minSize: int)
    ensures Unpadded(Padded(p, minSize)) == Ok(p)
  {
    UnpadInvertsPad(Padded(p, minSize), p);
  }
}
