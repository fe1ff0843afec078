/** Two-byte length framing over TCP (section 4.2.2 of RFC 1035). */
module Framing {
  import opened Common
  import opened Slices

  function Prefixed(packet: seq<byte>): seq<byte>
    requires |packet| <= 0xffff
  {
    [|packet| / 256, |packet| % 256] + packet
  }

  /** `copy(packet[2:], packet[:n])`, on overlapping ranges. */
  method MoveUp(data: array<byte>, n: nat)
    requires n + 2 <= data.Length
    modifies data
    ensures data[2..n+2] == old(data[..n])
  {
    var i := n;
    while i > 0
      invariant 0 <= i <= n
      invariant forall k :: 0 <= k < i ==> data[k] == old(data[k])
      invariant forall k :: i <= k < n ==> data[k + 2] == old(data[k])
    {
      i := i - 1;
      data[i + 2] := data[i];
    }
  }

  method AppendTwo(packet: Slice) returns (s: Slice)
    requires Valid(packet)
    modifies packet.data
    ensures Valid(s) && s.len == packet.len + 2 && (s.data == packet.data || fresh(s.data))
    ensures s.data[..packet.len] == old(Contents(packet))
  {
    s := Append(packet, 0);
    s := Append(s, 0);
    assert s.data[..packet.len] == Contents(s)[..packet.len];
  }

  /** `PrefixWithSize`: two bytes are appended, the packet is moved up within its own
      buffer, and its length is written in front. */
  method PrefixWithSize(packet: Slice) returns (r: Option<Slice>)
    requires Valid(packet)
    modifies packet.data
    ensures r.None? <==> packet.len > 0xffff
    ensures r.Some? ==> Valid(r.value) && Contents(r.value) == Prefixed(old(Contents(packet)))
  {
    if packet.len > 0xffff {
      return None;
    }
    var n := packet.len;
    var s := AppendTwo(packet);
    MoveUp(s.data, n);
    s.data[0] := n / 256;
    s.data[1] := n % 256;
    assert s.data[..n+2] == s.data[..2] + s.data[2..n+2];
    return Some(s);
  }

  datatype ReadError = TooLarge | TooShort | Closed

  /** A connection: the bytes that will still arrive before it closes or fails, and
      those that arrive together with the failure. */
  class Conn {
    var pending: seq<byte>
    const lost: seq<byte>

    constructor (pending: seq<byte>, lost: seq<byte>)
      ensures this.pending == pending && this.lost == lost
    {
      this.pending, this.lost := pending, lost;
    }

    /** A read into buf[pos..] delivers any positive number of bytes that have arrived
        and fit, or fails, perhaps after writing some bytes as well. No read may be
        issued without room. */
    method Read(buf: array<byte>, pos: nat) returns (n: nat, failed: bool)
      requires pos < buf.Length
      modifies this, buf
      ensures failed <==> old(pending) == []
      ensures buf[..pos] == old(buf[..pos]) && pos + n <= buf.Length
      ensures !failed ==>
                && 0 < n <= |old(pending)| && pending == old(pending)[n..]
                && buf[pos..pos+n] == old(pending)[..n]
    {
      failed := pending == [];
      var source := if failed then lost else pending;
      var m :| (if failed then 0 else 1) <= m <= |source| && pos + m <= buf.Length;
      n := m;
      ghost var before := pending;
      for i := 0 to n
        invariant pending == before
        invariant buf[..pos] == old(buf[..pos])
        invariant buf[pos..pos+i] == source[..i]
      {
        buf[pos + i] := source[i];
      }
      if !failed {
        pending := pending[n..];
      }
    }
  }

  /** What a reader should make of a byte stream, whole. */
  function Unframe(stream: seq<byte>): Result<seq<byte>, ReadError> {
    if |stream| < 2 then Err(Closed)
    else
      var n := stream[0] as int * 256 + stream[1] as int;
      if n > MaxDNSPacketSize - 1 then Err(TooLarge)
      else if n < MinDNSPacketSize then Err(TooShort)
      else if |stream| < 2 + n then Err(Closed)
      else Ok(stream[2..2+n])
  }

  lemma SamePart(a: seq<byte>, b: seq<byte>, n: nat, lo: nat, hi: nat)
    requires lo <= hi <= n <= |a| && n <= |b| && a[..n] == b[..n]
    ensures a[lo..hi] == b[lo..hi]
  {
    assert a[lo..hi] == a[..n][lo..hi];
    assert b[lo..hi] == b[..n][lo..hi];
  }

  /** Bytes read so far, then one more read. */
  lemma Extended(buf: seq<byte>, stream: seq<byte>, pos: nat, n: nat)
    requires pos + n <= |buf| && pos + n <= |stream|
    requires buf[..pos] == stream[..pos] && buf[pos..pos+n] == stream[pos..][..n]
    ensures buf[..pos+n] == stream[..pos+n]
  {
  }

  /** `ReadPrefixed`: the result depends on the bytes only, not on how they are split
      into reads, and every read has room, so every read makes progress. */
  method ReadPrefixed(conn: Conn) returns (r: Result<seq<byte>, ReadError>)
    modifies conn
    ensures r == Unframe(old(conn.pending))
  {
    var buf := new byte[2 + MaxDNSPacketSize];
    var packetLength, pos := -1, 0;
    ghost var stream := conn.pending;
    while true
      invariant 0 <= pos <= buf.Length && pos <= |stream|
      invariant conn.pending == stream[pos..] && buf[..pos] == stream[..pos]
      invariant packetLength == if pos < 2 then -1 else stream[0] as int * 256 + stream[1] as int
      invariant packetLength >= 0 ==> MinDNSPacketSize <= packetLength <= MaxDNSPacketSize - 1 && pos < 2 + packetLength
      decreases buf.Length - pos
    {
      var n, failed := conn.Read(buf, pos);
      if failed {
        return Err(Closed);
      }
      Extended(buf[..], stream, pos, n);
      pos := pos + n;
      if pos >= 2 && packetLength < 0 {
        assert buf[..pos][0] == stream[0] && buf[..pos][1] == stream[1];
        packetLength := buf[0] as int * 256 + buf[1] as int;
        if packetLength > MaxDNSPacketSize - 1 {
          return Err(TooLarge);
        }
        if packetLength < MinDNSPacketSize {
          return Err(TooShort);
        }
      }
      if packetLength >= 0 && pos >= 2 + packetLength {
        SamePart(buf[..], stream, pos, 2, 2 + packetLength);
        return Ok(buf[2..2+packetLength]);
      }
    }
  }

  /** Reading what was framed, with anything behind it, gives the packet back,
      exactly for packets of 17 to 4095 bytes. */
  lemma UnframePrefixed(packet: seq<byte>, trailing: seq<byte>)
    requires |packet| <= 0xffff
    ensures Unframe(Prefixed(packet) + trailing) == Ok(packet) <==> 17 <= |packet| <= 4095
    ensures var f := Prefixed(packet); 256 * (f[0] as int) + f[1] as int == |packet| && f[2..] == packet
  {
  }

  /** Framed packets of other lengths are refused for their length, and a connection that
      ends anywhere inside a framed packet is reported as closed. */
  lemma UnframeErrors(packet: seq<byte>, k: nat)
    requires |packet| <= 0xffff && k <= |Prefixed(packet)|
    ensures |packet| > 4095 && k >= 2 ==> Unframe(Prefixed(packet)[..k]) == Err(TooLarge)
    ensures |packet| < 17 && k >= 2 ==> Unframe(Prefixed(packet)[..k]) == Err(TooShort)
    ensures k < 2 || (17 <= |packet| <= 4095 && k < |Prefixed(packet)|) ==>
              Unframe(Prefixed(packet)[..k]) == Err(Closed)
  {
    if k >= 2 {
      var stream := Prefixed(packet)[..k];
      assert stream[0] as int * 256 + stream[1] as int == |packet|;
    }
  }
}
