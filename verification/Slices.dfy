/** Byte slices with spare capacity, as far as appending can reach: a backing array
    and a length. Appending writes into the spare capacity when there is some. */
module Slices {
  import opened Common

  datatype Slice = Slice(data: array<byte>, len: nat)

  ghost predicate Valid(s: Slice) { s.len <= s.data.Length }

  ghost function Contents(s: Slice): (r: seq<byte>)
    requires Valid(s)
    reads s.data
    ensures |r| == s.len
  {
    s.data[..s.len]
  }

  /** Appending never disturbs the bytes the slice already has. */
  method Append(s: Slice, b: byte) returns (r: Slice)
    requires Valid(s)
    modifies s.data
    ensures Valid(r) && r.len == s.len + 1
    ensures Contents(r) == old(Contents(s)) + [b]
    ensures Contents(s) == old(Contents(s))
    ensures r.data == s.data || fresh(r.data)
  {
    if s.len < s.data.Length {
      s.data[s.len] := b;
      r := Slice(s.data, s.len + 1);
    } else {
      var grown := new byte[2 * s.len + 1];
      for i := 0 to s.len
        invariant s.data[..] == old(s.data[..])
        invariant grown[..i] == s.data[..i]
      {
        grown[i] := s.data[i];
      }
      grown[s.len] := b;
      r := Slice(grown, s.len + 1);
    }
    assert r.data[..s.len] == old(s.data[..s.len]);
    assert r.data[..s.len+1] == r.data[..s.len] + [b];
  }
}
