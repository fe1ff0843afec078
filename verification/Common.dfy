/** Small shared vocabulary: bytes, optional values, integer minimum and maximum, and
    the packet size limits. */
module Common {

  type byte = x: int | 0 <= x < 256

  datatype Option<+T> = None | Some(value: T)

  datatype Result<+T, +E> = Ok(value: T) | Err(error: E)

  const MinDNSPacketSize: nat := 17
  const MaxDNSPacketSize: nat := 4096

  ghost predicate NoDuplicates<T>(xs: seq<T>) { forall i, j :: 0 <= i < j < |xs| ==> xs[i] != xs[j] }

  function Min(a: int, b: int): int { if a < b then a else b }

  function Max(a: int, b: int): int { if a > b then a else b }
}
