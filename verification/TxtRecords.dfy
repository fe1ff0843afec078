/** TXT strings in presentation form: the unescaper used on certificates, against
    the escaper of section 5.1 of RFC 1035 that produced them. */
module TxtRecords {
  import opened Common

  const Backslash: byte := 92
  const Quote: byte := 34

  predicate IsDigit(b: byte) { 48 <= b <= 57 }

  /** Three digits as a byte, in byte arithmetic that wraps at every operation. */
  function DddToByte(a: byte, b: byte, c: byte): byte {
    (((a - 48) % 256 * 100) % 256 + ((b - 48) % 256 * 10) % 256 + (c - 48) % 256) % 256
  }

  function Simple(b: byte): byte {
    if b == 116 then 9 else if b == 114 then 13 else if b == 110 then 10 else b
  }

  function Unescape(s: seq<byte>): seq<byte> {
    if s == [] then []
    else if s[0] != Backslash then [s[0]] + Unescape(s[1..])
    else if |s| == 1 then []
    else if |s| >= 4 && IsDigit(s[1]) && IsDigit(s[2]) && IsDigit(s[3])
    then [DddToByte(s[1], s[2], s[3])] + Unescape(s[4..])
    else [Simple(s[1])] + Unescape(s[2..])
  }

  lemma UnescapeAt(s: seq<byte>, i: int)
    requires 0 <= i < |s|
    ensures s[i] != Backslash ==> Unescape(s[i..]) == [s[i]] + Unescape(s[i+1..])
    ensures s[i] == Backslash && i + 1 == |s| ==> Unescape(s[i..]) == []
    ensures s[i] == Backslash && i + 1 < |s| ==>
              if i + 3 < |s| && IsDigit(s[i+1]) && IsDigit(s[i+2]) && IsDigit(s[i+3])
              then Unescape(s[i..]) == [DddToByte(s[i+1], s[i+2], s[i+3])] + Unescape(s[i+4..])
              else Unescape(s[i..]) == [Simple(s[i+1])] + Unescape(s[i+2..])
  {
  }

  lemma Shift(msg: seq<byte>, b: byte, rest: seq<byte>)
    ensures msg + ([b] + rest) == (msg + [b]) + rest
  {
  }

  /** `PackTXTRR`, with its index that skips ahead inside the loop. */
  method PackTXTRR(s: seq<byte>) returns (msg: seq<byte>)
    ensures msg == Unescape(s)
  {
    msg := [];
    var i := 0;
    while i < |s|
      invariant 0 <= i <= |s|
      invariant msg + Unescape(s[i..]) == Unescape(s)
    {
      UnescapeAt(s, i);
      var b := s[i];
      if s[i] == Backslash {
        i := i + 1;
        if i == |s| {
          break;
        }
        if i + 2 < |s| && IsDigit(s[i]) && IsDigit(s[i+1]) && IsDigit(s[i+2]) {
          b := DddToByte(s[i], s[i+1], s[i+2]);
          i := i + 2;
        } else {
          b := Simple(s[i]);
        }
      }
      i := i + 1;
      Shift(msg, b, Unescape(s[i..]));
      msg := msg + [b];
    }
  }

  // ---------------------------------------------------------------- the escaper

  function EscapeByte(b: byte): seq<byte> {
    if b == Quote || b == Backslash then [Backslash, b]
    else if b < 32 || b > 126 then [Backslash, 48 + b / 100, 48 + b / 10 % 10, 48 + b % 10]
    else [b]
  }

  function Escape(bs: seq<byte>): seq<byte> {
    if bs == [] then [] else EscapeByte(bs[0]) + Escape(bs[1..])
  }

  lemma DigitsDoNotWrap(a: int, b: int, c: int)
    requires 0 <= a <= 2 && 0 <= b <= 9 && 0 <= c <= 9 && 100 * a + 10 * b + c < 256
    ensures DddToByte(48 + a, 48 + b, 48 + c) == 100 * a + 10 * b + c
  {
    var x, y := a * 100, b * 10;
    assert x % 256 == x && y % 256 == y;
    assert a % 256 == a && b % 256 == b && c % 256 == c;
  }

  /** The three digits of a byte never wrap. */
  lemma DigitsRoundTrip(b: byte)
    ensures DddToByte(48 + b / 100, 48 + b / 10 % 10, 48 + b % 10) == b
  {
    var n: int := b;
    assert n == 100 * (n / 100) + 10 * (n / 10 % 10) + n % 10;
    DigitsDoNotWrap(n / 100, n / 10 % 10, n % 10);
  }

  lemma UnescapeOne(b: byte, rest: seq<byte>)
    ensures Unescape(EscapeByte(b) + rest) == [b] + Unescape(rest)
  {
    var s := EscapeByte(b) + rest;
    assert s[|EscapeByte(b)|..] == rest;
    if b < 32 || b > 126 { DigitsRoundTrip(b); }
  }

  lemma UnescapeFirst(bs: seq<byte>, rest: seq<byte>)
    requires bs != []
    ensures Unescape(Escape(bs) + rest) == [bs[0]] + Unescape(Escape(bs[1..]) + rest)
  {
    assert Escape(bs) + rest == EscapeByte(bs[0]) + (Escape(bs[1..]) + rest);
    UnescapeOne(bs[0], Escape(bs[1..]) + rest);
  }

  lemma FirstBack(bs: seq<byte>, rest: seq<byte>)
    requires bs != []
    ensures [bs[0]] + (bs[1..] + rest) == bs + rest
  {
  }

  lemma {:induction false} UnescapeEscape(bs: seq<byte>, rest: seq<byte>)
    ensures Unescape(Escape(bs) + rest) == bs + Unescape(rest)
  {
    if bs == [] {
      assert Escape(bs) + rest == rest;
    } else {
      UnescapeFirst(bs, rest);
      UnescapeEscape(bs[1..], rest);
      FirstBack(bs, Unescape(rest));
    }
  }

  function Concat(parts: seq<seq<byte>>): seq<byte> {
    if parts == [] then [] else parts[0] + Concat(parts[1..])
  }

  function EscapeAll(parts: seq<seq<byte>>): (r: seq<seq<byte>>)
    ensures |r| == |parts|
  {
    seq(|parts|, i requires 0 <= i < |parts| => Escape(parts[i]))
  }

  /** Unescaping undoes escaping, and joining separately escaped strings first gives
      the concatenation of the originals, wherever the data was cut. */
  lemma {:induction false} JoinedRoundTrip(parts: seq<seq<byte>>)
    ensures Unescape(Concat(EscapeAll(parts))) == Concat(parts)
  {
    if parts != [] {
      assert EscapeAll(parts)[1..] == EscapeAll(parts[1..]);
      UnescapeEscape(parts[0], Concat(EscapeAll(parts[1..])));
      JoinedRoundTrip(parts[1..]);
    }
  }

  /** Escapes the escaper itself never makes: an escaped t, r or n is a tab, a return or a
      newline, any other character that is not a digit is itself, a lone digit too, and a
      backslash at the end is dropped. */
  lemma OtherEscapes(c: byte, rest: seq<byte>)
    requires !IsDigit(c)
    ensures Unescape([92, c] + rest)
            == [if c == 116 then 9 else if c == 114 then 13 else if c == 110 then 10 else c] + Unescape(rest)
    ensures Unescape([92]) == []
    ensures forall d: byte :: IsDigit(d) ==> Unescape([92, d]) == [d]
  {
    assert ([92, c] + rest)[2..] == rest;
  }
}
