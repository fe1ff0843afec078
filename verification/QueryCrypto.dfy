/** Sizes and layout of encrypted queries and responses. Sealing and opening are
    parameters, bound only by "open undoes seal" and the length of the tag. */
module QueryCrypto {
  import opened Common
  import opened Slices
  import opened Padding
  import opened QuestionSize

  const HalfNonceSize: nat := 12
  const TagSize: nat := 16
  const PublicKeySize: nat := 32
  const ClientMagicLen: nat := 8
  const QueryOverhead: nat := ClientMagicLen + PublicKeySize + HalfNonceSize + TagSize
  const MaxDNSUDPSafePacketSize: nat := 1252
  const ServerMagic: seq<byte> := [0x72, 0x36, 0x66, 0x6e, 0x76, 0x57, 0x6a, 0x38]

  type Bytes = seq<byte>

  datatype Proto = Udp | Tcp

  /** The server as far as sizes and layout depend on it. */
  datatype Server = Server(magicQuery: Bytes, fragmentsBlocked: bool, relayed: bool)

  /** Authenticated encryption under one shared key: nonce, message. */
  datatype Cipher = Cipher(seal: (Bytes, Bytes) -> Bytes, open: (Bytes, Bytes) -> Option<Bytes>)

  ghost predicate Lawful(c: Cipher) {
    && (forall n, m :: |c.seal(n, m)| == |m| + TagSize)
    && (forall n, m :: c.open(n, c.seal(n, m)) == Some(m))
  }

  // ---------------------------------------------------------------- query sizes

  /** `x &^ 63` on a non-negative integer. */
  function ClearLowBits(x: nat): nat { x - x % 64 }

  /** The length a query of n bytes is padded to. `min` is the estimator's minimum,
      `xpad` the random byte drawn for TCP. */
  function PaddedLength(server: Server, proto: Proto, n: nat, min: int, xpad: byte): int {
    var question := if proto == Udp then Max(min, QueryOverhead + n) else QueryOverhead + n + xpad;
    if server.fragmentsBlocked && proto == Udp then MaxDNSUDPSafePacketSize
    else if server.relayed && proto == Tcp then MaxDNSPacketSize
    else Min(MaxDNSUDPPacketSize, ClearLowBits(Max(question, QueryOverhead) + 1 + 63))
  }

  /** The largest packet that can be sent. */
  function Capacity(server: Server, proto: Proto): nat {
    if server.fragmentsBlocked && proto == Udp then 1183 else 4027
  }

  /** Whatever the estimator and the random byte, a packet fits exactly up to the
      capacity, and the padded length is a multiple of 64 up to 4096, or 1252. */
  lemma SizesAreExact(server: Server, proto: Proto, n: nat, min: int, xpad: byte)
    requires Sane(min)
    ensures var len := PaddedLength(server, proto, n, min, xpad);
            && (QueryOverhead + n + 1 > len <==> n > Capacity(server, proto))
            && (if server.fragmentsBlocked && proto == Udp then len == 1252 else len % 64 == 0 && 0 < len <= 4096)
  {
  }

  /** Without a special case for the server, the padded length is the least multiple of
      64 above the question's size, which over UDP is at least the estimator's minimum and
      over TCP includes the random padding, but never over 4096. */
  lemma PaddingIsTight(proto: Proto, magic: Bytes, n: nat, min: int, xpad: byte)
    requires Sane(min)
    ensures var len := PaddedLength(Server(magic, false, false), proto, n, min, xpad);
            var size := if proto == Udp && min > 68 + n then min else 68 + n + if proto == Tcp then xpad else 0;
            len % 64 == 0 && (if size < 4096 then size < len <= size + 64 else len == 4096)
  {
  }

  /** Servers that block fragments get 1252 bytes over UDP, relayed ones 4096 over TCP. */
  lemma SpecialLengths(magic: Bytes, n: nat, min: int, xpad: byte, flag: bool)
    ensures PaddedLength(Server(magic, true, flag), Udp, n, min, xpad) == 1252
    ensures PaddedLength(Server(magic, flag, true), Tcp, n, min, xpad) == 4096
  {
  }

  datatype EncryptError = TooLarge

  function Nonce(clientNonce: Bytes): Bytes { clientNonce + Zeros(HalfNonceSize) }

  /** Twenty-four bytes: the client's half and twelve zeros. */
  lemma NonceLayout(clientNonce: Bytes)
    requires |clientNonce| == 12
    ensures |Nonce(clientNonce)| == 24 && Nonce(clientNonce)[..12] == clientNonce
    ensures forall i :: 12 <= i < 24 ==> Nonce(clientNonce)[i] == 0
  {
  }

  /** How a resolver reads a query: client magic, public key, half a nonce, sealed
      and padded packet. */
  function OpenQuery(cipher: Cipher, encrypted: Bytes): Option<Bytes> {
    if |encrypted| < QueryOverhead then None
    else
      var plain := cipher.open(Nonce(encrypted[40..52]), encrypted[52..]);
      if plain.None? then None
      else match Unpadded(plain.value)
           case Ok(p) => Some(p)
           case Err(_) => None
  }

  /** A well-formed encrypted query of the given total length for a packet. */
  ghost predicate IsQueryFor(cipher: Cipher, server: Server, publicKey: Bytes, clientNonce: Bytes,
                             packet: Bytes, len: int, encrypted: Bytes) {
    && |encrypted| == len && len >= QueryOverhead
    && encrypted[..8] == server.magicQuery && encrypted[8..40] == publicKey && encrypted[40..52] == clientNonce
    && OpenQuery(cipher, encrypted) == Some(packet)
  }

  lemma LayoutOpens(cipher: Cipher, server: Server, publicKey: Bytes, clientNonce: Bytes, packet: Bytes, len: int)
    requires Lawful(cipher)
    requires |server.magicQuery| == ClientMagicLen && |publicKey| == PublicKeySize && |clientNonce| == HalfNonceSize
    requires QueryOverhead + |packet| + 1 <= len
    ensures var sealed := cipher.seal(Nonce(clientNonce), Padded(packet, len - QueryOverhead));
            IsQueryFor(cipher, server, publicKey, clientNonce, packet, len,
                       server.magicQuery + publicKey + clientNonce + sealed)
  {
    var padded := Padded(packet, len - QueryOverhead);
    var sealed := cipher.seal(Nonce(clientNonce), padded);
    var e := server.magicQuery + publicKey + clientNonce + sealed;
    assert e[..8] == server.magicQuery && e[8..40] == publicKey && e[40..52] == clientNonce && e[52..] == sealed;
    UnpadPad(packet, len - QueryOverhead);
  }

  /** The size computation of `Encrypt`. */
  method ComputePaddedLength(server: Server, proto: Proto, n: nat, min: int, xpad: byte) returns (paddedLength: int)
    requires Sane(min)
    ensures paddedLength == PaddedLength(server, proto, n, min, xpad)
  {
    var minQuestionSize := QueryOverhead + n;
    if proto == Udp {
      minQuestionSize := Max(min, minQuestionSize);
    } else {
      minQuestionSize := minQuestionSize + xpad;
    }
    paddedLength := Min(MaxDNSUDPPacketSize, ClearLowBits(Max(minQuestionSize, QueryOverhead) + 1 + 63));
    if server.fragmentsBlocked && proto == Udp {
      paddedLength := MaxDNSUDPSafePacketSize;
    } else if server.relayed && proto == Tcp {
      paddedLength := MaxDNSPacketSize;
    }
  }

  /** `Encrypt`, once keys and random bytes are drawn. It fails exactly for packets
      over the capacity; otherwise the query has exactly the padded length and opens
      to the packet. The packet's own bytes survive, for a retry over TCP. */
  method Encrypt(cipher: Cipher, server: Server, publicKey: Bytes, clientNonce: Bytes, packet: Slice, proto: Proto,
                 estimator: QuestionSizeEstimator, xpad: byte)
    returns (r: Result<Bytes, EncryptError>)
    requires Lawful(cipher) && Valid(packet) && estimator.Valid()
    requires |server.magicQuery| == ClientMagicLen && |publicKey| == PublicKeySize && |clientNonce| == HalfNonceSize
    modifies packet.data
    ensures Contents(packet) == old(Contents(packet))
    ensures estimator.Valid()
    ensures r.Err? <==> packet.len > Capacity(server, proto)
    ensures r.Ok? ==>
              IsQueryFor(cipher, server, publicKey, clientNonce, old(Contents(packet)),
                         PaddedLength(server, proto, packet.len, estimator.minQuestionSize, xpad), r.value)
  {
    var paddedLength := ComputePaddedLength(server, proto, packet.len, estimator.minQuestionSize, xpad);
    SizesAreExact(server, proto, packet.len, estimator.minQuestionSize, xpad);
    if QueryOverhead + packet.len + 1 > paddedLength {
      return Err(TooLarge);
    }
    LayoutOpens(cipher, server, publicKey, clientNonce, Contents(packet), paddedLength);
    var padded := Pad(packet, paddedLength - QueryOverhead);
    r := Ok(server.magicQuery + publicKey + clientNonce + cipher.seal(Nonce(clientNonce), padded.data[..padded.len]));
  }

  /** The random material of one attempt: nonce and TCP padding. */
  datatype Draw = Draw(clientNonce: Bytes, xpad: byte)

  /** Encrypting for the preferred protocol, and again for TCP when it does not fit
      UDP: only packets no protocol can carry fail, and both attempts see the same
      packet although padding works in the packet's buffer. */
  method EncryptWithFallback(cipher: Cipher, server: Server, publicKey: Bytes, packet: Slice, proto: Proto,
                             estimator: QuestionSizeEstimator, first: Draw, second: Draw)
    returns (r: Result<Bytes, EncryptError>, used: Proto)
    requires Lawful(cipher) && Valid(packet) && estimator.Valid()
    requires |server.magicQuery| == ClientMagicLen && |publicKey| == PublicKeySize
    requires |first.clientNonce| == HalfNonceSize && |second.clientNonce| == HalfNonceSize
    modifies packet.data
    ensures Contents(packet) == old(Contents(packet))
    ensures r.Err? <==> packet.len > 4027
    ensures used == if proto == Udp && packet.len <= Capacity(server, Udp) then Udp else Tcp
    ensures r.Ok? ==> |r.value| <= 4096 && OpenQuery(cipher, r.value) == Some(old(Contents(packet)))
  {
    used := proto;
    r := Encrypt(cipher, server, publicKey, first.clientNonce, packet, used, estimator, first.xpad);
    if r.Err? && used == Udp {
      used := Tcp;
      r := Encrypt(cipher, server, publicKey, second.clientNonce, packet, used, estimator, second.xpad);
      SizesAreExact(server, Tcp, packet.len, estimator.minQuestionSize, second.xpad);
    }
    SizesAreExact(server, proto, packet.len, estimator.minQuestionSize, first.xpad);
  }

  // ---------------------------------------------------------------- responses

  /** The eight letters that open every response. */
  lemma ServerMagicSpelled()
    ensures |ServerMagic| == 8 && forall i :: 0 <= i < 8 ==> ServerMagic[i] as int == "r6fnvWj8"[i] as int
  {
    assert "r6fnvWj8"[0] as int == 0x72 && "r6fnvWj8"[1] as int == 0x36 && "r6fnvWj8"[2] as int == 0x66;
    assert "r6fnvWj8"[3] as int == 0x6e && "r6fnvWj8"[4] as int == 0x76 && "r6fnvWj8"[5] as int == 0x57;
    assert "r6fnvWj8"[6] as int == 0x6a && "r6fnvWj8"[7] as int == 0x38;
  }

  datatype DecryptError = InvalidSizeOrPrefix | UnexpectedNonce | IncorrectTag | IncorrectPadding

  const ResponseHeaderLen: nat := 32

  /** How a resolver lays out a response: magic, both nonce halves, sealed and padded packet. */
  function Respond(cipher: Cipher, clientNonce: Bytes, serverNonce: Bytes, packet: Bytes, minSize: int): Bytes {
    ServerMagic + clientNonce + serverNonce + cipher.seal(clientNonce + serverNonce, Padded(packet, minSize))
  }

  /** What `Decrypt` accepts, and as which packet. */
  ghost predicate IsResponse(cipher: Cipher, encrypted: Bytes, clientNonce: Bytes, packet: Bytes) {
    && ResponseHeaderLen + TagSize + MinDNSPacketSize <= |encrypted| <= ResponseHeaderLen + TagSize + MaxDNSPacketSize
    && encrypted[..8] == ServerMagic && encrypted[8..20] == clientNonce
    && |packet| >= MinDNSPacketSize
    && exists minSize :: cipher.open(encrypted[8..32], encrypted[32..]) == Some(Padded(packet, minSize))
  }

  ghost predicate LooksLikeResponse(encrypted: Bytes) {
    && ResponseHeaderLen + TagSize + MinDNSPacketSize <= |encrypted| <= ResponseHeaderLen + TagSize + MaxDNSPacketSize
    && encrypted[..8] == ServerMagic
  }

  method Decrypt(cipher: Cipher, encrypted: Bytes, clientNonce: Bytes) returns (r: Result<Bytes, DecryptError>)
    requires |clientNonce| == HalfNonceSize
    ensures forall packet :: r == Ok(packet) <==> IsResponse(cipher, encrypted, clientNonce, packet)
    ensures r == Err(InvalidSizeOrPrefix) <==> !LooksLikeResponse(encrypted)
    ensures r == Err(UnexpectedNonce) <==> LooksLikeResponse(encrypted) && encrypted[8..20] != clientNonce
    ensures r == Err(IncorrectTag) <==>
              && LooksLikeResponse(encrypted) && encrypted[8..20] == clientNonce
              && cipher.open(encrypted[8..32], encrypted[32..]).None?
  {
    if |encrypted| < ResponseHeaderLen + TagSize + MinDNSPacketSize ||
       |encrypted| > ResponseHeaderLen + TagSize + MaxDNSPacketSize ||
       encrypted[..8] != ServerMagic {
      return Err(InvalidSizeOrPrefix);
    }
    var serverNonce := encrypted[8..32];
    assert serverNonce[..HalfNonceSize] == encrypted[8..20];
    if clientNonce != serverNonce[..HalfNonceSize] {
      return Err(UnexpectedNonce);
    }
    var plain := cipher.open(serverNonce, encrypted[32..]);
    if plain.None? {
      return Err(IncorrectTag);
    }
    var packet := Unpad(plain.value);
    forall p, minSize | plain.value == Padded(p, minSize) ensures packet == Ok(p) {
      UnpadPad(p, minSize);
    }
    if packet.Ok? {
      UnpadInvertsPad(plain.value, packet.value);
    }
    if packet.Err? || |packet.value| < MinDNSPacketSize {
      return Err(IncorrectPadding);
    }
    return Ok(packet.value);
  }

  /** Every response a resolver builds for this nonce is accepted as its packet,
      exactly when the packet is long enough and its padded form not too long. */
  lemma DecryptInvertsRespond(cipher: Cipher, clientNonce: Bytes, serverNonce: Bytes, packet: Bytes, minSize: int)
    requires Lawful(cipher) && |clientNonce| == HalfNonceSize && |serverNonce| == HalfNonceSize
    ensures IsResponse(cipher, Respond(cipher, clientNonce, serverNonce, packet, minSize), clientNonce, packet)
            <==> |packet| >= MinDNSPacketSize && |Padded(packet, minSize)| <= MaxDNSPacketSize
  {
    var e := Respond(cipher, clientNonce, serverNonce, packet, minSize);
    assert e[..8] == ServerMagic && e[8..20] == clientNonce && e[8..32] == clientNonce + serverNonce;
    assert e[32..] == cipher.seal(clientNonce + serverNonce, Padded(packet, minSize));
  }
}
