/** Frames and their wire format. */
module Frames {
  import opened Primitives
  import opened Wire
  import opened AckRanges

  datatype StreamType = Bidirectional | UnidirectionalOut | UnidirectionalIn

  datatype TransportParameters = TransportParameters(
    maxStreams: nat, initialStreamWindow: nat, initialMaxData: nat, maxDatagramSize: nat, idleTimeoutMs: nat)

  datatype Frame =
    | Padding(len: nat)
    | StreamData(id: nat, streamType: StreamType, offset: nat, data: seq<byte>)
    | AckFrame(largestAcked: nat, windowSize: nat, ackDelay: nat, ackRanges: seq<AckRange>)
    | ConnectionClose
    | Handshake(publicKey: seq<byte>, edPublicKey: seq<byte>, transcriptHash: seq<byte>, signature: seq<byte>,
                alpn: seq<byte>)
    | Cookie(cookie: seq<byte>)
    | StreamCloseFrame(id: nat, finalSize: nat)
    | MaxStreamDataFrame(id: nat, maxData: nat)
    | MaxData(maxData: nat)
    | DatagramFrame(data: seq<byte>)
    | PathChallenge(token: seq<byte>)
    | PathResponse(token: seq<byte>)
    | Crypto(offset: nat, data: seq<byte>)
    | MaxStreams(maxStreams: nat)
    | StreamsBlocked(maxStreams: nat)
    | Ping
    | ResetStreamFrame(id: nat, errorCode: nat, finalSize: nat)
    | StopSending(id: nat, errorCode: nat)
    | DataBlocked(maxData: nat)
    | StreamDataBlocked(id: nat, maxData: nat)
    | ConnectionCloseV2Frame(errorCode: nat, reason: seq<byte>)
    | Parameters(parameters: TransportParameters)

  function TypeToWire(t: StreamType): byte {
    match t
    case Bidirectional => 0
    case UnidirectionalOut => 1
    case UnidirectionalIn => 2
  }

  function TypeFromWire(b: byte): Option<StreamType> {
    match b
    case 0 => Some(Bidirectional)
    case 1 => Some(UnidirectionalOut)
    case 2 => Some(UnidirectionalIn)
    case _ => None
  }

  // ---------- encoding: the bytes of a frame in front of what follows ----------

  function Zeros(n: nat): (s: seq<byte>)
    ensures |s| == n
  {
    seq(n, _ => 0)
  }

  function PutU32(x: nat, tail: seq<byte>): seq<byte> { PutUint(4, x) + tail }

  function PutU64(x: nat, tail: seq<byte>): seq<byte> { PutUint(8, x) + tail }

  function PutVar(x: nat, tail: seq<byte>): seq<byte>
    requires x <= U64_MAX
  {
    PutVarint(x) + tail
  }

  /** A length as a varint and then the bytes themselves. */
  function PutSized(data: seq<byte>, tail: seq<byte>): seq<byte>
    requires |data| <= U64_MAX
  {
    PutVar(|data|, data + tail)
  }

  function PutRanges(rs: seq<AckRange>, tail: seq<byte>): seq<byte> {
    if rs == [] then tail else PutU64(rs[0].start, PutU64(rs[0].end, PutRanges(rs[1..], tail)))
  }

  predicate Bounded(rs: seq<AckRange>) {
    rs == [] || (rs[0].start <= U64_MAX && rs[0].end <= U64_MAX && Bounded(rs[1..]))
  }

  /** What the types of the source guarantee about a frame's fields. */
  predicate Typed(f: Frame) {
    match f
    case StreamData(id, _, offset, data) => id < 0x1_0000_0000 && offset <= U64_MAX && |data| <= U64_MAX
    case AckFrame(largest, window, delay, ranges) =>
      && largest <= U64_MAX && window < 0x1_0000_0000 && delay <= U64_MAX
      && Bounded(ranges)
    case Handshake(pk, ed, _, sig, _) => |pk| == 32 && |ed| == 32 && |sig| == 64
    case StreamCloseFrame(id, size) => id < 0x1_0000_0000 && size <= U64_MAX
    case MaxStreamDataFrame(id, max) => id < 0x1_0000_0000 && max <= U64_MAX
    case MaxData(max) => max <= U64_MAX
    case DatagramFrame(data) => |data| <= U64_MAX
    case PathChallenge(token) => |token| == 8
    case PathResponse(token) => |token| == 8
    case Crypto(offset, data) => offset <= U64_MAX && |data| <= U64_MAX
    case MaxStreams(max) => max <= U64_MAX
    case StreamsBlocked(max) => max <= U64_MAX
    case ResetStreamFrame(id, code, size) => id < 0x1_0000_0000 && code <= U64_MAX && size <= U64_MAX
    case StopSending(id, code) => id < 0x1_0000_0000 && code <= U64_MAX
    case DataBlocked(max) => max <= U64_MAX
    case StreamDataBlocked(id, max) => id < 0x1_0000_0000 && max <= U64_MAX
    case ConnectionCloseV2Frame(code, reason) => code <= U64_MAX && |reason| <= U64_MAX
    case Parameters(p) =>
      && p.maxStreams <= U64_MAX && p.initialStreamWindow <= U64_MAX && p.initialMaxData <= U64_MAX
      && p.maxDatagramSize < 0x1_0000_0000 && p.idleTimeoutMs <= U64_MAX
    case _ => true
  }

  predicate Ordered(rs: seq<AckRange>): (b: bool)
    ensures b ==> Bounded(rs)
  {
    rs == [] || (rs[0].start <= rs[0].end <= U64_MAX && Ordered(rs[1..]))
  }

  /** The frames the wire format can carry: varint fields below 2^62, lengths that fit their length
      field, at most 128 ranges with start at most end. */
  predicate Fits(f: Frame) {
    && Typed(f)
    && match f
       case Padding(len) => len > 0
       case StreamData(_, _, _, data) => |data| < VARINT_LIMIT
       case AckFrame(_, _, delay, ranges) => delay < VARINT_LIMIT && |ranges| <= MAX_ACK_RANGES && Ordered(ranges)
       case Handshake(_, _, hash, _, alpn) => |hash| < 0x1_0000 && |alpn| < 0x100
       case Cookie(cookie) => |cookie| < 0x1_0000
       case DatagramFrame(data) => |data| < VARINT_LIMIT
       case Crypto(_, data) => |data| < VARINT_LIMIT
       case ResetStreamFrame(_, code, size) => code < VARINT_LIMIT && size < VARINT_LIMIT
       case StopSending(_, code) => code < VARINT_LIMIT
       case DataBlocked(max) => max < VARINT_LIMIT
       case StreamDataBlocked(_, max) => max < VARINT_LIMIT
       case ConnectionCloseV2Frame(code, reason) => code < VARINT_LIMIT && |reason| < VARINT_LIMIT
       case _ => true
  }

  /** The bytes of a frame, followed by `tail`. Lengths of a handshake's hash and of a cookie are cut to
      16 bits, of its ALPN to 8; at most 128 ACK ranges are written. */
  function Put(f: Frame, tail: seq<byte>): seq<byte>
    requires Typed(f)
  {
    match f
    case Padding(len) => Zeros(len) + tail
    case StreamData(id, t, offset, data) => [0x01] + PutU32(id, [TypeToWire(t)] + PutU64(offset, PutSized(data, tail)))
    case AckFrame(largest, window, delay, ranges) =>
      var n := Min(|ranges|, MAX_ACK_RANGES);
      [0x02] + PutU64(largest, PutU32(window, PutVar(delay, [n] + PutRanges(ranges[..n], tail))))
    case ConnectionClose => [0x03] + tail
    case Handshake(pk, ed, hash, sig, alpn) =>
      [0x04] + (pk + (ed + (PutUint(2, |hash|) + (hash + (sig + ([|alpn| % 256] + (alpn + tail)))))))
    case Cookie(cookie) => [0x05] + (PutUint(2, |cookie|) + (cookie + tail))
    case StreamCloseFrame(id, size) => [0x06] + PutU32(id, PutU64(size, tail))
    case MaxStreamDataFrame(id, max) => [0x07] + PutU32(id, PutU64(max, tail))
    case MaxData(max) => [0x08] + PutU64(max, tail)
    case DatagramFrame(data) => [0x09] + PutSized(data, tail)
    case PathChallenge(token) => [0x0A] + (token + tail)
    case PathResponse(token) => [0x0B] + (token + tail)
    case Crypto(offset, data) => [0x0C] + PutU64(offset, PutSized(data, tail))
    case Ping => [0x0D] + tail
    case ResetStreamFrame(id, code, size) => [0x0E] + PutU32(id, PutVar(code, PutVar(size, tail)))
    case StopSending(id, code) => [0x0F] + PutU32(id, PutVar(code, tail))
    case DataBlocked(max) => [0x10] + PutVar(max, tail)
    case StreamDataBlocked(id, max) => [0x11] + PutU32(id, PutVar(max, tail))
    case MaxStreams(max) => [0x12] + PutU64(max, tail)
    case StreamsBlocked(max) => [0x13] + PutU64(max, tail)
    case ConnectionCloseV2Frame(code, reason) => [0x14] + PutVar(code, PutSized(reason, tail))
    case Parameters(p) =>
      [0x15] + PutU64(p.maxStreams, PutU64(p.initialStreamWindow, PutU64(p.initialMaxData,
        PutU32(p.maxDatagramSize, PutU64(p.idleTimeoutMs, tail)))))
  }

  // ---------- decoding ----------

  /** Number of zero bytes at the front. */
  function LeadingZeros(s: seq<byte>): (n: nat)
    ensures n <= |s|
  {
    if s == [] || s[0] != 0 then 0 else 1 + LeadingZeros(s[1..])
  }

  function U16(s: seq<byte>): (x: nat)
    requires 2 <= |s|
    ensures x < 0x1_0000
  {
    Sizes();
    Uint(s, 2)
  }

  function U32(s: seq<byte>): (x: nat)
    requires 4 <= |s|
    ensures x < 0x1_0000_0000
  {
    Sizes();
    Uint(s, 4)
  }

  function U64(s: seq<byte>): (x: nat)
    requires 8 <= |s|
    ensures x <= U64_MAX
  {
    Sizes();
    Uint(s, 8)
  }

  /** A varint length and that many bytes. */
  function GetSized(s: seq<byte>): (r: Parsed<seq<byte>>)
    ensures r.Parsed? ==> Consumes(s, r.rest, 0) && |r.value| < VARINT_LIMIT
  {
    var (len, s1) :- GetVarint(s);
    if |s1| < len then Malformed else Parsed(s1[..len], s1[len..])
  }

  function GetRanges(s: seq<byte>, n: nat): (r: Parsed<seq<AckRange>>)
    requires 16 * n <= |s|
    ensures r.Parsed? ==> r.rest == s[16 * n..] && |r.value| == n && Ordered(r.value)
    decreases n
  {
    if n == 0 then Parsed([], s)
    else
      var start, end := U64(s), U64(s[8..]);
      if start > end then Malformed
      else
        var (more, rest) :- GetRanges(s[16..], n - 1);
        Parsed([AckRange(start, end)] + more, rest)
  }

  function GetStream(s: seq<byte>): (r: Parsed<Frame>)
    ensures r.Parsed? ==> Consumes(s, r.rest, 0) && Fits(r.value)
  {
    if |s| < 14 then Malformed
    else
      match TypeFromWire(s[4])
      case None => Malformed
      case Some(t) =>
        var (data, rest) :- GetSized(s[5..][8..]);
        Parsed(StreamData(U32(s), t, U64(s[5..]), data), rest)
  }

  function GetAck(s: seq<byte>): (r: Parsed<Frame>)
    ensures r.Parsed? ==> Consumes(s, r.rest, 0) && Fits(r.value)
  {
    if |s| < 13 then Malformed
    else
      var (delay, s1) :- GetVarint(s[8..][4..]);
      if |s1| < 1 then Malformed
      else
        var n, s2 := s1[0], s1[1..];
        if n > MAX_ACK_RANGES then Malformed
        else if |s2| < n * 16 then Malformed
        else
          var (ranges, rest) :- GetRanges(s2, n);
          Parsed(AckFrame(U64(s), U32(s[8..]), delay, ranges), rest)
  }

  function GetHandshake(s: seq<byte>): (r: Parsed<Frame>)
    ensures r.Parsed? ==> Consumes(s, r.rest, 0) && Fits(r.value)
  {
    if |s| < 130 then Malformed
    else
      var s1 := s[32..];
      var s2 := s1[32..];
      var hashLen, s3 := U16(s2), s2[2..];
      if |s3| < hashLen + 64 then Malformed
      else
        var s4 := s3[hashLen..];
        var s5 := s4[64..];
        if |s5| < 1 then Malformed
        else
          var alpnLen, s6 := s5[0], s5[1..];
          if |s6| < alpnLen then Malformed
          else Parsed(Handshake(s[..32], s1[..32], s3[..hashLen], s4[..64], s6[..alpnLen]), s6[alpnLen..])
  }

  function GetCookie(s: seq<byte>): (r: Parsed<Frame>)
    ensures r.Parsed? ==> Consumes(s, r.rest, 0) && Fits(r.value)
  {
    if |s| < 2 then Malformed
    else
      var len, s1 := U16(s), s[2..];
      if |s1| < len then Malformed else Parsed(Cookie(s1[..len]), s1[len..])
  }

  function GetParameters(s: seq<byte>): (r: Parsed<Frame>)
    ensures r.Parsed? ==> Consumes(s, r.rest, 0) && Fits(r.value)
  {
    if |s| < 36 then Malformed
    else
      var s1 := s[8..];
      var s2 := s1[8..];
      var s3 := s2[8..];
      var s4 := s3[4..];
      Parsed(Parameters(TransportParameters(U64(s), U64(s1), U64(s2), U32(s3), U64(s4))), s4[8..])
  }

  function GetReset(s: seq<byte>): (r: Parsed<Frame>)
    ensures r.Parsed? ==> Consumes(s, r.rest, 0) && Fits(r.value)
  {
    if |s| < 4 then Malformed
    else
      var (code, s1) :- GetVarint(s[4..]);
      var (size, rest) :- GetVarint(s1);
      Parsed(ResetStreamFrame(U32(s), code, size), rest)
  }

  function GetCrypto(s: seq<byte>): (r: Parsed<Frame>)
    ensures r.Parsed? ==> Consumes(s, r.rest, 0) && Fits(r.value)
  {
    if |s| < 9 then Malformed
    else
      var (data, rest) :- GetSized(s[8..]);
      Parsed(Crypto(U64(s), data), rest)
  }

  function GetCloseV2(s: seq<byte>): (r: Parsed<Frame>)
    ensures r.Parsed? ==> Consumes(s, r.rest, 0) && Fits(r.value)
  {
    var (code, s1) :- GetVarint(s);
    var (reason, rest) :- GetSized(s1);
    Parsed(ConnectionCloseV2Frame(code, reason), rest)
  }

  /** A 32-bit id and a 64-bit value. */
  function GetIdAndU64(s: seq<byte>): (r: Parsed<(nat, nat)>)
    ensures r.Parsed? ==> Consumes(s, r.rest, 0) && r.value.0 < 0x1_0000_0000 && r.value.1 <= U64_MAX
  {
    if |s| < 12 then Malformed else Parsed((U32(s), U64(s[4..])), s[4..][8..])
  }

  function GetU64(s: seq<byte>): (r: Parsed<nat>)
    ensures r.Parsed? ==> Consumes(s, r.rest, 0) && r.value <= U64_MAX
  {
    if |s| < 8 then Malformed else Parsed(U64(s), s[8..])
  }

  /** A 32-bit id and a varint. */
  function GetIdAndVar(s: seq<byte>): (r: Parsed<(nat, nat)>)
    ensures r.Parsed? ==> Consumes(s, r.rest, 0) && r.value.0 < 0x1_0000_0000 && r.value.1 < VARINT_LIMIT
  {
    if |s| < 4 then Malformed
    else
      var (x, rest) :- GetVarint(s[4..]);
      Parsed((U32(s), x), rest)
  }

  function GetToken(s: seq<byte>): (r: Parsed<seq<byte>>)
    ensures r.Parsed? ==> Consumes(s, r.rest, 0) && |r.value| == 8
  {
    if |s| < 8 then Malformed else Parsed(s[..8], s[8..])
  }

  /** What follows a frame's type byte. */
  function DecodeBody(kind: byte, s: seq<byte>): (r: Parsed<Frame>)
    ensures r.Parsed? ==> Consumes(s, r.rest, 0)
  {
    match kind
    case 0x00 => var n := LeadingZeros(s); Parsed(Padding(1 + n), s[n..])
    case 0x01 => GetStream(s)
    case 0x02 => GetAck(s)
    case 0x03 => Parsed(ConnectionClose, s)
    case 0x04 => GetHandshake(s)
    case 0x05 => GetCookie(s)
    case 0x06 => var (p, rest) :- GetIdAndU64(s); Parsed(StreamCloseFrame(p.0, p.1), rest)
    case 0x07 => var (p, rest) :- GetIdAndU64(s); Parsed(MaxStreamDataFrame(p.0, p.1), rest)
    case 0x08 => var (x, rest) :- GetU64(s); Parsed(MaxData(x), rest)
    case 0x09 => var (data, rest) :- GetSized(s); Parsed(DatagramFrame(data), rest)
    case 0x0A => var (t, rest) :- GetToken(s); Parsed(PathChallenge(t), rest)
    case 0x0B => var (t, rest) :- GetToken(s); Parsed(PathResponse(t), rest)
    case 0x0C => GetCrypto(s)
    case 0x0D => Parsed(Ping, s)
    case 0x0E => GetReset(s)
    case 0x0F => var (p, rest) :- GetIdAndVar(s); Parsed(StopSending(p.0, p.1), rest)
    case 0x10 => var (x, rest) :- GetVarint(s); Parsed(DataBlocked(x), rest)
    case 0x11 => var (p, rest) :- GetIdAndVar(s); Parsed(StreamDataBlocked(p.0, p.1), rest)
    case 0x12 => var (x, rest) :- GetU64(s); Parsed(MaxStreams(x), rest)
    case 0x13 => var (x, rest) :- GetU64(s); Parsed(StreamsBlocked(x), rest)
    case 0x14 => GetCloseV2(s)
    case 0x15 => GetParameters(s)
    case _ => Malformed
  }

  /** One frame off the front of the buffer; it always takes at least one byte. */
  function DecodeFrame(src: seq<byte>): (r: Parsed<Frame>)
    ensures r.Parsed? ==> Consumes(src, r.rest, 1)
  {
    if |src| < 1 then Malformed else DecodeBody(src[0], src[1..])
  }
}
