/** The frame encoder and decoder as the loops over a buffer that the protocol runs. */
module FrameBuffer {
  import opened Primitives
  import opened Wire
  import opened AckRanges
  import opened Frames
  import opened FrameCodec

  // ---------- encoding appends ----------

  lemma Assoc(a: seq<byte>, b: seq<byte>, c: seq<byte>)
    ensures a + (b + c) == (a + b) + c
  {
  }

  lemma U32Tail(x: nat, s: seq<byte>, tail: seq<byte>)
    ensures PutU32(x, s + tail) == PutU32(x, s) + tail
  {
  }

  lemma U64Tail(x: nat, s: seq<byte>, tail: seq<byte>)
    ensures PutU64(x, s + tail) == PutU64(x, s) + tail
  {
  }

  lemma VarTail(x: nat, s: seq<byte>, tail: seq<byte>)
    requires x <= U64_MAX
    ensures PutVar(x, s + tail) == PutVar(x, s) + tail
  {
  }

  lemma {:induction false} RangesTail(rs: seq<AckRange>, tail: seq<byte>)
    ensures PutRanges(rs, tail) == PutRanges(rs, []) + tail
  {
    hide PutU64;
    if rs != [] {
      var more := PutRanges(rs[1..], []);
      RangesTail(rs[1..], tail);
      U64Tail(rs[0].end, more, tail);
      U64Tail(rs[0].start, PutU64(rs[0].end, more), tail);
    }
  }

  lemma StreamTail(f: Frame, tail: seq<byte>)
    requires f.StreamData? && Typed(f)
    ensures Put(f, tail) == Put(f, []) + tail
  {
  }

  lemma AckTail(f: Frame, tail: seq<byte>)
    requires f.AckFrame? && Typed(f)
    ensures Put(f, tail) == Put(f, []) + tail
  {
    hide PutU32, PutU64, PutVar, PutRanges;
    var n := Min(|f.ackRanges|, MAX_ACK_RANGES);
    var t0 := PutRanges(f.ackRanges[..n], []);
    var t1 := [n] + t0;
    var t2 := PutVar(f.ackDelay, t1);
    var t3 := PutU32(f.windowSize, t2);
    RangesTail(f.ackRanges[..n], tail);
    Assoc([n], t0, tail);
    VarTail(f.ackDelay, t1, tail);
    U32Tail(f.windowSize, t2, tail);
    U64Tail(f.largestAcked, t3, tail);
    Assoc([0x02], PutU64(f.largestAcked, t3), tail);
  }

  lemma HandshakeTail(f: Frame, tail: seq<byte>)
    requires f.Handshake? && Typed(f)
    ensures Put(f, tail) == Put(f, []) + tail
  {
  }

  lemma ParametersTail(f: Frame, tail: seq<byte>)
    requires f.Parameters? && Typed(f)
    ensures Put(f, tail) == Put(f, []) + tail
  {
  }

  lemma BareTail(f: Frame, tail: seq<byte>)
    requires f.ConnectionClose? || f.Ping? || f.PathChallenge? || f.PathResponse? || f.DatagramFrame? || f.Cookie?
    requires Typed(f)
    ensures Put(f, tail) == Put(f, []) + tail
  {
  }

  lemma NumberTail(f: Frame, tail: seq<byte>)
    requires (f.MaxData? || f.MaxStreams? || f.StreamsBlocked? || f.DataBlocked?) && Typed(f)
    ensures Put(f, tail) == Put(f, []) + tail
  {
  }

  lemma WithIdTail(f: Frame, tail: seq<byte>)
    requires (f.StreamCloseFrame? || f.MaxStreamDataFrame? || f.StopSending? || f.StreamDataBlocked?) && Typed(f)
    ensures Put(f, tail) == Put(f, []) + tail
  {
  }

  lemma SizedTail(data: seq<byte>, tail: seq<byte>)
    requires |data| <= U64_MAX
    ensures PutSized(data, tail) == PutSized(data, []) + tail
  {
    hide PutVar;
    assert data + [] == data;
    VarTail(|data|, data, tail);
  }

  lemma MixedTail(f: Frame, tail: seq<byte>)
    requires (f.ResetStreamFrame? || f.Crypto? || f.ConnectionCloseV2Frame? || f.Padding?) && Typed(f)
    ensures Put(f, tail) == Put(f, []) + tail
  {
    hide PutU32, PutU64, PutVar, PutSized;
    var e: seq<byte> := [];
    assert e + tail == tail;
    match f
    case Padding(n) => assert Zeros(n) + e == Zeros(n);
    case ResetStreamFrame(id, code, size) =>
      VarTail(size, e, tail);
      VarTail(code, PutVar(size, e), tail);
      U32Tail(id, PutVar(code, PutVar(size, e)), tail);
      Assoc([0x0E], PutU32(id, PutVar(code, PutVar(size, e))), tail);
    case Crypto(offset, data) =>
      SizedTail(data, tail);
      U64Tail(offset, PutSized(data, e), tail);
      Assoc([0x0C], PutU64(offset, PutSized(data, e)), tail);
    case ConnectionCloseV2Frame(code, reason) =>
      SizedTail(reason, tail);
      VarTail(code, PutSized(reason, e), tail);
      Assoc([0x14], PutVar(code, PutSized(reason, e)), tail);
  }

  /** Encoding a frame appends: its bytes do not depend on what follows. */
  lemma PutTail(f: Frame, tail: seq<byte>)
    requires Typed(f)
    ensures Put(f, tail) == Put(f, []) + tail
  {
    hide Put, Typed;
    if f.StreamData? { StreamTail(f, tail); }
    else if f.AckFrame? { AckTail(f, tail); }
    else if f.Handshake? { HandshakeTail(f, tail); }
    else if f.Parameters? { ParametersTail(f, tail); }
    else if f.MaxData? || f.MaxStreams? || f.StreamsBlocked? || f.DataBlocked? { NumberTail(f, tail); }
    else if f.StreamCloseFrame? || f.MaxStreamDataFrame? || f.StopSending? || f.StreamDataBlocked? {
      WithIdTail(f, tail);
    }
    else if f.ResetStreamFrame? || f.Crypto? || f.ConnectionCloseV2Frame? || f.Padding? { MixedTail(f, tail); }
    else { BareTail(f, tail); }
  }

  /** Encoding one more frame behind a payload. */
  lemma {:induction false} EncodeAppends(fs: seq<Frame>, f: Frame)
    requires AllTyped(fs) && Typed(f)
    ensures AllTyped(fs + [f]) && EncodeAll(fs + [f]) == EncodeAll(fs) + Put(f, [])
  {
    hide Put, Typed;
    if fs == [] {
      assert fs + [f] == [f] && [f][1..] == [];
      assert EncodeAll([f]) == Put(f, EncodeAll([]));
    } else {
      EncodeAppends(fs[1..], f);
      assert (fs + [f])[1..] == fs[1..] + [f];
      var bytes := Put(f, []);
      PutTail(fs[0], EncodeAll(fs[1..]));
      PutTail(fs[0], EncodeAll(fs[1..]) + bytes);
      Assoc(Put(fs[0], []), EncodeAll(fs[1..]), bytes);
    }
  }

  method WritePadding(dst: seq<byte>, len: nat) returns (out: seq<byte>)
    ensures out == dst + Zeros(len)
  {
    out := dst;
    for i := 0 to len
      invariant out == dst + Zeros(i)
    {
      out := out + [0];
    }
  }

  method WriteRanges(dst: seq<byte>, ranges: seq<AckRange>) returns (out: seq<byte>)
    ensures out == dst + PutRanges(ranges, [])
  {
    hide PutU64;
    out := dst;
    for i := 0 to |ranges|
      invariant out + PutRanges(ranges[i..], []) == dst + PutRanges(ranges, [])
    {
      var r := ranges[i];
      ghost var more := PutRanges(ranges[i + 1..], []);
      RangeWritten(r, ranges[i..], ranges[i + 1..]);
      Assoc(out, PutU64(r.start, PutU64(r.end, [])), more);
      out := out + PutU64(r.start, PutU64(r.end, []));
    }
    assert PutRanges(ranges[|ranges|..], []) == [];
  }

  lemma RangeWritten(r: AckRange, rs: seq<AckRange>, more: seq<AckRange>)
    requires rs != [] && rs[0] == r && rs[1..] == more
    ensures PutRanges(rs, []) == PutU64(r.start, PutU64(r.end, [])) + PutRanges(more, [])
  {
  }

  /** Appends a frame to a buffer. */
  method Encode(f: Frame, dst: seq<byte>) returns (out: seq<byte>)
    requires Typed(f)
    ensures out == dst + Put(f, [])
  {
    hide PutU32, PutU64, PutVar, PutRanges;
    match f {
      case Padding(len) =>
        out := WritePadding(dst, len);
        assert Zeros(len) + [] == Zeros(len);
      case AckFrame(largest, window, delay, ranges) =>
        var n := Min(|ranges|, MAX_ACK_RANGES);
        var head := [0x02] + PutU64(largest, PutU32(window, PutVar(delay, [n])));
        AckHead(f, n);
        Assoc(dst, head, PutRanges(ranges[..n], []));
        out := WriteRanges(dst + head, ranges[..n]);
      case _ =>
        out := dst + Put(f, []);
    }
  }

  lemma AckHead(f: Frame, n: nat)
    requires f.AckFrame? && Typed(f) && n == Min(|f.ackRanges|, MAX_ACK_RANGES)
    ensures Put(f, []) == [0x02] + PutU64(f.largestAcked, PutU32(f.windowSize, PutVar(f.ackDelay, [n])))
                          + PutRanges(f.ackRanges[..n], [])
  {
  }

  // ---------- decoding consumes ----------

  method SkipZeros(src: seq<byte>) returns (n: nat, rest: seq<byte>)
    ensures n == LeadingZeros(src) && rest == src[n..]
  {
    n, rest := 0, src;
    while |rest| > 0 && rest[0] == 0
      invariant n <= |src| && rest == src[n..]
      invariant n + LeadingZeros(rest) == LeadingZeros(src)
      decreases |rest|
    {
      n, rest := n + 1, rest[1..];
    }
  }

  method ReadRanges(src: seq<byte>, count: nat) returns (r: Parsed<seq<AckRange>>)
    requires 16 * count <= |src|
    ensures r == GetRanges(src, count)
  {
    hide U64, GetRanges, Prepend;
    var ranges, rest := [], src;
    PrependNone(GetRanges(src, count));
    for i := 0 to count
      invariant 16 * (count - i) <= |rest|
      invariant GetRanges(src, count) == Prepend(ranges, GetRanges(rest, count - i))
    {
      var start, end := U64(rest), U64(rest[8..]);
      RangeRead(ranges, rest, count - i);
      if start > end {
        return Malformed;
      }
      ranges, rest := ranges + [AckRange(start, end)], rest[16..];
    }
    RangesDone(ranges, rest);
    return Parsed(ranges, rest);
  }

  ghost function Prepend(rs: seq<AckRange>, p: Parsed<seq<AckRange>>): Parsed<seq<AckRange>> {
    match p
    case Malformed => Malformed
    case Parsed(more, rest) => Parsed(rs + more, rest)
  }

  lemma PrependNone(p: Parsed<seq<AckRange>>)
    ensures Prepend([], p) == p
  {
    if p.Parsed? { assert [] + p.value == p.value; }
  }

  lemma RangesDone(rs: seq<AckRange>, s: seq<byte>)
    ensures Prepend(rs, GetRanges(s, 0)) == Parsed(rs, s)
  {
    assert rs + [] == rs;
  }

  lemma RangeRead(rs: seq<AckRange>, s: seq<byte>, n: nat)
    requires 0 < n && 16 * n <= |s|
    ensures var start, end := U64(s), U64(s[8..]);
            Prepend(rs, GetRanges(s, n))
            == if start > end then Malformed else Prepend(rs + [AckRange(start, end)], GetRanges(s[16..], n - 1))
  {
    hide U64;
    var a := AckRange(U64(s), U64(s[8..]));
    var more := GetRanges(s[16..], n - 1);
    if more.Parsed? { assert rs + ([a] + more.value) == rs + [a] + more.value; }
  }

  /** Takes one frame off a buffer. */
  method Decode(src: seq<byte>) returns (r: Parsed<Frame>)
    ensures r == DecodeFrame(src)
  {
    hide Consumes, GetVarint, GetRanges, U32, U64, LeadingZeros, Fits;
    if |src| < 1 {
      return Malformed;
    }
    var s := src[1..];
    if src[0] == 0x00 {
      var n, rest := SkipZeros(s);
      return Parsed(Padding(1 + n), rest);
    }
    if src[0] == 0x02 {
      r := DecodeAck(s);
      return;
    }
    return DecodeBody(src[0], s);
  }

  method DecodeAck(s: seq<byte>) returns (r: Parsed<Frame>)
    ensures r == GetAck(s)
  {
    hide Consumes, GetVarint, GetRanges, U32, U64, Fits, Typed, Ordered;
    if |s| < 13 {
      return Malformed;
    }
    var delay :- GetVarint(s[8..][4..]);
    var s1 := delay.1;
    if |s1| < 1 {
      return Malformed;
    }
    var n, s2 := s1[0], s1[1..];
    if n > MAX_ACK_RANGES || |s2| < n * 16 {
      return Malformed;
    }
    var p := ReadRanges(s2, n);
    if p.Malformed? {
      return Malformed;
    }
    return Parsed(AckFrame(U64(s), U32(s[8..]), delay.0, p.value), p.rest);
  }

  /** The frames of a payload, up to the first malformed one. */
  method DecodeFrames(payload: seq<byte>) returns (frames: seq<Frame>)
    ensures frames == DecodeAll(payload)
  {
    hide DecodeFrame, Fits;
    frames := [];
    var rest := payload;
    while |rest| > 0
      invariant frames + DecodeAll(rest) == DecodeAll(payload)
      decreases |rest|
    {
      DecodeStep(rest);
      var r := Decode(rest);
      if r.Malformed? {
        return;
      }
      FrameFirst(frames, r.value, DecodeAll(r.rest));
      frames, rest := frames + [r.value], r.rest;
    }
  }

  lemma FrameFirst(fs: seq<Frame>, f: Frame, more: seq<Frame>)
    ensures fs + ([f] + more) == fs + [f] + more
  {
  }
}
