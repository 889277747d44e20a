/** What encoding and decoding frames preserves. */
module FrameCodec {
  import opened Primitives
  import opened Wire
  import opened AckRanges
  import opened Frames

  // ---------- fields ----------

  lemma FieldU32(x: nat, tail: seq<byte>)
    requires x < 0x1_0000_0000
    ensures var s := PutU32(x, tail); |s| == 4 + |tail| && U32(s) == x && s[4..] == tail
  {
    hide PutUint, Uint, Pow256;
    Sizes();
    ReadUint(4, x, tail);
  }

  lemma FieldU64(x: nat, tail: seq<byte>)
    requires x <= U64_MAX
    ensures var s := PutU64(x, tail); |s| == 8 + |tail| && U64(s) == x && s[8..] == tail
  {
    hide PutUint, Uint, Pow256;
    Sizes();
    ReadUint(8, x, tail);
  }

  lemma FieldU16(x: nat, tail: seq<byte>)
    requires x < 0x1_0000
    ensures var s := PutUint(2, x) + tail; |s| == 2 + |tail| && U16(s) == x && s[2..] == tail
  {
    hide PutUint, Uint, Pow256;
    Sizes();
    ReadUint(2, x, tail);
  }

  lemma FieldVar(x: nat, tail: seq<byte>)
    requires x < VARINT_LIMIT
    ensures GetVarint(PutVar(x, tail)) == Parsed(x, tail) && |PutVar(x, tail)| > |tail|
  {
    hide PutVarint, GetVarint;
    VarintRoundTrip(x, tail);
  }

  lemma FieldBytes(data: seq<byte>, tail: seq<byte>)
    ensures (data + tail)[..|data|] == data && (data + tail)[|data|..] == tail
  {
  }

  lemma FieldSized(data: seq<byte>, tail: seq<byte>)
    requires |data| < VARINT_LIMIT
    ensures GetSized(PutSized(data, tail)) == Parsed(data, tail) && |PutSized(data, tail)| > |tail|
  {
    hide PutVar, GetVarint;
    FieldVar(|data|, data + tail);
    FieldBytes(data, tail);
  }

  lemma {:induction false} FieldRanges(rs: seq<AckRange>, tail: seq<byte>)
    requires Ordered(rs)
    ensures var s := PutRanges(rs, tail); |s| == 16 * |rs| + |tail| && GetRanges(s, |rs|) == Parsed(rs, tail)
  {
    hide PutU64, U16, U32, U64;
    if rs != [] {
      var more := PutRanges(rs[1..], tail);
      FieldRanges(rs[1..], tail);
      FieldU64(rs[0].end, more);
      FieldU64(rs[0].start, PutU64(rs[0].end, more));
      var s := PutRanges(rs, tail);
      assert s[16..] == s[8..][8..];
      assert rs == [rs[0]] + rs[1..];
    }
  }

  // ---------- one frame ----------

  lemma Dispatch(kind: byte, s: seq<byte>)
    ensures DecodeFrame([kind] + s) == DecodeBody(kind, s)
  {
    hide DecodeBody;
    assert ([kind] + s)[1..] == s;
  }

  lemma StreamFits(f: Frame, tail: seq<byte>)
    requires f.StreamData? && Fits(f)
    ensures DecodeFrame(Put(f, tail)) == Parsed(f, tail)
  {
    hide DecodeFrame, PutU32, PutU64, PutSized, GetSized, U16, U32, U64;
    var t0 := PutSized(f.data, tail);
    var t1 := PutU64(f.offset, t0);
    var t2 := [TypeToWire(f.streamType)] + t1;
    FieldSized(f.data, tail);
    FieldU64(f.offset, t0);
    FieldU32(f.id, t2);
    var s := PutU32(f.id, t2);
    Dispatch(0x01, s);
    assert s[4..] == t2 && s[5..] == s[4..][1..] == t1 && s[4] == t2[0];
  }

  lemma AckFits(f: Frame, tail: seq<byte>)
    requires f.AckFrame? && Fits(f)
    ensures DecodeFrame(Put(f, tail)) == Parsed(f, tail)
  {
    hide DecodeFrame, PutU32, PutU64, PutVar, GetVarint, PutRanges, GetRanges, U16, U32, U64, Ordered;
    var rs := f.ackRanges;
    var t0 := PutRanges(rs, tail);
    var t1 := [|rs|] + t0;
    var t2 := PutVar(f.ackDelay, t1);
    var t3 := PutU32(f.windowSize, t2);
    assert rs[..|rs|] == rs;
    FieldRanges(rs, tail);
    FieldVar(f.ackDelay, t1);
    FieldU32(f.windowSize, t2);
    FieldU64(f.largestAcked, t3);
    Dispatch(0x02, PutU64(f.largestAcked, t3));
    assert t1[1..] == t0;
  }

  lemma HandshakeBody(f: Frame, tail: seq<byte>, t2: seq<byte>, t4: seq<byte>)
    requires f.Handshake? && Fits(f)
    requires t2 == f.signature + ([|f.alpn|] + (f.alpn + tail))
    requires t4 == PutUint(2, |f.transcriptHash|) + (f.transcriptHash + t2)
    ensures GetHandshake(f.publicKey + (f.edPublicKey + t4)) == Parsed(f, tail)
  {
    hide Consumes, PutUint, U16, U32, U64;
    FieldU16(|f.transcriptHash|, f.transcriptHash + t2);
    FieldBytes(f.publicKey, f.edPublicKey + t4);
    FieldBytes(f.edPublicKey, t4);
    FieldBytes(f.transcriptHash, t2);
    FieldBytes(f.signature, [|f.alpn|] + (f.alpn + tail));
    FieldBytes([|f.alpn|], f.alpn + tail);
    FieldBytes(f.alpn, tail);
  }

  lemma HandshakeFits(f: Frame, tail: seq<byte>)
    requires f.Handshake? && Fits(f)
    ensures DecodeFrame(Put(f, tail)) == Parsed(f, tail)
  {
    hide DecodeFrame, Consumes, PutUint, GetHandshake;
    var t2 := f.signature + ([|f.alpn|] + (f.alpn + tail));
    var t4 := PutUint(2, |f.transcriptHash|) + (f.transcriptHash + t2);
    HandshakeBody(f, tail, t2, t4);
    Dispatch(0x04, f.publicKey + (f.edPublicKey + t4));
  }

  lemma ParametersFit(f: Frame, tail: seq<byte>)
    requires f.Parameters? && Fits(f)
    ensures DecodeFrame(Put(f, tail)) == Parsed(f, tail)
  {
    hide DecodeFrame, PutU32, PutU64, U16, U32, U64;
    var p := f.parameters;
    var t0 := PutU64(p.idleTimeoutMs, tail);
    var t1 := PutU32(p.maxDatagramSize, t0);
    var t2 := PutU64(p.initialMaxData, t1);
    var t3 := PutU64(p.initialStreamWindow, t2);
    FieldU64(p.idleTimeoutMs, tail);
    FieldU32(p.maxDatagramSize, t0);
    FieldU64(p.initialMaxData, t1);
    FieldU64(p.initialStreamWindow, t2);
    FieldU64(p.maxStreams, t3);
    Dispatch(0x15, PutU64(p.maxStreams, t3));
  }

  lemma CookieFits(f: Frame, tail: seq<byte>)
    requires f.Cookie? && Fits(f)
    ensures DecodeFrame(Put(f, tail)) == Parsed(f, tail)
  {
    hide DecodeFrame, PutUint, U16, U32, U64;
    FieldU16(|f.cookie|, f.cookie + tail);
    FieldBytes(f.cookie, tail);
    Dispatch(0x05, PutUint(2, |f.cookie|) + (f.cookie + tail));
  }

  /** Frames of an id and a 64-bit number. */
  lemma IdFits(f: Frame, tail: seq<byte>)
    requires (f.StreamCloseFrame? || f.MaxStreamDataFrame?) && Fits(f)
    ensures DecodeFrame(Put(f, tail)) == Parsed(f, tail)
  {
    hide DecodeFrame, PutU32, PutU64, U16, U32, U64;
    var x := if f.StreamCloseFrame? then f.finalSize else f.maxData;
    FieldU64(x, tail);
    FieldU32(f.id, PutU64(x, tail));
    Dispatch(if f.StreamCloseFrame? then 0x06 else 0x07, PutU32(f.id, PutU64(x, tail)));
  }

  /** Frames of one 64-bit number. */
  lemma NumberFits(f: Frame, tail: seq<byte>)
    requires (f.MaxData? || f.MaxStreams? || f.StreamsBlocked?) && Fits(f)
    ensures DecodeFrame(Put(f, tail)) == Parsed(f, tail)
  {
    hide DecodeFrame, PutU64, U16, U32, U64;
    var x := if f.MaxData? then f.maxData else f.maxStreams;
    FieldU64(x, tail);
    Dispatch(if f.MaxData? then 0x08 else if f.MaxStreams? then 0x12 else 0x13, PutU64(x, tail));
  }

  /** Frames with varints of their own. */
  lemma ResetFits(f: Frame, tail: seq<byte>)
    requires f.ResetStreamFrame? && Fits(f)
    ensures DecodeFrame(Put(f, tail)) == Parsed(f, tail)
  {
    hide DecodeFrame, PutU32, PutVar, GetVarint, U16, U32, U64;
    var t0 := PutVar(f.finalSize, tail);
    FieldVar(f.finalSize, tail);
    FieldVar(f.errorCode, t0);
    FieldU32(f.id, PutVar(f.errorCode, t0));
    Dispatch(0x0E, PutU32(f.id, PutVar(f.errorCode, t0)));
  }

  lemma VarFits(f: Frame, tail: seq<byte>)
    requires (f.StopSending? || f.DataBlocked? || f.StreamDataBlocked?) && Fits(f)
    ensures DecodeFrame(Put(f, tail)) == Parsed(f, tail)
  {
    hide DecodeFrame, PutU32, PutVar, GetVarint, U16, U32, U64;
    var x := if f.StopSending? then f.errorCode else f.maxData;
    FieldVar(x, tail);
    if f.DataBlocked? {
      Dispatch(0x10, PutVar(x, tail));
    } else {
      FieldU32(f.id, PutVar(x, tail));
      Dispatch(if f.StopSending? then 0x0F else 0x11, PutU32(f.id, PutVar(x, tail)));
    }
  }

  /** Frames that carry bytes behind a varint length. */
  lemma SizedFits(f: Frame, tail: seq<byte>)
    requires (f.DatagramFrame? || f.Crypto? || f.ConnectionCloseV2Frame?) && Fits(f)
    ensures DecodeFrame(Put(f, tail)) == Parsed(f, tail)
  {
    hide DecodeFrame, PutU64, PutVar, GetVarint, PutSized, GetSized, U16, U32, U64;
    match f
    case DatagramFrame(data) =>
      FieldSized(data, tail);
      Dispatch(0x09, PutSized(data, tail));
    case Crypto(offset, data) =>
      FieldSized(data, tail);
      FieldU64(offset, PutSized(data, tail));
      Dispatch(0x0C, PutU64(offset, PutSized(data, tail)));
    case ConnectionCloseV2Frame(code, reason) =>
      FieldSized(reason, tail);
      FieldVar(code, PutSized(reason, tail));
      Dispatch(0x14, PutVar(code, PutSized(reason, tail)));
  }

  lemma BareFits(f: Frame, tail: seq<byte>)
    requires (f.ConnectionClose? || f.Ping? || f.PathChallenge? || f.PathResponse?) && Fits(f)
    ensures DecodeFrame(Put(f, tail)) == Parsed(f, tail)
  {
    hide DecodeFrame;
    if f.PathChallenge? || f.PathResponse? {
      FieldBytes(f.token, tail);
      Dispatch(if f.PathChallenge? then 0x0A else 0x0B, f.token + tail);
    } else {
      Dispatch(if f.Ping? then 0x0D else 0x03, tail);
    }
  }

  lemma FrameFits(f: Frame, tail: seq<byte>)
    requires Fits(f) && !f.Padding?
    ensures DecodeFrame(Put(f, tail)) == Parsed(f, tail)
  {
    hide DecodeFrame, Put;
    if f.StreamData? { StreamFits(f, tail); }
    else if f.AckFrame? { AckFits(f, tail); }
    else if f.Handshake? { HandshakeFits(f, tail); }
    else if f.Parameters? { ParametersFit(f, tail); }
    else if f.Cookie? { CookieFits(f, tail); }
    else if f.ResetStreamFrame? { ResetFits(f, tail); }
    else if f.StopSending? || f.DataBlocked? || f.StreamDataBlocked? { VarFits(f, tail); }
    else if f.DatagramFrame? || f.Crypto? || f.ConnectionCloseV2Frame? { SizedFits(f, tail); }
    else if f.ConnectionClose? || f.Ping? || f.PathChallenge? || f.PathResponse? { BareFits(f, tail); }
    else if f.StreamCloseFrame? || f.MaxStreamDataFrame? { IdFits(f, tail); }
    else { NumberFits(f, tail); }
  }

  /** Whatever bytes arrive, a frame that comes out is one the wire format can carry. */
  lemma DecodedFits(src: seq<byte>)
    requires DecodeFrame(src).Parsed?
    ensures Fits(DecodeFrame(src).value)
  {
    hide Consumes, GetStream, GetAck, GetHandshake, GetCookie, GetParameters, GetReset, GetCrypto, GetCloseV2;
    hide GetIdAndU64, GetU64, GetIdAndVar, GetToken, GetSized, GetVarint, LeadingZeros, Ordered;
  }

  /** A frame survives the wire exactly when it fits; what follows is never disturbed. */
  lemma FrameRoundTrip(f: Frame, tail: seq<byte>)
    requires Typed(f) && !f.Padding?
    ensures DecodeFrame(Put(f, tail)) == Parsed(f, tail) <==> Fits(f)
  {
    hide DecodeFrame, Put, Fits;
    if Fits(f) { FrameFits(f, tail); }
    if DecodeFrame(Put(f, tail)) == Parsed(f, tail) { DecodedFits(Put(f, tail)); }
  }

  // ---------- a payload of frames ----------

  /** What the decode loop makes of a payload: frames up to the first malformed one. */
  function DecodeAll(src: seq<byte>): seq<Frame>
    decreases |src|
  {
    if src == [] then []
    else
      match DecodeFrame(src)
      case Malformed => []
      case Parsed(f, rest) => [f] + DecodeAll(rest)
  }

  predicate AllTyped(fs: seq<Frame>) { fs == [] || (Typed(fs[0]) && AllTyped(fs[1..])) }

  /** Every frame but padding is one the wire format can carry. */
  predicate AllFit(fs: seq<Frame>) { fs == [] || ((fs[0].Padding? || Fits(fs[0])) && AllFit(fs[1..])) }

  function EncodeAll(fs: seq<Frame>): seq<byte>
    requires AllTyped(fs)
  {
    if fs == [] then [] else Put(fs[0], EncodeAll(fs[1..]))
  }

  function Fuse(n: nat, fs: seq<Frame>): seq<Frame> {
    if n == 0 then fs
    else if fs != [] && fs[0].Padding? then [Padding(n + fs[0].len)] + fs[1..]
    else [Padding(n)] + fs
  }

  /** Adjacent padding fused, empty padding dropped. */
  function Normal(fs: seq<Frame>): seq<Frame> {
    if fs == [] then []
    else if fs[0].Padding? then Fuse(fs[0].len, Normal(fs[1..]))
    else [fs[0]] + Normal(fs[1..])
  }

  lemma {:induction false} ZerosLead(n: nat, tail: seq<byte>)
    ensures LeadingZeros(Zeros(n) + tail) == n + LeadingZeros(tail)
    decreases n
  {
    if n == 0 {
      assert Zeros(0) + tail == tail;
    } else {
      ZerosLead(n - 1, tail);
      assert (Zeros(n) + tail)[1..] == Zeros(n - 1) + tail;
    }
  }

  lemma OnlyZerosArePadding(src: seq<byte>)
    requires src != [] && src[0] != 0
    ensures DecodeFrame(src).Parsed? ==> !DecodeFrame(src).value.Padding?
  {
    hide Consumes, Fits;
  }

  lemma PaddingFrame(src: seq<byte>)
    requires src != [] && src[0] == 0
    ensures DecodeFrame(src) == Parsed(Padding(LeadingZeros(src)), src[LeadingZeros(src)..])
  {
    var n := LeadingZeros(src[1..]);
    assert src[1..][n..] == src[1 + n..];
  }

  lemma DecodeStep(src: seq<byte>)
    requires src != []
    ensures DecodeAll(src) == match DecodeFrame(src) case Malformed => [] case Parsed(f, rest) => [f] + DecodeAll(rest)
  {
  }

  /** Padding in front of any bytes fuses with the padding they start with. */
  lemma PaddingFuses(n: nat, tail: seq<byte>)
    ensures DecodeAll(Zeros(n) + tail) == Fuse(n, DecodeAll(tail))
  {
    hide DecodeFrame, DecodeAll;
    var src := Zeros(n) + tail;
    if n == 0 {
      assert src == tail;
    } else {
      var z := LeadingZeros(tail);
      ZerosLead(n, tail);
      PaddingFrame(src);
      DecodeStep(src);
      assert src[n + z..] == tail[z..];
      TailStart(tail);
    }
  }

  /** How the decoding of arbitrary bytes starts. */
  lemma TailStart(tail: seq<byte>)
    ensures var z := LeadingZeros(tail);
            if z == 0 then DecodeAll(tail) == [] || !DecodeAll(tail)[0].Padding?
            else DecodeAll(tail) == [Padding(z)] + DecodeAll(tail[z..])
  {
    hide DecodeFrame;
    if tail != [] {
      if tail[0] == 0 { PaddingFrame(tail); } else { OnlyZerosArePadding(tail); }
    }
  }

  lemma {:induction false} FittingFramesSurvive(fs: seq<Frame>)
    requires AllTyped(fs) && AllFit(fs)
    ensures DecodeAll(EncodeAll(fs)) == Normal(fs)
  {
    hide DecodeFrame, DecodeAll, Typed, Fits, Put;
    if fs == [] {
      assert DecodeAll([]) == [] by { DecodeNothing(); }
    } else {
      var tail := EncodeAll(fs[1..]);
      FittingFramesSurvive(fs[1..]);
      if fs[0].Padding? {
        PutPadding(fs[0].len, tail);
        PaddingFuses(fs[0].len, tail);
      } else {
        FrameFits(fs[0], tail);
        DecodeStep(Put(fs[0], tail));
      }
    }
  }

  lemma DecodeNothing()
    ensures DecodeAll([]) == []
  {
  }

  lemma PutPadding(n: nat, tail: seq<byte>)
    ensures Put(Padding(n), tail) == Zeros(n) + tail
  {
  }

  lemma {:induction false} DecodedAllFit(src: seq<byte>)
    ensures AllFit(DecodeAll(src))
    decreases |src|
  {
    hide DecodeFrame, Fits;
    if src != [] && DecodeFrame(src).Parsed? {
      DecodedFits(src);
      DecodedAllFit(DecodeFrame(src).rest);
      assert DecodeAll(src)[1..] == DecodeAll(DecodeFrame(src).rest);
    }
  }

  lemma {:induction false} NormalFits(fs: seq<Frame>)
    requires AllFit(Normal(fs))
    ensures AllFit(fs)
  {
    hide Fits;
    if fs != [] {
      var more := Normal(fs[1..]);
      if fs[0].Padding? {
        assert fs[0].len > 0 && more != [] && more[0].Padding? ==> Fuse(fs[0].len, more)[1..] == more[1..];
        assert ([Padding(fs[0].len)] + more)[1..] == more;
      } else {
        assert Normal(fs)[1..] == more;
      }
      NormalFits(fs[1..]);
    }
  }

  /** A payload of frames decodes to that list, with adjacent padding fused and empty padding dropped,
      exactly when every frame in it fits the wire format. */
  lemma PayloadRoundTrip(fs: seq<Frame>)
    requires AllTyped(fs)
    ensures DecodeAll(EncodeAll(fs)) == Normal(fs) <==> AllFit(fs)
  {
    hide *;
    if AllFit(fs) { FittingFramesSurvive(fs); }
    if DecodeAll(EncodeAll(fs)) == Normal(fs) {
      DecodedAllFit(EncodeAll(fs));
      NormalFits(fs);
    }
  }
}
