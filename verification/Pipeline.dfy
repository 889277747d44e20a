/** A data packet from the frame at the sender to the frames at the receiver, with an ideal AEAD. */
module Pipeline {
  import opened Primitives
  import opened Wire
  import opened Frames
  import opened FrameCodec
  import opened FrameBuffer
  import opened PacketNumber
  import opened PacketHeader
  import opened HeaderProtection

  const TAG: nat := 16

  /** Sealing and opening with a packet number and the header as associated data. */
  datatype Aead = Aead(seal: (nat, seq<byte>, seq<byte>) -> seq<byte>,
                       open: (nat, seq<byte>, seq<byte>) -> Option<seq<byte>>)

  /** Sealing adds a tag, and opening with the same number and data gives the plaintext back. */
  ghost predicate Ideal(a: Aead) {
    forall pn, aad, plain :: |a.seal(pn, aad, plain)| == |plain| + TAG
                             && a.open(pn, aad, a.seal(pn, aad, plain)) == Some(plain)
  }

  function DataHeader(dcid: seq<byte>, pn: nat, lowestUnacked: nat, keyPhase: bool): Header {
    Header(Data, false, 0, dcid, [], pn, keyPhase, PnLen(pn, SaturatingSub(lowestUnacked, 1)))
  }

  /** Padding that brings the packet number and the payload together to four bytes. */
  function PadLen(pnLen: nat, payload: nat): nat {
    SaturatingSub(SaturatingSub(4, pnLen), payload)
  }

  /** A packet as it leaves; `None` when it is too short for header protection. */
  function Build(aead: Aead, keys: KeyStream, h: Header, f: Frame): Option<seq<byte>>
    requires Typed(f)
  {
    var head := PutHeader(h, []);
    var body := Put(f, []);
    var plain := body + Zeros(PadLen(h.pnLen, |body|));
    var packet := head + aead.seal(h.packetNumber, head, plain);
    match PnOffset(packet)
    case None => Some(packet)
    case Some(o) => if LongEnough(packet, o) then Some(Protect(packet, o, keys)) else None
  }

  datatype Opened = Opened(header: Header, frames: seq<Frame>)

  /** A short-header packet as it arrives at a receiver whose highest number is `highest`. */
  function Open(aead: Aead, keys: KeyStream, highest: nat, data: seq<byte>): Option<Opened> {
    match PnOffset(data)
    case None => None
    case Some(o) => if LongEnough(data, o) then OpenPlain(aead, highest, Unprotect(data, o, keys)) else None
  }

  /** The packet after header protection is removed. */
  function OpenPlain(aead: Aead, highest: nat, data: seq<byte>): Option<Opened> {
    match PnOffset(data)
    case None => None
    case Some(o) =>
      var headerLen := o + PnLenBits(data[0]);
      if |data| < headerLen then None
      else
        var aad, payload := data[..headerLen], data[headerLen..];
        match DecodeHeader(aad)
        case Malformed => None
        case Parsed(h, _) =>
          if |payload| < TAG then None
          else
            var pn := ExpandPn(h.packetNumber, h.pnLen, highest);
            match aead.open(pn, aad, payload)
            case None => None
            case Some(plain) => Some(Opened(h.(packetNumber := pn), DecodeAll(plain)))
  }

  // ---------- the header in front of a payload ----------

  lemma HeaderLength(h: Header, payload: seq<byte>)
    requires WellFormed(h) && !h.isLong
    ensures var packet := PutHeader(h, []) + payload;
            && |PutHeader(h, [])| == 2 + |h.dcid| + h.pnLen
            && PnOffset(packet) == Some(2 + |h.dcid|) && packet[0] == FirstOf(h)
  {
    hide FirstOf, IsLong, PutUint;
    FirstByteReads(h);
    assert PutHeader(h, [])[0] == FirstOf(h);
    assert PutHeader(h, [])[1] == |h.dcid|;
  }

  /** The packet number and the sealed payload always fill the bytes the sample needs. */
  lemma AlwaysLongEnough(aead: Aead, h: Header, body: seq<byte>)
    requires Ideal(aead) && WellFormed(h) && !h.isLong
    ensures var head, pad := PutHeader(h, []), PadLen(h.pnLen, |body|);
            && LongEnough(head + aead.seal(h.packetNumber, head, body + Zeros(pad)), 2 + |h.dcid|)
            && (pad > 0 ==> h.pnLen + |body| + pad == 4)
  {
    hide PutHeader;
    HeaderLength(h, []);
  }

  /** Without protection, a receiver for which the number is decodable gets header and frames back. */
  lemma PlainRoundTrip(aead: Aead, h: Header, plain: seq<byte>, highest: nat)
    requires Ideal(aead) && WellFormed(h) && !h.isLong
    requires h.packetNumber <= U64_MAX && highest <= U64_MAX && Decodable(h.packetNumber, h.pnLen, highest)
    ensures var head := PutHeader(h, []);
            OpenPlain(aead, highest, head + aead.seal(h.packetNumber, head, plain))
            == Some(Opened(h, DecodeAll(plain)))
  {
    hide PutHeader, DecodeHeader, DecodeAll, ExpandPn, Decodable, PnOffset, Pow256, FirstOf, PnLenBits;
    var head := PutHeader(h, []);
    var sealed := aead.seal(h.packetNumber, head, plain);
    HeaderLength(h, sealed);
    FirstByteReads(h);
    HeaderRoundTrip(h, []);
    Bytes(head, sealed);
    ExpandExactly(h.packetNumber, h.pnLen, highest);
  }

  /** A frame with a little padding behind it. */
  lemma PaddedFrame(f: Frame, pad: nat)
    requires Typed(f) && (f.Padding? || Fits(f))
    ensures DecodeAll(Put(f, []) + Zeros(pad)) == Normal([f, Padding(pad)])
  {
    hide Put, DecodeAll, Normal, Typed, Fits;
    var fs := [f, Padding(pad)];
    assert fs[1..] == [Padding(pad)] && fs[1..][1..] == [];
    PaddingAlone(pad);
    assert AllTyped(fs) && AllFit(fs);
    PutTail(f, Zeros(pad));
    FittingFramesSurvive(fs);
  }

  lemma PaddingAlone(n: nat)
    ensures Typed(Padding(n)) && AllTyped([Padding(n)]) && AllFit([Padding(n)]) && EncodeAll([Padding(n)]) == Zeros(n)
  {
    assert [Padding(n)][1..] == [];
    assert Zeros(n) + [] == Zeros(n);
  }

  /**
   * The whole pipeline: building never fails, and a receiver whose highest number has `pn` in its
   * decoding window recovers the header with the full packet number and the frame, followed by at
   * most three bytes of padding.
   */
  lemma PipelineRoundTrip(aead: Aead, keys: KeyStream, dcid: seq<byte>, pn: nat, lowestUnacked: nat, keyPhase: bool,
                          f: Frame, highest: nat)
    requires Ideal(aead) && |dcid| < 256 && Typed(f) && (f.Padding? || Fits(f))
    requires pn <= U64_MAX && highest <= U64_MAX
    requires Decodable(pn, DataHeader(dcid, pn, lowestUnacked, keyPhase).pnLen, highest)
    ensures var h := DataHeader(dcid, pn, lowestUnacked, keyPhase);
            var pad := PadLen(h.pnLen, |Put(f, [])|);
            && Build(aead, keys, h, f).Some? && pad <= 3
            && Open(aead, keys, highest, Build(aead, keys, h, f).value)
               == Some(Opened(h, Normal([f, Padding(pad)])))
  {
    hide Put, PutHeader, Protect, Unprotect, OpenPlain, PnOffset, DecodeAll, Normal, Decodable, Typed, Fits, PnLen,
         Ideal;
    var h := DataHeader(dcid, pn, lowestUnacked, keyPhase);
    var body := Put(f, []);
    var pad := PadLen(h.pnLen, |body|);
    var plain := body + Zeros(pad);
    var head := PutHeader(h, []);
    var packet := head + aead.seal(pn, head, plain);
    var o := 2 + |dcid|;
    HeaderLength(h, aead.seal(pn, head, plain));
    AlwaysLongEnough(aead, h, body);
    ProtectionKeepsRouting(packet, keys);
    ProtectionRoundTrip(packet, o, keys);
    PlainRoundTrip(aead, h, plain, highest);
    PaddedFrame(f, pad);
  }

  /** A sender whose oldest unacknowledged number is at most one past what the receiver has seen, less
      than 2^31 behind, stays in the decoding window, with the shortest length that covers the distance. */
  lemma InDecodingRange(dcid: seq<byte>, pn: nat, lowestUnacked: nat, keyPhase: bool, highest: nat)
    requires pn <= U64_MAX && highest < U64_MAX
    requires var base := SaturatingSub(lowestUnacked, 1);
             && base <= highest && pn < base + 0x8000_0000
             && highest + 1 < pn + Pow256(PnLen(pn, base)) / 2
    ensures var len := DataHeader(dcid, pn, lowestUnacked, keyPhase).pnLen;
            var distance := SaturatingSub(pn, SaturatingSub(lowestUnacked, 1));
            && Decodable(pn, len, highest)
            && 2 * distance < Pow256(len) && (len > 1 ==> 2 * distance >= Pow256(len - 1))
  {
    hide PnLen, ExpandPn, Decodable, Pow256;
    var base := SaturatingSub(lowestUnacked, 1);
    PacketNumberRoundTrip(pn, base, highest);
    ExpandExactly(pn, PnLen(pn, base), highest);
    LenCovers(pn, base);
    if PnLen(pn, base) > 1 { LenShortest(pn, base); }
  }
}
