/** Packet headers, the offset of the packet number, and the router's shortcut to the connection id. */
module PacketHeader {
  import opened Primitives
  import opened Wire

  datatype PacketType = Initial | HandshakeType | Data | Close | MtuProbeType | Retry

  datatype Header = Header(pType: PacketType, isLong: bool, version: nat, dcid: seq<byte>, scid: seq<byte>,
                           packetNumber: nat, keyPhase: bool, pnLen: nat)

  function TypeCode(t: PacketType): nat {
    match t
    case Initial => 0x00
    case HandshakeType => 0x01
    case Data => 0x02
    case Close => 0x0A
    case MtuProbeType => 0x0B
    case Retry => 0x0C
  }

  function LongType(code: nat): Option<PacketType> {
    match code
    case 0x00 => Some(Initial)
    case 0x01 => Some(HandshakeType)
    case 0x0C => Some(Retry)
    case _ => None
  }

  function ShortType(code: nat): Option<PacketType> {
    match code
    case 0x02 => Some(Data)
    case 0x0A => Some(Close)
    case 0x0B => Some(MtuProbeType)
    case _ => None
  }

  // ---------- the first byte ----------

  predicate IsLong(first: byte) { first >= 0x80 }

  function TypeBits(first: byte): nat { first / 4 % 16 }

  function PnLenBits(first: byte): (n: nat)
    ensures 1 <= n <= 4
  {
    first % 4 + 1
  }

  predicate KeyPhaseBit(first: byte) { first / 64 % 2 == 1 }

  function Clamped(pnLen: nat): (n: nat)
    ensures 1 <= n <= 4
  {
    Max(1, Min(4, pnLen))
  }

  function FirstOf(h: Header): byte {
    var low := 4 * TypeCode(h.pType) + (Clamped(h.pnLen) - 1);
    if h.isLong then 0x80 + low else if h.keyPhase then 0x40 + low else low
  }

  /** The bytes of a header in front of `tail`; id lengths are cut to 8 bits, the packet number to its
      length, the version to 32 bits. */
  function PutHeader(h: Header, tail: seq<byte>): seq<byte> {
    var pn := PutUint(Clamped(h.pnLen), h.packetNumber) + tail;
    var ids := [|h.dcid| % 256] + (h.dcid + if h.isLong then [|h.scid| % 256] + (h.scid + pn) else pn);
    [FirstOf(h)] + if h.isLong then PutUint(4, h.version) + ids else ids
  }

  function GetLong(first: byte, s: seq<byte>): Parsed<Header> {
    var pnLen := PnLenBits(first);
    match LongType(TypeBits(first))
    case None => Malformed
    case Some(t) =>
      if |s| < 5 + pnLen then Malformed
      else
        var s1 := s[4..];
        var dcidLen, s2 := s1[0], s1[1..];
        if |s2| < dcidLen then Malformed
        else
          var s3 := s2[dcidLen..];
          if |s3| < 1 then Malformed
          else
            var scidLen, s4 := s3[0], s3[1..];
            if |s4| < scidLen + pnLen then Malformed
            else
              var s5 := s4[scidLen..];
              Parsed(Header(t, true, Uint(s, 4), s2[..dcidLen], s4[..scidLen], Uint(s5, pnLen), false, pnLen),
                     s5[pnLen..])
  }

  function GetShort(first: byte, s: seq<byte>): Parsed<Header> {
    var pnLen := PnLenBits(first);
    match ShortType(TypeBits(first))
    case None => Malformed
    case Some(t) =>
      if |s| < 1 + pnLen then Malformed
      else
        var dcidLen, s1 := s[0], s[1..];
        if |s1| < dcidLen + pnLen then Malformed
        else
          var s2 := s1[dcidLen..];
          Parsed(Header(t, false, 0, s1[..dcidLen], [], Uint(s2, pnLen), KeyPhaseBit(first), pnLen), s2[pnLen..])
  }

  function DecodeHeader(src: seq<byte>): Parsed<Header> {
    if |src| < 1 then Malformed
    else if IsLong(src[0]) then GetLong(src[0], src[1..])
    else GetShort(src[0], src[1..])
  }

  // ---------- round trip ----------

  /** Headers whose fields match their form and whose ids and version fit. */
  predicate WellFormed(h: Header) {
    && 1 <= h.pnLen <= 4 && |h.dcid| < 256 && |h.scid| < 256 && h.version < 0x1_0000_0000
    && (if h.isLong then h.pType in {Initial, HandshakeType, Retry} && !h.keyPhase
        else h.pType in {Data, Close, MtuProbeType} && h.version == 0 && h.scid == [])
  }

  lemma FirstByteReads(h: Header)
    requires 1 <= h.pnLen <= 4
    ensures var b := FirstOf(h);
            && IsLong(b) == h.isLong && PnLenBits(b) == h.pnLen && TypeBits(b) == TypeCode(h.pType)
            && (!h.isLong ==> KeyPhaseBit(b) == h.keyPhase)
  {
  }

  lemma Bytes(a: seq<byte>, tail: seq<byte>)
    ensures (a + tail)[..|a|] == a && (a + tail)[|a|..] == tail
  {
  }

  lemma ReadPn(n: nat, x: nat, tail: seq<byte>)
    ensures var s := PutUint(n, x) + tail;
            |s| == n + |tail| && Uint(s, n) == x % Pow256(n) && s[n..] == tail
  {
    hide PutUint, Uint, Pow256;
    PutCuts(n, x);
    ReadUint(n, x % Pow256(n), tail);
  }

  lemma {:induction false} PutCuts(n: nat, x: nat)
    ensures PutUint(n, x) == PutUint(n, x % Pow256(n))
    decreases n
  {
    if n > 0 {
      PutCuts(n - 1, x / 256);
      DivMod(x, Pow256(n - 1));
    }
  }

  lemma DivMod(x: nat, m: nat)
    requires m > 0
    ensures x % (256 * m) / 256 == x / 256 % m && x % (256 * m) % 256 == x % 256
  {
    var h, q := x / 256, x / 256 / m;
    assert h == q * m + h % m;
    assert x == q * (256 * m) + (256 * (h % m) + x % 256);
    ModUnique(x, q, 256 * (h % m) + x % 256, 256 * m);
  }

  lemma LongBody(h: Header, first: byte, tail: seq<byte>, t0: seq<byte>, t2: seq<byte>)
    requires h.isLong && WellFormed(h)
    requires PnLenBits(first) == h.pnLen && TypeBits(first) == TypeCode(h.pType)
    requires t0 == PutUint(h.pnLen, h.packetNumber) + tail
    requires t2 == [|h.dcid|] + (h.dcid + ([|h.scid|] + (h.scid + t0)))
    ensures GetLong(first, PutUint(4, h.version) + t2)
         == Parsed(h.(packetNumber := h.packetNumber % Pow256(h.pnLen)), tail)
  {
    hide PutUint, Uint, Pow256, TypeBits, PnLenBits;
    ReadPn(h.pnLen, h.packetNumber, tail);
    Bytes(h.scid, t0);
    Bytes([|h.scid|], h.scid + t0);
    Bytes(h.dcid, [|h.scid|] + (h.scid + t0));
    Bytes([|h.dcid|], h.dcid + ([|h.scid|] + (h.scid + t0)));
    Sizes();
    ReadUint(4, h.version, t2);
  }

  lemma LongRoundTrip(h: Header, tail: seq<byte>)
    requires h.isLong && WellFormed(h)
    ensures DecodeHeader(PutHeader(h, tail)) == Parsed(h.(packetNumber := h.packetNumber % Pow256(h.pnLen)), tail)
  {
    hide PutUint, GetLong, GetShort, Pow256, FirstOf, IsLong, TypeBits, PnLenBits;
    FirstByteReads(h);
    var t0 := PutUint(h.pnLen, h.packetNumber) + tail;
    var t2 := [|h.dcid|] + (h.dcid + ([|h.scid|] + (h.scid + t0)));
    LongBody(h, FirstOf(h), tail, t0, t2);
    assert PutHeader(h, tail)[1..] == PutUint(4, h.version) + t2;
  }

  lemma ShortRoundTrip(h: Header, tail: seq<byte>)
    requires !h.isLong && WellFormed(h)
    ensures DecodeHeader(PutHeader(h, tail)) == Parsed(h.(packetNumber := h.packetNumber % Pow256(h.pnLen)), tail)
  {
    hide PutUint, Uint, Pow256, FirstOf, IsLong, TypeBits, PnLenBits, KeyPhaseBit;
    FirstByteReads(h);
    var t0 := PutUint(h.pnLen, h.packetNumber) + tail;
    ReadPn(h.pnLen, h.packetNumber, tail);
    Bytes(h.dcid, t0);
    Bytes([|h.dcid|], h.dcid + t0);
    assert PutHeader(h, tail)[1..] == [|h.dcid|] + (h.dcid + t0);
  }

  /** Every header the decoder accepts is well formed. */
  lemma DecodedWellFormed(src: seq<byte>)
    requires DecodeHeader(src).Parsed?
    ensures var h := DecodeHeader(src).value; WellFormed(h) && h.packetNumber < Pow256(h.pnLen)
  {
    hide Uint, Pow256, TypeBits, KeyPhaseBit;
    Sizes();
  }

  /** A header comes back with its packet number truncated; it comes back whole exactly when it is well
      formed and the number fits its length. */
  lemma HeaderRoundTrip(h: Header, tail: seq<byte>)
    ensures WellFormed(h) ==> DecodeHeader(PutHeader(h, tail))
                              == Parsed(h.(packetNumber := h.packetNumber % Pow256(h.pnLen)), tail)
    ensures DecodeHeader(PutHeader(h, tail)) == Parsed(h, tail)
            <==> WellFormed(h) && h.packetNumber < Pow256(h.pnLen)
  {
    hide DecodeHeader, PutHeader, Pow256;
    if WellFormed(h) {
      if h.isLong { LongRoundTrip(h, tail); } else { ShortRoundTrip(h, tail); }
    }
    if DecodeHeader(PutHeader(h, tail)) == Parsed(h, tail) { DecodedWellFormed(PutHeader(h, tail)); }
  }

  // ---------- shortcuts ----------

  function PnOffset(data: seq<byte>): Option<nat> {
    if |data| == 0 then None
    else if IsLong(data[0]) then
      if |data| < 6 then None
      else
        var dcidLen: nat := data[5];
        if |data| < 7 + dcidLen then None else var scidLen: nat := data[6 + dcidLen]; Some(7 + dcidLen + scidLen)
    else if |data| < 2 then None
    else var dcidLen: nat := data[1]; Some(2 + dcidLen)
  }

  function ExtractDcid(data: seq<byte>): Option<seq<byte>> {
    if |data| == 0 then None
    else if IsLong(data[0]) then
      if |data| < 6 then None
      else
        var dcidLen: nat := data[5];
        if |data| < 6 + dcidLen then None else Some(data[6..6 + dcidLen])
    else if |data| < 2 then None
    else
      var dcidLen: nat := data[1];
      if |data| < 2 + dcidLen then None else Some(data[2..2 + dcidLen])
  }

  /** Both shortcuts agree with the full decoder: the packet number starts at the offset, ends where the
      rest begins, and the id is the header's. */
  predicate Agree(data: seq<byte>)
    requires DecodeHeader(data).Parsed?
  {
    var h, rest := DecodeHeader(data).value, DecodeHeader(data).rest;
    && ExtractDcid(data) == Some(h.dcid)
    && PnOffset(data).Some?
    && var o := PnOffset(data).value;
       o + h.pnLen + |rest| == |data| && data[o + h.pnLen..] == rest && Uint(data[o..], h.pnLen) == h.packetNumber
  }

  lemma LongAgree(data: seq<byte>)
    requires DecodeHeader(data).Parsed? && IsLong(data[0])
    ensures Agree(data)
  {
    hide Uint, TypeBits, KeyPhaseBit, PnLenBits;
    var d: nat := data[5];
    var s2 := data[1..][4..][1..];
    assert data[1..][4..][0] == d && s2 == data[6..];
    var s4 := s2[d..][1..];
    assert s2[d..][0] == data[6 + d] && s4 == data[7 + d..];
    assert s4[data[6 + d]..] == data[7 + d + data[6 + d]..];
    assert s2[..d] == data[6..6 + d];
  }

  lemma ShortAgree(data: seq<byte>)
    requires DecodeHeader(data).Parsed? && !IsLong(data[0])
    ensures Agree(data)
  {
    hide Uint, TypeBits, KeyPhaseBit, PnLenBits;
    var d: nat := data[1];
    var s1 := data[1..][1..];
    assert data[1..][0] == d && s1 == data[2..];
    assert s1[d..] == data[2 + d..] && s1[..d] == data[2..2 + d];
  }

  /** Wherever the full decoder accepts, the shortcuts agree with it. */
  lemma ShortcutsAgree(data: seq<byte>)
    requires DecodeHeader(data).Parsed?
    ensures Agree(data)
  {
    hide Agree;
    if IsLong(data[0]) { LongAgree(data); } else { ShortAgree(data); }
  }
}
