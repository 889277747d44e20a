/** Header protection (section 5.4 of RFC 9001): masking the first byte and the packet number in place. */
module HeaderProtection {
  import opened Primitives
  import opened Bits
  import opened PacketHeader

  /** The five bytes a cipher derives from a sample. */
  type Mask = m: seq<byte> | |m| == 5 witness [0, 0, 0, 0, 0]

  /** Sixteen sampled bytes to a mask; stands for the keyed cipher. */
  type KeyStream = seq<byte> -> Mask

  function XorByte(a: byte, b: byte): byte {
    Pow8();
    XorFits(a, b, 8);
    Xor(a, b)
  }

  lemma XorByteTwice(a: byte, m: byte)
    ensures XorByte(XorByte(a, m), m) == a
  {
    hide Xor, Pow2;
    XorTwice(a, m);
  }

  /** Four masked bits on a long header, five on a short one. */
  function FirstMask(first: byte, mask: Mask): byte {
    if IsLong(first) then mask[0] % 16 else mask[0] % 32
  }

  const SAMPLE: nat := 16

  predicate LongEnough(packet: seq<byte>, pnOffset: nat) { pnOffset + 4 + SAMPLE <= |packet| }

  function MaskFor(packet: seq<byte>, pnOffset: nat, keys: KeyStream): Mask
    requires LongEnough(packet, pnOffset)
  {
    keys(packet[pnOffset + 4..pnOffset + 4 + SAMPLE])
  }

  /** `n` packet-number bytes masked. */
  function MaskPn(packet: seq<byte>, pnOffset: nat, mask: Mask, n: nat): (r: seq<byte>)
    requires n <= 4 && pnOffset + n <= |packet|
    ensures |r| == |packet|
    ensures forall i | 0 <= i < |packet| ::
              r[i] == if pnOffset <= i < pnOffset + n then XorByte(packet[i], mask[i - pnOffset + 1]) else packet[i]
  {
    if n == 0 then packet
    else
      var k := pnOffset + n - 1;
      MaskPn(packet, pnOffset, mask, n - 1)[k := XorByte(packet[k], mask[n])]
  }

  /** The length of the packet number is read before the first byte is masked. */
  function Protect(packet: seq<byte>, pnOffset: nat, keys: KeyStream): seq<byte>
    requires LongEnough(packet, pnOffset)
  {
    var mask := MaskFor(packet, pnOffset, keys);
    var masked := packet[0 := XorByte(packet[0], FirstMask(packet[0], mask))];
    MaskPn(masked, pnOffset, mask, PnLenBits(packet[0]))
  }

  /** The length of the packet number is read after the first byte is unmasked. */
  function Unprotect(packet: seq<byte>, pnOffset: nat, keys: KeyStream): seq<byte>
    requires LongEnough(packet, pnOffset)
  {
    var mask := MaskFor(packet, pnOffset, keys);
    var first := XorByte(packet[0], FirstMask(packet[0], mask));
    MaskPn(packet[0 := first], pnOffset, mask, PnLenBits(first))
  }

  // ---------- what the mask of the first byte keeps ----------

  lemma ShrDiv(a: nat)
    ensures Shr(a, 4) == a / 16 && Shr(a, 5) == a / 32
  {
  }

  /** The form bit is never masked; on a long header neither are the two upper type bits. */
  lemma FirstMaskKeeps(first: byte, mask: Mask)
    ensures var p := XorByte(first, FirstMask(first, mask));
            IsLong(p) == IsLong(first) && (IsLong(first) ==> p / 16 == first / 16)
  {
    hide Xor, Shr;
    var m := FirstMask(first, mask);
    assert Pow2(4) == 16 && Pow2(5) == 32;
    if IsLong(first) { XorKeepsHigh(first, m, 4); } else { XorKeepsHigh(first, m, 5); }
    ShrDiv(first);
    ShrDiv(XorByte(first, m));
  }

  /** Exactly the low four bits of a long header's first byte are masked, and the low five of a short one's. */
  lemma FirstMaskBits(first: byte, mask: Mask, k: nat)
    ensures var masked := k < (if first >= 128 then 4 else 5) && Bit(mask[0], k);
            Bit(XorByte(first, FirstMask(first, mask)), k) <==> Bit(first, k) != masked
  {
    hide Xor, Bit;
    assert Pow2(4) == 16 && Pow2(5) == 32;
    XorBit(first, FirstMask(first, mask), k);
    var n := if IsLong(first) then 4 else 5;
    if k < n { ModBit(mask[0], n, k); } else { NoHighBit(mask[0] % Pow2(n), n, k); }
  }

  /** What protection does to a packet, byte by byte: the first byte, one to four packet-number bytes
      that the unmasked first byte counts, and nothing else. */
  lemma ProtectedBytes(packet: seq<byte>, pnOffset: nat, keys: KeyStream, i: nat)
    requires pnOffset + 20 <= |packet| && pnOffset >= 1 && i < |packet|
    ensures var p, mask := Protect(packet, pnOffset, keys), keys(packet[pnOffset + 4..pnOffset + 20]);
            && |p| == |packet|
            && p[i] == if i == 0 then XorByte(packet[0], mask[0] % if packet[0] >= 128 then 16 else 32)
                       else if pnOffset <= i <= pnOffset + packet[0] % 4 then XorByte(packet[i], mask[i - pnOffset + 1])
                       else packet[i]
  {
    hide XorByte;
  }

  /** No mask makes a protected Initial or Handshake packet look like a Retry. */
  lemma NeverLooksLikeRetry(h: Header, mask: Mask)
    requires h.isLong && h.pType in {Initial, HandshakeType} && 1 <= h.pnLen <= 4
    ensures var p := XorByte(FirstOf(h), FirstMask(FirstOf(h), mask)); IsLong(p) && TypeBits(p) != TypeCode(Retry)
  {
    FirstMaskKeeps(FirstOf(h), mask);
  }

  lemma SameMask(packet: seq<byte>, pnOffset: nat, keys: KeyStream)
    requires LongEnough(packet, pnOffset)
    ensures var p := Protect(packet, pnOffset, keys);
            |p| == |packet| && MaskFor(p, pnOffset, keys) == MaskFor(packet, pnOffset, keys)
  {
    hide XorByte;
    var p := Protect(packet, pnOffset, keys);
    assert p[pnOffset + 4..pnOffset + 4 + SAMPLE] == packet[pnOffset + 4..pnOffset + 4 + SAMPLE];
  }

  /** Removing the protection undoes applying it, for every keystream. */
  lemma ProtectionRoundTrip(packet: seq<byte>, pnOffset: nat, keys: KeyStream)
    requires LongEnough(packet, pnOffset) && pnOffset >= 1
    ensures var p := Protect(packet, pnOffset, keys);
            LongEnough(p, pnOffset) && Unprotect(p, pnOffset, keys) == packet
  {
    hide XorByte, MaskFor;
    SameMask(packet, pnOffset, keys);
    var mask := MaskFor(packet, pnOffset, keys);
    var p := Protect(packet, pnOffset, keys);
    FirstMaskKeeps(packet[0], mask);
    XorByteTwice(packet[0], FirstMask(packet[0], mask));
    assert p[0] == XorByte(packet[0], FirstMask(packet[0], mask));
    var u := Unprotect(p, pnOffset, keys);
    forall i | 0 <= i < |packet| ensures u[i] == packet[i] {
      if pnOffset <= i < pnOffset + PnLenBits(packet[0]) { XorByteTwice(packet[i], mask[i - pnOffset + 1]); }
    }
  }

  /** Offset and connection id depend only on the form bit and the bytes in front of the packet number. */
  lemma SameRouting(packet: seq<byte>, p: seq<byte>, o: nat)
    requires PnOffset(packet) == Some(o) && o <= |packet| == |p| && IsLong(p[0]) == IsLong(packet[0])
    requires forall i | 1 <= i < o :: p[i] == packet[i]
    ensures PnOffset(p) == PnOffset(packet) && ExtractDcid(p) == ExtractDcid(packet)
  {
    if ExtractDcid(packet).Some? {
      var d := ExtractDcid(packet).value;
      if IsLong(packet[0]) { assert p[6..6 + |d|] == packet[6..6 + |d|]; }
      else { assert p[2..2 + |d|] == packet[2..2 + |d|]; }
    }
  }

  /** The packet-number offset and the router's connection id are the same on protected and on plain
      bytes, whatever the bytes: neither applying nor removing protection at that offset moves them. */
  lemma ProtectionKeepsRouting(packet: seq<byte>, keys: KeyStream)
    requires PnOffset(packet).Some? && LongEnough(packet, PnOffset(packet).value)
    ensures var p := Protect(packet, PnOffset(packet).value, keys);
            PnOffset(p) == PnOffset(packet) && ExtractDcid(p) == ExtractDcid(packet)
    ensures var u := Unprotect(packet, PnOffset(packet).value, keys);
            PnOffset(u) == PnOffset(packet) && ExtractDcid(u) == ExtractDcid(packet)
  {
    hide XorByte, MaskFor;
    var o := PnOffset(packet).value;
    FirstMaskKeeps(packet[0], MaskFor(packet, o, keys));
    SameRouting(packet, Protect(packet, o, keys), o);
    SameRouting(packet, Unprotect(packet, o, keys), o);
  }

  // ---------- in place ----------

  method XorPacketNumber(packet: array<byte>, pnOffset: nat, mask: Mask, pnLen: nat)
    requires pnLen <= 4 && pnOffset + 4 <= packet.Length
    modifies packet
    ensures packet[..] == MaskPn(old(packet[..]), pnOffset, mask, pnLen)
  {
    hide XorByte;
    ghost var before := packet[..];
    for i := 0 to pnLen
      invariant packet[..] == MaskPn(before, pnOffset, mask, i)
    {
      if pnOffset + i < packet.Length {
        assert packet[pnOffset + i] == packet[..][pnOffset + i] == before[pnOffset + i];
        packet[pnOffset + i] := XorByte(packet[pnOffset + i], mask[i + 1]);
      }
    }
  }

  method Apply(packet: array<byte>, pnOffset: nat, keys: KeyStream) returns (ok: bool)
    modifies packet
    ensures ok == LongEnough(old(packet[..]), pnOffset)
    ensures packet[..] == if ok then Protect(old(packet[..]), pnOffset, keys) else old(packet[..])
  {
    hide XorByte;
    var sampleOffset := pnOffset + 4;
    if packet.Length < sampleOffset + SAMPLE {
      return false;
    }
    ghost var before := packet[..];
    var mask := keys(packet[sampleOffset..sampleOffset + SAMPLE]);
    assert packet[sampleOffset..sampleOffset + SAMPLE] == before[pnOffset + 4..pnOffset + 4 + SAMPLE];
    var pnLen := PnLenBits(packet[0]);
    packet[0] := XorByte(packet[0], FirstMask(packet[0], mask));
    assert packet[..] == before[0 := XorByte(before[0], FirstMask(before[0], mask))];
    XorPacketNumber(packet, pnOffset, mask, pnLen);
    return true;
  }

  method Remove(packet: array<byte>, pnOffset: nat, keys: KeyStream) returns (ok: bool)
    modifies packet
    ensures ok == LongEnough(old(packet[..]), pnOffset)
    ensures packet[..] == if ok then Unprotect(old(packet[..]), pnOffset, keys) else old(packet[..])
  {
    hide XorByte;
    var sampleOffset := pnOffset + 4;
    if sampleOffset + SAMPLE > packet.Length {
      return false;
    }
    ghost var before := packet[..];
    var mask := keys(packet[sampleOffset..sampleOffset + SAMPLE]);
    assert packet[sampleOffset..sampleOffset + SAMPLE] == before[pnOffset + 4..pnOffset + 4 + SAMPLE];
    packet[0] := XorByte(packet[0], FirstMask(packet[0], mask));
    assert packet[..] == before[0 := XorByte(before[0], FirstMask(before[0], mask))];
    var pnLen := PnLenBits(packet[0]);
    XorPacketNumber(packet, pnOffset, mask, pnLen);
    return true;
  }
}
