/** The sliding window over processed packet numbers: a mask of 32 words, bit `d` standing for the
    number `d` below the highest one. */
module PacketMask {
  import opened Primitives
  import opened Bits

  const WORDS: nat := 32
  const WINDOW: nat := 2048

  type Mask = m: seq<word> | |m| == WORDS witness seq(WORDS, _ => 0)

  predicate MaskBit(m: Mask, d: nat)
    requires d < WINDOW
  {
    Bit(m[d / 64], d % 64)
  }

  /** Whole words moved up by `ws`. */
  ghost function WordsMoved(m: Mask, ws: nat): Mask {
    seq(WORDS, i requires 0 <= i < WORDS => if i < ws then 0 else m[i - ws])
  }

  /** Bits moved up by `bs`, carrying over word boundaries. */
  ghost function BitsMoved(m: Mask, bs: nat): Mask
    requires 0 < bs < 64
  {
    seq(WORDS, i requires 0 <= i < WORDS =>
          if i == 0 then Shl(m[0], bs) else OrWord(Shl(m[i], bs), Shr(m[i - 1], 64 - bs)))
  }

  ghost function Moved(m: Mask, shift: nat): Mask {
    var words := WordsMoved(m, shift / 64);
    if shift % 64 == 0 then words else BitsMoved(words, shift % 64)
  }

  lemma WordsMovedBit(m: Mask, ws: nat, d: nat)
    requires d < WINDOW
    ensures MaskBit(WordsMoved(m, ws), d) <==> 64 * ws <= d && MaskBit(m, d - 64 * ws)
  {
    if d / 64 < ws {
      ZeroBit(d % 64);
    } else {
      assert (d - 64 * ws) / 64 == d / 64 - ws && (d - 64 * ws) % 64 == d % 64;
    }
  }

  /** Bit `k` of word `i` after moving bits up: from the same word, or carried over from the one below. */
  lemma CarriedBit(low: word, high: word, bs: nat, k: nat)
    requires 0 < bs < 64 && k < 64
    ensures Bit(OrWord(Shl(high, bs), Shr(low, 64 - bs)), k)
       <==> if bs <= k then Bit(high, k - bs) else Bit(low, 64 - bs + k)
  {
    hide Bit, Shl, Shr, OrWord, Pow2;
    OrWordBit(Shl(high, bs), Shr(low, 64 - bs), k);
    ShlBit(high, bs, k);
    ShrBit(low, 64 - bs, k);
    if bs <= k {
      Pow64();
      NoHighBit(low, 64, 64 - bs + k);
    }
  }

  lemma BitsMovedBit(m: Mask, bs: nat, d: nat)
    requires 0 < bs < 64 && d < WINDOW
    ensures MaskBit(BitsMoved(m, bs), d) <==> bs <= d && MaskBit(m, d - bs)
  {
    hide Bit, Shl, Shr, OrWord;
    var i, k := d / 64, d % 64;
    if bs <= k {
      assert (d - bs) / 64 == i && (d - bs) % 64 == k - bs;
    } else if i > 0 {
      assert (d - bs) / 64 == i - 1 && (d - bs) % 64 == 64 - bs + k;
    }
    if i == 0 {
      ShlBit(m[0], bs, k);
    } else {
      CarriedBit(m[i - 1], m[i], bs, k);
    }
  }

  /** The word and bit phases together are one shift of the whole 2048-bit mask. */
  lemma MovedBit(m: Mask, shift: nat, d: nat)
    requires d < WINDOW
    ensures MaskBit(Moved(m, shift), d) <==> shift <= d && MaskBit(m, d - shift)
  {
    var ws, bs := shift / 64, shift % 64;
    assert shift == 64 * ws + bs;
    if bs == 0 {
      WordsMovedBit(m, ws, d);
    } else {
      BitsMovedBit(WordsMoved(m, ws), bs, d);
      if bs <= d { WordsMovedBit(m, ws, d - bs); }
    }
  }

  ghost function Zeros(): Mask { seq(WORDS, i requires 0 <= i < WORDS => 0) }

  lemma NothingMoved(m: Mask)
    ensures WordsMoved(m, 0) == m
  {
  }

  lemma AllMoved(m: Mask, shift: nat)
    requires WINDOW <= shift
    ensures Moved(m, shift) == Zeros()
  {
    var words := WordsMoved(m, shift / 64);
    assert words == Zeros();
    if shift % 64 != 0 {
      ShlZero(shift % 64);
      ShrZero(64 - shift % 64);
    }
  }

  lemma {:induction false} ShlZero(s: nat)
    ensures Shl(0, s) == 0
  {
    if s > 0 { ShlZero(s - 1); }
  }

  lemma {:induction false} ShrZero(s: nat)
    ensures Shr(0, s) == 0
  {
    if s > 0 { ShrZero(s - 1); }
  }

  method Clear(mask: array<word>)
    requires mask.Length == WORDS
    modifies mask
    ensures mask[..] == Zeros()
  {
    forall i | 0 <= i < WORDS { mask[i] := 0; }
  }

  /** In-place left shift of the mask. */
  method ShiftLeft(mask: array<word>, shift: nat)
    requires mask.Length == WORDS
    modifies mask
    ensures mask[..] == Moved(old(mask[..]), shift)
  {
    hide WordsMoved, BitsMoved;
    NothingMoved(mask[..]);
    if shift == 0 {
      return;
    }
    if shift >= WINDOW {
      AllMoved(mask[..], shift);
      Clear(mask);
      return;
    }
    var wordShift, bitShift := shift / 64, shift % 64;
    if wordShift > 0 {
      ShiftWords(mask, wordShift);
    }
    if bitShift > 0 {
      ShiftBits(mask, bitShift);
    }
  }

  method ShiftWords(mask: array<word>, wordShift: nat)
    requires mask.Length == WORDS && 0 < wordShift < WORDS
    modifies mask
    ensures mask[..] == WordsMoved(old(mask[..]), wordShift)
  {
    hide WordsMoved;
    ghost var was := mask[..];
    for i := WORDS downto wordShift
      invariant forall j | i <= j < WORDS :: mask[j] == was[j - wordShift]
      invariant forall j | 0 <= j < i :: mask[j] == was[j]
    {
      mask[i] := mask[i - wordShift];
    }
    for i := 0 to wordShift
      invariant forall j | 0 <= j < i :: mask[j] == 0
      invariant forall j | wordShift <= j < WORDS :: mask[j] == was[j - wordShift]
    {
      mask[i] := 0;
    }
    WordsMovedIs(was, wordShift, mask[..]);
  }

  lemma WordsMovedIs(m: Mask, ws: nat, r: Mask)
    requires forall j | 0 <= j < WORDS :: r[j] == if j < ws then 0 else m[j - ws]
    ensures r == WordsMoved(m, ws)
  {
  }

  method ShiftBits(mask: array<word>, bitShift: nat)
    requires mask.Length == WORDS && 0 < bitShift < 64
    modifies mask
    ensures mask[..] == BitsMoved(old(mask[..]), bitShift)
  {
    for i := WORDS downto 1
      invariant forall j | i <= j < WORDS ::
          mask[j] == OrWord(Shl(old(mask[j]), bitShift), Shr(old(mask[j - 1]), 64 - bitShift))
      invariant forall j | 0 <= j < i :: mask[j] == old(mask[j])
    {
      mask[i] := OrWord(Shl(mask[i], bitShift), Shr(mask[i - 1], 64 - bitShift));
    }
    mask[0] := Shl(mask[0], bitShift);
  }
}
