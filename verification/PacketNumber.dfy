/** Truncated packet numbers: Appendices A.2 and A.3 of RFC 9000, on 64-bit numbers. */
module PacketNumber {
  import opened Primitives
  import opened Bits
  import opened Wire

  /** Number of binary digits; the source counts leading zeros of a 64-bit word instead. */
  function BitLen(x: nat): nat {
    if x == 0 then 0 else 1 + BitLen(x / 2)
  }

  /** Bytes needed for twice the distance to the base, 1 to 4; the doubling wraps at 64 bits. */
  function PnLen(pn: nat, base: nat): (len: nat)
    ensures 1 <= len <= 4
  {
    var doubled := 2 * SaturatingSub(pn, base) % (U64_MAX + 1);
    Max(1, Min(4, (BitLen(doubled) + 7) / 8))
  }

  function TruncatePn(pn: nat, base: nat): (nat, nat) {
    var len := PnLen(pn, base);
    (pn % Pow256(len), len)
  }

  /** The start of the block of `win` numbers that holds `x`. */
  function BlockStart(x: nat, win: nat): (s: nat)
    requires win > 0
    ensures s <= x < s + win && (s == 0 || s >= win)
  {
    MulGap(x / win, win);
    x / win * win
  }

  /** The number congruent to the candidate that is closest to the expected one. */
  function Closest(candidate: nat, expected: nat, win: nat): nat {
    var hwin := win / 2;
    if expected >= hwin && candidate <= expected - hwin then SaturatingAdd(candidate, win)
    else if expected + hwin <= U64_MAX && candidate > expected + hwin && candidate >= win
    then SaturatingSub(candidate, win)
    else candidate
  }

  function ExpandPn(truncated: nat, len: nat, largest: nat): nat
    requires 1 <= len <= 4
  {
    var expected, win := SaturatingAdd(largest, 1), Pow256(len);
    Closest(BlockStart(expected, win) + truncated, expected, win)
  }

  /** The numbers a receiver whose highest number is `largest` recovers from `len` bytes. */
  predicate Decodable(pn: nat, len: nat, largest: nat) {
    var expected, win := SaturatingAdd(largest, 1), Pow256(len);
    if expected < win / 2 then pn < win else expected - win / 2 < pn <= expected + win / 2
  }

  lemma Window(len: nat)
    requires 1 <= len <= 4
    ensures Pow256(len) % 2 == 0 && Pow256(len) >= 256 && U64_MAX % Pow256(len) == Pow256(len) - 1
    ensures Pow256(len) <= 0x1_0000_0000
  {
    Sizes();
  }

  /** Two numbers with the same remainder are equal or whole windows apart. */
  lemma Apart(pn: nat, x: nat, win: nat)
    requires win > 0
    ensures var c := BlockStart(x, win) + pn % win;
            pn == c || pn == c + win || pn == c - win || pn >= c + 2 * win || pn <= c - 2 * win
  {
    var q, b := pn / win, x / win;
    assert pn == q * win + pn % win;
    assert q * win - b * win == (q - b) * win;
    MulGap(q - b - 1, win);
    MulGap(q - b + 1, win);
  }

  /** Blocks do not straddle the end of the 64-bit numbers. */
  lemma LastBlock(x: nat, win: nat)
    requires win > 0 && U64_MAX % win == win - 1 && x <= U64_MAX
    ensures BlockStart(x, win) + win - 1 <= U64_MAX
  {
    var d := U64_MAX / win - x / win;
    assert U64_MAX == U64_MAX / win * win + (win - 1);
    assert d * win == U64_MAX / win * win - x / win * win;
    MulGap(d, win);
  }

  lemma ClosestExactly(pn: nat, c: nat, start: nat, e: nat, win: nat)
    requires win % 2 == 0 && win > 0 && e <= U64_MAX && start <= e < start + win && (start == 0 || start >= win)
    requires start <= c < start + win && c <= U64_MAX && pn <= U64_MAX && (pn == U64_MAX ==> c == start + win - 1)
    requires pn == c || pn == c + win || pn == c - win || pn >= c + 2 * win || pn <= c - 2 * win
    ensures Closest(c, e, win) == pn <==> if e < win / 2 then pn < win else e - win / 2 < pn <= e + win / 2
  {
  }

  /** Expanding a truncated number against the receiver's highest gives the number back exactly when it
      lies in the decoding window: half a window around the expected number or, near zero, the whole
      first window. */
  lemma ExpandExactly(pn: nat, len: nat, largest: nat)
    requires 1 <= len <= 4 && pn <= U64_MAX && largest <= U64_MAX
    ensures ExpandPn(pn % Pow256(len), len, largest) == pn <==> Decodable(pn, len, largest)
  {
    hide Pow256, Closest;
    Window(len);
    var win := Pow256(len);
    var e := SaturatingAdd(largest, 1);
    Apart(pn, e, win);
    LastBlock(e, win);
    ClosestExactly(pn, BlockStart(e, win) + pn % win, BlockStart(e, win), e, win);
  }

  // ---------- the length the sender chooses ----------

  lemma {:induction false} BitLenFits(x: nat, n: nat)
    ensures BitLen(x) <= n <==> x < Pow2(n)
    decreases n
  {
    if n > 0 && x > 0 { BitLenFits(x / 2, n - 1); }
  }

  lemma {:induction false} BytesAsBits(len: nat)
    ensures Pow256(len) == Pow2(8 * len)
  {
    if len > 0 {
      BytesAsBits(len - 1);
      Pow8();
      Pow2Add(8 * (len - 1), 8);
    }
  }

  /** For distances below 2^31 half a window of the chosen length holds the distance. */
  lemma LenCovers(pn: nat, base: nat)
    requires SaturatingSub(pn, base) < 0x8000_0000
    ensures 2 * SaturatingSub(pn, base) < Pow256(PnLen(pn, base))
  {
    hide Pow256, Pow2, BitLen;
    var doubled := 2 * SaturatingSub(pn, base);
    var len := PnLen(pn, base);
    Sizes();
    BytesAsBits(len);
    BytesAsBits(4);
    BitLenFits(doubled, 32);
    BitLenFits(doubled, 8 * len);
  }

  /** And no shorter length would: one byte less cannot hold twice the distance. */
  lemma LenShortest(pn: nat, base: nat)
    requires SaturatingSub(pn, base) < 0x8000_0000 && PnLen(pn, base) > 1
    ensures 2 * SaturatingSub(pn, base) >= Pow256(PnLen(pn, base) - 1)
  {
    hide Pow256, Pow2, BitLen;
    var doubled := 2 * SaturatingSub(pn, base);
    var len := PnLen(pn, base);
    BytesAsBits(len - 1);
    BitLenFits(doubled, 8 * (len - 1));
  }

  /**
   * The sender's base is at most the receiver's highest number and less than 2^31 below `pn`, and the
   * receiver is less than half a window ahead: the number survives.
   */
  lemma PacketNumberRoundTrip(pn: nat, base: nat, largest: nat)
    requires pn <= U64_MAX && largest < U64_MAX && base <= largest && pn < base + 0x8000_0000
    requires largest + 1 < pn + Pow256(PnLen(pn, base)) / 2
    ensures var (t, len) := TruncatePn(pn, base); ExpandPn(t, len, largest) == pn
  {
    hide Pow256, ExpandPn, PnLen;
    var len := PnLen(pn, base);
    Window(len);
    LenCovers(pn, base);
    ExpandExactly(pn, len, largest);
  }

  /** Exactly when a number the sender truncated comes back: it lies in the decoding window of the length
      chosen from the sender's base. The base matters through that length alone. */
  lemma RoundTripExactly(pn: nat, base: nat, largest: nat)
    requires pn <= U64_MAX && largest <= U64_MAX
    ensures var (t, len) := TruncatePn(pn, base);
            ExpandPn(t, len, largest) == pn <==> Decodable(pn, PnLen(pn, base), largest)
  {
    hide Pow256, ExpandPn, Decodable, PnLen;
    ExpandExactly(pn, PnLen(pn, base), largest);
  }

  /** A receiver that has the number before it recovers every number, however far the sender's base is:
      half a window of any length reaches one further. */
  lemma NextNumberSurvives(pn: nat, base: nat)
    requires 0 < pn <= U64_MAX
    ensures var (t, len) := TruncatePn(pn, base); ExpandPn(t, len, pn - 1) == pn
  {
    hide Pow256, ExpandPn, PnLen;
    Window(PnLen(pn, base));
    RoundTripExactly(pn, base, pn - 1);
  }

  /** An input that fails: at a distance of 2^63 the doubling wraps to zero, one byte is chosen, and a
      receiver that has seen only number 0 cannot tell the number. */
  lemma FarNumberIsLost()
    ensures var pn := 0x8000_0000_0000_0000;
            var (t, len) := TruncatePn(pn, 0);
            len == 1 && ExpandPn(t, len, 0) != pn
  {
    ExpandExactly(0x8000_0000_0000_0000, 1, 0);
  }
}
