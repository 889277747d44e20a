/** Machine words as natural numbers: single bits, shifts, OR and exclusive OR on binary digits. */
module Bits {
  import opened Primitives

  /** A 64-bit word. */
  type word = w: int | 0 <= w <= U64_MAX

  function Pow2(n: nat): (r: nat)
    ensures r > 0
  {
    if n == 0 then 1 else 2 * Pow2(n - 1)
  }

  /** Bit `k` of a number, counted from the lowest. */
  predicate Bit(w: nat, k: nat)
    decreases k
  {
    if k == 0 then w % 2 == 1 else Bit(w / 2, k - 1)
  }

  function OrWord(a: word, b: word): word {
    Pow64();
    OrFits(a, b, 64);
    Or(a, b)
  }

  /** Right shift. */
  function Shr(w: nat, s: nat): (r: nat)
    ensures r <= w
    decreases s
  {
    if s == 0 then w else Shr(w / 2, s - 1)
  }

  /** Left shift of a 64-bit word: bits that leave the word are lost. */
  function Shl(w: word, s: nat): word
    decreases s
  {
    if s == 0 then w else Shl(2 * w % (U64_MAX + 1), s - 1)
  }

  function Or(a: nat, b: nat): (r: nat)
    decreases a + b
  {
    if a == 0 && b == 0 then 0
    else (if a % 2 == 1 || b % 2 == 1 then 1 else 0) + 2 * Or(a / 2, b / 2)
  }

  function Xor(a: nat, b: nat): (r: nat)
    decreases a + b
  {
    if a == 0 && b == 0 then 0
    else (if a % 2 != b % 2 then 1 else 0) + 2 * Xor(a / 2, b / 2)
  }

  // ---------- bits of the results ----------

  lemma {:induction false} NoHighBit(w: nat, n: nat, k: nat)
    requires w < Pow2(n) && n <= k
    ensures !Bit(w, k)
    decreases k
  {
    if n > 0 { NoHighBit(w / 2, n - 1, k - 1); } else if k > 0 { NoHighBit(w / 2, 0, k - 1); }
  }

  lemma {:induction false} OnesBit(n: nat, k: nat)
    requires k < n
    ensures Bit(Pow2(n) - 1, k)
    decreases k
  {
    if k > 0 { OnesBit(n - 1, k - 1); }
  }

  lemma {:induction false} ShrBit(w: nat, s: nat, k: nat)
    ensures Bit(Shr(w, s), k) <==> Bit(w, s + k)
    decreases s
  {
    if s > 0 { ShrBit(w / 2, s - 1, k); }
  }

  lemma HalfMod(w: nat, m: nat)
    requires 0 < m
    ensures w % (2 * m) / 2 == w / 2 % m && w % (2 * m) % 2 == w % 2
  {
    var h, q := w / 2, w / 2 / m;
    assert h == q * m + h % m;
    assert w == q * (2 * m) + (2 * (h % m) + w % 2);
    ModUnique(w, q, 2 * (h % m) + w % 2, 2 * m);
  }

  /** Cutting a number down to `n` bits keeps those bits. */
  lemma {:induction false} ModBit(w: nat, n: nat, k: nat)
    requires k < n
    ensures Bit(w % Pow2(n), k) <==> Bit(w, k)
    decreases k
  {
    HalfMod(w, Pow2(n - 1));
    if k > 0 { ModBit(w / 2, n - 1, k - 1); }
  }

  lemma Pow8()
    ensures Pow2(8) == 0x100
  {
  }

  lemma Pow64()
    ensures Pow2(64) == U64_MAX + 1
  {
    hide Pow2;
    Pow8();
    Pow2Add(8, 8);
    Pow2Add(16, 16);
    Pow2Add(32, 32);
  }

  lemma {:induction false} Pow2Add(a: nat, b: nat)
    ensures Pow2(a + b) == Pow2(a) * Pow2(b)
    decreases b
  {
    if b > 0 {
      Pow2Add(a, b - 1);
      assert Pow2(a) * (2 * Pow2(b - 1)) == 2 * (Pow2(a) * Pow2(b - 1));
    }
  }

  lemma DoubleBit(w: word, k: nat)
    requires k < 64
    ensures Bit(2 * w % (U64_MAX + 1), k) <==> k > 0 && Bit(w, k - 1)
  {
    Pow64();
    ModBit(2 * w, 64, k);
  }

  /** A 64-bit left shift by `s` moves bit `k - s` to bit `k` and clears the low bits. */
  lemma {:induction false} ShlBit(w: word, s: nat, k: nat)
    requires k < 64
    ensures Bit(Shl(w, s), k) <==> s <= k && Bit(w, k - s)
    decreases s
  {
    if s > 0 {
      ShlBit(2 * w % (U64_MAX + 1), s - 1, k);
      if s <= k + 1 { DoubleBit(w, k - (s - 1)); }
    }
  }

  lemma OrDigit(a: nat, b: nat)
    ensures Or(a, b) / 2 == Or(a / 2, b / 2) && (Or(a, b) % 2 == 1 <==> a % 2 == 1 || b % 2 == 1)
  {
  }

  lemma {:induction false} OrBit(a: nat, b: nat, k: nat)
    ensures Bit(Or(a, b), k) <==> Bit(a, k) || Bit(b, k)
    decreases k
  {
    hide Or;
    OrDigit(a, b);
    if k > 0 { OrBit(a / 2, b / 2, k - 1); }
  }

  lemma OrWordBit(a: word, b: word, k: nat)
    ensures Bit(OrWord(a, b), k) <==> Bit(a, k) || Bit(b, k)
  {
    OrBit(a, b, k);
  }

  lemma {:induction false} OrFits(a: nat, b: nat, n: nat)
    requires a < Pow2(n) && b < Pow2(n)
    ensures Or(a, b) < Pow2(n)
    decreases n
  {
    if n > 0 { OrFits(a / 2, b / 2, n - 1); }
  }

  lemma {:induction false} OneBit(s: nat, k: nat)
    requires k < 64
    ensures Bit(Shl(1, s), k) <==> k == s
  {
    ShlBit(1, s, k);
    if s < k { NoHighBit(1, 1, k - s); }
  }

  lemma {:induction false} ZeroBit(k: nat)
    ensures !Bit(0, k)
    decreases k
  {
    if k > 0 { ZeroBit(k - 1); }
  }

  // ---------- exclusive OR ----------

  /** Applying the same mask twice changes nothing. */
  lemma {:induction false} XorBit(a: nat, b: nat, k: nat)
    ensures Bit(Xor(a, b), k) <==> Bit(a, k) != Bit(b, k)
    decreases k
  {
    if a == 0 && b == 0 {
      ZeroBit(k);
    } else if k > 0 {
      assert Xor(a, b) / 2 == Xor(a / 2, b / 2);
      XorBit(a / 2, b / 2, k - 1);
    }
  }

  lemma {:induction false} XorTwice(a: nat, m: nat)
    ensures Xor(Xor(a, m), m) == a
    decreases a + m
  {
    if a > 0 || m > 0 { XorTwice(a / 2, m / 2); }
  }

  lemma {:induction false} XorFits(a: nat, b: nat, n: nat)
    requires a < Pow2(n) && b < Pow2(n)
    ensures Xor(a, b) < Pow2(n)
    decreases n
  {
    if n > 0 { XorFits(a / 2, b / 2, n - 1); }
  }

  /** A mask of `n` bits leaves the digits above them alone. */
  lemma {:induction false} XorKeepsHigh(a: nat, m: nat, n: nat)
    requires m < Pow2(n)
    ensures Shr(Xor(a, m), n) == Shr(a, n)
    decreases n
  {
    if n == 0 {
      XorZero(a);
    } else {
      XorKeepsHigh(a / 2, m / 2, n - 1);
      assert Xor(a, m) / 2 == Xor(a / 2, m / 2);
    }
  }

  lemma {:induction false} XorZero(a: nat)
    ensures Xor(a, 0) == a
  {
    if a > 0 { XorZero(a / 2); }
  }
}
