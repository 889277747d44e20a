/** Vocabulary shared by every part of the transport model. */
module Primitives {
  type byte = b: int | 0 <= b < 256

  /** The largest value of the source's `u64`. */
  const U64_MAX: nat := 0xFFFF_FFFF_FFFF_FFFF

  datatype Option<+T> = None | Some(value: T)

  function Min(a: int, b: int): int { if a <= b then a else b }

  function Max(a: int, b: int): int { if a <= b then b else a }

  /** Unsigned subtraction that stops at zero. */
  function SaturatingSub(a: nat, b: nat): nat { if b <= a then a - b else 0 }

  /** `u64` addition that stops at the largest value. */
  function SaturatingAdd(a: nat, b: nat): nat { if a + b <= U64_MAX then a + b else U64_MAX }

  /** The numbers of `[lo, hi)`. */
  ghost function Interval(lo: nat, hi: nat): (r: set<nat>)
    ensures forall o: nat :: o in r <==> lo <= o < hi
    ensures |r| == SaturatingSub(hi, lo)
    decreases hi
  {
    if hi <= lo then {} else Interval(lo, hi - 1) + {hi - 1}
  }

  lemma MulGap(d: int, m: nat)
    ensures d >= 1 ==> d * m >= m
    ensures d <= -1 ==> d * m + m <= 0
  {
    if d >= 1 { assert d * m == (d - 1) * m + m; }
    if d <= -1 { assert d * m + m == (d + 1) * m; }
  }

  /** Quotient and remainder are unique. */
  lemma ModUnique(x: nat, q: int, r: nat, m: nat)
    requires r < m && x == q * m + r
    ensures x % m == r
  {
    var d := q - x / m;
    assert d * m == q * m - x / m * m;
    MulGap(d, m);
  }

  lemma {:induction false} SubsetSize(a: set<nat>, b: set<nat>)
    requires a <= b
    ensures |a| <= |b|
  {
    assert b == a + (b - a);
  }
}
