/** Big-endian integers and the variable-length integers of section 16 of RFC 9000. */
module Wire {
  import opened Primitives
  import opened Bits

  /** The result of reading from a buffer: a value and the unread rest, or malformed input. */
  datatype Parsed<+T> = Parsed(value: T, rest: seq<byte>) | Malformed {
    predicate IsFailure() { Malformed? }

    function PropagateFailure<U>(): Parsed<U>
      requires Malformed?
    {
      Malformed
    }

    function Extract(): (T, seq<byte>)
      requires Parsed?
    {
      (value, rest)
    }
  }

  /** `rest` is `s` without its first bytes, at least `n` of them. */
  predicate Consumes(s: seq<byte>, rest: seq<byte>, n: nat) {
    |rest| + n <= |s| && s[|s| - |rest|..] == rest
  }

  function Pow256(n: nat): (r: nat)
    ensures r > 0
  {
    if n == 0 then 1 else 256 * Pow256(n - 1)
  }

  /** `x` in `n` bytes, most significant first; higher digits are cut off. */
  function PutUint(n: nat, x: nat): (s: seq<byte>)
    ensures |s| == n
  {
    if n == 0 then [] else PutUint(n - 1, x / 256) + [x % 256]
  }

  function GetUint(s: seq<byte>): (x: nat)
    ensures x < Pow256(|s|)
  {
    if s == [] then 0 else 256 * GetUint(s[..|s| - 1]) + s[|s| - 1]
  }

  lemma {:induction false} UintRoundTrip(n: nat, x: nat)
    requires x < Pow256(n)
    ensures GetUint(PutUint(n, x)) == x
    decreases n
  {
    if n > 0 {
      UintRoundTrip(n - 1, x / 256);
      assert PutUint(n, x)[..n - 1] == PutUint(n - 1, x / 256);
    }
  }

  /** Reading `n` bytes off the front of a buffer that holds at least that many. */
  function Uint(s: seq<byte>, n: nat): (x: nat)
    requires n <= |s|
    ensures x < Pow256(n)
  {
    GetUint(s[..n])
  }

  lemma ReadUint(n: nat, x: nat, tail: seq<byte>)
    requires x < Pow256(n)
    ensures |PutUint(n, x) + tail| == n + |tail|
    ensures Uint(PutUint(n, x) + tail, n) == x && (PutUint(n, x) + tail)[n..] == tail
  {
    UintRoundTrip(n, x);
    assert (PutUint(n, x) + tail)[..n] == PutUint(n, x);
  }

  lemma Sizes()
    ensures Pow256(0) == 1 && Pow256(1) == 0x100 && Pow256(2) == 0x1_0000 && Pow256(3) == 0x100_0000
    ensures Pow256(4) == 0x1_0000_0000 && Pow256(7) == 0x100_0000_0000_0000 && Pow256(8) == U64_MAX + 1
  {
    assert Pow256(3) == 256 * Pow256(2) && Pow256(5) == 256 * Pow256(4);
    assert Pow256(6) == 256 * Pow256(5) && Pow256(7) == 256 * Pow256(6);
  }

  // ---------- variable-length integers ----------

  /** Values of 2^62 and more do not fit. */
  const VARINT_LIMIT: nat := 0x4000_0000_0000_0000

  /** The two top bits of the first byte give the length; a value that does not fit loses its two top bits. */
  function PutVarint(v: nat): (s: seq<byte>)
    requires v <= U64_MAX
    ensures |s| in {1, 2, 4, 8}
  {
    if v < 64 then PutUint(1, v)
    else if v < 16384 then PutUint(2, v + 0x4000)
    else if v < 1073741824 then PutUint(4, v + 0x8000_0000)
    else PutUint(8, v % VARINT_LIMIT + 3 * VARINT_LIMIT)
  }

  function GetVarint(s: seq<byte>): (r: Parsed<nat>)
    ensures r.Parsed? ==> r.value < VARINT_LIMIT && Consumes(s, r.rest, 1)
  {
    Sizes();
    if |s| < 1 then Malformed
    else
      match s[0] / 64
      case 0 => Parsed(Uint(s, 1), s[1..])
      case 1 => if |s| < 2 then Malformed else Parsed(Uint(s, 2) % 0x4000, s[2..])
      case 2 => if |s| < 4 then Malformed else Parsed(Uint(s, 4) % 0x4000_0000, s[4..])
      case _ => if |s| < 8 then Malformed else Parsed(Uint(s, 8) % VARINT_LIMIT, s[8..])
  }

  /** The leading byte of an `n`-byte integer. */
  lemma {:induction false} FirstByte(n: nat, x: nat)
    requires n > 0 && x < Pow256(n)
    ensures PutUint(n, x)[0] == x / Pow256(n - 1)
    decreases n
  {
    if n > 1 {
      FirstByte(n - 1, x / 256);
      DivTwice(x, Pow256(n - 2));
    } else {
      assert PutUint(1, x) == PutUint(0, x / 256) + [x % 256];
    }
  }

  lemma DivTwice(x: nat, m: nat)
    requires m > 0
    ensures x / 256 / m == x / (256 * m)
  {
    var q, r := x / 256 / m, x / 256 % m;
    assert x / 256 == q * m + r;
    assert x == q * (256 * m) + (256 * r + x % 256);
    DivUnique(x, q, 256 * r + x % 256, 256 * m);
  }

  lemma DivUnique(x: nat, q: int, r: nat, m: nat)
    requires r < m && x == q * m + r
    ensures x / m == q
  {
    ModUnique(x, q, r, m);
    assert (q - x / m) * m == 0;
    MulGap(q - x / m, m);
  }

  /** Encoding and then decoding gives the value back exactly when it is below 2^62, and never
      disturbs what follows. */
  lemma VarintRoundTrip(v: nat, tail: seq<byte>)
    requires v <= U64_MAX
    ensures GetVarint(PutVarint(v) + tail) == Parsed(v % VARINT_LIMIT, tail)
    ensures GetVarint(PutVarint(v) + tail) == Parsed(v, tail) <==> v < VARINT_LIMIT
  {
    hide PutUint, GetUint, Pow256, Uint;
    Sizes();
    var n, x := |PutVarint(v)|, VarintWord(v);
    VarintCase(n, x, VarintTag(v), tail);
    assert PutVarint(v) == PutUint(n, x);
    assert x % VARINT_LIMIT == x - VarintTag(v) * VARINT_LIMIT || v < 1073741824;
  }

  /** The encoding is the shortest of 1, 2, 4 and 8 bytes whose `8n - 2` bits hold the value. */
  lemma VarintShortest(v: nat, n: nat)
    requires v < VARINT_LIMIT && n in {1, 2, 4, 8}
    ensures |PutVarint(v)| <= n <==> v < Pow256(n) / 4
  {
    Sizes();
  }

  /** On arbitrary bytes: the two top bits announce 1, 2, 4 or 8 bytes, and reading succeeds exactly when
      they are there, also for a value that a shorter encoding would have held. */
  lemma VarintReads(s: seq<byte>)
    requires s != []
    ensures var n := Pow2(s[0] / 64);
            GetVarint(s) == if |s| < n then Malformed else Parsed(Uint(s, n) % (Pow256(n) / 4), s[n..])
  {
    hide Uint, Pow256;
    Sizes();
    assert Pow2(1) == 2 && Pow2(2) == 4 && Pow2(3) == 8;
    if s[0] < 64 { FirstDigit(s); }
  }

  lemma FirstDigit(s: seq<byte>)
    requires s != []
    ensures Uint(s, 1) == s[0]
  {
    assert s[..1][..0] == [];
  }

  /** The integer written, with its length tag in the two top bits. */
  function VarintWord(v: nat): nat {
    if v < 64 then v
    else if v < 16384 then v + 0x4000
    else if v < 1073741824 then v + 0x8000_0000
    else v % VARINT_LIMIT + 3 * VARINT_LIMIT
  }

  function VarintTag(v: nat): nat {
    if v < 64 then 0 else if v < 16384 then 1 else if v < 1073741824 then 2 else 3
  }

  lemma VarintCase(n: nat, x: nat, tag: nat, tail: seq<byte>)
    requires n in {1, 2, 4, 8} && x < Pow256(n) && x / Pow256(n - 1) / 64 == tag
    ensures var s := PutUint(n, x) + tail;
            |s| == n + |tail| && s[0] / 64 == tag && Uint(s, n) == x && s[n..] == tail
  {
    hide PutUint, GetUint;
    FirstByte(n, x);
    ReadUint(n, x, tail);
  }
}
