/** Bytes, powers of two and the little-endian words that QuickLZ reads and writes. */
module Bytes {
  type byte = x: int | 0 <= x < 256

  const WORD := 0x1_0000_0000

  function Pow2(n: nat): (p: nat)
    ensures p >= 1
  {
    if n == 0 then 1 else 2 * Pow2(n - 1)
  }

  /** Exclusive or of the low `n` bits. */
  function Xor(a: nat, b: nat, n: nat): (x: nat)
    ensures x < Pow2(n)
    decreases n, a
  {
    if n == 0 then 0 else (if a % 2 == b % 2 then 0 else 1) + 2 * Xor(a / 2, b / 2, n - 1)
  }

  function Shr(a: nat, n: nat): (x: nat)
    decreases n, a
  {
    if n == 0 then a else Shr(a / 2, n - 1)
  }

  /** The `k` low bytes of `f`, least significant first: what fast_write stores. */
  function LeBytes(f: nat, k: nat): (bs: seq<byte>)
    ensures |bs| == k
  {
    if k == 0 then [] else [f % 256] + LeBytes(f / 256, k - 1)
  }

  /** Four bytes as a little-endian number: the portable fast_read of a word. */
  function FastRead4(bs: seq<byte>): (v: nat)
    requires |bs| >= 4
    ensures v < WORD
  {
    bs[0] as int + 256 * (bs[1] as int) + 65536 * (bs[2] as int) + 16777216 * (bs[3] as int)
  }

  /** One more than the largest number `k` bytes hold. */
  function Radix(k: nat): (p: nat)
    requires 1 <= k <= 4
  {
    if k == 1 then 256 else if k == 2 then 65536 else if k == 3 then 16777216 else WORD
  }

  lemma {:induction false} LeBytesAre(f: nat, k: nat)
    requires 1 <= k <= 4
    ensures LeBytes(f, k)[0] == f % 256
    ensures k > 1 ==> LeBytes(f, k)[1] == f / 256 % 256
    ensures k > 2 ==> LeBytes(f, k)[2] == f / 256 / 256 % 256
    ensures k > 3 ==> LeBytes(f, k)[3] == f / 256 / 256 / 256 % 256
  {
    if k > 1 {
      LeBytesAre(f / 256, k - 1);
    }
  }

  /** A four-byte fetch at `k` written bytes: the written value below whatever follows. */
  lemma {:induction false} Fetch(f: nat, k: nat, rest: seq<byte>) returns (above: nat)
    requires 1 <= k <= 4 && k + |rest| >= 4
    requires f < Radix(k)
    ensures FastRead4(LeBytes(f, k) + rest) == f + Radix(k) * above
    ensures k == 4 ==> above == 0
  {
    LeBytesAre(f, k);
    above :=
      if k == 1 then rest[0] as int + 256 * (rest[1] as int) + 65536 * (rest[2] as int)
      else if k == 2 then rest[0] as int + 256 * (rest[1] as int)
      else if k == 3 then rest[0] as int else 0;
  }

  lemma {:induction false} MulAssoc(a: nat, b: nat, c: nat)
    ensures a * (b * c) == (a * b) * c
  {
  }

  lemma {:induction false} MulNext(a: nat, d: nat)
    ensures a * d + d == (a + 1) * d
  {
  }

  lemma {:induction false} MulMono(a: nat, b: nat, d: nat)
    requires a < b
    ensures a * d + d <= b * d
  {
    var c := b - a - 1;
    assert (a + 1 + c) * d == a * d + d + c * d;
  }

  /** Quotient and remainder are unique. */
  lemma {:induction false} DivMod(x: nat, d: nat, q: nat, r: nat)
    requires r < d && x == q * d + r
    ensures x / d == q && x % d == r
  {
    var q', r' := x / d, x % d;
    assert x == q' * d + r';
    if q' > q {
      MulMono(q, q', d);
    } else if q' < q {
      MulMono(q', q, d);
    }
  }

  lemma {:induction false} Pow2Starts()
    ensures Pow2(0) == 1
  {
  }

  lemma {:induction false} Pow2Step(n: nat)
    ensures Pow2(n + 1) == 2 * Pow2(n)
  {
  }

  lemma {:induction false} Pow2Add(a: nat, b: nat)
    ensures Pow2(a + b) == Pow2(a) * Pow2(b)
  {
    if a > 0 {
      Pow2Add(a - 1, b);
      MulAssoc(2, Pow2(a - 1), Pow2(b));
    }
  }

  lemma {:induction false} Pow2Of31()
    ensures Pow2(31) == 0x8000_0000
  {
    assert Pow2(8) == 256;
    Pow2Add(8, 8);
    Pow2Add(16, 8);
    assert Pow2(7) == 128;
    Pow2Add(24, 7);
  }

  lemma {:induction false} Cut(a: seq<byte>, b: seq<byte>)
    ensures (a + b)[..|a|] == a && (a + b)[|a|..] == b
  {
  }
}
