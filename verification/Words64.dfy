/** Arithmetic of 64-bit words, written as numbers below 2^64, and what undoes each operation. */
module Words64 {
  import opened Bytes

  const W := 0x1_0000_0000_0000_0000

  type u64 = x: int | 0 <= x < W

  lemma {:induction false} Pow2Of64()
    ensures Pow2(64) == W
  {
    hide Pow2;
    Pow2Of33();
    Pow2Of31();
    Pow2Add(33, 31);
  }

  function Add(a: u64, b: u64): (x: u64) {
    if a + b < W then a + b else a + b - W
  }

  function Mul(a: u64, c: u64): (x: u64) {
    a * c % W
  }

  function Xor64(a: u64, b: nat): (x: u64) {
    Pow2Of64();
    Xor(a, b, 64)
  }

  const P27 := 0x800_0000
  const P31 := 0x8000_0000
  const P33 := 0x2_0000_0000
  const P37 := 0x20_0000_0000

  /** A rotation to the left by r bits, for `b` = 2^r and `a` = 2^(64 - r). */
  function Rotl(x: u64, a: nat, b: nat): (y: u64)
    requires a > 0 && b > 0 && a * b == W
  {
    RotlBounds(x, a, b);
    x % a * b + x / a
  }

  lemma {:induction false} RotlBounds(x: u64, a: nat, b: nat)
    requires a > 0 && b > 0 && a * b == W
    ensures x / a < b && 0 <= x % a * b + x / a < W
  {
    var q, m := x / a, x % a;
    assert x == q * a + m;
    if q > b {
      MulMono(b, q, a);
    }
    MulMono(m, a, b);
  }

  /** Rotating on to a full turn undoes a rotation. */
  lemma {:induction false} RotlUndoes(x: u64, a: nat, b: nat)
    requires a > 0 && b > 0 && a * b == W && b * a == W
    ensures Rotl(Rotl(x, a, b), b, a) == x
  {
    var q, m := x / a, x % a;
    RotlBounds(x, a, b);
    DivMod(m * b + q, b, m, q);
  }

  /** Multiplying by the inverse undoes a multiplication. */
  lemma {:induction false} MulUndoes(x: u64, c: u64, inverse: u64, t: nat)
    requires c * inverse == t * W + 1
    ensures Mul(Mul(x, c), inverse) == x
  {
    var q, r := x * c / W, Mul(x, c);
    assert x * c == q * W + r;
    var n := x * t - q * inverse;
    assert r * inverse == n * W + x by {
      assert (x * c) * inverse == x * (c * inverse);
      assert (q * W + r) * inverse == (q * inverse) * W + r * inverse;
      assert x * (t * W + 1) == (x * t) * W + x;
    }
    assert n >= 0;
    DivMod(r * inverse, W, n, x);
  }

  lemma {:induction false} XorUndoes(a: nat, b: nat, n: nat)
    requires a < Pow2(n)
    ensures Xor(Xor(a, b, n), b, n) == a
    decreases n
  {
    if n > 0 {
      var y := Xor(a / 2, b / 2, n - 1);
      XorUndoes(a / 2, b / 2, n - 1);
      var bit := if a % 2 == b % 2 then 0 else 1;
      DivMod(bit + 2 * y, 2, y, bit);
    }
  }

  lemma {:induction false} XorSwaps(a: nat, b: nat, n: nat)
    ensures Xor(a, b, n) == Xor(b, a, n)
    decreases n
  {
    if n > 0 { XorSwaps(a / 2, b / 2, n - 1); }
  }

  lemma {:induction false} XorZero(a: nat, n: nat)
    requires a < Pow2(n)
    ensures Xor(a, 0, n) == a
    decreases n
  {
    if n > 0 {
      XorZero(a / 2, n - 1);
    }
  }

  lemma {:induction false} ShrDivides(a: nat, s: nat)
    ensures Shr(a, s) == a / Pow2(s)
    decreases s
  {
    if s > 0 {
      ShrDivides(a / 2, s - 1);
      DivTwice(a, 2, Pow2(s - 1));
    }
  }

  /** A shift to the right goes through an exclusive or. */
  lemma {:induction false} XorShr(a: nat, b: nat, n: nat, s: nat)
    requires s <= n
    ensures Shr(Xor(a, b, n), s) == Xor(Shr(a, s), Shr(b, s), n - s)
    decreases s
  {
    if s > 0 {
      var x := Xor(a / 2, b / 2, n - 1);
      var bit := if a % 2 == b % 2 then 0 else 1;
      XorShr(a / 2, b / 2, n - 1, s - 1);
      DivMod(bit + 2 * x, 2, x, bit);
    }
  }

  lemma {:induction false} DivTwice(x: nat, c: nat, d: nat)
    requires c > 0 && d > 0
    ensures c * d > 0 && x / c / d == x / (c * d)
  {
    var q, r := x / c, x % c;
    var q', r' := q / d, q % d;
    Rebuilt(x, c);
    Rebuilt(q, d);
    Spread(q', d, r', c);
    MulMono(r', d, c);
    DivMod(x, c * d, q', r' * c + r);
  }

  lemma Rebuilt(x: nat, d: nat)
    requires d > 0
    ensures x == x / d * d + x % d && x % d < d
  {
  }

  lemma Spread(q: nat, d: nat, r: nat, c: nat)
    ensures (q * d + r) * c == q * (c * d) + r * c && d * c == c * d
    ensures c > 0 && d > 0 ==> c * d > 0
  {
    MulAssoc(q, d, c);
  }

  function XorShift33(k: u64): (x: u64) {
    Xor64(k, k / P33)
  }

  lemma {:induction false} Pow2Of33()
    ensures Pow2(33) == P33
  {
    Pow2Of31();
    assert Pow2(2) == 4;
    Pow2Add(31, 2);
  }

  /** The xor-shift of the finaliser is its own inverse: the shift is more than half a word. */
  lemma {:induction false} XorShiftUndoes(k: u64)
    ensures XorShift33(XorShift33(k)) == k
  {
    hide Xor, Pow2, Shr;
    Pow2Of33();
    Pow2Of64();
    Pow2Add(33, 31);
    Pow2Of31();
    var h := k / P33;
    assert h < Pow2(31) && h / P33 == 0 by { DivMod(k, P33, h, k % P33); DivMod(h, P33, 0, h); }
    ShrDivides(k, 33);
    ShrDivides(h, 33);
    ShrDivides(Xor(k, h, 64), 33);
    XorShr(k, h, 64, 33);
    XorZero(h, 31);
    XorUndoes(k, h, 64);
  }
}
