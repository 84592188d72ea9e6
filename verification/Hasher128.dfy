/** The 128-bit Murmur3 hash of the decompression server. */
module Hasher128 {
  import opened Bytes
  import opened Words64

  const C1 := 0x87c3_7b91_1142_53d5
  const C2 := 0x4cf5_ad43_2745_937f
  const F1 := 0xff51_afd7_ed55_8ccd
  const F2 := 0xc4ce_b9fe_1a85_ec53

  /** The multipliers are odd, so each has an inverse. */
  lemma MulInjective(x: u64, y: u64, c: u64)
    requires (c == C1 || c == C2 || c == 5 || c == F1 || c == F2) && Mul(x, c) == Mul(y, c)
    ensures x == y
  {
    hide Mul;
    var inverse, t :=
      if c == C1 then 0xa984_09e8_82ce_4d7d else if c == C2 then 0xa81e_14ed_d9de_2c7f
      else if c == 5 then 0xcccc_cccc_cccc_cccd else if c == F1 then 0x4f74_430c_22a5_4005
      else 0x9cb4_b2f8_1293_37db,
      if c == C1 then 6477885590964564419 else if c == C2 then 3641798879065535354
      else if c == 5 then 4 else if c == F1 then 5710046619856821070 else 8680939279959119233;
    MulUndoes(x, c, inverse, t);
    MulUndoes(y, c, inverse, t);
  }

  function Fmix(k: u64): (x: u64) {
    XorShift33(Mul(XorShift33(Mul(XorShift33(k), F1)), F2))
  }

  /** The finaliser loses nothing. */
  lemma FmixInjective(x: u64, y: u64)
    requires Fmix(x) == Fmix(y)
    ensures x == y
  {
    hide Mul, XorShift33;
    var x1, y1 := Mul(XorShift33(x), F1), Mul(XorShift33(y), F1);
    var x2, y2 := Mul(XorShift33(x1), F2), Mul(XorShift33(y1), F2);
    XorShiftUndoes(x2);
    XorShiftUndoes(y2);
    MulInjective(XorShift33(x1), XorShift33(y1), F2);
    XorShiftUndoes(x1);
    XorShiftUndoes(y1);
    MulInjective(XorShift33(x), XorShift33(y), F1);
    XorShiftUndoes(x);
    XorShiftUndoes(y);
  }

  function Mix1(k: u64): (x: u64) {
    Mul(Rotl(Mul(k, C1), P33, P31), C2)
  }

  function Mix2(k: u64): (x: u64) {
    Mul(Rotl(Mul(k, C2), P31, P33), C1)
  }

  lemma Mix1Injective(x: u64, y: u64)
    requires Mix1(x) == Mix1(y)
    ensures x == y
  {
    hide Mul, Rotl;
    var x1, y1 := Mul(x, C1), Mul(y, C1);
    MulInjective(Rotl(x1, P33, P31), Rotl(y1, P33, P31), C2);
    RotlUndoes(x1, P33, P31);
    RotlUndoes(y1, P33, P31);
    MulInjective(x, y, C1);
  }

  lemma Mix2Injective(x: u64, y: u64)
    requires Mix2(x) == Mix2(y)
    ensures x == y
  {
    hide Mul, Rotl;
    var x1, y1 := Mul(x, C2), Mul(y, C2);
    MulInjective(Rotl(x1, P31, P33), Rotl(y1, P31, P33), C1);
    RotlUndoes(x1, P31, P33);
    RotlUndoes(y1, P31, P33);
    MulInjective(x, y, C2);
  }

  datatype H = H(h1: u64, h2: u64)
  datatype Block = Block(k1: u64, k2: u64)

  /** Half of a turn: `m` is the mixed word, `o` the other half of the state. */
  function Half(h: u64, m: u64, o: u64, a: nat, b: nat, c: u64): (r: u64)
    requires a > 0 && b > 0 && a * b == W
  {
    Add(Mul(Add(Rotl(Xor64(h, m), a, b), o), 5), c)
  }

  /** One turn of the body: a 16-byte block goes into the state. */
  function Round(h: H, b: Block): (r: H) {
    var h1 := Half(h.h1, Mix1(b.k1), h.h2, P37, P27, 0x52dce729);
    H(h1, Half(h.h2, Mix2(b.k2), h1, P33, P31, 0x38495ab5))
  }

  lemma AddInjective(x: u64, y: u64, c: u64)
    requires Add(x, c) == Add(y, c)
    ensures x == y
  {
  }

  /** Exclusive or with equal words on one side. */
  lemma XorInjective(x: u64, y: u64, a: u64, b: u64)
    requires Xor64(x, a) == Xor64(y, b)
    ensures (a == b ==> x == y) && (x == y ==> a == b)
  {
    hide Xor, Pow2;
    Pow2Of64();
    XorUndoes(x, a, 64);
    XorUndoes(y, b, 64);
    XorSwaps(x, a, 64);
    XorSwaps(y, b, 64);
    XorUndoes(a, x, 64);
    XorUndoes(b, y, 64);
  }

  lemma HalfInjective(h: u64, m: u64, h': u64, m': u64, o: u64, a: nat, b: nat, c: u64)
    requires a > 0 && b > 0 && a * b == W && b * a == W
    requires Half(h, m, o, a, b, c) == Half(h', m', o, a, b, c)
    ensures (m == m' ==> h == h') && (h == h' ==> m == m')
  {
    hide Mul, Rotl, Xor64, Add;
    var x, y := Xor64(h, m), Xor64(h', m');
    var x1, y1 := Add(Rotl(x, a, b), o), Add(Rotl(y, a, b), o);
    AddInjective(Mul(x1, 5), Mul(y1, 5), c);
    MulInjective(x1, y1, 5);
    AddInjective(Rotl(x, a, b), Rotl(y, a, b), o);
    RotlUndoes(x, a, b);
    RotlUndoes(y, a, b);
    XorInjective(h, h', m, m');
  }

  /** A turn can be run backwards: it is injective in the state and in the block. */
  lemma RoundInjective(h: H, b: Block, g: H, d: Block)
    requires Round(h, b) == Round(g, d)
    ensures (b == d ==> h == g) && (h == g ==> b == d)
  {
    hide Half, Mix1, Mix2;
    var r := Round(h, b);
    HalfInjective(h.h2, Mix2(b.k2), g.h2, Mix2(d.k2), r.h1, P33, P31, 0x38495ab5);
    if b == d || h == g {
      HalfInjective(h.h1, Mix1(b.k1), g.h1, Mix1(d.k1), h.h2, P37, P27, 0x52dce729);
    }
    if h == g {
      Mix1Injective(b.k1, d.k1);
      Mix2Injective(b.k2, d.k2);
    }
  }

  // From bytes to words.

  /** Bytes as a little-endian number. */
  function Le(bs: seq<byte>): (v: nat) {
    if bs == [] then 0 else bs[0] + 256 * Le(bs[1..])
  }

  lemma {:induction false} LeBound(bs: seq<byte>)
    ensures Le(bs) < Pow2(8 * |bs|)
  {
    if bs != [] {
      LeBound(bs[1..]);
      assert Pow2(8) == 256;
      Pow2Add(8, 8 * (|bs| - 1));
    }
  }

  lemma {:induction false} Pow2Grows(m: nat, n: nat)
    requires m <= n
    ensures Pow2(m) <= Pow2(n)
  {
    if m < n { Pow2Grows(m, n - 1); }
  }

  function Word(bs: seq<byte>): (v: u64)
    requires |bs| <= 8
  {
    LeBound(bs);
    Pow2Grows(8 * |bs|, 64);
    Pow2Of64();
    Le(bs)
  }

  lemma {:induction false} LeInjective(a: seq<byte>, b: seq<byte>)
    requires |a| == |b| && Le(a) == Le(b)
    ensures a == b
  {
    if a != [] {
      DivMod(Le(a), 256, Le(a[1..]), a[0]);
      DivMod(Le(b), 256, Le(b[1..]), b[0]);
      LeInjective(a[1..], b[1..]);
      assert a == [a[0]] + a[1..] && b == [b[0]] + b[1..];
    }
  }

  function BlockAt(data: seq<byte>, i: nat): (b: Block)
    requires 16 * i + 16 <= |data|
  {
    Block(Word(data[16 * i..16 * i + 8]), Word(data[16 * i + 8..16 * i + 16]))
  }

  function Body(data: seq<byte>, n: nat): (h: H)
    requires 16 * n <= |data|
  {
    if n == 0 then H(0, 0) else Round(Body(data, n - 1), BlockAt(data, n - 1))
  }

  /** The last bytes, fewer than 16: the upper ones into h2, then the lower ones into h1. */
  function Tail(h: H, t: seq<byte>): (r: H)
    requires |t| < 16
  {
    var h2 := if |t| >= 9 then Xor64(h.h2, Mix2(Word(t[8..]))) else h.h2;
    var h1 := if |t| >= 1 then Xor64(h.h1, Mix1(Word(t[..if |t| < 8 then |t| else 8]))) else h.h1;
    H(h1, h2)
  }

  function Finish(h: H, len: nat): (r: H) {
    var h1, h2 := Xor64(h.h1, len), Xor64(h.h2, len);
    var a1 := Add(h1, h2);
    var a2 := Add(h2, a1);
    var f1, f2 := Fmix(a1), Fmix(a2);
    var g1 := Add(f1, f2);
    H(g1, Add(f2, g1))
  }

  /** The state the hash ends in; what it returns is the first half. */
  function Digest(data: seq<byte>): (h: H) {
    var n := |data| / 16;
    Finish(Tail(Body(data, n), data[16 * n..]), |data|)
  }

  lemma XorSame(x: u64, y: u64, c: nat)
    requires Xor64(x, c) == Xor64(y, c)
    ensures x == y
  {
    hide Xor, Pow2;
    Pow2Of64();
    XorUndoes(x, c, 64);
    XorUndoes(y, c, 64);
  }

  lemma FinishInjective(h: H, g: H, len: nat)
    requires Finish(h, len) == Finish(g, len)
    ensures h == g
  {
    hide Xor64, Add, Fmix;
    var x1, x2, y1, y2 := Xor64(h.h1, len), Xor64(h.h2, len), Xor64(g.h1, len), Xor64(g.h2, len);
    var a1, b1 := Add(x1, x2), Add(y1, y2);
    var a2, b2 := Add(x2, a1), Add(y2, b1);
    AddInjective(Fmix(a2), Fmix(b2), Finish(h, len).h1);
    AddInjective(Fmix(a1), Fmix(b1), Fmix(a2));
    FmixInjective(a1, b1);
    FmixInjective(a2, b2);
    AddInjective(x2, y2, a1);
    AddInjective(x1, y1, x2);
    XorSame(h.h1, g.h1, len);
    XorSame(h.h2, g.h2, len);
  }

  lemma TailInjective(h: H, t: seq<byte>, g: H, u: seq<byte>)
    requires |t| == |u| < 16 && Tail(h, t) == Tail(g, u)
    ensures (t == u ==> h == g) && (h == g ==> t == u)
  {
    hide Xor64, Mix1, Mix2, Le;
    var m := if |t| < 8 then |t| else 8;
    if |t| >= 9 {
      XorInjective(h.h2, g.h2, Mix2(Word(t[8..])), Mix2(Word(u[8..])));
      if h == g {
        Mix2Injective(Word(t[8..]), Word(u[8..]));
        LeInjective(t[8..], u[8..]);
      }
    }
    if |t| >= 1 {
      XorInjective(h.h1, g.h1, Mix1(Word(t[..m])), Mix1(Word(u[..m])));
      if h == g {
        Mix1Injective(Word(t[..m]), Word(u[..m]));
        LeInjective(t[..m], u[..m]);
        assert t == t[..m] + t[m..] && u == u[..m] + u[m..];
      }
    }
  }

  /** Two texts that agree outside the 16 bytes of block `i`. */
  predicate AgreeOutside(d: seq<byte>, e: seq<byte>, i: nat) {
    |d| == |e| && forall j :: 0 <= j < |d| && !(16 * i <= j < 16 * i + 16) ==> d[j] == e[j]
  }

  lemma SameBlock(d: seq<byte>, e: seq<byte>, i: nat, k: nat)
    requires AgreeOutside(d, e, i) && k != i && 16 * k + 16 <= |d|
    ensures BlockAt(d, k) == BlockAt(e, k)
  {
    assert d[16 * k..16 * k + 8] == e[16 * k..16 * k + 8];
    assert d[16 * k + 8..16 * k + 16] == e[16 * k + 8..16 * k + 16];
  }

  lemma {:induction false} SameBody(d: seq<byte>, e: seq<byte>, i: nat, n: nat)
    requires AgreeOutside(d, e, i) && n <= i && 16 * n <= |d|
    ensures Body(d, n) == Body(e, n)
  {
    hide Round, BlockAt;
    if n > 0 {
      SameBody(d, e, i, n - 1);
      SameBlock(d, e, i, n - 1);
    }
  }

  /** Running the body backwards over equal blocks. */
  lemma {:induction false} BodyBack(d: seq<byte>, e: seq<byte>, i: nat, n: nat)
    requires AgreeOutside(d, e, i) && i < n && 16 * n <= |d| && Body(d, n) == Body(e, n)
    ensures Body(d, i + 1) == Body(e, i + 1)
    decreases n
  {
    hide Round, BlockAt;
    if i + 1 < n {
      SameBlock(d, e, i, n - 1);
      RoundInjective(Body(d, n - 1), BlockAt(d, n - 1), Body(e, n - 1), BlockAt(e, n - 1));
      BodyBack(d, e, i, n - 1);
    }
  }

  lemma BlockInjective(d: seq<byte>, e: seq<byte>, i: nat)
    requires |d| == |e| && 16 * i + 16 <= |d| && BlockAt(d, i) == BlockAt(e, i)
    ensures forall j :: 16 * i <= j < 16 * i + 16 ==> d[j] == e[j]
  {
    var lo, mid, hi := 16 * i, 16 * i + 8, 16 * i + 16;
    LeInjective(d[lo..mid], e[lo..mid]);
    LeInjective(d[mid..hi], e[mid..hi]);
    forall j | lo <= j < hi ensures d[j] == e[j] {
      if j < mid {
        assert d[lo..mid][j - lo] == e[lo..mid][j - lo];
      } else {
        assert d[mid..hi][j - mid] == e[mid..hi][j - mid];
      }
    }
  }

  /** Texts of one length that agree outside one 16-byte block (the tail is one) and end in the same state are equal. */
  lemma OneBlockShows(d: seq<byte>, e: seq<byte>, i: nat)
    requires AgreeOutside(d, e, i) && Digest(d) == Digest(e)
    ensures d == e
  {
    hide Body, Tail, Finish, BlockAt, Round;
    var n := |d| / 16;
    var t, u := d[16 * n..], e[16 * n..];
    FinishInjective(Tail(Body(d, n), t), Tail(Body(e, n), u), |d|);
    TailInjective(Body(d, n), t, Body(e, n), u);
    if i < n {
      assert t == u;
      BodyBack(d, e, i, n);
      SameBody(d, e, i, i);
      BodyStep(d, i);
      BodyStep(e, i);
      RoundInjective(Body(d, i), BlockAt(d, i), Body(e, i), BlockAt(e, i));
      BlockInjective(d, e, i);
    } else {
      SameBody(d, e, i, n);
      forall j | 16 * n <= j < |d| ensures d[j] == e[j] {
        assert t[j - 16 * n] == u[j - 16 * n];
      }
    }
  }

  lemma {:induction false} BodyStep(d: seq<byte>, i: nat)
    requires 16 * i + 16 <= |d|
    ensures Body(d, i + 1) == Round(Body(d, i), BlockAt(d, i))
  {
  }

  // The hash as it runs.

  /** Bits below bit `m` put under a number shifted up by `m`. */
  lemma {:induction false} XorJoins(hi: nat, lo: nat, m: nat, n: nat)
    requires m <= n && lo < Pow2(m) && hi * Pow2(m) + lo < Pow2(n)
    ensures Xor(hi * Pow2(m), lo, n) == hi * Pow2(m) + lo
    decreases m
  {
    if m == 0 {
      XorZero(hi, n);
    } else {
      var x := hi * Pow2(m - 1);
      assert hi * Pow2(m) == 2 * x;
      DivMod(2 * x, 2, x, 0);
      XorJoins(hi, lo / 2, m - 1, n - 1);
    }
  }

  lemma {:induction false} ShiftedByte(bs: seq<byte>, i: nat)
    requires i < |bs| <= 8
    ensures Le(bs[i..]) * Pow2(8 * i) == Le(bs[i + 1..]) * Pow2(8 * i + 8) + bs[i] * Pow2(8 * i)
    ensures bs[i] * Pow2(8 * i) < Pow2(8 * i + 8) && Le(bs[i..]) * Pow2(8 * i) < W
  {
    hide Pow2;
    var p := Pow2(8 * i);
    assert Pow2(8 * i + 8) == p * 256 by { Pow2Add(8 * i, 8); EightBits(); }
    assert bs[i..][1..] == bs[i + 1..];
    assert Le(bs[i..]) == bs[i] + 256 * Le(bs[i + 1..]);
    Spread(bs[i], Le(bs[i + 1..]), p);
    MulMono(bs[i], 256, p);
    LeBound(bs[i..]);
    MulMono(Le(bs[i..]), Pow2(8 * (|bs| - i)), p);
    Pow2Add(8 * (|bs| - i), 8 * i);
    Pow2Grows(8 * |bs|, 64);
    Pow2Of64();
  }

  lemma EightBits()
    ensures Pow2(8) == 256
  {
  }

  lemma Spread(b: nat, v: nat, p: nat)
    ensures (b + 256 * v) * p == v * (p * 256) + b * p
  {
  }

  /** The fall-through cases of the switch: the bytes of the tail, from the last down, each shifted into place. */
  method Gather(bs: seq<byte>) returns (k: u64)
    requires |bs| <= 8
    ensures k == Word(bs)
  {
    hide Xor, Pow2;
    k := 0;
    var i := |bs|;
    assert bs[i..] == [];
    while i > 0
      invariant 0 <= i <= |bs| && k == Le(bs[i..]) * Pow2(8 * i)
    {
      i := i - 1;
      ShiftedByte(bs, i);
      Pow2Of64();
      XorJoins(Le(bs[i + 1..]), bs[i] * Pow2(8 * i), 8 * i + 8, 64);
      k := Xor64(k, bs[i] * Pow2(8 * i));
    }
    Pow2Starts();
    assert bs[0..] == bs;
  }

  method Hash(data: seq<byte>) returns (h: u64)
    ensures h == Digest(data).h1
  {
    hide Mix1, Mix2, Half, Fmix, Le;
    var nblocks := |data| / 16;
    var h1, h2 := 0, 0;
    for i := 0 to nblocks
      invariant H(h1, h2) == Body(data, i)
    {
      var k1, k2 := Word(data[16 * i..16 * i + 8]), Word(data[16 * i + 8..16 * i + 16]);
      h1 := Half(h1, Mix1(k1), h2, P37, P27, 0x52dce729);
      h2 := Half(h2, Mix2(k2), h1, P33, P31, 0x38495ab5);
    }
    var tail := data[16 * nblocks..];
    if |tail| >= 9 {
      var k2 := Gather(tail[8..]);
      h2 := Xor64(h2, Mix2(k2));
    }
    if |tail| >= 1 {
      var k1 := Gather(tail[..if |tail| < 8 then |tail| else 8]);
      h1 := Xor64(h1, Mix1(k1));
    }
    h1, h2 := Xor64(h1, |data|), Xor64(h2, |data|);
    h1 := Add(h1, h2);
    h2 := Add(h2, h1);
    h1, h2 := Fmix(h1), Fmix(h2);
    h1 := Add(h1, h2);
    h2 := Add(h2, h1);
    h := h1;
  }
}
