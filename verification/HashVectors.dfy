/** Single values of the hash, in which each of its constants, rotations and orders of steps shows. */
module HashVectors {
  import opened Bytes
  import opened Words64
  import opened Hasher128

  lemma XorNothing(x: u64)
    ensures Xor64(0, x) == x && Xor64(x, 0) == x
  {
    hide Xor, Pow2;
    Pow2Of64();
    XorZero(x, 64);
    XorSwaps(0, x, 64);
  }

  lemma MulIs(a: u64, c: u64, q: nat, r: u64)
    requires a * c == q * W + r
    ensures Mul(a, c) == r
  {
    DivMod(a * c, W, q, r);
  }

  lemma RotlIs(x: u64, a: nat, b: nat, q: nat, m: nat)
    requires a > 0 && b > 0 && a * b == W && m < a && x == q * a + m
    ensures Rotl(x, a, b) == m * b + q
  {
    DivMod(x, a, q, m);
  }

  lemma MixedOne()
    ensures Mix1(1) == 0x34e0_9d0b_6bde_fe38
  {
    hide Mul, Rotl;
    MulIs(1, C1, 0, C1);
    RotlIs(C1, P33, P31, 1138867656, 4584526805);
    MulIs(0x88a1_29ea_c3e1_bdc8, C2, 2959699654432508350, 0x34e0_9d0b_6bde_fe38);
  }

  lemma MixedTwo()
    ensures Mix2(2) == 0x9c4d_eaa7_376f_86fc
  {
    hide Mul, Rotl;
    MulIs(2, C2, 0, 0x99eb_5a86_4e8b_26fe);
    RotlIs(0x99eb_5a86_4e8b_26fe, P31, P33, 5164676364, 1317742334);
    MulIs(0x9d16_4dfd_33d6_b50c, C1, 6002936498090326198, 0x9c4d_eaa7_376f_86fc);
  }

  /** One turn from the start, with the words 1 and 2. */
  lemma RoundOfOnes()
    ensures Round(H(0, 0), Block(1, 2)) == H(0xc8da_d7b9_1b1f_ffb1, 0xf6dd_0815_46ac_23c9)
  {
    hide Xor64, Mix1, Mix2;
    MixedOne();
    MixedTwo();
    XorNothing(Mix1(1));
    XorNothing(Mix2(2));
  }

  /** The tail of a text of nine bytes, 1 and 2 its only ones, from the start. */
  lemma TailOfOnes()
    ensures Tail(H(0, 0), [1, 0, 0, 0, 0, 0, 0, 0, 2]) == H(0x34e0_9d0b_6bde_fe38, 0x9c4d_eaa7_376f_86fc)
  {
    hide Xor64, Mix1, Mix2, Le;
    MixedOne();
    MixedTwo();
    XorNothing(Mix1(1));
    XorNothing(Mix2(2));
    var t := [1, 0, 0, 0, 0, 0, 0, 0, 2];
    assert t[8..] == [2] && t[..8] == [1, 0, 0, 0, 0, 0, 0, 0];
    WordOfOne(2);
    WordOfEight(1);
  }

  lemma WordOfOne(b: byte)
    ensures Le([b]) == b
  {
  }

  lemma WordOfEight(b: byte)
    ensures Le([b, 0, 0, 0, 0, 0, 0, 0]) == b
  {
    var z := [0, 0, 0, 0, 0, 0, 0];
    assert [b, 0, 0, 0, 0, 0, 0, 0][1..] == z;
    NoValue(7);
    assert z == Zeros(7);
  }

  function Zeros(n: nat): (z: seq<byte>) {
    seq(n, _ => 0)
  }

  lemma {:induction false} NoValue(n: nat)
    ensures Le(Zeros(n)) == 0
  {
    if n > 0 {
      assert Zeros(n)[1..] == Zeros(n - 1);
      NoValue(n - 1);
    }
  }

  /** The finaliser between its first and its last shift: the inverse of its first factor becomes its second. */
  lemma FmixOfInverse()
    ensures Fmix(XorShift33(0x4f74_430c_22a5_4005)) == XorShift33(0xc4ce_b9fe_1a85_ec53)
  {
    hide Xor64;
    XorShiftUndoes(0x4f74_430c_22a5_4005);
    XorNothing(1);
  }

  /** Finalising adds the halves crosswise around the finaliser. */
  lemma FinishOfNothing(a: u64, b: u64)
    ensures var a1 := Add(a, b);
      var a2 := Add(b, a1);
      var g := Add(Fmix(a1), Fmix(a2));
      Finish(H(a, b), 0) == H(g, Add(Fmix(a2), g))
  {
    hide Xor64, Fmix, Add;
    XorNothing(a);
    XorNothing(b);
  }

  /** The hash of nothing is nothing. */
  lemma EmptyText()
    ensures Digest([]) == H(0, 0)
  {
    hide Finish, Fmix;
    FinishOfNothing(0, 0);
    FmixOfZero();
  }

  lemma FmixOfZero()
    ensures Fmix(0) == 0
  {
    hide Xor64;
    XorNothing(0);
  }

  /** A block is two words, the earlier one first, each least significant byte first. */
  lemma BlockOfOnes()
    ensures BlockAt([1] + Zeros(7) + [2] + Zeros(7), 0) == Block(1, 2)
  {
    hide Le;
    var d := [1] + Zeros(7) + [2] + Zeros(7);
    assert d[0..8] == [1, 0, 0, 0, 0, 0, 0, 0] && d[8..16] == [2, 0, 0, 0, 0, 0, 0, 0];
    WordOfEight(1);
    WordOfEight(2);
  }
}
