/**
  What the level 3 compressor chooses to emit, as a function of the text alone.

  Every position is entered in the hash table exactly once and in order, so the table at
  position `p` is determined by the text before it.
 */
module LzChoose {
  import opened Bytes
  import opened LzFormat
  import opened LzTable
  import opened LzPlan

  const MAX_OFFSET := 131071

  function Fetch3(s: seq<byte>, p: nat): (v: nat)
    requires p + 3 <= |s|
  {
    s[p] as int + 256 * (s[p + 1] as int) + 65536 * (s[p + 2] as int)
  }

  /** `((i >> 12) ^ i) & 4095` */
  function HashFunc(i: nat): (h: nat)
    ensures h < HASH_VALUES
  {
    TwelveBits();
    Xor(i / 4096, i, 12)
  }

  function HashAt(s: seq<byte>, p: nat): (h: nat)
    requires p + 3 <= |s|
    ensures h < HASH_VALUES
  {
    HashFunc(Fetch3(s, p))
  }

  /** `x` is `a` with something above its `n` low bits. */
  predicate Raised(x: nat, a: nat, c: nat, n: nat) {
    x == a + Pow2(n) * c
  }

  lemma {:induction false} XorIgnoresHigh(x: nat, y: nat, a: nat, b: nat, c: nat, d: nat, n: nat)
    requires Raised(x, a, c, n) && Raised(y, b, d, n)
    ensures Xor(x, y, n) == Xor(a, b, n)
    decreases n
  {
    hide Pow2, Xor, Raised;
    XorStep(x, y, n);
    XorStep(a, b, n);
    if n > 0 {
      HalfRaised(x, a, c, n);
      HalfRaised(y, b, d, n);
      XorIgnoresHigh(x / 2, y / 2, a / 2, b / 2, c, d, n - 1);
    }
  }

  lemma {:induction false} XorStep(a: nat, b: nat, n: nat)
    ensures Xor(a, b, n) == if n == 0 then 0 else (if a % 2 == b % 2 then 0 else 1) + 2 * Xor(a / 2, b / 2, n - 1)
  {
  }

  lemma {:induction false} HalfRaised(x: nat, a: nat, c: nat, n: nat)
    requires n > 0 && Raised(x, a, c, n)
    ensures Raised(x / 2, a / 2, c, n - 1) && x % 2 == a % 2
  {
    hide Pow2;
    var q := Pow2(n - 1);
    Pow2Step(n - 1);
    MulAssoc(2, q, c);
    DivMod(x, 2, a / 2 + q * c, a % 2);
  }

  lemma {:induction false} TwelveBits()
    ensures Pow2(12) == 4096
  {
  }

  /** On x86 fast_read fetches a fourth byte as well; the hash does not see it. */
  lemma {:induction false} WideFetchSameHash(i: nat, extra: nat)
    ensures HashFunc(i + 16777216 * extra) == HashFunc(i)
  {
    hide Pow2, Xor;
    assert Pow2(12) == 4096 by { TwelveBits(); }
    DivMod(i + 16777216 * extra, 4096, i / 4096 + 4096 * extra, i % 4096);
    var x := i + 16777216 * extra;
    XorIgnoresHigh(x / 4096, x, i / 4096, i, extra, 4096 * extra, 12);
  }

  /** The hash values of the first `n` positions. */
  function Hashes(s: seq<byte>, n: nat): (hs: seq<nat>)
    requires n == 0 || n + 2 <= |s|
    ensures |hs| == n
  {
    if n == 0 then [] else Hashes(s, n - 1) + [HashAt(s, n - 1)]
  }

  /** The slots the search at `p` may look at. */
  function Live(s: seq<byte>, p: nat): (k: nat)
    requires p + 3 <= |s|
    ensures k <= POINTERS && k <= Count(Hashes(s, p), HashAt(s, p))
  {
    Vouched(Count(Hashes(s, p), HashAt(s, p)))
  }

  function SlotAt(s: seq<byte>, p: nat, k: nat): (o: nat)
    requires p + 3 <= |s| && k < Live(s, p)
    ensures o < p
  {
    Slot(Hashes(s, p), HashAt(s, p), k)
  }

  /** The longest match that leaves the uncompressed end, 255 at most. */
  function Cap(s: seq<byte>, p: nat): (cap: nat)
    requires Searchable(s, p)
    ensures 7 <= cap <= 255 && p + cap + UNCOMPRESSED_END <= |s|
  {
    if |s| - UNCOMPRESSED_END - p > 255 then 255 else |s| - UNCOMPRESSED_END - p
  }

  function Extend(s: seq<byte>, o: nat, p: nat, m: nat, cap: nat): (n: nat)
    requires o < p && m <= cap && p + cap <= |s| && Repeats(s, p - o, p, m)
    ensures m <= n <= cap && Repeats(s, p - o, p, n)
    ensures n < cap ==> !Same(s, p - o, p + n)
    decreases cap - m
  {
    if m < cap && s[o + m] == s[p + m] then
      assert Same(s, p - o, p + m);
      Extend(s, o, p, m + 1, cap)
    else m
  }

  predicate Usable(s: seq<byte>, o: nat, p: nat)
    requires p + 3 <= |s|
  {
    o + MINOFFSET < p && Fetch3(s, o) == Fetch3(s, p)
  }

  lemma {:induction false} ThreeSame(s: seq<byte>, o: nat, p: nat)
    requires p + 3 <= |s| && Usable(s, o, p)
    ensures Repeats(s, p - o, p, 3)
  {
    assert s[o] == s[p] && s[o + 1] == s[p + 1] && s[o + 2] == s[p + 2];
    assert Same(s, p - o, p) && Same(s, p - o, p + 1) && Same(s, p - o, p + 2);
  }

  function MatchLen(s: seq<byte>, o: nat, p: nat): (n: nat)
    requires Searchable(s, p) && Usable(s, o, p)
    ensures 3 <= n <= Cap(s, p) && Repeats(s, p - o, p, n)
    ensures n < Cap(s, p) ==> !Same(s, p - o, p + n)
  {
    ThreeSame(s, o, p);
    Extend(s, o, p, 3, Cap(s, p))
  }

  datatype Best = NoMatch | Found(o: nat, len: nat)

  predicate Better(b: Best, o: nat, m: nat) {
    b.NoMatch? || m > b.len || (m == b.len && o > b.o)
  }

  /** The search over the first `k` slots: longest match, the latest position among equals. */
  function BestOf(s: seq<byte>, p: nat, k: nat): (b: Best)
    requires Searchable(s, p) && k <= Live(s, p)
    ensures b.Found? ==> Usable(s, b.o, p) && b.len == MatchLen(s, b.o, p)
  {
    if k == 0 then NoMatch
    else
      var b := BestOf(s, p, k - 1);
      var o := SlotAt(s, p, k - 1);
      if Usable(s, o, p) && Better(b, o, MatchLen(s, o, p)) then Found(o, MatchLen(s, o, p)) else b
  }

  /** The search misses nothing: no live slot offers a longer match, or as long a one later on. */
  lemma {:induction false} BestIsBest(s: seq<byte>, p: nat, k: nat, j: nat)
    requires Searchable(s, p) && j < k <= Live(s, p)
    requires Usable(s, SlotAt(s, p, j), p)
    ensures var o := SlotAt(s, p, j);
      BestOf(s, p, k).Found? && !Better(BestOf(s, p, k), o, MatchLen(s, o, p))
  {
    hide BestOf, MatchLen, Usable, SlotAt;
    var o := SlotAt(s, p, j);
    if j < k - 1 {
      BestIsBest(s, p, k - 1, j);
      BestGrows(s, p, k, o, MatchLen(s, o, p));
    } else {
      BestTakes(s, p, k);
    }
  }

  lemma {:induction false} BestTakes(s: seq<byte>, p: nat, k: nat)
    requires Searchable(s, p) && 0 < k <= Live(s, p) && Usable(s, SlotAt(s, p, k - 1), p)
    ensures BestOf(s, p, k).Found?
    ensures var o := SlotAt(s, p, k - 1); !Better(BestOf(s, p, k), o, MatchLen(s, o, p))
  {
    hide MatchLen, Usable, SlotAt;
  }

  lemma {:induction false} BestGrows(s: seq<byte>, p: nat, k: nat, o: nat, m: nat)
    requires Searchable(s, p) && 0 < k <= Live(s, p)
    requires !Better(BestOf(s, p, k - 1), o, m)
    ensures !Better(BestOf(s, p, k), o, m)
  {
    hide MatchLen, Usable, SlotAt;
  }

  /** A match that was found is emitted unless it lies too far back. */
  function TokenOf(s: seq<byte>, p: nat, b: Best): (t: Token)
    requires Searchable(s, p)
    requires b.Found? ==> b.o + MINOFFSET < p && 3 <= b.len <= Cap(s, p) && Repeats(s, p - b.o, p, b.len)
    ensures InRange(t)
    ensures t.Match? ==> t.offset <= p && t.len <= Cap(s, p) && Repeats(s, t.offset, p, t.len)
  {
    if b.Found? && p - b.o < MAX_OFFSET then Match(p - b.o, b.len) else Lit(s[p])
  }

  function NextToken(s: seq<byte>, p: nat): (t: Token)
    requires Searchable(s, p)
    ensures InRange(t)
    ensures t.Match? ==> t.offset <= p && t.len <= Cap(s, p) && Repeats(s, t.offset, p, t.len)
  {
    TokenOf(s, p, BestOf(s, p, Live(s, p)))
  }

  /** The choice at every one of the first `n` positions: near the end of the text, always a literal. */
  function Choices(s: seq<byte>, n: nat): (cs: seq<Token>)
    requires n <= |s|
    ensures |cs| == n
  {
    if n == 0 then []
    else Choices(s, n - 1) + [if Searchable(s, n - 1) then NextToken(s, n - 1) else Lit(s[n - 1])]
  }

  lemma {:induction false} ChoiceAt(s: seq<byte>, n: nat, p: nat)
    requires p < n <= |s|
    ensures Choices(s, n)[p] == if Searchable(s, p) then NextToken(s, p) else Lit(s[p])
  {
    hide NextToken, Searchable;
    if p < n - 1 {
      ChoiceAt(s, n - 1, p);
    }
  }

  /** Every match the search chooses is true of the text, in range, and clear of the end. */
  lemma {:induction false} ChoicesSound(s: seq<byte>)
    ensures Sound(Choices(s, |s|), s)
  {
    forall p | 0 <= p < |s| ensures SoundAt(Choices(s, |s|)[p], s, p) {
      ChoiceAt(s, |s|, p);
    }
  }
}
