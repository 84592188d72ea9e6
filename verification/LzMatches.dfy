/**
  What the level 3 match finder finds, said of the text: among the latest earlier positions with
  the same hash, the longest repeat, the nearest of equals.
 */
module LzMatches {
  import opened Wrappers
  import opened Bytes
  import opened LzFormat
  import opened LzTable
  import opened LzPlan
  import opened LzChoose
  import opened LzApi
  import Words64

  /** The hash is the upper half of the three bytes folded onto the lower: with either half it gives the other. */
  lemma {:induction false} HashFolds(i: nat)
    requires i < 16777216
    ensures Xor(HashFunc(i), i % 4096, 12) == i / 4096 && Xor(HashFunc(i), i / 4096, 12) == i % 4096
  {
    hide Xor, Pow2;
    TwelveBits();
    var lo, hi, h := i % 4096, i / 4096, HashFunc(i);
    assert Raised(i, lo, hi, 12) && Raised(hi, hi, 0, 12) && Raised(h, h, 0, 12);
    XorIgnoresHigh(hi, i, hi, lo, 0, hi, 12);
    Words64.XorUndoes(hi, lo, 12);
    Words64.XorSwaps(hi, lo, 12);
    Words64.XorUndoes(lo, hi, 12);
  }

  // The slots a search looks at hold the latest positions.

  lemma {:induction false} CountSplit(hs: seq<nat>, h: nat, o: nat)
    requires o <= |hs|
    ensures Count(hs[..o], h) <= Count(hs, h)
    ensures o < |hs| && hs[o] == h ==> Count(hs[..o], h) < Count(hs, h)
    decreases |hs|
  {
    if o == |hs| {
      assert hs[..o] == hs;
    } else {
      var front := hs[..|hs| - 1];
      assert front[..o] == hs[..o];
      CountSplit(front, h, o);
      if o == |hs| - 1 { assert hs[..o] == front; }
    }
  }

  /** Two positions of one hash have different ranks. */
  lemma RankTells(hs: seq<nat>, h: nat, o: nat, o': nat)
    requires o < |hs| && o' < |hs| && hs[o] == hs[o'] == h && Count(hs[..o], h) == Count(hs[..o'], h)
    ensures o == o'
  {
    if o < o' {
      assert hs[..o'][..o] == hs[..o];
      CountSplit(hs[..o'], h, o);
    } else if o' < o {
      assert hs[..o][..o'] == hs[..o'];
      CountSplit(hs[..o], h, o');
    }
  }

  lemma SlotStep(hs: seq<nat>, h: nat, k: nat)
    requires k < POINTERS && k < Count(hs, h)
    ensures var front, c := hs[..|hs| - 1], Count(hs[..|hs| - 1], h);
      if hs[|hs| - 1] == h && c % 16 == k then Slot(hs, h, k) == |hs| - 1 && Count(hs, h) == c + 1
      else k < c && Slot(hs, h, k) == Slot(front, h, k) && Count(hs, h) == c + if hs[|hs| - 1] == h then 1 else 0
  {
  }

  /** A slot holds one of the last 16 positions with its hash. */
  lemma {:induction false} SlotIsLate(hs: seq<nat>, h: nat, k: nat)
    requires k < POINTERS && k < Count(hs, h)
    ensures Count(hs[..Slot(hs, h, k)], h) + 16 >= Count(hs, h)
    decreases |hs|
  {
    hide Slot, Count;
    SlotStep(hs, h, k);
    var front, o := hs[..|hs| - 1], Slot(hs, h, k);
    if o < |hs| - 1 {
      SlotIsLate(front, h, k);
      assert front[..o] == hs[..o];
      NotThere(Count(hs[..o], h), Count(front, h), k);
    }
  }

  lemma NotThere(r: nat, c: nat, k: nat)
    requires r % 16 == k && r + 16 >= c
    ensures c % 16 != k ==> r + 16 >= c + 1
  {
    if c == r + 16 {
      DivMod(c, 16, r / 16 + 1, r % 16);
    }
  }

  /** How many slots an 8-bit counter vouches for. */
  function Trusted(c: nat): (v: nat) {
    if c % 256 >= 16 then 16 else c % 256
  }

  /** The residues of the last `Trusted(c)` numbers below `c` are the slots below it. */
  lemma LatestRanks(r: nat, c: nat)
    requires r < c <= r + 16
    ensures r % 16 < Trusted(c) <==> c - r <= Trusted(c)
  {
    Wraps(c);
    Below16(c % 256);
    if c % 256 < 16 {
      LastOfGroup(r, c);
    }
  }

  lemma Below16(v: nat)
    ensures v < 16 ==> v % 16 == v
  {
  }

  lemma LastOfGroup(r: nat, c: nat)
    requires r < c <= r + 16
    ensures r % 16 < c % 16 <==> c - r <= c % 16
  {
    var q, u := c / 16, c % 16;
    if r >= 16 * q {
      DivMod(r, 16, q, r - 16 * q);
    } else {
      DivMod(r, 16, q - 1, r - 16 * (q - 1));
    }
  }

  lemma SameRank(r: nat, r': nat, c: nat)
    requires r < c <= r + 16 && r' < c <= r' + 16 && r % 16 == r' % 16
    ensures r == r'
  {
  }

  /** The vouched slots hold exactly the latest positions with that hash. */
  lemma SlotsAreLatest(hs: seq<nat>, h: nat, o: nat)
    requires o < |hs|
    ensures var c := Count(hs, h);
      (exists k :: 0 <= k < Vouched(c) && Slot(hs, h, k) == o) <==>
      hs[o] == h && c - Count(hs[..o], h) <= Trusted(c)
  {
    var c, r := Count(hs, h), Count(hs[..o], h);
    if k :| 0 <= k < Vouched(c) && Slot(hs, h, k) == o {
      SlotIsLate(hs, h, k);
      CountSplit(hs, h, o);
      LatestRanks(r, c);
    }
    if hs[o] == h && c - r <= Trusted(c) {
      CountSplit(hs, h, o);
      LatestRanks(r, c);
      var k := r % 16;
      SlotIsLate(hs, h, k);
      var o' := Slot(hs, h, k);
      CountSplit(hs, h, o');
      SameRank(r, Count(hs[..o'], h), c);
      RankTells(hs, h, o, o');
    }
  }

  lemma HashesGrow(s: seq<byte>, p: nat)
    requires 0 < p && p + 2 <= |s|
    ensures Hashes(s, p) == Hashes(s, p - 1) + [HashAt(s, p - 1)]
  {
  }

  lemma {:induction false} HashesPrefix(s: seq<byte>, p: nat, o: nat)
    requires o <= p && (p == 0 || p + 2 <= |s|)
    ensures Hashes(s, p)[..o] == Hashes(s, o)
    ensures o < p ==> Hashes(s, p)[o] == HashAt(s, o)
    decreases p
  {
    hide Hashes, HashAt;
    if o == p {
      assert Hashes(s, p)[..o] == Hashes(s, p);
    } else {
      var front := Hashes(s, p - 1);
      HashesGrow(s, p);
      assert Hashes(s, p)[..p - 1] == front;
      if o < p - 1 {
        HashesPrefix(s, p - 1, o);
        assert Hashes(s, p)[..o] == front[..o];
      }
    }
  }

  /**
    An earlier position the search at `p` gets to see: it has the hash of `p`, and of the positions
    with that hash it is among the last 16, or, while the counter is below 16, the last so many.
   */
  predicate Recent(s: seq<byte>, p: nat, o: nat)
    requires p + 3 <= |s|
  {
    && o < p && HashAt(s, o) == HashAt(s, p)
    && var c := Count(Hashes(s, p), HashAt(s, p));
       c - Count(Hashes(s, o), HashAt(s, p)) <= Trusted(c)
  }

  lemma SlotsAreRecent(s: seq<byte>, p: nat, o: nat)
    requires p + 3 <= |s| && o < p
    ensures (exists k :: 0 <= k < Live(s, p) && SlotAt(s, p, k) == o) <==> Recent(s, p, o)
  {
    hide Hashes, Count, Slot, HashAt, Vouched, Trusted;
    var hs, h := Hashes(s, p), HashAt(s, p);
    var c := Count(hs, h);
    HashesPrefix(s, p, o);
    SlotsAreLatest(hs, h, o);
    assert Recent(s, p, o) <==> hs[o] == h && c - Count(hs[..o], h) <= Trusted(c);
    if Recent(s, p, o) {
      var k :| 0 <= k < Vouched(c) && Slot(hs, h, k) == o;
      assert 0 <= k < Live(s, p) && SlotAt(s, p, k) == o;
    }
    if k :| 0 <= k < Live(s, p) && SlotAt(s, p, k) == o {
      SlotsHold(s, p, k);
    }
  }

  lemma SlotsHold(s: seq<byte>, p: nat, k: nat)
    requires p + 3 <= |s| && k < Live(s, p)
    ensures Recent(s, p, SlotAt(s, p, k))
  {
    hide Hashes, Count, Slot, HashAt, Trusted;
    var hs, h, o := Hashes(s, p), HashAt(s, p), SlotAt(s, p, k);
    HashesPrefix(s, p, o);
    SlotsAreLatest(hs, h, o);
    assert Slot(hs, h, k) == o;
  }

  // The match that is chosen.

  /** A recent position, at least three back, whose three bytes stand at `p` again. */
  predicate Offers(s: seq<byte>, p: nat, o: nat)
    requires p + 3 <= |s|
  {
    && o + 3 <= p && s[o] == s[p] && s[o + 1] == s[p + 1] && s[o + 2] == s[p + 2]
    && Recent(s, p, o)
  }

  /** How far the text repeats: 255 bytes at most, and not into the last four. */
  predicate LongestAt(s: seq<byte>, p: nat, o: nat, len: nat)
    requires o < p
  {
    && 3 <= len <= 255 && p + len + 4 <= |s| && Repeats(s, p - o, p, len)
    && (len == 255 || p + len + 4 == |s| || s[p + len] != s[o + len])
  }

  predicate Offered(s: seq<byte>, p: nat, o: nat, len: nat)
    requires p + 3 <= |s|
  {
    Offers(s, p, o) && LongestAt(s, p, o, len)
  }

  /** Of all that is offered, no repeat is longer, and of those as long none is nearer. */
  ghost predicate BestAt(s: seq<byte>, p: nat, o: nat, len: nat)
    requires p + 3 <= |s|
  {
    && Offered(s, p, o, len)
    && forall o': nat, len': nat :: Offered(s, p, o', len') ==> len' < len || (len' == len && o' <= o)
  }

  lemma UsableMeans(s: seq<byte>, p: nat, o: nat)
    requires p + 3 <= |s| && o < p
    ensures Usable(s, o, p) <==> o + 3 <= p && s[o] == s[p] && s[o + 1] == s[p + 1] && s[o + 2] == s[p + 2]
  {
    if Usable(s, o, p) {
      ThreeSame(s, o, p);
      assert Same(s, p - o, p) && Same(s, p - o, p + 1) && Same(s, p - o, p + 2);
    }
  }

  lemma LongestMeans(s: seq<byte>, p: nat, o: nat, len: nat)
    requires p + 11 <= |s| && o < p && Usable(s, o, p)
    ensures LongestAt(s, p, o, len) <==> len == MatchLen(s, o, p)
  {
    hide MatchLen, Usable, Repeats, LongestAt;
    var n := MatchLen(s, o, p);
    if len < n {
      ShorterIsNot(s, p, o, len, n);
    } else if n < len {
      LongerIsNot(s, p, o, len, n);
    } else {
      EndsThere(s, p, o, n);
    }
  }

  lemma ShorterIsNot(s: seq<byte>, p: nat, o: nat, len: nat, n: nat)
    requires o < p && Repeats(s, p - o, p, n) && len < n <= 255 && p + n + 4 <= |s|
    ensures !LongestAt(s, p, o, len)
  {
    assert Same(s, p - o, p + len);
  }

  lemma LongerIsNot(s: seq<byte>, p: nat, o: nat, len: nat, n: nat)
    requires o < p && n < len && (n < 255 && p + n + 4 < |s| ==> !Same(s, p - o, p + n))
    ensures !LongestAt(s, p, o, len)
  {
    assert Repeats(s, p - o, p, len) ==> Same(s, p - o, p + n);
  }

  lemma EndsThere(s: seq<byte>, p: nat, o: nat, n: nat)
    requires o < p && 3 <= n <= 255 && p + n + 4 <= |s| && Repeats(s, p - o, p, n)
    requires n < 255 && p + n + 4 < |s| ==> !Same(s, p - o, p + n)
    ensures LongestAt(s, p, o, n)
  {
  }

  lemma BestStep(s: seq<byte>, p: nat, k: nat)
    requires Searchable(s, p) && 0 < k <= Live(s, p)
    ensures var b := BestOf(s, p, k);
      b == BestOf(s, p, k - 1) || (b.Found? && b.o == SlotAt(s, p, k - 1))
  {
    hide MatchLen, Usable, SlotAt, Live;
  }

  lemma NoSlotsNoMatch(s: seq<byte>, p: nat)
    requires Searchable(s, p)
    ensures BestOf(s, p, 0).NoMatch?
  {
  }

  predicate FromSlot(s: seq<byte>, p: nat, k: nat, o: nat)
    requires p + 3 <= |s| && k <= Live(s, p)
  {
    exists j :: 0 <= j < k && SlotAt(s, p, j) == o
  }

  lemma {:induction false} BestIsSlot(s: seq<byte>, p: nat, k: nat)
    requires Searchable(s, p) && k <= Live(s, p)
    ensures var b := BestOf(s, p, k); b.Found? ==> FromSlot(s, p, k, b.o)
  {
    hide BestOf, MatchLen, Usable, SlotAt, Live, FromSlot, Repeats, Same;
    if k == 0 {
      NoSlotsNoMatch(s, p);
    } else {
      BestIsSlot(s, p, k - 1);
      BestStep(s, p, k);
      if BestOf(s, p, k).Found? { SlotsAdd(s, p, k, BestOf(s, p, k)); }
    }
  }

  lemma SlotsAdd(s: seq<byte>, p: nat, k: nat, b: Best)
    requires p + 3 <= |s| && 0 < k <= Live(s, p) && b.Found?
    ensures FromSlot(s, p, k - 1, b.o) || b.o == SlotAt(s, p, k - 1) ==> FromSlot(s, p, k, b.o)
  {
    hide SlotAt, Live;
    if b.o == SlotAt(s, p, k - 1) {
      assert SlotAt(s, p, k - 1) == b.o;
    }
  }

  /** Whatever is offered, the search has found something as good. */
  lemma OfferSeen(s: seq<byte>, p: nat, o: nat, len: nat)
    requires p + 11 <= |s| && Offered(s, p, o, len)
    ensures var b := BestOf(s, p, Live(s, p)); b.Found? && !Better(b, o, len)
  {
    hide BestOf, MatchLen, Usable, Live, SlotAt, Recent, LongestAt, Repeats, Same;
    UsableMeans(s, p, o);
    SlotsAreRecent(s, p, o);
    var j :| 0 <= j < Live(s, p) && SlotAt(s, p, j) == o;
    BestIsBest(s, p, Live(s, p), j);
    LongestMeans(s, p, o, len);
  }

  lemma FoundIsRecent(s: seq<byte>, p: nat)
    requires p + 11 <= |s| && BestOf(s, p, Live(s, p)).Found?
    ensures var o := BestOf(s, p, Live(s, p)).o; o < p && Recent(s, p, o)
  {
    hide BestOf, MatchLen, Usable, Live, SlotAt, Recent;
    BestIsSlot(s, p, Live(s, p));
    var o := BestOf(s, p, Live(s, p)).o;
    assert FromSlot(s, p, Live(s, p), o);
    var j :| 0 <= j < Live(s, p) && SlotAt(s, p, j) == o;
    SlotsHold(s, p, j);
    RecentBefore(s, p, o);
  }

  lemma FoundIsOffered(s: seq<byte>, p: nat)
    requires p + 11 <= |s| && BestOf(s, p, Live(s, p)).Found?
    ensures var b := BestOf(s, p, Live(s, p)); Offered(s, p, b.o, b.len)
  {
    hide BestOf, MatchLen, Usable, Live, Recent, LongestAt, Offers;
    var b := BestOf(s, p, Live(s, p));
    FoundIsRecent(s, p);
    OffersIf(s, p, b.o);
    LongestMeans(s, p, b.o, b.len);
  }

  lemma OffersIf(s: seq<byte>, p: nat, o: nat)
    requires p + 3 <= |s| && o < p && Recent(s, p, o) && Usable(s, o, p)
    ensures Offers(s, p, o)
  {
    hide Recent, Usable;
    UsableMeans(s, p, o);
  }

  /** What the search finds is the best offer; it finds nothing only when there is none. */
  lemma FoundIsBest(s: seq<byte>, p: nat)
    requires p + 11 <= |s|
    ensures var b := BestOf(s, p, Live(s, p));
      && (b.Found? ==> BestAt(s, p, b.o, b.len))
      && (b.NoMatch? ==> forall o: nat, len: nat :: !Offered(s, p, o, len))
  {
    hide BestOf, Live, Offered;
    var b := BestOf(s, p, Live(s, p));
    forall o: nat, len: nat | Offered(s, p, o, len) ensures b.Found? && !Better(b, o, len) {
      OfferSeen(s, p, o, len);
    }
    if b.Found? {
      FoundIsOffered(s, p);
    }
  }

  lemma RecentBefore(s: seq<byte>, p: nat, o: nat)
    requires p + 3 <= |s| && Recent(s, p, o)
    ensures o < p
  {
  }

  /** The token at `p` is what the search makes of it. */
  lemma TokenAt(s: seq<byte>, p: nat)
    requires p < |s|
    ensures p + 11 > |s| ==> Plan(s)[p] == Lit(s[p])
    ensures p + 11 <= |s| ==>
      var b := BestOf(s, p, Live(s, p));
      Plan(s)[p] == if b.Found? && p - b.o <= 131070 then Match(p - b.o, b.len) else Lit(s[p])
  {
    hide BestOf, Live, Choices, Repeats, Same, MatchLen, Usable;
    ChoiceAt(s, |s|, p);
  }

  /**
    The token at every position. Where the search goes, it is a match exactly when the best offer
    lies at most 131070 back, and then it is that one; otherwise it is the byte itself.
   */
  lemma PlanMatches(s: seq<byte>, p: nat, d: nat, len: nat)
    requires p < |s|
    ensures Plan(s)[p] == Match(d, len) <==> p + 11 <= |s| && d <= p && d <= 131070 && BestAt(s, p, p - d, len)
    ensures Plan(s)[p].Lit? ==> Plan(s)[p].b == s[p]
  {
    hide BestOf, Live, BestAt, Plan, Offered, Repeats, Same, MatchLen, Usable;
    TokenAt(s, p);
    if p + 11 <= |s| {
      BestIff(s, p, if d <= p then p - d else 0, len);
    }
  }

  lemma BestIff(s: seq<byte>, p: nat, o: nat, len: nat)
    requires p + 11 <= |s|
    ensures var b := BestOf(s, p, Live(s, p));
      (BestAt(s, p, o, len) <==> b == Found(o, len)) && (b.Found? ==> b.o + 3 <= p)
  {
    hide BestOf, Live, BestAt, Offered, Repeats, Same, MatchLen, Usable;
    FoundIsBest(s, p);
    var b := BestOf(s, p, Live(s, p));
    if b.Found? {
      BestOffers(s, p, b.o, b.len);
    }
    if BestAt(s, p, o, len) {
      BestOffers(s, p, o, len);
      if b.Found? { OneBest(s, p, b.o, b.len, o, len); }
    }
  }

  lemma BestOffers(s: seq<byte>, p: nat, o: nat, len: nat)
    requires p + 3 <= |s| && BestAt(s, p, o, len)
    ensures Offered(s, p, o, len) && o + 3 <= p
  {
  }

  lemma OneBest(s: seq<byte>, p: nat, o: nat, len: nat, o': nat, len': nat)
    requires p + 3 <= |s| && BestAt(s, p, o, len) && BestAt(s, p, o', len')
    ensures o == o' && len == len'
  {
    hide Offered;
    BestOffers(s, p, o, len);
    BestOffers(s, p, o', len');
  }

  /** Where the search goes and a byte is emitted all the same, nothing was offered, or the best offer is too far. */
  lemma LitOnlyIf(s: seq<byte>, p: nat)
    requires p + 11 <= |s| && Plan(s)[p].Lit?
    ensures (forall o: nat, len: nat :: !Offered(s, p, o, len)) ||
            (exists o: nat, len: nat :: BestAt(s, p, o, len) && p - o > 131070)
  {
    hide BestOf, Live, BestAt, Choices, Offered, Repeats, Same, MatchLen, Usable;
    FoundIsBest(s, p);
    var b := BestOf(s, p, Live(s, p));
    if b.Found? {
      BestOffers(s, p, b.o, b.len);
      PlanMatches(s, p, p - b.o, b.len);
      assert BestAt(s, p, b.o, b.len);
    }
  }
}
