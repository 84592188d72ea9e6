/** When the compressor stores a text as it is, said of the tokens it would emit. */
module LzRatio {
  import opened Wrappers
  import opened Bytes
  import opened LzFormat
  import opened LzPlan
  import opened LzApi

  /** How much text some tokens stand for, and how many bytes they take. */
  function TextOf(ts: seq<Token>): (n: nat)
    requires AllInRange(ts)
  {
    if ts == [] then 0 else Width(ts[0]) + TextOf(ts[1..])
  }

  function BytesOf(ts: seq<Token>): (n: nat)
    requires AllInRange(ts)
  {
    if ts == [] then 0 else |Encode(ts[0])| + BytesOf(ts[1..])
  }

  lemma HeadOf(ts: seq<Token>, k: nat)
    requires AllInRange(ts) && 0 < k <= |ts|
    ensures AllInRange(ts[1..]) && AllInRange(ts[..k]) && AllInRange(ts[1..][..k - 1])
    ensures TextOf(ts[..k]) == Width(ts[0]) + TextOf(ts[1..][..k - 1])
    ensures BytesOf(ts[..k]) == |Encode(ts[0])| + BytesOf(ts[1..][..k - 1])
  {
    assert ts[..k][1..] == ts[1..][..k - 1];
  }

  /**
    After `k` of the tokens from position `p` on, with `d` bytes written and `r` bits free before
    them, a control word is full, the search still goes on, more than half of the text is done, and
    less than a 32nd part of it is saved.
   */
  predicate NotWorth(ts: seq<Token>, size: nat, p: nat, d: nat, r: nat, k: int)
    requires AllInRange(ts)
  {
    && r <= k <= |ts| && (k - r) % 31 == 0
    && var p', d' := p + TextOf(ts[..k]), d + BytesOf(ts[..k]) + 4 * ((k - r) / 31);
       p' + 11 <= size && p' > size / 2 && d' > p' - p' / 32
  }

  lemma TokensFrom(cs: seq<Token>, s: seq<byte>, p: nat)
    requires Sound(cs, s) && p <= |s|
    ensures AllInRange(Tokenize(cs, s, p))
    ensures p < |s| ==> var ts := Tokenize(cs, s, p);
      ts != [] && ts[0] == cs[p] && InRange(cs[p]) && p + Width(cs[p]) <= |s|
      && ts[1..] == Tokenize(cs, s, p + Width(cs[p]))
  {
    TokenizeLegal(cs, s, p);
    LegalInRange(Tokenize(cs, s, p), p, |s|);
    if p < |s| { assert SoundAt(cs[p], s, p); }
  }

  ghost predicate Someday(ts: seq<Token>, size: nat, p: nat, d: nat, r: nat)
    requires AllInRange(ts)
  {
    exists k :: NotWorth(ts, size, p, d, r, k)
  }

  /** At a full control word: now, or with the next one. */
  lemma SomedayReloads(ts: seq<Token>, size: nat, p: nat, d: nat)
    requires AllInRange(ts) && p + 11 <= size
    ensures Someday(ts, size, p, d, 0) <==> Poor(size, p, d) || Someday(ts, size, p, d + 4, 31)
  {
    hide TextOf, BytesOf;
    NothingYet();
    assert ts[..0] == [];
    if k :| NotWorth(ts, size, p, d, 0, k) {
      if k != 0 {
        assert NotWorth(ts, size, p, d + 4, 31, k);
      }
    }
    if Poor(size, p, d) {
      assert NotWorth(ts, size, p, d, 0, 0);
    }
    var d' := d + 4;
    if k :| NotWorth(ts, size, p, d', 31, k) {
      assert NotWorth(ts, size, p, d, 0, k);
    }
  }

  lemma NothingYet()
    ensures TextOf([]) == 0 && BytesOf([]) == 0
  {
  }

  /** One token further. */
  lemma SomedayTakes(ts: seq<Token>, size: nat, p: nat, d: nat, r: nat)
    requires AllInRange(ts) && ts != [] && r > 0
    ensures AllInRange(ts[1..])
    ensures Someday(ts, size, p, d, r) <==>
            Someday(ts[1..], size, p + Width(ts[0]), d + |Encode(ts[0])|, r - 1)
  {
    hide TextOf, BytesOf, Width, Encode;
    var p', d', rest := p + Width(ts[0]), d + |Encode(ts[0])|, ts[1..];
    if k :| NotWorth(ts, size, p, d, r, k) {
      HeadOf(ts, k);
      assert NotWorth(rest, size, p', d', r - 1, k - 1);
    }
    if Someday(rest, size, p', d', r - 1) {
      var k :| NotWorth(rest, size, p', d', r - 1, k);
      HeadOf(ts, k + 1);
      assert NotWorth(ts, size, p, d, r, k + 1);
    }
  }

  lemma NotOnceLate(ts: seq<Token>, size: nat, p: nat, d: nat, r: nat)
    requires AllInRange(ts) && p + 11 > size
    ensures !Someday(ts, size, p, d, r)
  {
  }

  lemma {:induction false} GivesUpIff(cs: seq<Token>, s: seq<byte>, p: nat, d: nat, r: nat)
    requires Sound(cs, s) && p <= |s| && AllInRange(Tokenize(cs, s, p))
    ensures GivesUp(cs, s, p, d, r) <==> Someday(Tokenize(cs, s, p), |s|, p, d, r)
    decreases |s| - p, r == 0
  {
    hide Someday, Tokenize, Poor, Encode;
    var ts, n := Tokenize(cs, s, p), |s|;
    TokensFrom(cs, s, p);
    if p + 11 > n {
      NotOnceLate(ts, n, p, d, r);
    } else if r == 0 {
      SomedayReloads(ts, n, p, d);
      GivesUpIff(cs, s, p, d + 4, 31);
    } else {
      SomedayTakes(ts, n, p, d, r);
      TokensFrom(cs, s, p + Width(cs[p]));
      GivesUpIff(cs, s, p + Width(cs[p]), d + |Encode(cs[p])|, r - 1);
    }
  }

  /**
    A text is stored exactly when, at some full control word past its middle, the tokens so far take
    more than 31 parts in 32 of what they stand for.
   */
  lemma StoredIff(cs: seq<Token>, s: seq<byte>)
    requires Sound(cs, s)
    ensures var ts := Tokenize(cs, s, 0);
      AllInRange(ts) && (Stored(cs, s) <==> exists w :: StopsAtWord(ts, |s|, w))
  {
    hide NotWorth, Tokenize, Sound, GivesUp;
    var ts := Tokenize(cs, s, 0);
    TokensFrom(cs, s, 0);
    GivesUpIff(cs, s, 0, 4, 31);
    forall k ensures NotWorth(ts, |s|, 0, 4, 31, k) ==> k % 31 == 0 && StopsAtWord(ts, |s|, k / 31) {
      WordOfToken(ts, |s|, k);
    }
    forall w ensures StopsAtWord(ts, |s|, w) ==> NotWorth(ts, |s|, 0, 4, 31, 31 * w) {
      TokenOfWord(ts, |s|, w);
    }
  }

  /** The test at the end of control word `w`: text done, bytes written. */
  predicate StopsAtWord(ts: seq<Token>, size: nat, w: int)
    requires AllInRange(ts)
  {
    && 0 < w && 31 * w <= |ts|
    && var p, d := TextOf(ts[..31 * w]), 4 * w + BytesOf(ts[..31 * w]);
       p + 11 <= size && p > size / 2 && d > p - p / 32
  }

  lemma WordOfToken(ts: seq<Token>, size: nat, k: int)
    requires AllInRange(ts)
    ensures NotWorth(ts, size, 0, 4, 31, k) ==> k % 31 == 0 && StopsAtWord(ts, size, k / 31)
  {
    hide TextOf, BytesOf;
    if NotWorth(ts, size, 0, 4, 31, k) {
      assert k == 31 * (k / 31);
    }
  }

  lemma TokenOfWord(ts: seq<Token>, size: nat, w: int)
    requires AllInRange(ts)
    ensures StopsAtWord(ts, size, w) ==> NotWorth(ts, size, 0, 4, 31, 31 * w)
  {
    hide TextOf, BytesOf;
    assert (31 * w - 31) % 31 == 0 && (31 * w - 31) / 31 == w - 1;
  }
}
