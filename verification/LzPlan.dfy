/**
  Compression with any match finder: a plan names, for every position of a text, the token to
  emit there. The stream of a sound plan, when the compressor gives up on it, and how long it
  can be do not depend on how the matches were found.
 */
module LzPlan {
  import opened Bytes
  import opened LzFormat

  predicate Searchable(s: seq<byte>, p: nat) {
    p + UNCONDITIONAL_MATCHLEN + UNCOMPRESSED_END + 1 <= |s|
  }

  /** The byte at `j` is the one `d` places before it. */
  predicate Same(s: seq<byte>, d: nat, j: nat) {
    d <= j < |s| && s[j] == s[j - d]
  }

  /** For `m` bytes from `p` on the text repeats what stands `d` places before. */
  predicate Repeats(s: seq<byte>, d: nat, p: nat, m: nat) {
    forall j :: p <= j < p + m ==> Same(s, d, j)
  }

  /** A token is true of the text at `p`; a match leaves the uncompressed end alone. */
  predicate TrueAt(t: Token, s: seq<byte>, p: nat) {
    && InRange(t)
    && p + Width(t) <= |s|
    && (t.Lit? ==> t.b == s[p])
    && (t.Match? ==> t.offset <= p && p + t.len + UNCOMPRESSED_END <= |s| && Repeats(s, t.offset, p, t.len))
  }

  predicate SoundAt(t: Token, s: seq<byte>, p: nat) {
    TrueAt(t, s, p) && (t.Match? ==> Searchable(s, p))
  }

  /** Wherever the compressor may come to stand, the planned token is true of the text. */
  predicate Sound(cs: seq<Token>, s: seq<byte>) {
    |cs| == |s| && forall p :: 0 <= p < |s| ==> SoundAt(cs[p], s, p)
  }

  /** The tokens a plan emits from position `p` on. */
  function Tokenize(cs: seq<Token>, s: seq<byte>, p: nat): (ts: seq<Token>)
    requires Sound(cs, s) && p <= |s|
    decreases |s| - p
  {
    if p == |s| then [] else [cs[p]] + Tokenize(cs, s, p + Width(cs[p]))
  }

  lemma {:induction false} TailIsLiteral(cs: seq<Token>, s: seq<byte>, p: nat)
    requires Sound(cs, s) && p <= |s| && !Searchable(s, p)
    ensures AllLiteral(Tokenize(cs, s, p))
    decreases |s| - p
  {
    if p < |s| {
      TailIsLiteral(cs, s, p + 1);
    }
  }

  /** Every token is true of the text where it stands. */
  predicate Spells(ts: seq<Token>, s: seq<byte>, p: nat)
    decreases |ts|
  {
    if ts == [] then p == |s| else TrueAt(ts[0], s, p) && Spells(ts[1..], s, p + Width(ts[0]))
  }

  /** The tokens of a sound plan are true of the text and legal for the format. */
  lemma {:induction false} TokenizeLegal(cs: seq<Token>, s: seq<byte>, p: nat)
    requires Sound(cs, s) && p <= |s|
    ensures Spells(Tokenize(cs, s, p), s, p) && Legal(Tokenize(cs, s, p), p, |s|)
    decreases |s| - p
  {
    if p < |s| {
      var t := cs[p];
      var p' := p + Width(t);
      TokenizeLegal(cs, s, p');
      if t.Lit? && !Searchable(s, p') {
        TailIsLiteral(cs, s, p');
      }
      ConsLegal(t, Tokenize(cs, s, p'), s, p);
    }
  }

  lemma {:induction false} ConsLegal(t: Token, ts: seq<Token>, s: seq<byte>, p: nat)
    requires TrueAt(t, s, p) && Spells(ts, s, p + Width(t)) && Legal(ts, p + Width(t), |s|)
    requires t.Lit? && !Searchable(s, p + 1) ==> AllLiteral(ts)
    ensures Spells([t] + ts, s, p) && Legal([t] + ts, p, |s|)
  {
    assert ([t] + ts)[1..] == ts;
  }

  /** An overlapping copy rebuilds a repeat, however short its period. */
  lemma {:induction false} CopyRebuilds(s: seq<byte>, offset: nat, p: nat, len: nat)
    requires 1 <= offset <= p && p + len <= |s| && Repeats(s, offset, p, len)
    ensures CopyUp(s[..p], offset, len) == s[..p + len]
    decreases len
  {
    if len > 0 {
      assert Same(s, offset, p);
      assert s[..p] + [s[p]] == s[..p + 1];
      CopyRebuilds(s, offset, p + 1, len - 1);
    }
  }

  /** Tokens that are true of a text stand for that text. */
  lemma {:induction false} SpellsExpand(ts: seq<Token>, s: seq<byte>, p: nat)
    requires p <= |s| && Spells(ts, s, p) && Legal(ts, p, |s|)
    ensures Expand(ts, s[..p], |s|) == s
    decreases |ts|
  {
    hide Expand;
    if ts == [] {
      assert s[..p] == s;
      ExpandNone(s);
    } else {
      ExpandOne(ts, s, p);
      SpellsExpand(ts[1..], s, p + Width(ts[0]));
    }
  }

  lemma ExpandNone(s: seq<byte>)
    ensures Expand([], s, |s|) == s
  {
  }

  lemma ExpandStep(ts: seq<Token>, out: seq<byte>, size: nat)
    requires ts != [] && Legal(ts, |out|, size)
    ensures ts[0].Lit? ==>
      Legal(ts[1..], |out| + 1, size) && Expand(ts, out, size) == Expand(ts[1..], out + [ts[0].b], size)
    ensures ts[0].Match? ==>
      && 1 <= ts[0].offset <= |out| && Legal(ts[1..], |out| + ts[0].len, size)
      && Expand(ts, out, size) == Expand(ts[1..], CopyUp(out, ts[0].offset, ts[0].len), size)
  {
    hide CopyUp;
  }

  lemma OneFurther(s: seq<byte>, p: nat)
    requires p < |s|
    ensures s[..p] + [s[p]] == s[..p + 1]
  {
  }

  /** The first token of a true list adds its own part of the text. */
  lemma {:induction false} ExpandOne(ts: seq<Token>, s: seq<byte>, p: nat)
    requires ts != [] && p <= |s| && TrueAt(ts[0], s, p) && Legal(ts, p, |s|)
    ensures var p' := p + Width(ts[0]);
      p' <= |s| && Legal(ts[1..], p', |s|) && Expand(ts, s[..p], |s|) == Expand(ts[1..], s[..p'], |s|)
  {
    hide CopyUp, Expand, Legal, Repeats;
    ExpandStep(ts, s[..p], |s|);
    if ts[0].Match? {
      CopyRebuilds(s, ts[0].offset, p, ts[0].len);
    } else {
      OneFurther(s, p);
    }
  }

  /** What remains to be emitted from position `p` with `r` free slots in the control word. */
  function StreamFrom(cs: seq<Token>, s: seq<byte>, p: nat, r: nat): (bs: seq<byte>)
    requires Sound(cs, s) && p <= |s|
  {
    TokenizeLegal(cs, s, p);
    LegalInRange(Tokenize(cs, s, p), p, |s|);
    Emit(Tokenize(cs, s, p), r)
  }

  lemma {:induction false} StreamTakes(cs: seq<Token>, s: seq<byte>, p: nat, r: nat)
    requires Sound(cs, s) && p < |s| && r > 0
    ensures StreamFrom(cs, s, p, r) == Encode(cs[p]) + StreamFrom(cs, s, p + Width(cs[p]), r - 1)
  {
    TokenizeLegal(cs, s, p);
    LegalInRange(Tokenize(cs, s, p), p, |s|);
    assert Tokenize(cs, s, p)[1..] == Tokenize(cs, s, p + Width(cs[p]));
  }

  lemma {:induction false} StreamEnds(cs: seq<Token>, s: seq<byte>, r: nat)
    requires Sound(cs, s)
    ensures StreamFrom(cs, s, |s|, r) == []
  {
  }

  /** A token takes no more bytes of the stream than of the text. */
  lemma {:induction false} TokenCost(cs: seq<Token>, s: seq<byte>, p: nat, r: nat)
    requires Sound(cs, s) && p < |s| && r > 0
    ensures p < |cs| && InRange(cs[p])
    ensures p + Width(cs[p]) <= |s| && |Encode(cs[p])| <= Width(cs[p]) && Width(cs[p]) >= 1
    ensures |StreamFrom(cs, s, p, r)| == |Encode(cs[p])| + |StreamFrom(cs, s, p + Width(cs[p]), r - 1)|
  {
    hide StreamFrom;
    assert SoundAt(cs[p], s, p);
    StreamTakes(cs, s, p, r);
  }

  lemma {:induction false} StreamReloads(cs: seq<Token>, s: seq<byte>, p: nat)
    requires Sound(cs, s) && p < |s|
    ensures StreamFrom(cs, s, p, 0)
         == LeBytes(Word(Tokenize(cs, s, p), SLOTS), CWORD_LEN) + StreamFrom(cs, s, p, SLOTS)
  {
    TokenizeLegal(cs, s, p);
    LegalInRange(Tokenize(cs, s, p), p, |s|);
  }

  /**
    The compressor gives up when, past the middle of the text and at a full control word, it
    has not saved a 32nd part yet. `d` counts the bytes emitted, the current word included.
   */
  predicate GivesUp(cs: seq<Token>, s: seq<byte>, p: nat, d: nat, r: nat)
    requires Sound(cs, s) && p <= |s|
    decreases |s| - p, r == 0
  {
    if !Searchable(s, p) then false
    else if r == 0 then Poor(|s|, p, d) || GivesUp(cs, s, p, d + CWORD_LEN, SLOTS)
    else GivesUp(cs, s, p + Width(cs[p]), d + |Encode(cs[p])|, r - 1)
  }

  predicate Poor(size: nat, p: nat, d: nat) {
    p > size / 2 && d > p - p / 32
  }

  /** Without giving up: a token costs no more than its text, a control word covers 31 tokens. */
  predicate Frugal(p: nat, d: nat, r: nat) {
    31 * d <= 35 * p + 4 * r
  }

  /**
    What the ratio test buys. `pb` and `db` are text and stream position at the last full
    control word: before the middle the overhead is at most 4 in 31, after it there is none.
   */
  predicate Saving(size: nat, p: nat, d: nat, r: nat, pb: nat, db: nat) {
    && pb <= p <= size && r <= SLOTS
    && ((pb <= size / 2 && 31 * db <= 35 * pb) || db <= pb)
    && d <= db + 4 + 4 * (31 - r)
    && d <= db + 4 + (p - pb)
    && p - pb >= 31 - r
  }

  lemma {:induction false} SavingStarts(size: nat)
    ensures Saving(size, 0, CWORD_LEN, SLOTS, 0, 0)
  {
  }

  lemma {:induction false} SavingTakes(size: nat, p: nat, d: nat, r: nat, pb: nat, db: nat, w: nat, e: nat)
    requires Saving(size, p, d, r, pb, db) && r > 0 && 1 <= e <= 4 && e <= w && p + w <= size
    ensures Saving(size, p + w, d + e, r - 1, pb, db)
  {
  }

  lemma {:induction false} SavingReloads(size: nat, p: nat, d: nat, pb: nat, db: nat)
    requires Saving(size, p, d, 0, pb, db) && !Poor(size, p, d)
    ensures Saving(size, p, d + CWORD_LEN, SLOTS, p, d)
  {
  }

  lemma {:induction false} SavingBounds(size: nat, p: nat, d: nat, r: nat, pb: nat, db: nat)
    requires Saving(size, p, d, r, pb, db)
    ensures d <= p + 4 || d <= size + 128
  {
  }

  /** However poor the matches, the stream grows by at most 4 bytes in 31 and one control word. */
  lemma {:induction false} StreamFrugal(cs: seq<Token>, s: seq<byte>, p: nat, d: nat, r: nat)
    requires Sound(cs, s) && p <= |s| && Frugal(p, d, r) && r <= SLOTS
    ensures 31 * (d + |StreamFrom(cs, s, p, r)|) <= 35 * |s| + 124
    decreases |s| - p, r == 0
  {
    hide StreamFrom, Sound, Width, Encode;
    if p == |s| {
      StreamEnds(cs, s, r);
    } else if r == 0 {
      StreamReloads(cs, s, p);
      StreamFrugal(cs, s, p, d + CWORD_LEN, SLOTS);
    } else {
      TokenCost(cs, s, p, r);
      StreamFrugal(cs, s, p + Width(cs[p]), d + |Encode(cs[p])|, r - 1);
    }
  }

  lemma {:induction false} TailLength(cs: seq<Token>, s: seq<byte>, p: nat, r: nat)
    requires Sound(cs, s) && p <= |s| && !Searchable(s, p)
    ensures |StreamFrom(cs, s, p, r)| <= |s| - p + if |s| - p <= r then 0 else CWORD_LEN
    decreases |s| - p, r == 0
  {
    if p == |s| {
    } else if r == 0 {
      StreamReloads(cs, s, p);
      TailLength(cs, s, p, SLOTS);
    } else {
      StreamTakes(cs, s, p, r);
      TailLength(cs, s, p + 1, r - 1);
    }
  }

  /** When it does not give up, the compressor adds less than 150 bytes to any text. */
  lemma {:induction false} StreamSaves(cs: seq<Token>, s: seq<byte>, p: nat, d: nat, r: nat, pb: nat, db: nat)
    requires Sound(cs, s) && p <= |s| && Saving(|s|, p, d, r, pb, db) && !GivesUp(cs, s, p, d, r)
    ensures d + |StreamFrom(cs, s, p, r)| < |s| + 150
    decreases |s| - p, r == 0
  {
    hide StreamFrom, Saving, Poor, Encode;
    if !Searchable(s, p) {
      SavingBounds(|s|, p, d, r, pb, db);
      TailLength(cs, s, p, r);
    } else if r == 0 {
      StreamReloads(cs, s, p);
      SavingReloads(|s|, p, d, pb, db);
      StreamSaves(cs, s, p, d + CWORD_LEN, SLOTS, p, d);
    } else {
      StreamTakes(cs, s, p, r);
      SavingTakes(|s|, p, d, r, pb, db, Width(cs[p]), |Encode(cs[p])|);
      StreamSaves(cs, s, p + Width(cs[p]), d + |Encode(cs[p])|, r - 1, pb, db);
    }
  }
}
