/**
  The QuickLZ level 3 stream: tokens, their byte encodings, and the control words that
  announce 31 tokens at a time below a sentinel bit.

  Bit operations are written as arithmetic on non-negative integers: `x >> n` as division,
  `x & (2^n - 1)` as remainder, and `|` of disjoint bit fields as a sum.
 */
module LzFormat {
  import opened Bytes

  const MINOFFSET := 2
  const UNCONDITIONAL_MATCHLEN := 6
  const UNCOMPRESSED_END := 4
  const CWORD_LEN := 4
  const SLOTS := 31

  datatype Token = Lit(b: byte) | Match(offset: nat, len: nat)

  predicate InRange(t: Token) {
    t.Match? ==> 3 <= t.offset <= 131070 && 3 <= t.len <= 255
  }

  function Width(t: Token): (n: nat)
    requires InRange(t)
    ensures n >= 1
  {
    if t.Lit? then 1 else t.len
  }

  /** Bytes taken by a match: the five encodings, chosen in the compressor's order. */
  function CodeSize(offset: nat, len: nat): (k: nat)
    ensures 1 <= k <= 4 && (len >= 3 ==> k <= len)
  {
    if len == 3 && offset <= 63 then 1
    else if len == 3 && offset <= 16383 then 2
    else if len <= 18 && offset <= 1023 then 2
    else if len <= 33 then 3
    else 4
  }

  /** The number stored in those bytes: tag bits, then length and offset fields. */
  function CodeValue(offset: nat, len: nat): (f: nat)
    requires InRange(Match(offset, len))
    ensures f < Radix(CodeSize(offset, len))
  {
    if len == 3 && offset <= 63 then offset * 4
    else if len == 3 && offset <= 16383 then offset * 4 + 1
    else if len <= 18 && offset <= 1023 then (len - 3) * 4 + offset * 64 + 2
    else if len <= 33 then (len - 2) * 4 + offset * 128 + 3
    else (len - 3) * 128 + offset * 32768 + 3
  }

  function Encode(t: Token): (bs: seq<byte>)
    requires InRange(t)
    ensures 1 <= |bs| <= 4 && |bs| <= Width(t)
  {
    match t
    case Lit(b) => [b]
    case Match(offset, len) => LeBytes(CodeValue(offset, len), CodeSize(offset, len))
  }

  datatype MatchCode = MatchCode(offset: nat, len: nat, size: nat)

  /** What the decompressor reads out of the four fetched bytes: two tag bits, then the fields above them. */
  function DecodeMatch(fetch: nat): (m: MatchCode)
    ensures m.len >= 3 && 1 <= m.size <= 4
  {
    var tag, q := fetch % 4, fetch / 4;
    if tag == 0 then MatchCode(q % 64, 3, 1)
    else if tag == 1 then MatchCode(q % 16384, 3, 2)
    else if tag == 2 then MatchCode(q / 16 % 1024, q % 16 + 3, 2)
    else if q % 32 != 0 then MatchCode(q / 32 % 131072, q % 32 + 2, 3)
    else MatchCode(q / 8192, q / 32 % 256 + 3, 4)
  }

  /** A match code is a tag below a field below the rest: taking it apart again gives the parts. */
  lemma {:induction false} TakeApart(fetch: nat, tag: nat, width: nat, field: nat, above: nat)
    requires tag < 4 && field < width
    requires fetch == tag + 4 * (field + width * above)
    ensures fetch % 4 == tag && fetch / 4 % width == field && fetch / 4 / width == above
  {
    DivMod(fetch, 4, field + width * above, tag);
    DivMod(field + width * above, width, above, field);
  }

  lemma {:induction false} DecodesThreeNear(fetch: nat, offset: nat, above: nat)
    requires offset <= 63 && fetch == offset * 4 + 256 * above
    ensures DecodeMatch(fetch) == MatchCode(offset, 3, 1)
  {
    TakeApart(fetch, 0, 64, offset, above);
  }

  lemma {:induction false} DecodesThree(fetch: nat, offset: nat, above: nat)
    requires offset <= 16383 && fetch == offset * 4 + 1 + 65536 * above
    ensures DecodeMatch(fetch) == MatchCode(offset, 3, 2)
  {
    TakeApart(fetch, 1, 16384, offset, above);
  }

  lemma {:induction false} DecodesNear(fetch: nat, offset: nat, len: nat, above: nat)
    requires 3 <= len <= 18 && offset <= 1023 && fetch == (len - 3) * 4 + offset * 64 + 2 + 65536 * above
    ensures DecodeMatch(fetch) == MatchCode(offset, len, 2)
  {
    TakeApart(fetch, 2, 16, len - 3, offset + 1024 * above);
    DivMod(offset + 1024 * above, 1024, above, offset);
  }

  lemma {:induction false} DecodesMedium(fetch: nat, offset: nat, len: nat, above: nat)
    requires 3 <= len <= 33 && offset <= 131070 && fetch == (len - 2) * 4 + offset * 128 + 3 + 16777216 * above
    ensures DecodeMatch(fetch) == MatchCode(offset, len, 3)
  {
    TakeApart(fetch, 3, 32, len - 2, offset + 131072 * above);
    DivMod(offset + 131072 * above, 131072, above, offset);
  }

  lemma {:induction false} DecodesLong(fetch: nat, offset: nat, len: nat)
    requires 3 <= len <= 255 && fetch == (len - 3) * 128 + offset * 32768 + 3
    ensures DecodeMatch(fetch) == MatchCode(offset, len, 4)
  {
    TakeApart(fetch, 3, 32, 0, len - 3 + 256 * offset);
    DivMod(len - 3 + 256 * offset, 256, offset, len - 3);
    DivMod(fetch / 4, 8192, offset, 32 * (len - 3));
  }

  lemma {:induction false} DecodesCode(fetch: nat, offset: nat, len: nat, above: nat)
    requires InRange(Match(offset, len))
    requires fetch == CodeValue(offset, len) + Radix(CodeSize(offset, len)) * above
    requires CodeSize(offset, len) == 4 ==> above == 0
    ensures DecodeMatch(fetch) == MatchCode(offset, len, CodeSize(offset, len))
  {
    if len == 3 && offset <= 63 {
      DecodesThreeNear(fetch, offset, above);
    } else if len == 3 && offset <= 16383 {
      DecodesThree(fetch, offset, above);
    } else if len <= 18 && offset <= 1023 {
      DecodesNear(fetch, offset, len, above);
    } else if len <= 33 {
      DecodesMedium(fetch, offset, len, above);
    } else {
      DecodesLong(fetch, offset, len);
    }
  }

  /** Each of the five codes is decoded from its own bytes only, whatever follows it. */
  lemma {:induction false} DecodeInvertsEncode(t: Token, rest: seq<byte>)
    requires t.Match? && InRange(t)
    requires |Encode(t)| + |rest| >= 4
    ensures DecodeMatch(FastRead4(Encode(t) + rest)) == MatchCode(t.offset, t.len, |Encode(t)|)
  {
    var above := Fetch(CodeValue(t.offset, t.len), CodeSize(t.offset, t.len), rest);
    DecodesCode(FastRead4(Encode(t) + rest), t.offset, t.len, above);
  }

  /** Overlapping copy, one byte at a time: the portable memcpy_up appended to what was written. */
  function CopyUp(out: seq<byte>, offset: nat, len: nat): (r: seq<byte>)
    requires 1 <= offset <= |out|
    ensures |r| == |out| + len && out <= r
    decreases len
  {
    if len == 0 then out else CopyUp(out + [out[|out| - offset]], offset, len - 1)
  }

  predicate AllLiteral(ts: seq<Token>) {
    forall i :: 0 <= i < |ts| ==> ts[i].Lit?
  }

  /**
    A token list the format can carry from position `p` of a `size`-byte text: matches reach
    back into the text and leave four literals, and a literal at or after the last match start
    is followed by literals only.
   */
  predicate Legal(ts: seq<Token>, p: nat, size: nat): (ok: bool)
    ensures ok ==> p <= size
    decreases |ts|
  {
    if ts == [] then p == size
    else
      && InRange(ts[0])
      && (ts[0].Match? ==> ts[0].offset <= p && p + ts[0].len + UNCOMPRESSED_END <= size)
      && (ts[0].Lit? && p + UNCONDITIONAL_MATCHLEN + UNCOMPRESSED_END + 1 >= size ==> AllLiteral(ts))
      && Legal(ts[1..], p + Width(ts[0]), size)
  }

  /** The text a token list stands for. */
  function Expand(ts: seq<Token>, out: seq<byte>, size: nat): (r: seq<byte>)
    requires Legal(ts, |out|, size)
    ensures |r| == size && out <= r
    decreases |ts|
  {
    if ts == [] then out
    else match ts[0]
      case Lit(b) => Expand(ts[1..], out + [b], size)
      case Match(offset, len) => Expand(ts[1..], CopyUp(out, offset, len), size)
  }

  /** The control word for the next `r` token slots, with the sentinel at bit `r`. */
  function Word(ts: seq<Token>, r: nat): (w: nat)
    ensures w >= 1
    decreases r, |ts|
  {
    if r == 0 then 1
    else if ts == [] then 2 * Word(ts, r - 1)
    else (if ts[0].Match? then 1 else 0) + 2 * Word(ts[1..], r - 1)
  }

  predicate AllInRange(ts: seq<Token>) {
    forall i :: 0 <= i < |ts| ==> InRange(ts[i])
  }

  /** The stream for `ts` when `r` slots of the current control word are still free. */
  function Emit(ts: seq<Token>, r: nat): (bs: seq<byte>)
    requires AllInRange(ts)
    decreases |ts|, if r == 0 then 1 else 0
  {
    if ts == [] then []
    else if r == 0 then LeBytes(Word(ts, SLOTS), CWORD_LEN) + Emit(ts, SLOTS)
    else Encode(ts[0]) + Emit(ts[1..], r - 1)
  }

  lemma {:induction false} LegalInRange(ts: seq<Token>, p: nat, size: nat)
    requires Legal(ts, p, size)
    ensures AllInRange(ts)
    decreases |ts|
  {
    if ts != [] {
      LegalInRange(ts[1..], p + Width(ts[0]), size);
      assert forall i :: 1 <= i < |ts| ==> ts[i] == ts[1..][i - 1];
    }
  }

  lemma {:induction false} WordBounds(ts: seq<Token>, r: nat)
    ensures Pow2(r) <= Word(ts, r) < 2 * Pow2(r)
    decreases r
  {
    if r > 0 {
      WordBounds(if ts == [] then ts else ts[1..], r - 1);
    }
  }

  lemma {:induction false} WordFits(ts: seq<Token>)
    ensures Word(ts, SLOTS) < WORD
  {
    WordBounds(ts, SLOTS);
    Pow2Of31();
  }

  lemma {:induction false} WordOfNone(ts: seq<Token>)
    ensures Word(ts, 0) == 1
  {
  }

  lemma {:induction false} WordOfLiterals(ts: seq<Token>, r: nat)
    requires AllLiteral(ts)
    ensures Word(ts, r) == Pow2(r)
    decreases r
  {
    if r > 0 {
      WordOfLiterals(if ts == [] then ts else ts[1..], r - 1);
    }
  }

  /** No code of the format stands for a match in fewer bytes than the one chosen. */
  lemma {:induction false} ShortestCode(offset: nat, len: nat, fetch: nat)
    requires InRange(Match(offset, len)) && DecodeMatch(fetch).offset == offset && DecodeMatch(fetch).len == len
    ensures |Encode(Match(offset, len))| <= DecodeMatch(fetch).size
  {
  }
}
