/** A reference reader of the stream, one control bit at a time, without the decompressor's fast paths. */
module LzParse {
  import opened Wrappers
  import opened Bytes
  import opened LzFormat
  import opened LzDecode

  /** The tokens of the next `left` bytes of text. */
  function Parse(rest: seq<byte>, left: nat, cword: nat): (r: Option<seq<Token>>)
    decreases |rest|, left
  {
    if left == 0 then Some([])
    else if cword == 1 then
      if |rest| < CWORD_LEN then None else Parse(rest[CWORD_LEN..], left, FastRead4(rest))
    else if cword % 2 == 0 then
      if rest == [] then None else Prepend(Lit(rest[0]), Parse(rest[1..], left - 1, cword / 2))
    else if |rest| < 4 then None
    else
      var m := DecodeMatch(FastRead4(rest));
      if m.len > left then None
      else Prepend(Match(m.offset, m.len), Parse(rest[m.size..], left - m.len, cword / 2))
  }

  function Prepend(t: Token, r: Option<seq<Token>>): Option<seq<Token>> {
    if r.None? then None else Some([t] + r.value)
  }

  predicate Parsed(ts: seq<Token>, r: nat, p: nat, size: nat, pad: seq<byte>)
    requires AllInRange(ts) && Legal(ts, p, size)
  {
    Parse(Emit(ts, r) + pad, size - p, Word(ts, r)) == Some(ts)
  }

  /** Reading the stream of a legal token list gives back exactly those tokens. */
  lemma {:induction false} ParseInvertsEmit(ts: seq<Token>, r: nat, p: nat, size: nat, pad: seq<byte>)
    requires AllInRange(ts) && Legal(ts, p, size)
    ensures Parsed(ts, r, p, size, pad)
    decreases |ts|, r == 0
  {
    if ts != [] {
      if r == 0 {
        ParseInvertsEmit(ts, SLOTS, p, size, pad);
        ParseReloads(ts, p, size, pad);
      } else {
        ParseInvertsEmit(ts[1..], r - 1, p + Width(ts[0]), size, pad);
        ParseTakes(ts, r, p, size, pad);
      }
    }
  }

  lemma {:induction false} ParseReloads(ts: seq<Token>, p: nat, size: nat, pad: seq<byte>)
    requires AllInRange(ts) && Legal(ts, p, size) && ts != [] && Parsed(ts, SLOTS, p, size, pad)
    ensures Parsed(ts, 0, p, size, pad)
  {
    hide Word, LeBytes, DecodeMatch;
    WordFits(ts);
    var word, more := LeBytes(Word(ts, SLOTS), CWORD_LEN), Emit(ts, SLOTS);
    var above := Fetch(Word(ts, SLOTS), CWORD_LEN, more + pad);
    Regroup(word, more, pad);
    Cut(word, more + pad);
    assert Word(ts, 0) == 1 by { WordOfNone(ts); }
  }

  lemma {:induction false} ParseTakes(ts: seq<Token>, r: nat, p: nat, size: nat, pad: seq<byte>)
    requires AllInRange(ts) && Legal(ts, p, size) && ts != [] && r > 0
    requires Parsed(ts[1..], r - 1, p + Width(ts[0]), size, pad)
    ensures Parsed(ts, r, p, size, pad)
  {
    hide Emit, LeBytes, DecodeMatch, FastRead4, Encode, Parse, Word;
    WordBounds(ts, r);
    WordTakes(ts, r);
    SplitHead(ts, r, pad);
    var rest, more := Emit(ts, r) + pad, Emit(ts[1..], r - 1) + pad;
    if ts[0].Match? {
      EnoughBytes(ts[1..], r - 1, p + ts[0].len, size);
      DecodeInvertsEncode(ts[0], more);
      ParseMatch(rest, size - p, Word(ts, r));
    } else {
      LiteralIsItself(ts[0]);
      assert rest[0] == ts[0].b;
      ParseLiteral(rest, size - p, Word(ts, r));
    }
    assert [ts[0]] + ts[1..] == ts;
  }

  lemma WordTakes(ts: seq<Token>, r: nat)
    requires ts != [] && r > 0
    ensures Word(ts, r) / 2 == Word(ts[1..], r - 1) && Word(ts, r) % 2 == if ts[0].Match? then 1 else 0
  {
  }

  lemma ParseLiteral(rest: seq<byte>, left: nat, cword: nat)
    requires left > 0 && cword % 2 == 0 && rest != []
    ensures Parse(rest, left, cword) == Prepend(Lit(rest[0]), Parse(rest[1..], left - 1, cword / 2))
  {
  }

  lemma ParseMatch(rest: seq<byte>, left: nat, cword: nat)
    requires left > 0 && cword > 1 && cword % 2 == 1 && |rest| >= 4 && DecodeMatch(FastRead4(rest)).len <= left
    ensures var m := DecodeMatch(FastRead4(rest));
      Parse(rest, left, cword) == Prepend(Match(m.offset, m.len), Parse(rest[m.size..], left - m.len, cword / 2))
  {
    hide DecodeMatch, FastRead4;
  }

  lemma {:induction false} LiteralIsItself(t: Token)
    requires t.Lit?
    ensures Encode(t) == [t.b]
  {
  }

  /** Taking literals one bit at a time, `max` at most. */
  function OneByOne(rest: seq<byte>, out: seq<byte>, cword: nat, max: nat): (t: Turn)
    decreases max, rest
  {
    if max == 0 || cword % 2 == 1 || rest == [] then Go(rest, out, cword)
    else OneByOne(rest[1..], out + [rest[0]], cword / 2, max - 1)
  }

  lemma OneMoreTaken(rest: seq<byte>, n: nat)
    requires 1 <= n <= |rest|
    ensures rest[1..][n - 1..] == rest[n..] && rest[..n] == [rest[0]] + rest[1..][..n - 1]
  {
  }

  /** The batch the decompressor copies at once ends where single steps would end. */
  lemma {:induction false} BatchIsOneByOne(rest: seq<byte>, out: seq<byte>, cword: nat, max: nat)
    requires max <= |rest|
    ensures var n := LiteralBits(cword, max);
      OneByOne(rest, out, cword, max) == Go(rest[n..], out + rest[..n], Shr(cword, n))
    decreases max
  {
    hide LiteralBits, Shr, OneByOne;
    var n := LiteralBits(cword, max);
    BitsStep(cword, max, n);
    OneByOneStep(rest, out, cword, max);
    if n == 0 {
      assert rest[0..] == rest && out + rest[..0] == out;
    } else {
      BatchIsOneByOne(rest[1..], out + [rest[0]], cword / 2, max - 1);
      OneMoreTaken(rest, n);
      Regroup(out, [rest[0]], rest[1..][..n - 1]);
    }
  }

  lemma OneByOneStep(rest: seq<byte>, out: seq<byte>, cword: nat, max: nat)
    ensures OneByOne(rest, out, cword, max) ==
            if max == 0 || cword % 2 == 1 || rest == [] then Go(rest, out, cword)
            else OneByOne(rest[1..], out + [rest[0]], cword / 2, max - 1)
  {
  }
}
