/**
  The decompressor as a function of the bytes it has not read yet, and the proof that it
  gives back the text of every legal token list.
 */
module LzDecode {
  import opened Wrappers
  import opened Bytes
  import opened LzFormat

  const TOP_BIT := 0x8000_0000

  /** A C cast to an unsigned 32-bit number, of a value that needs at most one wrap. */
  function Ui32(x: int): nat
    requires -WORD <= x < WORD
  {
    if x < 0 then x + WORD else x
  }

  /** Literal bits below the next match bit or the sentinel, `max` at most. */
  function LiteralBits(cword: nat, max: nat): (n: nat)
    ensures n <= max && (max > 0 && cword % 2 == 0 ==> n >= 1)
    decreases max, cword
  {
    if max == 0 || cword % 2 == 1 then 0 else 1 + LiteralBits(cword / 2, max - 1)
  }

  /** In the main loop the output is empty or leaves room for the uncompressed end. */
  predicate MainRoom(out: seq<byte>, size: nat) {
    out == [] || |out| + UNCOMPRESSED_END <= size
  }

  /** The closing loop: literals only, control words skipped without being read. */
  function Tail(rest: seq<byte>, size: nat, out: seq<byte>, cword: nat): (r: Option<seq<byte>>)
    requires |out| <= size
    ensures r.Some? ==> |r.value| == size && out <= r.value
    decreases size - |out|
  {
    if |out| == size then Some(out)
    else
      var skip := if cword == 1 then CWORD_LEN else 0;
      if |rest| <= skip then None
      else Tail(rest[skip + 1..], size, out + [rest[skip]], (if cword == 1 then TOP_BIT else cword) / 2)
  }

  datatype Turn = Fail | Close | Go(rest: seq<byte>, out: seq<byte>, cword: nat)

  /** A decoded match is refused when it leaves the output, on either side, and copied otherwise. */
  function MatchTurn(rest: seq<byte>, size: nat, out: seq<byte>, cword: nat, m: MatchCode): (t: Turn)
    requires size < WORD && |out| <= size && MainRoom(out, size)
    requires m.len >= 3 && 1 <= m.size <= 4 <= |rest|
    ensures t.Go? ==> |t.rest| < |rest| && |t.out| <= size && MainRoom(t.out, size) && out <= t.out
  {
    if m.offset > |out| || m.offset < MINOFFSET + 1 then Fail
    else
      // The cast is harmless: its argument is never negative here.
      assert size - |out| - UNCOMPRESSED_END >= 0;
      if m.len > Ui32(size - |out| - UNCOMPRESSED_END) then Fail
      else Go(rest[m.size..], CopyUp(out, m.offset, m.len), cword / 2)
  }

  /** A match is taken exactly when it lies three or more back in the output and leaves its last four bytes free. */
  lemma {:induction false} TakenIff(rest: seq<byte>, size: nat, out: seq<byte>, cword: nat, m: MatchCode)
    requires size < WORD && |out| <= size && MainRoom(out, size) && m.len >= 3 && 1 <= m.size <= 4 <= |rest|
    ensures MatchTurn(rest, size, out, cword, m).Go? <==> 3 <= m.offset <= |out| && |out| + m.len + 4 <= size
    ensures !MatchTurn(rest, size, out, cword, m).Close?
  {
  }

  /** One turn of the main loop: a match, up to four literals, or the closing loop. */
  function TurnOf(rest: seq<byte>, size: nat, out: seq<byte>, cword: nat): (t: Turn)
    requires size < WORD && |out| <= size && MainRoom(out, size)
    ensures t.Go? ==> |t.rest| < |rest| && |t.out| <= size && MainRoom(t.out, size) && out <= t.out
  {
    if |rest| < 4 then Fail
    else if cword % 2 == 1 then MatchTurn(rest, size, out, cword, DecodeMatch(FastRead4(rest)))
    else if |out| + UNCONDITIONAL_MATCHLEN + UNCOMPRESSED_END + 1 < size then
      var n := LiteralBits(cword, 4);
      Go(rest[n..], out + rest[..n], Shr(cword, n))
    else Close
  }

  /** The main loop; the control word is reloaded when only the sentinel is left. */
  function Run(rest: seq<byte>, size: nat, out: seq<byte>, cword: nat): (r: Option<seq<byte>>)
    requires size < WORD && |out| <= size && MainRoom(out, size)
    ensures r.Some? ==> |r.value| == size && out <= r.value
    decreases |rest|
  {
    if cword == 1 && |rest| < CWORD_LEN then None
    else
      var rest' := if cword == 1 then rest[CWORD_LEN..] else rest;
      var cword' := if cword == 1 then FastRead4(rest) else cword;
      match TurnOf(rest', size, out, cword')
      case Fail => None
      case Close => Tail(rest', size, out, cword')
      case Go(rest'', out', cword'') => Run(rest'', size, out', cword'')
  }

  /** Four bytes are left to fetch wherever the main loop can stand in a legal stream. */
  lemma {:induction false} EnoughBytes(ts: seq<Token>, r: nat, p: nat, size: nat)
    requires AllInRange(ts) && Legal(ts, p, size) && p + UNCOMPRESSED_END <= size
    ensures |Emit(ts, r)| >= size - p || |Emit(ts, r)| >= 4
    decreases |ts|, r == 0
  {
    if r == 0 {
      EnoughBytes(ts, SLOTS, p, size);
    } else {
      var p' := p + Width(ts[0]);
      if p' + UNCOMPRESSED_END <= size {
        EnoughBytes(ts[1..], r - 1, p', size);
      } else {
        LiteralBytes(ts, r, p, size);
      }
    }
  }

  lemma {:induction false} LiteralBytes(ts: seq<Token>, r: nat, p: nat, size: nat)
    requires AllInRange(ts) && Legal(ts, p, size) && AllLiteral(ts)
    ensures |Emit(ts, r)| >= size - p
    decreases |ts|, r == 0
  {
    if ts != [] {
      if r == 0 {
        LiteralBytes(ts, SLOTS, p, size);
      } else {
        LiteralBytes(ts[1..], r - 1, p + 1, size);
      }
    }
  }

  /** The lowest bit of a control word is the next token's, the rest is the word of the others. */
  lemma {:induction false} WordHead(ts: seq<Token>, r: nat)
    requires r > 0
    ensures Word(ts, r) / 2 == Word(if ts == [] then ts else ts[1..], r - 1)
    ensures Word(ts, r) % 2 == if ts != [] && ts[0].Match? then 1 else 0
  {
  }

  lemma {:induction false} BitsStep(cword: nat, max: nat, n: nat)
    ensures LiteralBits(cword, max) == if max == 0 || cword % 2 == 1 then 0 else 1 + LiteralBits(cword / 2, max - 1)
    ensures Shr(cword, n) == if n == 0 then cword else Shr(cword / 2, n - 1)
  {
  }

  /** Clear low bits of a control word stand for literals of the current group. */
  lemma {:induction false} ClearBits(ts: seq<Token>, r: nat, max: nat)
    ensures var n := LiteralBits(Word(ts, r), max);
      n <= r && (forall i :: 0 <= i < n && i < |ts| ==> ts[i].Lit?)
    decreases max
  {
    hide Word, LiteralBits;
    BitsStep(Word(ts, r), max, 0);
    if LiteralBits(Word(ts, r), max) > 0 {
      var ts' := if ts == [] then ts else ts[1..];
      WordOfNone(ts);
      WordHead(ts, r);
      ClearBits(ts', r - 1, max - 1);
      assert forall i :: 1 <= i < |ts| ==> ts[i] == ts'[i - 1];
    }
  }

  /** Shifted by `n` bits, a control word is that of the tokens left. */
  lemma {:induction false} WordShifts(ts: seq<Token>, r: nat, n: nat)
    requires n <= r && n <= |ts|
    ensures Word(ts[n..], r - n) == Shr(Word(ts, r), n)
    decreases n
  {
    hide Word, Shr;
    BitsStep(Word(ts, r), 0, n);
    if n == 0 {
      assert ts[0..] == ts;
    } else {
      WordHead(ts, r);
      WordShifts(ts[1..], r - 1, n - 1);
      assert ts[1..][n - 1..] == ts[n..];
    }
  }

  function Letters(ts: seq<Token>, n: nat): (bs: seq<byte>)
    requires n <= |ts| && forall i :: 0 <= i < n ==> ts[i].Lit?
    ensures |bs| == n
  {
    if n == 0 then [] else [ts[0].b] + Letters(ts[1..], n - 1)
  }

  /** `n` literals of a group lie next to each other in the stream. */
  lemma {:induction false} LiteralsAdjacent(ts: seq<Token>, r: nat, n: nat)
    requires AllInRange(ts) && n <= r && n <= |ts| && forall i :: 0 <= i < n ==> ts[i].Lit?
    ensures Emit(ts, r) == Letters(ts, n) + Emit(ts[n..], r - n)
    decreases n
  {
    hide Emit, Letters;
    LettersStep(ts, n);
    if n == 0 {
      assert ts[0..] == ts;
      assert [] + Emit(ts, r) == Emit(ts, r);
    } else {
      LiteralsAdjacent(ts[1..], r - 1, n - 1);
      assert ts[n..] == ts[1..][n - 1..];
      EmitLiteral(ts, r);
      Regroup([ts[0].b], Letters(ts[1..], n - 1), Emit(ts[n..], r - n));
    }
  }

  lemma EmitLiteral(ts: seq<Token>, r: nat)
    requires AllInRange(ts) && ts != [] && r > 0 && ts[0].Lit?
    ensures Emit(ts, r) == [ts[0].b] + Emit(ts[1..], r - 1)
  {
  }

  /** Taking `n` literals together writes what taking them one by one does. */
  lemma {:induction false} LiteralRun(ts: seq<Token>, n: nat, out: seq<byte>, size: nat)
    requires Legal(ts, |out|, size) && n <= |ts| && forall i :: 0 <= i < n ==> ts[i].Lit?
    ensures Legal(ts[n..], |out| + n, size)
    ensures Expand(ts[n..], out + Letters(ts, n), size) == Expand(ts, out, size)
    decreases n
  {
    hide Legal, Expand, Letters;
    LettersStep(ts, n);
    if n == 0 {
      assert ts[0..] == ts && out + Letters(ts, 0) == out;
    } else {
      LiteralStep(ts, out, size);
      assert forall i :: 0 <= i < n - 1 ==> ts[1..][i] == ts[i + 1];
      LiteralRun(ts[1..], n - 1, out + [ts[0].b], size);
      assert ts[n..] == ts[1..][n - 1..];
      Regroup(out, [ts[0].b], Letters(ts[1..], n - 1));
    }
  }

  lemma {:induction false} LettersStep(ts: seq<Token>, n: nat)
    requires n <= |ts| && forall i :: 0 <= i < n ==> ts[i].Lit?
    ensures n == 0 ==> Letters(ts, n) == []
    ensures n > 0 ==> Letters(ts, n) == [ts[0].b] + Letters(ts[1..], n - 1)
  {
  }

  lemma {:induction false} LiteralStep(ts: seq<Token>, out: seq<byte>, size: nat)
    requires Legal(ts, |out|, size) && ts != [] && ts[0].Lit?
    ensures Legal(ts[1..], |out| + 1, size) && Expand(ts, out, size) == Expand(ts[1..], out + [ts[0].b], size)
  {
  }

  /** Every text position costs a token, so a run of literals ends before the text does. */
  lemma {:induction false} LongEnough(ts: seq<Token>, p: nat, size: nat, n: nat)
    requires Legal(ts, p, size) && p + n <= size
    requires forall i :: 0 <= i < n && i < |ts| ==> ts[i].Lit?
    ensures n <= |ts|
    decreases n
  {
    if n > 0 && ts != [] {
      assert forall i :: 0 <= i < n - 1 && i < |ts| - 1 ==> ts[1..][i] == ts[i + 1];
      LongEnough(ts[1..], p + 1, size, n - 1);
    }
  }

  /** The closing loop, unfolded once. */
  lemma {:induction false} TailStep(rest: seq<byte>, size: nat, out: seq<byte>, cword: nat, skip: nat)
    requires |out| < size && skip == if cword == 1 then CWORD_LEN else 0
    ensures Tail(rest, size, out, cword) ==
      if |rest| <= skip then None
      else Tail(rest[skip + 1..], size, out + [rest[skip]], (if cword == 1 then TOP_BIT else cword) / 2)
  {
  }

  lemma {:induction false} TailSkips(word: seq<byte>, rest: seq<byte>, size: nat, out: seq<byte>)
    requires |word| == CWORD_LEN && |out| < size
    ensures Tail(word + rest, size, out, 1) == Tail(rest, size, out, TOP_BIT)
  {
    if rest != [] {
      assert (word + rest)[CWORD_LEN + 1..] == rest[1..];
    }
  }

  lemma {:induction false} TailTakes(b: byte, rest: seq<byte>, size: nat, out: seq<byte>, cword: nat)
    requires |out| < size && cword != 1
    ensures Tail([b] + rest, size, out, cword) == Tail(rest, size, out + [b], cword / 2)
  {
    Cut([b], rest);
  }

  lemma TailFull(rest: seq<byte>, size: nat, out: seq<byte>, cword: nat)
    requires |out| == size
    ensures Tail(rest, size, out, cword) == Some(out)
  {
  }

  lemma EmitReloads(ts: seq<Token>)
    requires AllInRange(ts) && ts != []
    ensures Emit(ts, 0) == LeBytes(Word(ts, SLOTS), CWORD_LEN) + Emit(ts, SLOTS) && Pow2(0) == 1
    ensures |LeBytes(Word(ts, SLOTS), CWORD_LEN)| == CWORD_LEN
  {
  }

  /** The closing loop reads a run of literals, stepping over the control words among them. */
  lemma {:induction false} TailDecodes(ts: seq<Token>, r: nat, out: seq<byte>, size: nat, pad: seq<byte>)
    requires AllInRange(ts) && Legal(ts, |out|, size) && AllLiteral(ts)
    ensures Tail(Emit(ts, r) + pad, size, out, Pow2(r)) == Some(Expand(ts, out, size))
    decreases |ts|, r == 0
  {
    hide Tail, Emit, LeBytes, Word, Pow2;
    if ts == [] {
      TailFull(Emit(ts, r) + pad, size, out, Pow2(r));
    } else if r == 0 {
      TailDecodes(ts, SLOTS, out, size, pad);
      Pow2Of31();
      var word, more := LeBytes(Word(ts, SLOTS), CWORD_LEN), Emit(ts, SLOTS);
      EmitReloads(ts);
      TailSkips(word, more + pad, size, out);
      Regroup(word, more, pad);
    } else {
      var b, more := ts[0].b, Emit(ts[1..], r - 1);
      TailDecodes(ts[1..], r - 1, out + [b], size, pad);
      EmitLiteral(ts, r);
      Pow2Step(r - 1);
      TailTakes(b, more + pad, size, out, Pow2(r));
      Regroup([b], more, pad);
    }
  }

  predicate Fetchable(ts: seq<Token>, r: nat, p: nat, size: nat, pad: seq<byte>)
    requires AllInRange(ts)
  {
    p + UNCOMPRESSED_END <= size || |Emit(ts, r)| + |pad| >= (if r == 0 then 2 * CWORD_LEN else CWORD_LEN)
  }

  predicate Decoded(ts: seq<Token>, r: nat, out: seq<byte>, size: nat, pad: seq<byte>)
    requires size < WORD && AllInRange(ts) && Legal(ts, |out|, size) && MainRoom(out, size)
  {
    Run(Emit(ts, r) + pad, size, out, Word(ts, r)) == Some(Expand(ts, out, size))
  }

  /** Decoding the stream of a legal token list, from any point of any group, gives its text. */
  lemma {:induction false} RunDecodes(ts: seq<Token>, r: nat, out: seq<byte>, size: nat, pad: seq<byte>)
    requires size < WORD && AllInRange(ts) && Legal(ts, |out|, size) && |out| < size && MainRoom(out, size)
    requires Fetchable(ts, r, |out|, size, pad)
    ensures Decoded(ts, r, out, size, pad)
    decreases |ts|, if r == 0 then 2 else 1
  {
    if r == 0 {
      RunDecodes(ts, SLOTS, out, size, pad);
      ReloadsWord(ts, out, size, pad);
    } else {
      EnoughToFetch(ts, r, out, size, pad);
      if ts[0].Match? {
        MatchCase(ts, r, out, size, pad);
      } else if |out| + UNCONDITIONAL_MATCHLEN + UNCOMPRESSED_END + 1 < size {
        LiteralCase(ts, r, out, size, pad);
      } else {
        CloseCase(ts, r, out, size, pad);
      }
    }
  }

  lemma {:induction false} MatchCase(ts: seq<Token>, r: nat, out: seq<byte>, size: nat, pad: seq<byte>)
    requires size < WORD && AllInRange(ts) && Legal(ts, |out|, size) && MainRoom(out, size)
    requires r > 0 && ts != [] && ts[0].Match? && |Emit(ts, r)| + |pad| >= 4 && Word(ts, r) > 1
    ensures Decoded(ts, r, out, size, pad)
    decreases |ts|, 0
  {
    hide Decoded, Run, TurnOf, Tail, Emit, Encode, Word, Expand, CopyUp;
    RunDecodes(ts[1..], r - 1, CopyUp(out, ts[0].offset, ts[0].len), size, pad);
    MatchStep(ts, r, out, size, pad);
  }

  lemma {:induction false} MatchStep(ts: seq<Token>, r: nat, out: seq<byte>, size: nat, pad: seq<byte>)
    requires size < WORD && AllInRange(ts) && Legal(ts, |out|, size) && MainRoom(out, size)
    requires r > 0 && ts != [] && ts[0].Match? && |Emit(ts, r)| + |pad| >= 4 && Word(ts, r) > 1
    requires Decoded(ts[1..], r - 1, CopyUp(out, ts[0].offset, ts[0].len), size, pad)
    ensures Decoded(ts, r, out, size, pad)
  {
    TakesMatch(ts, r, out, size, pad);
    RunGoes(Emit(ts, r) + pad, size, out, Word(ts, r), Emit(ts, r) + pad, Word(ts, r));
  }

  lemma {:induction false} LiteralCase(ts: seq<Token>, r: nat, out: seq<byte>, size: nat, pad: seq<byte>)
    requires size < WORD && AllInRange(ts) && Legal(ts, |out|, size) && MainRoom(out, size)
    requires r > 0 && ts != [] && ts[0].Lit? && |Emit(ts, r)| + |pad| >= 4 && Word(ts, r) > 1
    requires |out| + UNCONDITIONAL_MATCHLEN + UNCOMPRESSED_END + 1 < size
    ensures Decoded(ts, r, out, size, pad)
    decreases |ts|, 0
  {
    hide TurnOf, Emit, Word, Letters, Expand, Tail, Legal, Run;
    var n := TakesLiterals(ts, r, out, size, pad);
    RunDecodes(ts[n..], r - n, out + Letters(ts, n), size, pad);
    LiteralRun(ts, n, out, size);
    RunGoes(Emit(ts, r) + pad, size, out, Word(ts, r), Emit(ts, r) + pad, Word(ts, r));
  }

  lemma {:induction false} CloseCase(ts: seq<Token>, r: nat, out: seq<byte>, size: nat, pad: seq<byte>)
    requires size < WORD && AllInRange(ts) && Legal(ts, |out|, size) && MainRoom(out, size)
    requires r > 0 && ts != [] && ts[0].Lit? && |Emit(ts, r)| + |pad| >= 4 && Word(ts, r) > 1
    requires |out| + UNCONDITIONAL_MATCHLEN + UNCOMPRESSED_END + 1 >= size
    ensures Decoded(ts, r, out, size, pad)
  {
    RunGoes(Emit(ts, r) + pad, size, out, Word(ts, r), Emit(ts, r) + pad, Word(ts, r));
    WordOfLiterals(ts, r);
    TailDecodes(ts, r, out, size, pad);
  }

  lemma {:induction false} EnoughToFetch(ts: seq<Token>, r: nat, out: seq<byte>, size: nat, pad: seq<byte>)
    requires AllInRange(ts) && Legal(ts, |out|, size) && r > 0 && Fetchable(ts, r, |out|, size, pad)
    ensures |Emit(ts, r)| + |pad| >= 4 && Word(ts, r) > 1
  {
    WordBounds(ts, r);
    if |out| + UNCOMPRESSED_END <= size {
      EnoughBytes(ts, r, |out|, size);
    }
  }

  lemma {:induction false} ReloadsWord(ts: seq<Token>, out: seq<byte>, size: nat, pad: seq<byte>)
    requires size < WORD && |out| <= size && MainRoom(out, size)
    requires AllInRange(ts) && ts != []
    ensures Run(Emit(ts, 0) + pad, size, out, 1) == Run(Emit(ts, SLOTS) + pad, size, out, Word(ts, SLOTS))
  {
    hide Word, TurnOf, Tail, LeBytes;
    WordFits(ts);
    WordBounds(ts, SLOTS);
    Pow2Of31();
    var word, more := LeBytes(Word(ts, SLOTS), CWORD_LEN), Emit(ts, SLOTS);
    var above := Fetch(Word(ts, SLOTS), CWORD_LEN, more + pad);
    Regroup(word, more, pad);
    Cut(word, more + pad);
  }

  /** The control word and the unread bytes after the test at the top of the loop. */
  predicate Loaded(rest: seq<byte>, cword: nat, rest': seq<byte>, cword': nat) {
    if cword == 1 then |rest| >= CWORD_LEN && rest' == rest[CWORD_LEN..] && cword' == FastRead4(rest)
    else rest' == rest && cword' == cword
  }

  lemma {:induction false} RunGoes(rest: seq<byte>, size: nat, out: seq<byte>, cword: nat,
                                   rest': seq<byte>, cword': nat)
    requires size < WORD && |out| <= size && MainRoom(out, size) && Loaded(rest, cword, rest', cword')
    ensures var t := TurnOf(rest', size, out, cword');
      && (t.Go? ==> Run(rest, size, out, cword) == Run(t.rest, size, t.out, t.cword))
      && (t.Close? ==> Run(rest, size, out, cword) == Tail(rest', size, out, cword'))
      && (t.Fail? ==> Run(rest, size, out, cword) == None)
  {
  }

  lemma {:induction false} LiteralTurn(rest: seq<byte>, size: nat, out: seq<byte>, cword: nat)
    requires size < WORD && MainRoom(out, size) && |rest| >= 4 && cword % 2 == 0
    requires |out| + UNCONDITIONAL_MATCHLEN + UNCOMPRESSED_END + 1 < size
    ensures var n := LiteralBits(cword, 4);
      1 <= n <= 4 && TurnOf(rest, size, out, cword) == Go(rest[n..], out + rest[..n], Shr(cword, n))
  {
  }

  lemma {:induction false} SplitHead(ts: seq<Token>, r: nat, pad: seq<byte>)
    requires AllInRange(ts) && r > 0 && ts != []
    ensures Emit(ts, r) + pad == Encode(ts[0]) + (Emit(ts[1..], r - 1) + pad)
    ensures (Emit(ts, r) + pad)[|Encode(ts[0])|..] == Emit(ts[1..], r - 1) + pad
  {
    var code, more := Encode(ts[0]), Emit(ts[1..], r - 1);
    Regroup(code, more, pad);
    Cut(code, more + pad);
  }

  lemma {:induction false} TurnOfMatch(rest: seq<byte>, m: MatchCode, size: nat, out: seq<byte>, cword: nat)
    requires size < WORD && |out| <= size && MainRoom(out, size)
    requires |rest| >= 4 && cword % 2 == 1 && DecodeMatch(FastRead4(rest)) == m
    requires 3 <= m.offset <= |out| && |out| + m.len + UNCOMPRESSED_END <= size
    ensures TurnOf(rest, size, out, cword) == Go(rest[m.size..], CopyUp(out, m.offset, m.len), cword / 2)
  {
  }

  lemma {:induction false} TurnRefuses(rest: seq<byte>, m: MatchCode, size: nat, out: seq<byte>, cword: nat)
    requires size < WORD && |out| <= size && MainRoom(out, size)
    requires |rest| >= 4 && cword % 2 == 1 && DecodeMatch(FastRead4(rest)) == m
    requires !(3 <= m.offset <= |out| && |out| + m.len + UNCOMPRESSED_END <= size)
    ensures TurnOf(rest, size, out, cword) == Fail
  {
  }

  lemma {:induction false} TakesMatch(ts: seq<Token>, r: nat, out: seq<byte>, size: nat, pad: seq<byte>)
    requires size < WORD && AllInRange(ts) && Legal(ts, |out|, size) && MainRoom(out, size)
    requires r > 0 && ts != [] && ts[0].Match? && |Emit(ts, r)| + |pad| >= 4
    ensures TurnOf(Emit(ts, r) + pad, size, out, Word(ts, r))
         == Go(Emit(ts[1..], r - 1) + pad, CopyUp(out, ts[0].offset, ts[0].len), Word(ts[1..], r - 1))
  {
    hide TurnOf, Emit, Word, Encode, DecodeMatch, FastRead4, CopyUp;
    SplitHead(ts, r, pad);
    WordHead(ts, r);
    DecodeInvertsEncode(ts[0], Emit(ts[1..], r - 1) + pad);
    TurnOfMatch(Emit(ts, r) + pad, MatchCode(ts[0].offset, ts[0].len, |Encode(ts[0])|), size, out, Word(ts, r));
  }

  lemma {:induction false} TakesLiterals(ts: seq<Token>, r: nat, out: seq<byte>, size: nat, pad: seq<byte>)
      returns (n: nat)
    requires size < WORD && AllInRange(ts) && Legal(ts, |out|, size) && MainRoom(out, size)
    requires r > 0 && ts != [] && ts[0].Lit? && |Emit(ts, r)| + |pad| >= 4
    requires |out| + UNCONDITIONAL_MATCHLEN + UNCOMPRESSED_END + 1 < size
    ensures 1 <= n <= 4 && n <= r && n <= |ts| && forall i :: 0 <= i < n ==> ts[i].Lit?
    ensures AllInRange(ts[n..]) && Legal(ts[n..], |out| + n, size)
    ensures TurnOf(Emit(ts, r) + pad, size, out, Word(ts, r))
         == Go(Emit(ts[n..], r - n) + pad, out + Letters(ts, n), Word(ts[n..], r - n))
  {
    hide TurnOf, LiteralBits, Shr, Emit, Word, Letters, Expand;
    n := LiteralBits(Word(ts, r), 4);
    WordHead(ts, r);
    LiteralTurn(Emit(ts, r) + pad, size, out, Word(ts, r));
    ClearBits(ts, r, 4);
    LongEnough(ts, |out|, size, n);
    WordShifts(ts, r, n);
    LiteralRun(ts, n, out, size);
    LiteralsAdjacent(ts, r, n);
    var letters, more := Letters(ts, n), Emit(ts[n..], r - n);
    Regroup(letters, more, pad);
    Cut(letters, more + pad);
  }
}
