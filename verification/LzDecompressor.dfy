/** The decompressor over arrays, with its x86 fast paths, against the function of LzDecode. */
module LzDecompressor {
  import opened Wrappers
  import opened Bytes
  import opened LzFormat
  import opened LzDecode
  import opened LzCopy
  import opened LzApi

  const BITLUT := [4, 0, 1, 0, 2, 0, 1, 0, 3, 0, 1, 0, 2, 0, 1, 0]

  /** The lookup table counts what the loop over single literal bits would count. */
  lemma {:induction false} BitlutCounts(cword: nat)
    ensures BITLUT[cword % 16] == LiteralBits(cword, 4)
  {
    hide LiteralBits;
    var q, b0, b1, b2, b3 := FourBits(cword);
    DivMod(cword, 16, q, 8 * b3 + 4 * b2 + 2 * b1 + b0);
    Nibble(q, b0, b1, b2, b3);
  }

  lemma FourBits(cword: nat) returns (q: nat, b0: nat, b1: nat, b2: nat, b3: nat)
    ensures cword == 16 * q + 8 * b3 + 4 * b2 + 2 * b1 + b0 && b0 < 2 && b1 < 2 && b2 < 2 && b3 < 2
  {
    var q1, q2, q3 := cword / 2, cword / 2 / 2, cword / 2 / 2 / 2;
    b0, b1, b2, b3, q := cword % 2, q1 % 2, q2 % 2, q3 % 2, q3 / 2;
  }

  lemma {:induction false} Nibble(q: nat, b0: nat, b1: nat, b2: nat, b3: nat)
    requires b0 < 2 && b1 < 2 && b2 < 2 && b3 < 2
    ensures LiteralBits(16 * q + 8 * b3 + 4 * b2 + 2 * b1 + b0, 4) == BITLUT[8 * b3 + 4 * b2 + 2 * b1 + b0]
  {
    hide LiteralBits;
    BitAbove(8 * q + 4 * b3 + 2 * b2 + b1, b0, 3);
    BitAbove(4 * q + 2 * b3 + b2, b1, 2);
    BitAbove(2 * q + b3, b2, 1);
    BitAbove(q, b3, 0);
  }

  lemma {:induction false} BitAbove(h: nat, low: nat, max: nat)
    requires low < 2
    ensures LiteralBits(2 * h + low, max + 1) == if low == 1 then 0 else 1 + LiteralBits(h, max)
    ensures LiteralBits(h, 0) == 0
  {
    DivMod(2 * h + low, 2, h, low);
  }

  /** The bytes below `limit` not read yet. */
  function Rest(s: seq<byte>, src: nat, limit: nat): (rest: seq<byte>)
    requires limit <= |s|
    ensures |rest| == if src <= limit then limit - src else 0
  {
    if src <= limit then s[src..limit] else []
  }

  lemma {:induction false} RestMoves(s: seq<byte>, src: nat, limit: nat, n: nat)
    requires src + n <= limit <= |s|
    ensures Rest(s, src, limit)[n..] == Rest(s, src + n, limit)
    ensures Rest(s, src, limit)[..n] == s[src..src + n]
    ensures n > 0 ==> Rest(s, src, limit)[n - 1] == s[src + n - 1]
  {
  }

  // The source is read by the next three methods only, and never at or above `limit`.

  method ReadWord(a: array<byte>, at: nat, ghost limit: nat) returns (v: nat)
    requires at + 4 <= limit <= a.Length
    ensures v == FastRead4(Rest(a[..], at, limit))
  {
    v := a[at] as int + 256 * (a[at + 1] as int) + 65536 * (a[at + 2] as int) + 16777216 * (a[at + 3] as int);
  }

  method ReadByte(a: array<byte>, at: nat, ghost limit: nat) returns (b: byte)
    requires at < limit <= a.Length
    ensures b == a[at]
  {
    b := a[at];
  }

  /** Four bytes are stored, however few of them are literals. */
  method CopyLiterals(source: array<byte>, src: nat, ghost limit: nat, destination: array<byte>, size: nat, dst: nat,
                      ghost n: nat)
    requires source != destination && src + 4 <= limit <= source.Length
    requires dst + 4 <= size <= destination.Length && n <= 4
    modifies destination
    ensures destination[..dst + n] == old(destination[..dst]) + source[..][src..src + n]
    ensures forall i :: size <= i < destination.Length ==> destination[i] == old(destination[i])
  {
    destination[dst], destination[dst + 1], destination[dst + 2], destination[dst + 3] :=
      source[src], source[src + 1], source[src + 2], source[src + 3];
  }

  /** A match: refused when it leaves the output on either side, copied in strides otherwise. */
  method CopyMatch(destination: array<byte>, size: nat, dst: nat, m: MatchCode) returns (ok: bool)
    requires dst <= size <= destination.Length && size < WORD && MainRoom(destination[..dst], size) && m.len >= 3
    modifies destination
    ensures ok <==> 3 <= m.offset <= dst && dst + m.len + UNCOMPRESSED_END <= size
    ensures ok ==> destination[..dst + m.len] == CopyUp(old(destination[..dst]), m.offset, m.len)
    ensures forall i :: size <= i < destination.Length ==> destination[i] == old(destination[i])
    ensures !ok ==> destination[..] == old(destination[..])
  {
    if m.offset > dst || m.offset < MINOFFSET + 1 {
      return false;
    }
    if m.len > Ui32(size - 1 - dst - UNCOMPRESSED_END + 1) {
      return false;
    }
    MemcpyUpWords(destination, dst, m.offset, m.len);
    ok := true;
  }

  lemma {:induction false} TailDone(rest: seq<byte>, size: nat, out: seq<byte>, cword: nat)
    requires |out| == size
    ensures Tail(rest, size, out, cword) == Some(out)
  {
  }

  method StoreByte(destination: array<byte>, dst: nat, b: byte)
    requires dst < destination.Length
    modifies destination
    ensures destination[..dst + 1] == old(destination[..dst]) + [b]
    ensures forall i :: dst < i < destination.Length ==> destination[i] == old(destination[i])
  {
    destination[dst] := b;
  }

  /** The closing loop. */
  method CopyTail(source: array<byte>, from: nat, limit: nat, destination: array<byte>, size: nat, at: nat, word: nat)
      returns (ok: bool)
    requires source != destination && from <= limit <= source.Length && at <= size <= destination.Length
    modifies destination
    ensures var r := Tail(Rest(source[..], from, limit), size, old(destination[..at]), word);
      && (ok <==> r.Some?)
      && (ok ==> destination[..size] == r.value)
    ensures forall i :: size <= i < destination.Length ==> destination[i] == old(destination[i])
  {
    hide Tail, Rest;
    var src: nat, dst: nat, cword: nat := from, at, word;
    while dst < size
      invariant at <= dst <= size && from <= src <= limit
      invariant Tail(Rest(source[..], src, limit), size, destination[..dst], cword)
             == Tail(Rest(source[..], from, limit), size, old(destination[..at]), word)
      invariant forall i :: size <= i < destination.Length ==> destination[i] == old(destination[i])
    {
      ghost var rest, out := Rest(source[..], src, limit), destination[..dst];
      ghost var skip := if cword == 1 then CWORD_LEN else 0;
      TailStep(rest, size, out, cword, skip);
      if src + skip < limit {
        RestMoves(source[..], src, limit, skip + 1);
      }
      if cword == 1 {
        src := src + CWORD_LEN;
        cword := TOP_BIT;
      }
      if src >= limit {
        return false;
      }
      var b := ReadByte(source, src, limit);
      StoreByte(destination, dst, b);
      dst := dst + 1;
      src := src + 1;
      cword := cword / 2;
    }
    TailDone(Rest(source[..], src, limit), size, destination[..dst], cword);
    ok := true;
  }

  /** Where the loop stands: control word loaded, and room for a four-byte fetch. */
  ghost predicate Ready(source: seq<byte>, src: nat, limit: nat, size: nat, out: seq<byte>, cword: nat,
                        rest: seq<byte>, word: nat)
  {
    && src + 4 <= limit <= |source|
    && |out| <= size < WORD && MainRoom(out, size)
    && Loaded(rest, word, Rest(source, src, limit), cword)
  }

  predicate Fits(m: MatchCode, at: nat, size: nat) {
    3 <= m.offset <= at && at + m.len + UNCOMPRESSED_END <= size
  }

  /** What the main loop does with a match code. */
  lemma {:induction false} MatchGoes(s: seq<byte>, src: nat, limit: nat, size: nat, out: seq<byte>, cword: nat,
                                     rest: seq<byte>, word: nat, m: MatchCode)
    requires Ready(s, src, limit, size, out, cword, rest, word) && cword % 2 == 1
    requires m == DecodeMatch(FastRead4(Rest(s, src, limit)))
    ensures src + m.size <= limit && m.len >= 3 && 1 <= m.size
    ensures Fits(m, |out|, size) ==>
      var out' := CopyUp(out, m.offset, m.len);
      MainRoom(out', size) && Run(rest, size, out, word) == Run(Rest(s, src + m.size, limit), size, out', cword / 2)
    ensures !Fits(m, |out|, size) ==> Run(rest, size, out, word) == None
  {
    hide Run, Tail, DecodeMatch, TurnOf, FastRead4, CopyUp, Rest;
    var here := Rest(s, src, limit);
    RunGoes(rest, size, out, word, here, cword);
    RestMoves(s, src, limit, m.size);
    if Fits(m, |out|, size) {
      TurnOfMatch(here, m, size, out, cword);
    } else {
      TurnRefuses(here, m, size, out, cword);
    }
  }

  method TakeMatch(source: array<byte>, src: nat, limit: nat, destination: array<byte>, size: nat, dst: nat,
                   cword: nat, ghost rest: seq<byte>, ghost word: nat)
      returns (ok: bool, src': nat, dst': nat)
    requires source != destination && dst <= size <= destination.Length && cword % 2 == 1
    requires Ready(source[..], src, limit, size, destination[..dst], cword, rest, word)
    modifies destination
    ensures forall i :: size <= i < destination.Length ==> destination[i] == old(destination[i])
    ensures ok ==> src < src' <= limit && dst' <= size && MainRoom(destination[..dst'], size)
    ensures Run(rest, size, old(destination[..dst]), word)
         == if ok then Run(Rest(source[..], src', limit), size, destination[..dst'], cword / 2) else None
  {
    hide Run, Tail, DecodeMatch, TurnOf, CopyUp, FastRead4, Rest;
    var fetch := ReadWord(source, src, limit);
    var m := DecodeMatch(fetch);
    MatchGoes(source[..], src, limit, size, destination[..dst], cword, rest, word, m);
    ok := CopyMatch(destination, size, dst, m);
    src', dst' := src + m.size, dst + m.len;
  }

  method TakeLiterals(source: array<byte>, src: nat, limit: nat, destination: array<byte>, size: nat, dst: nat,
                      cword: nat, ghost rest: seq<byte>, ghost word: nat)
      returns (n: nat)
    requires source != destination && cword % 2 == 0
    requires dst + UNCONDITIONAL_MATCHLEN + UNCOMPRESSED_END + 1 < size <= destination.Length
    requires Ready(source[..], src, limit, size, destination[..dst], cword, rest, word)
    modifies destination
    ensures forall i :: size <= i < destination.Length ==> destination[i] == old(destination[i])
    ensures 1 <= n <= 4
    ensures Run(rest, size, old(destination[..dst]), word)
         == Run(Rest(source[..], src + n, limit), size, destination[..dst + n], Shr(cword, n))
  {
    hide Run, Tail, TurnOf, LiteralBits;
    ghost var rest' := Rest(source[..], src, limit);
    RunGoes(rest, size, destination[..dst], word, rest', cword);
    BitlutCounts(cword);
    LiteralTurn(rest', size, destination[..dst], cword);
    n := BITLUT[cword % 16];
    RestMoves(source[..], src, limit, n);
    CopyLiterals(source, src, limit, destination, size, dst, n);
  }

  method TakeTail(source: array<byte>, src: nat, limit: nat, destination: array<byte>, size: nat, dst: nat,
                  cword: nat, ghost rest: seq<byte>, ghost word: nat)
      returns (ok: bool)
    requires source != destination && cword % 2 == 0 && dst <= size <= destination.Length
    requires size <= dst + UNCONDITIONAL_MATCHLEN + UNCOMPRESSED_END + 1
    requires Ready(source[..], src, limit, size, destination[..dst], cword, rest, word)
    modifies destination
    ensures forall i :: size <= i < destination.Length ==> destination[i] == old(destination[i])
    ensures Run(rest, size, old(destination[..dst]), word) == if ok then Some(destination[..size]) else None
  {
    RunGoes(rest, size, destination[..dst], word, Rest(source[..], src, limit), cword);
    ok := CopyTail(source, src, limit, destination, size, dst, cword);
  }

  lemma {:induction false} RunShort(rest: seq<byte>, size: nat, out: seq<byte>, cword: nat)
    requires size < WORD && |out| <= size && MainRoom(out, size)
    requires |rest| < if cword == 1 then CWORD_LEN + 4 else 4
    ensures Run(rest, size, out, cword) == None
  {
  }

  /**
    qlz_decompress_core. For arbitrary bytes it terminates, reads only below the compressed size
    and writes only below the decompressed size that the header announces, and returns 0 or that
    size; the output is the one the function of LzDecode describes.
   */
  method DecompressCore(source: array<byte>, destination: array<byte>, size: nat) returns (ret: nat)
    requires source != destination && Complete(source[..]) && Packed(source[..])
    requires size == SizeDecompressed(source[..]) <= destination.Length
    modifies destination
    ensures var r := Run(Body(source[..]), size, [], 1);
      && (r.None? ==> ret == 0)
      && (r.Some? ==> ret == size && destination[..size] == r.value)
    ensures forall i :: size <= i < destination.Length ==> destination[i] == old(destination[i])
  {
    hide Run;
    var src: nat, limit: nat := SizeHeader(source[..]), SizeCompressed(source[..]);
    var dst: nat, cword: nat := 0, 1;
    ghost var goal := Run(Body(source[..]), size, [], 1);
    assert destination[..0] == [];
    while true
      invariant dst <= size && MainRoom(destination[..dst], size)
      invariant Run(Rest(source[..], src, limit), size, destination[..dst], cword) == goal
      invariant forall i :: size <= i < destination.Length ==> destination[i] == old(destination[i])
      decreases if src <= limit then limit - src + 1 else 0
    {
      ghost var rest, word := Rest(source[..], src, limit), cword;
      if cword == 1 {
        if src + CWORD_LEN - 1 > limit - 1 {
          RunShort(rest, size, destination[..dst], word);
          return 0;
        }
        cword := ReadWord(source, src, limit);
        RestMoves(source[..], src, limit, CWORD_LEN);
        src := src + CWORD_LEN;
      }
      if src + 4 - 1 > limit - 1 {
        RunShort(rest, size, destination[..dst], word);
        return 0;
      }
      if cword % 2 == 1 {
        var ok;
        ok, src, dst := TakeMatch(source, src, limit, destination, size, dst, cword, rest, word);
        if !ok {
          return 0;
        }
        cword := cword / 2;
      } else if dst + UNCONDITIONAL_MATCHLEN + UNCOMPRESSED_END + 1 < size {
        var n := TakeLiterals(source, src, limit, destination, size, dst, cword, rest, word);
        src, dst, cword := src + n, dst + n, Shr(cword, n);
      } else {
        var ok := TakeTail(source, src, limit, destination, size, dst, cword, rest, word);
        return if ok then size else 0;
      }
    }
  }

  /** The memcpy of a stored body. */
  method CopyStored(source: array<byte>, base: nat, destination: array<byte>, size: nat)
    requires source != destination && base + size <= source.Length && size <= destination.Length
    modifies destination
    ensures destination[..size] == source[..][base..base + size]
    ensures forall i :: size <= i < destination.Length ==> destination[i] == old(destination[i])
  {
    forall i | 0 <= i < size {
      destination[i] := source[base + i];
    }
    SliceIs(source[..], base, destination[..size]);
  }

  lemma SliceIs(s: seq<byte>, base: nat, t: seq<byte>)
    requires base + |t| <= |s| && forall i :: 0 <= i < |t| ==> t[i] == s[base + i]
    ensures t == s[base..base + |t|]
  {
  }

  /** qlz_decompress: compressed packets go through the core, stored ones are copied. */
  method Decompress(source: array<byte>, destination: array<byte>) returns (ret: nat)
    requires source != destination && Complete(source[..])
    requires SizeDecompressed(source[..]) <= destination.Length
    modifies destination
    ensures var r := Unpack(source[..]);
      && (r.None? ==> ret == 0)
      && (r.Some? ==> ret == SizeDecompressed(source[..]) && destination[..ret] == r.value)
    ensures forall i :: SizeDecompressed(source[..]) <= i < destination.Length ==> destination[i] == old(destination[i])
  {
    var size := SizeDecompressed(source[..]);
    if source[0] % 2 == 1 {
      ret := DecompressCore(source, destination, size);
    } else {
      var base := SizeHeader(source[..]);
      CopyStored(source, base, destination, size);
      ret := size;
    }
  }
}
