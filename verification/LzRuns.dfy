/** How the compressor does on a run of one byte: it is never stored, and shrinks to a fortieth. */
module LzRuns {
  import opened Wrappers
  import opened Bytes
  import opened LzFormat
  import opened LzTable
  import opened LzPlan
  import opened LzChoose
  import opened LzMatches
  import opened LzApi

  predicate Even(s: seq<byte>) {
    forall i :: 0 <= i < |s| ==> s[i] == s[0]
  }

  lemma SameHash(s: seq<byte>, o: nat, p: nat)
    requires Even(s) && o + 3 <= |s| && p + 3 <= |s|
    ensures HashAt(s, o) == HashAt(s, p)
  {
    hide HashFunc;
    assert s[o] == s[p] && s[o + 1] == s[p + 1] && s[o + 2] == s[p + 2];
  }

  lemma {:induction false} CountAll(s: seq<byte>, n: nat, p: nat)
    requires Even(s) && p + 3 <= |s| && (n == 0 || n + 2 <= |s|)
    ensures Count(Hashes(s, n), HashAt(s, p)) == n
    decreases n
  {
    hide HashAt, Count;
    if n == 0 {
      assert Hashes(s, n) == [];
      CountNone(HashAt(s, p));
    } else {
      CountAll(s, n - 1, p);
      SameHash(s, n - 1, p);
      CountEnters(Hashes(s, n - 1), HashAt(s, n - 1), HashAt(s, p));
    }
  }

  lemma CountNone(h: nat)
    ensures Count([], h) == 0
  {
  }

  lemma RecentInRun(s: seq<byte>, p: nat, o: nat)
    requires Even(s) && p + 3 <= |s|
    ensures Recent(s, p, o) <==> o < p && p - o <= Trusted(p)
  {
    hide HashAt, Count, Hashes;
    if o < p {
      SameHash(s, o, p);
      CountAll(s, p, p);
      CountAll(s, o, p);
    }
  }

  /** The longest repeat from `p` on. */
  function Reach(s: seq<byte>, p: nat): (len: nat)
    requires p + 11 <= |s|
    ensures 7 <= len <= 255 && p + len + 4 <= |s| && (len == 255 || p + len + 4 == |s|)
  {
    if p + 259 <= |s| then 255 else |s| - 4 - p
  }

  lemma RepeatsInRun(s: seq<byte>, d: nat, p: nat, len: nat)
    requires Even(s) && d <= p && p + len <= |s|
    ensures Repeats(s, d, p, len)
  {
    forall j | p <= j < p + len ensures Same(s, d, j) {
      assert s[j] == s[0] && s[j - d] == s[0];
    }
  }

  lemma LongestInRun(s: seq<byte>, p: nat, o: nat, len: nat)
    requires Even(s) && p + 11 <= |s| && o < p
    ensures LongestAt(s, p, o, len) <==> len == Reach(s, p)
  {
    if p + len + 4 <= |s| { RepeatsInRun(s, p - o, p, len); }
  }

  /** The token at every position of a run. */
  lemma PlanInRun(s: seq<byte>, p: nat)
    requires Even(s) && p < |s|
    ensures Plan(s)[p] == if p + 11 <= |s| && p % 256 >= 3 then Match(3, Reach(s, p)) else Lit(s[p])
  {
    hide Plan, LongestAt, Recent, Reach;
    if p + 11 <= |s| && p % 256 >= 3 {
      var len := Reach(s, p);
      RecentInRun(s, p, p - 3);
      LongestInRun(s, p, p - 3, len);
      forall o: nat, n: nat | Offered(s, p, o, n) ensures n == len && o <= p - 3 {
        LongestInRun(s, p, o, n);
      }
      PlanMatches(s, p, 3, len);
    } else {
      var t := Plan(s)[p];
      PlanMatches(s, p, if t.Match? then t.offset else 0, if t.Match? then t.len else 0);
      if p + 11 <= |s| && t.Match? {
        RecentInRun(s, p, p - t.offset);
      }
    }
  }

  /**
    Where the compressor stands in a run after `j` full matches: `w` control words begun, `r` bits
    free, `d` bytes written.
   */
  predicate InRun(p: nat, d: nat, r: nat, j: nat, w: nat) {
    || (p == 256 * j + 3 && 31 * w == 2 * j + 3 + r && d == 4 * w + 5 * j + 3)
    || (p == 256 * j + 2 && j >= 1 && 31 * w == 2 * j + 2 + r && d == 4 * w + 5 * j + 2)
    || (p < 3 && j == 0 && 31 * w == p + r && d == 4 * w + p)
  }

  lemma InRunPays(size: nat, p: nat, d: nat, j: nat, w: nat)
    requires InRun(p, d, 0, j, w)
    ensures !Poor(size, p, d)
  {
  }

  lemma LongCode()
    ensures |Encode(Match(3, 255))| == 4
  {
  }

  /** One token further. */
  lemma InRunTakes(s: seq<byte>, p: nat, d: nat, r: nat, j: nat, w: nat) returns (j': nat)
    requires Even(s) && p + 11 <= |s| && r > 0 && InRun(p, d, r, j, w)
    ensures var t := Plan(s)[p];
      InRange(t) && (p + Width(t) + 4 == |s| || InRun(p + Width(t), d + |Encode(t)|, r - 1, j', w))
  {
    hide Plan, Encode;
    PlanInRun(s, p);
    LongCode();
    LitCode(s[p]);
    j' := if p >= 3 && p % 256 == 3 then j + 1 else j;
    RunPlace(p, d, r, j, w);
  }

  lemma RunPlace(p: nat, d: nat, r: nat, j: nat, w: nat)
    requires InRun(p, d, r, j, w)
    ensures p % 256 >= 3 <==> p == 256 * j + 3
    ensures p % 256 >= 3 ==> p % 256 == 3
  {
  }

  lemma LitCode(b: byte)
    ensures |Encode(Lit(b))| == 1
  {
  }

  lemma {:induction false} RunNotGivenUp(s: seq<byte>, p: nat, d: nat, r: nat, j: nat, w: nat)
    requires Even(s) && p <= |s| && InRun(p, d, r, j, w)
    ensures !GivesUp(Plan(s), s, p, d, r)
    decreases |s| - p, r == 0
  {
    hide Plan, Encode, Poor, InRun;
    if p + 11 <= |s| {
      if r == 0 {
        InRunPays(|s|, p, d, j, w);
        InRunReloads(p, d, j, w);
        RunNotGivenUp(s, p, d + 4, 31, j, w + 1);
      } else {
        var j' := InRunTakes(s, p, d, r, j, w);
        var t := Plan(s)[p];
        assert SoundAt(t, s, p);
        if p + Width(t) + 4 != |s| {
          RunNotGivenUp(s, p + Width(t), d + |Encode(t)|, r - 1, j', w);
        }
      }
    }
  }

  lemma InRunReloads(p: nat, d: nat, j: nat, w: nat)
    requires InRun(p, d, 0, j, w)
    ensures InRun(p, d + 4, 31, j, w + 1)
  {
  }

  /** A run of one byte, however long, is never stored as it is. */
  lemma RunIsPacked(s: seq<byte>)
    requires Even(s)
    ensures !Stored(Plan(s), s)
  {
    hide Plan, GivesUp;
    RunNotGivenUp(s, 0, 4, 31, 0, 1);
  }

  lemma InRunShort(size: nat, p: nat, d: nat, r: nat, j: nat, w: nat)
    requires InRun(p, d, r, j, w) && p <= size && r <= 31
    ensures 40 * (d + 22) <= size + 1200
  {
  }

  /** What is left of the stream adds up to no more than a fortieth of the text and a few bytes. */
  lemma {:induction false} RunLength(s: seq<byte>, p: nat, d: nat, r: nat, j: nat, w: nat)
    requires Even(s) && p <= |s| && r <= 31 && InRun(p, d, r, j, w)
    ensures 40 * (d + |StreamFrom(Plan(s), s, p, r)|) <= |s| + 1200
    decreases |s| - p, r == 0
  {
    hide Plan, Encode, InRun, StreamFrom;
    var cs := Plan(s);
    InRunShort(|s|, p, d, r, j, w);
    if p + 11 > |s| {
      TailLength(cs, s, p, r);
    } else if r == 0 {
      InRunReloads(p, d, j, w);
      StreamReloads(cs, s, p);
      RunLength(s, p, d + 4, 31, j, w + 1);
    } else {
      var j' := InRunTakes(s, p, d, r, j, w);
      StreamTakes(cs, s, p, r);
      var t := cs[p];
      assert SoundAt(t, s, p);
      if p + Width(t) + 4 == |s| {
        TailLength(cs, s, p + Width(t), r - 1);
        NoLonger(t);
      } else {
        RunLength(s, p + Width(t), d + |Encode(t)|, r - 1, j', w);
      }
    }
  }

  lemma NoLonger(t: Token)
    requires InRange(t)
    ensures |Encode(t)| <= 4
  {
  }

  /** A run of one byte shrinks to a fortieth, and thirty bytes. */
  lemma RunShrinks(s: seq<byte>)
    requires Even(s) && s != []
    ensures 40 * |Core(Plan(s), s)| <= |s| + 1200
  {
    hide Plan, StreamFrom;
    StreamReloads(Plan(s), s, 0);
    RunLength(s, 0, 4, 31, 0, 1);
  }

  // One packet, byte for byte.

  /** A bit for each token, lowest first: set for a match. */
  function Mask(ts: seq<Token>): (m: nat) {
    if ts == [] then 0 else (if ts[0].Match? then 1 else 0) + 2 * Mask(ts[1..])
  }

  /** The control word of a last group: the mask of its tokens under a bit that marks its end. */
  lemma {:induction false} WordIsMask(ts: seq<Token>, r: nat)
    requires |ts| <= r
    ensures Word(ts, r) == Mask(ts) + Pow2(r)
    decreases r
  {
    if r > 0 {
      WordIsMask(if ts == [] then [] else ts[1..], r - 1);
    }
  }

  lemma OneToken(t: Token, rest: seq<Token>, r: nat)
    requires AllInRange([t] + rest) && r > 0
    ensures AllInRange(rest) && Mask([t] + rest) == (if t.Match? then 1 else 0) + 2 * Mask(rest)
    ensures Emit([t] + rest, r) == Encode(t) + Emit(rest, r - 1)
  {
    assert ([t] + rest)[1..] == rest;
  }

  /** The tokens of 300 equal bytes. */
  function Tokens300(a: byte): (ts: seq<Token>) {
    [Lit(a), Lit(a), Lit(a), Match(3, 255), Lit(a), Match(3, 37), Lit(a), Lit(a), Lit(a), Lit(a)]
  }

  lemma TokenizeStep(cs: seq<Token>, s: seq<byte>, p: nat)
    requires Sound(cs, s) && p < |s|
    ensures InRange(cs[p]) && p + Width(cs[p]) <= |s|
    ensures Tokenize(cs, s, p) == [cs[p]] + Tokenize(cs, s, p + Width(cs[p]))
  {
    assert SoundAt(cs[p], s, p);
  }

  /** The token at `p`, put before those that follow it. */
  lemma TokenThen(s: seq<byte>, p: nat, t: Token, rest: seq<Token>)
    requires Even(s) && p < |s| && InRange(t) && p + Width(t) <= |s| && Tokenize(Plan(s), s, p + Width(t)) == rest
    requires t == if p + 11 <= |s| && p % 256 >= 3 then Match(3, Reach(s, p)) else Lit(s[p])
    ensures Tokenize(Plan(s), s, p) == [t] + rest
  {
    hide Plan, Tokenize;
    PlanInRun(s, p);
    TokenizeStep(Plan(s), s, p);
  }

  lemma LastTokens300(s: seq<byte>)
    requires Even(s) && |s| == 300
    ensures var l := Lit(s[0]); Tokenize(Plan(s), s, 259) == [Match(3, 37)] + ([l] + ([l] + ([l] + ([l] + []))))
  {
    hide Plan, Tokenize;
    var l := Lit(s[0]);
    NoTokens(Plan(s), s);
    TokenThen(s, 299, l, []);
    TokenThen(s, 298, l, [l] + []);
    TokenThen(s, 297, l, [l] + ([l] + []));
    TokenThen(s, 296, l, [l] + ([l] + ([l] + [])));
    TokenThen(s, 259, Match(3, 37), [l] + ([l] + ([l] + ([l] + []))));
  }

  lemma Tokens300Are(s: seq<byte>)
    requires Even(s) && |s| == 300
    ensures Tokenize(Plan(s), s, 0) == Tokens300(s[0])
  {
    hide Plan, Tokenize;
    var l := Lit(s[0]);
    LastTokens300(s);
    var t5 := [Match(3, 37)] + ([l] + ([l] + ([l] + ([l] + []))));
    TokenThen(s, 258, l, t5);
    TokenThen(s, 3, Match(3, 255), [l] + t5);
    TokenThen(s, 2, l, [Match(3, 255)] + ([l] + t5));
    TokenThen(s, 1, l, [l] + ([Match(3, 255)] + ([l] + t5)));
    TokenThen(s, 0, l, [l] + ([l] + ([Match(3, 255)] + ([l] + t5))));
  }

  lemma NoTokens(cs: seq<Token>, s: seq<byte>)
    requires Sound(cs, s)
    ensures Tokenize(cs, s, |s|) == []
  {
  }

  lemma Codes300()
    ensures Encode(Match(3, 255)) == [3, 254, 1, 0] && Encode(Match(3, 37)) == [3, 145, 1, 0]
  {
    LeBytesAre(CodeValue(3, 255), 4);
    LeBytesAre(CodeValue(3, 37), 4);
  }

  lemma Numbers300()
    ensures LeBytes(0x8000_0028, 4) == [0x28, 0, 0, 0x80]
    ensures LeBytes(29, 4) == [29, 0, 0, 0] && LeBytes(300, 4) == [44, 1, 0, 0]
  {
    LeBytesAre(0x8000_0028, 4);
    LeBytesAre(29, 4);
    LeBytesAre(300, 4);
  }

  lemma LastBytes300(a: byte)
    ensures var l, n := Lit(a), Match(3, 37);
      var t5 := [n, l, l, l, l];
      AllInRange(t5) && Mask(t5) == 1 && Emit(t5, 26) == [3, 145, 1, 0] + [a, a, a, a]
  {
    hide Emit, Mask, Encode;
    var l, n := Lit(a), Match(3, 37);
    NoneLeft();
    Codes300();
    LitBytes(a);
    assert [n] + [l, l, l, l] == [n, l, l, l, l] && [l] + [l, l, l] == [l, l, l, l] && [l] + [l, l] == [l, l, l];
    assert [l] + [l] == [l, l] && [l] + [] == [l];
    OneToken(n, [l, l, l, l], 26);
    OneToken(l, [l, l, l], 25);
    OneToken(l, [l, l], 24);
    OneToken(l, [l], 23);
    OneToken(l, [], 22);
  }

  lemma Stream300(a: byte)
    ensures var ts := Tokens300(a);
      AllInRange(ts) && Mask(ts) == 0x28 &&
      Emit(ts, 31) == [a, a, a] + [3, 254, 1, 0] + [a] + ([3, 145, 1, 0] + [a, a, a, a])
  {
    hide Emit, Mask, Encode;
    var l, m, n := Lit(a), Match(3, 255), Match(3, 37);
    var t5 := [n, l, l, l, l];
    var t4 := [l] + t5;
    var t3 := [m] + t4;
    var t2 := [l] + t3;
    var t1 := [l] + t2;
    assert [l] + t1 == Tokens300(a);
    LastBytes300(a);
    Codes300();
    LitBytes(a);
    OneToken(l, t1, 31);
    OneToken(l, t2, 30);
    OneToken(l, t3, 29);
    OneToken(m, t4, 28);
    OneToken(l, t5, 27);
  }

  lemma NoneLeft()
    ensures Emit([], 21) == [] && Mask([]) == 0
  {
  }

  lemma LitBytes(a: byte)
    ensures Encode(Lit(a)) == [a]
  {
  }

  /** The packet for 300 equal bytes, as the format lays it out. */
  lemma Packet300(s: seq<byte>)
    requires Even(s) && |s| == 300
    ensures var a := s[0];
      Pack(Plan(s), s, []) ==
        [0x4f, 29, 0, 0, 0, 44, 1, 0, 0] + [0x28, 0, 0, 0x80]
        + ([a, a, a] + [3, 254, 1, 0] + [a] + ([3, 145, 1, 0] + [a, a, a, a]))
    ensures |Pack(Plan(s), s, [])| == 29
  {
    hide Plan, Tokenize, Emit, Word, LeBytes, Mask, Stored;
    var a, ts := s[0], Tokens300(s[0]);
    RunIsPacked(s);
    Tokens300Are(s);
    Stream300(a);
    WordIsMask(ts, 31);
    Pow2Of31();
    Numbers300();
    FirstWord(ts);
    assert Core(Plan(s), s) == Emit(ts, 0);
  }

  lemma FirstWord(ts: seq<Token>)
    requires AllInRange(ts) && ts != []
    ensures Emit(ts, 0) == LeBytes(Word(ts, 31), 4) + Emit(ts, 31)
  {
  }

  /** One match for each of the five codes. */
  lemma FiveCodes()
    ensures Encode(Match(5, 3)) == [20] && Encode(Match(100, 3)) == [0x91, 1]
    ensures Encode(Match(100, 10)) == [0x1e, 0x19] && Encode(Match(2000, 10)) == [0x23, 0xe8, 3]
    ensures Encode(Match(2000, 100)) == [0x83, 0x30, 0xe8, 3]
  {
    hide Encode, LeBytes;
    ShortCodes();
    WideCodes();
  }

  lemma ShortCodes()
    ensures Encode(Match(5, 3)) == [20] && Encode(Match(100, 3)) == [0x91, 1] && Encode(Match(100, 10)) == [0x1e, 0x19]
  {
    LeBytesAre(CodeValue(5, 3), 1);
    LeBytesAre(CodeValue(100, 3), 2);
    LeBytesAre(CodeValue(100, 10), 2);
  }

  lemma WideCodes()
    ensures Encode(Match(2000, 10)) == [0x23, 0xe8, 3] && Encode(Match(2000, 100)) == [0x83, 0x30, 0xe8, 3]
  {
    LeBytesAre(CodeValue(2000, 10), 3);
    LeBytesAre(CodeValue(2000, 100), 4);
  }
}
