/** The level 3 compressor over arrays, against the plan of LzChoose and the stream of LzPlan. */
module LzCompressor {
  import opened Wrappers
  import opened Bytes
  import opened LzFormat
  import opened LzTable
  import opened LzPlan
  import opened LzChoose
  import opened LzRegister
  import opened LzApi
  import LzDecompressor

  method FetchThree(source: array<byte>, p: nat) returns (v: nat)
    requires p + 3 <= source.Length
    ensures v == Fetch3(source[..], p)
  {
    v := source[p] as int + 256 * (source[p + 1] as int) + 65536 * (source[p + 2] as int);
  }

  /** Lengthens a match byte by byte; the byte at the cap is compared before the cap is tested. */
  method ExtendMatch(source: array<byte>, o: nat, p: nat, from: nat, cap: nat) returns (m: nat)
    requires o < p && from <= cap && p + cap < source.Length && Repeats(source[..], p - o, p, from)
    ensures m == Extend(source[..], o, p, from, cap)
  {
    m := from;
    while source[o + m] == source[p + m] && m < cap
      invariant from <= m <= cap && Repeats(source[..], p - o, p, m)
      invariant Extend(source[..], o, p, m, cap) == Extend(source[..], o, p, from, cap)
    {
      assert Same(source[..], p - o, p + m);
      m := m + 1;
    }
  }

  /** The first slot, whose match is lengthened from three to four before the loop. */
  method FirstSlot(source: array<byte>, p: nat, o: nat) returns (b: Best)
    requires Searchable(source[..], p) && o < p
    ensures b == if Usable(source[..], o, p) then Found(o, MatchLen(source[..], o, p)) else NoMatch
  {
    var fetch := FetchThree(source, p);
    var there := FetchThree(source, o);
    b := NoMatch;
    if o < p - MINOFFSET && there == fetch {
      ThreeSame(source[..], o, p);
      var matchlen := 3;
      if source[o + 3] == source[p + 3] {
        assert Same(source[..], p - o, p + 3);
        matchlen := ExtendMatch(source, o, p, 4, Cap(source[..], p));
      }
      b := Found(o, matchlen);
    }
  }

  /** A later slot replaces the best match so far when its own is longer, or as long and nearer. */
  method NextSlot(source: array<byte>, p: nat, o: nat, best: Best) returns (b: Best)
    requires Searchable(source[..], p) && o < p
    ensures b == if Usable(source[..], o, p) && Better(best, o, MatchLen(source[..], o, p))
      then Found(o, MatchLen(source[..], o, p)) else best
  {
    var fetch := FetchThree(source, p);
    var there := FetchThree(source, o);
    b := best;
    if there == fetch && o < p - MINOFFSET {
      ThreeSame(source[..], o, p);
      var m := ExtendMatch(source, o, p, 3, Cap(source[..], p));
      if best.NoMatch? || m > best.len || (m == best.len && o > best.o) {
        b := Found(o, m);
      }
    }
  }

  /** The search over the slots of one hash value finds the planned match. */
  method FindMatch(source: array<byte>, p: nat, state: CompressState) returns (b: Best)
    requires Searchable(source[..], p) && state.Holds(Hashes(source[..], p))
    ensures b == BestOf(source[..], p, Live(source[..], p))
  {
    hide BestOf, Hashes, HashFunc, Usable, MatchLen, Count, Slot;
    ghost var s := source[..];
    var fetch := FetchThree(source, p);
    var h := HashFunc(fetch);
    var c := state.counter[h];
    assert state.Keeps(Hashes(s, p), h);
    BestSteps(s, p, 0);
    b := NoMatch;
    if c > 0 {
      b := FirstSlot(source, p, state.hash[h, 0]);
      var k := 1;
      while k < POINTERS && c > k
        invariant 1 <= k <= Live(s, p)
        invariant b == BestOf(s, p, k)
        decreases POINTERS - k
      {
        BestSteps(s, p, k);
        b := NextSlot(source, p, state.hash[h, k], b);
        k := k + 1;
      }
    }
  }

  lemma {:induction false} BestSteps(s: seq<byte>, p: nat, k: nat)
    requires Searchable(s, p) && k <= Live(s, p)
    ensures BestOf(s, p, 0) == NoMatch
    ensures k < Live(s, p) ==>
      BestOf(s, p, k + 1) ==
        var b, o := BestOf(s, p, k), SlotAt(s, p, k);
        if Usable(s, o, p) && Better(b, o, MatchLen(s, o, p)) then Found(o, MatchLen(s, o, p)) else b
  {
  }

  /** Enters the positions of a match behind its first one. */
  method EnterRun(source: array<byte>, p: nat, len: nat, state: CompressState)
    requires p + len + 2 <= source.Length && len >= 1 && state.Holds(Hashes(source[..], p + 1))
    requires source as object != state.counter
    modifies state.hash, state.counter
    ensures state.Holds(Hashes(source[..], p + len))
  {
    hide Hashes, HashFunc;
    ghost var s := source[..];
    var u := 1;
    while u < len
      invariant 1 <= u <= len && source[..] == s
      invariant state.Holds(Hashes(s, p + u))
    {
      EnterOne(source, p + u, state);
      u := u + 1;
    }
  }

  method EnterOne(source: array<byte>, p: nat, state: CompressState)
    requires p + 3 <= source.Length && state.Holds(Hashes(source[..], p))
    requires source as object != state.counter
    modifies state.hash, state.counter
    ensures state.Holds(Hashes(source[..], p + 1))
  {
    hide HashFunc, Fetch3;
    var fetch := FetchThree(source, p);
    state.Enter(HashFunc(fetch), p, Hashes(source[..], p));
  }

  /** fast_write, portable form. */
  method FastWrite(f: nat, a: array<byte>, at: nat, n: nat)
    requires 1 <= n <= 4 && at + n <= a.Length
    modifies a
    ensures a[at..at + n] == LeBytes(f, n)
    ensures forall i :: 0 <= i < a.Length && !(at <= i < at + n) ==> a[i] == old(a[i])
  {
    hide LeBytes;
    LeBytesAre(f, n);
    if n == 4 {
      a[at], a[at + 1], a[at + 2], a[at + 3] := f % 256, f / 256 % 256, f / 256 / 256 % 256, f / 256 / 256 / 256 % 256;
    } else if n == 3 {
      a[at], a[at + 1], a[at + 2] := f % 256, f / 256 % 256, f / 256 / 256 % 256;
    } else if n == 2 {
      a[at], a[at + 1] := f % 256, f / 256 % 256;
    } else {
      a[at] := f % 256;
    }
  }

  /** The literal byte or the bytes of one of the five match codes. */
  method WriteToken(t: Token, a: array<byte>, at: nat) returns (n: nat)
    requires InRange(t) && at + 4 <= a.Length
    modifies a
    ensures n == |Encode(t)| && a[at..at + n] == Encode(t)
    ensures forall i :: 0 <= i < at ==> a[i] == old(a[i])
  {
    hide LeBytes;
    match t
    case Lit(b) =>
      a[at] := b;
      n := 1;
    case Match(offset, len) =>
      if len == 3 && offset <= 63 {
        n := 1;
        FastWrite(offset * 4, a, at, n);
      } else if len == 3 && offset <= 16383 {
        n := 2;
        FastWrite(offset * 4 + 1, a, at, n);
      } else if len <= 18 && offset <= 1023 {
        n := 2;
        FastWrite((len - 3) * 4 + offset * 64 + 2, a, at, n);
      } else if len <= 33 {
        n := 3;
        FastWrite((len - 2) * 4 + offset * 128 + 3, a, at, n);
      } else {
        n := 4;
        FastWrite((len - 3) * 128 + offset * 32768 + 3, a, at, n);
      }
  }

  /** Finished groups, a gap for the current control word, and the bytes of the current group. */
  predicate Laid(a: seq<byte>, base: nat, cptr: nat, dst: nat, done: seq<byte>, group: seq<byte>) {
    && base <= cptr && cptr + CWORD_LEN <= dst <= |a|
    && a[base..cptr] == done
    && a[cptr + CWORD_LEN..dst] == group
  }

  method PutToken(t: Token, a: array<byte>, base: nat, cptr: nat, at: nat,
                  ghost done: seq<byte>, ghost group: seq<byte>)
      returns (dst: nat)
    requires InRange(t) && at + 4 <= a.Length && Laid(a[..], base, cptr, at, done, group)
    modifies a
    ensures dst == at + |Encode(t)|
    ensures Laid(a[..], base, cptr, dst, done, group + Encode(t))
    ensures forall i :: 0 <= i < base ==> a[i] == old(a[i])
  {
    hide Encode;
    var n := WriteToken(t, a, at);
    dst := at + n;
    assert a[..][base..cptr] == done;
    assert a[..][cptr + CWORD_LEN..dst] == group + a[at..dst];
  }

  /** Writes the finished control word into its gap; every byte so far is then final. */
  method PutWord(cword: nat, a: array<byte>, base: nat, cptr: nat, dst: nat,
                 ghost done: seq<byte>, ghost group: seq<byte>)
    requires Laid(a[..], base, cptr, dst, done, group)
    modifies a
    ensures a[base..dst] == done + LeBytes(Shift(cword, true), CWORD_LEN) + group
    ensures forall i :: 0 <= i < base ==> a[i] == old(a[i])
  {
    hide LeBytes;
    FastWrite(Shift(cword, true), a, cptr, CWORD_LEN);
    assert a[base..cptr] == done && a[cptr + CWORD_LEN..dst] == group;
    assert a[base..dst] == a[base..cptr] + a[cptr..cptr + CWORD_LEN] + a[cptr + CWORD_LEN..dst];
  }

  /**
    The account behind the compressor's registers: free slots, where the current group starts in
    the text, the match bits it has taken, the finished groups and the bytes of the current one.
   */
  datatype Ledger = Ledger(r: nat, start: nat, low: nat, done: seq<byte>, group: seq<byte>)

  /** The whole stream is what has been laid down, the pending control word and what is to come. */
  ghost predicate Progress(cs: seq<Token>, s: seq<byte>, p: nat, cword: nat, g: Ledger) {
    && Sound(cs, s) && g.start <= p <= |s| && g.r <= SLOTS
    && Register(cword, g.low, g.r)
    && Continues(Word(Tokenize(cs, s, g.start), SLOTS), g.low, Tokenize(cs, s, p), g.r)
    && Core(cs, s)
       == g.done + LeBytes(Word(Tokenize(cs, s, g.start), SLOTS), CWORD_LEN) + g.group + StreamFrom(cs, s, p, g.r)
  }

  lemma {:induction false} ProgressStarts(cs: seq<Token>, s: seq<byte>)
    requires Sound(cs, s) && s != []
    ensures Progress(cs, s, 0, TOP, Ledger(SLOTS, 0, 0, [], []))
  {
    hide Tokenize, StreamFrom, Word, LeBytes;
    RegisterStarts(Tokenize(cs, s, 0));
    StreamReloads(cs, s, 0);
    var word := LeBytes(Word(Tokenize(cs, s, 0), SLOTS), CWORD_LEN);
    assert [] + word + [] == word;
  }

  /** Taking the planned token keeps the account balanced. */
  lemma {:induction false} ProgressTakes(cs: seq<Token>, s: seq<byte>, p: nat, cword: nat, g: Ledger)
      returns (g': Ledger)
    requires Progress(cs, s, p, cword, g) && g.r > 0 && p < |s|
    ensures Progress(cs, s, p + Width(cs[p]), Shift(cword, cs[p].Match?), g')
    ensures g' == g.(r := g.r - 1, low := g'.low, group := g.group + Encode(cs[p]))
  {
    hide StreamFrom, Word, LeBytes, Register, Continues, Pow2, Encode;
    var ts, word := Tokenize(cs, s, p), Word(Tokenize(cs, s, g.start), SLOTS);
    assert ts[0] == cs[p] && ts[1..] == Tokenize(cs, s, p + Width(cs[p]));
    RegisterShifts(cword, g.low, g.r, cs[p].Match?);
    ContinuesShifts(word, g.low, ts, g.r);
    StreamTakes(cs, s, p, g.r);
    var before, more := g.done + LeBytes(word, CWORD_LEN), StreamFrom(cs, s, p + Width(cs[p]), g.r - 1);
    Regroup(before + g.group, Encode(cs[p]), more);
    Regroup(before, g.group, Encode(cs[p]));
    var low' := g.low + if cs[p].Match? then Pow2(SLOTS - g.r) else 0;
    g' := g.(r := g.r - 1, low := low', group := g.group + Encode(cs[p]));
  }

  /** At a full control word a new group starts behind everything laid down. */
  lemma {:induction false} ProgressFlushes(cs: seq<Token>, s: seq<byte>, p: nat, cword: nat, g: Ledger)
    requires Progress(cs, s, p, cword, g) && g.r == 0 && p < |s|
    ensures Progress(cs, s, p, TOP, Ledger(SLOTS, p, 0, g.done + LeBytes(Shift(cword, true), CWORD_LEN) + g.group, []))
  {
    hide Tokenize, StreamFrom, Word, LeBytes, Register, Continues, Shift;
    FlushesWord(cword, g.low, Word(Tokenize(cs, s, g.start), SLOTS), Tokenize(cs, s, p));
    RegisterStarts(Tokenize(cs, s, p));
    StreamReloads(cs, s, p);
    var before := g.done + LeBytes(Shift(cword, true), CWORD_LEN) + g.group;
    var word := LeBytes(Word(Tokenize(cs, s, p), SLOTS), CWORD_LEN);
    Regroup(before, word, StreamFrom(cs, s, p, SLOTS));
    assert before + word + [] == before + word;
  }

  /** Behind the last token the register is shifted full; then everything is laid down. */
  lemma {:induction false} ProgressCloses(cs: seq<Token>, s: seq<byte>, cword: nat, g: Ledger)
    requires Progress(cs, s, |s|, cword, g)
    ensures g.r > 0 ==> Progress(cs, s, |s|, Shift(cword, false), g.(r := g.r - 1))
    ensures g.r == 0 ==> Core(cs, s) == g.done + LeBytes(Shift(cword, true), CWORD_LEN) + g.group
  {
    hide Word, LeBytes, Register, Continues, Pow2, Shift;
    assert Tokenize(cs, s, |s|) == [] && StreamFrom(cs, s, |s|, g.r) == [];
    if g.r > 0 {
      RegisterShifts(cword, g.low, g.r, false);
      ContinuesEmpty(Word(Tokenize(cs, s, g.start), SLOTS), g.low, g.r);
      assert StreamFrom(cs, s, |s|, g.r - 1) == [];
    } else {
      FlushesWord(cword, g.low, Word(Tokenize(cs, s, g.start), SLOTS), []);
    }
  }

  lemma {:induction false} ProgressSentinel(cs: seq<Token>, s: seq<byte>, p: nat, cword: nat, g: Ledger)
    requires Progress(cs, s, p, cword, g)
    ensures cword % 2 == 1 <==> g.r == 0
  {
    hide Register, Continues;
    SentinelShows(cword, g.low, g.r);
  }

  /** What both loops of the compressor keep. */
  ghost predicate Running(cs: seq<Token>, s: seq<byte>, a: seq<byte>, base: nat, p: nat, cword: nat, cptr: nat,
                          dst: nat, g: Ledger)
  {
    Laid(a, base, cptr, dst, g.done, g.group) && Progress(cs, s, p, cword, g)
  }

  lemma {:induction false} RunningSentinel(cs: seq<Token>, s: seq<byte>, a: seq<byte>, base: nat, p: nat, cword: nat,
                                           cptr: nat, dst: nat, g: Ledger)
    requires Running(cs, s, a, base, p, cword, cptr, dst, g)
    ensures cword % 2 == 1 <==> g.r == 0
    ensures Laid(a, base, cptr, dst, g.done, g.group)
  {
    hide Progress, Laid;
    ProgressSentinel(cs, s, p, cword, g);
  }

  /** The planned token, once laid down, moves the compressor on. */
  lemma {:induction false} RunningTakes(cs: seq<Token>, s: seq<byte>, a: seq<byte>, a': seq<byte>, base: nat, p: nat,
                                        cword: nat, cptr: nat, dst: nat, dst': nat, g: Ledger) returns (g': Ledger)
    requires Running(cs, s, a, base, p, cword, cptr, dst, g) && g.r > 0 && p < |s| && Sound(cs, s)
    requires Laid(a', base, cptr, dst', g.done, g.group + Encode(cs[p]))
    ensures Running(cs, s, a', base, p + Width(cs[p]), Shift(cword, cs[p].Match?), cptr, dst', g')
    ensures g'.r == g.r - 1 && g'.start == g.start
  {
    hide Progress, Laid, Encode, Shift;
    g' := ProgressTakes(cs, s, p, cword, g);
  }

  /** The main loop keeps the ratio test in step with the plan as well. */
  ghost predicate Searching(cs: seq<Token>, s: seq<byte>, base: nat, p: nat, cptr: nat, dst: nat, g: Ledger) {
    && base <= cptr <= dst
    && Sound(cs, s) && p <= |s|
    && Saving(|s|, p, dst - base, g.r, g.start, cptr - base)
    && (Stored(cs, s) <==> GivesUp(cs, s, p, dst - base, g.r))
  }

  lemma {:induction false} Starts(cs: seq<Token>, s: seq<byte>, a: seq<byte>, base: nat)
    requires Sound(cs, s) && s != [] && base + CWORD_LEN <= |a|
    ensures var g := Ledger(SLOTS, 0, 0, [], []);
      && Running(cs, s, a, base, 0, TOP, base, base + CWORD_LEN, g)
      && Searching(cs, s, base, 0, base, base + CWORD_LEN, g)
    ensures Hashes(s, 0) == []
  {
    hide Progress, Saving, GivesUp;
    ProgressStarts(cs, s);
    SavingStarts(|s|);
  }

  /** The main loop's step, as the ratio test sees it. */
  lemma {:induction false} SearchingTakes(cs: seq<Token>, s: seq<byte>, base: nat, p: nat, cptr: nat, dst: nat,
                                          g: Ledger, g': Ledger)
    requires Searching(cs, s, base, p, cptr, dst, g) && g.r > 0 && Searchable(s, p)
    requires g'.r == g.r - 1 && g'.start == g.start
    ensures Searching(cs, s, base, p + Width(cs[p]), cptr, dst + |Encode(cs[p])|, g')
  {
    hide Saving, Encode, Stored;
    SavingTakes(|s|, p, dst - base, g.r, g.start, cptr - base, Width(cs[p]), |Encode(cs[p])|);
  }

  lemma {:induction false} SearchingFlushes(cs: seq<Token>, s: seq<byte>, base: nat, p: nat, cptr: nat, dst: nat,
                                            g: Ledger, g': Ledger)
    requires Searching(cs, s, base, p, cptr, dst, g) && g.r == 0 && Searchable(s, p)
    requires g'.r == SLOTS && g'.start == p
    ensures Poor(|s|, p, dst - base) ==> Stored(cs, s)
    ensures !Poor(|s|, p, dst - base) ==> Searching(cs, s, base, p, dst, dst + CWORD_LEN, g')
  {
    hide Saving, Encode, Stored, Poor;
    if !Poor(|s|, p, dst - base) {
      SavingReloads(|s|, p, dst - base, g.start, cptr - base);
    }
  }

  lemma {:induction false} SearchingRoom(cs: seq<Token>, s: seq<byte>, base: nat, p: nat, cptr: nat, dst: nat,
                                         g: Ledger)
    requires Searching(cs, s, base, p, cptr, dst, g)
    ensures base <= dst <= base + |s| + 128
    ensures !Searchable(s, p) ==> !Stored(cs, s)
  {
    hide Saving, Stored;
    SavingBounds(|s|, p, dst - base, g.r, g.start, cptr - base);
  }

  lemma {:induction false} CoreLength(cs: seq<Token>, s: seq<byte>)
    requires Sound(cs, s) && s != [] && !Stored(cs, s)
    ensures |Core(cs, s)| < |s| + 150
  {
    hide StreamFrom, Saving;
    StreamReloads(cs, s, 0);
    SavingStarts(|s|);
    StreamSaves(cs, s, 0, CWORD_LEN, SLOTS, 0, 0);
  }

  /** The stream leaves room for what is still to come. */
  lemma {:induction false} RunningRoom(cs: seq<Token>, s: seq<byte>, a: seq<byte>, base: nat, p: nat, cword: nat,
                                       cptr: nat, dst: nat, g: Ledger)
    requires Running(cs, s, a, base, p, cword, cptr, dst, g)
    ensures base <= cptr < dst <= base + |Core(cs, s)|
    ensures p < |s| && g.r == 0 ==> dst + CWORD_LEN <= base + |Core(cs, s)|
  {
    hide Register, Continues, Word, Tokenize, Core, StreamFrom;
    if p < |s| && g.r == 0 {
      StreamReloads(cs, s, p);
    }
  }

  lemma {:induction false} PlanAt(s: seq<byte>, p: nat)
    requires p < |s|
    ensures Plan(s)[p] == if Searchable(s, p) then NextToken(s, p) else Lit(s[p])
  {
    hide NextToken;
    ChoiceAt(s, |s|, p);
  }

  /** Closes a full group: the control word is written and a new gap opened behind it. */
  method NextGroup(ghost cs: seq<Token>, ghost s: seq<byte>, a: array<byte>, base: nat, ghost p: nat, cword: nat,
                   cptr: nat, dst: nat, ghost g: Ledger)
      returns (ghost g': Ledger)
    requires Running(cs, s, a[..], base, p, cword, cptr, dst, g) && g.r == 0 && p < |s| && dst + CWORD_LEN <= a.Length
    modifies a
    ensures Running(cs, s, a[..], base, p, TOP, dst, dst + CWORD_LEN, g') && g'.r == SLOTS && g'.start == p
    ensures forall i :: 0 <= i < base ==> a[i] == old(a[i])
  {
    hide Progress, LeBytes, Shift;
    PutWord(cword, a, base, cptr, dst, g.done, g.group);
    ProgressFlushes(cs, s, p, cword, g);
    g' := Ledger(SLOTS, p, 0, g.done + LeBytes(Shift(cword, true), CWORD_LEN) + g.group, []);
  }

  /** One position of the main loop: search, enter the table, emit. */
  method EmitNext(source: array<byte>, p: nat, a: array<byte>, base: nat, cptr: nat, at: nat, state: CompressState,
                  ghost done: seq<byte>, ghost group: seq<byte>)
      returns (dst: nat, t: Token)
    requires source != a && Searchable(source[..], p) && state.Holds(Hashes(source[..], p))
    requires source as object != state.counter && a as object != state.counter
    requires at + 4 <= a.Length && Laid(a[..], base, cptr, at, done, group)
    modifies a, state.hash, state.counter
    ensures t == NextToken(source[..], p) && p + Width(t) + 2 <= source.Length
    ensures dst == at + |Encode(t)|
    ensures Laid(a[..], base, cptr, dst, done, group + Encode(t))
    ensures forall i :: 0 <= i < base ==> a[i] == old(a[i])
    ensures state.Holds(Hashes(source[..], p + Width(t)))
  {
    hide Hashes, Live, Laid, Encode, BestOf, MatchLen, HashFunc, Repeats;
    var b := FindMatch(source, p, state);
    EnterOne(source, p, state);
    if b.Found? && p - b.o < MAX_OFFSET {
      t := Match(p - b.o, b.len);
      EnterRun(source, p, b.len, state);
    } else {
      t := Lit(source[p]);
    }
    dst := PutToken(t, a, base, cptr, at, done, group);
  }

  /** The closing loop of the compressor: the rest of the text as literals. */
  method EmitTail(source: array<byte>, from: nat, a: array<byte>, base: nat, word: nat, gap: nat, at: nat,
                  ghost cs: seq<Token>, ghost before: Ledger)
      returns (cword: nat, cptr: nat, dst: nat, ghost g: Ledger)
    requires source != a && cs == Plan(source[..]) && from <= source.Length && !Searchable(source[..], from)
    requires Running(cs, source[..], a[..], base, from, word, gap, at, before)
    requires base + |Core(cs, source[..])| + 4 <= a.Length
    modifies a
    ensures Running(cs, source[..], a[..], base, source.Length, cword, cptr, dst, g)
    ensures forall i :: 0 <= i < base ==> a[i] == old(a[i])
  {
    hide Running, Progress, Laid, Core, Plan, NextToken, Encode, Shift;
    ghost var s := source[..];
    var p: nat := from;
    cword, cptr, dst, g := word, gap, at, before;
    while p < source.Length
      invariant source[..] == s && from <= p <= |s|
      invariant Running(cs, s, a[..], base, p, cword, cptr, dst, g)
      invariant forall i :: 0 <= i < base ==> a[i] == old(a[i])
    {
      RunningSentinel(cs, s, a[..], base, p, cword, cptr, dst, g);
      RunningRoom(cs, s, a[..], base, p, cword, cptr, dst, g);
      if cword % 2 == 1 {
        g := NextGroup(cs, s, a, base, p, cword, cptr, dst, g);
        cptr, dst, cword := dst, dst + CWORD_LEN, TOP;
        RunningRoom(cs, s, a[..], base, p, cword, cptr, dst, g);
      }
      PlanAt(s, p);
      RunningSentinel(cs, s, a[..], base, p, cword, cptr, dst, g);
      ghost var a0, dst0 := a[..], dst;
      dst := PutToken(Lit(source[p]), a, base, cptr, dst, g.done, g.group);
      g := RunningTakes(cs, s, a0, a[..], base, p, cword, cptr, dst0, dst, g);
      cword := Shift(cword, false);
      p := p + 1;
    }
  }

  /** Shifts the register until the sentinel shows and writes the last control word. */
  method CloseStream(a: array<byte>, base: nat, word: nat, cptr: nat, dst: nat,
                     ghost cs: seq<Token>, ghost s: seq<byte>, ghost before: Ledger)
    requires Running(cs, s, a[..], base, |s|, word, cptr, dst, before)
    modifies a
    ensures Sound(cs, s) && dst == base + |Core(cs, s)| <= a.Length && a[base..dst] == Core(cs, s)
    ensures forall i :: 0 <= i < base ==> a[i] == old(a[i])
  {
    hide Progress, Core, LeBytes, Shift;
    var cword: nat := word;
    ghost var g := before;
    ProgressSentinel(cs, s, |s|, cword, g);
    while cword % 2 != 1
      invariant Running(cs, s, a[..], base, |s|, cword, cptr, dst, g)
      invariant cword % 2 == 1 <==> g.r == 0
      invariant a[..] == old(a[..])
      decreases g.r
    {
      ProgressCloses(cs, s, cword, g);
      cword := Shift(cword, false);
      g := g.(r := g.r - 1);
      ProgressSentinel(cs, s, |s|, cword, g);
    }
    ProgressCloses(cs, s, cword, g);
    ProgressSound(cs, s, |s|, cword, g);
    PutWord(cword, a, base, cptr, dst, g.done, g.group);
  }

  lemma {:induction false} ProgressSound(cs: seq<Token>, s: seq<byte>, p: nat, cword: nat, g: Ledger)
    requires Progress(cs, s, p, cword, g)
    ensures Sound(cs, s)
  {
  }

  /**
    qlz_compress_core: gives up exactly when the plan's stream would not pay, and writes that
    stream behind the header otherwise.
   */
  method CompressCore(source: array<byte>, a: array<byte>, base: nat, state: CompressState) returns (ret: nat)
    requires source != a && source.Length >= 1 && base + source.Length + 160 <= a.Length
    requires source as object != state.counter && a as object != state.counter && state.Holds([])
    modifies a, state.hash, state.counter
    ensures ret == 0 <==> Stored(Plan(source[..]), source[..])
    ensures ret != 0 ==>
      var core := Core(Plan(source[..]), source[..]);
      && ret == |core| + Padding(core) && base + ret <= a.Length
      && a[base..base + |core|] == core
    ensures forall i :: 0 <= i < base ==> a[i] == old(a[i])
  {
    hide Running, Searching, Stored, Core, Hashes, Progress, Laid, Plan, Encode, LeBytes, NextToken, Shift, Poor;
    ghost var s := source[..];
    ghost var cs := Plan(s);
    var p: nat, cptr: nat, dst: nat, cword: nat := 0, base, base + CWORD_LEN, TOP;
    ghost var g := Ledger(SLOTS, 0, 0, [], []);
    Starts(cs, s, a[..], base);
    while p + UNCONDITIONAL_MATCHLEN + UNCOMPRESSED_END + 1 <= source.Length
      invariant source[..] == s && (p == 0 || p + 2 <= |s|)
      invariant Running(cs, s, a[..], base, p, cword, cptr, dst, g)
      invariant Searching(cs, s, base, p, cptr, dst, g)
      invariant state.Holds(Hashes(s, p))
      invariant forall i :: 0 <= i < base ==> a[i] == old(a[i])
      decreases |s| - p
    {
      RunningSentinel(cs, s, a[..], base, p, cword, cptr, dst, g);
      SearchingRoom(cs, s, base, p, cptr, dst, g);
      if cword % 2 == 1 {
        SearchingFlushes(cs, s, base, p, cptr, dst, g, Ledger(SLOTS, p, 0, [], []));
        if Poor(source.Length, p, dst - base) {
          return 0;
        }
        ghost var full := g;
        g := NextGroup(cs, s, a, base, p, cword, cptr, dst, full);
        SearchingFlushes(cs, s, base, p, cptr, dst, full, g);
        cptr, dst, cword := dst, dst + CWORD_LEN, TOP;
        RunningSentinel(cs, s, a[..], base, p, cword, cptr, dst, g);
      }
      PlanAt(s, p);
      ghost var a0, dst0, g0 := a[..], dst, g;
      var t;
      dst, t := EmitNext(source, p, a, base, cptr, dst, state, g.done, g.group);
      g := RunningTakes(cs, s, a0, a[..], base, p, cword, cptr, dst0, dst, g0);
      SearchingTakes(cs, s, base, p, cptr, dst0, g0, g);
      cword := Shift(cword, t.Match?);
      p := p + Width(t);
    }
    SearchingRoom(cs, s, base, p, cptr, dst, g);
    CoreLength(cs, s);
    cword, cptr, dst, g := EmitTail(source, p, a, base, cword, cptr, dst, cs, g);
    CloseStream(a, base, cword, cptr, dst, cs, s, g);
    ret := if dst - base < MIN_BODY then MIN_BODY else dst - base;
  }

  lemma Spliced(s: seq<byte>, i: nat, j: nat, k: nat)
    requires i <= j <= k <= |s|
    ensures s[i..k] == s[i..j] + s[j..k]
  {
  }

  /** The body: the compressed stream, or the text itself when the core gave up. */
  method WriteBody(source: array<byte>, a: array<byte>, base: nat, state: CompressState)
      returns (ret: nat, compressed: bool, ghost pad: seq<byte>)
    requires source != a && source.Length >= 1 && base + source.Length + 160 <= a.Length
    requires state.Shaped() && source as object != state.counter && a as object != state.counter
    modifies a, state, state.hash, state.counter
    ensures var s := source[..];
      && compressed == !Stored(Plan(s), s)
      && base <= ret <= a.Length
      && a[base..ret] == (if Stored(Plan(s), s) then s else Core(Plan(s), s) + pad)
      && (Stored(Plan(s), s) || |pad| == Padding(Core(Plan(s), s)))
  {
    hide Stored, Core, Plan;
    ghost var s := source[..];
    state.Reset();
    var core := CompressCore(source, a, base, state);
    assert core == 0 <==> Stored(Plan(s), s);
    ret := base + core;
    pad := [];
    compressed := ret != base;
    if ret == base {
      forall i | 0 <= i < source.Length {
        a[base + i] := source[i];
      }
      ret := source.Length + base;
      assert a[base..ret] == s;
    } else {
      ghost var end := base + |Core(Plan(s), s)|;
      pad := a[end..ret];
      Spliced(a[..], base, end, ret);
    }
    state.streamCounter := 0;
    assert source[..] == s;
  }

  lemma HeaderLaid(a: seq<byte>, compressed: bool, total: nat, size: nat, body: seq<byte>)
    requires Base(size) <= total <= |a| && a[0] == Flags(size, compressed) && a[Base(size)..total] == body
    requires var n := if size < 216 then 1 else 4;
      a[1..1 + n] == LeBytes(total, n) && a[1 + n..1 + 2 * n] == LeBytes(size, n)
    ensures a[..total] == Header(compressed, total, size) + body
  {
    hide LeBytes;
    var n, k := if size < 216 then 1 else 4, Base(size);
    assert k == 1 + 2 * n;
    FourParts(a, 1, 1 + n, k, total);
    assert a[..1] == [a[0]];
  }

  lemma FourParts(a: seq<byte>, i: nat, j: nat, k: nat, l: nat)
    requires i <= j <= k <= l <= |a|
    ensures a[..l] == a[..i] + a[i..j] + a[j..k] + a[k..l]
  {
  }

  method WriteHeader(a: array<byte>, compressed: bool, total: nat, size: nat)
    requires Base(size) <= total <= a.Length
    modifies a
    ensures a[..total] == Header(compressed, total, size) + old(a[Base(size)..total])
    ensures forall i :: total <= i < a.Length ==> a[i] == old(a[i])
  {
    hide LeBytes;
    ghost var body := a[Base(size)..total];
    if size < 216 {
      FastWrite(total, a, 1, 1);
      FastWrite(size, a, 2, 1);
      assert a[1..2] == LeBytes(total, 1) && a[2..3] == LeBytes(size, 1);
    } else {
      FastWrite(total, a, 1, 4);
      FastWrite(size, a, 5, 4);
      assert a[1..5] == LeBytes(total, 4) && a[5..9] == LeBytes(size, 4);
    }
    a[0] := Flags(size, compressed);
    HeaderLaid(a[..], compressed, total, size, body);
  }

  /**
    qlz_compress: the text is packed by the plan, or refused when its size is out of range.
    `pad` is whatever the destination held behind a very short stream.
   */
  method Compress(source: array<byte>, a: array<byte>, state: CompressState) returns (ret: nat, ghost pad: seq<byte>)
    requires source != a && source.Length + 400 <= a.Length
    requires state.Shaped() && source as object != state.counter && a as object != state.counter
    modifies a, state, state.hash, state.counter
    ensures ret == 0 <==> !(1 <= source.Length <= MAX_SIZE)
    ensures ret != 0 ==>
      var s := source[..];
      && ret <= a.Length
      && (Stored(Plan(s), s) || |pad| == Padding(Core(Plan(s), s)))
      && a[..ret] == Pack(Plan(s), s, pad)
  {
    hide Stored, Core, Plan, Header, Padding;
    pad := [];
    var size := source.Length;
    if size == 0 || size > MAX_SIZE {
      return 0, pad;
    }
    var base, compressed := Base(size), false;
    ret, compressed, pad := WriteBody(source, a, base, state);
    WriteHeader(a, compressed, ret, size);
  }

  /** Compress, then decompress: the text comes back, byte for byte. */
  method RoundTripArrays(source: array<byte>, state: CompressState) returns (text: array<byte>)
    requires 1 <= source.Length <= MAX_SIZE
    requires state.Shaped() && source as object != state.counter
    modifies state, state.hash, state.counter
    ensures text[..] == source[..]
  {
    hide Stored, Core, Plan, Pack, Padding, Unpack, Complete, HasHeader, SizeDecompressed;
    var packed := new byte[source.Length + 400];
    var r, pad := Compress(source, packed, state);
    ghost var s := source[..];
    RoundTrip(s, pad, packed[r..]);
    assert packed[..] == packed[..r] + packed[r..];
    text := new byte[source.Length];
    var n := LzDecompressor.Decompress(packed, text);
    assert text[..n] == text[..];
  }
}
