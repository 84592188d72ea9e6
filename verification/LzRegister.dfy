/**
  The compressor's 32-bit control register. It is shifted right once per token, match bits
  entering at the top, while the sentinel that started at bit 31 moves down to bit 0.
 */
module LzRegister {
  import opened Bytes
  import opened LzFormat

  const TOP := 0x8000_0000

  /** `r` slots are free and `low` holds the bits of the tokens taken so far. */
  predicate Register(cword: nat, low: nat, r: nat) {
    r <= SLOTS && low < Pow2(SLOTS - r) && cword == low * Pow2(r + 1) + Pow2(r)
  }

  /** The control word `w` is made of the bits taken so far below those still to come. */
  predicate Continues(w: nat, low: nat, ts: seq<Token>, r: nat) {
    r <= SLOTS && w == low + Pow2(SLOTS - r) * Word(ts, r)
  }

  function Shift(cword: nat, isMatch: bool): (c: nat) {
    cword / 2 + if isMatch then TOP else 0
  }

  lemma {:induction false} RegisterStarts(ts: seq<Token>)
    ensures Register(TOP, 0, SLOTS) && Continues(Word(ts, SLOTS), 0, ts, SLOTS)
  {
    Pow2Of31();
  }

  /** The sentinel reaches bit 0 exactly when no slot is free. */
  lemma {:induction false} SentinelShows(cword: nat, low: nat, r: nat)
    requires Register(cword, low, r)
    ensures cword % 2 == 1 <==> r == 0
  {
    hide Pow2;
    Pow2Step(r);
    Distribute(low, 0, Pow2(r));
    if r == 0 {
      Pow2Starts();
      DivMod(cword, 2, low, 1);
    } else {
      Pow2Step(r - 1);
      DivMod(cword, 2, low * Pow2(r) + Pow2(r - 1), 0);
    }
  }

  lemma {:induction false} RegisterShifts(cword: nat, low: nat, r: nat, isMatch: bool)
    requires Register(cword, low, r) && r > 0
    ensures Register(Shift(cword, isMatch), low + (if isMatch then Pow2(SLOTS - r) else 0), r - 1)
  {
    hide Pow2;
    Pow2Step(r);
    Pow2Step(r - 1);
    Pow2Step(SLOTS - r);
    Pow2Add(SLOTS - r, r);
    Pow2Of31();
    Distribute(low, Pow2(SLOTS - r), Pow2(r));
    DivMod(cword, 2, low * Pow2(r) + Pow2(r - 1), 0);
  }

  lemma {:induction false} Distribute(a: nat, b: nat, c: nat)
    ensures (a + b) * c == a * c + b * c && a * (2 * c) == 2 * (a * c) && (2 * a) * c == 2 * (a * c)
  {
  }

  lemma {:induction false} WordStep(ts: seq<Token>, r: nat)
    requires r > 0 && ts != []
    ensures Word(ts, r) == (if ts[0].Match? then 1 else 0) + 2 * Word(ts[1..], r - 1)
  {
  }

  lemma {:induction false} ContinuesShifts(w: nat, low: nat, ts: seq<Token>, r: nat)
    requires Continues(w, low, ts, r) && r > 0 && ts != []
    ensures Continues(w, low + (if ts[0].Match? then Pow2(SLOTS - r) else 0), ts[1..], r - 1)
  {
    hide Pow2, Word;
    var q, v := Pow2(SLOTS - r), Word(ts[1..], r - 1);
    Pow2Step(SLOTS - r);
    Distribute(q, 0, v);
    WordStep(ts, r);
    if ts[0].Match? { Distribute(1, 2 * v, q); }
  }

  /** A full register, shifted once more under a fresh top bit, is the finished control word. */
  lemma {:induction false} FlushesWord(cword: nat, low: nat, w: nat, ts: seq<Token>)
    requires Register(cword, low, 0) && Continues(w, low, ts, 0)
    ensures Shift(cword, true) == w
  {
    DivMod(cword, 2, low, 1);
    Pow2Of31();
  }

  /** With no token left, the free slots are closed by shifting in literal bits. */
  lemma {:induction false} ContinuesEmpty(w: nat, low: nat, r: nat)
    requires Continues(w, low, [], r) && r > 0
    ensures Continues(w, low, [], r - 1)
  {
    var q, v := Pow2(SLOTS - r), Word([], r - 1);
    assert q * (2 * v) == (2 * q) * v;
  }
}
