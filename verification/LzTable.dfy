/**
  The compressor's hash table, 16 slots and an 8-bit counter for each hash value, as a
  function of the hash values entered so far: slot `k` of a hash value holds the last position
  whose rank among the positions with that hash is `k` modulo 16, and the counter holds their
  number modulo 256.
 */
module LzTable {
  import Bytes

  const POINTERS := 16
  const HASH_VALUES := 4096

  /** How many entries have hash `h`. */
  function Count(hs: seq<nat>, h: nat): (c: nat)
    ensures c <= |hs|
  {
    if hs == [] then 0
    else Count(hs[..|hs| - 1], h) + if hs[|hs| - 1] == h then 1 else 0
  }

  /** The position slot `k` of hash `h` holds. */
  function Slot(hs: seq<nat>, h: nat, k: nat): (o: nat)
    requires k < POINTERS && k < Count(hs, h)
    ensures o < |hs| && hs[o] == h && Count(hs[..o], h) % 16 == k
  {
    var n := |hs| - 1;
    if hs[n] == h && Count(hs[..n], h) % 16 == k then n
    else
      var o := Slot(hs[..n], h, k);
      assert hs[..n][..o] == hs[..o];
      o
  }

  /** Slots an 8-bit counter vouches for: none again after it wraps to zero. */
  function Vouched(c: nat): (k: nat)
    ensures k <= POINTERS && k <= c
  {
    if c % 256 < POINTERS then c % 256 else POINTERS
  }

  /** Entering a hash value moves its own slot and counter and nothing else. */
  lemma {:induction false} CountEnters(hs: seq<nat>, h: nat, g: nat)
    ensures Count(hs + [h], g) == Count(hs, g) + if g == h then 1 else 0
  {
    assert (hs + [h])[..|hs|] == hs;
  }

  lemma {:induction false} SlotEnters(hs: seq<nat>, h: nat, g: nat, k: nat)
    requires k < POINTERS && k < Count(hs + [h], g)
    ensures Count(hs + [h], g) == Count(hs, g) + if g == h then 1 else 0
    ensures g == h && k == Count(hs, h) % 16 ==> Slot(hs + [h], g, k) == |hs|
    ensures !(g == h && k == Count(hs, h) % 16) ==> k < Count(hs, g) && Slot(hs + [h], g, k) == Slot(hs, g, k)
  {
    CountEnters(hs, h, g);
    assert (hs + [h])[..|hs|] == hs;
  }

  lemma {:induction false} Wraps(n: nat)
    ensures n % 256 % 16 == n % 16 && (n % 256 + 1) % 256 == (n + 1) % 256
  {
    var q, r := n / 256, n % 256;
    Bytes.DivMod(r, 16, r / 16, r % 16);
    Bytes.DivMod(n, 16, 16 * q + r / 16, r % 16);
    if r + 1 < 256 {
      Bytes.DivMod(n + 1, 256, q, r + 1);
    } else {
      Bytes.DivMod(n + 1, 256, q + 1, 0);
    }
  }

  /** qlz_state_compress: 4096 x 16 positions and 4096 counters, updated in place. */
  class CompressState {
    const hash: array2<int>
    const counter: array<int>
    var streamCounter: nat

    constructor ()
      ensures Shaped() && fresh(hash) && fresh(counter)
    {
      hash := new int[HASH_VALUES, POINTERS];
      counter := new int[HASH_VALUES];
    }

    predicate Shaped() {
      hash.Length0 == HASH_VALUES && hash.Length1 == POINTERS && counter.Length == HASH_VALUES
    }

    /** Counter and vouched slots of `h` are those of the entered hash values. */
    ghost predicate Keeps(hs: seq<nat>, h: nat)
      requires Shaped() && h < HASH_VALUES
      reads hash, counter
    {
      && counter[h] == Count(hs, h) % 256
      && forall k :: 0 <= k < POINTERS && k < Count(hs, h) ==> hash[h, k] == Slot(hs, h, k)
    }

    ghost predicate Holds(hs: seq<nat>)
      reads hash, counter
    {
      Shaped() && forall h :: 0 <= h < HASH_VALUES ==> Keeps(hs, h)
    }

    /** reset_table_compress: the counters are cleared, the slots are left as they are. */
    method Reset()
      requires Shaped()
      modifies counter
      ensures Holds([])
    {
      var i := 0;
      while i < HASH_VALUES
        invariant 0 <= i <= HASH_VALUES
        invariant forall h :: 0 <= h < i ==> counter[h] == 0
      {
        counter[i] := 0;
        i := i + 1;
      }
    }

    /** Enters the next position under its hash, wrapping slot and counter. */
    method Enter(h: nat, pos: nat, ghost hs: seq<nat>)
      requires h < HASH_VALUES && pos == |hs| && Holds(hs)
      modifies hash, counter
      ensures Holds(hs + [h])
    {
      hide Count, Slot;
      var c := counter[h];
      assert Keeps(hs, h);
      hash[h, c % 16] := pos;
      counter[h] := (c + 1) % 256;
      forall g | 0 <= g < HASH_VALUES
        ensures Keeps(hs + [h], g)
      {
        assert old(Keeps(hs, g));
        CountEnters(hs, h, g);
        Wraps(Count(hs, h));
        forall k | 0 <= k < POINTERS && k < Count(hs + [h], g)
          ensures hash[g, k] == Slot(hs + [h], g, k)
        {
          SlotEnters(hs, h, g, k);
        }
      }
    }
  }
}
