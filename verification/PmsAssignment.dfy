/** Handing out the PMS slots of the configuration to the addresses of the PMs, NIC by NIC, round after round. */
module PmsAssignment {
  import Bytes

  const MIN_PM_PORTS := 32

  datatype Nic = Nic(address: string, id: int)

  function PmPorts(pmCount: nat, maxNic: int): (n: nat)
    ensures n >= MIN_PM_PORTS
  {
    var n := pmCount * (maxNic * 2);
    if n < MIN_PM_PORTS then MIN_PM_PORTS else n
  }

  /** The NIC ids the walk visits are 1 to `Top`: it starts at 1 and goes back to 1. */
  function Top(maxNic: int): (top: nat)
    ensures top >= 1
  {
    if maxNic < 1 then 1 else maxNic
  }

  /** The addresses with one NIC id, in list order. */
  function Group(nics: seq<Nic>, id: int): (addresses: seq<string>) {
    if nics == [] then []
    else
      var last := nics[|nics| - 1];
      Group(nics[..|nics| - 1], id) + if last.id == id then [last.address] else []
  }

  /** The addresses with NIC ids 1 to `n`, by id, then in list order. */
  function Upto(nics: seq<Nic>, n: nat): (addresses: seq<string>) {
    if n == 0 then [] else Upto(nics, n - 1) + Group(nics, n)
  }

  function Cycle(nics: seq<Nic>, maxNic: int): (addresses: seq<string>) {
    Upto(nics, Top(maxNic))
  }

  /** The first `n` slots when the cycle is repeated. */
  function Repeated(cycle: seq<string>, n: nat): (slots: seq<string>)
    requires cycle != []
    ensures |slots| == n
  {
    seq(n, j requires 0 <= j < n => cycle[j % |cycle|])
  }

  lemma {:induction false} UptoPrefix(nics: seq<Nic>, m: nat, n: nat)
    requires m <= n
    ensures |Upto(nics, m)| <= |Upto(nics, n)| && Upto(nics, n)[..|Upto(nics, m)|] == Upto(nics, m)
  {
    if m < n {
      UptoPrefix(nics, m, n - 1);
    }
  }

  lemma ModOf(q: nat, l: nat, r: nat)
    requires r < l
    ensures (q * l + r) % l == r
  {
    Bytes.DivMod(q * l + r, l, q, r);
  }

  /** One pass over the list, when `id` comes next in round `q`, goes on with the repeated cycle. */
  lemma PassContinues(nics: seq<Nic>, maxNic: int, q: nat, id: nat, k: nat)
    requires Cycle(nics, maxNic) != [] && 1 <= id <= Top(maxNic) && k <= |Group(nics, id)|
    ensures var c := Cycle(nics, maxNic);
      var n := q * |c| + |Upto(nics, id - 1)|;
      Repeated(c, n) + Group(nics, id)[..k] == Repeated(c, n + k)
  {
    hide Upto, Group, Cycle;
    var c, before, g := Cycle(nics, maxNic), Upto(nics, id - 1), Group(nics, id);
    var n := q * |c| + |before|;
    forall j | 0 <= j < k ensures c[(n + j) % |c|] == g[j] {
      CycleAt(nics, maxNic, id, j);
      ModOf(q, |c|, |before| + j);
    }
    RepeatedContinues(c, n, g[..k]);
  }

  /** What the cycle says comes next. */
  lemma RepeatedContinues(c: seq<string>, n: nat, more: seq<string>)
    requires c != [] && forall j :: 0 <= j < |more| ==> c[(n + j) % |c|] == more[j]
    ensures Repeated(c, n) + more == Repeated(c, n + |more|)
  {
    var a, b := Repeated(c, n) + more, Repeated(c, n + |more|);
    forall i | 0 <= i < n + |more| ensures a[i] == b[i] {
      if n <= i { assert a[i] == more[i - n] == c[(n + (i - n)) % |c|]; }
    }
  }

  lemma CycleAt(nics: seq<Nic>, maxNic: int, id: nat, j: nat)
    requires 1 <= id <= Top(maxNic) && j < |Group(nics, id)|
    ensures var c, n := Cycle(nics, maxNic), |Upto(nics, id - 1)|; n + j < |c| && c[n + j] == Group(nics, id)[j]
  {
    hide Group;
    UptoPrefix(nics, id, Top(maxNic));
    var c, u := Cycle(nics, maxNic), Upto(nics, id);
    assert c[..|u|][|Upto(nics, id - 1)| + j] == u[|Upto(nics, id - 1)| + j];
  }

  function Fit(n: nat, room: nat): (m: nat) {
    if n <= room then n else room
  }

  lemma NoGroup(id: int)
    ensures Group([], id) == []
  {
  }

  lemma GroupGrows(nics: seq<Nic>, id: int, i: nat)
    requires i < |nics|
    ensures Group(nics[..i + 1], id) ==
            Group(nics[..i], id) + if nics[i].id == id then [nics[i].address] else []
  {
    assert nics[..i + 1][..i] == nics[..i];
  }

  /** The inner loop: one pass over the list, placing the addresses with NIC id `id` while slots are left. */
  method PlaceGroup(nics: seq<Nic>, id: int, ports: nat, slots: seq<string>) returns (slots': seq<string>)
    requires |slots| < ports
    ensures slots' == slots + Group(nics, id)[..Fit(|Group(nics, id)|, ports - |slots|)]
  {
    hide Group;
    slots' := slots;
    NoGroup(id);
    assert slots + [] == slots && nics[..0] == [];
    for i := 0 to |nics|
      invariant |slots'| < ports && slots' == slots + Group(nics[..i], id)
    {
      GroupGrows(nics, id, i);
      if nics[i].id == id {
        slots' := slots' + [nics[i].address];
      }
      if |slots'| >= ports {
        GroupPrefix(nics, id, i + 1);
        return;
      }
    }
    assert nics[..|nics|] == nics;
  }

  lemma {:induction false} GroupPrefix(nics: seq<Nic>, id: int, i: nat)
    requires i <= |nics|
    ensures |Group(nics[..i], id)| <= |Group(nics, id)|
    ensures Group(nics, id)[..|Group(nics[..i], id)|] == Group(nics[..i], id)
  {
    if i == |nics| {
      assert nics[..i] == nics;
    } else {
      var front := nics[..|nics| - 1];
      GroupPrefix(front, id, i);
      assert front[..i] == nics[..i];
    }
  }

  /**
    The outer loop. If some address has a NIC id the walk visits, it ends with every slot filled,
    slot j holding entry (j - 1) mod L of the cycle.
   */
  method AssignSlots(nics: seq<Nic>, maxNic: int, pmCount: nat) returns (slots: seq<string>)
    requires Cycle(nics, maxNic) != []
    ensures slots == Repeated(Cycle(nics, maxNic), PmPorts(pmCount, maxNic))
  {
    hide Upto, Group, Repeated;
    RepeatedStarts(Cycle(nics, maxNic));
    UptoNext(nics, 0);
    var ports := PmPorts(pmCount, maxNic);
    ghost var c, q := Cycle(nics, maxNic), 0;
    slots := [];
    var id := 1;
    while |slots| < ports
      invariant 1 <= id <= Top(maxNic) && |slots| <= ports
      invariant slots == Repeated(c, |slots|)
      invariant |slots| < ports ==> |slots| == q * |c| + |Upto(nics, id - 1)|
      invariant |slots| < ports ==> q <= |slots|
      decreases ports - q, if |slots| < ports then 1 else 0, Top(maxNic) - id
    {
      ghost var g := Group(nics, id);
      PassContinues(nics, maxNic, q, id, Fit(|g|, ports - |slots|));
      slots := PlaceGroup(nics, id, ports, slots);
      if |slots| >= ports {
        break;
      }
      UptoNext(nics, id - 1);
      id := id + 1;
      if id > maxNic {
        RoundEnds(q, |c|);
        q := q + 1;
        id := 1;
      }
    }
  }

  lemma RepeatedStarts(cycle: seq<string>)
    requires cycle != []
    ensures Repeated(cycle, 0) == []
  {
  }

  lemma UptoNext(nics: seq<Nic>, n: nat)
    ensures |Upto(nics, n + 1)| == |Upto(nics, n)| + |Group(nics, n + 1)| && Upto(nics, 0) == []
  {
  }

  lemma RoundEnds(q: nat, l: nat)
    requires l > 0
    ensures q * l + l == (q + 1) * l && q <= q * l && q + 1 <= (q + 1) * l
  {
  }

  // When the outer loop ends.

  datatype Turn = Turn(slots: nat, id: int)

  /** One turn of the outer loop, as far as the number of slots and the NIC id go. */
  function Next(nics: seq<Nic>, maxNic: int, ports: nat, t: Turn): (t': Turn) {
    if t.slots >= ports then t
    else
      var n := t.slots + Fit(|Group(nics, t.id)|, ports - t.slots);
      if n >= ports then Turn(n, t.id) else Turn(n, if t.id + 1 > maxNic then 1 else t.id + 1)
  }

  function After(nics: seq<Nic>, maxNic: int, ports: nat, k: nat): (t: Turn) {
    if k == 0 then Turn(0, 1) else Next(nics, maxNic, ports, After(nics, maxNic, ports, k - 1))
  }

  /** Turn k is turn m of round q. */
  lemma {:induction false} AfterTurns(nics: seq<Nic>, maxNic: int, ports: nat, k: nat) returns (q: nat, m: nat)
    ensures k == q * Top(maxNic) + m && m < Top(maxNic)
    ensures var t := After(nics, maxNic, ports, k);
      t.slots >= ports || (t.id == m + 1 && t.slots == q * |Cycle(nics, maxNic)| + |Upto(nics, m)|)
  {
    if k == 0 {
      q, m := 0, 0;
    } else {
      q, m := AfterTurns(nics, maxNic, ports, k - 1);
      assert |Upto(nics, m + 1)| == |Upto(nics, m)| + |Group(nics, m + 1)|;
      if m + 1 < Top(maxNic) {
        m := m + 1;
      } else {
        Bytes.MulNext(q, Top(maxNic));
        Bytes.MulNext(q, |Cycle(nics, maxNic)|);
        q, m := q + 1, 0;
      }
    }
  }

  lemma QuotientIs(a: nat, q: nat, m: nat, l: nat)
    requires a * l == q * l + m && m < l
    ensures a == q
  {
    Bytes.DivMod(a * l, l, a, 0);
    Bytes.DivMod(a * l, l, q, m);
  }

  /** The outer loop ends exactly when some address has a NIC id from 1 to `Top`. */
  lemma EndsIffCycle(nics: seq<Nic>, maxNic: int, ports: nat)
    requires ports > 0
    ensures (exists k: nat :: After(nics, maxNic, ports, k).slots >= ports) <==> Cycle(nics, maxNic) != []
    ensures Cycle(nics, maxNic) != [] <==> exists i :: 0 <= i < |nics| && 1 <= nics[i].id <= Top(maxNic)
  {
    if Cycle(nics, maxNic) != [] {
      var k := ports * Top(maxNic);
      var q, m := AfterTurns(nics, maxNic, ports, k);
      QuotientIs(ports, q, m, Top(maxNic));
      RoundEnds(ports, |Cycle(nics, maxNic)|);
      assert After(nics, maxNic, ports, k).slots >= ports;
    } else {
      forall k: nat ensures After(nics, maxNic, ports, k).slots == 0 {
        NothingPlaced(nics, maxNic, ports, k);
      }
    }
    UptoEmpty(nics, Top(maxNic));
  }

  lemma {:induction false} NothingPlaced(nics: seq<Nic>, maxNic: int, ports: nat, k: nat)
    requires Cycle(nics, maxNic) == [] && ports > 0
    ensures var t := After(nics, maxNic, ports, k); t.slots == 0 && 1 <= t.id <= Top(maxNic)
  {
    if k > 0 {
      NothingPlaced(nics, maxNic, ports, k - 1);
      var id := After(nics, maxNic, ports, k - 1).id;
      UptoPrefix(nics, id, Top(maxNic));
    }
  }

  lemma {:induction false} GroupEmpty(nics: seq<Nic>, id: int)
    ensures Group(nics, id) != [] <==> exists i :: 0 <= i < |nics| && nics[i].id == id
  {
    if nics != [] {
      var front := nics[..|nics| - 1];
      GroupEmpty(front, id);
      forall i | 0 <= i < |front| ensures front[i] == nics[i] {}
    }
  }

  lemma {:induction false} UptoEmpty(nics: seq<Nic>, n: nat)
    ensures Upto(nics, n) != [] <==> exists i :: 0 <= i < |nics| && 1 <= nics[i].id <= n
  {
    hide Upto, Group;
    UptoStep(nics, n);
    if n > 0 {
      UptoEmpty(nics, n - 1);
      GroupEmpty(nics, n);
    }
  }

  lemma UptoStep(nics: seq<Nic>, n: nat)
    ensures n == 0 ==> Upto(nics, n) == []
    ensures n > 0 ==> (Upto(nics, n) != [] <==> Upto(nics, n - 1) != [] || Group(nics, n) != [])
  {
  }

  // How evenly the slots are spread.

  /** How often an address occurs. */
  function Occurs(s: seq<string>, a: string): (n: nat) {
    if s == [] then 0 else Occurs(s[..|s| - 1], a) + if s[|s| - 1] == a then 1 else 0
  }

  lemma OccursAdd(s: seq<string>, x: string, a: string)
    ensures Occurs(s + [x], a) == Occurs(s, a) + (if x == a then 1 else 0) && Occurs([], a) == 0
  {
    assert (s + [x])[..|s|] == s;
  }

  lemma RepeatedGrows(cycle: seq<string>, n: nat)
    requires cycle != []
    ensures Repeated(cycle, n + 1) == Repeated(cycle, n) + [cycle[n % |cycle|]]
  {
  }

  /** One more slot, filled from the cycle. */
  lemma SlotAdds(cycle: seq<string>, n: nat, q: nat, r: nat, a: string)
    requires r < |cycle| && n == q * |cycle| + r
    ensures Occurs(Repeated(cycle, n + 1), a) == Occurs(Repeated(cycle, n), a) + if cycle[r] == a then 1 else 0
    ensures Occurs(cycle[..r + 1], a) == Occurs(cycle[..r], a) + if cycle[r] == a then 1 else 0
  {
    hide Repeated, Occurs;
    ModOf(q, |cycle|, r);
    RepeatedGrows(cycle, n);
    OccursAdd(Repeated(cycle, n), cycle[r], a);
    OccursAdd(cycle[..r], cycle[r], a);
    assert cycle[..r + 1] == cycle[..r] + [cycle[r]];
  }

  /** Within a round, an address gets as many slots as entries passed. */
  lemma {:induction false} RoundCount(cycle: seq<string>, q: nat, r: nat, a: string)
    requires cycle != [] && r <= |cycle|
    ensures var n := q * |cycle|;
      Occurs(Repeated(cycle, n + r), a) == Occurs(Repeated(cycle, n), a) + Occurs(cycle[..r], a)
    decreases r
  {
    hide Repeated, Occurs;
    if r == 0 {
      OccursAdd([], "", a);
      assert cycle[..0] == [];
    } else {
      RoundCount(cycle, q, r - 1, a);
      SlotAdds(cycle, q * |cycle| + r - 1, q, r - 1, a);
    }
  }

  /** After `q` rounds it has its share of each. */
  lemma {:induction false} RoundsCount(cycle: seq<string>, q: nat, a: string)
    requires cycle != []
    ensures Occurs(Repeated(cycle, q * |cycle|), a) == q * Occurs(cycle, a)
  {
    hide Repeated, Occurs;
    if q == 0 {
      RepeatedStarts(cycle);
      OccursAdd([], "", a);
    } else {
      RoundsCount(cycle, q - 1, a);
      RoundCount(cycle, q - 1, |cycle|, a);
      assert cycle[..|cycle|] == cycle;
      Bytes.MulNext(q - 1, |cycle|);
      Bytes.MulNext(q - 1, Occurs(cycle, a));
    }
  }

  /**
    Of the slots assigned, an address gets its number of entries in the cycle once for every full
    round, and at most once more; so two addresses with one entry each differ by at most one slot.
   */
  lemma SharesEven(nics: seq<Nic>, maxNic: int, pmCount: nat, a: string, b: string)
    requires Cycle(nics, maxNic) != []
    ensures var cycle, n := Cycle(nics, maxNic), PmPorts(pmCount, maxNic);
      var slots, rounds := Repeated(cycle, n), n / |cycle|;
      && rounds * Occurs(cycle, a) <= Occurs(slots, a) <= (rounds + 1) * Occurs(cycle, a)
      && (Occurs(cycle, a) == Occurs(cycle, b) == 1 ==> Occurs(slots, a) <= Occurs(slots, b) + 1)
  {
    hide Cycle, PmPorts, Repeated, Occurs;
    var cycle, n := Cycle(nics, maxNic), PmPorts(pmCount, maxNic);
    ShareBetween(cycle, n, a);
    ShareBetween(cycle, n, b);
  }

  lemma ShareBetween(cycle: seq<string>, n: nat, a: string)
    requires cycle != []
    ensures var q, m := n / |cycle|, Occurs(cycle, a);
      q * m <= Occurs(Repeated(cycle, n), a) <= (q + 1) * m && q * 1 == q && (q + 1) * 1 == q + 1
  {
    hide Repeated, Occurs;
    var q, r := n / |cycle|, n % |cycle|;
    assert n == q * |cycle| + r;
    RoundsCount(cycle, q, a);
    RoundCount(cycle, q, r, a);
    PrefixOccurs(cycle, r, a);
    Bytes.MulNext(q, Occurs(cycle, a));
  }

  lemma {:induction false} PrefixOccurs(s: seq<string>, r: nat, a: string)
    requires r <= |s|
    ensures Occurs(s[..r], a) <= Occurs(s, a)
  {
    if r < |s| {
      PrefixOccurs(s[..|s| - 1], r, a);
      assert s[..|s| - 1][..r] == s[..r];
    } else {
      assert s[..r] == s;
    }
  }

  // How many slots there are, and what the cycle is.

  /** Two slots for every PM and NIC, and 32 at least. */
  lemma PortsSuffice(pmCount: nat, maxNic: int)
    ensures var n, wanted := PmPorts(pmCount, maxNic), 2 * (pmCount * maxNic);
      n >= 32 && n >= wanted && (n == 32 || n == wanted)
  {
    assert pmCount * (maxNic * 2) == 2 * (pmCount * maxNic);
  }

  /** When no PM has more addresses than NICs are counted, every address gets at least two slots for each entry. */
  lemma TwoSlotsEach(nics: seq<Nic>, maxNic: int, pmCount: nat, a: string)
    requires Cycle(nics, maxNic) != [] && |Cycle(nics, maxNic)| <= pmCount * maxNic
    ensures Occurs(Repeated(Cycle(nics, maxNic), PmPorts(pmCount, maxNic)), a) >= 2 * Occurs(Cycle(nics, maxNic), a)
  {
    hide Cycle, PmPorts, Repeated, Occurs;
    var cycle, n := Cycle(nics, maxNic), PmPorts(pmCount, maxNic);
    PortsSuffice(pmCount, maxNic);
    ShareBetween(cycle, n, a);
    TwoRounds(n, |cycle|);
    AtLeastTwice(n / |cycle|, Occurs(cycle, a));
  }

  lemma TwoRounds(n: nat, l: nat)
    requires l > 0 && n >= 2 * l
    ensures n / l >= 2
  {
  }

  lemma AtLeastTwice(q: nat, m: nat)
    requires q >= 2
    ensures q * m >= 2 * m
  {
    if q > 2 { Bytes.MulMono(2, q, m); }
  }

  /** How many addresses have a NIC id from `lo` to `hi`. */
  function InRange(nics: seq<Nic>, lo: int, hi: int): (n: nat) {
    if nics == [] then 0
    else
      var last := nics[|nics| - 1];
      InRange(nics[..|nics| - 1], lo, hi) + if lo <= last.id <= hi then 1 else 0
  }

  lemma {:induction false} RangeSplits(nics: seq<Nic>, lo: int, mid: int, hi: int)
    requires lo <= mid <= hi
    ensures InRange(nics, lo, hi) == InRange(nics, lo, mid - 1) + InRange(nics, mid, hi)
  {
    if nics != [] { RangeSplits(nics[..|nics| - 1], lo, mid, hi); }
  }

  lemma {:induction false} GroupLength(nics: seq<Nic>, id: int)
    ensures |Group(nics, id)| == InRange(nics, id, id)
  {
    if nics != [] { GroupLength(nics[..|nics| - 1], id); }
  }

  lemma {:induction false} NoneInRange(nics: seq<Nic>, lo: int, hi: int)
    requires hi < lo
    ensures InRange(nics, lo, hi) == 0
  {
    if nics != [] { NoneInRange(nics[..|nics| - 1], lo, hi); }
  }

  lemma {:induction false} UptoLength(nics: seq<Nic>, n: nat)
    ensures |Upto(nics, n)| == InRange(nics, 1, n)
  {
    hide Group, InRange;
    if n == 0 {
      NoneInRange(nics, 1, 0);
    } else {
      UptoLength(nics, n - 1);
      GroupLength(nics, n);
      RangeSplits(nics, 1, n, n);
    }
  }

  lemma GroupPlace(nics: seq<Nic>, k: nat)
    requires k < |nics|
    ensures var id := nics[k].id;
      var j := InRange(nics[..k], id, id);
      j < |Group(nics, id)| && Group(nics, id)[j] == nics[k].address
  {
    hide Group, InRange;
    var id := nics[k].id;
    GroupLength(nics[..k], id);
    GroupGrows(nics, id, k);
    GroupPrefix(nics, id, k + 1);
    var g := Group(nics[..k + 1], id);
    assert g[|g| - 1] == nics[k].address && Group(nics, id)[..|g|] == g;
  }

  /**
    The cycle is the list sorted by NIC id, entries of one id in list order: an address stands after
    all of smaller ids and those of its own id before it in the list. Ids that are not walked are left out.
   */
  lemma CyclePlace(nics: seq<Nic>, maxNic: int, k: nat)
    requires k < |nics| && 1 <= nics[k].id <= (if maxNic < 1 then 1 else maxNic)
    ensures var id, c := nics[k].id, Cycle(nics, maxNic);
      var at := InRange(nics, 1, id - 1) + InRange(nics[..k], id, id);
      && at < |c| && c[at] == nics[k].address
      && |c| == InRange(nics, 1, if maxNic < 1 then 1 else maxNic)
  {
    hide Group, InRange, Upto;
    var id := nics[k].id;
    GroupPlace(nics, k);
    UptoLength(nics, id - 1);
    UptoLength(nics, Top(maxNic));
    CycleAt(nics, maxNic, id, InRange(nics[..k], id, id));
  }
}
