/** The two forms of memcpy_up, and the four-byte store behind the fast one. */
module LzCopy {
  import opened Bytes
  import opened LzFormat

  lemma {:induction false} CopyUpSplits(out: seq<byte>, offset: nat, a: nat, b: nat)
    requires 1 <= offset <= |out|
    ensures CopyUp(out, offset, a + b) == CopyUp(CopyUp(out, offset, a), offset, b)
    decreases a
  {
    if a > 0 {
      CopyUpSplits(out + [out[|out| - offset]], offset, a - 1, b);
    }
  }

  /** Three bytes at a time are safe when the source is at least three places back. */
  lemma {:induction false} CopyUpThree(out: seq<byte>, offset: nat)
    requires 3 <= offset <= |out|
    ensures CopyUp(out, offset, 3) == out + out[|out| - offset..|out| - offset + 3]
  {
    var k := |out| - offset;
    var one := out + [out[k]];
    var two := one + [one[k + 1]];
    assert CopyUp(out, offset, 3) == CopyUp(one, offset, 2);
    assert CopyUp(one, offset, 2) == CopyUp(two, offset, 1);
    assert two + [two[k + 2]] == out + out[k..k + 3];
  }

  lemma {:induction false} CopyUpStep(out: seq<byte>, offset: nat, n: nat)
    requires 1 <= offset <= |out|
    ensures CopyUp(out, offset, 0) == out
    ensures CopyUp(out, offset, n + 1) == CopyUp(out + [out[|out| - offset]], offset, n)
  {
  }

  /** The portable memcpy_up: overlapping copy, byte by byte. */
  method MemcpyUp(a: array<byte>, dst: nat, offset: nat, n: nat)
    requires 1 <= offset <= dst && dst + n <= a.Length
    modifies a
    ensures a[..dst + n] == CopyUp(old(a[..dst]), offset, n)
    ensures forall i :: dst + n <= i < a.Length ==> a[i] == old(a[i])
  {
    hide CopyUp;
    var i := 0;
    while i < n
      invariant 0 <= i <= n
      invariant CopyUp(a[..dst + i], offset, n - i) == CopyUp(old(a[..dst]), offset, n)
      invariant forall j :: dst + n <= j < a.Length ==> a[j] == old(a[j])
    {
      ghost var before := a[..dst + i];
      CopyUpStep(before, offset, n - i - 1);
      a[dst + i] := a[dst + i - offset];
      assert a[..dst + i + 1] == before + [before[|before| - offset]];
      i := i + 1;
    }
    CopyUpStep(a[..dst + n], offset, 0);
  }

  /** A four-byte load followed by a four-byte store. */
  method Store4(a: array<byte>, to: nat, from: nat)
    requires to + 4 <= a.Length && from + 4 <= a.Length
    modifies a
    ensures a[to] == old(a[from]) && a[to + 1] == old(a[from + 1])
    ensures a[to + 2] == old(a[from + 2]) && a[to + 3] == old(a[from + 3])
    ensures forall i :: 0 <= i < a.Length && !(to <= i < to + 4) ==> a[i] == old(a[i])
  {
    a[to], a[to + 1], a[to + 2], a[to + 3] := a[from], a[from + 1], a[from + 2], a[from + 3];
  }

  /** One stride: the first three bytes stored are final, the fourth is overwritten by the next. */
  method StoreStep(a: array<byte>, pos: nat, offset: nat)
    requires 3 <= offset <= pos && pos + 4 <= a.Length
    modifies a
    ensures a[..pos + 3] == CopyUp(old(a[..pos]), offset, 3)
    ensures forall i :: pos + 4 <= i < a.Length ==> a[i] == old(a[i])
  {
    ghost var before := a[..pos];
    Store4(a, pos, pos - offset);
    assert a[..pos + 3][..pos] == before;
    WordStored(before, a[..pos + 3], offset);
  }

  /**
    The x86 memcpy_up stores four bytes every three. From three places back or more it copies
    what the portable form copies, and disturbs at most three bytes behind the match.
   */
  method MemcpyUpWords(a: array<byte>, dst: nat, offset: nat, n: nat)
    requires MINOFFSET + 1 <= offset <= dst && 1 <= n && dst + n + 3 <= a.Length
    modifies a
    ensures a[..dst + n] == CopyUp(old(a[..dst]), offset, n)
    ensures forall i :: dst + n + 3 <= i < a.Length ==> a[i] == old(a[i])
  {
    hide CopyUp;
    ghost var out := a[..dst];
    CopyUpStep(out, offset, 0);
    var f := 0;
    while f == 0 || f < n
      invariant 0 <= f < n + 3
      invariant a[..dst + f] == CopyUp(out, offset, f)
      invariant forall j :: dst + n + 3 <= j < a.Length ==> a[j] == old(a[j])
      decreases n + 3 - f
    {
      StoreStep(a, dst + f, offset);
      CopyUpSplits(out, offset, f, 3);
      f := f + MINOFFSET + 1;
    }
    CopyUpSplits(out, offset, n, f - n);
    assert a[..dst + n] == a[..dst + f][..dst + n];
  }

  lemma {:induction false} WordStored(before: seq<byte>, after: seq<byte>, offset: nat)
    requires 3 <= offset <= |before| && |after| == |before| + 3
    requires after[..|before|] == before
    requires var n, k := |before|, |before| - offset;
      after[n] == before[k] && after[n + 1] == before[k + 1] && after[n + 2] == before[k + 2]
    ensures after == CopyUp(before, offset, 3)
  {
    CopyUpThree(before, offset);
    var n, k := |before|, |before| - offset;
    assert after == after[..n] + [after[n], after[n + 1], after[n + 2]];
    assert before[k..k + 3] == [before[k], before[k + 1], before[k + 2]];
  }
}
