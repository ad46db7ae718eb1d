/** The bitmap of kernel/mem.c, and the search with skip-ahead that its allocator and both its mappers make. */
module FirstFit {

  const FRAMES := 16384
  const SLOTS := 1024

  // ----- bits -----

  /** 1 << k */
  function Mask(k: int): bv8 {
    if k == 0 then 1 else if k == 1 then 2 else if k == 2 then 4 else if k == 3 then 8
    else if k == 4 then 16 else if k == 5 then 32 else if k == 6 then 64 else 128
  }

  predicate Bit(b: bv8, k: int) { b & Mask(k) != 0 }

  lemma BitSet(b: bv8, k: int, j: int)
    requires 0 <= k < 8 && 0 <= j < 8
    ensures Bit(b | Mask(k), j) <==> j == k || Bit(b, j)
  {
  }

  lemma BitCleared(b: bv8, k: int, j: int)
    requires 0 <= k < 8 && 0 <= j < 8
    ensures Bit(b & !Mask(k), j) <==> j != k && Bit(b, j)
  {
  }

  lemma SameBits(b: bv8, c: bv8)
    requires Bit(b, 0) == Bit(c, 0) && Bit(b, 1) == Bit(c, 1) && Bit(b, 2) == Bit(c, 2) && Bit(b, 3) == Bit(c, 3)
    requires Bit(b, 4) == Bit(c, 4) && Bit(b, 5) == Bit(c, 5) && Bit(b, 6) == Bit(c, 6) && Bit(b, 7) == Bit(c, 7)
    ensures b == c
  {
  }

  /** Frame f is in use. */
  predicate Used(pmat: seq<bv8>, f: int) { 0 <= f < 8 * |pmat| && Bit(pmat[f / 8], f % 8) }

  function SetBit(pmat: seq<bv8>, f: int): (r: seq<bv8>)
    requires 0 <= f < 8 * |pmat|
    ensures |r| == |pmat|
  { pmat[f / 8 := pmat[f / 8] | Mask(f % 8)] }

  function ClearBit(pmat: seq<bv8>, f: int): (r: seq<bv8>)
    requires 0 <= f < 8 * |pmat|
    ensures |r| == |pmat|
  { pmat[f / 8 := pmat[f / 8] & !Mask(f % 8)] }

  lemma SetUses(pmat: seq<bv8>, f: int, g: int)
    requires 0 <= f < 8 * |pmat|
    ensures Used(SetBit(pmat, f), g) <==> g == f || Used(pmat, g)
  {
    if 0 <= g < 8 * |pmat| && g / 8 == f / 8 {
      BitSet(pmat[f / 8], f % 8, g % 8);
    }
    hide Bit, Mask;
  }

  lemma ClearFrees(pmat: seq<bv8>, f: int, g: int)
    requires 0 <= f < 8 * |pmat|
    ensures Used(ClearBit(pmat, f), g) <==> g != f && Used(pmat, g)
  {
    if 0 <= g < 8 * |pmat| && g / 8 == f / 8 {
      BitCleared(pmat[f / 8], f % 8, g % 8);
    }
    hide Bit, Mask;
  }

  /** The bits determine the bytes. */
  lemma SameUses(p: seq<bv8>, q: seq<bv8>)
    requires |p| == |q| && forall f {:trigger Used(p, f)} {:trigger Used(q, f)} :: Used(p, f) <==> Used(q, f)
    ensures p == q
  {
    forall i | 0 <= i < |p| ensures p[i] == q[i] {
      SameByte(p, q, i);
    }
  }

  lemma SameByte(p: seq<bv8>, q: seq<bv8>, i: int)
    requires |p| == |q| && 0 <= i < |p|
      && forall f {:trigger Used(p, f)} {:trigger Used(q, f)} :: Used(p, f) <==> Used(q, f)
    ensures p[i] == q[i]
  {
    assert forall k {:trigger Bit(p[i], k)} :: 0 <= k < 8 ==> Bit(p[i], k) == Bit(q[i], k) by {
      hide Bit;
      forall k {:trigger Bit(p[i], k)} | 0 <= k < 8 ensures Bit(p[i], k) == Bit(q[i], k) {
        assert Used(p, 8 * i + k) <==> Used(q, 8 * i + k);
        assert (8 * i + k) / 8 == i && (8 * i + k) % 8 == k;
      }
    }
    SameBits(p[i], q[i]);
  }

  // ----- runs -----

  /** The n places from i on are free. */
  ghost predicate FreeRun(taken: seq<bool>, i: int, n: int) {
    0 <= i && i + n <= |taken| && forall j {:trigger taken[j]} :: i <= j < i + n ==> !taken[j]
  }

  /** The search has seen that no run starts below i. */
  ghost predicate NoneBelow(taken: seq<bool>, n: int, i: int) {
    forall k {:trigger FreeRun(taken, k, n)} :: 0 <= k < i ==> !FreeRun(taken, k, n)
  }

  /** i is the least start of a run of n free places among those the search considers, which are below |taken| - n. */
  ghost predicate Least(taken: seq<bool>, n: int, i: int) {
    0 <= i < |taken| - n && FreeRun(taken, i, n) && NoneBelow(taken, n, i)
  }

  /** Jumping past a taken place loses nothing: every run in between would contain it. */
  lemma SkipAhead(taken: seq<bool>, n: int, i: int, j: int)
    requires 0 <= j < n && 0 <= i && i + j < |taken| && taken[i + j] && NoneBelow(taken, n, i)
    ensures NoneBelow(taken, n, i + j + 1)
  {
    forall k {:trigger FreeRun(taken, k, n)} | 0 <= k < i + j + 1 ensures !FreeRun(taken, k, n) {
      assert FreeRun(taken, k, n) ==> k + n <= |taken|;
    }
  }

  ghost function FrameUse(pmat: seq<bv8>): (s: seq<bool>)
    ensures |s| == FRAMES && forall f {:trigger s[f]} :: 0 <= f < FRAMES ==> s[f] == Used(pmat, f)
  { seq(FRAMES, f => Used(pmat, f)) }

  ghost function SlotUse(table: seq<int>): (s: seq<bool>)
    ensures |s| == |table| && forall i {:trigger s[i]} :: 0 <= i < |table| ==> s[i] == (table[i] != 0)
  { seq(|table|, i requires 0 <= i < |table| => table[i] != 0) }

  /** Where no run of n frames is free, one of any n frames is in use. */
  lemma FramesShort(pmat: seq<bv8>, n: int, f: int)
    requires NoneBelow(FrameUse(pmat), n, FRAMES - n) && 0 <= f < 16384 - n
    ensures exists g :: f <= g < f + n && Used(pmat, g)
  {
    hide Used;
    assert !FreeRun(FrameUse(pmat), f, n);
  }

  lemma SlotsShort(table: seq<int>, n: int, i: int)
    requires NoneBelow(SlotUse(table), n, |table| - n) && 0 <= i < |table| - n
    ensures exists k :: i <= k < i + n && table[k] != 0
  {
    assert !FreeRun(SlotUse(table), i, n);
  }

  /** There is no run of n free frames, or none of n free slots. */
  ghost predicate Short(pmat: seq<bv8>, table: seq<int>, n: int) {
    NoneBelow(FrameUse(pmat), n, FRAMES - n) || NoneBelow(SlotUse(table), n, |table| - n)
  }

  lemma ShortOfMore(pmat: seq<bv8>, table: seq<int>, m: int, n: int)
    requires Short(pmat, table, m) && 1 <= m <= n
    ensures Short(pmat, table, n)
  {
    hide Used;
    if NoneBelow(FrameUse(pmat), m, FRAMES - m) {
      NoneLonger(FrameUse(pmat), m, n);
    } else {
      NoneLonger(SlotUse(table), m, n);
    }
  }

  lemma NoneLonger(taken: seq<bool>, m: int, n: int)
    requires NoneBelow(taken, m, |taken| - m) && 1 <= m <= n
    ensures NoneBelow(taken, n, |taken| - n)
  {
    forall k {:trigger FreeRun(taken, k, n)} | 0 <= k < |taken| - n ensures !FreeRun(taken, k, n) {
      assert !FreeRun(taken, k, m);
    }
  }

  /** kget_PageBit */
  method GetBit(pmat: array<bv8>, f: int) returns (b: bool)
    requires 0 <= f < 8 * pmat.Length
    ensures b == Used(pmat[..], f)
  { b := pmat[f / 8] & Mask(f % 8) != 0; }

  /** The search of MmAllocPagesRaw. */
  method FindFrames(pmat: array<bv8>, n: int) returns (i: int)
    requires pmat.Length == 2048 && 1 <= n <= FRAMES
    ensures i >= 0 ==> Least(FrameUse(pmat[..]), n, i)
    ensures i < 0 ==> NoneBelow(FrameUse(pmat[..]), n, FRAMES - n)
  {
    hide Used;
    ghost var taken := FrameUse(pmat[..]);
    i := 0;
    while i < FRAMES - n
      invariant 0 <= i && NoneBelow(taken, n, i)
    {
      ghost var start := i;
      var j := 0;
      var hit := false;
      while j < n && !hit
        invariant 0 <= j <= n && i == (if hit then start + j else start) && (hit ==> j < n && taken[start + j])
        invariant forall k {:trigger taken[k]} :: start <= k < start + j ==> !taken[k]
        decreases n - j, !hit
      {
        var b := GetBit(pmat, i + j);
        if b {
          i := i + j;
          hit := true;
        } else {
          j := j + 1;
        }
      }
      if j == n { return; }
      SkipAhead(taken, n, start, j);
      i := i + 1;
    }
    assert NoneBelow(taken, n, FRAMES - n);
    i := -1;
  }

  /** The search of kmap_LowPage and kmap_KernelPage. */
  method FindSlots(table: seq<int>, n: int) returns (i: int)
    requires |table| == SLOTS && 1 <= n <= SLOTS
    ensures i >= 0 ==> Least(SlotUse(table), n, i)
    ensures i < 0 ==> NoneBelow(SlotUse(table), n, SLOTS - n)
  {
    ghost var taken := SlotUse(table);
    i := 0;
    while i < SLOTS - n
      invariant 0 <= i && NoneBelow(taken, n, i)
    {
      ghost var start := i;
      var j := 0;
      var hit := false;
      while j < n && !hit
        invariant 0 <= j <= n && i == (if hit then start + j else start) && (hit ==> j < n && taken[start + j])
        invariant forall k {:trigger taken[k]} :: start <= k < start + j ==> !taken[k]
        decreases n - j, !hit
      {
        if table[i + j] != 0 {
          i := i + j;
          hit := true;
        } else {
          j := j + 1;
        }
      }
      if j == n { return; }
      SkipAhead(taken, n, start, j);
      i := i + 1;
    }
    assert NoneBelow(taken, n, SLOTS - n);
    i := -1;
  }
}
