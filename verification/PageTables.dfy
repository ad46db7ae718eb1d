/** Page tables and the frames they map, as kernel/mem.c and kernel/task.c change them. */
module PageTables {
  import opened FirstFit

  const PAGE := 4096
  const HIGH := 0x80000000

  /** An entry is a frame number times 4096 with flag bits below it, so that the source's | adds. */
  function Entry(frame: int, flags: int): int { frame * PAGE + flags }

  function FrameOf(e: int): int { e / PAGE }

  lemma EntryFrame(frame: int, flags: int)
    requires 0 <= flags < PAGE
    ensures FrameOf(Entry(frame, flags)) == frame && (0 <= frame && 0 < flags ==> Entry(frame, flags) > 0)
  {
  }

  ghost function At(table: seq<int>, i: int): int { if 0 <= i < |table| then table[i] else 0 }

  /** n entries from slot s on map the frames from f on. */
  ghost function MapRun(table: seq<int>, s: int, f: int, n: int, flags: int): (r: seq<int>)
    ensures |r| == |table|
    ensures forall k {:trigger At(r, k)} ::
      0 <= k < |table| ==> At(r, k) == if s <= k < s + n then Entry(f + k - s, flags) else At(table, k)
  { seq(|table|, k requires 0 <= k < |table| => if s <= k < s + n then Entry(f + k - s, flags) else table[k]) }

  ghost function ZeroRun(table: seq<int>, s: int, n: int): (r: seq<int>)
    ensures |r| == |table|
    ensures forall k {:trigger At(r, k)} :: 0 <= k < |table| ==> At(r, k) == if s <= k < s + n then 0 else At(table, k)
  { seq(|table|, k requires 0 <= k < |table| => if s <= k < s + n then 0 else table[k]) }

  lemma SameTable(t: seq<int>, r: seq<int>)
    requires |t| == |r| && forall k {:trigger At(t, k)} {:trigger At(r, k)} :: 0 <= k < |t| ==> At(t, k) == At(r, k)
    ensures t == r
  {
    forall k | 0 <= k < |t| ensures t[k] == r[k] { assert At(t, k) == At(r, k); }
  }

  /** The frames from f to f + n are in use, or no longer; the others are as they were. */
  ghost predicate BitsSet(pmat: seq<bv8>, f: int, n: int, r: seq<bv8>) {
    |r| == |pmat| && forall g {:trigger Used(r, g)} {:trigger Used(pmat, g)} ::
      Used(r, g) <==> f <= g < f + n || Used(pmat, g)
  }

  ghost predicate BitsCleared(pmat: seq<bv8>, f: int, n: int, r: seq<bv8>) {
    |r| == |pmat| && forall g {:trigger Used(r, g)} {:trigger Used(pmat, g)} ::
      Used(r, g) <==> Used(pmat, g) && !(f <= g < f + n)
  }

  /** Taking a run of free frames and giving it back leaves the bitmap, byte for byte, as it was. */
  lemma SetThenCleared(p: seq<bv8>, f: int, n: int, q: seq<bv8>, r: seq<bv8>)
    requires BitsSet(p, f, n, q) && BitsCleared(q, f, n, r)
      && forall g {:trigger Used(p, g)} :: f <= g < f + n ==> !Used(p, g)
    ensures r == p
  {
    hide Used;
    forall g ensures Used(r, g) <==> Used(p, g) {
      assert Used(q, g) <==> f <= g < f + n || Used(p, g);
    }
    SameUses(r, p);
  }

  lemma MappedThenZeroed(t: seq<int>, s: int, f: int, n: int, flags: int)
    requires 0 <= s && s + n <= |t| && forall k {:trigger At(t, k)} :: s <= k < s + n ==> At(t, k) == 0
    ensures ZeroRun(MapRun(t, s, f, n, flags), s, n) == t
  {
    SameTable(ZeroRun(MapRun(t, s, f, n, flags), s, n), t) by {
      forall k {:trigger At(t, k)} | 0 <= k < |t| ensures At(ZeroRun(MapRun(t, s, f, n, flags), s, n), k) == At(t, k) {
        assert At(MapRun(t, s, f, n, flags), k) == if s <= k < s + n then Entry(f + k - s, flags) else At(t, k);
      }
    }
  }

  /** How many of the n entries from slot s on are mapped before the first that is not. */
  ghost function Lead(table: seq<int>, s: int, n: int): (m: int)
    ensures n >= 0 ==> 0 <= m <= n
    decreases n
  {
    if n <= 0 || At(table, s) == 0 then 0 else 1 + Lead(table, s + 1, n - 1)
  }

  lemma {:induction false} LeadIs(table: seq<int>, s: int, n: int, m: int)
    requires 0 <= m <= n && (forall k {:trigger At(table, k)} :: s <= k < s + m ==> At(table, k) != 0)
      && (m == n || At(table, s + m) == 0)
    ensures Lead(table, s, n) == m
    decreases n
  {
    if m > 0 {
      assert At(table, s) != 0;
      LeadIs(table, s + 1, n - 1, m - 1);
    }
  }

  /** How many of the frames from f on are in use before the first that is not. */
  ghost function LeadUsed(pmat: seq<bv8>, f: int, n: int): (m: int)
    ensures n >= 0 ==> 0 <= m <= n
    decreases n
  {
    if n <= 0 || !Used(pmat, f) then 0 else 1 + LeadUsed(pmat, f + 1, n - 1)
  }

  lemma {:induction false} LeadUsedIs(pmat: seq<bv8>, f: int, n: int, m: int)
    requires 0 <= m <= n && (forall g {:trigger Used(pmat, g)} :: f <= g < f + m ==> Used(pmat, g))
      && (m == n || !Used(pmat, f + m))
    ensures LeadUsed(pmat, f, n) == m
    decreases n
  {
    hide Used;
    if m > 0 {
      assert Used(pmat, f);
      LeadUsedIs(pmat, f + 1, n - 1, m - 1);
    }
  }

  datatype Allocation = Allocated(virt: int, phys: int) | NoFrames | Halted

  /** The n frames from f on are taken: they are the first free run of frames, and pmat' has their bits set. */
  ghost predicate TakesFrames(pmat: seq<bv8>, n: int, f: int, pmat': seq<bv8>) {
    Least(FrameUse(pmat), n, f) && BitsSet(pmat, f, n, pmat')
  }

  /** The n entries from slot s on, the first free run of slots, map the frames from f on. */
  ghost predicate TakesSlots(table: seq<int>, n: int, s: int, f: int, flags: int, table': seq<int>) {
    Least(SlotUse(table), n, s) && table' == MapRun(table, s, f, n, flags)
  }

  /** What MmAllocPagesRaw does to the bitmap and to the table it maps in, whose first slot is at the address base. */
  ghost predicate Allocates(pmat: seq<bv8>, table: seq<int>, base: int, n: int, flags: int, r: Allocation,
                            pmat': seq<bv8>, table': seq<int>) {
    match r
    case Allocated(virt, phys) =>
      phys % PAGE == 0 && virt % PAGE == 0 && TakesFrames(pmat, n, phys / PAGE, pmat')
        && TakesSlots(table, n, (virt - base) / PAGE, phys / PAGE, flags, table')
    case NoFrames => NoneBelow(FrameUse(pmat), n, FRAMES - n) && pmat' == pmat && table' == table
    case Halted =>
      (exists f :: TakesFrames(pmat, n, f, pmat')) && NoneBelow(SlotUse(table), n, SLOTS - n) && table' == table
  }

  /** What kunmap_Page does to a table: the entries from slot s on are cleared up to the first that is clear already. */
  ghost predicate Unmaps(table: seq<int>, s: int, n: int, phys: int, ok: bool, table': seq<int>) {
    var m := Lead(table, s, n);
    table' == ZeroRun(table, s, m) && phys == At(table, s) - At(table, s) % PAGE && (ok <==> m == n)
  }

  /** The loops of MmAllocPagesRaw over the bitmap. */
  method TakeFrames(pmat: array<bv8>, n: int) returns (f: int)
    requires pmat.Length == 2048 && 1 <= n <= FRAMES
    modifies pmat
    ensures f >= 0 ==> TakesFrames(old(pmat[..]), n, f, pmat[..])
    ensures f < 0 ==> NoneBelow(FrameUse(pmat[..]), n, FRAMES - n) && pmat[..] == old(pmat[..])
  {
    hide Used, SetBit, Least, NoneBelow;
    f := FindFrames(pmat, n);
    if f < 0 { return; }
    InBounds(FrameUse(pmat[..]), n, f);
    ghost var P := pmat[..];
    var j := 0;
    while j < n
      invariant 0 <= j <= n && BitsSet(P, f, j, pmat[..])
    {
      SetUsesAll(pmat[..], f + j);
      pmat[(f + j) / 8] := pmat[(f + j) / 8] | Mask((f + j) % 8);
      j := j + 1;
    }
  }

  lemma InBounds(taken: seq<bool>, n: int, i: int)
    requires Least(taken, n, i)
    ensures 0 <= i < |taken| - n && forall j {:trigger taken[j]} :: i <= j < i + n ==> !taken[j]
  {
  }

  lemma SetUsesAll(pmat: seq<bv8>, f: int)
    requires 0 <= f < 8 * |pmat|
    ensures pmat[f / 8 := pmat[f / 8] | Mask(f % 8)] == SetBit(pmat, f)
    ensures forall g {:trigger Used(SetBit(pmat, f), g)} {:trigger Used(pmat, g)} ::
      Used(SetBit(pmat, f), g) <==> g == f || Used(pmat, g)
  {
    hide Used;
    forall g ensures Used(SetBit(pmat, f), g) <==> g == f || Used(pmat, g) { SetUses(pmat, f, g); }
  }
}
