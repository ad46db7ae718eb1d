/** The whole-block half of the allocator, in place. */
module BlockHeaps {
  import opened FreeList
  import opened Blocks

  const INITIAL_ENTRIES := 1024
  const FINAL_FREE_BLOCKS := 8

  datatype Option<T> = None | Some(value: T)

  /** A request for blocks that the system was asked for, and its answer. */
  datatype Request = Granted(n: int) | Refused(n: int)

  /** Blocks taken by a table of n entries of 12 bytes; n is a multiple of 1024, so there is no remainder. */
  function TableBlocks(n: int): int { n / 1024 * 3 }

  /** own2 is own1, or own1 after the free blocks from the new limit l2 up to the old limit l1 went back to the
      system. */
  ghost predicate Released(own1: Owners, own2: Owners, l1: int, l2: int) {
    || (l2 == l1 && own2 == own1)
    || (l2 <= l1 - FINAL_FREE_BLOCKS && own2 == Unpaint(own1, l2, l1 - l2)
        && forall j {:trigger Own(own1, j)} :: l2 <= j < l1 ==> Own(own1, j) == 0)
  }

  /** Nothing that was asked for since then was refused. */
  ghost predicate Willing(before: seq<Request>, after: seq<Request>) {
    forall i {:trigger after[i]} :: |before| <= i < |after| ==> after[i].Granted?
  }

  /** Held blocks lie below the break and outside the table. */
  ghost predicate Clear(own: Owners, brk: int, tab: int, n: int) {
    forall b {:trigger Own(own, b)} :: Own(own, b) != -1 ==> b < brk && !(tab <= b < tab + n)
  }

  lemma ClearPaint(own: Owners, brk: int, tab: int, k: int, b: int, n: int, v: int)
    requires Clear(own, brk, tab, k)
    requires forall j {:trigger Own(own, j)} :: b <= j < b + n ==> Own(own, j) != -1
    ensures Clear(Paint(own, b, n, v), brk, tab, k)
  {
    var own' := Paint(own, b, n, v);
    forall j {:trigger Own(own', j)} | Own(own', j) != -1 ensures j < brk && !(tab <= j < tab + k) {
      assert Own(own, j) != -1;
    }
  }

  lemma ClearTable(own: Owners, brk: int, tab: int, k: int)
    requires Clear(own, brk, tab, k)
    ensures forall j {:trigger Own(own, j)} :: tab <= j < tab + k ==> Own(own, j) == -1
  {
  }

  lemma ClearMoved(own: Owners, oldtab: int, k: int, newtab: int, newk: int, brk: int)
    requires forall j {:trigger Own(own, j)} :: Own(own, j) != -1 ==> j < newtab
    requires oldtab + k <= newtab && newtab <= brk
    ensures Clear(Paint(own, oldtab, k, oldtab), brk, newtab, newk)
  {
  }

  lemma ReleasedFacts(t: Table, S: set<int>, own: Owners, busy: map<int, int>, c: int, brk: int, limit: int, tab: int,
                      k: int)
    requires Consistent(t, S, own, busy, 0) && In(c, S) && c > 0
    requires Clear(own, brk, tab, k) && limit == brk == c + Sz(t, c) && Sz(t, c) >= FINAL_FREE_BLOCKS
    ensures Released(own, Unpaint(own, c, Sz(t, c)), limit, c)
    ensures forall newbrk :: c <= newbrk ==> Clear(Unpaint(own, c, Sz(t, c)), newbrk, tab, k)
    ensures In(Pv(t, c), S - {c}) && In(Nx(t, c), S - {c}) && Pv(t, c) != c
  {
    var own' := Unpaint(own, c, Sz(t, c));
    assert forall j {:trigger Own(own, j)} :: c <= j < limit ==> Own(own, j) == 0;
    assert forall j {:trigger Own(own', j)} :: Own(own', j) != -1 ==> Own(own, j) != -1;
    LinkedRemove(t, S, c);
  }

  lemma OwnedBy(t: Table, S: set<int>, own: Owners, busy: map<int, int>, b: int)
    requires Consistent(t, S, own, busy, 0) && b in busy
    ensures forall j {:trigger Own(own, j)} :: b <= j < b + busy[b] ==> Own(own, j) != -1
  {
    RegionFacts(t, S, own, busy, 0, b);
  }

  /** The blocks [b, b + n), which are above all held ones, get an owner. */
  lemma ClaimOwned(own0: Owners, own: Owners, tab: int, k: int, b: int, n: int)
    requires Grown(own0, own, tab, k) && n >= 1
    requires forall j {:trigger Own(own0, j)} :: tab <= j < tab + k ==> Own(own0, j) == -1
    requires forall j {:trigger Own(own, j)} :: Own(own, j) != -1 ==> j < b
    ensures Allocated(own0, Paint(own, b, n, b), b, n) && Below(Paint(own, b, n, b), b + n)
  {
    var r := Paint(own, b, n, b);
    forall j {:trigger Own(r, j)}
      ensures if b <= j < b + n then Own(r, j) == b && Own(own0, j) <= 0
        else Own(r, j) == Own(own0, j) || (Own(own0, j) == -1 && Own(r, j) == 0)
    {
      assert Own(own, j) == Own(own0, j) || (Own(own0, j) == -1 && Own(own, j) == 0);
    }
    forall j {:trigger Own(r, j)} | Own(r, j) != -1 ensures j < b + n {
      assert Own(own, j) != -1 ==> j < b;
    }
  }

  lemma ClearAbove(own: Owners, edge: int, tab: int, k: int, b: int, n: int)
    requires Clear(own, edge, tab, k) && b + n <= edge && (tab + k <= b || b + n <= tab)
    ensures Clear(Paint(own, b, n, b), edge, tab, k)
  {
    var r := Paint(own, b, n, b);
    forall j {:trigger Own(r, j)} | Own(r, j) != -1 ensures j < edge && !(tab <= j < tab + k) {
      assert b <= j < b + n || Own(own, j) != -1;
    }
  }

  lemma SeamFacts(t: Table, S: set<int>, own: Owners, busy: map<int, int>, c: int, x: int)
    requires Consistent(t, S, own, busy, x) && In(c, S) && c > 0 && x == c + Sz(t, c)
    ensures 0 <= c < |t| && c < x && Sz(t, c) >= 1
    ensures x == Nx(t, c) ==>
      In(x, S) && x < |t| && 0 <= Nx(t, x) < |t| && Nx(t, x) != x && Pv(t, x) == c && Sz(t, x) >= 1
    ensures SameEntries(t, t, busy)
  {
    assert In(Nx(t, c), S) && Sz(t, c) >= 1;
    assert In(x, S) ==> In(Nx(t, x), S);
  }

  lemma OwnRegion(own: Owners, busy: map<int, int>, b: int)
    requires Regions(own, busy) && b in busy
    ensures forall j {:trigger Own(own, j)} :: b <= j < b + busy[b] ==> Own(own, j) == b
    ensures b >= 1 && busy[b] >= 1
  {
  }

  lemma ClusterFree(t: Table, S: set<int>, own: Owners, busy: map<int, int>, c: int)
    requires Consistent(t, S, own, busy, 0) && In(c, S) && c != 0
    ensures forall j {:trigger Own(own, j)} :: c <= j < c + Sz(t, c) ==> Own(own, j) == 0
  {
  }

  lemma EntryOf(t: Table, r: Table, busy: map<int, int>, c: int)
    requires SameEntries(t, r, busy) && c in busy && Nx(t, c) == busy[c]
    ensures Nx(r, c) == busy[c]
  {
  }

  lemma UnfreeFrame(t: Table, t1: Table, t2: Table, t3: Table, busy0: map<int, int>, busy3: map<int, int>,
                    busy1: map<int, int>, busy2: map<int, int>, b: int, c: int)
    requires SameEntries(t, t1, busy0 - {b}) && SameEntries(t1, t2, busy1) && SameEntries(t2, t3, busy3)
    requires busy3 == busy0 && forall s {:trigger s in busy0} :: s in busy0 && s != b ==> s in busy1
    requires b in busy0 && Sz(t2, b) == 0 && Nx(t2, b) == busy0[b]
    ensures SameEntries(t, t3, busy0 - {b}) && Sz(t3, b) == 0 && Nx(t3, b) == busy0[b]
  {
    SameEntriesFewer(t1, t2, busy1, busy0 - {b});
    SameEntriesFewer(t2, t3, busy3, busy0 - {b});
    SameEntriesTransitive(t, t1, t2, busy0 - {b});
    SameEntriesTransitive(t, t2, t3, busy0 - {b});
  }

  ghost predicate Below(own: Owners, limit: int) {
    forall j {:trigger Own(own, j)} :: Own(own, j) != -1 ==> j < limit
  }

  lemma PaintLimited(own: Owners, b: int, n: int, v: int, limit: int)
    requires Below(own, limit) && forall j {:trigger Own(own, j)} :: b <= j < b + n ==> Own(own, j) != -1
    ensures Below(Paint(own, b, n, v), limit)
  {
    var r := Paint(own, b, n, v);
    forall j {:trigger Own(r, j)} | Own(r, j) != -1 ensures j < limit {
      assert Own(own, j) != -1;
    }
  }

  lemma PaintLimitedIf(own: Owners, b: int, n: int, v: int, limit: int)
    requires forall j {:trigger Own(own, j)} :: b <= j < b + n ==> Own(own, j) != -1
    ensures Below(own, limit) ==> Below(Paint(own, b, n, v), limit)
  {
    if Below(own, limit) { PaintLimited(own, b, n, v, limit); }
  }

  lemma ReleasedLimited(own1: Owners, own2: Owners, l1: int, l2: int)
    requires Released(own1, own2, l1, l2) && Below(own1, l1)
    ensures Below(own2, l2)
  {
    forall j {:trigger Own(own2, j)} | Own(own2, j) != -1 ensures j < l2 {
      assert Own(own1, j) != -1;
    }
  }

  /** A held block b keeps the heap from ending below it. */
  lemma TailHeld(own: Owners, c: int, b: int, limit: int, brk: int)
    requires Below(own, limit) && 0 < c < b && Own(own, b) == b
    ensures !TailFree(Paint(own, c, b - c, 0), c, limit, brk)
  {
    var r := Paint(own, c, b - c, 0);
    assert Own(r, b) == b;
  }

  lemma PaintedOwn(own2: Owners, own1: Owners, b: int, n: int)
    requires own2 == Paint(own1, b, n, b) && n >= 1
    ensures Own(own2, b) == b
  {
  }

  lemma NothingReleased(own1: Owners, own2: Owners, l1: int, l2: int)
    requires Released(own1, own2, l1, l2) && l2 == l1
    ensures own2 == own1
  {
  }

  /** own2 is own1 with the blocks of the old table, [tab, tab + k), possibly added as free blocks. */
  ghost predicate Grown(own1: Owners, own2: Owners, tab: int, k: int) {
    own2 == own1 || own2 == Paint(own1, tab, k, 0)
  }

  /** Entry e holds n blocks, and no entry passed on the way round from start does. */
  ghost predicate NextFit(t: Table, S: set<int>, start: int, e: int, n: int) {
    && In(e, S) && e > 0 && Sz(t, e) >= n
    && forall s {:trigger In(s, S)} ::
       In(s, S) && (if e < start then s >= start || s < e else start <= s < e) ==> Sz(t, s) < n
  }

  /** The free blocks around b reach up to the break, where the heap ends too, and are enough to be given back. */
  ghost predicate TailFree(own: Owners, b: int, limit: int, brk: int) {
    limit == brk && b < limit && FreeRun(own, b, limit - b)
      && FreeRun(own, limit - FINAL_FREE_BLOCKS, FINAL_FREE_BLOCKS)
  }

  lemma TailCluster(t: Table, S: set<int>, own: Owners, busy: map<int, int>, c: int, b: int, limit: int, brk: int,
                    edge: int,
                    tab: int, k: int)
    requires Consistent(t, S, own, busy, 0) && Clear(own, edge, tab, k) && edge <= brk && In(c, S)
      && 0 < c <= b < c + Sz(t, c)
    ensures TailFree(own, b, limit, brk) <==> Sz(t, c) >= 8 && c + Sz(t, c) == limit == brk
  {
    ClusterFree(t, S, own, busy, c);
    var e := c + Sz(t, c);
    assert IsStart(own, c, 0) && !Free(own, e);
    if TailFree(own, b, limit, brk) {
      assert e < limit ==> Own(own, e) == 0;
      assert e > limit ==> Own(own, limit) == 0;
      assert c > limit - FINAL_FREE_BLOCKS ==> Own(own, c - 1) == 0;
    }
  }

  class BlockHeap {
    var info: array<Info>
    var tab: int
    var heapindex: int
    var heaplimit: int
    var brk: int
    const top: int
    ghost var S: set<int>
    ghost var own: Owners
    ghost var busy: map<int, int>
    ghost var log: seq<Request>

    /** __malloc_initialize: the table takes the first blocks of the heap, entry 0 alone is on the list. */
    constructor (top: int)
      requires top >= 1 + TableBlocks(INITIAL_ENTRIES)
      ensures Valid() && Limited() && fresh(info) && this.top == top && own == map[] && busy == map[] && heaplimit == 0
      ensures log == []
    {
      var entries := new Info[INITIAL_ENTRIES](_ => Info(0, 0, 0));
      info := entries;
      tab, heapindex, heaplimit, brk := 1, 0, 0, 1 + TableBlocks(INITIAL_ENTRIES);
      this.top := top;
      S, own, busy, log := {0}, map[], map[], [];
      new;
      InitialTable(info[..]);
    }

    /** No block at or above this one has been handed out; the break may have gone beyond the end of memory. */
    ghost function Edge(): (e: int)
      reads this`brk
      ensures e <= brk && e <= top && (e == brk || e == top)
    { if brk < top then brk else top }

    ghost predicate Placed()
      reads this
    {
      && 1 <= tab && tab + TableBlocks(info.Length) <= Edge() && heaplimit <= Edge()
      && info.Length >= INITIAL_ENTRIES && info.Length % INITIAL_ENTRIES == 0
      && Clear(own, Edge(), tab, TableBlocks(info.Length))
    }

    ghost predicate Core(seam: int)
      reads this, info
    { Placed() && Consistent(info[..], S, own, busy, seam) }

    ghost predicate Valid()
      reads this, info
    { Core(0) && In(heapindex, S) }

    /** Every held block lies below the recorded end of the heap. */
    ghost predicate Limited()
      reads this
    { Below(own, heaplimit) }

    /** Nothing but the break may have moved. */
    twostate predicate Untouched()
      reads this, info
    {
      && own == old(own) && S == old(S) && busy == old(busy) && tab == old(tab)
      && heapindex == old(heapindex) && heaplimit == old(heaplimit)
      && info == old(info) && info[..] == old(info[..])
    }

    method FindPredecessor(b: int) returns (i: int)
      requires Valid() && b >= 1 && !In(b, S)
      ensures In(i, S) && i < b && (Nx(info[..], i) == 0 || b < Nx(info[..], i))
    {
      ghost var t := info[..];
      i := heapindex;
      if i > b {
        while i > b
          invariant In(i, S) && (i < b ==> Nx(t, i) == 0 || b < Nx(t, i))
        {
          assert Nx(t, Pv(t, i)) == i;
          i := info[i].w2;
        }
      } else {
        i := info[i].w1;
        assert i == Nx(t, heapindex);
        while i > 0 && i < b
          invariant In(i, S) && Pv(t, i) < b
          decreases if i == 0 then 0 else info.Length - i
        {
          ghost var n := Nx(t, i);
          i := info[i].w1;
          assert i == n;
        }
        assert Nx(t, Pv(t, i)) == i;
        i := info[i].w2;
      }
    }

    /** Puts region b, whose closest list entry below is i, on the list, merging it with i when they touch. */
    method LinkRegion(b: int, i: int) returns (c: int)
      requires Core(0) && b in busy && Nx(info[..], b) == busy[b]
      requires In(i, S) && i < b && (Nx(info[..], i) == 0 || b < Nx(info[..], i))
      modifies info, `S, `own, `busy
      ensures Core(b + old(busy)[b]) && In(c, S) && 0 < c <= b && c + Sz(info[..], c) == b + old(busy)[b]
      ensures own == Paint(old(own), b, old(busy)[b], 0) && busy == old(busy) - {b}
      ensures SameEntries(old(info[..]), info[..], busy)
    {
      hide Consistent, Clear, SameEntries;
      RegionFacts(info[..], S, own, busy, 0, b);
      EntryFacts(info[..], S, own, busy, 0, i);
      ClearPaint(own, Edge(), tab, TableBlocks(info.Length), b, busy[b], 0);
      if b == i + info[i].w0 {
        c := i;
        MergeRegion(b, i);
      } else {
        c := b;
        InsertRegion(b, i);
      }
    }

    method MergeRegion(b: int, i: int)
      requires Core(0) && b in busy && Nx(info[..], b) == busy[b]
        && Clear(Paint(own, b, busy[b], 0), Edge(), tab, TableBlocks(info.Length))
      requires In(i, S) && 0 < i < b && b == i + Sz(info[..], i)
      modifies info, `own, `busy
      ensures Core(b + old(busy)[b]) && i + Sz(info[..], i) == b + old(busy)[b]
      ensures own == Paint(old(own), b, old(busy)[b], 0) && busy == old(busy) - {b}
      ensures SameEntries(old(info[..]), info[..], busy)
    {
      hide Consistent, Clear, SameEntries;
      ghost var t := info[..];
      EntryFacts(t, S, own, busy, 0, i);
      RegionFacts(t, S, own, busy, 0, b);
      info[i] := info[i].(w0 := info[i].w0 + info[b].w1);
      MergeStep(t, S, own, busy, b, i, info[..]);
      own, busy := Paint(own, b, busy[b], 0), busy - {b};
    }

    method InsertRegion(b: int, i: int)
      requires Core(0) && b in busy && Nx(info[..], b) == busy[b]
        && Clear(Paint(own, b, busy[b], 0), Edge(), tab, TableBlocks(info.Length))
      requires In(i, S) && i < b && b != i + Sz(info[..], i) && (Nx(info[..], i) == 0 || b < Nx(info[..], i))
      modifies info, `S, `own, `busy
      ensures Core(b + old(busy)[b]) && In(b, S) && Sz(info[..], b) == old(busy)[b]
      ensures own == Paint(old(own), b, old(busy)[b], 0) && busy == old(busy) - {b}
      ensures SameEntries(old(info[..]), info[..], busy)
    {
      hide Consistent, Clear, SameEntries, Inserted;
      ghost var t := info[..];
      RegionFacts(t, S, own, busy, 0, b);
      EntryFacts(t, S, own, busy, 0, i);
      WriteInserted(b, i);
      InsertStep(t, S, own, busy, b, i, info[..]);
      S, own, busy := S + {b}, Paint(own, b, busy[b], 0), busy - {b};
    }

    method WriteInserted(b: int, i: int)
      requires 0 <= b < info.Length && 0 <= i < info.Length && 0 <= info[i].w1 < info.Length && b != i
        && b != info[i].w1
      modifies info
      ensures info[..] == Inserted(old(info[..]), i, b, old(info[b].w1))
    {
      info[b] := info[b].(w0 := info[b].w1);
      info[b] := info[b].(w1 := info[i].w1);
      info[b] := info[b].(w2 := i);
      info[i] := info[i].(w1 := b);
      info[info[b].w1] := info[info[b].w1].(w2 := b);
    }

    /** Deletes the successor of c from the list and adds in its size, when c ends where it starts. */
    method AbsorbNext(c: int)
      requires Core(c + Sz(info[..], c)) && In(c, S) && c > 0
      modifies info, `S
      ensures Core(0) && In(c, S) && SameEntries(old(info[..]), info[..], busy)
      ensures Sz(info[..], c) >= Sz(old(info[..]), c)
    {
      hide Consistent, Clear, SameEntries, Removed;
      ghost var t, x := info[..], c + Sz(info[..], c);
      SeamFacts(t, S, own, busy, c, x);
      if c + info[c].w0 == info[c].w1 {
        ghost var t1 := WriteAbsorbed(c);
        AbsorbStep(t, S, own, busy, c, x, t1, info[..]);
        S := S - {x};
      } else {
        SealStep(t, S, own, busy, c, x);
      }
    }

    method WriteAbsorbed(c: int) returns (ghost t1: Table)
      requires 0 <= c < info.Length && c < info[c].w1 < info.Length
      requires var x := info[c].w1; 0 <= info[x].w1 < info.Length && info[x].w1 != x && info[x].w2 == c
      modifies info
      ensures var t, x := old(info[..]), old(info[c].w1);
        t1 == t[c := t[c].(w0 := Sz(t, c) + Sz(t, x))] && info[..] == Removed(t1, x) && Sz(info[..], c) == Sz(t1, c)
    {
      info[c] := info[c].(w0 := info[c].w0 + info[info[c].w1].w0);
      t1 := info[..];
      info[c] := info[c].(w1 := info[info[c].w1].w1);
      info[info[c].w1] := info[info[c].w1].(w2 := c);
    }

    /** sbrk of a negative size: the region is given up, and the break moves up by its size, not down. */
    method GiveBack(n: int)
      requires n >= 0
      modifies `brk
      ensures brk == old(brk) + n && old(Edge()) <= Edge()
    {
      brk := brk + n;
    }

    /** Returns a long enough cluster c at the very end of the heap to the system; d is where the next search begins. */
    method ReleaseTail(c: int) returns (d: int)
      requires Core(0) && In(c, S) && c > 0
      modifies info, `S, `own, `heaplimit, `brk
      ensures Core(0) && In(d, S) && SameEntries(old(info[..]), info[..], busy)
      ensures Released(old(own), own, old(heaplimit), heaplimit)
      ensures heaplimit == old(heaplimit) ==> d == c && brk == old(brk) && info[..] == old(info[..])
      ensures heaplimit != old(heaplimit) ==> heaplimit == c && brk == old(brk) + (old(heaplimit) - heaplimit)
      ensures heaplimit != old(heaplimit) <==>
        old(Sz(info[..], c)) >= FINAL_FREE_BLOCKS && c + old(Sz(info[..], c)) == old(heaplimit) == old(brk)
    {
      hide Consistent, Clear, SameEntries;
      ghost var t := info[..];
      EntryFacts(t, S, own, busy, 0, c);
      d := c;
      var blocks := info[c].w0;
      if blocks >= FINAL_FREE_BLOCKS && c + blocks == heaplimit && brk == c + blocks {
        ReleasedFacts(t, S, own, busy, c, brk, heaplimit, tab, TableBlocks(info.Length));
        heaplimit := heaplimit - blocks;
        GiveBack(blocks);
        info[info[c].w2] := info[info[c].w2].(w1 := info[c].w1);
        info[info[c].w1] := info[info[c].w1].(w2 := info[c].w2);
        d := info[c].w2;
        ReleaseStep(t, S, own, busy, c, info[..]);
        S, own := S - {c}, Unpaint(own, c, blocks);
      }
    }

    /** Region b goes on the list, merged with the clusters it touches; it ends up in the cluster c. */
    method Relist(b: int) returns (c: int)
      requires Valid() && b in busy && Nx(info[..], b) == busy[b]
      modifies info, `S, `own, `busy
      ensures Core(0) && In(c, S) && 0 < c <= b && c + Sz(info[..], c) >= b + old(busy)[b] > b
      ensures own == Paint(old(own), b, old(busy)[b], 0) && busy == old(busy) - {b}
      ensures SameEntries(old(info[..]), info[..], busy)
    {
      hide Consistent, Clear, SameEntries, Placed;
      ghost var t := info[..];
      RegionFacts(t, S, own, busy, 0, b);
      var i := FindPredecessor(b);
      c := LinkRegion(b, i);
      ghost var t1 := info[..];
      AbsorbNext(c);
      SameEntriesTransitive(t, t1, info[..], busy);
    }

    /** The whole-block half of __free. */
    method FreeBlocks(b: int)
      requires Valid() && b in busy && Nx(info[..], b) == busy[b]
      modifies info, `S, `own, `busy, `heapindex, `heaplimit, `brk
      ensures Valid() && busy == old(busy) - {b} && SameEntries(old(info[..]), info[..], busy)
      ensures Released(Paint(old(own), b, old(busy)[b], 0), own, old(heaplimit), heaplimit)
      ensures heaplimit == old(heaplimit) ==> brk == old(brk)
      ensures heaplimit == old(heaplimit) ==>
        0 < heapindex <= b && heapindex + Sz(info[..], heapindex) >= b + old(busy)[b]
      ensures heaplimit != old(heaplimit) ==> heaplimit <= b && brk == old(brk) + (old(heaplimit) - heaplimit)
      // the tail of the heap goes back to the system exactly when it is free, long enough, and ends at the break
      ensures heaplimit != old(heaplimit) <==>
        TailFree(Paint(old(own), b, old(busy)[b], 0), b, old(heaplimit), old(brk))
      ensures old(Limited()) ==> Limited()
    {
      hide Consistent, Clear, SameEntries, TailFree, Paint, Below;
      ghost var t, n, limit, own0 := info[..], busy[b], heaplimit, own;
      OwnedBy(t, S, own, busy, b);
      var c := Relist(b);
      ghost var t1, own1 := info[..], own;
      TailCluster(t1, S, own, busy, c, b, heaplimit, brk, Edge(), tab, TableBlocks(info.Length));
      var d := ReleaseTail(c);
      heapindex := d;
      if Below(own0, limit) {
        PaintLimited(own0, b, n, 0, limit);
        ReleasedLimited(own1, own, limit, heaplimit);
      }
      SameEntriesTransitive(t, t1, info[..], busy);
    }

    /** (*_morecore)(n blocks): fails without effect, or hands out the n blocks at the break. */
    method Sbrk(n: int) returns (r: Option<int>)
      requires n >= 0
      modifies `brk, `log
      ensures r.None? ==> brk == old(brk) && log == old(log) + [Refused(n)]
      ensures r.Some? ==> r.value == old(brk) && brk == old(brk) + n <= top && log == old(log) + [Granted(n)]
    {
      var granted: bool := *;
      if granted && brk + n <= top {
        r := Some(brk);
        brk := brk + n;
        log := log + [Granted(n)];
      } else {
        r := None;
        log := log + [Refused(n)];
      }
    }

    /** Somebody else's sbrk: the break moves up between two calls. */
    method MoveBreak(n: int)
      requires Valid() && n >= 0
      modifies `brk, `log
      ensures Valid() && old(brk) <= brk && log == old(log)
    {
      hide Consistent;
      ghost var before := log;
      var r := Sbrk(n);
      log := before;
    }

    /** The doubling loop of morecore. */
    method EnoughEntries(limit: int) returns (newsize: int)
      requires info.Length >= INITIAL_ENTRIES && info.Length % INITIAL_ENTRIES == 0
      ensures newsize >= limit && newsize >= info.Length && newsize % INITIAL_ENTRIES == 0
      ensures newsize == info.Length || newsize < 2 * limit
    {
      newsize := info.Length;
      ghost var k := newsize / INITIAL_ENTRIES;
      while limit > newsize
        invariant newsize >= info.Length && newsize == INITIAL_ENTRIES * k
        invariant newsize == info.Length || newsize < 2 * limit
        decreases limit - newsize
      {
        newsize := newsize * 2;
        k := k * 2;
      }
    }

    /** The table is copied to block newtab with newsize entries; its old blocks become a busy region. */
    method CopyTable(newtab: int, newsize: int)
      requires Valid() && newsize > info.Length && newsize % INITIAL_ENTRIES == 0
      requires forall j {:trigger Own(own, j)} :: Own(own, j) != -1 ==> j < newtab
      requires tab + TableBlocks(info.Length) <= newtab && newtab + TableBlocks(newsize) <= Edge()
      requires tab + TableBlocks(info.Length) < newsize
      modifies `info, `tab, `own, `busy
      ensures fresh(info) && info.Length == newsize && tab == newtab
      ensures old(tab) !in old(busy) && busy == old(busy)[old(tab) := TableBlocks(old(info.Length))]
        && IsLarge(old(tab))
      ensures SameEntries(old(info[..]), info[..], old(busy))
      ensures own == Paint(old(own), old(tab), TableBlocks(old(info.Length)), old(tab))
      ensures Valid()
    {
      hide Consistent, Clear, SameEntries, Below, Paint;
      ghost var t := info[..];
      var oldtab, k := tab, TableBlocks(info.Length);
      var oldinfo := info;
      var newinfo := new Info[newsize](i requires 0 <= i reads oldinfo => if i < oldinfo.Length then oldinfo[i]
        else Info(0, 0, 0));
      ghost var t1 := newinfo[..];
      assert forall i :: 0 <= i < |t| ==> t1[i] == t[i];
      CopyStep(t, S, own, busy, t1);
      ClearTable(own, Edge(), oldtab, k);
      newinfo[oldtab] := newinfo[oldtab].(w0 := 0, w1 := k);
      ClaimStep(t1, S, own, busy, oldtab, k, newinfo[..]);
      SameEntriesTransitive(t, t1, newinfo[..], busy);
      ClearMoved(own, oldtab, k, newtab, TableBlocks(newsize), Edge());
      info, tab := newinfo, newtab;
      own, busy := Paint(own, oldtab, k, oldtab), busy[oldtab := k];
    }

    /** Moves the table, and frees the blocks of the old one. */
    method MoveTable(newtab: int, newsize: int)
      requires Valid() && newsize > info.Length && newsize % INITIAL_ENTRIES == 0
      requires forall j {:trigger Own(own, j)} :: Own(own, j) != -1 ==> j < newtab
      requires tab + TableBlocks(info.Length) <= newtab && newtab + TableBlocks(newsize) <= Edge()
      requires tab + TableBlocks(info.Length) < newsize && heaplimit < brk
      modifies this, info
      ensures fresh(info) && info.Length == newsize && tab == newtab && brk == old(brk) && heaplimit == old(heaplimit)
      ensures busy == old(busy) && SameEntries(old(info[..]), info[..], busy) && log == old(log)
      ensures own == Paint(old(own), old(tab), TableBlocks(old(info.Length)), 0)
      ensures Valid()
    {
      hide Consistent, Clear, SameEntries, Below, Paint;
      ghost var t, oldbusy := info[..], busy;
      var oldtab := tab;
      PaintTwice(own, oldtab, TableBlocks(info.Length), oldtab, 0);
      CopyTable(newtab, newsize);
      ghost var t1 := info[..];
      FreeBlocks(oldtab);
      assert busy == oldbusy;
      SameEntriesTransitive(t, t1, info[..], busy);
    }

    /** morecore(): n fresh blocks, growing the table when it is too short for them. */
    method Morecore(n: int) returns (r: Option<int>)
      requires Valid() && n >= 1
      modifies this, info
      ensures Valid() && busy == old(busy) && SameEntries(old(info[..]), info[..], busy)
      ensures info == old(info) || fresh(info)
      ensures r.None? ==> Untouched() && (brk == old(brk) || brk == old(brk) + 2 * n)
      ensures r.Some? ==> Fresh(r.value, n) && r.value == old(brk) && heaplimit == r.value + n
      ensures r.Some? ==> Grown(old(own), own, old(tab), TableBlocks(old(info.Length)))
      ensures info == old(info) ==> S == old(S) && info[..] == old(info[..])
      // it asks for the blocks, and may then ask for those of a longer table; it fails when it is refused either
      ensures old(log) < log && |log| <= |old(log)| + 2 && log[|old(log)|].n == n
      ensures (r.None? <==> log[|log| - 1].Refused?) && (|log| == |old(log)| + 2 ==> log[|old(log)|].Granted?)
    {
      hide Consistent, SameEntries;
      BelowBreak();
      EntryFacts(info[..], S, own, busy, 0, heapindex);
      r := Sbrk(n);
      if r.Some? {
        var result := r.value;
        if result + n > info.Length {
          var newsize := EnoughEntries(result + n);
          var t := Sbrk(TableBlocks(newsize));
          if t.None? {
            GiveBack(n);
            return None;
          }
          MoveTable(t.value, newsize);
        }
        heaplimit := result + n;
      }
    }

    /** [b, b + n) was just obtained: inside the table's reach, above everything held, clear of the table. */
    ghost predicate Fresh(b: int, n: int)
      reads this
    {
      && 1 <= b && b + n <= Edge() && b + n <= info.Length
      && (forall j {:trigger Own(own, j)} :: Own(own, j) != -1 ==> j < b)
      && (tab + TableBlocks(info.Length) <= b || b + n <= tab)
    }

    lemma BelowBreak()
      requires Placed()
      ensures forall j {:trigger Own(own, j)} :: Own(own, j) != -1 ==> j < brk
    {
    }

    /** The circular search for a cluster of at least n blocks, from the last place visited. */
    method FindFit(n: int) returns (r: Option<int>)
      requires Valid() && n >= 1
      ensures r.Some? ==> In(r.value, S) && r.value > 0 && Sz(info[..], r.value) >= n
      ensures r.Some? ==> NextFit(info[..], S, heapindex, r.value, n)
      ensures r.None? ==> forall s {:trigger In(s, S)} :: In(s, S) ==> Sz(info[..], s) < n
    {
      ghost var t, wrapped := info[..], false;
      var start := heapindex;
      var block := start;
      while info[block].w0 < n
        invariant In(block, S) && 0 <= block < info.Length && (if wrapped then block < start else start <= block)
        invariant forall s {:trigger In(s, S)} ::
          In(s, S) && (if wrapped then s >= start || s < block else start <= s < block) ==> Sz(t, s) < n
        decreases !wrapped, info.Length - block
      {
        ghost var was := block;
        assert In(Nx(t, block), S) && Sz(t, block) < n;
        block := info[block].w1;
        assert block == Nx(t, was);
        if block == start {
          return None;
        }
        wrapped := wrapped || block == 0;
      }
      r := Some(block);
    }

    /** Extends the last cluster to n blocks when the break is right behind it. */
    method ExtendLast(n: int) returns (r: Option<int>)
      requires Valid() && n >= 1 && NoRoom(own, n)
      modifies this, info
      ensures Valid() && busy == old(busy) && SameEntries(old(info[..]), info[..], busy) && Widened(old(own), own)
      ensures info == old(info) || fresh(info)
      ensures r.None? ==> Untouched()
      ensures r.Some? ==> In(r.value, S) && r.value > 0 && Sz(info[..], r.value) >= n
      ensures r.Some? ==> forall j {:trigger Own(own, j)} :: Own(own, j) != -1 ==> j < heaplimit
      // it asks for what the last cluster c is short of, if c ends both the heap and the break, and else for nothing
      ensures old(log) <= log && (r.Some? ==> log != old(log)) && (log == old(log) ==> brk == old(brk))
      ensures log != old(log) ==> (r.None? <==> log[|log| - 1].Refused?) && old(brk) == old(heaplimit)
      ensures log != old(log) ==> exists c {:trigger In(c, old(S))} ::
        In(c, old(S)) && c > 0 && c + Sz(old(info[..]), c) == old(brk)
      ensures forall c {:trigger In(c, old(S))} ::
        In(c, old(S)) && c > 0 && c + Sz(old(info[..]), c) == old(brk) == old(heaplimit) ==>
          && |log| > |old(log)| && log[|old(log)|].n == n - Sz(old(info[..]), c)
          && (r.Some? ==> r.value <= c && (info == old(info) ==> r.value == c) && heaplimit == c + n)
    {
      hide Consistent, SameEntries;
      ghost var t := info[..];
      ListFacts(t, S, own, busy, 0);
      var block := info[0].w2;
      EntryFacts(t, S, own, busy, 0, block);
      var last := info[block].w0;
      r := None;
      BelowBreak();
      forall c {:trigger In(c, S)} | In(c, S) && c > 0 && c + Sz(t, c) == brk ensures c == block {
        EndsLast(t, S, own, busy, c, brk);
      }
      if heaplimit != 0 && block + last == heaplimit && brk == block + last {
        ClusterTooSmall(t, S, own, busy, block, n);
        assert In(block, S);
        var m := Morecore(n - last);
        if m.Some? {
          ghost var t1 := info[..];
          block := StretchLast(block, m.value, n - last);
          SameEntriesTransitive(t, t1, info[..], busy);
          r := Some(block);
        }
      }
    }

    /** The free blocks [from, e) end the heap; the d fresh blocks behind them join the last cluster. */
    method StretchLast(ghost from: int, ghost e: int, d: int) returns (block: int)
      requires Valid() && Fresh(e, d) && d >= 1 && heaplimit == e + d
      requires from < e && forall j {:trigger Own(own, j)} :: from <= j < e ==> Own(own, j) == 0
      modifies info, `own
      ensures Valid() && SameEntries(old(info[..]), info[..], busy) && own == Paint(old(own), e, d, 0)
      ensures In(block, S) && 0 < block <= from && block + Sz(info[..], block) == e + d && block == old(Pv(info[..], 0))
    {
      hide Consistent, SameEntries;
      ghost var t := info[..];
      ListFacts(t, S, own, busy, 0);
      LastCluster(t, S, own, busy, from, e);
      block := info[0].w2;
      info[block] := info[block].(w0 := info[block].w0 + d);
      ExtendStep(t, S, own, busy, block, e, d, info[..]);
      own := Paint(own, e, d, 0);
    }

    /** Removes the n blocks it needs from the front of list entry b. */
    method Take(b: int, n: int)
      requires Valid() && In(b, S) && b > 0 && 1 <= n <= Sz(info[..], b)
      modifies info, `S, `own, `busy, `heapindex
      ensures Valid() && b !in old(busy) && busy == old(busy)[b := n] && own == Paint(old(own), b, n, b)
      ensures SameEntries(old(info[..]), info[..], old(busy)) && IsLarge(b)
      ensures FreeRun(old(own), b, n)
      ensures n < old(Sz(info[..], b)) ==> heapindex == b + n && Sz(info[..], b + n) == old(Sz(info[..], b)) - n
      ensures n == old(Sz(info[..], b)) ==> heapindex == old(Nx(info[..], b))
    {
      hide Consistent, SameEntries, Clear, Moved, Removed;
      ghost var t := info[..];
      TakeFacts(t, S, own, busy, b, n);
      ClearPaint(own, Edge(), tab, TableBlocks(info.Length), b, n, b);
      if info[b].w0 > n {
        TakeFront(b, n);
        TakeSplitStep(t, S, own, busy, b, n, Moved(t, b, b + n, Sz(t, b) - n), info[..]);
        S := S - {b} + {b + n};
      } else {
        TakeAll(b, n);
        TakeExactStep(t, S, own, busy, b, n, Removed(t, b), info[..]);
        S := S - {b};
      }
      own, busy := Paint(own, b, n, b), busy[b := n];
    }

    ghost predicate IsLarge(b: int)
      reads this, info
    { b in busy && Sz(info[..], b) == 0 && Nx(info[..], b) == busy[b] }

    method TakeFront(b: int, n: int)
      requires 0 <= b < b + n < info.Length && 0 <= info[b].w1 < info.Length && 0 <= info[b].w2 < info.Length
      requires info[b].w1 != b && info[b].w2 != b && info[b].w1 != b + n && info[b].w2 != b + n
      modifies info, `heapindex
      ensures var t := old(info[..]); var t1 := Moved(t, b, b + n, Sz(t, b) - n);
        info[..] == t1[b := t1[b].(w0 := 0, w1 := n)]
      ensures heapindex == b + n && info[b + n].w0 == old(info[b].w0) - n && info[b].w0 == 0 && info[b].w1 == n
    {
      info[b + n] := info[b + n].(w0 := info[b].w0 - n);
      info[b + n] := info[b + n].(w1 := info[b].w1);
      info[b + n] := info[b + n].(w2 := info[b].w2);
      heapindex := b + n;
      info[info[b].w1] := info[info[b].w1].(w2 := heapindex);
      info[info[b].w2] := info[info[b].w2].(w1 := heapindex);
      info[b] := info[b].(w0 := 0);
      info[b] := info[b].(w1 := n);
    }

    method TakeAll(b: int, n: int)
      requires 0 <= b < info.Length && 0 <= info[b].w1 < info.Length && 0 <= info[b].w2 < info.Length
      requires info[b].w1 != b && info[b].w2 != b
      modifies info, `heapindex
      ensures var t := old(info[..]); var t1 := Removed(t, b); info[..] == t1[b := t1[b].(w0 := 0, w1 := n)]
      ensures heapindex == old(info[b].w1) && info[b].w0 == 0 && info[b].w1 == n
    {
      info[info[b].w1] := info[info[b].w1].(w2 := info[b].w2);
      heapindex := info[b].w1;
      info[info[b].w2] := info[info[b].w2].(w1 := heapindex);
      info[b] := info[b].(w0 := 0);
      info[b] := info[b].(w1 := n);
    }

    /** A region of its own from the system, when the list cannot serve the request. */
    method ClaimFresh(n: int) returns (r: Option<int>)
      requires Valid() && n >= 1
      modifies this, info
      ensures Valid() && (info == old(info) || fresh(info)) && SameEntries(old(info[..]), info[..], old(busy))
      ensures r.None? ==> Untouched()
      ensures r.Some? ==> r.value !in old(busy) && busy == old(busy)[r.value := n] && IsLarge(r.value)
      ensures r.Some? ==> Allocated(old(own), own, r.value, n) && Limited()
      ensures r.Some? ==> r.value == old(brk) && heaplimit == r.value + n
      ensures old(log) < log && |log| <= |old(log)| + 2 && log[|old(log)|].n == n
      ensures (r.None? <==> log[|log| - 1].Refused?) && (|log| == |old(log)| + 2 ==> log[|old(log)|].Granted?)
    {
      hide Consistent, SameEntries, Allocated, Grown, Paint, Below, Clear;
      ghost var t, own0, tab0, k := info[..], own, tab, TableBlocks(info.Length);
      ClearTable(own, Edge(), tab, k);
      r := Morecore(n);
      if r.Some? {
        var b := r.value;
        ghost var t1 := info[..];
        ClaimOwned(own0, own, tab0, k, b, n);
        ClearAbove(own, Edge(), tab, TableBlocks(info.Length), b, n);
        info[b] := info[b].(w0 := 0);
        info[b] := info[b].(w1 := n);
        ClaimStep(t1, S, own, busy, b, n, info[..]);
        SameEntriesTransitive(t, t1, info[..], busy);
        own, busy := Paint(own, b, n, b), busy[b := n];
      }
    }

    /** The whole-block half of __malloc. */
    method AllocBlocks(n: int) returns (r: Option<int>)
      requires Valid() && Limited() && n >= 1
      modifies this, info
      ensures r.None? ==> Untouched()
      ensures r.Some? ==> r.value !in old(busy) && busy == old(busy)[r.value := n] && IsLarge(r.value)
      ensures r.Some? ==> Allocated(old(own), own, r.value, n)
      // the heap grows, or the request fails, only when no n consecutive blocks are free
      ensures r.None? || own.Keys != old(own.Keys) ==> NoRoom(old(own), n)
      // otherwise it is served from the front of the first cluster that fits, going round from the search position
      ensures !NoRoom(old(own), n) ==>
        r.Some? && NextFit(old(info[..]), old(S), old(heapindex), r.value, n)
          && own == Paint(old(own), r.value, n, r.value)
      ensures old(Sz(info[..], heapindex)) >= n ==>
        r == Some(old(heapindex)) && own == Paint(old(own), r.value, n, r.value) && log == old(log)
      ensures old(Sz(info[..], heapindex)) > n ==>
        heapindex == r.value + n && Sz(info[..], heapindex) == old(Sz(info[..], heapindex)) - n
      // the system is asked only when no n consecutive blocks are free, and the request fails only when the system has
      // just refused n blocks, or a longer table for them
      ensures old(log) <= log && (!NoRoom(old(own), n) ==> log == old(log))
      ensures r.None? ==> old(log) < log && log[|log| - 1].Refused?
      ensures r.None? ==> log[|log| - 1].n == n || (|log| >= |old(log)| + 2 && log[|log| - 2] == Granted(n))
      // a last cluster c that ends both the heap and the break is extended by what it is short of, if the system
      // agrees, and starts where it did, unless the longer table has left its old blocks to it
      ensures NoRoom(old(own), n) ==> forall c {:trigger In(c, old(S))} ::
        In(c, old(S)) && c > 0 && c + Sz(old(info[..]), c) == old(brk) == old(heaplimit) ==>
          && |log| > |old(log)| && log[|old(log)|].n == n - Sz(old(info[..]), c)
          && (Willing(old(log), log) ==>
                r.Some? && r.value <= c && (info == old(info) ==> r.value == c) && heaplimit == c + n)
      // else the blocks come straight from the break
      ensures NoRoom(old(own), n) && Willing(old(log), log) ==>
        || (r == Some(old(brk)) && heaplimit == old(brk) + n)
        || exists c {:trigger In(c, old(S))} ::
             In(c, old(S)) && c > 0 && c + Sz(old(info[..]), c) == old(brk) == old(heaplimit)
      ensures (info == old(info) || fresh(info)) && SameEntries(old(info[..]), info[..], old(busy))
      ensures Valid() && Limited()
    {
      hide Consistent, SameEntries, Clear, NoRoom;
      ghost var t := info[..];
      var f := FindFit(n);
      var block;
      if f.None? {
        NoClusterFits(t, S, own, busy, n);
        var e := ExtendLast(n);
        ghost var asked := log;
        if e.None? {
          r := ClaimFresh(n);
          if asked != old(log) { assert log[|asked| - 1] == asked[|asked| - 1]; }
          if r.None? { assert log[|log| - 1].Refused?; }
          return;
        }
        block := e.value;
      } else {
        block := f.value;
        FitsHasRoom(t, S, own, busy, block, n);
      }
      ghost var t1, own1 := info[..], own;
      Take(block, n);
      TakeAllocated(old(own), own1, block, n);
      SameEntriesTransitive(t, t1, info[..], old(busy));
      r := Some(block);
    }

    /** Cuts region b down to its first n blocks and frees the rest. */
    method ShrinkRegion(b: int, n: int)
      requires Valid() && IsLarge(b) && 1 <= n < busy[b]
      modifies info, `S, `own, `busy, `heapindex, `heaplimit, `brk
      ensures busy == old(busy)[b := n] && IsLarge(b) && SameEntries(old(info[..]), info[..], busy - {b})
      ensures Released(Paint(old(own), b + n, old(busy)[b] - n, 0), own, old(heaplimit), heaplimit)
      ensures heaplimit != old(heaplimit) <==>
        TailFree(Paint(old(own), b + n, old(busy)[b] - n, 0), b + n, old(heaplimit), old(brk))
      ensures old(Limited()) ==> Limited()
      ensures Valid()
    {
      hide Consistent, Clear, SameEntries, Below, Released, Paint, TailFree;
      ghost var t, rest := info[..], busy[b] - n;
      RegionFacts(t, S, own, busy, 0, b);
      ClearPaint(own, Edge(), tab, TableBlocks(info.Length), b + n, rest, b + n);
      PaintLimitedIf(own, b + n, rest, b + n, heaplimit);
      PaintTwice(own, b + n, rest, b + n, 0);
      info[b + n] := info[b + n].(w0 := 0);
      info[b + n] := info[b + n].(w1 := info[b].w1 - n);
      info[b] := info[b].(w1 := n);
      ShrinkStep(t, S, own, busy, b, n, info[..]);
      own, busy := Paint(own, b + n, rest, b + n), busy[b := n][b + n := rest];
      ghost var t1 := info[..];
      FreeBlocks(b + n);
      assert busy == old(busy)[b := n];
      ShrinkFrame(t, t1, info[..], busy, b, n);
    }

    /** Rewrites the header of a busy block. */
    method SetHeader(b: int, e: Info)
      requires Valid() && b in busy && 0 <= b < info.Length
      modifies info
      ensures info[..] == old(info[..])[b := e] && Valid()
    {
      hide Consistent, Clear;
      HeaderStep(info[..], S, own, busy, b, e);
      info[b] := e;
    }

    /** The undo when region b was merged with the cluster c below it: the blocks between are handed out, then b, and
        then the ones between are freed again. */
    method UnfreeInside(b: int, n: int, ghost own0: Owners, ghost busy0: map<int, int>)
      requires Valid() && Limited() && In(heapindex, S) && 0 < heapindex < b && n >= 1
        && heapindex + Sz(info[..], heapindex) >= b + n
      requires own == Paint(own0, b, n, 0) && b in busy0 && busy0[b] == n && busy == busy0 - {b}
        && forall j {:trigger Own(own0, j)} :: b <= j < b + n ==> Own(own0, j) == b
      modifies this, info
      ensures own == own0 && busy == busy0 && IsLarge(b) && SameEntries(old(info[..]), info[..], busy0 - {b})
        && log == old(log)
      ensures info == old(info) || fresh(info)
      ensures Valid() && Limited()
    {
      hide Consistent, Clear, SameEntries, NoRoom, Allocated, Regions, Paint, Placed, NextFit, Released, TailFree,
        Below;
      ghost var t, c := info[..], heapindex;
      ClusterFree(t, S, own, busy, c);
      PaintUnder(own0, b, n, c, b + n);
      PaintAround(own0, c, b, n);
      var previous := AllocBlocks(b - heapindex);
      ghost var t1, busy1, own1 := info[..], busy, own;
      var q := AllocBlocks(n);
      ghost var t2, busy2, own2 := info[..], busy, own;
      assert c in busy && Nx(info[..], c) == busy[c] by { EntryOf(t1, t2, busy1, c); }
      assert Own(own2, b) == b by { PaintedOwn(own2, own1, b, n); }
      TailHeld(own2, c, b, heaplimit, brk);
      ghost var limit := heaplimit;
      FreeBlocks(previous.value);
      NothingReleased(Paint(own2, c, b - c, 0), own, limit, heaplimit);
      assert busy == busy0;
      UnfreeFrame(t, t1, t2, info[..], busy0, busy, busy1, busy2, b, c);
    }

    /** Undoes the free of region b of n blocks, which may have been merged with its neighbours: the search position is
        at the start of the cluster that holds it. */
    method Unfree(b: int, n: int, ghost own0: Owners, ghost busy0: map<int, int>)
      requires Valid() && Limited() && In(heapindex, S) && 0 < heapindex <= b && n >= 1
        && heapindex + Sz(info[..], heapindex) >= b + n
      requires own == Paint(own0, b, n, 0) && b in busy0 && busy0[b] == n && busy == busy0 - {b} && Regions(own0, busy0)
      modifies this, info
      ensures own == own0 && busy == busy0 && IsLarge(b) && SameEntries(old(info[..]), info[..], busy0 - {b})
        && log == old(log)
      ensures info == old(info) || fresh(info)
      ensures Valid() && Limited()
    {
      hide Consistent, Clear, SameEntries, NoRoom, Allocated, Regions, Paint, Placed, NextFit, Below;
      OwnRegion(own0, busy0, b);
      if heapindex == b {
        var q := AllocBlocks(n);
        PaintBack(own0, b, n);
        assert busy == busy0;
      } else {
        UnfreeInside(b, n, own0, busy0);
      }
    }

    /** The last case of __realloc: free first, so that the region may grow into its neighbours; undo when there is no
        room. */
    method Regrow(b: int, n: int) returns (r: Option<int>)
      requires Valid() && Limited() && IsLarge(b) && n > busy[b]
      modifies this, info
      ensures r.None? ==>
        own == old(own) && busy == old(busy) && IsLarge(b) && NoRoom(Paint(old(own), b, old(busy)[b], 0), n)
      ensures old(log) <= log && (r.None? ==> old(log) < log && log[|log| - 1].Refused?)
      ensures log != old(log) ==> NoRoom(Paint(old(own), b, old(busy)[b], 0), n)
      ensures r.Some? ==> busy == (old(busy) - {b})[r.value := n] && r.value !in old(busy) - {b} && IsLarge(r.value)
      ensures r.Some? ==> Allocated(Paint(old(own), b, old(busy)[b], 0), own, r.value, n)
      ensures SameEntries(old(info[..]), info[..], old(busy) - {b})
      ensures info == old(info) || fresh(info)
      ensures Valid() && Limited()
    {
      hide Consistent, Clear, SameEntries, NoRoom, Allocated, Regions;
      ghost var t, own0, busy0 := info[..], own, busy;
      RegionFacts(t, S, own, busy, 0, b);
      RegionsOf(t, S, own, busy, 0);
      PaintLimited(own, b, busy[b], 0, heaplimit);
      var blocks := info[b].w1;
      var oldlimit := heaplimit;
      heaplimit := 0;
      FreeBlocks(b);
      heaplimit := oldlimit;
      ghost var t1 := info[..];
      r := AllocBlocks(n);
      ghost var t2 := info[..];
      SameEntriesTransitive(t, t1, t2, busy0 - {b});
      if r.None? {
        Unfree(b, blocks, own0, busy0);
        SameEntriesTransitive(t, t2, info[..], busy0 - {b});
      }
    }
  }
}
