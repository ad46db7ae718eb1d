/** kernel/mem.c and the memory side of kernel/task.c: allocation, brk, and the life of processes and tasks. */
module Frames {
  import opened FirstFit
  import opened PageTables
  import opened Ownership

  const USER_FLAGS := 7
  const STACK_SIZE := 2
  const BRK_LIMIT := 512

  class Memory {
    const pmat: array<bv8>
    var high: seq<int>
    var tables: map<int, seq<int>>
    var refcount: map<int, int>
    var tasks: map<int, int>

    ghost const boot: set<int>
    ghost var owner: map<int, Place>
    ghost var objects: map<int, Object>

    ghost predicate Valid()
      reads this, pmat
    {
      && pmat.Length == 2048 && UsersOk(pmat[..], tables, owner) && HighOk(pmat[..], high, owner, boot)
         && VideoOk(pmat[..], tables)
      && ObjectsOk(high, boot, objects, tables, tasks) && RefsOk(tables, refcount, tasks)
    }

    /** kinit_page has marked the frames that are in use; the kernel's own slots are the boot slots. */
    constructor (pmat: array<bv8>, high: seq<int>, ghost boot: set<int>)
      requires pmat.Length == 2048 && |high| == SLOTS
        && forall f {:trigger Used(pmat[..], f)} :: Video(f) ==> Used(pmat[..], f)
      requires forall i {:trigger At(high, i)} :: At(high, i) != 0 <==> i in boot
      ensures Valid() && this.pmat == pmat && this.high == high && tables == map[] && tasks == map[]
    {
      this.pmat, this.high, tables, refcount, tasks := pmat, high, map[], map[], map[];
      this.boot := boot;
      owner, objects := map[], map[];
    }

    /** The mapping loop of kmap_LowPage, kmap_KernelPage and aspace_map. */
    method Fill(table: seq<int>, s: int, f: int, n: int, flags: int) returns (t: seq<int>)
      requires 0 <= s && 0 <= n && s + n <= |table|
      ensures t == MapRun(table, s, f, n, flags)
    {
      t := table;
      var j := 0;
      while j < n
        invariant 0 <= j <= n && |t| == |table|
        invariant forall k {:trigger At(t, k)} ::
          0 <= k < |t| ==> At(t, k) == if s <= k < s + j then Entry(f + k - s, flags) else At(table, k)
      {
        ghost var before := t;
        t := t[s + j := Entry(f + j, flags)];
        assert forall k {:trigger At(t, k)} ::
          0 <= k < |t| ==> At(t, k) == if k == s + j then Entry(f + j, flags) else At(before, k);
        j := j + 1;
      }
      SameTable(t, MapRun(table, s, f, n, flags));
    }

    /** kunmap_Page */
    method Unmap(table: seq<int>, s: int, n: int) returns (t: seq<int>, phys: int, ok: bool)
      requires 0 <= s && 1 <= n && s + n <= |table|
      ensures Unmaps(table, s, n, phys, ok, t)
    {
      t, phys := table, table[s] - table[s] % PAGE;
      var j := 0;
      while j < n && t[s + j] != 0
        invariant 0 <= j <= n && |t| == |table|
        invariant forall k {:trigger At(table, k)} :: s <= k < s + j ==> At(table, k) != 0
        invariant forall k {:trigger At(t, k)} ::
          0 <= k < |t| ==> At(t, k) == if s <= k < s + j then 0 else At(table, k)
      {
        ghost var before := t;
        assert At(t, s + j) == At(table, s + j);
        t := t[s + j := 0];
        assert forall k {:trigger At(t, k)} :: 0 <= k < |t| ==> At(t, k) == if k == s + j then 0 else At(before, k);
        j := j + 1;
      }
      assert j < n ==> At(t, s + j) == At(table, s + j);
      LeadIs(table, s, n, j);
      SameTable(t, ZeroRun(table, s, j));
      ok := j == n;
    }

    /** MmAllocPagesRaw with the kernel's table, that is, MmAllocPages */
    method AllocPages(n: int, flags: int) returns (r: Allocation)
      requires pmat.Length == 2048 && |high| == SLOTS && 1 <= n <= SLOTS && 0 < flags < PAGE
      modifies pmat, this`high
      ensures Allocates(old(pmat[..]), old(high), HIGH, n, flags, r, pmat[..], high)
      ensures |high| == SLOTS
    {
      hide Used, Least, NoneBelow, BitsSet;
      var f := TakeFrames(pmat, n);
      if f < 0 { return NoFrames; }
      var s := FindSlots(high, n);
      if s < 0 { return Halted; }
      InBounds(SlotUse(high), n, s);
      high := Fill(high, s, f, n, flags);
      r := Allocated(HIGH + PAGE * s, PAGE * f);
    }

    /** MmAllocPagesRaw with the table of address space a, that is, MmAllocPagesLo */
    method AllocPagesLo(a: int, n: int, flags: int) returns (r: Allocation)
      requires pmat.Length == 2048 && a in tables && |tables[a]| == SLOTS && 1 <= n <= SLOTS && 0 < flags < PAGE
      modifies pmat, this`tables
      ensures tables.Keys == old(tables.Keys) && tables == old(tables)[a := tables[a]] && |tables[a]| == SLOTS
      ensures Allocates(old(pmat[..]), old(tables)[a], 0, n, flags, r, pmat[..], tables[a])
    {
      hide Used, Least, NoneBelow, BitsSet;
      var f := TakeFrames(pmat, n);
      if f < 0 { return NoFrames; }
      var s := FindSlots(tables[a], n);
      if s < 0 { return Halted; }
      InBounds(SlotUse(tables[a]), n, s);
      var t := Fill(tables[a], s, f, n, flags);
      tables := tables[a := t];
      r := Allocated(PAGE * s, PAGE * f);
    }

    /** MmFreePages on the kernel's table; the caller's address lies in the kernel's range. */
    method FreePages(virt: int, n: int) returns (ok: bool)
      requires pmat.Length == 2048 && |high| == SLOTS && HIGH <= virt && 1 <= n && HighSlot(virt) + n <= SLOTS
      requires 0 <= FrameOf(At(high, HighSlot(virt))) && FrameOf(At(high, HighSlot(virt))) + n <= FRAMES
      modifies pmat, this`high
      ensures virt % PAGE != 0 ==> !ok && high == old(high) && pmat[..] == old(pmat[..])
      ensures virt % PAGE == 0 ==>
        var s := HighSlot(virt);
        var f := FrameOf(At(old(high), s));
        var m := LeadUsed(old(pmat[..]), f, n);
        high == ZeroRun(old(high), s, Lead(old(high), s, n)) && BitsCleared(old(pmat[..]), f, m, pmat[..])
          && (ok <==> m == n)
      ensures |high| == SLOTS
    {
      hide Used, ClearBit;
      if virt % PAGE != 0 { return false; }
      var phys, unmapped;
      high, phys, unmapped := Unmap(high, HighSlot(virt), n);
      ok := FreeFrames(phys / PAGE, n);
    }

    /** The loop of MmFreePages over the bitmap. */
    method FreeFrames(f: int, n: int) returns (ok: bool)
      requires pmat.Length == 2048 && 1 <= n && 0 <= f && f + n <= FRAMES
      modifies pmat
      ensures var m := LeadUsed(old(pmat[..]), f, n); BitsCleared(old(pmat[..]), f, m, pmat[..]) && (ok <==> m == n)
    {
      hide Used, ClearBit;
      ghost var B := pmat[..];
      var i := 0;
      while i < n
        invariant 0 <= i <= n && BitsCleared(B, f, i, pmat[..])
        invariant forall g {:trigger Used(B, g)} :: f <= g < f + i ==> Used(B, g)
      {
        var b := GetBit(pmat, f + i);
        if !b {
          LeadUsedIs(B, f, n, i);
          return false;
        }
        ClearFreesAll(pmat[..], f + i);
        pmat[(f + i) / 8] := pmat[(f + i) / 8] & !Mask((f + i) % 8);
        i := i + 1;
      }
      LeadUsedIs(B, f, n, n);
      ok := true;
    }

    /** Pages just allocated and freed again leave the bitmap and the table exactly as they were. */
    method AllocateAndFree(n: int, flags: int) returns (r: Allocation, ok: bool)
      requires pmat.Length == 2048 && |high| == SLOTS && 1 <= n <= SLOTS && 0 < flags < PAGE
      modifies pmat, this`high
      ensures r.Allocated? ==> ok && pmat[..] == old(pmat[..]) && high == old(high)
    {
      hide Used, Least, NoneBelow, BitsSet, BitsCleared, FrameOf;
      ghost var B, H := pmat[..], high;
      r := AllocPages(n, flags);
      ok := false;
      if r.Allocated? {
        Allocation1(B, H, n, flags, r, pmat[..], high);
        ghost var A := pmat[..];
        ok := FreePages(r.virt, n);
        FreedAgain(B, H, n, flags, r, A, pmat[..]);
      }
    }

    /** MmAllocPages as the kernel's object allocator calls it: no object and no user page is disturbed. */
    method AllocKernel(n: int, flags: int) returns (r: Allocation)
      requires Valid() && 1 <= n <= SLOTS && 0 < flags < PAGE
      modifies pmat, this`high, this`owner
      ensures Allocates(old(pmat[..]), old(high), HIGH, n, flags, r, pmat[..], high)
      ensures r.Allocated? ==> NewPages(old(high), boot, r.virt, n, high)
      ensures Kept(old(pmat[..]), old(owner), pmat[..], owner)
      ensures !r.Allocated? ==> Short(pmat[..], high, n)
      ensures Valid()
    {
      hide Used, Least, NoneBelow, BitsSet, UsersOk, HighOk, VideoOk, ObjectsOk, FrameOf, OwningHigh, Allocates;
      ghost var B, H := pmat[..], high;
      HighLength(B, high, owner, boot);
      r := AllocPages(n, flags);
      if r.Allocated? {
        Allocation1(B, H, n, flags, r, pmat[..], high);
        ghost var s, f := HighSlot(r.virt), r.phys / PAGE;
        ghost var owner' := OwningHigh(owner, f, n, s);
        VideoBits(B, tables);
        MapHigh(B, H, owner, boot, s, f, n, flags, pmat[..], high, owner');
        UsersKept(B, tables, owner, f, n, pmat[..], owner');
        VideoKept(B, tables, f, n, pmat[..]);
        ObjectsKept(H, boot, objects, tables, tasks, s, f, n, flags);
        PagesAreNew(H, boot, s, f, n, flags, r.virt);
        Taken(B, owner, f, n, pmat[..], owner');
        owner := owner';
      } else {
        NotAllocated(B, H, n, flags, r, pmat[..], high, tables, owner, boot);
        AllocationFails(B, H, HIGH, n, flags, r, pmat[..], high);
      }
    }

    /** MmCreatePageTable: the address space's two pages, in which no slot is mapped yet */
    method CreatePageTable() returns (a: int)
      requires Valid()
      modifies pmat, this`high, this`owner, this`objects
      ensures a != 0 ==> a !in tables && SpaceOk(high, boot, objects, tables[a := seq(SLOTS, _ => 0)], a)
      ensures Kept(old(pmat[..]), old(owner), pmat[..], owner)
      ensures a == 0 ==> Short(pmat[..], high, 2)
      ensures Valid()
    {
      hide Used, UsersOk, HighOk, VideoOk, ObjectsOk, FrameOf, Allocates, NewPages, At;
      ghost var H, O := high, objects;
      var r := AllocKernel(2, 3);
      if !r.Allocated? { return 0; }
      a := r.virt;
      objects := objects[HighSlot(a) := Space(a)][HighSlot(a) + 1 := Space(a)];
      HighLength(old(pmat[..]), H, old(owner), boot);
      NewSpace(H, boot, O, tables, tasks, a, high, objects);
    }

    /** PsCreateProcess: the image's frames, which are in use since boot, are mapped from address 0, and video memory in
        its place. */
    method CreateProcess(image: int, length: int) returns (a: int)
      requires Valid() && Image(pmat[..], owner, image, length) && 0 <= length <= VIDEO
      modifies pmat, this
      ensures if a == 0 then tables == old(tables)
        else a !in old(tables) && tables == old(tables)[a := ProcessTable(image, length, USER_FLAGS)]
      // slot i maps frame image + i of the image, or i itself in video memory, for users and writable
      ensures a != 0 ==> forall i {:trigger At(tables[a], i)} :: 0 <= i < 1024 ==>
        At(tables[a], i) ==
          if i < length then (image + i) * 4096 + 7 else if 0xB0 <= i < 0xC2 then i * 4096 + 7 else 0
      // it fails only when no two neighbouring frames, or no two neighbouring pages of kernel memory, are left
      ensures a == 0 ==> Short(pmat[..], high, 2)
      ensures Valid()
    {
      hide Used, UsersOk, HighOk, VideoOk, ObjectsOk, FrameOf, Allocates, NewPages, At, MapRun, SpaceOk, Kept, Image,
        Owning, ProcessTable, RefsOk;
      var r := AllocKernel(1, USER_FLAGS);
      if !r.Allocated? {
        ShortOfMore(pmat[..], high, 1, 2);
        return 0;
      }
      ImageKept(old(pmat[..]), old(owner), pmat[..], owner, image, length);
      a := NewProcessPages(image, length);
      if a == 0 { return; }
      var table := seq(SLOTS, _ => 0);
      table := Fill(table, 0, image, length, USER_FLAGS);
      table := Fill(table, VIDEO, VIDEO, VIDEO_END - VIDEO, USER_FLAGS);
      ImageStart(pmat[..], owner, image, length);
      ProcessEntries(image, length);
      IsProcessTable(image, length, USER_FLAGS, table);
      ghost var T := tables;
      NewProcess(pmat[..], high, T, owner, boot, a, image, length, USER_FLAGS, T[a := table],
          Owning(owner, image, length, a, 0));
      MoreSpaces(high, boot, objects, T, tasks, refcount, a, table);
      tables := tables[a := table];
      owner := Owning(owner, image, length, a, 0);
      refcount := refcount[a := 0];
    }

    /** The other pages of a process: its structure, and the object and the two pages of its address space. */
    method NewProcessPages(ghost image: int, ghost length: int) returns (a: int)
      requires Valid() && Image(pmat[..], owner, image, length)
      modifies pmat, this`high, this`owner, this`objects
      ensures a != 0 ==> a !in tables && SpaceOk(high, boot, objects, tables[a := seq(SLOTS, _ => 0)], a)
      ensures Image(pmat[..], owner, image, length)
      ensures a == 0 ==> Short(pmat[..], high, 2)
      ensures Valid()
    {
      hide Used, UsersOk, HighOk, VideoOk, ObjectsOk, FrameOf, Allocates, NewPages, At, SpaceOk, Kept, Image, RefsOk;
      var r := AllocKernel(1, USER_FLAGS);
      ImageKept(old(pmat[..]), old(owner), pmat[..], owner, image, length);
      if !r.Allocated? {
        ShortOfMore(pmat[..], high, 1, 2);
        return 0;
      }
      ghost var B, O := pmat[..], owner;
      r := AllocKernel(1, USER_FLAGS);
      ImageKept(B, O, pmat[..], owner, image, length);
      if !r.Allocated? {
        ShortOfMore(pmat[..], high, 1, 2);
        return 0;
      }
      ghost var C, Q := pmat[..], owner;
      a := CreatePageTable();
      ImageKept(C, Q, pmat[..], owner, image, length);
    }

    /** The search of PsCreateNewTask for the highest two neighbouring free slots, not counting slot 0. */
    method FindStack(table: seq<int>) returns (i: int)
      requires |table| == SLOTS
      ensures 0 <= i < SLOTS - 1 && (i > 0 ==> At(table, i) == 0 && At(table, i + 1) == 0)
      ensures forall k {:trigger At(table, k)} :: i < k < SLOTS - 1 ==> At(table, k) != 0 || At(table, k + 1) != 0
    {
      var memcount := 0;
      i := SLOTS - 1;
      while i > 0
        invariant 0 <= i < SLOTS && 0 <= memcount < STACK_SIZE && (memcount == 1 ==> i < SLOTS - 1)
        invariant i < SLOTS - 1 ==> (memcount == 1 <==> At(table, i + 1) == 0)
        invariant forall k {:trigger At(table, k)} :: i < k < SLOTS - 1 ==> At(table, k) != 0 || At(table, k + 1) != 0
      {
        assert At(table, i) == table[i];
        if table[i] == 0 { memcount := memcount + 1; } else { memcount := 0; }
        if memcount == STACK_SIZE { return; }
        i := i - 1;
      }
    }

    /** The body of brk's loop: a frame is allocated, mapped at the first free slot, unmapped there and mapped at slot
        i. If there is no frame, the source unmaps address 0 instead, and so moves the page there to slot i. */
    method BrkStep(a: int, i: int) returns (r: Allocation)
      requires pmat.Length == 2048 && a in tables && |tables[a]| == SLOTS && 0 <= i < SLOTS - 1 && At(tables[a], i) == 0
        && 0 <= At(tables[a], 0)
      modifies pmat, this`tables
      ensures !r.Halted? && a in tables && tables == old(tables)[a := tables[a]]
      ensures r.Allocated? <==> Free(old(pmat[..]), FRAMES - 1) > 0
      ensures r.Allocated? ==>
        TakesFrames(old(pmat[..]), 1, r.phys / PAGE, pmat[..])
          && tables[a] == MapRun(old(tables)[a], i, r.phys / PAGE, 1, USER_FLAGS)
      ensures !r.Allocated? ==>
        pmat[..] == old(pmat[..])
          && tables[a] == MapRun(ZeroRun(old(tables)[a], 0, 1), i, FrameOf(At(old(tables)[a], 0)), 1, USER_FLAGS)
    {
      hide Used, Least, NoneBelow, BitsSet, FrameUse, TakesFrames, Free;
      ghost var B, T := pmat[..], tables[a];
      r := AllocPagesLo(a, 1, USER_FLAGS);
      AllocatesOne(B, T, i, r, pmat[..], tables[a]);
      var virt := if r.Allocated? then r.virt else 0;
      var table, phys, ok := Unmap(tables[a], virt / PAGE, 1);
      table := Fill(table, i, phys / PAGE, 1, USER_FLAGS);
      tables := tables[a := table];
      Moved(B, T, i, r, old(tables)[a], phys, table);
    }

    /** brk of address space a; enough frames are free for the slots that are not mapped yet. */
    method Brk(a: int, addr: int) returns (r: int)
      requires Valid() && a in tables && 0 <= addr
      requires Needed(tables[a], 0, addr / PAGE + 1) <= Free(pmat[..], FRAMES - 1)
      modifies pmat, this`tables, this`owner
      ensures r == (if addr / PAGE > BRK_LIMIT then -1 else 0)
      ensures if r < 0 then tables == old(tables)
        else a in tables && tables == old(tables)[a := tables[a]] && Grown(old(tables)[a], tables[a], addr / PAGE + 1)
      ensures r == (if addr / 4096 > 512 then -1 else 0)
      // every page up to the address is mapped; those that were mapped already, and those above, are unchanged
      ensures r == 0 ==> forall k {:trigger At(tables[a], k)} :: 0 <= k < 1024 ==>
        && (k <= addr / 4096 ==> At(tables[a], k) != 0)
        && (k > addr / 4096 || At(old(tables)[a], k) != 0 ==> At(tables[a], k) == At(old(tables)[a], k))
      ensures Valid()
    {
      hide Used, UsersOk, HighOk, VideoOk, ObjectsOk, RefsOk, FrameOf, Free, TakesFrames, MapRun, At;
      var n := addr / PAGE;
      if n > BRK_LIMIT { return -1; }
      ghost var T, before := tables, tables[a];
      var i := 0;
      SpaceParts(high, boot, objects, tables, tasks, a);
      while i <= n
        invariant 0 <= i <= n + 1 && a in tables && tables == T[a := tables[a]] && Valid()
        invariant Grown(before, tables[a], i) && Needed(tables[a], i, n + 1) <= Free(pmat[..], FRAMES - 1)
      {
        SpaceParts(high, boot, objects, tables, tasks, a);
        EntriesPositive(pmat[..], tables, owner, a);
        ReadSlot(tables[a], i);
        if tables[a][i] == 0 {
          ghost var B, U := pmat[..], tables;
          OneNeeded(tables[a], i, n + 1);
          var got := BrkStep(a, i);
          ghost var f := got.phys / PAGE;
          BrkKeeps(B, high, U, owner, boot, objects, tasks, refcount, a, i, f, pmat[..], tables);
          owner := Owning(owner, f, 1, a, i);
          GrownMore(before, U[a], i, f, n + 1, B, pmat[..], tables[a]);
        } else {
          GrownSame(before, tables[a], i, n + 1);
        }
        i := i + 1;
      }
      r := 0;
    }

    /** The pages of a thread: its object, and three for its structure; t is the address of the structure. */
    method NewThreadPages() returns (t: int)
      requires Valid()
      modifies pmat, this`high, this`owner, this`objects
      ensures t != 0 ==> t !in tasks && forall a {:trigger a in tables} ::
        a in tables ==> ThreadOk(high, boot, objects, tables, tasks[t := a], t)
      ensures t == 0 ==> Short(pmat[..], high, 3)
      ensures Valid()
    {
      hide Used, UsersOk, HighOk, VideoOk, ObjectsOk, FrameOf, Allocates, NewPages, At, RefsOk;
      var r := AllocKernel(1, USER_FLAGS);
      if !r.Allocated? {
        ShortOfMore(pmat[..], high, 1, 3);
        return 0;
      }
      ghost var B, H, W, O := pmat[..], high, owner, objects;
      r := AllocKernel(3, 3);
      if !r.Allocated? { return 0; }
      t := r.virt;
      objects := objects[HighSlot(t) := Thread(t)];
      HighLength(B, H, W, boot);
      NewThread(H, boot, O, tables, tasks, t, high, objects);
    }

    /** The stack of a new task of address space a: two frames, mapped at the first free slots, unmapped there, and
        mapped at the highest two neighbouring free slots. */
    method MapStack(a: int) returns (i: int)
      requires Valid() && a in tables
      modifies pmat, this`tables, this`owner
      ensures a in tables && tables == old(tables)[a := tables[a]]
      ensures i > 0 ==> i + 1 < SLOTS && At(old(tables)[a], i) == 0 && At(old(tables)[a], i + 1) == 0
      ensures i > 0 ==> forall k {:trigger At(old(tables)[a], k)} ::
        i < k < SLOTS - 1 ==> At(old(tables)[a], k) != 0 || At(old(tables)[a], k + 1) != 0
      ensures i > 0 ==> exists f ::
        TakesFrames(old(pmat[..]), STACK_SIZE, f, pmat[..])
          && tables[a] == MapRun(old(tables)[a], i, f, STACK_SIZE, USER_FLAGS)
      ensures i <= 0 ==> tables == old(tables)
      ensures i <= 0 ==>
        || NoneBelow(FrameUse(pmat[..]), 2, FRAMES - 2)
        || forall k {:trigger At(tables[a], k)} :: 0 < k < 1022 ==> At(tables[a], k) != 0 || At(tables[a], k + 1) != 0
      ensures Valid()
    {
      hide Used, UsersOk, HighOk, VideoOk, ObjectsOk, RefsOk, FrameOf, MapRun, At, Allocates, TakesFrames, Unmaps;
      ghost var B, T := pmat[..], tables;
      SpaceParts(high, boot, objects, tables, tasks, a);
      var r := AllocPagesLo(a, STACK_SIZE, USER_FLAGS);
      if !r.Allocated? {
        NotMapped(B, T, a, r, pmat[..], tables, owner, high, boot);
        NoStack(B, T[a], r, pmat[..], tables[a]);
        return 0;
      }
      StackFrames(B, T[a], r, pmat[..], tables[a]);
      ghost var f := r.phys / PAGE;
      var table, phys, ok := Unmap(tables[a], r.virt / PAGE, STACK_SIZE);
      StackUnmapped(T[a], r, tables[a], phys, ok, table);
      i := FindStack(table);
      if i > 0 {
        table := Fill(table, i, r.phys / PAGE, STACK_SIZE, USER_FLAGS);
        tables := tables[a := table];
        owner := StackKeeps(B, high, T, owner, boot, objects, tasks, refcount, a, i, f, pmat[..], tables);
      } else {
        tables := tables[a := table];
        assert tables == T;
        FramesLost(B, high, T, owner, boot, STACK_SIZE, f, pmat[..]);
      }
    }

    /** PsCreateNewTask, as far as memory is concerned; 0 stands for its failures. */
    method CreateTask(a: int) returns (t: int)
      requires Valid() && a in tables
      modifies pmat, this
      ensures if t == 0 then tasks == old(tasks) else t !in old(tasks) && tasks == old(tasks)[t := a]
      ensures a in tables && tables == old(tables)[a := tables[a]]
        && forall k {:trigger At(tables[a], k)} ::
           At(old(tables)[a], k) != 0 ==> At(tables[a], k) == At(old(tables)[a], k)
      ensures a in old(refcount) && refcount == old(refcount)[a := old(refcount)[a] + 1]
      // it fails only when three pages of kernel memory in a row, or two frames or two slots for the stack, are not
      // left
      ensures t == 0 ==>
        || Short(pmat[..], high, 3) || NoneBelow(FrameUse(pmat[..]), 2, FRAMES - 2)
        || forall k {:trigger At(tables[a], k)} :: 0 < k < 1022 ==> At(tables[a], k) != 0 || At(tables[a], k + 1) != 0
      ensures Valid()
    {
      hide Used, UsersOk, HighOk, VideoOk, ObjectsOk, RefsOk, FrameOf, MapRun, TakesFrames, At, ThreadOk;
      Counting(tables, refcount, tasks, a);
      refcount := refcount[a := refcount[a] + 1];
      t := NewThreadPages();
      if t == 0 { return; }
      ghost var T := tables;
      var i := MapStack(a);
      StackOnly(T[a], i, tables[a]);
      if i <= 0 { return 0; }
      OneMoreTask(high, boot, objects, T, tables, tasks, old(refcount), a, t);
      tasks := tasks[t := a];
    }

    /** The loops of PsCleanUpTask over the table of a dying address space: video memory is unmapped, and every other
        frame is freed with the slot that maps it. */
    method EmptySpace(a: int) returns (table: seq<int>)
      requires pmat.Length == 2048 && a in tables && |tables[a]| == SLOTS
      requires UsersOk(pmat[..], tables, owner) && HighOk(pmat[..], high, owner, boot) && VideoOk(pmat[..], tables)
      modifies pmat
      ensures FramesLeft(owner, NoVideo(tables[a]), a, SLOTS, old(pmat[..]), pmat[..])
      ensures UsersOk(pmat[..], tables - {a}, owner) && HighOk(pmat[..], high, owner, boot)
        && VideoOk(pmat[..], tables - {a})
    {
      hide Used, UsersOk, HighOk, VideoOk, FrameOf, FramesLeft;
      table := ClearVideo(tables[a]);
      ghost var B, T, before := pmat[..], tables[a := table], table;
      VideoUnmapped(B, tables, owner, a, table);
      NoneLeftYet(owner, before, a, B);
      var i := 0;
      while i < SLOTS
        invariant 0 <= i <= SLOTS && |table| == SLOTS && FramesLeft(owner, before, a, i, B, pmat[..])
        invariant UsersOk(pmat[..], tables[a := table], owner) && HighOk(pmat[..], high, owner, boot)
          && VideoOk(pmat[..], tables - {a})
        invariant Plain(table) && forall k {:trigger At(table, k)} :: k >= i ==> At(table, k) == At(before, k)
      {
        ghost var now, U := pmat[..], tables[a := table];
        ReadSlot(table, i);
        if table[i] != 0 {
          SlotFrame(now, U, owner, a, i);
          ClearFreesAll(now, table[i] / PAGE);
          pmat[table[i] / PAGE / 8] := pmat[table[i] / PAGE / 8] & !Mask(table[i] / PAGE % 8);
          table := table[i := 0];
          OneEmptied(now, U, high, owner, boot, tables - {a}, a, i, pmat[..], tables[a := table]);
        }
        OneMoreLeft(owner, before, a, i, B, now, pmat[..]);
        i := i + 1;
      }
      SpaceGone(pmat[..], tables[a := table], owner, a, tables - {a});
    }

    /** The loop that zeroes the slots of video memory. */
    method ClearVideo(table: seq<int>) returns (t: seq<int>)
      requires |table| == SLOTS
      ensures t == NoVideo(table)
    {
      t := table;
      var i := VIDEO;
      while i < VIDEO_END
        invariant VIDEO <= i <= VIDEO_END && |t| == SLOTS
        invariant forall k {:trigger At(t, k)} :: At(t, k) == if VIDEO <= k < i then 0 else At(table, k)
      {
        ghost var before := t;
        t := t[i := 0];
        assert forall k {:trigger At(t, k)} :: At(t, k) == if k == i then 0 else At(before, k);
        i := i + 1;
      }
      SameTable(t, NoVideo(table));
    }

    /** MmFreePages of n kernel pages that were allocated together */
    method FreeKernel(virt: int, n: int)
      requires pmat.Length == 2048 && UsersOk(pmat[..], tables, owner) && HighOk(pmat[..], high, owner, boot)
        && VideoOk(pmat[..], tables)
      requires KernelPages(high, boot, virt, n)
      modifies pmat, this`high
      ensures high == ZeroRun(old(high), HighSlot(virt), n)
        && BitsCleared(old(pmat[..]), FrameOf(At(old(high), HighSlot(virt))), n, pmat[..])
      ensures UsersOk(pmat[..], tables, owner) && HighOk(pmat[..], high, owner, boot) && VideoOk(pmat[..], tables)
    {
      hide Used, UsersOk, HighOk, VideoOk, FrameOf, BitsCleared, KernelFrames;
      ghost var B, H, s := pmat[..], high, HighSlot(virt);
      ghost var f := FrameOf(At(high, s));
      HighLength(B, H, owner, boot);
      AllMapped(B, H, owner, boot, virt, n);
      var ok := FreePages(virt, n);
      UnmapHigh(B, H, owner, boot, s, n, f, pmat[..]);
      HighNotUser(B, tables, owner, f, n, pmat[..]);
    }

    /** PsCleanUpTask, as far as memory is concerned: with its last task an address space goes, and with it its
        frames. */
    method CleanUp(t: int)
      requires Valid() && t in tasks
      modifies pmat, this
      ensures tasks == old(tasks) - {t}
      ensures var a := old(tasks)[t];
        a in old(tables) && a in old(refcount) && refcount == old(refcount)[a := old(refcount)[a] - 1]
        && if refcount[a] != 0 then tables == old(tables) && pmat[..] == old(pmat[..])
           else tables == old(tables) - {a}
                && AllFreed(old(pmat[..]), old(high), old(owner), old(tables)[a], a, t, pmat[..])
      // the frame of every slot of the dead space is free, apart from video memory, and nothing else is but three pages
      ensures refcount[old(tasks)[t]] == 0 ==>
        var table, H := old(tables)[old(tasks)[t]], old(high);
        && (forall k {:trigger At(table, k)} ::
              0 <= k < 1024 && At(table, k) != 0 && !(0xB0 <= k < 0xC2) ==> !Used(pmat[..], At(table, k) / 4096))
        && forall f {:trigger Used(pmat[..], f)} :: Used(old(pmat[..]), f) && !Used(pmat[..], f) ==>
             || f == FrameOf(At(H, HighSlot(t))) || 0 <= f - FrameOf(At(H, HighSlot(old(tasks)[t]))) < 2
             || exists k :: 0 <= k < 1024 && At(table, k) != 0 && !(0xB0 <= k < 0xC2) && At(table, k) / 4096 == f
      ensures Valid()
    {
      hide Used, UsersOk, HighOk, VideoOk, ObjectsOk, RefsOk, FrameOf, FramesLeft, BitsCleared, KernelPages, AllFreed,
        HighSlot;
      var a := tasks[t];
      ghost var B, H, T, K, R := pmat[..], high, tables, tasks, refcount;
      OneTaskLess(H, boot, objects, T, K, R, t);
      tasks := tasks - {t};
      refcount := refcount[a := refcount[a] - 1];
      if refcount[a] != 0 { return; }
      NoTaskLeft(T, refcount, tasks, a);
      HighLength(B, H, owner, boot);
      ghost var table := EmptySpace(a);
      tables := tables - {a};
      ghost var C := pmat[..];
      FreeKernel(a, 2);
      ghost var D, H1 := pmat[..], high;
      OtherPages(H, boot, objects, T, K, t, H1);
      FreeKernel(t, 1);
      SpaceRemoved(H, boot, objects, T, K, t, high, tables, tasks);
      LastTask(T, R, K, t, tables, refcount, tasks);
      Freed(B, H, owner, T[a], a, t, C, H1, D, pmat[..]);
      CleanedOut(B, T, owner, H, a, t, pmat[..]);
    }
  }

  lemma ClearFreesAll(pmat: seq<bv8>, f: int)
    requires 0 <= f < 8 * |pmat|
    ensures pmat[f / 8 := pmat[f / 8] & !Mask(f % 8)] == ClearBit(pmat, f)
    ensures forall g {:trigger Used(ClearBit(pmat, f), g)} {:trigger Used(pmat, g)} ::
      Used(ClearBit(pmat, f), g) <==> g != f && Used(pmat, g)
  {
    hide Used;
    forall g ensures Used(ClearBit(pmat, f), g) <==> g != f && Used(pmat, g) { ClearFrees(pmat, f, g); }
  }

  lemma ImageStart(pmat: seq<bv8>, owner: map<int, Place>, image: int, length: int)
    requires Image(pmat, owner, image, length)
    ensures 0 <= image
  {
  }

  lemma ProcessEntries(image: int, length: int)
    requires 0 <= image && 0 <= length <= VIDEO
    ensures forall i {:trigger At(ProcessTable(image, length, USER_FLAGS), i)} :: 0 <= i < 1024 ==>
      At(ProcessTable(image, length, USER_FLAGS), i) ==
        if i < length then (image + i) * 4096 + 7 else if 0xB0 <= i < 0xC2 then i * 4096 + 7 else 0
  {
    hide At;
    var t := MapRun(seq(SLOTS, _ => 0), 0, image, length, USER_FLAGS);
    forall i {:trigger At(t, i)} | 0 <= i < 1024
      ensures At(t, i) == if i < length then (image + i) * 4096 + 7 else 0
    {
      NothingMapped(i);
    }
  }

  lemma NothingMapped(i: int)
    ensures At(seq(SLOTS, _ => 0), i) == 0
  {
  }

  /** What an allocation hands to the one who frees it. */
  lemma Allocation1(B: seq<bv8>, H: seq<int>, n: int, flags: int, r: Allocation, A: seq<bv8>, H': seq<int>)
    requires Allocates(B, H, HIGH, n, flags, r, A, H') && r.Allocated? && |H| == SLOTS && 1 <= n && 0 < flags < PAGE
    ensures var s, f := HighSlot(r.virt), r.phys / PAGE;
      && r.virt >= HIGH && r.virt % PAGE == 0 && 0 <= s && s + n <= SLOTS && 0 <= f && f + n <= FRAMES
      && FrameOf(At(H', s)) == f && H' == MapRun(H, s, f, n, flags) && Lead(H', s, n) == n && LeadUsed(A, f, n) == n
      && (forall k {:trigger At(H, k)} :: s <= k < s + n ==> At(H, k) == 0) && AllFree(B, f, n) && BitsSet(B, f, n, A)
  {
    hide Used, NoneBelow;
    var s, f := HighSlot(r.virt), r.phys / PAGE;
    assert TakesFrames(B, n, f, A) && TakesSlots(H, n, s, f, flags, H');
    InBounds(FrameUse(B), n, f);
    InBounds(SlotUse(H), n, s);
    forall g {:trigger Used(B, g)} | f <= g < f + n ensures !Used(B, g) { assert !FrameUse(B)[g]; }
    forall k {:trigger At(H, k)} | s <= k < s + n ensures At(H, k) == 0 { assert !SlotUse(H)[k]; }
    forall k {:trigger At(H', k)} | s <= k < s + n ensures At(H', k) != 0 { NewEntry(H, s, f, n, flags, k); }
    NewEntry(H, s, f, n, flags, s);
    LeadIs(H', s, n, n);
    LeadUsedIs(A, f, n, n);
  }

  lemma FreedAgain(B: seq<bv8>, H: seq<int>, n: int, flags: int, r: Allocation, A: seq<bv8>, C: seq<bv8>)
    requires r.Allocated? && var s, f := HighSlot(r.virt), r.phys / PAGE;
      (0 <= s && s + n <= |H| && BitsSet(B, f, n, A) && BitsCleared(A, f, n, C) && AllFree(B, f, n)
       && forall k {:trigger At(H, k)} :: s <= k < s + n ==> At(H, k) == 0)
    ensures C == B && ZeroRun(MapRun(H, HighSlot(r.virt), r.phys / PAGE, n, flags), HighSlot(r.virt), n) == H
  {
    hide Used;
    SetThenCleared(B, r.phys / PAGE, n, A, C);
    MappedThenZeroed(H, HighSlot(r.virt), r.phys / PAGE, n, flags);
  }

  lemma HighLength(pmat: seq<bv8>, high: seq<int>, owner: map<int, Place>, boot: set<int>)
    requires HighOk(pmat, high, owner, boot)
    ensures |high| == SLOTS && BootOk(high, boot)
  {
  }

  lemma VideoBits(pmat: seq<bv8>, tables: map<int, seq<int>>)
    requires VideoOk(pmat, tables)
    ensures forall g {:trigger Used(pmat, g)} :: Video(g) ==> Used(pmat, g)
  {
  }

  /** The n pages at virt are new: none of their slots was in use. */
  ghost predicate NewPages(high: seq<int>, boot: set<int>, virt: int, n: int, high': seq<int>) {
    var s := HighSlot(virt);
    && virt >= HIGH && virt % PAGE == 0 && 0 <= s && s + n <= SLOTS && |high'| == SLOTS
    && (forall i {:trigger At(high, i)} :: s <= i < s + n ==> At(high, i) == 0)
    && (forall i {:trigger At(high', i)} :: s <= i < s + n ==>
       At(high', i) != 0 && FrameOf(At(high', i)) == FrameOf(At(high', s)) + i - s)
    && forall i {:trigger At(high', i)} :: !(s <= i < s + n) ==> At(high', i) == At(high, i)
  }

  lemma PagesAreNew(high: seq<int>, boot: set<int>, s: int, f: int, n: int, flags: int, virt: int)
    requires virt >= HIGH && virt % PAGE == 0 && s == HighSlot(virt) && 0 <= s && s + n <= SLOTS == |high| && 0 <= f
      && 0 < flags < PAGE
    requires forall i {:trigger At(high, i)} :: s <= i < s + n ==> At(high, i) == 0
    ensures NewPages(high, boot, virt, n, MapRun(high, s, f, n, flags))
  {
    hide FrameOf, Entry;
    var high' := MapRun(high, s, f, n, flags);
    forall i {:trigger At(high', i)} | s <= i < s + n
      ensures At(high', i) != 0 && FrameOf(At(high', i)) == FrameOf(At(high', s)) + i - s
    {
      NewEntry(high, s, f, n, flags, i);
      NewEntry(high, s, f, n, flags, s);
    }
  }

  lemma ObjectsKept(high: seq<int>, boot: set<int>, objects: map<int, Object>, tables: map<int, seq<int>>,
                    tasks: map<int, int>, s: int, f: int, n: int, flags: int)
    requires ObjectsOk(high, boot, objects, tables, tasks)
      && forall i {:trigger At(high, i)} :: s <= i < s + n ==> At(high, i) == 0
    ensures ObjectsOk(MapRun(high, s, f, n, flags), boot, objects, tables, tasks)
  {
    hide FrameOf, Entry, HighSlot;
    var high' := MapRun(high, s, f, n, flags);
    forall a {:trigger a in tables} | a in tables ensures SpaceOk(high', boot, objects, tables, a) {
      assert SpaceOk(high, boot, objects, tables, a);
    }
    forall t {:trigger t in tasks} | t in tasks ensures ThreadOk(high', boot, objects, tables, tasks, t) {
      assert ThreadOk(high, boot, objects, tables, tasks, t);
    }
  }

  lemma AllocationFails(B: seq<bv8>, table: seq<int>, base: int, n: int, flags: int, r: Allocation, A: seq<bv8>,
                        table': seq<int>)
    requires Allocates(B, table, base, n, flags, r, A, table') && !r.Allocated? && |table| == SLOTS
    ensures Short(A, table', n)
  {
    hide Used, NoneBelow;
  }

  lemma NotAllocated(B: seq<bv8>, H: seq<int>, n: int, flags: int, r: Allocation, A: seq<bv8>, H': seq<int>,
                     tables: map<int, seq<int>>,
                     owner: map<int, Place>, boot: set<int>)
    requires Allocates(B, H, HIGH, n, flags, r, A, H') && !r.Allocated? && UsersOk(B, tables, owner)
      && HighOk(B, H, owner, boot) && VideoOk(B, tables)
    ensures H' == H && UsersOk(A, tables, owner) && HighOk(A, H, owner, boot) && VideoOk(A, tables)
      && Kept(B, owner, A, owner)
  {
    hide Used, Least, NoneBelow, UsersOk, HighOk, VideoOk;
    if r.Halted? {
      var f :| TakesFrames(B, n, f, A);
      FramesWereFree(B, n, f, A);
      HighKept(B, H, owner, boot, f, n, A, owner);
      UsersKept(B, tables, owner, f, n, A, owner);
      VideoKept(B, tables, f, n, A);
      Taken(B, owner, f, n, A, owner);
    }
  }

  lemma FramesWereFree(B: seq<bv8>, n: int, f: int, A: seq<bv8>)
    requires TakesFrames(B, n, f, A)
    ensures AllFree(B, f, n) && BitsSet(B, f, n, A) && 0 <= f && f + n <= FRAMES
  {
    hide Used, NoneBelow;
    InBounds(FrameUse(B), n, f);
    forall g {:trigger Used(B, g)} | f <= g < f + n ensures !Used(B, g) { assert !FrameUse(B)[g]; }
  }

  lemma NewSpace(H: seq<int>, boot: set<int>, O: map<int, Object>, tables: map<int, seq<int>>, tasks: map<int, int>,
                 a: int, high: seq<int>, objects: map<int, Object>)
    requires NewPages(H, boot, a, 2, high) && ObjectsOk(H, boot, O, tables, tasks)
      && ObjectsOk(high, boot, O, tables, tasks)
    requires objects == O[HighSlot(a) := Space(a)][HighSlot(a) + 1 := Space(a)]
    requires BootOk(H, boot)
    ensures a !in tables && a != 0 && SpaceOk(high, boot, objects, tables[a := seq(SLOTS, _ => 0)], a)
      && ObjectsOk(high, boot, objects, tables, tasks)
  {
    hide FrameOf;
    var s := HighSlot(a);
    assert At(high, s) != 0 && At(high, s + 1) != 0;
    assert At(H, s) == 0 && At(H, s + 1) == 0;
    forall b {:trigger b in tables} | b in tables ensures SpaceOk(high, boot, objects, tables, b) && b != a {
      assert SpaceOk(H, boot, O, tables, b) && SpaceOk(high, boot, O, tables, b);
    }
    forall t {:trigger t in tasks} | t in tasks ensures ThreadOk(high, boot, objects, tables, tasks, t) {
      assert ThreadOk(H, boot, O, tables, tasks, t) && ThreadOk(high, boot, O, tables, tasks, t);
    }
  }

  lemma IsProcessTable(image: int, length: int, flags: int, table: seq<int>)
    requires table == MapRun(MapRun(seq(SLOTS, _ => 0), 0, image, length, flags), VIDEO, VIDEO, VIDEO_END - VIDEO,
        flags)
    ensures table == ProcessTable(image, length, flags) && |table| == SLOTS
  {
  }

  lemma MoreSpaces(high: seq<int>, boot: set<int>, objects: map<int, Object>, tables: map<int, seq<int>>,
                   tasks: map<int, int>, refcount: map<int, int>,
                   a: int, table: seq<int>)
    requires ObjectsOk(high, boot, objects, tables, tasks)
      && SpaceOk(high, boot, objects, tables[a := seq(SLOTS, _ => 0)], a) && |table| == SLOTS
    requires RefsOk(tables, refcount, tasks) && a !in tables
    ensures ObjectsOk(high, boot, objects, tables[a := table], tasks)
      && RefsOk(tables[a := table], refcount[a := 0], tasks)
  {
    assert TasksOf(tasks, a) == {} by {
      forall t {:trigger t in tasks} | t in tasks
        ensures tasks[t] != a
      {
        assert ThreadOk(high, boot, objects, tables, tasks, t);
      }
    }
    hide FrameOf, HighSlot;
    var more := tables[a := table];
    forall b {:trigger b in more} | b in more ensures SpaceOk(high, boot, objects, more, b) {
      if b != a { assert SpaceOk(high, boot, objects, tables, b); }
    }
    forall t {:trigger t in tasks} | t in tasks ensures ThreadOk(high, boot, objects, more, tasks, t) {
      assert ThreadOk(high, boot, objects, tables, tasks, t);
    }
  }

  lemma AllocatesOne(B: seq<bv8>, T: seq<int>, i: int, r: Allocation, A: seq<bv8>, T': seq<int>)
    requires Allocates(B, T, 0, 1, USER_FLAGS, r, A, T') && |B| == 2048 && |T| == SLOTS && 0 <= i < SLOTS - 1
      && At(T, i) == 0
    ensures !r.Halted? && (r.Allocated? <==> Free(B, FRAMES - 1) > 0)
    ensures r.Allocated? ==> var s, f := r.virt / PAGE, r.phys / PAGE;
      TakesFrames(B, 1, f, A) && r.phys == PAGE * f && 0 <= s < SLOTS && 0 <= f && At(T, s) == 0
        && T' == MapRun(T, s, f, 1, USER_FLAGS)
    ensures r.NoFrames? ==> A == B && T' == T
  {
    hide Used;
    SomeSlot(T, i);
    OneFrame(B);
    if r.Allocated? {
      InBounds(FrameUse(B), 1, r.phys / PAGE);
      InBounds(SlotUse(T), 1, r.virt / PAGE);
      assert !SlotUse(T)[r.virt / PAGE];
    }
  }

  lemma SomeSlot(T: seq<int>, i: int)
    requires |T| == SLOTS && 0 <= i < SLOTS - 1 && At(T, i) == 0
    ensures !NoneBelow(SlotUse(T), 1, SLOTS - 1)
  {
    assert FreeRun(SlotUse(T), i, 1);
  }

  /** A single frame is found exactly if one of those that the search considers is free. */
  lemma OneFrame(B: seq<bv8>)
    ensures Free(B, FRAMES - 1) == 0 <==> NoneBelow(FrameUse(B), 1, FRAMES - 1)
    ensures forall f :: Least(FrameUse(B), 1, f) ==> Free(B, FRAMES - 1) > 0
  {
    hide Used;
    if Free(B, FRAMES - 1) > 0 {
      var f := SomeFree(B, FRAMES - 1);
      assert FreeRun(FrameUse(B), f, 1);
    } else {
      forall k {:trigger FreeRun(FrameUse(B), k, 1)} | 0 <= k < FRAMES - 1 ensures !FreeRun(FrameUse(B), k, 1) {
        AllUsed(B, FRAMES - 1, k);
        assert FrameUse(B)[k];
      }
    }
  }

  lemma {:induction false} AllUsed(B: seq<bv8>, n: int, k: int)
    requires Free(B, n) == 0 && 0 <= k < n
    ensures Used(B, k)
    decreases n
  {
    hide Used;
    if k < n - 1 { AllUsed(B, n - 1, k); }
  }

  lemma Moved(B: seq<bv8>, T: seq<int>, i: int, r: Allocation, T0: seq<int>, phys: int, table: seq<int>)
    requires T0 == T && |T| == SLOTS && 0 <= i < SLOTS - 1 && At(T, i) == 0 && 0 <= At(T, 0)
    requires r.Allocated? ==> 0 <= r.virt / PAGE < SLOTS && 0 <= r.phys / PAGE && At(T, r.virt / PAGE) == 0
    requires r.Allocated? ==> exists t, ok ::
      Unmaps(MapRun(T, r.virt / PAGE, r.phys / PAGE, 1, USER_FLAGS), r.virt / PAGE, 1, phys, ok, t)
                                              && table == MapRun(t, i, phys / PAGE, 1, USER_FLAGS)
    requires !r.Allocated? ==> exists t, ok ::
      Unmaps(T, 0, 1, phys, ok, t) && table == MapRun(t, i, phys / PAGE, 1, USER_FLAGS)
    ensures r.Allocated? ==> table == MapRun(T, i, r.phys / PAGE, 1, USER_FLAGS)
    ensures !r.Allocated? ==> table == MapRun(ZeroRun(T, 0, 1), i, FrameOf(At(T, 0)), 1, USER_FLAGS)
  {
    if r.Allocated? {
      var s, f := r.virt / PAGE, r.phys / PAGE;
      NewEntry(T, s, f, 1, USER_FLAGS, s);
      LeadIs(MapRun(T, s, f, 1, USER_FLAGS), s, 1, 1);
      MappedThenZeroed(T, s, f, 1, USER_FLAGS);
    } else {
      LeadIs(T, 0, 1, if At(T, 0) == 0 then 0 else 1);
      SameTable(ZeroRun(T, 0, Lead(T, 0, 1)), ZeroRun(T, 0, 1));
    }
  }

  ghost function TasksOf(tasks: map<int, int>, a: int): (S: set<int>)
    ensures forall t {:trigger t in S} :: t in S <==> t in tasks && tasks[t] == a
  { set t | t in tasks && tasks[t] == a }

  /** An address space counts at least its tasks. */
  ghost predicate RefsOk(tables: map<int, seq<int>>, refcount: map<int, int>, tasks: map<int, int>) {
    forall a {:trigger a in tables} :: a in tables ==> a in refcount && refcount[a] >= |TasksOf(tasks, a)|
  }

  /** Every slot below n is mapped, those that were mapped are unchanged, and so are the slots from n on. */
  ghost predicate Grown(table: seq<int>, table': seq<int>, n: int) {
    |table'| == |table|
    && (forall k {:trigger At(table', k)} :: 0 <= k < n ==> At(table', k) != 0)
    && forall k {:trigger At(table', k)} {:trigger At(table, k)} ::
       At(table, k) != 0 || k >= n ==> At(table', k) == At(table, k)
  }

  lemma SpaceParts(high: seq<int>, boot: set<int>, objects: map<int, Object>, tables: map<int, seq<int>>,
                   tasks: map<int, int>, a: int)
    requires ObjectsOk(high, boot, objects, tables, tasks) && a in tables
    ensures |tables[a]| == SLOTS
  {
    assert SpaceOk(high, boot, objects, tables, a);
  }

  lemma EntriesPositive(pmat: seq<bv8>, tables: map<int, seq<int>>, owner: map<int, Place>, a: int)
    requires UsersOk(pmat, tables, owner) && a in tables
    ensures forall i {:trigger At(tables[a], i)} :: At(tables[a], i) >= 0
  {
    forall i {:trigger At(tables[a], i)} ensures At(tables[a], i) >= 0 {
      assert UserSlotOk(pmat, tables, owner, a, i);
      assert UserEntry(tables, a, i) == At(tables[a], i);
    }
  }

  lemma ReadSlot(table: seq<int>, i: int)
    requires 0 <= i < |table|
    ensures At(table, i) == table[i] && At(table, 0) == table[0]
  {
  }

  lemma OneNeeded(table: seq<int>, i: int, n: int)
    requires 0 <= i < n && At(table, i) == 0
    ensures Needed(table, i, n) == Needed(table, i + 1, n) + 1
  {
  }

  lemma BrkKeeps(B: seq<bv8>, high: seq<int>, tables: map<int, seq<int>>, owner: map<int, Place>, boot: set<int>,
                 objects: map<int, Object>,
                 tasks: map<int, int>, refcount: map<int, int>, a: int, i: int, f: int, A: seq<bv8>,
                   tables': map<int, seq<int>>)
    requires UsersOk(B, tables, owner) && HighOk(B, high, owner, boot) && VideoOk(B, tables)
      && ObjectsOk(high, boot, objects, tables, tasks)
    requires RefsOk(tables, refcount, tasks) && a in tables && 0 <= i < |tables[a]| && At(tables[a], i) == 0
      && TakesFrames(B, 1, f, A)
    requires a in tables' && tables' == tables[a := tables'[a]] && tables'[a] == MapRun(tables[a], i, f, 1, USER_FLAGS)
    ensures var owner' := Owning(owner, f, 1, a, i);
      UsersOk(A, tables', owner') && HighOk(A, high, owner', boot) && VideoOk(A, tables')
        && ObjectsOk(high, boot, objects, tables', tasks)
      && RefsOk(tables', refcount, tasks)
  {
    hide Used, UsersOk, HighOk, VideoOk, TakesFrames, FrameOf;
    FramesWereFree(B, 1, f, A);
    var owner' := Owning(owner, f, 1, a, i);
    HighKept(B, high, owner, boot, f, 1, A, owner');
    MapUser(B, tables, owner, a, i, f, 1, USER_FLAGS, A, tables', owner');
    SameSpaces(high, boot, objects, tables, tasks, refcount, a, tables');
  }

  /** Which slots an address space maps does not matter to the kernel's objects. */
  lemma SameSpaces(high: seq<int>, boot: set<int>, objects: map<int, Object>, tables: map<int, seq<int>>,
                   tasks: map<int, int>, refcount: map<int, int>, a: int,
                   tables': map<int, seq<int>>)
    requires ObjectsOk(high, boot, objects, tables, tasks) && RefsOk(tables, refcount, tasks) && a in tables
    requires a in tables' && tables' == tables[a := tables'[a]] && |tables'[a]| == |tables[a]|
    ensures ObjectsOk(high, boot, objects, tables', tasks) && RefsOk(tables', refcount, tasks)
  {
    hide FrameOf, HighSlot;
    forall b {:trigger b in tables'} | b in tables' ensures SpaceOk(high, boot, objects, tables', b) {
      assert SpaceOk(high, boot, objects, tables, b);
    }
    forall t {:trigger t in tasks} | t in tasks ensures ThreadOk(high, boot, objects, tables', tasks, t) {
      assert ThreadOk(high, boot, objects, tables, tasks, t);
    }
  }

  lemma GrownMore(before: seq<int>, table: seq<int>, i: int, f: int, n: int, B: seq<bv8>, A: seq<bv8>, table': seq<int>)
    requires Grown(before, table, i) && 0 <= i < n <= |table| && At(table, i) == 0 && TakesFrames(B, 1, f, A)
    requires table' == MapRun(table, i, f, 1, USER_FLAGS) && Needed(table, i + 1, n) + 1 <= Free(B, FRAMES - 1)
    ensures Grown(before, table', i + 1) && Needed(table', i + 1, n) <= Free(A, FRAMES - 1)
  {
    hide Used, NoneBelow, FrameOf, Entry;
    FramesWereFree(B, 1, f, A);
    InBounds(FrameUse(B), 1, f);
    OneLessFree(B, f, A, FRAMES - 1);
    NewEntry(table, i, f, 1, USER_FLAGS, i);
    assert forall k :: i + 1 <= k < n ==> At(table', k) == At(table, k);
    NeededSame(table, table', i + 1, n);
    forall k {:trigger At(table', k)} | 0 <= k < i + 1
      ensures At(table', k) != 0
    {
      assert k < i ==> At(table, k) != 0;
    }
    forall k {:trigger At(table', k)} | At(before, k) != 0 || k >= i + 1 ensures At(table', k) == At(before, k) {
      assert k == i ==> At(table, i) == At(before, i);
      assert At(table, k) == At(before, k);
    }
  }

  lemma GrownSame(before: seq<int>, table: seq<int>, i: int, n: int)
    requires Grown(before, table, i) && 0 <= i < n && At(table, i) != 0
    ensures Grown(before, table, i + 1) && Needed(table, i + 1, n) == Needed(table, i, n)
  {
    assert At(table, i) == At(before, i);
  }

  lemma NewThread(H: seq<int>, boot: set<int>, O: map<int, Object>, tables: map<int, seq<int>>, tasks: map<int, int>,
                  t: int, high: seq<int>, objects: map<int, Object>)
    requires NewPages(H, boot, t, 3, high) && ObjectsOk(H, boot, O, tables, tasks)
      && ObjectsOk(high, boot, O, tables, tasks)
    requires objects == O[HighSlot(t) := Thread(t)] && BootOk(H, boot)
    ensures t !in tasks && t != 0 && ObjectsOk(high, boot, objects, tables, tasks)
    ensures forall a {:trigger a in tables} :: a in tables ==> ThreadOk(high, boot, objects, tables, tasks[t := a], t)
  {
    hide FrameOf;
    var s := HighSlot(t);
    assert At(high, s) != 0 && At(H, s) == 0;
    forall b {:trigger b in tables} | b in tables ensures SpaceOk(high, boot, objects, tables, b) {
      assert SpaceOk(H, boot, O, tables, b) && SpaceOk(high, boot, O, tables, b);
    }
    forall u {:trigger u in tasks} | u in tasks ensures ThreadOk(high, boot, objects, tables, tasks, u) && u != t {
      assert ThreadOk(H, boot, O, tables, tasks, u) && ThreadOk(high, boot, O, tables, tasks, u);
    }
  }

  lemma NoStack(B: seq<bv8>, table: seq<int>, r: Allocation, A: seq<bv8>, table': seq<int>)
    requires Allocates(B, table, 0, STACK_SIZE, USER_FLAGS, r, A, table') && !r.Allocated? && |table| == SLOTS
    ensures NoneBelow(FrameUse(A), 2, FRAMES - 2)
      || forall k {:trigger At(table', k)} :: 0 < k < 1022 ==> At(table', k) != 0 || At(table', k + 1) != 0
  {
    hide Used;
    if r.Halted? {
      forall k {:trigger At(table', k)} | 0 < k < 1022 ensures At(table', k) != 0 || At(table', k + 1) != 0 {
        SlotsShort(table, 2, k);
      }
    }
  }

  lemma NotMapped(B: seq<bv8>, T: map<int, seq<int>>, a: int, r: Allocation, A: seq<bv8>, tables: map<int, seq<int>>,
                  owner: map<int, Place>, high: seq<int>, boot: set<int>)
    requires a in T && a in tables && tables == T[a := tables[a]]
      && Allocates(B, T[a], 0, STACK_SIZE, USER_FLAGS, r, A, tables[a]) && !r.Allocated?
    requires UsersOk(B, T, owner) && HighOk(B, high, owner, boot) && VideoOk(B, T)
    ensures tables == T && UsersOk(A, T, owner) && HighOk(A, high, owner, boot) && VideoOk(A, T)
  {
    hide Used, Least, NoneBelow, UsersOk, HighOk, VideoOk;
    if r.Halted? {
      var f :| TakesFrames(B, STACK_SIZE, f, A);
      FramesLost(B, high, T, owner, boot, STACK_SIZE, f, A);
    }
  }

  /** Frames that are taken and then mapped nowhere are lost, but harm no one. */
  lemma FramesLost(B: seq<bv8>, high: seq<int>, tables: map<int, seq<int>>, owner: map<int, Place>, boot: set<int>,
                   n: int, f: int, A: seq<bv8>)
    requires UsersOk(B, tables, owner) && HighOk(B, high, owner, boot) && VideoOk(B, tables) && TakesFrames(B, n, f, A)
    ensures UsersOk(A, tables, owner) && HighOk(A, high, owner, boot) && VideoOk(A, tables)
  {
    hide Used, TakesFrames, UsersOk, HighOk, VideoOk;
    FramesWereFree(B, n, f, A);
    HighKept(B, high, owner, boot, f, n, A, owner);
    UsersKept(B, tables, owner, f, n, A, owner);
    VideoKept(B, tables, f, n, A);
  }

  lemma StackFrames(B: seq<bv8>, T: seq<int>, r: Allocation, A: seq<bv8>, T': seq<int>)
    requires Allocates(B, T, 0, STACK_SIZE, USER_FLAGS, r, A, T') && r.Allocated? && |T| == SLOTS
    ensures var s, f := r.virt / PAGE, r.phys / PAGE;
      TakesFrames(B, STACK_SIZE, f, A) && 0 <= f && 0 <= s && s + STACK_SIZE <= SLOTS
        && T' == MapRun(T, s, f, STACK_SIZE, USER_FLAGS) && r.phys % PAGE == 0
    ensures forall k {:trigger At(T, k)} :: r.virt / PAGE <= k < r.virt / PAGE + STACK_SIZE ==> At(T, k) == 0
  {
    hide Used, NoneBelow;
    var s := r.virt / PAGE;
    InBounds(FrameUse(B), STACK_SIZE, r.phys / PAGE);
    InBounds(SlotUse(T), STACK_SIZE, s);
    forall k {:trigger At(T, k)} | s <= k < s + STACK_SIZE ensures At(T, k) == 0 { assert !SlotUse(T)[k]; }
  }

  lemma StackUnmapped(T: seq<int>, r: Allocation, T': seq<int>, phys: int, ok: bool, table: seq<int>)
    requires r.Allocated? && |T| == SLOTS && var s, f := r.virt / PAGE, r.phys / PAGE;
      (0 <= f && 0 <= s && s + STACK_SIZE <= SLOTS && T' == MapRun(T, s, f, STACK_SIZE, USER_FLAGS)
        && Unmaps(T', s, STACK_SIZE, phys, ok, table)
       && forall k {:trigger At(T, k)} :: s <= k < s + STACK_SIZE ==> At(T, k) == 0)
    ensures table == T
  {
    var s, f := r.virt / PAGE, r.phys / PAGE;
    forall k {:trigger At(T', k)} | s <= k < s + STACK_SIZE
      ensures At(T', k) != 0
    {
      NewEntry(T, s, f, STACK_SIZE, USER_FLAGS, k);
    }
    LeadIs(T', s, STACK_SIZE, STACK_SIZE);
    MappedThenZeroed(T, s, f, STACK_SIZE, USER_FLAGS);
  }

  lemma StackKeeps(B: seq<bv8>, high: seq<int>, tables: map<int, seq<int>>, owner: map<int, Place>, boot: set<int>,
                   objects: map<int, Object>,
                   tasks: map<int, int>, refcount: map<int, int>, a: int, i: int, f: int, A: seq<bv8>,
                     tables': map<int, seq<int>>) returns (owner': map<int, Place>)
    requires UsersOk(B, tables, owner) && HighOk(B, high, owner, boot) && VideoOk(B, tables)
      && ObjectsOk(high, boot, objects, tables, tasks)
    requires RefsOk(tables, refcount, tasks) && a in tables && 0 <= i && i + 1 < |tables[a]| && At(tables[a], i) == 0
      && At(tables[a], i + 1) == 0
    requires TakesFrames(B, STACK_SIZE, f, A)
    requires a in tables' && tables' == tables[a := tables'[a]]
      && tables'[a] == MapRun(tables[a], i, f, STACK_SIZE, USER_FLAGS)
    ensures UsersOk(A, tables', owner') && HighOk(A, high, owner', boot) && VideoOk(A, tables')
      && ObjectsOk(high, boot, objects, tables', tasks)
      && RefsOk(tables', refcount, tasks)
  {
    hide Used, UsersOk, HighOk, VideoOk, TakesFrames, FrameOf;
    FramesWereFree(B, STACK_SIZE, f, A);
    owner' := Owning(owner, f, STACK_SIZE, a, i);
    HighKept(B, high, owner, boot, f, STACK_SIZE, A, owner');
    MapUser(B, tables, owner, a, i, f, STACK_SIZE, USER_FLAGS, A, tables', owner');
    SameSpaces(high, boot, objects, tables, tasks, refcount, a, tables');
  }

  lemma Counting(tables: map<int, seq<int>>, refcount: map<int, int>, tasks: map<int, int>, a: int)
    requires RefsOk(tables, refcount, tasks) && a in tables
    ensures a in refcount && RefsOk(tables, refcount[a := refcount[a] + 1], tasks)
  {
  }

  lemma StackOnly(table: seq<int>, i: int, table': seq<int>)
    requires table' == table
      || (exists f ::
            table' == MapRun(table, i, f, STACK_SIZE, USER_FLAGS) && At(table, i) == 0 && At(table, i + 1) == 0)
    ensures forall k {:trigger At(table', k)} :: At(table, k) != 0 ==> At(table', k) == At(table, k)
  {
    hide Entry;
  }

  lemma OneMoreTask(high: seq<int>, boot: set<int>, objects: map<int, Object>, T: map<int, seq<int>>,
                    tables: map<int, seq<int>>, tasks: map<int, int>,
                    refcount: map<int, int>, a: int, t: int)
    requires ObjectsOk(high, boot, objects, tables, tasks) && a in tables && t !in tasks && a in T
      && tables == T[a := tables[a]]
    requires RefsOk(T, refcount, tasks) && a in refcount && ThreadOk(high, boot, objects, T, tasks[t := a], t)
    ensures ObjectsOk(high, boot, objects, tables, tasks[t := a])
      && RefsOk(tables, refcount[a := refcount[a] + 1], tasks[t := a])
  {
    hide FrameOf, HighSlot, RefsOk, SpaceOk;
    var more := tasks[t := a];
    forall u {:trigger u in more} | u in more ensures ThreadOk(high, boot, objects, tables, more, u) {
      if u != t { assert ThreadOk(high, boot, objects, tables, tasks, u); }
    }
    forall b {:trigger b in tables} | b in tables ensures SpaceOk(high, boot, objects, tables, b) {}
    OneMoreCounted(T, refcount, tasks, a, t, tables);
  }

  lemma OneMoreCounted(T: map<int, seq<int>>, refcount: map<int, int>, tasks: map<int, int>, a: int, t: int,
                       tables: map<int, seq<int>>)
    requires RefsOk(T, refcount, tasks) && a in T && a in refcount && t !in tasks && tables.Keys == T.Keys
    ensures RefsOk(tables, refcount[a := refcount[a] + 1], tasks[t := a])
  {
    var more := tasks[t := a];
    forall b {:trigger b in tables} | b in tables
      ensures b in refcount && refcount[a := refcount[a] + 1][b] >= |TasksOf(more, b)|
    {
      assert b in T.Keys;
      assert TasksOf(more, b) == if b == a then TasksOf(tasks, b) + {t} else TasksOf(tasks, b);
    }
  }

  ghost function NoVideo(table: seq<int>): seq<int> { ZeroRun(table, VIDEO, VIDEO_END - VIDEO) }

  /** No slot maps video memory. */
  ghost predicate Plain(table: seq<int>)
  { forall k {:trigger At(table, k)} :: At(table, k) != 0 ==> !Video(FrameOf(At(table, k))) }

  lemma VideoUnmapped(B: seq<bv8>, tables: map<int, seq<int>>, owner: map<int, Place>, a: int, table: seq<int>)
    requires UsersOk(B, tables, owner) && VideoOk(B, tables) && a in tables && |tables[a]| == SLOTS
      && table == NoVideo(tables[a])
    ensures UsersOk(B, tables[a := table], owner) && VideoOk(B, tables - {a}) && Plain(table)
  {
    hide Used, FrameOf;
    var U := tables[a := table];
    forall b, i {:trigger UserSlotOk(B, U, owner, b, i)} ensures UserSlotOk(B, U, owner, b, i) {
      assert UserSlotOk(B, tables, owner, b, i);
      assert UserEntry(U, b, i) == 0 || UserEntry(U, b, i) == UserEntry(tables, b, i);
    }
    forall k {:trigger At(table, k)} | At(table, k) != 0 ensures !Video(FrameOf(At(table, k))) {
      assert UserSlotOk(B, tables, owner, a, k);
      assert UserEntry(tables, a, k) == At(tables[a], k) == At(table, k);
    }
    var V := tables - {a};
    forall b, i {:trigger UserEntry(V, b, i)} | b in V && Video(i)
      ensures UserEntry(V, b, i) != 0 && FrameOf(UserEntry(V, b, i)) == i
    {
      assert UserEntry(tables, b, i) != 0;
    }
  }

  lemma NoneLeftYet(owner: map<int, Place>, table: seq<int>, a: int, B: seq<bv8>)
    requires forall k {:trigger At(table, k)} :: k < 0 ==> At(table, k) == 0
    ensures FramesLeft(owner, table, a, 0, B, B)
  {
    hide Used, FrameOf;
  }

  lemma SlotFrame(B: seq<bv8>, tables: map<int, seq<int>>, owner: map<int, Place>, a: int, i: int)
    requires UsersOk(B, tables, owner) && |B| == 2048 && a in tables && Plain(tables[a]) && 0 <= i < |tables[a]|
      && tables[a][i] != 0
    ensures 0 <= tables[a][i] / PAGE < FRAMES && PlaceOf(owner, FrameOf(At(tables[a], i))) == User(a, i)
  {
    assert UserSlotOk(B, tables, owner, a, i);
    assert At(tables[a], i) == tables[a][i];
  }

  lemma OneEmptied(now: seq<bv8>, U: map<int, seq<int>>, high: seq<int>, owner: map<int, Place>, boot: set<int>,
                   V: map<int, seq<int>>, a: int, i: int,
                   now': seq<bv8>, U': map<int, seq<int>>)
    requires UsersOk(now, U, owner) && HighOk(now, high, owner, boot) && VideoOk(now, V) && a in U && Plain(U[a])
      && 0 <= i < |U[a]| && At(U[a], i) != 0
    requires PlaceOf(owner, FrameOf(At(U[a], i))) == User(a, i) && U' == U[a := U[a][i := 0]] && V == U - {a}
    requires 0 <= U[a][i] / PAGE < 8 * |now| && now' == ClearBit(now, U[a][i] / PAGE)
    requires forall g {:trigger Used(now', g)} {:trigger Used(now, g)} ::
      Used(now', g) <==> g != U[a][i] / PAGE && Used(now, g)
    ensures UsersOk(now', U', owner) && HighOk(now', high, owner, boot) && VideoOk(now', V) && Plain(U'[a])
      && BitsCleared(now, FrameOf(At(U[a], i)), 1, now')
    ensures forall k {:trigger At(U'[a], k)} :: At(U'[a], k) == if k == i then 0 else At(U[a], k)
  {
    hide Used, ClearBit;
    assert UserEntry(U, a, i) == At(U[a], i);
    assert forall k {:trigger At(U'[a], k)} :: At(U'[a], k) == if k == i then 0 else At(U[a], k);
    UnmapUser(now, U, owner, a, i, now', U');
    UserNotHigh(now, high, owner, boot, FrameOf(At(U[a], i)), now');
    forall f {:trigger Used(now', f)} | Video(f) ensures Used(now', f) { assert Used(now, f); }
  }

  lemma SpaceGone(B: seq<bv8>, U: map<int, seq<int>>, owner: map<int, Place>, a: int, V: map<int, seq<int>>)
    requires UsersOk(B, U, owner) && V == U - {a}
    ensures UsersOk(B, V, owner)
  {
    hide Used, FrameOf;
    forall b, i {:trigger UserSlotOk(B, V, owner, b, i)} ensures UserSlotOk(B, V, owner, b, i) {
      assert UserSlotOk(B, U, owner, b, i);
    }
  }

  /** n pages of kernel memory at virt, on consecutive frames. */
  ghost predicate KernelPages(high: seq<int>, boot: set<int>, virt: int, n: int) {
    var s := HighSlot(virt);
    virt >= HIGH && virt % PAGE == 0 && 1 <= n && 0 <= s && s + n <= SLOTS
      && OnFrames(high, boot, s, n, FrameOf(At(high, s)))
  }

  lemma AllMapped(B: seq<bv8>, H: seq<int>, owner: map<int, Place>, boot: set<int>, virt: int, n: int)
    requires HighOk(B, H, owner, boot) && KernelPages(H, boot, virt, n) && |B| == 2048
    ensures var s := HighSlot(virt); var f := FrameOf(At(H, s));
      0 <= f && f + n <= FRAMES && Lead(H, s, n) == n && LeadUsed(B, f, n) == n
    ensures KernelFrames(owner, FrameOf(At(H, HighSlot(virt))), n)
  {
    hide HighOk, FrameOf;
    var s := HighSlot(virt);
    var f := FrameOf(At(H, s));
    HighFrames(B, H, owner, boot, s, n, f);
    FramesOfKernel(B, H, owner, boot, s, n, f);
    forall g {:trigger Used(B, g)} | f <= g < f + n ensures Used(B, g) { assert PlaceOf(owner, g).Kernel?; }
    assert Used(B, f) && Used(B, f + n - 1);
    LeadIs(H, s, n, n);
    LeadUsedIs(B, f, n, n);
  }

  /** What a cleanup of task t, the last of address space a, frees: every frame of a but video memory, a's two pages,
      and the first page of t. Nothing else changes. */
  ghost predicate AllFreed(B: seq<bv8>, H: seq<int>, owner: map<int, Place>, table: seq<int>, a: int, t: int,
                           B': seq<bv8>) {
    forall f {:trigger Used(B', f)} ::
      Used(B', f) <==> Used(B, f) && !Mine(owner, NoVideo(table), a, f, SLOTS)
                       && !(FrameOf(At(H, HighSlot(a))) <= f < FrameOf(At(H, HighSlot(a))) + 2)
                          && f != FrameOf(At(H, HighSlot(t)))
  }

  lemma CleanedOut(B: seq<bv8>, T: map<int, seq<int>>, owner: map<int, Place>, H: seq<int>, a: int, t: int,
                   B': seq<bv8>)
    requires UsersOk(B, T, owner) && a in T && |T[a]| == SLOTS && AllFreed(B, H, owner, T[a], a, t, B')
    ensures forall k {:trigger At(T[a], k)} ::
      0 <= k < 1024 && At(T[a], k) != 0 && !(0xB0 <= k < 0xC2) ==> !Used(B', At(T[a], k) / 4096)
    ensures forall f {:trigger Used(B', f)} :: Used(B, f) && !Used(B', f) ==>
      || f == FrameOf(At(H, HighSlot(t))) || 0 <= f - FrameOf(At(H, HighSlot(a))) < 2
      || exists k :: 0 <= k < 1024 && At(T[a], k) != 0 && !(0xB0 <= k < 0xC2) && At(T[a], k) / 4096 == f
  {
    hide Used, HighSlot;
    forall k {:trigger At(T[a], k)} | 0 <= k < 1024 && At(T[a], k) != 0 && !(0xB0 <= k < 0xC2)
      ensures !Used(B', At(T[a], k) / 4096)
    {
      assert UserSlotOk(B, T, owner, a, k);
      assert At(NoVideo(T[a]), k) == At(T[a], k);
      assert Mine(owner, NoVideo(T[a]), a, At(T[a], k) / 4096, SLOTS);
    }
    forall f {:trigger Used(B', f)} | Mine(owner, NoVideo(T[a]), a, f, SLOTS)
      ensures exists k :: 0 <= k < 1024 && At(T[a], k) != 0 && !(0xB0 <= k < 0xC2) && At(T[a], k) / 4096 == f
    {
      var k := PlaceOf(owner, f).slot;
      assert At(NoVideo(T[a]), k) == if 0xB0 <= k < 0xC2 then 0 else At(T[a], k);
    }
  }

  lemma Freed(B: seq<bv8>, H: seq<int>, owner: map<int, Place>, table: seq<int>, a: int, t: int, C: seq<bv8>,
              H1: seq<int>, D: seq<bv8>, B': seq<bv8>)
    requires FramesLeft(owner, NoVideo(table), a, SLOTS, B, C) && BitsCleared(C, FrameOf(At(H, HighSlot(a))), 2, D)
    requires At(H1, HighSlot(t)) == At(H, HighSlot(t)) && BitsCleared(D, FrameOf(At(H1, HighSlot(t))), 1, B')
    ensures AllFreed(B, H, owner, table, a, t, B')
  {
    hide Used, FrameOf, Mine, NoVideo, HighSlot;
    forall f {:trigger Used(B', f)}
      ensures Used(B', f) <==> (Used(B, f) && !Mine(owner, NoVideo(table), a, f, SLOTS)
                                && !(FrameOf(At(H, HighSlot(a))) <= f < FrameOf(At(H, HighSlot(a))) + 2)
                                   && f != FrameOf(At(H, HighSlot(t))))
    {
      assert Used(D, f) <==> Used(C, f) && !(FrameOf(At(H, HighSlot(a))) <= f < FrameOf(At(H, HighSlot(a))) + 2);
    }
  }

  /** A task of an address space is counted, and if it is the only one counted, it is the only one. */
  lemma OneTaskLess(high: seq<int>, boot: set<int>, objects: map<int, Object>, tables: map<int, seq<int>>,
                    tasks: map<int, int>, refcount: map<int, int>, t: int)
    requires ObjectsOk(high, boot, objects, tables, tasks) && RefsOk(tables, refcount, tasks) && t in tasks
    ensures var a := tasks[t];
      a in tables && a in refcount && |tables[a]| == SLOTS && KernelPages(high, boot, a, 2)
      && ObjectsOk(high, boot, objects, tables, tasks - {t})
         && RefsOk(tables, refcount[a := refcount[a] - 1], tasks - {t})
  {
    hide FrameOf, RefsOk;
    var a, fewer := tasks[t], tasks - {t};
    assert ThreadOk(high, boot, objects, tables, tasks, t);
    assert SpaceOk(high, boot, objects, tables, a);
    forall u {:trigger u in fewer} | u in fewer ensures ThreadOk(high, boot, objects, tables, fewer, u) {
      assert ThreadOk(high, boot, objects, tables, tasks, u);
    }
    OneCountLess(tables, tasks, refcount, t);
  }

  lemma OneCountLess(tables: map<int, seq<int>>, tasks: map<int, int>, refcount: map<int, int>, t: int)
    requires RefsOk(tables, refcount, tasks) && t in tasks && tasks[t] in tables
    ensures tasks[t] in refcount && RefsOk(tables, refcount[tasks[t] := refcount[tasks[t]] - 1], tasks - {t})
  {
    var a, fewer := tasks[t], tasks - {t};
    forall b {:trigger b in tables} | b in tables
      ensures b in refcount && refcount[a := refcount[a] - 1][b] >= |TasksOf(fewer, b)|
    {
      assert TasksOf(fewer, b) == if b == a then TasksOf(tasks, b) - {t} else TasksOf(tasks, b);
      assert b == a ==> t in TasksOf(tasks, b);
    }
  }

  /** The pages of a thread are not those of its address space. */
  lemma OtherPages(H: seq<int>, boot: set<int>, objects: map<int, Object>, tables: map<int, seq<int>>,
                   tasks: map<int, int>, t: int, H1: seq<int>)
    requires ObjectsOk(H, boot, objects, tables, tasks) && t in tasks && H1 == ZeroRun(H, HighSlot(tasks[t]), 2)
      && |H| == SLOTS
    ensures KernelPages(H1, boot, t, 1) && At(H1, HighSlot(t)) == At(H, HighSlot(t))
  {
    hide FrameOf;
    assert ThreadOk(H, boot, objects, tables, tasks, t);
    assert SpaceOk(H, boot, objects, tables, tasks[t]);
  }

  lemma SpaceRemoved(H: seq<int>, boot: set<int>, objects: map<int, Object>, T: map<int, seq<int>>, K: map<int, int>,
                     t: int,
                     high: seq<int>, tables: map<int, seq<int>>, tasks: map<int, int>)
    requires ObjectsOk(H, boot, objects, T, K) && t in K && K[t] in T && tables == T - {K[t]} && tasks == K - {t}
      && |H| == SLOTS
    requires high == ZeroRun(ZeroRun(H, HighSlot(K[t]), 2), HighSlot(t), 1) && TasksOf(tasks, K[t]) == {}
    ensures ObjectsOk(high, boot, objects, tables, tasks)
  {
    hide FrameOf;
    var a := K[t];
    assert ThreadOk(H, boot, objects, T, K, t) && SpaceOk(H, boot, objects, T, a);
    forall b {:trigger b in tables} | b in tables ensures SpaceOk(high, boot, objects, tables, b) {
      assert SpaceOk(H, boot, objects, T, b);
    }
    forall u {:trigger u in tasks} | u in tasks ensures ThreadOk(high, boot, objects, tables, tasks, u) {
      assert ThreadOk(H, boot, objects, T, K, u);
      assert u !in TasksOf(tasks, a);
    }
  }

  lemma LastTask(T: map<int, seq<int>>, R: map<int, int>, K: map<int, int>, t: int, tables: map<int, seq<int>>,
                 refcount: map<int, int>, tasks: map<int, int>)
    requires RefsOk(T, refcount, tasks) && t in K && tables == T - {K[t]}
    ensures RefsOk(tables, refcount, tasks)
  {
    forall b {:trigger b in tables} | b in tables
      ensures b in refcount && refcount[b] >= |TasksOf(tasks, b)|
    {
      assert b in T;
    }
  }

  lemma NoTaskLeft(tables: map<int, seq<int>>, refcount: map<int, int>, tasks: map<int, int>, a: int)
    requires RefsOk(tables, refcount, tasks) && a in tables && a in refcount && refcount[a] == 0
    ensures TasksOf(tasks, a) == {}
  {
  }
}
