/** lib/malloc.c, lib/free.c and lib/realloc.c over lib/string.c, on the bytes of memory: __malloc, __free and
    __realloc, each branch a method of its own. Every method says which pointers are live afterwards, how much room they
    have, that no byte of what the program holds has changed except as asked, and where the blocks and fragments it
    touched went. */
module Heaps {
  import opened Arithmetic
  import opened Lists
  import opened FreeList
  import opened Blocks
  import opened BlockHeaps
  import opened Chains
  import opened Fragments
  import opened HeapStates

  /** The request sizes for which BLOCKIFY does not wrap around in 32 bits. */
  const MAX_REQUEST := 0xFFFF_F000

  /** BLOCKIFY(size), with the 32-bit unsigned sum of the source. */
  function Blockify(size: int): int { (size + BLOCKSIZE - 1) % 0x1_0000_0000 / BLOCKSIZE }

  lemma BlockifyExact(size: int)
    requires 0 < size < 0x1_0000_0000
    ensures Blockify(size) * BLOCKSIZE >= size <==> size <= MAX_REQUEST
    ensures size <= MAX_REQUEST ==> (Blockify(size) - 1) * BLOCKSIZE < size && Blockify(size) >= 1
    ensures size > MAX_REQUEST ==> Blockify(size) == 0
  {
  }

  /** cap is the capacity __malloc promises for a request of size bytes: the least power of two that holds it and a list
      node, or the least number of whole blocks. */
  ghost predicate Fits(size: int, cap: int) {
    if size <= BLOCKSIZE / 2 then
      exists l :: FragType(l) && cap == Pow2(l) && Pow2(l - 1) < Larger(size, 8) <= cap
    else cap - BLOCKSIZE < size <= cap && cap % BLOCKSIZE == 0
  }

  /** A small request gets less than twice what it needs, and a large one less than a block more. */
  lemma FitsMeans(size: int, cap: int)
    requires Fits(size, cap) && size > 0
    ensures size <= cap && if size <= 2048 then 8 <= cap < 2 * Larger(size, 8) else cap < size + 4096 && cap % 4096 == 0
  {
    if size <= 2048 {
      var l :| FragType(l) && cap == Pow2(l) && Pow2(l - 1) < Larger(size, 8) <= cap;
      assert Pow2(l) == 2 * Pow2(l - 1);
    }
  }

  lemma CountIs(l: int)
    ensures Count(l) == 4096 / Pow2(l)
  {
  }

  function Larger(a: int, b: int): int { if a < b then b else a }
  function Smaller(a: int, b: int): int { if a < b then a else b }

  lemma Pow2Monotone(i: int, j: int)
    requires 0 <= i <= j
    ensures Pow2(i) <= Pow2(j)
    decreases j
  {
    if i < j { Pow2Monotone(i, j - 1); }
  }

  lemma FitsSame(size: int, l: int)
    requires FragType(l) && Pow2(l - 1) < size <= Pow2(l)
    ensures Fits(size, Pow2(l))
  {
    Pow2Table();
    Pow2Monotone(l, 11);
    if size < 8 { Pow2Monotone(3, l); if l > 3 { Pow2Monotone(3, l - 1); } }
  }

  lemma HalfStep(s: int, w: int, x: int)
    requires s > 0 && w >= 1 && s * w <= x < (s + 1) * w
    ensures s / 2 * (2 * w) <= x < (s / 2 + 1) * (2 * w) && w <= x
  {
    var h := s / 2;
    assert h * (2 * w) == 2 * h * w;
    assert (s - 2 * h) * w >= 0;
    assert (2 * h + 2 - (s + 1)) * w >= 0;
    assert (s - 1) * w >= 0;
  }

  class Heap {
    const blocks: BlockHeap
    const mem: array<byte>
    const fragblocks: array<int>
    ghost var lists: FragLists

    ghost predicate Roomy()
      reads blocks
    { 4096 <= mem.Length <= WORD_LIMIT && 4096 * blocks.top <= mem.Length }

    constructor (top: int)
      requires 4 <= top && BLOCKSIZE * top <= WORD_LIMIT
      ensures Valid() && fresh(blocks) && fresh(blocks.info) && fresh(mem) && fresh(fragblocks)
      ensures forall p {:trigger Holds(p)} :: !Holds(p)
    {
      blocks := new BlockHeap(top);
      mem := new byte[4096 * top](_ => 0);
      fragblocks := new int[BLOCKLOG](_ => 0);
      lists := seq(BLOCKLOG, _ => []);
      new;
      hide Consistent, Clear, Below, Frags, Chained, Counted, Live;
      NothingYet(blocks.info[..], lists, mem[..], fragblocks[..]);
    }

    method Load(a: int) returns (v: int)
      requires 0 <= a && a + 4 <= mem.Length
      ensures v == Word(mem[..], a)
    {
      v := mem[a] as int + 256 * mem[a + 1] as int + 65536 * mem[a + 2] as int + 16777216 * mem[a + 3] as int;
    }

    method Store(a: int, v: int)
      requires 0 <= a && a + 4 <= mem.Length && 0 <= v < WORD_LIMIT
      modifies mem
      ensures mem[..] == Stored(old(mem[..]), a, v)
    {
      mem[a] := v % 256;
      mem[a + 1] := v / 256 % 256;
      mem[a + 2] := v / 65536 % 256;
      mem[a + 3] := v / 16777216;
    }

    /** Links the node p in behind prev: it takes over prev's successor, prev points to it, and so does that successor,
        if there is one. */
    method LinkAfter(prev: int, p: int, ghost h: int, ghost L: seq<int>, ghost s: nat)
      requires mem.Length <= WORD_LIMIT && Chain(mem[..], h, L) && s <= |L| && prev == Node(h, L, s)
      requires NodeAt(mem[..], p) && Avoids(h, L, p)
      modifies mem
      ensures Chain(mem[..], h, Put(L, s, p)) && OnlyNodes(old(mem[..]), mem[..], prev, p, At(L, s))
    {
      hide Chain, Word, Stored, Node, At, Put, OnlyNodes;
      ghost var m := mem[..];
      ChainFacts(m, h, L, s);
      var q := Load(prev);
      Store(p, q);
      ghost var m1 := mem[..];
      Store(p + 4, prev);
      ghost var m2 := mem[..];
      Store(prev, p);
      ghost var m3 := mem[..];
      LinkStores(m, h, L, s, p, m1, m2, m3, if q != 0 then Stored(m3, q + 4, p) else m3);
      var next := Load(p);
      if next != 0 {
        Store(next + 4, p);
      }
    }

    /** Cuts the run of n nodes from first out of the list: the node before it and the node next behind it become
        neighbours. */
    method UnlinkRun(first: int, next: int, ghost h: int, ghost L: seq<int>, ghost s: nat, ghost n: nat)
      requires mem.Length <= WORD_LIMIT && Chain(mem[..], h, L) && n >= 1 && s + n <= |L|
      requires first == At(L, s) && next == At(L, s + n)
      modifies mem
      ensures Chain(mem[..], h, Cut(L, s, n)) && OnlyNodes(old(mem[..]), mem[..], Node(h, L, s), Node(h, L, s), next)
    {
      hide Chain, Word, Stored, Node, At, Cut, OnlyNodes;
      ghost var m := mem[..];
      ChainFacts(m, h, L, s);
      ChainFacts(m, h, L, s + n);
      var prev := Load(first + 4);
      Store(prev, next);
      ghost var m1 := mem[..];
      UnlinkStores(m, h, L, s, n, m1, if next != 0 then Stored(m1, next + 4, prev) else m1);
      if next != 0 {
        Store(next + 4, prev);
      }
    }

    ghost predicate Shaped()
      reads this, blocks, blocks.info, mem
    {
      && Roomy() && blocks.Valid() && blocks.Limited()
      && Frags(blocks.info[..], blocks.busy, lists) && Chained(mem[..], lists)
    }

    ghost predicate Valid()
      reads this, blocks, blocks.info, mem, fragblocks
    { Shaped() && Counted(blocks.info[..], blocks.busy, fragblocks[..]) }

    /** p is held by the program. */
    ghost predicate Holds(p: int)
      reads this, blocks, blocks.info
    { Live(blocks.info[..], blocks.busy, lists, p) }

    ghost function Room(p: int): int
      reads this, blocks, blocks.info
    { Capacity(blocks.info[..], blocks.busy, p) }

    /** 0 in a region of whole blocks, else the logarithm of the size of the fragments in p's block. */
    ghost function TypeOf(p: int): int
      reads blocks, blocks.info
    { Sz(blocks.info[..], BlockOf(p)) }

    lemma BlockInMemory(b: int)
      requires Roomy() && blocks.Valid() && b in blocks.busy
      ensures 1 <= b < blocks.info.Length && blocks.busy[b] >= 1 && 4096 * (b + blocks.busy[b]) <= mem.Length
    {
      RegionBounds(blocks.own, blocks.busy, b, blocks.info.Length);
      assert Own(blocks.own, b + blocks.busy[b] - 1) == b;
    }

    /** __malloc, when the list of the type is not empty: its first fragment is popped. */
    method PopFragment(l: int) returns (p: int)
      requires Valid() && FragType(l) && lists[l] != []
      modifies `lists, blocks.info, mem
      ensures p == old(lists[l][0]) && lists == old(lists)[l := Cut(old(lists[l]), 0, 1)]
      ensures blocks.info == old(blocks.info) && Sz(blocks.info[..], BlockOf(p)) == l
        && SameBut(old(blocks.info[..]), blocks.info[..], BlockOf(p))
      ensures OnlyNodes(old(mem[..]), mem[..], Head(l), Head(l), old(At(lists[l], 1)))
      ensures Valid()
      {
      hide Frags, Chained, Chain, Counted, Cut, Word, Node, At, NodeAt, OnlyNodes, Mine, Unheld, Consistent, Clear,
        Below, Regions;
      FragsLength(blocks.info[..], blocks.busy, lists);
      ghost var t, m, L := blocks.info[..], mem[..], lists[l];
      PopFacts(t, blocks.busy, lists, m, l);
      BlockInMemory(BlockOf(L[0]));
      ChainFacts(m, Head(l), L, 0);
      ChainFacts(m, Head(l), L, 1);
      p := Load(Head(l));
      var after := Load(p);
      UnlinkRun(p, after, Head(l), L, 0, 1);
      assert lists[l := L] == lists;
      OthersChained(t, blocks.busy, lists, l, L, m, mem[..], Head(l), Head(l), after, Cut(L, 0, 1));
      var b := BlockOf(p);
      var e := blocks.info[b];
      e := e.(w1 := e.w1 - 1);
      if e.w1 != 0 {
        EightApart(m, p, after);
        WordKept(m, mem[..], Head(l), Head(l), after, p);
        var second := Load(p);
        e := e.(w2 := Offset(second) / Pow2(l));
      }
      blocks.SetHeader(b, e);
      PopStep(t, blocks.busy, lists, l, BlockOf(p), blocks.info[..]);
      TypesKept(t, blocks.busy, fragblocks[..], blocks.info[..], blocks.busy);
      lists := lists[l := Cut(L, 0, 1)];
    }

    /** Links fragment i of block b at the front of list l. */
    method LinkFragment(l: int, b: int, i: int, ghost m0: seq<byte>)
      requires Listed() && FragType(l) && b in blocks.busy && b >= 1 && Sz(blocks.info[..], b) == 0
        && 4096 * b + 4096 <= mem.Length && 1 <= i < Count(l)
      requires Chained(mem[..], lists[l := FreshRun(b, l, i - 1)]) && OutsideKept(m0, mem[..], b)
      modifies mem
      ensures Chained(mem[..], lists[l := FreshRun(b, l, i)]) && OutsideKept(m0, mem[..], b)
    {
      hide Frags, Chained, Chain, Put, Node, At, NodeAt, OnlyNodes, Mine, FreshRun, Pow2, Count, Avoids, OutsideKept,
        Inside;
      ghost var t, m, F := blocks.info[..], mem[..], FreshRun(b, l, i - 1);
      BreakFacts(t, blocks.busy, lists, m, l, b, i);
      var p := 4096 * b + i * Pow2(l);
      LinkAfter(Head(l), p, Head(l), F, 0);
      OthersChained(t, blocks.busy, lists, l, F, m, mem[..], Head(l), p, At(F, 0), FreshRun(b, l, i));
      OutsideStep(m0, m, mem[..], b, Head(l), p, At(F, 0));
    }

    ghost predicate Listed()
      reads this, blocks, blocks.info
    { Roomy() && Frags(blocks.info[..], blocks.busy, lists) && |lists| == BLOCKLOG }

    /** Links all fragments but the first of block b, one after the other, at the front of list l. */
    method LinkFragments(l: int, b: int)
      requires Shaped() && FragType(l) && lists[l] == [] && b in blocks.busy && Sz(blocks.info[..], b) == 0
      modifies mem
      ensures Chained(mem[..], lists[l := FreshRun(b, l, Count(l) - 1)]) && OutsideKept(old(mem[..]), mem[..], b)
    {
      hide Frags, Chained, FreshRun, Pow2, Count, OutsideKept, Consistent, Clear, Below;
      FragsLength(blocks.info[..], blocks.busy, lists);
      BlockInMemory(b);
      SizeFacts(l);
      ghost var m0 := mem[..];
      FreshNone(b, l, lists, m0);
      var i := 1;
      while i < Count(l)
        invariant 1 <= i <= Count(l)
        invariant Chained(mem[..], lists[l := FreshRun(b, l, i - 1)]) && OutsideKept(m0, mem[..], b)
      {
        LinkFragment(l, b, i, m0);
        i := i + 1;
      }
    }

    /** The call only made p live: old pointers stay, with their capacities and their bytes. */
    twostate predicate Gains(p: int)
      reads this, blocks, blocks.info, mem
    {
      && Gained(old(blocks.info[..]), old(blocks.busy), old(lists), blocks.info[..], blocks.busy, lists, p)
      && BytesKept(old(blocks.info[..]), old(blocks.busy), old(lists), old(mem[..]), mem[..])
    }

    /** The call changed nothing but, perhaps, the break. */
    twostate predicate Idle()
      reads this, blocks, blocks.info, mem, fragblocks
    { blocks.Untouched() && lists == old(lists) && mem[..] == old(mem[..]) && fragblocks[..] == old(fragblocks[..]) }

    /** No block changed hands. */
    twostate predicate SameBlocks()
      reads this, blocks
    { blocks.own == old(blocks.own) && blocks.busy == old(blocks.busy) }

    /** p is the first fragment of a block that was free or new; the others are the list of their type. */
    twostate predicate BrokenUp(p: int, l: int)
      requires |old(lists)| == BLOCKLOG && FragType(l)
      reads this, blocks
    {
      && p % 4096 == 0 && BlockOf(p) !in old(blocks.busy) && blocks.busy == old(blocks.busy)[BlockOf(p) := 1]
      && lists == old(lists)[l := FreshRun(BlockOf(p), l, Count(l) - 1)]
    }

    /** A free fragment of type l is used before a block is broken up, and a block is asked of the system only when none
        is free. */
    twostate predicate ServedFrom(p: int, l: int)
      requires |old(lists)| == BLOCKLOG && FragType(l)
      reads this, blocks
    {
      if old(lists[l]) != [] then
        p == old(lists[l][0]) && lists == old(lists)[l := Cut(old(lists[l]), 0, 1)] && SameBlocks()
      else
        && (p != 0 ==> BrokenUp(p, l))
        && (p == 0 || blocks.own.Keys != old(blocks.own.Keys) ==> NoRoom(old(blocks.own), 1))
    }

    /** __malloc of more than half a block. */
    method MallocLarge(n: int) returns (p: int)
      requires Valid() && n >= 1
      modifies blocks, blocks.info
      ensures lists == old(lists) && mem[..] == old(mem[..]) && fragblocks[..] == old(fragblocks[..])
      ensures p == 0 ==> Idle()
      ensures p != 0 ==> p % 4096 == 0 && p > 0 && Sz(blocks.info[..], BlockOf(p)) == 0
      ensures p != 0 ==> BlockOf(p) !in old(blocks.busy) && blocks.busy == old(blocks.busy)[BlockOf(p) := n]
      ensures p != 0 ==> Gains(p) && Room(p) == 4096 * n
      ensures p == 0 || blocks.own.Keys != old(blocks.own.Keys) ==> NoRoom(old(blocks.own), n)
      ensures !NoRoom(old(blocks.own), n) ==>
        NextFit(old(blocks.info[..]), old(blocks.S), old(blocks.heapindex), BlockOf(p), n)
      ensures blocks.info == old(blocks.info) || fresh(blocks.info)
      ensures old(blocks.log) <= blocks.log && (!NoRoom(old(blocks.own), n) ==> blocks.log == old(blocks.log))
      ensures p == 0 ==> old(blocks.log) < blocks.log && blocks.log[|blocks.log| - 1].Refused?
      ensures Valid()
    {
      hide Frags, Chained, Counted, Gained, BytesKept, Consistent, Clear, Below, NoRoom, NextFit, Allocated,
        SameEntries, Paint, Capacity, Live;
      var r := blocks.AllocBlocks(n);
      if r.None? { return 0; }
      BlockInMemory(r.value);
      AllocStep(old(blocks.info[..]), old(blocks.busy), lists, fragblocks[..], blocks.info[..], r.value, n);
      BytesSame(old(blocks.info[..]), old(blocks.busy), lists, mem[..]);
      p := 4096 * r.value;
    }

    /** Breaks the large block b, just obtained, into fragments of type l. */
    method BreakBlock(l: int, b: int)
      requires Valid() && FragType(l) && lists[l] == [] && b in blocks.busy && Sz(blocks.info[..], b) == 0
        && blocks.busy[b] == 1
      modifies `lists, blocks.info, mem, fragblocks
      ensures lists == old(lists)[l := FreshRun(b, l, Count(l) - 1)] && OutsideKept(old(mem[..]), mem[..], b)
      ensures SameBut(old(blocks.info[..]), blocks.info[..], b) && Sz(blocks.info[..], b) == l
      ensures Valid()
    {
      hide Frags, Chained, Counted, FreshRun, Pow2, OutsideKept, Consistent, Clear, Below;
      FragsLength(blocks.info[..], blocks.busy, lists);
      BlockInMemory(b);
      ghost var t, counts := blocks.info[..], fragblocks[..];
      CountsLength(t, blocks.busy, counts);
      fragblocks[l] := fragblocks[l] + 1;
      LinkFragments(l, b);
      blocks.SetHeader(b, Info(l, Count(l) - 1, Count(l) - 1));
      BreakStep(t, blocks.busy, lists, l, b, blocks.info[..]);
      TypeAdded(t, blocks.busy, counts, blocks.info[..], b, l);
      lists := lists[l := FreshRun(b, l, Count(l) - 1)];
    }

    /** __malloc of at most half a block, with l the logarithm of the fragment size. */
    method MallocFragment(l: int) returns (p: int)
      requires Valid() && FragType(l)
      modifies `lists, blocks, blocks.info, mem, fragblocks
      ensures p == 0 ==> Idle()
      ensures p != 0 ==> Gains(p) && Room(p) == Pow2(l)
      ensures ServedFrom(p, l) && (p == 0 ==> NoRoom(old(blocks.own), 1))
      ensures blocks.info == old(blocks.info) || fresh(blocks.info)
      ensures old(blocks.log) <= blocks.log && (!NoRoom(old(blocks.own), 1) ==> blocks.log == old(blocks.log))
      ensures p == 0 ==> old(blocks.log) < blocks.log && blocks.log[|blocks.log| - 1].Refused?
      ensures Valid()
    {
      hide Frags, Chained, Counted, Gained, BytesKept, Consistent, Clear, Below, Capacity, Live, Pow2, FreshRun, Cut,
        OnlyNodes, OutsideKept, SameBut, Regions, NoRoom;
      ghost var t0, busy0, m0 := blocks.info[..], blocks.busy, mem[..];
      ListHead(t0, busy0, lists, m0, l);
      var next := Load(Head(l));
      if next != 0 {
        p := PopFragment(l);
        RegionsOf(t0, blocks.S, blocks.own, busy0, 0);
        PopEffect(t0, blocks.own, busy0, old(lists), l, m0, blocks.info[..], mem[..]);
      } else {
        p := MallocLarge(1);
        if p == 0 { return; }
        ghost var t1 := blocks.info[..];
        RegionsOf(t1, blocks.S, blocks.own, blocks.busy, 0);
        BreakBlock(l, BlockOf(p));
        BreakEffect(t0, busy0, blocks.own, t1, blocks.busy, old(lists), m0, l, BlockOf(p), blocks.info[..], lists[l],
            mem[..]);
      }
    }

    /** The call only ended the life of p: all other pointers stay, with their capacities and their bytes. */
    twostate predicate Loses(p: int)
      reads this, blocks, blocks.info, mem
    {
      && Lost(old(blocks.info[..]), old(blocks.busy), old(lists), blocks.info[..], blocks.busy, lists, p)
      && BytesKept(blocks.info[..], blocks.busy, lists, old(mem[..]), mem[..])
    }

    /** Region b joined the free blocks; the tail of the heap went back to the system exactly when it could. */
    twostate predicate GivenBack(b: int)
      requires b in old(blocks.busy)
      reads this, blocks
    {
      && blocks.busy == old(blocks.busy) - {b}
      && Released(Paint(old(blocks.own), b, old(blocks.busy)[b], 0), blocks.own, old(blocks.heaplimit),
           blocks.heaplimit)
      && (blocks.heaplimit != old(blocks.heaplimit) <==>
         TailFree(Paint(old(blocks.own), b, old(blocks.busy)[b], 0), b, old(blocks.heaplimit), old(blocks.brk)))
    }

    /** p went to the front of list l. */
    twostate predicate Opened(p: int, l: int)
      requires |old(lists)| == BLOCKLOG && FragType(l)
      reads this
    { lists == old(lists)[l := Put(old(lists[l]), 0, p)] }

    /** p went behind the first free fragment of its block. */
    twostate predicate Joined(p: int, l: int)
      requires |old(lists)| == BLOCKLOG && FragType(l)
      reads this
    {
      && |lists| == BLOCKLOG && lists == old(lists)[l := lists[l]]
      && PutBehind(old(lists[l]), lists[l], 4096 * BlockOf(p) + old(Pv(blocks.info[..], BlockOf(p))) * Pow2(l), p)
    }

    /** The fragments of block b, and no others, left list l. */
    twostate predicate Unlisted(b: int, l: int)
      requires |old(lists)| == BLOCKLOG && FragType(l)
      reads this
    { |lists| == BLOCKLOG && lists == old(lists)[l := lists[l]] && RunCutOut(old(lists[l]), lists[l], b, Count(l) - 1) }

    /** __free of a whole-block region. */
    method FreeLarge(b: int)
      requires Valid() && b in blocks.busy && Sz(blocks.info[..], b) == 0
      modifies blocks, blocks.info
      ensures Loses(4096 * b) && GivenBack(b) && blocks.info == old(blocks.info)
      ensures blocks.log == old(blocks.log)
      ensures Valid()
    {
      hide Frags, Chained, Counted, Lost, BytesKept, Consistent, Clear, Below, Capacity, Live, SameEntries, Paint,
        Released, TailFree;
      ghost var t0, busy0 := blocks.info[..], blocks.busy;
      LargeHeader(t0, busy0, lists, b);
      blocks.FreeBlocks(b);
      FreeStep(t0, busy0, lists, fragblocks[..], blocks.info[..], b);
      BytesSame(blocks.info[..], blocks.busy, lists, mem[..]);
    }

    /** The first free fragment of its block to join: a new run at the front of the list. */
    method OpenRun(p: int, l: int)
      requires Valid() && Holds(p) && FragType(l) && Sz(blocks.info[..], BlockOf(p)) == l
        && Nx(blocks.info[..], BlockOf(p)) == 0
      modifies `lists, blocks.info, mem
      ensures Loses(p) && Opened(p, l)
      ensures Valid()
    {
      hide Frags, Chained, Chain, Counted, Lost, BytesKept, Consistent, Clear, Below, Regions, Put, Pow2, Mine, NodeAt,
        OnlyNodes, Node, At, RunAt, SameBut;
      ghost var t, m, busy := blocks.info[..], mem[..], blocks.busy;
      BlockInMemory(BlockOf(p));
      ghost var s := FragmentFacts(t, busy, lists, m, p);
      EndFacts(t, busy, lists, m, l, 0);
      ghost var L := lists[l];
      blocks.SetHeader(BlockOf(p), blocks.info[BlockOf(p)].(w1 := 1, w2 := Offset(p) / Pow2(l)));
      HeadNode(l, L);
      LinkAfter(Head(l), p, Head(l), L, 0);
      assert lists[l := L] == lists;
      OthersChained(t, busy, lists, l, L, m, mem[..], Head(l), p, At(L, 0), Put(L, 0, p));
      OpenStep(t, busy, lists, l, BlockOf(p), p, blocks.info[..]);
      TypesStay(t, busy, fragblocks[..], blocks.info[..], BlockOf(p));
      RegionsOf(t, blocks.S, blocks.own, busy, 0);
      PutEffect(t, blocks.own, busy, lists, l, 0, p, m, blocks.info[..], mem[..]);
      lists := lists[l := Put(L, 0, p)];
    }

    /** A fragment joins its block's run, right behind the first one. */
    method JoinRun(p: int, l: int)
      requires Valid() && Holds(p) && FragType(l) && Sz(blocks.info[..], BlockOf(p)) == l
        && Nx(blocks.info[..], BlockOf(p)) > 0
      modifies `lists, blocks.info, mem
      ensures Loses(p) && Joined(p, l)
      ensures Valid()
    {
      hide Frags, Chained, Chain, Counted, Lost, BytesKept, Consistent, Clear, Below, Regions, Put, Pow2, Mine, NodeAt,
        OnlyNodes, Node, At, SameBut;
      ghost var t, m, busy := blocks.info[..], mem[..], blocks.busy;
      var b := BlockOf(p);
      BlockInMemory(b);
      ghost var s := FragmentFacts(t, busy, lists, m, p);
      EndFacts(t, busy, lists, m, l, s + 1);
      ghost var L := lists[l];
      var prev := 4096 * b + blocks.info[b].w2 * Pow2(l);
      AfterFirst(l, L, s);
      LinkAfter(prev, p, Head(l), L, s + 1);
      assert lists[l := L] == lists;
      OthersChained(t, busy, lists, l, L, m, mem[..], prev, p, At(L, s + 1), Put(L, s + 1, p));
      blocks.SetHeader(b, blocks.info[b].(w1 := blocks.info[b].w1 + 1));
      JoinStep(t, busy, lists, l, b, s, p, blocks.info[..]);
      TypesStay(t, busy, fragblocks[..], blocks.info[..], b);
      RegionsOf(t, blocks.S, blocks.own, busy, 0);
      PutEffect(t, blocks.own, busy, lists, l, s + 1, p, m, blocks.info[..], mem[..]);
      lists := lists[l := Put(L, s + 1, p)];
    }

    /** From the first free fragment of a block, the walk of BLOCKSIZE >> type minus one steps to the end of its run. */
    method EndOfRun(prev: int, l: int, ghost s: nat) returns (next: int)
      requires Shaped() && FragType(l) && s + Count(l) - 1 <= |lists[l]| && prev == At(lists[l], s)
      ensures next == At(lists[l], s + Count(l) - 1)
    {
      hide Frags, Chained, Chain, Counted, Consistent, Clear, Below, Pow2, Word, At, Node;
      FragsLength(blocks.info[..], blocks.busy, lists);
      ghost var L := lists[l];
      SizeFacts(l);
      ChainedAt(mem[..], lists, l);
      next := prev;
      var i := 1;
      while i < Count(l)
        invariant 1 <= i <= Count(l) && next == At(L, s + i - 1)
      {
        ChainFacts(mem[..], Head(l), L, s + i - 1);
        ChainFacts(mem[..], Head(l), L, s + i);
        StepNode(l, L, s + i - 1);
        next := Load(next);
        i := i + 1;
      }
    }

    /** All the other fragments of p's block are free: they leave the list, and the block is a large one again. */
    method ReleaseRun(p: int, l: int)
      requires Valid() && Holds(p) && FragType(l) && Sz(blocks.info[..], BlockOf(p)) == l
        && Nx(blocks.info[..], BlockOf(p)) == Count(l) - 1
      modifies `lists, blocks.info, mem, fragblocks
      ensures Emptied(old(blocks.info[..]), blocks.busy, old(lists), blocks.info[..], lists, BlockOf(p), p)
      ensures BytesKept(blocks.info[..], blocks.busy, lists, old(mem[..]), mem[..])
      ensures BlockOf(p) in blocks.busy && Sz(blocks.info[..], BlockOf(p)) == 0 && Unlisted(BlockOf(p), l)
      ensures Valid()
    {
      hide Frags, Chained, Chain, Counted, BytesKept, Consistent, Clear, Below, Regions, Cut, Pow2, Count, Mine, NodeAt,
        OnlyNodes, Node, At, SameBut, Live, Capacity;
      ghost var t, m, busy, counts, Ls := blocks.info[..], mem[..], blocks.busy, fragblocks[..], lists;
      LiveBlock(t, busy, Ls, p);
      var b := BlockOf(p);
      BlockInMemory(b);
      ghost var s := FragmentFacts(t, busy, Ls, m, p);
      ghost var L, n := Ls[l], Count(l) - 1;
      SizeFacts(l);
      CountsLength(t, busy, counts);
      RegionsOf(t, blocks.S, blocks.own, busy, 0);
      AfterFirst(l, L, s);
      var prev := 4096 * b + blocks.info[b].w2 * Pow2(l);
      fragblocks[l] := fragblocks[l] - 1;
      var next := EndOfRun(prev, l, s);
      EndFacts(t, busy, Ls, m, l, s);
      EndFacts(t, busy, Ls, m, l, s + n);
      UnlinkRun(prev, next, Head(l), L, s, n);
      ghost var C := Cut(L, s, n);
      assert Ls[l := L] == Ls;
      OthersChained(t, busy, Ls, l, L, m, mem[..], Node(Head(l), L, s), Node(Head(l), L, s), next, C);
      blocks.SetHeader(b, blocks.info[b].(w0 := 0, w1 := 1));
      ghost var t1 := blocks.info[..];
      ReclaimStep(t, busy, Ls, l, b, s, t1);
      TypeRemoved(t, busy, counts, t1, b, l);
      ReclaimEffect(t, blocks.own, busy, Ls, l, b, s, n, p, m, t1, mem[..]);
      lists := lists[l := C];
    }

    /** __free of the last live fragment of a block of which the type can be spared. */
    method ReclaimBlock(p: int, l: int)
      requires Valid() && Holds(p) && FragType(l) && Sz(blocks.info[..], BlockOf(p)) == l
        && Nx(blocks.info[..], BlockOf(p)) == Count(l) - 1
      modifies `lists, blocks, blocks.info, mem, fragblocks
      ensures BlockOf(p) in old(blocks.busy) && Loses(p) && GivenBack(BlockOf(p)) && Unlisted(BlockOf(p), l)
        && blocks.info == old(blocks.info)
      ensures blocks.log == old(blocks.log)
      ensures Valid()
    {
      hide Frags, Chained, Chain, Counted, Lost, BytesKept, Consistent, Clear, Below, Regions, Pow2, Count, Live,
        Capacity, Released, Emptied, TailFree, Paint;
      ghost var t, m, busy, Ls := blocks.info[..], mem[..], blocks.busy, lists;
      ReleaseRun(p, l);
      ghost var t1 := blocks.info[..];
      FreeLarge(BlockOf(p));
      ReclaimLost(t, busy, Ls, t1, lists, blocks.info[..], blocks.busy, BlockOf(p), p, m, mem[..]);
    }

    /** The least logarithm of a fragment that holds the size: one more than how often the size less one can be
        halved. */
    method FragmentLog(size: int) returns (log: int)
      requires 8 <= size <= BLOCKSIZE / 2
      ensures FragType(log) && Pow2(log - 1) < size <= Pow2(log)
    {
      var s := (size - 1) / 2;
      log := 1;
      while s != 0
        invariant s >= 0 && log >= 1 && s * Pow2(log) <= size - 1 < (s + 1) * Pow2(log) && Pow2(log - 1) <= size - 1
      {
        HalfStep(s, Pow2(log), size - 1);
        log := log + 1;
        s := s / 2;
      }
      Pow2Table();
      if log > 11 { Pow2Monotone(11, log - 1); }
      if log < 3 { Pow2Monotone(log, 2); }
    }

    /** __malloc of at most half a block: l is the least logarithm that holds the size. */
    method MallocSmall(size: int) returns (p: int, ghost l: int)
      requires Valid() && 8 <= size <= BLOCKSIZE / 2
      modifies `lists, blocks, blocks.info, mem, fragblocks
      ensures FragType(l) && Pow2(l - 1) < size <= Pow2(l)
      ensures p == 0 ==> Idle()
      ensures p != 0 ==> Gains(p) && Room(p) == Pow2(l)
      ensures ServedFrom(p, l) && (p == 0 ==> NoRoom(old(blocks.own), 1))
      ensures blocks.info == old(blocks.info) || fresh(blocks.info)
      ensures old(blocks.log) <= blocks.log && (!NoRoom(old(blocks.own), 1) ==> blocks.log == old(blocks.log))
      ensures p == 0 ==> old(blocks.log) < blocks.log && blocks.log[|blocks.log| - 1].Refused?
      ensures Valid()
    {
      hide Frags, Chained, Counted, Gained, BytesKept, Consistent, Clear, Below, Capacity, Live, Pow2, NoRoom, FreshRun,
        Cut;
      var log := FragmentLog(size);
      l := log;
      p := MallocFragment(log);
    }

    /** p is a fragment of the least type that holds the size. */
    twostate predicate SmallServed(p: int, size: int)
      requires |old(lists)| == BLOCKLOG
      reads this, blocks
    { exists l :: FragType(l) && Pow2(l - 1) < Larger(size, 8) <= Pow2(l) && ServedFrom(p, l) }

    /** The heap grows, or the request fails, only when no n blocks in a row are free; otherwise it gets the next
        cluster that holds n blocks. */
    twostate predicate LargeServed(p: int, n: int)
      reads this, blocks, blocks.info
    {
      && (p == 0 || blocks.own.Keys != old(blocks.own.Keys) ==> NoRoom(old(blocks.own), n))
      && (!NoRoom(old(blocks.own), n) ==>
            NextFit(old(blocks.info[..]), old(blocks.S), old(blocks.heapindex), BlockOf(p), n))
    }

    /** __malloc */
    method Malloc(size: int) returns (p: int)
      requires Valid() && 0 <= size <= MAX_REQUEST
      modifies `lists, blocks, blocks.info, mem, fragblocks
      ensures size == 0 ==> p == 0
      ensures p == 0 ==> Idle()
      ensures p != 0 ==> Gains(p) && Room(p) >= size && Fits(size, Room(p))
      ensures p == 0 && size > 0 ==> NoRoom(old(blocks.own), Blockify(size))
      ensures 0 < size <= BLOCKSIZE / 2 ==> SmallServed(p, size)
      ensures size > BLOCKSIZE / 2 ==> LargeServed(p, Blockify(size))
      ensures blocks.info == old(blocks.info) || fresh(blocks.info)
      // the system is asked only when that many blocks are nowhere free in a row, and no request fails that it grants
      ensures old(blocks.log) <= blocks.log
      ensures blocks.log != old(blocks.log) ==> NoRoom(old(blocks.own), Blockify(size))
      ensures size == 0 ==> blocks.log == old(blocks.log)
      ensures p == 0 && size > 0 ==> old(blocks.log) < blocks.log && blocks.log[|blocks.log| - 1].Refused?
      ensures Valid()
    {
      hide Frags, Chained, Counted, Gained, BytesKept, Consistent, Clear, Below, Capacity, Live, Pow2, NoRoom, NextFit,
        Cut, FreshRun, Heap.ServedFrom;
      if size == 0 { return 0; }
      var request := Larger(size, 8);
      if request <= BLOCKSIZE / 2 {
        ghost var l;
        p, l := MallocSmall(request);
      } else {
        BlockifyExact(request);
        p := MallocLarge(Blockify(request));
      }
    }

    /** Where p went, given the type and the number of free fragments of its block: a region becomes free blocks, and so
        does the block of a last live fragment, unless it is the only one of its type; any other fragment joins its
        list. */
    twostate predicate Freed(p: int, l: int, nfree: int)
      requires |old(lists)| == BLOCKLOG && fragblocks.Length == BLOCKLOG && BlockOf(p) in old(blocks.busy)
      reads this, blocks
    {
      && (l == 0 ==> GivenBack(BlockOf(p)) && lists == old(lists))
      && (l != 0 ==> FragType(l))
      && (l != 0 && nfree == Count(l) - 1 && old(fragblocks[l]) > 1 ==>
         GivenBack(BlockOf(p)) && Unlisted(BlockOf(p), l))
      && (l != 0 && !(nfree == Count(l) - 1 && old(fragblocks[l]) > 1) ==>
         SameBlocks() && if nfree != 0 then Joined(p, l) else Opened(p, l))
    }

    /** __free */
    method Free(p: int)
      requires Valid() && (p == 0 || Holds(p))
      modifies `lists, blocks, blocks.info, mem, fragblocks
      ensures p == 0 ==> Idle()
      ensures p != 0 ==> Loses(p)
      ensures p != 0 ==> Freed(p, old(TypeOf(p)), old(Nx(blocks.info[..], BlockOf(p))))
      // the block is free again if it was a region, or if its other fragments are free and it can be spared
      ensures p != 0 ==> (BlockOf(p) !in blocks.busy <==>
        || old(TypeOf(p)) == 0
        || (old(Nx(blocks.info[..], BlockOf(p))) == 4096 / Pow2(old(TypeOf(p))) - 1
            && |old(fragblocks[..])| > old(TypeOf(p)) >= 0 && old(fragblocks[..])[old(TypeOf(p))] > 1))
      ensures blocks.info == old(blocks.info)
      ensures blocks.log == old(blocks.log)
      ensures Valid()
    {
      hide Frags, Chained, Counted, Lost, BytesKept, Consistent, Clear, Below, Capacity, Live, Pow2, Released, TailFree,
        Paint, Count;
      if p == 0 { return; }
      TypeFacts(blocks.info[..], blocks.busy, lists, p);
      CountsLength(blocks.info[..], blocks.busy, fragblocks[..]);
      var b := BlockOf(p);
      BlockInMemory(b);
      var l := blocks.info[b].w0;
      CountIs(l);
      if l == 0 {
        FreeLarge(b);
      } else if blocks.info[b].w1 == Count(l) - 1 && fragblocks[l] > 1 {
        ReclaimBlock(p, l);
      } else if blocks.info[b].w1 != 0 {
        JoinRun(p, l);
      } else {
        OpenRun(p, l);
      }
    }

    /** memcpy of lib/string.c: upwards, byte by byte. */
    method Memcpy(dst: int, src: int, n: int)
      requires 0 <= n && 0 <= dst && 0 <= src && dst + n <= mem.Length && src + n <= mem.Length
      requires dst + n <= src || src + n <= dst
      modifies mem
      ensures Copied(old(mem[..]), src, mem[..], dst, n) && Wrote(old(mem[..]), mem[..], dst, n)
    {
      CopyUp(dst, src, n);
    }

    method CopyUp(dst: int, src: int, n: int)
      requires 0 <= n && 0 <= dst && 0 <= src && dst + n <= mem.Length && src + n <= mem.Length
      requires dst <= src || src + n <= dst
      modifies mem
      ensures Copied(old(mem[..]), src, mem[..], dst, n) && Wrote(old(mem[..]), mem[..], dst, n)
    {
      var i := 0;
      while i < n
        invariant 0 <= i <= n
        invariant forall x {:trigger mem[x]} :: dst <= x < dst + i ==> mem[x] == old(mem[x - dst + src])
        invariant forall x {:trigger mem[x]} :: 0 <= x < mem.Length && !(dst <= x < dst + i) ==> mem[x] == old(mem[x])
      {
        mem[dst + i] := mem[src + i];
        i := i + 1;
      }
    }

    method CopyDown(dst: int, src: int, n: int)
      requires 0 <= n && 0 <= dst && 0 <= src && dst + n <= mem.Length && src + n <= mem.Length && src <= dst
      modifies mem
      ensures Copied(old(mem[..]), src, mem[..], dst, n) && Wrote(old(mem[..]), mem[..], dst, n)
    {
      var i := n;
      while i > 0
        invariant 0 <= i <= n
        invariant forall x {:trigger mem[x]} :: dst + i <= x < dst + n ==> mem[x] == old(mem[x - dst + src])
        invariant forall x {:trigger mem[x]} ::
          0 <= x < mem.Length && !(dst + i <= x < dst + n) ==> mem[x] == old(mem[x])
      {
        i := i - 1;
        mem[dst + i] := mem[src + i];
      }
    }

    /** memmove of lib/string.c: the direction depends on which way the regions may overlap. */
    method Memmove(dst: int, src: int, n: int)
      requires 0 <= n && 0 <= dst && 0 <= src && dst + n <= mem.Length && src + n <= mem.Length
      modifies mem
      ensures Copied(old(mem[..]), src, mem[..], dst, n) && Wrote(old(mem[..]), mem[..], dst, n)
    {
      if dst < src { CopyUp(dst, src, n); } else { CopyDown(dst, src, n); }
    }

    /** p gave way to r, which starts with the first k bytes of p; all other pointers keep lives, capacities and
        bytes. */
    twostate predicate Resized(p: int, r: int, k: int)
      reads this, blocks, blocks.info, mem
    {
      && Replaced(old(blocks.info[..]), old(blocks.busy), old(lists), blocks.info[..], blocks.busy, lists, p, r)
      && OthersKept(old(blocks.info[..]), old(blocks.busy), old(lists), old(mem[..]), mem[..], p)
      && Copied(old(mem[..]), p, mem[..], r, k)
    }

    lemma RegionInMemory(p: int)
      requires Shaped() && Holds(p)
      ensures 4096 <= p && 0 <= Room(p) && p + Room(p) <= mem.Length
    {
      hide Pow2, HasRun, Consistent, Regions, Clear, Below, Chained;
      BlockInMemory(BlockOf(p));
      LiveSlot(blocks.info[..], blocks.busy, lists, p);
      SlotExtent(blocks.info[..], blocks.busy, lists, p);
    }

    /** A new region, a copy of k bytes, and the end of the old region. */
    method MoveTo(p: int, size: int, k: int) returns (r: int)
      requires Valid() && Holds(p) && 0 < size <= MAX_REQUEST && 0 <= k <= size && k <= Room(p)
      modifies `lists, blocks, blocks.info, mem, fragblocks
      ensures r == 0 ==> Idle() && NoRoom(old(blocks.own), Blockify(size))
      ensures r != 0 ==> Resized(p, r, k) && Fits(size, Room(r))
      ensures blocks.info == old(blocks.info) || fresh(blocks.info)
      ensures old(blocks.log) <= blocks.log
      ensures r == 0 ==> old(blocks.log) < blocks.log && blocks.log[|blocks.log| - 1].Refused?
      ensures Valid()
    {
      hide Frags, Chained, Counted, Gained, Lost, BytesKept, Consistent, Clear, Below, Capacity, Live, Pow2, NoRoom,
        Fits, Copied, Wrote, Replaced, OthersKept;
      r := Malloc(size);
      if r != 0 {
        ghost var t1, busy1, own1, L1, m1 := blocks.info[..], blocks.busy, blocks.own, lists, mem[..];
        GainedFacts(old(blocks.info[..]), old(blocks.busy), old(lists), t1, busy1, L1, p, r);
        RegionsOf(t1, blocks.S, own1, busy1, 0);
        LiveApart(t1, own1, busy1, L1, p, r);
        RegionInMemory(p);
        RegionInMemory(r);
        Memcpy(r, p, k);
        ghost var m2 := mem[..];
        WriteKeepsChains(t1, own1, busy1, L1, r, k, m1, m2);
        Free(p);
        MoveEffect(old(blocks.info[..]), old(blocks.busy), old(lists), old(mem[..]), p, own1, t1, busy1, L1, m1, r, k,
            m2,
          blocks.info[..], blocks.busy, lists, mem[..]);
      }
    }

    /** Whatever was done has been undone: the same regions, the same free blocks, the same pointers and the same
        bytes. */
    twostate predicate Undone()
      reads this, blocks, blocks.info, mem, fragblocks
    {
      && blocks.own == old(blocks.own) && blocks.busy == old(blocks.busy) && lists == old(lists)
      && mem[..] == old(mem[..]) && fragblocks[..] == old(fragblocks[..])
      && SamePointers(old(blocks.info[..]), old(blocks.busy), old(lists), blocks.info[..], blocks.busy, lists)
    }

    /** The growth branch of __realloc. */
    method GrowLarge(b: int, n: int) returns (r: int)
      requires Valid() && b in blocks.busy && Sz(blocks.info[..], b) == 0 && n > blocks.busy[b]
      modifies blocks, blocks.info, mem
      ensures lists == old(lists) && fragblocks[..] == old(fragblocks[..])
      ensures r == 0 ==> Undone()
      ensures r != 0 ==> Resized(4096 * b, r, 4096 * old(blocks.busy[b])) && Room(r) == 4096 * n
      ensures Refitted(b, n, r)
      ensures blocks.info == old(blocks.info) || fresh(blocks.info)
      ensures old(blocks.log) <= blocks.log
      ensures r == 0 ==> old(blocks.log) < blocks.log && blocks.log[|blocks.log| - 1].Refused?
      ensures Valid()
    {
      hide Frags, Chained, Counted, Consistent, Clear, Below, Live, Pow2, SameEntries, Replaced, OthersKept, Copied,
        Released, Paint, Wrote, Regions, Allocated, SamePointers, Capacity, NoRoom;
      ghost var t, busy, m := blocks.info[..], blocks.busy, mem[..];
      LargeHeader(t, busy, lists, b);
      BlockInMemory(b);
      var oldblocks := blocks.info[b].w1;
      var c := blocks.Regrow(b, n);
      if c.None? {
        UndoneStep(t, busy, lists, fragblocks[..], blocks.info[..], b);
        return 0;
      }
      BlockInMemory(c.value);
      RegionStep(t, busy, lists, fragblocks[..], blocks.info[..], b, c.value, n);
      RegionsOf(blocks.info[..], blocks.S, blocks.own, blocks.busy, 0);
      r := 4096 * c.value;
      LiveOf(t, busy, lists, blocks.info[..], blocks.busy, lists, 4096 * b, r);
      if 4096 * b != r {
        Memmove(r, 4096 * b, oldblocks * BLOCKSIZE);
      } else {
        CopyNothing(m, r, oldblocks * BLOCKSIZE);
      }
      WriteKeepsChains(blocks.info[..], blocks.own, blocks.busy, lists, r, 4096 * oldblocks, m, mem[..]);
      WroteEffect(t, busy, lists, blocks.own, blocks.info[..], blocks.busy, 4096 * b, r, 4096 * oldblocks, m, mem[..]);
    }

    /** Region b kept its first n blocks, and the others were given back. */
    twostate predicate CutDown(b: int, n: int)
      requires b in old(blocks.busy)
      reads this, blocks
    {
      && blocks.busy == old(blocks.busy)[b := n]
      && Released(Paint(old(blocks.own), b + n, old(blocks.busy)[b] - n, 0), blocks.own, old(blocks.heaplimit),
           blocks.heaplimit)
    }

    /** How a region b answers a request for n blocks: it shrinks or stays where it is; it grows wherever there is room,
        its own blocks counted as free, and fails only when there is none. */
    twostate predicate Refitted(b: int, n: int, r: int)
      requires b in old(blocks.busy)
      reads this, blocks
    {
      if n < old(blocks.busy)[b] then r == 4096 * b && CutDown(b, n)
      else if n == old(blocks.busy)[b] then r == 4096 * b && SameBlocks()
      else if r == 0 then NoRoom(Paint(old(blocks.own), b, old(blocks.busy)[b], 0), n)
      else Allocated(Paint(old(blocks.own), b, old(blocks.busy)[b], 0), blocks.own, BlockOf(r), n)
    }

    /** __realloc of a large region b to another large size. */
    method ResizeLarge(b: int, size: int) returns (r: int)
      requires Valid() && b in blocks.busy && Sz(blocks.info[..], b) == 0 && BLOCKSIZE / 2 < size <= MAX_REQUEST
      modifies blocks, blocks.info, mem
      ensures lists == old(lists) && fragblocks[..] == old(fragblocks[..])
      ensures r == 0 ==> Undone()
      ensures r != 0 ==> Resized(4096 * b, r, Smaller(old(Room(4096 * b)), size)) && Fits(size, Room(r))
      ensures Refitted(b, Blockify(size), r)
      ensures blocks.info == old(blocks.info) || fresh(blocks.info)
      ensures old(blocks.log) <= blocks.log
      ensures r == 0 ==> old(blocks.log) < blocks.log && blocks.log[|blocks.log| - 1].Refused?
      ensures Valid()
    {
      hide Frags, Chained, Counted, Consistent, Clear, Below, Live, Pow2, SameEntries, Replaced, OthersKept, Copied,
        Released, Paint, Wrote, Capacity, SamePointers, NoRoom, Allocated;
      ghost var t, busy, m := blocks.info[..], blocks.busy, mem[..];
      BlockifyExact(size);
      FragsLength(t, busy, lists);
      LargeHeader(t, busy, lists, b);
      LargeCapacity(t, busy, b);
      BlockInMemory(b);
      var n := Blockify(size);
      if n < blocks.info[b].w1 {
        blocks.ShrinkRegion(b, n);
        r := 4096 * b;
        ShrinkMap(busy, b, n);
        RegionStep(t, busy, lists, fragblocks[..], blocks.info[..], b, b, n);
        SameBytes(t, busy, lists, m, r, size);
      } else if n == blocks.info[b].w1 {
        r := 4096 * b;
        StayStep(t, busy, lists, r);
        SameBytes(t, busy, lists, m, r, Smaller(Room(r), size));
      } else {
        r := GrowLarge(b, n);
      }
    }

    /** __realloc */
    method Realloc(p: int, size: int) returns (r: int)
      requires Valid() && (p == 0 || Holds(p)) && 0 <= size <= MAX_REQUEST
      modifies `lists, blocks, blocks.info, mem, fragblocks
      ensures p == 0 && r != 0 ==> Gains(r) && Fits(size, Room(r))
      ensures p == 0 && r == 0 ==> Idle()
      ensures p == 0 && size == 0 ==> r == 0
      ensures p != 0 && size == 0 ==> r == 0 && Loses(p)
      ensures p != 0 && size != 0 && r == 0 ==> Undone()
      ensures size != 0 && r == 0 ==> NoRoom(old(blocks.own), Blockify(size))
      ensures p != 0 && r != 0 ==> Resized(p, r, Smaller(old(Room(p)), size)) && Fits(size, Room(r))
      ensures p != 0 && size > BLOCKSIZE / 2 && old(TypeOf(p)) == 0 ==> Refitted(BlockOf(p), Blockify(size), r)
      ensures p != 0 && FragType(old(TypeOf(p))) && Pow2(old(TypeOf(p)) - 1) < size <= Pow2(old(TypeOf(p))) ==>
        r == p && Idle()
      ensures blocks.info == old(blocks.info) || fresh(blocks.info)
      ensures old(blocks.log) <= blocks.log
      ensures size == 0 ==> blocks.log == old(blocks.log)
      ensures size != 0 && r == 0 ==> old(blocks.log) < blocks.log && blocks.log[|blocks.log| - 1].Refused?
      ensures Valid()
    {
      hide Frags, Chained, Counted, Consistent, Clear, Below, Live, Pow2, Replaced, OthersKept, Copied, Wrote, Capacity,
        SamePointers, Fits, Gained, BytesKept, Lost, NoRoom, Allocated, Released, Paint;
      if p == 0 {
        r := Malloc(size);
        return;
      }
      if size == 0 {
        LiveAddress(blocks.info[..], blocks.busy, lists, p);
        Free(p);
        r := 0;
        return;
      }
      ghost var t, busy, m := blocks.info[..], blocks.busy, mem[..];
      TypeFacts(t, busy, lists, p);
      CapacityOf(t, busy, p);
      RegionInMemory(p);
      var b := BlockOf(p);
      BlockInMemory(b);
      var l := blocks.info[b].w0;
      if l == 0 {
        if size <= BLOCKSIZE / 2 {
          r := MoveTo(p, size, size);
          if r == 0 { IdleUndone(t, busy, lists); }
        } else {
          ghost var own := blocks.own;
          r := ResizeLarge(b, size);
          if r == 0 { LessRoom(own, b, busy[b], Blockify(size)); }
        }
      } else if size > Pow2(l - 1) && size <= Pow2(l) {
        r := p;
        StayStep(t, busy, lists, p);
        SameBytes(t, busy, lists, m, p, size);
        FitsSame(size, l);
      } else {
        r := MoveTo(p, size, Smaller(size, Pow2(l)));
        if r == 0 { IdleUndone(t, busy, lists); }
      }
    }
  }
}
