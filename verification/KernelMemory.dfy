/** kernel/memory.c: seven pools of equal blocks, shaved off pages and recycled through a chain in their first words. */
module KernelMemory {
  import opened Arithmetic
  import opened Lists

  const PAGE := 4096
  const CLASSES := 7
  const KM16 := 0
  const KM32 := 1

  /** One entry of km_map. A chain pointer of 0 is NULL. */
  datatype Pool = Pool(size: int, usedCount: int, freshCount: int, freeCount: int, freeChain: int, freshChain: int)

  ghost predicate BlockSize(size: int) { size in {16, 32, 64, 128, 256, 512, 1024} }

  function ClassSize(c: int): int
  {
    if c == 0 then 16 else if c == 1 then 32 else if c == 2 then 64 else if c == 3 then 128
    else if c == 4 then 256 else if c == 5 then 512 else 1024
  }

  function PageOf(b: int): int { b - b % PAGE }

  ghost predicate Member(b: int, S: set<int>) { b in S }

  ghost predicate Listed(b: int, L: seq<int>) { b in L }

  /** b is one of the blocks that the pages P are cut into. */
  ghost predicate Cut(size: int, P: set<int>, b: int) { BlockSize(size) && PageOf(b) in P && b % size == 0 }

  /** b is one of the blocks of the current page not yet handed out for the first time. */
  ghost predicate Unshaved(size: int, freshChain: int, b: int) {
    BlockSize(size) && freshChain <= b < PageOf(freshChain) + PAGE && b % size == 0
  }

  ghost predicate Pages(P: set<int>) { forall p {:trigger Member(p, P)} :: Member(p, P) ==> p > 0 && p % PAGE == 0 }

  ghost predicate Threaded(words: map<int, int>, L: seq<int>) {
    forall k {:trigger L[k]} :: 0 <= k < |L| ==> L[k] > 0 && L[k] in words && words[L[k]] == At(L, k + 1)
  }

  /** Every block of the pages P is handed out, on the free chain or unshaved, and only one of these. */
  ghost predicate Partition(size: int, freshChain: int, P: set<int>, H: set<int>, L: seq<int>) {
    && (forall b {:trigger Member(b, H)} :: Member(b, H) ==>
       Cut(size, P, b) && !Listed(b, L) && !Unshaved(size, freshChain, b))
    && (forall b {:trigger Listed(b, L)} :: Listed(b, L) ==> Cut(size, P, b) && !Unshaved(size, freshChain, b))
    && (forall b {:trigger Cut(size, P, b)} :: Cut(size, P, b) ==>
       Member(b, H) || Listed(b, L) || Unshaved(size, freshChain, b))
  }

  ghost predicate Counted(p: Pool, P: set<int>, H: set<int>, L: seq<int>) {
    && BlockSize(p.size) && p.usedCount == |H| && p.freeCount == |L| && p.freeChain == At(L, 0)
    && p.freshChain > 0 && p.freshChain % p.size == 0 && PageOf(p.freshChain) in P
    && 1 <= p.freshCount && p.freshChain + p.freshCount * p.size == PageOf(p.freshChain) + PAGE
    && p.usedCount + p.freeCount + p.freshCount == |P| * (PAGE / p.size)
  }

  /** The state of one pool: pages P, of whose blocks H are handed out and L are on the free chain. */
  ghost predicate PoolOk(p: Pool, words: map<int, int>, P: set<int>, H: set<int>, L: seq<int>) {
    Counted(p, P, H, L) && Pages(P) && Threaded(words, L) && Distinct(L) && Partition(p.size, p.freshChain, P, H, L)
  }

  /** Both b and the end of its page are multiples of the block size. */
  lemma Multiples(size: int, b: int) returns (m: int, e: int, k: int)
    requires BlockSize(size) && b % size == 0
    ensures b == m * size && PageOf(b) + PAGE == e * size && k * size == PAGE && k >= 1
  {
    k := PAGE / size;
    m := b / size;
    DivMod(b, size);
    var q := b / PAGE + 1;
    e := q * k;
    assert e * size == q * (k * size);
  }

  lemma Aligned(size: int, b: int, c: int)
    requires BlockSize(size) && b % size == 0 && c % size == 0
    ensures b < c ==> b + size <= c
    ensures b + size <= PageOf(b) + PAGE
    ensures b <= c < PageOf(b) + PAGE ==> PageOf(c) == PageOf(b)
  {
    var m, e, _ := Multiples(size, b);
    DivMod(c, size);
    Scale(m, c / size, size);
    Scale(m, e, size);
    SamePage(b, c);
  }

  lemma SamePage(b: int, c: int)
    ensures PageOf(b) <= b < PageOf(b) + PAGE
    ensures b <= c < PageOf(b) + PAGE ==> PageOf(c) == PageOf(b)
  {
  }

  /** Two blocks of one pool do not overlap, and a block lies within one page. */
  lemma BlocksApart(size: int, P: set<int>, b: int, c: int)
    requires Cut(size, P, b) && Cut(size, P, c) && b != c
    ensures b + size <= c || c + size <= b
    ensures b + size <= PageOf(b) + PAGE
  {
    Aligned(size, b, c);
    Aligned(size, c, b);
  }

  /** Blocks cut from different pages do not overlap either. */
  lemma PagesApart(size: int, P: set<int>, b: int, other: int, Q: set<int>, c: int)
    requires Cut(size, P, b) && Cut(other, Q, c) && P !! Q
    ensures b + size <= c || c + other <= b
  {
    Aligned(size, b, b);
    Aligned(other, c, c);
    assert PageOf(b) != PageOf(c);
    if b < c { SamePage(b, c); } else { SamePage(c, b); }
    hide PageOf;
  }

  /** The pool after its first free block b, followed by next, is handed out. */
  function Recycled(p: Pool, next: int): Pool {
    p.(usedCount := p.usedCount + 1, freeCount := p.freeCount - 1, freeChain := next)
  }

  /** The pool after a block is shaved off a page with more to come. */
  function Shaved(p: Pool): Pool {
    p.(usedCount := p.usedCount + 1, freshCount := p.freshCount - 1, freshChain := p.freshChain + p.size)
  }

  /** The pool after the last block of the page is handed out and the next page taken. */
  function Turned(p: Pool, page: int): Pool
    requires p.size != 0
  {
    p.(usedCount := p.usedCount + 1, freshCount := PAGE / p.size, freshChain := page)
  }

  function Freed(p: Pool, b: int): Pool {
    p.(usedCount := p.usedCount - 1, freeCount := p.freeCount + 1, freeChain := b)
  }

  lemma RecyclePartition(size: int, freshChain: int, P: set<int>, H: set<int>, L: seq<int>)
    requires Partition(size, freshChain, P, H, L) && Distinct(L) && |L| > 0
    ensures L[0] !in H && Distinct(L[1..]) && Partition(size, freshChain, P, H + {L[0]}, L[1..])
  {
    hide Cut, Unshaved;
    var b, M, G := L[0], L[1..], H + {L[0]};
    assert L == [b] + M;
    assert Listed(b, L);
    assert !Member(b, H);
    assert forall x :: Listed(x, L) <==> x == b || Listed(x, M);
    assert forall k :: 0 <= k < |M| ==> M[k] == L[k + 1];
    assert !Listed(b, M);
    assert forall x :: Member(x, G) <==> x == b || Member(x, H);
  }

  lemma RecycleThreaded(words: map<int, int>, L: seq<int>)
    requires Threaded(words, L) && |L| > 0
    ensures Threaded(words, L[1..]) && L[0] > 0 && L[0] in words && words[L[0]] == At(L[1..], 0)
  {
    var M := L[1..];
    assert words[L[0]] == At(L, 1);
    forall k {:trigger M[k]} | 0 <= k < |M| ensures M[k] > 0 && M[k] in words && words[M[k]] == At(M, k + 1) {
      assert M[k] == L[k + 1] && At(M, k + 1) == At(L, k + 2);
    }
  }

  lemma Recycle(p: Pool, words: map<int, int>, P: set<int>, H: set<int>, L: seq<int>, r: Pool)
    requires PoolOk(p, words, P, H, L) && |L| > 0 && r == Recycled(p, At(L, 1))
    ensures L[0] == p.freeChain && L[0] in words && words[L[0]] == At(L, 1) && L[0] > 0 && L[0] !in H
    ensures PoolOk(r, words, P, H + {L[0]}, L[1..])
  {
    hide Partition, Threaded, Distinct, Pages, Cut;
    RecyclePartition(p.size, p.freshChain, P, H, L);
    RecycleThreaded(words, L);
  }

  lemma ShavePartition(size: int, f: int, P: set<int>, H: set<int>, L: seq<int>)
    requires Partition(size, f, P, H, L) && BlockSize(size) && f % size == 0 && PageOf(f) in P
      && f + size < PageOf(f) + PAGE
    ensures f !in H && PageOf(f + size) == PageOf(f) && (f + size) % size == 0
    ensures Partition(size, f + size, P, H + {f}, L)
  {
    hide Cut;
    NextBlock(size, f);
    assert Cut(size, P, f) by { IsCut(size, P, f); }
    var G := H + {f};
    assert Unshaved(size, f, f) && !Member(f, H) && !Listed(f, L);
    assert forall x :: Member(x, G) <==> x == f || Member(x, H);
    forall x ensures Unshaved(size, f, x) <==> x == f || Unshaved(size, f + size, x) {
      if Unshaved(size, f, x) && x != f { Aligned(size, f, x); }
    }
  }

  lemma NextBlock(size: int, f: int)
    requires BlockSize(size) && f % size == 0 && f + size < PageOf(f) + PAGE
    ensures (f + size) % size == 0 && PageOf(f + size) == PageOf(f)
  {
    hide PageOf;
    var m, e, _ := Multiples(size, f);
    assert f + size == (m + 1) * size;
    DivideBack(m + 1, size);
    SamePage(f, f + size);
  }

  lemma IsCut(size: int, P: set<int>, b: int)
    requires BlockSize(size) && PageOf(b) in P && b % size == 0
    ensures Cut(size, P, b)
  {
  }

  lemma Shave(p: Pool, words: map<int, int>, P: set<int>, H: set<int>, L: seq<int>, r: Pool)
    requires PoolOk(p, words, P, H, L) && p.freshCount > 1 && r == Shaved(p)
    ensures p.freshChain > 0 && p.freshChain !in H
    ensures PoolOk(r, words, P, H + {p.freshChain}, L)
  {
    hide Partition, Threaded, Distinct, Pages, Cut;
    assert p.freshCount * p.size >= 2 * p.size && (p.freshCount - 1) * p.size == p.freshCount * p.size - p.size by {
      Times(p.freshCount, p.size);
    }
    ShavePartition(p.size, p.freshChain, P, H, L);
  }

  lemma Times(n: int, size: int)
    requires n > 1 && size > 0
    ensures n * size >= 2 * size && (n - 1) * size == n * size - size
  {
  }

  lemma TurnPartition(size: int, f: int, P: set<int>, H: set<int>, L: seq<int>, page: int)
    requires Partition(size, f, P, H, L) && BlockSize(size) && f % size == 0 && PageOf(f) in P
      && f + size == PageOf(f) + PAGE
    requires page !in P && page % PAGE == 0
    ensures f !in H && Partition(size, page, P + {page}, H + {f}, L)
  {
    var G, Q := H + {f}, P + {page};
    assert Cut(size, P, f) && Unshaved(size, f, f) && !Member(f, H) && !Listed(f, L);
    assert forall x :: Member(x, G) <==> x == f || Member(x, H);
    forall x ensures Cut(size, Q, x) <==> Cut(size, P, x) || Unshaved(size, page, x) { OfPage(size, page, x); }
    forall x ensures !(Cut(size, P, x) && Unshaved(size, page, x)) { OfPage(size, page, x); }
    forall x ensures Unshaved(size, f, x) ==> x == f {
      if Unshaved(size, f, x) && x != f { Aligned(size, f, x); }
    }
    hide Cut, Unshaved;
  }

  lemma OfPage(size: int, page: int, x: int)
    requires BlockSize(size) && page % PAGE == 0
    ensures Unshaved(size, page, x) <==> PageOf(x) == page && x % size == 0
  {
  }

  lemma WholePage(size: int, page: int)
    requires BlockSize(size) && page % PAGE == 0
    ensures page % size == 0 && PageOf(page) == page && (PAGE / size) * size == PAGE && PAGE / size >= 1
  {
    var _, e, k := Multiples(size, 0);
    var q := page / PAGE;
    assert page == (q * k) * size by { assert (q * k) * size == q * (k * size); }
    DivideBack(q * k, size);
    DivideBack(k, size);
  }

  lemma Turn(p: Pool, words: map<int, int>, P: set<int>, H: set<int>, L: seq<int>, page: int, r: Pool)
    requires PoolOk(p, words, P, H, L) && p.freshCount == 1 && page > 0 && page % PAGE == 0 && page !in P
    requires p.size != 0 && r == Turned(p, page)
    ensures p.freshChain > 0 && p.freshChain !in H
    ensures PoolOk(r, words, P + {page}, H + {p.freshChain}, L)
  {
    hide Partition, Threaded, Distinct, Cut;
    TurnPartition(p.size, p.freshChain, P, H, L, page);
    WholePage(p.size, page);
    OneMore(|P|, PAGE / p.size);
    assert |P + {page}| == |P| + 1;
    assert Pages(P + {page}) by { assert forall q :: Member(q, P + {page}) <==> Member(q, P) || q == page; }
  }

  lemma OneMore(n: int, k: int)
    ensures (n + 1) * k == n * k + k
  {
  }

  lemma GiveBackPartition(size: int, f: int, P: set<int>, H: set<int>, L: seq<int>, b: int)
    requires Partition(size, f, P, H, L) && Distinct(L) && b in H
    ensures b !in L && Distinct([b] + L) && Partition(size, f, P, H - {b}, [b] + L)
  {
    hide Cut, Unshaved;
    var M, G := [b] + L, H - {b};
    assert Member(b, H) && !Listed(b, L);
    assert forall x :: Listed(x, M) <==> x == b || Listed(x, L);
    assert forall x :: Member(x, G) <==> x != b && Member(x, H);
    assert forall k :: 0 < k < |M| ==> M[k] == L[k - 1];
    forall i, j | 0 <= i < j < |M| ensures M[i] != M[j] {
      if i == 0 { assert Listed(M[j], L); }
    }
  }

  lemma GiveBackThreaded(words: map<int, int>, L: seq<int>, b: int)
    requires Threaded(words, L) && b !in L && b > 0
    ensures Threaded(words[b := At(L, 0)], [b] + L)
  {
    var M := [b] + L;
    forall k {:trigger M[k]} | 0 <= k < |M|
      ensures M[k] > 0 && M[k] in words[b := At(L, 0)] && words[b := At(L, 0)][M[k]] == At(M, k + 1)
    {
      if k > 0 { assert M[k] == L[k - 1] && At(M, k + 1) == At(L, k); }
    }
  }

  lemma GiveBack(p: Pool, words: map<int, int>, P: set<int>, H: set<int>, L: seq<int>, b: int, r: Pool)
    requires PoolOk(p, words, P, H, L) && b in H && b > 0 && r == Freed(p, b)
    ensures PoolOk(r, words[b := p.freeChain], P, H - {b}, [b] + L)
  {
    hide Partition, Threaded, Distinct, Pages, Cut;
    GiveBackPartition(p.size, p.freshChain, P, H, L, b);
    GiveBackThreaded(words, L, b);
  }

  /** A write to a word outside the pool's free blocks leaves the pool alone. */
  lemma OtherWord(p: Pool, words: map<int, int>, P: set<int>, H: set<int>, L: seq<int>, b: int, w: int)
    requires PoolOk(p, words, P, H, L) && PageOf(b) !in P
    ensures PoolOk(p, words[b := w], P, H, L)
  {
    hide Distinct, Pages, Counted;
    var after := words[b := w];
    forall k {:trigger L[k]} | 0 <= k < |L| ensures L[k] > 0 && L[k] in after && after[L[k]] == At(L, k + 1) {
      assert Listed(L[k], L);
      assert L[k] != b;
    }
  }

  /** The class that size_map gives a request of up to 1024 bytes. */
  function SizeMap(size: int): (c: int)
    requires 0 <= size < 1025
    ensures 0 <= c < CLASSES
  {
    if size <= 16 then 0 else if size <= 32 then 1 else if size <= 64 then 2 else if size <= 128 then 3
    else if size <= 256 then 4 else if size <= 512 then 5 else 6
  }

  /** The class is the smallest whose blocks are large enough. */
  lemma SizeMapIsTight(size: int, c: int)
    requires 0 <= size < 1025 && 0 <= c < CLASSES
    ensures size <= ClassSize(c) <==> SizeMap(size) <= c
  {
  }

  lemma FirstPage(c: int, page: int)
    requires 0 <= c < CLASSES && page > 0 && page % PAGE == 0
    ensures PoolOk(Pool(ClassSize(c), 0, PAGE / ClassSize(c), 0, 0, page), map[], {page}, {}, [])
  {
    WholePage(ClassSize(c), page);
    forall x
      ensures Cut(ClassSize(c), {page}, x) <==> Unshaved(ClassSize(c), page, x)
    {
      OfPage(ClassSize(c), page, x);
    }
  }

  /** All pools: each is in order, and no page belongs to two. */
  ghost predicate PoolsOk(t: seq<Pool>, words: map<int, int>, P: seq<set<int>>, H: seq<set<int>>, L: seq<seq<int>>) {
    && |t| == |P| == |H| == |L| == CLASSES
    && (forall c {:trigger P[c]} {:trigger H[c]} :: 0 <= c < CLASSES ==>
       t[c].size == ClassSize(c) && PoolOk(t[c], words, P[c], H[c], L[c]))
    && (forall c, d {:trigger P[c], P[d]} :: 0 <= c < d < CLASSES ==> P[c] !! P[d])
  }

  /** Distinct blocks in use, of the same class or not, never share a byte, and each lies within one page. */
  lemma LiveBlocksDisjoint(t: seq<Pool>, words: map<int, int>, P: seq<set<int>>, H: seq<set<int>>, L: seq<seq<int>>,
                           c: int, b: int, d: int, e: int)
    requires PoolsOk(t, words, P, H, L) && 0 <= c < CLASSES && 0 <= d < CLASSES && b in H[c] && e in H[d]
      && (c, b) != (d, e)
    ensures b + ClassSize(c) <= e || e + ClassSize(d) <= b
    ensures b > 0 && b + ClassSize(c) <= PageOf(b) + PAGE
  {
    hide ClassSize, PageOf, Unshaved, Distinct, Threaded;
    Handed(t[c], words, P[c], H[c], L[c], b);
    Handed(t[d], words, P[d], H[d], L[d], e);
    if c == d {
      BlocksApart(ClassSize(c), P[c], b, e);
    } else {
      Aligned(ClassSize(c), b, b);
      assert P[c] !! P[d] by { if c < d {} else { assert P[d] !! P[c]; } }
      PagesApart(ClassSize(c), P[c], b, ClassSize(d), P[d], e);
    }
  }

  lemma Handed(p: Pool, words: map<int, int>, P: set<int>, H: set<int>, L: seq<int>, b: int)
    requires PoolOk(p, words, P, H, L) && b in H
    ensures Cut(p.size, P, b) && b > 0
  {
    assert Member(b, H);
    assert Member(PageOf(b), P);
  }

  /** Blocks and pages are conserved: of the blocks that a pool's pages are cut into, each is in use, free or
      unshaved. */
  lemma Conserved(t: seq<Pool>, words: map<int, int>, P: seq<set<int>>, H: seq<set<int>>, L: seq<seq<int>>, c: int)
    requires PoolsOk(t, words, P, H, L) && 0 <= c < CLASSES
    ensures t[c].usedCount + t[c].freeCount + t[c].freshCount == |P[c]| * (PAGE / ClassSize(c))
      && t[c].usedCount == |H[c]|
    ensures forall b {:trigger Cut(ClassSize(c), P[c], b)} ::
      Cut(ClassSize(c), P[c], b) <==> b in H[c] || b in L[c] || (Unshaved(ClassSize(c), t[c].freshChain, b))
    ensures forall b :: b in H[c] ==> b !in L[c] && !Unshaved(ClassSize(c), t[c].freshChain, b)
    ensures forall b :: b in L[c] ==> !Unshaved(ClassSize(c), t[c].freshChain, b)
  {
    hide ClassSize, Distinct, Threaded;
    assert PoolOk(t[c], words, P[c], H[c], L[c]);
    forall b ensures b in H[c] <==> Member(b, H[c]) {}
    forall b ensures b in L[c] <==> Listed(b, L[c]) {}
    forall b ensures Unshaved(ClassSize(c), t[c].freshChain, b) ==> Cut(ClassSize(c), P[c], b) {
      if Unshaved(ClassSize(c), t[c].freshChain, b) { Aligned(ClassSize(c), t[c].freshChain, b); }
    }
  }

  /** A block in use belongs to one class only. */
  lemma OnlyHere(t: seq<Pool>, words: map<int, int>, P: seq<set<int>>, H: seq<set<int>>, L: seq<seq<int>>, c: int,
                 b: int)
    requires PoolsOk(t, words, P, H, L) && 0 <= c < CLASSES && b in H[c]
    ensures forall d {:trigger H[d]} :: 0 <= d < CLASSES && d != c ==> b !in H[d]
  {
    hide PoolsOk;
    assert |H| == CLASSES by { Lengths(t, words, P, H, L); }
    forall d {:trigger H[d]} | 0 <= d < CLASSES && d != c ensures b !in H[d] {
      if b in H[d] { LiveBlocksDisjoint(t, words, P, H, L, c, b, d, b); }
    }
  }

  lemma Lengths(t: seq<Pool>, words: map<int, int>, P: seq<set<int>>, H: seq<set<int>>, L: seq<seq<int>>)
    requires PoolsOk(t, words, P, H, L)
    ensures |t| == |P| == |H| == |L| == CLASSES
  {
  }

  class BlockPools {
    const pools: array<Pool>
    // the pages that MmAllocPages has returned here and to msg_pool, which is all that matters of the frame allocator
    var taken: set<int>
    var words: map<int, int>

    ghost var P: seq<set<int>>
    ghost var H: seq<set<int>>
    ghost var L: seq<seq<int>>

    ghost predicate Valid()
      reads this, pools
    {
      PoolsOk(pools[..], words, P, H, L) && forall c {:trigger P[c]} :: 0 <= c < CLASSES ==> P[c] <= taken
    }

    /** memory_init: the pages are those that MmAllocPages returns. */
    constructor (pages: seq<int>)
      requires |pages| == CLASSES && forall c :: 0 <= c < CLASSES ==> pages[c] > 0 && pages[c] % PAGE == 0
      requires forall c, d :: 0 <= c < d < CLASSES ==> pages[c] != pages[d]
      ensures Valid() && fresh(pools) && taken == (set p | p in pages) && forall c :: 0 <= c < CLASSES ==> H[c] == {}
    {
      var table := new Pool[CLASSES](_ => Pool(0, 0, 0, 0, 0, 0));
      pools, words := table, map[];
      P, H, L := seq(CLASSES, c requires 0 <= c < CLASSES => {pages[c]}), seq(CLASSES, _ => {}), seq(CLASSES, _ => []);
      taken := set p | p in pages;
      new;
      var i := 0;
      while i < CLASSES
        invariant 0 <= i <= CLASSES
        invariant forall c {:trigger pools[c]} ::
          0 <= c < i ==> pools[c] == Pool(ClassSize(c), 0, PAGE / ClassSize(c), 0, 0, pages[c])
        modifies pools
      {
        pools[i] := Pool(ClassSize(i), 0, PAGE / ClassSize(i), 0, 0, pages[i]);
        i := i + 1;
      }
      forall c | 0 <= c < CLASSES ensures PoolOk(pools[c], words, P[c], H[c], L[c]) { FirstPage(c, pages[c]); }
    }

    /** kmalloc; page is what MmAllocPages returns if a page is needed. */
    method Alloc(c: int, page: int) returns (block: int)
      requires Valid() && 0 <= c < CLASSES && page > 0 && page % PAGE == 0 && page !in taken
      modifies this, pools
      ensures block > 0 && block !in old(H[c]) && H == old(H[c := H[c] + {block}])
      // the block freed last is handed out first; a page is taken only with the last block of the current one
      ensures |P| == |L| == |old(P)| == |old(L)| == CLASSES
      ensures |old(L)[c]| > 0 ==> block == old(L)[c][0] && L == old(L)[c := old(L)[c][1..]]
      ensures |old(L)[c]| == 0 ==> block == old(pools[c].freshChain) && L == old(L)
      ensures if |old(L)[c]| == 0 && old(pools[c].freshCount) == 1
        then P == old(P)[c := old(P)[c] + {page}] && taken == old(taken) + {page}
        else P == old(P) && taken == old(taken)
      ensures forall d {:trigger old(H)[d]} :: 0 <= d < CLASSES ==> block !in old(H)[d]
      ensures Valid()
    {
      hide PoolOk;
      ghost var p := pools[c];
      ghost var t := pools[..];
      assert PoolOk(p, words, P[c], H[c], L[c]);
      FreeChain(p, words, P[c], H[c], L[c]);
      pools[c] := pools[c].(usedCount := pools[c].usedCount + 1);
      if pools[c].freeChain != 0 {
        block := pools[c].freeChain;
        Recycle(p, words, P[c], H[c], L[c], Recycled(p, At(L[c], 1)));
        pools[c] := pools[c].(freeCount := pools[c].freeCount - 1, freeChain := words[block]);
        L := L[c := L[c][1..]];
      } else {
        pools[c] := pools[c].(freshCount := pools[c].freshCount - 1);
        block := pools[c].freshChain;
        if pools[c].freshCount != 0 {
          Shave(p, words, P[c], H[c], L[c], Shaved(p));
          pools[c] := pools[c].(freshChain := pools[c].freshChain + pools[c].size);
        } else {
          Turn(p, words, P[c], H[c], L[c], page, Turned(p, page));
          pools[c] := pools[c].(freshCount := PAGE / pools[c].size, freshChain := page);
          P := P[c := P[c] + {page}];
          taken := taken + {page};
        }
      }
      H := H[c := H[c] + {block}];
      assert pools[..] == t[c := pools[c]];
      assert PoolOk(pools[c], words, P[c], H[c], L[c]);
      assert forall d :: 0 <= d < CLASSES && d != c ==> PoolOk(pools[d], words, P[d], H[d], L[d]);
      assert forall d, e {:trigger P[d], P[e]} :: 0 <= d < e < CLASSES ==> P[d] !! P[e];
      OnlyHere(pools[..], words, P, H, L, c, block);
    }

    /** kfree: the block must be one in use of that class. */
    method Free(c: int, block: int)
      requires Valid() && 0 <= c < CLASSES && block in H[c]
      modifies this, pools
      ensures H == old(H[c := H[c] - {block}]) && taken == old(taken) && P == old(P)
      ensures |L| == |old(L)| == CLASSES && L == old(L)[c := [block] + old(L)[c]]
      ensures Valid()
    {
      hide PoolOk;
      ghost var p := pools[c];
      ghost var t := pools[..];
      Handed(p, words, P[c], H[c], L[c], block);
      GiveBack(p, words, P[c], H[c], L[c], block, Freed(p, block));
      forall d | 0 <= d < CLASSES && d != c ensures PoolOk(pools[d], words[block := p.freeChain], P[d], H[d], L[d]) {
        assert P[c] !! P[d] by { if c < d {} else { assert P[d] !! P[c]; } }
        OtherWord(pools[d], words, P[d], H[d], L[d], block, p.freeChain);
      }
      pools[c] := pools[c].(freeCount := pools[c].freeCount + 1, usedCount := pools[c].usedCount - 1);
      words := words[block := pools[c].freeChain];
      pools[c] := pools[c].(freeChain := block);
      H, L := H[c := H[c] - {block}], L[c := [block] + L[c]];
      assert pools[..] == t[c := pools[c]];
    }
  }

  lemma FreeChain(p: Pool, words: map<int, int>, P: set<int>, H: set<int>, L: seq<int>)
    requires PoolOk(p, words, P, H, L)
    ensures p.freeChain != 0 <==> |L| > 0
    ensures p.freeChain != 0 ==> L[0] == p.freeChain
    ensures p.size > 0 && p.freshCount >= 1 && p.freeCount == |L|
  {
    hide Partition;
    assert forall k {:trigger L[k]} :: 0 <= k < |L| ==> L[k] > 0;
  }
}
