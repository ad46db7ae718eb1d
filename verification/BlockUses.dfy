/** Who uses the blocks of the kernel's pools, and the pages that carry large messages. */
module BlockUses {
  import opened KernelMemory
  import opened Lists
  import opened PortStates

  const SMALL := 1025

  datatype Use = APort | AMessage | APayload(message: int, size: int) | ASemaphore | AQueue | ANode

  function ClassOf(u: Use): int {
    match u
    case APort => KM32
    case AMessage => KM32
    case APayload(_, size) => if 0 <= size < SMALL then SizeMap(size) else 0
    case ASemaphore => KM16
    case AQueue => KM16
    case ANode => KM16
  }

  ghost predicate InUse(H: seq<set<int>>, c: int, b: int) { 0 <= c < |H| && b in H[c] }

  /** The blocks in use are exactly those with a use, each of its use's class. */
  ghost predicate UsesOk(H: seq<set<int>>, uses: map<int, Use>) {
    |H| == CLASSES
    && forall c, b {:trigger InUse(H, c, b)} ::
       InUse(H, c, b) <==> 0 <= c < CLASSES && b in uses && ClassOf(uses[b]) == c
  }

  /** The ports, messages and small payloads are exactly the blocks with these uses. */
  ghost predicate PortUses(uses: map<int, Use>, ports: map<int, Port>, msgs: map<int, Message>) {
    forall b {:trigger b in uses} ::
      && (b in ports <==> b in uses && uses[b].APort?)
      && (b in msgs <==> b in uses && uses[b].AMessage?)
      && (b in uses && uses[b].APayload? ==> var m := uses[b].message;
           m in msgs && msgs[m].data == b && msgs[m].size == uses[b].size && 0 <= uses[b].size < SMALL)
  }

  ghost predicate PayloadUses(uses: map<int, Use>, msgs: map<int, Message>) {
    forall m {:trigger m in msgs} ::
      m in msgs && msgs[m].size < SMALL ==> msgs[m].data in uses && uses[msgs[m].data] == APayload(m, msgs[m].size)
  }

  /** The pages for large messages, of which pool are idle; none of them belongs to the block pools. */
  ghost predicate PagesOk(P: seq<set<int>>, pages: set<int>, pool: seq<int>) {
    && |P| == CLASSES && Distinct(pool)
    && (forall q {:trigger Member(q, pages)} :: Member(q, pages) ==> MessagePage(P, q))
    && forall q {:trigger q in pool} :: q in pool ==> Member(q, pages)
  }

  ghost predicate MessagePage(P: seq<set<int>>, q: int) {
    q > 0 && q % PAGE == 0 && forall c {:trigger P[c]} :: 0 <= c < |P| ==> q !in P[c]
  }

  /** Each of these pages is idle or carries one large message, and each large message is on one of them. */
  ghost predicate CarriersOk(pages: set<int>, pool: seq<int>, msgs: map<int, Message>, of: map<int, int>) {
    && (forall q {:trigger Member(q, pages)} :: Member(q, pages) ==> q in pool || Carries(msgs, q, HomeOf(of, q)))
    && forall m {:trigger m in msgs} ::
       m in msgs && msgs[m].size >= SMALL ==> Member(msgs[m].data, pages) && msgs[m].data !in pool
  }

  ghost predicate Carries(msgs: map<int, Message>, q: int, m: int)
  { m in msgs && msgs[m].size >= SMALL && msgs[m].data == q }

  // ----- one block taken or given back -----

  lemma TakeKeepsUses(H: seq<set<int>>, uses: map<int, Use>, c: int, b: int, u: Use)
    requires UsesOk(H, uses) && 0 <= c < CLASSES && ClassOf(u) == c
      && forall d {:trigger H[d]} :: 0 <= d < CLASSES ==> b !in H[d]
    ensures b !in uses && UsesOk(H[c := H[c] + {b}], uses[b := u])
  {
    var H', uses' := H[c := H[c] + {b}], uses[b := u];
    assert b in uses ==> InUse(H, ClassOf(uses[b]), b) by { assert b in uses ==> 0 <= ClassOf(uses[b]) < CLASSES; }
    forall d, x {:trigger InUse(H', d, x)}
      ensures InUse(H', d, x) <==> 0 <= d < CLASSES && x in uses' && ClassOf(uses'[x]) == d
    {
      assert InUse(H, d, x) <==> 0 <= d < CLASSES && x in uses && ClassOf(uses[x]) == d;
    }
  }

  lemma GiveKeepsUses(H: seq<set<int>>, uses: map<int, Use>, b: int)
    requires UsesOk(H, uses) && b in uses
    ensures var c := ClassOf(uses[b]); 0 <= c < CLASSES && b in H[c] && UsesOk(H[c := H[c] - {b}], uses - {b})
  {
    var c := ClassOf(uses[b]);
    assert InUse(H, c, b);
    var H', uses' := H[c := H[c] - {b}], uses - {b};
    forall d, x {:trigger InUse(H', d, x)}
      ensures InUse(H', d, x) <==> 0 <= d < CLASSES && x in uses' && ClassOf(uses'[x]) == d
    {
      assert InUse(H, d, x) <==> 0 <= d < CLASSES && x in uses && ClassOf(uses[x]) == d;
    }
  }

  // ----- ports -----

  lemma CreateUses(uses: map<int, Use>, ports: map<int, Port>, msgs: map<int, Message>, p: int, k: Port)
    requires PortUses(uses, ports, msgs) && PayloadUses(uses, msgs) && p !in uses
    ensures PortUses(uses[p := APort], ports[p := k], msgs) && PayloadUses(uses[p := APort], msgs) && p !in ports
  {
    assert p in ports ==> p in uses;
    forall m {:trigger m in msgs} | m in msgs && msgs[m].size < SMALL
      ensures msgs[m].data in uses && uses[msgs[m].data] == APayload(m, msgs[m].size)
    {
    }
    assert forall b :: b in msgs ==> b in uses;
  }

  lemma DestroyUses(uses: map<int, Use>, ports: map<int, Port>, msgs: map<int, Message>, p: int)
    requires PortUses(uses, ports, msgs) && PayloadUses(uses, msgs) && p in ports
    ensures p in uses && uses[p] == APort && PortUses(uses - {p}, ports - {p}, msgs) && PayloadUses(uses - {p}, msgs)
  {
    assert p in uses && uses[p].APort?;
  }

  /** Changes of ports that add or remove none. */
  lemma PortsChange(uses: map<int, Use>, ports: map<int, Port>, msgs: map<int, Message>, ports': map<int, Port>)
    requires PortUses(uses, ports, msgs) && ports'.Keys == ports.Keys
    ensures PortUses(uses, ports', msgs)
  {
    assert forall b :: b in ports' <==> b in ports'.Keys;
  }

  /** The uses once message m with a small payload has been sent. */
  lemma SendSmallUses(uses: map<int, Use>, ports: map<int, Port>, msgs: map<int, Message>, m: int, d: int,
                      r: map<int, Message>)
    requires PortUses(uses, ports, msgs) && PayloadUses(uses, msgs) && m !in uses && d !in uses && m != d
    requires r.Keys == msgs.Keys + {m} && SameMessages(msgs, r) && m in r && GetMessage(r, m).data == d
      && 0 <= GetMessage(r, m).size < SMALL
    ensures var uses' := uses[m := AMessage][d := APayload(m, GetMessage(r, m).size)];
      PortUses(uses', ports, r) && PayloadUses(uses', r)
    ensures m !in msgs && forall x {:trigger x in msgs} :: x in msgs && msgs[x].size < SMALL ==> msgs[x].data != d
  {
    var uses' := uses[m := AMessage][d := APayload(m, GetMessage(r, m).size)];
    assert m in msgs ==> m in uses;
    assert d in msgs || d in ports ==> d in uses;
    assert m in ports ==> m in uses;
    forall x {:trigger x in r} | x in r && r[x].size < SMALL
      ensures r[x].data in uses' && uses'[r[x].data] == APayload(x, r[x].size)
    {
      assert GetMessage(r, x) == r[x] && x in r.Keys;
      if x != m { assert x in msgs; }
    }
    forall b {:trigger b in uses'}
      ensures (b in ports <==> b in uses' && uses'[b].APort?) && (b in r <==> b in uses' && uses'[b].AMessage?)
        && (b in uses' && uses'[b].APayload? ==>
              var y := uses'[b].message;
              y in r && r[y].data == b && r[y].size == uses'[b].size && 0 <= uses'[b].size < SMALL)
    {
      assert b in uses ==> b in uses';
      assert b in r <==> b in r.Keys;
      if b in uses && uses[b].APayload? { assert GetMessage(r, uses[b].message) == r[uses[b].message]; }
    }
  }

  /** The uses once message m with a page for payload has been sent. */
  lemma SendLargeUses(uses: map<int, Use>, ports: map<int, Port>, msgs: map<int, Message>, m: int, r: map<int, Message>)
    requires PortUses(uses, ports, msgs) && PayloadUses(uses, msgs) && m !in uses
    requires r.Keys == msgs.Keys + {m} && SameMessages(msgs, r) && m in r && GetMessage(r, m).size >= SMALL
    ensures PortUses(uses[m := AMessage], ports, r) && PayloadUses(uses[m := AMessage], r) && m !in msgs
  {
    var uses' := uses[m := AMessage];
    assert m in msgs ==> m in uses;
    assert m in ports ==> m in uses;
    forall x {:trigger x in r} | x in r && r[x].size < SMALL
      ensures r[x].data in uses' && uses'[r[x].data] == APayload(x, r[x].size)
    {
      assert GetMessage(r, x) == r[x] && x in r.Keys;
      assert x in msgs;
    }
    forall b {:trigger b in uses'}
      ensures (b in ports <==> b in uses' && uses'[b].APort?) && (b in r <==> b in uses' && uses'[b].AMessage?)
        && (b in uses' && uses'[b].APayload? ==>
              var y := uses'[b].message;
              y in r && r[y].data == b && r[y].size == uses'[b].size && 0 <= uses'[b].size < SMALL)
    {
      assert b in uses ==> b in uses';
      assert b in r <==> b in r.Keys;
      if b in uses && uses[b].APayload? { assert GetMessage(r, uses[b].message) == r[uses[b].message]; }
    }
  }

  lemma ReceiveUses(uses: map<int, Use>, ports: map<int, Port>, msgs: map<int, Message>, m: int)
    requires PortUses(uses, ports, msgs) && PayloadUses(uses, msgs) && m in msgs
    ensures m in uses && uses[m] == AMessage
    ensures msgs[m].size < SMALL ==>
      msgs[m].data in uses && uses[msgs[m].data] == APayload(m, msgs[m].size) && msgs[m].data != m
    ensures var uses' := if msgs[m].size < SMALL then uses - {m, msgs[m].data} else uses - {m};
      PortUses(uses', ports, msgs - {m}) && PayloadUses(uses', msgs - {m})
  {
    assert m in uses && uses[m].AMessage?;
    var uses' := if msgs[m].size < SMALL then uses - {m, msgs[m].data} else uses - {m};
    var r := msgs - {m};
    forall x {:trigger x in r} | x in r && r[x].size < SMALL
      ensures r[x].data in uses' && uses'[r[x].data] == APayload(x, r[x].size)
    {
      assert x in msgs;
    }
    forall b {:trigger b in uses'}
      ensures (b in ports <==> b in uses' && uses'[b].APort?) && (b in r <==> b in uses' && uses'[b].AMessage?)
        && (b in uses' && uses'[b].APayload? ==>
              var y := uses'[b].message;
              y in r && r[y].data == b && r[y].size == uses'[b].size && 0 <= uses'[b].size < SMALL)
    {
      assert b in uses' ==> b in uses;
    }
  }

  // ----- pages -----

  /** A block in use never starts at a page that carries messages. */
  lemma BlockNotPage(t: seq<Pool>, words: map<int, int>, P: seq<set<int>>, H: seq<set<int>>, L: seq<seq<int>>, c: int,
                     b: int, q: int)
    requires PoolsOk(t, words, P, H, L) && 0 <= c < CLASSES && b in H[c] && MessagePage(P, q)
    ensures b != q
  {
    Handed(t[c], words, P[c], H[c], L[c], b);
    assert P[c] == P[c];
  }

  lemma PagesStay(P: seq<set<int>>, P': seq<set<int>>, page: int, pages: set<int>, pool: seq<int>)
    requires PagesOk(P, pages, pool) && page !in pages && |P'| == CLASSES
    requires forall c {:trigger P'[c]} :: 0 <= c < CLASSES ==> P'[c] <= P[c] + {page}
    ensures PagesOk(P', pages, pool)
  {
    forall q {:trigger Member(q, pages)} | Member(q, pages) ensures MessagePage(P', q) {
      forall c {:trigger P'[c]} | 0 <= c < |P'| ensures q !in P'[c] { assert q !in P[c]; }
    }
  }

  lemma PopPage(P: seq<set<int>>, pages: set<int>, pool: seq<int>)
    requires PagesOk(P, pages, pool) && |pool| > 0
    ensures PagesOk(P, pages, pool[1..]) && pool[0] in pages && pool[0] !in pool[1..] && MessagePage(P, pool[0])
  {
    var q0, rest := pool[0], pool[1..];
    assert pool == [q0] + rest;
    assert forall i :: 0 <= i < |rest| ==> rest[i] == pool[i + 1];
    assert q0 in pool && Member(q0, pages);
    assert forall q {:trigger q in rest} :: q in rest ==> q in pool;
  }

  lemma AddPage(P: seq<set<int>>, pages: set<int>, pool: seq<int>, q: int)
    requires PagesOk(P, pages, pool) && q !in pages && MessagePage(P, q)
    ensures PagesOk(P, pages + {q}, pool) && q !in pool
  {
    assert q in pool ==> Member(q, pages);
    forall x {:trigger Member(x, pages + {q})} | Member(x, pages + {q}) ensures MessagePage(P, x) {
      assert x != q ==> Member(x, pages);
    }
    forall x {:trigger x in pool} | x in pool ensures Member(x, pages + {q}) { assert Member(x, pages); }
  }

  lemma PushPage(P: seq<set<int>>, pages: set<int>, pool: seq<int>, q: int)
    requires PagesOk(P, pages, pool) && q in pages && q !in pool
    ensures PagesOk(P, pages, [q] + pool) && q > 0
  {
    var more := [q] + pool;
    assert Member(q, pages);
    assert forall i :: 0 < i < |more| ==> more[i] == pool[i - 1];
    forall i, j | 0 <= i < j < |more| ensures more[i] != more[j] {
      assert i == 0 ==> more[j] in pool;
    }
    forall x {:trigger x in more} | x in more ensures Member(x, pages) { assert x != q ==> x in pool; }
  }

  lemma PageIsMessagePage(P: seq<set<int>>, pages: set<int>, pool: seq<int>, q: int)
    requires PagesOk(P, pages, pool) && q in pages
    ensures MessagePage(P, q)
  {
    assert Member(q, pages);
  }

  // ----- carriers -----

  lemma SendSmallCarriers(pages: set<int>, pool: seq<int>, msgs: map<int, Message>, of: map<int, int>, m: int,
                          r: map<int, Message>)
    requires CarriersOk(pages, pool, msgs, of) && m !in msgs && r.Keys == msgs.Keys + {m} && SameMessages(msgs, r)
      && m in r
    requires r[m].size < SMALL && r[m].data !in pages
    ensures CarriersOk(pages, pool, r, of[r[m].data := m])
  {
    var of' := of[r[m].data := m];
    forall q {:trigger Member(q, pages)} | Member(q, pages) ensures q in pool || Carries(r, q, HomeOf(of', q)) {
      var x := HomeOf(of, q);
      if q !in pool { assert x in r.Keys && GetMessage(r, x) == r[x]; }
    }
    forall x {:trigger x in r} | x in r && r[x].size >= SMALL ensures Member(r[x].data, pages) && r[x].data !in pool {
      assert x in r.Keys && GetMessage(r, x) == r[x];
      assert x in msgs;
    }
  }

  /** A large message goes on the page q, which was idle or is new. */
  lemma SendLargeCarriers(pages: set<int>, pool: seq<int>, msgs: map<int, Message>, of: map<int, int>, m: int,
                          r: map<int, Message>,
                          q: int, pages': set<int>, pool': seq<int>)
    requires CarriersOk(pages, pool, msgs, of) && m !in msgs && r.Keys == msgs.Keys + {m} && SameMessages(msgs, r)
      && m in r
    requires r[m].size >= SMALL && r[m].data == q && q !in pool' && pages' == pages + {q}
    requires forall x {:trigger x in pool'} :: x in pool' <==> x in pool && x != q
    requires q in pages ==> q in pool
    ensures CarriersOk(pages', pool', r, of[q := m])
  {
    var of' := of[q := m];
    forall y {:trigger Member(y, pages')} | Member(y, pages') ensures y in pool' || Carries(r, y, HomeOf(of', y)) {
      assert GetMessage(r, m) == r[m];
      if y != q {
        assert Member(y, pages);
        var x := HomeOf(of, y);
        if y !in pool { assert x in r.Keys && GetMessage(r, x) == r[x]; } else { assert y in pool'; }
      }
    }
    forall x {:trigger x in r} | x in r && r[x].size >= SMALL ensures Member(r[x].data, pages') && r[x].data !in pool' {
      assert x in r.Keys && GetMessage(r, x) == r[x];
      if x != m { assert x in msgs; assert Member(msgs[x].data, pages); }
    }
  }

  lemma ReceiveCarriers(pages: set<int>, pool: seq<int>, msgs: map<int, Message>, of: map<int, int>, m: int)
    requires CarriersOk(pages, pool, msgs, of) && m in msgs
    requires forall x {:trigger x in msgs} :: x in msgs && x != m ==> msgs[x].data != msgs[m].data
    ensures msgs[m].size >= SMALL ==> msgs[m].data in pages && msgs[m].data !in pool
    ensures CarriersOk(pages, if msgs[m].size >= SMALL then [msgs[m].data] + pool else pool, msgs - {m}, of)
  {
    var d, r := msgs[m].data, msgs - {m};
    var pool' := if msgs[m].size >= SMALL then [d] + pool else pool;
    assert msgs[m].size >= SMALL ==> Member(d, pages) && d !in pool;
    assert forall x :: x in pool' <==> x in pool || (x == d && msgs[m].size >= SMALL);
    forall q {:trigger Member(q, pages)} | Member(q, pages) ensures q in pool' || Carries(r, q, HomeOf(of, q)) {}
    forall x {:trigger x in r} | x in r && r[x].size >= SMALL ensures Member(r[x].data, pages) && r[x].data !in pool' {
      assert x in msgs;
    }
  }

  /** kmalloc and kfree as ports and semaphores use them, and the pool of pages for large messages, a chain threaded
      through the first words of the pages. */
  class BlockStore {
    const km: BlockPools
    var msgPool: int
    var pageNext: map<int, int>

    ghost var uses: map<int, Use>
    ghost var pages: set<int>
    ghost var pool: seq<int>

    ghost predicate Valid()
      reads this, km, km.pools
    {
      && km.Valid() && UsesOk(km.H, uses) && pages <= km.taken && PagesOk(km.P, pages, pool)
      && Threaded(pageNext, pool) && msgPool == At(pool, 0)
    }

    constructor (km: BlockPools)
      requires km.Valid() && forall c {:trigger km.H[c]} :: 0 <= c < CLASSES ==> km.H[c] == {}
      ensures Valid() && this.km == km && uses == map[] && pages == {} && pool == []
    {
      this.km, msgPool, pageNext := km, 0, map[];
      uses, pages, pool := map[], {}, [];
    }

    /** What MmAllocPages returns for one page. */
    ghost predicate Fresh(page: int)
      reads this, km
    { page > 0 && page % PAGE == 0 && page !in km.taken }

    /** kmalloc of a block for the use u */
    method Take(c: int, page: int, ghost u: Use) returns (b: int)
      requires Valid() && Fresh(page) && 0 <= c < CLASSES && ClassOf(u) == c
      modifies km, km.pools, this`uses
      ensures b > 0 && b !in old(uses) && uses == old(uses)[b := u] && b !in pages
      ensures old(km.taken) <= km.taken <= old(km.taken) + {page}
      ensures Valid()
    {
      hide PagesOk, UsesOk, Threaded, PoolsOk, SizeMap;
      Lengths(km.pools[..], km.words, km.P, km.H, km.L);
      b := km.Alloc(c, page);
      TakeKeepsUses(old(km.H), uses, c, b, u);
      uses := uses[b := u];
      PagesStay(old(km.P), km.P, page, pages, pool);
      if b in pages {
        PageIsMessagePage(km.P, pages, pool, b);
        BlockNotPage(km.pools[..], km.words, km.P, km.H, km.L, c, b, b);
      }
    }

    /** kfree of a block, whose class is that of its use */
    method Give(c: int, b: int)
      requires Valid() && b in uses && ClassOf(uses[b]) == c
      modifies km, km.pools, this`uses
      ensures uses == old(uses) - {b} && km.taken == old(km.taken)
      ensures Valid()
    {
      hide PagesOk, UsesOk, Threaded, PoolsOk, SizeMap;
      Lengths(km.pools[..], km.words, km.P, km.H, km.L);
      GiveKeepsUses(km.H, uses, b);
      km.Free(c, b);
      uses := uses - {b};
    }

    /** The page for a large message: the first of the pool, or one that MmAllocPages returns. */
    method TakePage(page: int) returns (q: int)
      requires Valid() && Fresh(page)
      modifies this`msgPool, this`pages, this`pool, km`taken
      ensures q > 0 && q !in uses && q in pages && q !in pool && (q in old(pages) ==> q in old(pool))
      ensures pages == old(pages) + {q}
        && (if |old(pool)| > 0 then pool == old(pool)[1..] && q == old(pool)[0] else pool == old(pool) && q == page)
      ensures old(km.taken) <= km.taken <= old(km.taken) + {page}
      ensures Valid()
    {
      hide PagesOk, UsesOk, PoolsOk, SizeMap;
      if msgPool != 0 {
        PopPage(km.P, pages, pool);
        RecycleThreaded(pageNext, pool);
        q := msgPool;
        msgPool := pageNext[msgPool];
        assert pages + {q} == pages;
        pages, pool := pages + {q}, pool[1..];
      } else {
        q := page;
        NotPooled(km.pools[..], km.words, km.P, km.H, km.L, km.taken, page);
        AddPage(km.P, pages, pool, page);
        km.taken, pages := km.taken + {page}, pages + {page};
      }
      NotInUse(km.pools[..], km.words, km.P, km.H, km.L, uses, pages, pool, q);
    }

    /** A page goes back to the pool. */
    method GivePage(q: int)
      requires Valid() && q in pages && q !in pool
      modifies this`msgPool, this`pageNext, this`pool
      ensures pool == [q] + old(pool)
      ensures Valid()
    {
      hide PagesOk, UsesOk, PoolsOk, SizeMap, Threaded;
      PushPage(km.P, pages, pool, q);
      GiveBackThreaded(pageNext, pool, q);
      pageNext := pageNext[q := msgPool];
      msgPool, pool := q, [q] + pool;
    }
  }

  lemma NotPooled(t: seq<Pool>, words: map<int, int>, P: seq<set<int>>, H: seq<set<int>>, L: seq<seq<int>>,
                  taken: set<int>, page: int)
    requires PoolsOk(t, words, P, H, L) && page !in taken && page > 0 && page % PAGE == 0
    requires forall c {:trigger P[c]} :: 0 <= c < CLASSES ==> P[c] <= taken
    ensures MessagePage(P, page)
  {
  }

  lemma NotInUse(t: seq<Pool>, words: map<int, int>, P: seq<set<int>>, H: seq<set<int>>, L: seq<seq<int>>,
                 uses: map<int, Use>,
                 pages: set<int>, pool: seq<int>, q: int)
    requires PoolsOk(t, words, P, H, L) && UsesOk(H, uses) && PagesOk(P, pages, pool) && q in pages
    ensures q !in uses && q > 0
  {
    hide PoolsOk;
    PageIsMessagePage(P, pages, pool, q);
    if q in uses {
      var c := ClassOf(uses[q]);
      assert InUse(H, c, q);
      BlockNotPage(t, words, P, H, L, c, q, q);
    }
  }
}
