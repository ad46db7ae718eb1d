/** Whole runs of lib/malloc.c, lib/free.c and lib/realloc.c: the heap refines a map from the pointers that a client
    holds to the bytes that it left there. */
module HeapRuns {
  import opened Arithmetic
  import opened FreeList
  import opened Blocks
  import opened BlockHeaps
  import opened Fragments
  import opened HeapStates
  import opened Heaps

  /** For each pointer held, as many bytes as were asked for. */
  type Data = map<int, seq<byte>>

  datatype Command = DoMalloc(size: int) | DoFree(p: int) | DoRealloc(p: int, size: int) | DoWrite(p: int, k: int,
      v: byte) | DoSbrk(n: int)

  predicate Wellformed(c: Command) {
    match c
    case DoMalloc(size) => 0 <= size <= MAX_REQUEST
    case DoFree(p) => true
    case DoRealloc(p, size) => 0 <= size <= MAX_REQUEST
    case DoWrite(p, k, v) => true
    case DoSbrk(n) => n >= 0
  }

  // ----- the simple form -----

  function With(b: seq<byte>, k: int, v: byte): seq<byte>
    requires 0 <= k < |b|
  { b[k := v] }

  /** A request for size bytes fails, or adds a pointer that was not held to size bytes. */
  ghost predicate Granted(d: Data, e: Data, size: int) {
    e == d || (size > 0 && exists p {:trigger p in d} :: p !in d && p in e && |e[p]| == size && e == d[p := e[p]])
  }

  /** p became r with the bytes it had, as many as fit. */
  ghost predicate Moved(d: Data, e: Data, p: int, r: int, size: int) {
    && p in d && r in e && (r == p || r !in d) && e == (d - {p})[r := e[r]] && |e[r]| == size
    && var k := Smaller(|d[p]|, size); e[r][..k] == d[p][..k]
  }

  /** A request to make p size bytes long fails, or p moves. */
  ghost predicate Refilled(d: Data, e: Data, p: int, size: int) {
    e == d || Fitted(d, e, p, size)
  }

  /** What one command may do. Pointers that are not held are left alone. */
  ghost predicate Allowed(c: Command, d: Data, e: Data) {
    match c
    case DoMalloc(size) => Granted(d, e, size)
    case DoFree(p) => e == d - {p}
    case DoRealloc(p, size) =>
      if p == 0 then Granted(d, e, size)
      else if p !in d then e == d
      else if size == 0 then e == d - {p}
      else Refilled(d, e, p, size)
    case DoWrite(p, k, v) => e == if p in d && 0 <= k < |d[p]| then d[p := With(d[p], k, v)] else d
    case DoSbrk(n) => e == d
  }

  /** The command was not refused for want of memory. */
  ghost predicate Served(c: Command, d: Data, e: Data) {
    match c
    case DoMalloc(size) => size == 0 || e != d
    case DoFree(p) => true
    case DoRealloc(p, size) => if p == 0 then size == 0 || e != d else p !in d || size == 0 || Fitted(d, e, p, size)
    case DoWrite(p, k, v) => true
    case DoSbrk(n) => true
  }

  ghost predicate Fitted(d: Data, e: Data, p: int, size: int) { exists r {:trigger r in e} :: Moved(d, e, p, r, size) }

  /** How many bytes a command asks for. */
  function Wanted(c: Command): int {
    match c
    case DoMalloc(size) => size
    case DoRealloc(p, size) => size
    case _ => 0
  }

  /** e is what a run of the simple form may have come to, one without a refusal if the system is willing. */
  ghost predicate Reached(commands: seq<Command>, e: Data, willing: bool) {
    if commands == [] then e == map[]
    else
      var last, before := commands[|commands| - 1], commands[..|commands| - 1];
      exists d {:trigger Allowed(last, d, e)} ::
        Reached(before, d, willing) && Allowed(last, d, e) && (willing ==> Served(last, d, e))
  }

  lemma {:induction false} ReachedAnyway(commands: seq<Command>, e: Data, willing: bool)
    requires Reached(commands, e, willing)
    ensures Reached(commands, e, false)
  {
    hide Allowed, Served;
    if commands != [] {
      var last, before := commands[|commands| - 1], commands[..|commands| - 1];
      var d {:trigger Allowed(last, d, e)} :| Reached(before, d, willing) && Allowed(last, d, e)
        && (willing ==> Served(last, d, e));
      ReachedAnyway(before, d, willing);
    }
  }

  lemma ReachedFurther(commands: seq<Command>, d: Data, c: Command, e: Data, willing: bool, stays: bool)
    requires Reached(commands, d, willing) && Allowed(c, d, e) && (stays ==> willing && Served(c, d, e))
    ensures Reached(commands + [c], e, stays)
  {
    hide Allowed, Served;
    var more := commands + [c];
    assert more[..|more| - 1] == commands && more[|more| - 1] == c;
    if !stays { ReachedAnyway(commands, d, willing); }
    assert Reached(more[..|more| - 1], d, stays);
  }

  // ----- how the heap represents it -----

  ghost predicate Sized(t: Table, busy: map<int, int>, Ls: FragLists, d: Data) {
    && (forall p {:trigger Live(t, busy, Ls, p)} :: Live(t, busy, Ls, p) <==> p in d)
    && (forall p {:trigger p in d} :: p in d ==> 0 < |d[p]| <= Capacity(t, busy, p))
  }

  ghost predicate Stands(m: seq<byte>, d: Data) {
    forall p, x {:trigger p in d, m[x]} :: p in d && p <= x < p + |d[p]| && 0 <= x < |m| ==> m[x] == d[p][x - p]
  }

  ghost predicate Represents(t: Table, busy: map<int, int>, Ls: FragLists, m: seq<byte>, d: Data) {
    Sized(t, busy, Ls, d) && Stands(m, d)
  }

  lemma Held(t: Table, busy: map<int, int>, Ls: FragLists, m: seq<byte>, d: Data, p: int)
    requires Represents(t, busy, Ls, m, d) && p in d
    ensures Live(t, busy, Ls, p) && 0 < |d[p]| <= Capacity(t, busy, p)
  {
    hide Live, Capacity, Stands;
  }

  lemma Gain(t: Table, busy: map<int, int>, Ls: FragLists, m: seq<byte>, d: Data, t': Table, busy': map<int, int>,
             Ls': FragLists, m': seq<byte>, p: int, size: int)
    requires Represents(t, busy, Ls, m, d) && Gained(t, busy, Ls, t', busy', Ls', p) && BytesKept(t, busy, Ls, m, m')
    requires 0 < size <= Capacity(t', busy', p) && 0 <= p && p + size <= |m'|
    ensures p !in d && Represents(t', busy', Ls', m', d[p := m'[p..p + size]])
  {
    hide Live, Capacity;
    var e := d[p := m'[p..p + size]];
    forall q {:trigger q in e} | q in e ensures 0 < |e[q]| <= Capacity(t', busy', q) {
      if q != p { assert Live(t, busy, Ls, q) && Capacity(t', busy', q) == Capacity(t, busy, q); }
    }
    forall q, x {:trigger q in e, m'[x]} | q in e && q <= x < q + |e[q]| && 0 <= x < |m'| ensures m'[x] == e[q][x - q] {
      if q != p { assert Live(t, busy, Ls, q) && m'[x] == m[x]; assert q in d; }
    }
  }

  lemma GainedLive(t: Table, busy: map<int, int>, Ls: FragLists, t': Table, busy': map<int, int>, Ls': FragLists,
                   p: int)
    requires Gained(t, busy, Ls, t', busy', Ls', p)
    ensures Live(t', busy', Ls', p)
  {
  }

  lemma Loss(t: Table, busy: map<int, int>, Ls: FragLists, m: seq<byte>, d: Data, t': Table, busy': map<int, int>,
             Ls': FragLists, m': seq<byte>, p: int)
    requires Represents(t, busy, Ls, m, d) && Lost(t, busy, Ls, t', busy', Ls', p) && BytesKept(t', busy', Ls', m, m')
    ensures Represents(t', busy', Ls', m', d - {p})
  {
    hide Live, Capacity;
    var e := d - {p};
    forall q {:trigger Live(t', busy', Ls', q)} ensures Live(t', busy', Ls', q) <==> q in e {
      assert Live(t, busy, Ls, q) <==> q in d;
    }
    forall q {:trigger q in e} | q in e ensures 0 < |e[q]| <= Capacity(t', busy', q) {
      assert Live(t', busy', Ls', q) && Capacity(t', busy', q) == Capacity(t, busy, q);
      assert q in d;
    }
    forall q, x {:trigger q in e, m'[x]} | q in e && q <= x < q + |e[q]| && 0 <= x < |m'| ensures m'[x] == e[q][x - q] {
      assert Live(t', busy', Ls', q) && m'[x] == m[x];
      assert q in d;
    }
  }

  lemma Swap(t: Table, busy: map<int, int>, Ls: FragLists, m: seq<byte>, d: Data, t': Table, busy': map<int, int>,
             Ls': FragLists, m': seq<byte>, p: int, r: int, size: int, k: int)
    requires Represents(t, busy, Ls, m, d) && p in d && Replaced(t, busy, Ls, t', busy', Ls', p, r)
      && OthersKept(t, busy, Ls, m, m', p)
    requires 0 < size <= Capacity(t', busy', r) && 0 <= r && r + size <= |m'| && Copied(m, p, m', r, k)
      && k == Smaller(Capacity(t, busy, p), size)
    ensures var e := (d - {p})[r := m'[r..r + size]]; Represents(t', busy', Ls', m', e) && Moved(d, e, p, r, size)
  {
    hide Live, Capacity;
    var e := (d - {p})[r := m'[r..r + size]];
    forall q {:trigger Live(t', busy', Ls', q)} ensures Live(t', busy', Ls', q) <==> q in e {
      if q != p && q != r { assert Live(t', busy', Ls', q) <==> Live(t, busy, Ls, q); }
    }
    forall q {:trigger q in e} | q in e ensures 0 < |e[q]| <= Capacity(t', busy', q) {
      if q != r { assert q in d && Live(t, busy, Ls, q) && Capacity(t', busy', q) == Capacity(t, busy, q); }
    }
    forall q, x {:trigger q in e, m'[x]} | q in e && q <= x < q + |e[q]| && 0 <= x < |m'| ensures m'[x] == e[q][x - q] {
      if q != r { assert q in d && Live(t, busy, Ls, q) && m'[x] == m[x]; }
    }
    SwapBytes(t, busy, Ls, m, d, m', p, r, size, k);
  }

  lemma SwapBytes(t: Table, busy: map<int, int>, Ls: FragLists, m: seq<byte>, d: Data, m': seq<byte>, p: int, r: int,
                  size: int, k: int)
    requires Represents(t, busy, Ls, m, d) && p in d && Copied(m, p, m', r, k)
    requires 0 < size && 0 <= r && r + size <= |m'| && k == Smaller(Capacity(t, busy, p), size)
    ensures var j := Smaller(|d[p]|, size); m'[r..r + size][..j] == d[p][..j]
    ensures Live(t, busy, Ls, p)
  {
    hide Live, Capacity;
    var j := Smaller(|d[p]|, size);
    assert j <= k;
    forall i | 0 <= i < j ensures m'[r + i] == d[p][i] {
      assert m'[r + i] == m[p + i];
    }
  }

  lemma Same(t: Table, busy: map<int, int>, Ls: FragLists, m: seq<byte>, d: Data, t': Table, busy': map<int, int>,
             Ls': FragLists)
    requires Represents(t, busy, Ls, m, d) && SamePointers(t, busy, Ls, t', busy', Ls')
    ensures Represents(t', busy', Ls', m, d)
  {
    hide Live, Capacity, Stands;
    forall q {:trigger Live(t', busy', Ls', q)} ensures Live(t', busy', Ls', q) <==> q in d {
      assert Live(t, busy, Ls, q) <==> q in d;
    }
    forall q {:trigger q in d} | q in d ensures 0 < |d[q]| <= Capacity(t', busy', q) {
      assert Capacity(t', busy', q) == Capacity(t, busy, q);
    }
  }

  lemma Written(t: Table, own: Owners, busy: map<int, int>, Ls: FragLists, m: seq<byte>, d: Data, p: int, k: int,
                v: byte, m': seq<byte>)
    requires Represents(t, busy, Ls, m, d) && Frags(t, busy, Ls) && Regions(own, busy)
    requires p in d && 0 <= k < |d[p]| && 0 <= p && p + k < |m| && m' == m[p + k := v]
    ensures Represents(t, busy, Ls, m', d[p := With(d[p], k, v)])
  {
    hide Live, Capacity, Frags, Regions;
    var e := d[p := With(d[p], k, v)];
    forall q, x {:trigger q in e, m'[x]} | q in e && q <= x < q + |e[q]| && 0 <= x < |m'| ensures m'[x] == e[q][x - q] {
      assert Live(t, busy, Ls, p) && Live(t, busy, Ls, q) && q in d;
      if q != p { LiveApart(t, own, busy, Ls, p, q); }
      assert m[x] == d[q][x - q];
    }
    forall q {:trigger q in e} | q in e ensures 0 < |e[q]| <= Capacity(t, busy, q) {
      assert q in d;
    }
  }

  lemma Nothing(t: Table, busy: map<int, int>, Ls: FragLists, m: seq<byte>)
    requires forall p {:trigger Live(t, busy, Ls, p)} :: !Live(t, busy, Ls, p)
    ensures Represents(t, busy, Ls, m, map[])
  {
    hide Live, Capacity;
    var none: Data := map[];
    forall p {:trigger Live(t, busy, Ls, p)} ensures Live(t, busy, Ls, p) <==> p in none {
    }
  }

  ghost predicate Agrees(h: Heap, d: Data)
    reads h, h.blocks, h.blocks.info, h.mem
  { Represents(h.blocks.info[..], h.blocks.busy, h.lists, h.mem[..], d) }

  ghost predicate Disjoint(d: Data) {
    forall p, q {:trigger p in d, q in d} :: p in d && q in d && p != q ==> p + |d[p]| <= q || q + |d[q]| <= p
  }

  lemma AgreesDisjoint(h: Heap, d: Data)
    requires h.Valid() && Agrees(h, d)
    ensures Disjoint(d)
  {
    hide Frags, Chained, Counted, Consistent, Clear, Below, Live, Capacity, Represents;
    forall p, q {:trigger p in d, q in d} | p in d && q in d && p != q ensures p + |d[p]| <= q || q + |d[q]| <= p {
      Held(h.blocks.info[..], h.blocks.busy, h.lists, h.mem[..], d, p);
      Held(h.blocks.info[..], h.blocks.busy, h.lists, h.mem[..], d, q);
      RegionsOf(h.blocks.info[..], h.blocks.S, h.blocks.own, h.blocks.busy, 0);
      LiveApart(h.blocks.info[..], h.blocks.own, h.blocks.busy, h.lists, p, q);
    }
  }

  /** malloc(size), or realloc(NULL, size). */
  method Request(h: Heap, size: int, again: bool, d: Data) returns (e: Data)
    requires h.Valid() && Agrees(h, d) && 0 <= size <= MAX_REQUEST
    modifies h`lists, h.blocks, h.blocks.info, h.mem, h.fragblocks
    ensures h.Valid() && Agrees(h, e) && (h.blocks.info == old(h.blocks.info) || fresh(h.blocks.info))
    ensures Granted(d, e, size) && (e == d && size > 0 ==> NoRoom(old(h.blocks.own), Blockify(size)))
    ensures old(h.blocks.log) <= h.blocks.log && (e == d && size > 0 ==> !Willing(old(h.blocks.log), h.blocks.log))
  {
    hide Frags, Chained, Counted, Consistent, Clear, Below, Live, Capacity, BytesKept, NoRoom, Represents, Gained,
      NextFit, Fits;
    ghost var t, busy, Ls, m := h.blocks.info[..], h.blocks.busy, h.lists, h.mem[..];
    var p;
    if again { p := h.Realloc(0, size); } else { p := h.Malloc(size); }
    e := d;
    if p != 0 {
      FitsMeans(size, h.Room(p));
      GainedLive(t, busy, Ls, h.blocks.info[..], h.blocks.busy, h.lists, p);
      h.RegionInMemory(p);
      Gain(t, busy, Ls, m, d, h.blocks.info[..], h.blocks.busy, h.lists, h.mem[..], p, size);
      e := d[p := h.mem[p..p + size]];
    }
  }

  /** free(p), or realloc(p, 0). */
  method Release(h: Heap, p: int, again: bool, d: Data) returns (e: Data)
    requires h.Valid() && Agrees(h, d) && p in d
    modifies h`lists, h.blocks, h.blocks.info, h.mem, h.fragblocks
    ensures h.Valid() && Agrees(h, e) && (h.blocks.info == old(h.blocks.info) || fresh(h.blocks.info))
    ensures e == d - {p} && h.blocks.log == old(h.blocks.log)
  {
    hide Frags, Chained, Counted, Consistent, Clear, Below, Live, Capacity, BytesKept, Represents, Lost, Released,
      TailFree, Paint;
    ghost var t, busy, Ls, m := h.blocks.info[..], h.blocks.busy, h.lists, h.mem[..];
    Held(t, busy, Ls, m, d, p);
    LiveAddress(t, busy, Ls, p);
    if again { var r := h.Realloc(p, 0); } else { h.Free(p); }
    Loss(t, busy, Ls, m, d, h.blocks.info[..], h.blocks.busy, h.lists, h.mem[..], p);
    e := d - {p};
  }

  method Resize(h: Heap, p: int, size: int, d: Data) returns (e: Data)
    requires h.Valid() && Agrees(h, d) && p in d && 0 < size <= MAX_REQUEST
    modifies h`lists, h.blocks, h.blocks.info, h.mem, h.fragblocks
    ensures h.Valid() && Agrees(h, e) && (h.blocks.info == old(h.blocks.info) || fresh(h.blocks.info))
    ensures Refilled(d, e, p, size) && (!Fitted(d, e, p, size) ==> NoRoom(old(h.blocks.own), Blockify(size)))
    ensures old(h.blocks.log) <= h.blocks.log
    ensures !Fitted(d, e, p, size) ==> !Willing(old(h.blocks.log), h.blocks.log)
  {
    hide Frags, Chained, Counted, Consistent, Clear, Below, Live, Capacity, Represents, Replaced, OthersKept, Copied,
      SamePointers, NoRoom, Allocated, Released, Paint, Fits, Moved;
    ghost var t, busy, Ls, m := h.blocks.info[..], h.blocks.busy, h.lists, h.mem[..];
    Held(t, busy, Ls, m, d, p);
    LiveAddress(t, busy, Ls, p);
    var r := h.Realloc(p, size);
    if r != 0 {
      FitsMeans(size, h.Room(r));
      LiveOf(t, busy, Ls, h.blocks.info[..], h.blocks.busy, h.lists, p, r);
      h.RegionInMemory(r);
      Swap(t, busy, Ls, m, d, h.blocks.info[..], h.blocks.busy, h.lists, h.mem[..], p, r, size,
          Smaller(Capacity(t, busy, p), size));
      e := (d - {p})[r := h.mem[r..r + size]];
      assert r in e;
    } else {
      Same(t, busy, Ls, m, d, h.blocks.info[..], h.blocks.busy, h.lists);
      e := d;
    }
  }

  method Write(h: Heap, p: int, k: int, v: byte, d: Data) returns (e: Data)
    requires h.Valid() && Agrees(h, d) && p in d && 0 <= k < |d[p]|
    modifies h.mem
    ensures h.Valid() && Agrees(h, e) && e == d[p := With(d[p], k, v)]
  {
    hide Frags, Chained, Counted, Consistent, Clear, Below, Live, Capacity, Represents;
    ghost var t, busy, Ls, m := h.blocks.info[..], h.blocks.busy, h.lists, h.mem[..];
    Held(t, busy, Ls, m, d, p);
    LiveAddress(t, busy, Ls, p);
    h.RegionInMemory(p);
    RegionsOf(t, h.blocks.S, h.blocks.own, busy, 0);
    h.mem[p + k] := v;
    assert h.mem[..] == m[p + k := v];
    Written(t, h.blocks.own, busy, Ls, m, d, p, k, v, h.mem[..]);
    WroteByte(m, p, k, v, Capacity(t, busy, p));
    WriteKeepsChains(t, h.blocks.own, busy, Ls, p, Capacity(t, busy, p), m, h.mem[..]);
    e := d[p := With(d[p], k, v)];
  }

  lemma WroteByte(m: seq<byte>, p: int, k: int, v: byte, n: int)
    requires 0 <= p && 0 <= k < n && p + n <= |m|
    ensures Wrote(m, m[p + k := v], p, n)
  {
  }

  /** One command of a client that names only what it holds. */
  method Step(h: Heap, c: Command, d: Data) returns (e: Data)
    requires h.Valid() && Agrees(h, d) && Wellformed(c)
    modifies h`lists, h.blocks, h.blocks.info, h.mem, h.fragblocks
    ensures h.Valid() && Agrees(h, e) && (h.blocks.info == old(h.blocks.info) || fresh(h.blocks.info))
    ensures Allowed(c, d, e)
    // a request is refused only if as many blocks as it takes were nowhere free in a row, and the system gave no more
    ensures Served(c, d, e) || NoRoom(old(h.blocks.own), Blockify(Wanted(c)))
    ensures old(h.blocks.log) <= h.blocks.log && (Willing(old(h.blocks.log), h.blocks.log) ==> Served(c, d, e))
  {
    hide Frags, Chained, Counted, Consistent, Clear, Below, Live, Capacity, Represents, Granted, Refilled, Fitted,
      NoRoom;
    match c {
      case DoMalloc(size) =>
        e := Request(h, size, false, d);
      case DoFree(p) =>
        if p in d { e := Release(h, p, false, d); } else { e := d; assert d - {p} == d; }
      case DoRealloc(p, size) =>
        if p == 0 {
          e := Request(h, size, true, d);
        } else if p !in d {
          e := d;
        } else if size == 0 {
          e := Release(h, p, true, d);
        } else {
          e := Resize(h, p, size, d);
        }
      case DoWrite(p, k, v) =>
        if p in d && 0 <= k < |d[p]| { e := Write(h, p, k, v, d); } else { e := d; }
      case DoSbrk(n) =>
        h.blocks.MoveBreak(n);
        e := d;
    }
  }

  lemma NothingReached(willing: bool)
    ensures Reached([], map[], willing)
  {
  }

  lemma WillingAlready(log: seq<Request>)
    ensures Willing(log, log)
  {
  }

  lemma WillingSince(first: seq<Request>, mid: seq<Request>, last: seq<Request>)
    requires first <= mid <= last
    ensures Willing(first, last) <==> Willing(first, mid) && Willing(mid, last)
  {
    assert forall i {:trigger mid[i]} :: 0 <= i < |mid| ==> mid[i] == last[i];
  }

  /** Any run of commands on a heap that nobody holds anything of is a run of the simple form, what is handed out never
      overlaps, and no request fails if the system grants all it is asked for. */
  method Run(h: Heap, commands: seq<Command>) returns (d: Data)
    requires h.Valid() && forall p {:trigger h.Holds(p)} :: !h.Holds(p)
    requires forall i {:trigger commands[i]} :: 0 <= i < |commands| ==> Wellformed(commands[i])
    modifies h`lists, h.blocks, h.blocks.info, h.mem, h.fragblocks
    ensures h.Valid() && Agrees(h, d) && Disjoint(d)
    ensures Reached(commands, d, Willing(old(h.blocks.log), h.blocks.log))
  {
    hide Frags, Chained, Counted, Consistent, Clear, Below, Live, Capacity, Represents, Allowed, Served, Willing,
      Reached, Disjoint, NoRoom;
    d := map[];
    NothingReached(true);
    assert Willing(h.blocks.log, h.blocks.log) by { WillingAlready(h.blocks.log); }
    assert commands[..0] == [];
    assert forall p {:trigger Live(h.blocks.info[..], h.blocks.busy, h.lists, p)} ::
      !Live(h.blocks.info[..], h.blocks.busy, h.lists, p) by {
      forall p ensures !Live(h.blocks.info[..], h.blocks.busy, h.lists, p) { assert !h.Holds(p); }
    }
    Nothing(h.blocks.info[..], h.blocks.busy, h.lists, h.mem[..]);
    var i := 0;
    while i < |commands|
      invariant 0 <= i <= |commands| && h.Valid() && Agrees(h, d)
        && (h.blocks.info == old(h.blocks.info) || fresh(h.blocks.info))
      invariant old(h.blocks.log) <= h.blocks.log
        && Reached(commands[..i], d, Willing(old(h.blocks.log), h.blocks.log))
    {
      ghost var log := h.blocks.log;
      var e := Step(h, commands[i], d);
      WillingSince(old(h.blocks.log), log, h.blocks.log);
      ReachedFurther(commands[..i], d, commands[i], e, Willing(old(h.blocks.log), log),
                     Willing(old(h.blocks.log), h.blocks.log));
      assert commands[..i + 1] == commands[..i] + [commands[i]];
      d := e;
      i := i + 1;
    }
    assert commands[..i] == commands;
    AgreesDisjoint(h, d);
  }
}
