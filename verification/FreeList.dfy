/** The free list of whole blocks, threaded through the second and third words of the info table's entries, and its
    pointer surgery. A painting tells who owns each block: 0 for a free one, else the first block of its region. */
module FreeList {

  datatype Info = Info(w0: int, w1: int, w2: int)

  type Table = seq<Info>

  ghost predicate In(s: int, S: set<int>) { s in S }

  function Sz(t: Table, s: int): int { if 0 <= s < |t| then t[s].w0 else 0 }
  function Nx(t: Table, s: int): int { if 0 <= s < |t| then t[s].w1 else 0 }
  function Pv(t: Table, s: int): int { if 0 <= s < |t| then t[s].w2 else 0 }

  /** The entries of S form one circular list through entry 0, strictly ascending, next and prev inverse. */
  ghost predicate Linked(t: Table, S: set<int>) {
    && In(0, S)
    && (forall s :: In(s, S) ==> 0 <= s < |t|)
    && (forall s {:trigger Nx(t, s)} :: In(s, S) ==> In(Nx(t, s), S) && Pv(t, Nx(t, s)) == s)
    && (forall s {:trigger Pv(t, s)} :: In(s, S) ==> In(Pv(t, s), S) && Nx(t, Pv(t, s)) == s)
    && (forall s {:trigger Nx(t, s)} :: In(s, S) && Nx(t, s) != 0 ==> s < Nx(t, s))
    && (forall s, x {:trigger Nx(t, s), In(x, S)} :: In(s, S) && In(x, S) && s < x ==> s < Nx(t, s) <= x)
  }

  // ----- painting: who owns each block -----

  type Owners = map<int, int>

  /** -1 for a block not held, 0 for a free block, else the first block of the region it belongs to. */
  ghost function Own(own: Owners, b: int): int { if b in own then own[b] else -1 }

  ghost predicate Free(own: Owners, b: int) { Own(own, b) == 0 }

  ghost predicate IsStart(own: Owners, b: int, seam: int) {
    Free(own, b) && (b == seam || !Free(own, b - 1))
  }

  ghost function Paint(own: Owners, b: int, n: int, v: int): (r: Owners)
    ensures forall j {:trigger Own(r, j)} :: Own(r, j) == if b <= j < b + n then v else Own(own, j)
    ensures forall j {:trigger j in r} :: j in r <==> j in own || b <= j < b + n
    decreases n
  {
    if n <= 0 then own else
      var q := Paint(own, b, n - 1, v);
      var r := q[b + n - 1 := v];
      assert forall j {:trigger Own(r, j)} :: Own(r, j) == if j == b + n - 1 then v else Own(q, j);
      r
  }

  ghost function Unpaint(own: Owners, b: int, n: int): (r: Owners)
    ensures forall j {:trigger Own(r, j)} :: Own(r, j) == if b <= j < b + n then -1 else Own(own, j)
    ensures forall j {:trigger j in r} :: j in r <==> j in own && !(b <= j < b + n)
  { map i | i in own.Keys && !(b <= i < b + n) :: own[i] }

  ghost predicate Clusters(t: Table, S: set<int>, own: Owners, seam: int) {
    && Sz(t, 0) == 0 && Own(own, 0) == -1
    && (forall s {:trigger In(s, S)} :: In(s, S) ==> s == 0 || IsStart(own, s, seam))
    && (forall b {:trigger IsStart(own, b, seam)} :: IsStart(own, b, seam) ==> In(b, S))
    && (forall s {:trigger Sz(t, s)} :: In(s, S) && s != 0 ==>
          && Sz(t, s) >= 1
          && (!Free(own, s + Sz(t, s)) || s + Sz(t, s) == seam)
          && (s < seam ==> s + Sz(t, s) <= seam))
    && (forall s, j {:trigger Sz(t, s), Own(own, j)} :: In(s, S) && s != 0 && s <= j < s + Sz(t, s) ==>
       Own(own, j) == 0)
  }

  lemma StartOf(own: Owners, b: int) returns (s: int)
    requires Free(own, b) && forall i {:trigger Own(own, i)} :: Own(own, i) != -1 ==> 1 <= i
    ensures 1 <= s <= b && IsStart(own, s, 0)
    ensures forall j {:trigger Own(own, j)} :: s <= j <= b ==> Own(own, j) == 0
    decreases b
  {
    if Free(own, b - 1) {
      s := StartOf(own, b - 1);
    } else {
      s := b;
    }
  }

  /** Each free block is covered by exactly the cluster that starts at the closest list entry below it. */
  lemma CoveredBy(t: Table, S: set<int>, own: Owners, p: int, b: int)
    requires Linked(t, S) && Clusters(t, S, own, 0) && forall i {:trigger Own(own, i)} :: Own(own, i) != -1 ==> 1 <= i
    requires In(p, S) && p <= b && (Nx(t, p) == 0 || b < Nx(t, p))
    ensures Free(own, b) <==> p != 0 && b < p + Sz(t, p)
  {
    if Free(own, b) {
      var s := StartOf(own, b);
      assert In(s, S);
      assert p == s;
      assert Sz(t, p) >= 1;
    }
  }

  // ----- the pointer surgery of __malloc and __free -----

  function Inserted(t: Table, p: int, b: int, size: int): (r: Table)
    requires 0 <= p < |t| && 0 <= b < |t| && 0 <= Nx(t, p) < |t|
  {
    var n := Nx(t, p);
    var t1 := t[b := Info(size, n, p)];
    var t2 := t1[p := t1[p].(w1 := b)];
    t2[n := t2[n].(w2 := b)]
  }

  lemma InsertedEntries(t: Table, p: int, b: int, size: int)
    requires 0 <= p < |t| && 0 <= b < |t| && 0 <= Nx(t, p) < |t| && p != b && Nx(t, p) != b
    ensures |Inserted(t, p, b, size)| == |t|
    ensures var r, n := Inserted(t, p, b, size), Nx(t, p);
      && (forall s {:trigger Sz(r, s)} :: Sz(r, s) == if s == b then size else Sz(t, s))
      && (forall s {:trigger Nx(r, s)} :: Nx(r, s) == if s == p then b else if s == b then n else Nx(t, s))
      && (forall s {:trigger Pv(r, s)} :: Pv(r, s) == if s == n then b else if s == b then p else Pv(t, s))
  {
  }

  lemma LinkedInsert(t: Table, S: set<int>, p: int, b: int, size: int)
    requires Linked(t, S) && In(p, S) && p < b < |t| && (Nx(t, p) == 0 || b < Nx(t, p))
    ensures Linked(Inserted(t, p, b, size), S + {b})
  {
    var r := Inserted(t, p, b, size);
    var n := Nx(t, p);
    var R := S + {b};
    assert !In(b, S);
    assert forall s {:trigger In(s, R)} :: In(s, R) <==> In(s, S) || s == b;
    InsertedEntries(t, p, b, size);
  }

  function Removed(t: Table, b: int): (r: Table)
    requires 0 <= b < |t| && 0 <= Nx(t, b) < |t| && 0 <= Pv(t, b) < |t|
  {
    var n, p := Nx(t, b), Pv(t, b);
    var t1 := t[p := t[p].(w1 := n)];
    t1[n := t1[n].(w2 := p)]
  }

  lemma RemovedEntries(t: Table, b: int, r: Table)
    requires 0 <= b < |t| && 0 <= Nx(t, b) < |t| && 0 <= Pv(t, b) < |t| && r == Removed(t, b)
    ensures |r| == |t|
    ensures forall s {:trigger Sz(r, s)} :: Sz(r, s) == Sz(t, s)
    ensures forall s {:trigger Nx(r, s)} :: Nx(r, s) == if s == Pv(t, b) then Nx(t, b) else Nx(t, s)
    ensures forall s {:trigger Pv(r, s)} :: Pv(r, s) == if s == Nx(t, b) then Pv(t, b) else Pv(t, s)
  {
  }

  lemma LinkedRemove(t: Table, S: set<int>, b: int)
    requires Linked(t, S) && In(b, S) && b != 0
    ensures In(Nx(t, b), S - {b}) && In(Pv(t, b), S - {b})
    ensures Linked(Removed(t, b), S - {b})
  {
    var r := Removed(t, b);
    var n, p := Nx(t, b), Pv(t, b);
    var R := S - {b};
    assert forall s {:trigger In(s, R)} :: In(s, R) <==> In(s, S) && s != b;
    assert In(0, S);
    assert n != b && p != b;
    RemovedEntries(t, b, r);
  }

  function Moved(t: Table, b: int, c: int, size: int): (r: Table)
    requires 0 <= b < |t| && 0 <= Nx(t, b) < |t| && 0 <= Pv(t, b) < |t| && 0 <= c < |t|
  {
    var n, p := Nx(t, b), Pv(t, b);
    var t1 := t[c := Info(size, n, p)];
    var t2 := t1[n := t1[n].(w2 := c)];
    t2[p := t2[p].(w1 := c)]
  }

  lemma MovedEntries(t: Table, b: int, c: int, size: int, r: Table)
    requires 0 <= b < |t| && 0 <= Nx(t, b) < |t| && 0 <= Pv(t, b) < |t| && 0 <= c < |t|
    requires c != Nx(t, b) && c != Pv(t, b) && r == Moved(t, b, c, size)
    ensures |r| == |t|
    ensures forall s {:trigger Sz(r, s)} :: Sz(r, s) == if s == c then size else Sz(t, s)
    ensures forall s {:trigger Nx(r, s)} ::
      Nx(r, s) == if s == Pv(t, b) then c else if s == c then Nx(t, b) else Nx(t, s)
    ensures forall s {:trigger Pv(r, s)} ::
      Pv(r, s) == if s == Nx(t, b) then c else if s == c then Pv(t, b) else Pv(t, s)
  {
  }

  lemma LinkedMove(t: Table, S: set<int>, b: int, c: int, size: int)
    requires Linked(t, S) && In(b, S) && 0 < b < c < |t| && (Nx(t, b) == 0 || c < Nx(t, b))
    ensures Linked(Moved(t, b, c, size), S - {b} + {c})
  {
    var r := Moved(t, b, c, size);
    var n, p := Nx(t, b), Pv(t, b);
    var R := S - {b} + {c};
    assert !In(c, S);
    assert forall s {:trigger In(s, R)} :: In(s, R) <==> (In(s, S) && s != b) || s == c;
    assert In(0, S);
    assert n != b && p != b;
    MovedEntries(t, b, c, size, r);
  }

  lemma LinkedSameLinks(t: Table, r: Table, S: set<int>)
    requires Linked(t, S) && |r| >= |t|
    requires forall s {:trigger Nx(r, s)} :: In(s, S) ==> Nx(r, s) == Nx(t, s)
    requires forall s {:trigger Pv(r, s)} :: In(s, S) ==> Pv(r, s) == Pv(t, s)
    ensures Linked(r, S)
  {
  }

  lemma SplitFits(t: Table, S: set<int>, own: Owners, b: int, n: int)
    requires Linked(t, S) && Clusters(t, S, own, 0) && In(b, S) && b != 0 && 1 <= n < Sz(t, b)
    ensures Own(own, b + n) == 0 && !In(b + n, S) && (Nx(t, b) == 0 || b + n < Nx(t, b))
  {
    assert Own(own, b + n) == 0 && Own(own, b + n - 1) == 0;
    if Nx(t, b) != 0 { assert IsStart(own, Nx(t, b), 0); assert Own(own, Nx(t, b) - 1) != 0; }
  }

  // ----- what each surgery does to the painting -----

  /** Growing the predecessor over a region that was not free. */
  lemma ClustersGrow(t: Table, S: set<int>, own: Owners, p: int, b: int, n: int, r: Table)
    requires Clusters(t, S, own, 0) && In(p, S) && 0 < p < b && p + Sz(t, p) == b && n >= 1
    requires forall j {:trigger Own(own, j)} :: b <= j < b + n ==> Own(own, j) != 0
    requires forall s {:trigger Sz(r, s)} :: Sz(r, s) == if s == p then Sz(t, p) + n else Sz(t, s)
    ensures Clusters(r, S, Paint(own, b, n, 0), b + n)
  {
    var own' := Paint(own, b, n, 0);
    forall c | IsStart(own', c, b + n) ensures In(c, S) {
      assert Own(own', c) == 0;
      if c < b { assert IsStart(own, c, 0); }
      else if c > b + n { assert IsStart(own, c, 0); }
    }
  }

  /** Linking a region that was not free and does not touch its predecessor. */
  lemma ClustersInsert(t: Table, S: set<int>, own: Owners, b: int, n: int, r: Table)
    requires Clusters(t, S, own, 0) && n >= 1 && b >= 1 && !Free(own, b - 1)
    requires forall j {:trigger Own(own, j)} :: b <= j < b + n ==> Own(own, j) != 0
    requires forall s {:trigger Sz(r, s)} :: Sz(r, s) == if s == b then n else Sz(t, s)
    ensures Clusters(r, S + {b}, Paint(own, b, n, 0), b + n)
  {
    var own', R := Paint(own, b, n, 0), S + {b};
    assert forall s {:trigger In(s, R)} :: In(s, R) <==> In(s, S) || s == b;
    forall c | IsStart(own', c, b + n) ensures In(c, R) {
      assert Own(own', c) == 0;
      if c < b || c > b + n { assert IsStart(own, c, 0); }
      else if c == b + n { assert Own(own, b + n - 1) != 0; assert IsStart(own, c, 0); }
    }
    forall s | In(s, R) ensures s == 0 || IsStart(own', s, b + n) {
    }
    forall s, j {:trigger Sz(r, s), Own(own', j)} | In(s, R) && s != 0 && s <= j < s + Sz(r, s)
      ensures Own(own', j) == 0
    {
    }
  }

  /** Absorbing the cluster that starts where this one ends. */
  lemma ClustersAbsorb(t: Table, S: set<int>, own: Owners, c: int, x: int, r: Table)
    requires Linked(t, S) && Clusters(t, S, own, x) && In(c, S) && In(x, S) && 0 < c < x && c + Sz(t, c) == x
    requires forall s {:trigger Sz(r, s)} ::
      In(s, S) && s != x ==> Sz(r, s) == if s == c then Sz(t, c) + Sz(t, x) else Sz(t, s)
    ensures Clusters(r, S - {x}, own, 0)
  {
    var R := S - {x};
    assert forall s {:trigger In(s, R)} :: In(s, R) <==> In(s, S) && s != x;
    assert Own(own, x - 1) == 0;
    forall b | IsStart(own, b, 0) ensures In(b, R) {
      assert IsStart(own, b, x);
    }
    assert Sz(t, x) >= 1 && Sz(t, c) >= 1;
  }

  /** Nothing to absorb: the seam is a proper boundary. */
  lemma ClustersSeal(t: Table, S: set<int>, own: Owners, x: int)
    requires Clusters(t, S, own, x) && !In(x, S)
    ensures Clusters(t, S, own, 0)
  {
    assert !IsStart(own, x, x);
    forall b | IsStart(own, b, 0) ensures In(b, S) {
      assert IsStart(own, b, x);
    }
  }

  /** A whole cluster leaves the list: handed out, or returned to the system. */
  lemma ClustersRemove(t: Table, S: set<int>, own: Owners, b: int, own': Owners, r: Table)
    requires Linked(t, S) && Clusters(t, S, own, 0) && In(b, S) && b != 0
    requires forall j {:trigger Own(own', j)} ::
      if b <= j < b + Sz(t, b) then Own(own', j) != 0 else Own(own', j) == Own(own, j)
    requires forall s {:trigger Sz(r, s)} :: In(s, S) && s != b ==> Sz(r, s) == Sz(t, s)
    ensures Clusters(r, S - {b}, own', 0)
  {
    var R := S - {b};
    assert forall s {:trigger In(s, R)} :: In(s, R) <==> In(s, S) && s != b;
    assert IsStart(own, b, 0);
    var e := b + Sz(t, b);
    forall c | IsStart(own', c, 0) ensures In(c, R) {
      assert Own(own', c) == 0;
      assert c != e;
      assert IsStart(own, c, 0);
    }
    forall s | In(s, R) ensures s == 0 || IsStart(own', s, 0) {
      if s != 0 { assert IsStart(own, s, 0); assert Own(own, s) == 0; assert !(b <= s - 1 < e); }
    }
    forall s {:trigger Sz(r, s)} | In(s, R) && s != 0 ensures !Free(own', s + Sz(r, s)) {
    }
  }

  /** The front of a cluster is handed out and its tail stays on the list. */
  lemma ClustersSplit(t: Table, S: set<int>, own: Owners, b: int, n: int, v: int, r: Table)
    requires Linked(t, S) && Clusters(t, S, own, 0) && In(b, S) && b != 0 && 1 <= n < Sz(t, b) && v != 0
    requires forall s {:trigger Sz(r, s)} :: s != b ==> Sz(r, s) == if s == b + n then Sz(t, b) - n else Sz(t, s)
    ensures Clusters(r, S - {b} + {b + n}, Paint(own, b, n, v), 0)
  {
    var R, own' := S - {b} + {b + n}, Paint(own, b, n, v);
    assert forall s {:trigger In(s, R)} :: In(s, R) <==> (In(s, S) && s != b) || s == b + n;
    assert IsStart(own, b, 0);
    assert Own(own, b + n) == 0;
    forall c | IsStart(own', c, 0) ensures In(c, R) {
      assert Own(own', c) == 0;
      if c != b + n { assert c - 1 != b + n - 1; assert IsStart(own, c, 0); }
    }
    forall s | In(s, R) ensures s == 0 || IsStart(own', s, 0) {
      if s != 0 && s != b + n { assert IsStart(own, s, 0); assert Own(own, s) == 0; assert !(b <= s - 1 < b + n); }
    }
    forall s, j {:trigger Sz(r, s), Own(own', j)} | In(s, R) && s != 0 && s <= j < s + Sz(r, s)
      ensures Own(own', j) == 0
    {
      if s != b + n { assert Own(own, j) == 0; assert IsStart(own, s, 0); assert s > j || j < b || j >= b + n; }
    }
  }

  /** Painting that leaves every block's freedom alone does not concern the list. */
  lemma ClustersElsewhere(t: Table, S: set<int>, own: Owners, own': Owners, seam: int, r: Table)
    requires Clusters(t, S, own, seam) && Own(own', 0) == -1 && In(0, S)
    requires forall j {:trigger Own(own', j)} :: Own(own', j) == 0 <==> Own(own, j) == 0
    requires forall s {:trigger Sz(r, s)} :: In(s, S) ==> Sz(r, s) == Sz(t, s)
    ensures Clusters(r, S, own', seam)
  {
    forall b | IsStart(own', b, seam) ensures In(b, S) {
      assert Own(own', b) == 0;
      assert IsStart(own, b, seam);
    }
    forall s | In(s, S) ensures s == 0 || IsStart(own', s, seam) {
      if s != 0 { assert IsStart(own, s, seam); }
    }
  }
}
