/** What each step of the whole-block allocator keeps. */
module Blocks {
  import opened Arithmetic
  import opened FreeList

  ghost predicate Regions(own: Owners, busy: map<int, int>) {
    && (forall s {:trigger s in busy} :: s in busy ==> s >= 1 && busy[s] >= 1)
    && (forall s, j {:trigger s in busy, Own(own, j)} :: s in busy && s <= j < s + busy[s] ==> Own(own, j) == s)
    && (forall j {:trigger Own(own, j)} :: Own(own, j) > 0 ==>
          Own(own, j) in busy && Own(own, j) <= j < Own(own, j) + busy[Own(own, j)])
    && (forall j {:trigger Own(own, j)} :: Own(own, j) >= -1)
  }

  ghost predicate Within(own: Owners, n: int) {
    forall b {:trigger Own(own, b)} :: Own(own, b) != -1 ==> 1 <= b < n
  }

  /** The whole block-level invariant; seam is the one place where two free clusters may still touch. */
  ghost predicate Consistent(t: Table, S: set<int>, own: Owners, busy: map<int, int>, seam: int) {
    && Linked(t, S) && Clusters(t, S, own, seam) && Regions(own, busy)
    && Within(own, |t|)
  }

  ghost predicate SameEntries(t: Table, r: Table, busy: map<int, int>) {
    forall s {:trigger Sz(r, s)} {:trigger Nx(r, s)} {:trigger Pv(r, s)} :: s in busy ==>
      Sz(r, s) == Sz(t, s) && Nx(r, s) == Nx(t, s) && Pv(r, s) == Pv(t, s)
  }

  lemma RegionsDrop(own: Owners, busy: map<int, int>, b: int)
    requires Regions(own, busy) && b in busy
    ensures Regions(Paint(own, b, busy[b], 0), busy - {b})
  {
    var own', busy' := Paint(own, b, busy[b], 0), busy - {b};
    forall s, j {:trigger s in busy', Own(own', j)} | s in busy' && s <= j < s + busy'[s] ensures Own(own', j) == s {
      assert s in busy && Own(own, j) == s;
    }
    forall j {:trigger Own(own', j)} | Own(own', j) > 0
      ensures Own(own', j) in busy' && Own(own', j) <= j < Own(own', j) + busy'[Own(own', j)]
    {
      assert Own(own', j) == Own(own, j);
    }
  }

  lemma BusyNotListed(t: Table, S: set<int>, own: Owners, busy: map<int, int>, seam: int)
    requires Consistent(t, S, own, busy, seam)
    ensures forall s {:trigger In(s, S)} {:trigger s in busy} :: s in busy ==> !In(s, S)
  {
    forall s | s in busy ensures !In(s, S) {
      assert Own(own, s) == s;
    }
  }

  lemma RegionBounds(own: Owners, busy: map<int, int>, b: int, n: int)
    requires Regions(own, busy) && Within(own, n) && b in busy
    ensures 1 <= b && 1 <= busy[b] && b + busy[b] <= n
    ensures forall j {:trigger Own(own, j)} :: b <= j < b + busy[b] ==> Own(own, j) == b
  {
    assert Own(own, b + busy[b] - 1) == b;
  }

  lemma EntryFacts(t: Table, S: set<int>, own: Owners, busy: map<int, int>, seam: int, i: int)
    requires Consistent(t, S, own, busy, seam) && In(i, S)
    ensures 0 <= i < |t| && In(Nx(t, i), S) && In(Pv(t, i), S) && 0 <= Nx(t, i) < |t| && 0 <= Pv(t, i) < |t|
    ensures i !in busy && Nx(t, i) !in busy && Sz(t, 0) == 0 && SameEntries(t, t, busy)
    ensures i != 0 ==> Sz(t, i) >= 1 && i + Sz(t, i) <= |t|
  {
    BusyNotListed(t, S, own, busy, seam);
    assert In(Nx(t, i), S) && In(Pv(t, i), S);
    if i != 0 { assert Own(own, i + Sz(t, i) - 1) == 0; }
  }

  lemma ListFacts(t: Table, S: set<int>, own: Owners, busy: map<int, int>, seam: int)
    requires Consistent(t, S, own, busy, seam)
    ensures In(0, S) && |t| > 0 && In(Pv(t, 0), S) && Sz(t, 0) == 0 && 0 <= Pv(t, 0) < |t|
  {
    assert In(0, S);
    assert In(Pv(t, 0), S);
  }

  lemma ClusterTooSmall(t: Table, S: set<int>, own: Owners, busy: map<int, int>, c: int, n: int)
    requires Consistent(t, S, own, busy, 0) && In(c, S) && c != 0 && NoRoom(own, n)
    ensures 1 <= Sz(t, c) < n && FreeRun(own, c, Sz(t, c))
  {
    assert !FreeRun(own, c, n);
  }

  lemma FitsHasRoom(t: Table, S: set<int>, own: Owners, busy: map<int, int>, c: int, n: int)
    requires Consistent(t, S, own, busy, 0) && In(c, S) && c != 0 && Sz(t, c) >= n
    ensures !NoRoom(own, n)
  {
    assert FreeRun(own, c, n);
  }

  lemma RegionFacts(t: Table, S: set<int>, own: Owners, busy: map<int, int>, seam: int, b: int)
    requires Consistent(t, S, own, busy, seam) && b in busy
    ensures 1 <= b && 1 <= busy[b] && b + busy[b] <= |t| && !In(b, S)
    ensures forall j {:trigger Own(own, j)} :: b <= j < b + busy[b] ==> Own(own, j) == b
  {
    RegionBounds(own, busy, b, |t|);
    BusyNotListed(t, S, own, busy, seam);
  }

  lemma SameEntriesTransitive(t: Table, r: Table, u: Table, busy: map<int, int>)
    requires SameEntries(t, r, busy) && SameEntries(r, u, busy)
    ensures SameEntries(t, u, busy)
  {
    assert forall s {:trigger Sz(u, s)} {:trigger Nx(u, s)} {:trigger Pv(u, s)} :: s in busy ==>
      Sz(u, s) == Sz(r, s) && Nx(u, s) == Nx(r, s) && Pv(u, s) == Pv(r, s);
  }

  lemma RegionNotFree(own: Owners, b: int, n: int)
    requires b >= 1 && n >= 1 && forall j {:trigger Own(own, j)} :: b <= j < b + n ==> Own(own, j) == b
    ensures forall j {:trigger Own(own, j)} :: b <= j < b + n ==> Own(own, j) != 0
    ensures !Free(own, b)
  {
    assert Own(own, b) == b;
  }

  lemma WithinPaint(own: Owners, b: int, n: int, v: int, limit: int)
    requires Within(own, limit) && 1 <= b && b + n <= limit
    ensures Within(Paint(own, b, n, v), limit)
  {
  }

  lemma InsertedKept(t: Table, S: set<int>, own: Owners, busy: map<int, int>, i: int, b: int, n: int, r: Table)
    requires Consistent(t, S, own, busy, 0) && In(i, S) && b in busy
    requires forall s {:trigger Sz(r, s)} :: Sz(r, s) == if s == b then n else Sz(t, s)
    requires forall s {:trigger Nx(r, s)} :: Nx(r, s) == if s == i then b else if s == b then Nx(t, i) else Nx(t, s)
    requires forall s {:trigger Pv(r, s)} :: Pv(r, s) == if s == Nx(t, i) then b else if s == b then i else Pv(t, s)
    ensures SameEntries(t, r, busy - {b})
  {
    hide Consistent;
    EntryFacts(t, S, own, busy, 0, i);
  }

  lemma MergeStep(t: Table, S: set<int>, own: Owners, busy: map<int, int>, b: int, i: int, r: Table)
    requires Consistent(t, S, own, busy, 0) && b in busy && 0 < i < b && In(i, S) && b == i + Sz(t, i)
    requires r == t[i := t[i].(w0 := Sz(t, i) + busy[b])]
    ensures Consistent(r, S, Paint(own, b, busy[b], 0), busy - {b}, b + busy[b])
    ensures SameEntries(t, r, busy - {b})
  {
    hide Linked, Clusters, Regions, Within;
    RegionBounds(own, busy, b, |t|);
    EntryFacts(t, S, own, busy, 0, i);
    assert forall s {:trigger Sz(r, s)} :: Sz(r, s) == if s == i then Sz(t, i) + busy[b] else Sz(t, s);
    assert forall s {:trigger Nx(r, s)} :: Nx(r, s) == Nx(t, s);
    assert forall s {:trigger Pv(r, s)} :: Pv(r, s) == Pv(t, s);
    RegionsDrop(own, busy, b);
    LinkedSameLinks(t, r, S);
    RegionNotFree(own, b, busy[b]);
    ClustersGrow(t, S, own, i, b, busy[b], r);
    WithinPaint(own, b, busy[b], 0, |t|);
  }

  lemma BelowNotFree(t: Table, S: set<int>, own: Owners, i: int, b: int)
    requires Linked(t, S) && Clusters(t, S, own, 0) && Within(own, |t|)
    requires In(i, S) && i < b && b != i + Sz(t, i) && !Free(own, b) && (Nx(t, i) == 0 || b < Nx(t, i))
    ensures !Free(own, b - 1)
  {
    CoveredBy(t, S, own, i, b - 1);
    CoveredBy(t, S, own, i, b);
  }

  lemma InsertStep(t: Table, S: set<int>, own: Owners, busy: map<int, int>, b: int, i: int, r: Table)
    requires Consistent(t, S, own, busy, 0) && b in busy && In(i, S) && i < b && b != i + Sz(t, i)
    requires Nx(t, i) == 0 || b < Nx(t, i)
    requires 1 <= b < |t| && 0 <= i < |t| && 0 <= Nx(t, i) < |t| && r == Inserted(t, i, b, busy[b])
    ensures Consistent(r, S + {b}, Paint(own, b, busy[b], 0), busy - {b}, b + busy[b])
    ensures SameEntries(t, r, busy - {b}) && Sz(r, b) == busy[b]
  {
    hide Linked, Clusters, Regions, Within, Inserted;
    var n := busy[b];
    RegionBounds(own, busy, b, |t|);
    EntryFacts(t, S, own, busy, 0, i);
    InsertedEntries(t, i, b, n);
    RegionsDrop(own, busy, b);
    LinkedInsert(t, S, i, b, n);
    RegionNotFree(own, b, n);
    BelowNotFree(t, S, own, i, b);
    ClustersInsert(t, S, own, b, n, r);
    WithinPaint(own, b, n, 0, |t|);
    InsertedKept(t, S, own, busy, i, b, n, r);
  }

  lemma AbsorbStep(t: Table, S: set<int>, own: Owners, busy: map<int, int>, c: int, x: int, t1: Table, r: Table)
    requires Consistent(t, S, own, busy, x) && In(c, S) && c != 0 && x == Nx(t, c) && x == c + Sz(t, c)
    requires 0 <= c < |t| && t1 == t[c := t[c].(w0 := Sz(t, c) + Sz(t, x))]
    requires 0 <= x < |t1| && 0 <= Nx(t1, x) < |t1| && 0 <= Pv(t1, x) < |t1| && r == Removed(t1, x)
    ensures Consistent(r, S - {x}, own, busy, 0) && SameEntries(t, r, busy)
  {
    BusyNotListed(t, S, own, busy, x);
    assert In(x, S) && Sz(t, c) >= 1;
    assert forall s {:trigger Sz(t1, s)} :: Sz(t1, s) == if s == c then Sz(t, c) + Sz(t, x) else Sz(t, s);
    assert forall s {:trigger Nx(t1, s)} :: Nx(t1, s) == Nx(t, s);
    assert forall s {:trigger Pv(t1, s)} :: Pv(t1, s) == Pv(t, s);
    RemovedEntries(t1, x, r);
    assert Linked(t1, S) by { LinkedSameLinks(t, t1, S); }
    LinkedRemove(t1, S, x);
    ClustersAbsorb(t, S, own, c, x, r);
  }

  lemma SealStep(t: Table, S: set<int>, own: Owners, busy: map<int, int>, c: int, x: int)
    requires Consistent(t, S, own, busy, x) && In(c, S) && c < x && x == c + Sz(t, c) && x != Nx(t, c)
    ensures Consistent(t, S, own, busy, 0)
  {
    if In(x, S) {
      assert false;
    }
    ClustersSeal(t, S, own, x);
  }

  lemma ReleaseStep(t: Table, S: set<int>, own: Owners, busy: map<int, int>, b: int, r: Table)
    requires Consistent(t, S, own, busy, 0) && In(b, S) && b != 0
    requires 0 <= b < |t| && 0 <= Nx(t, b) < |t| && 0 <= Pv(t, b) < |t| && r == Removed(t, b)
    ensures Consistent(r, S - {b}, Unpaint(own, b, Sz(t, b)), busy, 0) && SameEntries(t, r, busy)
  {
    var own' := Unpaint(own, b, Sz(t, b));
    BusyNotListed(t, S, own, busy, 0);
    RemovedEntries(t, b, r);
    LinkedRemove(t, S, b);
    ClustersRemove(t, S, own, b, own', r);
    assert forall j {:trigger Own(own', j)} :: Own(own', j) > 0 ==> Own(own', j) == Own(own, j);
    forall s, j {:trigger s in busy, Own(own', j)} | s in busy && s <= j < s + busy[s] ensures Own(own', j) == s {
      assert Own(own, j) == s;
    }
  }

  lemma RegionsAdd(own: Owners, busy: map<int, int>, b: int, n: int)
    requires Regions(own, busy) && b >= 1 && n >= 1
    requires forall j {:trigger Own(own, j)} :: b <= j < b + n ==> Own(own, j) <= 0
    ensures b !in busy
    ensures Regions(Paint(own, b, n, b), busy[b := n])
  {
    var own', busy' := Paint(own, b, n, b), busy[b := n];
    assert b in busy ==> Own(own, b) == b;
    forall s, j {:trigger s in busy', Own(own', j)} | s in busy' && s <= j < s + busy'[s] ensures Own(own', j) == s {
      if s != b { assert s in busy && Own(own, j) == s; }
    }
    forall j {:trigger Own(own', j)} | Own(own', j) > 0
      ensures Own(own', j) in busy' && Own(own', j) <= j < Own(own', j) + busy'[Own(own', j)]
    {
      if !(b <= j < b + n) { assert Own(own', j) == Own(own, j); }
    }
  }

  /** Writing the busy header over an entry that is no longer on the list. */
  lemma HeaderOffList(t: Table, S: set<int>, b: int, n: int, r: Table)
    requires Linked(t, S) && !In(b, S) && 0 <= b < |t| && r == t[b := t[b].(w0 := 0, w1 := n)]
    ensures Linked(r, S)
    ensures forall s {:trigger Sz(r, s)} :: s != b ==> Sz(r, s) == Sz(t, s)
    ensures forall s {:trigger Nx(r, s)} :: s != b ==> Nx(r, s) == Nx(t, s)
    ensures forall s {:trigger Pv(r, s)} :: Pv(r, s) == Pv(t, s)
  {
    LinkedSameLinks(t, r, S);
  }

  lemma TakeExactStep(t: Table, S: set<int>, own: Owners, busy: map<int, int>, b: int, n: int, t1: Table, r: Table)
    requires Consistent(t, S, own, busy, 0) && In(b, S) && b != 0 && n == Sz(t, b)
    requires 0 <= b < |t| && 0 <= Nx(t, b) < |t| && 0 <= Pv(t, b) < |t| && t1 == Removed(t, b)
    requires r == t1[b := t1[b].(w0 := 0, w1 := n)]
    ensures Consistent(r, S - {b}, Paint(own, b, n, b), busy[b := n], 0) && SameEntries(t, r, busy)
    ensures b !in busy
  {
    BusyNotListed(t, S, own, busy, 0);
    RemovedEntries(t, b, t1);
    assert forall j {:trigger Own(own, j)} :: b <= j < b + n ==> Own(own, j) == 0;
    assert n >= 1;
    LinkedRemove(t, S, b);
    HeaderOffList(t1, S - {b}, b, n, r);
    ClustersRemove(t, S, own, b, Paint(own, b, n, b), r);
    RegionsAdd(own, busy, b, n);
  }

  lemma TakeSplitStep(t: Table, S: set<int>, own: Owners, busy: map<int, int>, b: int, n: int, t1: Table, r: Table)
    requires Consistent(t, S, own, busy, 0) && In(b, S) && b != 0 && 1 <= n < Sz(t, b)
    requires 0 <= b < b + n < |t| && 0 <= Nx(t, b) < |t| && 0 <= Pv(t, b) < |t|
    requires t1 == Moved(t, b, b + n, Sz(t, b) - n) && r == t1[b := t1[b].(w0 := 0, w1 := n)]
    ensures Consistent(r, S - {b} + {b + n}, Paint(own, b, n, b), busy[b := n], 0) && SameEntries(t, r, busy)
    ensures b !in busy
  {
    var R := S - {b} + {b + n};
    assert !In(b, R) && b + n !in busy by { SplitFits(t, S, own, b, n); BusyNotListed(t, S, own, busy, 0); }
    assert forall j {:trigger Own(own, j)} :: b <= j < b + n ==> Own(own, j) == 0;
    TakeSplitLinks(t, S, own, b, n, t1, r);
    assert SameEntries(t, r, busy) by { BusyNotListed(t, S, own, busy, 0); }
    ClustersSplit(t, S, own, b, n, b, r);
    RegionsAdd(own, busy, b, n);
  }

  lemma SplitLinks(t: Table, S: set<int>, b: int, n: int)
    requires Linked(t, S) && In(b, S) && b != 0 && !In(b + n, S)
    ensures In(Nx(t, b), S) && In(Pv(t, b), S) && Nx(t, b) != b + n && Pv(t, b) != b + n && Nx(t, b) != b
      && Pv(t, b) != b
  {
    assert In(Nx(t, b), S) && In(Pv(t, b), S) && In(0, S);
  }

  lemma TakeSplitLinks(t: Table, S: set<int>, own: Owners, b: int, n: int, t1: Table, r: Table)
    requires Linked(t, S) && Clusters(t, S, own, 0) && In(b, S) && b != 0 && 1 <= n < Sz(t, b)
    requires 0 <= b < b + n < |t| && 0 <= Nx(t, b) < |t| && 0 <= Pv(t, b) < |t|
    requires t1 == Moved(t, b, b + n, Sz(t, b) - n) && r == t1[b := t1[b].(w0 := 0, w1 := n)]
    ensures Linked(r, S - {b} + {b + n})
    ensures forall s {:trigger Sz(r, s)} :: s != b ==> Sz(r, s) == if s == b + n then Sz(t, b) - n else Sz(t, s)
    ensures forall s {:trigger Nx(r, s)} :: !In(s, S) && s != b + n ==> Nx(r, s) == Nx(t, s)
    ensures forall s {:trigger Pv(r, s)} :: !In(s, S) && s != b + n ==> Pv(r, s) == Pv(t, s)
  {
    hide Linked, Clusters, Moved;
    SplitFits(t, S, own, b, n);
    SplitLinks(t, S, b, n);
    MovedEntries(t, b, b + n, Sz(t, b) - n, t1);
    LinkedMove(t, S, b, b + n, Sz(t, b) - n);
    HeaderOffList(t1, S - {b} + {b + n}, b, n, r);
  }

  /** A region new to the heap becomes busy. */
  lemma ClaimStep(t: Table, S: set<int>, own: Owners, busy: map<int, int>, b: int, n: int, r: Table)
    requires Consistent(t, S, own, busy, 0) && 1 <= b && n >= 1 && b + n <= |t|
    requires forall j {:trigger Own(own, j)} :: b <= j < b + n ==> Own(own, j) == -1
    requires r == t[b := t[b].(w0 := 0, w1 := n)]
    ensures Consistent(r, S, Paint(own, b, n, b), busy[b := n], 0) && SameEntries(t, r, busy)
    ensures b !in busy
  {
    BusyNotListed(t, S, own, busy, 0);
    assert Own(own, b) == -1;
    assert !In(b, S);
    assert forall s {:trigger Sz(r, s)} :: s != b ==> Sz(r, s) == Sz(t, s);
    assert forall s {:trigger Nx(r, s)} :: s != b ==> Nx(r, s) == Nx(t, s);
    assert forall s {:trigger Pv(r, s)} :: Pv(r, s) == Pv(t, s);
    assert Linked(r, S) by { LinkedSameLinks(t, r, S); }
    ClustersElsewhere(t, S, own, Paint(own, b, n, b), 0, r);
    RegionsAdd(own, busy, b, n);
  }

  lemma RegionsElsewhere(own: Owners, busy: map<int, int>, b: int, n: int)
    requires Regions(own, busy) && forall j {:trigger Own(own, j)} :: b <= j < b + n ==> Own(own, j) == -1
    ensures Regions(Paint(own, b, n, 0), busy)
  {
    var own' := Paint(own, b, n, 0);
    forall s, j {:trigger s in busy, Own(own', j)} | s in busy && s <= j < s + busy[s] ensures Own(own', j) == s {
      assert Own(own, j) == s;
    }
    assert forall j {:trigger Own(own', j)} :: Own(own', j) > 0 ==> Own(own', j) == Own(own, j);
  }

  /** The cluster at the end of the heap is extended by fresh blocks. */
  lemma ExtendStep(t: Table, S: set<int>, own: Owners, busy: map<int, int>, b: int, e: int, n: int, r: Table)
    requires Consistent(t, S, own, busy, 0) && In(b, S) && b != 0 && n >= 1 && e == b + Sz(t, b)
    requires 0 <= b < |t| && e + n <= |t|
    requires forall j {:trigger Own(own, j)} :: e <= j <= e + n ==> Own(own, j) == -1
    requires r == t[b := t[b].(w0 := Sz(t, b) + n)]
    ensures Consistent(r, S, Paint(own, e, n, 0), busy, 0) && SameEntries(t, r, busy)
  {
    hide Linked, Clusters, Regions, Paint;
    var own' := Paint(own, e, n, 0);
    EntryFacts(t, S, own, busy, 0, b);
    assert forall s {:trigger Sz(r, s)} :: Sz(r, s) == if s == b then Sz(t, b) + n else Sz(t, s);
    assert Linked(r, S) by { LinkedSameLinks(t, r, S); }
    Unlisted(t, S, own, e + n);
    ClustersGrow(t, S, own, b, e, n, r);
    ClustersSeal(r, S, own', e + n);
    RegionsElsewhere(own, busy, e, n);
    WithinPaint(own, e, n, 0, |t|);
  }

  lemma Unlisted(t: Table, S: set<int>, own: Owners, x: int)
    requires Clusters(t, S, own, 0) && Own(own, x) == -1 && x != 0
    ensures !In(x, S)
  {
  }

  /** Copying the table into a longer one. */
  lemma CopyStep(t: Table, S: set<int>, own: Owners, busy: map<int, int>, r: Table)
    requires Consistent(t, S, own, busy, 0) && |r| >= |t| && forall i :: 0 <= i < |t| ==> r[i] == t[i]
    ensures Consistent(r, S, own, busy, 0) && SameEntries(t, r, busy)
  {
    assert forall s {:trigger Sz(r, s)} :: 0 <= s < |t| ==> Sz(r, s) == Sz(t, s);
    assert forall s {:trigger Nx(r, s)} :: 0 <= s < |t| ==> Nx(r, s) == Nx(t, s);
    assert forall s {:trigger Pv(r, s)} :: 0 <= s < |t| ==> Pv(r, s) == Pv(t, s);
    assert Linked(r, S) by { LinkedSameLinks(t, r, S); }
    ClustersElsewhere(t, S, own, own, 0, r);
    forall s | s in busy ensures 1 <= s < |t| { RegionBounds(own, busy, s, |t|); }
  }

  lemma PaintTwice(own: Owners, b: int, n: int, v: int, w: int)
    ensures Paint(Paint(own, b, n, v), b, n, w) == Paint(own, b, n, w)
  {
    var x, y := Paint(Paint(own, b, n, v), b, n, w), Paint(own, b, n, w);
    assert forall j :: j in x <==> j in y;
    assert forall j :: j in x ==> Own(x, j) == Own(y, j);
  }

  /** The entry before 0 is the last cluster; when nothing is held from b on and [from, b) is free, it ends at b and
      reaches down to from. */
  lemma LastCluster(t: Table, S: set<int>, own: Owners, busy: map<int, int>, from: int, b: int)
    requires Consistent(t, S, own, busy, 0) && from < b
    requires forall j {:trigger Own(own, j)} :: from <= j < b ==> Own(own, j) == 0
    requires forall j {:trigger Own(own, j)} :: Own(own, j) != -1 ==> j < b
    ensures var x := Pv(t, 0); In(x, S) && 0 < x <= from && x < |t| && x + Sz(t, x) == b
  {
    var x := Pv(t, 0);
    assert In(0, S);
    assert In(x, S) && Nx(t, x) == 0;
    assert Own(own, b - 1) == 0 && Own(own, b) == -1;
    assert x != 0 ==> IsStart(own, x, 0) && Own(own, x) == 0;
    CoveredBy(t, S, own, x, b - 1);
    assert x <= from || Own(own, x - 1) == 0;
  }

  /** A cluster behind which nothing is held is the last one. */
  lemma EndsLast(t: Table, S: set<int>, own: Owners, busy: map<int, int>, c: int, e: int)
    requires Consistent(t, S, own, busy, 0) && In(c, S) && c > 0 && c + Sz(t, c) == e
    requires forall j {:trigger Own(own, j)} :: Own(own, j) != -1 ==> j < e
    ensures c == Pv(t, 0)
  {
    assert IsStart(own, c, 0) && Sz(t, c) >= 1;
    assert forall j {:trigger Own(own, j)} :: c <= j < e ==> Own(own, j) == 0;
    LastCluster(t, S, own, busy, c, e);
    var x := Pv(t, 0);
    assert x < c ==> Own(own, c - 1) == 0;
  }

  ghost predicate FreeRun(own: Owners, b: int, n: int) {
    forall j {:trigger Own(own, j)} :: b <= j < b + n ==> Own(own, j) == 0
  }

  /** No n consecutive blocks are free. */
  ghost predicate NoRoom(own: Owners, n: int) {
    forall b {:trigger FreeRun(own, b, n)} :: !FreeRun(own, b, n)
  }

  /** With fewer blocks free there is no more room. */
  lemma LessRoom(own: Owners, b: int, k: int, n: int)
    requires NoRoom(Paint(own, b, k, 0), n)
    ensures NoRoom(own, n)
  {
    forall c ensures !FreeRun(own, c, n) {
      assert FreeRun(own, c, n) ==> FreeRun(Paint(own, b, k, 0), c, n);
    }
  }

  lemma NoClusterFits(t: Table, S: set<int>, own: Owners, busy: map<int, int>, n: int)
    requires Consistent(t, S, own, busy, 0) && n >= 1
    requires forall s {:trigger In(s, S)} :: In(s, S) ==> Sz(t, s) < n
    ensures NoRoom(own, n)
  {
    forall b ensures !FreeRun(own, b, n) {
      if Own(own, b) == 0 {
        var s := StartOf(own, b);
        assert In(s, S) && !Free(own, s + Sz(t, s));
        assert Own(own, s + Sz(t, s)) != 0;
      }
    }
  }

  /** The n blocks from r changed hands, from free or new to busy; whatever else is new to the heap is free. */
  ghost predicate Allocated(own1: Owners, own2: Owners, r: int, n: int) {
    forall j {:trigger Own(own2, j)} ::
      if r <= j < r + n then Own(own2, j) == r && Own(own1, j) <= 0
      else Own(own2, j) == Own(own1, j) || (Own(own1, j) == -1 && Own(own2, j) == 0)
  }

  ghost predicate Widened(own1: Owners, own2: Owners) {
    forall j {:trigger Own(own2, j)} :: Own(own2, j) == Own(own1, j) || (Own(own1, j) == -1 && Own(own2, j) == 0)
  }

  lemma TakeFacts(t: Table, S: set<int>, own: Owners, busy: map<int, int>, b: int, n: int)
    requires Consistent(t, S, own, busy, 0) && In(b, S) && b != 0 && 1 <= n <= Sz(t, b)
    ensures 0 < b < b + n <= |t| && 0 <= Nx(t, b) < |t| && 0 <= Pv(t, b) < |t| && Nx(t, b) != b && Pv(t, b) != b
    ensures n < Sz(t, b) ==> b + n < |t| && Nx(t, b) != b + n && Pv(t, b) != b + n
    ensures FreeRun(own, b, n) && In(Nx(t, b), S - {b})
    ensures forall j {:trigger Own(own, j)} :: b <= j < b + n ==> Own(own, j) == 0
  {
    EntryFacts(t, S, own, busy, 0, b);
    LinkedRemove(t, S, b);
    if n < Sz(t, b) { SplitFits(t, S, own, b, n); }
  }

  /** The header of a busy region is cut in two. */
  lemma ShrinkStep(t: Table, S: set<int>, own: Owners, busy: map<int, int>, b: int, n: int, r: Table)
    requires Consistent(t, S, own, busy, 0) && b in busy && 1 <= n < busy[b] && 0 <= b < b + n < |t|
    requires r == t[b + n := t[b + n].(w0 := 0, w1 := busy[b] - n)][b := t[b].(w1 := n)]
    ensures Consistent(r, S, Paint(own, b + n, busy[b] - n, b + n), busy[b := n][b + n := busy[b] - n], 0)
    ensures SameEntries(t, r, busy - {b}) && b + n !in busy
    ensures Sz(r, b + n) == 0 && Nx(r, b + n) == busy[b] - n && Sz(r, b) == Sz(t, b) && Nx(r, b) == n
  {
    var own' := Paint(own, b + n, busy[b] - n, b + n);
    RegionFacts(t, S, own, busy, 0, b);
    assert Own(own, b + n) == b;
    assert !In(b + n, S) && b + n !in busy;
    assert forall s {:trigger Sz(r, s)} :: s != b && s != b + n ==> Sz(r, s) == Sz(t, s);
    assert forall s {:trigger Nx(r, s)} :: s != b && s != b + n ==> Nx(r, s) == Nx(t, s);
    assert forall s {:trigger Pv(r, s)} :: Pv(r, s) == Pv(t, s);
    assert Linked(r, S) by { LinkedSameLinks(t, r, S); }
    ClustersElsewhere(t, S, own, own', 0, r);
    RegionsShrink(own, busy, b, n);
  }

  lemma RegionsShrink(own: Owners, busy: map<int, int>, b: int, n: int)
    requires Regions(own, busy) && b in busy && 1 <= n < busy[b]
    ensures Regions(Paint(own, b + n, busy[b] - n, b + n), busy[b := n][b + n := busy[b] - n])
  {
    hide Paint, Own;
    var own', busy' := Paint(own, b + n, busy[b] - n, b + n), busy[b := n][b + n := busy[b] - n];
    forall s, j {:trigger s in busy', Own(own', j)} | s in busy' && s <= j < s + busy'[s] ensures Own(own', j) == s {
      ShrunkOwned(own, busy, b, n, s, j);
    }
    forall j {:trigger Own(own', j)} | Own(own', j) > 0
      ensures Own(own', j) in busy' && Own(own', j) <= j < Own(own', j) + busy'[Own(own', j)]
    {
      ShrunkOwner(own, busy, b, n, j);
    }
    PaintAtLeast(own, b + n, busy[b] - n, b + n);
    StartsAndSizes(own, busy);
  }

  lemma PaintAtLeast(own: Owners, b: int, n: int, v: int)
    requires v >= -1 && forall j {:trigger Own(own, j)} :: Own(own, j) >= -1
    ensures forall j {:trigger Own(Paint(own, b, n, v), j)} :: Own(Paint(own, b, n, v), j) >= -1
  {
  }

  lemma StartsAndSizes(own: Owners, busy: map<int, int>)
    requires Regions(own, busy)
    ensures forall s {:trigger s in busy} :: s in busy ==> s >= 1 && busy[s] >= 1
  {
  }

  lemma ShrunkOwned(own: Owners, busy: map<int, int>, b: int, n: int, s: int, j: int)
    requires Regions(own, busy) && b in busy && 1 <= n < busy[b]
    requires var busy' := busy[b := n][b + n := busy[b] - n]; s in busy' && s <= j < s + busy'[s]
    ensures Own(Paint(own, b + n, busy[b] - n, b + n), j) == s
  {
    assert Own(own, b + n) == b;
    if s != b + n { assert s in busy && Own(own, j) == s; }
  }

  lemma ShrunkOwner(own: Owners, busy: map<int, int>, b: int, n: int, j: int)
    requires Regions(own, busy) && b in busy && 1 <= n < busy[b]
    ensures var s, busy' := Own(Paint(own, b + n, busy[b] - n, b + n), j), busy[b := n][b + n := busy[b] - n];
      s > 0 ==> s in busy' && s <= j < s + busy'[s]
  {
    assert Own(own, b + n) == b;
    assert Own(own, j) == Own(own, j);
  }

  lemma TakeAllocated(own: Owners, own1: Owners, b: int, n: int)
    requires Widened(own, own1) && FreeRun(own1, b, n)
    ensures Allocated(own, Paint(own1, b, n, b), b, n)
    ensures Paint(own1, b, n, b).Keys == own1.Keys
    ensures forall j {:trigger Own(Paint(own1, b, n, b), j)} ::
      Own(Paint(own1, b, n, b), j) != -1 ==> Own(own1, j) != -1
  {
    var r := Paint(own1, b, n, b);
    forall j {:trigger Own(r, j)}
      ensures if b <= j < b + n then Own(r, j) == b && Own(own, j) <= 0
        else Own(r, j) == Own(own, j) || (Own(own, j) == -1 && Own(r, j) == 0)
    {
      assert Own(own1, j) == Own(own, j) || (Own(own, j) == -1 && Own(own1, j) == 0);
      if b <= j < b + n { assert Own(own1, j) == 0; }
    }
    forall j | j in r ensures j in own1 {
      if b <= j < b + n { assert Own(own1, j) == 0; }
    }
  }

  lemma ShrinkFrame(t: Table, r: Table, u: Table, busy: map<int, int>, b: int, n: int)
    requires b in busy && busy[b] == n && Sz(r, b) == 0 && Nx(r, b) == n
    requires SameEntries(t, r, busy - {b}) && SameEntries(r, u, busy)
    ensures SameEntries(t, u, busy - {b}) && Sz(u, b) == 0 && Nx(u, b) == n
  {
    assert forall s {:trigger Sz(u, s)} {:trigger Nx(u, s)} {:trigger Pv(u, s)} :: s in busy ==>
      Sz(u, s) == Sz(r, s) && Nx(u, s) == Nx(r, s) && Pv(u, s) == Pv(r, s);
  }

  lemma InitialTable(t: Table)
    requires |t| > 0 && t[0] == Info(0, 0, 0)
    ensures Consistent(t, {0}, map[], map[], 0)
  {
  }

  /** The entry of a busy block may be rewritten freely. */
  lemma HeaderStep(t: Table, S: set<int>, own: Owners, busy: map<int, int>, b: int, e: Info)
    requires Consistent(t, S, own, busy, 0) && b in busy && 0 <= b < |t|
    ensures Consistent(t[b := e], S, own, busy, 0)
  {
    var r := t[b := e];
    BusyNotListed(t, S, own, busy, 0);
    assert forall s {:trigger Sz(r, s)} :: s != b ==> Sz(r, s) == Sz(t, s);
    assert forall s {:trigger Nx(r, s)} :: s != b ==> Nx(r, s) == Nx(t, s);
    assert forall s {:trigger Pv(r, s)} :: s != b ==> Pv(r, s) == Pv(t, s);
    assert !In(b, S);
    LinkedSameLinks(t, r, S);
    ClustersElsewhere(t, S, own, own, 0, r);
  }

  lemma RegionsOf(t: Table, S: set<int>, own: Owners, busy: map<int, int>, seam: int)
    requires Consistent(t, S, own, busy, seam)
    ensures Regions(own, busy)
  {
  }

  /** Freeing [b, b + n) and handing it out again. */
  lemma PaintBack(own: Owners, b: int, n: int)
    requires forall j {:trigger Own(own, j)} :: b <= j < b + n ==> Own(own, j) == b
    requires b >= 0
    ensures Paint(Paint(own, b, n, 0), b, n, b) == own
  {
    var x := Paint(Paint(own, b, n, 0), b, n, b);
    forall j ensures j in x <==> j in own { if b <= j < b + n { assert Own(own, j) == b; } }
    forall j | j in x ensures x[j] == own[j] { assert Own(x, j) == Own(own, j); }
  }

  /** The same when the blocks [c, b) below had to be handed out first and were freed last. */
  lemma PaintAround(own: Owners, c: int, b: int, n: int)
    requires forall j {:trigger Own(own, j)} :: b <= j < b + n ==> Own(own, j) == b
    requires forall j {:trigger Own(own, j)} :: c <= j < b ==> Own(own, j) == 0
    requires 0 < c < b
    ensures Paint(Paint(Paint(Paint(own, b, n, 0), c, b - c, c), b, n, b), c, b - c, 0) == own
  {
    var x1 := Paint(Paint(own, b, n, 0), c, b - c, c);
    var x2 := Paint(x1, b, n, b);
    var x := Paint(x2, c, b - c, 0);
    forall j ensures j in x <==> j in own {
      if c <= j < b { assert Own(own, j) == 0; }
      if b <= j < b + n { assert Own(own, j) == b; }
    }
    forall j | j in x ensures x[j] == own[j] { assert Own(x, j) == Own(own, j); }
  }

  lemma SameEntriesFewer(t: Table, r: Table, busy: map<int, int>, busy': map<int, int>)
    requires SameEntries(t, r, busy) && forall s {:trigger s in busy'} :: s in busy' ==> s in busy
    ensures SameEntries(t, r, busy')
  {
  }

  /** The free blocks around a region that was just freed were free before. */
  lemma PaintUnder(own: Owners, b: int, n: int, c: int, e: int)
    requires forall j {:trigger Own(Paint(own, b, n, 0), j)} :: c <= j < e ==> Own(Paint(own, b, n, 0), j) == 0
    requires c <= b <= e
    ensures forall j {:trigger Own(own, j)} :: c <= j < b ==> Own(own, j) == 0
  {
    forall j {:trigger Own(own, j)} | c <= j < b ensures Own(own, j) == 0 {
      assert Own(Paint(own, b, n, 0), j) == 0;
    }
  }

  // ----- the list is determined by the painting, and is one circle -----

  lemma SameStarts(t: Table, S: set<int>, t': Table, S': set<int>, own: Owners)
    requires Clusters(t, S, own, 0) && Clusters(t', S', own, 0) && In(0, S) && In(0, S')
    ensures S == S'
  {
    forall s ensures s in S <==> s in S' {
      assert In(s, S) ==> s == 0 || IsStart(own, s, 0);
      assert In(s, S') ==> s == 0 || IsStart(own, s, 0);
    }
  }

  lemma SameExtent(t: Table, t': Table, S: set<int>, own: Owners, s: int)
    requires Clusters(t, S, own, 0) && Clusters(t', S, own, 0) && In(s, S)
    ensures Sz(t', s) == Sz(t, s)
  {
    if s != 0 {
      assert Sz(t, s) < Sz(t', s) ==> Own(own, s + Sz(t, s)) == 0;
      assert Sz(t', s) < Sz(t, s) ==> Own(own, s + Sz(t', s)) == 0;
    }
  }

  /** The painting alone fixes the free list: its entries, their sizes and their links. */
  lemma CanonicalList(t: Table, S: set<int>, t': Table, S': set<int>, own: Owners)
    requires Linked(t, S) && Clusters(t, S, own, 0) && Linked(t', S') && Clusters(t', S', own, 0)
    ensures S == S'
    ensures forall s {:trigger In(s, S)} ::
      In(s, S) ==> Sz(t', s) == Sz(t, s) && Nx(t', s) == Nx(t, s) && Pv(t', s) == Pv(t, s)
  {
    hide Clusters, Linked;
    ListZero(t, S);
    ListZero(t', S');
    SameStarts(t, S, t', S', own);
    SameLinks(t, t', S);
    forall s {:trigger In(s, S)} | In(s, S) ensures Sz(t', s) == Sz(t, s) {
      SameExtent(t, t', S, own, s);
    }
  }

  lemma ListZero(t: Table, S: set<int>)
    requires Linked(t, S)
    ensures In(0, S)
  {
  }

  lemma SameLinks(t: Table, t': Table, S: set<int>)
    requires Linked(t, S) && Linked(t', S)
    ensures forall s {:trigger In(s, S)} :: In(s, S) ==> Nx(t', s) == Nx(t, s) && Pv(t', s) == Pv(t, s)
  {
    hide Linked;
    forall s {:trigger In(s, S)} | In(s, S) ensures Nx(t', s) == Nx(t, s) && Pv(t', s) == Pv(t, s) {
      SameSuccessor(t, t', S, s);
      Inverse(t, S, s);
      SameSuccessor(t, t', S, Pv(t, s));
      Inverse(t', S, Pv(t, s));
    }
  }

  lemma Inverse(t: Table, S: set<int>, s: int)
    requires Linked(t, S) && In(s, S)
    ensures In(Pv(t, s), S) && Nx(t, Pv(t, s)) == s && In(Nx(t, s), S) && Pv(t, Nx(t, s)) == s
  {
    assert In(Pv(t, s), S);
  }

  lemma SameSuccessor(t: Table, t': Table, S: set<int>, s: int)
    requires Linked(t, S) && Linked(t', S) && In(s, S)
    ensures Nx(t, s) == Nx(t', s)
  {
    assert In(Nx(t, s), S) && In(Nx(t', s), S);
  }

  /** Where k steps of next from entry 0 lead. */
  function Hop(t: Table, k: nat): int { if k == 0 then 0 else Nx(t, Hop(t, k - 1)) }

  ghost function UpTo(S: set<int>, s: int): set<int> { set x | x in S && x <= s }

  lemma UpToNext(t: Table, S: set<int>, s: int)
    requires Linked(t, S) && In(s, S)
    ensures Nx(t, s) != 0 ==> UpTo(S, Nx(t, s)) == UpTo(S, s) + {Nx(t, s)} && Nx(t, s) !in UpTo(S, s) && In(Nx(t, s), S)
    ensures Nx(t, s) == 0 ==> UpTo(S, s) == S
  {
    assert In(Nx(t, s), S);
    forall x | x in S ensures x <= s || (Nx(t, s) != 0 && Nx(t, s) <= x) {
      assert In(x, S);
    }
  }

  lemma {:induction false} HopRank(t: Table, S: set<int>, k: nat)
    requires Linked(t, S) && k < |S|
    ensures In(Hop(t, k), S) && |UpTo(S, Hop(t, k))| == k + 1
    ensures k > 0 ==> Hop(t, k - 1) < Hop(t, k)
  {
    if k == 0 {
      assert In(0, S);
      forall x | x in UpTo(S, 0) ensures x == 0 { assert In(x, S); }
      assert UpTo(S, 0) == {0};
    } else {
      HopRank(t, S, k - 1);
      UpToNext(t, S, Hop(t, k - 1));
    }
  }

  lemma SameSize(A: set<int>, B: set<int>)
    requires A <= B && |A| == |B|
    ensures A == B
  {
    assert B == A + (B - A);
  }

  /** Step k leads to an entry above the one before. */
  ghost predicate Ascends(t: Table, S: set<int>, k: nat) { In(Hop(t, k), S) && (k > 0 ==> Hop(t, k - 1) < Hop(t, k)) }

  ghost predicate Visited(t: Table, n: nat, s: int) { exists k: nat :: k < n && Hop(t, k) == s }

  /** Following next from entry 0 visits every entry once, in ascending order, and returns to 0 after |S| steps. */
  lemma OneCircle(t: Table, S: set<int>)
    requires Linked(t, S)
    ensures forall k: nat {:trigger Ascends(t, S, k)} :: k < |S| ==> Ascends(t, S, k)
    ensures Hop(t, |S|) == 0
    ensures forall s {:trigger In(s, S)} :: In(s, S) ==> Visited(t, |S|, s)
  {
    hide Linked;
    forall k: nat {:trigger Ascends(t, S, k)} | k < |S| ensures Ascends(t, S, k) {
      HopRank(t, S, k);
    }
    LastHop(t, S);
    forall s {:trigger In(s, S)} | In(s, S) ensures Visited(t, |S|, s) {
      var k := RankOf(t, S, s);
    }
  }

  lemma LastHop(t: Table, S: set<int>)
    requires Linked(t, S)
    ensures |S| >= 1 && Hop(t, |S|) == 0
  {
    assert In(0, S) && 0 in S;
    var last := |S| - 1;
    HopRank(t, S, last);
    SameSize(UpTo(S, Hop(t, last)), S);
    UpToNext(t, S, Hop(t, last));
    assert Hop(t, |S|) == Nx(t, Hop(t, last));
    assert In(Nx(t, Hop(t, last)), S);
  }

  lemma RankOf(t: Table, S: set<int>, s: int) returns (k: nat)
    requires Linked(t, S) && In(s, S)
    ensures k < |S| && Hop(t, k) == s
  {
    hide Linked;
    assert s in UpTo(S, s) && UpTo(S, s) <= S;
    SubsetSize(UpTo(S, s), S);
    k := |UpTo(S, s)| - 1;
    HopRank(t, S, k);
    var h := Hop(t, k);
    if h <= s { SameSize(UpTo(S, h), UpTo(S, s)); } else { SameSize(UpTo(S, s), UpTo(S, h)); }
    assert s in UpTo(S, h) && h in UpTo(S, s);
  }

  // ----- every block has one home -----

  ghost predicate InCluster(t: Table, S: set<int>, s: int, b: int) { In(s, S) && s != 0 && s <= b < s + Sz(t, s) }

  ghost predicate InRegion(busy: map<int, int>, s: int, b: int) { s in busy && s <= b < s + busy[s] }

  /** Every block the heap holds lies in exactly one free cluster or in exactly one region, never in both. */
  lemma OneHome(t: Table, S: set<int>, own: Owners, busy: map<int, int>, b: int)
    requires Consistent(t, S, own, busy, 0)
    ensures Own(own, b) == 0 <==> exists s :: InCluster(t, S, s, b)
    ensures Own(own, b) > 0 <==> exists s :: InRegion(busy, s, b)
    ensures forall s, x :: InCluster(t, S, s, b) && InCluster(t, S, x, b) ==> s == x
    ensures forall s, x :: InRegion(busy, s, b) && InRegion(busy, x, b) ==> s == x
    ensures forall s, x :: !(InCluster(t, S, s, b) && InRegion(busy, x, b))
  {
    if Own(own, b) == 0 {
      var s := StartOf(own, b);
      assert In(s, S);
      assert s + Sz(t, s) <= b ==> Own(own, s + Sz(t, s)) == 0;
      assert InCluster(t, S, s, b);
    }
    if Own(own, b) > 0 { assert InRegion(busy, Own(own, b), b); }
    forall s, x | InCluster(t, S, s, b) && InCluster(t, S, x, b) ensures s == x {
      ClusterStarts(t, S, own, s, x, b);
      ClusterStarts(t, S, own, x, s, b);
    }
  }

  lemma ClusterStarts(t: Table, S: set<int>, own: Owners, s: int, x: int, b: int)
    requires Clusters(t, S, own, 0) && InCluster(t, S, s, b) && InCluster(t, S, x, b)
    ensures s >= x
  {
    assert IsStart(own, x, 0) && IsStart(own, s, 0);
    assert s < x ==> Own(own, x - 1) == 0;
  }

  /** No cluster ends where another begins. */
  lemma Coalesced(t: Table, S: set<int>, own: Owners, busy: map<int, int>, s: int, x: int)
    requires Consistent(t, S, own, busy, 0) && In(s, S) && In(x, S) && s != 0 && x != 0
    ensures s + Sz(t, s) != x
  {
    assert IsStart(own, x, 0);
    assert !Free(own, s + Sz(t, s));
  }
}
