/** The fragment half of the allocator as a relation between the info table, the regions in use, the fragment lists and
    the bytes of memory: which pointers a program holds, how much room they have, and what a call does to them. */
module HeapStates {
  import opened Arithmetic
  import opened Lists
  import opened FreeList
  import opened Blocks
  import opened Chains
  import opened Fragments

  /** Free fragments by type, each list in the order of its links. */
  type FragLists = seq<seq<int>>

  ghost predicate ElemOk(t: Table, busy: map<int, int>, l: int, p: int) {
    p >= 0 && BlockOf(p) in busy && Sz(t, BlockOf(p)) == l && Offset(p) % Pow2(l) == 0
  }

  ghost predicate ListOk(t: Table, busy: map<int, int>, L: seq<int>, l: int) {
    Distinct(L) && forall i {:trigger L[i]} :: 0 <= i < |L| ==> ElemOk(t, busy, l, L[i])
  }

  ghost predicate LargeBlock(t: Table, busy: map<int, int>, b: int)
    requires b in busy
  { Sz(t, b) == 0 && Nx(t, b) == busy[b] }

  /** The free fragments of b are one run of its type's list, of length nfree, beginning at fragment first. */
  ghost predicate FragBlock(t: Table, busy: map<int, int>, Ls: FragLists, b: int)
    requires |Ls| == BLOCKLOG && b in busy
  {
    FragType(Sz(t, b)) && busy[b] == 1 && HasRun(Ls[Sz(t, b)], b, Nx(t, b), 4096 * b + Pv(t, b) * Pow2(Sz(t, b)))
  }

  ghost predicate BlockOk(t: Table, busy: map<int, int>, Ls: FragLists, b: int)
    requires |Ls| == BLOCKLOG
  { b in busy ==> b >= 1 && (LargeBlock(t, busy, b) || FragBlock(t, busy, Ls, b)) }

  ghost predicate Frags(t: Table, busy: map<int, int>, Ls: FragLists) {
    && |Ls| == BLOCKLOG
    && (forall b {:trigger BlockOk(t, busy, Ls, b)} :: BlockOk(t, busy, Ls, b))
    && (forall l {:trigger Ls[l]} :: FragType(l) ==> ListOk(t, busy, Ls[l], l))
  }

  /** p is a pointer the program still holds. */
  ghost predicate Live(t: Table, busy: map<int, int>, Ls: FragLists, p: int) {
    && |Ls| == BLOCKLOG && p >= 0 && BlockOf(p) in busy
    && var l := Sz(t, BlockOf(p));
       if FragType(l) then Offset(p) % Pow2(l) == 0 && p !in Ls[l] else Offset(p) == 0
  }

  ghost function Capacity(t: Table, busy: map<int, int>, p: int): int {
    if BlockOf(p) !in busy then 0
    else if Sz(t, BlockOf(p)) == 0 then 4096 * busy[BlockOf(p)] else Pow2(Sz(t, BlockOf(p)))
  }

  /** Two tables that differ at most in entry b. */
  ghost predicate SameBut(t: Table, r: Table, b: int) {
    && (forall s {:trigger Sz(r, s)} :: s != b ==> Sz(r, s) == Sz(t, s))
    && (forall s {:trigger Nx(r, s)} :: s != b ==> Nx(r, s) == Nx(t, s))
    && (forall s {:trigger Pv(r, s)} :: s != b ==> Pv(r, s) == Pv(t, s))
  }

  ghost predicate RunsKept(L: seq<int>, L': seq<int>, b: int) {
    forall c, n, f {:trigger HasRun(L', c, n, f)} :: c != b && HasRun(L, c, n, f) ==> HasRun(L', c, n, f)
  }

  lemma OneBlock(t: Table, busy: map<int, int>, Ls: FragLists, b: int, l: int, r: Table, L': seq<int>)
    requires Frags(t, busy, Ls) && FragType(l) && b in busy && (Sz(t, b) == 0 || Sz(t, b) == l) && SameBut(t, r, b)
    requires ListOk(r, busy, L', l) && RunsKept(Ls[l], L', b)
    requires BlockOk(r, busy, Ls[l := L'], b)
    ensures Frags(r, busy, Ls[l := L'])
  {
    hide HasRun, Distinct;
    var Ms := Ls[l := L'];
    forall c ensures BlockOk(r, busy, Ms, c) {
      assert BlockOk(t, busy, Ls, c);
    }
    forall k {:trigger Ms[k]} | FragType(k) ensures ListOk(r, busy, Ms[k], k) {
      if k != l {
        assert ListOk(t, busy, Ls[k], k) && Ms[k] == Ls[k];
        forall i {:trigger Ms[k][i]} | 0 <= i < |Ms[k]| ensures ElemOk(r, busy, k, Ms[k][i]) {
          assert ElemOk(t, busy, k, Ls[k][i]);
        }
      }
    }
  }

  // ----- list membership -----

  lemma CutDistinct(L: seq<int>, s: nat, n: nat)
    requires Distinct(L) && s + n <= |L|
    ensures Distinct(Cut(L, s, n))
    ensures forall q {:trigger q in Cut(L, s, n)} :: q in Cut(L, s, n) <==> q in L && q !in L[s..s + n]
  {
    var C := Cut(L, s, n);
    assert forall i {:trigger C[i]} :: 0 <= i < |C| ==> C[i] == L[if i < s then i else i + n];
    forall q ensures q in C <==> q in L && q !in L[s..s + n] {
      if q in L && q !in L[s..s + n] {
        var i :| 0 <= i < |L| && L[i] == q;
        assert C[if i < s then i else i - n] == q;
      }
    }
  }

  /** K is L with p put in behind the element f. */
  ghost predicate PutBehind(L: seq<int>, K: seq<int>, f: int, p: int) {
    exists s: nat {:trigger L[s]} :: s < |L| && L[s] == f && K == Put(L, s + 1, p)
  }

  /** K is L without the n elements of block b, which were consecutive. */
  ghost predicate RunCutOut(L: seq<int>, K: seq<int>, b: int, n: int) {
    exists s {:trigger RunAt(L, b, s, n)} :: RunAt(L, b, s, n) && K == Cut(L, s, n)
  }

  lemma PutDistinct(L: seq<int>, s: nat, p: int)
    requires Distinct(L) && s <= |L| && p !in L
    ensures Distinct(Put(L, s, p))
    ensures forall q {:trigger q in Put(L, s, p)} :: q in Put(L, s, p) <==> q in L || q == p
  {
    var C := Put(L, s, p);
    assert forall i {:trigger C[i]} :: 0 <= i < |C| ==> C[i] == if i == s then p else L[if i < s then i else i - 1];
    forall q ensures q in C <==> q in L || q == p {
      if q in L {
        var i :| 0 <= i < |L| && L[i] == q;
        assert C[if i < s then i else i + 1] == q;
      }
      assert C[s] == p;
    }
  }

  lemma ListOkMembers(t: Table, busy: map<int, int>, l: int, L: seq<int>, r: Table, L': seq<int>)
    requires ListOk(t, busy, L, l) && Distinct(L')
    requires forall s {:trigger Sz(r, s)} :: Sz(r, s) == Sz(t, s)
    requires forall q {:trigger q in L'} :: q in L' ==> q in L || ElemOk(r, busy, l, q)
    ensures ListOk(r, busy, L', l)
  {
    forall i {:trigger L'[i]} | 0 <= i < |L'| ensures ElemOk(r, busy, l, L'[i]) {
      var q := L'[i];
      assert q in L';
      if q in L {
        var j :| 0 <= j < |L| && L[j] == q;
        assert ElemOk(t, busy, l, L[j]);
      }
    }
  }

  lemma RunZero(L: seq<int>, b: int, f: int, g: int)
    requires HasRun(L, b, 0, f)
    ensures HasRun(L, b, 0, g)
  {
    var s :| RunAt(L, b, s, 0) && true;
    assert RunAt(L, b, s, 0);
  }

  /** Liveness when one list changed and every block kept its type. */
  lemma LiveFollows(t: Table, busy: map<int, int>, Ls: FragLists, l: int, r: Table, L': seq<int>)
    requires |Ls| == BLOCKLOG && FragType(l) && forall s {:trigger Sz(r, s)} :: Sz(r, s) == Sz(t, s)
    ensures forall q {:trigger Live(r, busy, Ls[l := L'], q)} ::
      Live(r, busy, Ls[l := L'], q) <==> if BlockOf(q) in busy && Sz(t, BlockOf(q)) == l
        then q >= 0 && Offset(q) % Pow2(l) == 0 && q !in L' else Live(t, busy, Ls, q)
    ensures forall q {:trigger Capacity(r, busy, q)} :: Capacity(r, busy, q) == Capacity(t, busy, q)
  {
  }

  // ----- the five things that happen to fragments -----

  lemma FirstInRun(t: Table, busy: map<int, int>, Ls: FragLists, l: int)
    requires Frags(t, busy, Ls) && FragType(l) && Ls[l] != []
    ensures var b := BlockOf(Ls[l][0]);
      ElemOk(t, busy, l, Ls[l][0]) && b in busy && b >= 1 && Nx(t, b) >= 1 && RunAt(Ls[l], b, 0, Nx(t, b))
  {
    var L := Ls[l];
    assert ListOk(t, busy, L, l);
    var b := BlockOf(L[0]);
    assert ElemOk(t, busy, l, L[0]);
    assert BlockOk(t, busy, Ls, b);
    var s :| RunAt(L, b, s, Nx(t, b)) && (Nx(t, b) > 0 ==> L[s] == 4096 * b + Pv(t, b) * Pow2(l));
    assert s <= 0 < s + Nx(t, b);
  }

  /** The first free fragment is handed out. */
  lemma PopStep(t: Table, busy: map<int, int>, Ls: FragLists, l: int, b: int, r: Table)
    requires Frags(t, busy, Ls) && FragType(l) && Ls[l] != [] && b == BlockOf(Ls[l][0]) && 0 <= b < |t|
    requires Nx(t, b) > 1 ==> |Ls[l]| > 1
    requires r == t[b := t[b].(w1 := Nx(t, b) - 1, w2 := if Nx(t, b) > 1 then Offset(Ls[l][1]) / Pow2(l) else Pv(t, b))]
    ensures Frags(r, busy, Ls[l := Cut(Ls[l], 0, 1)])
    ensures SameBut(t, r, b) && Sz(r, b) == Sz(t, b)
  {
    hide HasRun, Cut, Distinct, Pow2, Offset, BlockOf;
    var L, C := Ls[l], Cut(Ls[l], 0, 1);
    FirstInRun(t, busy, Ls, l);
    var n := Nx(t, b);
    assert ListOk(t, busy, L, l);
    CutDistinct(L, 0, 1);
    assert forall s {:trigger Sz(r, s)} :: Sz(r, s) == Sz(t, s);
    ListOkMembers(t, busy, l, L, r, C);
    PopRuns(L, b);
    assert HasRun(C, b, n - 1, 4096 * b + Pv(r, b) * Pow2(l)) by { PopRun(t, busy, L, l, b, n, Pv(r, b)); }
    assert busy[b] == 1 by { assert BlockOk(t, busy, Ls, b); }
    assert BlockOk(r, busy, Ls[l := C], b);
    OneBlock(t, busy, Ls, b, l, r, C);
  }

  lemma PopRuns(L: seq<int>, b: int)
    requires L != [] && BlockOf(L[0]) == b
    ensures RunsKept(L, Cut(L, 0, 1), b)
  {
    forall c, n, f {:trigger HasRun(Cut(L, 0, 1), c, n, f)} | c != b && HasRun(L, c, n, f)
      ensures HasRun(Cut(L, 0, 1), c, n, f)
    {
      RunCutOther(L, 0, 1, b, c, n, f);
    }
  }

  lemma PopRun(t: Table, busy: map<int, int>, L: seq<int>, l: int, b: int, n: int, first: int)
    requires FragType(l) && ListOk(t, busy, L, l) && RunAt(L, b, 0, n) && n >= 1 && L != []
      && (n > 1 ==> |L| > 1 && first == Offset(L[1]) / Pow2(l))
    ensures HasRun(Cut(L, 0, 1), b, n - 1, 4096 * b + first * Pow2(l))
  {
    RunCutFirst(L, b, n);
    if n > 1 {
      assert ElemOk(t, busy, l, L[1]) && BlockOf(L[1]) == b;
      FragIndex(L[1], l);
    } else {
      RunZero(Cut(L, 0, 1), b, 0, 4096 * b + first * Pow2(l));
    }
  }

  /** A fragment joins the run of its block, right behind the run's first. */
  lemma JoinStep(t: Table, busy: map<int, int>, Ls: FragLists, l: int, b: int, s: nat, p: int, r: Table)
    requires Frags(t, busy, Ls) && FragType(l) && b in busy && Sz(t, b) == l && 0 <= b < |t|
    requires RunAt(Ls[l], b, s, Nx(t, b)) && Nx(t, b) >= 1 && Ls[l][s] == 4096 * b + Pv(t, b) * Pow2(l)
    requires BlockOf(p) == b && ElemOk(t, busy, l, p) && p !in Ls[l]
    requires r == t[b := t[b].(w1 := Nx(t, b) + 1)]
    ensures Frags(r, busy, Ls[l := Put(Ls[l], s + 1, p)])
    ensures SameBut(t, r, b) && Sz(r, b) == l
  {
    hide HasRun, Put, Distinct, Pow2, Offset, BlockOf;
    var L, C := Ls[l], Put(Ls[l], s + 1, p);
    var n := Nx(t, b);
    assert ListOk(t, busy, L, l);
    PutDistinct(L, s + 1, p);
    assert forall s {:trigger Sz(r, s)} :: Sz(r, s) == Sz(t, s);
    assert ElemOk(r, busy, l, p);
    ListOkMembers(t, busy, l, L, r, C);
    PutRuns(L, s + 1, p, b);
    RunPutSecond(L, s, p, b, n);
    assert busy[b] == 1 && b >= 1 by { assert BlockOk(t, busy, Ls, b); }
    assert BlockOk(r, busy, Ls[l := C], b);
    OneBlock(t, busy, Ls, b, l, r, C);
  }

  lemma PutRuns(L: seq<int>, s: nat, p: int, b: int)
    requires s <= |L| && BlockOf(p) == b && (s == 0 || BlockOf(L[s - 1]) == b)
    ensures RunsKept(L, Put(L, s, p), b)
  {
    forall c, n, f {:trigger HasRun(Put(L, s, p), c, n, f)} | c != b && HasRun(L, c, n, f)
      ensures HasRun(Put(L, s, p), c, n, f)
    {
      RunPutOther(L, s, p, b, c, n, f);
    }
  }

  /** The first fragment of its block to be freed starts a run at the front of the list. */
  lemma OpenStep(t: Table, busy: map<int, int>, Ls: FragLists, l: int, b: int, p: int, r: Table)
    requires Frags(t, busy, Ls) && FragType(l) && b in busy && Sz(t, b) == l && 0 <= b < |t| && Nx(t, b) == 0
    requires BlockOf(p) == b && ElemOk(t, busy, l, p) && p !in Ls[l]
    requires r == t[b := t[b].(w1 := 1, w2 := Offset(p) / Pow2(l))]
    ensures Frags(r, busy, Ls[l := Put(Ls[l], 0, p)])
    ensures SameBut(t, r, b) && Sz(r, b) == l
  {
    hide HasRun, Put, Distinct, Pow2, Offset, BlockOf;
    var L, C := Ls[l], Put(Ls[l], 0, p);
    assert ListOk(t, busy, L, l);
    PutDistinct(L, 0, p);
    assert forall s {:trigger Sz(r, s)} :: Sz(r, s) == Sz(t, s);
    assert ElemOk(r, busy, l, p);
    ListOkMembers(t, busy, l, L, r, C);
    PutRuns(L, 0, p, b);
    assert busy[b] == 1 && b >= 1 && HasRun(L, b, 0, 4096 * b + Pv(t, b) * Pow2(l)) by {
      assert BlockOk(t, busy, Ls, b);
    }
    RunZero(L, b, 4096 * b + Pv(t, b) * Pow2(l), 0);
    RunPutFront(L, p, b);
    FragIndex(p, l);
    assert BlockOk(r, busy, Ls[l := C], b);
    OneBlock(t, busy, Ls, b, l, r, C);
  }

  /** A block all of whose fragments are free becomes a large block again. */
  lemma ReclaimStep(t: Table, busy: map<int, int>, Ls: FragLists, l: int, b: int, s: nat, r: Table)
    requires Frags(t, busy, Ls) && FragType(l) && b in busy && Sz(t, b) == l && 0 <= b < |t|
    requires RunAt(Ls[l], b, s, Nx(t, b))
    requires r == t[b := t[b].(w0 := 0, w1 := 1)]
    ensures Frags(r, busy, Ls[l := Cut(Ls[l], s, Nx(t, b))])
    ensures SameBut(t, r, b)
  {
    hide HasRun, Cut, Distinct, Pow2, Offset, BlockOf;
    var n := Nx(t, b);
    var L, C := Ls[l], Cut(Ls[l], s, n);
    assert ListOk(t, busy, L, l);
    CutDistinct(L, s, n);
    RunCutAll(L, s, b, n);
    forall i {:trigger C[i]} | 0 <= i < |C| ensures ElemOk(r, busy, l, C[i]) {
      assert C[i] in C;
      assert C[i] in L;
      var j :| 0 <= j < |L| && L[j] == C[i];
      assert ElemOk(t, busy, l, L[j]);
    }
    forall c, k, f {:trigger HasRun(C, c, k, f)} | c != b && HasRun(L, c, k, f) ensures HasRun(C, c, k, f) {
      RunCutOther(L, s, n, b, c, k, f);
    }
    assert busy[b] == 1 && b >= 1 by { assert BlockOk(t, busy, Ls, b); }
    assert BlockOk(r, busy, Ls[l := C], b);
    OneBlock(t, busy, Ls, b, l, r, C);
  }

  /** Fragments k, k - 1, ..., 1 of block b. */
  ghost function FreshRun(b: int, l: int, k: int): (r: seq<int>)
    ensures |r| == if k > 0 then k else 0
    decreases k
  { if k <= 0 then [] else [4096 * b + k * Pow2(l)] + FreshRun(b, l, k - 1) }

  lemma {:induction false} FreshRunAt(b: int, l: int, k: int)
    requires b >= 0 && FragType(l) && 0 <= k < Count(l)
    ensures forall i {:trigger FreshRun(b, l, k)[i]} ::
      0 <= i < k ==> FreshRun(b, l, k)[i] == 4096 * b + (k - i) * Pow2(l)
    decreases k
  {
    if k > 0 {
      FreshRunAt(b, l, k - 1);
      var R, Q := FreshRun(b, l, k), FreshRun(b, l, k - 1);
      forall i {:trigger R[i]} | 0 <= i < k ensures R[i] == 4096 * b + (k - i) * Pow2(l) {
        if i > 0 { assert R[i] == Q[i - 1]; }
      }
    }
  }

  lemma FreshFragment(b: int, l: int, j: int)
    requires b >= 0 && FragType(l) && 1 <= j < Count(l)
    ensures var p := 4096 * b + j * Pow2(l);
      (BlockOf(p) == b && p >= 0 && Offset(p) % Pow2(l) == 0 && Offset(p) == j * Pow2(l) > 0
        && Offset(p) / Pow2(l) == j)
  {
    hide Pow2, Count, BlockOf, Offset;
    SizeFacts(l);
    StepApart(0, j, Pow2(l));
    FragAddress(b, l, j);
  }

  lemma FreshRunOk(b: int, l: int, k: int)
    requires b >= 0 && FragType(l) && 0 <= k < Count(l)
    ensures var R := FreshRun(b, l, k);
      (Distinct(R) && forall i {:trigger R[i]} :: 0 <= i < k ==>
        BlockOf(R[i]) == b && R[i] >= 0 && Offset(R[i]) % Pow2(l) == 0 && Offset(R[i]) > 0)
  {
    hide Pow2, Count, BlockOf, Offset, FreshRun;
    var R := FreshRun(b, l, k);
    FreshRunAt(b, l, k);
    forall i {:trigger R[i]} | 0 <= i < k
      ensures BlockOf(R[i]) == b && R[i] >= 0 && Offset(R[i]) % Pow2(l) == 0 && Offset(R[i]) > 0
        && Offset(R[i]) / Pow2(l) == k - i
    {
      FreshFragment(b, l, k - i);
    }
    forall i, j | 0 <= i < j < |R| ensures R[i] != R[j] {
      assert Offset(R[i]) / Pow2(l) == k - i && Offset(R[j]) / Pow2(l) == k - j;
    }
  }

  /** A whole block is broken into fragments, all but the first of them free. */
  lemma BreakStep(t: Table, busy: map<int, int>, Ls: FragLists, l: int, b: int, r: Table)
    requires Frags(t, busy, Ls) && FragType(l) && b in busy && Sz(t, b) == 0 && busy[b] == 1 && 0 <= b < |t|
      && Ls[l] == []
    requires r == t[b := Info(l, Count(l) - 1, Count(l) - 1)]
    ensures Frags(r, busy, Ls[l := FreshRun(b, l, Count(l) - 1)])
    ensures SameBut(t, r, b) && Sz(r, b) == l
  {
    hide HasRun, Distinct, Pow2, Count, Offset, BlockOf, FreshRun;
    SizeFacts(l);
    var k := Count(l) - 1;
    var C := FreshRun(b, l, k);
    FreshRunOk(b, l, k);
    FreshRunAt(b, l, k);
    assert C[0] == 4096 * b + k * Pow2(l);
    assert RunAt(C, b, 0, k);
    assert HasRun(C, b, k, 4096 * b + k * Pow2(l)) by { RunFound(C, b, 0, k); }
    forall c, n, f {:trigger HasRun(C, c, n, f)} | c != b && HasRun([], c, n, f) ensures HasRun(C, c, n, f) {
      NoRunsInEmpty(c, n, f);
      assert RunAt(C, c, 0, 0);
      RunFound(C, c, 0, 0);
      RunZero(C, c, C[0], f);
    }
    assert b >= 1 by { assert BlockOk(t, busy, Ls, b); }
    assert BlockOk(r, busy, Ls[l := C], b);
    OneBlock(t, busy, Ls, b, l, r, C);
  }

  lemma RunFound(L: seq<int>, b: int, s: int, n: int)
    requires RunAt(L, b, s, n) && s < |L|
    ensures HasRun(L, b, n, L[s])
  {
  }

  lemma NoRunsInEmpty(b: int, n: int, f: int)
    requires HasRun([], b, n, f)
    ensures n == 0
  {
  }

  /** Whole-block changes leave the fragment structure alone. */
  lemma WholeBlockStep(t: Table, busy: map<int, int>, Ls: FragLists, r: Table, busy': map<int, int>)
    requires Frags(t, busy, Ls)
    requires forall b {:trigger b in busy'} :: b in busy' ==>
      (b >= 1 && (LargeBlock(r, busy', b)
        || (b in busy && busy'[b] == busy[b] && Sz(r, b) == Sz(t, b) && Nx(r, b) == Nx(t, b) && Pv(r, b) == Pv(t, b))))
    requires forall b {:trigger b in busy} :: b in busy && Sz(t, b) != 0 ==> b in busy' && Sz(r, b) == Sz(t, b)
    ensures Frags(r, busy', Ls)
  {
    hide HasRun, Distinct;
    forall b ensures BlockOk(r, busy', Ls, b) {
      assert BlockOk(t, busy, Ls, b);
    }
    forall l {:trigger Ls[l]} | FragType(l) ensures ListOk(r, busy', Ls[l], l) {
      assert ListOk(t, busy, Ls[l], l);
      forall i {:trigger Ls[l][i]} | 0 <= i < |Ls[l]| ensures ElemOk(r, busy', l, Ls[l][i]) {
        assert ElemOk(t, busy, l, Ls[l][i]);
      }
    }
  }

  // ----- a full block: the pigeonhole argument -----

  lemma {:induction false} AtMost(K: seq<int>, n: nat)
    requires Distinct(K) && forall i {:trigger K[i]} :: 0 <= i < |K| ==> 0 <= K[i] < n
    ensures |K| <= n
    decreases n
  {
    if |K| == 0 {
    } else {
      var x := K[0];
      assert 0 <= x < n;
      if n - 1 in K {
        var j :| 0 <= j < |K| && K[j] == n - 1;
        var R := Cut(K, j, 1);
        assert forall i {:trigger R[i]} :: 0 <= i < |R| ==> R[i] == K[if i < j then i else i + 1];
        AtMost(R, n - 1);
      } else {
        AtMost(K, n - 1);
      }
    }
  }

  lemma Covers(K: seq<int>, n: nat, x: int)
    requires Distinct(K) && |K| == n && 0 <= x < n && forall i {:trigger K[i]} :: 0 <= i < |K| ==> 0 <= K[i] < n
    ensures x in K
  {
    if x !in K { AtMost(K + [x], n); }
  }

  /** When all fragments of b but p are free, every other fragment of b is in the run. */
  lemma OthersAreFree(t: Table, busy: map<int, int>, Ls: FragLists, l: int, b: int, s: nat, n: nat, p: int, q: int)
    requires |Ls| == BLOCKLOG && FragType(l) && ListOk(t, busy, Ls[l], l) && RunAt(Ls[l], b, s, n) && n == Count(l) - 1
    requires BlockOf(p) == b && ElemOk(t, busy, l, p) && p !in Ls[l]
    requires BlockOf(q) == b && ElemOk(t, busy, l, q) && q != p
    ensures q in Ls[l]
  {
    hide Pow2, Count, BlockOf, Offset;
    var L := Ls[l];
    var K := seq(n + 1, i requires 0 <= i < n + 1 => if i < n then Offset(L[s + i]) / Pow2(l) else Offset(p) / Pow2(l));
    var E := seq(n + 1, i requires 0 <= i < n + 1 => if i < n then L[s + i] else p);
    forall i {:trigger K[i]} | 0 <= i < |K| ensures 0 <= K[i] < n + 1 && E[i] == 4096 * b + K[i] * Pow2(l) {
      if i < n { assert ElemOk(t, busy, l, L[s + i]) && BlockOf(L[s + i]) == b; FragIndex(L[s + i], l); }
      FragIndex(p, l);
    }
    forall i, j | 0 <= i < j < |K| ensures K[i] != K[j] {
      assert E[i] != E[j];
    }
    FragIndex(q, l);
    var x := Offset(q) / Pow2(l);
    Covers(K, n + 1, x);
    var j :| 0 <= j < |K| && K[j] == x;
    assert E[j] == q;
  }

  // ----- pieces of memory do not overlap -----

  /** p is a place the allocator hands out: a large region, or a fragment, free or not. */
  ghost predicate Slot(t: Table, busy: map<int, int>, p: int) {
    && p >= 0 && BlockOf(p) in busy
    && (if FragType(Sz(t, BlockOf(p))) then Offset(p) % Pow2(Sz(t, BlockOf(p))) == 0 else Offset(p) == 0)
  }

  lemma RegionsApart(own: Owners, busy: map<int, int>, b: int, c: int)
    requires Regions(own, busy) && b in busy && c in busy && b < c
    ensures b + busy[b] <= c
  {
    assert Own(own, c) == c;
  }

  lemma SlotExtent(t: Table, busy: map<int, int>, Ls: FragLists, p: int)
    requires Frags(t, busy, Ls) && Slot(t, busy, p)
    ensures 8 <= Capacity(t, busy, p) || busy[BlockOf(p)] <= 0
    ensures 4096 * BlockOf(p) <= p && p + Capacity(t, busy, p) <= 4096 * (BlockOf(p) + busy[BlockOf(p)])
    ensures p % 8 == 0
  {
    hide Pow2, HasRun;
    assert BlockOk(t, busy, Ls, BlockOf(p));
    if FragType(Sz(t, BlockOf(p))) {
      FragIndex(p, Sz(t, BlockOf(p)));
      SizeFacts(Sz(t, BlockOf(p)));
    }
  }

  lemma StepApart(i: int, j: int, s: int)
    requires i < j && s >= 1
    ensures i * s + s <= j * s
  {
    assert (j - i - 1) * s >= 0;
  }

  lemma SlotsApart(t: Table, own: Owners, busy: map<int, int>, Ls: FragLists, p: int, q: int)
    requires Frags(t, busy, Ls) && Regions(own, busy) && Slot(t, busy, p) && Slot(t, busy, q) && p < q
    ensures p + Capacity(t, busy, p) <= q
  {
    hide Pow2, HasRun, Regions, Frags;
    SlotExtent(t, busy, Ls, p);
    SlotExtent(t, busy, Ls, q);
    var b, c := BlockOf(p), BlockOf(q);
    if b < c {
      RegionsApart(own, busy, b, c);
    } else {
      var l := Sz(t, b);
      assert FragType(l);
      FragIndex(p, l);
      FragIndex(q, l);
      var i, j := Offset(p) / Pow2(l), Offset(q) / Pow2(l);
      if i < j { StepApart(i, j, Pow2(l)); } else { assert i == j || j < i; if j < i { StepApart(j, i, Pow2(l)); } }
    }
  }

  // ----- who is live afterwards -----

  lemma PopLive(t: Table, busy: map<int, int>, Ls: FragLists, l: int, p: int, r: Table, C: seq<int>)
    requires Frags(t, busy, Ls) && FragType(l) && Ls[l] != [] && p == Ls[l][0] && C == Cut(Ls[l], 0, 1)
    requires forall s {:trigger Sz(r, s)} :: Sz(r, s) == Sz(t, s)
    ensures !Live(t, busy, Ls, p) && Capacity(r, busy, p) == Pow2(l) && p >= 4096
    ensures forall q {:trigger Live(r, busy, Ls[l := C], q)} ::
      Live(r, busy, Ls[l := C], q) <==> Live(t, busy, Ls, q) || q == p
    ensures forall q {:trigger Capacity(r, busy, q)} :: Capacity(r, busy, q) == Capacity(t, busy, q)
  {
    hide Pow2, HasRun, Cut, Distinct;
    var L := Ls[l];
    assert ListOk(t, busy, L, l);
    assert ElemOk(t, busy, l, L[0]);
    assert BlockOk(t, busy, Ls, BlockOf(p));
    CutDistinct(L, 0, 1);
    assert L[0..1] == [p];
    LiveFollows(t, busy, Ls, l, r, C);
  }

  lemma PutLive(t: Table, busy: map<int, int>, Ls: FragLists, l: int, s: nat, p: int, r: Table, C: seq<int>)
    requires Frags(t, busy, Ls) && FragType(l) && s <= |Ls[l]| && ElemOk(t, busy, l, p) && p !in Ls[l]
      && C == Put(Ls[l], s, p)
    requires forall s {:trigger Sz(r, s)} :: Sz(r, s) == Sz(t, s)
    ensures forall q {:trigger Live(r, busy, Ls[l := C], q)} ::
      Live(r, busy, Ls[l := C], q) <==> Live(t, busy, Ls, q) && q != p
    ensures forall q {:trigger Capacity(r, busy, q)} :: Capacity(r, busy, q) == Capacity(t, busy, q)
  {
    hide Pow2, HasRun, Put, Distinct;
    assert ListOk(t, busy, Ls[l], l);
    PutDistinct(Ls[l], s, p);
    LiveFollows(t, busy, Ls, l, r, C);
  }

  lemma InFreshRun(b: int, l: int, q: int)
    requires b >= 0 && FragType(l) && q >= 0 && BlockOf(q) == b && Offset(q) % Pow2(l) == 0
    ensures q in FreshRun(b, l, Count(l) - 1) <==> q != 4096 * b
  {
    hide Pow2, Count, FreshRun;
    SizeFacts(l);
    var k := Count(l) - 1;
    FragIndex(q, l);
    FreshRunOk(b, l, k);
    FreshRunAt(b, l, k);
    var i := Offset(q) / Pow2(l);
    if q != 4096 * b {
      assert i != 0;
      assert FreshRun(b, l, k)[k - i] == 4096 * b + (k - (k - i)) * Pow2(l);
    }
  }

  lemma BreakLive(t: Table, busy: map<int, int>, Ls: FragLists, l: int, b: int, r: Table, C: seq<int>)
    requires |Ls| == BLOCKLOG && FragType(l) && b in busy && b >= 1 && Sz(t, b) == 0 && Ls[l] == []
      && C == FreshRun(b, l, Count(l) - 1)
    requires SameBut(t, r, b) && Sz(r, b) == l && ListOk(t, busy, Ls[l], l)
    ensures forall q {:trigger Live(r, busy, Ls[l := C], q)} :: Live(r, busy, Ls[l := C], q) <==> Live(t, busy, Ls, q)
    ensures forall q {:trigger Capacity(r, busy, q)} :: BlockOf(q) != b ==> Capacity(r, busy, q) == Capacity(t, busy, q)
    ensures Capacity(r, busy, 4096 * b) == Pow2(l)
  {
    hide Pow2, Count, FreshRun;
    FreshRunOk(b, l, Count(l) - 1) by { SizeFacts(l); }
    forall q ensures Live(r, busy, Ls[l := C], q) <==> Live(t, busy, Ls, q) {
      if q >= 0 && BlockOf(q) == b {
        if Offset(q) % Pow2(l) == 0 { InFreshRun(b, l, q); } else { assert Offset(q) != 0; }
      } else if q >= 0 && BlockOf(q) in busy && Sz(t, BlockOf(q)) == l {
        assert q !in C;
      }
    }
  }

  // ----- list nodes never touch what the program holds -----

  /** Address of _fraghead[l], a static below the heap. */
  function Head(l: int): int { 8 * l }

  ghost predicate Chained(m: seq<byte>, Ls: FragLists) {
    |Ls| == BLOCKLOG && forall l {:trigger Ls[l]} :: FragType(l) ==> Chain(m, Head(l), Ls[l])
  }

  /** A place list l may write a node: null, its head, or a block of its type (or about to be). */
  ghost predicate Mine(t: Table, busy: map<int, int>, l: int, x: int) {
    x == 0 || x == Head(l) || (x >= 4096 && BlockOf(x) in busy && (Sz(t, BlockOf(x)) == l || Sz(t, BlockOf(x)) == 0))
  }

  lemma MineAvoids(t: Table, busy: map<int, int>, Ls: FragLists, l: int, k: int, x: int, m: seq<byte>)
    requires Frags(t, busy, Ls) && FragType(l) && FragType(k) && k != l && Mine(t, busy, l, x)
      && Chain(m, Head(k), Ls[k])
    ensures Avoids(Head(k), Ls[k], x)
  {
    hide HasRun, Pow2;
    assert ListOk(t, busy, Ls[k], k);
    forall i {:trigger Ls[k][i]} | 0 <= i < |Ls[k]| ensures Ls[k][i] != x {
      assert ElemOk(t, busy, k, Ls[k][i]);
      assert NodeAt(m, Ls[k][i]);
      assert BlockOk(t, busy, Ls, BlockOf(Ls[k][i]));
    }
  }

  lemma OthersChained(t: Table, busy: map<int, int>, Ls: FragLists, l: int, K: seq<int>, m: seq<byte>, r: seq<byte>,
                      a: int, b: int, c: int, L': seq<int>)
    requires Frags(t, busy, Ls) && FragType(l) && |Ls| == BLOCKLOG && Chained(m, Ls[l := K]) && OnlyNodes(m, r, a, b, c)
      && Chain(r, Head(l), L')
    requires Mine(t, busy, l, a) && Mine(t, busy, l, b) && Mine(t, busy, l, c)
    requires NodeAt(m, a) && NodeAt(m, b) && (NodeAt(m, c) || c == 0)
    ensures Chained(r, Ls[l := L'])
  {
    hide Frags, Mine, OnlyNodes, Chain, NodeAt, Head, Avoids;
    forall k {:trigger Ls[l := L'][k]} | FragType(k) ensures Chain(r, Head(k), Ls[l := L'][k]) {
      if k != l {
        assert Ls[l := K][k] == Ls[k];
        assert Chain(m, Head(k), Ls[k]);
        MineAvoids(t, busy, Ls, l, k, a, m);
        MineAvoids(t, busy, Ls, l, k, b, m);
        MineAvoids(t, busy, Ls, l, k, c, m);
        ChainKept(m, r, a, b, c, Head(k), Ls[k]);
      }
    }
  }

  lemma FragsLength(t: Table, busy: map<int, int>, Ls: FragLists)
    requires Frags(t, busy, Ls)
    ensures |Ls| == BLOCKLOG
  {
  }

  /** The bytes of everything the program holds are the same in r as in m. */
  ghost predicate BytesKept(t: Table, busy: map<int, int>, Ls: FragLists, m: seq<byte>, r: seq<byte>) {
    |r| == |m| && forall q, x {:trigger Live(t, busy, Ls, q), r[x]} ::
      Live(t, busy, Ls, q) && q <= x < q + Capacity(t, busy, q) && 0 <= x < |m| ==> r[x] == m[x]
  }

  /** A place no live region reaches: null, a list head, or a free fragment. */
  ghost predicate Unheld(t: Table, busy: map<int, int>, Ls: FragLists, l: int, x: int)
    requires |Ls| == BLOCKLOG && FragType(l)
  { x == 0 || x == Head(l) || x in Ls[l] }

  lemma UnheldApart(t: Table, own: Owners, busy: map<int, int>, Ls: FragLists, l: int, x: int, q: int)
    requires Frags(t, busy, Ls) && Regions(own, busy) && FragType(l) && Unheld(t, busy, Ls, l, x)
      && Live(t, busy, Ls, q)
    ensures x + 8 <= q || q + Capacity(t, busy, q) <= x
  {
    hide HasRun, Pow2, Regions;
    assert BlockOk(t, busy, Ls, BlockOf(q));
    assert q >= 4096;
    if x in Ls[l] {
      assert ListOk(t, busy, Ls[l], l);
      var i :| 0 <= i < |Ls[l]| && Ls[l][i] == x;
      assert ElemOk(t, busy, l, Ls[l][i]);
      assert Slot(t, busy, x) && Slot(t, busy, q) && x != q;
      assert Capacity(t, busy, x) >= 8 by { SizeFacts(l); }
      if x < q { SlotsApart(t, own, busy, Ls, x, q); } else { SlotsApart(t, own, busy, Ls, q, x); }
    }
  }

  lemma NodesUnheld(t: Table, own: Owners, busy: map<int, int>, Ls: FragLists, l: int, m: seq<byte>, r: seq<byte>,
                    a: int, b: int, c: int)
    requires Frags(t, busy, Ls) && Regions(own, busy) && FragType(l) && OnlyNodes(m, r, a, b, c)
    requires Unheld(t, busy, Ls, l, a) && Unheld(t, busy, Ls, l, b) && Unheld(t, busy, Ls, l, c)
    ensures BytesKept(t, busy, Ls, m, r)
  {
    hide Frags, Regions, Unheld, Live, Capacity;
    FragsLength(t, busy, Ls);
    forall q, x {:trigger Live(t, busy, Ls, q), r[x]} | Live(t, busy, Ls, q) && q <= x < q + Capacity(t, busy, q)
      && 0 <= x < |m|
      ensures r[x] == m[x]
    {
      UnheldApart(t, own, busy, Ls, l, a, q);
      UnheldApart(t, own, busy, Ls, l, b, q);
      UnheldApart(t, own, busy, Ls, l, c, q);
    }
  }

  // ----- how many blocks of each type -----

  ghost function TypeSet(t: Table, busy: map<int, int>, l: int): set<int> { set b | b in busy && Sz(t, b) == l }

  ghost predicate Counted(t: Table, busy: map<int, int>, counts: seq<int>) {
    |counts| == BLOCKLOG && forall l {:trigger counts[l]} :: FragType(l) ==> counts[l] == |TypeSet(t, busy, l)|
  }

  lemma TypesKept(t: Table, busy: map<int, int>, counts: seq<int>, r: Table, busy': map<int, int>)
    requires Counted(t, busy, counts)
    requires forall b {:trigger b in busy'} :: b in busy' && Sz(r, b) != 0 ==> b in busy && Sz(r, b) == Sz(t, b)
    requires forall b {:trigger b in busy} :: b in busy && Sz(t, b) != 0 ==> b in busy' && Sz(r, b) == Sz(t, b)
    ensures Counted(r, busy', counts)
  {
    forall l | FragType(l) ensures TypeSet(r, busy', l) == TypeSet(t, busy, l) {
    }
  }

  lemma TypeAdded(t: Table, busy: map<int, int>, counts: seq<int>, r: Table, b: int, l: int)
    requires Counted(t, busy, counts) && FragType(l) && b in busy && SameBut(t, r, b) && Sz(t, b) == 0 && Sz(r, b) == l
    ensures Counted(r, busy, counts[l := counts[l] + 1])
  {
    assert TypeSet(r, busy, l) == TypeSet(t, busy, l) + {b};
    forall k | FragType(k) && k != l ensures TypeSet(r, busy, k) == TypeSet(t, busy, k) {
    }
  }

  lemma TypeRemoved(t: Table, busy: map<int, int>, counts: seq<int>, r: Table, b: int, l: int)
    requires Counted(t, busy, counts) && FragType(l) && b in busy && SameBut(t, r, b) && Sz(t, b) == l && Sz(r, b) == 0
    ensures Counted(r, busy, counts[l := counts[l] - 1])
  {
    assert TypeSet(r, busy, l) == TypeSet(t, busy, l) - {b};
    forall k | FragType(k) && k != l ensures TypeSet(r, busy, k) == TypeSet(t, busy, k) {
    }
  }

  /** What __malloc may rely on when list l is not empty. */
  lemma PopFacts(t: Table, busy: map<int, int>, Ls: FragLists, m: seq<byte>, l: int)
    requires Frags(t, busy, Ls) && Chained(m, Ls) && FragType(l) && Ls[l] != []
    ensures var p, b := Ls[l][0], BlockOf(Ls[l][0]);
      (Chain(m, Head(l), Ls[l]) && b in busy && Sz(t, b) == l && Nx(t, b) >= 1 && (Nx(t, b) > 1 ==> |Ls[l]| > 1)
        && p >= 4096)
    ensures Node(Head(l), Ls[l], 0) == Head(l) && Node(Head(l), Ls[l], 1) == Ls[l][0] && At(Ls[l], 0) == Ls[l][0]
    ensures |Ls[l]| > 1 ==> At(Ls[l], 1) == Ls[l][1]
    ensures Mine(t, busy, l, Head(l)) && Mine(t, busy, l, At(Ls[l], 1))
    ensures NodeAt(m, Head(l)) && (NodeAt(m, At(Ls[l], 1)) || At(Ls[l], 1) == 0) && At(Ls[l], 1) != Ls[l][0]
      && Ls[l][0] != Head(l)
    ensures NodeAt(m, Ls[l][0])
    ensures Unheld(t, busy, Ls, l, Head(l)) && Unheld(t, busy, Ls, l, At(Ls[l], 1))
  {
    hide HasRun, Pow2;
    FirstInRun(t, busy, Ls, l);
    NodeFacts(m, Head(l), Ls[l], 1);
    assert ListOk(t, busy, Ls[l], l);
    if |Ls[l]| > 1 {
      assert ElemOk(t, busy, l, Ls[l][1]);
      assert BlockOk(t, busy, Ls, BlockOf(Ls[l][1]));
      assert NodeAt(m, Ls[l][1]);
    }
    assert NodeAt(m, Ls[l][0]);
  }

  /** Memory above the statics and outside block b is the same. */
  ghost predicate OutsideKept(m: seq<byte>, r: seq<byte>, b: int) {
    |r| == |m| && forall x {:trigger r[x]} :: 4096 <= x < |m| && !(4096 * b <= x < 4096 * b + 4096) ==> r[x] == m[x]
  }

  lemma OutsideStep(m0: seq<byte>, m: seq<byte>, r: seq<byte>, b: int, a: int, p: int, c: int)
    requires OutsideKept(m0, m, b) && OnlyNodes(m, r, a, p, c)
    requires Inside(b, a) && Inside(b, p) && Inside(b, c)
    ensures OutsideKept(m0, r, b)
  {
    assert forall x {:trigger r[x]} :: 4096 <= x < |m| && !(4096 * b <= x < 4096 * b + 4096) ==> r[x] == m[x];
  }

  /** A node at x lies among the statics or in block b. */
  predicate Inside(b: int, x: int) { 0 <= x && (x + 8 <= 4096 || (4096 * b <= x && x + 8 <= 4096 * b + 4096)) }

  /** What linking fragment i of block b relies on. */
  lemma BreakFacts(t: Table, busy: map<int, int>, Ls: FragLists, m: seq<byte>, l: int, b: int, i: int)
    requires Frags(t, busy, Ls) && FragType(l) && b in busy && b >= 1 && Sz(t, b) == 0 && 1 <= i < Count(l)
    requires Chained(m, Ls[l := FreshRun(b, l, i - 1)]) && 4096 * b + 4096 <= |m| && |m| >= 4096
    ensures var p, F := 4096 * b + i * Pow2(l), FreshRun(b, l, i - 1);
      (Chain(m, Head(l), F) && NodeAt(m, p) && Avoids(Head(l), F, p) && NodeAt(m, Head(l)) && Mine(t, busy, l, p)
        && Inside(b, p) && Inside(b, Head(l)) && Node(Head(l), F, 0) == Head(l) && Put(F, 0, p) == FreshRun(b, l, i))
    ensures var q := At(FreshRun(b, l, i - 1), 0);
      ((q == 0 || NodeAt(m, q)) && Inside(b, q) && Mine(t, busy, l, q) && Mine(t, busy, l, Head(l)))
  {
    hide Pow2, Count, HasRun, Frags, FreshRun, Chain, Chained, Offset;
    var F := FreshRun(b, l, i - 1);
    FragsLength(t, busy, Ls);
    ChainedAt(m, Ls[l := F], l);
    FreshPlace(t, busy, l, b, i, m);
    FreshUnfold(b, l, i);
    FreshAvoids(b, l, i);
    if i > 1 {
      FreshRunAt(b, l, i - 1);
      FreshPlace(t, busy, l, b, i - 1, m);
      assert F[0] == 4096 * b + (i - 1) * Pow2(l);
    }
  }

  lemma ChainedAt(m: seq<byte>, Ls: FragLists, l: int)
    requires Chained(m, Ls) && FragType(l)
    ensures Chain(m, Head(l), Ls[l])
  {
  }

  lemma FreshPlace(t: Table, busy: map<int, int>, l: int, b: int, i: int, m: seq<byte>)
    requires FragType(l) && b in busy && b >= 1 && Sz(t, b) == 0 && 1 <= i < Count(l) && 4096 * b + 4096 <= |m|
    ensures var p := 4096 * b + i * Pow2(l); (NodeAt(m, p) && Inside(b, p) && Mine(t, busy, l, p))
  {
    hide Pow2, Count, Offset;
    SizeFacts(l);
    FreshFragment(b, l, i);
    FragAddress(b, l, i);
  }

  lemma FreshAvoids(b: int, l: int, i: int)
    requires b >= 1 && FragType(l) && 1 <= i < Count(l)
    ensures Avoids(Head(l), FreshRun(b, l, i - 1), 4096 * b + i * Pow2(l))
  {
    hide Pow2, Count, FreshRun;
    SizeFacts(l);
    FreshRunAt(b, l, i - 1);
    var F := FreshRun(b, l, i - 1);
    forall j {:trigger F[j]} | 0 <= j < |F| ensures F[j] != 4096 * b + i * Pow2(l) {
      StepApart(i - 1 - j, i, Pow2(l));
    }
    FragAddress(b, l, i);
  }

  lemma FreshUnfold(b: int, l: int, i: int)
    requires i >= 1
    ensures Put(FreshRun(b, l, i - 1), 0, 4096 * b + i * Pow2(l)) == FreshRun(b, l, i)
      && |FreshRun(b, l, i - 1)| == i - 1
  {
    hide Pow2;
  }

  lemma FreshNone(b: int, l: int, Ls: FragLists, m: seq<byte>)
    requires |Ls| == BLOCKLOG && FragType(l) && Ls[l] == []
    ensures Ls[l := FreshRun(b, l, 0)] == Ls && OutsideKept(m, m, b)
  {
  }

  // ----- the effect of one call on what the program holds -----

  /** Pointers in live2 are those in live1 and p, which is new; nothing else changed its capacity. */
  ghost predicate Gained(t: Table, busy: map<int, int>, Ls: FragLists, t': Table, busy': map<int, int>, Ls': FragLists,
                         p: int) {
    && !Live(t, busy, Ls, p) && Live(t', busy', Ls', p)
    && (forall q {:trigger Live(t', busy', Ls', q)} :: q != p ==> (Live(t', busy', Ls', q) <==> Live(t, busy, Ls, q)))
    && (forall q {:trigger Capacity(t', busy', q)} :: Live(t, busy, Ls, q) ==>
       Capacity(t', busy', q) == Capacity(t, busy, q))
  }

  lemma AllocStep(t: Table, busy: map<int, int>, Ls: FragLists, counts: seq<int>, r: Table, b: int, n: int)
    requires Frags(t, busy, Ls) && Counted(t, busy, counts) && SameEntries(t, r, busy) && b !in busy && b >= 1 && n >= 1
    requires Sz(r, b) == 0 && Nx(r, b) == n
    ensures Frags(r, busy[b := n], Ls) && Counted(r, busy[b := n], counts)
    ensures Gained(t, busy, Ls, r, busy[b := n], Ls, 4096 * b) && Capacity(r, busy[b := n], 4096 * b) == 4096 * n
  {
    hide HasRun, Pow2, Distinct;
    var busy' := busy[b := n];
    forall c {:trigger c in busy'} | c in busy' ensures c >= 1 && (LargeBlock(r, busy', c)
        || (c in busy && busy'[c] == busy[c] && Sz(r, c) == Sz(t, c) && Nx(r, c) == Nx(t, c) && Pv(r, c) == Pv(t, c)))
    {
      assert BlockOk(t, busy, Ls, c);
    }
    WholeBlockStep(t, busy, Ls, r, busy');
    TypesKept(t, busy, counts, r, busy');
  }

  lemma BytesSame(t: Table, busy: map<int, int>, Ls: FragLists, m: seq<byte>)
    ensures BytesKept(t, busy, Ls, m, m)
  {
  }

  /** Breaking up a block that was just obtained: what __malloc has gained is its first fragment. */
  lemma BreakEffect(t0: Table, busy0: map<int, int>, own: Owners, t1: Table, busy: map<int, int>, Ls: FragLists,
                    m1: seq<byte>,
                    l: int, b: int, t2: Table, L2: seq<int>, m2: seq<byte>)
    requires Frags(t1, busy, Ls) && Regions(own, busy) && FragType(l) && Ls[l] == [] && b >= 1 && b in busy
      && Sz(t1, b) == 0 && busy[b] == 1
    requires Gained(t0, busy0, Ls, t1, busy, Ls, 4096 * b) && OutsideKept(m1, m2, b)
    requires L2 == FreshRun(b, l, Count(l) - 1) && SameBut(t1, t2, b) && Sz(t2, b) == l
    ensures Gained(t0, busy0, Ls, t2, busy, Ls[l := L2], 4096 * b) && Capacity(t2, busy, 4096 * b) == Pow2(l)
    ensures BytesKept(t0, busy0, Ls, m1, m2)
  {
    hide HasRun, Pow2, Count, FreshRun, Regions, ListOk, Frags, Live, Capacity;
    FragsLength(t1, busy, Ls);
    ListAt(t1, busy, Ls, l);
    BreakLive(t1, busy, Ls, l, b, t2, L2);
    forall q, x {:trigger Live(t0, busy0, Ls, q), m2[x]} | Live(t0, busy0, Ls, q) && q <= x < q + Capacity(t0, busy0, q)
      && 0 <= x < |m1|
      ensures m2[x] == m1[x]
    {
      assert q != 4096 * b && Live(t1, busy, Ls, q) && Capacity(t1, busy, q) == Capacity(t0, busy0, q);
      LiveOutside(t1, own, busy, Ls, b, q);
    }
    forall q {:trigger Capacity(t2, busy, q)} | Live(t0, busy0, Ls, q)
      ensures Capacity(t2, busy, q) == Capacity(t0, busy0, q)
    {
      assert q != 4096 * b && Live(t1, busy, Ls, q) && Capacity(t1, busy, q) == Capacity(t0, busy0, q);
      LiveOutside(t1, own, busy, Ls, b, q);
    }
  }

  lemma ListAt(t: Table, busy: map<int, int>, Ls: FragLists, l: int)
    requires Frags(t, busy, Ls) && FragType(l)
    ensures ListOk(t, busy, Ls[l], l)
  {
  }

  /** A live pointer other than large block b's own stays clear of that block. */
  lemma LiveOutside(t: Table, own: Owners, busy: map<int, int>, Ls: FragLists, b: int, q: int)
    requires Frags(t, busy, Ls) && Regions(own, busy) && b in busy && b >= 1 && Sz(t, b) == 0 && busy[b] == 1
    requires Live(t, busy, Ls, q) && q != 4096 * b
    ensures q >= 4096 && BlockOf(q) != b && (q + Capacity(t, busy, q) <= 4096 * b || 4096 * b + 4096 <= q)
  {
    hide HasRun, Pow2, Regions;
    assert BlockOk(t, busy, Ls, BlockOf(q));
    assert Slot(t, busy, q) && Slot(t, busy, 4096 * b) && Capacity(t, busy, 4096 * b) == 4096;
    if q < 4096 * b { SlotsApart(t, own, busy, Ls, q, 4096 * b); } else { SlotsApart(t, own, busy, Ls, 4096 * b, q); }
  }

  lemma PopEffect(t: Table, own: Owners, busy: map<int, int>, Ls: FragLists, l: int, m: seq<byte>, r: Table,
                  m2: seq<byte>)
    requires Frags(t, busy, Ls) && Regions(own, busy) && FragType(l) && Ls[l] != [] && Chained(m, Ls)
    requires SameBut(t, r, BlockOf(Ls[l][0])) && Sz(r, BlockOf(Ls[l][0])) == l
    requires OnlyNodes(m, m2, Head(l), Head(l), At(Ls[l], 1))
    ensures Gained(t, busy, Ls, r, busy, Ls[l := Cut(Ls[l], 0, 1)], Ls[l][0]) && Capacity(r, busy, Ls[l][0]) == Pow2(l)
    ensures BytesKept(t, busy, Ls, m, m2) && Ls[l][0] >= 4096
  {
    hide Frags, Regions, Pow2, Cut, Chained, OnlyNodes, Live, Capacity, BytesKept;
    FragsLength(t, busy, Ls);
    FirstInRun(t, busy, Ls, l);
    PopLive(t, busy, Ls, l, Ls[l][0], r, Cut(Ls[l], 0, 1));
    PopFacts(t, busy, Ls, m, l);
    NodesUnheld(t, own, busy, Ls, l, m, m2, Head(l), Head(l), At(Ls[l], 1));
  }

  lemma CountsLength(t: Table, busy: map<int, int>, counts: seq<int>)
    requires Counted(t, busy, counts)
    ensures |counts| == BLOCKLOG
  {
  }

  lemma ListHead(t: Table, busy: map<int, int>, Ls: FragLists, m: seq<byte>, l: int)
    requires Frags(t, busy, Ls) && Chained(m, Ls) && FragType(l)
    ensures |Ls| == BLOCKLOG && ValidWord(m, Head(l)) && (Word(m, Head(l)) == 0 <==> Ls[l] == [])
  {
    assert Chain(m, Head(l), Ls[l]);
    assert Node(Head(l), Ls[l], 0) == Head(l);
    assert Ls[l] != [] ==> NodeAt(m, Ls[l][0]);
  }

  // ----- __free -----

  /** p is no longer live; every other pointer keeps its life and its capacity. */
  ghost predicate Lost(t: Table, busy: map<int, int>, Ls: FragLists, t': Table, busy': map<int, int>, Ls': FragLists,
                       p: int) {
    && (forall q {:trigger Live(t', busy', Ls', q)} :: Live(t', busy', Ls', q) <==> Live(t, busy, Ls, q) && q != p)
    && (forall q {:trigger Capacity(t', busy', q)} :: Live(t', busy', Ls', q) ==>
       Capacity(t', busy', q) == Capacity(t, busy, q))
  }

  lemma FreeStep(t: Table, busy: map<int, int>, Ls: FragLists, counts: seq<int>, r: Table, b: int)
    requires Frags(t, busy, Ls) && Counted(t, busy, counts) && SameEntries(t, r, busy - {b}) && b in busy
      && Sz(t, b) == 0
    ensures Frags(r, busy - {b}, Ls) && Counted(r, busy - {b}, counts)
    ensures Lost(t, busy, Ls, r, busy - {b}, Ls, 4096 * b)
  {
    hide HasRun, Pow2, Distinct;
    var busy' := busy - {b};
    forall c {:trigger c in busy'} | c in busy' ensures (c >= 1 && (LargeBlock(r, busy', c)
        || (c in busy && busy'[c] == busy[c] && Sz(r, c) == Sz(t, c) && Nx(r, c) == Nx(t, c) && Pv(r, c) == Pv(t, c))))
    {
      assert BlockOk(t, busy, Ls, c);
    }
    WholeBlockStep(t, busy, Ls, r, busy');
    TypesKept(t, busy, counts, r, busy');
  }

  /** What __free may rely on about a live fragment p. */
  lemma FragmentFacts(t: Table, busy: map<int, int>, Ls: FragLists, m: seq<byte>, p: int) returns (s: nat)
    requires Frags(t, busy, Ls) && Chained(m, Ls) && Live(t, busy, Ls, p) && Sz(t, BlockOf(p)) != 0
    requires 4096 * BlockOf(p) + 4096 <= |m|
    ensures var b, l := BlockOf(p), Sz(t, BlockOf(p));
      (b >= 1 && b in busy && busy[b] == 1 && FragType(l) && ElemOk(t, busy, l, p) && p !in Ls[l] && p >= 4096
        && p != Head(l) && Nx(t, b) >= 0
        && RunAt(Ls[l], b, s, Nx(t, b)) && (Nx(t, b) > 0 ==> Ls[l][s] == 4096 * b + Pv(t, b) * Pow2(l)))
    ensures Chain(m, Head(Sz(t, BlockOf(p))), Ls[Sz(t, BlockOf(p))]) && NodeAt(m, p)
      && Mine(t, busy, Sz(t, BlockOf(p)), p)
  {
    hide Pow2, Count;
    var b, l := BlockOf(p), Sz(t, BlockOf(p));
    assert BlockOk(t, busy, Ls, b);
    s :| RunAt(Ls[l], b, s, Nx(t, b)) && (Nx(t, b) > 0 ==> Ls[l][s] == 4096 * b + Pv(t, b) * Pow2(l));
    FragIndex(p, l);
    SizeFacts(l);
  }

  /** The nodes at the ends of a stretch of list l. */
  lemma EndFacts(t: Table, busy: map<int, int>, Ls: FragLists, m: seq<byte>, l: int, k: nat)
    requires Frags(t, busy, Ls) && Chained(m, Ls) && FragType(l) && k <= |Ls[l]|
    ensures var a, c := Node(Head(l), Ls[l], k), At(Ls[l], k);
      (Mine(t, busy, l, a) && Mine(t, busy, l, c) && NodeAt(m, a) && (NodeAt(m, c) || c == 0)
        && (a == Head(l) || a in Ls[l]) && (c == 0 || c in Ls[l]))
  {
    hide HasRun, Pow2;
    var L := Ls[l];
    assert ListOk(t, busy, L, l);
    assert Chain(m, Head(l), L);
    NodeFacts(m, Head(l), L, k);
    if k < |L| { assert ElemOk(t, busy, l, L[k]); assert BlockOk(t, busy, Ls, BlockOf(L[k])); }
    if k > 0 { assert ElemOk(t, busy, l, L[k - 1]); assert BlockOk(t, busy, Ls, BlockOf(L[k - 1])); }
  }

  lemma PutEffect(t: Table, own: Owners, busy: map<int, int>, Ls: FragLists, l: int, s: nat, p: int, m: seq<byte>,
                  r: Table, m2: seq<byte>)
    requires Frags(t, busy, Ls) && Regions(own, busy) && FragType(l) && s <= |Ls[l]| && ElemOk(t, busy, l, p)
      && p !in Ls[l] && Chained(m, Ls)
    requires SameBut(t, r, BlockOf(p)) && Sz(r, BlockOf(p)) == l && Frags(r, busy, Ls[l := Put(Ls[l], s, p)])
    requires OnlyNodes(m, m2, Node(Head(l), Ls[l], s), p, At(Ls[l], s))
    ensures Lost(t, busy, Ls, r, busy, Ls[l := Put(Ls[l], s, p)], p)
    ensures BytesKept(r, busy, Ls[l := Put(Ls[l], s, p)], m, m2)
  {
    hide Frags, Regions, Pow2, Put, Chained, OnlyNodes, Live, Capacity, BytesKept, Node, At, Mine, NodeAt;
    FragsLength(t, busy, Ls);
    var C := Put(Ls[l], s, p);
    PutLive(t, busy, Ls, l, s, p, r, C);
    EndFacts(t, busy, Ls, m, l, s);
    ListAt(t, busy, Ls, l);
    PutDistinct(Ls[l], s, p);
    assert Ls[l := C][l] == C;
    NodesUnheld(r, own, busy, Ls[l := C], l, m, m2, Node(Head(l), Ls[l], s), p, At(Ls[l], s));
  }

  lemma LargeHeader(t: Table, busy: map<int, int>, Ls: FragLists, b: int)
    requires Frags(t, busy, Ls) && b in busy && Sz(t, b) == 0
    ensures b >= 1 && Nx(t, b) == busy[b]
  {
    assert BlockOk(t, busy, Ls, b);
  }

  lemma HeadNode(l: int, L: seq<int>)
    ensures Node(Head(l), L, 0) == Head(l)
  {
  }

  lemma AfterFirst(l: int, L: seq<int>, s: nat)
    requires s < |L|
    ensures Node(Head(l), L, s + 1) == L[s] && At(L, s) == L[s]
  {
  }

  lemma TypesStay(t: Table, busy: map<int, int>, counts: seq<int>, r: Table, b: int)
    requires Counted(t, busy, counts) && SameBut(t, r, b) && Sz(r, b) == Sz(t, b)
    ensures Counted(r, busy, counts)
  {
    TypesKept(t, busy, counts, r, busy);
  }

  /** p was the only live pointer into block b; now the whole block is one live region; all else is as it was. */
  ghost predicate Emptied(t: Table, busy: map<int, int>, Ls: FragLists, t1: Table, L1: FragLists, b: int, p: int) {
    && (forall q {:trigger Live(t1, busy, L1, q)} :: Live(t1, busy, L1, q) <==>
       if BlockOf(q) == b then q == 4096 * b else Live(t, busy, Ls, q))
    && (forall q {:trigger Live(t, busy, Ls, q)} :: Live(t, busy, Ls, q) && BlockOf(q) == b ==> q == p)
    && (forall q {:trigger Capacity(t1, busy, q)} :: BlockOf(q) != b ==> Capacity(t1, busy, q) == Capacity(t, busy, q))
  }

  /** Giving back a block: before, p was the only live pointer into it; after the reclaim, the whole block is one live
      region. */
  lemma ReclaimEffect(t: Table, own: Owners, busy: map<int, int>, Ls: FragLists, l: int, b: int, s: nat, n: nat, p: int,
                      m: seq<byte>, r: Table, m2: seq<byte>)
    requires Frags(t, busy, Ls) && Regions(own, busy) && FragType(l) && b in busy && busy[b] == 1 && b >= 1
      && Sz(t, b) == l && Chained(m, Ls)
    requires RunAt(Ls[l], b, s, n) && n == Count(l) - 1 && BlockOf(p) == b && ElemOk(t, busy, l, p) && p !in Ls[l]
    requires SameBut(t, r, b) && Sz(r, b) == 0 && Frags(r, busy, Ls[l := Cut(Ls[l], s, n)])
    requires OnlyNodes(m, m2, Node(Head(l), Ls[l], s), Node(Head(l), Ls[l], s), At(Ls[l], s + n))
    ensures Emptied(t, busy, Ls, r, Ls[l := Cut(Ls[l], s, n)], b, p)
    ensures BytesKept(r, busy, Ls[l := Cut(Ls[l], s, n)], m, m2)
  {
    hide Frags, Regions, Pow2, Count, Chained, OnlyNodes, BytesKept, Node, At, Mine, NodeAt, HasRun;
    FragsLength(t, busy, Ls);
    var C := Cut(Ls[l], s, n);
    ListAt(t, busy, Ls, l);
    forall q | Live(t, busy, Ls, q) && BlockOf(q) == b ensures q == p {
      if q != p { OthersAreFree(t, busy, Ls, l, b, s, n, p, q); }
    }
    CutKeeps(Ls[l], b, s, n);
    EndFacts(t, busy, Ls, m, l, s);
    EndFacts(t, busy, Ls, m, l, s + n);
    assert Ls[l := C][l] == C;
    EndsOutside(l, Ls[l], s, n);
    NodesUnheld(r, own, busy, Ls[l := C], l, m, m2, Node(Head(l), Ls[l], s), Node(Head(l), Ls[l], s), At(Ls[l], s + n));
  }

  lemma CutKeeps(L: seq<int>, b: int, s: nat, n: nat)
    requires RunAt(L, b, s, n) && Distinct(L)
    ensures forall q {:trigger q in Cut(L, s, n)} :: BlockOf(q) != b ==> (q in Cut(L, s, n) <==> q in L)
  {
    CutDistinct(L, s, n);
    forall q | q in L[s..s + n] ensures BlockOf(q) == b {
      var i :| 0 <= i < n && L[s..s + n][i] == q;
      assert L[s + i] == q;
    }
  }

  lemma EndsOutside(l: int, L: seq<int>, s: nat, n: nat)
    requires s + n <= |L|
    ensures var a, c, C := Node(Head(l), L, s), At(L, s + n), Cut(L, s, n);
      ((a == Head(l) || a in C) && (c == 0 || c in C))
  {
    var C := Cut(L, s, n);
    if s > 0 { assert C[s - 1] == L[s - 1]; }
    if s + n < |L| { assert C[s] == L[s + n]; }
  }

  /** Freeing that block afterwards leaves all pointers but p. */
  lemma ReclaimLost(t: Table, busy: map<int, int>, Ls: FragLists, t1: Table, L1: FragLists, t2: Table,
                    busy2: map<int, int>, b: int, p: int, m: seq<byte>, m2: seq<byte>)
    requires Emptied(t, busy, Ls, t1, L1, b, p)
    requires BytesKept(t1, busy, L1, m, m2) && Lost(t1, busy, L1, t2, busy2, L1, 4096 * b) && BlockOf(p) == b
    ensures Lost(t, busy, Ls, t2, busy2, L1, p) && BytesKept(t2, busy2, L1, m, m2)
  {
    hide Live, Capacity;
    forall q, x {:trigger Live(t2, busy2, L1, q), m2[x]} | Live(t2, busy2, L1, q) && q <= x < q + Capacity(t2, busy2, q)
      && 0 <= x < |m|
      ensures m2[x] == m[x]
    {
      assert Live(t1, busy, L1, q) && Capacity(t2, busy2, q) == Capacity(t1, busy, q);
    }
    forall q {:trigger Live(t2, busy2, L1, q)} ensures Live(t2, busy2, L1, q) <==> Live(t, busy, Ls, q) && q != p {
      assert Live(t2, busy2, L1, q) <==> Live(t1, busy, L1, q) && q != 4096 * b;
    }
    forall q {:trigger Capacity(t2, busy2, q)} | Live(t2, busy2, L1, q)
      ensures Capacity(t2, busy2, q) == Capacity(t, busy, q)
    {
      assert Live(t1, busy, L1, q) && Capacity(t2, busy2, q) == Capacity(t1, busy, q);
    }
  }

  lemma StepNode(l: int, L: seq<int>, k: nat)
    requires k < |L|
    ensures Node(Head(l), L, k + 1) == At(L, k)
  {
  }

  lemma LiveBlock(t: Table, busy: map<int, int>, Ls: FragLists, p: int)
    requires Live(t, busy, Ls, p)
    ensures |Ls| == BLOCKLOG && p >= 0 && BlockOf(p) in busy
  {
  }

  // ----- __realloc -----

  /** p gave way to r, which may be p itself; all other pointers keep their lives and capacities. */
  ghost predicate Replaced(t: Table, busy: map<int, int>, Ls: FragLists, t': Table, busy': map<int, int>,
                           Ls': FragLists, p: int, r: int) {
    && Live(t', busy', Ls', r)
    && (r != p ==> !Live(t', busy', Ls', p) && !Live(t, busy, Ls, r))
    && (forall q {:trigger Live(t', busy', Ls', q)} :: q != p && q != r ==>
       (Live(t', busy', Ls', q) <==> Live(t, busy, Ls, q)))
    && (forall q {:trigger Capacity(t', busy', q)} :: q != p && Live(t, busy, Ls, q) ==>
       Capacity(t', busy', q) == Capacity(t, busy, q))
  }

  /** The bytes of everything that was live, except of p, are the same in r as in m. */
  ghost predicate OthersKept(t: Table, busy: map<int, int>, Ls: FragLists, m: seq<byte>, r: seq<byte>, p: int) {
    |r| == |m| && forall q, x {:trigger Live(t, busy, Ls, q), r[x]} ::
      q != p && Live(t, busy, Ls, q) && q <= x < q + Capacity(t, busy, q) && 0 <= x < |m| ==> r[x] == m[x]
  }

  /** k bytes from p in m are the k bytes from q in r. */
  ghost predicate Copied(m: seq<byte>, p: int, r: seq<byte>, q: int, k: int) {
    0 <= p && 0 <= q && p + k <= |m| && q + k <= |r| && forall x {:trigger r[x]} ::
      q <= x < q + k ==> r[x] == m[x - q + p]
  }

  /** r is m with the k bytes from q replaced. */
  ghost predicate Wrote(m: seq<byte>, r: seq<byte>, q: int, k: int) {
    |r| == |m| && forall x {:trigger r[x]} :: 0 <= x < |m| && !(q <= x < q + k) ==> r[x] == m[x]
  }

  lemma LiveSlot(t: Table, busy: map<int, int>, Ls: FragLists, p: int)
    requires Frags(t, busy, Ls) && Live(t, busy, Ls, p)
    ensures Slot(t, busy, p) && p >= 4096
  {
    assert BlockOk(t, busy, Ls, BlockOf(p));
  }

  /** Two live regions do not overlap. */
  lemma LiveApart(t: Table, own: Owners, busy: map<int, int>, Ls: FragLists, p: int, q: int)
    requires Frags(t, busy, Ls) && Regions(own, busy) && Live(t, busy, Ls, p) && Live(t, busy, Ls, q) && p != q
    ensures p + Capacity(t, busy, p) <= q || q + Capacity(t, busy, q) <= p
  {
    hide Frags, Regions, Live, Slot, Capacity;
    LiveSlot(t, busy, Ls, p);
    LiveSlot(t, busy, Ls, q);
    if p < q { SlotsApart(t, own, busy, Ls, p, q); } else { SlotsApart(t, own, busy, Ls, q, p); }
  }

  /** malloc, memcpy, free: state 0 to 1, memory m1 to m2, state 1 to 3. */
  lemma MoveEffect(t0: Table, busy0: map<int, int>, L0: FragLists, m0: seq<byte>, p: int, own: Owners, t1: Table,
                   busy1: map<int, int>, L1: FragLists, m1: seq<byte>,
                   r: int, k: int, m2: seq<byte>, t3: Table, busy3: map<int, int>, L3: FragLists, m3: seq<byte>)
    requires Frags(t1, busy1, L1) && Regions(own, busy1) && Live(t0, busy0, L0, p)
    requires Gained(t0, busy0, L0, t1, busy1, L1, r) && BytesKept(t0, busy0, L0, m0, m1)
    requires 0 <= k <= Capacity(t0, busy0, p) && k <= Capacity(t1, busy1, r) && Copied(m1, p, m2, r, k)
      && Wrote(m1, m2, r, k)
    requires Lost(t1, busy1, L1, t3, busy3, L3, p) && BytesKept(t3, busy3, L3, m2, m3)
    ensures Replaced(t0, busy0, L0, t3, busy3, L3, p, r) && Capacity(t3, busy3, r) == Capacity(t1, busy1, r)
    ensures OthersKept(t0, busy0, L0, m0, m3, p) && Copied(m0, p, m3, r, k)
  {
    hide Frags, Regions, Live, Capacity;
    assert Live(t1, busy1, L1, p) && p != r && Live(t3, busy3, L3, r);
    forall x {:trigger m3[x]} | r <= x < r + k ensures m3[x] == m0[x - r + p] {
      assert m2[x] == m1[x - r + p];
    }
    forall q, x {:trigger Live(t0, busy0, L0, q), m3[x]} | q != p && Live(t0, busy0, L0, q)
      && q <= x < q + Capacity(t0, busy0, q) && 0 <= x < |m0|
      ensures m3[x] == m0[x]
    {
      assert q != r && Live(t1, busy1, L1, q) && Capacity(t1, busy1, q) == Capacity(t0, busy0, q);
      assert Live(t3, busy3, L3, q) && Capacity(t3, busy3, q) == Capacity(t1, busy1, q);
      LiveApart(t1, own, busy1, L1, q, r);
      assert m1[x] == m0[x];
      assert m2[x] == m1[x];
    }
    forall q {:trigger Live(t3, busy3, L3, q)} | q != p && q != r
      ensures Live(t3, busy3, L3, q) <==> Live(t0, busy0, L0, q)
    {
      assert Live(t1, busy1, L1, q) <==> Live(t0, busy0, L0, q);
    }
    forall q {:trigger Capacity(t3, busy3, q)} | q != p && Live(t0, busy0, L0, q)
      ensures Capacity(t3, busy3, q) == Capacity(t0, busy0, q)
    {
      assert q != r && Live(t1, busy1, L1, q) && Capacity(t1, busy1, q) == Capacity(t0, busy0, q);
      assert Live(t3, busy3, L3, q);
    }
  }

  /** A large region b became the large region c of n blocks; c may be b. */
  lemma RegionStep(t: Table, busy: map<int, int>, Ls: FragLists, counts: seq<int>, r: Table, b: int, c: int, n: int)
    requires Frags(t, busy, Ls) && Counted(t, busy, counts) && SameEntries(t, r, busy - {b}) && b in busy
      && Sz(t, b) == 0
    requires c !in busy - {b} && c >= 1 && Sz(r, c) == 0 && Nx(r, c) == n
    ensures var busy' := (busy - {b})[c := n];
      (Frags(r, busy', Ls) && Counted(r, busy', counts) && Replaced(t, busy, Ls, r, busy', Ls, 4096 * b, 4096 * c)
        && Capacity(r, busy', 4096 * c) == 4096 * n)
  {
    hide HasRun, Pow2, Distinct;
    var busy' := (busy - {b})[c := n];
    forall k {:trigger k in busy'} | k in busy' ensures (k >= 1 && (LargeBlock(r, busy', k)
        || (k in busy && busy'[k] == busy[k] && Sz(r, k) == Sz(t, k) && Nx(r, k) == Nx(t, k) && Pv(r, k) == Pv(t, k))))
    {
      assert BlockOk(t, busy, Ls, k);
    }
    WholeBlockStep(t, busy, Ls, r, busy');
    TypesKept(t, busy, counts, r, busy');
  }

  lemma WroteEffect(t: Table, busy: map<int, int>, Ls: FragLists, own: Owners, r: Table, busy': map<int, int>, p: int,
                    q: int, k: int, m: seq<byte>, m2: seq<byte>)
    requires Frags(r, busy', Ls) && Regions(own, busy') && Replaced(t, busy, Ls, r, busy', Ls, p, q)
      && Wrote(m, m2, q, k) && k <= Capacity(r, busy', q)
    ensures OthersKept(t, busy, Ls, m, m2, p)
  {
    hide Frags, Regions, Live, Capacity;
    forall s, x {:trigger Live(t, busy, Ls, s), m2[x]} | s != p && Live(t, busy, Ls, s)
      && s <= x < s + Capacity(t, busy, s) && 0 <= x < |m|
      ensures m2[x] == m[x]
    {
      assert s != q && Live(r, busy', Ls, s) && Capacity(r, busy', s) == Capacity(t, busy, s);
      LiveApart(r, own, busy', Ls, s, q);
    }
  }

  /** What the type word of a live pointer's block can be. */
  lemma TypeFacts(t: Table, busy: map<int, int>, Ls: FragLists, p: int)
    requires Frags(t, busy, Ls) && Live(t, busy, Ls, p)
    ensures |Ls| == BLOCKLOG && p >= 4096 && BlockOf(p) in busy
    ensures var b := BlockOf(p);
      (Sz(t, b) == 0 && p == 4096 * b && Nx(t, b) == busy[b]) || (FragType(Sz(t, b)) && Nx(t, b) >= 0)
  {
    assert BlockOk(t, busy, Ls, BlockOf(p));
  }

  lemma GainedFacts(t: Table, busy: map<int, int>, Ls: FragLists, t': Table, busy': map<int, int>, Ls': FragLists,
                    p: int, r: int)
    requires Gained(t, busy, Ls, t', busy', Ls', r) && Live(t, busy, Ls, p)
    ensures Live(t', busy', Ls', p) && p != r && Live(t', busy', Ls', r)
      && Capacity(t', busy', p) == Capacity(t, busy, p)
  {
    hide Live, Capacity;
    assert Live(t', busy', Ls', p);
  }

  /** Writing into a live region leaves the lists alone. */
  lemma WriteKeepsChains(t: Table, own: Owners, busy: map<int, int>, Ls: FragLists, q: int, k: int, m: seq<byte>,
                         r: seq<byte>)
    requires Frags(t, busy, Ls) && Regions(own, busy) && Live(t, busy, Ls, q) && k <= Capacity(t, busy, q)
      && Chained(m, Ls) && Wrote(m, r, q, k)
    ensures Chained(r, Ls)
  {
    hide Frags, Regions, Live, Capacity, Chain, Head;
    FragsLength(t, busy, Ls);
    forall l {:trigger Ls[l]} | FragType(l) ensures Chain(r, Head(l), Ls[l]) {
      forall k0: nat | k0 <= |Ls[l]|
        ensures Apart(Node(Head(l), Ls[l], k0), q, k)
      {
        NodeUnheld(t, busy, Ls, m, l, k0);
        UnheldApart(t, own, busy, Ls, l, Node(Head(l), Ls[l], k0), q);
      }
      ChainOutside(m, r, q, k, Head(l), Ls[l]);
    }
  }

  lemma NodeUnheld(t: Table, busy: map<int, int>, Ls: FragLists, m: seq<byte>, l: int, k: nat)
    requires Frags(t, busy, Ls) && Chained(m, Ls) && FragType(l) && k <= |Ls[l]|
    ensures Unheld(t, busy, Ls, l, Node(Head(l), Ls[l], k))
  {
  }

  /** The same pointers are live, with the same capacities. */
  ghost predicate SamePointers(t: Table, busy: map<int, int>, Ls: FragLists, t': Table, busy': map<int, int>,
                               Ls': FragLists) {
    && (forall q {:trigger Live(t', busy', Ls', q)} :: Live(t', busy', Ls', q) <==> Live(t, busy, Ls, q))
    && (forall q {:trigger Capacity(t', busy', q)} :: Capacity(t', busy', q) == Capacity(t, busy, q))
  }

  lemma UndoneStep(t: Table, busy: map<int, int>, Ls: FragLists, counts: seq<int>, r: Table, b: int)
    requires Frags(t, busy, Ls) && Counted(t, busy, counts) && SameEntries(t, r, busy - {b}) && b in busy
      && Sz(t, b) == 0
    requires Sz(r, b) == 0 && Nx(r, b) == busy[b]
    ensures Frags(r, busy, Ls) && Counted(r, busy, counts) && SamePointers(t, busy, Ls, r, busy, Ls)
  {
    hide HasRun, Pow2, Distinct;
    LargeHeader(t, busy, Ls, b);
    assert (busy - {b})[b := busy[b]] == busy;
    RegionStep(t, busy, Ls, counts, r, b, b, busy[b]);
    assert forall s {:trigger Sz(r, s)} :: s in busy - {b} ==> Sz(r, s) == Sz(t, s);
    assert forall s {:trigger Sz(r, s)} :: s in busy ==> Sz(r, s) == Sz(t, s);
  }

  lemma LiveOf(t: Table, busy: map<int, int>, Ls: FragLists, t': Table, busy': map<int, int>, Ls': FragLists, p: int,
               r: int)
    requires Replaced(t, busy, Ls, t', busy', Ls', p, r)
    ensures Live(t', busy', Ls', r)
  {
  }

  lemma CopyNothing(m: seq<byte>, p: int, k: int)
    requires 0 <= p && 0 <= k && p + k <= |m|
    ensures Copied(m, p, m, p, k) && Wrote(m, m, p, k)
  {
  }

  lemma LargeCapacity(t: Table, busy: map<int, int>, b: int)
    requires b in busy && Sz(t, b) == 0
    ensures Capacity(t, busy, 4096 * b) == 4096 * busy[b]
  {
  }

  lemma CapacityOf(t: Table, busy: map<int, int>, p: int)
    requires BlockOf(p) in busy
    ensures Capacity(t, busy, p) == if Sz(t, BlockOf(p)) == 0 then 4096 * busy[BlockOf(p)] else Pow2(Sz(t, BlockOf(p)))
  {
  }

  lemma ShrinkMap(busy: map<int, int>, b: int, n: int)
    ensures (busy - {b})[b := n] == busy[b := n]
    ensures busy[b := n] - {b} == busy - {b}
  {
  }

  lemma SameBytes(t: Table, busy: map<int, int>, Ls: FragLists, m: seq<byte>, p: int, k: int)
    requires 0 <= p && 0 <= k && p + k <= |m|
    ensures OthersKept(t, busy, Ls, m, m, p) && Copied(m, p, m, p, k)
  {
  }

  lemma StayStep(t: Table, busy: map<int, int>, Ls: FragLists, p: int)
    requires Live(t, busy, Ls, p)
      || (|Ls| == BLOCKLOG && p % 4096 == 0 && p >= 0 && BlockOf(p) in busy && Sz(t, BlockOf(p)) == 0)
    ensures Replaced(t, busy, Ls, t, busy, Ls, p, p)
  {
  }

  lemma LiveAddress(t: Table, busy: map<int, int>, Ls: FragLists, p: int)
    requires Frags(t, busy, Ls) && Live(t, busy, Ls, p)
    ensures p >= 4096
  {
    LiveSlot(t, busy, Ls, p);
  }

  lemma IdleUndone(t: Table, busy: map<int, int>, Ls: FragLists)
    ensures SamePointers(t, busy, Ls, t, busy, Ls)
  {
  }

  lemma NothingYet(t: Table, Ls: FragLists, m: seq<byte>, counts: seq<int>)
    requires |Ls| == BLOCKLOG && (forall l :: 0 <= l < BLOCKLOG ==> Ls[l] == []) && |m| >= 4096
      && (forall x :: 0 <= x < |m| ==> m[x] == 0)
    requires |counts| == BLOCKLOG && forall l :: 0 <= l < BLOCKLOG ==> counts[l] == 0
    ensures Frags(t, map[], Ls) && Chained(m, Ls) && Counted(t, map[], counts)
    ensures forall p {:trigger Live(t, map[], Ls, p)} :: !Live(t, map[], Ls, p)
  {
    forall l {:trigger Ls[l]} | FragType(l) ensures Chain(m, Head(l), Ls[l]) {
      assert Word(m, Head(l)) == 0;
    }
  }
}
