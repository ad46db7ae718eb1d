/** Fragments of a block, of the types 3 to 11 of lib/malloc.c: their addresses and sizes, and the runs that the free
    ones of a block form in the list of their type. */
module Fragments {
  import opened Arithmetic
  import opened FreeList
  import opened Blocks
  import opened Chains

  const BLOCKSIZE := 4096
  const BLOCKLOG := 12

  /** Addresses count from one block below the heap base, so block b starts at 4096 * b. */
  function BlockOf(p: int): int { p / 4096 }
  function Offset(p: int): int { p % 4096 }

  function Pow2(l: int): (r: int)
    ensures r >= 1
  { if l <= 0 then 1 else 2 * Pow2(l - 1) }

  lemma Pow2Table()
    ensures Pow2(2) == 4 && Pow2(3) == 8 && Pow2(4) == 16 && Pow2(5) == 32 && Pow2(6) == 64 && Pow2(7) == 128
    ensures Pow2(8) == 256 && Pow2(9) == 512 && Pow2(10) == 1024 && Pow2(11) == 2048 && Pow2(1) == 2
  {
  }

  /** Fragments per block of type l, the expression BLOCKSIZE >> l. */
  function Count(l: int): int { BLOCKSIZE / Pow2(l) }

  predicate FragType(l: int) { 3 <= l <= 11 }

  lemma SizeFacts(l: int)
    requires FragType(l)
    ensures Pow2(l) * Count(l) == 4096 && 8 <= Pow2(l) <= 2048 && Pow2(l) % 8 == 0 && 2 <= Count(l) <= 512
  {
    Pow2Table();
  }

  lemma Multiples(s: int, n: int, i: int)
    requires s >= 1 && s % 8 == 0 && s * n == 4096 && 0 <= i < n
    ensures 0 <= i * s && i * s + s <= 4096 && (i * s) % 8 == 0 && (i * s) % s == 0 && (i * s) / s == i
  {
    var k := s / 8;
    assert i * s == 8 * (i * k);
    assert (i + 1) * s <= n * s;
    DivideBack(i, s);
  }

  lemma Place(b: int, x: int)
    requires b >= 0 && 0 <= x < 4096
    ensures BlockOf(4096 * b + x) == b && Offset(4096 * b + x) == x
  {
  }

  lemma PlaceAligned(b: int, x: int)
    requires x % 8 == 0
    ensures (4096 * b + x) % 8 == 0
  {
    assert 4096 * b + x == 8 * (512 * b + x / 8);
  }

  lemma FragAddress(b: int, l: int, i: int)
    requires b >= 0 && FragType(l) && 0 <= i < Count(l)
    ensures var p := 4096 * b + i * Pow2(l);
      (BlockOf(p) == b && Offset(p) == i * Pow2(l) && Offset(p) % Pow2(l) == 0
       && Offset(p) / Pow2(l) == i && p % 8 == 0 && Offset(p) + Pow2(l) <= 4096)
  {
    hide Pow2, Count, BlockOf, Offset;
    SizeFacts(l);
    Multiples(Pow2(l), Count(l), i);
    Place(b, i * Pow2(l));
    PlaceAligned(b, i * Pow2(l));
  }

  lemma FragIndex(p: int, l: int)
    requires p >= 0 && FragType(l) && Offset(p) % Pow2(l) == 0
    ensures var i := Offset(p) / Pow2(l); 0 <= i < Count(l) && p == 4096 * BlockOf(p) + i * Pow2(l)
    ensures p % 8 == 0 && Offset(p) + Pow2(l) <= 4096
  {
    hide Pow2, Count, BlockOf, Offset;
    var s, n, i := Pow2(l), Count(l), Offset(p) / Pow2(l);
    SizeFacts(l);
    Parts(p);
    assert Offset(p) == i * s by { DivMod(Offset(p), s); }
    Quotient(i, s, n);
    Multiples(s, n, i);
    PlaceAligned(BlockOf(p), i * s);
  }

  lemma Parts(p: int)
    ensures p == 4096 * BlockOf(p) + Offset(p) && 0 <= Offset(p) < 4096
  {
  }

  lemma Quotient(i: int, s: int, n: int)
    requires s >= 1 && s * n == 4096 && 0 <= i * s < 4096
    ensures 0 <= i < n
  {
    assert i >= n ==> i * s >= n * s;
    assert i <= -1 ==> i * s <= -s;
  }

  // ----- runs -----

  /** Of the list L exactly the n elements from s lie in block b. */
  ghost predicate RunAt(L: seq<int>, b: int, s: int, n: int) {
    && 0 <= s && 0 <= n && s + n <= |L|
    && forall i {:trigger L[i]} :: 0 <= i < |L| ==> (BlockOf(L[i]) == b <==> s <= i < s + n)
  }

  /** Block b's n elements are consecutive in L and the first of them is f. */
  ghost predicate HasRun(L: seq<int>, b: int, n: int, f: int) {
    exists s :: RunAt(L, b, s, n) && (n > 0 ==> L[s] == f)
  }

  lemma RunCutOther(L: seq<int>, s: nat, k: nat, b: int, c: int, n: int, f: int)
    requires s + k <= |L| && b != c && HasRun(L, c, n, f)
    requires forall i {:trigger L[i]} :: s <= i < s + k ==> BlockOf(L[i]) == b
    ensures HasRun(Cut(L, s, k), c, n, f)
  {
    var t :| RunAt(L, c, t, n) && (n > 0 ==> L[t] == f);
    var C := Cut(L, s, k);
    assert forall i {:trigger C[i]} :: 0 <= i < |C| ==> C[i] == L[if i < s then i else i + k];
    if n == 0 {
      assert RunAt(C, c, 0, 0);
    } else if t < s {
      assert k == 0 || BlockOf(L[s]) == b;
      assert RunAt(C, c, t, n);
    } else {
      assert k == 0 || BlockOf(L[s + k - 1]) == b;
      assert RunAt(C, c, t - k, n);
    }
  }

  lemma RunCutFirst(L: seq<int>, b: int, n: int)
    requires RunAt(L, b, 0, n) && n >= 1
    ensures HasRun(Cut(L, 0, 1), b, n - 1, if n > 1 then L[1] else 0)
  {
    var C := Cut(L, 0, 1);
    assert forall i {:trigger C[i]} :: 0 <= i < |C| ==> C[i] == L[i + 1];
    assert RunAt(C, b, 0, n - 1);
  }

  lemma RunPutOther(L: seq<int>, s: nat, p: int, b: int, c: int, n: int, f: int)
    requires s <= |L| && BlockOf(p) == b && b != c && HasRun(L, c, n, f)
    requires s == 0 || BlockOf(L[s - 1]) == b
    ensures HasRun(Put(L, s, p), c, n, f)
  {
    var t :| RunAt(L, c, t, n) && (n > 0 ==> L[t] == f);
    var C := Put(L, s, p);
    assert forall i {:trigger C[i]} :: 0 <= i < |C| ==> C[i] == if i == s then p else L[if i < s then i else i - 1];
    if n == 0 {
      assert RunAt(C, c, 0, 0);
    } else if t < s {
      assert RunAt(C, c, t, n);
    } else {
      assert RunAt(C, c, t + 1, n);
    }
  }

  lemma RunPutSecond(L: seq<int>, s: nat, p: int, b: int, n: int)
    requires RunAt(L, b, s, n) && n >= 1 && BlockOf(p) == b
    ensures HasRun(Put(L, s + 1, p), b, n + 1, L[s])
  {
    var C := Put(L, s + 1, p);
    assert forall i {:trigger C[i]} ::
      0 <= i < |C| ==> C[i] == if i == s + 1 then p else L[if i < s + 1 then i else i - 1];
    assert RunAt(C, b, s, n + 1);
  }

  lemma RunPutFront(L: seq<int>, p: int, b: int)
    requires HasRun(L, b, 0, 0) && BlockOf(p) == b
    ensures HasRun(Put(L, 0, p), b, 1, p)
  {
    var t :| RunAt(L, b, t, 0);
    var C := Put(L, 0, p);
    assert forall i {:trigger C[i]} :: 0 <= i < |C| ==> C[i] == if i == 0 then p else L[i - 1];
    assert RunAt(C, b, 0, 1);
  }

  lemma RunCutAll(L: seq<int>, s: nat, b: int, n: nat)
    requires RunAt(L, b, s, n)
    ensures forall i {:trigger Cut(L, s, n)[i]} :: 0 <= i < |Cut(L, s, n)| ==> BlockOf(Cut(L, s, n)[i]) != b
  {
    var C := Cut(L, s, n);
    assert forall i {:trigger C[i]} :: 0 <= i < |C| ==> C[i] == L[if i < s then i else i + n];
  }
}
