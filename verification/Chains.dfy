/** The fragment lists as they lie in memory: a node has two words, next and prev, at the beginning of a free fragment,
    and the head of a list is such a node among the statics. Words are little-endian, so a chain is a property of the
    bytes. The four stores by which the source links a node in behind another, and the two by which it takes a stretch
    of nodes out, are shown to do that to the chain, to write nothing but the nodes next to the place, and to leave
    every other chain as it was, since no two nodes share a byte. */
module Chains {
  import opened Arithmetic
  import opened Lists

  const WORD_LIMIT := 0x1_0000_0000

  /** The little-endian 32-bit word at address a. */
  function Word(m: seq<byte>, a: int): int {
    if 0 <= a && a + 4 <= |m|
      then m[a] as int + 256 * m[a + 1] as int + 65536 * m[a + 2] as int + 16777216 * m[a + 3] as int else 0
  }

  function Stored(m: seq<byte>, a: int, v: int): (r: seq<byte>)
    requires 0 <= a && a + 4 <= |m| && 0 <= v < WORD_LIMIT
  {
    m[..a] + [v % 256, v / 256 % 256, v / 65536 % 256, v / 16777216] + m[a + 4..]
  }

  lemma StoredBytes(m: seq<byte>, a: int, v: int, r: seq<byte>)
    requires 0 <= a && a + 4 <= |m| && 0 <= v < WORD_LIMIT && r == Stored(m, a, v)
    ensures |r| == |m|
    ensures r[a] == v % 256 && r[a + 1] == v / 256 % 256 && r[a + 2] == v / 65536 % 256 && r[a + 3] == v / 16777216
    ensures forall x {:trigger r[x]} :: 0 <= x < |m| && !(a <= x < a + 4) ==> r[x] == m[x]
  {
  }

  lemma Digits(v: int)
    requires 0 <= v < WORD_LIMIT
    ensures v == v % 256 + 256 * (v / 256 % 256) + 65536 * (v / 65536 % 256) + 16777216 * (v / 16777216)
  {
    assert v == v % 256 + 256 * (v / 256);
    assert v / 256 == v / 256 % 256 + 256 * (v / 65536);
    assert v / 65536 == v / 65536 % 256 + 256 * (v / 16777216);
  }

  lemma StoredWord(m: seq<byte>, a: int, v: int, r: seq<byte>)
    requires 0 <= a && a + 4 <= |m| && 0 <= v < WORD_LIMIT && r == Stored(m, a, v)
    ensures |r| == |m| && Word(r, a) == v
    ensures forall x {:trigger Word(r, x)} :: x + 4 <= a || a + 4 <= x ==> Word(r, x) == Word(m, x)
    ensures forall x {:trigger r[x]} :: 0 <= x < |m| && !(a <= x < a + 4) ==> r[x] == m[x]
  {
    hide Stored;
    StoredBytes(m, a, v, r);
    Digits(v);
  }

  lemma StoredAligned(m: seq<byte>, a: int, v: int, r: seq<byte>)
    requires 0 <= a && a + 4 <= |m| && 0 <= v < WORD_LIMIT && r == Stored(m, a, v) && a % 4 == 0
    ensures |r| == |m| && Word(r, a) == v
    ensures forall x {:trigger Word(r, x)} :: x % 4 == 0 && x != a ==> Word(r, x) == Word(m, x)
    ensures forall x {:trigger r[x]} :: 0 <= x < |m| && !(a <= x < a + 4) ==> r[x] == m[x]
  {
    hide Word, Stored;
    StoredWord(m, a, v, r);
    forall x {:trigger Word(r, x)} | x % 4 == 0 && x != a ensures Word(r, x) == Word(m, x) {
      FourApart(x, a);
    }
  }

  lemma FourApart(x: int, a: int)
    requires x % 4 == 0 && a % 4 == 0 && x != a
    ensures x + 4 <= a || a + 4 <= x
  {
  }

  /** Node 0 of a list is its head; node k is its k-th element. */
  function Node(h: int, L: seq<int>, k: int): int {
    if 1 <= k <= |L| then L[k - 1] else h
  }

  /** Places where a two-word list node may live. */
  ghost predicate NodeAt(m: seq<byte>, a: int) {
    8 <= a && a % 8 == 0 && a + 8 <= |m|
  }

  ghost predicate Shape(m: seq<byte>, h: int, L: seq<int>) {
    && NodeAt(m, h) && Distinct(L)
    && (forall i :: 0 <= i < |L| ==> NodeAt(m, L[i]) && L[i] != h)
  }

  /** The nodes h, L[0], L[1], ... are linked forwards and end in null. */
  ghost predicate Forward(m: seq<byte>, h: int, L: seq<int>) {
    forall k {:trigger Node(h, L, k)} :: 0 <= k <= |L| ==> Word(m, Node(h, L, k)) == At(L, k)
  }

  /** Each element's second word names the node before it. */
  ghost predicate Backward(m: seq<byte>, h: int, L: seq<int>) {
    forall k {:trigger At(L, k)} :: 0 <= k < |L| ==> Word(m, At(L, k) + 4) == Node(h, L, k)
  }

  ghost predicate Chain(m: seq<byte>, h: int, L: seq<int>) {
    Shape(m, h, L) && Forward(m, h, L) && Backward(m, h, L)
  }

  /** No aligned word but those at a and b changed. */
  ghost predicate SameWords(m: seq<byte>, r: seq<byte>, a: int, b: int) {
    |r| == |m| && forall x {:trigger Word(r, x)} :: x % 4 == 0 && x != a && x != b ==> Word(r, x) == Word(m, x)
  }

  /** Elements [s, s + n) taken out. */
  function Cut(L: seq<int>, s: nat, n: nat): (r: seq<int>)
    requires s + n <= |L|
  { L[..s] + L[s + n..] }

  /** p put in at index s. */
  function Put(L: seq<int>, s: nat, p: int): (r: seq<int>)
    requires s <= |L|
  { L[..s] + [p] + L[s..] }

  lemma NodeFacts(m: seq<byte>, h: int, L: seq<int>, k: int)
    requires Shape(m, h, L) && 0 <= k <= |L|
    ensures NodeAt(m, Node(h, L, k))
    ensures k < |L| ==> NodeAt(m, At(L, k))
  {
    assert k < |L| ==> NodeAt(m, L[k]);
    if k > 0 { assert NodeAt(m, L[k - 1]); }
  }

  lemma NodesDiffer(m: seq<byte>, h: int, L: seq<int>, i: int, j: int)
    requires Shape(m, h, L) && 0 <= i <= |L| && 0 <= j <= |L| && i != j
    ensures Node(h, L, i) != Node(h, L, j)
    ensures At(L, i) != At(L, j)
  {
    if i < |L| { assert NodeAt(m, L[i]); }
    if j < |L| { assert NodeAt(m, L[j]); }
  }

  lemma Aligned(m: seq<byte>, a: int, b: int)
    requires NodeAt(m, a) && (NodeAt(m, b) || b == 0)
    ensures a % 4 == 0 && (a + 4) % 4 == 0 && a != b + 4 && a + 4 != b
  {
  }

  lemma CutNodes(h: int, L: seq<int>, s: nat, n: nat, k: int)
    requires s + n <= |L| && 1 <= n && 0 <= k <= |Cut(L, s, n)|
    ensures |Cut(L, s, n)| == |L| - n
    ensures Node(h, Cut(L, s, n), k) == Node(h, L, if k <= s then k else k + n)
    ensures At(Cut(L, s, n), k) == At(L, if k < s then k else k + n)
  {
  }

  lemma CutForward(m: seq<byte>, h: int, L: seq<int>, s: nat, n: nat, r: seq<byte>)
    requires Shape(m, h, L) && Forward(m, h, L) && s + n <= |L| && 1 <= n
    requires SameWords(m, r, Node(h, L, s), At(L, s + n) + 4) && Word(r, Node(h, L, s)) == At(L, s + n)
    ensures Forward(r, h, Cut(L, s, n))
  {
    hide Shape, Cut, Word, Node, At, NodeAt;
    var C := Cut(L, s, n);
    forall k {:trigger Node(h, C, k)} | 0 <= k <= |C| ensures Word(r, Node(h, C, k)) == At(C, k) {
      var i := if k <= s then k else k + n;
      CutNodes(h, L, s, n, k);
      if k != s {
        NodeFacts(m, h, L, i);
        TargetFacts(m, h, L, s + n);
        NodesDiffer(m, h, L, i, s);
        Aligned(m, Node(h, L, i), At(L, s + n));
      }
    }
  }

  lemma TargetFacts(m: seq<byte>, h: int, L: seq<int>, k: int)
    requires Shape(m, h, L) && 0 <= k <= |L|
    ensures NodeAt(m, At(L, k)) || At(L, k) == 0
    ensures At(L, k) == 0 <==> k == |L|
  {
    assert k < |L| ==> NodeAt(m, L[k]);
  }

  lemma CutBackward(m: seq<byte>, h: int, L: seq<int>, s: nat, n: nat, r: seq<byte>)
    requires Shape(m, h, L) && Backward(m, h, L) && s + n <= |L| && 1 <= n
    requires SameWords(m, r, Node(h, L, s), At(L, s + n) + 4)
    requires s + n < |L| ==> Word(r, At(L, s + n) + 4) == Node(h, L, s)
    ensures Backward(r, h, Cut(L, s, n))
  {
    hide Shape, Cut, Word, Node, At, NodeAt;
    var C := Cut(L, s, n);
    forall k {:trigger At(C, k)} | 0 <= k < |C| ensures Word(r, At(C, k) + 4) == Node(h, C, k) {
      var i := if k < s then k else k + n;
      CutNodes(h, L, s, n, k);
      if k != s {
        NodeFacts(m, h, L, i);
        NodeFacts(m, h, L, s);
        NodesDiffer(m, h, L, i, s + n);
        Aligned(m, At(L, i), Node(h, L, s));
      }
    }
  }

  lemma PutNodes(h: int, L: seq<int>, s: nat, p: int, k: int)
    requires s <= |L| && 0 <= k <= |L| + 1
    ensures |Put(L, s, p)| == |L| + 1
    ensures Node(h, Put(L, s, p), k) == if k == s + 1 then p else Node(h, L, if k <= s then k else k - 1)
    ensures At(Put(L, s, p), k) == if k == s then p else At(L, if k < s then k else k - 1)
  {
  }

  lemma PutForward(m: seq<byte>, h: int, L: seq<int>, s: nat, p: int, q: int, r: seq<byte>)
    requires Shape(m, h, L) && Forward(m, h, L) && s <= |L| && q == At(L, s) && NodeAt(m, p) && p != h && p !in L
    requires Word(r, Node(h, L, s)) == p && Word(r, p) == q
    requires forall x {:trigger Word(r, x)} ::
      x % 4 == 0 && x != Node(h, L, s) && x != p && x != p + 4 && x != q + 4 ==> Word(r, x) == Word(m, x)
    ensures Forward(r, h, Put(L, s, p))
  {
    hide Shape, Put, Word, Node, At, NodeAt;
    var C := Put(L, s, p);
    PutNodes(h, L, s, p, 0);
    forall k {:trigger Node(h, C, k)} | 0 <= k <= |C| ensures Word(r, Node(h, C, k)) == At(C, k) {
      var i := if k <= s then k else k - 1;
      PutNodes(h, L, s, p, k);
      if k != s && k != s + 1 {
        NodeFacts(m, h, L, i);
        TargetFacts(m, h, L, s);
        NodesDiffer(m, h, L, i, s);
        NodeNotIn(h, L, p, i);
        Aligned(m, Node(h, L, i), q);
        Aligned(m, Node(h, L, i), p);
      }
    }
  }

  lemma NodeNotIn(h: int, L: seq<int>, p: int, i: int)
    requires p != h && p !in L && 0 <= i <= |L|
    ensures Node(h, L, i) != p && (i < |L| ==> At(L, i) != p)
  {
  }

  lemma PutBackward(m: seq<byte>, h: int, L: seq<int>, s: nat, p: int, q: int, r: seq<byte>)
    requires Shape(m, h, L) && Backward(m, h, L) && s <= |L| && q == At(L, s) && NodeAt(m, p) && p != h && p !in L
    requires Word(r, p + 4) == Node(h, L, s) && (s < |L| ==> Word(r, q + 4) == p)
    requires forall x {:trigger Word(r, x)} ::
      x % 4 == 0 && x != Node(h, L, s) && x != p && x != p + 4 && x != q + 4 ==> Word(r, x) == Word(m, x)
    ensures Backward(r, h, Put(L, s, p))
  {
    hide Shape, Put, Word, Node, At, NodeAt;
    var C := Put(L, s, p);
    PutNodes(h, L, s, p, 0);
    forall k {:trigger At(C, k)} | 0 <= k < |C| ensures Word(r, At(C, k) + 4) == Node(h, C, k) {
      PutNodes(h, L, s, p, k);
      var i := if k < s then k else k - 1;
      if k != s && i != s {
        NodeFacts(m, h, L, i);
        NodeFacts(m, h, L, s);
        NodesDiffer(m, h, L, i, s);
        NodeNotIn(h, L, p, i);
        Aligned(m, At(L, i), Node(h, L, s));
        Aligned(m, At(L, i), p);
      }
    }
  }

  // ----- what a list operation leaves alone -----

  /** r differs from m at most in the two-word nodes at a, b and c. */
  ghost predicate OnlyNodes(m: seq<byte>, r: seq<byte>, a: int, b: int, c: int) {
    && |r| == |m|
    && (forall x {:trigger r[x]} :: 0 <= x < |m| && !(a <= x < a + 8) && !(b <= x < b + 8) && !(c <= x < c + 8) ==>
       r[x] == m[x])
  }

  lemma WordKept(m: seq<byte>, r: seq<byte>, a: int, b: int, c: int, x: int)
    requires OnlyNodes(m, r, a, b, c)
    requires (x + 4 <= a || a + 8 <= x) && (x + 4 <= b || b + 8 <= x) && (x + 4 <= c || c + 8 <= x)
    ensures Word(r, x) == Word(m, x)
  {
    if 0 <= x && x + 4 <= |m| {
      assert r[x] == m[x] && r[x + 1] == m[x + 1] && r[x + 2] == m[x + 2] && r[x + 3] == m[x + 3];
    }
  }

  ghost predicate Avoids(h: int, L: seq<int>, a: int) { a != h && a !in L }

  lemma ChainKept(m: seq<byte>, r: seq<byte>, a: int, b: int, c: int, h: int, L: seq<int>)
    requires Chain(m, h, L) && OnlyNodes(m, r, a, b, c)
    requires Avoids(h, L, a) && Avoids(h, L, b) && Avoids(h, L, c)
    requires NodeAt(m, a) && NodeAt(m, b) && (NodeAt(m, c) || c == 0)
    ensures Chain(r, h, L)
  {
    hide Word, Node, At, OnlyNodes, NodeAt;
    LengthKept(m, r, a, b, c);
    ShapeKept(m, r, h, L);
    forall k {:trigger Node(h, L, k)} | 0 <= k <= |L| ensures Word(r, Node(h, L, k)) == At(L, k) {
      NodeFacts(m, h, L, k);
      NodeAvoids(h, L, k, a);
      NodeAvoids(h, L, k, b);
      NodeAvoids(h, L, k, c);
      EightApart(m, Node(h, L, k), a);
      EightApart(m, Node(h, L, k), b);
      EightApart(m, Node(h, L, k), c);
      WordKept(m, r, a, b, c, Node(h, L, k));
    }
    forall k {:trigger At(L, k)} | 0 <= k < |L| ensures Word(r, At(L, k) + 4) == Node(h, L, k) {
      NodeFacts(m, h, L, k);
      NodeAvoids(h, L, k, a);
      NodeAvoids(h, L, k, b);
      NodeAvoids(h, L, k, c);
      EightApart(m, At(L, k), a);
      EightApart(m, At(L, k), b);
      EightApart(m, At(L, k), c);
      WordKept(m, r, a, b, c, At(L, k) + 4);
    }
  }

  lemma LengthKept(m: seq<byte>, r: seq<byte>, a: int, b: int, c: int)
    requires OnlyNodes(m, r, a, b, c)
    ensures |r| == |m|
  {
  }

  lemma ShapeKept(m: seq<byte>, r: seq<byte>, h: int, L: seq<int>)
    requires Shape(m, h, L) && |r| == |m|
    ensures Shape(r, h, L)
  {
    forall i | 0 <= i < |L| ensures NodeAt(r, L[i]) && L[i] != h { assert NodeAt(m, L[i]); }
  }

  lemma NodeAvoids(h: int, L: seq<int>, k: int, a: int)
    requires Avoids(h, L, a) && 0 <= k <= |L|
    ensures Node(h, L, k) != a && (k < |L| ==> At(L, k) != a)
  {
  }

  lemma EightApart(m: seq<byte>, x: int, a: int)
    requires NodeAt(m, x) && (NodeAt(m, a) || a == 0) && x != a
    ensures x + 8 <= a || a + 8 <= x
  {
  }

  /** Linking p in behind node s: the four stores of __malloc and __free. */
  lemma LinkStores(m: seq<byte>, h: int, L: seq<int>, s: nat, p: int, m1: seq<byte>, m2: seq<byte>, m3: seq<byte>,
                   r: seq<byte>)
    requires Chain(m, h, L) && |m| <= WORD_LIMIT && s <= |L| && NodeAt(m, p) && Avoids(h, L, p)
    requires ValidWord(m, Node(h, L, s)) && ValidWord(m, At(L, s) + 4) && At(L, s) + 4 < WORD_LIMIT
    requires m1 == Stored(m, p, At(L, s)) && m2 == Stored(m1, p + 4, Node(h, L, s))
      && m3 == Stored(m2, Node(h, L, s), p)
    requires r == if At(L, s) != 0 then Stored(m3, At(L, s) + 4, p) else m3
    ensures Chain(r, h, Put(L, s, p)) && OnlyNodes(m, r, Node(h, L, s), p, At(L, s))
    ensures Word(m3, p) == At(L, s) && Word(m2, p + 4) == Node(h, L, s) && Word(m, Node(h, L, s)) == At(L, s)
  {
    hide Word, Stored, Node, At, Put, Shape, NodeAt;
    var prev, q := Node(h, L, s), At(L, s);
    NodeFacts(m, h, L, s);
    TargetFacts(m, h, L, s);
    NodeAvoids(h, L, s, p);
    NodeTargetDiffer(m, h, L, s);
    NodeAligned(m, p);
    NodeAligned(m, prev);
    EightApart(m, p, prev);
    if q != 0 { TargetIn(L, s); EightApart(m, p, q); EightApart(m, prev, q); NodeAligned(m, q); }
    StoredAligned(m, p, q, m1);
    StoredAligned(m1, p + 4, prev, m2);
    StoredAligned(m2, prev, p, m3);
    if q != 0 { StoredAligned(m3, q + 4, p, r); }
    WordOf(m, h, L, s);
    assert OnlyNodes(m, r, prev, p, q);
    PutForward(m, h, L, s, p, q, r);
    PutBackward(m, h, L, s, p, q, r);
    PutShape(m, h, L, s, p, r);
  }

  lemma NodeAligned(m: seq<byte>, a: int)
    requires NodeAt(m, a)
    ensures a >= 8 && a + 8 <= |m| && a % 4 == 0 && (a + 4) % 4 == 0
  {
    MultipleOfEight(a);
  }

  lemma MultipleOfEight(a: int)
    requires a % 8 == 0
    ensures a % 4 == 0 && (a + 4) % 4 == 0
  {
    var k := a / 8;
    DivideBack(2 * k, 4);
    DivideBack(2 * k + 1, 4);
  }

  ghost predicate ValidWord(m: seq<byte>, a: int) { 0 <= a && a + 4 <= |m| }

  lemma WordOf(m: seq<byte>, h: int, L: seq<int>, s: nat)
    requires Forward(m, h, L) && s <= |L|
    ensures Word(m, Node(h, L, s)) == At(L, s)
  {
  }

  lemma NodeTargetDiffer(m: seq<byte>, h: int, L: seq<int>, s: nat)
    requires Shape(m, h, L) && s <= |L|
    ensures Node(h, L, s) != At(L, s)
  {
    assert s < |L| ==> NodeAt(m, L[s]);
  }

  lemma TargetIn(L: seq<int>, s: nat)
    requires s <= |L| && At(L, s) != 0
    ensures At(L, s) in L
  {
  }

  lemma PutShape(m: seq<byte>, h: int, L: seq<int>, s: nat, p: int, r: seq<byte>)
    requires Shape(m, h, L) && s <= |L| && NodeAt(m, p) && Avoids(h, L, p) && |r| == |m|
    ensures Shape(r, h, Put(L, s, p))
  {
    var C := Put(L, s, p);
    assert forall i {:trigger C[i]} :: 0 <= i < |C| ==> C[i] == if i == s then p else L[if i < s then i else i - 1];
    forall i | 0 <= i < |C| ensures NodeAt(r, C[i]) && C[i] != h {
      if i != s { assert NodeAt(m, L[if i < s then i else i - 1]); }
    }
  }

  lemma CutShape(m: seq<byte>, h: int, L: seq<int>, s: nat, n: nat, r: seq<byte>)
    requires Shape(m, h, L) && s + n <= |L| && |r| == |m|
    ensures Shape(r, h, Cut(L, s, n))
  {
    var C := Cut(L, s, n);
    assert forall i {:trigger C[i]} :: 0 <= i < |C| ==> C[i] == L[if i < s then i else i + n];
    forall i | 0 <= i < |C| ensures NodeAt(r, C[i]) && C[i] != h {
      assert NodeAt(m, L[if i < s then i else i + n]);
    }
  }

  /** Taking n nodes out: the two stores of __malloc and __free. */
  lemma UnlinkStores(m: seq<byte>, h: int, L: seq<int>, s: nat, n: nat, m1: seq<byte>, r: seq<byte>)
    requires Chain(m, h, L) && |m| <= WORD_LIMIT && s + n <= |L| && n >= 1
    requires ValidWord(m, Node(h, L, s)) && ValidWord(m, At(L, s + n) + 4) && 0 <= At(L, s + n)
      && At(L, s + n) + 4 < WORD_LIMIT
    requires m1 == Stored(m, Node(h, L, s), At(L, s + n))
    requires r == if At(L, s + n) != 0 then Stored(m1, At(L, s + n) + 4, Node(h, L, s)) else m1
    ensures Chain(r, h, Cut(L, s, n)) && OnlyNodes(m, r, Node(h, L, s), Node(h, L, s), At(L, s + n))
  {
    hide Word, Stored, Node, At, Cut, Shape, NodeAt;
    var prev, q := Node(h, L, s), At(L, s + n);
    NodeFacts(m, h, L, s);
    TargetFacts(m, h, L, s + n);
    NodeTargetApart(m, h, L, s, n);
    NodeAligned(m, prev);
    if q != 0 { EightApart(m, prev, q); NodeAligned(m, q); }
    StoredAligned(m, prev, q, m1);
    if q != 0 { StoredAligned(m1, q + 4, prev, r); }
    assert OnlyNodes(m, r, prev, prev, q);
    CutForward(m, h, L, s, n, r);
    CutBackward(m, h, L, s, n, r);
    CutShape(m, h, L, s, n, r);
  }

  lemma NodeTargetApart(m: seq<byte>, h: int, L: seq<int>, s: nat, n: nat)
    requires Shape(m, h, L) && s + n <= |L|
    ensures Node(h, L, s) != At(L, s + n)
  {
    assert s + n < |L| ==> NodeAt(m, L[s + n]);
  }

  lemma ChainFacts(m: seq<byte>, h: int, L: seq<int>, k: nat)
    requires Chain(m, h, L) && k <= |L| && |m| <= WORD_LIMIT
    ensures ValidWord(m, Node(h, L, k)) && 0 <= Node(h, L, k) < WORD_LIMIT && Word(m, Node(h, L, k)) == At(L, k)
    ensures ValidWord(m, At(L, k) + 4) && 0 <= At(L, k) && At(L, k) + 4 < WORD_LIMIT
    ensures k < |L| ==> Word(m, At(L, k) + 4) == Node(h, L, k) && NodeAt(m, At(L, k)) && At(L, k) != 0
  {
    NodeFacts(m, h, L, k);
    assert NodeAt(m, h);
  }

  ghost predicate Apart(a: int, q: int, k: int) { a + 8 <= q || q + k <= a }

  /** A chain none of whose nodes meets the k bytes from q survives any change of those bytes. */
  lemma ChainOutside(m: seq<byte>, r: seq<byte>, q: int, k: int, h: int, L: seq<int>)
    requires Chain(m, h, L) && |r| == |m|
      && forall x {:trigger r[x]} :: 0 <= x < |m| && !(q <= x < q + k) ==> r[x] == m[x]
    requires forall i: nat {:trigger Node(h, L, i)} :: i <= |L| ==> Apart(Node(h, L, i), q, k)
    ensures Chain(r, h, L)
  {
    hide Word;
    ShapeKept(m, r, h, L);
    forall i {:trigger Node(h, L, i)} | 0 <= i <= |L| ensures Word(r, Node(h, L, i)) == At(L, i) {
      WordOutside(m, r, q, k, Node(h, L, i));
    }
    forall i {:trigger At(L, i)} | 0 <= i < |L| ensures Word(r, At(L, i) + 4) == Node(h, L, i) {
      assert Node(h, L, i + 1) == At(L, i);
      WordOutside(m, r, q, k, At(L, i) + 4);
    }
  }

  lemma WordOutside(m: seq<byte>, r: seq<byte>, q: int, k: int, a: int)
    requires |r| == |m| && forall x {:trigger r[x]} :: 0 <= x < |m| && !(q <= x < q + k) ==> r[x] == m[x]
    requires a + 4 <= q || q + k <= a
    ensures Word(r, a) == Word(m, a)
  {
    if 0 <= a && a + 4 <= |m| {
      assert r[a] == m[a] && r[a + 1] == m[a + 1] && r[a + 2] == m[a + 2] && r[a + 3] == m[a + 3];
    }
  }
}
