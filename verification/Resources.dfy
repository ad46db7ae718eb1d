/** kernel/resource.c: the table of resource identifiers, with its free entries threaded through their own data
    words. */
module Resources {
  import opened Lists

  const RSRC_NONE := 0
  const RSRC_TASK := 1
  const RSRC_PORT := 3
  const RSRC_SEM := 4

  /** A table entry; the second word is a data pointer or, in a free entry, the next free identifier. */
  datatype Resource = Resource(kind: int, word: int)

  datatype Binding = Binding(kind: int, data: int)

  /** F is threaded through the entries from its first identifier and ends at 0. */
  ghost predicate ThreadedFree(rmap: seq<Resource>, F: seq<int>) {
    forall k {:trigger F[k]} :: 0 <= k < |F| ==> 1 <= F[k] < |rmap| && rmap[F[k]] == Resource(RSRC_NONE, At(F, k + 1))
  }

  ghost predicate Names(rmap: seq<Resource>, id: int) { 0 <= id < |rmap| && rmap[id].kind != RSRC_NONE }

  ghost predicate Complete(rmap: seq<Resource>, F: seq<int>) {
    forall id {:trigger Names(rmap, id)} :: 1 <= id < |rmap| && !Names(rmap, id) ==> id in F
  }

  /** F is the free list: it starts at rfree, is threaded through the entries, ends at 0, has no repetition, and
      consists of exactly the identifiers from 1 on that name nothing. */
  ghost predicate FreeList(rmap: seq<Resource>, rfree: int, F: seq<int>) {
    rfree == At(F, 0) && ThreadedFree(rmap, F) && Distinct(F) && Complete(rmap, F) && |rmap| >= 2 && !Names(rmap, 0)
  }

  /** What the table means: a finite partial map from identifiers to bindings. */
  ghost function View(rmap: seq<Resource>): (m: map<int, Binding>)
    ensures forall id {:trigger id in m} :: id in m <==> 0 <= id < |rmap| && rmap[id].kind != RSRC_NONE
    ensures forall id {:trigger m[id]} :: id in m ==> m[id] == Binding(rmap[id].kind, rmap[id].word)
  { map id | 0 <= id < |rmap| && rmap[id].kind != RSRC_NONE :: Binding(rmap[id].kind, rmap[id].word) }

  ghost function IdOf(ids: map<int, int>, x: int): int { if x in ids then ids[x] else 0 }

  /** The identifiers of one kind and the live structures of that kind correspond; a structure that was made when the
      table was full has the identifier 0. */
  ghost predicate Named(B: map<int, Binding>, kind: int, live: set<int>, ids: map<int, int>) {
    && 0 !in B && ids.Keys == live
    && (forall id {:trigger id in B} :: id in B && B[id].kind == kind ==>
       B[id].data in live && IdOf(ids, B[id].data) == id)
    && forall x {:trigger IdOf(ids, x)} ::
       x in live && IdOf(ids, x) != 0 ==> IdOf(ids, x) in B && B[IdOf(ids, x)] == Binding(kind, x)
  }

  /** A new structure gets a new identifier, or none. */
  lemma NewName(B: map<int, Binding>, kind: int, live: set<int>, ids: map<int, int>, x: int, id: int,
                B': map<int, Binding>)
    requires Named(B, kind, live, ids) && x !in live
    requires if id == 0 then B' == B else id !in B && B' == B[id := Binding(kind, x)]
    ensures Named(B', kind, live + {x}, ids[x := id])
  {
    var ids' := ids[x := id];
    forall i {:trigger i in B'} | i in B' && B'[i].kind == kind
      ensures B'[i].data in live + {x} && IdOf(ids', B'[i].data) == i
    {
      if i != id || id == 0 { assert i in B; }
    }
    forall y {:trigger IdOf(ids', y)} | y in live + {x} && IdOf(ids', y) != 0
      ensures IdOf(ids', y) in B' && B'[IdOf(ids', y)] == Binding(kind, y)
    {
      if y != x { assert IdOf(ids, y) != 0; }
    }
  }

  /** The bindings of one kind are the same. */
  ghost predicate SameKind(B: map<int, Binding>, B': map<int, Binding>, kind: int) {
    forall id {:trigger id in B'} ::
      (id in B' && B'[id].kind == kind <==> id in B && B[id].kind == kind)
        && (id in B' && B'[id].kind == kind ==> B'[id] == B[id])
  }

  lemma BindOther(B: map<int, Binding>, id: int, b: Binding, kind: int)
    requires id !in B && b.kind != kind
    ensures SameKind(B, B[id := b], kind)
  {
  }

  lemma UnbindOther(B: map<int, Binding>, id: int, kind: int)
    requires id in B ==> B[id].kind != kind
    ensures SameKind(B, B - {id}, kind)
  {
  }

  /** Bindings of other kinds do not matter. */
  lemma OtherNames(B: map<int, Binding>, kind: int, live: set<int>, ids: map<int, int>, B': map<int, Binding>)
    requires Named(B, kind, live, ids) && 0 !in B' && SameKind(B, B', kind)
    ensures Named(B', kind, live, ids)
  {
    forall x {:trigger IdOf(ids, x)} | x in live && IdOf(ids, x) != 0
      ensures IdOf(ids, x) in B' && B'[IdOf(ids, x)] == Binding(kind, x)
    {
      assert IdOf(ids, x) in B;
      assert IdOf(ids, x) in B';
    }
  }

  lemma NameGone(B: map<int, Binding>, kind: int, live: set<int>, ids: map<int, int>, x: int)
    requires Named(B, kind, live, ids) && x in live && IdOf(ids, x) != 0
    ensures Named(B - {IdOf(ids, x)}, kind, live - {x}, ids - {x})
  {
    var id, ids' := IdOf(ids, x), ids - {x};
    var B' := B - {id};
    forall y {:trigger IdOf(ids', y)} | y in live - {x} && IdOf(ids', y) != 0
      ensures IdOf(ids', y) in B' && B'[IdOf(ids', y)] == Binding(kind, y)
    {
      assert IdOf(ids, y) == IdOf(ids', y);
    }
    forall i {:trigger i in B'} | i in B' && B'[i].kind == kind
      ensures B'[i].data in live - {x} && IdOf(ids', B'[i].data) == i
    {
      assert i in B;
    }
  }

  lemma Popped(rmap: seq<Resource>, F: seq<int>, e: Resource)
    requires ThreadedFree(rmap, F) && Distinct(F) && Complete(rmap, F) && |F| > 0 && e.kind != RSRC_NONE
    ensures 1 <= F[0] < |rmap| && rmap[F[0]] == Resource(RSRC_NONE, At(F[1..], 0))
    ensures ThreadedFree(rmap[F[0] := e], F[1..]) && Distinct(F[1..]) && Complete(rmap[F[0] := e], F[1..])
  {
    var G := F[1..];
    assert 1 <= F[0] < |rmap|;
    var r := rmap[F[0] := e];
    forall k {:trigger G[k]} | 0 <= k < |G| ensures 1 <= G[k] < |r| && r[G[k]] == Resource(RSRC_NONE, At(G, k + 1)) {
      assert G[k] == F[k + 1] && F[0] != F[k + 1];
    }
    forall id {:trigger Names(r, id)} | 1 <= id < |r| && !Names(r, id) ensures id in G {
      assert !Names(rmap, id) && id in F;
      assert F == [F[0]] + G;
    }
  }

  lemma PushedThreaded(rmap: seq<Resource>, F: seq<int>, id: int)
    requires ThreadedFree(rmap, F) && 1 <= id < |rmap| && rmap[id].kind != RSRC_NONE
    ensures ThreadedFree(rmap[id := Resource(RSRC_NONE, At(F, 0))], [id] + F)
  {
    var r, G := rmap[id := Resource(RSRC_NONE, At(F, 0))], [id] + F;
    forall k {:trigger G[k]} | 0 <= k < |G| ensures 1 <= G[k] < |r| && r[G[k]] == Resource(RSRC_NONE, At(G, k + 1)) {
      if k > 0 { assert G[k] == F[k - 1]; }
    }
  }

  lemma Pushed(rmap: seq<Resource>, F: seq<int>, id: int)
    requires ThreadedFree(rmap, F) && Distinct(F) && Complete(rmap, F) && 1 <= id < |rmap| && rmap[id].kind != RSRC_NONE
    ensures Distinct([id] + F) && Complete(rmap[id := Resource(RSRC_NONE, At(F, 0))], [id] + F)
  {
    hide At;
    var r, G := rmap[id := Resource(RSRC_NONE, At(F, 0))], [id] + F;
    forall i, j | 0 <= i < j < |G| ensures G[i] != G[j] {
      assert G[j] == F[j - 1];
      if i > 0 { assert G[i] == F[i - 1]; }
    }
    forall x {:trigger Names(r, x)} | 1 <= x < |r| && !Names(r, x) ensures x in G {
      assert G[0] == id;
      if x != id { assert !Names(rmap, x) && x in F; }
    }
  }

  /** Every identifier is in use. */
  ghost predicate Full(B: map<int, Binding>, rmax: int) { forall id {:trigger id in B} :: 1 <= id < rmax ==> id in B }

  lemma NoneFree(rmap: seq<Resource>, F: seq<int>)
    requires ThreadedFree(rmap, F) && Complete(rmap, F) && At(F, 0) == 0
    ensures forall id :: 1 <= id < |rmap| ==> id in View(rmap)
  {
    assert forall k {:trigger F[k]} :: 0 <= k < |F| ==> F[k] >= 1;
    forall id | 1 <= id < |rmap| ensures id in View(rmap) { assert Names(rmap, id); }
  }

  ghost function Ascending(n: nat): (F: seq<int>)
    ensures |F| == n && forall k {:trigger F[k]} :: 0 <= k < n ==> F[k] == k + 1
  { seq(n, k requires 0 <= k < n => k + 1) }

  lemma AllFree(rmap: seq<Resource>, F: seq<int>)
    requires |rmap| >= 2 && F == Ascending(|rmap| - 1)
    requires forall k {:trigger rmap[k]} ::
      0 <= k < |rmap| ==> rmap[k] == Resource(RSRC_NONE, if k == |rmap| - 1 then 0 else k + 1)
    ensures FreeList(rmap, 1, F) && View(rmap) == map[]
  {
    hide Ascending;
    assert forall k {:trigger F[k]} :: 0 <= k < |F| ==> rmap[F[k]] == Resource(RSRC_NONE, At(F, k + 1));
    forall id {:trigger Names(rmap, id)} | 1 <= id < |rmap|
      ensures id in F && !Names(rmap, id)
    {
      assert F[id - 1] == id;
    }
  }

  class ResourceTable {
    const rmap: array<Resource>
    var rfree: int
    ghost var F: seq<int>

    ghost predicate Valid()
      reads this, rmap
    { FreeList(rmap[..], rfree, F) }

    ghost function Bound(): map<int, Binding>
      reads this, rmap
    { View(rmap[..]) }

    /** rsrc_init */
    constructor (rmax: int)
      requires rmax >= 2
      ensures Valid() && fresh(rmap) && rmap.Length == rmax && Bound() == map[]
    {
      var table := new Resource[rmax](_ => Resource(RSRC_NONE, 0));
      rmap, rfree := table, 1;
      F := Ascending(rmax - 1);
      new;
      var i := 0;
      while i < rmax
        invariant 0 <= i <= rmax && rmap.Length == rmax
        invariant forall k {:trigger rmap[k]} :: 0 <= k < i ==> rmap[k] == Resource(RSRC_NONE, k + 1)
        modifies rmap
      {
        rmap[i] := Resource(RSRC_NONE, i + 1);
        i := i + 1;
      }
      rmap[rmax - 1] := Resource(RSRC_NONE, 0);
      AllFree(rmap[..], F);
    }

    /** rsrc_find: an unsigned comparison, so a negative identifier is out of range. */
    method Find(kind: int, id: int) returns (data: int)
      requires Valid() && kind != RSRC_NONE
      ensures data == if id in Bound() && Bound()[id].kind == kind then Bound()[id].data else 0
    {
      if 0 <= id < rmap.Length && rmap[id].kind == kind {
        data := rmap[id].word;
      } else {
        data := 0;
      }
    }

    /** rsrc_new */
    method New(kind: int, data: int) returns (id: int)
      requires Valid() && kind != RSRC_NONE
      modifies this, rmap
      ensures Valid()
      ensures id == 0 <==> Full(old(Bound()), rmap.Length)
      ensures id == 0 ==> Bound() == old(Bound())
      ensures id != 0 ==>
        1 <= id < rmap.Length && id !in old(Bound()) && Bound() == old(Bound())[id := Binding(kind, data)]
    {
      ghost var was := rmap[..];
      if rfree != 0 {
        Popped(was, F, Resource(kind, data));
        id := rfree;
        rfree := rmap[rfree].word;
        rmap[id] := Resource(kind, data);
        F := F[1..];
        assert Bound() == old(Bound())[id := Binding(kind, data)];
        assert id !in old(Bound());
      } else {
        id := 0;
        NoneFree(was, F);
      }
    }

    /** rsrc_del: nothing happens to an identifier that names nothing. */
    method Delete(id: int)
      requires Valid()
      modifies this, rmap
      ensures Valid() && Bound() == old(Bound()) - {id}
    {
      if 0 <= id < rmap.Length && rmap[id].kind != RSRC_NONE {
        PushedThreaded(rmap[..], F, id);
        Pushed(rmap[..], F, id);
        rmap[id] := Resource(RSRC_NONE, rfree);
        rfree := id;
        F := [id] + F;
      }
    }
  }
}
