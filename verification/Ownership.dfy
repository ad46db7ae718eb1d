/** Which frame is mapped where: the invariant behind process and task creation, brk and cleanup. */
module Ownership {
  import opened FirstFit
  import opened PageTables

  const VIDEO := 0xB0
  const VIDEO_END := 0xC2

  predicate Video(f: int) { VIDEO <= f < VIDEO_END }

  datatype Place = User(space: int, slot: int) | Kernel(slot: int) | Nowhere

  /** What a page of kernel memory holds: an address space or a thread, by address. */
  datatype Object = Space(a: int) | Thread(t: int) | Other

  ghost function PlaceOf(owner: map<int, Place>, f: int): Place { if f in owner then owner[f] else Nowhere }

  ghost function ObjectOf(objects: map<int, Object>, i: int): Object { if i in objects then objects[i] else Other }

  ghost function UserEntry(tables: map<int, seq<int>>, a: int, i: int): int
  { if a in tables then At(tables[a], i) else 0 }

  function HighSlot(virt: int): int { (virt - HIGH) / PAGE }

  /** Slot i of address space a maps a frame that is in use and mapped nowhere else, or its part of video memory. */
  ghost predicate UserSlotOk(pmat: seq<bv8>, tables: map<int, seq<int>>, owner: map<int, Place>, a: int, i: int) {
    var e := UserEntry(tables, a, i);
    e != 0 ==>
      if Video(FrameOf(e)) then i == FrameOf(e) else Used(pmat, FrameOf(e)) && PlaceOf(owner, FrameOf(e)) == User(a, i)
  }

  ghost predicate UsersOk(pmat: seq<bv8>, tables: map<int, seq<int>>, owner: map<int, Place>) {
    forall a, i {:trigger UserSlotOk(pmat, tables, owner, a, i)} :: UserSlotOk(pmat, tables, owner, a, i)
  }

  /** A frame that two user slots map is video memory, or the two are one slot of one address space and the frame is in
      use. */
  lemma MappedOnce(pmat: seq<bv8>, tables: map<int, seq<int>>, owner: map<int, Place>, a: int, i: int, b: int, j: int)
    requires UsersOk(pmat, tables, owner) && UserEntry(tables, a, i) != 0 && UserEntry(tables, b, j) != 0
    requires FrameOf(UserEntry(tables, a, i)) == FrameOf(UserEntry(tables, b, j))
    ensures i == j && (Video(i) || (a == b && Used(pmat, FrameOf(UserEntry(tables, a, i)))))
  {
    hide Used, FrameOf;
    assert UserSlotOk(pmat, tables, owner, a, i) && UserSlotOk(pmat, tables, owner, b, j);
  }

  /** The same of the kernel's table, except for the slots that were mapped at boot. */
  ghost predicate HighSlotOk(pmat: seq<bv8>, high: seq<int>, owner: map<int, Place>, boot: set<int>, i: int) {
    var e := At(high, i);
    e != 0 && i !in boot ==> !Video(FrameOf(e)) && Used(pmat, FrameOf(e)) && PlaceOf(owner, FrameOf(e)) == Kernel(i)
  }

  /** What was mapped at boot stays mapped. */
  ghost predicate BootOk(high: seq<int>, boot: set<int>)
  { forall i {:trigger At(high, i)} :: i in boot ==> At(high, i) != 0 }

  ghost predicate HighOk(pmat: seq<bv8>, high: seq<int>, owner: map<int, Place>, boot: set<int>) {
    |high| == SLOTS && BootOk(high, boot) && forall i {:trigger HighSlotOk(pmat, high, owner, boot, i)} ::
      HighSlotOk(pmat, high, owner, boot, i)
  }

  /** Video memory is never free, and every address space maps it in its own place. */
  ghost predicate VideoOk(pmat: seq<bv8>, tables: map<int, seq<int>>) {
    && (forall f {:trigger Used(pmat, f)} :: Video(f) ==> Used(pmat, f))
    && forall a, i {:trigger UserEntry(tables, a, i)} ::
       a in tables && Video(i) ==> UserEntry(tables, a, i) != 0 && FrameOf(UserEntry(tables, a, i)) == i
  }

  /** An address space occupies two pages of kernel memory on consecutive frames. */
  ghost predicate SpaceOk(high: seq<int>, boot: set<int>, objects: map<int, Object>, tables: map<int, seq<int>>, a: int)
  {
    var s := HighSlot(a);
    && a in tables && |tables[a]| == SLOTS && a % PAGE == 0 && a >= HIGH && s + 2 <= SLOTS && s !in boot
       && s + 1 !in boot
    && At(high, s) != 0 && At(high, s + 1) != 0 && FrameOf(At(high, s + 1)) == FrameOf(At(high, s)) + 1
    && ObjectOf(objects, s) == Space(a) && ObjectOf(objects, s + 1) == Space(a)
  }

  ghost predicate ThreadOk(high: seq<int>, boot: set<int>, objects: map<int, Object>, tables: map<int, seq<int>>,
                           tasks: map<int, int>, t: int) {
    var s := HighSlot(t);
    && t in tasks && tasks[t] in tables && t % PAGE == 0 && t >= HIGH && s + 1 <= SLOTS && s !in boot
       && At(high, s) != 0 && ObjectOf(objects, s) == Thread(t)
  }

  ghost predicate ObjectsOk(high: seq<int>, boot: set<int>, objects: map<int, Object>, tables: map<int, seq<int>>,
                            tasks: map<int, int>) {
    && (forall a {:trigger a in tables} :: a in tables ==> SpaceOk(high, boot, objects, tables, a))
    && forall t {:trigger t in tasks} :: t in tasks ==> ThreadOk(high, boot, objects, tables, tasks, t)
  }

  // ----- mapping -----

  ghost predicate AllFree(pmat: seq<bv8>, f: int, n: int)
  { forall g {:trigger Used(pmat, g)} :: f <= g < f + n ==> !Used(pmat, g) }

  ghost function Owning(owner: map<int, Place>, f: int, n: int, a: int, s: int): (r: map<int, Place>)
    ensures forall g {:trigger PlaceOf(r, g)} ::
      PlaceOf(r, g) == if f <= g < f + n then User(a, s + g - f) else PlaceOf(owner, g)
    decreases n
  {
    if n <= 0 then owner
    else
      var fewer := Owning(owner, f, n - 1, a, s);
      var all := fewer[f + n - 1 := User(a, s + n - 1)];
      assert forall g {:trigger PlaceOf(all, g)} ::
        PlaceOf(all, g) == if g == f + n - 1 then User(a, s + n - 1) else PlaceOf(fewer, g);
      all
  }

  ghost function OwningHigh(owner: map<int, Place>, f: int, n: int, s: int): (r: map<int, Place>)
    ensures forall g {:trigger PlaceOf(r, g)} ::
      PlaceOf(r, g) == if f <= g < f + n then Kernel(s + g - f) else PlaceOf(owner, g)
    decreases n
  {
    if n <= 0 then owner
    else
      var fewer := OwningHigh(owner, f, n - 1, s);
      var all := fewer[f + n - 1 := Kernel(s + n - 1)];
      assert forall g {:trigger PlaceOf(all, g)} ::
        PlaceOf(all, g) == if g == f + n - 1 then Kernel(s + n - 1) else PlaceOf(fewer, g);
      all
  }

  /** Free frames are not mapped anywhere, so giving them a new place disturbs no one. */
  lemma HighKept(pmat: seq<bv8>, high: seq<int>, owner: map<int, Place>, boot: set<int>, f: int, n: int,
                 pmat': seq<bv8>, owner': map<int, Place>)
    requires HighOk(pmat, high, owner, boot) && AllFree(pmat, f, n) && BitsSet(pmat, f, n, pmat')
    requires forall g {:trigger PlaceOf(owner', g)} :: !(f <= g < f + n) ==> PlaceOf(owner', g) == PlaceOf(owner, g)
    ensures HighOk(pmat', high, owner', boot)
  {
    hide Used, FrameOf;
    forall i {:trigger HighSlotOk(pmat', high, owner', boot, i)} ensures HighSlotOk(pmat', high, owner', boot, i) {
      assert HighSlotOk(pmat, high, owner, boot, i);
    }
  }

  lemma UsersKept(pmat: seq<bv8>, tables: map<int, seq<int>>, owner: map<int, Place>, f: int, n: int, pmat': seq<bv8>,
                  owner': map<int, Place>)
    requires UsersOk(pmat, tables, owner) && AllFree(pmat, f, n) && BitsSet(pmat, f, n, pmat')
    requires forall g {:trigger PlaceOf(owner', g)} :: !(f <= g < f + n) ==> PlaceOf(owner', g) == PlaceOf(owner, g)
    ensures UsersOk(pmat', tables, owner')
  {
    hide Used, FrameOf;
    forall a, i {:trigger UserSlotOk(pmat', tables, owner', a, i)} ensures UserSlotOk(pmat', tables, owner', a, i) {
      assert UserSlotOk(pmat, tables, owner, a, i);
    }
  }

  lemma VideoKept(pmat: seq<bv8>, tables: map<int, seq<int>>, f: int, n: int, pmat': seq<bv8>)
    requires VideoOk(pmat, tables) && BitsSet(pmat, f, n, pmat')
    ensures VideoOk(pmat', tables)
  {
    hide Used;
    forall g {:trigger Used(pmat', g)} | Video(g) ensures Used(pmat', g) { assert Used(pmat, g); }
  }

  /** New frames go into free slots of address space a. */
  lemma MapUser(pmat: seq<bv8>, tables: map<int, seq<int>>, owner: map<int, Place>, a: int, s: int, f: int, n: int,
                flags: int,
                pmat': seq<bv8>, tables': map<int, seq<int>>, owner': map<int, Place>)
    requires UsersOk(pmat, tables, owner) && VideoOk(pmat, tables) && a in tables && 0 <= s && s + n <= |tables[a]|
      && 0 < flags < PAGE && 0 <= f
    requires AllFree(pmat, f, n) && BitsSet(pmat, f, n, pmat') && owner' == Owning(owner, f, n, a, s)
    requires tables' == tables[a := MapRun(tables[a], s, f, n, flags)]
    requires forall i {:trigger At(tables[a], i)} :: s <= i < s + n ==> At(tables[a], i) == 0
    ensures UsersOk(pmat', tables', owner') && VideoOk(pmat', tables')
  {
    hide Used, FrameOf, Entry, Owning;
    forall b, i {:trigger UserSlotOk(pmat', tables', owner', b, i)} ensures UserSlotOk(pmat', tables', owner', b, i) {
      assert UserSlotOk(pmat, tables, owner, b, i);
      if b == a && s <= i < s + n {
        NewEntry(tables[a], s, f, n, flags, i);
        assert Used(pmat', f + i - s) && PlaceOf(owner', f + i - s) == User(a, i);
        assert Video(f + i - s) ==> Used(pmat, f + i - s);
      } else {
        assert UserEntry(tables', b, i) == UserEntry(tables, b, i);
      }
    }
    forall g {:trigger Used(pmat', g)} | Video(g) ensures Used(pmat', g) { assert Used(pmat, g); }
    forall b, i {:trigger UserEntry(tables', b, i)} | b in tables' && Video(i)
      ensures UserEntry(tables', b, i) != 0 && FrameOf(UserEntry(tables', b, i)) == i
    {
      assert UserEntry(tables, b, i) != 0;
    }
  }

  lemma NewEntry(table: seq<int>, s: int, f: int, n: int, flags: int, i: int)
    requires 0 <= s <= i < s + n <= |table| && 0 < flags < PAGE && 0 <= f
    ensures At(MapRun(table, s, f, n, flags), i) == Entry(f + i - s, flags)
      && FrameOf(Entry(f + i - s, flags)) == f + i - s && Entry(f + i - s, flags) > 0
  {
    EntryFrame(f + i - s, flags);
  }

  /** New frames go into free slots of the kernel's table. */
  lemma MapHigh(pmat: seq<bv8>, high: seq<int>, owner: map<int, Place>, boot: set<int>, s: int, f: int, n: int,
                flags: int,
                pmat': seq<bv8>, high': seq<int>, owner': map<int, Place>)
    requires HighOk(pmat, high, owner, boot) && 0 <= s && s + n <= SLOTS && 0 < flags < PAGE && 0 <= f
    requires forall i {:trigger At(high, i)} :: s <= i < s + n ==> At(high, i) == 0
    requires AllFree(pmat, f, n) && BitsSet(pmat, f, n, pmat') && owner' == OwningHigh(owner, f, n, s)
      && high' == MapRun(high, s, f, n, flags)
    requires forall g {:trigger Used(pmat, g)} :: Video(g) ==> Used(pmat, g)
    ensures HighOk(pmat', high', owner', boot)
  {
    hide Used, FrameOf, Entry, OwningHigh;
    assert BootOk(high', boot) by {
      forall i {:trigger At(high', i)} | i in boot ensures At(high', i) != 0 { assert At(high, i) != 0; }
    }
    forall i {:trigger HighSlotOk(pmat', high', owner', boot, i)} ensures HighSlotOk(pmat', high', owner', boot, i) {
      assert HighSlotOk(pmat, high, owner, boot, i);
      if s <= i < s + n {
        NewEntry(high, s, f, n, flags, i);
        assert Used(pmat', f + i - s) && PlaceOf(owner', f + i - s) == Kernel(i);
        assert Video(f + i - s) ==> Used(pmat, f + i - s);
      } else {
        assert At(high', i) == At(high, i);
      }
    }
  }

  // ----- unmapping -----

  /** A frame goes out of use with the one slot that maps it. */
  lemma UnmapUser(pmat: seq<bv8>, tables: map<int, seq<int>>, owner: map<int, Place>, a: int, i: int, pmat': seq<bv8>,
                  tables': map<int, seq<int>>)
    requires UsersOk(pmat, tables, owner) && a in tables && UserEntry(tables, a, i) != 0
      && !Video(FrameOf(UserEntry(tables, a, i)))
    requires BitsCleared(pmat, FrameOf(UserEntry(tables, a, i)), 1, pmat') && 0 <= i < |tables[a]|
      && tables' == tables[a := tables[a][i := 0]]
    ensures UsersOk(pmat', tables', owner) && Used(pmat, FrameOf(UserEntry(tables, a, i)))
  {
    hide Used, FrameOf;
    var f := FrameOf(UserEntry(tables, a, i));
    assert UserSlotOk(pmat, tables, owner, a, i);
    forall b, j {:trigger UserSlotOk(pmat', tables', owner, b, j)} ensures UserSlotOk(pmat', tables', owner, b, j) {
      assert UserSlotOk(pmat, tables, owner, b, j);
      assert UserEntry(tables', b, j) == if b == a && j == i then 0 else UserEntry(tables, b, j);
    }
  }

  /** A frame mapped by a user is not one of the kernel's. */
  lemma UserNotHigh(pmat: seq<bv8>, high: seq<int>, owner: map<int, Place>, boot: set<int>, f: int, pmat': seq<bv8>)
    requires HighOk(pmat, high, owner, boot) && PlaceOf(owner, f).User? && BitsCleared(pmat, f, 1, pmat')
    ensures HighOk(pmat', high, owner, boot)
  {
    hide Used, FrameOf;
    forall i {:trigger HighSlotOk(pmat', high, owner, boot, i)} ensures HighSlotOk(pmat', high, owner, boot, i) {
      assert HighSlotOk(pmat, high, owner, boot, i);
    }
  }

  /** The n kernel slots from s on map the frames from f on, and not since boot. */
  ghost predicate OnFrames(high: seq<int>, boot: set<int>, s: int, n: int, f: int) {
    forall i {:trigger At(high, i)} ::
      s <= i < s + n ==> At(high, i) != 0 && i !in boot && FrameOf(At(high, i)) == f + i - s
  }

  /** The n frames from f on belong to the kernel and are not video memory. */
  ghost predicate KernelFrames(owner: map<int, Place>, f: int, n: int) {
    forall g {:trigger PlaceOf(owner, g)} :: f <= g < f + n ==> PlaceOf(owner, g).Kernel? && !Video(g)
  }

  /** The frames of kernel pages. */
  lemma HighFrames(pmat: seq<bv8>, high: seq<int>, owner: map<int, Place>, boot: set<int>, s: int, n: int, f: int)
    requires HighOk(pmat, high, owner, boot)
    requires OnFrames(high, boot, s, n, f)
    ensures forall g {:trigger PlaceOf(owner, g)} ::
      f <= g < f + n ==> PlaceOf(owner, g) == Kernel(s + g - f) && !Video(g) && Used(pmat, g)
  {
    hide Used, FrameOf, PlaceOf;
    forall g {:trigger PlaceOf(owner, g)} | f <= g < f + n
      ensures PlaceOf(owner, g) == Kernel(s + g - f) && !Video(g) && Used(pmat, g)
    {
      HighFrame(pmat, high, owner, boot, s, n, f, g);
    }
  }

  lemma FramesOfKernel(pmat: seq<bv8>, high: seq<int>, owner: map<int, Place>, boot: set<int>, s: int, n: int, f: int)
    requires HighOk(pmat, high, owner, boot) && OnFrames(high, boot, s, n, f)
    ensures KernelFrames(owner, f, n)
  {
    hide HighOk, OnFrames, Used, PlaceOf, Video;
    forall g {:trigger PlaceOf(owner, g)} | f <= g < f + n ensures PlaceOf(owner, g).Kernel? && !Video(g) {
      HighFrame(pmat, high, owner, boot, s, n, f, g);
    }
  }

  lemma HighFrame(pmat: seq<bv8>, high: seq<int>, owner: map<int, Place>, boot: set<int>, s: int, n: int, f: int,
                  g: int)
    requires HighOk(pmat, high, owner, boot) && OnFrames(high, boot, s, n, f) && f <= g < f + n
    ensures PlaceOf(owner, g) == Kernel(s + g - f) && !Video(g) && Used(pmat, g)
  {
    hide Used, FrameOf, PlaceOf;
    var i := s + g - f;
    assert At(high, i) != 0 && FrameOf(At(high, i)) == g;
    assert HighSlotOk(pmat, high, owner, boot, i);
  }

  /** Kernel pages go out of use with the slots that map them. */
  lemma UnmapHigh(pmat: seq<bv8>, high: seq<int>, owner: map<int, Place>, boot: set<int>, s: int, n: int, f: int,
                  pmat': seq<bv8>)
    requires HighOk(pmat, high, owner, boot) && 0 <= s && s + n <= SLOTS && BitsCleared(pmat, f, n, pmat')
    requires OnFrames(high, boot, s, n, f)
    ensures HighOk(pmat', ZeroRun(high, s, n), owner, boot)
  {
    hide Used, FrameOf;
    var high' := ZeroRun(high, s, n);
    HighFrames(pmat, high, owner, boot, s, n, f);
    assert BootOk(high', boot) by {
      forall i {:trigger At(high', i)} | i in boot ensures At(high', i) != 0 { assert At(high, i) != 0; }
    }
    forall i {:trigger HighSlotOk(pmat', high', owner, boot, i)} ensures HighSlotOk(pmat', high', owner, boot, i) {
      assert HighSlotOk(pmat, high, owner, boot, i);
      assert 0 <= i < SLOTS ==> At(high', i) == if s <= i < s + n then 0 else At(high, i);
      var g := FrameOf(At(high, i));
      assert f <= g < f + n ==> PlaceOf(owner, g) == Kernel(s + g - f);
    }
  }

  /** Frames of the kernel are not mapped by users. */
  lemma HighNotUser(pmat: seq<bv8>, tables: map<int, seq<int>>, owner: map<int, Place>, f: int, n: int, pmat': seq<bv8>)
    requires UsersOk(pmat, tables, owner) && BitsCleared(pmat, f, n, pmat') && VideoOk(pmat, tables)
    requires KernelFrames(owner, f, n)
    ensures UsersOk(pmat', tables, owner) && VideoOk(pmat', tables)
  {
    hide Used, FrameOf;
    forall a, i {:trigger UserSlotOk(pmat', tables, owner, a, i)} ensures UserSlotOk(pmat', tables, owner, a, i) {
      assert UserSlotOk(pmat, tables, owner, a, i);
    }
    forall g {:trigger Used(pmat', g)} | Video(g) ensures Used(pmat', g) {
      assert Used(pmat, g);
      assert f <= g < f + n ==> PlaceOf(owner, g).Kernel? && !Video(g);
    }
  }

  // ----- processes -----

  /** The frames of a program's image: in use since boot, and mapped by no one. */
  ghost predicate Image(pmat: seq<bv8>, owner: map<int, Place>, image: int, length: int) {
    0 <= image && forall f {:trigger Used(pmat, f)} ::
      image <= f < image + length ==> Used(pmat, f) && !Video(f) && PlaceOf(owner, f) == Nowhere
  }

  /** Frames in use stay in use, in their places. */
  ghost predicate Kept(pmat: seq<bv8>, owner: map<int, Place>, pmat': seq<bv8>, owner': map<int, Place>) {
    forall f {:trigger Used(pmat', f)} :: Used(pmat, f) ==> Used(pmat', f) && PlaceOf(owner', f) == PlaceOf(owner, f)
  }

  lemma ImageKept(pmat: seq<bv8>, owner: map<int, Place>, pmat': seq<bv8>, owner': map<int, Place>, image: int,
                  length: int)
    requires Image(pmat, owner, image, length) && Kept(pmat, owner, pmat', owner')
    ensures Image(pmat', owner', image, length)
  {
    hide Used, Video, PlaceOf;
    forall f {:trigger Used(pmat', f)} | image <= f < image + length
      ensures Used(pmat', f) && !Video(f) && PlaceOf(owner', f) == Nowhere
    {
      assert Used(pmat, f);
    }
  }

  lemma Taken(pmat: seq<bv8>, owner: map<int, Place>, f: int, n: int, pmat': seq<bv8>, owner': map<int, Place>)
    requires AllFree(pmat, f, n) && BitsSet(pmat, f, n, pmat')
      && forall g {:trigger PlaceOf(owner', g)} :: !(f <= g < f + n) ==> PlaceOf(owner', g) == PlaceOf(owner, g)
    ensures Kept(pmat, owner, pmat', owner')
  {
    hide Used;
    forall g {:trigger Used(pmat', g)} | Used(pmat, g)
      ensures Used(pmat', g) && PlaceOf(owner', g) == PlaceOf(owner, g)
    {
    }
  }

  /** The table of a new process: its image from slot 0 on, and video memory in its own place. */
  ghost function ProcessTable(image: int, length: int, flags: int): seq<int> {
    MapRun(MapRun(seq(SLOTS, _ => 0), 0, image, length, flags), VIDEO, VIDEO, VIDEO_END - VIDEO, flags)
  }

  lemma ProcessEntry(image: int, length: int, flags: int, i: int)
    requires 0 <= image && 0 <= length <= VIDEO && 0 < flags < PAGE && 0 <= i < SLOTS
    ensures var e := At(ProcessTable(image, length, flags), i);
      if i < length then e != 0 && FrameOf(e) == image + i else if Video(i) then e != 0 && FrameOf(e) == i else e == 0
  {
    hide FrameOf, Entry;
    var t := MapRun(seq(SLOTS, _ => 0), 0, image, length, flags);
    assert At(t, i) == if i < length then Entry(image + i, flags) else 0;
    if Video(i) { EntryFrame(i, flags); } else if i < length { EntryFrame(image + i, flags); }
  }

  lemma NewProcess(pmat: seq<bv8>, high: seq<int>, tables: map<int, seq<int>>, owner: map<int, Place>, boot: set<int>,
                   a: int, image: int, length: int, flags: int,
                   tables': map<int, seq<int>>, owner': map<int, Place>)
    requires UsersOk(pmat, tables, owner) && HighOk(pmat, high, owner, boot) && VideoOk(pmat, tables) && a !in tables
    requires Image(pmat, owner, image, length) && 0 <= length <= VIDEO && 0 < flags < PAGE
    requires tables' == tables[a := ProcessTable(image, length, flags)] && owner' == Owning(owner, image, length, a, 0)
    ensures UsersOk(pmat, tables', owner') && HighOk(pmat, high, owner', boot) && VideoOk(pmat, tables')
  {
    hide Used, FrameOf, Owning, ProcessTable;
    forall b, i {:trigger UserSlotOk(pmat, tables', owner', b, i)} ensures UserSlotOk(pmat, tables', owner', b, i) {
      assert UserSlotOk(pmat, tables, owner, b, i);
      if b == a {
        if 0 <= i < SLOTS {
          ProcessEntry(image, length, flags, i);
          assert i < length ==> Used(pmat, image + i) && !Video(image + i) && PlaceOf(owner', image + i) == User(a, i);
        }
        TableLength(image, length, flags);
      } else {
        assert UserEntry(tables', b, i) == UserEntry(tables, b, i);
        var f := FrameOf(UserEntry(tables, b, i));
        assert Used(pmat, f) ==> (image <= f < image + length ==> PlaceOf(owner, f) == Nowhere);
      }
    }
    forall i {:trigger HighSlotOk(pmat, high, owner', boot, i)} ensures HighSlotOk(pmat, high, owner', boot, i) {
      assert HighSlotOk(pmat, high, owner, boot, i);
      var f := FrameOf(At(high, i));
      assert Used(pmat, f) ==> (image <= f < image + length ==> PlaceOf(owner, f) == Nowhere);
    }
    forall b, i {:trigger UserEntry(tables', b, i)} | b in tables' && Video(i)
      ensures UserEntry(tables', b, i) != 0 && FrameOf(UserEntry(tables', b, i)) == i
    {
      if b == a { ProcessEntry(image, length, flags, i); } else { assert UserEntry(tables, b, i) != 0; }
    }
  }

  lemma TableLength(image: int, length: int, flags: int)
    ensures |ProcessTable(image, length, flags)| == SLOTS
  {
  }

  // ----- counting -----

  /** How many of the first k frames are free. */
  ghost function Free(pmat: seq<bv8>, k: int): (n: int)
    ensures n >= 0
    decreases k
  { if k <= 0 then 0 else Free(pmat, k - 1) + if Used(pmat, k - 1) then 0 else 1 }

  lemma {:induction false} SomeFree(pmat: seq<bv8>, k: int) returns (f: int)
    requires Free(pmat, k) > 0
    ensures 0 <= f < k && !Used(pmat, f)
    decreases k
  {
    hide Used;
    if !Used(pmat, k - 1) { f := k - 1; } else { f := SomeFree(pmat, k - 1); }
  }

  lemma {:induction false} OneLessFree(pmat: seq<bv8>, f: int, pmat': seq<bv8>, k: int)
    requires !Used(pmat, f) && BitsSet(pmat, f, 1, pmat') && 0 <= k && 0 <= f
    ensures Free(pmat', k) == Free(pmat, k) - if f < k then 1 else 0
    decreases k
  {
    hide Used;
    if k > 0 {
      OneLessFree(pmat, f, pmat', k - 1);
      assert Used(pmat', k - 1) <==> k - 1 == f || Used(pmat, k - 1);
    }
  }

  /** How many of the slots from i up to n are not mapped. */
  ghost function Needed(table: seq<int>, i: int, n: int): (k: int)
    ensures k >= 0
    decreases n - i
  { if i >= n then 0 else Needed(table, i + 1, n) + if At(table, i) == 0 then 1 else 0 }

  lemma {:induction false} NeededSame(table: seq<int>, table': seq<int>, i: int, n: int)
    requires forall k {:trigger At(table, k)} {:trigger At(table', k)} ::
      i <= k < n ==> (At(table, k) == 0 <==> At(table', k) == 0)
    ensures Needed(table, i, n) == Needed(table', i, n)
    decreases n - i
  {
    if i < n {
      NeededSame(table, table', i + 1, n);
      assert At(table, i) == 0 <==> At(table', i) == 0;
    }
  }

  // ----- cleanup -----

  /** Frame f is mapped by one of the first k slots of the table of address space a. */
  ghost predicate Mine(owner: map<int, Place>, table: seq<int>, a: int, f: int, k: int) {
    var p := PlaceOf(owner, f);
    p.User? && p.space == a && p.slot < k && At(table, p.slot) != 0 && FrameOf(At(table, p.slot)) == f
  }

  ghost predicate FramesLeft(owner: map<int, Place>, table: seq<int>, a: int, k: int, pmat: seq<bv8>, pmat': seq<bv8>) {
    |pmat'| == |pmat| && forall f {:trigger Used(pmat', f)} {:trigger Used(pmat, f)} ::
      Used(pmat', f) <==> Used(pmat, f) && !Mine(owner, table, a, f, k)
  }

  /** One more slot of a dying address space has been emptied, and its frame freed. */
  lemma OneMoreLeft(owner: map<int, Place>, table: seq<int>, a: int, k: int, pmat: seq<bv8>, now: seq<bv8>,
                    now': seq<bv8>)
    requires FramesLeft(owner, table, a, k, pmat, now) && 0 <= k < |table|
    requires if At(table, k) == 0 then now' == now
      else PlaceOf(owner, FrameOf(At(table, k))) == User(a, k) && BitsCleared(now, FrameOf(At(table, k)), 1, now')
    ensures FramesLeft(owner, table, a, k + 1, pmat, now')
  {
    hide Used, FrameOf;
    forall f ensures Used(now', f) <==> Used(pmat, f) && !Mine(owner, table, a, f, k + 1) {
      assert Used(now, f) <==> Used(pmat, f) && !Mine(owner, table, a, f, k);
    }
  }
}
