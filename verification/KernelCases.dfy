/** Runs from boot on which the kernel does not do what its comments promise. */
module KernelCases {
  import opened Arithmetic
  import opened Lists
  import opened Resources
  import opened KernelMemory
  import opened SchedulerStates
  import opened Schedulers
  import P = PortStates
  import S = SemStates
  import opened BlockUses
  import opened KernelStates
  import opened Kernels
  import opened KernelSteps
  import opened KernelRuns

  /** Two identifiers are free. */
  ghost predicate Room(B: map<int, Binding>, rmax: int) { exists i, j :: 1 <= i < j < rmax && i !in B && j !in B }

  /** Where the only identifiers are those of two tasks, two more are free. */
  lemma HasRoom(k: Kernel, id1: int, id2: int)
    requires k.Valid() && Others(k.rt.Bound()) == map[] && k.rt.rmap.Length >= 5
    requires forall t {:trigger t in k.sched.tasks} :: t in k.sched.tasks ==> k.sched.tasks[t].rid in {0, id1, id2}
    ensures Room(k.rt.Bound(), k.rt.rmap.Length)
  {
    hide StateOk, CarriersOk, BlockStore.Valid, ResourceTable.Valid, Mid, Room;
    TaskIds(k.rt.Bound(), k.sched.taskList[..], k.sched.tasks, id1, id2, k.rt.rmap.Length);
  }

  lemma TaskIds(B: map<int, Binding>, slots: seq<int>, tasks: map<int, Task>, id1: int, id2: int, rmax: int)
    requires IdsOk(B, slots, tasks) && Others(B) == map[] && rmax >= 5
    requires forall t {:trigger t in tasks} :: t in tasks ==> tasks[t].rid in {0, id1, id2}
    ensures Room(B, rmax)
  {
    forall id | id in B ensures id in {id1, id2} {
      assert id in Others(B) || B[id].kind == RSRC_TASK;
      assert NamesTask(slots, tasks, id, B[id].data);
    }
    var i := if 1 !in B then 1 else if 2 !in B then 2 else 3;
    var j := if i < 2 && 2 !in B then 2 else if i < 3 && 3 !in B then 3 else 4;
    assert 1 <= i < j < rmax && i !in B && j !in B;
  }

  lemma RoomForOne(B: map<int, Binding>, rmax: int)
    requires Room(B, rmax)
    ensures !Full(B, rmax)
  {
  }

  lemma RoomForAnother(B: map<int, Binding>, id: int, b: Binding, rmax: int)
    requires Room(B, rmax)
    ensures !Full(B[id := b], rmax)
  {
    var i, j :| 1 <= i < j < rmax && i !in B && j !in B;
    assert i !in B[id := b] || j !in B[id := b];
  }

  lemma NoNullPort(k: Kernel)
    requires k.Valid()
    ensures 0 !in k.ports && k.portState.ports == k.ports && P.PortsOk(k.rt.Bound(), k.portState)
  {
    hide P.MastersOk, P.MessagesOk, P.NamesOk, P.Holds, P.Housed, S.SemsOk, CarriersOk, BlockStore.Valid,
      Scheduler.Valid, ResourceTable.Valid;
  }

  /** The port of owner t before it has mail. */
  function Idle(t: int, master: int, count: int): P.Port { P.Port(t, 0, 0, master, 0, 0, count) }

  /** There are two ports of owner t, named a and b; master is b's master and count is a's count. */
  ghost predicate Pair(k: Kernel, t: int, a: int, p: int, b: int, q: int, master: int, count: int)
    reads k, k.rt, k.rt.rmap
  {
    var B := k.rt.Bound();
    && a != 0 && b != 0 && a != b && p != 0 && q != 0 && p != q
    && NamedAs(B, RSRC_PORT, a) == p && NamedAs(B, RSRC_PORT, b) == q
    && IdOf(k.portState.ids, p) == a && IdOf(k.portState.ids, q) == b
    && k.ports == k.portState.ports == map[p := Idle(t, 0, count), q := Idle(t, master, 1)]
  }

  method NewPort(k: Kernel) returns (a: int, ghost p: int)
    requires Good(k) && k.sched.current !in k.receiving && !Full(k.rt.Bound(), k.rt.rmap.Length)
    modifies k`ports, k`portState, k.rt, k.rt.rmap, k.store`uses, k.store.km, k.store.km.pools
    ensures a != 0 && p != 0 && p !in old(k.ports) && a !in old(k.rt.Bound())
    ensures k.rt.Bound() == old(k.rt.Bound())[a := Binding(RSRC_PORT, p)]
    ensures k.ports == k.portState.ports == old(k.ports)[p := Idle(k.sched.current, 0, 1)]
    ensures k.portState.ids == old(k.portState.ids)[p := a]
    ensures Good(k) && (old(k.NoLostWakeup()) ==> k.NoLostWakeup())
  {
    hide Kernel.Valid, BlockStore.Valid, Ok, NoneMissed, P.Steps, ResourceTable.Bound, Full, P.PortsOk;
    NoNullPort(k);
    var page := ChoosePage(k.store.km.taken, PAGE);
    a, p := k.PortCreate(0, page);
    NoNullPort(k);
  }

  method TwoPorts(k: Kernel) returns (a: int, ghost p: int, b: int, ghost q: int)
    requires Good(k) && k.sched.current !in k.receiving && k.ports == map[] && Room(k.rt.Bound(), k.rt.rmap.Length)
    modifies k`ports, k`portState, k.rt, k.rt.rmap, k.store`uses, k.store.km, k.store.km.pools
    ensures Pair(k, k.sched.current, a, p, b, q, 0, 1)
    ensures Good(k) && (old(k.NoLostWakeup()) ==> k.NoLostWakeup())
  {
    hide Good, NoneMissed, ResourceTable.Bound, Full, Room;
    ghost var B := k.rt.Bound();
    RoomForOne(B, k.rt.rmap.Length);
    a, p := NewPort(k);
    RoomForAnother(B, a, Binding(RSRC_PORT, p), k.rt.rmap.Length);
    b, q := NewPort(k);
  }

  /** The port b becomes a slave of the port a. */
  method Join(k: Kernel, t: int, a: int, ghost p: int, b: int, ghost q: int)
    requires Good(k) && k.sched.current == t && t !in k.receiving && Pair(k, t, a, p, b, q, 0, 1)
    modifies k`ports, k`portState
    ensures Pair(k, t, a, p, b, q, a, 2)
    ensures Good(k) && (old(k.NoLostWakeup()) ==> k.NoLostWakeup())
  {
    hide Kernel.Valid, BlockStore.Valid, Ok, NoneMissed, P.Steps, ResourceTable.Bound, P.PortsOk;
    NoNullPort(k);
    var r := k.PortOption(b, PORT_OPT_SLAVE, a);
    NoNullPort(k);
    assert k.ports == P.Reslaved(k.rt.Bound(), old(k.ports), q, a);
  }

  method MasterAndSlave(k: Kernel) returns (a: int, ghost p: int, b: int, ghost q: int)
    requires Good(k) && k.sched.current !in k.receiving && k.ports == map[] && Room(k.rt.Bound(), k.rt.rmap.Length)
    modifies k`ports, k`portState, k.rt, k.rt.rmap, k.store`uses, k.store.km, k.store.km.pools
    ensures Pair(k, k.sched.current, a, p, b, q, a, 2)
    ensures Good(k) && (old(k.NoLostWakeup()) ==> k.NoLostWakeup())
  {
    hide Good, NoneMissed, ResourceTable.Bound, Room, Pair;
    a, p, b, q := TwoPorts(k);
    Join(k, k.sched.current, a, p, b, q);
  }

  /** The slave b is destroyed, which leaves its master as it was, and then the master is to be destroyed. */
  method DestroyBoth(k: Kernel, a: int, ghost p: int, b: int, ghost q: int) returns (r: int)
    requires Good(k) && k.sched.current !in k.receiving && Pair(k, k.sched.current, a, p, b, q, a, 2)
    modifies k`ports, k`portState, k.rt, k.rt.rmap, k.store`uses, k.store.km, k.store.km.pools
    ensures r == ERR_RESOURCE && NamedAs(k.rt.Bound(), RSRC_PORT, a) == p && IdOf(k.portState.ids, p) == a != 0
    ensures k.ports == k.portState.ports == map[p := Idle(k.sched.current, 0, 2)] && P.Excess(k.portState, p) == 1
    ensures Good(k)
  {
    hide Kernel.Valid, BlockStore.Valid, Ok, NoneMissed, P.Steps, ResourceTable.Bound, P.PortsOk, P.MasterOf;
    NoNullPort(k);
    r := k.PortDestroy(b);
    NoNullPort(k);
    assert k.ports == map[p := Idle(k.sched.current, 0, 2)];
    assert P.Slaves(k.ports, a) == {};
    r := k.PortDestroy(a);
    NoNullPort(k);
  }

  /** The slot behind the current one can run, and so it does. */
  lemma NextRuns(s: Sched, r: Sched, t: int)
    requires Mid(s) && Switched(s, r) && s.num + 1 < MAX_PROC && Slot(s.slots, s.num + 1) == t != 0
    requires t != s.current && Get(s.tasks, t).state == Ready
    ensures r.num == s.num + 1 && r.current == t
    ensures forall i {:trigger Slot(r.slots, i)} :: 0 <= i < MAX_PROC ==> Slot(r.slots, i) == Slot(s.slots, i)
    ensures r.tasks.Keys == s.tasks.Keys
    ensures forall u {:trigger Get(r.tasks, u)} :: u in s.tasks ==>
      Get(r.tasks, u).parent == Get(s.tasks, u).parent && Get(r.tasks, u).rid == Get(s.tasks, u).rid
      && (u != t && u != s.current && Get(s.tasks, u).state == Ready ==> Get(r.tasks, u).state == Ready)
      && (Get(s.tasks, u).state == SleepPort ==> Get(r.tasks, u).state == SleepPort || u == t)
  {
    assert Runnable(s, s.num + 1);
    assert !Before(s, s.num + 1, r.num);
    assert SlotsCleared(s, r) && TasksSwitched(s, r);
    forall i {:trigger Slot(r.slots, i)} | 0 <= i < MAX_PROC ensures Slot(r.slots, i) == Slot(s.slots, i) {
      assert !Buried(s, i, r.num);
    }
  }

  /** The tasks t1 and t2 of one process are in slots 1 and 2, and t1 runs. */
  ghost predicate Started(k: Kernel, t1: int, t2: int)
    reads k, k.rt, k.rt.rmap, k.sched, k.sched.taskList
  {
    var s := k.sched.Now();
    && s.num == 1 && s.current == t1 && Slot(s.slots, 2) == t2 && t1 in s.tasks && t2 in s.tasks
    && s.tasks[t2].state == Ready && s.tasks[t1].parent == s.tasks[t2].parent
    && k.receiving == map[] && k.ports == map[] && Room(k.rt.Bound(), k.rt.rmap.Length)
  }

  lemma FirstSlots(slots: seq<int>, i: int, n: int)
    requires FirstEmpty(slots, i) && 0 <= n < |slots| && Slot(slots, n) == 0
    requires forall j {:trigger Slot(slots, j)} :: 0 <= j < n ==> Slot(slots, j) != 0
    ensures i == n
  {
  }

  /** A task of process 1 gets the first empty slot n. */
  method NewTaskAt(k: Kernel, t: int, ghost n: int, junk: Task)
    requires Good(k) && k.sched.current !in k.receiving && t !in k.sched.tasks && t != 0 && k.NoLostWakeup()
    requires 0 <= n < MAX_PROC && Slot(k.sched.taskList[..], n) == 0
    requires forall j {:trigger Slot(k.sched.taskList[..], j)} :: 0 <= j < n ==> Slot(k.sched.taskList[..], j) != 0
    modifies k.sched.taskList, k.sched`tasks, k.sched`maxUsed, k.rt, k.rt.rmap
    ensures t in k.sched.tasks && k.sched.taskList[..] == old(k.sched.taskList[..])[n := t]
    ensures k.sched.tasks == old(k.sched.tasks)[t :=
      junk.(state := Ready, parent := 1, tid := n, rid := k.sched.tasks[t].rid)]
    ensures Others(k.rt.Bound()) == old(Others(k.rt.Bound())) && k.NoLostWakeup()
    ensures Good(k)
  {
    hide Kernel.Valid, BlockStore.Valid, Ok, Mid, NoneMissed, ResourceTable.Bound, Calm, Others, FirstEmpty;
    ghost var slots := k.sched.taskList[..];
    ListLength(k);
    assert exists i :: 0 <= i < MAX_PROC && Slot(slots, i) == 0 by { assert Slot(slots, n) == 0; }
    var added := k.CreateTask(t, junk, 1);
    FirstSlots(slots, k.sched.tasks[t].tid, n);
  }

  method TwoTasks(k: Kernel, ghost rmax: int, ghost idle: int, t1: int, t2: int, junk: Task)
    requires Good(k) && Booted(k, rmax, idle) && rmax >= 5 && k.NoLostWakeup()
    requires idle != 0 && t1 != 0 && t2 != 0 && t1 != t2 && idle != t1 && idle != t2
    modifies k.sched.taskList, k.sched`tasks, k.sched`current, k.sched`currentNum, k.sched`maxUsed, k.sched`systemTimer
    modifies k.rt, k.rt.rmap
    ensures Good(k) && k.NoLostWakeup() && Started(k, t1, t2)
  {
    hide Kernel.Valid, BlockStore.Valid, Ok, Mid, NoneMissed, ResourceTable.Bound, Switched, Others, Room;
    ghost var slots := k.sched.taskList[..];
    ListLength(k);
    assert Slot(slots, 0) == idle && Slot(slots, 1) == 0 && Slot(slots, 2) == 0;
    NewTaskAt(k, t1, 1, junk);
    ListLength(k);
    assert Slot(k.sched.taskList[..], 0) == idle;
    assert Slot(k.sched.taskList[..], 2) == 0 && Slot(k.sched.taskList[..], 1) == t1;
    NewTaskAt(k, t2, 2, junk);
    ghost var s := k.sched.Now();
    OkMid(s);
    assert Slot(s.slots, 1) == t1 && Slot(s.slots, 2) == t2;
    ListLength(k);
    k.Switch();
    NextRuns(s, k.sched.Now(), t1);
    forall t {:trigger t in k.sched.tasks} | t in k.sched.tasks
      ensures k.sched.tasks[t].rid in {0, k.sched.tasks[t1].rid, k.sched.tasks[t2].rid}
    {
      assert Get(k.sched.tasks, t).rid == Get(s.tasks, t).rid;
    }
    HasRoom(k, k.sched.tasks[t1].rid, k.sched.tasks[t2].rid);
    assert Get(k.sched.tasks, t1) == k.sched.tasks[t1] && Get(k.sched.tasks, t2) == k.sched.tasks[t2];
    assert Slot(k.sched.taskList[..], 2) == t2;
  }

  lemma ListLength(k: Kernel)
    requires Good(k)
    ensures |k.sched.taskList[..]| == MAX_PROC
  {
    hide StateOk, CarriersOk, BlockStore.Valid, ResourceTable.Valid, Scheduler.Valid;
    OkMid(k.sched.Now());
  }

  lemma NothingWaits(k: Kernel, p: int)
    requires k.Valid() && p in k.ports && k.ports[p].msgcount == 0
    ensures |P.Queue(k.portState, p)| == 0
  {
    hide StateOk, CarriersOk, BlockStore.Valid, ResourceTable.Valid, Scheduler.Valid, P.Queue, Mirrored;
    EmptyQueue(k.rt.Bound(), k.portState, k.receiving, k.semState, k.sched.tasks, k.store.uses, p);
  }

  /** The task t1 goes to sleep receiving on its port a, and then t2 runs. */
  method GoesToSleep(k: Kernel, t1: int, t2: int, a: int, ghost p: int, b: int, ghost q: int)
    requires Good(k) && k.NoLostWakeup() && Pair(k, t1, a, p, b, q, a, 2) && t1 != t2 && t2 != 0
    requires var s := k.sched.Now();
      s.num == 1 && s.current == t1 && Slot(s.slots, 2) == t2 && t1 in s.tasks && t2 in s.tasks
      && s.tasks[t2].state == Ready && s.tasks[t1].parent == s.tasks[t2].parent
    requires k.receiving == map[]
    modifies k`ports, k`msgs, k`portState, k`receiving, k.store, k.store.km, k.store.km.pools
    modifies k.sched.taskList, k.sched`tasks, k.sched`current, k.sched`currentNum, k.sched`maxUsed, k.sched`systemTimer
    modifies k.rt, k.rt.rmap
    ensures Good(k) && k.NoLostWakeup() && Pair(k, t1, a, p, b, q, a, 2)
    ensures k.sched.current == t2 && k.receiving == map[t1 := p] && Get(k.sched.tasks, t1).state == SleepPort
    ensures Get(k.sched.tasks, t1).parent == Get(k.sched.tasks, t2).parent
  {
    hide Kernel.Valid, BlockStore.Valid, Ok, Mid, NoneMissed, ResourceTable.Bound, Switched, P.Steps, P.Queue;
    ghost var now := k.sched.Now();
    NoNullPort(k);
    NothingWaits(k, p);
    var out := new byte[0];
    var r := k.PortRecv(a, 0, out);
    NoNullPort(k);
    BlockMid(now, a);
    NextRuns(Asleep(now, SleepPort, a), k.sched.Now(), t2);
  }

  /** The task t1 makes two ports, slaves one to the other, and goes to sleep receiving on the master; then t2 runs. */
  method SleepsOnMaster(k: Kernel, t1: int, t2: int) returns (a: int, ghost p: int, b: int, ghost q: int)
    requires Good(k) && k.NoLostWakeup() && Started(k, t1, t2) && t1 != t2 && t2 != 0
    modifies k`ports, k`msgs, k`portState, k`receiving, k.store, k.store.km, k.store.km.pools
    modifies k.sched.taskList, k.sched`tasks, k.sched`current, k.sched`currentNum, k.sched`maxUsed, k.sched`systemTimer
    modifies k.rt, k.rt.rmap
    ensures Good(k) && k.NoLostWakeup() && Pair(k, t1, a, p, b, q, a, 2)
    ensures k.sched.current == t2 && k.receiving == map[t1 := p] && Get(k.sched.tasks, t1).state == SleepPort
    ensures Get(k.sched.tasks, t1).parent == Get(k.sched.tasks, t2).parent
  {
    hide Good, NoneMissed, ResourceTable.Bound, Room, Pair;
    a, p, b, q := MasterAndSlave(k);
    GoesToSleep(k, t1, t2, a, p, b, q);
  }

  lemma BlockMid(s: Sched, on: int)
    requires Ok(s) && s.num != 0
    ensures Mid(Asleep(s, SleepPort, on))
  {
    hide Mid, Calm;
    OkMid(s);
    CurrentChanges(s, Get(s.tasks, s.current).(sleepingOn := on, state := SleepPort));
  }

  lemma OnlyOneMisses(s: P.PortState, receiving: map<int, int>, tasks: map<int, Task>, t: int)
    requires receiving.Keys == {t} && !NoneMissed(s, receiving, tasks)
    ensures Missed(s, receiving, tasks, t)
  {
    var u :| Missed(s, receiving, tasks, u);
    assert u in receiving.Keys;
  }

  /** The task t2 sends a byte to the slave. The message is accepted and put on the master, and the owner sleeps on. */
  method SendsToSlave(k: Kernel, t1: int, t2: int, a: int, ghost p: int, b: int, ghost q: int) returns (r: int)
    requires Good(k) && k.NoLostWakeup() && Pair(k, t1, a, p, b, q, a, 2) && t1 != t2
    requires k.sched.current == t2 && k.receiving == map[t1 := p] && Get(k.sched.tasks, t1).state == SleepPort
    requires Get(k.sched.tasks, t1).parent == Get(k.sched.tasks, t2).parent
    modifies k`ports, k`msgs, k`payload, k`portState, k.store, k.store.km, k.store.km.pools, k.sched`tasks
    ensures Good(k) && r == 1 && |P.Queue(k.portState, p)| == 1 && Missed(k.portState, k.receiving, k.sched.tasks, t1)
  {
    hide Kernel.Valid, BlockStore.Valid, Ok, Mid, NoneMissed, ResourceTable.Bound, P.Queue;
    NoNullPort(k);
    NothingWaits(k, p);
    var page := ChoosePage(k.store.km.taken, PAGE);
    var page' := ChoosePage(k.store.km.taken + {page}, PAGE);
    r := k.PortSend(b, b, 1, [0], page, page');
    OnlyOneMisses(k.portState, k.receiving, k.sched.tasks, t1);
  }

  /** A send that loses a wakeup. Two tasks of one process are made; the first makes two ports, slaves one to the other,
      and goes to sleep receiving on the master; the second sends a byte to the slave. The byte waits on the master,
      whose owner sleeps on. */
  method WakeupLost(rmax: int, idle: int, pages: seq<int>, t1: int, t2: int, junk: Task)
    returns (k: Kernel, ghost p: int, r: int)
    requires rmax >= 5 && idle != 0 && t1 != 0 && t2 != 0 && t1 != t2 && idle != t1 && idle != t2
    requires |pages| == CLASSES && forall c :: 0 <= c < CLASSES ==> pages[c] > 0 && pages[c] % PAGE == 0
    requires forall c, d :: 0 <= c < d < CLASSES ==> pages[c] != pages[d]
    ensures Good(k) && r == 1 && |P.Queue(k.portState, p)| == 1 && Missed(k.portState, k.receiving, k.sched.tasks, t1)
  {
    hide Kernel.Valid, Ok, Mid, NoneMissed, ResourceTable.Bound, Booted, Started, P.Queue, Pair;
    k := Boot(rmax, idle, pages);
    TwoTasks(k, rmax, idle, t1, t2, junk);
    ghost var q;
    var a, b;
    a, p, b, q := SleepsOnMaster(k, t1, t2);
    r := SendsToSlave(k, t1, t2, a, p, b, q);
  }

  /** kernel/port.h says that a port counts its slaves. A task makes two ports, slaves one to the other, and destroys
      the slave: the master still counts it, and the task cannot destroy the master. */
  method StuckMaster(rmax: int, idle: int, pages: seq<int>, t1: int, t2: int, junk: Task)
    returns (k: Kernel, a: int, ghost p: int, r: int)
    requires rmax >= 5 && idle != 0 && t1 != 0 && t2 != 0 && t1 != t2 && idle != t1 && idle != t2
    requires |pages| == CLASSES && forall c :: 0 <= c < CLASSES ==> pages[c] > 0 && pages[c] % PAGE == 0
    requires forall c, d :: 0 <= c < d < CLASSES ==> pages[c] != pages[d]
    ensures Good(k) && r == ERR_RESOURCE && NamedAs(k.rt.Bound(), RSRC_PORT, a) == p
      && IdOf(k.portState.ids, p) == a != 0
    ensures k.sched.current == t1 && k.ports == map[p := Idle(t1, 0, 2)] && P.Excess(k.portState, p) == 1
  {
    hide Kernel.Valid, Ok, Mid, NoneMissed, ResourceTable.Bound, Booted, P.Exact, P.Excess;
    k := Boot(rmax, idle, pages);
    TwoTasks(k, rmax, idle, t1, t2, junk);
    ghost var q;
    var b;
    a, p, b, q := MasterAndSlave(k);
    r := DestroyBoth(k, a, p, b, q);
  }
}
