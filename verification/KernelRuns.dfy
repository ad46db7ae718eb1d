/** Whole runs of the kernel: from boot, any sequence of system calls and interrupts. */
module KernelRuns {
  import opened Arithmetic
  import opened Lists
  import opened Resources
  import opened KernelMemory
  import opened SchedulerStates
  import opened Schedulers
  import P = PortStates
  import S = SemStates
  import opened BlockUses
  import opened KernelStates
  import opened Kernels
  import opened KernelSteps

  /** An event, and the pages that MmAllocPages should return if they are still free. */
  datatype Step = Step(event: Event, page: int, page': int)

  predicate Enslaves(e: Event) { e.DoPortOption? && e.opt == PORT_OPT_SLAVE && e.arg != 0 }

  predicate Wellformed(e: Event) {
    && (e.DoPortSend? ==> e.size <= |e.data|)
    && (e.Interrupt? ==> 0 <= e.number < 16)
  }

  ghost predicate Unslaved(ports: map<int, P.Port>) {
    forall p {:trigger P.GetPort(ports, p)} :: p in ports ==> P.GetPort(ports, p).slaved == 0
  }

  lemma LinksUnslaved(ports: map<int, P.Port>, r: map<int, P.Port>)
    requires Unslaved(ports) && P.SameLinks(ports, r)
    ensures Unslaved(r)
  {
    assert forall p :: p in ports <==> p in ports.Keys;
    forall p {:trigger P.GetPort(r, p)} | p in r ensures P.GetPort(r, p).slaved == 0 {
      assert p in r.Keys;
      assert P.GetPort(ports, p) == ports[p];
    }
  }

  /** No port has a master, and so no wakeup was lost. */
  ghost predicate Awake(k: Kernel)
    reads k, k.sched
  { k.NoLostWakeup() && Unslaved(k.ports) }

  ghost predicate Good(k: Kernel)
    reads k, k.store, k.store.km, k.store.km.pools, k.rt, k.rt.rmap, k.sched, k.sched.taskList, k.sched.irqTaskMap
  { k.Valid() && Ok(k.sched.Now()) }

  ghost function Look(k: Kernel): View
    reads k, k.rt, k.rt.rmap, k.sched, k.sched.taskList, k.sched.irqTaskMap
  {
    View(k.rt.Bound(), k.rt.rmap.Length, k.portState, k.semState, k.sched.Now(), k.receiving, k.sched.irqTaskMap[..])
  }

  /** The arrays of the scheduler are two. */
  lemma MapLength(k: Kernel)
    requires k.Valid()
    ensures k.sched.irqTaskMap.Length == 16 && k.sched.irqTaskMap != k.sched.taskList
  {
    hide StateOk, CarriersOk, BlockStore.Valid, ResourceTable.Valid, Scheduler.Valid;
    k.sched.IrqMapLength();
  }

  // ----- the calls, one by one -----

  method Create(k: Kernel, restrict: int, page: int) returns (ghost did: P.Change)
    requires Good(k) && k.store.Fresh(page)
    modifies k`ports, k`portState, k.rt, k.rt.rmap, k.store`uses, k.store.km, k.store.km.pools
    ensures Good(k) && (old(Awake(k)) ==> Awake(k))
    ensures Performs(old(Look(k)), DoPortCreate(restrict), did, S.Quiet, Look(k))
  {
    hide Kernel.Valid, BlockStore.Valid, Ok, NoneMissed, Binds, P.Steps, ResourceTable.Bound, Performs;
    ghost var v, ports := Look(k), k.ports;
    did := P.Still;
    if k.sched.current in k.receiving {
      InsidePerforms(v, DoPortCreate(restrict));
      return;
    }
    k.SamePorts();
    ghost var p;
    var id;
    id, p := k.PortCreate(restrict, page);
    k.SamePorts();
    did := P.Made(p);
    CreatePerforms(v, restrict, p, id, Look(k));
    if Unslaved(ports) { assert forall q :: q in k.ports && q != p ==> P.GetPort(ports, q) == P.GetPort(k.ports, q); }
  }

  method Destroy(k: Kernel, port: int) returns (ghost did: P.Change)
    requires Good(k)
    modifies k`ports, k`portState, k.rt, k.rt.rmap, k.store`uses, k.store.km, k.store.km.pools
    ensures Good(k) && (old(Awake(k)) ==> Awake(k))
    ensures Performs(old(Look(k)), DoPortDestroy(port), did, S.Quiet, Look(k))
  {
    hide Kernel.Valid, BlockStore.Valid, Ok, NoneMissed, P.Steps, ResourceTable.Bound, P.MasterOf, Performs;
    ghost var v, ports := Look(k), k.ports;
    did := P.Still;
    if k.sched.current in k.receiving {
      InsidePerforms(v, DoPortDestroy(port));
      return;
    }
    k.SamePorts();
    var r := k.PortDestroy(port);
    k.SamePorts();
    did := DestroyPerforms(v, port, Look(k));
    if Unslaved(ports) {
      assert forall q :: q in k.ports ==> q in ports && P.GetPort(ports, q) == P.GetPort(k.ports, q);
    }
  }

  lemma FreedUnslaved(B: map<int, Binding>, ports: map<int, P.Port>, p: int, r: map<int, P.Port>)
    requires Unslaved(ports) && Reslaving(B, ports, p, 0, r)
    ensures Unslaved(r)
  {
    assert P.GetPort(ports, p).slaved == 0;
    assert forall q :: q in r ==> q in ports && P.GetPort(r, q) == P.GetPort(ports, q);
  }

  method Option(k: Kernel, port: int, opt: int, arg: int)
    requires Good(k)
    modifies k`ports, k`portState
    ensures Good(k) && (old(Awake(k)) && !(opt == PORT_OPT_SLAVE && arg != 0) ==> Awake(k))
    ensures Performs(old(Look(k)), DoPortOption(port, opt, arg), P.Still, S.Quiet, Look(k))
  {
    hide Kernel.Valid, BlockStore.Valid, Ok, NoneMissed, Reslaving, P.Steps, Performs;
    ghost var v, ports := Look(k), k.ports;
    if k.sched.current in k.receiving {
      InsidePerforms(v, DoPortOption(port, opt, arg));
      return;
    }
    k.SamePorts();
    var r := k.PortOption(port, opt, arg);
    OptionPerforms(v, port, opt, arg, Look(k));
    ghost var p := NamedAs(k.rt.Bound(), RSRC_PORT, port);
    if Unslaved(ports) && r == ERR_NONE {
      assert P.GetPort(ports, p).slaved == 0;
      if opt == PORT_OPT_SETRESTRICT {
        assert forall q :: q in k.ports ==> q in ports && P.GetPort(k.ports, q).slaved == P.GetPort(ports, q).slaved;
      } else if arg == 0 {
        FreedUnslaved(k.rt.Bound(), ports, p, k.ports);
      }
    }
  }

  lemma StepUnslaved(s: P.PortState, c: P.Change, r: P.PortState)
    requires Unslaved(s.ports) && P.Steps(s, c, r) && (c.Put? || c.Got?)
    ensures Unslaved(r.ports)
  {
    LinksUnslaved(s.ports, r.ports);
  }

  method Send(k: Kernel, src: int, dst: int, size: int, data: seq<byte>, page: int, page': int)
    returns (ghost did: P.Change)
    requires Good(k) && size <= |data| && k.store.Fresh(page) && k.store.Fresh(page') && page != page'
    modifies k`ports, k`msgs, k`payload, k`portState, k.store, k.store.km, k.store.km.pools, k.sched`tasks
    ensures Good(k) && (old(Awake(k)) ==> Awake(k))
    ensures Performs(old(Look(k)), DoPortSend(src, dst, size, data), did, S.Quiet, Look(k))
  {
    hide Kernel.Valid, BlockStore.Valid, Ok, NoneMissed, SleepsThrough, P.Steps, Refusal, Target, Performs;
    ghost var v, ports, before := Look(k), k.ports, k.portState;
    did := P.Still;
    if k.sched.current in k.receiving {
      InsidePerforms(v, DoPortSend(src, dst, size, data));
      return;
    }
    k.SamePorts();
    if Unslaved(ports) { k.MasterlessWakes(dst); }
    Refuses(v.names, ports, v.now.tasks, v.now.current, src, dst, size);
    var r := k.PortSend(src, dst, size, data, page, page');
    k.SamePorts();
    did := SendPerforms(v, src, dst, size, data, Look(k));
    if r > 0 && Unslaved(ports) {
      ghost var mail := P.Mail(src, dst, Get(v.now.tasks, v.now.current).tid, data[..size]);
      StepUnslaved(before, P.Put(Target(v.names, ports, dst), mail), k.portState);
    }
  }

  lemma Refuses(B: map<int, Binding>, ports: map<int, P.Port>, tasks: map<int, Task>, cur: int, src: int, dst: int,
                size: int)
    ensures Refusal(B, ports, tasks, cur, src, dst, size) <= 0
    ensures Refusal(B, ports, tasks, cur, src, dst, size) == ERR_NONE ==> 1 <= size && NamedAs(B, RSRC_PORT, dst) != 0
  {
  }

  method Receive(k: Kernel, dst: int, size: int) returns (ghost did: P.Change)
    requires Good(k)
    modifies k`ports, k`msgs, k`portState, k`receiving, k.store, k.store.km, k.store.km.pools
    modifies k.sched.taskList, k.sched`tasks, k.sched`current, k.sched`currentNum, k.sched`maxUsed, k.sched`systemTimer
    modifies k.rt, k.rt.rmap
    ensures Good(k) && (old(Awake(k)) ==> Awake(k))
    ensures Performs(old(Look(k)), DoPortRecv(dst, size), did, S.Quiet, Look(k))
  {
    hide Kernel.Valid, BlockStore.Valid, Ok, NoneMissed, Scheduler.Valid, Switched, P.Steps, P.Queue,
      ResourceTable.Bound, Performs, Others;
    ghost var v, before, ports := Look(k), k.portState, k.ports;
    did := P.Still;
    if k.sched.current in k.receiving || k.sched.currentNum == 0 {
      if k.sched.current in k.receiving { InsidePerforms(v, DoPortRecv(dst, size)); }
      else { IdlePerforms(v, DoPortRecv(dst, size)); }
      return;
    }
    var out := new byte[if size > 0 then size else 0];
    MapLength(k);
    k.SamePorts();
    var r := k.PortRecv(dst, size, out);
    k.SamePorts();
    did := ReceivePerforms(v, dst, size, Look(k));
    if r.Received? && Unslaved(ports) { StepUnslaved(before, Reads(v, dst, false), k.portState); }
  }

  /** A task that was woken inside port_recv goes on there, with the header that it passed. */
  method Resume(k: Kernel, dst: int, size: int) returns (ghost did: P.Change)
    requires Good(k)
    modifies k`ports, k`msgs, k`portState, k`receiving, k.store, k.store.km, k.store.km.pools
    modifies k.sched.taskList, k.sched`tasks, k.sched`current, k.sched`currentNum, k.sched`maxUsed, k.sched`systemTimer
    modifies k.rt, k.rt.rmap
    ensures Good(k) && (old(Awake(k)) ==> Awake(k))
    ensures Performs(old(Look(k)), DoResume(dst, size), did, S.Quiet, Look(k))
  {
    hide Kernel.Valid, BlockStore.Valid, Ok, NoneMissed, Scheduler.Valid, Switched, P.Steps, P.Queue,
      ResourceTable.Bound, Performs, Others;
    ghost var v, before, ports := Look(k), k.portState, k.ports;
    did := P.Still;
    var found := k.FindPort(dst);
    var cur := k.sched.current;
    if cur !in k.receiving || k.sched.currentNum == 0 || found != k.receiving[cur] || found == 0 {
      NothingPerforms(v, DoResume(dst, size));
      return;
    }
    var out := new byte[if size > 0 then size else 0];
    MapLength(k);
    k.SamePorts();
    var r := k.PortResume(dst, size, out);
    k.SamePorts();
    did := ResumePerforms(v, dst, size, Look(k));
    if !r.Blocked? && Unslaved(ports) { StepUnslaved(before, Reads(v, dst, true), k.portState); }
  }

  method NewSem(k: Kernel, count: int, page: int, page': int) returns (ghost did: S.Change)
    requires Good(k) && k.store.Fresh(page) && k.store.Fresh(page') && page != page'
    modifies k`sems, k`queues, k`semState, k.rt, k.rt.rmap, k.store`uses, k.store.km, k.store.km.pools
    ensures Good(k) && (old(Awake(k)) ==> Awake(k))
    ensures Performs(old(Look(k)), DoSemCreate(count), P.Still, did, Look(k))
  {
    hide Kernel.Valid, BlockStore.Valid, Ok, NoneMissed, Scheduler.Valid, Binds, Performs, ResourceTable.Bound;
    ghost var v := Look(k);
    did := S.Quiet;
    if k.sched.current in k.receiving {
      InsidePerforms(v, DoSemCreate(count));
      return;
    }
    k.SameSems(0);
    ghost var x, q;
    var id;
    id, x, q := k.SemCreate(count, page, page');
    did := S.Begun(x, count);
    NewSemPerforms(v, count, x, q, id, Look(k));
  }

  method Acquire(k: Kernel, id: int, page: int) returns (ghost did: S.Change)
    requires Good(k) && k.store.Fresh(page)
    modifies k`sems, k`queues, k`nodes, k`semState, k.store`uses, k.store.km, k.store.km.pools
    modifies k.sched.taskList, k.sched`tasks, k.sched`current, k.sched`currentNum, k.sched`maxUsed
    modifies k.sched`systemTimer, k.rt, k.rt.rmap
    ensures Good(k) && (old(Awake(k)) ==> Awake(k))
    ensures Performs(old(Look(k)), DoSemAcquire(id), P.Still, did, Look(k))
  {
    hide Kernel.Valid, BlockStore.Valid, Ok, NoneMissed, Scheduler.Valid, Switched, WaitsLast, Performs,
      ResourceTable.Bound, Others, S.Passed;
    ghost var v := Look(k);
    did := S.Quiet;
    if k.sched.current in k.receiving || k.sched.currentNum == 0 {
      if k.sched.current in k.receiving { InsidePerforms(v, DoSemAcquire(id)); }
      else { IdlePerforms(v, DoSemAcquire(id)); }
      return;
    }
    MapLength(k);
    k.SameSems(id);
    var r := k.SemAcquire(id, page);
    did := AcquirePerforms(v, id, Look(k));
  }

  method Release(k: Kernel, id: int) returns (ghost did: S.Change)
    requires Good(k)
    modifies k`sems, k`queues, k`nodes, k`semState, k.store`uses, k.store.km, k.store.km.pools
    modifies k.sched`tasks, k.sched`current, k.sched`currentNum
    ensures Good(k) && (old(Awake(k)) ==> Awake(k))
    ensures Performs(old(Look(k)), DoSemRelease(id), P.Still, did, Look(k))
  {
    hide Kernel.Valid, BlockStore.Valid, Ok, NoneMissed, Scheduler.Valid, Preempted, FirstLeaves, S.Waiters, S.Raised,
      Performs, ResourceTable.Bound;
    ghost var v := Look(k);
    did := S.Quiet;
    if k.sched.current in k.receiving {
      InsidePerforms(v, DoSemRelease(id));
      return;
    }
    k.SameSems(id);
    var r := k.SemRelease(id);
    did := ReleasePerforms(v, id, Look(k));
  }

  method SleepFor(k: Kernel, time: int)
    requires Good(k)
    modifies k.sched.taskList, k.sched`tasks, k.sched`current, k.sched`currentNum, k.sched`maxUsed
    modifies k.sched`systemTimer, k.rt, k.rt.rmap
    ensures Good(k) && (old(Awake(k)) ==> Awake(k))
    ensures Performs(old(Look(k)), DoSleep(time), P.Still, S.Quiet, Look(k))
  {
    hide Kernel.Valid, BlockStore.Valid, Ok, NoneMissed, Scheduler.Valid, Switched, Performs, ResourceTable.Bound,
      Others, TasksAfter;
    ghost var v, e := Look(k), DoSleep(time);
    if k.sched.current in k.receiving || k.sched.currentNum == 0 {
      if k.sched.current in k.receiving { InsidePerforms(v, e); } else { IdlePerforms(v, e); }
      return;
    }
    MapLength(k);
    k.Sleep(time);
    ChangesTurn(v, e, Get(v.now.tasks, v.now.current).(state := SleepTimer, timer := time), k.sched.Now());
    TasksPerform(v, e, Look(k));
  }

  method Exit(k: Kernel)
    requires Good(k)
    modifies k.sched.taskList, k.sched`tasks, k.sched`current, k.sched`currentNum, k.sched`maxUsed
    modifies k.sched`systemTimer, k.rt, k.rt.rmap
    ensures Good(k) && (old(Awake(k)) ==> Awake(k))
    ensures Performs(old(Look(k)), DoTerminate, P.Still, S.Quiet, Look(k))
  {
    hide Kernel.Valid, BlockStore.Valid, Ok, NoneMissed, Scheduler.Valid, Switched, Performs, ResourceTable.Bound,
      Others, TasksAfter;
    ghost var v := Look(k);
    if k.sched.current in k.receiving {
      InsidePerforms(v, DoTerminate);
      return;
    }
    MapLength(k);
    k.Terminate();
    if v.now.num == 0 {
      KeepsTurn(v, DoTerminate);
    } else {
      ChangesTurn(v, DoTerminate, Get(v.now.tasks, v.now.current).(state := Dead), k.sched.Now());
    }
    TasksPerform(v, DoTerminate, Look(k));
  }

  method Handle(k: Kernel, irq: int)
    requires Good(k)
    modifies k.sched.irqTaskMap, k.sched.taskList, k.sched`tasks, k.sched`current, k.sched`currentNum, k.sched`maxUsed
    modifies k.sched`systemTimer, k.rt, k.rt.rmap
    ensures Good(k) && (old(Awake(k)) ==> Awake(k))
    ensures Performs(old(Look(k)), DoHandleIrq(irq), P.Still, S.Quiet, Look(k))
  {
    hide Kernel.Valid, BlockStore.Valid, NoneMissed, Scheduler.Valid, Switched, Performs, ResourceTable.Bound, Others,
      TasksAfter, Ok;
    ghost var v, e := Look(k), DoHandleIrq(irq);
    if k.sched.current in k.receiving {
      InsidePerforms(v, e);
      return;
    }
    MapLength(k);
    OkMid(v.now);
    k.HandleIrq(irq);
    if 0 < irq < 16 {
      ChangesTurn(v, e, Get(v.now.tasks, v.now.current).(irq := irq), k.sched.Now());
    } else {
      SwitchesTurn(v, e, k.sched.Now());
    }
    TasksPerform(v, e, Look(k));
  }

  method AwaitIrq(k: Kernel)
    requires Good(k)
    modifies k.sched.taskList, k.sched`tasks, k.sched`current, k.sched`currentNum, k.sched`maxUsed
    modifies k.sched`systemTimer, k.rt, k.rt.rmap
    ensures Good(k) && (old(Awake(k)) ==> Awake(k))
    ensures Performs(old(Look(k)), DoSleepIrq, P.Still, S.Quiet, Look(k))
  {
    hide Kernel.Valid, BlockStore.Valid, Ok, NoneMissed, Scheduler.Valid, Switched, Performs, ResourceTable.Bound,
      Others, TasksAfter;
    ghost var v := Look(k);
    ghost var t := Get(v.now.tasks, v.now.current);
    if k.sched.current in k.receiving || k.sched.currentNum == 0 {
      if k.sched.current in k.receiving { InsidePerforms(v, DoSleepIrq); } else { IdlePerforms(v, DoSleepIrq); }
      return;
    }
    MapLength(k);
    k.SleepForIrq();
    if t.irq != 0 {
      ChangesTurn(v, DoSleepIrq, t.(state := SleepIrq), k.sched.Now());
    } else {
      SwitchesTurn(v, DoSleepIrq, k.sched.Now());
    }
    TasksPerform(v, DoSleepIrq, Look(k));
  }

  method IsVacant(sched: Scheduler, t: int) returns (free: bool)
    ensures free == Vacant(sched.taskList[..], sched.tasks, t)
  {
    if t == 0 || t !in sched.tasks { return t != 0; }
    var i := sched.tasks[t].tid;
    free := sched.tasks[t].state == Dead && !(0 <= i < sched.taskList.Length && sched.taskList[i] == t);
  }

  method Spawn(k: Kernel, t: int, junk: Task, parent: int)
    requires Good(k)
    modifies k.sched.taskList, k.sched`tasks, k.sched`maxUsed, k.rt, k.rt.rmap
    ensures Good(k) && (old(Awake(k)) ==> Awake(k))
    ensures Performs(old(Look(k)), DoCreateTask(t, junk, parent), P.Still, S.Quiet, Look(k))
  {
    hide Kernel.Valid, BlockStore.Valid, Ok, NoneMissed, Scheduler.Valid, Calm, Mid, FirstEmpty, Performs,
      ResourceTable.Bound, Others;
    ghost var v, e := Look(k), DoCreateTask(t, junk, parent);
    var free := IsVacant(k.sched, t);
    if k.sched.current in k.receiving || !free {
      NothingPerforms(v, e);
      return;
    }
    MapLength(k);
    var added := k.CreateTask(t, junk, parent);
    OkMid(k.sched.Now());
    TasksPerform(v, e, Look(k));
  }

  method Tick(k: Kernel)
    requires Good(k)
    modifies k.sched.taskList, k.sched`tasks, k.sched`current, k.sched`currentNum, k.sched`maxUsed
    modifies k.sched`systemTimer, k.rt, k.rt.rmap
    ensures Good(k) && (old(Awake(k)) ==> Awake(k))
    ensures Performs(old(Look(k)), Timer, P.Still, S.Quiet, Look(k))
  {
    hide Kernel.Valid, BlockStore.Valid, Ok, NoneMissed, Scheduler.Valid, Switched, Performs, ResourceTable.Bound,
      Others, TasksAfter;
    ghost var v := Look(k);
    MapLength(k);
    k.Switch();
    SwitchesTurn(v, Timer, k.sched.Now());
    TasksPerform(v, Timer, Look(k));
  }

  method Interrupted(k: Kernel, number: int)
    requires Good(k) && 0 <= number < 16
    modifies k.sched`tasks, k.sched`current, k.sched`currentNum
    ensures Good(k) && (old(Awake(k)) ==> Awake(k))
    ensures Performs(old(Look(k)), Interrupt(number), P.Still, S.Quiet, Look(k))
  {
    hide Kernel.Valid, BlockStore.Valid, Ok, NoneMissed, Scheduler.Valid, Preempted, Performs, ResourceTable.Bound,
      Others, TasksAfter;
    ghost var v, e := Look(k), Interrupt(number);
    MapLength(k);
    ghost var h := k.sched.irqTaskMap[number];
    k.IrqDispatch(number);
    if h != 0 && Get(v.now.tasks, h).state == SleepIrq {
      CedesTurn(v, e, h, k.sched.Now());
    } else {
      KeepsTurn(v, e);
    }
    TasksPerform(v, e, Look(k));
  }

  // ----- runs -----

  /** A page that is not taken: the one wished for, if it is free, or one behind all others. */
  method ChoosePage(taken: set<int>, wish: int) returns (page: int)
    ensures page > 0 && page % PAGE == 0 && page !in taken
    ensures wish > 0 && wish % PAGE == 0 && wish !in taken ==> page == wish
  {
    if wish > 0 && wish % PAGE == 0 && wish !in taken { return wish; }
    var rest, i := taken, 1;
    while rest != {}
      invariant i >= 1 && rest <= taken && forall x :: x in taken && x !in rest ==> x < i * PAGE
      decreases |rest|
    {
      assert exists x :: x in rest by { assert (forall x :: x !in rest) ==> rest == {}; }
      var x :| x in rest;
      rest := rest - {x};
      if x >= i * PAGE { i := x / PAGE + 1; }
    }
    page := i * PAGE;
  }

  /** One step. */
  method Take(k: Kernel, e: Event, page: int, page': int) returns (ghost did: P.Change, ghost lock: S.Change)
    requires Good(k) && Wellformed(e) && k.store.Fresh(page) && k.store.Fresh(page') && page != page'
    modifies k, k.store, k.store.km, k.store.km.pools, k.rt, k.rt.rmap, k.sched, k.sched.taskList, k.sched.irqTaskMap
    ensures Good(k) && (old(Awake(k)) && !Enslaves(e) ==> Awake(k))
    ensures Performs(old(Look(k)), e, did, lock, Look(k))
  {
    hide Good, Awake, Performs, Look;
    did, lock := P.Still, S.Quiet;
    match e {
      case DoPortCreate(restrict) => did := Create(k, restrict, page);
      case DoPortDestroy(port) => did := Destroy(k, port);
      case DoPortOption(port, opt, arg) => Option(k, port, opt, arg);
      case DoPortSend(src, dst, size, data) => did := Send(k, src, dst, size, data, page, page');
      case DoPortRecv(dst, size) => did := Receive(k, dst, size);
      case DoResume(dst, size) => did := Resume(k, dst, size);
      case DoSemCreate(count) => lock := NewSem(k, count, page, page');
      case DoSemAcquire(id) => lock := Acquire(k, id, page);
      case DoSemRelease(id) => lock := Release(k, id);
      case DoSleep(time) => SleepFor(k, time);
      case DoTerminate => Exit(k);
      case DoHandleIrq(irq) => Handle(k, irq);
      case DoSleepIrq => AwaitIrq(k);
      case DoCreateTask(t, junk, parent) => Spawn(k, t, junk, parent);
      case Timer => Tick(k);
      case Interrupt(number) => Interrupted(k, number);
    }
  }

  lemma GoodSound(k: Kernel)
    requires Good(k)
    ensures Sound(Look(k))
  {
    hide CarriersOk, BlockStore.Valid, ResourceTable.Valid, Scheduler.Valid, ResourceTable.Bound, Ok, P.PortsOk,
      S.SemsOk, OwnersOk, ReceiversOk, PortUses, PayloadUses, SemUses, IdsOk;
    StateParts(k.rt.Bound(), k.portState, k.receiving, k.semState, k.sched.tasks, k.store.uses);
    k.sched.IdsHold();
    k.sched.IrqMapLength();
  }

  ghost predicate Masterless(steps: seq<Step>) {
    forall i {:trigger steps[i]} :: 0 <= i < |steps| ==> !Enslaves(steps[i].event)
  }

  /** The blocks in use are the live ones, and a page for large messages is idle or carries one that waits. */
  ghost predicate BlocksAreLive(k: Kernel)
    reads k, k.store, k.store.km
  {
    && (forall c, b {:trigger InUse(k.store.km.H, c, b)} :: InUse(k.store.km.H, c, b) <==>
       Live(k.portState, k.semState, c, b))
    && forall q {:trigger q in k.store.pages} ::
         q in k.store.pages <==> q in k.store.pool || exists x :: HasPage(k.portState, x, q)
  }

  lemma NothingLeaks(k: Kernel)
    requires k.Valid() && k.portState.lost == {}
    ensures BlocksAreLive(k)
  {
    hide P.PortsOk, S.SemsOk, CarriersOk, UsesOk, PagesOk, Live, PortUses, PayloadUses, SemUses, OwnersOk, ReceiversOk,
      Scheduler.Valid, ResourceTable.Valid, InUse;
    var B, s, m, store := k.rt.Bound(), k.portState, k.semState, k.store;
    forall c, b {:trigger InUse(store.km.H, c, b)} ensures InUse(store.km.H, c, b) <==> Live(s, m, c, b) {
      LiveBlocks(B, store.km.H, s, k.receiving, m, k.sched.tasks, store.uses, c, b);
    }
    forall q {:trigger q in store.pages}
      ensures q in store.pages <==> q in store.pool || exists x :: HasPage(s, x, q)
    {
      LivePages(B, s, store.pages, store.pool, store.km.P, q);
    }
  }

  function EventsOf(steps: seq<Step>): (r: seq<Event>)
    ensures |r| == |steps|
  { seq(|steps|, i requires 0 <= i < |steps| => steps[i].event) }

  lemma EventsGrow(steps: seq<Step>, i: int)
    requires 0 <= i < |steps|
    ensures EventsOf(steps[..i + 1]) == EventsOf(steps[..i]) + [steps[i].event]
  {
  }

  /** Any run of steps keeps every invariant. The views are what the kernel is before, between and after the steps; mail
      and locks say what each step did to the ports and to the semaphores. What follows for runs is promised; no wakeup
      is lost unless a port gets a master; and blocks are conserved unless a port with waiting mail is destroyed. */
  method Run(k: Kernel, steps: seq<Step>)
    returns (ghost views: seq<View>, ghost mail: seq<P.Change>, ghost locks: seq<S.Change>)
    requires Good(k) && forall i {:trigger steps[i]} :: 0 <= i < |steps| ==> Wellformed(steps[i].event)
    modifies k, k.store, k.store.km, k.store.km.pools, k.rt, k.rt.rmap, k.sched, k.sched.taskList, k.sched.irqTaskMap
    ensures Good(k) && (old(Awake(k)) && Masterless(steps) ==> Awake(k))
    ensures |views| == |steps| + 1 && views[0] == old(Look(k)) && views[|steps|] == Look(k)
    ensures |mail| == |steps| && KernelRun(views, EventsOf(steps), mail, locks)
      && Promises(views, EventsOf(steps), mail, locks)
    ensures old(k.portState).lost == {} && P.Spares(PortsOf(views), mail) ==> BlocksAreLive(k)
  {
    hide Good, Awake, KernelRun, Performs, Promises, Sound, BlocksAreLive, P.Spares, PortsOf, Look, EventsOf;
    views, mail, locks := [Look(k)], [], [];
    GoodSound(k);
    RunEmpty(Look(k));
    LookPorts(k);
    var i := 0;
    while i < |steps|
      invariant 0 <= i <= |steps| && Good(k) && (old(Awake(k)) && Masterless(steps) ==> Awake(k))
      invariant |views| == i + 1 && views[0] == old(Look(k)) && views[i] == Look(k)
      invariant KernelRun(views, EventsOf(steps[..i]), mail, locks)
    {
      var page := ChoosePage(k.store.km.taken, steps[i].page);
      var page' := ChoosePage(k.store.km.taken + {page}, steps[i].page');
      ghost var did, lock := Take(k, steps[i].event, page, page');
      GoodSound(k);
      RunGrows(views, EventsOf(steps[..i]), mail, locks, steps[i].event, did, lock, Look(k));
      EventsGrow(steps, i);
      views, mail, locks := views + [Look(k)], mail + [did], locks + [lock];
      i := i + 1;
    }
    assert steps[..i] == steps;
    RunLengths(views, EventsOf(steps), mail, locks);
    RunPromises(views, EventsOf(steps), mail, locks);
    LookPorts(k);
    if old(k.portState).lost == {} && P.Spares(PortsOf(views), mail) { Leaks(k); }
  }

  lemma LookPorts(k: Kernel)
    ensures Look(k).ports == k.portState
  {
  }

  lemma Leaks(k: Kernel)
    requires Good(k) && k.portState.lost == {}
    ensures BlocksAreLive(k)
  {
    hide BlocksAreLive, Kernel.Valid;
    NothingLeaks(k);
  }

  lemma IdleAlone(s: Sched, r: Sched, idle: int)
    requires Switched(s, r) && Mid(s) && s.tasks == map[idle := Task(Ready, 0, 0, 0, 0, 0, 0)]
    requires forall i {:trigger Slot(s.slots, i)} :: Slot(s.slots, i) == if i == 0 then idle else 0
    ensures r.tasks.Keys == {idle} && r.tasks[idle].rid == 0 && r.current == idle && r.num == 0
    ensures forall i {:trigger Slot(r.slots, i)} :: Slot(r.slots, i) == if i == 0 then idle else 0
  {
    assert SlotsCleared(s, r) && TasksSwitched(s, r);
    assert Get(r.tasks, idle) == r.tasks[idle];
  }

  /** Only the idle task exists; it runs in slot 0. There are no identifiers, ports or semaphores, and no port_recv. */
  ghost predicate Booted(k: Kernel, rmax: int, idle: int)
    reads k, k.rt, k.rt.rmap, k.sched, k.sched.taskList
  {
    var s := k.sched.Now();
    && k.rt.rmap.Length == rmax && Others(k.rt.Bound()) == map[] && k.receiving == map[] && k.ports == map[]
    && k.sems == map[]
    && s.tasks.Keys == {idle} && s.tasks[idle].rid == 0 && s.current == idle && s.num == 0
    && forall i {:trigger Slot(s.slots, i)} :: Slot(s.slots, i) == if i == 0 then idle else 0
  }

  /** The kernel once kinit has made its tables and pools and the idle task, and the first task has been switched to. */
  method Boot(rmax: int, idle: int, pages: seq<int>) returns (k: Kernel)
    requires rmax >= 2 && idle != 0
    requires |pages| == CLASSES && forall c :: 0 <= c < CLASSES ==> pages[c] > 0 && pages[c] % PAGE == 0
    requires forall c, d :: 0 <= c < d < CLASSES ==> pages[c] != pages[d]
    ensures fresh({k, k.rt, k.rt.rmap, k.store, k.store.km, k.store.km.pools})
      && fresh({k.sched, k.sched.taskList, k.sched.irqTaskMap})
    ensures Good(k) && Awake(k) && k.portState.lost == {} && P.Exact(k.portState) && Booted(k, rmax, idle)
  {
    hide Kernel.Valid, Scheduler.Valid, ResourceTable.Valid, BlockStore.Valid, NoneMissed, Ok, Mid, PoolsOk, Switched;
    var rt := new ResourceTable(rmax);
    var km := new BlockPools(pages);
    var store := new BlockStore(km);
    var sched := new Scheduler(rt, idle);
    k := new Kernel(rt, store, sched);
    assert Unslaved(k.ports);
    k.SamePorts();
    ghost var s := k.sched.Now();
    k.Switch();
    IdleAlone(s, k.sched.Now(), idle);
  }
}
