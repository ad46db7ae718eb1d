/** kernel/port.c and kernel/sem.c: ports, messages and semaphores over the kernel's tables, block pools and scheduler.
    The structures are maps from addresses, which the methods update in the order of the source. What they do is told by
    the functions of PortStates and SemStates on two ghost copies of the state; Valid ties the copies to the maps, to
    the identifiers, to the tasks that sleep, and to the blocks in use. Every method requires Valid and keeps it. */
module Kernels {
  import opened Arithmetic
  import opened Lists
  import opened Resources
  import opened KernelMemory
  import opened SchedulerStates
  import opened Schedulers
  import P = PortStates
  import S = SemStates
  import opened BlockUses
  import opened KernelStates

  const ERR_NONE := 0
  const ERR_PERMISSION := -1
  const ERR_RESOURCE := -2
  const ERR_MEMORY := -3
  const ERR_SENDPORT := -4
  const ERR_RECVPORT := -5

  const PORT_OPT_SETRESTRICT := 2
  const PORT_OPT_SLAVE := 4

  /** How port_recv ends: with an error, asleep, or with a message's length, source, addressed port and sender. */
  datatype Receipt = Failed(code: int) | Blocked | Received(length: int, from: int, to: int, pid: int)

  class Kernel {
    const rt: ResourceTable
    const store: BlockStore
    const sched: Scheduler

    // the structures, by address
    var ports: map<int, P.Port>
    var msgs: map<int, P.Message>
    var payload: map<int, seq<byte>>
    var sems: map<int, S.Semaphore>
    var queues: map<int, S.WaitQueue>
    var nodes: map<int, S.Node>

    // for each task that is inside port_recv the port structure its kernel stack refers to
    var receiving: map<int, int>

    ghost var portState: P.PortState
    ghost var semState: S.SemState

    ghost predicate Mirrors()
      reads this
    {
      && portState.ports == ports && portState.msgs == msgs && portState.payload == payload
      && Mirrored(semState, sems, queues, nodes)
    }

    ghost predicate Valid()
      reads this, store, store.km, store.km.pools, rt, rt.rmap, sched, sched.taskList, sched.irqTaskMap
    {
      && rt.Valid() && sched.rt == rt && sched.Valid() && store.Valid() && Mirrors()
      && StateOk(rt.Bound(), portState, receiving, semState, sched.tasks, store.uses)
      && CarriersOk(store.pages, store.pool, msgs, portState.of)
    }

    lemma SamePorts()
      requires Valid()
      ensures portState.ports == ports
    {
      hide StateOk, CarriersOk, BlockStore.Valid, Scheduler.Valid, ResourceTable.Valid;
    }

    lemma SameSems(id: int)
      requires Valid()
      ensures semState.sems == sems
      ensures NamedAs(rt.Bound(), RSRC_SEM, id) != 0 ==> NamedAs(rt.Bound(), RSRC_SEM, id) in sems
    {
      hide StateOk, CarriersOk, BlockStore.Valid, Scheduler.Valid, ResourceTable.Valid, View, S.SemsOk;
      StateParts(rt.Bound(), portState, receiving, semState, sched.tasks, store.uses);
      SemFound(rt.Bound(), semState, sched.tasks, id);
    }

    /** Where no port has a master, a send wakes whoever sleeps on the port. */
    lemma MasterlessWakes(dst: int)
      requires Valid() && forall q {:trigger P.GetPort(ports, q)} :: q in ports ==> P.GetPort(ports, q).slaved == 0
      ensures NamedAs(rt.Bound(), RSRC_PORT, dst) != 0 ==>
        !SleepsThrough(portState, receiving, sched.tasks, Target(rt.Bound(), ports, dst), dst)
    {
      hide StateOk, CarriersOk, BlockStore.Valid, Scheduler.Valid, ResourceTable.Valid, P.PortsOk, SleepsThrough, View;
      StateParts(rt.Bound(), portState, receiving, semState, sched.tasks, store.uses);
      assert forall q :: q in ports ==> P.GetPort(ports, q) == ports[q];
      UnslavedWakes(rt.Bound(), portState, receiving, sched.tasks, dst);
    }

    /** Between steps the current task runs, outside port_recv. */
    ghost predicate Calling()
      reads this, sched, sched.taskList
    { Ok(sched.Now()) && sched.current !in receiving }

    ghost predicate NoLostWakeup()
      reads this, sched
    { NoneMissed(portState, receiving, sched.tasks) }

    /** kinit_resource and kinit_task have run, and no port or semaphore exists yet. */
    constructor (rt: ResourceTable, store: BlockStore, sched: Scheduler)
      requires rt.Valid() && rt.Bound() == map[] && store.Valid() && store.uses == map[] && store.pages == {}
        && sched.Valid() && sched.rt == rt
      requires forall t {:trigger t in sched.tasks} ::
        t in sched.tasks ==> sched.tasks[t].state !in {SleepPort, SleepSem}
      ensures this.rt == rt && this.store == store && this.sched == sched
      ensures ports == map[] && msgs == map[] && sems == map[] && receiving == map[] && portState.lost == {}
      ensures NoLostWakeup()
      ensures Valid()
    {
      hide BlockStore.Valid, Scheduler.Valid, ResourceTable.Valid, ResourceTable.Bound, View;
      this.rt, this.store, this.sched := rt, store, sched;
      ports, msgs, payload, sems, queues, nodes, receiving := map[], map[], map[], map[], map[], map[], map[];
      portState := P.PortState(map[], map[], map[], map[], map[], map[], map[], {});
      semState := S.SemState(map[], map[], map[], map[], map[], map[], map[], map[], map[], map[], map[]);
    }

    /** rsrc_new for a port or a semaphore; identifiers of tasks are not touched. */
    method Bind(kind: int, x: int) returns (id: int)
      requires rt.Valid() && sched.rt == rt && sched.Valid() && kind in {RSRC_PORT, RSRC_SEM}
      modifies rt, rt.rmap
      ensures Binds(old(rt.Bound()), rt.rmap.Length, kind, x, id, rt.Bound())
      ensures 0 !in rt.Bound() && rt.Valid() && sched.Valid()
    {
      hide Mid, IdsOk, FreeList, Full;
      ghost var B := rt.Bound();
      id := rt.New(kind, x);
      NoZero(rt.rmap[..], rt.rfree, rt.F);
      if id != 0 {
        BindOther(B, id, Binding(kind, x), RSRC_TASK);
        IdsForeign(B, sched.taskList[..], sched.tasks, rt.Bound());
      }
    }

    /** rsrc_del of such an identifier */
    method Unbind(id: int)
      requires rt.Valid() && sched.rt == rt && sched.Valid() && id in rt.Bound() && rt.Bound()[id].kind != RSRC_TASK
      modifies rt, rt.rmap
      ensures rt.Bound() == old(rt.Bound()) - {id} && rt.Valid() && sched.Valid()
    {
      hide Mid, IdsOk, FreeList;
      ghost var B := rt.Bound();
      rt.Delete(id);
      NoZero(rt.rmap[..], rt.rfree, rt.F);
      UnbindOther(B, id, RSRC_TASK);
      IdsForeign(B, sched.taskList[..], sched.tasks, rt.Bound());
    }

    /** rsrc_find of a port */
    method FindPort(id: int) returns (p: int)
      requires Valid()
      ensures p == NamedAs(rt.Bound(), RSRC_PORT, id)
      ensures p != 0 ==> p in ports && IdOf(portState.ids, p) == id
    {
      hide StateOk, CarriersOk, BlockStore.Valid, Scheduler.Valid, P.PortsOk, View;
      StateParts(rt.Bound(), portState, receiving, semState, sched.tasks, store.uses);
      Found(rt.Bound(), portState, id);
      p := rt.Find(RSRC_PORT, id);
    }

    /** port_create; p is the address of the new structure, and page what MmAllocPages returns if kmalloc needs a
        page. */
    method PortCreate(restrict: int, page: int) returns (id: int, ghost p: int)
      requires Valid() && Calling() && store.Fresh(page)
      modifies this`ports, this`portState, rt, rt.rmap, store`uses, store.km, store.km.pools
      ensures p !in old(ports)
        && portState == P.Created(old(portState), p, P.Port(sched.current, restrict, 0, 0, 0, 0, 1), id)
      ensures ports == old(ports)[p := P.Port(sched.current, restrict, 0, 0, 0, 0, 1)]
      ensures Binds(old(rt.Bound()), rt.rmap.Length, RSRC_PORT, p, id, rt.Bound())
      ensures P.Steps(old(portState), P.Made(p), portState)
      ensures old(NoLostWakeup()) ==> NoLostWakeup()
      ensures Valid()
    {
      hide StateOk, CarriersOk, NoneMissed, BlockStore.Valid, ResourceTable.Valid, Scheduler.Valid, View, Binds, Ok,
        Scheduler.Now, ResourceTable.Bound, P.Steps;
      ghost var B, s, m, tasks, U := rt.Bound(), portState, semState, sched.tasks, store.uses;
      sched.CurrentListed();
      var k := P.Port(sched.current, restrict, 0, 0, 0, 0, 1);
      var q := store.Take(KM32, page, APort);
      ports := ports[q := k];
      id := Bind(RSRC_PORT, q);
      p, portState := q, P.Created(s, q, k, id);
      PortBound(B, s, receiving, m, tasks, U, q, k, id, rt.rmap.Length, rt.Bound());
      assert Mirrors() && StateOk(rt.Bound(), portState, receiving, semState, sched.tasks, store.uses);
    }

    /** The structure and the identifier of a port that counts no slave go away. */
    method Discard(p: int, port: int)
      requires Valid() && p in ports && ports[p].refcount == 1 && IdOf(portState.ids, p) == port != 0
        && ports[p].owner !in receiving
      modifies this`ports, this`portState, rt, rt.rmap, store`uses, store.km, store.km.pools
      ensures portState == P.Destroyed(old(portState), p) && rt.Bound() == old(rt.Bound()) - {port}
      ensures P.Steps(old(portState), P.Gone(p, P.MasterOf(old(rt.Bound()), old(ports), p)), portState)
      ensures old(NoLostWakeup()) ==> NoLostWakeup()
      ensures Valid()
    {
      hide StateOk, CarriersOk, NoneMissed, BlockStore.Valid, ResourceTable.Valid, Scheduler.Valid, View, Scheduler.Now,
        ResourceTable.Bound, P.Steps, P.PortsOk, P.MasterOf;
      StateParts(rt.Bound(), portState, receiving, semState, sched.tasks, store.uses);
      P.DestroySteps(rt.Bound(), portState, p);
      DestroyState(rt.Bound(), portState, receiving, semState, sched.tasks, store.uses, p);
      store.Give(KM32, p);
      ports := ports - {p};
      Unbind(port);
      portState := P.Destroyed(portState, p);
      assert Mirrors() && StateOk(rt.Bound(), portState, receiving, semState, sched.tasks, store.uses);
    }

    /** port_destroy */
    method PortDestroy(port: int) returns (r: int)
      requires Valid() && Calling()
      modifies this`ports, this`portState, rt, rt.rmap, store`uses, store.km, store.km.pools
      ensures var p := NamedAs(old(rt.Bound()), RSRC_PORT, port);
        r == if p == 0 then ERR_RESOURCE
             else if P.GetPort(old(ports), p).owner != sched.current then ERR_PERMISSION
             else if P.GetPort(old(ports), p).refcount == 1 then ERR_NONE else ERR_RESOURCE
      ensures if r == ERR_NONE
        then portState == P.Destroyed(old(portState), NamedAs(old(rt.Bound()), RSRC_PORT, port))
          && rt.Bound() == old(rt.Bound()) - {port}
        else portState == old(portState) && rt.Bound() == old(rt.Bound())
      ensures var p := NamedAs(old(rt.Bound()), RSRC_PORT, port);
        r == ERR_NONE ==> P.Steps(old(portState), P.Gone(p, P.MasterOf(old(rt.Bound()), old(ports), p)), portState)
      ensures old(NoLostWakeup()) ==> NoLostWakeup()
      ensures Valid()
    {
      hide StateOk, CarriersOk, NoneMissed, BlockStore.Valid, ResourceTable.Valid, Scheduler.Valid, View, Ok,
        Scheduler.Now, ResourceTable.Bound, P.PortsOk, P.Destroyed, P.Steps, P.MasterOf;
      StateParts(rt.Bound(), portState, receiving, semState, sched.tasks, store.uses);
      Found(rt.Bound(), portState, port);
      var p := rt.Find(RSRC_PORT, port);
      if p == 0 { return ERR_RESOURCE; }
      if ports[p].owner != sched.current { return ERR_PERMISSION; }
      if ports[p].refcount == 1 {
        Discard(p, port);
        return ERR_NONE;
      }
      return ERR_RESOURCE;
    }

    /** The assignments that change p's master: count the new one up, count the old one down, store the new one. */
    method Relink(p: int, arg: int)
      requires rt.Valid() && p in ports
      requires arg != 0 ==> P.NamesPort(rt.Bound(), ports, arg)
      requires ports[p].slaved != 0 ==> P.NamesPort(rt.Bound(), ports, ports[p].slaved)
      modifies this`ports
      ensures ports.Keys == old(ports).Keys
      ensures forall q {:trigger P.GetPort(ports, q)} :: q in ports ==>
        P.GetPort(ports, q) == P.GetPort(old(ports), q).(
          refcount := P.GetPort(old(ports), q).refcount
            + (if arg != 0 && q == NamedAs(rt.Bound(), RSRC_PORT, arg) then 1 else 0)
            - (if old(ports)[p].slaved != 0 && q == NamedAs(rt.Bound(), RSRC_PORT, old(ports)[p].slaved) then 1 else 0),
          slaved := if q == p then arg else P.GetPort(old(ports), q).slaved)
      ensures Reslaving(rt.Bound(), old(ports), p, arg, ports)
    {
      hide ResourceTable.Valid, ResourceTable.Bound, View;
      if arg != 0 {
        var master := rt.Find(RSRC_PORT, arg);
        ports := ports[master := ports[master].(refcount := ports[master].refcount + 1)];
      }
      if ports[p].slaved != 0 {
        var master := rt.Find(RSRC_PORT, ports[p].slaved);
        ports := ports[master := ports[master].(refcount := ports[master].refcount - 1)];
      }
      ports := ports[p := ports[p].(slaved := arg)];
    }

    /** PORT_OPT_SLAVE: p gets the master arg, or none. */
    method Enslave(p: int, arg: int) returns (r: int)
      requires Valid() && p in ports
      modifies this`ports, this`portState
      ensures var q := NamedAs(rt.Bound(), RSRC_PORT, arg);
        r == if arg == 0 then ERR_NONE else if q == 0 then ERR_RESOURCE
             else if P.GetPort(old(ports), q).owner != sched.current then ERR_PERMISSION else ERR_NONE
      ensures if r == ERR_NONE then Reslaving(rt.Bound(), old(ports), p, arg, ports) else ports == old(ports)
      ensures portState == old(portState).(ports := ports) && P.Steps(old(portState), P.Still, portState)
      ensures old(NoLostWakeup()) ==> NoLostWakeup()
      ensures Valid()
    {
      hide StateOk, CarriersOk, NoneMissed, BlockStore.Valid, ResourceTable.Valid, Scheduler.Valid, View,
        ResourceTable.Bound, P.PortsOk, Scheduler.Now, Reslaving, P.Steps;
      ghost var B, s := rt.Bound(), portState;
      P.StillSteps(s);
      StateParts(B, s, receiving, semState, sched.tasks, store.uses);
      Found(B, s, arg);
      if ports[p].slaved != 0 { MasterFound(B, s, p); }
      if arg != 0 {
        var master := rt.Find(RSRC_PORT, arg);
        if master == 0 { return ERR_RESOURCE; }
        if ports[master].owner != sched.current { return ERR_PERMISSION; }
      }
      Relink(p, arg);
      Reslave(B, s, receiving, semState, sched.tasks, store.uses, p, arg, ports);
      portState := portState.(ports := ports);
      assert Mirrors() && StateOk(rt.Bound(), portState, receiving, semState, sched.tasks, store.uses);
      r := ERR_NONE;
    }

    /** port_option */
    method PortOption(port: int, opt: int, arg: int) returns (r: int)
      requires Valid() && Calling()
      modifies this`ports, this`portState
      ensures r == OptionCode(rt.Bound(), old(ports), sched.current, port, opt, arg)
      ensures if r == ERR_NONE
        then Optioned(rt.Bound(), old(ports), NamedAs(rt.Bound(), RSRC_PORT, port), opt, arg, ports)
        else ports == old(ports)
      ensures portState == old(portState).(ports := ports) && P.Steps(old(portState), P.Still, portState)
      ensures old(NoLostWakeup()) ==> NoLostWakeup()
      ensures Valid()
    {
      hide StateOk, CarriersOk, NoneMissed, BlockStore.Valid, ResourceTable.Valid, Scheduler.Valid, View,
        ResourceTable.Bound, P.PortsOk, Scheduler.Now, Ok, Reslaving, P.Steps;
      ghost var B, s := rt.Bound(), portState;
      P.StillSteps(s);
      StateParts(B, s, receiving, semState, sched.tasks, store.uses);
      Found(B, s, port);
      var p := rt.Find(RSRC_PORT, port);
      if p == 0 { return ERR_RESOURCE; }
      if ports[p].owner != sched.current { return ERR_PERMISSION; }
      if opt == PORT_OPT_SETRESTRICT {
        Restrict(B, s, receiving, semState, sched.tasks, store.uses, p, arg);
        ports := ports[p := ports[p].(restrict := arg)];
        portState := portState.(ports := ports);
        return ERR_NONE;
      }
      if opt == PORT_OPT_SLAVE {
        r := Enslave(p, arg);
        return;
      }
      return ERR_PERMISSION;
    }

    /** The checks of port_send; p is the port that will hold the message. */
    method Admit(src: int, dst: int, size: int) returns (r: int, p: int)
      requires Valid() && Calling()
      ensures r == Refusal(rt.Bound(), ports, sched.tasks, sched.current, src, dst, size) <= 0
      ensures r == ERR_NONE ==>
        p == Target(rt.Bound(), ports, dst) && p in ports && ports[p].slaved == 0 && 1 <= size <= 4096
      ensures var f := NamedAs(rt.Bound(), RSRC_PORT, src); var o := P.GetPort(ports, f).owner;
        && (f == 0 ==> r == ERR_SENDPORT)
        && (f != 0 && o != sched.current && Get(sched.tasks, o).parent != Get(sched.tasks, sched.current).parent ==>
              r == ERR_PERMISSION)
    {
      hide StateOk, CarriersOk, NoneMissed, BlockStore.Valid, ResourceTable.Valid, Scheduler.Valid, View,
        ResourceTable.Bound, P.PortsOk, Scheduler.Now, Ok;
      ghost var B, s := rt.Bound(), portState;
      StateParts(B, s, receiving, semState, sched.tasks, store.uses);
      StateOwners(B, s, receiving, semState, sched.tasks, store.uses);
      Found(B, s, src);
      Found(B, s, dst);
      sched.CurrentListed();
      var f := rt.Find(RSRC_PORT, src);
      if f == 0 { return ERR_SENDPORT, 0; }
      if ports[f].owner != sched.current && sched.tasks[ports[f].owner].parent != sched.tasks[sched.current].parent {
        return ERR_PERMISSION, 0;
      }
      p := rt.Find(RSRC_PORT, dst);
      if p == 0 { return ERR_RECVPORT, 0; }
      if ports[p].restrict != 0 && ports[p].restrict != src { return ERR_PERMISSION, p; }
      if ports[p].slaved != 0 {
        MasterFound(B, s, p);
        p := rt.Find(RSRC_PORT, ports[p].slaved);
        if p == 0 { return ERR_RESOURCE, p; }
        if ports[p].slaved != 0 { return ERR_RESOURCE, p; }
        if ports[p].restrict != 0 && ports[p].restrict != src { return ERR_PERMISSION, p; }
      }
      if size < 1 || size > 4096 { return ERR_MEMORY, p; }
      r := ERR_NONE;
    }

    /** The blocks of a new message: a header, and for the contents a block or a page. */
    method TakeBlocks(size: int, page: int, page': int) returns (m: int, d: int)
      requires store.Valid() && store.Fresh(page) && store.Fresh(page') && page != page' && 1 <= size <= 4096
      modifies store, store.km, store.km.pools
      ensures m > 0 && d > 0 && m !in old(store.uses) && d !in old(store.uses) && m != d
      ensures if size < SMALL
        then store.uses == old(store.uses)[m := AMessage][d := APayload(m, size)] && d !in old(store.pages)
             && store.pages == old(store.pages) && store.pool == old(store.pool)
        else store.uses == old(store.uses)[m := AMessage] && store.pages == old(store.pages) + {d}
             && (d in old(store.pages) ==> d in old(store.pool)) && d !in store.pool
             && (forall x {:trigger x in store.pool} :: x in store.pool <==> x in old(store.pool) && x != d)
      ensures store.Valid()
    {
      hide BlockStore.Valid;
      m := store.Take(KM32, page, AMessage);
      if size < SMALL {
        d := store.Take(SizeMap(size), page', APayload(m, size));
      } else {
        d := store.TakePage(page');
        ghost var pool := old(store.pool);
        if |pool| > 0 { assert pool == [pool[0]] + pool[1..]; }
      }
    }

    /** The loop that copies the caller's bytes into the payload block. */
    method CopyIn(d: int, size: int, data: seq<byte>)
      requires 0 <= size <= |data|
      modifies this`payload
      ensures payload == old(payload)[d := data[..size]]
    {
      payload := payload[d := []];
      var i := 0;
      while i < size
        invariant 0 <= i <= size && payload == old(payload)[d := data[..i]]
      {
        payload := payload[d := payload[d] + [data[i]]];
        assert data[..i] + [data[i]] == data[..i + 1];
        i := i + 1;
      }
    }

    /** The assignments that put message m at the end of p's queue. */
    method Append(p: int, m: int, k: P.Message)
      requires p in ports && m !in msgs && (ports[p].last != 0 ==> ports[p].last in msgs)
      requires ports[p].first == At(P.ChainOf(portState.chain, p), 0)
      requires var L := P.ChainOf(portState.chain, p); ports[p].last == At(L, |L| - 1) && (|L| > 0 ==> L[|L| - 1] != 0)
      modifies this`ports, this`msgs
      ensures ports == old(ports)[p := P.Longer(old(ports)[p], m)]
      ensures msgs == P.Appended(old(msgs), P.ChainOf(portState.chain, p), m, k)
    {
      msgs := msgs[m := k];
      if ports[p].last != 0 {
        msgs := msgs[ports[p].last := msgs[ports[p].last].(next := m)];
      } else {
        ports := ports[p := ports[p].(first := m)];
      }
      ports := ports[p := ports[p].(last := m)];
      ports := ports[p := ports[p].(msgcount := ports[p].msgcount + 1)];
    }

    /** A message of the caller's bytes is made and put at the end of p's queue. */
    method Place(p: int, k0: P.Message, data: seq<byte>, page: int, page': int) returns (m: int, k: P.Message)
      requires store.Valid() && p in ports && k0.next == 0 && 1 <= k0.size <= 4096 && k0.size <= |data|
      requires forall b {:trigger b in msgs} :: b in msgs ==> b in store.uses
      requires store.Fresh(page) && store.Fresh(page') && page != page'
      requires ports[p].first == At(P.ChainOf(portState.chain, p), 0) && (ports[p].last != 0 ==> ports[p].last in msgs)
      requires var L := P.ChainOf(portState.chain, p); ports[p].last == At(L, |L| - 1) && (|L| > 0 ==> L[|L| - 1] != 0)
      modifies this`ports, this`msgs, this`payload, store, store.km, store.km.pools
      ensures m !in old(store.uses) && m != 0 && k == k0.(data := k.data)
        && payload == old(payload)[k.data := data[..k.size]]
      ensures ports == old(ports)[p := P.Longer(old(ports)[p], m)]
        && msgs == P.Appended(old(msgs), P.ChainOf(portState.chain, p), m, k)
      ensures Placed(old(store.uses), old(store.pages), old(store.pool), m, k, store.uses, store.pages, store.pool)
      ensures store.Valid()
    {
      hide BlockStore.Valid, P.Appended, P.Longer;
      var d;
      m, d := TakeBlocks(k0.size, page, page');
      k := k0.(data := d);
      CopyIn(d, k0.size, data);
      Append(p, m, k);
    }

    /** The rest of port_send once the message is admitted. */
    method Enqueue(p: int, src: int, dst: int, size: int, data: seq<byte>, page: int, page': int) returns (ghost m: int,
                   ghost d: int)
      requires Valid() && p in ports && 1 <= size <= 4096 && size <= |data| && sched.current in sched.tasks
      requires store.Fresh(page) && store.Fresh(page') && page != page'
      modifies this`ports, this`msgs, this`payload, this`portState, store, store.km, store.km.pools
      ensures m !in old(msgs)
        && portState == P.Sent(old(portState), p, m, P.Message(0, size, src, dst, sched.tasks[sched.current].tid, d),
             data[..size])
      ensures P.Steps(old(portState), P.Put(p, P.Mail(src, dst, sched.tasks[sched.current].tid, data[..size])),
          portState)
      ensures SendMisses(old(portState), portState, receiving, sched.tasks, p)
      ensures p in ports && ports[p].owner == old(ports)[p].owner
      ensures Valid()
    {
      hide StateOk, CarriersOk, BlockStore.Valid, ResourceTable.Valid, Scheduler.Valid, View, ResourceTable.Bound,
        P.PortsOk, Scheduler.Now, P.Appended, Missed, SendMisses, Placed, P.Steps;
      ghost var B, s, sem, U, G, F := rt.Bound(), portState, semState, store.uses, store.pages, store.pool;
      LastMessage(B, s, receiving, sem, sched.tasks, U, p);
      var x, k := Place(p, P.Message(0, size, src, dst, sched.tasks[sched.current].tid, 0), data, page, page');
      m, d := x, k.data;
      portState := P.Sent(s, p, x, k, data[..size]);
      Enqueued(B, s, receiving, sem, sched.tasks, U, G, F, p, x, k, data[..size], store.uses, store.pages, store.pool);
      assert Mirrors() && StateOk(rt.Bound(), portState, receiving, semState, sched.tasks, store.uses);
    }

    /** port_send of a message that is not refused: it joins the queue of p, and p's owner wakes if it sleeps on the
        identifier that was addressed. */
    method Accept(p: int, src: int, dst: int, size: int, data: seq<byte>, page: int, page': int)
      requires Valid() && Calling() && p in ports && 1 <= size <= 4096 && size <= |data|
      requires store.Fresh(page) && store.Fresh(page') && page != page'
      modifies this`ports, this`msgs, this`payload, this`portState, store, store.km, store.km.pools, sched`tasks
      ensures P.Steps(old(portState),
          P.Put(p, P.Mail(src, dst, Get(old(sched.tasks), sched.current).tid, data[..size])), portState)
      ensures P.Queue(portState, p) ==
        P.Queue(old(portState), p) + [P.Mail(src, dst, Get(old(sched.tasks), sched.current).tid, data[..size])]
      ensures sched.tasks == WokenBy(old(ports), old(sched.tasks), p, dst)
      ensures old(NoLostWakeup()) ==>
        (NoLostWakeup() <==> !SleepsThrough(old(portState), receiving, old(sched.tasks), p, dst))
      ensures Valid() && Calling()
    {
      hide StateOk, CarriersOk, NoneMissed, BlockStore.Valid, ResourceTable.Valid, Scheduler.Valid, View,
        ResourceTable.Bound, P.PortsOk, P.Steps, Missed, SendMisses, P.Sent, Ok, SleepsThrough, Mid, P.Queue;
      ghost var B, s := rt.Bound(), portState;
      sched.CurrentListed();
      ghost var m, d := Enqueue(p, src, dst, size, data, page, page');
      P.PutLast(s, p, P.Mail(src, dst, sched.tasks[sched.current].tid, data[..size]), portState);
      ghost var tasks := sched.tasks;
      StateOwners(B, portState, receiving, semState, tasks, store.uses);
      StateOwners(B, s, receiving, semState, tasks, old(store.uses));
      var owner := ports[p].owner;
      if sched.tasks[owner].state == SleepPort && sched.tasks[owner].sleepingOn == dst {
        WakeState(B, portState, receiving, semState, tasks, store.uses, owner);
        sched.Wake(owner);
      }
      if NoneMissed(s, receiving, tasks) {
        SendWakeup(s, portState, receiving, tasks, sched.tasks, p, dst);
      }
    }

    /** port_send; data is the caller's buffer, and the pages are what MmAllocPages returns if it is called. */
    method PortSend(src: int, dst: int, size: int, data: seq<byte>, page: int, page': int) returns (r: int)
      requires Valid() && Calling() && size <= |data| && store.Fresh(page) && store.Fresh(page') && page != page'
      modifies this`ports, this`msgs, this`payload, this`portState, store, store.km, store.km.pools, sched`tasks
      ensures var e := Refusal(old(rt.Bound()), old(ports), old(sched.tasks), sched.current, src, dst, size);
        r == (if e == ERR_NONE then size else e)
          && (e != ERR_NONE ==> portState == old(portState) && sched.tasks == old(sched.tasks))
      ensures var p := Target(old(rt.Bound()), old(ports), dst);
        r > 0 ==> (
          && p in old(ports) && old(ports)[p].slaved == 0
          && P.Steps(old(portState), P.Put(p, P.Mail(src, dst, Get(old(sched.tasks), sched.current).tid, data[..size])),
               portState)
          && sched.tasks == WokenBy(old(ports), old(sched.tasks), p, dst)
          && (old(NoLostWakeup()) ==>
             (NoLostWakeup() <==> !SleepsThrough(old(portState), receiving, old(sched.tasks), p, dst))))
      // it is accepted exactly if the current task or one with the same parent owns the source, and if both the port
      // addressed and the one that gets the message take messages from the source
      ensures var B, f, d := old(rt.Bound()), NamedAs(old(rt.Bound()), RSRC_PORT, src),
          NamedAs(old(rt.Bound()), RSRC_PORT, dst);
        var o, k, cur := P.GetPort(old(ports), f).owner, P.GetPort(old(ports), d), sched.current;
        var p := if k.slaved == 0 then d else NamedAs(B, RSRC_PORT, k.slaved);
        && (f != 0 && o != cur && Get(old(sched.tasks), o).parent != Get(old(sched.tasks), cur).parent ==>
              r == ERR_PERMISSION)
        && (r > 0 <==>
              && f != 0 && (o == cur || Get(old(sched.tasks), o).parent == Get(old(sched.tasks), cur).parent)
              && d != 0 && k.restrict in {0, src} && P.GetPort(old(ports), p).slaved == 0
              && P.GetPort(old(ports), p).restrict in {0, src} && 1 <= size <= 4096)
        && (r > 0 ==>
              && r == size && P.Queue(portState, p) ==
                 P.Queue(old(portState), p) + [P.Mail(src, dst, Get(old(sched.tasks), cur).tid, data[..size])])
      ensures r <= 0 && old(NoLostWakeup()) ==> NoLostWakeup()
      ensures Valid() && Calling()
    {
      hide StateOk, CarriersOk, NoneMissed, BlockStore.Valid, ResourceTable.Valid, Scheduler.Valid, View,
        ResourceTable.Bound, P.PortsOk, P.Steps, P.Queue, Ok, Refusal, Target, SleepsThrough, Mid, WokenBy;
      ghost var B := rt.Bound();
      var p;
      r, p := Admit(src, dst, size);
      RefusalMeans(B, ports, sched.tasks, sched.current, src, dst, size);
      if r != ERR_NONE { return; }
      Accept(p, src, dst, size, data, page, page');
      r := size;
    }

    /** The loop that copies a payload into the caller's buffer. */
    method CopyOut(d: int, length: int, size: int, out: array<byte>)
      requires d in payload && |payload[d]| == length && size <= out.Length
      modifies out
      ensures out[..] == Overlaid(old(out[..]), payload[d], size)
    {
      ghost var data := payload[d];
      var i := 0;
      while i < length && i < size
        invariant 0 <= i <= Copied(length, size)
        invariant forall k {:trigger out[k]} :: 0 <= k < out.Length ==> out[k] == if k < i then data[k] else old(out[k])
      {
        out[i] := payload[d][i];
        i := i + 1;
      }
    }

    /** The assignments that take the first message off p's queue. */
    method Unchain(p: int, m: int)
      requires p in ports && m in msgs && ports[p].first == m
      modifies this`ports
      ensures ports == old(ports)[p := P.Shorter(old(ports)[p], msgs[m].next)]
    {
      ports := ports[p := ports[p].(first := msgs[m].next)];
      if ports[p].first == 0 {
        ports := ports[p := ports[p].(last := 0)];
      }
      ports := ports[p := ports[p].(msgcount := ports[p].msgcount - 1)];
    }

    /** The payload goes back where it came from, and the header to its pool. */
    method GiveBlocks(m: int)
      requires store.Valid() && m in msgs && m in store.uses && store.uses[m] == AMessage
      requires msgs[m].size < SMALL ==>
        msgs[m].data in store.uses && store.uses[msgs[m].data] == APayload(m, msgs[m].size) && 1 <= msgs[m].size
      requires msgs[m].size >= SMALL ==> msgs[m].data in store.pages && msgs[m].data !in store.pool
      modifies this`msgs, store, store.km, store.km.pools
      ensures msgs == old(msgs) - {m} && store.pages == old(store.pages)
      ensures store.uses == if old(msgs)[m].size < SMALL then old(store.uses) - {m, old(msgs)[m].data}
        else old(store.uses) - {m}
      ensures store.pool == if old(msgs)[m].size < SMALL then old(store.pool) else [old(msgs)[m].data] + old(store.pool)
      ensures store.Valid()
    {
      hide BlockStore.Valid;
      if msgs[m].size < SMALL {
        store.Give(SizeMap(msgs[m].size), msgs[m].data);
        assert old(store.uses) - {msgs[m].data} - {m} == old(store.uses) - {m, msgs[m].data};
      } else {
        store.GivePage(msgs[m].data);
      }
      store.Give(KM32, m);
      msgs := msgs - {m};
    }

    /** The rest of port_recv once a message waits on p. */
    method Deliver(p: int, size: int, out: array<byte>) returns (r: Receipt)
      requires Valid() && p in ports && ports[p].msgcount != 0 && size <= out.Length
      modifies this`ports, this`msgs, this`portState, store, store.km, store.km.pools, out
      ensures |P.Queue(old(portState), p)| > 0 && r == ReceiptOf(P.Queue(old(portState), p)[0], size)
      ensures Took(old(portState), portState, p, size, old(out[..]), out[..])
      ensures var m := P.Queue(old(portState), p)[0];
        && r.Received? && r.from == m.fromPort && r.to == m.toPort && r.pid == m.pid
        && r.length == (if 0 <= size < |m.content| then size else |m.content|)
        && forall k {:trigger out[k]} :: 0 <= k < out.Length ==>
             out[k] == if k < size && k < |m.content| then m.content[k] else old(out[k])
      ensures old(NoLostWakeup()) ==> NoLostWakeup()
      ensures Valid()
    {
      hide StateOk, CarriersOk, NoneMissed, BlockStore.Valid, ResourceTable.Valid, Scheduler.Valid, View,
        ResourceTable.Bound, P.PortsOk, P.Queue, Scheduler.Now, P.Shorter, P.Steps, Copied, Overlaid;
      ghost var B, s, sem, U, G, F := rt.Bound(), portState, semState, store.uses, store.pages, store.pool;
      FirstMessage(B, s, receiving, sem, sched.tasks, U, G, F, p);
      var m := ports[p].first;
      var k := msgs[m];
      CopyOut(k.data, k.size, size, out);
      Unchain(p, m);
      GiveBlocks(m);
      portState := P.Received(s, p);
      Dequeued(B, s, receiving, sem, sched.tasks, U, G, F, p, store.uses, store.pool);
      assert Mirrors();
      OverlaidBytes(old(out[..]), P.Queue(s, p)[0].content, size, out[..]);
      assert forall j {:trigger out[j]} :: 0 <= j < out.Length ==> out[j] == out[..][j];
      r := Received(if 0 <= size < k.size then size else k.size, k.fromPort, k.toPort, k.pid);
    }

    /** PsSwitchTask as the end of a system call or the timer interrupt */
    method Switch()
      requires Valid()
      modifies sched.taskList, sched`tasks, sched`current, sched`currentNum, sched`maxUsed, sched`systemTimer
      modifies rt, rt.rmap
      ensures Switched(old(sched.Now()), sched.Now()) && Ok(sched.Now())
        && Others(rt.Bound()) == old(Others(rt.Bound()))
      ensures old(NoLostWakeup()) ==> NoLostWakeup()
      ensures Valid()
    {
      hide StateOk, CarriersOk, NoneMissed, BlockStore.Valid, ResourceTable.Valid, Scheduler.Valid, View,
        ResourceTable.Bound, Mid, Ok, Switched, Others, AllUndisturbed;

      ghost var B, now := rt.Bound(), sched.Now();
      sched.IsMid();
      sched.SwitchTask();
      sched.NoZeroId();
      SwitchUndisturbed(receiving, now, sched.Now());
      SwitchState(B, portState, receiving, semState, old(sched.tasks), store.uses, sched.tasks, rt.Bound());
    }

    /** The body of port_recv's loop: the current task goes to sleep on its empty port. */
    method FallAsleep(p: int, dst: int)
      requires Valid() && Ok(sched.Now()) && sched.currentNum != 0 && sched.tasks[sched.current].state == Running
      requires p in ports && ports[p].owner == sched.current && IdOf(portState.ids, p) == dst != 0
        && ports[p].msgcount == 0
      modifies this`receiving, sched.taskList, sched`tasks, sched`current, sched`currentNum, sched`maxUsed
      modifies sched`systemTimer, rt, rt.rmap
      ensures receiving == old(receiving[sched.current := p])
      ensures Switched(Asleep(old(sched.Now()), SleepPort, dst), sched.Now())
      ensures Others(rt.Bound()) == old(Others(rt.Bound()))
      ensures Ok(sched.Now()) && (old(NoLostWakeup()) ==> NoLostWakeup())
      ensures Valid()
    {
      hide StateOk, CarriersOk, NoneMissed, BlockStore.Valid, ResourceTable.Valid, Scheduler.Valid, View,
        ResourceTable.Bound, Mid, Ok, Switched, Others, Calm;
      ghost var tasks := sched.tasks;
      sched.CurrentListed();
      EmptyQueue(rt.Bound(), portState, receiving, semState, tasks, store.uses, p);
      sched.Block(SleepPort, dst);
      BlockState(rt.Bound(), portState, receiving, semState, tasks, store.uses, sched.current, p, sched.tasks);
      receiving := receiving[sched.current := p];
      Switch();
    }

    /** port_recv up to the first time it sleeps; out is the caller's buffer. */
    method PortRecv(dst: int, size: int, out: array<byte>) returns (r: Receipt)
      requires Valid() && Calling() && sched.currentNum != 0 && size <= out.Length
      modifies this`ports, this`msgs, this`portState, this`receiving, store, store.km, store.km.pools, out
      modifies sched.taskList, sched`tasks, sched`current, sched`currentNum, sched`maxUsed, sched`systemTimer
      modifies rt, rt.rmap
      ensures var p := NamedAs(old(rt.Bound()), RSRC_PORT, dst);
        if p == 0 then r == Failed(ERR_RECVPORT)
        else if P.GetPort(old(ports), p).owner != old(sched.current) then r == Failed(ERR_PERMISSION)
        else if |P.Queue(old(portState), p)| == 0 then r == Blocked && receiving == old(receiving[sched.current := p])
        else r == ReceiptOf(P.Queue(old(portState), p)[0], size)
      ensures if r.Blocked? then Switched(Asleep(old(sched.Now()), SleepPort, dst), sched.Now()) && Ok(sched.Now())
              else sched.Now() == old(sched.Now()) && receiving == old(receiving)
      ensures if r.Received?
        then Took(old(portState), portState, NamedAs(old(rt.Bound()), RSRC_PORT, dst), size, old(out[..]), out[..])
              else portState == old(portState) && out[..] == old(out[..])
      // the receiver learns the message's own fields, and its first bytes
      ensures r.Received? ==> |P.Queue(old(portState), NamedAs(old(rt.Bound()), RSRC_PORT, dst))| > 0
      ensures r.Received? ==>
        var m := P.Queue(old(portState), NamedAs(old(rt.Bound()), RSRC_PORT, dst))[0];
        && r.from == m.fromPort && r.to == m.toPort && r.pid == m.pid
        && r.length == (if 0 <= size < |m.content| then size else |m.content|)
        && forall k {:trigger out[k]} :: 0 <= k < out.Length ==>
             out[k] == if k < size && k < |m.content| then m.content[k] else old(out[k])
      ensures Others(rt.Bound()) == old(Others(rt.Bound()))
      ensures old(NoLostWakeup()) ==> NoLostWakeup()
      ensures Valid()
    {
      hide StateOk, CarriersOk, NoneMissed, BlockStore.Valid, ResourceTable.Valid, Scheduler.Valid, View,
        ResourceTable.Bound, P.PortsOk, P.Queue, Switched, P.Steps, Overlaid, Mid, Others, Took, ReceiptOf;
      StateParts(rt.Bound(), portState, receiving, semState, sched.tasks, store.uses);
      Found(rt.Bound(), portState, dst);
      var p := rt.Find(RSRC_PORT, dst);
      if p == 0 { return Failed(ERR_RECVPORT); }
      if ports[p].owner != sched.current { return Failed(ERR_PERMISSION); }
      EmptyQueue(rt.Bound(), portState, receiving, semState, sched.tasks, store.uses, p);
      if ports[p].msgcount == 0 {
        sched.CurrentListed();
        FallAsleep(p, dst);
        return Blocked;
      }
      r := Deliver(p, size, out);
    }

    /** port_recv when its task runs again: the loop tests the queue once more. The caller's header still names dst. */
    method PortResume(dst: int, size: int, out: array<byte>) returns (r: Receipt)
      requires Valid() && Ok(sched.Now()) && sched.currentNum != 0 && sched.current in receiving && size <= out.Length
      requires dst == IdOf(portState.ids, receiving[sched.current])
      modifies this`ports, this`msgs, this`portState, this`receiving, store, store.km, store.km.pools, out
      modifies sched.taskList, sched`tasks, sched`current, sched`currentNum, sched`maxUsed, sched`systemTimer
      modifies rt, rt.rmap
      ensures Others(rt.Bound()) == old(Others(rt.Bound()))
      ensures var p := old(receiving[sched.current]);
        if |P.Queue(old(portState), p)| == 0
        then r == Blocked && receiving == old(receiving) && portState == old(portState) && out[..] == old(out[..])
             && Switched(Asleep(old(sched.Now()), SleepPort, dst), sched.Now()) && Ok(sched.Now())
        else r == ReceiptOf(P.Queue(old(portState), p)[0], size) && receiving == old(receiving) - {sched.current}
             && sched.Now() == old(sched.Now()) && Took(old(portState), portState, p, size, old(out[..]), out[..])
      // the receiver learns the message's own fields, and its first bytes
      ensures r.Received? ==> |P.Queue(old(portState), old(receiving[sched.current]))| > 0
      ensures r.Received? ==>
        var m := P.Queue(old(portState), old(receiving[sched.current]))[0];
        && r.from == m.fromPort && r.to == m.toPort && r.pid == m.pid
        && r.length == (if 0 <= size < |m.content| then size else |m.content|)
        && forall k {:trigger out[k]} :: 0 <= k < out.Length ==>
             out[k] == if k < size && k < |m.content| then m.content[k] else old(out[k])
      ensures old(NoLostWakeup()) ==> NoLostWakeup()
      ensures Valid()
    {
      hide StateOk, CarriersOk, NoneMissed, BlockStore.Valid, ResourceTable.Valid, Scheduler.Valid, View,
        ResourceTable.Bound, P.PortsOk, P.Queue, Switched, P.Steps, Overlaid, Mid, Others, Took, ReceiptOf;
      var p := receiving[sched.current];
      sched.CurrentListed();
      Receiver(rt.Bound(), portState, receiving, semState, sched.tasks, store.uses, sched.current);
      StateParts(rt.Bound(), portState, receiving, semState, sched.tasks, store.uses);
      EmptyQueue(rt.Bound(), portState, receiving, semState, sched.tasks, store.uses, p);
      if ports[p].msgcount == 0 {
        FallAsleep(p, dst);
        return Blocked;
      }
      r := Deliver(p, size, out);
      LeaveState(rt.Bound(), portState, receiving, semState, sched.tasks, store.uses, sched.current);
      receiving := receiving - {sched.current};
    }

    /** queue_addTail, which stores the head in the new node's prev field */
    method AddTail(q: int, task: int, page: int, ghost W: seq<int>) returns (n: int)
      requires store.Valid() && store.Fresh(page) && q in queues && queues[q].head == At(W, 0)
        && queues[q].tail == At(W, |W| - 1)
      requires |W| > 0 ==> W[0] != 0 && W[|W| - 1] in nodes
      requires NodesUsed(store.uses, nodes)
      modifies this`queues, this`nodes, store`uses, store.km, store.km.pools
      ensures n > 0 && n !in old(store.uses) && store.uses == old(store.uses)[n := ANode]
      ensures nodes == S.Enqueued(old(nodes), W, n, task, 0)
        && queues == old(queues)[q := S.LongerQueue(old(queues)[q], n)]
      ensures store.Valid()
    {
      hide BlockStore.Valid;
      n := store.Take(KM16, page, ANode);
      if queues[q].head != 0 {
        nodes := nodes[n := S.Node(0, queues[q].head, task, 0)];
        nodes := nodes[queues[q].tail := nodes[queues[q].tail].(next := n)];
        queues := queues[q := queues[q].(tail := n)];
      } else {
        queues := queues[q := queues[q].(head := n, tail := n)];
        nodes := nodes[n := S.Node(0, 0, task, 0)];
      }
      queues := queues[q := queues[q].(count := queues[q].count + 1)];
    }

    /** queue_removeHead of a queue that is not empty */
    method RemoveHead(q: int, ghost W: seq<int>) returns (task: int)
      requires store.Valid() && q in queues && |W| > 0 && queues[q].head == W[0] && queues[q].tail == W[|W| - 1]
      requires W[0] in nodes && nodes[W[0]].next == At(W, 1) && W[0] in store.uses && store.uses[W[0]] == ANode
      requires |W| > 1 ==> W[1] in nodes && W[1] != 0 && W[1] != W[0] && W[|W| - 1] != W[0]
      modifies this`queues, this`nodes, store`uses, store.km, store.km.pools
      ensures task == old(nodes)[W[0]].data && store.uses == old(store.uses) - {W[0]}
      ensures nodes == S.Dequeued(old(nodes), W) && queues == old(queues)[q := S.ShorterQueue(old(queues)[q], At(W, 1))]
      ensures store.Valid()
    {
      hide BlockStore.Valid;
      var n := queues[q].head;
      queues := queues[q := queues[q].(count := queues[q].count - 1)];
      if queues[q].tail == queues[q].head {
        queues := queues[q := queues[q].(head := 0, tail := 0)];
      } else {
        nodes := nodes[nodes[n].next := nodes[nodes[n].next].(prev := 0)];
        queues := queues[q := queues[q].(head := nodes[n].next)];
      }
      task := nodes[n].data;
      store.Give(KM16, n);
      nodes := nodes - {n};
    }

    /** A semaphore structure and its empty queue */
    method MakeSem(count: int, page: int, page': int) returns (x: int, q: int)
      requires store.Valid() && store.Fresh(page) && store.Fresh(page') && page != page'
      modifies this`sems, this`queues, store`uses, store.km, store.km.pools
      ensures x > 0 && x !in old(store.uses) && q !in old(store.uses) && x != q
        && store.uses == old(store.uses)[x := ASemaphore][q := AQueue]
      ensures sems == old(sems)[x := S.Semaphore(q, count)] && queues == old(queues)[q := S.WaitQueue(0, 0, 0, 0)]
      ensures store.Valid()
    {
      hide BlockStore.Valid;
      x := store.Take(KM16, page, ASemaphore);
      q := store.Take(KM16, page', AQueue);
      queues := queues[q := S.WaitQueue(0, 0, 0, 0)];
      sems := sems[x := S.Semaphore(q, count)];
    }

    /** sem_create */
    method SemCreate(count: int, page: int, page': int) returns (id: int, ghost x: int, ghost q: int)
      requires Valid() && Calling() && store.Fresh(page) && store.Fresh(page') && page != page'
      modifies this`sems, this`queues, this`semState, rt, rt.rmap, store`uses, store.km, store.km.pools
      ensures x !in old(sems) && semState == S.SemCreated(old(semState), x, q, count, id)
      ensures Binds(old(rt.Bound()), rt.rmap.Length, RSRC_SEM, x, id, rt.Bound())
      ensures Valid()
    {
      hide StateOk, CarriersOk, BlockStore.Valid, ResourceTable.Valid, Scheduler.Valid, View, Binds, Ok, Scheduler.Now,
        ResourceTable.Bound, NoneMissed, Mirrored, S.SemCreated;
      ghost var B, s, m, U := rt.Bound(), portState, semState, store.uses;
      MirrorsSems(m, sems, queues, nodes);
      var y, z := MakeSem(count, page, page');
      x, q := y, z;
      id := Bind(RSRC_SEM, y);
      SemBound(B, s, receiving, m, sched.tasks, U, y, z, count, id, rt.rmap.Length, rt.Bound());
      semState := S.SemCreated(m, y, z, count, id);
      MirrorsCreated(m, old(sems), old(queues), nodes, y, z, count, id);
    }

    /** The branch of sem_acquire that does not wait */
    method Pass(x: int)
      requires Valid() && x in sems && sems[x].count > 0
      modifies this`sems, this`semState
      ensures semState == S.Passed(old(semState), x)
      ensures Valid()
    {
      hide StateOk, CarriersOk, BlockStore.Valid, ResourceTable.Valid, Scheduler.Valid, View, Scheduler.Now,
        ResourceTable.Bound, S.SemsOk;
      ghost var B, m := rt.Bound(), semState;
      StateParts(B, portState, receiving, m, sched.tasks, store.uses);
      S.PassKeeps(B, m, sched.tasks, x);
      sems := sems[x := sems[x].(count := sems[x].count - 1)];
      semState := S.Passed(m, x);
      CountState(B, portState, receiving, m, sched.tasks, store.uses, semState);
      assert Mirrors() && StateOk(rt.Bound(), portState, receiving, semState, sched.tasks, store.uses);
    }

    /** The current task joins the queue of semaphore x. */
    method Enlist(x: int, page: int, ghost m: S.SemState) returns (n: int)
      requires store.Valid() && store.Fresh(page) && NodesUsed(store.uses, nodes) && Mirrored(m, sems, queues, nodes)
      requires Chained(sems, queues, nodes, x, S.WaitOf(m.wait, x))
      modifies this`sems, this`queues, this`nodes, store`uses, store.km, store.km.pools
      ensures n > 0 && n !in old(store.uses) && store.uses == old(store.uses)[n := ANode]
      ensures Mirrored(S.Waited(m, x, n, sched.current), sems, queues, nodes)
      ensures store.Valid()
    {
      hide BlockStore.Valid, S.Enqueued, S.LongerQueue, NodesUsed, S.WaitOf;
      sems := sems[x := sems[x].(count := sems[x].count - 1)];
      n := AddTail(sems[x].queue, sched.current, page, S.WaitOf(m.wait, x));
    }

    /** The branch of sem_acquire in which the current task joins the queue and sleeps */
    method Wait(x: int, id: int, page: int)
      requires Valid() && Calling() && sched.currentNum != 0 && x in sems && sems[x].count <= 0
        && IdOf(semState.ids, x) == id && store.Fresh(page)
      modifies this`sems, this`queues, this`nodes, this`semState, store`uses, store.km, store.km.pools
      modifies sched`tasks
      ensures WaitsLast(old(semState), semState, x, sched.current)
      ensures sched.Now() == Asleep(old(sched.Now()), SleepSem, id) && (old(NoLostWakeup()) ==> NoLostWakeup())
      ensures Valid()
    {
      hide StateOk, CarriersOk, NoneMissed, BlockStore.Valid, ResourceTable.Valid, Scheduler.Valid, View,
        ResourceTable.Bound, S.SemsOk, S.Enqueued, Mid, Calm, S.LongerQueue, WaitsLast, S.Waiters, NoneMissed, S.WaitOf,
        NodesUsed, Chained, S.Waited, Mirrored;
      ghost var B, m, U, tasks := rt.Bound(), semState, store.uses, sched.tasks;
      sched.CurrentListed();
      MirrorsSems(m, sems, queues, nodes);
      SemParts(B, portState, receiving, m, tasks, U, x);
      var n := Enlist(x, page, m);
      sched.Block(SleepSem, id);
      WaitState(B, portState, receiving, m, tasks, U, x, n, sched.current, sched.tasks);
      semState := S.Waited(m, x, n, sched.current);
      assert Mirrors();
    }

    /** sem_acquire up to the time it may sleep; a task that sleeps has acquired the semaphore when it runs again. */
    method SemAcquire(id: int, page: int) returns (r: int)
      requires Valid() && Calling() && sched.currentNum != 0 && store.Fresh(page)
      modifies this`sems, this`queues, this`nodes, this`semState, store`uses, store.km, store.km.pools
      modifies sched.taskList, sched`tasks, sched`current, sched`currentNum, sched`maxUsed, sched`systemTimer
      modifies rt, rt.rmap
      ensures var x := NamedAs(old(rt.Bound()), RSRC_SEM, id);
        if x == 0 then r == ERR_RESOURCE && semState == old(semState) && sched.Now() == old(sched.Now())
        else r == ERR_NONE && if S.GetSem(old(sems), x).count > 0
          then semState == S.Passed(old(semState), x) && sched.Now() == old(sched.Now())
          else WaitsLast(old(semState), semState, x, old(sched.current))
               && Switched(Asleep(old(sched.Now()), SleepSem, id), sched.Now())
      ensures Others(rt.Bound()) == old(Others(rt.Bound()))
      ensures Ok(sched.Now()) && (old(NoLostWakeup()) ==> NoLostWakeup())
      ensures Valid()
    {
      hide StateOk, CarriersOk, NoneMissed, BlockStore.Valid, ResourceTable.Valid, Scheduler.Valid, View,
        ResourceTable.Bound, S.SemsOk, Mid, Switched, WaitsLast, S.Passed, Others;
      StateParts(rt.Bound(), portState, receiving, semState, sched.tasks, store.uses);
      SemFound(rt.Bound(), semState, sched.tasks, id);
      var x := rt.Find(RSRC_SEM, id);
      if x == 0 { return ERR_RESOURCE; }
      if sems[x].count > 0 {
        Pass(x);
      } else {
        Wait(x, id, page);
        Switch();
      }
      r := ERR_NONE;
    }

    /** sem_release when no task waits */
    method Raise(x: int)
      requires Valid() && x in sems && |S.Waiters(semState, x)| == 0
      modifies this`sems, this`semState
      ensures semState == S.Raised(old(semState), x)
      ensures Valid()
    {
      hide StateOk, CarriersOk, BlockStore.Valid, ResourceTable.Valid, Scheduler.Valid, View, Scheduler.Now,
        ResourceTable.Bound, S.SemsOk;
      ghost var B, m := rt.Bound(), semState;
      StateParts(B, portState, receiving, m, sched.tasks, store.uses);
      S.RaiseKeeps(B, m, sched.tasks, x);
      sems := sems[x := sems[x].(count := sems[x].count + 1)];
      semState := S.Raised(m, x);
      CountState(B, portState, receiving, m, sched.tasks, store.uses, semState);
      assert Mirrors() && StateOk(rt.Bound(), portState, receiving, semState, sched.tasks, store.uses);
    }

    /** The first waiter of x leaves the queue. */
    method Delist(x: int, ghost m: S.SemState) returns (t: int)
      requires store.Valid() && NodesUsed(store.uses, nodes) && Mirrored(m, sems, queues, nodes)
      requires Chained(sems, queues, nodes, x, S.WaitOf(m.wait, x)) && |S.WaitOf(m.wait, x)| > 0
      modifies this`sems, this`queues, this`nodes, store`uses, store.km, store.km.pools
      ensures t == S.TaskOf(m.nodes, S.WaitOf(m.wait, x)[0]) && store.uses == old(store.uses) - {S.WaitOf(m.wait, x)[0]}
      ensures Mirrored(S.Handed(m, x), sems, queues, nodes)
      ensures store.Valid()
    {
      hide BlockStore.Valid, S.Dequeued, S.ShorterQueue, S.WaitOf;
      sems := sems[x := sems[x].(count := sems[x].count + 1)];
      t := RemoveHead(sems[x].queue, S.WaitOf(m.wait, x));
    }

    /** Valid once the tasks are these. */
    ghost predicate ValidWith(tasks: map<int, Task>)
      reads this, store, store.km, store.km.pools, rt, rt.rmap, sched, sched.taskList, sched.irqTaskMap
    {
      && rt.Valid() && sched.rt == rt && sched.Valid() && store.Valid() && Mirrors()
      && StateOk(rt.Bound(), portState, receiving, semState, tasks, store.uses)
      && CarriersOk(store.pages, store.pool, msgs, portState.of)
    }

    /** The first waiter of x leaves the queue, and has only to be made ready. */
    method Dismiss(x: int) returns (t: int)
      requires Valid() && Calling() && x in sems && |S.Waiters(semState, x)| > 0
      modifies this`sems, this`queues, this`nodes, this`semState, store`uses, store.km, store.km.pools
      ensures FirstLeaves(old(semState), semState, x) && t == S.Waiters(old(semState), x)[0]
      ensures t in sched.tasks && sched.tasks[t].state == SleepSem
      ensures var tasks := sched.tasks[t := sched.tasks[t].(state := Ready)];
        ValidWith(tasks) && (old(NoLostWakeup()) ==> NoneMissed(portState, receiving, tasks))
    {
      hide StateOk, CarriersOk, NoneMissed, BlockStore.Valid, ResourceTable.Valid, Scheduler.Valid, View,
        ResourceTable.Bound, S.SemsOk, Mid, S.Waiters, S.WaitOf, NodesUsed, Chained, S.Handed, FirstLeaves, Ok,
        S.TaskOf, Scheduler.Now, Mirrored;
      ghost var B, m, U, tasks := rt.Bound(), semState, store.uses, sched.tasks;
      MirrorsSems(m, sems, queues, nodes);
      SemParts(B, portState, receiving, m, tasks, U, x);
      t := Delist(x, m);
      HandState(B, portState, receiving, m, tasks, U, x, t, S.WaitOf(m.wait, x)[0],
          tasks[t := tasks[t].(state := Ready)]);
      semState := S.Handed(m, x);
      assert Mirrors();
    }

    /** sem_release when a task waits: the one that waits longest becomes ready. */
    method Hand(x: int)
      requires Valid() && Calling() && x in sems && |S.Waiters(semState, x)| > 0
      modifies this`sems, this`queues, this`nodes, this`semState, store`uses, store.km, store.km.pools, sched`tasks
      ensures FirstLeaves(old(semState), semState, x) && (old(NoLostWakeup()) ==> NoLostWakeup())
      ensures sched.Now() == Readied(old(sched.Now()), S.Waiters(old(semState), x)[0])
      ensures Valid()
    {
      hide StateOk, CarriersOk, NoneMissed, BlockStore.Valid, ResourceTable.Valid, Scheduler.Valid, View,
        ResourceTable.Bound, Mid, Calm, S.Waiters, FirstLeaves, Ok, Queued, Sleeping, Scheduler.Now, Readied, Mirrored;
      var t := Dismiss(x);
      assert Sleeping(sched.tasks[t].state) by { IsSleeping(); }
      sched.Wake(t);
    }

    /** PsPreemptTask for a task that has just been made ready */
    method Preempt(t: int)
      requires Valid() && Queued(sched.taskList[..], sched.tasks, t) && sched.tasks[t].state == Ready
      modifies sched`tasks, sched`current, sched`currentNum
      ensures Preempted(old(sched.Now()), sched.Now(), t) && sched.current == t && Ok(sched.Now())
        && (old(NoLostWakeup()) ==> NoLostWakeup())
      ensures Valid()
    {
      hide StateOk, CarriersOk, NoneMissed, BlockStore.Valid, ResourceTable.Valid, Scheduler.Valid, View,
        ResourceTable.Bound, Mid, Ok, Preempted, Others, AllUndisturbed;
      ghost var now := sched.Now();
      sched.PreemptTask(t);
      sched.NoZeroId();
      PreemptUndisturbed(receiving, now, sched.Now(), t);
      PreemptRuns(now, sched.Now(), t);
      SwitchState(rt.Bound(), portState, receiving, semState, now.tasks, store.uses, sched.tasks, rt.Bound());
    }

    /** The first task in the queue runs. */
    method HandOver(x: int)
      requires Valid() && Calling() && x in sems && |S.Waiters(semState, x)| > 0
      modifies this`sems, this`queues, this`nodes, this`semState, store`uses, store.km, store.km.pools
      modifies sched`tasks, sched`current, sched`currentNum
      ensures FirstLeaves(old(semState), semState, x) && sched.current == S.Waiters(old(semState), x)[0]
        && Get(old(sched.tasks), sched.current).state == SleepSem
        && Preempted(Readied(old(sched.Now()), sched.current), sched.Now(), sched.current)
      ensures Ok(sched.Now()) && (old(NoLostWakeup()) ==> NoLostWakeup())
      ensures Valid()
    {
      hide StateOk, CarriersOk, NoneMissed, BlockStore.Valid, ResourceTable.Valid, Scheduler.Valid, View,
        ResourceTable.Bound, S.SemsOk, Mid, Preempted, FirstLeaves, S.Waiters, Chained, NodesUsed, Queued, Readied;
      SemParts(rt.Bound(), portState, receiving, semState, sched.tasks, store.uses, x);
      HeadTells(sems, queues, nodes, x, S.WaitOf(semState.wait, x));
      var w := nodes[queues[sems[x].queue].head].data;
      ghost var now := sched.Now();
      sched.IsMid();
      Hand(x);
      WokenListed(now, w);
      Preempt(w);
    }

    /** sem_release: the task that has waited longest runs at once. */
    method SemRelease(id: int) returns (r: int)
      requires Valid() && Calling()
      modifies this`sems, this`queues, this`nodes, this`semState, store`uses, store.km, store.km.pools
      modifies sched`tasks, sched`current, sched`currentNum
      ensures var x := NamedAs(rt.Bound(), RSRC_SEM, id);
        if x == 0 then r == ERR_RESOURCE && semState == old(semState) && sched.Now() == old(sched.Now())
        else r == ERR_NONE && if |S.Waiters(old(semState), x)| == 0
          then semState == S.Raised(old(semState), x) && sched.Now() == old(sched.Now())
          else FirstLeaves(old(semState), semState, x) && sched.current == S.Waiters(old(semState), x)[0]
               && Get(old(sched.tasks), sched.current).state == SleepSem
               && Preempted(Readied(old(sched.Now()), sched.current), sched.Now(), sched.current)
      ensures Ok(sched.Now()) && (old(NoLostWakeup()) ==> NoLostWakeup())
      ensures Valid()
    {
      hide StateOk, CarriersOk, NoneMissed, BlockStore.Valid, ResourceTable.Valid, Scheduler.Valid, View,
        ResourceTable.Bound, S.SemsOk, Mid, Preempted, FirstLeaves, S.Raised, S.Waiters, Chained, NodesUsed, Queued,
        Readied;
      StateParts(rt.Bound(), portState, receiving, semState, sched.tasks, store.uses);
      SemFound(rt.Bound(), semState, sched.tasks, id);
      var x := rt.Find(RSRC_SEM, id);
      if x == 0 { return ERR_RESOURCE; }
      SemParts(rt.Bound(), portState, receiving, semState, sched.tasks, store.uses, x);
      HeadTells(sems, queues, nodes, x, S.WaitOf(semState.wait, x));
      if queues[sems[x].queue].head == 0 {
        Raise(x);
      } else {
        HandOver(x);
      }
      r := ERR_NONE;
    }

    // ----- the steps that only change task states -----

    /** ScSleep */
    method Sleep(time: int)
      requires Valid() && Calling() && sched.currentNum != 0
      modifies sched.taskList, sched`tasks, sched`current, sched`currentNum, sched`maxUsed, sched`systemTimer
      modifies rt, rt.rmap
      ensures Switched(SetTask(old(sched.Now()), old(sched.current),
          Get(old(sched.tasks), old(sched.current)).(state := SleepTimer, timer := time)), sched.Now())
      ensures Others(rt.Bound()) == old(Others(rt.Bound()))
      ensures Ok(sched.Now()) && (old(NoLostWakeup()) ==> NoLostWakeup())
      ensures Valid()
    {
      hide StateOk, CarriersOk, NoneMissed, BlockStore.Valid, ResourceTable.Valid, Scheduler.Valid, View,
        ResourceTable.Bound, Mid, Switched, Others, AllUndisturbed;
      ghost var B, s := rt.Bound(), sched.Now();
      sched.IsMid();
      sched.Sleep(time);
      sched.NoZeroId();
      ChangeUndisturbed(receiving, s, Get(s.tasks, s.current).(state := SleepTimer, timer := time), sched.Now());
      SwitchState(B, portState, receiving, semState, s.tasks, store.uses, sched.tasks, rt.Bound());
    }

    /** ScTerminateProcess */
    method Terminate()
      requires Valid() && Calling()
      modifies sched.taskList, sched`tasks, sched`current, sched`currentNum, sched`maxUsed, sched`systemTimer
      modifies rt, rt.rmap
      ensures if old(sched.currentNum) == 0 then sched.Now() == old(sched.Now())
        else Switched(SetTask(old(sched.Now()), old(sched.current),
            Get(old(sched.tasks), old(sched.current)).(state := Dead)), sched.Now())
      ensures Others(rt.Bound()) == old(Others(rt.Bound()))
      ensures Ok(sched.Now()) && (old(NoLostWakeup()) ==> NoLostWakeup())
      ensures Valid()
    {
      hide StateOk, CarriersOk, NoneMissed, BlockStore.Valid, ResourceTable.Valid, Scheduler.Valid, View,
        ResourceTable.Bound, Mid, Switched, Others, AllUndisturbed;
      ghost var B, s := rt.Bound(), sched.Now();
      sched.IsMid();
      sched.Terminate();
      sched.NoZeroId();
      if s.num != 0 {
        ChangeUndisturbed(receiving, s, Get(s.tasks, s.current).(state := Dead), sched.Now());
      } else {
        SameUndisturbed(receiving, s.tasks);
      }
      SwitchState(B, portState, receiving, semState, s.tasks, store.uses, sched.tasks, rt.Bound());
    }

    /** ScHandleIRQ */
    method HandleIrq(irq: int)
      requires Valid() && Calling()
      modifies sched.irqTaskMap, sched.taskList, sched`tasks, sched`current, sched`currentNum, sched`maxUsed
      modifies sched`systemTimer, rt, rt.rmap
      ensures sched.irqTaskMap[..] == if 0 < irq < 16 then old(sched.irqTaskMap[..])[irq := old(sched.current)]
        else old(sched.irqTaskMap[..])
      ensures Switched(if 0 < irq < 16
        then SetTask(old(sched.Now()), old(sched.current), Get(old(sched.tasks), old(sched.current)).(irq := irq))
          else old(sched.Now()), sched.Now())
      ensures Others(rt.Bound()) == old(Others(rt.Bound()))
      ensures Ok(sched.Now()) && (old(NoLostWakeup()) ==> NoLostWakeup())
      ensures Valid()
    {
      hide StateOk, CarriersOk, NoneMissed, BlockStore.Valid, ResourceTable.Valid, Scheduler.Valid, View,
        ResourceTable.Bound, Mid, Switched, Others, AllUndisturbed;
      ghost var B, s := rt.Bound(), sched.Now();
      sched.IsMid();
      sched.IrqMapLength();
      sched.HandleIrq(irq);
      sched.NoZeroId();
      if 0 < irq < 16 {
        ChangeUndisturbed(receiving, s, Get(s.tasks, s.current).(irq := irq), sched.Now());
      } else {
        SwitchUndisturbed(receiving, s, sched.Now());
      }
      SwitchState(B, portState, receiving, semState, s.tasks, store.uses, sched.tasks, rt.Bound());
    }

    /** ScSleepIRQ */
    method SleepForIrq()
      requires Valid() && Calling() && sched.currentNum != 0
      modifies sched.taskList, sched`tasks, sched`current, sched`currentNum, sched`maxUsed, sched`systemTimer
      modifies rt, rt.rmap
      ensures var k := Get(old(sched.tasks), old(sched.current));
        Switched(if k.irq != 0 then SetTask(old(sched.Now()), old(sched.current), k.(state := SleepIrq))
          else old(sched.Now()), sched.Now())
      ensures Others(rt.Bound()) == old(Others(rt.Bound()))
      ensures Ok(sched.Now()) && (old(NoLostWakeup()) ==> NoLostWakeup())
      ensures Valid()
    {
      hide StateOk, CarriersOk, NoneMissed, BlockStore.Valid, ResourceTable.Valid, Scheduler.Valid, View,
        ResourceTable.Bound, Mid, Switched, Others, AllUndisturbed;
      ghost var B, s := rt.Bound(), sched.Now();
      sched.IsMid();
      sched.SleepForIrq();
      sched.NoZeroId();
      if Get(s.tasks, s.current).irq != 0 {
        ChangeUndisturbed(receiving, s, Get(s.tasks, s.current).(state := SleepIrq), sched.Now());
      } else {
        SwitchUndisturbed(receiving, s, sched.Now());
      }
      SwitchState(B, portState, receiving, semState, s.tasks, store.uses, sched.tasks, rt.Bound());
    }

    /** irq_dispatch */
    method IrqDispatch(number: int)
      requires Valid() && Ok(sched.Now()) && 0 <= number < 16
      modifies sched`tasks, sched`current, sched`currentNum
      ensures var h := sched.irqTaskMap[number];
        if h != 0 && Get(old(sched.tasks), h).state == SleepIrq
        then Preempted(SetTask(old(sched.Now()), h, Get(old(sched.tasks), h).(state := Ready)), sched.Now(), h)
        else sched.Now() == old(sched.Now())
      ensures Ok(sched.Now()) && (old(NoLostWakeup()) ==> NoLostWakeup())
      ensures Valid()
    {
      hide StateOk, CarriersOk, NoneMissed, BlockStore.Valid, ResourceTable.Valid, Scheduler.Valid, View,
        ResourceTable.Bound, Mid, Switched, Others, AllUndisturbed, Preempted;
      ghost var s := sched.Now();
      sched.IrqMapLength();
      ghost var h := sched.irqTaskMap[number];
      sched.IrqDispatch(number);
      sched.NoZeroId();
      if h != 0 && Get(s.tasks, h).state == SleepIrq {
        HandlerUndisturbed(receiving, s, h, sched.Now());
      } else {
        SameUndisturbed(receiving, s.tasks);
      }
      SwitchState(rt.Bound(), portState, receiving, semState, s.tasks, store.uses, sched.tasks, rt.Bound());
    }

    /** The end of PsCreateNewTask */
    method CreateTask(t: int, junk: Task, parent: int) returns (added: bool)
      requires Valid() && Calling() && Vacant(sched.taskList[..], sched.tasks, t)
      modifies sched.taskList, sched`tasks, sched`maxUsed, rt, rt.rmap
      ensures t in sched.tasks
        && sched.tasks == old(sched.tasks)[t := junk.(state := Ready, parent := parent, tid := sched.tasks[t].tid,
             rid := sched.tasks[t].rid)]
      ensures added <==> exists i :: 0 <= i < MAX_PROC && Slot(old(sched.taskList[..]), i) == 0
      ensures if added
        then FirstEmpty(old(sched.taskList[..]), sched.tasks[t].tid) && Queued(sched.taskList[..], sched.tasks, t)
          && sched.taskList[..] == old(sched.taskList[..])[sched.tasks[t].tid := t]
        else sched.taskList[..] == old(sched.taskList[..])
      ensures Calm(old(sched.Now()), sched.Now()) && sched.current == old(sched.current)
        && sched.currentNum == old(sched.currentNum) && Others(rt.Bound()) == old(Others(rt.Bound()))
      ensures Ok(sched.Now()) && (old(NoLostWakeup()) ==> NoLostWakeup())
      ensures Valid()
    {
      hide StateOk, CarriersOk, NoneMissed, BlockStore.Valid, ResourceTable.Valid, Scheduler.Valid, View,
        ResourceTable.Bound, Mid, Switched, Others, AllUndisturbed, Calm, FirstEmpty, Ok;
      ghost var B, s := rt.Bound(), sched.Now();
      added := sched.CreateTask(t, junk, parent);
      sched.NoZeroId();
      if added { InSlot(s.slots, sched.tasks[t].tid, t, sched.taskList[..]); }
      NewUndisturbed(receiving, s.tasks, t, sched.tasks[t]);
      SwitchState(B, portState, receiving, semState, s.tasks, store.uses, sched.tasks, rt.Bound());
    }
  }

  /** How port_option answers. */
  ghost function OptionCode(B: map<int, Binding>, ports: map<int, P.Port>, cur: int, port: int, opt: int,
                            arg: int): int {
    var p, q := NamedAs(B, RSRC_PORT, port), NamedAs(B, RSRC_PORT, arg);
    if p == 0 then ERR_RESOURCE
    else if P.GetPort(ports, p).owner != cur then ERR_PERMISSION
    else if opt == PORT_OPT_SETRESTRICT then ERR_NONE
    else if opt != PORT_OPT_SLAVE then ERR_PERMISSION
    else if arg == 0 then ERR_NONE else if q == 0 then ERR_RESOURCE
    else if P.GetPort(ports, q).owner != cur then ERR_PERMISSION else ERR_NONE
  }

  /** What port_option does to port p when it accepts the option. */
  ghost predicate Optioned(B: map<int, Binding>, ports: map<int, P.Port>, p: int, opt: int, arg: int,
                           r: map<int, P.Port>) {
    p in ports && if opt == PORT_OPT_SETRESTRICT then r == ports[p := ports[p].(restrict := arg)]
                  else Reslaving(B, ports, p, arg, r)
  }

  /** Only the owner sets options, and the option that was asked for is the one that is set. */
  lemma OptionMeans(B: map<int, Binding>, ports: map<int, P.Port>, cur: int, port: int, opt: int, arg: int,
                    r: map<int, P.Port>)
    requires OptionCode(B, ports, cur, port, opt, arg) == ERR_NONE
    requires Optioned(B, ports, NamedAs(B, RSRC_PORT, port), opt, arg, r)
    ensures var p := NamedAs(B, RSRC_PORT, port);
      && p != 0 && p in ports && p in r && ports[p].owner == cur && opt in {PORT_OPT_SETRESTRICT, PORT_OPT_SLAVE}
      && (opt == PORT_OPT_SETRESTRICT ==> r == ports[p := ports[p].(restrict := arg)])
      && (opt == PORT_OPT_SLAVE ==>
            r[p].slaved == arg && (arg == 0 || P.GetPort(ports, NamedAs(B, RSRC_PORT, arg)).owner == cur))
  {
    hide NamedAs;
  }

  lemma SameUndisturbed(receiving: map<int, int>, tasks: map<int, Task>)
    ensures AllUndisturbed(receiving, tasks, tasks)
  {
  }

  lemma InSlot(slots: seq<int>, i: int, t: int, slots': seq<int>)
    requires FirstEmpty(slots, i) && slots' == slots[i := t]
    ensures Slot(slots', i) == t
  {
  }

  /** Where no port is slaved, no wakeup is lost by a send. */
  lemma UnslavedWakes(B: map<int, Binding>, s: P.PortState, receiving: map<int, int>, tasks: map<int, Task>, dst: int)
    requires P.PortsOk(B, s) && forall q {:trigger q in s.ports} :: q in s.ports ==> s.ports[q].slaved == 0
    ensures NamedAs(B, RSRC_PORT, dst) != 0 ==> !SleepsThrough(s, receiving, tasks, Target(B, s.ports, dst), dst)
  {
    hide P.PortsOk;
    Found(B, s, dst);
  }

  lemma WokenListed(s: Sched, t: int)
    requires Mid(s) && Get(s.tasks, t).state == SleepSem
    ensures var r := Readied(s, t); Queued(r.slots, r.tasks, t) && t in r.tasks && r.tasks[t].state == Ready
  {
    SleeperWakes(s, t, s.tasks[t].(state := Ready));
  }

  lemma IsSleeping()
    ensures Sleeping(SleepSem) && Sleeping(SleepPort)
  {
  }

  lemma PreemptRuns(s: Sched, r: Sched, t: int)
    requires Preempted(s, r, t)
    ensures r.current == t
  {
  }

  lemma HeadTells(sems: map<int, S.Semaphore>, queues: map<int, S.WaitQueue>, nodes: map<int, S.Node>, x: int,
                  W: seq<int>)
    requires Chained(sems, queues, nodes, x, W)
    ensures x in sems && sems[x].queue in queues && (queues[sems[x].queue].head == 0 <==> |W| == 0)
    ensures |W| > 0 ==> W[0] in nodes && queues[sems[x].queue].head == W[0] && nodes[W[0]].data == S.TaskOf(nodes, W[0])
  {
  }

  ghost predicate NodesUsed(uses: map<int, Use>, nodes: map<int, S.Node>) {
    forall b {:trigger b in nodes} :: b in nodes ==> b in uses && uses[b] == ANode
  }

  ghost predicate Mirrored(m: S.SemState, sems: map<int, S.Semaphore>, queues: map<int, S.WaitQueue>,
                           nodes: map<int, S.Node>) {
    m.sems == sems && m.queues == queues && m.nodes == nodes
  }

  lemma MirrorsSems(m: S.SemState, sems: map<int, S.Semaphore>, queues: map<int, S.WaitQueue>, nodes: map<int, S.Node>)
    requires Mirrored(m, sems, queues, nodes)
    ensures m.sems == sems && m.queues == queues && m.nodes == nodes
  {
  }

  lemma MirrorsCreated(m: S.SemState, sems: map<int, S.Semaphore>, queues: map<int, S.WaitQueue>,
                       nodes: map<int, S.Node>, x: int, q: int, count: int, id: int)
    requires Mirrored(m, sems, queues, nodes)
    ensures Mirrored(S.SemCreated(m, x, q, count, id), sems[x := S.Semaphore(q, count)],
      queues[q := S.WaitQueue(0, 0, 0, 0)], nodes)
  {
  }

  /** The ends of a semaphore's queue. */
  ghost predicate Chained(sems: map<int, S.Semaphore>, queues: map<int, S.WaitQueue>, nodes: map<int, S.Node>, x: int,
                          W: seq<int>) {
    x in sems && var q := sems[x].queue;
    && q in queues && queues[q].head == At(W, 0) && queues[q].tail == At(W, |W| - 1)
    && (|W| > 0 ==> W[0] != 0 && W[|W| - 1] in nodes && W[0] in nodes && nodes[W[0]].next == At(W, 1))
    && (|W| > 1 ==> W[1] in nodes && W[1] != 0 && W[1] != W[0] && W[|W| - 1] != W[0])
  }

  /** What the queue operations rely on. */
  lemma SemParts(B: map<int, Binding>, s: P.PortState, receiving: map<int, int>, m: S.SemState, tasks: map<int, Task>,
                 uses: map<int, Use>, x: int)
    requires StateOk(B, s, receiving, m, tasks, uses) && x in m.sems
    ensures NodesUsed(uses, m.nodes) && Chained(m.sems, m.queues, m.nodes, x, S.WaitOf(m.wait, x))
    ensures var T := S.Waiters(m, x);
      |T| == |S.WaitOf(m.wait, x)|
        && (|T| > 0 ==>
           T[0] == S.TaskOf(m.nodes, S.WaitOf(m.wait, x)[0]) && T[0] in tasks && tasks[T[0]].state == SleepSem)
  {
    hide P.PortsOk, OwnersOk, ReceiversOk, PortUses, PayloadUses, S.Linked, S.AtHome, Distinct, S.SemsOk;
    S.FirstWaiter(B, m, tasks, x);
    S.Ends(m.nodes, m.home, S.WaitOf(m.wait, x), x);
    forall b {:trigger b in m.nodes} | b in m.nodes ensures b in uses && uses[b] == ANode {}
  }

  /** What port_recv does to the queues and to the caller's buffer: the oldest mail of p is gone, and its bytes are in
      the buffer. */
  ghost predicate Took(s: P.PortState, r: P.PortState, p: int, size: int, before: seq<byte>, after: seq<byte>) {
    && |P.Queue(s, p)| > 0 && P.Steps(s, P.Got(p, P.Queue(s, p)[0]), r)
    && after == Overlaid(before, P.Queue(s, p)[0].content, size)
  }

  lemma Receiver(B: map<int, Binding>, s: P.PortState, receiving: map<int, int>, m: S.SemState, tasks: map<int, Task>,
                 uses: map<int, Use>, t: int)
    requires StateOk(B, s, receiving, m, tasks, uses) && t in receiving
    ensures var p := receiving[t]; p in s.ports && s.ports[p].owner == t && IdOf(s.ids, p) != 0
  {
    hide P.PortsOk, S.SemsOk, PortUses, PayloadUses, SemUses;
    assert Receives(s, tasks, t, receiving[t]);
  }

  lemma EmptyQueue(B: map<int, Binding>, s: P.PortState, receiving: map<int, int>, m: S.SemState, tasks: map<int, Task>,
                   uses: map<int, Use>, p: int)
    requires StateOk(B, s, receiving, m, tasks, uses) && p in s.ports
    ensures |P.ChainOf(s.chain, p)| == s.ports[p].msgcount == |P.Queue(s, p)|
  {
    hide StateOk, P.MastersOk, P.NamesOk, P.MessagesOk, P.Housed, P.QueuesOk;
    StateParts(B, s, receiving, m, tasks, uses);
    P.QueueLinked(s, p);
  }

  /** How many bytes port_recv copies. */
  function Copied(length: int, size: int): int
  { if size <= 0 || length <= 0 then 0 else if size < length then size else length }

  /** A buffer once the first bytes of data have been copied over it. */
  ghost function Overlaid(buffer: seq<byte>, data: seq<byte>, size: int): (r: seq<byte>)
    ensures Copied(|data|, size) <= |buffer| ==> |r| == |buffer|
    ensures Copied(|data|, size) <= |buffer| ==> forall k {:trigger r[k]} ::
      0 <= k < |r| ==> r[k] == if k < Copied(|data|, size) then data[k] else buffer[k]
  {
    var n := Copied(|data|, size);
    if n <= |buffer| then data[..n] + buffer[n..] else buffer
  }

  lemma OverlaidBytes(buffer: seq<byte>, data: seq<byte>, size: int, r: seq<byte>)
    requires size <= |buffer| && r == Overlaid(buffer, data, size)
    ensures |r| == |buffer| && forall k {:trigger r[k]} ::
      0 <= k < |r| ==> r[k] == if k < size && k < |data| then data[k] else buffer[k]
  {
  }

  /** What the receiver learns; a negative size is compared as an unsigned number. */
  ghost function ReceiptOf(mail: P.Mail, size: int): Receipt {
    Received(if 0 <= size < |mail.content| then size else |mail.content|, mail.fromPort, mail.toPort, mail.pid)
  }

  /** What port_recv reads and frees. */
  lemma FirstMessage(B: map<int, Binding>, s: P.PortState, receiving: map<int, int>, sem: S.SemState,
                     tasks: map<int, Task>, uses: map<int, Use>,
                     pages: set<int>, pool: seq<int>, p: int)
    requires StateOk(B, s, receiving, sem, tasks, uses) && CarriersOk(pages, pool, s.msgs, s.of) && p in s.ports
      && s.ports[p].msgcount != 0
    ensures var m, L := s.ports[p].first, P.ChainOf(s.chain, p);
      && |L| > 0 && |P.Queue(s, p)| > 0 && L[0] == m && m in s.msgs && s.msgs[m].next == At(L, 1)
         && 1 <= s.msgs[m].size <= 4096
      && m in uses && uses[m] == AMessage
      && (s.msgs[m].size < SMALL ==> s.msgs[m].data in uses && uses[s.msgs[m].data] == APayload(m, s.msgs[m].size))
      && (s.msgs[m].size >= SMALL ==> s.msgs[m].data in pages && s.msgs[m].data !in pool)
      && s.msgs[m].data in s.payload && |s.payload[s.msgs[m].data]| == s.msgs[m].size
      && P.Queue(s, p)[0] == P.Mail(s.msgs[m].fromPort, s.msgs[m].toPort, s.msgs[m].pid, s.payload[s.msgs[m].data])
  {
    hide P.MastersOk, P.NamesOk, P.Housed, P.QueuesOk, Distinct, S.SemsOk, OwnersOk, ReceiversOk, SemUses, PayloadUses,
      PortUses, CarriersOk, P.Linked, P.AtHome;
    assert P.PortsOk(B, s);
    var L := P.ChainOf(s.chain, p);
    P.QueueLinked(s, p);
    P.FirstOf(s.msgs, s.home, L, p);
    var m := L[0];
    assert m in s.msgs;
    ReceiveUses(uses, s.ports, s.msgs, m);
    DataDiffer(s, m);
    ReceiveCarriers(pages, pool, s.msgs, s.of, m);
    assert P.Content(s.payload, s.msgs[m].data) == s.payload[s.msgs[m].data];
  }

  lemma DataDiffer(s: P.PortState, m: int)
    requires P.MessagesOk(s.msgs, s.payload, s.of) && m in s.msgs
    ensures s.msgs[m].data in s.payload
    ensures forall x {:trigger x in s.msgs} :: x in s.msgs && x != m ==> s.msgs[x].data != s.msgs[m].data
  {
    assert |P.Content(s.payload, s.msgs[m].data)| >= 1;
  }

  lemma Dequeued(B: map<int, Binding>, s: P.PortState, receiving: map<int, int>, sem: S.SemState, tasks: map<int, Task>,
                 uses: map<int, Use>,
                 pages: set<int>, pool: seq<int>, p: int, uses': map<int, Use>, pool': seq<int>)
    requires StateOk(B, s, receiving, sem, tasks, uses) && CarriersOk(pages, pool, s.msgs, s.of) && p in s.ports
      && |P.ChainOf(s.chain, p)| > 0
    requires P.ChainOf(s.chain, p)[0] in s.msgs
    requires var m := P.ChainOf(s.chain, p)[0];
      uses' == if s.msgs[m].size < SMALL then uses - {m, s.msgs[m].data} else uses - {m}
    requires var m := P.ChainOf(s.chain, p)[0];
      pool' == if s.msgs[m].size < SMALL then pool else [s.msgs[m].data] + pool
    ensures var r := P.Received(s, p);
      StateOk(B, r, receiving, sem, tasks, uses') && CarriersOk(pages, pool', r.msgs, r.of)
        && (NoneMissed(s, receiving, tasks) ==> NoneMissed(r, receiving, tasks))
      && |P.Queue(s, p)| > 0 && P.Steps(s, P.Got(p, P.Queue(s, p)[0]), r)
  {
    hide StateOk, CarriersOk, P.Queue, P.Steps, NoneMissed, P.MastersOk, P.NamesOk, P.Housed, P.QueuesOk, P.MessagesOk,
      P.Shorter;
    StateParts(B, s, receiving, sem, tasks, uses);
    var m := P.ChainOf(s.chain, p)[0];
    ReceiveState(B, s, receiving, sem, tasks, uses, p, m, uses');
    P.ReceiveSteps(B, s, p);
    P.QueueLinked(s, p);
    DataDiffer(s, m);
    ReceiveCarriers(pages, pool, s.msgs, s.of, m);
  }

  /** A port takes messages from anyone, or only from the port it is restricted to. */
  predicate Admits(k: P.Port, src: int) { k.restrict == 0 || k.restrict == src }

  /** A task may send from its own ports and from those of tasks of the same process. */
  ghost predicate MaySend(ports: map<int, P.Port>, tasks: map<int, Task>, cur: int, f: int) {
    var o := P.GetPort(ports, f).owner;
    o == cur || Get(tasks, o).parent == Get(tasks, cur).parent
  }

  /** The port that holds what is sent to dst: dst's master if it has one. */
  ghost function Target(B: map<int, Binding>, ports: map<int, P.Port>, dst: int): int {
    var p := NamedAs(B, RSRC_PORT, dst);
    var master := P.GetPort(ports, p).slaved;
    if master == 0 then p else NamedAs(B, RSRC_PORT, master)
  }

  /** Why port_send refuses a message, or ERR_NONE. */
  ghost function Refusal(B: map<int, Binding>, ports: map<int, P.Port>, tasks: map<int, Task>, cur: int, src: int,
                         dst: int, size: int): int {
    var f, d, p := NamedAs(B, RSRC_PORT, src), NamedAs(B, RSRC_PORT, dst), Target(B, ports, dst);
    if f == 0 then ERR_SENDPORT
    else if !MaySend(ports, tasks, cur, f) then ERR_PERMISSION
    else if d == 0 then ERR_RECVPORT
    else if !Admits(P.GetPort(ports, d), src) then ERR_PERMISSION
    else if P.GetPort(ports, p).slaved != 0 then ERR_RESOURCE
    else if !Admits(P.GetPort(ports, p), src) then ERR_PERMISSION
    else if size < 1 || size > 4096 then ERR_MEMORY
    else ERR_NONE
  }

  lemma RefusalMeans(B: map<int, Binding>, ports: map<int, P.Port>, tasks: map<int, Task>, cur: int, src: int, dst: int,
                     size: int)
    ensures var f, d, e := NamedAs(B, RSRC_PORT, src), NamedAs(B, RSRC_PORT, dst),
        Refusal(B, ports, tasks, cur, src, dst, size);
      var o, k := P.GetPort(ports, f).owner, P.GetPort(ports, d);
      var p := if k.slaved == 0 then d else NamedAs(B, RSRC_PORT, k.slaved);
      && p == Target(B, ports, dst)
      && (f != 0 && o != cur && Get(tasks, o).parent != Get(tasks, cur).parent ==> e == ERR_PERMISSION)
      && (e == ERR_NONE <==>
            && f != 0 && (o == cur || Get(tasks, o).parent == Get(tasks, cur).parent)
            && d != 0 && k.restrict in {0, src} && P.GetPort(ports, p).slaved == 0
            && P.GetPort(ports, p).restrict in {0, src} && 1 <= size <= 4096)
  {
    hide NamedAs;
  }

  lemma StateOwners(B: map<int, Binding>, s: P.PortState, receiving: map<int, int>, m: S.SemState,
                    tasks: map<int, Task>, uses: map<int, Use>)
    requires StateOk(B, s, receiving, m, tasks, uses)
    ensures OwnersOk(s.ports, tasks) && ReceiversOk(s, receiving, tasks)
  {
  }

  /** What rsrc_new does: an identifier that was not in use now names x, or the table was full and nothing changes. */
  ghost predicate Binds(B: map<int, Binding>, rmax: int, kind: int, x: int, id: int, B': map<int, Binding>) {
    && (id == 0 <==> Full(B, rmax))
    && if id == 0 then B' == B else 1 <= id < rmax && id !in B && B' == B[id := Binding(kind, x)]
  }

  lemma NoZero(rmap: seq<Resource>, rfree: int, F: seq<int>)
    requires FreeList(rmap, rfree, F)
    ensures 0 !in View(rmap)
  {
  }

  lemma StateParts(B: map<int, Binding>, s: P.PortState, receiving: map<int, int>, m: S.SemState, tasks: map<int, Task>,
                   uses: map<int, Use>)
    requires StateOk(B, s, receiving, m, tasks, uses)
    ensures P.PortsOk(B, s) && S.SemsOk(B, m, tasks)
  {
  }

  lemma PortBound(B: map<int, Binding>, s: P.PortState, receiving: map<int, int>, m: S.SemState, tasks: map<int, Task>,
                  uses: map<int, Use>,
                  p: int, k: P.Port, id: int, rmax: int, B': map<int, Binding>)
    requires StateOk(B, s, receiving, m, tasks, uses) && p !in uses && p != 0 && k.owner in tasks && 0 !in B'
    requires k.slaved == 0 && k.refcount == 1 && k.msgcount == 0 && k.first == 0 && k.last == 0
      && Binds(B, rmax, RSRC_PORT, p, id, B')
    ensures p !in s.ports && StateOk(B', P.Created(s, p, k, id), receiving, m, tasks, uses[p := APort])
    ensures NoneMissed(s, receiving, tasks) ==> NoneMissed(P.Created(s, p, k, id), receiving, tasks)
    ensures P.Steps(s, P.Made(p), P.Created(s, p, k, id))
  {
    hide StateOk, P.Created, NoneMissed, Full, P.Steps, P.PortsOk;
    StateParts(B, s, receiving, m, tasks, uses);
    NotYet(B, s, receiving, m, tasks, uses, p);
    P.CreateSteps(B, s, p, k, id, B');
    CreateState(B, s, receiving, m, tasks, uses, p, k, id, B');
  }

  lemma SemBound(B: map<int, Binding>, s: P.PortState, receiving: map<int, int>, m: S.SemState, tasks: map<int, Task>,
                 uses: map<int, Use>,
                 x: int, q: int, n: int, id: int, rmax: int, B': map<int, Binding>)
    requires StateOk(B, s, receiving, m, tasks, uses) && x !in uses && q !in uses && x != q && x != 0 && 0 !in B'
    requires Binds(B, rmax, RSRC_SEM, x, id, B')
    ensures x !in m.sems
      && StateOk(B', s, receiving, S.SemCreated(m, x, q, n, id), tasks, uses[x := ASemaphore][q := AQueue])
  {
    hide StateOk, S.SemCreated, Full;
    NotYet(B, s, receiving, m, tasks, uses, x);
    SemCreateState(B, s, receiving, m, tasks, uses, x, q, n, id, B');
  }

  /** A block without a use is no port. */
  lemma NotYet(B: map<int, Binding>, s: P.PortState, receiving: map<int, int>, m: S.SemState, tasks: map<int, Task>,
               uses: map<int, Use>, b: int)
    requires StateOk(B, s, receiving, m, tasks, uses) && b !in uses
    ensures b !in s.ports && b !in s.msgs && b !in m.sems && b !in m.queues && b !in m.nodes
  {
    hide P.PortsOk, S.SemsOk, OwnersOk, ReceiversOk, PayloadUses;
    assert b in s.ports || b in s.msgs || b in m.sems || b in m.queues || b in m.nodes ==> b in uses;
  }

  /** ports' are the ports once p's master is arg: the new master counts one slave more and the old one counts one
      less. */
  ghost predicate Reslaving(B: map<int, Binding>, ports: map<int, P.Port>, p: int, arg: int, ports': map<int, P.Port>) {
    && p in ports && (arg != 0 ==> P.NamesPort(B, ports, arg))
       && (ports[p].slaved != 0 ==> P.NamesPort(B, ports, ports[p].slaved))
    && ports' == P.Reslaved(B, ports, p, arg)
  }

  lemma Reslave(B: map<int, Binding>, s: P.PortState, receiving: map<int, int>, m: S.SemState, tasks: map<int, Task>,
                uses: map<int, Use>,
                p: int, arg: int, r: map<int, P.Port>)
    requires StateOk(B, s, receiving, m, tasks, uses) && Reslaving(B, s.ports, p, arg, r)
    ensures StateOk(B, s.(ports := r), receiving, m, tasks, uses)
      && (NoneMissed(s, receiving, tasks) ==> NoneMissed(s.(ports := r), receiving, tasks))
    ensures P.Steps(s, P.Still, s.(ports := r))
  {
    hide StateOk, P.QueuesOk, P.NamesOk, P.MastersOk, P.MessagesOk, P.Housed, NoneMissed, P.Steps;
    StateParts(B, s, receiving, m, tasks, uses);
    P.SlaveSteps(B, s, p, arg, r);
    P.SlaveKeeps(B, s, p, arg, r);
    PortsState(B, s, receiving, m, tasks, uses, r);
  }

  lemma Restrict(B: map<int, Binding>, s: P.PortState, receiving: map<int, int>, m: S.SemState, tasks: map<int, Task>,
                 uses: map<int, Use>, p: int, arg: int)
    requires StateOk(B, s, receiving, m, tasks, uses) && p in s.ports
    ensures var r := s.(ports := s.ports[p := s.ports[p].(restrict := arg)]);
      StateOk(B, r, receiving, m, tasks, uses) && (NoneMissed(s, receiving, tasks) ==> NoneMissed(r, receiving, tasks))
      && P.Steps(s, P.Still, r)
  {
    hide StateOk, P.PortsOk, NoneMissed, P.Steps;
    StateParts(B, s, receiving, m, tasks, uses);
    P.RestrictSteps(s, p, arg);
    P.OptionKeeps(B, s, p, s.ports[p].(restrict := arg));
    PortsState(B, s, receiving, m, tasks, uses, s.ports[p := s.ports[p].(restrict := arg)]);
  }

  /** What the sending of m did to the block store. */
  ghost predicate Placed(uses: map<int, Use>, pages: set<int>, pool: seq<int>, m: int, k: P.Message,
                         uses': map<int, Use>, pages': set<int>, pool': seq<int>) {
    && k.data !in uses && k.data != m
    && if k.size < SMALL
       then uses' == uses[m := AMessage][k.data := APayload(m, k.size)] && k.data !in pages && pages' == pages
            && pool' == pool
       else uses' == uses[m := AMessage] && pages' == pages + {k.data} && (k.data in pages ==> k.data in pool)
            && k.data !in pool' && forall x {:trigger x in pool'} :: x in pool' <==> x in pool && x != k.data
  }

  /** The tasks once port_send has woken the owner of p, if it sleeps on the identifier that was addressed. */
  ghost function WokenBy(ports: map<int, P.Port>, tasks: map<int, Task>, p: int, dst: int): map<int, Task> {
    var o := P.GetPort(ports, p).owner;
    if o in tasks && tasks[o].state == SleepPort && tasks[o].sleepingOn == dst
      then tasks[o := tasks[o].(state := Ready)] else tasks
  }

  /** The last message of a queue, where a new one is linked. */
  lemma LastMessage(B: map<int, Binding>, s: P.PortState, receiving: map<int, int>, m: S.SemState,
                    tasks: map<int, Task>, uses: map<int, Use>, p: int)
    requires StateOk(B, s, receiving, m, tasks, uses) && p in s.ports
    ensures forall b {:trigger b in s.msgs} :: b in s.msgs ==> b in uses
    ensures s.ports[p].first == At(P.ChainOf(s.chain, p), 0)
    ensures var L := P.ChainOf(s.chain, p);
      s.ports[p].last == At(L, |L| - 1) && (|L| > 0 ==> L[|L| - 1] != 0)
        && (s.ports[p].last != 0 ==> s.ports[p].last in s.msgs)
  {
    hide P.MastersOk, P.NamesOk, P.MessagesOk, P.Housed, P.QueuesOk, Distinct, S.SemsOk, OwnersOk, ReceiversOk, SemUses,
      PayloadUses;
    assert P.PortsOk(B, s);
    P.QueueLinked(s, p);
    forall b {:trigger b in s.msgs} | b in s.msgs ensures b in uses {}
  }

  lemma Enqueued(B: map<int, Binding>, s: P.PortState, receiving: map<int, int>, sem: S.SemState, tasks: map<int, Task>,
                 uses: map<int, Use>,
                 pages: set<int>, pool: seq<int>, p: int, m: int, k: P.Message, c: seq<byte>, uses': map<int, Use>,
                   pages': set<int>, pool': seq<int>)
    requires StateOk(B, s, receiving, sem, tasks, uses) && CarriersOk(pages, pool, s.msgs, s.of)
      && Placed(uses, pages, pool, m, k, uses', pages', pool')
    requires p in s.ports && m !in uses && m != 0 && k.next == 0 && 1 <= k.size <= 4096 && |c| == k.size
    ensures var r := P.Sent(s, p, m, k, c);
      m !in s.msgs && StateOk(B, r, receiving, sem, tasks, uses') && CarriersOk(pages', pool', r.msgs, r.of)
        && SendMisses(s, r, receiving, tasks, p)
      && P.Steps(s, P.Put(p, P.Mail(k.fromPort, k.toPort, k.pid, c)), r)
  {
    hide StateOk, CarriersOk, P.PortsOk, P.Steps, P.Sent, Missed;
    StateParts(B, s, receiving, sem, tasks, uses);
    NotYet(B, s, receiving, sem, tasks, uses, m);
    NewData(B, s, receiving, sem, tasks, uses, pages, pool, k.data, k.size);
    SendState(B, s, receiving, sem, tasks, uses, p, m, k, c, uses');
    P.SendSteps(B, s, p, m, k, c);
    SendCarriers(B, s, pages, pool, p, m, k, c, pages', pool');
  }

  /** The block or page of a new message carries no other. */
  lemma NewData(B: map<int, Binding>, s: P.PortState, receiving: map<int, int>, m: S.SemState, tasks: map<int, Task>,
                uses: map<int, Use>,
                pages: set<int>, pool: seq<int>, d: int, size: int)
    requires StateOk(B, s, receiving, m, tasks, uses) && CarriersOk(pages, pool, s.msgs, s.of) && d !in uses
    requires if size < SMALL then d !in pages else d in pages ==> d in pool
    ensures forall x {:trigger x in s.msgs} :: x in s.msgs ==> s.msgs[x].data != d
  {
    hide P.PortsOk, S.SemsOk, OwnersOk, ReceiversOk, PortUses, SemUses;
    forall x {:trigger x in s.msgs} | x in s.msgs ensures s.msgs[x].data != d {
      if s.msgs[x].size >= SMALL { assert Member(s.msgs[x].data, pages); }
    }
  }

  lemma SendCarriers(B: map<int, Binding>, s: P.PortState, pages: set<int>, pool: seq<int>, p: int, m: int,
                     k: P.Message, c: seq<byte>, pages': set<int>, pool': seq<int>)
    requires P.PortsOk(B, s) && p in s.ports && m !in s.msgs && m != 0 && k.next == 0 && 1 <= k.size <= 4096
      && |c| == k.size
    requires forall x {:trigger x in s.msgs} :: x in s.msgs ==> s.msgs[x].data != k.data
    requires CarriersOk(pages, pool, s.msgs, s.of)
    requires if k.size < SMALL then k.data !in pages && pages' == pages && pool' == pool
             else pages' == pages + {k.data} && (k.data in pages ==> k.data in pool) && k.data !in pool'
                  && forall x {:trigger x in pool'} :: x in pool' <==> x in pool && x != k.data
    ensures CarriersOk(pages', pool', P.Sent(s, p, m, k, c).msgs, P.Sent(s, p, m, k, c).of)
  {
    hide P.PortsOk, CarriersOk, P.Appended;
    P.SendKeeps(B, s, p, m, k, c);
    var r := P.Sent(s, p, m, k, c).msgs;
    assert m in r.Keys && P.GetMessage(r, m) == r[m];
    if k.size < SMALL {
      SendSmallCarriers(pages, pool, s.msgs, s.of, m, r);
    } else {
      SendLargeCarriers(pages, pool, s.msgs, s.of, m, r, k.data, pages', pool');
    }
  }
}
