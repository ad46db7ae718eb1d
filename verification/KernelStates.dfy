/** What ports, semaphores and blocks require of each other and of the tasks. */
module KernelStates {
  import opened Arithmetic
  import opened Lists
  import opened Resources
  import opened KernelMemory
  import opened SchedulerStates
  import opened Schedulers
  import P = PortStates
  import S = SemStates
  import opened BlockUses

  // ----- tasks and ports -----

  ghost predicate OwnersOk(ports: map<int, P.Port>, tasks: map<int, Task>) {
    forall p {:trigger p in ports} :: p in ports ==> ports[p].owner in tasks
  }

  /** t is inside port_recv on the port structure p, which it owns; if it sleeps, it sleeps on p's identifier. */
  ghost predicate Receives(s: P.PortState, tasks: map<int, Task>, t: int, p: int) {
    && t in tasks && p in s.ports && s.ports[p].owner == t && IdOf(s.ids, p) != 0
    && tasks[t].state in {SleepPort, Ready, Running}
       && (tasks[t].state == SleepPort ==> tasks[t].sleepingOn == IdOf(s.ids, p))
  }

  /** receiving says for each task inside port_recv which port it is on; exactly these tasks may be asleep on ports. */
  ghost predicate ReceiversOk(s: P.PortState, receiving: map<int, int>, tasks: map<int, Task>) {
    && (forall t {:trigger t in receiving} :: t in receiving ==> Receives(s, tasks, t, receiving[t]))
    && forall t {:trigger t in tasks} :: t in tasks && tasks[t].state == SleepPort ==> t in receiving
  }

  /** t sleeps although mail waits on its port. */
  ghost predicate Missed(s: P.PortState, receiving: map<int, int>, tasks: map<int, Task>, t: int) {
    t in receiving && Get(tasks, t).state == SleepPort && |P.ChainOf(s.chain, receiving[t])| > 0
  }

  /** No wakeup is lost: whoever sleeps on a port sleeps on an empty one. */
  ghost predicate NoneMissed(s: P.PortState, receiving: map<int, int>, tasks: map<int, Task>) {
    forall t {:trigger Missed(s, receiving, tasks, t)} :: !Missed(s, receiving, tasks, t)
  }

  /** What a step may do to the tasks that sleep on ports and semaphores and to those inside port_recv: nothing, except
      that READY and RUNNING change into each other. */
  ghost predicate Undisturbed(receiving: map<int, int>, tasks: map<int, Task>, tasks': map<int, Task>, t: int) {
    && S.SameSleep(tasks, tasks', t)
    && (t in tasks ==> t in tasks')
    && (t in tasks' && tasks'[t].state == SleepPort ==> t in tasks && tasks[t].state == SleepPort)
    && (t in tasks && tasks[t].state == SleepPort ==>
       tasks'[t].state == SleepPort && tasks'[t].sleepingOn == tasks[t].sleepingOn)
    && (t in receiving && t in tasks && tasks[t].state in {Ready, Running} ==> tasks'[t].state in {Ready, Running})
  }

  ghost predicate AllUndisturbed(receiving: map<int, int>, tasks: map<int, Task>, tasks': map<int, Task>) {
    forall t {:trigger Undisturbed(receiving, tasks, tasks', t)} :: Undisturbed(receiving, tasks, tasks', t)
  }

  lemma SwitchUndisturbed(receiving: map<int, int>, s: Sched, r: Sched)
    requires Mid(s) && Switched(s, r)
    ensures AllUndisturbed(receiving, s.tasks, r.tasks)
  {
    MidParts(s);
    assert TasksSwitched(s, r);
    forall t ensures Undisturbed(receiving, s.tasks, r.tasks, t) {
      assert t in r.tasks.Keys <==> t in s.tasks.Keys;
      if t in s.tasks {
        assert Get(r.tasks, t) == if t == r.current then Ticked(s, t).(state := Running) else Ticked(s, t);
      }
    }
  }

  lemma PreemptUndisturbed(receiving: map<int, int>, s: Sched, r: Sched, t: int)
    requires Preempted(s, r, t) && s.tasks[t].state == Ready
    ensures AllUndisturbed(receiving, s.tasks, r.tasks)
  {
    forall u ensures Undisturbed(receiving, s.tasks, r.tasks, u) {
    }
  }

  /** A change of the current task's fields that is not a sleep on a port or a semaphore, or the wake of another
      sleeper. */
  lemma SetUndisturbed(receiving: map<int, int>, tasks: map<int, Task>, t: int, k: Task)
    requires t in tasks && tasks[t].state !in {SleepPort, SleepSem} && k.state !in {SleepPort, SleepSem}
    requires t in receiving && tasks[t].state in {Ready, Running} ==> k.state in {Ready, Running}
    ensures AllUndisturbed(receiving, tasks, tasks[t := k])
  {
    var r := tasks[t := k];
    forall u ensures Undisturbed(receiving, tasks, r, u) {
    }
  }

  /** The current task changes its own fields and calls PsSwitchTask. */
  lemma ChangeUndisturbed(receiving: map<int, int>, s: Sched, k: Task, r: Sched)
    requires Mid(s) && Get(s.tasks, s.current).state == Running && s.current !in receiving
      && k.tid == Get(s.tasks, s.current).tid
    requires k.state !in {SleepPort, SleepSem} && (s.num == 0 ==> k.state in {Kernel, Ready, Running})
      && Switched(SetTask(s, s.current, k), r)
    ensures AllUndisturbed(receiving, s.tasks, r.tasks)
  {
    hide Switched, Mid, Undisturbed;
    MidParts(s);
    CurrentChanges(s, k);
    SetUndisturbed(receiving, s.tasks, s.current, k);
    SwitchUndisturbed(receiving, SetTask(s, s.current, k), r);
    TwiceUndisturbed(receiving, s.tasks, SetTask(s, s.current, k).tasks, r.tasks);
  }

  /** The handler of an interrupt wakes and runs. */
  lemma HandlerUndisturbed(receiving: map<int, int>, s: Sched, h: int, r: Sched)
    requires h in s.tasks && s.tasks[h].state == SleepIrq && Preempted(SetTask(s, h, s.tasks[h].(state := Ready)), r, h)
    ensures AllUndisturbed(receiving, s.tasks, r.tasks)
  {
    hide Preempted, Undisturbed;
    SetUndisturbed(receiving, s.tasks, h, s.tasks[h].(state := Ready));
    PreemptUndisturbed(receiving, SetTask(s, h, s.tasks[h].(state := Ready)), r, h);
    TwiceUndisturbed(receiving, s.tasks, s.tasks[h := s.tasks[h].(state := Ready)], r.tasks);
  }

  lemma NewUndisturbed(receiving: map<int, int>, tasks: map<int, Task>, t: int, k: Task)
    requires (t in tasks ==> tasks[t].state == Dead) && k.state == Ready
    ensures AllUndisturbed(receiving, tasks, tasks[t := k])
  {
    var r := tasks[t := k];
    forall u ensures Undisturbed(receiving, tasks, r, u) {
    }
  }

  lemma TwiceUndisturbed(receiving: map<int, int>, a: map<int, Task>, b: map<int, Task>, c: map<int, Task>)
    requires AllUndisturbed(receiving, a, b) && AllUndisturbed(receiving, b, c)
    ensures AllUndisturbed(receiving, a, c)
  {
    forall t ensures Undisturbed(receiving, a, c, t) {
      assert Undisturbed(receiving, a, b, t) && Undisturbed(receiving, b, c, t);
    }
  }

  /** Whatever only switches tasks keeps ports, receivers and semaphores as they were. */
  lemma UndisturbedKeeps(B: map<int, Binding>, s: P.PortState, receiving: map<int, int>, m: S.SemState,
                         tasks: map<int, Task>,
                         tasks': map<int, Task>, B': map<int, Binding>)
    requires AllUndisturbed(receiving, tasks, tasks') && Others(B') == Others(B) && 0 !in B'
    requires P.PortsOk(B, s) && S.SemsOk(B, m, tasks) && OwnersOk(s.ports, tasks) && ReceiversOk(s, receiving, tasks)
    ensures P.PortsOk(B', s) && S.SemsOk(B', m, tasks') && OwnersOk(s.ports, tasks')
      && ReceiversOk(s, receiving, tasks')
    ensures forall t :: Missed(s, receiving, tasks', t) ==> Missed(s, receiving, tasks, t)
  {
    hide P.QueuesOk, P.MessagesOk, P.Housed, S.SemsOk;
    KindsKept(B, B', RSRC_PORT);
    KindsKept(B, B', RSRC_SEM);
    PortNamesKept(B, s, B');
    SemsKept(B, receiving, m, tasks, tasks', B');
    forall p {:trigger p in s.ports} | p in s.ports ensures s.ports[p].owner in tasks' {
      assert Undisturbed(receiving, tasks, tasks', s.ports[p].owner);
    }
    ReceiversKept(s, receiving, tasks, tasks');
  }

  lemma ReceiversKept(s: P.PortState, receiving: map<int, int>, tasks: map<int, Task>, tasks': map<int, Task>)
    requires AllUndisturbed(receiving, tasks, tasks') && ReceiversOk(s, receiving, tasks)
    ensures ReceiversOk(s, receiving, tasks')
    ensures forall t :: Missed(s, receiving, tasks', t) ==> Missed(s, receiving, tasks, t)
  {
    forall t {:trigger t in receiving} | t in receiving ensures Receives(s, tasks', t, receiving[t]) {
      assert Receives(s, tasks, t, receiving[t]);
      assert Undisturbed(receiving, tasks, tasks', t);
    }
    forall t {:trigger t in tasks'} | t in tasks' && tasks'[t].state == SleepPort ensures t in receiving {
      assert Undisturbed(receiving, tasks, tasks', t);
    }
    forall t | Missed(s, receiving, tasks', t) ensures Missed(s, receiving, tasks, t) {
      assert Undisturbed(receiving, tasks, tasks', t);
    }
  }

  lemma SemsKept(B: map<int, Binding>, receiving: map<int, int>, m: S.SemState, tasks: map<int, Task>,
                 tasks': map<int, Task>, B': map<int, Binding>)
    requires AllUndisturbed(receiving, tasks, tasks') && S.SemsOk(B, m, tasks) && 0 !in B' && SameKind(B, B', RSRC_SEM)
    ensures S.SemsOk(B', m, tasks')
  {
    hide S.EachOk, S.NothingStray, S.WaitersOk;
    OtherNames(B, RSRC_SEM, m.sems.Keys, m.ids, B');
    forall t ensures S.SameSleep(tasks, tasks', t) { assert Undisturbed(receiving, tasks, tasks', t); }
    S.TasksKeep(B, m, tasks, tasks', B');
  }

  lemma KindsKept(B: map<int, Binding>, B': map<int, Binding>, kind: int)
    requires Others(B') == Others(B) && kind != RSRC_TASK
    ensures SameKind(B, B', kind)
  {
    forall id {:trigger id in B'}
      ensures (id in B' && B'[id].kind == kind <==> id in B && B[id].kind == kind)
        && (id in B' && B'[id].kind == kind ==> B'[id] == B[id])
    {
      assert id in Others(B') <==> id in Others(B);
    }
  }

  lemma PortNamesKept(B: map<int, Binding>, s: P.PortState, B': map<int, Binding>)
    requires P.NamesOk(B, s.ports, s.ids) && P.MastersOk(B, s.ports, s.ids) && 0 !in B' && SameKind(B, B', RSRC_PORT)
    ensures P.NamesOk(B', s.ports, s.ids) && P.MastersOk(B', s.ports, s.ids)
  {
    OtherNames(B, RSRC_PORT, s.ports.Keys, s.ids, B');
    forall q {:trigger q in s.ports} | q in s.ports && s.ports[q].slaved != 0
      ensures P.NamesPort(B', s.ports, s.ports[q].slaved)
    {
      var id := s.ports[q].slaved;
      assert P.NamesPort(B, s.ports, id);
    }
  }

  // ----- blocks -----

  /** The semaphores, queues and nodes are exactly the blocks with these uses. */
  ghost predicate SemUses(uses: map<int, Use>, m: S.SemState) {
    forall b {:trigger b in uses} ::
      && (b in m.sems <==> b in uses && uses[b] == ASemaphore)
      && (b in m.queues <==> b in uses && uses[b] == AQueue)
      && (b in m.nodes <==> b in uses && uses[b] == ANode)
  }

  predicate OfSem(u: Use) { u in {ASemaphore, AQueue, ANode} }

  /** The two maps agree on semaphores, or on ports. */
  ghost predicate Agree(uses: map<int, Use>, uses': map<int, Use>, sem: bool) {
    forall b {:trigger b in uses'} ::
      if b in uses && OfSem(uses[b]) == sem then b in uses' && uses'[b] == uses[b] else b in uses' ==>
        OfSem(uses'[b]) != sem
  }

  lemma SemUsesKept(uses: map<int, Use>, uses': map<int, Use>, m: S.SemState)
    requires SemUses(uses, m) && Agree(uses, uses', true)
    ensures SemUses(uses', m)
  {
    forall b {:trigger b in uses'}
      ensures (b in m.sems <==> b in uses' && uses'[b] == ASemaphore)
        && (b in m.queues <==> b in uses' && uses'[b] == AQueue)
        && (b in m.nodes <==> b in uses' && uses'[b] == ANode)
    {
      assert b in uses && OfSem(uses[b]) <==> b in uses' && OfSem(uses'[b]);
    }
  }

  lemma PortUsesKept(uses: map<int, Use>, uses': map<int, Use>, ports: map<int, P.Port>, msgs: map<int, P.Message>)
    requires PortUses(uses, ports, msgs) && PayloadUses(uses, msgs) && Agree(uses, uses', false)
    ensures PortUses(uses', ports, msgs) && PayloadUses(uses', msgs)
  {
    forall b {:trigger b in uses'}
      ensures (b in ports <==> b in uses' && uses'[b].APort?) && (b in msgs <==> b in uses' && uses'[b].AMessage?)
        && (b in uses' && uses'[b].APayload? ==> var m := uses'[b].message;
              m in msgs && msgs[m].data == b && msgs[m].size == uses'[b].size && 0 <= uses'[b].size < SMALL)
    {
      assert b in uses && !OfSem(uses[b]) <==> b in uses' && !OfSem(uses'[b]);
    }
    forall m {:trigger m in msgs} | m in msgs && msgs[m].size < SMALL
      ensures msgs[m].data in uses' && uses'[msgs[m].data] == APayload(m, msgs[m].size)
    {
      var d := msgs[m].data;
      assert d in uses ==> d in uses';
    }
  }

  lemma AddAgrees(uses: map<int, Use>, b: int, u: Use, sem: bool)
    requires b !in uses && OfSem(u) != sem
    ensures Agree(uses, uses[b := u], sem)
  {
  }

  lemma RemoveAgrees(uses: map<int, Use>, b: int, sem: bool)
    requires b in uses && OfSem(uses[b]) != sem
    ensures Agree(uses, uses - {b}, sem)
  {
  }

  lemma AgreeTwice(a: map<int, Use>, b: map<int, Use>, c: map<int, Use>, sem: bool)
    requires Agree(a, b, sem) && Agree(b, c, sem)
    ensures Agree(a, c, sem)
  {
    forall x {:trigger x in c}
      ensures if x in a && OfSem(a[x]) == sem then x in c && c[x] == a[x] else x in c ==> OfSem(c[x]) != sem
    {
      assert x in b && OfSem(b[x]) == sem <==> x in c && OfSem(c[x]) == sem;
    }
  }

  // ----- the whole -----

  /** What holds of ports, messages, semaphores, sleeping tasks and blocks between any two steps. */
  ghost predicate StateOk(B: map<int, Binding>, s: P.PortState, receiving: map<int, int>, m: S.SemState,
                          tasks: map<int, Task>, uses: map<int, Use>) {
    && P.PortsOk(B, s) && S.SemsOk(B, m, tasks) && OwnersOk(s.ports, tasks) && ReceiversOk(s, receiving, tasks)
    && PortUses(uses, s.ports, s.msgs) && PayloadUses(uses, s.msgs) && SemUses(uses, m)
  }

  lemma SwitchState(B: map<int, Binding>, s: P.PortState, receiving: map<int, int>, m: S.SemState,
                    tasks: map<int, Task>, uses: map<int, Use>,
                    tasks': map<int, Task>, B': map<int, Binding>)
    requires StateOk(B, s, receiving, m, tasks, uses) && AllUndisturbed(receiving, tasks, tasks')
      && Others(B') == Others(B) && 0 !in B'
    ensures StateOk(B', s, receiving, m, tasks', uses)
    ensures NoneMissed(s, receiving, tasks) ==> NoneMissed(s, receiving, tasks')
  {
    hide P.PortsOk, S.SemsOk, OwnersOk, ReceiversOk, PortUses, PayloadUses, SemUses, Others, AllUndisturbed, Missed;
    UndisturbedKeeps(B, s, receiving, m, tasks, tasks', B');
  }

  lemma CreateState(B: map<int, Binding>, s: P.PortState, receiving: map<int, int>, m: S.SemState,
                    tasks: map<int, Task>, uses: map<int, Use>,
                    p: int, k: P.Port, id: int, B': map<int, Binding>)
    requires StateOk(B, s, receiving, m, tasks, uses) && p !in uses && p != 0 && k.owner in tasks && 0 !in B'
    requires k.slaved == 0 && k.refcount == 1 && k.msgcount == 0 && k.first == 0 && k.last == 0
    requires if id == 0 then B' == B else id !in B && B' == B[id := Binding(RSRC_PORT, p)]
    ensures StateOk(B', P.Created(s, p, k, id), receiving, m, tasks, uses[p := APort])
    ensures NoneMissed(s, receiving, tasks) ==> NoneMissed(P.Created(s, p, k, id), receiving, tasks)
  {
    hide P.PortsOk, S.SemsOk, PortUses, PayloadUses, SemUses, Agree;
    CreateUses(uses, s.ports, s.msgs, p, k);
    AddAgrees(uses, p, APort, true);
    SemUsesKept(uses, uses[p := APort], m);
    P.CreateKeeps(B, s, p, k, id, B');
    if id != 0 { BindOther(B, id, Binding(RSRC_PORT, p), RSRC_SEM); }
    SemsRebound(B, m, tasks, B');
    CreateReceivers(s, receiving, tasks, p, k, id);
  }

  lemma SemsRebound(B: map<int, Binding>, m: S.SemState, tasks: map<int, Task>, B': map<int, Binding>)
    requires S.SemsOk(B, m, tasks) && 0 !in B' && (B' == B || SameKind(B, B', RSRC_SEM))
    ensures S.SemsOk(B', m, tasks)
  {
    hide S.EachOk, S.NothingStray, S.WaitersOk;
    if B' != B { OtherNames(B, RSRC_SEM, m.sems.Keys, m.ids, B'); }
  }

  lemma CreateReceivers(s: P.PortState, receiving: map<int, int>, tasks: map<int, Task>, p: int, k: P.Port, id: int)
    requires OwnersOk(s.ports, tasks) && ReceiversOk(s, receiving, tasks) && p !in s.ports && k.owner in tasks
    ensures var r := P.Created(s, p, k, id);
      OwnersOk(r.ports, tasks) && ReceiversOk(r, receiving, tasks)
        && (NoneMissed(s, receiving, tasks) ==> NoneMissed(r, receiving, tasks))
  {
    var r := P.Created(s, p, k, id);
    forall t {:trigger t in receiving} | t in receiving ensures Receives(r, tasks, t, receiving[t]) {
      assert Receives(s, tasks, t, receiving[t]);
    }
    forall q {:trigger q in r.ports} | q in r.ports ensures r.ports[q].owner in tasks {
      if q != p { assert q in s.ports; }
    }
    forall t {:trigger Missed(r, receiving, tasks, t)}
      ensures Missed(r, receiving, tasks, t) ==> Missed(s, receiving, tasks, t)
    {
      assert t in receiving ==> Receives(s, tasks, t, receiving[t]);
    }
  }

  lemma DestroyState(B: map<int, Binding>, s: P.PortState, receiving: map<int, int>, m: S.SemState,
                     tasks: map<int, Task>, uses: map<int, Use>, p: int)
    requires StateOk(B, s, receiving, m, tasks, uses) && p in s.ports && s.ports[p].refcount == 1 && IdOf(s.ids, p) != 0
    requires s.ports[p].owner !in receiving
    ensures p in uses && uses[p] == APort && IdOf(s.ids, p) in B && B[IdOf(s.ids, p)].kind == RSRC_PORT
    ensures StateOk(B - {IdOf(s.ids, p)}, P.Destroyed(s, p), receiving, m, tasks, uses - {p})
    ensures NoneMissed(s, receiving, tasks) ==> NoneMissed(P.Destroyed(s, p), receiving, tasks)
  {
    hide P.QueuesOk, P.MastersOk, P.MessagesOk, P.Housed, S.SemsOk, PortUses, PayloadUses, SemUses, Agree;
    var id := IdOf(s.ids, p);
    assert P.PortsOk(B, s);
    DestroyUses(uses, s.ports, s.msgs, p);
    RemoveAgrees(uses, p, true);
    SemUsesKept(uses, uses - {p}, m);
    P.DestroyKeeps(B, s, p);
    UnbindOther(B, id, RSRC_SEM);
    SemsRebound(B, m, tasks, B - {id});
    DestroyReceivers(s, receiving, tasks, p);
  }

  lemma DestroyReceivers(s: P.PortState, receiving: map<int, int>, tasks: map<int, Task>, p: int)
    requires OwnersOk(s.ports, tasks) && ReceiversOk(s, receiving, tasks) && p in s.ports
      && s.ports[p].owner !in receiving
    ensures var r := P.Destroyed(s, p);
      OwnersOk(r.ports, tasks) && ReceiversOk(r, receiving, tasks)
        && (NoneMissed(s, receiving, tasks) ==> NoneMissed(r, receiving, tasks))
  {
    var r := P.Destroyed(s, p);
    forall t {:trigger t in receiving} | t in receiving
      ensures Receives(r, tasks, t, receiving[t]) && receiving[t] != p
    {
      assert Receives(s, tasks, t, receiving[t]);
    }
    forall q {:trigger q in r.ports} | q in r.ports ensures r.ports[q].owner in tasks {
      assert q in s.ports;
    }
    forall t {:trigger Missed(r, receiving, tasks, t)}
      ensures Missed(r, receiving, tasks, t) ==> Missed(s, receiving, tasks, t)
    {
      assert t in receiving ==> Receives(s, tasks, t, receiving[t]);
    }
  }

  /** Ports keep their owners, and no queue changes. */
  lemma PortsState(B: map<int, Binding>, s: P.PortState, receiving: map<int, int>, m: S.SemState, tasks: map<int, Task>,
                   uses: map<int, Use>, r: map<int, P.Port>)
    requires StateOk(B, s, receiving, m, tasks, uses) && P.PortsOk(B, s.(ports := r)) && r.Keys == s.ports.Keys
    requires forall q {:trigger r[q]} :: q in s.ports ==> q in r && r[q].owner == s.ports[q].owner
    ensures StateOk(B, s.(ports := r), receiving, m, tasks, uses)
    ensures NoneMissed(s, receiving, tasks) ==> NoneMissed(s.(ports := r), receiving, tasks)
  {
    hide P.PortsOk, S.SemsOk, PortUses, PayloadUses, SemUses;
    PortsChange(uses, s.ports, s.msgs, r);
    forall t {:trigger t in receiving} | t in receiving ensures Receives(s.(ports := r), tasks, t, receiving[t]) {
      assert Receives(s, tasks, t, receiving[t]);
      assert receiving[t] in r.Keys;
    }
    forall q {:trigger q in r} | q in r ensures r[q].owner in tasks {
      assert q in s.ports.Keys;
    }
    forall t {:trigger Missed(s.(ports := r), receiving, tasks, t)}
      ensures Missed(s.(ports := r), receiving, tasks, t) ==> Missed(s, receiving, tasks, t)
    {
    }
  }

  lemma SendState(B: map<int, Binding>, s: P.PortState, receiving: map<int, int>, m: S.SemState, tasks: map<int, Task>,
                  uses: map<int, Use>,
                  p: int, x: int, k: P.Message, c: seq<byte>, uses': map<int, Use>)
    requires StateOk(B, s, receiving, m, tasks, uses) && p in s.ports && x !in uses && x != 0 && k.next == 0
      && 1 <= k.size <= 4096 && |c| == k.size
    requires forall y {:trigger y in s.msgs} :: y in s.msgs ==> s.msgs[y].data != k.data
    requires if k.size < SMALL
      then k.data !in uses && k.data != x && uses' == uses[x := AMessage][k.data := APayload(x, k.size)]
             else uses' == uses[x := AMessage]
    ensures x !in s.msgs && P.PortsOk(B, P.Sent(s, p, x, k, c))
      && StateOk(B, P.Sent(s, p, x, k, c), receiving, m, tasks, uses')
    ensures forall t {:trigger Missed(P.Sent(s, p, x, k, c), receiving, tasks, t)} ::
      Missed(P.Sent(s, p, x, k, c), receiving, tasks, t) <==>
        Missed(s, receiving, tasks, t) || (t in receiving && receiving[t] == p && Get(tasks, t).state == SleepPort)
  {
    hide P.PortsOk, S.SemsOk, PortUses, PayloadUses, SemUses, Agree, P.Appended;
    var r := P.Sent(s, p, x, k, c);
    NoSuchMessage(uses, s, x);
    P.SendKeeps(B, s, p, x, k, c);
    assert x in r.msgs.Keys;
    assert r.ports.Keys == s.ports.Keys;
    AddAgrees(uses, x, AMessage, true);
    if k.size < SMALL {
      SendSmallUses(uses, s.ports, s.msgs, x, k.data, r.msgs);
      AddAgrees(uses[x := AMessage], k.data, APayload(x, k.size), true);
      AgreeTwice(uses, uses[x := AMessage], uses', true);
    } else {
      SendLargeUses(uses, s.ports, s.msgs, x, r.msgs);
    }
    PortsChange(uses', s.ports, r.msgs, r.ports);
    SemUsesKept(uses, uses', m);
    SendReceivers(s, receiving, tasks, p, x, k, c);
  }

  lemma NoSuchMessage(uses: map<int, Use>, s: P.PortState, x: int)
    requires PortUses(uses, s.ports, s.msgs) && x !in uses
    ensures x !in s.msgs && x !in s.ports
  {
    assert x in s.msgs || x in s.ports ==> x in uses;
  }

  lemma SendReceivers(s: P.PortState, receiving: map<int, int>, tasks: map<int, Task>, p: int, x: int, k: P.Message,
                      c: seq<byte>)
    requires OwnersOk(s.ports, tasks) && ReceiversOk(s, receiving, tasks) && p in s.ports
    ensures var r := P.Sent(s, p, x, k, c); OwnersOk(r.ports, tasks) && ReceiversOk(r, receiving, tasks)
    ensures forall t {:trigger Missed(P.Sent(s, p, x, k, c), receiving, tasks, t)} ::
      Missed(P.Sent(s, p, x, k, c), receiving, tasks, t) <==>
        Missed(s, receiving, tasks, t) || (t in receiving && receiving[t] == p && Get(tasks, t).state == SleepPort)
  {
    hide P.Appended;
    var r := P.Sent(s, p, x, k, c);
    forall t {:trigger t in receiving} | t in receiving ensures Receives(r, tasks, t, receiving[t]) {
      assert Receives(s, tasks, t, receiving[t]);
    }
    forall q {:trigger q in r.ports} | q in r.ports ensures r.ports[q].owner in tasks {
      assert q in s.ports;
    }
  }

  /** Only the owner of p can have become one that misses mail. */
  ghost predicate SendMisses(s: P.PortState, r: P.PortState, receiving: map<int, int>, tasks: map<int, Task>, p: int) {
    forall t {:trigger Missed(r, receiving, tasks, t)} ::
      Missed(r, receiving, tasks, t) <==>
        Missed(s, receiving, tasks, t) || (t in receiving && receiving[t] == p && Get(tasks, t).state == SleepPort)
  }

  /** port_send wakes the owner of the port that took the message only if it sleeps on the identifier the message was
      addressed to, which is not the port's own if the message went to a slave. */
  ghost predicate SleepsThrough(s: P.PortState, receiving: map<int, int>, tasks: map<int, Task>, p: int, dst: int) {
    var o := P.GetPort(s.ports, p).owner;
    Get(tasks, o).state == SleepPort && o in receiving && receiving[o] == p && IdOf(s.ids, p) != dst
  }

  /** The send loses a wakeup exactly when the owner sleeps on the master while the message was addressed to a slave. */
  lemma SendWakeup(s: P.PortState, r: P.PortState, receiving: map<int, int>, tasks: map<int, Task>,
                   tasks': map<int, Task>, p: int, dst: int)
    requires ReceiversOk(s, receiving, tasks) && ReceiversOk(r, receiving, tasks) && NoneMissed(s, receiving, tasks)
      && p in s.ports
    requires SendMisses(s, r, receiving, tasks, p)
    requires var o := s.ports[p].owner;
      tasks' == if Get(tasks, o).state == SleepPort && Get(tasks, o).sleepingOn == dst
        then tasks[o := Get(tasks, o).(state := Ready)] else tasks
    ensures NoneMissed(r, receiving, tasks') <==> !SleepsThrough(s, receiving, tasks, p, dst)
  {
    var o := s.ports[p].owner;
    forall t {:trigger Missed(r, receiving, tasks', t)}
      ensures Missed(r, receiving, tasks', t) <==> t == o && SleepsThrough(s, receiving, tasks, p, dst)
    {
      assert Missed(r, receiving, tasks, t) <==>
        Missed(s, receiving, tasks, t) || (t in receiving && receiving[t] == p && Get(tasks, t).state == SleepPort);
      assert t in receiving ==> Receives(s, tasks, t, receiving[t]);
    }
    assert Missed(r, receiving, tasks', o) <==> SleepsThrough(s, receiving, tasks, p, dst);
  }

  /** A receiver that sleeps is made ready. */
  lemma WakeState(B: map<int, Binding>, s: P.PortState, receiving: map<int, int>, m: S.SemState, tasks: map<int, Task>,
                  uses: map<int, Use>, t: int)
    requires StateOk(B, s, receiving, m, tasks, uses) && t in tasks && tasks[t].state == SleepPort
    ensures StateOk(B, s, receiving, m, tasks[t := tasks[t].(state := Ready)], uses)
    ensures forall u {:trigger Missed(s, receiving, tasks[t := tasks[t].(state := Ready)], u)} ::
      Missed(s, receiving, tasks[t := tasks[t].(state := Ready)], u) <==> Missed(s, receiving, tasks, u) && u != t
  {
    hide P.PortsOk, S.SemsOk, PortUses, PayloadUses, SemUses, Named;
    var tasks' := tasks[t := tasks[t].(state := Ready)];
    SemTasks(B, m, tasks, tasks', t);
    forall u {:trigger u in receiving} | u in receiving ensures Receives(s, tasks', u, receiving[u]) {
      assert Receives(s, tasks, u, receiving[u]);
    }
    forall q {:trigger q in s.ports} | q in s.ports ensures s.ports[q].owner in tasks' {}
  }

  /** Tasks that neither were nor are asleep on a semaphore do not matter to semaphores. */
  lemma SemTasks(B: map<int, Binding>, m: S.SemState, tasks: map<int, Task>, tasks': map<int, Task>, t: int)
    requires S.SemsOk(B, m, tasks) && t in tasks && t in tasks' && tasks' == tasks[t := tasks'[t]]
    requires tasks[t].state != SleepSem && tasks'[t].state != SleepSem
    ensures S.SemsOk(B, m, tasks')
  {
    hide S.EachOk, S.NothingStray, S.WaitersOk, Named;
    forall u ensures S.SameSleep(tasks, tasks', u) {}
    S.TasksKeep(B, m, tasks, tasks', B);
  }

  lemma ReceiveAgrees(uses: map<int, Use>, msgs: map<int, P.Message>, x: int, uses': map<int, Use>)
    requires x in msgs && x in uses && uses[x] == AMessage
      && (msgs[x].size < SMALL ==> msgs[x].data in uses && !OfSem(uses[msgs[x].data]))
    requires uses' == if msgs[x].size < SMALL then uses - {x, msgs[x].data} else uses - {x}
    ensures Agree(uses, uses', true)
  {
  }

  lemma ReceiveBlocks(s: P.PortState, uses: map<int, Use>, m: S.SemState, p: int, x: int, uses': map<int, Use>,
                      r: P.PortState)
    requires PortUses(uses, s.ports, s.msgs) && PayloadUses(uses, s.msgs) && SemUses(uses, m) && x in s.msgs
    requires r.ports.Keys == s.ports.Keys && r.msgs == s.msgs - {x}
    requires uses' == if s.msgs[x].size < SMALL then uses - {x, s.msgs[x].data} else uses - {x}
    ensures PortUses(uses', r.ports, r.msgs) && PayloadUses(uses', r.msgs) && SemUses(uses', m)
  {
    hide PortUses, PayloadUses, SemUses, Agree;
    ReceiveUses(uses, s.ports, s.msgs, x);
    PortsChange(uses', s.ports, r.msgs, r.ports);
    ReceiveAgrees(uses, s.msgs, x, uses');
    SemUsesKept(uses, uses', m);
  }

  lemma ReceiveState(B: map<int, Binding>, s: P.PortState, receiving: map<int, int>, m: S.SemState,
                     tasks: map<int, Task>, uses: map<int, Use>,
                     p: int, x: int, uses': map<int, Use>)
    requires StateOk(B, s, receiving, m, tasks, uses) && p in s.ports && |P.ChainOf(s.chain, p)| > 0
      && x == P.ChainOf(s.chain, p)[0] && x in s.msgs
    requires uses' == if s.msgs[x].size < SMALL then uses - {x, s.msgs[x].data} else uses - {x}
    ensures StateOk(B, P.Received(s, p), receiving, m, tasks, uses')
    ensures NoneMissed(s, receiving, tasks) ==> NoneMissed(P.Received(s, p), receiving, tasks)
  {
    hide P.PortsOk, S.SemsOk, PortUses, PayloadUses, SemUses, Agree, NoneMissed, OwnersOk, ReceiversOk, P.Queue,
      P.Shorter, P.Mails;
    var r := P.Received(s, p);
    P.ReceiveKeeps(B, s, p);
    ReceiveBlocks(s, uses, m, p, x, uses', r);
    ReceiveReceivers(s, receiving, tasks, p);
  }

  lemma ReceiveReceivers(s: P.PortState, receiving: map<int, int>, tasks: map<int, Task>, p: int)
    requires OwnersOk(s.ports, tasks) && ReceiversOk(s, receiving, tasks) && p in s.ports
    ensures var r := P.Received(s, p);
      OwnersOk(r.ports, tasks) && ReceiversOk(r, receiving, tasks)
        && (NoneMissed(s, receiving, tasks) ==> NoneMissed(r, receiving, tasks))
  {
    var r := P.Received(s, p);
    forall t {:trigger t in receiving} | t in receiving ensures Receives(r, tasks, t, receiving[t]) {
      assert Receives(s, tasks, t, receiving[t]);
    }
    forall q {:trigger q in r.ports} | q in r.ports ensures r.ports[q].owner in tasks {
      assert q in s.ports;
    }
    forall t {:trigger Missed(r, receiving, tasks, t)}
      ensures Missed(r, receiving, tasks, t) ==> Missed(s, receiving, tasks, t)
    {
    }
  }

  /** The owner of an empty port goes to sleep on it. */
  lemma BlockState(B: map<int, Binding>, s: P.PortState, receiving: map<int, int>, m: S.SemState, tasks: map<int, Task>,
                   uses: map<int, Use>, t: int, p: int,
                   tasks': map<int, Task>)
    requires StateOk(B, s, receiving, m, tasks, uses) && t in tasks && tasks[t].state == Running
    requires p in s.ports && s.ports[p].owner == t && IdOf(s.ids, p) != 0 && |P.ChainOf(s.chain, p)| == 0
    requires tasks' == tasks[t := tasks[t].(sleepingOn := IdOf(s.ids, p), state := SleepPort)]
    ensures StateOk(B, s, receiving[t := p], m, tasks', uses)
    ensures NoneMissed(s, receiving, tasks) ==> NoneMissed(s, receiving[t := p], tasks')
  {
    hide P.PortsOk, S.SemsOk, PortUses, PayloadUses, SemUses, Named;
    SemTasks(B, m, tasks, tasks', t);
    forall u {:trigger u in receiving[t := p]} | u in receiving[t := p]
      ensures Receives(s, tasks', u, receiving[t := p][u])
    {
      if u != t { assert u in receiving && Receives(s, tasks, u, receiving[u]); }
    }
    forall q {:trigger q in s.ports} | q in s.ports ensures s.ports[q].owner in tasks' {}
    forall u {:trigger Missed(s, receiving[t := p], tasks', u)}
      ensures Missed(s, receiving[t := p], tasks', u) ==> Missed(s, receiving, tasks, u)
    {
    }
  }

  /** A task leaves port_recv. */
  lemma LeaveState(B: map<int, Binding>, s: P.PortState, receiving: map<int, int>, m: S.SemState, tasks: map<int, Task>,
                   uses: map<int, Use>, t: int)
    requires StateOk(B, s, receiving, m, tasks, uses) && t in tasks && tasks[t].state != SleepPort
    ensures StateOk(B, s, receiving - {t}, m, tasks, uses)
    ensures NoneMissed(s, receiving, tasks) ==> NoneMissed(s, receiving - {t}, tasks)
  {
    hide P.PortsOk, S.SemsOk, PortUses, PayloadUses, SemUses, Named;
    forall u {:trigger u in receiving - {t}} | u in receiving - {t}
      ensures Receives(s, tasks, u, (receiving - {t})[u])
    {
      assert u in receiving && Receives(s, tasks, u, receiving[u]);
    }
    forall u {:trigger Missed(s, receiving - {t}, tasks, u)}
      ensures Missed(s, receiving - {t}, tasks, u) ==> Missed(s, receiving, tasks, u)
    {
    }
  }

  // ----- names -----

  /** The structure that an identifier of the given kind names, or 0. */
  ghost function NamedAs(B: map<int, Binding>, kind: int, id: int): int
  { if id in B && B[id].kind == kind then B[id].data else 0 }

  lemma Found(B: map<int, Binding>, s: P.PortState, id: int)
    requires P.PortsOk(B, s)
    ensures var p := NamedAs(B, RSRC_PORT, id);
      p != 0 ==> p in s.ports && IdOf(s.ids, p) == id && id != 0 && P.NamesPort(B, s.ports, id)
    ensures var p := NamedAs(B, RSRC_PORT, id); p == 0 ==> !P.NamesPort(B, s.ports, id)
  {
    hide P.MastersOk, P.MessagesOk, P.Housed;
  }

  /** The panic "master port not found" cannot happen. */
  lemma MasterFound(B: map<int, Binding>, s: P.PortState, p: int)
    requires P.PortsOk(B, s) && p in s.ports && s.ports[p].slaved != 0
    ensures NamedAs(B, RSRC_PORT, s.ports[p].slaved) != 0 && P.NamesPort(B, s.ports, s.ports[p].slaved)
  {
    hide P.NamesOk, P.MessagesOk, P.Housed;
  }

  lemma SemFound(B: map<int, Binding>, m: S.SemState, tasks: map<int, Task>, id: int)
    requires S.SemsOk(B, m, tasks)
    ensures var x := NamedAs(B, RSRC_SEM, id); x != 0 ==> x in m.sems && IdOf(m.ids, x) == id && id != 0
  {
    hide S.EachOk, S.NothingStray, S.WaitersOk;
  }

  // ----- semaphores -----

  lemma SemCreateState(B: map<int, Binding>, s: P.PortState, receiving: map<int, int>, m: S.SemState,
                       tasks: map<int, Task>, uses: map<int, Use>,
                       x: int, q: int, n: int, id: int, B': map<int, Binding>)
    requires StateOk(B, s, receiving, m, tasks, uses) && x !in uses && q !in uses && x != q && x != 0 && 0 !in B'
    requires if id == 0 then B' == B else id !in B && B' == B[id := Binding(RSRC_SEM, x)]
    ensures StateOk(B', s, receiving, S.SemCreated(m, x, q, n, id), tasks, uses[x := ASemaphore][q := AQueue])
  {
    hide P.QueuesOk, P.MessagesOk, P.Housed, P.MastersOk, P.NamesOk, S.SemsOk, PortUses, PayloadUses, Agree, OwnersOk,
      ReceiversOk, SemUses;
    var uses1, uses' := uses[x := ASemaphore], uses[x := ASemaphore][q := AQueue];
    AddAgrees(uses, x, ASemaphore, false);
    AddAgrees(uses1, q, AQueue, false);
    AgreeTwice(uses, uses1, uses', false);
    PortUsesKept(uses, uses', s.ports, s.msgs);
    SemCreateUses(uses, m, x, q, n, id);
    S.SemCreateKeeps(B, m, tasks, x, q, n, id, B');
    if id != 0 {
      BindOther(B, id, Binding(RSRC_SEM, x), RSRC_PORT);
      PortNamesKept(B, s, B');
    }
  }

  lemma SemCreateUses(uses: map<int, Use>, m: S.SemState, x: int, q: int, n: int, id: int)
    requires SemUses(uses, m) && x !in uses && q !in uses && x != q
    ensures SemUses(uses[x := ASemaphore][q := AQueue], S.SemCreated(m, x, q, n, id)) && x !in m.sems && q !in m.queues
  {
    var uses' := uses[x := ASemaphore][q := AQueue];
    assert x in m.sems || x in m.nodes || x in m.queues ==> x in uses;
    assert q in m.sems || q in m.nodes || q in m.queues ==> q in uses;
    forall b {:trigger b in uses'}
      ensures (b in m.sems[x := S.Semaphore(q, n)] <==> b in uses' && uses'[b] == ASemaphore)
        && (b in m.queues[q := S.WaitQueue(0, 0, 0, 0)] <==> b in uses' && uses'[b] == AQueue)
        && (b in m.nodes <==> b in uses' && uses'[b] == ANode)
    {
      assert b in uses ==> b in uses';
    }
  }

  /** A semaphore's count changes, but no queue. */
  lemma CountState(B: map<int, Binding>, s: P.PortState, receiving: map<int, int>, m: S.SemState, tasks: map<int, Task>,
                   uses: map<int, Use>, m': S.SemState)
    requires StateOk(B, s, receiving, m, tasks, uses) && S.SemsOk(B, m', tasks)
    requires m'.sems.Keys == m.sems.Keys && m'.queues == m.queues && m'.nodes == m.nodes
    ensures StateOk(B, s, receiving, m', tasks, uses)
  {
    hide P.PortsOk, S.SemsOk, PortUses, PayloadUses, OwnersOk, ReceiversOk;
    forall b {:trigger b in uses}
      ensures (b in m'.sems <==> b in uses && uses[b] == ASemaphore)
        && (b in m'.queues <==> b in uses && uses[b] == AQueue)
        && (b in m'.nodes <==> b in uses && uses[b] == ANode)
    {
      assert b in m'.sems.Keys <==> b in m.sems.Keys;
    }
  }

  /** A task that is not inside port_recv goes to sleep on a semaphore, or wakes from one. */
  lemma SleeperState(s: P.PortState, receiving: map<int, int>, tasks: map<int, Task>, t: int, k: Task)
    requires OwnersOk(s.ports, tasks) && ReceiversOk(s, receiving, tasks) && t in tasks && t !in receiving
      && k.state != SleepPort
    ensures OwnersOk(s.ports, tasks[t := k]) && ReceiversOk(s, receiving, tasks[t := k])
    ensures NoneMissed(s, receiving, tasks) ==> NoneMissed(s, receiving, tasks[t := k])
  {
    var tasks' := tasks[t := k];
    forall u {:trigger u in receiving} | u in receiving ensures Receives(s, tasks', u, receiving[u]) {
      assert Receives(s, tasks, u, receiving[u]);
    }
    forall q {:trigger q in s.ports} | q in s.ports ensures s.ports[q].owner in tasks' {}
    forall u {:trigger Missed(s, receiving, tasks', u)}
      ensures Missed(s, receiving, tasks', u) ==> Missed(s, receiving, tasks, u)
    {
    }
  }

  /** An acquire by t of semaphore x that waits: t is behind all other waiters, and the count is one less. */
  ghost predicate WaitsLast(m: S.SemState, r: S.SemState, x: int, t: int) {
    && (exists n :: n !in m.nodes && r == S.Waited(m, x, n, t))
    && S.Waiters(r, x) == S.Waiters(m, x) + [t]
    && forall y {:trigger S.Waiters(r, y)} :: y in m.sems && y != x ==> S.Waiters(r, y) == S.Waiters(m, y)
  }

  lemma WaitState(B: map<int, Binding>, s: P.PortState, receiving: map<int, int>, m: S.SemState, tasks: map<int, Task>,
                  uses: map<int, Use>,
                  x: int, n: int, t: int, tasks': map<int, Task>)
    requires StateOk(B, s, receiving, m, tasks, uses) && x in m.sems && m.sems[x].count <= 0 && n !in uses && n != 0
    requires t in tasks && t !in receiving && tasks[t].state == Running
    requires tasks' == tasks[t := tasks[t].(sleepingOn := IdOf(m.ids, x), state := SleepSem)]
    ensures StateOk(B, s, receiving, S.Waited(m, x, n, t), tasks', uses[n := ANode])
      && WaitsLast(m, S.Waited(m, x, n, t), x, t)
    ensures NoneMissed(s, receiving, tasks) ==> NoneMissed(s, receiving, tasks')
  {
    hide P.PortsOk, S.EachOk, S.NothingStray, S.WaitersOk, Named, PortUses, PayloadUses, Agree, OwnersOk, ReceiversOk,
      NoneMissed, S.Enqueued;
    assert n in m.nodes ==> n in uses;
    AddAgrees(uses, n, ANode, false);
    PortUsesKept(uses, uses[n := ANode], s.ports, s.msgs);
    S.WaitKeeps(B, m, tasks, x, n, t, tasks');
    SleeperState(s, receiving, tasks, t, tasks'[t]);
    S.FirstWaiter(B, m, tasks, x);
    S.WaitHolds(m, x, n, t);
    WaitUses(uses, m, x, n, t);
  }

  lemma JoinFollows(m: S.SemState, r: S.SemState, x: int, t: int)
    requires WaitsLast(m, r, x, t) && x in m.sems && S.CountOf(m, x) <= 0
    ensures S.Follows(m, S.Joined(x, t), r)
  {
    hide S.Waiters, S.Waited, S.Follows;
    var n :| n !in m.nodes && r == S.Waited(m, x, n, t);
    S.WaitFollows(m, x, n, t);
  }

  lemma WaitUses(uses: map<int, Use>, m: S.SemState, x: int, n: int, t: int)
    requires SemUses(uses, m) && n !in uses && x in m.sems && S.GetSem(m.sems, x).queue in m.queues
      && S.Waited(m, x, n, t).nodes.Keys == m.nodes.Keys + {n}
    ensures SemUses(uses[n := ANode], S.Waited(m, x, n, t))
  {
    hide S.Enqueued;
    var r, uses' := S.Waited(m, x, n, t), uses[n := ANode];
    forall b {:trigger b in uses'}
      ensures (b in r.sems <==> b in uses' && uses'[b] == ASemaphore)
        && (b in r.queues <==> b in uses' && uses'[b] == AQueue)
        && (b in r.nodes <==> b in uses' && uses'[b] == ANode)
    {
      assert b in uses ==> b in uses';
      assert b in r.nodes <==> b in r.nodes.Keys;
    }
  }

  /** A release of semaphore x that completes the acquire of its first waiter and leaves the others as they are. */
  ghost predicate FirstLeaves(m: S.SemState, r: S.SemState, x: int) {
    && r == S.Handed(m, x) && |S.Waiters(m, x)| > 0 && S.Waiters(m, x) == [S.Waiters(m, x)[0]] + S.Waiters(r, x)
    && forall y {:trigger S.Waiters(r, y)} :: y in m.sems && y != x ==> S.Waiters(r, y) == S.Waiters(m, y)
  }

  lemma HandState(B: map<int, Binding>, s: P.PortState, receiving: map<int, int>, m: S.SemState, tasks: map<int, Task>,
                  uses: map<int, Use>,
                  x: int, t: int, n: int, tasks': map<int, Task>)
    requires StateOk(B, s, receiving, m, tasks, uses) && x in m.sems && |S.WaitOf(m.wait, x)| > 0
      && n == S.WaitOf(m.wait, x)[0]
    requires t == S.Waiters(m, x)[0] && t in tasks && tasks[t].state == SleepSem
      && tasks' == tasks[t := tasks[t].(state := Ready)]
    ensures n in uses && uses[n] == ANode && t !in receiving
      && StateOk(B, s, receiving, S.Handed(m, x), tasks', uses - {n})
    ensures FirstLeaves(m, S.Handed(m, x), x)
    ensures NoneMissed(s, receiving, tasks) ==> NoneMissed(s, receiving, tasks')
  {
    hide P.PortsOk, S.EachOk, S.NothingStray, S.WaitersOk, Named, PortUses, PayloadUses, Agree, OwnersOk, NoneMissed,
      S.Dequeued;
    assert t in receiving ==> Receives(s, tasks, t, receiving[t]);
    S.FirstWaiter(B, m, tasks, x);
    assert n in uses;
    RemoveAgrees(uses, n, false);
    PortUsesKept(uses, uses - {n}, s.ports, s.msgs);
    S.HandKeeps(B, m, tasks, x, tasks');
    SleeperState(s, receiving, tasks, t, tasks'[t]);
    S.HandHolds(m, x);
    HandUses(uses, m, x, n);
  }

  lemma LeaveFollows(m: S.SemState, r: S.SemState, x: int)
    requires FirstLeaves(m, r, x) && x in m.sems
    ensures S.Follows(m, S.Woken(x, S.Waiters(m, x)[0]), r)
  {
    hide S.Waiters, S.Handed, S.Follows;
    S.HandFollows(m, x, S.Waiters(m, x)[0]);
  }

  lemma HandUses(uses: map<int, Use>, m: S.SemState, x: int, n: int)
    requires SemUses(uses, m) && n in m.nodes && x in m.sems && S.GetSem(m.sems, x).queue in m.queues
      && S.Handed(m, x).nodes.Keys == m.nodes.Keys - {n}
    ensures SemUses(uses - {n}, S.Handed(m, x))
  {
    hide S.Dequeued;
    var r, uses' := S.Handed(m, x), uses - {n};
    assert n in uses && uses[n] == ANode;
    forall b {:trigger b in uses'}
      ensures (b in r.sems <==> b in uses' && uses'[b] == ASemaphore)
        && (b in r.queues <==> b in uses' && uses'[b] == AQueue)
        && (b in r.nodes <==> b in uses' && uses'[b] == ANode)
    {
      assert b in uses' ==> b in uses;
      assert b in r.nodes <==> b in r.nodes.Keys;
    }
  }

  // ----- what the invariants say -----

  ghost predicate IsQueued(s: P.PortState, m: int) {
    m in s.msgs && P.HomeOf(s.home, m) in s.ports && m in P.ChainOf(s.chain, P.HomeOf(s.home, m))
  }

  /** The message x, which waits on a port, has its small payload in the block b of class c. */
  ghost predicate HasBlock(s: P.PortState, x: int, c: int, b: int) {
    IsQueued(s, x) && s.msgs[x].data == b && 0 <= s.msgs[x].size < SMALL && c == SizeMap(s.msgs[x].size)
  }

  /** The message x, which waits on a port, has its large payload on the page q. */
  ghost predicate HasPage(s: P.PortState, x: int, q: int) {
    IsQueued(s, x) && s.msgs[x].data == q && s.msgs[x].size >= SMALL
  }

  /** The block b of class c is a port, the header or the small payload of a message that waits on a port, a semaphore,
      a semaphore's queue, or a node in such a queue. */
  ghost predicate Live(s: P.PortState, m: S.SemState, c: int, b: int) {
    || (c == KM32 && (b in s.ports || IsQueued(s, b)))
    || (c == KM16 && (b in m.sems || b in m.queues || b in m.nodes))
    || exists x :: HasBlock(s, x, c, b)
  }

  /** Blocks are conserved: where no message has been lost, the blocks in use are exactly the live ones. */
  lemma LiveBlocks(B: map<int, Binding>, H: seq<set<int>>, s: P.PortState, receiving: map<int, int>, m: S.SemState,
                   tasks: map<int, Task>, uses: map<int, Use>, c: int, b: int)
    requires UsesOk(H, uses) && StateOk(B, s, receiving, m, tasks, uses) && s.lost == {}
    ensures InUse(H, c, b) <==> Live(s, m, c, b)
  {
    hide S.SemsOk, P.QueuesOk, P.NamesOk, P.MastersOk, OwnersOk, ReceiversOk;
    assert P.PortsOk(B, s);
    assert forall x :: x in s.msgs ==> IsQueued(s, x);
    assert InUse(H, c, b) <==> 0 <= c < CLASSES && b in uses && ClassOf(uses[b]) == c;
    if InUse(H, c, b) && uses[b].APayload? { assert HasBlock(s, uses[b].message, c, b); }
    forall x | HasBlock(s, x, c, b) ensures InUse(H, c, b) { assert uses[b] == APayload(x, s.msgs[x].size); }
  }

  /** The pages taken for large messages are exactly those with the payload of a message that waits and those in the
      pool. */
  lemma LivePages(B: map<int, Binding>, s: P.PortState, pages: set<int>, pool: seq<int>, P': seq<set<int>>, q: int)
    requires P.PortsOk(B, s) && CarriersOk(pages, pool, s.msgs, s.of) && PagesOk(P', pages, pool) && s.lost == {}
    ensures q in pages <==> q in pool || exists x :: HasPage(s, x, q)
    ensures q in pool ==> !exists x :: HasPage(s, x, q)
  {
    hide P.QueuesOk, P.NamesOk, P.MastersOk;
    assert Member(q, pages) <==> q in pages;
    assert forall x :: x in s.msgs ==> IsQueued(s, x);
    if q in pages && q !in pool { assert HasPage(s, P.HomeOf(s.of, q), q); }
    forall x | HasPage(s, x, q) ensures q in pages && q !in pool { assert x in s.msgs; }
  }
}
