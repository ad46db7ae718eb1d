/** What each system call and interrupt does to the kernel, as a relation between views, and what follows for runs. */
module KernelSteps {
  import opened Arithmetic
  import opened Lists
  import opened Resources
  import opened SchedulerStates
  import opened Schedulers
  import P = PortStates
  import S = SemStates
  import opened KernelStates
  import opened Kernels

  /** What may happen next: a system call of the current task, the continuation of its port_recv, a timer tick, or an
      interrupt. */
  datatype Event =
    | DoPortCreate(restrict: int)
    | DoPortDestroy(port: int)
    | DoPortOption(port: int, opt: int, arg: int)
    | DoPortSend(src: int, dst: int, size: int, data: seq<byte>)
    | DoPortRecv(dst: int, size: int)
    | DoResume(dst: int, size: int)
    | DoSemCreate(count: int)
    | DoSemAcquire(id: int)
    | DoSemRelease(id: int)
    | DoSleep(time: int)
    | DoTerminate
    | DoHandleIrq(irq: int)
    | DoSleepIrq
    | DoCreateTask(t: int, junk: Task, parent: int)
    | Timer
    | Interrupt(number: int)

  /** Identifiers and how many there may be, ports, semaphores, tasks, who is inside port_recv, and who handles which
      interrupt. */
  datatype View = View(names: map<int, Binding>, rmax: int, ports: P.PortState, sems: S.SemState, now: Sched,
                       receiving: map<int, int>, handlers: seq<int>)

  /** The invariants that hold of every view. */
  ghost predicate Sound(v: View) {
    && Ok(v.now) && IdsOk(v.names, v.now.slots, v.now.tasks) && |v.handlers| == 16
    && P.PortsOk(v.names, v.ports) && S.SemsOk(v.names, v.sems, v.now.tasks)
    && OwnersOk(v.ports.ports, v.now.tasks) && ReceiversOk(v.ports, v.receiving, v.now.tasks)
  }

  /** The current task is outside port_recv, and so may make a system call. */
  ghost predicate Calls(v: View) { v.now.current !in v.receiving }

  /** It is not the idle task either, which makes no call that may block. */
  ghost predicate MayBlock(v: View) { Calls(v) && v.now.num != 0 }

  // ----- ports -----

  /** The port that the current task receives from, or 0 if it has none to receive from. */
  ghost function Source(v: View, dst: int, resumes: bool): int {
    var p := NamedAs(v.names, RSRC_PORT, dst);
    if v.now.num == 0 || p == 0 then 0
    else if v.now.current in v.receiving then if resumes && v.receiving[v.now.current] == p then p else 0
    else if !resumes && P.GetPort(v.ports.ports, p).owner == v.now.current then p else 0
  }

  ghost predicate Delivers(v: View, dst: int, resumes: bool) {
    Source(v, dst, resumes) != 0 && |P.Queue(v.ports, Source(v, dst, resumes))| > 0
  }

  ghost predicate Blocks(v: View, dst: int, resumes: bool) {
    Source(v, dst, resumes) != 0 && |P.Queue(v.ports, Source(v, dst, resumes))| == 0
  }

  ghost function Reads(v: View, dst: int, resumes: bool): P.Change {
    if Delivers(v, dst, resumes)
    then P.Got(Source(v, dst, resumes), P.Queue(v.ports, Source(v, dst, resumes))[0]) else P.Still
  }

  ghost predicate Sends(v: View, src: int, dst: int, size: int, data: seq<byte>) {
    Calls(v) && size <= |data|
    && Refusal(v.names, v.ports.ports, v.now.tasks, v.now.current, src, dst, size) == ERR_NONE
  }

  /** c is what the event e does to the ports: it depends on nothing but the view v, except for a new port's address. */
  ghost predicate Does(v: View, e: Event, c: P.Change) {
    match e
    case DoPortCreate(_) => if Calls(v) then c.Made? else c.Still?
    case DoPortDestroy(port) =>
      var p := NamedAs(v.names, RSRC_PORT, port);
      var k := P.GetPort(v.ports.ports, p);
      c == if Calls(v) && p != 0 && k.owner == v.now.current && k.refcount == 1
           then P.Gone(p, P.MasterOf(v.names, v.ports.ports, p)) else P.Still
    case DoPortSend(src, dst, size, data) =>
      if Sends(v, src, dst, size, data)
      then 0 <= size <= |data| && c == P.Put(Target(v.names, v.ports.ports, dst),
                                             P.Mail(src, dst, Get(v.now.tasks, v.now.current).tid, data[..size]))
      else c.Still?
    case DoPortRecv(dst, _) => c == Reads(v, dst, false)
    case DoResume(dst, _) => c == Reads(v, dst, true)
    case _ => c.Still?
  }

  /** The ports afterwards. Sending and receiving are told by the queues alone. */
  ghost predicate PortsAfter(v: View, e: Event, c: P.Change, r: P.PortState) {
    && P.Steps(v.ports, c, r)
    && match c
       case Made(p) =>
         e.DoPortCreate?
         && r == P.Created(v.ports, p, P.Port(v.now.current, e.restrict, 0, 0, 0, 0, 1), IdOf(r.ids, p))
       case Gone(p, _) => r == P.Destroyed(v.ports, p)
       case Still =>
         if e.DoPortOption? && Calls(v)
            && OptionCode(v.names, v.ports.ports, v.now.current, e.port, e.opt, e.arg) == ERR_NONE
         then r == v.ports.(ports := r.ports)
              && Optioned(v.names, v.ports.ports, NamedAs(v.names, RSRC_PORT, e.port), e.opt, e.arg, r.ports)
         else r == v.ports
       case _ => true
  }

  ghost function ReceivingAfter(v: View, e: Event): map<int, int> {
    match e
    case DoPortRecv(dst, _) =>
      if Blocks(v, dst, false) then v.receiving[v.now.current := Source(v, dst, false)] else v.receiving
    case DoResume(dst, _) => if Delivers(v, dst, true) then v.receiving - {v.now.current} else v.receiving
    case _ => v.receiving
  }

  // ----- semaphores -----

  /** d is what the event e does to the semaphores; only a new semaphore's address is left open. */
  ghost predicate SemDoes(v: View, e: Event, d: S.Change) {
    match e
    case DoSemCreate(count) => if Calls(v) then d.Begun? && d.count == count else d.Quiet?
    case DoSemAcquire(id) =>
      var x := NamedAs(v.names, RSRC_SEM, id);
      d == if !MayBlock(v) || x == 0 then S.Quiet
           else if S.CountOf(v.sems, x) > 0 then S.Through(x) else S.Joined(x, v.now.current)
    case DoSemRelease(id) =>
      var x := NamedAs(v.names, RSRC_SEM, id);
      d == if !Calls(v) || x == 0 then S.Quiet
           else if |S.Waiters(v.sems, x)| == 0 then S.Freed(x) else S.Woken(x, S.Waiters(v.sems, x)[0])
    case _ => d.Quiet?
  }

  // ----- names -----

  ghost predicate NamesAfter(v: View, e: Event, c: P.Change, d: S.Change, w: View) {
    if c.Made? then Binds(v.names, v.rmax, RSRC_PORT, c.p, IdOf(w.ports.ids, c.p), w.names)
    else if c.Gone? then e.DoPortDestroy? && w.names == v.names - {e.port}
    else if d.Begun? then Binds(v.names, v.rmax, RSRC_SEM, d.x, IdOf(w.sems.ids, d.x), w.names)
    else Others(w.names) == Others(v.names)
  }

  // ----- tasks -----

  /** What an event does to the tasks: only changes that take no ready task its turn; these and then a switch; these and
      then the preemption of the current task by t; or a new task. */
  datatype Turn = Keep(m: Sched) | Yield(m: Sched) | Cede(m: Sched, t: int) | Add

  ghost function Changed(s: Sched, k: Task): Sched { SetTask(s, s.current, k) }

  ghost function TurnOf(v: View, e: Event): Turn {
    var s, k := v.now, Get(v.now.tasks, v.now.current);
    match e
    case DoPortSend(src, dst, size, data) =>
      if Sends(v, src, dst, size, data)
      then Keep(s.(tasks := WokenBy(v.ports.ports, s.tasks, Target(v.names, v.ports.ports, dst), dst))) else Keep(s)
    case DoPortRecv(dst, _) => if Blocks(v, dst, false) then Yield(Asleep(s, SleepPort, dst)) else Keep(s)
    case DoResume(dst, _) => if Blocks(v, dst, true) then Yield(Asleep(s, SleepPort, dst)) else Keep(s)
    case DoSemAcquire(id) =>
      var x := NamedAs(v.names, RSRC_SEM, id);
      if MayBlock(v) && x != 0 && S.CountOf(v.sems, x) <= 0 then Yield(Asleep(s, SleepSem, id)) else Keep(s)
    case DoSemRelease(id) =>
      var x := NamedAs(v.names, RSRC_SEM, id);
      if Calls(v) && x != 0 && |S.Waiters(v.sems, x)| > 0
      then Cede(Readied(s, S.Waiters(v.sems, x)[0]), S.Waiters(v.sems, x)[0]) else Keep(s)
    case DoSleep(time) => if MayBlock(v) then Yield(Changed(s, k.(state := SleepTimer, timer := time))) else Keep(s)
    case DoTerminate => if MayBlock(v) then Yield(Changed(s, k.(state := Dead))) else Keep(s)
    case DoHandleIrq(irq) =>
      if Calls(v) then Yield(if 0 < irq < 16 then Changed(s, k.(irq := irq)) else s) else Keep(s)
    case DoSleepIrq =>
      if MayBlock(v) then Yield(if k.irq != 0 then Changed(s, k.(state := SleepIrq)) else s) else Keep(s)
    case DoCreateTask(t, _, _) => if Calls(v) && Vacant(s.slots, s.tasks, t) then Add else Keep(s)
    case Timer => Yield(s)
    case Interrupt(number) =>
      var h := Slot(v.handlers, number);
      if h != 0 && Get(s.tasks, h).state == SleepIrq then Cede(Readied(s, h), h) else Keep(s)
    case _ => Keep(s)
  }

  /** The new task t is ready and in the first empty slot, if there is one. */
  ghost predicate Added(s: Sched, t: int, junk: Task, parent: int, r: Sched) {
    && t in r.tasks
    && r.tasks == s.tasks[t := junk.(state := Ready, parent := parent, tid := r.tasks[t].tid, rid := r.tasks[t].rid)]
    && if exists i :: 0 <= i < MAX_PROC && Slot(s.slots, i) == 0
       then FirstEmpty(s.slots, r.tasks[t].tid) && r.slots == s.slots[r.tasks[t].tid := t] else r.slots == s.slots
  }

  /** The tasks when the changes are made and before another one runs. */
  ghost function Middle(v: View, e: Event, r: Sched): Sched {
    match TurnOf(v, e)
    case Keep(m) => m
    case Yield(m) => m
    case Cede(m, _) => m
    case Add => r
  }

  ghost predicate TasksAfter(v: View, e: Event, r: Sched) {
    var m := Middle(v, e, r);
    && Mid(m) && Calm(v.now, m)
    && match TurnOf(v, e)
       case Keep(_) => r == m
       case Yield(_) => Switched(m, r)
       case Cede(_, t) => Preempted(m, r, t)
       case Add => e.DoCreateTask? && Added(v.now, e.t, e.junk, e.parent, r)
  }

  ghost function HandlersAfter(v: View, e: Event): seq<int> {
    if e.DoHandleIrq? && Calls(v) && 0 < e.irq < |v.handlers| then v.handlers[e.irq := v.now.current] else v.handlers
  }

  // ----- one step -----

  /** The event e leads from v to w and does c to the ports and d to the semaphores. */
  ghost predicate Performs(v: View, e: Event, c: P.Change, d: S.Change, w: View) {
    && Does(v, e, c) && PortsAfter(v, e, c, w.ports) && SemDoes(v, e, d) && S.Follows(v.sems, d, w.sems)
    && NamesAfter(v, e, c, d, w) && w.rmax == v.rmax && TasksAfter(v, e, w.now)
    && w.receiving == ReceivingAfter(v, e) && w.handlers == HandlersAfter(v, e)
  }

  predicate OfTasks(e: Event) {
    e.DoSleep? || e.DoTerminate? || e.DoHandleIrq? || e.DoSleepIrq? || e.DoCreateTask? || e.Timer? || e.Interrupt?
  }

  /** An event that only changes tasks. */
  lemma TasksPerform(v: View, e: Event, w: View)
    requires OfTasks(e) && TasksAfter(v, e, w.now) && Others(w.names) == Others(v.names)
    requires w == v.(names := w.names, now := w.now, handlers := HandlersAfter(v, e))
    ensures Performs(v, e, P.Still, S.Quiet, w)
  {
    hide TasksAfter, P.Steps, S.Follows, Others, HandlersAfter;
    P.StillSteps(v.ports);
    S.QuietFollows(v.sems);
  }

  /** A call that has no effect. */
  lemma NothingPerforms(v: View, e: Event)
    requires Ok(v.now) && TurnOf(v, e) == Keep(v.now) && Does(v, e, P.Still) && SemDoes(v, e, S.Quiet)
    requires ReceivingAfter(v, e) == v.receiving && HandlersAfter(v, e) == v.handlers
    requires e.DoPortOption? && Calls(v) ==>
      OptionCode(v.names, v.ports.ports, v.now.current, e.port, e.opt, e.arg) != ERR_NONE
    ensures Performs(v, e, P.Still, S.Quiet, v)
  {
    hide TurnOf, P.Steps, S.Follows, Others, HandlersAfter, ReceivingAfter, Does, SemDoes, OptionCode, TasksAfter;
    P.StillSteps(v.ports);
    S.QuietFollows(v.sems);
    KeepsTurn(v, e);
  }

  // ----- turns -----

  lemma CalmSame(s: Sched)
    ensures Calm(s, s)
  {
  }

  lemma OkMid(s: Sched)
    requires Ok(s)
    ensures Mid(s) && s.current in s.tasks && s.tasks[s.current].state == Running
  {
  }

  lemma KeepsTurn(v: View, e: Event)
    requires Ok(v.now) && TurnOf(v, e) == Keep(v.now)
    ensures TasksAfter(v, e, v.now)
  {
    hide TurnOf, Mid, Calm;
    OkMid(v.now);
    CalmSame(v.now);
  }

  /** Waking a sleeper takes no ready task its turn. */
  lemma WakesTurn(v: View, e: Event, t: int)
    requires Ok(v.now) && t in v.now.tasks && Sleeping(v.now.tasks[t].state) && TurnOf(v, e) == Keep(Readied(v.now, t))
    ensures TasksAfter(v, e, Readied(v.now, t))
  {
    hide TurnOf, Mid, Calm;
    OkMid(v.now);
    SleeperWakes(v.now, t, v.now.tasks[t].(state := Ready));
  }

  /** The current task changes, and then the next one is switched to. */
  lemma ChangesTurn(v: View, e: Event, k: Task, r: Sched)
    requires Ok(v.now) && TurnOf(v, e) == Yield(Changed(v.now, k)) && Switched(Changed(v.now, k), r)
    requires k.tid == Get(v.now.tasks, v.now.current).tid && (v.now.num == 0 ==> k.state in {Kernel, Ready, Running})
    ensures TasksAfter(v, e, r)
  {
    hide TurnOf, Mid, Calm, Switched;
    OkMid(v.now);
    CurrentChanges(v.now, k);
  }

  lemma SwitchesTurn(v: View, e: Event, r: Sched)
    requires Ok(v.now) && TurnOf(v, e) == Yield(v.now) && Switched(v.now, r)
    ensures TasksAfter(v, e, r)
  {
    hide TurnOf, Mid, Calm, Switched;
    OkMid(v.now);
    CalmSame(v.now);
  }

  /** The current task goes to sleep. */
  lemma SleepsTurn(v: View, e: Event, st: TaskState, on: int, r: Sched)
    requires Ok(v.now) && v.now.num != 0 && TurnOf(v, e) == Yield(Asleep(v.now, st, on))
    requires Switched(Asleep(v.now, st, on), r)
    ensures TasksAfter(v, e, r)
  {
    hide TurnOf, TasksAfter, Switched, Ok;
    ChangesTurn(v, e, Get(v.now.tasks, v.now.current).(sleepingOn := on, state := st), r);
  }

  /** A sleeper is made ready and runs at once. */
  lemma CedesTurn(v: View, e: Event, t: int, r: Sched)
    requires Ok(v.now) && t in v.now.tasks && Sleeping(v.now.tasks[t].state)
    requires TurnOf(v, e) == Cede(Readied(v.now, t), t) && Preempted(Readied(v.now, t), r, t)
    ensures TasksAfter(v, e, r)
  {
    hide TurnOf, Mid, Calm, Preempted;
    OkMid(v.now);
    SleeperWakes(v.now, t, v.now.tasks[t].(state := Ready));
  }

  // ----- the calls, one by one -----

  /** A task inside port_recv makes no other call. */
  lemma InsidePerforms(v: View, e: Event)
    requires Ok(v.now) && !Calls(v) && !e.DoResume? && !e.Timer? && !e.Interrupt?
    ensures Performs(v, e, P.Still, S.Quiet, v)
  {
    hide Performs, Ok;
    NothingPerforms(v, e);
  }

  /** The idle task makes no call that may block. */
  lemma IdlePerforms(v: View, e: Event)
    requires Ok(v.now) && v.now.num == 0
    requires e.DoPortRecv? || e.DoResume? || e.DoSemAcquire? || e.DoSleep? || e.DoTerminate? || e.DoSleepIrq?
    ensures Performs(v, e, P.Still, S.Quiet, v)
  {
    hide Performs, Ok;
    NothingPerforms(v, e);
  }

  lemma CreatePerforms(v: View, restrict: int, p: int, id: int, w: View)
    requires Ok(v.now) && Calls(v) && w == v.(names := w.names, ports := w.ports)
    requires w.ports == P.Created(v.ports, p, P.Port(v.now.current, restrict, 0, 0, 0, 0, 1), id)
    requires Binds(v.names, v.rmax, RSRC_PORT, p, id, w.names) && P.Steps(v.ports, P.Made(p), w.ports)
    ensures Performs(v, DoPortCreate(restrict), P.Made(p), S.Quiet, w)
  {
    hide P.Steps, S.Follows, Binds, TasksAfter, Ok;
    S.QuietFollows(v.sems);
    KeepsTurn(v, DoPortCreate(restrict));
  }

  lemma DestroyPerforms(v: View, port: int, w: View) returns (c: P.Change)
    requires Ok(v.now) && Calls(v)
    requires var p := NamedAs(v.names, RSRC_PORT, port);
      if p != 0 && P.GetPort(v.ports.ports, p).owner == v.now.current && P.GetPort(v.ports.ports, p).refcount == 1
      then w == v.(names := v.names - {port}, ports := P.Destroyed(v.ports, p))
           && P.Steps(v.ports, P.Gone(p, P.MasterOf(v.names, v.ports.ports, p)), w.ports)
      else w == v
    ensures Performs(v, DoPortDestroy(port), c, S.Quiet, w)
  {
    hide P.Steps, S.Follows, TasksAfter, Ok, P.MasterOf, NamedAs, Others;
    var p := NamedAs(v.names, RSRC_PORT, port);
    var k := P.GetPort(v.ports.ports, p);
    c := if p != 0 && k.owner == v.now.current && k.refcount == 1 then P.Gone(p, P.MasterOf(v.names, v.ports.ports, p))
         else P.Still;
    P.StillSteps(v.ports);
    S.QuietFollows(v.sems);
    KeepsTurn(v, DoPortDestroy(port));
  }

  lemma OptionPerforms(v: View, port: int, opt: int, arg: int, w: View)
    requires Ok(v.now) && Calls(v) && w == v.(ports := v.ports.(ports := w.ports.ports))
    requires P.Steps(v.ports, P.Still, w.ports)
    requires if OptionCode(v.names, v.ports.ports, v.now.current, port, opt, arg) == ERR_NONE
      then Optioned(v.names, v.ports.ports, NamedAs(v.names, RSRC_PORT, port), opt, arg, w.ports.ports)
      else w.ports.ports == v.ports.ports
    ensures Performs(v, DoPortOption(port, opt, arg), P.Still, S.Quiet, w)
  {
    hide P.Steps, S.Follows, TasksAfter, Ok, OptionCode, Optioned, NamedAs, Others;
    S.QuietFollows(v.sems);
    KeepsTurn(v, DoPortOption(port, opt, arg));
  }

  lemma SendPerforms(v: View, src: int, dst: int, size: int, data: seq<byte>, w: View) returns (c: P.Change)
    requires Ok(v.now) && Calls(v) && size <= |data|
    requires var p := Target(v.names, v.ports.ports, dst);
      if Refusal(v.names, v.ports.ports, v.now.tasks, v.now.current, src, dst, size) == ERR_NONE
      then 0 <= size && w == v.(ports := w.ports, now := v.now.(tasks := WokenBy(v.ports.ports, v.now.tasks, p, dst)))
           && P.Steps(v.ports, P.Put(p, P.Mail(src, dst, Get(v.now.tasks, v.now.current).tid, data[..size])), w.ports)
      else w == v
    ensures Performs(v, DoPortSend(src, dst, size, data), c, S.Quiet, w)
  {
    hide P.Steps, S.Follows, TasksAfter, Ok, Refusal, Target, NamedAs, Others, WokenBy;
    var e := DoPortSend(src, dst, size, data);
    c := P.Still;
    P.StillSteps(v.ports);
    S.QuietFollows(v.sems);
    if Sends(v, src, dst, size, data) {
      var p := Target(v.names, v.ports.ports, dst);
      c := P.Put(p, P.Mail(src, dst, Get(v.now.tasks, v.now.current).tid, data[..size]));
      OwnerWoken(v.ports.ports, v.now, p, dst);
      if w.now == v.now { KeepsTurn(v, e); } else { WakesTurn(v, e, P.GetPort(v.ports.ports, p).owner); }
    } else {
      KeepsTurn(v, e);
    }
  }

  lemma OwnerWoken(ports: map<int, P.Port>, s: Sched, p: int, dst: int)
    ensures var o, r := P.GetPort(ports, p).owner, s.(tasks := WokenBy(ports, s.tasks, p, dst));
      r == s || (o in s.tasks && Sleeping(s.tasks[o].state) && r == Readied(s, o))
  {
  }

  lemma ReceivePerforms(v: View, dst: int, size: int, w: View) returns (c: P.Change)
    requires Ok(v.now) && MayBlock(v) && Others(w.names) == Others(v.names)
    requires if Blocks(v, dst, false)
      then w == v.(names := w.names, now := w.now, receiving := v.receiving[v.now.current := Source(v, dst, false)])
           && Switched(Asleep(v.now, SleepPort, dst), w.now)
      else w == v.(names := w.names, ports := w.ports)
           && if Delivers(v, dst, false) then P.Steps(v.ports, Reads(v, dst, false), w.ports) else w.ports == v.ports
    ensures Performs(v, DoPortRecv(dst, size), c, S.Quiet, w)
  {
    hide P.Steps, S.Follows, TasksAfter, Ok, Others, Source, Switched, P.Queue, Asleep;
    var e := DoPortRecv(dst, size);
    c := Reads(v, dst, false);
    P.StillSteps(v.ports);
    S.QuietFollows(v.sems);
    if Blocks(v, dst, false) { SleepsTurn(v, e, SleepPort, dst, w.now); } else { KeepsTurn(v, e); }
  }

  lemma ResumePerforms(v: View, dst: int, size: int, w: View) returns (c: P.Change)
    requires Ok(v.now) && v.now.num != 0 && Others(w.names) == Others(v.names)
    requires if Blocks(v, dst, true)
      then w == v.(names := w.names, now := w.now) && Switched(Asleep(v.now, SleepPort, dst), w.now)
      else if Delivers(v, dst, true)
      then w == v.(names := w.names, ports := w.ports, receiving := v.receiving - {v.now.current})
           && P.Steps(v.ports, Reads(v, dst, true), w.ports)
      else w == v.(names := w.names)
    ensures Performs(v, DoResume(dst, size), c, S.Quiet, w)
  {
    hide P.Steps, S.Follows, TasksAfter, Ok, Others, Source, Switched, P.Queue, Asleep;
    var e := DoResume(dst, size);
    c := Reads(v, dst, true);
    P.StillSteps(v.ports);
    S.QuietFollows(v.sems);
    if Blocks(v, dst, true) { SleepsTurn(v, e, SleepPort, dst, w.now); } else { KeepsTurn(v, e); }
  }

  lemma NewSemPerforms(v: View, count: int, x: int, q: int, id: int, w: View)
    requires Ok(v.now) && Calls(v) && x !in v.sems.sems
    requires w == v.(names := w.names, sems := S.SemCreated(v.sems, x, q, count, id))
    requires Binds(v.names, v.rmax, RSRC_SEM, x, id, w.names)
    ensures Performs(v, DoSemCreate(count), P.Still, S.Begun(x, count), w)
  {
    hide P.Steps, S.Follows, Binds, TasksAfter, Ok;
    P.StillSteps(v.ports);
    S.CreateFollows(v.sems, x, q, count, id);
    KeepsTurn(v, DoSemCreate(count));
  }

  lemma AcquirePerforms(v: View, id: int, w: View) returns (d: S.Change)
    requires Ok(v.now) && MayBlock(v) && Others(w.names) == Others(v.names)
    requires var x := NamedAs(v.names, RSRC_SEM, id);
      && (x != 0 ==> x in v.sems.sems)
      && w == v.(names := w.names, sems := w.sems, now := w.now)
      && if x == 0 then w.sems == v.sems && w.now == v.now
         else if S.CountOf(v.sems, x) > 0 then w.sems == S.Passed(v.sems, x) && w.now == v.now
         else WaitsLast(v.sems, w.sems, x, v.now.current) && Switched(Asleep(v.now, SleepSem, id), w.now)
    ensures Performs(v, DoSemAcquire(id), P.Still, d, w)
  {
    hide P.Steps, S.Follows, TasksAfter, Ok, Others, NamedAs, Switched, WaitsLast, Asleep, S.Passed;
    var x, e := NamedAs(v.names, RSRC_SEM, id), DoSemAcquire(id);
    d := S.Quiet;
    P.StillSteps(v.ports);
    S.QuietFollows(v.sems);
    if x == 0 {
      KeepsTurn(v, e);
    } else if S.CountOf(v.sems, x) > 0 {
      d := S.Through(x);
      S.PassFollows(v.sems, x);
      KeepsTurn(v, e);
    } else {
      d := S.Joined(x, v.now.current);
      JoinFollows(v.sems, w.sems, x, v.now.current);
      SleepsTurn(v, e, SleepSem, id, w.now);
    }
  }

  lemma ReleasePerforms(v: View, id: int, w: View) returns (d: S.Change)
    requires Ok(v.now) && Calls(v)
    requires var x := NamedAs(v.names, RSRC_SEM, id);
      && (x != 0 ==> x in v.sems.sems)
      && w == v.(sems := w.sems, now := w.now)
      && if x == 0 then w.sems == v.sems && w.now == v.now
         else if |S.Waiters(v.sems, x)| == 0 then w.sems == S.Raised(v.sems, x) && w.now == v.now
         else var t := S.Waiters(v.sems, x)[0];
              && FirstLeaves(v.sems, w.sems, x) && Get(v.now.tasks, t).state == SleepSem
              && Preempted(Readied(v.now, t), w.now, t)
    ensures Performs(v, DoSemRelease(id), P.Still, d, w)
  {
    hide P.Steps, S.Follows, TasksAfter, Ok, Others, NamedAs, Preempted, FirstLeaves, Readied, S.Raised, S.Waiters;
    var x, e := NamedAs(v.names, RSRC_SEM, id), DoSemRelease(id);
    d := S.Quiet;
    P.StillSteps(v.ports);
    S.QuietFollows(v.sems);
    if x == 0 {
      KeepsTurn(v, e);
    } else if |S.Waiters(v.sems, x)| == 0 {
      d := S.Freed(x);
      S.RaiseFollows(v.sems, x);
      KeepsTurn(v, e);
    } else {
      var t := S.Waiters(v.sems, x)[0];
      d := S.Woken(x, t);
      LeaveFollows(v.sems, w.sems, x);
      CedesTurn(v, e, t, w.now);
    }
  }

  // ----- runs -----

  /** Views, the events between them, and what each did to the ports and the semaphores. */
  ghost predicate KernelRun(views: seq<View>, events: seq<Event>, mail: seq<P.Change>, locks: seq<S.Change>) {
    && |mail| == |locks| == |events| && |views| == |events| + 1
    && (forall i {:trigger views[i]} :: 0 <= i < |views| ==> Sound(views[i]))
    && forall i {:trigger events[i]} :: 0 <= i < |events| ==>
         Performs(views[i], events[i], mail[i], locks[i], views[i + 1])
  }

  lemma RunGrows(views: seq<View>, events: seq<Event>, mail: seq<P.Change>, locks: seq<S.Change>, e: Event,
                 c: P.Change, d: S.Change, w: View)
    requires KernelRun(views, events, mail, locks) && Performs(views[|events|], e, c, d, w) && Sound(w)
    ensures KernelRun(views + [w], events + [e], mail + [c], locks + [d])
  {
    hide Performs, Sound;
    var views', events', mail', locks' := views + [w], events + [e], mail + [c], locks + [d];
    forall i {:trigger events'[i]} | 0 <= i < |events'|
      ensures Performs(views'[i], events'[i], mail'[i], locks'[i], views'[i + 1])
    {
      if i < |events| { assert events'[i] == events[i]; }
    }
  }

  lemma RunEmpty(v: View)
    requires Sound(v)
    ensures KernelRun([v], [], [], [])
  {
  }

  lemma RunLengths(views: seq<View>, events: seq<Event>, mail: seq<P.Change>, locks: seq<S.Change>)
    requires KernelRun(views, events, mail, locks)
    ensures |mail| == |locks| == |events| && |views| == |events| + 1
  {
    hide Performs, Sound;
  }

  lemma RunStep(views: seq<View>, events: seq<Event>, mail: seq<P.Change>, locks: seq<S.Change>, i: int)
    requires KernelRun(views, events, mail, locks) && 0 <= i < |events|
    ensures Performs(views[i], events[i], mail[i], locks[i], views[i + 1])
    ensures Sound(views[i]) && Sound(views[i + 1])
  {
    hide Performs, Sound;
  }

  ghost function PortsOf(views: seq<View>): (r: seq<P.PortState>)
    ensures |r| == |views|
  { seq(|views|, i requires 0 <= i < |views| => views[i].ports) }

  ghost function SemsOf(views: seq<View>): (r: seq<S.SemState>)
    ensures |r| == |views|
  { seq(|views|, i requires 0 <= i < |views| => views[i].sems) }

  lemma RunParts(views: seq<View>, events: seq<Event>, mail: seq<P.Change>, locks: seq<S.Change>)
    requires KernelRun(views, events, mail, locks)
    ensures P.PortRun(PortsOf(views), mail) && S.SemRun(SemsOf(views), locks)
  {
    hide Performs, Sound, P.Steps, S.Follows;
    forall i | 0 <= i < |events|
      ensures P.Steps(views[i].ports, mail[i], views[i + 1].ports)
        && S.Follows(views[i].sems, locks[i], views[i + 1].sems)
    {
      RunStep(views, events, mail, locks, i);
      StepParts(views[i], events[i], mail[i], locks[i], views[i + 1]);
    }
  }

  lemma StepParts(v: View, e: Event, c: P.Change, d: S.Change, w: View)
    requires Performs(v, e, c, d, w)
    ensures P.Steps(v.ports, c, w.ports) && S.Follows(v.sems, d, w.sems) && TasksAfter(v, e, w.now)
  {
    hide P.Steps, S.Follows, TasksAfter;
  }

  // ----- what holds over a run: ports and semaphores -----

  /** Each live port has delivered what was sent to it in the order of sending, less what still waits on it. */
  ghost predicate MailInOrder(start: P.PortState, log: seq<P.Change>, now: P.PortState) {
    forall p {:trigger P.SentTo(start, log, p)} :: p in now.ports ==>
      P.SentTo(start, log, p) == P.GotFrom(log, p) + P.Queue(now, p)
  }

  /** Each live port counts one, its slaves, and its slaves that have gone. */
  ghost predicate CountsExplained(start: P.PortState, log: seq<P.Change>, now: P.PortState) {
    forall q {:trigger P.Forgotten(start, log, q)} :: q in now.ports && IdOf(now.ids, q) != 0 ==>
      now.ports[q].refcount == 1 + |P.Slaves(now.ports, IdOf(now.ids, q))| + P.Forgotten(start, log, q)
  }

  /** A port that counts slaves it does not have stays for ever. */
  ghost predicate ExcessLasts(start: P.PortState, now: P.PortState) {
    forall q {:trigger P.Excess(start, q)} :: q in start.ports && IdOf(start.ids, q) != 0 && P.Excess(start, q) > 0 ==>
      q in now.ports && IdOf(now.ids, q) == IdOf(start.ids, q) && P.Excess(now, q) >= P.Excess(start, q)
  }

  /** The tasks that joined a semaphore were woken in the order of joining, less those that still wait. */
  ghost predicate WokenInTurn(start: S.SemState, log: seq<S.Change>, now: S.SemState) {
    forall x {:trigger S.JoinedTo(start, log, x)} :: x in now.sems ==>
      S.JoinedTo(start, log, x) == S.WokenFrom(log, x) + S.Waiters(now, x)
  }

  /** A semaphore made with the count n has let n more acquires through than there were releases, less what its count
      and its queue show. If n is not negative, the queue is as long as the count is below zero, and so no more than n
      got through that no release paid for. */
  ghost predicate Balanced(start: S.SemState, log: seq<S.Change>, now: S.SemState) {
    forall x {:trigger Balances(start, log, now, x)} :: x in now.sems ==> Balances(start, log, now, x)
  }

  ghost predicate Balances(start: S.SemState, log: seq<S.Change>, now: S.SemState, x: int) {
    var n, count := S.Initial(start, log, x), S.CountOf(now, x);
    var through := S.Acquires(start, log, x) - S.ReleasesOf(start, log, x);
    && through == n - count - |S.Waiters(now, x)|
    && (n >= 0 ==> |S.Waiters(now, x)| == (if count < 0 then -count else 0) && through <= n)
  }

  /** The current task of v may say that it sends this mail: it has the number of the sender, and it or a task with the
      same parent owns the port that the mail says it comes from. */
  ghost predicate Signs(v: View, x: P.Mail) {
    var f, tasks, cur := NamedAs(v.names, RSRC_PORT, x.fromPort), v.now.tasks, v.now.current;
    var o := P.GetPort(v.ports.ports, f).owner;
    && f != 0 && (o == cur || Get(tasks, o).parent == Get(tasks, cur).parent) && x.pid == Get(tasks, cur).tid
    && NamedAs(v.names, RSRC_PORT, x.toPort) != 0
  }

  /** All that was received from a live port or waits on it, and did not wait there at first, was sent by a task that
      may say so. */
  ghost predicate Signed(views: seq<View>, mail: seq<P.Change>)
    requires |views| == |mail| + 1
  {
    forall p, x {:trigger Came(mail, views[|mail|].ports, p, x)} ::
      Came(mail, views[|mail|].ports, p, x) ==> x in P.Queue(views[0].ports, p) || SignedSend(views, mail, p, x)
  }

  ghost predicate Came(mail: seq<P.Change>, now: P.PortState, p: int, x: P.Mail) {
    p in now.ports && (x in P.GotFrom(mail, p) || x in P.Queue(now, p))
  }

  ghost predicate SignedSend(views: seq<View>, mail: seq<P.Change>, p: int, x: P.Mail)
    requires |views| == |mail| + 1
  { exists i {:trigger mail[i]} :: 0 <= i < |mail| && mail[i] == P.Put(p, x) && Signs(views[i], x) }

  lemma PutSigned(v: View, e: Event, p: int, x: P.Mail)
    requires Does(v, e, P.Put(p, x))
    ensures Signs(v, x)
  {
    hide Refusal, Target, NamedAs, P.MasterOf, P.Queue;
    RefusalMeans(v.names, v.ports.ports, v.now.tasks, v.now.current, e.src, e.dst, e.size);
  }

  lemma RunSigned(views: seq<View>, events: seq<Event>, mail: seq<P.Change>, locks: seq<S.Change>)
    requires KernelRun(views, events, mail, locks)
    ensures |views| == |mail| + 1 && Signed(views, mail)
  {
    hide KernelRun, Performs, Sound, Signs, P.Queue, P.GotFrom, P.SentTo, P.PortRun, Does;
    RunLengths(views, events, mail, locks);
    RunParts(views, events, mail, locks);
    forall p, x {:trigger Came(mail, views[|mail|].ports, p, x)} | Came(mail, views[|mail|].ports, p, x)
      ensures x in P.Queue(views[0].ports, p) || SignedSend(views, mail, p, x)
    {
      P.ReceivedInOrder(PortsOf(views), mail, p);
      P.SentFrom(views[0].ports, mail, p, x);
      if x !in P.Queue(views[0].ports, p) {
        var i {:trigger mail[i]} :| 0 <= i < |mail| && mail[i] == P.Put(p, x);
        RunStep(views, events, mail, locks, i);
        StepDoes(views[i], events[i], mail[i], locks[i], views[i + 1]);
        PutSigned(views[i], events[i], p, x);
      }
    }
  }

  lemma StepDoes(v: View, e: Event, c: P.Change, d: S.Change, w: View)
    requires Performs(v, e, c, d, w)
    ensures Does(v, e, c)
  {
    hide Does, PortsAfter, TasksAfter;
  }

  lemma PortFacts(states: seq<P.PortState>, log: seq<P.Change>)
    requires P.PortRun(states, log)
    ensures MailInOrder(states[0], log, states[|log|]) && CountsExplained(states[0], log, states[|log|])
    ensures ExcessLasts(states[0], states[|log|])
    ensures P.Spares(states, log) && states[0].lost == {} ==> states[|log|].lost == {}
  {
    hide P.PortRun, P.Slaves, P.Queue, P.Spares, P.Excess;
    PortRunLength(states, log);
    forall p {:trigger P.SentTo(states[0], log, p)} | p in states[|log|].ports
      ensures P.SentTo(states[0], log, p) == P.GotFrom(log, p) + P.Queue(states[|log|], p)
    {
      P.ReceivedInOrder(states, log, p);
    }
    var now := states[|log|];
    forall q {:trigger P.Forgotten(states[0], log, q)} | q in now.ports && IdOf(now.ids, q) != 0
      ensures now.ports[q].refcount == 1 + |P.Slaves(now.ports, IdOf(now.ids, q))| + P.Forgotten(states[0], log, q)
    {
      P.CountOverRun(states, log, q);
    }
    forall q {:trigger P.Excess(states[0], q)}
      | q in states[0].ports && IdOf(states[0].ids, q) != 0 && P.Excess(states[0], q) > 0
      ensures q in now.ports && IdOf(now.ids, q) == IdOf(states[0].ids, q) && P.Excess(now, q) >= P.Excess(states[0], q)
    {
      P.ExcessStays(states, log, q);
    }
    if P.Spares(states, log) && states[0].lost == {} { P.NothingLost(states, log); }
  }

  lemma PortRunLength(states: seq<P.PortState>, log: seq<P.Change>)
    requires P.PortRun(states, log)
    ensures |states| == |log| + 1
  {
  }

  lemma SemFacts(states: seq<S.SemState>, log: seq<S.Change>, B: map<int, Binding>, tasks: map<int, Task>)
    requires S.SemRun(states, log) && S.SemsOk(B, states[|log|], tasks)
    ensures WokenInTurn(states[0], log, states[|log|]) && Balanced(states[0], log, states[|log|])
  {
    hide S.SemRun, S.SemsOk, S.Waiters, S.JoinedTo, S.WokenFrom, S.Initial, S.Acquires, S.ReleasesOf;
    S.LastIs(states, log);
    var now := states[|log|];
    forall x {:trigger S.JoinedTo(states[0], log, x)} | x in now.sems
      ensures S.JoinedTo(states[0], log, x) == S.WokenFrom(log, x) + S.Waiters(now, x)
    {
      S.WokenInOrder(states, log, x);
    }
    forall x {:trigger Balances(states[0], log, now, x)} | x in now.sems ensures Balances(states[0], log, now, x) {
      S.BalanceOverRun(states, log, x, B, tasks);
    }
  }

  // ----- what holds over a run: tasks -----

  /** The scheduler's states: each view's, and between two views the one in which the changes are made. */
  ghost function TraceOf(views: seq<View>, events: seq<Event>): (r: seq<Sched>)
    requires |views| == |events| + 1
    ensures |r| == 2 * |events| + 1
  {
    seq(2 * |events| + 1, j requires 0 <= j < 2 * |events| + 1 =>
      if j % 2 == 0 then views[j / 2].now else Middle(views[j / 2], events[j / 2], views[j / 2 + 1].now))
  }

  lemma TraceAt(views: seq<View>, events: seq<Event>, i: int)
    requires |views| == |events| + 1 && 0 <= i < |views|
    ensures TraceOf(views, events)[2 * i] == views[i].now
    ensures i < |events| ==> TraceOf(views, events)[2 * i + 1] == Middle(views[i], events[i], views[i + 1].now)
  {
    assert (2 * i) / 2 == i && (2 * i) % 2 == 0 && (2 * i + 1) / 2 == i && (2 * i + 1) % 2 == 1;
  }

  /** The two halves of a step. */
  lemma Halves(v: View, e: Event, r: Sched)
    requires Ok(v.now) && Ok(r) && TasksAfter(v, e, r)
    ensures var m := Middle(v, e, r);
      && Mid(v.now) && Mid(m) && Mid(r) && Calm(v.now, m) && (InTurn(m, r) || Cuts(m, r))
      && (!TurnOf(v, e).Cede? ==> InTurn(m, r)) && (TurnOf(v, e).Yield? ==> Switched(m, r))
  {
    hide TurnOf, Mid, Calm, Switched, Preempted;
    OkMid(v.now);
    OkMid(r);
    CalmSame(r);
  }

  lemma RunHalves(views: seq<View>, events: seq<Event>, mail: seq<P.Change>, locks: seq<S.Change>, i: int)
    requires KernelRun(views, events, mail, locks) && 0 <= i < |events|
    ensures var s, m, r := views[i].now, Middle(views[i], events[i], views[i + 1].now), views[i + 1].now;
      && Mid(s) && Mid(m) && Mid(r) && Calm(s, m) && (InTurn(m, r) || Cuts(m, r))
      && (!TurnOf(views[i], events[i]).Cede? ==> InTurn(m, r))
      && (TurnOf(views[i], events[i]).Yield? ==> Switched(m, r))
  {
    hide KernelRun, Performs, TasksAfter, TurnOf, Ok, Mid, Calm, InTurn, Cuts, Switched, Middle;
    RunLengths(views, events, mail, locks);
    RunStep(views, events, mail, locks, i);
    SoundOk(views[i]);
    SoundOk(views[i + 1]);
    StepParts(views[i], events[i], mail[i], locks[i], views[i + 1]);
    Halves(views[i], events[i], views[i + 1].now);
  }

  lemma SoundOk(v: View)
    requires Sound(v)
    ensures Ok(v.now) && S.SemsOk(v.names, v.sems, v.now.tasks)
  {
  }

  lemma TraceRuns(views: seq<View>, events: seq<Event>, mail: seq<P.Change>, locks: seq<S.Change>)
    requires KernelRun(views, events, mail, locks)
    ensures Run(TraceOf(views, events))
  {
    hide KernelRun, Mid, Calm, InTurn, Cuts, Middle, TurnOf, TraceOf;
    RunLengths(views, events, mail, locks);
    var trace := TraceOf(views, events);
    TraceAt(views, events, 0);
    assert Mid(trace[0]) by { RunStarts(views, events, mail, locks); }
    forall k {:trigger Next(trace, k)} | 0 <= k < |trace| - 1 ensures Next(trace, k) {
      var i := k / 2;
      RunHalves(views, events, mail, locks, i);
      TraceAt(views, events, i);
      TraceAt(views, events, i + 1);
      assert k == 2 * i || k == 2 * i + 1;
      CalmInTurn(trace, i);
    }
  }

  lemma CalmInTurn(trace: seq<Sched>, i: int)
    requires 0 <= 2 * i < |trace| - 1
    ensures Calm(trace[2 * i], trace[2 * i + 1]) ==> InTurn(trace[2 * i], trace[2 * i + 1])
  {
    hide Calm, Switched;
  }

  lemma RunStarts(views: seq<View>, events: seq<Event>, mail: seq<P.Change>, locks: seq<S.Change>)
    requires KernelRun(views, events, mail, locks)
    ensures Mid(views[0].now) && Sound(views[|events|])
  {
    hide Performs;
    hide P.PortsOk, S.SemsOk, OwnersOk, ReceiversOk, Mid;
    assert Sound(views[0]);
    OkMid(views[0].now);
  }

  /** How many of the events from i up to k are ticks of the timer. */
  function Ticks(events: seq<Event>, i: int, k: int): (n: nat)
    requires 0 <= i <= k <= |events|
  { if i == k then 0 else Ticks(events, i, k - 1) + if events[k - 1].Timer? then 1 else 0 }

  /** A tick is a switch. */
  lemma TickSwitches(views: seq<View>, events: seq<Event>, mail: seq<P.Change>, locks: seq<S.Change>, i: int)
    requires KernelRun(views, events, mail, locks) && 0 <= i < |events|
    ensures |views| == |events| + 1
    ensures var trace := TraceOf(views, events);
      Switches(trace, 2 * (i + 1)) >= Switches(trace, 2 * i) + if events[i].Timer? then 1 else 0
  {
    hide KernelRun, Mid, Calm, InTurn, Cuts, Middle, Switched, TraceOf;
    RunLengths(views, events, mail, locks);
    RunHalves(views, events, mail, locks, i);
    TraceAt(views, events, i);
    TraceAt(views, events, i + 1);
    SwitchesGrow(TraceOf(views, events), 2 * i);
  }

  lemma SwitchesGrow(trace: seq<Sched>, j: int)
    requires 0 <= j && j + 2 < |trace|
    ensures Switches(trace, j + 2) >= Switches(trace, j) + if Switched(trace[j + 1], trace[j + 2]) then 1 else 0
  {
    hide Switched;
    assert Switches(trace, j + 1) >= Switches(trace, j);
  }

  /** From view i to view k there are at least as many switches as ticks. */
  lemma {:induction false} TicksSwitch(views: seq<View>, events: seq<Event>, mail: seq<P.Change>,
                                       locks: seq<S.Change>, i: int, k: int)
    requires KernelRun(views, events, mail, locks) && 0 <= i <= k <= |events|
    ensures |views| == |events| + 1
    ensures var trace := TraceOf(views, events);
      Switches(trace, 2 * k) - Switches(trace, 2 * i) >= Ticks(events, i, k)
    decreases k
  {
    hide KernelRun, Mid, Calm, InTurn, Cuts, Middle, Switched, TraceOf, Switches;
    RunLengths(views, events, mail, locks);
    if i < k {
      TicksSwitch(views, events, mail, locks, i, k - 1);
      TickSwitches(views, events, mail, locks, k - 1);
    }
  }

  /** None of the events from i up to k preempts a task. */
  ghost predicate NoneCedes(views: seq<View>, events: seq<Event>, i: int, k: int)
    requires 0 <= i <= k <= |events| && |views| == |events| + 1
  { forall j {:trigger events[j]} :: i <= j < k ==> !TurnOf(views[j], events[j]).Cede? }

  ghost predicate RunsAfter(views: seq<View>, t: int, i: int, k: int)
    requires 0 <= i <= k < |views|
  { exists j :: i < j <= k && views[j].now.current == t }

  /** A task that is ready at view i runs by view k, if there are MaxProc ticks and no preemptions in between. */
  lemma ReadyBeforeTicks(views: seq<View>, events: seq<Event>, mail: seq<P.Change>, locks: seq<S.Change>, t: int,
                         i: int, k: int)
    requires KernelRun(views, events, mail, locks) && 0 <= i <= k <= |events| && |views| == |events| + 1
    requires Waits(views[i].now, t) && NoneCedes(views, events, i, k) && Ticks(events, i, k) >= MAX_PROC
    ensures RunsAfter(views, t, i, k)
  {
    hide KernelRun, Mid, Calm, Cuts, Middle, Switched, TraceOf, TurnOf, Waits, Run, Switches, Ticks;
    var trace := TraceOf(views, events);
    TraceRuns(views, events, mail, locks);
    TicksSwitch(views, events, mail, locks, i, k);
    forall j {:trigger trace[j]} | 2 * i <= j < 2 * k ensures InTurn(trace[j], trace[j + 1]) {
      TraceInTurn(views, events, mail, locks, i, k, j);
    }
    TraceAt(views, events, i);
    ReadyTaskRuns(trace, t, 2 * i, 2 * k);
    var j :| 2 * i < j <= 2 * k && trace[j].current == t;
    CurrentAt(views, events, mail, locks, j);
    assert j / 2 > i by {
      if j / 2 <= i { NotCurrent(views[i].now, t); }
    }
    assert views[j / 2].now.current == t;
  }

  lemma NotCurrent(s: Sched, t: int)
    requires Waits(s, t)
    ensures s.current != t
  {
  }

  lemma TraceInTurn(views: seq<View>, events: seq<Event>, mail: seq<P.Change>, locks: seq<S.Change>, i: int, k: int,
                    j: int)
    requires KernelRun(views, events, mail, locks) && 0 <= i <= k <= |events| && |views| == |events| + 1
    requires NoneCedes(views, events, i, k) && 2 * i <= j < 2 * k
    ensures InTurn(TraceOf(views, events)[j], TraceOf(views, events)[j + 1])
  {
    hide KernelRun, Mid, Calm, Cuts, Middle, Switched, TraceOf, TurnOf;
    var b := j / 2;
    assert !TurnOf(views[b], events[b]).Cede?;
    RunHalves(views, events, mail, locks, b);
    TraceAt(views, events, b);
    TraceAt(views, events, b + 1);
    assert j == 2 * b || j == 2 * b + 1;
  }

  /** Within a step the current task is that of the view before. */
  lemma CurrentAt(views: seq<View>, events: seq<Event>, mail: seq<P.Change>, locks: seq<S.Change>, j: int)
    requires KernelRun(views, events, mail, locks) && |views| == |events| + 1 && 0 <= j <= 2 * |events|
    ensures 0 <= j / 2 < |views| && TraceOf(views, events)[j].current == views[j / 2].now.current
  {
    hide KernelRun, Mid, Cuts, Middle, Switched, TraceOf, TurnOf, InTurn;
    var b := j / 2;
    TraceAt(views, events, b);
    if j == 2 * b + 1 { RunHalves(views, events, mail, locks, b); }
  }

  ghost predicate StaysOnTimer(views: seq<View>, t: int, i: int, k: int)
    requires 0 <= i <= k < |views|
  { forall j {:trigger OnTimer(views[j].now, t)} :: i <= j <= k ==> OnTimer(views[j].now, t) }

  /** A task that is on the timer from view i to view k has been there for less than 101 ticks. */
  lemma AwakeBeforeTicks(views: seq<View>, events: seq<Event>, mail: seq<P.Change>, locks: seq<S.Change>, t: int,
                         i: int, k: int)
    requires KernelRun(views, events, mail, locks) && 0 <= i <= k <= |events| && |views| == |events| + 1
    requires StaysOnTimer(views, t, i, k)
    ensures Ticks(events, i, k) < 101
  {
    hide KernelRun, Mid, Calm, Cuts, InTurn, Middle, Switched, TraceOf, TurnOf, Run, Switches, Ticks, OnTimer;
    var trace := TraceOf(views, events);
    TraceRuns(views, events, mail, locks);
    TicksSwitch(views, events, mail, locks, i, k);
    forall j {:trigger OnTimer(trace[j], t)} | 2 * i <= j <= 2 * k ensures OnTimer(trace[j], t) {
      TraceOnTimer(views, events, mail, locks, t, i, k, j);
    }
    TimerSleeperWakes(trace, t, 2 * i, 2 * k);
  }

  lemma StepOnTimer(views: seq<View>, events: seq<Event>, mail: seq<P.Change>, locks: seq<S.Change>, t: int, b: int)
    requires KernelRun(views, events, mail, locks) && 0 <= b < |events| && |views| == |events| + 1
    requires OnTimer(views[b].now, t) && OnTimer(views[b + 1].now, t)
    ensures OnTimer(Middle(views[b], events[b], views[b + 1].now), t)
  {
    hide KernelRun, Performs, TasksAfter, Middle, OnTimer, Ok, Sound;
    RunLengths(views, events, mail, locks);
    RunStep(views, events, mail, locks, b);
    SoundOk(views[b]);
    StepParts(views[b], events[b], mail[b], locks[b], views[b + 1]);
    MiddleOnTimer(views[b], events[b], views[b + 1].now, t);
  }

  lemma TraceOnTimer(views: seq<View>, events: seq<Event>, mail: seq<P.Change>, locks: seq<S.Change>, t: int, i: int,
                     k: int, j: int)
    requires KernelRun(views, events, mail, locks) && 0 <= i <= k <= |events| && |views| == |events| + 1
    requires StaysOnTimer(views, t, i, k) && 2 * i <= j <= 2 * k
    ensures OnTimer(TraceOf(views, events)[j], t)
  {
    hide KernelRun, Performs, TasksAfter, Mid, Calm, Cuts, InTurn, Middle, Switched, TraceOf, TurnOf, OnTimer, Ok;
    var b := j / 2;
    TraceAt(views, events, b);
    assert OnTimer(views[b].now, t);
    if j == 2 * b + 1 {
      assert OnTimer(views[b + 1].now, t);
      StepOnTimer(views, events, mail, locks, t, b);
    }
  }

  /** A task on the timer before and after a step is there in between. */
  lemma MiddleOnTimer(v: View, e: Event, r: Sched, t: int)
    requires Ok(v.now) && TasksAfter(v, e, r) && OnTimer(v.now, t) && OnTimer(r, t)
    ensures OnTimer(Middle(v, e, r), t)
  {
    hide Mid, Calm, Switched, Source, WokenBy, Refusal, Target, P.Queue, S.Waiters;
    OkMid(v.now);
    assert t != v.now.current;
  }

  /** No event but the 101st switch touches a task on the timer. */
  lemma MiddleAsleep(v: View, e: Event, r: Sched, t: int)
    requires Sound(v) && TasksAfter(v, e, r) && OnTimer(v.now, t)
    ensures OnTimer(Middle(v, e, r), t) && Middle(v, e, r).timer == v.now.timer && Mid(Middle(v, e, r))
  {
    hide Mid, Switched, Preempted, Source, WokenBy, Refusal, Target, P.Queue, S.Waiters, NamedAs, S.SemsOk, P.PortsOk,
      IdsOk, OwnersOk, ReceiversOk;
    OkMid(v.now);
    assert t != v.now.current;
    match e {
      case DoPortSend(src, dst, size, data) =>
        OwnerWoken(v.ports.ports, v.now, Target(v.names, v.ports.ports, dst), dst);
        PortSleeper(v.ports.ports, v.now.tasks, Target(v.names, v.ports.ports, dst), dst, t);
      case DoSemRelease(id) =>
        var x := NamedAs(v.names, RSRC_SEM, id);
        if x != 0 && |S.Waiters(v.sems, x)| > 0 { WaiterSleeps(v.names, v.sems, v.now.tasks, id); }
      case _ =>
    }
  }

  lemma PortSleeper(ports: map<int, P.Port>, tasks: map<int, Task>, p: int, dst: int, t: int)
    requires t in tasks && tasks[t].state == SleepTimer
    ensures t in WokenBy(ports, tasks, p, dst) && WokenBy(ports, tasks, p, dst)[t] == tasks[t]
  {
  }

  lemma WaiterSleeps(B: map<int, Binding>, s: S.SemState, tasks: map<int, Task>, id: int)
    requires S.SemsOk(B, s, tasks) && NamedAs(B, RSRC_SEM, id) != 0 && |S.Waiters(s, NamedAs(B, RSRC_SEM, id))| > 0
    ensures var t := S.Waiters(s, NamedAs(B, RSRC_SEM, id))[0]; t in tasks && tasks[t].state == SleepSem
  {
    hide S.SemsOk, NamedAs, S.SemOk, S.Counted;
    SemFound(B, s, tasks, id);
    S.SameLength(s, NamedAs(B, RSRC_SEM, id));
    S.FirstWaiter(B, s, tasks, NamedAs(B, RSRC_SEM, id));
  }

  lemma StepAsleep(v: View, e: Event, r: Sched, t: int)
    requires Sound(v) && TasksAfter(v, e, r) && OnTimer(v.now, t)
    ensures !TurnOf(v, e).Yield? ==> OnTimer(r, t) && r.timer == v.now.timer
    ensures TurnOf(v, e).Yield? && v.now.timer < 100 ==> OnTimer(r, t) && r.timer == v.now.timer + 1
  {
    hide Sound, TurnOf, Mid, Switched, Calm;
    MiddleAsleep(v, e, r, t);
    var m := Middle(v, e, r);
    match TurnOf(v, e) {
      case Keep(_) =>
      case Yield(_) => TimerRunsOut(m, r, t);
      case Cede(_, u) =>
        CedesToReady(v, e);
        CedeAsleep(m, r, u, t);
      case Add =>
    }
  }

  lemma CedesToReady(v: View, e: Event)
    requires TurnOf(v, e).Cede?
    ensures !OnTimer(TurnOf(v, e).m, TurnOf(v, e).t)
  {
    hide Source, WokenBy, Refusal, Target, P.Queue, S.Waiters, NamedAs;
  }

  lemma CedeAsleep(s: Sched, r: Sched, u: int, t: int)
    requires Mid(s) && Preempted(s, r, u) && OnTimer(s, t)
    ensures t != u ==> OnTimer(r, t)
    ensures r.timer == s.timer
  {
    hide Mid, Preempted;
    PreemptMeans(s, r, u);
    assert t in s.tasks;
  }

  /** How many of the events from i up to k end in a switch. */
  ghost function Yields(views: seq<View>, events: seq<Event>, i: int, k: int): (n: nat)
    requires 0 <= i <= k <= |events| && |views| == |events| + 1
  {
    if i == k then 0
    else Yields(views, events, i, k - 1) + if TurnOf(views[k - 1], events[k - 1]).Yield? then 1 else 0
  }

  /** Nobody wakes from the timer before it has run out. */
  lemma {:induction false} AsleepUntil(views: seq<View>, events: seq<Event>, mail: seq<P.Change>, locks: seq<S.Change>,
                                       t: int, i: int, k: int)
    requires KernelRun(views, events, mail, locks) && 0 <= i <= k <= |events| && |views| == |events| + 1
    requires OnTimer(views[i].now, t) && views[i].now.timer + Yields(views, events, i, k) <= 100
    ensures OnTimer(views[k].now, t) && views[k].now.timer == views[i].now.timer + Yields(views, events, i, k)
    decreases k
  {
    hide KernelRun, Performs, TasksAfter, TurnOf, OnTimer, Sound;
    if i < k {
      AsleepUntil(views, events, mail, locks, t, i, k - 1);
      RunLengths(views, events, mail, locks);
      RunStep(views, events, mail, locks, k - 1);
      StepParts(views[k - 1], events[k - 1], mail[k - 1], locks[k - 1], views[k]);
      StepAsleep(views[k - 1], events[k - 1], views[k].now, t);
    }
  }

  /** Every ready task runs before MAX_PROC ticks are over in which nothing is preempted. */
  ghost predicate TakeTurns(views: seq<View>, events: seq<Event>)
    requires |views| == |events| + 1
  {
    forall t, i, k {:trigger Waits(views[i].now, t), NoneCedes(views, events, i, k)} ::
      (0 <= i <= k <= |events| && Waits(views[i].now, t) && NoneCedes(views, events, i, k)
       && Ticks(events, i, k) >= MAX_PROC) ==> RunsAfter(views, t, i, k)
  }

  /** Every task on the timer wakes before 101 ticks are over. */
  ghost predicate SleepersWake(views: seq<View>, events: seq<Event>)
    requires |views| == |events| + 1
  {
    forall t, i, k {:trigger StaysOnTimer(views, t, i, k)} ::
      0 <= i <= k <= |events| && StaysOnTimer(views, t, i, k) ==> Ticks(events, i, k) < 101
  }

  /** Nobody wakes from the timer before as many switches as the countdown still takes. */
  ghost predicate SleepersStay(views: seq<View>, events: seq<Event>)
    requires |views| == |events| + 1
  {
    forall t, i, k {:trigger OnTimer(views[i].now, t), Yields(views, events, i, k)} ::
      (0 <= i <= k <= |events| && OnTimer(views[i].now, t)
       && views[i].now.timer + Yields(views, events, i, k) <= 100) ==> OnTimer(views[k].now, t)
  }

  lemma TaskFacts(views: seq<View>, events: seq<Event>, mail: seq<P.Change>, locks: seq<S.Change>)
    requires KernelRun(views, events, mail, locks)
    ensures |views| == |events| + 1 && TakeTurns(views, events) && SleepersWake(views, events)
    ensures SleepersStay(views, events)
  {
    hide KernelRun, Waits, NoneCedes, Ticks, RunsAfter, StaysOnTimer, OnTimer, Yields;
    RunLengths(views, events, mail, locks);
    forall t, i, k {:trigger Waits(views[i].now, t), NoneCedes(views, events, i, k)}
      | 0 <= i <= k <= |events| && Waits(views[i].now, t) && NoneCedes(views, events, i, k)
        && Ticks(events, i, k) >= MAX_PROC
      ensures RunsAfter(views, t, i, k)
    {
      ReadyBeforeTicks(views, events, mail, locks, t, i, k);
    }
    forall t, i, k {:trigger StaysOnTimer(views, t, i, k)} | 0 <= i <= k <= |events| && StaysOnTimer(views, t, i, k)
      ensures Ticks(events, i, k) < 101
    {
      AwakeBeforeTicks(views, events, mail, locks, t, i, k);
    }
    forall t, i, k {:trigger OnTimer(views[i].now, t), Yields(views, events, i, k)}
      | 0 <= i <= k <= |events| && OnTimer(views[i].now, t)
        && views[i].now.timer + Yields(views, events, i, k) <= 100
      ensures OnTimer(views[k].now, t)
    {
      AsleepUntil(views, events, mail, locks, t, i, k);
    }
  }

  /** What a run promises, by its first and last views and what each event did. */
  ghost predicate Promises(views: seq<View>, events: seq<Event>, mail: seq<P.Change>, locks: seq<S.Change>)
    requires |views| == |events| + 1 && |mail| == |events|
  {
    var v, w := views[0], views[|events|];
    && MailInOrder(v.ports, mail, w.ports) && CountsExplained(v.ports, mail, w.ports) && ExcessLasts(v.ports, w.ports)
    && WokenInTurn(v.sems, locks, w.sems) && Balanced(v.sems, locks, w.sems)
    && Signed(views, mail) && TakeTurns(views, events) && SleepersWake(views, events) && SleepersStay(views, events)
  }

  lemma RunPromises(views: seq<View>, events: seq<Event>, mail: seq<P.Change>, locks: seq<S.Change>)
    requires KernelRun(views, events, mail, locks)
    ensures |views| == |events| + 1 && |mail| == |events| && Promises(views, events, mail, locks)
    ensures P.Spares(PortsOf(views), mail) && views[0].ports.lost == {} ==> views[|events|].ports.lost == {}
  {
    hide KernelRun, P.PortRun, S.SemRun, P.Spares, MailInOrder, CountsExplained, ExcessLasts, WokenInTurn, Balanced,
      TakeTurns, SleepersWake, SleepersStay, Signed, S.SemsOk, Sound;
    RunLengths(views, events, mail, locks);
    RunParts(views, events, mail, locks);
    RunStarts(views, events, mail, locks);
    var w := views[|events|];
    SoundOk(w);
    PortFacts(PortsOf(views), mail);
    SemFacts(SemsOf(views), locks, w.names, w.now.tasks);
    RunSigned(views, events, mail, locks);
    TaskFacts(views, events, mail, locks);
  }
}
