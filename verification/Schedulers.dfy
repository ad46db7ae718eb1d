/** kernel/task.c, and the parts of kernel/syscall.c and kernel/int.c that only change task states. */
module Schedulers {
  import opened Resources
  import opened SchedulerStates

  ghost function Others(B: map<int, Binding>): map<int, Binding> {
    map id | id in B && B[id].kind != RSRC_TASK :: B[id]
  }

  /** A listed task owns its identifier, and an identifier of a task names a task that has not been buried. */
  ghost predicate IdsOk(B: map<int, Binding>, slots: seq<int>, tasks: map<int, Task>) {
    && 0 !in B
    && (forall t {:trigger Queued(slots, tasks, t)} :: Queued(slots, tasks, t) ==> OwnsId(B, tasks, t))
    && forall id {:trigger id in B} :: id in B && B[id].kind == RSRC_TASK ==> NamesTask(slots, tasks, id, B[id].data)
  }

  ghost predicate OwnsId(B: map<int, Binding>, tasks: map<int, Task>, t: int) {
    var id := Get(tasks, t).rid;
    id != 0 ==> id in B && B[id] == Binding(RSRC_TASK, t)
  }

  ghost predicate NamesTask(slots: seq<int>, tasks: map<int, Task>, id: int, t: int) {
    t in tasks && Get(tasks, t).rid == id && (Get(tasks, t).state == Dead ==> Queued(slots, tasks, t))
  }

  ghost predicate FirstEmpty(slots: seq<int>, i: int) {
    0 <= i < |slots| && Slot(slots, i) == 0 && forall k {:trigger Slot(slots, k)} :: 0 <= k < i ==> Slot(slots, k) != 0
  }

  class Scheduler {
    const rt: ResourceTable
    const taskList: array<int>
    const irqTaskMap: array<int>
    var tasks: map<int, Task>
    var current: int
    var currentNum: int
    var maxUsed: int
    var systemTimer: int

    ghost function Now(): Sched
      reads this, taskList
    { Sched(taskList[..], tasks, current, currentNum, maxUsed, systemTimer) }

    ghost predicate Valid()
      reads this, taskList, irqTaskMap, rt, rt.rmap
    {
      && rt.Valid() && taskList.Length == MAX_PROC && irqTaskMap.Length == 16 && taskList != irqTaskMap
      && Mid(Now()) && IdsOk(rt.Bound(), taskList[..], tasks)
      && forall n {:trigger irqTaskMap[n]} :: 0 <= n < 16 ==> irqTaskMap[n] == 0 || irqTaskMap[n] in tasks
    }

    /** kinit_task: the task list holds nothing but the idle task, which is ready and becomes current. */
    constructor (rt: ResourceTable, idle: int)
      requires rt.Valid() && rt.Bound() == map[] && idle != 0
      ensures Valid() && this.rt == rt && fresh(taskList) && fresh(irqTaskMap)
      ensures tasks == map[idle := Task(Ready, 0, 0, 0, 0, 0, 0)] && current == idle && currentNum == 0
        && systemTimer == 0
      ensures forall i {:trigger Slot(taskList[..], i)} :: Slot(taskList[..], i) == if i == 0 then idle else 0
    {
      var list, irqs := new int[MAX_PROC](_ => 0), new int[16](_ => 0);
      list[0] := idle;
      this.rt, taskList, irqTaskMap := rt, list, irqs;
      tasks := map[idle := Task(Ready, 0, 0, 0, 0, 0, 0)];
      current, currentNum, maxUsed, systemTimer := idle, 0, 0, 0;
      new;
      assert forall i {:trigger Slot(taskList[..], i)} :: Slot(taskList[..], i) == if i == 0 then idle else 0;
    }

    lemma CurrentListed()
      requires Valid()
      ensures current in tasks && current != 0 && (Ok(Now()) ==> tasks[current].state == Running)
    {
      hide IdsOk;
      MidParts(Now());
    }

    lemma NoZeroId()
      requires Valid()
      ensures 0 !in rt.Bound() && rt.Valid()
    {
      hide Mid;
    }

    lemma IdsHold()
      requires Valid()
      ensures IdsOk(rt.Bound(), taskList[..], tasks)
    {
      hide Mid, IdsOk;
    }

    lemma IrqMapLength()
      requires Valid()
      ensures irqTaskMap.Length == 16 && taskList != irqTaskMap
        && forall n {:trigger irqTaskMap[n]} :: 0 <= n < 16 ==> irqTaskMap[n] == 0 || irqTaskMap[n] in tasks
    {
      hide Mid, IdsOk;
    }

    lemma IsMid()
      requires Valid()
      ensures Mid(Now())
    {
      hide Mid, IdsOk;
    }

    /** PsRemoveTaskFromQueue */
    method RemoveTask(t: int) returns (found: bool)
      requires taskList.Length == MAX_PROC && SlotsOk(taskList[..], tasks, maxUsed) && t != 0
        && Slot(taskList[..], 0) != t
      modifies taskList, this`maxUsed
      ensures found <==> old(Queued(taskList[..], tasks, t))
      ensures found ==> taskList[..] == old(taskList[..])[Get(tasks, t).tid := 0]
      ensures !found ==> taskList[..] == old(taskList[..])
      ensures maxUsed == old(maxUsed) - (if found && Get(tasks, t).tid == old(maxUsed) then 1 else 0)
      ensures SlotsOk(taskList[..], tasks, maxUsed)
    {
      ghost var S := taskList[..];
      var i := 0;
      while i != MAX_PROC
        invariant 0 <= i <= MAX_PROC && taskList[..] == S && maxUsed == old(maxUsed)
        invariant forall k {:trigger Slot(S, k)} :: 0 <= k < i ==> Slot(S, k) != t
        decreases MAX_PROC - i
      {
        assert taskList[i] == Slot(S, i);
        if taskList[i] == t {
          assert Slot(S, i) == t;
          taskList[i] := 0;
          if i == maxUsed { maxUsed := maxUsed - 1; }
          assert taskList[..] == S[i := 0];
          ghost var S' := S[i := 0];
          assert forall k {:trigger Slot(S', k)} ::
            0 <= k < MAX_PROC ==> Slot(S', k) == if k == i then 0 else Slot(S, k);
          return true;
        }
        i := i + 1;
      }
      return false;
    }

    /** PsAddTaskToQueue */
    method AddTask(t: int) returns (added: bool)
      requires taskList.Length == MAX_PROC && SlotsOk(taskList[..], tasks, maxUsed) && t in tasks && t != 0
      requires !Queued(taskList[..], tasks, t)
      modifies taskList, this`maxUsed, this`tasks
      ensures added <==> exists i :: 0 <= i < MAX_PROC && Slot(old(taskList[..]), i) == 0
      ensures !added ==> taskList[..] == old(taskList[..]) && tasks == old(tasks) && maxUsed == old(maxUsed)
      ensures t in tasks && tasks == old(tasks)[t := old(tasks)[t].(tid := tasks[t].tid)]
      ensures added ==>
        FirstEmpty(old(taskList[..]), tasks[t].tid) && taskList[..] == old(taskList[..])[tasks[t].tid := t]
      ensures SlotsOk(taskList[..], tasks, maxUsed)
    {
      ghost var S := taskList[..];
      var i := 0;
      while i != MAX_PROC
        invariant 0 <= i <= MAX_PROC && taskList[..] == S && maxUsed == old(maxUsed) && tasks == old(tasks)
        invariant forall k {:trigger Slot(S, k)} :: 0 <= k < i ==> Slot(S, k) != 0
        decreases MAX_PROC - i
      {
        assert taskList[i] == Slot(S, i);
        if taskList[i] == 0 {
          taskList[i] := t;
          tasks := tasks[t := tasks[t].(tid := i)];
          if i > maxUsed { maxUsed := i; }
          assert taskList[..] == S[i := t];
          ghost var S' := S[i := t];
          assert forall k {:trigger Slot(S', k)} ::
            0 <= k < MAX_PROC ==> Slot(S', k) == if k == i then t else Slot(S, k);
          return true;
        }
        i := i + 1;
      }
      return false;
    }

    /** The scan at the head of PsSwitchTask, which skips empty slots. */
    method WakeSleepers()
      requires taskList.Length == MAX_PROC && SlotsOk(taskList[..], tasks, maxUsed)
        && TasksOk(taskList[..], tasks, current)
      modifies this`tasks
      ensures tasks.Keys == old(tasks.Keys)
      ensures forall t {:trigger Get(tasks, t)} :: t in tasks ==>
        Get(tasks, t) == var k := Get(old(tasks), t); if k.state == SleepTimer then k.(state := Ready, timer := 0)
          else k
    {
      ghost var S, before := taskList[..], tasks;
      var x := 0;
      while x < maxUsed + 1
        invariant 0 <= x <= maxUsed + 1 && tasks.Keys == before.Keys
        invariant forall t {:trigger Get(tasks, t)} :: t in before ==>
          Get(tasks, t) == var k := Get(before, t);
            if k.state == SleepTimer && k.tid < x then k.(state := Ready, timer := 0) else k
      {
        ghost var now := tasks;
        var t := taskList[x];
        assert t == Slot(S, x);
        if t != 0 {
          assert t in before && Get(before, t).tid == x;
          assert Get(tasks, t) == tasks[t];
          if tasks[t].state == SleepTimer {
            tasks := tasks[t := tasks[t].(state := Ready)];
            tasks := tasks[t := tasks[t].(timer := 0)];
          }
        }
        forall u {:trigger Get(tasks, u)} | u in before
          ensures Get(tasks, u) == var k := Get(before, u);
            if k.state == SleepTimer && k.tid < x + 1 then k.(state := Ready, timer := 0) else k
        {
          assert Get(now, u) == now[u];
          assert Get(before, u).state == SleepTimer ==> Queued(S, before, u);
        }
        x := x + 1;
      }
      forall u {:trigger Get(tasks, u)} | u in before
        ensures Get(before, u).state == SleepTimer ==> Get(before, u).tid <= maxUsed
      {
        if Get(before, u).state == SleepTimer {
          assert Queued(S, before, u);
        }
      }
    }

    /** PsCleanUpTask, as far as the task list and the resource table are concerned. */
    method CleanUpTask(t: int)
      requires rt.Valid() && taskList.Length == MAX_PROC && SlotsOk(taskList[..], tasks, maxUsed)
        && IdsOk(rt.Bound(), taskList[..], tasks)
      requires Queued(taskList[..], tasks, t) && tasks[t].state == Dead && Slot(taskList[..], 0) != t
      modifies taskList, this`maxUsed, rt, rt.rmap
      ensures taskList[..] == old(taskList[..])[tasks[t].tid := 0]
      ensures maxUsed == old(maxUsed) - (if tasks[t].tid == old(maxUsed) then 1 else 0)
      ensures tasks[t].rid !in rt.Bound() && Others(rt.Bound()) == old(Others(rt.Bound()))
      ensures rt.Valid() && SlotsOk(taskList[..], tasks, maxUsed) && IdsOk(rt.Bound(), taskList[..], tasks)
    {
      ghost var B, S := rt.Bound(), taskList[..];
      var removed := RemoveTask(t);
      rt.Delete(tasks[t].rid);
      IdReleased(B, S, tasks, t);
    }

    /** CurrentTask stops running unless it has gone to sleep or died. */
    method StopCurrent(ghost s: Sched, ghost stopped: bool)
      requires TasksAre(s, tasks, stopped) && current == s.current && current in tasks
        && IdsOk(rt.Bound(), taskList[..], tasks)
      modifies this`tasks
      ensures tasks.Keys == old(tasks.Keys) && TasksAre(s, tasks, true) && IdsOk(rt.Bound(), taskList[..], tasks)
    {
      hide TasksAre, IdsOk;
      ghost var before := tasks;
      if tasks[current].state == Running {
        tasks := tasks[current := tasks[current].(state := Ready)];
      }
      CurrentStops(s, before, stopped, tasks);
      IdsKept(rt.Bound(), taskList[..], before, tasks);
    }

    /** The head of PsSwitchTask: every 101st call wakes the timer sleepers. */
    method Tick()
      requires Valid()
      modifies this`tasks, this`systemTimer
      ensures systemTimer == if Wakes(old(Now())) then 0 else old(systemTimer) + 1
      ensures TasksAre(old(Now()), tasks, false) && tasks.Keys == old(tasks.Keys)
        && IdsOk(rt.Bound(), taskList[..], tasks)
    {
      hide Mid, TasksAre, IdsOk, SlotsOk, TasksOk;
      ghost var s := Now();
      MidParts(s);
      systemTimer := systemTimer + 1;
      if systemTimer > TICKS {
        systemTimer := 0;
        WakeSleepers();
      }
      Scanned(s, tasks);
    }

    /** One round of the search: go to the next slot, bury a dead task there, and stop if its task can run. */
    method Advance(ghost s: Sched, ghost d: int) returns (found: bool)
      requires Mid(s) && Searched(s, taskList[..], maxUsed, currentNum, d) && TasksAre(s, tasks, d > 0)
        && tasks.Keys == s.tasks.Keys
      requires IdsOk(rt.Bound(), taskList[..], tasks) && rt.Valid() && current == s.current
        && taskList.Length == MAX_PROC
      modifies taskList, this`tasks, this`currentNum, this`maxUsed, rt, rt.rmap
      ensures currentNum == Succ(old(currentNum)) && 0 <= currentNum < MAX_PROC
      ensures found ==>
        Searched(s, taskList[..], maxUsed, old(currentNum), d) && Runnable(s, currentNum)
          && Slot(taskList[..], currentNum) in tasks
      ensures !found ==> Searched(s, taskList[..], maxUsed, currentNum, d + 1)
      ensures TasksAre(s, tasks, true) && tasks.Keys == s.tasks.Keys
      ensures IdsOk(rt.Bound(), taskList[..], tasks) && Others(rt.Bound()) == old(Others(rt.Bound())) && rt.Valid()
    {
      hide Mid, Searched, TasksAre, IdsOk, Others, Runnable, DeadAt, SlotsOk;
      MidParts(s);
      ghost var S, m, at := taskList[..], maxUsed, currentNum;
      NextSlot(s, S, m, at, d);
      currentNum := if currentNum == MAX_PROC - 1 then 0 else currentNum + 1;
      StopCurrent(s, d > 0);
      SearchReads(s, S, tasks, m, at, d);
      var t := taskList[currentNum];
      assert t == Slot(S, currentNum);
      if t != 0 && (tasks[t].state == Ready || tasks[t].state == Kernel) {
        return true;
      }
      if t != 0 && tasks[t].state == Dead {
        CleanUpTask(t);
        taskList[currentNum] := 0;
        assert taskList[..] == S[currentNum := 0];
      }
      SearchGoesOn(s, S, m, at, d, taskList[..], maxUsed);
      return false;
    }

    /** The search, which stops at slot 0 at the latest. */
    method Search(ghost s: Sched) returns (ghost passed: int, ghost d: int)
      requires Mid(s) && taskList[..] == s.slots && maxUsed == s.maxUsed && currentNum == s.num && current == s.current
      requires TasksAre(s, tasks, false) && tasks.Keys == s.tasks.Keys && IdsOk(rt.Bound(), taskList[..], tasks)
        && rt.Valid()
      modifies taskList, this`tasks, this`currentNum, this`maxUsed, rt, rt.rmap
      ensures Searched(s, taskList[..], maxUsed, passed, d) && TasksAre(s, tasks, true) && tasks.Keys == s.tasks.Keys
      ensures 0 <= currentNum == Succ(passed) < MAX_PROC && Runnable(s, currentNum)
        && Slot(taskList[..], currentNum) in tasks
      ensures IdsOk(rt.Bound(), taskList[..], tasks) && Others(rt.Bound()) == old(Others(rt.Bound())) && rt.Valid()
    {
      hide Mid, Searched, TasksAre, IdsOk, Others, Runnable, SlotsOk, Queued, TasksOk, Slot, Succ, ResourceTable.Valid,
        ResourceTable.Bound;
      SearchStarts(s);
      MidParts(s);
      passed, d := currentNum, 0;
      var found := false;
      while !found
        invariant Searched(s, taskList[..], maxUsed, passed, d) && TasksAre(s, tasks, found || d > 0)
          && tasks.Keys == s.tasks.Keys
        invariant IdsOk(rt.Bound(), taskList[..], tasks) && Others(rt.Bound()) == old(Others(rt.Bound())) && rt.Valid()
        invariant if !found then currentNum == passed && d < MAX_PROC
                  else 0 <= currentNum == Succ(passed) < MAX_PROC && Runnable(s, currentNum)
                       && Slot(taskList[..], currentNum) in tasks
        decreases !found, MAX_PROC - d
      {
        found := Advance(s, d);
        if !found {
          passed, d := currentNum, d + 1;
          NextSlot(s, taskList[..], maxUsed, passed, d);
        }
      }
    }

    /** PsSwitchTask */
    method SwitchTask()
      requires Valid()
      modifies taskList, this`tasks, this`current, this`currentNum, this`maxUsed, this`systemTimer, rt, rt.rmap
      ensures Switched(old(Now()), Now()) && Others(rt.Bound()) == old(Others(rt.Bound()))
      // on every 101st tick the timer sleepers become ready; the task that ran stays ready, and the next one runs
      ensures systemTimer == if old(systemTimer) >= 100 then 0 else old(systemTimer) + 1
      ensures forall t {:trigger t in tasks} :: t in old(tasks) ==>
        && t in tasks && tasks[t].state ==
           (if t == current then Running
            else if old(tasks)[t].state == Running then Ready
            else if old(tasks)[t].state == SleepTimer && old(systemTimer) >= 100 then Ready
            else old(tasks)[t].state)
      ensures Ok(Now())
      ensures Valid()
    {
      hide Mid, Searched, TasksAre, IdsOk, Others, Switched, Runnable, SlotsOk, Queued;
      ghost var s := Now();
      Tick();
      ghost var passed, d := Search(s);
      ghost var before := tasks;
      current := taskList[currentNum];
      tasks := tasks[current := tasks[current].(state := Running)];
      SearchEnds(s, taskList[..], before, maxUsed, passed, d, Now());
      StaysListed(rt.Bound(), taskList[..], before, current, Running, tasks);
      SwitchMeans(s, Now());
    }

    /** The search of PsPreemptTask ends because t is listed. */
    method SeekTask(t: int)
      requires taskList.Length == MAX_PROC && SlotsOk(taskList[..], tasks, maxUsed) && Queued(taskList[..], tasks, t)
        && 0 <= currentNum < MAX_PROC
      modifies this`currentNum
      ensures currentNum == tasks[t].tid
    {
      ListedAt(Now(), t);
      ghost var goal := tasks[t].tid;
      currentNum := if currentNum == MAX_PROC - 1 then 0 else currentNum + 1;
      while taskList[currentNum] == 0 || taskList[currentNum] != t
        invariant 0 <= currentNum < MAX_PROC
        decreases if currentNum <= goal then goal - currentNum else goal - currentNum + MAX_PROC
      {
        assert taskList[goal] == Slot(taskList[..], goal);
        currentNum := if currentNum == MAX_PROC - 1 then 0 else currentNum + 1;
      }
      assert taskList[currentNum] == Slot(taskList[..], currentNum);
    }

    /** PsPreemptTask: the callers have just made t ready. */
    method PreemptTask(t: int)
      requires Valid() && Queued(taskList[..], tasks, t) && tasks[t].state == Ready
      modifies this`tasks, this`current, this`currentNum
      ensures Preempted(old(Now()), Now(), t)
      // t runs, the task that ran stays ready, and all others stay as they are
      ensures current == t && taskList[..] == old(taskList[..]) && systemTimer == old(systemTimer)
      ensures forall u {:trigger u in tasks} :: u in old(tasks) ==>
        u in tasks && tasks[u] == old(tasks)[u].(state := if u == t then Running
                                                          else if old(tasks)[u].state == Running then Ready
                                                          else old(tasks)[u].state)
      ensures Ok(Now())
      ensures Valid()
    {
      hide IdsOk, SlotsOk, TasksOk;
      ghost var s := Now();
      MidParts(s);
      SeekTask(t);
      if tasks[current].state == Running {
        tasks := tasks[current := tasks[current].(state := Ready)];
        StaysListed(rt.Bound(), taskList[..], s.tasks, current, Ready, tasks);
      }
      ghost var before := tasks;
      current := t;
      tasks := tasks[current := tasks[current].(state := Running)];
      StaysListed(rt.Bound(), taskList[..], before, t, Running, tasks);
      PreemptKeepsOk(s, Now(), t);
      PreemptMeans(s, Now(), t);
    }

    /** A change of one listed task that keeps its number and identifier. */
    method Change(t: int, k: Task)
      requires Valid() && t in tasks && k.rid == tasks[t].rid && (k.state == Dead ==> Queued(taskList[..], tasks, t))
      requires k.tid == tasks[t].tid && Mid(SetTask(Now(), t, k))
      modifies this`tasks
      ensures Now() == SetTask(old(Now()), t, k)
      ensures Valid()
    {
      hide IdsOk, Mid;
      ghost var before := tasks;
      tasks := tasks[t := k];
      IdsKept(rt.Bound(), taskList[..], before, tasks);
    }

    /** The assignments by which the current task goes to sleep; the idle task never does. */
    method Block(st: TaskState, on: int)
      requires Valid() && Sleeping(st) && currentNum != 0
      modifies this`tasks
      ensures current in old(tasks) && Now() == Asleep(old(Now()), st, on)
        && tasks == old(tasks)[current := old(tasks)[current].(sleepingOn := on, state := st)]
      ensures Calm(old(Now()), Now())
      ensures Valid()
    {
      hide Mid, Calm;
      MidParts(Now());
      CurrentChanges(Now(), tasks[current].(sleepingOn := on, state := st));
      Change(current, tasks[current].(sleepingOn := on, state := st));
    }

    /** A sleeping task becomes ready; nothing is switched. */
    method Wake(t: int)
      requires Valid() && t in tasks && Sleeping(tasks[t].state)
      modifies this`tasks
      ensures Now() == Readied(old(Now()), t) && tasks == old(tasks)[t := old(tasks)[t].(state := Ready)]
        && Calm(old(Now()), Now())
      ensures Queued(taskList[..], tasks, t) && tasks[t].state == Ready && (old(Ok(Now())) ==> Ok(Now()))
      ensures Valid()
    {
      hide Mid, Calm, Ok;
      SleeperWakes(Now(), t, tasks[t].(state := Ready));
      Change(t, tasks[t].(state := Ready));
    }

    /** The new task structure gets its fields and its identifier; junk is what the new task's page held. */
    method RegisterTask(t: int, junk: Task, parent: int)
      requires Valid() && Vacant(taskList[..], tasks, t)
      modifies this`tasks, rt, rt.rmap
      ensures t in tasks
        && tasks == old(tasks)[t := junk.(state := Ready, parent := parent, tid := 0, rid := tasks[t].rid)]
      ensures Calm(old(Now()), Now()) && Others(rt.Bound()) == old(Others(rt.Bound())) && (old(Ok(Now())) ==> Ok(Now()))
      ensures !Queued(taskList[..], tasks, t) && OwnsId(rt.Bound(), tasks, t)
      ensures Valid()
    {
      hide Mid, SlotsOk, IdsOk, Others, Calm, Queued;
      ghost var s, B := Now(), rt.Bound();
      MidParts(s);
      tasks := tasks[t := junk.(state := Ready, tid := 0, parent := parent)];
      var id := rt.New(RSRC_TASK, t);
      tasks := tasks[t := tasks[t].(rid := id)];
      NewTask(s, t, tasks[t]);
      assert Now() == SetTask(s, t, tasks[t]);
      NewId(B, taskList[..], s.tasks, t, tasks[t], id);
    }

    /** The end of PsCreateNewTask: the new task is registered and put in the first empty slot, if there is one. */
    method CreateTask(t: int, junk: Task, parent: int) returns (added: bool)
      requires Valid() && Vacant(taskList[..], tasks, t)
      modifies taskList, this`tasks, this`maxUsed, rt, rt.rmap
      ensures t in tasks
        && tasks == old(tasks)[t := junk.(state := Ready, parent := parent, tid := tasks[t].tid, rid := tasks[t].rid)]
      ensures added <==> exists i :: 0 <= i < MAX_PROC && Slot(old(taskList[..]), i) == 0
      ensures added ==>
        FirstEmpty(old(taskList[..]), tasks[t].tid) && taskList[..] == old(taskList[..])[tasks[t].tid := t]
      ensures !added ==> taskList[..] == old(taskList[..])
      ensures Calm(old(Now()), Now()) && Others(rt.Bound()) == old(Others(rt.Bound())) && (old(Ok(Now())) ==> Ok(Now()))
      ensures Valid()
    {
      hide Mid, SlotsOk, IdsOk, Others, Calm, Queued;
      ghost var s := Now();
      RegisterTask(t, junk, parent);
      ghost var m := Now();
      MidParts(m);
      added := AddTask(t);
      if added {
        SchedulerStates.Listed(m, t, tasks[t].tid, Now());
        IdListed(rt.Bound(), m.slots, m.tasks, t, tasks[t].tid);
        CalmTwice(s, m, Now());
        if Ok(m) { StillOk(m, Now()); }
      }
    }

    /** ScSleep */
    method Sleep(time: int)
      requires Valid() && Ok(Now()) && currentNum != 0
      modifies taskList, this`tasks, this`current, this`currentNum, this`maxUsed, this`systemTimer, rt, rt.rmap
      ensures Switched(SetTask(old(Now()), old(current),
          Get(old(tasks), old(current)).(state := SleepTimer, timer := time)), Now())
      ensures Ok(Now()) && Others(rt.Bound()) == old(Others(rt.Bound()))
      ensures Valid()
    {
      hide Mid, Switched, Calm, Others;
      MidParts(Now());
      CurrentChanges(Now(), tasks[current].(state := SleepTimer, timer := time));
      Change(current, tasks[current].(state := SleepTimer, timer := time));
      SwitchTask();
    }

    /** ScTerminateProcess, which ignores the idle task */
    method Terminate()
      requires Valid() && Ok(Now())
      modifies taskList, this`tasks, this`current, this`currentNum, this`maxUsed, this`systemTimer, rt, rt.rmap
      ensures if old(currentNum) == 0 then Now() == old(Now())
        else Switched(SetTask(old(Now()), old(current), Get(old(tasks), old(current)).(state := Dead)), Now())
      ensures Ok(Now()) && Others(rt.Bound()) == old(Others(rt.Bound()))
      ensures Valid()
    {
      hide Mid, Switched, Calm, Others;
      MidParts(Now());
      ListedAtNum(Now());
      if tasks[current].tid == 0 { return; }
      CurrentChanges(Now(), tasks[current].(state := Dead));
      Change(current, tasks[current].(state := Dead));
      SwitchTask();
    }

    /** ScHandleIRQ */
    method HandleIrq(irq: int)
      requires Valid() && Ok(Now())
      modifies irqTaskMap, taskList, this`tasks, this`current, this`currentNum, this`maxUsed, this`systemTimer
      modifies rt, rt.rmap
      ensures Switched(if 0 < irq < 16
        then SetTask(old(Now()), old(current), Get(old(tasks), old(current)).(irq := irq)) else old(Now()), Now())
      ensures irqTaskMap[..] == if 0 < irq < 16 then old(irqTaskMap[..])[irq := old(current)] else old(irqTaskMap[..])
      ensures Ok(Now()) && Others(rt.Bound()) == old(Others(rt.Bound()))
      ensures Valid()
    {
      hide Mid, Switched, Calm, Others, IdsOk;
      MidParts(Now());
      if 0 < irq < 16 {
        CurrentChanges(Now(), tasks[current].(irq := irq));
        Change(current, tasks[current].(irq := irq));
        irqTaskMap[irq] := current;
      }
      SwitchTask();
    }

    /** ScSleepIRQ: only a task that handles an interrupt goes to sleep. */
    method SleepForIrq()
      requires Valid() && Ok(Now()) && currentNum != 0
      modifies taskList, this`tasks, this`current, this`currentNum, this`maxUsed, this`systemTimer, rt, rt.rmap
      ensures var k := Get(old(tasks), old(current));
        Switched(if k.irq != 0 then SetTask(old(Now()), old(current), k.(state := SleepIrq)) else old(Now()), Now())
      ensures Ok(Now()) && Others(rt.Bound()) == old(Others(rt.Bound()))
      ensures Valid()
    {
      hide Mid, Switched, Calm, Others, IdsOk;
      MidParts(Now());
      if tasks[current].irq != 0 {
        CurrentChanges(Now(), tasks[current].(state := SleepIrq));
        Change(current, tasks[current].(state := SleepIrq));
      }
      SwitchTask();
    }

    /** irq_dispatch: a handler asleep on its interrupt runs at once; otherwise nothing changes. */
    method IrqDispatch(number: int)
      requires Valid() && Ok(Now()) && 0 <= number < 16
      modifies this`tasks, this`current, this`currentNum
      ensures var h := irqTaskMap[number];
        if h != 0 && Get(old(tasks), h).state == SleepIrq
        then Preempted(SetTask(old(Now()), h, Get(old(tasks), h).(state := Ready)), Now(), h)
        else Now() == old(Now())
      ensures Ok(Now())
      ensures Valid()
    {
      hide Mid, Preempted, Calm, IdsOk, Ok;
      var h := irqTaskMap[number];
      if h != 0 && tasks[h].state == SleepIrq {
        Wake(h);
        PreemptTask(h);
      }
    }
  }

  lemma ListedAt(s: Sched, t: int)
    requires SlotsOk(s.slots, s.tasks, s.maxUsed) && Queued(s.slots, s.tasks, t)
    ensures 0 <= s.tasks[t].tid < MAX_PROC && t in s.tasks
    ensures 0 <= s.num < MAX_PROC ==> (Slot(s.slots, s.num) == t <==> s.num == s.tasks[t].tid)
  {
  }

  lemma ListedAtNum(s: Sched)
    requires Mid(s)
    ensures s.current in s.tasks && s.tasks[s.current].tid == s.num
  {
    assert Slot(s.slots, s.num) in s.tasks;
  }

  /** The scan wakes the timer sleepers and does nothing else. */
  lemma Scanned(s: Sched, tasks: map<int, Task>)
    requires Mid(s) && tasks.Keys == s.tasks.Keys
    requires forall t {:trigger Get(tasks, t)} :: t in tasks ==> Get(tasks, t) == Woken(s, t)
    ensures TasksAre(s, tasks, false)
    ensures forall B :: IdsOk(B, s.slots, s.tasks) ==> IdsOk(B, s.slots, tasks)
  {
    hide Mid, IdsOk;
    ScanEnds(s, tasks);
    forall B | IdsOk(B, s.slots, s.tasks) ensures IdsOk(B, s.slots, tasks) {
      IdsKept(B, s.slots, s.tasks, tasks);
    }
  }

  lemma StillOk(s: Sched, r: Sched)
    requires Ok(s) && Mid(r) && r.current == s.current && Get(r.tasks, s.current).state == Get(s.tasks, s.current).state
    ensures Ok(r)
  {
  }

  lemma CalmTwice(s: Sched, m: Sched, r: Sched)
    requires Calm(s, m) && Calm(m, r)
    ensures Calm(s, r)
  {
    hide Queued;
    forall t {:trigger Waits(s, t)} | Waits(s, t) ensures Waits(r, t) && Get(r.tasks, t).tid == Get(s.tasks, t).tid {
      assert Waits(m, t);
    }
  }

  /** Identifiers of other kinds come and go without touching the tasks'. */
  lemma IdsForeign(B: map<int, Binding>, S: seq<int>, tasks: map<int, Task>, B': map<int, Binding>)
    requires IdsOk(B, S, tasks) && SameKind(B, B', RSRC_TASK) && 0 !in B'
    ensures IdsOk(B', S, tasks)
  {
    forall t {:trigger Queued(S, tasks, t)} | Queued(S, tasks, t) ensures OwnsId(B', tasks, t) {
      assert OwnsId(B, tasks, t);
      var id := Get(tasks, t).rid;
      assert id in B && B[id].kind == RSRC_TASK ==> id in B';
    }
    forall id {:trigger id in B'} | id in B' && B'[id].kind == RSRC_TASK ensures NamesTask(S, tasks, id, B'[id].data) {
      assert id in B && NamesTask(S, tasks, id, B[id].data);
    }
  }

  lemma NewId(B: map<int, Binding>, S: seq<int>, tasks: map<int, Task>, t: int, k: Task, id: int)
    requires IdsOk(B, S, tasks) && Vacant(S, tasks, t) && k.rid == id && k.state == Ready && (id != 0 ==> id !in B)
    requires !Queued(S, tasks[t := k], t)
    ensures IdsOk(if id == 0 then B else B[id := Binding(RSRC_TASK, t)], S, tasks[t := k])
    ensures Others(if id == 0 then B else B[id := Binding(RSRC_TASK, t)]) == Others(B)
  {
    var B', tasks' := if id == 0 then B else B[id := Binding(RSRC_TASK, t)], tasks[t := k];
    forall u {:trigger Queued(S, tasks', u)} | Queued(S, tasks', u) ensures OwnsId(B', tasks', u) {
      assert Queued(S, tasks, u);
      assert OwnsId(B, tasks, u);
    }
    forall i {:trigger i in B'} | i in B' && B'[i].kind == RSRC_TASK ensures NamesTask(S, tasks', i, B'[i].data) {
      if i != id || id == 0 { assert NamesTask(S, tasks, i, B[i].data); }
    }
  }

  lemma IdListed(B: map<int, Binding>, S: seq<int>, tasks: map<int, Task>, t: int, i: int)
    requires IdsOk(B, S, tasks) && t in tasks && t != 0 && tasks[t].state == Ready && 0 <= i < |S| && Slot(S, i) == 0
      && OwnsId(B, tasks, t)
    ensures IdsOk(B, S[i := t], tasks[t := tasks[t].(tid := i)])
  {
    var S', tasks' := S[i := t], tasks[t := tasks[t].(tid := i)];
    forall u {:trigger Queued(S', tasks', u)} | Queued(S', tasks', u) ensures OwnsId(B, tasks', u) {
      if u != t { assert Queued(S, tasks, u); assert OwnsId(B, tasks, u); }
    }
    forall id {:trigger id in B} | id in B && B[id].kind == RSRC_TASK ensures NamesTask(S', tasks', id, B[id].data) {
      assert NamesTask(S, tasks, id, B[id].data);
    }
  }

  lemma IdReleased(B: map<int, Binding>, S: seq<int>, tasks: map<int, Task>, t: int)
    requires IdsOk(B, S, tasks) && Queued(S, tasks, t) && Get(tasks, t).state == Dead && 0 <= Get(tasks, t).tid < |S|
    ensures Others(B - {Get(tasks, t).rid}) == Others(B)
    ensures IdsOk(B - {Get(tasks, t).rid}, S[Get(tasks, t).tid := 0], tasks)
  {
    var id := Get(tasks, t).rid;
    var B', S' := B - {id}, S[Get(tasks, t).tid := 0];
    assert OwnsId(B, tasks, t);
    forall u {:trigger Queued(S', tasks, u)} | Queued(S', tasks, u) ensures OwnsId(B', tasks, u) {
      assert Queued(S, tasks, u);
      assert u != t;
      assert Get(tasks, u).rid != 0 ==> Get(tasks, u).rid in B;
    }
    forall i {:trigger i in B'} | i in B' && B'[i].kind == RSRC_TASK ensures NamesTask(S', tasks, i, B'[i].data) {
      assert i in B && NamesTask(S, tasks, i, B[i].data);
    }
  }

  /** Going to sleep, waking, running and dying leave the identifiers of listed tasks alone. */
  lemma IdsKept(B: map<int, Binding>, S: seq<int>, tasks: map<int, Task>, tasks': map<int, Task>)
    requires IdsOk(B, S, tasks) && tasks.Keys == tasks'.Keys
    requires forall t {:trigger SameId(S, tasks, tasks', t)} :: t in tasks ==> SameId(S, tasks, tasks', t)
    ensures IdsOk(B, S, tasks')
  {
    forall t {:trigger Queued(S, tasks', t)} | Queued(S, tasks', t) ensures OwnsId(B, tasks', t) {
      assert SameId(S, tasks, tasks', t);
      assert Queued(S, tasks, t);
    }
    forall id {:trigger id in B} | id in B && B[id].kind == RSRC_TASK ensures NamesTask(S, tasks', id, B[id].data) {
      assert NamesTask(S, tasks, id, B[id].data);
      assert SameId(S, tasks, tasks', B[id].data);
    }
  }

  lemma StaysListed(B: map<int, Binding>, S: seq<int>, tasks: map<int, Task>, t: int, st: TaskState,
                    tasks': map<int, Task>)
    requires IdsOk(B, S, tasks) && t in tasks && tasks' == tasks[t := tasks[t].(state := st)]
      && (st == Dead ==> Queued(S, tasks, t))
    ensures IdsOk(B, S, tasks')
  {
    hide IdsOk;
    IdsKept(B, S, tasks, tasks');
  }

  ghost predicate SameId(S: seq<int>, tasks: map<int, Task>, tasks': map<int, Task>, t: int) {
    var k, k' := Get(tasks, t), Get(tasks', t);
    k.rid == k'.rid && k.tid == k'.tid && (k'.state == Dead ==> k.state == Dead || Queued(S, tasks, t))
  }
}
