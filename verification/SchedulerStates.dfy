/** What the scheduler of kernel/task.c does, as a relation between its states. */
module SchedulerStates {

  const MAX_PROC := 1024
  const TICKS := 100

  datatype TaskState = Kernel | Running | Ready | SleepPort | SleepIrq | Dead | SleepSem | SleepTimer

  datatype Task = Task(state: TaskState, tid: int, rid: int, sleepingOn: int, timer: int, irq: int, parent: int)

  /** The task list, the task structures by address, and CurrentTask, CurrentTaskNum, MaxUsedProc, SystemTimer. */
  datatype Sched = Sched(slots: seq<int>, tasks: map<int, Task>, current: int, num: int, maxUsed: int, timer: int)

  ghost function Slot(slots: seq<int>, i: int): int { if 0 <= i < |slots| then slots[i] else 0 }

  ghost function Get(tasks: map<int, Task>, t: int): Task
  { if t in tasks then tasks[t] else Task(Dead, 0, 0, 0, 0, 0, 0) }

  function Succ(c: int): int { if c == MAX_PROC - 1 then 0 else c + 1 }

  /** How many slots the cyclic search goes from c until it is at i. */
  function Ahead(c: int, i: int): int { if i > c then i - c else i - c + MAX_PROC }

  predicate Sleeping(st: TaskState) { st in {SleepPort, SleepIrq, SleepSem, SleepTimer} }

  ghost predicate Queued(slots: seq<int>, tasks: map<int, Task>, t: int) {
    t in tasks && t != 0 && Slot(slots, Get(tasks, t).tid) == t
  }

  ghost predicate SlotsOk(slots: seq<int>, tasks: map<int, Task>, maxUsed: int) {
    |slots| == MAX_PROC && 0 <= maxUsed < MAX_PROC
    && forall i {:trigger Slot(slots, i)} :: 0 <= i < MAX_PROC && Slot(slots, i) != 0 ==>
         i <= maxUsed && Slot(slots, i) in tasks && Get(tasks, Slot(slots, i)).tid == i
  }

  ghost predicate TasksOk(slots: seq<int>, tasks: map<int, Task>, current: int) {
    forall t {:trigger t in tasks} :: t in tasks ==>
      t != 0 && (tasks[t].state == Running ==> t == current) && (Sleeping(tasks[t].state) ==> Queued(slots, tasks, t))
  }

  /** The idle task in slot 0 never sleeps. */
  ghost predicate IdleOk(slots: seq<int>, tasks: map<int, Task>) {
    Slot(slots, 0) != 0 && Get(tasks, Slot(slots, 0)).state in {Kernel, Ready, Running}
  }

  /** The invariant inside a system call, when the current task may already have gone to sleep or died. */
  ghost predicate Mid(s: Sched) {
    && SlotsOk(s.slots, s.tasks, s.maxUsed) && TasksOk(s.slots, s.tasks, s.current) && IdleOk(s.slots, s.tasks)
    && 0 <= s.num < MAX_PROC && s.current != 0 && Slot(s.slots, s.num) == s.current && 0 <= s.timer <= TICKS
  }

  /** The invariant between steps: the one running task is the one that the list names. */
  ghost predicate Ok(s: Sched) { Mid(s) && Get(s.tasks, s.current).state == Running }

  lemma OneRunning(s: Sched, t: int)
    requires Ok(s) && t in s.tasks
    ensures s.tasks[t].state == Running <==> t == Slot(s.slots, s.num)
  {
    assert Slot(s.slots, s.num) in s.tasks;
  }

  /** This call of PsSwitchTask wakes the timer sleepers. */
  predicate Wakes(s: Sched) { s.timer + 1 > TICKS }

  /** A task once the scan of the timer sleepers is over. */
  ghost function Woken(s: Sched, t: int): Task {
    var k := Get(s.tasks, t);
    if k.state == SleepTimer && Wakes(s) then k.(state := Ready, timer := 0) else k
  }

  /** A task once the current task has stopped running as well. */
  ghost function Ticked(s: Sched, t: int): Task {
    var k := Woken(s, t);
    if k.state == Running && t == s.current then k.(state := Ready) else k
  }

  ghost predicate Runnable(s: Sched, i: int) {
    Slot(s.slots, i) != 0 && Ticked(s, Slot(s.slots, i)).state in {Ready, Kernel}
  }

  /** The search that starts behind s.num reaches i before it reaches n. */
  predicate Before(s: Sched, i: int, n: int) { 0 <= i < MAX_PROC && Ahead(s.num, i) < Ahead(s.num, n) }

  ghost predicate Buried(s: Sched, i: int, n: int) {
    Before(s, i, n) && Slot(s.slots, i) != 0 && Get(s.tasks, Slot(s.slots, i)).state == Dead
  }

  /** PsSwitchTask: the next runnable slot in cyclic order runs, and the dead tasks passed on the way are removed. */
  ghost predicate Switched(s: Sched, r: Sched) {
    && r.timer == (if Wakes(s) then 0 else s.timer + 1)
    && 0 <= r.num < MAX_PROC && Runnable(s, r.num) && r.current == Slot(s.slots, r.num)
    && SlotsCleared(s, r) && TasksSwitched(s, r) && 0 <= r.maxUsed <= s.maxUsed
    && forall i {:trigger Runnable(s, i)} :: Before(s, i, r.num) ==> !Runnable(s, i)
  }

  ghost predicate SlotsCleared(s: Sched, r: Sched) {
    |r.slots| == MAX_PROC
    && forall i {:trigger Slot(r.slots, i)} ::
       0 <= i < MAX_PROC ==> Slot(r.slots, i) == if Buried(s, i, r.num) then 0 else Slot(s.slots, i)
  }

  ghost predicate TasksSwitched(s: Sched, r: Sched) {
    && r.tasks.Keys == s.tasks.Keys
    && forall t {:trigger Get(r.tasks, t)} :: t in s.tasks ==>
         Get(r.tasks, t) == if t == r.current then Ticked(s, t).(state := Running) else Ticked(s, t)
  }

  /** No task is listed behind MaxUsedProc. */
  ghost predicate Bounded(slots: seq<int>, maxUsed: int) {
    forall i {:trigger Slot(slots, i)} :: maxUsed < i < MAX_PROC ==> Slot(slots, i) == 0
  }

  lemma SwitchKeepsOk(s: Sched, r: Sched)
    requires Mid(s) && Switched(s, r) && Bounded(r.slots, r.maxUsed)
    ensures Ok(r)
  {

    assert SlotsCleared(s, r) && TasksSwitched(s, r);
    assert Slot(s.slots, 0) in s.tasks && Slot(s.slots, r.num) in s.tasks;
    assert Get(r.tasks, r.current).state == Running;
    assert !Buried(s, 0, r.num) && !Buried(s, r.num, r.num) by { assert !Before(s, r.num, r.num) by {
      NotBefore(s, r.num); }
    }
    forall i {:trigger Slot(r.slots, i)} | 0 <= i < MAX_PROC && Slot(r.slots, i) != 0
      ensures i <= r.maxUsed && Slot(r.slots, i) in r.tasks && Get(r.tasks, Slot(r.slots, i)).tid == i
    {
      assert Slot(r.slots, i) == Slot(s.slots, i) && Slot(s.slots, i) in s.tasks;
    }
    forall t {:trigger t in r.tasks} | t in r.tasks
      ensures t != 0 && (r.tasks[t].state == Running ==> t == r.current)
        && (Sleeping(r.tasks[t].state) ==> Queued(r.slots, r.tasks, t))
    {
      assert t in s.tasks && Get(r.tasks, t) == r.tasks[t];
      var i := Get(s.tasks, t).tid;
      if Sleeping(r.tasks[t].state) {
        assert Slot(s.slots, i) == t;
        assert !Buried(s, i, r.num);
        assert Slot(r.slots, i) == t;
      }
    }
    assert Get(r.tasks, Slot(s.slots, 0)).state in {Kernel, Ready, Running};
  }

  lemma NotBefore(s: Sched, n: int)
    ensures !Before(s, n, n)
  {
  }

  /** What a switch does to each task: on every 101st tick the timer sleepers become ready; the task that ran stays
      ready; the task that is switched to runs; nothing else changes. */
  lemma SwitchMeans(s: Sched, r: Sched)
    requires Mid(s) && Switched(s, r)
    ensures r.timer == (if s.timer >= 100 then 0 else s.timer + 1)
    ensures 0 <= r.num < 1024 && Slot(s.slots, r.num) == r.current && r.current in s.tasks
    ensures forall t {:trigger t in s.tasks} {:trigger t in r.tasks} :: t in s.tasks ==>
      && t in r.tasks && r.tasks[t] == s.tasks[t].(state := r.tasks[t].state, timer := r.tasks[t].timer)
      && r.tasks[t].timer == (if s.tasks[t].state == SleepTimer && s.timer >= 100 then 0 else s.tasks[t].timer)
      && r.tasks[t].state == (if t == r.current then Running
                              else if s.tasks[t].state == Running then Ready
                              else if s.tasks[t].state == SleepTimer && s.timer >= 100 then Ready
                              else s.tasks[t].state)
  {
    assert TasksSwitched(s, r) && Slot(s.slots, r.num) in s.tasks;
    forall t {:trigger t in s.tasks} | t in s.tasks
      ensures t in r.tasks && r.tasks[t] == if t == r.current then Ticked(s, t).(state := Running) else Ticked(s, t)
    {
      assert t in r.tasks.Keys;
      assert Get(r.tasks, t) == r.tasks[t];
    }
  }

  /** The task that is switched to, e slots ahead, is the first that can run, and the dead ones on the way are
      removed. */
  lemma SwitchFindsFirst(s: Sched, r: Sched, d: int, e: int)
    requires Mid(s) && Switched(s, r) && 1 <= d <= 1024 && 1 <= e <= 1024 && r.num == (s.num + e) % 1024
    ensures var u := Slot(s.slots, (s.num + d) % 1024);
      && (u != 0 && Get(s.tasks, u).state in {Ready, Kernel} ==> e <= d)
      && Slot(r.slots, (s.num + d) % 1024) == if d < e && u != 0 && Get(s.tasks, u).state == Dead then 0 else u
  {
    var i := (s.num + d) % 1024;
    assert Ahead(s.num, i) == d && Ahead(s.num, r.num) == e;
    assert SlotsCleared(s, r);
    if Slot(s.slots, i) != 0 && Get(s.tasks, Slot(s.slots, i)).state in {Ready, Kernel} {
      assert Runnable(s, i);
      assert !Before(s, i, r.num);
    }
    assert Slot(r.slots, i) == if Buried(s, i, r.num) then 0 else Slot(s.slots, i);
  }

  /** A task that sleeps on the timer goes on sleeping until the tick that makes the count exceed 100. */
  lemma TimerRunsOut(s: Sched, r: Sched, t: int)
    requires Mid(s) && Switched(s, r) && OnTimer(s, t)
    ensures s.timer < 100 ==> OnTimer(r, t) && r.tasks[t] == s.tasks[t] && r.timer == s.timer + 1
    ensures s.timer >= 100 ==> t in r.tasks && r.tasks[t].state in {Ready, Running} && r.timer == 0
  {
    SwitchMeans(s, r);
    assert t in s.tasks;
    if t == r.current { assert Runnable(s, r.num); }
  }

  // ----- the search -----

  /** The search has gone d slots from s.num and found nothing to run. */
  ghost predicate Searched(s: Sched, slots: seq<int>, maxUsed: int, num: int, d: int) {
    && 0 <= d <= MAX_PROC && 0 <= num < MAX_PROC && (if d == 0 then num == s.num else Ahead(s.num, num) == d)
    && Emptied(s, slots, d) && Bounded(slots, maxUsed) && 0 <= maxUsed <= s.maxUsed
    && forall i {:trigger Runnable(s, i)} :: 0 <= i < MAX_PROC && Ahead(s.num, i) <= d ==> !Runnable(s, i)
  }

  ghost predicate DeadAt(s: Sched, i: int) { Slot(s.slots, i) != 0 && Get(s.tasks, Slot(s.slots, i)).state == Dead }

  ghost predicate Emptied(s: Sched, slots: seq<int>, d: int) {
    |slots| == MAX_PROC
    && forall i {:trigger Slot(slots, i)} :: 0 <= i < MAX_PROC ==>
         Slot(slots, i) == if Ahead(s.num, i) <= d && DeadAt(s, i) then 0 else Slot(s.slots, i)
  }

  /** The tasks are those of s as the scan left them, or also without a running one. */
  ghost predicate TasksAre(s: Sched, tasks: map<int, Task>, stopped: bool) {
    && tasks.Keys == s.tasks.Keys
    && forall t {:trigger Get(tasks, t)} ::
       t in s.tasks ==> Get(tasks, t) == if stopped then Ticked(s, t) else Woken(s, t)
  }

  lemma SearchStarts(s: Sched)
    requires Mid(s)
    ensures Searched(s, s.slots, s.maxUsed, s.num, 0)
  {
    assert forall i :: 0 <= i < MAX_PROC ==> Ahead(s.num, i) >= 1;
  }

  /** The next slot is one the search has not seen, and the search stops at slot 0 at the latest. */
  lemma NextSlot(s: Sched, slots: seq<int>, maxUsed: int, num: int, d: int)
    requires Mid(s) && Searched(s, slots, maxUsed, num, d)
    ensures d < MAX_PROC && Ahead(s.num, Succ(num)) == d + 1 && 0 <= Succ(num) < MAX_PROC
    ensures Slot(slots, Succ(num)) == Slot(s.slots, Succ(num))
    ensures DeadAt(s, Succ(num)) ==> Succ(num) != 0
  {
    assert Slot(s.slots, 0) != 0;
    assert Runnable(s, 0) by { assert Slot(s.slots, 0) in s.tasks; IdleRuns(s); }
    assert Slot(slots, 0) == Slot(slots, 0);
    assert Slot(slots, Succ(num)) == Slot(slots, Succ(num));
  }

  lemma IdleRuns(s: Sched)
    requires Mid(s)
    ensures Runnable(s, 0)
  {
    assert Slot(s.slots, 0) in s.tasks;
  }

  lemma OnlyAtDistance(c: int, i: int, j: int)
    requires 0 <= c < MAX_PROC && 0 <= i < MAX_PROC && 0 <= j < MAX_PROC && Ahead(c, i) == Ahead(c, j)
    ensures i == j
  {
  }

  /** What a search may rely on. */
  lemma MidParts(s: Sched)
    requires Mid(s)
    ensures SlotsOk(s.slots, s.tasks, s.maxUsed) && TasksOk(s.slots, s.tasks, s.current)
    ensures s.current in s.tasks && Queued(s.slots, s.tasks, s.current) && 0 <= s.num < MAX_PROC
      && 0 <= s.timer <= TICKS
    ensures Slot(s.slots, 0) != 0
  {
    assert Slot(s.slots, s.num) in s.tasks;
  }

  lemma ScanEnds(s: Sched, tasks: map<int, Task>)
    requires tasks.Keys == s.tasks.Keys
    requires forall t {:trigger Get(tasks, t)} :: t in tasks ==> Get(tasks, t) == Woken(s, t)
    ensures TasksAre(s, tasks, false)
  {
  }

  lemma CurrentStops(s: Sched, tasks: map<int, Task>, stopped: bool, tasks': map<int, Task>)
    requires TasksAre(s, tasks, stopped) && s.current in tasks
    requires tasks' == if tasks[s.current].state == Running then tasks[s.current := tasks[s.current].(state := Ready)]
      else tasks
    ensures TasksAre(s, tasks', true)
  {
    assert Get(tasks, s.current) == tasks[s.current];
    forall t {:trigger Get(tasks', t)} | t in s.tasks ensures Get(tasks', t) == Ticked(s, t) {
      assert Get(tasks, t) == if stopped then Ticked(s, t) else Woken(s, t);
    }
  }

  /** What the tests of the search read. */
  lemma SearchReads(s: Sched, slots: seq<int>, tasks: map<int, Task>, maxUsed: int, num: int, d: int)
    requires Mid(s) && Searched(s, slots, maxUsed, num, d) && TasksAre(s, tasks, true)
    ensures SlotsOk(slots, tasks, maxUsed) && 0 <= Succ(num) < MAX_PROC && s.current in tasks
    ensures var t := Slot(slots, Succ(num));
      if t == 0 then !Runnable(s, Succ(num)) && !DeadAt(s, Succ(num))
      else t in tasks && Queued(slots, tasks, t) && Get(tasks, t).tid == Succ(num)
           && (tasks[t].state == Dead <==> DeadAt(s, Succ(num)))
           && (tasks[t].state in {Ready, Kernel} <==> Runnable(s, Succ(num)))
           && (tasks[t].state == Dead ==> Slot(slots, 0) != t)
  {
    NextSlot(s, slots, maxUsed, num, d);
    MidParts(s);
    var n := Succ(num);
    forall i {:trigger Slot(slots, i)} | 0 <= i < MAX_PROC && Slot(slots, i) != 0
      ensures i <= maxUsed && Slot(slots, i) in tasks && Get(tasks, Slot(slots, i)).tid == i
    {
      assert Slot(slots, i) == Slot(s.slots, i) && Slot(s.slots, i) in s.tasks;
      assert Get(tasks, Slot(s.slots, i)) == Ticked(s, Slot(s.slots, i));
    }
    var t := Slot(slots, n);
    if t != 0 {
      assert t in s.tasks;
      assert Get(tasks, t) == Ticked(s, t);
      assert Slot(slots, 0) == t ==> n == 0;
    }
  }

  /** The search goes past a slot with nothing to run; if a dead task was there, the slot is emptied. */
  lemma SearchGoesOn(s: Sched, slots: seq<int>, maxUsed: int, num: int, d: int, slots': seq<int>, maxUsed': int)
    requires Mid(s) && Searched(s, slots, maxUsed, num, d) && !Runnable(s, Succ(num)) && 0 <= Succ(num) < |slots|
    requires if DeadAt(s, Succ(num))
      then slots' == slots[Succ(num) := 0] && maxUsed' == maxUsed - (if Succ(num) == maxUsed then 1 else 0)
             else slots' == slots && maxUsed' == maxUsed
    ensures Searched(s, slots', maxUsed', Succ(num), d + 1)
  {
    hide Runnable, Mid, DeadAt;
    MidParts(s);
    NextSlot(s, slots, maxUsed, num, d);
    var n := Succ(num);
    forall i {:trigger Runnable(s, i)} | 0 <= i < MAX_PROC && Ahead(s.num, i) <= d + 1 ensures !Runnable(s, i) {
      if Ahead(s.num, i) == d + 1 { OnlyAtDistance(s.num, i, n); }
    }
    forall i {:trigger Slot(slots', i)} | 0 <= i < MAX_PROC
      ensures Slot(slots', i) == if Ahead(s.num, i) <= d + 1 && DeadAt(s, i) then 0 else Slot(s.slots, i)
    {
      assert Slot(slots, i) == if Ahead(s.num, i) <= d && DeadAt(s, i) then 0 else Slot(s.slots, i);
      if Ahead(s.num, i) == d + 1 { OnlyAtDistance(s.num, i, n); }
    }
    forall i {:trigger Slot(slots', i)} | maxUsed' < i < MAX_PROC ensures Slot(slots', i) == 0 {
      assert i > maxUsed ==> Slot(slots, i) == 0;
    }
  }

  /** The search ends at a runnable slot. */
  lemma SearchEnds(s: Sched, slots: seq<int>, tasks: map<int, Task>, maxUsed: int, num: int, d: int, r: Sched)
    requires Mid(s) && Searched(s, slots, maxUsed, num, d) && Runnable(s, Succ(num)) && TasksAre(s, tasks, true)
    requires Slot(slots, Succ(num)) in tasks
    requires var t := Slot(slots, Succ(num));
      r == Sched(slots, tasks[t := tasks[t].(state := Running)], t, Succ(num), maxUsed, if Wakes(s) then 0
        else s.timer + 1)
    ensures Switched(s, r) && Ok(r)
  {
    NextSlot(s, slots, maxUsed, num, d);
    var n := Succ(num);
    assert TasksSwitched(s, r) by {
      forall t {:trigger Get(r.tasks, t)} | t in s.tasks
        ensures Get(r.tasks, t) == if t == r.current then Ticked(s, t).(state := Running) else Ticked(s, t)
      {
        assert Get(tasks, t) == Ticked(s, t);
      }
    }
    assert SlotsCleared(s, r) by {
      forall i {:trigger Slot(r.slots, i)} | 0 <= i < MAX_PROC
        ensures Slot(r.slots, i) == if Buried(s, i, r.num) then 0 else Slot(s.slots, i)
      {
        assert Slot(slots, i) == if Ahead(s.num, i) <= d && DeadAt(s, i) then 0 else Slot(s.slots, i);
      }
    }
    assert Switched(s, r) by {
      forall i {:trigger Runnable(s, i)} | Before(s, i, n) ensures !Runnable(s, i) {
        assert Ahead(s.num, i) <= d;
      }
    }
    SwitchKeepsOk(s, r);
  }

  /** PsPreemptTask: t runs at once, wherever the search was. */
  ghost predicate Preempted(s: Sched, r: Sched, t: int) {
    && Queued(s.slots, s.tasks, t) && r.slots == s.slots && r.num == Get(s.tasks, t).tid && r.current == t
    && r.maxUsed == s.maxUsed && r.timer == s.timer
    && r.tasks == (if Get(s.tasks, s.current).state == Running && s.current in s.tasks
                   then s.tasks[s.current := s.tasks[s.current].(state := Ready)]
                     else s.tasks)[t := s.tasks[t].(state := Running)]
  }

  lemma PreemptMeans(s: Sched, r: Sched, t: int)
    requires Mid(s) && Preempted(s, r, t)
    ensures r.current == t && Slot(r.slots, r.num) == t && r.slots == s.slots && r.timer == s.timer
    ensures forall u {:trigger u in s.tasks} {:trigger u in r.tasks} :: u in s.tasks ==>
      u in r.tasks && r.tasks[u] == s.tasks[u].(state := if u == t then Running
                                                         else if s.tasks[u].state == Running then Ready
                                                         else s.tasks[u].state)
  {
    assert Slot(s.slots, s.num) in s.tasks;
  }

  lemma PreemptKeepsOk(s: Sched, r: Sched, t: int)
    requires Mid(s) && Preempted(s, r, t) && s.tasks[t].state == Ready
    ensures Ok(r)
  {
    assert Slot(s.slots, s.num) in s.tasks && Slot(s.slots, 0) in s.tasks;
    var i := Get(s.tasks, t).tid;
    forall j {:trigger Slot(r.slots, j)} | 0 <= j < MAX_PROC && Slot(r.slots, j) != 0
      ensures j <= r.maxUsed && Slot(r.slots, j) in r.tasks && Get(r.tasks, Slot(r.slots, j)).tid == j
    {
      assert Slot(s.slots, j) in s.tasks;
    }
    forall u {:trigger u in r.tasks} | u in r.tasks
      ensures u != 0 && (r.tasks[u].state == Running ==> u == r.current)
        && (Sleeping(r.tasks[u].state) ==> Queued(r.slots, r.tasks, u))
    {
      assert u in s.tasks;
    }
  }

  // ----- changes of one task -----

  ghost function SetTask(s: Sched, t: int, k: Task): Sched { s.(tasks := s.tasks[t := k]) }

  /** The scheduler's state once task t has been made ready. */
  ghost function Readied(s: Sched, t: int): Sched { SetTask(s, t, Get(s.tasks, t).(state := Ready)) }

  /** The scheduler's state once the current task has gone to sleep. */
  ghost function Asleep(s: Sched, st: TaskState, on: int): Sched {
    SetTask(s, s.current, Get(s.tasks, s.current).(sleepingOn := on, state := st))
  }

  /** The current task goes to sleep, dies or has other fields changed. */
  lemma CurrentChanges(s: Sched, k: Task)
    requires Mid(s) && k.tid == Get(s.tasks, s.current).tid && (s.num == 0 ==> k.state in {Kernel, Ready, Running})
    ensures Mid(SetTask(s, s.current, k)) && Calm(s, SetTask(s, s.current, k))
  {
    MidParts(s);
    TaskChanges(s, s.current, k);
  }

  /** A sleeping task becomes ready. */
  lemma SleeperWakes(s: Sched, t: int, k: Task)
    requires Mid(s) && t in s.tasks && Sleeping(s.tasks[t].state) && k.state == Ready && k.tid == s.tasks[t].tid
    ensures Mid(SetTask(s, t, k)) && Calm(s, SetTask(s, t, k)) && Queued(s.slots, SetTask(s, t, k).tasks, t)
    ensures Ok(s) ==> Ok(SetTask(s, t, k))
  {
    MidParts(s);
    TaskChanges(s, t, k);
  }

  lemma TaskChanges(s: Sched, t: int, k: Task)
    requires Mid(s) && Queued(s.slots, s.tasks, t) && k.tid == s.tasks[t].tid
    requires k.state == Running ==> t == s.current
    requires Slot(s.slots, 0) == t ==> k.state in {Kernel, Ready, Running}
    requires t != s.current ==> k.state == Ready || s.tasks[t].state != Ready
    ensures Mid(SetTask(s, t, k)) && Calm(s, SetTask(s, t, k))
  {
    var r := SetTask(s, t, k);
    forall i {:trigger Slot(r.slots, i)} | 0 <= i < MAX_PROC && Slot(r.slots, i) != 0
      ensures i <= r.maxUsed && Slot(r.slots, i) in r.tasks && Get(r.tasks, Slot(r.slots, i)).tid == i
    {
      assert Slot(s.slots, i) in s.tasks;
    }
    forall u {:trigger u in r.tasks} | u in r.tasks
      ensures u != 0 && (r.tasks[u].state == Running ==> u == r.current)
        && (Sleeping(r.tasks[u].state) ==> Queued(r.slots, r.tasks, u))
    {
      assert u in s.tasks;
    }
    assert IdleOk(r.slots, r.tasks) by { assert Slot(s.slots, 0) in s.tasks; }
  }

  // ----- creation -----

  /** No task is at this address, or a dead one that has been buried and whose page is free again. */
  ghost predicate Vacant(slots: seq<int>, tasks: map<int, Task>, t: int) {
    t != 0 && (t !in tasks || (tasks[t].state == Dead && !Queued(slots, tasks, t)))
  }

  /** A new task structure is not yet listed. */
  lemma NewTask(s: Sched, t: int, k: Task)
    requires Mid(s) && Vacant(s.slots, s.tasks, t) && k.state == Ready
    ensures Mid(SetTask(s, t, k)) && Calm(s, SetTask(s, t, k)) && !Queued(s.slots, SetTask(s, t, k).tasks, t)
  {
    var r := SetTask(s, t, k);
    forall i {:trigger Slot(r.slots, i)} | 0 <= i < MAX_PROC && Slot(r.slots, i) != 0
      ensures i <= r.maxUsed && Slot(r.slots, i) in r.tasks && Get(r.tasks, Slot(r.slots, i)).tid == i
        && Slot(r.slots, i) != t
    {
      assert Slot(s.slots, i) in s.tasks;
    }
    forall u {:trigger u in r.tasks} | u in r.tasks
      ensures u != 0 && (r.tasks[u].state == Running ==> u == r.current)
        && (Sleeping(r.tasks[u].state) ==> Queued(r.slots, r.tasks, u))
    {
      assert u == t || u in s.tasks;
    }
    assert IdleOk(r.slots, r.tasks) by { assert Slot(s.slots, 0) in s.tasks; }
  }

  /** Listing a task in an empty slot. */
  lemma Listed(s: Sched, t: int, i: int, r: Sched)
    requires Mid(s) && t in s.tasks && t != 0 && s.tasks[t].state == Ready && !Queued(s.slots, s.tasks, t)
    requires 0 <= i < |s.slots| && Slot(s.slots, i) == 0 && r.slots == s.slots[i := t]
      && r.tasks == s.tasks[t := s.tasks[t].(tid := i)]
    requires SlotsOk(r.slots, r.tasks, r.maxUsed) && r.current == s.current && r.num == s.num && r.timer == s.timer
    ensures Mid(r) && Calm(s, r)
  {
    MidParts(s);
    assert Slot(r.slots, s.num) == Slot(s.slots, s.num);
    forall u {:trigger u in r.tasks} | u in r.tasks
      ensures u != 0 && (r.tasks[u].state == Running ==> u == r.current)
        && (Sleeping(r.tasks[u].state) ==> Queued(r.slots, r.tasks, u))
    {
      assert u in s.tasks;
    }
    assert IdleOk(r.slots, r.tasks) by {
      assert Slot(s.slots, 0) in s.tasks;
      assert Slot(r.slots, 0) == Slot(s.slots, 0);
    }
  }

  // ----- fairness -----

  /** A step that neither switches nor preempts: it leaves the scheduler's position, and no listed ready task loses its
      place or its turn. */
  ghost predicate Calm(s: Sched, r: Sched) {
    && r.num == s.num && r.current == s.current && r.timer == s.timer && s.tasks.Keys <= r.tasks.Keys
    && forall t {:trigger Waits(s, t)} :: Waits(s, t) ==> Waits(r, t) && Get(r.tasks, t).tid == Get(s.tasks, t).tid
  }

  /** t is listed and ready but is not the current task. */
  ghost predicate Waits(s: Sched, t: int) {
    t != s.current && Queued(s.slots, s.tasks, t) && Get(s.tasks, t).state == Ready
  }

  ghost function Distance(s: Sched, t: int): int { Ahead(s.num, Get(s.tasks, t).tid) }

  /** Each switch either runs a waiting task or brings the search nearer to it. */
  lemma SwitchBringsNearer(s: Sched, r: Sched, t: int)
    requires Mid(s) && Switched(s, r) && Waits(s, t)
    ensures r.current == t || (Waits(r, t) && 0 < Distance(r, t) < Distance(s, t))
  {
    assert SlotsCleared(s, r) && TasksSwitched(s, r);
    var i := Get(s.tasks, t).tid;
    assert Slot(s.slots, i) == t && 0 <= i < MAX_PROC;
    assert Runnable(s, i);
    assert !Before(s, i, r.num);
    assert Slot(r.slots, i) == t;
    assert Get(r.tasks, t) == if t == r.current then Ticked(s, t).(state := Running) else Ticked(s, t);
    if r.num == i {
      assert r.current == t;
    } else {
      assert Slot(s.slots, r.num) != t;
    }
  }

  /** A run in which every step is a call of PsSwitchTask, one of PsPreemptTask, or a calm one. */
  ghost predicate Run(run: seq<Sched>) {
    |run| > 0 && Mid(run[0]) && forall k {:trigger Next(run, k)} :: 0 <= k < |run| - 1 ==> Next(run, k)
  }

  ghost predicate Next(run: seq<Sched>, k: int)
    requires 0 <= k < |run| - 1
  { Mid(run[k + 1]) && (InTurn(run[k], run[k + 1]) || Cuts(run[k], run[k + 1])) }

  /** Some task is preempted in favour of another. */
  ghost predicate Cuts(s: Sched, r: Sched) { exists t {:trigger Preempted(s, r, t)} :: Preempted(s, r, t) }

  ghost predicate InTurn(s: Sched, r: Sched) { Switched(s, r) || Calm(s, r) }

  /** There is no preemption between index i and index k. */
  ghost predicate Unpreempted(run: seq<Sched>, i: int, k: int)
    requires 0 <= i <= k < |run|
  { forall j {:trigger run[j]} :: i <= j < k ==> InTurn(run[j], run[j + 1]) }

  /** How many calls of PsSwitchTask there are before index k. */
  ghost function Switches(run: seq<Sched>, k: int): (n: nat)
    requires 0 <= k < |run|
    ensures n <= k
  {
    if k == 0 then 0 else Switches(run, k - 1) + if Switched(run[k - 1], run[k]) then 1 else 0
  }

  lemma RunIsMid(run: seq<Sched>, k: int)
    requires Run(run) && 0 <= k < |run|
    ensures Mid(run[k])
  {
    if k > 0 { assert Next(run, k - 1); }
  }

  ghost predicate RunsBetween(run: seq<Sched>, t: int, i: int, k: int)
    requires 0 <= i <= k < |run|
  { exists j :: i < j <= k && run[j].current == t }

  /** A ready task runs within MaxProc calls of PsSwitchTask, counted from any time since which nothing was
      preempted. */
  lemma {:induction false} ReadyTaskRuns(run: seq<Sched>, t: int, i: int, k: int)
    requires Run(run) && 0 <= i <= k < |run| && Waits(run[i], t) && Unpreempted(run, i, k)
    ensures RunsBetween(run, t, i, k)
            || (Waits(run[k], t) && Switches(run, k) - Switches(run, i) + Distance(run[k], t) <= Distance(run[i], t))
    ensures Switches(run, k) - Switches(run, i) >= MAX_PROC ==> RunsBetween(run, t, i, k)
    decreases k
  {
    hide Switched, Calm, Mid, Waits;
    if k > i {
      ReadyTaskRuns(run, t, i, k - 1);
      assert Next(run, k - 1);
      if Waits(run[k - 1], t)
         && Switches(run, k - 1) - Switches(run, i) + Distance(run[k - 1], t) <= Distance(run[i], t) {
        RunIsMid(run, k - 1);
        if Switched(run[k - 1], run[k]) {
          SwitchBringsNearer(run[k - 1], run[k], t);
        } else {
          CalmKeeps(run[k - 1], run[k], t);
        }
      }
    }
    RunIsMid(run, i);
    DistanceBound(run[i], t);
    RunIsMid(run, k);
    if Waits(run[k], t) { DistanceBound(run[k], t); }
  }

  lemma CalmKeeps(s: Sched, r: Sched, t: int)
    requires Calm(s, r) && Waits(s, t)
    ensures Waits(r, t) && Distance(r, t) == Distance(s, t)
  {
  }

  lemma DistanceBound(s: Sched, t: int)
    requires Mid(s) && Waits(s, t)
    ensures 1 <= Distance(s, t) < MAX_PROC
  {
    assert Slot(s.slots, Get(s.tasks, t).tid) == t;
    assert Slot(s.slots, s.num) == s.current;
  }

  ghost predicate OnTimer(s: Sched, t: int) { t in s.tasks && s.tasks[t].state == SleepTimer }

  /** A task that stays on the timer from index i to index k: there are less than 101 calls of PsSwitchTask in between,
      whatever the other tasks and the interrupts do. */
  lemma {:induction false} TimerSleeperWakes(run: seq<Sched>, t: int, i: int, k: int)
    requires Run(run) && 0 <= i <= k < |run|
    requires forall j {:trigger OnTimer(run[j], t)} :: i <= j <= k ==> OnTimer(run[j], t)
    ensures run[k].timer == run[i].timer + Switches(run, k) - Switches(run, i) <= TICKS
    ensures Switches(run, k) - Switches(run, i) < 101
    decreases k
  {
    hide Mid, Calm, Waits, Queued;
    RunIsMid(run, i);
    MidParts(run[i]);
    if k > i {
      TimerSleeperWakes(run, t, i, k - 1);
      assert Next(run, k - 1) && OnTimer(run[k - 1], t) && OnTimer(run[k], t);
      if Switched(run[k - 1], run[k]) {
        assert TasksSwitched(run[k - 1], run[k]);
        assert Get(run[k].tasks, t).state == SleepTimer;
      } else {
        CalmTimer(run[k - 1], run[k]);
      }
    }
  }

  lemma CalmTimer(s: Sched, r: Sched)
    ensures Calm(s, r) ==> r.timer == s.timer
  {
  }
}
