/** The semaphores of kernel/sem.c over the queues of kernel/queue.c, and what every operation on them keeps. */
module SemStates {
  import opened Lists
  import opened Resources
  import opened SchedulerStates

  datatype Semaphore = Semaphore(queue: int, count: int)

  datatype WaitQueue = WaitQueue(count: int, limit: int, head: int, tail: int)

  datatype Node = Node(next: int, prev: int, data: int, dsize: int)

  ghost function GetNode(nodes: map<int, Node>, n: int): Node { if n in nodes then nodes[n] else Node(0, 0, 0, 0) }

  ghost function GetQueue(queues: map<int, WaitQueue>, q: int): WaitQueue
  { if q in queues then queues[q] else WaitQueue(0, 0, 0, 0) }

  ghost function GetSem(sems: map<int, Semaphore>, s: int): Semaphore { if s in sems then sems[s] else Semaphore(0, 0) }

  ghost function Lookup(f: map<int, int>, x: int): int { if x in f then f[x] else 0 }

  ghost function WaitOf(wait: map<int, seq<int>>, s: int): seq<int> { if s in wait then wait[s] else [] }

  // ----- queues of nodes; only the next chain is used, since queue_addTail stores the head in prev -----

  ghost predicate Linked(nodes: map<int, Node>, W: seq<int>) {
    forall i {:trigger W[i]} :: 0 <= i < |W| ==> W[i] != 0 && W[i] in nodes && GetNode(nodes, W[i]).next == At(W, i + 1)
  }

  ghost predicate AtHome(home: map<int, int>, W: seq<int>, s: int) {
    forall i {:trigger W[i]} :: 0 <= i < |W| ==> Lookup(home, W[i]) == s
  }

  ghost predicate Holds(k: WaitQueue, nodes: map<int, Node>, home: map<int, int>, W: seq<int>, s: int) {
    && k.count == |W| && k.head == At(W, 0) && k.tail == At(W, |W| - 1)
    && Linked(nodes, W) && Distinct(W) && AtHome(home, W, s)
  }

  /** queue_addTail: the nodes once n is linked behind W. */
  ghost function Enqueued(nodes: map<int, Node>, W: seq<int>, n: int, data: int, dsize: int): map<int, Node> {
    if |W| == 0 then nodes[n := Node(0, 0, data, dsize)]
    else
      var more := nodes[n := Node(0, W[0], data, dsize)];
      more[W[|W| - 1] := GetNode(more, W[|W| - 1]).(next := n)]
  }

  /** queue_removeHead: the nodes once the first of W is gone. */
  ghost function Dequeued(nodes: map<int, Node>, W: seq<int>): map<int, Node> {
    (if |W| < 2 then nodes else nodes[W[1] := GetNode(nodes, W[1]).(prev := 0)]) - {At(W, 0)}
  }

  ghost function LongerQueue(k: WaitQueue, n: int): WaitQueue {
    k.(head := if k.head == 0 then n else k.head, tail := n, count := k.count + 1)
  }

  ghost function ShorterQueue(k: WaitQueue, next: int): WaitQueue {
    k.(head := next, tail := if next == 0 then 0 else k.tail, count := k.count - 1)
  }

  lemma EnqueueLinked(nodes: map<int, Node>, W: seq<int>, n: int, data: int, dsize: int, r: map<int, Node>)
    requires Linked(nodes, W) && Distinct(W) && n !in nodes && n != 0 && r == Enqueued(nodes, W, n, data, dsize)
    ensures Linked(r, W + [n]) && Distinct(W + [n]) && r.Keys == nodes.Keys + {n} && GetNode(r, n).data == data
    ensures forall x {:trigger GetNode(r, x)} :: x in nodes ==> GetNode(r, x).data == GetNode(nodes, x).data
    ensures forall x {:trigger GetNode(r, x)} ::
      x in nodes && x != At(W, |W| - 1) ==> GetNode(r, x) == GetNode(nodes, x)
  {
    var M := W + [n];
    assert |W| > 0 ==> W[|W| - 1] in nodes;
    forall i {:trigger M[i]} | 0 <= i < |M| ensures M[i] != 0 && M[i] in r && GetNode(r, M[i]).next == At(M, i + 1) {
      if i < |W| {
        assert M[i] == W[i];
        if i < |W| - 1 { assert W[i] != W[|W| - 1]; }
      }
    }
    forall i, j | 0 <= i < j < |M| ensures M[i] != M[j] {
      assert M[i] == W[i];
      if j < |W| { assert M[j] == W[j]; }
    }
  }

  /** The other queues share no node with this one. */
  lemma OtherLinked(nodes: map<int, Node>, W: seq<int>, r: map<int, Node>, home: map<int, int>, s: int, x: int)
    requires Linked(nodes, W) && AtHome(home, W, s) && nodes.Keys <= r.Keys && (x == 0 || Lookup(home, x) != s)
    requires forall y {:trigger GetNode(r, y)} :: y in nodes && y != x ==> GetNode(r, y) == GetNode(nodes, y)
    ensures Linked(r, W)
  {
    forall i {:trigger W[i]} | 0 <= i < |W| ensures W[i] != 0 && W[i] in r && GetNode(r, W[i]).next == At(W, i + 1) {
      assert Lookup(home, W[i]) == s;
    }
  }

  lemma NewHome(home: map<int, int>, nodes: map<int, Node>, W: seq<int>, s: int, n: int, t: int)
    requires AtHome(home, W, s) && Linked(nodes, W) && n !in nodes
    ensures AtHome(home[n := t], W, s) && AtHome(home[n := s], W + [n], s)
  {
    var M, h, g := W + [n], home[n := s], home[n := t];
    forall i {:trigger M[i]} | 0 <= i < |M| ensures Lookup(h, M[i]) == s {
      if i < |W| { assert M[i] == W[i]; }
    }
    forall i {:trigger W[i]} | 0 <= i < |W| ensures Lookup(g, W[i]) == s {
      assert W[i] in nodes;
    }
  }

  lemma Ends(nodes: map<int, Node>, home: map<int, int>, W: seq<int>, s: int)
    requires AtHome(home, W, s) && Linked(nodes, W) && Distinct(W)
    ensures |W| > 0 ==> W[|W| - 1] != 0 && W[|W| - 1] in nodes && Lookup(home, W[|W| - 1]) == s
    ensures |W| > 0 ==> W[0] != 0 && W[0] in nodes && GetNode(nodes, W[0]).next == At(W, 1) && Lookup(home, W[0]) == s
    ensures |W| > 1 ==> W[1] != 0 && W[1] in nodes && Lookup(home, W[1]) == s && W[1] != W[0]
    ensures |W| > 0 ==> (W[0] == W[|W| - 1] <==> |W| == 1)
  {
  }

  lemma DequeueLinked(nodes: map<int, Node>, home: map<int, int>, W: seq<int>, s: int, r: map<int, Node>)
    requires Linked(nodes, W) && Distinct(W) && AtHome(home, W, s) && |W| > 0 && r == Dequeued(nodes, W)
    ensures Linked(r, W[1..]) && Distinct(W[1..]) && AtHome(home, W[1..], s) && r.Keys == nodes.Keys - {W[0]}
    ensures forall x {:trigger GetNode(r, x)} ::
      x in r ==> GetNode(r, x) == GetNode(nodes, x).(prev := GetNode(r, x).prev)
  {
    hide AtHome;
    Ends(nodes, home, W, s);
    var M := W[1..];
    assert r.Keys == nodes.Keys - {W[0]};
    forall x {:trigger GetNode(r, x)} | x in r ensures GetNode(r, x) == GetNode(nodes, x).(prev := GetNode(r, x).prev) {
      assert x in nodes.Keys;
    }
    forall i {:trigger M[i]} | 0 <= i < |M| ensures M[i] != 0 && M[i] in r && GetNode(r, M[i]).next == At(M, i + 1) {
      assert M[i] == W[i + 1];
      assert M[i] in nodes.Keys && M[i] != W[0];
    }
    assert forall i :: 0 <= i < |M| ==> M[i] == W[i + 1];
    TailAtHome(home, W, s);
  }

  lemma TailAtHome(home: map<int, int>, W: seq<int>, s: int)
    requires AtHome(home, W, s) && |W| > 0
    ensures AtHome(home, W[1..], s)
  {
    forall i {:trigger W[1..][i]} | 0 <= i < |W| - 1 ensures Lookup(home, W[1..][i]) == s {
      assert W[1..][i] == W[i + 1];
    }
  }

  lemma RemovedElsewhere(nodes: map<int, Node>, W: seq<int>, r: map<int, Node>, home: map<int, int>, s: int, n: int)
    requires Linked(nodes, W) && AtHome(home, W, s) && r.Keys == nodes.Keys - {n} && Lookup(home, n) != s
    requires forall x {:trigger GetNode(r, x)} ::
      x in r ==> GetNode(r, x) == GetNode(nodes, x).(prev := GetNode(r, x).prev)
    ensures Linked(r, W)
  {
    forall i {:trigger W[i]} | 0 <= i < |W| ensures W[i] != 0 && W[i] in r && GetNode(r, W[i]).next == At(W, i + 1) {
      assert Lookup(home, W[i]) == s;
      assert W[i] in nodes.Keys;
      assert W[i] in r.Keys;
    }
  }

  // ----- semaphores -----

  /** The structures by address; for each semaphore the nodes that wait on it, its identifier, its initial count and how
      many acquires were completed and releases made; and the semaphore of each queue and node, and the node of each
      waiting task. */
  datatype SemState = SemState(sems: map<int, Semaphore>, queues: map<int, WaitQueue>, nodes: map<int, Node>,
                               wait: map<int, seq<int>>, owner: map<int, int>, home: map<int, int>,
                                 nodeOf: map<int, int>,
                               ids: map<int, int>, start: map<int, int>, done: map<int, int>, given: map<int, int>)

  ghost predicate SemOk(s: SemState, x: int) {
    var k, W := GetSem(s.sems, x), WaitOf(s.wait, x);
    x in s.sems && k.queue in s.queues && Lookup(s.owner, k.queue) == x
      && Holds(GetQueue(s.queues, k.queue), s.nodes, s.home, W, x)
  }

  ghost predicate Counted(s: SemState, x: int) {
    var k, W := GetSem(s.sems, x), WaitOf(s.wait, x);
    && Lookup(s.done, x) - Lookup(s.given, x) == Lookup(s.start, x) - k.count - |W|
    && (Lookup(s.start, x) >= 0 ==> |W| == if k.count < 0 then -k.count else 0)
  }

  /** Every queue belongs to a semaphore and every node is in a queue. */
  ghost predicate NothingStray(s: SemState) {
    && (forall q {:trigger q in s.queues} :: q in s.queues ==>
       Lookup(s.owner, q) in s.sems && GetSem(s.sems, Lookup(s.owner, q)).queue == q)
    && forall n {:trigger n in s.nodes} ::
       n in s.nodes ==> Lookup(s.home, n) in s.sems && n in WaitOf(s.wait, Lookup(s.home, n))
  }

  /** The task of node n is asleep on the node's semaphore. */
  ghost predicate Asleep(s: SemState, tasks: map<int, Task>, n: int) {
    var t := GetNode(s.nodes, n).data;
    && t in tasks && tasks[t].state == SleepSem && tasks[t].sleepingOn == IdOf(s.ids, Lookup(s.home, n))
    && Lookup(s.nodeOf, t) == n
  }

  ghost predicate HasNode(s: SemState, t: int) {
    var n := Lookup(s.nodeOf, t);
    n in s.nodes && GetNode(s.nodes, n).data == t
  }

  /** The tasks asleep on a semaphore are exactly those whose nodes are queued. */
  ghost predicate WaitersOk(s: SemState, tasks: map<int, Task>) {
    && (forall n {:trigger n in s.nodes} :: n in s.nodes ==> Asleep(s, tasks, n))
    && forall t {:trigger t in tasks} :: t in tasks && tasks[t].state == SleepSem ==> HasNode(s, t)
  }

  ghost predicate SemsOk(B: map<int, Binding>, s: SemState, tasks: map<int, Task>) {
    && s.sems.Keys == s.wait.Keys && 0 !in s.sems && Named(B, RSRC_SEM, s.sems.Keys, s.ids)
    && NothingStray(s) && WaitersOk(s, tasks) && EachOk(s)
  }

  ghost predicate EachOk(s: SemState) {
    forall x {:trigger SemOk(s, x)} {:trigger Counted(s, x)} :: x in s.sems ==> SemOk(s, x) && Counted(s, x)
  }

  ghost function TaskOf(nodes: map<int, Node>, n: int): int { GetNode(nodes, n).data }

  /** The tasks that wait on semaphore x, longest wait first. */
  ghost function Waiters(s: SemState, x: int): (T: seq<int>)
    ensures |T| == |WaitOf(s.wait, x)|
      && forall i {:trigger T[i]} :: 0 <= i < |T| ==> T[i] == TaskOf(s.nodes, WaitOf(s.wait, x)[i])
  { seq(|WaitOf(s.wait, x)|, i requires 0 <= i < |WaitOf(s.wait, x)| => TaskOf(s.nodes, WaitOf(s.wait, x)[i])) }

  ghost function SemCreated(s: SemState, x: int, q: int, n: int, id: int): SemState {
    s.(sems := s.sems[x := Semaphore(q, n)], queues := s.queues[q := WaitQueue(0, 0, 0, 0)], wait := s.wait[x := []],
       owner := s.owner[q := x], ids := s.ids[x := id], start := s.start[x := n], done := s.done[x := 0],
         given := s.given[x := 0])
  }

  /** An acquire that need not wait. */
  ghost function Passed(s: SemState, x: int): SemState {
    s.(sems := s.sems[x := GetSem(s.sems, x).(count := GetSem(s.sems, x).count - 1)],
        done := s.done[x := Lookup(s.done, x) + 1])
  }

  /** An acquire by task t that waits, with node n. */
  ghost function Waited(s: SemState, x: int, n: int, t: int): SemState {
    var k, W := GetSem(s.sems, x), WaitOf(s.wait, x);
    s.(sems := s.sems[x := k.(count := k.count - 1)], queues :=
      s.queues[k.queue := LongerQueue(GetQueue(s.queues, k.queue), n)],
       nodes := Enqueued(s.nodes, W, n, t, 0), wait := s.wait[x := W + [n]], home := s.home[n := x],
         nodeOf := s.nodeOf[t := n])
  }

  /** A release when no task waits. */
  ghost function Raised(s: SemState, x: int): SemState {
    s.(sems := s.sems[x := GetSem(s.sems, x).(count := GetSem(s.sems, x).count + 1)],
        given := s.given[x := Lookup(s.given, x) + 1])
  }

  /** A release that completes the acquire of the first waiter. */
  ghost function Handed(s: SemState, x: int): SemState {
    var k, W := GetSem(s.sems, x), WaitOf(s.wait, x);
    s.(sems := s.sems[x := k.(count := k.count + 1)], queues :=
      s.queues[k.queue := ShorterQueue(GetQueue(s.queues, k.queue), At(W, 1))],
       nodes := Dequeued(s.nodes, W), wait := s.wait[x := if |W| > 0 then W[1..] else W],
       done := s.done[x := Lookup(s.done, x) + 1], given := s.given[x := Lookup(s.given, x) + 1])
  }

  lemma SemCreateKeeps(B: map<int, Binding>, s: SemState, tasks: map<int, Task>, x: int, q: int, n: int, id: int,
                       B': map<int, Binding>)
    requires SemsOk(B, s, tasks) && x !in s.sems && q !in s.queues && x != 0
    requires if id == 0 then B' == B else id !in B && B' == B[id := Binding(RSRC_SEM, x)]
    ensures SemsOk(B', SemCreated(s, x, q, n, id), tasks)
  {
    hide NothingStray, WaitersOk, EachOk, Named;
    var r := SemCreated(s, x, q, n, id);
    NewName(B, RSRC_SEM, s.sems.Keys, s.ids, x, id, B');
    assert r.sems.Keys == s.sems.Keys + {x};
    CreateEach(s, x, q, n, id);
    CreateStray(s, tasks, x, q, n, id);
  }

  lemma CreateEach(s: SemState, x: int, q: int, n: int, id: int)
    requires EachOk(s) && x !in s.sems && q !in s.queues
    ensures EachOk(SemCreated(s, x, q, n, id))
  {
    hide Holds;
    var r := SemCreated(s, x, q, n, id);
    EmptyHolds(r.nodes, r.home, x);
    forall y {:trigger SemOk(r, y)} | y in r.sems ensures SemOk(r, y) && Counted(r, y) {
      if y != x {
        assert y in s.sems;
        assert SemOk(s, y) && Counted(s, y);
        assert WaitOf(r.wait, y) == WaitOf(s.wait, y) && GetSem(r.sems, y) == GetSem(s.sems, y);
      } else {
        assert WaitOf(r.wait, x) == [] && GetSem(r.sems, x) == Semaphore(q, n);
      }
    }
  }

  lemma CreateStray(s: SemState, tasks: map<int, Task>, x: int, q: int, n: int, id: int)
    requires NothingStray(s) && WaitersOk(s, tasks) && x !in s.sems && q !in s.queues
    ensures NothingStray(SemCreated(s, x, q, n, id)) && WaitersOk(SemCreated(s, x, q, n, id), tasks)
  {
    var r := SemCreated(s, x, q, n, id);
    forall p {:trigger p in r.queues} | p in r.queues
      ensures Lookup(r.owner, p) in r.sems && GetSem(r.sems, Lookup(r.owner, p)).queue == p
    {
      if p != q { assert p in s.queues; }
    }
    forall m {:trigger m in r.nodes} | m in r.nodes
      ensures Lookup(r.home, m) in r.sems && m in WaitOf(r.wait, Lookup(r.home, m)) && Asleep(r, tasks, m)
    {
      assert m in s.nodes && Asleep(s, tasks, m);
    }
    forall t {:trigger t in tasks} | t in tasks && tasks[t].state == SleepSem ensures HasNode(r, t) {
      assert HasNode(s, t);
    }
  }

  lemma EmptyHolds(nodes: map<int, Node>, home: map<int, int>, x: int)
    ensures Holds(WaitQueue(0, 0, 0, 0), nodes, home, [], x)
  {
  }

  /** Changing the count of a semaphore without touching its queue. */
  lemma CountKeeps(B: map<int, Binding>, s: SemState, tasks: map<int, Task>, x: int, r: SemState)
    requires SemsOk(B, s, tasks) && x in s.sems && Counted(r, x)
    requires r == s.(sems := r.sems, done := r.done, given := r.given) && r.sems.Keys == s.sems.Keys
    requires forall y {:trigger GetSem(r.sems, y)} :: GetSem(r.sems, y).queue == GetSem(s.sems, y).queue
    requires forall y {:trigger Counted(r, y)} :: y != x && y in s.sems && Counted(s, y) ==> Counted(r, y)
    ensures SemsOk(B, r, tasks)
  {
    hide Linked, Distinct, AtHome, Counted;
    forall y {:trigger SemOk(r, y)} | y in r.sems ensures SemOk(r, y) && Counted(r, y) {
      assert y in s.sems.Keys;
      assert SemOk(s, y) && Counted(s, y);
      assert GetSem(r.sems, y).queue == GetSem(s.sems, y).queue;
    }
    forall p {:trigger p in r.queues} | p in r.queues
      ensures Lookup(r.owner, p) in r.sems && GetSem(r.sems, Lookup(r.owner, p)).queue == p
    {
      assert p in s.queues;
      assert Lookup(s.owner, p) in s.sems.Keys;
    }
    forall m {:trigger m in r.nodes} | m in r.nodes
      ensures Lookup(r.home, m) in r.sems && m in WaitOf(r.wait, Lookup(r.home, m)) && Asleep(r, tasks, m)
    {
      assert m in s.nodes && Asleep(s, tasks, m);
      assert Lookup(s.home, m) in s.sems.Keys;
    }
    forall t {:trigger t in tasks} | t in tasks && tasks[t].state == SleepSem ensures HasNode(r, t) {
      assert HasNode(s, t);
    }
  }

  lemma PassKeeps(B: map<int, Binding>, s: SemState, tasks: map<int, Task>, x: int)
    requires SemsOk(B, s, tasks) && x in s.sems && s.sems[x].count > 0
    ensures SemsOk(B, Passed(s, x), tasks)
  {
    hide WaitersOk, NothingStray, SemOk;
    var r := Passed(s, x);
    assert Counted(s, x);
    CountKeeps(B, s, tasks, x, r);
  }

  lemma RaiseKeeps(B: map<int, Binding>, s: SemState, tasks: map<int, Task>, x: int)
    requires SemsOk(B, s, tasks) && x in s.sems && |WaitOf(s.wait, x)| == 0
    ensures SemsOk(B, Raised(s, x), tasks)
  {
    hide WaitersOk, NothingStray, SemOk;
    var r := Raised(s, x);
    assert Counted(s, x);
    CountKeeps(B, s, tasks, x, r);
  }

  /** The task t goes to sleep on x at the end of its queue. */
  lemma WaitKeeps(B: map<int, Binding>, s: SemState, tasks: map<int, Task>, x: int, n: int, t: int,
                  tasks': map<int, Task>)
    requires SemsOk(B, s, tasks) && x in s.sems && s.sems[x].count <= 0 && n !in s.nodes && n != 0
    requires t in tasks && tasks[t].state != SleepSem
    requires tasks' == tasks[t := tasks[t].(sleepingOn := IdOf(s.ids, x), state := SleepSem)]
    ensures SemsOk(B, Waited(s, x, n, t), tasks') && Waiters(Waited(s, x, n, t), x) == Waiters(s, x) + [t]
    ensures forall y {:trigger Waiters(Waited(s, x, n, t), y)} ::
      y in s.sems && y != x ==> Waiters(Waited(s, x, n, t), y) == Waiters(s, y)
  {
    hide Enqueued, NothingStray, WaitersOk, SemOk, Counted, Named;
    var r := Waited(s, x, n, t);
    assert SemOk(s, x);
    WaitEach(s, x, n, t);
    WaitStray(s, x, n, t);
    WaitWaiters(s, tasks, x, n, t, tasks');
    assert r.sems.Keys == s.sems.Keys;
    forall y | y in s.sems ensures Waiters(r, y) == if y == x then Waiters(s, y) + [t] else Waiters(s, y) {
      assert SemOk(s, y);
      WaitNames(s, x, n, t, y);
    }
  }

  lemma WaitEach(s: SemState, x: int, n: int, t: int)
    requires EachOk(s) && x in s.sems && s.sems[x].count <= 0 && n !in s.nodes && n != 0
    ensures EachOk(Waited(s, x, n, t))
  {
    hide Enqueued, Holds;
    var r := Waited(s, x, n, t);
    assert SemOk(s, x);
    WaitHolds(s, x, n, t);
    assert |WaitOf(r.wait, x)| == |WaitOf(s.wait, x)| + 1;
    forall y {:trigger SemOk(r, y)} | y in r.sems ensures SemOk(r, y) && Counted(r, y) {
      assert SemOk(s, y) && Counted(s, y);
      if y != x {
        WaitHoldsElsewhere(s, x, n, t, y);
      }
    }
  }

  lemma WaitHolds(s: SemState, x: int, n: int, t: int)
    requires SemOk(s, x) && n !in s.nodes && n != 0
    ensures var r := Waited(s, x, n, t);
      Holds(GetQueue(r.queues, GetSem(r.sems, x).queue), r.nodes, r.home, WaitOf(r.wait, x), x)
    ensures Waited(s, x, n, t).nodes.Keys == s.nodes.Keys + {n}
    ensures forall y {:trigger GetNode(Waited(s, x, n, t).nodes, y)} ::
      y in s.nodes ==> GetNode(Waited(s, x, n, t).nodes, y).data == GetNode(s.nodes, y).data
    ensures GetNode(Waited(s, x, n, t).nodes, n).data == t
  {
    hide Linked, Distinct, AtHome, Enqueued;
    var r, W := Waited(s, x, n, t), WaitOf(s.wait, x);
    EnqueueLinked(s.nodes, W, n, t, 0, r.nodes);
    NewHome(s.home, s.nodes, W, x, n, x);
    Ends(s.nodes, s.home, W, x);
  }

  lemma WaitHoldsElsewhere(s: SemState, x: int, n: int, t: int, y: int)
    requires SemOk(s, x) && SemOk(s, y) && x != y && n !in s.nodes && n != 0
    ensures var r := Waited(s, x, n, t);
      Holds(GetQueue(r.queues, GetSem(r.sems, y).queue), r.nodes, r.home, WaitOf(r.wait, y), y)
  {
    hide Linked, Distinct, AtHome, Enqueued;
    var r, W := Waited(s, x, n, t), WaitOf(s.wait, x);
    EnqueueLinked(s.nodes, W, n, t, 0, r.nodes);
    NewHome(s.home, s.nodes, WaitOf(s.wait, y), y, n, x);
    Ends(s.nodes, s.home, W, x);
    OtherLinked(s.nodes, WaitOf(s.wait, y), r.nodes, s.home, y, At(W, |W| - 1));
  }

  lemma WaitStray(s: SemState, x: int, n: int, t: int)
    requires NothingStray(s) && SemOk(s, x) && n !in s.nodes && n != 0
    ensures NothingStray(Waited(s, x, n, t))
  {
    hide Linked, Distinct, AtHome, Enqueued, Holds;
    var r, W := Waited(s, x, n, t), WaitOf(s.wait, x);
    WaitHolds(s, x, n, t);
    assert (W + [n])[|W|] == n;
    forall m {:trigger m in r.nodes} | m in r.nodes
      ensures Lookup(r.home, m) in r.sems && m in WaitOf(r.wait, Lookup(r.home, m))
    {
      assert m in r.nodes.Keys;
      if m != n { assert m in s.nodes; }
    }
    forall p {:trigger p in r.queues} | p in r.queues
      ensures Lookup(r.owner, p) in r.sems && GetSem(r.sems, Lookup(r.owner, p)).queue == p
    {
      assert p in s.queues;
    }
  }

  lemma WaitWaiters(s: SemState, tasks: map<int, Task>, x: int, n: int, t: int, tasks': map<int, Task>)
    requires WaitersOk(s, tasks) && SemOk(s, x) && n !in s.nodes && n != 0 && t in tasks && tasks[t].state != SleepSem
    requires tasks' == tasks[t := tasks[t].(sleepingOn := IdOf(s.ids, x), state := SleepSem)]
    ensures WaitersOk(Waited(s, x, n, t), tasks')
  {
    hide Linked, Distinct, AtHome, Enqueued, Holds;
    var r := Waited(s, x, n, t);
    WaitHolds(s, x, n, t);
    forall m {:trigger m in r.nodes} | m in r.nodes ensures Asleep(r, tasks', m) {
      assert m in r.nodes.Keys;
      if m != n { assert m in s.nodes && Asleep(s, tasks, m); }
    }
    forall u {:trigger u in tasks'} | u in tasks' && tasks'[u].state == SleepSem ensures HasNode(r, u) {
      assert n in r.nodes.Keys;
      if u != t {
        assert u in tasks && HasNode(s, u);
        assert Lookup(s.nodeOf, u) in r.nodes.Keys;
      }
    }
  }

  lemma WaitNames(s: SemState, x: int, n: int, t: int, y: int)
    requires SemOk(s, x) && SemOk(s, y) && n !in s.nodes && n != 0
    ensures Waiters(Waited(s, x, n, t), y) == if y == x then Waiters(s, y) + [t] else Waiters(s, y)
  {
    hide Distinct, AtHome, Enqueued;
    var r, W := Waited(s, x, n, t), WaitOf(s.wait, y);
    WaitHolds(s, x, n, t);
    forall i | 0 <= i < |W| ensures TaskOf(r.nodes, W[i]) == TaskOf(s.nodes, W[i]) {
      assert W[i] in s.nodes;
      assert GetNode(r.nodes, W[i]).data == GetNode(s.nodes, W[i]).data;
    }
  }

  /** A release with waiters wakes the one that has waited longest, and completes its acquire. */
  lemma HandKeeps(B: map<int, Binding>, s: SemState, tasks: map<int, Task>, x: int, tasks': map<int, Task>)
    requires SemsOk(B, s, tasks) && x in s.sems && |WaitOf(s.wait, x)| > 0
    requires var t := Waiters(s, x)[0]; t in tasks && tasks' == tasks[t := tasks[t].(state := Ready)]
    ensures SemsOk(B, Handed(s, x), tasks') && Waiters(s, x) == [Waiters(s, x)[0]] + Waiters(Handed(s, x), x)
    ensures forall y {:trigger Waiters(Handed(s, x), y)} ::
      y in s.sems && y != x ==> Waiters(Handed(s, x), y) == Waiters(s, y)
  {
    hide Dequeued, NothingStray, WaitersOk, SemOk, Counted, Named;
    var r := Handed(s, x);
    assert SemOk(s, x);
    HandEach(s, x);
    HandStray(s, x);
    HandWaiters(s, tasks, x, tasks');
    assert r.sems.Keys == s.sems.Keys;
    HandNames(s, x, x);
    forall y {:trigger Waiters(r, y)} | y in s.sems && y != x ensures Waiters(r, y) == Waiters(s, y) {
      assert SemOk(s, y);
      HandNames(s, x, y);
    }
  }

  lemma HandHolds(s: SemState, x: int)
    requires SemOk(s, x) && |WaitOf(s.wait, x)| > 0
    ensures var r := Handed(s, x);
      Holds(GetQueue(r.queues, GetSem(r.sems, x).queue), r.nodes, r.home, WaitOf(r.wait, x), x)
    ensures var W, r := WaitOf(s.wait, x), Handed(s, x);
      r.nodes.Keys == s.nodes.Keys - {W[0]} && W[0] in s.nodes && Lookup(s.home, W[0]) == x
      && forall y {:trigger GetNode(r.nodes, y)} ::
         y in r.nodes ==> GetNode(r.nodes, y) == GetNode(s.nodes, y).(prev := GetNode(r.nodes, y).prev)
  {
    hide Linked, Distinct, AtHome, Dequeued;
    var r, W := Handed(s, x), WaitOf(s.wait, x);
    DequeueLinked(s.nodes, s.home, W, x, r.nodes);
    Ends(s.nodes, s.home, W, x);
  }

  lemma HandHoldsElsewhere(s: SemState, x: int, y: int)
    requires SemOk(s, x) && SemOk(s, y) && x != y && |WaitOf(s.wait, x)| > 0
    ensures var r := Handed(s, x);
      Holds(GetQueue(r.queues, GetSem(r.sems, y).queue), r.nodes, r.home, WaitOf(r.wait, y), y)
  {
    hide Linked, Distinct, AtHome, Dequeued;
    var r, W := Handed(s, x), WaitOf(s.wait, x);
    DequeueLinked(s.nodes, s.home, W, x, r.nodes);
    Ends(s.nodes, s.home, W, x);
    RemovedElsewhere(s.nodes, WaitOf(s.wait, y), r.nodes, s.home, y, W[0]);
  }

  lemma HandEach(s: SemState, x: int)
    requires EachOk(s) && x in s.sems && |WaitOf(s.wait, x)| > 0
    ensures EachOk(Handed(s, x))
  {
    hide Dequeued, Holds;
    var r := Handed(s, x);
    assert SemOk(s, x);
    HandHolds(s, x);
    assert |WaitOf(r.wait, x)| == |WaitOf(s.wait, x)| - 1;
    forall y {:trigger SemOk(r, y)} | y in r.sems ensures SemOk(r, y) && Counted(r, y) {
      assert SemOk(s, y) && Counted(s, y);
      if y != x {
        HandHoldsElsewhere(s, x, y);
      }
    }
  }

  lemma HandStray(s: SemState, x: int)
    requires NothingStray(s) && SemOk(s, x) && |WaitOf(s.wait, x)| > 0
    ensures NothingStray(Handed(s, x))
  {
    hide Linked, Distinct, AtHome, Dequeued, Holds;
    var r, W := Handed(s, x), WaitOf(s.wait, x);
    HandHolds(s, x);
    assert W == [W[0]] + W[1..];
    forall m {:trigger m in r.nodes} | m in r.nodes
      ensures Lookup(r.home, m) in r.sems && m in WaitOf(r.wait, Lookup(r.home, m))
    {
      assert m in r.nodes.Keys;
      assert m in s.nodes;
    }
    forall p {:trigger p in r.queues} | p in r.queues
      ensures Lookup(r.owner, p) in r.sems && GetSem(r.sems, Lookup(r.owner, p)).queue == p
    {
      assert p in s.queues;
    }
  }

  lemma HandWaiters(s: SemState, tasks: map<int, Task>, x: int, tasks': map<int, Task>)
    requires WaitersOk(s, tasks) && SemOk(s, x) && |WaitOf(s.wait, x)| > 0
    requires var t := TaskOf(s.nodes, WaitOf(s.wait, x)[0]);
      t in tasks && tasks' == tasks[t := tasks[t].(state := Ready)]
    ensures WaitersOk(Handed(s, x), tasks')
  {
    hide Linked, Distinct, AtHome, Dequeued, Holds;
    var r, n := Handed(s, x), WaitOf(s.wait, x)[0];
    var t := TaskOf(s.nodes, n);
    HandHolds(s, x);
    assert Asleep(s, tasks, n);
    forall m {:trigger m in r.nodes} | m in r.nodes ensures Asleep(r, tasks', m) {
      assert m in r.nodes.Keys;
      assert m in s.nodes && Asleep(s, tasks, m);
    }
    forall u {:trigger u in tasks'} | u in tasks' && tasks'[u].state == SleepSem ensures HasNode(r, u) {
      assert u in tasks && HasNode(s, u);
      assert Lookup(s.nodeOf, u) in r.nodes.Keys;
    }
  }

  /** The names of waiters in a chain that survives. */
  lemma SameNames(nodes: map<int, Node>, M: seq<int>, r: map<int, Node>)
    requires Linked(r, M)
    requires forall y {:trigger GetNode(r, y)} ::
      y in r ==> GetNode(r, y) == GetNode(nodes, y).(prev := GetNode(r, y).prev)
    ensures forall i {:trigger M[i]} :: 0 <= i < |M| ==> TaskOf(r, M[i]) == TaskOf(nodes, M[i])
  {
    forall i {:trigger M[i]} | 0 <= i < |M| ensures TaskOf(r, M[i]) == TaskOf(nodes, M[i]) {
      assert M[i] in r;
      assert GetNode(r, M[i]).data == GetNode(nodes, M[i]).data;
    }
  }

  lemma HandNames(s: SemState, x: int, y: int)
    requires SemOk(s, x) && SemOk(s, y) && |WaitOf(s.wait, x)| > 0
    ensures if y == x then Waiters(s, x) == [Waiters(s, x)[0]] + Waiters(Handed(s, x), x)
            else Waiters(Handed(s, x), y) == Waiters(s, y)
  {
    hide Linked, Distinct, AtHome, Dequeued, TaskOf, SemOk, GetQueue, GetSem, Waiters, ShorterQueue;
    var r := Handed(s, x);
    HandHolds(s, x);
    if y == x {
      SameNames(s.nodes, WaitOf(r.wait, x), r.nodes);
      FirstNamed(s, x, r);
    } else {
      HandHoldsElsewhere(s, x, y);
      SameNames(s.nodes, WaitOf(r.wait, y), r.nodes);
      SameWaiters(s, y, r);
    }
  }

  lemma FirstNamed(s: SemState, x: int, r: SemState)
    requires |WaitOf(s.wait, x)| > 0 && WaitOf(r.wait, x) == WaitOf(s.wait, x)[1..]
    requires forall i {:trigger WaitOf(r.wait, x)[i]} :: 0 <= i < |WaitOf(r.wait, x)| ==>
      TaskOf(r.nodes, WaitOf(r.wait, x)[i]) == TaskOf(s.nodes, WaitOf(r.wait, x)[i])
    ensures Waiters(s, x) == [Waiters(s, x)[0]] + Waiters(r, x)
  {
    hide WaitOf, TaskOf;
    var W, V := WaitOf(s.wait, x), WaitOf(r.wait, x);
    assert forall i :: 0 <= i < |V| ==> V[i] == W[i + 1];
  }

  lemma SameWaiters(s: SemState, y: int, r: SemState)
    requires WaitOf(r.wait, y) == WaitOf(s.wait, y)
    requires forall i {:trigger WaitOf(r.wait, y)[i]} :: 0 <= i < |WaitOf(r.wait, y)| ==>
      TaskOf(r.nodes, WaitOf(r.wait, y)[i]) == TaskOf(s.nodes, WaitOf(r.wait, y)[i])
    ensures Waiters(r, y) == Waiters(s, y)
  {
    hide WaitOf, TaskOf;
  }

  /** The first waiter of a semaphore is a task asleep on it. */
  lemma FirstWaiter(B: map<int, Binding>, s: SemState, tasks: map<int, Task>, x: int)
    requires SemsOk(B, s, tasks) && x in s.sems
    ensures SemOk(s, x) && Counted(s, x)
    ensures |WaitOf(s.wait, x)| > 0 ==>
      Waiters(s, x)[0] in tasks && tasks[Waiters(s, x)[0]].state == SleepSem && WaitOf(s.wait, x)[0] in s.nodes
  {
    hide Named;
    assert SemOk(s, x);
    if |WaitOf(s.wait, x)| > 0 {
      var n := WaitOf(s.wait, x)[0];
      assert n in s.nodes;
      assert Asleep(s, tasks, n);
    }
  }

  /** Nothing that happens to tasks not asleep on semaphores matters. */
  ghost predicate SameSleep(tasks: map<int, Task>, tasks': map<int, Task>, t: int) {
    && (t in tasks' && tasks'[t].state == SleepSem ==> t in tasks && tasks[t].state == SleepSem)
    && (t in tasks && tasks[t].state == SleepSem ==>
       t in tasks' && tasks'[t].state == SleepSem && tasks'[t].sleepingOn == tasks[t].sleepingOn)
  }

  lemma TasksKeep(B: map<int, Binding>, s: SemState, tasks: map<int, Task>, tasks': map<int, Task>,
                  B': map<int, Binding>)
    requires SemsOk(B, s, tasks) && Named(B', RSRC_SEM, s.sems.Keys, s.ids)
    requires forall t {:trigger SameSleep(tasks, tasks', t)} :: SameSleep(tasks, tasks', t)
    ensures SemsOk(B', s, tasks')
  {
    hide EachOk, NothingStray, Named;
    forall m {:trigger m in s.nodes} | m in s.nodes ensures Asleep(s, tasks', m) {
      assert Asleep(s, tasks, m);
      assert SameSleep(tasks, tasks', GetNode(s.nodes, m).data);
    }
    forall t {:trigger t in tasks'} | t in tasks' && tasks'[t].state == SleepSem ensures HasNode(s, t) {
      assert SameSleep(tasks, tasks', t);
      assert HasNode(s, t);
    }
  }

  // ----- what the invariant says -----

  /** Completed acquires less releases: the semaphore of initial count n lets at most n tasks through. */
  lemma CountBalance(B: map<int, Binding>, s: SemState, tasks: map<int, Task>, x: int)
    requires SemsOk(B, s, tasks) && x in s.sems && Lookup(s.start, x) >= 0
    ensures var c, n := s.sems[x].count, Lookup(s.start, x);
      |Waiters(s, x)| == (if c < 0 then -c else 0)
        && Lookup(s.done, x) - Lookup(s.given, x) == n - (if c > 0 then c else 0) <= n
  {
    assert Counted(s, x);
  }

  /** The waiters of a semaphore are exactly the tasks asleep on its identifier. */
  lemma WaitersAreSleepers(B: map<int, Binding>, s: SemState, tasks: map<int, Task>, x: int, t: int)
    requires SemsOk(B, s, tasks) && x in s.sems && IdOf(s.ids, x) != 0
    ensures t in Waiters(s, x) <==> t in tasks && tasks[t].state == SleepSem && tasks[t].sleepingOn == IdOf(s.ids, x)
  {
    hide Linked, Distinct, Counted;
    assert SemOk(s, x);
    var W := WaitOf(s.wait, x);
    if t in Waiters(s, x) {
      var i :| 0 <= i < |W| && Waiters(s, x)[i] == t;
      InQueue(s, x, i);
      assert Asleep(s, tasks, W[i]);
    }
    if t in tasks && tasks[t].state == SleepSem && tasks[t].sleepingOn == IdOf(s.ids, x) {
      assert HasNode(s, t);
      var n := Lookup(s.nodeOf, t);
      assert Asleep(s, tasks, n);
      var y := Lookup(s.home, n);
      assert y in s.sems.Keys && IdOf(s.ids, y) == IdOf(s.ids, x);
      assert y == x;
      var i :| 0 <= i < |W| && W[i] == n;
      assert Waiters(s, x)[i] == t;
    }
  }

  lemma InQueue(s: SemState, x: int, i: int)
    requires SemOk(s, x) && 0 <= i < |WaitOf(s.wait, x)|
    ensures WaitOf(s.wait, x)[i] in s.nodes && Lookup(s.home, WaitOf(s.wait, x)[i]) == x
  {
  }

  // ----- one step -----

  /** What a step does to the semaphores: one is made with a count, an acquire goes through or its task joins the queue,
      a release frees one more place or wakes the first task of the queue, or none of this. */
  datatype Change =
    | Begun(x: int, count: int)
    | Through(x: int)
    | Joined(x: int, t: int)
    | Freed(x: int)
    | Woken(x: int, t: int)
    | Quiet

  ghost function CountOf(s: SemState, x: int): int { GetSem(s.sems, x).count }

  predicate Touches(c: Change, y: int) { !c.Quiet? && c.x == y }

  /** This step completes an acquire of y. */
  predicate Completes(c: Change, y: int) { (c.Through? || c.Woken?) && c.x == y }

  /** This step is a release of y. */
  predicate Releases(c: Change, y: int) { (c.Freed? || c.Woken?) && c.x == y }

  /** What the history counters of y are after the step. */
  ghost predicate Remembers(s: SemState, c: Change, r: SemState, y: int) {
    if c.Begun? && c.x == y then Lookup(r.start, y) == c.count && Lookup(r.done, y) == 0 && Lookup(r.given, y) == 0
    else Lookup(r.start, y) == Lookup(s.start, y)
         && Lookup(r.done, y) == Lookup(s.done, y) + (if Completes(c, y) then 1 else 0)
         && Lookup(r.given, y) == Lookup(s.given, y) + (if Releases(c, y) then 1 else 0)
  }

  /** The step c leads from s to r: a count goes up or down by one, a task joins the end of one queue or leaves its
      front, and all other semaphores stay. */
  ghost predicate Follows(s: SemState, c: Change, r: SemState) {
    && r.sems.Keys == (if c.Begun? then s.sems.Keys + {c.x} else s.sems.Keys)
    && (match c
        case Begun(x, count) => x !in s.sems && CountOf(r, x) == count && Waiters(r, x) == []
        case Through(x) =>
          x in s.sems && CountOf(s, x) > 0 && CountOf(r, x) == CountOf(s, x) - 1 && Waiters(r, x) == Waiters(s, x)
        case Joined(x, t) =>
          && x in s.sems && CountOf(s, x) <= 0 && CountOf(r, x) == CountOf(s, x) - 1
          && Waiters(r, x) == Waiters(s, x) + [t]
        case Freed(x) => x in s.sems && Waiters(s, x) == Waiters(r, x) == [] && CountOf(r, x) == CountOf(s, x) + 1
        case Woken(x, t) =>
          x in s.sems && Waiters(s, x) == [t] + Waiters(r, x) && CountOf(r, x) == CountOf(s, x) + 1
        case Quiet => r == s)
    && (forall y {:trigger Remembers(s, c, r, y)} :: Remembers(s, c, r, y))
    && (forall y {:trigger IdOf(r.ids, y)} :: y in s.sems ==> IdOf(r.ids, y) == IdOf(s.ids, y))
    && forall y {:trigger Waiters(r, y)} {:trigger CountOf(r, y)} ::
         y in s.sems && !Touches(c, y) ==> CountOf(r, y) == CountOf(s, y) && Waiters(r, y) == Waiters(s, y)
  }

  lemma QuietFollows(s: SemState)
    ensures Follows(s, Quiet, s)
  {
  }

  lemma CreateFollows(s: SemState, x: int, q: int, n: int, id: int)
    requires x !in s.sems
    ensures Follows(s, Begun(x, n), SemCreated(s, x, q, n, id))
  {
    hide Waiters, Remembers;
    var c, r := Begun(x, n), SemCreated(s, x, q, n, id);
    forall y {:trigger Remembers(s, c, r, y)} ensures Remembers(s, c, r, y) { CreateRemembers(s, x, q, n, id, y); }
    forall y {:trigger Waiters(r, y)} ensures Waiters(r, y) == if y == x then [] else Waiters(s, y) {
      CreateWaiters(s, x, q, n, id, y);
    }
  }

  lemma CreateRemembers(s: SemState, x: int, q: int, n: int, id: int, y: int)
    ensures Remembers(s, Begun(x, n), SemCreated(s, x, q, n, id), y)
  {
  }

  lemma CreateWaiters(s: SemState, x: int, q: int, n: int, id: int, y: int)
    ensures Waiters(SemCreated(s, x, q, n, id), y) == if y == x then [] else Waiters(s, y)
  {
  }

  lemma PassFollows(s: SemState, x: int)
    requires x in s.sems && CountOf(s, x) > 0
    ensures Follows(s, Through(x), Passed(s, x))
  {
  }

  lemma RaiseFollows(s: SemState, x: int)
    requires x in s.sems && Waiters(s, x) == []
    ensures Follows(s, Freed(x), Raised(s, x))
  {
  }

  lemma WaitFollows(s: SemState, x: int, n: int, t: int)
    requires x in s.sems && CountOf(s, x) <= 0 && Waiters(Waited(s, x, n, t), x) == Waiters(s, x) + [t]
    requires forall y {:trigger Waiters(Waited(s, x, n, t), y)} ::
      y in s.sems && y != x ==> Waiters(Waited(s, x, n, t), y) == Waiters(s, y)
    ensures Follows(s, Joined(x, t), Waited(s, x, n, t))
  {
    hide Waiters, Enqueued, LongerQueue;
  }

  lemma HandFollows(s: SemState, x: int, t: int)
    requires x in s.sems && Waiters(s, x) == [t] + Waiters(Handed(s, x), x)
    requires forall y {:trigger Waiters(Handed(s, x), y)} ::
      y in s.sems && y != x ==> Waiters(Handed(s, x), y) == Waiters(s, y)
    ensures Follows(s, Woken(x, t), Handed(s, x))
  {
    hide Waiters, Dequeued, ShorterQueue;
  }

  // ----- runs -----

  ghost predicate SemRun(states: seq<SemState>, log: seq<Change>) {
    |states| == |log| + 1 && forall i {:trigger log[i]} :: 0 <= i < |log| ==> Follows(states[i], log[i], states[i + 1])
  }

  /** The tasks that waited on x at s and those that joined after that, or only the latter if x was made later. */
  ghost function JoinedTo(s: SemState, log: seq<Change>, x: int): seq<int> {
    if log == [] then Waiters(s, x)
    else
      var c, before := log[|log| - 1], JoinedTo(s, log[..|log| - 1], x);
      if c.Begun? && c.x == x then [] else if c.Joined? && c.x == x then before + [c.t] else before
  }

  /** The tasks that releases of x woke, since x was made if it was. */
  ghost function WokenFrom(log: seq<Change>, x: int): seq<int> {
    if log == [] then []
    else
      var c, before := log[|log| - 1], WokenFrom(log[..|log| - 1], x);
      if c.Begun? && c.x == x then [] else if c.Woken? && c.x == x then before + [c.t] else before
  }

  /** The count that x was made with. */
  ghost function Initial(s: SemState, log: seq<Change>, x: int): int {
    if log == [] then Lookup(s.start, x)
    else
      var c := log[|log| - 1];
      if c.Begun? && c.x == x then c.count else Initial(s, log[..|log| - 1], x)
  }

  /** How many acquires of x went through, at once or when a release woke their tasks. */
  ghost function Acquires(s: SemState, log: seq<Change>, x: int): int {
    if log == [] then Lookup(s.done, x)
    else
      var c := log[|log| - 1];
      if c.Begun? && c.x == x then 0 else Acquires(s, log[..|log| - 1], x) + if Completes(c, x) then 1 else 0
  }

  ghost function ReleasesOf(s: SemState, log: seq<Change>, x: int): int {
    if log == [] then Lookup(s.given, x)
    else
      var c := log[|log| - 1];
      if c.Begun? && c.x == x then 0 else ReleasesOf(s, log[..|log| - 1], x) + if Releases(c, x) then 1 else 0
  }

  lemma RunBegins(states: seq<SemState>, log: seq<Change>)
    requires SemRun(states, log) && |log| > 0
    ensures SemRun(states[..|log|], log[..|log| - 1])
  {
    hide Follows;
    var n, fewer := |log| - 1, log[..|log| - 1];
    assert forall i {:trigger fewer[i]} :: 0 <= i < n ==> fewer[i] == log[i];
  }

  lemma QueueStep(s: SemState, c: Change, r: SemState, x: int)
    requires Follows(s, c, r) && x in r.sems
    ensures if c.Begun? && c.x == x then Waiters(r, x) == []
      else x in s.sems && if c.Joined? && c.x == x then Waiters(r, x) == Waiters(s, x) + [c.t]
                          else if c.Woken? && c.x == x then Waiters(s, x) == [c.t] + Waiters(r, x)
                          else Waiters(r, x) == Waiters(s, x)
  {
    hide Waiters;
    assert x in r.sems.Keys;
  }

  /** A task joins at the end, or leaves from the front. */
  lemma QueueMoves(joined: seq<int>, woken: seq<int>, W: seq<int>, V: seq<int>)
    requires joined == woken + W
    ensures forall t :: V == W + [t] ==> joined + [t] == woken + V
    ensures forall t :: W == [t] + V ==> joined == woken + [t] + V
  {
  }

  /** Over any run, the tasks that joined a semaphore are those that its releases woke, in the same order, followed by
      those that still wait. */
  lemma {:induction false} WokenInOrder(states: seq<SemState>, log: seq<Change>, x: int)
    requires SemRun(states, log) && x in states[|log|].sems
    ensures JoinedTo(states[0], log, x) == WokenFrom(log, x) + Waiters(states[|log|], x)
  {
    hide Waiters, Follows;
    if log != [] {
      var n := |log| - 1;
      assert Follows(states[n], log[n], states[n + 1]);
      QueueStep(states[n], log[n], states[n + 1], x);
      if !(log[n].Begun? && log[n].x == x) {
        RunBegins(states, log);
        WokenInOrder(states[..n + 1], log[..n], x);
        QueueMoves(JoinedTo(states[0], log[..n], x), WokenFrom(log[..n], x), Waiters(states[n], x),
                   Waiters(states[n + 1], x));
      }
    }
  }

  lemma {:induction false} HistoryOverRun(states: seq<SemState>, log: seq<Change>, x: int)
    requires SemRun(states, log)
    ensures var r := states[|log|];
      Lookup(r.start, x) == Initial(states[0], log, x) && Lookup(r.done, x) == Acquires(states[0], log, x)
      && Lookup(r.given, x) == ReleasesOf(states[0], log, x)
  {
    hide Waiters, Lookup;
    if log != [] {
      var n := |log| - 1;
      assert Follows(states[n], log[n], states[n + 1]);
      assert Remembers(states[n], log[n], states[n + 1], x);
      RunBegins(states, log);
      HistoryOverRun(states[..n + 1], log[..n], x);
    }
  }

  /** Over any run, acquires that went through less releases are the initial count less what the count and the queue
      show; if the initial count is not negative, the queue is as long as the count is below zero, and no more acquires
      went through than the initial count and the releases allow. */
  lemma BalanceOverRun(states: seq<SemState>, log: seq<Change>, x: int, B: map<int, Binding>, tasks: map<int, Task>)
    requires SemRun(states, log) && x in states[|log|].sems && SemsOk(B, states[|log|], tasks)
    ensures var r, n := states[|log|], Initial(states[0], log, x);
      var through := Acquires(states[0], log, x) - ReleasesOf(states[0], log, x);
      && through == n - CountOf(r, x) - |Waiters(r, x)|
      && (n >= 0 ==>
            |Waiters(r, x)| == (if CountOf(r, x) < 0 then -CountOf(r, x) else 0)
            && through == n - (if CountOf(r, x) > 0 then CountOf(r, x) else 0) <= n)
  {
    hide SemRun, Waiters, NothingStray, WaitersOk, SemOk, Named, Initial, Acquires, ReleasesOf;
    HistoryOverRun(states, log, x);
    LastIs(states, log);
    assert Counted(states[|log|], x);
    if Initial(states[0], log, x) >= 0 { CountBalance(B, states[|log|], tasks, x); }
    SameLength(states[|log|], x);
  }

  lemma LastIs(states: seq<SemState>, log: seq<Change>)
    requires SemRun(states, log)
    ensures |states| == |log| + 1
  {
  }

  lemma SameLength(s: SemState, x: int)
    ensures |Waiters(s, x)| == |WaitOf(s.wait, x)|
  {
  }
}
