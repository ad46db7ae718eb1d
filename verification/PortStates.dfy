/** The ports and messages of kernel/port.c, and what every operation on them keeps. */
module PortStates {
  import opened Arithmetic
  import opened Lists
  import opened Resources

  datatype Port = Port(owner: int, restrict: int, msgcount: int, slaved: int, first: int, last: int, refcount: int)

  datatype Message = Message(next: int, size: int, fromPort: int, toPort: int, pid: int, data: int)

  /** What a message means to its receiver. */
  datatype Mail = Mail(fromPort: int, toPort: int, pid: int, content: seq<byte>)

  ghost function GetPort(ports: map<int, Port>, p: int): Port
  { if p in ports then ports[p] else Port(0, 0, 0, 0, 0, 0, 0) }

  ghost function GetMessage(msgs: map<int, Message>, m: int): Message
  { if m in msgs then msgs[m] else Message(0, 0, 0, 0, 0, 0) }

  ghost function Content(payload: map<int, seq<byte>>, d: int): seq<byte> { if d in payload then payload[d] else [] }

  ghost function ChainOf(chain: map<int, seq<int>>, p: int): seq<int> { if p in chain then chain[p] else [] }

  ghost function HomeOf(home: map<int, int>, m: int): int { if m in home then home[m] else 0 }

  // ----- queues -----

  ghost predicate Linked(msgs: map<int, Message>, L: seq<int>) {
    forall i {:trigger L[i]} ::
      0 <= i < |L| ==> L[i] != 0 && L[i] in msgs && GetMessage(msgs, L[i]).next == At(L, i + 1)
  }

  ghost predicate AtHome(home: map<int, int>, L: seq<int>, p: int) {
    forall i {:trigger L[i]} :: 0 <= i < |L| ==> HomeOf(home, L[i]) == p
  }

  /** The queue of port p, whose structure holds k, consists of the messages L in sending order. */
  ghost predicate Holds(k: Port, msgs: map<int, Message>, home: map<int, int>, L: seq<int>, p: int) {
    && k.msgcount == |L| && k.first == At(L, 0) && k.last == At(L, |L| - 1)
    && Linked(msgs, L) && Distinct(L) && AtHome(home, L, p)
  }

  ghost predicate QueuesOk(ports: map<int, Port>, msgs: map<int, Message>, chain: map<int, seq<int>>,
                           home: map<int, int>) {
    ports.Keys == chain.Keys && 0 !in ports
    && forall p {:trigger p in ports} :: p in ports ==> Holds(ports[p], msgs, home, ChainOf(chain, p), p)
  }

  /** Every message is one to four thousand bytes long and has a block of its own that holds them. */
  ghost predicate MessagesOk(msgs: map<int, Message>, payload: map<int, seq<byte>>, of: map<int, int>) {
    forall m {:trigger m in msgs} :: m in msgs ==>
      m != 0 && 1 <= msgs[m].size <= 4096 && |Content(payload, msgs[m].data)| == msgs[m].size
        && HomeOf(of, msgs[m].data) == m
  }

  ghost function MailOf(msgs: map<int, Message>, payload: map<int, seq<byte>>, m: int): Mail {
    var k := GetMessage(msgs, m);
    Mail(k.fromPort, k.toPort, k.pid, Content(payload, k.data))
  }

  /** What waits on a port, first message first. */
  ghost function Mails(msgs: map<int, Message>, payload: map<int, seq<byte>>, L: seq<int>): (q: seq<Mail>)
    ensures |q| == |L| && forall i {:trigger q[i]} :: 0 <= i < |L| ==> q[i] == MailOf(msgs, payload, L[i])
  { seq(|L|, i requires 0 <= i < |L| => MailOf(msgs, payload, L[i])) }

  /** Linking the new message m behind the last one of L. */
  ghost function Appended(msgs: map<int, Message>, L: seq<int>, m: int, k: Message): map<int, Message> {
    if |L| == 0 then msgs[m := k]
    else msgs[m := k][L[|L| - 1] := GetMessage(msgs[m := k], L[|L| - 1]).(next := m)]
  }

  lemma AppendLinked(msgs: map<int, Message>, L: seq<int>, m: int, k: Message, r: map<int, Message>)
    requires Linked(msgs, L) && Distinct(L) && m !in msgs && m != 0 && k.next == 0 && r == Appended(msgs, L, m, k)
    ensures Linked(r, L + [m]) && Distinct(L + [m]) && r.Keys == msgs.Keys + {m}
    ensures forall x {:trigger GetMessage(r, x)} ::
      x in msgs && x != At(L, |L| - 1) ==> GetMessage(r, x) == GetMessage(msgs, x)
    ensures forall x {:trigger GetMessage(r, x)} ::
      x in msgs ==> GetMessage(r, x) == GetMessage(msgs, x).(next := GetMessage(r, x).next)
    ensures GetMessage(r, m) == k
  {
    var M := L + [m];
    assert |L| > 0 ==> L[|L| - 1] in msgs;
    forall i {:trigger M[i]} | 0 <= i < |M| ensures M[i] != 0 && M[i] in r && GetMessage(r, M[i]).next == At(M, i + 1) {
      if i < |L| {
        assert M[i] == L[i];
        if i < |L| - 1 { assert L[i] != L[|L| - 1]; }
      }
    }
    forall i, j | 0 <= i < j < |M| ensures M[i] != M[j] {
      assert M[i] == L[i];
      if j < |L| { assert M[j] == L[j]; }
    }
  }

  /** Linking behind the last message of one queue leaves the other queues alone. */
  lemma OtherLinked(msgs: map<int, Message>, L: seq<int>, r: map<int, Message>, home: map<int, int>, p: int, x: int)
    requires Linked(msgs, L) && AtHome(home, L, p) && msgs.Keys <= r.Keys && (x == 0 || HomeOf(home, x) != p)
    requires forall y {:trigger GetMessage(r, y)} :: y in msgs && y != x ==> GetMessage(r, y) == GetMessage(msgs, y)
    ensures Linked(r, L)
  {
    forall i {:trigger L[i]} | 0 <= i < |L| ensures L[i] != 0 && L[i] in r && GetMessage(r, L[i]).next == At(L, i + 1) {
      assert HomeOf(home, L[i]) == p;
    }
  }

  lemma NewHome(home: map<int, int>, msgs: map<int, Message>, L: seq<int>, p: int, m: int, q: int)
    requires AtHome(home, L, p) && Linked(msgs, L) && m !in msgs
    ensures AtHome(home[m := q], L, p)
    ensures AtHome(home[m := p], L + [m], p)
  {
    var M, h, g := L + [m], home[m := p], home[m := q];
    forall i {:trigger M[i]} | 0 <= i < |M| ensures HomeOf(h, M[i]) == p {
      if i < |L| { assert M[i] == L[i]; }
    }
    forall i {:trigger L[i]} | 0 <= i < |L| ensures HomeOf(g, L[i]) == p {
      assert L[i] in msgs;
    }
  }

  /** A port structure once a message has been linked to the end of its queue. */
  ghost function Longer(k: Port, m: int): Port {
    k.(first := if k.last != 0 then k.first else m, last := m, msgcount := k.msgcount + 1)
  }

  /** Sending to p appends m to p's queue and leaves every other queue as it is. */
  lemma SendKeepsQueues(ports: map<int, Port>, msgs: map<int, Message>, chain: map<int, seq<int>>, home: map<int, int>,
                        p: int, m: int, k: Message, r: map<int, Message>)
    requires QueuesOk(ports, msgs, chain, home) && p in ports && m !in msgs && m != 0 && k.next == 0
    requires r == Appended(msgs, ChainOf(chain, p), m, k)
    ensures QueuesOk(ports[p := Longer(ports[p], m)], r, chain[p := ChainOf(chain, p) + [m]], home[m := p])
    ensures r.Keys == msgs.Keys + {m} && GetMessage(r, m) == k
    ensures forall x {:trigger GetMessage(r, x)} ::
      x in msgs ==> GetMessage(r, x) == GetMessage(msgs, x).(next := GetMessage(r, x).next)
  {
    hide Linked, Distinct, AtHome, Appended;
    var L := ChainOf(chain, p);
    assert Holds(ports[p], msgs, home, L, p);
    AppendLinked(msgs, L, m, k, r);
    NewHome(home, msgs, L, p, m, p);
    LastAtHome(msgs, home, L, p);
    var ports', chain', home' := ports[p := Longer(ports[p], m)], chain[p := L + [m]], home[m := p];
    forall q {:trigger q in ports'} | q in ports' ensures Holds(ports'[q], r, home', ChainOf(chain', q), q) {
      assert q in ports && Holds(ports[q], msgs, home, ChainOf(chain, q), q);
      if q != p {
        NewHome(home, msgs, ChainOf(chain, q), q, m, p);
        OtherLinked(msgs, ChainOf(chain, q), r, home, q, At(L, |L| - 1));
      }
    }
  }

  lemma LastAtHome(msgs: map<int, Message>, home: map<int, int>, L: seq<int>, p: int)
    requires AtHome(home, L, p) && Linked(msgs, L)
    ensures |L| > 0 ==>
      L[|L| - 1] != 0 && L[|L| - 1] in msgs && HomeOf(home, L[|L| - 1]) == p && L[0] != 0 && L[0] in msgs
    ensures |L| > 0 ==> GetMessage(msgs, L[0]).next == At(L, 1) && HomeOf(home, L[0]) == p
  {
  }

  /** A port structure once the first message is out of its queue. */
  ghost function Shorter(k: Port, next: int): Port {
    k.(first := next, last := if next == 0 then 0 else k.last, msgcount := k.msgcount - 1)
  }

  lemma FirstRemoved(msgs: map<int, Message>, home: map<int, int>, L: seq<int>, p: int)
    requires Linked(msgs, L) && Distinct(L) && AtHome(home, L, p) && |L| > 0
    ensures Linked(msgs - {L[0]}, L[1..]) && Distinct(L[1..]) && AtHome(home, L[1..], p)
  {
    var M, r := L[1..], msgs - {L[0]};
    assert forall i {:trigger M[i]} :: 0 <= i < |M| ==> M[i] == L[i + 1];
    assert Linked(r, M) by {
      forall i {:trigger M[i]} | 0 <= i < |M|
        ensures M[i] != 0 && M[i] in r && GetMessage(r, M[i]).next == At(M, i + 1)
      {
        assert L[0] != L[i + 1];
      }
    }
  }

  lemma OtherRemoved(msgs: map<int, Message>, home: map<int, int>, L: seq<int>, p: int, m: int)
    requires Linked(msgs, L) && AtHome(home, L, p) && HomeOf(home, m) != p
    ensures Linked(msgs - {m}, L)
  {
    var r := msgs - {m};
    forall i {:trigger L[i]} | 0 <= i < |L| ensures L[i] != 0 && L[i] in r && GetMessage(r, L[i]).next == At(L, i + 1) {
      assert HomeOf(home, L[i]) == p;
    }
  }

  /** Receiving from p removes p's first message and leaves every other queue as it is. */
  lemma ReceiveKeepsQueues(ports: map<int, Port>, msgs: map<int, Message>, chain: map<int, seq<int>>,
                           home: map<int, int>, p: int)
    requires QueuesOk(ports, msgs, chain, home) && p in ports && |ChainOf(chain, p)| > 0
    ensures var m := ChainOf(chain, p)[0];
      m in msgs && m == ports[p].first
      && QueuesOk(ports[p := Shorter(ports[p], msgs[m].next)], msgs - {m}, chain[p := ChainOf(chain, p)[1..]], home)
  {
    hide Linked, Distinct, AtHome;
    var L := ChainOf(chain, p);
    assert Holds(ports[p], msgs, home, L, p);
    LastAtHome(msgs, home, L, p);
    var m := L[0];
    var ports', chain' := ports[p := Shorter(ports[p], msgs[m].next)], chain[p := L[1..]];
    ShorterHolds(ports[p], msgs, L);
    forall q {:trigger q in ports'} | q in ports' ensures Holds(ports'[q], msgs - {m}, home, ChainOf(chain', q), q) {
      assert q in ports && Holds(ports[q], msgs, home, ChainOf(chain, q), q);
      if q == p { FirstRemoved(msgs, home, L, p); } else { OtherRemoved(msgs, home, ChainOf(chain, q), q, m); }
    }
  }

  lemma ShorterHolds(k: Port, msgs: map<int, Message>, L: seq<int>)
    requires Linked(msgs, L) && |L| > 0 && k.last == L[|L| - 1]
    ensures At(L[1..], 0) == At(L, 1) && At(L[1..], |L| - 2) == if At(L, 1) == 0 then 0 else k.last
  {
    assert |L| > 1 ==> L[1] != 0;
  }

  /** Queues do not depend on the other fields of a port. */
  ghost predicate SameQueue(k: Port, k': Port) { k'.msgcount == k.msgcount && k'.first == k.first && k'.last == k.last }

  lemma OptionKeepsQueues(ports: map<int, Port>, msgs: map<int, Message>, chain: map<int, seq<int>>,
                          home: map<int, int>, p: int, k: Port)
    requires QueuesOk(ports, msgs, chain, home) && p in ports && SameQueue(ports[p], k)
    ensures QueuesOk(ports[p := k], msgs, chain, home)
  {
    hide Linked, Distinct, AtHome;
    forall q {:trigger q in ports[p := k]} | q in ports[p := k]
      ensures Holds(ports[p := k][q], msgs, home, ChainOf(chain, q), q)
    {
      assert q in ports;
    }
  }

  lemma CreateKeepsQueues(ports: map<int, Port>, msgs: map<int, Message>, chain: map<int, seq<int>>,
                          home: map<int, int>, p: int, k: Port)
    requires QueuesOk(ports, msgs, chain, home) && p !in ports && p != 0 && k.msgcount == 0 && k.first == 0
      && k.last == 0
    ensures QueuesOk(ports[p := k], msgs, chain[p := []], home)
  {
    forall q {:trigger q in ports[p := k]} | q in ports[p := k]
      ensures Holds(ports[p := k][q], msgs, home, ChainOf(chain[p := []], q), q)
    {
      if q != p {
        hide Linked, Distinct, AtHome;
        assert q in ports;
      }
    }
  }

  lemma DestroyKeepsQueues(ports: map<int, Port>, msgs: map<int, Message>, chain: map<int, seq<int>>,
                           home: map<int, int>, p: int)
    requires QueuesOk(ports, msgs, chain, home)
    ensures QueuesOk(ports - {p}, msgs, chain - {p}, home)
  {
    hide Linked, Distinct, AtHome;
    forall q {:trigger q in ports - {p}} | q in ports - {p}
      ensures Holds((ports - {p})[q], msgs, home, ChainOf(chain - {p}, q), q)
    {
      assert q in ports;
    }
  }

  // ----- names and masters -----

  /** id names a live port. */
  ghost predicate NamesPort(B: map<int, Binding>, ports: map<int, Port>, id: int) {
    id in B && B[id].kind == RSRC_PORT && B[id].data in ports
  }

  ghost predicate NamesOk(B: map<int, Binding>, ports: map<int, Port>, ids: map<int, int>)
  { Named(B, RSRC_PORT, ports.Keys, ids) }

  /** The ports that are slaved to the port named id. */
  ghost function Slaves(ports: map<int, Port>, id: int): (S: set<int>)
    ensures forall q {:trigger q in S} :: q in S <==> q in ports && ports[q].slaved == id
  { set q | q in ports && ports[q].slaved == id }

  ghost predicate Referenced(ports: map<int, Port>, ids: map<int, int>, p: int) {
    p in ports && ports[p].refcount >= 1 + if IdOf(ids, p) == 0 then 0 else |Slaves(ports, IdOf(ids, p))|
  }

  /** Masters never dangle: a port that names a master names a live port, and a port counts at least itself and its
      slaves. */
  ghost predicate MastersOk(B: map<int, Binding>, ports: map<int, Port>, ids: map<int, int>) {
    && (forall q {:trigger q in ports} :: q in ports && ports[q].slaved != 0 ==> NamesPort(B, ports, ports[q].slaved))
    && forall p {:trigger Referenced(ports, ids, p)} :: p in ports ==> Referenced(ports, ids, p)
  }

  lemma CreateKeepsMasters(B: map<int, Binding>, ports: map<int, Port>, ids: map<int, int>, p: int, k: Port, id: int,
                           B': map<int, Binding>)
    requires NamesOk(B, ports, ids) && MastersOk(B, ports, ids) && p !in ports && k.slaved == 0 && k.refcount == 1
    requires if id == 0 then B' == B else id !in B && B' == B[id := Binding(RSRC_PORT, p)]
    ensures NamesOk(B', ports[p := k], ids[p := id]) && MastersOk(B', ports[p := k], ids[p := id])
  {
    var ports', ids' := ports[p := k], ids[p := id];
    NewName(B, RSRC_PORT, ports.Keys, ids, p, id, B');
    assert ports'.Keys == ports.Keys + {p};
    forall q {:trigger Referenced(ports', ids', q)} | q in ports' ensures Referenced(ports', ids', q) {
      var i := IdOf(ids', q);
      if i != 0 { assert Slaves(ports', i) == Slaves(ports, i); }
      if q != p {
        assert Referenced(ports, ids, q);
      } else if id != 0 {
        assert forall x :: x in Slaves(ports, id) ==> NamesPort(B, ports, id);
        assert Slaves(ports, id) == {};
      }
    }
    forall q {:trigger q in ports'} | q in ports' && ports'[q].slaved != 0
      ensures NamesPort(B', ports', ports'[q].slaved)
    {
      assert q in ports;
    }
  }

  /** A port that counts no one but itself is nobody's master, so it may go. */
  lemma DestroyKeepsMasters(B: map<int, Binding>, ports: map<int, Port>, ids: map<int, int>, p: int)
    requires NamesOk(B, ports, ids) && MastersOk(B, ports, ids) && p in ports && ports[p].refcount == 1
      && IdOf(ids, p) != 0
    ensures NamesOk(B - {IdOf(ids, p)}, ports - {p}, ids - {p}) && MastersOk(B - {IdOf(ids, p)}, ports - {p}, ids - {p})
  {
    var id := IdOf(ids, p);
    var B', ports', ids' := B - {id}, ports - {p}, ids - {p};
    assert Referenced(ports, ids, p);
    assert Slaves(ports, id) == {};
    assert forall q :: q in ports && ports[q].slaved == id ==> q in Slaves(ports, id);
    NameGone(B, RSRC_PORT, ports.Keys, ids, p);
    assert ports'.Keys == ports.Keys - {p};
    forall q {:trigger Referenced(ports', ids', q)} | q in ports' ensures Referenced(ports', ids', q) {
      assert Referenced(ports, ids, q);
      assert IdOf(ids, q) == IdOf(ids', q);
      SlavesShrink(ports, p, IdOf(ids, q));
    }
    forall q {:trigger q in ports'} | q in ports' && ports'[q].slaved != 0
      ensures NamesPort(B', ports', ports'[q].slaved)
    {
      assert q in ports;
    }
  }

  lemma SlavesShrink(ports: map<int, Port>, p: int, id: int)
    ensures |Slaves(ports - {p}, id)| <= |Slaves(ports, id)|
  {
    SubsetSize(Slaves(ports - {p}, id), Slaves(ports, id));
  }

  /** Fields that are neither the master nor the count do not matter. */
  lemma OptionKeepsMasters(B: map<int, Binding>, ports: map<int, Port>, ids: map<int, int>, p: int, k: Port)
    requires NamesOk(B, ports, ids) && MastersOk(B, ports, ids) && p in ports && k.slaved == ports[p].slaved
      && k.refcount == ports[p].refcount
    ensures NamesOk(B, ports[p := k], ids) && MastersOk(B, ports[p := k], ids)
  {
    var ports' := ports[p := k];
    forall q {:trigger Referenced(ports', ids, q)} | q in ports' ensures Referenced(ports', ids, q) {
      assert Referenced(ports, ids, q);
      assert Slaves(ports', IdOf(ids, q)) == Slaves(ports, IdOf(ids, q));
    }
    forall q {:trigger q in ports'} | q in ports' && ports'[q].slaved != 0
      ensures NamesPort(B, ports', ports'[q].slaved)
    {
      assert q in ports;
    }
  }

  /** How port_option leaves the ports when p's master changes to arg, in the order of the source: count the new master
      up, count the old master down, store the new master. */
  ghost function Reslaved(B: map<int, Binding>, ports: map<int, Port>, p: int, arg: int): map<int, Port>
    requires p in ports && (arg != 0 ==> NamesPort(B, ports, arg))
      && (ports[p].slaved != 0 ==> NamesPort(B, ports, ports[p].slaved))
  {
    var up := if arg == 0 then ports
      else ports[B[arg].data := ports[B[arg].data].(refcount := ports[B[arg].data].refcount + 1)];
    var was := up[p].slaved;
    var down := if was == 0 then up else up[B[was].data := up[B[was].data].(refcount := up[B[was].data].refcount - 1)];
    down[p := down[p].(slaved := arg)]
  }

  lemma SlaveKeepsMasters(B: map<int, Binding>, ports: map<int, Port>, ids: map<int, int>, p: int, arg: int,
                          r: map<int, Port>)
    requires NamesOk(B, ports, ids) && MastersOk(B, ports, ids) && p in ports && (arg != 0 ==> NamesPort(B, ports, arg))
    requires (ports[p].slaved != 0 ==> NamesPort(B, ports, ports[p].slaved)) && r == Reslaved(B, ports, p, arg)
    ensures NamesOk(B, r, ids) && MastersOk(B, r, ids)
  {
    var old' := ports[p].slaved;
    assert r.Keys == ports.Keys;
    forall q {:trigger q in r} | q in r ensures r[q].slaved == if q == p then arg else ports[q].slaved {}
    forall q {:trigger Referenced(r, ids, q)} | q in r ensures Referenced(r, ids, q) {
      assert Referenced(ports, ids, q);
      var i := IdOf(ids, q);
      assert r[q].refcount == ports[q].refcount + (if i != 0 && i == arg then 1 else 0) - (if i != 0 && i == old' then 1
        else 0);
      if i != 0 {
        SlavesMove(ports, r, p, arg, i);
      }
    }
    forall q {:trigger q in r} | q in r && r[q].slaved != 0 ensures NamesPort(B, r, r[q].slaved) {
      assert q in ports;
    }
  }

  lemma SlavesMove(ports: map<int, Port>, r: map<int, Port>, p: int, arg: int, id: int)
    requires r.Keys == ports.Keys && p in ports
    requires forall q {:trigger q in ports} ::
      q in ports ==> q in r && r[q].slaved == if q == p then arg else ports[q].slaved
    ensures |Slaves(r, id)| == |Slaves(ports, id)| + (if id == arg then 1 else 0) - (if id == ports[p].slaved then 1
      else 0)
  {
    var A, C := Slaves(r, id), Slaves(ports, id);
    forall q ensures q in A <==> if q == p then id == arg else q in C {
      assert q in r.Keys <==> q in ports.Keys;
    }
    assert p in C <==> ports[p].slaved == id;
    hide Slaves;
    if id == arg {
      assert A == C + {p};
    } else {
      assert A == C - {p};
    }
  }

  /** The same ports with the same owners, restrictions, masters and counts. */
  ghost predicate SameLinks(ports: map<int, Port>, r: map<int, Port>) {
    r.Keys == ports.Keys && forall p {:trigger GetPort(r, p)} :: p in ports ==>
      GetPort(r, p) == ports[p].(msgcount := GetPort(r, p).msgcount, first := GetPort(r, p).first,
          last := GetPort(r, p).last)
  }

  lemma LongerLinks(ports: map<int, Port>, p: int, m: int)
    requires p in ports
    ensures SameLinks(ports, ports[p := Longer(ports[p], m)])
  {
  }

  lemma ShorterLinks(ports: map<int, Port>, p: int, next: int)
    requires p in ports
    ensures SameLinks(ports, ports[p := Shorter(ports[p], next)])
  {
  }

  // ----- contents -----

  /** Only next fields differ between the messages of msgs and their namesakes in r. */
  ghost predicate SameMessages(msgs: map<int, Message>, r: map<int, Message>) {
    forall x {:trigger GetMessage(r, x)} ::
      x in msgs ==> x in r && GetMessage(r, x) == GetMessage(msgs, x).(next := GetMessage(r, x).next)
  }

  lemma SendKeepsMessages(msgs: map<int, Message>, payload: map<int, seq<byte>>, of: map<int, int>,
                          r: map<int, Message>, m: int, k: Message, c: seq<byte>)
    requires MessagesOk(msgs, payload, of) && SameMessages(msgs, r) && r.Keys == msgs.Keys + {m}
      && GetMessage(r, m) == k && m !in msgs && m != 0
    requires 1 <= k.size <= 4096 && |c| == k.size
      && forall x {:trigger x in msgs} :: x in msgs ==> msgs[x].data != k.data
    ensures MessagesOk(r, payload[k.data := c], of[k.data := m])
  {
    var payload', of' := payload[k.data := c], of[k.data := m];
    forall x {:trigger x in r} | x in r
      ensures x != 0 && 1 <= r[x].size <= 4096 && |Content(payload', r[x].data)| == r[x].size
        && HomeOf(of', r[x].data) == x
    {
      assert GetMessage(r, x) == r[x];
      assert x in r.Keys;
      if x != m { assert x in msgs; }
    }
  }

  lemma SendMails(msgs: map<int, Message>, payload: map<int, seq<byte>>, of: map<int, int>, r: map<int, Message>,
                  L: seq<int>, m: int, k: Message, c: seq<byte>)
    requires MessagesOk(msgs, payload, of) && SameMessages(msgs, r) && Linked(msgs, L) && GetMessage(r, m) == k
    requires forall x {:trigger x in msgs} :: x in msgs ==> msgs[x].data != k.data
    ensures Mails(r, payload[k.data := c], L) == Mails(msgs, payload, L)
    ensures Mails(r, payload[k.data := c], L + [m]) == Mails(msgs, payload, L) + [Mail(k.fromPort, k.toPort, k.pid, c)]
  {
    var payload' := payload[k.data := c];
    forall i | 0 <= i < |L| ensures MailOf(r, payload', L[i]) == MailOf(msgs, payload, L[i]) {
      assert L[i] in msgs;
      assert GetMessage(r, L[i]).data == GetMessage(msgs, L[i]).data;
    }
    assert Mails(r, payload', L + [m])[..|L|] == Mails(msgs, payload, L);
    assert Mails(r, payload', L + [m]) == Mails(r, payload', L + [m])[..|L|] + [MailOf(r, payload', m)];
  }

  lemma ReceiveMails(msgs: map<int, Message>, payload: map<int, seq<byte>>, L: seq<int>, m: int)
    requires forall i {:trigger L[i]} :: 0 <= i < |L| ==> L[i] != m
    ensures Mails(msgs - {m}, payload, L) == Mails(msgs, payload, L)
  {
    forall i | 0 <= i < |L| ensures MailOf(msgs - {m}, payload, L[i]) == MailOf(msgs, payload, L[i]) {
      assert L[i] != m;
    }
  }

  lemma ReceiveKeepsMessages(msgs: map<int, Message>, payload: map<int, seq<byte>>, of: map<int, int>, m: int)
    requires MessagesOk(msgs, payload, of)
    ensures MessagesOk(msgs - {m}, payload, of)
  {
    forall x {:trigger x in msgs - {m}} | x in msgs - {m} ensures x in msgs {}
  }

  /** Every message is queued on a live port, or was left behind when its port was destroyed. */
  ghost predicate Housed(ports: map<int, Port>, msgs: map<int, Message>, chain: map<int, seq<int>>,
                         home: map<int, int>, lost: set<int>) {
    forall m {:trigger m in msgs} ::
      m in msgs ==> m in lost || (HomeOf(home, m) in ports && m in ChainOf(chain, HomeOf(home, m)))
  }

  lemma SendKeepsHoused(ports: map<int, Port>, msgs: map<int, Message>, chain: map<int, seq<int>>, home: map<int, int>,
                        lost: set<int>,
                        p: int, k: Port, m: int, r: map<int, Message>)
    requires Housed(ports, msgs, chain, home, lost) && p in ports && m !in msgs && r.Keys == msgs.Keys + {m}
    ensures Housed(ports[p := k], r, chain[p := ChainOf(chain, p) + [m]], home[m := p], lost)
  {
    var chain' := chain[p := ChainOf(chain, p) + [m]];
    assert m in ChainOf(chain', p) by { assert ChainOf(chain', p)[|ChainOf(chain, p)|] == m; }
    forall x {:trigger x in r} | x in r
      ensures x in lost || (HomeOf(home[m := p], x) in ports[p := k] && x in ChainOf(chain', HomeOf(home[m := p], x)))
    {
      assert x in r.Keys;
      if x != m { assert x in msgs; }
    }
  }

  lemma ReceiveKeepsHoused(ports: map<int, Port>, msgs: map<int, Message>, chain: map<int, seq<int>>,
                           home: map<int, int>, lost: set<int>, p: int, k: Port)
    requires Housed(ports, msgs, chain, home, lost) && p in ports && |ChainOf(chain, p)| > 0
    ensures Housed(ports[p := k], msgs - {ChainOf(chain, p)[0]}, chain[p := ChainOf(chain, p)[1..]], home, lost)
  {
    var L := ChainOf(chain, p);
    var m := L[0];
    assert L == [m] + L[1..];
    forall x {:trigger x in msgs - {m}} | x in msgs - {m}
      ensures x in lost || (HomeOf(home, x) in ports[p := k] && x in ChainOf(chain[p := L[1..]], HomeOf(home, x)))
    {
      assert x in msgs;
    }
  }

  lemma DestroyKeepsHoused(ports: map<int, Port>, msgs: map<int, Message>, chain: map<int, seq<int>>,
                           home: map<int, int>, lost: set<int>, p: int)
    requires Housed(ports, msgs, chain, home, lost)
    ensures Housed(ports - {p}, msgs, chain - {p}, home, lost + (set m | m in ChainOf(chain, p)))
  {
    forall x {:trigger x in msgs} | x in msgs
      ensures x in lost + (set m | m in ChainOf(chain, p))
        || (HomeOf(home, x) in ports - {p} && x in ChainOf(chain - {p}, HomeOf(home, x)))
    {
      if x !in lost
        && HomeOf(home, x) != p { assert ChainOf(chain - {p}, HomeOf(home, x)) == ChainOf(chain, HomeOf(home, x)); }
    }
  }

  // ----- the whole state -----

  /** The structures by address, the bytes of the payload blocks, and what the proofs keep track of: each port's queue,
      the queue and the block of each message, each port's identifier, and the messages that no port holds any more. */
  datatype PortState = PortState(ports: map<int, Port>, msgs: map<int, Message>, payload: map<int, seq<byte>>,
                                 chain: map<int, seq<int>>, home: map<int, int>, of: map<int, int>, ids: map<int, int>,
                                   lost: set<int>)

  ghost predicate PortsOk(B: map<int, Binding>, s: PortState) {
    && QueuesOk(s.ports, s.msgs, s.chain, s.home) && NamesOk(B, s.ports, s.ids) && MastersOk(B, s.ports, s.ids)
    && MessagesOk(s.msgs, s.payload, s.of) && Housed(s.ports, s.msgs, s.chain, s.home, s.lost)
  }

  /** The mail that waits on the port structure p. */
  ghost function Queue(s: PortState, p: int): seq<Mail> { Mails(s.msgs, s.payload, ChainOf(s.chain, p)) }

  ghost function Created(s: PortState, p: int, k: Port, id: int): PortState {
    s.(ports := s.ports[p := k], chain := s.chain[p := []], ids := s.ids[p := id])
  }

  ghost function Destroyed(s: PortState, p: int): PortState {
    s.(ports := s.ports - {p}, chain := s.chain - {p}, ids := s.ids - {p},
        lost := s.lost + set m | m in ChainOf(s.chain, p))
  }

  ghost function Sent(s: PortState, p: int, m: int, k: Message, c: seq<byte>): PortState {
    var L := ChainOf(s.chain, p);
    s.(ports := s.ports[p := Longer(GetPort(s.ports, p), m)], msgs := Appended(s.msgs, L, m, k),
        payload := s.payload[k.data := c],
       chain := s.chain[p := L + [m]], home := s.home[m := p], of := s.of[k.data := m])
  }

  ghost function Received(s: PortState, p: int): PortState {
    var L := ChainOf(s.chain, p);
    s.(ports := s.ports[p := Shorter(GetPort(s.ports, p), At(L, 1))], msgs := s.msgs - {At(L, 0)},
        chain := s.chain[p := if |L| > 0 then L[1..] else L])
  }

  lemma CreateKeeps(B: map<int, Binding>, s: PortState, p: int, k: Port, id: int, B': map<int, Binding>)
    requires PortsOk(B, s) && p !in s.ports && p != 0 && k.slaved == 0 && k.refcount == 1 && k.msgcount == 0
      && k.first == 0 && k.last == 0
    requires if id == 0 then B' == B else id !in B && B' == B[id := Binding(RSRC_PORT, p)]
    ensures PortsOk(B', Created(s, p, k, id)) && Queue(Created(s, p, k, id), p) == []
    ensures forall q {:trigger Queue(Created(s, p, k, id), q)} ::
      q != p ==> Queue(Created(s, p, k, id), q) == Queue(s, q)
  {
    hide QueuesOk, MastersOk, NamesOk, MessagesOk;
    CreateKeepsQueues(s.ports, s.msgs, s.chain, s.home, p, k);
    CreateKeepsMasters(B, s.ports, s.ids, p, k, id, B');
    HousedElsewhere(s, p, k);
  }

  lemma HousedElsewhere(s: PortState, p: int, k: Port)
    requires Housed(s.ports, s.msgs, s.chain, s.home, s.lost) && p !in s.ports
    ensures Housed(s.ports[p := k], s.msgs, s.chain[p := []], s.home, s.lost)
  {
    forall m {:trigger m in s.msgs} | m in s.msgs
      ensures m in s.lost || (HomeOf(s.home, m) in s.ports[p := k] && m in ChainOf(s.chain[p := []], HomeOf(s.home, m)))
    {
      if m !in s.lost { assert ChainOf(s.chain[p := []], HomeOf(s.home, m)) == ChainOf(s.chain, HomeOf(s.home, m)); }
    }
  }

  lemma DestroyKeeps(B: map<int, Binding>, s: PortState, p: int)
    requires PortsOk(B, s) && p in s.ports && s.ports[p].refcount == 1 && IdOf(s.ids, p) != 0
    ensures PortsOk(B - {IdOf(s.ids, p)}, Destroyed(s, p))
    ensures forall q {:trigger Queue(Destroyed(s, p), q)} :: q != p ==> Queue(Destroyed(s, p), q) == Queue(s, q)
  {
    hide QueuesOk, MastersOk, NamesOk, MessagesOk, Housed;
    DestroyKeepsQueues(s.ports, s.msgs, s.chain, s.home, p);
    DestroyKeepsMasters(B, s.ports, s.ids, p);
    DestroyKeepsHoused(s.ports, s.msgs, s.chain, s.home, s.lost, p);
  }

  /** Sending appends to one queue the mail that was sent, and changes no other queue. */
  lemma SendKeeps(B: map<int, Binding>, s: PortState, p: int, m: int, k: Message, c: seq<byte>)
    requires PortsOk(B, s) && p in s.ports && m !in s.msgs && m != 0 && k.next == 0 && 1 <= k.size <= 4096
      && |c| == k.size
    requires forall x {:trigger x in s.msgs} :: x in s.msgs ==> s.msgs[x].data != k.data
    ensures PortsOk(B, Sent(s, p, m, k, c)) && Sent(s, p, m, k, c).msgs.Keys == s.msgs.Keys + {m}
    ensures SameMessages(s.msgs, Sent(s, p, m, k, c).msgs) && GetMessage(Sent(s, p, m, k, c).msgs, m) == k
    ensures Queue(Sent(s, p, m, k, c), p) == Queue(s, p) + [Mail(k.fromPort, k.toPort, k.pid, c)]
    ensures forall q {:trigger Queue(Sent(s, p, m, k, c), q)} ::
      q in s.ports && q != p ==> Queue(Sent(s, p, m, k, c), q) == Queue(s, q)
  {
    hide QueuesOk, MastersOk, NamesOk, MessagesOk, Housed, Appended, Linked;
    var r := Sent(s, p, m, k, c);
    SendKeepsQueues(s.ports, s.msgs, s.chain, s.home, p, m, k, r.msgs);
    assert SameMessages(s.msgs, r.msgs) by { assert forall x :: x in s.msgs ==> x in s.msgs.Keys + {m}; }
    OptionKeepsMasters(B, s.ports, s.ids, p, Longer(s.ports[p], m));
    SendKeepsMessages(s.msgs, s.payload, s.of, r.msgs, m, k, c);
    SendKeepsHoused(s.ports, s.msgs, s.chain, s.home, s.lost, p, Longer(s.ports[p], m), m, r.msgs);
    QueueLinked(s, p);
    SendMails(s.msgs, s.payload, s.of, r.msgs, ChainOf(s.chain, p), m, k, c);
    forall q {:trigger Queue(r, q)} | q in s.ports && q != p ensures Queue(r, q) == Queue(s, q) {
      QueueLinked(s, q);
      SendMails(s.msgs, s.payload, s.of, r.msgs, ChainOf(s.chain, q), m, k, c);
    }
  }

  lemma QueueLinked(s: PortState, p: int)
    requires QueuesOk(s.ports, s.msgs, s.chain, s.home) && p in s.ports
    ensures Linked(s.msgs, ChainOf(s.chain, p)) && Distinct(ChainOf(s.chain, p))
      && AtHome(s.home, ChainOf(s.chain, p), p)
    ensures s.ports[p].msgcount == |ChainOf(s.chain, p)| == |Queue(s, p)|
    ensures s.ports[p].first == At(ChainOf(s.chain, p), 0)
      && s.ports[p].last == At(ChainOf(s.chain, p), |ChainOf(s.chain, p)| - 1)
  {
    hide Linked, AtHome, Distinct;
    assert Holds(s.ports[p], s.msgs, s.home, ChainOf(s.chain, p), p);
  }

  /** Receiving takes the oldest mail off one queue and changes no other queue. */
  lemma ReceiveKeeps(B: map<int, Binding>, s: PortState, p: int)
    requires PortsOk(B, s) && p in s.ports && |ChainOf(s.chain, p)| > 0
    ensures PortsOk(B, Received(s, p)) && Queue(s, p) == [Queue(s, p)[0]] + Queue(Received(s, p), p)
    ensures forall q {:trigger Queue(Received(s, p), q)} ::
      q in s.ports && q != p ==> Queue(Received(s, p), q) == Queue(s, q)
  {
    hide QueuesOk, MastersOk, NamesOk, MessagesOk, Housed, Linked, Distinct, AtHome;
    var L, r := ChainOf(s.chain, p), Received(s, p);
    ReceiveKeepsQueues(s.ports, s.msgs, s.chain, s.home, p);
    QueueLinked(s, p);
    FirstOf(s.msgs, s.home, L, p);
    OptionKeepsMasters(B, s.ports, s.ids, p, Shorter(s.ports[p], At(L, 1)));
    ReceiveKeepsMessages(s.msgs, s.payload, s.of, L[0]);
    ReceiveKeepsHoused(s.ports, s.msgs, s.chain, s.home, s.lost, p, Shorter(s.ports[p], At(L, 1)));
    ReceiveMails(s.msgs, s.payload, L[1..], L[0]);
    assert Queue(s, p) == [Queue(s, p)[0]] + Mails(s.msgs, s.payload, L[1..]);
    forall q {:trigger Queue(r, q)} | q in s.ports && q != p ensures Queue(r, q) == Queue(s, q) {
      QueueLinked(s, q);
      NotHere(s.home, ChainOf(s.chain, q), q, L[0]);
      ReceiveMails(s.msgs, s.payload, ChainOf(s.chain, q), L[0]);
    }
  }

  lemma FirstOf(msgs: map<int, Message>, home: map<int, int>, L: seq<int>, p: int)
    requires Linked(msgs, L) && Distinct(L) && AtHome(home, L, p) && |L| > 0
    ensures L[0] in msgs && msgs[L[0]].next == At(L, 1) && HomeOf(home, L[0]) == p
    ensures forall i {:trigger L[1..][i]} :: 0 <= i < |L| - 1 ==> L[1..][i] != L[0]
  {
    assert GetMessage(msgs, L[0]).next == At(L, 1);
  }

  lemma NotHere(home: map<int, int>, L: seq<int>, q: int, m: int)
    requires AtHome(home, L, q) && HomeOf(home, m) != q
    ensures forall i {:trigger L[i]} :: 0 <= i < |L| ==> L[i] != m
  {
  }

  /** Options keep everything, and no queue changes. */
  lemma OptionKeeps(B: map<int, Binding>, s: PortState, p: int, k: Port)
    requires PortsOk(B, s) && p in s.ports && SameQueue(s.ports[p], k) && k.slaved == s.ports[p].slaved
      && k.refcount == s.ports[p].refcount
    ensures PortsOk(B, s.(ports := s.ports[p := k]))
  {
    hide QueuesOk, MastersOk, NamesOk, MessagesOk;
    OptionKeepsQueues(s.ports, s.msgs, s.chain, s.home, p, k);
    OptionKeepsMasters(B, s.ports, s.ids, p, k);
  }

  lemma SlaveKeeps(B: map<int, Binding>, s: PortState, p: int, arg: int, r: map<int, Port>)
    requires PortsOk(B, s) && p in s.ports && (arg != 0 ==> NamesPort(B, s.ports, arg))
    requires (s.ports[p].slaved != 0 ==> NamesPort(B, s.ports, s.ports[p].slaved)) && r == Reslaved(B, s.ports, p, arg)
    ensures PortsOk(B, s.(ports := r))
  {
    hide MastersOk, NamesOk, MessagesOk, QueuesOk, Housed, Reslaved;
    SlaveKeepsMasters(B, s.ports, s.ids, p, arg, r);
    ReslavedQueues(B, s.ports, p, arg, r);
    SameQueues(s, r);
  }

  lemma ReslavedQueues(B: map<int, Binding>, ports: map<int, Port>, p: int, arg: int, r: map<int, Port>)
    requires p in ports && (arg != 0 ==> NamesPort(B, ports, arg))
      && (ports[p].slaved != 0 ==> NamesPort(B, ports, ports[p].slaved))
    requires r == Reslaved(B, ports, p, arg)
    ensures r.Keys == ports.Keys
    ensures forall q {:trigger SameQueue(ports[q], r[q])} :: q in ports && q in r ==> SameQueue(ports[q], r[q])
  {
  }

  lemma SameQueues(s: PortState, r: map<int, Port>)
    requires QueuesOk(s.ports, s.msgs, s.chain, s.home) && Housed(s.ports, s.msgs, s.chain, s.home, s.lost)
      && r.Keys == s.ports.Keys
    requires forall q {:trigger SameQueue(s.ports[q], r[q])} :: q in s.ports && q in r ==> SameQueue(s.ports[q], r[q])
    ensures QueuesOk(r, s.msgs, s.chain, s.home) && Housed(r, s.msgs, s.chain, s.home, s.lost)
  {
    hide Linked, AtHome, Distinct;
    forall q {:trigger q in r} | q in r ensures Holds(r[q], s.msgs, s.home, ChainOf(s.chain, q), q) {
      assert q in s.ports;
      assert SameQueue(s.ports[q], r[q]);
    }
    forall m {:trigger m in s.msgs} | m in s.msgs
      ensures m in s.lost || (HomeOf(s.home, m) in r && m in ChainOf(s.chain, HomeOf(s.home, m)))
    {
      assert HomeOf(s.home, m) in s.ports.Keys ==> HomeOf(s.home, m) in r;
    }
  }

  // ----- one step -----

  /** What a step does to the ports: one is made, one goes away that had the given master or none, mail joins or leaves
      a queue, or none of this. */
  datatype Change = Made(p: int) | Gone(p: int, master: int) | Put(p: int, mail: Mail) | Got(p: int, mail: Mail) | Still

  predicate Touches(c: Change, q: int) { !c.Still? && c.p == q }

  /** The step c leads from s to r: mail joins the end of one queue or leaves its front, all other queues stay, only a
      port that counts one goes away, and the only messages lost are those that waited there. */
  ghost predicate Follows(s: PortState, c: Change, r: PortState) {
    && r.lost == (if c.Gone? then s.lost + set m | m in ChainOf(s.chain, c.p) else s.lost)
    && (match c
        case Made(p) => p !in s.ports && r.ports.Keys == s.ports.Keys + {p} && Queue(r, p) == []
        case Gone(p, _) => p in s.ports && s.ports[p].refcount == 1 && r.ports.Keys == s.ports.Keys - {p}
        case Put(p, mail) =>
          p in s.ports && SameLinks(s.ports, r.ports) && r.ids == s.ids && Queue(r, p) == Queue(s, p) + [mail]
        case Got(p, mail) =>
          p in s.ports && SameLinks(s.ports, r.ports) && r.ids == s.ids && Queue(s, p) == [mail] + Queue(r, p)
        case Still => r.ports.Keys == s.ports.Keys)
    && forall q {:trigger Queue(r, q)} :: q in s.ports && !Touches(c, q) ==> Queue(r, q) == Queue(s, q)
  }

  lemma PutLast(s: PortState, p: int, mail: Mail, r: PortState)
    requires Steps(s, Put(p, mail), r)
    ensures Queue(r, p) == Queue(s, p) + [mail]
  {
    hide Counted, Queue;
  }

  // ----- the count of slaves -----

  /** By how much the count of q exceeds one and the number of its slaves. */
  ghost function Excess(s: PortState, q: int): int {
    GetPort(s.ports, q).refcount - 1 - |Slaves(s.ports, IdOf(s.ids, q))|
  }

  /** The count of q is one and the number of its slaves, as kernel/port.h has it. A port that got no identifier can be
      nobody's master. */
  ghost predicate Exact(s: PortState) {
    forall q {:trigger Excess(s, q)} :: q in s.ports && IdOf(s.ids, q) != 0 ==> Excess(s, q) == 0
  }

  /** The excess of q grows by one if a slave of q's goes away and otherwise stays; a new port has none. */
  ghost predicate CountedAt(s: PortState, c: Change, r: PortState, q: int) {
    if c == Made(q) then IdOf(r.ids, q) != 0 ==> Excess(r, q) == 0
    else q in s.ports && IdOf(s.ids, q) == IdOf(r.ids, q)
         && (IdOf(r.ids, q) != 0 ==> Excess(r, q) == Excess(s, q) + if c.Gone? && c.master == q then 1 else 0)
  }

  ghost predicate Counted(s: PortState, c: Change, r: PortState) {
    forall q {:trigger CountedAt(s, c, r, q)} :: q in r.ports ==> CountedAt(s, c, r, q)
  }

  ghost function MasterOf(B: map<int, Binding>, ports: map<int, Port>, p: int): int {
    var id := GetPort(ports, p).slaved;
    if NamesPort(B, ports, id) then B[id].data else 0
  }

  lemma CreateCounted(B: map<int, Binding>, s: PortState, p: int, k: Port, id: int)
    requires NamesOk(B, s.ports, s.ids) && MastersOk(B, s.ports, s.ids) && p !in s.ports && k.slaved == 0
      && k.refcount == 1 && (id == 0 || id !in B)
    ensures Counted(s, Made(p), Created(s, p, k, id))
  {
    var r := Created(s, p, k, id);
    forall q {:trigger CountedAt(s, Made(p), r, q)} | q in r.ports
      ensures CountedAt(s, Made(p), r, q)
    {
      var i := IdOf(r.ids, q);
      assert i != 0 ==> Slaves(r.ports, i) == Slaves(s.ports, i);
      if q == p && id != 0 {
        assert forall x :: x in Slaves(s.ports, id) ==> NamesPort(B, s.ports, id);
        assert Slaves(s.ports, id) == {};
      }
    }
  }

  lemma DestroyCounted(B: map<int, Binding>, s: PortState, p: int)
    requires NamesOk(B, s.ports, s.ids) && p in s.ports && 0 !in s.ports
    ensures Counted(s, Gone(p, MasterOf(B, s.ports, p)), Destroyed(s, p))
  {
    var r, master := Destroyed(s, p), MasterOf(B, s.ports, p);
    forall q {:trigger CountedAt(s, Gone(p, master), r, q)} | q in r.ports
      ensures CountedAt(s, Gone(p, master), r, q)
    {
      var i := IdOf(s.ids, q);
      assert IdOf(r.ids, q) == i && (i != 0 ==> i in B && B[i] == Binding(RSRC_PORT, q));
      assert i != 0 ==> (master == q <==> s.ports[p].slaved == i);
      assert Slaves(r.ports, i) == Slaves(s.ports, i) - {p};
    }
  }

  lemma SlaveCounted(B: map<int, Binding>, s: PortState, p: int, arg: int, r: map<int, Port>)
    requires NamesOk(B, s.ports, s.ids) && p in s.ports && (arg != 0 ==> NamesPort(B, s.ports, arg))
    requires (s.ports[p].slaved != 0 ==> NamesPort(B, s.ports, s.ports[p].slaved)) && r == Reslaved(B, s.ports, p, arg)
    ensures Counted(s, Still, s.(ports := r))
  {
    var old', t := s.ports[p].slaved, s.(ports := r);
    assert r.Keys == s.ports.Keys;
    forall q {:trigger q in r} | q in r ensures r[q].slaved == if q == p then arg else s.ports[q].slaved {}
    forall q {:trigger CountedAt(s, Still, t, q)} | q in r ensures CountedAt(s, Still, t, q)
    {
      var i := IdOf(s.ids, q);
      assert i != 0 ==>
        r[q].refcount == s.ports[q].refcount + (if i == arg then 1 else 0) - (if i == old' then 1 else 0);
      SlavesMove(s.ports, r, p, arg, i);
    }
  }

  /** The same masters and the same counts. */
  ghost predicate SameCounts(ports: map<int, Port>, r: map<int, Port>) {
    r.Keys == ports.Keys
    && forall p {:trigger GetPort(r, p)} ::
       p in ports ==> GetPort(r, p).slaved == ports[p].slaved && GetPort(r, p).refcount == ports[p].refcount
  }

  lemma CountsSame(s: PortState, c: Change, r: PortState)
    requires SameCounts(s.ports, r.ports) && r.ids == s.ids && !c.Made? && !c.Gone?
    ensures Counted(s, c, r)
  {
    forall q {:trigger CountedAt(s, c, r, q)} | q in r.ports ensures CountedAt(s, c, r, q) {
      var i := IdOf(s.ids, q);
      assert q in s.ports.Keys && GetPort(r.ports, q) == r.ports[q];
      forall x ensures x in Slaves(r.ports, i) <==> x in Slaves(s.ports, i) {
        assert x in r.ports.Keys <==> x in s.ports.Keys;
        assert x in s.ports ==> GetPort(r.ports, x) == r.ports[x];
      }
      assert Slaves(r.ports, i) == Slaves(s.ports, i);
    }
  }

  ghost predicate Steps(s: PortState, c: Change, r: PortState) { Follows(s, c, r) && Counted(s, c, r) }

  lemma CreateSteps(B: map<int, Binding>, s: PortState, p: int, k: Port, id: int, B': map<int, Binding>)
    requires PortsOk(B, s) && p !in s.ports && p != 0 && k.slaved == 0 && k.refcount == 1 && k.msgcount == 0
      && k.first == 0 && k.last == 0
    requires if id == 0 then B' == B else id !in B && B' == B[id := Binding(RSRC_PORT, p)]
    ensures Steps(s, Made(p), Created(s, p, k, id))
  {
    hide Queue, Counted, QueuesOk, MastersOk, NamesOk, MessagesOk, Housed;
    CreateKeeps(B, s, p, k, id, B');
    CreateCounted(B, s, p, k, id);
  }

  lemma DestroySteps(B: map<int, Binding>, s: PortState, p: int)
    requires PortsOk(B, s) && p in s.ports && s.ports[p].refcount == 1 && IdOf(s.ids, p) != 0
    ensures Steps(s, Gone(p, MasterOf(B, s.ports, p)), Destroyed(s, p))
  {
    hide Queue, Counted, Holds, MastersOk, NamesOk, MessagesOk, Housed;
    DestroyKeeps(B, s, p);
    DestroyCounted(B, s, p);
  }

  lemma SendSteps(B: map<int, Binding>, s: PortState, p: int, m: int, k: Message, c: seq<byte>)
    requires PortsOk(B, s) && p in s.ports && m !in s.msgs && m != 0 && k.next == 0 && 1 <= k.size <= 4096
      && |c| == k.size
    requires forall x {:trigger x in s.msgs} :: x in s.msgs ==> s.msgs[x].data != k.data
    ensures Steps(s, Put(p, Mail(k.fromPort, k.toPort, k.pid, c)), Sent(s, p, m, k, c))
  {
    hide PortsOk, Queue, Counted, Appended, SameMessages;
    SendKeeps(B, s, p, m, k, c);
    LongerLinks(s.ports, p, m);
    CountsSame(s, Put(p, Mail(k.fromPort, k.toPort, k.pid, c)), Sent(s, p, m, k, c));
  }

  lemma ReceiveSteps(B: map<int, Binding>, s: PortState, p: int)
    requires PortsOk(B, s) && p in s.ports && |ChainOf(s.chain, p)| > 0
    ensures |Queue(s, p)| > 0 && Steps(s, Got(p, Queue(s, p)[0]), Received(s, p))
  {
    hide PortsOk, Queue, Counted, Shorter;
    ReceiveKeeps(B, s, p);
    ShorterLinks(s.ports, p, At(ChainOf(s.chain, p), 1));
    CountsSame(s, Got(p, Queue(s, p)[0]), Received(s, p));
  }

  lemma RestrictSteps(s: PortState, p: int, arg: int)
    requires p in s.ports
    ensures Steps(s, Still, s.(ports := s.ports[p := s.ports[p].(restrict := arg)]))
  {
    hide Counted;
    CountsSame(s, Still, s.(ports := s.ports[p := s.ports[p].(restrict := arg)]));
  }

  lemma SlaveSteps(B: map<int, Binding>, s: PortState, p: int, arg: int, r: map<int, Port>)
    requires NamesOk(B, s.ports, s.ids) && p in s.ports && (arg != 0 ==> NamesPort(B, s.ports, arg))
    requires (s.ports[p].slaved != 0 ==> NamesPort(B, s.ports, s.ports[p].slaved)) && r == Reslaved(B, s.ports, p, arg)
    ensures Steps(s, Still, s.(ports := r))
  {
    hide Counted, NamesOk;
    SlaveCounted(B, s, p, arg, r);
  }

  lemma StillSteps(s: PortState)
    ensures Steps(s, Still, s)
  {
  }

  /** A step keeps all counts exact unless it destroys a slave: the master's count then stays too high. */
  lemma StepKeepsExact(s: PortState, c: Change, r: PortState)
    requires Exact(s) && Counted(s, c, r)
    ensures Exact(r) <==> !(c.Gone? && c.master in r.ports && IdOf(r.ids, c.master) != 0)
  {
    hide Excess;
    if c.Gone? && c.master in r.ports && IdOf(r.ids, c.master) != 0 {
      assert CountedAt(s, c, r, c.master);
      assert Excess(s, c.master) == 0;
    } else {
      forall q {:trigger Excess(r, q)} | q in r.ports && IdOf(r.ids, q) != 0 ensures Excess(r, q) == 0 {
        assert CountedAt(s, c, r, q);
        assert c != Made(q) ==> Excess(s, q) == 0;
      }
    }
  }

  /** Destroying a port keeps all counts exact if and only if it is nobody's slave. */
  lemma DestroyKeepsExact(B: map<int, Binding>, s: PortState, p: int)
    requires PortsOk(B, s) && Exact(s) && p in s.ports && s.ports[p].refcount == 1 && IdOf(s.ids, p) != 0
    ensures Exact(Destroyed(s, p)) <==> s.ports[p].slaved == 0
  {
    hide Holds, MessagesOk, Housed, Exact, Counted;
    DestroyCounted(B, s, p);
    StepKeepsExact(s, Gone(p, MasterOf(B, s.ports, p)), Destroyed(s, p));
    assert Referenced(s.ports, s.ids, p);
    var id := s.ports[p].slaved;
    assert id == IdOf(s.ids, p) ==> p in Slaves(s.ports, id);
    if id != 0 {
      assert NamesPort(B, s.ports, id);
      assert IdOf(s.ids, B[id].data) == id;
    }
  }

  // ----- runs -----

  /** The states and the changes of a run. */
  ghost predicate PortRun(states: seq<PortState>, log: seq<Change>) {
    |states| == |log| + 1 && forall i {:trigger log[i]} :: 0 <= i < |log| ==> Steps(states[i], log[i], states[i + 1])
  }

  /** The mail that waited on p at s and the mail sent to p after that, or only the latter if p was made later. */
  ghost function SentTo(s: PortState, log: seq<Change>, p: int): seq<Mail> {
    if log == [] then Queue(s, p)
    else
      var c, before := log[|log| - 1], SentTo(s, log[..|log| - 1], p);
      if c == Made(p) then [] else if c.Put? && c.p == p then before + [c.mail] else before
  }

  /** What was received from p, since p was made if it was. */
  ghost function GotFrom(log: seq<Change>, p: int): seq<Mail> {
    if log == [] then []
    else
      var c, before := log[|log| - 1], GotFrom(log[..|log| - 1], p);
      if c == Made(p) then [] else if c.Got? && c.p == p then before + [c.mail] else before
  }

  /** How many slaves of q went away since q was made, or since s, where the count exceeded the slaves already. */
  ghost function Forgotten(s: PortState, log: seq<Change>, q: int): int {
    if log == [] then Excess(s, q)
    else
      var c, before := log[|log| - 1], Forgotten(s, log[..|log| - 1], q);
      if c == Made(q) then 0 else if c.Gone? && c.master == q then before + 1 else before
  }

  lemma RunBegins(states: seq<PortState>, log: seq<Change>)
    requires PortRun(states, log) && |log| > 0
    ensures PortRun(states[..|log|], log[..|log| - 1])
  {
    hide Steps;
    var n, fewer := |log| - 1, log[..|log| - 1];
    assert forall i {:trigger fewer[i]} :: 0 <= i < n ==> fewer[i] == log[i];
  }

  lemma RunGrows(states: seq<PortState>, log: seq<Change>, c: Change, r: PortState)
    requires PortRun(states, log) && Steps(states[|log|], c, r)
    ensures PortRun(states + [r], log + [c])
  {
    hide Steps;
    var states', log' := states + [r], log + [c];
    forall i {:trigger log'[i]} | 0 <= i < |log'| ensures Steps(states'[i], log'[i], states'[i + 1]) {
      if i < |log| { assert log'[i] == log[i]; }
    }
  }

  lemma QueueStep(s: PortState, c: Change, r: PortState, p: int)
    requires Follows(s, c, r) && p in r.ports && c != Made(p)
    ensures p in s.ports && if c.Put? && c.p == p then Queue(r, p) == Queue(s, p) + [c.mail]
                            else if c.Got? && c.p == p then Queue(s, p) == [c.mail] + Queue(r, p)
                            else Queue(r, p) == Queue(s, p)
  {
    hide Queue;
    assert p in r.ports.Keys;
  }

  lemma NewQueue(s: PortState, p: int, r: PortState)
    requires Follows(s, Made(p), r)
    ensures Queue(r, p) == []
  {
  }

  /** Over any run, what was received from a live port and what waits on it is what was sent to it, in the order of
      sending. */
  lemma {:induction false} ReceivedInOrder(states: seq<PortState>, log: seq<Change>, p: int)
    requires PortRun(states, log) && p in states[|log|].ports
    ensures SentTo(states[0], log, p) == GotFrom(log, p) + Queue(states[|log|], p)
  {
    hide Queue, Counted, Follows;
    if log != [] {
      var n := |log| - 1;
      assert Steps(states[n], log[n], states[n + 1]);
      if log[n] == Made(p) {
        NewQueue(states[n], p, states[n + 1]);
      } else {
        QueueStep(states[n], log[n], states[n + 1], p);
        RunBegins(states, log);
        ReceivedInOrder(states[..n + 1], log[..n], p);
      }
    }
  }

  /** Mail that was sent to p waited there at s or was put there since. */
  lemma {:induction false} SentFrom(s: PortState, log: seq<Change>, p: int, x: Mail)
    requires x in SentTo(s, log, p)
    ensures x in Queue(s, p) || exists i {:trigger log[i]} :: 0 <= i < |log| && log[i] == Put(p, x)
  {
    hide Queue;
    if log != [] {
      var n, before := |log| - 1, log[..|log| - 1];
      if log[n] != Put(p, x) {
        SentFrom(s, before, p, x);
        if x !in Queue(s, p) {
          var i {:trigger before[i]} :| 0 <= i < n && before[i] == Put(p, x);
          assert log[i] == Put(p, x);
        }
      }
    }
  }

  /** Over any run, the count of a named port is one, its slaves, and those of its slaves that went away. */
  lemma {:induction false} CountOverRun(states: seq<PortState>, log: seq<Change>, q: int)
    requires PortRun(states, log) && q in states[|log|].ports && IdOf(states[|log|].ids, q) != 0
    ensures var s := states[|log|];
      s.ports[q].refcount == 1 + |Slaves(s.ports, IdOf(s.ids, q))| + Forgotten(states[0], log, q)
  {
    hide Follows;
    if log != [] {
      var n := |log| - 1;
      assert Steps(states[n], log[n], states[n + 1]);
      assert CountedAt(states[n], log[n], states[n + 1], q);
      if log[n] != Made(q) {
        RunBegins(states, log);
        CountOverRun(states[..n + 1], log[..n], q);
      }
    }
  }

  /** A port whose count exceeds its slaves is there for ever, since only a port that counts one is destroyed. */
  lemma {:induction false} ExcessStays(states: seq<PortState>, log: seq<Change>, q: int)
    requires PortRun(states, log) && q in states[0].ports && IdOf(states[0].ids, q) != 0 && Excess(states[0], q) > 0
    ensures var s := states[|log|];
      q in s.ports && IdOf(s.ids, q) == IdOf(states[0].ids, q) && Excess(s, q) >= Excess(states[0], q)
  {
    if log != [] {
      var n := |log| - 1;
      RunBegins(states, log);
      ExcessStays(states[..n + 1], log[..n], q);
      assert Steps(states[n], log[n], states[n + 1]);
      assert q in states[n + 1].ports by { LinksKeys(states[n], log[n], states[n + 1], q); }
      assert CountedAt(states[n], log[n], states[n + 1], q);
    }
  }

  lemma LinksKeys(s: PortState, c: Change, r: PortState, q: int)
    requires Follows(s, c, r) && q in s.ports && s.ports[q].refcount > 1
    ensures q in r.ports && c != Made(q)
  {
    assert q in r.ports.Keys;
  }

  /** The run destroys no port on which mail waits. */
  ghost predicate Spares(states: seq<PortState>, log: seq<Change>)
    requires |states| == |log| + 1
  { forall i {:trigger log[i]} :: 0 <= i < |log| && log[i].Gone? ==> Queue(states[i], log[i].p) == [] }

  lemma {:induction false} NothingLost(states: seq<PortState>, log: seq<Change>)
    requires PortRun(states, log) && Spares(states, log) && states[0].lost == {}
    ensures states[|log|].lost == {}
  {
    hide Counted;
    if log != [] {
      var n := |log| - 1;
      var fewer := log[..n];
      assert forall i {:trigger fewer[i]} :: 0 <= i < n ==> fewer[i] == log[i];
      RunBegins(states, log);
      NothingLost(states[..n + 1], fewer);
      assert Steps(states[n], log[n], states[n + 1]);
      if log[n].Gone? { assert |Queue(states[n], log[n].p)| == |ChainOf(states[n].chain, log[n].p)|; }
    }
  }
}
