/** One blocking bounded channel: ten nodes, of which some are idle and the rest hold messages,
    and the processes parked for an idle node or for a message with a given key. A message queue
    (kernel/msgqueue.c, key = message type) and a mailbox (kernel/box.c, key = sender) are both
    channels of this kind. */
module IpcChannel {
  import opened Basics

  const SLOTS := 10      // MSGMNB, BOXMNB
  const MAX_BYTES := 128 // MSGMAX, BOXMAX

  // ---------------------------------------------------------------------------------------
  // Values

  /** The fields of a PCB that the IPC code writes. wake is waiting_to_ready. */
  datatype Proc = Proc(stat: Stat, ticks: int, priority: int, wake: int)

  datatype Node = Node(key: int, size: int, buffer: seq<byte>)
  datatype Waiter = Waiter(pid: nat, key: int)
  /** A message; size is the one it was sent with, cut at MAX_BYTES, and may be negative. */
  datatype Msg = Msg(key: int, size: int, data: seq<byte>)

  datatype Chan = Chan(nodes: seq<Node>, idle: seq<nat>, used: seq<nat>, wIdle: seq<nat>, wUse: seq<Waiter>)

  function Max(a: int, b: int): int { if a > b then a else b }

  function Parked(p: Proc): Proc { p.(stat := WAITING, ticks := 0, wake := 0) }
  function Awake(p: Proc, w: int): Proc { p.(stat := READY, ticks := p.priority, wake := w) }

  /** Every node is idle or used, none twice. */
  ghost predicate NodesOk(c: Chan) {
    && |c.nodes| == SLOTS && |c.idle| + |c.used| == SLOTS && Distinct(c.idle + c.used)
    && (forall i :: 0 <= i < |c.idle| ==> c.idle[i] < SLOTS)
    && (forall i :: 0 <= i < |c.used| ==> c.used[i] < SLOTS)
    && (forall n :: 0 <= n < |c.nodes| ==> |c.nodes[n].buffer| == MAX_BYTES && c.nodes[n].size <= MAX_BYTES)
  }

  function Payload(n: Node): seq<byte>
    requires n.size <= |n.buffer|
  {
    n.buffer[..Max(0, n.size)]
  }

  /** The messages in the channel, oldest first. */
  ghost function Queue(c: Chan): (q: seq<Msg>)
    requires NodesOk(c)
    ensures |q| == |c.used|
    ensures forall i :: 0 <= i < |q| ==> q[i] == Msg(c.nodes[c.used[i]].key, c.nodes[c.used[i]].size, Payload(c.nodes[c.used[i]]))
  {
    seq(|c.used|, i requires 0 <= i < |c.used| => Msg(c.nodes[c.used[i]].key, c.nodes[c.used[i]].size, Payload(c.nodes[c.used[i]])))
  }

  function FreshChan(): (c: Chan) {
    Chan(seq(SLOTS, _ => Node(0, 0, seq(MAX_BYTES, _ => 0))), seq(SLOTS, i requires 0 <= i => i), [], [], [])
  }

  lemma FreshNodesOk()
    ensures NodesOk(FreshChan()) && Queue(FreshChan()) == []
  {
  }

  /** Position of the first message with the key, or the length. */
  function FirstMsg(nodes: seq<Node>, used: seq<nat>, key: int): (k: nat)
    requires forall i :: 0 <= i < |used| ==> used[i] < |nodes|
    ensures k <= |used| && (k < |used| ==> nodes[used[k]].key == key)
    ensures forall i :: 0 <= i < k ==> nodes[used[i]].key != key
  {
    if used == [] || nodes[used[0]].key == key then 0 else 1 + FirstMsg(nodes, used[1..], key)
  }

  /** Position of the first receiver parked for the key, or the length. */
  function FirstWaiter(w: seq<Waiter>, key: int): (k: nat)
    ensures k <= |w| && (k < |w| ==> w[k].key == key)
    ensures forall i :: 0 <= i < k ==> w[i].key != key
  {
    if w == [] || w[0].key == key then 0 else 1 + FirstWaiter(w[1..], key)
  }

  /** What the copy loop leaves in a node's buffer: the first bytes new, the rest stale. */
  function Stored(old_: seq<byte>, size: int, data: seq<byte>): seq<byte>
    requires Min(size, MAX_BYTES) <= |data| && |old_| == MAX_BYTES
  {
    data[..Max(0, Min(size, MAX_BYTES))] + old_[Max(0, Min(size, MAX_BYTES))..]
  }

  lemma StoredByte(old_: seq<byte>, data: seq<byte>, i: nat)
    requires i < |old_| && i < |data|
    ensures (data[..i] + old_[i..])[i := data[i]] == data[..i + 1] + old_[i + 1..]
  {
  }

  /** A message goes into the first idle node. */
  function Put(c: Chan, key: int, size: int, data: seq<byte>): Chan
    requires NodesOk(c) && c.idle != [] && Min(size, MAX_BYTES) <= |data|
  {
    var n := c.idle[0];
    c.(nodes := c.nodes[n := Node(key, Min(size, MAX_BYTES), Stored(c.nodes[n].buffer, size, data))],
       idle := c.idle[1..], used := c.used + [n])
  }

  /** The k-th message leaves; its node becomes the first idle one. */
  function TakeAt(c: Chan, k: nat): Chan
    requires NodesOk(c) && k < |c.used|
  {
    var n := c.used[k];
    c.(nodes := c.nodes[n := c.nodes[n].(key := 0, size := 0)], idle := [n] + c.idle, used := Without(c.used, k))
  }

  // ---------------------------------------------------------------------------------------
  // What Put and TakeAt mean for the queue of messages

  lemma PutQueue(c: Chan, key: int, size: int, data: seq<byte>)
    requires NodesOk(c) && c.idle != [] && Min(size, MAX_BYTES) <= |data|
    ensures NodesOk(Put(c, key, size, data))
    ensures Queue(Put(c, key, size, data)) == Queue(c) + [Msg(key, Min(size, MAX_BYTES), data[..Max(0, Min(size, MAX_BYTES))])]
  {
    var d, n := Put(c, key, size, data), c.idle[0];
    var all, all' := c.idle + c.used, d.idle + d.used;
    assert all[0] == n;
    assert forall i {:trigger all'[i]} :: 0 <= i < SLOTS - 1 ==> all'[i] == all[i + 1];
    assert all'[SLOTS - 1] == n;
    forall i | 0 <= i < |c.used| ensures c.used[i] != n { assert all[|c.idle| + i] == c.used[i]; }
    assert Payload(d.nodes[n]) == data[..Max(0, Min(size, MAX_BYTES))];
    assert forall i :: 0 <= i < |c.used| ==> d.used[i] == c.used[i];
  }

  lemma ToFront(a: seq<nat>, b: seq<nat>, k: nat)
    requires k < |b| && Distinct(a + b)
    ensures Distinct(([b[k]] + a) + Without(b, k))
    ensures forall i :: 0 <= i < |b| && i != k ==> b[i] != b[k]
  {
    var all, all', m := a + b, ([b[k]] + a) + Without(b, k), |a|;
    forall i | 0 <= i < |b| && i != k ensures b[i] != b[k] { assert all[m + i] == b[i] && all[m + k] == b[k]; }
    forall i, j | 0 <= i < j < |all'| ensures all'[i] != all'[j] {
      assert all'[i] == all[if i == 0 then m + k else if i <= m + k then i - 1 else i];
      assert all'[j] == all[if j <= m + k then j - 1 else j];
    }
  }

  lemma TakeQueue(c: Chan, k: nat)
    requires NodesOk(c) && k < |c.used|
    ensures NodesOk(TakeAt(c, k)) && Queue(TakeAt(c, k)) == Without(Queue(c), k)
  {
    var d, n := TakeAt(c, k), c.used[k];
    ToFront(c.idle, c.used, k);
    assert forall i :: 0 <= i < |d.used| ==> d.used[i] == c.used[if i < k then i else i + 1];
  }

  // ---------------------------------------------------------------------------------------
  // The messages of one key

  ghost function Of(q: seq<Msg>, key: int): seq<Msg> {
    if q == [] then [] else (if q[0].key == key then [q[0]] else []) + Of(q[1..], key)
  }

  lemma OfPush(m: Msg, q: seq<Msg>, key: int)
    ensures Of([m] + q, key) == (if m.key == key then [m] else []) + Of(q, key)
  {
    assert ([m] + q)[1..] == q;
  }

  lemma {:induction false} OfConcat(a: seq<Msg>, b: seq<Msg>, key: int)
    ensures Of(a + b, key) == Of(a, key) + Of(b, key)
  {
    if a == [] {
      assert a + b == b;
    } else {
      var m, t := a[0], a[1..];
      OfConcat(t, b, key);
      OfPush(m, t + b, key);
      OfPush(m, t, key);
      assert a == [m] + t;
      Regroup([m], t, b);
      Regroup(if m.key == key then [m] else [], Of(t, key), Of(b, key));
    }
  }

  lemma Regroup(x: seq<Msg>, y: seq<Msg>, z: seq<Msg>)
    ensures x + y + z == x + (y + z)
  {
  }

  lemma {:induction false} OfNone(a: seq<Msg>, key: int)
    requires forall i :: 0 <= i < |a| ==> a[i].key != key
    ensures Of(a, key) == []
  {
    if a != [] { OfNone(a[1..], key); }
  }

  /** Selective receive takes the oldest message of its key and disturbs no other key. */
  lemma OfWithout(q: seq<Msg>, k: nat, key: int)
    requires k < |q| && forall i :: 0 <= i < k ==> q[i].key != q[k].key
    ensures key == q[k].key ==> Of(q, key) == [q[k]] + Of(Without(q, k), key)
    ensures key != q[k].key ==> Of(q, key) == Of(Without(q, k), key)
  {
    assert q == q[..k] + q[k..] && q[k..][1..] == q[k + 1..];
    OfConcat(q[..k], q[k..], key);
    OfConcat(q[..k], q[k + 1..], key);
    if key == q[k].key { OfNone(q[..k], key); }
  }

  lemma FirstMsgNone(c: Chan, key: int)
    requires NodesOk(c)
    ensures FirstMsg(c.nodes, c.used, key) == |c.used| <==> Of(Queue(c), key) == []
  {
    var k, q := FirstMsg(c.nodes, c.used, key), Queue(c);
    if k == |c.used| { OfNone(q, key); } else { OfWithout(q, k, key); }
  }

  // ---------------------------------------------------------------------------------------
  // The atomic sections

  datatype Outcome = Sent | Received(size: int, data: seq<byte>) | Refused | Waits

  datatype After = After(chan: Chan, procs: seq<Proc>, outcome: Outcome)

  predicate PidsOk(c: Chan, n: nat) {
    && (forall i :: 0 <= i < |c.wIdle| ==> c.wIdle[i] < n)
    && (forall i :: 0 <= i < |c.wUse| ==> c.wUse[i].pid < n)
  }

  /** wake_up_idle_process */
  function WakeSender(c: Chan, procs: seq<Proc>): (Chan, seq<Proc>)
    requires PidsOk(c, |procs|)
  {
    if c.wIdle == [] then (c, procs)
    else (c.(wIdle := c.wIdle[1..]), procs[c.wIdle[0] := Awake(procs[c.wIdle[0]], 1)])
  }

  /** wake_up_use_process */
  function WakeReceiver(c: Chan, procs: seq<Proc>, key: int): (Chan, seq<Proc>)
    requires PidsOk(c, |procs|)
  {
    var k := FirstWaiter(c.wUse, key);
    if k == |c.wUse| then (c, procs)
    else (c.(wUse := Without(c.wUse, k)), procs[c.wUse[k].pid := Awake(procs[c.wUse[k].pid], 1)])
  }

  function SendSection(c: Chan, procs: seq<Proc>, pid: nat, key: int, size: int, data: seq<byte>, wait: bool): After
    requires NodesOk(c) && PidsOk(c, |procs|) && pid < |procs| && Min(size, MAX_BYTES) <= |data|
  {
    if c.idle != [] then
      var (d, ps) := WakeReceiver(Put(c, key, size, data), procs, key);
      After(d, ps, Sent)
    else if wait then After(c.(wIdle := c.wIdle + [pid]), procs[pid := Parked(procs[pid])], Waits)
    else After(c, procs, Refused)
  }

  function ReceiveSection(c: Chan, procs: seq<Proc>, pid: nat, key: int, size: int, wait: bool): After
    requires NodesOk(c) && PidsOk(c, |procs|) && pid < |procs|
  {
    var k := FirstMsg(c.nodes, c.used, key);
    if k < |c.used| then
      var (d, ps) := WakeSender(TakeAt(c, k), procs);
      var node := c.nodes[c.used[k]];
      After(d, ps, Received(Min(size, node.size), node.buffer[..Max(0, Min(size, node.size))]))
    else if wait then After(c.(wUse := c.wUse + [Waiter(pid, key)]), procs[pid := Parked(procs[pid])], Waits)
    else After(c, procs, Refused)
  }

  lemma SendKeepsOk(c: Chan, procs: seq<Proc>, pid: nat, key: int, size: int, data: seq<byte>, wait: bool)
    requires NodesOk(c) && PidsOk(c, |procs|) && pid < |procs| && Min(size, MAX_BYTES) <= |data|
    ensures var a := SendSection(c, procs, pid, key, size, data, wait);
            NodesOk(a.chan) && PidsOk(a.chan, |procs|) && |a.procs| == |procs|
  {
    if c.idle != [] { PutQueue(c, key, size, data); }
  }

  lemma ReceiveKeepsOk(c: Chan, procs: seq<Proc>, pid: nat, key: int, size: int, wait: bool)
    requires NodesOk(c) && PidsOk(c, |procs|) && pid < |procs|
    ensures var a := ReceiveSection(c, procs, pid, key, size, wait);
            NodesOk(a.chan) && PidsOk(a.chan, |procs|) && |a.procs| == |procs|
  {
    var k := FirstMsg(c.nodes, c.used, key);
    if k < |c.used| { TakeQueue(c, k); }
  }

  /** free_process_queue */
  function Dismiss(procs: seq<Proc>, pids: seq<nat>): (ps: seq<Proc>)
    requires forall i :: 0 <= i < |pids| ==> pids[i] < |procs|
    ensures |ps| == |procs|
    decreases |pids|
  {
    if pids == [] then procs else Dismiss(procs[pids[0] := Awake(procs[pids[0]], -1)], pids[1..])
  }

  function Pids(w: seq<Waiter>): (r: seq<nat>)
    ensures |r| == |w| && forall i :: 0 <= i < |w| ==> r[i] == w[i].pid
  {
    seq(|w|, i requires 0 <= i < |w| => w[i].pid)
  }

  // ---------------------------------------------------------------------------------------
  // The channel as the kernel keeps it

  class Channel {
    var nodes: seq<Node>
    var idle: seq<nat>
    var used: seq<nat>
    var wIdle: seq<nat>
    var wUse: seq<Waiter>

    ghost function View(): Chan
      reads this
    {
      Chan(nodes, idle, used, wIdle, wUse)
    }

    /** init_msg_queue with alloc_idle_queue; alloc_box with alloc_idle_box */
    constructor ()
      ensures View() == FreshChan()
    {
      nodes, idle, used, wIdle, wUse := [], [], [], [], [];
      new;
      var i := 0;
      while i < SLOTS
        invariant 0 <= i <= SLOTS && |nodes| == |idle| == i && used == [] && wIdle == [] && wUse == []
        invariant forall j :: 0 <= j < i ==> nodes[j] == Node(0, 0, seq(MAX_BYTES, _ => 0)) && idle[j] == j
      {
        nodes := nodes + [Node(0, 0, seq(MAX_BYTES, _ => 0))];
        idle := idle + [i];
        i := i + 1;
      }
      assert nodes == FreshChan().nodes && idle == FreshChan().idle;
    }

    /** pop_use_node: the search loop. */
    method FindMessage(key: int) returns (k: nat)
      requires NodesOk(View())
      ensures k == FirstMsg(nodes, used, key)
    {
      k := 0;
      while k < |used| && nodes[used[k]].key != key
        invariant k <= |used| && FirstMsg(nodes, used, key) == k + FirstMsg(nodes, used[k..], key)
      {
        assert used[k..][1..] == used[k + 1..];
        k := k + 1;
      }
    }

    /** pop_w_use_process: the search loop. */
    method FindWaiter(key: int) returns (k: nat)
      ensures k == FirstWaiter(wUse, key)
    {
      k := 0;
      while k < |wUse| && wUse[k].key != key
        invariant k <= |wUse| && FirstWaiter(wUse, key) == k + FirstWaiter(wUse[k..], key)
      {
        assert wUse[k..][1..] == wUse[k + 1..];
        k := k + 1;
      }
    }

    /** The copy loop of a send. */
    method Fill(n: nat, key: int, size: int, data: seq<byte>)
      requires n < |nodes| && Min(size, MAX_BYTES) <= |data| && |nodes[n].buffer| == MAX_BYTES
      modifies `nodes
      ensures nodes == old(nodes)[n := Node(key, Min(size, MAX_BYTES), Stored(old(nodes)[n].buffer, size, data))]
    {
      var buffer := nodes[n].buffer;
      var i := 0;
      while i < size && i < MAX_BYTES
        invariant 0 <= i <= Max(0, Min(size, MAX_BYTES))
        invariant nodes == old(nodes) && buffer == data[..i] + old(nodes)[n].buffer[i..]
      {
        StoredByte(old(nodes)[n].buffer, data, i);
        buffer := buffer[i := data[i]];
        i := i + 1;
      }
      nodes := nodes[n := Node(key, if size > MAX_BYTES then MAX_BYTES else size, buffer)];
    }

    method WakeIdle(procs: array<Proc>)
      requires PidsOk(View(), procs.Length)
      modifies `wIdle, procs
      ensures (View(), procs[..]) == WakeSender(old(View()), old(procs[..]))
    {
      if wIdle == [] { return; }
      var p := wIdle[0];
      wIdle := wIdle[1..];
      procs[p] := Awake(procs[p], 1);
    }

    method WakeUse(procs: array<Proc>, key: int)
      requires PidsOk(View(), procs.Length)
      modifies `wUse, procs
      ensures (View(), procs[..]) == WakeReceiver(old(View()), old(procs[..]), key)
    {
      var k := FindWaiter(key);
      if k == |wUse| { return; }
      var p := wUse[k].pid;
      wUse := wUse[..k] + wUse[k + 1..];
      procs[p] := Awake(procs[p], 1);
    }

    /** msg_queue_push_node and box_push_node, one interrupt-free section. */
    method Send(procs: array<Proc>, pid: nat, key: int, size: int, data: seq<byte>, wait: bool) returns (r: Outcome)
      requires NodesOk(View()) && PidsOk(View(), procs.Length) && pid < procs.Length && Min(size, MAX_BYTES) <= |data|
      modifies this, procs
      ensures After(View(), procs[..], r) == SendSection(old(View()), old(procs[..]), pid, key, size, data, wait)
    {
      if idle == [] {
        if !wait { return Refused; }
        wIdle := wIdle + [pid];
        procs[pid] := Parked(procs[pid]);
        return Waits;
      }
      var n := idle[0];
      idle := idle[1..];
      Fill(n, key, size, data);
      used := used + [n];
      WakeUse(procs, key);
      return Sent;
    }

    /** The copy loop of a receive. */
    method Drain(n: nat, size: int) returns (data: seq<byte>)
      requires n < |nodes| && nodes[n].size <= |nodes[n].buffer|
      ensures data == nodes[n].buffer[..Max(0, Min(size, nodes[n].size))]
    {
      data := [];
      var i := 0;
      while i < (if size > nodes[n].size then nodes[n].size else size)
        invariant 0 <= i <= Max(0, Min(size, nodes[n].size)) && data == nodes[n].buffer[..i]
      {
        data := data + [nodes[n].buffer[i]];
        i := i + 1;
      }
    }

    /** msg_queue_pop_node and box_pop_node, one interrupt-free section. */
    method Receive(procs: array<Proc>, pid: nat, key: int, size: int, wait: bool) returns (r: Outcome)
      requires NodesOk(View()) && PidsOk(View(), procs.Length) && pid < procs.Length
      modifies this, procs
      ensures After(View(), procs[..], r) == ReceiveSection(old(View()), old(procs[..]), pid, key, size, wait)
    {
      var k := FindMessage(key);
      if k == |used| {
        if !wait { return Refused; }
        wUse := wUse + [Waiter(pid, key)];
        procs[pid] := Parked(procs[pid]);
        return Waits;
      }
      var n := used[k];
      used := used[..k] + used[k + 1..];
      var data := Drain(n, size);
      r := Received(if size > nodes[n].size then nodes[n].size else size, data);
      nodes := nodes[n := nodes[n].(key := 0, size := 0)];
      idle := [n] + idle;
      WakeIdle(procs);
    }

    /** The process part of free_msg_queue and free_box: both parking queues are emptied. */
    method Close(procs: array<Proc>)
      requires PidsOk(View(), procs.Length)
      modifies `wIdle, `wUse, procs
      ensures wIdle == [] && wUse == []
      ensures procs[..] == Dismiss(Dismiss(old(procs[..]), old(wIdle)), Pids(old(wUse)))
    {
      while wIdle != []
        invariant PidsOk(View(), procs.Length) && wUse == old(wUse)
        invariant Dismiss(procs[..], wIdle) == Dismiss(old(procs[..]), old(wIdle))
        decreases |wIdle|
      {
        procs[wIdle[0]] := Awake(procs[wIdle[0]], -1);
        wIdle := wIdle[1..];
      }
      ghost var mid := procs[..];
      while wUse != []
        invariant PidsOk(View(), procs.Length) && wIdle == []
        invariant Dismiss(procs[..], Pids(wUse)) == Dismiss(mid, Pids(old(wUse)))
        decreases |wUse|
      {
        assert Pids(wUse)[1..] == Pids(wUse[1..]);
        procs[wUse[0].pid] := Awake(procs[wUse[0].pid], -1);
        wUse := wUse[1..];
      }
    }
  }
}
