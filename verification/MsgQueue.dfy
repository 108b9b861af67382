/** Message queues: ten slots with an allocation mark and a key, and a channel made at the first
    use; the key of a message is its type (kernel/msgqueue.c:35-226). */
module MsgQueue {
  import opened Basics
  import opened IpcChannel
  import opened IpcRuns
  import opened IpcTable

  const MSGMNI := 10

  /** mqm_allocs (true for allocated) and mqm_keys. */
  datatype Table = Table(allocs: seq<bool>, keys: seq<int>)

  predicate TableOk(t: Table) { |t.allocs| == MSGMNI && |t.keys| == MSGMNI }

  ghost predicate KeysDistinct(t: Table)
    requires TableOk(t)
  {
    forall i, j :: 0 <= i < j < MSGMNI && t.allocs[i] && t.allocs[j] ==> t.keys[i] != t.keys[j]
  }

  ghost predicate Holds(t: Table, i: int, key: int)
    requires TableOk(t)
  {
    0 <= i < MSGMNI && t.allocs[i] && t.keys[i] == key
  }

  ghost predicate IsFree(t: Table, i: int)
    requires TableOk(t)
  {
    0 <= i < MSGMNI && !t.allocs[i]
  }

  /** What alloc_msg_queue(key) returns and leaves: the queue that has the key, else the last free
      slot, now with the key, else -1. */
  ghost predicate Allocated(t: Table, key: int, t': Table, r: int)
    requires TableOk(t)
  {
    if exists i :: Holds(t, i, key) then Holds(t, r, key) && t' == t
    else if exists i :: IsFree(t, i) then
      && IsFree(t, r) && (forall j :: r < j < MSGMNI ==> t.allocs[j])
      && t' == Table(t.allocs[r := true], t.keys[r := key])
    else r == -1 && t' == t
  }

  /** Keys stay distinct, the caller gets the queue of its key whenever there is one to get, and
      asking again gives the same queue and changes nothing. */
  lemma AllocKeepsDistinct(t: Table, key: int, t': Table, r: int, t'': Table, r': int)
    requires TableOk(t) && TableOk(t') && KeysDistinct(t) && Allocated(t, key, t', r) && Allocated(t', key, t'', r')
    ensures KeysDistinct(t')
    ensures r != -1 ==> Holds(t', r, key) && t'' == t' && r' == r
    ensures r == -1 <==> (forall i :: 0 <= i < MSGMNI ==> t.allocs[i] && t.keys[i] != key)
    ensures forall i, k :: i != r && k != key ==> (Holds(t', i, k) <==> Holds(t, i, k))
    ensures t' != t ==> 0 <= r < MSGMNI && !t.allocs[r] && forall i :: r < i < MSGMNI ==> t.allocs[i]
  {
    assert forall i :: 0 <= i < MSGMNI && t.allocs[i] && t.keys[i] == key ==> Holds(t, i, key);
    assert forall i :: 0 <= i < MSGMNI && !t.allocs[i] ==> IsFree(t, i);
    if r != -1 {
      assert Holds(t', r, key);
      assert Holds(t', r', key);
    }
  }

  function FreedTable(t: Table, id: int): Table
    requires TableOk(t) && 0 <= id < MSGMNI
  {
    Table(t.allocs[id := false], t.keys[id := 0])
  }

  /** Slot id holds no key any more, and the other slots are as they were. */
  ghost predicate GivenBack(t: Table, t': Table, id: int)
    requires TableOk(t) && TableOk(t')
  {
    && IsFree(t', id) && (forall key :: !Holds(t', id, key))
    && forall i :: i != id ==> (IsFree(t', i) <==> IsFree(t, i)) && forall key :: Holds(t', i, key) <==> Holds(t, i, key)
  }

  lemma FreedIsGivenBack(t: Table, id: int)
    requires TableOk(t) && 0 <= id < MSGMNI
    ensures GivenBack(t, FreedTable(t, id), id)
  {
  }

  /** Once a queue was given back there is one for every key. */
  lemma AllocAfterFree(t: Table, t': Table, id: int, key: int, t'': Table, r: int)
    requires TableOk(t) && TableOk(t') && GivenBack(t, t', id) && Allocated(t', key, t'', r)
    ensures 0 <= r < MSGMNI && TableOk(t'') && Holds(t'', r, key)
  {
    assert IsFree(t', id);
  }

  predicate Usable(t: Table, id: int)
    requires TableOk(t)
  {
    0 <= id < MSGMNI && t.allocs[id]
  }

  class MsgQueues {
    const allocs: array<int>
    const keys: array<int>
    const queues: ChanTable

    ghost predicate Valid()
      reads this, allocs, keys, queues, queues.slots, queues.slots[..]
    {
      && allocs.Length == keys.Length == queues.slots.Length == MSGMNI && allocs != keys
      && (forall i :: 0 <= i < MSGMNI ==> allocs[i] == 1 || allocs[i] == -1)
      && queues.Valid()
    }

    ghost function Slots(): (t: Table)
      reads this, allocs, keys
      requires allocs.Length == keys.Length == MSGMNI
      ensures TableOk(t)
    {
      Table(seq(MSGMNI, i requires 0 <= i < MSGMNI reads this, allocs => allocs[i] != -1), keys[..])
    }

    /** init_msg_queue_manage */
    constructor ()
      ensures Valid() && fresh(allocs) && fresh(keys) && fresh(queues) && fresh(queues.slots)
      ensures forall i :: 0 <= i < MSGMNI ==> !Slots().allocs[i] && queues.Chans()[i].None?
    {
      allocs := new int[MSGMNI](_ => -1);
      keys := new int[MSGMNI](_ => 0);
      queues := new ChanTable(MSGMNI);
    }

    /** alloc_msg_queue */
    method Alloc(key: int) returns (r: int)
      requires Valid()
      modifies allocs, keys
      ensures Valid() && Allocated(old(Slots()), key, Slots(), r) && queues.Chans() == old(queues.Chans())
    {
      ghost var t := Slots();
      var f, a := -1, -1;
      for i := 0 to MSGMNI
        invariant f == -1 || (f < i && Holds(t, f, key))
        invariant f == -1 ==> forall j :: 0 <= j < i ==> !Holds(t, j, key)
        invariant a == -1 || (a < i && IsFree(t, a))
        invariant forall j :: a < j < i ==> t.allocs[j]
      {
        if allocs[i] != -1 && keys[i] == key { f := i; }
        if allocs[i] == -1 { a := i; }
      }
      if f == -1 && a != -1 {
        allocs[a], keys[a] := 1, key;
        assert Slots().allocs == t.allocs[a := true];
      }
      assert a == -1 ==> forall j :: 0 <= j < MSGMNI ==> !IsFree(t, j);
      return if f != -1 then f else a;
    }

    /** free_msg_queue: the slot is free again and everybody parked at the queue is sent away. */
    method Free(procs: array<Proc>, id: int) returns (r: int)
      requires Valid() && procs.Length == NR_PCBS
      modifies allocs, keys, queues.slots, queues.slots[..], procs
      ensures Valid()
      ensures r == if 0 <= id < MSGMNI then 0 else -1
      ensures r == -1 ==> Slots() == old(Slots()) && queues.Chans() == old(queues.Chans()) && procs[..] == old(procs[..])
      ensures r == 0 ==> Slots() == FreedTable(old(Slots()), id) && queues.Chans() == old(queues.Chans())[id := None]
      ensures r == 0 ==> GivenBack(old(Slots()), Slots(), id) && !Usable(Slots(), id)
      ensures r == 0 ==> forall i :: 0 <= i < MSGMNI ==> queues.slots[i] == if i == id then null else old(queues.slots[i])
      ensures r == 0 ==> procs[..] == if old(queues.Chans())[id] == None then old(procs[..])
                                      else Dismissed(old(queues.Chans())[id].value, old(procs[..]))
    {
      if id < 0 || id >= MSGMNI { return -1; }
      FreedIsGivenBack(Slots(), id);
      FreeSlot(id);
      if queues.slots[id] != null { queues.CloseAt(procs, id); }
      return 0;
    }

    /** A queue that was freed takes no message and gives none, and there is a queue for any key. */
    method FreeThenUse(procs: array<Proc>, id: int, pid: nat, size: int, key: int, buffer: seq<byte>, wait: bool)
      returns (sent: Outcome, got: Outcome, next: int)
      requires Valid() && procs.Length == NR_PCBS && pid < NR_PCBS && Min(size, MAX_BYTES) <= |buffer| && 0 <= id < MSGMNI
      modifies allocs, keys, queues.slots, queues.slots[..], procs
      ensures sent == Refused && got == Refused && 0 <= next < MSGMNI && Holds(Slots(), next, key)
      ensures queues.Chans() == old(queues.Chans())[id := None]
    {
      ghost var t := Slots();
      var r := Free(procs, id);
      ghost var t' := Slots();
      sent := Push(procs, pid, id, size, key, buffer, wait);
      got := Pop(procs, pid, id, size, key, wait);
      next := Alloc(key);
      AllocAfterFree(t, t', id, key, Slots(), next);
    }

    method FreeSlot(id: nat)
      requires Valid() && id < MSGMNI
      modifies allocs, keys
      ensures Valid() && Slots() == FreedTable(old(Slots()), id) && queues.Chans() == old(queues.Chans())
    {
      allocs[id], keys[id] := -1, 0;
      assert Slots().allocs == old(Slots()).allocs[id := false];
    }

    /** msg_queue_push_node from its label to the end of the interrupt-free section. */
    method Push(procs: array<Proc>, pid: nat, id: int, size: int, key: int, buffer: seq<byte>, wait: bool) returns (r: Outcome)
      requires Valid() && procs.Length == NR_PCBS && pid < NR_PCBS && Min(size, MAX_BYTES) <= |buffer|
      modifies queues.slots, queues.slots[..], procs
      ensures Valid() && Slots() == old(Slots())
      ensures !Usable(Slots(), id) ==> r == Refused && queues.Chans() == old(queues.Chans()) && procs[..] == old(procs[..])
      ensures !Usable(Slots(), id) ==> queues.slots[..] == old(queues.slots[..])
      ensures Usable(Slots(), id) ==>
                var a := SendSection(Ensured(old(queues.Chans())[id]), old(procs[..]), pid, key, size, buffer, wait);
                queues.Chans() == old(queues.Chans())[id := Some(a.chan)] && procs[..] == a.procs && r == a.outcome
    {
      if id < 0 || id >= MSGMNI || allocs[id] == -1 { return Refused; }
      queues.EnsureAt(id);
      r := queues.SendAt(procs, pid, id, size, key, buffer, wait);
    }

    /** msg_queue_pop_node from its label to the end of the interrupt-free section. */
    method Pop(procs: array<Proc>, pid: nat, id: int, size: int, key: int, wait: bool) returns (r: Outcome)
      requires Valid() && procs.Length == NR_PCBS && pid < NR_PCBS
      modifies queues.slots, queues.slots[..], procs
      ensures Valid() && Slots() == old(Slots())
      ensures !Usable(Slots(), id) ==> r == Refused && queues.Chans() == old(queues.Chans()) && procs[..] == old(procs[..])
      ensures !Usable(Slots(), id) ==> queues.slots[..] == old(queues.slots[..])
      ensures Usable(Slots(), id) ==>
                var a := ReceiveSection(Ensured(old(queues.Chans())[id]), old(procs[..]), pid, key, size, wait);
                queues.Chans() == old(queues.Chans())[id := Some(a.chan)] && procs[..] == a.procs && r == a.outcome
    {
      if id < 0 || id >= MSGMNI || allocs[id] == -1 { return Refused; }
      queues.EnsureAt(id);
      r := queues.ReceiveAt(procs, pid, id, size, key, wait);
    }
  }

  // ---------------------------------------------------------------------------------------
  // Runs of message queue calls are runs of the channels

  datatype System = System(table: Table, ipc: State)

  datatype Action =
    | AllocQueue(key: int)
    | FreeQueue(id: int)
    | EnterCall(pid: nat, call: Call, wait: bool)
    | RetryCall(pid: nat)
    | LeaveCall(pid: nat)

  ghost predicate SystemInv(s: System) {
    && TableOk(s.table) && KeysDistinct(s.table) && Inv(s.ipc) && |s.ipc.chans| == MSGMNI
    && forall c :: 0 <= c < MSGMNI && !s.table.allocs[c] ==> s.ipc.chans[c].None?
  }

  /** A call on an allocated queue makes its channel first if need be. */
  ghost function Readied(s: System, c: nat): (st: State)
    requires SystemInv(s)
    ensures Inv(st) && st.pend == s.ipc.pend && st.procs == s.ipc.procs && |st.chans| == MSGMNI
    ensures Usable(s.table, c) ==> IsOpen(st.chans, c) && st.chans[c].value == Ensured(s.ipc.chans[c])
    ensures !Usable(s.table, c) ==> st == s.ipc && !IsOpen(st.chans, c)
    ensures forall d :: 0 <= d < MSGMNI && !s.table.allocs[d] ==> st.chans[d].None?
  {
    if Usable(s.table, c) && s.ipc.chans[c].None? then
      StepKeeps(s.ipc, Open(c));
      Next(s.ipc, Open(c))
    else s.ipc
  }

  ghost predicate SystemStep(s: System, a: Action, s': System)
    requires SystemInv(s)
  {
    match a
    case AllocQueue(key) => s'.ipc == s.ipc && exists r :: Allocated(s.table, key, s'.table, r)
    case FreeQueue(id) =>
      if 0 <= id < MSGMNI then
        s'.table == FreedTable(s.table, id) && s'.ipc == if s.ipc.chans[id].None? then s.ipc else Next(s.ipc, Close(id))
      else s' == s
    case EnterCall(pid, call, wait) =>
      Enabled(s.ipc, Enter(pid, call, wait)) && s'.table == s.table && s'.ipc == Act(Readied(s, call.chan), pid, call, wait)
    case RetryCall(pid) =>
      Enabled(s.ipc, Retry(pid)) && s'.table == s.table && s'.ipc == Act(Readied(s, s.ipc.pend[pid].chan), pid, s.ipc.pend[pid], true)
    case LeaveCall(pid) => Enabled(s.ipc, Leave(pid)) && s'.table == s.table && s'.ipc == Next(s.ipc, Leave(pid))
  }

  /** Every action keeps the queue keys distinct and the channels in order: freed queues leave
      nobody parked, and a process woken into a queue that was freed meanwhile is refused, or
      served by the queue that took its slot. */
  lemma SystemStepKeeps(s: System, a: Action, s': System)
    requires SystemInv(s) && SystemStep(s, a, s')
    ensures SystemInv(s')
  {
    match a
    case AllocQueue(key) =>
      var r :| Allocated(s.table, key, s'.table, r);
      AllocOnce(s.table, key, s'.table, r);
    case FreeQueue(id) =>
      if 0 <= id < MSGMNI && s.ipc.chans[id].Some? { StepKeeps(s.ipc, Close(id)); }
    case EnterCall(pid, call, wait) =>
      ActKeeps(Readied(s, call.chan), pid, call, wait);
    case RetryCall(pid) =>
      ActKeeps(Readied(s, s.ipc.pend[pid].chan), pid, s.ipc.pend[pid], true);
    case LeaveCall(pid) =>
      StepKeeps(s.ipc, Leave(pid));
  }

  /** What a call does in a run is what Push and Pop do: nothing on a queue that is not allocated,
      else one section on its channel. */
  lemma CallIsSection(s: System, pid: nat, call: Call, wait: bool)
    requires SystemInv(s) && MayAct(s.ipc, pid, call)
    ensures var st := Act(Readied(s, call.chan), pid, call, wait);
            if Usable(s.table, call.chan) then
              && PidsOk(Ensured(s.ipc.chans[call.chan]), |s.ipc.procs|)
              && var a := Section(Ensured(s.ipc.chans[call.chan]), s.ipc.procs, pid, call, wait);
                 st.chans == s.ipc.chans[call.chan := Some(a.chan)] && st.procs == a.procs
            else st.chans == s.ipc.chans && st.procs == s.ipc.procs
  {
    var st := Readied(s, call.chan);
    if Usable(s.table, call.chan) { WaitersArePids(st.chans[call.chan].value, st.procs, st.pend, call.chan); }
  }

  lemma AllocOnce(t: Table, key: int, t': Table, r: int)
    requires TableOk(t) && KeysDistinct(t) && Allocated(t, key, t', r)
    ensures TableOk(t') && KeysDistinct(t') && forall i :: 0 <= i < MSGMNI && !t'.allocs[i] ==> !t.allocs[i]
  {
    assert forall i :: 0 <= i < MSGMNI && t.allocs[i] && t.keys[i] == key ==> Holds(t, i, key);
    assert forall i :: 0 <= i < MSGMNI && !t.allocs[i] ==> IsFree(t, i);
  }

  ghost predicate IsSystemRun(run: seq<System>, actions: seq<Action>) {
    && |run| == |actions| + 1
    && (exists procs, keys :: |keys| == MSGMNI && run[0] == System(Table(seq(MSGMNI, _ => false), keys), Start(procs, MSGMNI)))
    && forall i :: 0 <= i < |actions| ==> SystemInv(run[i]) ==> SystemStep(run[i], actions[i], run[i + 1])
  }

  lemma {:induction false} SystemRunKeeps(run: seq<System>, actions: seq<Action>, i: nat)
    requires IsSystemRun(run, actions) && i < |run|
    ensures SystemInv(run[i])
  {
    if i > 0 {
      SystemRunKeeps(run, actions, i - 1);
      SystemStepKeeps(run[i - 1], actions[i - 1], run[i]);
    }
  }

  /** In every reachable state a process in a call waits without ticks while it is parked, and is
      READY with ticks of its priority once woken or dismissed. */
  lemma SystemCallers(run: seq<System>, actions: seq<Action>, i: nat, pid: nat)
    requires IsSystemRun(run, actions) && i < |run| && pid in run[i].ipc.pend
    ensures pid < |run[i].ipc.procs|
    ensures var p := run[i].ipc.procs[pid];
            && (p.wake == 0 ==> p.stat == WAITING && p.ticks == 0)
            && (p.wake != 0 ==> (p.wake == 1 || p.wake == -1) && p.stat == READY && p.ticks == p.priority)
  {
    SystemRunKeeps(run, actions, i);
  }

  /** After free_msg_queue the slot holds no key, the others are as they were, and a call on it
      changes neither channels nor processes until some alloc_msg_queue gives the slot out again. */
  lemma FreedQueueRefuses(s: System, id: int, s': System, pid: nat, call: Call, wait: bool)
    requires SystemInv(s) && SystemStep(s, FreeQueue(id), s') && 0 <= id < MSGMNI
    requires MayAct(s'.ipc, pid, call) && call.chan == id
    ensures TableOk(s'.table) && GivenBack(s.table, s'.table, id) && SystemInv(s')
    ensures var st := Act(Readied(s', id), pid, call, wait); st.chans == s'.ipc.chans && st.procs == s'.ipc.procs
  {
    SystemStepKeeps(s, FreeQueue(id), s');
    FreedIsGivenBack(s.table, id);
    CallIsSection(s', pid, call, wait);
  }
}
