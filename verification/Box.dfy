/** Mailboxes: one channel per process, shared by its threads; the key of a message is the slot of
    its sender in the process table (kernel/box.c:89-277). */
module Box {
  import opened Basics
  import opened IpcChannel
  import opened IpcRuns
  import opened IpcTable

  /** A place in the process table. */
  type Pcb = x: nat | x < NR_PCBS

  /** type and ppid of a PCB's info. */
  datatype Info = IsProcess | IsThread(parent: Pcb)

  /** The redirection that every call makes: a thread uses the mailbox of its parent. */
  function Owner(infos: seq<Info>, pid: nat): (o: nat)
    requires |infos| == NR_PCBS && pid < NR_PCBS
    ensures o < NR_PCBS
  {
    if infos[pid].IsThread? then infos[pid].parent else pid
  }

  /** The parent of a thread is not redirected elsewhere. */
  predicate Settled(infos: seq<Info>)
    requires |infos| == NR_PCBS
  {
    forall i :: 0 <= i < NR_PCBS && infos[i].IsThread? ==> Owner(infos, infos[i].parent) == infos[i].parent
  }

  /** box_push_node overwrites its argument before it parks, so the retry redirects it twice: it
      reaches the same mailbox for every argument if and only if the table is settled. */
  lemma RetryFindsSameBox(infos: seq<Info>)
    requires |infos| == NR_PCBS
    ensures (forall pid :: 0 <= pid < NR_PCBS ==> Owner(infos, Owner(infos, pid)) == Owner(infos, pid)) <==> Settled(infos)
  {
    if i :| 0 <= i < NR_PCBS && infos[i].IsThread? && Owner(infos, infos[i].parent) != infos[i].parent {
      assert Owner(infos, Owner(infos, i)) != Owner(infos, i);
    }
  }

  // ---------------------------------------------------------------------------------------
  // New PCBs

  /** pthread_update_info: the new thread belongs to the process of its creator. */
  function PthreadInfos(infos: seq<Info>, self: nat, child: nat): seq<Info>
    requires |infos| == NR_PCBS && self < NR_PCBS && child < NR_PCBS
  {
    infos[child := IsThread(Owner(infos, self))]
  }

  /** fork_update_info: the child is of its creator's type, with the creator as its parent. */
  function ForkInfos(infos: seq<Info>, self: nat, child: nat): seq<Info>
    requires |infos| == NR_PCBS && self < NR_PCBS && child < NR_PCBS
  {
    infos[child := if infos[self].IsThread? then IsThread(self) else IsProcess]
  }

  /** The PCB of the child is nobody's parent yet. */
  predicate Childless(infos: seq<Info>, self: nat, child: nat) {
    child < |infos| && child != self && forall i :: 0 <= i < |infos| && infos[i].IsThread? ==> infos[i].parent != child
  }

  lemma PthreadSettles(infos: seq<Info>, self: nat, child: nat)
    requires |infos| == NR_PCBS && Settled(infos) && self < NR_PCBS && Childless(infos, self, child)
    ensures Settled(PthreadInfos(infos, self, child))
  {
  }

  /** A fork keeps the table settled if and only if the one who forks is not redirected itself. */
  lemma ForkSettlesExactly(infos: seq<Info>, self: nat, child: nat)
    requires |infos| == NR_PCBS && Settled(infos) && self < NR_PCBS && Childless(infos, self, child)
    ensures Settled(ForkInfos(infos, self, child)) <==> Owner(infos, self) == self
  {
    var infos' := ForkInfos(infos, self, child);
    assert infos'[child].IsThread? <==> infos[self].IsThread?;
    assert Owner(infos', self) == Owner(infos, self);
  }

  class Boxes {
    const boxes: ChanTable
    var infos: seq<Info>

    ghost predicate Valid()
      reads this, boxes, boxes.slots, boxes.slots[..]
    {
      boxes.slots.Length == NR_PCBS && boxes.Valid() && |infos| == NR_PCBS
    }

    /** init_box */
    constructor (infos: seq<Info>)
      requires |infos| == NR_PCBS
      ensures Valid() && this.infos == infos && fresh(boxes) && fresh(boxes.slots)
      ensures forall i :: 0 <= i < NR_PCBS ==> boxes.Chans()[i].None?
    {
      this.infos := infos;
      boxes := new ChanTable(NR_PCBS);
    }

    /** alloc_box */
    method Alloc(pid: int) returns (r: int)
      requires Valid()
      modifies boxes.slots
      ensures Valid()
      ensures r == if 0 <= pid < NR_PCBS && old(boxes.Chans())[Owner(infos, pid)].None? then 0 else -1
      ensures boxes.Chans() == if r == 0 then old(boxes.Chans())[Owner(infos, pid) := Some(FreshChan())] else old(boxes.Chans())
    {
      if pid < 0 || pid >= NR_PCBS { return -1; }
      var o := Owner(infos, pid);
      if boxes.slots[o] != null { return -1; }
      boxes.OpenAt(o);
      return 0;
    }

    /** free_box */
    method Free(procs: array<Proc>, pid: int) returns (r: int)
      requires Valid() && procs.Length == NR_PCBS
      modifies boxes.slots, boxes.slots[..], procs
      ensures Valid()
      ensures r == if 0 <= pid < NR_PCBS then 0 else -1
      ensures boxes.Chans() == if r == 0 then old(boxes.Chans())[Owner(infos, pid) := None] else old(boxes.Chans())
      ensures procs[..] == if r == -1 || old(boxes.Chans())[Owner(infos, pid)].None? then old(procs[..])
                           else Dismissed(old(boxes.Chans())[Owner(infos, pid)].value, old(procs[..]))
    {
      if pid < 0 || pid >= NR_PCBS { return -1; }
      var o := Owner(infos, pid);
      if boxes.slots[o] != null { boxes.CloseAt(procs, o); }
      return 0;
    }

    /** box_push_node: self sends to the mailbox of pid, under its own slot number. The argument is
        left redirected, as a retry finds it. */
    method Push(procs: array<Proc>, self: nat, pid: int, buffer: seq<byte>, size: int, wait: bool) returns (r: Outcome, arg: int)
      requires Valid() && procs.Length == NR_PCBS && self < NR_PCBS && Min(size, MAX_BYTES) <= |buffer|
      modifies boxes.slots[..], procs
      ensures Valid()
      ensures if 0 <= pid < NR_PCBS && old(boxes.Chans())[Owner(infos, pid)].Some? then
                var o := Owner(infos, pid);
                var a := SendSection(old(boxes.Chans())[o].value, old(procs[..]), self, self, size, buffer, wait);
                boxes.Chans() == old(boxes.Chans())[o := Some(a.chan)] && procs[..] == a.procs && r == a.outcome
              else r == Refused && boxes.Chans() == old(boxes.Chans()) && procs[..] == old(procs[..])
      ensures arg == if 0 <= pid < NR_PCBS then Owner(infos, pid) else pid
    {
      arg := pid;
      if pid < 0 || pid >= NR_PCBS { return Refused, arg; }
      var o := Owner(infos, pid);
      arg := o;
      if boxes.slots[o] == null { return Refused, arg; }
      assert boxes.Chans()[o].value == boxes.slots[o].View();
      r := boxes.SendAt(procs, self, o, size, self, buffer, wait);
    }

    /** box_pop_node: self takes the oldest message that slot pid sent to its mailbox. A message
        taken is reported as 0, whatever its size. */
    method Pop(procs: array<Proc>, self: nat, pid: int, size: int, wait: bool) returns (r: Outcome)
      requires Valid() && procs.Length == NR_PCBS && self < NR_PCBS
      modifies boxes.slots[..], procs
      ensures Valid()
      ensures if 0 <= pid < NR_PCBS && old(boxes.Chans())[Owner(infos, self)].Some? then
                var o := Owner(infos, self);
                var a := ReceiveSection(old(boxes.Chans())[o].value, old(procs[..]), self, pid, size, wait);
                && boxes.Chans() == old(boxes.Chans())[o := Some(a.chan)] && procs[..] == a.procs
                && r == if a.outcome.Received? then Received(0, a.outcome.data) else a.outcome
              else r == Refused && boxes.Chans() == old(boxes.Chans()) && procs[..] == old(procs[..])
    {
      if pid < 0 || pid >= NR_PCBS { return Refused; }
      var o := Owner(infos, self);
      if boxes.slots[o] == null { return Refused; }
      assert boxes.Chans()[o].value == boxes.slots[o].View();
      r := boxes.ReceiveAt(procs, self, o, size, pid, wait);
      if r.Received? { r := Received(0, r.data); }
    }
  }

  // ---------------------------------------------------------------------------------------
  // Runs of mailbox calls are runs of the channels

  /** The process table's infos and the mailboxes. */
  datatype World = World(infos: seq<Info>, s: State)

  datatype Action =
    | AllocBox(pid: int)
    | FreeBox(pid: int)
    | PushBox(self: nat, pid: int, buffer: seq<byte>, size: int, wait: bool)
    | PopBox(self: nat, pid: int, size: int, wait: bool)
    | RetryBox(self: nat)
    | LeaveBox(self: nat)
    | Pthread(self: nat, child: nat)
    | Fork(self: nat, child: nat)

  /** The step of the channels an action takes, if any: out-of-range arguments, a second
      alloc_box and a free_box without a box change nothing. */
  ghost function EventOf(infos: seq<Info>, s: State, a: Action): Option<Event>
    requires |infos| == NR_PCBS && |s.chans| == NR_PCBS
  {
    match a
    case AllocBox(pid) =>
      if 0 <= pid < NR_PCBS && s.chans[Owner(infos, pid)].None? then Some(Open(Owner(infos, pid))) else None
    case FreeBox(pid) =>
      if 0 <= pid < NR_PCBS && s.chans[Owner(infos, pid)].Some? then Some(Close(Owner(infos, pid))) else None
    case PushBox(self, pid, buffer, size, wait) =>
      if 0 <= pid < NR_PCBS then Some(Enter(self, SendCall(Owner(infos, pid), self, size, buffer), wait)) else None
    case PopBox(self, pid, size, wait) =>
      if 0 <= pid < NR_PCBS && self < NR_PCBS then Some(Enter(self, RecvCall(Owner(infos, self), pid, size), wait)) else None
    case LeaveBox(self) => Some(Leave(self))
    case _ => None
  }

  /** The call as it is tried again: box_push_node redirects its argument once more, box_pop_node
      looks for its own mailbox anew. */
  function Again(infos: seq<Info>, self: nat, call: Call): Call
    requires |infos| == NR_PCBS && self < NR_PCBS && call.chan < NR_PCBS
  {
    call.(chan := Owner(infos, if call.SendCall? then call.chan else self))
  }

  /** The steps are defined here. */
  ghost predicate Able(w: World) {
    |w.infos| == NR_PCBS && |w.s.chans| == NR_PCBS && |w.s.procs| == NR_PCBS && Inv(w.s)
  }

  /** A PCB that nobody has used yet: no mailbox, no call under way, nobody waiting for it. */
  ghost predicate Unused(w: World, self: nat, child: nat)
    requires Able(w)
  {
    && Childless(w.infos, self, child) && w.s.chans[child].None? && child !in w.s.pend
    && forall pid :: pid in w.s.pend ==> w.s.pend[pid].chan != child
  }

  ghost predicate BoxStep(w: World, a: Action, w': World)
    requires Able(w)
  {
    match a
    case RetryBox(self) =>
      && self in w.s.pend && w.s.procs[self].wake == 1
      && w' == w.(s := Act(w.s, self, Again(w.infos, self, w.s.pend[self]), true))
    case Pthread(self, child) =>
      self < NR_PCBS && Unused(w, self, child) && w' == w.(infos := PthreadInfos(w.infos, self, child))
    case Fork(self, child) =>
      self < NR_PCBS && Unused(w, self, child) && w' == w.(infos := ForkInfos(w.infos, self, child))
    case _ =>
      var e := EventOf(w.infos, w.s, a);
      w'.infos == w.infos && if e.None? then w'.s == w.s else Enabled(w.s, e.value) && w'.s == Next(w.s, e.value)
  }

  /** Whoever waits for a message waits at its own mailbox, whoever waits to send sends under its
      own slot number, and nobody who is redirected has a mailbox. */
  ghost predicate BoxInv(w: World) {
    && Able(w) && Settled(w.infos)
    && (forall pid :: pid in w.s.pend ==>
          if w.s.pend[pid].SendCall? then w.s.pend[pid].key == pid && Owner(w.infos, w.s.pend[pid].chan) == w.s.pend[pid].chan
          else w.s.pend[pid].chan == Owner(w.infos, pid))
    && (forall c :: 0 <= c < NR_PCBS && w.s.chans[c].Some? ==> Owner(w.infos, c) == c)
  }

  /** In order, a retry is a retry of the channels. */
  lemma RetryIsRetry(w: World, self: nat)
    requires BoxInv(w) && self in w.s.pend
    ensures self < NR_PCBS && w.s.pend[self].chan < NR_PCBS && Again(w.infos, self, w.s.pend[self]) == w.s.pend[self]
  {
  }

  lemma CreationKeeps(w: World, self: nat, child: nat, infos: seq<Info>)
    requires BoxInv(w) && self < NR_PCBS && Unused(w, self, child)
    requires |infos| == NR_PCBS && Settled(infos) && forall i :: 0 <= i < NR_PCBS && i != child ==> infos[i] == w.infos[i]
    ensures BoxInv(w.(infos := infos))
  {
  }

  /** A step of the channels that stays with the mailboxes. */
  lemma EventKeeps(w: World, e: Event)
    requires BoxInv(w) && Enabled(w.s, e) && (e.Open? ==> Owner(w.infos, e.chan) == e.chan)
    requires e.Enter? ==> if e.call.SendCall? then e.call.key == e.pid && e.call.chan < NR_PCBS && Owner(w.infos, e.call.chan) == e.call.chan
                          else e.pid < NR_PCBS && e.call.chan == Owner(w.infos, e.pid)
    ensures BoxInv(w.(s := Next(w.s, e)))
  {
    StepKeeps(w.s, e);
    Sizes(w.s, e);
  }

  ghost predicate ForkByProcess(w: World, a: Action) {
    a.Fork? ==> a.self < |w.infos| && w.infos[a.self].IsProcess?
  }

  lemma BoxStepKeeps(w: World, a: Action, w': World)
    requires BoxInv(w) && BoxStep(w, a, w') && ForkByProcess(w, a)
    ensures BoxInv(w')
  {
    RetryFindsSameBox(w.infos);
    match a
    case RetryBox(self) =>
      RetryIsRetry(w, self);
      EventKeeps(w, Retry(self));
    case Pthread(self, child) =>
      PthreadSettles(w.infos, self, child);
      CreationKeeps(w, self, child, w'.infos);
    case Fork(self, child) =>
      ForkSettlesExactly(w.infos, self, child);
      CreationKeeps(w, self, child, w'.infos);
    case _ =>
      var e := EventOf(w.infos, w.s, a);
      if e.Some? { EventKeeps(w, e.value); }
  }

  lemma Sizes(s: State, e: Event)
    requires Inv(s) && Enabled(s, e)
    ensures |Next(s, e).chans| == |s.chans| && |Next(s, e).procs| == |s.procs|
    ensures forall c :: 0 <= c < |s.chans| && s.chans[c].None? && e != Open(c) ==> Next(s, e).chans[c].None?
    ensures forall pid :: pid in Next(s, e).pend ==>
              if e.Enter? && e.pid == pid then Next(s, e).pend[pid] == e.call else pid in s.pend && Next(s, e).pend[pid] == s.pend[pid]
  {
    if e.Enter? { ActSizes(s, e.pid, e.call, e.wait); }
    if e.Retry? { ActSizes(s, e.pid, s.pend[e.pid], true); }
  }

  lemma ActSizes(s: State, pid: nat, call: Call, wait: bool)
    requires Inv(s) && pid < |s.procs| && CallOk(call)
    ensures var s' := Act(s, pid, call, wait);
            && |s'.chans| == |s.chans| && |s'.procs| == |s.procs|
            && (forall c :: 0 <= c < |s.chans| && s.chans[c].None? ==> s'.chans[c].None?)
            && (forall q :: q in s'.pend ==> if q == pid then s'.pend[q] == call else q in s.pend && s'.pend[q] == s.pend[q])
  {
    if IsOpen(s.chans, call.chan) { WaitersArePids(s.chans[call.chan].value, s.procs, s.pend, call.chan); }
  }

  ghost predicate IsBoxRun(run: seq<World>, actions: seq<Action>) {
    |run| == |actions| + 1 && forall i :: 0 <= i < |actions| ==> Able(run[i]) ==> BoxStep(run[i], actions[i], run[i + 1])
  }

  /** No mailbox is there. */
  ghost predicate Empty(w: World) {
    |w.infos| == NR_PCBS && exists procs :: |procs| == NR_PCBS && w.s == Start(procs, NR_PCBS)
  }

  /** From any settled table, in particular from boot on, where all are processes, and as long as no
      thread forks, mailboxes, calls and wake-ups stay in order. */
  lemma {:induction false} BoxRunKeeps(run: seq<World>, actions: seq<Action>, i: nat)
    requires IsBoxRun(run, actions) && i < |run| && Empty(run[0]) && Settled(run[0].infos)
    requires forall j :: 0 <= j < i ==> ForkByProcess(run[j], actions[j])
    ensures BoxInv(run[i])
  {
    if i > 0 {
      BoxRunKeeps(run, actions, i - 1);
      BoxStepKeeps(run[i - 1], actions[i - 1], run[i]);
    }
  }

  /** In these runs a process in a call waits without ticks while it is parked, and is READY with
      ticks of its priority once woken or dismissed. */
  lemma BoxCallers(run: seq<World>, actions: seq<Action>, i: nat, pid: nat)
    requires IsBoxRun(run, actions) && i < |run| && Empty(run[0]) && Settled(run[0].infos)
    requires (forall j :: 0 <= j < i ==> ForkByProcess(run[j], actions[j])) && pid in run[i].s.pend
    ensures pid < |run[i].s.procs|
    ensures var p := run[i].s.procs[pid];
            && (p.wake == 0 ==> p.stat == WAITING && p.ticks == 0)
            && (p.wake != 0 ==> (p.wake == 1 || p.wake == -1) && p.stat == READY && p.ticks == p.priority)
  {
    BoxRunKeeps(run, actions, i);
  }

  // ---------------------------------------------------------------------------------------
  // A table that is not settled loses a wake-up

  lemma Extended(run: seq<World>, actions: seq<Action>, a: Action, w': World)
    requires IsBoxRun(run, actions) && Able(run[|actions|]) && BoxStep(run[|actions|], a, w')
    ensures IsBoxRun(run + [w'], actions + [a])
  {
    var run', actions' := run + [w'], actions + [a];
    forall i | 0 <= i < |actions'| && Able(run'[i]) ensures BoxStep(run'[i], actions'[i], run'[i + 1]) {
      if i < |actions| { assert run'[i] == run[i] && run'[i + 1] == run[i + 1] && actions'[i] == actions[i]; }
    }
  }

  /** k messages, all under the key, and nobody waiting. */
  ghost predicate Loaded(ch: Chan, key: int, k: nat) {
    && NodesOk(ch) && |ch.idle| + k == SLOTS && ch.wIdle == [] && ch.wUse == []
    && forall j :: 0 <= j < |Queue(ch)| ==> Queue(ch)[j].key == key
  }

  /** Mailbox o is the only one and loaded. */
  ghost predicate OneBox(w: World, o: nat, key: int, k: nat) {
    && Able(w) && o < NR_PCBS && w.s.pend == map[] && w.s.chans[o].Some? && Loaded(w.s.chans[o].value, key, k)
    && forall d :: 0 <= d < NR_PCBS && d != o ==> w.s.chans[d].None?
  }

  lemma LoadOne(ch: Chan, procs: seq<Proc>, pid: nat, key: int, k: nat)
    requires Loaded(ch, key, k) && k < SLOTS && pid < |procs|
    ensures var a := SendSection(ch, procs, pid, key, 0, [], false);
            Loaded(a.chan, key, k + 1) && a.procs == procs && a.outcome == Sent
  {
    PutQueue(ch, key, 0, []);
    var q := Queue(ch) + [Msg(key, 0, [])];
    assert Queue(Put(ch, key, 0, [])) == q;
  }

  lemma PushOne(w: World, i: nat, o: nat, k: nat) returns (w': World)
    requires OneBox(w, o, i, k) && k < SLOTS && i < NR_PCBS && o == Owner(w.infos, i)
    ensures BoxStep(w, PushBox(i, i, [], 0, false), w') && w'.infos == w.infos && OneBox(w', o, i, k + 1)
  {
    var call := SendCall(o, i, 0, []);
    var e := Enter(i, call, false);
    w' := w.(s := Next(w.s, e));
    StepKeeps(w.s, e);
    LoadOne(w.s.chans[o].value, w.s.procs, i, i, k);
  }

  /** A sender parks at mailbox o, which has no idle node. */
  lemma ParkOne(w: World, o: nat, b: nat, target: nat) returns (w': World)
    requires Able(w) && o < NR_PCBS && b < NR_PCBS && target < NR_PCBS && o == Owner(w.infos, target)
    requires w.s.chans[o].Some? && w.s.chans[o].value.idle == [] && b !in w.s.pend
    ensures BoxStep(w, PushBox(b, target, [], 0, true), w') && Able(w') && w'.infos == w.infos
    ensures var ch := w.s.chans[o].value;
            && w'.s.chans == w.s.chans[o := Some(ch.(wIdle := ch.wIdle + [b]))] && w'.s.procs == w.s.procs[b := Parked(w.s.procs[b])]
            && w'.s.pend == w.s.pend[b := SendCall(o, b, 0, [])]
  {
    var e := Enter(b, SendCall(o, b, 0, []), true);
    w' := w.(s := Next(w.s, e));
    StepKeeps(w.s, e);
    WaitersArePids(w.s.chans[o].value, w.s.procs, w.s.pend, o);
    assert w.s.pend - {b} == w.s.pend;
  }

  /** Mailbox o is full of messages under key i, and b and c are parked at it. */
  ghost predicate TwoParked(w: World, o: nat, i: nat, b: nat, c: nat) {
    && Able(w) && o < NR_PCBS && i < NR_PCBS && b < NR_PCBS && c < NR_PCBS && b != c
    && w.s.pend == map[b := SendCall(o, b, 0, []), c := SendCall(o, c, 0, [])] && w.s.procs[c].wake == 0
    && (forall d :: 0 <= d < NR_PCBS && d != o ==> w.s.chans[d].None?)
    && w.s.chans[o].Some? && var ch := w.s.chans[o].value;
       && ch.idle == [] && ch.wIdle == [b, c] && NodesOk(ch) && |Queue(ch)| == SLOTS && Queue(ch)[0].key == i
  }

  lemma ParkTwo(w: World, i: nat, o: nat, b: nat, c: nat) returns (w1: World, w2: World)
    requires OneBox(w, o, i, SLOTS) && i < NR_PCBS && o == Owner(w.infos, i) && b < NR_PCBS && c < NR_PCBS && b != c
    ensures BoxStep(w, PushBox(b, i, [], 0, true), w1) && Able(w1) && BoxStep(w1, PushBox(c, i, [], 0, true), w2)
    ensures w2.infos == w.infos && TwoParked(w2, o, i, b, c)
  {
    var ch := w.s.chans[o].value;
    w1 := ParkOne(w, o, b, i);
    w2 := ParkOne(w1, o, c, i);
    assert w2.s.chans[o].value == ch.(wIdle := [b, c]);
    SameQueue(ch, [b, c], i);
    assert w2.s.pend == map[b := SendCall(o, b, 0, []), c := SendCall(o, c, 0, [])];
  }

  lemma SameQueue(ch: Chan, waiting: seq<nat>, key: int)
    requires Loaded(ch, key, SLOTS)
    ensures var ch' := ch.(wIdle := waiting); ch'.idle == [] && NodesOk(ch') && |Queue(ch')| == SLOTS && Queue(ch')[0].key == key
  {
    assert Queue(ch)[0].key == key;
  }

  /** One idle node, c parked and b woken. */
  ghost predicate OneWoken(w: World, o: nat, b: nat, c: nat) {
    && Able(w) && o < NR_PCBS && b < NR_PCBS && c < NR_PCBS && b != c
    && w.s.pend == map[b := SendCall(o, b, 0, []), c := SendCall(o, c, 0, [])]
    && w.s.procs[b].wake == 1 && w.s.procs[c].wake == 0
    && (forall d :: 0 <= d < NR_PCBS && d != o ==> w.s.chans[d].None?)
    && w.s.chans[o].Some? && |w.s.chans[o].value.idle| == 1 && w.s.chans[o].value.wIdle == [c]
  }

  lemma TakeOne(ch: Chan, procs: seq<Proc>, i: nat, b: nat, c: nat)
    requires NodesOk(ch) && PidsOk(ch, |procs|) && i < |procs| && b < |procs| && c < |procs| && b != c && ch.idle == [] && ch.wIdle == [b, c]
    requires |Queue(ch)| == SLOTS && Queue(ch)[0].key == i && procs[c].wake == 0
    ensures var a := ReceiveSection(ch, procs, i, i, 0, true);
            && |a.chan.idle| == 1 && a.chan.wIdle == [c] && a.outcome.Received?
            && |a.procs| == |procs| && a.procs[b].wake == 1 && a.procs[c].wake == 0
  {
    assert ch.nodes[ch.used[0]].key == i;
    assert FirstMsg(ch.nodes, ch.used, i) == 0;
  }

  lemma PopOne(w: World, i: nat, o: nat, b: nat, c: nat) returns (w': World)
    requires TwoParked(w, o, i, b, c) && o == Owner(w.infos, i) && i != b && i != c
    ensures BoxStep(w, PopBox(i, i, 0, true), w') && w'.infos == w.infos && OneWoken(w', o, b, c)
  {
    var e := Enter(i, RecvCall(o, i, 0), true);
    w' := w.(s := Next(w.s, e));
    StepKeeps(w.s, e);
    WaitersArePids(w.s.chans[o].value, w.s.procs, w.s.pend, o);
    TakeOne(w.s.chans[o].value, w.s.procs, i, b, c);
    assert w.s.pend - {i} == w.s.pend;
  }

  /** The woken sender tries again at another mailbox, which is not there, and is refused; the node
      stays idle and the other sender parked. */
  lemma RetryElsewhere(w: World, o: nat, b: nat, c: nat) returns (w': World)
    requires OneWoken(w, o, b, c) && Owner(w.infos, o) != o
    ensures BoxStep(w, RetryBox(b), w') && w'.infos == w.infos && !Inv(w'.s)
  {
    var call := Again(w.infos, b, w.s.pend[b]);
    w' := w.(s := Act(w.s, b, call, true));
    assert !IsOpen(w.s.chans, call.chan);
    var s := w'.s;
    assert WokenSenders(s.procs, s.pend, o) == {};
    assert !SendersServed(s.chans[o].value, s.procs, s.pend, o, 0);
  }

  /** A run that ends in w. */
  ghost predicate Leads(run: seq<World>, actions: seq<Action>, w: World) {
    IsBoxRun(run, actions) && run[|actions|] == w
  }

  ghost predicate MailOnly(actions: seq<Action>) { forall a :: a in actions ==> !a.Pthread? && !a.Fork? }

  /** The second run begins with the first and makes no PCB after it. */
  ghost predicate GoesOn(run: seq<World>, actions: seq<Action>, run': seq<World>, actions': seq<Action>) {
    && |run| == |actions| + 1 && |run'| == |actions'| + 1 && |run| <= |run'| && run'[..|run|] == run
    && actions'[..|actions|] == actions && MailOnly(actions'[|actions|..])
  }

  lemma OneStep(run: seq<World>, actions: seq<Action>, run1: seq<World>, actions1: seq<Action>, a: Action, w': World)
      returns (run2: seq<World>, actions2: seq<Action>)
    requires GoesOn(run, actions, run1, actions1) && IsBoxRun(run1, actions1) && !a.Pthread? && !a.Fork?
    requires Able(run1[|actions1|]) && BoxStep(run1[|actions1|], a, w')
    ensures GoesOn(run, actions, run2, actions2) && Leads(run2, actions2, w')
  {
    Extended(run1, actions1, a, w');
    run2, actions2 := run1 + [w'], actions1 + [a];
    assert actions2[|actions|..] == actions1[|actions|..] + [a];
    assert run2[..|run|] == run1[..|run|] && actions2[..|actions|] == actions1[..|actions|];
  }

  lemma OpenFirst(w: World, i: nat, o: nat) returns (w': World)
    requires Empty(w) && i < NR_PCBS && o == Owner(w.infos, i)
    ensures Able(w) && BoxStep(w, AllocBox(i), w') && w'.infos == w.infos && OneBox(w', o, i, 0)
  {
    var e := Open(o);
    w' := w.(s := Next(w.s, e));
    StepKeeps(w.s, e);
    FreshNodesOk();
  }

  lemma FillBox(run: seq<World>, actions: seq<Action>, i: nat, o: nat) returns (run1: seq<World>, actions1: seq<Action>)
    requires IsBoxRun(run, actions) && Empty(run[|actions|]) && i < NR_PCBS && o == Owner(run[|actions|].infos, i)
    ensures GoesOn(run, actions, run1, actions1) && IsBoxRun(run1, actions1)
    ensures OneBox(run1[|actions1|], o, i, SLOTS) && run1[|actions1|].infos == run[|actions|].infos
  {
    var w := OpenFirst(run[|actions|], i, o);
    run1, actions1 := OneStep(run, actions, run, actions, AllocBox(i), w);
    var k := 0;
    while k < SLOTS
      invariant 0 <= k <= SLOTS && GoesOn(run, actions, run1, actions1) && Leads(run1, actions1, w)
      invariant OneBox(w, o, i, k) && w.infos == run[|actions|].infos
    {
      var w' := PushOne(w, i, o, k);
      run1, actions1 := OneStep(run, actions, run1, actions1, PushBox(i, i, [], 0, false), w');
      w, k := w', k + 1;
    }
  }

  /** With thread i of a parent that is redirected elsewhere: the mailbox of i is filled, two senders
      park, i takes a message, and the sender this wakes is redirected to another mailbox. */
  lemma LostWakeUp(run: seq<World>, actions: seq<Action>, i: nat) returns (run': seq<World>, actions': seq<Action>)
    requires IsBoxRun(run, actions) && Empty(run[|actions|]) && i < NR_PCBS && run[|actions|].infos[i].IsThread?
    requires var infos := run[|actions|].infos; Owner(infos, infos[i].parent) != infos[i].parent
    ensures GoesOn(run, actions, run', actions') && IsBoxRun(run', actions') && !Inv(run'[|actions'|].s)
  {
    var o := Owner(run[|actions|].infos, i);
    var b, c := if i == 0 then 1 else 0, if i <= 1 then 2 else 1;
    run', actions' := FillBox(run, actions, i, o);
    var w1, w2 := ParkTwo(run'[|actions'|], i, o, b, c);
    run', actions' := OneStep(run, actions, run', actions', PushBox(b, i, [], 0, true), w1);
    run', actions' := OneStep(run, actions, run', actions', PushBox(c, i, [], 0, true), w2);
    var w3 := PopOne(w2, i, o, b, c);
    run', actions' := OneStep(run, actions, run', actions', PopBox(i, i, 0, true), w3);
    var w4 := RetryElsewhere(w3, o, b, c);
    run', actions' := OneStep(run, actions, run', actions', RetryBox(b), w4);
  }

  /** While no PCB is made, every state of every run is in order if and only if the table is settled. */
  lemma OrderExactlyIfSettled(infos: seq<Info>, procs: seq<Proc>)
    requires |infos| == NR_PCBS && |procs| == NR_PCBS
    ensures (forall run: seq<World>, actions: seq<Action> :: IsBoxRun(run, actions) && MailOnly(actions) && run[0] == World(infos, Start(procs, NR_PCBS)) ==>
               Inv(run[|actions|].s))
            <==> Settled(infos)
  {
    var w := World(infos, Start(procs, NR_PCBS));
    if Settled(infos) {
      forall run: seq<World>, actions: seq<Action> | IsBoxRun(run, actions) && MailOnly(actions) && run[0] == w ensures Inv(run[|actions|].s) {
        assert forall j :: 0 <= j < |actions| ==> actions[j] in actions;
        BoxRunKeeps(run, actions, |actions|);
      }
    } else {
      var i :| 0 <= i < NR_PCBS && infos[i].IsThread? && Owner(infos, infos[i].parent) != infos[i].parent;
      var run, actions := LostWakeUp([w], [], i);
      assert run[0] == run[..1][0] && actions[0..] == actions;
    }
  }

  /** From boot on: process 1 makes thread 2, which forks 3, and a wake-up of a sender to 3 is lost. */
  lemma ThreadForkLosesWakeUp(procs: seq<Proc>) returns (run: seq<World>, actions: seq<Action>)
    requires |procs| == NR_PCBS
    ensures IsBoxRun(run, actions) && run[0] == World(seq(NR_PCBS, _ => IsProcess), Start(procs, NR_PCBS))
    ensures |actions| > 2 && actions[0] == Pthread(1, 2) && actions[1] == Fork(2, 3) && MailOnly(actions[2..])
    ensures !Inv(run[|actions|].s)
  {
    var w0 := World(seq(NR_PCBS, _ => IsProcess), Start(procs, NR_PCBS));
    var w1 := w0.(infos := PthreadInfos(w0.infos, 1, 2));
    var w2 := w1.(infos := ForkInfos(w1.infos, 2, 3));
    Extended([w0], [], Pthread(1, 2), w1);
    Extended([w0] + [w1], [] + [Pthread(1, 2)], Fork(2, 3), w2);
    var run0, actions0 := [w0] + [w1] + [w2], [] + [Pthread(1, 2)] + [Fork(2, 3)];
    run, actions := LostWakeUp(run0, actions0, 3);
    assert run[0] == run[..3][0] && actions[0] == actions[..2][0] && actions[1] == actions[..2][1];
  }
}
