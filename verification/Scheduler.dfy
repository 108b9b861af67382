/** Choice of the next process on one CPU and the runs it leads to (kernel/proc.c:634-717,
    kernel/proc.c:772-797, kernel/proc.c:984-1036, kernel/clock.c:23-71). A run is a sequence of
    rounds: something happens to the current process, then sched is called, as the return path of
    every interrupt and system call does. */
module Scheduler {
  import opened Basics

  /** The PCB fields the scheduler reads and writes; asleep says the channel is the tick counter. */
  datatype Pcb = Pcb(stat: Stat, ticks: int, baseTicks: int, asleep: bool)

  type Table = seq<Pcb>

  // ---------------------------------------------------------------------------------------
  // Choosing

  ghost predicate QueueOk(t: Table, q: seq<nat>) { forall i :: 0 <= i < |q| ==> q[i] < |t| }

  predicate Eligible(p: Pcb) { p.stat == READY && p.ticks > 0 }

  /** k is the place of the first eligible member with the most ticks. */
  ghost predicate IsBest(t: Table, q: seq<nat>, k: int)
    requires QueueOk(t, q)
  {
    && 0 <= k < |q| && Eligible(t[q[k]])
    && (forall i :: 0 <= i < |q| && Eligible(t[q[i]]) ==> t[q[i]].ticks <= t[q[k]].ticks)
    && (forall i :: 0 <= i < k && Eligible(t[q[i]]) ==> t[q[i]].ticks < t[q[k]].ticks)
  }

  ghost predicate SomeEligible(t: Table, q: seq<nat>)
    requires QueueOk(t, q)
  {
    exists i :: 0 <= i < |q| && Eligible(t[q[i]])
  }

  /** Some member is READY and would get ticks from a refill. */
  ghost predicate Refillable(t: Table, q: seq<nat>)
    requires QueueOk(t, q)
  {
    exists i :: 0 <= i < |q| && t[q[i]].stat == READY && t[q[i]].baseTicks > 0
  }

  /** Every member's ticks set to its base ticks. */
  ghost predicate IsRefill(t: Table, q: seq<nat>, t': Table) {
    && |t'| == |t|
    && forall p :: 0 <= p < |t| ==> t'[p] == if p in q then t[p].(ticks := t[p].baseTicks) else t[p]
  }

  /** What cpu_schedule returns and leaves. */
  ghost predicate Chosen(t: Table, q: seq<nat>, cur: nat, t': Table, next: nat)
    requires QueueOk(t, q) && cur < |t|
  {
    if Eligible(t[cur]) then t' == t && next == cur
    else if SomeEligible(t, q) then t' == t && exists k :: IsBest(t, q, k) && next == q[k]
    else IsRefill(t, q, t') && exists k :: IsBest(t', q, k) && next == q[k]
  }

  /** After a refill, a READY member with positive base ticks is eligible: the outer loop of
      cpu_schedule goes round at most twice. */
  lemma RefillMakesEligible(t: Table, q: seq<nat>, t': Table)
    requires QueueOk(t, q) && Refillable(t, q) && IsRefill(t, q, t')
    ensures QueueOk(t', q) && SomeEligible(t', q)
  {
  }

  /** Otherwise a refill changes nothing for the choice, and the loop of cpu_schedule has no end. */
  lemma RefillInVain(t: Table, q: seq<nat>, t': Table)
    requires QueueOk(t, q) && !Refillable(t, q) && IsRefill(t, q, t')
    ensures QueueOk(t', q) && !SomeEligible(t', q) && !Refillable(t', q)
  {
  }

  /** However many refills follow each other, the loop finds nothing. */
  lemma {:induction false} RefillsInVain(ts: seq<Table>, q: seq<nat>, i: nat)
    requires i < |ts| && QueueOk(ts[0], q) && !SomeEligible(ts[0], q) && !Refillable(ts[0], q)
    requires forall j :: 0 <= j < |ts| - 1 ==> RefillAt(ts, q, j)
    ensures QueueOk(ts[i], q) && !SomeEligible(ts[i], q) && !Refillable(ts[i], q)
  {
    if i > 0 {
      RefillsInVain(ts, q, i - 1);
      assert RefillAt(ts, q, i - 1);
      RefillInVain(ts[i - 1], q, ts[i]);
    }
  }

  ghost predicate RefillAt(ts: seq<Table>, q: seq<nat>, j: nat)
    requires j + 1 < |ts|
  {
    IsRefill(ts[j], q, ts[j + 1])
  }

  /** The process table, one CPU's ready queue in order, and its current process. */
  class Cpu {
    var table: Table
    const queue: seq<nat>
    var cur: nat

    ghost predicate Valid()
      reads this
    {
      QueueOk(table, queue) && cur < |table|
    }

    constructor (table: Table, queue: seq<nat>, cur: nat)
      requires QueueOk(table, queue) && cur < |table|
      ensures Valid() && this.table == table && this.queue == queue && this.cur == cur
    {
      this.table, this.queue, this.cur := table, queue, cur;
    }

    /** The inner loop of cpu_schedule. */
    method Scan() returns (greatest: int, best: nat)
      requires Valid()
      ensures greatest == 0 <==> !SomeEligible(table, queue)
      ensures greatest != 0 ==> exists k :: IsBest(table, queue, k) && best == queue[k]
    {
      greatest, best := 0, 0;
      ghost var k := 0;
      var i := 0;
      while i < |queue|
        invariant 0 <= i <= |queue| && greatest >= 0
        invariant greatest == 0 ==> forall j :: 0 <= j < i ==> !Eligible(table[queue[j]])
        invariant greatest > 0 ==> k < i && best == queue[k] && table[queue[k]].ticks == greatest && IsBest(table, queue[..i], k)
      {
        var p := queue[i];
        if table[p].stat == READY && table[p].ticks > greatest {
          greatest, best, k := table[p].ticks, p, i;
        }
        i := i + 1;
      }
      assert queue[..i] == queue;
    }

    /** The refill loop. */
    method Refill()
      requires Valid()
      modifies `table
      ensures IsRefill(old(table), queue, table)
    {
      var i := 0;
      while i < |queue|
        invariant 0 <= i <= |queue| && IsRefill(old(table), queue[..i], table)
      {
        var p := queue[i];
        table := table[p := table[p].(ticks := table[p].baseTicks)];
        i := i + 1;
      }
      assert queue[..i] == queue;
    }

    /** cpu_schedule. Without an eligible process it needs one that a refill would make eligible,
        or it would loop for ever. */
    method CpuSchedule() returns (next: nat, refills: nat)
      requires Valid() && (Eligible(table[cur]) || SomeEligible(table, queue) || Refillable(table, queue))
      modifies `table
      ensures Valid() && Chosen(old(table), queue, cur, table, next)
      ensures refills == if old(Eligible(table[cur]) || SomeEligible(table, queue)) then 0 else 1
    {
      refills := 0;
      if table[cur].stat == READY && table[cur].ticks > 0 { return cur, refills; }
      var greatest := 0;
      next := 0;
      while greatest == 0
        invariant refills == 0 ==> table == old(table)
        invariant refills > 0 ==> refills == 1 && !SomeEligible(old(table), queue) && IsRefill(old(table), queue, table) && SomeEligible(table, queue)
        invariant Valid() && (greatest != 0 ==> SomeEligible(table, queue) && exists k :: IsBest(table, queue, k) && next == queue[k])
        decreases if greatest == 0 then 2 - refills else 0
      {
        greatest, next := Scan();
        if greatest == 0 {
          ghost var before := table;
          Refill();
          RefillMakesEligible(before, queue, table);
          refills := refills + 1;
        }
      }
    }

    /** schedule. When the current process is chosen again it is marked RUNNING and then READY. */
    method Schedule() returns (refills: nat)
      requires Valid() && (Eligible(table[cur]) || SomeEligible(table, queue) || Refillable(table, queue))
      modifies `table, `cur
      ensures Valid() && Scheduled(old(table), queue, old(cur), table, cur)
      ensures refills == if old(Eligible(table[cur]) || SomeEligible(table, queue)) then 0 else 1
    {
      var next;
      next, refills := CpuSchedule();
      ghost var mid := table;
      table := table[next := table[next].(stat := RUNNING)];
      if table[cur].stat == RUNNING { table := table[cur := table[cur].(stat := READY)]; }
      assert table == Switched(mid, cur, next);
      cur := next;
    }
  }

  /** The stat fields after a switch. */
  function Switched(t: Table, cur: nat, next: nat): Table
    requires cur < |t| && next < |t|
  {
    if next == cur then t[cur := t[cur].(stat := READY)]
    else
      var t1 := t[next := t[next].(stat := RUNNING)];
      if t[cur].stat == RUNNING then t1[cur := t[cur].(stat := READY)] else t1
  }

  ghost predicate Scheduled(t: Table, q: seq<nat>, cur: nat, t': Table, next: nat)
    requires QueueOk(t, q) && cur < |t|
  {
    exists mid :: Chosen(t, q, cur, mid, next) && |mid| == |t| && next < |t| && t' == Switched(mid, cur, next)
  }

  // ---------------------------------------------------------------------------------------
  // Rounds

  datatype Happening =
    | Tick      // clock_handler: the current process pays a tick, sleepers are woken
    | Yield     // sys_yield
    | Sleep     // one turn of the loop of sys_sleep
    | Block     // parked by the IPC code
    | Nothing   // any other return from a system call or interrupt

  /** sys_wakeup(&ticks) */
  function Woken(t: Table): (r: Table)
    ensures |r| == |t|
    ensures forall p :: 0 <= p < |t| ==> r[p] == if t[p].stat == SLEEPING && t[p].asleep then t[p].(stat := READY) else t[p]
  {
    seq(|t|, p requires 0 <= p < |t| => if t[p].stat == SLEEPING && t[p].asleep then t[p].(stat := READY) else t[p])
  }

  function Happened(t: Table, cur: nat, h: Happening): (r: Table)
    requires cur < |t|
    ensures |r| == |t|
  {
    match h
    case Tick => Woken(t[cur := t[cur].(ticks := t[cur].ticks - 1)])
    case Yield => t[cur := t[cur].(ticks := 0)]
    case Sleep => t[cur := t[cur].(stat := SLEEPING, asleep := true)]
    case Block => t[cur := t[cur].(stat := WAITING, ticks := 0)]
    case Nothing => t
  }

  ghost predicate Round(t: Table, q: seq<nat>, cur: nat, h: Happening, t': Table, cur': nat)
    requires QueueOk(t, q) && cur < |t|
  {
    Scheduled(Happened(t, cur, h), q, cur, t', cur')
  }

  /** Only the current process is RUNNING. */
  ghost predicate OneRuns(t: Table, cur: nat) { forall p :: 0 <= p < |t| && t[p].stat == RUNNING ==> p == cur }

  lemma RoundKeepsOneRunning(t: Table, q: seq<nat>, cur: nat, h: Happening, t': Table, cur': nat)
    requires QueueOk(t, q) && cur < |t| && OneRuns(t, cur) && Round(t, q, cur, h, t', cur')
    ensures |t'| == |t| && cur' < |t| && OneRuns(t', cur')
    ensures t'[cur'].stat == if cur' == cur then READY else RUNNING
  {
    var u := Happened(t, cur, h);
    var mid: Table :| Chosen(u, q, cur, mid, cur') && |mid| == |u| && cur' < |u| && t' == Switched(mid, cur, cur');
    assert forall p :: 0 <= p < |t| ==> mid[p].stat == u[p].stat;
  }

  /** What a round does to the states: the one chosen runs, or is left READY if it was current; the one
      preempted while RUNNING is READY; one that went to sleep or was parked is just that; sleepers on
      the tick counter are READY after a tick; everybody else's state is as before. */
  lemma RoundStats(t: Table, q: seq<nat>, cur: nat, h: Happening, t': Table, cur': nat)
    requires QueueOk(t, q) && cur < |t| && Round(t, q, cur, h, t', cur')
    ensures |t'| == |t| && cur' < |t| && t'[cur'].stat == (if cur' == cur then READY else RUNNING)
    ensures forall p :: 0 <= p < |t| && p != cur && p != cur' ==>
              t'[p].stat == if h == Tick && t[p].stat == SLEEPING && t[p].asleep then READY else t[p].stat
    ensures cur' != cur && (h == Tick || h == Yield || h == Nothing) && (t[cur].stat == RUNNING || t[cur].stat == READY) ==> t'[cur].stat == READY
    ensures h == Sleep ==> cur' != cur && t'[cur].stat == SLEEPING && t'[cur].asleep
    ensures h == Block ==> cur' != cur && t'[cur].stat == WAITING
  {
    var u := Happened(t, cur, h);
    var mid: Table :| Chosen(u, q, cur, mid, cur') && |mid| == |u| && cur' < |u| && t' == Switched(mid, cur, cur');
    assert forall p :: 0 <= p < |t| ==> mid[p].stat == u[p].stat && mid[p].asleep == u[p].asleep;
  }

  /** The other fields: a clock tick costs the current process one tick, a yield all of them; besides,
      ticks change only to the base ticks, in a refill, and base ticks never. */
  lemma RoundTicks(t: Table, q: seq<nat>, cur: nat, h: Happening, t': Table, cur': nat)
    requires QueueOk(t, q) && cur < |t| && Round(t, q, cur, h, t', cur')
    ensures |t'| == |t| && forall p :: 0 <= p < |t| ==>
              && t'[p].baseTicks == t[p].baseTicks && (p != cur ==> t'[p].asleep == t[p].asleep)
              && (t'[p].ticks == t[p].baseTicks || t'[p].ticks == TicksLeft(t, cur, h, p))
  {
    var u := Happened(t, cur, h);
    HappeningTicks(t, cur, h);
    SwitchTicks(u, q, cur, t', cur');
  }

  /** What a happening leaves of the ticks of p. */
  function TicksLeft(t: Table, cur: nat, h: Happening, p: nat): int
    requires p < |t|
  {
    if p != cur then t[p].ticks
    else if h == Tick then t[p].ticks - 1
    else if h == Yield || h == Block then 0
    else t[p].ticks
  }

  lemma HappeningTicks(t: Table, cur: nat, h: Happening)
    requires cur < |t|
    ensures forall p :: 0 <= p < |t| ==>
              var u := Happened(t, cur, h)[p];
              u.baseTicks == t[p].baseTicks && (p != cur ==> u.asleep == t[p].asleep) && u.ticks == TicksLeft(t, cur, h, p)
  {
  }

  lemma SwitchTicks(u: Table, q: seq<nat>, cur: nat, t': Table, cur': nat)
    requires QueueOk(u, q) && cur < |u| && Scheduled(u, q, cur, t', cur')
    ensures |t'| == |u| && forall p :: 0 <= p < |u| ==>
              t'[p].baseTicks == u[p].baseTicks && t'[p].asleep == u[p].asleep && (t'[p].ticks == u[p].ticks || t'[p].ticks == u[p].baseTicks)
  {
    var mid: Table :| Chosen(u, q, cur, mid, cur') && |mid| == |u| && cur' < |u| && t' == Switched(mid, cur, cur');
    assert forall p :: 0 <= p < |u| ==> mid[p] == u[p] || mid[p] == u[p].(ticks := u[p].baseTicks);
  }

  /** Whoever takes over had been READY with ticks, with as many as any READY member of the queue; if
      there was none, everybody in the queue has got its base ticks, and it has as many of these. */
  lemma MostTicksRun(t: Table, q: seq<nat>, cur: nat, h: Happening, t': Table, cur': nat)
    requires QueueOk(t, q) && cur < |t| && Round(t, q, cur, h, t', cur') && cur' != cur
    ensures |Happened(t, cur, h)| == |t| == |t'| && cur' in q && cur' < |t| && Happened(t, cur, h)[cur'].stat == READY && t'[cur'].ticks > 0
    ensures var u := Happened(t, cur, h);
            if exists p :: p in q && u[p].stat == READY && u[p].ticks > 0 then
              (forall p :: 0 <= p < |t| ==> t'[p].ticks == u[p].ticks) && forall p :: p in q && u[p].stat == READY ==> u[p].ticks <= u[cur'].ticks
            else
              (forall p :: p in q ==> t'[p].ticks == t[p].baseTicks) && forall p :: p in q && u[p].stat == READY ==> t[p].baseTicks <= t[cur'].baseTicks
  {
    var u := Happened(t, cur, h);
    RoundTicks(t, q, cur, h, t', cur');
    var mid: Table :| Chosen(u, q, cur, mid, cur') && |mid| == |u| && cur' < |u| && t' == Switched(mid, cur, cur');
    assert forall p :: 0 <= p < |t| ==> t'[p].ticks == mid[p].ticks;
    BestHasMost(u, q, cur, mid, cur');
  }

  /** Among equals the one that comes first in the queue. */
  lemma EarliestOfEqualRuns(t: Table, q: seq<nat>, cur: nat, h: Happening, t': Table, cur': nat)
    requires QueueOk(t, q) && cur < |t| && Round(t, q, cur, h, t', cur') && cur' != cur
    ensures |Happened(t, cur, h)| == |t| == |t'|
    ensures exists k :: 0 <= k < |q| && q[k] == cur' < |t| &&
              forall i :: 0 <= i < k && Happened(t, cur, h)[q[i]].stat == READY ==> t'[q[i]].ticks < t'[cur'].ticks
  {
    var u := Happened(t, cur, h);
    var mid: Table :| Chosen(u, q, cur, mid, cur') && |mid| == |u| && cur' < |u| && t' == Switched(mid, cur, cur');
    assert forall p :: 0 <= p < |t| ==> t'[p].ticks == mid[p].ticks && mid[p].stat == u[p].stat;
    var k :| IsBest(mid, q, k) && cur' == q[k];
    forall i | 0 <= i < k && u[q[i]].stat == READY ensures t'[q[i]].ticks < t'[cur'].ticks { assert mid[q[i]].stat == READY; }
  }

  lemma BestHasMost(u: Table, q: seq<nat>, cur: nat, mid: Table, next: nat)
    requires QueueOk(u, q) && cur < |u| && Chosen(u, q, cur, mid, next) && next != cur
    ensures |mid| == |u| && next in q && u[next].stat == READY && mid[next].ticks > 0
    ensures if exists p :: p in q && u[p].stat == READY && u[p].ticks > 0 then
              mid == u && forall p :: p in q && u[p].stat == READY ==> u[p].ticks <= u[next].ticks
            else
              (forall p :: p in q ==> mid[p].ticks == u[p].baseTicks) && forall p :: p in q && u[p].stat == READY ==> u[p].baseTicks <= u[next].baseTicks
  {
    var k :| IsBest(mid, q, k) && next == q[k];
    if p :| p in q && u[p].stat == READY && u[p].ticks > 0 {
      var i :| 0 <= i < |q| && q[i] == p;
      assert Eligible(u[q[i]]);
      assert SomeEligible(u, q) && mid == u;
    } else {
      assert !SomeEligible(u, q);
    }
    forall p | p in q && u[p].stat == READY ensures mid[p].ticks <= mid[next].ticks {
      var i :| 0 <= i < |q| && q[i] == p;
      assert mid[q[i]].stat == READY;
    }
  }

  /** sys_yield gives way: if any other member is READY with ticks, the next one is another one, with as
      many ticks as any, and the one that yielded stays READY without ticks. */
  lemma YieldGivesWay(t: Table, q: seq<nat>, cur: nat, t': Table, cur': nat, p: nat)
    requires QueueOk(t, q) && cur < |t| && Round(t, q, cur, Yield, t', cur')
    requires p in q && p != cur && t[p].stat == READY && t[p].ticks > 0 && (t[cur].stat == RUNNING || t[cur].stat == READY)
    ensures |t'| == |t| && cur' < |t| && cur' != cur && t[cur'].stat == READY && t'[cur'].stat == RUNNING && t[p].ticks <= t[cur'].ticks
    ensures t'[cur].stat == READY && t'[cur].ticks == 0
  {
    var u := Happened(t, cur, Yield);
    RoundStats(t, q, cur, Yield, t', cur');
    assert u[p] == t[p] && u[cur].ticks == 0;
    var i :| 0 <= i < |q| && q[i] == p;
    assert Eligible(u[q[i]]) && SomeEligible(u, q);
    MostTicksRun(t, q, cur, Yield, t', cur');
  }

  /** The current process goes on as long as it is READY with ticks. */
  lemma GoesOnWhileReady(t: Table, q: seq<nat>, cur: nat, h: Happening, t': Table, cur': nat)
    requires QueueOk(t, q) && cur < |t| && Round(t, q, cur, h, t', cur') && t[cur].stat == READY
    requires (h == Nothing && t[cur].ticks > 0) || (h == Tick && t[cur].ticks > 1)
    ensures cur' == cur
  {
  }

  // ---------------------------------------------------------------------------------------
  // Bounded waiting

  /** The ticks the members other than w still have to spend. */
  ghost function Owed(t: Table, q: seq<nat>, w: nat): nat
    requires QueueOk(t, q)
  {
    if q == [] then 0
    else (if q[0] == w || t[q[0]].ticks <= 0 then 0 else t[q[0]].ticks) + Owed(t, q[1..], w)
  }

  lemma {:induction false} OwedMonotone(t: Table, t': Table, q: seq<nat>, w: nat)
    requires QueueOk(t, q) && |t'| == |t|
    requires forall p :: 0 <= p < |t| && p != w ==> t'[p].ticks <= t[p].ticks || t'[p].ticks <= 0
    ensures Owed(t', q, w) <= Owed(t, q, w)
  {
    if q != [] { OwedMonotone(t, t', q[1..], w); }
  }

  lemma {:induction false} OwedDrops(t: Table, t': Table, q: seq<nat>, w: nat, c: nat)
    requires QueueOk(t, q) && |t'| == |t| && c in q && c != w && t[c].ticks > 0 && t'[c].ticks == t[c].ticks - 1
    requires forall p :: 0 <= p < |t| && p != w ==> t'[p].ticks <= t[p].ticks || t'[p].ticks <= 0
    ensures Owed(t', q, w) + 1 <= Owed(t, q, w)
  {
    if q[0] == c { OwedMonotone(t, t', q[1..], w); } else { OwedDrops(t, t', q[1..], w, c); }
  }

  /** Process w is in the queue, READY with ticks, while another one that had ticks when it was
      chosen is current. */
  ghost predicate Waiting(t: Table, q: seq<nat>, cur: nat, w: nat) {
    && QueueOk(t, q) && cur < |t| && w in q && w < |t| && w != cur && Eligible(t[w])
    && cur in q && t[cur].ticks > 0
  }

  /** While w waits nothing is refilled, whatever happens to the current process. */
  lemma NoRefill(t: Table, q: seq<nat>, cur: nat, w: nat, h: Happening)
    requires Waiting(t, q, cur, w)
    ensures var u := Happened(t, cur, h);
            u[w] == t[w] && SomeEligible(u, q)
  {
  }

  /** A choice without a refill touches no ticks. */
  lemma ChoiceWithoutRefill(u: Table, q: seq<nat>, cur: nat, t': Table, next: nat)
    requires QueueOk(u, q) && cur < |u| && cur in q && SomeEligible(u, q) && Scheduled(u, q, cur, t', next)
    ensures |t'| == |u| && next < |u| && next in q && Eligible(u[next]) && (forall p :: 0 <= p < |u| ==> t'[p].ticks == u[p].ticks)
    ensures forall p :: 0 <= p < |u| && p != cur && p != next ==> t'[p] == u[p]
  {
  }

  /** After a round w is current or waits on, and a clock tick has been paid out of what the others
      had. */
  lemma WaitingRound(t: Table, q: seq<nat>, cur: nat, w: nat, h: Happening, t': Table, cur': nat)
    requires Waiting(t, q, cur, w) && Round(t, q, cur, h, t', cur')
    ensures cur' != w ==> Waiting(t', q, cur', w) && Owed(t', q, w) + (if h == Tick then 1 else 0) <= Owed(t, q, w)
  {
    NoRefill(t, q, cur, w, h);
    ChoiceWithoutRefill(Happened(t, cur, h), q, cur, t', cur');
    if h == Tick { OwedDrops(t, t', q, w, cur); } else { OwedMonotone(t, t', q, w); }
  }

  datatype Snapshot = Snapshot(t: Table, cur: nat)

  ghost predicate Sound(s: Snapshot, q: seq<nat>) { QueueOk(s.t, q) && s.cur < |s.t| }

  /** The i-th round of a run. */
  ghost predicate RoundAt(run: seq<Snapshot>, q: seq<nat>, hs: seq<Happening>, i: nat)
    requires |run| == |hs| + 1 && i < |hs|
  {
    Sound(run[i], q) && Sound(run[i + 1], q) && Round(run[i].t, q, run[i].cur, hs[i], run[i + 1].t, run[i + 1].cur)
  }

  ghost predicate IsRun(run: seq<Snapshot>, q: seq<nat>, hs: seq<Happening>) {
    |run| == |hs| + 1 && Sound(run[0], q) && forall i :: 0 <= i < |hs| ==> RoundAt(run, q, hs, i)
  }

  ghost function Ticks(hs: seq<Happening>): nat {
    if hs == [] then 0 else Ticks(hs[..|hs| - 1]) + if hs[|hs| - 1] == Tick then 1 else 0
  }

  /** The round starts with a refill. */
  ghost predicate Refills(s: Snapshot, q: seq<nat>, h: Happening)
    requires Sound(s, q)
  {
    !Eligible(Happened(s.t, s.cur, h)[s.cur]) && !SomeEligible(Happened(s.t, s.cur, h), q)
  }

  lemma OneMore(hs: seq<Happening>, n: nat)
    requires 0 < n <= |hs|
    ensures Ticks(hs[..n]) == Ticks(hs[..n - 1]) + if hs[n - 1] == Tick then 1 else 0
  {
    assert hs[..n][..n - 1] == hs[..n - 1];
  }

  /** Bounded waiting: as long as w has not become current, the clock has ticked at most as often
      as the other members had ticks at the start. */
  lemma {:induction false} BoundedWaiting(run: seq<Snapshot>, q: seq<nat>, hs: seq<Happening>, w: nat, n: nat)
    requires IsRun(run, q, hs) && n <= |hs| && Waiting(run[0].t, q, run[0].cur, w)
    requires forall i :: 0 <= i <= n ==> run[i].cur != w
    ensures Waiting(run[n].t, q, run[n].cur, w)
    ensures Ticks(hs[..n]) + Owed(run[n].t, q, w) <= Owed(run[0].t, q, w)
  {
    if n > 0 {
      BoundedWaiting(run, q, hs, w, n - 1);
      assert RoundAt(run, q, hs, n - 1);
      WaitingRound(run[n - 1].t, q, run[n - 1].cur, w, hs[n - 1], run[n].t, run[n].cur);
      OneMore(hs, n);
    }
  }

  /** Nor does any round refill before w is current. */
  lemma NoRefillWhileWaiting(run: seq<Snapshot>, q: seq<nat>, hs: seq<Happening>, w: nat, n: nat)
    requires IsRun(run, q, hs) && n < |hs| && Waiting(run[0].t, q, run[0].cur, w)
    requires forall i :: 0 <= i <= n ==> run[i].cur != w
    ensures Sound(run[n], q) && !Refills(run[n], q, hs[n])
  {
    BoundedWaiting(run, q, hs, w, n);
    NoRefill(run[n].t, q, run[n].cur, w, hs[n]);
  }

  /** Over runs of any length, only the current process is ever RUNNING. */
  lemma {:induction false} OnlyCurrentRuns(run: seq<Snapshot>, q: seq<nat>, hs: seq<Happening>, i: nat)
    requires IsRun(run, q, hs) && OneRuns(run[0].t, run[0].cur) && i < |run|
    ensures OneRuns(run[i].t, run[i].cur)
  {
    if i > 0 {
      OnlyCurrentRuns(run, q, hs, i - 1);
      assert RoundAt(run, q, hs, i - 1);
      RoundKeepsOneRunning(run[i - 1].t, q, run[i - 1].cur, hs[i - 1], run[i].t, run[i].cur);
    }
  }

  predicate Runnable(p: Pcb) { p.stat == READY || p.stat == RUNNING }

  /** Nobody is lost: a process that is READY or RUNNING stays so for as long as it neither goes to sleep
      nor is parked, however often it is preempted. */
  lemma {:induction false} StaysRunnable(run: seq<Snapshot>, q: seq<nat>, hs: seq<Happening>, p: nat, n: nat)
    requires IsRun(run, q, hs) && n <= |hs| && p < |run[0].t| && Runnable(run[0].t[p])
    requires forall i :: 0 <= i < n && run[i].cur == p ==> hs[i] != Sleep && hs[i] != Block
    ensures p < |run[n].t| && Runnable(run[n].t[p])
  {
    if n > 0 {
      StaysRunnable(run, q, hs, p, n - 1);
      assert RoundAt(run, q, hs, n - 1);
      RoundStats(run[n - 1].t, q, run[n - 1].cur, hs[n - 1], run[n].t, run[n].cur);
    }
  }

  /** A process that went to sleep sleeps, and is never current, until the next clock tick; that one
      makes it READY. */
  lemma {:induction false} SleepsUntilTick(run: seq<Snapshot>, q: seq<nat>, hs: seq<Happening>, p: nat, i: nat, n: nat)
    requires IsRun(run, q, hs) && i < n <= |hs| && run[i].cur == p && hs[i] == Sleep && forall j :: i < j < n ==> hs[j] != Tick
    ensures p < |run[n].t| && run[n].cur != p && run[n].t[p].stat == SLEEPING && run[n].t[p].asleep
    ensures n < |hs| && hs[n] == Tick ==> p < |run[n + 1].t| && Runnable(run[n + 1].t[p])
    decreases n
  {
    var k: nat := n - 1;
    assert RoundAt(run, q, hs, k);
    if k != i {
      SleepsUntilTick(run, q, hs, p, i, k);
      SleepsOn(run[k].t, q, run[k].cur, hs[k], run[n].t, run[n].cur, p);
    } else {
      RoundStats(run[k].t, q, run[k].cur, hs[k], run[n].t, run[n].cur);
    }
    if n < |hs| && hs[n] == Tick { TickAfterSleep(run, q, hs, p, n); }
  }

  lemma SleepsOn(t: Table, q: seq<nat>, cur: nat, h: Happening, t': Table, cur': nat, p: nat)
    requires QueueOk(t, q) && cur < |t| && Round(t, q, cur, h, t', cur') && p < |t| && p != cur && h != Tick
    requires t[p].stat == SLEEPING && t[p].asleep
    ensures |t'| == |t| && cur' != p && t'[p].stat == SLEEPING && t'[p].asleep
  {
    RoundStats(t, q, cur, h, t', cur');
    RoundTicks(t, q, cur, h, t', cur');
    NotChosenAsleep(t, q, cur, h, t', cur', p);
  }

  lemma TickAfterSleep(run: seq<Snapshot>, q: seq<nat>, hs: seq<Happening>, p: nat, n: nat)
    requires IsRun(run, q, hs) && n < |hs| && hs[n] == Tick
    requires p < |run[n].t| && run[n].cur != p && run[n].t[p].stat == SLEEPING && run[n].t[p].asleep
    ensures p < |run[n + 1].t| && Runnable(run[n + 1].t[p])
  {
    assert RoundAt(run, q, hs, n);
    RoundStats(run[n].t, q, run[n].cur, hs[n], run[n + 1].t, run[n + 1].cur);
  }

  /** Whoever is neither READY nor about to be woken is not chosen. */
  lemma NotChosenAsleep(t: Table, q: seq<nat>, cur: nat, h: Happening, t': Table, cur': nat, p: nat)
    requires QueueOk(t, q) && cur < |t| && Round(t, q, cur, h, t', cur') && p < |t| && p != cur
    requires t[p].stat == WAITING || (t[p].stat == SLEEPING && h != Tick)
    ensures cur' != p
  {
    if cur' != cur { MostTicksRun(t, q, cur, h, t', cur'); }
  }

  /** A process that was parked stays so, and is never current, until the IPC code wakes it. */
  lemma {:induction false} StaysParked(run: seq<Snapshot>, q: seq<nat>, hs: seq<Happening>, p: nat, i: nat, n: nat)
    requires IsRun(run, q, hs) && i < n <= |hs| && run[i].cur == p && hs[i] == Block
    ensures p < |run[n].t| && run[n].cur != p && run[n].t[p].stat == WAITING
    decreases n
  {
    assert RoundAt(run, q, hs, n - 1);
    RoundStats(run[n - 1].t, q, run[n - 1].cur, hs[n - 1], run[n].t, run[n].cur);
    if n - 1 > i {
      StaysParked(run, q, hs, p, i, n - 1);
      NotChosenAsleep(run[n - 1].t, q, run[n - 1].cur, hs[n - 1], run[n].t, run[n].cur, p);
    }
  }
}
