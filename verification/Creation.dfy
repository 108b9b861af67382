/** Creation of processes and threads: the PCB lock is held from alloc_PCB until the child is READY
    (kernel/proc.c:802-820, kernel/fork.c:32-91, kernel/pthread.c:30-105). Runs interleave it with
    balancing and resorting of the queues. */
module Creation {
  import opened Basics
  import opened ReadyQueue
  import opened Balance
  import opened Smp

  const NR_TASKS := 12
  const FIRST_PCB := NR_TASKS + NR_INITIALS

  /** Who holds allocPCBlock: a creator that was given a slot and has queued the child or not yet,
      or one that was given none. */
  datatype Lock = Open | Held(slot: nat, queued: bool) | Stuck

  datatype State = State(stat: seq<Stat>, qs: Queues, lock: Lock)

  datatype Event =
    | Claim                            // alloc_PCB
    | Enqueue(cpu: nat)                // add_ready_queue of the child
    | Publish                          // stat = READY and release
    | Change(pid: nat, to: Stat)       // scheduling, sleeping, waiting, waking, killing
    | Balance(cpu: nat)
    | Resort(cpu: nat)

  /** The search of alloc_PCB. */
  method AllocPcb(stat: seq<Stat>) returns (i: nat)
    requires |stat| == NR_PCBS
    ensures i == FirstIdle(stat, FIRST_PCB)
  {
    i := FIRST_PCB;
    while i < NR_PCBS && stat[i] != IDLE
      invariant FIRST_PCB <= i <= NR_PCBS && FirstIdle(stat, FIRST_PCB) == FirstIdle(stat, i)
    {
      i := i + 1;
    }
  }

  function FirstIdle(stat: seq<Stat>, from: nat): (i: nat)
    requires from <= |stat|
    ensures from <= i <= |stat| && (i < |stat| ==> stat[i] == IDLE)
    ensures forall j :: from <= j < i ==> stat[j] != IDLE
    decreases |stat| - from
  {
    if from == |stat| || stat[from] == IDLE then from else FirstIdle(stat, from + 1)
  }

  /** Every process is in at most one queue, once, and from the first PCB that can be allocated on
      exactly those that exist are, a child being made counting from the moment it is queued. */
  ghost predicate Inv(s: State) {
    && |s.stat| == NR_PCBS && |s.qs| == NCPU
    && (forall p :: Entries(s.qs, p) <= 1)
    && (forall p: nat :: Entries(s.qs, p) == 1 ==> p < NR_PCBS)
    && (forall p :: FIRST_PCB <= p < NR_PCBS ==>
          (Entries(s.qs, p) == 1 <==> s.stat[p] != IDLE || s.lock == Held(p, true)))
    && (s.lock.Held? ==> FIRST_PCB <= s.lock.slot < NR_PCBS && s.stat[s.lock.slot] == IDLE)
  }

  ghost predicate Step(s: State, e: Event, s': State)
    requires Inv(s)
  {
    match e
    case Claim =>
      && s.lock == Open
      && var i := FirstIdle(s.stat, FIRST_PCB);
         s' == s.(lock := if i == NR_PCBS then Stuck else Held(i, false))
    case Enqueue(c) =>
      && s.lock.Held? && !s.lock.queued && c < NCPU
      && s' == s.(qs := s.qs[c := s.qs[c] + [s.lock.slot]], lock := s.lock.(queued := true))
    case Publish =>
      && s.lock.Held? && s.lock.queued
      && s' == s.(stat := s.stat[s.lock.slot := READY], lock := Open)
    case Change(pid, to) =>
      && pid < NR_PCBS && s.stat[pid] != IDLE && to != IDLE
      && s' == s.(stat := s.stat[pid := to])
    case Balance(c) =>
      && c < NCPU && Balanced(s.qs, c, s'.qs) && s' == s.(qs := s'.qs)
    case Resort(c) =>
      && c < NCPU && |s.qs[c]| >= 4 && s' == s.(qs := s.qs[c := Resorted(s.qs[c])])
  }

  lemma Appended(qs: Queues, c: nat, x: nat, p: nat)
    requires c < |qs|
    ensures Entries(qs[c := qs[c] + [x]], p) == Entries(qs, p) + if p == x then 1 else 0
  {
    EntriesUpdate(qs, c, qs[c] + [x], p);
  }

  lemma ResortedSame(s: seq<nat>)
    requires |s| >= 4
    ensures multiset(Resorted(s)) == multiset(s)
  {
    assert s == s[..2] + s[2..|s| - 1] + [s[|s| - 1]];
  }

  lemma StepKeeps(s: State, e: Event, s': State)
    requires Inv(s) && Step(s, e, s')
    ensures Inv(s')
  {
    match e
    case Claim =>
    case Enqueue(c) => EnqueueKeeps(s, c);
    case Publish =>
    case Change(pid, to) =>
    case Balance(c) =>
      var b :| IsBusiest(s.qs, b) && Safe(s.qs, c, b) && s'.qs == Leveled(s.qs, c, b);
      BalanceKeeps(s.qs, c, b);
      SameEntries(s, s'.qs);
    case Resort(c) =>
      ResortedSame(s.qs[c]);
      forall p ensures Entries(s'.qs, p) == Entries(s.qs, p) { EntriesUpdate(s.qs, c, Resorted(s.qs[c]), p); }
      SameEntries(s, s'.qs);
  }

  lemma EnqueueKeeps(s: State, c: nat)
    requires Inv(s) && s.lock.Held? && !s.lock.queued && c < NCPU
    ensures Inv(s.(qs := s.qs[c := s.qs[c] + [s.lock.slot]], lock := s.lock.(queued := true)))
  {
    var x := s.lock.slot;
    var qs' := s.qs[c := s.qs[c] + [x]];
    forall p ensures Entries(qs', p) == Entries(s.qs, p) + if p == x then 1 else 0 { Appended(s.qs, c, x, p); }
  }

  lemma SameEntries(s: State, qs: Queues)
    requires Inv(s) && |qs| == NCPU && forall p :: Entries(qs, p) == Entries(s.qs, p)
    ensures Inv(s.(qs := qs))
  {
  }

  /** After balance_ready_proc: the boot processes queued, all other PCBs free. */
  ghost predicate Boot(s: State) {
    && |s.stat| == NR_PCBS && s.qs == BootQueues() && s.lock == Open
    && forall p :: FIRST_PCB <= p < NR_PCBS ==> s.stat[p] == IDLE
  }

  lemma EntriesCons(q: seq<nat>, rest: Queues, p: nat)
    ensures Entries([q] + rest, p) == multiset(q)[p] + Entries(rest, p)
  {
  }

  lemma Twice(a: nat, b: nat, p: nat)
    requires a != b
    ensures multiset([a, b])[p] == if p == a || p == b then 1 else 0
  {
  }

  lemma BootRest(r1: Queues, p: nat)
    requires r1 == [[1, 5], [2, 6], [3, 7]]
    ensures Entries(r1, p) == if p in {1, 2, 3, 5, 6, 7} then 1 else 0
  {
    var r3: Queues := [[3, 7]] + [];
    var r2: Queues := [[2, 6]] + r3;
    assert r1 == [[1, 5]] + r2;
    EntriesCons([1, 5], r2, p);
    EntriesCons([2, 6], r3, p);
    EntriesCons([3, 7], [], p);
    Twice(1, 5, p);
    Twice(2, 6, p);
    Twice(3, 7, p);
  }

  /** balance_ready_proc gives each of the twelve boot processes one entry. */
  lemma BootEntries(p: nat)
    ensures Entries(BootQueues(), p) == if p < 12 then 1 else 0
  {
    var q0: seq<nat> := [0, 4, 8, 9, 10, 11];
    var r1: Queues := [[1, 5], [2, 6], [3, 7]];
    assert multiset(q0)[p] == if p in {0, 4, 8, 9, 10, 11} then 1 else 0 by { assert multiset(q0) == multiset{0, 4, 8, 9, 10, 11}; }
    assert BootQueues() == [q0] + r1;
    EntriesCons(q0, r1, p);
    BootRest(r1, p);
  }

  ghost predicate IsRun(run: seq<State>, events: seq<Event>) {
    && |run| == |events| + 1 && Boot(run[0])
    && forall i :: 0 <= i < |events| ==> Inv(run[i]) ==> Step(run[i], events[i], run[i + 1])
  }

  /** In every state of every run each process is linked in at most one ready queue, once, and a
      process that exists is linked. */
  lemma {:induction false} RunKeeps(run: seq<State>, events: seq<Event>, i: nat)
    requires IsRun(run, events) && i < |run|
    ensures Inv(run[i])
  {
    if i == 0 {
      forall p ensures Entries(run[0].qs, p) == if p < 12 then 1 else 0 {
        BootEntries(p);
      }
    } else {
      RunKeeps(run, events, i - 1);
      StepKeeps(run[i - 1], events[i - 1], run[i]);
    }
  }

  /** A slot that was given out stays taken. */
  ghost predicate Taken(s: State, slot: nat)
    requires Inv(s) && slot < NR_PCBS
  {
    s.stat[slot] != IDLE || (s.lock.Held? && s.lock.slot == slot)
  }

  lemma TakenStep(s: State, e: Event, s': State, slot: nat)
    requires Inv(s) && Step(s, e, s') && Inv(s') && slot < NR_PCBS && Taken(s, slot)
    ensures Taken(s', slot)
  {
  }

  lemma {:induction false} StaysTaken(run: seq<State>, events: seq<Event>, i: nat, j: nat, slot: nat)
    requires IsRun(run, events) && i <= j < |run| && slot < NR_PCBS
    requires Inv(run[i]) && Taken(run[i], slot)
    ensures Inv(run[j]) && Taken(run[j], slot)
    decreases j
  {
    RunKeeps(run, events, j);
    if i < j {
      StaysTaken(run, events, i, j - 1, slot);
      TakenStep(run[j - 1], events[j - 1], run[j], slot);
    }
  }

  /** No slot is given to two creators. */
  lemma SlotsDistinct(run: seq<State>, events: seq<Event>, i: nat, j: nat)
    requires IsRun(run, events) && i < j < |events| && events[i] == Claim && events[j] == Claim
    requires run[i + 1].lock.Held? && run[j + 1].lock.Held?
    ensures run[i + 1].lock.slot != run[j + 1].lock.slot
  {
    RunKeeps(run, events, i);
    RunKeeps(run, events, i + 1);
    RunKeeps(run, events, j);
    assert Step(run[i], Claim, run[i + 1]) && Step(run[j], Claim, run[j + 1]);
    StaysTaken(run, events, i + 1, j, run[i + 1].lock.slot);
  }

  /** When no PCB is left, alloc_PCB returns with the lock held: nobody ever allocates again. */
  lemma {:induction false} StuckForever(run: seq<State>, events: seq<Event>, i: nat, j: nat)
    requires IsRun(run, events) && i <= j < |run| && run[i].lock == Stuck
    ensures run[j].lock == Stuck && (j < |events| ==> events[j] != Claim)
    decreases j
  {
    RunKeeps(run, events, j);
    if i < j {
      StuckForever(run, events, i, j - 1);
      RunKeeps(run, events, j - 1);
      assert Step(run[j - 1], events[j - 1], run[j]);
    }
    if j < |events| { assert Step(run[j], events[j], run[j + 1]); }
  }

  lemma Extended(run: seq<State>, events: seq<Event>, e: Event, s': State)
    requires IsRun(run, events) && Inv(run[|events|]) && Step(run[|events|], e, s')
    ensures IsRun(run + [s'], events + [e]) && Inv(s') && (run + [s'])[|events| + 1] == s'
  {
    StepKeeps(run[|events|], e, s');
    var run', events' := run + [s'], events + [e];
    forall i | 0 <= i < |events'| && Inv(run'[i]) ensures Step(run'[i], events'[i], run'[i + 1]) {
      if i < |events| { assert run'[i] == run[i] && run'[i + 1] == run[i + 1] && events'[i] == events[i]; }
    }
  }

  /** The PCBs from FIRST_PCB up to k are in use, the others free, and nobody holds the lock. */
  ghost predicate UsedUpTo(s: State, k: nat) {
    && |s.stat| == NR_PCBS && |s.qs| == NCPU && s.lock == Open
    && forall p :: FIRST_PCB <= p < NR_PCBS ==> (s.stat[p] == IDLE <==> p >= k)
  }

  lemma OneMoreProcess(run: seq<State>, events: seq<Event>, k: nat) returns (run': seq<State>, events': seq<Event>)
    requires IsRun(run, events) && Inv(run[|events|]) && FIRST_PCB <= k < NR_PCBS && UsedUpTo(run[|events|], k)
    ensures IsRun(run', events') && Inv(run'[|events'|]) && UsedUpTo(run'[|events'|], k + 1)
  {
    var s := run[|events|];
    var s1 := s.(lock := Held(k, false));
    assert s.stat[k] == IDLE && FirstIdle(s.stat, FIRST_PCB) == k;
    Extended(run, events, Claim, s1);
    var s2 := s1.(qs := s1.qs[0 := s1.qs[0] + [k]], lock := Held(k, true));
    Extended(run + [s1], events + [Claim], Enqueue(0), s2);
    var s3 := s2.(stat := s2.stat[k := READY], lock := Open);
    Extended(run + [s1] + [s2], events + [Claim] + [Enqueue(0)], Publish, s3);
    run', events' := run + [s1] + [s2] + [s3], events + [Claim] + [Enqueue(0)] + [Publish];
  }

  /** Creating one process after the other from boot on gets there. */
  lemma StuckAfterAll() returns (run: seq<State>, events: seq<Event>)
    ensures IsRun(run, events) && run[|events|].lock == Stuck
  {
    var s0 := State(seq(NR_PCBS, i => if i < FIRST_PCB then READY else IDLE), BootQueues(), Open);
    run, events := [s0], [];
    RunKeeps(run, events, 0);
    var k := FIRST_PCB;
    while k < NR_PCBS
      invariant FIRST_PCB <= k <= NR_PCBS && IsRun(run, events) && Inv(run[|events|]) && UsedUpTo(run[|events|], k)
    {
      run, events := OneMoreProcess(run, events, k);
      k := k + 1;
    }
    var s := run[|events|];
    Extended(run, events, Claim, s.(lock := Stuck));
    run, events := run + [s.(lock := Stuck)], events + [Claim];
  }
}
