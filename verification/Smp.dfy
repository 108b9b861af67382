/** The CPUs with their ready queues: boot distribution, growth, resorting and load balancing on
    the linked lists (kernel/proc.c:547-630, kernel/proc.c:843-860, kernel/proc.c:1072-1170,
    kernel/ktest.c:1079-1093). */
module Smp {
  import opened Basics
  import opened ReadyQueue
  import opened Balance

  const NR_INITIALS := NCPU
  const NR_MIGRATIONS := NCPU
  const BOOT_SERVICES := 4   // TestA, TestB, kb_service, hd_service

  /** balance_ready_proc up to process p: CPU i gets initial process i, then migration process
      NCPU + i, and CPU 0 the services. */
  function BootQueue(i: nat, p: nat): seq<nat> {
    (if i < p then [i] else [])
    + (if NR_INITIALS + i < p then [NR_INITIALS + i] else [])
    + (if i == 0 && p > NR_INITIALS + NR_MIGRATIONS then seq(p - NR_INITIALS - NR_MIGRATIONS, k requires k >= 0 => NR_INITIALS + NR_MIGRATIONS + k) else [])
  }

  lemma BootStep(c: nat, p: nat)
    requires p < NR_INITIALS + NR_MIGRATIONS + BOOT_SERVICES
    requires c == if p < NR_INITIALS then p else if p < NR_INITIALS + NR_MIGRATIONS then p - NR_INITIALS else 0
    ensures forall i :: 0 <= i < NCPU ==> BootQueue(i, p + 1) == BootQueue(i, p) + if i == c then [p] else []
  {
  }

  /** CPU i has the i-th initial process and the i-th migration process, CPU 0 also the services. */
  lemma BootPlaces(i: nat)
    requires i < NCPU
    ensures BootQueues()[i] == [i, NCPU + i] + if i == 0 then [2 * NCPU, 2 * NCPU + 1, 2 * NCPU + 2, 2 * NCPU + 3] else []
  {
  }

  function BootQueues(): Queues { [[0, 4, 8, 9, 10, 11], [1, 5], [2, 6], [3, 7]] }

  lemma BootStart(qs: Queues)
    requires qs == [[], [], [], []]
    ensures forall i :: 0 <= i < NCPU ==> qs[i] == BootQueue(i, 0)
  {
  }

  lemma BootEnd(qs: Queues)
    requires |qs| == NCPU && forall i :: 0 <= i < NCPU ==> qs[i] == BootQueue(i, NR_INITIALS + NR_MIGRATIONS + BOOT_SERVICES)
    ensures qs == BootQueues()
  {
    assert qs[0] == [0, 4, 8, 9, 10, 11] && qs[1] == [1, 5] && qs[2] == [2, 6] && qs[3] == [3, 7];
  }

  ghost predicate Disjoint(nodes: seq<seq<Addr>>) {
    forall i, j, x :: 0 <= i < |nodes| && 0 <= j < |nodes| && i != j && x in nodes[i] ==> x !in nodes[j]
  }

  /** The four queues hold the processes qs in the nodes given, none shared, all below brk. */
  ghost predicate AllHold(mem: Store, brk: nat, cpus: seq<Queue>, nodes: seq<seq<Addr>>, qs: Queues) {
    && |cpus| == |nodes| == |qs| == NCPU && Disjoint(nodes)
    && (forall i :: 0 <= i < NCPU ==> Holds(mem, cpus[i], nodes[i], qs[i]))
    && brk > NULL && NULL !in mem && (forall x :: x in mem ==> x < brk)
  }

  /** Writing nodes of CPU c and one that is in no queue leaves the other CPUs alone. */
  lemma OthersSpared(mem: Store, mem': Store, brk: nat, cpus: seq<Queue>, nodes: seq<seq<Addr>>, qs: Queues, c: nat, b: seq<Addr>, p: Addr)
    requires AllHold(mem, brk, cpus, nodes, qs) && c < NCPU && WritesWithin(mem, mem', b)
    requires (forall x :: x in b ==> x in nodes[c] || x == p) && forall i :: 0 <= i < NCPU ==> i == c || p !in nodes[i]
    ensures forall i :: 0 <= i < NCPU && i != c ==> Holds(mem', cpus[i], nodes[i], qs[i])
  {
  }

  lemma InStore(mem: Store, q: Queue, a: seq<Addr>, ps: seq<nat>)
    requires Holds(mem, q, a, ps)
    ensures (forall x :: x in a ==> x in mem) && |ps| == |a| && (q.rear != NULL ==> q.rear in mem)
  {
  }

  /** A node that is in no queue, new or taken out before, goes to the end of CPU c's. */
  lemma Added(mem: Store, brk: nat, brk': nat, cpus: seq<Queue>, nodes: seq<seq<Addr>>, qs: Queues, c: nat, p: Addr, pid: nat)
    requires AllHold(mem, brk, cpus, nodes, qs) && c < NCPU && p != NULL && p < brk' && brk <= brk'
    requires forall i :: 0 <= i < NCPU ==> p !in nodes[i]
    ensures cpus[c].rear != NULL ==> cpus[c].rear in mem
    ensures var (mem', q) := Linked(mem, cpus[c], p, pid);
            AllHold(mem', brk', cpus[c := q.(count := cpus[c].count + 1)], nodes[c := nodes[c] + [p]], qs[c := qs[c] + [pid]])
  {
    InStore(mem, cpus[c], nodes[c], qs[c]);
    LinkedChain(mem, cpus[c], nodes[c], qs[c], p, pid);
    var (mem', q) := Linked(mem, cpus[c], p, pid);
    OthersSpared(mem, mem', brk, cpus, nodes, qs, c, nodes[c] + [p], p);
  }

  lemma NewNode(mem: Store, brk: nat, cpus: seq<Queue>, nodes: seq<seq<Addr>>, qs: Queues)
    requires AllHold(mem, brk, cpus, nodes, qs)
    ensures brk !in mem && forall i :: 0 <= i < NCPU ==> brk !in nodes[i]
  {
  }

  lemma Resettled(mem: Store, brk: nat, cpus: seq<Queue>, nodes: seq<seq<Addr>>, qs: Queues, c: nat)
    requires AllHold(mem, brk, cpus, nodes, qs) && c < NCPU && |qs[c]| >= 4
    ensures ResortDefined(mem, cpus[c])
    ensures var (mem', q) := Relinked(mem, cpus[c]);
            |nodes[c]| >= 4 && AllHold(mem', brk, cpus[c := q], nodes[c := Resorted(nodes[c])], qs[c := Resorted(qs[c])])
  {
    var a := nodes[c];
    RelinkedChain(mem, cpus[c], a, qs[c]);
    var (mem', q) := Relinked(mem, cpus[c]);
    OthersSpared(mem, mem', brk, cpus, nodes, qs, c, a, a[0]);
    SameMembers(a);
    Rejoined(mem, mem', brk, cpus, nodes, qs, c, q, Resorted(a), Resorted(qs[c]));
  }

  lemma SameMembers(a: seq<Addr>)
    requires |a| >= 4
    ensures forall x :: x in Resorted(a) ==> x in a
  {
  }

  /** One queue changed within its own nodes, the others held. */
  lemma Rejoined(mem: Store, mem': Store, brk: nat, cpus: seq<Queue>, nodes: seq<seq<Addr>>, qs: Queues, c: nat, q: Queue, a: seq<Addr>, ps: seq<nat>)
    requires AllHold(mem, brk, cpus, nodes, qs) && c < NCPU && mem'.Keys == mem.Keys
    requires Holds(mem', q, a, ps) && forall x :: x in a ==> x in nodes[c]
    requires forall i :: 0 <= i < NCPU && i != c ==> Holds(mem', cpus[i], nodes[i], qs[i])
    ensures AllHold(mem', brk, cpus[c := q], nodes[c := a], qs[c := ps])
  {
  }

  /** The fourth node of CPU c's queue is taken out. */
  lemma TakenOut(mem: Store, brk: nat, cpus: seq<Queue>, nodes: seq<seq<Addr>>, qs: Queues, c: nat)
    requires AllHold(mem, brk, cpus, nodes, qs) && c < NCPU && |qs[c]| >= NR_STABLE + 2
    ensures |nodes[c]| == |qs[c]|
    ensures var p := nodes[c][NR_STABLE];
            && p in mem && mem[p].prev in mem && mem[p].next in mem && p != NULL && p < brk
            && var mem' := Unlinked(mem, p);
            && p in mem' && mem'[p].pid == qs[c][NR_STABLE]
            && var nodes' := nodes[c := Without(nodes[c], NR_STABLE)];
            && AllHold(mem', brk, cpus[c := cpus[c].(count := cpus[c].count - 1)], nodes', qs[c := Without(qs[c], NR_STABLE)])
            && (forall i :: 0 <= i < NCPU ==> p !in nodes'[i])
  {
    var a := nodes[c];
    InStore(mem, cpus[c], a, qs[c]);
    UnlinkedChain(mem, cpus[c], a, qs[c]);
    var p := a[NR_STABLE];
    var mem' := Unlinked(mem, p);
    assert p in a;
    OthersSpared(mem, mem', brk, cpus, nodes, qs, c, a, p);
    Rejoined(mem, mem', brk, cpus, nodes, qs, c, cpus[c].(count := cpus[c].count - 1), Without(a, NR_STABLE), Without(qs[c], NR_STABLE));
  }

  // ---------------------------------------------------------------------------------------
  // When load_balance is safe

  /** move_ready_proc: the store and the queues after its writes. */
  function MoveWrites(mem: Store, cpus: seq<Queue>, dst: nat, src: nat): (Store, seq<Queue>)
    requires dst < |cpus| && src < |cpus| && MoveDefined(mem, cpus[src], cpus[dst])
  {
    var p, rear := FourthOf(mem, cpus[src]), cpus[dst].rear;
    var m1 := Unlinked(mem, p);
    var m2 := m1[p := m1[p].(prev := rear, next := NULL)];
    var m3 := m2[rear := m2[rear].(next := p)];
    var cpus1 := cpus[src := cpus[src].(count := cpus[src].count - 1)];
    (m3, cpus1[dst := cpus1[dst].(rear := p, count := cpus1[dst].count + 1)])
  }

  /** The loop of load_balance follows no null pointer. */
  predicate MovesDefined(mem: Store, cpus: seq<Queue>, dst: nat, src: nat, n: nat)
    requires dst < |cpus| && src < |cpus|
    decreases n
  {
    n == 0 ||
    (&& MoveDefined(mem, cpus[src], cpus[dst])
     && var (mem', cpus') := MoveWrites(mem, cpus, dst, src);
        MovesDefined(mem', cpus', dst, src, n - 1))
  }

  /** One move on the lists is one move of the queues. */
  lemma MoveHolds(mem: Store, brk: nat, cpus: seq<Queue>, nodes: seq<seq<Addr>>, qs: Queues, dst: nat, src: nat)
    returns (nodes': seq<seq<Addr>>)
    requires AllHold(mem, brk, cpus, nodes, qs) && dst < NCPU && src < NCPU && dst != src
    requires |qs[src]| >= NR_STABLE + 2 && qs[dst] != []
    ensures MoveDefined(mem, cpus[src], cpus[dst])
    ensures var (mem', cpus') := MoveWrites(mem, cpus, dst, src);
            AllHold(mem', brk, cpus', nodes', MoveOne(qs, dst, src))
  {
    MoveDefinedExactly(mem, cpus[src], nodes[src], qs[src], cpus[dst], nodes[dst], qs[dst]);
    TakenOut(mem, brk, cpus, nodes, qs, src);
    var p := nodes[src][NR_STABLE];
    var m1, cpus1 := Unlinked(mem, p), cpus[src := cpus[src].(count := cpus[src].count - 1)];
    var nodes1, qs1 := nodes[src := Without(nodes[src], NR_STABLE)], qs[src := Without(qs[src], NR_STABLE)];
    InStore(m1, cpus1[dst], nodes1[dst], qs1[dst]);
    NotNull(m1, cpus1[dst], nodes1[dst], qs1[dst]);
    Added(m1, brk, brk, cpus1, nodes1, qs1, dst, p, m1[p].pid);
    nodes' := nodes1[dst := nodes1[dst] + [p]];
  }

  lemma NotNull(mem: Store, q: Queue, a: seq<Addr>, ps: seq<nat>)
    requires Holds(mem, q, a, ps) && ps != []
    ensures q.rear != NULL && q.rear in a
  {
  }

  /** load_balance follows no null pointer if and only if its moves are safe. */
  lemma SafeExactly(mem: Store, brk: nat, cpus: seq<Queue>, nodes: seq<seq<Addr>>, qs: Queues, me: nat, b: nat)
    requires AllHold(mem, brk, cpus, nodes, qs) && me < NCPU && b < NCPU && me != b && |qs[me]| <= |qs[b]|
    ensures MovesDefined(mem, cpus, me, b, MoveNum(qs, me, b)) <==> Safe(qs, me, b)
  {
    MovesDefinedExactly(mem, brk, cpus, nodes, qs, me, b, MoveNum(qs, me, b));
  }

  lemma {:induction false} MovesDefinedExactly(mem: Store, brk: nat, cpus: seq<Queue>, nodes: seq<seq<Addr>>, qs: Queues, dst: nat, src: nat, n: nat)
    requires AllHold(mem, brk, cpus, nodes, qs) && dst < NCPU && src < NCPU && dst != src
    ensures MovesDefined(mem, cpus, dst, src, n) <==> n == 0 || (qs[dst] != [] && |qs[src]| - n > NR_STABLE)
    decreases n
  {
    if n > 0 && CanMove(qs, dst, src) {
      var mem', cpus', nodes' := FirstMoves(mem, brk, cpus, nodes, qs, dst, src, n);
      MovesDefinedExactly(mem', brk, cpus', nodes', MoveOne(qs, dst, src), dst, src, n - 1);
      OneMoveLess(qs, dst, src, n);
    } else if n > 0 {
      MoveDefinedExactly(mem, cpus[src], nodes[src], qs[src], cpus[dst], nodes[dst], qs[dst]);
    }
  }

  predicate CanMove(qs: Queues, dst: nat, src: nat)
    requires dst < |qs| && src < |qs|
  {
    qs[dst] != [] && |qs[src]| >= NR_STABLE + 2
  }

  lemma FirstMoves(mem: Store, brk: nat, cpus: seq<Queue>, nodes: seq<seq<Addr>>, qs: Queues, dst: nat, src: nat, n: nat)
    returns (mem': Store, cpus': seq<Queue>, nodes': seq<seq<Addr>>)
    requires AllHold(mem, brk, cpus, nodes, qs) && dst < NCPU && src < NCPU && dst != src && n > 0 && CanMove(qs, dst, src)
    ensures AllHold(mem', brk, cpus', nodes', MoveOne(qs, dst, src))
    ensures MovesDefined(mem, cpus, dst, src, n) == MovesDefined(mem', cpus', dst, src, n - 1)
  {
    MoveDefinedExactly(mem, cpus[src], nodes[src], qs[src], cpus[dst], nodes[dst], qs[dst]);
    nodes' := MoveHolds(mem, brk, cpus, nodes, qs, dst, src);
    var r := MoveWrites(mem, cpus, dst, src);
    mem', cpus' := r.0, r.1;
    FirstMove(mem, cpus, dst, src, n, mem', cpus');
  }

  lemma FirstMove(mem: Store, cpus: seq<Queue>, dst: nat, src: nat, n: nat, mem': Store, cpus': seq<Queue>)
    requires dst < |cpus| && src < |cpus| && n > 0 && MoveDefined(mem, cpus[src], cpus[dst])
    requires (mem', cpus') == MoveWrites(mem, cpus, dst, src)
    ensures |cpus'| == |cpus|
    ensures MovesDefined(mem, cpus, dst, src, n) == MovesDefined(mem', cpus', dst, src, n - 1)
  {
  }

  lemma OneMoveLess(qs: Queues, dst: nat, src: nat, n: nat)
    requires dst < |qs| && src < |qs| && dst != src && |qs[src]| > NR_STABLE && n > 0
    ensures var qs' := MoveOne(qs, dst, src);
            |qs'[src]| == |qs[src]| - 1 && qs'[dst] != []
  {
  }

  /** One balancing of CPU 1 after boot leaves CPUs 2 and 3 with two processes each: the next one, of
      CPU 2, follows a null pointer. */
  lemma BalancingTwiceAfterBoot(mem: Store, brk: nat, cpus: seq<Queue>, nodes: seq<seq<Addr>>, qs: Queues)
    requires qs == [[0, 4, 8, 11], [1, 5, 9, 10], [2, 6], [3, 7]]
    ensures Balanced(BootQueues(), 1, qs)
    ensures IsBusiest(qs, 0)
    ensures AllHold(mem, brk, cpus, nodes, qs) ==> !MovesDefined(mem, cpus, 2, 0, MoveNum(qs, 2, 0))
  {
    var boot := BootQueues();
    assert IsBusiest(boot, 0) && MoveNum(boot, 1, 0) == 2 && Safe(boot, 1, 0);
    MoveManyIs(boot, 1, 0, 2);
    assert boot[0][..3] + boot[0][5..] == qs[0] && boot[1] + boot[0][3..5] == qs[1];
    assert Leveled(boot, 1, 0) == qs;
    if AllHold(mem, brk, cpus, nodes, qs) { SafeExactly(mem, brk, cpus, nodes, qs, 2, 0); }
  }

  class CpuList {
    var mem: Store
    var cpus: seq<Queue>
    var brk: nat                       // where do_kmalloc finds the next node
    ghost var nodes: seq<seq<Addr>>
    ghost var qs: Queues               // the processes queued, CPU by CPU

    ghost predicate Valid()
      reads this
    {
      AllHold(mem, brk, cpus, nodes, qs)
    }

    /** init_ready_queue for every CPU. */
    constructor ()
      ensures Valid() && qs == [[], [], [], []]
    {
      mem, brk := map[], 1;
      cpus := seq(NCPU, _ => Queue(NULL, NULL, 0));
      nodes, qs := [[], [], [], []], [[], [], [], []];
    }

    /** add_ready_queue with its caller's count: a forked process, a new thread, a boot process. */
    method Add(c: nat, pid: nat)
      requires Valid() && c < NCPU
      modifies this
      ensures Valid() && qs == old(qs)[c := old(qs)[c] + [pid]]
    {
      NewNode(mem, brk, cpus, nodes, qs);
      Added(mem, brk, brk + 1, cpus, nodes, qs, c, brk, pid);
      var p, q := brk, cpus[c];
      brk := brk + 1;
      if q.rear == NULL {
        mem := mem[p := Node(pid, NULL, NULL)];
        q := q.(front := p, rear := p);
      } else {
        mem := mem[p := Node(pid, q.rear, NULL)];
        mem := mem[q.rear := mem[q.rear].(next := p)];
        q := q.(rear := p);
      }
      cpus := cpus[c := q.(count := q.count + 1)];
      nodes, qs := nodes[c := nodes[c] + [p]], qs[c := qs[c] + [pid]];
    }

    /** resort_ready_proc on CPU c. */
    method Resort(c: nat)
      requires Valid() && c < NCPU && |qs[c]| >= 4
      modifies this
      ensures Valid() && qs == old(qs)[c := Resorted(old(qs)[c])]
    {
      Resettled(mem, brk, cpus, nodes, qs, c);
      var q := cpus[c];
      var mov, init := mem[q.front].next, q.rear;
      q := q.(rear := mem[q.rear].prev);
      mem := mem[init := mem[init].(next := mem[mov].next)];
      mem := mem[init := mem[init].(prev := mov)];
      mem := mem[mem[mov].next := mem[mem[mov].next].(prev := init)];
      mem := mem[mov := mem[mov].(next := init)];
      mem := mem[q.rear := mem[q.rear].(next := NULL)];
      cpus := cpus[c := q];
      nodes, qs := nodes[c := Resorted(nodes[c])], qs[c := Resorted(qs[c])];
    }

    /** The start of move_ready_proc: the fourth node is found and unlinked. */
    method TakeFourth(c: nat) returns (p: Addr)
      requires Valid() && c < NCPU && |qs[c]| >= NR_STABLE + 2
      modifies this
      ensures Valid() && brk == old(brk) && qs == old(qs)[c := Without(old(qs)[c], NR_STABLE)]
      ensures p != NULL && p < brk && p in mem && mem[p].pid == old(qs)[c][NR_STABLE] && forall i :: 0 <= i < NCPU ==> p !in nodes[i]
    {
      TakenOut(mem, brk, cpus, nodes, qs, c);
      p := FindFourth(c);
      var l, r := mem[p].prev, mem[p].next;
      mem := mem[l := mem[l].(next := r)];
      mem := mem[r := mem[r].(prev := l)];
      cpus := cpus[c := cpus[c].(count := cpus[c].count - 1)];
      nodes, qs := nodes[c := Without(nodes[c], NR_STABLE)], qs[c := Without(qs[c], NR_STABLE)];
    }

    method FindFourth(c: nat) returns (p: Addr)
      requires Valid() && c < NCPU && |qs[c]| >= NR_STABLE + 2
      ensures |nodes[c]| == |qs[c]| && p == nodes[c][NR_STABLE]
    {
      InStore(mem, cpus[c], nodes[c], qs[c]);
      p := cpus[c].front;
      for i := 0 to NR_STABLE
        invariant p == nodes[c][i]
      {
        assert mem[nodes[c][i]].next == nodes[c][i + 1];
        p := mem[p].next;
      }
    }

    /** move_ready_proc */
    method MoveReadyProc(dst: nat, src: nat)
      requires Valid() && dst < NCPU && src < NCPU && dst != src && |qs[src]| >= NR_STABLE + 2 && qs[dst] != []
      modifies this
      ensures Valid() && qs == MoveOne(old(qs), dst, src)
    {
      var p := TakeFourth(src);
      InStore(mem, cpus[dst], nodes[dst], qs[dst]);
      Added(mem, brk, brk, cpus, nodes, qs, dst, p, mem[p].pid);
      var q := cpus[dst];
      ghost var pid := mem[p].pid;
      assert q.rear != NULL && q.rear in nodes[dst];
      mem := mem[p := mem[p].(prev := q.rear, next := NULL)];
      mem := mem[q.rear := mem[q.rear].(next := p)];
      cpus := cpus[dst := q.(rear := p, count := q.count + 1)];
      nodes, qs := nodes[dst := nodes[dst] + [p]], qs[dst := qs[dst] + [pid]];
    }

    /** find_busiest_cpu */
    method FindBusiest() returns (b: nat)
      requires Valid() && exists i :: 0 <= i < NCPU && qs[i] != []
      ensures IsBusiest(qs, b)
    {
      var max := 0;
      b := 0;
      for c := 0 to NCPU
        invariant max == 0 ==> forall i :: 0 <= i < c ==> |qs[i]| == 0
        invariant max > 0 ==> b < c && |qs[b]| == max && forall i :: 0 <= i < c ==> |qs[i]| <= max
        invariant max > 0 ==> forall i :: 0 <= i < b ==> |qs[i]| < max
        invariant max >= 0
      {
        InStore(mem, cpus[c], nodes[c], qs[c]);
        var load := cpus[c].count;
        if load > max { max, b := load, c; }
      }
    }

    /** move_proc_num: half the difference, rounded towards zero. */
    method MoveProcNum(me: nat, b: nat) returns (n: int)
      requires Valid() && me < NCPU && b < NCPU
      ensures if |qs[me]| <= |qs[b]| then n == MoveNum(qs, me, b) else n + MoveNum(qs, b, me) == 0
    {
      InStore(mem, cpus[me], nodes[me], qs[me]);
      InStore(mem, cpus[b], nodes[b], qs[b]);
      var diff := cpus[b].count - cpus[me].count;
      n := if diff >= 0 then diff / 2 else -(-diff / 2);
    }

    /** load_balance on CPU me. */
    method LoadBalance(me: nat) returns (ghost busiest: nat)
      requires Valid() && me < NCPU && (exists i :: 0 <= i < NCPU && qs[i] != [])
      requires forall b :: IsBusiest(qs, b) ==> Safe(qs, me, b)
      modifies this
      ensures Valid() && IsBusiest(old(qs), busiest) && qs == Leveled(old(qs), me, busiest)
    {
      var b := FindBusiest();
      busiest := b;
      if b == me { return; }
      var n := MoveProcNum(me, b);
      ghost var was := qs;
      for i := 0 to n
        invariant Valid() && (n > 0 ==> qs[me] != [] && |qs[b]| > NR_STABLE + (n - i))
        invariant if n == 0 then qs == was else MoveMany(qs, me, b, n - i) == MoveMany(was, me, b, n)
      {
        MoveReadyProc(me, b);
      }
    }

    ghost predicate Booted(p: nat)
      reads this
    {
      Valid() && forall i :: 0 <= i < NCPU ==> qs[i] == BootQueue(i, p)
    }

    /** One round of a loop of balance_ready_proc. */
    method BootOne(c: nat, p: nat)
      requires Booted(p) && p < NR_INITIALS + NR_MIGRATIONS + BOOT_SERVICES
      requires c == if p < NR_INITIALS then p else if p < NR_INITIALS + NR_MIGRATIONS then p - NR_INITIALS else 0
      modifies this
      ensures Booted(p + 1)
    {
      BootStep(c, p);
      Add(c, p);
    }

    /** balance_ready_proc */
    method BalanceReadyProc()
      requires Valid() && qs == [[], [], [], []]
      modifies this
      ensures Valid() && qs == BootQueues()
    {
      BootStart(qs);
      var p := 0;
      for c := 0 to NCPU
        invariant p == c && Booted(p)
      {
        BootOne(c, p);
        p := p + 1;
      }
      for c := 0 to NCPU
        invariant p == NR_INITIALS + c && Booted(p)
      {
        BootOne(c, p);
        p := p + 1;
      }
      while p < NR_INITIALS + NR_MIGRATIONS + BOOT_SERVICES
        invariant NR_INITIALS + NR_MIGRATIONS <= p <= NR_INITIALS + NR_MIGRATIONS + BOOT_SERVICES && Booted(p)
      {
        BootOne(0, p);
        p := p + 1;
      }
      BootEnd(qs);
    }
  }
}
