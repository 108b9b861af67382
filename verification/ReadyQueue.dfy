/** Ready queues: doubly linked lists of nodes with front and rear pointers and a count, one per
    CPU (kernel/proc.c:831-860, kernel/proc.c:1101-1141, kernel/ktest.c:1079-1093). Nodes live at
    addresses of a store, address 0 being NULL. */
module ReadyQueue {
  import opened Basics

  const NR_STABLE := 3   // NR_STABLE_PROC: entries at the front that never move
  const NULL: Addr := 0

  type Addr = nat

  /** struct ready_proc */
  datatype Node = Node(pid: nat, prev: Addr, next: Addr)

  type Store = map<Addr, Node>

  /** struct ready_queue with nr_ready_proc. */
  datatype Queue = Queue(front: Addr, rear: Addr, count: int)

  // ---------------------------------------------------------------------------------------
  // Sequences

  /** The last entry goes to the third place. */
  function Resorted<T>(s: seq<T>): (r: seq<T>)
    requires |s| >= 4
    ensures |r| == |s|
    ensures forall i :: 0 <= i < |r| ==> r[i] == if i < 2 then s[i] else if i == 2 then s[|s| - 1] else s[i - 1]
  {
    s[..2] + [s[|s| - 1]] + s[2..|s| - 1]
  }

  // ---------------------------------------------------------------------------------------
  // Linked lists

  ghost predicate Placed(mem: Store, a: seq<Addr>) {
    && (forall i :: 0 <= i < |a| ==> a[i] != NULL && a[i] in mem)
    && (forall i, j :: 0 <= i < j < |a| ==> a[i] != a[j])
  }

  /** Every node points to its neighbours, the ends to nothing, and no node comes twice. */
  ghost predicate Chain(mem: Store, a: seq<Addr>) {
    && Placed(mem, a)
    && (a != [] ==> mem[a[0]].prev == NULL && mem[a[|a| - 1]].next == NULL)
    && (forall i, j :: 0 <= i < j < |a| && j == i + 1 ==> mem[a[i]].next == a[j] && mem[a[j]].prev == a[i])
  }

  ghost function Pids(mem: Store, a: seq<Addr>): (ps: seq<nat>)
    requires Placed(mem, a)
    ensures |ps| == |a| && forall i :: 0 <= i < |a| ==> ps[i] == mem[a[i]].pid
  {
    seq(|a|, i requires 0 <= i < |a| => mem[a[i]].pid)
  }

  ghost predicate Ends(q: Queue, a: seq<Addr>) {
    && q.front == (if a == [] then NULL else a[0])
    && q.rear == (if a == [] then NULL else a[|a| - 1])
  }

  /** q is the queue of the nodes a, which hold the processes ps, and its count is right. */
  ghost predicate Holds(mem: Store, q: Queue, a: seq<Addr>, ps: seq<nat>) {
    Chain(mem, a) && Ends(q, a) && q.count == |a| && Pids(mem, a) == ps
  }

  /** Of the nodes there were, only those of a were written. */
  ghost predicate WritesWithin(mem: Store, mem': Store, a: seq<Addr>) {
    forall x :: x in mem && x !in a ==> x in mem' && mem'[x] == mem[x]
  }

  // ---------------------------------------------------------------------------------------
  // The pointer writes

  /** add_ready_queue at the new node p. */
  function Linked(mem: Store, q: Queue, p: Addr, pid: nat): (Store, Queue)
    requires q.rear != NULL ==> q.rear in mem
  {
    if q.rear == NULL then (mem[p := Node(pid, NULL, NULL)], q.(front := p, rear := p))
    else (mem[p := Node(pid, q.rear, NULL)][q.rear := mem[q.rear].(next := p)], q.(rear := p))
  }

  lemma LinkedChain(mem: Store, q: Queue, a: seq<Addr>, ps: seq<nat>, p: Addr, pid: nat)
    requires Holds(mem, q, a, ps) && p != NULL && p !in a
    ensures var (mem', q') := Linked(mem, q, p, pid);
            && Holds(mem', q'.(count := q.count + 1), a + [p], ps + [pid])
            && WritesWithin(mem, mem', a + [p])
  {
  }

  /** The first half of move_ready_proc, p being a node with neighbours. */
  function Unlinked(mem: Store, p: Addr): Store
    requires p in mem && mem[p].prev in mem && mem[p].next in mem
  {
    var l, r := mem[p].prev, mem[p].next;
    var m := mem[l := mem[l].(next := r)];
    m[r := m[r].(prev := l)]
  }

  /** The three steps from the front of a queue to its fourth node go through nodes. */
  predicate WalkDefined(mem: Store, q: Queue) {
    q.front in mem && mem[q.front].next in mem && mem[mem[q.front].next].next in mem
  }

  function FourthOf(mem: Store, q: Queue): Addr
    requires WalkDefined(mem, q)
  {
    mem[mem[mem[q.front].next].next].next
  }

  /** Every pointer move_ready_proc follows leads to a node. */
  predicate MoveDefined(mem: Store, src: Queue, dst: Queue) {
    && WalkDefined(mem, src)
    && var p := FourthOf(mem, src);
       p in mem && mem[p].prev in mem && mem[p].next in mem && dst.rear in mem
  }

  /** It does exactly when the fourth node is not the last, and there is a last node to append to. */
  lemma MoveDefinedExactly(mem: Store, src: Queue, a: seq<Addr>, ps: seq<nat>, dst: Queue, b: seq<Addr>, pd: seq<nat>)
    requires Holds(mem, src, a, ps) && Holds(mem, dst, b, pd) && NULL !in mem
    ensures MoveDefined(mem, src, dst) <==> |ps| >= NR_STABLE + 2 && pd != []
    ensures |ps| >= NR_STABLE + 2 ==> WalkDefined(mem, src) && FourthOf(mem, src) == a[NR_STABLE]
  {
    if |a| > 1 { assert mem[a[0]].next == a[1]; }
    if |a| > 2 { assert mem[a[1]].next == a[2]; }
    if |a| > 3 { assert mem[a[2]].next == a[3] && mem[a[3]].prev == a[2]; }
    if |a| > 4 { assert mem[a[3]].next == a[4]; }
  }

  lemma Fourth(mem: Store, a: seq<Addr>)
    requires Chain(mem, a) && |a| >= NR_STABLE + 2
    ensures mem[a[3]].prev == a[2] && mem[a[3]].next == a[4] && a[2] != a[3] && a[2] != a[4] && a[3] != a[4]
  {
  }

  lemma UnlinkedChain(mem: Store, q: Queue, a: seq<Addr>, ps: seq<nat>)
    requires Holds(mem, q, a, ps) && |a| >= NR_STABLE + 2
    ensures mem[a[3]].prev == a[2] && mem[a[3]].next == a[4] && a[2] != a[3] && a[2] != a[4]
    ensures Holds(Unlinked(mem, a[3]), q.(count := q.count - 1), Without(a, NR_STABLE), Without(ps, NR_STABLE))
    ensures Unlinked(mem, a[3])[a[3]].pid == ps[NR_STABLE] && WritesWithin(mem, Unlinked(mem, a[3]), a)
  {
    Fourth(mem, a);
    UnlinkedNodes(mem, a);
    var mem', a' := Unlinked(mem, a[3]), Without(a, NR_STABLE);
    assert a'[|a'| - 1] == a[|a| - 1];
    assert Pids(mem', a') == Without(ps, NR_STABLE);
  }

  lemma UnlinkedNodes(mem: Store, a: seq<Addr>)
    requires Chain(mem, a) && |a| >= NR_STABLE + 2 && mem[a[3]].prev == a[2] && mem[a[3]].next == a[4]
    ensures Chain(Unlinked(mem, a[3]), Without(a, NR_STABLE))
  {
    Fourth(mem, a);
    var mem', a' := Unlinked(mem, a[3]), Without(a, NR_STABLE);
    forall i, j | 0 <= i < j < |a'| && j == i + 1 ensures mem'[a'[i]].next == a'[j] && mem'[a'[j]].prev == a'[i] {
      var k := if i < 3 then i else i + 1;
      if i != 2 { assert mem[a[k]].next == a[k + 1] && mem[a[k + 1]].prev == a[k]; }
    }
  }

  /** Every pointer resort_ready_proc follows leads to a node. */
  predicate ResortDefined(mem: Store, q: Queue) {
    q.front in mem && q.rear in mem && mem[q.front].next in mem && mem[q.rear].prev in mem && mem[mem[q.front].next].next in mem
  }

  /** resort_ready_proc */
  function Relinked(mem: Store, q: Queue): (Store, Queue)
    requires ResortDefined(mem, q)
  {
    var mov, init := mem[q.front].next, q.rear;
    var rear := mem[init].prev;
    var m1 := mem[init := mem[init].(next := mem[mov].next)];
    var m2 := m1[init := m1[init].(prev := mov)];
    var nx := m2[mov].next;
    var m3 := m2[nx := m2[nx].(prev := init)];
    var m4 := m3[mov := m3[mov].(next := init)];
    (m4[rear := m4[rear].(next := NULL)], q.(rear := rear))
  }

  lemma ResortReady(mem: Store, q: Queue, a: seq<Addr>)
    requires Chain(mem, a) && Ends(q, a) && |a| >= 3
    ensures q.front == a[0] && mem[a[0]].next == a[1] && mem[a[1]].next == a[2] && q.rear == a[|a| - 1] && mem[a[|a| - 1]].prev == a[|a| - 2]
  {
  }

  /** What the writes of resort_ready_proc come to on a list of four or more. */
  lemma RelinkedAt(mem: Store, q: Queue, a: seq<Addr>)
    requires Chain(mem, a) && Ends(q, a) && |a| >= 4
    ensures q.front == a[0] && mem[a[0]].next == a[1] && mem[a[1]].next == a[2] && q.rear == a[|a| - 1] && mem[a[|a| - 1]].prev == a[|a| - 2]
    ensures var (mem', q') := Relinked(mem, q);
            var n := |a|;
            && q' == q.(rear := a[n - 2])
            && mem' == mem[a[n - 1] := Node(mem[a[n - 1]].pid, a[1], a[2])][a[2] := mem[a[2]].(prev := a[n - 1])]
                          [a[1] := mem[a[1]].(next := a[n - 1])][a[n - 2] := mem[a[n - 2]].(prev := if n == 4 then a[n - 1] else mem[a[n - 2]].prev, next := NULL)]
  {
  }

  lemma RelinkedWrites(mem: Store, q: Queue, a: seq<Addr>)
    requires Chain(mem, a) && Ends(q, a) && |a| >= 4
    ensures q.front == a[0] && mem[a[0]].next == a[1] && mem[a[1]].next == a[2] && q.rear == a[|a| - 1] && mem[a[|a| - 1]].prev == a[|a| - 2]
    ensures var (mem', q') := Relinked(mem, q);
            mem'.Keys == mem.Keys && WritesWithin(mem, mem', a) && forall i :: 0 <= i < |a| ==> mem'[a[i]].pid == mem[a[i]].pid
  {
  }

  /** The links as resort_ready_proc leaves them, in the old order of the nodes. */
  ghost predicate Reshaped(mem: Store, a: seq<Addr>) {
    && |a| >= 4 && Placed(mem, a) && mem[a[0]].prev == NULL && mem[a[|a| - 2]].next == NULL
    && (forall i, j :: 0 <= i < j < |a| - 1 && j == i + 1 && i != 1 ==> mem[a[i]].next == a[j] && mem[a[j]].prev == a[i])
    && var last := a[|a| - 1];
       mem[a[1]].next == last && mem[last].next == a[2] && mem[last].prev == a[1] && mem[a[2]].prev == last
  }

  lemma RelinkedShape(mem: Store, q: Queue, a: seq<Addr>)
    requires Chain(mem, a) && Ends(q, a) && |a| >= 4
    ensures q.front == a[0] && mem[a[0]].next == a[1] && mem[a[1]].next == a[2] && q.rear == a[|a| - 1] && mem[a[|a| - 1]].prev == a[|a| - 2]
    ensures Reshaped(Relinked(mem, q).0, a)
  {
  }

  lemma ResortedPids(mem: Store, a: seq<Addr>)
    requires Placed(mem, a) && |a| >= 4
    ensures Placed(mem, Resorted(a)) && Pids(mem, Resorted(a)) == Resorted(Pids(mem, a))
  {
  }

  lemma ReshapedChain(mem: Store, a: seq<Addr>)
    requires Reshaped(mem, a)
    ensures Chain(mem, Resorted(a)) && Pids(mem, Resorted(a)) == Resorted(Pids(mem, a))
  {
    var r := Resorted(a);
    ResortedPids(mem, a);
    forall i, j | 0 <= i < j < |r| && j == i + 1 ensures mem[r[i]].next == r[j] && mem[r[j]].prev == r[i] {
      var k := if i < 2 then i else i - 1;
      if i == 0 || i >= 3 { assert mem[a[k]].next == a[k + 1] && mem[a[k + 1]].prev == a[k]; }
    }
  }

  lemma RelinkedChain(mem: Store, q: Queue, a: seq<Addr>, ps: seq<nat>)
    requires Holds(mem, q, a, ps) && |a| >= 4
    ensures ResortDefined(mem, q)
    ensures var (mem', q') := Relinked(mem, q);
            Holds(mem', q', Resorted(a), Resorted(ps)) && mem'.Keys == mem.Keys && WritesWithin(mem, mem', a)
  {
    RelinkedAt(mem, q, a);
    RelinkedShape(mem, q, a);
    RelinkedWrites(mem, q, a);
    var (mem', q') := Relinked(mem, q);
    ReshapedChain(mem', a);
    assert Pids(mem', a) == ps;
  }

  /** On a queue of three, the last node drops out of the list: what can be reached from the front
      is the first two, while the count still says three. */
  lemma ResortOfThree(mem: Store, q: Queue, a: seq<Addr>, ps: seq<nat>)
    requires Holds(mem, q, a, ps) && |a| == 3
    ensures ResortDefined(mem, q)
    ensures var (mem', q') := Relinked(mem, q);
            Chain(mem', a[..2]) && Ends(q', a[..2]) && q'.count == 3 && mem'[a[2]].next == a[2]
  {
    ResortReady(mem, q, a);
  }

  /** Some nodes make up the queue. */
  ghost predicate IsQueue(mem: Store, q: Queue) { exists b, ps :: Holds(mem, q, b, ps) }

  /** resort_ready_proc follows no null pointer and leaves a queue if and only if there are four
      nodes or more, and then the last one is the third. */
  lemma ResortExactly(mem: Store, q: Queue, a: seq<Addr>, ps: seq<nat>)
    requires Holds(mem, q, a, ps) && NULL !in mem
    ensures ResortDefined(mem, q) <==> |a| >= 3
    ensures ResortDefined(mem, q) && IsQueue(Relinked(mem, q).0, Relinked(mem, q).1) <==> |a| >= 4
    ensures |a| >= 4 ==>
              Holds(Relinked(mem, q).0, Relinked(mem, q).1, a[..2] + [a[|a| - 1]] + a[2..|a| - 1], ps[..2] + [ps[|a| - 1]] + ps[2..|a| - 1])
  {
    if |a| >= 4 {
      RelinkedChain(mem, q, a, ps);
    } else if |a| == 3 {
      ResortOfThree(mem, q, a, ps);
      NoQueueOfThree(Relinked(mem, q).0, Relinked(mem, q).1, a[..2]);
    } else if |a| == 2 {
      assert mem[a[0]].next == a[1];
    }
  }

  lemma NextOf(mem: Store, a: seq<Addr>, i: nat)
    requires Chain(mem, a) && i < |a|
    ensures mem[a[i]].next == if i + 1 < |a| then a[i + 1] else NULL
    ensures i + 1 < |a| ==> a[i + 1] != NULL
  {
  }

  lemma {:induction false} SameFrom(mem: Store, a: seq<Addr>, b: seq<Addr>, i: nat)
    requires Chain(mem, a) && Chain(mem, b) && i < |a| && i < |b| && a[0] == b[0]
    ensures a[i] == b[i]
  {
    if i > 0 {
      SameFrom(mem, a, b, i - 1);
      NextOf(mem, a, i - 1);
      NextOf(mem, b, i - 1);
    }
  }

  /** Two lists in one store that start with the same node are equally long. */
  lemma SameLength(mem: Store, a: seq<Addr>, b: seq<Addr>)
    requires Chain(mem, a) && Chain(mem, b) && a != [] && b != [] && a[0] == b[0]
    ensures |a| == |b|
  {
    var i := (if |a| < |b| then |a| else |b|) - 1;
    SameFrom(mem, a, b, i);
    NextOf(mem, a, i);
    NextOf(mem, b, i);
  }

  /** A list of two is not a queue with count three. */
  lemma NoQueueOfThree(mem: Store, q: Queue, a: seq<Addr>)
    requires Chain(mem, a) && Ends(q, a) && |a| == 2 && q.count == 3
    ensures !IsQueue(mem, q)
  {
    forall b, ps ensures !Holds(mem, q, b, ps) {
      if Chain(mem, b) && b != [] && b[0] == a[0] { SameLength(mem, a, b); }
    }
  }
}
