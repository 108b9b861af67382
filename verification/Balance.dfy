/** Load balancing between the ready queues of the CPUs (kernel/proc.c:1072-1170). */
module Balance {
  import opened Basics
  import opened ReadyQueue

  const NCPU := 4

  type Queues = seq<seq<nat>>

  // ---------------------------------------------------------------------------------------
  // Queues as values

  predicate AtLeast(qs: Queues, n: nat) { forall i :: 0 <= i < |qs| ==> |qs[i]| >= n }

  /** The first CPU with the longest queue. */
  ghost predicate IsBusiest(qs: Queues, b: int) {
    && 0 <= b < |qs| && |qs[b]| > 0
    && (forall i :: 0 <= i < |qs| ==> |qs[i]| <= |qs[b]|)
    && (forall i :: 0 <= i < b ==> |qs[i]| < |qs[b]|)
  }

  /** No queue is longer, and every one before it is shorter. */
  lemma BusiestIsLongest(qs: Queues, b: int, i: nat)
    requires IsBusiest(qs, b) && i < |qs|
    ensures 0 <= b < |qs| && |qs[b]| >= |qs[i]| && |qs[b]| > 0 && (i < b ==> |qs[i]| < |qs[b]|)
  {
  }

  lemma OneBusiest(qs: Queues, a: int, b: int)
    requires IsBusiest(qs, a) && IsBusiest(qs, b)
    ensures a == b
  {
  }

  function MoveOne(qs: Queues, dst: nat, src: nat): (r: Queues)
    requires dst < |qs| && src < |qs| && dst != src && |qs[src]| > NR_STABLE
    ensures |r| == |qs|
  {
    qs[src := Without(qs[src], NR_STABLE)][dst := qs[dst] + [qs[src][NR_STABLE]]]
  }

  function MoveMany(qs: Queues, dst: nat, src: nat, n: nat): (r: Queues)
    requires dst < |qs| && src < |qs| && dst != src && |qs[src]| >= NR_STABLE + n
    ensures |r| == |qs|
    decreases n
  {
    if n == 0 then qs else MoveMany(MoveOne(qs, dst, src), dst, src, n - 1)
  }

  /** Moves one after the other take a block from behind the three that stay. */
  lemma {:induction false} MoveManyIs(qs: Queues, dst: nat, src: nat, n: nat)
    requires dst < |qs| && src < |qs| && dst != src && |qs[src]| >= NR_STABLE + n
    ensures MoveMany(qs, dst, src, n) ==
            qs[src := qs[src][..NR_STABLE] + qs[src][NR_STABLE + n..]][dst := qs[dst] + qs[src][NR_STABLE..NR_STABLE + n]]
    decreases n
  {
    var s, d := qs[src], qs[dst];
    if n == 0 {
      assert s[..NR_STABLE] + s[NR_STABLE + n..] == s && d + s[NR_STABLE..NR_STABLE + n] == d;
      assert qs[src := s][dst := d] == qs;
    } else {
      var qs' := MoveOne(qs, dst, src);
      var s' := Without(s, NR_STABLE);
      MoveManyIs(qs', dst, src, n - 1);
      assert s'[..NR_STABLE] == s[..NR_STABLE] && s'[NR_STABLE + (n - 1)..] == s[NR_STABLE + n..];
      assert [s[NR_STABLE]] + s'[NR_STABLE..NR_STABLE + (n - 1)] == s[NR_STABLE..NR_STABLE + n];
      assert d + [s[NR_STABLE]] + s'[NR_STABLE..NR_STABLE + (n - 1)] == d + ([s[NR_STABLE]] + s'[NR_STABLE..NR_STABLE + (n - 1)]);
    }
  }

  /** move_proc_num */
  function MoveNum(qs: Queues, me: nat, b: nat): nat
    requires me < |qs| && b < |qs| && |qs[me]| <= |qs[b]|
  {
    (|qs[b]| - |qs[me]|) / 2
  }

  /** The condition under which load_balance follows no null pointer (Smp.SafeExactly): nothing to
      move, or the destination has a last node and the source keeps more than three. */
  predicate Safe(qs: Queues, me: nat, b: nat)
    requires me < |qs| && b < |qs| && |qs[me]| <= |qs[b]|
  {
    MoveNum(qs, me, b) == 0 || (qs[me] != [] && |qs[b]| - MoveNum(qs, me, b) > NR_STABLE)
  }

  /** Queues of three and more are always safe. */
  lemma LongQueuesAreSafe(qs: Queues, me: nat, b: nat)
    requires me < |qs| && IsBusiest(qs, b) && AtLeast(qs, NR_STABLE)
    ensures Safe(qs, me, b)
  {
  }

  /** load_balance on CPU me, b being the busiest. */
  function Leveled(qs: Queues, me: nat, b: nat): Queues
    requires me < |qs| && b < |qs| && |qs[me]| <= |qs[b]| && Safe(qs, me, b)
  {
    if MoveNum(qs, me, b) == 0 then qs else MoveMany(qs, me, b, MoveNum(qs, me, b))
  }

  ghost predicate Balanced(qs: Queues, me: nat, qs': Queues)
    requires me < |qs|
  {
    exists b :: IsBusiest(qs, b) && Safe(qs, me, b) && qs' == Leveled(qs, me, b)
  }

  // ---------------------------------------------------------------------------------------
  // What balancing keeps

  /** The number of ready queue entries of process p. */
  ghost function Entries(qs: Queues, p: nat): nat {
    if qs == [] then 0 else multiset(qs[0])[p] + Entries(qs[1..], p)
  }

  lemma {:induction false} EntriesUpdate(qs: Queues, i: nat, q: seq<nat>, p: nat)
    requires i < |qs|
    ensures Entries(qs[i := q], p) + multiset(qs[i])[p] == Entries(qs, p) + multiset(q)[p]
  {
    if i == 0 {
      assert qs[0 := q][1..] == qs[1..];
    } else {
      EntriesUpdate(qs[1..], i - 1, q, p);
      assert qs[i := q][1..] == qs[1..][i - 1 := q];
    }
  }

  ghost function SumSquares(qs: Queues): nat {
    if qs == [] then 0 else |qs[0]| * |qs[0]| + SumSquares(qs[1..])
  }

  lemma {:induction false} SumSquaresUpdate(qs: Queues, i: nat, q: seq<nat>)
    requires i < |qs|
    ensures SumSquares(qs[i := q]) + |qs[i]| * |qs[i]| == SumSquares(qs) + |q| * |q|
  {
    if i == 0 {
      assert qs[0 := q][1..] == qs[1..];
    } else {
      SumSquaresUpdate(qs[1..], i - 1, q);
      assert qs[i := q][1..] == qs[1..][i - 1 := q];
    }
  }

  lemma BlockMoved(s: seq<nat>, d: seq<nat>, n: nat)
    requires |s| >= NR_STABLE + n
    ensures multiset(s[..NR_STABLE] + s[NR_STABLE + n..]) + multiset(d + s[NR_STABLE..NR_STABLE + n]) == multiset(s) + multiset(d)
  {
    assert s == s[..NR_STABLE] + s[NR_STABLE..NR_STABLE + n] + s[NR_STABLE + n..];
  }

  lemma SquaresDrop(s: nat, d: nat, n: nat)
    requires s >= d && n == (s - d) / 2
    ensures n > 0 ==> (s - n) * (s - n) + (d + n) * (d + n) < s * s + d * d
    ensures 0 <= (s - n) - (d + n) <= 1
  {
  }

  /** A block of n processes changes queues. */
  lemma BlockKeepsEntries(qs: Queues, me: nat, b: nat, n: nat, p: nat)
    requires me < |qs| && b < |qs| && me != b && |qs[b]| >= NR_STABLE + n
    ensures Entries(MoveMany(qs, me, b, n), p) == Entries(qs, p)
  {
    var s, d := qs[b], qs[me];
    MoveManyIs(qs, me, b, n);
    var s', d' := s[..NR_STABLE] + s[NR_STABLE + n..], d + s[NR_STABLE..NR_STABLE + n];
    BlockMoved(s, d, n);
    EntriesUpdate(qs, b, s', p);
    EntriesUpdate(qs[b := s'], me, d', p);
    assert (multiset(s') + multiset(d'))[p] == (multiset(s) + multiset(d))[p];
  }

  lemma BlockSquares(qs: Queues, me: nat, b: nat, n: nat)
    requires me < |qs| && b < |qs| && me != b && |qs[b]| >= NR_STABLE + n
    ensures SumSquares(MoveMany(qs, me, b, n)) + |qs[b]| * |qs[b]| + |qs[me]| * |qs[me]|
            == SumSquares(qs) + (|qs[b]| - n) * (|qs[b]| - n) + (|qs[me]| + n) * (|qs[me]| + n)
  {
    var s, d := qs[b], qs[me];
    MoveManyIs(qs, me, b, n);
    var s', d' := s[..NR_STABLE] + s[NR_STABLE + n..], d + s[NR_STABLE..NR_STABLE + n];
    assert |s'| == |s| - n && |d'| == |d| + n;
    SumSquaresUpdate(qs, b, s');
    SumSquaresUpdate(qs[b := s'], me, d');
  }

  /** load_balance on one CPU: no process is lost or doubled, the first three entries of every
      queue and all third parties stay, the two queues end level or one apart, and every move
      lowers the sum of the squared loads. */
  lemma BalanceKeeps(qs: Queues, me: nat, b: nat)
    requires me < |qs| && IsBusiest(qs, b) && Safe(qs, me, b)
    ensures var qs' := Leveled(qs, me, b);
            && |qs'| == |qs| && (forall p :: Entries(qs', p) == Entries(qs, p))
            && (qs' != qs ==> SumSquares(qs') < SumSquares(qs))
            && (forall i :: 0 <= i < |qs| && i != me && i != b ==> qs'[i] == qs[i])
            && (forall i :: 0 <= i < |qs| && |qs[i]| >= NR_STABLE ==> |qs'[i]| >= NR_STABLE && qs'[i][..NR_STABLE] == qs[i][..NR_STABLE])
            && (b != me ==> 0 <= |qs'[b]| - |qs'[me]| <= 1)
  {
    var n := MoveNum(qs, me, b);
    SquaresDrop(|qs[b]|, |qs[me]|, n);
    if n > 0 {
      MoveManyIs(qs, me, b, n);
      BlockSquares(qs, me, b, n);
      forall p ensures Entries(Leveled(qs, me, b), p) == Entries(qs, p) { BlockKeepsEntries(qs, me, b, n, p); }
    }
  }

  predicate Level(qs: Queues) {
    forall i, j :: 0 <= i < |qs| && 0 <= j < |qs| ==> |qs[i]| <= |qs[j]| + 1
  }

  /** Nothing is left to move for any CPU exactly when no two loads differ by more than one. */
  lemma FixpointIsLevel(qs: Queues, b: nat)
    requires IsBusiest(qs, b) && AtLeast(qs, NR_STABLE)
    ensures (forall me :: 0 <= me < |qs| ==> Balanced(qs, me, qs)) <==> Level(qs)
  {
    if Level(qs) {
      forall me | 0 <= me < |qs| ensures Balanced(qs, me, qs) {
        LongQueuesAreSafe(qs, me, b);
        assert Leveled(qs, me, b) == qs;
      }
    }
    if forall me :: 0 <= me < |qs| ==> Balanced(qs, me, qs) {
      forall i, j | 0 <= i < |qs| && 0 <= j < |qs| ensures |qs[i]| <= |qs[j]| + 1 {
        assert Balanced(qs, j, qs);
        StaysPut(qs, j, b);
      }
    }
  }

  lemma StaysPut(qs: Queues, me: nat, b: nat)
    requires me < |qs| && IsBusiest(qs, b) && Balanced(qs, me, qs)
    ensures |qs[b]| <= |qs[me]| + 1
  {
    var c :| IsBusiest(qs, c) && Safe(qs, me, c) && qs == Leveled(qs, me, c);
    OneBusiest(qs, b, c);
    BalanceKeeps(qs, me, b);
  }

  /** A run of balancing by whatever CPUs in whatever order. */
  ghost predicate IsBalanceRun(run: seq<Queues>, cpus: seq<nat>) {
    && |run| == |cpus| + 1
    && forall i :: 0 <= i < |cpus| ==> cpus[i] < |run[i]| && Balanced(run[i], cpus[i], run[i + 1])
  }

  ghost function Moving(run: seq<Queues>): nat {
    if |run| < 2 then 0 else Moving(run[..|run| - 1]) + if run[|run| - 1] != run[|run| - 2] then 1 else 0
  }

  /** Balancing converges: however long the run, the rounds that move anything number at most the
      squared loads at the start, and no process is lost or doubled. */
  lemma {:induction false} BalanceConverges(run: seq<Queues>, cpus: seq<nat>)
    requires IsBalanceRun(run, cpus) && AtLeast(run[0], NR_STABLE)
    ensures var last := run[|cpus|];
            && AtLeast(last, NR_STABLE) && (forall p :: Entries(last, p) == Entries(run[0], p))
            && Moving(run) + SumSquares(last) <= SumSquares(run[0])
    decreases |cpus|
  {
    if cpus != [] {
      var n := |cpus| - 1;
      var shorter := run[..n + 1];
      assert forall i :: 0 <= i <= n ==> shorter[i] == run[i];
      BalanceConverges(shorter, cpus[..n]);
      var b :| IsBusiest(run[n], b) && Safe(run[n], cpus[n], b) && run[n + 1] == Leveled(run[n], cpus[n], b);
      BalanceKeeps(run[n], cpus[n], b);
    }
  }
}
