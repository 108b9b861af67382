/** Runs of the channels: processes enter a call, park, are woken, retry or are dismissed, while
    channels are opened and closed. Every interrupt-free section is one step. */
module IpcRuns {
  import opened Basics
  import opened IpcChannel

  datatype Call =
    | SendCall(chan: nat, key: int, size: int, data: seq<byte>)
    | RecvCall(chan: nat, key: int, size: int)

  /** What was sent to and received from a channel since it was opened. */
  datatype Log = Log(sent: seq<Msg>, got: seq<Msg>)

  /** pend holds the call of every process that parked in it and has not gone on since: it is
      parked while its wake field is 0, woken at 1, dismissed at -1. */
  datatype State = State(chans: seq<Option<Chan>>, procs: seq<Proc>, pend: map<nat, Call>, logs: seq<Log>)

  datatype Event =
    | Enter(pid: nat, call: Call, wait: bool)
    | Retry(pid: nat)
    | Leave(pid: nat)
    | Open(chan: nat)
    | Close(chan: nat)

  predicate CallOk(call: Call) {
    call.SendCall? ==> Min(call.size, MAX_BYTES) <= |call.data|
  }

  // ---------------------------------------------------------------------------------------
  // Who is where

  ghost predicate Sends(procs: seq<Proc>, pend: map<nat, Call>, c: nat, pid: nat, w: int) {
    pid in pend && pid < |procs| && pend[pid].SendCall? && pend[pid].chan == c && procs[pid].wake == w
  }

  ghost predicate Recvs(procs: seq<Proc>, pend: map<nat, Call>, c: nat, key: int, pid: nat, w: int) {
    pid in pend && pid < |procs| && pend[pid].RecvCall? && pend[pid].chan == c && pend[pid].key == key && procs[pid].wake == w
  }

  ghost function WokenSenders(procs: seq<Proc>, pend: map<nat, Call>, c: nat): set<nat> {
    set pid | pid in pend && Sends(procs, pend, c, pid, 1)
  }

  ghost function WokenReceivers(procs: seq<Proc>, pend: map<nat, Call>, c: nat, key: int): set<nat> {
    set pid | pid in pend && Recvs(procs, pend, c, key, pid, 1)
  }

  /** The parking queues list exactly the parked processes, each once. */
  ghost predicate WaitOk(ch: Chan, procs: seq<Proc>, pend: map<nat, Call>, c: nat) {
    && Distinct(ch.wIdle) && Distinct(ch.wUse)
    && (forall pid :: pid in ch.wIdle <==> Sends(procs, pend, c, pid, 0))
    && (forall w :: w in ch.wUse <==> Recvs(procs, pend, c, w.key, w.pid, 0))
  }

  ghost predicate Awaited(ch: Chan, key: int) { exists w :: w in ch.wUse && w.key == key }

  /** The call in progress, if any, stands in for a woken process that is trying again. */
  function SendSlack(extra: Option<Call>, c: nat): nat {
    if extra.Some? && extra.value.SendCall? && extra.value.chan == c then 1 else 0
  }

  function RecvSlack(extra: Option<Call>, c: nat, key: int): nat {
    if extra.Some? && extra.value.RecvCall? && extra.value.chan == c && extra.value.key == key then 1 else 0
  }

  /** If a sender is parked, there are no more idle nodes than senders on their way to them. */
  ghost predicate SendersServed(ch: Chan, procs: seq<Proc>, pend: map<nat, Call>, c: nat, slack: nat) {
    ch.wIdle != [] ==> |ch.idle| <= |WokenSenders(procs, pend, c)| + slack
  }

  /** If a receiver is parked for a key, there are no more messages with it than receivers on
      their way to them. */
  ghost predicate ReceiversServed(ch: Chan, procs: seq<Proc>, pend: map<nat, Call>, c: nat, key: int, slack: nat)
    requires NodesOk(ch)
  {
    Awaited(ch, key) ==> |Of(Queue(ch), key)| <= |WokenReceivers(procs, pend, c, key)| + slack
  }

  ghost predicate ChanInv(ch: Chan, procs: seq<Proc>, pend: map<nat, Call>, c: nat, extra: Option<Call>) {
    && NodesOk(ch) && WaitOk(ch, procs, pend, c)
    && SendersServed(ch, procs, pend, c, SendSlack(extra, c))
    && (forall key :: ReceiversServed(ch, procs, pend, c, key, RecvSlack(extra, c, key)))
  }

  ghost predicate NobodyParked(procs: seq<Proc>, pend: map<nat, Call>, c: nat) {
    forall pid :: pid in pend && pid < |procs| && pend[pid].chan == c ==> procs[pid].wake != 0
  }

  /** Per key, what was sent is what was received followed by what is still queued. */
  ghost predicate LogOk(ch: Chan, log: Log)
    requires NodesOk(ch)
  {
    forall key :: Of(log.sent, key) == Of(log.got, key) + Of(Queue(ch), key)
  }

  /** A process in a call: while parked it waits and has no ticks; woken or dismissed it is READY and
      has as many as its priority. */
  ghost predicate WakeOk(p: Proc) {
    || (p.wake == 0 && p.stat == WAITING && p.ticks == 0)
    || ((p.wake == 1 || p.wake == -1) && p.stat == READY && p.ticks == p.priority)
  }

  ghost predicate PendOk(s: State) {
    forall pid :: pid in s.pend ==> pid < |s.procs| && CallOk(s.pend[pid]) && s.pend[pid].chan < |s.chans| && WakeOk(s.procs[pid])
  }

  ghost predicate Inv(s: State) {
    && |s.logs| == |s.chans| && PendOk(s)
    && (forall c :: 0 <= c < |s.chans| && s.chans[c].None? ==> NobodyParked(s.procs, s.pend, c))
    && (forall c :: 0 <= c < |s.chans| && s.chans[c].Some? ==> ChanInv(s.chans[c].value, s.procs, s.pend, c, None))
    && (forall c :: 0 <= c < |s.chans| && s.chans[c].Some? ==> LogOk(s.chans[c].value, s.logs[c]))
  }

  // ---------------------------------------------------------------------------------------
  // Steps

  lemma WaitersArePids(ch: Chan, procs: seq<Proc>, pend: map<nat, Call>, c: nat)
    requires WaitOk(ch, procs, pend, c)
    ensures PidsOk(ch, |procs|)
  {
    forall i | 0 <= i < |ch.wIdle| ensures ch.wIdle[i] < |procs| { assert Sends(procs, pend, c, ch.wIdle[i], 0); }
    forall i | 0 <= i < |ch.wUse| ensures ch.wUse[i].pid < |procs| {
      assert ch.wUse[i] in ch.wUse;
      assert Recvs(procs, pend, c, ch.wUse[i].key, ch.wUse[i].pid, 0);
    }
  }

  function Section(ch: Chan, procs: seq<Proc>, pid: nat, call: Call, wait: bool): After
    requires NodesOk(ch) && PidsOk(ch, |procs|) && pid < |procs| && CallOk(call)
  {
    if call.SendCall? then SendSection(ch, procs, pid, call.key, call.size, call.data, wait)
    else ReceiveSection(ch, procs, pid, call.key, call.size, wait)
  }

  ghost function Logged(log: Log, ch: Chan, call: Call, o: Outcome): Log
    requires NodesOk(ch) && CallOk(call)
  {
    match o
    case Sent => if call.SendCall? then log.(sent := log.sent + [Msg(call.key, Min(call.size, MAX_BYTES), call.data[..Max(0, Min(call.size, MAX_BYTES))])]) else log
    case Received(_, _) =>
      var k := FirstMsg(ch.nodes, ch.used, call.key);
      if k < |ch.used| then log.(got := log.got + [Queue(ch)[k]]) else log
    case _ => log
  }

  /** Whether channel c is there to be used. */
  predicate IsOpen(chans: seq<Option<Chan>>, c: nat) { c < |chans| && chans[c].Some? }

  function PendAfter(pend: map<nat, Call>, pid: nat, call: Call, o: Outcome): map<nat, Call> {
    if o.Waits? then pend[pid := call] else pend
  }

  /** One pass through a call's interrupt-free section. */
  ghost function Act(s: State, pid: nat, call: Call, wait: bool): State
    requires Inv(s) && pid < |s.procs| && CallOk(call)
  {
    var c := call.chan;
    if !IsOpen(s.chans, c) then s.(pend := s.pend - {pid})
    else
      var ch := s.chans[c].value;
      WaitersArePids(ch, s.procs, s.pend, c);
      var a := Section(ch, s.procs, pid, call, wait);
      State(s.chans[c := Some(a.chan)], a.procs, PendAfter(s.pend - {pid}, pid, call, a.outcome),
            s.logs[c := Logged(s.logs[c], ch, call, a.outcome)])
  }

  ghost predicate Enabled(s: State, e: Event)
    requires Inv(s)
  {
    match e
    case Enter(pid, call, _) => pid < |s.procs| && pid !in s.pend && CallOk(call)
    case Retry(pid) => pid in s.pend && s.procs[pid].wake == 1
    case Leave(pid) => pid in s.pend && s.procs[pid].wake == -1
    case Open(c) => c < |s.chans| && s.chans[c].None?
    case Close(c) => IsOpen(s.chans, c)
  }

  ghost function Dismissed(ch: Chan, procs: seq<Proc>): seq<Proc>
    requires PidsOk(ch, |procs|)
  {
    Dismiss(Dismiss(procs, ch.wIdle), Pids(ch.wUse))
  }

  ghost function Next(s: State, e: Event): State
    requires Inv(s) && Enabled(s, e)
  {
    match e
    case Enter(pid, call, wait) => Act(s, pid, call, wait)
    case Retry(pid) => Act(s, pid, s.pend[pid], true)
    case Leave(pid) => s.(pend := s.pend - {pid})
    case Open(c) => s.(chans := s.chans[c := Some(FreshChan())], logs := s.logs[c := Log([], [])])
    case Close(c) =>
      WaitersArePids(s.chans[c].value, s.procs, s.pend, c);
      s.(chans := s.chans[c := None], procs := Dismissed(s.chans[c].value, s.procs))
  }

  // ---------------------------------------------------------------------------------------
  // The call in progress

  lemma BeginWait(ch: Chan, procs: seq<Proc>, pend: map<nat, Call>, c: nat, pid: nat)
    requires WaitOk(ch, procs, pend, c) && pid < |procs| && (pid in pend ==> procs[pid].wake == 1)
    ensures WaitOk(ch, procs, pend - {pid}, c)
    ensures WokenSenders(procs, pend - {pid}, c) == WokenSenders(procs, pend, c) - {pid}
    ensures forall key :: WokenReceivers(procs, pend - {pid}, c, key) == WokenReceivers(procs, pend, c, key) - {pid}
  {
  }

  /** Taking the woken process out of the waiting ones leaves room for one. */
  lemma BeginCall(ch: Chan, procs: seq<Proc>, pend: map<nat, Call>, c: nat, pid: nat, call: Call)
    requires ChanInv(ch, procs, pend, c, None) && pid < |procs|
    requires pid !in pend || (procs[pid].wake == 1 && pend[pid] == call)
    ensures ChanInv(ch, procs, pend - {pid}, c, Some(call))
  {
    var pend' := pend - {pid};
    BeginWait(ch, procs, pend, c, pid);
    var ws := WokenSenders(procs, pend, c);
    assert SendSlack(Some(call), c) == 0 ==> pid !in ws && ws - {pid} == ws;
    forall key ensures ReceiversServed(ch, procs, pend', c, key, RecvSlack(Some(call), c, key)) {
      assert ReceiversServed(ch, procs, pend, c, key, RecvSlack(None, c, key));
      OneReceiverLess(procs, pend, c, pid, call, key);
    }
  }

  lemma OneReceiverLess(procs: seq<Proc>, pend: map<nat, Call>, c: nat, pid: nat, call: Call, key: int)
    requires pid in pend ==> pend[pid] == call
    ensures |WokenReceivers(procs, pend, c, key) - {pid}| + RecvSlack(Some(call), c, key) >= |WokenReceivers(procs, pend, c, key)|
  {
  }

  /** Seen from channel c, nothing happened to the processes. */
  ghost predicate SameFor(procs: seq<Proc>, procs': seq<Proc>, pend: map<nat, Call>, pend': map<nat, Call>, c: nat) {
    && |procs'| == |procs|
    && (forall pid :: pid in pend && pend[pid].chan == c ==> pid in pend')
    && (forall pid :: pid in pend' && pend'[pid].chan == c ==> pid in pend && pend[pid] == pend'[pid])
    && (forall pid :: pid in pend && pid in pend' && pend[pid].chan == c && pid < |procs| ==>
          pend'[pid] == pend[pid] && procs'[pid].wake == procs[pid].wake)
  }

  lemma OtherChannel(ch: Chan, procs: seq<Proc>, procs': seq<Proc>, pend: map<nat, Call>, pend': map<nat, Call>, c: nat, extra: Option<Call>)
    requires ChanInv(ch, procs, pend, c, extra) && SameFor(procs, procs', pend, pend', c) && (extra.Some? ==> extra.value.chan != c)
    ensures ChanInv(ch, procs', pend', c, None)
  {
    assert forall q, w :: Sends(procs', pend', c, q, w) <==> Sends(procs, pend, c, q, w);
    assert forall k, q, w :: Recvs(procs', pend', c, k, q, w) <==> Recvs(procs, pend, c, k, q, w);
    assert WokenSenders(procs', pend', c) == WokenSenders(procs, pend, c);
    forall key ensures ReceiversServed(ch, procs', pend', c, key, 0) {
      assert WokenReceivers(procs', pend', c, key) == WokenReceivers(procs, pend, c, key);
      assert ReceiversServed(ch, procs, pend, c, key, RecvSlack(extra, c, key));
    }
  }

  /** Parking for an idle node when there is none. */
  lemma SenderParks(ch: Chan, procs: seq<Proc>, pend: map<nat, Call>, pid: nat, call: Call)
    requires ChanInv(ch, procs, pend, call.chan, Some(call)) && pid < |procs| && pid !in pend && call.SendCall? && ch.idle == []
    ensures ChanInv(ch.(wIdle := ch.wIdle + [pid]), procs[pid := Parked(procs[pid])], pend[pid := call], call.chan, None)
  {
    var c, ch', procs', pend' := call.chan, ch.(wIdle := ch.wIdle + [pid]), procs[pid := Parked(procs[pid])], pend[pid := call];
    assert !Sends(procs, pend, c, pid, 0);
    assert forall q, w :: Sends(procs', pend', c, q, w) <==> Sends(procs, pend, c, q, w) || (q == pid && w == 0);
    assert forall k, q, w :: Recvs(procs', pend', c, k, q, w) <==> Recvs(procs, pend, c, k, q, w);
    forall key ensures ReceiversServed(ch', procs', pend', c, key, 0) {
      assert WokenReceivers(procs', pend', c, key) == WokenReceivers(procs, pend, c, key);
      assert ReceiversServed(ch, procs, pend, c, key, RecvSlack(Some(call), c, key));
      assert Queue(ch') == Queue(ch);
    }
  }

  lemma ReceiverQueued(ch: Chan, procs: seq<Proc>, pend: map<nat, Call>, pid: nat, call: Call)
    requires WaitOk(ch, procs, pend, call.chan) && pid < |procs| && pid !in pend && call.RecvCall?
    ensures var procs', pend' := procs[pid := Parked(procs[pid])], pend[pid := call];
            && WaitOk(ch.(wUse := ch.wUse + [Waiter(pid, call.key)]), procs', pend', call.chan)
            && WokenSenders(procs', pend', call.chan) == WokenSenders(procs, pend, call.chan)
            && (forall key :: WokenReceivers(procs', pend', call.chan, key) == WokenReceivers(procs, pend, call.chan, key))
  {
  }

  lemma ServedWithOneMore(ch: Chan, procs: seq<Proc>, pend: map<nat, Call>, procs': seq<Proc>, pend': map<nat, Call>, pid: nat, call: Call, key: int)
    requires NodesOk(ch) && call.RecvCall? && Of(Queue(ch), call.key) == []
    requires ReceiversServed(ch, procs, pend, call.chan, key, RecvSlack(Some(call), call.chan, key))
    requires WokenReceivers(procs', pend', call.chan, key) == WokenReceivers(procs, pend, call.chan, key)
    ensures var ch' := ch.(wUse := ch.wUse + [Waiter(pid, call.key)]);
            NodesOk(ch') && ReceiversServed(ch', procs', pend', call.chan, key, 0)
  {
  }

  /** Parking for a message when there is none with the key. */
  lemma ReceiverParks(ch: Chan, procs: seq<Proc>, pend: map<nat, Call>, pid: nat, call: Call)
    requires ChanInv(ch, procs, pend, call.chan, Some(call)) && pid < |procs| && pid !in pend && call.RecvCall?
    requires Of(Queue(ch), call.key) == []
    ensures ChanInv(ch.(wUse := ch.wUse + [Waiter(pid, call.key)]), procs[pid := Parked(procs[pid])], pend[pid := call], call.chan, None)
  {
    var c := call.chan;
    var ch', procs', pend' := ch.(wUse := ch.wUse + [Waiter(pid, call.key)]), procs[pid := Parked(procs[pid])], pend[pid := call];
    ReceiverQueued(ch, procs, pend, pid, call);
    assert NodesOk(ch') && SendersServed(ch', procs', pend', c, 0);
    forall key ensures ReceiversServed(ch', procs', pend', c, key, 0) {
      assert ReceiversServed(ch, procs, pend, c, key, RecvSlack(Some(call), c, key));
      ServedWithOneMore(ch, procs, pend, procs', pend', pid, call, key);
    }
  }

  /** A message goes in and the first receiver parked for it is woken. */
  lemma MessageSent(ch: Chan, procs: seq<Proc>, pend: map<nat, Call>, call: Call)
    requires ChanInv(ch, procs, pend, call.chan, Some(call)) && call.SendCall? && CallOk(call) && ch.idle != [] && PidsOk(ch, |procs|)
    ensures var (d, ps) := WakeReceiver(Put(ch, call.key, call.size, call.data), procs, call.key);
            ChanInv(d, ps, pend, call.chan, None)
  {
    var c, key0 := call.chan, call.key;
    var e := Put(ch, key0, call.size, call.data);
    PutQueue(ch, key0, call.size, call.data);
    var (d, ps) := WakeReceiver(e, procs, key0);
    var k := FirstWaiter(ch.wUse, key0);
    var woken := if k == |ch.wUse| then {} else {ch.wUse[k].pid};
    WokenOne(ch, procs, pend, c, key0);
    assert NodesOk(d) && Queue(d) == Queue(e);
    forall key ensures ReceiversServed(d, ps, pend, c, key, 0) {
      assert ReceiversServed(ch, procs, pend, c, key, RecvSlack(Some(call), c, key));
      OfConcat(Queue(ch), [Queue(e)[|ch.used|]], key);
      assert Awaited(d, key) ==> Awaited(ch, key);
    }
  }

  /** wake_up_use_process as seen from the parked and the woken. */
  lemma WokenOne(ch: Chan, procs: seq<Proc>, pend: map<nat, Call>, c: nat, key0: int)
    requires WaitOk(ch, procs, pend, c) && PidsOk(ch, |procs|)
    ensures var (d, ps) := WakeReceiver(ch, procs, key0);
            && WaitOk(d, ps, pend, c) && WokenSenders(ps, pend, c) == WokenSenders(procs, pend, c)
            && (forall key :: |WokenReceivers(ps, pend, c, key)| ==
                              |WokenReceivers(procs, pend, c, key)| + if key == key0 && Awaited(ch, key0) then 1 else 0)
            && (forall w :: w in d.wUse ==> w in ch.wUse)
  {
    var k := FirstWaiter(ch.wUse, key0);
    var (d, ps) := WakeReceiver(ch, procs, key0);
    if k == |ch.wUse| {
      assert !Awaited(ch, key0);
    } else {
      var w0 := ch.wUse[k];
      assert w0 in ch.wUse && Awaited(ch, key0);
      assert Recvs(procs, pend, c, w0.key, w0.pid, 0);
      RemovedMembers(ch.wUse, k);
      assert forall q, w :: Sends(ps, pend, c, q, w) <==> Sends(procs, pend, c, q, w);
      assert forall j, q, w :: Recvs(ps, pend, c, j, q, w) <==>
        if q == w0.pid then j == key0 && w == 1 else Recvs(procs, pend, c, j, q, w);
      assert WokenSenders(ps, pend, c) == WokenSenders(procs, pend, c);
      forall key ensures |WokenReceivers(ps, pend, c, key)| == |WokenReceivers(procs, pend, c, key)| + if key == key0 then 1 else 0 {
        assert w0.pid !in WokenReceivers(procs, pend, c, key);
        assert WokenReceivers(ps, pend, c, key) == WokenReceivers(procs, pend, c, key) + if key == key0 then {w0.pid} else {};
      }
    }
  }

  lemma RemovedMembers<T(!new)>(s: seq<T>, k: nat)
    requires k < |s| && Distinct(s)
    ensures Distinct(Without(s, k)) && forall x :: x in Without(s, k) <==> x in s && x != s[k]
  {
  }

  /** wake_up_idle_process as seen from the parked and the woken. */
  lemma WokenSender(ch: Chan, procs: seq<Proc>, pend: map<nat, Call>, c: nat)
    requires WaitOk(ch, procs, pend, c) && PidsOk(ch, |procs|)
    ensures var (d, ps) := WakeSender(ch, procs);
            && WaitOk(d, ps, pend, c)
            && (forall key :: WokenReceivers(ps, pend, c, key) == WokenReceivers(procs, pend, c, key))
            && |WokenSenders(ps, pend, c)| == |WokenSenders(procs, pend, c)| + if ch.wIdle != [] then 1 else 0
  {
    if ch.wIdle != [] {
      var p := ch.wIdle[0];
      var (d, ps) := WakeSender(ch, procs);
      assert Sends(procs, pend, c, p, 0);
      RemovedMembers(ch.wIdle, 0);
      assert d.wIdle == Without(ch.wIdle, 0);
      assert forall j, q, w :: Recvs(ps, pend, c, j, q, w) <==> Recvs(procs, pend, c, j, q, w);
      assert forall q, w :: Sends(ps, pend, c, q, w) <==> if q == p then w == 1 else Sends(procs, pend, c, q, w);
      assert forall key :: WokenReceivers(ps, pend, c, key) == WokenReceivers(procs, pend, c, key);
      assert p !in WokenSenders(procs, pend, c);
      assert WokenSenders(ps, pend, c) == WokenSenders(procs, pend, c) + {p};
    }
  }

  /** The oldest message of a key goes out and the first parked sender is woken. */
  lemma MessageReceived(ch: Chan, procs: seq<Proc>, pend: map<nat, Call>, call: Call)
    requires ChanInv(ch, procs, pend, call.chan, Some(call)) && call.RecvCall? && PidsOk(ch, |procs|)
    requires FirstMsg(ch.nodes, ch.used, call.key) < |ch.used|
    ensures var (d, ps) := WakeSender(TakeAt(ch, FirstMsg(ch.nodes, ch.used, call.key)), procs);
            ChanInv(d, ps, pend, call.chan, None)
  {
    var c, k := call.chan, FirstMsg(ch.nodes, ch.used, call.key);
    var e := TakeAt(ch, k);
    TakeQueue(ch, k);
    var (d, ps) := WakeSender(e, procs);
    WokenSender(e, procs, pend, c);
    assert NodesOk(d) && Queue(d) == Queue(e);
    forall key ensures ReceiversServed(d, ps, pend, c, key, 0) {
      assert ReceiversServed(ch, procs, pend, c, key, RecvSlack(Some(call), c, key));
      OfWithout(Queue(ch), k, key);
      assert Awaited(d, key) ==> Awaited(ch, key);
    }
  }

  // ---------------------------------------------------------------------------------------
  // Every step keeps the invariant

  lemma SectionKeeps(ch: Chan, procs: seq<Proc>, pend: map<nat, Call>, pid: nat, call: Call, wait: bool)
    requires ChanInv(ch, procs, pend, call.chan, Some(call)) && PidsOk(ch, |procs|)
    requires pid < |procs| && pid !in pend && CallOk(call)
    ensures var a := Section(ch, procs, pid, call, wait);
            ChanInv(a.chan, a.procs, PendAfter(pend, pid, call, a.outcome), call.chan, None)
  {
    if call.SendCall? {
      if ch.idle != [] {
        MessageSent(ch, procs, pend, call);
      } else if wait {
        SenderParks(ch, procs, pend, pid, call);
      } else {
        NothingDone(ch, procs, pend, call);
      }
    } else {
      if FirstMsg(ch.nodes, ch.used, call.key) < |ch.used| {
        MessageReceived(ch, procs, pend, call);
      } else {
        FirstMsgNone(ch, call.key);
        if wait { ReceiverParks(ch, procs, pend, pid, call); } else { NothingDone(ch, procs, pend, call); }
      }
    }
  }

  /** A refused call leaves nothing behind that it could have taken. */
  lemma NothingDone(ch: Chan, procs: seq<Proc>, pend: map<nat, Call>, call: Call)
    requires ChanInv(ch, procs, pend, call.chan, Some(call))
    requires if call.SendCall? then ch.idle == [] else Of(Queue(ch), call.key) == []
    ensures ChanInv(ch, procs, pend, call.chan, None)
  {
    forall key ensures ReceiversServed(ch, procs, pend, call.chan, key, 0) {
      assert ReceiversServed(ch, procs, pend, call.chan, key, RecvSlack(Some(call), call.chan, key));
    }
  }

  /** A section changes the caller, if it parks, and processes parked at the same channel, which it
      makes READY with ticks of their priority; nobody else, and nothing else of these. */
  lemma SectionTouches(ch: Chan, procs: seq<Proc>, pend: map<nat, Call>, pid: nat, call: Call, wait: bool)
    requires ChanInv(ch, procs, pend, call.chan, Some(call)) && PidsOk(ch, |procs|)
    requires pid < |procs| && pid !in pend && CallOk(call)
    ensures var a := Section(ch, procs, pid, call, wait);
            && |a.procs| == |procs| && (a.outcome.Waits? ==> a.procs[pid] == Proc(WAITING, 0, procs[pid].priority, 0))
            && forall q :: 0 <= q < |procs| && !(q == pid && a.outcome.Waits?) && a.procs[q] != procs[q] ==>
                 && q in pend && pend[q].chan == call.chan && procs[q].wake == 0
                 && a.procs[q] == Proc(READY, procs[q].priority, procs[q].priority, 1)
  {
    var c := call.chan;
    forall p | p in ch.wIdle ensures p in pend && pend[p].chan == c && procs[p].wake == 0 { assert Sends(procs, pend, c, p, 0); }
    forall w | w in ch.wUse ensures w.pid in pend && pend[w.pid].chan == c && procs[w.pid].wake == 0 { assert Recvs(procs, pend, c, w.key, w.pid, 0); }
  }

  /** First come, first woken: a message goes past nobody who was parked for its key earlier, a free
      node to the sender parked longest; who parks goes to the end; the others keep their order. */
  lemma FirstComeFirstWoken(ch: Chan, procs: seq<Proc>, pid: nat, call: Call, wait: bool)
    requires NodesOk(ch) && PidsOk(ch, |procs|) && pid < |procs| && CallOk(call)
    ensures var a := Section(ch, procs, pid, call, wait);
            if call.SendCall? then
              && (ch.idle != [] ==>
                    && a.outcome == Sent && a.chan.wIdle == ch.wIdle
                    && (forall k :: 0 <= k < |ch.wUse| && ch.wUse[k].key == call.key && (forall j :: 0 <= j < k ==> ch.wUse[j].key != call.key) ==>
                          && a.chan.wUse == ch.wUse[..k] + ch.wUse[k + 1..]
                          && ch.wUse[k].pid < |a.procs| && a.procs[ch.wUse[k].pid].wake == 1 && a.procs[ch.wUse[k].pid].stat == READY))
              && (ch.idle == [] && wait ==> a.outcome == Waits && a.chan == ch.(wIdle := ch.wIdle + [pid]))
              && (ch.idle == [] && !wait ==> a.outcome == Refused && a.chan == ch && a.procs == procs)
            else
              var there := exists i :: 0 <= i < |ch.used| && ch.nodes[ch.used[i]].key == call.key;
              && (there ==>
                    && a.outcome.Received? && a.chan.wUse == ch.wUse
                    && (ch.wIdle != [] ==>
                          && a.chan.wIdle == ch.wIdle[1..]
                          && ch.wIdle[0] < |a.procs| && a.procs[ch.wIdle[0]].wake == 1 && a.procs[ch.wIdle[0]].stat == READY))
              && (!there && wait ==> a.outcome == Waits && a.chan == ch.(wUse := ch.wUse + [Waiter(pid, call.key)]))
              && (!there && !wait ==> a.outcome == Refused && a.chan == ch && a.procs == procs)
  {
    if call.SendCall? {
      if ch.idle != [] { PutQueue(ch, call.key, call.size, call.data); }
      forall k | 0 <= k < |ch.wUse| && ch.wUse[k].key == call.key && (forall j :: 0 <= j < k ==> ch.wUse[j].key != call.key)
        ensures FirstWaiter(ch.wUse, call.key) == k
      {
        var f := FirstWaiter(ch.wUse, call.key);
        assert f >= k && f <= k;
      }
    } else {
      var k := FirstMsg(ch.nodes, ch.used, call.key);
      if k < |ch.used| { assert ch.nodes[ch.used[k]].key == call.key; }
    }
  }

  lemma SentLogged(ch: Chan, call: Call, log: Log)
    requires NodesOk(ch) && CallOk(call) && LogOk(ch, log) && call.SendCall? && ch.idle != []
    ensures var e := Put(ch, call.key, call.size, call.data);
            NodesOk(e) && LogOk(e, Logged(log, ch, call, Sent))
  {
    var e, log' := Put(ch, call.key, call.size, call.data), Logged(log, ch, call, Sent);
    var m := Msg(call.key, Min(call.size, MAX_BYTES), call.data[..Max(0, Min(call.size, MAX_BYTES))]);
    PutQueue(ch, call.key, call.size, call.data);
    forall key ensures Of(log'.sent, key) == Of(log'.got, key) + Of(Queue(e), key) {
      OfConcat(Queue(ch), [m], key);
      OfConcat(log.sent, [m], key);
    }
  }

  lemma ReceivedLogged(ch: Chan, call: Call, log: Log, o: Outcome)
    requires NodesOk(ch) && CallOk(call) && LogOk(ch, log) && FirstMsg(ch.nodes, ch.used, call.key) < |ch.used| && o.Received?
    ensures var e := TakeAt(ch, FirstMsg(ch.nodes, ch.used, call.key));
            NodesOk(e) && LogOk(e, Logged(log, ch, call, o))
  {
    var k, log', q := FirstMsg(ch.nodes, ch.used, call.key), Logged(log, ch, call, o), Queue(ch);
    TakeQueue(ch, k);
    var q' := Queue(TakeAt(ch, k));
    forall key ensures Of(log'.sent, key) == Of(log'.got, key) + Of(q', key) {
      OneTakenOut(log.sent, log.got, q, k, q', [q[k]], key);
    }
  }

  lemma OneTakenOut(sent: seq<Msg>, got: seq<Msg>, q: seq<Msg>, k: nat, q': seq<Msg>, m: seq<Msg>, key: int)
    requires k < |q| && (forall i :: 0 <= i < k ==> q[i].key != q[k].key) && q' == Without(q, k) && m == [q[k]]
    requires Of(sent, key) == Of(got, key) + Of(q, key)
    ensures Of(sent, key) == Of(got + m, key) + Of(q', key)
  {
    OfConcat(got, m, key);
    OfTaken(q, k, q', m, key);
    Exchange(Of(sent, key), Of(got, key), Of(q, key), Of(got + m, key), Of(m, key), Of(q', key));
  }

  lemma Exchange(s: seq<Msg>, a: seq<Msg>, q: seq<Msg>, am: seq<Msg>, m: seq<Msg>, r: seq<Msg>)
    requires s == a + q && am == a + m && q == m + r
    ensures s == am + r
  {
  }

  lemma OfTaken(q: seq<Msg>, k: nat, q': seq<Msg>, m: seq<Msg>, key: int)
    requires k < |q| && (forall i :: 0 <= i < k ==> q[i].key != q[k].key) && q' == Without(q, k) && m == [q[k]]
    ensures Of(q, key) == Of(m, key) + Of(q', key)
  {
    OfWithout(q, k, key);
    OfOne(q[k], key);
  }

  lemma OfOne(m: Msg, key: int)
    ensures Of([m], key) == if m.key == key then [m] else []
  {
  }

  /** Who waits has no bearing on the messages. */
  lemma SameMessages(ch: Chan, d: Chan, log: Log)
    requires NodesOk(ch) && LogOk(ch, log) && d.nodes == ch.nodes && d.idle == ch.idle && d.used == ch.used
    ensures NodesOk(d) && LogOk(d, log)
  {
  }

  lemma SectionLogs(ch: Chan, procs: seq<Proc>, pid: nat, call: Call, wait: bool, log: Log)
    requires NodesOk(ch) && PidsOk(ch, |procs|) && pid < |procs| && CallOk(call) && LogOk(ch, log)
    ensures var a := Section(ch, procs, pid, call, wait);
            NodesOk(a.chan) && LogOk(a.chan, Logged(log, ch, call, a.outcome))
  {
    var a := Section(ch, procs, pid, call, wait);
    var log' := Logged(log, ch, call, a.outcome);
    if a.outcome.Sent? {
      SentLogged(ch, call, log);
      SameMessages(Put(ch, call.key, call.size, call.data), a.chan, log');
    } else if a.outcome.Received? {
      ReceivedLogged(ch, call, log, a.outcome);
      SameMessages(TakeAt(ch, FirstMsg(ch.nodes, ch.used, call.key)), a.chan, log');
    } else {
      SameMessages(ch, a.chan, log);
    }
  }

  /** A process may go through a section if it is not in a call, or tries its own again. */
  ghost predicate MayAct(s: State, pid: nat, call: Call) {
    pid < |s.procs| && CallOk(call) && (pid !in s.pend || (s.procs[pid].wake == 1 && s.pend[pid] == call))
  }

  lemma ActKeeps(s: State, pid: nat, call: Call, wait: bool)
    requires Inv(s) && MayAct(s, pid, call)
    ensures Inv(Act(s, pid, call, wait))
  {
    var c := call.chan;
    if IsOpen(s.chans, c) { OpenActKeeps(s, pid, call, wait); } else { ShutActKeeps(s, pid, call, wait); }
  }

  lemma ShutActKeeps(s: State, pid: nat, call: Call, wait: bool)
    requires Inv(s) && MayAct(s, pid, call) && !IsOpen(s.chans, call.chan)
    ensures Inv(Act(s, pid, call, wait))
  {
    forall d | 0 <= d < |s.chans| && s.chans[d].Some? ensures ChanInv(s.chans[d].value, s.procs, s.pend - {pid}, d, None) {
      BeginCall(s.chans[d].value, s.procs, s.pend, d, pid, call);
      OtherChannel(s.chans[d].value, s.procs, s.procs, s.pend - {pid}, s.pend - {pid}, d, Some(call));
    }
  }

  /** A section on one channel, seen from another. */
  lemma ElsewhereKept(ch: Chan, procs: seq<Proc>, pend: map<nat, Call>, pid: nat, call: Call, wait: bool, other: Chan, d: nat)
    requires ChanInv(ch, procs, pend, call.chan, None) && PidsOk(ch, |procs|) && CallOk(call)
    requires pid < |procs| && (pid !in pend || (procs[pid].wake == 1 && pend[pid] == call))
    requires ChanInv(other, procs, pend, d, None) && d != call.chan
    ensures var a := Section(ch, procs, pid, call, wait);
            ChanInv(other, a.procs, PendAfter(pend - {pid}, pid, call, a.outcome), d, None)
  {
    var a := Section(ch, procs, pid, call, wait);
    BeginCall(ch, procs, pend, call.chan, pid, call);
    SectionTouches(ch, procs, pend - {pid}, pid, call, wait);
    BeginCall(other, procs, pend, d, pid, call);
    OtherChannel(other, procs, a.procs, pend - {pid}, PendAfter(pend - {pid}, pid, call, a.outcome), d, Some(call));
  }

  /** A section on a channel, seen from that channel. */
  lemma HereKept(ch: Chan, procs: seq<Proc>, pend: map<nat, Call>, pid: nat, call: Call, wait: bool)
    requires ChanInv(ch, procs, pend, call.chan, None) && PidsOk(ch, |procs|) && CallOk(call)
    requires pid < |procs| && (pid !in pend || (procs[pid].wake == 1 && pend[pid] == call))
    ensures var a := Section(ch, procs, pid, call, wait);
            var pend' := PendAfter(pend - {pid}, pid, call, a.outcome);
            ChanInv(a.chan, a.procs, pend', call.chan, None) && OneActed(procs, a.procs, pend, pend', pid, call)
  {
    BeginCall(ch, procs, pend, call.chan, pid, call);
    SectionKeeps(ch, procs, pend - {pid}, pid, call, wait);
    SectionTouches(ch, procs, pend - {pid}, pid, call, wait);
  }

  /** The other processes stay in their calls and at most are woken at the channel of the call; the
      process itself is out of its call or parked in it. */
  ghost predicate OneActed(procs: seq<Proc>, procs': seq<Proc>, pend: map<nat, Call>, pend': map<nat, Call>, pid: nat, call: Call) {
    && |procs'| == |procs|
    && forall q :: q in pend' && q < |procs| ==>
         if q == pid then pend'[q] == call && procs'[q].wake == 0 && WakeOk(procs'[q])
         else q in pend && pend'[q] == pend[q]
              && (procs'[q] == procs[q] || (pend[q].chan == call.chan && procs'[q].wake == 1 && WakeOk(procs'[q])))
  }

  lemma CallsKept(s: State, s': State, pid: nat, call: Call)
    requires PendOk(s) && MayAct(s, pid, call) && call.chan < |s.chans| && |s'.chans| == |s.chans|
    requires OneActed(s.procs, s'.procs, s.pend, s'.pend, pid, call) && forall q :: q in s'.pend ==> q in s.pend || q == pid
    ensures PendOk(s')
    ensures forall d :: d != call.chan && NobodyParked(s.procs, s.pend, d) ==> NobodyParked(s'.procs, s'.pend, d)
  {
  }

  lemma OpenActKeeps(s: State, pid: nat, call: Call, wait: bool)
    requires Inv(s) && MayAct(s, pid, call) && IsOpen(s.chans, call.chan)
    ensures Inv(Act(s, pid, call, wait))
  {
    var c, ch := call.chan, s.chans[call.chan].value;
    WaitersArePids(ch, s.procs, s.pend, c);
    var a, s' := Section(ch, s.procs, pid, call, wait), Act(s, pid, call, wait);
    HereKept(ch, s.procs, s.pend, pid, call, wait);
    CallsKept(s, s', pid, call);
    SectionLogs(ch, s.procs, pid, call, wait, s.logs[c]);
    forall d | 0 <= d < |s.chans| && d != c && s.chans[d].Some? ensures ChanInv(s.chans[d].value, s'.procs, s'.pend, d, None) {
      ElsewhereKept(ch, s.procs, s.pend, pid, call, wait, s.chans[d].value, d);
    }
    ChannelByChannel(s, s', c, a.chan);
  }

  lemma ChannelByChannel(s: State, s': State, c: nat, ch: Chan)
    requires Inv(s) && c < |s.chans| && s'.chans == s.chans[c := Some(ch)] && |s'.logs| == |s.logs| && PendOk(s')
    requires forall d :: 0 <= d < |s.logs| && d != c ==> s'.logs[d] == s.logs[d]
    requires ChanInv(ch, s'.procs, s'.pend, c, None) && LogOk(ch, s'.logs[c])
    requires forall d :: 0 <= d < |s.chans| && d != c && s.chans[d].Some? ==> ChanInv(s.chans[d].value, s'.procs, s'.pend, d, None)
    requires forall d :: d != c && NobodyParked(s.procs, s.pend, d) ==> NobodyParked(s'.procs, s'.pend, d)
    ensures Inv(s')
  {
  }

  lemma {:induction false} DismissAt(procs: seq<Proc>, pids: seq<nat>, q: nat)
    requires (forall i :: 0 <= i < |pids| ==> pids[i] < |procs|) && q < |procs|
    ensures Dismiss(procs, pids)[q] == if q in pids then Proc(READY, procs[q].priority, procs[q].priority, -1) else procs[q]
    decreases |pids|
  {
    if pids != [] {
      DismissAt(procs[pids[0] := Awake(procs[pids[0]], -1)], pids[1..], q);
    }
  }

  /** Closing a channel sends everybody parked at it away, READY with ticks of their priority, and
      touches nobody else. */
  lemma CloseDismisses(ch: Chan, procs: seq<Proc>, pend: map<nat, Call>, c: nat)
    requires WaitOk(ch, procs, pend, c) && PidsOk(ch, |procs|)
    ensures |Dismissed(ch, procs)| == |procs|
    ensures forall q :: 0 <= q < |procs| ==>
              Dismissed(ch, procs)[q] ==
              if q in pend && pend[q].chan == c && procs[q].wake == 0 then Proc(READY, procs[q].priority, procs[q].priority, -1) else procs[q]
  {
    var mid := Dismiss(procs, ch.wIdle);
    forall q | 0 <= q < |procs|
      ensures Dismissed(ch, procs)[q] ==
              if q in pend && pend[q].chan == c && procs[q].wake == 0 then Proc(READY, procs[q].priority, procs[q].priority, -1) else procs[q]
    {
      DismissAt(procs, ch.wIdle, q);
      DismissAt(mid, Pids(ch.wUse), q);
      assert q in ch.wIdle <==> Sends(procs, pend, c, q, 0);
      WaitsFor(ch.wUse, q);
      if q in Pids(ch.wUse) {
        var w :| w in ch.wUse && w.pid == q;
        assert Recvs(procs, pend, c, w.key, q, 0);
      } else if q in pend && pend[q].RecvCall? {
        assert Waiter(q, pend[q].key) !in ch.wUse;
        assert !Recvs(procs, pend, c, Waiter(q, pend[q].key).key, Waiter(q, pend[q].key).pid, 0);
      }
    }
  }

  lemma WaitsFor(ws: seq<Waiter>, q: nat)
    ensures q in Pids(ws) <==> exists w :: w in ws && w.pid == q
  {
  }

  lemma CloseKeeps(s: State, c: nat)
    requires Inv(s) && IsOpen(s.chans, c)
    ensures Inv(Next(s, Close(c)))
  {
    var ch, s' := s.chans[c].value, Next(s, Close(c));
    WaitersArePids(ch, s.procs, s.pend, c);
    CloseDismisses(ch, s.procs, s.pend, c);
    forall d | 0 <= d < |s.chans| && d != c && s.chans[d].Some? ensures ChanInv(s.chans[d].value, s'.procs, s'.pend, d, None) {
      OtherChannel(s.chans[d].value, s.procs, s'.procs, s.pend, s.pend, d, None);
    }
  }

  lemma OpenKeeps(s: State, c: nat)
    requires Inv(s) && c < |s.chans| && s.chans[c].None?
    ensures Inv(Next(s, Open(c)))
  {
  }

  lemma LeaveKeeps(s: State, pid: nat)
    requires Inv(s) && pid in s.pend && s.procs[pid].wake == -1
    ensures Inv(Next(s, Leave(pid)))
  {
    var s' := Next(s, Leave(pid));
    forall d | 0 <= d < |s.chans| && s.chans[d].Some? ensures ChanInv(s.chans[d].value, s.procs, s'.pend, d, None) {
      LeaveOne(s.chans[d].value, s.procs, s.pend, d, pid);
    }
  }

  lemma LeaveOne(ch: Chan, procs: seq<Proc>, pend: map<nat, Call>, c: nat, pid: nat)
    requires ChanInv(ch, procs, pend, c, None) && pid < |procs| && procs[pid].wake == -1
    ensures ChanInv(ch, procs, pend - {pid}, c, None)
  {
    var pend' := pend - {pid};
    assert forall q, w :: w != -1 ==> (Sends(procs, pend', c, q, w) <==> Sends(procs, pend, c, q, w));
    assert forall k, q, w :: w != -1 ==> (Recvs(procs, pend', c, k, q, w) <==> Recvs(procs, pend, c, k, q, w));
    assert WokenSenders(procs, pend', c) == WokenSenders(procs, pend, c);
    forall key ensures ReceiversServed(ch, procs, pend', c, key, 0) {
      assert WokenReceivers(procs, pend', c, key) == WokenReceivers(procs, pend, c, key);
      assert ReceiversServed(ch, procs, pend, c, key, RecvSlack(None, c, key));
    }
  }

  lemma StepKeeps(s: State, e: Event)
    requires Inv(s) && Enabled(s, e)
    ensures Inv(Next(s, e))
  {
    match e
    case Enter(pid, call, wait) => ActKeeps(s, pid, call, wait);
    case Retry(pid) => ActKeeps(s, pid, s.pend[pid], true);
    case Leave(pid) => LeaveKeeps(s, pid);
    case Open(c) => OpenKeeps(s, c);
    case Close(c) => CloseKeeps(s, c);
  }

  // ---------------------------------------------------------------------------------------
  // Runs

  /** No channel open yet, no process in a call. */
  ghost function Start(procs: seq<Proc>, n: nat): State {
    State(seq(n, _ => None), procs, map[], seq(n, _ => Log([], [])))
  }

  /** Each state follows from the one before by an enabled step. Steps are defined on states that
      satisfy the invariant; RunKeeps shows that a run never meets another. */
  ghost predicate IsRun(run: seq<State>, events: seq<Event>) {
    && |run| == |events| + 1
    && (exists procs, n: nat :: run[0] == Start(procs, n))
    && forall i :: 0 <= i < |events| ==> Inv(run[i]) ==> Enabled(run[i], events[i]) && run[i + 1] == Next(run[i], events[i])
  }

  lemma {:induction false} RunKeeps(run: seq<State>, events: seq<Event>, i: nat)
    requires IsRun(run, events) && i < |run|
    ensures Inv(run[i])
  {
    if i > 0 {
      RunKeeps(run, events, i - 1);
      assert Enabled(run[i - 1], events[i - 1]) && run[(i - 1) + 1] == Next(run[i - 1], events[i - 1]);
      StepKeeps(run[i - 1], events[i - 1]);
    }
  }

  /** No lost wake-up: in every state of every run, a parked sender means that every idle node has
      a woken sender on its way to it, a parked receiver that every message of its key has a
      woken receiver on its way to it, and nobody is parked at a channel that is closed. */
  lemma NoLostWakeUp(run: seq<State>, events: seq<Event>, i: nat, pid: nat)
    requires IsRun(run, events) && i < |run| && pid in run[i].pend
    ensures Inv(run[i])
    ensures var s := run[i];
            var c := s.pend[pid].chan;
            s.procs[pid].wake == 0 ==>
              && s.chans[c].Some?
              && NodesOk(s.chans[c].value)
              && if s.pend[pid].SendCall? then |s.chans[c].value.idle| <= |WokenSenders(s.procs, s.pend, c)|
                 else |Of(Queue(s.chans[c].value), s.pend[pid].key)| <= |WokenReceivers(s.procs, s.pend, c, s.pend[pid].key)|
  {
    RunKeeps(run, events, i);
    var s := run[i];
    var c := s.pend[pid].chan;
    if s.procs[pid].wake == 0 {
      var ch := s.chans[c].value;
      if s.pend[pid].SendCall? {
        assert Sends(s.procs, s.pend, c, pid, 0);
        assert pid in ch.wIdle;
      } else {
        var w := Waiter(pid, s.pend[pid].key);
        assert Recvs(s.procs, s.pend, c, w.key, w.pid, 0);
        assert w in ch.wUse && Awaited(ch, w.key);
        assert ReceiversServed(ch, s.procs, s.pend, c, w.key, RecvSlack(None, c, w.key));
      }
    }
  }

  /** In every state of every run a process in a call waits without ticks exactly while it is parked;
      one that was woken or dismissed is READY, with as many ticks as its priority. */
  lemma CallersRun(run: seq<State>, events: seq<Event>, i: nat, pid: nat)
    requires IsRun(run, events) && i < |run| && pid in run[i].pend
    ensures pid < |run[i].procs|
    ensures var p := run[i].procs[pid];
            && (p.wake == 0 ==> p.stat == WAITING && p.ticks == 0)
            && (p.wake != 0 ==> (p.wake == 1 || p.wake == -1) && p.stat == READY && p.ticks == p.priority)
  {
    RunKeeps(run, events, i);
  }

  /** Per key, first in first out: in every state of every run the messages received are a prefix
      of those sent, and what is missing is exactly what is queued; no node is lost. */
  lemma FifoPerKey(run: seq<State>, events: seq<Event>, i: nat, c: nat, key: int)
    requires IsRun(run, events) && i < |run| && IsOpen(run[i].chans, c)
    ensures Inv(run[i]) && NodesOk(run[i].chans[c].value)
    ensures Of(run[i].logs[c].got, key) <= Of(run[i].logs[c].sent, key)
    ensures Of(run[i].logs[c].sent, key) == Of(run[i].logs[c].got, key) + Of(Queue(run[i].chans[c].value), key)
  {
    RunKeeps(run, events, i);
  }

  /** What a receive delivers: of the messages sent with its key, the first one not received yet,
      cut to the receive size, and as its length the smaller of the two sizes. */
  lemma ReceiveDelivers(s: State, pid: nat, call: Call, wait: bool)
    requires Inv(s) && MayAct(s, pid, call) && IsOpen(s.chans, call.chan) && call.RecvCall?
    ensures PidsOk(s.chans[call.chan].value, |s.procs|)
    ensures var log, n := s.logs[call.chan], |Of(s.logs[call.chan].got, call.key)|;
            var o := Section(s.chans[call.chan].value, s.procs, pid, call, wait).outcome;
            && (o.Received? <==> n < |Of(log.sent, call.key)|)
            && (o.Received? ==>
                  var m := Of(log.sent, call.key)[n];
                  && o.size == (if call.size < m.size then call.size else m.size) && |m.data| == Max(0, m.size)
                  && o.data == if o.size <= 0 then [] else m.data[..o.size])
  {
    var c := call.chan;
    WaitersArePids(s.chans[c].value, s.procs, s.pend, c);
    SectionDelivers(s.chans[c].value, s.procs, pid, call, wait, s.logs[c]);
  }

  lemma SectionDelivers(ch: Chan, procs: seq<Proc>, pid: nat, call: Call, wait: bool, log: Log)
    requires NodesOk(ch) && PidsOk(ch, |procs|) && pid < |procs| && call.RecvCall? && LogOk(ch, log)
    ensures var n := |Of(log.got, call.key)|;
            var o := Section(ch, procs, pid, call, wait).outcome;
            && (o.Received? <==> n < |Of(log.sent, call.key)|)
            && (o.Received? ==>
                  var m := Of(log.sent, call.key)[n];
                  && o.size == (if call.size < m.size then call.size else m.size) && |m.data| == Max(0, m.size)
                  && o.data == if o.size <= 0 then [] else m.data[..o.size])
  {
    FirstMsgNone(ch, call.key);
    var k := FirstMsg(ch.nodes, ch.used, call.key);
    if k < |ch.used| {
      OfWithout(Queue(ch), k, call.key);
      assert Of(log.sent, call.key)[|Of(log.got, call.key)|] == Queue(ch)[k];
    }
  }
}
