/** A table of channels, some of them not there: mqm_queues_prior of kernel/msgqueue.c and
    bm_box_prior of kernel/box.c. */
module IpcTable {
  import opened Basics
  import opened IpcChannel
  import opened IpcRuns

  ghost predicate ChansOk(chans: seq<Option<Chan>>) {
    forall i :: 0 <= i < |chans| && chans[i].Some? ==> NodesOk(chans[i].value) && PidsOk(chans[i].value, NR_PCBS)
  }

  /** The channel a call finds in a slot, made if there is none yet. */
  ghost function Ensured(o: Option<Chan>): (c: Chan)
    requires o.Some? ==> NodesOk(o.value)
    ensures NodesOk(c)
  {
    FreshNodesOk();
    if o.None? then FreshChan() else o.value
  }

  class ChanTable {
    const slots: array<Channel?>

    ghost predicate Valid()
      reads this, slots, slots[..]
    {
      && (forall i, j :: 0 <= i < j < slots.Length && slots[i] != null ==> slots[i] != slots[j])
      && (forall i :: 0 <= i < slots.Length && slots[i] != null ==> NodesOk(slots[i].View()) && PidsOk(slots[i].View(), NR_PCBS))
    }

    ghost function Chans(): (cs: seq<Option<Chan>>)
      reads this, slots, slots[..]
      ensures |cs| == slots.Length
      ensures Valid() ==> ChansOk(cs)
    {
      seq(slots.Length, i requires 0 <= i < slots.Length reads this, slots, slots[..] =>
        if slots[i] == null then None else Some(slots[i].View()))
    }

    constructor (n: nat)
      ensures Valid() && fresh(slots) && slots.Length == n
      ensures forall i :: 0 <= i < n ==> Chans()[i].None?
    {
      slots := new Channel?[n](_ => null);
    }

    /** A channel with ten idle nodes, where there was none. */
    method OpenAt(id: nat)
      requires Valid() && id < slots.Length && slots[id] == null
      modifies slots
      ensures Valid() && Chans() == old(Chans())[id := Some(FreshChan())]
      ensures slots[id] != null && fresh(slots[id]) && slots[id].View() == FreshChan()
      ensures forall i :: 0 <= i < slots.Length && i != id ==> slots[i] == old(slots[i])
    {
      FreshNodesOk();
      slots[id] := new Channel();
    }

    method EnsureAt(id: nat)
      requires Valid() && id < slots.Length
      modifies slots
      ensures Valid() && slots[id] != null && (old(slots[id]) == null ==> fresh(slots[id]))
      ensures old(slots[id]) != null ==> slots[id] == old(slots[id])
      ensures slots[id].View() == Ensured(old(Chans())[id]) && Chans() == old(Chans())[id := Some(slots[id].View())]
    {
      if slots[id] == null { OpenAt(id); }
    }

    method SendAt(procs: array<Proc>, pid: nat, id: nat, size: int, key: int, buffer: seq<byte>, wait: bool) returns (r: Outcome)
      requires Valid() && id < slots.Length && slots[id] != null
      requires procs.Length == NR_PCBS && pid < NR_PCBS && Min(size, MAX_BYTES) <= |buffer|
      modifies slots[id], procs
      ensures Valid()
      ensures var a := SendSection(old(slots[id].View()), old(procs[..]), pid, key, size, buffer, wait);
              Chans() == old(Chans())[id := Some(a.chan)] && procs[..] == a.procs && r == a.outcome
    {
      SendKeepsOk(slots[id].View(), procs[..], pid, key, size, buffer, wait);
      r := slots[id].Send(procs, pid, key, size, buffer, wait);
    }

    method ReceiveAt(procs: array<Proc>, pid: nat, id: nat, size: int, key: int, wait: bool) returns (r: Outcome)
      requires Valid() && id < slots.Length && slots[id] != null && procs.Length == NR_PCBS && pid < NR_PCBS
      modifies slots[id], procs
      ensures Valid()
      ensures var a := ReceiveSection(old(slots[id].View()), old(procs[..]), pid, key, size, wait);
              Chans() == old(Chans())[id := Some(a.chan)] && procs[..] == a.procs && r == a.outcome
    {
      ReceiveKeepsOk(slots[id].View(), procs[..], pid, key, size, wait);
      r := slots[id].Receive(procs, pid, key, size, wait);
    }

    /** The channel goes, with everybody parked at it sent away. */
    method CloseAt(procs: array<Proc>, id: nat)
      requires Valid() && procs.Length == NR_PCBS && id < slots.Length && slots[id] != null
      modifies slots, slots[id], procs
      ensures Valid() && Chans() == old(Chans())[id := None]
      ensures procs[..] == Dismissed(old(slots[id].View()), old(procs[..]))
      ensures forall i :: 0 <= i < slots.Length ==> slots[i] == if i == id then null else old(slots[i])
    {
      slots[id].Close(procs);
      assert forall i :: 0 <= i < slots.Length && i != id && slots[i] != null ==> slots[i].View() == old(slots[i].View());
      slots[id] := null;
    }
  }
}
