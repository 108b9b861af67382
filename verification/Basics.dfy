/** Notions the parts of the kernel share. */
module Basics {

  type byte = b: int | 0 <= b < 256
  type u32 = x: int | 0 <= x < 0x1_0000_0000

  const PAGE := 0x1000

  /** What the allocators return when they fail: -1 as an unsigned word. */
  const FAILED: u32 := 0xFFFF_FFFF

  function Min(a: int, b: int): int { if a < b then a else b }

  datatype Option<+T> = None | Some(value: T)

  const NR_PCBS := 64

  /** enum proc_stat (include/proc.h:110) */
  datatype Stat = IDLE | READY | SLEEPING | KILLED | RUNNING | WAITING

  ghost predicate Distinct<T(!new)>(s: seq<T>) { forall i, j :: 0 <= i < j < |s| ==> s[i] != s[j] }

  function Without<T>(s: seq<T>, k: nat): (r: seq<T>)
    requires k < |s|
    ensures |r| == |s| - 1
    ensures forall i :: 0 <= i < |r| ==> r[i] == s[if i < k then i else i + 1]
  {
    s[..k] + s[k + 1..]
  }
}
