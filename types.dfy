// The records of proc.h: a process entry and a container entry, with every
// pointer replaced by an index into the process or container table.

module ProcTypes {

  /** The index that stands for a null pointer to a process or a container. */
  const NIL: int := -1

  /** Quotas spawn_cont applies when a request is zero or out of range. */
  const DefaultProcQuota: int := 20
  const DefaultMemQuota: int := 20000
  const DefaultDiskQuota: int := 200000

  /** The disk quota is requested in kilobytes and stored in bytes. */
  const KiloByte: int := 1024

  /** Size of the first process's memory (one x86 page). */
  const PageSize: int := 4096

  datatype Option<T> = None | Some(value: T)

  datatype ProcState = Unused | Embryo | Sleeping | Runnable | Running | Zombie

  /** One entry of the process table. `parent` is a process index, `cont` a
      container index, either may be NIL; `eax` is the return-value register
      of the trap frame; `chan` is the opaque wait channel. */
  datatype Proc = Proc(
    sz: int,
    kstack: bool,
    state: ProcState,
    pid: int,
    parent: int,
    eax: int,
    chan: int,
    killed: bool,
    ticks: int,
    cont: int)

  /** One entry of the container table. `inner[i]` is the process index held
      by member slot i (NIL when the slot is empty); `saveState[i]` is the
      state snapshot of that slot. */
  datatype Container = Container(
    cid: int,
    inner: seq<int>,
    saveState: seq<ProcState>,
    vcNode: int,
    totalProc: int,
    usedMem: int,
    totalMem: int,
    usedDisk: int,
    totalDisk: int,
    rootPath: string,
    lastTick: int,
    awake: bool,
    tokill: bool)

  /** A zero-initialised process entry, as the static table starts. */
  const UnusedProc: Proc := Proc(0, false, Unused, 0, NIL, 0, 0, false, 0, NIL)

  /** A zero-initialised container entry with `n` empty member slots. */
  function EmptyContainer(n: nat): Container
  {
    Container(0, seq(n, _ => NIL), seq(n, _ => Unused), 0, 0, 0, 0, 0, 0, "", 0, false, false)
  }

  /** `x` is NIL or an index into a table of `n` entries. */
  predicate IsRef(x: int, n: int)
  {
    x == NIL || 0 <= x < n
  }

  /** The links of a process entry point into tables of `n` processes and `m` containers. */
  predicate WfProc(p: Proc, n: int, m: int)
  {
    IsRef(p.parent, n) && IsRef(p.cont, m)
  }

  /** A container has one member slot and one saved state per process entry,
      a process quota that fits the slots, and slots that are NIL or indices. */
  predicate WfCont(c: Container, n: int)
  {
    && |c.inner| == n
    && |c.saveState| == n
    && 0 <= c.totalProc <= n
    && forall i :: 0 <= i < n ==> IsRef(c.inner[i], n)
  }
}
