// The system-call layer of sysproc.c over the kernel tables: argument
// fetches that can fail (an `Option` that is `None` when argint or argstr
// fails), the root-only gates of the container calls, and the results the
// calls hand back to user space.

module SysProc {
  import opened ProcTypes
  import opened ProcTable
  import opened ProcOps
  import opened ProcKernel

  /** sys_getpid: the caller's pid, one already issued. */
  function SysGetpid(m: Machine, cur: int): (r: int)
    requires Ok(m) && 0 <= cur < |m.procs|
    ensures 0 <= r < m.nextpid
  {
    m.procs[cur].pid
  }

  /** A nonzero pid from sys_getpid names the caller and no other entry: the
      table scan of a root kill for it stops at the caller. */
  lemma GetpidNamesCaller(m: Machine, cur: int)
    requires Ok(m) && 0 <= cur < |m.procs| && m.procs[cur].pid != 0
    ensures PidFrom(m.procs, SysGetpid(m, cur), 0) == cur
    ensures forall k :: 0 <= k < |m.procs| && k != cur ==> m.procs[k].pid != SysGetpid(m, cur)
  {
    var k := PidFrom(m.procs, SysGetpid(m, cur), 0);
    assert k != NIL;
  }

  /** sys_getcid: the cid of the caller's container, 0 in the root domain. */
  function SysGetcid(m: Machine, cur: int): (r: int)
    requires Ok(m) && 0 <= cur < |m.procs|
    ensures 0 <= r <= m.nextCid
    ensures CallerCont(m, cur) == NIL ==> r == 0
    ensures CallerCont(m, cur) != NIL ==> r == m.conts[CallerCont(m, cur)].cid
  {
    var cc := CallerCont(m, cur);
    if cc == NIL then 0 else m.conts[cc].cid
  }

  /** A nonzero cid from sys_getcid is one find_cont locates at the caller's
      own container; a zero cid means the caller is in the root domain or its
      container has been retired by kill_cont. */
  lemma GetcidFindsOwnContainer(m: Machine, cur: int)
    requires Ok(m) && 0 <= cur < |m.procs|
    ensures SysGetcid(m, cur) != 0 ==> ContFrom(m.conts, SysGetcid(m, cur), 0) == m.procs[cur].cont
    ensures SysGetcid(m, cur) == 0 <==> (m.procs[cur].cont == NIL || m.conts[m.procs[cur].cont].cid == 0)
  {
    var cc := CallerCont(m, cur);
    if cc != NIL && m.conts[cc].cid != 0 {
      var f := ContFrom(m.conts, m.conts[cc].cid, 0);
      assert f != NIL;
      assert f == cc;
    }
  }

  /** sys_cinfo: -1 for a caller inside a container, otherwise c_info's 1. */
  function SysCinfo(m: Machine, cur: int): (r: int)
    requires Ok(m) && 0 <= cur < |m.procs|
    ensures r == -1 <==> CallerCont(m, cur) != NIL
    ensures r != -1 ==> r == 1
  {
    if CallerCont(m, cur) != NIL then -1 else 1
  }

  /** sys_cpause by process `cur` with argument `arg`. */
  method SysCpause(k: Kernel, cur: int, arg: Option<int>) returns (r: int)
    requires k.Valid() && 0 <= cur < k.procs.Length
    modifies k.procs, k.conts
    ensures k.Valid()
    ensures (old(k.procs[cur].cont) != NIL || arg.None?) ==> r == -1 && k.State() == old(k.State())
    ensures old(k.procs[cur].cont) == NIL && arg.Some? ==> (r, k.State()) == PauseOp(old(k.State()), arg.value)
  {
    if k.procs[cur].cont != NIL {
      return -1;
    }
    if arg.None? {
      return -1;
    }
    r := k.CPause(arg.value);
  }

  /** sys_cstop by process `cur`: kill_cont for a root caller. */
  method SysCstop(k: Kernel, cur: int, arg: Option<int>) returns (r: int)
    requires k.Valid() && 0 <= cur < k.procs.Length
    modifies k.procs, k.conts
    ensures k.Valid()
    ensures (old(k.procs[cur].cont) != NIL || arg.None?) ==> r == -1 && k.State() == old(k.State())
    ensures old(k.procs[cur].cont) == NIL && arg.Some? ==>
      (r, k.State()) == ContKilledOp(old(k.State()), cur, arg.value)
  {
    if k.procs[cur].cont != NIL {
      return -1;
    }
    if arg.None? {
      return -1;
    }
    r := k.KillCont(cur, arg.value);
  }

  /** sys_cresume by process `cur`. */
  method SysCresume(k: Kernel, cur: int, arg: Option<int>) returns (r: int)
    requires k.Valid() && 0 <= cur < k.procs.Length
    modifies k.procs, k.conts
    ensures k.Valid()
    ensures (old(k.procs[cur].cont) != NIL || arg.None?) ==> r == -1 && k.State() == old(k.State())
    ensures old(k.procs[cur].cont) == NIL && arg.Some? ==> (r, k.State()) == ResumeOp(old(k.State()), arg.value)
  {
    if k.procs[cur].cont != NIL {
      return -1;
    }
    if arg.None? {
      return -1;
    }
    r := k.CResume(arg.value);
  }

  /** sys_cfork by process `cur`: cfork into the container with cid `arg`
      for a root caller. */
  method SysCfork(k: Kernel, cur: int, arg: Option<int>, kallocOk: bool, copyOk: bool) returns (r: int)
    requires k.Valid() && 0 <= cur < k.procs.Length
    modifies k`nextpid, k.procs, k.conts
    ensures k.Valid()
    ensures (old(k.procs[cur].cont) != NIL || arg.None?) ==> r == -1 && k.State() == old(k.State())
    ensures old(k.procs[cur].cont) == NIL && arg.Some? ==>
      (r, k.State()) == CForkOp(old(k.State()), cur, arg.value, kallocOk, copyOk)
  {
    if k.procs[cur].cont != NIL {
      return -1;
    }
    if arg.None? {
      return -1;
    }
    r := k.CFork(cur, arg.value, kallocOk, copyOk);
  }

  /** sys_cstart: spawn_cont with the six fetched arguments; not gated on
      the caller. */
  method SysCstart(k: Kernel, vcnode: Option<int>, path: Option<string>, usedDisk: Option<int>,
                   maxProc: Option<int>, maxMem: Option<int>, maxDisk: Option<int>, nameiOk: bool)
    returns (r: int)
    requires k.Valid()
    modifies k`nextCid, k.conts
    ensures k.Valid()
    ensures (vcnode.None? || path.None? || usedDisk.None? || maxProc.None? || maxMem.None? || maxDisk.None?) ==>
      r == -1 && k.State() == old(k.State())
    ensures (vcnode.Some? && path.Some? && usedDisk.Some? && maxProc.Some? && maxMem.Some? && maxDisk.Some?) ==>
      (r, k.State()) == SpawnOp(old(k.State()), vcnode.value, path.value, usedDisk.value,
                                maxProc.value, maxMem.value, maxDisk.value, k.totalMem, k.totalDisk, nameiOk)
  {
    if vcnode.None? || path.None? || usedDisk.None? {
      return -1;
    }
    if maxProc.None? || maxMem.None? || maxDisk.None? {
      return -1;
    }
    r := k.SpawnCont(vcnode.value, path.value, usedDisk.value, maxProc.value, maxMem.value, maxDisk.value, nameiOk);
  }

  /** sys_kill by process `cur`. */
  method SysKill(k: Kernel, cur: int, arg: Option<int>) returns (r: int)
    requires k.Valid() && 0 <= cur < k.procs.Length
    modifies k.procs, k.conts
    ensures k.Valid()
    ensures arg.None? ==> r == -1 && k.State() == old(k.State())
    ensures arg.Some? ==> (r, k.State()) == KillOp(old(k.State()), cur, arg.value)
  {
    if arg.None? {
      return -1;
    }
    r := k.Kill(cur, arg.value);
  }

  /** sys_sbrk by process `cur`: the size before growth, or -1 when the
      argument cannot be fetched or growproc fails. */
  method SysSbrk(k: Kernel, cur: int, arg: Option<int>, vmSz: int) returns (r: int)
    requires k.Valid() && 0 <= cur < k.procs.Length
    modifies k.procs, k.conts
    ensures k.Valid()
    ensures arg.None? ==> r == -1 && k.State() == old(k.State())
    ensures arg.Some? ==>
      var g := GrowOp(old(k.State()), cur, arg.value, vmSz);
      && k.State() == g.1
      && r == (if g.0 < 0 then -1 else old(k.procs[cur].sz))
  {
    if arg.None? {
      return -1;
    }
    var addr := k.procs[cur].sz;
    var g := k.GrowProc(cur, arg.value, vmSz);
    if g < 0 {
      return -1;
    }
    return addr;
  }

  /** sys_tdiskused: sets the global used_disk. */
  method SysTdiskused(k: Kernel, arg: Option<int>) returns (r: int)
    modifies k`usedDisk
    ensures arg.None? ==> r == -1 && k.usedDisk == old(k.usedDisk)
    ensures arg.Some? ==> r == 1 && k.usedDisk == arg.value
  {
    if arg.None? {
      return -1;
    }
    r := k.TotalUsedDisk(arg.value);
  }
}
