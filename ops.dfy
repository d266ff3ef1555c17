// The operations of proc.c as functions from one state of the kernel's
// tables to the next, with the properties each one promises. The methods of
// kernel.dfy perform the same updates in place and are proved to compute
// these functions.

module ProcOps {
  import opened ProcTypes
  import opened ProcTable

  /** The process table, the container table and the two id counters. */
  datatype Machine = Machine(procs: seq<Proc>, conts: seq<Container>, nextpid: int, nextCid: int)

  /** What one pass of wait ends in: a reaped pid, -1, or the caller asleep. */
  datatype WaitOutcome = Reaped(pid: int) | NoChildren | Blocked

  ghost predicate Ok(m: Machine)
  {
    TablesOk(m.procs, m.conts, m.nextpid, m.nextCid)
  }

  /** The container of the calling process `cur`: NIL when there is no
      calling process or it runs in the root domain. */
  function CallerCont(m: Machine, cur: int): (cc: int)
    requires Ok(m) && IsRef(cur, |m.procs|)
    ensures IsRef(cc, |m.conts|)
    ensures cur != NIL ==> cc == m.procs[cur].cont
  {
    if cur == NIL then NIL else assert WfProc(m.procs[cur], |m.procs|, |m.conts|); m.procs[cur].cont
  }

  // ---------------------------------------------------------------------
  // allocproc, callocproc, fork, cfork
  // ---------------------------------------------------------------------

  /** allocproc called by `cur` (NIL at boot): the claimed entry (NIL for a
      null result) and the state after it. `kallocOk` is whether the kernel
      stack could be allocated. */
  function AllocOp(m: Machine, cur: int, kallocOk: bool): (r: (int, Machine))
    requires Ok(m) && IsRef(cur, |m.procs|)
    ensures Ok(r.1) && |r.1.procs| == |m.procs| && |r.1.conts| == |m.conts|
    ensures r.1.nextCid == m.nextCid && m.nextpid <= r.1.nextpid
    ensures r.0 != NIL ==> 0 <= r.0 < |m.procs| && r.1.procs[r.0].pid == m.nextpid
    ensures r.0 != NIL ==> forall j :: 0 <= j < |m.procs| && j != r.0 ==> r.1.procs[j].pid != m.nextpid
  {
    var cc := CallerCont(m, cur);
    var nf := if cc == NIL then NIL else assert WfCont(m.conts[cc], |m.procs|); FreeSlotFrom(m.conts[cc], 0);
    if cc != NIL && nf == NIL then
      FlagKeepsTables(m.procs, m.conts, cc, m.nextpid, m.nextCid);
      (NIL, m.(conts := m.conts[cc := m.conts[cc].(tokill := true)]))
    else
      var k := UnusedFrom(m.procs, 0);
      if k == NIL then (NIL, m)
      else
        var ps := m.procs[k := Claimed(m.procs[k], m.nextpid, kallocOk)];
        ClaimKeepsTables(m.procs, m.conts, k, kallocOk, m.nextpid, m.nextCid);
        if nf == NIL then
          (if kallocOk then k else NIL, Machine(ps, m.conts, m.nextpid + 1, m.nextCid))
        else
          RecordKeepsTables(ps, m.conts, cc, nf, k, m.nextpid + 1, m.nextCid);
          (if kallocOk then k else NIL, Machine(ps, m.conts[cc := Recorded(m.conts[cc], nf, k)], m.nextpid + 1, m.nextCid))
  }

  /** A contained caller whose member table is full gets null, its container
      is flagged for killing, and no process entry and no counter changes. */
  lemma AllocFullContainer(m: Machine, cur: int, kallocOk: bool)
    requires Ok(m) && 0 <= cur < |m.procs| && m.procs[cur].cont != NIL
    requires FreeSlotFrom(m.conts[m.procs[cur].cont], 0) == NIL
    ensures var r := AllocOp(m, cur, kallocOk);
      && r.0 == NIL && r.1.procs == m.procs && r.1.nextpid == m.nextpid
      && r.1.conts == m.conts[m.procs[cur].cont := m.conts[m.procs[cur].cont].(tokill := true)]
  {
  }

  /** allocproc returns the lowest Unused entry exactly when there is one,
      the caller's container (if any) has a free member slot, and a kernel
      stack can be allocated. Whenever it gets as far as claiming the entry,
      that entry takes the old nextpid, nextpid advances, no other entry
      changes, and the entry is recorded in the lowest free member slot
      (below total_proc) of the caller's container, which then holds exactly
      one more member. A successful claim leaves an Embryo with a kernel
      stack and zero ticks; a failed kalloc leaves the entry Unused, with no
      kernel stack but with the pid it used up, and still recorded in the
      container. */
  lemma AllocClaimsLowestUnused(m: Machine, cur: int, kallocOk: bool)
    requires Ok(m) && IsRef(cur, |m.procs|)
    ensures var r := AllocOp(m, cur, kallocOk);
      var cc := CallerCont(m, cur);
      r.0 != NIL <==>
        kallocOk && UnusedFrom(m.procs, 0) != NIL && (cc == NIL || FreeSlotFrom(m.conts[cc], 0) != NIL)
    ensures var r := AllocOp(m, cur, kallocOk);
      var cc := CallerCont(m, cur);
      var k := UnusedFrom(m.procs, 0);
      k != NIL && (cc == NIL || FreeSlotFrom(m.conts[cc], 0) != NIL) ==>
        && r.1.procs[k].pid == m.nextpid
        && r.1.nextpid == m.nextpid + 1
        && (forall j :: 0 <= j < |m.procs| && j != k ==> r.1.procs[j] == m.procs[j])
        && (cc != NIL ==> Members(r.1.conts[cc]) == Members(m.conts[cc]) + {k})
        && (kallocOk ==> r.0 == k && r.1.procs[k].state == Embryo && r.1.procs[k].ticks == 0 && r.1.procs[k].kstack)
        && (!kallocOk ==> r.0 == NIL && r.1.procs[k].state == Unused && !r.1.procs[k].kstack)
  {
    var r := AllocOp(m, cur, kallocOk);
    var cc := CallerCont(m, cur);
    var k := UnusedFrom(m.procs, 0);
    if k != NIL && cc != NIL {
      assert WfCont(m.conts[cc], |m.procs|);
      if FreeSlotFrom(m.conts[cc], 0) != NIL {
        CAllocRecordsInFreeSlot(m.conts[cc], k);
      }
    }
  }

  /** allocproc writes at most one member slot: an empty one below
      total_proc in the caller's container. So it never displaces a member
      and never records one that the container's scans could not reach. */
  lemma AllocWritesOnlyFreeSlot(m: Machine, cur: int, kallocOk: bool)
    requires Ok(m) && IsRef(cur, |m.procs|)
    ensures var r := AllocOp(m, cur, kallocOk);
      forall c :: 0 <= c < |m.conts| ==>
        r.1.conts[c].totalProc == m.conts[c].totalProc && |r.1.conts[c].inner| == |m.conts[c].inner|
    ensures var r := AllocOp(m, cur, kallocOk);
      forall c, i :: 0 <= c < |m.conts| && 0 <= i < |m.conts[c].inner| && r.1.conts[c].inner[i] != m.conts[c].inner[i] ==>
        c == CallerCont(m, cur) && i < m.conts[c].totalProc && m.conts[c].inner[i] == NIL
  {
    var cc := CallerCont(m, cur);
    if cc != NIL {
      assert WfCont(m.conts[cc], |m.procs|);
    }
  }

  /** callocproc for the container at index `ci`, corrected to record the
      new process in the free slot next_free found. */
  function CAllocOp(m: Machine, ci: int, kallocOk: bool): (r: (int, Machine))
    requires Ok(m) && 0 <= ci < |m.conts|
    ensures Ok(r.1) && |r.1.procs| == |m.procs| && |r.1.conts| == |m.conts|
    ensures r.1.nextCid == m.nextCid && m.nextpid <= r.1.nextpid
    ensures r.0 != NIL ==> 0 <= r.0 < |m.procs| && r.1.procs[r.0].pid == m.nextpid
    ensures r.0 != NIL ==> forall j :: 0 <= j < |m.procs| && j != r.0 ==> r.1.procs[j].pid != m.nextpid
    ensures r.0 != NIL ==> Members(r.1.conts[ci]) == Members(m.conts[ci]) + {r.0}
  {
    assert WfCont(m.conts[ci], |m.procs|);
    var nf := FreeSlotFrom(m.conts[ci], 0);
    if nf == NIL then (NIL, m)
    else
      var k := UnusedFrom(m.procs, 0);
      if k == NIL then (NIL, m)
      else
        var ps := m.procs[k := Claimed(m.procs[k], m.nextpid, kallocOk)];
        ClaimKeepsTables(m.procs, m.conts, k, kallocOk, m.nextpid, m.nextCid);
        RecordKeepsTables(ps, m.conts, ci, nf, k, m.nextpid + 1, m.nextCid);
        CAllocRecordsInFreeSlot(m.conts[ci], k);
        (if kallocOk then k else NIL, Machine(ps, m.conts[ci := Recorded(m.conts[ci], nf, k)], m.nextpid + 1, m.nextCid))
  }
  /** callocproc, corrected, writes at most one member slot: an empty one
      below total_proc in container `ci`. callocproc as written writes slot
      0 whatever it holds (ProcTable.CAllocOverwritesSlotZero). */
  lemma CAllocWritesOnlyFreeSlot(m: Machine, ci: int, kallocOk: bool)
    requires Ok(m) && 0 <= ci < |m.conts|
    ensures var r := CAllocOp(m, ci, kallocOk);
      forall c :: 0 <= c < |m.conts| ==>
        r.1.conts[c].totalProc == m.conts[c].totalProc && |r.1.conts[c].inner| == |m.conts[c].inner|
    ensures var r := CAllocOp(m, ci, kallocOk);
      forall c, i :: 0 <= c < |m.conts| && 0 <= i < |m.conts[c].inner| && r.1.conts[c].inner[i] != m.conts[c].inner[i] ==>
        c == ci && i < m.conts[c].totalProc && m.conts[c].inner[i] == NIL
  {
    assert WfCont(m.conts[ci], |m.procs|);
  }


  /** kill_cont(cid) called by process `cur`: -1 for an unknown cid, else
      every occupied member slot's pid is killed in turn and the container
      entry is retired. */
  function ContKilledOp(m: Machine, cur: int, cid: int): (r: (int, Machine))
    requires Ok(m) && 0 <= cur < |m.procs|
    ensures Ok(r.1) && |r.1.procs| == |m.procs| && |r.1.conts| == |m.conts|
    ensures r.1.nextpid == m.nextpid && r.1.nextCid == m.nextCid
    ensures r.0 == -1 <==> ContFrom(m.conts, cid, 0) == NIL
    ensures r.0 == -1 ==> r.1 == m
  {
    var ci := ContFrom(m.conts, cid, 0);
    if ci == NIL then (-1, m)
    else
      assert WfCont(m.conts[ci], |m.procs|);
      var sw := KillSweep(m.procs, m.conts, CallerCont(m, cur), ci, 0);
      KillStepKeepsTables(m.procs, m.conts, sw.0, sw.1, m.nextpid, m.nextCid);
      RetireKeepsTables(sw.0, sw.1, ci, m.nextpid, m.nextCid);
      (0, Machine(sw.0, sw.1[ci := Retired(sw.1[ci])], m.nextpid, m.nextCid))
  }

  /** kill_cont issued by a root process, or by a process inside the
      container, kills every member with a nonzero pid (marked killed, not
      left Sleeping) and retires the container: a later find_cont for that
      (nonzero) cid fails, and no other container changes but for cleared
      member slots. */
  lemma KillContKillsMembers(m: Machine, cur: int, cid: int)
    requires Ok(m) && 0 <= cur < |m.procs| && ContFrom(m.conts, cid, 0) != NIL
    ensures var ci := ContFrom(m.conts, cid, 0); var r := ContKilledOp(m, cur, cid);
      && r.0 == 0
      && r.1.conts[ci].cid == 0 && r.1.conts[ci].vcNode == 0 && !r.1.conts[ci].tokill
      && r.1.conts[ci].usedMem == 0 && r.1.conts[ci].usedDisk == 0
      && (cid != 0 ==> ContFrom(r.1.conts, cid, 0) == NIL)
      && (forall c :: 0 <= c < |m.conts| && c != ci ==> OnlyCleared(m.conts[c], r.1.conts[c]))
    ensures var ci := ContFrom(m.conts, cid, 0);
      (m.procs[cur].cont == NIL || m.procs[cur].cont == ci) ==>
        MembersKilled(m.procs, m.conts[ci], ContKilledOp(m, cur, cid).1.procs)
  {
    var ci := ContFrom(m.conts, cid, 0);
    var r := ContKilledOp(m, cur, cid);
    var sw := KillSweep(m.procs, m.conts, CallerCont(m, cur), ci, 0);
    assert r.1.conts == sw.1[ci := Retired(sw.1[ci])];
    if cid != 0 {
      forall c | 0 <= c < |m.conts| ensures r.1.conts[c].cid != cid {
        if c != ci {
          assert OnlyCleared(m.conts[c], sw.1[c]);
        }
      }
    }
    if m.procs[cur].cont == NIL || m.procs[cur].cont == ci {
      SweepKillsAllMembers(m.procs, m.conts, CallerCont(m, cur), ci);
    }
  }

  /** fork by `cur`: the child's pid or -1, and the state after it.
      `copyOk` is whether the address space could be copied. */
  function ForkOp(m: Machine, cur: int, kallocOk: bool, copyOk: bool): (r: (int, Machine))
    requires Ok(m) && 0 <= cur < |m.procs|
    ensures Ok(r.1) && |r.1.procs| == |m.procs| && |r.1.conts| == |m.conts|
  {
    var a := AllocOp(m, cur, kallocOk);
    var k, m1 := a.0, a.1;
    assert WfProc(m1.procs[cur], |m1.procs|, |m1.conts|);
    if k == NIL then
      var cc := m1.procs[cur].cont;
      if cc != NIL && m1.conts[cc].tokill then (-1, ContKilledOp(m1, cur, m1.conts[cc].cid).1)
      else (-1, m1)
    else if !copyOk then
      ReleaseKeepsTables(m1.procs, m1.conts, k, m1.nextpid, m1.nextCid);
      (-1, m1.(procs := m1.procs[k := Released(m1.procs[k])]))
    else
      ChildKeepsTables(m1.procs, m1.conts, k, cur, m1.procs[cur].cont, m1.nextpid, m1.nextCid);
      (m1.procs[k].pid, m1.(procs := m1.procs[k := Child(m1.procs[k], m1.procs[cur], cur, m1.procs[cur].cont)]))
  }

  /** A successful fork returns a pid no other entry has, taken from nextpid;
      the child is a Runnable copy of the caller's size, its parent is the
      caller, it is in the caller's container, and it sees 0 as the result. */
  lemma ForkMakesChild(m: Machine, cur: int, kallocOk: bool, copyOk: bool)
    requires Ok(m) && 0 <= cur < |m.procs|
    ensures var r := ForkOp(m, cur, kallocOk, copyOk);
      r.0 != -1 ==>
        var k := UnusedFrom(m.procs, 0);
        && r.0 == m.nextpid && r.1.nextpid == m.nextpid + 1
        && 0 <= k < |m.procs|
        && r.1.procs[k].pid == r.0
        && (forall j :: 0 <= j < |m.procs| && j != k ==> r.1.procs[j].pid != r.0)
        && r.1.procs[k].parent == cur && r.1.procs[k].cont == m.procs[cur].cont
        && r.1.procs[k].eax == 0 && r.1.procs[k].state == Runnable
        && r.1.procs[k].sz == m.procs[cur].sz
    ensures ForkOp(m, cur, kallocOk, copyOk).0 != -1 <==>
      kallocOk && copyOk && UnusedFrom(m.procs, 0) != NIL &&
      (m.procs[cur].cont == NIL || FreeSlotFrom(m.conts[m.procs[cur].cont], 0) != NIL)
  {
    AllocClaimsLowestUnused(m, cur, kallocOk);
    var a := AllocOp(m, cur, kallocOk);
    if a.0 != NIL {
      assert a.1.procs[cur].sz == m.procs[cur].sz || cur == a.0;
    }
  }

  /** cfork by `cur` into the container with cid `cid`. */
  function CForkOp(m: Machine, cur: int, cid: int, kallocOk: bool, copyOk: bool): (r: (int, Machine))
    requires Ok(m) && 0 <= cur < |m.procs|
    ensures Ok(r.1) && |r.1.procs| == |m.procs| && |r.1.conts| == |m.conts|
    ensures ContFrom(m.conts, cid, 0) == NIL ==> r == (-1, m)
  {
    var ci := ContFrom(m.conts, cid, 0);
    if ci == NIL then (-1, m)
    else
      var a := CAllocOp(m, ci, kallocOk);
      var k, m1 := a.0, a.1;
      if k == NIL then (-1, m1)
      else if !copyOk then
        ReleaseKeepsTables(m1.procs, m1.conts, k, m1.nextpid, m1.nextCid);
        (-1, m1.(procs := m1.procs[k := Released(m1.procs[k])]))
      else
        ChildKeepsTables(m1.procs, m1.conts, k, cur, ci, m1.nextpid, m1.nextCid);
        (m1.procs[k].pid, m1.(procs := m1.procs[k := Child(m1.procs[k], m1.procs[cur], cur, ci)]))
  }

  /** A successful cfork places a child with a fresh pid in the target
      container: its cont is that container and it is added to the
      container's members, the parent being the caller. */
  lemma CForkPlacesChild(m: Machine, cur: int, cid: int, kallocOk: bool, copyOk: bool)
    requires Ok(m) && 0 <= cur < |m.procs|
    ensures var r := CForkOp(m, cur, cid, kallocOk, copyOk);
      r.0 != -1 ==>
        var ci := ContFrom(m.conts, cid, 0);
        var k := UnusedFrom(m.procs, 0);
        && ci != NIL && 0 <= k < |m.procs|
        && r.0 == m.nextpid && r.1.procs[k].pid == r.0
        && (forall j :: 0 <= j < |m.procs| && j != k ==> r.1.procs[j].pid != r.0)
        && r.1.procs[k].cont == ci && r.1.procs[k].parent == cur
        && r.1.procs[k].eax == 0 && r.1.procs[k].state == Runnable
        && Members(r.1.conts[ci]) == Members(m.conts[ci]) + {k}
  {
  }

  // ---------------------------------------------------------------------
  // wait
  // ---------------------------------------------------------------------

  /** One pass of wait by `cur`, with the slot of the reaped child cleared in
      the child's own container. */
  function WaitOp(m: Machine, cur: int): (r: (WaitOutcome, Machine))
    requires Ok(m) && 0 <= cur < |m.procs|
    ensures Ok(r.1) && |r.1.procs| == |m.procs| && |r.1.conts| == |m.conts|
    ensures r.1.nextpid == m.nextpid && r.1.nextCid == m.nextCid
  {
    var z := ZombieChildFrom(m.procs, cur, 0);
    if z != NIL then
      assert WfProc(m.procs[z], |m.procs|, |m.conts|);
      ReapKeepsTables(m.procs, m.conts, z, m.procs[z].cont, m.nextpid, m.nextCid);
      (Reaped(m.procs[z].pid),
       m.(procs := m.procs[z := Reset(m.procs[z])],
          conts := Unlinked(m.procs, m.conts, m.procs[z].cont, m.procs[z].pid)))
    else if !HasChild(m.procs, cur) || m.procs[cur].killed then (NoChildren, m)
    else
      SetStateKeepsTables(m.procs, m.conts, cur, ChanOf(cur), Sleeping, m.nextpid, m.nextCid);
      (Blocked, m.(procs := m.procs[cur := Slept(m.procs[cur], ChanOf(cur))]))
  }

  /** The three outcomes of one pass of wait. With a Zombie child, the first
      in table order is reaped: its pid is returned, its entry is reset to
      Unused with pid 0 and no parent, its slot is cleared in its own
      container, and nothing else changes. Without one, a caller with no
      children or a killed caller gets -1 and nothing changes; any other
      caller goes to sleep on its own channel and nothing else changes. */
  lemma WaitOutcomes(m: Machine, cur: int)
    requires Ok(m) && 0 <= cur < |m.procs|
    ensures var z := ZombieChildFrom(m.procs, cur, 0); var r := WaitOp(m, cur);
      z != NIL ==>
        && m.procs[z].parent == cur && m.procs[z].state == Zombie
        && r.0 == Reaped(m.procs[z].pid)
        && r.1.procs[z] == Reset(m.procs[z])
        && r.1.procs[z].state == Unused && r.1.procs[z].pid == 0 && r.1.procs[z].parent == NIL
        && (forall j :: 0 <= j < |m.procs| && j != z ==> r.1.procs[j] == m.procs[j])
        && r.1.conts == Unlinked(m.procs, m.conts, m.procs[z].cont, m.procs[z].pid)
    ensures var z := ZombieChildFrom(m.procs, cur, 0);
      z == NIL && (!HasChild(m.procs, cur) || m.procs[cur].killed) ==> WaitOp(m, cur) == (NoChildren, m)
    ensures var z := ZombieChildFrom(m.procs, cur, 0); var r := WaitOp(m, cur);
      z == NIL && HasChild(m.procs, cur) && !m.procs[cur].killed ==>
        && r.0 == Blocked
        && r.1.procs[cur].state == Sleeping && r.1.procs[cur].chan == ChanOf(cur)
        && (forall j :: 0 <= j < |m.procs| && j != cur ==> r.1.procs[j] == m.procs[j])
        && r.1.conts == m.conts
    ensures WaitOp(m, cur).0 == NoChildren <==>
      ZombieChildFrom(m.procs, cur, 0) == NIL && (!HasChild(m.procs, cur) || m.procs[cur].killed)
  {
  }

  /** A parent with one child, a Zombie, gets that child's pid from wait
      exactly once: the entry is freed and the next wait returns -1. */
  lemma WaitReapsOnce(m: Machine, cur: int, z: int)
    requires Ok(m) && 0 <= cur < |m.procs| && 0 <= z < |m.procs|
    requires m.procs[z].parent == cur && m.procs[z].state == Zombie
    requires forall k :: 0 <= k < |m.procs| && m.procs[k].parent == cur ==> k == z
    ensures WaitOp(m, cur).0 == Reaped(m.procs[z].pid)
    ensures WaitOp(m, cur).1.procs[z].state == Unused && WaitOp(m, cur).1.procs[z].pid == 0
    ensures WaitOp(WaitOp(m, cur).1, cur).0 == NoChildren
  {
    ReapOnlyChild(m.procs, cur, z);
  }

  /** wait without a Zombie child but with a live one, and not killed, puts
      the caller to sleep on its own channel; the exit of that child then
      makes it Runnable again, so the exit is not missed. */
  lemma WaitThenExitWakes(m: Machine, cur: int, z: int, init: int)
    requires Ok(m) && 0 <= cur < |m.procs| && 0 <= z < |m.procs| && z != cur
    requires m.procs[z].parent == cur && !HasZombieChild(m.procs, cur) && !m.procs[cur].killed
    ensures WaitOp(m, cur).0 == Blocked
    ensures WaitOp(m, cur).1.procs[cur].state == Sleeping
    ensures Exited(WaitOp(m, cur).1.procs, z, init)[cur].state == Runnable
  {
    var ps := WaitOp(m, cur).1.procs;
    assert ps[z].parent == cur;
    ExitWakesWaitingParent(ps, z, init);
  }

  // ---------------------------------------------------------------------
  // kill
  // ---------------------------------------------------------------------

  /** kill(pid) issued by process `cur`. */
  function KillOp(m: Machine, cur: int, pid: int): (r: (int, Machine))
    requires Ok(m) && 0 <= cur < |m.procs|
    ensures Ok(r.1) && |r.1.procs| == |m.procs| && |r.1.conts| == |m.conts|
    ensures r.1.nextpid == m.nextpid && r.1.nextCid == m.nextCid
  {
    var cc := CallerCont(m, cur);
    var ps, cs := KillProcs(m.procs, m.conts, cc, pid), KillConts(m.procs, m.conts, cc, pid);
    KillStepKeepsTables(m.procs, m.conts, ps, cs, m.nextpid, m.nextCid);
    (if KillTarget(m.procs, m.conts, cc, pid) == NIL then -1 else 0, m.(procs := ps, conts := cs))
  }

  /** kill returns -1 exactly when nothing matches, and then changes nothing;
      from a contained caller it only reaches members of the caller's
      container. */
  lemma KillResult(m: Machine, cur: int, pid: int)
    requires Ok(m) && 0 <= cur < |m.procs|
    ensures var r := KillOp(m, cur, pid);
      && (r.0 == -1 ==> r.1 == m)
      && (m.procs[cur].cont == NIL ==>
            (r.0 == 0 <==> exists k :: 0 <= k < |m.procs| && m.procs[k].pid == pid))
      && (m.procs[cur].cont != NIL ==>
            && (r.0 == 0 <==> exists k :: k in Members(m.conts[m.procs[cur].cont]) && m.procs[k].pid == pid)
            && (forall k :: 0 <= k < |m.procs| && r.1.procs[k] != m.procs[k] ==>
                  k in Members(m.conts[m.procs[cur].cont]))
            && (forall c :: 0 <= c < |m.conts| && c != m.procs[cur].cont ==> r.1.conts[c] == m.conts[c]))
  {
    var cc := CallerCont(m, cur);
    if cc == NIL {
      RootKillFinds(m.procs, m.conts, pid);
    } else {
      ContainedKillConfined(m.procs, m.conts, cc, pid);
    }
  }

  // ---------------------------------------------------------------------
  // spawn_cont
  // ---------------------------------------------------------------------

  /** spawn_cont: the new cid or -1, and the state after it. `nameiOk` is
      whether the root path resolved; `totalMem` and `totalDisk` are the
      machine totals. */
  function SpawnOp(m: Machine, vcnode: int, path: string, usedDisk: int,
                   maxProc: int, maxMem: int, maxDisk: int,
                   totalMem: int, totalDisk: int, nameiOk: bool): (r: (int, Machine))
    requires Ok(m)
    ensures Ok(r.1) && |r.1.procs| == |m.procs| && |r.1.conts| == |m.conts|
    ensures r.1.procs == m.procs && r.1.nextpid == m.nextpid && m.nextCid <= r.1.nextCid
  {
    if ConsoleTaken(m.conts, vcnode) then (-1, m)
    else
      var s := ContFrom(m.conts, 0, 0);
      if s == NIL then (-1, m)
      else
        SpawnKeepsTables(m.procs, m.conts, vcnode, usedDisk, maxProc, maxMem, maxDisk, totalMem, totalDisk,
                         path, nameiOk, m.nextpid, m.nextCid);
        var c := Spawned(m.conts[s], m.nextCid + 1, vcnode, usedDisk, maxProc, maxMem, maxDisk,
                         |m.procs|, totalMem, totalDisk);
        (if nameiOk then m.nextCid + 1 else -1,
         m.(conts := m.conts[s := if nameiOk then c.(rootPath := path) else c], nextCid := m.nextCid + 1))
  }

  /** spawn_cont fails on a console some slot already has (console 0
      included, so it never binds console 0) and when no slot is free.
      Otherwise it takes the first free slot and stamps it with
      next_cid + 1, a cid larger than every cid in use, which find_cont then
      locates; the quotas are the defaults unless requested in range, and
      the slot is consumed even when the root path does not resolve. */
  lemma SpawnFreshCid(m: Machine, vcnode: int, path: string, usedDisk: int,
                      maxProc: int, maxMem: int, maxDisk: int,
                      totalMem: int, totalDisk: int, nameiOk: bool)
    requires Ok(m)
    ensures var r := SpawnOp(m, vcnode, path, usedDisk, maxProc, maxMem, maxDisk, totalMem, totalDisk, nameiOk);
      (ConsoleTaken(m.conts, vcnode) || ContFrom(m.conts, 0, 0) == NIL) ==> r == (-1, m)
    ensures SpawnOp(m, 0, path, usedDisk, maxProc, maxMem, maxDisk, totalMem, totalDisk, nameiOk).0 == -1
    ensures var r := SpawnOp(m, vcnode, path, usedDisk, maxProc, maxMem, maxDisk, totalMem, totalDisk, nameiOk);
      var s := ContFrom(m.conts, 0, 0);
      (!ConsoleTaken(m.conts, vcnode) && s != NIL) ==>
        && r.1.nextCid == m.nextCid + 1
        && r.0 == (if nameiOk then m.nextCid + 1 else -1)
        && (forall c :: 0 <= c < |m.conts| ==> m.conts[c].cid < r.1.nextCid)
        && ContFrom(r.1.conts, m.nextCid + 1, 0) == s
        && r.1.conts[s].vcNode == vcnode
        && 1 <= r.1.conts[s].totalProc <= |m.procs|
        && r.1.conts[s].totalProc == ProcQuota(maxProc, |m.procs|)
        && r.1.conts[s].totalMem == MemQuota(maxMem, totalMem)
        && r.1.conts[s].totalDisk == DiskQuota(maxDisk, totalDisk)
        && (forall c :: 0 <= c < |m.conts| && c != s ==> r.1.conts[c] == m.conts[c])
  {
    ConsoleZeroNeverBinds(m.conts);
  }

  // ---------------------------------------------------------------------
  // cpause, cresume
  // ---------------------------------------------------------------------

  /** cpause(cid). */
  function PauseOp(m: Machine, cid: int): (r: (int, Machine))
    requires Ok(m)
    ensures Ok(r.1) && |r.1.procs| == |m.procs| && |r.1.conts| == |m.conts|
    ensures r.1.nextpid == m.nextpid && r.1.nextCid == m.nextCid
    ensures r.0 == -1 <==> ContFrom(m.conts, cid, 0) == NIL
    ensures r.0 == -1 ==> r.1 == m
  {
    var ci := ContFrom(m.conts, cid, 0);
    if ci == NIL then (-1, m)
    else
      assert WfCont(m.conts[ci], |m.procs|);
      ForcedKeepsTables(m.procs, m.conts, ci, Sleeping, PausedCont(m.procs, m.conts[ci]), m.nextpid, m.nextCid);
      (0, m.(procs := Forced(m.procs, m.conts[ci], Sleeping),
             conts := m.conts[ci := PausedCont(m.procs, m.conts[ci])]))
  }

  /** cresume(cid). */
  function ResumeOp(m: Machine, cid: int): (r: (int, Machine))
    requires Ok(m)
    ensures Ok(r.1) && |r.1.procs| == |m.procs| && |r.1.conts| == |m.conts|
    ensures r.1.nextpid == m.nextpid && r.1.nextCid == m.nextCid
    ensures r.0 == -1 <==> ContFrom(m.conts, cid, 0) == NIL
    ensures r.0 == -1 ==> r.1 == m
  {
    var ci := ContFrom(m.conts, cid, 0);
    if ci == NIL then (-1, m)
    else
      assert WfCont(m.conts[ci], |m.procs|);
      ForcedKeepsTables(m.procs, m.conts, ci, Runnable, ResumedCont(m.procs, m.conts[ci]), m.nextpid, m.nextCid);
      (1, m.(procs := Forced(m.procs, m.conts[ci], Runnable),
             conts := m.conts[ci := ResumedCont(m.procs, m.conts[ci])]))
  }

  /** cpause then cresume of a known cid returns 0 then 1, leaves every
      member Runnable, every other process entry as it was, the container
      awake, and its saved states all Sleeping in the members' first slots:
      the states from before the pause are not restored. */
  lemma PauseThenResumeOp(m: Machine, cid: int)
    requires Ok(m) && ContFrom(m.conts, cid, 0) != NIL
    ensures var ci := ContFrom(m.conts, cid, 0);
      var p := PauseOp(m, cid);
      var q := ResumeOp(p.1, cid);
      && p.0 == 0 && q.0 == 1
      && ContFrom(p.1.conts, cid, 0) == ci
      && (forall k :: 0 <= k < |m.procs| && k in Members(m.conts[ci]) ==> q.1.procs[k] == m.procs[k].(state := Runnable))
      && (forall k :: 0 <= k < |m.procs| && k !in Members(m.conts[ci]) ==> q.1.procs[k] == m.procs[k])
      && q.1.conts[ci].awake
      && (forall i ::
            (0 <= i < m.conts[ci].totalProc && m.conts[ci].inner[i] != NIL &&
             m.conts[ci].inner[i] !in MembersBelow(m.conts[ci], i)) ==>
              q.1.conts[ci].saveState[i] == Sleeping)
  {
    var ci := ContFrom(m.conts, cid, 0);
    var p := PauseOp(m, cid);
    assert p.1.conts[ci].cid == cid;
    assert forall c :: 0 <= c < ci ==> p.1.conts[c] == m.conts[c];
    assert ContFrom(p.1.conts, cid, 0) == ci;
    PauseThenResume(m.procs, m.conts[ci]);
    assert WfCont(m.conts[ci], |m.procs|);
    forall i | 0 <= i < m.conts[ci].totalProc && m.conts[ci].inner[i] != NIL &&
               m.conts[ci].inner[i] !in MembersBelow(m.conts[ci], i)
      ensures ResumeOp(p.1, cid).1.conts[ci].saveState[i] == Sleeping
    {
      ResumeOverwritesSnapshot(m.procs, m.conts[ci], i);
    }
  }

  // ---------------------------------------------------------------------
  // growproc
  // ---------------------------------------------------------------------

  /** growproc(n) by `cur`. `vmSz` is what allocuvm (n > 0) or deallocuvm
      (n < 0) returned, 0 meaning failure; it is not consulted when n is 0. */
  function GrowOp(m: Machine, cur: int, n: int, vmSz: int): (r: (int, Machine))
    requires Ok(m) && 0 <= cur < |m.procs|
    ensures Ok(r.1) && |r.1.procs| == |m.procs| && |r.1.conts| == |m.conts|
  {
    if n != 0 && vmSz == 0 then (-1, m)
    else
      var sz := if n == 0 then m.procs[cur].sz else vmSz;
      var m1 := m.(procs := m.procs[cur := m.procs[cur].(sz := sz)]);
      assert WfProc(m.procs[cur], |m.procs|, |m.conts|);
      KeepsTablesSamePids(m.procs, m1.procs, m.conts, m.nextpid, m.nextCid);
      var cc := m.procs[cur].cont;
      if cc != NIL && m.conts[cc].tokill then (0, ContKilledOp(m1, cur, m.conts[cc].cid).1)
      else (0, m1)
  }

  /** growproc fails with -1 and no change exactly when the VM call fails;
      otherwise the caller has its new size, and when its container is
      active and flagged for killing, every member of the container is killed
      and the container is retired. */
  lemma GrowKillsFlaggedContainer(m: Machine, cur: int, n: int, vmSz: int)
    requires Ok(m) && 0 <= cur < |m.procs|
    ensures var r := GrowOp(m, cur, n, vmSz);
      (r.0 == -1 <==> n != 0 && vmSz == 0) && (r.0 == -1 ==> r.1 == m) && (r.0 != -1 ==> r.0 == 0)
    ensures var r := GrowOp(m, cur, n, vmSz);
      r.0 == 0 ==> r.1.procs[cur].sz == (if n == 0 then m.procs[cur].sz else vmSz)
    ensures var r := GrowOp(m, cur, n, vmSz); var cc := m.procs[cur].cont;
      (r.0 == 0 && cc != NIL && m.conts[cc].tokill && m.conts[cc].cid != 0) ==>
        && MembersKilled(m.procs, m.conts[cc], r.1.procs)
        && r.1.conts[cc].cid == 0
  {
    var r := GrowOp(m, cur, n, vmSz);
    var cc := m.procs[cur].cont;
    if r.0 == 0 {
      var sz := if n == 0 then m.procs[cur].sz else vmSz;
      var m1 := m.(procs := m.procs[cur := m.procs[cur].(sz := sz)]);
      KeepsTablesSamePids(m.procs, m1.procs, m.conts, m.nextpid, m.nextCid);
      if cc != NIL && m.conts[cc].tokill {
        var cid := m.conts[cc].cid;
        var killed := ContKilledOp(m1, cur, cid).1;
        assert r.1 == killed;
        assert KillStepProcs(m1.procs, killed.procs) by {
          var ci := ContFrom(m1.conts, cid, 0);
          if ci != NIL {
            var sw := KillSweep(m1.procs, m1.conts, CallerCont(m1, cur), ci, 0);
            assert killed.procs == sw.0;
          }
        }
        if cid != 0 {
          assert ContFrom(m1.conts, cid, 0) == cc;
          KillContKillsMembers(m1, cur, cid);
          assert MembersKilled(m1.procs, m1.conts[cc], killed.procs);
        }
      } else {
        assert r.1 == m1;
      }
    }
  }

  // ---------------------------------------------------------------------
  // scheduler
  // ---------------------------------------------------------------------

  /** The first Runnable entry at or after `from`. */
  function RunnableFrom(ps: seq<Proc>, from: nat): (k: int)
    requires from <= |ps|
    ensures k == NIL || (from <= k < |ps| && ps[k].state == Runnable)
    ensures forall j :: from <= j < |ps| && (k == NIL || j < k) ==> ps[j].state != Runnable
    decreases |ps| - from
  {
    if from == |ps| then NIL
    else if ps[from].state == Runnable then from
    else RunnableFrom(ps, from + 1)
  }

  /** One step of the scheduler's scan from entry `from`: the first Runnable
      entry becomes Running. The process resumes where it switched out; one
      that switched out in sleep clears its channel before it does anything
      else, under the same lock, and every other Runnable process has
      channel 0 already, so the entry that runs has channel 0. */
  function ScheduleOp(ps: seq<Proc>, from: nat): (r: (int, seq<Proc>))
    requires from <= |ps|
    ensures |r.1| == |ps|
    ensures r.0 == NIL ==> r.1 == ps
    ensures r.0 != NIL ==> from <= r.0 < |ps| && ps[r.0].state == Runnable
    ensures r.0 != NIL ==> r.1[r.0] == ps[r.0].(state := Running, chan := 0)
    ensures forall j :: 0 <= j < |ps| && j != r.0 ==> r.1[j] == ps[j]
  {
    var k := RunnableFrom(ps, from);
    if k == NIL then (NIL, ps) else (k, ps[k := ps[k].(state := Running, chan := 0)])
  }

  /** The process the scheduler runs no longer waits on any channel: if
      cpause later forces it Sleeping, a wakeup on a channel it slept on
      before does not make it Runnable; only cresume does. */
  lemma RunThenPauseIgnoresOldChannel(ps: seq<Proc>, from: nat, c: Container, chan: int)
    requires from <= |ps| && chan != 0 && ScheduleOp(ps, from).0 != NIL
    ensures var k := ScheduleOp(ps, from).0;
      var paused := Forced(ScheduleOp(ps, from).1, c, Sleeping);
      Woken(paused, chan)[k] == paused[k]
  {
    var k := ScheduleOp(ps, from).0;
    var paused := Forced(ScheduleOp(ps, from).1, c, Sleeping);
    assert paused[k].chan == 0;
  }

  /** The scheduler runs a process exactly when one is Runnable at or after
      the scan position, and it runs the one earliest in table order. */
  lemma SchedulePicksFirstRunnable(ps: seq<Proc>, from: nat)
    requires from <= |ps|
    ensures ScheduleOp(ps, from).0 != NIL <==> exists k :: from <= k < |ps| && ps[k].state == Runnable
    ensures ScheduleOp(ps, from).0 != NIL ==>
      forall j :: from <= j < ScheduleOp(ps, from).0 ==> ps[j].state != Runnable
  {
  }
}
