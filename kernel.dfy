// The process and container tables of proc.c as one object whose methods
// update the two arrays in place, each proved to compute the matching
// function of ops.dfy.

module ProcKernel {
  import opened ProcTypes
  import opened ProcTable
  import opened ProcOps

  /** next_free: the lowest empty member slot of `c` below total_proc, or NIL. */
  method NextFree(c: Container) returns (i: int)
    requires 0 <= c.totalProc <= |c.inner|
    ensures i == NIL || (0 <= i < c.totalProc && c.inner[i] == NIL)
    ensures forall j :: 0 <= j < c.totalProc && (i == NIL || j < i) ==> c.inner[j] != NIL
    ensures i == FreeSlotFrom(c, 0)
  {
    i := 0;
    while i < c.totalProc
      invariant 0 <= i <= c.totalProc
      invariant FreeSlotFrom(c, i) == FreeSlotFrom(c, 0)
    {
      if c.inner[i] == NIL {
        return;
      }
      i := i + 1;
    }
    i := NIL;
  }

  /** The table after exit's pass has handed the children of `cur` among the
      first `k` entries to `init`, waking `init`'s channel if one was a Zombie. */
  ghost function PartlyReparented(w: seq<Proc>, cur: int, init: int, k: int): (r: seq<Proc>)
    requires 0 <= k <= |w|
    ensures |r| == |w|
  {
    var h := seq(|w|, j requires 0 <= j < |w| => if j < k && w[j].parent == cur then w[j].(parent := init) else w[j]);
    if exists j :: 0 <= j < k && w[j].parent == cur && w[j].state == Zombie then Woken(h, ChanOf(init)) else h
  }

  /** The whole pass is exit's reparenting. */
  lemma PartlyReparentedAll(w: seq<Proc>, cur: int, init: int)
    ensures PartlyReparented(w, cur, init, |w|) ==
      (if HasZombieChild(w, cur) then Woken(Reparented(w, cur, init), ChanOf(init)) else Reparented(w, cur, init))
  {
  }

  /** A step over entry `k` that is no Zombie child of `cur`. */
  lemma PartlyReparentedStep(w: seq<Proc>, cur: int, init: int, k: int)
    requires 0 <= k < |w| && !(w[k].parent == cur && w[k].state == Zombie)
    ensures var p := PartlyReparented(w, cur, init, k);
      PartlyReparented(w, cur, init, k + 1) ==
        (if w[k].parent == cur then p[k := p[k].(parent := init)] else p)
  {
  }

  /** A step over a Zombie child `k` of `cur`, which wakes `init`'s channel. */
  lemma PartlyReparentedZombie(w: seq<Proc>, cur: int, init: int, k: int)
    requires 0 <= k < |w| && w[k].parent == cur && w[k].state == Zombie
    ensures var p := PartlyReparented(w, cur, init, k);
      PartlyReparented(w, cur, init, k + 1) == Woken(p[k := p[k].(parent := init)], ChanOf(init))
  {
  }

  /** The table after the pause or resume pass has forced the members in
      the slots below `upto` to `s`. */
  ghost function ForcedBelow(ps: seq<Proc>, c: Container, s: ProcState, upto: int): (r: seq<Proc>)
    ensures |r| == |ps|
  {
    seq(|ps|, k requires 0 <= k < |ps| => if k in MembersBelow(c, upto) then ps[k].(state := s) else ps[k])
  }

  /** The step over slot `i`: an occupied slot records the state its process
      has so far and forces it. */
  lemma ForcedBelowStep(ps: seq<Proc>, c: Container, s: ProcState, i: int)
    requires WfCont(c, |ps|) && 0 <= i < c.totalProc
    ensures c.inner[i] == NIL ==> ForcedBelow(ps, c, s, i + 1) == ForcedBelow(ps, c, s, i)
    ensures c.inner[i] != NIL ==>
      var f := ForcedBelow(ps, c, s, i);
      && ForcedBelow(ps, c, s, i + 1) == f[c.inner[i] := f[c.inner[i]].(state := s)]
      && Snapshot(ps, c, s)[i] == f[c.inner[i]].state
  {
    MembersBelowStep(c, i);
  }

  /** The saved-state table after the pause or resume pass has recorded the
      slots below `upto`. */
  ghost function SavedBelow(ps: seq<Proc>, c: Container, s: ProcState, upto: int): (r: seq<ProcState>)
    requires WfCont(c, |ps|)
    ensures |r| == |c.saveState|
  {
    var snap := Snapshot(ps, c, s);
    seq(|c.saveState|, j requires 0 <= j < |c.saveState| => if j < upto then snap[j] else c.saveState[j])
  }

  /** The step over slot `i` records the snapshot's entry for it, which is
      the slot's old entry when the slot is empty. */
  lemma SavedBelowStep(ps: seq<Proc>, c: Container, s: ProcState, i: int)
    requires WfCont(c, |ps|) && 0 <= i < c.totalProc
    ensures SavedBelow(ps, c, s, i + 1) == SavedBelow(ps, c, s, i)[i := Snapshot(ps, c, s)[i]]
    ensures c.inner[i] == NIL ==> SavedBelow(ps, c, s, i + 1) == SavedBelow(ps, c, s, i)
  {
  }

  /** Before the first slot nothing is recorded; past the last member slot
      every entry agrees with the snapshot. */
  lemma SavedBelowEnds(ps: seq<Proc>, c: Container, s: ProcState)
    requires WfCont(c, |ps|)
    ensures SavedBelow(ps, c, s, 0) == c.saveState
    ensures SavedBelow(ps, c, s, c.totalProc) == Snapshot(ps, c, s)
  {
  }

  /** The state kill_cont leaves: the sweep's tables with the entry retired. */
  lemma ContKilledUnfold(m: Machine, cur: int, cid: int, ps: seq<Proc>, cs: seq<Container>)
    requires Ok(m) && 0 <= cur < |m.procs| && ContFrom(m.conts, cid, 0) != NIL
    requires (ps, cs) == KillSweep(m.procs, m.conts, m.procs[cur].cont, ContFrom(m.conts, cid, 0), 0)
    ensures ContKilledOp(m, cur, cid) ==
      (0, Machine(ps, cs[ContFrom(m.conts, cid, 0) := Retired(cs[ContFrom(m.conts, cid, 0)])], m.nextpid, m.nextCid))
  {
    assert WfProc(m.procs[cur], |m.procs|, |m.conts|);
  }

  /** The state allocproc leaves: a contained caller whose container is full
      only flags it for killing; otherwise the lowest Unused entry, if any,
      is claimed and recorded in the container's free slot. */
  lemma AllocUnfold(m: Machine, cur: int, kallocOk: bool)
    requires Ok(m) && IsRef(cur, |m.procs|)
    ensures var cc := CallerCont(m, cur);
      cc != NIL ==> WfCont(m.conts[cc], |m.procs|)
    ensures var cc := CallerCont(m, cur);
      cc != NIL && FreeSlotFrom(m.conts[cc], 0) == NIL ==>
        AllocOp(m, cur, kallocOk) == (NIL, m.(conts := m.conts[cc := m.conts[cc].(tokill := true)]))
    ensures var cc := CallerCont(m, cur);
      var nf := if cc == NIL then NIL else FreeSlotFrom(m.conts[cc], 0);
      var k := UnusedFrom(m.procs, 0);
      (cc == NIL || nf != NIL) ==>
        AllocOp(m, cur, kallocOk) ==
          if k == NIL then (NIL, m)
          else (if kallocOk then k else NIL,
                Machine(m.procs[k := Claimed(m.procs[k], m.nextpid, kallocOk)],
                        if nf == NIL then m.conts else m.conts[cc := Recorded(m.conts[cc], nf, k)],
                        m.nextpid + 1, m.nextCid))
  {
    var cc := CallerCont(m, cur);
    if cc != NIL {
      assert WfCont(m.conts[cc], |m.procs|);
    }
  }

  /** The state fork leaves after allocproc: a failed allocation may kill
      the caller's flagged container, a failed copy releases the entry, and
      otherwise the entry becomes the caller's child. */
  lemma ForkUnfold(m: Machine, cur: int, kallocOk: bool, copyOk: bool)
    requires Ok(m) && 0 <= cur < |m.procs|
    ensures var a := AllocOp(m, cur, kallocOk);
      var k, m1 := a.0, a.1;
      && WfProc(m1.procs[cur], |m1.procs|, |m1.conts|)
      && ForkOp(m, cur, kallocOk, copyOk) ==
        if k == NIL then
          var cc := m1.procs[cur].cont;
          if cc != NIL && m1.conts[cc].tokill then (-1, ContKilledOp(m1, cur, m1.conts[cc].cid).1)
          else (-1, m1)
        else if !copyOk then (-1, m1.(procs := m1.procs[k := Released(m1.procs[k])]))
        else (m1.procs[k].pid, m1.(procs := m1.procs[k := Child(m1.procs[k], m1.procs[cur], cur, m1.procs[cur].cont)]))
  {
    var m1 := AllocOp(m, cur, kallocOk).1;
    assert WfProc(m1.procs[cur], |m1.procs|, |m1.conts|);
  }

  /** The state cfork leaves after callocproc: a failed copy releases the
      entry, and otherwise the entry becomes the caller's child placed in
      the target container. */
  lemma CForkUnfold(m: Machine, cur: int, cid: int, kallocOk: bool, copyOk: bool)
    requires Ok(m) && 0 <= cur < |m.procs| && ContFrom(m.conts, cid, 0) != NIL
    ensures var ci := ContFrom(m.conts, cid, 0);
      var a := CAllocOp(m, ci, kallocOk);
      var k, m1 := a.0, a.1;
      CForkOp(m, cur, cid, kallocOk, copyOk) ==
        if k == NIL then (-1, m1)
        else if !copyOk then (-1, m1.(procs := m1.procs[k := Released(m1.procs[k])]))
        else (m1.procs[k].pid, m1.(procs := m1.procs[k := Child(m1.procs[k], m1.procs[cur], cur, ci)]))
  {
  }

  /** The state callocproc leaves: unchanged unless container `ci` has a
      free slot and the process table an Unused entry. */
  lemma CAllocUnfold(m: Machine, ci: int, kallocOk: bool)
    requires Ok(m) && 0 <= ci < |m.conts| && WfCont(m.conts[ci], |m.procs|)
    ensures FreeSlotFrom(m.conts[ci], 0) == NIL || UnusedFrom(m.procs, 0) == NIL ==> CAllocOp(m, ci, kallocOk) == (NIL, m)
    ensures var nf, k := FreeSlotFrom(m.conts[ci], 0), UnusedFrom(m.procs, 0);
      nf != NIL && k != NIL ==>
      CAllocOp(m, ci, kallocOk) ==
        (if kallocOk then k else NIL,
         Machine(m.procs[k := Claimed(m.procs[k], m.nextpid, kallocOk)], m.conts[ci := Recorded(m.conts[ci], nf, k)],
                 m.nextpid + 1, m.nextCid))
  {
  }

  /** The state spawn_cont leaves when the console is free and some entry is. */
  lemma SpawnUnfold(m: Machine, vcnode: int, path: string, usedDisk: int,
                    maxProc: int, maxMem: int, maxDisk: int, totalMem: int, totalDisk: int, nameiOk: bool)
    requires Ok(m) && !ConsoleTaken(m.conts, vcnode) && ContFrom(m.conts, 0, 0) != NIL
    ensures var s := ContFrom(m.conts, 0, 0);
      var c := Spawned(m.conts[s], m.nextCid + 1, vcnode, usedDisk, maxProc, maxMem, maxDisk,
                       |m.procs|, totalMem, totalDisk);
      SpawnOp(m, vcnode, path, usedDisk, maxProc, maxMem, maxDisk, totalMem, totalDisk, nameiOk) ==
        (if nameiOk then m.nextCid + 1 else -1,
         m.(conts := m.conts[s := if nameiOk then c.(rootPath := path) else c], nextCid := m.nextCid + 1))
  {
  }

  /** The zero-filled static tables satisfy the invariant with nextpid 1. */
  lemma BootTablesOk(nproc: int, ncont: int)
    requires DefaultProcQuota <= nproc && 0 <= ncont
    ensures TablesOk(seq(nproc, _ => UnusedProc), seq(ncont, _ => EmptyContainer(nproc)), 1, 0)
  {
    var ps, cs := seq(nproc, _ => UnusedProc), seq(ncont, _ => EmptyContainer(nproc));
    assert forall c :: 0 <= c < ncont ==> cs[c] == EmptyContainer(nproc);
    assert Linked(ps, cs);
  }

  class Kernel {
    /** ptable.proc: the NPROC process entries. */
    const procs: array<Proc>
    /** ctable.cont: the NCONT container entries. */
    const conts: array<Container>
    var nextpid: int
    /** ctable.next_cid. */
    var nextCid: int
    /** The index of the first process, set up at boot. */
    const initproc: int
    /** The machine's memory and disk totals that bound requested quotas. */
    const totalMem: int
    const totalDisk: int
    /** The global used_disk counter. */
    var usedDisk: int

    ghost function State(): Machine
      reads this, procs, conts
    {
      Machine(procs[..], conts[..], nextpid, nextCid)
    }

    ghost predicate Valid()
      reads this, procs, conts
    {
      Ok(State()) && 0 <= initproc < procs.Length
    }

    /** The zeroed static tables followed by userinit: the first process is
        allocated with no caller, gets one page of memory and is Runnable. */
    constructor (nproc: int, ncont: int, totalMem: int, totalDisk: int)
      requires DefaultProcQuota <= nproc && 0 <= ncont
      ensures Valid()
      ensures procs.Length == nproc && conts.Length == ncont
      ensures initproc == 0 && nextpid == 2 && nextCid == 0
      ensures procs[0].pid == 1 && procs[0].state == Runnable && procs[0].sz == PageSize
      ensures procs[0].parent == NIL && procs[0].cont == NIL
      ensures forall k :: 1 <= k < nproc ==> procs[k] == UnusedProc
      ensures forall c :: 0 <= c < ncont ==> conts[c] == EmptyContainer(nproc)
      ensures this.totalMem == totalMem && this.totalDisk == totalDisk
    {
      procs := new Proc[nproc](_ => UnusedProc);
      conts := new Container[ncont](_ => EmptyContainer(nproc));
      nextpid := 1;
      nextCid := 0;
      initproc := 0;
      this.totalMem := totalMem;
      this.totalDisk := totalDisk;
      usedDisk := 0;
      new;
      assert procs[..] == seq(nproc, _ => UnusedProc);
      assert conts[..] == seq(ncont, _ => EmptyContainer(nproc));
      BootTablesOk(nproc, ncont);
      ghost var m0 := State();
      var p := AllocProc(NIL, true);
      AllocClaimsLowestUnused(m0, NIL, true);
      assert UnusedFrom(m0.procs, 0) == 0;
      ghost var ps1 := procs[..];
      procs[p] := procs[p].(sz := PageSize, state := Runnable);
      SetStateKeepsTables(ps1, conts[..], 0, ps1[0].chan, Runnable, nextpid, nextCid);
      assert procs[..] == ps1[0 := ps1[0].(chan := ps1[0].chan, state := Runnable)][0 := procs[0]];
    }

    /** find_cont: the first container entry whose cid is `cid`, or NIL. */
    method FindCont(cid: int) returns (ci: int)
      ensures ci == NIL || (0 <= ci < conts.Length && conts[ci].cid == cid)
      ensures forall j :: 0 <= j < conts.Length && (ci == NIL || j < ci) ==> conts[j].cid != cid
    {
      ci := 0;
      while ci < conts.Length
        invariant 0 <= ci <= conts.Length
        invariant forall j :: 0 <= j < ci ==> conts[j].cid != cid
      {
        if conts[ci].cid == cid {
          return;
        }
        ci := ci + 1;
      }
      ci := NIL;
    }

    /** The first member slot of container `ci` below total_proc whose
        process has pid `pid` (empty slots never match). */
    method FindSlot(ci: int, pid: int) returns (i: int)
      requires 0 <= ci < conts.Length && WfCont(conts[ci], procs.Length)
      ensures i == SlotWithPidFrom(procs[..], conts[ci], pid, 0)
    {
      i := 0;
      while i < conts[ci].totalProc
        invariant 0 <= i <= conts[ci].totalProc
        invariant SlotWithPidFrom(procs[..], conts[ci], pid, i) == SlotWithPidFrom(procs[..], conts[ci], pid, 0)
      {
        var p := conts[ci].inner[i];
        if p != NIL && procs[p].pid == pid {
          return;
        }
        i := i + 1;
      }
      i := NIL;
    }

    /** The scan for the first Unused entry shared by allocproc and callocproc. */
    method FirstUnused() returns (k: int)
      ensures k == UnusedFrom(procs[..], 0)
    {
      k := 0;
      while k < procs.Length
        invariant 0 <= k <= procs.Length
        invariant UnusedFrom(procs[..], k) == UnusedFrom(procs[..], 0)
      {
        if procs[k].state == Unused {
          return;
        }
        k := k + 1;
      }
      k := NIL;
    }

    // -------------------------------------------------------------------
    // Allocation
    // -------------------------------------------------------------------

    /** allocproc, called by process `cur` (NIL when there is none). */
    method AllocProc(cur: int, kallocOk: bool) returns (p: int)
      requires Valid() && IsRef(cur, procs.Length)
      modifies this`nextpid, procs, conts
      ensures Valid()
      ensures (p, State()) == AllocOp(old(State()), cur, kallocOk)
    {
      ghost var m := State();
      var nf := NIL;
      var cc := if cur == NIL then NIL else procs[cur].cont;
      assert cc == CallerCont(m, cur);
      AllocUnfold(m, cur, kallocOk);
      if cc != NIL {
        assert WfCont(conts[cc], procs.Length);
        nf := NextFree(conts[cc]);
        if nf == NIL {
          conts[cc] := conts[cc].(tokill := true);
          return NIL;
        }
      }
      p := FirstUnused();
      if p == NIL {
        return NIL;
      }
      // the entry is claimed with the next pid and goes back to Unused
      // when no kernel stack can be allocated
      procs[p] := Claimed(procs[p], nextpid, kallocOk);
      nextpid := nextpid + 1;
      if nf != NIL {
        conts[cc] := Recorded(conts[cc], nf, p);
      }
      if !kallocOk {
        p := NIL;
      }
    }

    /** callocproc for cid `cid`, which cfork has already found, recording the
        new process in the free slot next_free found. */
    method CAllocProc(cid: int, kallocOk: bool) returns (p: int)
      requires Valid() && ContFrom(conts[..], cid, 0) != NIL
      modifies this`nextpid, procs, conts
      ensures Valid()
      ensures (p, State()) == CAllocOp(old(State()), ContFrom(old(conts[..]), cid, 0), kallocOk)
    {
      ghost var m := State();
      var ci := FindCont(cid);
      assert ci == ContFrom(m.conts, cid, 0);
      assert WfCont(conts[ci], procs.Length);
      CAllocUnfold(m, ci, kallocOk);
      var nf := NextFree(conts[ci]);
      if nf == NIL {
        return NIL;
      }
      p := FirstUnused();
      if p == NIL {
        return NIL;
      }
      // the entry is claimed with the next pid and goes back to Unused
      // when no kernel stack can be allocated
      procs[p] := Claimed(procs[p], nextpid, kallocOk);
      nextpid := nextpid + 1;
      conts[ci] := Recorded(conts[ci], nf, p);
      if !kallocOk {
        p := NIL;
      }
    }

    /** fork by process `cur`: the child's pid, or -1. `copyOk` is whether
        copying the address space succeeded. */
    method Fork(cur: int, kallocOk: bool, copyOk: bool) returns (pid: int)
      requires Valid() && 0 <= cur < procs.Length
      modifies this`nextpid, procs, conts
      ensures Valid()
      ensures (pid, State()) == ForkOp(old(State()), cur, kallocOk, copyOk)
    {
      ghost var m := State();
      var np := AllocProc(cur, kallocOk);
      ForkUnfold(m, cur, kallocOk, copyOk);
      assert WfProc(procs[cur], procs.Length, conts.Length);
      if np == NIL {
        var cc := procs[cur].cont;
        if cc != NIL && conts[cc].tokill {
          var r := KillCont(cur, conts[cc].cid);
        }
        return -1;
      }
      if !copyOk {
        procs[np] := Released(procs[np]);
        return -1;
      }
      // the child copies the caller's size and container, sees 0 as fork's
      // result and becomes Runnable
      procs[np] := Child(procs[np], procs[cur], cur, procs[cur].cont);
      pid := procs[np].pid;
    }

    /** cfork by process `cur` into the container with cid `cid`. */
    method CFork(cur: int, cid: int, kallocOk: bool, copyOk: bool) returns (pid: int)
      requires Valid() && 0 <= cur < procs.Length
      modifies this`nextpid, procs, conts
      ensures Valid()
      ensures (pid, State()) == CForkOp(old(State()), cur, cid, kallocOk, copyOk)
    {
      ghost var m := State();
      var ci := FindCont(cid);
      if ci == NIL {
        return -1;
      }
      var np := CAllocProc(cid, kallocOk);
      CForkUnfold(m, cur, cid, kallocOk, copyOk);
      if np == NIL {
        return -1;
      }
      if !copyOk {
        procs[np] := Released(procs[np]);
        return -1;
      }
      // the child copies the caller's size, is placed in container `ci`,
      // sees 0 as cfork's result and becomes Runnable
      procs[np] := Child(procs[np], procs[cur], cur, ci);
      pid := procs[np].pid;
    }

    // -------------------------------------------------------------------
    // Scheduling
    // -------------------------------------------------------------------

    /** wakeup1: every entry Sleeping on `chan` becomes Runnable. */
    method Wakeup1(chan: int)
      modifies procs
      ensures procs[..] == Woken(old(procs[..]), chan)
    {
      ghost var ps0 := procs[..];
      var k := 0;
      while k < procs.Length
        invariant 0 <= k <= procs.Length
        invariant forall j :: 0 <= j < k ==> procs[j] == Wake(ps0[j], chan)
        invariant forall j :: k <= j < procs.Length ==> procs[j] == ps0[j]
      {
        if procs[k].state == Sleeping && procs[k].chan == chan {
          procs[k] := procs[k].(state := Runnable);
        }
        k := k + 1;
      }
      assert procs[..] == Woken(ps0, chan);
    }

    /** wakeup: wakeup1 under the table lock. */
    method Wakeup(chan: int)
      requires Valid()
      modifies procs
      ensures Valid()
      ensures procs[..] == Woken(old(procs[..]), chan)
    {
      Wakeup1(chan);
      WokenKeepsTables(old(procs[..]), conts[..], chan, nextpid, nextCid);
    }

    /** sleep by process `cur` on `chan`, up to the switch into the scheduler. */
    method Sleep(cur: int, chan: int)
      requires Valid() && 0 <= cur < procs.Length
      modifies procs
      ensures Valid()
      ensures procs[..] == old(procs[..])[cur := Slept(old(procs[cur]), chan)]
    {
      procs[cur] := procs[cur].(chan := chan, state := Sleeping);
      SetStateKeepsTables(old(procs[..]), conts[..], cur, chan, Sleeping, nextpid, nextCid);
    }

    /** yield by process `cur`: it becomes Runnable before the switch. */
    method Yield(cur: int)
      requires Valid() && 0 <= cur < procs.Length
      modifies procs
      ensures Valid()
      ensures procs[..] == old(procs[..])[cur := old(procs[cur]).(state := Runnable)]
    {
      procs[cur] := procs[cur].(state := Runnable);
      SetStateKeepsTables(old(procs[..]), conts[..], cur, old(procs[cur]).chan, Runnable, nextpid, nextCid);
    }

    /** One step of the scheduler's scan, continuing at entry `from`: the first
        Runnable entry at or after it becomes Running (NIL: none left). */
    method Schedule(from: int) returns (p: int)
      requires Valid() && 0 <= from <= procs.Length
      modifies procs
      ensures Valid()
      ensures (p, procs[..]) == ScheduleOp(old(procs[..]), from)
    {
      p := from;
      while p < procs.Length
        invariant from <= p <= procs.Length
        invariant RunnableFrom(procs[..], p) == RunnableFrom(procs[..], from)
      {
        if procs[p].state == Runnable {
          // sleep's tidy-up of the channel happens as soon as the entry runs
          procs[p] := procs[p].(state := Running, chan := 0);
          SetStateKeepsTables(old(procs[..]), conts[..], p, 0, Running, nextpid, nextCid);
          return;
        }
        p := p + 1;
      }
      p := NIL;
    }

    // -------------------------------------------------------------------
    // exit and wait
    // -------------------------------------------------------------------

    /** exit's pass over the table: every child of `cur` is handed to the
        first process, whose channel is woken when the child is a Zombie. */
    method ReparentChildren(cur: int)
      requires 0 <= initproc < procs.Length
      modifies procs
      ensures procs[..] == PartlyReparented(old(procs[..]), cur, initproc, procs.Length)
    {
      ghost var w := procs[..];
      var k := 0;
      while k < procs.Length
        invariant 0 <= k <= procs.Length
        invariant procs[..] == PartlyReparented(w, cur, initproc, k)
      {
        ghost var before := procs[..];
        if procs[k].parent == cur {
          procs[k] := procs[k].(parent := initproc);
          if procs[k].state == Zombie {
            Wakeup1(ChanOf(initproc));
            PartlyReparentedZombie(w, cur, initproc, k);
          } else {
            PartlyReparentedStep(w, cur, initproc, k);
          }
        } else {
          PartlyReparentedStep(w, cur, initproc, k);
        }
        k := k + 1;
      }
    }

    /** exit by process `cur`, up to the switch into the scheduler; reports
        the panic when `cur` is the first process. */
    method Exit(cur: int) returns (panicked: bool)
      requires Valid() && 0 <= cur < procs.Length
      modifies procs
      ensures Valid()
      ensures panicked == (cur == initproc)
      ensures panicked ==> procs[..] == old(procs[..])
      ensures !panicked ==> procs[..] == Exited(old(procs[..]), cur, initproc)
    {
      if cur == initproc {
        return true;
      }
      panicked := false;
      ghost var ps0 := procs[..];
      Wakeup1(ChanOf(procs[cur].parent));
      ghost var w := procs[..];
      assert forall j :: 0 <= j < |w| ==>
        w[j].parent == ps0[j].parent && (w[j].state == Zombie <==> ps0[j].state == Zombie);
      assert HasZombieChild(w, cur) == HasZombieChild(ps0, cur);
      ReparentChildren(cur);
      PartlyReparentedAll(w, cur, initproc);
      procs[cur] := procs[cur].(state := Zombie);
      assert procs[..] == Exited(ps0, cur, initproc);
      ExitKeepsTables(ps0, conts[..], cur, initproc, nextpid, nextCid);
    }

    /** One pass of wait by process `cur`: reaps the first Zombie child,
        clearing its slot in the child's own container, or returns -1, or
        puts the caller to sleep on its own channel. */
    method Wait(cur: int) returns (res: WaitOutcome)
      requires Valid() && 0 <= cur < procs.Length
      modifies procs, conts
      ensures Valid()
      ensures (res, State()) == WaitOp(old(State()), cur)
    {
      ghost var m := State();
      var havekids := false;
      var k := 0;
      while k < procs.Length
        invariant 0 <= k <= procs.Length
        invariant procs[..] == m.procs && conts[..] == m.conts
        invariant ZombieChildFrom(m.procs, cur, k) == ZombieChildFrom(m.procs, cur, 0)
        invariant havekids <==> exists j :: 0 <= j < k && procs[j].parent == cur
      {
        if procs[k].parent == cur {
          havekids := true;
          if procs[k].state == Zombie {
            var pid := procs[k].pid;
            var cc := procs[k].cont;
            assert WfProc(procs[k], procs.Length, conts.Length);
            if cc != NIL {
              assert WfCont(conts[cc], procs.Length);
              var i := FindSlot(cc, pid);
              if i != NIL {
                conts[cc] := conts[cc].(inner := conts[cc].inner[i := NIL]);
              }
            }
            procs[k] := procs[k].(kstack := false, pid := 0, parent := NIL, killed := false, state := Unused);
            assert State() == WaitOp(m, cur).1;
            return Reaped(pid);
          }
        }
        k := k + 1;
      }
      if !havekids || procs[cur].killed {
        return NoChildren;
      }
      Sleep(cur, ChanOf(cur));
      return Blocked;
    }

    // -------------------------------------------------------------------
    // kill
    // -------------------------------------------------------------------

    /** The clearing loop of a root caller's kill: every slot of container
        `cc` below total_proc whose process has pid `pid` is emptied. */
    method ClearPidSlots(cc: int, pid: int)
      requires 0 <= cc < conts.Length && WfCont(conts[cc], procs.Length)
      modifies conts
      ensures conts[..] == old(conts[..])[cc := ClearPid(procs[..], old(conts[cc]), pid)]
    {
      ghost var c0 := conts[cc];
      var i := 0;
      while i < conts[cc].totalProc
        invariant 0 <= i <= c0.totalProc
        invariant conts[cc] == c0.(inner := conts[cc].inner) && |conts[cc].inner| == |c0.inner|
        invariant forall j :: 0 <= j < i ==> conts[cc].inner[j] == ClearPid(procs[..], c0, pid).inner[j]
        invariant forall j :: i <= j < |c0.inner| ==> conts[cc].inner[j] == c0.inner[j]
        invariant forall c :: 0 <= c < conts.Length && c != cc ==> conts[c] == old(conts[c])
      {
        var p := conts[cc].inner[i];
        if p != NIL && procs[p].pid == pid {
          conts[cc] := conts[cc].(inner := conts[cc].inner[i := NIL]);
        }
        i := i + 1;
      }
      assert conts[cc].inner == ClearPid(procs[..], c0, pid).inner;
      assert conts[..] == old(conts[..])[cc := ClearPid(procs[..], c0, pid)];
    }

    /** kill(pid) by a caller outside every container: the first entry with
        that pid is marked, and the slots of its container holding the pid
        are cleared. */
    method KillFromRoot(pid: int) returns (r: int)
      requires Valid()
      modifies procs, conts
      ensures procs[..] == KillProcs(old(procs[..]), old(conts[..]), NIL, pid)
      ensures conts[..] == KillConts(old(procs[..]), old(conts[..]), NIL, pid)
      ensures r == if KillTarget(old(procs[..]), old(conts[..]), NIL, pid) == NIL then -1 else 0
    {
      ghost var ps0, cs0 := procs[..], conts[..];
      var k := 0;
      while k < procs.Length
        invariant 0 <= k <= procs.Length
        invariant procs[..] == ps0 && conts[..] == cs0
        invariant PidFrom(ps0, pid, k) == PidFrom(ps0, pid, 0)
      {
        if procs[k].pid == pid {
          procs[k] := procs[k].(killed := true);
          var pc := procs[k].cont;
          assert WfProc(ps0[k], procs.Length, conts.Length);
          if pc != NIL {
            assert WfCont(conts[pc], procs.Length);
            ClearPidSlots(pc, pid);
            assert ClearPid(procs[..], cs0[pc], pid) == ClearPid(ps0, cs0[pc], pid);
          }
          if procs[k].state == Sleeping {
            procs[k] := procs[k].(state := Runnable);
          }
          assert procs[..] == ps0[k := Killed(ps0[k])];
          return 0;
        }
        k := k + 1;
      }
      return -1;
    }

    /** kill(pid) by a caller inside container `cc`: only the member slots of
        `cc` are searched, and the matching slot is cleared. */
    method KillInContainer(cc: int, pid: int) returns (r: int)
      requires Valid() && 0 <= cc < conts.Length
      modifies procs, conts
      ensures procs[..] == KillProcs(old(procs[..]), old(conts[..]), cc, pid)
      ensures conts[..] == KillConts(old(procs[..]), old(conts[..]), cc, pid)
      ensures r == if KillTarget(old(procs[..]), old(conts[..]), cc, pid) == NIL then -1 else 0
    {
      ghost var ps0, cs0 := procs[..], conts[..];
      assert WfCont(conts[cc], procs.Length);
      var i := FindSlot(cc, pid);
      if i == NIL {
        return -1;
      }
      var p := conts[cc].inner[i];
      procs[p] := procs[p].(killed := true);
      if procs[p].state == Sleeping {
        procs[p] := procs[p].(state := Runnable);
      }
      conts[cc] := conts[cc].(inner := conts[cc].inner[i := NIL]);
      assert procs[..] == ps0[p := Killed(ps0[p])];
      return 0;
    }

    /** kill(pid) by process `cur`: a root caller reaches any entry, a
        contained caller only the members of its own container. */
    method Kill(cur: int, pid: int) returns (r: int)
      requires Valid() && 0 <= cur < procs.Length
      modifies procs, conts
      ensures Valid()
      ensures (r, State()) == KillOp(old(State()), cur, pid)
    {
      ghost var m := State();
      var cc := procs[cur].cont;
      assert WfProc(procs[cur], procs.Length, conts.Length);
      if cc == NIL {
        r := KillFromRoot(pid);
        assert State() == KillOp(m, cur, pid).1;
      } else {
        r := KillInContainer(cc, pid);
        assert State() == KillOp(m, cur, pid).1;
      }
    }

    // -------------------------------------------------------------------
    // Container lifecycle
    // -------------------------------------------------------------------

    /** The duplicate-console check of spawn_cont: some container entry,
        active or not, is bound to console `vcnode`. */
    method ConsoleInUse(vcnode: int) returns (taken: bool)
      ensures taken == ConsoleTaken(conts[..], vcnode)
    {
      var i := 0;
      while i < conts.Length
        invariant 0 <= i <= conts.Length
        invariant forall j :: 0 <= j < i ==> conts[j].vcNode != vcnode
      {
        if conts[i].vcNode == vcnode {
          return true;
        }
        i := i + 1;
      }
      return false;
    }

    /** spawn_cont: binds the first free container entry to console `vcnode`
        with the next cid and the requested quotas; `nameiOk` is whether the
        root path `path` resolved. Returns the cid or -1. */
    method SpawnCont(vcnode: int, path: string, usedDisk: int, maxProc: int, maxMem: int, maxDisk: int,
                     nameiOk: bool) returns (cid: int)
      requires Valid()
      modifies this`nextCid, conts
      ensures Valid()
      ensures (cid, State()) ==
        SpawnOp(old(State()), vcnode, path, usedDisk, maxProc, maxMem, maxDisk, totalMem, totalDisk, nameiOk)
    {
      ghost var m := State();
      var taken := ConsoleInUse(vcnode);
      if taken {
        return -1;
      }
      var s := FindCont(0);
      assert s == ContFrom(m.conts, 0, 0);
      if s == NIL {
        return -1;
      }
      nextCid := nextCid + 1;
      cid := nextCid;
      var tp := ProcQuota(maxProc, procs.Length);
      var tm := MemQuota(maxMem, totalMem);
      var td := DiskQuota(maxDisk, totalDisk);
      var c := conts[s].(cid := cid, totalProc := tp, totalMem := tm, totalDisk := td, vcNode := vcnode,
                         usedDisk := usedDisk, lastTick := 0, awake := false, tokill := false);
      // a root path that does not resolve leaves the slot stamped and consumed
      if nameiOk {
        c := c.(rootPath := path);
      } else {
        cid := -1;
      }
      conts[s] := c;
      SpawnUnfold(m, vcnode, path, usedDisk, maxProc, maxMem, maxDisk, totalMem, totalDisk, nameiOk);
    }

    /** The pass cpause and cresume make over the member slots of container
        `ci`: each occupied slot records its process's current state and the
        process is forced to `s`. */
    method ForceMembers(ci: int, s: ProcState)
      requires 0 <= ci < conts.Length && WfCont(conts[ci], procs.Length)
      modifies procs, conts
      ensures procs[..] == Forced(old(procs[..]), old(conts[ci]), s)
      ensures conts[..] == old(conts[..])[ci := old(conts[ci]).(saveState := Snapshot(old(procs[..]), old(conts[ci]), s))]
    {
      ghost var ps0, cs0 := procs[..], conts[..];
      ghost var c0 := conts[ci];
      SavedBelowEnds(ps0, c0, s);
      var i := 0;
      while i < conts[ci].totalProc
        invariant 0 <= i <= c0.totalProc
        invariant conts[..] == cs0[ci := c0.(saveState := SavedBelow(ps0, c0, s, i))]
        invariant procs[..] == ForcedBelow(ps0, c0, s, i)
      {
        var p := conts[ci].inner[i];
        ForcedBelowStep(ps0, c0, s, i);
        SavedBelowStep(ps0, c0, s, i);
        if p != NIL {
          conts[ci] := conts[ci].(saveState := conts[ci].saveState[i := procs[p].state]);
          procs[p] := procs[p].(state := s);
        }
        i := i + 1;
      }
      assert procs[..] == Forced(ps0, c0, s);
    }

    /** cpause(cid): every member is put to sleep after its state is saved. */
    method CPause(cid: int) returns (r: int)
      requires Valid()
      modifies procs, conts
      ensures Valid()
      ensures (r, State()) == PauseOp(old(State()), cid)
    {
      ghost var m := State();
      var ci := FindCont(cid);
      if ci == NIL {
        return -1;
      }
      assert WfCont(conts[ci], procs.Length);
      ForceMembers(ci, Sleeping);
      conts[ci] := conts[ci].(awake := false);
      assert State() == PauseOp(m, cid).1;
      return 0;
    }

    /** cresume(cid): every member is made Runnable; the saved states are
        overwritten, not read. */
    method CResume(cid: int) returns (r: int)
      requires Valid()
      modifies procs, conts
      ensures Valid()
      ensures (r, State()) == ResumeOp(old(State()), cid)
    {
      ghost var m := State();
      var ci := FindCont(cid);
      if ci == NIL {
        return -1;
      }
      assert WfCont(conts[ci], procs.Length);
      ForceMembers(ci, Runnable);
      conts[ci] := conts[ci].(awake := true);
      assert State() == ResumeOp(m, cid).1;
      return 1;
    }

    /** One iteration of kill_cont's loop: when slot `i` of container `ci`
        is occupied, process `cur` kills the pid it references. */
    method KillSlot(cur: int, ci: int, i: int)
      requires Valid() && 0 <= cur < procs.Length && 0 <= ci < conts.Length && 0 <= i < conts[ci].totalProc
      modifies procs, conts
      ensures Valid()
      ensures procs[cur].cont == old(procs[cur].cont) && conts[ci].totalProc == old(conts[ci].totalProc)
      ensures KillSweep(procs[..], conts[..], procs[cur].cont, ci, i + 1) ==
              KillSweep(old(procs[..]), old(conts[..]), procs[cur].cont, ci, i)
    {
      ghost var m := State();
      assert WfCont(conts[ci], procs.Length) && WfProc(procs[cur], procs.Length, conts.Length);
      var p := conts[ci].inner[i];
      if p != NIL {
        var killed := Kill(cur, procs[p].pid);
        assert OnlyCleared(m.conts[ci], conts[ci]);
      }
    }

    /** kill_cont's loop over the member slots of container `ci`. */
    method KillMembers(cur: int, ci: int)
      requires Valid() && 0 <= cur < procs.Length && 0 <= ci < conts.Length
      modifies procs, conts
      ensures Valid()
      ensures (procs[..], conts[..]) ==
        KillSweep(old(procs[..]), old(conts[..]), old(procs[cur].cont), ci, 0)
    {
      ghost var ps0, cs0 := procs[..], conts[..];
      ghost var cc := procs[cur].cont;
      assert WfProc(procs[cur], procs.Length, conts.Length);
      var i := 0;
      while i < conts[ci].totalProc
        invariant Valid()
        invariant 0 <= i <= conts[ci].totalProc && conts[ci].totalProc == cs0[ci].totalProc
        invariant procs[cur].cont == cc
        invariant KillSweep(procs[..], conts[..], cc, ci, i) == KillSweep(ps0, cs0, cc, ci, 0)
      {
        KillSlot(cur, ci, i);
        i := i + 1;
      }
    }

    /** kill_cont(cid) by process `cur`: kills the pid of every occupied
        member slot, then retires the container entry. */
    method KillCont(cur: int, cid: int) returns (r: int)
      requires Valid() && 0 <= cur < procs.Length
      modifies procs, conts
      ensures Valid()
      ensures (r, State()) == ContKilledOp(old(State()), cur, cid)
    {
      ghost var m := State();
      var ci := FindCont(cid);
      if ci == NIL {
        return -1;
      }
      assert ci == ContFrom(m.conts, cid, 0);
      KillMembers(cur, ci);
      ghost var ps, cs := procs[..], conts[..];
      conts[ci] := Retired(conts[ci]);
      ContKilledUnfold(m, cur, cid, ps, cs);
      assert conts[..] == cs[ci := Retired(cs[ci])];
      return 0;
    }

    /** growproc(n) by process `cur`; `vmSz` is what allocuvm or deallocuvm
        returned (0 for failure). A container flagged for killing is killed. */
    method GrowProc(cur: int, n: int, vmSz: int) returns (r: int)
      requires Valid() && 0 <= cur < procs.Length
      modifies procs, conts
      ensures Valid()
      ensures (r, State()) == GrowOp(old(State()), cur, n, vmSz)
    {
      ghost var m := State();
      var sz := procs[cur].sz;
      if n > 0 {
        if vmSz == 0 {
          return -1;
        }
        sz := vmSz;
      } else if n < 0 {
        if vmSz == 0 {
          return -1;
        }
        sz := vmSz;
      }
      procs[cur] := procs[cur].(sz := sz);
      KeepsTablesSamePids(m.procs, procs[..], m.conts, m.nextpid, m.nextCid);
      var cc := procs[cur].cont;
      assert WfProc(m.procs[cur], procs.Length, conts.Length);
      if cc != NIL && conts[cc].tokill {
        var killed := KillCont(cur, conts[cc].cid);
      }
      return 0;
    }

    /** total_used_disk: sets the global used_disk. */
    method TotalUsedDisk(v: int) returns (r: int)
      modifies this`usedDisk
      ensures usedDisk == v && r == 1
    {
      usedDisk := v;
      return 1;
    }
  }
}
