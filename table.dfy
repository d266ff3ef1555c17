// The process and container tables of proc.c seen as values: the linear
// scans, the invariants the tables keep, and one function per table update
// stating its effect. The class in kernel.dfy performs these updates in
// place and is proved against the functions here.

module ProcTable {
  import opened ProcTypes

  // ---------------------------------------------------------------------
  // Linear scans
  // ---------------------------------------------------------------------

  /** The first Unused entry at or after `from`, or NIL (allocproc, callocproc). */
  function UnusedFrom(ps: seq<Proc>, from: nat): (k: int)
    requires from <= |ps|
    ensures k == NIL || (from <= k < |ps| && ps[k].state == Unused)
    ensures forall j :: from <= j < |ps| && (k == NIL || j < k) ==> ps[j].state != Unused
    decreases |ps| - from
  {
    if from == |ps| then NIL
    else if ps[from].state == Unused then from
    else UnusedFrom(ps, from + 1)
  }

  /** The first entry, in any state, whose pid is `pid` (the root-caller scan of kill). */
  function PidFrom(ps: seq<Proc>, pid: int, from: nat): (k: int)
    requires from <= |ps|
    ensures k == NIL || (from <= k < |ps| && ps[k].pid == pid)
    ensures forall j :: from <= j < |ps| && (k == NIL || j < k) ==> ps[j].pid != pid
    decreases |ps| - from
  {
    if from == |ps| then NIL
    else if ps[from].pid == pid then from
    else PidFrom(ps, pid, from + 1)
  }

  /** The first Zombie child of `cur` (the reaping scan of wait). */
  function ZombieChildFrom(ps: seq<Proc>, cur: int, from: nat): (k: int)
    requires from <= |ps|
    ensures k == NIL || (from <= k < |ps| && ps[k].parent == cur && ps[k].state == Zombie)
    ensures forall j :: from <= j < |ps| && (k == NIL || j < k) ==>
              !(ps[j].parent == cur && ps[j].state == Zombie)
    decreases |ps| - from
  {
    if from == |ps| then NIL
    else if ps[from].parent == cur && ps[from].state == Zombie then from
    else ZombieChildFrom(ps, cur, from + 1)
  }

  /** The first container slot whose cid is `cid` (find_cont and the lookup of cfork). */
  function ContFrom(cs: seq<Container>, cid: int, from: nat): (c: int)
    requires from <= |cs|
    ensures c == NIL || (from <= c < |cs| && cs[c].cid == cid)
    ensures forall j :: from <= j < |cs| && (c == NIL || j < c) ==> cs[j].cid != cid
    decreases |cs| - from
  {
    if from == |cs| then NIL
    else if cs[from].cid == cid then from
    else ContFrom(cs, cid, from + 1)
  }

  /** The first empty member slot below total_proc (next_free). */
  function FreeSlotFrom(c: Container, from: nat): (i: int)
    requires from <= c.totalProc <= |c.inner|
    ensures i == NIL || (from <= i < c.totalProc && c.inner[i] == NIL)
    ensures forall j :: from <= j < c.totalProc && (i == NIL || j < i) ==> c.inner[j] != NIL
    decreases c.totalProc - from
  {
    if from == c.totalProc then NIL
    else if c.inner[from] == NIL then from
    else FreeSlotFrom(c, from + 1)
  }

  /** The first occupied member slot below total_proc whose process has pid
      `pid` (the slot scans of wait and of kill from a contained caller). */
  function SlotWithPidFrom(ps: seq<Proc>, c: Container, pid: int, from: nat): (i: int)
    requires WfCont(c, |ps|) && from <= c.totalProc
    ensures i == NIL || (from <= i < c.totalProc && c.inner[i] != NIL && ps[c.inner[i]].pid == pid)
    ensures forall j :: from <= j < c.totalProc && (i == NIL || j < i) ==>
              !(c.inner[j] != NIL && ps[c.inner[j]].pid == pid)
    decreases c.totalProc - from
  {
    if from == c.totalProc then NIL
    else if c.inner[from] != NIL && ps[c.inner[from]].pid == pid then from
    else SlotWithPidFrom(ps, c, pid, from + 1)
  }

  /** The processes referenced by the occupied slots below `upto`. */
  function MembersBelow(c: Container, upto: int): set<int>
  {
    set i | 0 <= i < upto && i < |c.inner| && c.inner[i] != NIL :: c.inner[i]
  }

  /** The processes a container's scans reach: its occupied slots below total_proc. */
  function Members(c: Container): set<int>
  {
    MembersBelow(c, c.totalProc)
  }

  /** Some container slot, active or not, is bound to console `vc`. */
  predicate ConsoleTaken(cs: seq<Container>, vc: int)
  {
    exists c :: 0 <= c < |cs| && cs[c].vcNode == vc
  }

  // ---------------------------------------------------------------------
  // Invariants of the two tables
  // ---------------------------------------------------------------------

  /** Every link of every entry stays inside the tables. */
  ghost predicate Linked(ps: seq<Proc>, cs: seq<Container>)
  {
    && (forall k :: 0 <= k < |ps| ==> WfProc(ps[k], |ps|, |cs|))
    && (forall c :: 0 <= c < |cs| ==> WfCont(cs[c], |ps|))
  }

  /** Every pid was issued from `nextpid`, which only increases. */
  ghost predicate PidsIssued(ps: seq<Proc>, nextpid: int)
  {
    1 <= nextpid && forall k :: 0 <= k < |ps| ==> 0 <= ps[k].pid < nextpid
  }

  /** No two entries share a nonzero pid. */
  ghost predicate PidsDistinct(ps: seq<Proc>)
  {
    forall j, k :: 0 <= j < |ps| && 0 <= k < |ps| && j != k && ps[j].pid != 0 ==> ps[j].pid != ps[k].pid
  }

  /** No two Unused-free entries share a pid. */
  ghost predicate LivePidsUnique(ps: seq<Proc>)
  {
    forall j, k :: 0 <= j < |ps| && 0 <= k < |ps| && j != k && ps[j].state != Unused && ps[k].state != Unused ==>
      ps[j].pid != ps[k].pid
  }

  /** Every cid was issued from `nextCid`, which only increases. */
  ghost predicate CidsIssued(cs: seq<Container>, nextCid: int)
  {
    0 <= nextCid && forall c :: 0 <= c < |cs| ==> 0 <= cs[c].cid <= nextCid
  }

  /** No two active containers share a cid. */
  ghost predicate CidsDistinct(cs: seq<Container>)
  {
    forall a, b :: 0 <= a < |cs| && 0 <= b < |cs| && a != b && cs[a].cid != 0 ==> cs[a].cid != cs[b].cid
  }

  /** A slot is bound to a console exactly when it is active, and no two
      active containers share a console. */
  ghost predicate ConsolesBound(cs: seq<Container>)
  {
    && (forall c :: 0 <= c < |cs| ==> (cs[c].cid == 0 <==> cs[c].vcNode == 0))
    && (forall a, b :: 0 <= a < |cs| && 0 <= b < |cs| && a != b && cs[a].cid != 0 && cs[b].cid != 0 ==>
          cs[a].vcNode != cs[b].vcNode)
  }

  /** The invariant the kernel keeps over its two tables and two counters. */
  ghost predicate TablesOk(ps: seq<Proc>, cs: seq<Container>, nextpid: int, nextCid: int)
  {
    && DefaultProcQuota <= |ps|
    && Linked(ps, cs)
    && PidsIssued(ps, nextpid)
    && PidsDistinct(ps)
    && CidsIssued(cs, nextCid)
    && CidsDistinct(cs)
    && ConsolesBound(cs)
  }

  /** The pid form the kernel keeps implies uniqueness among live entries
      as long as no live entry carries the cleared pid 0. */
  lemma LivePidsUniqueWhenNonzero(ps: seq<Proc>)
    requires PidsDistinct(ps)
    requires forall k :: 0 <= k < |ps| && ps[k].state != Unused ==> ps[k].pid != 0
    ensures LivePidsUnique(ps)
  {
  }

  /** An update that keeps every pid and keeps links in range keeps the invariant. */
  lemma KeepsTablesSamePids(ps: seq<Proc>, ps': seq<Proc>, cs: seq<Container>, np: int, nc: int)
    requires TablesOk(ps, cs, np, nc) && |ps'| == |ps|
    requires forall k :: 0 <= k < |ps| ==> ps'[k].pid == ps[k].pid && WfProc(ps'[k], |ps|, |cs|)
    ensures TablesOk(ps', cs, np, nc)
  {
    assert forall c :: 0 <= c < |cs| ==> WfCont(cs[c], |ps'|);
  }

  /** An update of the container table that keeps every cid and console and
      keeps the slots well formed keeps the invariant. */
  lemma KeepsTablesSameIds(ps: seq<Proc>, cs: seq<Container>, cs': seq<Container>, np: int, nc: int)
    requires TablesOk(ps, cs, np, nc) && |cs'| == |cs|
    requires forall c :: 0 <= c < |cs| ==>
               cs'[c].cid == cs[c].cid && cs'[c].vcNode == cs[c].vcNode && WfCont(cs'[c], |ps|)
    ensures TablesOk(ps, cs', np, nc)
  {
    assert forall k :: 0 <= k < |ps| ==> WfProc(ps[k], |ps|, |cs'|);
  }

  // ---------------------------------------------------------------------
  // Scheduling transitions: wakeup1, sleep, yield
  // ---------------------------------------------------------------------

  /** The wait channel of a process pointer: process index p is channel p + 1,
      so the null pointer (NIL) is channel 0. */
  function ChanOf(p: int): int
  {
    p + 1
  }

  function Wake(p: Proc, chan: int): Proc
  {
    if p.state == Sleeping && p.chan == chan then p.(state := Runnable) else p
  }

  /** The table after wakeup1(chan). */
  function Woken(ps: seq<Proc>, chan: int): (r: seq<Proc>)
    ensures |r| == |ps|
  {
    seq(|ps|, k requires 0 <= k < |ps| => Wake(ps[k], chan))
  }

  /** The entry after sleep(chan) has recorded its channel. */
  function Slept(p: Proc, chan: int): Proc
  {
    p.(chan := chan, state := Sleeping)
  }

  /** wakeup1 changes exactly the Sleeping entries on `chan`, each to Runnable
      and in nothing but its state. */
  lemma WakeupExactly(ps: seq<Proc>, chan: int)
    ensures forall k :: 0 <= k < |ps| ==>
      (Woken(ps, chan)[k] != ps[k] <==> ps[k].state == Sleeping && ps[k].chan == chan)
    ensures forall k :: 0 <= k < |ps| && ps[k].state == Sleeping && ps[k].chan == chan ==>
      Woken(ps, chan)[k] == ps[k].(state := Runnable)
  {
  }

  /** wakeup1 on a channel nobody sleeps on leaves the table as it was. */
  lemma WakeupNoOp(ps: seq<Proc>, chan: int)
    requires forall k :: 0 <= k < |ps| ==> !(ps[k].state == Sleeping && ps[k].chan == chan)
    ensures Woken(ps, chan) == ps
  {
    assert forall k :: 0 <= k < |ps| ==> Woken(ps, chan)[k] == ps[k];
  }

  /** A process that records channel `chan` in sleep is made Runnable by the
      next wakeup on `chan`: no wakeup is lost. */
  lemma SleepThenWakeup(ps: seq<Proc>, p: int, chan: int)
    requires 0 <= p < |ps|
    ensures Woken(ps[p := Slept(ps[p], chan)], chan)[p] == ps[p].(chan := chan, state := Runnable)
  {
  }

  lemma WokenKeepsTables(ps: seq<Proc>, cs: seq<Container>, chan: int, np: int, nc: int)
    requires TablesOk(ps, cs, np, nc)
    ensures TablesOk(Woken(ps, chan), cs, np, nc)
  {
    KeepsTablesSamePids(ps, Woken(ps, chan), cs, np, nc);
  }

  /** A state change of one entry keeps the invariant. */
  lemma SetStateKeepsTables(ps: seq<Proc>, cs: seq<Container>, p: int, chan: int, s: ProcState, np: int, nc: int)
    requires TablesOk(ps, cs, np, nc) && 0 <= p < |ps|
    ensures TablesOk(ps[p := ps[p].(chan := chan, state := s)], cs, np, nc)
  {
    KeepsTablesSamePids(ps, ps[p := ps[p].(chan := chan, state := s)], cs, np, nc);
  }

  // ---------------------------------------------------------------------
  // exit
  // ---------------------------------------------------------------------

  /** The table with every child of `cur` handed to `init`. */
  function Reparented(ps: seq<Proc>, cur: int, init: int): (r: seq<Proc>)
    ensures |r| == |ps|
  {
    seq(|ps|, k requires 0 <= k < |ps| => if ps[k].parent == cur then ps[k].(parent := init) else ps[k])
  }

  predicate HasZombieChild(ps: seq<Proc>, cur: int)
  {
    exists k :: 0 <= k < |ps| && ps[k].parent == cur && ps[k].state == Zombie
  }

  predicate HasChild(ps: seq<Proc>, cur: int)
  {
    exists k :: 0 <= k < |ps| && ps[k].parent == cur
  }

  /** The table after exit() of `cur`, up to the switch into the scheduler:
      the parent's channel is woken, the children are handed to `init` (whose
      channel is woken when one of them is a Zombie), and `cur` is a Zombie. */
  function Exited(ps: seq<Proc>, cur: int, init: int): (r: seq<Proc>)
    requires 0 <= cur < |ps|
    ensures |r| == |ps|
  {
    var w := Woken(ps, ChanOf(ps[cur].parent));
    var h := Reparented(w, cur, init);
    var z := if HasZombieChild(ps, cur) then Woken(h, ChanOf(init)) else h;
    z[cur := z[cur].(state := Zombie)]
  }

  /** After exit, `cur` is a Zombie, no entry but `init` names `cur` as parent
      any more, every former child of `cur` has parent `init`, and no pid, no
      container link and no other parent changes. */
  lemma ExitReparents(ps: seq<Proc>, cur: int, init: int)
    requires 0 <= cur < |ps| && cur != init
    ensures Exited(ps, cur, init)[cur].state == Zombie
    ensures forall k :: 0 <= k < |ps| ==> Exited(ps, cur, init)[k].parent != cur
    ensures forall k :: 0 <= k < |ps| ==>
      Exited(ps, cur, init)[k].parent == (if ps[k].parent == cur then init else ps[k].parent)
    ensures forall k :: 0 <= k < |ps| ==>
      Exited(ps, cur, init)[k].pid == ps[k].pid && Exited(ps, cur, init)[k].cont == ps[k].cont
  {
  }

  /** A parent blocked in wait (asleep on its own channel) is made Runnable
      by the exit of its child. */
  lemma ExitWakesWaitingParent(ps: seq<Proc>, cur: int, init: int)
    requires 0 <= cur < |ps| && 0 <= ps[cur].parent < |ps| && ps[cur].parent != cur
    requires ps[ps[cur].parent].state == Sleeping && ps[ps[cur].parent].chan == ChanOf(ps[cur].parent)
    ensures Exited(ps, cur, init)[ps[cur].parent].state == Runnable
  {
    var q := ps[cur].parent;
    var w := Woken(ps, ChanOf(q));
    assert w[q].state == Runnable;
    var h := Reparented(w, cur, init);
    assert h[q].state == Runnable;
  }

  /** When `cur` hands a Zombie child to `init`, an `init` blocked in wait is
      made Runnable so that it reaps it. */
  lemma ExitWakesInitForZombies(ps: seq<Proc>, cur: int, init: int)
    requires 0 <= cur < |ps| && 0 <= init < |ps| && init != cur
    requires HasZombieChild(ps, cur)
    requires ps[init].state == Sleeping && ps[init].chan == ChanOf(init)
    ensures Exited(ps, cur, init)[init].state == Runnable
  {
    var w := Woken(ps, ChanOf(ps[cur].parent));
    var h := Reparented(w, cur, init);
    assert h[init].state == Sleeping || h[init].state == Runnable;
    assert Woken(h, ChanOf(init))[init].state == Runnable;
  }

  lemma ExitKeepsTables(ps: seq<Proc>, cs: seq<Container>, cur: int, init: int, np: int, nc: int)
    requires TablesOk(ps, cs, np, nc) && 0 <= cur < |ps| && 0 <= init < |ps|
    ensures TablesOk(Exited(ps, cur, init), cs, np, nc)
  {
    var r := Exited(ps, cur, init);
    forall k | 0 <= k < |ps|
      ensures r[k].pid == ps[k].pid && WfProc(r[k], |ps|, |cs|)
    {
      assert WfProc(ps[k], |ps|, |cs|);
    }
    KeepsTablesSamePids(ps, r, cs, np, nc);
  }

  // ---------------------------------------------------------------------
  // wait
  // ---------------------------------------------------------------------

  /** The entry after wait has reaped it. */
  function Reset(p: Proc): Proc
  {
    p.(kstack := false, pid := 0, parent := NIL, killed := false, state := Unused)
  }

  /** The container table after clearing the first slot of container `cc`
      that holds a process with pid `pid` (nothing when `cc` is NIL). */
  function Unlinked(ps: seq<Proc>, cs: seq<Container>, cc: int, pid: int): (r: seq<Container>)
    requires Linked(ps, cs) && IsRef(cc, |cs|)
    ensures |r| == |cs|
  {
    if cc == NIL then cs
    else
      var i := SlotWithPidFrom(ps, cs[cc], pid, 0);
      if i == NIL then cs else cs[cc := cs[cc].(inner := cs[cc].inner[i := NIL])]
  }

  /** A reaped child leaves the table for good: a parent whose only child was
      the reaped one has no child left, so its next wait returns -1. */
  lemma ReapOnlyChild(ps: seq<Proc>, cur: int, z: int)
    requires 0 <= z < |ps| && 0 <= cur
    requires forall k :: 0 <= k < |ps| && ps[k].parent == cur ==> k == z
    ensures !HasChild(ps[z := Reset(ps[z])], cur)
    ensures ZombieChildFrom(ps[z := Reset(ps[z])], cur, 0) == NIL
  {
  }

  /** The child's container slot that held the reaped pid is empty afterwards,
      and when the child held only that one slot no slot of its container
      below total_proc references it any more. */
  lemma ReapUnlinksChild(ps: seq<Proc>, cs: seq<Container>, z: int, i: int)
    requires Linked(ps, cs) && PidsDistinct(ps)
    requires 0 <= z < |ps| && ps[z].pid != 0 && ps[z].cont != NIL
    requires 0 <= i < cs[ps[z].cont].totalProc && cs[ps[z].cont].inner[i] == z
    requires forall j :: 0 <= j < cs[ps[z].cont].totalProc && cs[ps[z].cont].inner[j] == z ==> j == i
    ensures z !in Members(Unlinked(ps, cs, ps[z].cont, ps[z].pid)[ps[z].cont])
  {
    var cc := ps[z].cont;
    var c := cs[cc];
    var s := SlotWithPidFrom(ps, c, ps[z].pid, 0);
    assert s != NIL;
    assert c.inner[s] == z;
    assert s == i;
    var c' := Unlinked(ps, cs, cc, ps[z].pid)[cc];
    assert c'.inner == c.inner[i := NIL];
    assert forall j :: 0 <= j < c'.totalProc ==> c'.inner[j] != z;
  }

  lemma ReapKeepsTables(ps: seq<Proc>, cs: seq<Container>, z: int, cc: int, np: int, nc: int)
    requires TablesOk(ps, cs, np, nc) && 0 <= z < |ps| && IsRef(cc, |cs|)
    ensures TablesOk(ps[z := Reset(ps[z])], Unlinked(ps, cs, cc, ps[z].pid), np, nc)
  {
    var cs' := Unlinked(ps, cs, cc, ps[z].pid);
    forall c | 0 <= c < |cs|
      ensures cs'[c].cid == cs[c].cid && cs'[c].vcNode == cs[c].vcNode && WfCont(cs'[c], |ps|)
    {
      assert WfCont(cs[c], |ps|);
    }
    KeepsTablesSameIds(ps, cs, cs', np, nc);
    var ps' := ps[z := Reset(ps[z])];
    assert Linked(ps', cs') by {
      forall k | 0 <= k < |ps'| ensures WfProc(ps'[k], |ps'|, |cs'|) {
        assert WfProc(ps[k], |ps|, |cs|);
      }
    }
  }

  // ---------------------------------------------------------------------
  // kill
  // ---------------------------------------------------------------------

  /** The entry after kill: marked killed, and woken if it was Sleeping. */
  function Killed(p: Proc): Proc
  {
    p.(killed := true, state := if p.state == Sleeping then Runnable else p.state)
  }

  /** Container `c` with every slot below total_proc whose process has pid `pid` cleared. */
  function ClearPid(ps: seq<Proc>, c: Container, pid: int): (r: Container)
    requires WfCont(c, |ps|)
    ensures WfCont(r, |ps|)
  {
    c.(inner := seq(|c.inner|, i requires 0 <= i < |c.inner| =>
      if i < c.totalProc && c.inner[i] != NIL && ps[c.inner[i]].pid == pid then NIL else c.inner[i]))
  }

  /** The entry kill(pid) marks, for a caller in container `cc` (NIL: the
      root domain), or NIL when nothing matches. */
  function KillTarget(ps: seq<Proc>, cs: seq<Container>, cc: int, pid: int): (t: int)
    requires Linked(ps, cs) && IsRef(cc, |cs|)
    ensures t == NIL || 0 <= t < |ps|
  {
    if cc == NIL then PidFrom(ps, pid, 0)
    else
      var i := SlotWithPidFrom(ps, cs[cc], pid, 0);
      if i == NIL then NIL else cs[cc].inner[i]
  }

  /** The process table after kill(pid). */
  function KillProcs(ps: seq<Proc>, cs: seq<Container>, cc: int, pid: int): (r: seq<Proc>)
    requires Linked(ps, cs) && IsRef(cc, |cs|)
    ensures KillStepProcs(ps, r)
  {
    var t := KillTarget(ps, cs, cc, pid);
    if t == NIL then ps else ps[t := Killed(ps[t])]
  }

  /** The container table after kill(pid): a root caller clears every slot of
      the target's container holding the pid, a contained caller the slot of
      its own container where the target was found. */
  function KillConts(ps: seq<Proc>, cs: seq<Container>, cc: int, pid: int): (r: seq<Container>)
    requires Linked(ps, cs) && IsRef(cc, |cs|)
    ensures KillStepConts(cs, r)
  {
    if cc == NIL then
      var t := PidFrom(ps, pid, 0);
      if t == NIL || ps[t].cont == NIL then cs
      else cs[ps[t].cont := ClearPid(ps, cs[ps[t].cont], pid)]
    else
      var i := SlotWithPidFrom(ps, cs[cc], pid, 0);
      if i == NIL then cs else cs[cc := cs[cc].(inner := cs[cc].inner[i := NIL])]
  }

  /** kill from a root caller finds a process exactly when some entry has
      that pid; the target is marked killed and is not left Sleeping. */
  lemma RootKillFinds(ps: seq<Proc>, cs: seq<Container>, pid: int)
    requires Linked(ps, cs)
    ensures KillTarget(ps, cs, NIL, pid) != NIL <==> exists k :: 0 <= k < |ps| && ps[k].pid == pid
    ensures KillTarget(ps, cs, NIL, pid) != NIL ==>
      var t := KillTarget(ps, cs, NIL, pid);
      KillProcs(ps, cs, NIL, pid)[t].killed && KillProcs(ps, cs, NIL, pid)[t].state != Sleeping
  {
  }

  /** A root kill of a container member (pid nonzero) unlinks it: no slot of
      its container below total_proc references it afterwards. */
  lemma RootKillUnlinks(ps: seq<Proc>, cs: seq<Container>, t: int)
    requires Linked(ps, cs) && PidsDistinct(ps)
    requires 0 <= t < |ps| && ps[t].pid != 0 && ps[t].cont != NIL
    ensures KillTarget(ps, cs, NIL, ps[t].pid) == t
    ensures t !in Members(KillConts(ps, cs, NIL, ps[t].pid)[ps[t].cont])
  {
    var pid := ps[t].pid;
    var k := PidFrom(ps, pid, 0);
    assert k == t;
    var c' := KillConts(ps, cs, NIL, pid)[ps[t].cont];
    assert forall j :: 0 <= j < c'.totalProc ==> c'.inner[j] != t;
  }

  /** kill from a contained caller is confined to its own container: it
      marks at most one process, a member of that container, and changes no
      other container. */
  lemma ContainedKillConfined(ps: seq<Proc>, cs: seq<Container>, cc: int, pid: int)
    requires Linked(ps, cs) && 0 <= cc < |cs|
    ensures forall k :: 0 <= k < |ps| && KillProcs(ps, cs, cc, pid)[k] != ps[k] ==> k in Members(cs[cc])
    ensures forall c :: 0 <= c < |cs| && c != cc ==> KillConts(ps, cs, cc, pid)[c] == cs[c]
    ensures KillTarget(ps, cs, cc, pid) != NIL <==>
      exists k :: k in Members(cs[cc]) && ps[k].pid == pid
  {
    var i := SlotWithPidFrom(ps, cs[cc], pid, 0);
    if i != NIL {
      assert cs[cc].inner[i] in Members(cs[cc]);
    } else {
      forall k | k in Members(cs[cc]) ensures ps[k].pid != pid {
        var j :| 0 <= j < cs[cc].totalProc && j < |cs[cc].inner| && cs[cc].inner[j] != NIL && cs[cc].inner[j] == k;
      }
    }
  }

  // ---------------------------------------------------------------------
  // kill_cont: a sweep of kills over a container's member slots
  // ---------------------------------------------------------------------

  /** `ps'` differs from `ps` only in killed flags that were set and in
      Sleeping entries made Runnable. */
  ghost predicate KillStepProcs(ps: seq<Proc>, ps': seq<Proc>)
  {
    && |ps'| == |ps|
    && forall k :: 0 <= k < |ps| ==>
         && ps'[k] == ps[k].(killed := ps'[k].killed, state := ps'[k].state)
         && (ps[k].killed ==> ps'[k].killed)
         && (ps'[k].state == ps[k].state || (ps[k].state == Sleeping && ps'[k].state == Runnable))
  }

  /** Container `c'` is `c` with some member slots cleared. */
  ghost predicate OnlyCleared(c: Container, c': Container)
  {
    && c' == c.(inner := c'.inner)
    && |c'.inner| == |c.inner|
    && forall i :: 0 <= i < |c.inner| ==> c'.inner[i] == c.inner[i] || c'.inner[i] == NIL
  }

  ghost predicate KillStepConts(cs: seq<Container>, cs': seq<Container>)
  {
    |cs'| == |cs| && forall c :: 0 <= c < |cs| ==> OnlyCleared(cs[c], cs'[c])
  }

  lemma KillStepProcsTrans(ps: seq<Proc>, ps': seq<Proc>, ps'': seq<Proc>)
    requires KillStepProcs(ps, ps') && KillStepProcs(ps', ps'')
    ensures KillStepProcs(ps, ps'')
  {
  }

  lemma KillStepContsTrans(cs: seq<Container>, cs': seq<Container>, cs'': seq<Container>)
    requires KillStepConts(cs, cs') && KillStepConts(cs', cs'')
    ensures KillStepConts(cs, cs'')
  {
    forall c | 0 <= c < |cs| ensures OnlyCleared(cs[c], cs''[c]) {
      assert OnlyCleared(cs[c], cs'[c]) && OnlyCleared(cs'[c], cs''[c]);
    }
  }

  /** Kill steps keep every link in range and keep the invariant. */
  lemma KillStepKeepsTables(ps: seq<Proc>, cs: seq<Container>, ps': seq<Proc>, cs': seq<Container>, np: int, nc: int)
    requires Linked(ps, cs) && KillStepProcs(ps, ps') && KillStepConts(cs, cs')
    ensures Linked(ps', cs')
    ensures TablesOk(ps, cs, np, nc) ==> TablesOk(ps', cs', np, nc)
  {
    forall k | 0 <= k < |ps'| ensures WfProc(ps'[k], |ps'|, |cs'|) {
      assert WfProc(ps[k], |ps|, |cs|);
    }
    forall c | 0 <= c < |cs'| ensures WfCont(cs'[c], |ps'|) {
      assert WfCont(cs[c], |ps|) && OnlyCleared(cs[c], cs'[c]);
    }
  }

  /** The tables after kill_cont's loop over the member slots of container
      `ci` from slot `from` on: each occupied slot's pid is killed by a caller
      in container `cc`. */
  function KillSweep(ps: seq<Proc>, cs: seq<Container>, cc: int, ci: int, from: nat): (r: (seq<Proc>, seq<Container>))
    requires Linked(ps, cs) && IsRef(cc, |cs|) && 0 <= ci < |cs| && from <= cs[ci].totalProc
    ensures KillStepProcs(ps, r.0) && KillStepConts(cs, r.1) && Linked(r.0, r.1)
    decreases cs[ci].totalProc - from
  {
    if from == cs[ci].totalProc then (ps, cs)
    else if cs[ci].inner[from] == NIL then KillSweep(ps, cs, cc, ci, from + 1)
    else
      var pid := ps[cs[ci].inner[from]].pid;
      var ps', cs' := KillProcs(ps, cs, cc, pid), KillConts(ps, cs, cc, pid);
      KillStepKeepsTables(ps, cs, ps', cs', 0, 0);
      var r := KillSweep(ps', cs', cc, ci, from + 1);
      KillStepProcsTrans(ps, ps', r.0);
      KillStepContsTrans(cs, cs', r.1);
      r
  }

  /** Every member of `c0` with a nonzero pid whose slot lies below `upto`,
      or whose slot has been cleared since, is killed and not Sleeping in `ps`. */
  ghost predicate MembersKilledBelow(ps0: seq<Proc>, c0: Container, ps: seq<Proc>, c: Container, upto: int)
    requires WfCont(c0, |ps0|) && |ps| == |ps0| && |c.inner| == |c0.inner|
  {
    forall j ::
      (0 <= j < c0.totalProc && c0.inner[j] != NIL && ps0[c0.inner[j]].pid != 0 &&
       (j < upto || c.inner[j] == NIL)) ==>
        ps[c0.inner[j]].killed && ps[c0.inner[j]].state != Sleeping
  }

  /** Every member of `c0` with a nonzero pid is killed and not Sleeping in `ps`. */
  ghost predicate MembersKilled(ps0: seq<Proc>, c0: Container, ps: seq<Proc>)
    requires WfCont(c0, |ps0|) && |ps| == |ps0|
  {
    forall j :: 0 <= j < c0.totalProc && c0.inner[j] != NIL && ps0[c0.inner[j]].pid != 0 ==>
      ps[c0.inner[j]].killed && ps[c0.inner[j]].state != Sleeping
  }

  /** kill(pid) with pid the (nonzero) pid of the process in slot `i` of
      container `ci`, from a root caller or a caller inside `ci`, kills that
      process; and every slot of `ci` it clears held a process with that pid. */
  lemma KillHitsMember(ps: seq<Proc>, cs: seq<Container>, cc: int, ci: int, i: int)
    requires Linked(ps, cs) && PidsDistinct(ps)
    requires 0 <= ci < |cs| && (cc == NIL || cc == ci)
    requires 0 <= i < cs[ci].totalProc && cs[ci].inner[i] != NIL
    ensures var e := cs[ci].inner[i]; var pid := ps[e].pid;
      pid != 0 ==> KillProcs(ps, cs, cc, pid)[e].killed && KillProcs(ps, cs, cc, pid)[e].state != Sleeping
    ensures var e := cs[ci].inner[i]; var pid := ps[e].pid;
      forall j :: 0 <= j < |cs[ci].inner| && KillConts(ps, cs, cc, pid)[ci].inner[j] == NIL && cs[ci].inner[j] != NIL ==>
        ps[cs[ci].inner[j]].pid == pid
  {
    var e := cs[ci].inner[i];
    var pid := ps[e].pid;
    assert WfCont(cs[ci], |ps|);
    if cc == NIL {
      var t := PidFrom(ps, pid, 0);
      assert t != NIL;
      if pid != 0 {
        assert t == e;
      }
      if ps[t].cont != NIL {
        assert WfCont(cs[ps[t].cont], |ps|);
      }
    } else {
      var s := SlotWithPidFrom(ps, cs[cc], pid, 0);
      assert s != NIL;
      if pid != 0 {
        assert cs[cc].inner[s] == e;
      }
    }
  }

  /** The sweep at an occupied slot is that slot's kill followed by the rest of the sweep. */
  lemma SweepUnfold(ps: seq<Proc>, cs: seq<Container>, cc: int, ci: int, from: nat)
    requires Linked(ps, cs) && IsRef(cc, |cs|) && 0 <= ci < |cs| && from < cs[ci].totalProc
    requires cs[ci].inner[from] != NIL
    ensures var pid := ps[cs[ci].inner[from]].pid;
      var ps', cs' := KillProcs(ps, cs, cc, pid), KillConts(ps, cs, cc, pid);
      Linked(ps', cs') && cs'[ci].totalProc == cs[ci].totalProc &&
      KillSweep(ps, cs, cc, ci, from) == KillSweep(ps', cs', cc, ci, from + 1)
  {
    var pid := ps[cs[ci].inner[from]].pid;
    var ps', cs' := KillProcs(ps, cs, cc, pid), KillConts(ps, cs, cc, pid);
    KillStepKeepsTables(ps, cs, ps', cs', 0, 0);
    assert OnlyCleared(cs[ci], cs'[ci]);
  }

  /** One step of the sweep at an occupied slot `from` extends what the
      slots before it achieved to that slot. */
  lemma SweepStepKills(ps0: seq<Proc>, c0: Container, ps: seq<Proc>, cs: seq<Container>,
                       cc: int, ci: int, from: nat)
    requires Linked(ps, cs) && PidsDistinct(ps0) && WfCont(c0, |ps0|)
    requires 0 <= ci < |cs| && (cc == NIL || cc == ci) && from < cs[ci].totalProc && cs[ci].inner[from] != NIL
    requires KillStepProcs(ps0, ps) && OnlyCleared(c0, cs[ci])
    requires MembersKilledBelow(ps0, c0, ps, cs[ci], from)
    ensures var pid := ps[cs[ci].inner[from]].pid;
      var ps', cs' := KillProcs(ps, cs, cc, pid), KillConts(ps, cs, cc, pid);
      && Linked(ps', cs') && KillStepProcs(ps0, ps') && OnlyCleared(c0, cs'[ci])
      && MembersKilledBelow(ps0, c0, ps', cs'[ci], from + 1)
  {
    var e := cs[ci].inner[from];
    var pid := ps[e].pid;
    var ps', cs' := KillProcs(ps, cs, cc, pid), KillConts(ps, cs, cc, pid);
    assert PidsDistinct(ps);
    KillHitsMember(ps, cs, cc, ci, from);
    KillStepKeepsTables(ps, cs, ps', cs', 0, 0);
    KillStepProcsTrans(ps0, ps, ps');
    assert OnlyCleared(cs[ci], cs'[ci]);
    assert OnlyCleared(c0, cs'[ci]);
    forall j | 0 <= j < c0.totalProc && c0.inner[j] != NIL && ps0[c0.inner[j]].pid != 0 &&
               (j < from + 1 || cs'[ci].inner[j] == NIL)
      ensures ps'[c0.inner[j]].killed && ps'[c0.inner[j]].state != Sleeping
    {
      if j < from || cs[ci].inner[j] == NIL {
      } else if j == from {
        assert c0.inner[j] == e;
      } else {
        assert cs[ci].inner[j] == c0.inner[j];
        assert ps[c0.inner[j]].pid == pid;
        assert c0.inner[j] == e;
      }
    }
  }

  /** The sweep from slot `from` on completes what the slots before it achieved. */
  lemma {:induction false} SweepKillsMembers(ps0: seq<Proc>, c0: Container, ps: seq<Proc>, cs: seq<Container>,
                                             cc: int, ci: int, from: nat)
    requires Linked(ps, cs) && PidsDistinct(ps0) && WfCont(c0, |ps0|)
    requires 0 <= ci < |cs| && (cc == NIL || cc == ci) && from <= cs[ci].totalProc
    requires KillStepProcs(ps0, ps) && OnlyCleared(c0, cs[ci])
    requires MembersKilledBelow(ps0, c0, ps, cs[ci], from)
    ensures MembersKilled(ps0, c0, KillSweep(ps, cs, cc, ci, from).0)
    decreases cs[ci].totalProc - from, 1
  {
    if from == cs[ci].totalProc {
      assert KillSweep(ps, cs, cc, ci, from).0 == ps;
    } else if cs[ci].inner[from] == NIL {
      assert MembersKilledBelow(ps0, c0, ps, cs[ci], from + 1);
      SweepKillsMembers(ps0, c0, ps, cs, cc, ci, from + 1);
    } else {
      SweepKillsFromMember(ps0, c0, ps, cs, cc, ci, from);
    }
  }

  /** The case of the induction where slot `from` is occupied: its kill
      extends what was achieved to that slot, and the rest of the sweep
      completes it. */
  lemma {:induction false} SweepKillsFromMember(ps0: seq<Proc>, c0: Container, ps: seq<Proc>, cs: seq<Container>,
                                                cc: int, ci: int, from: nat)
    requires Linked(ps, cs) && PidsDistinct(ps0) && WfCont(c0, |ps0|)
    requires 0 <= ci < |cs| && (cc == NIL || cc == ci) && from < cs[ci].totalProc && cs[ci].inner[from] != NIL
    requires KillStepProcs(ps0, ps) && OnlyCleared(c0, cs[ci])
    requires MembersKilledBelow(ps0, c0, ps, cs[ci], from)
    ensures MembersKilled(ps0, c0, KillSweep(ps, cs, cc, ci, from).0)
    decreases cs[ci].totalProc - from, 0
  {
    var pid := ps[cs[ci].inner[from]].pid;
    var ps', cs' := KillProcs(ps, cs, cc, pid), KillConts(ps, cs, cc, pid);
    SweepStepKills(ps0, c0, ps, cs, cc, ci, from);
    SweepUnfold(ps, cs, cc, ci, from);
    SweepKillsMembers(ps0, c0, ps', cs', cc, ci, from + 1);
  }

  /** kill_cont's loop, run by a root caller or by a caller inside the
      container, kills every member whose pid is nonzero: each is marked
      killed and none is left Sleeping. */
  lemma SweepKillsAllMembers(ps: seq<Proc>, cs: seq<Container>, cc: int, ci: int)
    requires Linked(ps, cs) && PidsDistinct(ps)
    requires 0 <= ci < |cs| && (cc == NIL || cc == ci)
    ensures MembersKilled(ps, cs[ci], KillSweep(ps, cs, cc, ci, 0).0)
  {
    assert WfCont(cs[ci], |ps|);
    SweepKillsMembers(ps, cs[ci], ps, cs, cc, ci, 0);
  }

  /** The container entry after kill_cont has reset it to the inactive state. */
  function Retired(c: Container): Container
  {
    c.(cid := 0, vcNode := 0, usedMem := 0, usedDisk := 0, tokill := false)
  }

  lemma RetireKeepsTables(ps: seq<Proc>, cs: seq<Container>, ci: int, np: int, nc: int)
    requires TablesOk(ps, cs, np, nc) && 0 <= ci < |cs|
    ensures TablesOk(ps, cs[ci := Retired(cs[ci])], np, nc)
  {
    var cs' := cs[ci := Retired(cs[ci])];
    assert Linked(ps, cs') by {
      assert forall k :: 0 <= k < |ps| ==> WfProc(ps[k], |ps|, |cs'|);
    }
  }

  // ---------------------------------------------------------------------
  // cpause, cresume
  // ---------------------------------------------------------------------

  /** The process table with every member of `c` forced into state `s`. */
  function Forced(ps: seq<Proc>, c: Container, s: ProcState): (r: seq<Proc>)
    ensures |r| == |ps|
  {
    seq(|ps|, k requires 0 <= k < |ps| => if k in Members(c) then ps[k].(state := s) else ps[k])
  }

  /** The saved-state table after a pass that records each member's state
      and then forces it to `s`: a slot whose process an earlier slot already
      forced records `s`. */
  function Snapshot(ps: seq<Proc>, c: Container, s: ProcState): (r: seq<ProcState>)
    requires WfCont(c, |ps|)
    ensures |r| == |c.saveState|
  {
    seq(|c.saveState|, i requires 0 <= i < |c.saveState| =>
      if i < c.totalProc && c.inner[i] != NIL then
        (if c.inner[i] in MembersBelow(c, i) then s else ps[c.inner[i]].state)
      else c.saveState[i])
  }

  /** The container after cpause. */
  function PausedCont(ps: seq<Proc>, c: Container): Container
    requires WfCont(c, |ps|)
  {
    c.(saveState := Snapshot(ps, c, Sleeping), awake := false)
  }

  /** The container after cresume. */
  function ResumedCont(ps: seq<Proc>, c: Container): Container
    requires WfCont(c, |ps|)
  {
    c.(saveState := Snapshot(ps, c, Runnable), awake := true)
  }

  /** Pausing then resuming a container leaves every member Runnable and every
      other entry as it was before the pause. */
  lemma PauseThenResume(ps: seq<Proc>, c: Container)
    ensures forall k :: 0 <= k < |ps| && k in Members(c) ==>
      Forced(Forced(ps, c, Sleeping), c, Runnable)[k] == ps[k].(state := Runnable)
    ensures forall k :: 0 <= k < |ps| && k !in Members(c) ==>
      Forced(Forced(ps, c, Sleeping), c, Runnable)[k] == ps[k]
  {
  }

  /** cresume overwrites the snapshot cpause took: right after a pause, the
      resume records Sleeping in the first slot of every member, so the states
      the members had before the pause are lost. */
  lemma ResumeOverwritesSnapshot(ps: seq<Proc>, c: Container, i: int)
    requires WfCont(c, |ps|)
    requires 0 <= i < c.totalProc && c.inner[i] != NIL && c.inner[i] !in MembersBelow(c, i)
    ensures Snapshot(Forced(ps, c, Sleeping), PausedCont(ps, c), Runnable)[i] == Sleeping
  {
    assert c.inner[i] in Members(c);
    assert MembersBelow(PausedCont(ps, c), i) == MembersBelow(c, i);
  }

  /** Each member slot's snapshot is the state its process had before the
      pass, unless an earlier slot referenced the same process. */
  lemma SnapshotRecordsState(ps: seq<Proc>, c: Container, s: ProcState, i: int)
    requires WfCont(c, |ps|)
    requires 0 <= i < c.totalProc && c.inner[i] != NIL
    ensures c.inner[i] !in MembersBelow(c, i) ==> Snapshot(ps, c, s)[i] == ps[c.inner[i]].state
    ensures c.inner[i] in MembersBelow(c, i) ==> Snapshot(ps, c, s)[i] == s
  {
  }

  lemma ForcedKeepsTables(ps: seq<Proc>, cs: seq<Container>, ci: int, s: ProcState, c': Container, np: int, nc: int)
    requires TablesOk(ps, cs, np, nc) && 0 <= ci < |cs|
    requires c' == cs[ci].(saveState := c'.saveState, awake := c'.awake) && |c'.saveState| == |ps|
    ensures TablesOk(Forced(ps, cs[ci], s), cs[ci := c'], np, nc)
  {
    var cs' := cs[ci := c'];
    assert WfCont(cs[ci], |ps|);
    KeepsTablesSameIds(ps, cs, cs', np, nc);
    KeepsTablesSamePids(ps, Forced(ps, cs[ci], s), cs', np, nc);
  }

  // ---------------------------------------------------------------------
  // allocproc, callocproc, fork, cfork
  // ---------------------------------------------------------------------

  /** The entry allocproc claims with pid `pid`: Embryo with a kernel stack
      and zero ticks, or back to Unused (keeping the pid) when no kernel stack
      could be allocated. */
  function Claimed(p: Proc, pid: int, kallocOk: bool): Proc
  {
    if kallocOk then p.(state := Embryo, pid := pid, kstack := true, ticks := 0)
    else p.(state := Unused, pid := pid, kstack := false)
  }

  /** The child entry after fork/cfork has copied the parent `par` (index
      `cur`) into it and put it in container `cont`. */
  function Child(p: Proc, par: Proc, cur: int, cont: int): Proc
  {
    p.(sz := par.sz, parent := cur, cont := cont, eax := 0, state := Runnable)
  }

  /** Container `c` with process `k` recorded in slot `i`. */
  function Recorded(c: Container, i: int, k: int): Container
    requires 0 <= i < |c.inner|
  {
    c.(inner := c.inner[i := k])
  }

  /** Claiming the first Unused entry with the next pid keeps the invariant
      and gives it a pid no other entry has. */
  lemma ClaimKeepsTables(ps: seq<Proc>, cs: seq<Container>, k: int, kallocOk: bool, np: int, nc: int)
    requires TablesOk(ps, cs, np, nc) && 0 <= k < |ps|
    ensures TablesOk(ps[k := Claimed(ps[k], np, kallocOk)], cs, np + 1, nc)
    ensures forall j :: 0 <= j < |ps| && j != k ==> ps[j].pid != np
  {
    var ps' := ps[k := Claimed(ps[k], np, kallocOk)];
    assert WfProc(ps[k], |ps|, |cs|);
    assert Linked(ps', cs) by {
      forall c | 0 <= c < |cs| ensures WfCont(cs[c], |ps'|) {
        assert WfCont(cs[c], |ps|);
      }
    }
  }

  /** Recording process `k` in slot `i` of container `ci` keeps the invariant. */
  lemma RecordKeepsTables(ps: seq<Proc>, cs: seq<Container>, ci: int, i: int, k: int, np: int, nc: int)
    requires TablesOk(ps, cs, np, nc) && 0 <= ci < |cs| && 0 <= k < |ps|
    requires 0 <= i < |cs[ci].inner|
    ensures TablesOk(ps, cs[ci := Recorded(cs[ci], i, k)], np, nc)
  {
    assert WfCont(cs[ci], |ps|);
    KeepsTablesSameIds(ps, cs, cs[ci := Recorded(cs[ci], i, k)], np, nc);
  }

  /** Setting the kill flag of container `ci` keeps the invariant. */
  lemma FlagKeepsTables(ps: seq<Proc>, cs: seq<Container>, ci: int, np: int, nc: int)
    requires TablesOk(ps, cs, np, nc) && 0 <= ci < |cs|
    ensures TablesOk(ps, cs[ci := cs[ci].(tokill := true)], np, nc)
  {
    assert WfCont(cs[ci], |ps|);
    KeepsTablesSameIds(ps, cs, cs[ci := cs[ci].(tokill := true)], np, nc);
  }

  /** Turning the fresh child into a running copy of its parent keeps the invariant. */
  lemma ChildKeepsTables(ps: seq<Proc>, cs: seq<Container>, k: int, cur: int, cont: int, np: int, nc: int)
    requires TablesOk(ps, cs, np, nc) && 0 <= k < |ps| && 0 <= cur < |ps| && IsRef(cont, |cs|)
    ensures TablesOk(ps[k := Child(ps[k], ps[cur], cur, cont)], cs, np, nc)
  {
    var ps' := ps[k := Child(ps[k], ps[cur], cur, cont)];
    forall j | 0 <= j < |ps| ensures ps'[j].pid == ps[j].pid && WfProc(ps'[j], |ps|, |cs|) {
      assert WfProc(ps[j], |ps|, |cs|);
    }
    KeepsTablesSamePids(ps, ps', cs, np, nc);
  }

  /** A failed copy releases the entry: Unused, without its kernel stack. */
  function Released(p: Proc): Proc
  {
    p.(kstack := false, state := Unused)
  }

  lemma ReleaseKeepsTables(ps: seq<Proc>, cs: seq<Container>, k: int, np: int, nc: int)
    requires TablesOk(ps, cs, np, nc) && 0 <= k < |ps|
    ensures TablesOk(ps[k := Released(ps[k])], cs, np, nc)
  {
    var ps' := ps[k := Released(ps[k])];
    forall j | 0 <= j < |ps| ensures ps'[j].pid == ps[j].pid && WfProc(ps'[j], |ps|, |cs|) {
      assert WfProc(ps[j], |ps|, |cs|);
    }
    KeepsTablesSamePids(ps, ps', cs, np, nc);
  }

  // ---------------------------------------------------------------------
  // spawn_cont
  // ---------------------------------------------------------------------

  /** The process quota: the request when it is positive and below NPROC
      (the table size `nproc`), otherwise 20. */
  function ProcQuota(maxProc: int, nproc: int): (q: int)
    requires DefaultProcQuota <= nproc
    ensures 1 <= q <= nproc
    ensures 0 < maxProc < nproc ==> q == maxProc
    ensures !(0 < maxProc < nproc) ==> q == DefaultProcQuota
  {
    if 0 < maxProc < nproc then maxProc else DefaultProcQuota
  }

  /** The memory quota: the request when positive and below total_mem, otherwise 20000. */
  function MemQuota(maxMem: int, totalMem: int): (q: int)
    ensures 1 <= q
    ensures q == maxMem || q == DefaultMemQuota
    ensures q == maxMem <==> (0 < maxMem < totalMem || maxMem == DefaultMemQuota)
  {
    if 0 < maxMem < totalMem then maxMem else DefaultMemQuota
  }

  /** The disk quota in bytes: the request (in kilobytes) times 1024 when
      positive and below total_disk, otherwise 200000 bytes. */
  function DiskQuota(maxDisk: int, totalDisk: int): (q: int)
    ensures 1 <= q
    ensures 0 < maxDisk && maxDisk * KiloByte < totalDisk ==> q == maxDisk * KiloByte && q < totalDisk
    ensures !(0 < maxDisk && maxDisk * KiloByte < totalDisk) ==> q == DefaultDiskQuota
  {
    if 0 < maxDisk && maxDisk * KiloByte < totalDisk then maxDisk * KiloByte else DefaultDiskQuota
  }

  /** The container entry spawn_cont fills in before it resolves the root
      path. The member slots of the reused entry are not cleared. */
  function Spawned(c: Container, cid: int, vcnode: int, usedDisk: int,
                   maxProc: int, maxMem: int, maxDisk: int,
                   nproc: int, totalMem: int, totalDisk: int): Container
    requires DefaultProcQuota <= nproc
  {
    c.(cid := cid,
       totalProc := ProcQuota(maxProc, nproc),
       totalMem := MemQuota(maxMem, totalMem),
       totalDisk := DiskQuota(maxDisk, totalDisk),
       vcNode := vcnode,
       usedDisk := usedDisk,
       lastTick := 0,
       awake := false,
       tokill := false)
  }

  /** Console 0 can never be bound: while some slot is free its vc_node is 0,
      so the duplicate-console check rejects 0, and with no free slot the
      spawn fails anyway. */
  lemma ConsoleZeroNeverBinds(cs: seq<Container>)
    requires ConsolesBound(cs)
    ensures ConsoleTaken(cs, 0) || ContFrom(cs, 0, 0) == NIL
  {
    var s := ContFrom(cs, 0, 0);
    if s != NIL {
      assert cs[s].vcNode == 0;
    }
  }

  /** A spawn into the first free slot with the next cid and an unused console
      keeps the invariant: the new cid is larger than every cid issued so far
      and the new console differs from every bound console. */
  lemma SpawnKeepsTables(ps: seq<Proc>, cs: seq<Container>, vcnode: int, usedDisk: int,
                         maxProc: int, maxMem: int, maxDisk: int, totalMem: int, totalDisk: int,
                         path: string, nameiOk: bool, np: int, nc: int)
    requires TablesOk(ps, cs, np, nc)
    requires !ConsoleTaken(cs, vcnode) && ContFrom(cs, 0, 0) != NIL
    ensures var s := ContFrom(cs, 0, 0);
      var c := Spawned(cs[s], nc + 1, vcnode, usedDisk, maxProc, maxMem, maxDisk, |ps|, totalMem, totalDisk);
      TablesOk(ps, cs[s := if nameiOk then c.(rootPath := path) else c], np, nc + 1)
  {
    var s := ContFrom(cs, 0, 0);
    var c := Spawned(cs[s], nc + 1, vcnode, usedDisk, maxProc, maxMem, maxDisk, |ps|, totalMem, totalDisk);
    var cs' := cs[s := if nameiOk then c.(rootPath := path) else c];
    assert WfCont(cs[s], |ps|);
    assert cs[s].vcNode == 0;
    assert vcnode != 0;
    assert forall c :: 0 <= c < |cs| ==> cs[c].vcNode != vcnode;
    assert Linked(ps, cs') by {
      assert forall k :: 0 <= k < |ps| ==> WfProc(ps[k], |ps|, |cs'|);
    }
  }

  // ---------------------------------------------------------------------
  // Member slots
  // ---------------------------------------------------------------------

  /** Extending the scanned prefix by slot `i` adds that slot's process, if any. */
  lemma MembersBelowStep(c: Container, i: nat)
    requires i < |c.inner|
    ensures c.inner[i] == NIL ==> MembersBelow(c, i + 1) == MembersBelow(c, i)
    ensures c.inner[i] != NIL ==> MembersBelow(c, i + 1) == MembersBelow(c, i) + {c.inner[i]}
  {
    if c.inner[i] != NIL {
      assert c.inner[i] in MembersBelow(c, i + 1);
    }
  }

  // ---------------------------------------------------------------------
  // Source behaviour kept beside its correction
  // ---------------------------------------------------------------------

  /** The container table after wait as written: the reaped pid is searched
      in the container of the waiting process `cur`, not in the container of
      the child `z`. */
  function WaitUnlinkedAsWritten(ps: seq<Proc>, cs: seq<Container>, cur: int, z: int): (r: seq<Container>)
    requires Linked(ps, cs) && 0 <= cur < |ps| && 0 <= z < |ps|
    ensures ps[cur].cont == NIL ==> r == cs
    ensures ps[cur].cont == ps[z].cont ==> r == Unlinked(ps, cs, ps[z].cont, ps[z].pid)
  {
    assert WfProc(ps[cur], |ps|, |cs|);
    Unlinked(ps, cs, ps[cur].cont, ps[z].pid)
  }

  /** A root process that reaps a child it placed in a container (cfork)
      leaves the child's slot in place: the slot still references the reaped
      entry, now Unused with pid 0, and a later cpause of that container
      forces the Unused entry to Sleeping, where allocproc never finds it. */
  lemma RootReapLeavesStaleSlot(ps: seq<Proc>, cs: seq<Container>, cur: int, z: int, i: int)
    requires Linked(ps, cs) && 0 <= cur < |ps| && 0 <= z < |ps|
    requires ps[cur].cont == NIL && ps[z].parent == cur && ps[z].state == Zombie
    requires ps[z].cont != NIL && 0 <= i < cs[ps[z].cont].totalProc && cs[ps[z].cont].inner[i] == z
    ensures WaitUnlinkedAsWritten(ps, cs, cur, z) == cs
    ensures z in Members(WaitUnlinkedAsWritten(ps, cs, cur, z)[ps[z].cont])
    ensures var ps' := ps[z := Reset(ps[z])];
      var ps'' := Forced(ps', WaitUnlinkedAsWritten(ps, cs, cur, z)[ps[z].cont], Sleeping);
      ps'[z].state == Unused && ps''[z].state == Sleeping && UnusedFrom(ps'', z) != z
  {
    assert cs[ps[z].cont].inner[i] == z;
  }

  /** callocproc as written: the new process `k` is recorded in slot 0,
      whatever slot next_free returned. */
  function CAllocRecordAsWritten(c: Container, k: int): (r: Container)
    requires 0 < |c.inner|
    ensures |r.inner| == |c.inner| && r.inner[0] == k
  {
    Recorded(c, 0, k)
  }

  /** When slot 0 is occupied, the recording as written drops its occupant
      from slot 0 and leaves the free slot next_free found empty. */
  lemma CAllocOverwritesSlotZero(c: Container, k: int)
    requires 0 <= c.totalProc <= |c.inner| && 0 < c.totalProc
    requires c.inner[0] != NIL && c.inner[0] != k && FreeSlotFrom(c, 0) != NIL
    ensures CAllocRecordAsWritten(c, k).inner[0] != c.inner[0]
    ensures CAllocRecordAsWritten(c, k).inner[FreeSlotFrom(c, 0)] == NIL
  {
  }

  /** For a container whose slot 0 is empty, the case of a fresh container
      that cfork seeds, the recording as written and the recording in the
      slot next_free found are the same: next_free finds slot 0. */
  lemma CAllocAsWrittenSeedsAlike(c: Container, k: int)
    requires 0 <= c.totalProc <= |c.inner| && 0 < c.totalProc && c.inner[0] == NIL
    ensures FreeSlotFrom(c, 0) == 0
    ensures CAllocRecordAsWritten(c, k) == Recorded(c, FreeSlotFrom(c, 0), k)
  {
  }

  /** Recording the new process in the slot next_free found adds exactly
      that process to the container and keeps every other member. */
  lemma CAllocRecordsInFreeSlot(c: Container, k: int)
    requires 0 <= c.totalProc <= |c.inner| && 0 <= k
    requires FreeSlotFrom(c, 0) != NIL
    ensures Members(Recorded(c, FreeSlotFrom(c, 0), k)) == Members(c) + {k}
  {
    var nf := FreeSlotFrom(c, 0);
    var r := Recorded(c, nf, k);
    forall x | x in Members(r) ensures x in Members(c) + {k} {
      var i :| 0 <= i < r.totalProc && i < |r.inner| && r.inner[i] != NIL && r.inner[i] == x;
      if i != nf {
        assert c.inner[i] == x;
      }
    }
    forall x | x in Members(c) + {k} ensures x in Members(r) {
      if x == k {
        assert r.inner[nf] == k;
      } else {
        var i :| 0 <= i < c.totalProc && i < |c.inner| && c.inner[i] != NIL && c.inner[i] == x;
        assert r.inner[i] == x;
      }
    }
  }
}
