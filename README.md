# xv6 container kernel: process and container tables

This project models the container-aware process management of a
teaching xv6 kernel. It covers two source files:

- `proc.c`: the process table (`ptable.proc[NPROC]`) and the container table
  (`ctable.cont[NCONT]`), with the operations that update them. These are
  allocation, fork and cfork, exit, wait, kill, the scheduler's pick step,
  sleep, yield and wakeup, and the container lifecycle: spawn_cont, cpause,
  cresume, kill_cont, and growproc's kill trigger.
- `sysproc.c`: the system calls in front of those operations. The container
  calls are gated so that only a process in the root domain (no container)
  may use them.

Every pointer of the C structures is an index. `NIL` (-1) stands for the null
pointer. A process pointer used as a sleep channel becomes the integer
`p + 1`, so the null pointer is channel 0. NPROC and NCONT are the lengths
of the two arrays, fixed when the kernel object is built.

Files:

- `types.dfy` (`ProcTypes`): the `proc` and `container` records of `proc.h`,
  the process states, and the quota constants.
- `table.dfy` (`ProcTable`): the tables as values. It holds the linear
  scans, the invariant the tables keep (`TablesOk`: links in range, nonzero
  pids distinct and below `nextpid`, active cids distinct and at most
  `next_cid`, active consoles distinct), and one function per table update
  with the lemmas about it.
- `ops.dfy` (`ProcOps`): each kernel operation as a function from a
  `Machine` (both tables and both counters) to its result and the next
  `Machine`. Each one is proved to keep `TablesOk`, and lemmas state what
  the source promises of it.
- `kernel.dfy` (`ProcKernel`): the class `Kernel`. It holds the two tables
  as arrays and the counters as fields, and its methods update them in
  place with the loops of `proc.c`. The operations allocproc, callocproc,
  fork, cfork, wait, kill, spawn_cont, cpause, cresume, kill_cont, growproc
  and the scheduler step are proved to compute exactly the matching
  function of `ProcOps` and to keep `Valid()`. Sleep, yield and exit are
  proved equal to `ProcTable` expressions (`Slept`, the state change,
  `Exited`) and to keep `Valid()`. The scans (`FindCont`, `FindSlot`,
  `FirstUnused`, `ConsoleInUse`, `NextFree`) change nothing. The inner
  loops (`Wakeup1`, `ReparentChildren`, `ClearPidSlots`, `KillFromRoot`,
  `KillInContainer`, `ForceMembers`) are proved equal to table functions
  and do not promise `Valid()` themselves; only the operations above call
  them, and those do promise it. `TotalUsedDisk` changes only `used_disk`.
  Where the source has one of the two bugs listed under "Findings", the
  kernel object runs the corrected behaviour.
- `sysproc.dfy` (`SysProc`): the system-call layer. An argument fetch
  (`argint`, `argstr`) is an `Option` that is `None` when the fetch fails.

Calls into code outside the model are parameters of the operation that makes
them:

- `kalloc` and `copyuvm` success are `kallocOk` and `copyOk`.
- `namei` success is `nameiOk`.
- The size returned by `allocuvm` or `deallocuvm` is `vmSz`, where 0 means
  failure.

The calling process (`myproc()`) is the index `cur`.

## Model

| member | source | states |
|---|---|---|
| ProcTable.UnusedFrom | proc.c:133-138 | the first Unused entry at or after the start, or NIL when every later entry is in use |
| ProcTable.PidFrom | proc.c:680-681 | the first entry with the given pid (in any state), or NIL when none has it |
| ProcTable.ZombieChildFrom | proc.c:469-473 | the first Zombie whose parent is the caller, or NIL |
| ProcTable.ContFrom | proc.c:62-72 | the first container entry with the given cid, or NIL; every earlier entry has another cid |
| ProcTable.FreeSlotFrom | proc.c:49-60 | the lowest empty member slot below total_proc, or NIL when all are occupied |
| ProcTable.SlotWithPidFrom | proc.c:701-702 | the first occupied member slot below total_proc whose process has the pid, or NIL |
| ProcTable.LivePidsUniqueWhenNonzero | proc.c:141-142 | pids issued from the increasing nextpid are unique among live entries while no live entry has the cleared pid 0 |
| ProcTable.WakeupExactly | proc.c:650-658 | wakeup1 changes exactly the entries Sleeping on the channel, each only to Runnable |
| ProcTable.WakeupNoOp | proc.c:650-658 | wakeup1 on a channel nobody sleeps on leaves the table unchanged |
| ProcTable.SleepThenWakeup | proc.c:632-633 | a process that records channel c and sleeps is made Runnable by the next wakeup on c |
| ProcTable.WokenKeepsTables | proc.c:650-658 | wakeup1 keeps the table invariant |
| ProcTable.SetStateKeepsTables | proc.c:582 | changing one entry's state and channel (yield, sleep, scheduler) keeps the invariant |
| ProcTable.ExitReparents | proc.c:440-450 | after exit the caller is a Zombie, every former child has init as parent, no entry names the caller as parent, and no pid or container link changes |
| ProcTable.ExitWakesWaitingParent | proc.c:437-438 | a parent asleep in wait on its own channel is Runnable after its child exits |
| ProcTable.ExitWakesInitForZombies | proc.c:441-446 | handing a Zombie child to init wakes an init asleep in wait |
| ProcTable.ExitKeepsTables | proc.c:435-450 | exit keeps the table invariant |
| ProcTable.ReapOnlyChild | proc.c:484-500 | after reaping its only child a parent has no child left, so its next wait finds none |
| ProcTable.ReapUnlinksChild | proc.c:475-483 | clearing the reaped pid in the child's own container empties the slot that held it, and when the child held only that slot, no slot below total_proc references the child afterwards |
| ProcTable.ReapKeepsTables | proc.c:475-491 | reaping (entry reset, slot cleared) keeps the invariant |
| ProcTable.KillProcs | proc.c:680-697 | kill changes no process field except setting killed and turning Sleeping into Runnable |
| ProcTable.KillConts | proc.c:683-707 | kill changes no container field except clearing member slots |
| ProcTable.RootKillFinds | proc.c:679-697 | from a root caller kill finds a target exactly when some entry has the pid; the target ends up killed and not Sleeping |
| ProcTable.RootKillUnlinks | proc.c:683-690 | a root kill of a container member leaves no slot of its container below total_proc referencing it |
| ProcTable.ContainedKillConfined | proc.c:698-711 | from a contained caller kill finds a target exactly when a member of the caller's container has the pid, and touches only that member and that container |
| ProcTable.KillStepKeepsTables | proc.c:672-715 | any kill step keeps links in range and keeps the invariant |
| ProcTable.KillSweep | proc.c:997-1002 | kill_cont's loop only sets kill flags, wakes Sleeping entries and clears member slots, keeping links in range |
| ProcTable.SweepKillsMembers | proc.c:998-1002 | the remainder of kill_cont's loop from any slot on kills every member not yet killed (induction over the slots) |
| ProcTable.SweepKillsAllMembers | proc.c:998-1002 | kill_cont's loop, by a root caller or a member, leaves every member with a nonzero pid killed and not Sleeping |
| ProcTable.RetireKeepsTables | proc.c:1004-1008 | retiring a container entry (cid, console, usage, tokill zeroed) keeps the invariant |
| ProcTable.PauseThenResume | proc.c:948-979 | forcing the members Sleeping and then Runnable leaves every member Runnable and every other entry unchanged |
| ProcTable.ResumeOverwritesSnapshot | proc.c:972-976 | cresume right after cpause records Sleeping as each member's saved state, so the states saved by cpause are lost |
| ProcTable.SnapshotRecordsState | proc.c:948-953 | each member slot saves the state its process had before the pass, unless an earlier slot already forced that process |
| ProcTable.ForcedKeepsTables | proc.c:948-954 | the pause or resume pass keeps the invariant |
| ProcTable.ClaimKeepsTables | proc.c:140-142 | claiming an entry with pid nextpid keeps the invariant with nextpid + 1, and no other entry has that pid |
| ProcTable.RecordKeepsTables | proc.c:144-146 | recording the new process in a member slot keeps the invariant |
| ProcTable.FlagKeepsTables | proc.c:125-126 | flagging a full container for killing keeps the invariant |
| ProcTable.ChildKeepsTables | proc.c:328-347 | turning the new entry into a Runnable copy of its parent keeps the invariant |
| ProcTable.ReleaseKeepsTables | proc.c:322-326 | releasing the entry after a failed copy keeps the invariant |
| ProcTable.ProcQuota | proc.c:902-906 | the process quota is the request when 0 < request < NPROC, otherwise 20, and always between 1 and NPROC |
| ProcTable.MemQuota | proc.c:907-911 | the memory quota is the request when 0 < request < total_mem, otherwise 20000 |
| ProcTable.DiskQuota | proc.c:912-916 | the disk quota is the request times 1024 when positive and below total_disk, otherwise 200000 |
| ProcTable.ConsoleZeroNeverBinds | proc.c:884-896 | console 0 is always rejected: either some entry has console 0 or no entry is free |
| ProcTable.SpawnKeepsTables | proc.c:884-921 | spawning into the first free entry with cid next_cid + 1 and an unused console keeps the invariant |
| ProcTable.WaitUnlinkedAsWritten | proc.c:463-483 | wait as written searches the waiting process's container; for a root caller it changes no container |
| ProcTable.RootReapLeavesStaleSlot | proc.c:476-483 | a root parent reaping a cforked child leaves the child's slot referencing the freed entry, which a later cpause forces to Sleeping |
| ProcTable.CAllocRecordAsWritten | proc.c:205 | callocproc as written records the new process in slot 0 |
| ProcTable.CAllocOverwritesSlotZero | proc.c:186-205 | with slot 0 occupied, the recording as written drops slot 0's member and leaves the free slot empty |
| ProcTable.CAllocAsWrittenSeedsAlike | proc.c:186-205 | when slot 0 is empty, as in a fresh container, next_free finds slot 0 and the recording as written equals the recording at next_free's slot |
| ProcTable.CAllocRecordsInFreeSlot | proc.c:144-145 | recording in the slot next_free found adds exactly the new process to the members |
| ProcOps.AllocOp | proc.c:112-174 | allocproc keeps the invariant; a claimed entry has pid nextpid, which no other entry has |
| ProcOps.AllocFullContainer | proc.c:122-130 | a contained caller with a full member table gets null, its container gets tokill, and no process entry or counter changes |
| ProcOps.AllocClaimsLowestUnused | proc.c:133-174 | allocproc succeeds exactly when there is an Unused entry, a free slot (if contained) and a kernel stack. Once it claims the lowest Unused entry, that entry takes the old nextpid, nextpid advances, no other entry changes, and the entry joins the caller's members. On success it is an Embryo with a kernel stack and zero ticks; when kalloc fails, null is returned and the entry is Unused again, with its pid used up and still recorded in the container |
| ProcOps.AllocWritesOnlyFreeSlot | proc.c:122-145 | allocproc writes at most one member slot, an empty one below total_proc in the caller's container, and changes no container's total_proc |
| ProcOps.CAllocOp | proc.c:176-235 | callocproc (recording at the free slot) keeps the invariant, gives a fresh pid, and adds the new process to the container's members |
| ProcOps.CAllocWritesOnlyFreeSlot | proc.c:186-205 | callocproc, corrected, writes at most one member slot, an empty one below total_proc in the target container; line 205 as written overwrites slot 0 whatever it holds |
| ProcOps.ContKilledOp | proc.c:988-1011 | kill_cont returns -1 and changes nothing exactly when the cid is unknown, and keeps the invariant |
| ProcOps.KillContKillsMembers | proc.c:988-1011 | kill_cont kills every member with a nonzero pid, retires the entry (a later find_cont of that cid fails), and only clears slots of other containers |
| ProcOps.ForkOp | proc.c:306-352 | fork keeps the invariant |
| ProcOps.ForkMakesChild | proc.c:313-351 | fork succeeds exactly when allocation and copy succeed; the child has the fresh pid nextpid, parent the caller, the caller's container and size, eax 0 and state Runnable |
| ProcOps.CForkOp | proc.c:354-407 | cfork keeps the invariant and returns -1 with no change for an unknown cid |
| ProcOps.CForkPlacesChild | proc.c:371-406 | a successful cfork gives a child with a fresh pid in the target container, added to its members, parent the caller, eax 0, Runnable |
| ProcOps.WaitOp | proc.c:457-506 | one pass of wait keeps the invariant and changes no counter |
| ProcOps.WaitOutcomes | proc.c:463-505 | for every caller, wait has one of three outcomes. With a Zombie child, the first in table order is reaped: its pid is returned, the entry is reset to Unused with pid 0 and no parent, its slot is cleared in its own container, and nothing else changes. Otherwise a caller with no children, or a killed one, gets -1 and nothing changes, and any other caller sleeps on its own channel with nothing else changed. -1 comes exactly in the second case |
| ProcOps.WaitReapsOnce | proc.c:469-501 | a parent whose only child is a Zombie gets its pid, the entry becomes Unused with pid 0, and the next wait returns -1 |
| ProcOps.WaitThenExitWakes | proc.c:497-504 | wait with a live child and no Zombie puts the caller to sleep on its own channel, and that child's exit makes it Runnable |
| ProcOps.KillOp | proc.c:672-715 | kill keeps the invariant and changes no counter |
| ProcOps.KillResult | proc.c:672-715 | kill returns -1 exactly when nothing matches in the caller's domain and then changes nothing; a contained caller changes only members of its own container |
| ProcOps.SpawnOp | proc.c:877-931 | spawn_cont keeps the invariant, never touches a process entry, and never decreases next_cid |
| ProcOps.SpawnFreshCid | proc.c:884-930 | spawn_cont fails without change on a used console or a full table, and never binds console 0; otherwise it returns next_cid + 1 (or -1 when namei fails, with the entry still consumed), larger than every cid so far, found by find_cont, with the quota defaults, and changes no other entry |
| ProcOps.PauseOp | proc.c:938-956 | cpause returns -1 and changes nothing exactly when the cid is unknown, and keeps the invariant |
| ProcOps.ResumeOp | proc.c:962-981 | cresume returns -1 and changes nothing exactly when the cid is unknown, and keeps the invariant |
| ProcOps.PauseThenResumeOp | proc.c:938-981 | cpause then cresume returns 0 then 1, leaves every member Runnable and every other entry as it was, the container awake, and Sleeping as every member's saved state |
| ProcOps.GrowOp | proc.c:277-301 | growproc keeps the invariant |
| ProcOps.GrowKillsFlaggedContainer | proc.c:283-300 | growproc fails with no change exactly when the VM call fails; otherwise the caller has the new size, and an active container flagged tokill has all its members killed and is retired |
| ProcOps.RunnableFrom | proc.c:529-531 | the first Runnable entry at or after the scan position, or NIL |
| ProcOps.ScheduleOp | proc.c:529-538 | the scheduler step makes one Runnable entry at or after the scan position Running, with channel 0 because sleep's tidy-up runs as soon as it is scheduled, and changes no other entry |
| ProcOps.RunThenPauseIgnoresOldChannel | proc.c:636-638 | a process that has been scheduled since it slept is not woken by a wakeup on its old channel, even after cpause forces it Sleeping |
| ProcOps.SchedulePicksFirstRunnable | proc.c:529-538 | the scheduler runs a process exactly when one is Runnable, and runs the first in table order |
| ProcKernel.NextFree | proc.c:49-60 | next_free returns the lowest empty member slot below total_proc, or -1 when all are occupied |
| ProcKernel.Kernel.constructor | proc.c:239-273 | after userinit the tables satisfy the invariant, and entry 0 is the first process with pid 1, one page of memory, Runnable, no parent and no container |
| ProcKernel.Kernel.FindCont | proc.c:62-72 | find_cont returns the first entry with the cid, or -1 |
| ProcKernel.Kernel.FindSlot | proc.c:701-702 | the scan of a container's slots for a pid returns the first matching slot |
| ProcKernel.Kernel.FirstUnused | proc.c:133-138 | the scan returns the first Unused entry |
| ProcKernel.Kernel.AllocProc | proc.c:112-174 | allocproc computes AllocOp in place and keeps Valid |
| ProcKernel.Kernel.CAllocProc | proc.c:176-235 | callocproc computes CAllocOp in place and keeps Valid |
| ProcKernel.Kernel.Fork | proc.c:306-352 | fork computes ForkOp in place |
| ProcKernel.Kernel.CFork | proc.c:354-407 | cfork computes CForkOp in place |
| ProcKernel.Kernel.Wakeup1 | proc.c:650-658 | the table afterwards is Woken of the table before |
| ProcKernel.Kernel.Wakeup | proc.c:661-667 | as wakeup1, keeping Valid |
| ProcKernel.Kernel.Sleep | proc.c:610-635 | only the caller changes: it records the channel and is Sleeping |
| ProcKernel.Kernel.Yield | proc.c:578-585 | only the caller changes: it is Runnable |
| ProcKernel.Kernel.Schedule | proc.c:516-549 | one step of the scheduler's scan computes ScheduleOp |
| ProcKernel.Kernel.ReparentChildren | proc.c:440-447 | the loop hands every child to init and wakes init when a child is a Zombie |
| ProcKernel.Kernel.Exit | proc.c:412-453 | exit reports the panic for init and changes nothing; otherwise the table becomes Exited |
| ProcKernel.Kernel.Wait | proc.c:457-506 | one pass of wait computes WaitOp in place |
| ProcKernel.Kernel.ClearPidSlots | proc.c:683-690 | the loop clears exactly the slots below total_proc whose process has the pid |
| ProcKernel.Kernel.KillFromRoot | proc.c:679-697 | the root-caller branch of kill computes KillProcs and KillConts |
| ProcKernel.Kernel.KillInContainer | proc.c:698-711 | the contained-caller branch of kill clears the first member slot with the pid and kills its process, or returns -1 when no slot matches |
| ProcKernel.Kernel.Kill | proc.c:672-715 | kill computes KillOp in place |
| ProcKernel.Kernel.ConsoleInUse | proc.c:884-888 | the duplicate-console scan reports whether any entry, active or not, has the console |
| ProcKernel.Kernel.SpawnCont | proc.c:877-931 | spawn_cont computes SpawnOp in place |
| ProcKernel.Kernel.ForceMembers | proc.c:948-953 | the pass saves each member's state and forces it to the given state |
| ProcKernel.Kernel.CPause | proc.c:938-956 | cpause computes PauseOp in place |
| ProcKernel.Kernel.CResume | proc.c:962-981 | cresume computes ResumeOp in place |
| ProcKernel.Kernel.KillSlot | proc.c:998-1001 | one iteration of kill_cont's loop is one step of KillSweep |
| ProcKernel.Kernel.KillMembers | proc.c:997-1001 | kill_cont's loop over the member slots leaves the tables KillSweep computes |
| ProcKernel.Kernel.KillCont | proc.c:988-1011 | kill_cont computes ContKilledOp in place |
| ProcKernel.Kernel.GrowProc | proc.c:277-301 | growproc computes GrowOp in place |
| ProcKernel.Kernel.TotalUsedDisk | proc.c:1036-1042 | total_used_disk sets the global used_disk and returns 1 |
| SysProc.SysGetpid | sysproc.c:39-43 | sys_getpid returns the caller's pid, one already issued (below nextpid) |
| SysProc.GetpidNamesCaller | sysproc.c:39-43 | a nonzero pid from sys_getpid belongs to the caller alone, so a root kill's table scan for it stops at the caller |
| SysProc.SysGetcid | sysproc.c:45-53 | sys_getcid is 0 for a root caller, else its container's cid, never above next_cid |
| SysProc.GetcidFindsOwnContainer | sysproc.c:45-53 | a nonzero cid from sys_getcid is found by find_cont at the caller's own container; 0 means root domain or a retired container |
| SysProc.SysCinfo | sysproc.c:213-219 | sys_cinfo is -1 exactly for a contained caller, otherwise 1 |
| SysProc.SysCpause | sysproc.c:138-151 | a contained caller or a bad argument gets -1 and nothing changes; otherwise cpause's result and state |
| SysProc.SysCstop | sysproc.c:153-166 | a contained caller or a bad argument gets -1 and nothing changes; otherwise kill_cont's result and state |
| SysProc.SysCresume | sysproc.c:168-181 | a contained caller or a bad argument gets -1 and nothing changes; otherwise cresume's result and state |
| SysProc.SysCfork | sysproc.c:183-196 | a contained caller or a bad argument gets -1 and nothing changes; otherwise cfork's result and state |
| SysProc.SysCstart | sysproc.c:103-117 | any unfetchable argument gives -1 with no change; otherwise spawn_cont's result and state, for any caller |
| SysProc.SysKill | sysproc.c:29-37 | a bad argument gives -1 with no change; otherwise kill's result and state |
| SysProc.SysSbrk | sysproc.c:55-67 | the size before growth on success, -1 on a bad argument or a failed growproc |
| SysProc.SysTdiskused | sysproc.c:203-211 | a bad argument gives -1 and leaves used_disk; otherwise used_disk is the argument and the result is 1 |

## Left out

- Context switching and CPU state are not modelled: `swtch`, `sched` and its panics, `forkret`, `mycpu`, `cpuid` and interrupt enabling. Sleep, yield, exit and the scheduler end where the switch would happen.
- `ptable.lock` and SMP concurrency are not modelled. The lock only serialises these same transitions, so the tables are one single-threaded object.
- Virtual and kernel memory (`kalloc`, `kfree`, `copyuvm`, `allocuvm`, `deallocuvm`, `freevm`, `setupkvm`, trap-frame and context layout) are outside the model. Their outcomes are parameters, and the page directory, trap frame (apart from `eax`) and context are not modelled.
- Filesystem calls (`namei`, `idup`, `iput`, `filedup`, `fileclose`, `begin_op`) are left out. `namei` success is a parameter, open files and the working directory are not modelled, and `root_dir` is represented by the path string.
- Process and container names (`safestrcpy`, `strncpy`) are not modelled, apart from the container's root path.
- Console reporting is left out because it is output only: `procdump`, `proc_print`, `cprocdump`, `memdump`, `printdump`, `df_mem`, and the printing in `c_info` and `growproc`. `c_info` is modelled by its result, 1.
- `sys_sleep` and `sys_uptime` are left out because they depend on the timer tick counter. `sys_fork`, `sys_exit` and `sys_wait` only delegate, and are modelled by the operations they call (`Kernel.Fork`, `Kernel.Exit`, `Kernel.Wait`). `sys_getpid` is `SysProc.SysGetpid`.
- The user programs `ctool.c`, `init.c` and `ps.c` are left out; they only invoke system calls.
- ProcKernel.Kernel.Wait: models one pass of wait's outer loop. After the sleep, the source scans again; here a second call does that.
- ProcKernel.Kernel.Schedule: models one pick of the scheduler's scan. The endless outer loop and the running of the process are not modelled.
- ProcKernel.Kernel.Sleep: ends at the switch, so the clearing of `chan` (proc.c:638) is not part of it. That clearing runs, under the same lock, as soon as the process is scheduled again, so the scheduler step (`ProcOps.ScheduleOp`, `Kernel.Schedule`) clears the channel of the entry it runs. Between the wakeup and the next run, a Runnable entry still carries its channel, as in the source.
- ProcTable.DiskQuota: does not model the 32-bit overflow of `max_disk * 1024`; integers are unbounded here. The same holds for the process size in growproc. It also holds for the C `int` counters `nextpid` (proc.c:23, 142, 203) and `ctable.next_cid` (proc.c:18, 892). `ProcTable.PidsIssued` and `ProcTable.CidsIssued`, and through them `ProcTable.PidsDistinct` and `ProcTable.CidsDistinct`, rely on these counters never wrapping.
- ProcTable.SlotWithPidFrom: the source reads `inner_ptable[i]->pid` without a null check in wait and in both kill modes (proc.c:478, 686, 702), which dereferences null at an empty slot. Here an empty slot never matches.
- ProcKernel.Kernel.AllocProc: writes the claimed entry once, as Embryo with the next pid or back to Unused when `kalloc` fails. The source releases `ptable.lock` between the two writes, so another CPU could see the Embryo entry; with no concurrency modelled, only the final entry is visible. Fork and cfork likewise set up the child in one write.
- ProcOps.WaitOp: like proc.c:476-483, the corrected wait clears only the first slot that matches the reaped pid. A process can hold two slots: when `kalloc` fails, allocproc leaves the entry Unused but still recorded, and it is still the lowest Unused entry. The next allocproc by a member of that container claims the entry again and records it in a second slot. The second slot then survives the reap; ProcTable.ReapUnlinksChild promises the child's removal only when it held a single slot.
- ProcKernel.Kernel.Wait: runs the corrected wait of the first Finding. It clears the reaped child's slot in the child's own container, not in the caller's as proc.c:463-483 does. The behaviour as written is `ProcTable.WaitUnlinkedAsWritten`.
- ProcKernel.Kernel.CAllocProc: runs the corrected callocproc of the second Finding. It records the new process in the slot next_free found, not in slot 0 as proc.c:205 does. The two agree whenever slot 0 is empty (`ProcTable.CAllocAsWrittenSeedsAlike`). The recording as written is `ProcTable.CAllocRecordAsWritten`.
- ProcKernel.Kernel.CFork: builds the child through the corrected callocproc, so it inherits the CAllocProc difference. The same holds for `ProcOps.CForkOp` and `SysProc.SysCfork`.
- ProcKernel.Kernel.constructor: requires NPROC to be at least the default process quota, 20. spawn_cont's default `total_proc` must fit in the member table, whose size is NPROC. `param.h`, which fixes NPROC, is not part of this model.
- ProcKernel.Kernel.CAllocProc: requires the container to exist. Its only caller, cfork, has found it, so the null `cont` that callocproc would dereference never reaches it.
- ProcKernel.Kernel.SpawnCont: the free-entry search matches cid 0, as `find_cont(0)` does. A failed `namei` still consumes the entry and the cid, as in the source.
- The invariant does not include "pids are unique among live entries". A stale member slot can reference an Unused entry with pid 0, and cpause or cresume then revive it. The model keeps the stronger fact that nonzero pids are distinct (`ProcTable.LivePidsUniqueWhenNonzero` connects the two).
- The invariant does not include "occupied member slots ≤ total_proc". spawn_cont does not clear a reused entry's member table, so old slots can lie beyond a smaller new quota. Scans only look below total_proc. allocproc and the corrected callocproc write only an empty slot below total_proc (`ProcOps.AllocWritesOnlyFreeSlot`, `ProcOps.CAllocWritesOnlyFreeSlot`), so they never record a member the scans cannot reach and never displace one.
- The disk quota follows the code: it compares `max_disk * 1024 < total_disk`, not the request against `total_disk / 1024`.

## Findings

| source | as written | input that shows it | evidently intended | confidence | as-written member | corrected member |
|---|---|---|---|---|---|---|
| proc.c:463-483 | wait clears the reaped pid's slot in the waiting parent's container (`cont = curproc->cont`) | A root process cforks child z into container C. z exits and the parent waits: C's slot still references z's freed entry, now Unused with pid 0, and a later cpause of C makes that entry Sleeping so allocproc never reuses it | clear the slot in the reaped child's own container; when the child held only that slot, none below total_proc references it afterwards (proved by ProcTable.ReapUnlinksChild) | not executed | ProcTable.RootReapLeavesStaleSlot | ProcOps.WaitOp |
| proc.c:205 | callocproc records the new process in slot 0, not in the slot `nf` that next_free returned | Container slot 0 holds process a, slot 1 is free, and cfork claims entry k: slot 0 becomes k, a is no longer a member, and slot 1 stays empty | identical for a fresh container, whose slot 0 is empty (proved by ProcTable.CAllocAsWrittenSeedsAlike); record in slot `nf` when slot 0 is already taken, adding exactly the new process to the members (proved by ProcTable.CAllocRecordsInFreeSlot) | not executed | ProcTable.CAllocOverwritesSlotZero | ProcOps.CAllocOp |
