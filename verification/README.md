# SADICA verification

A Dafny model of a small distributed operating system: a kernel that plans processes, a paged
memory server with a cache, a block file system and CPUs that interpret programs. Each request
handler is one atomic step, or two when it has to wait for the planned count; sockets are replaced by arguments and results. `dafny verify
dfyconfig.toml` checks the whole project.

| module | what it models |
|---|---|
| `PageTable`, `PageCache`, `MemoryServer` | the inverted page table, the write-through cache with its quota, and the server that refines a flat map from (pid, page) to bytes |
| `MemoryHistories`, `HeapHistories`, `SchedulerHistories`, `VariableHistories` | histories of requests and events in which something goes wrong |
| `Scheduler`, `SchedulerLaws`, `SchedulerHandlers` | the process states and kernel semaphores as a machine, what holds of its runs, and the handlers that compute its steps |
| `HeapPage`, `HeapKernel` | one heap page as bytes and blocks, and the requests that allocate and free over all pages of all processes |
| `Bitmap`, `FileBlocks`, `FileSystem` | block ownership, the loops over a file's blocks, and the file system's handlers |
| `Serializer` | the process control block as bytes |
| `CpuStack`, `Variables` | variable placement, calls and returns, and what programs read from their variables through the memory server |
| `CodeFetch` | loading a program page by page and fetching an instruction |
| `OpenFiles` | the open-file tables of the kernel |
| `Lists`, `Records`, `Bytes`, `Arithmetic` | lists, counters per process, byte buffers, page arithmetic |

The state is updated in place by classes; what is proved about it is stated over values (a flat
memory, a `Kernel`, a `Heap`, a `Cpu`) so that the theorems speak about every history.

## Where the code departs from its intent

The code is modelled as written. Where a property fails of it, the exact condition is proved.

- A write that misses the cache copies only its own bytes into the entry it takes. Every entry agrees
  with its page on the bytes filled since it took it; the exact condition for a right answer is
  `MemoryServer.Server.WriteThenRead`, and `MemoryHistories.StaleRead` is a wrong one. The ghost flag
  `stale` says whether any write miss so far was partial.
- Every assignment of a program is such a write, of four bytes. The variable assigned reads right; another
  one on its page reads what the entry held before, the value of a variable of another page for example.
  `Variables.Assign` has the exact condition and `VariableHistories.StaleVariable` a program. The same store
  into a heap page gives the kernel, which reads that page whole and writes it back, bytes of another page
  for its headers (`MemoryHistories.HeapMisread`; the exact condition is `MemoryServer.Server.WriteThenRead`
  for the whole page).
- The quota walk of `update_cache` names a variable `index` that the function does not have; the model
  reads `pos`. The walk then steps over the record that slides into the place of a removed one, and can
  add a second record (`MemoryHistories.QuotaSkip`). Accounting survives exactly without that
  (`PageCache.TookKeepsIff`), and the case can be told before the request (`MemoryServer.HazardIff`).
  The server answers as a flat memory after any number of skips. What can then go wrong is that a live
  process is recorded at its quota and owns no entry, after reads and deletions of pages alone
  (`MemoryHistories.StarvationReached`): the source updates entry -1. That one request is the
  precondition of reads and writes.
- Deleting a page that is not mapped frees another page's frame (`PageTable.Table.DeletePage`,
  `MemoryHistories.DeleteForAnother`).
- The memory server's page counter never goes back, the kernel's page number does. They agree after a
  heap page is returned exactly when it was not the last one (`HeapKernel.NumbersAgreeIff`); if they
  disagree the next request that needs a page uses one that is not there
  (`HeapHistories.NumbersDiffer`).
- A heap page is chosen by its total free space and a search that fails returns offset 0. The page is
  then broken for good, and only that page (`HeapKernel.MisfitBreaks`, `HeapHistories.Fragmented`).
  Sizes above page - 16 pass the size check and fit no page (`HeapKernel.HeapManager.Reserve`).
- Only one pair of free blocks is merged at a time, so that an unused page may stay
  (`HeapKernel.ReturnedIff`).
- A kill that meets a blocking wait leaves the process blocked and queues an empty place as finished; a
  kill of a NEW process lowers the planned count; an idle CPU that vanishes leaves its token. The
  machine counts these events, and the invariants are exact on histories with them
  (`Scheduler.KillMeetsWait`, `Scheduler.AdmissionExact`, `Scheduler.DispatchDropsIff`).
- A handler that ends a process waits for the planned count after it freed the CPU and before it posts
  the CPU token, and irregular kills make it wait (`Scheduler.EndingWaitsIff`). Until an admission it owes
  the token (`Scheduler.CpuTokensExact`, `SchedulerHistories.TokenOwed`), so that a process can stay ready
  beside an idle CPU (`SchedulerHistories.IdleBesideReady`); a waiting kill, and the end of a killed
  instruction, hold `mutex_kill` (`Scheduler.HeldUntilAdmission`). When it goes on, the planner may have no
  token left for a process in NEW (`Scheduler.PlannerPendingIff`, `SchedulerHistories.PlannerStalls`).
- The marks for a kill and for a pending wait are on the CPU's record and leave with the CPU: the killed
  process is ready again and the wait is never taken (`Scheduler.MarkTakesEffectIff`,
  `Scheduler.WaitIsForgotten`).
- On a full disk the expansion loop of `write_file` does not stop after its ENOSPC reply, and its
  rollback keeps every other block. With no free block it never ends; with too few it goes on with too
  few blocks and writes the rest into block 0 (`FileSystem.Server.Write`, `FileSystem.ShortDisk`). Block
  ownership survives all of it (`FileSystem.Server.Sound`).
- A read from the last byte of a file on gets no reply (`FileSystem.Server.Read`).
- SP is 16 bits wide and a return from the first context wraps it (`CpuStack.StepKeepsIff`).
- Global file descriptors come from an 8-bit counter (`OpenFiles.OpenNewKeepsIff`,
  `OpenFiles.DescriptorReused`).

## Model

| member | source | states |
|---|---|---|
| `PageTable.Table.constructor` | memoria/src/memoria.c:179-241 | load leaves a valid table: the least number of frames that holds its registers of 16 bytes reserved, all others available in ascending order, no process with pages |
| `PageTable.Table.FrameIsAvailable` | memoria/src/memoria.c:432-442 | answers whether the frame is in the available list and, exactly then, takes it out |
| `PageTable.Table.SearchingOnOverflow` | memoria/src/memoria.c:689-702 | a frame of the bucket's overflow list that holds the page, or -1 exactly when none does |
| `PageTable.Table.GetFrame` | memoria/src/memoria.c:651-674 | for any hash, finds a frame exactly when (pid, page) is mapped, and it is that page's frame |
| `PageTable.FrameIsReachable` | memoria/src/memoria.c:405-423 | a mapped page is in the frame its hash names or in that bucket's overflow list |
| `PageTable.Table.InitializePage` | memoria/src/memoria.c:405-442 | the page takes the frame its hash names or else the first available one; uniqueness, partition and exact overflow lists are kept |
| `PageTable.TableAfterPlacing` | memoria/src/memoria.c:405-423 | giving an available frame to an unmapped page keeps uniqueness, the partition of the frames and exact overflow lists |
| `PageTable.TableAfterReleasing` | memoria/src/memoria.c:825-849 | giving a mapped frame back keeps the same three, and the frame was where its hash leads |
| `PageTable.Table.PlaceNextPage` | memoria/src/memoria.c:384-397 | one turn of the loop: the page numbered by the counter is placed and the counter raised |
| `PageTable.Table.PlacePages` | memoria/src/memoria.c:384-397 | the whole loop places exactly the requested pages, numbered from the counter on, with code, stack and heap segments as decided there |
| `PageTable.GrantOne` | memoria/src/memoria.c:384-397 | n pages granted and one more placed in an available frame are n + 1 pages granted |
| `PageTable.NextNumberIsFresh` | memoria/src/memoria.c:355-403 | no page with the counter's number or a later one is mapped, although counters never go down |
| `PageTable.Table.LocateRecord` | memoria/src/memoria.c:355-380 | the process's counter, added at zero if missing, with all counts unchanged |
| `PageTable.Table.AssignPages` | memoria/src/memoria.c:355-403 | all the pages or none: ENOSPC exactly when they do not fit, and then nothing changes |
| `PageTable.Table.DeletePage` | memoria/src/memoria.c:825-849 | frees the page's own frame when it is mapped, else the last frame of the bucket's overflow list or, if that is empty, the one an uninitialized variable names. The table stays sound if and only if the page was mapped, or the list was empty and that frame held a page in place |
| `PageTable.Table.SearchToDelete` | memoria/src/memoria.c:825-840 | the frame the search ends on, and the overflow lists without it exactly when it is the page's |
| `PageTable.TableAfterMistake` | memoria/src/memoria.c:842-848 | a frame given back without its overflow list keeps the table consistent if and only if it held a page in the frame its hash names |
| `PageTable.Table.RemoveFromOverflow` | memoria/src/memoria.c:711-723 | removes the first occurrence of the frame from the bucket's list and nothing else |
| `PageTable.Table.CleanProcess` | memoria/src/memoria.c:903-935 | exactly the frames of the process become available and its counter goes; the table stays valid |
| `PageCache.Cache.GetCacheEntry` | memoria/src/memoria.c:478-492 | a hit returns the entry of the page holding exactly its lock; a miss means no entry names the page and no lock is held |
| `PageCache.Cache.AtQuota` | memoria/src/memoria.c:494-510 | answers exactly whether the process has records and the first of them has reached the quota |
| `PageCache.Cache.LeastRecentlyUsed` | memoria/src/memoria.c:541-557 | keeps the earlier-used of two candidates, the first on a tie, and only its lock |
| `PageCache.Cache.ChooseEntry` | memoria/src/memoria.c:511-539 | the loop returns a free entry or else the least recently used allowed candidate, holding exactly that write lock, and -1 exactly when there is no candidate |
| `PageCache.Cache.AssignCacheEntry` | memoria/src/memoria.c:494-539 | for any quota list: the victim with exactly its write lock, and -1 if and only if the process is recorded at its quota and owns no entry |
| `PageCache.VictimIsOne` | memoria/src/memoria.c:494-557 | the entry so described is unique |
| `PageCache.VictimIs` | memoria/src/memoria.c:494-557 | at its quota a process gives up its own least recently used entry, any other takes the first free entry or else the least recently used of all, and the first of several used at the same time |
| `PageCache.Cache.Account` | memoria/src/memoria.c:585-615 | for any list, the loop (with pos where the source has index) computes the walk, which lowers and raises repeated records more than once |
| `PageCache.WalkedOnce` | memoria/src/memoria.c:585-615 | on a list with one record for each process the walk moves one entry between two accounts, or removes one record and steps over the next |
| `PageCache.FirstRaised` | memoria/src/memoria.c:585-592 | on any list, an entry from nobody raises the first record of the process and no other |
| `PageCache.StopsAfterBoth` | memoria/src/memoria.c:594-608 | on any list, the walk stops once it has met a record of both processes: what follows stays |
| `PageCache.SkipAddsRecord` | memoria/src/memoria.c:594-615 | the skip leaves the process with two records |
| `PageCache.AccountedTally` | memoria/src/memoria.c:585-615 | without the skip the walk moves exactly one entry from the previous owner's count to the new one's |
| `PageCache.QuotaAfterTransfer` | memoria/src/memoria.c:585-615 | an entry changing hands keeps counts exact and within the quota if and only if the walk does not skip the new owner's record |
| `PageCache.QuotaAfterDrop` | memoria/src/memoria.c:863-878 | freeing an entry and lowering its owner's count keeps the accounting exact |
| `PageCache.Cache.UpdateCache` | memoria/src/memoria.c:562-620 | for any quota list, exactly the written bytes, owner and time of the entry change, the list is the walked one, and the lock is given up |
| `PageCache.Cache.Fill` | memoria/src/memoria.c:466-620 | for any quota list a miss takes the victim and no page is in two entries; exact accounting survives if and only if the walk did not skip |
| `PageCache.TookKeepsIff` | memoria/src/memoria.c:494-615 | exact accounting survives a miss if and only if the victim was the process's own or the walk does not skip |
| `PageCache.Cache.WritingCache` | memoria/src/memoria.c:466-476 | for any quota list a hit writes in place, a miss takes the victim and copies only the written bytes; no lock is held at the end |
| `PageCache.Cache.ReadingCache` | memoria/src/memoria.c:741-772 | a hit returns the entry's bytes and touches its time; no lock is held at the end |
| `PageCache.Cache.DropPage` | memoria/src/memoria.c:851-885 | on any list exactly the entry of the page is freed, with its bytes and time, and the first record of its owner lowered or removed; nothing changes when no entry names the page; exact accounting stays exact |
| `PageCache.Cache.DropProcess` | memoria/src/memoria.c:937-966 | on any list exactly the entries of the process are freed and its first record goes; exact accounting stays exact |
| `MemoryServer.FrameSplice` | memoria/src/memoria.c:625-649 | a write inside one frame changes that frame and no other |
| `MemoryServer.ContentsAfterWrite` | memoria/src/memoria.c:625-649 | on the map from (pid, page) to bytes a frame write is a splice of that page |
| `MemoryServer.ContentsAfterRelease` | memoria/src/memoria.c:825-849 | on that map, giving frames back removes exactly their pages |
| `MemoryServer.ContentsAfterGrant` | memoria/src/memoria.c:355-403 | on that map, a grant adds exactly the requested pages with their segments and leaves the rest |
| `MemoryServer.FramesConserved` | memoria/src/memoria.c:355-403 | reserved, available and mapped frames add up to all frames |
| `MemoryServer.CoherentAfterWrite` | memoria/src/memoria.c:562-577 | writing the page and the entry that holds or takes it keeps every entry in agreement with its page on the bytes filled since it took the page |
| `MemoryServer.CoherentAfterFill` | memoria/src/memoria.c:774-798 | an entry filled with the whole frame agrees with it everywhere |
| `MemoryServer.CoherentAfterChange` | memoria/src/memoria.c:851-885 | agreement survives new pages, and pages that go together with their entries |
| `MemoryServer.HazardIff` | memoria/src/memoria.c:585-615 | whether a request will meet the skip can be told before it, from the entries, their times and the quota list |
| `MemoryServer.ShownAfter` | memoria/src/memoria.c:562-620 | after an entry is updated for a page, reads of that page show the entry's old bytes around the new ones, a page that lost the entry shows its frame, and every other page shows what it did |
| `MemoryServer.PageStays` | memoria/src/memoria.c:447-473 | over any history a page that is there has the bytes it had, and its segment, unless it is written with success |
| `MemoryServer.CodeIsKept` | memoria/src/memoria.c:637-639 | over any history a code page has the bytes it had unless the kernel itself wrote it |
| `MemoryServer.Server.constructor` | memoria/src/memoria.c:179-241 | the server starts as the empty flat memory, with that as the only state of its history |
| `MemoryServer.Server.WritingMemory` | memoria/src/memoria.c:625-649 | an unmapped page is a fault; a code page is refused to every client but the kernel; every other write in range is a splice of the flat page |
| `MemoryServer.Server.WritePage` | memoria/src/memoria.c:447-473 | out of frame exactly beyond the frame's end or from its size on, a fault exactly without the page, a segmentation fault exactly on a code page for a client that is not the kernel, and success otherwise; whatever happened before, the new pages are the flat memory's, unless the cache has no entry for the process; a failed write changes nothing; the entry updated is the one that names the page or the victim; exact accounting ends exactly on the skip; the state is added to a history that starts empty |
| `MemoryServer.Server.ReadPage` | memoria/src/memoria.c:725-798 | out of frame and fault exactly as for writes, and data otherwise: whatever happened before, the bytes of the entry on a hit and of the frame on a miss, which is what the page shows; every byte filled since the entry took the page is the page's own, and all are while no write miss was partial |
| `MemoryServer.Server.WriteThenRead` | memoria/src/memoria.c:466-473 | after a write that misses, a read of any part of the page gives the page's bytes if and only if the entry taken held them already, outside the bytes written |
| `MemoryServer.Server.InitializeProcess` | memoria/src/memoria.c:344-403 | ENOSPC exactly when the pages do not fit; otherwise pages numbered from the process's counter on, the last of them, as many as the stack has, of the stack and those before of the code |
| `MemoryServer.Server.AssignPage` | memoria/src/memoria.c:803-812 | ENOSPC exactly when the pages do not fit; otherwise heap pages numbered from the process's counter on |
| `MemoryServer.Server.DeletePage` | memoria/src/memoria.c:814-891 | answers as the flat memory does and stays consistent if and only if the page is mapped; in the cache exactly the entry of the page and the first record of its owner change; exact accounting is kept |
| `MemoryServer.Server.FinalizeProcess` | memoria/src/memoria.c:893-970 | answers as the flat memory does, whatever happened before: exactly the pages and the counter of the process go, with its entries and its first record in the cache |
| `MemoryHistories.QuotaSkip` | memoria/src/memoria.c:585-615 | three reads by two processes after which one has two quota records, from a new server with two entries and a quota of two |
| `MemoryHistories.StarvationReached` | memoria/src/memoria.c:494-539 | from a new server with three entries and a quota of two, eleven reads by three processes and four deletions of pages after which a live process owns no entry, is recorded at its quota and has a page whose read finds no entry to replace |
| `MemoryHistories.StaleRead` | memoria/src/memoria.c:466-473 | from a new server, two pages written in full and then some bytes of the first: a read of it shows the second page around those bytes, wrong wherever the two differ |
| `MemoryHistories.HeapMisread` | kernel/src/solicitudes.c:152-161 | from a new server, a program stores four bytes into a block it has: the kernel's read of the whole heap page gets bytes that are no heap page, while the frame holds the same blocks |
| `MemoryHistories.DeleteForAnother` | memoria/src/memoria.c:825-849 | deleting a page that a process does not have takes the only page of another, from a new table |
| `Scheduler.InitOk` | kernel/src/kernel_generales.c:81-100 | the starting kernel satisfies the invariant |
| `Scheduler.StepKeeps` | kernel/src/solicitudes.c:436-611 | every handler, and every waiting handler that goes on, keeps: each process in exactly one place, queue lengths max(0, -count), waiting equals blocked, CPU tokens plus the tokens that waiting handlers owe equal free CPUs plus strays, planned count less waiting handlers, planner tokens; kills are never excluded |
| `Scheduler.RunKeeps` | kernel/src/kernel.c:267-371 | the same in every state of every sequence of handlers, irregular events and handlers that wait included |
| `Scheduler.FinishedAbsorbs` | kernel/src/kernel.c:364-371 | no sequence of handlers removes anything from the finished queue |
| `Scheduler.FinishedForGood` | kernel/src/kernel.c:364-371 | a finished process is in no other place for the rest of the history |
| `Scheduler.DispatchFindsCpu` | kernel/src/kernel.c:315-355 | without abrupt idle losses a dispatch finds a free CPU and gives it the process it popped |
| `Scheduler.DispatchDropsIff` | kernel/src/kernel.c:315-355 | a dispatch drops its process if and only if a process is ready and no CPU of the list is free, which needs a stray token |
| `Scheduler.AdmissionExact` | kernel/src/kernel.c:289-313 | the planned count less the handlers that wait for it equals ready + executing + blocked if and only if irregular kills balance dropped processes; the degree bounds it; a pending token exists whenever there is room, as long as no handler had to wait |
| `Scheduler.EndingWaitsIff` | kernel/src/kernel.c:364-371 | a handler that ends a process takes its count, or waits for it if and only if irregular kills have used up all counts; waiting, it has ended the process and freed the CPU but owes the CPU token, and a kill or the end of a killed instruction also holds mutex_kill |
| `Scheduler.CpuTokensExact` | kernel/src/solicitudes.c:470-485 | CPU tokens are free CPUs plus strays less what waiting handlers owe; they are equal if and only if no handler that freed a CPU waits |
| `Scheduler.HeldUntilAdmission` | kernel/src/kernel_generales.c:274-345 | on every run without an admission a waiting handler stays waiting: mutex_kill stays held, no kill takes effect and no instruction ends |
| `Scheduler.PlannerPendingIff` | kernel/src/kernel.c:289-313 | a token stays pending for the planner in every step, except if and only if a handler that waited takes the count of a process while the planner, at the degree, has used its last token with processes in NEW |
| `SchedulerHistories.TokenOwed` | kernel/src/solicitudes.c:470-485 | with degree 1: a process runs, a NEW one is killed, the process ends; its CPU is free and no CPU token is there |
| `SchedulerHistories.IdleBesideReady` | kernel/src/solicitudes.c:470-485 | with degree 2 and two NEW processes killed, the end of one process leaves another ready beside an idle CPU whose token is owed, and it cannot be dispatched |
| `SchedulerHistories.PlannerStalls` | kernel/src/kernel.c:289-313 | with degree 1, a history after which a process is NEW, nobody is planned and no token is pending |
| `Scheduler.NobodyWaits` | kernel/src/kernel.c:364-371 | without irregular kills no handler ever waits, CPU tokens equal free CPUs plus strays, and a planner token is pending whenever there is room |
| `Scheduler.SignalSemaphores` | kernel/src/solicitudes.c:436-459 | a signal keeps queue lengths and the agreement of waiting with blocked |
| `Scheduler.WaitSemaphores` | kernel/src/solicitudes.c:525-542 | a wait that blocks keeps them |
| `Scheduler.KillSemaphores` | kernel/src/kernel_generales.c:288-309 | a kill of a blocked process keeps them |
| `Scheduler.SignalWakesFirst` | kernel/src/solicitudes.c:436-459 | a signal on a semaphore with waiters finds the first waiter blocked and moves exactly it to the end of ready |
| `Scheduler.QueueChange` | kernel/src/solicitudes.c:436-542 | a wait queue only loses its head to a signal, loses a killed process, or grows at its end |
| `Scheduler.NoOvertaking` | kernel/src/solicitudes.c:436-542 | in one step waiters keep their order, and a later one leaves before an earlier one only by being killed |
| `Scheduler.FirstComeFirstServed` | kernel/src/solicitudes.c:436-542 | over any sequence of handlers, as long as a process waits nobody behind it leaves the queue except by being killed |
| `Scheduler.SubmitMoves` | kernel/src/solicitudes.c:41-91 | exactly the new process moves, from nowhere to NEW |
| `Scheduler.AdmitMoves` | kernel/src/kernel.c:289-313 | exactly the oldest NEW process moves, to ready or finished, if and only if the planned count is below the degree |
| `Scheduler.SignalMovesOne` | kernel/src/solicitudes.c:436-459 | exactly the first waiter moves, from blocked to ready, if and only if somebody waits |
| `Scheduler.TerminateMoves` | kernel/src/solicitudes.c:470-485 | exactly the CPU's process moves, to finished |
| `Scheduler.LoseMoves` | kernel/src/kernel.c:210-220 | exactly the CPU's process moves, to ready; with an idle CPU nobody does |
| `Scheduler.KillMeetsWait` | kernel/src/solicitudes.c:525-611 | a killed process reaches finished at the end of its instruction if and only if that is not a blocking wait |
| `Scheduler.MarkTakesEffectIff` | kernel/src/solicitudes.c:486-611 | a running process marked as killed reaches finished in a step if and only if its program ends or its instruction ends without blocking; it is ready again if and only if its CPU leaves, blocked if and only if the instruction blocks, and marked still in every other step |
| `Scheduler.WaitIsForgotten` | kernel/src/kernel.c:210-220 | a wait noted on a CPU that leaves takes no unit of the semaphore; the process is ready again |
| `SchedulerLaws.Quantum` | kernel/src/kernel_generales.c:245-252 | over any run, with round robin: from its dispatch on a process is on its CPU while the ends of its instructions are fewer than the quantum, and the end that uses it up makes it the last that is ready and leaves the CPU idle and unmarked |
| `SchedulerLaws.KeepsCpu` | kernel/src/kernel_generales.c:245-252 | over any run, a process keeps its CPU while its quantum lasts, and without round robin until it ends, blocks, is killed or loses it |
| `SchedulerLaws.EndOfTurn` | kernel/src/solicitudes.c:555-575 | the end of an instruction that neither blocks nor was killed takes the process off if and only if round robin is on and the quantum used up |
| `SchedulerLaws.EndBlocks` | kernel/src/solicitudes.c:525-560 | a process whose instruction blocks is the last that waits for the semaphore and the last that is blocked, and its CPU is idle with its token |
| `SchedulerLaws.WaitThenEnd` | kernel/src/solicitudes.c:460-542 | a wait and the end of its instruction take exactly one unit; without units the process waits last, with units it is not blocked |
| `SchedulerLaws.UnitsConserved` | kernel/src/solicitudes.c:436-542 | over any run, the count of a semaphore is the count before, plus signals, less waits taken, plus waiters killed, and as many processes wait as it is below zero |
| `SchedulerLaws.DispatchLands` | kernel/src/kernel.c:315-355 | a dispatch gives the process that is ready longest to the first free CPU of the list, with nothing counted, and changes no other CPU |
| `SchedulerLaws.DispatchedInOrder` | kernel/src/kernel.c:315-355 | over any run, while a process is ready nobody behind it leaves the ready queue unless killed |
| `SchedulerLaws.AdmittedInOrder` | kernel/src/kernel.c:289-313 | over any run, while a process is NEW nobody behind it leaves the queue unless killed |
| `SchedulerLaws.IdleAlwaysClean` | kernel/src/kernel_generales.c:206-213 | on every run, a free CPU has counted no instruction and has no mark |
| `SchedulerLaws.ConnectLands` | kernel/src/kernel.c:143-190 | a CPU that connects is the last of the list, idle, with a token |
| `SchedulerLaws.LoseLands` | kernel/src/kernel.c:210-220 | a CPU that leaves is off the list, the others stay as they are, and its process is the last that is ready |
| `SchedulerLaws.KillFinishes` | kernel/src/kernel_generales.c:274-345 | a kill moves a process from any queue to the end of finished, and nobody else and no CPU |
| `SchedulerLaws.KillMarks` | kernel/src/kernel_generales.c:313-323 | a kill of a running process marks its CPU and changes nothing else |
| `SchedulerLaws.KillMisses` | kernel/src/kernel_generales.c:313-318 | a kill of a pid that is nowhere or has ended changes nothing |
| `SchedulerHistories.KillDuringWait` | kernel/src/solicitudes.c:525-611 | a history from the start after which a killed process is still blocked and an empty place is finished |
| `SchedulerHistories.KillOfNewOvershoots` | kernel/src/kernel_generales.c:274-345 | a concrete history with degree 1 in which killing a NEW process lets two others in |
| `SchedulerHistories.IdleLossDrops` | kernel/src/kernel.c:210-220 | a concrete history in which the abrupt loss of an idle CPU costs a dispatched process its place |
| `SchedulerHandlers.KernelState.SubmitProgram` | kernel/src/solicitudes.c:41-91 | a process that was nowhere is NEW and nobody else moves; a planner token is posted; the whole invariant is kept |
| `SchedulerHandlers.KernelState.NewToReady` | kernel/src/kernel.c:289-313 | the oldest NEW process becomes ready, or finished if memory is full, if and only if the planned count is below the degree; nobody else moves; the invariant is kept |
| `SchedulerHandlers.KernelState.ReadyToExecute` | kernel/src/kernel.c:315-355 | the handler, with its search for a free CPU, computes the dispatch step |
| `SchedulerHandlers.KernelState.SignalSemaphore` | kernel/src/solicitudes.c:436-459 | the first waiter becomes ready if and only if somebody waits; nobody else moves; the invariant is kept |
| `SchedulerHandlers.KernelState.WaitSemaphore` | kernel/src/solicitudes.c:460-469 | nobody moves before the instruction ends; the invariant is kept |
| `SchedulerHandlers.KernelState.InstructionEnded` | kernel/src/solicitudes.c:512-611 | the CPU is told to go on if and only if its process was not killed, does not block and, with round robin, has quantum left; then the process is still its, with one more instruction counted; if it was neither killed nor blocks, it is otherwise the last that is ready and the CPU idle with its token; the invariant is kept |
| `SchedulerHandlers.KernelState.ProgramEnded` | kernel/src/solicitudes.c:470-485 | exactly the process of the CPU moves, to finished; the CPU token is posted if and only if a count was there to take, otherwise it is owed; the invariant is kept |
| `SchedulerHandlers.KernelState.GoOnAfterExit` | kernel/src/solicitudes.c:470-485 | an exit handler that waited goes on: nobody moves, one handler less waits, the CPU token it owed is there and tokens plus tokens owed are as before; the invariant is kept |
| `SchedulerHandlers.KernelState.GoOnWithMutex` | kernel/src/kernel_generales.c:338-345 | the handler that waited with mutex_kill goes on: nobody moves, one handler less waits, tokens plus tokens owed are as before and kills are let in again; the invariant is kept |
| `SchedulerHandlers.KernelState.CpuDisconnected` | kernel/src/solicitudes.c:486-492 | exactly the process of the CPU moves, to ready; the invariant is kept |
| `SchedulerHandlers.KernelState.CpuLost` | kernel/src/kernel.c:210-220 | exactly the process of the CPU, if it has one, moves to ready; the token of an idle one stays; the invariant is kept |
| `SchedulerHandlers.KernelState.KillProcess` | kernel/src/kernel_generales.c:274-345 | the handler searches the queues in order and computes the kill step |
| `SchedulerHandlers.KernelState.Handle` | kernel/src/solicitudes.c:436-611 | any handler from any reachable state computes its step and keeps the whole invariant, the tokens owed by waiting handlers included |
| `HeapPage.HeaderRoundTrip` | kernel/src/solicitudes.c:726-731 | a header written over any bytes reads back with its size and flag |
| `HeapPage.LayoutIsOne` | kernel/src/solicitudes.c:733-748 | the bytes of a page have at most one layout |
| `HeapPage.HeaderBytes` | kernel/src/solicitudes.c:726-731 | a header is the size in four bytes, least significant first, the flag in the fifth and three of padding |
| `HeapPage.StoreKeeps` | cpu/src/funcionesParser.c:115-134 | a program's write inside a block it has leaves the layout of the page |
| `HeapPage.EmptyIff` | kernel/src/solicitudes.c:998-1001 | the recorded free space is page - 8 if and only if the page is one free block |
| `HeapPage.FitIsFirst` | kernel/src/solicitudes.c:733-748 | the block found is free with at least n + 8 bytes, and every block before it is used or smaller; none is found exactly when no block is free and large enough |
| `HeapPage.CarvedSplits` | kernel/src/solicitudes.c:788-799 | the first n bytes of that block are used, the rest less a header is free, and no other block changes |
| `HeapPage.JoinedIsFirst` | kernel/src/solicitudes.c:960-984 | the first two adjacent free blocks become one and no other block changes; without two, nothing does |
| `HeapPage.Allocated` | kernel/src/solicitudes.c:788-803 | carving the first fit keeps the page tiled and takes n + 8 from its free space |
| `HeapPage.AllocatedLive` | kernel/src/solicitudes.c:788-799 | exactly one live block is added; every live block is apart from it and keeps its bytes |
| `HeapPage.MarkedTooSmall` | kernel/src/solicitudes.c:781-799 | marking a block that is too small leaves bytes that no blocks tile, because the size wraps at 32 bits |
| `HeapPage.Released` | kernel/src/solicitudes.c:771-779 | freeing a live block keeps the page tiled and gives back exactly its bytes |
| `HeapPage.ReleasedLive` | kernel/src/solicitudes.c:771-774 | exactly that block stops being live; the others keep their bytes |
| `HeapPage.Merged` | kernel/src/solicitudes.c:962-985 | joining the first free pair keeps the page tiled and gains one header |
| `HeapPage.MergedLive` | kernel/src/solicitudes.c:962-985 | joining changes no live block |
| `HeapPage.FindBlock` | kernel/src/solicitudes.c:733-748 | the walk ends inside the page and returns the first fit, or 0 exactly when nothing fits or the fit is there |
| `HeapPage.MarkUsed` | kernel/src/solicitudes.c:788-799 | writes the two headers of a split block |
| `HeapPage.FindPair` | kernel/src/solicitudes.c:962-981 | the walk finds the first two adjacent free blocks and their joint size |
| `HeapPage.Defragment` | kernel/src/solicitudes.c:962-985 | joins that pair and only that one |
| `HeapKernel.PointerRoundTrip` | kernel/src/solicitudes.c:1034-1046 | the address handed out decodes to the same heap page and header offset |
| `HeapKernel.MisfitBreaks` | kernel/src/solicitudes.c:697-748 | when total space suffices but no block fits, no layout of the page then has the recorded free space |
| `HeapKernel.NextIsNew` | kernel/src/solicitudes.c:710-724 | the number given to a new page is above those of all pages of the process in the table |
| `HeapKernel.NextFollowsLast` | kernel/src/solicitudes.c:712-725 | the next page of a process has the number after that of its last page in the table, and 0 without one |
| `HeapKernel.NextAfterRelease` | kernel/src/solicitudes.c:987-992 | returning a page moves the next number back if and only if it was the process's last |
| `HeapKernel.NumbersAgreeIff` | kernel/src/solicitudes.c:714-722 | kernel and memory server agree on the next page number after a page is returned if and only if they did before and it was not the last page |
| `HeapKernel.NextIsUnmapped` | kernel/src/solicitudes.c:710-724 | no page is mapped under the number the kernel gives the next page |
| `HeapKernel.ReleasePage` | kernel/src/solicitudes.c:771-779 | free and merge together: tiling, exact gain in free space, exactly one live block fewer, all others' bytes kept |
| `HeapKernel.ReturnedIff` | kernel/src/solicitudes.c:998-1001 | the page comes out as one free block if and only if the freed block was alone or had one free neighbour and nothing else; otherwise an unused page stays |
| `HeapKernel.TakenHeap` | kernel/src/solicitudes.c:156-164 | for all pages of all processes: one live block more if the page has a first fit; if not, that page agrees with nothing and every other page keeps tiling, accounting, blocks and bytes |
| `HeapKernel.AddedHeap` | kernel/src/solicitudes.c:136-149 | when the numbers agree the new page is the one free block its record says and all others are unchanged |
| `HeapKernel.ReleasedHeap` | kernel/src/solicitudes.c:177-204 | for all pages of all processes: one live block fewer and nothing else |
| `HeapKernel.HeapManager.Reserve` | kernel/src/solicitudes.c:92-176 | the four outcomes, each exactly when it happens, error finalization included; on success one live block more, disjoint, all payloads kept, if and only if the chosen page has a first fit; otherwise only that page breaks; the page is the first of the process with n + 8 bytes free, and in it the first free block with room is split (offset 0 and a broken page without one); the address is that of the block's bytes |
| `HeapKernel.HeapManager.Liberate` | kernel/src/solicitudes.c:177-204 | a live block given back: the heap stays tiled and accounted, the page is returned if and only if it is then one free block, and then it held no other live block; in the page exactly that block becomes free and the first two free neighbours, if any, one block |
| `HeapHistories.NumbersDiffer` | kernel/src/solicitudes.c:710-724 | reserve, free, reserve from an empty heap: the kernel uses a page that is not there |
| `HeapHistories.Fragmented` | kernel/src/solicitudes.c:695-748 | four requests and a release from an empty heap: a page with enough free space and no block that fits, and the page it becomes |
| `Bitmap.NoneShared` | file-system/src/file-system.c:258-316 | no two files, and no two places of one file, share a block, and its bit is set |
| `Bitmap.OwnedAdd` | file-system/src/file-system.c:438-462 | setting a clear bit for a block added to a file keeps bits and ownership equal |
| `Bitmap.OwnedRemove` | file-system/src/file-system.c:463-468 | clearing the bit of a block taken from a file keeps them equal |
| `Bitmap.GetAvailable` | file-system/src/file-system.c:304-316 | sets and returns the first clear bit, or -1 exactly when there is none |
| `Bitmap.ReleaseAll` | file-system/src/file-system.c:258-272 | clears exactly the bits of the file's blocks, and then some bit is clear |
| `FileBlocks.ReadBlocks` | file-system/src/file-system.c:361-388 | the loop returns exactly the bytes offset .. offset + size of the blocks in a row |
| `FileBlocks.WriteBlocks` | file-system/src/file-system.c:474-502 | with enough blocks the loop changes exactly the written bytes of the file; with too few, what has no block goes to block 0; no other block changes |
| `FileBlocks.SpaceBlock` | file-system/src/file-system.c:285-292 | a new block is 64 spaces |
| `FileSystem.BlocksSuffice` | file-system/src/file-system.c:438-447 | blocks plus added blocks is always ceil(size / 64) |
| `FileSystem.EveryOtherStays` | file-system/src/file-system.c:463-470 | the rollback gives back every other added block; it restores the list if and only if at most one was added |
| `FileSystem.Server.Rollback` | file-system/src/file-system.c:463-470 | the loop computes that list, with bits and ownership equal and as many bits clear as blocks were given back |
| `FileSystem.Server.Expand` | file-system/src/file-system.c:438-472 | with enough free blocks exactly the needed ones are added; with too few, but some, the loop still ends and leaves fewer than needed |
| `FileSystem.Server.Create` | file-system/src/file-system.c:233-302 | a file of one block of spaces; ISDIR and ENOSPC change nothing; recreating never fails for space; ownership of blocks is kept in every state and all other contents stay; the block is the first one clear |
| `FileSystem.Server.Delete` | file-system/src/file-system.c:318-341 | the file goes, exactly its bits are cleared, ownership is kept in every state and all other contents stay |
| `FileSystem.Server.Read` | file-system/src/file-system.c:343-411 | below size - 1, exactly min(size, length of the content - offset) bytes of the content from offset on; ISNOTREG without a file, and no reply exactly from size - 1 on |
| `FileSystem.Server.ReadAll` | file-system/src/file-system.c:343-411 | a read from 0 of at least the length of the content gives all of it |
| `FileSystem.Server.WriteThenRead` | file-system/src/file-system.c:343-526 | a read of the bytes of a write with room gives the data written, unless it starts with the last byte of the file: then there is no reply |
| `FileBlocks.BlocksInOrder` | file-system/src/file-system.c:360-395 | the content of a file is that of its blocks in the order of its list |
| `FileSystem.Server.Write` | file-system/src/file-system.c:413-526 | in every case each block keeps one owner with its bit set and no block of another file changes except block 0. A splice of the flat content with spaces in the gap, all other contents kept, if and only if there were enough free blocks; with some but too few it still succeeds, the size is beyond the blocks and the rest is in block 0 |
| `FileSystem.ShortDisk` | file-system/src/file-system.c:438-472 | a disk of three blocks and a write of four: success, ownership intact, a file larger than its blocks, and the last 64 bytes in block 0 |
| `Serializer.SerializeCode` | shared-library/shared-library/serializar.c:273-295 | the bytes of the code index |
| `Serializer.SerializeVariables` | shared-library/shared-library/serializar.c:358-382 | the bytes of a list of arguments or variables |
| `Serializer.SerializeContext` | shared-library/shared-library/serializar.c:335-356 | the bytes of a stack context |
| `Serializer.SerializeStack` | shared-library/shared-library/serializar.c:297-333 | the bytes of the stack index |
| `Serializer.SerializeLabels` | shared-library/shared-library/serializar.c:238-271 | the bytes of the labels, for any order in which the dictionary is visited |
| `Serializer.Serialize` | shared-library/shared-library/serializar.c:211-236 | the encoding comes first in the declared length, which is 34 bytes more |
| `Serializer.ReadCode` | shared-library/shared-library/serializar.c:138-149 | reads back any code index from any buffer that holds its encoding |
| `Serializer.ReadVariables` | shared-library/shared-library/serializar.c:161-184 | reads back any list of variables |
| `Serializer.ReadStack` | shared-library/shared-library/serializar.c:151-187 | reads back any stack index |
| `Serializer.ReadString` | shared-library/shared-library/serializar.c:200-202 | reads back any NUL-free label |
| `Serializer.ReadLabels` | shared-library/shared-library/serializar.c:189-207 | the dictionary read is the one sent, whatever the order of the entries |
| `Serializer.Deserialize` | shared-library/shared-library/serializar.c:126-209 | any buffer that starts with the encoding of a block, whatever follows, gives that block |
| `Serializer.Transfer` | shared-library/shared-library/serializar.c:126-236 | a block serialized and deserialized is the same block |
| `Serializer.NumberBytes` | shared-library/shared-library/serializar.c:211-295 | every number goes least significant byte first, in two or four bytes, negative ones in two's complement |
| `Serializer.PcbBytes` | shared-library/shared-library/serializar.c:211-236 | the block is pid, PC, pages, SP and exit code, two bytes each, then the code index, the stack index and the labels, each with its count |
| `Serializer.CodeBytes` | shared-library/shared-library/serializar.c:273-295 | the i-th entry of the code index is at 2 + 8i, offset before size |
| `Serializer.VariableBytes` | shared-library/shared-library/serializar.c:358-382 | the i-th variable is at 4 + 13i: name, page, offset, size |
| `Serializer.ContextBytes` | shared-library/shared-library/serializar.c:335-356 | a context is its return line, the page, offset and size of its result, its arguments and its variables |
| `Serializer.PairBytes` | shared-library/shared-library/serializar.c:238-271 | a label is its length with the terminator, its key, the terminator and its line |
| `CpuStack.LastIsEnd` | cpu/src/funcionesCPU.c:140-175 | what the search finds in a context with variables is the greatest end of one of them |
| `CpuStack.EndIsLast` | cpu/src/funcionesCPU.c:140-188 | every live variable of every context ends at or before the end of the stack |
| `CpuStack.NextIsEnd` | cpu/src/funcionesCPU.c:140-203 | the recursive search and getNextPosStack give the end of the stack |
| `CpuStack.ContextsApart` | cpu/src/funcionesCPU.c:140-219 | the variables of a context lie after those of every context under it |
| `CpuStack.AddressRoundTrip` | cpu/src/funcionesCPU.c:212-219 | page and offset are recovered from a variable's address |
| `CpuStack.AddressesApart` | cpu/src/funcionesParser.c:24-49 | variables apart as places are at least 4 bytes apart as addresses |
| `CpuStack.RoomIsFree` | cpu/src/funcionesParser.c:24-49 | the place of a new variable is within one page and after every live variable |
| `CpuStack.DefineKeeps` | cpu/src/funcionesParser.c:24-49 | a new variable keeps the layout, and without an error code it is in a stack page |
| `CpuStack.FetchKeeps` | cpu/src/cpu.c:92-100 | the start of an instruction keeps SP and layout, and the next free place is the end of the stack |
| `CpuStack.StepKeepsIff` | cpu/src/funcionesParser.c:24-174 | every operation keeps layout, SP = contexts - 1 and stack bounds if and only if it is no call past 65536 contexts and no return from the first context |
| `CpuStack.RunKeeps` | cpu/src/cpu.c:70-181 | the same over every sequence of operations |
| `CpuStack.RunUnder` | cpu/src/funcionesParser.c:51-174 | no sequence of operations inside a call touches the contexts below it or its return position and place |
| `CpuStack.CallAndReturn` | cpu/src/funcionesParser.c:51-174 | after a call, anything inside it and its return: stack, SP and PC are the caller's at the call and the next free place is the caller's; the place and size for the value are those given at the call |
| `CpuStack.GoesTo` | cpu/src/funcionesParser.c:51-142 | a call or jump and the end of its instruction leave PC at the line of the label |
| `CpuStack.GoesOnAfterCall` | cpu/src/funcionesParser.c:51-174 | after a call, which starts at the line of its label, anything inside it and its return, the end of the instruction leaves PC at the line after the call's and the stack as it was |
| `CpuStack.Interpreter.StartInstruction` | cpu/src/cpu.c:92-100 | the first context is created if there is none and the next place computed |
| `CpuStack.Interpreter.DefineVariable` | cpu/src/funcionesParser.c:24-49 | the variable is added to the arguments or the variables of the context, at the next place with 4 bytes left in a page; the address is that of the place, or 0 exactly on overflow |
| `CpuStack.Interpreter.VariablePosition` | cpu/src/funcionesParser.c:76-95 | the address of the first variable of that name in the current context |
| `CpuStack.Interpreter.CallLabel` | cpu/src/funcionesParser.c:51-58 | a new empty context on top with the line of the call, and PC one before the line of the label; regular if and only if SP can count it |
| `CpuStack.Interpreter.CallLabelFor` | cpu/src/funcionesParser.c:60-74 | the same with the page and offset of the address for the result and its size |
| `CpuStack.Interpreter.ReturnValue` | cpu/src/funcionesParser.c:144-163 | computes the return step and gives the place and the size of the write of the value, which Variables.ReturnTo then does; regular if and only if it is not the first context |
| `CpuStack.Interpreter.FinishContext` | cpu/src/funcionesParser.c:165-174 | computes the finish step; the program ends exactly when no context is left |
| `CpuStack.Interpreter.GoToLabel` | cpu/src/funcionesParser.c:136-142 | PC is one before the line of the label and nothing else changes |
| `CpuStack.Interpreter.EndOfInstruction` | cpu/src/cpu.c:158-178 | PC moves to the next line; the kernel is told that the program ends, the CPU leaves, the program fails or the instruction ends, in that order of precedence |
| `Variables.LiveApart` | cpu/src/funcionesParser.c:24-49 | no two variables of any contexts share a byte |
| `Variables.StoresOne` | cpu/src/funcionesParser.c:115-134 | in the frames, a value written at the place of a live variable changes the value of that variable and of no other, and no other page |
| `Variables.AssignsOne` | cpu/src/funcionesParser.c:97-134 | what every live variable reads after an update of the cache for an assignment: the variable its value, others on the page what the entry held, those of a page that lost the entry what their frames hold, all others what they did |
| `Variables.Assign` | cpu/src/funcionesParser.c:115-134 | asignar on the server: the variable reads back its value; another variable reads what was assigned to it if and only if it is on the same page and the entry updated held its bytes, or its page lost that entry, or it did before; a hit changes what no other variable reads |
| `Variables.Dereference` | cpu/src/funcionesParser.c:97-113 | dereferenciar on the server: gets what the variable reads, right or not, and changes what another variable reads only to make it right |
| `Variables.ReturnTo` | cpu/src/funcionesParser.c:60-163 | retornar with its write, after a call for a variable and anything inside it: stack and PC are the caller's, and the variable is assigned the value with exactly the effects of Assign on the caller's variables |
| `VariableHistories.StaleVariable` | cpu/src/funcionesParser.c:97-134 | a new program with six variables and a new server with one entry: after three assignments a read of the first variable gets the value of the second one assigned, while the frame holds its own |
| `CodeFetch.CodePages` | kernel/src/solicitudes.c:633-639 | the least number of pages that hold the code |
| `CodeFetch.Load` | kernel/src/solicitudes.c:647-662 | one write for each code page; the pages then hold the code; no later page is touched; the last page keeps its bytes behind the code |
| `CodeFetch.LoadedInOrder` | kernel/src/solicitudes.c:647-662 | byte k of the code is in page k / size at k % size |
| `CodeFetch.CoversIff` | cpu/src/cpu.c:105-121 | the one or two reads cover exactly the instruction if and only if it ends before the end of the page after its first; size at most a page suffices |
| `CodeFetch.ReadIsCode` | cpu/src/cpu.c:123-135 | a read within a loaded page is the matching slice of the code |
| `CodeFetch.Fetch` | cpu/src/cpu.c:105-135 | the fetched bytes are exactly code[offset .. offset + size] |
| `OpenFiles.ReopenKeeps` | kernel/src/solicitudes.c:858-880 | an open of a path already open raises its count with the entries |
| `OpenFiles.OpenNewKeepsIff` | kernel/src/solicitudes.c:844-856 | a path opened anew keeps counts, unique paths and no dangling entry if and only if its 8-bit descriptor is not in use |
| `OpenFiles.CloseKeeps` | kernel/src/solicitudes.c:906-926 | a close lowers the count, or removes the global entry with the last one, and keeps all of that |
| `OpenFiles.TwoPoint` | kernel/src/solicitudes.c:376-378 | two different entries for a path count as two opens |
| `OpenFiles.FindsFirst` | kernel/src/solicitudes.c:858-905 | a search for a path, a global or a process descriptor finds the first entry that has it |
| `OpenFiles.FileTables.Open` | kernel/src/solicitudes.c:805-842 | which of the outcomes, exactly when, with the code of a failed creation passed on; a failed open changes nothing; the new entry names the path's global entry; no other process's entries change; the tables stay right if and only if the descriptor was not in use |
| `OpenFiles.FileTables.Close` | kernel/src/solicitudes.c:338-363 | exactly the first entry of that descriptor goes and its path is one open less; an unknown descriptor changes no entry and no count; no other process's entries change |
| `OpenFiles.FileTables.Delete` | kernel/src/solicitudes.c:364-394 | a delete is issued if and only if the requester's entry is the only one that points to the path |
| `OpenFiles.DescriptorReused` | kernel/src/solicitudes.c:844-856 | a path kept open while another is opened and closed 255 times: the next path gets the same global descriptor |

## Left out

- Sockets, message framing and request plumbing: the model starts from decoded requests.
- Threads, lock order and deadlock: every handler is one atomic step, or two when it waits for the planned count in between. Cache locks are modelled only as what one thread holds.
- The AnSISOP parser and `metadata_desde_literal`: labels and instruction offsets are arguments.
- Consoles, logging, delays, configuration files, `malloc` and `free`.
- The decimal-concatenation hash: any function into the frames; wall-clock strings: any integer time per request.
- Shared variables, system-call and byte counters, file cursors, and the reading and writing requests of the kernel that only forward to the file system.
- Heap requests over the memory server's own state: `HeapKernel` has its own map of heap pages and page counters instead of calling `MemoryServer`, so that it sees every page as its frame holds it. When the kernel does not, and that it then writes the wrong page back, is in `MemoryServer.Server.WriteThenRead` and `MemoryHistories.HeapMisread` only.
- Variables.Assign: addresses of live variables, and a cache that has an entry for the process to take, because otherwise the source writes outside it; assignments through other pointers are requests to `MemoryServer` like any other.
- Variables.Dereference: the same.
- Variables.ReturnTo: the same, for a call whose result has a variable to go to.
- A CPU that sends OC_DESCONEX_CPU and then closes its socket: the CPU is off the list by then and `kernel.c:214-215` dereferences the NULL that the search gives.
- The stop and start commands of the kernel console, and the wrap-around of pid at 16 bits.
- Unsigned 32-bit wrap-around of offset + size in the memory server, and file offsets and sizes of 2^31 and more, which the file system turns negative.
- PageTable.Table.DeletePage: for a page that is not mapped in a bucket with an empty overflow list, requires the uninitialized variable to name a frame; any other value is a write outside the table.
- MemoryServer.Server.DeletePage: requires a nonempty overflow list when the page is not mapped; the other case is in PageTable.Table.DeletePage.
- MemoryServer.Server.WritePage: requires that the cache has an entry for the process to take, because otherwise the source writes outside the cache.
- MemoryServer.Server.ReadPage: the same.
- HeapKernel.HeapManager.Reserve: says nothing of the state after a crash of the kernel, and requires a process whose memory was not finalized by an earlier failure and a page that was not broken before, because the source then walks over bytes that are no blocks.
- HeapKernel.HeapManager.Liberate: requires an address in use; what the source does with any other depends on bytes of the program.
- FileSystem.Server.Expand: requires a free block when one is needed, because without one the source never leaves the loop.
- FileSystem.Server.Read: requires that the blocks of the file hold the bytes asked for, as they do unless a write ran out of blocks; the source then opens a block file that does not exist.
- FileSystem.Server.Write: requires a free block when one is needed, for the same reason; the ENOSPC replies that the loop sends before the final success are not modelled; a block file that was never created is taken to exist, because block 0 was the first one ever used.
- FileSystem.Server.Create: host directories are one argument; a path component that is a regular file is not modelled.
- Serializer.Deserialize: buffers that hold no encoded block are not modelled, because the source does not check bounds.
- CpuStack.Interpreter.ReturnValue: gives the request for the write of the value; the write is in Variables.ReturnTo. A lost connection to the memory server is not modelled.
- CpuStack.StepKeepsIff: pages of at least 4 bytes; calls to labels that do not exist crash the source and are not modelled.
- CodeFetch.Load: the pages are flat; between them and the CPU is the cache, which shows every byte written since its entry took the page as written (MemoryServer.Server.ReadPage).
- CodeFetch.Fetch: the terminator that the CPU writes over the last byte of an instruction, and the second read of no bytes when an instruction ends at a page's end.
- OpenFiles: 8-bit descriptors of a process that repeat within its table are not excluded; the first match is used, as in the source.
