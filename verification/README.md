# Verified model of the in-process Windows layer

Crossover-IOS runs several Windows processes inside one host process: "pseudo-processes" are thread
groups, wineserver is a thread, each child gets its own PEB, server socket and descriptor cache, and
the display driver hands pixels to the app through shared memory. This project models that code in
Dafny and proves what keeps it correct. It has four parts.

**Pseudo-processes** (`native/pseudoproc/pproc.c`). `PprocTable` holds the critical sections of the
256-slot table, as functions and as in-place methods. `Pproc` is the step machine: any number of
threads run the trampolines, `pproc_spawn`, `pproc_thread_create`, `pproc_exit` and `pproc_wait`, one
lock-to-unlock section per step, with spurious wakeups. `PprocTheorems` has the safety results,
`PprocLiveness` termination under weak fairness, `PprocTwoWaiters` what breaks without the rule
"one waiter per pid".

**Display and input** (patch 0007, `WineDisplayHost.c`, `GuestScreenView.swift`). `SurfaceRegistry`
is the host's table. `Presenter` is the publish-and-poll protocol, and `PresenterLog` says what it
shows as a function of the steps taken. `DisplayLocks` runs every entry point instruction by
instruction, with locks, allocation and stale ids. `PixelCopy` is the clipped
copy, `InputQueue` the ring and the drain loop, `Titles` the title table and its UTF-8 conversion.

**Per-process registries and spawning** (patch 0003). `PebTable` is the hole-tolerant 64-slot table
and the map it stands for. `InprocSpawn` is one spawn with its rollback, and one exit, on a host that
holds three such tables. `InprocSteps` takes the same code apart: any number of spawns, rollbacks and
exits under way at once, one lock section per step. `InprocIsolation` says which children have their
own socket, image info and cache, `InprocRollback` what a failed spawn leaves behind, and
`InprocOverlap` gives the runs that show the bounds tight. `LockFreeLookup` interleaves the unlocked
cache scan with the writers store by store. `FdCache` is the two-level handle cache of each process
and of all of them.

**Server thread and PE images** (`psrv.c`, `peload_test.c`, `mkexe.c`). `PsrvIo` has the transfer
loops, `PsrvHandles` the handle table, `PsrvLinear` clients and server over fragmented byte streams,
`PsrvCalls` the handled requests as those the clients began, and `PsrvClients` the client table, its
stale snapshots and the wakeup pipe. `PeReloc`, `PeLoad`,
`PeImage` and `PeLayout` cover the relocation walk, the loader and the bytes it reads, `PeEmit` and
`PeSelfTest` the emitted image.
`Bytes` has little-endian words, `Wrappers` the option type.

Class methods work in place and are proved against functions on values; the step machines use the
same functions; the theorems are about all runs. Where a model keeps history (`exits`, `accepted`,
`log`, `turns`, `begun`, `noServer`, `home`), nothing in the modelled program reads it.

Results that a reader of the code may not expect:

- `pproc_wait` drops the lock to join and then frees the slot without looking at it again. With two
  waiters on one pid the second never frees the process it was asked for: it frees whatever process
  took over the slot, or, if the slot is free, takes one too many from `live` (`PprocTwoWaiters`). All
  other results on pseudo-processes assume one waiter per pid.
- The primary occupies one of the 64 server-socket slots but none of the 64 image and cache slots, a
  registration that finds no room is dropped silently, and a spawn registers before it can fail. So
  what counts is not the children but everything under way: with at most 63 children, spawns and exits
  in progress all are isolated (`InprocIsolation`), and the bound cannot be raised. A lone 64th child
  resolves to the primary's socket, and when it exits it closes the primary's socket and leaves its own
  open. The same happens with 63 children when a spawn that later fails overlaps theirs
  (`InprocOverlap`).
- `WineDisplayHost.h:46` promises surfaces in creation order; the code lists them in slot order, and
  the model follows the code.
- A handle granted to pid 0 can never be duplicated, because owner 0 means free (`PsrvHandles`).

## Model

| member | source | states |
|---|---|---|
| PprocTable.PprocGlobals.FindLocked | native/pseudoproc/pproc.c:39-45 | the scan returns the first occupied slot with the pid, or none |
| PprocTable.PprocGlobals.SpawnSection | native/pseudoproc/pproc.c:119-152 | with a created thread it succeeds exactly if some slot is free, in the lowest free slot, which then holds the old next pid, the name, the thread, Running, no exit and no auxiliary threads; no other slot changes and `live` goes up by one; if the thread cannot be created the slot is zeroed, the pid consumed and `live` unchanged |
| PprocTable.PprocGlobals.ExitSection | native/pseudoproc/pproc.c:198-219 | first writer wins the exit code; the main thread waits exactly while auxiliary threads remain, otherwise flips the state; an auxiliary thread gives up its count |
| PprocTheorems.IdentityIsConstant | native/pseudoproc/pproc.c:155-165 | while a thread can still dereference its slot, the slot is its own running process, so `pproc_getpid` and `pproc_getname` never change although they read without the lock |
| PprocTheorems.SpawnSucceedsIffRoom | native/pseudoproc/pproc.c:119-152 | a spawn is never refused while a slot is free: the child then is an attached main thread that reads the next pid and the given name, and it can start; with a full table nothing changes |
| PprocTheorems.WaitEnters | native/pseudoproc/pproc.c:233-248 | a wait for a pid on an occupied slot blocks while that process runs and goes on to the join once it has exited; any other pid is refused |
| PprocTheorems.ThreadCreateAttaches | native/pseudoproc/pproc.c:167-191 | a created auxiliary thread belongs to the caller's process and is counted; if it cannot be created the count is as before |
| PprocTheorems.CountersAreExact | native/pseudoproc/pproc.c:167-191 | in every reachable state `aux_threads` is the number of auxiliary threads that have not decremented plus the creations in progress, and a slot that is not running has none and no thread left in it |
| PprocTheorems.ExitAlwaysDecrements | native/pseudoproc/pproc.c:216-218 | the guard `aux_threads > 0` never fails, so each auxiliary thread decrements exactly once |
| PprocTheorems.AccountsBalance | native/pseudoproc/pproc.c:114-153 | `live` is the number of occupied slots, and the pids of occupied slots are nonzero and distinct, at every lock release |
| PprocTheorems.NoLostWakeup | native/pseudoproc/pproc.c:72-80 | a thread blocked on `aux_done` or `state_changed` has its condition false, or the broadcast that wakes it has been sent |
| PprocTheorems.FirstExitSticks | native/pseudoproc/pproc.c:198-202 | once an exit code is recorded for a pid, no later step changes it |
| PprocTheorems.SlotHoldsFirstExit | native/pseudoproc/pproc.c:72-75 | in every run an occupied slot's exit is requested exactly if an exit event of its process is among the steps, and its code is that of the first one in lock order: a `pproc_exit` by any thread of the process or the return of its main thread |
| PprocTheorems.WaitReturnsFirstExit | native/pseudoproc/pproc.c:233-256 | the reap finds the slot of the pid it was called for and returns the code of that process's first exit event in the run |
| PprocTheorems.GoneIsForever | native/pseudoproc/pproc.c:129-129 | a reaped pid is never the pid of a slot again |
| PprocTheorems.ExitedIsFinal | native/pseudoproc/pproc.c:76-80 | an exited process keeps its slot, code and zero count until it is reaped, and then its pid is gone for good |
| Pproc.RunKeeps | native/pseudoproc/pproc.c:63-256 | every step of disciplined callers keeps the whole invariant: exact counters, attached threads see their own process, one main thread per slot, recorded codes, balanced accounts |
| PprocLiveness.ProcessExits | native/pseudoproc/pproc.c:204-215 | once all user code of a process has returned, every fair schedule reaches PROC_EXITED |
| PprocLiveness.WaiterReturns | native/pseudoproc/pproc.c:243-255 | a thread waiting for such a process (or for one already exited) returns from `pproc_wait` in every fair schedule |
| PprocLiveness.Reaches | native/pseudoproc/pproc.c:204-255 | the well-founded measure behind both: the helpful thread's next step always brings the goal closer, and no other step moves it away |
| PprocTwoWaiters.ReapIsRightIff | native/pseudoproc/pproc.c:246-254 | the reap keeps `live` equal to the occupied slots exactly when its slot is still occupied, which disciplined callers guarantee and the code does not check |
| PprocTwoWaiters.SecondReapIsWrong | native/pseudoproc/pproc.c:246-254 | in every run without pid wrap-around, once one waiter has reaped a pid, the pid is on no slot whenever another waiter for it reaps, however much later: `live` drops below the occupied slots by one if the slot is free, and otherwise a process with another pid is freed |
| PprocTwoWaiters.TwoWaitersCanReapAStranger | native/pseudoproc/pproc.c:243-254 | a concrete run from the initial state in which the second waiter frees the slot of another, running process, whose main thread then reads pid 0 |
| SurfaceRegistry.ListedIff | CrossoverPad/Sources/WineHost/WineDisplayHost.c:204-212 | the snapshot holds exactly the infos of the used slots |
| SurfaceRegistry.FindIsRegistered | CrossoverPad/Sources/WineHost/WineDisplayHost.c:54-59 | a lookup succeeds exactly for registered ids, and finds the only slot with that id |
| SurfaceRegistry.HostRegistry.SurfaceAdded | CrossoverPad/Sources/WineHost/WineDisplayHost.c:71-93 | the first unused slot holds the given id, window, size and stride, unplaced, invisible and without updates; no other slot changes; a full registry drops the surface; the change counter goes up either way |
| SurfaceRegistry.HostRegistry.SurfacePlaced | CrossoverPad/Sources/WineHost/WineDisplayHost.c:95-106 | geometry and visibility of that id only; an unknown id changes only the counter |
| SurfaceRegistry.HostRegistry.SurfaceUpdated | CrossoverPad/Sources/WineHost/WineDisplayHost.c:108-116 | one more update of that id only |
| SurfaceRegistry.HostRegistry.SurfaceRemoved | CrossoverPad/Sources/WineHost/WineDisplayHost.c:118-128 | that id's slot becomes unused |
| SurfaceRegistry.HostRegistry.ListSurfaces | CrossoverPad/Sources/WineHost/WineDisplayHost.c:204-212 | the first infos of the snapshot in slot order, as many as fit |
| PresenterLog.NoLostFrame | CrossoverPad/Sources/Views/GuestScreenView.swift:110-163 | over any run of drivers and ticks that ends with no driver call in flight, the registry lists exactly the surfaces that the steps taken created, placed, updated and did not destroy, and any completed tick leaves the screen with the pixels of the last flush of the picked one (zeros if none, nothing if no surface is registered) |
| PresenterLog.RunTracks | native/patches/0007-ios-display-driver.patch:849-867 | every step of every interleaving keeps registry, pixels and pending calls equal to what the list of steps says: `BitsIn` is the argument of the last flush written, `RegistryIn` the map left by creates, places, flushes and destroys in order |
| PresenterLog.FlushIsShown | native/patches/0007-ios-display-driver.patch:849-867 | after any run with no call in flight, a flush of any created surface can be made and a tick after it; the surface then has the new pixels, and the screen shows them if it is the picked one |
| PresenterLog.CallCompletes | CrossoverPad/Sources/WineHost/WineDisplayHost.c:71-128 | a create, place, flush, destroy or title that is alone in flight runs to its end and announces itself exactly once |
| PresenterLog.RoomInRegistry | CrossoverPad/Sources/WineHost/WineDisplayHost.c:74-75 | a registry without duplicates has an unused slot exactly if fewer than 32 ids are registered |
| Presenter.TickShowsExpected | CrossoverPad/Sources/Views/GuestScreenView.swift:110-163 | from any state of the invariant with no driver call in flight, after any completed tick the screen shows exactly the current bits of the picked surface, and further ticks keep it so |
| Presenter.RunKeeps | CrossoverPad/Sources/WineHost/WineDisplayHost.c:108-128 | every interleaving of driver calls and ticks keeps the invariant that an up-to-date sequence number means up-to-date pixels unless a flush is between its write and its counter |
| Presenter.PickIsLastVisible | CrossoverPad/Sources/Views/GuestScreenView.swift:127-130 | the picked surface is the last visible one of the snapshot |
| Presenter.PickFallsBack | CrossoverPad/Sources/Views/GuestScreenView.swift:127-130 | with no visible surface the last one of the snapshot is picked |
| Presenter.LookupUpdated | CrossoverPad/Sources/WineHost/WineDisplayHost.c:108-116 | seen by id, an update raises the sequence number of that surface and leaves every other as it was, without creating duplicates |
| Presenter.LookupPlaced | CrossoverPad/Sources/WineHost/WineDisplayHost.c:95-106 | seen by id, a placing sets geometry and visibility of that surface and changes no other |
| Presenter.LookupAdded | CrossoverPad/Sources/WineHost/WineDisplayHost.c:71-93 | seen by id, an addition makes that surface known if some slot is unused, and changes no other |
| Presenter.LookupRemoved | CrossoverPad/Sources/WineHost/WineDisplayHost.c:118-128 | seen by id, a removal takes out that surface and no other |
| Presenter.TicksOnlyView | CrossoverPad/Sources/WineHost/WineDisplayHost.c:199-230 | ticks change neither registry nor pixels nor counters |
| DisplayLocks.Discipline | native/patches/0007-ios-display-driver.patch:681-728 | for every instruction of every entry point, callback and reader: acquisitions go up in rank, every access is under its lock, no callback runs with a pixel lock held, every call starts and returns with no lock |
| DisplayLocks.DeadlockFree | native/patches/0007-ios-display-driver.patch:830-1055 | in every reachable state with a call in progress, some call can take its next step |
| DisplayLocks.NoLockLeaks | CrossoverPad/Sources/WineHost/wineios_host.h:36-46 | when no call is in progress no lock is held |
| DisplayLocks.LoneCall | native/patches/0007-ios-display-driver.patch:830-1055 | what each entry point does, run alone, to live, listed and registered surfaces: a create registers a fresh id if there is room, a flush adds one update and a placing one placing to that surface only, a destroy unregisters, unlists and frees; every call ends with no lock held |
| DisplayLocks.NestedLifetimes | native/patches/0007-ios-display-driver.patch:915-980 | in every interleaving registered surfaces are on the driver list and listed surfaces have allocated bits |
| DisplayLocks.PixelsAreLive | CrossoverPad/Sources/WineHost/WineDisplayHost.c:214-230 | a thread about to copy pixels or to take or drop a pixel lock finds bits and lock alive, and whoever touches pixels, registry or list owns the lock of it |
| DisplayLocks.MutualExclusion | CrossoverPad/Sources/WineHost/WineDisplayHost.c:214-230 | no two threads hold the same lock |
| DisplayLocks.FreeIsSafe | native/patches/0007-ios-display-driver.patch:889-906 | when bits and mutex are freed nobody holds the pixel lock and the host does not know the surface |
| DisplayLocks.StaleIdStaysGone | native/patches/0007-ios-display-driver.patch:953-973 | ids are never reused: once freed, a surface's id stays unregistered for ever, so late calls with it touch no surface |
| DisplayLocks.ExecutionKeeps | native/patches/0007-ios-display-driver.patch:830-1055 | every step of every call keeps locks, lifetimes and ownership consistent |
| PixelCopy.WindowSurface.Flush | native/patches/0007-ios-display-driver.patch:830-860 | the nested loops stay in bounds, copy exactly the dirty pixels of the surface with opaque alpha and leave the rest; an empty intersection does nothing |
| PixelCopy.FlushedAt | native/patches/0007-ios-display-driver.patch:849-856 | by coordinates: the pixel in column x of row y becomes the opaque guest pixel of the same place exactly if the dirty rectangle covers it |
| PixelCopy.OpaqueIsAlphaOnly | native/patches/0007-ios-display-driver.patch:855-856 | the top byte of a copied pixel is 0xff and its low 24 bits are the guest's |
| PixelCopy.IncrementalCopyIsCoherent | native/patches/0007-ios-display-driver.patch:849-860 | over any sequence of paints and flushes, host_bits is the opaque guest pixel wherever no paint came after the last covering flush |
| PixelCopy.FullFlushShowsAll | native/patches/0007-ios-display-driver.patch:830-860 | after any history, a flush that covers the surface makes host_bits the opaque image of the guest bitmap |
| PixelCopy.PartialEnd | native/patches/0007-ios-display-driver.patch:255-262 | clipping the damage to the bounds loses no dirty pixel of the surface |
| InputQueue.EventRing.Enqueue | CrossoverPad/Sources/WineHost/WineDisplayHost.c:259-269 | the ring is a bounded FIFO that drops the newest when full |
| InputQueue.EventRing.Dequeue | CrossoverPad/Sources/WineHost/WineDisplayHost.c:157-168 | takes the oldest event, or nothing when the ring is empty |
| InputQueue.InjectEvent | native/patches/0007-ios-display-driver.patch:468-525 | field by field, the inputs sent for an event: absolute move with the right button flag, wheel, key, or press and release of a character, in this order; nothing for an unknown type |
| InputQueue.DeliveredOnceInOrder | native/patches/0007-ios-display-driver.patch:527-543 | at every moment the guest has received the expansions, in order, of the oldest accepted events and a prefix of the next one's; every other accepted event is in the ring or held by the one draining thread |
| InputQueue.OneThreadDrains | native/patches/0007-ios-display-driver.patch:458-530 | at most one thread is past the claim |
| InputQueue.DrainedMeansAllInjected | native/patches/0007-ios-display-driver.patch:468-543 | with an empty ring and an idle drainer everything accepted has been injected |
| InputQueue.OldestIsInjected | native/patches/0007-ios-display-driver.patch:527-543 | a polling drainer takes the oldest event, sends all of its inputs and polls again |
| InputQueue.FirstPumpDrains | native/patches/0007-ios-display-driver.patch:529-530 | the first thread to enter the loop becomes the drainer, any later one leaves at once |
| Titles.TitleTable.WindowTitle | CrossoverPad/Sources/WineHost/WineDisplayHost.c:130-147 | afterwards the window's title is the new one cut to 256 units, unless the window is new and the table full; other windows keep theirs; one slot per window |
| Titles.TitleTable.CopyTitle | CrossoverPad/Sources/WineHost/WineDisplayHost.c:232-257 | writes whole characters of the title stored for that window, within the buffer, stopping only at its end or when fewer than five bytes are left |
| Titles.CopiedTitleDecodes | CrossoverPad/Sources/WineHost/WineDisplayHost.c:238-252 | the bytes are well-formed UTF-8 (sections 3 and 4 of RFC 3629) and decode to a prefix of the title with each surrogate unit replaced by '?' and every other unit as itself; the whole title when the buffer allows |
| Titles.DecodeEncoded | CrossoverPad/Sources/WineHost/WineDisplayHost.c:241-251 | a strict decoder inverts the encoder on every text |
| PebTable.Table.Set | native/patches/0003-inproc-spawn-and-peb.patch:760-784 | registering, replacing and unregistering act on the map with distinct keys; a new owner is dropped silently when all 64 slots are taken |
| PebTable.Table.Get | native/patches/0003-inproc-spawn-and-peb.patch:786-795 | the scan returns the owner's value, or the fallback for an unregistered PEB |
| PebTable.Table.Add | native/patches/0003-inproc-spawn-and-peb.patch:883-903 | like registering, but a full table is reported and an existing registration kept |
| PebTable.Table.Remove | native/patches/0003-inproc-spawn-and-peb.patch:909-919 | the owner's value is taken out, leaving a hole |
| PebTable.FullIffNoRoom | native/patches/0003-inproc-spawn-and-peb.patch:345-367 | a table with holes is full exactly when its map has as many keys as it has slots |
| InprocSpawn.Host.SpawnInproc | native/patches/0003-inproc-spawn-and-peb.patch:565-664 | all or nothing, on three tables in place: the status for every combination of system answers; any failure leaves registries, descriptors, mappings, TEBs and signal mask as they were; success adds exactly the child's |
| InprocSpawn.SpawnAdds | native/patches/0003-inproc-spawn-and-peb.patch:565-664 | a successful spawn adds one descriptor, three pages, a TEB and the child's cache, and its server and image entries if their tables have room |
| InprocSpawn.SpawnStatusIs | native/patches/0003-inproc-spawn-and-peb.patch:565-664 | a spawn succeeds exactly if everything it asks for can be had, and otherwise reports the first thing that could not |
| InprocSpawn.Host.Launch | native/patches/0003-inproc-spawn-and-peb.patch:610-664 | from the first registration on, each failure takes all registrations back and restores the signal mask |
| InprocSpawn.Host.ChildExit | native/patches/0003-inproc-spawn-and-peb.patch:526-541 | the descriptors lose the thread's own and the child's mapped socket, or the primary's if the child is not in the server table; the three tables lose exactly the child; exactly its cache page is unmapped |
| InprocSpawn.WithoutUndoesWith | native/patches/0003-inproc-spawn-and-peb.patch:655-660 | unregistering a child undoes its registration, also when a table was full and dropped it |
| InprocSteps.RunKeeps | native/patches/0003-inproc-spawn-and-peb.patch:565-664 | over every interleaving of the lock sections of spawns, rollbacks and exits, each table holds exactly the primary and the children whose stage says so and that found room, each with its own value, caches and pages are not shared, and every registered PEB is a mapped page, so a fresh page is never a registered key |
| InprocSteps.StepKeeps | native/patches/0003-inproc-spawn-and-peb.patch:526-664 | every single step keeps that invariant |
| InprocIsolation.OwnSocketIffRoom | native/patches/0003-inproc-spawn-and-peb.patch:760-795 | from its registration to its end a child resolves its own socket exactly if the server table had a free slot at the moment it registered, and otherwise the primary's, whatever the others do meanwhile |
| InprocIsolation.UpTo63AreIsolated | native/patches/0003-inproc-spawn-and-peb.patch:756-795 | in every run in which children, spawns and exits in progress together number at most 63, every process resolves its own open socket and no two the same |
| InprocIsolation.UpTo64HaveTheirImage | native/patches/0003-inproc-spawn-and-peb.patch:341-367 | up to a population of 64 every child finds its own image info |
| InprocIsolation.NoSixtyFifthChild | native/patches/0003-inproc-spawn-and-peb.patch:875-903 | each running child has its own descriptor cache, so at most 64 run, however spawns overlap |
| InprocIsolation.ExitClosesOwnIffRegistered | native/patches/0003-inproc-spawn-and-peb.patch:529-537 | the last step of an exit closes the child's own socket exactly if its registration found room, and the primary's otherwise |
| InprocRollback.RollbackIsExact | native/patches/0003-inproc-spawn-and-peb.patch:655-663 | every step of a spawn that does not start the thread changes nothing that is not the child's, and the last one of its rollback takes away exactly the child's entries, pages and socket, whatever the others have done meanwhile |
| InprocRollback.LoneFailureLeavesNothing | native/patches/0003-inproc-spawn-and-peb.patch:565-664 | a spawn that fails while nothing else moves leaves the host exactly as it was, wherever it fails |
| InprocOverlap.LoneSpawnIsSpawnEffect | native/patches/0003-inproc-spawn-and-peb.patch:565-664 | run alone, the steps of a successful spawn do to registries and resources exactly what InprocSpawn.Host.SpawnInproc does |
| InprocOverlap.LoneExitIsExitEffect | native/patches/0003-inproc-spawn-and-peb.patch:526-541 | run alone, the steps of an exit do to registries and resources exactly what InprocSpawn.Host.ChildExit does, apart from the thread's own descriptors |
| InprocOverlap.LoneSpawnBound | native/patches/0003-inproc-spawn-and-peb.patch:875-903 | on every host with n children, n up to 63, a further spawn succeeds; the new child has its own socket exactly if n < 63, and its exit closes what it resolves, the primary's socket in the case of the 64th |
| InprocOverlap.OverlapBound | native/patches/0003-inproc-spawn-and-peb.patch:610-664 | two overlapping spawns over n children, the first of which fails: with never more than n + 1 children the second has its own socket exactly if n < 62 and its own image info exactly if n < 63, and otherwise closes the primary's socket when it exits |
| LockFreeLookup.ScanFindsOwnCache | native/patches/0003-inproc-spawn-and-peb.patch:864-873 | with every load and store a step of its own and any writers interleaved, a finished scan by a registered process returned its own cache, not NULL, not the primary's, no sibling's; the primary's scan returned the primary's |
| LockFreeLookup.StepKeeps | native/patches/0003-inproc-spawn-and-peb.patch:883-918 | every writer and reader step keeps: registered slots complete and unmoved, no scan past its owner's slot |
| LockFreeLookup.AllocCompletes | native/patches/0003-inproc-spawn-and-peb.patch:883-903 | a registration with a free slot completes in two stores and puts the pair into a slot that was free; in a full table it changes nothing |
| LockFreeLookup.ReleaseCompletes | native/patches/0003-inproc-spawn-and-peb.patch:905-923 | a release completes in two stores and empties exactly the owner's slot |
| LockFreeLookup.LoadsFinish | native/patches/0003-inproc-spawn-and-peb.patch:864-873 | each load brings a scan closer to its end, whatever the writers do |
| LockFreeLookup.ReleaseDuringScanReadsNull | native/patches/0003-inproc-spawn-and-peb.patch:905-923 | the rule that a PEB is released only after its last scan is needed: a release between a scan's two loads makes the scan return NULL |
| FdCache.IndexIsExact | native/patches/0003-inproc-spawn-and-peb.patch:938-940 | two handles share a cache word exactly when they differ in the tag bits only, and the covered range is exactly the first 8192 * 128 handles |
| FdCache.GetAfterAdd | native/patches/0003-inproc-spawn-and-peb.patch:942-991 | what was added comes back with type, access and options, an error status too, and no other handle notices |
| FdCache.GetAfterRemove | native/patches/0003-inproc-spawn-and-peb.patch:995-1008 | a removed handle misses, every other answers as before |
| FdCache.RemoveAfterAdd | native/patches/0003-inproc-spawn-and-peb.patch:995-1008 | removing after an addition returns the added descriptor, -1 for an error entry or a missing one, and for every other handle what it returned before |
| FdCache.RemoveIsLookup | native/patches/0003-inproc-spawn-and-peb.patch:995-1008 | a removal returns the descriptor that a lookup would have answered, else -1 |
| FdCache.Cache.Add | native/patches/0003-inproc-spawn-and-peb.patch:942-975 | out-of-range handles and failed block mappings are refused and change nothing; otherwise the map gains the entry |
| FdCache.Cache.Get | native/patches/0003-inproc-spawn-and-peb.patch:978-991 | the two-level lookup answers as the map does |
| FdCache.Cache.Remove | native/patches/0003-inproc-spawn-and-peb.patch:995-1008 | the map loses the handle; the result is the descriptor that Get would have answered, or -1 |
| FdCache.Cache.CloseAll | native/patches/0003-inproc-spawn-and-peb.patch:921-934 | the release loops close each valid cached descriptor exactly once and nothing else |
| FdCache.CloseAfterAdd | native/patches/0003-inproc-spawn-and-peb.patch:921-934 | a descriptor that was added is among those the release closes |
| FdCache.Caches.Add | native/patches/0003-inproc-spawn-and-peb.patch:942-975 | adding for one process changes its map only; every other process's cache is as before |
| FdCache.Caches.Remove | native/patches/0003-inproc-spawn-and-peb.patch:995-1008 | removing for one process changes its map only, and returns the descriptor its lookup would have answered, or -1 |
| FdCache.Caches.Register | native/patches/0003-inproc-spawn-and-peb.patch:875-903 | a new process starts with an empty cache sharing no block with another, or is refused when 64 are registered |
| FdCache.Caches.Release | native/patches/0003-inproc-spawn-and-peb.patch:905-936 | closes each valid descriptor of the owner once and none of a sibling's, and drops the owner's cache only |
| PsrvIo.ReadFull | native/pseudoproc/psrv.c:26-39 | whatever the short reads and interruptions, success means the buffer holds exactly the next bytes of the stream and nothing beyond it is written |
| PsrvIo.WriteFull | native/pseudoproc/psrv.c:41-53 | what was sent is always a prefix of the data, and all of it exactly on success |
| PsrvIo.FullUnlessCutShort | native/pseudoproc/psrv.c:28-36 | without end of file or error a transfer is complete as soon as the calls moved enough bytes, and never earlier |
| PsrvHandles.Service.HandleRequest | native/pseudoproc/psrv.c:55-92 | the in-place handler is the handle-table transition |
| PsrvHandles.HandlesAreSequential | native/pseudoproc/psrv.c:63-87 | over any request sequence the k-th granted handle is k, up to 4095 |
| PsrvHandles.AllocationReply | native/pseudoproc/psrv.c:63-87 | the reply to every allocation in any request sequence: NEW succeeds exactly while fewer than 4095 handles are out, DUP exactly if moreover its argument was granted before to a nonzero pid; the result is the next handle |
| PsrvHandles.OthersChangeNothing | native/pseudoproc/psrv.c:59-90 | PING echoes its argument, an unknown operation gets -2, and neither changes the table |
| PsrvHandles.HandlesAreUnique | native/pseudoproc/psrv.c:63-87 | later grants get larger handles, and nothing is granted after 4095 |
| PsrvHandles.ZeroPidCannotDuplicate | native/pseudoproc/psrv.c:75-75 | in every request sequence a handle granted to pid 0 is refused for duplication ever after |
| PsrvLinear.Linearizable | native/pseudoproc/psrv.c:122-141 | under any fragmentation, with clients that may close at any time, in every reachable state the handled requests form one sequential run; each client's finished calls are its entries of it in program order, each with the reply computed for its own request, placed between its start and its return |
| PsrvLinear.RealTimeOrder | native/pseudoproc/psrv.c:199-204 | a call that returned before another began precedes it in that order |
| PsrvLinear.HandlesAcrossClients | native/pseudoproc/psrv.c:55-92 | in that order granted handles are 1, 2, 3, ... up to 4095 across all clients, and every other allocation is refused, with the exact condition for each |
| PsrvLinear.RequestFields | native/pseudoproc/psrv.h:22-26 | the server reads op, pid and argument from the four, four and eight bytes in which the client's structure holds them |
| PsrvCalls.RequestsAreTheClients | native/pseudoproc/psrv.c:122-141 | in every reachable state the i-th handled request of a client is the request of its i-th call, at most one call is not handled yet, and each finished call was answered for its own request |
| PsrvCalls.CallCompletes | native/pseudoproc/psrv.c:199-204 | whenever the server polls, an idle client can complete a call, whose result is the handler's answer by the table as it is, and no other client notices |
| PsrvLinear.ReplyFields | native/pseudoproc/psrv.c:55-92 | the client reads out of the reply bytes the status and value the server put in |
| PsrvLinear.StepKeeps | native/pseudoproc/psrv.c:122-141 | every fragment moved by any side keeps the account of where each byte of each call is |
| PsrvClients.NoClientIsLost | native/pseudoproc/psrv.c:94-142 | in every run each live client is in the polled snapshot, or a rebuild is next, or a wakeup byte is queued or about to be written; the table has no duplicate and at most 128 entries |
| PsrvClients.RemovalIsExact | native/pseudoproc/psrv.c:126-137 | a removal while walking an old snapshot, with descriptors being reused, takes out exactly the polled connection |
| PsrvClients.OnlyVanishedLeave | native/pseudoproc/psrv.c:122-137 | in every run a connection leaves the table only when the walk polled it and found it vanished |
| PsrvClients.MissedClientIsPolledNext | native/pseudoproc/psrv.c:111-120 | a live client the current poll misses is in the next one: only the wakeup byte can end this poll |
| PsrvClients.ConnectIsPolledNext | native/pseudoproc/psrv.c:181-196 | a connect during a poll is listed unless 128 are, its wakeup byte ends the poll, one byte is read for it, and the next snapshot has it |
| PsrvClients.RemovedKeepsOthers | native/pseudoproc/psrv.c:128-134 | the swap-removal drops that entry and keeps all others, without duplicates |
| PsrvClients.Table.Remove | native/pseudoproc/psrv.c:127-135 | the scan and swap in place are the removal on the list |
| PsrvClients.Table.Append | native/pseudoproc/psrv.c:181-189 | a connection is appended unless 128 are there |
| PeReloc.RebasedIsPointwise | native/wineforge/peload_test.c:160-176 | patching disjoint sites one after another adds the delta to each listed word once, from its original value, and changes no other byte |
| PeReloc.OrderDoesNotMatter | native/wineforge/peload_test.c:165-176 | the order in which the table lists its sites makes no difference |
| PeReloc.RebaseComposes | native/wineforge/peload_test.c:160-173 | relocating twice is relocating by the sum, modulo 2^64 |
| PeReloc.OwnPointersFollowTheView | native/patches/0003-inproc-spawn-and-peb.patch:1392-1411 | a pointer into the image points to the same place of the mapped copy exactly when the image is relocated to where it is mapped, not to the assigned address |
| PeLoad.Relocate | native/wineforge/peload_test.c:165-176 | the walk over a well-formed table terminates and patches exactly the sites the table lists, touching nothing outside the image |
| PeLoad.RelocateBlock | native/wineforge/peload_test.c:166-174 | one block patches exactly its DIR64 entries, reading entries that the patching has not disturbed |
| PeImage.MapSections | native/wineforge/peload_test.c:155-158 | headers and sections land at their addresses in zeroed pages |
| PeImage.LoadPe | native/wineforge/peload_test.c:142-176 | the image at its base is the mapped file relocated by base - ImageBase, and no byte outside it changes |
| PeLayout.ParsesAsWritten | native/wineforge/peload_test.c:144-148 | a readable file parses to a header exactly if that header is written in it: each field little-endian at its offset, and the section headers of 40 bytes each with size, address and file offset |
| PeLayout.TableRead | native/wineforge/peload_test.c:160-176 | for every list of blocks and entries of any type, the walk over the bytes that write them down lists exactly the targets of the type-10 entries, in order |
| PeImage.LoadTwo | native/wineforge/peload_test.c:185-200 | loads of two files at disjoint places, in either order, leave each image as if it were loaded alone |
| PeImage.LoadElsewhereIsRebase | native/wineforge/peload_test.c:160-176 | loading at B2 equals rebasing the load at B1 |
| PeImage.OwnPointersKeepTheirRva | native/wineforge/peload_test.c:203-213 | every own-image pointer keeps its relative address in the loaded copy |
| PeEmit.Emit | native/wineforge/mkexe.c:74-135 | the buffer holds every stored header field, the three section headers, the code bytes for the exit code, the self-pointer and the relocation block, and zero everywhere else |
| PeSelfTest.EmittedIsLoadable | native/wineforge/peload_test.c:76-139 | the emitted file satisfies all the loader needs, and its table lists the self-pointer only |
| PeSelfTest.EmittedImageRuns | native/wineforge/mkexe.c:118-135 | for every exit code and base the loaded code returns that code and the loaded self-pointer is base + 0x2000 |

## Left out

- Sections under a lock are single steps in `Pproc`, `Presenter`, `InputQueue` and `InprocSteps`; only `DisplayLocks`, `LockFreeLookup`, `PsrvLinear` and `PsrvClients` go below that. Memory is sequentially consistent, so the acquire and release orders of the cache scan are not distinguished.
- PprocTheorems.AccountsBalance: assumes at most one waiter per pid and fewer than 2^32 - 1 spawns, as do the other results on pseudo-processes; `PprocTwoWaiters` shows the first is needed.
- `pproc.c`: copying of argv, the name when it is NULL, argument checks before `pproc_init`, `pproc_exiting`, and out-of-memory paths.
- PresenterLog.NoLostFrame: a flush carries the whole frame it leaves in `host_bits`; how a dirty rectangle makes that frame is proved in `PixelCopy`. `change_seq` and `update_seq` are unbounded numbers, not 64-bit words; CGImage creation failure and the background check of `tick` are not modelled.
- Surface creation failure, BMP dumping, and the driver's window rectangles.
- DisplayLocks.Discipline: the per-surface mutex is modelled as non-recursive, which asks more of the code than its recursive one.
- DisplayLocks.LoneCall: says nothing of `wine_display_copy_surface`, which changes no list or registry entry; what it copies is in `PresenterLog`.
- InputQueue.DeliveredOnceInOrder: the negative return of `next_event` that ends the drain loop does not occur, because the host never returns one; touch coordinates are given, not computed from floats.
- InprocSpawn.Host.SpawnInproc: the template copy of the parent's PEB and the close-on-exec flag are not modelled; pages, descriptors and TEBs are identities that the system hands out fresh.
- InprocSteps.RunKeeps: the calls into the system between two lock sections are part of a step: the dup and the two mappings at the start of a spawn, cache page and registration, TEB, stack and thread, and the unmapping and close at the end of a rollback; the request, reply and wait descriptors of a child appear in `InprocSpawn.Host.ChildExit` only, and the descriptors held in its cache in `FdCache` only.
- `server_init_process_inproc`, startup info and image mapping of the child, and the choice between the fork and in-process backends.
- FdCache.Cache.Add: the entry's bit-field widths are not visible in the patch, so no field is truncated; the exchange is atomic.
- Threads of one pseudo-process racing on one cache word, and on the allocation of one block.
- PsrvHandles.HandlesAreSequential: stated for fewer than 2^64 - 1 requests, after which `next_handle` wraps around to 0.
- PsrvClients.NoClientIsLost: `psrv_start` and `psrv_stop` are not part of the run, nor is a failing `poll`.
- PsrvLinear.Linearizable: the padding of the reply is zero as the handler's memset makes it.
- PeLoad.Relocate: tables whose blocks or targets leave the table or the image are outside its contract; the source walks them unchecked.
- PeLayout.TableRead: tables that end with a block of size below 8, or have a block of odd size, are walked by `PeLoad.Relocate` but are not among the tables written down here.
- PeEmit.Emit: writing the buffer to a file is not modelled.
- PeImage.LoadPe: mapping failure and page protections are not modelled; the base is free when the call is made.
- SwiftUI views other than `tick`, `WineHost.c`, the other patches, tests, shell gates and Makefiles: process launching, file I/O, thin wrappers and platform guards.
