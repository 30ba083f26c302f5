# AgentDocker, verified

A Dafny model of the parts of AgentDocker that decide something, and proofs of what those
decisions promise.

* **Coordination** (`crates/core`, `crates/agentd`): resource keys, the lease table, the wait
  queue, the search for rings of waiting agents, and the daemon's claim loop over all of them.
  The main results are about every run of the daemon, and say exactly which steps keep a promise:
  that leases exclude, that a waiter is put off at most once for each waiter in front of it, that
  no agents wait only for leases of one another, that no waiters wait only for one another's
  leases and turns, and that no wake-up is lost.
* **Pictures** (`scripts/png.py`, `scripts/icon.py`): the PNG reader and writer with all five row
  filters, the box filter, and placing the mark on the icon.
* **Ownership and liveness** (`scripts/sustained_use.py`, `scripts/build_storage.py`,
  `scripts/proc_tcp.py`, `scripts/windows_daemon_smoke.py`): cleaning up process groups while ids
  are reused, pruning build caches while the machine changes, classifying sockets from samples,
  a report raced by a signal, and waiting for a first answer.
* **Parsers, encodings and graphs** (`scripts/docs_check.py`, `scripts/benchmark_manifest.py`,
  `scripts/touched_crates.py`, `scripts/claude_channel_smoke.py`): code spans, the source
  identity's byte stream, touched packages, and newline-framed messages.

Where the source changes things step by step the model is a class or a method with loops, proved
against functions on values; what the source promises is then proved about those functions.
What the source gets from outside (clocks, zlib, SHA-256, CRC-32, JSON, git, ps, lsof, kill,
`/proc`, generated ids, the answers of the file system) is a parameter and may be anything, unless
a contract says what is asked of it.

## What was found

Some promises do not hold of the code as it stands. For each there is a case in which it fails and
a lemma that says exactly when it does hold. The cases of the daemon and of the fixture are states
that a run from the start reaches, with the step that breaks the promise; the others are inputs.

* A first attempt takes no turn, so a newcomer can be given what a waiter has queued for, whatever
  its priority (`ArbiterCases.NewcomerOvertakes`). A waiter is overtaken exactly by such a first
  attempt, or by a handoff of its own agent's lease (`Fairness.OvertakenExactlyWhen`); otherwise it
  is put off at most once for each waiter in front of it (`Fairness.PutOffAtMostByThoseInFront`).
* An agent that waits can be given another lease, and that can close a ring that nothing checks for
  (`ArbiterCases.GrantToWaiterClosesRing`, `Arbiter.GrantIsSafeExactlyWhen`).
* The search for rings does not look at waits that stand behind other waits, so three agents can
  come to a standstill with no ring of holders (`ArbiterCases.QueueOrderCanHoldUp`,
  `HeldUp.FlowKeptExactlyWhen`, `HeldUp.EveryRunFlowsExactlyWhen`).
* The search follows only the last wait of an agent, so an agent with two waits can be in a ring it
  does not see (`ArbiterCases.SecondWaitHidesRing`, `Deadlocks.AllFollowedExactlyWhen`).
* The search takes a shared lease to stop a shared wait, so a claim can be refused, or a wait ended,
  for a ring that is no deadlock (`WaitCases.SharedRingIsNoDeadlock`,
  `SharedRings.InDeadlockExactlyWhen`, `SharedRings.RingIsDeadlockExactlyWhen`).
* A handoff announces nothing that a waiting claim listens for, so a waiter that is handed what it
  waits for sleeps on (`WaitCases.GiftWakesNobody`, `Wakeups.ClearedIsWokenExactlyUnless`,
  `Wakeups.SleepsOnlyWhileStalledExactlyWhen`).
* A handoff of selected leases can leave two agents with overlapping exclusive leases, when the
  giver keeps a lease in the way of one it gives (`ArbiterCases.HandoffStrandsLease`,
  `Leases.TransferSelectedIsSafeExactlyWhen`, `Leases.LiveTransferIsSafeExactlyWhen`).
* A handoff to an agent that is waiting can close a ring that nothing checks for
  (`ArbiterCases.HandoffClosesRing`, `Arbiter.HandoffIsSafeExactlyWhen`).
* `resample` counts every source pixel once exactly when it does not enlarge
  (`Resample.CountedOnceExactlyWhenDownscaling`, which is also the failing case of every
  enlargement).
* RGBA data cut inside the last row is not refused by `read`: the last row comes back short
  (`PngFile.OneByteOfAPixelIsRead`, `PngFile.FileReadsExactlyWhen`).
* A process list read after everybody who vouched for a group has gone can adopt a stranger
  (`FixtureCases.LateRowSignalsStranger`, `FixtureProcesses.RowIsSafeExactlyWhen`), and so can a
  member that leaves its group and comes back once the number is used again
  (`FixtureCases.ReturnSignalsStranger`, `FixtureProcesses.EventIsSafeExactlyWhen`).
* A prune can remove the caller's target when that lies inside another worktree's cache
  (`Pruning.TargetUnderCacheIsLost`, `Pruning.TargetSurvivesExactlyWhen`), and the main checkout's
  cache when that lies inside a cache or one checkout is the other's `fuzz` directory
  (`Pruning.MainUnderWorktreeIsLost`, `Pruning.MainSurvivesExactlyWhen`).
* A worktree whose own name ends in ` (deleted)` is taken for another by the reader of `/proc`, so
  a process that works in it does not keep it (`ProcessPlaces.MissedWorkerLosesCaches`,
  `ProcLinks.LinkTellsExactlyWhen`, `ProcessPlaces.WorkerIsSeenExactlyWhen`).
* A file that grows while it is hashed can give one stream two meanings
  (`SourceIdentity.WrongSizeIsAmbiguous`, `SourceIdentity.DecodesExactlyWhen`).
* A socket that opens and closes between two readings can be missed, as the script's own text says:
  because the scan does not meet it, or because no reading lists it
  (`ProcTcp.BriefSocketCanBeMissed`, `ProcTcp.UnlistedSocketCanBeMissed`, `ProcTcp.CountsExactlyWhen`,
  `ProcTcp.FoundExactlyWhen`).

## Assumptions

* The daemon's lock makes each attempt of a claim one step.
* The operating system does not reuse a number as a pid while a group carries it; checking and
  signalling a group are one step.
* Scanning a process's descriptors comes to every one that stays open throughout.
* The kernel writes a link under `/proc` as the path, with ` (deleted)` after it when that is gone.
* `zlib.decompress` undoes `zlib.compress`; floating-point scaling is taken over the reals.
* Packages have distinct directories, and `sorted` and `set` do what Python says.

## Model

| member | source | states |
|---|---|---|
| `ResourceKeys.New` | crates/core/src/lease.rs:33-44 | the loop strips exactly the trailing slashes of path and file keys longer than their root |
| `ResourceKeys.OverlapIsComponentPrefix` | crates/core/src/lease.rs:75-91 | two keys overlap exactly when they are equal, or hierarchical of one kind with the components of one a prefix of the other's |
| `ResourceKeys.OverlapMeansSharedPath` | crates/core/src/lease.rs:75-91 | hierarchical keys of one kind overlap exactly when some path lies under both |
| `ResourceKeys.OverlapIsSymmetric` | crates/core/src/lease.rs:75-84 | overlap does not depend on who asks |
| `ResourceKeys.NormalisingKeepsOverlaps` | crates/core/src/lease.rs:33-44 | dropping trailing slashes never changes what a key overlaps |
| `Leases.ClaimKeepsExclusion` | crates/core/src/lease.rs:371-427 | no claim, whatever its outcome, leaves two holders with overlapping leases unless both are shared |
| `Leases.RefusedExactlyWhenBlocked` | crates/core/src/lease.rs:371-427 | a claim is refused exactly when a live lease of somebody else is in the way, and then with all of them |
| `Leases.ClaimMeans` | crates/core/src/lease.rs:371-427 | an own lease is extended exactly when the holder has one for that resource and mode; a new one is as asked, from now, for as long as asked; all other live leases stand and expired ones go |
| `Leases.ClaimLeavesOthersAlone` | crates/core/src/lease.rs:371-427 | a claim neither changes nor ends a live lease of anybody else |
| `Leases.DeliberateStaysDeliberate` | crates/core/src/lease.rs:371-427 | a lease taken on purpose never becomes an automatic one |
| `Leases.FewerLeasesKeepExclusion` | crates/core/src/lease.rs:448-473 | releasing and expiring keep exclusion |
| `Leases.TransferKeepsExclusion` | crates/core/src/lease.rs:475-495 | moving all of a holder's leases keeps exclusion |
| `Leases.TransferSelectedIsSafeExactlyWhen` | crates/core/src/lease.rs:497-523 | moving some keeps exclusion exactly when the giver keeps nothing in the way of what it gives |
| `Leases.LiveTransferIsSafeExactlyWhen` | crates/core/src/lease.rs:497-523 | among live leases: they exclude after the move exactly when nothing live that the giver keeps is in the way |
| `Leases.StrandedLeaseBreaksExclusion` | crates/core/src/lease.rs:497-523 | one of two overlapping leases of one holder, handed over, breaks exclusion |
| `Leases.OneWriterPerPath` | crates/core/src/lease.rs:268-273 | under exclusion, whoever has an exclusive lease over a path is alone there |
| `Leases.LeaseTable.Expire` | crates/core/src/lease.rs:525-533 | every lease is either still there or returned, by whether it has expired; what is left is live, and exclusion is kept |
| `Leases.LeaseTable.ClaimAs` | crates/core/src/lease.rs:371-427 | renews an identical lease, refuses with everything in the way, or files a new one; exclusion is kept |
| `Leases.LeaseTable.Renew` | crates/core/src/lease.rs:435-446 | succeeds exactly when the lease is there, has not expired and is the caller's; otherwise the error says whether it is gone or whose it is; nothing else changes but expiry |
| `Leases.LeaseTable.Release` | crates/core/src/lease.rs:448-452 | succeeds exactly when the lease is there and the caller's, and ends that one; otherwise the error says whether it is gone or whose it is, and nothing changes |
| `Leases.LeaseTable.ReleaseHeld` | crates/core/src/lease.rs:461-473 | a lease stays exactly when it is somebody else's, or only automatic ones were to go and it is not; those gone are returned |
| `Leases.LeaseTable.Transfer` | crates/core/src/lease.rs:475-495 | every live lease of the giver gets the new holder and the time, every other live lease stands, expired ones go; exclusion is kept |
| `Leases.LeaseTable.TransferSelected` | crates/core/src/lease.rs:497-523 | no lease is lost or made; exactly the giver's live leases among the ids get the new holder; exclusion is kept exactly when nothing is stranded |
| `Leases.LeaseTable.AcceptHandoff` | crates/agentd/src/daemon/recovery.rs:360-456 | a handoff that could not be written down leaves the table as it was, lease by lease |
| `WaitQueues.InsertKeepsOrder` | crates/core/src/wait.rs:98-123 | a newcomer goes into the one order of priority and ticket, and nobody is lost |
| `WaitQueues.RemoveKeepsOrder` | crates/core/src/wait.rs:125-139 | leaving takes out that wait only and keeps the order |
| `WaitQueues.JoinMovesBackExactly` | crates/core/src/wait.rs:98-123 | a newcomer moves back exactly those it outranks and excludes |
| `WaitQueues.LeaveLetsThroughExactly` | crates/core/src/wait.rs:125-132 | a wait that ends lets through exactly those it stood in front of |
| `WaitQueues.HeadIsNext` | crates/core/src/wait.rs:152-160 | the head of a queue always has its turn |
| `WaitQueues.NextWaitersAreCompatible` | crates/core/src/wait.rs:152-160 | all waiters whose turn it is may proceed together |
| `WaitQueues.WaitsExcludeLikeLeases` | crates/core/src/wait.rs:145-175 | a wait is in another's way exactly when the lease it would be given would block that other |
| `WaitQueues.RunStaysValid` | crates/core/src/wait.rs:89-139 | every run of joins and leaves keeps one order with distinct tickets |
| `WaitQueues.NobodyOvertakes` | crates/core/src/wait.rs:61-75 | in the queue taken alone: while nobody of a higher priority joins, those in front of a waiter only dwindle |
| `WaitQueues.WaitQueue.Join` | crates/core/src/wait.rs:98-123 | a fresh ticket, put in by binary position, queue otherwise unchanged |
| `WaitQueues.WaitQueue.Leave` | crates/core/src/wait.rs:125-132 | the waiter of that ticket, if any, goes, with whatever was noted for it |
| `WaitQueues.WaitQueue.BreakRing` | crates/core/src/wait.rs:134-139 | as leaving, and the ring is kept for the waiter to read |
| `WaitQueues.WaitQueue.Position` | crates/core/src/wait.rs:163-171 | the place is the number of those in front that exclude it |
| `WaitQueues.WaitQueue.IsNext` | crates/core/src/wait.rs:152-160 | true exactly when nobody in front excludes it |
| `Rings.JoinIsSafeExactlyWhen` | crates/core/src/wait.rs:209-243 | a new wait leaves everything free of rings exactly when no ring goes through it, whatever else its agent waits for |
| `Rings.RingAfterJoin` | crates/core/src/wait.rs:209-243 | a ring that a new wait closes goes through that wait |
| `Rings.GainIsSafeExactlyWhen` | crates/core/src/wait.rs:209-243 | leases coming to an agent close a ring exactly when its own wait is in one |
| `Rings.FewerEdgesStayAcyclic` | crates/core/src/wait.rs:209-243 | letting go of leases or waits closes no ring |
| `Rings.NoMutualWait` | crates/core/src/wait.rs:209-243 | free of rings means that no set of agents wait only for one another |
| `Deadlocks.Walk` | crates/core/src/wait.rs:244-279 | the depth-first walk returns a ring through the requester, or has explored everything without one |
| `Deadlocks.Deadlock` | crates/core/src/wait.rs:209-243 | a ring of distinct agents is returned exactly when the waits followed hold one, and exactly when any waits do where an agent's waits agree |
| `Deadlocks.AllFollowedExactlyWhen` | crates/core/src/wait.rs:224-243 | every wait is followed exactly when no agent waits for two different things |
| `Deadlocks.NoRingIsNoRing` | crates/core/src/wait.rs:209-243 | then finding no ring among the waits followed means that there is none |
| `Deadlocks.ChooseVictim` | crates/core/src/wait.rs:304-322 | the newcomer, unless a queued wait of the ring has a strictly lower priority; then the lowest, the youngest among equals |
| `Arbiter.EveryRunIsSafeExactlyWhen` | crates/agentd/src/daemon/leases.rs:80-311 | leases exclude, the queue is one order and no wait is in a ring, at every point of a run, exactly when every step of the run is safe |
| `Arbiter.NoRunDeadlocks` | crates/agentd/src/daemon/leases.rs:80-311 | after any run of safe steps no agents wait only for leases of one another |
| `Arbiter.NoRunSharesAWrittenPath` | crates/agentd/src/daemon/leases.rs:80-311 | after any run whose handoffs strand nothing, no two agents have leases over one path, one of them exclusive |
| `Arbiter.StepIsSafeExactlyWhen` | crates/agentd/src/daemon/leases.rs:80-311 | whatever the daemon does next keeps all of it exactly when the step is safe |
| `Arbiter.GrantIsSafeExactlyWhen` | crates/agentd/src/daemon/leases.rs:164-200 | a grant does exactly when no other wait of the holder is then in a ring |
| `Arbiter.ExclusionKeptExactlyWhen` | crates/agentd/src/daemon/leases.rs:80-311 | exclusion alone is kept exactly when a handoff strands nothing; no other step can break it |
| `Arbiter.SingleMindedRunsAreSafe` | crates/agentd/src/daemon/leases.rs:80-311 | a run in which nobody claims, waits again or takes a handoff while it waits is safe throughout, with no more checks than the daemon makes |
| `Arbiter.HandoffIsSafeExactlyWhen` | crates/agentd/src/daemon/recovery.rs:358-377 | a handoff keeps all of it exactly when it strands nothing and no wait of the receiver is then in a ring |
| `Fairness.NewlyBlocksExactlyWhen` | crates/agentd/src/daemon/leases.rs:80-311 | a step puts a lease in a waiter's way exactly when it grants a new one that excludes it, or hands away one of the waiter's own agent |
| `Fairness.TurnTakesFromBehind` | crates/agentd/src/daemon/waiting.rs:492-496 | a turn never takes what somebody in front of it waits for: whoever it puts off was behind it |
| `Fairness.OvertakenExactlyWhen` | crates/agentd/src/daemon/leases.rs:128-131 | a waiter is overtaken exactly by a first attempt granted a new lease that excludes it, or by a handoff of its own agent's lease |
| `Fairness.PutOffAtMostByThoseInFront` | crates/agentd/src/daemon/leases.rs:80-311 | over every run, while a waiter waits, nobody of a higher priority joins and it is not overtaken, it is put off at most once for each waiter in front of it |
| `HeldUp.FlowKeptExactlyWhen` | crates/agentd/src/daemon/waiting.rs:501-565 | counting leases and turns, a step makes a loop of waiters exactly when one goes through a waiter it touches |
| `HeldUp.WaitKeepsFlowExactlyWhen` | crates/agentd/src/daemon/waiting.rs:501-565 | a wait makes none exactly when none goes through the newcomer |
| `HeldUp.NoLoopIsNoRing` | crates/agentd/src/daemon/waiting.rs:501-565 | where there is no loop there is no ring of holders either |
| `HeldUp.EveryRunFlowsExactlyWhen` | crates/agentd/src/daemon/leases.rs:80-311 | there is no loop at any point of a run exactly when no step of it closes one through a waiter it touches |
| `HeldUp.NobodyWaitsInCircles` | crates/agentd/src/daemon/leases.rs:80-311 | and then no set of waiters wait only for one another, for leases or for their turn |
| `Wakeups.ClearedIsWokenExactlyUnless` | crates/agentd/src/daemon.rs:970-992 | a step that clears the last thing in a waiter's way announces something it listens for, exactly unless it is a handoff to the waiter's own agent |
| `Wakeups.WokenByWhatEnds` | crates/agentd/src/daemon.rs:970-992 | only the end of a lease or wait that overlaps what it wants wakes a waiter |
| `Wakeups.StaysStalledExactlyWhen` | crates/agentd/src/daemon.rs:970-992 | a waiter that sleeps through a step is still held up after it, exactly unless it was handed everything in its way |
| `Wakeups.HandoffFreesExactlyWhen` | crates/agentd/src/daemon/recovery.rs:369-395 | a handoff lets a waiter through exactly when it gives its agent every lease in the way and nobody is in front |
| `Wakeups.SleepsOnlyWhileStalledExactlyWhen` | crates/agentd/src/daemon/leases.rs:80-345 | over every run: a sleeping waiter is held up for as long as it sleeps, exactly when nobody hands its agent everything in its way |
| `SharedRings.InDeadlockExactlyWhen` | crates/core/src/wait.rs:209-279 | no letting go by others frees any of some waiters exactly when each is barred, in its own mode, by a lease of one of them |
| `SharedRings.DeadlockIsALoop` | crates/core/src/wait.rs:209-279 | some waiters are in such a deadlock exactly when there is a loop of them in which each bars the one before |
| `SharedRings.RingIsDeadlockExactlyWhen` | crates/core/src/wait.rs:244-279 | a ring is a deadlock if each holder's lease excludes the wait it stops, and a ring without short cuts exactly then |
| `SharedRings.ExclusiveRingIsDeadlock` | crates/core/src/wait.rs:244-279 | every ring is one where all waits or all leases are exclusive |
| `SharedRings.PromiseLeavesNoDeadlock` | crates/core/src/wait.rs:209-279 | where no wait is in a ring there is no deadlock: modes cost refusals, and hide nothing |
| `ArbiterCases.NewcomerOvertakes` | crates/agentd/src/daemon/leases.rs:128-131 | on a run: what a waiter queued for goes to one that never queued |
| `ArbiterCases.GrantToWaiterClosesRing` | crates/agentd/src/daemon/leases.rs:80-311 | on a run: a grant to an agent that waits leaves two agents waiting for each other |
| `ArbiterCases.HandoffClosesRing` | crates/agentd/src/daemon/recovery.rs:358-377 | on a run: a handoff that strands nothing leaves two agents waiting for each other |
| `ArbiterCases.SecondWaitHidesRing` | crates/core/src/wait.rs:224-243 | on a run: a wait whose search is clear closes a ring with the first of two waits of another agent |
| `ArbiterCases.QueueOrderCanHoldUp` | crates/agentd/src/daemon/waiting.rs:501-565 | on a run of single waits with every check made: three waiters in a loop, one of them by the order of the queue, and no ring |
| `ArbiterCases.SuchKeysThereAre` | crates/core/src/lease.rs:75-91 | a directory, two files in it and a task are keys for that run |
| `ArbiterCases.HandoffStrandsLease` | crates/agentd/src/daemon/recovery.rs:358-377 | on a run: a directory and a file in it, one of them handed over, break exclusion |
| `WaitCases.GiftWakesNobody` | crates/agentd/src/daemon/recovery.rs:369-395 | on a run: a handoff lets a waiter through, and it is not woken |
| `WaitCases.SharedRingIsNoDeadlock` | crates/core/src/wait.rs:244-279 | on a run: the search finds a ring through a shared lease and a shared wait, and no waiters are in a deadlock, even with the claim it refuses |
| `Arbiter.LeaseArbiter.RingFor` | crates/agentd/src/daemon/waiting.rs:501-531 | a ring found is one; none is missed where no agent waits for two things |
| `Arbiter.LeaseArbiter.BreakRings` | crates/agentd/src/daemon/waiting.rs:533-565 | ends victims until the newcomer's search is clear or it is the victim itself; each wait ended is of lower priority, in a ring with the newcomer, and is told which |
| `Arbiter.LeaseArbiter.TryNow` | crates/agentd/src/daemon/leases.rs:80-311 | granted exactly when nobody else's live lease is in the way and, for a waiter, it is at its turn |
| `Arbiter.LeaseArbiter.StartWaiting` | crates/agentd/src/daemon/leases.rs:80-311 | a place is taken only once the search is clear; otherwise the ring is returned |
| `Arbiter.LeaseArbiter.Attempt` | crates/agentd/src/daemon/leases.rs:80-311 | every outcome of an attempt is a step of the runs, and a refusal changes nothing but expiry |
| `PngFilters.UnfilterUndoesFilter` | scripts/png.py:66-88 | for every predictor, reconstructing a filtered row gives the row |
| `PngFilters.FilterUndoesUnfilter` | scripts/png.py:66-88 | and filtering a reconstructed row gives what was stored |
| `PngFilters.NoFilter` | scripts/png.py:66-69 | filter 0 leaves a row alone |
| `PngFilters.PaethIsNearest` | scripts/png.py:80-86 | the Paeth choice is a neighbour nearest to left + up - upleft, ties to left, then up |
| `PngFilters.ReconstructedByte` | scripts/png.py:66-88 | each byte is the stored one plus, by the filter's number, nothing, the byte to the left, the one above, half their sum, or the nearest of the three neighbours |
| `PngFilters.Unfilter` | scripts/png.py:66-88 | the loop in place leaves exactly the reconstructed row, and refuses filters above 4 |
| `PngCodec.ChunkLoop` | scripts/png.py:29-49 | the loop over chunks is the parser |
| `PngCodec.ParseFollowsChunks` | scripts/png.py:29-49 | chunks laid out one after another are taken one after another |
| `PngCodec.ParseEnds` | scripts/png.py:29-30 | data that ends between chunks is no error, data that ends within a length is |
| `PngCodec.CutChunkIsTaken` | scripts/png.py:30-32 | a chunk that the data ends in is taken as far as it goes |
| `PngCodec.KindsAreNamed` | scripts/png.py:33-49 | the kinds of chunk by name |
| `PngCodec.StoredRowsAreYielded` | scripts/png.py:51-62 | rows stored with any filter each are read back, each below the one just reconstructed |
| `PngCodec.TruncationShortensTheLastRow` | scripts/png.py:56-62 | RGBA data reads exactly when the last row's filter number is there and every filter is known; every row is then whole but the last, which is exactly when the data reaches its end |
| `PngCodec.RowTurn` | scripts/png.py:56-61 | one row taken, unfiltered in place and converted |
| `PngCodec.RowLoop` | scripts/png.py:51-63 | the row loop is the row reader |
| `PngFile.ToRgba` | scripts/png.py:91-104 | four bytes a pixel: the three of the line, or those of its palette entry, and full alpha; an error exactly when the line or the palette is too short |
| `PngFile.Read` | scripts/png.py:20-63 | the method reads what the reader function reads, with the same errors |
| `PngFile.HeaderRoundTrip` | scripts/png.py:34-43 | a written header is read back |
| `PngFile.HeaderMeans` | scripts/png.py:33-43 | a header is taken exactly with 8 bits, no interlacing and colour type 2, 3 or 6; each other is refused for the first thing wrong |
| `PngFile.HeaderIsStandard` | scripts/png.py:120-122 | a written header has the sizes, 8 bits, the colour type and method 0 three times |
| `PngFile.TakingGathersData` | scripts/png.py:44-49 | any split over IDAT chunks and any chunks between gather the same bytes |
| `PngFile.ReadsAnyLayout` | scripts/png.py:29-49 | any file of that shape parses to its header, palette and data |
| `PngFile.ReadsEveryEncoding` | scripts/png.py:20-63 | the rows come back for every filter per row, every split of the data and any unknown chunks |
| `PngFile.FileReadsExactlyWhen` | scripts/png.py:20-63 | an RGBA file reads exactly when the last row's filter number is there and every filter is known; only the last row can be short |
| `PngFile.CutFileIsRead` | scripts/png.py:56-62 | every one-row file whose data ends inside the row reads, with a short row |
| `PngFile.OneByteOfAPixelIsRead` | scripts/png.py:56-62 | a file of one pixel with one byte of it reads |
| `PngFile.ReadUndoesWrite` | scripts/png.py:107-126 | reading undoes writing, and writing fails exactly when a size does not fit four bytes |
| `Resample.IntervalInRange` | scripts/png.py:138-141 | up or down, every interval is non-empty and within the picture |
| `Resample.CountedOnceExactlyWhenDownscaling` | scripts/png.py:138-141 | the intervals partition the source exactly when the target is not larger |
| `Resample.PictureIsTiled` | scripts/png.py:138-155 | sums over the boxes add up to the sum over the picture |
| `Resample.AlphaIsConserved` | scripts/png.py:142-161 | the alpha kept is at most the source's and within one unit per source pixel of it |
| `Scaling.AlphaBytesAreConserved` | scripts/png.py:129-163 | the alpha bytes put out, each spread over the pixels it stands for, add up to at most the source's alpha and to less than one per source pixel below it |
| `Scaling.ColourStaysBetween` | scripts/png.py:150-160 | each channel lies between the least and greatest of the pixels that show |
| `Scaling.ClampNeverActs` | scripts/png.py:157-160 | so the clamp at 255 never acts |
| `Scaling.AlphaInRange` | scripts/png.py:161-161 | the averaged alpha is a byte |
| `Scaling.SameSizeIsIdentity` | scripts/png.py:129-163 | the same size gives the same picture, with transparent pixels zeroed |
| `Scaling.SumUnder` | scripts/png.py:142-155 | the two inner loops compute the five sums over the box |
| `Scaling.Pixel` | scripts/png.py:142-161 | one pixel is the weighted average of the box under it |
| `Scaling.Resampled` | scripts/png.py:129-163 | every pixel of the result is, and the result has the asked size |
| `IconPlace.SpotFor` | scripts/icon.py:103-110 | the mark fits the room, lies within the tile and is centred to a pixel |
| `IconPlace.RoomIs` | scripts/icon.py:103-105 | the room is the body times 96 or 80 hundredths, by size, rounded down |
| `IconPlace.SpotIsProportional` | scripts/icon.py:106-108 | the longer side takes all the room and the other the nearest whole pixel in proportion, halves to even, at least one |
| `IconPlace.MixedIsBetween` | scripts/icon.py:115-122 | a blended channel is the weighted mean rounded down, and so between mark and tile; alpha is the greater of the two; opaque covers and transparent leaves |
| `IconPlace.Composite` | scripts/icon.py:115-122 | one pixel changes and nothing else |
| `IconPlace.CompositeAll` | scripts/icon.py:111-122 | exactly the mark's rectangle is blended |
| `IconPlace.Place` | scripts/icon.py:101-123 | nothing changes without room; otherwise only the rectangle, with the mark as `resample` scales it |
| `IconPlace.PlacedIsGentle` | scripts/icon.py:111-122 | outside the rectangle every byte stands; inside, the bounds of blending hold |
| `FixtureProcesses.NoStrangerIsSignalled` | scripts/sustained_use.py:83-156 | in every run of safe steps, with ids reused freely, every group signalled had been remembered in that very incarnation and is not the caller's own |
| `FixtureProcesses.RunIsSafeExactlyWhen` | scripts/sustained_use.py:83-156 | every pinned member is tied to its group's incarnation at every point of a run exactly when every step of the run is safe |
| `FixtureProcesses.StepIsSafeExactlyWhen` | scripts/sustained_use.py:83-156 | each step of fixture or system keeps that exactly when it is safe; remembering, checking and signalling always are |
| `FixtureProcesses.EventIsSafeExactlyWhen` | scripts/sustained_use.py:90-116 | exits, forks, new groups and moves keep it exactly when no pinned member that left its group comes into a stranger's of the same number |
| `FixtureProcesses.TargetHoldsMember` | scripts/sustained_use.py:137-141 | a group that is signalled holds a pinned member with its original birth |
| `FixtureProcesses.CheckedLeadersHold` | scripts/sustained_use.py:118-125 | right after a check, every group that will be looked into has its leader there, as it was remembered |
| `FixtureProcesses.MemberVouches` | scripts/sustained_use.py:118-125 | while any pinned member, still itself, is in its group, the group is the one remembered |
| `FixtureProcesses.VouchedRowIsSafe` | scripts/sustained_use.py:126-132 | so a row read while somebody pinned holds its group is safe |
| `FixtureProcesses.VouchedRunSignalsNoStranger` | scripts/sustained_use.py:83-156 | over every run: no stranger is signalled when every row is read while somebody pinned holds its group and no strayed member comes into a stranger's |
| `FixtureProcesses.RowIsSafeExactlyWhen` | scripts/sustained_use.py:126-132 | adding a member is safe exactly when its group has not been recycled since it was remembered |
| `FixtureCases.LateRowSignalsStranger` | scripts/sustained_use.py:118-132 | on a run: a row read after the leader has gone leads to a signal to a stranger |
| `FixtureCases.ReturnSignalsStranger` | scripts/sustained_use.py:134-141 | on a run: a pinned member that comes back to a number used again leads to a signal to a stranger |
| `FixtureProcesses.CaptureIsItsRows` | scripts/sustained_use.py:126-132 | a whole capture with its leaders alive is its rows one by one |
| `FixtureProcesses.Fixture.Remember` | scripts/sustained_use.py:90-97 | pins a process that leads a group other than the caller's, and only such a one |
| `FixtureProcesses.Fixture.Remaining` | scripts/sustained_use.py:99-116 | kept without an identity is exactly who cannot be told, and with one exactly who reads with the birth it was pinned with and was not reaped |
| `FixtureProcesses.Fixture.Capture` | scripts/sustained_use.py:118-132 | who is added is in a row of a group whose leader was just read as remembered and not reaped, and reads as in that group; every such row is pinned; nobody pinned is changed |
| `FixtureProcesses.Fixture.Stage` | scripts/sustained_use.py:137-154 | a signal goes exactly to the remembered groups in which a pinned member, not reaped, reads with its birth, and that take it; waiting ends at the first poll that finds nothing or with the time |
| `FixtureProcesses.Fixture.Stop` | scripts/sustained_use.py:134-156 | asks first unless forced, forces exactly when something is left then, each stage signalling exactly the groups its own check names |
| `FinishReport.Finish` | scripts/sustained_use.py:402-415 | one or two saves; the last is the report stamped with the flag as last checked, and an early signal needs one |
| `FinishReport.ExitCodeTells` | scripts/sustained_use.py:402-415 | whatever the report said before: 130 exactly for a run cut short that had not failed, 0 exactly for one that passed; failed stays failed |
| `Worktrees.Decide` | scripts/build_storage.py:430-475 | the loop over processes gives the verdict, with the first process that keeps the worktree |
| `Worktrees.FreeExactlyWhen` | scripts/build_storage.py:430-475 | caches may go exactly when the worktree is neither the caller's nor the main one, no lease is on its directory, in it, around it or on its branch, no process is unplaced, placed in it or named with it, its branch is merged or gone, and no cache is a link or locked |
| `Worktrees.LeaseKeeps` | scripts/build_storage.py:450-454 | a lease on the directory, in it, around it or on the branch keeps a worktree |
| `Worktrees.OtherLeaseChangesNothing` | scripts/build_storage.py:450-454 | any other lease leaves the verdict as it is |
| `Worktrees.MentionsExactlyWhen` | scripts/build_storage.py:357-359 | a command names a path exactly when the path stands in it, followed by nothing or by a character that ends a name |
| `Worktrees.PathOfText` | scripts/build_storage.py:357-359 | writing an absolute path down and reading it back gives the path |
| `Worktrees.RootOf` | scripts/build_storage.py:348-354 | two leading slashes are a root of their own, one or three are the root, none is a relative path |
| `Worktrees.NamedAppends` | scripts/build_storage.py:348-354 | empty pieces and dots between slashes name nothing, every other piece itself, in order |
| `Worktrees.BusyExactlyWhen` | scripts/build_storage.py:455-461 | a process keeps a worktree exactly when one is placed or named in it or cannot be placed |
| `Worktrees.MoreUseKeeps` | scripts/build_storage.py:430-461 | more leases, processes, places or blindness never free a worktree that was kept |
| `Pruning.PlanPrune` | scripts/build_storage.py:478-493 | prunable and kept are the worktrees owning caches, in order, by verdict |
| `Pruning.PlanSplits` | scripts/build_storage.py:478-493 | none is lost and none is in the plan twice |
| `Pruning.SidesFollowVerdicts` | scripts/build_storage.py:478-493 | each is on the side its verdict says |
| `Pruning.OwnedCachesAre` | scripts/build_storage.py:424-427 | a worktree owns exactly its `target` and `fuzz/target`, as far as measured, with the size measured, or links, with none |
| `Pruning.Remove` | scripts/build_storage.py:584-608 | each worktree is judged afresh before its caches go; a cache that could be removed once may not be again; exit 1 exactly when a removal failed |
| `Pruning.Prune` | scripts/build_storage.py:560-613 | nothing goes in a dry run or without the build slot; otherwise caches go and worktrees are kept exactly as the fresh looks say |
| `Pruning.RemovedExactlyWhen` | scripts/build_storage.py:584-604 | a cache is gone exactly when a worktree judged free at its turn owned it and it could be removed |
| `Pruning.RemovalsAreJustified` | scripts/build_storage.py:430-475 | in every run a cache that is gone is not the caller's target, and its worktree was then under no lease, unused by any process, merged or branchless, and neither the caller's nor the main one |
| `Pruning.BytesAreConserved` | scripts/build_storage.py:584-604 | planned bytes are freed, failed or skipped, whatever changed |
| `Pruning.FreedIsTallied` | scripts/build_storage.py:603-605 | the bytes reported freed are those of the removals |
| `Pruning.TallyMeans` | scripts/build_storage.py:584-605 | planned bytes are those of all entries, skipped those of the entries kept at the fresh look, freed those reported; the rest could not be removed |
| `Pruning.TargetSurvivesExactlyWhen` | scripts/build_storage.py:442-443 | in every run the caller's target survives exactly when no worktree judged free at its turn owns a removable cache strictly above it |
| `Pruning.TargetUnderCacheIsLost` | scripts/build_storage.py:442-443 | a target inside another worktree's cache goes with it |
| `Pruning.MainSurvivesExactlyWhen` | scripts/build_storage.py:424-445 | in every run the main checkout's caches survive exactly when no worktree judged free at its turn owns a removable cache around the main checkout, or is its `fuzz` directory or it the worktree's |
| `Pruning.PlannedAreInPlace` | scripts/build_storage.py:424-427 | what is planned to go is a `target` or `fuzz/target` of its worktree |
| `Pruning.MainUnderWorktreeIsLost` | scripts/build_storage.py:424-445 | a worktree judged free whose cache is the main checkout's |
| `ProcessPlaces.PlacesFromProc` | scripts/build_storage.py:236-250 | every process asked about is fully placed, unread or exited, exactly one of them |
| `ProcessPlaces.SaysWhatIsListed` | scripts/build_storage.py:297-313 | the fold's running process and descriptor give a place exactly where the listing has a process line, its descriptor line and then a path, with nothing between that cuts them off |
| `ProcessPlaces.PidLineMeans` | scripts/build_storage.py:304-305 | a process line names the process by its number, or none if the rest is no number |
| `ProcessPlaces.LineMeans` | scripts/build_storage.py:302-313 | a descriptor line says cwd, txt or another; a name line a path or none; other lines nothing |
| `ProcessPlaces.ReadLsof` | scripts/build_storage.py:297-313 | the loop over the text adds exactly those places, in order |
| `ProcessPlaces.PlacesFromLsof` | scripts/build_storage.py:251-267 | the same three-way sorting with lsof, asked again in chunks for the incomplete: placed exactly when the listings read name both places; of the others, exited exactly when told to have ended |
| `ProcessPlaces.Ended` | scripts/build_storage.py:316-345 | the loops return those the kernel does not know and those ps calls zombies, asked in chunks |
| `ProcessPlaces.EndedWereTold` | scripts/build_storage.py:316-345 | exactly those asked about that the kernel does not know, and those a call of ps that was made calls zombies, are said to have ended |
| `ProcessPlaces.ChunksCover` | scripts/build_storage.py:221-222 | the chunks are the list, in order, nothing twice |
| `ProcessPlaces.ChunksFit` | scripts/build_storage.py:221-222 | no chunk is empty or too long |
| `ProcessPlaces.OnceKeepsAll` | scripts/build_storage.py:267-267 | each place once, none lost |
| `ProcessPlaces.AskedAre` | scripts/build_storage.py:204-212 | asked about is exactly who is this user's, not the caller and no zombie |
| `ProcessPlaces.TableIs` | scripts/build_storage.py:213-218 | the table has exactly those that have not exited, with their places, blind exactly when unread |
| `ProcessPlaces.SeenIsNamed` | scripts/build_storage.py:297-313 | what is seen of a process was named by a listing, and its path is among the places |
| `ProcessPlaces.ListedProcessKeeps` | scripts/build_storage.py:186-218 | a listed process that has not exited keeps every worktree it is placed in, and every one when it is unread |
| `ProcLinks.LinkTellsExactlyWhen` | scripts/build_storage.py:245-247 | a link tells that its process is under a root exactly unless it is the root itself, there, under a name that ends as the kernel marks what is gone |
| `ProcessPlaces.WorkerIsSeenExactlyWhen` | scripts/build_storage.py:236-250 | a process whose links can be read is seen in its worktree exactly when its link tells, its executable is there, or its command names it |
| `ProcessPlaces.WorkerIsNeverMissedOnProc` | scripts/build_storage.py:186-250 | a live process working in a worktree keeps it, whatever of /proc can be read, unless its link cannot tell |
| `ProcessPlaces.WorkerIsMissed` | scripts/build_storage.py:245-247 | a process whose link cannot tell makes no difference to the verdict |
| `ProcessPlaces.MissedWorkerLosesCaches` | scripts/build_storage.py:245-247 | so its worktree, once merged, is judged free under it |
| `ProcessPlaces.SuchNamesThereAre` | scripts/build_storage.py:245-247 | such a name |
| `ProcessPlaces.WorkerIsNeverMissedByLsof` | scripts/build_storage.py:186-267 | likewise with lsof, as long as no listing names a wrong directory and neither kill nor a call of ps that was made says it has ended |
| `SourceIdentity.DecodeUndoesStream` | scripts/benchmark_manifest.py:14-32 | a decoder recovers every path with its kind, mode bits and contents from the stream |
| `SourceIdentity.StreamIsInjective` | scripts/benchmark_manifest.py:14-32 | different listings never give the same stream |
| `SourceIdentity.SameStreamExactlyWhenSame` | scripts/benchmark_manifest.py:14-32 | two trees have the same stream exactly when they are the same |
| `SourceIdentity.DecodesExactlyWhen` | scripts/benchmark_manifest.py:25-28 | a stream decodes to its listing exactly when every size is that of the contents read |
| `SourceIdentity.EntriesListTree` | scripts/benchmark_manifest.py:14-32 | what the loop feeds for a sorted listing lists the tree |
| `SourceIdentity.SameIdentityExactlyWhenSame` | scripts/benchmark_manifest.py:14-32 | what the loop feeds for two trees is the same exactly when the trees are |
| `SourceIdentity.WrongSizeIsAmbiguous` | scripts/benchmark_manifest.py:25-28 | two listings with one stream, when a size is not that of the contents read |
| `SourceIdentity.ExecuteBitsAre` | scripts/benchmark_manifest.py:24-25 | two modes come to the same exactly when they agree on the three execute bits |
| `SourceIdentity.LessIsTotal` | scripts/benchmark_manifest.py:16-16 | paths are sorted by the first byte that differs, and any two can be |
| `SourceIdentity.TagsAreNamed` | scripts/benchmark_manifest.py:20-32 | each kind of entry by the word before it |
| `SourceIdentity.FeedContents` | scripts/benchmark_manifest.py:26-28 | reading by the megabyte feeds the contents |
| `SourceIdentity.FeedEntry` | scripts/benchmark_manifest.py:19-32 | the pieces fed for a path are its encoding |
| `SourceIdentity.Identify` | scripts/benchmark_manifest.py:14-32 | the loop feeds the stream of the listing, the empty path passed over |
| `CodeSpans.FindRuns` | scripts/docs_check.py:188-188 | the runs of backticks, left to right |
| `CodeSpans.ScanIsFound` | scripts/docs_check.py:183-204 | from any place after a run, the run list and the parity of backslashes find what the character scanner finds |
| `CodeSpans.FindSpans` | scripts/docs_check.py:183-204 | for every line, exactly the spans of the scanner of CommonMark 0.31, sections 2.4 and 6.1 |
| `CodeSpans.ScanToRun` | scripts/docs_check.py:192-194 | an odd number of backslashes before a run escapes its first backtick, an even number none |
| `CodeSpans.ScanIsInOrder` | scripts/docs_check.py:183-204 | spans are in order, apart, and delimited by runs of one length |
| `CodeSpans.CloseIsFirst` | scripts/docs_check.py:198-198 | the closing run is exactly that long and no run before it is |
| `TouchedCrates.Dependents` | scripts/touched_crates.py:74-89 | exactly the packages at the end of a chain in which each has the one before among its dependencies, cycles included |
| `TouchedCrates.AllDependents` | scripts/touched_crates.py:74-90 | for every package |
| `TouchedCrates.FindOwner` | scripts/touched_crates.py:104-108 | the deepest package that owns the path, if any does |
| `TouchedCrates.Touched` | scripts/touched_crates.py:93-109 | nothing is selected exactly for a workspace-wide path, each named; otherwise owners and all their dependents |
| `TouchedCrates.TouchedIsLeast` | scripts/touched_crates.py:93-109 | the answer is the least set that holds every owner and, with a package, each that has it among its dependencies |
| `TouchedCrates.OrderDoesNotMatter` | scripts/touched_crates.py:93-109 | it does not depend on the order of the paths |
| `ProcTcp.ReadTable` | scripts/proc_tcp.py:21-42 | a table is read whole or not at all; only an optional one may be absent |
| `ProcTcp.SocketTables` | scripts/proc_tcp.py:67-74 | no tables without both TCP tables and `unix` read whole |
| `ProcTcp.Take` | scripts/proc_tcp.py:90-102 | one sample's verdict, with each read's failure |
| `ProcTcp.Inspect` | scripts/proc_tcp.py:77-105 | at most eight samples, and the answer is the first one's that decides |
| `ProcTcp.ClearExactlyWhen` | scripts/proc_tcp.py:94-102 | no TCP is answered exactly when in one sample every inode seen is in another table and in neither reading of TCP's |
| `ProcTcp.CountsExactlyWhen` | scripts/proc_tcp.py:90-96 | any socket counts as TCP exactly when the scan met it and it is listed at one of the four readings |
| `ProcTcp.FoundExactlyWhen` | scripts/proc_tcp.py:90-98 | a sample answers TCP exactly when there is such a socket |
| `ProcTcp.MetBetween` | scripts/proc_tcp.py:45-64 | a socket open throughout the scan is met, and one met was open at some moment of it |
| `ProcTcp.ClearMeansNoneListed` | scripts/proc_tcp.py:90-102 | a clear answer means that no socket the scan met was listed at any reading, and each is in another table |
| `ProcTcp.BracketedSocketIsFound` | scripts/proc_tcp.py:90-96 | so one listed from the first reading to the scan, or from it to the second, is found |
| `ProcTcp.ClearAnswerMissesNothing` | scripts/proc_tcp.py:90-102 | so a clear answer missed no such socket |
| `ProcTcp.BriefSocketCanBeMissed` | scripts/proc_tcp.py:4-6 | one that closes before the scan comes to it is missed |
| `ProcTcp.UnlistedSocketCanBeMissed` | scripts/proc_tcp.py:4-6 | one open and listed throughout the scan, but at no reading, is missed when its number is in another table |
| `Channel.Connection.Read` | scripts/claude_channel_smoke.py:35-49 | the next line is taken off as soon as there is one; nothing comes back only when waiting brought nothing; no byte is lost or repeated |
| `Channel.Connection.Response` | scripts/claude_channel_smoke.py:52-62 | offers on the way are queued in order, at most 16; it succeeds exactly when the last line taken answers the request; running out of turns cannot happen |
| `Channel.Connection.TakeOffer` | scripts/claude_channel_smoke.py:64-67 | the first queued offer, or else the next message |
| `Channel.Connection.Ack` | scripts/claude_channel_smoke.py:69-73 | acknowledged exactly when the answer taken reports no error, refused exactly when it reports one |
| `Channel.Connection.OffersAreTheStreams` | scripts/claude_channel_smoke.py:25-73 | offers handed out, queued and still in the buffer are the stream's, in arrival order |
| `Channel.FramingIsForced` | scripts/claude_channel_smoke.py:35-49 | lines and rest do not depend on the chunking |
| `FirstStart.Turn` | scripts/windows_daemon_smoke.py:88-98 | a probe has some time, within what is left and the cap, and is kept |
| `FirstStart.Wait` | scripts/windows_daemon_smoke.py:74-106 | it ends, starts once, bounds every probe, an answer counts exactly when it came by the deadline, and it gives up only when the budget is gone or the daemon has ended |
| `FirstStart.WaitFirstStart` | scripts/windows_daemon_smoke.py:74-106 | with ninety seconds and ten for a probe |
| `FirstStart.WaitCleanupStart` | scripts/windows_daemon_smoke.py:109-137 | with ten seconds and three for a probe, one entry per probe, passed exactly when answered in time |

## Left out

- The registry, journal, message bus, notices, approvals, sessions and the other daemon requests: they are not part of this model.
- Storage failures other than that of a handoff, pauses, session folding and the audit events of a claim: the model keeps the decision over leases and waits.
- Arbiter.LeaseArbiter.Attempt: the capacity check of quotas, which can refuse a claim before the table is asked, is not modelled.
- WaitQueues.NobodyOvertakes: says nothing of claims that never queue; `Fairness.PutOffAtMostByThoseInFront` does, over runs of the daemon.
- Wakeups.SleepsOnlyWhileStalledExactlyWhen: the deadline of a wait, events lost to a slow listener, which wake it, and the wait announced as ended for a claim refused at once, which can only wake more, are not modelled.
- Arbiter.NoRunDeadlocks: counts waits for leases only, as the source's search does; `HeldUp.NobodyWaitsInCircles` counts turns as well.
- Leases.LeaseTable.Transfer: the order in which leases are listed is not modelled; results are sets, and ids are a parameter.
- Deadlocks.Deadlock: waits that stand behind other waits are not part of a ring here, as they are not in the source.
- FixtureProcesses.Fixture.Stop: the order of signals within a stage, the clock of its waiting and the names of signals are not modelled; the clock is the number of polls it allows.
- FixtureProcesses.Fixture.Capture: that every descendant is found is not claimed, as the first birth seen of a pid is kept.
- Worktrees.Decide: the wording of reasons and which of several leases is named are not modelled.
- ProcessPlaces.ReadLsof: the listing is given as its lines, and process numbers are of ASCII digits.
- ProcessPlaces.Ended: the text of ps and kill is given as answers, not parsed.
- IconPlace.Place: floating-point rounding of the scale is not modelled; the scale is a real.
- PngFile.Read: zlib and CRC-32 are parameters; the source writes a CRC and never checks it, and so does the model.
- ProcTcp.SocketTables: splitting a table's bytes into fields and reading descriptor links are inputs.
- Channel.Connection.Read: parsing JSON is a parameter, and time is the script of what waiting brings.
- FinishReport.Finish: a save that fails is not modelled.
- `workspace_packages`, `text_lines`, `smooth`, the icon's tile, `stop_daemon`, the `SPECIFICS` patterns, argument parsing and printing: they would add easy members or are text handling.
- `build_native.inputs`: its framing is not self-delimiting, and no claim is made of it.
