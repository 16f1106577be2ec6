# Verified models of a machine emulator's core

Dafny models of the parts of QEMU where a wrong step is hardest to see, with proofs of what those parts
promise. Each module follows one mechanism of the source, in its own form: shared tables and graphs that
are updated in place are classes with loops and recursion, protocols between threads are state machines
with one step for every access to shared memory, and codecs are functions with an in-place reader beside
them.

| files | mechanism | main results |
|---|---|---|
| PageTree, PhysMap, DispatchTable, DispatchSteps, Dispatch, Bits | physical-address dispatch (exec.c, memory.c) | `Dispatch.BuildDispatch` with `Translate`: every address resolves to the section that contains it; path compression changes no answer; the node reservation always suffices |
| Exclusive | exclusive sections of vCPU threads (cpus-common.c) | `RunsAreExclusive`, `PendingIsCount`, `NoWakeupIsLost`, `CallsAreServed` over every interleaving |
| BlockPerm | permission updates on the block graph (block.c) | `TrySetPerm`: all or nothing, with every parent in agreement, and exactly when; `OutcomeIsUnique`, `DiamondIsRefused` |
| BlockGraph | edges, reference counts, replacing and appending nodes (block.c) | `RedirectExact`, `ReplaceNode`, `Append`, `Delete`, `EveryNodeIsHeld` |
| Quiescing, Stacking, Transactions | grouped external snapshots (blockdev.c) | `Run`: the outcome can be told beforehand; rollback restores the graph under an exact condition on the graph and the requests; every started action is cleaned once |
| AioContexts | moving connected nodes between AioContexts (block.c, blockjob.c) | `TrySet`: nobody moves, or exactly what is connected |
| RamBlocks | RAM offset allocator and block list (exec.c) | `Add`, `GetBlock`, `GapIffRoom` |
| DirtyMemory | snapshots of the dirty bitmap under concurrent marking (exec.c, util/bitmap.c) | `SnapshotAndClear`, `SnapshotAnswers` |
| Bounce | the bounce buffer and its waiting list (exec.c) | `OneHolder`, `WaitersAreRemembered`, `ClientsAreAccountedFor` |
| GdbPackets | packets of the GDB remote protocol (gdbstub.c) | `RoundTrip`, `NeverOverruns` |
| Icount | the instruction-count clock (cpus.c) | `Session`, `BudgetReachesDeadline`, `Adjust` |
| PortIo | cutting port tables into regions (ioport.c) | `Add`, `AccessInRegion` |

`dafny verify dfyconfig.toml` checks the whole project.

## What the models take from outside

Answers that the source gets from drivers, hosts or devices are parameters. They are arbitrary: every result
holds for all of them.

- Permission checks inside graph operations are the booleans `granted` and `granted2`; BlockPerm models the
  checks themselves on a graph whose edges do not move.
- A driver's child permissions are any pure function that shares WRITE_UNCHANGED when all parents do; a
  driver with a check hook of its own has no children.
- Opening and creating images, media, blockers and flushes are the fields of `Transactions.Request`.
- Whether a BlockBackend allows a change of context is a field of its edge.
- Time, timers, host memory and the marks of other CPUs are arguments.

Integers are unbounded. Widths are written out where the source depends on them: 64-bit addresses and their
wrap-around in dispatch and RAM offsets, the 16-bit decrementer, bytes and signed characters in packets.

## Where the source does less than it seems to promise

- Rolling back a snapshot moves every movable parent of the overlay to the old node. An overlay given by node
  name may have such parents if none of them needs consistent reads: a user like a mirror target
  (`UserOfOverlayIsLost`), or a node without users that has the overlay as its backing node
  (`ParentOfOverlayIsLost`). They do not come back. If the link of one is frozen, the rollback ends the program
  (`BystanderIsLost`). `Run` states when either happens, on the graph and the requests before.
- Preparing a snapshot does not test whether the node already leads to the overlay. If it does, as when an unused
  node gets its own backing node as overlay, the program ends in the assertion that attaching a drained node does
  not drain it once more (`AttachParent`, `OverlayBelowItsNode`).
- A permission update compares each edge with what the other parents of its node have at that moment. Where two
  ways down meet, a change that asks for more and refuses less can be refused although all would agree in the end
  (`DiamondIsRefused`). With monotone drivers this happens to no change that only asks for more.
- The RAM allocator finds space below the lowest block only if some block ends in the last aligned unit of the
  address space, where the candidate wraps to zero (`LowSpaceIsLost`, `LowSpaceByWrapping`). Above any block it
  finds a place whenever there is one.
- An adjustment of the instruction-count rate is continuous for readers outside the vCPU. What the vCPU would read
  jumps unless all it executed is counted, the machine is stopped or no correction is due (`Adjust`,
  `ReadingJumps`). The readings that are made still never decrease (`Slice`).
- A question about an empty part of a dirty snapshot that starts inside a page tests that page
  (`EmptyQuestion`).

## Model

| member | source | states |
|---|---|---|
| `PageTree.UpdateKeeps` | exec.c:261-310 | Overwriting a slot with an entry that finds at least as much loses no assigned page anywhere, however many links share the slot |
| `PageTree.BypassKeeps` | exec.c:261-310 | Skipping a node whose only used slot is `v` keeps every assigned page reachable and never makes a link longer than the levels left |
| `PageTree.BypassTight` | exec.c:285-309 | The lengthened link leads to nothing that could be compressed further |
| `PageTree.FilledCompose` | exec.c:222-246 | Filling a prefix of a block and then part of the next child fills exactly the longer prefix and no other page |
| `PageTree.FreshNode` | exec.c:202-220 | A newly allocated node reads as unassigned on every page |
| `PhysMaps.PhysMap.NodeReserve` | exec.c:192-200 | Room for `count` more nodes is there afterwards, and the hint never shrinks |
| `PhysMaps.PhysMap.EnsureNode` | exec.c:229-231 | A nil link gets a node of its own while every page still reads as before, inside and outside the block |
| `PhysMaps.PhysMap.SetChild` | exec.c:235-245 | One child block receives exactly the pages that fall into it; all other pages read as before; at most its share of nodes is allocated |
| `PhysMaps.PhysMap.SetLevel` | exec.c:222-246 | The pages of the block that lie in the range lead to the section, all others read as before, and the allocation stays within the cost bound |
| `PhysMaps.ChildCost` | exec.c:222-246 | Only the first and the last child of a range can cost nodes, so a range costs one node per level at one end and two per level at two |
| `PhysMaps.NotALeaf` | exec.c:235-245 | The descent never treats a leaf as a node: a page that is still unassigned has a link above it |
| `PhysMaps.PhysMap.PageSet` | exec.c:248-256 | Any range of unassigned pages is mapped exactly, with at most 2*levels-1 new nodes, so the reservation of 3*levels always suffices |
| `PhysMaps.PhysMap.CompactChildren` | exec.c:261-284 | All links of a node are compacted without losing a page, and the number and place of used slots are found |
| `PhysMaps.PhysMap.PageCompact` | exec.c:261-310 | Every assigned page still leads to its section, links still end at or above the bottom level, and below 64 levels nothing compressible is left |
| `PhysMaps.PhysMap.DispatchCompact` | exec.c:312-317 | The same for the whole tree |
| `DispatchTable.CoversIsContains` | exec.c:319-328 | The test on the high and low halves of the 128-bit size, with its 64-bit arithmetic, is the range test |
| `DispatchTable.LevelsSuffice` | exec.c:124-129 | The number of levels reaches every page of a 64-bit address space |
| `DispatchTable.FindIsUnique` | exec.c:330-351 | phys_page_find returns the tree section that contains the address, or unassigned if none does, using only that sections are reachable from their own pages; wrong turns fail the cover test |
| `DispatchTable.FindDependsOnPagesOnly` | exec.c:330-351 | Two trees over the same sections, such as a tree and its compacted form, find the same section for every 64-bit address |
| `DispatchSteps.FreePages` | exec.c:1504-1546 | Pages of a section that overlaps no registered one lead nowhere yet |
| `DispatchSteps.MultipageAdds` | exec.c:1535-1546 | Hanging a whole-page section on the tree changes exactly the answers of its own addresses |
| `DispatchSteps.NewSubpageKeeps` | exec.c:1504-1532 | Turning an unassigned page into a sub-page changes no answer |
| `DispatchSteps.PieceOffsets` | exec.c:1504-1532 | The addresses of a piece inside one page are exactly a range of offsets of that page |
| `DispatchSteps.SubpageAdds` | exec.c:2819-2837 | Pointing a range of a sub-page table at a new section changes exactly the answers of that section's addresses |
| `Dispatch.ExtendAnswers` | exec.c:1555-1591 | A piece that continues the registered part of a section, at the right place in its region, extends that part |
| `Dispatch.AddressSpaceDispatch.constructor` | exec.c:2889-2900 | The new table answers every address with unassigned |
| `Dispatch.AddressSpaceDispatch.SectionAdd` | exec.c:1462-1479 | The section gets the next number unless that would reach the page size |
| `Dispatch.AddressSpaceDispatch.PageFind` | exec.c:330-351 | The loop over levels and skips, with its cover test, is the tree walk |
| `Dispatch.AddressSpaceDispatch.SubpageRegister` | exec.c:2819-2837 | Exactly the offsets from start to end are redirected; out-of-range arguments change nothing |
| `Dispatch.AddressSpaceDispatch.HangPages` | exec.c:248-256 | The section stored last is reachable from its own pages and no others, and the node numbers stay far below the nil value |
| `Dispatch.AddressSpaceDispatch.RegisterMultipage` | exec.c:1535-1546 | A free whole-page section answers its own addresses, all others are answered as before |
| `Dispatch.AddressSpaceDispatch.NewSubpage` | exec.c:1504-1532 | The page gets an empty sub-page table and no answer changes |
| `Dispatch.ExistingIsSubpage` | exec.c:1504-1516 | The assertion of register_subpage holds: what is found on the page of a free piece is a sub-page or nothing |
| `Dispatch.AddressSpaceDispatch.RegisterSubpage` | exec.c:1504-1532 | A free piece inside one page answers its own addresses, all others are answered as before |
| `Dispatch.HeadPiece` | exec.c:1560-1574 | The head ends at the next page boundary, also where rounding up wraps past the end of the address space |
| `Dispatch.WholePages` | exec.c:1576-1587 | The middle is the largest number of whole pages and leaves less than a page |
| `Dispatch.AddressSpaceDispatch.AddAligned` | exec.c:1576-1591 | Whole pages and then the tail register all that is left of the section |
| `Dispatch.AddressSpaceDispatch.Add` | exec.c:1555-1591 | After any earlier disjoint sections, the new section is registered completely and nothing else changes; refusal only when section numbers run out |
| `Dispatch.CompactedTable` | exec.c:312-351 | Compaction changes the answer for no 64-bit address, with sub-pages resolved or not |
| `Dispatch.AddressSpaceDispatch.Compact` | exec.c:312-317 | No address is answered differently, and the tree has nothing left to compress |
| `Dispatch.AddressSpaceDispatch.LookupRegion` | exec.c:354-371 | The result is the same whatever the most recently used section is, and afterwards that is the one found |
| `Dispatch.Located` | exec.c:375-407 | The answering section knows the right place of the address in its region, without wrap-around |
| `Dispatch.HeadFits` | exec.c:1560-1574 | The head of a section is not cut again when the rest is added |
| `Dispatch.PagesFit` | exec.c:1576-1587 | The whole pages of a section are one part, and the head stays as it is |
| `Dispatch.TailFits` | exec.c:1576-1591 | The tail is one part, and head and whole pages stay as they are |
| `Dispatch.AddressSpaceDispatch.Translate` | exec.c:373-407 | For every address: the region and the place in it are those of the registered section that contains it, or unassigned if there is none; the length of a RAM access is exactly what is asked for or what is left of the head, the whole pages or the tail of that section, whichever is less; an unresolved sub-page gives back the address as its base and a place in it, and leads to the same section |
| `Dispatch.BuildDispatch` | memory.c:717-723 | For every list of disjoint sections the finished table resolves every address to the section that contains it, or to unassigned |
| `Exclusive.ActionKeeps` | cpus-common.c:171-301 | Every atomic step of every call, and every spurious wakeup, keeps the invariant of locks, owner, running flags, counts and sleepers |
| `Exclusive.RunKeeps` | cpus-common.c:37-301 | The invariant holds in every state of every run of any number of threads |
| `Exclusive.RunsAreExclusive` | cpus-common.c:180-301 | While a thread is between start_exclusive and end_exclusive no CPU is between cpu_exec_start and cpu_exec_end and no other thread is exclusive |
| `Exclusive.PendingIsCount` | cpus-common.c:180-301 | With the lock free, pending_cpus is 0 with no has_waiter set, or 1 plus the number of CPUs with has_waiter |
| `Exclusive.WaiterGetsIn` | cpus-common.c:202-213 | From any such state the waiter enters by steps of the counted CPUs and its own, without spurious wakeups |
| `Exclusive.NoWakeupIsLost` | cpus-common.c:202-301 | A thread asleep on exclusive_cond always has a counted CPU that owes a decrement, and a continuation in which it is signalled and becomes exclusive |
| `Exclusive.NoResumeIsLost` | cpus-common.c:171-224 | A thread asleep on exclusive_resume always has a continuation in which end_exclusive wakes it |
| `Exclusive.RunsOn` | cpus-common.c:171-301 | A thread awake inside a call, with the lock free or its own, comes by its own steps to the return of the call or to sleep, releasing the lock; it does not sleep on exclusive_resume if pending_cpus was 0 |
| `Exclusive.ResumeWakes` | cpus-common.c:171-224 | A sleeper on exclusive_resume is woken by a continuation after which pending_cpus is 0 and the lock is free |
| `Exclusive.CallsReturnAlone` | cpus-common.c:215-301 | With no section pending and the lock free, cpu_exec_start, cpu_exec_end and end_exclusive return by the steps of their own thread |
| `Exclusive.CallsReturn` | cpus-common.c:171-301 | From every state of every run every call has a continuation without spurious wakeups in which it returns |
| `Exclusive.CallsAreServed` | cpus-common.c:171-301 | In every state of every run any call that a thread may make can be made and return to where it should |
| `BlockPerm.PermGraph.GetCumulative` | block.c:2129-2143 | The result is the union of what the parents use and the intersection of what they share |
| `BlockPerm.PermGraph.ScanParents` | block.c:2193-2248 | It succeeds if and only if the request agrees with every other parent, and adds it to what they do together |
| `BlockPerm.PermGraph.CheckUpdate` | block.c:2193-2252 | On success the children carry what the drivers derive; a conflict with another parent always fails |
| `BlockPerm.PermGraph.CheckChild` | block.c:2256-2286 | On success the edge carries the request and everything reachable below carries derived permissions, with a backup of every change; on trees it succeeds exactly if everybody below grants it; with monotone drivers it succeeds on any graph if there is a stricter state in which all agree |
| `BlockPerm.PermGraph.CheckNode` | block.c:1989-2071 | On success everything below carries what is derived from the cumulative permissions; loosening never fails with monotone drivers; asking for more than before is reported, here or along first children |
| `BlockPerm.PermGraph.CheckKids` | block.c:2050-2068 | The same for the loop over the children |
| `BlockPerm.PermGraph.AbortChild` | block.c:2302-2311 | Exactly the edge and the edges below it take their backups back |
| `BlockPerm.PermGraph.AbortNode` | block.c:2080-2096 | Exactly the edges below the node take their backups back |
| `BlockPerm.PermGraph.SetChild` | block.c:2288-2300 | Exactly the edge and the edges below it drop their backups, and the stored permissions do not change |
| `BlockPerm.PermGraph.SetNode` | block.c:2098-2127 | The same below a node |
| `BlockPerm.AbortRestores` | block.c:2313-2342 | However a check failed, the abort gives every edge of the graph back exactly what it had |
| `BlockPerm.CommitKeeps` | block.c:2313-2342 | After a successful check the commit leaves all parents of all nodes in agreement and no backup |
| `BlockPerm.OutcomeIsUnique` | block.c:1989-2071 | The applied permissions are determined by the request: two outcomes agree on every edge |
| `BlockPerm.OutcomeIsStricter` | block.c:1989-2071 | With monotone drivers, an outcome of asking for more at one edge is stricter on every edge below, however the ways down join |
| `BlockPerm.DiamondIsRefused` | block.c:2193-2252 | On a concrete diamond of default filters, a request to write and share writing at once is refused although all would agree in the end: the first way down is compared with what the second had before |
| `BlockPerm.DefaultsAreMonotone` | block.c:2356-2418 | The filter and format defaults never ask for more when their parents ask for less, and share WRITE_UNCHANGED when their parents do |
| `BlockPerm.DefaultsProtect` | block.c:2356-2418 | Filters hand everything on but GRAPH_MOD; format drivers only read their backing file, write and resize their own file if writable, and let nobody else do so unless inactive |
| `BlockPerm.ForceShareAgrees` | block.c:1954-1968 | Edges to a node opened with force-share never conflict |
| `BlockPerm.PermGraph.TrySetPerm` | block.c:2313-2342 | Either nothing changes, or the edge has the request, everything below what is derived and nothing else changed; either way every parent's use is shared by every other parent and no backup is left; it succeeds exactly if everybody below grants it on trees, and exactly if there is an outcome in which all agree when asking for more of monotone drivers on any acyclic graph; asking for less always succeeds; any other change succeeds if all agree in some stricter state and fails if the first way down meets a disagreement; a refusal that refuses to tighten is an error, and with monotone drivers every refusal is |
| `BlockGraphs.BlockGraph.ShouldUpdateChild` | block.c:4308-4385 | The breadth-first search ends, and says yes if and only if the edge is not pinned and its owner cannot be reached from the target |
| `BlockGraphs.RedirectAcyclic` | block.c:4387-4445 | Redirecting any number of such edges at once makes no cycle |
| `BlockGraphs.RedirectExact` | block.c:4308-4385 | The test is exact: redirecting makes a cycle if and only if the owner of a redirected edge is reachable from the target |
| `BlockGraphs.LinkAcyclic` | block.c:2752-2786 | A new edge makes a cycle if and only if its target already leads to its owner |
| `BlockGraphs.BlockGraph.CollectMovers` | block.c:4403-4417 | The list holds exactly the edges that may move, and the error comes exactly if one of them is frozen |
| `BlockGraphs.BlockGraph.RedirectAll` | block.c:4427-4436 | All edges of the list, and a reference for each, go from the old node to the new one |
| `BlockGraphs.BlockGraph.ReplaceNode` | block.c:4387-4445 | It fails without any change exactly if permissions are refused or a link is frozen; otherwise all edges that may move have moved, counts are right and an acyclic graph stays acyclic |
| `BlockGraphs.BlockGraph.Ref` | block.c:5851-5854 | One more outside reference |
| `BlockGraphs.BlockGraph.Open` | blockdev.c:1581-1586 | A new image is a live node with no edges, held once by the caller |
| `BlockGraphs.BlockGraph.Unref` | block.c:5859-5868 | Counts stay equal to incoming edges plus outside references; the node goes exactly when the last reference does; only unreferenced nodes below it go with it |
| `BlockGraphs.BlockGraph.Delete` | block.c:4244-4291 | Deletion cascades only downwards, ends, removes no edge of a surviving node and no node that anybody outside holds |
| `BlockGraphs.BlockGraph.UnrefChild` | block.c:2678-2685 | The edge goes with its reference, and what that leaves unreferenced |
| `BlockGraphs.BlockGraph.AttachChild` | block.c:2570-2666 | The caller's reference becomes the edge's, for a node or for a user outside the graph, or is dropped on failure |
| `BlockGraphs.BlockGraph.DropBacking` | block.c:2766-2769 | The old backing edge goes, its owner survives, and nothing but unreferenced nodes below is deleted |
| `BlockGraphs.BlockGraph.SetBacking` | block.c:2752-2786 | A frozen link stops everything; otherwise the old backing goes first and stays gone if the new one is refused; no cycle unless the new backing leads to the node |
| `BlockGraphs.BlockGraph.Append` | block.c:4463-4485 | Succeeds exactly if both permission checks pass and no moving link is frozen; then the new node is in the place of the old one and over it; otherwise the graph is as before but for the caller's reference |
| `BlockGraphs.EveryNodeIsHeld` | block.c:4487-4501 | No leaks: every live node of an acyclic graph is reachable from one held by somebody outside |
| `Stacking.StackedReach` | blockdev.c:1609-1618 | After an overlay is put in place every node leads where it led before, and the overlay leads to the node |
| `Quiescing.QuiesceCounters.Begin` | block/io.c:381-393 | Draining a node ends on every acyclic graph, and raises the counters of exactly the node and the nodes that lead to it |
| `Quiescing.QuiesceCounters.AttachParent` | block.c:2438-2484 | The assertion on attaching a drained node to a new parent fails if and only if the node leads to that parent |
| `Stacking.StackedAcyclic` | block.c:4463-4485 | Putting an overlay in place makes a cycle if and only if the node leads to the overlay |
| `Stacking.UndoneEdges` | blockdev.c:1643-1684 | The abort moves every movable edge of the overlay to the old node: none is held back by the cycle test, also on a graph where other edges have drifted |
| `Stacking.UndoIsExact` | blockdev.c:1643-1684 | Putting an overlay in place and aborting restores all edges if and only if no edge to the overlay, from a node or from outside, was movable before |
| `Stacking.UserOfOverlayIsLost` | blockdev.c:1643-1684 | A concrete graph on which the abort moves the overlay's own user to the other node |
| `Stacking.ParentOfOverlayIsLost` | blockdev.c:1643-1684 | A concrete graph on which the abort moves the backing edge of an unused node from the overlay to the other node |
| `Transactions.AppendOverlay` | blockdev.c:1609-1618 | The overlay is in place exactly if the append succeeds, and our reference to it is still there; on failure no edge changes |
| `Transactions.Undo` | blockdev.c:1648-1682 | The abort succeeds exactly if permissions are granted and no edge to be moved is frozen; then the backing edge is gone, the moved edges are back and no reference is lost; otherwise the program ends |
| `Transactions.Transaction.OpenOverlay` | blockdev.c:1581-1586 | A new image is a new isolated node; a node by reference must exist; either is held once more |
| `Transactions.Transaction.LayOver` | blockdev.c:1581-1622 | On the graph before: the overlay is laid over the node exactly if all checks pass; the program ends exactly if all checks up to the new backing edge pass and the node leads to the overlay; otherwise no edge changes |
| `Transactions.Transaction.PrepareAction` | blockdev.c:1456-1622 | Exactly when the action is prepared and exactly when preparing it ends the program; the node that is drained and the overlay that is held are recorded even when a later check fails |
| `Transactions.Transaction.PrepareAll` | blockdev.c:2380-2405 | Actions are prepared in order up to the first failure; whether all are prepared, whether one ends the program, whether an edge will be lost and whether an abort will fail can be told from the graph and the requests beforehand |
| `Transactions.PlacedStep` | blockdev.c:1643-1684 | One abort puts an edge where its prepare step found it, unless the edge is below an overlay that took it earlier, and then it is below the node of that overlay |
| `Transactions.JamsHere` | blockdev.c:1677-1680 | A frozen edge is in the way of an abort if and only if one pointed to the overlay before it was put in place |
| `Transactions.UndoingStep` | blockdev.c:2416-2422 | After any number of aborts the next one finds its overlay in place and its nodes alive, and fails exactly if permissions are refused or a frozen edge pointed to the overlay |
| `Transactions.AllUndone` | blockdev.c:2416-2422 | After all aborts the edges are as at the start if and only if no overlay took one of them |
| `Transactions.Transaction.AbortAction` | blockdev.c:1643-1684 | An action without an overlay in place is not touched; otherwise as for Undo |
| `Transactions.Transaction.AbortAll` | blockdev.c:2416-2422 | Aborts run once for each started action, last first; they succeed exactly if no action is refused permissions or meets a frozen edge, and then all prepare steps are undone |
| `Transactions.CleanExact` | blockdev.c:1686-1703 | Cleaning drops new nodes nobody else refers to and leaves old nodes alone |
| `Transactions.Transaction.CleanAction` | blockdev.c:1686-1703 | The drain is ended and the reference dropped exactly if they were taken |
| `Transactions.Transaction.CleanAll` | blockdev.c:2423-2429 | Each started action is cleaned once, all drains end, and no edge goes or changes but those of nodes that go |
| `Transactions.Transaction.RollBack` | blockdev.c:2416-2429 | It comes to an end exactly if no abort fails; then the graph is exactly as before if and only if no overlay put in place had taken an edge of the graph before |
| `Transactions.RequestsSuffice` | blockdev.c:2356-2434 | Nothing is lost if no overlay named in the requests has a movable edge in the graph before; in particular if all overlays are new images |
| `Transactions.FreshSnapshotsCommit` | blockdev.c:2356-2434 | While nothing is frozen, any number of snapshots to new images on live nodes and devices, whose checks pass, are all taken |
| `Transactions.BystanderIsLost` | blockdev.c:2356-2434 | A concrete transaction whose rollback leaves a node that it does not name with another backing node, and one whose rollback ends the program |
| `Transactions.OverlayBelowItsNode` | blockdev.c:1592-1618 | A concrete graph in which laying the backing node of an unused node over that node, or over itself, ends the program |
| `Transactions.Transaction.Run` | blockdev.c:2356-2434 | For any graph and requests, which tell beforehand whether it commits, rolls back or ends the program: the sequence of calls; drains balanced; on success every check of every request has passed, the overlay asked for lies over the node asked for, all steps are applied and every edge of a live node is in place; on failure the graph restored if and only if no action prepared on the way lays over an overlay to which a movable edge of the old graph points |
| `AioContexts.Contexts.CanSetNode` | block.c:6294-6315 | The check ends and fails exactly if somebody who objects is reached; on success everything it reached is recorded |
| `AioContexts.Contexts.CanSetParent` | block.c:6259-6280 | The same for a parent edge: nodes and jobs are walked through, BlockBackends decide, users without handlers refuse |
| `AioContexts.Contexts.CanSetChild` | block.c:6282-6290 | The same for a child edge |
| `AioContexts.Contexts.CanSetJob` | blockjob.c:133-146 | A job connects all its nodes |
| `AioContexts.Contexts.SetNode` | block.c:6200-6257 | The change ends, and marks exactly what the walk has finished with |
| `AioContexts.Contexts.SetParent` | block.c:6221-6228 | After a successful check the assertion on the handler holds for every parent edge |
| `AioContexts.Contexts.SetChild` | block.c:6214-6220 | Each child edge is walked once |
| `AioContexts.Contexts.SetJob` | blockjob.c:148-164 | All nodes of the job and the job itself are moved |
| `AioContexts.FoundAll` | block.c:6200-6315 | A finished walk has come to everything that is connected |
| `AioContexts.FoundNotStuck` | block.c:6294-6315 | A check that succeeds has met nobody who objects, so the change finds a handler on every edge |
| `AioContexts.SharedContextConn` | block.c:6317-6342 | If all connected nodes share a context other than the target, the walk reaches everything connected at all |
| `AioContexts.Contexts.TrySet` | block.c:6317-6336 | Either nobody moves, exactly if somebody connected objects, or exactly the connected nodes, jobs and BlockBackends are in the target context and all others where they were |
| `RamBlocks.RoundUpFacts` | exec.c:1886-1890 | Aligning up wraps only to zero |
| `RamBlocks.NextBlock` | exec.c:1892-1899 | The closest block at or after the candidate, or the end of the space |
| `RamBlocks.RamList.FindNext` | exec.c:1892-1899 | The inner loop computes it |
| `RamBlocks.GapIsFree` | exec.c:1872-1922 | A gap that is large enough overlaps no block |
| `RamBlocks.PlaceIsInGap` | exec.c:1872-1922 | Wherever a block could be placed after another one, some gap is large enough |
| `RamBlocks.LowSpaceIsLost` | exec.c:1872-1922 | A concrete list in which the space below the lowest block would fit and is not found |
| `RamBlocks.LowSpaceByWrapping` | exec.c:1872-1922 | A concrete list, with a block that ends in the last aligned unit of the address space, in which the space below it is found |
| `RamBlocks.GapIffRoom` | exec.c:1872-1922 | Some gap is large enough if and only if the block fits after another one, or fits at zero while some block ends in the last aligned unit of the address space |
| `RamBlocks.RamList.FindOffset` | exec.c:1872-1922 | The first of the smallest gaps that are large enough, or failure exactly if no gap is |
| `RamBlocks.RamList.FindSlot` | exec.c:2241-2250 | The place after all blocks that are not smaller |
| `RamBlocks.Inserted` | exec.c:2241-2258 | Inserting a block that fits at that place keeps the list disjoint, aligned and sorted |
| `RamBlocks.RamList.Add` | exec.c:2201-2263 | Success exactly if host memory is there and the list is empty or has room after a block, or at zero by wrapping; the offset starts the best fitting gap; blocks stay disjoint, aligned and listed largest first; a failed allocation changes nothing |
| `RamBlocks.RamList.Free` | exec.c:2454-2472 | The block goes, the list keeps its properties, and the most recently used block is forgotten |
| `RamBlocks.HoldsIsRange` | exec.c:1256-1292 | The unsigned comparison is the range test |
| `RamBlocks.RamList.GetBlock` | exec.c:1256-1292 | The block found, with or without a hit in the most recently used one, is the only one of the list that holds the address |
| `DirtyMemory.ConservedMark` | exec.c:1363-1411 | Marks made by other CPUs meanwhile are kept |
| `DirtyMemory.ConservedTake` | exec.c:1363-1411 | Taking out bits conserves every mark: one from before is taken, one made meanwhile is taken or still there |
| `DirtyMemory.Undisturbed` | exec.c:1363-1411 | With nobody else marking, what is taken is what was there, the window is clean and the rest untouched |
| `DirtyMemory.DirtyBitmap.CopyAndClear` | util/bitmap.c:290-299 | Word by word, against marks by others between any two words |
| `DirtyMemory.DirtyBitmap.TestAndClear` | util/bitmap.c:243-288 | First, whole and last words together clear exactly the range, and report whether a cleared bit was set |
| `DirtyMemory.DirtyBitmap.ClearWords` | util/bitmap.c:264-274 | Words seen to be zero may be left alone |
| `DirtyMemory.DirtyBitmap.TestAndClearDirty` | exec.c:1315-1361 | Across blocks, exactly the pages of the range are cleared and no mark is lost |
| `DirtyMemory.DirtyBitmap.SnapshotAndClear` | exec.c:1363-1411 | Across blocks, exactly the aligned window is moved into the snapshot, with every page that was dirty before, and no mark is lost; the alignment assertions hold in every round |
| `DirtyMemory.SnapshotCovers` | exec.c:1363-1380 | The snapshot fills its buffer exactly |
| `DirtyMemory.SnapshotAnswers` | exec.c:1413-1432 | Whatever is marked meanwhile, a question about any part of the window is answered by yes if a page there was dirty before, and only if one was or has been marked |
| `DirtyMemory.DirtyBitmap.SnapshotGetDirty` | exec.c:1413-1432 | True exactly if some page of the range is marked in the snapshot |
| `DirtyMemory.EmptyQuestion` | exec.c:1413-1432 | An empty question is answered by true if and only if it starts inside a page and that page is marked |
| `Bounce.KeepsHolding` | exec.c:3541-3602 | in_use says whether somebody holds the buffer, one at most, and bounce.buffer is that caller's |
| `Bounce.KeepsLocks` | exec.c:3401-3449 | Exactly the thread inside a locked section has the lock |
| `Bounce.KeepsAccounted` | exec.c:3384-3442 | Adding, scheduling and removing a client each keep the balance |
| `Bounce.KeepsNoneForgotten` | exec.c:3390-3449 | A waiting list that is not empty is looked at again by somebody |
| `Bounce.RunKeeps` | exec.c:3384-3602 | The invariant holds in every state of every run of any number of threads |
| `Bounce.OneHolder` | exec.c:3541-3602 | At most one caller holds the bounce buffer |
| `Bounce.WaitersAreRemembered` | exec.c:3390-3449 | With the lock free, a list that is not empty means that the buffer is in use or some unmap has yet to notify |
| `Bounce.ClientsAreAccountedFor` | exec.c:3384-3449 | Every client registered has been scheduled, was taken off, or is on the list |
| `Bounce.UnmapDrains` | exec.c:3575-3602 | The unmap, on any thread, schedules everybody who waits and leaves the buffer and the lock free |
| `Bounce.MapTakes` | exec.c:3541-3560 | A map takes a free buffer by its own steps and changes nothing if it is in use |
| `Bounce.RegisterWaits` | exec.c:3401-3412 | Registering while the buffer is in use puts the client on the list within the call |
| `Bounce.UnregisterRemoves` | exec.c:3430-3442 | Unregistering takes the client off the list within the call, exactly if it is there, and schedules nobody |
| `Bounce.NotifyDrains` | exec.c:3444-3449 | An unmap that has yet to notify schedules everybody on the list, by its own steps alone |
| `Bounce.FreeBufferNotifies` | exec.c:3401-3412 | Registering while the buffer is free schedules the client within the call |
| `GdbPackets.NeverOverruns` | gdbstub.c:2811-2956 | On any stream of bytes at all the line index stays at most 4095 |
| `GdbPackets.OneByte` | gdbstub.c:2853-2888 | An escaped byte comes out as the byte it stands for |
| `GdbPackets.WholeLine` | gdbstub.c:2853-2888 | So does an escaped payload, and the running checksum is that of the bytes sent |
| `GdbPackets.TooLong` | gdbstub.c:2865-2881 | A payload of 4096 bytes or more is dropped without an answer, and its rest ignored |
| `GdbPackets.RunLength` | gdbstub.c:2889-2918 | A run-length sequence stands for so many more copies of the byte before it |
| `GdbPackets.WrongChecksum` | gdbstub.c:2930-2951 | A packet with another checksum is refused and not handed on |
| `GdbPackets.Retransmits` | gdbstub.c:2815-2834 | While an answer is awaited, every refusal has the last packet sent once more, and an acknowledgement ends the waiting |
| `GdbPackets.RightChecksum` | gdbstub.c:2919-2951 | A packet with its checksum is acknowledged and handed on, whatever the case of the digits |
| `GdbPackets.AnyCase` | gdbstub.c:549-568 | Digits stand for their value in upper and lower case |
| `GdbPackets.BadRunLength` | gdbstub.c:2889-2918 | A run length out of range or of nothing is dropped and the line goes on; one that does not fit ends the packet without an answer |
| `GdbPackets.BadEnd` | gdbstub.c:2853-2936 | An end of packet without two digits is dropped and the line goes on; it ends the packet also after an escape |
| `GdbPackets.Resynchronizes` | gdbstub.c:2842-2954 | From anywhere in a packet, two ends of packets bring the reader back to where the next packet is read |
| `GdbPackets.Interrupts` | gdbstub.c:2815-2838 | Any byte that is not consumed by waiting stops a running machine and does nothing else but end the waiting |
| `GdbPackets.InterruptThenPacket` | gdbstub.c:2811-2956 | The packet after an interrupt is delivered and acknowledged |
| `GdbPackets.IgnoresWhileWaiting` | gdbstub.c:2815-2834 | While an answer is awaited, other bytes are ignored |
| `GdbPackets.RoundTrip` | gdbstub.c:2811-2956 | Framing and reading back delivers the payload and acknowledges it if and only if it has at most 4095 bytes; an awaited answer is given up |
| `GdbPackets.SignedSumIsSum` | gdbstub.c:641-647 | Adding the bytes as signed characters gives the same checksum |
| `GdbPackets.GdbServer.ReadByte` | gdbstub.c:2811-2956 | The reader in its buffer does what the reader on sequences does; the line is terminated before it is handed on |
| `GdbPackets.GdbServer.ParseByte` | gdbstub.c:2842-2954 | The same for the switch over states |
| `GdbPackets.GdbServer.RepeatLast` | gdbstub.c:2900-2916 | The same for a run-length count |
| `GdbPackets.GdbServer.Memtox` | gdbstub.c:680-696 | Appends the payload with the four special bytes escaped |
| `GdbPackets.GdbServer.PutPacketBinary` | gdbstub.c:626-664 | Sends the frame of the bytes and remembers it for retransmission |
| `Icount.Deadline` | cpus.c:1308-1337 | The least of INT32_MAX and the timers that are set |
| `Icount.Correction` | cpus.c:385-399 | The rate is lowered only ahead and raised only behind, exactly if the drift exceeds the wobble and the range allows |
| `Icount.BudgetReachesDeadline` | cpus.c:423-427 | A full budget takes the clock to the deadline and past it by less than one instruction |
| `Icount.BudgetIsLeast` | cpus.c:423-427 | No smaller budget does |
| `Icount.TimersState.Prepare` | cpus.c:1354-1373 | The counters start with exactly the budget, and the two assertions hold |
| `Icount.TimersState.Update` | cpus.c:174-206 | Afterwards qemu_icount is the number of instructions executed, however often it is called |
| `Icount.TimersState.Execute` | cpus.c:170-178 | Executed instructions leave the decrementer and nothing else |
| `Icount.TimersState.Refill` | accel/tcg/cpu-exec.c:632-639 | The count is right and no instruction of the budget is lost or gained |
| `Icount.TimersState.GetIcount` | cpus.c:208-229 | On the vCPU thread the reading is the exact time, elsewhere that of the last update |
| `Icount.TimersState.Process` | cpus.c:1375-1390 | After the slice every executed instruction is in qemu_icount exactly once |
| `Icount.TimersState.Adjust` | cpus.c:365-406 | The shift stays within 0 to 10 and moves one step in the right direction at most; the clock read outside the vCPU does not change; what the vCPU reads does not change if and only if all it executed is counted, the machine is stopped or the drift asks for no correction |
| `Icount.ReadingJumps` | cpus.c:365-406 | A concrete state in which an adjustment in a slice makes the reading of the vCPU jump |
| `Icount.TimersState.Slice` | cpus.c:1354-1390 | In every slice with any readings on any thread, refills and adjustments of the rate: no more than the budget is executed, every instruction is counted once, every reading lies between the clock before and after the slice, readings never decrease, and all is as on a machine that simply counts what it has done |
| `Icount.SpendsBudget` | cpus.c:1354-1390 | A slice can execute its whole budget |
| `Icount.ReadsTheTime` | cpus.c:208-229 | The vCPU reads the time of what it has done, others that of what has been counted |
| `Icount.TimersState.Session` | cpus.c:365-427 | Over any sequence of slices, with adjustments in and between them, the clock never runs backwards and every instruction is counted once |
| `PortIo.Find` | ioport.c:155-169 | The first entry that matches offset, size and direction |
| `PortIo.FindPortio` | ioport.c:155-169 | The loop finds it |
| `PortIo.PortioList.AddOne` | ioport.c:221-251 | The region holds the entries in order, relative to its start, and knows its absolute base |
| `PortIo.PortioList.Add` | ioport.c:253-288 | The table is cut into parts in order, at its holes and nowhere else; every entry lies inside its region; regions are disjoint with a hole between them |
| `PortIo.FindInRegion` | ioport.c:155-169 | Inside a region the same entry is found as by a search of the whole table |
| `PortIo.NoRegionNoEntry` | ioport.c:253-288 | Outside all regions the table has no entry |
| `PortIo.Access` | ioport.c:171-211 | The calls of a read or write, with the fallback of two bytes to one-byte entries |
| `PortIo.WhoIsCalled` | ioport.c:171-211 | Which entries are called on which ports, in terms of which entries match: the first for the whole access; else, for two bytes, the first for one byte, on both ports if it covers both |
| `PortIo.AccessInRegion` | ioport.c:171-211 | An access through its region calls the same handlers on the same absolute ports as on the uncut table |

## Left out

- Transactions.Transaction.OpenOverlay: a new image comes without its file child, which the source opens and deletes with it.
- Transactions.Transaction.AbortAction: the return to the former AioContext, which is asserted to succeed, is not modelled.
- Transactions.Undo: as for AbortAction; taking permissions away from the overlay's old backing edge is taken to succeed, as the source demands with `&error_abort`.
- Transactions.Transaction.Run: only external snapshot actions; the other kinds of action, job transactions and the reopening as read-only at commit are not modelled.
- BlockGraphs.BlockGraph.ReplaceNode: the order of the parent and child lists is not modelled, nor are drain counters, op blockers and inherited options; the permissions after the move are in BlockPerm only.
- BlockGraphs.BlockGraph.Open: only the node itself, without the file child that opening an image attaches.
- BlockGraphs.BlockGraph.Append: the new node has no backing node yet, as in the calls of blockdev.c and the block jobs; a granted edge that would close a cycle, on which the source does not return, is the caller's to exclude.
- Transactions.AppendOverlay: as for Append; LayOver models what happens on such an edge.
- BlockGraphs.BlockGraph.AttachChild: the change of AioContext on attaching is in AioContexts only.
- BlockPerm.PermGraph.CheckUpdate: one edge that is there already; the calls for a new edge and for a list of edges that move together are not modelled.
- BlockPerm.PermGraph.TrySetPerm: without monotone drivers, and for changes that ask for more and refuse less at once, the exact condition is stated on trees only; on other graphs there is one condition for success and one for failure. Reopen queues, and node callers that check several edges before committing, are not modelled.
- Dispatch.AddressSpaceDispatch.Translate: IOMMU translation above it is not modelled.
- Dispatch.AddressSpaceDispatch.Add: page sizes from 2 bytes to 64 KiB; running out of section numbers is a refusal where the source asserts.
- Exclusive.RunKeeps: the set of CPUs is fixed; work queued on a CPU is not modelled.
- GdbPackets.GdbServer.ReadByte: what the packet handler does is not modelled; line_sum does not overflow; the inactive state, on which the source aborts, stays as it is.
- GdbPackets.GdbServer.PutPacketBinary: the user-mode loop that waits for an acknowledgement is not modelled.
- Icount.TimersState.Session: clock warps between slices are not modelled.
- Icount.TimersState.GetIcount: sequence locks are not modelled; replay and clock warping, which may turn the clock back in adaptive mode, are left out.
- RamBlocks.RamList.Add: extending the dirty bitmap, Xen and the host allocation beyond its success or failure are not modelled.
- DirtyMemory.DirtyBitmap.SnapshotAndClear: resetting TLB entries and notifying listeners are not modelled.
- Bounce.RunKeeps: memory with direct access and the data copied through the buffer are not modelled.
- PortIo.PortioList.Add: 32-bit overflow of port offsets is not modelled; the table is sorted and not empty, as the source asserts or relies on.
- PortIo.Access: the value put together from two one-byte reads is not modelled, only the calls.
- Memory order weaker than sequential consistency, and reclamation by RCU.
- Hosts and accelerators: KVM, Xen, HAX, HVF and WHPX, files, sockets, signals and threads.
- Rollback in bdrv_reopen_multiple, bdrv_drop_intermediate and bdrv_co_invalidate_cache, where a failed check is not followed by an abort for the same node.
- Rollback of bitmap actions in transactions, whose aborts are not exact inverses.
- Disassembly, device trees, option dictionaries, QMP plumbing, balloon, boot order, DMA helpers and tracing, which would add only easy members or foreign libraries.
