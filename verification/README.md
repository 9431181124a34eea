# Multi2Sim: interconnect and memory system

A Dafny model of the parts of the Multi2Sim simulator that decide whether a simulation is right:
the interconnection network (`src/network`), the directory coherence protocol and the simulated
memory (`src/mem-system`). What the original changes in place is a class here, with its loops and
linked lists; each of its methods is proved against a specification function or predicate, and the
lemmas about those functions hold for every configuration, every state and every run.

**Network.** `Topology`, `Routes`, `RoutingTable` and `Dependencies` are `routing-table.c`: the
in-place Floyd-Warshall relaxation with the table's dimension as infinity, the chase for the first
hop, and the colour-and-parent search for cycles of buffers; `RouteCycles` says what cycles mean for
routes and where detection fails. `NetState` says what each handler of
`message.c`, `buffer.c`, `node.c` and `network.c` does to a state; `NetInvariant`,
`NetPrimitives`, `NetHandlers` and `NetRuns` show that every step keeps the invariant; `NetSim`
holds the objects that the handlers update. A run is any sequence of steps: a client sends, an
event of the current cycle is handled (in any order within the cycle), a receiver takes an
announced message, or the clock moves once nothing is left in the cycle. On top of that:
deadlock freedom (`NetProgress`), order and length of the way (`NetOrder`), accounting
(`NetAccounting`), bounded waiting at the crossbar (`NetArbiter`), exact grants and delays (`NetGrants`), a bound on the events of one
cycle (`NetCycle`), and a bound on the cycles until every message has been delivered (`NetTiming`,
`NetDrain`). `NetBuild` joins both halves.

**Coherence.** Any number of caches above one memory module with a directory. `Coherence` splits
each transaction of `nmoesi-protocol.c` where the original releases control: lock, request at the
directory, forwarding by the owner, each invalidation and each reply, completion, arrival of the
reply. `CoherenceInvariant`, `CoherenceSteps` and `CoherenceRuns` prove what holds for one block;
`CoherenceTable` says what each step does to holders, locks, requests and data;
`CoherenceSystem` lifts it to many blocks that compete for the ways of caches and directory;
`CoherenceSim` and `Directory` are the objects, with the sharer bitmap and the loops over it.

**Memory.** `PagedMemory` (hash lists with move-to-front over a flat image), `FreeSpace`,
`SpecMemory` (the speculative overlay), `Mmu`, `CacheSet` and `Recency` (the way list and
replacement), `Modules` and `ModulePasses` (the checks and markings of the module graph).

## Findings

- Cycle detection overlooks a buffer that depends on itself when the search starts at it: the
  vertex is then its own parent, and the test on the parent skips it. `Dependencies.Detected` is
  what the search finds, exactly. Detection is exact for all tables of a network if and only if no
  link leads from a node to itself (`RouteCycles.ExactWithoutSelfLinks`): for every such link
  `RouteCycles.EverySelfLinkOverlooked` gives a table whose cycle is missed, and
  `RouteCycles.SelfLinkOverlooked` a network where it is missed in the table of shortest routes.
  `net_add_link` does not reject such links; they also make the cost from a node to itself 1.
- A store upgrade from state O gets a reply of block size although memory is out of date
  (`src/mem-system/nmoesi-protocol.c:3391-3463` sends the block whenever no peer has sent it).
  Caches that keep their own copy are not affected. If a cache installed the block of the reply,
  it would lose words: `CoherenceRuns.StaleReply` reaches such a state, and
  `CoherenceRuns.DataIsLatestExactly` gives the exact condition on the parameters. The simulator
  moves no data, so both readings are covered by the parameter `install`.
- Physical frames are kept in 32 bits. Once more pages are in use than fit, the first one too many
  shares the frame of page 0 (`Mmu.FramesWrap`).
- `mem_map_space` from address 0 answers -1 at once, and `mem_map_space_down` never returns a run
  that contains page 0.
- `has_cycle` is never cleared, so a route update that removes the only cycle leaves it set
  (`RouteCycles.UpdateRemovesCycle` has the two tables, `RouteUpdate` says what happens to the
  flag).

## Model

| member | source | states |
|---|---|---|
| `RoutingTables.RoutingTable.Initiate` | src/network/routing-table.c:192-242 | the table becomes the one-hop table of the links, each entry with the newest of parallel links; its costs are realised by walks and bounded by every walk without interior nodes |
| `RoutingTables.RoutingTable.RelaxEntry` | src/network/routing-table.c:258-287 | one in-place relaxation keeps every cost the length of some walk and every intermediate node strictly nearer, loses no bound gained before, makes the entry at most the length of every walk whose interior lies within the nodes up to `k`, and takes the value that the textbook recurrence has for it |
| `RoutingTables.RoutingTable.RelaxThrough` | src/network/routing-table.c:258-287 | one phase moves the bound from walks through nodes below `k` to walks through nodes below `k + 1`, for all pairs |
| `RoutingTables.RoutingTable.RelaxedIsExact` | src/network/routing-table.c:214-287 | after all phases the cost is the distance, and equals the dimension exactly when no walk exists: the dimension is a correct infinity |
| `RoutingTables.RoutingTable.FirstHop` | src/network/routing-table.c:303-320 | chasing intermediate nodes terminates at a direct neighbour that is one link nearer to the destination |
| `RoutingTables.RoutingTable.StoreOutputs` | src/network/routing-table.c:289-334 | every entry with a route gets an output buffer of its own node whose link leads one link nearer, and costs stay distances |
| `RoutingTables.RoutingTable.StoreNextHops` | src/network/routing-table.c:336-357 | the finished table is a table of shortest routes: cost is the distance, next node the end of the link, and no route exactly where no walk exists |
| `RoutingTables.RoutingTable.Visit` | src/network/routing-table.c:45-106 | the visit terminates; if it raises the flag there is a cycle of the kind that the search detects, and if not it leaves the vertex finished and the path from the root as it was |
| `RoutingTables.RoutingTable.CycleDetection` | src/network/routing-table.c:116-159 | the flag ends up set if and only if it was set before or the search graph has a detectable cycle; without self-links and with the flag clear, if and only if the graph has a cycle |
| `RoutingTables.RoutingTable.FloydWarshall` | src/network/routing-table.c:245-361 | from the initial table to shortest routes for all pairs, among equal ones those that the textbook recurrence and the chase choose, over the oldest of parallel links; with the flag set exactly by what is detectable in the final table |
| `RoutingTables.RoutingTable.RouteUpdate` | src/network/routing-table.c:448-486 | it succeeds exactly when the next node is a direct neighbour, changes one entry to the newest link there and keeps its cost, keeps the table consistent with the links, and detects cycles of the new table |
| `Routes.OwnRowStays` | src/network/routing-table.c:258-287 | a step of the recurrence leaves its own row and column as they are, so that computing in place gives the recurrence that reads the table of the step before |
| `Routes.ShortestTableDelivers` | src/network/routing-table.c:336-357 | following the entries from `u` reaches `v` after exactly as many links as the shortest walk has |
| `Routes.HopsIsWalk` | src/network/routing-table.c:336-357 | conversely, whatever the entries lead to is reached by a walk of that length |
| `Dependencies.DetectionIsExact` | src/network/routing-table.c:116-159 | without self-links, what the search detects is exactly the existence of a cycle among output buffers |
| `Dependencies.UndetectedCycles` | src/network/routing-table.c:78-99 | a graph has a cycle exactly when one is detected or a vertex depends on itself |
| `RouteCycles.SelfLinkOverlooked` | src/network/routing-table.c:78-99 | a well-formed network and its shortest table, cyclic, in which nothing is detected |
| `RouteCycles.EverySelfLinkOverlooked` | src/network/routing-table.c:78-99 | in every network with a link from a node to itself there is a table with a cycle that is not detected |
| `RouteCycles.ExactWithoutSelfLinks` | src/network/routing-table.c:116-159 | detection is exact for all tables of a network if and only if no link leads from a node to itself |
| `RouteCycles.RoutesEnd` | src/network/routing-table.c:448-486 | without self-links, in any table in which nothing is detected, also an updated one, following the entries arrives or meets an entry without a buffer within as many links as there are buffers |
| `RouteCycles.UpdateRemovesCycle` | src/network/routing-table.c:448-486 | a table with a detected cycle that the update of one entry, over an existing link, turns into a table without cycles |
| `Dependencies.DetectedIsCyclic` | src/network/routing-table.c:45-106 | soundness: whatever is detected is a cycle |
| `Dependencies.GrayClosesCycle` | src/network/routing-table.c:78-99 | a gray vertex reached under another parent closes a cycle, and the same parent happens only at the root |
| `Dependencies.AllFinished` | src/network/routing-table.c:140-155 | completeness: when all vertices have turned black without the flag there was nothing to detect |
| `NetBuild.NoDetour` | src/network/routing-table.c:336-357 | a shortest route never passes through a node that hangs on one other node |
| `NetBuild.LeavesNeverForward` | src/network/message.c:340-350 | with end nodes that hang on one node each, only switches forward messages, so the handler never finds an end node between source and destination |
| `NetBuild.Build` | src/mem-system/config.c:1290-1350 | for networks whose end nodes hang on one node each, as those created here: routes are shortest, the network satisfies its invariant, and the flag is set exactly when the routes have a cycle |
| `NetRuns.RunsAreSafe` | src/network/message.c:94-392 | in every state of every run the invariant holds and every handler that may be called next finds what it asserts or would panic about |
| `NetRuns.ActionKeeps` | src/network/message.c:94-392 | every step the environment may choose is safe and keeps the invariant: each message in exactly one buffer, counts exact and within capacity, routes followed, one continuation each |
| `NetRuns.HandlerKeeps` | src/network/message.c:94-392 | each of the four message events and the retry leaves the invariant intact and exactly one continuation for its message, or none once it has arrived |
| `NetRuns.TrySendKeeps` | src/network/network.c:614-727 | a send is accepted if and only if the output buffer is free to be written and has room, and then the new message has exactly one continuation; otherwise the sender has exactly one more and nothing else changes |
| `NetRuns.SendOutcome` | src/network/network.c:614-701 | what a send leaves: the message at the tail of a buffer busy for this cycle and an event in the next; or a retry in the first cycle in which the buffer is free; or the sender at the end of the wakeup list |
| `NetHandlers.OutputStepKeeps` | src/network/message.c:150-236 | the output-buffer handler waits, reschedules or transfers, and in each case puts the continuation back exactly once in an allowed place |
| `NetHandlers.InputStepKeeps` | src/network/message.c:238-361 | the same for the input-buffer handler, with the route entry present whenever the message has not arrived |
| `NetHandlers.CrossStepKeeps` | src/network/message.c:262-361 | the same for the crossing of a switch, whether blocked, full, not granted or granted |
| `NetPrimitives.DepartKeeps` | src/network/buffer.c:118-190 | extracting the head and waking all waiters keeps the invariant for everybody else, with the message in hand |
| `NetPrimitives.DepartPending` | src/network/buffer.c:175-190 | when the head leaves, waking moves continuations from the wakeup list to the event queue and loses or duplicates none |
| `NetPrimitives.ArriveKeeps` | src/network/buffer.c:91-115 | inserting a message that fits at the tail keeps the invariant |
| `NetPrimitives.RelocateKeeps` | src/network/message.c:217-223 | moving the head of one buffer to the tail of the next keeps the invariant and all continuations |
| `NetProgress.NeverStalls` | src/network/message.c:150-361 | if cycle detection finds nothing in the table, in every state of every run with a message in flight an event is scheduled for a message or a delivered message can be taken |
| `NetProgress.StalledIsCyclic` | src/network/message.c:150-361 | a reachable state that holds a message and in which nothing will happen proves a cycle in the routing table |
| `NetProgress.HeadWaits` | src/network/message.c:150-361 | in a state where nothing will happen the head of every non-empty buffer waits for a non-empty buffer that its own depends on |
| `NetProgress.NoLostWakeup` | src/network/buffer.c:118-190 | in every state of every run a message in flight that is not yet announced has exactly one continuation; an event lies after its busy cycle, and a wakeup entry is on its own buffer while it is not the head or on the next while it does not fit |
| `NetProgress.SendersAreWoken` | src/network/network.c:614-652 | a refused sender has its retry scheduled, or waits while something will happen to a message |
| `NetDrain.NetworkDrains` | src/network/message.c:94-392 | if cycle detection finds nothing, nobody sends any more and receivers take what is announced to them, then from the cycle by which everything busy is free, plus for each message the cycles that it needs at the bandwidth of each link and switch that is left and one for its delivery, plus one, the network is empty and every message ever accepted has been delivered |
| `NetDrain.GrantedHasEvent` | src/network/node.c:205-237 | the head that the scheduler grants has an event, so that no grant goes to a message that waits |
| `NetDrain.QuietStep` | src/network/node.c:185-237 | in a cycle that begins with everything free, handling an event moves a message, or every decision made so far is for a message whose event is still to come in this cycle |
| `NetDrain.QuietEnd` | src/network/message.c:150-361 | such a cycle cannot end before a message has moved or left |
| `NetTiming.ActionOutcome` | src/network/message.c:150-361 | an event or a delivery makes nothing busy, or moves one message and makes its resources busy for exactly the latency of the transfer, or lets one leave; and every event falls due at the latest one cycle after everything is free |
| `NetCycle.HandlingRanks` | src/lib/esim/esim.c:428-458 | handling any event of the current cycle strictly lowers a rank of the state |
| `NetCycle.CycleIsBounded` | src/lib/esim/esim.c:428-458 | whatever the order of the heap, a run handles at most as many events in a row as the rank of the state it starts from, so a cycle never lasts for ever |
| `NetOrder.DeliveryOrder` | src/network/network.c:731-753 | messages with the same source and destination are delivered in the order they were sent, none twice, each at its destination over exactly the links of its route |
| `NetOrder.CrossesCostLinks` | src/network/message.c:217-223 | with a shortest table a delivered message crossed exactly as many links as the distance, the cost of its entry |
| `NetOrder.RunsDeliver` | src/network/message.c:94-392 | in every state of every run all flows are in order and every identifier ever issued is in flight or delivered, once |
| `NetOrder.WasSent` | src/network/network.c:676-701 | every message in flight or delivered goes back to one accepted send with the same source, destination, size and receiver |
| `NetOrder.ArrivedIsOldest` | src/network/network.c:731-753 | a message at its destination is the oldest of its flow |
| `NetAccounting.RunsCount` | src/network/buffer.c:194-207 | in every state of every run transferred bytes are at most bandwidth times busy cycles, busy cycles at most the busy cycle; the occupancy accumulator is the exact sum of the count over the cycles, at most capacity times elapsed cycles; counts are exact |
| `NetAccounting.TransfersAreDisjoint` | src/network/message.c:183-232 | two transfers over the same link occupy disjoint intervals of cycles |
| `NetAccounting.ReadsAreDisjoint` | src/network/message.c:183-232 | two reads from the same buffer occupy disjoint intervals |
| `NetAccounting.WritesAreDisjoint` | src/network/message.c:183-232 | two writes to the same buffer occupy disjoint intervals |
| `NetAccounting.LatencyIsLeast` | src/network/message.c:206-214 | the latency is at least one cycle, has room for every byte at the bandwidth, and one cycle less would not |
| `NetTiming.CrossingTakes` | src/network/message.c:206-236 | in every run, whenever a message moves to the next buffer, it, the two ports and the link were free, and all are busy for the least number of cycles that its bytes need at the bandwidth of the link or of the crossbar; the link counts exactly these cycles and bytes |
| `NetTiming.CrossingsAreDisjoint` | src/network/message.c:206-236 | in every run, messages that leave the same buffer, or enter the same buffer, do so one after the other, never in the same cycle |
| `NetArbiter.DecisionIsExact` | src/network/node.c:164-238 | the scheduler answers null exactly when no input buffer is eligible, and whatever it grants is |
| `NetArbiter.SearchFindsNearest` | src/network/node.c:205-237 | the search grants the eligible input nearest after the last one granted, going round |
| `NetArbiter.PassedOver` | src/network/node.c:205-237 | a decision that passes over an eligible input brings it strictly nearer |
| `NetArbiter.GrantedWithinRound` | src/network/node.c:185-237 | over any run, an input eligible at every decision is granted within as many decisions as the node has input buffers |
| `NetGrants.GrantsAreExact` | src/network/node.c:205-237 | in every run, a decision grants somebody if and only if the output buffer can be written and some input buffer of the node has a head that has arrived, can be read, goes there and fits; whoever is granted is such a one and has its event in this very cycle |
| `NetGrants.RunsAreOnTime` | src/network/message.c:150-361 | in every state of every run no event of a message is for later than the first cycle in which something that the message needs is free, or the cycle after a decision |
| `NetGrants.DelaysAreExact` | src/network/message.c:150-361 | whenever an event finds its message held up by a port, a link or a decision, the message is tried again in the first cycle after it, not earlier and not later |
| `NetOrder.ReceiptIsExact` | src/network/message.c:363-386 | a message at its destination is announced if its sender asked for that, and otherwise delivered at once |
| `NetOrder.OnlyAskedAreAnnounced` | src/network/message.c:363-386 | in every state of every run only messages sent with that request await their receiver |
| `NetSim.Simulator.ScheduleEvent` | src/lib/esim/esim.c:344-377 | one more event, that many cycles ahead |
| `NetSim.NetBuffer.Insert` | src/network/buffer.c:91-115 | the buffer becomes the specified one: tail, count and occupancy |
| `NetSim.NetBuffer.Extract` | src/network/buffer.c:118-149 | the head leaves, count and occupancy follow, and every waiter is scheduled for this cycle, oldest first |
| `NetSim.NetBuffer.Wait` | src/network/buffer.c:153-171 | the continuation is appended to the wakeup list and nothing else changes |
| `NetSim.NetBuffer.Wakeup` | src/network/buffer.c:175-190 | the loop over the list schedules all of it and empties it |
| `NetSim.NetBuffer.UpdateOccupancy` | src/network/buffer.c:194-207 | the accumulator grows by the old count times the cycles since |
| `NetSim.Network.constructor` | src/network/node.c:134-157 | the network without traffic satisfies the invariant |
| `NetSim.Network.NodeSchedule` | src/network/node.c:164-238 | at most one decision per cycle, remembered, as specified |
| `NetSim.Network.SearchInputs` | src/network/node.c:205-237 | the circular loop over input buffers computes the specified search |
| `NetSim.Network.HandleEvent` | src/network/message.c:94-392 | the handler on objects does the specified step and keeps the invariant |
| `NetSim.Network.OutputBufferEvent` | src/network/message.c:150-236 | all branches of the output-buffer event, each as specified |
| `NetSim.Network.InputBufferEvent` | src/network/message.c:238-361 | all branches of the input-buffer event up to the switch |
| `NetSim.Network.CrossSwitch` | src/network/message.c:262-315 | blocked by the output buffer, by its room, or on to the scheduler |
| `NetSim.Network.AskScheduler` | src/network/message.c:308-361 | the message crosses when the scheduler grants its buffer, and otherwise tries in the next cycle |
| `NetSim.Network.ReceiveEvent` | src/network/message.c:363-386 | the message is taken at once, or announced to its receiver |
| `NetSim.Network.Take` | src/network/network.c:731-753 | an announced message can always be taken, and the invariant holds after |
| `NetSim.Network.CanSend` | src/network/network.c:614-652 | yes if and only if the output buffer is free to be written and has room; otherwise the state is that of a refused send, with the retry scheduled or waiting |
| `NetSim.Network.SendMessage` | src/network/network.c:676-701 | a new identifier, the message at the tail of its output buffer, and its event in the next cycle |
| `NetSim.Network.TrySendMessage` | src/network/network.c:717-727 | the message is sent if and only if the output buffer is free to be written and has room, with the state of a send as specified |
| `NetSim.Network.ProcessEvents` | src/lib/esim/esim.c:428-458 | processing one cycle terminates; it handles events one after the other until none is left and then moves the clock, each a step of the run model, with the invariant intact |
| `CoherenceRuns.SingleWriter` | src/mem-system/nmoesi-protocol.c:2606-2869 | in every reachable state, beside an accessible copy in M or E there is no other, and beside one in O only copies in S |
| `CoherenceRuns.DirectoryIsExact` | src/mem-system/directory.c:146-200 | in every reachable state with the entry unlocked, the sharers are exactly the caches that hold the block and the owner exactly the one in M, O or E |
| `CoherenceRuns.HandlersAreSafe` | src/mem-system/nmoesi-protocol.c:2606-3549 | in every reachable state no assertion of the next handler can fail |
| `CoherenceRuns.DataIsLatest` | src/mem-system/nmoesi-protocol.c:2606-3549 | under the parameter condition of the next row, in every reachable state every valid copy is what the last store left, and so is memory unless a cache is in M or O or its data is on the way back |
| `CoherenceRuns.DataIsLatestExactly` | src/mem-system/nmoesi-protocol.c:3391-3463 | the data is right in all reachable states if and only if a cache keeps its own copy on an upgrade, or a block is one word, or there is at most one cache |
| `CoherenceRuns.StaleReply` | src/mem-system/nmoesi-protocol.c:3391-3463 | a reachable state in which an upgrade from O installed a block from memory and lost a store |
| `CoherenceRuns.ServedRunIsLatest` | src/mem-system/nmoesi-protocol.c:3391-3463 | whatever the parameters, after every run in which each write request is completed with a reply that serves, the data is right: the requester keeps its copy, overwrites the whole block, or is not in O |
| `CoherenceRuns.LoadsReturnLatest` | src/mem-system/nmoesi-protocol.c:541-762 | under the same parameter condition, whatever a load hit or a completed load miss returns is what the last store left |
| `CoherenceRuns.TwinRun` | src/mem-system/nmoesi-protocol.c:2606-3549 | what is in the blocks never decides what happens: every run has a twin with the same control states |
| `CoherenceTable.StepsFollowTable` | src/mem-system/nmoesi-protocol.c:541-3770 | in every reachable state every step does to the holders, the locks, the requests under way and the entry what the table of the protocol says, and with faithful parameters to memory and the latest data |
| `CoherenceTable.HoldsExactly` | src/mem-system/nmoesi-protocol.c:2782-3136 | who holds the block how: a reader is in E if nobody else holds it and in S otherwise, an owner that answers a reader in O if it was in M or O and in S if it was in E, a writer in M, and whoever gives it up or is evicted not at all; nobody else changes |
| `CoherenceTable.AsksExactly` | src/mem-system/nmoesi-protocol.c:2606-3389 | a read asks exactly the other cache that owns the block, a write exactly the other holders, an eviction of the entry all holders; a reply to them carries data exactly from M or O, and a reply to a reader exactly if no peer has sent the block |
| `CoherenceTable.LocksExactly` | src/mem-system/nmoesi-protocol.c:541-3770 | which steps lock and unlock a line and the entry, and that no other step does |
| `CoherenceTable.EntryExactly` | src/mem-system/nmoesi-protocol.c:1872-1925 | the state of memory for the block: E from the first request, M once a modified copy was evicted, E after a write, none once the entry is evicted |
| `CoherenceTable.DataExactly` | src/mem-system/nmoesi-protocol.c:1872-1925 | the latest data changes by one word at each completed store only; memory takes it exactly from an evicted holder in M or O or from a reply with data |
| `CoherenceTable.RefusedIsUndone` | src/mem-system/nmoesi-protocol.c:2439-2604 | a load, store or eviction that the directory refuses leaves the state exactly as before |
| `CoherenceTable.ReadsOnlyStayClean` | src/mem-system/nmoesi-protocol.c:2782-2869 | in every run without stores no cache ever holds the block in M or O, and memory never changes |
| `CoherenceSteps.StepKeeps` | src/mem-system/nmoesi-protocol.c:541-3770 | each of the 22 steps is safe and keeps the invariant, a completed write request under the guard that its reply serves |
| `CoherenceSteps.ReadLockKeeps` | src/mem-system/nmoesi-protocol.c:2529-2735 | locking the entry for a read and asking the owner: an entry just allocated has no sharers or owner, the owner is another cache, and the invariant is kept |
| `CoherenceSteps.ForwardKeeps` | src/mem-system/nmoesi-protocol.c:2871-2934 | when the request reaches the owner it still holds the block in M, O or E, the requester waits for it, and sending a copy keeps the invariant |
| `CoherenceSteps.AnswerKeeps` | src/mem-system/nmoesi-protocol.c:2967-3136 | when the peer has the block the owner goes to O or S and the reply shrinks to no less than an acknowledgement, with the invariant kept |
| `CoherenceSteps.ReadFinishKeeps` | src/mem-system/nmoesi-protocol.c:2782-2869 | when a read completes the requester is waiting, the reply size is valid, and with the entry unlocked owner and sharers are again exact |
| `CoherenceSteps.WriteLockKeeps` | src/mem-system/nmoesi-protocol.c:3294-3389 | clearing all other sharers in the directory while each still holds its copy and has one request under way keeps the invariant |
| `CoherenceSteps.InvalidateKeeps` | src/mem-system/nmoesi-protocol.c:3465-3549 | a sharer asked to give up its copy still has it, and afterwards the latest data is in memory, with the requester, or in a reply under way |
| `CoherenceSteps.WriteAnswered` | src/mem-system/nmoesi-protocol.c:3391-3463 | when all replies are in, nobody else holds the block, and memory is out of date only if the requester is in O |
| `CoherenceSteps.WriteFinishKeeps` | src/mem-system/nmoesi-protocol.c:3391-3463 | under the guard that its reply serves, the write completes with one sharer, as the code asserts, in the invariant |
| `CoherenceSteps.EvictProcessKeeps` | src/mem-system/nmoesi-protocol.c:1872-1925 | an eviction finds the entry allocated and its cache among the sharers, and keeps memory and directory exact |
| `CoherenceSteps.EvictEntryKeeps` | src/mem-system/nmoesi-protocol.c:3672-3770 | the directory drops all sharers at once while their copies wait to be given up, and the invariant holds in between |
| `CoherenceSystem.BlocksAreIndependent` | src/mem-system/nmoesi-protocol.c:1422-1726 | with many blocks interleaved, each goes only through states of its own runs, and no set ever holds more than its ways |
| `CoherenceSystem.SystemIsCoherent` | src/mem-system/nmoesi-protocol.c:1422-1726 | so single writer or one owner among sharers, exact sharers and owner, and, under the parameter condition, latest data hold for every block of every run of the system |
| `CoherenceSystem.RoomIsExact` | src/mem-system/nmoesi-protocol.c:1422-1726 | a step finds the room that it needs if and only if it leaves no set with more blocks than ways |
| `CoherenceSystem.MoveFits` | src/mem-system/nmoesi-protocol.c:1422-1726 | a step that takes a new way only where one is free keeps every set within its associativity |
| `CoherenceSim.Hierarchy.Load` | src/mem-system/nmoesi-protocol.c:615-672 | hit exactly in a valid state, with the data of the last store; otherwise the miss step |
| `CoherenceSim.Hierarchy.ReadRequest` | src/mem-system/nmoesi-protocol.c:2529-2735 | refused exactly when the entry is locked |
| `CoherenceSim.Hierarchy.ForwardToPeer` | src/mem-system/nmoesi-protocol.c:2871-2934 | the forwarding step, its assertions met |
| `CoherenceSim.Hierarchy.AnswerOwner` | src/mem-system/nmoesi-protocol.c:2967-3136 | the answering step, its assertions met |
| `CoherenceSim.Hierarchy.ReadRequestFinish` | src/mem-system/nmoesi-protocol.c:2782-2869 | the completing step of a read on directory and line |
| `CoherenceSim.Hierarchy.LoadMissFinish` | src/mem-system/nmoesi-protocol.c:674-716 | the load returns what the last store left |
| `CoherenceSim.Hierarchy.Store` | src/mem-system/nmoesi-protocol.c:847-931 | hit exactly in M or E; otherwise the upgrade or miss step |
| `CoherenceSim.Hierarchy.WriteRequest` | src/mem-system/nmoesi-protocol.c:3294-3389 | refused exactly when the entry is locked; otherwise every other sharer is cleared and counted |
| `CoherenceSim.Hierarchy.InvalidateSharers` | src/mem-system/nmoesi-protocol.c:3685-3767 | the loop over the bitmap sends requests to exactly the sharers other than the excepted one, clears them, and the owner if among them, and counts them |
| `CoherenceSim.Hierarchy.GiveUpCopy` | src/mem-system/nmoesi-protocol.c:3465-3549 | the invalidating step, its assertion met |
| `CoherenceSim.Hierarchy.InvalidateReply` | src/mem-system/nmoesi-protocol.c:3672-3770 | the counter reaches zero exactly with the last reply |
| `CoherenceSim.Hierarchy.WriteRequestFinish` | src/mem-system/nmoesi-protocol.c:3391-3463 | the completing step of a write on directory and line, its assertion met; the invariant holds after it if the reply serves |
| `CoherenceSim.Hierarchy.StoreFinish` | src/mem-system/nmoesi-protocol.c:892-931 | the store writes its word and leaves the line in M |
| `CoherenceSim.Hierarchy.StartEviction` | src/mem-system/nmoesi-protocol.c:1797-1841 | a line being evicted is locked and keeps its block |
| `CoherenceSim.Hierarchy.EvictReceive` | src/mem-system/nmoesi-protocol.c:1872-1925 | refused exactly when the entry is locked; otherwise the eviction step on memory and directory |
| `CoherenceSim.Hierarchy.EvictReply` | src/mem-system/nmoesi-protocol.c:2065-2083 | the line becomes invalid and free |
| `CoherenceSim.Hierarchy.EvictDirectoryEntry` | src/mem-system/nmoesi-protocol.c:3685-3767 | the entry is locked with one request for each of its sharers |
| `CoherenceSim.Hierarchy.DirectoryEntryEvicted` | src/mem-system/nmoesi-protocol.c:1797-1841 | once all have given up, the entry is free, without sharers or owner |
| `Directory.ChangeBit` | src/mem-system/directory.c:161-200 | setting or clearing a bit changes the set of sharers by exactly that node |
| `Directory.AddressesApart` | src/mem-system/directory.c:113-119 | different set, way or sub-block means a different entry |
| `Directory.AddressInside` | src/mem-system/directory.c:113-119 | every entry lies within the directory |
| `Directory.GroupSharedOrOwned` | src/mem-system/directory.c:230-241 | the loop answers whether any sub-block of the block has a sharer or an owner |
| `Directory.DirEntry.SetOwner` | src/mem-system/directory.c:146-158 | the owner changes and the sharers do not |
| `Directory.DirEntry.SetSharer` | src/mem-system/directory.c:161-179 | the node is added, and the count stays the number of sharers |
| `Directory.DirEntry.ClearSharer` | src/mem-system/directory.c:182-200 | the node is removed, and the count stays the number of sharers |
| `Directory.DirEntry.ClearAllSharers` | src/mem-system/directory.c:203-217 | no sharers are left, and the owner stays |
| `Directory.DirEntry.IsSharer` | src/mem-system/directory.c:220-227 | yes exactly for a member of the set |
| `CacheSets.CacheSet.UpdateWaylist` | src/mem-system/cache.c:60-108 | the pointers stay a doubly linked permutation of all ways, which is the old order with the way moved to the head or the tail |
| `CacheSets.CacheSet.AccessBlock` | src/mem-system/cache.c:458-474 | under LRU the way moves to the head, under FIFO only while its block is invalid, under random replacement never; each move is recorded |
| `CacheSets.CacheSet.SetBlock` | src/mem-system/cache.c:393-410 | tag, state and prefetch mark of that way only; under FIFO a new tag moves it to the head |
| `CacheSets.CacheSet.ReplaceBlock` | src/mem-system/cache.c:531-559 | under LRU and FIFO the last way of the list is chosen and moves to the head, and no other way has gone longer without moving there; otherwise the random number decides |
| `CacheSets.VictimIsLeastRecent` | src/mem-system/cache.c:531-559 | after any sequence of moves to the head the last way is the one whose latest move is furthest back |
| `Recency.RecencyOrders` | src/mem-system/cache.c:60-108 | replaying any history by move-to-front lists each way used exactly once, by decreasing time of last use |
| `MemoryImage.WriteInPageBytes` | src/mem-system/memory.c:250-315 | a write within a page changes exactly its bytes of the flat view |
| `MemoryImage.WrittenMore` | src/mem-system/memory.c:320-337 | chunk after chunk, also across the end of the address space, adds up to one write of the flat view, permitted byte by byte: exactly the pages reached are mapped, every page keeps its permissions, and exactly a write marks those reached as modified |
| `MemoryImage.WriteThenRead` | src/mem-system/memory.c:320-337 | what was written is what is read, and may be read if it could be read before |
| `MemoryImage.PermissionsStay` | src/mem-system/memory.c:250-315 | in safe mode a write changes nothing about which bytes may be read, written or executed |
| `PagedMemory.MoveToFront` | src/mem-system/memory.c:34-61 | relinking in place takes the page out of the list and puts it in front |
| `PagedMemory.Memory.PageGet` | src/mem-system/memory.c:34-61 | finds exactly the mapped page of the address and puts it first, without changing the image |
| `PagedMemory.Memory.PageCreate` | src/mem-system/memory.c:106-130 | one more page, of zeros, with the given permissions; mapped space stays page size times pages |
| `PagedMemory.Memory.PageFree` | src/mem-system/memory.c:134-162 | exactly that page is gone, from its list and from the image |
| `PagedMemory.Memory.ReadBytes` | src/mem-system/memory.c:320-337 | succeeds exactly when every byte may be read, and returns the bytes of the flat view |
| `PagedMemory.Memory.WriteBytes` | src/mem-system/memory.c:320-337 | succeeds exactly when every byte may be written, and then changes exactly these bytes, maps exactly the pages reached, and keeps all permissions but the mark of modified pages |
| `PagedMemory.Memory.MapSpace` | src/mem-system/memory.c:409-446 | from a nonzero page address the lowest free run of that size, or -1 exactly when there is none below the end of the address space; from zero, -1 |
| `PagedMemory.Memory.MapSpaceDown` | src/mem-system/memory.c:449-484 | the highest free run ending at or below the page, above page 0, or -1 exactly when there is none |
| `PagedMemory.Memory.Clear` | src/mem-system/memory.c:396-404 | no page is left |
| `PagedMemory.Memory.Clone` | src/mem-system/memory.c:643-668 | the copy has the same pages, permissions and bytes, and the source is unchanged |
| `FreeSpace.RiseFree` | src/mem-system/memory.c:425-445 | one more free page gives the lowest free place or a longer free run |
| `FreeSpace.FallFree` | src/mem-system/memory.c:464-483 | the mirror image for the downward search |
| `SpecMemory.WriteAlignedBytes` | src/mem-system/spec-mem.c:76-116 | an accepted speculative write changes exactly its bytes, a refused one none |
| `SpecMemory.OverwriteMore` | src/mem-system/spec-mem.c:119-135 | chunk after chunk adds up to one write of which each byte is accepted or ignored with its page |
| `SpecMemory.SeesLastAccepted` | src/mem-system/spec-mem.c:119-135 | after any sequence of writes every byte is the last accepted one, else the byte of the image, and there are never more than the limit of pages |
| `SpecMemory.SpecMem.Read` | src/mem-system/spec-mem.c:119-135 | the bytes that the overlay shows; neither image nor overlay changes |
| `SpecMemory.SpecMem.Write` | src/mem-system/spec-mem.c:119-135 | accepted pages take their bytes, the others are ignored, no page is created that the write does not reach, the image does not change and is left in the mode it was in |
| `SpecMemory.SpecMem.WriteOne` | src/mem-system/spec-mem.c:76-116 | the write within one page, as specified, with the page created from the image |
| `SpecMemory.SpecMem.Clear` | src/mem-system/spec-mem.c:178-195 | every address shows the image again |
| `Mmu.TranslationIsInjective` | src/mem-system/mmu.c:253-265 | offsets are kept, and while pages fit in 32 bits different bytes of any address spaces have different physical addresses |
| `Mmu.InjectiveExactly` | src/mem-system/mmu.c:82-133 | frames are distinct if and only if the pages fit in 32 bits |
| `Mmu.FramesWrap` | src/mem-system/mmu.c:82-133 | the first page that does not fit shares the frame of page 0 |
| `Mmu.ChargesTranslatedPage` | src/mem-system/mmu.c:277-306 | the page that an access to a translated address charges is the one translation chose |
| `Mmu.Unit.GetPage` | src/mem-system/mmu.c:82-133 | the known page, or one appended with the next dense frame |
| `Mmu.Unit.Translate` | src/mem-system/mmu.c:253-265 | the translation, and all earlier translations are stable |
| `Mmu.Unit.AccessPage` | src/mem-system/mmu.c:277-306 | one counter of that page grows by one, or nothing where there is no page |
| `Modules.AcceptedPath` | src/mem-system/config.c:938-975 | in an accepted configuration along every path block sizes never decrease, a cache always has a module below it, and there are at most the maximum number of levels |
| `Modules.RejectedPath` | src/mem-system/config.c:938-975 | a rejected configuration has a path that violates this |
| `Modules.AcceptedIsAcyclic` | src/mem-system/config.c:938-975 | an accepted module graph has no cycle |
| `ModulePasses.SettledIsLongest` | src/mem-system/config.c:1550-1606 | settled levels are longest paths from the entry points, 0 exactly where none leads |
| `ModulePasses.ColoursApart` | src/mem-system/config.c:1434-1500 | a passed colour check means no module is reached from both kinds of entry points |
| `ModulePasses.Passes.CheckRoute` | src/mem-system/config.c:938-975 | the recursive check answers yes exactly for the configurations that `Modules.Accepted` describes |
| `ModulePasses.Passes.SetLevel` | src/mem-system/config.c:1550-1565 | terminates, raises levels only where the module leads, keeps every level the length of a path, and settles everything below |
| `ModulePasses.Passes.CalculateLevels` | src/mem-system/config.c:1568-1606 | the level of every module is the length of the longest path from an entry point |
| `ModulePasses.Passes.SetColor` | src/mem-system/config.c:1434-1450 | exactly what the module reaches gets the colour |
| `ModulePasses.Passes.CheckColor` | src/mem-system/config.c:1454-1473 | yes exactly when a module of the colour is reached |
| `ModulePasses.Passes.CheckDisjoint` | src/mem-system/config.c:1476-1500 | passes exactly when no module is reached from entry points of both kinds, or one of the sides is not simulated in detail |

## Left out

- Network: the heap order of events within a cycle; the proofs hold for every order.
- Network: node, network and message statistics other than link and buffer counters, message
  occupancy counts, reports, traces, and random injection of messages.
- Network: `net_can_send` without a retry event, which only reads.
- Network: configurations with links from a node to itself, messages larger than some buffer, or
  end nodes between source and destination; the last is derived from the topology
  in `NetBuild`.
- NetRuns.RunsAreSafe: the assertions inside buffer operations and the scheduler are met as
  preconditions of the methods in `NetSim`, not repeated in `Safe`.
- NetRuns.TrySendKeeps: for messages with a route that fit every buffer of the network; the original
  finds out about a later buffer or a missing entry when the message gets there, and stops.
- NetSim.Network.CanSend: the same, where the original looks at the first buffer only.
- NetSim.Network.TrySendMessage: the same.
- NetSim.Network.SendMessage: requires the free buffer with room that the original's handler would
  stop without.
- NetAccounting.RunsCount: bytes, not the counts of messages kept beside them.
- NetSim.NetBuffer.UpdateOccupancy: the accumulator in bytes, not the one in messages.
- NetSim.NetBuffer.Wait: a retry is always an event; the original's empty event is not modelled.
- NetSim.Simulator.ScheduleEvent: the schedule lock and unregistered events.
- NetSim.Network.HandleEvent: statistics of nodes and of the network.
- NetSim.Network.OutputBufferEvent: the same, and the link's count of messages.
- NetSim.Network.ReceiveEvent: the same; the receiver's event is a flag of the message.
- Coherence: sub-blocks (one per block), hierarchies of three levels, non-coherent stores,
  prefetches and stream buffers.
- Coherence: coalescing and ordering of accesses, ports, latencies and retries; a refused request
  may try again at any time, and no liveness is claimed.
- Coherence: the order of the directory lock's queue; whoever finds the entry locked tries again.
- Coherence: ways and transient tags; lookup is by block, and a line or entry is evicted before
  its way is used for another block.
- Coherence: the peer's acknowledgement is one step with the owner's forwarding; its message
  travels with the owner's answer.
- CoherenceSim.Hierarchy.ReadRequest: waiting for older writes and accesses to the same address.
- CoherenceSystem.BlocksAreIndependent: which way is chosen as victim, and its lock.
- CoherenceSystem.MoveFits: the same; a way is taken once the eviction has freed it.
- Directory: allocation of all entries of a module in one array of bytes; an entry is an object,
  and positions are covered by the address lemmas.
- Cache: lookup by set and tag; the random number is a parameter.
- PagedMemory.Memory.Clone: the heap break.
- Memory: page bytes are a sequence held by the page object, replaced as a whole; `mem_map`,
  `mem_unmap`, `mem_protect`, `mem_copy`, `mem_zero`, `mem_get_buffer` and the heap break.
- PagedMemory.Memory.PageCreate: the count of mapped space is per image, where the original keeps
  one count, and its maximum, for all images.
- Speculative memory and MMU: hash lists are maps, since their order cannot be observed; the
  MMU's report.
- Parsing of configuration files, `module.c`, `local-mem-protocol.c`, and exhaustion of the host's
  memory.
