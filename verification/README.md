# Verified models of the programs under `examples/` and of the query matcher

This project models, in Dafny, the stateful cores of a small collection of C programs and of a Rust
query matcher, and proves what each of them is for. `dafny verify dfyconfig.toml` checks everything.

* **Boundary-tag allocator** (`examples/malloc.c`). `Bits`, `SizeClass` and the `Heap*`, `Coalescing` and
  `Allocator` modules model the heap as a map from 32-byte granules to their four words, with the bin lists
  threaded through it. The class `Allocator.Allocator` runs malloc, realloc and free in place. The invariant:
  chunks tile every segment, each chunk's size word agrees with its successor's, no two free chunks touch, a
  free chunk is in exactly the list of its size class, and bit i of the bin map is set exactly when list i is
  non-empty. So the live chunks determine all others. `HeapClient` runs whole client scripts against a map
  from pointers to sizes and contents, which is all that a client knows of the heap.
* **Cluster control plane** (`examples/cluster.c`). `Election` is a step system of masters, slaves and a bag
  of messages in any order; `ElectionLimits` shows that it is safe exactly when a late vote cannot be counted
  for an attempt that was given up; `ElectionNode` is the handlers as they run on one node, and
  `ElectionServers` puts such nodes together and proves that they take exactly the system's steps. `Epochs` is
  a step system of nodes with roles, elections and resets for the bound on config epochs, `EpochLimits` gives
  its exact condition, `CollisionBound` counts collisions and shows that they come to an end, and `EpochNode`
  is the epoch handlers. `Bitmap`, `SlotTable`, `ClusterNodes` and `ClusterSlots` are the slot table with its
  bitmaps, links and failure reports, and `Decimal` and `SlotRanges` the slot ranges of nodes.conf.
* **io_uring** (`examples/io_uring.c`). `RsrcNodes` is a step system for the deferred reclamation of
  registered resources, with its safety and its progress, and `RsrcRing` its code; `CqRing` is the completion
  ring with its overflow list in 32-bit arithmetic, `TaskRefs` the task reference cache, `FixedBuf` the
  registered buffers.
* **NFP area cache** (`examples/nfp_cppcore.c`). `AreaCache` and `CppCore`: a list of movable windows through
  which reads and writes agree with uncached access.
* **RTRS** (`examples/rtrs-clt.c`). `InfoRsp`: decoding of the remote-buffer table.
* **Query matcher** (`src/query.rs`, `src/builder.rs`). `QueryMatch` and `QueryMatcher`: memoised matching of
  query trees; `QueryAnswers` says what the answers of a query are without lists and loops. `QueryIds`: the
  trees and ids that the builder makes. `QueryStable`: matching again adds nothing to the memo. `QueryProbe`
  and `QueryExact`: an environment that notices every wrong answer of the memo, and from it the exact
  condition under which the memo makes no difference.

## Where the code does not keep what is expected of it

* Two slaves can win the same epoch: a vote that arrives after an attempt was given up, and before the next
  request, is counted for the next attempt (`examples/cluster.c:2002-2005`, `2905`, `2964-2970`).
  `ElectionLimits.TwoWinners` is such a run; `ElectionLimits.SafeIffNoStaleAcks` gives the exact condition,
  and by `Election.TwoWinnersNeedLateAck` one of any two winners of an epoch has counted such a vote.
* After a hard reset a node's config epoch can exceed its current epoch: the votes and the epoch of its last
  election survive the reset (`examples/cluster.c:508-560`), and count when the node, a slave again in another
  cluster, fails over its new master. `EpochLimits.HardResetRun` is such a run. Only a node that has asked for
  votes, has counted one and has not given the attempt up does this: under whatever rule for hard resets, the
  bound holds in all runs exactly when no such node is ever reset (`EpochLimits.BoundedIffSparesPending`), and
  every run in which it fails resets one (`EpochLimits.UnboundedNeedsReset`).
* `clusterUpdateSlotsConfigWith` dereferences a null pointer when a slave without a known master hears a claim
  to a free slot (`ClusterSlots.UnknownMasterCrashes`, `ClusterSlots.CrashRun`).
* `clusterDelNodeSlots` is documented to return the number of deleted slots; it returns the number of slots,
  which is the same exactly when the node had every slot (`ClusterSlots.Cluster.DelNodeSlots`).
* The area cache compares ends of ranges in wrapping arithmetic, so a range that reaches the top of the
  address space can hit a window it is not inside of (`AreaCache.HitInside`, `AreaCache.WrappedHit`), and a
  failed `area_init` or acquire leaves an entry that later requests hit (`CppCore.Cpp.Get`,
  `CppCore.StaleEntryHits`). A window that ends at the top is found only for ranges that
  reach the top (`CppCore.LookupMeans`), so a range in it that ends below the top is not served by it.
* The builder's ids are documented as globally unique; they are distinct exactly when only last children nest
  (`QueryIds.DistinctIffOnlyLastNests`). The memo is transparent for whatever is matched exactly when captured
  sub-queries with the same id are the same query (`QueryExact.TransparentIffSharedAlike`); a small query that
  fails has two sub-queries, the first with one of its own (`QueryExact.CollisionBreaksMatching`).
* The loader of nodes.conf does not check slot numbers; a token that names a slot outside the table is an
  access out of bounds (`SlotRanges.LoadSlots`). A number is in the table exactly when it is below 16384
  (`SlotRanges.NumberInBounds`, `SlotRanges.OutOfTable`).
* The shortcut of the fixed-buffer import differs from plain advancing in one case, where both iterators are
  empty (`FixedBuf.ShortcutIsPlain`).

## Assumptions

* The allocator runs in one thread; what `__expand_heap` returns is aligned memory that was not in use.
* Elections: all views agree on one set of masters that serve slots, nodes do not crash, and votes are not
  lost by a restart. Timing, roles and flags other than those named are arbitrary inputs of each step. In
  `Epochs` roles, known masters, failure flags and cluster size are each node's own; time, and which slots a
  claim binds, are inputs of each step.
* Epochs are unbounded numbers. Node names, requests, resources and areas are numbered.
* io_uring: each section under a lock is one step. The reader of the completion ring never moves past the tail
  it sees.
* The area cache: sizes are powers of two, remapped ids are not zero, `area_init` and acquire succeed where
  `CppCore.Cpp.Get` does not say otherwise, reads and writes inside a window succeed.
  `NFP_CPP_SAFE_AREA_SIZE`, `MAX_IMM_PAYL_BITS` and the width of the queue depth come from headers that are
  not part of this model, and are parameters.
* The query engine's raw matches, the checks on single captures, the merging of two results and the ordering
  test of negations are arbitrary functions.

## Model

| member | source | states |
|---|---|---|
| `SizeClass.TableIsTab` | examples/malloc.c:114-119 | all sixty entries of the bin table are the ones the class formula gives |
| `SizeClass.BinIndexRange` | examples/malloc.c:121-128 | table indices are in range and every size has a bin between 0 and 63 |
| `SizeClass.BinIndexMonotone` | examples/malloc.c:121-128 | a larger size never has a smaller bin |
| `SizeClass.UpIsNextClass` | examples/malloc.c:130-137 | bin_index_up is the class of the size, or the one after the class just below it |
| `SizeClass.BinSuffices` | examples/malloc.c:114-137 | any chunk whose bin is at least bin_index_up of a request is large enough for it |
| `SizeClass.UpIsTight` | examples/malloc.c:130-137 | bin_index_up skips at most one bin |
| `Allocator.AdjustSizeMeaning` | examples/malloc.c:208-222 | too large exactly above the limit, else the least multiple of the alignment that holds the request and a header |
| `Allocator.Allocator.constructor` | examples/malloc.c:31-35 | the empty heap satisfies the invariant |
| `Allocator.Allocator.LockBin` | examples/malloc.c:75-80 | lazy initialisation of a list keeps the invariant and every payload, and leaves the list usable |
| `Allocator.Allocator.Unbin` | examples/malloc.c:224-232 | takes one free chunk out of its list, clears the bin map bit exactly when the list becomes empty, keeps the invariant |
| `HeapOps.UnbinInv` | examples/malloc.c:224-232 | unlinking and flagging a chunk keeps the heap invariant, and prev equals next exactly in a list of one |
| `HeapFacts.IndexedClear` | examples/malloc.c:226-227 | clearing bit i makes the bin map exact for an emptied list i |
| `HeapFacts.IndexedSet` | examples/malloc.c:507-508 | setting bit i makes the bin map exact for a filled list i, and is not needed when it is set |
| `HeapFacts.MaskMeaning` | examples/malloc.c:340-352 | the lowest set bit of the masked bin map is the first non-empty list from i on; a zero mask means there is none |
| `Allocator.BinFits` | examples/malloc.c:338-361 | every chunk in the list chosen for a request has the requested size |
| `Allocator.Allocator.AllocFwd` | examples/malloc.c:234-249 | takes the chunk at an address exactly when it is free; else changes nothing |
| `Allocator.Allocator.AllocRev` | examples/malloc.c:251-266 | takes the chunk that ends at an address exactly when it is free; else changes nothing |
| `HeapSteps.JoinInv` | examples/malloc.c:477-511 | joining adjacent allocated chunks into one keeps the heap invariant |
| `HeapOps.SplitInv` | examples/malloc.c:302-318 | cutting an allocated chunk in two keeps the heap invariant |
| `HeapOps.PretrimInv` | examples/malloc.c:272-300 | carving a chunk out of a free one that stays in its list keeps the heap invariant |
| `HeapOps.InsertInv` | examples/malloc.c:507-517 | flagging a chunk free and appending it to its list keeps the heap invariant when no neighbour is free |
| `HeapGrow.ExtendInv` | examples/malloc.c:162-206 | new memory from the system, adjoining the heap or apart from it, keeps the invariant and all payloads |
| `HeapOps.InsideInv` | examples/malloc.c:446 | writes inside one chunk, apart from its header, keep the invariant and all other payloads |
| `Coalescing.GatherInv` | examples/malloc.c:477-511 | what free has gathered around a chunk can be joined: the invariant holds and no live payload changed |
| `Coalescing.GatherLive` | examples/malloc.c:477-511 | gathering and joining removes exactly the freed chunk from the live allocations |
| `Allocator.Allocator.Gather` | examples/malloc.c:471-505 | the loop of free absorbs the free chunk below, if there is one, and the one above, no more; memory is given back exactly if one of them makes the chunk large enough and longer by a bit |
| `Allocator.Allocator.PutInBin` | examples/malloc.c:507-517 | the gathered chunk is entered into the list of its size; the live allocations are the others, unchanged |
| `Allocator.PageRange` | examples/malloc.c:520-522 | the pages given back lie strictly inside the chunk |
| `Allocator.Allocator.Reclaim` | examples/malloc.c:519-529 | zeroing exactly the middle pages of a large free chunk keeps the invariant and every live payload |
| `Allocator.Allocator.Free` | examples/malloc.c:451-532 | the pointer is no longer live, every other allocation keeps its size and bytes; the chunk is part of one free chunk with its free neighbours, and exactly when these make it large enough its middle pages are zero |
| `Allocator.Allocator.Trim` | examples/malloc.c:302-318 | a chunk is cut to a size, the rest is freed, and all live payloads including the kept part are unchanged |
| `Allocator.Allocator.Pretrim` | examples/malloc.c:272-300 | carves the request off the front of a free chunk exactly when what is left stays in the same list and the chunk is much larger than the request; else changes nothing |
| `Allocator.Allocator.ExpandHeap` | examples/malloc.c:162-206 | a refused grant changes nothing; a granted one yields a new live chunk of exactly the granted memory less what borders need |
| `Allocator.Allocator.TakeFromBin` | examples/malloc.c:352-361 | the first chunk of a non-empty suitable list becomes live with at least the size; nothing else does, and the borders of the heap stay |
| `Allocator.Allocator.TakeFromSystem` | examples/malloc.c:341-351 | all of the granted memory, joined with the free chunk below it if there is one, becomes one new live chunk |
| `Allocator.Allocator.Malloc` | examples/malloc.c:320-367 | a returned pointer is aligned and new, its chunk has exactly the adjusted size, it comes from the first chunk of the first list that fits or from the system if there is none, and every live payload is unchanged; null only if the size is too large, or the system refuses and no listed chunk is sure to fit, and then nothing changes |
| `Allocator.Allocator.GrowInPlace` | examples/malloc.c:415-433 | a chunk large enough keeps its size, any other absorbs its successor if that is free and grows by exactly its size; its bytes and all others are kept |
| `Allocator.Allocator.Move` | examples/malloc.c:442-449 | allocate, copy, free: the new chunk holds the old bytes, all others are unchanged; on failure nothing is lost |
| `Allocator.Allocator.Realloc` | examples/malloc.c:380-449 | the chunk stays where it is exactly when it, or it and a free successor, hold the adjusted size; else the new chunk replaces it and holds its contents up to the smaller size; every other allocation is unchanged; on failure, which needs a refusal and no listed chunk that fits, the old one is still there |
| `HeapShape.LiveDisjoint` | examples/malloc.c:302-367 | two live allocations share no byte and are aligned |
| `Allocator.LiveAligned` | examples/malloc.c:302-367 | every live allocation is aligned and lies above the static data |
| `HeapFacts.ChunksDetermined` | examples/malloc.c:302-532 | two heaps with the same segments and live chunks have the same free chunks: every operation says which are live and keeps the borders, so no memory is lost |
| `Bits.XorGreater` | examples/malloc.c:494-495 | the comparison of an exclusive or says that there is a power of two between the two sizes |
| `HeapClient.Client.DoMalloc` | examples/malloc.c:320-367 | the client's map gains exactly the pointer returned, aligned, large enough and apart from all others, or is unchanged; null only if the request is too large or the system gives no memory for it; memory comes into use only by a grant |
| `HeapClient.Client.DoRealloc` | examples/malloc.c:380-449 | the new allocation replaces the old one, apart from the others and with the old contents up to the smaller size, at the same address exactly when the chunk and a free successor have room; on failure, which must have one of the stated reasons, the map is unchanged; a move to a mapping removes exactly the old pointer |
| `HeapClient.Client.DoFree` | examples/malloc.c:451-532 | the client's map loses exactly that pointer; everything else is as it was |
| `HeapClient.Client.DoStore` | examples/malloc.c:21-24 | exactly that granule of that allocation changes, to the value stored |
| `HeapClient.Client.Perform` | examples/malloc.c:162-532 | every command takes the client's map to one that a client expects |
| `HeapClient.Run` | examples/malloc.c:162-532 | over every script of calls and writes from an empty heap: a trace of what the client sees, with one expected step per command, which ends with what is in the heap |
| `Election.FirstVote` | examples/cluster.c:2594-2694 | a granted vote is the first that this master gives in that epoch |
| `Election.VoteIsCast` | examples/cluster.c:2594-2694 | a step of the system records a vote exactly if it delivers a request under all of the conditions for a vote, written out |
| `Election.VotesWereCast` | examples/cluster.c:2594-2694 | over every run every recorded vote was cast by such a step |
| `Election.DeliverMeans` | examples/cluster.c:1664-2009 | what else a delivery does: the epochs seen, the votes counted, the answer sent |
| `Election.TickMeans` | examples/cluster.c:2832-2993 | what the timer does: when a slave asks, when it wins and when it starts afresh |
| `Election.AckIsCurrent` | examples/cluster.c:1997-2009 | a counted vote answers the current request and comes from a master not counted before |
| `Election.QuorumsMeet` | examples/cluster.c:2832-2990 | two majorities of the same set of masters have a master in common |
| `Election.StepInv` | examples/cluster.c:1664-2990 | every step, whatever message it handles, late votes included, keeps the election invariant |
| `Election.RunInv` | examples/cluster.c:1664-2990 | every run keeps the election invariant |
| `Election.InvSafe` | examples/cluster.c:2963-2993 | in a state with the invariant no two slaves have won the same epoch with votes counted in time |
| `Election.TwoWinnersNeedLateAck` | examples/cluster.c:1997-2993 | over every run without restriction: of two winners of one epoch, one counted a vote between its last reset of the counter and its next request |
| `Election.ElectionSafety` | examples/cluster.c:1997-2993 | over every interleaving without late votes, no two slaves win with the same epoch |
| `ElectionLimits.TwoWinners` | examples/cluster.c:2899-2993 | a run in which two slaves win the same epoch, one of them without any vote for it |
| `ElectionLimits.SafeIffNoStaleAcks` | examples/cluster.c:1997-2009 | all runs are safe exactly when votes are not counted between the reset of the counter and the next request |
| `ElectionNode.ClusterState.ProcessHeader` | examples/cluster.c:1664-1671 | the current epoch is then at least the sender's, never smaller than before, and nothing else changes |
| `ElectionNode.ClusterState.SendFailoverAuthIfNeeded` | examples/cluster.c:2594-2694 | a vote is granted exactly if this is a master with slots that has not voted in its current epoch, the request is of that epoch or a later one and comes from a slave of a failed master, or by hand, no vote for that master was given lately, and no claimed slot has an owner with a newer config epoch; a vote is recorded, a refusal changes nothing |
| `ElectionNode.ClusterState.HandleAuthAck` | examples/cluster.c:1997-2009 | one more vote is counted exactly if it comes from a master with slots and is of the epoch of the request or later; nothing else changes |
| `ElectionNode.ClusterState.HandleSlaveFailover` | examples/cluster.c:2832-2993 | exactly when it wins: a request, in time, with a majority of the votes; exactly when it asks: in an epoch above every one seen; exactly when it starts afresh and forgets the votes; else nothing changes |
| `ElectionServers.Servers.Deliver` | examples/cluster.c:1664-2009 | handling a message at one of many nodes is the delivery step of the whole system |
| `ElectionServers.Servers.Tick` | examples/cluster.c:2832-2993 | the failover timer of one node is the timer step of the whole system |
| `ElectionServers.Servers.Perform` | examples/cluster.c:1664-2993 | whatever can happen is a step of the election system |
| `ElectionServers.Serve` | examples/cluster.c:1664-2993 | nodes that run the handlers on any schedule take exactly its steps that can happen, and on a network without late votes no two of them win the same epoch |
| `Epochs.HearBounded` | examples/cluster.c:1664-2043 | a bounded packet keeps a bounded table bounded |
| `Epochs.AfterBounded` | examples/cluster.c:508-2990 | every operation, retries and wins of elections included, keeps the current epoch at least every known config epoch, and the epoch of a pending election with a counted vote; but for a hard reset in the middle of such an election |
| `Epochs.StepInv` | examples/cluster.c:508-2990 | every step, but for such a reset, keeps all tables and all messages in flight bounded by their current epochs |
| `Epochs.EpochsBounded` | examples/cluster.c:508-2990 | in every state reached by any number of elections, takeovers, packets and resets, but for hard resets of nodes with a pending request and a counted vote, each table and each message in flight is bounded by its current epoch |
| `Epochs.MaxIsCurrent` | examples/cluster.c:946-960 | in such a state the greatest epoch is the current epoch |
| `Epochs.BumpIsGreatest` | examples/cluster.c:990-1007 | a bump that changes anything gives a config epoch greater than every other one known |
| `Epochs.VotesExactly` | examples/cluster.c:2594-2694 | in the epoch system too a node votes exactly under the conditions of the code, and a vote is all that it then sends |
| `EpochLimits.HardResetRun` | examples/cluster.c:508-560 | a run from new servers in which a vote counted before a hard reset wins a failover in another cluster, with an epoch above the current one |
| `EpochLimits.UnboundedNeedsReset` | examples/cluster.c:508-560 | over every run: if the bound fails, a node was reset hard with a request pending and a vote counted |
| `EpochLimits.PendingResetBreaks` | examples/cluster.c:508-560 | from every reachable state in which such a node may be reset, a state is reached in which the bound fails |
| `EpochLimits.BoundedIffSparesPending` | examples/cluster.c:508-560 | under whatever rule for hard resets the bound holds in all runs exactly when in no reachable state the rule lets a node with a request pending and a vote counted be reset |
| `EpochNode.EpochState.GetMaxEpoch` | examples/cluster.c:946-960 | in whatever order the table is read, the result is the greatest epoch known |
| `EpochNode.EpochState.BumpConfigEpochWithoutConsensus` | examples/cluster.c:990-1007 | changes the epoch exactly when it is zero or not the greatest, and then to one more than the current epoch or to the greatest one |
| `EpochNode.EpochState.HandleConfigEpochCollision` | examples/cluster.c:1055-1070 | changes anything exactly when both are masters with one epoch and the sender has the greater name; then this node's epoch exceeds every other one known, and no other entry changes |
| `EpochNode.EpochState.ProcessPacket` | examples/cluster.c:1664-2043 | for every other node the config epoch known is afterwards the maximum of the one before, the header's if it is the sender and the reported one if the packet is an update about it; for this node, and after a collision, exactly what is kept; a bounded packet keeps a bounded table bounded |
| `CollisionBound.EventInv` | examples/cluster.c:1055-1070 | every send and delivery keeps the history invariant: an epoch given up was held by a greater name |
| `CollisionBound.PastBound` | examples/cluster.c:1055-1070 | the i-th node from the top has had at most 2^i config epochs, and all above it together fewer |
| `CollisionBound.MovesBounded` | examples/cluster.c:1055-1070 | over every run the node with the k-th greatest name moves at most 2^(k-1) - 1 times, the greatest never |
| `CollisionBound.CollisionMoves` | examples/cluster.c:1941-1948 | as long as two nodes share an epoch, the next fresh header of the greater one moves the other |
| `CollisionBound.ResolutionEnds` | examples/cluster.c:1055-1070 | wherever nodes that know each other are, an exchange of at most 2^(n+1) headers makes all config epochs distinct |
| `CollisionBound.ReachableSettles` | examples/cluster.c:1055-1070 | from every reachable state in which all know each other, an exchange of headers leads to distinct epochs that everybody knows |
| `CollisionBound.SettledForever` | examples/cluster.c:1055-1070 | from then on nobody moves, whatever old headers arrive |
| `Bitmap.WriteBit` | examples/cluster.c:3497-3517 | setting or clearing a bit in its byte changes that bit and no other |
| `Bitmap.CountWrite` | examples/cluster.c:3537-3567 | writing a bit that was different changes the popcount by one |
| `Bitmap.SameBits` | examples/cluster.c:3497-3517 | bitmaps with the same bits have the same bytes |
| `SlotTable.BindAgrees` | examples/cluster.c:3578-3583 | binding a free slot keeps table, bitmaps and counters in agreement |
| `SlotTable.UnbindAgrees` | examples/cluster.c:3588-3595 | releasing a slot keeps table, bitmaps and counters in agreement |
| `SlotTable.NoSlots` | examples/cluster.c:3562-3567 | a node's counter is zero exactly when no slot names it |
| `SlotTable.TableDetermines` | examples/cluster.c:3537-3595 | the table determines all bitmaps and counters |
| `SlotTable.AsMasterLinks` | examples/cluster.c:1479-1493 | making a node a master keeps the links between masters and slaves matched |
| `SlotTable.AsSlaveLinks` | examples/cluster.c:3798-3814 | making a node follow another keeps the links between masters and slaves matched |
| `ClusterSlots.Cluster.constructor` | examples/cluster.c:407-432 | a new node satisfies the invariant |
| `ClusterSlots.Cluster.AddNode` | examples/cluster.c:672-700 | a new node without slots or links keeps the invariant |
| `ClusterSlots.Cluster.AddSlot` | examples/cluster.c:3578-3583 | binds the slot exactly when it is free; the invariant holds and nothing else changes |
| `ClusterSlots.Cluster.DelSlot` | examples/cluster.c:3588-3595 | the server's assertion holds; the slot is free afterwards and nothing else changes |
| `ClusterSlots.Cluster.DelNodeSlots` | examples/cluster.c:3599-3607 | all slots of the node and no others become free; the number returned is the number of slots, and the number of those deleted exactly when the node had every slot |
| `ClusterSlots.Cluster.RemoveSlave` | examples/cluster.c:797-814 | the slave is taken out of its first place in the list exactly if it is there; nothing else changes |
| `ClusterSlots.Cluster.AddSlave` | examples/cluster.c:816-829 | the slave is appended unless it is in the list |
| `ClusterSlots.Cluster.SetNodeAsMaster` | examples/cluster.c:1479-1493 | the node leaves its master and becomes one, nothing else changes but the list of slaves it is in; the invariant holds |
| `ClusterSlots.Cluster.SetMaster` | examples/cluster.c:3798-3814 | this node leaves its master and follows another, nothing else changes but lists of slaves; a former master closes all slots; the invariant holds |
| `ClusterSlots.Cluster.Rebind` | examples/cluster.c:1529-1568 | the loop moves exactly the claimed slots that are not imported and are free or held with a smaller epoch; it notes exactly whether one was the master's and which of this node's had keys |
| `ClusterSlots.Cluster.UpdateSlotsConfigWith` | examples/cluster.c:1506-1594 | which slots move, exactly when this node is demoted and to whom, exactly which keys are dropped, and exactly when the server crashes |
| `ClusterSlots.KnownMasterIsSafe` | examples/cluster.c:1523-1578 | a master, or a slave that knows its master and owns no slot, meets all assertions on the demotion path |
| `ClusterSlots.UnknownMasterCrashes` | examples/cluster.c:1523-1578 | a slave that does not know its master crashes exactly when another node claims a free slot that is not imported |
| `ClusterSlots.CrashRun` | examples/cluster.c:1506-1594 | such a crash after operations of this model: the master, still in handshake, times out and is removed |
| `ClusterSlots.Cluster.FailoverReplaceYourMaster` | examples/cluster.c:2794-2810 | all slots of the old master and no others become this node's, which becomes a master |
| `ClusterSlots.Cluster.SenderIsSlave` | examples/cluster.c:1842-1868 | a sender that turned slave loses its slots and follows the master it names; the invariant holds |
| `ClusterSlots.Cluster.CleanupReports` | examples/cluster.c:742-756 | exactly the reports that are not too old are kept, in order |
| `ClusterSlots.Cluster.DelFailureReport` | examples/cluster.c:769-787 | the sender's report is dropped, and with it the old ones, the others in order; without one nothing changes |
| `ClusterSlots.Cluster.AddFailureReport` | examples/cluster.c:712-735 | one report per sender: a second one renews the first |
| `ClusterNodes.WithdrawnReports` | examples/cluster.c:769-787 | with one report per sender, withdrawing leaves none of that sender and exactly the others that are not too old |
| `ClusterNodes.RecentPicks` | examples/cluster.c:742-756 | the reports kept are those at the places where they are not too old, in order |
| `ClusterNodes.DeletedMeaning` | examples/cluster.c:883-910 | what is left of any other node when one is removed |
| `ClusterNodes.OrphansLinks` | examples/cluster.c:839-861 | cutting all links with a node keeps the others matched and leaves none to it |
| `ClusterSlots.Cluster.FreeNode` | examples/cluster.c:839-861 | the node leaves the table; others no longer follow or list it, and nothing else changes |
| `ClusterSlots.Cluster.DelNode` | examples/cluster.c:883-910 | afterwards no slot, importing, migrating, slave, master or report entry refers to the node; of the other nodes nothing else changes but that reports too old may go with one of the node |
| `Decimal.AtoiShow` | examples/cluster.c:3895-3897 | reading a printed number gives the number |
| `SlotRanges.PrintSlots` | examples/cluster.c:3883-3901 | the printed ranges are exactly the set bits, increasing, apart, none extendable, also at the last slot |
| `SlotRanges.PrintsOnce` | examples/cluster.c:3883-3901 | a bitmap has only one such list of ranges, so the printed text is determined |
| `SlotRanges.TokenRange` | examples/cluster.c:258-264 | a printed token is read back as its range |
| `SlotRanges.WordsOfRender` | examples/cluster.c:3883-3901 | splitting the printed line at spaces gives back the tokens |
| `SlotRanges.LoadRange` | examples/cluster.c:265 | every free slot from start to stop is bound to the node, up to the end of the table; true exactly if none is outside the table |
| `SlotRanges.LoadSlots` | examples/cluster.c:231-266 | which token is the first to name a slot outside the table, if any; every free slot named up to there is bound to the node, no other |
| `SlotRanges.NumberInBounds` | examples/cluster.c:263-265 | a number is accepted in bounds exactly when it is a slot |
| `SlotRanges.OutOfTable` | examples/cluster.c:263-265 | the token 16384 is not, and is loaded without a check |
| `SlotRanges.TokensName` | examples/cluster.c:231-266 | the tokens of maximal ranges name exactly the set bits |
| `SlotRanges.RoundTrip` | examples/cluster.c:231-266 | printing a bitmap and loading the line where its slots are free gives the node exactly that bitmap |
| `SlotRanges.Reload` | examples/cluster.c:231-266 | printing all nodes of any table and loading the lines into an empty one rebuilds the table |
| `RsrcNodes.SetNodeInv` | examples/io_uring.c:1312-1336 | taking a reference, from the cache, with a refill or directly, keeps the invariant |
| `RsrcNodes.PutInv` | examples/io_uring.c:1283-1301 | giving a reference back, to the cache or to the node, keeps the invariant |
| `RsrcNodes.RemoveInv` | examples/io_uring.c:8943-8958 | queueing a resource on the current node keeps the invariant |
| `RsrcNodes.KillInv` | examples/io_uring.c:8287-8313 | retiring the current node keeps the invariant: what is left are its holders' references |
| `RsrcNodes.RefZeroInv` | examples/io_uring.c:8238-8266 | nodes leave the list in order, and only nodes that no request holds |
| `RsrcNodes.WorkInv` | examples/io_uring.c:8770-8797 | putting a node's resources keeps the invariant |
| `RsrcNodes.StepInv` | examples/io_uring.c:1283-8958 | every step of every task keeps the invariant |
| `RsrcNodes.ReclamationSafe` | examples/io_uring.c:8238-8816 | over every interleaving no request uses a resource that was put, or a freed node, and nothing is put twice |
| `RsrcNodes.PutAfterDrop` | examples/io_uring.c:8770-8816 | when a node's resources are put, every request that holds a reference holds a newer node's |
| `RsrcNodes.RefsConserved` | examples/io_uring.c:1283-1335 | the current node's references are one plus the cached ones plus its holders; a listed node's are its holders |
| `RsrcNodes.ResourcesConserved` | examples/io_uring.c:8770-8958 | no step loses or invents a resource: each is in the table, in a queue, or put |
| `RsrcNodes.OldestNotDone` | examples/io_uring.c:8248-8257 | in every reachable state the oldest listed node is not done, and nodes handed over have the worker armed |
| `RsrcNodes.Drains` | examples/io_uring.c:8238-8816 | once no request holds a listed node, the callbacks and the worker empty the list and put every resource queued on it |
| `RsrcNodes.ReachableDrains` | examples/io_uring.c:8238-8816 | so from every reachable state: nothing taken out of the table is kept for ever |
| `RsrcRing.Ring.constructor` | examples/io_uring.c:1506-1572 | an empty context satisfies the invariant |
| `RsrcRing.Ring.SetRsrcNode` | examples/io_uring.c:1319-1336 | a request without a node gets the current one and one reference, from the cache, which is refilled when empty, or directly; nothing for a request that has a node |
| `RsrcRing.Ring.PutRsrc` | examples/io_uring.c:1283-1301 | a request gives its reference back, to the cache if its node is the current one, else to the node; nothing for a request without a node |
| `RsrcRing.Ring.RefsDrop` | examples/io_uring.c:1303-1310 | gives all cached references back |
| `RsrcRing.Ring.QueueRemoval` | examples/io_uring.c:8943-8958 | moves the resource from the table to the head of the current node's queue, or nothing without memory |
| `RsrcRing.Ring.NodeSwitchStart` | examples/io_uring.c:8315-8321 | succeeds exactly when there is a backup node afterwards |
| `RsrcRing.Ring.NodeSwitch` | examples/io_uring.c:8287-8313 | with and without retiring the current node: it is listed with its cached references given back, and the backup node takes its place |
| `RsrcRing.Ring.NodeRefZero` | examples/io_uring.c:8238-8266 | marks the node done and hands over all of the done nodes at the head of the list, up to the first that is not done |
| `RsrcRing.Ring.PutWork` | examples/io_uring.c:8770-8816 | every node handed over is put, in the order of the list: its resources are put and it is freed; the rest is as it was |
| `Word32.RingSlot` | examples/io_uring.c:1820-1821 | masking a wrapped counter gives its place in the ring |
| `CqRing.Ring.constructor` | examples/io_uring.c:1506-1572 | an empty ring satisfies the invariant |
| `CqRing.Ring.EventsMeaning` | examples/io_uring.c:1802-1805 | the wrapped difference of tail and head is the number of unread entries |
| `CqRing.Ring.GetCqe` | examples/io_uring.c:1807-1822 | refuses exactly when the ring is full, else gives the next place |
| `CqRing.Ring.Write` | examples/io_uring.c:2030-2036 | an entry goes into the ring exactly if there is room, and overwrites nothing unread |
| `CqRing.Ring.EventOverflow` | examples/io_uring.c:1992-2018 | appends to the list or counts a drop; the flag is set exactly when the list is non-empty |
| `CqRing.Ring.FillCqe` | examples/io_uring.c:2020-2038 | into the ring, else onto the list, else dropped |
| `CqRing.Ring.FillReq` | examples/io_uring.c:2046-2050 | one more request completion, all counters and contents conserved |
| `CqRing.Ring.FillAux` | examples/io_uring.c:2052-2058 | one more completion without a request, all counters and contents conserved |
| `CqRing.Ring.DrainOverflow` | examples/io_uring.c:1898-1914 | the list goes into the ring in order as far as there is room; if forced, the rest is dropped |
| `CqRing.Ring.OverflowFlush` | examples/io_uring.c:1889-1929 | exactly which entries move, stay or are lost, the last two only when the ring is full; true exactly when nothing is left behind and the flush was not refused |
| `CqRing.Ring.Consume` | examples/io_uring.c:1802-1805 | a reader that stays behind the tail gets the entries in the order they were written |
| `CqRing.Ring.DropSqe` | examples/io_uring.c:7805-7827 | a submission with a bad index is counted as dropped and conserved |
| `CqRing.Ring.Conservation` | examples/io_uring.c:1583-1589 | modulo 2^32, tail plus waiting entries less cq_extra is the requests completed plus the submissions dropped; no entry is lost or doubled |
| `TaskRefs.Tasks.constructor` | examples/io_uring.c:9166-9188 | fresh tasks are balanced |
| `TaskRefs.Tasks.Refill` | examples/io_uring.c:1962-1969 | brings the cache to its full size |
| `TaskRefs.Tasks.GetTaskRefs` | examples/io_uring.c:1971-1978 | the requests to come are accounted for; inflight less cached stays the live requests |
| `TaskRefs.Tasks.PutTask` | examples/io_uring.c:1948-1960 | for the current task or another, inflight less cached stays the live requests |
| `TaskRefs.Tasks.DropRefs` | examples/io_uring.c:1980-1990 | the cache is emptied and inflight equals the live requests |
| `TaskRefs.SubmitLoop` | examples/io_uring.c:7842-7867 | the result is the number of tries up to the first one that stops the loop: a refusal, which does not count, or a failure that is not to be passed over, which does; or the error if nothing could be started |
| `TaskRefs.Tasks.SubmitSqes` | examples/io_uring.c:7829-7874 | after a batch with any early break the live requests grow by exactly those accepted, and what is returned is the place of the break |
| `TaskRefs.Tasks.FreeBatchList` | examples/io_uring.c:2621-2655 | each task is given back exactly its freed requests, however they are mixed |
| `FixedBuf.RestFacts` | examples/io_uring.c:9627-9642 | no segment is empty and only the last may end before its page does |
| `FixedBuf.Register` | examples/io_uring.c:9627-9642 | the segments are the buffer cut at page boundaries |
| `FixedBuf.RegisterIov` | examples/io_uring.c:9659-9681 | which buffers are refused, and with what error; the registered ones do not wrap |
| `FixedBuf.Iter.Advance` | examples/io_uring.c:3275-3276 | plain walking ends at the segment and place that the position has |
| `FixedBuf.FoundByte` | examples/io_uring.c:9627-9642 | the byte found by walking is the one at that user address |
| `FixedBuf.ShortcutFinds` | examples/io_uring.c:3277-3288 | shift and mask find the same segment and place as walking |
| `FixedBuf.ShortcutCovers` | examples/io_uring.c:3277-3288 | the shortcut's iterator covers exactly the bytes asked for |
| `FixedBuf.ShortcutIsPlain` | examples/io_uring.c:3277-3288 | the shortcut gives plain advancing's iterator except at the end of a buffer whose last page is partial |
| `FixedBuf.ImportFixed` | examples/io_uring.c:3236-3292 | succeeds exactly for ranges inside the buffer, and then the iterator covers exactly that range |
| `AreaCache.HitInside` | examples/nfp_cppcore.c:851-856 | a hit lies inside the window exactly when its end does not wrap, or ends with the window at the top |
| `AreaCache.FitInside` | examples/nfp_cppcore.c:862-878 | a range that fits lies inside the aligned window under the same condition |
| `AreaCache.WrappedHit` | examples/nfp_cppcore.c:851-856 | a range that wraps and hits a window it is not inside of |
| `CppCore.Cpp.constructor` | examples/nfp_cppcore.c:789-820 | unused entries are sound |
| `CppCore.Cpp.Get` | examples/nfp_cppcore.c:822-901 | a returned entry is mapped to its record and holds the range unless addresses wrap; all entries stay sound exactly when no remapping fails |
| `CppCore.LookupMeans` | examples/nfp_cppcore.c:822-878 | a lookup finds the first entry that holds the range; if there is none it takes the last one exactly if the range lies in one aligned window of its size |
| `CppCore.Cpp.Remap` | examples/nfp_cppcore.c:869-895 | the last entry gets the window that starts at the multiple of its size below the address, sound exactly when area_init and acquire succeed |
| `CppCore.StaleEntryHits` | examples/nfp_cppcore.c:880-895 | after a failure the same request hits the entry whose area was never set up |
| `CppCore.Cpp.Put` | examples/nfp_cppcore.c:903-915 | the entry becomes the first of the list |
| `CppCore.LoadStore` | examples/nfp_cppcore.c:984-1016 | reading back what was written gives it |
| `CppCore.StoreMeaning` | examples/nfp_cppcore.c:984-1016 | a write changes exactly the bytes it covers |
| `CppCore.StraysAtTop` | examples/nfp_cppcore.c:851-866 | only a range that reaches the top of the address space is looked for outside the window it hits |
| `CppCore.Cpp.ReadOnce` | examples/nfp_cppcore.c:919-947 | a cached read gives what a direct read gives and moves the entry used to the front; it strays out of the window exactly when the range wraps and hits |
| `CppCore.Cpp.WriteOnce` | examples/nfp_cppcore.c:984-1016 | a cached write does what a direct write does and moves the entry used to the front; it strays out of the window exactly when the range wraps and hits |
| `CppCore.GapMeaning` | examples/nfp_cppcore.c:969-971 | the aligned difference is the distance to the next safe boundary, also at the top of the address space |
| `CppCore.ReadSucceeds` | examples/nfp_cppcore.c:959-982 | a read succeeds exactly when all its bytes are mapped |
| `CppCore.ReadAllPlaces` | examples/nfp_cppcore.c:959-982 | for every mapping the i-th byte read is as far into its piece as the start of the piece is mapped to |
| `CppCore.PlaceMeaning` | examples/nfp_cppcore.c:959-1051 | a piece starts at the address or at a multiple of the safe size: byte i goes as far past the place of the last such start as it is away from it |
| `CppCore.UniformPlace` | examples/nfp_cppcore.c:959-1051 | where the mapping shifts whole safe windows the pieces cannot be noticed: the place of the i-th byte is that of address + i |
| `CppCore.ReadAllBytes` | examples/nfp_cppcore.c:959-982 | and the i-th byte read is the one at address + i |
| `CppCore.WriteSucceeds` | examples/nfp_cppcore.c:1028-1051 | a write succeeds exactly when all its bytes are mapped |
| `CppCore.WriteKeeps` | examples/nfp_cppcore.c:1028-1051 | a place to which no byte goes is as before, also when the write fails |
| `CppCore.WriteSets` | examples/nfp_cppcore.c:1028-1051 | the last byte that goes to a place is what is there afterwards |
| `CppCore.WriteAllBytes` | examples/nfp_cppcore.c:1028-1051 | where the mapping shifts whole safe windows a successful write changes exactly the bytes of [address, address + length) as mapped |
| `CppCore.ReadBack` | examples/nfp_cppcore.c:959-1051 | what was written is read back, if no two bytes go to the same place |
| `CppCore.WriteFails` | examples/nfp_cppcore.c:1028-1051 | a write that fails has done what writing everything before the first unmapped byte does |
| `CppCore.Cpp.Read` | examples/nfp_cppcore.c:959-982 | the loop ends, and its data is what uncached access to the same pieces gives, unless some piece is mapped to the top of the address space |
| `CppCore.Cpp.Write` | examples/nfp_cppcore.c:1028-1051 | the loop ends, and the device is as after uncached writes of the same pieces, unless some piece is mapped to the top of the address space |
| `InfoRsp.FillChunks` | examples/rtrs-clt.c:2450-2456 | the table is filled with the descriptor's chunks in order, as far as it goes |
| `InfoRsp.FillTable` | examples/rtrs-clt.c:2432-2457 | the nested loops fill the table with a prefix of all chunks in order |
| `InfoRsp.LastPart` | examples/rtrs-clt.c:2432-2457 | what exceeds the table is less than the last descriptor |
| `InfoRsp.SameTotal` | examples/rtrs-clt.c:2464-2467 | so the check modulo 2^32 is exact |
| `InfoRsp.ChunksPlaced` | examples/rtrs-clt.c:2432-2457 | chunk k of descriptor j comes after all chunks of the descriptors before it, with their key and the address k chunks on |
| `InfoRsp.ImmediateIsBits` | examples/rtrs-clt.c:2420-2427 | the check of the bits: there are powers of two not below the count and the chunk size whose exponents fit together |
| `InfoRsp.ProcessInfoRsp` | examples/rtrs-clt.c:2407-2470 | succeeds exactly when count and chunk size fit into the bits by the least powers of two, and the descriptors are whole numbers of chunks that fill the table exactly; then the table is the list of their chunks |
| `QueryMatcher.MergeQueryResults` | src/query.rs:337-351 | the result lists every pair of a result and a sub-result that merges, once, in increasing order; so it holds exactly what some pair merges to |
| `QueryMatcher.MergePatterns` | src/query.rs:164-175 | the patterns' results merged from left to right: what merging one result of each pattern gives, for every such choice; empty as soon as a merge is |
| `QueryMatcher.Matcher.MatchInternal` | src/query.rs:144-216 | the loops compute the cached matching of the tree and its cache |
| `QueryMatcher.Matcher.ProcessMatch` | src/query.rs:221-331 | one match with its sub-queries, run or taken from the cache |
| `QueryMatcher.Matcher.Filter` | src/query.rs:177-215 | keeps the results that no negation rules out, threading the cache |
| `QueryMatcher.Matcher.IsBlocked` | src/query.rs:181-212 | runs negations until one rules the result out |
| `QueryMatch.Transparent` | src/query.rs:144-331 | with one tree per id, cached matching gives what matching without a cache gives, and keeps the cache correct |
| `QueryMatch.SubsSame` | src/query.rs:307-330 | the sub-queries of a match give the same with a correct cache and without |
| `QueryMatch.BlockedSame` | src/query.rs:183-212 | negations rule out the same results with a correct cache and without |
| `QueryAnswers.MergePairs` | src/query.rs:337-351 | merging gives the pairs that merge, all of them, each once, in order |
| `QueryAnswers.MergedExactly` | src/query.rs:337-351 | a result is in the merged list exactly if some pair merges to it |
| `QueryAnswers.FoldedExactly` | src/query.rs:164-175 | merging several lists gives exactly what merging one result of each from left to right gives |
| `QueryAnswers.MatchExactly` | src/query.rs:144-331 | matching a tree gives exactly its answers: one result of each pattern, with answers of the sub-queries, merged, and ruled out by no negation |
| `QueryAnswers.UnblockedInOrder` | src/query.rs:177-215 | the results that no negation rules out are kept, all of them, in their order |
| `QueryMatch.ConsistentIsTransparent` | src/query.rs:144-331 | for every tree whose ids tell its captured sub-queries apart, from an empty cache |
| `QueryMatcher.Matcher.Matches` | src/query.rs:127-133 | the results are those of matching without a cache, without equal neighbours: exactly the answers of the query as a relation, written without lists |
| `QueryMatcher.DedupMeaning` | src/query.rs:131 | removing equal neighbours keeps the same results and leaves no equal neighbours |
| `QueryMatcher.DedupInOrder` | src/query.rs:131 | what is left keeps its order |
| `QueryIds.DistinctIffOnlyLastNests` | src/builder.rs:316-329 | the builder gives distinct ids exactly to trees in which only last children nest |
| `QueryIds.CapturedOnPath` | src/builder.rs:528-557 | every captured sub-query of a built tree has as id the sum of the positions on the way to it |
| `QueryIds.NoCollisionIsTransparent` | src/query.rs:144-331 | if no two captured sub-queries share an id, matching a built tree with the cache gives what matching without one gives |
| `QueryStable.MatchAgain` | src/query.rs:144-331 | where ids grow down the tree, matching a query again gives the same results and adds nothing to the memo |
| `QueryProbe.Detect` | src/query.rs:144-331 | in the environment that notices wrong answers, a query gives its own result alone only if every captured sub-query in it, under captures and negations, got its own results from the memo |
| `QueryProbe.ProbeDecides` | src/query.rs:307-330 | if the memo makes no difference there, no two different captured sub-queries share an id |
| `QueryExact.TransparentIffSharedAlike` | src/builder.rs:316-329 | the memo is transparent for everything that can be matched exactly when captured sub-queries with the same id are the same query |
| `QueryExact.CollisionBreaksMatching` | src/builder.rs:628-640 | the tree that the builder makes of a query with two sub-queries, the first with one of its own: both the nested and the second have id 2, and the memo can give a wrong result |

## Left out

- `examples/malloc.c`: threads and locking, the mmap and mremap paths (a request above the threshold ends in the outcome `Mmapped`), `__malloc0`, and the words of a list head that no chunk uses.
- Allocator.Allocator.Free: takes null and heap chunks; a chunk with a mapping of its own is given back to the system, whose memory is not part of the model.
- Allocator.Allocator.Realloc: takes null and heap chunks, for the same reason; a chunk that moves to a mapping of its own leaves the heap model, and its contents there are not followed.
- `examples/cluster.c`: networking, gossip selection and its timing, pub/sub, persistence, DUMP, RESTORE and MIGRATE, the cluster state evaluation, replica migration and its flag.
- Election.ElectionSafety: votes survive, because a vote is not saved before it is sent and a crash could repeat it.
- `clusterReset` is in the epoch model; on the slot table it would only combine operations that are here.
- SlotRanges.LoadSlots: ends at the first slot outside the table, because what the access out of bounds does is not defined; importing and migrating tokens are skipped, and numbers are unbounded.
- `examples/io_uring.c`: opcode handlers, polling, cancellation, drain and timeouts, the submission thread, file passing, page pinning and accounting, and the completion posted for a tagged resource.
- CqRing.Ring.Conservation: entries in the ring may overtake older ones in the overflow list, so no order across the two is claimed.
- TaskRefs.Tasks.SubmitSqes: counters are unbounded, and requests that complete during the loop are separate calls.
- `examples/nfp_cppcore.c`: area reference counts, the 32-bit accessors and the XPB mapping.
- CppCore.Cpp.ReadOnce: ends where an access leaves its window, because what the driver then does is in another file; `area_init` and acquire succeed, and a read is complete.
- CppCore.Cpp.WriteOnce: the same for writes.
- CppCore.Cpp.Read: as for one read; a read that comes back short would end the loop.
- CppCore.Cpp.Write: as for one write; a write that comes back short would end the loop.
- CppCore.ReadAllBytes: needs a mapping that shifts whole safe windows, without which it need not hold; CppCore.ReadAllPlaces needs no such thing.
- CppCore.WriteAllBytes: likewise; CppCore.WriteSets and CppCore.WriteKeeps need no such thing.
- `examples/rtrs-clt.c`: connection management and request handling.
- `src/builder.rs` but for its ids, the command line, rules, output and the other files of `src`; `examples/parser.c`, whose state lives in a library that is not part of this model.
- QueryExact.TransparentIffSharedAlike: for queries that have a pattern each and whose numbers tell them apart; it ranges over all functions in the place of the engine, also over some that no engine computes.
- Epochs.EpochsBounded: gossip about third nodes carries no epochs and is not part of the model; which slots change hands is an input, so the votes' slot check compares with arbitrary owners.
- QueryMatch.Transparent: regular expressions, number parsing and variable maps are inside the arbitrary function that checks a single match.
