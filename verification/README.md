# Verified models of the node's algorithmic cores

This project models seven parts of the node in Dafny and proves what their comments, assertions and
tests promise, for all inputs, all reachable states and all runs. `dafny verify dfyconfig.toml`
checks everything.

- **Cluster linearization** (`src/cluster_linearize.h`): the dependency graph kept as ancestor and
  descendant sets, chunking, the branch-and-bound candidate search, `Linearize`, `PostLinearize` and
  `MergeLinearizations`. A linearization is at least as good as another if its feerate diagram is
  nowhere below the other's. The proofs use the dual of that: for every slope, the best prefix of
  the one is worth at least as much as the best prefix of the other (`Diagrams.DominatesIffDiagram`
  shows the two are the same). Modules `FeeFracs`, `TxSets`, `Chunking`, `Diagrams`, `DepGraphs`,
  `Linearizations`, `LinearizationChunkings`, `Merging`, `CandidateTheory`, `SearchCosts`,
  `CandidateSearch`, `CandidateFinders`, `Linearizing`, `Regrouping`, `Trees`, `MovedLeaf`, `PostLinearizing`.
- **Parallel check queue** (`src/checkqueue.h`): a transition system in which every critical
  section, every check run outside the mutex and every notification is one atomic step, with any
  number of workers and rounds; the class `CheckQueue` refines its steps. Module `CheckQueues`.
- **Layered coin cache** (`src/coins.cpp`, `src/coins.h`): the threaded list of flagged entries, and
  stacks of caches of any depth on a store. Modules `CoinMaps`, `CoinsViews`, `Coins`.
- **Address manager** (`src/addrman.cpp`): the redundant indexes over the same entries, and the
  conditions of `CheckAddrman` after every run of operations. Modules `AddrBooks`, `AddrChecks`,
  `AddrMans`, `AddrStats`.
- **Two-phase headers sync** (`src/headerssync.cpp`): the PRESYNC/REDOWNLOAD/FINAL object with its
  one-bit commitments and lookahead buffer. Module `HeadersSyncing`.
- **Limb arithmetic, compact targets, block work and the block tree** (`src/arith_uint256.cpp`,
  `src/arith_uint256.h`, `src/chain.cpp`). Modules `Numbers`, `Limbs`, `ArithUint`, `ArithShift`,
  `ArithMulDiv`, `BlockWork`, `CompactTargets`, `BlockTree`.
- **String codes** (`src/bech32.cpp`, `src/codex32.cpp`, `src/base58.cpp`): checksums over GF(32), the
  BCH bound behind the generators of Bech32 and codex32, and Base58 with its estimated buffers.
  Modules `Gf32`, `Checksums`, `Codex32`, `Bech32`, `Gf1024`, `BchBound`, `PowersOfE`, `Bech32Errors`,
  `Bech32Strings`, `Codex32Errors`, `Radix`, `Reversal`, `Base58`.

Code that updates objects, arrays and tables step by step is modelled by classes and methods that do
the same; each method is tied to a specification on values, about which the lemmas speak.

## Model

| member | source | states |
|---|---|---|
| `FeeFracs.SumBetween` | src/util/feefrac.h:119-131 | Merging a chunk with a following one of higher feerate gives a feerate strictly between the two |
| `FeeFracs.BetterTrans` | src/util/feefrac.h:133-139 | The full order (feerate, then smaller size) is transitive on nonempty fractions |
| `FeeFracs.BetterTotal` | src/util/feefrac.h:133-139 | Two fractions neither of which is better are equal: the order is total |
| `DepGraphs.DepGraph.AddTransaction` | src/cluster_linearize.h:128-146 | The first free position is used, all other ancestor and descendant sets stay, the graph stays closed and acyclic |
| `DepGraphs.DepGraph.RemoveTransactions` | src/cluster_linearize.h:148-171 | Exactly the given positions disappear, from `used` and from every set; a remaining grandparent stays an ancestor |
| `DepGraphs.DepGraph.AddDependencies` | src/cluster_linearize.h:173-198 | In-place update of both families of sets, early exit included, yields `DependenciesAdded` and keeps them mutually inverse, reflexive and transitive |
| `DepGraphs.DependenciesAddedClosed` | src/cluster_linearize.h:177-198 | The relation after adding dependencies is closed and contains the new edges |
| `DepGraphs.DependenciesAddedLeast` | src/cluster_linearize.h:177-198 | It is the least closed relation that contains the old one and the new edges |
| `DepGraphs.GetReducedParents` | src/cluster_linearize.h:200-219 | Although it edits the set it walks over, the result is an antichain covering all other ancestors, and its ancestors are exactly those if and only if i is on no cycle |
| `DepGraphs.ReducedParentsExact` | src/cluster_linearize.h:202-204 | Covering parents have exactly the right ancestors if and only if i is on no cycle |
| `DepGraphs.DepGraph.Remap` | src/cluster_linearize.h:74-111 | Rebuilding from reduced parents under any injective mapping never invents ancestry, and loses none if the graph is acyclic |
| `DepGraphs.RemapComplete` | src/cluster_linearize.h:103-108 | Reduced parents alone determine all ancestry of an acyclic graph, up to the mapping |
| `DepGraphs.FindConnectedComponent` | src/cluster_linearize.h:253-280 | The component of the first transaction: connected, and unrelated to the rest of `todo` |
| `Chunking.ChunksCorrect` | src/cluster_linearize.h:369-386 | Absorbing lower-feerate chunks yields chunks of non-increasing feerate none of whose prefixes beats the chunk |
| `Chunking.ChunkingUnique` | src/cluster_linearize.h:369-386 | Such a partition of a linearization is unique |
| `LinearizationChunkings.ChunkLinearization` | src/cluster_linearize.h:372-387 | The loop returns the feerates of these chunks |
| `Diagrams.DominatesIffDiagram` | src/cluster_linearize.h:1297-1300 | The best prefix is worth as much for every slope if and only if the diagram (piecewise linear over the reals) is nowhere below |
| `LinearizationChunkings.LinearizationChunking.constructor` | src/cluster_linearize.h:410-448 | The chunks are those of the whole linearization |
| `LinearizationChunkings.LinearizationChunking.MarkDone` | src/cluster_linearize.h:461-481 | Fast path or rebuild, the chunks left are those of the original linearization without what is done |
| `LinearizationChunkings.LinearizationChunking.RemainingIsChunked` | src/cluster_linearize.h:450-458 | Those chunks are the unique chunking of what remains |
| `LinearizationChunkings.LinearizationChunking.IntersectPrefixes` | src/cluster_linearize.h:483-516 | The shortest intersection with a prefix of the remaining chunks whose feerate is not below the set's, or the set itself, with its true feerate |
| `LinearizationChunkings.IntersectionIsSafe` | src/cluster_linearize.h:486-491 | If no chunk beats the set, every part that moving the intersection to the front puts ahead is worth it, for every slope |
| `Linearizations.SafeFrontDominates` | src/cluster_linearize.h:486-491 | Moving a safe set to the front leaves a diagram nowhere below the old one |
| `Linearizations.AppendTopo` | src/cluster_linearize.h:297-311 | Appends the selected transactions in a topological order |
| `Merging.MergeLinearizations` | src/cluster_linearize.h:1297-1337 | The result is a topologically valid permutation whose diagram is nowhere below that of either input |
| `CandidateFinders.AncestorCandidateFinder.MarkDone` | src/cluster_linearize.h:569-586 | Subtracting feerates in place keeps every ancestor-set feerate exact for what is left |
| `CandidateFinders.AncestorCandidateFinder.FindCandidateSet` | src/cluster_linearize.h:600-617 | A remaining ancestor set with its true feerate; no remaining ancestor set is better |
| `CandidateTheory.BestNotSplit` | src/cluster_linearize.h:762-777 | A best set lies within one part of any split into unrelated parts, so one work item per component suffices |
| `CandidateTheory.BestConnected` | src/cluster_linearize.h:762-777 | A best set is connected |
| `CandidateTheory.PotBounds` | src/cluster_linearize.h:797-813 | The greedy potential set bounds every improving set compatible with a work item |
| `CandidateTheory.JumpAhead` | src/cluster_linearize.h:815-835 | Every topologically valid subset of the potential set is part of the optimal set, so jumping ahead keeps it |
| `CandidateTheory.PruneNoImprovement` | src/cluster_linearize.h:884-890 | A work item without undecided improving transactions cannot beat the best set |
| `CandidateSearch.BestSplitsWell` | src/cluster_linearize.h:899-935 | Before anything is included, the transaction chosen to split on leaves one half with at least two undecided transactions fewer, if no transaction without other ancestors left beats the set started from |
| `SearchCosts.SplitShare` | src/test/fuzz/cluster_linearize.cpp:653-657 | The shares of iterations of the two halves of a split, and the split itself, fit in the share of the item that is split |
| `CandidateSearch.SearchSorted` | src/cluster_linearize.h:717-986 | The search on sorted positions, queue bound included: as `FindCandidateSet` below |
| `CandidateFinders.SearchCandidateFinder.constructor` | src/cluster_linearize.h:662-692 | Sorting by feerate and mapping forth and back gives an isomorphic graph |
| `CandidateFinders.SearchCandidateFinder.FindCandidateSet` | src/cluster_linearize.h:700-986 | A nonempty ancestor-closed subset of what is left with its true feerate, not worse than the given one; with fewer than the allowed iterations, none is better and it is connected; it takes at most 2^(n-1) iterations for n transactions, and at most 2^n / 3 if the given set is not beaten by a transaction that has no other ancestor left |
| `Linearizations.OptimalFrontDominates` | src/cluster_linearize.h:1010-1017 | Taking an optimal set first is never worse than any linearization |
| `SearchCosts.RoundAffordable` | src/cluster_linearize.h:1056-1068 | With enough iterations left, half of what remains after the start-up costs is more than a search needs, and enough is left for the smaller rounds |
| `SearchCosts.CostsBelowPower` | src/test/fuzz/cluster_linearize.cpp:874-880 | 2^n iterations cover all rounds and start-up costs of n transactions |
| `Linearizing.Linearize` | src/cluster_linearize.h:1001-1094 | A topologically valid permutation, nowhere below the old linearization, and nowhere below any linearization when reported optimal; with more than 2^n iterations allowed for n transactions it is reported optimal |
| `Regrouping.RegroupCorrect` | src/cluster_linearize.h:1115-1140 | A pass yields connected groups in non-increasing feerate order, topologically valid, whose concatenation is nowhere below the input |
| `Regrouping.PostLinearizedCorrect` | src/cluster_linearize.h:1096-1103 | After both passes the chunks are exactly the final groups, each connected, and the result is nowhere below the input |
| `Trees.TreeOptimal` | src/cluster_linearize.h:1104-1105 | With at most one child (or at most one parent) each, the result is nowhere below any linearization |
| `MovedLeaf.MovedLeafNotWorse` | src/cluster_linearize.h:1106-1110 | Moving a leaf to the end and raising its fee, then post-linearizing, is nowhere below the original |
| `PostLinearizing.MergeSwapCycle` | src/cluster_linearize.h:1229-1270 | The merge-swap cycle on the linked lists inserts a transaction into the groups |
| `PostLinearizing.WriteBack` | src/cluster_linearize.h:1273-1293 | Following the lists writes back the concatenated groups, reversed in a backward pass |
| `PostLinearizing.Pass` | src/cluster_linearize.h:1206-1294 | One pass over the array computes the specified pass |
| `PostLinearizing.PostLinearize` | src/cluster_linearize.h:1112-1295 | In place: topologically valid, nowhere below the input, connected chunks, optimal on trees |
| `CheckQueues.StepInv` | src/checkqueue.h:72-137 | Every step keeps: `nTodo` counts queued plus held checks, idle and total counters are right, recorded results are truthful, a sleeping master is notified when nothing is left |
| `CheckQueues.ReachableInv` | src/checkqueue.h:71-189 | All this holds in every state of every interleaving, and every returned round is empty exactly when its checks pass, else blames one of its own checks |
| `CheckQueues.NeverStuck` | src/checkqueue.h:89-110 | As long as the master is in Complete some thread can make progress: no lost wake-up |
| `CheckQueues.ReachableWatched` | src/checkqueue.h:184-188 | In every interleaving, while checks are queued and nobody is about to notify, a worker is awake or notified (if there are workers), whether or not the master calls Complete |
| `CheckQueues.ManyWakeAll` | src/checkqueue.h:184-188 | After several checks were added, no worker sleeps on |
| `CheckQueues.BatchIsLargest` | src/checkqueue.h:116-121 | A batch is the largest that the limit and a fair share of the queue allow, and at least one check |
| `CheckQueues.BusyRunBounded` | src/checkqueue.h:97-136 | The number of steps without spurious wake-ups is bounded by the work left |
| `CheckQueues.CompleteReturns` | src/checkqueue.h:164-169 | Once no such step is left, the master has returned the correct result of its own round |
| `CheckQueues.CheckQueue.constructor` | src/checkqueue.h:143-155 | The object starts in the initial state |
| `CheckQueues.CheckQueue.EnterSection` | src/checkqueue.h:80-127 | The critical section performs the enter step: clean-up, return, wait or take a batch |
| `CheckQueues.CheckQueue.WakeSection` | src/checkqueue.h:98-127 | Waking performs the wake step |
| `CheckQueues.CheckQueue.RunCheck` | src/checkqueue.h:128-135 | Running checks performs the run step |
| `CheckQueues.CheckQueue.AddChecks` | src/checkqueue.h:171-189 | Adding checks performs the add step; nothing happens for no checks |
| `CoinMaps.AddFlagsThreaded` | src/coins.h:132-144 | Flagging an entry links it at the end of the circular list if it was unflagged |
| `CoinMaps.SetCleanThreaded` | src/coins.h:172-187 | Cleaning or erasing an entry unlinks exactly it; the rest stays linked both ways |
| `CoinsViews.AddConsistent` | src/coins.cpp:72-111 | The FRESH and DIRTY flags set by AddCoin keep their promise about the view below |
| `CoinsViews.FreshExact` | src/coins.h:93-110 | In a consistent cache an entry is FRESH if and only if nothing can be below it, whatever the base holds |
| `CoinsViews.AddFreshExact` | src/coins.cpp:83-104 | An added coin is marked FRESH if and only if nothing can be below it |
| `CoinsViews.AddThenSpend` | src/coins.cpp:72-150 | A coin added where there was no entry and spent again leaves no trace; where there was a spent DIRTY entry, one is left |
| `CoinsViews.SpendConsistent` | src/coins.cpp:130-150 | Erasing a FRESH entry or keeping a spent DIRTY one removes the coin from the view |
| `CoinsViews.SpendExact` | src/coins.cpp:130-150 | Spending forgets the entry if and only if nothing can be below it, else keeps a spent DIRTY one |
| `CoinsViews.FreshNotMisapplied` | src/coins.cpp:212-220 | The "FRESH flag misapplied" error cannot occur |
| `CoinsViews.WrittenAll` | src/coins.cpp:183-248 | Writing all flagged entries gives the base the child's view and keeps its flags truthful |
| `CoinsViews.WriteUpExact` | src/coins.cpp:183-248 | What is written to a base cache is FRESH there, or not kept if it is spent, if and only if nothing can be below either entry |
| `CoinsViews.VisitedAll` | src/coins.h:284-298 | Entries cleaned or dropped while writing agree with the new base |
| `Coins.CoinsStore.WriteEntry` | src/txdb.cpp:119-127 | The database erases spent DIRTY coins and writes unspent ones |
| `Coins.CoinsViewCache.FetchCoin` | src/coins.cpp:48-64 | Fetching changes no view; found exactly if the view, this cache or the store right below has an entry, and then the entry is what the base holds, FRESH if that is a spent coin |
| `Coins.CoinsViewCache.GetCoin` | src/coins.cpp:66-70 | The coin the view shows, never a spent one |
| `Coins.CoinsViewCache.HaveCoin` | src/coins.cpp:163-166 | Whether the view shows the coin |
| `Coins.CoinsViewCache.AddCoin` | src/coins.cpp:72-111 | The view gains the coin unless it is unspendable; the entry is DIRTY, and FRESH exactly when nothing can be below it |
| `Coins.CoinsViewCache.SpendCoin` | src/coins.cpp:130-150 | The view loses the coin, which is moved out; the result is true exactly if the view, this cache or the store right below has an entry, spent or not; the entry is gone or a spent DIRTY one, no other entry changes |
| `Coins.CoinsViewCache.Uncache` | src/coins.cpp:274-287 | No view changes; an entry without flags is gone, all others stay |
| `Coins.CoinsViewCache.BatchWrite` | src/coins.cpp:183-248 | The receiving cache shows what the child showed and holds exactly the entries written to it; the loop over the child's list terminates |
| `Coins.CoinsViewCache.Flush` | src/coins.cpp:250-259 | The view stays, the base shows it, the cache is empty |
| `Coins.CoinsViewCache.Sync` | src/coins.cpp:261-272 | The view stays, the base shows it, and exactly the unspent entries are left, without flags |
| `Coins.CoinsViewCache.SanityCheck` | src/coins.cpp:315-346 | No assertion fails: permitted states, consistent links, equal recounts of usage and flagged entries |
| `Coins.Run` | src/coins.cpp:48-287 | On a stack of any depth, any run of operations on the top cache shows what a plain map shows |
| `AddrMans.AddrMan.Find` | src/addrman.cpp:401-414 | The only id with that address, if there is one |
| `AddrMans.AddrMan.Create` | src/addrman.cpp:416-430 | A new id, entered in all indexes and counted |
| `AddrMans.AddrMan.SwapRandom` | src/addrman.cpp:432-454 | Two entries trade places in the random order, positions updated |
| `AddrMans.AddrMan.Delete` | src/addrman.cpp:456-471 | The entry leaves all indexes and counters |
| `AddrMans.AddrMan.ClearNew` | src/addrman.cpp:473-489 | The position is empty; an entry that lost its last reference is deleted; all invariants hold |
| `AddrMans.AddrMan.MakeTried` | src/addrman.cpp:491-548 | The entry leaves every new position and takes its tried one; what was there goes to its own new position; no other position, tried or new, and no statistics change; no assertion fails |
| `AddrMans.AddrMan.AddSingle` | src/addrman.cpp:550-624 | Exactly which announcements, for which draw, get a position; the new table changes there and nowhere else, the tried table not at all; a known entry is refreshed, an unknown one is made with the announced time, services and source and stays only if added; nothing else is known differently |
| `AddrMans.AddrMan.Good` | src/addrman.cpp:626-679 | Moves exactly the known new addresses whose tried position is free or may be evicted; records a collision exactly if the position is occupied, must be tested first and fewer than ten are recorded; the success is noted with its time, both tables change nowhere else |
| `AddrMans.AddrMan.Attempt` | src/addrman.cpp:693-711 | Changes only that entry: the time, and the failure count at most once between successes |
| `AddrStats.FailuresBounded` | src/addrman.cpp:693-711 | Over any run of attempts and successes, failures count at most once between two successes with any address |
| `AddrStats.OutageHarmless` | src/addrman.cpp:69-92 | While fewer than two other connections succeed, no number of attempts makes a recently announced new address terrible |
| `AddrStats.ThreeFailures` | src/addrman.cpp:69-92 | Three failures, each after another success elsewhere, make an address that never succeeded terrible |
| `AddrStats.SuccessLasts` | src/addrman.cpp:69-92 | For a week after a success no number of failures makes a recently announced address terrible |
| `AddrStats.RefreshedUpToDate` | src/addrman.cpp:562-573 | The time of an entry never goes back and never falls more than a day (an hour, if online) behind what is announced; repeating an announcement changes nothing |
| `AddrStats.WorkingStays` | src/addrman.cpp:932-962 | A tried entry that succeeded within four hours, or was tried within a minute, keeps its position against a recorded collision |
| `AddrStats.FailedGivesWay` | src/addrman.cpp:932-962 | One that was tried since, but has not succeeded for four hours, makes room, and the collision is over |
| `AddrStats.CollisionEnds` | src/addrman.cpp:912-973 | A collision is over forty minutes after the success that caused it, unless its opponent was tried within the last minute |
| `AddrMans.AddrMan.ResolveCollisions` | src/addrman.cpp:912-973 | Each recorded collision in turn, judged by the tables at that moment: it is dropped exactly if settled, and its opponent replaced exactly if that has had its time, both tables changing accordingly and nowhere else; every position it follows is occupied |
| `AddrMans.AddrMan.SelectTriedCollision` | src/addrman.cpp:975-1001 | The id it looks up is known, never -1, and the result is the address and last try of the entry in the tried position of the drawn id |
| `AddrChecks.CheckAddrman` | src/addrman.cpp:1063-1166 | The counting loops return 0 exactly if all conditions hold, whatever the tables contain |
| `AddrChecks.ConsistentPasses` | src/addrman.cpp:1063-1166 | The invariant implies every one of these conditions, so the check returns 0 |
| `AddrMans.Run` | src/addrman.cpp:416-1001 | After any run of add, good, attempt, resolve and select, CheckAddrman returns 0, no tried position has been emptied and no id reused |
| `HeadersSyncing.HeadersSync.constructor` | src/headerssync.cpp:26-47 | The object starts in PRESYNC at the start block |
| `HeadersSyncing.HeadersSync.Finalize` | src/headerssync.cpp:49-64 | Everything is cleared and the state is FINAL |
| `HeadersSyncing.HeadersSync.ValidateAndProcessSingleHeader` | src/headerssync.cpp:178-214 | Accepts exactly permitted difficulty transitions within the commitment limit |
| `HeadersSyncing.HeadersSync.ValidateAndStoreHeadersCommitments` | src/headerssync.cpp:140-176 | Accepts exactly messages that extend the permitted chain; switches to REDOWNLOAD exactly with enough work |
| `HeadersSyncing.HeadersSync.ValidateAndStoreRedownloadedHeader` | src/headerssync.cpp:216-279 | Accepts exactly headers that link, are permitted and match the commitment due |
| `HeadersSyncing.StoredOk` | src/headerssync.cpp:244-276 | A header passes the commitment check exactly if the commitments of what was received are a prefix of those stored, or the work suffices |
| `HeadersSyncing.OneCommitmentPerPeriod` | src/headerssync.cpp:196-198 | Among 632 consecutive heights exactly one carries a commitment |
| `HeadersSyncing.WrongBitRefused` | src/headerssync.cpp:244-267 | Below the minimum work, a header whose bit at a committed height differs from the header first seen there is refused |
| `HeadersSyncing.TruePredecessor` | src/headerssync.cpp:230-242 | The difficulty check uses the true predecessor, from the buffer or the start block |
| `HeadersSyncing.PopOneOk` | src/headerssync.cpp:288-293 | A released header is, field for field, the next received one |
| `HeadersSyncing.HeadersSync.PopHeadersReadyForAcceptance` | src/headerssync.cpp:281-295 | Without enough work exactly what exceeds the buffer size is released, with enough work everything |
| `HeadersSyncing.HeadersSync.ProcessNextHeaders` | src/headerssync.cpp:66-138 | The state machine: a redownloaded message succeeds exactly if chain and commitments match; then exactly what exceeds the buffer, or with enough work everything, is released; over the whole run that is a prefix of an unbroken permitted chain |
| `HeadersSyncing.ServeFirst` | src/headerssync.cpp:69-214 | A permitted chain with enough work is accepted in PRESYNC in any batching |
| `HeadersSyncing.ServeAgain` | src/headerssync.cpp:69-295 | Served again in any batching, no message is rejected, and headers up to one with enough work are released |
| `ArithUint.Add` | src/arith_uint256.h:116-126 | Addition modulo 2^BITS, at every width |
| `ArithUint.Increment` | src/arith_uint256.h:154-161 | Increment modulo 2^BITS |
| `ArithUint.Negate` | src/arith_uint256.h:58-65 | Two's complement |
| `ArithUint.Sub` | src/arith_uint256.h:128-132 | Subtraction modulo 2^BITS, through negation |
| `ArithUint.CompareTo` | src/arith_uint256.cpp:102-111 | The order of the numbers |
| `ArithUint.Bits` | src/arith_uint256.cpp:156-168 | The bit length |
| `ArithShift.ShiftLeft` | src/arith_uint256.cpp:14-28 | Multiplication by 2^shift modulo 2^BITS |
| `ArithShift.ShiftRight` | src/arith_uint256.cpp:31-45 | Floor division by 2^shift |
| `ArithMulDiv.Mul` | src/arith_uint256.cpp:60-73 | Multiplication modulo 2^BITS |
| `ArithMulDiv.ProductFits` | src/arith_uint256.cpp:64-69 | The 64-bit intermediate sum never overflows |
| `ArithMulDiv.Div` | src/arith_uint256.cpp:76-99 | Shift-subtract division is floor division; it fails exactly for a zero divisor |
| `BlockWork.SetCompact` | src/arith_uint256.cpp:175-193 | The target cut off at 256 bits, and exactly when it is negative or does not fit |
| `BlockWork.OverflowExact` | src/arith_uint256.cpp:189-191 | The overflow test on the parts is exact |
| `CompactTargets.GetCompact` | src/arith_uint256.cpp:195-216 | The compact form of the number, in the fewest bytes that leave the sign bit clear; its assertions hold |
| `CompactTargets.CompactRounds` | src/arith_uint256.cpp:175-216 | Reading it back gives the number with all but its leading two or three bytes cleared, in range, with its sign |
| `CompactTargets.CompactRoundTrip` | src/arith_uint256.cpp:175-216 | SetCompact followed by GetCompact is the identity exactly on canonical compact forms |
| `BlockWork.GetBlockProof` | src/chain.cpp:131-144 | floor(2^256 / (target + 1)) for every valid target, else zero; never divides by zero |
| `BlockTree.GetAncestor` | src/chain.cpp:93-118 | Equals following parent pointers, for every height, and terminates |
| `BlockTree.BuildSkip` | src/chain.cpp:125-129 | Keeps all skip pointers on ancestors at their skip height |
| `BlockTree.CChain.SetTip` | src/chain.cpp:21-29 | Every slot holds the new tip's ancestor although the loop stops at the first match |
| `BlockTree.CChain.FindFork` | src/chain.cpp:60-69 | The highest ancestor of the block that is in the chain |
| `BlockTree.LastCommonAncestor` | src/chain.cpp:163-180 | A common ancestor above which the two branches share no block |
| `Gf32.GenerateGF32Tables` | src/codex32.cpp:36-68 | The tables hold the powers of x modulo x^5 + x^3 + 1 and their logarithms |
| `Gf32.MulIsProduct` | src/codex32.cpp:74-79 | Table multiplication is the field product, without zero divisors |
| `Checksums.ChecksumVerifies` | src/codex32.cpp:189-201 | Over any generator, a payload followed by its checksum leaves the target residue |
| `Checksums.BurstDetected` | src/codex32.cpp:115-187 | A change within as many consecutive symbols as the checksum has always changes the residue, at any length |
| `Codex32.PolyMod` | src/codex32.cpp:115-173 | The in-place loop computes the remainder |
| `Codex32.VerifyChecksum` | src/codex32.cpp:177-187 | Accepts exactly the target residue |
| `Codex32.CreateChecksum` | src/codex32.cpp:191-201 | What it appends verifies |
| `Codex32.ChangeDetected` | src/codex32.cpp:115-187 | A change within 13 (long code: 15) symbols stops a string verifying |
| `Codex32.TargetsSpelled` | src/codex32.cpp:89-97 | In the characters of Bech32 the targets spell "secretshare32" and "secretshare32ex" |
| `Codex32Errors.ShortRoots` | src/codex32.cpp:99-102 | Eight powers of e, from e^396 in steps of 44, are roots of the short generator |
| `Codex32Errors.LongRoots` | src/codex32.cpp:104-107 | Eight powers of e, from e^94 in steps of 488, are roots of the long generator |
| `Codex32Errors.EightErrorsDetected` | src/codex32.cpp:134-136 | Up to eight changed symbols anywhere within a window of 93 (long code: 1023) always change the remainder, at any length |
| `Codex32Errors.ChangesDetected` | src/codex32.cpp:115-187 | A string with up to eight such changes stops verifying |
| `Bech32.PolyMod` | src/bech32.cpp:115-201 | The bit-level accumulator computes the same remainder over the BCH generator |
| `Bech32.VerifyChecksum` | src/bech32.cpp:296-309 | Answers with the one encoding whose residue the string leaves, or with neither |
| `Bech32.CreateChecksum` | src/bech32.cpp:311-323 | What it appends verifies as the same encoding |
| `Bech32.ChangeDetected` | src/bech32.cpp:115-309 | A change within six symbols stops a string verifying under its encoding |
| `Bech32Strings.KnownStrings` | src/bech32.cpp:104-111 | A12UEL5L verifies as Bech32 and A1LQFN3A as Bech32m, read with the characters of Bech32 |
| `Bech32.ZeroInsertion` | src/bech32.cpp:296-304 | A string ending in the symbol one verifies as Bech32 if and only if it does with a zero put in before that symbol |
| `Bech32.NoZeroInsertion` | src/bech32.cpp:296-304 | No string of this kind verifies as Bech32m both with and without the zero |
| `BchBound.ErrorBound` | src/bech32.cpp:157-160 | The BCH bound, for any number n: a polynomial with at most n terms that vanishes at n powers at equal distances is zero, if these distances tell its places apart |
| `BchBound.ErrorsDetected` | src/bech32.cpp:157-160 | A generator with n such roots detects any n changed symbols |
| `PowersOfE.OrderOfE` | src/bech32.cpp:150-153 | e, with e^2 = {9}e + {23}, has order 1023: no smaller power leaves a nonzero element in place |
| `Bech32Errors.GeneratorRoots` | src/bech32.cpp:154-160 | e^997, e^998 and e^999 are roots of the generator |
| `Bech32Errors.ThreeErrorsDetected` | src/bech32.cpp:122-126 | Up to three changed symbols anywhere within a window of 1023 always change the remainder, at any length |
| `Bech32Errors.ChangesDetected` | src/bech32.cpp:115-309 | A string with up to three such changes stops verifying under its encoding |
| `Base58.EncodeBuffer` | src/base58.cpp:98-100 | The 138/100 estimate is always large enough |
| `Base58.DecodeBuffer` | src/base58.cpp:53-55 | The 733/1000 estimate is always large enough |
| `Base58.EncodeBase58` | src/base58.cpp:89-127 | The loops write the digits of the number, a '1' per leading zero; the carry is used up |
| `Base58.DecodeBase58` | src/base58.cpp:40-87 | The loops read the word between spaces, or refuse it; the carry is used up |
| `Base58.DecodedExactly` | src/base58.cpp:40-87 | A string decodes to given bytes if and only if it is their encoding with spaces around it, and the limit allows them |
| `Base58.Alphabet` | src/base58.cpp:19-38 | The digits are the letters and figures in ascending order, without those easily confused |
| `Base58.RoundTrip` | src/base58.cpp:40-127 | Decoding what was encoded gives the same bytes exactly within the length limit |

## Where code and comments differ

- `SpendCoin` says it has no effect if there is no unspent output (`src/coins.h:433-438`). It has no
  effect on the view, but it returns true if a spent entry is cached or stored right below; the
  contract states exactly when.

## Left out

- HeadersSyncing.ServeAgain: the batching is arbitrary, with messages before the last flagged full; a peer that flags them otherwise is covered by `ProcessNextHeaders` only.
- CandidateFinders.SearchCandidateFinder.FindCandidateSet: the bound of about the square root of 2^n iterations, which the fuzz test calls empirical and without proof, is not stated.
- Integer widths of fees, sizes, heights, counters, times and chain work are unbounded; only the limb arithmetic, compact targets and digit buffers model their widths.
- Bit sets are finite sets visited in ascending order; `std::sort` is insertion sort by the same keys; random choices are arbitrary choices.
- `GetReducedChildren` and the mutable access to feerates of `DepGraph`; `GetReducedChildren` mirrors `GetReducedParents`.
- `CompareChunks` and the serialization of cluster graphs.
- The optional search finder of `Linearize` is an object with a flag that says whether it is used.
- Check queue: the outcome of a check is fixed when it is added; the destructor, the stop request and the control object are not modelled.
- Coins: block hashes, failed writes, the throwing path of `AddCoin`, `EmplaceCoinInternalDANGER`, `AccessCoin`, memory pools and `ReallocateCache`; the usage of a coin is the length of a script too long to be stored inline, not what the allocator rounds it up to; the database writes in one batch.
- Address manager: `Select_`, `GetAddr_`, `Connected_`, `SetServices_`, serialization; bucket and position hashes are arbitrary functions; a table is a map of its occupied positions; services are sets of flags.
- Headers sync: hashes, work per header and permitted transitions are arbitrary functions; the commitment limit is given; locators are not modelled. The fields are one record, with ghost history fields.
- Limb arithmetic: multiplication by a 32-bit word, decrement, bitwise operators, hexadecimal and floating-point conversions.
- Block tree: parents and heights are fixed when an index entry is made; locators, `FindEarliestAtLeast` and equivalent times.
- Bech32: the 30-bit accumulator is held as six 5-bit groups; the string format, `LocateErrors` and the detection of four errors within 89 symbols, which rests on an exhaustive search, are not modelled. Codex32: shares, headers and payload conversion.
- Base58: digit buffers are indexed from the least significant digit; checksummed Base58 is not modelled.
