# Verified model of SPTAG's algorithms and protocols and of the TiKV sidecar

This project models, in Dafny, the parts of the vector-search engine SPTAG and of its TiKV sidecar whose
correctness rests on more than one function, and proves what they are for. `dafny verify dfyconfig.toml` checks
all of it.

* **Head selection** (`ClusterTree`, `HeadGrouping`, `HeadSearch`, `HeadRevisit`, `HeadStatic`). A recursive pass
  closes clusters of a clustering tree once they reach a size; two drivers search for the thresholds that select the wanted share of
  vectors. The value the pass returns ignores the split threshold, so the selected set only shrinks as that threshold
  grows, and bisection equals exhaustive search. The randomised driver ends for every sequence of random steps, and only
  for a reason. Which centres a pass selects is also stated on nodes and their open children alone. Static selection walks
  small clusters up to a large enough ancestor.
* **Capacity-limited partition** (`Ordering`, `CapacityCut`, `HardAssign`, `QuotaRounds`, `Exchange`,
  `PartitionRun`). Every rank assigns its vectors to their c-th nearest centre, sorts the assignments and cuts each cluster at a local quota; the
  quotas are rebuilt from global counts; the labels then drive the exchange of vectors. The array code is proved
  equal to a column given by ranks alone, the protocol theorems hold for any number of ranks, columns and data, and the
  whole run, rounds and exchange, is proved to be the protocol. What every file holds is stated from the distances, the
  capacity and the number of ranks alone.
* **Scatter and gather** (`Gather`, `GatherRest`). Response threads, the timeout checker and failing sends race to
  finish the slots of a request. Each atomic or locked action is one step; the theorems are about every interleaving, and
  replies, failures and deadlines are read off the steps.
* **Sidecar** (`Wire`, `Sidecar`, `MultiGet`). Handlers share a buffered channel that limits store calls and take turns
  on a connection's writer; MultiGet is batched and packs its reply by hand.
* **Storage** (`ChunkedVector`, `Metadata`). A block table behaves as one sequence; two byte buffers and an offset
  table behave as a list of blobs, through adds, refusals, saving, sliced loading and compaction.
* **Top-k scan** (`TopKScan`), **relative-neighbourhood pruning under work stealing** (`Rng`), **size estimates**
  (`Estimates`) and **Base64** (`Base64`, section 4 of RFC 4648).

`Common` holds shared vocabulary, and `Bits` proves what shifts and masks are in arithmetic.

Code that updates state in place is modelled by classes, arrays and loops and proved against specification
functions. Threads are modelled as state machines whose steps are the code's atomic actions. Distances and ratios are
reals, library sorts are any sort with the promised order, and the clock, the random generator, the network and the
key-value store are inputs.

Where the code does something other than what it seems meant to do, the code is followed and the exact condition is
proved: the unsigned capacity test of the chunked vector (`ChunkedVector.CapacityTest`), the capacity of a metadata
set, which is one blob less than its argument (`Metadata.AddsUpToCapacity`), compaction of a file with bytes beyond
its last offset or with blobs added between its two locks (`Metadata.KeptExactlyWhenPrefix`), the wrapped reservation of
the chunked vector (`ChunkedVector.LockFreeVector.constructor`), ranks that disagree on carrying metadata
(`PartitionRun.ExchangeAll`), the removal of the root's id, which can take away the only head of a small cluster
(`HeadStatic.SelectHeadStatically`, `HeadStatic.OnlyRootLarge`), the 32-bit length fields of the sidecar
(`Wire.ParsesBack`, `MultiGet.ResultsRoundTrip`), the pad check of the Base64 decoder (`Base64.EncodeInvertsDecode`),
the overflow of the size estimates (`Estimates.EstimatesAgree`), and failed sends of the aggregator, which make a
request answer twice (`Gather.GatherExactlyOnce`, `GatherRest.TwoAnswers`). Static selection never drains its queue of
small clusters in a tree without a deep candidate, which is proved harmless (`HeadStatic.UndrainedIsHarmless`).

## Model

| member | source | states |
|---|---|---|
| `ClusterTree.SiblingsDisjoint` | SPTAG/AnnService/inc/Core/Common/BKTree.h:24-31 | In a tree laid out as an index array whose children come after their parent, two siblings never reach the same node when parents are unique. |
| `ClusterTree.SubtreeDistinct` | SPTAG/AnnService/inc/Core/Common/BKTree.h:24-31 | A subtree lists each of its nodes once, so its length counts nodes. |
| `ClusterTree.ParentInView` | SPTAG/AnnService/inc/Core/Common/BKTree.h:24-31 | Every node below a range of siblings has its parent in the same view, at a smaller index. |
| `HeadGrouping.SelectInternal` | SPTAG/AnnService/inc/SSDServing/SelectHead.h:420-469 | The in-place recursive pass appends exactly the centres the forest-recursive specification names, after whatever was selected before, and returns a residue in whose definition the split threshold does not occur. |
| `HeadGrouping.GatherChildren` | SPTAG/AnnService/inc/SSDServing/SelectHead.h:425-441 | The loop over children leaves the list of still-open children in child order, their sizes summed, and all deeper pushes already made. |
| `HeadGrouping.PushFirst` | SPTAG/AnnService/inc/SSDServing/SelectHead.h:459-462 | The splitting loop pushes the centres of exactly the leading sorted children. |
| `HeadGrouping.SelectCount` | SPTAG/AnnService/inc/SSDServing/SelectHead.h:457-457 | The number of children a split pushes is the ceiling of size over factor. |
| `HeadGrouping.PushesAntitone` | SPTAG/AnnService/inc/SSDServing/SelectHead.h:420-469 | Raising the split threshold never selects a new centre: the selected set is antitone in it. |
| `HeadGrouping.SplitPicksLargest` | SPTAG/AnnService/inc/SSDServing/SelectHead.h:452-462 | For every descending sort, the children a split pushes hold at least as many open nodes as each child it leaves, and none is lost or repeated. |
| `HeadGrouping.LooseCounts` | SPTAG/AnnService/inc/SSDServing/SelectHead.h:425-469 | The sizes the pass adds up are the numbers of nodes actually left open. |
| `HeadGrouping.GroupsPartition` | SPTAG/AnnService/inc/SSDServing/SelectHead.h:420-469 | Closed groups and loose nodes together are the forest, each node once. |
| `HeadGrouping.ClosedAreLarge` | SPTAG/AnnService/inc/SSDServing/SelectHead.h:443-466 | Every group that closes has at least the select threshold of nodes. |
| `HeadGrouping.PushesBounded` | SPTAG/AnnService/inc/SSDServing/SelectHead.h:443-466 | Pushes never exceed two for each closed group plus the closed nodes over the split factor. |
| `HeadGrouping.GroupConservation` | SPTAG/AnnService/inc/SSDServing/SelectHead.h:420-469 | For a select threshold T >= 1 the N nodes of a subtree split into closed groups of at least T and a residue below T equal to the returned value; at most N/T groups close and at most 2N/T + N/splitFactor centres are pushed. |
| `HeadGrouping.PickedAreLargest` | SPTAG/AnnService/inc/SSDServing/SelectHead.h:452-462 | The children a split pushes are distinct open children of the node, as many as the ceiling says or all of them, and none left out holds more open nodes. |
| `HeadGrouping.SelectedExactly` | SPTAG/AnnService/inc/SSDServing/SelectHead.h:420-469 | A pass selects a centre if and only if some node of the subtree, whose group (itself and what its children leave open) reaches the select threshold, has that centre below the root's, or has a group above the split threshold and that is the centre of one of its ceil(size / factor) largest open children. |
| `HeadSearch.SortUnique` | SPTAG/AnnService/inc/SSDServing/SelectHead.h:508-509 | Sort and unique give the strictly increasing list of the same centres. |
| `HeadSearch.SortUniqueMonotone` | SPTAG/AnnService/inc/SSDServing/SelectHead.h:508-509 | A list contained in another has no more distinct centres. |
| `HeadSearch.HeadsExactly` | SPTAG/AnnService/inc/SSDServing/SelectHead.h:504-511 | The heads of a threshold pair are, in increasing order, exactly the centres that some node of the tree selects. |
| `HeadSearch.OffsetMeans` | SPTAG/AnnService/inc/SSDServing/SelectHead.h:511-511 | The wanted ratio plus the offset, times the number of vectors, is the number of heads. |
| `HeadSearch.OffsetAntitone` | SPTAG/AnnService/inc/SSDServing/SelectHead.h:507-511 | The signed distance from the wanted ratio never rises with the split threshold. |
| `HeadSearch.Probe` | SPTAG/AnnService/inc/SSDServing/SelectHead.h:504-511 | A probe leaves the sorted distinct heads of its threshold pair, whatever was in the list, and reports their offset. |
| `HeadSearch.ProbeCovers` | SPTAG/AnnService/inc/SSDServing/SelectHead.h:519-534 | The half of the range a bisection step discards holds nothing closer than the probe itself. |
| `HeadSearch.Bisect` | SPTAG/AnnService/inc/SSDServing/SelectHead.h:499-535 | Bisection ends at least as close as every split threshold strictly inside the range; the best pair it reports is the given one or one it reached; and the last split threshold it tried lies where the range goes from selecting too much to selecting at most what is wanted, or just before. |
| `HeadSearch.SelectAll` | SPTAG/AnnService/inc/SSDServing/SelectHead.h:479-487 | When the wanted number reaches the number of vectors, all ids in order are selected. |
| `HeadSearch.SelectHeadDynamicallyOld` | SPTAG/AnnService/inc/SSDServing/SelectHead.h:471-550 | The bisecting driver equals exhaustive search over the whole grid of threshold pairs; it keeps the given pair exactly when every offset of the grid is 100 or more; the final list is that of the chosen pair. |
| `HeadSearch.NextStep` | SPTAG/AnnService/inc/SSDServing/SelectHead.h:644-679 | The next move goes against the split/select ratio, starts at one after a turn and doubles until it reaches 128, stops only on target, and otherwise asks for a random try. |
| `HeadSearch.SplitLimitMeans` | SPTAG/AnnService/inc/SSDServing/SelectHead.h:597-597 | The range of split thresholds tried ends at sixteen fifths of the select threshold, rounded down, and always holds one. |
| `HeadSearch.TryThreshold` | SPTAG/AnnService/inc/SSDServing/SelectHead.h:594-637 | A select threshold is bisected the first time and remembered afterwards; the best pair stays best over all thresholds tried. |
| `HeadSearch.NextThreshold` | SPTAG/AnnService/inc/SSDServing/SelectHead.h:639-704 | A round ends by moving against the ratio of the two thresholds, by a random step when the threshold was met before or only the offset is off target, or by stopping for one of three reasons: both on target, a move that leads nowhere, or no random tries left. |
| `HeadSearch.SelectHeadDynamically` | SPTAG/AnnService/inc/SSDServing/SelectHead.h:552-717 | For every sequence of random steps the driver ends within vectorCount + max(1, maxRandomTry) rounds; every round follows from the one before, it stops only for one of those reasons, and its pair is at least as close as every split threshold of every select threshold it tried. |
| `HeadRevisit.DfsSelect` | SPTAG/AnnService/inc/SSDServing/SelectHead.h:164-205 | The pass records exact leaf counts in the whole subtree and the parent link of every node below its root, and touches no other row; in a tree visited for the first time it records the least distance to a leaf and lists the internal nodes, children before parents. |
| `HeadRevisit.AncestryIsChain` | SPTAG/AnnService/inc/SSDServing/SelectHead.h:164-205 | Every ancestor of a recorded node is met by following its recorded links. |
| `HeadRevisit.LeavesGrowUpward` | SPTAG/AnnService/inc/SSDServing/SelectHead.h:158-205 | A range of siblings has at least the leaves of each sibling. |
| `HeadRevisit.LargerAbove` | SPTAG/AnnService/inc/SSDServing/SelectHead.h:158-205 | Recorded leaf counts never fall along a parent link. |
| `HeadRevisit.LeavesAre` | SPTAG/AnnService/inc/SSDServing/SelectHead.h:158-205 | The leaf count of a node is the number of nodes at or below it that have no children. |
| `HeadRevisit.DepthMeans` | SPTAG/AnnService/inc/SSDServing/SelectHead.h:158-205 | The depth of a node is at most d exactly when a leaf lies at most d steps below it. |
| `HeadRevisit.DrainRevisit` | SPTAG/AnnService/inc/SSDServing/SelectHead.h:293-317 | Draining the queue ends, adds only centres of clusters with enough leaves, and provides for every queued node: it, or the node its chain reached, is selected. |
| `HeadRevisit.QueuedGetsHead` | SPTAG/AnnService/inc/SSDServing/SelectHead.h:293-317 | A provided node has, for every large cluster on its chain, a selected centre on the chain at or below that cluster. |
| `HeadRevisit.ChainIsAncestry` | SPTAG/AnnService/inc/SSDServing/SelectHead.h:158-325 | Following recorded links from a node visits its ancestors in the tree. |
| `HeadRevisit.RevisitSmallClusters` | SPTAG/AnnService/inc/SSDServing/SelectHead.h:277-325 | From an empty table to the drained queue: every small cluster below the root has, for each ancestor with enough leaves, a selected ancestor at or below that one; if no node has enough leaves nothing is added. |
| `HeadStatic.SelectCandidates` | SPTAG/AnnService/inc/SSDServing/SelectHead.h:276-373 | The candidate loop selects every large cluster next to the leaves and every further child a split of such a cluster counts, drains its queue exactly when some candidate lies more than one level above the leaves, then has every small cluster provided for; deeper candidates are added in order exactly as long as fewer than the limit are selected; nothing is selected without a reason. |
| `HeadStatic.CandidatesAreInternal` | SPTAG/AnnService/inc/SSDServing/SelectHead.h:203-203 | The pass lists exactly the internal nodes, each with its exact leaf count and depth. |
| `HeadStatic.UndrainedIsHarmless` | SPTAG/AnnService/inc/SSDServing/SelectHead.h:276-348 | Without a deep candidate every internal node is provided for although the queue is never drained. |
| `HeadStatic.Drain` | SPTAG/AnnService/inc/SSDServing/SelectHead.h:291-325 | After the drain every small cluster seen so far is provided for, nothing selected is lost, and only centres of large clusters are added. |
| `HeadStatic.SelectShallow` | SPTAG/AnnService/inc/SSDServing/SelectHead.h:328-348 | A cluster next to the leaves adds its own centre when it is large enough and the centres of exactly the second to the last child its split counts. |
| `HeadStatic.SelectHeadStatically` | SPTAG/AnnService/inc/SSDServing/SelectHead.h:237-375 | From the tree to the final set: the removed id is not in it; every large cluster next to the leaves is, with the further children its split counts; of the deeper nodes the nearest to the leaves and largest come first, and all are in unless the limit was reached; with the recursive check every small cluster has, for each ancestor with enough leaves and no node on the way that carries the removed id, a selected ancestor at or below that one; and every selected id has a reason in the tree. |
| `HeadStatic.SplitAndDeep` | SPTAG/AnnService/inc/SSDServing/SelectHead.h:237-373 | On the tree: every split has its children selected, no deeper node left out comes before one that was added, and none is left out unless the limit was reached. |
| `HeadStatic.OnlyRootLarge` | SPTAG/AnnService/inc/SSDServing/SelectHead.h:293-370 | When only nodes carrying the removed id, such as the root, have enough leaves, size selects nobody: what stays selected stays for its depth or for a split. |
| `CapacityCut.EdgeOrder` | SPTAG/AnnService/inc/Core/SearchResult.h:49-62 | The comparison used by the sort is a strict total order. |
| `CapacityCut.NearOrder` | SPTAG/AnnService/src/BalancedDataPartition/main.cpp:339-342 | Distance with ties by centre index is a strict total order. |
| `CapacityCut.Nearest` | SPTAG/AnnService/src/BalancedDataPartition/main.cpp:333-342 | A row ranks every centre once, by distance and then index. |
| `CapacityCut.NearestRank` | SPTAG/AnnService/src/BalancedDataPartition/main.cpp:333-346 | Position c of the ranking has exactly c centres before it: it is the c-th nearest. |
| `CapacityCut.NearestInjective` | SPTAG/AnnService/src/BalancedDataPartition/main.cpp:333-346 | Two columns never nominate the same centre for a row. |
| `CapacityCut.Item` | SPTAG/AnnService/src/BalancedDataPartition/main.cpp:344-356 | A row contributes a nomination with its index, or a sentinel that encodes the index as a negative number; the sign tells which. |
| `CapacityCut.RankingByCount` | SPTAG/AnnService/src/BalancedDataPartition/main.cpp:333-346 | A centre stands in the ranking of a row at the number of centres nearer by (distance, index). |
| `CapacityCut.ItemByDistance` | SPTAG/AnnService/src/BalancedDataPartition/main.cpp:344-356 | From the distances alone: a row nominates centre n, with its distance to n, if and only if exactly `column` centres come before n and that distance is at most the closure times the least one; otherwise it contributes the sentinel. |
| `CapacityCut.NomineesOffer` | SPTAG/AnnService/src/BalancedDataPartition/main.cpp:344-356 | The nominees of a centre are exactly the rows that offer themselves to it. |
| `CapacityCut.LabelByDistance` | SPTAG/AnnService/src/BalancedDataPartition/main.cpp:383-440 | A row is labelled n if and only if it offers itself to n and fewer rows than n has room for are nearer to n or equally near and earlier; any other row is unassigned or labelled otherwise. |
| `CapacityCut.OffsetIsRank` | SPTAG/AnnService/src/BalancedDataPartition/main.cpp:372-396 | In the sorted list, the distance of an item from the start of its cluster is the number of rows of that cluster nearer by (distance, index). |
| `CapacityCut.KeptMatches` | SPTAG/AnnService/src/BalancedDataPartition/main.cpp:383-396 | Positions that survive the cut are exactly the rows whose rank is below the remaining limit. |
| `CapacityCut.NomineeCount` | SPTAG/AnnService/src/BalancedDataPartition/main.cpp:383-396 | The gap between two lower bounds is the number of rows nominating the cluster. |
| `CapacityCut.KeptCount` | SPTAG/AnnService/src/BalancedDataPartition/main.cpp:383-440 | A cluster keeps exactly the smaller of its remaining limit and its nominees. |
| `HardAssign.SliceSize` | SPTAG/AnnService/src/BalancedDataPartition/main.cpp:322-322 | The thread slices together cover every row. |
| `HardAssign.FillItems` | SPTAG/AnnService/src/BalancedDataPartition/main.cpp:326-358 | For every thread number the slices fill each row with its own item. |
| `HardAssign.SortItems` | SPTAG/AnnService/src/BalancedDataPartition/main.cpp:372-372 | The item list becomes a sorted rearrangement of all rows. |
| `HardAssign.SubtractCounts` | SPTAG/AnnService/src/BalancedDataPartition/main.cpp:374-382 | Limits become what is left after the counts of all threads. |
| `HardAssign.LowerBound` | SPTAG/AnnService/src/BalancedDataPartition/main.cpp:386-386 | The search finds the boundary between smaller nodes and the rest, also after earlier clusters were cut. |
| `HardAssign.DropRange` | SPTAG/AnnService/src/BalancedDataPartition/main.cpp:390-394 | A dropped item carries its row as a negative number and nothing else changes. |
| `HardAssign.CutClusters` | SPTAG/AnnService/src/BalancedDataPartition/main.cpp:383-396 | After the cut the items beyond each remaining limit, and only those, are flipped. |
| `HardAssign.FillTail` | SPTAG/AnnService/src/BalancedDataPartition/main.cpp:419-425 | Clearing the later columns of one row touches no earlier column and no other row. |
| `HardAssign.WriteItem` | SPTAG/AnnService/src/BalancedDataPartition/main.cpp:404-426 | One item labels its own row, counts it for its thread if kept, and decodes the row index of a dropped one. |
| `HardAssign.WriteLabels` | SPTAG/AnnService/src/BalancedDataPartition/main.cpp:398-440 | For every thread number each row of the column is written exactly once and the per-thread counts together grow by the kept items. |
| `HardAssign.SumCounts` | SPTAG/AnnService/src/BalancedDataPartition/main.cpp:443-452 | The reported counts are the sums over threads. |
| `HardAssign.CountsMembers` | SPTAG/AnnService/src/BalancedDataPartition/main.cpp:398-452 | The items counted for a cluster are as many as the rows labelled with it. |
| `HardAssign.HardMultipleClustersAssign` | SPTAG/AnnService/src/BalancedDataPartition/main.cpp:315-454 | Given limits at least the cumulative counts, the call writes the column in which each cluster keeps its nearest nominees up to the remaining limit, marks all other rows unassigned, and raises each count by the smaller of remaining limit and nominees; none of it depends on the thread number. |
| `QuotaRounds.Quota` | SPTAG/AnnService/src/BalancedDataPartition/main.cpp:619-621 | The share is the largest number that all ranks together can take of what is left: the shares fit into it and one more each would not; a full cluster gives none. |
| `QuotaRounds.InitialLimit` | SPTAG/AnnService/src/BalancedDataPartition/main.cpp:600-601 | Without a hard cut a rank may take all its rows in the first column, with one the largest equal share of the cut capacity. |
| `QuotaRounds.RefreshLimits` | SPTAG/AnnService/src/BalancedDataPartition/main.cpp:609-621 | New limits are the local counts plus the share of what the whole cluster has left. |
| `QuotaRounds.AssignColumn` | SPTAG/AnnService/src/BalancedDataPartition/main.cpp:605-608 | One call on arrays is the step the protocol takes, so the protocol theorems are about the program. |
| `QuotaRounds.KeptAlways` | SPTAG/AnnService/src/BalancedDataPartition/main.cpp:605-608 | The number of kept rows is determined for every input, without a sorted list at hand. |
| `QuotaRounds.LocalGrowth` | SPTAG/AnnService/src/BalancedDataPartition/main.cpp:605-608 | A column raises a local count by the smaller of what its limit leaves and its nominees. |
| `QuotaRounds.LimitsAlwaysCover` | SPTAG/AnnService/src/BalancedDataPartition/main.cpp:600-624 | Every column of every run starts with each local limit at least the local cumulative count. |
| `QuotaRounds.RoundGrowth` | SPTAG/AnnService/src/BalancedDataPartition/main.cpp:605-622 | A column adds to a cluster, over all ranks, at most the number of ranks times the largest local remainder. |
| `QuotaRounds.RemainingIsShare` | SPTAG/AnnService/src/BalancedDataPartition/main.cpp:609-621 | From the second column on, what a rank may still take is its share of the global remainder. |
| `QuotaRounds.NeverPassesCapacity` | SPTAG/AnnService/src/BalancedDataPartition/main.cpp:605-624 | After the first column, whatever it did, a cluster at or over capacity never grows and one below never passes it. |
| `QuotaRounds.HardCutBound` | SPTAG/AnnService/src/BalancedDataPartition/main.cpp:600-624 | With a hard cut of h >= 1 no global count ever exceeds h times the capacity, for any ranks, columns and data. |
| `QuotaRounds.SoftFirstColumn` | SPTAG/AnnService/src/BalancedDataPartition/main.cpp:600-608 | Without a hard cut the first column keeps every nominee. |
| `QuotaRounds.RoomLeft` | SPTAG/AnnService/src/BalancedDataPartition/main.cpp:600-621 | What a rank may take in a column is its initial limit in the first one and later the quotient of what the cluster has left by the number of ranks, or nothing at capacity. |
| `QuotaRounds.HeldIsTotal` | SPTAG/AnnService/src/BalancedDataPartition/main.cpp:600-624 | The reduced count of every cluster after every column is that of a recursion on distances, capacity and number of ranks alone: a column adds, for each rank, the smaller of its room and the rows that offer themselves. |
| `QuotaRounds.ColumnTakes` | SPTAG/AnnService/src/BalancedDataPartition/main.cpp:605-624 | The column a rank assigns labels a row with n if and only if the row offers itself to n and fewer rows than the rank has room for stand before it. |
| `Exchange.ColumnsKept` | SPTAG/AnnService/src/BalancedDataPartition/main.cpp:605-624 | After n columns a rank holds exactly the n columns the assignment wrote. |
| `Exchange.NoClusterTwice` | SPTAG/AnnService/src/BalancedDataPartition/main.cpp:605-624 | No vector carries the same cluster in two columns. |
| `Exchange.LabelsTaken` | SPTAG/AnnService/src/BalancedDataPartition/main.cpp:605-624 | In every run, column c of a rank labels a row with cluster k if and only if k takes it in that column, from the distances alone, so k has exactly c nearer centres; every other label is the unassigned one. |
| `Exchange.SendsCount` | SPTAG/AnnService/src/BalancedDataPartition/main.cpp:764-782 | Counting labelled entries by rows or by columns gives the same number. |
| `Exchange.CumIsColumnSum` | SPTAG/AnnService/src/BalancedDataPartition/main.cpp:605-629 | The counter a rank accumulates over all rounds is the number of its labels with that cluster. |
| `Exchange.AnnouncedCount` | SPTAG/AnnService/src/BalancedDataPartition/main.cpp:760-782 | The count a rank announces equals the vectors it then sends. |
| `Exchange.SentOnce` | SPTAG/AnnService/src/BalancedDataPartition/main.cpp:764-782 | A rank sends a vector at most once for a cluster. |
| `Exchange.SendsBelong` | SPTAG/AnnService/src/BalancedDataPartition/main.cpp:764-782 | A rank sends for a cluster exactly the rows that the cluster takes in some column. |
| `Exchange.HeaderCount` | SPTAG/AnnService/src/BalancedDataPartition/main.cpp:625-688 | The header the owner writes equals the vectors all ranks contribute. |
| `Exchange.Receive` | SPTAG/AnnService/src/BalancedDataPartition/main.cpp:699-721 | A receive takes the first waiting message with its tag, past others, and waits for ever exactly when there is none. |
| `Exchange.ReceiveOne` | SPTAG/AnnService/src/BalancedDataPartition/main.cpp:701-722 | The receiver asks for metadata when it has metadata itself: it waits for ever exactly when the sender then has none, and leaves the length and bytes unread when it wants none. |
| `Exchange.ReceiveMeta` | SPTAG/AnnService/src/BalancedDataPartition/main.cpp:706-721 | Length and bytes are found, and the offset written is where the bytes start, exactly when the sender carries metadata. |
| `Exchange.MixedLeavesUnread` | SPTAG/AnnService/src/BalancedDataPartition/main.cpp:701-722 | A receiver without metadata leaves exactly two messages unread for every vector of a sender with metadata. |
| `Exchange.SendCluster` | SPTAG/AnnService/src/BalancedDataPartition/main.cpp:760-782 | The sender's double loop produces the announced count followed by the messages of exactly the rows it labelled. |
| `Exchange.ReceiveFrom` | SPTAG/AnnService/src/BalancedDataPartition/main.cpp:699-725 | Past messages left from earlier clusters and with a right announced count, the receiver gets through if and only if there is nothing to send, it wants no metadata or the sender has some, and leaves the queue as it found it if and only if there is nothing to send or both agree. |
| `Exchange.StoreLocal` | SPTAG/AnnService/src/BalancedDataPartition/main.cpp:728-746 | The owner stores its own rows of the label table exactly as if it had received them from itself. |
| `Exchange.GatherCluster` | SPTAG/AnnService/src/BalancedDataPartition/main.cpp:694-757 | The owner gets through if and only if no rank makes it wait for metadata, has then stored the ranks' vectors in rank order, and leaves its queues as they were if and only if every rank that has something to send carries metadata exactly when the owner does. |
| `Exchange.GatheredSize` | SPTAG/AnnService/src/BalancedDataPartition/main.cpp:694-757 | The gathered files hold as many vectors as the ranks send. |
| `Exchange.GatheredLists` | SPTAG/AnnService/src/BalancedDataPartition/main.cpp:694-757 | What an owner gathers is, by rank and row and each once, exactly the vectors the cluster takes. |
| `Exchange.ExchangeAgreement` | SPTAG/AnnService/src/BalancedDataPartition/main.cpp:605-787 | With the counts of a finished run every announced count is right and every file's header equals the number of vectors stored in it. |
| `PartitionRun.ColumnOnRank` | SPTAG/AnnService/src/BalancedDataPartition/main.cpp:605-608 | One column on a rank's own memory leaves label table, thread counters and counts as the protocol's rank has them. |
| `PartitionRun.AllReduce` | SPTAG/AnnService/src/BalancedDataPartition/main.cpp:610-610 | The reduction gives each cluster the sum of the ranks' counts. |
| `PartitionRun.RefreshAll` | SPTAG/AnnService/src/BalancedDataPartition/main.cpp:609-621 | Every rank's new limits are those of the protocol. |
| `PartitionRun.RunColumns` | SPTAG/AnnService/src/BalancedDataPartition/main.cpp:598-626 | All columns on all ranks, with any thread numbers: the label tables, local counts and reduced counts the program ends with are those of the protocol, so its theorems are about the tables themselves. |
| `PartitionRun.SendAll` | SPTAG/AnnService/src/BalancedDataPartition/main.cpp:758-785 | What the other ranks queue for an owner, behind what is queued already, is their announced count and the rows their tables give the cluster. |
| `PartitionRun.ExchangeCluster` | SPTAG/AnnService/src/BalancedDataPartition/main.cpp:645-787 | Senders and owner composed for one cluster, on the owner's queues: when it gets through, what it leaves behind, and that its header counts the vectors stored. |
| `PartitionRun.ExchangeAll` | SPTAG/AnnService/src/BalancedDataPartition/main.cpp:645-787 | The loop over all clusters on shared queues gets through if and only if no owner waits for metadata that never comes; unread metadata of earlier clusters does no harm; every cluster's files are complete with a right header; and the queues end empty if and only if the ranks agree wherever something is sent. |
| `PartitionRun.PartitionAll` | SPTAG/AnnService/src/BalancedDataPartition/main.cpp:598-787 | Rounds and exchange together: every file lists, by rank and row, exactly the vectors that distances, closure, capacity and number of ranks give its cluster, and its header counts them; with a hard cut of h no file holds more than h times the capacity; it gets through if and only if no owner waits for metadata. |
| `PartitionRun.GatheredIndex` | SPTAG/AnnService/src/BalancedDataPartition/main.cpp:690-753 | When the owner has metadata and gets through, the offsets it writes cut its metadata file into the metadata of the vectors it stored, in order. |
| `Gather.LivesAt` | SPTAG/AnnService/src/Aggregator/AggregatorService.cpp:247-288 | A step of one slot that is consistent there keeps every slot, table entry and running callback consistent. |
| `Gather.LastTest` | SPTAG/AnnService/src/Aggregator/AggregatorExecutionContext.cpp:38-42 | The counter test succeeds for the decrement that ends at zero and for the one after it, and for no other of at most 2n decrements. |
| `Gather.FinishTally` | SPTAG/AnnService/src/Aggregator/AggregatorExecutionContext.cpp:38-42 | A decrement keeps the counter at n minus the decrements modulo 2^32 and makes an answer due exactly when it should. |
| `Gather.AggregateTally` | SPTAG/AnnService/src/Aggregator/AggregatorService.cpp:249-255 | Sending an answer that was due keeps the number of answers sent and due; without failures the first answer holds every slot. |
| `Gather.StepKeeps` | SPTAG/AnnService/src/Aggregator/AggregatorService.cpp:245-316 | Every step of every thread keeps the whole invariant. |
| `Gather.RunKeeps` | SPTAG/AnnService/src/Aggregator/AggregatorService.cpp:245-316 | Every state of every run satisfies the invariant. |
| `Gather.AggregateResults` | SPTAG/AnnService/src/Aggregator/AggregatorService.cpp:324-364 | The two loops give the written slots' results concatenated in server order, and the size computed first is the size filled. |
| `Gather.ShortRunsAreLegal` | SPTAG/AnnService/inc/Socket/ResourceManager.h:52-84 | A run that takes fewer than 2^32 - 3 identifiers never meets one still in use, so it needs no condition on wrap-around. |
| `Gather.RunShape` | SPTAG/AnnService/src/Aggregator/AggregatorService.cpp:240-276 | In every run the state knows exactly the requests its steps brought, with their servers and timeouts, and the clock counts the ticks. |
| `Gather.HistoryIsRun` | SPTAG/AnnService/src/Aggregator/AggregatorService.cpp:245-316 | What every slot records is what the steps of the run say, read without it: the reply given, how often, whether the send failed, and the deadline as the ticks at the stamping step plus the timeout. |
| `Gather.RequestIsRun` | SPTAG/AnnService/src/Aggregator/AggregatorService.cpp:245-316 | The replies in the slots of a request are those the steps gave its callbacks, in server order, and its failures are the failed sends of the run. |
| `Gather.HandedOutOnce` | SPTAG/AnnService/inc/Socket/ResourceManager.h:52-149 | In every run at most one step, a response or a timeout, finds a given callback in the table; the history of a slot counts those steps; and the item counter is the list length minus the pending increments modulo 2^32. |
| `Gather.NoEarlyTimeout` | SPTAG/AnnService/inc/Socket/ResourceManager.h:67-149 | A timeout takes a callback only after as many clock ticks as its request's timeout since the step that stamped its timer, all three read off the steps of the run. |
| `Gather.DecrementsDecide` | SPTAG/AnnService/src/Aggregator/AggregatorExecutionContext.cpp:38-42 | In every run the counter is n minus the decrements modulo 2^32, and the answers sent or due are one if there were at least n decrements and one more if there were more than n. |
| `Gather.SentOnceInOrder` | SPTAG/AnnService/src/Aggregator/AggregatorService.cpp:245-372 | For a request none of whose sends failed an answer is sent at most once, only after every callback was given its reply, and is, in server order, the results the responses of the run carried to the callbacks they found in the table, and nothing for those a timeout took. |
| `Gather.StillAnswers` | SPTAG/AnnService/src/Aggregator/AggregatorService.cpp:245-372 | A request with no callback running has sent the answers that its handed-out and its failed callbacks together call for, whether or not entries are left in the table. |
| `Gather.GatherExactlyOnce` | SPTAG/AnnService/src/Aggregator/AggregatorService.cpp:245-372 | A request at rest with at least one server has sent exactly one answer if and only if no step of the run failed one of its sends, and two otherwise; every callback was given a reply; the one answer is those replies, as the response steps carried them, in server order; a request without servers sends nothing. |
| `GatherRest.StepKeepsRest` | SPTAG/AnnService/inc/Socket/ResourceManager.h:52-149 | Every step keeps a waiting timer for every registered callback of a request with a timeout. |
| `GatherRest.RestIsReachable` | SPTAG/AnnService/inc/Socket/ResourceManager.h:113-149 | Every run too short to use up the identifiers has a continuation of steps inside the aggregator alone, without any response, after which a request with a timeout is at rest. |
| `GatherRest.TwoAnswers` | SPTAG/AnnService/src/Aggregator/AggregatorService.cpp:268-276 | A run that registers one server, fails its send and comes to rest sends two answers. |
| `Wire.PutGet` | tikv_uds/main.go:201-223 | Little-endian fields read back as written while they fit. |
| `Wire.PutByte` | tikv_uds/main.go:201-213 | Byte j of a field is digit j of its value in base 256, least significant first. |
| `Wire.FrameLayout` | tikv_uds/main.go:201-223 | A frame byte by byte: the magic number, eight bytes of request id, four of status, four of length, the payload. |
| `Wire.ParseEncoded` | tikv_uds/main.go:201-223 | A frame followed by anything parses to that frame and the rest. |
| `Wire.ParseConcat` | tikv_uds/main.go:201-223 | A stream of whole frames parses back to those frames. |
| `Wire.ParsesBack` | tikv_uds/main.go:201-223 | It does so if and only if every payload is shorter than 2^32, because the length field keeps 32 bits. |
| `Sidecar.WriteStatus` | tikv_uds/main.go:201-223 | A response adds exactly one encoded frame to the writer. |
| `Sidecar.StepKeeps` | tikv_uds/main.go:95-402 | Every step of every handler keeps the connections and the semaphore consistent. |
| `Sidecar.RunKeeps` | tikv_uds/main.go:95-402 | So does every run, for any number of connections and handlers. |
| `Sidecar.SemaphoreHolds` | tikv_uds/main.go:245-391 | The buffered channel holds one element for each handler between its send and its receive; store calls in flight never exceed it nor the semaphore size; once every handler is done it is empty, failed batches included. |
| `Sidecar.ReceiveNeverWaits` | tikv_uds/main.go:245-391 | A handler whose call returned or failed can always give its slot back. |
| `Sidecar.NeverStuck` | tikv_uds/main.go:95-402 | With at least one slot, while some handler is not done some handler that is not done can go on. |
| `Sidecar.EveryRunEnds` | tikv_uds/main.go:232-402 | Without new requests every run ends: the work of the handlers bounds its steps. |
| `Sidecar.EndIsComplete` | tikv_uds/main.go:95-402 | Where no handler can go on, every handler is done, its connection's writer is free and its frame is in the stream. |
| `Sidecar.StreamIsWholeFrames` | tikv_uds/main.go:95-402 | Whenever no handler is writing, a connection's bytes are the frames of the handlers that finished, one each with its own request id, and parse back to them exactly when no payload reaches 2^32 bytes. |
| `Sidecar.HolderWritesAlone` | tikv_uds/main.go:225-230 | While one handler writes, the bytes are whole frames plus a beginning of its own frame. |
| `Sidecar.HandlersFollowRun` | tikv_uds/main.go:232-402 | Every handler stands where its request and the returns of its store calls put it: once done it has called every batch or stopped at the first that failed. |
| `Sidecar.StreamIsAnswers` | tikv_uds/main.go:95-402 | Each frame in an idle connection's stream carries the request id of its request and the status and payload that the last store call of that request returned. |
| `MultiGet.EntriesRoundTrip` | tikv_uds/main.go:331-346 | Packed entries decode to the results they came from. |
| `MultiGet.ResultsRoundTrip` | tikv_uds/main.go:324-346 | A payload decodes to its results if and only if every value is shorter than 2^32; absent and empty stay distinct. |
| `MultiGet.PayloadLayout` | tikv_uds/main.go:324-346 | The payload byte by byte: the count, then at each entry's own offset one byte telling absent from present and, for a present one, four bytes of length and the value. |
| `MultiGet.PayloadSize` | tikv_uds/main.go:324-330 | The size loop computes the exact length of the encoding. |
| `MultiGet.PackEntry` | tikv_uds/main.go:334-346 | One entry extends the written prefix by its encoding. |
| `MultiGet.Pack` | tikv_uds/main.go:331-346 | The buffer is filled with the encoding and the write offset ends at the precomputed size. |
| `MultiGet.Lookups` | tikv_uds/main.go:276-316 | Entry i is what the store holds under the namespace followed by bytes 8i to 8i+8 of the request. |
| `MultiGet.FirstFailureMeans` | tikv_uds/main.go:293-309 | The failure reported is that of the first batch, by number, that fails, and none is reported exactly when no batch fails. |
| `MultiGet.Collect` | tikv_uds/main.go:291-322 | For every batch size the loop yields the lookup of each key in order, or the failure of the first failing batch. |
| `MultiGet.HandleMultiGet` | tikv_uds/main.go:268-348 | The reply is the packed pointwise lookup of the keys in request order, for every batch size, or the first failure's reply. |
| `ChunkedVector.ShiftAndMask` | SPTAG/AnnService/inc/Helper/LockFree.h:56-63 | Shift and mask, bit by bit, are the block and the position of an index when the block size is a power of two. |
| `ChunkedVector.SplitUnique` | SPTAG/AnnService/inc/Helper/LockFree.h:48-70 | A block number and a position below the block size determine each other and the index. |
| `ChunkedVector.AppendRun` | SPTAG/AnnService/inc/Helper/LockFree.h:63-66 | Copying a run into the rest of a block appends it to the plain sequence. |
| `ChunkedVector.ReadRun` | SPTAG/AnnService/inc/Helper/LockFree.h:99-104 | Copying out of a block reads a slice of the plain sequence. |
| `ChunkedVector.CapacityTest` | SPTAG/AnnService/inc/Helper/LockFree.h:52-52 | The unsigned test means size + length <= max exactly when the length is at most the maximum; beyond that it is off by 2^64. |
| `ChunkedVector.LockFreeVector.constructor` | SPTAG/AnnService/inc/Helper/LockFree.h:39-46 | Reserving leaves an empty vector; its table is reserved for the maximum size if and only if the sum in the computation of the number of blocks does not wrap. |
| `ChunkedVector.LockFreeVector.Assign` | SPTAG/AnnService/inc/Helper/LockFree.h:48-70 | Appends the data as one sequence across block boundaries and reused blocks, or refuses and changes nothing; the block table never outgrows its reservation. |
| `ChunkedVector.LockFreeVector.EnsureBlock` | SPTAG/AnnService/inc/Helper/LockFree.h:56-62 | Adding a block changes nothing that is read and stays inside the reservation. |
| `ChunkedVector.LockFreeVector.PushBack` | SPTAG/AnnService/inc/Helper/LockFree.h:72-87 | Appends one element or refuses and changes nothing. |
| `ChunkedVector.LockFreeVector.Clear` | SPTAG/AnnService/inc/Helper/LockFree.h:90-90 | Empties the sequence and keeps the blocks. |
| `ChunkedVector.LockFreeVector.Get` | SPTAG/AnnService/inc/Helper/LockFree.h:93-93 | Reads the i-th element of the plain sequence. |
| `ChunkedVector.LockFreeVector.Back` | SPTAG/AnnService/inc/Helper/LockFree.h:89-89 | Reads its last element. |
| `ChunkedVector.LockFreeVector.Copy` | SPTAG/AnnService/inc/Helper/LockFree.h:95-106 | Gathers the slice across blocks. |
| `ChunkedVector.LockFreeVector.Save` | SPTAG/AnnService/inc/Helper/LockFree.h:108-117 | Writes the whole sequence. |
| `ChunkedVector.LockFreeVector.Load` | SPTAG/AnnService/inc/Helper/LockFree.h:119-139 | Appends what is read, tested against the reserved table and not the maximum size; a short read leaves the sequence as it was. |
| `Metadata.CutExtends` | SPTAG/AnnService/src/Core/MetadataSet.cpp:423-433 | Adding bytes and one offset adds one blob to the list. |
| `Metadata.PiecesOfCut` | SPTAG/AnnService/src/Core/MetadataSet.cpp:290-306 | Consecutive entries of a table that cuts a buffer cut out the corresponding slice of its blobs. |
| `Metadata.AddsUpToCapacity` | SPTAG/AnnService/src/Core/MetadataSet.cpp:423-433 | Over any sequence of Adds the set holds the first capacity - 1 blobs in order; a capacity of zero wraps and refuses nothing. |
| `Metadata.MemMetadataSet.constructor` | SPTAG/AnnService/src/Core/MetadataSet.cpp:267-276 | A new set is empty and uses one place of the table for the initial zero. |
| `Metadata.MemMetadataSet.Count` | SPTAG/AnnService/src/Core/MetadataSet.cpp:404-408 | The number of accepted blobs. |
| `Metadata.MemMetadataSet.GetMetadata` | SPTAG/AnnService/src/Core/MetadataSet.cpp:368-382 | The i-th accepted blob, whichever of the two buffers holds it. |
| `Metadata.MemMetadataSet.Add` | SPTAG/AnnService/src/Core/MetadataSet.cpp:423-433 | Appends the blob, or changes nothing when the table refuses. |
| `Metadata.MemMetadataSet.SaveMetadata` | SPTAG/AnnService/src/Core/MetadataSet.cpp:435-456 | The two streams describe exactly the list of blobs. |
| `Metadata.MemMetadataSet.Init` | SPTAG/AnnService/src/Core/MetadataSet.cpp:278-308 | Loads the requested slice, clamped to what there is, whenever the entries it reads ascend and the metadata reaches the last of them; reports shorter streams, looks at nothing beyond what it reads, and leaves pending bytes alone; when none were pending the set then answers that slice. |
| `Metadata.LoadSlice` | SPTAG/AnnService/src/Core/MetadataSet.cpp:286-301 | The rebased table and the bytes read are those of the slice. |
| `Metadata.SliceOffsets` | SPTAG/AnnService/src/Core/MetadataSet.cpp:290-297 | The rebased offsets, in 64-bit subtraction, are the shifted table when the table ascends. |
| `Metadata.BuildTable` | SPTAG/AnnService/src/Core/MetadataSet.cpp:286-298 | A fresh table takes any first assign, even one longer than its maximum. |
| `Metadata.SaveThenInit` | SPTAG/AnnService/src/Core/MetadataSet.cpp:278-456 | Saving and loading a slice gives a set that answers exactly like that slice. |
| `Metadata.FileMetadataSet.constructor` | SPTAG/AnnService/src/Core/MetadataSet.cpp:113-143 | Opening a file does not look at it: the set answers every blob if and only if the file reaches the last offset. |
| `Metadata.FileMetadataSet.GetMetadata` | SPTAG/AnnService/src/Core/MetadataSet.cpp:149-164 | The i-th blob from the file or the pending bytes; undetermined exactly when the file is too short for a blob it should hold. |
| `Metadata.FileMetadataSet.Add` | SPTAG/AnnService/src/Core/MetadataSet.cpp:203-208 | Appends a pending blob. |
| `Metadata.FileMetadataSet.Save` | SPTAG/AnnService/src/Core/MetadataSet.cpp:210-235 | The saved file is the old file and the pending bytes, under the offsets of that moment. |
| `Metadata.FileMetadataSet.Compact` | SPTAG/AnnService/src/Core/MetadataSet.cpp:250-264 | The saved file replaces the old one and every blob counts as saved. |
| `Metadata.FileMetadataSet.SaveAndCompact` | SPTAG/AnnService/src/Core/MetadataSet.cpp:210-265 | With any blobs added between the two locks: every answer is kept if and only if all pending bytes, the added ones included, are the first bytes behind the last offset of the new file. |
| `Metadata.KeptExactlyWhenPrefix` | SPTAG/AnnService/src/Core/MetadataSet.cpp:210-265 | The same condition for every file, however much it holds beyond its last offset, whatever is pending and whatever is added between the locks. |
| `Metadata.KeptExactlyWhenEmpty` | SPTAG/AnnService/src/Core/MetadataSet.cpp:237-265 | So, when the file ends at its last offset, answers are kept if and only if each blob added between the locks is empty. |
| `Metadata.AddedIsLost` | SPTAG/AnnService/src/Core/MetadataSet.cpp:237-265 | The answer of a non-empty blob added between the locks is undetermined afterwards. |
| `Metadata.CompactionCondition` | SPTAG/AnnService/src/Core/MetadataSet.cpp:210-265 | And a single pending blob keeps its answer whatever it is if and only if the file ends at its last offset. |
| `Metadata.CompactionBreaks` | SPTAG/AnnService/src/Core/MetadataSet.cpp:210-265 | A one-byte blob whose answer compaction changes, for every file with bytes beyond its last offset. |
| `TopKScan.SightingsDistinct` | SPTAG/AnnService/src/Core/MultiIndexScan.cpp:95-135 | An id is scored only the first time it is seen. |
| `TopKScan.SightingsAre` | SPTAG/AnnService/src/Core/MultiIndexScan.cpp:95-135 | What is ranked is, for every id pulled, the score of its first pull and no other. |
| `TopKScan.DropWorse` | SPTAG/AnnService/src/Core/MultiIndexScan.cpp:138-151 | Dropping an item not better than a full heap's top keeps the k best. |
| `TopKScan.ReplaceTop` | SPTAG/AnnService/src/Core/MultiIndexScan.cpp:138-151 | Replacing the top by a better item keeps the k best. |
| `TopKScan.TopTest` | SPTAG/AnnService/src/Core/MultiIndexScan.cpp:138-151 | The test against the top of a full heap holds exactly when at least k of all items seen are no worse. |
| `TopKScan.DrainEnds` | SPTAG/AnnService/src/Core/MultiIndexScan.cpp:174-182 | The emptied heap, read back from the stack, is the ranking. |
| `TopKScan.EndsOnce` | SPTAG/AnnService/src/Core/MultiIndexScan.cpp:88-173 | The iterators, k, the scores and the two limits determine the last pass and the list of results pulled. |
| `TopKScan.RankingMeans` | SPTAG/AnnService/src/Core/MultiIndexScan.cpp:85-194 | A ranking lists min(k, seen) distinct ids in non-decreasing score, and nothing seen and left out scores better than anything listed. |
| `TopKScan.MultiIndexScan.constructor` | SPTAG/AnnService/src/Core/MultiIndexScan.cpp:8-35 | A new scan has emitted nothing. |
| `TopKScan.MultiIndexScan.Offer` | SPTAG/AnnService/src/Core/MultiIndexScan.cpp:138-151 | The bounded heap keeps the k best of everything offered, and the drop counter counts the newest items in a row that met k others no worse. |
| `TopKScan.MultiIndexScan.Consume` | SPTAG/AnnService/src/Core/MultiIndexScan.cpp:95-155 | The next result of the column is pulled, scored if new, and the heap stays the k best of all sightings. |
| `TopKScan.MultiIndexScan.Round` | SPTAG/AnnService/src/Core/MultiIndexScan.cpp:91-156 | A pass pulls one result from every column in order, or stops at the first column without one. |
| `TopKScan.MultiIndexScan.Scan` | SPTAG/AnnService/src/Core/MultiIndexScan.cpp:88-173 | The scan stops in the first pass after which enough results in a row were dropped or enough ids were seen, both computed from the iterators, or at the first column that has no result for the pass; what was pulled is exactly the passes before, column by column, and that one. |
| `TopKScan.MultiIndexScan.Drain` | SPTAG/AnnService/src/Core/MultiIndexScan.cpp:174-182 | The heap empties onto the stack in the order the ranking needs. |
| `TopKScan.MultiIndexScan.Next` | SPTAG/AnnService/src/Core/MultiIndexScan.cpp:85-194 | Successive calls hand out the ranking of exactly those results, each entry once and in order, then return false for ever. |
| `Rng.GreedyIsTheNeighbourhood` | SPTAG/AnnService/src/Core/VectorIndex.cpp:1203-1233 | The greedy pass gives the one and only choice in which no kept result blocks a later kept one and every result looked at and refused has an earlier kept witness. |
| `Rng.Check` | SPTAG/AnnService/src/Core/VectorIndex.cpp:1211-1222 | The inner loop accepts exactly when no entry already in the row blocks the candidate. |
| `Rng.PruneRow` | SPTAG/AnnService/src/Core/VectorIndex.cpp:1199-1233 | The row ends with the picked results in its first slots and its old content after them, no other row changes, and the refusals are counted. |
| `Rng.ApproximateRng` | SPTAG/AnnService/src/Core/VectorIndex.cpp:1150-1242 | One thread alone leaves the pruned array: every vector that is not excluded has its neighbourhood, every other row its old content. |
| `Rng.PrunedUnique` | SPTAG/AnnService/src/Core/VectorIndex.cpp:1140-1250 | There is only one pruned array for given initial content. |
| `Rng.PrunedMeans` | SPTAG/AnnService/src/Core/VectorIndex.cpp:1199-1233 | The pruned array written out: slot j of vector id lies at id times replicas plus j and holds a kept result's id and distance or its old content; a result before the row is full is refused if and only if factor times its distance to an earlier kept one is below its own distance; and the refusals are as many as the results passed over. |
| `Rng.StepKeeps` | SPTAG/AnnService/src/Core/VectorIndex.cpp:1157-1240 | Every step of every thread, with the two fields of an entry written separately, keeps rows, owners and refusal counts consistent. |
| `Rng.EverySchedulePrunes` | SPTAG/AnnService/src/Core/VectorIndex.cpp:1140-1250 | For every number of threads and every interleaving, once all are done each non-excluded vector was started exactly once, the array is the pruned one and the total counts each refusal once. |
| `Rng.SchedulesAgree` | SPTAG/AnnService/src/Core/VectorIndex.cpp:1140-1250 | The result does not depend on the number of threads or the interleaving. |
| `Rng.EveryRunEnds` | SPTAG/AnnService/src/Core/VectorIndex.cpp:1157-1240 | No interleaving goes on for ever: the work at hand bounds the steps. |
| `Estimates.UsageInWords` | SPTAG/AnnService/src/Core/VectorIndex.cpp:1053-1079 | The term-by-term sum in 64-bit words is the padded count times the bytes of one vector, modulo 2^64. |
| `Estimates.CountIsLargest` | SPTAG/AnnService/src/Core/VectorIndex.cpp:1030-1051 | Without a word size, n vectors fit a budget exactly when n is at most the estimated count. |
| `Estimates.EstimatesAgree` | SPTAG/AnnService/src/Core/VectorIndex.cpp:1030-1079 | For the tree indexes the two estimates agree on every budget if and only if the true number of bytes fits 64 bits. |
| `Estimates.EstimatesDisagree` | SPTAG/AnnService/src/Core/VectorIndex.cpp:1053-1079 | They disagree on some budget for 2^64 - 1 vectors, whatever the layout. |
| `Estimates.OthersAgreeOnNothing` | SPTAG/AnnService/src/Core/VectorIndex.cpp:1044-1047 | For any other algorithm both are 0, so they agree only on no vectors. |
| `Base64.TablesInvert` | SPTAG/AnnService/src/Helper/Base64Encode.cpp:13-37 | The two tables are inverse on the alphabet and the pad is outside it. |
| `Base64.EncodeThree` | SPTAG/AnnService/src/Helper/Base64Encode.cpp:48-51 | Shifting and masking three bytes gives the quad of the specification. |
| `Base64.JoinBitsAre` | SPTAG/AnnService/src/Helper/Base64Encode.cpp:155-157 | Shifting, joining and cutting to eight bits gives the bytes of the specification. |
| `Base64.EncodedSize` | SPTAG/AnnService/src/Helper/Base64Encode.cpp:215-218 | The stated capacity is exactly the length of the encoding. |
| `Base64.QuadsSpellNumbers` | SPTAG/AnnService/src/Helper/Base64Encode.cpp:48-75 | Four symbols spell the number of their three bytes in base 64; padded quads have zero bits after it. |
| `Base64.RfcVector` | SPTAG/AnnService/src/Helper/Base64Encode.cpp:41-81 | A test vector of section 10 of RFC 4648. |
| `Base64.Encode` | SPTAG/AnnService/src/Helper/Base64Encode.cpp:41-81 | The buffer gets the encoding and nothing past the reported length is written. |
| `Base64.EncodeStream` | SPTAG/AnnService/src/Helper/Base64Encode.cpp:83-125 | The stream form appends the same encoding. |
| `Base64.DecodedAccepts` | SPTAG/AnnService/src/Helper/Base64Encode.cpp:127-223 | A text is accepted if and only if it is whole quads of symbols with at most two final pads and, with two pads, no stray bits; its length is the stated capacity less the pads. |
| `Base64.DecodeEncode` | SPTAG/AnnService/src/Helper/Base64Encode.cpp:41-213 | Decoding undoes encoding on every non-empty input. |
| `Base64.EncodeDecode` | SPTAG/AnnService/src/Helper/Base64Encode.cpp:127-213 | Encoding the decoded bytes gives the text with the bits before a single pad cleared. |
| `Base64.EncodeInvertsDecode` | SPTAG/AnnService/src/Helper/Base64Encode.cpp:196-204 | It gives the text itself if and only if the text does not have exactly one pad with stray bits before it. |
| `Base64.StrayBitsIgnored` | SPTAG/AnnService/src/Helper/Base64Encode.cpp:196-204 | Clearing those bits does not change what is decoded. |
| `Base64.StrayBitsExample` | SPTAG/AnnService/src/Helper/Base64Encode.cpp:200-200 | AAC= is accepted and does not come back. |
| `Base64.DecodeLast` | SPTAG/AnnService/src/Helper/Base64Encode.cpp:165-212 | The last quad is accepted or refused as specified, with each byte written before the bits left over are examined. |
| `Base64.DecodeQuad` | SPTAG/AnnService/src/Helper/Base64Encode.cpp:145-162 | A quad of four symbols gives its three bytes; any other character stops the loop with nothing written. |
| `Base64.DecodeQuads` | SPTAG/AnnService/src/Helper/Base64Encode.cpp:142-212 | Loop and last quad compute the decoding and write nothing past the reported length, on failure either. |
| `Base64.Decode` | SPTAG/AnnService/src/Helper/Base64Encode.cpp:127-213 | The answer, length and bytes are those of the decoding; a text that is not whole quads leaves buffer and length alone. |

## Left out

- Floating-point rounding: distances, ratios and offsets are reals, and summed distances and weights, which depend on the order of addition, are not modelled.
- 32-bit overflow of vector counts in head selection and in the partition, of the vector ids handed out by the pruning counter, and of its 64-bit refusal total: these counters are unbounded here.
- HardAssign.HardMultipleClustersAssign: does not model the summed distances, the weighted counts or a row range other than all rows; label and count tables are arrays of rows rather than flat buffers, and the number of clusters is at most 32767, the range of the label type.
- HardAssign.SortItems: the sort is a sorted rearrangement computed from a specification; the library's own algorithm is not modelled.
- HeadGrouping.SelectInternal: the sort is any descending rearrangement that depends only on its input, and the split factor is at least 1, because the code divides by it.
- HeadSearch.SelectHeadDynamically: the two constants of the ratio test and the target offset are those of the code; the printed statistics are not modelled.
- HeadStatic.SelectHeadStatically: the sort is any rearrangement by depth and, among equal depths, descending size, and the limit on the number of heads is an input; splits that would read past the tree, on which the code is undefined, are excluded.
- HeadRevisit.DfsSelect: does not model maxDepth, which is only printed, or the overflow of the depth of an internal node without children; a childStart below -1, which tree building stores for clusters of duplicates and on which the pass indexes with a negative number, is excluded.
- DfsCovered, CalcLeafSize, DfsAnalyze and the size statistics of SelectHeadStatically: printed only.
- K-means refinement of centres, distance functions and the construction of the clustering tree: taken as inputs.
- Gather.GatherExactlyOnce: says how many answers a request with failed sends gives, not what they hold: merging moves the results out of their slots, and a second callback may replace a slot while it is read.
- GatherRest.RestIsReachable: is stated for runs that take fewer than 2^32 - 3 identifiers; that the continuation is taken is up to the scheduler.
- The choice of servers by centre distance in the aggregator, its settings, packet buffers and connection management: easy or bound to input and output.
- Request parsing in the sidecar: a request starts a handler with arbitrary contents; failing writes, listening and shutdown are not modelled.
- MPI, boost::asio and TiKV client internals: reliable reductions and buffered channels in order by tag, abstract events, and a fixed store.
- PartitionRun.ExchangeAll: clusters whose output file already exists are skipped by the code, which is not modelled.
- ChunkedVector.LockFreeVector.Assign: blocks are values, so that readers keep a valid pointer while a block is added is captured only as the table never outgrowing its reservation; reserve is modelled on a new vector only, with a block size of at most 2^30, beyond which its 32-bit shift is undefined.
- Metadata.MemMetadataSet.Init: data and index are separate streams; loading both from one file, where the absolute seek breaks the layout, is not modelled; nor is a negative start, which indexes before the table.
- Metadata.FileMetadataSet.SaveAndCompact: files are byte sequences; what a failing read leaves in a file stream is not modelled.
- GetMetadataOffsets, the metadata-to-vector map and batched adds: thin loops over the modelled operations.
- TopKScan.MultiIndexScan.Next: does not model the timer mode, in which the clock overwrites the terminate flag; a scan over no columns, which would not end, is excluded unless the stop test already holds.
- Rng.ApproximateRng: the search results of a vector and the distances between samples are inputs that do not depend on the thread; quantizer buffers and the GPU version are not modelled.
- Estimates.EstimatesAgree: negative arguments and an empty block, on which the code divides by zero, are excluded.
- Base64.Decode: empty input, on which the code reads four characters unconditionally, is excluded; characters are unsigned, as negative ones index outside the table.
- Index internals, SPANN, key-value and file adapters, asynchronous file reading, language bindings, tools and benchmark drivers: input and output, or easy members.
