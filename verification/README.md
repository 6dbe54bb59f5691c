# EidosDB, modelled and proved in Dafny

EidosDB is a vector database. Every fast or durable structure in it is meant to
agree with a simple one in the same repository: the HNSW graph with the
brute-force `FlatIndex`, each persistent store with the index held in RAM, the
inverted text index with the forward index. This project states those
agreements as theorems over every input, run or reachable state, and where the
code does not keep one it proves exactly when it does.

`dafny verify dfyconfig.toml` checks everything.

## What is modelled

Each component has three parts. Its operations are pure functions over a
datatype of its state; classes with the original's fields and loops are proved
equal to those functions; and the promises are lemmas about the functions.

| files | component |
|---|---|
| `Core`, `Ranking` | ids, embeddings, errors; the (score descending, id ascending) order; stable sort; what "the k best" means and that it is unique |
| `Flat` | the oracle (a map from ids to embeddings) and `FlatIndex`, which refines it |
| `Rng` | 64-bit words, the SplitMix64 walk and output mix, the level draw |
| `Graph`, `Descent`, `Beam`, `BeamFacts`, `Select` | the layered graph and the algorithms that only read it |
| `Hnsw`, `HnswLinking`, `HnswConnect`, `HnswInvariant`, `HnswRuns`, `HnswExact`, `HnswChoices`, `HnswSnapshot`, `HnswIndex` | insertion, removal, search, compaction and restoring; the invariant; equality with the flat index; which neighbours, entry point, level and answer each operation chooses; the class |
| `Segment`, `PersistentFlat`, `CompactionCrash`, `PersistentFlatRuns`, `FlatStore` | the segment file, the manifest, the durable flat index, its crash steps, whole runs and its class |
| `PersistentHnsw`, `PersistentHnswRuns`, `PersistentHnswLedger`, `HnswStore` | the three tables of the durable graph index, write-through, reopening, what any run leaves in the segment, and its class |
| `Lexical`, `PersistentLexical` | the forward and the inverted BM25 index, and both driven through the same run |
| `Fusion`, `Collection` | reciprocal rank fusion; the collection over its three stores; hybrid queries |

The main results:

* **The graph equals the flat scan.** For every run of inserts, removes and
  compactions that leaves at most 2m + 1 nodes, and every query whose beam is at
  least the live count, the graph and the flat index return the same list
  (`HnswExact.HnswEqualsFlat`). Without the node bound it holds whenever layer 0
  leads from where the search starts to the live admissible nodes
  (`HnswExact.SearchExact`, and conversely `SearchExactIff`); the beam search alone is exact under the same
  condition (`BeamFacts.BeamExact`).
* **Every run keeps the graph well formed** and holding what the oracle holds
  (`HnswRuns.RunRefines`): lists in range, without repeats and within their
  bounds, live map and live nodes in bijection, entry point of maximal level,
  generator state a function of the node count.
* **What the graph operations choose is stated outright**, for graphs of any
  size: every list an accepted insert leaves (`HnswChoices.InsertLinks`), the
  whole answer of every query (`SearchAnswers`), the entry point a removal elects
  (`RemoveElects`), and the level of every node after any run (`RunLevels`). The
  search behind insertion and queries may miss a better node: `BeamMisses` gives
  a graph in which a reachable node scores above everything returned. What it
  never does is leave out a reachable node while there is room, or the start or
  a neighbour of a returned node that scores higher than some returned one
  (`BeamFinds`).
* **What a durable graph index reopens as is known after every run**, without
  any guard: the tables mirror the index in RAM, the segment holds the records a
  ledger predicts, reopening succeeds, and it returns the index in RAM exactly
  when those records begin with the nodes' vectors
  (`PersistentHnswLedger.EveryRun`). All reopenings of a run are exact precisely
  when each meets such records, and the index is then the one a process that
  never died would hold (`PersistentHnswLedger.RunExactly`).
* **The durable flat index recovers the committed operations**, each batch whole
  or not at all, after any run with crashes at any byte; only a crash inside a
  compaction can lose anything, and exactly when it does is proved
  (`PersistentFlatRuns.RunHolds`, `ExecHolds`).
* **Both text indexes answer alike** after any run (`LexicalParity.Parity`).
* **Fusion respects dominance**: what outranks another id in both channels comes
  before it in a hybrid answer (`Hybrid.HybridDominance`).

Where the code falls short of the plain promise, the exact condition is proved:

* An insert into `PersistentHnswIndex` appends its vector before it can be
  rejected. From any state a run can leave, reopening after an insert is exact
  if and only if the records were aligned with the nodes and, should the insert
  be accepted with records to spare, its vector happens to be the next record
  (`PersistentHnswLedger.InsertThenReopen`). So a rejected insert does no harm
  by itself; the next accepted node reopens with the first record of the
  rejected vector (`RejectedThenAccepted`, and `RejectedInsertCorrupts` for
  three concrete inserts).
* `PersistentHnswIndex::compact` rewrites the tables and not the segment.
  Reopening after it is exact if and only if the vectors of the live points, in
  node order, come first in the segment (`PersistentHnswLedger.CompactThenReopen`,
  and `CompactionCorrupts` for a concrete run). `AlignedStep` gives such a
  condition, on the state before, for every event.
* Flat compaction truncates and rewrites the file before it commits the slots.
  Dying after n bytes of the rewrite keeps the content exactly when every live
  slot of the zero-filled torn file still reads its own vector
  (`CompactionCrash.CrashedCompaction`); no n loses anything exactly when every
  live vector is zero (`CompactionCrashSafe`). `CompactionCrashLoses` and
  `CompactionCrashMisreads` are concrete losses, the second with an id that
  comes back with another id's vector.
* `Collection::upsert` removes the old vector before it knows that the new one
  fits. The stores stay consistent exactly when the length is right or the id
  had neither document nor payload (`Stores.UpsertConsistent`), and the rejected
  upsert leaves no trace exactly when the id had no vector
  (`Stores.RejectedUpsert`; `Stores.UpsertLosesVector` is a concrete loss).

One disagreement between the code and its comments: the comment at
`crates/eidosdb-hnsw/src/rng.rs:54-57` says that adding one before dividing
avoids zero. The addition wraps, so the largest draw does give zero, and exactly
one generator state makes it (`Rng.ZeroNumerator`). The logarithm is then not
finite and the node is placed on level 64 (`Rng.HighestLevelDrawn`). The model
follows the code.

## Model

| member | source | states |
|---|---|---|
| `Ranking.TopKUnique` | crates/eidosdb-core/src/flat.rs:89-95 | The k best of a set of scored ids, in (score descending, id ascending) order, are one list only. |
| `Ranking.SortedIsTopK` | crates/eidosdb-core/src/flat.rs:89-95 | Sorting hits with distinct ids and truncating yields exactly the k best. |
| `Ranking.TopKMeans` | crates/eidosdb-core/src/flat.rs:89-95 | A list is the k best exactly if it is in (score descending, id ascending) order, has min(k, candidates) entries, each a candidate with its score, and no candidate left out comes before one of them. |
| `Flat.InsertRefines` | crates/eidosdb-core/src/flat.rs:40-52 | An insert adds the id with its embedding, or is refused for a wrong dimension or a present id and changes nothing. |
| `Flat.RemoveRefines` | crates/eidosdb-core/src/flat.rs:54-61 | A removal takes out that id and no other, and says whether it was there. |
| `Flat.RemoveMeans` | crates/eidosdb-core/src/flat.rs:54-61 | The first point with the id is taken out and the others keep their order. |
| `Flat.SearchIsTopK` | crates/eidosdb-core/src/flat.rs:67-97 | The flat scan returns the k best admissible ids of the content. |
| `Flat.FlatIndex.InsertPoint` | crates/eidosdb-core/src/flat.rs:40-52 | The method's new points and its error are the specified ones. |
| `Flat.FlatIndex.RemovePoint` | crates/eidosdb-core/src/flat.rs:54-61 | The first point with the id is removed and reported. |
| `Flat.FlatIndex.SearchFiltered` | crates/eidosdb-core/src/flat.rs:67-97 | The scan loop computes the specified search, its dimension error included. |
| `Rng.MixBijective` | crates/eidosdb-hnsw/src/rng.rs:40-46 | The output mix is a bijection on 64-bit words: an explicit inverse undoes it and is undone by it. |
| `Rng.WalkClosedForm` | crates/eidosdb-hnsw/src/rng.rs:40-41 | After n draws the state is the seed plus n times the increment, modulo 2^64. |
| `Rng.WalkPeriod` | crates/eidosdb-hnsw/src/rng.rs:40-41 | Two points of the state walk coincide exactly when their distance is a multiple of 2^64. |
| `Rng.SplitMix64.NextU64` | crates/eidosdb-hnsw/src/rng.rs:40-46 | One step of the walk, returning the mix of the new state. |
| `Rng.ZeroNumerator` | crates/eidosdb-hnsw/src/rng.rs:54-59 | Adding one to a draw wraps to zero for the largest word only, which exactly one state draws. |
| `Rng.HighestLevelDrawn` | crates/eidosdb-hnsw/src/rng.rs:59-74 | From that state the level is the ceiling 64, whatever the logarithm does elsewhere. |
| `Rng.SplitMix64.NextLevel` | crates/eidosdb-hnsw/src/rng.rs:52-77 | One draw per call; one is added with wrap-around; the level is clamped to 0..64, and is 64 when the numerator is zero. |
| `Rng.LevelMeans` | crates/eidosdb-hnsw/src/rng.rs:52-77 | Every draw but the one that wraps is placed by the floored logarithm, brought into 0..64. |
| `Graph.HnswGraph.AddNode` | crates/eidosdb-hnsw/src/graph.rs:65-95 | Appends a live node without links, or refuses a wrong dimension or a live id and changes nothing. |
| `Graph.HnswGraph.SetNeighbors` | crates/eidosdb-hnsw/src/graph.rs:103-109 | Replaces one list of one node; out of range it does nothing. |
| `Graph.HnswGraph.Tombstone` | crates/eidosdb-hnsw/src/graph.rs:126-137 | Marks a live node, drops its id from the live map, and reports whether it was live. |
| `Config.ConfigDecided` | crates/eidosdb-hnsw/src/config.rs:59-82 | A configuration is accepted, and kept as given, exactly when the degree is at least two and both beams at least one; the first failing test is the one reported. |
| `HnswConnect.ReachesIffPath` | crates/eidosdb-hnsw/src/index.rs:303-341 | Reachability, as the other rows use it, is the existence of a path of links on the layer. |
| `Descent.DescendLocalOptimum` | crates/eidosdb-hnsw/src/index.rs:227-259 | On any graph, cycles and ties included, the descent ends no worse than it started and at a node no neighbour of which on the last layer is better. |
| `Descent.DescendStays` | crates/eidosdb-hnsw/src/index.rs:227-259 | The descent follows only links of the layers it descends through. |
| `HnswChoices.DescentTrace` | crates/eidosdb-hnsw/src/index.rs:227-259 | The descent has one stop per layer, top to bottom: each reached over that layer from the one above, that one or closer, and without a closer neighbour on its layer. |
| `Descent.GreedyDescent` | crates/eidosdb-hnsw/src/index.rs:227-259 | The loop terminates, on graphs of any shape, and lands where the specified descent does. |
| `Beam.Explore` | crates/eidosdb-hnsw/src/index.rs:265-342 | The two-heap loop over a visited array returns the specified search result. |
| `BeamFacts.BeamSound` | crates/eidosdb-hnsw/src/index.rs:303-341 | At most ef distinct, live, admissible, reachable nodes, best first; a seen admissible node left out scores no higher than any returned one; a node still waiting at the stop scores strictly below them all. |
| `BeamFacts.BeamExact` | crates/eidosdb-hnsw/src/index.rs:265-342 | With ef at least the number of reachable live admissible nodes, exactly those are returned. |
| `BeamFacts.BeamNonempty` | crates/eidosdb-hnsw/src/index.rs:265-342 | If some live admissible node is reachable, something is returned. |
| `HnswChoices.BeamFinds` | crates/eidosdb-hnsw/src/index.rs:303-341 | At most ef live admissible reachable nodes, each with its score against the query, best first; a reachable one is left out only if the list is full, and the start or a neighbour of a returned node only if it scores no higher than all of the list. |
| `HnswChoices.BeamMisses` | crates/eidosdb-hnsw/src/index.rs:303-341 | No more can be promised: a graph of three nodes in which a reachable admissible node scores above the whole full list. |
| `HnswChoices.LoopOrder` | crates/eidosdb-hnsw/src/index.rs:303-341 | The loop ends exactly when nothing waits, or the result is full and everything that waits scores strictly below all of it. |
| `HnswChoices.StepExpands` | crates/eidosdb-hnsw/src/index.rs:303-341 | Each round takes a waiting candidate none comes before, marks exactly its neighbours as seen and lets exactly the new ones wait. |
| `HnswChoices.AdmitMeans` | crates/eidosdb-hnsw/src/index.rs:313-331 | A seen node enters the result exactly if it is admissible and there is room or a strictly lower score in it; when that is one too many, the last in the order of hits leaves. |
| `Select.SelectionOf` | crates/eidosdb-hnsw/src/index.rs:350-379 | The kept neighbours are a subsequence within the limit that starts with the closest; none is closer to an earlier kept one than to the base; each one passed over has a kept witness. |
| `Select.SelectDistinct` | crates/eidosdb-hnsw/src/index.rs:350-379 | Candidates without repeats give neighbours without repeats. |
| `Select.Choose` | crates/eidosdb-hnsw/src/index.rs:350-379 | The loop with its early return computes the specified selection. |
| `HnswLinking.CandidatesFacts` | crates/eidosdb-hnsw/src/index.rs:546-556 | The node being inserted never appears among its own candidates, which are distinct, live and of the layer's level. |
| `HnswLinking.BackListFacts` | crates/eidosdb-hnsw/src/index.rs:558-583 | A neighbour's list after back-linking holds only old neighbours and the new node, within the bound; below the bound it is the old list and the new node. |
| `HnswLinking.PrunedSelection` | crates/eidosdb-hnsw/src/index.rs:558-583 | A full neighbour keeps a diverse selection of its old neighbours and the new node, rated from its own point of view, closest first; each one passed over has a kept witness. |
| `HnswLinking.ChosenFacts` | crates/eidosdb-hnsw/src/index.rs:548-553 | The new node's list is well formed, holds live nodes only and contains the closest candidate found. |
| `HnswLinking.LinkLayerReads` | crates/eidosdb-hnsw/src/index.rs:546-588 | Linking one layer changes the new node's list, the chosen nodes' lists and nothing else. |
| `HnswLinking.LinkLayersGood` | crates/eidosdb-hnsw/src/index.rs:546-588 | Linking keeps every list in range, of sufficient level, irreflexive, without repeats and within 2m or m. |
| `HnswLinking.LinkLayersReported` | crates/eidosdb-hnsw/src/index.rs:546-602 | Every node whose lists linking changed is among the touched ones. |
| `HnswChoices.ChosenBy` | crates/eidosdb-hnsw/src/index.rs:546-588 | On one layer the candidates are what the search finds around the new vector, the new node keeps the heuristic's selection of them within the layer's bound, and the next layer is searched from the best candidate. |
| `HnswChoices.LinkLayersBy` | crates/eidosdb-hnsw/src/index.rs:546-588 | The same for all layers at once, in terms of the graph before linking and the graph after it: every list, the back lists included. |
| `HnswConnect.SmallHasRoom` | crates/eidosdb-hnsw/src/index.rs:558-583 | With at most 2m + 1 nodes a layer-0 list that misses the new node is below its bound, so nothing is pruned. |
| `HnswConnect.LinkLayersJoin` | crates/eidosdb-hnsw/src/index.rs:546-588 | In such a graph linking loses no layer-0 link, links the new node both ways, and finds it a neighbour. |
| `HnswConnect.ConnectedInsert` | crates/eidosdb-hnsw/src/index.rs:500-602 | Linking a node into a connected small graph keeps layer 0 connecting all live nodes. |
| `HnswInvariant.InsertAccepted` | crates/eidosdb-hnsw/src/index.rs:500-535 | An insert is refused, changing nothing, exactly for a wrong dimension or a live id. |
| `HnswInvariant.LinkInFacts` | crates/eidosdb-hnsw/src/index.rs:536-602 | Descending and linking keep well-formedness, add links with the new node only, report every changed row and keep a small graph connected. |
| `HnswInvariant.InsertGood` | crates/eidosdb-hnsw/src/index.rs:500-602 | Every insert keeps the whole invariant and does to the content what the oracle does. |
| `HnswChoices.InsertLinks` | crates/eidosdb-hnsw/src/index.rs:500-602 | Every list of the graph an accepted insert leaves: a greedy descent over the layers above the new node, then on each layer from the lower of the two levels down the neighbours found around the new vector, and their back lists; no other list changes. |
| `HnswChoices.InsertFirstLinks` | crates/eidosdb-hnsw/src/index.rs:523-530 | The first live node becomes the entry point and changes no list. |
| `HnswChoices.InsertElects` | crates/eidosdb-hnsw/src/index.rs:590-595 | The new node becomes the entry point exactly if there was none or its level is strictly higher. |
| `HnswChoices.InsertTouches` | crates/eidosdb-hnsw/src/index.rs:536-602 | The rows an insert reports are its own and those of the nodes it keeps on some layer, no more and no fewer. |
| `HnswChoices.DegreesBounded` | crates/eidosdb-hnsw/src/config.rs:116-124 | No node has more than 2m neighbours on layer 0 or m on a layer above. |
| `HnswInvariant.RemoveGood` | crates/eidosdb-hnsw/src/index.rs:608-632 | Every removal keeps it too, the re-elected entry point included, and says whether the id was there. |
| `HnswChoices.RemoveElects` | crates/eidosdb-hnsw/src/index.rs:608-632 | A removal marks the id's node only; the entry point stays unless it was that node, and is then the last live node of the highest level there is. |
| `HnswChoices.RemoveReports` | crates/eidosdb-hnsw/src/index.rs:612-631 | A removal reports the marked node, and the entry point as changed exactly if it was that node. |
| `HnswRuns.InsertEntryReported` | crates/eidosdb-hnsw/src/index.rs:590-601 | An accepted insert puts a live node of the drawn level at the next index and reports a change of the entry point exactly when there is one. |
| `HnswRuns.RemoveEntryReported` | crates/eidosdb-hnsw/src/index.rs:612-631 | So does a removal. |
| `HnswRuns.CompactCanonical` | crates/eidosdb-hnsw/src/index.rs:78-92 | Compaction never fails, equals a fresh index bulk-loaded with the live pairs in node order, and keeps the content. |
| `HnswRuns.CompactIdempotent` | crates/eidosdb-hnsw/src/index.rs:78-92 | A second compaction changes nothing, generator state included. |
| `HnswRuns.BulkInsertDecided` | crates/eidosdb-hnsw/src/index.rs:59-67 | A bulk insert succeeds exactly for distinct ids that are not live and embeddings of the right length. |
| `HnswChoices.InsertAllStops` | crates/eidosdb-hnsw/src/index.rs:59-67 | Everything goes in, or everything before the first point that is refused, with that point's error. |
| `HnswRuns.StepRefines` | crates/eidosdb-hnsw/src/index.rs:398-407 | Each operation keeps the invariant and answers as the oracle does, errors included. |
| `HnswRuns.RunRefines` | crates/eidosdb-hnsw/src/index.rs:398-632 | After any run the graph is well formed, the live map a bijection, the entry point of maximal level, the generator where the node count puts it, and the content the oracle's. |
| `HnswChoices.RunLevels` | crates/eidosdb-hnsw/src/rng.rs:40-77 | After any run node i has the level that draw i + 1 of the seed gives. |
| `HnswExact.SearchSound` | crates/eidosdb-hnsw/src/index.rs:409-459 | In every reachable state a search returns at most k distinct live admissible ids with their scores, best first. |
| `HnswChoices.SearchAnswers` | crates/eidosdb-hnsw/src/index.rs:409-459 | Every query is decided: refused for its length, then for a metric other than the configured one, empty for an empty index, and otherwise the k best of what a beam of max(ef_search, k) finds on layer 0 from the end of the descent to layer 1. |
| `HnswExact.SearchExact` | crates/eidosdb-hnsw/src/index.rs:409-459 | With everything admissible reachable over layer 0 and a wide enough beam, it returns the k best. |
| `HnswExact.SearchExactIff` | crates/eidosdb-hnsw/src/index.rs:409-459 | With k at least the number of live admissible nodes, the answer is the k best exactly when layer 0 leads from the start to each of them. |
| `HnswExact.SmallSearchExact` | crates/eidosdb-hnsw/src/index.rs:409-459 | With at most 2m + 1 nodes and a beam as wide as the live count, no reachability assumption is needed. |
| `HnswExact.FlatRunHolds` | crates/eidosdb-core/src/flat.rs:27-61 | The flat index under any run holds the oracle's content, each id once. |
| `HnswExact.HnswEqualsFlat` | crates/eidosdb-hnsw/src/index.rs:381-602 | For every run that leaves at most 2m + 1 nodes and every wide enough query, graph and flat index return the same result, errors included. |
| `HnswSnapshot.SnapshotRestores` | crates/eidosdb-hnsw/src/index.rs:100-169 | A snapshot of any reachable index is accepted and restores graph, live map, entry point and generator exactly. |
| `HnswSnapshot.SnapshotReads` | crates/eidosdb-hnsw/src/index.rs:100-114 | A snapshot holds each node's id, level, mark and lists, the entry point with its level, the generator state and the live count. |
| `HnswSnapshot.RestoreNodeDecided` | crates/eidosdb-hnsw/src/index.rs:129-141 | Restoring a node is refused for a missing vector, an empty or non-finite one, a length unlike the first node's, or an id already live, in that order. |
| `HnswSnapshot.RestoreStops` | crates/eidosdb-hnsw/src/index.rs:123-169 | The first node refused decides the restoring. |
| `HnswIndex.HnswIndex.LinkAll` | crates/eidosdb-hnsw/src/index.rs:546-588 | The layer loop, mutating the graph in place, ends with the specified graph and touched nodes. |
| `HnswIndex.HnswIndex.InsertTracked` | crates/eidosdb-hnsw/src/index.rs:500-602 | The method's new state and delta are the specified ones. |
| `HnswIndex.HnswIndex.RemoveTracked` | crates/eidosdb-hnsw/src/index.rs:608-632 | Likewise for removal. |
| `HnswIndex.HnswIndex.SearchGraph` | crates/eidosdb-hnsw/src/index.rs:409-459 | Descent, beam, cut, sort and cut compute the specified answer. |
| `HnswIndex.HnswIndex.BulkInsert` | crates/eidosdb-hnsw/src/index.rs:59-67 | Inserts in order, stopping at the first refusal. |
| `HnswIndex.HnswIndex.CompactGraph` | crates/eidosdb-hnsw/src/index.rs:78-92 | An embedding that fails validation leaves the index as it was; otherwise the graph is emptied, the generator reset to the seed and the live pairs inserted again. |
| `HnswIndex.Restore` | crates/eidosdb-hnsw/src/index.rs:123-169 | The restoring loop accepts and rejects as specified and ends with the specified index. |
| `Bytes.CastRoundTrip` | crates/eidosdb-storage/src/segment.rs:86-146 | Floats written as bytes read back as the same floats. |
| `Bytes.CastAt` | crates/eidosdb-storage/src/segment.rs:86-100 | Float i is written as its four bytes in order at offset 4i. |
| `Bytes.LaterWeighsMore` | crates/eidosdb-storage/src/manifest.rs:32-78 | Little-endian: a later byte weighs 256 times the one before it. |
| `Bytes.LittleEndianBack` | crates/eidosdb-storage/src/manifest.rs:62-78 | Writing back the number some bytes spell gives those bytes. |
| `Manifest.ManifestRoundTrip` | crates/eidosdb-storage/src/manifest.rs:32-105 | Every manifest that fits its fields is read back from its 17 bytes. |
| `Manifest.ManifestReads` | crates/eidosdb-storage/src/manifest.rs:42-78 | Of all byte strings exactly those of 17 bytes with a known metric read as a manifest, and writing it gives them back; the others are corruption. |
| `Manifest.ManifestLayout` | crates/eidosdb-storage/src/manifest.rs:32-105 | Which bytes hold the version, the dimension, the metric and the watermark, and which byte stands for which metric. |
| `Segment.HeaderDecides` | crates/eidosdb-storage/src/segment.rs:149-198 | A header validates against exactly the metric and dimension it was written for; any other is a format mismatch. |
| `Segment.HeaderLayout` | crates/eidosdb-storage/src/segment.rs:149-161 | The 32 header bytes: magic, version, dimension, metric byte, zeros. |
| `Segment.HeaderAccepts` | crates/eidosdb-storage/src/segment.rs:163-198 | Any file at all is accepted exactly if it has 32 bytes and its first 17 are the header's; otherwise which refusal it gets. |
| `Segment.CreateDecided` | crates/eidosdb-storage/src/segment.rs:42-61 | A new segment is the header alone, mapped without records; only a dimension of 2^32 or more is refused. |
| `Segment.OpenAccepts` | crates/eidosdb-storage/src/segment.rs:63-82 | Opening a segment fails for no other reason. |
| `Segment.RecordReads` | crates/eidosdb-storage/src/segment.rs:137-146 | Slot i of a file of records reads as record i, whatever bytes follow. |
| `Segment.RecordDecided` | crates/eidosdb-storage/src/segment.rs:137-146 | A record is read exactly if it is mapped and lies in the map, and then from its own place. |
| `Segment.OpenCuts` | crates/eidosdb-storage/src/segment.rs:63-82 | Opening drops everything past the watermark and maps exactly the committed records. |
| `PersistentFlatFacts.CheckFits` | crates/eidosdb-storage/src/persistent_flat.rs:96-128 | The validation loop accepts exactly the batches of right length whose ids are new and distinct. |
| `PersistentFlatFacts.CheckReports` | crates/eidosdb-storage/src/persistent_flat.rs:96-128 | A refused batch is refused for its first bad item: a wrong length first, then an id that is stored or came earlier in the batch. |
| `PersistentFlatFacts.BatchRefused` | crates/eidosdb-storage/src/persistent_flat.rs:96-128 | A refused batch changes nothing and reports that. |
| `PersistentFlatFacts.BatchHolds` | crates/eidosdb-storage/src/persistent_flat.rs:96-128 | A batch is applied whole when it fits and not at all otherwise; file, map, tail and counters stay in agreement, mapped plus tail equal to the watermark. |
| `PersistentFlatFacts.TornHolds` | crates/eidosdb-storage/src/persistent_flat.rs:96-128 | Dying before the commit, after any number of appended bytes, leaves the committed catalog and records followed by the first n bytes of the batch's vectors, or by nothing if it is refused. |
| `PersistentFlatFacts.OpenRecovers` | crates/eidosdb-storage/src/persistent_flat.rs:33-88 | Whatever follows the committed records, reopening represents exactly them. |
| `PersistentFlatFacts.OpenDecided` | crates/eidosdb-storage/src/persistent_flat.rs:33-88 | Opening succeeds exactly when the manifest is of version 1 and of these parameters and the file begins as their header does; a manifest of other parameters is a format mismatch. |
| `PersistentFlatFacts.InsertIsBatch` | crates/eidosdb-storage/src/persistent_flat.rs:259-277 | The separate single-insert path does what a batch of one does. |
| `PersistentFlatFacts.RemoveHolds` | crates/eidosdb-storage/src/persistent_flat.rs:279-285 | A removal takes out one id and leaves the records alone. |
| `PersistentFlatFacts.GatherReads` | crates/eidosdb-storage/src/persistent_flat.rs:230-243 | Values read through map or tail are the content's embeddings. |
| `PersistentFlatFacts.CheckpointHolds` | crates/eidosdb-storage/src/persistent_flat.rs:132-138 | A checkpoint maps every record and changes nothing else. |
| `PersistentFlatFacts.OrderIncreases` | crates/eidosdb-storage/src/persistent_flat.rs:204-228 | Compaction visits the ids in strictly increasing slot order. |
| `PersistentFlatFacts.CompactHolds` | crates/eidosdb-storage/src/persistent_flat.rs:204-228 | Uninterrupted compaction keeps the content; slots become 0..n-1 in old slot order and the watermark the live count. |
| `PersistentFlatFacts.CompactKeepsOrder` | crates/eidosdb-storage/src/persistent_flat.rs:204-228 | The new slots stand in the order the old ones did. |
| `PersistentFlatFacts.SnapshotHolds` | crates/eidosdb-storage/src/persistent_flat.rs:164-193 | A copied directory holds the slots, the watermark and exactly the committed records, and opens to a store with the same content. |
| `PersistentFlatFacts.SearchHolds` | crates/eidosdb-storage/src/persistent_flat.rs:291-325 | In whatever order the slot table is iterated, a search returns the k best admissible ids. |
| `CompactionCrash.TornRecordReads` | crates/eidosdb-storage/src/persistent_flat.rs:220-223 | In the torn file a record written completely is the vector moved there, and one not reached is zero. |
| `CompactionCrash.TornCompactionOpens` | crates/eidosdb-storage/src/persistent_flat.rs:220-223 | Wherever a crash falls between truncation and commit, the store reopens soundly with the old slots over the torn records. |
| `CompactionCrash.CrashedCompaction` | crates/eidosdb-storage/src/persistent_flat.rs:220-223 | For every number of bytes written, the content survives exactly when each live slot's torn record equals its vector, which the state before tells. |
| `CompactionCrash.AppendedIntact` | crates/eidosdb-storage/src/persistent_flat.rs:221-223 | With the append complete and the slots not committed, that is: each id's vector equals the one moved to its old slot, or zero past the last. |
| `CompactionCrash.CompactionCrashSafe` | crates/eidosdb-storage/src/persistent_flat.rs:220-223 | The content survives every crash point exactly when every live vector is zero. |
| `PersistentFlatRuns.CompactionCrashLoses` | crates/eidosdb-storage/src/persistent_flat.rs:220-223 | A store with one point of component 1.0 loses it to a crash right after the truncation. |
| `PersistentFlatRuns.CompactionCrashMisreads` | crates/eidosdb-storage/src/persistent_flat.rs:221-223 | Three points less one: a crash after the append gives an id another id's vector. |
| `PersistentFlatRuns.ExecHolds` | crates/eidosdb-storage/src/persistent_flat.rs:96-285 | Each event, crashed or not, leaves a sound store and has on the content the effect of its committed part, except exactly a crashed compaction that loses a live record. |
| `PersistentFlatRuns.RunHolds` | crates/eidosdb-storage/src/persistent_flat.rs:91-285 | After any run with crashes at any byte of an insert, a batch or a compaction, and reopenings, the store is sound and, if no crashed compaction lost a live record, holds exactly the committed operations. |
| `PersistentFlatRuns.OtherCrashesKeep` | crates/eidosdb-storage/src/persistent_flat.rs:91-285 | Without a crash inside a compaction that condition always holds. |
| `PersistentFlatRuns.RunSearch` | crates/eidosdb-storage/src/persistent_flat.rs:291-325 | In every such state it answers as a flat index holding that content. |
| `FlatStore.SegmentFile.Append` | crates/eidosdb-storage/src/segment.rs:86-100 | Appends whole records or refuses; a torn append leaves a prefix. |
| `FlatStore.CatalogFile.InsertSlots` | crates/eidosdb-storage/src/catalog.rs:86-114 | One transaction: consecutive slots and the watermark together. |
| `FlatStore.CatalogFile.ReplaceSlots` | crates/eidosdb-storage/src/catalog.rs:117-145 | One transaction: the whole slot table and the watermark. |
| `FlatStore.CatalogFile.LiveSlots` | crates/eidosdb-storage/src/catalog.rs:161-174 | Lists every id of the table once. |
| `FlatStore.PersistentFlatIndex.InsertItems` | crates/eidosdb-storage/src/persistent_flat.rs:96-128 | Validate, append, commit, then grow counters and tail: the specified state, or the specified disk when the process dies in the append. |
| `FlatStore.PersistentFlatIndex.InsertOne` | crates/eidosdb-storage/src/persistent_flat.rs:259-277 | The specified state and error. |
| `FlatStore.PersistentFlatIndex.RemoveOne` | crates/eidosdb-storage/src/persistent_flat.rs:279-285 | The specified state and answer. |
| `FlatStore.PersistentFlatIndex.CheckpointNow` | crates/eidosdb-storage/src/persistent_flat.rs:132-138 | Remaps to the watermark and empties the tail. |
| `FlatStore.PersistentFlatIndex.CompactNow` | crates/eidosdb-storage/src/persistent_flat.rs:204-228 | On a sound store compaction succeeds with the specified state, or leaves the specified disk when the process dies in the append. |
| `FlatStore.PersistentFlatIndex.SearchStore` | crates/eidosdb-storage/src/persistent_flat.rs:291-325 | Dimension error, or the k best of the content. |
| `FlatStore.OpenSegment` | crates/eidosdb-storage/src/segment.rs:63-82 | Validate, set the length, map: the specified segment or refusal. |
| `FlatStore.Reopen` | crates/eidosdb-storage/src/persistent_flat.rs:33-88 | Manifest checks, segment, counters: whatever records the catalog commits to, a file that begins with them opens to an index that represents exactly them. |
| `PersistentHnswFacts.TouchedSuffice` | crates/eidosdb-storage/src/persistent_hnsw.rs:278-331 | If rows outside the touched set did not change, writing only the touched rows makes the tables equal the full snapshot. |
| `PersistentHnswFacts.MirrorsMeans` | crates/eidosdb-storage/src/persistent_hnsw.rs:375-418 | What it is for the tables to equal the full snapshot, row by row and key by key. |
| `PersistentHnswFacts.InsertReports` | crates/eidosdb-hnsw/src/index.rs:500-602 | Every row an accepted insert changes is among those it reports. |
| `PersistentHnswFacts.InsertMirrored` | crates/eidosdb-storage/src/persistent_hnsw.rs:278-331 | After an accepted insert the tables equal the full snapshot. |
| `PersistentHnswFacts.RemoveMirrored` | crates/eidosdb-storage/src/persistent_hnsw.rs:335-371 | After a removal too, although it writes one node row and no list. |
| `PersistentHnswFacts.ReopenYields` | crates/eidosdb-storage/src/persistent_hnsw.rs:144-245 | Reopening restores the graph of the tables with the segment's first records as vectors, in whatever order the node table is iterated. |
| `PersistentHnswFacts.OpenRefuses` | crates/eidosdb-storage/src/persistent_hnsw.rs:144-180 | A dimension, metric byte or configuration no store is created with is refused as corruption; a store that opens has a valid segment header and the stored configuration. |
| `PersistentHnswRuns.ReopenExact` | crates/eidosdb-storage/src/persistent_hnsw.rs:144-245 | A durable store reopens as the very index that was in RAM, whatever a torn append left behind. |
| `PersistentHnswRuns.RemoveDurable` | crates/eidosdb-storage/src/persistent_hnsw.rs:335-371 | A removal keeps a durable store durable and answers as the index in RAM. |
| `PersistentHnswRuns.BulkLoadDurable` | crates/eidosdb-storage/src/persistent_hnsw.rs:249-266 | A bulk load of insertable points is durable and holds the index built in RAM. |
| `PersistentHnswRuns.BulkLoadAnswers` | crates/eidosdb-storage/src/persistent_hnsw.rs:249-266 | A bulk load is refused as corruption if some vector is not whole records, before the index sees any point, and otherwise answers as the bulk insert in RAM. |
| `PersistentHnswRuns.TornInsertLeaves` | crates/eidosdb-storage/src/persistent_hnsw.rs:278-288 | Dying inside the append leaves the tables alone and the first n bytes of the vector behind the file, or nothing if the vector is refused. |
| `PersistentHnswLedger.InsertBacked` | crates/eidosdb-storage/src/persistent_hnsw.rs:278-331 | From any state of a run an insert succeeds exactly when accepted, keeps tables and index in step, and appends its records to the segment, accepted or not. |
| `PersistentHnswLedger.InsertAnswers` | crates/eidosdb-storage/src/persistent_hnsw.rs:278-288 | The error of every refused insert: corruption for a vector that is not whole records, changing nothing; then the dimension mismatch; then the live id. |
| `PersistentHnswLedger.BackedReopens` | crates/eidosdb-storage/src/persistent_hnsw.rs:144-245 | Any such state, with any torn bytes after it, reopens; the index is the one in RAM exactly when the records begin with the nodes' vectors. |
| `PersistentHnswLedger.AlignedStep` | crates/eidosdb-storage/src/persistent_hnsw.rs:144-371 | For every event, the records begin with the nodes' vectors afterwards exactly under a condition on the state before. |
| `PersistentHnswLedger.ExecBacked` | crates/eidosdb-storage/src/persistent_hnsw.rs:144-371 | Every event, unguarded, crashes and reopenings included, leaves the index and records the ledger predicts. |
| `PersistentHnswLedger.EveryRun` | crates/eidosdb-storage/src/persistent_hnsw.rs:144-371 | So does every run; reopening it succeeds and returns the index in RAM exactly when the ledger is aligned. |
| `PersistentHnswLedger.RunExactly` | crates/eidosdb-storage/src/persistent_hnsw.rs:144-371 | All reopenings of a run are exact precisely when each meets aligned records, and then the index is the one of a process that never died. |
| `PersistentHnswLedger.CreateBacked` | crates/eidosdb-storage/src/persistent_hnsw.rs:95-140 | A new store is a starting point of such runs, with no records. |
| `PersistentHnswLedger.InsertThenReopen` | crates/eidosdb-storage/src/persistent_hnsw.rs:278-331 | After an insert into any such state, reopening is exact exactly when the records were aligned and an accepted vector with records to spare is the next record. |
| `PersistentHnswLedger.CompactThenReopen` | crates/eidosdb-storage/src/persistent_hnsw.rs:270-273 | After a compaction of any such state, reopening is exact exactly when the live vectors, in node order, came first in the segment. |
| `PersistentHnswLedger.RejectedThenAccepted` | crates/eidosdb-storage/src/persistent_hnsw.rs:283-288 | After an insert rejected for any reason, of any multiple of the dimension, the next accepted node reopens with its first record: exact only if that equals the new vector. |
| `PersistentHnswLedger.RejectedInsertCorrupts` | crates/eidosdb-storage/src/persistent_hnsw.rs:283-288 | Three concrete inserts after which an id reopens with another's vector. |
| `PersistentHnswLedger.CompactionCorrupts` | crates/eidosdb-storage/src/persistent_hnsw.rs:270-273 | Two inserts, a removal and a compaction after which an id reopens with another's vector. |
| `HnswStore.PersistentHnswIndex.WriteThroughInsert` | crates/eidosdb-storage/src/persistent_hnsw.rs:278-331 | Append, insert, write the touched rows: the specified state and error. |
| `HnswStore.PersistentHnswIndex.WriteThroughRemove` | crates/eidosdb-storage/src/persistent_hnsw.rs:335-371 | Remove, write the touched node rows: the specified state and answer. |
| `HnswStore.PersistentHnswIndex.FlushAll` | crates/eidosdb-storage/src/persistent_hnsw.rs:375-418 | The tables become the full snapshot. |
| `HnswStore.PersistentHnswIndex.CompactAll` | crates/eidosdb-storage/src/persistent_hnsw.rs:270-273 | Compact in RAM, then flush: the specified state. |
| `HnswStore.OpenStore` | crates/eidosdb-storage/src/persistent_hnsw.rs:144-245 | Reading the tables row by row and restoring opens or refuses as specified. |
| `Lexical.CountTokens` | crates/eidosdb-lexical/src/in_memory.rs:48-53 | The counting loop yields each token's count and the number of tokens. |
| `Lexical.CountMeans` | crates/eidosdb-lexical/src/in_memory.rs:48-53 | A term is counted exactly if it occurs, as often as it occurs. |
| `Lexical.ScoreOfQuery` | crates/eidosdb-lexical/src/in_memory.rs:77-114 | A score is a fold over the query terms in order, repeats included: a term the document has adds one contribution of its frequency, the lengths and its document frequency. |
| `Lexical.FoundMatches` | crates/eidosdb-lexical/src/in_memory.rs:77-114 | What is found is admissible, scores above zero and contains a query term. |
| `Lexical.TotalMeans` | crates/eidosdb-lexical/src/in_memory.rs:48-66 | The token total is the sum of the document lengths, in any order. |
| `MemoryLexical.InMemoryLexicalIndex.Forget` | crates/eidosdb-lexical/src/in_memory.rs:30-42 | Takes a document out; document frequencies and token total stay exact. |
| `MemoryLexical.InMemoryLexicalIndex.Insert` | crates/eidosdb-lexical/src/in_memory.rs:46-66 | Adds or replaces a document; document frequencies and token total stay exact. |
| `MemoryLexical.InMemoryLexicalIndex.SearchText` | crates/eidosdb-lexical/src/in_memory.rs:77-114 | Returns the k best admissible documents with a positive score. |
| `PersistentLexical.TablesDetermine` | crates/eidosdb-storage/src/persistent_lexical.rs:14-16 | The three tables determine every document's statistics. |
| `PersistentLexical.RetainLists` | crates/eidosdb-storage/src/persistent_lexical.rs:102 | Retaining takes exactly one document out of a posting list. |
| `PersistentLexical.DropPostings` | crates/eidosdb-storage/src/persistent_lexical.rs:95-110 | With the prior term list every posting of a document is dropped, no other, and no empty list stays. |
| `PersistentLexical.PushPostings` | crates/eidosdb-storage/src/persistent_lexical.rs:118-134 | In any order of the terms, each list gets the new document once, with its frequency. |
| `PersistentLexical.InsertRows` | crates/eidosdb-storage/src/persistent_lexical.rs:80-140 | After the transaction the tables mirror the new documents, and the two deltas are the exact differences of corpus size and token total. |
| `PersistentLexical.RemoveRows` | crates/eidosdb-storage/src/persistent_lexical.rs:148-189 | Likewise for a removal, of an absent document too. |
| `PersistentLexical.Recount` | crates/eidosdb-storage/src/persistent_lexical.rs:48-60 | Counting the lengths table gives the exact corpus size and token total. |
| `PersistentLexical.PersistentLexicalIndex.Insert` | crates/eidosdb-storage/src/persistent_lexical.rs:70-146 | Adds or replaces a document; tables and saturating counters stay exact. |
| `PersistentLexical.PersistentLexicalIndex.Remove` | crates/eidosdb-storage/src/persistent_lexical.rs:148-193 | Takes a document out; tables and saturating counters stay exact. |
| `PersistentLexical.AddList` | crates/eidosdb-storage/src/persistent_lexical.rs:236-250 | One posting list adds one term's contribution to every admissible document that has it. |
| `PersistentLexical.PersistentLexicalIndex.SearchText` | crates/eidosdb-storage/src/persistent_lexical.rs:199-257 | Term-at-a-time accumulation returns the k best admissible documents by document-at-a-time score. |
| `LexicalParity.Parity` | crates/eidosdb-storage/src/persistent_lexical.rs:69-257 | Driven through any run of inserts, replacements, removals and reopenings, both indexes return the same hits for every query. |
| `Fusion.FuseRrf` | crates/eidosdb-lexical/src/fusion.rs:10-22 | Every ranked id once, with the sum of 1/(k + rank) over its appearances, best first. |
| `Fusion.WeightMeans` | crates/eidosdb-lexical/src/fusion.rs:10-22 | A rank's weight times (k + rank) is one. |
| `Fusion.OneRankMeans` | crates/eidosdb-lexical/src/fusion.rs:10-22 | A ranking without repeats gives its id at position i, counted from zero, the reciprocal of k + i + 1. |
| `Fusion.TwoRankings` | crates/eidosdb-lexical/src/fusion.rs:10-22 | Of two rankings an id gets 1/(k + rank) from each that names it, and nothing else. |
| `Fusion.FusedIds` | crates/eidosdb-lexical/src/fusion.rs:10-22 | The fused list names each ranked id once and nothing else. |
| `Fusion.OrderIrrelevant` | crates/eidosdb-lexical/src/fusion.rs:10-22 | Permuting the rankings does not change the fused list. |
| `Fusion.Dominance` | crates/eidosdb-lexical/src/fusion.rs:10-22 | For k above -1 and rankings without repeats, an id ahead of another wherever the other appears precedes it. |
| `Stores.UpsertConsistent` | crates/eidosdb-query/src/collection.rs:61-81 | An upsert keeps documents and payloads within the vectors exactly when the length is right or the id had neither. |
| `Stores.UpsertMeans` | crates/eidosdb-query/src/collection.rs:61-81 | An accepted upsert stores the vector, the document's counts exactly if one is given, the payload exactly if one is given, and leaves every other id untouched. |
| `Stores.RejectedMeans` | crates/eidosdb-query/src/collection.rs:68-69 | A rejected one takes the id's vector and touches nothing else. |
| `Stores.RejectedUpsert` | crates/eidosdb-query/src/collection.rs:68-69 | A rejected upsert leaves no trace exactly when the id had no vector. |
| `Stores.UpsertLosesVector` | crates/eidosdb-query/src/collection.rs:68-69 | A concrete consistent collection whose rejected upsert loses the vector and keeps the payload. |
| `Stores.RunConsistent` | crates/eidosdb-query/src/collection.rs:61-116 | Every run whose upserts have the right length keeps the three stores consistent. |
| `Stores.DeletesWhole` | crates/eidosdb-query/src/collection.rs:94-116 | A run of deletes takes a point out of all three stores or leaves it alone in all three, and which is decided by the run and the point's own payload. |
| `Stores.FilterDeletes` | crates/eidosdb-query/src/collection.rs:106-116 | A delete by filter takes exactly the points whose payload matches. |
| `Collections.InMemoryPayloadStore.MatchingIds` | crates/eidosdb-query/src/payload_store.rs:62-69 | Exactly the ids whose payload the filter matches. |
| `Collections.Collection.UpsertPoint` | crates/eidosdb-query/src/collection.rs:61-81 | Remove, insert, then text and payload: the specified stores and error. |
| `Collections.Collection.DeletePoint` | crates/eidosdb-query/src/collection.rs:94-99 | The id leaves all three stores; the answer is whether it had a vector. |
| `Collections.Collection.DeleteMatching` | crates/eidosdb-query/src/collection.rs:106-116 | In any order exactly the matching ids leave all three stores; the count is those with a vector, in consistent stores all of them; nothing matches afterwards. |
| `Collections.Collection.Search` | crates/eidosdb-query/src/collection.rs:119-147 | The k best vectors whose payload passes the filter, each with its payload, or the specified refusal. |
| `Hybrid.SingleChannel` | crates/eidosdb-query/src/hybrid.rs:76-81 | One channel alone answers with its k best, or with nothing if the overfetch factor is zero. |
| `Hybrid.HybridDominance` | crates/eidosdb-query/src/hybrid.rs:35-93 | Among hybrid hits, an id that outranks another in both channels precedes it, overfetch cut included. |
| `Hybrid.DeepFusion` | crates/eidosdb-query/src/hybrid.rs:44-75 | Fetched as deep as the candidates go, the answer is the fusion of the two complete rankings. |
| `Hybrid.QueryFusion` | crates/eidosdb-query/src/hybrid.rs:44-75 | At the query's own depth the answer fuses the first k times overfetch of each complete ranking, so all of them where there are no more. |
| `Hybrid.QueryFetches` | crates/eidosdb-query/src/hybrid.rs:44-75 | An id is in the fused list exactly if a channel ranks it among its first k times overfetch. |
| `Hybrid.QueryChannel` | crates/eidosdb-query/src/hybrid.rs:44-81 | One channel alone gives its first k times overfetch, saturated at the largest machine word. |
| `Collections.HybridHits` | crates/eidosdb-query/src/hybrid.rs:35-93 | At most k distinct hits, all passing the filter, and in consistent stores all of them stored vectors. |
| `Collections.HydratedReads` | crates/eidosdb-query/src/hybrid.rs:79-91 | Each hit keeps its id, score and place, and carries a payload exactly if one is stored for its id, that one. |
| `Collections.Collection.SearchHybrid` | crates/eidosdb-query/src/hybrid.rs:35-93 | Refusals in the code's order; otherwise the first k of the fused or single ranking of what the channels fetched, with payloads. |

## Left out

- Floating point: scores are reals compared only (fusion also adds and divides them); NaN, signed zero, rounding and the narrowing of hybrid scores to f32 are not modelled, and metric formulas, `ln`, idf and BM25 contributions are function parameters. BM25 addition is a parameter as well, so equality of the two text indexes rests on the equal order of summation.
- Fusion.FuseRrf: requires that no rank sits on the pole of 1/(k + rank), where the code divides by zero and yields an infinity; the server only lets positive k through.
- Beam.Explore: among equal (score, id) candidates, which only tombstones sharing an id can produce, the model pops the one pushed first; the standard heap's choice is not specified. The proofs about the search use only that no waiting candidate comes before the one popped.
- Rng.SplitMix64.NextLevel: the floored logarithm of a positive fraction is a parameter, finite since the degree is at least two; rounding of the fraction is left out.
- Fixed-width counters: `usize`, `u64` and `u32` overflow of lengths, counts and slots is left out, except the 64-bit words of the generator, the saturating overfetch depth, the saturating text counters and the 32-bit dimension field.
- The touched node set is a set; its iteration order only permutes writes inside one transaction.
- redb and postcard: a table is a map, a transaction atomic, an encoding injective; migration of old files is not modelled. The memory map is the file's content at the time of mapping.
- PersistentFlatRuns.RunHolds: crashes inside creation are not among the events.
- PersistentHnswRuns.RunExact: asks for more than needed, a simple guard on each event; the exact condition is `PersistentHnswLedger.RunExactly`.
- PersistentHnswLedger.EveryRun: dying inside a compaction before its one transaction is the event Reopen, and inside a bulk load before its transaction a reopening of the new store with a torn tail (`BackedReopens`); dying inside creation is left out.
- Carrying on after an I/O error without reopening.
- FlatStore.PersistentFlatIndex.CompactNow: is stated for stores that agree with their records, on which reading, appending and mapping cannot fail.
- Collections.Collection.UpsertPoint: is stated for the flat index and the in-memory text and payload stores, where the code is generic over the three; the other stores are shown to agree with these in their own modules.
- Collections.Collection.DeletePoint: likewise.
- Collections.Collection.DeleteMatching: likewise.
- Collections.Collection.Search: likewise; the metrics an index supports are a parameter, payloads are opaque and a filter is a predicate on them.
- Collections.Collection.SearchHybrid: likewise, and with both channels set it requires what `Fusion.FuseRrf` requires of the constant.
- The tokenizer is a parameter from text to tokens.
- gRPC service, client, command line, registry, server lifecycle, protobuf conversion and benchmarks: plumbing.
- Recall on large corpora and the distribution of levels: statistical claims.
