# Verified model of the graph engine's algorithmic cores

This project states, in Dafny, what the self-contained algorithmic cores of the repository compute, and proves the
properties their documentation promises. `dafny verify dfyconfig.toml` checks all of it.

| files | what they model |
|---|---|
| `Gf256`, `Polynomial`, `ThresholdKey` | Shamir secret sharing over GF(2^8): tables, splitting, combining, round trip, secrecy |
| `PageRankSpec`, `DistP2P`, `DistWorker`, `DistProtocol` | peer-to-peer PageRank as a transition system of workers, FIFO channels and a coordinator barrier |
| `Sums`, `Walks`, `Brandes` | counting walks, shortest walks, betweenness |
| `Communities`, `Louvain` | modularity and the local-moving phase of community detection |
| `Graphs`, `Components`, `UnionFind` | connected components: label propagation, sequential and sharded, and union-find |
| `Dijkstra` | weighted shortest paths |
| `WordFiles`, `Csr` | the out-of-core CSR file, its three builders, reading it back |
| `Transition`, `PageRank` | PageRank as a Markov chain; push, personalized and pull kernels |
| `CausalProof`, `Decimal` | causal cuts, proofs bound to them, compaction |
| `HnswSearch`, `HnswIndex` | the vector index |
| `Metta`, `MettaEval` | MeTTa text, unification and budgeted rewriting |
| `Strings`, `Sparql`, `SparqlMeaning` | basic graph patterns and property paths |
| `PatternMatcher` | hypergraph pattern matching |
| `Versions`, `SemVer` | the order of version strings |
| `Basics` | options, results and a fact on finite sets |

## How the models read

- A loop of the source is a method with the same loop; a function beside it says what the loop computes, and lemmas
  prove what the source promises about that function. Objects whose fields the source updates (`FieldTables`,
  `Forest`, `Parser`, `Budget`, `Index`, `ThresholdKeyProvider`) are classes.
- Stores are reduced to what the code reads from them: node ids are numbers in id order, edges, triples and atoms are
  lists in storage order. Where the source walks a map or a set the model takes the elements in any order.
- Ranks, weights, gains and distances are reals.
- The distributed run is a state machine. A step is any enabled action of any worker or of the coordinator, so a run
  is an arbitrary interleaving; the theorems quantify over all runs and all their states.
- A content hash is taken to be injective: an atom's handle is its content.
- Edges with an endpoint that is no node are kept in the inputs and skipped where the code skips them. Shortest paths
  do not look beyond the two endpoints, as the code does not: a path may pass an id that is no stored node.

## Where the promise needs a condition

Some promises hold on a condition that the documentation does not state. The model keeps the code, and proves the
condition exact, or gives the input that fails:

- `cc.rs` 58-66: the shard length underflows exactly when the last shard would start beyond `n`
  (`PartitionUndirected`; five nodes in four shards, `FiveInFourDoNotFit`).
- `boundary.rs` 81-86: the binary search finds the owner exactly when no boundary below `n` is repeated
  (`SearchFindsOwner`, `RepeatedBoundMisleads`); a wrong owner ends in an index out of range (`PartitionEdges`).
- `causal-proof.ts` 171-181: the documentation says that every reader has passed the floor; that is so exactly when
  every pinned writer no reader has seen is pinned at its first operation (`FloorBelowReaders`, `FloorAheadOfReader`).
- `causal-proof.ts` 22-24: compaction is invisible exactly to proofs whose dependencies are numbered from 1
  (`InvisibleExactlyFromOne`, `NumberZeroIsFolded`).
- `sparql.ts` 521: zero-or-more and zero-or-one paths with free ends are complete exactly when the predicate touches
  every node (`FreePathsExactly`, `UntouchedNodesAreMissed`); towards a bound object exactly the object itself can be
  missing as a start (`PathToBoundMisses`).
- `sparql.ts` 521-529: a variable repeated at both ends gets the rows of section 18.4 exactly when every edge of the
  predicate is a loop and, for the forms that need no hop, the predicate touches every node (`SameVariableExactly`,
  `OneEdgeMakesARow`, `UntouchedLoopsAreMissed`).
- `patternMatcher.ts` 107-112: a variable's type is checked at its first occurrence only (`TypeSeenTooLate`). Under a
  type lattice that makes no difference, whatever is stored, exactly when every later type is empty or above the first
  one (`TypesCheckedExactly`), and under all lattices exactly when it is empty or the same (`TypesCheckedAnyLattice`).
- `metta-eval.ts` 41 and 81: comparing by printed text is right against a term exactly when no two different parts of
  it print alike (`TextDecidesExactly`, `TextCanMislead`), which holds for printable terms (`PrintableTextsDiffer`),
  and evaluation keeps terms printable; leaves are never rewritten (`FullyNormalExactly`).
- `vendor-graph.ts` 544-549 says that dates are no releases; `2024-01-15` has the shape of release 2024 with a
  prerelease (`DateIsRelease`). What is a release is characterised for all strings (`ReleasesExactly`).

## Model

| member | source | states |
|---|---|---|
| `Gf256.MulIsProductModM` | ts/src/threshold-key.ts:16-32 | the shift-and-add product is the polynomial product of the two bytes modulo x^8 + x^4 + x^3 + x + 1, the field of FIPS 197 section 4.2 |
| `Gf256.MulComm` | ts/src/threshold-key.ts:31 | multiplication is commutative, for all bytes |
| `Gf256.MulAssoc` | ts/src/threshold-key.ts:31 | multiplication is associative, for all bytes |
| `Gf256.MulAddRight` | ts/src/threshold-key.ts:31 | multiplication distributes over exclusive or |
| `Gf256.PowNotOne` | ts/src/threshold-key.ts:20 | 3 is a generator: no power below the 255th is 1 |
| `Gf256.LogExists` | ts/src/threshold-key.ts:19-29 | every nonzero byte is a power of 3 with an exponent below 255, so the LOG table is total on nonzero bytes |
| `Gf256.MulCancel` | ts/src/threshold-key.ts:31-32 | a nonzero factor can be cancelled, so nonzero bytes have inverses |
| `ThresholdKey.FieldTables.constructor` | ts/src/threshold-key.ts:17-29 | after the two fill loops EXP holds the powers of 3 over two periods and LOG their exponents |
| `ThresholdKey.FieldTables.GMul` | ts/src/threshold-key.ts:31 | the table lookup is field multiplication, zero operands included |
| `ThresholdKey.FieldTables.GDiv` | ts/src/threshold-key.ts:32 | the table lookup solves r * b = a for nonzero b |
| `Polynomial.RootBound` | ts/src/threshold-key.ts:45-59 | a nonzero polynomial of degree below t has fewer than t roots |
| `Polynomial.Uniqueness` | ts/src/threshold-key.ts:61-90 | two polynomials of degree below t that agree at t distinct points are the same |
| `Polynomial.Interpolate` | ts/src/threshold-key.ts:45-59 | through any t distinct points there is a polynomial of degree below t |
| `Polynomial.LagrangeIsEval` | ts/src/threshold-key.ts:76-88 | the Lagrange combination of t or more points of a polynomial is its value at the point asked for |
| `ThresholdKey.SplitSecret` | ts/src/threshold-key.ts:46-59 | refuses exactly the parameters outside 2 <= t <= n <= 255; otherwise share i carries x = i + 1 and, byte by byte, the polynomial of the secret byte and the random tail evaluated at x |
| `ThresholdKey.Horner` | ts/src/threshold-key.ts:52-55 | the descending loop computes the value of the polynomial |
| `ThresholdKey.CombineSecret` | ts/src/threshold-key.ts:62-90 | reports the first fault in share order, or returns byte by byte the Lagrange value at 0 |
| `ThresholdKey.NoFault` | ts/src/threshold-key.ts:63-74 | no fault is found exactly when all x are distinct, lie in 1..255 and all lengths agree |
| `ThresholdKey.FaultIsFirst` | ts/src/threshold-key.ts:66-74 | the fault reported is that of the first faulty share, a bad x before a repeated one before a wrong length |
| `ThresholdKey.BasisAtZero` | ts/src/threshold-key.ts:78-84 | the inner loop computes the Lagrange basis polynomial at 0, skipping j itself |
| `ThresholdKey.RoundTrip` | ts/src/threshold-key.ts:46-90 | for every secret, accepted n and t and every random tail, combining any t or more of the shares in any order gives the secret back |
| `ThresholdKey.SomeTailExplains` | ts/src/threshold-key.ts:46-59 | for any t - 1 shares with any byte values and any candidate secret byte there is a tail that produces exactly those shares |
| `ThresholdKey.OneTailExplains` | ts/src/threshold-key.ts:46-59 | that tail is the only one |
| `ThresholdKey.SecretsInterchange` | ts/src/threshold-key.ts:46-59 | the tails that explain the same t - 1 shares under two candidate secrets are in one-to-one correspondence, so the shares favour no secret |
| `ThresholdKey.ThresholdKeyProvider.GetKey` | ts/src/threshold-key.ts:99-107 | refuses below the threshold, otherwise combines the shares held |
| `PageRankSpec.SourcesHaveOutDeg` | crates/hg_analytics/src/ooc.rs:246-247 | no in-neighbour has out-degree 0, so no rank is divided by 0 |
| `DistWorker.SearchFindsOwner` | crates/hg_analytics/src/boundary.rs:81-86 | the binary search returns the owning block for every node exactly when no block boundary below n is repeated |
| `DistWorker.RepeatedBoundMisleads` | crates/hg_analytics/src/boundary.rs:81-86 | with bounds 0, 0, 1 the search may answer an empty block that does not own node 0 |
| `DistWorker.RangeBoundsFit` | crates/hg_analytics/src/boundary.rs:52-64 | the bounds for blocks of equal size are accepted and never mislead the search |
| `DistWorker.PartitionEdges` | crates/hg_analytics/src/boundary.rs:71-132 | for all accepted bounds, repeated ones included: each shard owns its block, ghosts are the distinct remote sources ascending, local lists name each in-neighbour in input order, out-degrees are exact; or an index is out of range, which happens only at an edge whose target the search may place in a block that does not own it, and never when no bound below n is repeated |
| `DistWorker.MakeShard` | crates/hg_analytics/src/boundary.rs:104-129 | global sources become local indices, owned first and then ghosts |
| `DistWorker.BuildSetup` | crates/hg_analytics/examples/dist_p2p.rs:318-360 | the setup of a worker holds the in-edges of its block by local index, the out-degrees of its owned nodes and ghosts, and both routing tables |
| `DistWorker.BuildTables` | crates/hg_analytics/examples/dist_p2p.rs:337-359 | send_local and recv_ghost are the routing tables of the shard layout |
| `DistP2P.TablesMirror` | crates/hg_analytics/examples/dist_p2p.rs:308-309 | what c sends to d is, position by position, what d expects from c |
| `DistP2P.EveryGhostArrives` | crates/hg_analytics/examples/dist_p2p.rs:346-354 | every ghost of a worker has a slot in the table of a peer that owns it |
| `DistWorker.ComputeSuperstep` | crates/hg_analytics/examples/dist_p2p.rs:133-146 | one pass over the flat CSR gives the new owned ranks and their dangling part |
| `DistWorker.StoreMessage` | crates/hg_analytics/examples/dist_p2p.rs:163-168 | a message is scattered into the ghost slots and nowhere else |
| `DistP2P.NewOwnedIsStep` | crates/hg_analytics/examples/dist_p2p.rs:137-146 | computed from the exact local view, the new owned ranks are the slice of the next single-graph iterate |
| `DistP2P.DanglingAgrees` | crates/hg_analytics/examples/dist_p2p.rs:143-145 | the dangling rank summed by a worker is that of its block of the iterate |
| `DistProtocol.SeedIsTeleport` | crates/hg_analytics/examples/dist_p2p.rs:392-395 | the seed add is what a coordinator round over the uniform ranks would send |
| `DistProtocol.NextOk` | crates/hg_analytics/examples/dist_p2p.rs:128-176 | every enabled step of any worker or of the coordinator keeps the protocol invariant |
| `DistProtocol.WorkersAreExact` | crates/hg_analytics/examples/dist_p2p.rs:128-176 | in every reachable state of every interleaving a worker that has finished t supersteps holds exactly its slice of the t-th single-graph iterate |
| `DistProtocol.Barrier` | crates/hg_analytics/examples/dist_p2p.rs:414-428 | no worker enters a superstep before every worker has reported the one before |
| `DistProtocol.OneUnread` | crates/hg_analytics/examples/dist_p2p.rs:109-123 | a peer channel never holds more than one unread message |
| `DistProtocol.NoDeadlock` | crates/hg_analytics/examples/dist_p2p.rs:128-176 | every reachable state but the last has an enabled step |
| `DistProtocol.WorkDecreases` | crates/hg_analytics/examples/dist_p2p.rs:128-176 | every step lowers the remaining work, so all runs end |
| `DistProtocol.RunsEndExactly` | crates/hg_analytics/examples/dist_p2p.rs:431-437 | a run that can go no further has gathered the full iterate, each entry at its own place |
| `Walks.CountFirst` | ts/src/graph-analytics.ts:92-121 | the number of walks can be counted by their first or by their last edge |
| `WalkLists.ListIsComplete` | ts/src/graph-analytics.ts:92-121 | the list of walks behind the count holds every walk of that length between two nodes and no other |
| `WalkLists.ListCount` | ts/src/graph-analytics.ts:92-121 | the recursive count is the length of that list, parallel edges counted apart |
| `WalkLists.ListThrough` | ts/src/graph-analytics.ts:92-121 | the number of listed walks that pass a node at a given position is the product of the counts on both sides |
| `ShortestWalks.VisitCount` | ts/src/graph-analytics.ts:87-91 | shortest walks through v number sigma(s,v) * sigma(v,t), and none visits v twice |
| `ShortestWalks.DependencyRecursion` | ts/src/graph-analytics.ts:113-117 | the dependency of v is the sum over its tight edges of sigma(v)/sigma(w) * (1 + dependency(w)) |
| `ShortestWalks.DependencyMeaning` | ts/src/graph-analytics.ts:87-91 | the dependency is the sum over targets of the share of shortest walks that pass v |
| `Brandes.ScanKeeps` | ts/src/graph-analytics.ts:106-109 | looking at one edge keeps distances, partial path counts and predecessor lists exact for the edges seen |
| `Brandes.SearchIsExact` | ts/src/graph-analytics.ts:101-111 | when the queue is empty every reachable node has its least distance and no other node has one |
| `Brandes.SigmaIsExact` | ts/src/graph-analytics.ts:101-111 | sigma[v] is the number of shortest walks from s to v |
| `Brandes.BreadthFirst` | ts/src/graph-analytics.ts:95-111 | the stack lists the reached nodes in non-decreasing distance, each once, with exact sigma and predecessors |
| `Brandes.PoppedIsFinal` | ts/src/graph-analytics.ts:112-117 | when a node is popped its delta is its full dependency |
| `Brandes.BackPropagate` | ts/src/graph-analytics.ts:112-118 | delta is the dependency of every node and out grows by it for every node but the source |
| `Brandes.TargetsAreEdges` | ts/src/graph-analytics.ts:92-94 | the multigraph searched has an edge for each edge between stored nodes, parallel ones apart |
| `Brandes.ComputeBetweenness` | ts/src/graph-analytics.ts:92-121 | on every directed multigraph out[v] is the betweenness of v: over all sources and targets other than v, the share of shortest walks that pass v |
| `Communities.MoveChangesModularity` | ts/src/graph-analytics.ts:150-155 | moving a node changes the modularity of the labelling by 2 / m2 times the difference of the gains |
| `Communities.GainByTotals` | ts/src/graph-analytics.ts:150-152 | the gain from the weight into a community and its total degree is the pairwise gain of modularity |
| `Communities.TotalsAfterMove` | ts/src/graph-analytics.ts:145-155 | taking a node out and putting it into a community shifts its degree and no other total |
| `Communities.OneCommunity` | ts/src/graph-analytics.ts:123-128 | with every node in one community modularity is 0 |
| `Communities.WeightIsCount` | ts/src/graph-analytics.ts:131-133 | the weight between two nodes is the number of edges between them in either direction, and none for loops |
| `Louvain.BuildWeights` | ts/src/graph-analytics.ts:131-133 | the adjacency holds, both ways, the number of edges between different nodes, loops and dangling edges left out |
| `Louvain.Visit` | ts/src/graph-analytics.ts:144-156 | the node gets the label of greatest gain, the smallest among equals; sumTot is again the total degree per label; a move raises modularity or keeps it and lowers the labels |
| `Louvain.NoLabellingRecurs` | ts/src/graph-analytics.ts:141-159 | along any run of visits in any order a labelling that was left never returns |
| `Louvain.Pass` | ts/src/graph-analytics.ts:143-158 | one pass is the visits in order; it moved nothing exactly when no node would move |
| `Louvain.SweepFirst` | ts/src/graph-analytics.ts:143-144 | the nodes are visited in their order, the first one first |
| `Louvain.PassesOnce` | ts/src/graph-analytics.ts:123-128 | the number of passes and the order of the nodes determine the labels: the computation is deterministic |
| `Louvain.Louvain` | ts/src/graph-analytics.ts:129-161 | the result is reached by at most maxPasses passes from everyone alone, stops early only when settled, never has lower modularity than the start, and is settled whenever maxPasses is at least the number of labellings |
| `LabelPropagation.NeighboursAreLinked` | crates/hg_analytics/src/cc.rs:14-20 | adjacency lists name exactly the linked nodes, loops and invalid edges left out |
| `LabelPropagation.Pass` | crates/hg_analytics/src/cc.rs:23-35 | a pass is the in-place sweep, each node seeing the labels before it; it keeps labels inside their component, lowers the label sum when something changed, and otherwise leaves no neighbour with a smaller label |
| `LabelPropagation.StableIsLeast` | crates/hg_analytics/src/cc.rs:8-9 | labels that no pass changes are the smallest node of each component |
| `LabelPropagation.ConnectedComponents` | crates/hg_analytics/src/cc.rs:10-41 | terminates and labels every node with the smallest node of its undirected component |
| `LabelPropagation.LabelsPartition` | crates/hg_analytics/src/cc.rs:8-9 | two nodes get the same label exactly when they are connected |
| `LabelPropagation.PartitionUndirected` | crates/hg_analytics/src/cc.rs:52-78 | shard c owns the range from c * size to the next, cut off at n; the shards tile the nodes and hold the adjacency of what they own; the unsigned subtraction underflows exactly when a shard would start beyond n |
| `LabelPropagation.DivCeilIsLeast` | crates/hg_analytics/src/cc.rs:57 | size is the least with which that many ranges cover the nodes |
| `LabelPropagation.FiveInFourDoNotFit` | crates/hg_analytics/src/cc.rs:58-66 | five nodes in four shards underflow |
| `LabelPropagation.Superstep` | crates/hg_analytics/src/cc.rs:89-119 | a superstep replaces every label at once by the least one around it, whatever the sharding |
| `LabelPropagation.SuperstepSound` | crates/hg_analytics/src/cc.rs:89-119 | a superstep keeps labels inside their component and never raises one |
| `LabelPropagation.DistributedConnectedComponents` | crates/hg_analytics/src/cc.rs:84-122 | terminates with the same labels as the sequential form for every sharding that tiles the nodes |
| `LabelPropagation.LabelsUnique` | crates/hg_analytics/src/cc.rs:80-83 | least labels are unique, so the sequential and the sharded form agree |
| `UnionFind.Forest.Find` | ts/src/graph-analytics.ts:68-73 | ends on every forest, returns the representative, hangs every node of the way directly under it, and changes no representative |
| `UnionFind.Forest.Union` | ts/src/graph-analytics.ts:74 | joins the two classes under the second representative and leaves all others alone |
| `UnionFind.ConnectedComponents` | ts/src/graph-analytics.ts:66-80 | nodes have the same representative exactly when they are connected, and it is a node of their component |
| `Dijkstra.BuildAdjacency` | ts/src/graph-analytics.ts:213-223 | fails at the first edge of negative weight, wherever it lies, and otherwise lists the network: both ways if undirected, weight 1 where the property is no finite number |
| `Dijkstra.OneEdgeNetwork` | ts/src/graph-analytics.ts:213-223 | an edge is an arc of its weight, or of weight 1 if that is no finite number, and in an undirected graph one each way |
| `Dijkstra.NegativeMeans` | ts/src/graph-analytics.ts:213-223 | refused are weights below 0 and negative infinity, and no others |
| `WeightedWalks.CostAdds` | ts/src/graph-analytics.ts:213-245 | the cost of a walk is the sum of the weights of its arcs |
| `Dijkstra.Nearest` | ts/src/graph-analytics.ts:228-233 | the extraction finds a node of least distance, the smallest id among equals, or that all are final |
| `Dijkstra.RelaxKeeps` | ts/src/graph-analytics.ts:237-242 | relaxing an arc keeps distances tight along predecessors, predecessors final earlier, and final nodes nearer than the rest |
| `Dijkstra.WalkCost` | ts/src/graph-analytics.ts:227-244 | no walk reaches a node that is not final at less than the least tentative distance |
| `Dijkstra.Reconstruct` | ts/src/graph-analytics.ts:181-186 | the predecessors lead back to the source without repeating a node, along a walk whose cost is the distance found |
| `Dijkstra.ShortestPathWeighted` | ts/src/graph-analytics.ts:213-245 | null exactly when an endpoint is absent or the target unreachable; otherwise a real path without repetition whose weights sum to cost, and no walk is cheaper; zero weights, parallel edges and loops included |
| `WordFiles.WordRoundTrip` | crates/hg_analytics/src/ooc.rs:181-182 | a word of k bytes reads back when it is below 256^k |
| `WordFiles.LowByteFirst` | crates/hg_analytics/src/ooc.rs:86-104 | words of four and of eight bytes have their low byte first |
| `WordFiles.DecodeEncode` | crates/hg_analytics/src/ooc.rs:207-215 | a region of words reads back word by word |
| `Csr.CursorInRange` | crates/hg_analytics/src/ooc.rs:60-70 | the cursor of a node with an edge still to come lies inside the node's own range |
| `Csr.PlaceKeeps` | crates/hg_analytics/src/ooc.rs:60-70 | writing one source at its cursor leaves every other node's part as it was |
| `Csr.PlaceBucket` | crates/hg_analytics/src/ooc.rs:145-158 | a bucket buffer becomes the sources of its nodes in order, and every cursor of the bucket ends at the next offset |
| `Csr.WriteCsr` | crates/hg_analytics/src/ooc.rs:76-104 | the direct builder writes the file of the graph |
| `Csr.WriteCsrStreaming` | crates/hg_analytics/src/ooc.rs:21-72 | the two-pass builder with random writes into the file writes the same file |
| `Csr.WriteCsrBucketed` | crates/hg_analytics/src/ooc.rs:112-163 | the bucketed builder writes the same file for every bucket count, empty buckets skipped |
| `Csr.ReadsBack` | crates/hg_analytics/src/ooc.rs:177-215 | opening the file gives back node count, edge count, offsets, neighbours and out-degrees |
| `Csr.FileLayout` | crates/hg_analytics/src/ooc.rs:86-104 | where every word of the file stands and what it is: the two counts, the n + 1 offsets, the in-neighbours and the out-degrees |
| `Csr.InNeighborsAreSources` | crates/hg_analytics/src/ooc.rs:217-220 | the in-neighbours of v are the sources of the valid edges into v in input order, repeats included |
| `Transition.FlowKeepsTotal` | ts/src/graph-analytics.ts:28-43 | the rank passed on in a step is the rank there was |
| `Transition.StepKeepsDistribution` | ts/src/graph-analytics.ts:28-43 | a step keeps ranks non-negative with sum 1 |
| `Transition.StepContracts` | ts/src/graph-analytics.ts:28-47 | a step brings any two rank vectors closer in L1 distance by the damping factor |
| `Transition.ExitBound` | ts/src/graph-analytics.ts:44-47 | when a step moves the ranks by at most tol they are within d * tol / (1 - d) of any fixed point |
| `Transition.FixedPointUnique` | crates/hg_analytics/src/ooc.rs:223-225 | there is at most one fixed point |
| `Transition.IteratesApproach` | ts/src/graph-analytics.ts:32-48 | after k steps the distance to a fixed point is at most d^k times the initial one, from any start |
| `Transition.IteratesSettle` | ts/src/graph-analytics.ts:32-48 | from any start the iterates are a Cauchy sequence: all later ones stay within d^k / (1 - d) times the first step of the k-th |
| `Transition.StepIsMix` | crates/hg_analytics/src/ooc.rs:241-251 | the pull step is the chain's step with uniform teleport |
| `Transition.StepFromNode` | ts/src/graph-analytics.ts:28-43 | from a node a step teleports with probability 1 - d and otherwise follows each out-edge alike, parallel edges apart; without out-edges it teleports |
| `PageRank.Push` | ts/src/graph-analytics.ts:37-42 | pushing equal shares along out-edges adds to every node what the chain sends it |
| `PageRank.UniformPageRank` | ts/src/graph-analytics.ts:15-51 | the result is the iterate at which the stopping rule first holds, from uniform ranks |
| `PageRank.PersonalizedPageRank` | ts/src/graph-analytics.ts:255-301 | the same for any teleport vector, dangling rank following the teleport |
| `PageRank.TeleportOf` | ts/src/graph-analytics.ts:262-270 | the teleport is a distribution: each node's part of the usable seed weight, or uniform if no seed is usable |
| `PageRank.SeedOneMore` | ts/src/graph-analytics.ts:262-270 | seed weights of one node add up; negative ones, ones that are no number and unknown nodes do not count |
| `PageRank.PageRankMmap` | crates/hg_analytics/src/ooc.rs:226-259 | pulling over the mapped file gives the iterate at which the stopping rule first holds |
| `PageRank.StopsBelowTolerance` | ts/src/graph-analytics.ts:44-47 | only a step smaller than tol stops the iteration early, and the first such step does; with tol 0 nothing does |
| `PageRank.ResultUnique` | crates/hg_analytics/src/ooc.rs:223-225 | the stopping rule determines the result, so push and pull over the file return equal ranks |
| `PageRank.ResultIsDistribution` | ts/src/graph-analytics.ts:32-51 | the returned ranks are a distribution, however the iteration ended |
| `PageRank.ResultIsStable` | ts/src/graph-analytics.ts:44-47 | stopped early, no number of further steps moves the ranks by more than d * tol / (1 - d); no fixed point is presupposed |
| `PageRank.ResultIsGood` | ts/src/graph-analytics.ts:32-48 | stopped early, the returned ranks are within d * tol / (1 - d) of any fixed point, and after k steps within d^k times the initial distance |
| `CausalProof.OpIdStrInjective` | ts/src/causal-proof.ts:30 | printed operation ids are distinct for distinct operations, so comparing them compares operations |
| `CausalProof.JoinIsLeastUpperBound` | ts/src/causal-proof.ts:37-42 | the join observes what both cuts do, and every cut that observes both observes the join |
| `CausalProof.CutSubsumes` | ts/src/causal-proof.ts:45-48 | decides whether one cut observes at least what the other does |
| `CausalProof.CutOfOrderIsLeast` | ts/src/causal-proof.ts:54-59 | the cut of an order is the least that observes all its operations |
| `CausalProof.BindProof` | ts/src/causal-proof.ts:88-108 | refuses an empty frame and the first dependency outside it; a bound proof has all dependencies inside a non-empty frame |
| `CausalProof.BoundHoldsAtHome` | ts/src/causal-proof.ts:88-144 | what can be bound is exactly what has a frame and is in it when evaluated against its own cut and dependencies |
| `CausalProof.FirstOutsideOnce` | ts/src/causal-proof.ts:88-108 | the dependency reported is determined: the first outside the frame |
| `CausalProof.HonorProof` | ts/src/causal-proof.ts:121-144 | in frame with the verdict exactly when every dependency is in the cut and the dependencies are, at rising positions, all that the order has of them, as recorded and each as often |
| `CausalProof.ForkIsOutOfFrame` | ts/src/causal-proof.ts:131-141 | exchanging two different dependencies in an order takes the proof out of its frame |
| `CausalProof.ReversedIsOutOfFrame` | ts/src/causal-proof.ts:131-141 | with each dependency recorded once, an order that has two of them the other way round is out of frame |
| `CausalProof.InFrameIsStable` | ts/src/causal-proof.ts:142-143 | an in-frame proof stays in frame with the same verdict when cut and order grow by operations it does not depend on |
| `CausalProof.MeetIsGreatestLowerBound` | ts/src/causal-proof.ts:151-164 | the meet is observed by all cuts, and every cut observed by all is observed by the meet |
| `CausalProof.CutMeet` | ts/src/causal-proof.ts:153-164 | computes the meet, with an entry for every writer of any cut |
| `CausalProof.CompactionFloor` | ts/src/causal-proof.ts:171-181 | lowers the meet below every pinned operation and no further, and never below 0 |
| `CausalProof.FloorBelowReaders` | ts/src/causal-proof.ts:166-170 | all readers have passed the floor exactly when every pinned writer no reader has seen is pinned at its first operation |
| `CausalProof.FloorAheadOfReader` | ts/src/causal-proof.ts:171-181 | a reader that has seen nothing and a pin on the fifth operation of a writer give a floor of 4, which the reader has not passed |
| `CausalProof.CompactPartitions` | ts/src/causal-proof.ts:183-189 | settled and live together are the order; settled is what the floor covers |
| `CausalProof.CompactKeepsOrder` | ts/src/causal-proof.ts:183-189 | settled and live are each in the order of the operations |
| `CausalProof.BoundCut` | ts/src/causal-proof.ts:191-200 | drops exactly the writers the floor covers and changes no other entry |
| `CausalProof.CompactionIsInvisible` | ts/src/causal-proof.ts:146-149 | for every pinned proof, every read cut and every order, evaluation on the live part under the bounded cut gives the result of the full state |
| `CausalProof.InvisibleExactlyFromOne` | ts/src/causal-proof.ts:22-24 | that holds for all cuts and orders exactly when the dependencies are numbered from 1 |
| `CausalProof.NumberZeroIsFolded` | ts/src/causal-proof.ts:22-24 | a pinned dependency numbered 0 is folded away, and a verdict that was in frame is withheld |
| `HnswSearch.InsertSorted` | ts/src/ann.ts:38-47 | inserts at the one place that keeps the list strictly ascending by distance and id |
| `HnswSearch.DistIs` | ts/src/ann.ts:78-84 | the distance is 1 less the sum of products of the entries both vectors have |
| `HnswSearch.DistIsEuclidean` | ts/src/ann.ts:78-84 | for vectors of one length and of norm 1 it is half the squared Euclidean distance |
| `HnswSearch.Consider` | ts/src/ann.ts:101-113 | a node met for the first time is kept or skipped without losing any accepted node nearer than the results |
| `HnswSearch.SearchLayer` | ts/src/ann.ts:86-117 | terminates with a sorted list of at most ef true distances of accepted, reachable nodes; no accepted neighbour of a result and no accepted entry point is nearer than full results; with ef at least the node count it is all accepted reachable nodes |
| `Hnsw.FoundIsGood` | ts/src/ann.ts:137-154 | what a layer search finds has at least the layer's level and is never the node being added |
| `Hnsw.BackListOk` | ts/src/ann.ts:143-152 | a back link keeps the list duplicate-free, self-free, of sufficient level and within its cap |
| `Hnsw.LinkLayer` | ts/src/ann.ts:137-155 | links the new node to the first M found and each of them back, cut to the nearest when too long; other layers stay as they are |
| `Hnsw.LayerMeans` | ts/src/ann.ts:137-154 | in terms of the vectors: the new node links to the nearest M of those found; each of them keeps its neighbours and the new node, or the nearest of them when they are more than 2M at the bottom layer or M above; the others keep theirs |
| `Hnsw.DegreeBound` | ts/src/ann.ts:142-152 | no list is longer than 2M at the bottom layer or M above it |
| `Hnsw.Index.Add` | ts/src/ann.ts:121-157 | keeps the index valid: the entry point has the top level, lists name existing nodes of sufficient level, never the node itself, each once, within M or 2M; a known id changes its vector only; a new one is reached by greedy descent and linked at every shared layer, each search starting from all the layer above found; in terms of the vectors, the search begins at a node at least as near as the entry point, links go to the nearest found, and with efConstruction at least the node count all that can be reached is found |
| `Hnsw.Index.Search` | ts/src/ann.ts:163-175 | at most topK nodes, each accepted by the filter and scored with the sum of products of the query and its stored vector, best first and equal ones by id; when efSearch or topK, four times as much with a filter, is at least the node count, no accepted node reachable at the bottom layer from a node at least as near as the entry point is better than one returned |
| `Metta.TokenizeSerialize` | ts/src/metta.ts:30-78 | the tokens of printed text are the tokens of the expression |
| `Metta.TokenizeExactly` | ts/src/metta.ts:30 | the tokens of a text are the one way to read it as parentheses and maximal words with white space around them |
| `Metta.SpacesAre` | ts/src/metta.ts:30 | the code points that separate words |
| `Metta.Parser.Parse` | ts/src/metta.ts:36-53 | the cursor-advancing parser computes the parse function, its error cases included |
| `Metta.ParseErrors` | ts/src/metta.ts:40-51 | nothing to read, a closing parenthesis first and an opening one alone give their errors |
| `Metta.NeverClosed` | ts/src/metta.ts:43-47 | a list whose items parse but which nothing closes is unbalanced |
| `Metta.RoundTrip` | ts/src/metta.ts:58-78 | parsing the printed text gives back every printable expression whose nesting is within the limit, and refuses deeper ones as too deep |
| `Metta.ParseProgram` | ts/src/metta.ts:63-70 | reads all forms to the end or reports the first error |
| `Metta.ProgramRoundTrip` | ts/src/metta.ts:63-78 | the same for whole programs |
| `Metta.SerializeInjective` | ts/src/metta.ts:72-78 | different printable expressions print differently, at any depth |
| `Metta.ParsedRoundTrips` | ts/src/metta.ts:30-78 | whatever the text, an expression or a program that parses is printable, and its printed text parses to it again |
| `MettaEval.TextDecidesExactly` | ts/src/metta-eval.ts:38-51 | comparing by printed text is right against a term, whatever the pattern, exactly when no two different parts of the term print alike: then and only then does unification succeed for exactly the patterns that have the term as an instance |
| `MettaEval.UnifyExactly` | ts/src/metta-eval.ts:38-51 | against such a term the binding found turns the pattern into the term |
| `MettaEval.PrintableTextsDiffer` | ts/src/metta-eval.ts:41 | the parts of every printable term, and so of every parsed one, print differently |
| `MettaEval.InstantiateAgree` | ts/src/metta.ts:146-152 | instantiation depends only on the variables of the template |
| `MettaEval.TextCanMislead` | ts/src/metta-eval.ts:41 | a symbol named like a printed list and that list are bound to one variable |
| `MettaEval.GroundedArithmetic` | ts/src/metta-eval.ts:67-71 | +, - and * of numbers give a number with the value of the integers' operation |
| `MettaEval.GroundedComparison` | ts/src/metta-eval.ts:72-75 | <, >, <= and >= of numbers give the symbol True or False as the integers compare |
| `MettaEval.GroundedEquality` | ts/src/metta-eval.ts:64-65 | == gives True exactly for terms of one text, which for printable terms are the same term |
| `MettaEval.GroundedOnly` | ts/src/metta-eval.ts:61-78 | nothing else is a grounded operation: other names, other lengths and arguments that are no numbers are not |
| `MettaEval.NumbersRead` | ts/src/metta-eval.ts:54-55 | every integer is written in decimal and read back; leading zeros are read, a lone sign, nothing at all or a fraction is no number |
| `MettaEval.FirstMatchIsFirst` | ts/src/metta-eval.ts:95-98 | a rule applies only if no earlier one matches |
| `MettaEval.ArgumentsFirst` | ts/src/metta-eval.ts:89-90 | evaluating the items of a list and then the list of their values is evaluating the list |
| `MettaEval.GroundedBeforeRules` | ts/src/metta-eval.ts:91-98 | a list of values is tried as a grounded operation before any rule, and either costs one step |
| `MettaEval.ConditionalIs` | ts/src/metta-eval.ts:82-88 | a conditional takes its first branch exactly when the condition evaluates to the symbol True; the other branch has no influence |
| `MettaEval.ReducePrintable` | ts/src/metta-eval.ts:80-100 | evaluation keeps terms printable, so its comparisons by text are comparisons of terms |
| `MettaEval.ReduceNormal` | ts/src/metta-eval.ts:80-100 | with budget left the result is normal: at no list position does a grounded operation or a rule apply |
| `MettaEval.NormalIsFixed` | ts/src/metta-eval.ts:80-100 | a normal form without conditionals evaluates to itself at no cost |
| `MettaEval.FullyNormalExactly` | ts/src/metta-eval.ts:81 | leaves are never rewritten: results are free of matches at every position exactly when every left side is a list |
| `MettaEval.ReduceDerives` | ts/src/metta-eval.ts:80-100 | the result is reached from the expression by as many single rewrites as the budget went down |
| `MettaEval.ReduceExpr` | ts/src/metta-eval.ts:80-100 | the recursive evaluator with its shared budget computes the reduction, for every ruleset, expression and budget |
| `Sparql.BuildIndex` | ts/src/sparql.ts:458-467 | each bucket holds the triples with its key in their order |
| `Sparql.BucketIsEnough` | ts/src/sparql.ts:477-489 | the bucket of a bound position gives the solutions of the full scan in the same order |
| `Sparql.CandidateTriples` | ts/src/sparql.ts:479-489 | picks the smallest bucket among the bound positions, all triples if none is bound |
| `Sparql.EvalBGP` | ts/src/sparql.ts:535-550 | for every pattern list and seed the indexed evaluation returns the list of the scan, in the same order |
| `SparqlMeaning.ScanIsMatching` | ts/src/sparql.ts:426-443 | a pattern gives a row for each matching triple, in the order of the triples, repeated ones repeated |
| `SparqlMeaning.FirstPattern` | ts/src/sparql.ts:535-550 | the patterns behind the first go on from each of its rows |
| `SparqlMeaning.ExtendInTurn` | ts/src/sparql.ts:535-550 | the solutions of a list of seeds are those of its parts, one after the other |
| `SparqlMeaning.BGPSound` | ts/src/sparql.ts:426-443 | a solution extends a seed and makes every pattern a triple of the store, or joins its ends as the path modifier asks; paths may stand anywhere, their end variables named and not one variable without a value |
| `SparqlMeaning.BGPComplete` | ts/src/sparql.ts:426-443 | every assignment that extends a seed and makes each pattern hold, paths included, is covered by a solution; a path that needs no hop must start at a given node or one that its predicate touches |
| `SparqlMeaning.PathSound` | ts/src/sparql.ts:491-533 | a row of a path keeps the binding and gives both ends values that the path joins |
| `SparqlMeaning.PathComplete` | ts/src/sparql.ts:491-533 | values that the path joins and that keep the binding are found |
| `Sparql.Follow` | ts/src/sparql.ts:512-513 | terminates on cyclic data with exactly the nodes one or more hops away |
| `Sparql.EvalPath` | ts/src/sparql.ts:495-533 | returns the rows of the path closure, starts and ends in ascending order |
| `SparqlMeaning.PathFromBound` | ts/src/sparql.ts:491-533 | from a bound subject the ends are exactly the one-or-more, zero-or-more or zero-or-one closure of section 18.4 of SPARQL 1.1 Query Language, ascending, each once |
| `SparqlMeaning.PathBetweenFree` | ts/src/sparql.ts:521-531 | with both ends free there is a row for each closure pair that starts at a node the predicate touches |
| `SparqlMeaning.PathToBound` | ts/src/sparql.ts:515-531 | from a free subject to a bound object the starts are the touched nodes that lead to it, ascending, each once |
| `SparqlMeaning.PathToBoundMisses` | ts/src/sparql.ts:521 | of all starts that lead to the object exactly the object itself is missing, and only when no hop is needed and the predicate does not touch it |
| `SparqlMeaning.FreePathsExactly` | ts/src/sparql.ts:521 | one-or-more is then complete; the forms that allow no hop are complete exactly when the predicate touches every node |
| `SparqlMeaning.UntouchedNodesAreMissed` | ts/src/sparql.ts:521 | in a store of one triple with another predicate the zero-length path of a node is missing |
| `SparqlMeaning.SameVariableExactly` | ts/src/sparql.ts:526-529 | a path from a variable to itself has for each node with such a path one row and no other rows, as section 18.4 asks, exactly when every edge of the predicate is a loop and, if no hop is needed, the predicate touches every node |
| `SparqlMeaning.OneEdgeMakesARow` | ts/src/sparql.ts:526-529 | one edge that is no loop gives a row although no node has a path to itself |
| `SparqlMeaning.UntouchedLoopsAreMissed` | ts/src/sparql.ts:521 | without any edge of the predicate both zero-length paths are missing although every edge is a loop |
| `PatternMatcher.UnifySound` | ts/src/patternMatcher.ts:93-125 | a binding found extends the given one and makes the term the handle, new variables of the right type |
| `PatternMatcher.UnifyComplete` | ts/src/patternMatcher.ts:93-125 | any grounding that makes the term the handle is found, as far as the term fixes it |
| `PatternMatcher.FindMatches` | ts/src/patternMatcher.ts:49-75 | the groundings are exactly the assignments of the pattern's variables under which every clause is present up to subtyping, each once, variables typed where they first occur |
| `PatternMatcher.PresentIsStored` | ts/src/patternMatcher.ts:93-125 | where no type is below another, a clause is present exactly when its instance is stored, or if it has no items a node of its type |
| `PatternMatcher.SubtypesAnswer` | ts/src/patternMatcher.ts:82-84 | a stored link answers the clauses and terms of its type and of the types above it, and no others |
| `PatternMatcher.TypesCheckedExactly` | ts/src/patternMatcher.ts:105-116 | under any type lattice the groundings are exactly the assignments typed at every occurrence, in every store, exactly when each later type of a variable is empty or above its first one |
| `PatternMatcher.TypesCheckedAnyLattice` | ts/src/patternMatcher.ts:105-116 | this holds under every lattice exactly when each later type is empty or the first one |
| `PatternMatcher.ConsistentExactly` | ts/src/patternMatcher.ts:105-116 | for consistently typed variables it holds in every space, whatever its type relation |
| `PatternMatcher.ClauseOrder` | ts/src/patternMatcher.ts:17-27 | permuting or repeating the clauses leaves the set of groundings unchanged when in neither order a variable is restricted further after its first occurrence |
| `PatternMatcher.ConsistentNotLate` | ts/src/patternMatcher.ts:105-116 | consistent types meet that condition in every order of the clauses |
| `PatternMatcher.TypeSeenTooLate` | ts/src/patternMatcher.ts:107-112 | a restriction written at a later occurrence is not enforced: a pattern with a grounding that is no assignment |
| `Versions.CompareNumericIds` | ts/src/vendor-graph.ts:623-633 | comparing digit strings of any length is comparing the numbers, leading zeros included |
| `Versions.CompareVersions` | ts/src/vendor-graph.ts:567-605 | the sign tells the order; it is 0 exactly for identical strings |
| `Versions.BelowTotal` | ts/src/vendor-graph.ts:549-566 | of two strings exactly one is below the other unless they are the same |
| `Versions.BelowTransitive` | ts/src/vendor-graph.ts:549-566 | the order is transitive on all strings, releases or not |
| `SemVer.ParseShow` | ts/src/vendor-graph.ts:644-663 | every written semantic version is release-shaped and its parts are read back, with or without v and build metadata |
| `SemVer.RefinesSemVer` | ts/src/vendor-graph.ts:552-566 | on versions of any number of components one is below another exactly when it precedes it by section 11 of Semantic Versioning 2.0.0, missing components being 0, or neither precedes and its text is less; prefix and build metadata do not matter otherwise |
| `SemVer.NonReleasesFirst` | ts/src/vendor-graph.ts:547-551 | a string without the documented shape is below every one with it; two such strings are in the order of their characters |
| `SemVer.UnknownIsBelow` | ts/src/vendor-graph.ts:540-543 | unknown is below 0.4.46, although its letters are above digits |
| `Strings.LessExactly` | ts/src/vendor-graph.ts:568 | strings compare by the first character that differs, a proper prefix first |
| `SemVer.ReleasesExactly` | ts/src/vendor-graph.ts:644-663 | a string is taken for a release exactly when it has the documented shape: an optional v, runs of digits between dots, an optional hyphen with non-empty prerelease identifiers, an optional plus with build metadata |
| `SemVer.ParseText` | ts/src/vendor-graph.ts:644-663 | whatever is written in that shape is read back part by part |
| `SemVer.DatesAreReleases` | ts/src/vendor-graph.ts:544-549 | digits, a hyphen and one more identifier, as in a date, have that shape |
| `SemVer.DateIsRelease` | ts/src/vendor-graph.ts:544-549 | 2024-01-15 is release 2024 with prerelease 01-15, although the documentation counts dates among what is no release |

## Left out

- Floating point: rounding, overflow to infinity and the sign of zero. The bit-exact agreement some examples print is
  not claimed.
- Sockets, threads, retries, process start and the mesh handshake: a connection is a FIFO channel that loses nothing.
- The partitioner that chooses block boundaries, the relabelling before it, and the byte layout of the setup message.
- Sources of randomness: random tails and the levels of new index nodes are arguments.
- Persistence, federation, HTTP, authentication, policy tables and ingestion.
- The unweighted shortest path, degree counts and top-k of `graph-analytics.ts`: easier relatives of what is modelled.
- The other boundary-halo algorithms of `boundary.rs`, `graph500.rs` and `partitioner.rs`.
- SPARQL parsing, filters, OPTIONAL, MINUS, UNION, VALUES, BIND, aggregates, ordering and the per-query index cache.
- `match` queries against a space and `runMettaProgram`, which joins modelled parts.
- Projection of groundings to labels, and how the type lattice is stored: subtyping is a relation, reflexive, transitive
  and with no type above all where a lattice is asked for.
- SplitSecret: the random source hands out exactly t - 1 bytes per secret byte.
- CombineSecret: share numbers are integers, so the test for non-integer numbers does not appear.
- shareToString and shareFromString are not modelled.
- DistProtocol.NoDeadlock: assumes that no connection fails.
- Louvain.Louvain: gains are compared exactly, without the rounding that could break a tie differently.
- Dijkstra.ShortestPathWeighted: distances never overflow, and a weight is given as what reading the property as a
  number yields.
- Csr.ReadsBack: needs n up to 2^32 and fewer than 2^32 edges, because ids and out-degrees are stored in four bytes.
  That the three builders agree is proved without that bound, with out-degree counters that wrap.
- PageRank.PageRankMmap: inherits the bound of reading the file back.
- Transition.ExitBound: speaks of any fixed point there is; that one exists, the limit of the Cauchy sequence of
  `Transition.IteratesSettle`, is not proved.
- DistWorker.PartitionEdges: which of several equal bounds the library's binary search answers is left open.
- Hnsw.Index.Add: vectors come normalised, since the square root is not modelled; the level is an argument.
- HnswSearch.SearchLayer: how near the results are to the true nearest nodes of the whole index is not bounded; the
  source does not promise it either.
- MettaEval.GroundedArithmetic: integers are unbounded, whereas the source loses precision beyond 2^53.
- Metta.Tokenize: characters are Unicode scalar values, not UTF-16 code units.
- Strings.Less: compares scalar values; beyond the basic plane the source's order by code units differs.
- PatternMatcher.FindMatches: the order of the groundings follows the order of stored atoms, not their grouping by type.
- Versions.CompareVersions: the order of the model is the one a sort would use; the sort itself is not modelled.
