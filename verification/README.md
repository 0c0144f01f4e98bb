# Verified model of an LLM inference kit's data movement, registry and cache algorithms

The repository is a kit for building and measuring LLM inference engines. Three parts of it carry
invariants that other code leans on, and those are modelled and proved here.

1. **Expert- and pipeline-parallel mixture-of-experts layers.** The specification is the dense layer
   `y[t] = sum_k w[t,k] * F_{id[t,k]}(x[t])`, with `F` any function of expert id and hidden vector
   (`Moe.dfy`). Three distributed schemes are shown to compute it.
   - Replicate, stable-sort by destination, all-to-all, local experts, all-to-all back, inverse
     permutation, sum (`EpDispatch.dfy`, over reused buffers in `EpBuffers.dfy`). It is dense for all
     experts and inputs if and only if every rank sends equally many slots to every destination.
   - All-gather, ids rebased to local or a sentinel, partial sums, all-reduce in any order of ranks,
     slice (`AllGatherMoe.dfy`, `AllGatherStep.dfy`).
   - The first scheme inside every stage of a send/recv pipeline of microbatches, as a state machine
     whose ranks interleave freely (`Pipeline.dfy`, `PipelineSafety.dfy`, `PipelineProgress.dfy`): for any
     routing, safety at every moment of every run, no deadlock, bounded runs, complete results. What is
     computed is dense, in all complete runs, if and only if every microbatch is routed in equal splits
     (`Hybrid.dfy`). `PurePipeline.dfy` is the pipeline without expert parallelism.
   `OracleRouting.dfy` settles exactly when the oracle-uniform routing of the benchmarks is balanced.
2. **The component registry and its graph compile.** `Orchestrator.dfy` is the mutable orchestrator;
   `RegistryState.dfy` says what its fields are after any run of accepted calls, `CycleCheck.dfy` is the
   depth-first search, `GraphCompile.dfy` and `Recipe.dfy` the compile and what it must produce,
   `CompiledForm.dfy` what is in it entry by entry, `Registry.dfy`, `RegistryKeys.dfy` and
   `RegistryFilter.dfy` the dictionary form, its keys and the filter, `Propagation.dfy` and
   `Provenance.dfy` the spreading of cells and who ends up holding which, `Settled.dfy` that finalizing
   again changes nothing.
3. **Self-contained algorithms.** Fixed-budget cache merging (`KvMerge.dfy`, `KvMergeStep.dfy`), a
   bisection on a product of geometric sums (`Bisection.dfy`), the blocked page-table flattening kernel
   (`KvIndices.dfy`), rank load matrices and their cross-check (`RankMatrix.dfy`), snapshot capture and
   comparison (`Naming.dfy`, `Snapshot.dfy`).

`Wrappers`, `Arith`, `Permutations`, `Ordering`, `Text` and `Digraph` hold what several of these share.
`dafny verify dfyconfig.toml` checks everything.

## How it is modelled

- Code that updates state step by step is a class or a method over arrays, and its contract ties the new
  state to a function of the old one. The properties are then proved of that function.
- Hidden vectors and their operations are parameters. Only the all-gather scheme needs addition to be
  commutative and associative with a zero; the all-to-all scheme adds in the order the code does.
- Rank programs are interleaved arbitrarily. Collectives need all ranks of their group to have arrived and
  send/recv is a rendezvous, the most blocking reading.
- Iteration over Python sets and dictionaries is in arbitrary order unless the result is sorted.

## Where code and documentation disagree

The model follows the code.

- The hybrid benchmark accepts sizes for which `ep_size` divides `M_micro*K`
  (benchmark_hybrid_ep_pp.py:134-138) and calls that enough for equal splits. It is not.
  `HybridAcceptsWrongRuns` gives sizes it accepts with a complete run that ends in a wrong result, and
  `HybridIsDenseIff` the exact condition: nothing to compute, one EP rank, or E divides `M_micro*K`.
- orchestrator.py:212-217 speaks of propagating only cells defined on the artifact itself, but it tells
  them by the origin of plain method cells. A state cell, or a distributed method cell, is passed on again by
  every artifact that inherited it, so the alias recorded higher up can name an intermediate artifact.
  `InheritedStateIsRelabelled` shows three artifacts where it does, `AliasNamesLastPasser` says which one it
  names, and `AliasNamesDefinerIff` when that is harmless. Which cell is held is not affected when one
  artifact defines the name (`HoldersAreDefinerAndAncestors`).

## Sharper than documented

- benchmark_flashinfer_native_ep.py:112-113 promises distinct experts per token when `K < E`;
  `TokenExpertsDistinctIff` shows `K <= E` to be the exact condition.

## Model

| member | source | states |
|---|---|---|
| `Moe.SlotsSumToDense` | workshop/e2e_bench/scripts/benchmark_flashinfer_native_ep.py:259-264 | summing the K partial outputs per token of slots that each hold `w * F(id, x)` gives the dense layer |
| `Permutations.StableArgsort` | workshop/e2e_bench/scripts/benchmark_flashinfer_native_ep.py:195-196 | the argsort result lists every index once, keys ascending, equal keys in index order |
| `Permutations.StableArgsortIsUnique` | workshop/e2e_bench/scripts/benchmark_flashinfer_native_ep.py:196 | that contract has exactly one solution, so any conforming argsort gives the same permutation |
| `Permutations.ArgsortOfPermutationIsInverse` | workshop/e2e_bench/scripts/benchmark_flashinfer_native_ep.py:196-197 | argsort of a permutation is its inverse, on both sides |
| `Permutations.GatherKeepsElements` | workshop/e2e_bench/scripts/benchmark_flashinfer_native_ep.py:206-211 | permuting rows keeps every row with its multiplicity |
| `AllToAll.ReceivedAt` | workshop/e2e_bench/scripts/benchmark_flashinfer_native_ep.py:231-234 | where each received element was sent from, and that this place points back |
| `AllToAll.AloneIsCopy` | workshop/e2e_bench/scripts/benchmark_hybrid_ep_pp.py:212-215 | in a group of one rank the exchange is the copy the code makes instead |
| `AllToAll.ExchangeIsInvolution` | workshop/e2e_bench/scripts/benchmark_flashinfer_native_ep.py:256-257 | the equal-split exchange applied twice is the identity, so the combine undoes the dispatch |
| `EpDispatch.MakeShape` | workshop/e2e_bench/scripts/benchmark_flashinfer_native_ep.py:146-158 | the worker's sizes: refused exactly when world does not divide E or M*K; otherwise world, M and K as given, E split evenly over ranks and M*K over destinations |
| `EpDispatch.OutAt` | workshop/e2e_bench/scripts/benchmark_flashinfer_native_ep.py:236-254 | what a rank's kernel yields for a received row is the sent slot's `w * F(id, x)` if the row landed with the owner of its expert, and zero otherwise |
| `EpDispatch.SortedEqualBlocks` | workshop/e2e_bench/scripts/benchmark_flashinfer_native_ep.py:191-204 | a sorted list with equal counts is one block per destination, in order |
| `EpDispatch.EqualCountsIffDelivered` | workshop/e2e_bench/scripts/benchmark_flashinfer_native_ep.py:199-204 | the equal-count assertion holds if and only if the equal splits take every slot to the rank that owns its expert |
| `EpDispatch.ReceivedIdsAreLocal` | workshop/e2e_bench/scripts/benchmark_flashinfer_native_ep.py:231-234 | every id a rank receives lies in its own range of experts |
| `EpDispatch.CombinedIsArrived` | workshop/e2e_bench/scripts/benchmark_flashinfer_native_ep.py:256-257 | balanced or not, what returns to a rank is its own slots, each in the place it was sent from |
| `EpDispatch.UnpermutedSlot` | workshop/e2e_bench/scripts/benchmark_flashinfer_native_ep.py:259-263 | the inverse permutation puts row i back at slot i |
| `EpDispatch.EpLayerIsDense` | workshop/e2e_bench/scripts/benchmark_flashinfer_native_ep.py:225-264 | with balanced routing every rank gets the dense result for its tokens |
| `EpDispatch.UnbalancedLosesASlot` | workshop/e2e_bench/scripts/benchmark_flashinfer_native_ep.py:199-204 | a routing that fails the assertion makes some token's result wrong for positive weights |
| `EpDispatch.EpLayerIsDenseIffBalanced` | workshop/e2e_bench/scripts/benchmark_flashinfer_native_ep.py:199-264 | the layer is dense for all experts and inputs if and only if all ranks pass the equal-count assertion |
| `OracleRouting.FullSweep` | workshop/e2e_bench/scripts/benchmark_flashinfer_native_ep.py:112-115 | E consecutive slots meet every expert exactly once |
| `OracleRouting.OracleExpertCounts` | workshop/e2e_bench/scripts/benchmark_flashinfer_native_ep.py:103-111 | when E divides M*K every expert gets M*K/E slots of each rank |
| `OracleRouting.OracleLoadIsUniform` | workshop/e2e_bench/scripts/benchmark_flashinfer_native_ep.py:105-107 | over all ranks each global expert receives exactly world*M*K/E slots |
| `OracleRouting.OracleBalancedIff` | workshop/e2e_bench/scripts/benchmark_hybrid_ep_pp.py:48-66 | oracle-uniform routing fits equal splits if and only if there is one rank or E divides M*K |
| `OracleRouting.OracleLayerIsDenseIff` | workshop/e2e_bench/scripts/benchmark_hybrid_ep_pp.py:133-138 | under oracle-uniform routing the layer is dense if and only if there is one rank or E divides M*K |
| `OracleRouting.HybridCheckIsTooWeak` | workshop/e2e_bench/scripts/benchmark_hybrid_ep_pp.py:134-138 | concrete sizes that pass the runtime check with unequal splits |
| `OracleRouting.TokenExpertsDistinctIff` | workshop/e2e_bench/scripts/benchmark_flashinfer_native_ep.py:112-113 | the K experts of every token are distinct if and only if K <= E |
| `OracleRouting.OracleWeightsAverage` | workshop/e2e_bench/scripts/benchmark_flashinfer_native_ep.py:115-118 | the K weights of every token are equal and sum to 1 |
| `OracleRouting.OracleLayerOfOnes` | workshop/e2e_bench/scripts/benchmark_hybrid_ep_pp.py:63-66 | so a layer whose experts all answer 1 answers 1 to every token |
| `EpBuffers.AllToAllSingle` | workshop/e2e_bench/scripts/benchmark_hybrid_ep_pp.py:207-215 | in place: every rank's receive buffer holds its blocks of all senders, and nothing else changes |
| `EpBuffers.EpGroup.constructor` | workshop/e2e_bench/scripts/benchmark_hybrid_ep_pp.py:176-183 | one set of new buffers of the right sizes, kept apart as the layer needs |
| `EpBuffers.EpGroup.Replicate` | workshop/e2e_bench/scripts/benchmark_hybrid_ep_pp.py:204-205 | the send buffers hold each token K times, sorted by destination |
| `EpBuffers.EpGroup.RunExperts` | workshop/e2e_bench/scripts/benchmark_hybrid_ep_pp.py:217-233 | the output buffers hold the kernel's result on what was received |
| `EpBuffers.EpGroup.LayerForward` | workshop/e2e_bench/scripts/benchmark_hybrid_ep_pp.py:198-243 | whatever the buffers held before, the result is the layer of the inputs |
| `EpBuffers.EpGroup.StageForward` | workshop/e2e_bench/scripts/benchmark_hybrid_ep_pp.py:245-249 | one set of buffers reused over all layers of a stage computes the layers one after another, the dense ones if the routing is balanced |
| `EpBuffers.SingleStage` | workshop/e2e_bench/scripts/benchmark_hybrid_ep_pp.py:251-259 | the same buffers serve all microbatches of a one-stage pipeline, each of which gets its own result |
| `AllGatherMoe.ExactlyOneOwner` | workshop/e2e_bench/scripts/benchmark_hf_native_ep.py:164-172 | an id is translated to a local one by exactly the rank that owns the expert, to the sentinel by all others |
| `AllGatherMoe.SumsCommute` | workshop/e2e_bench/scripts/benchmark_hf_native_ep.py:174-178 | the double sum over ranks and slots may be taken in either order |
| `AllGatherMoe.SlotCollapses` | workshop/e2e_bench/scripts/benchmark_hf_native_ep.py:174-178 | over all ranks, in any order, the terms of one slot collapse to its dense term |
| `AllGatherMoe.TokenCollapses` | workshop/e2e_bench/scripts/benchmark_hf_native_ep.py:174-178 | so the all-reduced row of a token is its dense result |
| `AllGatherMoe.GatherLayerIsDense` | workshop/e2e_bench/scripts/benchmark_hf_native_ep.py:145-181 | every rank's slice is the dense result of its own tokens |
| `AllGatherMoe.SchemesAgree` | workshop/e2e_bench/scripts/benchmark_hf_native_ep.py:145-181 | given the same routing, this scheme and the all-to-all scheme give the same result |
| `AllGatherStep.AllGather` | workshop/e2e_bench/scripts/benchmark_hf_native_ep.py:147-149 | entry r of every rank's list becomes rank r's tensor |
| `AllGatherStep.AllReduce` | workshop/e2e_bench/scripts/benchmark_hf_native_ep.py:177-178 | in place: on every rank each element becomes the sum over ranks |
| `AllGatherStep.Step` | workshop/e2e_bench/scripts/benchmark_hf_native_ep.py:145-181 | the whole step over its overwritten buffers returns, token by token, the dense result |
| `Hybrid.RankSplits` | workshop/e2e_bench/scripts/benchmark_hybrid_ep_pp.py:101-102 | rank arithmetic: stage and EP rank are in range and determine the rank |
| `Hybrid.GroupsPartition` | workshop/e2e_bench/scripts/benchmark_hybrid_ep_pp.py:104-115 | PP and EP groups partition the ranks, and each pair of groups meets in one rank |
| `Hybrid.NeighboursAgree` | workshop/e2e_bench/scripts/benchmark_hybrid_ep_pp.py:185-187 | a rank's next has it as previous, in the same PP group, one stage on; the last stage has no next and stage 0 no previous |
| `Pipeline.ApplyKeepsSizes` | workshop/e2e_bench/scripts/benchmark_hybrid_ep_pp.py:176-183 | every step keeps the shapes of all buffers |
| `Pipeline.FirstLayerIsProduct` | workshop/e2e_bench/scripts/benchmark_hybrid_ep_pp.py:122-126 | stage s starts at global layer s * L_per_stage |
| `PipelineSafety.LocalKeepsRankInv` | workshop/e2e_bench/scripts/benchmark_hybrid_ep_pp.py:198-249 | each operation between communications leaves in the rank's buffers what the layer prescribes next |
| `PipelineSafety.DeliverKeepsRankInv` | workshop/e2e_bench/scripts/benchmark_hybrid_ep_pp.py:207-239 | each all-to-all writes on every rank of the EP group what the layer prescribes next |
| `PipelineSafety.TransferKeepsRankInv` | workshop/e2e_bench/scripts/benchmark_hybrid_ep_pp.py:257-268 | a send with its recv hands on the finished activations of the same microbatch |
| `PipelineSafety.StepKeepsInv` | workshop/e2e_bench/scripts/benchmark_hybrid_ep_pp.py:251-268 | every step of every rank keeps the invariant that ties each buffer to the layers |
| `PipelineSafety.RunInv` | workshop/e2e_bench/scripts/benchmark_hybrid_ep_pp.py:251-268 | the invariant holds in every state of every run, whatever the buffers held at first |
| `PipelineSafety.FinishedOutputsAreLayers` | workshop/e2e_bench/scripts/benchmark_hybrid_ep_pp.py:245-268 | for any routing, what the last stage has finished at any moment is all layers, in global order, applied to stage 0's inputs of the same microbatch |
| `PipelineSafety.ActIsDense` | workshop/e2e_bench/scripts/benchmark_hybrid_ep_pp.py:198-249 | with balanced routing these layers are the dense ones |
| `PipelineSafety.FinishedOutputsAreDense` | workshop/e2e_bench/scripts/benchmark_hybrid_ep_pp.py:245-268 | so at any moment what the last stage has finished of a balanced microbatch is dense, on the same EP rank |
| `PipelineProgress.SomeStepEnabled` | workshop/e2e_bench/scripts/benchmark_hybrid_ep_pp.py:251-268 | a rank that is not done can act, or waits for a rank earlier in (microbatch, stage, operation) order that can |
| `PipelineProgress.NoDeadlock` | workshop/e2e_bench/scripts/benchmark_hybrid_ep_pp.py:251-268 | no reachable state that is not final is stuck, for any pp_size, ep_size, B and routing |
| `PipelineProgress.StepMoves` | workshop/e2e_bench/scripts/benchmark_hybrid_ep_pp.py:251-268 | a step takes the ranks it involves one operation further and leaves all others alone |
| `PipelineProgress.EveryStepShrinks` | workshop/e2e_bench/scripts/benchmark_hybrid_ep_pp.py:251-268 | every step uses up operations that remain |
| `PipelineProgress.RunsAreFinite` | workshop/e2e_bench/scripts/benchmark_hybrid_ep_pp.py:251-268 | a run has at most pp * ep * B * (2 + 7 * L_per_stage) steps |
| `PipelineProgress.CompleteRunExists` | workshop/e2e_bench/scripts/benchmark_hybrid_ep_pp.py:251-268 | from any initial buffers there is a run that cannot be continued |
| `PipelineProgress.CompleteRunsFinish` | workshop/e2e_bench/scripts/benchmark_hybrid_ep_pp.py:251-268 | a run that cannot be continued has processed all microbatches in order, for any routing |
| `Hybrid.BalancedRunsAreDense` | workshop/e2e_bench/scripts/benchmark_hybrid_ep_pp.py:245-268 | balanced routing, or no layers at all, makes every complete run end with dense results |
| `Hybrid.LastLayerIsWrong` | workshop/e2e_bench/scripts/benchmark_hybrid_ep_pp.py:134-138 | experts for which an unbalanced microbatch must end wrong on some rank |
| `Hybrid.UnbalancedRunExists` | workshop/e2e_bench/scripts/benchmark_hybrid_ep_pp.py:134-138 | so with an unbalanced microbatch some complete run ends with a wrong result |
| `Hybrid.RunsAreDenseIffBalanced` | workshop/e2e_bench/scripts/benchmark_hybrid_ep_pp.py:245-268 | for positive weights, all complete runs are dense for all experts and inputs if and only if there are no layers or every microbatch is balanced |
| `Hybrid.HybridIsDenseIff` | workshop/e2e_bench/scripts/benchmark_hybrid_ep_pp.py:117-174 | the hybrid as configured is dense in all complete runs if and only if there is nothing to compute, one EP rank, or E divides M_micro*K |
| `Hybrid.HybridIsDense` | workshop/e2e_bench/scripts/benchmark_hybrid_ep_pp.py:151-268 | those sizes suffice over any hidden vectors |
| `Hybrid.HybridAcceptsWrongRuns` | workshop/e2e_bench/scripts/benchmark_hybrid_ep_pp.py:134-138 | sizes the runtime check accepts with a complete run that ends wrong |
| `Hybrid.OneRankIsDense` | workshop/e2e_bench/scripts/benchmark_hybrid_ep_pp.py:207-239 | with one EP rank any routing gives dense results |
| `PurePipeline.LocalKeepsRankInv` | workshop/e2e_bench/scripts/benchmark_pp_moe.py:116-133 | the fused layers between recv and send leave in `x` what the layers prescribe, though the first reads the receive buffer itself |
| `PurePipeline.TransferKeepsRankInv` | workshop/e2e_bench/scripts/benchmark_pp_moe.py:135-153 | a send with its recv hands on the finished activations of the same microbatch |
| `PurePipeline.StepKeepsInv` | workshop/e2e_bench/scripts/benchmark_pp_moe.py:135-153 | every step of every rank keeps the invariant |
| `PurePipeline.SomeStepEnabled` | workshop/e2e_bench/scripts/benchmark_pp_moe.py:135-153 | a rank that is not done can act, or waits for one earlier in (microbatch, stage) order that can |
| `PurePipeline.NoDeadlock` | workshop/e2e_bench/scripts/benchmark_pp_moe.py:135-153 | no reachable state with work left is stuck, for any number of stages and microbatches |
| `PurePipeline.FinishedIsDense` | workshop/e2e_bench/scripts/benchmark_pp_moe.py:135-153 | at any moment of any run what a stage has finished is all layers up to its own applied densely |
| `PurePipeline.PipelineIsDense` | workshop/e2e_bench/scripts/benchmark_pp_moe.py:135-153 | runs are bounded, and one that cannot be continued has all microbatches, in order, processed densely by all layers |
| `PurePipeline.InitialStateExists` | workshop/e2e_bench/scripts/benchmark_pp_moe.py:105-114 | every configuration has an initial state |
| `PurePipeline.CompleteRunExists` | workshop/e2e_bench/scripts/benchmark_pp_moe.py:135-153 | from any initial buffers there is a run that cannot be continued |
| `CycleCheck.CycleSearch.Enter` | src/core/orchestrator.py:238-242 | entering a node keeps the stack a walk and counts the visit |
| `CycleCheck.CycleSearch.Leave` | src/core/orchestrator.py:254-255 | a node is left only after all its parents, so finished nodes are in postorder |
| `CycleCheck.CycleSearch.Dfs` | src/core/orchestrator.py:238-255 | called on unvisited nodes only; returns with the stack restored, or with a genuine closed walk along parents |
| `CycleCheck.IndexOf` | src/core/orchestrator.py:248-250 | the first stack position of the node that closes the cycle |
| `CycleCheck.CheckCycles` | src/core/orchestrator.py:233-259 | reports a cycle if and only if the parent relation has a closed walk, and reports one |
| `Digraph.PostorderExcludesCycles` | src/core/orchestrator.py:233-259 | a graph whose nodes all finished has no closed walk |
| `Digraph.AboveIffPath` | src/core/orchestrator.py:222-231 | the artifacts a climb reaches are exactly those with a path of parents |
| `Digraph.AboveIsTransitive` | src/core/orchestrator.py:229-231 | what is above an ancestor is above the artifact |
| `Artifacts.Artifact.EnsureCell` | src/core/artifact.py:65-79 | a name without a cell becomes a method cell of this artifact or a state cell, or nothing changes when the lookup raises |
| `Orchestrator.IdComesFrom` | src/core/orchestrator.py:61-68 | which of the call's id, the artifact's and the class name is taken, empty ones not counting; explicit is what comes from one of the first two, empty or not |
| `Orchestrator.ExtensionComesFrom` | src/core/orchestrator.py:69-74 | the extension is the call's, else the artifact's, else `core` |
| `Orchestrator.TagsAreStripped` | src/core/orchestrator.py:75-77 | the tags are those given, stripped, without the empty ones |
| `Text.StripIsMiddle` | src/core/orchestrator.py:61-77 | stripping takes white space off both ends and nothing else |
| `Text.WhiteSpaceIs` | src/core/orchestrator.py:61-77 | what counts as white space, by code point |
| `Text.DecimalIsPlain` | src/core/orchestrator.py:268-271 | the number in `#N` has digits only and no leading zero |
| `Orchestrator.DescriptionIsUnique` | src/core/orchestrator.py:51-82 | the arguments of `add` and the ids taken determine the recorded metadata |
| `Orchestrator.ExplicitDescriptionIgnoresOrder` | src/core/orchestrator.py:61-82 | with an explicit id the metadata recorded does not depend on the ids taken, hence not on the order of calls |
| `Orchestrator.RegistryOrchestrator.constructor` | src/core/orchestrator.py:30-36 | an empty registry |
| `Orchestrator.RegistryOrchestrator.ClaimComponentId` | src/core/orchestrator.py:261-271 | a free id is granted as asked, a taken explicit one refused, otherwise the least free `id#N` with N >= 2; the search ends |
| `Orchestrator.RegistryOrchestrator.Add` | src/core/orchestrator.py:38-87 | exact conditions of each rejection; a rejected call changes nothing, an accepted one records the described metadata and invalidates the compiled graph |
| `Orchestrator.RegistryOrchestrator.Record` | src/core/orchestrator.py:78-86 | the artifact is appended, its metadata and id entered, nothing else changed, and the compiled graph invalidated |
| `Orchestrator.RegistryOrchestrator.Link` | src/core/orchestrator.py:103-117 | binding, parent and edge are each added once and the compiled graph is invalidated |
| `Orchestrator.RegistryOrchestrator.Connect` | src/core/orchestrator.py:119-126 | adds at most the two artifacts, then links them; succeeds exactly when both are registered |
| `Orchestrator.RegistryOrchestrator.Register` | src/core/orchestrator.py:89-117 | as `connect` with a binding of kind `state` for state cells and `method` for others; a missing cell is defined first, by the kind of attribute, and stays defined if the rest is rejected |
| `Orchestrator.RegistryOrchestrator.Compile` | src/core/orchestrator.py:142-202 | fails if and only if the parents have a cycle, naming one by component ids and keeping the cached graph; otherwise caches a graph that is compiled, acyclic, and equal to the one cached before if there was one |
| `Orchestrator.RegistryOrchestrator.CompiledComponents` | src/core/orchestrator.py:180-196 | what was compiled has the schema of the code and one component id per registered artifact |
| `Orchestrator.RegistryOrchestrator.CompiledFields` | src/core/orchestrator.py:180-195 | each component has the class and module of its artifact, and the extension and tags it was added with |
| `Orchestrator.RegistryOrchestrator.CompiledOrder` | src/core/orchestrator.py:196 | of two components the earlier has an id that is a proper prefix of the later's, or smaller where they first differ |
| `Orchestrator.RegistryOrchestrator.CompiledCells` | src/core/orchestrator.py:171-178 | each component provides (requires) exactly the cells of the registered bindings that name it as provider (consumer) |
| `Orchestrator.RegistryOrchestrator.CompiledBindings` | src/core/orchestrator.py:146-161 | the bindings are those registered, and one of kind `component` without a cell for each other connected pair |
| `Orchestrator.RegistryOrchestrator.CompiledGraph` | src/core/orchestrator.py:136-140 | an error exactly when nothing is cached; what is cached is what the accepted calls compile to |
| `Orchestrator.RegistryOrchestrator.Finalize` | src/core/orchestrator.py:204-220 | after the compile the cells of all artifacts are one sweep of what they were; on a cycle nothing changes |
| `RegistryState.AfterKeepsIds` | src/core/orchestrator.py:78-83 | ids and metadata stay inverse to each other over exactly the registered artifacts |
| `RegistryState.AfterKeepsTopology` | src/core/orchestrator.py:114-125 | `parents` and `_topology_edges` stay the same relation over registered artifacts |
| `RegistryState.AfterKeepsBindings` | src/core/orchestrator.py:103-112 | every binding names two registered, connected components |
| `RegistryState.RunIsGood` | src/core/orchestrator.py:38-126 | all three hold after every run of accepted calls |
| `RegistryState.RunRemembers` | src/core/orchestrator.py:38-126 | components, edges and bindings after a run are exactly those its calls asked for |
| `RegistryState.LinkedAdds` | src/core/orchestrator.py:103-117 | linking appends the edge, the parent and the binding, child as provider and parent as consumer, unless they are there |
| `RegistryState.CompileIsCanonical` | src/core/orchestrator.py:142-202 | the same accepted calls in any order, with any repetition, compile to the same graph |
| `GraphCompile.SortedSet` | src/core/orchestrator.py:192-193 | `sorted` of a set is its one strictly sorted listing |
| `GraphCompile.AllBindings` | src/core/orchestrator.py:146-170 | strictly sorted; a cell binding is listed if and only if registered, a component binding if and only if its pair is connected without one |
| `GraphCompile.CellSets` | src/core/orchestrator.py:171-178 | a cell is provided (required) by a component exactly when some cell binding carries it there |
| `GraphCompile.CellsAreRegistered` | src/core/orchestrator.py:171-178 | component bindings contribute no cell |
| `GraphCompile.Components` | src/core/orchestrator.py:180-196 | strictly ascending by id in the order of characters, one per registered artifact, with exactly its provided and required cells |
| `CompiledForm.BindingsAscend` | src/core/orchestrator.py:163-170 | bindings come by provider, then consumer, then cell name, none counting as empty, then kind |
| `CompiledForm.CellsAscend` | src/core/orchestrator.py:192-193 | cells come by name, then kind |
| `CompiledForm.TagsAscend` | src/core/orchestrator.py:75-77 | tags ascend |
| `CompiledForm.CompiledAscends` | src/core/orchestrator.py:163-196 | all lists of a compiled graph are in these orders |
| `GraphCompile.Freeze` | src/core/orchestrator.py:146-202 | the result is the graph the registered state must compile to, and it is acyclic |
| `GraphCompile.CompiledIsAcyclic` | src/core/orchestrator.py:142-202 | component ids can be listed with every consumer before its providers |
| `GraphCompile.CompiledHasNoParentCycle` | src/core/orchestrator.py:142-202 | behind a compiled graph there is no cycle of parents |
| `GraphCompile.CachedIsFresh` | src/core/orchestrator.py:198-202 | a cached graph equals any fresh compile of the same calls |
| `GraphCompile.CompiledRoundTrip` | src/core/registry.py:72-154 | a compiled graph, filtered or not, survives `to_dict` and `from_dict` |
| `Recipe.CompiledIsUnique` | src/core/orchestrator.py:163-202 | at most one graph fits what was registered, whatever the order |
| `Recipe.CompiledIsCanonical` | src/core/orchestrator.py:163-202 | compiled graphs have unique ids, sorted lists and no dangling binding |
| `Recipe.PairsAreEdges` | src/core/orchestrator.py:146-161 | provider/consumer pairs of the graph are exactly the connected pairs |
| `Recipe.AcyclicHasNoCycle` | src/core/orchestrator.py:233-259 | an acyclic compiled graph has no closed chain of bindings |
| `Registry.ParseGraph` | src/core/registry.py:82-154 | the loop computes the parse, with the first error in the order of the code |
| `RegistryKeys.ComponentKeys` | src/core/registry.py:38-47 | the keys under which a component is printed |
| `RegistryKeys.ListKeys` | src/core/registry.py:24-47 | tags are printed as strings, cells with their name and kind, in order |
| `RegistryKeys.BindingKeys` | src/core/registry.py:57-63 | the keys under which a binding is printed, a missing cell as null |
| `RegistryKeys.GraphKeys` | src/core/registry.py:72-77 | schema, components and bindings of a graph, in order |
| `RegistryKeys.ComponentReads` | src/core/registry.py:92-113 | an accepted component has an id, a type and a module, by key; a missing extension is `core`, missing lists are empty |
| `RegistryKeys.TagsRead` | src/core/registry.py:98 | the tags are those of the list, rendered by `str`, each as often |
| `RegistryKeys.CellReads` | src/core/registry.py:101-110 | a cell needs a name and a kind |
| `RegistryKeys.CellsRead` | src/core/registry.py:99-112 | the cells are those of the list, each as often |
| `RegistryKeys.BindingReads` | src/core/registry.py:121-133 | which binding a dictionary gives, key by key, a missing or null cell as none, and the first missing key reported |
| `RegistryKeys.ComponentErrors` | src/core/registry.py:92-96 | the first missing key of a component is reported; with all three and no lists it is accepted |
| `RegistryKeys.IterateIs` | src/core/registry.py:91-113 | iterating a string gives characters, a dictionary its keys; other scalars raise |
| `RegistryKeys.SchemaIsChecked` | src/core/registry.py:84-88 | an unsupported schema is reported if and only if the entry is not the schema of the code |
| `RegistryKeys.FirstBadComponent` | src/core/registry.py:91-113 | the first component that does not parse decides the error |
| `RegistryKeys.Verdict` | src/core/registry.py:114-154 | once all items parse: duplicate ids if and only if two components share one, else unknown ids if and only if a binding names an id that is not listed, else accepted with exactly the items of both lists |
| `Registry.PrintThenParse` | src/core/registry.py:72-154 | `from_dict(to_dict(g)) == g` for every canonical graph |
| `Registry.AcceptedIsCanonical` | src/core/registry.py:82-154 | an accepted dictionary gives sorted lists, unique ids and known endpoints |
| `Registry.ParsePrintParse` | src/core/registry.py:72-154 | parse, print, parse equals parse |
| `Registry.RoundTripIffCanonical` | src/core/registry.py:72-154 | the graphs that survive the round trip are exactly the canonical ones |
| `RegistryFilter.FilterIsExact` | src/core/graph.py:15-38 | a component stays if and only if it has every non-empty tag asked for and, unless all extensions asked for are empty, one of these as its extension; a binding if and only if components with its two ids stay |
| `RegistryFilter.FilterKeepsCanonical` | src/core/graph.py:15-38 | filtering keeps ids unique and endpoints known |
| `RegistryFilter.FilteredRoundTrip` | src/core/graph.py:15-38 | a filtered graph survives the dictionary form |
| `Ordering.SortSorts` | src/core/registry.py:98-113 | the sort sorts |
| `Ordering.StrLeIsLexicographic` | src/core/registry.py:98-113 | strings compare by the first character in which they differ, a prefix before what continues it |
| `Ordering.KeyLeIsLexicographic` | src/core/orchestrator.py:163-170 | tuples compare by the first string in which they differ |
| `Ordering.SortedIsFixed` | src/core/registry.py:98-113 | sorting a sorted list changes nothing, which the round trips need |
| `Ordering.StrictlySortedUnique` | src/core/orchestrator.py:163-196 | two strictly sorted lists with the same members are equal |
| `Text.NumberedIsInjective` | src/core/orchestrator.py:268-271 | different suffixes give different ids |
| `Propagation.Propagate` | src/core/orchestrator.py:222-231 | the recursion ends, writes the cell and its alias to the artifact and everything above it, and to nothing else |
| `Propagation.Spread` | src/core/orchestrator.py:214-220 | everything above gets the cell; the artifact's own dictionary, being iterated, is not written |
| `Propagation.SpreadAll` | src/core/orchestrator.py:211-220 | one round of the outer loop, names in any order, equals its specification |
| `Propagation.PropagateAll` | src/core/orchestrator.py:209-220 | the loops compute the sweep, in registration order |
| `Provenance.RoundAt` | src/core/orchestrator.py:211-227 | one round, name by name: overwritten where the artifact passes the name on, else unchanged |
| `Provenance.HeldCellsComeFromBelow` | src/core/orchestrator.py:209-231 | every cell held under a name in the end was held under it at first by the artifact or one below |
| `Provenance.ArrivedCellsGoAllTheWay` | src/core/orchestrator.py:222-231 | a cell that arrived from below has reached everything above as well |
| `Provenance.AncestorsHoldTheName` | src/core/orchestrator.py:209-231 | every ancestor of an artifact that defined a name holds some cell under it |
| `Provenance.HoldersAreDefinerAndAncestors` | src/core/orchestrator.py:209-231 | with one definer, exactly it and its ancestors hold the name, and share its one cell |
| `Provenance.AliasNamesLastPasser` | src/core/orchestrator.py:214-227 | the recorded alias names the definer of a plain method cell, and for any other cell the last registered artifact that passed it |
| `Provenance.AliasNamesDefinerIff` | src/core/orchestrator.py:214-227 | the alias of a state or distributed method names its definer if and only if that last artifact has the same class name |
| `Provenance.InheritedStateIsRelabelled` | src/core/orchestrator.py:214-227 | three artifacts in a row: the top one gets the bottom one's state under the alias of the middle one |
| `Provenance.OvertakenAbove` | src/core/orchestrator.py:215-220 | with own methods, an artifact that was overtaken was so by a definer below it registered earlier, and so is everything above it |
| `Provenance.PassesIff` | src/core/orchestrator.py:215-220 | a definer passes its method on if and only if no definer below it was registered earlier |
| `Provenance.WinnersCellIsHeld` | src/core/orchestrator.py:209-231 | with several definers of a method an artifact ends with the cell of the last registered definer below it that passes its own, or keeps what it had |
| `Settled.Quiet` | src/core/orchestrator.py:209-231 | what an artifact holds stays once nobody below it passes the name any more |
| `Settled.SweepSettles` | src/core/orchestrator.py:209-231 | for any mixture of cells an artifact ends with what the last registered artifact below it that passes the name in the end holds, by its alias, or with what it had |
| `Settled.SourcesCellIsHeld` | src/core/orchestrator.py:209-231 | so it ends with the first cell of a definer that graph, registration order and cell kinds determine |
| `Settled.SweepIgnoresOrder` | src/core/orchestrator.py:204-231 | which postorder the cycle check finds makes no difference |
| `Settled.SecondSweepChangesNothing` | src/core/orchestrator.py:204-231 | finalizing again changes no cell and no alias |
| `KvMerge.ApartIff` | src/artifacts/nanovllm_v6/cache_mngr/lse_preserve_merge.py:13-23 | the overlap assertion passes if and only if kv_len <= 2 * topk |
| `KvMerge.ClearedSum` | src/artifacts/nanovllm_v6/cache_mngr/lse_preserve_merge.py:16-24 | clearing positions takes exactly their share out of any sum over the mask |
| `KvMerge.KeptHighLowPartition` | src/artifacts/nanovllm_v6/cache_mngr/lse_preserve_merge.py:7-26 | kept, high and low positions partition the row |
| `KvMerge.BlendWeighs` | src/artifacts/nanovllm_v6/cache_mngr/lse_preserve_merge.py:35-48 | a merged row, weighted by its pair's score sum, is the weighted sum of the pair |
| `KvMerge.WeightedSumIsPreserved` | src/artifacts/nanovllm_v6/cache_mngr/lse_preserve_merge.py:26-53 | the score-weighted sum of every component is preserved, in topk rows |
| `KvMerge.MergePreservesSums` | src/artifacts/nanovllm_v6/cache_mngr/lse_preserve_merge.py:26-53 | so a row without cancelling pairs keeps the sums of all components |
| `KvMerge.SumsPreservedIff` | src/artifacts/nanovllm_v6/cache_mngr/lse_preserve_merge.py:26-53 | a row keeps the sums if and only if no merged pair has scores that add up to zero |
| `KvMerge.SafeForAllScoresIff` | src/artifacts/nanovllm_v6/cache_mngr/lse_preserve_merge.py:13-21 | after the first selection the sums are kept for all second scores if and only if no selected position cancels with a leftover one |
| `KvMerge.PositiveScoresDoNotCancel` | src/artifacts/nanovllm_v6/cache_mngr/lse_preserve_merge.py:35-36 | positive scores, as attention gives, never cancel |
| `KvMergeStep.ClearAt` | src/artifacts/nanovllm_v6/cache_mngr/lse_preserve_merge.py:16-24 | `scatter_`, in place: exactly the named positions of each row are cleared |
| `KvMergeStep.ReshapeIsSound` | src/artifacts/nanovllm_v6/cache_mngr/lse_preserve_merge.py:26-33 | the flat `nonzero` list reshaped gives every row its own kept positions |
| `KvMergeStep.PieceIsKept` | src/artifacts/nanovllm_v6/cache_mngr/lse_preserve_merge.py:28-33 | so the gathered rows are the kept entries |
| `KvMergeStep.PickHigh` | src/artifacts/nanovllm_v6/cache_mngr/lse_preserve_merge.py:13-15 | the first selection: topk of the raw scores |
| `KvMergeStep.PickLow` | src/artifacts/nanovllm_v6/cache_mngr/lse_preserve_merge.py:17-21 | the second selection: topk of the negated scores of what is left |
| `KvMergeStep.RowSelectionsAre` | src/artifacts/nanovllm_v6/cache_mngr/lse_preserve_merge.py:13-21 | the first selection holds the highest raw scores, the second the lowest scores of the other positions, each from the most extreme on |
| `KvMergeStep.RowsAre` | src/artifacts/nanovllm_v6/cache_mngr/lse_preserve_merge.py:26-53 | the rows of the result: kept entries in place order, then each pair's mean weighted by its raw scores, or nothing finite if these cancel |
| `KvMergeStep.MergeFixedBudget` | src/artifacts/nanovllm_v6/cache_mngr/lse_preserve_merge.py:4-53 | succeeds if and only if topk <= kv_len <= 2 * topk, then returns kept and merged rows of keys and values, whose score-weighted sums are those of the inputs if and only if no pair cancels, and always if no two scores of the row do |
| `Bisection.ClosedFormIsSum` | viz/cal_sparse.py:35-36 | the closed form with its guard is the geometric sum |
| `Bisection.ClosedFormsGiveTotal` | viz/cal_sparse.py:33-37 | the sum the loop computes is the total at its ratio |
| `Bisection.TotalMoves` | viz/cal_sparse.py:33-37 | the total never falls as the ratio grows, and moves by at most a slope times the distance |
| `Bisection.TotalGrows` | viz/cal_sparse.py:33-37 | with more than one row or column it grows strictly |
| `Bisection.Bisect` | viz/cal_sparse.py:26-44 | the bracket in [0, 0.9999] stays around the ratio, halves every step and keeps the comparisons with the target; of 100 steps all are taken if and only if the sum never comes within 1e-9 of it, and for a target in reach they end as soon as the bracket is narrow |
| `Bisection.WidthHalves` | viz/cal_sparse.py:28-44 | the bracket is 0.9999 / 2^n wide after n steps |
| `Bisection.SlopeIsLinear` | viz/cal_sparse.py:33-37 | the slope bound as start * rows * cols * (rows + 2 * cols) times the width |
| `Bisection.SearchError` | viz/cal_sparse.py:26-44 | for a target in reach the bracket contains it and the error is bounded by the slope over the bracket |
| `Bisection.NarrowStops` | viz/cal_sparse.py:39-40 | in a bracket so narrow that the error bound is below 1e-9 the search stops |
| `Bisection.NinetyAreNarrow` | viz/cal_sparse.py:28-44 | unless start * rows * cols * (rows + 2 * cols) exceeds 1e18, ninety halvings make it so |
| `Bisection.OuterSum` | viz/cal_sparse.py:46-49 | the entries of the returned matrix sum to the total |
| `Bisection.OuterIs` | viz/cal_sparse.py:46-49 | the matrix starts with the start value; entries shrink by `r1` down a column and by its square along a row |
| `Bisection.GenerateMatrix` | viz/cal_sparse.py:26-49 | unless sizes are astronomical: for a sparse ratio between the mean entries of the matrices of ratio 0 and 0.9999 the mean entry of the result misses it by less than 1e-9 over the number of cells; for any sizes the error is within that or the explicit bound |
| `KvIndices.FlatAt` | eval/layouts_efficiency.py:557-563 | the prefix sums place request r's i-th page |
| `KvIndices.OwnerOf` | eval/layouts_efficiency.py:557-563 | every output cell lies in one request's range |
| `KvIndices.WrittenOnce` | eval/layouts_efficiency.py:57-82 | every cell below kv_indptr[-1] is written by exactly one block of one program, and no other cell is |
| `KvIndices.StoreBlock` | eval/layouts_efficiency.py:71-82 | one masked block: exactly its cells get their pages |
| `KvIndices.Run` | eval/layouts_efficiency.py:46-82 | in any order of programs and blocks the output is the concatenation of the requests' pages |
| `KvIndices.PageStands` | eval/layouts_efficiency.py:46-82 | page i of a request stands behind the pages of all earlier requests, and is entry i of its table row from its start on, or from zero without starts |
| `RankMatrix.RanksConserveTotal` | workshop/e2e_bench/scripts/plot_expert_distribution_heatmap.py:377-382 | if every owner is a rank, rank totals add up to the physical total |
| `RankMatrix.GroupTwice` | workshop/e2e_bench/scripts/plot_expert_distribution_heatmap.py:410-416 | grouping by logical expert and then by owner is grouping by owner |
| `RankMatrix.GroupLoads` | workshop/e2e_bench/scripts/plot_expert_distribution_heatmap.py:369-382 | each entry is the load of the experts a rank owns, and zero beyond the ranks |
| `RankMatrix.RankMatrixOf` | workshop/e2e_bench/scripts/plot_expert_distribution_heatmap.py:363-388 | computed from physical counts and owners, else the recorded matrix, else nothing |
| `RankMatrix.LogicalOwners` | workshop/e2e_bench/scripts/plot_expert_distribution_heatmap.py:345-360 | which ranks hold a copy of each logical expert, negative ids counting from the end; an error if and only if some id is out of range |
| `RankMatrix.OwnerIndex` | workshop/e2e_bench/scripts/plot_expert_distribution_heatmap.py:407-412 | the unique owners, or nothing if some expert has none or several |
| `RankMatrix.AllOwners` | workshop/e2e_bench/scripts/plot_expert_distribution_heatmap.py:404-412 | over all layers; ids are read before any verdict |
| `RankMatrix.MappingCheck` | workshop/e2e_bench/scripts/plot_expert_distribution_heatmap.py:391-417 | the verdict or error in every case; both matrices are equal if and only if the verdict is yes |
| `RankMatrix.ConsistentSegmentPasses` | workshop/e2e_bench/scripts/plot_expert_distribution_heatmap.py:391-417 | when logical counts are sums of physical ones, the computed matrix is the one the check expects |
| `RankMatrix.CheckSegment` | workshop/e2e_bench/scripts/plot_expert_distribution_heatmap.py:1014-1038 | so a consistent segment without split experts passes, end to end |
| `RankMatrix.Overall` | workshop/e2e_bench/scripts/plot_expert_distribution_heatmap.py:1039-1042 | failed if any segment failed, else open if any is open |
| `Snapshot.Session.Watch` | src/core/snapshot.py:198-216 | the rejections in order; the stripped name is taken and hooked only on success |
| `Naming.NamesExtend` | src/core/snapshot.py:163-173 | every name is its prefix or continues it behind a dot |
| `Naming.PartsAre` | src/core/snapshot.py:163-173 | list items are numbered from 0 in order, dictionary entries come by ascending key, each exactly once |
| `Naming.SeparateNamesAreDistinct` | src/core/snapshot.py:163-173 | if in no container a key is another one or continues it behind a dot, every tensor has a name of its own |
| `Naming.NamesApartIff` | src/core/snapshot.py:167-170 | all fillings of a dictionary's keys with separate values keep names apart if and only if no key is another one or continues it behind a dot |
| `Naming.CollidingFilling` | src/core/snapshot.py:167-170 | keys that violate this admit separate values with two tensors of one name |
| `Naming.ListIsSeparate` | src/core/snapshot.py:171-173 | lists and tuples of separate values are separate: numbers do not collide |
| `Naming.DotFreeKeysAreSeparate` | src/core/snapshot.py:167-170 | different keys without dots, such as keyword arguments have, are separate |
| `Naming.SameLengthKeysAreSeparate` | src/core/snapshot.py:167-170 | so are different keys of one length, dots or not |
| `Naming.DotsCollide` | src/core/snapshot.py:163-173 | a concrete dictionary in which two tensors share a name |
| `Naming.CallNamesAreDistinctIff` | src/core/snapshot.py:226-233 | the tensors of one call have names of their own if and only if those of each recorded part do |
| `Naming.CallNamesAreDistinct` | src/core/snapshot.py:226-233 | separate arguments, keyword arguments and results suffice |
| `Snapshot.Session.Add` | src/core/snapshot.py:276-327 | refused after finalizing, for anything but a tensor, and for a hash that is not one word, in this order; else the captured tensor is appended |
| `Snapshot.CapturedIs` | src/core/snapshot.py:142-152 | the repository's operator is asked first, torch's next, else the host hashes; the algorithm recorded is that of the one that answered |
| `Snapshot.Session.RecordAll` | src/core/snapshot.py:226-233 | the tensors of a call are recorded in order up to the first that is rejected |
| `Snapshot.Session.Capture` | src/core/snapshot.py:218-233 | one call index per call, used up even on failure; after a call recorded in full all keys are distinct if and only if the names within it are, and always if its containers are separate |
| `Snapshot.CallKeepsKeysFresh` | src/core/snapshot.py:224-233 | keys stay apart exactly when the names within the call are: the call counter takes care of different calls |
| `Snapshot.GroupByDevice` | src/core/snapshot.py:342-348 | every device hash is listed with its index under its device, and nothing else |
| `Snapshot.Fetch` | src/core/snapshot.py:350-354 | every index gets its own hash, read as unsigned, in any order of devices |
| `Snapshot.Session.Close` | src/core/snapshot.py:389-392 | every hook is removed |
| `Snapshot.Session.constructor` | src/core/snapshot.py:183-189 | an empty session |
| `Snapshot.Session.Finalize` | src/core/snapshot.py:329-387 | every pending capture becomes a record, in recording order, with its own key, description, algorithm and metadata and the value `0x` plus the rendering of its own word modulo 2^64, or of the host hash of its own tensor; hooks are removed; a second call returns the same |
| `Snapshot.DeviceValuesAgreeIff` | src/core/snapshot.py:354-360 | two device hashes have equal values if and only if their words agree modulo 2^64 |
| `Snapshot.WrongIs` | src/core/snapshot.py:400-420 | what is wrong with a reference record: missing, else a different fingerprint, else different metadata, compared with the last candidate of its key |
| `Snapshot.FirstDifference` | src/core/snapshot.py:395-433 | none if and only if all agree; otherwise the earliest disagreement in reference order, then the earliest unexpected record |
| `Snapshot.AgreeIffSameRecords` | src/core/snapshot.py:395-433 | with unique keys there is no difference if and only if both hold the same records; the comparison is symmetric |
| `Snapshot.SelfAgreesIff` | src/core/snapshot.py:400-424 | a snapshot agrees with itself if and only if records sharing a key are equal |

## Left out

- Floating point, bf16 rounding and gate disagreement between ranks: vectors are abstract or real, and every
  rank computes the same routing, as the comment at benchmark_hf_native_ep.py:152-156 assumes.
- Opaque kernels and libraries (fused experts, NCCL, hashes, `segment_packbits`): parameters with the
  data-movement meaning given above.
- `PipelineSafety.DeliverKeepsRankInv`: collectives happen at one instant; overlap of the three dispatch exchanges of one
  layer with each other is not modelled.
- `Orchestrator.RegistryOrchestrator.Register`: new artifacts have no parents yet, as for `Add`. A cell that exists may be
  of any kind, but wrapping methods for distribution belongs to DistOrchestrator; state values, `__getattr__` dispatch
  and MethodProxy are not part of this model, nor is an artifact whose class attributes change between calls.
- `Orchestrator.RegistryOrchestrator.Add`: a new artifact has no parents yet; one that was given parents elsewhere, by
  another orchestrator or by hand, is not modelled, as its parents and recorded edges need not agree.
- `Orchestrator.RegistryOrchestrator.Record`: as for `Add`.
- `Orchestrator.RegistryOrchestrator.Connect`: new artifacts have no parents yet, as for `Add`.
- `Provenance.WinnersCellIsHeld`: all definers hold plain methods of their own, which makes the winner explicit;
  mixtures are covered by `Settled.SourcesCellIsHeld`.
- `Registry.ParseGraph`: a `kind` that is not a string is rejected here, while the code stores it as it is; rendering of
  other non-strings by `str` is a parameter. JSON text and `component` lookup are not modelled.
- `Registry.AcceptedIsCanonical`: dictionaries whose `kind` is not a string are outside, as for `ParseGraph`.
- `Registry.ParsePrintParse`: dictionaries whose `kind` is not a string are outside, as for `ParseGraph`.
- `RegistryKeys.CellReads`: a `kind` that is not a string is an error, as for `ParseGraph`.
- `RegistryKeys.BindingReads`: a `kind` that is not a string is an error, as for `ParseGraph`.
- DistOrchestrator and the shared-memory IPC: their handshakes do not decide delivery or barriers.
- `KvMergeStep.MergeFixedBudget`: scores are finite reals; a pair whose scores cancel gives no finite row, which the model
  marks instead of computing with infinities.
- `Bisection.GenerateMatrix`: for a target outside the reach of the ratios only the bracket facts of `Bisect` are stated.
- `KvIndices.Run`: 32- and 64-bit casts of indices; block tables are assumed long enough, as the callers build them.
- `_inplace_rewrite_flattened`: its result depends on the order of programs when pages overlap.
- `RankMatrix.MappingCheck`: the arrays of a segment agree in steps, layers and copies, as the recorder writes them;
  numpy's broadcasting of other shapes is not modelled, nor the selection of layers.
- `Snapshot.Session.Finalize`: CUDA synchronization, host copies and hexadecimal rendering are parameters or absent.
- Renderers, command lines, timing, autotuning, configuration, schedulers, block managers and the older proxies.
