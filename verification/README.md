# A verified model of the compiler and its decode runtime

This project models, in Dafny, the parts of the repository whose correctness is an equality or an
invariant over many steps, and proves those. `dafny verify dfyconfig.toml` checks all of it.

**Stateful decode against whole sequences.** The host keeps a key-value store, a convolution window and
a delta-rule matrix for each layer and advances them by one token. The replay scripts compute the same
layers over a whole sequence, and the decode surgery swaps one for the other. Proved: the four host
operations, loop by loop on the stored arrays; the chunked and the tree-shaped closed form of the gated
delta rule equal the recursion for every length, topology and initial state; a sequence may be cut into
chunks anywhere; the row loop inverts a triangular matrix on both sides; streaming convolution equals
batch convolution; a decode row of attention over fixed-width masked faces is the row of causal
attention. Elements are reals. `exp` is a parameter that is positive and turns sums into products.

**Static memory.** The offset judge, with 64-bit arithmetic, answers OK exactly for sound plans, and a
sound plan makes one shared pool behave like private buffers at every read of every run. The emitter's
SPILL and FILL instructions let every operation read its own operands even if, between nodes, all
temporaries but those of live unspilled tensors and all of the pool but the regions of live spilled
ones are overwritten. *Found:* the judge adds offset and size in 64 bits and accepts a row that wraps
around; an accepted plan lies inside the pool exactly when no row wraps. *Found:* the graph's result is
read from the temporary of the Output's operand (`compiler/tools/wtop_emit.cpp:717-724`). The emitter
keeps that temporary to the end (`:486-492`), but emits no FILL for the Output (`:502`), and the
planner may spill its producer (`compiler/src/vtcm/ddr_offsets.cpp:46-72`). The instrumented list has
the result of the plain one exactly when that tensor is not spilled, or is empty.

**Graph rewriting.** Shape folding and constant folding as a worklist driver runs them, on a mutable
graph of consumers and producers. Every run ends, on any graph; each rewrite removes one operation; on
a sound graph every surviving node and every Output keeps its value, the graph stays acyclic, and every
real user stays listed by its producer. *Found:* the comment at
`compiler/src/opt/pass_manager.cpp:71-76` promises a fixpoint. The phases are constant folding alone
and shape folding alone (`pass_const_fold.cpp:190`, `pass_shape_fold.cpp:154`). Constant folding always
reaches one. Shape folding may not, in three ways: a merged tail is still the tail of a chain, or has
become an identity, and is not pushed again; and an identity that nobody reads goes, which leaves its
producer with one reader, and that reader is not pushed. For each rewrite it is proved exactly when it
loses a match in these ways. A run of any phase in any order does reach a fixpoint on a graph whose
pairs of removable operations are shallow: no third one above a reshape of a pair, no pair of reshapes
that is an identity as a whole, and either no reshape that reads a reshape or some reader for every
pair. In particular it does when no reshape reads a reshape or a transpose.

**Dependency engine.** The double-hash table is a map through any sequence of insertions, lookups,
growths and rebuilds. The order of the nodes, a reverse post-order found with an explicit stack, puts
all producers first exactly when the graph is acyclic; the runlist then does, for any choice of enabled
operations. The bounded relaxation answers whether first-producer chains are acyclic, and then has the
longest distance of every operation. *Found:* distances have 32 bits. The answer is right for all
graphs of n operations exactly when n (4 n + 16) is below 2 to the 32nd, that is up to 32766; from
there on a ring of n operations reaches the largest distance, settles, and passes for acyclic. *Found:*
relaxation writes distances to the descriptor list, and the runlist sorts by the copies in the table,
which nobody writes (`compiler/src/ir/graph_deps.cpp:123` copies, `:174-176` reads). The runlist is the
given ordering without unknown ids, and puts first producers first exactly when that ordering does. An
ordering with a consumer first would go through unchanged. The only ordering that the program passes is
that of `order_nodes` (`graph_prepare.cpp:3200-3283`, which runs at `:445`, before `build_graph_deps`
at `:502`), so on an acyclic graph the missing sort does no harm.

**Layouts and formats.** The weight archive is written and read back; a file survives exactly when its
size is below 8 to the 11th and its name has no NUL and 1 to 95 bytes, or 99 bytes that do not end in
".raw" (then the appended ".raw" is cut off whole). The operation-list blob is assembled and parsed;
nothing is lost exactly when the version is 2 or every offset has 32 bits, which the emitter's choice
ensures for offsets in their areas. The packed activation surface and the packed weights are one-to-one
layouts with their loops, tap orders and the natural order included. Merging multicast sends keeps every send, receiver, channel and byte, up to
the wrap-around of 64-bit sums.

Modules follow the program: one for each component or layer of definitions, with classes where the
source updates objects in place. A method states its result by a specification function or predicate,
or outright; and for each main operation what it does is stated once more apart from those, in plain
positions, times, fields and formulas, and proved of it.

## Model

| member | source | states |
|---|---|---|
| TriangularSolve.SolveRows | scripts/replay_gdn_layer0.py:148-155 | the in-place row loop computes, for any size, the matrix given by the row recursion over finished rows |
| TriangularSolve.SolvedRight | scripts/replay_gdn_layer0.py:150-155 | for strictly lower triangular A the loop's result A' satisfies A' = A + A A' |
| TriangularSolve.SolvedLeft | scripts/replay_gdn_layer0.py:150-155 | and also A' = A + A' A |
| TriangularSolve.ResolventIsInverse | scripts/replay_gdn_layer0.py:148-158 | (I + A')(I - A) = I = (I - A)(I + A') for every size |
| GatedDelta.SolutionIsCorrection | kernels/include/gdn_tree.h:5-8 | a solution of the ancestor triangular system is the correction that the serial step makes at each node |
| GatedDelta.ClosedStateIsSerial | kernels/include/gdn_tree.h:3-12 | with any solution of the system, the closed form of the state at each node is the serial state, for every topology and initial state |
| GatedDelta.ClosedOutputIsSerial | kernels/include/gdn_tree.h:9-11 | and the closed form of the output is what is read from that state |
| GatedDelta.TreeSolutionSolves | kernels/include/gdn_tree.h:8 | the row loop's inverse applied to b solves the ancestor system |
| GatedDelta.ClosedFormIsSerial | kernels/include/gdn_tree.h:24-26 | outputs and node states of the closed form with u = (I+L)^-1 b are those of the node-by-node recursion |
| ChunkedDelta.ChunkIsSerial | kernels/include/gdn_sm.h:5-13 | for any chunk length and initial state, the chunk equations give the outputs and final state of the per-token rule |
| ChunkedDelta.AfterResumes | kernels/include/gdn_sm.h:12-13 | the recursion resumed from the state of a prefix ends in the state of the whole |
| ChunkedDelta.CutsDoNotMatter | kernels/host/c1b_gdn_08b_host.c:120-147 | however a sequence is cut into chunks, all outputs and the final state are those of the uncut recursion |
| DeltaReplay.CoreIsSerial | scripts/replay_gdn_layer0.py:125-172 | each row of attn_qk @ (attnI @ v_beta) is the recursion's output from the zero state, whatever fills the rows after the sequence |
| DeltaReplay.PaddedReplayIsSerial | scripts/replay_gdn_layer0.py:119-130 | in particular when the tail is padded with zeros |
| HostDecodeState.HostDecodeState.constructor | compiler/include/hnnx/host_decode_state.hpp:23-27 | empty caches and zero windows and matrices |
| HostDecodeState.HostDecodeState.KvAppend | compiler/src/ops/host_decode_state.cpp:60-69 | appends one key and one value face to one layer, exactly when index, length and capacity allow; no other layer changes |
| HostDecodeState.HostDecodeState.KvGather | compiler/src/ops/host_decode_state.cpp:71-97 | fills the fixed-width face; with even groups, element (h hd + d) width + p for keys and (h width + p) hd + d for values is element d of head h of position p, each key-value head repeated for its group, and zero past the history |
| GroupedHeads.GroupOfHead | scripts/replay_attn_layer3.py:139-141 | in a list with each element repeated rep times in a row, element h is the (h / rep)-th |
| HostDecodeState.HostSilu | compiler/src/ops/host_decode_state.cpp:99 | x / (1 + exp(-x)) is x times its sigmoid exp(x) / (exp(x) + 1) |
| HostDecodeState.HostDecodeState.ConvStep | compiler/src/ops/host_decode_state.cpp:101-113 | outputs of all channels from window and input, the window shifted by one input, other layers untouched |
| HostDecodeState.HostDecodeState.DeltaHead | compiler/src/ops/host_decode_state.cpp:119-137 | one head's block becomes the next state of the delta rule and its outputs are read from it; nothing outside changes |
| HostDecodeState.HostDecodeState.DeltaStep | compiler/src/ops/host_decode_state.cpp:115-138 | all heads of a layer are stepped, each from its own old block; other layers and the rest of the output stay |
| ConvStream.WindowHoldsLast | compiler/src/ops/host_decode_state.cpp:110-112 | after any number of steps from zero the window holds the last inputs, oldest first, zeros before the start |
| ConvStream.StreamIsBatch | scripts/replay_gdn_layer0.py:93-95 | every streamed output is the left-padded depthwise convolution of the whole sequence at that position, times its sigmoid |
| ConvStream.StreamSequence | compiler/src/ops/host_decode_state.cpp:101-113 | decode steps over a whole sequence from the zero window output the convolution of the sequence and leave its last inputs; other layers stay |
| DeltaDecode.DecodeOutput | compiler/src/ops/host_decode_state.cpp:115-138 | in any run of decode steps, each head's outputs are those of the recursion over elements hh d to hh d + d - 1 of the tokens, from any start |
| DeltaDecode.DecodeIsReplay | scripts/surgery_decode_graph.py:182-198 | decode steps from the zero state output what the padded whole-sequence replay computes, for every head, token and element |
| DeltaDecode.DecodeSequence | compiler/src/ops/host_decode_state.cpp:115-138 | the decode steps of a whole sequence are a run, from the old state of the layer to its new one; other layers stay |
| DeltaDecode.DecodeFromZero | scripts/surgery_decode_graph.py:182-198 | from the zero state they output what the padded replay of the sequence computes |
| Attention.MakeFace | scripts/persistent_runtime.py:47-59 | layout of the decode face and its additive mask; refused outside the positions |
| Attention.AppendAndGather | scripts/surgery_decode_graph.py:145-163 | one append and the two gathers hold exactly the extended history |
| Attention.DecodeHistory | compiler/src/ops/host_decode_state.cpp:60-97 | after any history of appends up to capacity the faces hold all keys and values in order |
| Attention.AttendIgnoresMasked | compiler/src/ops/host_decode_state.cpp:73-75 | positions with a score of minus infinity contribute nothing, so two widths with the same finite scores attend alike |
| Attention.AttendAverages | scripts/replay_attn_layer3.py:148-151 | attention over equal rows is that row |
| Attention.ShiftChangesNothing | scripts/replay_attn_layer3.py:148-149 | only differences of scores count |
| Attention.DecodeRowIsCausalRow | scripts/replay_attn_layer3.py:139-151 | masked attention over the gathered faces at position p is row p of causal attention over the whole sequence with its key-value heads repeated, which is the fraction of exp(q k scaling) v over exp(q k scaling), summed up to p |
| OffsetCheck.CheckOffsets | kernels/host/check_offsets.c:85-163 | usage error on an empty table; when no row wraps around, OK exactly if every row ends within the capacity, is aligned and alive at some time, no byte is occupied twice at any time, and no empty row lies strictly inside another; the reported usage is the largest end |
| PooledMemory.SoundPlanIsLiveDisjoint | kernels/host/check_offsets.c:75-83 | rows alive together share no address in a sound plan inside the pool |
| PooledMemory.ReadsAgree | kernels/host/check_offsets.c:76-148 | under a sound plan whose lifetimes cover every access, every read from the pool is what private buffers would give |
| PooledMemory.AcceptedPlanFits | kernels/host/check_offsets.c:103-108 | with a capacity, an accepted plan lies inside the pool if and only if no row wraps around 64 bits |
| PooledMemory.WrappedPlanIsAccepted | kernels/host/check_offsets.c:103 | a concrete accepted plan that leaves the pool |
| SpillFill.Emitter.EmitNode | compiler/tools/wtop_emit.cpp:514-565 | FILLs of spilled operands, the operation, its SPILL, then releases, with the allocation that results; an error after the FILLs when no handler is known |
| SpillFill.Emitter.EmitAll | compiler/tools/wtop_emit.cpp:496-566 | the emitted list and allocation of the whole order, exactly when every operation has a handler |
| SpillFill.Emitter.OutputRef | compiler/tools/wtop_emit.cpp:717-724 | the result is read where the operand of the Output was put |
| SpillFill.LastUses | compiler/tools/wtop_emit.cpp:485-492 | the last use of each key, beyond the whole order for the operand of the Output |
| SpillFill.ComputeLastUse | compiler/tools/wtop_ops/wtop_ops.hpp:122-129 | for each key the last position that uses it, and only used keys |
| SpillFill.Emitter.NewTemp | compiler/tools/wtop_ops/wtop_ops.hpp:141-145 | takes the last freed temporary or a new one |
| SpillFill.Emitter.Release | compiler/tools/wtop_ops/wtop_ops.hpp:131-140 | frees a temporary unless a later use is known |
| SpillTemps.TempsAreInUse | compiler/tools/wtop_ops/wtop_ops.hpp:131-145 | a tensor has a temporary exactly from its production to its last recorded use |
| SpillTemps.TempsArePeak | compiler/tools/wtop_ops/wtop_ops.hpp:141-145 | the emitter makes exactly as many temporaries as tensors are in use at once |
| SpillRun.OperandsAreProduced | compiler/tools/wtop_emit.cpp:496-498 | in a producer-first order an emitted operand has been computed when it is used |
| SpillRun.EveryOperationReadsItsOperands | compiler/tools/wtop_emit.cpp:514-562 | whatever overwrites memory not held by live unspilled tensors, each operation reads its operands of the source graph |
| SpillRun.SpillingChangesNothing | compiler/tools/wtop_emit.cpp:541-562 | the instrumented and the plain list give every operation the same operands |
| SpillRun.PinnedIsLive | compiler/tools/wtop_emit.cpp:486-492 | the temporary of the operand of the Output is never released |
| SpillRun.ResultIsRightIffNotSpilled | compiler/tools/wtop_emit.cpp:502 | after the instrumented list the result is that of the source graph, whatever is overwritten, if and only if its tensor is not spilled, or is empty |
| SpillRun.SpillingKeepsResultIff | compiler/tools/wtop_emit.cpp:717-724 | the instrumented and the plain list have the same result exactly then |
| SpillRun.SpilledOutputCanBeLost | compiler/src/vtcm/ddr_offsets.cpp:46-72 | a plan of one operation whose spilled result can differ from the plain one, whatever it computes |
| Tensors.TransposedReadsInside | compiler/src/opt/pass_shape_fold.cpp:72-79 | a transposition by a permutation that fits its shapes reads only elements that exist |
| Tensors.IdentityTransposes | compiler/src/opt/pass_shape_fold.cpp:31-48 | transposing by 0, 1, 2, ... is the identity, through mixed-radix indices |
| GraphRewrite.ObeyingIsEval | compiler/src/opt/pass_const_fold.cpp:157-165 | a sound graph has only one assignment of values that obeys every operation |
| GraphMeaning.IdentityIsProducer | compiler/src/opt/pass_shape_fold.cpp:52-81 | an operation matched as identity reshape or transpose denotes its producer's tensor |
| GraphMeaning.RewireKeeps | compiler/src/opt/pass_shape_fold.cpp:84-101 | removing it keeps the graph sound and every surviving value |
| GraphMeaning.RewiredConsumers | compiler/src/opt/pass_shape_fold.cpp:84-101 | the producer lists its own consumers without the removed one, then the removed one's, in order |
| GraphMeaning.HeadHasOneUser | compiler/src/opt/pass_shape_fold.cpp:62-67 | the head of a matched chain has no live user but the tail |
| GraphMeaning.MergeKeeps | compiler/src/opt/pass_shape_fold.cpp:104-117 | merging a chain keeps the graph sound and every surviving value |
| GraphMeaning.MergedConsumers | compiler/src/opt/pass_shape_fold.cpp:104-117 | the producer of the head lists the tail in its place, at the end |
| GraphMeaning.FoldedDataIsValue | compiler/src/opt/pass_const_fold.cpp:127-178 | evaluating a matched operation on its constants into a buffer of its shape gives its value |
| GraphMeaning.FoldKeeps | compiler/src/ir/graph_prepare.cpp:4238-4264 | replacing it by that constant keeps the graph sound and every value |
| PassManager.GraphPrepare.RewireConsumers | compiler/src/opt/pass_shape_fold.cpp:84-101 | the loop over consumers is the rewiring of the specification, consumer lists included |
| PassManager.GraphPrepare.MergeChain | compiler/src/opt/pass_shape_fold.cpp:104-117 | the loop over inputs is the merge of the specification |
| PassManager.GraphPrepare.FoldToConst | compiler/src/ir/graph_prepare.cpp:4229-4264 | true exactly for live operations that are no constant, and data; then same id, shape and consumers, no inputs or parameters |
| PassManager.GraphPrepare.Rewrite | compiler/src/opt/pass_shape_fold.cpp:123-147 | returns 1 exactly when the matched pass changes the graph, and which change it is; 0 without a reference kernel |
| PassManager.RunPhase | compiler/src/opt/pass_manager.cpp:62-118 | the loop computes the specified run, keeps all meaning on a sound graph, counts one rewrite for each operation removed, and removes or folds what the next three rows say |
| FoldLaws.ShapeFoldingRemovesIdentities | compiler/src/opt/pass_shape_fold.cpp:24-147 | on a sound graph in which no reshape reads a reshape or a transpose, exactly these die: live reshapes, and transposes by 0, 1, 2, ... of one to eight entries, that read one live node of their own dimensions; the total counts them |
| FoldLaws.ShapeFoldingFinishes | compiler/src/opt/pass_shape_fold.cpp:49-81 | on a sound graph at most two such operations deep, no identity is left, and no reshape that alone reads a reshape |
| FoldLaws.ConstFoldingFoldsKnown | compiler/src/opt/pass_const_fold.cpp:61-69 | on any sound graph, exactly the listed operations with a kernel whose operands all come down to constants become constants; the total counts them |
| PassManager.Worklist.AddAll | compiler/src/opt/pass_manager.cpp:77-81 | pushes what is not there; list and set agree and nothing is listed twice |
| PassDriver.RewriteRemovesOne | compiler/src/opt/pass_shape_fold.cpp:84-117 | on any graph a rewrite removes exactly one live non-constant operation |
| PassDriver.TotalIsOperationsRemoved | compiler/src/opt/pass_manager.cpp:88-117 | the total is the number of operations removed, at most the initial count, on any graph |
| PassDriver.DriveKeeps | compiler/src/opt/pass_manager.cpp:88-117 | every run from any worklist keeps soundness, surviving values and Outputs |
| PassFixpoint.FoldMakesConsumersMatch | compiler/src/opt/pass_manager.cpp:107-113 | folding makes new matches only among the consumers that are pushed |
| PassFixpoint.FoldingReachesFixpoint | compiler/src/opt/pass_manager.cpp:71-76 | a run without shape folding ends with nothing left to change |
| PassFixpoint.FixpointIffNoShapeFold | compiler/src/opt/pass_manager.cpp:71-76 | over all sound graphs, every run of a phase reaches a fixpoint if and only if shape folding is not in the phase |
| ShapeFixpoint.MergeLosesOnlyTail | compiler/src/opt/pass_manager.cpp:107-113 | after a merge every match is on the worklist if and only if the tail is, or matches no more |
| ShapeFixpoint.RewireLosesOnlyLastReader | compiler/src/opt/pass_manager.cpp:107-113 | after the removal of an identity every match is on the worklist if and only if each reshape that became the only reader of a reshape is |
| ShapeFixpoint.ShallowReachesFixpoint | compiler/src/opt/pass_manager.cpp:88-117 | on a sound shallow graph a run from a worklist with every match ends with nothing left, for any passes in any order |
| ShapeFixpoint.ShallowEndsInFixpoint | compiler/src/opt/pass_manager.cpp:71-117 | so does every run of a phase from the worklist that the program starts with |
| ShapeFixpoint.SeparateIsShallow | compiler/src/opt/pass_shape_fold.cpp:52-81 | a graph in which no reshape reads a reshape or a transpose is shallow |
| ShapeStops.ForkStopsShort | compiler/src/opt/pass_shape_fold.cpp:84-101 | a run that stops short after removing an identity that nobody reads, without a merge |
| ShapeStops.RoundTripStopsShort | compiler/src/opt/pass_shape_fold.cpp:104-117 | a run that stops short after merging two reshapes that are an identity together |
| ProbeSequence.ProbeReaches | compiler/src/ir/graph_deps.cpp:35-43 | with an odd step on a power-of-two table every slot is probed |
| ProbeSequence.ProbesAreDistinct | compiler/src/ir/graph_deps.cpp:35-43 | and none twice in one round |
| ProbeSequence.WrapThenMask | compiler/src/ir/graph_deps.cpp:42 | wrapping to 32 bits before masking makes no difference |
| HashTable.HashSamples | compiler/src/ir/graph_deps.cpp:14-20 | the hash of four ids, with both multipliers and all shifts at work |
| HashTable.StepIsOdd | compiler/src/ir/graph_deps.cpp:36 | the probe step is bits 16 to 31 of the hash, doubled, plus one |
| HashTable.SearchIsRight | compiler/src/ir/graph_deps.cpp:32-45 | a search finds an id exactly when the table holds it, and fails for lack of slots only when all are taken |
| HashTable.FillVacant | compiler/src/ir/graph_deps.cpp:54-59 | taking the empty slot at the end of a path adds one binding and leaves no key beyond a gap |
| HashBucket.OpDescHashBucket.Init | compiler/src/ir/graph_deps.cpp:23-30 | an empty table of a power of two, at least 16 and twice the capacity |
| HashBucket.OpDescHashBucket.Lookup | compiler/src/ir/graph_deps.cpp:32-45 | the slot that binds the id, when the map has it |
| HashBucket.OpDescHashBucket.Insert | compiler/src/ir/graph_deps.cpp:47-74 | the map gains at most a fresh binding of the id, through growth too; the count follows |
| HashBucket.OpDescHashBucket.Grow | compiler/src/ir/graph_deps.cpp:63-72 | growth keeps the whole map and leaves room |
| HashBucket.OpDescHashBucket.Rebuild | compiler/src/ir/graph_deps.cpp:385-417 | a rebuild keeps the whole map |
| GraphDeps.GraphDeps.AddOp | compiler/src/ir/graph_deps.cpp:115-126 | records an operation in the table and once in the list; ids in the list stay distinct and mirror the table |
| Relaxation.ChainEnds | compiler/src/ir/graph_deps.cpp:564-570 | in an acyclic graph every chain of predecessors ends within as many steps as there are nodes |
| Relaxation.BestIsMaximum | compiler/src/ir/graph_deps.cpp:590-594 | the specified distance is the maximum over the chain of start plus steps, and is attained |
| Relaxation.SettledIsAcyclic | compiler/src/ir/graph_deps.cpp:602-606 | a graph on which a pass changes nothing has no cycle |
| Relaxation.AcyclicSettles | compiler/src/ir/graph_deps.cpp:577-598 | more passes than nodes settle acyclic chains, at the longest distances, while these have 32 bits |
| Relaxation.CyclicDoesNotSettle | compiler/src/ir/graph_deps.cpp:577-598 | a cycle settles in no pass before some distance can have come to the largest number |
| RelaxationWidth.RingSettles | compiler/src/ir/graph_deps.cpp:590-606 | from the first number of operations for which it can, a ring settles within the limit |
| RelaxationWidth.SmallestFailure | compiler/src/ir/graph_deps.cpp:577 | that number is 32767 |
| GraphDeps.GraphDeps.RelaxOnce | compiler/src/ir/graph_deps.cpp:583-598 | one pass in place is the pass of the specification, in 32 bits; it reports whether a distance changed, and the largest |
| GraphDeps.GraphDeps.SetDistances | compiler/src/ir/graph_deps.cpp:534-614 | true exactly when the passes settle within 4n + 16; the distances are what they leave, and the recorded maximum is theirs |
| GraphDeps.AcceptedIffAcyclic | compiler/src/ir/graph_deps.cpp:600-606 | while n (4n + 16) is below 2 to the 32nd, that is exactly when first-producer chains are acyclic |
| GraphDeps.AcceptedIsRightIff | compiler/src/ir/graph_deps.cpp:576-606 | for each n, it is so for all lists of n operations if and only if n (4n + 16) is below 2 to the 32nd |
| Runlist.SortIsStable | compiler/src/ir/graph_deps.cpp:178-179 | the sort is a sorted permutation that keeps the order of equal distances |
| GraphDeps.GraphDeps.BuildRunlist | compiler/src/ir/graph_deps.cpp:134-192 | succeeds exactly when distances settle and an id of the ordering is known; the runlist is then the ordering without unknown ids |
| GraphDeps.TableSortIsOrdering | compiler/src/ir/graph_deps.cpp:172-184 | sorting by the table's untouched distances moves nothing |
| GraphDeps.RunlistIsOnlyAsGoodAsOrdering | compiler/src/ir/graph_deps.cpp:166-184 | first producers come first in the runlist if and only if they do in the ordering |
| GraphDeps.RunlistCanPutConsumerFirst | compiler/src/ir/graph_deps.cpp:171-184 | an acyclic pair of operations that is accepted, and an ordering that keeps its consumer first in the runlist |
| GraphDeps.ListSortPutsProducerFirst | compiler/src/ir/graph_deps.cpp:166-179 | sorted by the relaxed distances of the list, first producers would come first for every ordering |
| GraphDeps.DistancesAreLongest | compiler/src/ir/graph_deps.cpp:555-597 | on an acyclic list every distance is the longest over its chain, below twice the length of the list |
| GraphDeps.TopologicalDistances | compiler/src/ir/graph_deps.cpp:553-571 | when first producers are listed first, relaxed distances are positions in the list |
| NodeOrder.PostOrder | compiler/src/ir/graph_prepare.cpp:3229-3273 | the search with an explicit stack lists every node once, on an acyclic graph after all its successors |
| ProducerOrder.BuildAdjacency | compiler/src/ir/graph_prepare.cpp:3203-3227 | an edge to each live node from each live producer among its inputs, and no other |
| ProducerOrder.OrderNodes | compiler/src/ir/graph_prepare.cpp:3200-3283 | every live node once, and all producers first if and only if the graph is acyclic |
| ProducerOrder.OrderedIsAcyclic | compiler/src/ir/graph_prepare.cpp:3275-3276 | no order of a cyclic graph puts all producers first |
| DepsPipeline.AddOps | compiler/src/ir/graph_prepare.cpp:4550-4570 | one descriptor for each sorted operation, in the table and in the list |
| DepsPipeline.FilterKeepsOrder | compiler/src/ir/graph_prepare.cpp:673-689 | leaving out disabled operations keeps the producers of the others first |
| DepsPipeline.PrepareRunlist | compiler/src/ir/graph_prepare.cpp:4550-4576 | on an acyclic graph the runlist is built exactly when some operation is enabled, holds exactly the enabled ones, once each and in the order of the nodes, and has every producer first |
| Tar.SizeReadsBack | compiler/tools/hnnx_compile.cpp:125-127 | a size printed in a field reads back if and only if it fits in the digits |
| Tar.TarBuffer.Append | compiler/tools/hnnx_compile.cpp:116-141 | the buffer grows by header with checksum, data and padding |
| TarHeader.AppendedIsMember | compiler/tools/hnnx_compile.cpp:116-141 | what is appended is a ustar header with each field as the format has it, its checksum the sum with spaces in its place, then the data and zeros up to 512 |
| TarHeader.ArchiveHoldsMembers | compiler/tools/hnnx_compile.cpp:262-271 | an archive is one such member for each file, under its name with ".raw", in order |
| TarReader.LoadWeightBin | compiler/src/frontend/qnn_ir_loader.cpp:861-899 | the loop over members computes the specified map, with its stops, its exception and what a size may begin with |
| TarReader.SizeIsNumber | compiler/src/frontend/qnn_ir_loader.cpp:874-877 | a size is the octal digits after white space and at most one plus sign, up to what is none |
| TarReader.LastMemberIsWhole | compiler/src/frontend/qnn_ir_loader.cpp:868-881 | a last member that ends with the buffer is read, and one that is cut short anywhere is not |
| TarReader.NameReadsBack | compiler/src/frontend/qnn_ir_loader.cpp:870-887 | the names that are found under themselves, exactly |
| TarReader.RoundTrip | compiler/src/frontend/qnn_ir_loader.cpp:861-899 | reading a closed archive of good files gives exactly their names and bytes |
| TarReader.FilesOfDistinct | compiler/src/frontend/qnn_ir_loader.cpp:888 | with distinct names that is every pair and no other |
| TarReader.OneFileSurvives | compiler/tools/hnnx_compile.cpp:116-141 | one file survives writing and reading if and only if its name and size are good |
| WeightArchive.AdaptWeights | compiler/tools/hnnx_compile.cpp:231-273 | archives the first candidate of each name, sliced in order from multiples of four, skipping empty and overlong ones |
| WeightSlices.ArchiveAndRead | compiler/tools/hnnx_compile.cpp:231-273 | archived and read back, the first candidate of each name, if not empty and within the file, has the widened bytes at its place: from the next multiple of four after the end of the one before; an empty or overlong one only aligns, a repeated one does nothing; no other name is found |
| WeightSlices.PlainLayout | compiler/tools/hnnx_compile.cpp:240-247 | for distinct names that all fit, the places are the running sum rounded up to multiples of four |
| WeightArchive.ReaderGetsSlices | compiler/tools/hnnx_compile.cpp:243-267 | the reader finds every slice under its name and nothing else |
| Wtop.LeReadsBack | compiler/tools/wtop_emit.cpp:625-645 | little-endian numbers read back when they fit their width |
| WtopBlob.Emitter.Assemble | compiler/tools/wtop_emit.cpp:604-663 | the blob written in place is header, slot table, operation table, padding and weights, in the version chosen |
| WtopBlob.ParseWtop | scripts/gehtp_prof.py:78-117 | the cursor parser computes the specified result, errors included |
| WtopBlob.ParseOfTables | scripts/gehtp_prof.py:78-117 | parsing what begins with the tables gives version, operations, and slots as their records keep them, whatever follows |
| WtopLayout.ParsesLayout | scripts/gehtp_prof.py:78-117 | the parser returns a blob if and only if the buffer begins with its layout, every field at its byte position |
| WtopLayout.HeaderErrors | scripts/gehtp_prof.py:85-100 | each error of the header and the slot table, exactly |
| WtopLayout.AssembleAndParse | compiler/tools/wtop_emit.cpp:604-663 | the emitter writes that layout, in version 2 exactly if forced or a weight area exceeds 0xFFFFFF00 bytes, zero in unused words and padding, the weights at the next multiple of 128; and it is parsed so |
| WtopBlob.RoundTrip | compiler/tools/wtop_emit.cpp:633-650 | parsing returns exactly what was emitted if and only if the version is 2 or no offset needs more than 32 bits |
| WtopBlob.ChosenVersionIsEnough | compiler/tools/wtop_emit.cpp:613-618 | the emitter's choice loses nothing when offsets lie in a weight area |
| WtopBlob.WeightsAreAligned | compiler/tools/wtop_emit.cpp:659-661 | the weights lie whole at the next multiple of 128 |
| Crouton.CellOfIndex | kernels/host/inv_crouton16.py:41-52 | the digits of a position, taken apart, are those it was built from |
| Crouton.IndexOfCell | kernels/host/inv_crouton16.py:41-52 | and put together again they give the position |
| Crouton.UnpackOfPack | kernels/host/inv_crouton16.py:32-57 | unpacking a packed matrix gives the matrix, for all M and K that are multiples of 32 |
| Crouton.PackOfUnpack | kernels/host/inv_crouton16.py:66-82 | packing an unpacked surface gives the surface, at every position |
| Crouton.PackedIsSurface | kernels/host/inv_crouton16.py:66-82 | the position of every element in plain numbers: phase, column tile, row tile, row pair, column, row of the pair |
| CroutonLoops.Pack | kernels/host/inv_crouton16.py:66-82 | the five loops with a running counter fill every position in order, to that surface |
| CroutonLoops.Unpack | kernels/host/inv_crouton16.py:32-57 | the two scattered assignments fill every element, from such a surface those of its matrix |
| WeightTaps.TapOrderIs | kernels/host/weight_layout_pack.py:45-50 | the three tap orders are the comprehensions over rows and columns |
| WeightTaps.WeightLies | kernels/host/weight_layout_pack.py:64-99 | the index of every weight in the packed and in the given tensor, in plain numbers |
| WeightLayout.OrderListsTaps | kernels/host/weight_layout_pack.py:45-50 | each of the three tap orders lists every tap of the kernel exactly once, at a closed-form index |
| WeightLayout.CroutonIsOneToOne | kernels/include/hmx_crouton.h:27-31 | the position formula in a tile is one-to-one |
| WeightLayout.WeightIsAtPlace | kernels/host/weight_layout_pack.py:64-99 | every weight is at its closed-form place, for every kernel and channel size |
| WeightLayout.PlaceGivesWeight | kernels/host/weight_layout_pack.py:64-99 | the place of a weight, taken apart, gives its tap and channels back |
| WeightLayout.PlacesAreDistinct | kernels/host/weight_layout_pack.py:64-99 | distinct weights never collide |
| WeightLayout.OtherPlacesAreZero | kernels/host/weight_layout_pack.py:66-72 | every other position holds zero |
| WeightPacker.Interleave32 | kernels/host/weight_layout_pack.py:54-62 | rows interleaved in pairs, padded with a row of zeros when odd |
| WeightPacker.Tile32 | kernels/host/weight_layout_pack.py:64-73 | a tile of a tap and two banks, zero beyond the channels |
| WeightPacker.OrderOfTaps | kernels/host/weight_layout_pack.py:82-87 | the tap order of a kernel |
| WeightPacker.PackNatural | kernels/host/weight_layout_pack.py:75-80 | rows of 32 in their order, padded to an even number |
| WeightLayout.NaturalIsAtPlace | kernels/host/weight_layout_pack.py:75-80 | each element of the natural layout is at the place of its row and column, and elements do not collide |
| WeightPacker.PackWeights | kernels/host/weight_layout_pack.py:89-99 | the loops over banks and taps emit the specified layout, the part of it that belongs to a single bank, or the natural layout of the first convolution |
| Multicast.ConflictIsPartialOverlap | compiler/src/mcast/mcast_optimizer.cpp:15-27 | receivers that do not repeat conflict if and only if the sets overlap and neither holds the other |
| GreedyGroups.GroupsAreGood | compiler/src/mcast/mcast_optimizer.cpp:89-133 | groups are disjoint, ascending, of two and more, and each member joined by the rule |
| GreedyChoice.GroupsAreGreedyFrom | compiler/src/mcast/mcast_optimizer.cpp:89-133 | whoever is in no earlier group and may join a group in its turn is in it; and nobody may join who is alone |
| GreedyMerging.GroupsAreGreedy | compiler/src/mcast/mcast_optimizer.cpp:15-38 | a send may join exactly if it has a channel of a member, the first one's sender, receivers that do not overlap partly with the first one's, and the payload sum in 64 bits is within the limit |
| MulticastMeaning.EverySendOnce | compiler/src/mcast/mcast_optimizer.cpp:165-207 | with unique tags, one send for each group with exactly its members' sender, channels and receivers, then every other send unchanged |
| MulticastMeaning.GroupsAreFeasible | compiler/src/mcast/mcast_optimizer.cpp:31-38 | every group has one sender, and the payload its send stores is within the limit |
| MulticastMeaning.PayloadIsConserved | compiler/src/mcast/mcast_optimizer.cpp:97-120 | total payload is conserved but for multiples of 2 to the 64th, and exactly when it fits |
| McastOptimizerState.McastOptimizer.FindConflict | compiler/src/mcast/mcast_optimizer.cpp:15-27 | the counting loop computes the conflict, repetitions included |
| McastOptimizerState.McastOptimizer.BuildSupercasts | compiler/src/mcast/mcast_optimizer.cpp:89-133 | the greedy loops build the specified supercasts |
| McastOptimizerState.McastOptimizer.ApplyResults | compiler/src/mcast/mcast_optimizer.cpp:165-207 | merged sends and the rest, for any supercasts |
| McastOptimizerState.McastOptimizer.Optimize | compiler/src/mcast/mcast_optimizer.cpp:42-65 | the whole pass and the counts it records; with unique tags, greedy groups merged and every other send in its order |

## Left out

- Floating-point bits, widening and narrowing of half floats, and saturation: elements are reals or abstract integers.
- `exp` is any positive function that turns sums into products; cosine and sine in the decode face are parameters, and the scale by the square root is a number.
- `k_cumdecay` (scripts/replay_gdn_layer0.py:165), which does not enter the output of the first chunk.
- Loading, saving and resetting the decode state on disk.
- HostDecodeState.HostDecodeState.DeltaStep: asks for sizes within the fixed storage, which the source leaves to its callers.
- HostDecodeState.HostDecodeState.KvGather: asks for groups that are not empty and are stored, which the source leaves to its callers; heads that do not divide evenly follow the division of the source and are not compared with repeated heads.
- Table parsing and printed reports of the offset judge.
- PooledMemory.ReadsAgree: an operation reads all its inputs before it writes, and lifetimes cover all accesses; the judge does not see the accesses.
- The `--dma-runlist` branch of the emitter, which passes zero offsets, and the reordering fallback before emission, which does not repair violated edges.
- SpillFill.Emitter.EmitNode: handlers are abstract and emit one instruction with one output; their own error codes are those of an operation without a handler.
- SpillFill.Emitter.NewTemp: numbers of temporaries are unbounded, where the source has a limit of 32768, and the table of static offsets is not part of the model.
- SpillRun.SpilledOutputCanBeLost: whether the budget of the planner ever spills the producer of an Output on a given device.
- Fusion rules, which are off by default, and all other passes.
- PassManager.GraphPrepare.RewireConsumers: the pointer `conn.src_out_def`, which always follows the producer's id, is not a field of its own.
- PassManager.GraphPrepare.FoldToConst: the bytes of the constant pool, their alignment and the list of extents.
- Element types of tensors, ranks above the modelled dimension list, and the layout of the constant pool; nodes have one output.
- GraphMeaning.RewireKeeps: a sound graph has single-output nodes of matching sizes, constants of full size, and transposes with one permutation parameter.
- PassFixpoint.FixpointIffNoShapeFold: speaks of all graphs at once; for one graph with shape folding, shallowness is sufficient, and each rewrite has its exact condition, but no condition on the start graph is proved necessary.
- HashBucket.OpDescHashBucket.Init: capacities are unbounded numbers; from 2 to the 30th on, the doubled capacity of the source wraps around.
- FoldLaws.ShapeFoldingFinishes: for graphs more than two operations deep, what a run leaves is not characterised beyond its meaning.
- 32-bit wrap-around of the number of rewrites.
- GraphDeps.GraphDeps.BuildRunlist: group entries, groups in descriptors and the removal of unused operations, which always succeed and write nothing that the runlist reads, and the sanity check, which can only fail on a memory group whose generating operation is not in the table.
- DepsPipeline.PrepareRunlist: the graph does not change between ordering and building; lists are shorter than 2 to the 32nd; the iteration order of the source's map of operations is that of the list of nodes.
- Memory groups and lifetimes of the dependency engine.
- TarReader.LoadWeightBin: a size field that begins with a minus sign is treated as having no digits; file access is left out.
- Extraction of candidates from JSON and the conversion of element types, which is a parameter of the slicing.
- The emitter's self-check with `wt_parse` and the data that operations write into the weight areas.
- WeightPacker.PackWeights: a single bank begins at a multiple of 32 below the number of output channels, as its callers pass it.
- Packing of biases, and comparison with a golden file.
- The integer-programming model and its solver, which accepts the greedy solution, and its dump.
- MulticastMeaning.EverySendOnce: is for unique tags; with repeated tags a supercast may collect another send of the same tag.
- MulticastMeaning.GroupsAreFeasible: receivers are compared with those of the first member only, as in the source, and the limit is on the stored 64-bit payload.
- Everything whose body is not in the repository, and stubs: schedulers, cost models, serving, sessions, tokenizer, transport, vector and matrix intrinsics.
