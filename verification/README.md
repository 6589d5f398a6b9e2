# GeoZL kernels, modelled and proved

GeoZL is a C library of raster codecs. This project models its hardest kernels in
Dafny and proves what they are for: the PFOR codec and its second parser in the GPU
planner, the PFOR and PivCo planners and their threaded builds, the MED and planar
predictors with their wavefront, register and chunked decoders, the NoData guard with
the radius it uses, the coefficient blobs, and the host runtime of the GPU decoder.

Code that works by changing things is modelled by methods over arrays and classes with
the source's loops and branches; each is proved against a definition of what it should
compute, and the lemmas are about those definitions. `dafny verify dfyconfig.toml`
checks everything.

The main results:

- Decoding what the PFOR encoder wrote gives the array back, on every platform
  (`PforCodec.RoundTrip`); every block it wrote is the cheapest there is
  (`PforCodec.Encode`, `PforSelect.CheapestOnce`).
- The GPU planner's own parser accepts exactly the blocks the decoder accepts
  (`PforPlan.BlockInfo`), and the tasks of a planned batch give exactly what the decoder
  writes (`PforBatch.DecodePlanned`). The threaded build is the one-shot build
  (`PforBatch.BuildParallel`).
- In every PivCo plan that is returned nothing points outside its arrays, payload or lane
  buffer, and every node's children split it (`PivcoClosed.ReturnedClosed`); the leaves of
  a block write every output position once (`PivcoBlocks.SomeLeafWrites`,
  `PivcoBlocks.OneLeafWrites`).
- The PivCo Huffman builder, in place over its gapped arrays, gives a complete canonical
  code of every symbol that occurs (`PivcoTables.BuildTree`, `PivcoOrder.CodeIsCanonical`),
  its topology never fails (`PivcoTables.TreeHasShape`), and for every batch the threaded
  PivCo build is the one-shot build (`PivcoTables.BuildParallel`).
- Under every schedule of the frame pass each frame is processed once, and the frames it
  may report are exactly the first bad ones, one for each worker
  (`GpuPass.EachFrameOnce`, `GpuReport.ReportsExactly`).
- Over every run of decode calls nothing pending reads memory that was reset or replaced
  (`GpuWaves.EveryRun`).
- The wavefront and chunked predictors decode what the plain recurrences encode
  (`MedCodec.RoundTrip`, `PlanarEncode.ChunkedRoundTrip`), and the NoData guard restores
  what it replaced, within the bound of every recipe
  (`NoDataRestore.UnchangedRestored`, `GuardBound.BoundKept`).

How the pieces stand:

| modules | what they hold |
|---|---|
| Common, Words, Arith, Streams, Batches | words as bits, index arithmetic, streams of blocks, folds over frames |
| BitIO, PforFormat, PforSelect, PforEncode, PforPack, PforBlock | the PFOR wire format as one definition, and the encoder against it |
| PforUnpack, PforVector, PforDecode, PforCodec | the decoder against the same definition, and the round trip |
| PlanPopcount, PforPlan, PforBatch | the PFOR task planner, one-shot and threaded |
| Popcount, PivcoTree, PivcoWalk, PivcoBlocks | the PivCo tree, the walk of one block, and what an accepted block looks like |
| PivcoParts, PivcoLanes, PivcoFrames, PivcoBatch, PivcoClosed, PivcoMerge, PivcoSizes | PivCo plans: what a frame adds, the one-shot build, the split and merged build |
| PivcoWeights, PivcoLeaves, PivcoOrder, PivcoCode | the PivCo Huffman code: complete weights, collapsed leaves, their canonical order, and splitting it by codeword bits |
| PivcoBuilder, PivcoRanks, PivcoTables | the tree builder over its arrays against that definition, and the planner with the trees it gives |
| Machine, Med, MedDecode, MedCodec | machine integers, the median predictor, its wavefront decoder |
| PrefixSums, ZigzagLanes, Scans, PlanarRows, PlanarCodec, PlanarEncode | prefix-sum registers, unfolding in registers, scans, planar reconstruction in chunks |
| NoDataGuard, NoDataFill, NoDataRestore, GuardRadius, GuardBound | the NoData guard on both sides, its radius, and the bound kept end to end |
| Coeffs | coefficient blobs |
| StagingArena, GpuWaves, GpuPass, GpuReport, GpuLayout, GpuCopies, GpuPlaces | the host runtime of the GPU decoder |

Choices that run through the model:

- A PFOR word is its bits, a byte is eight of them, so shifts, masks and casts are what
  C does to bits. The predictors and the NoData guard use numbers below 2^B; their
  bitwise operators go through the bits in `Machine`, and in the guard single-bit and
  contiguous masks are written as differences and remainders. Coefficient bytes are
  numbers below 256, and bytes OR-ed into disjoint places are added.
- A register is a sequence of lanes. `Isa` and `Platform` say which of the source's code
  paths runs; every contract holds for all of them.
- The encoder, the decoder and the GPU planner of PFOR are each proved against one
  definition of the wire format (`PforFormat`); the round trip and the agreement of the
  two parsers follow from that.
- The PivCo planner is proved for any answer of the tree queries, and then put together
  with the tree builder. The outcome of host and device calls is a parameter about which
  nothing is assumed; so is the distance test of the guard on floats, except in
  `GuardBound.FloatBoundKept`.
- A worker thread of a planner touches only its own range, so its result is the same
  under any interleaving; the frame pass of the decoder does share state and is modelled
  by its atomic actions under every schedule.
- `qsort` in `direct_targets` is modelled as an insertion sort by the same key; the
  decision does not depend on the order of spans with equal starts.

Where the code does not do what one might expect:

- A failing frame pass reports the least frame among those that failed, not the least bad
  frame. `GpuReport.LeastBadReported` says when it is the least bad one under every
  schedule, `GpuReport.ReportsExactly` which frames can be reported at all, and
  `GpuPass.FailsExactly` that whether the pass fails is the same under all.
- The overflow-safe span end saturates at SIZE_MAX, and SIZE_MAX is not above a limit of
  SIZE_MAX. `GpuCopies.BatchCheckExact` says exactly when the check of a batch is right
  about every list of copies, `GpuCopies.PastPasses` gives a copy that passes it and
  reaches outside whenever it is not. Frames and targets of that size do not exist in
  memory.

## Model

| member | source | states |
|---|---|---|
| BitIO.PutBits | core/src/pfor/encode_pfor_kernel.c:44-58 | the byte-wise writer ORs exactly the low nbits of the value in at the bit cursor, for any width up to 64, and changes no other bit |
| BitIO.PutBitsWide | core/src/pfor/encode_pfor_kernel.c:35-42 | the 8-byte writer has the same contract, so any mix of the two writes the same stream |
| BitIO.GetBits | core/src/pfor/decode_pfor_kernel.c:26-43 | the byte-wise reader returns exactly the nbits bits at the cursor |
| BitIO.GetBitsWide | core/src/pfor/decode_pfor_kernel.c:47-54 | the 8-byte reader returns the same bits, so any mix of readers reads the same entries |
| PforFormat.FirstBlockExtend | core/src/pfor/decode_pfor_kernel.c:609-698 | the block at the front of a stream is the same whatever follows it |
| PforFormat.ListRank | core/src/pfor/decode_pfor_kernel.c:609-698 | in a strictly ascending position list entry e is the e-th marked value, so list and bitmap number the exceptions alike |
| Streams.StreamAppend | core/src/pfor/decode_pfor_kernel.c:718-744 | streams of whole blocks concatenate, values and all |
| PforSelect.Measure | core/src/pfor/encode_pfor_kernel.c:66-76 | the histogram counts, for every width, exactly the values of that width, and maxBits is the greatest width |
| PforSelect.ChooseWidth | core/src/pfor/encode_pfor_kernel.c:78-103 | the chosen width has the least cost among the widths that leave at most 255 exceptions, the last such width on a tie, with the exact exception count and list mode |
| PforSelect.CostBound | core/src/pfor/encode_pfor_kernel.c:78-103 | a chosen block is never larger than 2 + 256 * eltWidth bytes |
| PforSelect.CheapestOnce | core/src/pfor/encode_pfor_kernel.c:78-103 | exactly one header is the cheapest of a block: the cost and its tie rule leave no choice |
| PforEncode.WriteList | core/src/pfor/encode_pfor_kernel.c:116-120 | the position list holds every exception once, in ascending order, and nothing outside it changes |
| PforEncode.WriteBitmap | core/src/pfor/encode_pfor_kernel.c:110-115 | bit i of the bitmap is set exactly when value i is an exception |
| PforEncode.WriteHigh | core/src/pfor/encode_pfor_kernel.c:121-136 | the high-bit stream holds, in order of position, the bits of each exception above the chosen width, whichever writer each entry went through |
| PforPack.PackBody | core/src/pfor/encode_pfor_kernel.c:139-171 | the per-lane reservoirs store bit j of value i at the place the format gives it, and the body takes exactly 32 * bits bytes |
| PforBlock.ChooseHeader | core/src/pfor/encode_pfor_kernel.c:66-109 | the header is the cheapest for the values of the block: least cost over all widths with at most 255 exceptions, widest on a tie, with the exact exception count, width and mode |
| PforBlock.EncodeBlock | core/src/pfor/encode_pfor_kernel.c:60-208 | the bytes written are one well-formed block of exactly the returned size that denotes the 256 values, its header is the cheapest for them, and no other byte changes |
| PforBlock.EncodedMeaning | core/src/pfor/encode_pfor_kernel.c:105-172 | a block with this header, positions, high bits and body is accepted, is as long as its fields announce and denotes its source |
| PforCodec.Encode | core/src/pfor/encode_pfor_kernel.c:182-235 | fails exactly when the width is no element width, the input is empty, or dst is smaller than the bound; else the output denotes the input, padded last block included, within the bound, and every block of it is the cheapest for its values |
| PforVector.ByteShifts | core/src/common/vshift.h:12-46 | the 16-bit shifts with a byte mask are true per-byte shifts, for every count |
| PforUnpack.Refill | core/src/pfor/decode_pfor_kernel.c:294-328 | a value that straddles the reservoir and the next word is put together from both, and what is left of the word is the new reservoir |
| PforUnpack.UnpackScalar | core/src/pfor/decode_pfor_kernel.c:279-333 | the scalar walk writes the low bits of all 256 values and touches nothing else |
| PforVector.UnpackVector | core/src/pfor/decode_pfor_kernel.c:91-157 | the register walk, and the one that decodes both halves of 128 values from two base pointers, write the same 256 values as the scalar walk, for every bit width below the element size |
| PforVector.LoadUpper | core/src/pfor/decode_pfor_kernel.c:135-157 | the second base pointer, bits * 16 bytes on, reads each lane from the middle of its bit stream |
| PforDecode.UnpackBody | core/src/pfor/decode_pfor_kernel.c:657-663 | whichever platform and bit width, zero and full width included, the body unpacks to the same low bits |
| PforDecode.BitmapPopcount | core/src/pfor/decode_pfor_kernel.c:69-83 | the count of the bitmap is the number of values it marks |
| PforDecode.CheckHeader | core/src/pfor/decode_pfor_kernel.c:615-655 | the header checks refuse only blocks the format refuses; what passes has its fields, exceptions and body inside the input |
| PforDecode.PatchBitmap | core/src/pfor/decode_pfor_kernel.c:665-678 | walking the set bits of the bitmap word by word adds the high bits to exactly the marked values |
| PforDecode.PatchList | core/src/pfor/decode_pfor_kernel.c:679-688 | the position list is refused exactly when it is not strictly ascending, and otherwise patches exactly the listed values |
| PforDecode.GetHigh | core/src/pfor/decode_pfor_kernel.c:600-608 | an entry reads the same through whichever of the two readers is in bounds |
| PforCodec.DecodeBlock | core/src/pfor/decode_pfor_kernel.c:609-716 | consumes n bytes exactly when the front of the input is a block of n bytes, and writes what it denotes |
| PforCodec.Decode | core/src/pfor/decode_pfor_kernel.c:718-744 | returns 0 exactly for a stream of the format that holds that many elements and nothing more, and then dst is what it denotes |
| PforCodec.RoundTrip | core/src/pfor/decode_pfor_kernel.c:718-744 | for every width, count and array, decoding the encoder's whole output returns 0 and gives the array back, on every platform |
| PforPlan.BlockInfo | core/src/gpu/pfor_plan.c:18-69 | the second parser of the format accepts exactly the blocks the decoder accepts, with the size the decoder consumes and the exception count |
| PforPlan.BitmapCount | core/src/gpu/pfor_plan.c:47-59 | the four 64-bit counts of the planner add up to the marked values of the bitmap |
| PlanPopcount.MultiplyPopcount64 | core/src/gpu/pfor_plan.c:11-16 | the count by fields and one multiplication is the number of set bits, for every word |
| PlanPopcount.FieldsApart | core/src/gpu/pfor_plan.c:11-16 | before the multiplication every byte holds the number of its own bits: no borrow or carry leaves a byte |
| PlanPopcount.TopIsSum | core/src/gpu/pfor_plan.c:11-16 | for bytes below 16 the top byte of the product is the sum of the eight bytes |
| PforPlan.PositionsValid | core/src/gpu/pfor_plan.c:18-69 | the planner's position check is the decoder's, for lists and bitmaps |
| PforPlan.PlannedDecodes | core/src/gpu/pfor_plan.c:79-117 | every frame the planner accepts is a stream the decoder accepts |
| PforPlan.DecodablePlans | core/src/gpu/pfor_plan.c:79-117 | every stream the decoder accepts is planned, provided its offsets fit 32 bits |
| PforPlan.FrameTiles | core/src/gpu/pfor_plan.c:79-117 | the tasks of a frame tile its payload and its output without gap or overlap, each decoding its own stretch of the values |
| PforPlan.PlanFrame | core/src/gpu/pfor_plan.c:79-117 | the planning loop writes exactly the tasks and counts of the frame's plan and leaves the tasks before it alone |
| PforBatch.Build | core/src/gpu/pfor_plan.c:121-203 | the one-shot build is the concatenation of the frames' plans padded to a multiple of four, or nothing when a frame or a total is refused |
| PforBatch.BuildParallel | core/src/gpu/pfor_plan_parallel.c:20-146 | for any number of threads the split and merged build is the one-shot build, padding included |
| PforBatch.PlannedBatch | core/src/gpu/pfor_plan.c:146-203 | every frame of a planned batch decodes, and its stretch of the task list tiles it |
| PforBatch.PlannedEveryWidth | core/src/gpu/pfor_plan.c:79-117 | for every element size a frame the planner accepts decodes, and its tasks tile it |
| PforBatch.DecodePlanned | core/src/pfor/decode_pfor_kernel.c:718-744 | pfor_decode succeeds on every frame of a planned batch, on every platform, and the tasks of the plan give exactly what it writes, run by run |
| PforBatch.MergePlans | core/src/gpu/pfor_plan_parallel.c:43-83 | copying the workers' tasks at running offsets and padding again gives the plan of all their frames |
| PforBatch.Collect | core/src/gpu/pfor_plan_parallel.c:85-146 | a worker fails only if the one-shot build of the whole batch fails |
| Batches.FoldRange | core/src/gpu/pfor_plan_parallel.c:85-146 | the plan of a range of frames stands as it is between the plan of what is before it and the plan of what is behind it |
| Batches.FairShare | core/src/gpu/pivco_plan_parallel.c:216-230 | the shares are never empty, always leave one frame for every later worker, and use up all frames |
| Popcount.Popcount64 | core/src/gpu/pivco_plan.c:124-135 | clearing the lowest bit until none is left counts the set bits |
| Popcount.Popcount8 | core/src/gpu/pivco_plan.c:118-122 | the three folding steps count the set bits of a byte |
| PivcoTree.Topology.Build | core/src/gpu/pivco_plan.c:68-96 | whatever the split function answers, the build either lays the whole tree out in pre-order or fails, and keeps the nodes before it |
| PivcoTree.ChildrenAbove | core/src/gpu/pivco_plan.c:68-96 | in a built tree both children stand above their parent and inside the tree |
| PivcoWalk.BitmapOnes | core/src/gpu/pivco_plan.c:137-152 | words, bytes and the masked tail together count the ones of any bitmap |
| PivcoWalk.BitCursor.Read | core/src/gpu/pivco_plan.c:98-109 | a read succeeds exactly when its bits are there, returns their value, and a failed read does not move the cursor |
| PivcoWalk.WalkBlock | core/src/gpu/pivco_plan.c:158-206 | the walk accepts exactly the bits the definition of a block accepts, ends where that ends, and records every node's bits |
| PivcoBlocks.EveryNode | core/src/gpu/pivco_plan.c:158-206 | every node of an accepted block is a block of its own between the cursor's start and end, its output inside the block's |
| PivcoBlocks.ChildrenSplit | core/src/gpu/pivco_plan.c:158-206 | the counts of two children sum to their parent's, and their outputs split its output range in order |
| PivcoBlocks.BitsInLane | core/src/gpu/pivco_plan.c:158-206 | the bits of every node lie inside the lane and behind the cursor's end |
| PivcoBlocks.BitsAscend | core/src/gpu/pivco_plan.c:158-206 | the bits of different nodes do not overlap; they follow one another in pre-order |
| PivcoBlocks.SomeLeafWrites | core/src/gpu/pivco_plan.c:158-206 | every output position of a block is in some leaf's range |
| PivcoBlocks.OneLeafWrites | core/src/gpu/pivco_plan.c:158-206 | no output position is in two leaves' ranges |
| PivcoBlocks.WalkMoves | core/src/gpu/pivco_plan.c:158-206 | moving a block's output moves every range and changes nothing else, below 2^32 |
| PivcoLanes.Planner.AddTreeLane | core/src/gpu/pivco_plan.c:348-412 | adding a tree lane appends exactly the lane's symbols, tree, nodes and blocks, or fails as the definition does |
| PivcoLanes.Planner.AddPforLane | core/src/gpu/pivco_plan.c:319-347 | adding a PFOR lane appends exactly one lane block per 256 elements, or fails as the definition does |
| PivcoLanes.PforLaneDecodes | core/src/gpu/pivco_plan.c:319-347 | a planned PFOR lane is a stream the PFOR decoder accepts |
| PivcoFrames.AddFrame | core/src/gpu/pivco_plan.c:250-430 | adding a frame appends exactly the frame's part, header checks and lane sizes included, or fails |
| PivcoBatch.Build | core/src/gpu/pivco_plan.c:231-450 | the one-shot build is the join of the frames' parts, rebased, with padded lane blocks |
| PivcoParts.JoinAssoc | core/src/gpu/pivco_plan_parallel.c:82-171 | rebasing part after part or groups of parts gives the same plan |
| PivcoParts.TrimPadded | core/src/gpu/pivco_plan_parallel.c:22-27 | trimming removes the padding of a planned range and nothing else |
| PivcoClosed.BatchClosed | core/src/gpu/pivco_plan.c:231-450 | before padding, every reference of a planned batch stays inside its arrays, the payload and the lane bytes |
| PivcoClosed.ReturnedClosed | core/src/gpu/pivco_plan.c:231-450 | in every plan the planner returns each block lies inside its arrays and the lane bytes, its nodes write inside its output and read inside the payload, the children read through the tree words split their parent in count and output, each lane block is a PFOR block the decoder accepts and writes below laneBytes or, as padding, at it, and each join reads its byte lanes below laneBytes |
| PivcoClosed.WalkedSane | core/src/gpu/pivco_plan.c:158-206 | the nodes of a walked block, read with the tree words of its topology, have these properties |
| PivcoMerge.BuildChunk | core/src/gpu/pivco_plan_parallel.c:22-38 | a worker's range ends up as the unpadded plan of its frames |
| PivcoMerge.Relocate | core/src/gpu/pivco_plan_parallel.c:82-171 | when the totals pass the check no relocation overflows 32 bits, and the result is the join |
| PivcoMerge.MergePlans | core/src/gpu/pivco_plan_parallel.c:82-171 | merging the workers' plans gives the plan of all their frames exactly when the totals pass the check |
| PivcoMerge.BuildParallel | core/src/gpu/pivco_plan_parallel.c:191-254 | whatever trees the tables answer, for any number of threads the parallel build is the one-shot build exactly when the merged array sizes pass the merge's check, and fails otherwise |
| PivcoMerge.MergeParts | core/src/gpu/pivco_plan_parallel.c:173-189 | plans made frame by frame merge to the one-shot plan on the same condition |
| PivcoSizes.MergeFitsExactly | core/src/gpu/pivco_plan_parallel.c:82-171 | the general form: whatever trees the tables answer, of all the limits the merge checks only the 32-bit count of nodes can bind on a batch the one-shot build plans; the trees of the source are thin, so there none binds |
| PivcoSizes.ThinAlwaysFits | core/src/gpu/pivco_plan_parallel.c:82-171 | for trees of at most 256 nodes every batch the one-shot build plans passes all the checks of the merge |
| PivcoWeights.ComputeTableLog | bindings/r/src/ext/openzl/src/openzl/codecs/pivco_huffman/common_pivco_kernel.c:11-43 | the length of the longest codeword exactly when the weights, 1 to 256 of them and none above 12, fill the code space of a power of two, else -1; the 32-bit sum, its wrap-around and its bit tricks included |
| PivcoWeights.CountInRegister | bindings/r/src/ext/openzl/src/openzl/codecs/pivco_huffman/common_pivco_kernel.c:45-82 | sixteen byte lanes count every weight, the one count of 256 that wraps to nothing included |
| PivcoBuilder.Builder.LayOut | bindings/r/src/ext/openzl/src/openzl/codecs/pivco_huffman/common_pivco_kernel.c:324-339 | every weight has room for its symbols and for one more leaf from each lower weight, all of it inside the leaf array |
| PivcoBuilder.Builder.Seed | bindings/r/src/ext/openzl/src/openzl/codecs/pivco_huffman/common_pivco_kernel.c:341-358 | the leaves of each weight are the symbols of that weight in order, one leaf each |
| PivcoBuilder.Builder.Flatten | bindings/r/src/ext/openzl/src/openzl/codecs/pivco_huffman/common_pivco_kernel.c:217-239 | the block peeled off the end becomes one flat leaf of the weight above it, with the same symbols in order, and nothing else changes |
| PivcoBuilder.Builder.Collapse | bindings/r/src/ext/openzl/src/openzl/codecs/pivco_huffman/common_pivco_kernel.c:215-241 | peeling one weight until two are left never runs out of room, though the leaves move into slots that others left |
| PivcoBuilder.Builder.OptimizeLeaves | bindings/r/src/ext/openzl/src/openzl/codecs/pivco_huffman/common_pivco_kernel.c:213-242 | all weights from the greatest down, in place, leave the leaves of the definition |
| PivcoLeaves.LeavesKept | bindings/r/src/ext/openzl/src/openzl/codecs/pivco_huffman/common_pivco_kernel.c:198-242 | collapsing keeps every symbol once, with the codeword length of its weight, fills the same code space, and leaves at most 109 leaves |
| PivcoOrder.CodeIsCanonical | bindings/r/src/ext/openzl/src/openzl/codecs/pivco_huffman/common_pivco_kernel.c:244-308 | complete weights lead to a complete canonical code of at most 109 leaves in which every symbol that occurs stands once and no other does |
| PivcoOrder.CodeLengths | bindings/r/src/ext/openzl/src/openzl/codecs/pivco_huffman/common_pivco_kernel.c:244-308 | level and flat depth of a leaf add up to the codeword length its symbols' weights ask for |
| PivcoRanks.JustifiedIs | bindings/r/src/ext/openzl/src/openzl/codecs/pivco_huffman/common_pivco_kernel.c:279-287 | the left-justified 16-bit codeword is the place of the symbol in the code space, and never leaves 16 bits |
| PivcoRanks.HuffmanTree.CountLevels | bindings/r/src/ext/openzl/src/openzl/codecs/pivco_huffman/common_pivco_kernel.c:362-371 | no leaf lies below the levels that are counted |
| PivcoRanks.HuffmanTree.AssignRanks | bindings/r/src/ext/openzl/src/openzl/codecs/pivco_huffman/common_pivco_kernel.c:255-308 | the running codeword and rank fill the arrays with the symbols, depths and codewords of the canonical code, leaf after leaf |
| PivcoCode.NodeSplits | bindings/r/src/ext/openzl/src/openzl/codecs/pivco_huffman/common_pivco_kernel.h:172-199 | below a node of more than one leaf the first rank with the level's bit set is the first rank of a leaf, strictly inside the node, and both halves are nodes again |
| PivcoCode.CodeShape | core/src/gpu/pivco_plan.c:68-96 | on a complete canonical code splitting by codeword bits never fails and gives the tree whose leaves, in order, are those of the code |
| PivcoTables.BuildTree | bindings/r/src/ext/openzl/src/openzl/codecs/pivco_huffman/common_pivco_kernel.c:310-375 | the whole build, in place, gives the arrays of the canonical code |
| PivcoTables.TreeOfWeights | core/src/gpu/pivco_plan.c:353-358 | check and build together answer exactly what the planner is given for a lane: no tree exactly for weights that are not complete |
| PivcoTables.TreeHasShape | core/src/gpu/pivco_plan.c:68-96 | building the topology of a tree of complete weights never fails; it has at most 217 nodes, and its leaves are those of the code |
| PivcoTables.OneRank | bindings/r/src/ext/openzl/src/openzl/codecs/pivco_huffman/common_pivco_kernel.c:255-308 | the ranks number exactly the symbols that occur, each once |
| PivcoTables.CodewordLengths | bindings/r/src/ext/openzl/src/openzl/codecs/pivco_huffman/common_pivco_kernel.h:23-25 | every symbol has the codeword length tableLog + 1 - weight |
| PivcoTables.TablesAreThin | bindings/r/src/ext/openzl/src/openzl/codecs/pivco_huffman/common_pivco_kernel.c:213-242 | every tree the planner can be given has at most 256 nodes |
| PivcoTables.BuildParallel | core/src/gpu/pivco_plan_parallel.c:191-254 | with the source's own trees, for every batch and any number of threads, the threaded build is the one-shot build, without condition |
| PivcoTables.MergeParts | core/src/gpu/pivco_plan_parallel.c:173-189 | with the source's own trees plans made frame by frame merge to the one-shot plan, without condition |
| Machine.ZigzagRoundTrip | core/src/med_zigzag/decode_med_zigzag_kernel.c:12-14 | the fold of residuals and its inverse undo each other both ways, for every width |
| Med.MaskedIsMedian | core/src/med/decode_med_wavefront.h:19-27 | the predictor made of masks is the three-way choice of section A.4.1 of ITU-T T.87 |
| Med.ReconstructsOnce | core/src/med/decode_med_wavefront.h:51-104 | residuals determine the raster |
| MedDecode.FourRows | core/src/med/decode_med_wavefront.h:29-104 | four rows, each one column behind the row above with the neighbours in registers, leave exactly the serial recurrence's samples, in place too |
| MedDecode.SerialRow | core/src/med/decode_med_wavefront.h:51-104 | the rows left over after the groups of four follow the recurrence |
| MedDecode.Reconstruct | core/src/med/decode_med_wavefront.h:51-104 | for every width and row count the whole loop writes the raster of the residuals, with source and destination the same array or not |
| MedCodec.GradientIsMedian | core/src/med/encode_med_kernel.c:11-28 | the gradient of the encoder is used only between W and N, so its wrap-around never shows |
| MedCodec.Encode | core/src/med/encode_med_kernel.c:11-33 | 0 exactly for a supported raster, and then every sample holds the mapped difference from its prediction |
| MedCodec.Decode | core/src/med/decode_med_kernel.c:13-20 | 0 exactly for a supported raster, and then the raster of the residuals; otherwise nothing changes |
| MedCodec.RoundTrip | core/src/med_zigzag/decode_med_zigzag_kernel.c:12-19 | MED and MED with the fold: decoding in place what was encoded gives the raster back |
| PrefixSums.LadderIsPrefix | core/src/common/vprefix.h:85-137 | the doubling ladder of shifts and additions is the inclusive prefix sum of the register modulo 2^B |
| PrefixSums.Ladder256IsPrefix | core/src/common/vprefix.h:13-79 | the 256-bit ladder with the low half's last lane folded into the high half is the prefix sum of all lanes |
| PrefixSums.NeonRung | core/src/common/vprefix.h:141-196 | the rungs built by extraction are the rungs built by shifting |
| PrefixSums.NeonLadder | core/src/common/vprefix.h:141-196 | so the ladder built by extraction is the inclusive prefix sum as well |
| PrefixSums.Vscan | core/src/common/vprefix.h:29-137 | a scan adds each lane to the one before it and the first to the carry, and leaves the last lane as the next carry |
| ZigzagLanes.UnfoldedWord | core/src/planar_zigzag/decode_planar_zigzag_kernel.c:41-51 | on one lane the shift, the negated low bit and the exclusive or undo the fold, for every lane width |
| ZigzagLanes.RegisterUnfolds | core/src/planar_zigzag/decode_planar_zigzag_kernel.c:34-51 | the register form, with masked 16-bit shifts on byte lanes where the instruction set has no other, undoes the fold in every lane |
| Scans.Scan | core/src/common/scan.h:13-42 | for every length, width and register size every place holds the sum of the elements up to it modulo 2^B, in place too |
| PlanarRows.FirstRowRun | core/src/planar_zigzag/decode_planar_zigzag_kernel.c:12-87 | a run of a first row, blocks and tail, continues the reconstruction and writes nothing else |
| PlanarRows.LowerRowRun | core/src/planar_zigzag/decode_planar_zigzag_kernel.c:89-171 | a run of a lower row, first sample, blocks and tail, continues the reconstruction from any column |
| PlanarRows.ReconstructedOnce | core/src/planar_zigzag/decode_planar_zigzag_kernel.c:598-618 | residuals determine the samples |
| PlanarCodec.DecodeRun | core/src/planar_zigzag/decode_planar_zigzag_kernel.c:598-618 | one turn of the stream loop stays in one row of one plane, makes progress and never passes the chunk |
| PlanarCodec.DecodeStream | core/src/planar_zigzag/decode_planar_zigzag_kernel.c:598-644 | a chunk decoded at its offset extends the raster that the words before it belong to, over its input too; refused arguments change nothing |
| PlanarCodec.AnyPrefix | core/src/planar_zigzag/decode_planar_zigzag_kernel.c:620-644 | whatever words stand before the offset, some residual stream leads to them, so that contract asks nothing of the caller |
| PlanarCodec.OneRaster | core/src/planar_zigzag/decode_planar_zigzag_kernel.c:598-644 | two decodings of one stream agree, however it was cut |
| PlanarCodec.DecodeChunks | core/src/planar_zigzag/decode_planar_zigzag_kernel.c:598-644 | feeding consecutive nonempty chunks, each at its offset, decodes the whole stream of any number of planes |
| PlanarEncode.Encode | core/src/planar_zigzag/encode_planar_zigzag_kernel.c:9-30 | 0 exactly for a supported raster, and then every sample holds the mapped difference from W + N - NW |
| PlanarEncode.EncodePlanes | core/src/planar_zigzag/encode_planar_zigzag_kernel.c:9-25 | planes encoded one after the other each start afresh |
| PlanarEncode.DecodePlain | core/src/planar/decode_planar_kernel.c:252-264 | 0 exactly for a supported raster, and then the raster of the residuals, in place too |
| PlanarEncode.PlainRoundTrip | core/src/planar/decode_planar_kernel.c:252-264 | planar decoding in place inverts planar encoding modulo 2^B |
| PlanarEncode.ChunkedRoundTrip | core/src/planar_zigzag/decode_planar_zigzag_kernel.c:598-653 | the encoder's planes, cut into arbitrary nonempty chunks and decoded chunk by chunk, give the raster back |
| NoDataGuard.NanBeyond | core/src/nodata/encode_nodata_kernel.c:186-188 | the exponent and fraction test finds exactly the bits beyond infinity |
| NoDataGuard.UpIsNext | core/src/nodata/encode_nodata_kernel.c:190-226 | for every type the first replacement is the least value above the sentinel, or the sentinel when there is none; nextUp of section 5.3.1 of IEEE 754-2019 on floats |
| NoDataGuard.DownIsNext | core/src/nodata/encode_nodata_kernel.c:190-226 | the second is the greatest value below, or the sentinel; nextDown on floats |
| NoDataGuard.OtherIsZero | core/src/nodata/encode_nodata_kernel.c:190-226 | the third differs from the sentinel exactly when other bits have its value, and is then those bits |
| NoDataGuard.GuardValues | core/src/nodata/encode_nodata_kernel.c:190-226 | the return code and all three replacements for every type code, NaN sentinels and unknown types included |
| NoDataGuard.ThresholdCovers | core/src/nodata/encode_nodata_kernel.c:309-315 | no distance within the radius lies beyond the integer threshold |
| NoDataGuard.CodeServes | core/src/nodata/encode_nodata_kernel.c:229-375 | a sample's code is 0 exactly on the sentinel and never asks for a replacement the type does not have |
| NoDataGuard.ReplacementNearer | core/src/nodata/encode_nodata_kernel.c:229-375 | for a sample in reach the code names a value strictly nearer than the sentinel on the sample's own side, or the sample |
| NoDataGuard.MarkGuarded | core/src/nodata/encode_nodata_kernel.c:293-375 | every mask byte for every type: all valid, the plain mask for a NaN sentinel, or each sample's code through the loop for its type |
| NoDataFill.Fill | core/src/nodata/encode_nodata_kernel.c:94-147 | each place holds its sample, the nearest valid one on its left in the row, what the row above holds, or zero; an unusable width is one row; the output may be the input |
| NoDataFill.FillKeepsValid | core/src/nodata/encode_nodata_kernel.c:94-147 | the fill keeps every valid sample and does not depend on what the holes held |
| NoDataRestore.Restore | core/src/nodata/decode_nodata_kernel.c:7-37 | the branch-free blend writes the pattern exactly on holes and every other value as it is, over its own input too |
| NoDataRestore.RestoreGuarded | core/src/nodata/decode_nodata_kernel.c:39-115 | it fails exactly for a width that is none or a mask that holds a bad code; holes get the pattern, collisions the named neighbour, both cut to the element, other values stay |
| NoDataRestore.GuardSucceeds | core/src/nodata/decode_nodata_kernel.c:39-111 | with an encoder's mask, any decoded values restore with success, and the sentinel stands exactly at the source's holes |
| NoDataRestore.UnchangedRestored | core/src/nodata/decode_nodata_kernel.c:39-111 | values that came through unchanged come back bit for bit |
| NoDataRestore.RadiusKept | core/src/nodata/decode_nodata_kernel.c:39-111 | integer samples that decoded within the radius stay within it, and a repaired collision ends strictly nearer |
| NoDataRestore.SideKept | core/src/nodata/decode_nodata_kernel.c:39-111 | a float collision in reach moves between the sentinel and its sample, or to the sample |
| NoDataRestore.FillRestores | core/src/nodata/decode_nodata_kernel.c:7-37 | in the plain form fill and restore give the source back exactly |
| NoDataRestore.PlainHoles | core/src/nodata/decode_nodata_kernel.c:7-37 | in the plain form a sample reads as a hole exactly when it was one or decoded to the pattern |
| GuardRadius.RadiusSound | core/src/lossy/lossy_recipe.c:308-335 | every sample whose LINEAR, LOG or SQRT bound lets s stand for it lies within the returned distance of s |
| GuardRadius.RadiusTight | core/src/lossy/lossy_recipe.c:308-335 | some sample lies at exactly that distance and may come back as s, unless none may at all |
| GuardRadius.NoneReaches | core/src/lossy/lossy_recipe.c:323-331 | a negative discriminant means no sample can come back as s, so the radius 0 is right |
| GuardBound.BoundKept | core/src/lossy/lossy_recipe.c:308-335 | end to end for integers, every recipe and sentinel: with the mask written for the recipe's radius the sentinel is restored exactly where it was, and a sample that decoded within the recipe's bound is restored within it |
| GuardBound.ValueOrder | core/src/nodata/encode_nodata_kernel.c:263-282 | the order of the keys the neighbours are made from is the order of the floats' values, and equal keys are equal values |
| GuardBound.FloatBoundKept | core/src/nodata/encode_nodata_kernel.c:263-282 | the same end to end for finite floats, given a distance test that never misses a sample in reach |
| GuardBound.RoundedTells | core/src/nodata/encode_nodata_kernel.c:309-312 | comparing the rounded distance with a radius no smaller than the exact one is such a test, in every rounding that keeps the order and the radius |
| Coeffs.Size | core/src/coeffs/coeffs.c:14-33 | the size is 0 exactly for the shapes that cannot be packed, else the blob's, and never above 10000 |
| Coeffs.Pack | core/src/coeffs/coeffs.c:35-101 | the blob at the front of dst and the rest of dst as it was, or 0 and dst as it was, exactly when the shape is bad or does not fit |
| Coeffs.Parse | core/src/coeffs/coeffs.c:103-163 | each return code exactly in its case; sizes told for every good blob; -2 and errors leave both buffers untouched; success fills them with the values and counts |
| Coeffs.PackParse | core/src/coeffs/coeffs.c:87-163 | parsing a packed list returns the same vectors, and the blob has the size the shape announces |
| Coeffs.ParsePack | core/src/coeffs/coeffs.c:87-163 | re-packing the vectors of any accepted blob gives the same bytes |
| StagingArena.GpuArena.Alloc | core/src/gpu/staging_arena.c:38-77 | the arena and the address after one request: bumped, a new chunk, the smaller second try, or nothing |
| StagingArena.GpuArena.Reset | core/src/gpu/staging_arena.c:24-36 | several chunks become one reserve of their total and an eighth, one chunk is kept and emptied |
| StagingArena.GpuArena.Summed | core/src/gpu/staging_arena.c:30-32 | the running size_t total never wraps |
| StagingArena.TotalBelow | core/src/gpu/staging_arena.c:30-32 | chunks that are apart hold less than the address space below their ends |
| StagingArena.CallIssued | core/src/gpu/staging_arena.c:24-77 | between two resets all blocks served are aligned, inside one chunk each and pairwise apart, and together exactly what is counted as used |
| StagingArena.ServedIsStaged | core/src/gpu/staging_arena.c:79-88 | looking a served block up finds a chunk that holds all of it at an aligned offset |
| StagingArena.OneChunkCall | core/src/gpu/staging_arena.c:24-77 | a call that fits the one chunk is served from it end to end, whatever the host would answer |
| StagingArena.SteadyCalls | core/src/gpu/staging_arena.c:24-77 | with one chunk, any number of calls that fit it leave it the only chunk |
| StagingArena.MergedThenSteady | core/src/gpu/staging_arena.c:24-77 | after a call that needed several chunks, once the merged chunk is granted at the first request, every later call within the total and an eighth uses that chunk alone |
| GpuWaves.WaveBuffers.Finish | core/src/gpu/decode.c:261-273 | every batch leaves, the target is let go, and failure is reported exactly when some wait failed |
| GpuWaves.Decoder.BeginWave | core/src/gpu/decode.c:283-297 | which wave is finished and becomes current, for every backend, stream and wait outcome |
| GpuWaves.Decoder.EnsureScratch | core/src/gpu/decode.c:679-691 | scratch that is large enough stays; else everything pending is finished before it is replaced |
| GpuWaves.Decoder.Queue | core/src/gpu/decode.c:669-677 | a created batch joins the current wave, whose array has room, even when its enqueue fails |
| GpuWaves.Decoder.DecodeEx | core/src/gpu/decode.c:783-1257 | the state after one decode call on every path, early refusals and failures included |
| GpuWaves.BegunInvariant | core/src/gpu/decode.c:283-297 | after begin_wave the current wave is empty and everything still pending is on the new call's stream; after a failure nothing is pending |
| GpuWaves.ScratchedInvariant | core/src/gpu/decode.c:679-691 | scratch is replaced only with nothing pending, and success means at least the bytes asked for |
| GpuWaves.ScratchReady | core/src/gpu/decode.c:1089-1200 | a batch that uses the scratch finds one of at least the bytes it needs |
| GpuWaves.StepsBound | core/src/gpu/decode.c:1149-1236 | no call queues more batches than a wave has room for |
| GpuWaves.EveryRun | core/src/gpu/decode.c:261-1257 | over every run of calls all pending batches are on the recorded stream, over staging not reset and scratch not replaced since, at most five to a wave, and batches retire in the order they were queued, each once |
| GpuWaves.FailuresReported | core/src/gpu/decode.c:261-1257 | a call that returns success retired no batch whose wait failed |
| GpuWaves.Decoder.Destroy | core/src/gpu/decode.c:299-319 | when the scratch is let go nothing is pending and every batch ever made was retired once |
| GpuPass.EveryInterleaving | core/src/gpu/decode.c:513-657 | under every schedule and whatever fails, no frame is processed twice, none is lost before a failure, and the report is the least of the frames that failed |
| GpuPass.EachFrameOnce | core/src/gpu/decode.c:594-657 | a pass that ends without failing has processed each frame exactly once |
| GpuPass.FailsExactly | core/src/gpu/decode.c:513-657 | where failing depends on the frame alone, whether a pass fails does not depend on the schedule: some frame is bad |
| GpuPass.LeastFailure | core/src/gpu/decode.c:513-521 | a failing pass reports the least of the frames fail_frame was called for |
| GpuReport.ReportsExactly | core/src/gpu/decode.c:513-657 | the frames a pass may report are exactly the first bad ones, as many as there are workers: some schedule that ends reports each of them, and none reports another |
| GpuReport.LeastBadReported | core/src/gpu/decode.c:513-657 | every schedule reports the least bad frame if and only if there is one worker or at most one bad frame |
| GpuReport.LeastBadIs | core/src/gpu/decode.c:513-521 | the least bad frame counted by the bad frames before it is the one with none before it |
| GpuReport.EverySchedule | core/src/gpu/decode.c:594-612 | workers that are not done can take at most 3 actions a frame and 2 a worker, and a schedule that has taken as many has ended |
| GpuReport.Finish | core/src/gpu/decode.c:594-657 | from every state some schedule ends the pass |
| GpuPass.SharedPass.RunPass | core/src/gpu/decode.c:594-657 | a worker that runs alone follows one of the schedules and ends |
| GpuPass.SharedPass.Fail | core/src/gpu/decode.c:513-521 | the first failure or a smaller frame takes the report |
| GpuLayout.LayOut | core/src/gpu/decode.c:863-893 | routes, slots, totals and the charged device output after the loop, or nothing when a total leaves size_t |
| GpuLayout.SlotsDisjoint | core/src/gpu/decode.c:863-893 | slots of different frames on one route are disjoint and inside its total; device totals stay within the 32-bit budget and device slots are aligned |
| GpuLayout.RoutesKept | core/src/gpu/decode.c:863-893 | a frame leaves its route only for the host and only when it would pass the budget |
| GpuCopies.SpanEndExact | core/src/gpu/decode.c:423-434 | the overflow-safe end of a span is the exact end, or SIZE_MAX when that does not fit |
| GpuCopies.ExactCovers | core/src/gpu/decode.c:423-434 | the end is within a limit exactly when every sample of the rectangle is |
| GpuCopies.CopyOkIsInside | core/src/gpu/decode.c:436-458 | when the limits tell a span that leaves size_t from one that does not, the check of a copy passes exactly when its samples are whole and inside frame and target |
| GpuCopies.PastPasses | core/src/gpu/decode.c:423-458 | whenever they do not, the check passes a copy that reaches one byte past the frame or the target |
| GpuCopies.CheckExact | core/src/gpu/decode.c:436-458 | the check is right about every copy of a frame if and only if frame and target are below SIZE_MAX bytes or the other one cannot hold a sample |
| GpuCopies.WholeSamplesTell | core/src/gpu/decode.c:811-822 | with frames and target cut to whole samples, as the caller has them, that can only fail for samples of one byte |
| GpuCopies.BatchCheckExact | core/src/gpu/decode.c:436-458 | the check of a batch is right about every list of copies if and only if this holds of every frame |
| GpuCopies.CopiesValid | core/src/gpu/decode.c:436-458 | the answer is whether every copy passes the check, and under that condition whether all of them lie inside |
| GpuCopies.FullMoves | core/src/gpu/decode.c:736-777 | a full copy moves exactly sample k of the frame to sample k after its destination, so writing directly equals running it |
| GpuCopies.AdjacentEnough | core/src/gpu/decode.c:736-777 | after sorting, comparing neighbours decides whether all spans are pairwise disjoint |
| GpuCopies.DirectTargets | core/src/gpu/decode.c:736-777 | yes exactly when every device frame has exactly one copy, full and within the budget, and all destinations are pairwise disjoint; then each frame's destination |
| GpuCopies.NarrowExact | core/src/gpu/decode.c:694-721 | narrowing the fields of a piece that fits to 32 bits loses nothing |
| GpuCopies.AddPlaceCopies | core/src/gpu/decode.c:694-781 | piece_count pieces of at most 262140 rows that together move exactly the copy's samples; failure exactly when a piece would address a sample past 32 bits |
| GpuPlaces.SetBases | core/src/gpu/decode.c:988-1030 | every frame's base in the memory it is read from, and the totals; the PivCo frames are moved behind the aligned PFOR output at 1099-1102 |
| GpuPlaces.FrameInside | core/src/gpu/decode.c:988-1102 | every frame lies inside its host staging, fallback or scratch memory, which is within size_t |
| GpuPlaces.FramesApart | core/src/gpu/decode.c:988-1102 | frames read from the same memory do not overlap, PFOR and PivCo output in one scratch included |
| GpuPlaces.CheckedPlaceable | core/src/gpu/decode.c:1135-1147 | a copy that passed the check, read from the base of its frame, is one that cutting into pieces is right about: no offset of it leaves size_t and every sample is whole |

## Left out

- OpenZL graphs, frames, sessions, codec bindings and registries, frame capture: plumbing
  around a library that is not part of this model; a captured frame is an input.
- The kernels that encode and decode PivCo blocks on the host, with symbolToRank, which
  only the encoder reads, and the quantizer kernels; the scalar form of the weight count,
  four histograms added up.
- CUDA and Metal calls, kernels and module loading: a batch is created, enqueued, waited
  for and destroyed, each with any outcome.
- Error texts and error positions, null-pointer checks, and running out of host memory,
  except for the arena, where the host may refuse; array growth in the planners.
- The compiler's popcount and count-trailing-zeros builtins: taken as the number of set
  bits and the lowest set bit; the counts the source writes out itself are modelled.
- Horizontal and vertical delta, deinterleave, average and dominant value: easier than
  what is here.
- The recipe parser, the fits and the domain checks of the lossy stage.
- GuardBound.RoundedTells: that the widened double is no smaller than the exact radius is
  a condition; how far the arithmetic behind it rounds is not modelled.
- GuardRadius.RadiusSound: over the reals; the rounding of the double arithmetic, which the
  encoder widens the radius for, is not modelled.
- NoDataRestore.SideKept: for floats the distance test is a given predicate, so the
  statement is about the order of the values, not about a distance in double arithmetic.
- StagingArena.GpuArena.Alloc: the host grants aligned memory clear of the chunks held, as
  page-locked allocations are; what it grants otherwise is free.
- GpuWaves.Decoder.DecodeEx: the host stage between the checks and the queue is its
  outcome, and that planned device work has bytes is a condition on it; the Metal backend
  differs only in never overlapping.
- GpuPass.EveryInterleaving: each shared access is one atomic step in one order; weaker
  memory orders are not modelled.
- Python and R bindings, wasm, benchmarks, fuzz drivers and build tools.
