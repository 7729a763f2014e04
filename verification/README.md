# DALI kernels and pipeline construction, verified

A Dafny model of the parts of DALI that are hardest to get right by reading: index arithmetic of the
slice kernels, the graph rewriting done while a pipeline is constructed, scratch memory, block tiling,
and two small parsers and generators. `dafny verify dfyconfig.toml` checks the whole project.

## What is proved

**Slicing.** `SliceArgs`, `SliceCpu`, `SliceGpu` and `SliceLaws` model the
slice/flip/normalize/permute/pad kernels for any number of dimensions. `Sliced` says coordinate by
coordinate what an output must hold. The compiled form - one base offset and signed, permuted
strides - reaches exactly that element; the recursive CPU loop nest writes that output, each cell
once, and reads only inside the input; the GPU form, with collapsed inner dimensions, division by
output strides and a fused multiply-add, computes the same for any order of threads; a transposition
with flips is undone by the inverse one. A whole batch through the GPU kernel, from Setup to the
launch, is in `SliceGpuRun`: each output is `Sliced` with the normalization vectors of the first
sample. `NormReadsExactly` says when the device stays inside those vectors, and
`SliceGpuAgreement` when a sample gets what the CPU kernel would give it. Setup's block count is a
single-precision computation, and `CountsRight` says for every size when it is right.

**Pipelines.** `PipelineState` gives the steps of pipeline construction as functions on values,
`PipelineObject` the same as objects updated in place and proved against the steps.
Which calls are accepted, what each edge is and which operators a run leaves are said in terms of the
calls alone (`PipelineAcceptance`).
Over every accepted sequence of calls, whatever the edges are called, the edge table describes
exactly which tensors exist and the operator list is a valid graph exactly under a condition on the
calls (`PipelineInvariant`), and the id table says which operators share an id (`PipelineIds`). The
inserted copies, renamed inputs and split decoders change no value, exactly when every edge that
stands in for one born contiguous has the same value (`PipelineMeaning`). Build's output copies keep
that (`PipelineBuild`). `PipelineLimits` puts the conditions together and shows runs outside them:
two that are refused, and one that is built and reads another edge than the one it names. Serializing
and rebuilding gives the same pipeline exactly when no decoder was split and no external source was
added by hand (`PipelineReplay`).

**Scratch memory.** `MachineWord` turns the mask expressions into arithmetic. What the estimator
predicts suffices for the bump allocator, through the growing buffers and the kernel manager, also when
other threads raise the shared maximum, exactly when the requests use no more than is estimated
(`Scratch`, `ScratchGrowth`). Growth is amortised. The lock-free maximum is a state machine over all
interleavings (`AtomicMax`). Packed copies read back unchanged, and their returned pointers are right
exactly when all collections but the last two are empty (`ScratchCopy`). The staged arrays of the GPU
kernel form one image that one copy moves (`GpuStaging`).

**Tiling and indices.** `TensorIndex` and `Permutation` hold the row-major arithmetic that all of the
above use. `BlockTiling` shows that the blocks made for a batch, and those of a uniform grid, partition
every sample.

**Headers and crops.** `PnmHeader` gives the scanner of PNM headers in closed form and proves the
header round trip, `PnmComments` where a comment is read past as intended, `RandomCrop` that every
generated window is inside the image.

## Where the code and its comments differ

- `dali/kernels/kernel_req.h:56-65` promises the size of a structure with all objects; an empty request
  is padded by the allocator and not by the estimator (`ScratchGrowth.EmptyRequestOverruns`).
- `dali/kernels/scratch_copy_impl.h:62-72` adds absolute offsets up (`ScratchCopy.PtrsAccumulate`).
- `dali/image/pnm.cc:45-47` says that comments can stand in the middle of tokens and that their newline
  is part of them; the code leaves a comment at its first whitespace and counts that whitespace
  (`PnmComments.CommentRead`, `PnmComments.CommentLineMisread`).
- `dali/pipeline/pipeline.cc:377-378` leaves the serialization of split decoders open; they cannot be
  rebuilt (`PipelineReplay.SplitDecoderNotRebuilt`).

The model follows the code in each case.

## Model

| member | source | states |
|---|---|---|
| `TensorIndex.GetStrides` | dali/kernels/slice/slice_kernel_utils.h:33-41 | Row-major strides: stride d is the volume of everything inside dimension d |
| `TensorIndex.DotIsFlat` | dali/kernels/slice/slice_kernel_utils.h:33-41 | Walking by those strides is the row-major flat index |
| `TensorIndex.FlatInVolume` | dali/kernels/tensor_view.h:54-81 | In-bounds coordinates have a flat index in [0, volume) |
| `TensorIndex.FlatInjective` | dali/kernels/tensor_view.h:54-81 | Two in-bounds coordinates with the same flat index are equal |
| `TensorIndex.Unflat` | dali/kernels/tensor_view.h:54-81 | Every index in [0, volume) is the flat index of an in-bounds coordinate |
| `TensorIndex.FlatUnflat` | dali/kernels/tensor_view.h:54-81 | ... and of only one: the flat index is a bijection |
| `TensorIndex.CalcOffset` | dali/kernels/tensor_view.h:54-81 | The offset loop computes the flat index, with missing trailing coordinates counted as zero |
| `TensorIndex.PrefixIsContiguousBlock` | dali/kernels/tensor_view.h:583-598 | A coordinate prefix denotes a contiguous block that starts at its own offset, and iterated subtensor points there |
| `TensorIndex.CalculatePointers` | dali/kernels/tensor_shape.h:880-891 | Every sample of a list starts where the samples before it end |
| `TensorIndex.SamplesTile` | dali/kernels/tensor_shape.h:532-538 | A position is in [origin, origin + num_elements) exactly when it is in some sample, and never in two |
| `Permutation.Permute` | dali/kernels/slice/slice_flip_normalize_permute_common.h:67-74 | Entry d of the result is entry p[d] of the container |
| `Permutation.InversePermutation` | dali/kernels/slice/slice_flip_normalize_permute_common.h:76-84 | The result is a two-sided inverse of the permutation |
| `Permutation.PermutedBack` | dali/kernels/slice/slice_flip_normalize_permute_common.h:67-84 | Permuting by p and then by its inverse restores the sequence |
| `Permutation.VolumePermuted` | dali/kernels/slice/slice_flip_normalize_permute_common.h:67-74 | The volume does not depend on the order of the axes |
| `Permutation.DotPermuted` | dali/kernels/slice/slice_flip_normalize_permute_common.h:86-130 | Permuting strides and coordinates together reaches the same element |
| `SliceArgs.ShowsUnique` | dali/kernels/slice/slice_flip_normalize_permute_common.h:86-130 | The coordinate relation of flip, anchor and permutation gives each output coordinate one source |
| `SliceArgs.SourceInBounds` | dali/kernels/slice/slice_kernel_utils.h:43-56 | For a window inside the input, every output coordinate shows an element of the input |
| `SliceArgs.SignedWalk` | dali/kernels/slice/slice_flip_normalize_permute_common.h:102-111 | Moving the flips into the start position and the sign of each stride is exact |
| `SliceArgs.FoldFlips` | dali/kernels/slice/slice_flip_normalize_permute_common.h:102-111 | The loop that folds anchors and flips leaves exactly the signed strides and the start offset |
| `SliceArgs.NormalizationAxis` | dali/kernels/slice/slice_flip_normalize_permute_common.h:115-128 | With several means the axis is the output axis that shows the requested dimension, otherwise none; refused exactly when the vectors do not fit the output |
| `SliceArgs.ProcessArgs` | dali/kernels/slice/slice_flip_normalize_permute_common.h:86-130 | Succeeds exactly when the normalization vectors fit; base offset and strides then reach, for every output coordinate, the element that the relation gives |
| `SliceCpu.ZeroPad` | dali/kernels/slice/slice_flip_normalize_permute_cpu.h:60-85 | Clears exactly the cells of the padded slices, each once and in order |
| `SliceCpu.ZeroSlice` | dali/kernels/slice/slice_flip_normalize_permute_cpu.h:145-150 | One turn of the padding loop clears exactly one slice |
| `SliceCpu.CopySlice` | dali/kernels/slice/slice_flip_normalize_permute_cpu.h:113-143 | One turn of the copying loop writes the nested block of the dimensions inside, reading only inside the input |
| `SliceCpu.CopyRows` | dali/kernels/slice/slice_flip_normalize_permute_cpu.h:113-143 | Copies the window rows of one dimension and leaves the position where the padding starts |
| `SliceCpu.Impl` | dali/kernels/slice/slice_flip_normalize_permute_cpu.h:87-151 | The recursive loop nest writes the nested block of its dimensions and nothing else, each cell once and in order |
| `SliceCpu.BlockCell` | dali/kernels/slice/slice_flip_normalize_permute_cpu.h:87-151 | The nested block is the coordinate formula: window cells hold the (normalized) source element, the others zero |
| `SliceCpu.BlockIsSliced` | dali/kernels/slice/slice_flip_normalize_permute_cpu.h:153-184 | Run on processed arguments, the nested block is the coordinate-wise definition Sliced |
| `SliceCpu.Setup` | dali/kernels/slice/slice_flip_normalize_permute_cpu.h:193-202 | Refuses exactly the windows that leave the input or do not fit the padded output, and gives the permuted padded shape |
| `SliceCpu.Run` | dali/kernels/slice/slice_flip_normalize_permute_cpu.h:204-213 | Output equals Sliced everywhere, every output cell is written exactly once, every read is inside the input; on refusal the output is untouched |
| `SliceLaws.SlicedMeans` | dali/kernels/slice/slice_flip_normalize_permute_cpu.h:87-184 | What a run leaves at an output coordinate, axis by axis: zero outside the window, inside it the converted input element at the anchor plus the distance from the near or, if flipped, the far end, normalized with the one mean or the mean of its own index |
| `SliceLaws.TransposeAndBack` | dali/kernels/slice/slice_flip_normalize_permute_cpu.h:87-151 | A transposition with flips followed by the inverse permutation and permuted flips restores the input, in any number of dimensions |
| `SliceLaws.SliceKernelImpl` | dali/kernels/slice/slice_cpu.h:31-57 | The unit-stride loop nest of the plain slice kernel writes the same block |
| `SliceLaws.SliceKernel` | dali/kernels/slice/slice_cpu.h:61-73 | The plain slice kernel computes what the general kernel computes on a plain window, with its own conversion, which does not round, in place of ClampPolicy |
| `SliceLaws.PlainMatchesGeneral` | dali/kernels/slice/slice_cpu.h:31-57 | Both kernels agree on a window iff the two conversions agree on every element of the window |
| `SliceGpu.StageNormalization` | dali/kernels/slice/slice_flip_normalize_permute_gpu.h:101-104 | Stages -mean*invStddev and invStddev for every channel |
| `SliceGpu.FusedNormalization` | dali/kernels/slice/slice_flip_normalize_permute_pad_cuda_impl.cuh:107-113 | One fused multiply-add with the staged values is the CPU normalization (exact arithmetic) |
| `SliceGpu.CollapseInner` | dali/kernels/slice/slice_flip_normalize_permute_pad_cuda_impl.cuh:66-74 | Innermost dimensions are dropped while, and as long as, they are unpadded, equally strided and not normalized |
| `SliceGpu.CollapsedRest` | dali/kernels/slice/slice_flip_normalize_permute_pad_cuda_impl.cuh:66-74 | On collapsed dimensions input and output positions advance together |
| `SliceGpu.PeelCoordinate` | dali/kernels/slice/slice_flip_normalize_permute_pad_cuda_impl.cuh:84-101 | Division by the output stride yields the next coordinate and the remainder the rest |
| `SliceGpu.DeviceCell` | dali/kernels/slice/slice_flip_normalize_permute_pad_cuda_impl.cuh:76-122 | The device function computes the coordinate formula for one output element |
| `SliceGpu.Thread` | dali/kernels/slice/slice_flip_normalize_permute_pad_cuda_impl.cuh:125-150 | A thread writes exactly its own elements of its block, each with the coordinate formula |
| `SliceGpu.Launch` | dali/kernels/slice/slice_flip_normalize_permute_pad_cuda_impl.cuh:125-150 | In whatever order the threads of all blocks run, every element of every output ends up with the coordinate formula of its sample, each sample with its own padding value |
| `SliceGpu.CutSample` | dali/kernels/slice/slice_flip_normalize_permute_gpu.h:126-136 | The inner descriptor loop cuts one sample into consecutive pieces of at most the block size |
| `SliceGpu.MakeBlockDescs` | dali/kernels/slice/slice_flip_normalize_permute_gpu.h:124-136 | The descriptor loops write exactly the counted number of entries, sample after sample |
| `SliceGpu.PiecesTile` | dali/kernels/slice/slice_flip_normalize_permute_gpu.h:124-136 | Every element of every sample is in exactly one piece; pieces are non-empty, bounded and inside their sample |
| `SliceGpu.ToFloatNearest` | dali/kernels/slice/slice_flip_normalize_permute_gpu.h:58-63 | The conversion to float: a multiple of a power of two, the nearest one, the even one when halfway |
| `SliceGpu.CountedBlocksExact` | dali/kernels/slice/slice_flip_normalize_permute_gpu.h:58-63 | For samples of every size the single-precision count of blocks is right exactly when, with floats closer than a block, the last partial block exceeds half their spacing, and with floats further apart, the size is a float or rounds up from less than a block below |
| `SliceGpu.SmallSamplesCounted` | dali/kernels/slice/slice_flip_normalize_permute_gpu.h:58-63 | Up to 2^24 elements the count is always right |
| `SliceGpu.LargeSampleMiscounted` | dali/kernels/slice/slice_flip_normalize_permute_gpu.h:58-63 | A sample of 2^24 + 1 elements is counted one block short |
| `SliceGpu.CountBlocks` | dali/kernels/slice/slice_flip_normalize_permute_gpu.h:58-63 | Setup never counts more descriptors than Run writes, and as many iff every sample is counted right; Run's volumes are those of the permuted shapes |
| `SliceGpuRun.NormReadsExactly` | dali/kernels/slice/slice_flip_normalize_permute_gpu.h:101-123 | Of a sample that Run accepts, the device reads only inside the input and the staged vectors iff it has no more means than the first sample, or at most a scalar is staged, or its window is empty |
| `SliceGpuRun.SimilarCell` | dali/kernels/slice/slice_flip_normalize_permute_pad_cuda_impl.cuh:107-113 | The kernel with the staged vectors holds the same elements as one with the sample's share of them |
| `SliceGpuRun.Setup` | dali/kernels/slice/slice_flip_normalize_permute_gpu.h:42-78 | Refuses exactly the batches whose first vectors differ in length or with a window that leaves its input or does not fit; otherwise the block count is right iff every sample is counted right |
| `SliceGpuRun.DescribeSamples` | dali/kernels/slice/slice_flip_normalize_permute_gpu.h:105-122 | The argument loop refuses exactly the batches with vectors that do not fit their sample or with different normalization axes, and else describes every sample with the vectors of the first |
| `SliceGpuRun.Run` | dali/kernels/slice/slice_flip_normalize_permute_gpu.h:80-174 | The whole run: on every batch that is not refused and whose samples need no more means than the first has, each output is Sliced with the vectors of the first sample and its own padding value; on refusal every output is untouched |
| `SliceGpuAgreement.AgreeWhen` | dali/kernels/slice/slice_flip_normalize_permute_gpu.h:86-104 | For all element types, conversions and inputs the device result of a sample is the CPU kernel's when the coefficients coincide, unless its window is empty, and the padding is zero, unless nothing is padded |
| `SliceGpuAgreement.RunBoth` | dali/kernels/slice/slice_flip_normalize_permute_gpu.h:80-174 | Running the GPU kernel on a batch and the CPU kernel on one of its samples leaves the same output under that condition |
| `SliceGpuAgreement.AgreesExactly` | dali/kernels/slice/slice_flip_normalize_permute_gpu.h:86-104 | From float to float the two kernels agree for every conversion and input iff that condition on the arguments of the sample and of the first one holds |
| `SliceGpuAgreement.LongerRowOverruns` | dali/kernels/slice/slice_flip_normalize_permute_gpu.h:86-123 | A row with m means followed by a longer row with as many means as elements: Run accepts both and the device reads past the m staged coefficients |
| `GpuStaging.SetupEstimate` | dali/kernels/slice/slice_flip_normalize_permute_gpu.h:45-67 | Setup's estimate is exactly the number of bytes of the one copy, in host and device memory |
| `GpuStaging.RunLayout` | dali/kernels/slice/slice_flip_normalize_permute_gpu.h:91-99 | The separate allocations of Run follow each other without gaps |
| `GpuStaging.SetupSufficesForRun` | dali/kernels/slice/slice_flip_normalize_permute_gpu.h:138-152 | For every kind of memory Run uses exactly what Setup estimated, also for empty batches |
| `GpuStaging.OneCopyMovesAll` | dali/kernels/slice/slice_flip_normalize_permute_gpu.h:154-162 | One copy of total_bytes reproduces every staged array at the block allocated for it on the device |
| `PipelineState.StagesDoNotSplit` | dali/pipeline/pipeline.cc:212-223 | Neither stage of a split decoder is split again |
| `PipelineInvariant.SetupInputsKeeps` | dali/pipeline/pipeline.cc:227-278 | Setting up the inputs of an operator keeps the edge table exact and adds only copies, whose reads are all met: one of each edge read on the cpu by a gpu operator and not born contiguous |
| `PipelineInvariant.StepKeeps` | dali/pipeline/pipeline.cc:191-335 | Every accepted call keeps the edge table exact, adds exactly its own edges and copies to it, and leaves the reads met iff each cpu read of an edge born contiguous finds an edge of the contiguous name |
| `PipelineInvariant.AcceptedRuns` | dali/pipeline/pipeline.cc:191-335 | For every accepted run, whatever the names: the edge table says exactly which tensors exist, and the operator list is a valid graph iff no copied edge shares the name of its copy with a cpu edge and every cpu read of an edge born contiguous finds an earlier edge, or an external input, of the contiguous name |
| `PipelineInvariant.UnshadowedRuns` | dali/pipeline/pipeline.cc:191-335 | When no edge is named like the copy of another, the graph is valid iff no gpu operator reads the cpu side of an edge born contiguous |
| `PipelineInvariant.SplitRecords` | dali/pipeline/pipeline.cc:379-380 | A split decoder is recorded for serialization three times: itself and both stages |
| `PipelineIds.PositionsSound` | dali/pipeline/pipeline.cc:383-399 | The positions of an id are those of the operators that carry it, all of them |
| `PipelineIds.CopyId` | dali/pipeline/pipeline.cc:753-763 | Inserting a copy never collides with an existing id, so it is never refused |
| `PipelineIds.StepIds` | dali/pipeline/pipeline.cc:383-399 | Every accepted call keeps the id table exact |
| `PipelineIds.RunIds` | dali/pipeline/pipeline.cc:383-399 | Over every run the id table lists exactly the operators of each id in order, groups have one operator name, copies have distinct negative ids |
| `PipelineAcceptance.RunTells` | dali/pipeline/pipeline.cc:296-330 | After every accepted run the edge table tells of each edge the calls declared, and of no other, where it was declared, whether a support operator made it and whether it is on the gpu |
| `PipelineAcceptance.RunLowers` | dali/pipeline/pipeline.cc:191-399 | Besides inserted copies, which are spelled out, the operator list of a run is exactly the user's operators in order, with decoders split and cpu inputs of gpu operators renamed; the next free logical id follows from the calls |
| `PipelineAcceptance.AcceptsExactly` | dali/pipeline/pipeline.cc:191-335 | After every accepted run a call is accepted iff, by the earlier calls alone, its inputs are readable on its device, its argument inputs were made by support operators, its outputs are new and allowed on the device, and its ids are free or shared by groupable instances; also for split decoders |
| `PipelineAcceptance.RunAccepted` | dali/pipeline/pipeline.cc:191-335 | A whole run is accepted iff each call may follow the ones before it |
| `PipelineAcceptance.ArgumentsFromSupport` | dali/pipeline/pipeline.cc:280-294 | In every accepted run each argument input names a cpu output of an earlier support operator |
| `PipelineAcceptance.SplitsExactly` | dali/pipeline/pipeline.cc:207-223 | A decoder is split iff it is mixed, its name starts with one of the two prefixes and holds neither stage suffix, and it asks for it |
| `PipelineAcceptance.SplitStages` | dali/pipeline/pipeline.cc:341-373 | The two stages of a split decoder, for every suffix of its name |
| `PipelineMeaning.LawsSatisfiable` | dali/pipeline/pipeline.cc:341-381 | The laws assumed of copies and split decoders have a model |
| `PipelineMeaning.CopyMeans` | dali/pipeline/pipeline.cc:591-621 | An inserted copy changes no value and its result has the value of the edge |
| `PipelineMeaning.SplitMeans` | dali/pipeline/pipeline.cc:341-381 | Splitting a one-output decoder in two stages keeps the value of every edge of the user |
| `PipelineMeaning.StepMeans` | dali/pipeline/pipeline.cc:191-335 | Every accepted call whose operator is fed the values wired to it keeps the meaning of all edges and gives the new ones the user's value |
| `PipelineMeaning.MeaningPreserved` | dali/pipeline/pipeline.cc:191-335 | In the graph of every accepted run that can be instantiated, every operator reads the values the user wired to it iff, for each cpu read of an edge born contiguous, the edge of the contiguous name has the same value; then every version of every user edge - cpu, gpu, contiguous - holds the value the user's calls give that edge |
| `PipelineMeaning.GoodRunAgrees` | dali/pipeline/pipeline.cc:270-277 | That condition holds when no gpu operator reads the cpu side of an edge born contiguous |
| `PipelineBuild.PlanExactly` | dali/pipeline/pipeline.cc:466-512 | Outputs can be planned iff each exists where it is wanted, or on the cpu |
| `PipelineBuild.PlanPlaced` | dali/pipeline/pipeline.cc:466-512 | Copies for requested outputs keep a valid graph valid iff no output that needs a copy is requested twice and no copy on the cpu would get the name of a cpu edge |
| `PipelineBuild.PlanOuts` | dali/pipeline/pipeline.cc:466-512 | The tensor returned for a cpu request that is not contiguous yet is its contiguous copy, for any other request the request itself |
| `PipelineBuild.PlanIds` | dali/pipeline/pipeline.cc:476-507 | Copies are made exactly for the outputs that do not exist yet, to the gpu with logical ids and on the cpu with internal ids |
| `PipelineBuild.OutExists` | dali/pipeline/pipeline.cc:466-512 | Every tensor handed to the executor exists in the graph |
| `PipelineBuild.PlanMeans` | dali/pipeline/pipeline.cc:466-512 | Each tensor handed to the executor holds the value of the version of the edge that it was taken from |
| `PipelineBuild.OutputsPreserved` | dali/pipeline/pipeline.cc:439-526 | If Build's graph is accepted and the operators read what the user wired to them, every requested output holds the user's value of its edge |
| `PipelineLimits.BuildAccepts` | dali/pipeline/pipeline.cc:439-526 | For every accepted run Build's graph is accepted iff no copied edge shares the name of its copy with a cpu edge, every cpu read of an edge born contiguous finds an edge of that name, no output needing a copy is requested twice, and no copy of an output would get the name of a cpu edge |
| `PipelineLimits.UnshadowedBuild` | dali/pipeline/pipeline.cc:439-526 | When no edge is named like the copy of another: iff no gpu operator reads the cpu side of an edge born contiguous and no output needing a copy is requested twice |
| `PipelineLimits.Compile` | dali/pipeline/pipeline.cc:439-526 | Constructing and building succeeds iff each call may follow the ones before it, all outputs exist where they are wanted or on the cpu, and the conditions of BuildAccepts hold; then every tensor has one producer |
| `PipelineLimits.SupportReadRefused` | dali/pipeline/pipeline.cc:270-277 | Concrete runs: a gpu operator that reads a support edge on the cpu is accepted and leaves a tensor without a producer |
| `PipelineLimits.SupportReadSubstituted` | dali/pipeline/pipeline.cc:270-277 | With an external input of the contiguous name that run is built, and the operator silently computes with the external input; the result is the user's iff the two values are equal |
| `PipelineLimits.ShadowedCopyRefused` | dali/pipeline/pipeline.cc:591-609 | Concrete runs: an edge named like the contiguous copy of another makes the graph invalid |
| `PipelineLimits.RepeatedOutputRefused` | dali/pipeline/pipeline.cc:495-507 | Concrete request: the same gpu output asked for twice is planned and refused by the graph |
| `PipelineReplay.AheadPlain` | dali/pipeline/pipeline.cc:107-123 | Declaring external inputs early commutes with adding an operator |
| `PipelineReplay.SerializeRoundTrip` | dali/pipeline/pipeline.cc:643-724 | A serialized run can be rebuilt iff no decoder was split and no operator is an explicit ExternalSource; the rebuilt pipeline has the same edges, ids and outputs, its operators are equal but for the three arguments that are set on loading, it serializes to the same message, and its next free logical id is the one after declaring all external inputs first |
| `PipelineReplay.SerializeIs` | dali/pipeline/pipeline.cc:643-724 | A message holds every operator as it was added, without exactly batch_size, num_threads and bytes_per_sample_hint, and a blank for an ExternalSource |
| `PipelineReplay.SplitDecoderNotRebuilt` | dali/pipeline/pipeline.cc:341-381 | A concrete accepted two-call pipeline that cannot be rebuilt from its own message |
| `PipelineObject.OpGraph.CheckDevices` | dali/pipeline/graph/graph_descr.cc:113-140 | Accepted iff the device is known, all but gpu operators read on the cpu, and cpu operators write there |
| `PipelineObject.OpGraph.CheckSources` | dali/pipeline/graph/graph_descr.cc:148-153 | Every regular and argument input has a producer, both ways |
| `PipelineObject.OpGraph.PlaceTensors` | dali/pipeline/graph/graph_descr.cc:181-204 | Outputs are recorded iff each is produced for the first time |
| `PipelineObject.OpGraph.AddOp` | dali/pipeline/graph/graph_descr.cc:109-205 | An operator is accepted iff its devices are allowed, all it reads exists and all it writes is new; known producers never change |
| `PipelineObject.Pipeline.constructor` | dali/pipeline/pipeline.h:87-96 | A new pipeline is in the initial state and its graph is empty |
| `PipelineObject.Pipeline.AddToOpSpecs` | dali/pipeline/pipeline.cc:383-399 | Refuses a group of different or ungroupable operators, else appends the operator and its position |
| `PipelineObject.Pipeline.InsertCopy` | dali/pipeline/pipeline.cc:591-621 | Appends a copy with the next internal id |
| `PipelineObject.Pipeline.SetupInput` | dali/pipeline/pipeline.cc:233-277 | One regular input: the device table, the copy it may need and the tensor that is really read |
| `PipelineObject.Pipeline.SetupInputs` | dali/pipeline/pipeline.cc:227-278 | The loop over the regular inputs does what setting them up one after the other does |
| `PipelineObject.Pipeline.CheckArgInputs` | dali/pipeline/pipeline.cc:280-294 | Accepted iff every argument input is an edge with a cpu version made by a support operator |
| `PipelineObject.Pipeline.RecordOutputs` | dali/pipeline/pipeline.cc:296-330 | The loop over the outputs records each new edge with its flags, or refuses |
| `PipelineObject.Pipeline.AddOperator` | dali/pipeline/pipeline.cc:191-335 | A call succeeds iff the pipeline is not built and, for every run that leads to its state, the call may follow that run; it then reaches the state of the step, and earlier operators always stay |
| `PipelineObject.Pipeline.AddSplitHybridDecoder` | dali/pipeline/pipeline.cc:341-381 | The split adds the CPU stage and then the mixed stage with a fresh id |
| `PipelineObject.Pipeline.AddExternalInput` | dali/pipeline/pipeline.h:109-135 | Succeeds iff the pipeline is not built and the name is new; the graph's own check never fires |
| `PipelineObject.Pipeline.Build` | dali/pipeline/pipeline.cc:439-526 | Succeeds iff not built, outputs non-empty, each existing where it is wanted or on the cpu, and the graph with its copies valid; then every tensor has one producer and each returned tensor is the request or its contiguous copy. The output names are stored in every case |
| `PipelineObject.Pipeline.PlaceOps` | dali/pipeline/pipeline.cc:450-464 | Creating the graph from the operator list succeeds iff the list is a valid graph |
| `PipelineObject.Pipeline.PlaceOutputs` | dali/pipeline/pipeline.cc:466-512 | The output loop succeeds iff each output exists where it is wanted or on the cpu and the graph with the copies is valid, and returns the requests or their contiguous copies |
| `PipelineObject.Pipeline.SerializeToProtobuf` | dali/pipeline/pipeline.cc:682-724 | The message holds the external inputs, the recorded operators without exactly the three arguments that are set on loading, and the outputs |
| `PipelineObject.Construct` | dali/pipeline/pipeline.cc:191-335 | A fresh object accepts a list of calls iff each may follow the ones before it, and ends in the state of the run |
| `MachineWord.MaskIsMod` | include/dali/core/util.h:76-80 | Masking with 2^k - 1 is the remainder modulo 2^k |
| `MachineWord.PaddingAligns` | include/dali/core/util.h:76-80 | v + ((a - 1) & -v) is a multiple of a, less than a above v, for a = 2^k in 64-bit words |
| `MachineWord.AlignUpUnique` | include/dali/core/util.h:76-80 | It is the only such multiple |
| `MachineWord.AlignUpShift` | dali/kernels/scratch.h:90-97 | Aligning from an aligned base pads as much as aligning the offset |
| `Scratch.UsedIsEstimated` | dali/kernels/kernel_req.h:67-73 | The allocator follows the estimate through every prefix iff each empty request falls on an aligned size |
| `Scratch.PositiveCounts` | dali/kernels/kernel_req.h:67-73 | So it does for requests that are never empty |
| `Scratch.EstimatedIsUsed` | dali/kernels/kernel_req.h:67-73 | The estimate is what the non-empty requests alone would use |
| `Scratch.FitsExactly` | dali/kernels/scratch.h:47-62 | No request runs past its area iff each area holds what the requests use in all |
| `Scratch.OffsetFits` | dali/kernels/scratch.h:90-97 | Every block is aligned and ends inside its area |
| `Scratch.OffsetsApart` | dali/kernels/scratch.h:90-97 | Blocks of one kind never overlap |
| `Scratch.ScratchpadEstimator.constructor` | dali/kernels/kernel_req.h:55-76 | A new estimator predicts no bytes |
| `Scratch.ScratchpadEstimator.Add` | dali/kernels/kernel_req.h:67-73 | Adding a request updates the prediction of its kind only |
| `Scratch.PreallocatedScratchpad.Take` | dali/kernels/scratch.h:47-52 | A bump allocation; its assertion is the precondition |
| `Scratch.PreallocatedScratchpad.Alloc` | dali/kernels/scratch.h:90-97 | Returns the aligned position and advances past the block |
| `Scratch.Replay` | dali/kernels/scratch.h:90-97 | In large enough areas replaying any requests never runs over, and all blocks are aligned, inside and disjoint |
| `ScratchGrowth.ReservedFits` | dali/kernels/scratch.h:157-178 | A reserved buffer holds the size, is aligned, never got smaller and ends where its allocation ends |
| `ScratchGrowth.PolicyIs` | dali/kernels/scratch.h:107-122 | A buffer that is too small is replaced by one for the larger of its grown capacity and the size with its margin, in whole bytes |
| `ScratchGrowth.ScratchpadAllocator.constructor` | dali/kernels/scratch.h:205-212 | No memory, growth ratio 2 and margin 0.1 for every kind of memory |
| `ScratchGrowth.ScratchpadAllocator.Reserve` | dali/kernels/scratch.h:157-178 | Replaces one buffer by its reserved form and no other |
| `ScratchGrowth.ScratchpadAllocator.GetScratchpad` | dali/kernels/scratch.h:196-203 | An unused scratchpad over the aligned part of every buffer |
| `ScratchGrowth.KernelManager.constructor` | dali/kernels/kernel_manager.h:266-270 | Zero requirements for every instance and zero maxima |
| `ScratchGrowth.KernelManager.Setup` | dali/kernels/kernel_manager.h:173-181 | Stores the requirements and raises the maxima |
| `ScratchGrowth.KernelManager.ReserveScratchpad` | dali/kernels/kernel_manager.cc:32-43 | Every buffer holds its size afterwards; one that was large enough is untouched, one that was not is reserved for the shared maximum; maxima only grow, also under interference |
| `ScratchGrowth.SetupThenRun` | dali/kernels/kernel_manager.h:212-225 | End to end: what Setup predicts suffices for Run, whatever was reserved before, for every request list that uses no more than is estimated |
| `ScratchGrowth.EstimateExact` | dali/kernels/kernel_req.h:67-73 | Replaying fits for every earlier state of the buffers and every address iff the requests use no more than is estimated |
| `ScratchGrowth.ReserveAll` | dali/kernels/scratch.h:157-178 | A new allocator after any reservations of one kind holds the buffer that the growth laws are about, and fresh ones of the other kinds |
| `ScratchGrowth.Doubles` | dali/kernels/scratch.h:157-178 | A reallocation more than doubles the capacity, to at most twice the size plus 64 |
| `ScratchGrowth.Amortised` | dali/kernels/scratch.h:157-178 | Capacity never shrinks, k reallocations leave at least 2^k - 1 bytes, all discarded memory is less than what is held, capacity is at most 2M + 64 |
| `ScratchGrowth.FewReallocations` | dali/kernels/scratch.h:157-178 | The number of reallocations is logarithmic in the largest request |
| `ScratchGrowth.EmptyRequestOverruns` | dali/kernels/kernel_req.h:67-73 | A concrete empty request that is padded by the allocator and not by the estimator, and overruns the buffer reserved at an address aligned to 16 |
| `ScratchGrowth.RoundedReserveFits` | dali/kernels/scratch.h:164-177 | With single-precision products that may come out low, a margin of 2^-21 or more still gives a buffer that holds the size at an aligned address |
| `AtomicMax.Atomic.CompareExchange` | dali/kernels/kernel_manager.h:36-37 | Exchanges iff the value is the expected one and reports the value it saw |
| `AtomicMax.StoreIfGreater` | dali/kernels/kernel_manager.h:29-39 | One call under interference returns at least its argument, the value never decreases and is one that someone stored |
| `AtomicMax.StepKeeps` | dali/kernels/kernel_manager.h:29-39 | Every step of every thread keeps the invariant, and raises the value exactly on a successful exchange |
| `AtomicMax.NeverDecreases` | dali/kernels/kernel_manager.h:29-39 | Along every schedule the value never decreases |
| `AtomicMax.ReturnedMeans` | dali/kernels/kernel_manager.h:29-39 | From the moment a call returns the value is at least its argument and its result |
| `AtomicMax.FinallyMaximum` | dali/kernels/kernel_manager.h:173-181 | When all calls have returned the value is the maximum of the initial value and all arguments |
| `AtomicMax.StepsCost` | dali/kernels/kernel_manager.h:29-39 | Every step a thread can take uses up potential |
| `AtomicMax.RunsEnd` | dali/kernels/kernel_manager.h:29-39 | Every schedule of n calls ends within n*n + n steps |
| `AtomicMax.NoDeadlock` | dali/kernels/kernel_manager.h:29-39 | A run that cannot go on is one in which all calls have returned |
| `AtomicMax.FailuresCharged` | dali/kernels/kernel_manager.h:32-38 | Each failed exchange of a thread is paid for by a strict increase made by another thread |
| `ScratchCopy.GetCollectionOffsets` | dali/kernels/scratch_copy_impl.h:43-60 | The recursion stores the offsets; the entries in front and behind stay |
| `ScratchCopy.OffsetsApart` | dali/kernels/scratch_copy_impl.h:43-60 | Offsets are aligned per collection, ordered and disjoint up to the total |
| `ScratchCopy.OffsetsTight` | dali/kernels/scratch_copy_impl.h:43-60 | Each offset is the next aligned position behind the collection before it, and the total ends the last one |
| `ScratchCopy.CopyToBuffer` | dali/kernels/scratch_copy_impl.h:30-41 | Reading back at each offset gives the collection; every other byte, alignment gaps included, stays |
| `ScratchCopy.PtrsAccumulate` | dali/kernels/scratch_copy_impl.h:62-72 | Pointer i is the base plus the sum of the offsets 1 to i |
| `ScratchCopy.PointersCorrect` | dali/kernels/scratch_copy_impl.h:62-72 | All pointers are base + offset iff all collections but the last two are empty |
| `ScratchCopy.ThirdPointerOff` | dali/kernels/scratch_copy_impl.h:62-72 | For three byte-aligned collections the third pointer is off by the length of the first |
| `ScratchCopy.ToContiguousHostMem` | dali/kernels/scratch_copy_impl.h:93-111 | All collections can be read back at their aligned addresses in the allocated block; each returned pointer is the block plus the sum of the offsets before it, which is that address for all of them iff all but the last two are empty |
| `BlockTiling.Shape2Vec` | dali/kernels/common/block_setup.h:33-40 | The reversed shape |
| `BlockTiling.OutputShape` | dali/kernels/common/block_setup.h:91-107 | Without its channel dimension the result is the requested size, and the channels are those of the input |
| `BlockTiling.DivCeilBounds` | include/dali/core/util.h:83-101 | The ceiling division covers the total and one less does not |
| `BlockTiling.TilesPartition` | dali/kernels/common/block_setup.h:188-202 | Every point is in exactly one of the blocks made from a position on, if it lies there, and else in none |
| `BlockTiling.TilesWellCut` | dali/kernels/common/block_setup.h:188-202 | Every block is non-empty, inside the sample and no larger than the block size |
| `BlockTiling.TilesCount` | dali/kernels/common/block_setup.h:188-202 | A sample contributes the product of the per-axis ceilings |
| `BlockTiling.AllTilesPartition` | dali/kernels/common/block_setup.h:244-250 | Over a batch every point of every sample is in exactly one block of that sample |
| `BlockTiling.BatchPartition` | dali/kernels/common/block_setup.h:210-250 | The same with the block sizes that the setup chooses, which are positive wherever there is something to cut |
| `BlockTiling.EvenBlockFits` | dali/kernels/common/block_setup.h:259-268 | The even block is a multiple of the CUDA block dimension, less than one such dimension above the estimate, needs no more blocks, and is the smallest such multiple of which the estimated number of blocks cover the size |
| `BlockTiling.GridTiles` | dali/kernels/common/block_setup.h:270-274 | Along an axis every point has exactly one grid cell and every cell has a point |
| `BlockTiling.UniformPartition` | dali/kernels/imgproc/warp/warp_uniform_size_impl.cuh:36-41 | For the whole uniform grid: every point of every sample is in the block of exactly one place of the grid, and every block is non-empty, inside its sample and no larger than the block size |
| `BlockTiling.EvenOut` | dali/kernels/common/block_setup.h:259-268 | The loop computes the even block along X and Y |
| `BlockTiling.BlockSetup.constructor` | dali/kernels/common/block_setup.h:74-78 | Default block 256 x 256 and 1 elsewhere, CUDA block 32 x 32, nothing set up |
| `BlockTiling.BlockSetup.SetDefaultBlockSize` | dali/kernels/common/block_setup.h:156-159 | Keeps the element limit equal to the volume of the default |
| `BlockTiling.BlockSetup.MakeBlocksAlong` | dali/kernels/common/block_setup.h:188-202 | The recursive loop appends exactly the tiles |
| `BlockTiling.BlockSetup.MakeBlocks` | dali/kernels/common/block_setup.h:203-208 | Appends the tiles of a sample and sets the grid |
| `BlockTiling.BlockSetup.VariableBlockSize` | dali/kernels/common/block_setup.h:210-226 | Along X and Y the smaller of the size and the default, along Z the volume in units of the element limit, at least 1 and at most the size, further axes 1 |
| `BlockTiling.BlockSetup.UniformBlockSizeOf` | dali/kernels/common/block_setup.h:228-242 | The first estimate per axis |
| `BlockTiling.BlockSetup.VariableSizeSetup` | dali/kernels/common/block_setup.h:244-250 | The blocks are those of the whole batch, in order |
| `BlockTiling.BlockSetup.UniformSizeSetup` | dali/kernels/common/block_setup.h:252-275 | Along X and Y the block is a multiple of the CUDA block close to the estimate, the grid covers the size, has no empty cell and never exceeds the estimated number |
| `BlockTiling.BlockSetup.SetupBlocks` | dali/kernels/common/block_setup.h:80-89 | Chooses the uniform layout iff all shapes are equal and it is not overridden |
| `PnmHeader.PeekDims` | dali/image/pnm.cc:24-69 | The scanner with its loops equals the recursive scan, never reads past the end, and gives three channels for P3 and P6 and one otherwise |
| `PnmHeader.PeekTokens` | dali/image/pnm.cc:24-69 | For every input, without the loop: two numbers, each behind a separator that is a run of whitespace or a comment up to its first whitespace with the run there |
| `PnmHeader.UndefinedExactly` | dali/image/pnm.cc:58-62 | The reading is undefined iff a digit follows the magic number directly or a number that is reached exceeds an int |
| `PnmHeader.PeekChannels` | dali/image/pnm.cc:31-35 | For every input that is read: three channels for P3 and P6, one otherwise |
| `PnmHeader.DecimalValue` | dali/util/image.h:108-110 | Writing a number in decimal and reading it back |
| `PnmHeader.HeaderRead` | dali/image/pnm.cc:24-69 | Every comment-free header with whitespace runs between tokens is read exactly, with three channels for P3 and P6 and one otherwise, iff both dimensions fit an int |
| `PnmHeader.HeaderRoundTrip` | dali/util/image.h:108-110 | The header the image writer produces is read back with the same size, and the same channels iff there are one or three |
| `PnmComments.IntendedHeader` | dali/image/pnm.cc:45-47 | Dropping a comment through its newline, wherever it stands, leaves the header |
| `PnmComments.CommentRead` | dali/image/pnm.cc:45-53 | One comment at any position: for every width and height the size is read as intended iff the comment follows the height directly, or follows the magic number or the width directly with nothing but blanks behind its first blank |
| `PnmComments.CommentEndsToken` | dali/image/pnm.cc:45-53 | Anywhere else, whatever its text, the comment ends the number that is being read, or makes it 0 if it has not begun |
| `PnmComments.CommentLineMisread` | dali/image/pnm.cc:45-57 | A comment line of one word in front of the width: the width is read as 0 and the height as the width, for every header |
| `PnmComments.CommentWithBlankRefused` | dali/image/pnm.cc:45-53 | A comment with a blank followed by a letter makes the scanner refuse the header |
| `RandomCrop.TooLong` | dali/util/random_crop_generator.cc:48-54 | The early exits for too wide or too tall images stay inside the image |
| `RandomCrop.RatioAbove` | dali/util/random_crop_generator.cc:83-85 | Cutting to the largest ratio stays inside the image |
| `RandomCrop.RatioBelow` | dali/util/random_crop_generator.cc:86-88 | Cutting to the smallest ratio stays inside the image |
| `RandomCrop.ShrinkBoth` | dali/util/random_crop_generator.cc:93-95 | The rescale keeps both sides at least one and not larger, and within the area limit unless a side is one |
| `RandomCrop.Attempt` | dali/util/random_crop_generator.cc:57-78 | Accepts the first draw that fits and has an allowed ratio, with the sides nearest to the roots the draw asks for, and fails only if none does |
| `RandomCrop.FallBack` | dali/util/random_crop_generator.cc:80-96 | The largest allowed extent, each side shrunk to the largest integer within the factor that meets the area limit; it fits the image and the area limit unless a side is one |
| `RandomCrop.GenerateCropWindow` | dali/util/random_crop_generator.cc:35-102 | Non-empty iff the image is; then in range and acceptable to the decoder, at the picked position, and of the size that the early exits, the first accepted draw or the fallback give |
| `RandomCrop.SizeDetermined` | dali/util/random_crop_generator.cc:35-102 | The ranges, the image and the draws leave one size only |

## Left out

- SliceGpu.FusedNormalization: exact arithmetic; the rounding of `fmaf`, of `roundf` on the host and of `__float2int_rn` on the device is not modelled, nor is saturation in `clamp`, which is a parameter.
- SliceGpu.DeviceCell: coordinates are unbounded integers; the device code keeps them in 32-bit unsigned variables.
- SliceGpu.CountBlocks: for batches of at most 2^24 blocks, beyond which the running float sum rounds too; SliceGpuRun.Setup takes this over.
- SliceGpuRun.Run: what the device reads past the staged vectors is not modelled; the host and device copies of the descriptors are one array here, and `GpuStaging` is about the copy between them.
- PipelineMeaning.MeaningPreserved: for split decoders with exactly one output, as the decoders of the source have; with a second output the mixed stage would read that output in place of a stream of the cpu stage. Seeds are part of the operator's meaning through its logical id.
- PipelineReplay.SerializeRoundTrip: the order in which seeds are handed out, and the batch size, thread and device fields of the message, are not modelled.
- PipelineObject.OpGraph.AddOp: the schema checks of `CheckOpConstraints`, and the parent and consumer lists of graph nodes, are not modelled.
- PipelineObject.Pipeline.Build: executors, memory hints and operator instantiation are not modelled; devices other than "cpu" and "gpu" are excluded by the type of a tensor.
- PipelineObject.Pipeline.AddOperator: calls carry their logical id; the overloads that take the next free one only differ in that number. What is left behind in the edge table by a refused call is not stated.
- ScratchGrowth.ReservedFits: capacities are scaled in exact arithmetic; `ScratchGrowth.RoundedReserveFits` covers rounded products, for margins of at least 2^-21.
- ScratchGrowth.SetupThenRun: sizes are unbounded, so overflow of 64-bit sizes is not modelled; memory addresses are parameters.
- ScratchGrowth.KernelManager.ReserveScratchpad: other threads only raise the maximum; the allocator itself is used by one thread, as in the source.
- AtomicMax.RunsEnd: sequentially consistent atomics; the exchange never fails spuriously.
- BlockTiling.BlockSetup.UniformSizeSetup: needs a non-empty X and Y extent; with an empty one the source divides by zero.
- BlockTiling.BlockSetup.SetupBlocks: the same for a uniform batch.
- RandomCrop.GenerateCropWindow: exact real arithmetic; the square root is a parameter with its law, and the random numbers are parameters within their ranges.
- PnmHeader.HeaderRoundTrip: pixels are not modelled, and the writer's stream is assumed to print plain decimal numbers.
- PnmComments.CommentRead: for headers with one comment; the end of a line is a line feed.
- KernelRequirements::AddInputSet, which adds up sizes or takes their maxima, ScratchpadAllocator::Free, which empties every buffer, and ToContiguousGPUMem, which packs like ToContiguousHostMem and copies the result to the device, are not part of this model.
- Executors, operators, readers, decoders, the Python layer and the other kernels are not part of this model.
