/** A batch through the GPU slice/flip/normalize/permute/pad kernel: Setup, Run, which samples the
    device reads safely, and when the result is that of the CPU kernel. The normalization vectors
    of the first sample are staged for all of them. */
module SliceGpuRun {
  import opened MachineWord
  import opened TensorIndex
  import opened Permutation
  import opened SliceArgs
  import opened SliceCpu
  import opened SliceGpu

  datatype Item<!I, !O> = Item(args: Args<real>, padding: O, inShape: Shape, input: seq<I>, output: array<O>)

  // The output axis that a processed sample is normalized along; past the last one if none is.
  ghost function AxisOf<F>(args: Args<F>): nat
    requires WellFormed(args)
  {
    if |args.mean| > 1 then OutputAxis(args.perm, args.normDim) else |args.shape| + 1
  }

  // What Run accepts of a sample, given the first one.
  ghost predicate Accepted<F>(first: Args<F>, args: Args<F>)
    requires WellFormed(first) && WellFormed(args)
  {
    ValidNormalization(args) && AxisOf(args) == AxisOf(first)
  }

  predicate EmptyWindow<F>(args: Args<F>) {
    exists d :: 0 <= d < |args.shape| && args.shape[d] == 0
  }

  // The staged vectors are long enough for the sample.
  predicate NormReadable<F>(first: Args<F>, args: Args<F>) {
    |first.mean| <= 1 || |args.mean| <= |first.mean| || EmptyWindow(args)
  }

  /** What the device makes of the arguments of a sample: the vectors of the first sample in place
      of its own, as many entries as its window is long. */
  function Effective<F>(first: Args<F>, args: Args<F>): (r: Args<F>)
    ensures r == args.(mean := r.mean, invStddev := r.invStddev)
  {
    if |first.mean| <= 1 then args.(mean := first.mean, invStddev := first.invStddev)
    else if |args.mean| <= |first.mean| && |args.mean| <= |first.invStddev| then
      args.(mean := first.mean[..|args.mean|], invStddev := first.invStddev[..|args.mean|])
    else args
  }

  lemma EffectiveValid<F>(first: Args<F>, args: Args<F>)
    requires WellFormed(first) && WellFormed(args) && |args.shape| == |first.shape|
    requires |first.mean| == |first.invStddev| && Accepted(first, args)
    ensures |first.mean| > 1 <==> |args.mean| > 1
    ensures var e := Effective(first, args);
            && WellFormed(e) && ValidNormalization(e)
            && (|e.mean| > 1 <==> |args.mean| > 1) && (NormReadable(first, args) && !EmptyWindow(args) ==> (e.mean == [] <==> first.mean == []))
  {
    hide IsPermutation;
  }

  // ---- the sample as the device sees it -----------------------------------------------------------

  function DeviceKernel<I, O>(ops: Ops<I, O, real>, first: Args<real>, p: Processed<real>, normDim: nat, input: seq<I>): Kernel<I, O, real> {
    Kernel(ops, first.mean != [], input, p.inStrides, p.outStrides, p.outShape, p.paddedOutShape,
           first.mean, first.invStddev, normDim)
  }

  function EffectiveProcessed(first: Args<real>, args: Args<real>, p: Processed<real>): Processed<real> {
    p.(mean := Effective(first, args).mean, invStddev := Effective(first, args).invStddev)
  }

  lemma AxisCompiled(args: Args<real>, inShape: Shape, p: Processed<real>)
    requires WellFormed(args) && ValidWindow(args, inShape) && Compiles(args, inShape, p)
    ensures p.normDim == AxisOf(args)
  {
    hide Reaches, RowMajor, Volume;
  }

  lemma EffectiveReaches(args: Args<real>, e: Args<real>, inShape: Shape, offset: int, strides: seq<int>)
    requires WellFormed(args) && WellFormed(e) && e == args.(mean := e.mean, invStddev := e.invStddev)
    requires |inShape| == |strides| == |args.shape| && Reaches(args, inShape, offset, strides)
    ensures Reaches(e, inShape, offset, strides)
  {
    hide WellFormed, SourceCoord, Dot, Flat, Shows, IsPermutation;
    forall j: seq<int> ensures ReachesAt(e, inShape, offset, strides, j) {
      assert ReachesAt(args, inShape, offset, strides, j);
      if |j| == |args.shape| {
        SameShown(args, e, j);
      }
    }
  }

  lemma EffectiveCompiles(first: Args<real>, args: Args<real>, inShape: Shape, p: Processed<real>)
    requires WellFormed(first) && WellFormed(args) && |args.shape| == |first.shape| && ValidWindow(args, inShape)
    requires |first.mean| == |first.invStddev| && Accepted(first, args) && Compiles(args, inShape, p)
    ensures WellFormed(Effective(first, args)) && ValidWindow(Effective(first, args), inShape)
    ensures Compiles(Effective(first, args), inShape, EffectiveProcessed(first, args, p))
  {
    hide RowMajor, Volume, IsPermutation, Dot, Flat, Reaches, Effective, Permuted;
    EffectiveValid(first, args);
    EffectiveReaches(args, Effective(first, args), inShape, p.inputOffset, p.inStrides);
  }

  // The vectors do not matter for which element is shown.
  lemma SameShown<F>(args: Args<F>, e: Args<F>, j: seq<int>)
    requires WellFormed(args) && WellFormed(e) && e == args.(mean := e.mean, invStddev := e.invStddev) && |j| == |args.shape|
    ensures SourceCoord(e, j) == SourceCoord(args, j)
  {
    ShowsUnique(args, j, SourceCoord(e, j), SourceCoord(args, j));
  }

  // A sample that Run accepts after the first one, compiled.
  ghost predicate Processable<I>(first: Args<real>, args: Args<real>, inShape: Shape, input: seq<I>, p: Processed<real>) {
    && ValidCall(args, inShape, input) && Compiles(args, inShape, p)
    && WellFormed(first) && |first.mean| == |first.invStddev| && |args.shape| == |first.shape| && Accepted(first, args)
  }

  // Arguments that fit their input, compiled.
  ghost predicate Callable<I>(args: Args<real>, inShape: Shape, input: seq<I>, p: Processed<real>) {
    ValidCall(args, inShape, input) && ValidNormalization(args) && Compiles(args, inShape, p)
  }

  // ---- kernels that differ in the vectors -------------------------------------------------------------------

  predicate Empty<I, O, F>(k: Kernel<I, O, F>) {
    exists d :: 0 <= d < |k.outShape| && k.outShape[d] == 0
  }

  // k is `own` with other vectors, which start with the vectors of `own` unless nothing is read.
  ghost predicate Similar<I, O, F>(k: Kernel<I, O, F>, own: Kernel<I, O, F>) {
    && own.Valid() && |k.mean| == |k.invStddev|
    && k == own.(mean := k.mean, invStddev := k.invStddev, normDim := k.normDim)
    && (k.normalizing ==> k.normDim == own.normDim)
    && (Empty(k) || (own.mean <= k.mean && own.invStddev <= k.invStddev))
  }

  lemma SimilarValid<I, O, F>(k: Kernel<I, O, F>, own: Kernel<I, O, F>)
    requires Similar(k, own)
    ensures k.Valid() && own.Valid() && k.padded == own.padded
  {
    hide RowMajor;
  }

  lemma SimilarRead<I, O, F>(k: Kernel<I, O, F>, own: Kernel<I, O, F>, inPos: int, j: seq<int>)
    requires Similar(k, own) && ReadsSafe(own, 0, inPos, 0) && InBounds(k.outShape, j)
    ensures |k.inStrides| == |k.outShape| && k.inStrides[0..] == own.inStrides && NormIndex(k, 0, j) == NormIndex(own, 0, j)
    ensures var at, q := inPos + Dot(k.inStrides, j), NormIndex(k, 0, j);
            k.ReadsAt(at, q) && own.ReadsAt(at, q) && k.Fill(at, q) == own.Fill(at, q)
  {
    hide RowMajor, Dot;
    assert own.outShape[0..] == k.outShape && own.inStrides[0..] == k.inStrides;
    assert own.ReadsAt(inPos + Dot(own.inStrides[0..], j), 0 + NormIndex(own, 0, j));
  }

  /** The device kernel with the staged vectors reads safely and holds the same as the kernel with the
      sample's share of them. */
  lemma SimilarCell<I, O, F>(k: Kernel<I, O, F>, own: Kernel<I, O, F>, inPos: int, j: seq<int>)
    requires Similar(k, own) && k.Valid() && ReadsSafe(own, 0, inPos, 0) && InBounds(k.padded, j)
    ensures k.padded[0..] == k.padded == own.padded == own.padded[0..]
    ensures CellAt(k, 0, inPos, 0, j) == CellAt(own, 0, inPos, 0, j)
  {
    hide RowMajor, Dot, Kernel.ReadsAt, Kernel.Fill, NormIndex;
    assert k.padded[0..] == k.padded && k.outShape[0..] == k.outShape && k.inStrides[0..] == k.inStrides;
    if InBounds(k.outShape, j) {
      SimilarRead(k, own, inPos, j);
    }
  }

  lemma SimilarReads<I, O, F>(k: Kernel<I, O, F>, own: Kernel<I, O, F>, inPos: int)
    requires Similar(k, own) && ReadsSafe(own, 0, inPos, 0)
    ensures k.Valid() && ReadsSafe(k, 0, inPos, 0)
  {
    hide RowMajor, Dot, Kernel.ReadsAt, Kernel.Fill, NormIndex;
    SimilarValid(k, own);
    assert k.outShape[0..] == k.outShape && k.inStrides[0..] == k.inStrides;
    forall j | InBounds(k.outShape[0..], j) ensures k.ReadsAt(inPos + Dot(k.inStrides[0..], j), 0 + NormIndex(k, 0, j)) {
      SimilarRead(k, own, inPos, j);
    }
  }

  // Longer along its normalization axis than the vectors are.
  lemma Overrun<I, O, F>(k: Kernel<I, O, F>, inPos: int)
    requires k.Valid() && k.normalizing && !Empty(k) && k.normDim < |k.outShape| && |k.mean| < k.outShape[k.normDim]
    ensures !ReadsSafe(k, 0, inPos, 0)
  {
    hide Dot, RowMajor;
    var j := seq(|k.outShape|, d => if d == k.normDim then |k.mean| else 0);
    assert k.outShape[0..] == k.outShape && InBounds(k.outShape[0..], j);
    assert NormIndex(k, 0, j) == |k.mean|;
    assert !k.ReadsAt(inPos + Dot(k.inStrides[0..], j), 0 + NormIndex(k, 0, j));
  }

  // ---- the device kernel of a sample ---------------------------------------------------------------------------

  lemma WindowEmpty(args: Args<real>, p: Processed<real>)
    requires WellFormed(args) && p.outShape == Permuted(args.shape, args.perm)
    ensures EmptyWindow(args) <==> exists d :: 0 <= d < |p.outShape| && p.outShape[d] == 0
  {
    if EmptyWindow(args) {
      var a :| 0 <= a < |args.shape| && args.shape[a] == 0;
      assert p.outShape[OutputAxis(args.perm, a)] == 0;
    }
    if d :| 0 <= d < |p.outShape| && p.outShape[d] == 0 {
      assert args.shape[args.perm[d]] == 0;
    }
  }

  lemma DeviceSimilar<I, O>(ops: Ops<I, O, real>, first: Args<real>, args: Args<real>, inShape: Shape, input: seq<I>, p: Processed<real>)
    requires Processable(first, args, inShape, input, p) && NormReadable(first, args)
    requires Dispatch(ops, EffectiveProcessed(first, args, p), input).Valid()
    ensures Similar(DeviceKernel(ops, first, p, p.normDim, input), Dispatch(ops, EffectiveProcessed(first, args, p), input))
  {
    hide Reaches, RowMajor, Volume, Dot, Flat, IsPermutation, ValidWindow, AxisOf, EmptyWindow, Permuted;
    WindowEmpty(args, p);
    EffectiveValid(first, args);
  }

  lemma EffectiveCall<I>(first: Args<real>, args: Args<real>, inShape: Shape, input: seq<I>, p: Processed<real>)
    requires Processable(first, args, inShape, input, p)
    ensures Callable(Effective(first, args), inShape, input, EffectiveProcessed(first, args, p))
  {
    hide Reaches, RowMajor, Volume, Dot, Flat, IsPermutation, Effective, Permuted;
    EffectiveValid(first, args);
    EffectiveCompiles(first, args, inShape, p);
  }

  ghost predicate Safe<I, O, F>(k: Kernel<I, O, F>, inPos: int) {
    k.Valid() && ReadsSafe(k, 0, inPos, 0)
  }

  lemma CallSafe<I, O>(ops: Ops<I, O, real>, args: Args<real>, inShape: Shape, input: seq<I>, p: Processed<real>)
    requires Callable(args, inShape, input, p)
    ensures Safe(Dispatch(ops, p, input), p.inputOffset)
  {
    hide *;
    CallParts(args, inShape, input, p);
    DispatchReadsSafe(ops, args, inShape, input, p);
    SafeFold(Dispatch(ops, p, input), p.inputOffset);
  }

  lemma CallParts<I>(args: Args<real>, inShape: Shape, input: seq<I>, p: Processed<real>)
    requires Callable(args, inShape, input, p)
    ensures ValidCall(args, inShape, input) && WellFormed(args) && ValidWindow(args, inShape)
    ensures ValidNormalization(args) && Compiles(args, inShape, p)
  {
  }

  lemma SafeFold<I, O, F>(k: Kernel<I, O, F>, inPos: int)
    ensures Safe(k, inPos) ==> k.Valid()
    ensures k.Valid() ==> (Safe(k, inPos) <==> ReadsSafe(k, 0, inPos, 0))
  {
  }

  lemma DeviceOverrun<I, O>(ops: Ops<I, O, real>, first: Args<real>, args: Args<real>, inShape: Shape, input: seq<I>, p: Processed<real>)
    requires Processable(first, args, inShape, input, p) && !NormReadable(first, args)
    ensures DeviceKernel(ops, first, p, p.normDim, input).Valid() && !Safe(DeviceKernel(ops, first, p, p.normDim, input), p.inputOffset)
  {
    hide Reaches, Volume, Dot, Flat, IsPermutation, ReadsSafe, EmptyWindow, ValidWindow;
    EffectiveValid(first, args);
    WindowEmpty(args, p);
    WindowFits(args, inShape, p);
    Overrun(DeviceKernel(ops, first, p, p.normDim, input), p.inputOffset);
  }

  lemma WindowFits(args: Args<real>, inShape: Shape, p: Processed<real>)
    requires WellFormed(args) && ValidWindow(args, inShape) && Compiles(args, inShape, p)
    ensures |p.outShape| == |p.paddedOutShape| && forall d :: 0 <= d < |p.outShape| ==> p.outShape[d] <= p.paddedOutShape[d]
  {
    hide Reaches, RowMajor, Volume;
    forall d | 0 <= d < |p.outShape| ensures p.outShape[d] <= p.paddedOutShape[d] {
      assert args.shape[args.perm[d]] <= args.paddedShape[args.perm[d]];
    }
  }

  /** Given that Run accepts a sample, the device stays inside the input and inside the staged vectors
      if and only if the sample has no more means than the first one, or is normalized by at most a
      scalar, or its window is empty. */
  lemma NormReadsExactly<I, O>(ops: Ops<I, O, real>, first: Args<real>, args: Args<real>, inShape: Shape, input: seq<I>,
                               p: Processed<real>)
    requires Processable(first, args, inShape, input, p)
    ensures DeviceKernel(ops, first, p, p.normDim, input).Valid()
    ensures Safe(DeviceKernel(ops, first, p, p.normDim, input), p.inputOffset) <==> NormReadable(first, args)
  {
    hide *;
    var k, own := DeviceKernel(ops, first, p, p.normDim, input), Dispatch(ops, EffectiveProcessed(first, args, p), input);
    if NormReadable(first, args) {
      EffectiveCall(first, args, inShape, input, p);
      CallSafe(ops, Effective(first, args), inShape, input, EffectiveProcessed(first, args, p));
      EffectiveOffset(first, args, p);
      SafeFold(own, p.inputOffset);
      DeviceSimilar(ops, first, args, inShape, input, p);
      SimilarReads(k, own, p.inputOffset);
      SafeFold(k, p.inputOffset);
    } else {
      DeviceOverrun(ops, first, args, inShape, input, p);
    }
  }

  lemma EffectiveOffset(first: Args<real>, args: Args<real>, p: Processed<real>)
    ensures var pe := EffectiveProcessed(first, args, p);
            pe.inputOffset == p.inputOffset && pe.paddedOutShape == p.paddedOutShape
  {
  }

  // ---- what a sample holds -------------------------------------------------------------------------------------

  function SampleOf<I, O>(dev: Device<I, O>, first: Args<real>, it: Item<I, O>, p: Processed<real>, normDim: nat): Sample<I, O> {
    var own := dev.(padding := it.padding);
    Sample(own, DeviceKernel(CpuOps(own), first, p, normDim, it.input), p.inputOffset, it.output)
  }

  // The contents of one output, with the vectors of the first sample and its own padding value.
  ghost function DeviceResult<I, O>(dev: Device<I, O>, first: Args<real>, it: Item<I, O>): seq<O>
    requires ValidCall(Effective(first, it.args), it.inShape, it.input) && ValidNormalization(Effective(first, it.args))
  {
    Sliced(CpuOps(dev.(padding := it.padding)), Effective(first, it.args), it.inShape, it.input)
  }

  lemma SampleCell<I, O>(dev: Device<I, O>, first: Args<real>, it: Item<I, O>, p: Processed<real>, q: nat)
    requires Processable(first, it.args, it.inShape, it.input, p) && NormReadable(first, it.args)
    requires q < Volume(p.paddedOutShape)
    ensures Callable(Effective(first, it.args), it.inShape, it.input, EffectiveProcessed(first, it.args, p))
    ensures var s := SampleOf(dev, first, it, p, p.normDim);
            && s.k.Valid() && s.k.padded == p.paddedOutShape
            && q < |DeviceResult(dev, first, it)| && CellOf(s, q) == DeviceResult(dev, first, it)[q]
  {
    hide Volume, Processable, NormReadable, Effective, EffectiveProcessed, Compiles, ValidCall, ValidNormalization, WellFormed,
         ValidWindow, Similar, Kernel.Valid, ReadsSafe, CellAt, CellOf, Sliced, Dispatch, Safe, Unflat;
    EffectiveCall(first, it.args, it.inShape, it.input, p);
    var own, e, pe := dev.(padding := it.padding), Effective(first, it.args), EffectiveProcessed(first, it.args, p);
    EffectiveOffset(first, it.args, p);
    CallSafe(CpuOps(own), e, it.inShape, it.input, pe);
    var k, k' := DeviceKernel(CpuOps(own), first, p, p.normDim, it.input), Dispatch(CpuOps(own), pe, it.input);
    SafeFold(k', p.inputOffset);
    DeviceSimilar(CpuOps(own), first, it.args, it.inShape, it.input, p);
    SimilarValid(k, k');
    GpuMatchesCpu(own, e, it.inShape, it.input, pe, it.output, q);
    SimilarCell(k, k', p.inputOffset, Unflat(p.paddedOutShape, q));
    CellOfDef(Sample(own, k, p.inputOffset, it.output), q);
    CellOfDef(Sample(own, k', p.inputOffset, it.output), q);
  }

  // ---- a batch -----------------------------------------------------------------------------------------------------

  ghost predicate ValidItem<I, O>(first: Args<real>, it: Item<I, O>) {
    && WellFormed(it.args) && |it.inShape| == |it.args.shape| == |first.shape| && |it.input| == Volume(it.inShape)
    && it.output.Length == Volume(OutputShape(it.args))
  }

  ghost predicate ValidBatch<I, O>(batch: seq<Item<I, O>>) {
    && batch != []
    && (forall i :: 0 <= i < |batch| ==> ValidItem(batch[0].args, batch[i]))
    && (forall i, j :: 0 <= i < j < |batch| ==> batch[i].output != batch[j].output)
  }

  ghost function Sizes<I, O>(batch: seq<Item<I, O>>): (r: seq<nat>)
    requires ValidBatch(batch)
    ensures |r| == |batch| && forall i :: 0 <= i < |batch| ==> r[i] == batch[i].output.Length
  {
    seq(|batch|, i requires 0 <= i < |batch| => batch[i].output.Length)
  }

  /** SliceFlipNormalizePermutePadGPU::Setup. Refuses exactly the batches whose first vectors differ in
      length or with a window that leaves its input or does not fit the padded output; otherwise it
      never counts more blocks than Run describes, and as many iff every sample is counted right. */
  method Setup<I, O>(batch: seq<Item<I, O>>) returns (ok: bool, blockCount: nat)
    requires ValidBatch(batch) && TotalBlocks(Sizes(batch)) <= FLOAT_EXACT
    ensures ok <==> |batch[0].args.mean| == |batch[0].args.invStddev|
                    && forall i :: 0 <= i < |batch| ==> WellFormed(batch[i].args) && ValidWindow(batch[i].args, batch[i].inShape)
    ensures ok ==> blockCount <= TotalBlocks(Sizes(batch))
                   && (blockCount == TotalBlocks(Sizes(batch)) <==> forall i :: 0 <= i < |batch| ==> CountsRight(Sizes(batch)[i]))
  {
    hide TotalBlocks, CountsRight, Volume, Pow2, IsPermutation, ValidWindow, Permuted;
    if |batch[0].args.mean| != |batch[0].args.invStddev| {
      return false, 0;
    }
    var shapes := seq(|batch|, i requires 0 <= i < |batch| => batch[i].args.paddedShape);
    var perms := seq(|batch|, i requires 0 <= i < |batch| => batch[i].args.perm);
    blockCount := CountBlocks(shapes, perms, Sizes(batch));
    for i := 0 to |batch|
      invariant forall j :: 0 <= j < i ==> ValidWindow(batch[j].args, batch[j].inShape)
    {
      var shape := SliceCpu.Setup(batch[i].args, batch[i].inShape);
      if shape.None? {
        return false, 0;
      }
    }
    ok := true;
  }

  ghost predicate AllAccepted<I, O>(batch: seq<Item<I, O>>)
    requires ValidBatch(batch)
  {
    forall i :: 0 <= i < |batch| ==> ItemAccepted(batch[0].args, batch[i])
  }

  ghost predicate ItemAccepted<I, O>(first: Args<real>, it: Item<I, O>) {
    WellFormed(first) && WellFormed(it.args) && Accepted(first, it.args)
  }

  // A sample that the argument loop has gone through.
  ghost predicate Done<I, O>(dev: Device<I, O>, first: Args<real>, it: Item<I, O>, p: Processed<real>, normDim: nat, s: Sample<I, O>) {
    && Processable(first, it.args, it.inShape, it.input, p) && p.normDim == normDim && s == SampleOf(dev, first, it, p, normDim)
    && it.output.Length == Volume(p.paddedOutShape)
  }

  lemma ItemDone<I, O>(dev: Device<I, O>, first: Args<real>, it: Item<I, O>, p: Processed<real>, normDim: nat)
    requires WellFormed(first) && ValidItem(first, it) && ValidWindow(it.args, it.inShape) && ValidNormalization(it.args)
    requires Compiles(it.args, it.inShape, p) && |first.mean| == |first.invStddev| && normDim == AxisOf(first)
    ensures p.normDim == normDim <==> ItemAccepted(first, it)
    ensures p.normDim == normDim ==> Done(dev, first, it, p, normDim, SampleOf(dev, first, it, p, normDim))
  {
    hide Reaches, RowMajor, Volume, Dot, Flat, IsPermutation, AxisOf, Permuted;
    AxisCompiled(it.args, it.inShape, p);
  }

  /** The samples are ready for the launch, and safe. */
  lemma DoneValid<I, O>(dev: Device<I, O>, first: Args<real>, it: Item<I, O>, p: Processed<real>, normDim: nat, s: Sample<I, O>,
                        normAdd: seq<real>, normMul: seq<real>)
    requires Done(dev, first, it, p, normDim, s) && NormReadable(first, it.args)
    requires Staged(first.mean, first.invStddev, normAdd, normMul)
    ensures ValidSample(s, normAdd, normMul) && s.output == it.output && s.output.Length == Volume(s.k.padded)
  {
    hide Processable, NormReadable, Staged, Volume, Kernel.Valid, ReadsSafe, Safe;
    NormReadsExactly(CpuOps(s.dev), first, it.args, it.inShape, it.input, p);
    SafeFold(s.k, p.inputOffset);
  }

  ghost predicate Computed<I, O>(dev: Device<I, O>, first: Args<real>, it: Item<I, O>)
    reads it.output
  {
    && ValidCall(Effective(first, it.args), it.inShape, it.input) && ValidNormalization(Effective(first, it.args))
    && it.output[..] == DeviceResult(dev, first, it)
  }

  lemma DoneComputed<I, O>(dev: Device<I, O>, first: Args<real>, it: Item<I, O>, p: Processed<real>, normDim: nat, s: Sample<I, O>)
    requires Done(dev, first, it, p, normDim, s) && NormReadable(first, it.args)
    requires Filled(s)
    ensures Computed(dev, first, it)
  {
    hide Processable, NormReadable, Volume, Kernel.Valid, CellOf, Effective, EffectiveProcessed, DeviceResult, ValidNormalization;
    EffectiveCall(first, it.args, it.inShape, it.input, p);
    CallParts(Effective(first, it.args), it.inShape, it.input, EffectiveProcessed(first, it.args, p));
    forall q | 0 <= q < it.output.Length
      ensures q < |DeviceResult(dev, first, it)| && it.output[q] == DeviceResult(dev, first, it)[q]
    {
      SampleCell(dev, first, it, p, q);
    }
    ResultLength(dev, first, it, p);
  }

  lemma ResultLength<I, O>(dev: Device<I, O>, first: Args<real>, it: Item<I, O>, p: Processed<real>)
    requires Processable(first, it.args, it.inShape, it.input, p)
    requires ValidCall(Effective(first, it.args), it.inShape, it.input) && ValidNormalization(Effective(first, it.args))
    ensures |DeviceResult(dev, first, it)| == Volume(p.paddedOutShape)
  {
    hide Reaches, RowMajor, Volume, Dot, Flat, IsPermutation, Permuted, Effective;
  }

  // The argument loop of Run.
  method DescribeSamples<I, O>(dev: Device<I, O>, batch: seq<Item<I, O>>)
    returns (ok: bool, samples: seq<Sample<I, O>>, sizes: seq<nat>, normDim: nat, ghost ps: seq<Processed<real>>)
    requires ValidBatch(batch) && |batch[0].args.mean| == |batch[0].args.invStddev|
    requires forall i :: 0 <= i < |batch| ==> WellFormed(batch[i].args) && ValidWindow(batch[i].args, batch[i].inShape)
    ensures ok <==> AllAccepted(batch)
    ensures ok ==> AllDone(dev, batch, ps, normDim, samples) && sizes == Sizes(batch)
  {
    hide WellFormed, ValidWindow, Compiles, ValidNormalization, AxisOf, Done, ItemAccepted;
    var first := batch[0].args;
    samples, sizes, normDim, ps := [], [], 0, [];
    for i := 0 to |batch|
      invariant |samples| == |sizes| == |ps| == i && (i > 0 ==> normDim == AxisOf(first))
      invariant forall j :: 0 <= j < i ==> ItemAccepted(first, batch[j]) && Done(dev, first, batch[j], ps[j], normDim, samples[j])
      invariant forall j :: 0 <= j < i ==> sizes[j] == batch[j].output.Length
    {
      var it := batch[i];
      var r := ProcessArgs(it.args, it.inShape);
      if r.None? {
        NotAccepted(batch, i);
        return false, [], [], 0, [];
      }
      var p := r.value;
      AxisCompiled(it.args, it.inShape, p);
      if i == 0 {
        normDim := p.normDim;
      }
      ItemDone(dev, first, it, p, normDim);
      if normDim != p.normDim {
        return false, [], [], 0, [];
      }
      DoneSize(dev, first, it, p, normDim);
      samples := samples + [SampleOf(dev, first, it, p, normDim)];
      sizes := sizes + [Volume(p.paddedOutShape)];
      ps := ps + [p];
    }
    ok := true;
  }

  ghost predicate AllDone<I, O>(dev: Device<I, O>, batch: seq<Item<I, O>>, ps: seq<Processed<real>>, normDim: nat, samples: seq<Sample<I, O>>) {
    |batch| == |ps| == |samples| && forall j :: 0 <= j < |batch| ==> Done(dev, batch[0].args, batch[j], ps[j], normDim, samples[j])
  }

  lemma DoneSize<I, O>(dev: Device<I, O>, first: Args<real>, it: Item<I, O>, p: Processed<real>, normDim: nat)
    requires Done(dev, first, it, p, normDim, SampleOf(dev, first, it, p, normDim))
    ensures it.output.Length == Volume(p.paddedOutShape)
  {
  }

  lemma ReadyToLaunch<I, O>(dev: Device<I, O>, batch: seq<Item<I, O>>, ps: seq<Processed<real>>, normDim: nat, samples: seq<Sample<I, O>>,
                            normAdd: seq<real>, normMul: seq<real>, descs: seq<BlockDesc>, order: seq<(nat, nat)>)
    requires ValidBatch(batch) && AllDone(dev, batch, ps, normDim, samples)
    requires forall i :: 0 <= i < |batch| ==> NormReadable(batch[0].args, batch[i].args)
    requires Staged(batch[0].args.mean, batch[0].args.invStddev, normAdd, normMul)
    requires IsPieceList(descs, Sizes(batch)) && CoversGrid(order, |descs|)
    ensures ValidLaunch(samples, normAdd, normMul, descs, order)
    ensures forall i :: 0 <= i < |batch| ==> samples[i].output == batch[i].output
  {
    hide Done, NormReadable, Staged, ValidItem, ValidSample, CoversGrid, IsPieceList, Volume, Kernel.Valid;
    forall j | 0 <= j < |batch|
      ensures ValidSample(samples[j], normAdd, normMul) && samples[j].output == batch[j].output
              && Volume(samples[j].k.padded) == batch[j].output.Length
    {
      DoneValid(dev, batch[0].args, batch[j], ps[j], normDim, samples[j], normAdd, normMul);
    }
    assert OutputSizes(samples) == Sizes(batch);
  }

  /** SliceFlipNormalizePermutePadGPU::Run, once Setup has accepted the batch and made room for every
      descriptor. It refuses exactly the batches with vectors that do not fit their sample or with
      samples normalized along different output axes. Otherwise, if no sample is longer along that
      axis than the first, every output is the coordinate formula with the vectors of the FIRST
      sample and its own padding value, in whatever order the threads run. */
  method Run<I, O>(dev: Device<I, O>, batch: seq<Item<I, O>>, blockCount: nat, order: seq<(nat, nat)>) returns (ok: bool)
    requires ValidBatch(batch) && blockCount == TotalBlocks(Sizes(batch)) && CoversGrid(order, blockCount)
    requires forall i :: 0 <= i < |batch| ==> WellFormed(batch[i].args) && ValidWindow(batch[i].args, batch[i].inShape)
    requires AllAccepted(batch) ==> forall i :: 0 <= i < |batch| ==> NormReadable(batch[0].args, batch[i].args)
    modifies set i | 0 <= i < |batch| :: batch[i].output
    ensures ok <==> AllAccepted(batch)
    ensures ok ==> forall i :: 0 <= i < |batch| ==> Computed(dev, batch[0].args, batch[i])
    ensures !ok ==> forall i :: 0 <= i < |batch| ==> batch[i].output[..] == old(batch[i].output[..])
  {
    hide WellFormed, ValidWindow, NormReadable, Computed, Volume, TotalBlocks, CoversGrid, Filled, Staged, Done, ValidItem,
         ItemAccepted, ValidSample, IsPieceList;
    var first := batch[0].args;
    if |first.mean| != |first.invStddev| {
      UnequalRefused(batch);
      return false;
    }
    var normAdd, normMul := StageNormalization(first.mean, first.invStddev);
    var add, mul := normAdd[..], normMul[..];
    var samples, sizes, normDim;
    ghost var ps;
    ok, samples, sizes, normDim, ps := DescribeSamples(dev, batch);
    if !ok {
      return;
    }
    var descs := new BlockDesc[blockCount](_ => BlockDesc(0, 0, 0));
    MakeBlockDescs(sizes, descs);
    ReadyToLaunch(dev, batch, ps, normDim, samples, add, mul, descs[..], order);
    Launch(samples, add, mul, descs[..], order);
    forall j | 0 <= j < |batch| ensures Computed(dev, first, batch[j]) {
      DoneComputed(dev, first, batch[j], ps[j], normDim, samples[j]);
    }
  }

  lemma UnequalRefused<I, O>(batch: seq<Item<I, O>>)
    requires ValidBatch(batch) && |batch[0].args.mean| != |batch[0].args.invStddev|
    ensures !AllAccepted(batch)
  {
    assert !ItemAccepted(batch[0].args, batch[0]);
  }

  lemma NotAccepted<I, O>(batch: seq<Item<I, O>>, i: nat)
    requires ValidBatch(batch) && i < |batch| && WellFormed(batch[i].args) && !ValidNormalization(batch[i].args)
    ensures !AllAccepted(batch)
  {
    assert !ItemAccepted(batch[0].args, batch[i]);
  }
}
