/** The CPU slice/flip/normalize/permute/pad kernel: a loop nest, recursive in the number of
    dimensions left, that walks an input and an output position by strides. */
module SliceCpu {
  import opened TensorIndex
  import opened Permutation
  import opened SliceArgs

  // How one element is converted. `clamp` stands for ClampPolicy, `normalize` for
  // NormalizePolicy on (element, mean, inverse standard deviation).
  datatype Ops<!I, !O, !F> = Ops(clamp: I -> O, normalize: (I, F, F) -> O, zero: O)

  // Everything the loop nest passes down unchanged.
  datatype Kernel<!I, !O, !F> = Kernel(
    ops: Ops<I, O, F>,
    normalizing: bool,
    input: seq<I>,
    inStrides: seq<int>,
    outStrides: seq<int>,
    outShape: Shape,
    padded: Shape,
    mean: seq<F>,
    invStddev: seq<F>,
    normDim: nat)
  {
    ghost predicate Valid() {
      && |outShape| == |padded| == |inStrides| == |outStrides| > 0
      && RowMajor(outStrides, padded)
      && (forall d :: 0 <= d < |outShape| ==> outShape[d] <= padded[d])
      && |mean| == |invStddev|
    }

    predicate ReadsAt(inPos: int, normPos: int) {
      0 <= inPos < |input| && (normalizing ==> 0 <= normPos < |mean| && normPos < |invStddev|)
    }

    function Fill(inPos: int, normPos: int): O
      requires ReadsAt(inPos, normPos)
    {
      if normalizing then ops.normalize(input[inPos], mean[normPos], invStddev[normPos])
      else ops.clamp(input[inPos])
    }
  }

  // ---- contents of the region one nest writes ---------------------------------------------

  // Step along the normalization vectors taken by index i of dimension d.
  function NormStep<I, O, F>(k: Kernel<I, O, F>, d: nat, i: int): int {
    if k.normalizing && d == k.normDim then i else 0
  }

  ghost function Block<I, O, F>(k: Kernel<I, O, F>, d: nat, inPos: int, normPos: int): (b: seq<O>)
    requires k.Valid() && d <= |k.padded|
    ensures |b| == Volume(k.padded[d..])
    decreases |k.padded| - d, 1, 0
  {
    if d == |k.padded| then
      [if k.ReadsAt(inPos, normPos) then k.Fill(inPos, normPos) else k.ops.zero]
    else
      assert k.padded[d..][1..] == k.padded[d + 1..];
      StepsIsProduct(k.padded[d], Volume(k.padded[d + 1..]));
      Rows(k, d, inPos, normPos, k.padded[d])
  }

  // i strides of length s, taken one at a time.
  function Steps(i: nat, s: int): (r: int)
    ensures s >= 0 ==> r >= 0
  {
    if i == 0 then 0 else Steps(i - 1, s) + s
  }

  lemma {:induction false} StepsIsProduct(i: nat, s: int)
    ensures Steps(i, s) == i * s
  {
    if i > 0 {
      StepsIsProduct(i - 1, s);
    }
  }

  // The first i slices of dimension d.
  ghost function Rows<I, O, F>(k: Kernel<I, O, F>, d: nat, inPos: int, normPos: int, i: nat): (b: seq<O>)
    requires k.Valid() && d < |k.padded|
    ensures |b| == Steps(i, Volume(k.padded[d + 1..]))
    decreases |k.padded| - d, 0, i
  {
    if i == 0 then [] else
      Rows(k, d, inPos, normPos, i - 1)
      + (if i - 1 < k.outShape[d]
         then Block(k, d + 1, inPos + Steps(i - 1, k.inStrides[d]), normPos + NormStep(k, d, i - 1))
         else Blank(k.ops.zero, Volume(k.padded[d + 1..])))
  }

  ghost function Blank<O>(zero: O, n: nat): (b: seq<O>)
    ensures |b| == n && forall i :: 0 <= i < n ==> b[i] == zero
  {
    seq(n, _ => zero)
  }

  // ---- reads stay inside the buffers ------------------------------------------------------

  ghost function NormIndex<I, O, F>(k: Kernel<I, O, F>, d: nat, j: seq<int>): int {
    if k.normalizing && d <= k.normDim < d + |j| then j[k.normDim - d] else 0
  }

  ghost predicate ReadsSafe<I, O, F>(k: Kernel<I, O, F>, d: nat, inPos: int, normPos: int)
    requires k.Valid() && d <= |k.outShape|
  {
    forall j :: InBounds(k.outShape[d..], j) ==>
      k.ReadsAt(inPos + Dot(k.inStrides[d..], j), normPos + NormIndex(k, d, j))
  }

  // One step into dimension d: position, normalization index and bounds of [i] + rest.
  lemma DotStep<I, O, F>(k: Kernel<I, O, F>, d: nat, i: nat, rest: seq<int>)
    requires k.Valid() && d < |k.outShape| && |rest| == |k.outShape| - d - 1
    ensures Dot(k.inStrides[d..], [i] + rest) == Steps(i, k.inStrides[d]) + Dot(k.inStrides[d + 1..], rest)
  {
    hide *;
    assert |k.inStrides| == |k.outShape| by { LengthsAgree(k); }
    StepsIsProduct(i, k.inStrides[d]);
    DotCons(k.inStrides[d], k.inStrides[d + 1..], i, rest);
    assert k.inStrides[d..] == [k.inStrides[d]] + k.inStrides[d + 1..];
  }

  lemma LengthsAgree<I, O, F>(k: Kernel<I, O, F>)
    requires k.Valid()
    ensures |k.inStrides| == |k.outStrides| == |k.outShape| == |k.padded|
    ensures forall d :: 0 <= d < |k.padded| ==> k.outShape[d] <= k.padded[d]
  {
  }

  lemma DotCons(s: int, strides: seq<int>, i: int, rest: seq<int>)
    requires |strides| == |rest|
    ensures Dot([s] + strides, [i] + rest) == i * s + Dot(strides, rest)
  {
    assert ([s] + strides)[1..] == strides && ([i] + rest)[1..] == rest;
  }

  lemma NormIndexStep<I, O, F>(k: Kernel<I, O, F>, d: nat, i: int, rest: seq<int>)
    ensures NormIndex(k, d, [i] + rest) == NormStep(k, d, i) + NormIndex(k, d + 1, rest)
  {
  }

  lemma BoundsStep(shape: Shape, d: nat, i: int, rest: seq<int>)
    requires d < |shape| && 0 <= i
    ensures InBounds(shape[d..], [i] + rest) <==> i < shape[d] && InBounds(shape[d + 1..], rest)
  {
    assert shape[d..] == [shape[d]] + shape[d + 1..];
    if InBounds(shape[d..], [i] + rest) {
      InBoundsTail(shape[d..], [i] + rest);
      assert ([i] + rest)[1..] == rest;
    }
    if i < shape[d] && InBounds(shape[d + 1..], rest) {
      InBoundsCons(shape[d], shape[d + 1..], i, rest);
    }
  }

  lemma ReadsSafeStep<I, O, F>(k: Kernel<I, O, F>, d: nat, inPos: int, normPos: int, i: int)
    requires k.Valid() && d < |k.outShape| && 0 <= i < k.outShape[d]
    requires ReadsSafe(k, d, inPos, normPos)
    ensures ReadsSafe(k, d + 1, inPos + Steps(i, k.inStrides[d]), normPos + NormStep(k, d, i))
  {
    hide Dot, NormIndex, NormStep, Steps, RowMajor, Kernel.ReadsAt;
    var e := d + 1;
    forall j | InBounds(k.outShape[e..], j)
      ensures k.ReadsAt(inPos + Steps(i, k.inStrides[d]) + Dot(k.inStrides[e..], j),
                        normPos + NormStep(k, d, i) + NormIndex(k, e, j))
    {
      BoundsStep(k.outShape, d, i, j);
      DotStep(k, d, i, j);
      NormIndexStep(k, d, i, j);
      assert k.ReadsAt(inPos + Dot(k.inStrides[d..], [i] + j), normPos + NormIndex(k, d, [i] + j));
    }
  }

  lemma ReadsSafeCell<I, O, F>(k: Kernel<I, O, F>, inPos: int, normPos: int)
    requires k.Valid() && ReadsSafe(k, |k.outShape|, inPos, normPos)
    ensures k.ReadsAt(inPos, normPos)
  {
    var n := |k.outShape|;
    assert InBounds(k.outShape[n..], []);
    assert k.ReadsAt(inPos + Dot(k.inStrides[n..], []), normPos + NormIndex(k, n, []));
  }

  // ---- consecutive writes -------------------------------------------------------------------

  // `after` is `before` with `block` stored from `pos` on.
  ghost predicate Wrote<O>(before: seq<O>, after: seq<O>, pos: int, block: seq<O>) {
    && 0 <= pos && pos + |block| <= |before|
    && after == before[..pos] + block + before[pos + |block|..]
  }

  lemma WroteThen<O>(a: seq<O>, b: seq<O>, c: seq<O>, pos: int, x: seq<O>, y: seq<O>)
    requires Wrote(a, b, pos, x) && Wrote(b, c, pos + |x|, y)
    ensures Wrote(a, c, pos, x + y)
  {
    var q := pos + |x|;
    assert |b| == |a| && b[..q] == a[..pos] + x;
    assert b[q + |y|..] == a[q + |y|..];
    assert c == a[..pos] + (x + y) + a[pos + |x + y|..];
  }

  // The positions pos, pos + 1, ..., in this order.
  ghost function Consecutive(pos: int, n: nat): (r: seq<int>)
    ensures |r| == n
  {
    seq(n, i => pos + i)
  }

  lemma ConsecutiveThen(pos: int, m: nat, n: nat)
    ensures Consecutive(pos, m) + Consecutive(pos + m, n) == Consecutive(pos, m + n)
  {
  }

  // One store through the output pointer.
  method Store<O>(output: array<O>, pos: int, value: O) returns (ghost writes: seq<int>)
    requires 0 <= pos < output.Length
    modifies output
    ensures Wrote(old(output[..]), output[..], pos, [value])
    ensures writes == Consecutive(pos, 1)
  {
    output[pos] := value;
    writes := [pos];
  }

  // ---- the loop nests -------------------------------------------------------------------------

  lemma StepsNext(i: nat, s: int)
    ensures Steps(i + 1, s) == Steps(i, s) + s
  {
  }

  lemma {:induction false} SplitCells(i: nat, n: nat, v: nat)
    requires i <= n
    ensures Steps(i, v) + Steps(n - i, v) == Steps(n, v)
  {
    if i < n {
      SplitCells(i, n - 1, v);
    }
  }

  lemma SliceEnd(i: nat, n: nat, v: nat)
    requires i < n
    ensures Steps(i + 1, v) == Steps(i, v) + v <= Steps(n, v)
  {
    SplitCells(i + 1, n, v);
  }

  // Storing one more slice after m consecutive cells.
  lemma AppendSlice<O>(before: seq<O>, mid: seq<O>, after: seq<O>, start: int, x: seq<O>, y: seq<O>,
                       writes: seq<int>, w: seq<int>)
    requires Wrote(before, mid, start, x) && Wrote(mid, after, start + |x|, y)
    requires writes == Consecutive(start, |x|) && w == Consecutive(start + |x|, |y|)
    ensures Wrote(before, after, start, x + y)
    ensures writes + w == Consecutive(start, |x| + |y|)
  {
    WroteThen(before, mid, after, start, x, y);
    ConsecutiveThen(start, |x|, |y|);
  }

  lemma BlankSplit<O>(zero: O, m: nat, n: nat)
    ensures Blank(zero, m) + Blank(zero, n) == Blank(zero, m + n)
  {
  }

  lemma LoopStart<I, O, F>(k: Kernel<I, O, F>, a: seq<O>, start: int, d: nat)
    requires k.Valid() && d < |k.padded| && 0 <= start <= |a|
    ensures |k.outStrides| == |k.inStrides| == |k.outShape| == |k.padded|
    ensures k.outStrides[d] == Volume(k.padded[d + 1..]) && k.outShape[d] <= k.padded[d]
    ensures Wrote(a, a, start, []) && Consecutive(start, 0) == [] && Blank(k.ops.zero, 0) == []
    ensures Steps(0, k.inStrides[d]) == Steps(0, Volume(k.padded[d + 1..])) == 0
  {
  }

  // In the loop nests below d is the current dimension: the source counts down dimsLeft, and
  // d == Dims - dimsLeft.

  /** ZeroPad: clears the slices from index `first` on of the sub-block that starts at dimension
      d; `start` is where slice `first` begins. The kernel pads a whole sub-block (first == 0)
      and, with the same loop, what follows the window in one dimension. */
  method ZeroPad<I, O, F>(k: Kernel<I, O, F>, output: array<O>, start: int, first: nat, d: nat)
    returns (ghost writes: seq<int>)
    requires k.Valid() && d < |k.padded| && first <= k.padded[d]
    requires 0 <= start && start + PadCells(k, first, d) <= output.Length
    modifies output
    ensures Wrote(old(output[..]), output[..], start, Blank(k.ops.zero, PadCells(k, first, d)))
    ensures writes == Consecutive(start, PadCells(k, first, d))
    decreases |k.padded| - d, 1
  {
    hide *;
    ghost var v := Volume(k.padded[d + 1..]);
    LoopStart(k, output[..], start, d);
    assert PadCells(k, first, d) == Steps(k.padded[d] - first, v) by { PadCellsDef(k, first, d); }
    ghost var m := 0;
    var outPos := start;
    writes := [];
    var i := first;
    while i < k.padded[d]
      invariant first <= i <= k.padded[d]
      invariant m == Steps(i - first, v) && outPos == start + m
      invariant Wrote(old(output[..]), output[..], start, Blank(k.ops.zero, m))
      invariant writes == Consecutive(start, m)
    {
      SliceEnd(i - first, k.padded[d] - first, v);
      ghost var mid := output[..];
      ghost var w := ZeroSlice(k, output, outPos, d);
      AppendSlice(old(output[..]), mid, output[..], start,
                  Blank(k.ops.zero, m), Blank(k.ops.zero, v), writes, w);
      BlankSplit(k.ops.zero, m, v);
      writes := writes + w;
      outPos := outPos + k.outStrides[d];
      i, m := i + 1, m + v;
    }
  }

  // Body of the padding loop of dimension d.
  method ZeroSlice<I, O, F>(k: Kernel<I, O, F>, output: array<O>, outPos: int, d: nat)
    returns (ghost writes: seq<int>)
    requires k.Valid() && d < |k.padded|
    requires 0 <= outPos && outPos + Volume(k.padded[d + 1..]) <= output.Length
    modifies output
    ensures Wrote(old(output[..]), output[..], outPos, Blank(k.ops.zero, Volume(k.padded[d + 1..])))
    ensures writes == Consecutive(outPos, Volume(k.padded[d + 1..]))
    decreases |k.padded| - d, 0
  {
    if d + 1 == |k.padded| {
      writes := Store(output, outPos, k.ops.zero);
      assert [k.ops.zero] == Blank(k.ops.zero, 1);
    } else {
      WholeSlice(k, d + 1);
      writes := ZeroPad(k, output, outPos, 0, d + 1);
    }
  }

  // Cells in the slices of dimension d from index `first` on.
  ghost function PadCells<I, O, F>(k: Kernel<I, O, F>, first: nat, d: nat): nat
    requires k.Valid() && d < |k.padded| && first <= k.padded[d]
  {
    Steps(k.padded[d] - first, Volume(k.padded[d + 1..]))
  }

  lemma PadCellsDef<I, O, F>(k: Kernel<I, O, F>, first: nat, d: nat)
    requires k.Valid() && d < |k.padded| && first <= k.padded[d]
    ensures PadCells(k, first, d) == Steps(k.padded[d] - first, Volume(k.padded[d + 1..]))
  {
  }

  lemma RowsStart<I, O, F>(k: Kernel<I, O, F>, d: nat, inPos: int, normPos: int)
    requires k.Valid() && d < |k.padded|
    ensures Rows(k, d, inPos, normPos, 0) == []
  {
  }

  lemma WholeSlice<I, O, F>(k: Kernel<I, O, F>, d: nat)
    requires k.Valid() && d < |k.padded|
    ensures PadCells(k, 0, d) == Volume(k.padded[d..])
  {
    assert k.padded[d..][1..] == k.padded[d + 1..];
    StepsIsProduct(k.padded[d], Volume(k.padded[d + 1..]));
  }

  // Body of the copying loop for index i of dimension d.
  method CopySlice<I, O, F>(k: Kernel<I, O, F>, output: array<O>, outPos: int, inPos: int,
                            normPos: int, isNormDim: bool, i: nat, d: nat)
    returns (ghost writes: seq<int>)
    requires k.Valid() && d < |k.padded|
    requires isNormDim <==> k.normalizing && d == k.normDim
    requires !k.normalizing ==> k.normDim == 0
    requires 0 <= outPos && outPos + Volume(k.padded[d + 1..]) <= output.Length
    requires ReadsSafe(k, d + 1, inPos, normPos + NormStep(k, d, i))
    modifies output
    ensures Wrote(old(output[..]), output[..], outPos, Block(k, d + 1, inPos, normPos + NormStep(k, d, i)))
    ensures writes == Consecutive(outPos, Volume(k.padded[d + 1..]))
    decreases |k.padded| - d, 0
  {
    var normIdx := if isNormDim then i else 0;
    if d + 1 == |k.padded| {
      ReadsSafeCell(k, inPos, normPos + normIdx);
      writes := Store(output, outPos, k.Fill(inPos, normPos + normIdx));
    } else if d + 1 == k.normDim {
      writes := Impl(k, output, outPos, inPos, normPos, true, d + 1);
    } else {
      writes := Impl(k, output, outPos, inPos, normPos + normIdx, false, d + 1);
    }
  }

  lemma RowsNext<I, O, F>(k: Kernel<I, O, F>, d: nat, inPos: int, normPos: int, i: nat)
    requires k.Valid() && d < |k.padded| && i < k.outShape[d]
    ensures Rows(k, d, inPos, normPos, i + 1)
            == Rows(k, d, inPos, normPos, i)
               + Block(k, d + 1, inPos + Steps(i, k.inStrides[d]), normPos + NormStep(k, d, i))
  {
  }

  lemma {:induction false} RowsPadded<I, O, F>(k: Kernel<I, O, F>, d: nat, inPos: int, normPos: int, i: nat)
    requires k.Valid() && d < |k.padded| && k.outShape[d] <= i
    ensures Rows(k, d, inPos, normPos, i)
            == Rows(k, d, inPos, normPos, k.outShape[d])
               + Blank(k.ops.zero, Steps(i - k.outShape[d], Volume(k.padded[d + 1..])))
  {
    var v := Volume(k.padded[d + 1..]);
    if i > k.outShape[d] {
      RowsPadded(k, d, inPos, normPos, i - 1);
      BlankSplit(k.ops.zero, Steps(i - 1 - k.outShape[d], v), v);
    }
  }

  lemma BlockSplit<I, O, F>(k: Kernel<I, O, F>, d: nat, inPos: int, normPos: int)
    requires k.Valid() && d < |k.padded|
    ensures Block(k, d, inPos, normPos)
            == Rows(k, d, inPos, normPos, k.outShape[d]) + Blank(k.ops.zero, PadCells(k, k.outShape[d], d))
    ensures Volume(k.padded[d..]) == PadCells(k, 0, d)
            == |Rows(k, d, inPos, normPos, k.outShape[d])| + PadCells(k, k.outShape[d], d)
  {
    WholeSlice(k, d);
    RowsPadded(k, d, inPos, normPos, k.padded[d]);
    SplitCells(k.outShape[d], k.padded[d], Volume(k.padded[d + 1..]));
  }

  // The copying loop of one dimension.
  method CopyRows<I, O, F>(k: Kernel<I, O, F>, output: array<O>, start: int, inStart: int,
                           normPos: int, isNormDim: bool, d: nat)
    returns (outPos: int, ghost writes: seq<int>)
    requires k.Valid() && d < |k.padded|
    requires isNormDim <==> k.normalizing && d == k.normDim
    requires !k.normalizing ==> k.normDim == 0
    requires 0 <= start && start + PadCells(k, 0, d) <= output.Length
    requires ReadsSafe(k, d, inStart, normPos)
    modifies output
    ensures var rows := Rows(k, d, inStart, normPos, k.outShape[d]);
            && Wrote(old(output[..]), output[..], start, rows)
            && outPos == start + |rows|
            && writes == Consecutive(start, |rows|)
    decreases |k.padded| - d, 1
  {
    hide *;
    ghost var v := Volume(k.padded[d + 1..]);
    LoopStart(k, output[..], start, d);
    PadCellsDef(k, 0, d);
    RowsStart(k, d, inStart, normPos);
    ghost var rows := [];
    var inPos := inStart;
    outPos := start;
    writes := [];
    var i := 0;
    while i < k.outShape[d]
      invariant 0 <= i <= k.outShape[d]
      invariant inPos == inStart + Steps(i, k.inStrides[d])
      invariant outPos == start + |rows| && |rows| == Steps(i, v) && rows == Rows(k, d, inStart, normPos, i)
      invariant Wrote(old(output[..]), output[..], start, rows)
      invariant writes == Consecutive(start, |rows|)
    {
      SliceEnd(i, k.padded[d], v);
      StepsNext(i, k.inStrides[d]);
      ReadsSafeStep(k, d, inStart, normPos, i);
      RowsNext(k, d, inStart, normPos, i);
      ghost var mid := output[..];
      ghost var block := Block(k, d + 1, inPos, normPos + NormStep(k, d, i));
      ghost var w := CopySlice(k, output, outPos, inPos, normPos, isNormDim, i, d);
      AppendSlice(old(output[..]), mid, output[..], start, rows, block, writes, w);
      writes, rows := writes + w, rows + block;
      inPos := inPos + k.inStrides[d];
      outPos := outPos + k.outStrides[d];
      i := i + 1;
    }
  }

  /** SliceFlipNormalizePermuteImpl: copies the window of dimensions d and up, clears the padding,
      and leaves everything outside the sub-block alone. Cells are written in increasing order,
      each once. */
  method Impl<I, O, F>(k: Kernel<I, O, F>, output: array<O>, start: int, inStart: int,
                       normPos: int, isNormDim: bool, d: nat)
    returns (ghost writes: seq<int>)
    requires k.Valid() && d < |k.padded|
    requires isNormDim <==> k.normalizing && d == k.normDim
    requires !k.normalizing ==> k.normDim == 0
    requires 0 <= start && start + Volume(k.padded[d..]) <= output.Length
    requires ReadsSafe(k, d, inStart, normPos)
    modifies output
    ensures Wrote(old(output[..]), output[..], start, Block(k, d, inStart, normPos))
    ensures writes == Consecutive(start, Volume(k.padded[d..]))
    decreases |k.padded| - d, 2
  {
    hide *;
    LengthsAgree(k);
    BlockSplit(k, d, inStart, normPos);
    ghost var rows := Rows(k, d, inStart, normPos, k.outShape[d]);
    ghost var pad := Blank(k.ops.zero, PadCells(k, k.outShape[d], d));
    var outPos;
    outPos, writes := CopyRows(k, output, start, inStart, normPos, isNormDim, d);
    ghost var mid := output[..];
    ghost var w := ZeroPad(k, output, outPos, k.outShape[d], d);
    AppendSlice(old(output[..]), mid, output[..], start, rows, pad, writes, w);
    writes := writes + w;
  }

  // ---- cell by cell -----------------------------------------------------------------------------

  ghost function CellAt<I, O, F>(k: Kernel<I, O, F>, d: nat, inPos: int, normPos: int, j: seq<int>): O
    requires k.Valid() && d <= |k.padded| && InBounds(k.padded[d..], j)
  {
    var p, q := inPos + Dot(k.inStrides[d..], j), normPos + NormIndex(k, d, j);
    if InBounds(k.outShape[d..], j) && k.ReadsAt(p, q) then k.Fill(p, q) else k.ops.zero
  }

  lemma {:induction false} RowsCell<I, O, F>(k: Kernel<I, O, F>, d: nat, inPos: int, normPos: int,
                                             n: nat, i: nat, r: nat)
    requires k.Valid() && d < |k.padded| && i < n && r < Volume(k.padded[d + 1..])
    ensures 0 <= Steps(i, Volume(k.padded[d + 1..])) + r < Steps(n, Volume(k.padded[d + 1..]))
    ensures Rows(k, d, inPos, normPos, n)[Steps(i, Volume(k.padded[d + 1..])) + r]
            == if i < k.outShape[d]
               then Block(k, d + 1, inPos + Steps(i, k.inStrides[d]), normPos + NormStep(k, d, i))[r]
               else k.ops.zero
  {
    var v := Volume(k.padded[d + 1..]);
    SliceEnd(i, n, v);
    if i < n - 1 {
      RowsCell(k, d, inPos, normPos, n - 1, i, r);
    }
  }

  lemma CellStep<I, O, F>(k: Kernel<I, O, F>, d: nat, inPos: int, normPos: int, j: seq<int>)
    requires k.Valid() && d < |k.padded| && InBounds(k.padded[d..], j)
    ensures InBounds(k.padded[d + 1..], j[1..])
    ensures CellAt(k, d, inPos, normPos, j)
            == if j[0] < k.outShape[d]
               then CellAt(k, d + 1, inPos + Steps(j[0], k.inStrides[d]), normPos + NormStep(k, d, j[0]), j[1..])
               else k.ops.zero
  {
    hide Dot, NormIndex, NormStep, Steps, RowMajor, Kernel.ReadsAt, Kernel.Fill;
    var i, rest := j[0], j[1..];
    assert j == [i] + rest && 0 <= i;
    BoundsStep(k.padded, d, i, rest);
    BoundsStep(k.outShape, d, i, rest);
    DotStep(k, d, i, rest);
    NormIndexStep(k, d, i, rest);
  }

  lemma CellBase<I, O, F>(k: Kernel<I, O, F>, inPos: int, normPos: int, j: seq<int>)
    requires k.Valid() && InBounds(k.padded[|k.padded|..], j)
    ensures Block(k, |k.padded|, inPos, normPos) == [CellAt(k, |k.padded|, inPos, normPos, j)]
    ensures Flat(k.padded[|k.padded|..], j) == 0
  {
    assert j == [] && k.outShape[|k.padded|..] == [] && k.inStrides[|k.padded|..] == [];
  }

  lemma FlatStep<I, O, F>(k: Kernel<I, O, F>, d: nat, inPos: int, normPos: int, j: seq<int>)
    requires k.Valid() && d < |k.padded| && InBounds(k.padded[d..], j)
    ensures |k.outShape| == |k.inStrides| == |k.padded| == |j| + d && 0 <= j[0] < k.padded[d]
    ensures InBounds(k.padded[d + 1..], j[1..])
    ensures 0 <= Flat(k.padded[d + 1..], j[1..]) < Volume(k.padded[d + 1..])
    ensures Flat(k.padded[d..], j)
            == Steps(j[0], Volume(k.padded[d + 1..])) + Flat(k.padded[d + 1..], j[1..])
    ensures Block(k, d, inPos, normPos) == Rows(k, d, inPos, normPos, k.padded[d])
  {
    assert k.padded[d..][1..] == k.padded[d + 1..];
    InBoundsTail(k.padded[d..], j);
    FlatInVolume(k.padded[d + 1..], j[1..]);
    StepsIsProduct(j[0], Volume(k.padded[d + 1..]));
  }

  /** The nested copy is the coordinate formula. */
  lemma {:induction false} BlockCell<I, O, F>(k: Kernel<I, O, F>, d: nat, inPos: int, normPos: int, j: seq<int>)
    requires k.Valid() && d <= |k.padded| && InBounds(k.padded[d..], j)
    ensures 0 <= Flat(k.padded[d..], j) < Volume(k.padded[d..])
    ensures Block(k, d, inPos, normPos)[Flat(k.padded[d..], j)] == CellAt(k, d, inPos, normPos, j)
    decreases |k.padded| - d
  {
    hide *;
    FlatInVolume(k.padded[d..], j);
    if d == |k.padded| {
      CellBase(k, inPos, normPos, j);
    } else {
      CellStep(k, d, inPos, normPos, j);
      FlatStep(k, d, inPos, normPos, j);
      RowsCell(k, d, inPos, normPos, k.padded[d], j[0], Flat(k.padded[d + 1..], j[1..]));
      if j[0] < k.outShape[d] {
        BlockCell(k, d + 1, inPos + Steps(j[0], k.inStrides[d]), normPos + NormStep(k, d, j[0]), j[1..]);
      }
    }
  }

  // ---- the kernel ---------------------------------------------------------------------------------

  ghost predicate ValidCall<I, F>(args: Args<F>, inShape: Shape, input: seq<I>) {
    WellFormed(args) && ValidWindow(args, inShape) && |input| == Volume(inShape)
  }

  ghost function OutputShape<F>(args: Args<F>): (s: Shape)
    requires WellFormed(args)
  {
    Permuted(args.paddedShape, args.perm)
  }

  /** What output coordinate `j` must hold. */
  ghost function Expected<I, O, F>(ops: Ops<I, O, F>, args: Args<F>, inShape: Shape, input: seq<I>, j: seq<int>): O
    requires ValidCall(args, inShape, input) && ValidNormalization(args)
    requires InBounds(OutputShape(args), j)
  {
    if !InWindow(args, j) then ops.zero
    else
      SourceInBounds(args, inShape, j);
      FlatInVolume(inShape, SourceCoord(args, j));
      var x := input[Flat(inShape, SourceCoord(args, j))];
      if args.mean == [] then ops.clamp(x)
      else
        var q := if |args.mean| == 1 then 0 else j[OutputAxis(args.perm, args.normDim)];
        assert |args.mean| > 1 ==>
          j[OutputAxis(args.perm, args.normDim)] < Permuted(args.shape, args.perm)[OutputAxis(args.perm, args.normDim)];
        ops.normalize(x, args.mean[q], args.invStddev[q])
  }

  ghost function Sliced<I, O, F>(ops: Ops<I, O, F>, args: Args<F>, inShape: Shape, input: seq<I>): (r: seq<O>)
    requires ValidCall(args, inShape, input) && ValidNormalization(args)
    ensures |r| == Volume(OutputShape(args))
    ensures forall j :: InBounds(OutputShape(args), j) ==>
              0 <= Flat(OutputShape(args), j) < |r| &&
              r[Flat(OutputShape(args), j)] == Expected(ops, args, inShape, input, j)
  {
    var shape := OutputShape(args);
    var r := seq(Volume(shape), p requires 0 <= p < Volume(shape) =>
      Expected(ops, args, inShape, input, Unflat(shape, p)));
    assert forall j :: InBounds(shape, j) ==>
      0 <= Flat(shape, j) < |r| && r[Flat(shape, j)] == Expected(ops, args, inShape, input, j) by
    {
      forall j | InBounds(shape, j)
        ensures 0 <= Flat(shape, j) < |r| && r[Flat(shape, j)] == Expected(ops, args, inShape, input, j)
      {
        FlatUnflat(shape, j);
      }
    }
    r
  }

  // The loop nest that the compiled arguments start: SliceFlipNormalizePermute's dispatch.
  function Dispatch<I, O, F>(ops: Ops<I, O, F>, p: Processed<F>, input: seq<I>): Kernel<I, O, F> {
    if p.mean != [] then
      Kernel(ops, true, input, p.inStrides, p.outStrides, p.outShape, p.paddedOutShape,
             p.mean, p.invStddev, p.normDim)
    else
      Kernel(ops, false, input, p.inStrides, p.outStrides, p.outShape, p.paddedOutShape, [], [], 0)
  }

  lemma DispatchValid<I, O, F>(ops: Ops<I, O, F>, args: Args<F>, inShape: Shape, input: seq<I>, p: Processed<F>)
    requires ValidCall(args, inShape, input) && ValidNormalization(args) && Compiles(args, inShape, p)
    ensures Dispatch(ops, p, input).Valid()
  {
    hide Reaches, Volume, Dot, Flat;
    forall d | 0 <= d < |p.outShape| ensures p.outShape[d] <= p.paddedOutShape[d] {
      assert args.shape[args.perm[d]] <= args.paddedShape[args.perm[d]];
    }
  }

  // Index into the normalization vectors for output coordinate j.
  lemma DispatchNorm<I, O, F>(ops: Ops<I, O, F>, args: Args<F>, inShape: Shape, input: seq<I>,
                              p: Processed<F>, j: seq<int>)
    requires ValidCall(args, inShape, input) && ValidNormalization(args) && Compiles(args, inShape, p)
    requires InWindow(args, j)
    ensures var q := NormIndex(Dispatch(ops, p, input), 0, j);
            && (|args.mean| > 0 ==> 0 <= q < |args.mean|)
            && (|args.mean| > 1 ==> q == j[OutputAxis(args.perm, args.normDim)])
  {
    hide Reaches, RowMajor, Volume, ValidWindow;
    if |args.mean| > 1 {
      assert OutputAxis(args.perm, args.normDim) == p.normDim;
      assert j[p.normDim] < Permuted(args.shape, args.perm)[p.normDim];
    }
  }

  // The element an output coordinate in the window copies exists, and is the one it shows.
  lemma DispatchRead<I, F>(args: Args<F>, inShape: Shape, input: seq<I>, p: Processed<F>, j: seq<int>)
    requires ValidCall(args, inShape, input) && Compiles(args, inShape, p) && InWindow(args, j)
    ensures p.inputOffset + Dot(p.inStrides, j) == Flat(inShape, SourceCoord(args, j))
    ensures 0 <= Flat(inShape, SourceCoord(args, j)) < |input|
  {
    assert ReachesAt(args, inShape, p.inputOffset, p.inStrides, j);
    SourceInBounds(args, inShape, j);
    FlatInVolume(inShape, SourceCoord(args, j));
  }

  lemma DispatchReadsAt<I, O, F>(ops: Ops<I, O, F>, args: Args<F>, inShape: Shape, input: seq<I>,
                                 p: Processed<F>, j: seq<int>)
    requires ValidCall(args, inShape, input) && ValidNormalization(args) && Compiles(args, inShape, p)
    requires InWindow(args, j)
    ensures var k := Dispatch(ops, p, input);
            k.ReadsAt(p.inputOffset + Dot(k.inStrides, j), NormIndex(k, 0, j))
  {
    hide Reaches, RowMajor, Volume, ValidWindow, Dot, Flat, SourceCoord, InBounds, NormIndex;
    DispatchRead(args, inShape, input, p, j);
    DispatchNorm(ops, args, inShape, input, p, j);
  }

  lemma DispatchReadsSafe<I, O, F>(ops: Ops<I, O, F>, args: Args<F>, inShape: Shape, input: seq<I>, p: Processed<F>)
    requires ValidCall(args, inShape, input) && ValidNormalization(args) && Compiles(args, inShape, p)
    ensures Dispatch(ops, p, input).Valid() && ReadsSafe(Dispatch(ops, p, input), 0, p.inputOffset, 0)
  {
    hide Reaches, RowMajor, Volume, ValidWindow, Dot, Flat, SourceCoord, NormIndex, Kernel.ReadsAt;
    var k := Dispatch(ops, p, input);
    DispatchValid(ops, args, inShape, input, p);
    assert k.outShape[0..] == k.outShape == Permuted(args.shape, args.perm);
    assert k.inStrides[0..] == k.inStrides;
    forall j | InBounds(k.outShape[0..], j)
      ensures k.ReadsAt(p.inputOffset + Dot(k.inStrides[0..], j), 0 + NormIndex(k, 0, j))
    {
      DispatchReadsAt(ops, args, inShape, input, p, j);
    }
  }

  lemma DispatchFill<I, O, F>(ops: Ops<I, O, F>, args: Args<F>, inShape: Shape, input: seq<I>,
                              p: Processed<F>, j: seq<int>, inPos: int, normPos: int)
    requires ValidCall(args, inShape, input) && ValidNormalization(args) && Compiles(args, inShape, p)
    requires InBounds(OutputShape(args), j) && InWindow(args, j)
    requires inPos == p.inputOffset + Dot(p.inStrides, j)
    requires normPos == NormIndex(Dispatch(ops, p, input), 0, j)
    ensures Dispatch(ops, p, input).ReadsAt(inPos, normPos)
    ensures Dispatch(ops, p, input).Fill(inPos, normPos) == Expected(ops, args, inShape, input, j)
  {
    hide Reaches, RowMajor, Volume, ValidWindow, Dot, Flat, SourceCoord, InBounds, NormIndex, IsPermutation;
    DispatchReadsAt(ops, args, inShape, input, p, j);
    DispatchRead(args, inShape, input, p, j);
    DispatchNorm(ops, args, inShape, input, p, j);
  }

  lemma DispatchCell<I, O, F>(ops: Ops<I, O, F>, args: Args<F>, inShape: Shape, input: seq<I>,
                              p: Processed<F>, j: seq<int>)
    requires ValidCall(args, inShape, input) && ValidNormalization(args) && Compiles(args, inShape, p)
    requires Dispatch(ops, p, input).Valid() && InBounds(OutputShape(args), j)
    ensures CellAt(Dispatch(ops, p, input), 0, p.inputOffset, 0, j) == Expected(ops, args, inShape, input, j)
  {
    hide Reaches, RowMajor, Volume, ValidWindow, Dot, Flat, SourceCoord, NormIndex, IsPermutation,
         Kernel.ReadsAt, Kernel.Fill;
    var k := Dispatch(ops, p, input);
    assert k.padded[0..] == k.padded && k.outShape[0..] == k.outShape && k.inStrides[0..] == k.inStrides;
    if InWindow(args, j) {
      DispatchFill(ops, args, inShape, input, p, j, p.inputOffset + Dot(k.inStrides, j), NormIndex(k, 0, j));
    }
  }

  lemma BlockIsSliced<I, O, F>(ops: Ops<I, O, F>, args: Args<F>, inShape: Shape, input: seq<I>, p: Processed<F>)
    requires ValidCall(args, inShape, input) && ValidNormalization(args) && Compiles(args, inShape, p)
    requires Dispatch(ops, p, input).Valid()
    ensures Block(Dispatch(ops, p, input), 0, p.inputOffset, 0) == Sliced(ops, args, inShape, input)
  {
    var k, shape := Dispatch(ops, p, input), OutputShape(args);
    assert k.padded[0..] == k.padded == shape;
    var b, r := Block(k, 0, p.inputOffset, 0), Sliced(ops, args, inShape, input);
    forall q | 0 <= q < Volume(shape) ensures b[q] == r[q] {
      var j := Unflat(shape, q);
      BlockCell(k, 0, p.inputOffset, 0, j);
      DispatchCell(ops, args, inShape, input, p, j);
    }
  }

  /** SliceFlipNormalizePermuteCPU::Setup. Refuses exactly the windows that leave the input or do not
      fit the padded output; otherwise gives the shape that Run fills. */
  method Setup<F>(args: Args<F>, inShape: Shape) returns (r: Option<Shape>)
    requires WellFormed(args) && |inShape| == |args.shape|
    ensures r.Some? <==> ValidWindow(args, inShape)
    ensures r.Some? ==> r.value == OutputShape(args)
  {
    for d := 0 to |inShape|
      invariant forall e :: 0 <= e < d ==>
                  && 0 <= args.anchor[e] && args.anchor[e] + args.shape[e] <= inShape[e]
                  && args.shape[e] <= args.paddedShape[e]
    {
      if !(args.anchor[d] >= 0 && args.anchor[d] + args.shape[d] <= inShape[d]) {
        return None;
      }
      if !(args.shape[d] <= args.paddedShape[d]) {
        return None;
      }
    }
    var shape := Permute(args.paddedShape, args.perm);
    r := Some(shape[..]);
  }

  /** SliceFlipNormalizePermuteCPU::Run. When the normalization vectors fit, the output is the
      coordinate formula everywhere, and every cell is written exactly once, in order. */
  method Run<I, O, F>(ops: Ops<I, O, F>, args: Args<F>, inShape: Shape, input: seq<I>, output: array<O>)
    returns (ok: bool, ghost writes: seq<int>)
    requires ValidCall(args, inShape, input)
    requires output.Length == Volume(OutputShape(args))
    modifies output
    ensures ok <==> ValidNormalization(args)
    ensures ok ==> output[..] == Sliced(ops, args, inShape, input)
    ensures ok ==> writes == Consecutive(0, output.Length)
    ensures !ok ==> output[..] == old(output[..]) && writes == []
  {
    var r := ProcessArgs(args, inShape);
    if r.None? {
      return false, [];
    }
    var p := r.value;
    var k := Dispatch(ops, p, input);
    DispatchReadsSafe(ops, args, inShape, input, p);
    BlockIsSliced(ops, args, inShape, input, p);
    assert k.padded[0..] == OutputShape(args);
    writes := Impl(k, output, 0, p.inputOffset, 0, k.normalizing && k.normDim == 0, 0);
    WroteAll(old(output[..]), output[..], Sliced(ops, args, inShape, input));
    ok := true;
  }

  lemma WroteAll<O>(before: seq<O>, after: seq<O>, block: seq<O>)
    requires Wrote(before, after, 0, block) && |before| == |block|
    ensures after == block
  {
  }
}
