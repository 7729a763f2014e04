/** The GPU slice/flip/normalize/permute/pad kernel: the host-side block descriptors and the
    device function that each thread runs, and their agreement with the coordinate formula
    of the CPU kernel. */
module SliceGpu {
  import opened MachineWord
  import opened TensorIndex
  import opened Permutation
  import opened SliceArgs
  import opened SliceCpu

  const BLOCK_DIM := 512
  const BLOCK_SIZE := 64 * BLOCK_DIM

  // ---- one output element ------------------------------------------------------------------

  // Element conversions. `convert` is the rounding and clamping of a floating-point result.
  datatype Device<!I, !O> = Device(toReal: I -> real, convert: real -> O, clamp: I -> O, padding: O)

  function Scaled(x: real, mean: real, invStddev: real): real {
    (x - mean) * invStddev
  }

  function Normalized<I, O>(dev: Device<I, O>, x: I, mean: real, invStddev: real): O {
    dev.convert(Scaled(dev.toReal(x), mean, invStddev))
  }

  // The same conversions as the CPU kernel writes them, with the padding value in place of 0.
  function CpuOps<I, O>(dev: Device<I, O>): Ops<I, O, real> {
    Ops(dev.clamp, (x: I, mean: real, invStddev: real) => Normalized(dev, x, mean, invStddev), dev.padding)
  }

  // The multiply-add coefficients staged by the host.
  ghost predicate Staged(mean: seq<real>, invStddev: seq<real>, normAdd: seq<real>, normMul: seq<real>) {
    && |mean| == |invStddev| == |normAdd| == |normMul|
    && forall i :: 0 <= i < |mean| ==> normAdd[i] == -mean[i] * invStddev[i] && normMul[i] == invStddev[i]
  }

  /** The fused form gives the CPU kernel's value (in exact arithmetic). */
  lemma FusedNormalization<I, O>(dev: Device<I, O>, x: I, mean: real, invStddev: real, fpout: real)
    requires fpout == dev.toReal(x) * invStddev + -mean * invStddev
    ensures CpuOps(dev).normalize(x, mean, invStddev) == dev.convert(fpout)
  {
    assert Scaled(dev.toReal(x), mean, invStddev) == fpout;
    assert CpuOps(dev).normalize(x, mean, invStddev) == Normalized(dev, x, mean, invStddev);
  }

  /** Host side: negated scaled means and the scales, so that the device needs one fused
      multiply-add per element. */
  method StageNormalization(mean: seq<real>, invStddev: seq<real>) returns (normAdd: array<real>, normMul: array<real>)
    requires |mean| == |invStddev|
    ensures fresh(normAdd) && fresh(normMul)
    ensures Staged(mean, invStddev, normAdd[..], normMul[..])
  {
    normAdd := new real[|mean|];
    normMul := new real[|mean|];
    for i := 0 to |mean|
      invariant forall e :: 0 <= e < i ==> normAdd[e] == -mean[e] * invStddev[e] && normMul[e] == invStddev[e]
    {
      normAdd[i] := -mean[i] * invStddev[i];
      normMul[i] := invStddev[i];
    }
  }

  // Innermost dimensions that need no index arithmetic: not padded and with equal strides.
  ghost predicate Collapsed<I, O, F>(k: Kernel<I, O, F>, dims: nat) {
    && |k.inStrides| == |k.outStrides| == |k.outShape| == |k.padded|
    && 1 <= dims <= |k.padded|
    && (dims < |k.padded| ==> !k.normalizing)
    && forall e :: dims <= e < |k.padded| ==> k.inStrides[e] == k.outStrides[e] && k.outShape[e] == k.padded[e]
  }

  /** The recursion at the head of SliceFlipNormalizePermutePadFunc. */
  method CollapseInner<I, O, F>(k: Kernel<I, O, F>) returns (dims: nat)
    requires k.Valid()
    ensures Collapsed(k, dims)
    ensures dims == 1 || k.normalizing || k.outStrides[dims - 1] != k.inStrides[dims - 1] || k.outShape[dims - 1] != k.padded[dims - 1]
  {
    dims := |k.padded|;
    while dims > 1 && !k.normalizing
          && k.outStrides[dims - 1] == k.inStrides[dims - 1] && k.outShape[dims - 1] == k.padded[dims - 1]
      invariant Collapsed(k, dims)
    {
      dims := dims - 1;
    }
  }

  // What is left of the flat index after the collapsed dimensions is the rest of the input index.
  lemma CollapsedRest<I, O, F>(k: Kernel<I, O, F>, dims: nat, j: seq<int>)
    requires k.Valid() && Collapsed(k, dims) && InBounds(k.padded, j)
    ensures Flat(k.padded[dims..], j[dims..]) == Dot(k.inStrides[dims..], j[dims..])
    ensures InBounds(k.outShape, j) <==> forall e :: 0 <= e < dims ==> j[e] < k.outShape[e]
  {
    assert RowMajor(k.outStrides[dims..], k.padded[dims..]) by {
      forall e | 0 <= e < |k.padded| - dims
        ensures k.outStrides[dims..][e] == Volume(k.padded[dims..][e + 1..])
      {
        assert k.padded[dims..][e + 1..] == k.padded[dims + e + 1..];
      }
    }
    DotIsFlat(k.outStrides[dims..], k.padded[dims..], j[dims..]);
    assert k.outStrides[dims..] == k.inStrides[dims..];
  }

  lemma {:induction false} DotAppend(s: seq<int>, j: seq<int>, d: nat)
    requires |s| == |j| && d <= |s|
    ensures Dot(s, j) == Dot(s[..d], j[..d]) + Dot(s[d..], j[d..])
  {
    if d == 0 {
      assert s[0..] == s && j[0..] == j;
    } else {
      DotAppend(s[1..], j[1..], d - 1);
      assert s[..d][1..] == s[1..][..d - 1] && j[..d][1..] == j[1..][..d - 1];
      assert s[d..] == s[1..][d - 1..] && j[d..] == j[1..][d - 1..];
    }
  }

  // Splitting off the coordinate of dimension d from a flat index.
  lemma PeelCoordinate<I, O, F>(k: Kernel<I, O, F>, j: seq<int>, d: nat)
    requires k.Valid() && InBounds(k.padded, j) && d < |k.padded|
    ensures var idx := Flat(k.padded[d..], j[d..]);
            && k.outStrides[d] > 0
            && idx / k.outStrides[d] == j[d]
            && idx % k.outStrides[d] == Flat(k.padded[d + 1..], j[d + 1..])
            && (k.outStrides[d] == 1 ==> idx == j[d] && Flat(k.padded[d + 1..], j[d + 1..]) == 0)
  {
    var rest, v := Flat(k.padded[d + 1..], j[d + 1..]), Volume(k.padded[d + 1..]);
    assert k.padded[d..][1..] == k.padded[d + 1..] && j[d..][1..] == j[d + 1..];
    FlatInVolume(k.padded[d + 1..], j[d + 1..]);
    assert Flat(k.padded[d..], j[d..]) == j[d] * v + rest;
    hide *;
    DivModOf(j[d], rest, v);
  }

  lemma DivModOf(i: int, r: int, v: int)
    requires 0 <= r < v
    ensures (i * v + r) / v == i && (i * v + r) % v == r
  {
    var x := i * v + r;
    var q, m := x / v, x % v;
    assert x == q * v + m && 0 <= m < v;
    DivModUnique(i, r, q, m, v);
  }

  // Progress of the index loop after the first d dimensions of coordinate j.
  ghost predicate Walked<I, O, F>(k: Kernel<I, O, F>, j: seq<int>, d: nat, idx: int, inIdx: int, normIdx: int)
    requires k.Valid() && |j| == |k.padded| && d <= |k.padded|
  {
    && idx == Flat(k.padded[d..], j[d..])
    && inIdx == Dot(k.inStrides[..d], j[..d])
    && normIdx == (if k.normalizing && k.normDim < d then j[k.normDim] else 0)
    && forall e :: 0 <= e < d ==> j[e] < k.outShape[e]
  }

  lemma WalkStep<I, O, F>(k: Kernel<I, O, F>, j: seq<int>, d: nat, idx: int, inIdx: int, normIdx: int)
    requires k.Valid() && InBounds(k.padded, j) && d < |k.padded| && Walked(k, j, d, idx, inIdx, normIdx)
    requires j[d] < k.outShape[d]
    ensures Walked(k, j, d + 1, Flat(k.padded[d + 1..], j[d + 1..]), inIdx + j[d] * k.inStrides[d],
                   if k.normalizing && d == k.normDim then j[d] else normIdx)
  {
    hide Flat, Volume, Dot, RowMajor;
    DotSnoc(k.inStrides, j, d);
  }

  lemma WalkDone<I, O, F>(k: Kernel<I, O, F>, j: seq<int>, dims: nat, idx: int, inIdx: int, normIdx: int, inPos: int)
    requires k.Valid() && InBounds(k.padded, j) && Collapsed(k, dims) && Walked(k, j, dims, idx, inIdx, normIdx)
    requires ReadsSafe(k, 0, inPos, 0)
    ensures k.ReadsAt(inPos + (inIdx + idx), normIdx)
    ensures CellAt(k, 0, inPos, 0, j) == k.Fill(inPos + (inIdx + idx), normIdx)
  {
    assert k.padded[0..] == k.padded && k.outShape[0..] == k.outShape && k.inStrides[0..] == k.inStrides;
    CollapsedRest(k, dims, j);
    DotAppend(k.inStrides, j, dims);
    hide Flat, Volume, Dot, RowMajor, Kernel.ReadsAt, Kernel.Fill;
    assert NormIndex(k, 0, j) == normIdx;
    assert InBounds(k.outShape[0..], j);
    assert k.ReadsAt(inPos + Dot(k.inStrides[0..], j), 0 + NormIndex(k, 0, j));
  }

  lemma WalkPadded<I, O, F>(k: Kernel<I, O, F>, j: seq<int>, d: nat, inPos: int)
    requires k.Valid() && InBounds(k.padded, j) && d < |k.padded| && j[d] >= k.outShape[d]
    ensures CellAt(k, 0, inPos, 0, j) == k.ops.zero
  {
    assert k.padded[0..] == k.padded && k.outShape[0..] == k.outShape && k.inStrides[0..] == k.inStrides;
    hide Flat, Volume, Dot, RowMajor;
    assert !InBounds(k.outShape, j);
  }

  lemma WalkStart<I, O>(dev: Device<I, O>, k: Kernel<I, O, real>, dims: nat, j: seq<int>, q: int)
    requires k.Valid() && InBounds(k.padded, j) && q == Flat(k.padded, j)
    requires k.ops == CpuOps(dev) && Collapsed(k, dims)
    ensures |k.outStrides| == |k.inStrides| == |k.outShape| == |k.padded| == |j| && 1 <= dims <= |k.padded|
    ensures k.padded[0..] == k.padded && dev.padding == k.ops.zero
    ensures !HasPadding(k) ==> forall d :: 0 <= d < |j| ==> j[d] < k.outShape[d]
    ensures Walked(k, j, 0, q, 0, 0)
  {
    assert k.padded[0..] == k.padded && j[0..] == j;
  }

  // Coordinate of dimension d and what remains of the flat index.
  method NextCoordinate<I, O, F>(k: Kernel<I, O, F>, ghost j: seq<int>, d: nat, dense: bool, idx: int,
                                 ghost inIdx: int, ghost normIdx: int)
    returns (i: int, rest: int)
    requires k.Valid() && InBounds(k.padded, j) && d < |k.padded| && Walked(k, j, d, idx, inIdx, normIdx)
    requires dense ==> k.outStrides[d] == 1
    ensures i == j[d] && 0 <= i && rest == Flat(k.padded[d + 1..], j[d + 1..])
  {
    hide Flat, Volume, Dot, RowMajor;
    PeelCoordinate(k, j, d);
    if dense {
      return idx, 0;
    } else {
      return idx / k.outStrides[d], idx % k.outStrides[d];
    }
  }

  // Conversion of the element that was found.
  method Convert<I, O>(dev: Device<I, O>, k: Kernel<I, O, real>, normAdd: seq<real>, normMul: seq<real>,
                       p: int, normIdx: int)
    returns (v: O)
    requires k.ops == CpuOps(dev) && Staged(k.mean, k.invStddev, normAdd, normMul) && k.ReadsAt(p, normIdx)
    ensures v == k.Fill(p, normIdx)
  {
    var x := k.input[p];
    if k.normalizing {
      var fpout := dev.toReal(x) * normMul[normIdx] + normAdd[normIdx];
      FusedNormalization(dev, x, k.mean[normIdx], k.invStddev[normIdx], fpout);
      return dev.convert(fpout);
    } else {
      return dev.clamp(x);
    }
  }

  // Some dimension of the sample is padded.
  predicate HasPadding<I, O, F>(k: Kernel<I, O, F>)
    requires |k.padded| == |k.outShape|
  {
    exists d :: 0 <= d < |k.padded| && k.padded[d] > k.outShape[d]
  }

  /** Loop body of SliceFlipNormalizePermutePadFunc: output element q is the coordinate formula. */
  method DeviceCell<I, O>(dev: Device<I, O>, k: Kernel<I, O, real>, normAdd: seq<real>, normMul: seq<real>,
                          shouldPad: bool, dims: nat, inPos: int, q: nat)
    returns (v: O)
    requires k.Valid() && k.ops == CpuOps(dev) && Collapsed(k, dims) && Staged(k.mean, k.invStddev, normAdd, normMul)
    requires shouldPad == HasPadding(k)
    requires ReadsSafe(k, 0, inPos, 0) && q < Volume(k.padded)
    ensures k.padded[0..] == k.padded && v == CellAt(k, 0, inPos, 0, Unflat(k.padded, q))
  {
    hide *;
    ghost var j := Unflat(k.padded, q);
    WalkStart(dev, k, dims, j, q);
    var innermostIsDense := k.outStrides[dims - 1] == 1;
    var idx: int, inIdx: int, normIdx: int, d := q, 0, 0, 0;
    while d < dims
      invariant 0 <= d <= dims
      invariant Walked(k, j, d, idx, inIdx, normIdx)
    {
      var i, rest := NextCoordinate(k, j, d, d == dims - 1 && innermostIsDense, idx, inIdx, normIdx);
      if shouldPad && i >= k.outShape[d] {
        WalkPadded(k, j, d, inPos);
        return dev.padding;
      }
      WalkStep(k, j, d, idx, inIdx, normIdx);
      idx := rest;
      if k.normalizing && d == k.normDim {
        normIdx := i;
      }
      inIdx := inIdx + i * k.inStrides[d];
      d := d + 1;
    }
    WalkDone(k, j, dims, idx, inIdx, normIdx, inPos);
    v := Convert(dev, k, normAdd, normMul, inPos + (inIdx + idx), normIdx);
  }

  // ---- block descriptors ---------------------------------------------------------------------

  datatype BlockDesc = BlockDesc(sampleIdx: int, offset: nat, size: nat)

  // Descriptors needed for a sample of n elements.
  function NumBlocks(n: nat): nat {
    (n + BLOCK_SIZE - 1) / BLOCK_SIZE
  }

  function TotalBlocks(sizes: seq<nat>): nat {
    if sizes == [] then 0 else TotalBlocks(sizes[..|sizes| - 1]) + NumBlocks(sizes[|sizes| - 1])
  }

  // Piece b of a sample of n elements.
  function Piece(sample: int, n: nat, b: nat): BlockDesc
    requires b < NumBlocks(n)
  {
    BlockDesc(sample, b * BLOCK_SIZE, if n - b * BLOCK_SIZE < BLOCK_SIZE then n - b * BLOCK_SIZE else BLOCK_SIZE)
  }

  ghost predicate IsPieceList(descs: seq<BlockDesc>, sizes: seq<nat>) {
    && |descs| == TotalBlocks(sizes)
    && forall s: nat, b: nat :: s < |sizes| && b < NumBlocks(sizes[s]) ==>
         PieceAt(descs, sizes, s, b)
  }

  ghost predicate PieceAt(descs: seq<BlockDesc>, sizes: seq<nat>, s: nat, b: nat)
    requires s < |sizes| && b < NumBlocks(sizes[s])
  {
    && TotalBlocks(sizes[..s]) + b < |descs|
    && descs[TotalBlocks(sizes[..s]) + b] == Piece(s, sizes[s], b)
  }

  lemma {:induction false} TotalBlocksMonotone(sizes: seq<nat>, s: nat, t: nat)
    requires s < t <= |sizes|
    ensures TotalBlocks(sizes[..s]) + NumBlocks(sizes[s]) <= TotalBlocks(sizes[..t])
    decreases t - s
  {
    assert sizes[..t][..t - 1] == sizes[..t - 1];
    if s < t - 1 {
      TotalBlocksMonotone(sizes, s, t - 1);
    }
  }

  /** The descriptor loop of Run: with room for exactly TotalBlocks descriptors, it fills all of
      them, sample after sample, each sample cut into consecutive pieces. */
  method MakeBlockDescs(sizes: seq<nat>, descs: array<BlockDesc>)
    requires descs.Length == TotalBlocks(sizes)
    modifies descs
    ensures IsPieceList(descs[..], sizes)
  {
    var blockIdx := 0;
    for i := 0 to |sizes|
      invariant blockIdx == TotalBlocks(sizes[..i])
      invariant forall s: nat, b: nat :: s < i && b < NumBlocks(sizes[s]) ==> PieceAt(descs[..], sizes, s, b)
    {
      TotalBlocksMonotone(sizes, i, |sizes|);
      assert sizes[..|sizes|] == sizes && sizes[..i + 1][..i] == sizes[..i];
      label L:
      blockIdx := CutSample(i, sizes[i], descs, blockIdx);
      forall s: nat, b: nat | s < i + 1 && b < NumBlocks(sizes[s])
        ensures PieceAt(descs[..], sizes, s, b)
      {
        if s < i {
          TotalBlocksMonotone(sizes, s, i);
          assert old@L(PieceAt(descs[..], sizes, s, b));
        }
      }
    }
    assert sizes[..|sizes|] == sizes;
  }

  // The inner loop: one sample.
  method CutSample(sample: int, n: nat, descs: array<BlockDesc>, start: nat) returns (blockIdx: nat)
    requires start + NumBlocks(n) <= descs.Length
    modifies descs
    ensures blockIdx == start + NumBlocks(n)
    ensures forall b: nat :: b < NumBlocks(n) ==> descs[start + b] == Piece(sample, n, b)
    ensures forall p :: 0 <= p < start ==> descs[p] == old(descs[p])
  {
    blockIdx := start;
    var offset, remaining := 0, n;
    ghost var b: nat := 0;
    while remaining > 0
      invariant offset + remaining == n && remaining >= 0 && blockIdx == start + b
      invariant remaining > 0 ==> offset == b * BLOCK_SIZE
      invariant remaining == 0 ==> b == NumBlocks(n)
      invariant b <= NumBlocks(n)
      invariant forall c: nat :: c < b ==> descs[start + c] == Piece(sample, n, c)
      invariant forall p :: 0 <= p < start ==> descs[p] == old(descs[p])
    {
      var size := if remaining < BLOCK_SIZE then remaining else BLOCK_SIZE;
      descs[blockIdx] := BlockDesc(sample, offset, size);
      blockIdx := blockIdx + 1;
      remaining := remaining - size;
      offset := offset + size;
      b := b + 1;
    }
  }

  /** The descriptors tile every sample: element q of sample s lies in exactly one descriptor,
      and no descriptor is empty, too large, or reaches past its sample. */
  lemma PiecesTile(descs: seq<BlockDesc>, sizes: seq<nat>, s: nat, q: nat)
    requires IsPieceList(descs, sizes) && s < |sizes| && q < sizes[s]
    ensures exists i :: 0 <= i < |descs| && Covers(descs[i], s, q)
    ensures forall i, j | 0 <= i < |descs| && 0 <= j < |descs| ::
              Covers(descs[i], s, q) && Covers(descs[j], s, q) ==> i == j
    ensures forall i :: 0 <= i < |descs| ==> Inside(descs[i], sizes)
  {
    forall i | 0 <= i < |descs| ensures Inside(descs[i], sizes) {
      var t, c := PieceOf(descs, sizes, i);
    }
    var b := q / BLOCK_SIZE;
    assert PieceAt(descs, sizes, s, b);
    var p := TotalBlocks(sizes[..s]) + b;
    assert Covers(descs[p], s, q);
    forall i | 0 <= i < |descs| && Covers(descs[i], s, q) ensures i == p {
      var t, c := PieceOf(descs, sizes, i);
    }
  }

  // A piece of a sample: not empty, not larger than a block.
  ghost predicate Inside(d: BlockDesc, sizes: seq<nat>) {
    0 <= d.sampleIdx < |sizes| && 1 <= d.size <= BLOCK_SIZE && d.offset + d.size <= sizes[d.sampleIdx]
  }

  ghost predicate Covers(d: BlockDesc, s: int, q: int) {
    d.sampleIdx == s && d.offset <= q < d.offset + d.size
  }

  lemma PieceOf(descs: seq<BlockDesc>, sizes: seq<nat>, i: int) returns (s: nat, b: nat)
    requires IsPieceList(descs, sizes) && 0 <= i < |descs|
    ensures s < |sizes| && b < NumBlocks(sizes[s]) && i == TotalBlocks(sizes[..s]) + b
    ensures descs[i] == Piece(s, sizes[s], b)
    ensures 1 <= descs[i].size <= BLOCK_SIZE && descs[i].offset + descs[i].size <= sizes[s]
  {
    assert sizes[..|sizes|] == sizes;
    s := SampleOfBlock(sizes, |sizes|, i);
    b := i - TotalBlocks(sizes[..s]);
    assert PieceAt(descs, sizes, s, b);
  }

  lemma {:induction false} SampleOfBlock(sizes: seq<nat>, n: nat, i: nat) returns (s: nat)
    requires n <= |sizes| && i < TotalBlocks(sizes[..n])
    ensures s < n && TotalBlocks(sizes[..s]) <= i < TotalBlocks(sizes[..s]) + NumBlocks(sizes[s])
  {
    assert sizes[..n][..n - 1] == sizes[..n - 1];
    if i < TotalBlocks(sizes[..n - 1]) {
      s := SampleOfBlock(sizes, n - 1, i);
    } else {
      s := n - 1;
    }
  }

  // ---- Setup's block count -----------------------------------------------------------------------

  // Halfway or more above a multiple of the spacing, ties going to the even multiple.
  predicate RoundsUp(n: nat, u: nat)
    requires u > 0
  {
    var q, r := n / u, n % u;
    2 * r > u || (2 * r == u && q % 2 == 1)
  }

  // The float nearest to n, ties to even, when floats near n are multiples of u.
  function RoundTo(n: nat, u: nat): nat
    requires u > 0
  {
    if RoundsUp(n, u) then (n / u + 1) * u else (n / u) * u
  }

  const FLOAT_EXACT := 0x100_0000  // integers up to 2^24 are exact in single precision

  // The floats around n are 2^Exponent(n, 0) apart.
  function Exponent(n: nat, e: nat): (r: nat)
    ensures r >= e && n < FLOAT_EXACT * Pow2(r)
    decreases if n < FLOAT_EXACT * Pow2(e) then 0 else n - e
  {
    if n < FLOAT_EXACT * Pow2(e) then e else Exponent(n, e + 1)
  }

  function Spacing(n: nat): (u: nat)
    ensures u > 0
  {
    Pow2(Exponent(n, 0))
  }

  function ToFloat(n: nat): nat {
    RoundTo(n, Spacing(n))
  }

  // ceil(float(n) / BLOCK_SIZE); dividing by a power of two is exact.
  function CountedBlocks(n: nat): nat {
    (ToFloat(n) + BLOCK_SIZE - 1) / BLOCK_SIZE
  }

  lemma ToFloatExact(n: nat)
    requires n <= FLOAT_EXACT
    ensures ToFloat(n) == n
  {
    assert Pow2(0) == 1 && Pow2(1) == 2;
    if n == FLOAT_EXACT {
      assert Exponent(n, 0) == Exponent(n, 1) == 1;
    }
  }

  lemma RoundParts(q: nat, r: nat, u: nat)
    requires r < u
    ensures RoundTo(q * u + r, u) == if 2 * r < u || (2 * r == u && q % 2 == 0) then q * u else q * u + u
  {
    DivModOf(q, r, u);
    assert (q + 1) * u == q * u + u;
  }

  // With an even number c of spacings below, a * u + r < 2 * w * u more keeps the rounded value
  // within those 2 * w spacings, and it stays at the bottom iff that is at most half a spacing.
  lemma RoundWithinBlock(c: nat, a: nat, r: nat, u: nat, w: nat)
    requires r < u && c % 2 == 0 && a * u + r < w * u
    ensures var x := RoundTo((c + a) * u + r, u);
            && c * u <= x <= c * u + w * u
            && (x == c * u <==> 2 * (a * u + r) <= u)
  {
    hide *;
    RoundParts(c + a, r, u);
    MulMonotone(w, a, u);
    MulMonotone(a + 1, w, u);
    MulMonotone(1, a, u);
    HornerStep(a, 1, 1, u);
    HornerStep(c, 1, a, u);
  }

  /** Setup counts the blocks of a sample right, in floats spaced u apart, exactly when the last
      partial block, if any, is larger than half the spacing. */
  lemma CountExact(n: nat, u: nat, w: nat)
    requires u > 0 && w % 2 == 0 && BLOCK_SIZE == w * u
    ensures (RoundTo(n, u) + BLOCK_SIZE - 1) / BLOCK_SIZE <= NumBlocks(n)
    ensures (RoundTo(n, u) + BLOCK_SIZE - 1) / BLOCK_SIZE == NumBlocks(n)
            <==> n % BLOCK_SIZE == 0 || 2 * (n % BLOCK_SIZE) > u
  {
    hide RoundTo;
    var k, t := n / BLOCK_SIZE, n % BLOCK_SIZE;
    var c, a, r := CutSize(n, u, w, k, t);
    RoundWithinBlock(c, a, r, u, w);
    BlocksBetween(k, t, RoundTo(n, u));
  }

  // A size as spacings below its last partial block, spacings in it, and the rest.
  lemma CutSize(n: nat, u: nat, w: nat, k: nat, t: nat) returns (c: nat, a: nat, r: nat)
    requires u > 0 && w % 2 == 0 && BLOCK_SIZE == w * u && n == k * BLOCK_SIZE + t
    ensures r < u && c % 2 == 0 && t == a * u + r && n == (c + a) * u + r && c * u == k * BLOCK_SIZE
  {
    c, a, r := k * w, t / u, t % u;
    EvenMultiple(k, w);
    HornerStep(k, w, a, u);
  }

  lemma EvenMultiple(k: nat, w: nat)
    requires w % 2 == 0
    ensures k * w % 2 == 0
  {
    var v := w / 2;
    assert k * w == 2 * (k * v);
  }

  lemma BlocksBetween(k: nat, t: nat, x: nat)
    requires t < BLOCK_SIZE && k * BLOCK_SIZE <= x <= (k + 1) * BLOCK_SIZE
    ensures (k * BLOCK_SIZE + t + BLOCK_SIZE - 1) / BLOCK_SIZE == if t == 0 then k else k + 1
    ensures (x + BLOCK_SIZE - 1) / BLOCK_SIZE == if x == k * BLOCK_SIZE then k else k + 1
  {
  }

  lemma {:induction false} ExponentLeast(n: nat, e: nat)
    requires e > 0 ==> n >= FLOAT_EXACT * Pow2(e - 1)
    ensures var r := Exponent(n, e); r > 0 ==> n >= FLOAT_EXACT * Pow2(r - 1)
    decreases if n < FLOAT_EXACT * Pow2(e) then 0 else n - e
  {
    if n >= FLOAT_EXACT * Pow2(e) {
      ExponentLeast(n, e + 1);
    }
  }

  /** When the spacing is a number of whole blocks, the count of the rounded size x is right exactly when
      the size is a float, or rounds up from less than one block below. */
  lemma CountLarge(x: nat, n: nat, u: nat, w: nat, q: nat, r: nat, up: bool)
    requires w > 0 && u == w * BLOCK_SIZE && n == q * u + r && r < u
    requires x == (if up then q * u + u else q * u) && (up ==> r > 0)
    ensures NumBlocks(x) == NumBlocks(n) <==> if up then r + BLOCK_SIZE > u else r == 0
    ensures w == 1 || r == 0 ==> NumBlocks(x) <= NumBlocks(n)
  {
    hide NumBlocks;
    var c, b, t := CutLarge(n, u, w, q, r);
    BlocksAre(n, c + b, t);
    BlocksAre(x, if up then c + w else c, 0);
  }

  lemma BlocksAre(n: nat, k: nat, t: nat)
    requires t < BLOCK_SIZE && n == k * BLOCK_SIZE + t
    ensures NumBlocks(n) == if t == 0 then k else k + 1
  {
  }

  // A size as whole blocks below its rounding, whole blocks above, and the rest.
  lemma CutLarge(n: nat, u: nat, w: nat, q: nat, r: nat) returns (c: nat, b: nat, t: nat)
    requires w > 0 && u == w * BLOCK_SIZE && n == q * u + r && r < u
    ensures t < BLOCK_SIZE && r == b * BLOCK_SIZE + t && n == (c + b) * BLOCK_SIZE + t
    ensures q * u == c * BLOCK_SIZE && q * u + u == (c + w) * BLOCK_SIZE
    ensures b < w && (r + BLOCK_SIZE > u <==> b == w - 1 && t > 0) && (r == 0 <==> b == 0 && t == 0)
  {
    c, b, t := q * w, r / BLOCK_SIZE, r % BLOCK_SIZE;
    HornerStep(q, w, b, BLOCK_SIZE);
    HornerStep(q, w, w, BLOCK_SIZE);
  }

  /** What Setup counts right. While floats are closer than a block, the last partial block, if any, must
      be larger than half their spacing. */
  predicate CountsRight(n: nat) {
    RightFor(n, Spacing(n))
  }

  predicate RightFor(n: nat, u: nat)
    requires u > 0
  {
    if u < BLOCK_SIZE then n % BLOCK_SIZE == 0 || 2 * (n % BLOCK_SIZE) > u
    else if RoundsUp(n, u) then n % u + BLOCK_SIZE > u
    else n % u == 0
  }

  lemma BlockIsPower()
    ensures Pow2(15) == BLOCK_SIZE
  {
    assert Pow2(1) == 2 && Pow2(2) == 4;
    Pow2Add(2, 2);
    Pow2Add(4, 4);
    Pow2Add(4, 2);
    Pow2Add(6, 1);
    Pow2Add(8, 7);
  }

  lemma PowersApart(e: nat, f: nat)
    requires e <= f
    ensures Pow2(f) == Pow2(f - e) * Pow2(e)
  {
    hide Pow2;
    Pow2Add(f - e, e);
  }

  lemma RoundIs(n: nat, u: nat) returns (q: nat, r: nat, up: bool)
    requires u >= BLOCK_SIZE
    ensures n == q * u + r && r < u && (up ==> r > 0) && (IsFloat(n, u) <==> r == 0)
    ensures RoundTo(n, u) == if up then q * u + u else q * u
    ensures RightFor(n, u) <==> if up then r + BLOCK_SIZE > u else r == 0
  {
    q, r, up := n / u, n % u, RoundsUp(n, u);
    RoundParts(q, r, u);
  }

  lemma CountFine(n: nat, u: nat, w: nat)
    requires u > 0 && w % 2 == 0 && BLOCK_SIZE == w * u && u < BLOCK_SIZE
    ensures NumBlocks(RoundTo(n, u)) == NumBlocks(n) <==> RightFor(n, u)
    ensures NumBlocks(RoundTo(n, u)) <= NumBlocks(n)
  {
    hide RoundTo, RoundsUp;
    CountExact(n, u, w);
  }

  lemma CountCoarse(n: nat, u: nat, w: nat)
    requires w > 0 && u == w * BLOCK_SIZE && u >= BLOCK_SIZE
    ensures NumBlocks(RoundTo(n, u)) == NumBlocks(n) <==> RightFor(n, u)
    ensures w == 1 || IsFloat(n, u) ==> NumBlocks(RoundTo(n, u)) <= NumBlocks(n)
  {
    hide *;
    var q, r, up := RoundIs(n, u);
    CountLarge(RoundTo(n, u), n, u, w, q, r, up);
  }

  // A multiple of the spacing.
  predicate IsFloat(n: nat, u: nat)
    requires u > 0
  {
    n % u == 0
  }

  lemma CountByExponent(n: nat, e: nat)
    requires e == Exponent(n, 0)
    ensures CountedBlocks(n) == NumBlocks(n) <==> CountsRight(n)
    ensures e <= 15 || IsFloat(n, Pow2(e)) ==> CountedBlocks(n) <= NumBlocks(n)
  {
    hide Pow2, Exponent, RoundTo, RightFor, NumBlocks, CountedBlocks, Spacing, IsFloat;
    BlockIsPower();
    CountedIs(n);
    if e < 15 {
      PowersApart(e, 15);
      HalfPower(15 - e);
      SmallerPower(e, 15);
      CountFine(n, Pow2(e), Pow2(15 - e));
    } else {
      PowersApart(15, e);
      SmallerPower(15, e);
      OnePower();
      CountCoarse(n, Pow2(e), Pow2(e - 15));
    }
  }

  lemma CountedIs(n: nat)
    ensures CountedBlocks(n) == NumBlocks(RoundTo(n, Spacing(n))) && Spacing(n) == Pow2(Exponent(n, 0))
  {
  }

  lemma OnePower()
    ensures Pow2(0) == 1
  {
  }

  lemma HalfPower(k: nat)
    requires k > 0
    ensures Pow2(k) % 2 == 0
  {
  }

  lemma {:induction false} SmallerPower(e: nat, f: nat)
    requires e <= f
    ensures Pow2(e) <= Pow2(f) && (e < f ==> Pow2(e) < Pow2(f))
    decreases f - e
  {
    if e < f {
      SmallerPower(e, f - 1);
    }
  }

  /** For samples of every size: Setup counts the blocks right exactly when CountsRight holds. */
  lemma CountedBlocksExact(n: nat)
    ensures CountedBlocks(n) == NumBlocks(n) <==> CountsRight(n)
  {
    CountByExponent(n, Exponent(n, 0));
  }

  /** The conversion to single precision: with 24 bits the floats around n are a power of two u apart, and the
      result is the multiple of u that is nearest to n, the even one when n is halfway. */
  lemma ToFloatNearest(n: nat) returns (e: nat, k: nat)
    ensures var u := Pow2(e);
            && n < 0x100_0000 * u && (u == 1 || 2 * n >= 0x100_0000 * u)
            && ToFloat(n) == k * u && 2 * (k * u - n) <= u && 2 * (n - k * u) <= u
            && (2 * (k * u - n) == u || 2 * (n - k * u) == u ==> k % 2 == 0)
  {
    e := Exponent(n, 0);
    ExponentLeast(n, 0);
    OnePower();
    if e > 0 {
      Pow2Step(e);
    }
    var u := Pow2(e);
    k := NearestMultiple(n, u);
  }

  lemma NearestMultiple(n: nat, u: nat) returns (k: nat)
    requires u > 0
    ensures RoundTo(n, u) == k * u && 2 * (k * u - n) <= u && 2 * (n - k * u) <= u
    ensures 2 * (k * u - n) == u || 2 * (n - k * u) == u ==> k % 2 == 0
  {
    hide RoundTo;
    var q, r := n / u, n % u;
    RoundParts(q, r, u);
    HornerStep(1, q, 1, u);
    k := NearestOf(n, u, q, r, q * u, (q + 1) * u);
  }

  lemma NearestOf(n: nat, u: nat, q: nat, r: nat, low: nat, high: nat) returns (k: nat)
    requires r < u && low == q * u && high == (q + 1) * u && high == low + u && n == low + r
    requires RoundTo(n, u) == if 2 * r < u || (2 * r == u && q % 2 == 0) then low else low + u
    ensures RoundTo(n, u) == k * u && 2 * (k * u - n) <= u && 2 * (n - k * u) <= u
    ensures 2 * (k * u - n) == u || 2 * (n - k * u) == u ==> k % 2 == 0
  {
    hide RoundTo;
    k := if 2 * r < u || (2 * r == u && q % 2 == 0) then q else q + 1;
  }

  // Samples of up to 2^24 elements are always counted right; one of 2^24 + 1 is not.
  lemma SmallSamplesCounted(n: nat)
    requires n <= FLOAT_EXACT
    ensures CountedBlocks(n) == NumBlocks(n)
  {
    ToFloatExact(n);
  }

  lemma LargeSampleMiscounted()
    ensures NumBlocks(FLOAT_EXACT + 1) == 513 && CountedBlocks(FLOAT_EXACT + 1) == 512
  {
    var n := FLOAT_EXACT + 1;
    assert Pow2(0) == 1 && Pow2(1) == 2;
    assert Exponent(n, 0) == Exponent(n, 1) == 1;
    assert ToFloat(n) == RoundTo(n, 2) == FLOAT_EXACT;
  }

  lemma {:induction false} TotalBlocksStep(sizes: seq<nat>, i: nat)
    requires i < |sizes|
    ensures TotalBlocks(sizes[..i + 1]) == TotalBlocks(sizes[..i]) + NumBlocks(sizes[i]) <= TotalBlocks(sizes)
  {
    TotalBlocksMonotone(sizes, i, |sizes|);
    assert sizes[..|sizes|] == sizes && sizes[..i + 1][..i] == sizes[..i];
  }

  ghost predicate PermutedSize(shape: Shape, perm: seq<int>, size: nat) {
    |shape| == |perm| && IsPermutation(perm) && size == Volume(Permuted(shape, perm))
  }

  /** Setup's counting loop over the padded shapes, whose running sum is also a float. It makes
      room for exactly the descriptors Run writes iff every sample is counted right. The
      volumes Run uses are those of the permuted shapes. */
  method CountBlocks(shapes: seq<Shape>, perms: seq<seq<int>>, ghost sizes: seq<nat>) returns (blockCount: nat)
    requires |shapes| == |perms| == |sizes|
    requires forall i :: 0 <= i < |shapes| ==> PermutedSize(shapes[i], perms[i], sizes[i])
    requires TotalBlocks(sizes) <= FLOAT_EXACT
    ensures blockCount <= TotalBlocks(sizes)
    ensures blockCount == TotalBlocks(sizes) <==> forall i :: 0 <= i < |sizes| ==> CountsRight(sizes[i])
  {
    hide Volume, Permuted, IsPermutation, Pow2, ToFloat, CountedBlocks, NumBlocks, CountsRight;
    blockCount := 0;
    for i := 0 to |shapes|
      invariant blockCount <= TotalBlocks(sizes[..i])
      invariant blockCount == TotalBlocks(sizes[..i]) <==> forall s :: 0 <= s < i ==> CountsRight(sizes[s])
    {
      var n := Volume(shapes[i]);
      VolumePermuted(shapes[i], perms[i]);
      assert n == sizes[i];
      TotalBlocksStep(sizes, i);
      CountsRightDef(n);
      ToFloatExact(blockCount);
      ToFloatExact(blockCount + CountedBlocks(n));
      blockCount := ToFloat(ToFloat(blockCount) + CountedBlocks(n));
    }
    assert sizes[..|sizes|] == sizes;
  }

  // A sample of at most 2^24 blocks is never counted too high.
  lemma CountsRightDef(n: nat)
    requires NumBlocks(n) <= FLOAT_EXACT
    ensures CountedBlocks(n) <= NumBlocks(n) && (CountedBlocks(n) == NumBlocks(n) <==> CountsRight(n))
  {
    var e := Exponent(n, 0);
    assert n <= FLOAT_EXACT * BLOCK_SIZE;
    ExponentLeast(n, 0);
    BlockIsPower();
    if e > 15 {
      OnlyLargest(n, e);
    }
    CountByExponent(n, e);
  }

  lemma OnlyLargest(n: nat, e: nat)
    requires e > 15 && FLOAT_EXACT * Pow2(e - 1) <= n <= FLOAT_EXACT * Pow2(15)
    ensures IsFloat(n, Pow2(e))
  {
    assert Pow2(e - 1) <= Pow2(15);
    assert e == 16 by {
      if e > 16 {
        SmallerPower(15, e - 1);
      }
    }
    assert Pow2(16) == 2 * Pow2(15);
    hide Pow2;
    var half := FLOAT_EXACT / 2;
    assert n == half * Pow2(16);
    ModOfSum(half, 0, Pow2(16));
  }

  // ---- the grid -------------------------------------------------------------------------------------

  // Element q is handled by thread `tid` of block `d`.
  predicate Handles(d: BlockDesc, tid: nat, q: int) {
    d.offset <= q < d.offset + d.size && (q - d.offset) % BLOCK_DIM == tid
  }

  // A sample as the device sees it.
  datatype Sample<!I, !O> = Sample(dev: Device<I, O>, k: Kernel<I, O, real>, inPos: int, output: array<O>)

  ghost predicate ValidSample<I, O>(s: Sample<I, O>, normAdd: seq<real>, normMul: seq<real>) {
    && s.k.Valid() && s.k.ops == CpuOps(s.dev) && Staged(s.k.mean, s.k.invStddev, normAdd, normMul)
    && ReadsSafe(s.k, 0, s.inPos, 0)
    && s.output.Length == Volume(s.k.padded)
  }

  // Contents of element q.
  ghost function CellOf<I, O>(s: Sample<I, O>, q: nat): O
    requires s.k.Valid() && q < Volume(s.k.padded)
  {
    assert s.k.padded[0..] == s.k.padded;
    CellAt(s.k, 0, s.inPos, 0, Unflat(s.k.padded, q))
  }

  /** One thread of SliceFlipNormalizePermutePadKernel: strides over its block and writes its own
      elements, nothing else. */
  method Thread<I, O>(s: Sample<I, O>, normAdd: seq<real>, normMul: seq<real>, block: BlockDesc, tid: nat)
    requires ValidSample(s, normAdd, normMul) && tid < BLOCK_DIM
    requires block.offset + block.size <= s.output.Length
    modifies s.output
    ensures forall q :: 0 <= q < s.output.Length ==>
              s.output[q] == if Handles(block, tid, q) then CellOf(s, q) else old(s.output[q])
  {
    hide Volume, Flat, Dot, CellAt, ReadsSafe, RowMajor, CellOf, HasPadding, Handles, Staged;
    assert |s.k.padded| == |s.k.outShape|;
    var shouldPad := HasPadding(s.k);
    var dims := CollapseInner(s.k);
    var offset := block.offset + tid;
    NoneHandled(block, tid);
    while offset < block.offset + block.size
      invariant block.offset <= offset && (offset - block.offset) % BLOCK_DIM == tid
      invariant forall q :: 0 <= q < s.output.Length ==>
                  s.output[q] == if Handles(block, tid, q) && q < offset then CellOf(s, q) else old(s.output[q])
    {
      var v := DeviceCell(s.dev, s.k, normAdd, normMul, shouldPad, dims, s.inPos, offset);
      assert v == CellOf(s, offset) by { CellOfDef(s, offset); }
      s.output[offset] := v;
      NextHandled(block, tid, offset);
      offset := offset + BLOCK_DIM;
    }
    AllHandled(block, tid, offset);
  }

  lemma NoneHandled(d: BlockDesc, tid: nat)
    requires tid < BLOCK_DIM
    ensures forall q :: Handles(d, tid, q) ==> q >= d.offset + tid
    ensures (d.offset + tid - d.offset) % BLOCK_DIM == tid
  {
  }

  lemma NextHandled(d: BlockDesc, tid: nat, offset: nat)
    requires d.offset <= offset < d.offset + d.size && (offset - d.offset) % BLOCK_DIM == tid
    ensures (offset + BLOCK_DIM - d.offset) % BLOCK_DIM == tid
    ensures forall q :: Handles(d, tid, q) && q < offset + BLOCK_DIM <==> (Handles(d, tid, q) && q < offset) || q == offset
  {
  }

  lemma AllHandled(d: BlockDesc, tid: nat, offset: nat)
    requires offset >= d.offset + d.size
    ensures forall q :: Handles(d, tid, q) ==> q < offset
  {
  }

  lemma CellOfDef<I, O>(s: Sample<I, O>, q: nat)
    requires s.k.Valid() && q < Volume(s.k.padded)
    ensures s.k.padded[0..] == s.k.padded && CellOf(s, q) == CellAt(s.k, 0, s.inPos, 0, Unflat(s.k.padded, q))
  {
    assert s.k.padded[0..] == s.k.padded;
  }

  function OutputSizes<I, O>(samples: seq<Sample<I, O>>): (r: seq<nat>)
    ensures |r| == |samples|
  {
    seq(|samples|, i requires 0 <= i < |samples| => Volume(samples[i].k.padded))
  }

  // Element q of sample s is handled by one of the first n scheduled (block, thread) pairs.
  ghost predicate Scheduled(descs: seq<BlockDesc>, order: seq<(nat, nat)>, n: nat, s: nat, q: nat)
    requires n <= |order| && forall r :: 0 <= r < |order| ==> order[r].0 < |descs|
  {
    exists r :: 0 <= r < n && descs[order[r].0].sampleIdx == s && Handles(descs[order[r].0], order[r].1, q)
  }

  lemma EverythingScheduled<I, O>(samples: seq<Sample<I, O>>, descs: seq<BlockDesc>, order: seq<(nat, nat)>, s: nat, q: nat)
    requires IsPieceList(descs, OutputSizes(samples))
    requires forall r :: 0 <= r < |order| ==> order[r].0 < |descs|
    requires forall b: nat, t: nat :: b < |descs| && t < BLOCK_DIM ==> (b, t) in order
    requires s < |samples| && q < OutputSizes(samples)[s]
    ensures Scheduled(descs, order, |order|, s, q)
  {
    PiecesTile(descs, OutputSizes(samples), s, q);
    var b: nat :| b < |descs| && Covers(descs[b], s, q);
    var t := (q - descs[b].offset) % BLOCK_DIM;
    assert (b, t) in order;
    var r :| 0 <= r < |order| && order[r] == (b, t);
  }

  ghost predicate ValidLaunch<I, O>(samples: seq<Sample<I, O>>, normAdd: seq<real>, normMul: seq<real>,
                                    descs: seq<BlockDesc>, order: seq<(nat, nat)>)
  {
    && (forall s :: 0 <= s < |samples| ==> ValidSample(samples[s], normAdd, normMul))
    && (forall s, t :: 0 <= s < t < |samples| ==> samples[s].output != samples[t].output)
    && IsPieceList(descs, OutputSizes(samples))
    && CoversGrid(order, |descs|)
  }

  // An order in which every thread of every block runs, and no other.
  ghost predicate CoversGrid(order: seq<(nat, nat)>, blocks: nat) {
    && (forall r :: 0 <= r < |order| ==> order[r].0 < blocks && order[r].1 < BLOCK_DIM)
    && (forall b: nat, t: nat :: b < blocks && t < BLOCK_DIM ==> (b, t) in order)
  }

  // Every element of the output is in place.
  ghost predicate Filled<I, O>(s: Sample<I, O>)
    reads s.output
  {
    && s.k.Valid() && s.output.Length == Volume(s.k.padded)
    && forall q: nat :: q < s.output.Length ==> s.output[q] == CellOf(s, q)
  }

  /** A kernel launch: whatever order the threads of all blocks run in, every output element of
      every sample ends up with the coordinate formula. */
  method Launch<I, O>(samples: seq<Sample<I, O>>, normAdd: seq<real>, normMul: seq<real>,
                      descs: seq<BlockDesc>, order: seq<(nat, nat)>)
    requires ValidLaunch(samples, normAdd, normMul, descs, order)
    modifies set s | 0 <= s < |samples| :: samples[s].output
    ensures forall s :: 0 <= s < |samples| ==> Filled(samples[s])
  {
    hide Volume, CellOf, ReadsSafe, Staged, Kernel.Valid;
    for r := 0 to |order|
      invariant forall s: nat, q: nat ::
                  s < |samples| && q < samples[s].output.Length && Scheduled(descs, order, r, s, q) ==>
                    samples[s].output[q] == CellOf(samples[s], q)
    {
      var (b, tid) := order[r];
      var block := descs[b];
      ghost var s0, c := PieceOf(descs, OutputSizes(samples), b);
      var sample := samples[block.sampleIdx];
      label L:
      Thread(sample, normAdd, normMul, block, tid);
      forall s: nat, q: nat | s < |samples| && q < samples[s].output.Length && Scheduled(descs, order, r + 1, s, q)
        ensures samples[s].output[q] == CellOf(samples[s], q)
      {
        if s != s0 {
          assert samples[s].output[q] == old@L(samples[s].output[q]);
        }
      }
    }
    forall s | 0 <= s < |samples| ensures Filled(samples[s]) {
      assert ValidSample(samples[s], normAdd, normMul);
      forall q: nat | q < samples[s].output.Length ensures samples[s].output[q] == CellOf(samples[s], q) {
        EverythingScheduled(samples, descs, order, s, q);
      }
    }
  }

  // A sample compiled from arguments with their own normalization vectors holds the coordinate
  // formula, with the padding value in place of zero.
  lemma GpuMatchesCpu<I, O>(dev: Device<I, O>, args: Args<real>, inShape: Shape, input: seq<I>,
                            p: Processed<real>, output: array<O>, q: nat)
    requires ValidCall(args, inShape, input) && ValidNormalization(args) && Compiles(args, inShape, p)
    requires q < Volume(p.paddedOutShape)
    ensures var s := Sample(dev, Dispatch(CpuOps(dev), p, input), p.inputOffset, output);
            && s.k.Valid() && s.k.padded == p.paddedOutShape
            && q < |Sliced(CpuOps(dev), args, inShape, input)|
            && CellOf(s, q) == Sliced(CpuOps(dev), args, inShape, input)[q]
  {
    var ops := CpuOps(dev);
    var k, shape := Dispatch(ops, p, input), OutputShape(args);
    DispatchValid(ops, args, inShape, input, p);
    assert k.padded[0..] == k.padded == shape;
    hide Volume, Flat, Dot, Compiles, ValidCall, ValidNormalization, Dispatch, CellAt, Expected;
    var j := Unflat(shape, q);
    DispatchCell(ops, args, inShape, input, p, j);
  }
}
