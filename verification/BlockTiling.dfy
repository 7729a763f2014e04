/** Block layout for GPU kernels: cutting every sample into blocks, or one grid for a uniform batch. */
module BlockTiling {
  import opened TensorIndex

  datatype BlockDesc = BlockDesc(sample: nat, start: seq<int>, end: seq<int>)

  function Min(a: int, b: int): int {
    if b < a then b else a
  }

  function DivCeil(total: nat, grain: nat): nat
    requires grain > 0
  {
    (total + grain - 1) / grain
  }

  lemma DivCeilBounds(total: nat, grain: nat)
    requires grain > 0
    ensures var n := DivCeil(total, grain); total <= n * grain && (n > 0 ==> (n - 1) * grain < total) && (total > 0 <==> n > 0)
  {
    var n, x := DivCeil(total, grain), total + grain - 1;
    assert x == n * grain + x % grain;
    if n == 0 {
      assert total == 0;
    }
    if total == 0 {
      DivModUnique(n, x % grain, 0, x, grain);
    }
  }

  // The least count of grains that covers the total.
  lemma DivCeilLeast(total: nat, grain: nat, m: nat)
    requires grain > 0 && total <= m * grain
    ensures DivCeil(total, grain) <= m
  {
    DivCeilBounds(total, grain);
    MulMonotone(m, DivCeil(total, grain) - 1, grain);
  }

  // ---- shapes and sizes ----------------------------------------------------------------------------

  function Reversed<T>(s: seq<T>): (r: seq<T>)
    ensures |r| == |s| && forall i :: 0 <= i < |s| ==> r[|s| - 1 - i] == s[i]
  {
    seq(|s|, i requires 0 <= i < |s| => s[|s| - 1 - i])
  }

  function SkipDim<T>(shape: seq<T>, skip: int): seq<T>
    requires skip < |shape|
  {
    if skip < 0 then shape else shape[..skip] + shape[skip + 1..]
  }

  method Shape2Vec(shape: seq<nat>) returns (v: seq<nat>)
    ensures v == Reversed(shape)
  {
    var n := |shape|;
    var ret := new nat[n](_ => 0);
    for i := 0 to n
      invariant forall j :: 0 <= j < i ==> ret[n - 1 - j] == shape[j]
    {
      ret[n - 1 - i] := shape[i];
    }
    v := ret[..];
    forall k | 0 <= k < n ensures v[k] == Reversed(shape)[k] {
      assert ret[n - 1 - (n - 1 - k)] == shape[n - 1 - k];
    }
  }

  function Shape2Size(shape: seq<nat>, channelDim: int): seq<nat>
    requires channelDim < |shape|
  {
    Reversed(SkipDim(shape, channelDim))
  }

  /** The output shape of a sample keeps the channels of the input and has the requested size
      everywhere else. */
  method OutputShape(inShape: seq<nat>, outputSize: seq<nat>, channelDim: int) returns (shape: seq<nat>)
    requires -1 <= channelDim < |inShape| && |inShape| == if channelDim < 0 then |outputSize| else |outputSize| + 1
    ensures |shape| == |inShape| && SkipDim(shape, channelDim) == outputSize
    ensures channelDim >= 0 ==> shape[channelDim] == inShape[channelDim]
  {
    shape := [];
    var inD := 0;
    for j := 0 to |inShape|
      invariant |shape| == j && inD == (if 0 <= channelDim < j then j - 1 else j)
      invariant 0 <= channelDim < j ==> shape[channelDim] == inShape[channelDim]
      invariant forall k :: 0 <= k < j && (channelDim < 0 || k < channelDim) ==> shape[k] == outputSize[k]
      invariant channelDim >= 0 ==> forall k :: channelDim < k < j ==> shape[k] == outputSize[k - 1]
    {
      if j == channelDim {
        shape := shape + [inShape[channelDim]];
      } else {
        shape := shape + [outputSize[inD]];
        inD := inD + 1;
      }
    }
    var rest := SkipDim(shape, channelDim);
    forall k | 0 <= k < |outputSize| ensures rest[k] == outputSize[k] {
      if 0 <= channelDim <= k {
        assert rest[k] == shape[k + 1];
      }
    }
  }

  // ---- cutting a sample -------------------------------------------------------------------------------

  // Blocks have a positive extent along every axis on which there is something to cut.
  ghost predicate Cuttable(size: seq<nat>, blockSize: seq<nat>) {
    |size| == |blockSize| && forall e :: 0 <= e < |size| && size[e] > 0 ==> blockSize[e] > 0
  }

  function Slab(blk: BlockDesc, size: seq<nat>, blockSize: seq<nat>, d: nat, i: nat): BlockDesc
    requires d < |size| == |blockSize| == |blk.start| == |blk.end|
  {
    blk.(start := blk.start[d := i], end := blk.end[d := Min(i + blockSize[d], size[d])])
  }

  // The blocks made from position i on along axis d, and along the axes below it.
  ghost function Tiles(blk: BlockDesc, size: seq<nat>, blockSize: seq<nat>, d: nat, i: nat): seq<BlockDesc>
    requires d < |size| == |blk.start| == |blk.end| && Cuttable(size, blockSize)
    decreases d, size[d] - i
  {
    if i >= size[d] then []
    else
      var slab := Slab(blk, size, blockSize, d, i);
      (if d > 0 then Tiles(slab, size, blockSize, d - 1, 0) else [slab]) + Tiles(blk, size, blockSize, d, i + blockSize[d])
  }

  lemma TilesStep(blk: BlockDesc, size: seq<nat>, blockSize: seq<nat>, d: nat, i: nat)
    requires d < |size| == |blk.start| == |blk.end| && Cuttable(size, blockSize) && i < size[d]
    ensures |blockSize| == |size| && blockSize[d] > 0
    ensures var slab := Slab(blk, size, blockSize, d, i);
            Tiles(blk, size, blockSize, d, i) ==
            (if d > 0 then Tiles(slab, size, blockSize, d - 1, 0) else [slab]) + Tiles(blk, size, blockSize, d, i + blockSize[d])
  {
  }

  lemma TilesDone(blk: BlockDesc, size: seq<nat>, blockSize: seq<nat>, d: nat, i: nat)
    requires d < |size| == |blk.start| == |blk.end| && Cuttable(size, blockSize) && i >= size[d]
    ensures Tiles(blk, size, blockSize, d, i) == []
  {
  }

  predicate Covers(b: BlockDesc, p: seq<int>, from: nat) {
    && |b.start| == |b.end| == |p|
    && forall e :: from <= e < |p| ==> b.start[e] <= p[e] < b.end[e]
  }

  function Count(blocks: seq<BlockDesc>, sample: nat, p: seq<int>): nat {
    if blocks == [] then 0
    else Count(blocks[..|blocks| - 1], sample, p)
         + if blocks[|blocks| - 1].sample == sample && Covers(blocks[|blocks| - 1], p, 0) then 1 else 0
  }

  lemma {:induction false} CountConcat(a: seq<BlockDesc>, b: seq<BlockDesc>, sample: nat, p: seq<int>)
    ensures Count(a + b, sample, p) == Count(a, sample, p) + Count(b, sample, p)
  {
    if b == [] {
      assert a + b == a;
    } else {
      assert (a + b)[..|a + b| - 1] == a + b[..|b| - 1];
      CountConcat(a, b[..|b| - 1], sample, p);
    }
  }

  lemma SlabCovers(blk: BlockDesc, size: seq<nat>, blockSize: seq<nat>, d: nat, i: nat, p: seq<int>)
    requires d < |size| == |blockSize| == |blk.start| == |blk.end| && InBounds(size, p) && i < size[d]
    ensures Covers(Slab(blk, size, blockSize, d, i), p, d) <==> Covers(blk, p, d + 1) && i <= p[d] < i + blockSize[d]
  {
    var slab := Slab(blk, size, blockSize, d, i);
    if Covers(slab, p, d) {
      assert forall e :: d < e < |p| ==> blk.start[e] == slab.start[e] && blk.end[e] == slab.end[e];
    }
  }

  lemma CountOne(b: BlockDesc, p: seq<int>)
    ensures Count([b], b.sample, p) == if Covers(b, p, 0) then 1 else 0
  {
    assert [b][..0] == [];
  }

  /** Every point that lies in the block so far, at or behind position i, is in exactly one of the
      blocks that are made; other points are in none. */
  lemma {:induction false} TilesPartition(blk: BlockDesc, size: seq<nat>, blockSize: seq<nat>, d: nat, i: nat, p: seq<int>)
    requires d < |size| == |blk.start| == |blk.end| && Cuttable(size, blockSize) && InBounds(size, p)
    ensures Count(Tiles(blk, size, blockSize, d, i), blk.sample, p) == if Covers(blk, p, d + 1) && p[d] >= i then 1 else 0
    decreases d, size[d] - i
  {
    if i < size[d] {
      var slab, next := Slab(blk, size, blockSize, d, i), i + blockSize[d];
      var first := if d > 0 then Tiles(slab, size, blockSize, d - 1, 0) else [slab];
      var rest := Tiles(blk, size, blockSize, d, next);
      assert Tiles(blk, size, blockSize, d, i) == first + rest;
      assert slab.sample == blk.sample;
      hide Tiles, Count, Covers;
      if d > 0 {
        TilesPartition(slab, size, blockSize, d - 1, 0, p);
      } else {
        CountOne(slab, p);
      }
      TilesPartition(blk, size, blockSize, d, next, p);
      SlabCovers(blk, size, blockSize, d, i, p);
      CountConcat(first, rest, blk.sample, p);
    }
  }

  // A block within bounds, not empty and no larger than the block size, on axes 0 to d.
  ghost predicate WellCut(b: BlockDesc, size: seq<nat>, blockSize: seq<nat>, d: int) {
    && |b.start| == |b.end| == |size| == |blockSize| && d < |size|
    && forall e :: 0 <= e <= d ==> 0 <= b.start[e] < b.end[e] <= size[e] && b.end[e] - b.start[e] <= blockSize[e]
  }

  ghost predicate SameAbove(b: BlockDesc, blk: BlockDesc, d: nat) {
    && b.sample == blk.sample && |b.start| == |b.end| == |blk.start| == |blk.end|
    && forall e :: d < e < |b.start| ==> b.start[e] == blk.start[e] && b.end[e] == blk.end[e]
  }

  lemma {:induction false} TilesWellCut(blk: BlockDesc, size: seq<nat>, blockSize: seq<nat>, d: nat, i: nat)
    requires d < |size| == |blk.start| == |blk.end| && Cuttable(size, blockSize)
    ensures forall b :: b in Tiles(blk, size, blockSize, d, i) ==> WellCut(b, size, blockSize, d) && SameAbove(b, blk, d)
    decreases d, size[d] - i
  {
    if i < size[d] {
      var slab, next := Slab(blk, size, blockSize, d, i), i + blockSize[d];
      var rest := Tiles(blk, size, blockSize, d, next);
      TilesWellCut(blk, size, blockSize, d, next);
      if d > 0 {
        var first := Tiles(slab, size, blockSize, d - 1, 0);
        assert Tiles(blk, size, blockSize, d, i) == first + rest;
        TilesWellCut(slab, size, blockSize, d - 1, 0);
        hide Tiles;
        forall b | b in first ensures WellCut(b, size, blockSize, d) && SameAbove(b, blk, d) {
          assert SameAbove(b, slab, d - 1) && b.start[d] == slab.start[d] && b.end[d] == slab.end[d];
        }
      } else {
        assert Tiles(blk, size, blockSize, d, i) == [slab] + rest;
        assert WellCut(slab, size, blockSize, d) && SameAbove(slab, blk, d);
      }
    }
  }

  // The product of the block counts along axes 0 to d - 1.
  function BlocksBelow(size: seq<nat>, blockSize: seq<nat>, d: nat): nat
    requires d <= |size| == |blockSize|
  {
    if d == 0 then 1 else AxisBlocks(size[d - 1], blockSize[d - 1]) * BlocksBelow(size, blockSize, d - 1)
  }

  function AxisBlocks(size: nat, blockSize: nat): nat {
    if size == 0 || blockSize == 0 then 0 else DivCeil(size, blockSize)
  }

  lemma AxisStep(left: nat, blockSize: nat)
    requires left > 0 && blockSize > 0
    ensures DivCeil(left, blockSize) == 1 + if left > blockSize then DivCeil(left - blockSize, blockSize) else 0
  {
    DivCeilBounds(left, blockSize);
    var n := DivCeil(left, blockSize);
    if left > blockSize {
      DivCeilBounds(left - blockSize, blockSize);
      var m := DivCeil(left - blockSize, blockSize);
      MulMonotone(n, m, blockSize);
      MulMonotone(m + 2, n, blockSize);
    } else {
      MulMonotone(2, n, blockSize);
    }
  }

  /** Each sample contributes the product of the per-axis ceilings. */
  lemma {:induction false} TilesCount(blk: BlockDesc, size: seq<nat>, blockSize: seq<nat>, d: nat, i: nat)
    requires d < |size| == |blk.start| == |blk.end| && Cuttable(size, blockSize)
    ensures |Tiles(blk, size, blockSize, d, i)| ==
            (if i < size[d] then AxisBlocks(size[d] - i, blockSize[d]) else 0) * BlocksBelow(size, blockSize, d)
    decreases d, size[d] - i
  {
    if i < size[d] {
      var slab, next := Slab(blk, size, blockSize, d, i), i + blockSize[d];
      var first := if d > 0 then Tiles(slab, size, blockSize, d - 1, 0) else [slab];
      var rest := Tiles(blk, size, blockSize, d, next);
      assert Tiles(blk, size, blockSize, d, i) == first + rest;
      assert d > 0 ==> BlocksBelow(size, blockSize, d) == AxisBlocks(size[d - 1], blockSize[d - 1]) * BlocksBelow(size, blockSize, d - 1);
      var below := BlocksBelow(size, blockSize, d);
      assert d == 0 ==> below == 1;
      hide Tiles, BlocksBelow, DivCeil;
      if d > 0 {
        TilesCount(slab, size, blockSize, d - 1, 0);
      }
      assert |first| == below;
      TilesCount(blk, size, blockSize, d, next);
      AxisStep(size[d] - i, blockSize[d]);
      HornerStep(1, 1, (if next < size[d] then AxisBlocks(size[d] - next, blockSize[d]) else 0), below);
    }
  }

  // ---- uniform batches ---------------------------------------------------------------------------------

  // The final block size along X or Y, from the first estimate.
  function EvenBlock(size: nat, estimate: nat, blockDim: nat): nat
    requires size > 0 && estimate > 0 && blockDim > 0
  {
    var blocksInAxis := DivCeil(size, estimate);
    DivCeilBounds(size, estimate);
    DivCeil(DivCeil(size, blocksInAxis), blockDim) * blockDim
  }

  lemma EvenSize(size: nat, estimate: nat)
    requires size > 0 && estimate > 0
    ensures var n := DivCeil(size, estimate);
            n > 0 && 0 < DivCeil(size, n) <= estimate && n * (DivCeil(size, n) - 1) < size <= n * DivCeil(size, n)
  {
    DivCeilBounds(size, estimate);
    var n := DivCeil(size, estimate);
    DivCeilBounds(size, n);
    DivCeilLeast(size, n, estimate);
  }

  /** The even block is a multiple of the CUDA block dimension, less than one such dimension above
      the estimate, and never needs more blocks than the estimate did. It is the smallest such
      multiple of which that many blocks cover the size. */
  lemma EvenBlockFits(size: nat, estimate: nat, blockDim: nat)
    requires size > 0 && estimate > 0 && blockDim > 0
    ensures var block := EvenBlock(size, estimate, blockDim);
            && block > 0 && block % blockDim == 0 && block < estimate + blockDim
            && DivCeil(size, block) <= DivCeil(size, estimate)
            && DivCeil(size, estimate) * block >= size > DivCeil(size, estimate) * (block - blockDim)
  {
    EvenSize(size, estimate);
    var n := DivCeil(size, estimate);
    var even := DivCeil(size, n);
    DivCeilBounds(even, blockDim);
    var m := DivCeil(even, blockDim);
    var block := EvenBlock(size, estimate, blockDim);
    hide DivCeil, EvenBlock;
    assert block == m * blockDim by { EvenBlockIs(size, estimate, blockDim); }
    MulMonotone(1, m, blockDim);
    DivModUnique(block / blockDim, block % blockDim, m, 0, blockDim);
    MulMonotone(even, block, n);
    assert size <= n * block;
    MulMonotone(block - blockDim, even - 1, n);
    assert n * (block - blockDim) < size;
    DivCeilLeast(size, block, n);
  }

  lemma EvenBlockIs(size: nat, estimate: nat, blockDim: nat)
    requires size > 0 && estimate > 0 && blockDim > 0
    ensures DivCeil(size, estimate) > 0
    ensures EvenBlock(size, estimate, blockDim) == DivCeil(DivCeil(size, DivCeil(size, estimate)), blockDim) * blockDim
  {
    DivCeilBounds(size, estimate);
  }

  /** The layout along X or Y: the block is a multiple of the CUDA block, less than one of those above
      the estimate, and the grid covers the size, has no empty cell and is no longer than estimated. */
  predicate EvenAxis(size: nat, preferred: nat, blockDim: nat, block: nat, grid: nat) {
    var estimate := Min(size, preferred);
    && estimate > 0 && blockDim > 0 && block > 0 && block % blockDim == 0 && block < estimate + blockDim
    && grid == DivCeil(size, block) && grid <= DivCeil(size, estimate)
    && DivCeil(size, estimate) * block >= size > DivCeil(size, estimate) * (block - blockDim)
    && grid * block >= size > (grid - 1) * block
  }

  lemma EvenAxisHolds(size: nat, preferred: nat, blockDim: nat)
    requires size > 0 && preferred > 0 && blockDim > 0
    ensures var block := EvenBlock(size, Min(size, preferred), blockDim);
            block > 0 && EvenAxis(size, preferred, blockDim, block, DivCeil(size, block))
  {
    hide EvenBlock, DivCeil;
    var estimate := Min(size, preferred);
    EvenBlockFits(size, estimate, blockDim);
    DivCeilBounds(size, EvenBlock(size, estimate, blockDim));
  }

  /** Along an axis, every point has exactly one grid cell and every cell has a point. */
  lemma GridTiles(size: nat, block: nat)
    requires size > 0 && block > 0
    ensures forall x :: 0 <= x < size ==> 0 <= x / block < DivCeil(size, block)
    ensures forall g :: 0 <= g < DivCeil(size, block) ==> 0 <= g * block < size
    ensures forall x, g :: 0 <= x < size && g * block <= x < (g + 1) * block ==> g == x / block
  {
    hide DivCeil;
    forall x | 0 <= x < size ensures 0 <= x / block < DivCeil(size, block) {
      CellOfPoint(size, block, x);
    }
    forall g | 0 <= g < DivCeil(size, block) ensures 0 <= g * block < size {
      CellHasPoint(size, block, g);
    }
    forall x, g | 0 <= x < size && g * block <= x < (g + 1) * block ensures g == x / block {
      CellUnique(block, x, g);
    }
  }

  lemma CellOfPoint(size: nat, block: nat, x: nat)
    requires x < size && block > 0
    ensures 0 <= x / block < DivCeil(size, block)
    ensures (x / block) * block <= x < (x / block) * block + block
  {
    hide DivCeil;
    DivCeilBounds(size, block);
    AxisCovers(block, x, x / block);
    StaysBelow(x / block, DivCeil(size, block), block, x, size);
  }

  lemma StaysBelow(q: nat, n: nat, block: nat, x: nat, size: nat)
    requires q * block <= x < size <= n * block
    ensures q < n
  {
    MulMonotone(n, q, block);
  }

  lemma CellHasPoint(size: nat, block: nat, g: nat)
    requires block > 0 && g < DivCeil(size, block)
    ensures 0 <= g * block < size
  {
    DivCeilBounds(size, block);
    hide DivCeil;
    MulMonotone(g, DivCeil(size, block) - 1, block);
  }

  lemma CellUnique(block: nat, x: nat, g: int)
    requires block > 0 && g * block <= x < (g + 1) * block
    ensures g == x / block
  {
    HornerStep(g, 1, 1, block);
    DivModUnique(g, x - g * block, x / block, x % block, block);
  }

  // ---- the object ------------------------------------------------------------------------------------------

  ghost predicate AllPositive(v: seq<nat>) {
    forall e :: 0 <= e < |v| ==> v[e] > 0
  }

  // The choices made per axis before they are cut off at the size of the sample.
  function VariableExtent(size: seq<nat>, defaults: seq<nat>, maxElements: nat, e: nat): nat
    requires e < |size| == |defaults| && maxElements > 0
  {
    if e < 2 then defaults[e]
    else if e == 2 && Volume(size) / maxElements > 1 then Volume(size) / maxElements
    else 1
  }

  // The tiles of all samples, in order.
  ghost function AllTiles(sizes: seq<seq<nat>>, blockSizes: seq<seq<nat>>): seq<BlockDesc>
    requires |sizes| == |blockSizes|
    requires forall i :: 0 <= i < |sizes| ==> |sizes[i]| > 0 && Cuttable(sizes[i], blockSizes[i])
  {
    if sizes == [] then []
    else
      var n := |sizes| - 1;
      AllTiles(sizes[..n], blockSizes[..n]) + SampleTiles(n, sizes[n], blockSizes[n])
  }

  ghost function SampleTiles(sample: nat, size: seq<nat>, blockSize: seq<nat>): seq<BlockDesc>
    requires |size| > 0 && Cuttable(size, blockSize)
  {
    Tiles(Uncut(sample, |size|), size, blockSize, |size| - 1, 0)
  }

  function Uncut(sample: nat, dims: nat): BlockDesc {
    BlockDesc(sample, seq(dims, _ => 0), seq(dims, _ => 0))
  }

  lemma {:induction false} CountOtherSample(blocks: seq<BlockDesc>, sample: nat, p: seq<int>)
    requires forall b :: b in blocks ==> b.sample != sample
    ensures Count(blocks, sample, p) == 0
  {
    if blocks != [] {
      assert blocks[|blocks| - 1] in blocks;
      CountOtherSample(blocks[..|blocks| - 1], sample, p);
    }
  }

  lemma SampleTilesOf(sample: nat, size: seq<nat>, blockSize: seq<nat>)
    requires |size| > 0 && Cuttable(size, blockSize)
    ensures forall b :: b in SampleTiles(sample, size, blockSize) ==> b.sample == sample && WellCut(b, size, blockSize, |size| - 1)
    ensures |SampleTiles(sample, size, blockSize)| == BlocksBelow(size, blockSize, |size|)
  {
    var blk := Uncut(sample, |size|);
    TilesWellCut(blk, size, blockSize, |size| - 1, 0);
    TilesCount(blk, size, blockSize, |size| - 1, 0);
  }

  /** Every point of every sample is in exactly one of the blocks made for it. */
  lemma {:induction false} AllTilesPartition(sizes: seq<seq<nat>>, blockSizes: seq<seq<nat>>, sample: nat, p: seq<int>)
    requires |sizes| == |blockSizes| && sample < |sizes| && InBounds(sizes[sample], p)
    requires forall i :: 0 <= i < |sizes| ==> |sizes[i]| > 0 && Cuttable(sizes[i], blockSizes[i])
    ensures Count(AllTiles(sizes, blockSizes), sample, p) == 1
    decreases |sizes|
  {
    var n := |sizes| - 1;
    var front, last := AllTiles(sizes[..n], blockSizes[..n]), SampleTiles(n, sizes[n], blockSizes[n]);
    hide Tiles, InBounds, Cuttable, Count;
    CountConcat(front, last, sample, p);
    SampleTilesOf(n, sizes[n], blockSizes[n]);
    if sample < n {
      AllTilesPartition(sizes[..n], blockSizes[..n], sample, p);
      CountOtherSample(last, sample, p);
    } else {
      EarlierSamples(sizes[..n], blockSizes[..n]);
      CountOtherSample(front, sample, p);
      LastSample(n, sizes[n], blockSizes[n], p);
    }
  }

  lemma LastSample(sample: nat, size: seq<nat>, blockSize: seq<nat>, p: seq<int>)
    requires |size| > 0 && Cuttable(size, blockSize) && InBounds(size, p)
    ensures Count(SampleTiles(sample, size, blockSize), sample, p) == 1
  {
    TilesPartition(Uncut(sample, |size|), size, blockSize, |size| - 1, 0, p);
  }

  lemma {:induction false} EarlierSamples(sizes: seq<seq<nat>>, blockSizes: seq<seq<nat>>)
    requires |sizes| == |blockSizes|
    requires forall i :: 0 <= i < |sizes| ==> |sizes[i]| > 0 && Cuttable(sizes[i], blockSizes[i])
    ensures forall b :: b in AllTiles(sizes, blockSizes) ==>
              b.sample < |sizes| && WellCut(b, sizes[b.sample], blockSizes[b.sample], |sizes[b.sample]| - 1)
    decreases |sizes|
  {
    if sizes != [] {
      var n := |sizes| - 1;
      EarlierSamples(sizes[..n], blockSizes[..n]);
      hide WellCut, Cuttable, SampleTiles;
      SampleTilesOf(n, sizes[n], blockSizes[n]);
      var front := AllTiles(sizes[..n], blockSizes[..n]);
      forall b | b in front ensures b.sample < n && WellCut(b, sizes[b.sample], blockSizes[b.sample], |sizes[b.sample]| - 1) {
        assert sizes[..n][b.sample] == sizes[b.sample] && blockSizes[..n][b.sample] == blockSizes[b.sample];
      }
    }
  }

  function VariableBlock(size: seq<nat>, defaults: seq<nat>, maxElements: nat): (block: seq<nat>)
    requires |size| == |defaults| && maxElements > 0
    ensures |block| == |size|
  {
    seq(|size|, e requires 0 <= e < |size| => Min(size[e], VariableExtent(size, defaults, maxElements, e)) as nat)
  }

  lemma VariableBlockCuts(size: seq<nat>, defaults: seq<nat>, maxElements: nat)
    requires |size| == |defaults| && maxElements > 0 && AllPositive(defaults)
    ensures Cuttable(size, VariableBlock(size, defaults, maxElements))
  {
  }

  ghost predicate Sized(shapes: seq<seq<nat>>, ndim: nat, channelDim: int) {
    forall i :: 0 <= i < |shapes| ==> |shapes[i]| == if channelDim < 0 then ndim else ndim + 1
  }

  ghost function Sizes(shapes: seq<seq<nat>>, ndim: nat, channelDim: int): (r: seq<seq<nat>>)
    requires -1 <= channelDim <= ndim && ndim > 0 && Sized(shapes, ndim, channelDim)
    ensures |r| == |shapes| && forall i :: 0 <= i < |r| ==> |r[i]| == ndim
  {
    seq(|shapes|, i requires 0 <= i < |shapes| => Shape2Size(shapes[i], channelDim))
  }

  ghost function VariableBlocks(sizes: seq<seq<nat>>, defaults: seq<nat>, maxElements: nat): (r: seq<seq<nat>>)
    requires maxElements > 0 && AllPositive(defaults) && forall i :: 0 <= i < |sizes| ==> |sizes[i]| == |defaults|
    ensures |r| == |sizes| && forall i :: 0 <= i < |sizes| ==> Cuttable(sizes[i], r[i])
  {
    var r := seq(|sizes|, i requires 0 <= i < |sizes| => VariableBlock(sizes[i], defaults, maxElements));
    assert forall i :: 0 <= i < |sizes| ==> Cuttable(sizes[i], r[i]) by {
      forall i | 0 <= i < |sizes| ensures Cuttable(sizes[i], r[i]) {
        VariableBlockCuts(sizes[i], defaults, maxElements);
      }
    }
    r
  }

  // The blocks of a batch whose samples are cut separately.
  ghost function BatchTiles(shapes: seq<seq<nat>>, channelDim: int, defaults: seq<nat>, maxElements: nat): seq<BlockDesc>
    requires -1 <= channelDim <= |defaults| && |defaults| > 0 && Sized(shapes, |defaults|, channelDim)
    requires maxElements > 0 && AllPositive(defaults)
  {
    var sizes := Sizes(shapes, |defaults|, channelDim);
    AllTiles(sizes, VariableBlocks(sizes, defaults, maxElements))
  }

  lemma BatchSnoc(shapes: seq<seq<nat>>, channelDim: int, defaults: seq<nat>, maxElements: nat, i: nat)
    requires -1 <= channelDim <= |defaults| && |defaults| > 0 && Sized(shapes, |defaults|, channelDim)
    requires maxElements > 0 && AllPositive(defaults) && i < |shapes|
    ensures channelDim < |shapes[i]| && |Shape2Size(shapes[i], channelDim)| == |defaults|
    ensures var size := Shape2Size(shapes[i], channelDim);
            var block := VariableBlock(size, defaults, maxElements);
            && Cuttable(size, block)
            && BatchTiles(shapes[..i + 1], channelDim, defaults, maxElements) ==
               BatchTiles(shapes[..i], channelDim, defaults, maxElements) + SampleTiles(i, size, block)
  {
    hide VariableBlocks, SampleTiles, VariableBlock, Cuttable, Shape2Size;
    SizesSnoc(shapes, channelDim, |defaults|, i);
    var sizes := Sizes(shapes[..i + 1], |defaults|, channelDim);
    BlocksSnoc(sizes, defaults, maxElements, i);
    hide Sizes;
    assert AllTiles(sizes, VariableBlocks(sizes, defaults, maxElements)) ==
           AllTiles(sizes[..i], VariableBlocks(sizes[..i], defaults, maxElements))
           + SampleTiles(i, sizes[i], VariableBlock(sizes[i], defaults, maxElements));
  }

  lemma SizesSnoc(shapes: seq<seq<nat>>, channelDim: int, ndim: nat, i: nat)
    requires -1 <= channelDim <= ndim && ndim > 0 && Sized(shapes, ndim, channelDim) && i < |shapes|
    ensures channelDim < |shapes[i]| && |Shape2Size(shapes[i], channelDim)| == ndim
    ensures Sizes(shapes[..i + 1], ndim, channelDim)[..i] == Sizes(shapes[..i], ndim, channelDim)
    ensures Sizes(shapes[..i + 1], ndim, channelDim)[i] == Shape2Size(shapes[i], channelDim)
  {
  }

  lemma BlocksSnoc(sizes: seq<seq<nat>>, defaults: seq<nat>, maxElements: nat, i: nat)
    requires maxElements > 0 && AllPositive(defaults) && |sizes| == i + 1
    requires forall j :: 0 <= j < |sizes| ==> |sizes[j]| == |defaults|
    ensures VariableBlocks(sizes, defaults, maxElements)[..i] == VariableBlocks(sizes[..i], defaults, maxElements)
    ensures VariableBlocks(sizes, defaults, maxElements)[i] == VariableBlock(sizes[i], defaults, maxElements)
    ensures Cuttable(sizes[i], VariableBlock(sizes[i], defaults, maxElements))
  {
    hide VariableBlock, Cuttable;
    VariableBlockCuts(sizes[i], defaults, maxElements);
  }

  lemma BatchNone(channelDim: int, defaults: seq<nat>, maxElements: nat)
    requires -1 <= channelDim <= |defaults| && |defaults| > 0 && maxElements > 0 && AllPositive(defaults)
    ensures BatchTiles([], channelDim, defaults, maxElements) == []
  {
  }

  /** A separately cut batch: every point of every sample is in exactly one block, and every block is
      non-empty, within the sample and no larger than the block size chosen for it. */
  lemma BatchPartition(shapes: seq<seq<nat>>, channelDim: int, defaults: seq<nat>, maxElements: nat, sample: nat, p: seq<int>)
    requires -1 <= channelDim <= |defaults| && |defaults| > 0 && Sized(shapes, |defaults|, channelDim)
    requires maxElements > 0 && AllPositive(defaults)
    requires sample < |shapes| && channelDim < |shapes[sample]| && InBounds(Shape2Size(shapes[sample], channelDim), p)
    ensures var tiles := BatchTiles(shapes, channelDim, defaults, maxElements);
            && Count(tiles, sample, p) == 1
            && forall b :: b in tiles ==>
                 && b.sample < |shapes| && channelDim < |shapes[b.sample]|
                 && var size := Shape2Size(shapes[b.sample], channelDim);
                    && |size| == |defaults|
                    && WellCut(b, size, VariableBlock(size, defaults, maxElements), |size| - 1)
  {
    var sizes := Sizes(shapes, |defaults|, channelDim);
    var blocks := VariableBlocks(sizes, defaults, maxElements);
    hide AllTiles, InBounds, WellCut, Cuttable, Shape2Size, VariableBlock;
    AllTilesPartition(sizes, blocks, sample, p);
    EarlierSamples(sizes, blocks);
  }

  lemma PositiveExtents(size: seq<nat>)
    requires |size| >= 2 && AllPositive(size[..2])
    ensures size[0] > 0 && size[1] > 0
  {
    assert size[..2][0] == size[0] && size[..2][1] == size[1];
  }

  // Spreads the blocks evenly along X and Y, in multiples of the CUDA block.
  method EvenOut(size: seq<nat>, estimate: seq<nat>, blockDim: seq<nat>) returns (block: seq<nat>)
    requires |size| == |estimate| >= 2 && |blockDim| >= 2
    requires forall e :: 0 <= e < 2 ==> size[e] > 0 && estimate[e] > 0 && blockDim[e] > 0
    ensures |block| == |estimate| && forall e :: 2 <= e < |block| ==> block[e] == estimate[e]
    ensures forall e :: 0 <= e < 2 ==> block[e] == EvenBlock(size[e], estimate[e], blockDim[e])
  {
    hide EvenBlock, DivCeil;
    block := estimate;
    for i := 0 to 2
      invariant |block| == |estimate| && forall e :: i <= e < |block| ==> block[e] == estimate[e]
      invariant forall e :: 0 <= e < i ==> block[e] == EvenBlock(size[e], estimate[e], blockDim[e])
    {
      EvenBlockIs(size[i], estimate[i], blockDim[i]);
      var blocksInAxis := DivCeil(size[i], block[i]);
      var evenBlockSize := DivCeil(size[i], blocksInAxis);
      block := block[i := DivCeil(evenBlockSize, blockDim[i]) * blockDim[i]];
    }
  }

  // Both axes of a uniform layout, with the other axes in one piece.
  ghost predicate EvenAxes(size: seq<nat>, preferred: seq<nat>, blockDim: seq<nat>, block: seq<nat>, grid: seq<nat>) {
    && |size| == |preferred| == |block| >= 2 && |blockDim| >= 2 && |grid| >= 2
    && EvenAxis(size[0], preferred[0], blockDim[0], block[0], grid[0])
    && EvenAxis(size[1], preferred[1], blockDim[1], block[1], grid[1])
    && forall e :: 2 <= e < |size| ==> block[e] == size[e]
  }

  lemma EvenAxesHold(size: seq<nat>, preferred: seq<nat>, blockDim: seq<nat>, estimate: seq<nat>, block: seq<nat>, n: nat)
    requires |size| == |preferred| == |estimate| == |block| >= 2 && |blockDim| >= 2
    requires forall e :: 0 <= e < 2 ==> size[e] > 0 && preferred[e] > 0 && blockDim[e] > 0
    requires forall e :: 0 <= e < |size| ==> estimate[e] == if e < 2 then Min(size[e], preferred[e]) else size[e]
    requires forall e :: 0 <= e < 2 ==> estimate[e] > 0 && block[e] == EvenBlock(size[e], estimate[e], blockDim[e])
    requires forall e :: 2 <= e < |block| ==> block[e] == estimate[e]
    ensures block[0] > 0 && block[1] > 0
    ensures EvenAxes(size, preferred, blockDim, block, [DivCeil(size[0], block[0]), DivCeil(size[1], block[1]), n])
  {
    hide EvenAxis, EvenBlock, DivCeil;
    EvenAxisHolds(size[0], preferred[0], blockDim[0]);
    EvenAxisHolds(size[1], preferred[1], blockDim[1]);
  }

  // The block that a kernel makes of its place in a uniform grid: z is the sample, and the axes after
  // X and Y are not cut.
  function GridBlock(size: seq<nat>, block: seq<nat>, gx: nat, gy: nat, gz: nat): BlockDesc
    requires |size| == |block| >= 2
  {
    var start := seq(|size|, e requires 0 <= e < |size| => if e == 0 then gx * block[0] else if e == 1 then gy * block[1] else 0);
    BlockDesc(gz, start, seq(|size|, e requires 0 <= e < |size| => Min(start[e] + block[e], size[e])))
  }

  lemma GridAxis(size: seq<nat>, preferred: seq<nat>, blockDim: seq<nat>, block: seq<nat>, grid: seq<nat>, e: nat)
    requires EvenAxes(size, preferred, blockDim, block, grid) && e < 2
    ensures block[e] > 0 && grid[e] == DivCeil(size[e], block[e]) && size[e] > 0
  {
    hide DivCeil;
  }

  /** A uniform grid: every point of every sample is in the block of exactly one place of the grid, and
      the block of every place is within the sample, no larger than the block size and not empty along
      X and Y, nor along an axis that the sample has points on. */
  lemma UniformPartition(size: seq<nat>, preferred: seq<nat>, blockDim: seq<nat>, block: seq<nat>, grid: seq<nat>,
                         sample: nat, p: seq<int>, gx: nat, gy: nat, gz: nat)
    requires EvenAxes(size, preferred, blockDim, block, grid) && |grid| == 3 && sample < grid[2] && InBounds(size, p)
    requires gx < grid[0] && gy < grid[1] && gz < grid[2]
    ensures block[0] > 0 && block[1] > 0 && p[0] / block[0] < grid[0] && p[1] / block[1] < grid[1]
    ensures var b := GridBlock(size, block, gx, gy, gz);
            && (b.sample == sample && Covers(b, p, 0) <==> gx == p[0] / block[0] && gy == p[1] / block[1] && gz == sample)
            && WellCut(b, size, block, |size| - 1)
  {
    hide DivCeil, EvenAxis;
    GridAxis(size, preferred, blockDim, block, grid, 0);
    GridAxis(size, preferred, blockDim, block, grid, 1);
    CellOfPoint(size[0], block[0], p[0]);
    CellOfPoint(size[1], block[1], p[1]);
    CellHasPoint(size[0], block[0], gx);
    CellHasPoint(size[1], block[1], gy);
    GridCovers(size, block, gx, gy, gz, p);
  }

  lemma GridCovers(size: seq<nat>, block: seq<nat>, gx: nat, gy: nat, gz: nat, p: seq<int>)
    requires |size| == |block| >= 2 && block[0] > 0 && block[1] > 0 && InBounds(size, p)
    requires forall e :: 2 <= e < |size| ==> block[e] == size[e]
    ensures Covers(GridBlock(size, block, gx, gy, gz), p, 0) <==> gx == p[0] / block[0] && gy == p[1] / block[1]
  {
    var b := GridBlock(size, block, gx, gy, gz);
    AxisCovers(block[0], p[0], gx);
    AxisCovers(block[1], p[1], gy);
    if Covers(b, p, 0) {
      assert b.start[0] <= p[0] < b.end[0] && b.start[1] <= p[1] < b.end[1];
    }
  }

  lemma AxisCovers(block: nat, x: nat, g: nat)
    requires block > 0
    ensures g * block <= x < g * block + block <==> g == x / block
  {
    assert x == (x / block) * block + x % block;
    if g * block <= x < g * block + block {
      DivModUnique(g, x - g * block, x / block, x % block, block);
    }
  }

  // The extent along Z: the volume in units of the element limit, but at least 1 and at most the size.
  ghost predicate ZExtent(extent: nat, size: nat, volume: nat, limit: nat) {
    && 1 <= extent <= size && (extent == 1 || extent * limit <= volume)
    && (extent == size || volume < (extent + 1) * limit)
  }

  lemma ZExtentIs(size: nat, volume: nat, limit: nat)
    requires size > 0 && limit > 0
    ensures var q := volume / limit;
            var extent := if q < 1 then 1 else q;
            ZExtent(if extent < size then extent else size, size, volume, limit)
  {
    var q := volume / limit;
    assert volume == q * limit + volume % limit;
    HornerStep(q, 1, 1, limit);
    if size <= q {
      MulMonotone(size, q, limit);
    }
  }

  class BlockSetup {
    const ndim: nat
    const channelDim: int
    var blocks: seq<BlockDesc>
    var blockDim: seq<nat>
    var gridDim: seq<nat>
    var uniformBlockSize: seq<nat>
    var uniformOutputSize: seq<nat>
    var defaultBlockSize: seq<nat>
    var maxBlockElements: nat
    var isUniform: bool

    ghost predicate Valid()
      reads this
    {
      && ndim > 0 && -1 <= channelDim <= ndim && |blockDim| == 3 && AllPositive(blockDim)
      && |defaultBlockSize| == ndim && AllPositive(defaultBlockSize) && maxBlockElements == Volume(defaultBlockSize)
      && maxBlockElements > 0
    }

    constructor (ndim: nat, channelDim: int)
      requires ndim > 0 && -1 <= channelDim <= ndim
      ensures Valid() && this.ndim == ndim && this.channelDim == channelDim && blocks == []
      ensures defaultBlockSize == seq(ndim, i => if i < 2 then 256 else 1)
      ensures blockDim == [32, 32, 1] && gridDim == [1, 1, 1] && !isUniform
    {
      this.ndim, this.channelDim := ndim, channelDim;
      var defaults: seq<nat> := seq(ndim, i => if i < 2 then 256 else 1);
      VolumePositive(defaults);
      blocks, blockDim, gridDim := [], [32, 32, 1], [1, 1, 1];
      defaultBlockSize, maxBlockElements := defaults, Volume(defaults);
      uniformBlockSize, uniformOutputSize, isUniform := [], [], false;
    }

    method SetDefaultBlockSize(size: seq<nat>)
      requires Valid() && |size| == ndim && AllPositive(size)
      modifies `defaultBlockSize, `maxBlockElements
      ensures Valid() && defaultBlockSize == size
    {
      VolumePositive(size);
      defaultBlockSize, maxBlockElements := size, Volume(size);
    }

    // The loop along axis d; the axes above it are fixed in `blk`.
    method MakeBlocksAlong(blk: BlockDesc, size: seq<nat>, blockSize: seq<nat>, d: nat)
      requires d < |size| == |blk.start| == |blk.end| && Cuttable(size, blockSize)
      modifies `blocks
      ensures blocks == old(blocks) + Tiles(blk, size, blockSize, d, 0)
      decreases d
    {
      hide Tiles, Cuttable;
      var i: int := 0;
      while i < size[d]
        invariant i >= 0
        invariant blocks + Tiles(blk, size, blockSize, d, i) == old(blocks) + Tiles(blk, size, blockSize, d, 0)
        decreases size[d] - i
      {
        TilesStep(blk, size, blockSize, d, i);
        var b := blk.(start := blk.start[d := i], end := blk.end[d := Min(i + blockSize[d], size[d])]);
        if d > 0 {
          MakeBlocksAlong(b, size, blockSize, d - 1);
        } else {
          blocks := blocks + [b];
        }
        i := i + blockSize[d];
      }
      TilesDone(blk, size, blockSize, d, i);
    }

    method MakeBlocks(sample: nat, size: seq<nat>, blockSize: seq<nat>)
      requires |size| > 0 && Cuttable(size, blockSize)
      modifies `blocks, `gridDim
      ensures blocks == old(blocks) + SampleTiles(sample, size, blockSize) && gridDim == [|blocks|, 1, 1]
    {
      MakeBlocksAlong(Uncut(sample, |size|), size, blockSize, |size| - 1);
      gridDim := [|blocks|, 1, 1];
    }

    method VariableBlockSize(size: seq<nat>) returns (block: seq<nat>)
      requires Valid() && |size| == ndim
      ensures block == VariableBlock(size, defaultBlockSize, maxBlockElements)
      ensures |block| == ndim && forall i :: 0 <= i < ndim ==> size[i] == 0 ==> block[i] == 0
      ensures forall i :: 0 <= i < ndim && i < 2 ==> block[i] == if size[i] < defaultBlockSize[i] then size[i] else defaultBlockSize[i]
      ensures ndim > 2 && size[2] > 0 ==> ZExtent(block[2], size[2], Volume(size), Volume(defaultBlockSize))
      ensures forall i :: 3 <= i < ndim && size[i] > 0 ==> block[i] == 1
    {
      block := [];
      for i := 0 to ndim
        invariant |block| == i && block == VariableBlock(size, defaultBlockSize, maxBlockElements)[..i]
      {
        var extent := 1;
        if i < 2 {
          extent := defaultBlockSize[i];
        } else if i == 2 {
          extent := Volume(size) / maxBlockElements;
          if extent < 1 {
            extent := 1;
          }
        }
        block := block + [if extent < size[i] then extent else size[i]];
      }
      if ndim > 2 && size[2] > 0 {
        ZExtentIs(size[2], Volume(size), Volume(defaultBlockSize));
      }
    }

    method VariableSizeSetup(shapes: seq<seq<nat>>)
      requires Valid() && Sized(shapes, ndim, channelDim) && blocks == []
      modifies `blocks, `gridDim
      ensures blocks == BatchTiles(shapes, channelDim, defaultBlockSize, maxBlockElements)
      ensures shapes != [] ==> gridDim == [|blocks|, 1, 1]
    {
      hide BatchTiles, SampleTiles, VariableBlock, Cuttable, AllPositive;
      BatchNone(channelDim, defaultBlockSize, maxBlockElements);
      assert shapes[..0] == [];
      for i := 0 to |shapes|
        invariant blocks == BatchTiles(shapes[..i], channelDim, defaultBlockSize, maxBlockElements)
        invariant i > 0 ==> gridDim == [|blocks|, 1, 1]
      {
        BatchSnoc(shapes, channelDim, defaultBlockSize, maxBlockElements, i);
        var spatial := SkipDim(shapes[i], channelDim);
        var size := Shape2Vec(spatial);
        var block := VariableBlockSize(size);
        MakeBlocks(i, size, block);
      }
      assert shapes[..|shapes|] == shapes;
    }

    method UniformBlockSizeOf(size: seq<nat>) returns (block: seq<nat>)
      requires Valid() && |size| == ndim
      ensures |block| == ndim
      ensures forall e :: 0 <= e < ndim ==> block[e] == if e < 2 then Min(size[e], defaultBlockSize[e]) else size[e]
    {
      block := [];
      for i := 0 to ndim
        invariant |block| == i
        invariant forall e :: 0 <= e < i ==> block[e] == if e < 2 then Min(size[e], defaultBlockSize[e]) else size[e]
      {
        var extent := if i < 2 then defaultBlockSize[i] else size[i];
        block := block + [if extent < size[i] then extent else size[i]];
      }
    }

    /** A uniform batch: along X and Y the block is a multiple of the CUDA block, close to the
        estimate, and the grid covers the size without an empty row or column. */
    method UniformSizeSetup(shapes: seq<seq<nat>>)
      requires Valid() && Sized(shapes, ndim, channelDim)
      requires shapes != [] ==> ndim >= 2 && channelDim < |shapes[0]| && AllPositive(Shape2Size(shapes[0], channelDim)[..2])
      modifies `uniformOutputSize, `uniformBlockSize, `gridDim
      ensures shapes != [] ==>
                && channelDim < |shapes[0]| && uniformOutputSize == Shape2Size(shapes[0], channelDim)
                && |gridDim| == 3 && gridDim[2] == |shapes|
                && EvenAxes(uniformOutputSize, defaultBlockSize, blockDim, uniformBlockSize, gridDim)
      ensures shapes == [] ==> gridDim == old(gridDim)
    {
      if shapes == [] {
        return;
      }
      hide Reversed, EvenBlock, DivCeil, EvenAxes, Volume, SkipDim, Sized;
      SizesSnoc(shapes, channelDim, ndim, 0);
      PositiveExtents(Shape2Size(shapes[0], channelDim));
      var spatial := SkipDim(shapes[0], channelDim);
      var size := Shape2Vec(spatial);
      uniformOutputSize := size;
      var estimate := UniformBlockSizeOf(size);
      uniformBlockSize := EvenOut(size, estimate, blockDim);
      EvenAxesHold(size, defaultBlockSize, blockDim, estimate, uniformBlockSize, |shapes|);
      gridDim := [DivCeil(size[0], uniformBlockSize[0]), DivCeil(size[1], uniformBlockSize[1]), |shapes|];
    }

    /** Chooses between the two layouts. A uniform grid needs a non-empty X and Y extent. */
    method SetupBlocks(shapes: seq<seq<nat>>, forceVariableSize: bool)
      requires Valid() && Sized(shapes, ndim, channelDim)
      requires !forceVariableSize && Uniform(shapes) && shapes != [] ==>
                 ndim >= 2 && channelDim < |shapes[0]| && AllPositive(Shape2Size(shapes[0], channelDim)[..2])
      modifies this
      ensures Valid() && isUniform == (!forceVariableSize && Uniform(shapes))
      ensures isUniform ==> blocks == []
      ensures isUniform && shapes != [] ==>
                && channelDim < |shapes[0]| && uniformOutputSize == Shape2Size(shapes[0], channelDim)
                && |gridDim| == 3 && gridDim[2] == |shapes|
                && EvenAxes(uniformOutputSize, defaultBlockSize, blockDim, uniformBlockSize, gridDim)
      ensures !isUniform ==> blocks == BatchTiles(shapes, channelDim, defaultBlockSize, maxBlockElements)
      ensures !isUniform && shapes != [] ==> gridDim == [|blocks|, 1, 1]
    {
      blocks := [];
      var same := true;
      for i := 0 to |shapes|
        invariant same <==> forall j :: 0 <= j < i ==> shapes[j] == shapes[0]
      {
        same := same && shapes[i] == shapes[0];
      }
      isUniform := !forceVariableSize && same;
      if isUniform {
        UniformSizeSetup(shapes);
      } else {
        VariableSizeSetup(shapes);
      }
    }
  }

  predicate Uniform(shapes: seq<seq<nat>>) {
    forall i :: 0 <= i < |shapes| ==> shapes[i] == shapes[0]
  }
}
