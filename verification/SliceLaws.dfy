/** Laws that relate slice kernels to each other: undoing a transposition with flips, and the
    plain slice kernel as a special case. */
module SliceLaws {
  import opened TensorIndex
  import opened Permutation
  import opened SliceArgs
  import opened SliceCpu

  // ---- undoing a transposition -------------------------------------------------------------

  // Whole input, no padding, no normalization.
  function FullArgs<F>(shape: Shape, perm: seq<int>, flip: seq<bool>): Args<F> {
    Args(Zeros(|shape|), shape, shape, flip, perm, 0, [], [])
  }

  ghost predicate FullCall(shape: Shape, perm: seq<int>, flip: seq<bool>) {
    |shape| == |perm| == |flip| > 0 && IsPermutation(perm)
  }

  lemma FullArgsValid<I, F>(shape: Shape, perm: seq<int>, flip: seq<bool>, x: seq<I>)
    requires FullCall(shape, perm, flip) && |x| == Volume(shape)
    ensures ValidCall(FullArgs<F>(shape, perm, flip), shape, x)
    ensures ValidNormalization(FullArgs<F>(shape, perm, flip))
    ensures OutputShape(FullArgs<F>(shape, perm, flip)) == Permuted(shape, perm)
  {
  }

  lemma UndoShows<F>(shape: Shape, perm: seq<int>, flip: seq<bool>, inv: seq<int>, c: seq<int>)
    requires FullCall(shape, perm, flip) && Inverses(perm, inv) && |c| == |shape|
    requires FullCall(Permuted(shape, perm), inv, Permuted(flip, perm))
    ensures var there := FullArgs<F>(shape, perm, flip);
            var back := FullArgs<F>(Permuted(shape, perm), inv, Permuted(flip, perm));
            SourceCoord(there, SourceCoord(back, c)) == c
  {
    var there := FullArgs<F>(shape, perm, flip);
    var back := FullArgs<F>(Permuted(shape, perm), inv, Permuted(flip, perm));
    var j := SourceCoord(back, c);
    forall d | 0 <= d < |shape|
      ensures var a := perm[d];
              c[a] == Zeros(|shape|)[a] + (if flip[a] then shape[a] - 1 - j[d] else j[d])
    {
      var a := perm[d];
      assert inv[a] == d && back.perm[a] == d;
    }
    assert Shows(there, j, c);
    ShowsUnique(there, j, SourceCoord(there, j), c);
  }

  lemma FullCell<I, O, F>(ops: Ops<I, O, F>, shape: Shape, perm: seq<int>, flip: seq<bool>, x: seq<I>, j: seq<int>)
    requires FullCall(shape, perm, flip) && |x| == Volume(shape) && InBounds(Permuted(shape, perm), j)
    ensures var args := FullArgs<F>(shape, perm, flip);
            && ValidCall(args, shape, x) && ValidNormalization(args)
            && InBounds(shape, SourceCoord(args, j))
            && 0 <= Flat(shape, SourceCoord(args, j)) < |x|
            && 0 <= Flat(Permuted(shape, perm), j) < |Sliced(ops, args, shape, x)|
            && Sliced(ops, args, shape, x)[Flat(Permuted(shape, perm), j)]
               == ops.clamp(x[Flat(shape, SourceCoord(args, j))])
  {
    hide Flat, Volume, SourceCoord, Sliced;
    var args := FullArgs<F>(shape, perm, flip);
    FullArgsValid<I, F>(shape, perm, flip, x);
    SourceInBounds(args, shape, j);
    FlatInVolume(shape, SourceCoord(args, j));
    FlatInVolume(Permuted(shape, perm), j);
    assert OutputShape(args) == Permuted(shape, perm) && InBounds(OutputShape(args), j);
    assert Expected(ops, args, shape, x, j) == ops.clamp(x[Flat(shape, SourceCoord(args, j))]);
  }

  /** Running with (perm, flip) and then with the inverse permutation and the permuted flips
      restores the input, for any number of dimensions, when elements convert to themselves. */
  lemma TransposeAndBack<T, F>(ops: Ops<T, T, F>, shape: Shape, perm: seq<int>, flip: seq<bool>,
                               inv: seq<int>, x: seq<T>)
    requires FullCall(shape, perm, flip) && Inverses(perm, inv) && |x| == Volume(shape)
    requires forall v :: ops.clamp(v) == v
    ensures var there := FullArgs<F>(shape, perm, flip);
            var back := FullArgs<F>(Permuted(shape, perm), inv, Permuted(flip, perm));
            && ValidCall(there, shape, x) && ValidNormalization(there)
            && var y := Sliced(ops, there, shape, x);
            && ValidCall(back, Permuted(shape, perm), y) && ValidNormalization(back)
            && Sliced(ops, back, Permuted(shape, perm), y) == x
  {
    hide Sliced, Volume, Flat, SourceCoord, ValidCall, ValidNormalization, OutputShape;
    var there := FullArgs<F>(shape, perm, flip);
    var shape2, flip2 := Permuted(shape, perm), Permuted(flip, perm);
    var back := FullArgs<F>(shape2, inv, flip2);
    InverseIsPermutation(perm, inv);
    PermutedBack(shape, perm, inv);
    FullArgsValid<T, F>(shape, perm, flip, x);
    var y := Sliced(ops, there, shape, x);
    FullArgsValid<T, F>(shape2, inv, flip2, y);
    var z := Sliced(ops, back, shape2, y);
    forall q | 0 <= q < Volume(shape) ensures z[q] == x[q] {
      hide *;
      var c := Unflat(shape, q);
      FullCell(ops, shape2, inv, flip2, y, c);
      FullCell(ops, shape, perm, flip, x, SourceCoord(back, c));
      UndoShows<F>(shape, perm, flip, inv, c);
    }
  }

  // ---- the plain slice kernel -------------------------------------------------------------

  /** SliceKernelImpl: the loop nest of the plain slice kernel. The innermost dimension is
      copied with unit strides, the others by recursion; d == Dims - dimsLeft. */
  method SliceKernelImpl<I, O, F>(k: Kernel<I, O, F>, output: array<O>, start: int, inStart: int, d: nat)
    returns (ghost writes: seq<int>)
    requires k.Valid() && d < |k.padded| && k.outShape == k.padded && !k.normalizing
    requires k.inStrides[|k.inStrides| - 1] == 1
    requires 0 <= start && start + PadCells(k, 0, d) <= output.Length
    requires ReadsSafe(k, d, inStart, 0)
    modifies output
    ensures Wrote(old(output[..]), output[..], start, Rows(k, d, inStart, 0, k.padded[d]))
    ensures writes == Consecutive(start, PadCells(k, 0, d))
    decreases |k.padded| - d
  {
    hide *;
    ghost var v := Volume(k.padded[d + 1..]);
    LoopStart(k, output[..], start, d);
    PadCellsDef(k, 0, d);
    RowsStart(k, d, inStart, 0);
    ghost var rows := [];
    var outPos, inPos := start, inStart;
    writes := [];
    var i := 0;
    while i < k.outShape[d]
      invariant 0 <= i <= k.outShape[d]
      invariant inPos == inStart + Steps(i, k.inStrides[d])
      invariant outPos == start + |rows| && |rows| == Steps(i, v) && rows == Rows(k, d, inStart, 0, i)
      invariant Wrote(old(output[..]), output[..], start, rows)
      invariant writes == Consecutive(start, |rows|)
    {
      SliceEnd(i, k.padded[d], v);
      StepsNext(i, k.inStrides[d]);
      ReadsSafeStep(k, d, inStart, 0, i);
      RowsNext(k, d, inStart, 0, i);
      NoNormStep(k, d, i);
      ghost var mid := output[..];
      ghost var block := Block(k, d + 1, inPos, 0);
      ghost var w;
      if d + 1 == |k.padded| {
        UnitStride(k, inStart, start, i);
        InnermostCell(k, inPos);
        w := Store(output, start + i, k.ops.clamp(k.input[inStart + i]));
      } else {
        WholeBlock(k, d + 1, inPos);
        w := SliceKernelImpl(k, output, outPos, inPos, d + 1);
      }
      AppendSlice(old(output[..]), mid, output[..], start, rows, block, writes, w);
      writes, rows := writes + w, rows + block;
      inPos := inPos + k.inStrides[d];
      outPos := outPos + k.outStrides[d];
      i := i + 1;
    }
  }

  lemma NoNormStep<I, O, F>(k: Kernel<I, O, F>, d: nat, i: int)
    requires !k.normalizing
    ensures NormStep(k, d, i) == 0
  {
  }

  lemma UnitStride<I, O, F>(k: Kernel<I, O, F>, inStart: int, start: int, i: nat)
    requires k.Valid() && k.inStrides[|k.inStrides| - 1] == 1
    ensures Steps(i, k.inStrides[|k.padded| - 1]) == i
    ensures Steps(i, Volume(k.padded[|k.padded| - 1 + 1..])) == i && Volume(k.padded[|k.padded| - 1 + 1..]) == 1
  {
    StepsIsProduct(i, 1);
  }

  lemma InnermostCell<I, O, F>(k: Kernel<I, O, F>, inPos: int)
    requires k.Valid() && !k.normalizing && ReadsSafe(k, |k.padded|, inPos, 0)
    ensures 0 <= inPos < |k.input|
    ensures Block(k, |k.padded|, inPos, 0) == [k.ops.clamp(k.input[inPos])]
  {
    ReadsSafeCell(k, inPos, 0);
  }

  lemma WholeBlock<I, O, F>(k: Kernel<I, O, F>, d: nat, inPos: int)
    requires k.Valid() && d < |k.padded|
    ensures PadCells(k, 0, d) == Volume(k.padded[d..])
    ensures Block(k, d, inPos, 0) == Rows(k, d, inPos, 0, k.padded[d])
  {
    WholeSlice(k, d);
  }

  function Identity(n: nat): (p: seq<int>)
    ensures |p| == n && IsPermutation(p) && forall d :: 0 <= d < n ==> p[d] == d
  {
    seq(n, d => d)
  }

  // A window without flips, transposition, padding or normalization.
  function WindowArgs<F>(anchor: seq<int>, shape: Shape): Args<F> {
    Args(anchor, shape, shape, seq(|shape|, _ => false), Identity(|shape|), 0, [], [])
  }

  lemma WindowArgsValid<I, F>(inShape: Shape, anchor: seq<int>, shape: Shape, input: seq<I>)
    requires |inShape| == |anchor| == |shape| > 0 && |input| == Volume(inShape)
    requires forall d :: 0 <= d < |shape| ==> 0 <= anchor[d] && anchor[d] + shape[d] <= inShape[d]
    ensures ValidCall(WindowArgs<F>(anchor, shape), inShape, input)
    ensures ValidNormalization(WindowArgs<F>(anchor, shape))
    ensures OutputShape(WindowArgs<F>(anchor, shape)) == shape
  {
    assert Permuted(shape, Identity(|shape|)) == shape;
  }

  // For a window the plain strides already are a correct compilation.
  lemma WindowCompiles<I, F>(inShape: Shape, anchor: seq<int>, shape: Shape, input: seq<I>,
                             inStrides: seq<int>, outStrides: seq<int>, offset: int)
    requires |inShape| == |anchor| == |shape| > 0 && |input| == Volume(inShape)
    requires forall d :: 0 <= d < |shape| ==> 0 <= anchor[d] && anchor[d] + shape[d] <= inShape[d]
    requires RowMajor(inStrides, inShape) && RowMajor(outStrides, shape) && offset == Dot(inStrides, anchor)
    ensures ValidCall(WindowArgs<F>(anchor, shape), inShape, input)
    ensures Compiles(WindowArgs<F>(anchor, shape), inShape,
                     Processed(offset, inStrides, shape, shape, outStrides, [], [], |shape| + 1))
  {
    var args := WindowArgs<F>(anchor, shape);
    WindowArgsValid<I, F>(inShape, anchor, shape, input);
    assert Permuted(shape, args.perm) == shape;
    hide Flat, Volume, RowMajor;
    forall j: seq<int> ensures ReachesAt(args, inShape, offset, inStrides, j) {
      if |j| == |shape| {
        var c := SourceCoord(args, j);
        assert forall a :: 0 <= a < |c| ==> args.perm[a] == a;
        DotSum(inStrides, anchor, j, c);
        DotIsFlat(inStrides, inShape, c);
      }
    }
  }

  lemma {:induction false} DotSum(s: seq<int>, x: seq<int>, y: seq<int>, z: seq<int>)
    requires |s| == |x| == |y| == |z|
    requires forall a :: 0 <= a < |s| ==> z[a] == x[a] + y[a]
    ensures Dot(s, x) + Dot(s, y) == Dot(s, z)
  {
    if s != [] {
      DotSum(s[1..], x[1..], y[1..], z[1..]);
    }
  }

  /** SliceKernel computes what the general kernel computes on a plain window, with its own conversion,
      which does not round, in place of ClampPolicy. */
  method SliceKernel<I, O, F>(general: Ops<I, O, F>, convert: I -> O, inShape: Shape, input: seq<I>, anchor: seq<int>,
                              shape: Shape, output: array<O>)
    returns (ghost writes: seq<int>)
    requires |inShape| == |anchor| == |shape| > 0 && |input| == Volume(inShape)
    requires forall d :: 0 <= d < |shape| ==> 0 <= anchor[d] && anchor[d] + shape[d] <= inShape[d]
    requires output.Length == Volume(shape)
    modifies output
    ensures ValidCall(WindowArgs<F>(anchor, shape), inShape, input)
    ensures ValidNormalization(WindowArgs<F>(anchor, shape))
    ensures output[..] == Sliced(general.(clamp := convert), WindowArgs<F>(anchor, shape), inShape, input)
    ensures writes == Consecutive(0, Volume(shape))
  {
    hide *;
    var ops := general.(clamp := convert);
    WindowArgsValid<I, F>(inShape, anchor, shape, input);
    var inStridesArray := GetStrides(inShape);
    var outStridesArray := GetStrides(shape);
    var inStrides, outStrides := inStridesArray[..], outStridesArray[..];
    var offset := AnchorOffset(inStrides, anchor);
    var p: Processed<F> := Processed(offset, inStrides, shape, shape, outStrides, [], [], |shape| + 1);
    WindowDispatch(ops, inShape, anchor, shape, input, p);
    writes := SliceKernelImpl(Dispatch(ops, p, input), output, 0, offset, 0);
    WroteAll(old(output[..]), output[..], Sliced(ops, WindowArgs<F>(anchor, shape), inShape, input));
  }

  lemma WindowDispatch<I, O, F>(ops: Ops<I, O, F>, inShape: Shape, anchor: seq<int>, shape: Shape, input: seq<I>,
                                p: Processed<F>)
    requires |inShape| == |anchor| == |shape| > 0 && |input| == Volume(inShape)
    requires forall d :: 0 <= d < |shape| ==> 0 <= anchor[d] && anchor[d] + shape[d] <= inShape[d]
    requires RowMajor(p.inStrides, inShape) && RowMajor(p.outStrides, shape)
    requires |p.inStrides| == |anchor| && p.inputOffset == Dot(p.inStrides, anchor)
    requires p.outShape == p.paddedOutShape == shape && p.mean == p.invStddev == [] && p.normDim == |shape| + 1
    ensures ValidCall(WindowArgs<F>(anchor, shape), inShape, input)
    ensures ValidNormalization(WindowArgs<F>(anchor, shape))
    ensures var k := Dispatch(ops, p, input);
            && k.Valid() && ReadsSafe(k, 0, p.inputOffset, 0) && !k.normalizing
            && k.padded == k.outShape == shape && |k.inStrides| == |shape| && k.inStrides[|shape| - 1] == 1
            && PadCells(k, 0, 0) == Volume(shape)
            && Rows(k, 0, p.inputOffset, 0, k.padded[0])
               == Sliced(ops, WindowArgs<F>(anchor, shape), inShape, input)
            && |Sliced(ops, WindowArgs<F>(anchor, shape), inShape, input)| == Volume(shape)
  {
    var args, k := WindowArgs<F>(anchor, shape), Dispatch(ops, p, input);
    assert p.inStrides[|shape| - 1] == Volume(inShape[|shape| - 1 + 1..]) == 1;
    assert k.padded == k.outShape == shape == shape[0..] && k.inStrides == p.inStrides && !k.normalizing;
    hide *;
    WindowArgsValid<I, F>(inShape, anchor, shape, input);
    WindowCompiles<I, F>(inShape, anchor, shape, input, p.inStrides, p.outStrides, p.inputOffset);
    DispatchReadsSafe(ops, args, inShape, input, p);
    BlockIsSliced(ops, args, inShape, input, p);
    WholeBlock(k, 0, p.inputOffset);
  }

  /** The plain kernel and one run of the general kernel on a window agree if and only if the two
      conversions agree on every element of the window. */
  lemma PlainMatchesGeneral<I, O, F>(general: Ops<I, O, F>, convert: I -> O, inShape: Shape, anchor: seq<int>, shape: Shape, input: seq<I>)
    requires |inShape| == |anchor| == |shape| > 0 && |input| == Volume(inShape)
    requires forall d :: 0 <= d < |shape| ==> 0 <= anchor[d] && anchor[d] + shape[d] <= inShape[d]
    ensures ValidCall(WindowArgs<F>(anchor, shape), inShape, input) && ValidNormalization(WindowArgs<F>(anchor, shape))
    ensures Sliced(general.(clamp := convert), WindowArgs<F>(anchor, shape), inShape, input)
            == Sliced(general, WindowArgs<F>(anchor, shape), inShape, input) <==>
            forall j :: InBounds(shape, j) ==> SameConversion(general, convert, inShape, input, Translated(anchor, j))
  {
    var args := WindowArgs<F>(anchor, shape);
    WindowArgsValid<I, F>(inShape, anchor, shape, input);
    var a, b := Sliced(general.(clamp := convert), args, inShape, input), Sliced(general, args, inShape, input);
    forall j | InBounds(shape, j)
      ensures 0 <= Flat(shape, j) < |a|
      ensures a[Flat(shape, j)] == b[Flat(shape, j)] <==> SameConversion(general, convert, inShape, input, Translated(anchor, j))
    {
      WindowCell(general, inShape, anchor, shape, input, j);
      WindowCell(general.(clamp := convert), inShape, anchor, shape, input, j);
    }
    hide Sliced, Volume, Flat, SameConversion, WindowArgs;
    forall q | 0 <= q < Volume(shape) ensures InBounds(shape, Unflat(shape, q)) && Flat(shape, Unflat(shape, q)) == q {
    }
  }

  // The input coordinate of window coordinate j.
  function Translated(anchor: seq<int>, j: seq<int>): (c: seq<int>)
    ensures |c| == |anchor|
  {
    seq(|anchor|, d requires 0 <= d < |anchor| => anchor[d] + if d < |j| then j[d] else 0)
  }

  ghost predicate SameConversion<I, O, F>(general: Ops<I, O, F>, convert: I -> O, inShape: Shape, input: seq<I>, c: seq<int>)
    requires |c| == |inShape|
  {
    0 <= Flat(inShape, c) < |input| ==> convert(input[Flat(inShape, c)]) == general.clamp(input[Flat(inShape, c)])
  }

  lemma WindowCell<I, O, F>(ops: Ops<I, O, F>, inShape: Shape, anchor: seq<int>, shape: Shape, input: seq<I>, j: seq<int>)
    requires |inShape| == |anchor| == |shape| > 0 && |input| == Volume(inShape) && InBounds(shape, j)
    requires forall d :: 0 <= d < |shape| ==> 0 <= anchor[d] && anchor[d] + shape[d] <= inShape[d]
    ensures ValidCall(WindowArgs<F>(anchor, shape), inShape, input) && ValidNormalization(WindowArgs<F>(anchor, shape))
    ensures 0 <= Flat(shape, j) < |Sliced(ops, WindowArgs<F>(anchor, shape), inShape, input)|
    ensures 0 <= Flat(inShape, Translated(anchor, j)) < |input|
    ensures Sliced(ops, WindowArgs<F>(anchor, shape), inShape, input)[Flat(shape, j)]
            == ops.clamp(input[Flat(inShape, Translated(anchor, j))])
  {
    var args := WindowArgs<F>(anchor, shape);
    WindowArgsValid<I, F>(inShape, anchor, shape, input);
    assert Permuted(shape, args.perm) == shape;
    FlatInVolume(shape, j);
    var c, t := SourceCoord(args, j), Translated(anchor, j);
    assert c == t by {
      forall a | 0 <= a < |c| ensures c[a] == t[a] {
        assert args.perm[a] == a;
      }
    }
    FlatInVolume(inShape, t);
    assert Expected(ops, args, inShape, input, j) == ops.clamp(input[Flat(inShape, t)]);
  }

  // The anchor loop at the start of SliceKernel.
  method AnchorOffset(strides: seq<int>, anchor: seq<int>) returns (offset: int)
    requires |strides| == |anchor|
    ensures offset == Dot(strides, anchor)
  {
    offset := 0;
    for d := 0 to |strides|
      invariant offset == Dot(strides[..d], anchor[..d])
    {
      DotSnoc(strides, anchor, d);
      offset := offset + strides[d] * anchor[d];
    }
    assert strides[..|strides|] == strides && anchor[..|strides|] == anchor;
  }

  // ---- the coordinate formula spelled out ------------------------------------------------------------------------

  // Output coordinate j is inside the window, and c is the input coordinate it comes from: the anchor plus
  // the distance from the near end of the window, or from the far end if the axis is flipped.
  predicate ComesFrom<F>(args: Args<F>, j: seq<int>, c: seq<int>)
    requires WellFormed(args) && |j| == |c| == |args.shape|
  {
    forall d :: 0 <= d < |j| ==>
      var a := args.perm[d];
      && 0 <= j[d] < args.shape[a]
      && c[a] == args.anchor[a] + (if args.flip[a] then args.shape[a] - 1 - j[d] else j[d])
  }

  /** What a run of the kernel leaves at output coordinate j. Axis d of the output is axis perm[d] of the
      input. Outside the window it is zero. Inside it is the converted input element, normalized with the
      one mean, or with the mean that belongs to j along the normalization axis. */
  lemma SlicedMeans<I, O, F>(ops: Ops<I, O, F>, args: Args<F>, inShape: Shape, input: seq<I>, j: seq<int>, c: seq<int>)
    requires ValidCall(args, inShape, input) && ValidNormalization(args) && |j| == |c| == |args.shape|
    requires forall d :: 0 <= d < |j| ==> 0 <= j[d] < args.paddedShape[args.perm[d]]
    ensures |OutputShape(args)| == |j| && forall d :: 0 <= d < |j| ==> OutputShape(args)[d] == args.paddedShape[args.perm[d]]
    ensures 0 <= Flat(OutputShape(args), j) < |Sliced(ops, args, inShape, input)|
    ensures var v := Sliced(ops, args, inShape, input)[Flat(OutputShape(args), j)];
            && ((exists d :: 0 <= d < |j| && j[d] >= args.shape[args.perm[d]]) ==> v == ops.zero)
            && (ComesFrom(args, j, c) ==>
                  && 0 <= Flat(inShape, c) < |input|
                  && var x := input[Flat(inShape, c)];
                     && (args.mean == [] ==> v == ops.clamp(x))
                     && (|args.mean| == 1 ==> v == ops.normalize(x, args.mean[0], args.invStddev[0]))
                     && (|args.mean| > 1 ==>
                           forall d :: 0 <= d < |j| && args.perm[d] == args.normDim ==>
                             0 <= j[d] < |args.mean| && v == ops.normalize(x, args.mean[j[d]], args.invStddev[j[d]])))
  {
    var shape := OutputShape(args);
    assert InBounds(shape, j);
    var r := Sliced(ops, args, inShape, input);
    FlatInVolume(shape, j);
    assert r[Flat(shape, j)] == Expected(ops, args, inShape, input, j);
    hide Volume, Flat, Sliced, IsPermutation;
    if ComesFrom(args, j, c) {
      InsideMeans(ops, args, inShape, input, j, c);
    } else if d :| 0 <= d < |j| && j[d] >= args.shape[args.perm[d]] {
      assert j[d] >= Permuted(args.shape, args.perm)[d];
    }
  }

  lemma InsideMeans<I, O, F>(ops: Ops<I, O, F>, args: Args<F>, inShape: Shape, input: seq<I>, j: seq<int>, c: seq<int>)
    requires ValidCall(args, inShape, input) && ValidNormalization(args) && |j| == |c| == |args.shape|
    requires InBounds(OutputShape(args), j) && ComesFrom(args, j, c)
    ensures 0 <= Flat(inShape, c) < |input|
    ensures var x, v := input[Flat(inShape, c)], Expected(ops, args, inShape, input, j);
            && (args.mean == [] ==> v == ops.clamp(x))
            && (|args.mean| == 1 ==> v == ops.normalize(x, args.mean[0], args.invStddev[0]))
            && (|args.mean| > 1 ==>
                  forall d :: 0 <= d < |j| && args.perm[d] == args.normDim ==>
                    0 <= j[d] < |args.mean| && v == ops.normalize(x, args.mean[j[d]], args.invStddev[j[d]]))
  {
    assert InWindow(args, j) by {
      forall d | 0 <= d < |j| ensures 0 <= j[d] < Permuted(args.shape, args.perm)[d] {
      }
    }
    assert Shows(args, j, c);
    ShowsUnique(args, j, c, SourceCoord(args, j));
    SourceInBounds(args, inShape, j);
    FlatInVolume(inShape, c);
    hide Volume, Flat, SourceCoord;
    if |args.mean| > 1 {
      forall d | 0 <= d < |j| && args.perm[d] == args.normDim ensures OutputAxis(args.perm, args.normDim) == d {
      }
    }
  }
}
