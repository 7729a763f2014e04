/** Arguments of the slice/flip/normalize/permute/pad kernels, what they mean coordinate by
    coordinate, and their compilation into one base offset plus signed, permuted strides. */
module SliceArgs {
  import opened TensorIndex
  import opened Permutation

  datatype Option<+T> = None | Some(value: T)

  datatype Args<F> = Args(
    anchor: seq<int>,
    shape: Shape,
    paddedShape: Shape,
    flip: seq<bool>,
    perm: seq<int>,        // output axis d is input axis perm[d]
    normDim: nat,          // an input axis
    mean: seq<F>,
    invStddev: seq<F>)

  datatype Processed<F> = Processed(
    inputOffset: int,
    inStrides: seq<int>,
    outShape: Shape,
    paddedOutShape: Shape,
    outStrides: seq<int>,
    mean: seq<F>,
    invStddev: seq<F>,
    normDim: nat)          // an output axis, or an index past the last one

  // One entry per axis, and a genuine axis permutation.
  predicate WellFormed<F>(args: Args<F>) {
    var n := |args.shape|;
    && n > 0
    && |args.anchor| == |args.paddedShape| == |args.flip| == |args.perm| == n
    && IsPermutation(args.perm)
    && (|args.mean| > 1 ==> args.normDim < n)
  }

  // CheckValidOutputShape: the window lies inside the input and fits the padded output.
  predicate ValidWindow<F>(args: Args<F>, inShape: Shape)
    requires WellFormed(args)
  {
    && |inShape| == |args.shape|
    && (forall d :: 0 <= d < |inShape| ==>
          0 <= args.anchor[d] && args.anchor[d] + args.shape[d] <= inShape[d])
    && (forall d :: 0 <= d < |inShape| ==> args.shape[d] <= args.paddedShape[d])
  }

  // The normalization vectors are absent, scalar, or have one entry per index of the window
  // along the normalization axis.
  predicate ValidNormalization<F>(args: Args<F>)
    requires WellFormed(args)
  {
    && |args.mean| == |args.invStddev|
    && (|args.mean| > 1 ==> |args.mean| == args.shape[args.normDim])
  }

  // ---- meaning ---------------------------------------------------------------------------

  // Output coordinate `j` shows input coordinate `c`.
  ghost predicate Shows<F>(args: Args<F>, j: seq<int>, c: seq<int>)
    requires WellFormed(args)
  {
    var n := |args.shape|;
    && |j| == |c| == n
    && forall d :: 0 <= d < n ==>
         var a := args.perm[d];
         c[a] == args.anchor[a] + (if args.flip[a] then args.shape[a] - 1 - j[d] else j[d])
  }

  ghost predicate InWindow<F>(args: Args<F>, j: seq<int>)
    requires WellFormed(args)
  {
    InBounds(Permuted(args.shape, args.perm), j)
  }

  // The one input coordinate that output coordinate `j` shows.
  ghost function SourceCoord<F>(args: Args<F>, j: seq<int>): (c: seq<int>)
    requires WellFormed(args) && |j| == |args.shape|
    ensures |c| == |args.shape| && Shows(args, j, c)
  {
    var n := |args.shape|;
    var axis := (a: int) requires 0 <= a < n => OutputAxis(args.perm, a);
    var c := seq(n, a requires 0 <= a < n =>
      args.anchor[a] + (if args.flip[a] then args.shape[a] - 1 - j[axis(a)] else j[axis(a)]));
    assert forall d :: 0 <= d < n ==> axis(args.perm[d]) == d;
    c
  }

  // The output axis that carries input axis `a`.
  ghost function OutputAxis(perm: seq<int>, a: int): (d: int)
    requires IsPermutation(perm) && 0 <= a < |perm|
    ensures 0 <= d < |perm| && perm[d] == a
  {
    Surjective(perm, a);
    var d :| 0 <= d < |perm| && perm[d] == a;
    d
  }

  lemma ShowsUnique<F>(args: Args<F>, j: seq<int>, c: seq<int>, c': seq<int>)
    requires WellFormed(args) && Shows(args, j, c) && Shows(args, j, c')
    ensures c == c'
  {
    forall a | 0 <= a < |c| ensures c[a] == c'[a] {
      var d := OutputAxis(args.perm, a);
    }
  }

  lemma SourceInBounds<F>(args: Args<F>, inShape: Shape, j: seq<int>)
    requires WellFormed(args) && ValidWindow(args, inShape) && InWindow(args, j)
    ensures InBounds(inShape, SourceCoord(args, j))
  {
    var c := SourceCoord(args, j);
    forall a | 0 <= a < |c| ensures 0 <= c[a] < inShape[a] {
      var d := OutputAxis(args.perm, a);
      assert 0 <= j[d] < Permuted(args.shape, args.perm)[d] == args.shape[a];
    }
  }

  // ---- compilation -------------------------------------------------------------------------

  /** What a correct compilation is: base offset plus signed strides reach, for every output
      coordinate, exactly the input element that coordinate shows. */
  ghost predicate Compiles<F>(args: Args<F>, inShape: Shape, p: Processed<F>)
    requires WellFormed(args) && ValidWindow(args, inShape)
  {
    var n := |args.shape|;
    && |p.inStrides| == n
    && p.outShape == Permuted(args.shape, args.perm)
    && p.paddedOutShape == Permuted(args.paddedShape, args.perm)
    && RowMajor(p.outStrides, p.paddedOutShape)
    && Reaches(args, inShape, p.inputOffset, p.inStrides)
    && p.mean == args.mean && p.invStddev == args.invStddev
    && (if |args.mean| > 1
        then p.normDim < n && args.perm[p.normDim] == args.normDim
        else p.normDim == n + 1)
  }

  ghost predicate Reaches<F>(args: Args<F>, inShape: Shape, offset: int, strides: seq<int>)
    requires WellFormed(args) && |inShape| == |strides| == |args.shape|
  {
    forall j: seq<int> :: ReachesAt(args, inShape, offset, strides, j)
  }

  ghost predicate ReachesAt<F>(args: Args<F>, inShape: Shape, offset: int, strides: seq<int>, j: seq<int>)
    requires WellFormed(args) && |inShape| == |strides| == |args.shape|
  {
    |j| == |args.shape| ==> offset + Dot(strides, j) == Flat(inShape, SourceCoord(args, j))
  }

  // The part of the base offset and the sign that axis `a` contributes.
  ghost function Start<F>(args: Args<F>, a: int): int
    requires WellFormed(args) && 0 <= a < |args.shape|
  {
    if args.flip[a] then args.anchor[a] + args.shape[a] - 1 else args.anchor[a]
  }

  ghost function Starts<F>(args: Args<F>): (r: seq<int>)
    requires WellFormed(args)
    ensures |r| == |args.shape|
  {
    seq(|args.shape|, a requires 0 <= a < |args.shape| => Start(args, a))
  }

  ghost function Signed<F>(args: Args<F>, strides: seq<int>): (r: seq<int>)
    requires WellFormed(args) && |strides| == |args.shape|
    ensures |r| == |strides|
  {
    seq(|strides|, a requires 0 <= a < |strides| => if args.flip[a] then -strides[a] else strides[a])
  }

  lemma {:induction false} DotSplit(s: seq<int>, t: seq<int>, x: seq<int>, k: seq<int>, c: seq<int>)
    requires |s| == |t| == |x| == |k| == |c|
    requires forall a :: 0 <= a < |s| ==> s[a] * x[a] + t[a] * k[a] == s[a] * c[a]
    ensures Dot(s, x) + Dot(t, k) == Dot(s, c)
  {
    if s != [] {
      DotSplit(s[1..], t[1..], x[1..], k[1..], c[1..]);
    }
  }

  lemma AxisWalk<F>(args: Args<F>, s: int, j: seq<int>, d: int)
    requires WellFormed(args) && |j| == |args.shape| && 0 <= d < |j|
    ensures var a := args.perm[d];
            s * Start(args, a) + (if args.flip[a] then -s else s) * j[d] == s * SourceCoord(args, j)[a]
  {
    var a := args.perm[d];
    var start, t := Start(args, a), j[d];
    assert SourceCoord(args, j)[a] == if args.flip[a] then start - t else start + t;
    assert s * (start - t) == s * start - s * t && s * (start + t) == s * start + s * t;
  }

  // Output coordinate j in the order of the input axes.
  ghost function ByInputAxis(perm: seq<int>, j: seq<int>): (k: seq<int>)
    requires IsPermutation(perm) && |j| == |perm|
    ensures |k| == |j| && Permuted(k, perm) == j
  {
    var k := seq(|j|, a requires 0 <= a < |j| => j[OutputAxis(perm, a)]);
    assert Permuted(k, perm) == j;
    k
  }

  lemma InputAxisWalk<F>(args: Args<F>, strides: seq<int>, j: seq<int>, a: nat)
    requires WellFormed(args) && |strides| == |j| == |args.shape| && a < |j|
    ensures strides[a] * Starts(args)[a] + Signed(args, strides)[a] * ByInputAxis(args.perm, j)[a]
            == strides[a] * SourceCoord(args, j)[a]
  {
    var d := OutputAxis(args.perm, a);
    assert Starts(args)[a] == Start(args, a) && ByInputAxis(args.perm, j)[a] == j[d];
    assert Signed(args, strides)[a] == if args.flip[a] then -strides[a] else strides[a];
    hide *;
    AxisWalk(args, strides[a], j, d);
  }

  /** Moving the flips into the start and the sign of each stride is exact. */
  lemma SignedWalk<F>(args: Args<F>, strides: seq<int>, j: seq<int>)
    requires WellFormed(args) && |strides| == |j| == |args.shape|
    ensures Dot(strides, Starts(args)) + Dot(Permuted(Signed(args, strides), args.perm), j)
            == Dot(strides, SourceCoord(args, j))
  {
    hide Dot, Permuted, IsPermutation, SourceCoord, Shows, Starts, Signed, ByInputAxis;
    var k, signed := ByInputAxis(args.perm, j), Signed(args, strides);
    DotPermuted(signed, k, args.perm);
    forall a | 0 <= a < |j|
      ensures strides[a] * Starts(args)[a] + signed[a] * k[a] == strides[a] * SourceCoord(args, j)[a]
    {
      InputAxisWalk(args, strides, j, a);
    }
    DotSplit(strides, signed, Starts(args), k, SourceCoord(args, j));
  }

  lemma {:induction false} DotSnoc(s: seq<int>, x: seq<int>, k: int)
    requires |s| == |x| && 0 <= k < |s|
    ensures Dot(s[..k + 1], x[..k + 1]) == Dot(s[..k], x[..k]) + s[k] * x[k]
  {
    if k == 0 {
      assert s[..1][1..] == [] && x[..1][1..] == [];
    } else {
      DotSnoc(s[1..], x[1..], k - 1);
      assert s[..k + 1][1..] == s[1..][..k] && x[..k + 1][1..] == x[1..][..k];
      assert s[..k][1..] == s[1..][..k - 1] && x[..k][1..] == x[1..][..k - 1];
    }
  }

  // The flip loop: accumulates the base offset and negates the strides of flipped axes.
  method FoldFlips<F>(args: Args<F>, inStrides: array<int>) returns (inputOffset: int)
    requires WellFormed(args) && inStrides.Length == |args.shape|
    modifies inStrides
    ensures inStrides[..] == Signed(args, old(inStrides[..]))
    ensures inputOffset == Dot(old(inStrides[..]), Starts(args))
  {
    hide Dot, Signed, Starts, IsPermutation;
    var n := |args.shape|;
    ghost var strides := inStrides[..];
    inputOffset := 0;
    assert Dot([], []) == 0 by { DotOfNothing(); }
    for d := 0 to n
      invariant inputOffset == Dot(strides[..d], Starts(args)[..d])
      invariant forall a :: 0 <= a < d ==> inStrides[a] == if args.flip[a] then -strides[a] else strides[a]
      invariant forall a :: d <= a < n ==> inStrides[a] == strides[a]
    {
      DotSnoc(strides, Starts(args), d);
      AxisStart(args, d);
      if args.flip[d] {
        inputOffset := inputOffset + (args.anchor[d] + args.shape[d] - 1) * inStrides[d];
        inStrides[d] := -inStrides[d];
      } else {
        inputOffset := inputOffset + args.anchor[d] * inStrides[d];
      }
    }
    assert strides[..n] == strides && Starts(args)[..n] == Starts(args);
    SignedFold(args, strides, inStrides[..]);
  }

  lemma DotOfNothing()
    ensures Dot([], []) == 0
  {
  }

  lemma AxisStart<F>(args: Args<F>, a: nat)
    requires WellFormed(args) && a < |args.shape|
    ensures Starts(args)[a] == if args.flip[a] then args.anchor[a] + args.shape[a] - 1 else args.anchor[a]
  {
  }

  lemma SignedFold<F>(args: Args<F>, strides: seq<int>, signed: seq<int>)
    requires WellFormed(args) && |strides| == |signed| == |args.shape|
    requires forall a :: 0 <= a < |strides| ==> signed[a] == if args.flip[a] then -strides[a] else strides[a]
    ensures signed == Signed(args, strides)
  {
  }

  // The output axis along which the normalization vectors run.
  method NormalizationAxis<F>(args: Args<F>, outShape: Shape) returns (normDim: Option<nat>)
    requires WellFormed(args) && outShape == Permuted(args.shape, args.perm)
    ensures normDim.Some? <==> ValidNormalization(args)
    ensures normDim.Some? ==>
              if |args.mean| > 1
              then normDim.value < |args.perm| && args.perm[normDim.value] == args.normDim
              else normDim.value == |args.perm| + 1
  {
    if |args.mean| != |args.invStddev| {
      return None;
    }
    if args.mean == [] || |args.mean| == 1 {
      return Some(|args.perm| + 1);
    }
    var inv := InversePermutation(args.perm);
    assert inv[..][args.normDim] == inv[args.normDim];
    if |args.mean| != outShape[inv[args.normDim]] {
      return None;
    }
    return Some(inv[args.normDim]);
  }

  /** ProcessArgs. Fails exactly when the normalization vectors do not fit. */
  method ProcessArgs<F>(args: Args<F>, inShape: Shape) returns (r: Option<Processed<F>>)
    requires WellFormed(args) && ValidWindow(args, inShape)
    ensures r.Some? <==> ValidNormalization(args)
    ensures r.Some? ==> Compiles(args, inShape, r.value)
  {
    var strideArray := GetStrides(inShape);
    ghost var strides := strideArray[..];
    var outShapeArray := Permute(args.shape, args.perm);
    var outShape := outShapeArray[..];
    var paddedArray := Permute(args.paddedShape, args.perm);
    var paddedOutShape := paddedArray[..];
    var outStrides := GetStrides(paddedOutShape);
    var inputOffset := FoldFlips(args, strideArray);
    var permuted := Permute(strideArray[..], args.perm);
    var inStrides := permuted[..];
    forall j: seq<int> ensures ReachesAt(args, inShape, inputOffset, inStrides, j) {
      if |j| == |args.shape| {
        SignedWalk(args, strides, j);
        DotIsFlat(strides, inShape, SourceCoord(args, j));
      }
    }
    var normDim := NormalizationAxis(args, outShape);
    if normDim.None? {
      return None;
    }
    r := Some(Processed(inputOffset, inStrides, outShape, paddedOutShape,
                        outStrides[..], args.mean, args.invStddev, normDim.value));
  }
}
