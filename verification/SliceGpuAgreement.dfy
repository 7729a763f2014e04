/** When the GPU kernel gives a sample of a batch the result of the CPU kernel, and a batch that it
    cannot read safely. */
module SliceGpuAgreement {
  import opened TensorIndex
  import opened Permutation
  import opened SliceArgs
  import opened SliceCpu
  import opened SliceGpu
  import opened SliceGpuRun

  // The same number of coefficients, with the same factors and the same products.
  predicate SameCoefficients(a: Args<real>, b: Args<real>)
    requires |a.mean| == |a.invStddev| && |b.mean| == |b.invStddev|
  {
    && |a.mean| == |b.mean|
    && forall q :: 0 <= q < |a.mean| ==> SameAt(a.mean[q], a.invStddev[q], b.mean[q], b.invStddev[q])
  }

  predicate SameAt(mean: real, invStddev: real, mean': real, invStddev': real) {
    invStddev == invStddev' && mean * invStddev == mean' * invStddev'
  }

  // No output coordinate lies outside the window.
  predicate PadsNothing<F>(args: Args<F>) {
    args.shape == args.paddedShape || exists d :: 0 <= d < |args.paddedShape| && args.paddedShape[d] == 0
  }

  // Arguments that differ in the normalization vectors only, both fit for their input.
  ghost predicate Comparable<I>(e: Args<real>, args: Args<real>, inShape: Shape, input: seq<I>) {
    && e == args.(mean := e.mean, invStddev := e.invStddev)
    && ValidCall(e, inShape, input) && ValidNormalization(e) && ValidCall(args, inShape, input) && ValidNormalization(args)
  }

  // The device result with one padding value is the host result with another.
  ghost predicate Agree<I, O>(dev: Device<I, O>, e: Args<real>, args: Args<real>, inShape: Shape, input: seq<I>, padding: O, zero: O) {
    Comparable(e, args, inShape, input) ==>
      Sliced(CpuOps(dev.(padding := padding)), e, inShape, input) == Sliced(CpuOps(dev.(padding := zero)), args, inShape, input)
  }

  lemma NormalizeIs<I, O>(dev: Device<I, O>, x: I, m: real, s: real)
    ensures CpuOps(dev).normalize(x, m, s) == dev.convert(Scaled(dev.toReal(x), m, s))
  {
    assert CpuOps(dev).normalize(x, m, s) == Normalized(dev, x, m, s);
  }

  lemma SameNormalized<I, O>(dev: Device<I, O>, padding: O, x: I, m: real, s: real, m': real, s': real)
    requires SameAt(m, s, m', s')
    ensures CpuOps(dev).normalize(x, m, s) == CpuOps(dev.(padding := padding)).normalize(x, m', s')
  {
    hide CpuOps;
    NormalizeIs(dev, x, m, s);
    NormalizeIs(dev.(padding := padding), x, m', s');
    assert Scaled(dev.toReal(x), m, s) == Scaled(dev.toReal(x), m', s') by { SameScaled(dev.toReal(x), m, s, m', s'); }
  }

  lemma SameScaled(v: real, m: real, s: real, m': real, s': real)
    requires SameAt(m, s, m', s')
    ensures Scaled(v, m, s) == Scaled(v, m', s')
  {
    assert (v - m) * s == v * s - m * s && (v - m') * s' == v * s' - m' * s';
  }

  // What a coordinate in the window holds.
  lemma WindowValue<I, O>(ops: Ops<I, O, real>, a: Args<real>, inShape: Shape, input: seq<I>, j: seq<int>)
    requires ValidCall(a, inShape, input) && ValidNormalization(a) && InBounds(OutputShape(a), j) && InWindow(a, j)
    ensures 0 <= Flat(inShape, SourceCoord(a, j)) < |input|
    ensures var x := input[Flat(inShape, SourceCoord(a, j))];
            if a.mean == [] then Expected(ops, a, inShape, input, j) == ops.clamp(x)
            else
              var q := NormAt(a, j);
              0 <= q < |a.mean| && Expected(ops, a, inShape, input, j) == ops.normalize(x, a.mean[q], a.invStddev[q])
  {
    SourceInBounds(a, inShape, j);
    FlatInVolume(inShape, SourceCoord(a, j));
    if |a.mean| > 1 {
      var d := OutputAxis(a.perm, a.normDim);
      assert j[d] < Permuted(a.shape, a.perm)[d];
    }
  }

  ghost function NormAt(a: Args<real>, j: seq<int>): int
    requires WellFormed(a) && |j| == |a.shape|
  {
    if |a.mean| <= 1 then 0 else j[OutputAxis(a.perm, a.normDim)]
  }

  lemma InsideWhenUnpadded<F>(args: Args<F>, j: seq<int>)
    requires WellFormed(args) && PadsNothing(args) && InBounds(OutputShape(args), j)
    ensures InWindow(args, j)
  {
    forall d | 0 <= d < |args.paddedShape| ensures args.paddedShape[d] != 0 {
      var a := OutputAxis(args.perm, d);
      assert j[a] < OutputShape(args)[a];
    }
  }

  lemma NonEmptyWindow<F>(args: Args<F>, j: seq<int>)
    requires WellFormed(args) && InWindow(args, j)
    ensures !EmptyWindow(args)
  {
    forall d | 0 <= d < |args.shape| ensures args.shape[d] > 0 {
      var a := OutputAxis(args.perm, d);
      assert j[a] < Permuted(args.shape, args.perm)[a];
    }
  }

  lemma AgreeAt<I, O>(dev: Device<I, O>, e: Args<real>, args: Args<real>, inShape: Shape, input: seq<I>, padding: O, zero: O, j: seq<int>)
    requires Comparable(e, args, inShape, input) && InBounds(OutputShape(args), j)
    requires EmptyWindow(args) || SameCoefficients(e, args)
    requires padding == zero || PadsNothing(args)
    ensures InBounds(OutputShape(e), j)
    ensures Expected(CpuOps(dev.(padding := padding)), e, inShape, input, j)
            == Expected(CpuOps(dev.(padding := zero)), args, inShape, input, j)
  {
    var device, host := dev.(padding := padding), dev.(padding := zero);
    hide IsPermutation, Volume, Flat, SourceCoord, Permuted, InBounds, EmptyWindow, PadsNothing, CpuOps;
    if InWindow(args, j) {
      NonEmptyWindow(args, j);
      assert InWindow(e, j);
      WindowValue(CpuOps(device), e, inShape, input, j);
      WindowValue(CpuOps(host), args, inShape, input, j);
      SameShown(args, e, j);
      if e.mean != [] {
        var q := NormAt(e, j);
        SameNormalized(device, zero, input[Flat(inShape, SourceCoord(e, j))], e.mean[q], e.invStddev[q], args.mean[q], args.invStddev[q]);
      } else {
        ClampOf(device, host);
      }
    } else {
      PaddingOf(device, host);
      if PadsNothing(args) {
        InsideWhenUnpadded(args, j);
      }
    }
  }

  lemma ClampOf<I, O>(a: Device<I, O>, b: Device<I, O>)
    ensures CpuOps(a).clamp == a.clamp && CpuOps(b).clamp == b.clamp
  {
  }

  lemma PaddingOf<I, O>(a: Device<I, O>, b: Device<I, O>)
    ensures CpuOps(a).zero == a.padding && CpuOps(b).zero == b.padding
  {
  }

  /** For all element types, conversions and inputs: with the same coefficients, unless the window is
      empty, and the same padding value, unless nothing is padded, the results are the same. */
  lemma AgreeWhen<I, O>(dev: Device<I, O>, e: Args<real>, args: Args<real>, inShape: Shape, input: seq<I>, padding: O, zero: O)
    requires Comparable(e, args, inShape, input)
    requires EmptyWindow(args) || SameCoefficients(e, args)
    requires padding == zero || PadsNothing(args)
    ensures Agree(dev, e, args, inShape, input, padding, zero)
  {
    var a := Sliced(CpuOps(dev.(padding := padding)), e, inShape, input);
    var b := Sliced(CpuOps(dev.(padding := zero)), args, inShape, input);
    var shape := OutputShape(args);
    assert OutputShape(e) == shape;
    hide ValidCall, ValidNormalization, WellFormed, EmptyWindow, SameCoefficients, PadsNothing, Expected, Volume, OutputShape, CpuOps, Sliced;
    forall q | 0 <= q < Volume(shape) ensures a[q] == b[q] {
      var j := Unflat(shape, q);
      AgreeAt(dev, e, args, inShape, input, padding, zero, j);
      assert Flat(shape, j) == q;
    }
  }

  /** Running the GPU kernel on a batch and the CPU kernel on one of its samples: under that condition the
      two outputs are the same. */
  method RunBoth<I, O>(dev: Device<I, O>, batch: seq<Item<I, O>>, blockCount: nat, order: seq<(nat, nat)>, i: nat, zero: O, host: array<O>)
    returns (ok: bool)
    requires ValidBatch(batch) && blockCount == TotalBlocks(Sizes(batch)) && CoversGrid(order, blockCount)
    requires forall j :: 0 <= j < |batch| ==> WellFormed(batch[j].args) && ValidWindow(batch[j].args, batch[j].inShape)
    requires AllAccepted(batch) ==> forall j :: 0 <= j < |batch| ==> NormReadable(batch[0].args, batch[j].args)
    requires i < |batch| && host.Length == batch[i].output.Length && forall j :: 0 <= j < |batch| ==> batch[j].output != host
    modifies host, set j | 0 <= j < |batch| :: batch[j].output
    ensures ok <==> AllAccepted(batch)
    ensures ok ==> AgreeingArgs(batch[0].args, batch[i].args) && (batch[i].padding == zero || PadsNothing(batch[i].args)) ==>
              batch[i].output[..] == host[..]
    ensures ok ==> forall j :: 0 <= j < |batch| ==> Computed(dev, batch[0].args, batch[j])
  {
    hide WellFormed, ValidWindow, NormReadable, Computed, TotalBlocks, CoversGrid, ItemAccepted, PadsNothing, AgreeingArgs, Volume,
         ValidItem, ValidCall, ValidNormalization, Sizes;
    ok := SliceGpuRun.Run(dev, batch, blockCount, order);
    if ok {
      AcceptedCall(batch[0].args, batch[i]);
      HostIsDevice(dev, batch[0].args, batch[i], zero);
      HostRun(dev, batch, i, zero, host);
    }
  }

  method HostRun<I, O>(dev: Device<I, O>, batch: seq<Item<I, O>>, i: nat, zero: O, host: array<O>)
    requires i < |batch| && (forall j :: 0 <= j < |batch| ==> batch[j].output != host)
    requires var it := batch[i];
             ValidCall(it.args, it.inShape, it.input) && ValidNormalization(it.args) && host.Length == Volume(OutputShape(it.args))
    requires forall j :: 0 <= j < |batch| ==> Computed(dev, batch[0].args, batch[j])
    modifies host
    ensures host[..] == Sliced(CpuOps(dev.(padding := zero)), batch[i].args, batch[i].inShape, batch[i].input)
    ensures forall j :: 0 <= j < |batch| ==> Computed(dev, batch[0].args, batch[j])
  {
    hide Computed, Volume, ValidCall, ValidNormalization, Sliced;
    var it := batch[i];
    var done;
    ghost var writes;
    done, writes := SliceCpu.Run(CpuOps(dev.(padding := zero)), it.args, it.inShape, it.input, host);
  }

  // The coefficients of the sample are the staged ones, or nothing is read.
  ghost predicate AgreeingArgs(first: Args<real>, args: Args<real>) {
    var e := Effective(first, args);
    |e.mean| == |e.invStddev| && |args.mean| == |args.invStddev| && (EmptyWindow(args) || SameCoefficients(e, args))
  }

  lemma AcceptedCall<I, O>(first: Args<real>, it: Item<I, O>)
    requires ValidItem(first, it) && ItemAccepted(first, it) && WellFormed(it.args) && ValidWindow(it.args, it.inShape)
    ensures ValidCall(it.args, it.inShape, it.input) && ValidNormalization(it.args) && it.output.Length == Volume(OutputShape(it.args))
  {
    hide Volume, IsPermutation;
  }

  lemma HostIsDevice<I, O>(dev: Device<I, O>, first: Args<real>, it: Item<I, O>, zero: O)
    requires ValidCall(it.args, it.inShape, it.input) && ValidNormalization(it.args) && Computed(dev, first, it)
    ensures AgreeingArgs(first, it.args) && (it.padding == zero || PadsNothing(it.args)) ==>
              it.output[..] == Sliced(CpuOps(dev.(padding := zero)), it.args, it.inShape, it.input)
  {
    hide ValidCall, ValidNormalization, Sliced, Effective, EmptyWindow, SameCoefficients, PadsNothing, CpuOps;
    if AgreeingArgs(first, it.args) && (it.padding == zero || PadsNothing(it.args)) {
      AgreeWhen(dev, Effective(first, it.args), it.args, it.inShape, it.input, it.padding, zero);
    }
  }

  // ---- the converse, for the kernel from float to float --------------------------------------------------------

  function Constant(n: nat, c: real): seq<real> {
    seq(n, _ => c)
  }

  lemma SlicedAt<I, O>(ops: Ops<I, O, real>, a: Args<real>, inShape: Shape, input: seq<I>, j: seq<int>)
    requires ValidCall(a, inShape, input) && ValidNormalization(a) && InBounds(OutputShape(a), j)
    ensures 0 <= Flat(OutputShape(a), j) < |Sliced(ops, a, inShape, input)|
    ensures Sliced(ops, a, inShape, input)[Flat(OutputShape(a), j)] == Expected(ops, a, inShape, input, j)
  {
    hide Expected, Volume, Permuted, IsPermutation;
    var r := Sliced(ops, a, inShape, input);
    FlatInVolume(OutputShape(a), j);
  }

  lemma AgreeGives(dev: Device<real, real>, e: Args<real>, args: Args<real>, inShape: Shape, input: seq<real>,
                   padding: real, zero: real, j: seq<int>)
    requires Comparable(e, args, inShape, input) && Agree(dev, e, args, inShape, input, padding, zero)
    requires InBounds(OutputShape(args), j)
    ensures InBounds(OutputShape(e), j)
    ensures Expected(CpuOps(dev.(padding := padding)), e, inShape, input, j)
            == Expected(CpuOps(dev.(padding := zero)), args, inShape, input, j)
  {
    SlicedAt(CpuOps(dev.(padding := padding)), e, inShape, input, j);
    SlicedAt(CpuOps(dev.(padding := zero)), args, inShape, input, j);
  }

  // A coordinate with one entry that may differ from 0.
  function Corner(n: nat, axis: nat, i: int): (j: seq<int>)
    ensures |j| == n && forall d :: 0 <= d < n ==> j[d] == if d == axis then i else 0
  {
    seq(n, d => if d == axis then i else 0)
  }

  lemma CornerInWindow<F>(args: Args<F>, inShape: Shape, axis: nat, i: nat)
    requires WellFormed(args) && ValidWindow(args, inShape) && !EmptyWindow(args)
    requires axis < |args.shape| && i < args.shape[args.perm[axis]]
    ensures InWindow(args, Corner(|args.shape|, axis, i)) && InBounds(OutputShape(args), Corner(|args.shape|, axis, i))
  {
    var j := Corner(|args.shape|, axis, i);
    forall d | 0 <= d < |args.shape| ensures 0 <= j[d] < Permuted(args.shape, args.perm)[d] <= OutputShape(args)[d] {
      assert args.shape[args.perm[d]] > 0 && args.shape[args.perm[d]] <= args.paddedShape[args.perm[d]];
    }
  }

  // A coordinate that uses coefficient q.
  lemma UsesCoefficient(args: Args<real>, inShape: Shape, q: nat) returns (j: seq<int>)
    requires WellFormed(args) && ValidWindow(args, inShape) && !EmptyWindow(args) && ValidNormalization(args)
    requires q == 0 || q < |args.mean|
    ensures InWindow(args, j) && InBounds(OutputShape(args), j) && |j| == |args.shape|
    ensures NormAt(args, j) == q
  {
    var axis := if |args.mean| > 1 then OutputAxis(args.perm, args.normDim) else 0;
    assert args.shape[args.perm[axis]] > 0;
    j := Corner(|args.shape|, axis, q);
    CornerInWindow(args, inShape, axis, q);
  }

  const PLAIN: Device<real, real> := Device((x: real) => x, (x: real) => x, (x: real) => x, 0.0)
  const SPLIT: Device<real, real> := Device((x: real) => x, (x: real) => 0.0, (x: real) => 1.0, 0.0)

  lemma ConstantValue(dev: Device<real, real>, a: Args<real>, inShape: Shape, c: real, j: seq<int>)
    requires ValidCall(a, inShape, Constant(Volume(inShape), c)) && ValidNormalization(a)
    requires InBounds(OutputShape(a), j) && InWindow(a, j)
    ensures var v := Expected(CpuOps(dev), a, inShape, Constant(Volume(inShape), c), j);
            if a.mean == [] then v == dev.clamp(c)
            else
              var q := NormAt(a, j);
              0 <= q < |a.mean| && v == dev.convert(Scaled(dev.toReal(c), a.mean[q], a.invStddev[q]))
  {
    hide IsPermutation, Volume, Flat, SourceCoord, Permuted, ValidWindow, InBounds, Expected;
    WindowValue(CpuOps(dev), a, inShape, Constant(Volume(inShape), c), j);
    if a.mean != [] {
      NormalizeIs(dev, c, a.mean[NormAt(a, j)], a.invStddev[NormAt(a, j)]);
    }
  }

  // Coefficients that differ show for the constant 0 or for the constant 1.
  lemma DifferenceShows(m: real, s: real, m': real, s': real)
    requires Scaled(0.0, m, s) == Scaled(0.0, m', s') && Scaled(1.0, m, s) == Scaled(1.0, m', s')
    ensures SameAt(m, s, m', s')
  {
    assert (0.0 - m) * s == -(m * s) && (0.0 - m') * s' == -(m' * s');
    assert (1.0 - m) * s == s - m * s && (1.0 - m') * s' == s' - m' * s';
  }

  ghost predicate AlwaysAgree(e: Args<real>, args: Args<real>, inShape: Shape, padding: real, zero: real) {
    forall dev: Device<real, real>, input: seq<real> :: Agree(dev, e, args, inShape, input, padding, zero)
  }

  lemma AgreeNeedsCoefficient(e: Args<real>, args: Args<real>, inShape: Shape, padding: real, zero: real, q: nat)
    requires AlwaysAgree(e, args, inShape, padding, zero) && !EmptyWindow(args)
    requires forall c: real :: Comparable(e, args, inShape, Constant(Volume(inShape), c))
    requires |e.mean| == |args.mean| && q < |e.mean|
    ensures SameAt(e.mean[q], e.invStddev[q], args.mean[q], args.invStddev[q])
  {
    assert Comparable(e, args, inShape, Constant(Volume(inShape), 0.0));
    assert Comparable(e, args, inShape, Constant(Volume(inShape), 1.0));
    var j := UsesCoefficient(args, inShape, q);
    assert NormAt(e, j) == q && InWindow(e, j);
    hide Comparable, ValidCall, ValidNormalization, WellFormed, ValidWindow, IsPermutation, Permuted, Volume, InBounds, Expected, NormAt, EmptyWindow;
    AtConstant(e, args, inShape, padding, zero, q, j, 0.0);
    AtConstant(e, args, inShape, padding, zero, q, j, 1.0);
    DifferenceShows(e.mean[q], e.invStddev[q], args.mean[q], args.invStddev[q]);
  }

  lemma AtConstant(e: Args<real>, args: Args<real>, inShape: Shape, padding: real, zero: real, q: nat, j: seq<int>, c: real)
    requires AlwaysAgree(e, args, inShape, padding, zero) && Comparable(e, args, inShape, Constant(Volume(inShape), c))
    requires |e.mean| == |e.invStddev| == |args.mean| == |args.invStddev| && q < |e.mean|
    requires InBounds(OutputShape(args), j) && InWindow(args, j) && InWindow(e, j) && |j| == |args.shape|
    requires NormAt(e, j) == q && NormAt(args, j) == q
    ensures Scaled(c, e.mean[q], e.invStddev[q]) == Scaled(c, args.mean[q], args.invStddev[q])
  {
    var input := Constant(Volume(inShape), c);
    hide ValidCall, ValidNormalization, ValidWindow, IsPermutation, Permuted, Volume, InBounds, Expected, NormAt, Agree, CpuOps;
    assert Agree(PLAIN, e, args, inShape, input, padding, zero);
    AgreeGives(PLAIN, e, args, inShape, input, padding, zero, j);
    ConstantValue(PLAIN.(padding := padding), e, inShape, c, j);
    ConstantValue(PLAIN.(padding := zero), args, inShape, c, j);
  }

  // A sample normalized on one side only shows for conversions that tell the two apart.
  lemma AgreeNeedsBoth(e: Args<real>, args: Args<real>, inShape: Shape, padding: real, zero: real)
    requires AlwaysAgree(e, args, inShape, padding, zero) && !EmptyWindow(args)
    requires Comparable(e, args, inShape, Constant(Volume(inShape), 0.0))
    ensures e.mean == [] <==> args.mean == []
  {
    var input := Constant(Volume(inShape), 0.0);
    var j := UsesCoefficient(args, inShape, 0);
    assert InWindow(e, j);
    hide ValidCall, ValidNormalization, WellFormed, ValidWindow, IsPermutation, Permuted, Volume, InBounds, Expected, NormAt, Agree, CpuOps;
    assert Agree(SPLIT, e, args, inShape, input, padding, zero);
    AgreeGives(SPLIT, e, args, inShape, input, padding, zero, j);
    ConstantValue(SPLIT.(padding := padding), e, inShape, 0.0, j);
    ConstantValue(SPLIT.(padding := zero), args, inShape, 0.0, j);
  }

  // A padded coordinate holds the padding value.
  lemma AgreeNeedsPadding(e: Args<real>, args: Args<real>, inShape: Shape, padding: real, zero: real)
    requires AlwaysAgree(e, args, inShape, padding, zero) && !PadsNothing(args)
    requires Comparable(e, args, inShape, Constant(Volume(inShape), 0.0))
    ensures padding == zero
  {
    var input := Constant(Volume(inShape), 0.0);
    var j := PaddedCoordinate(args, inShape);
    assert !InWindow(e, j);
    hide ValidCall, ValidNormalization, WellFormed, ValidWindow, IsPermutation, Permuted, Volume, InBounds, Agree, CpuOps;
    assert Agree(PLAIN, e, args, inShape, input, padding, zero);
    AgreeGives(PLAIN, e, args, inShape, input, padding, zero, j);
    PaddingOf(PLAIN.(padding := padding), PLAIN.(padding := zero));
  }

  lemma PaddedCoordinate<F>(args: Args<F>, inShape: Shape) returns (j: seq<int>)
    requires WellFormed(args) && ValidWindow(args, inShape) && !PadsNothing(args)
    ensures InBounds(OutputShape(args), j) && !InWindow(args, j)
  {
    var a :| 0 <= a < |args.shape| && args.shape[a] != args.paddedShape[a];
    var axis := OutputAxis(args.perm, a);
    j := Corner(|args.shape|, axis, args.shape[a]);
    forall d | 0 <= d < |args.shape| ensures 0 <= j[d] < OutputShape(args)[d] {
      assert args.paddedShape[args.perm[d]] != 0;
    }
    assert j[axis] >= Permuted(args.shape, args.perm)[axis];
  }

  /** One sample of an accepted batch through the kernel from float to float: the device gives what the
      CPU kernel gives, whatever the conversions and the input, if and only if the staged coefficients
      it uses are its own - the same factors and the same products with the means - or its window is
      empty, and its padding value is zero or nothing is padded. */
  lemma AgreesExactly(first: Args<real>, args: Args<real>, inShape: Shape, padding: real, zero: real)
    requires WellFormed(first) && |first.mean| == |first.invStddev| && NormReadable(first, args)
    requires WellFormed(args) && |args.shape| == |first.shape| && ValidWindow(args, inShape) && Accepted(first, args)
    ensures var e := Effective(first, args);
            && |e.mean| == |e.invStddev| && |args.mean| == |args.invStddev|
            && (AlwaysAgree(e, args, inShape, padding, zero) <==>
                (EmptyWindow(args) || SameCoefficients(e, args)) && (padding == zero || PadsNothing(args)))
  {
    var e := Effective(first, args);
    EffectiveValid(first, args);
    forall input: seq<real> | |input| == Volume(inShape) ensures Comparable(e, args, inShape, input) {
      StillValid(args, e, inShape);
    }
    hide WellFormed, ValidWindow, Volume, EmptyWindow, PadsNothing, Effective, Accepted, Agree, NormReadable;
    if (EmptyWindow(args) || SameCoefficients(e, args)) && (padding == zero || PadsNothing(args)) {
      forall dev: Device<real, real>, input: seq<real> ensures Agree(dev, e, args, inShape, input, padding, zero) {
        AgreeOrNot(dev, e, args, inShape, input, padding, zero);
      }
    }
    if AlwaysAgree(e, args, inShape, padding, zero) {
      if !PadsNothing(args) {
        AgreeNeedsPadding(e, args, inShape, padding, zero);
      }
      if !EmptyWindow(args) {
        AgreeNeedsBoth(e, args, inShape, padding, zero);
        forall q | 0 <= q < |e.mean| ensures SameAt(e.mean[q], e.invStddev[q], args.mean[q], args.invStddev[q]) {
          AgreeNeedsCoefficient(e, args, inShape, padding, zero, q);
        }
      }
    }
  }

  lemma StillValid(args: Args<real>, e: Args<real>, inShape: Shape)
    requires WellFormed(args) && WellFormed(e) && ValidWindow(args, inShape) && e == args.(mean := e.mean, invStddev := e.invStddev)
    ensures ValidWindow(e, inShape)
  {
  }

  lemma AgreeOrNot(dev: Device<real, real>, e: Args<real>, args: Args<real>, inShape: Shape, input: seq<real>, padding: real, zero: real)
    requires |e.mean| == |e.invStddev| && |args.mean| == |args.invStddev|
    requires (EmptyWindow(args) || SameCoefficients(e, args)) && (padding == zero || PadsNothing(args))
    ensures Agree(dev, e, args, inShape, input, padding, zero)
  {
    hide EmptyWindow, SameCoefficients, PadsNothing, Sliced;
    if Comparable(e, args, inShape, input) {
      AgreeWhen(dev, e, args, inShape, input, padding, zero);
    }
  }

  // ---- a batch that cannot be read safely ------------------------------------------------------------------------

  // A whole row of n elements, normalized element by element.
  function Row(n: nat, mean: seq<real>, invStddev: seq<real>): Args<real> {
    Args([0], [n], [n], [false], [0], 0, mean, invStddev)
  }

  lemma RowFits(n: nat, mean: seq<real>, invStddev: seq<real>)
    requires |mean| == |invStddev| == n > 1
    ensures var a := Row(n, mean, invStddev);
            WellFormed(a) && ValidWindow(a, [n]) && ValidNormalization(a) && AxisOf(a) == 0 && !EmptyWindow(a)
  {
    var a := Row(n, mean, invStddev);
    assert IsPermutation(a.perm);
    assert OutputAxis(a.perm, 0) == 0;
  }

  /** A row of m elements with m means and then a longer one with as many means as it has elements: Run
      accepts both, and the device reads past the m staged coefficients. */
  lemma LongerRowOverruns<I, O>(ops: Ops<I, O, real>, m: nat, n: nat, mean: seq<real>, inv: seq<real>, mean': seq<real>, inv': seq<real>,
                                input: seq<I>, p: Processed<real>)
    requires 1 < m < n && |mean| == |inv| == m && |mean'| == |inv'| == n && |input| == Volume([n])
    requires WellFormed(Row(n, mean', inv')) && ValidWindow(Row(n, mean', inv'), [n]) && Compiles(Row(n, mean', inv'), [n], p)
    ensures WellFormed(Row(m, mean, inv)) && Accepted(Row(m, mean, inv), Row(n, mean', inv'))
    ensures !Safe(DeviceKernel(ops, Row(m, mean, inv), p, p.normDim, input), p.inputOffset)
  {
    hide Volume, Compiles, Safe, EmptyWindow, AxisOf, IsPermutation, DeviceKernel;
    RowFits(m, mean, inv);
    RowFits(n, mean', inv');
    NormReadsExactly(ops, Row(m, mean, inv), Row(n, mean', inv'), [n], input, p);
  }
}
