/** Row-major index arithmetic of dense tensors: volumes, strides, flat offsets,
    sub-tensors and the consecutive layout of the samples of a tensor list. */
module TensorIndex {

  // The extents of a tensor, outermost dimension first.
  type Shape = seq<nat>

  function Volume(shape: Shape): nat {
    if shape == [] then 1 else shape[0] * Volume(shape[1..])
  }

  ghost predicate InBounds(shape: Shape, pos: seq<int>) {
    |pos| == |shape| && forall d :: 0 <= d < |pos| ==> 0 <= pos[d] < shape[d]
  }

  // Position of element `pos` in row-major order: the outermost index counts
  // whole sub-tensors, the rest is the position inside that sub-tensor.
  function Flat(shape: Shape, pos: seq<int>): int
    requires |pos| == |shape|
  {
    if shape == [] then 0 else pos[0] * Volume(shape[1..]) + Flat(shape[1..], pos[1..])
  }

  function Dot(strides: seq<int>, pos: seq<int>): int
    requires |pos| == |strides|
  {
    if strides == [] then 0 else strides[0] * pos[0] + Dot(strides[1..], pos[1..])
  }

  function Zeros(n: nat): (z: seq<int>)
    ensures |z| == n
    ensures forall d :: 0 <= d < n ==> z[d] == 0
  {
    seq(n, _ => 0)
  }

  // ---- coordinates and flat offsets correspond one to one -----------------------------

  lemma InBoundsTail(shape: Shape, pos: seq<int>)
    requires InBounds(shape, pos) && shape != []
    ensures InBounds(shape[1..], pos[1..]) && 0 <= pos[0] < shape[0]
  {
  }

  lemma InBoundsCons(n: nat, rest: Shape, i: int, pos: seq<int>)
    requires 0 <= i < n && InBounds(rest, pos)
    ensures InBounds([n] + rest, [i] + pos)
  {
  }

  lemma MulMonotone(a: int, b: int, v: nat)
    ensures a <= b ==> a * v <= b * v
  {
  }

  lemma RowBounds(i: int, n: nat, v: nat, r: int)
    requires 0 <= i < n && 0 <= r < v
    ensures 0 <= i * v + r < n * v
  {
    MulMonotone(i + 1, n, v);
  }

  lemma {:induction false} FlatInVolume(shape: Shape, pos: seq<int>)
    requires InBounds(shape, pos)
    ensures 0 <= Flat(shape, pos) < Volume(shape)
  {
    if shape != [] {
      InBoundsTail(shape, pos);
      FlatInVolume(shape[1..], pos[1..]);
      RowBounds(pos[0], shape[0], Volume(shape[1..]), Flat(shape[1..], pos[1..]));
    }
  }

  lemma DivModUnique(i: int, r: int, j: int, s: int, v: nat)
    requires 0 <= r < v && 0 <= s < v
    requires i * v + r == j * v + s
    ensures i == j && r == s
  {
    MulMonotone(i + 1, j, v);
    MulMonotone(j + 1, i, v);
  }

  lemma {:induction false} FlatInjective(shape: Shape, a: seq<int>, b: seq<int>)
    requires InBounds(shape, a) && InBounds(shape, b)
    requires Flat(shape, a) == Flat(shape, b)
    ensures a == b
  {
    if shape != [] {
      var rest := shape[1..];
      FlatInVolume(rest, a[1..]);
      FlatInVolume(rest, b[1..]);
      DivModUnique(a[0], Flat(rest, a[1..]), b[0], Flat(rest, b[1..]), Volume(rest));
      FlatInjective(rest, a[1..], b[1..]);
      assert a == [a[0]] + a[1..] && b == [b[0]] + b[1..];
    }
  }

  // The inverse of Flat: coordinates of the k-th element.
  function Unflat(shape: Shape, k: int): (pos: seq<int>)
    requires 0 <= k < Volume(shape)
    ensures InBounds(shape, pos) && Flat(shape, pos) == k
  {
    if shape == [] then []
    else
      var v := Volume(shape[1..]);
      UnflatHead(k, shape[0], v);
      var pos := [k / v] + Unflat(shape[1..], k % v);
      assert pos[1..] == Unflat(shape[1..], k % v);
      pos
  }

  lemma UnflatHead(k: int, n: nat, v: nat)
    requires 0 <= k < n * v
    ensures v > 0 && 0 <= k / v < n && 0 <= k % v < v && k == k / v * v + k % v
  {
    MulMonotone(n, k / v, v);
  }

  // Flat is a bijection from the in-bounds coordinates onto [0, Volume).
  lemma FlatUnflat(shape: Shape, pos: seq<int>)
    requires InBounds(shape, pos)
    ensures 0 <= Flat(shape, pos) < Volume(shape)
    ensures Unflat(shape, Flat(shape, pos)) == pos
  {
    FlatInVolume(shape, pos);
    FlatInjective(shape, Unflat(shape, Flat(shape, pos)), pos);
  }

  lemma {:induction false} VolumePositive(shape: Shape)
    ensures Volume(shape) > 0 <==> forall d :: 0 <= d < |shape| ==> shape[d] > 0
  {
    if shape != [] {
      VolumePositive(shape[1..]);
      var v := Volume(shape[1..]);
      assert shape[0] * v > 0 <==> shape[0] > 0 && v > 0;
      assert forall d :: 0 < d < |shape| ==> shape[d] == shape[1..][d - 1];
    }
  }

  // ---- row-major strides ---------------------------------------------------------------

  ghost predicate RowMajor(strides: seq<int>, shape: Shape) {
    |strides| == |shape| && forall d :: 0 <= d < |shape| ==> strides[d] == Volume(shape[d + 1..])
  }

  /** GetStrides: the innermost stride is 1, every other stride is the next one times the
      next extent; so stride d is the volume of everything inside dimension d. */
  method GetStrides(shape: Shape) returns (strides: array<int>)
    requires |shape| > 0
    ensures fresh(strides) && strides.Length == |shape|
    ensures RowMajor(strides[..], shape)
  {
    var n := |shape|;
    strides := new int[n];
    strides[n - 1] := 1;
    var d := n - 1;
    while d > 0
      invariant 0 <= d < n
      invariant forall e :: d <= e < n ==> strides[e] == Volume(shape[e + 1..])
    {
      assert shape[d..][1..] == shape[d + 1..];
      strides[d - 1] := strides[d] * shape[d];
      d := d - 1;
    }
  }

  lemma {:induction false} RowMajorTail(strides: seq<int>, shape: Shape)
    requires RowMajor(strides, shape) && shape != []
    ensures RowMajor(strides[1..], shape[1..]) && strides[0] == Volume(shape[1..])
  {
    forall d | 0 <= d < |shape| - 1
      ensures strides[1..][d] == Volume(shape[1..][d + 1..])
    {
      assert shape[1..][d + 1..] == shape[d + 2..];
    }
  }

  // Walking row-major strides reaches exactly the row-major position.
  lemma {:induction false} DotIsFlat(strides: seq<int>, shape: Shape, pos: seq<int>)
    requires RowMajor(strides, shape) && |pos| == |shape|
    ensures Dot(strides, pos) == Flat(shape, pos)
  {
    if shape != [] {
      RowMajorTail(strides, shape);
      DotIsFlat(strides[1..], shape[1..], pos[1..]);
    }
  }

  // ---- CalcOffset and subtensor ---------------------------------------------------------

  lemma HornerStep(a: int, v: int, f: int, x: int)
    ensures a * (v * x) + f * x == (a * v + f) * x
  {
  }

  // Horner evaluation of a coordinate prefix.
  lemma {:induction false} FlatSnoc(shape: Shape, pos: seq<int>)
    requires |pos| == |shape| > 0
    ensures var n := |shape|;
            Flat(shape, pos) == Flat(shape[..n - 1], pos[..n - 1]) * shape[n - 1] + pos[n - 1]
  {
    var n := |shape|;
    if n > 1 {
      var s, p := shape[1..], pos[1..];
      FlatSnoc(s, p);
      assert shape[..n - 1][1..] == s[..n - 2] && pos[..n - 1][1..] == p[..n - 2];
      VolumeSnoc(s);
      HornerStep(pos[0], Volume(s[..n - 2]), Flat(s[..n - 2], p[..n - 2]), shape[n - 1]);
    }
  }

  lemma {:induction false} VolumeSnoc(shape: Shape)
    requires |shape| > 0
    ensures Volume(shape) == Volume(shape[..|shape| - 1]) * shape[|shape| - 1]
  {
    var n := |shape|;
    if n > 1 {
      VolumeSnoc(shape[1..]);
      assert shape[..n - 1][1..] == shape[1..][..n - 2];
      HornerStep(shape[0], Volume(shape[1..][..n - 2]), 0, shape[n - 1]);
    }
  }

  /** CalcOffset: flat index of `pos`; missing trailing coordinates count as 0. */
  method CalcOffset(shape: Shape, pos: seq<int>) returns (ofs: int)
    requires 0 < |pos| <= |shape|
    ensures ofs == Flat(shape, pos + Zeros(|shape| - |pos|))
  {
    ghost var full := pos + Zeros(|shape| - |pos|);
    ofs := pos[0];
    var i := 1;
    FlatSnoc(shape[..1], full[..1]);
    while i < |pos|
      invariant 1 <= i <= |pos|
      invariant ofs == Flat(shape[..i], full[..i])
    {
      FlatSnoc(shape[..i + 1], full[..i + 1]);
      assert shape[..i + 1][..i] == shape[..i] && full[..i + 1][..i] == full[..i];
      ofs := ofs * shape[i];
      ofs := ofs + pos[i];
      i := i + 1;
    }
    while i < |shape|
      invariant |pos| <= i <= |shape|
      invariant ofs == Flat(shape[..i], full[..i])
    {
      FlatSnoc(shape[..i + 1], full[..i + 1]);
      assert shape[..i + 1][..i] == shape[..i] && full[..i + 1][..i] == full[..i];
      ofs := ofs * shape[i];
      i := i + 1;
    }
    assert shape[..i] == shape && full[..i] == full;
  }

  // A view of a tensor: the position of its first element and its extents.
  datatype View = View(data: int, shape: Shape)

  function Subtensor(source: View, pos: int): View
    requires |source.shape| > 0
  {
    View(source.data + pos * Volume(source.shape[1..]), source.shape[1..])
  }

  function IteratedSubtensor(source: View, pos: seq<int>): (v: View)
    requires |pos| <= |source.shape|
    ensures v.shape == source.shape[|pos|..]
    decreases |pos|
  {
    if pos == [] then source else IteratedSubtensor(Subtensor(source, pos[0]), pos[1..])
  }

  /** A coordinate prefix denotes a contiguous block: the elements whose coordinates extend
      it occupy consecutive positions from the prefix's own offset, which is also where
      iterated Subtensor points. */
  lemma {:induction false} PrefixIsContiguousBlock(source: View, pos: seq<int>, rest: seq<int>)
    requires |pos| + |rest| == |source.shape|
    ensures source.data + Flat(source.shape, pos + rest)
            == IteratedSubtensor(source, pos).data + Flat(source.shape[|pos|..], rest)
    ensures source.data + Flat(source.shape, pos + Zeros(|rest|)) == IteratedSubtensor(source, pos).data
    decreases |pos|
  {
    FlatZeros(source.shape[|pos|..]);
    var z := Zeros(|rest|);
    if pos == [] {
      assert pos + rest == rest && pos + z == z && source.shape[0..] == source.shape;
    } else {
      var shape := source.shape;
      assert (pos + rest)[1..] == pos[1..] + rest && (pos + z)[1..] == pos[1..] + z;
      assert shape[1..][|pos[1..]|..] == shape[|pos|..];
      PrefixIsContiguousBlock(Subtensor(source, pos[0]), pos[1..], rest);
    }
  }

  lemma {:induction false} FlatZeros(shape: Shape)
    ensures Flat(shape, Zeros(|shape|)) == 0
  {
    if shape != [] {
      assert Zeros(|shape|)[1..] == Zeros(|shape[1..]|);
      FlatZeros(shape[1..]);
    }
  }

  // ---- consecutive samples of a tensor list ------------------------------------------------

  function NumElements(shapes: seq<Shape>): nat {
    if shapes == [] then 0 else NumElements(shapes[..|shapes| - 1]) + Volume(shapes[|shapes| - 1])
  }

  /** calculate_pointers: sample i starts where the samples before it end, so the samples
      tile [origin, origin + NumElements) in order. */
  method CalculatePointers(origin: int, shapes: seq<Shape>) returns (pointers: array<int>)
    requires shapes != []
    ensures fresh(pointers) && pointers.Length == |shapes|
    ensures forall i :: 0 <= i < |shapes| ==> pointers[i] == origin + NumElements(shapes[..i])
    ensures pointers[|shapes| - 1] + Volume(shapes[|shapes| - 1]) == origin + NumElements(shapes)
  {
    pointers := new int[|shapes|];
    pointers[0] := origin;
    var i := 0;
    while i < |shapes| - 1
      invariant 0 <= i < |shapes|
      invariant forall k :: 0 <= k <= i ==> pointers[k] == origin + NumElements(shapes[..k])
    {
      assert shapes[..i + 1][..i] == shapes[..i];
      pointers[i + 1] := pointers[i] + Volume(shapes[i]);
      i := i + 1;
    }
  }

  ghost predicate InSample(origin: int, shapes: seq<Shape>, i: int, p: int)
    requires 0 <= i < |shapes|
  {
    origin + NumElements(shapes[..i]) <= p < origin + NumElements(shapes[..i]) + Volume(shapes[i])
  }

  lemma {:induction false} NumElementsMonotone(shapes: seq<Shape>, i: int, j: int)
    requires 0 <= i < j <= |shapes|
    ensures NumElements(shapes[..i]) + Volume(shapes[i]) <= NumElements(shapes[..j])
    decreases j - i
  {
    assert shapes[..j][..j - 1] == shapes[..j - 1];
    if i < j - 1 {
      NumElementsMonotone(shapes, i, j - 1);
    }
  }

  lemma {:induction false} SampleOfPosition(origin: int, shapes: seq<Shape>, p: int) returns (i: int)
    requires origin <= p < origin + NumElements(shapes)
    ensures 0 <= i < |shapes| && InSample(origin, shapes, i, p)
  {
    var n := |shapes|;
    if p < origin + NumElements(shapes[..n - 1]) {
      i := SampleOfPosition(origin, shapes[..n - 1], p);
      assert shapes[..n - 1][..i] == shapes[..i];
    } else {
      i := n - 1;
    }
  }

  /** Every element position of a packed list lies in exactly one sample. */
  lemma SamplesTile(origin: int, shapes: seq<Shape>, p: int)
    ensures (origin <= p < origin + NumElements(shapes))
            <==> exists i :: 0 <= i < |shapes| && InSample(origin, shapes, i, p)
    ensures forall i, j | 0 <= i < |shapes| && 0 <= j < |shapes| ::
              InSample(origin, shapes, i, p) && InSample(origin, shapes, j, p) ==> i == j
  {
    if origin <= p < origin + NumElements(shapes) {
      var i := SampleOfPosition(origin, shapes, p);
    }
    forall i | 0 <= i < |shapes| && InSample(origin, shapes, i, p)
      ensures origin <= p < origin + NumElements(shapes)
    {
      NumElementsMonotone(shapes, i, |shapes|);
      assert shapes[..|shapes|] == shapes;
    }
    forall i, j | 0 <= i < j < |shapes| && InSample(origin, shapes, i, p)
      ensures !InSample(origin, shapes, j, p)
    {
      NumElementsMonotone(shapes, i, j);
    }
  }
}
