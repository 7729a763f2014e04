/** Random crop windows, in exact real arithmetic. */
module RandomCrop {

  datatype CropWindow = CropWindow(x: int, y: int, w: int, h: int) {
    predicate NonEmpty() { w > 0 && h > 0 }

    predicate IsInRange(H: int, W: int) {
      0 <= x < W && 0 <= y < H && 0 <= x + w <= W && 0 <= y + h <= H
    }
  }

  // The decoder's own check of a crop window.
  predicate IsCropWindowValid(crop: CropWindow, width: int, height: int) {
    && crop.w > 0 && crop.h > 0 && crop.x >= 0 && crop.y >= 0
    && crop.y + crop.h <= height && crop.x + crop.w <= width
  }

  // One draw of the scale and of the aspect ratio.
  datatype Draw = Draw(scale: real, ratio: real)

  datatype Ranges = Ranges(minRatio: real, maxRatio: real, minArea: real, maxArea: real)

  ghost predicate GoodRanges(r: Ranges) {
    0.0 < r.minRatio <= r.maxRatio && 0.0 < r.minArea <= r.maxArea <= 1.0
  }

  ghost predicate GoodDraw(r: Ranges, d: Draw) {
    r.minArea <= d.scale <= r.maxArea && r.minRatio <= d.ratio <= r.maxRatio
  }

  ghost predicate IsSqrt(root: real -> real) {
    forall v :: v >= 0.0 ==> root(v) >= 0.0 && root(v) * root(v) == v
  }

  // A uniform choice among 0 .. n.
  ghost predicate IsPick(pick: int -> int) {
    forall n :: n >= 0 ==> 0 <= pick(n) <= n
  }

  // ---- arithmetic ---------------------------------------------------------------------------------

  function Area(w: int, h: int): real {
    w as real * h as real
  }

  function Part(whole: real, fraction: real): real {
    whole * fraction
  }

  function Ratio(a: real, b: real): real
    requires b != 0.0
  {
    a / b
  }

  lemma PartOrder(a: real, b: real, c: real)
    ensures a <= b && c >= 0.0 ==> Part(a, c) <= Part(b, c) && Part(c, a) <= Part(c, b)
    ensures Part(a, c) < Part(b, c) && c >= 0.0 ==> a < b
    ensures a > 0.0 && c > 0.0 ==> Part(a, c) > 0.0
  {
  }

  lemma PartAlgebra(a: real, b: real, c: real)
    ensures Part(a, b) == Part(b, a) && Part(Part(a, b), c) == Part(a, Part(b, c)) && Part(a, 1.0) == a
    ensures b != 0.0 ==> Part(Ratio(a, b), b) == a
  {
    if b != 0.0 {
      assert (a / b) * b == a;
    }
  }

  lemma AreaIsPart(w: int, h: int)
    ensures Area(w, h) == Part(w as real, h as real) && Area(w, h) == Area(h, w)
    ensures w > 0 && h > 0 ==> Area(w, h) > 0.0
  {
  }

  function AtLeastOne(x: int): int {
    if x < 1 then 1 else x
  }

  // The longest extent along one side that the ratio allows, given the other side; also a side
  // scaled by a factor.
  function Scaled(side: int, factor: real): int {
    AtLeastOne(Part(side as real, factor).Floor)
  }

  ghost predicate Fits(w: int, h: int, H: int, W: int) {
    1 <= w <= W && 1 <= h <= H
  }

  // ---- the extents of each path -------------------------------------------------------------------

  // An image too wide for the smallest area at the largest ratio, or too tall at the smallest.
  lemma TooLong(side: int, other: int, longest: int, fraction: real)
    requires side > 0 && other > 0 && fraction <= 1.0
    requires Area(side, longest) < Part(Area(other, side), fraction)
    ensures longest <= other
  {
    hide Area, Part;
    AreaIsPart(longest, side);
    AreaIsPart(other, side);
    PartOrder(fraction, 1.0, Area(other, side));
    PartAlgebra(Area(other, side), 1.0, 1.0);
    PartOrder(longest as real, other as real, side as real);
  }

  lemma ScaledFits(side: int, factor: real, limit: int)
    requires limit >= 1 && Part(side as real, factor) <= limit as real
    ensures 1 <= Scaled(side, factor) <= limit
    ensures Scaled(side, factor) > 1 ==> Scaled(side, factor) as real <= Part(side as real, factor)
  {
  }

  // An image wider than the largest ratio is cut to it, and one narrower than the smallest.
  lemma RatioAbove(W: int, H: int, maxRatio: real)
    requires W > 0 && H > 0 && Ratio(W as real, H as real) > maxRatio
    ensures 1 <= Scaled(H, maxRatio) <= W
  {
    hide Part, Ratio, Scaled;
    var q := Ratio(W as real, H as real);
    PartAlgebra(W as real, H as real, 1.0);
    PartAlgebra(q, H as real, 1.0);
    PartOrder(maxRatio, q, H as real);
    ScaledFits(H, maxRatio, W);
  }

  lemma RatioBelow(W: int, H: int, minRatio: real)
    requires W > 0 && H > 0 && minRatio > 0.0 && Ratio(W as real, H as real) < minRatio
    ensures 1 <= Scaled(W, Ratio(1.0, minRatio)) <= H
  {
    hide Part, Ratio, Scaled;
    var q, i := Ratio(W as real, H as real), Ratio(1.0, minRatio);
    PartAlgebra(1.0, minRatio, 1.0);
    PartOrder(i, 0.0, minRatio);
    PartAlgebra(W as real, H as real, 1.0);
    PartOrder(q, minRatio, H as real);
    InverseCancels(W as real, H as real, minRatio, i);
    ScaledFits(W, i, H);
  }

  lemma InverseCancels(w: real, h: real, r: real, i: real)
    requires r > 0.0 && Part(i, r) == 1.0 && w <= Part(r, h)
    ensures Part(w, i) <= h
  {
    assert i > 0.0 by {
      assert i * r == 1.0;
    }
    assert w * i <= (r * h) * i;
    assert (r * h) * i == h * (i * r);
  }

  // ---- the fallback -------------------------------------------------------------------------------

  lemma SquareAboveOne(x: real)
    ensures x > 1.0 ==> x * x > 1.0
  {
  }

  lemma RootBelowOne(root: real -> real, v: real)
    requires IsSqrt(root) && 0.0 <= v <= 1.0
    ensures 0.0 <= root(v) <= 1.0 && Part(root(v), root(v)) == v
  {
    SquareAboveOne(root(v));
  }

  lemma ShrinkSide(side: int, factor: real)
    requires side >= 1 && 0.0 <= factor <= 1.0
    ensures 1 <= Scaled(side, factor) <= side
    ensures Scaled(side, factor) > 1 ==> Scaled(side, factor) as real <= Part(side as real, factor)
  {
    hide Part, Scaled;
    PartOrder(factor, 1.0, side as real);
    PartAlgebra(side as real, 1.0, 1.0);
    ScaledFits(side, factor, side);
  }

  // What the area limit leaves of an extent.
  function Allowed(w: int, h: int, maxArea: real): real
    requires Area(w, h) != 0.0
  {
    var left := Ratio(maxArea, Area(w, h));
    if left < 1.0 then left else 1.0
  }

  lemma AllowedRange(w: int, h: int, maxArea: real)
    requires Area(w, h) > 0.0 && maxArea > 0.0
    ensures 0.0 < Allowed(w, h, maxArea) <= 1.0 && Part(Area(w, h), Allowed(w, h, maxArea)) <= maxArea
  {
    hide Area, Part, Ratio;
    var left := Ratio(maxArea, Area(w, h));
    PartAlgebra(maxArea, Area(w, h), 1.0);
    PartAlgebra(left, Area(w, h), 1.0);
    PartOrder(left, 0.0, Area(w, h));
    PartOrder(0.0, 0.0, 0.0);
    PartZero(Area(w, h));
    PartOrder(Allowed(w, h, maxArea), left, Area(w, h));
  }

  lemma PartZero(a: real)
    ensures Part(0.0, a) == 0.0 && Part(a, 0.0) == 0.0
  {
  }

  // Both sides shrunk by the root of the scale keep within the area.
  lemma ShrinkBoth(root: real -> real, w: int, h: int, maxArea: real)
    requires IsSqrt(root) && w >= 1 && h >= 1 && maxArea > 0.0
    ensures Area(w, h) != 0.0
    ensures var f := root(Allowed(w, h, maxArea));
            var w', h' := Scaled(w, f), Scaled(h, f);
            Fits(w', h', h, w) && (w' > 1 && h' > 1 ==> Area(w', h') <= maxArea)
  {
    hide Area, Part, Ratio, Scaled, Allowed, IsSqrt;
    AreaIsPart(w, h);
    AllowedRange(w, h, maxArea);
    var scale := Allowed(w, h, maxArea);
    RootBelowOne(root, scale);
    var f := root(scale);
    ShrinkSide(w, f);
    ShrinkSide(h, f);
    var w', h' := Scaled(w, f), Scaled(h, f);
    if w' > 1 && h' > 1 {
      SidesBound(w', h', w, h, f);
    }
  }

  lemma SidesBound(w': int, h': int, w: int, h: int, f: real)
    requires w' >= 0 && h' >= 0 && w >= 0 && f >= 0.0
    requires w' as real <= Part(w as real, f) && h' as real <= Part(h as real, f)
    ensures Area(w', h') <= Part(Area(w, h), Part(f, f))
  {
    var a, b, c, d := w' as real, h' as real, w as real, h as real;
    assert a * b <= (c * f) * b;
    assert (c * f) * b <= (c * f) * (d * f);
    assert (c * f) * (d * f) == (c * d) * (f * f);
  }

  // ---- what the generator promises ----------------------------------------------------------------------

  datatype Extent = Extent(w: int, h: int)

  // The largest integer up to x, but at least 1.
  ghost predicate LargestUnder(n: int, x: real) {
    n >= 1 && (n == 1 || n as real <= x) && x < n as real + 1.0
  }

  // The largest integer whose square is at most v, but at least 1.
  ghost predicate LargestRoot(n: int, v: real) {
    n >= 1 && (n == 1 || n as real * n as real <= v) && v < (n as real + 1.0) * (n as real + 1.0)
  }

  // The integer nearest to the square root of v, halves going up, but at least 1.
  ghost predicate NearestRoot(n: int, v: real) {
    n >= 1 && (n == 1 || (n as real - 0.5) * (n as real - 0.5) <= v) && v < (n as real + 0.5) * (n as real + 0.5)
  }

  // An extent that fits the image and has an allowed ratio.
  predicate Accepted(r: Ranges, e: Extent, H: int, W: int) {
    1 <= e.w <= W && 1 <= e.h <= H && r.minRatio <= Ratio(e.w as real, e.h as real) <= r.maxRatio
  }

  // The extent of a draw: its area is the drawn part of the image, its ratio the drawn one.
  ghost predicate Drawn(d: Draw, H: int, W: int, e: Extent)
    requires d.ratio > 0.0
  {
    var area := Part(d.scale, Area(H, W));
    NearestRoot(e.w, Part(area, d.ratio)) && NearestRoot(e.h, Ratio(area, d.ratio))
  }

  ghost predicate Refused(r: Ranges, d: Draw, H: int, W: int) {
    d.ratio > 0.0 && exists e :: Drawn(d, H, W, e) && !Accepted(r, e, H, W)
  }

  ghost predicate FirstAccepted(r: Ranges, draws: seq<Draw>, i: nat, H: int, W: int, e: Extent) {
    && i < |draws| && draws[i].ratio > 0.0 && Drawn(draws[i], H, W, e) && Accepted(r, e, H, W)
    && forall j :: 0 <= j < i ==> Refused(r, draws[j], H, W)
  }

  // The largest extent with an allowed ratio. maxW and maxH are the longest sides that the ratios allow.
  function LargestAllowed(r: Ranges, H: int, W: int, maxW: int, maxH: int): Extent
    requires H > 0
  {
    var ratio := Ratio(W as real, H as real);
    if ratio > r.maxRatio then Extent(maxW, H) else if ratio < r.minRatio then Extent(W, maxH) else Extent(W, H)
  }

  // An extent whose sides are shrunk by one factor to at most an area, and no further.
  ghost predicate ShrunkTo(b: Extent, area: real, e: Extent)
    requires b.w > 0 && b.h > 0
  {
    AreaIsPart(b.w, b.h);
    var left := Ratio(area, Area(b.w, b.h));
    var scale := if left < 1.0 then left else 1.0;
    LargestRoot(e.w, Part(Area(b.w, b.w), scale)) && LargestRoot(e.h, Part(Area(b.h, b.h), scale))
  }

  /** The size of a crop. An image that is too wide or too tall for the smallest area keeps its full other
      side. Otherwise it is the first draw that is accepted, or if there is none the largest allowed
      extent, shrunk to the largest area. */
  ghost predicate SizeOf(r: Ranges, H: int, W: int, draws: seq<Draw>, maxW: int, maxH: int, e: Extent)
    requires H > 0 && W > 0 && maxW > 0 && maxH > 0
  {
    var image := Area(W, H);
    if Area(H, maxW) < Part(image, r.minArea) then e == Extent(maxW, H)
    else if Area(W, maxH) < Part(image, r.minArea) then e == Extent(W, maxH)
    else
      || (exists i: nat :: FirstAccepted(r, draws, i, H, W, e))
      || ((forall i :: 0 <= i < |draws| ==> Refused(r, draws[i], H, W))
          && ShrunkTo(LargestAllowed(r, H, W, maxW, maxH), Part(image, r.maxArea), e))
  }

  // ---- roots and floors ------------------------------------------------------------------------------------

  lemma ScaledIs(side: int, factor: real)
    ensures LargestUnder(Scaled(side, factor), Part(side as real, factor))
  {
  }

  lemma Products(x: real, y: real, z: real, p: real, q: real)
    requires x < y && z > 0.0 && p == x * z && q == y * z
    ensures p < q
  {
  }

  lemma StrictSquares(a: real, b: real, p: real, q: real)
    requires 0.0 <= a < b && p == a * a && q == b * b
    ensures p < q
  {
    var m := a * b;
    if a > 0.0 {
      Products(a, b, a, p, m);
    }
    Products(a, b, b, m, q);
  }

  lemma Squares(a: real, b: real)
    ensures 0.0 <= a <= b ==> a * a <= b * b
    ensures 0.0 <= a < b ==> a * a < b * b
  {
    if 0.0 <= a < b {
      StrictSquares(a, b, a * a, b * b);
    }
  }

  lemma RoundedIs(root: real -> real, v: real)
    requires IsSqrt(root) && v >= 0.0
    ensures NearestRoot(AtLeastOne(Rounded(root(v))), v)
  {
    var x := root(v);
    var n := Rounded(x);
    assert x >= 0.0 && x * x == v && n as real <= x + 0.5 < n as real + 1.0;
    var k := AtLeastOne(n);
    Squares(x, k as real + 0.5);
    if n > 1 {
      Squares(n as real - 0.5, x);
    }
  }

  lemma ShrunkSide(root: real -> real, side: int, scale: real)
    requires IsSqrt(root) && scale >= 0.0 && side > 0
    ensures LargestRoot(Scaled(side, root(scale)), Part(Area(side, side), scale))
  {
    var f := root(scale);
    assert f >= 0.0 && f * f == scale;
    var x, v := Part(side as real, f), Part(Area(side, side), scale);
    SquareOfPart(side as real, f);
    assert x >= 0.0 && x * x == v;
    var n := Scaled(side, f);
    ScaledIs(side, f);
    hide *;
    RootBounds(n, x, v);
  }

  lemma SquareOfPart(a: real, f: real)
    requires a >= 0.0 && f >= 0.0
    ensures Part(a, f) >= 0.0 && Part(a, f) * Part(a, f) == Part(a * a, f * f)
  {
    assert (a * f) * (a * f) == (a * a) * (f * f);
  }

  lemma RootBounds(n: int, x: real, v: real)
    requires x >= 0.0 && x * x == v && LargestUnder(n, x)
    ensures LargestRoot(n, v)
  {
    Squares(x, n as real + 1.0);
    Squares(n as real, x);
  }

  // ---- the generator ------------------------------------------------------------------------------

  /** The largest allowed extent, shrunk to the area limit. It fits the image, and the area limit unless a
      side is one. */
  method FallBack(r: Ranges, H: int, W: int, maxW: int, maxH: int, root: real -> real) returns (e: Extent)
    requires GoodRanges(r) && IsSqrt(root) && H > 0 && W > 0
    requires maxW == Scaled(H, r.maxRatio) && maxH == Scaled(W, Ratio(1.0, r.minRatio))
    ensures Fits(e.w, e.h, H, W)
    ensures e.w > 1 && e.h > 1 ==> Area(e.w, e.h) <= Part(Area(W, H), r.maxArea)
    ensures maxW > 0 && maxH > 0
    ensures ShrunkTo(LargestAllowed(r, H, W, maxW, maxH), Part(Area(W, H), r.maxArea), e)
  {
    hide Area, Part, Ratio, Scaled, Allowed, IsSqrt, ShrunkTo;
    var maxArea := Part(Area(W, H), r.maxArea);
    AreaIsPart(W, H);
    PartOrder(Area(W, H), 0.0, r.maxArea);
    ScaledPositive(H, r.maxRatio);
    ScaledPositive(W, Ratio(1.0, r.minRatio));
    var ratio := Ratio(W as real, H as real);
    if ratio > r.maxRatio {
      RatioAbove(W, H, r.maxRatio);
      e := Extent(maxW, H);
    } else if ratio < r.minRatio {
      RatioBelow(W, H, r.minRatio);
      e := Extent(W, maxH);
    } else {
      e := Extent(W, H);
    }
    ghost var b := e;
    assert b == LargestAllowed(r, H, W, maxW, maxH);
    ShrinkBoth(root, e.w, e.h, maxArea);
    ShrinkIs(root, e, maxArea);
    var factor := root(Allowed(e.w, e.h, maxArea));
    e := Extent(Scaled(e.w, factor), Scaled(e.h, factor));
  }

  lemma ScaledPositive(side: int, factor: real)
    ensures Scaled(side, factor) >= 1
  {
  }

  lemma ShrinkIs(root: real -> real, b: Extent, limit: real)
    requires IsSqrt(root) && b.w > 0 && b.h > 0 && limit > 0.0
    ensures Area(b.w, b.h) != 0.0
    ensures var f := root(Allowed(b.w, b.h, limit));
            ShrunkTo(b, limit, Extent(Scaled(b.w, f), Scaled(b.h, f)))
  {
    hide Area, Part, Ratio, Scaled, LargestRoot, IsSqrt;
    AreaIsPart(b.w, b.h);
    AllowedRange(b.w, b.h, limit);
    ShrunkSide(root, b.w, Allowed(b.w, b.h, limit));
    ShrunkSide(root, b.h, Allowed(b.w, b.h, limit));
  }

  function Rounded(x: real): int {
    (x + 0.5).Floor
  }

  // The extent that one draw asks for.
  function AttemptExtent(d: Draw, H: int, W: int, root: real -> real): Extent
    requires d.ratio > 0.0
  {
    var area := Part(d.scale, Area(H, W));
    Extent(AtLeastOne(Rounded(root(Part(area, d.ratio)))), AtLeastOne(Rounded(root(Ratio(area, d.ratio)))))
  }

  lemma AttemptIs(d: Draw, r: Ranges, H: int, W: int, root: real -> real)
    requires IsSqrt(root) && H > 0 && W > 0 && GoodRanges(r) && GoodDraw(r, d)
    ensures d.ratio > 0.0 && Drawn(d, H, W, AttemptExtent(d, H, W, root))
  {
    hide Area, Part, Ratio, NearestRoot, Rounded, IsSqrt;
    var area := Part(d.scale, Area(H, W));
    AreaIsPart(H, W);
    PartOrder(d.scale, 0.0, Area(H, W));
    PartOrder(area, 0.0, d.ratio);
    RatioPositive(area, d.ratio);
    RoundedIs(root, Part(area, d.ratio));
    RoundedIs(root, Ratio(area, d.ratio));
  }

  lemma RatioPositive(a: real, b: real)
    requires a > 0.0 && b > 0.0
    ensures Ratio(a, b) > 0.0
  {
  }

  /** The first draw whose extent fits and has an allowed ratio, if there is one. */
  method Attempt(r: Ranges, H: int, W: int, draws: seq<Draw>, root: real -> real) returns (found: bool, e: Extent)
    requires GoodRanges(r) && IsSqrt(root) && H > 0 && W > 0
    requires forall i :: 0 <= i < |draws| ==> GoodDraw(r, draws[i])
    ensures found ==> Accepted(r, e, H, W) && exists i: nat :: FirstAccepted(r, draws, i, H, W, e)
    ensures !found ==> forall i :: 0 <= i < |draws| ==> Refused(r, draws[i], H, W)
  {
    hide Area, Part, Ratio, Rounded, Drawn, IsSqrt;
    e := Extent(0, 0);
    for i := 0 to |draws|
      invariant forall j :: 0 <= j < i ==> Refused(r, draws[j], H, W)
    {
      assert GoodDraw(r, draws[i]);
      AttemptIs(draws[i], r, H, W, root);
      var area := Part(draws[i].scale, Area(H, W));
      var ratio := draws[i].ratio;
      var w, h := Rounded(root(Part(area, ratio))), Rounded(root(Ratio(area, ratio)));
      if w < 1 {
        w := 1;
      }
      if h < 1 {
        h := 1;
      }
      e := Extent(w, h);
      assert e == AttemptExtent(draws[i], H, W, root);
      var got := Ratio(w as real, h as real);
      if w <= W && h <= H && got >= r.minRatio && got <= r.maxRatio {
        assert FirstAccepted(r, draws, i, H, W, e);
        return true, e;
      }
    }
    found := false;
  }

  /** A generated window is non-empty exactly when the image is, and is then inside the image and
      acceptable to the decoder, on every path and for every choice of the random numbers. Its size is
      the one that SizeOf describes and its position is the one that is picked. */
  method GenerateCropWindow(r: Ranges, H: int, W: int, draws: seq<Draw>, root: real -> real, pickX: int -> int, pickY: int -> int)
    returns (crop: CropWindow)
    requires GoodRanges(r) && IsSqrt(root) && IsPick(pickX) && IsPick(pickY)
    requires forall i :: 0 <= i < |draws| ==> GoodDraw(r, draws[i])
    ensures crop.NonEmpty() <==> H > 0 && W > 0
    ensures H > 0 && W > 0 ==> crop.IsInRange(H, W) && IsCropWindowValid(crop, W, H)
    ensures H > 0 && W > 0 ==> crop.x == pickX(W - crop.w) && crop.y == pickY(H - crop.h)
    ensures H > 0 && W > 0 ==>
              exists maxW, maxH ::
                && LargestUnder(maxW, Part(H as real, r.maxRatio)) && LargestUnder(maxH, Part(W as real, Ratio(1.0, r.minRatio)))
                && SizeOf(r, H, W, draws, maxW, maxH, Extent(crop.w, crop.h))
  {
    hide Area, Part, Ratio, IsSqrt, FirstAccepted, Refused, ShrunkTo, LargestAllowed, LargestUnder, Scaled;
    if W <= 0 || H <= 0 {
      return CropWindow(0, 0, 0, 0);
    }
    var minArea := Part(Area(W, H), r.minArea);
    var maxW, maxH := Scaled(H, r.maxRatio), Scaled(W, Ratio(1.0, r.minRatio));
    ScaledIs(H, r.maxRatio);
    ScaledIs(W, Ratio(1.0, r.minRatio));
    ScaledPositive(H, r.maxRatio);
    ScaledPositive(W, Ratio(1.0, r.minRatio));
    AreaIsPart(H, W);
    var e;
    if Area(H, maxW) < minArea {
      TooLong(H, W, maxW, r.minArea);
      e := Extent(maxW, H);
    } else if Area(W, maxH) < minArea {
      TooLong(W, H, maxH, r.minArea);
      e := Extent(W, maxH);
    } else {
      var found;
      found, e := Attempt(r, H, W, draws, root);
      if !found {
        e := FallBack(r, H, W, maxW, maxH, root);
      }
    }
    crop := CropWindow(pickX(W - e.w), pickY(H - e.h), e.w, e.h);
    assert SizeOf(r, H, W, draws, maxW, maxH, Extent(crop.w, crop.h));
  }

  // ---- the size is determined --------------------------------------------------------------------------------

  lemma RootUnique(m: int, n: int, v: real)
    ensures NearestRoot(m, v) && NearestRoot(n, v) ==> m == n
    ensures LargestRoot(m, v) && LargestRoot(n, v) ==> m == n
  {
    if m < n {
      RootOrder(m, n, v);
    } else if n < m {
      RootOrder(n, m, v);
    }
  }

  lemma RootOrder(m: int, n: int, v: real)
    requires m < n
    ensures !(NearestRoot(m, v) && NearestRoot(n, v)) && !(LargestRoot(m, v) && LargestRoot(n, v))
  {
    if m >= 1 {
      Squares(m as real + 0.5, n as real - 0.5);
      Squares(m as real + 1.0, n as real);
    }
  }

  lemma DrawnUnique(d: Draw, H: int, W: int, e: Extent, e': Extent)
    requires d.ratio > 0.0 && Drawn(d, H, W, e) && Drawn(d, H, W, e')
    ensures e == e'
  {
    hide NearestRoot, LargestRoot, Part, Area, Ratio;
    var area := Part(d.scale, Area(H, W));
    RootUnique(e.w, e'.w, Part(area, d.ratio));
    RootUnique(e.h, e'.h, Ratio(area, d.ratio));
  }

  // A draw is refused or accepted, not both.
  lemma NotBoth(r: Ranges, d: Draw, H: int, W: int, e: Extent)
    requires d.ratio > 0.0 && Drawn(d, H, W, e) && Accepted(r, e, H, W)
    ensures !Refused(r, d, H, W)
  {
    hide Drawn, Accepted;
    if Refused(r, d, H, W) {
      var f :| Drawn(d, H, W, f) && !Accepted(r, f, H, W);
      DrawnUnique(d, H, W, e, f);
    }
  }

  lemma FirstUnique(r: Ranges, draws: seq<Draw>, H: int, W: int, i: nat, e: Extent, j: nat, f: Extent)
    requires FirstAccepted(r, draws, i, H, W, e) && FirstAccepted(r, draws, j, H, W, f)
    ensures e == f
  {
    hide Drawn, Accepted, Refused;
    NotBoth(r, draws[i], H, W, e);
    NotBoth(r, draws[j], H, W, f);
    if i == j {
      DrawnUnique(draws[i], H, W, e, f);
    }
  }

  lemma NoneFirst(r: Ranges, draws: seq<Draw>, H: int, W: int, i: nat, e: Extent)
    requires FirstAccepted(r, draws, i, H, W, e)
    ensures i < |draws| && !Refused(r, draws[i], H, W)
  {
    hide Drawn, Accepted, Refused;
    NotBoth(r, draws[i], H, W, e);
  }

  lemma ShrunkUnique(b: Extent, area: real, e: Extent, f: Extent)
    requires b.w > 0 && b.h > 0 && ShrunkTo(b, area, e) && ShrunkTo(b, area, f)
    ensures e == f
  {
    hide NearestRoot, LargestRoot, Part, Area, Ratio;
    AreaIsPart(b.w, b.h);
    var left := Ratio(area, Area(b.w, b.h));
    var scale := if left < 1.0 then left else 1.0;
    RootUnique(e.w, f.w, Part(Area(b.w, b.w), scale));
    RootUnique(e.h, f.h, Part(Area(b.h, b.h), scale));
  }

  /** The ranges, the image and the draws leave one size only. */
  lemma SizeDetermined(r: Ranges, H: int, W: int, draws: seq<Draw>, maxW: int, maxH: int, e: Extent, f: Extent)
    requires H > 0 && W > 0 && maxW > 0 && maxH > 0
    requires SizeOf(r, H, W, draws, maxW, maxH, e) && SizeOf(r, H, W, draws, maxW, maxH, f)
    ensures e == f
  {
    hide Part, Area, Ratio, FirstAccepted, Refused, ShrunkTo;
    if Area(H, maxW) >= Part(Area(W, H), r.minArea) && Area(W, maxH) >= Part(Area(W, H), r.minArea) {
      if i: nat :| FirstAccepted(r, draws, i, H, W, e) {
        NoneFirst(r, draws, H, W, i, e);
        var j: nat :| FirstAccepted(r, draws, j, H, W, f);
        FirstUnique(r, draws, H, W, i, e, j, f);
      } else if j: nat :| FirstAccepted(r, draws, j, H, W, f) {
        NoneFirst(r, draws, H, W, j, f);
      } else {
        ShrunkUnique(LargestAllowed(r, H, W, maxW, maxH), Part(Area(W, H), r.maxArea), e, f);
      }
    }
  }
}
