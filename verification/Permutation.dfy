/** Axis permutations: applying, inverting, and what a permutation leaves invariant. */
module Permutation {
  import opened TensorIndex

  predicate IsPermutation(p: seq<int>) {
    && (forall d :: 0 <= d < |p| ==> 0 <= p[d] < |p|)
    && (forall d, e :: 0 <= d < e < |p| ==> p[d] != p[e])
  }

  function Permuted<T>(v: seq<T>, p: seq<int>): (r: seq<T>)
    requires |v| == |p| && forall d :: 0 <= d < |p| ==> 0 <= p[d] < |p|
    ensures |r| == |v| && forall d :: 0 <= d < |v| ==> r[d] == v[p[d]]
  {
    seq(|v|, d requires 0 <= d < |v| => v[p[d]])
  }

  ghost predicate Inverses(p: seq<int>, q: seq<int>) {
    && |q| == |p|
    && (forall d :: 0 <= d < |p| ==> 0 <= p[d] < |p| && 0 <= q[d] < |p|)
    && (forall d :: 0 <= d < |p| ==> q[p[d]] == d)
    && (forall d :: 0 <= d < |p| ==> p[q[d]] == d)
  }

  /** permute: entry d of the result is entry p[d] of the container. */
  method Permute<T>(container: seq<T>, p: seq<int>) returns (permuted: array<T>)
    requires |container| == |p| && IsPermutation(p)
    ensures fresh(permuted) && permuted[..] == Permuted(container, p)
  {
    permuted := new T[|container|](d requires 0 <= d < |container| => container[d]);
    for d := 0 to |p|
      invariant permuted.Length == |p|
      invariant forall e :: 0 <= e < d ==> permuted[e] == container[p[e]]
    {
      permuted[d] := container[p[d]];
    }
  }

  // ---- an injective index vector hits every index (pigeonhole) ------------------------

  ghost function Range(n: nat): (r: set<int>)
    ensures |r| == n && forall i :: i in r <==> 0 <= i < n
  {
    if n == 0 then {} else Range(n - 1) + {n - 1}
  }

  ghost function Image(p: seq<int>): (r: set<int>) {
    set d | 0 <= d < |p| :: p[d]
  }

  lemma {:induction false} ImageSize(p: seq<int>)
    requires forall d, e :: 0 <= d < e < |p| ==> p[d] != p[e]
    ensures |Image(p)| == |p|
  {
    if p != [] {
      var q := p[..|p| - 1];
      ImageSize(q);
      assert Image(p) == Image(q) + {p[|p| - 1]} by {
        forall x | x in Image(p) ensures x in Image(q) + {p[|p| - 1]} {
          var d :| 0 <= d < |p| && p[d] == x;
          if d < |p| - 1 { assert q[d] == x; }
        }
        forall x | x in Image(q) ensures x in Image(p) {
          var d :| 0 <= d < |q| && q[d] == x;
          assert p[d] == x;
        }
      }
      assert p[|p| - 1] !in Image(q);
    }
  }

  lemma SubsetSize(a: set<int>, b: set<int>)
    requires a <= b
    ensures |a| <= |b| && (|a| == |b| ==> a == b)
  {
    assert b == a + (b - a);
    if |a| == |b| {
      assert |b - a| == 0;
    }
  }

  lemma Surjective(p: seq<int>, a: int)
    requires IsPermutation(p) && 0 <= a < |p|
    ensures exists d :: 0 <= d < |p| && p[d] == a
  {
    ImageSize(p);
    SubsetSize(Image(p), Range(|p|));
    assert a in Image(p);
  }

  /** inverse_permutation: a two-sided inverse. */
  method InversePermutation(p: seq<int>) returns (inv: array<int>)
    requires IsPermutation(p)
    ensures fresh(inv) && Inverses(p, inv[..])
  {
    inv := new int[|p|](d requires 0 <= d < |p| => p[d]);
    for d := 0 to |p|
      invariant inv.Length == |p|
      invariant forall e :: 0 <= e < d ==> inv[p[e]] == e
    {
      inv[p[d]] := d;
    }
    ghost var q := inv[..];
    assert forall e :: 0 <= e < |p| ==> q[p[e]] == e;
    forall a | 0 <= a < |p| ensures 0 <= q[a] < |p| && p[q[a]] == a {
      Surjective(p, a);
    }
  }

  lemma InverseIsPermutation(p: seq<int>, q: seq<int>)
    requires Inverses(p, q)
    ensures IsPermutation(p) && IsPermutation(q)
  {
  }

  lemma PermutedBack<T>(v: seq<T>, p: seq<int>, q: seq<int>)
    requires Inverses(p, q) && |v| == |p|
    ensures Permuted(Permuted(v, p), q) == v
  {
  }

  // ---- permutation invariants --------------------------------------------------------

  function DropAt<T>(s: seq<T>, i: int): seq<T>
    requires 0 <= i < |s|
  {
    s[..i] + s[i + 1..]
  }

  lemma PermutedDropMax<T>(v: seq<T>, p: seq<int>, i: int)
    requires IsPermutation(p) && |v| == |p| && 0 <= i < |p| && p[i] == |p| - 1
    ensures IsPermutation(DropAt(p, i))
    ensures Permuted(v[..|v| - 1], DropAt(p, i)) == DropAt(Permuted(v, p), i)
  {
    var q := DropAt(p, i);
    assert forall d :: 0 <= d < |q| ==> q[d] == p[if d < i then d else d + 1];
    assert forall d :: 0 <= d < |p| && d != i ==> p[d] != p[i];
  }

  lemma DropAtMultiset<T>(s: seq<T>, i: int)
    requires 0 <= i < |s|
    ensures multiset(s) == multiset(DropAt(s, i)) + multiset{s[i]}
  {
    assert s == s[..i] + [s[i]] + s[i + 1..];
  }

  lemma DropLast<T>(v: seq<T>)
    requires v != []
    ensures multiset(v) == multiset(v[..|v| - 1]) + multiset{v[|v| - 1]}
  {
    assert v == v[..|v| - 1] + [v[|v| - 1]];
  }

  lemma {:induction false} PermutedMultiset<T>(v: seq<T>, p: seq<int>)
    requires IsPermutation(p) && |v| == |p|
    ensures multiset(Permuted(v, p)) == multiset(v)
  {
    var n := |p|;
    if n == 0 {
      assert Permuted(v, p) == v;
    } else {
      Surjective(p, n - 1);
      var i :| 0 <= i < n && p[i] == n - 1;
      assert Permuted(v, p)[i] == v[n - 1];
      hide Permuted, IsPermutation, DropAt;
      DropAtMultiset(Permuted(v, p), i);
      DropLast(v);
      PermutedDropMax(v, p, i);
      PermutedMultiset(v[..n - 1], DropAt(p, i));
    }
  }

  lemma {:induction false} VolumeDropAt(s: Shape, i: int)
    requires 0 <= i < |s|
    ensures Volume(s) == s[i] * Volume(DropAt(s, i))
  {
    var d := DropAt(s, i);
    if i == 0 {
      assert d == s[1..];
    } else {
      VolumeDropAt(s[1..], i - 1);
      assert d[1..] == DropAt(s[1..], i - 1);
      var a, b, v := s[0], s[i], Volume(d[1..]);
      assert a * (b * v) == b * (a * v);
    }
  }

  function Sum(v: seq<int>): int {
    if v == [] then 0 else v[0] + Sum(v[1..])
  }

  lemma {:induction false} SumDropAt(s: seq<int>, i: int)
    requires 0 <= i < |s|
    ensures Sum(s) == s[i] + Sum(DropAt(s, i))
  {
    var d := DropAt(s, i);
    if i == 0 {
      assert d == s[1..];
    } else {
      SumDropAt(s[1..], i - 1);
      assert d[1..] == DropAt(s[1..], i - 1);
    }
  }

  lemma MatchHead<T>(a: seq<T>, b: seq<T>) returns (i: int)
    requires a != [] && multiset(a) == multiset(b)
    ensures 0 <= i < |b| && b[i] == a[0]
    ensures multiset(DropAt(a, 0)) == multiset(DropAt(b, i))
  {
    assert a[0] in multiset(b);
    i :| 0 <= i < |b| && b[i] == a[0];
    DropAtMultiset(a, 0);
    DropAtMultiset(b, i);
    var x, y := multiset(DropAt(a, 0)), multiset(DropAt(b, i));
    assert x == multiset(a) - multiset{a[0]} && y == multiset(b) - multiset{a[0]};
  }

  lemma SameMultisetSize<T>(a: seq<T>, b: seq<T>)
    requires multiset(a) == multiset(b)
    ensures |a| == |b|
  {
    assert |multiset(a)| == |a| && |multiset(b)| == |b|;
  }

  lemma {:induction false} SameMultisetSum(a: seq<int>, b: seq<int>)
    requires multiset(a) == multiset(b)
    ensures Sum(a) == Sum(b)
  {
    SameMultisetSize(a, b);
    if a != [] {
      var i := MatchHead(a, b);
      SumDropAt(a, 0);
      SumDropAt(b, i);
      SameMultisetSum(DropAt(a, 0), DropAt(b, i));
    }
  }

  lemma {:induction false} SameMultisetVolume(a: Shape, b: Shape)
    requires multiset(a) == multiset(b)
    ensures Volume(a) == Volume(b)
  {
    SameMultisetSize(a, b);
    if a != [] {
      var i := MatchHead(a, b);
      VolumeDropAt(a, 0);
      VolumeDropAt(b, i);
      SameMultisetVolume(DropAt(a, 0), DropAt(b, i));
    }
  }

  /** Transposing the axes does not change the number of elements. */
  lemma VolumePermuted(shape: Shape, p: seq<int>)
    requires IsPermutation(p) && |shape| == |p|
    ensures Volume(Permuted(shape, p)) == Volume(shape)
  {
    PermutedMultiset(shape, p);
    SameMultisetVolume(Permuted(shape, p), shape);
  }

  function Products(s: seq<int>, k: seq<int>): (r: seq<int>)
    requires |s| == |k|
  {
    seq(|s|, d requires 0 <= d < |s| => s[d] * k[d])
  }

  lemma {:induction false} DotIsSum(s: seq<int>, k: seq<int>)
    requires |s| == |k|
    ensures Dot(s, k) == Sum(Products(s, k))
  {
    if s != [] {
      DotIsSum(s[1..], k[1..]);
      assert Products(s, k)[1..] == Products(s[1..], k[1..]);
    }
  }

  /** Permuting strides and coordinates together reaches the same position. */
  lemma DotPermuted(s: seq<int>, k: seq<int>, p: seq<int>)
    requires IsPermutation(p) && |s| == |k| == |p|
    ensures Dot(Permuted(s, p), Permuted(k, p)) == Dot(s, k)
  {
    DotIsSum(s, k);
    DotIsSum(Permuted(s, p), Permuted(k, p));
    assert Products(Permuted(s, p), Permuted(k, p)) == Permuted(Products(s, k), p);
    PermutedMultiset(Products(s, k), p);
    SameMultisetSum(Permuted(Products(s, k), p), Products(s, k));
  }
}
