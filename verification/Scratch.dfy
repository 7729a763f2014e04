/** Scratch memory: the estimator, the bump allocator that replays the requests, the growing
    buffers behind it and the manager that ties them together. */
module Scratch {
  import opened MachineWord

  const NUM_ALLOC_TYPES := 4

  // Host, pinned, GPU and unified memory.
  newtype Kind = k: int | 0 <= k < NUM_ALLOC_TYPES

  // `count` objects of `size` bytes, aligned to 2^log.
  datatype Request = Request(kind: Kind, count: nat, size: nat, log: nat) {
    function Bytes(): nat { count * size }
  }

  const BASE_LOG := 6  // buffers start at a multiple of 64

  predicate Supported(reqs: seq<Request>) {
    forall r :: r in reqs ==> r.log <= BASE_LOG
  }

  // ---- specification -----------------------------------------------------------------------------

  /** Size the estimator predicts for one kind of memory. */
  function Estimated(k: Kind, reqs: seq<Request>): nat {
    if reqs == [] then 0
    else
      var before, last := Estimated(k, reqs[..|reqs| - 1]), reqs[|reqs| - 1];
      if last.kind != k || last.count == 0 then before else AlignUp(before, last.log) + last.Bytes()
  }

  /** Bytes the allocator has handed out or skipped, on an aligned base. */
  function Used(k: Kind, reqs: seq<Request>): nat {
    if reqs == [] then 0
    else
      var before, last := Used(k, reqs[..|reqs| - 1]), reqs[|reqs| - 1];
      if last.kind != k then before else AlignUp(before, last.log) + last.Bytes()
  }

  // Offset of the block for request i.
  function Offset(reqs: seq<Request>, i: nat): nat
    requires i < |reqs|
  {
    AlignUp(Used(reqs[i].kind, reqs[..i]), reqs[i].log)
  }

  /** The requests use no more of any kind of memory than is estimated. */
  predicate WithinEstimate(reqs: seq<Request>) {
    forall k: Kind :: Used(k, reqs) <= Estimated(k, reqs)
  }

  lemma UsedNothing(k: Kind)
    ensures Used(k, []) == 0 && Estimated(k, []) == 0
  {
  }

  lemma UsedSnoc(k: Kind, reqs: seq<Request>, i: nat)
    requires i < |reqs|
    ensures Used(k, reqs[..i + 1]) ==
            if reqs[i].kind == k then Offset(reqs, i) + reqs[i].Bytes() else Used(k, reqs[..i])
    ensures Used(k, reqs[..i]) <= Used(k, reqs[..i + 1])
  {
    assert reqs[..i + 1][..i] == reqs[..i];
  }

  lemma EstimatedSnoc(k: Kind, reqs: seq<Request>, i: nat)
    requires i < |reqs|
    ensures Estimated(k, reqs[..i + 1]) ==
            if reqs[i].kind != k || reqs[i].count == 0 then Estimated(k, reqs[..i])
            else AlignUp(Estimated(k, reqs[..i]), reqs[i].log) + reqs[i].Bytes()
  {
    assert reqs[..i + 1][..i] == reqs[..i];
  }

  lemma {:induction false} UsedGrows(k: Kind, reqs: seq<Request>, i: nat, j: nat)
    requires i <= j <= |reqs|
    ensures Used(k, reqs[..i]) <= Used(k, reqs[..j])
    decreases j - i
  {
    hide Used;
    if i < j {
      UsedSnoc(k, reqs, j - 1);
      UsedGrows(k, reqs, i, j - 1);
    }
  }

  /** An empty request that needs no padding. */
  predicate Harmless(k: Kind, reqs: seq<Request>, i: nat)
    requires i < |reqs|
  {
    reqs[i].kind == k && reqs[i].count == 0 ==> Estimated(k, reqs[..i]) % Pow2(reqs[i].log) == 0
  }

  lemma HarmlessMeans(k: Kind, reqs: seq<Request>, i: nat)
    requires Supported(reqs) && i < |reqs|
    ensures Harmless(k, reqs, i) <==>
            (reqs[i].kind == k && reqs[i].count == 0 ==> AlignUp(Estimated(k, reqs[..i]), reqs[i].log) == Estimated(k, reqs[..i]))
    ensures reqs[i].count == 0 ==> reqs[i].Bytes() == 0
  {
    assert reqs[i] in reqs;
    hide Estimated, AlignUp, Pow2;
    AlreadyAligned(Estimated(k, reqs[..i]), reqs[i].log);
  }

  lemma FollowsNext(k: Kind, reqs: seq<Request>, i: nat)
    requires Supported(reqs) && i < |reqs| && Used(k, reqs[..i]) == Estimated(k, reqs[..i])
    ensures Used(k, reqs[..i + 1]) == Estimated(k, reqs[..i + 1]) <==> Harmless(k, reqs, i)
  {
    hide Used, Estimated, AlignUp, Pow2, Harmless;
    UsedSnoc(k, reqs, i);
    EstimatedSnoc(k, reqs, i);
    HarmlessMeans(k, reqs, i);
  }

  /** The allocator follows the estimate through every prefix exactly when each empty request falls
      on an aligned size. */
  lemma {:induction false} UsedIsEstimated(k: Kind, reqs: seq<Request>, n: nat)
    requires Supported(reqs) && n <= |reqs|
    ensures (forall i :: 0 <= i <= n ==> Used(k, reqs[..i]) == Estimated(k, reqs[..i])) <==>
            (forall i :: 0 <= i < n ==> Harmless(k, reqs, i))
    decreases n
  {
    hide Used, Estimated, Harmless, Supported;
    if n == 0 {
      UsedNothing(k);
      assert reqs[..0] == [];
    } else {
      UsedIsEstimated(k, reqs, n - 1);
      if Used(k, reqs[..n - 1]) == Estimated(k, reqs[..n - 1]) {
        FollowsNext(k, reqs, n - 1);
      }
    }
  }

  /** In particular, requests that are never empty stay within the estimate. */
  lemma PositiveCounts(k: Kind, reqs: seq<Request>)
    requires Supported(reqs) && forall r :: r in reqs ==> r.count > 0
    ensures Used(k, reqs) == Estimated(k, reqs)
  {
    forall i | 0 <= i < |reqs| ensures Harmless(k, reqs, i) {
      assert reqs[i] in reqs;
    }
    UsedIsEstimated(k, reqs, |reqs|);
    assert reqs[..|reqs|] == reqs;
  }

  function NonEmpty(reqs: seq<Request>): seq<Request> {
    if reqs == [] then []
    else NonEmpty(reqs[..|reqs| - 1]) + if reqs[|reqs| - 1].count == 0 then [] else [reqs[|reqs| - 1]]
  }

  /** The estimate is what the non-empty requests alone would use. */
  lemma {:induction false} EstimatedIsUsed(k: Kind, reqs: seq<Request>)
    ensures Estimated(k, reqs) == Used(k, NonEmpty(reqs))
  {
    if reqs != [] {
      var front, last := reqs[..|reqs| - 1], reqs[|reqs| - 1];
      EstimatedIsUsed(k, front);
      if last.count == 0 {
        assert NonEmpty(reqs) == NonEmpty(front) + [] == NonEmpty(front);
      } else {
        var kept := NonEmpty(front) + [last];
        assert kept[..|kept| - 1] == NonEmpty(front);
      }
    }
  }

  // ---- layout ---------------------------------------------------------------------------------------

  datatype Area = Area(start: nat, len: nat)

  predicate Aligned(areas: seq<Area>, reqs: seq<Request>, ps: seq<nat>)
    requires |areas| == NUM_ALLOC_TYPES && |ps| == |reqs|
  {
    forall i :: 0 <= i < |reqs| ==> ps[i] % Pow2(reqs[i].log) == 0
  }

  predicate Inside(areas: seq<Area>, reqs: seq<Request>, ps: seq<nat>)
    requires |areas| == NUM_ALLOC_TYPES && |ps| == |reqs|
  {
    forall i :: 0 <= i < |reqs| ==>
      && areas[reqs[i].kind].start <= ps[i]
      && ps[i] + reqs[i].Bytes() <= areas[reqs[i].kind].start + areas[reqs[i].kind].len
  }

  predicate Disjoint(reqs: seq<Request>, ps: seq<nat>)
    requires |ps| == |reqs|
  {
    forall i, j :: 0 <= i < j < |reqs| && reqs[i].kind == reqs[j].kind ==> ps[i] + reqs[i].Bytes() <= ps[j]
  }

  /** Every request got an aligned block of its own inside its area. */
  ghost predicate Laid(areas: seq<Area>, reqs: seq<Request>, ps: seq<nat>) {
    |areas| == NUM_ALLOC_TYPES && |ps| == |reqs| && Aligned(areas, reqs, ps) && Inside(areas, reqs, ps) && Disjoint(reqs, ps)
  }

  ghost predicate Placed(areas: seq<Area>, reqs: seq<Request>, ps: seq<nat>) {
    && |areas| == NUM_ALLOC_TYPES && |ps| == |reqs|
    && forall i :: 0 <= i < |reqs| ==> ps[i] == areas[reqs[i].kind].start + Offset(reqs, i)
  }

  predicate Enough(areas: seq<Area>, reqs: seq<Request>) {
    && |areas| == NUM_ALLOC_TYPES
    && forall k: Kind :: areas[k].start % Pow2(BASE_LOG) == 0 && Used(k, reqs) <= areas[k].len
  }

  lemma OffsetFits(areas: seq<Area>, reqs: seq<Request>, i: nat)
    requires Enough(areas, reqs) && Supported(reqs) && i < |reqs|
    ensures Offset(reqs, i) + reqs[i].Bytes() <= areas[reqs[i].kind].len
    ensures (areas[reqs[i].kind].start + Offset(reqs, i)) % Pow2(reqs[i].log) == 0
  {
    var k, log := reqs[i].kind, reqs[i].log;
    assert areas[k].start % Pow2(BASE_LOG) == 0;
    hide Pow2, Used, AlignUp;
    UsedSnoc(k, reqs, i);
    UsedGrows(k, reqs, i + 1, |reqs|);
    assert reqs[..|reqs|] == reqs;
    SmallerAlignment(areas[k].start, log, BASE_LOG);
    PaddingAligns(Used(k, reqs[..i]), log);
    MultiplesAdd(areas[k].start, Offset(reqs, i), Pow2(log));
  }

  // Every request ends within its area: BumpAllocator's assertion holds throughout.
  predicate Fits(areas: seq<Area>, reqs: seq<Request>)
    requires |areas| == NUM_ALLOC_TYPES
  {
    forall i :: 0 <= i < |reqs| ==> Offset(reqs, i) + reqs[i].Bytes() <= areas[reqs[i].kind].len
  }

  /** No request runs past its area if and only if each area holds what the requests use in all. */
  lemma FitsExactly(areas: seq<Area>, reqs: seq<Request>)
    requires |areas| == NUM_ALLOC_TYPES
    ensures Fits(areas, reqs) <==> forall k: Kind :: Used(k, reqs) <= areas[k].len
  {
    hide Used, Offset;
    assert reqs[..|reqs|] == reqs;
    if Fits(areas, reqs) {
      forall k: Kind ensures Used(k, reqs) <= areas[k].len {
        FitsUsed(areas, reqs, k, |reqs|);
      }
    }
    if forall k: Kind :: Used(k, reqs) <= areas[k].len {
      forall i | 0 <= i < |reqs| ensures Offset(reqs, i) + reqs[i].Bytes() <= areas[reqs[i].kind].len {
        UsedSnoc(reqs[i].kind, reqs, i);
        UsedGrows(reqs[i].kind, reqs, i + 1, |reqs|);
      }
    }
  }

  lemma {:induction false} FitsUsed(areas: seq<Area>, reqs: seq<Request>, k: Kind, n: nat)
    requires |areas| == NUM_ALLOC_TYPES && Fits(areas, reqs) && n <= |reqs|
    ensures Used(k, reqs[..n]) <= areas[k].len
  {
    hide Used, Offset;
    if n == 0 {
      UsedNothing(k);
      assert reqs[..0] == [];
    } else {
      UsedSnoc(k, reqs, n - 1);
      FitsUsed(areas, reqs, k, n - 1);
    }
  }

  lemma OffsetsApart(reqs: seq<Request>, i: nat, j: nat)
    requires i < j < |reqs| && reqs[i].kind == reqs[j].kind
    ensures Offset(reqs, i) + reqs[i].Bytes() <= Offset(reqs, j)
  {
    hide Used;
    UsedSnoc(reqs[i].kind, reqs, i);
    UsedGrows(reqs[i].kind, reqs, i + 1, j);
  }

  lemma PlacedIsLaid(areas: seq<Area>, reqs: seq<Request>, ps: seq<nat>)
    requires Enough(areas, reqs) && Supported(reqs) && Placed(areas, reqs, ps)
    ensures Laid(areas, reqs, ps)
  {
    hide Enough, Pow2, Offset;
    forall i | 0 <= i < |reqs| ensures ps[i] % Pow2(reqs[i].log) == 0 &&
               ps[i] + reqs[i].Bytes() <= areas[reqs[i].kind].start + areas[reqs[i].kind].len
    {
      OffsetFits(areas, reqs, i);
    }
    forall i, j | 0 <= i < j < |reqs| && reqs[i].kind == reqs[j].kind ensures ps[i] + reqs[i].Bytes() <= ps[j] {
      OffsetsApart(reqs, i, j);
    }
  }

  // ---- the estimator --------------------------------------------------------------------------------

  class ScratchpadEstimator {
    const sizes: array<nat>

    constructor ()
      ensures fresh(sizes) && sizes.Length == NUM_ALLOC_TYPES
      ensures forall k: Kind :: sizes[k] == Estimated(k, [])
    {
      sizes := new nat[NUM_ALLOC_TYPES](_ => 0);
    }

    method Add(r: Request, ghost before: seq<Request>) returns (total: nat)
      requires sizes.Length == NUM_ALLOC_TYPES && forall k: Kind :: sizes[k] == Estimated(k, before)
      modifies sizes
      ensures forall k: Kind :: sizes[k] == Estimated(k, before + [r])
      ensures total == Estimated(r.kind, before + [r])
    {
      assert (before + [r])[..|before|] == before;
      var offset := AlignUp(sizes[r.kind], r.log);
      if r.count != 0 {
        sizes[r.kind] := offset + r.count * r.size;
      }
      total := sizes[r.kind];
    }
  }

  // ---- the bump allocator -----------------------------------------------------------------------------

  datatype Bump = Bump(memory: nat, total: nat, used: nat)

  class PreallocatedScratchpad {
    var allocs: seq<Bump>

    constructor (allocs: seq<Bump>)
      requires |allocs| == NUM_ALLOC_TYPES
      ensures this.allocs == allocs
    {
      this.allocs := allocs;
    }

    // BumpAllocator::alloc; its assertion is the precondition.
    method Take(k: Kind, bytes: nat) returns (p: nat)
      requires |allocs| == NUM_ALLOC_TYPES && allocs[k].used + bytes <= allocs[k].total
      modifies this
      ensures allocs == old(allocs)[k := old(allocs)[k].(used := old(allocs)[k].used + bytes)]
      ensures p == old(allocs)[k].memory + old(allocs)[k].used
    {
      p := allocs[k].memory + allocs[k].used;
      allocs := allocs[k := allocs[k].(used := allocs[k].used + bytes)];
    }

    method Alloc(k: Kind, bytes: nat, log: nat) returns (p: nat)
      requires |allocs| == NUM_ALLOC_TYPES && log <= BASE_LOG && allocs[k].memory % Pow2(BASE_LOG) == 0
      requires AlignUp(allocs[k].used, log) + bytes <= allocs[k].total
      modifies this
      ensures p == old(allocs)[k].memory + AlignUp(old(allocs)[k].used, log)
      ensures allocs == old(allocs)[k := old(allocs)[k].(used := AlignUp(old(allocs)[k].used, log) + bytes)]
    {
      var ptr := allocs[k].memory + allocs[k].used;
      assert Padding(ptr, log) == Padding(allocs[k].used, log) by {
        SmallerAlignment(allocs[k].memory, log, BASE_LOG);
        AlignUpShift(allocs[k].memory, allocs[k].used, log);
      }
      hide Pow2, Padding;
      var _ := Take(k, Padding(ptr, log));
      p := Take(k, bytes);
    }
  }

  /** The allocators after the first i requests. */
  ghost predicate At(allocs: seq<Bump>, areas: seq<Area>, reqs: seq<Request>, i: nat)
    requires i <= |reqs|
  {
    && |allocs| == |areas| == NUM_ALLOC_TYPES
    && forall k: Kind :: allocs[k] == Bump(areas[k].start, areas[k].len, Used(k, reqs[..i]))
  }

  lemma AtNext(allocs: seq<Bump>, areas: seq<Area>, reqs: seq<Request>, i: nat, r: Request)
    requires i < |reqs| && r == reqs[i] && At(allocs, areas, reqs, i)
    ensures Offset(reqs, i) == AlignUp(allocs[r.kind].used, r.log)
    ensures At(allocs[r.kind := allocs[r.kind].(used := Offset(reqs, i) + r.Bytes())], areas, reqs, i + 1)
  {
    forall k: Kind {
      UsedSnoc(k, reqs, i);
    }
    hide Used, AlignUp;
  }

  lemma EnoughBase(areas: seq<Area>, reqs: seq<Request>, k: Kind)
    requires Enough(areas, reqs)
    ensures |areas| == NUM_ALLOC_TYPES && areas[k].start % Pow2(BASE_LOG) == 0
  {
  }

  /** Replaying requests through the scratchpad: when the areas hold what the requests use, no
      allocation runs past its area, and the blocks are laid out. */
  method Replay(pad: PreallocatedScratchpad, areas: seq<Area>, reqs: seq<Request>) returns (ps: seq<nat>)
    requires Supported(reqs) && Enough(areas, reqs) && At(pad.allocs, areas, reqs, 0)
    modifies pad
    ensures Laid(areas, reqs, ps) && At(pad.allocs, areas, reqs, |reqs|)
  {
    hide *;
    ps := [];
    AtLength(pad.allocs, areas, reqs);
    for i := 0 to |reqs|
      invariant At(pad.allocs, areas, reqs, i) && |ps| == i && |areas| == NUM_ALLOC_TYPES
      invariant forall j :: 0 <= j < i ==> ps[j] == areas[reqs[j].kind].start + Offset(reqs, j)
    {
      var r := reqs[i];
      AtNext(pad.allocs, areas, reqs, i, r);
      AtFields(pad.allocs, areas, reqs, i, r.kind);
      EnoughBase(areas, reqs, r.kind);
      OffsetFits(areas, reqs, i);
      assert r.log <= BASE_LOG by { SupportedAt(reqs, i); }
      assert r.Bytes() == r.count * r.size by { BytesIs(r); }
      var p := pad.Alloc(r.kind, r.count * r.size, r.log);
      ps := ps + [p];
    }
    assert Placed(areas, reqs, ps) by { PlacedFold(areas, reqs, ps); }
    PlacedIsLaid(areas, reqs, ps);
  }

  lemma AtLength(allocs: seq<Bump>, areas: seq<Area>, reqs: seq<Request>)
    requires At(allocs, areas, reqs, 0)
    ensures |areas| == NUM_ALLOC_TYPES
  {
  }

  lemma AtFields(allocs: seq<Bump>, areas: seq<Area>, reqs: seq<Request>, i: nat, k: Kind)
    requires i <= |reqs| && At(allocs, areas, reqs, i)
    ensures |allocs| == NUM_ALLOC_TYPES && |areas| == NUM_ALLOC_TYPES
    ensures allocs[k].memory == areas[k].start && allocs[k].total == areas[k].len
  {
  }

  lemma SupportedAt(reqs: seq<Request>, i: nat)
    requires i < |reqs| && Supported(reqs)
    ensures reqs[i].log <= BASE_LOG
  {
  }

  lemma BytesIs(r: Request)
    ensures r.Bytes() == r.count * r.size
  {
  }

  lemma PlacedFold(areas: seq<Area>, reqs: seq<Request>, ps: seq<nat>)
    requires |areas| == NUM_ALLOC_TYPES && |ps| == |reqs|
    requires forall i :: 0 <= i < |reqs| ==> ps[i] == areas[reqs[i].kind].start + Offset(reqs, i)
    ensures Placed(areas, reqs, ps)
  {
  }
}
