/** Buffers that grow behind the scratchpad, and the kernel manager that reserves them. */
module ScratchGrowth {
  import opened MachineWord
  import opened Scratch

  // One buffer of a ScratchpadAllocator: where the memory was obtained, how much of it is usable
  // and after how much padding, and the allocation policy.
  datatype Buffer = Buffer(mem: nat, capacity: nat, padding: nat, growthRatio: real, margin: real)

  const FRESH := Buffer(0, 0, 0, 2.0, 0.1)

  predicate GoodBuffer(b: Buffer) {
    b.growthRatio >= 0.0 && b.margin >= 0.0 && (b.mem + b.padding) % Pow2(BASE_LOG) == 0
  }

  const ALIGNMENT := 64

  function Floor(x: real): nat
    requires x >= 0.0
  {
    x.Floor
  }

  function Scaled(n: nat, factor: real): nat
    requires factor >= 0.0
  {
    ScaledNonNegative(n, factor);
    Floor(n as real * factor)
  }

  lemma ScaledNonNegative(n: nat, factor: real)
    requires factor >= 0.0
    ensures n as real * factor >= 0.0
  {
  }

  lemma ScaledAtLeast(n: nat, factor: real)
    requires factor >= 1.0
    ensures Scaled(n, factor) >= n
  {
    assert n as real * factor >= n as real * 1.0;
  }

  // What Reserve asks for, before alignment.
  function Wanted(b: Buffer, size: nat): nat
    requires b.growthRatio >= 0.0 && b.margin >= 0.0
  {
    var grown, padded := Scaled(b.capacity, b.growthRatio), Scaled(size, 1.0 + b.margin);
    if b.capacity >= size then b.capacity else if padded > grown then padded else grown
  }

  lemma WantedSuffices(b: Buffer, size: nat)
    requires b.growthRatio >= 0.0 && b.margin >= 0.0
    ensures Wanted(b, size) >= size && Wanted(b, size) >= b.capacity
  {
    ScaledAtLeast(size, 1.0 + b.margin);
  }

  // `addr`: the address that the memory backend returns for the new allocation.
  function Reallocated(b: Buffer, capacity: nat, addr: nat): Buffer {
    var padding := Padding(addr, BASE_LOG);
    PaddingAligns(addr, BASE_LOG);
    assert Pow2(BASE_LOG) == ALIGNMENT;
    b.(mem := addr, capacity := capacity + ALIGNMENT - padding, padding := padding)
  }

  function Reserved(b: Buffer, size: nat, addr: nat): Buffer
    requires b.growthRatio >= 0.0 && b.margin >= 0.0
  {
    if b.capacity >= size then b else Reallocated(b, Wanted(b, size), addr)
  }

  // The whole part of a scaled number.
  ghost predicate IsFloor(n: int, x: real) {
    n as real <= x < n as real + 1.0
  }

  /** The policy: a buffer that is too small is replaced by one for the larger of its capacity times the
      growth ratio and the size with its margin, in whole bytes; the allocation has 64 bytes more. */
  lemma PolicyIs(b: Buffer, size: nat, addr: nat)
    requires GoodBuffer(b) && b.capacity < size
    ensures var r := Reserved(b, size, addr);
            var usable := r.padding + r.capacity - 64;
            && (IsFloor(usable, b.capacity as real * b.growthRatio) || IsFloor(usable, size as real * (1.0 + b.margin)))
            && b.capacity as real * b.growthRatio < usable as real + 1.0 && size as real * (1.0 + b.margin) < usable as real + 1.0
  {
    var grown, padded := Scaled(b.capacity, b.growthRatio), Scaled(size, 1.0 + b.margin);
    ScaledNonNegative(b.capacity, b.growthRatio);
    ScaledNonNegative(size, 1.0 + b.margin);
    assert IsFloor(grown, b.capacity as real * b.growthRatio) && IsFloor(padded, size as real * (1.0 + b.margin));
    ReservedFits(b, size, addr);
  }

  /** A reserved buffer holds the size, starts at an aligned address, never got smaller and, when
      it was reallocated, ends where the allocation of Wanted + 64 bytes ends. */
  lemma ReservedFits(b: Buffer, size: nat, addr: nat)
    requires GoodBuffer(b)
    ensures var r := Reserved(b, size, addr);
            && GoodBuffer(r) && r.capacity >= size && r.capacity >= b.capacity
            && (b.capacity >= size ==> r == b)
            && (b.capacity < size ==> r.capacity > b.capacity && r.mem == addr && r.padding < ALIGNMENT
                                      && r.padding + r.capacity == Wanted(b, size) + ALIGNMENT)
  {
    WantedSuffices(b, size);
    PaddingAligns(addr, BASE_LOG);
    assert Pow2(BASE_LOG) == ALIGNMENT;
  }

  class ScratchpadAllocator {
    var buffers: seq<Buffer>

    ghost predicate Valid()
      reads this
    {
      |buffers| == NUM_ALLOC_TYPES && forall k: Kind :: GoodBuffer(buffers[k])
    }

    constructor ()
      ensures Valid() && forall k: Kind :: buffers[k] == FRESH
    {
      buffers := seq(NUM_ALLOC_TYPES, _ => FRESH);
    }

    method Reserve(k: Kind, size: nat, addr: nat)
      requires Valid()
      modifies this
      ensures Valid()
      ensures buffers == old(buffers)[k := Reserved(old(buffers)[k], size, addr)]
    {
      var buf := buffers[k];
      var newCapacity := buf.capacity;
      if buf.capacity < size {
        newCapacity := Scaled(buf.capacity, buf.growthRatio);
        var sizeWithMargin := Scaled(size, 1.0 + buf.margin);
        if sizeWithMargin > newCapacity {
          newCapacity := sizeWithMargin;
        }
      }
      WantedSuffices(buf, size);
      ReservedFits(buf, size, addr);
      hide Scaled, Reallocated, GoodBuffer, Pow2;
      if newCapacity != buf.capacity {
        buffers := buffers[k := Reallocated(buf, newCapacity, addr)];
      }
    }

    method GetScratchpad() returns (pad: PreallocatedScratchpad)
      requires Valid()
      ensures fresh(pad) && forall reqs :: At(pad.allocs, BufferAreas(buffers), reqs, 0)
    {
      var bufs := buffers;
      var allocs := seq(NUM_ALLOC_TYPES, i requires 0 <= i < |bufs| => Bump(bufs[i].mem + bufs[i].padding, bufs[i].capacity, 0));
      pad := new PreallocatedScratchpad(allocs);
      forall reqs ensures At(pad.allocs, BufferAreas(buffers), reqs, 0) {
        assert reqs[..0] == [];
      }
    }
  }

  function BufferAreas(buffers: seq<Buffer>): (areas: seq<Area>)
    ensures |areas| == |buffers|
    ensures forall i :: 0 <= i < |buffers| ==> areas[i] == Area(buffers[i].mem + buffers[i].padding, buffers[i].capacity)
  {
    seq(|buffers|, i requires 0 <= i < |buffers| => Area(buffers[i].mem + buffers[i].padding, buffers[i].capacity))
  }

  function Max(a: nat, b: nat): nat {
    if a > b then a else b
  }

  class KernelManager {
    // Scratch sizes required by each kernel instance, and the largest ever seen.
    var requirements: seq<seq<nat>>
    var maxScratchSizes: seq<nat>

    ghost predicate Valid()
      reads this
    {
      |maxScratchSizes| == NUM_ALLOC_TYPES && forall sizes :: sizes in requirements ==> |sizes| == NUM_ALLOC_TYPES
    }

    constructor (instances: nat)
      ensures Valid() && requirements == seq(instances, _ => [0, 0, 0, 0]) && maxScratchSizes == [0, 0, 0, 0]
    {
      requirements := seq(instances, _ => [0, 0, 0, 0]);
      maxScratchSizes := [0, 0, 0, 0];
    }

    // Setup of an instance whose kernel asks for `sizes`.
    method Setup(instance: nat, sizes: seq<nat>)
      requires Valid() && instance < |requirements| && |sizes| == NUM_ALLOC_TYPES
      modifies this
      ensures Valid() && requirements == old(requirements)[instance := sizes]
      ensures forall k: Kind :: maxScratchSizes[k] == Max(old(maxScratchSizes)[k], sizes[k])
    {
      requirements := requirements[instance := sizes];
      for i := 0 to NUM_ALLOC_TYPES
        invariant Valid() && requirements == old(requirements)[instance := sizes]
        invariant forall j :: 0 <= j < NUM_ALLOC_TYPES ==>
                    maxScratchSizes[j] == if j < i then Max(old(maxScratchSizes)[j], sizes[j]) else old(maxScratchSizes)[j]
      {
        maxScratchSizes := maxScratchSizes[i := Max(maxScratchSizes[i], sizes[i])];
      }
    }

    /** Reserves memory for an instance. Other threads may raise the shared maximum to `raised`
        before it is read back. */
    method ReserveScratchpad(sa: ScratchpadAllocator, sizes: seq<nat>, raised: seq<nat>, addrs: seq<nat>)
      returns (pad: PreallocatedScratchpad)
      requires Valid() && sa.Valid() && |sizes| == |raised| == |addrs| == NUM_ALLOC_TYPES
      modifies this, sa
      ensures Valid() && sa.Valid() && fresh(pad)
      ensures forall k: Kind :: sizes[k] <= sa.buffers[k].capacity && old(sa.buffers)[k].capacity <= sa.buffers[k].capacity
      ensures forall k: Kind :: maxScratchSizes[k] == Max(Max(old(maxScratchSizes)[k], sizes[k]), raised[k])
      ensures forall k: Kind :: old(sa.buffers)[k].capacity >= sizes[k] ==> sa.buffers[k] == old(sa.buffers)[k]
      ensures forall k: Kind :: old(sa.buffers)[k].capacity < sizes[k] ==>
                maxScratchSizes[k] <= sa.buffers[k].capacity && sa.buffers[k] == Reserved(old(sa.buffers)[k], maxScratchSizes[k], addrs[k])
      ensures forall reqs :: At(pad.allocs, BufferAreas(sa.buffers), reqs, 0)
      ensures requirements == old(requirements)
    {
      hide Reserved, Pow2;
      var bufs := sa.buffers;
      var caps := seq(NUM_ALLOC_TYPES, i requires 0 <= i < |bufs| => bufs[i].capacity);
      var i := 0;
      while i < NUM_ALLOC_TYPES
        invariant 0 <= i <= NUM_ALLOC_TYPES && Valid() && sa.Valid() && requirements == old(requirements)
        invariant forall j :: i <= j < NUM_ALLOC_TYPES ==>
                    sa.buffers[j] == old(sa.buffers)[j] && maxScratchSizes[j] == old(maxScratchSizes)[j]
        invariant forall j :: 0 <= j < i ==>
                    && sizes[j] <= sa.buffers[j].capacity && old(sa.buffers)[j].capacity <= sa.buffers[j].capacity
                    && maxScratchSizes[j] == Max(Max(old(maxScratchSizes)[j], sizes[j]), raised[j])
                    && (old(sa.buffers)[j].capacity >= sizes[j] ==> sa.buffers[j] == old(sa.buffers)[j])
                    && (old(sa.buffers)[j].capacity < sizes[j] ==>
                          maxScratchSizes[j] <= sa.buffers[j].capacity
                          && sa.buffers[j] == Reserved(old(sa.buffers)[j], maxScratchSizes[j], addrs[j]))
      {
        maxScratchSizes := maxScratchSizes[i := Max(maxScratchSizes[i], sizes[i])];
        maxScratchSizes := maxScratchSizes[i := Max(maxScratchSizes[i], raised[i])];
        if sizes[i] > caps[i] {
          ReservedFits(sa.buffers[i], maxScratchSizes[i], addrs[i]);
          sa.Reserve(i as Kind, maxScratchSizes[i], addrs[i]);
        }
        i := i + 1;
      }
      pad := sa.GetScratchpad();
    }
  }

  /** What Setup predicts suffices for Run: for every sequence of requests with alignments up to 64 that
      uses no more than is estimated, whatever memory was reserved before, whatever other threads
      request and wherever the memory is obtained, replaying the requests after ReserveScratchpad
      with the estimated sizes gives every request an aligned block of its own inside its buffer. */
  method SetupThenRun(manager: KernelManager, instance: nat, sa: ScratchpadAllocator, reqs: seq<Request>,
                      raised: seq<nat>, addrs: seq<nat>) returns (ps: seq<nat>)
    requires manager.Valid() && instance < |manager.requirements| && sa.Valid()
    requires |raised| == |addrs| == NUM_ALLOC_TYPES && Supported(reqs)
    requires WithinEstimate(reqs)
    modifies manager, sa
    ensures sa.Valid() && Laid(BufferAreas(sa.buffers), reqs, ps)
  {
    hide Supported, Laid, At, Enough, Estimated, Used;
    var estimator := new ScratchpadEstimator();
    assert reqs[..0] == [];
    for i := 0 to |reqs|
      invariant sa.Valid() && manager.Valid() && instance < |manager.requirements|
      invariant forall k: Kind :: estimator.sizes[k] == Estimated(k, reqs[..i])
    {
      assert reqs[..i] + [reqs[i]] == reqs[..i + 1];
      var _ := estimator.Add(reqs[i], reqs[..i]);
    }
    assert reqs[..|reqs|] == reqs;
    var sizes := estimator.sizes[..];
    manager.Setup(instance, sizes);
    var pad := manager.ReserveScratchpad(sa, manager.requirements[instance], raised, addrs);
    EstimateSuffices(sa.buffers, reqs, sizes);
    ps := Replay(pad, BufferAreas(sa.buffers), reqs);
  }

  lemma EstimateSuffices(buffers: seq<Buffer>, reqs: seq<Request>, sizes: seq<nat>)
    requires |buffers| == |sizes| == NUM_ALLOC_TYPES && WithinEstimate(reqs)
    requires forall k: Kind :: GoodBuffer(buffers[k]) && sizes[k] == Estimated(k, reqs) && sizes[k] <= buffers[k].capacity
    ensures Enough(BufferAreas(buffers), reqs)
  {
    hide Estimated, Used, Pow2;
  }

  // The buffers once the estimate of the requests has been reserved, with the allocations at `addrs`.
  function Prepared(buffers: seq<Buffer>, reqs: seq<Request>, addrs: seq<nat>): (r: seq<Buffer>)
    requires GoodBuffers(buffers) && |addrs| == NUM_ALLOC_TYPES
    ensures |r| == NUM_ALLOC_TYPES && forall k: Kind :: r[k] == Reserved(buffers[k], Estimated(k, reqs), addrs[k])
  {
    seq(NUM_ALLOC_TYPES, i requires 0 <= i < NUM_ALLOC_TYPES => Reserved(buffers[i as Kind], Estimated(i as Kind, reqs), addrs[i]))
  }

  predicate GoodBuffers(buffers: seq<Buffer>) {
    |buffers| == NUM_ALLOC_TYPES && forall k: Kind :: GoodBuffer(buffers[k])
  }

  ghost predicate ReplayFits(buffers: seq<Buffer>, reqs: seq<Request>, addrs: seq<nat>) {
    GoodBuffers(buffers) && |addrs| == NUM_ALLOC_TYPES ==> Fits(BufferAreas(Prepared(buffers, reqs, addrs)), reqs)
  }

  // Buffers that hold exactly the estimate.
  function Tight(reqs: seq<Request>): (r: seq<Buffer>)
    ensures GoodBuffers(r) && forall k: Kind :: r[k].capacity == Estimated(k, reqs)
  {
    hide Estimated, Pow2;
    ZeroIsAligned();
    seq(NUM_ALLOC_TYPES, i requires 0 <= i < NUM_ALLOC_TYPES => FRESH.(capacity := Estimated(i as Kind, reqs)))
  }

  lemma ZeroIsAligned()
    ensures 0 % Pow2(BASE_LOG) == 0
  {
  }

  lemma EstimateFits(buffers: seq<Buffer>, reqs: seq<Request>, addrs: seq<nat>)
    requires WithinEstimate(reqs)
    ensures ReplayFits(buffers, reqs, addrs)
  {
    hide Used, Estimated, Reserved, Fits, GoodBuffer;
    if GoodBuffers(buffers) && |addrs| == NUM_ALLOC_TYPES {
      var areas := BufferAreas(Prepared(buffers, reqs, addrs));
      forall k: Kind ensures Used(k, reqs) <= areas[k].len {
        ReservedFits(buffers[k], Estimated(k, reqs), addrs[k]);
      }
      FitsExactly(areas, reqs);
    }
  }

  lemma TightFits(reqs: seq<Request>, addrs: seq<nat>, k: Kind)
    requires |addrs| == NUM_ALLOC_TYPES && ReplayFits(Tight(reqs), reqs, addrs)
    ensures Used(k, reqs) <= Estimated(k, reqs)
  {
    hide Used, Estimated, Reserved, Fits, GoodBuffer;
    ReservedFits(Tight(reqs)[k], Estimated(k, reqs), addrs[k]);
    FitsExactly(BufferAreas(Prepared(Tight(reqs), reqs, addrs)), reqs);
  }

  /** The estimate is safe for every earlier state of the buffers if and only if the requests use no
      more than is estimated: then no request runs past its buffer wherever memory is obtained, and
      otherwise one does when the buffers already hold just the estimate. */
  lemma EstimateExact(reqs: seq<Request>)
    ensures (forall buffers: seq<Buffer>, addrs: seq<nat> :: ReplayFits(buffers, reqs, addrs)) <==> WithinEstimate(reqs)
  {
    hide Used, Estimated, ReplayFits, Tight;
    if WithinEstimate(reqs) {
      forall buffers: seq<Buffer>, addrs: seq<nat> ensures ReplayFits(buffers, reqs, addrs) {
        EstimateFits(buffers, reqs, addrs);
      }
    } else {
      var k: Kind :| Used(k, reqs) > Estimated(k, reqs);
      if ReplayFits(Tight(reqs), reqs, [0, 0, 0, 0]) {
        TightFits(reqs, [0, 0, 0, 0], k);
      }
    }
  }

  // ---- amortised growth ---------------------------------------------------------------------------------

  // Sizes requested of one buffer over its life, each with the address a reallocation would get.
  datatype Reservation = Reservation(size: nat, addr: nat)

  function After(log: seq<Reservation>): (b: Buffer)
    ensures b.growthRatio == 2.0 && b.margin == 0.1
  {
    if log == [] then FRESH
    else Reserved(After(log[..|log| - 1]), log[|log| - 1].size, log[|log| - 1].addr)
  }

  predicate Reallocates(log: seq<Reservation>, i: nat)
    requires i < |log|
  {
    After(log[..i]).capacity < log[i].size
  }

  function Reallocations(log: seq<Reservation>): nat {
    if log == [] then 0
    else Reallocations(log[..|log| - 1]) + if Reallocates(log, |log| - 1) then 1 else 0
  }

  // Capacities that were given up by the reallocations so far, added up.
  function Discarded(log: seq<Reservation>): nat {
    if log == [] then 0
    else Discarded(log[..|log| - 1]) + if Reallocates(log, |log| - 1) then After(log[..|log| - 1]).capacity else 0
  }

  function Largest(log: seq<Reservation>): nat {
    if log == [] then 0 else Max(Largest(log[..|log| - 1]), log[|log| - 1].size)
  }

  // A reallocation more than doubles the capacity, to no more than twice the size plus 64.
  lemma Doubles(b: Buffer, size: nat, addr: nat)
    requires b.growthRatio == 2.0 && b.margin == 0.1 && b.capacity < size
    ensures var c := Reserved(b, size, addr).capacity; 2 * b.capacity < c <= 2 * size + ALIGNMENT && c > size
  {
    PaddingAligns(addr, BASE_LOG);
    assert Pow2(BASE_LOG) == ALIGNMENT;
    WantedSuffices(b, size);
    assert Scaled(b.capacity, 2.0) == 2 * b.capacity;
    assert Scaled(size, 1.1) <= 2 * size;
  }

  /** A new allocator after any reservations of one kind, none of them freed. */
  method ReserveAll(k: Kind, log: seq<Reservation>) returns (sa: ScratchpadAllocator)
    ensures fresh(sa) && sa.Valid() && sa.buffers[k] == After(log)
    ensures forall j: Kind :: j != k ==> sa.buffers[j] == FRESH
  {
    sa := new ScratchpadAllocator();
    hide Reserved, GoodBuffer;
    assert log[..0] == [];
    for i := 0 to |log|
      invariant fresh(sa) && sa.Valid() && sa.buffers[k] == After(log[..i])
      invariant forall j: Kind :: j != k ==> sa.buffers[j] == FRESH
    {
      assert log[..i + 1][..i] == log[..i];
      sa.Reserve(k, log[i].size, log[i].addr);
    }
    assert log[..|log|] == log;
  }

  /** With the default policy and no Free: capacity never shrinks, k reallocations leave at least
      2^k - 1 bytes, everything discarded so far is less than what is held, and the capacity is at
      most twice the largest request plus 64. */
  lemma {:induction false} Amortised(log: seq<Reservation>)
    ensures var b := After(log);
            && Largest(log) <= b.capacity <= 2 * Largest(log) + ALIGNMENT
            && Pow2(Reallocations(log)) <= b.capacity + 1
            && (Discarded(log) < b.capacity || b.capacity == Discarded(log) == 0)
            && (log != [] ==> After(log[..|log| - 1]).capacity <= b.capacity)
  {
    if log != [] {
      var front, last := log[..|log| - 1], log[|log| - 1];
      assert log[..|log| - 1] == front;
      hide Reserved, Pow2;
      Amortised(front);
      if Reallocates(log, |log| - 1) {
        Doubles(After(front), last.size, last.addr);
        Pow2Step(Reallocations(log));
      } else {
        assert After(log) == After(front) by { KeptBuffer(After(front), last.size, last.addr); }
      }
    }
  }

  lemma KeptBuffer(b: Buffer, size: nat, addr: nat)
    requires b.growthRatio == 2.0 && b.margin == 0.1 && b.capacity >= size
    ensures Reserved(b, size, addr) == b
  {
  }

  /** So the number of reallocations is logarithmic in the largest request. */
  lemma FewReallocations(log: seq<Reservation>)
    ensures Pow2(Reallocations(log)) <= 2 * Largest(log) + ALIGNMENT + 1
  {
    hide *;
    Amortised(log);
  }

  // ---- limits ---------------------------------------------------------------------------------------------

  /** An empty request is padded by the allocator and not by the estimator: the estimate is one
      byte, the buffer reserved at an address aligned to 16 has seventeen, and replaying needs
      sixty-four. */
  lemma EmptyRequestOverruns()
    ensures var reqs := [Request(0, 1, 1, 0), Request(0, 0, 1, BASE_LOG)];
            && Estimated(0, reqs) == 1
            && Reserved(FRESH, Estimated(0, reqs), 16).capacity == 17
            && Used(0, reqs) == ALIGNMENT
  {
    hide AlignUp, Padding, Pow2, Used, Estimated, Reserved;
    var reqs := [Request(0, 1, 1, 0), Request(0, 0, 1, BASE_LOG)];
    assert reqs[..0] == [] && reqs[..1 + 1] == reqs;
    SmallAlignments(0, 1, BASE_LOG);
    UsedNothing(0);
    UsedSnoc(0, reqs, 0);
    UsedSnoc(0, reqs, 1);
    EstimatedSnoc(0, reqs, 0);
    EstimatedSnoc(0, reqs, 1);
    PaddedCapacity();
  }

  lemma SmallAlignments(none: nat, some: nat, log: nat)
    requires none == 0 && some == 1 && log == BASE_LOG
    ensures AlignUp(none, none) == 0 && AlignUp(some, log) == ALIGNMENT
  {
    hide AlignUp, Padding, Pow2;
    BasePowers(none, log);
    AlignUpUnique(none, none, none);
    AlignUpUnique(some, log, ALIGNMENT);
  }

  lemma BasePowers(none: nat, log: nat)
    requires none == 0 && log == BASE_LOG
    ensures Pow2(none) == 1 && Pow2(log) == ALIGNMENT
  {
  }

  lemma PaddedCapacity()
    ensures Reserved(FRESH, 1, 16).capacity == 17
  {
    assert Pow2(BASE_LOG) == ALIGNMENT;
    AlignUpUnique(16, BASE_LOG, ALIGNMENT);
    hide Padding, Pow2;
    assert Scaled(0, 2.0) == 0;
    assert Scaled(1, 1.1) == 1;
  }

  const FLOAT_ERROR := 1.0 / 4194304.0

  lemma MarginOutweighsRounding(size: nat, margin: real, product: real)
    requires margin >= 2.0 * FLOAT_ERROR && product >= size as real * ((1.0 + margin) * (1.0 - FLOAT_ERROR))
    ensures product >= 0.0 && Floor(product) >= size
  {
    var factor := (1.0 + margin) * (1.0 - FLOAT_ERROR);
    assert factor >= (1.0 + 2.0 * FLOAT_ERROR) * (1.0 - FLOAT_ERROR) >= 1.0;
    assert size as real * factor >= size as real * 1.0;
  }

  /** Reserve with single-precision products, each of which may come out low by 2^-22 of itself: a
      margin of 2^-21 or more still gives at least the requested size, at an aligned address. */
  lemma RoundedReserveFits(b: Buffer, size: nat, addr: nat, grown: real, padded: real)
    requires GoodBuffer(b) && b.capacity < size && b.margin >= 2.0 * FLOAT_ERROR
    requires grown >= 0.0 && padded >= size as real * ((1.0 + b.margin) * (1.0 - FLOAT_ERROR))
    ensures padded >= 0.0
    ensures var r := Reallocated(b, Max(Floor(grown), Floor(padded)), addr); GoodBuffer(r) && r.capacity > size
  {
    MarginOutweighsRounding(size, b.margin, padded);
    PaddingAligns(addr, BASE_LOG);
    assert Pow2(BASE_LOG) == ALIGNMENT;
  }
}
