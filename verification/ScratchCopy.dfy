/** Packing several collections in one scratch buffer. */
module ScratchCopy {
  import opened MachineWord
  import opened Scratch

  // The bytes of a collection of plain objects, aligned to 2^log.
  datatype Collection<B> = Collection(bytes: seq<B>, log: nat)

  // ---- offsets --------------------------------------------------------------------------------------

  function Offsets<B>(base: nat, cs: seq<Collection<B>>): (r: seq<nat>)
    ensures |r| == |cs| + 1
    decreases |cs|
  {
    if cs == [] then [base]
    else
      var start := AlignUp(base, cs[0].log);
      [start] + Offsets(start + |cs[0].bytes|, cs[1..])
  }

  ghost predicate Supported<B>(cs: seq<Collection<B>>) {
    forall i :: 0 <= i < |cs| ==> cs[i].log <= BASE_LOG
  }

  /** Offsets that are aligned, in order and do not overlap, up to the total. */
  ghost predicate Apart<B>(base: nat, offsets: seq<nat>, cs: seq<Collection<B>>) {
    && |offsets| == |cs| + 1 && base <= offsets[0]
    && (forall i :: 0 <= i < |cs| ==> offsets[i] + |cs[i].bytes| <= offsets[i + 1])
    && (forall i :: 0 <= i < |cs| ==> offsets[i] % Pow2(cs[i].log) == 0)
  }

  lemma OffsetsUnfold<B>(base: nat, cs: seq<Collection<B>>) returns (start: nat, rest: seq<nat>)
    requires Supported(cs) && cs != []
    ensures base <= start < base + Pow2(cs[0].log) && start % Pow2(cs[0].log) == 0
    ensures rest == Offsets(start + |cs[0].bytes|, cs[1..]) && Offsets(base, cs) == [start] + rest && |rest| == |cs|
    ensures Supported(cs[1..])
  {
    start := AlignUp(base, cs[0].log);
    PaddingAligns(base, cs[0].log);
    rest := Offsets(start + |cs[0].bytes|, cs[1..]);
  }

  lemma ApartCons<B>(base: nat, start: nat, rest: seq<nat>, cs: seq<Collection<B>>)
    requires cs != [] && base <= start && start % Pow2(cs[0].log) == 0 && Apart(start + |cs[0].bytes|, rest, cs[1..])
    ensures Apart(base, [start] + rest, cs)
  {
    hide Pow2;
    var all := [start] + rest;
    forall i | 0 <= i < |cs|
      ensures all[i] + |cs[i].bytes| <= all[i + 1] && all[i] % Pow2(cs[i].log) == 0
    {
      if i > 0 {
        assert all[i] == rest[i - 1] && all[i + 1] == rest[i] && cs[i] == cs[1..][i - 1];
      }
    }
  }

  lemma {:induction false} OffsetsApart<B>(base: nat, cs: seq<Collection<B>>)
    requires Supported(cs)
    ensures Apart(base, Offsets(base, cs), cs)
    decreases |cs|
  {
    if cs != [] {
      hide *;
      var start, rest := OffsetsUnfold(base, cs);
      OffsetsApart(start + |cs[0].bytes|, cs[1..]);
      ApartCons(base, start, rest, cs);
    }
  }

  /** Each offset is the next aligned position behind the collection before it. */
  lemma {:induction false} OffsetsTight<B>(base: nat, cs: seq<Collection<B>>, i: nat)
    requires Supported(cs) && i < |cs|
    ensures var end := if i == 0 then base else Offsets(base, cs)[i - 1] + |cs[i - 1].bytes|;
            end <= Offsets(base, cs)[i] < end + Pow2(cs[i].log)
    ensures Offsets(base, cs)[|cs|] == Offsets(base, cs)[|cs| - 1] + |cs[|cs| - 1].bytes|
    decreases |cs|
  {
    hide Offsets, Pow2, Supported;
    var start, rest := OffsetsUnfold(base, cs);
    if |cs| > 1 {
      OffsetsTight(start + |cs[0].bytes|, cs[1..], if i == 0 then 0 else i - 1);
    } else {
      OffsetsOfNothing<B>(start + |cs[0].bytes|);
      assert cs[1..] == [];
    }
  }

  lemma OffsetsOfNothing<B>(base: nat)
    ensures Offsets<B>(base, []) == [base]
  {
  }

  lemma {:induction false} InOrder<B>(base: nat, offsets: seq<nat>, cs: seq<Collection<B>>, i: nat, j: nat)
    requires Apart(base, offsets, cs) && i < j <= |cs|
    ensures offsets[i] + |cs[i].bytes| <= offsets[j]
    decreases j - i
  {
    if i + 1 < j {
      InOrder(base, offsets, cs, i, j - 1);
    }
  }

  /** The recursion that stores the offsets through a pointer. */
  method GetCollectionOffsets<B>(base: nat, offsets: array<nat>, at: nat, cs: seq<Collection<B>>)
    requires at + |cs| < offsets.Length
    modifies offsets
    ensures offsets[..at] == old(offsets[..at]) && offsets[at + |cs| + 1..] == old(offsets[at + |cs| + 1..])
    ensures offsets[at..at + |cs| + 1] == Offsets(base, cs)
    decreases |cs|
  {
    hide AlignUp;
    if cs == [] {
      offsets[at] := base;
    } else {
      var start := AlignUp(base, cs[0].log);
      offsets[at] := start;
      ghost var front := offsets[..at + 1];
      GetCollectionOffsets(start + |cs[0].bytes|, offsets, at + 1, cs[1..]);
      assert offsets[..at + 1] == front;
      assert offsets[at] == start;
      assert offsets[at..at + |cs| + 1] == [offsets[at]] + offsets[at + 1..at + |cs| + 1];
    }
  }

  // ---- copying ------------------------------------------------------------------------------------------

  // Collection i can be read back from the buffer at its offset.
  ghost predicate Holds<B>(buffer: seq<B>, at: nat, offsets: seq<nat>, cs: seq<Collection<B>>) {
    forall i :: 0 <= i < |cs| ==>
      && i < |offsets| && at + offsets[i] + |cs[i].bytes| <= |buffer|
      && buffer[at + offsets[i]..at + offsets[i] + |cs[i].bytes|] == cs[i].bytes
  }

  // Position x belongs to no collection: it lies in front of, behind or between them.
  ghost predicate Between<B>(x: int, at: nat, offsets: seq<nat>, cs: seq<Collection<B>>)
    requires |offsets| == |cs| + 1
  {
    forall i :: 0 <= i < |cs| ==> x < at + offsets[i] || at + offsets[i] + |cs[i].bytes| <= x
  }

  // The rest of the buffer, alignment gaps included, is as it was.
  ghost predicate Untouched<B>(before: seq<B>, after: seq<B>, at: nat, offsets: seq<nat>, cs: seq<Collection<B>>)
    requires |offsets| == |cs| + 1
  {
    |before| == |after| && forall x :: 0 <= x < |after| && Between(x, at, offsets, cs) ==> after[x] == before[x]
  }

  lemma UntouchedCons<B>(before: seq<B>, placed: seq<B>, after: seq<B>, at: nat, offsets: seq<nat>, cs: seq<Collection<B>>)
    requires |offsets| == |cs| + 1 && cs != [] && |before| == |placed|
    requires var a, b := at + offsets[0], at + offsets[0] + |cs[0].bytes|;
             b <= |placed| && placed[..a] == before[..a] && placed[b..] == before[b..]
    requires Untouched(placed, after, at, offsets[1..], cs[1..])
    ensures Untouched(before, after, at, offsets, cs)
  {
    var a, b := at + offsets[0], at + offsets[0] + |cs[0].bytes|;
    forall x | 0 <= x < |after| && Between(x, at, offsets, cs) ensures after[x] == before[x] {
      assert Between(x, at, offsets[1..], cs[1..]);
      if x < a {
        assert placed[x] == placed[..a][x] && before[x] == before[..a][x];
      } else {
        assert placed[x] == placed[b..][x - b] && before[x] == before[b..][x - b];
      }
    }
  }

  method CopyOne<B>(buffer: array<B>, at: nat, bytes: seq<B>)
    requires at + |bytes| <= buffer.Length
    modifies buffer
    ensures buffer[..at] == old(buffer[..at]) && buffer[at..at + |bytes|] == bytes
    ensures buffer[at + |bytes|..] == old(buffer[at + |bytes|..])
  {
    for i := 0 to |bytes|
      invariant buffer[..at] == old(buffer[..at]) && buffer[at..at + i] == bytes[..i]
      invariant buffer[at + |bytes|..] == old(buffer[at + |bytes|..])
    {
      buffer[at + i] := bytes[i];
      assert buffer[at..at + i + 1] == bytes[..i] + [bytes[i]];
    }
    assert buffer[at..at + |bytes|] == bytes;
  }

  /** Copies every collection to its offset from `at` and nothing else; reading them back gives the
      collections. */
  method CopyToBuffer<B>(buffer: array<B>, at: nat, base: nat, offsets: seq<nat>, cs: seq<Collection<B>>)
    requires Apart(base, offsets, cs) && at + offsets[|cs|] <= buffer.Length
    modifies buffer
    ensures Holds(buffer[..], at, offsets, cs) && Untouched(old(buffer[..]), buffer[..], at, offsets, cs)
    ensures buffer[..at + offsets[0]] == old(buffer[..at + offsets[0]])
    ensures buffer[at + offsets[|cs|]..] == old(buffer[at + offsets[|cs|]..])
    decreases |cs|
  {
    hide Apart, Holds, Untouched;
    ApartBounds(base, offsets, cs);
    if cs != [] {
      var c := cs[0].bytes;
      ApartTail(base, offsets, cs);
      CopyOne(buffer, at + offsets[0], c);
      ghost var placed := buffer[..];
      CopyToBuffer(buffer, at, offsets[0] + |c|, offsets[1..], cs[1..]);
      ShorterPrefix(buffer[..], placed, at + offsets[1], at + offsets[0]);
      ShorterSuffix(placed, old(buffer[..]), at + offsets[0] + |c|, at + offsets[|cs|]);
      HoldsCons(buffer[..], placed, at, offsets, cs);
      UntouchedCons(old(buffer[..]), placed, buffer[..], at, offsets, cs);
    } else {
      NothingTouched(buffer[..], at, offsets, cs);
    }
  }

  lemma NothingTouched<B>(buffer: seq<B>, at: nat, offsets: seq<nat>, cs: seq<Collection<B>>)
    requires |offsets| == |cs| + 1
    ensures Untouched(buffer, buffer, at, offsets, cs)
  {
  }

  lemma ShorterPrefix<B>(a: seq<B>, b: seq<B>, n: nat, m: nat)
    requires m <= n <= |a| == |b| && a[..n] == b[..n]
    ensures a[..m] == b[..m]
  {
    assert a[..m] == a[..n][..m] && b[..m] == b[..n][..m];
  }

  lemma ShorterSuffix<B>(a: seq<B>, b: seq<B>, n: nat, m: nat)
    requires n <= m <= |a| == |b| && a[n..] == b[n..]
    ensures a[m..] == b[m..]
  {
    assert a[m..] == a[n..][m - n..] && b[m..] == b[n..][m - n..];
  }

  lemma ApartBounds<B>(base: nat, offsets: seq<nat>, cs: seq<Collection<B>>)
    requires Apart(base, offsets, cs)
    ensures |offsets| == |cs| + 1 && offsets[0] <= offsets[|cs|] && (cs == [] ==> forall buffer: seq<B>, at: nat :: Holds(buffer, at, offsets, cs))
  {
    if cs != [] {
      InOrder(base, offsets, cs, 0, |cs|);
    }
  }

  lemma ApartTail<B>(base: nat, offsets: seq<nat>, cs: seq<Collection<B>>)
    requires Apart(base, offsets, cs) && cs != []
    ensures Apart(offsets[0] + |cs[0].bytes|, offsets[1..], cs[1..])
    ensures offsets[0] + |cs[0].bytes| <= offsets[1] <= offsets[|cs|]
  {
    forall i | 0 <= i < |cs| - 1
      ensures offsets[1..][i] + |cs[1..][i].bytes| <= offsets[1..][i + 1] && offsets[1..][i] % Pow2(cs[1..][i].log) == 0
    {
      assert offsets[i + 1] + |cs[i + 1].bytes| <= offsets[i + 2];
    }
    if |cs| > 1 {
      InOrder(base, offsets, cs, 1, |cs|);
    }
  }

  lemma HoldsCons<B>(buffer: seq<B>, placed: seq<B>, at: nat, offsets: seq<nat>, cs: seq<Collection<B>>)
    requires cs != [] && |offsets| == |cs| + 1 && |placed| == |buffer|
    requires offsets[0] + |cs[0].bytes| <= offsets[1] && at + offsets[1] <= |buffer|
    requires buffer[..at + offsets[1]] == placed[..at + offsets[1]]
    requires placed[at + offsets[0]..at + offsets[0] + |cs[0].bytes|] == cs[0].bytes
    requires Holds(buffer, at, offsets[1..], cs[1..])
    ensures Holds(buffer, at, offsets, cs)
  {
    var a, b := at + offsets[0], at + offsets[0] + |cs[0].bytes|;
    assert buffer[a..b] == buffer[..at + offsets[1]][a..b];
    assert placed[a..b] == placed[..at + offsets[1]][a..b];
    forall i | 0 < i < |cs|
      ensures at + offsets[i] + |cs[i].bytes| <= |buffer| && buffer[at + offsets[i]..at + offsets[i] + |cs[i].bytes|] == cs[i].bytes
    {
      assert offsets[i] == offsets[1..][i - 1] && cs[i] == cs[1..][i - 1];
    }
  }

  // ---- pointers --------------------------------------------------------------------------------------------

  function GetCollectionPtrs<B>(base: nat, offsets: seq<nat>, cs: seq<Collection<B>>): (ptrs: seq<nat>)
    requires |offsets| == |cs| + 1
    ensures |ptrs| == |cs|
    decreases |cs|
  {
    if cs == [] then [] else [base] + GetCollectionPtrs(base + offsets[1], offsets[1..], cs[1..])
  }

  // offsets[1] + ... + offsets[i]
  function SumTo(offsets: seq<nat>, i: nat): nat
    requires i < |offsets|
  {
    if i == 0 then 0 else offsets[i] + SumTo(offsets, i - 1)
  }

  lemma {:induction false} SumShift(offsets: seq<nat>, i: nat)
    requires i + 1 < |offsets|
    ensures SumTo(offsets, i + 1) == offsets[1] + SumTo(offsets[1..], i)
  {
    if i > 0 {
      SumShift(offsets, i - 1);
    }
  }

  /** The offsets are absolute but are added up: pointer i is off by the earlier ones. */
  lemma {:induction false} PtrsAccumulate<B>(base: nat, offsets: seq<nat>, cs: seq<Collection<B>>, i: nat)
    requires |offsets| == |cs| + 1 && i < |cs|
    ensures GetCollectionPtrs(base, offsets, cs)[i] == base + SumTo(offsets, i)
    decreases i
  {
    if i > 0 {
      PtrsAccumulate(base + offsets[1], offsets[1..], cs[1..], i - 1);
      SumShift(offsets, i - 1);
    }
  }

  // The first n collections are empty.
  predicate EmptyBefore<B>(cs: seq<Collection<B>>, n: int)
    requires n <= |cs|
  {
    forall k :: 0 <= k < n ==> |cs[k].bytes| == 0
  }

  lemma EmptyCons<B>(cs: seq<Collection<B>>, n: nat)
    requires 0 < n <= |cs|
    ensures EmptyBefore(cs, n) <==> |cs[0].bytes| == 0 && EmptyBefore(cs[1..], n - 1)
  {
    if EmptyBefore(cs[1..], n - 1) {
      forall k | 0 < k < n ensures |cs[k].bytes| == 0 {
        assert cs[k] == cs[1..][k - 1];
      }
    }
  }

  lemma AlignedZero(v: nat, log: nat)
    requires log <= BASE_LOG
    ensures AlignUp(v, log) == 0 <==> v == 0
  {
    if v == 0 {
      hide AlignUp, Pow2;
      ModOfSum(0, 0, Pow2(log));
      AlreadyAligned(v, log);
    }
  }

  lemma {:induction false} ZeroOffset<B>(base: nat, cs: seq<Collection<B>>, j: nat)
    requires Supported(cs) && j < |cs|
    ensures Offsets(base, cs)[j] == 0 <==> base == 0 && EmptyBefore(cs, j)
    decreases j
  {
    hide AlignUp, EmptyBefore;
    AlignedZero(base, cs[0].log);
    if j == 0 {
      assert EmptyBefore(cs, 0) by { NoneBefore(cs); }
    } else {
      EmptyCons(cs, j);
      ZeroOffset(AlignUp(base, cs[0].log) + |cs[0].bytes|, cs[1..], j - 1);
    }
  }

  lemma NoneBefore<B>(cs: seq<Collection<B>>)
    ensures EmptyBefore(cs, 0)
  {
  }

  lemma {:induction false} SumZero<B>(cs: seq<Collection<B>>, n: nat)
    requires Supported(cs) && n < |cs|
    ensures SumTo(Offsets(0, cs), n) == 0 <==> EmptyBefore(cs, n)
  {
    hide Offsets, Supported;
    if n > 0 {
      SumZero(cs, n - 1);
      ZeroOffset(0, cs, n);
    }
  }

  lemma PtrExact<B>(base: nat, cs: seq<Collection<B>>, i: nat)
    requires Supported(cs) && i < |cs|
    ensures GetCollectionPtrs(base, Offsets(0, cs), cs)[i] == base + Offsets(0, cs)[i] <==> EmptyBefore(cs, i - 1)
  {
    hide Offsets, Supported, GetCollectionPtrs;
    PtrsAccumulate(base, Offsets(0, cs), cs, i);
    if i == 0 {
      ZeroOffset(0, cs, 0);
    } else {
      SumZero(cs, i - 1);
    }
  }

  /** Every returned pointer is base + offsets[i] exactly when all collections but the last two are
      empty; in particular for one or two collections. */
  lemma PointersCorrect<B>(base: nat, cs: seq<Collection<B>>)
    requires Supported(cs) && cs != []
    ensures var offsets := Offsets(0, cs);
            (forall i :: 0 <= i < |cs| ==> GetCollectionPtrs(base, offsets, cs)[i] == base + offsets[i])
            <==> EmptyBefore(cs, |cs| - 2)
  {
    hide Offsets, Supported, GetCollectionPtrs;
    var offsets := Offsets(0, cs);
    var ptrs := GetCollectionPtrs(base, offsets, cs);
    PtrExact(base, cs, |cs| - 1);
    if EmptyBefore(cs, |cs| - 2) {
      forall i | 0 <= i < |cs| ensures ptrs[i] == base + offsets[i] {
        PtrExact(base, cs, i);
      }
    }
  }

  lemma ByteAligned(v: nat, log: nat)
    requires log == 0
    ensures AlignUp(v, log) == v
  {
    assert Pow2(log) == 1;
    hide AlignUp;
    AlreadyAligned(v, log);
  }

  /** Three byte-aligned collections: the third pointer is off by the length of the first. */
  lemma ThirdPointerOff<B>(base: nat, a: Collection<B>, b: Collection<B>, c: Collection<B>)
    requires a.log == b.log == c.log == 0
    ensures var cs := [a, b, c];
            GetCollectionPtrs(base, Offsets(0, cs), cs)[2] == base + Offsets(0, cs)[2] + |a.bytes|
  {
    hide AlignUp, GetCollectionPtrs;
    var cs := [a, b, c];
    var la, lb := |a.bytes|, |a.bytes| + |b.bytes|;
    ByteAligned(0, a.log);
    ByteAligned(la, b.log);
    ByteAligned(lb, c.log);
    assert cs[1..] == [b, c] && [b, c][1..] == [c];
    assert Offsets(lb, [c])[0] == lb;
    assert Offsets(la, [b, c]) == [la] + Offsets(lb, [c]);
    assert Offsets(0, cs) == [0] + Offsets(la, [b, c]);
    PtrsAccumulate(base, Offsets(0, cs), cs, 2);
    assert SumTo(Offsets(0, cs), 2) == Offsets(0, cs)[2] + SumTo(Offsets(0, cs), 1);
  }

  // ---- all together ---------------------------------------------------------------------------------------------

  function MaxLog<B>(cs: seq<Collection<B>>): nat {
    if cs == [] then 0
    else
      var rest := MaxLog(cs[1..]);
      if cs[0].log > rest then cs[0].log else rest
  }

  lemma {:induction false} MaxLogBound<B>(cs: seq<Collection<B>>)
    requires Supported(cs)
    ensures MaxLog(cs) <= BASE_LOG && forall i :: 0 <= i < |cs| ==> cs[i].log <= MaxLog(cs)
  {
    if cs != [] {
      MaxLogBound(cs[1..]);
      forall i | 0 < i < |cs| ensures cs[i].log <= MaxLog(cs) {
        assert cs[i] == cs[1..][i - 1];
      }
    }
  }

  // The block starts at the next position that suits the collection with the largest alignment.
  lemma {:induction false} MaxLogTaken<B>(cs: seq<Collection<B>>) returns (i: nat)
    requires cs != []
    ensures i < |cs| && cs[i].log == MaxLog(cs)
  {
    i := 0;
    if |cs| > 1 && cs[0].log <= MaxLog(cs[1..]) {
      var k := MaxLogTaken(cs[1..]);
      i := k + 1;
    }
  }

  lemma BlockNear<B>(free: nat, used: nat, tmp: nat, memory: nat, cs: seq<Collection<B>>)
    requires cs != [] && Supported(cs) && free == memory + used && tmp == memory + AlignUp(used, MaxLog(cs))
    ensures exists i :: 0 <= i < |cs| && free <= tmp < free + Pow2(cs[i].log)
  {
    MaxLogBound(cs);
    PaddingAligns(used, MaxLog(cs));
    var i := MaxLogTaken(cs);
    hide Pow2, Padding, MaxLog;
    assert free <= tmp < free + Pow2(cs[i].log);
  }

  /** Allocates one block and copies all collections there: each can be read back at its own aligned
      address. The pointers that are returned are those addresses exactly when all collections but
      the last two are empty; in general pointer i is off by the offsets before it. */
  method ToContiguousHostMem<B>(pad: PreallocatedScratchpad, k: Kind, memory: array<B>, cs: seq<Collection<B>>)
    returns (ptrs: seq<nat>, ghost tmp: nat)
    requires cs != [] && Supported(cs) && |pad.allocs| == NUM_ALLOC_TYPES && pad.allocs[k].memory % Pow2(BASE_LOG) == 0
    requires AlignUp(pad.allocs[k].used, MaxLog(cs)) + Offsets(0, cs)[|cs|] <= pad.allocs[k].total
    requires pad.allocs[k].memory + pad.allocs[k].total <= memory.Length
    modifies pad, memory
    ensures Holds(memory[..], tmp, Offsets(0, cs), cs)
    ensures forall i :: 0 <= i < |cs| ==> (tmp + Offsets(0, cs)[i]) % Pow2(cs[i].log) == 0
    ensures var free := old(pad.allocs[k].memory + pad.allocs[k].used);
            exists i :: 0 <= i < |cs| && free <= tmp < free + Pow2(cs[i].log)
    ensures |ptrs| == |cs| && forall i :: 0 <= i < |cs| ==> ptrs[i] == tmp + SumTo(Offsets(0, cs), i)
    ensures (forall i :: 0 <= i < |cs| ==> ptrs[i] == tmp + Offsets(0, cs)[i]) <==> EmptyBefore(cs, |cs| - 2)
  {
    hide *;
    var offsets := new nat[|cs| + 1];
    GetCollectionOffsets(0, offsets, 0, cs);
    var found := offsets[..];
    assert found == offsets[0..|cs| + 1];
    MaxLogBound(cs);
    OffsetsApart(0, cs);
    ApartBounds(0, found, cs);
    ghost var used := pad.allocs[k].used;
    var base := pad.Alloc(k, found[|cs|], MaxLog(cs));
    tmp := base;
    BlockAligned(pad.allocs[k].memory, used, cs, tmp);
    BlockNear(old(pad.allocs[k].memory + pad.allocs[k].used), used, tmp, pad.allocs[k].memory, cs);
    CopyToBuffer(memory, base, 0, found, cs);
    ptrs := GetCollectionPtrs(base, found, cs);
    PointersCorrect(base, cs);
    forall i | 0 <= i < |cs| ensures ptrs[i] == tmp + SumTo(Offsets(0, cs), i) {
      PtrsAccumulate(base, found, cs, i);
    }
  }

  lemma BlockAligned<B>(memory: nat, used: nat, cs: seq<Collection<B>>, tmp: nat)
    requires Supported(cs) && memory % Pow2(BASE_LOG) == 0 && tmp == memory + AlignUp(used, MaxLog(cs))
    ensures forall i :: 0 <= i < |cs| ==> (tmp + Offsets(0, cs)[i]) % Pow2(cs[i].log) == 0
  {
    hide Pow2, AlignUp, Padding, Offsets, MaxLog;
    MaxLogBound(cs);
    OffsetsApart(0, cs);
    var top := MaxLog(cs);
    PaddingAligns(used, top);
    SmallerAlignment(memory, top, BASE_LOG);
    MultiplesAdd(memory, AlignUp(used, top), Pow2(top));
    forall i | 0 <= i < |cs| ensures (tmp + Offsets(0, cs)[i]) % Pow2(cs[i].log) == 0 {
      SmallerAlignment(tmp, cs[i].log, top);
      MultiplesAdd(tmp, Offsets(0, cs)[i], Pow2(cs[i].log));
    }
  }
}
