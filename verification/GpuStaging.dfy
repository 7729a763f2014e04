/** Host-side staging of the GPU slice kernel: separate scratch allocations that form one
    contiguous image, copied to the device in one go. */
module GpuStaging {
  import opened MachineWord
  import opened Scratch

  const HOST: Kind := 0
  const GPU: Kind := 2

  // Two pointers, four arrays of `dims` 64-bit integers and a float padded to eight bytes.
  function SampleDescBytes(dims: nat): nat {
    8 * (4 * dims + 3)
  }

  const BLOCK_DESC_BYTES := 24

  // `samples` descriptors, `norm` means and as many deviations, `blocks` block descriptors.
  datatype Staging = Staging(dims: nat, samples: nat, norm: nat, blocks: nat)

  function Descs(k: Kind, s: Staging): Request {
    Request(k, s.samples, SampleDescBytes(s.dims), 3)
  }

  function Blocks(k: Kind, s: Staging): Request {
    Request(k, s.blocks, BLOCK_DESC_BYTES, 3)
  }

  function SetupRequests(s: Staging): seq<Request> {
    [Descs(HOST, s), Descs(GPU, s)]
    + (if s.norm > 0 then [Request(HOST, 2 * s.norm, 4, 2), Request(GPU, 2 * s.norm, 4, 2)] else [])
    + [Blocks(HOST, s), Blocks(GPU, s)]
  }

  // The allocations of Run in one kind of memory; Run makes the host ones first.
  function RunRequests(k: Kind, s: Staging): seq<Request> {
    [Descs(k, s)]
    + (if s.norm > 0 then [Request(k, s.norm, 4, 2), Request(k, s.norm, 4, 2)] else [])
    + [Blocks(k, s)]
  }

  function AllRunRequests(s: Staging): seq<Request> {
    RunRequests(HOST, s) + RunRequests(GPU, s)
  }

  // The number of bytes of the one copy.
  function TotalBytes(s: Staging): nat {
    s.samples * SampleDescBytes(s.dims) + s.norm * 4 + s.norm * 4 + s.blocks * BLOCK_DESC_BYTES
  }

  // Where the arrays start: descriptors, offsets to add, factors, blocks.
  function DescsEnd(s: Staging): nat {
    s.samples * SampleDescBytes(s.dims)
  }

  lemma EightDivides(q: nat, log: nat)
    requires log <= 3
    ensures (8 * q) % Pow2(log) == 0
  {
    assert Pow2(3) == 8;
    ModOfSum(q, 0, 8);
    SmallerAlignment(8 * q, log, 3);
  }

  lemma FourDivides(q: nat)
    ensures (4 * q) % Pow2(2) == 0
  {
    assert Pow2(2) == 4;
    ModOfSum(q, 0, 4);
  }

  // The ends of the arrays are aligned for what follows them.
  lemma EndsAligned(s: Staging)
    ensures AlignUp(0, 3) == 0
    ensures AlignUp(DescsEnd(s), 2) == DescsEnd(s) && AlignUp(DescsEnd(s), 3) == DescsEnd(s)
    ensures AlignUp(DescsEnd(s) + s.norm * 4, 2) == DescsEnd(s) + s.norm * 4
    ensures AlignUp(DescsEnd(s) + s.norm * 4 + s.norm * 4, 3) == DescsEnd(s) + s.norm * 4 + s.norm * 4
  {
    var words := s.samples * (4 * s.dims + 3);
    assert DescsEnd(s) == 8 * words;
    hide AlignUp, DescsEnd, Pow2;
    EightDivides(0, 3);
    EightDivides(words, 2);
    EightDivides(words, 3);
    FourDivides(2 * words + s.norm);
    EightDivides(words + s.norm, 3);
    AlreadyAligned(0, 3);
    AlreadyAligned(8 * words, 2);
    AlreadyAligned(8 * words, 3);
    AlreadyAligned(4 * (2 * words + s.norm), 2);
    AlreadyAligned(8 * (words + s.norm), 3);
  }

  lemma UsedPush(k: Kind, reqs: seq<Request>, r: Request)
    ensures Used(k, reqs + [r]) == if r.kind == k then AlignUp(Used(k, reqs), r.log) + r.Bytes() else Used(k, reqs)
    ensures Estimated(k, reqs + [r]) ==
            if r.kind != k || r.count == 0 then Estimated(k, reqs) else AlignUp(Estimated(k, reqs), r.log) + r.Bytes()
    ensures r.kind == k ==> Offset(reqs + [r], |reqs|) == AlignUp(Used(k, reqs), r.log)
  {
    assert (reqs + [r])[..|reqs|] == reqs;
  }

  // Requests of another kind in front do not move anything.
  lemma {:induction false} OtherKind(k: Kind, others: seq<Request>, reqs: seq<Request>)
    requires forall r :: r in others ==> r.kind != k
    ensures Used(k, others + reqs) == Used(k, reqs)
    decreases |reqs|, |others|
  {
    if reqs != [] {
      assert (others + reqs)[..|others| + |reqs| - 1] == others + reqs[..|reqs| - 1];
      OtherKind(k, others, reqs[..|reqs| - 1]);
    } else if others != [] {
      assert others + reqs == others && others[..|others| - 1] + reqs == others[..|others| - 1];
      assert others[|others| - 1] in others;
      OtherKind(k, others[..|others| - 1], []);
    }
  }

  lemma {:induction false} OtherKindBehind(k: Kind, reqs: seq<Request>, others: seq<Request>)
    requires forall r :: r in others ==> r.kind != k
    ensures Used(k, reqs + others) == Used(k, reqs)
  {
    if others == [] {
      assert reqs + others == reqs;
    } else {
      assert (reqs + others)[..|reqs| + |others| - 1] == reqs + others[..|others| - 1];
      assert others[|others| - 1] in others;
      OtherKindBehind(k, reqs, others[..|others| - 1]);
    }
  }

  /** The arrays follow each other without gaps, and Run uses as many bytes as it copies. */
  lemma RunLayout(k: Kind, s: Staging)
    ensures var reqs := RunRequests(k, s);
            && Used(k, reqs) == TotalBytes(s)
            && Offset(reqs, 0) == 0
            && Offset(reqs, |reqs| - 1) == DescsEnd(s) + s.norm * 4 + s.norm * 4
            && (s.norm > 0 ==> Offset(reqs, 1) == DescsEnd(s) && Offset(reqs, 2) == DescsEnd(s) + s.norm * 4)
  {
    var reqs := RunRequests(k, s);
    EndsAligned(s);
    hide AlignUp, Used, SampleDescBytes, Offset;
    var one := [Descs(k, s)];
    assert one == [] + [Descs(k, s)];
    assert Used(k, []) == 0 by { UsedNothing(k); }
    UsedPush(k, [], Descs(k, s));
    assert Used(k, one) == DescsEnd(s);
    OffsetPrefix(one, reqs, 0);
    if s.norm > 0 {
      var f := Request(k, s.norm, 4, 2);
      UsedPush(k, one, f);
      UsedPush(k, one + [f], f);
      assert reqs == one + [f] + [f] + [Blocks(k, s)];
      OffsetPrefix(one + [f], reqs, 1);
      OffsetPrefix(one + [f] + [f], reqs, 2);
      UsedPush(k, one + [f] + [f], Blocks(k, s));
    } else {
      assert reqs == one + [Blocks(k, s)];
      UsedPush(k, one, Blocks(k, s));
    }
  }

  lemma OffsetPrefix(front: seq<Request>, reqs: seq<Request>, i: nat)
    requires front <= reqs && i < |front|
    ensures Offset(reqs, i) == Offset(front, i)
  {
    assert reqs[..i] == front[..i];
  }

  /** The estimate of Setup is exactly the copied size, in host and in device memory, although it
      asks for both normalization arrays at once and an empty batch has empty requests. */
  lemma SetupEstimate(k: Kind, s: Staging)
    requires k == HOST || k == GPU
    ensures Estimated(k, SetupRequests(s)) == TotalBytes(s)
  {
    EndsAligned(s);
    hide AlignUp, Used, Estimated, SampleDescBytes;
    UsedNothing(k);
    var dh, dg := Descs(HOST, s), Descs(GPU, s);
    UsedPush(k, [], dh);
    UsedPush(k, [] + [dh], dg);
    var two := [] + [dh] + [dg];
    assert Estimated(k, two) == DescsEnd(s);
    var front := two;
    if s.norm > 0 {
      var fh, fg := Request(HOST, 2 * s.norm, 4, 2), Request(GPU, 2 * s.norm, 4, 2);
      UsedPush(k, two, fh);
      UsedPush(k, two + [fh], fg);
      front := two + [fh] + [fg];
    }
    assert Estimated(k, front) == DescsEnd(s) + s.norm * 4 + s.norm * 4;
    UsedPush(k, front, Blocks(HOST, s));
    UsedPush(k, front + [Blocks(HOST, s)], Blocks(GPU, s));
    assert SetupRequests(s) == front + [Blocks(HOST, s)] + [Blocks(GPU, s)];
  }

  /** What Setup estimates is exactly what Run uses, so Run never leaves the reserved memory. */
  lemma SetupSufficesForRun(k: Kind, s: Staging)
    ensures Used(k, AllRunRequests(s)) == Estimated(k, SetupRequests(s))
    ensures Supported(AllRunRequests(s))
  {
    var host, gpu := RunRequests(HOST, s), RunRequests(GPU, s);
    assert forall r :: r in host ==> r.kind == HOST && r.log <= 3;
    assert forall r :: r in gpu ==> r.kind == GPU && r.log <= 3;
    hide Used, Estimated, RunRequests, SetupRequests;
    if k == HOST {
      OtherKindBehind(k, host, gpu);
      RunLayout(k, s);
      SetupEstimate(k, s);
    } else if k == GPU {
      OtherKind(k, host, gpu);
      RunLayout(k, s);
      SetupEstimate(k, s);
    } else {
      OtherKind(k, host + gpu, []);
      assert host + gpu + [] == host + gpu;
      UsedNothing(k);
      NothingElse(k, s);
    }
  }

  lemma NothingElse(k: Kind, s: Staging)
    requires k != HOST && k != GPU
    ensures Estimated(k, SetupRequests(s)) == 0
  {
    hide AlignUp, Used, Estimated;
    UsedNothing(k);
    var dh, dg := Descs(HOST, s), Descs(GPU, s);
    UsedPush(k, [], dh);
    UsedPush(k, [] + [dh], dg);
    var front := [] + [dh] + [dg];
    if s.norm > 0 {
      var fh, fg := Request(HOST, 2 * s.norm, 4, 2), Request(GPU, 2 * s.norm, 4, 2);
      UsedPush(k, front, fh);
      UsedPush(k, front + [fh], fg);
      front := front + [fh] + [fg];
    }
    UsedPush(k, front, Blocks(HOST, s));
    UsedPush(k, front + [Blocks(HOST, s)], Blocks(GPU, s));
    assert SetupRequests(s) == front + [Blocks(HOST, s)] + [Blocks(GPU, s)];
  }

  // ---- the copy -------------------------------------------------------------------------------------------

  // One copy of n cells from host to device memory.
  function Copied<T>(host: seq<T>, from: nat, device: seq<T>, to: nat, n: nat): seq<T>
    requires from + n <= |host| && to + n <= |device|
  {
    device[..to] + host[from..from + n] + device[to + n..]
  }

  /** One copy of TotalBytes from the first host block reproduces every staged array on the device,
      at the block that Run allocated for it there. */
  lemma OneCopyMovesAll<T>(s: Staging, host: seq<T>, from: nat, device: seq<T>, to: nat, i: nat)
    requires from + TotalBytes(s) <= |host| && to + TotalBytes(s) <= |device| && i < |RunRequests(HOST, s)|
    ensures |RunRequests(GPU, s)| == |RunRequests(HOST, s)|
    ensures var a, b := Offset(RunRequests(HOST, s), i), Offset(RunRequests(GPU, s), i);
            var n := RunRequests(HOST, s)[i].Bytes();
            && n == RunRequests(GPU, s)[i].Bytes() && a + n <= TotalBytes(s) && b + n <= TotalBytes(s)
            && Copied(host, from, device, to, TotalBytes(s))[to + b..to + b + n] == host[from + a..from + a + n]
  {
    RunLayout(HOST, s);
    RunLayout(GPU, s);
    hide Offset, Used, SampleDescBytes;
    var a, b := Offset(RunRequests(HOST, s), i), Offset(RunRequests(GPU, s), i);
    var n := RunRequests(HOST, s)[i].Bytes();
    assert a == b;
    assert a + n <= TotalBytes(s);
    CopiedSlice(host, from, device, to, TotalBytes(s), a, n);
  }

  lemma CopiedSlice<T>(host: seq<T>, from: nat, device: seq<T>, to: nat, total: nat, a: nat, n: nat)
    requires from + total <= |host| && to + total <= |device| && a + n <= total
    ensures Copied(host, from, device, to, total)[to + a..to + a + n] == host[from + a..from + a + n]
  {
    var got, want := Copied(host, from, device, to, total)[to + a..to + a + n], host[from + a..from + a + n];
    forall i | 0 <= i < n ensures got[i] == want[i] {
      assert got[i] == Copied(host, from, device, to, total)[to + a + i];
    }
  }
}
