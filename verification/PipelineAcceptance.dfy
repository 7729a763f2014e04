/** Which calls a pipeline accepts, said in terms of the calls made before: what each edge is, who may
    read it, and which ids are taken. */
module PipelineAcceptance {
  import opened PipelineState
  import opened PipelineInvariant
  import opened PipelineIds

  // ---- what the calls make ---------------------------------------------------------------------------

  // An edge as it is declared.
  datatype Made = Made(name: string, storage: Storage, support: bool)

  // The name of the cpu stage of a split decoder keeps what follows "nvJPEGDecoder" or "ImageDecoder".
  function StageName(def: OpDefinition): string {
    var prefix := if "nvJPEGDecoder" <= def.spec.name then 13 else 12;
    "nvJPEGDecoderCPUStage" + if prefix <= |def.spec.name| then def.spec.name[prefix..] else ""
  }

  // The streams between the stages of a split decoder.
  function Stream(def: OpDefinition, k: string): string {
    StageName(def) + def.instName + k
  }

  // The outputs of the cpu stage of a split decoder.
  function StreamOutputs(def: OpDefinition): seq<Tensor>
    requires def.spec.outputs != []
  {
    [Tensor(Stream(def, "0"), OnCpu)] + def.spec.outputs[1..]
    + [Tensor(Stream(def, "1"), OnCpu), Tensor(Stream(def, "2"), OnCpu)]
  }

  function Declared(outputs: seq<Tensor>, support: bool): set<Made> {
    set t | t in outputs :: Made(t.name, t.storage, support)
  }

  // The edges that a call declares.
  function Makes(call: Call): set<Made> {
    match call
    case External(name) => {Made(name, OnCpu, false)}
    case Operator(def) =>
      if Splits(def.spec) && def.spec.outputs != []
      then Declared(StreamOutputs(def), false) + {Made(def.spec.outputs[0].name, OnGpu, false)}
      else Declared(def.spec.outputs, def.spec.device == SupportOp)
  }

  // Edges that a gpu operator reads on the gpu.
  function Fetches(call: Call): set<string> {
    if call.Operator? && call.def.spec.device == GpuOp then Asked(call.def.spec.inputs) else {}
  }

  function Asked(inputs: seq<Tensor>): set<string> {
    set t | t in inputs && t.storage == OnGpu :: t.name
  }

  function AllMade(calls: seq<Call>): set<Made> {
    set call, m | call in calls && m in Makes(call) :: m
  }

  function AllFetched(calls: seq<Call>): set<string> {
    set call, e | call in calls && e in Fetches(call) :: e
  }

  function Names(made: set<Made>): set<string> {
    set m | m in made :: m.name
  }

  /** The edge table says of each edge where it was declared, where it can be read and whether a support
      operator made it. */
  ghost predicate Tells(edges: map<string, EdgeMeta>, made: set<Made>, fetched: set<string>) {
    && edges.Keys == Names(made)
    && forall m :: m in made ==> TellsOf(edges, fetched, m)
  }

  ghost predicate TellsOf(edges: map<string, EdgeMeta>, fetched: set<string>, m: Made) {
    && m.name in edges && edges[m.name].hasCpu == (m.storage == OnCpu) && edges[m.name].isSupport == m.support
    && edges[m.name].hasGpu == (m.storage == OnGpu || m.name in fetched)
  }

  // ---- the inputs of an operator ------------------------------------------------------------------------

  // The flags that decide who may read an edge.
  ghost predicate SameReaders(edges: map<string, EdgeMeta>, edges': map<string, EdgeMeta>, asked: set<string>) {
    && edges'.Keys == edges.Keys
    && forall e :: e in edges ==>
         && edges'[e].hasCpu == edges[e].hasCpu && edges'[e].isSupport == edges[e].isSupport
         && edges'[e].hasGpu == (edges[e].hasGpu || e in asked)
  }

  function AskedBy(device: OpDevice, inputs: seq<Tensor>): set<string> {
    if device == GpuOp then Asked(inputs) else {}
  }

  // The table of devices: what an operator may read.
  predicate MayRead(edges: map<string, EdgeMeta>, device: OpDevice, t: Tensor) {
    && t.name in edges
    && match device
       case GpuOp => t.storage == OnCpu ==> edges[t.name].hasCpu
       case SupportOp => t.storage == OnCpu && edges[t.name].hasCpu && edges[t.name].isSupport
       case _ => t.storage == OnCpu && edges[t.name].hasCpu && !edges[t.name].isSupport
  }

  // An inserted copy: to the contiguous version or to the gpu, with a negative id.
  ghost predicate IsCopy(op: OpDefinition) {
    && op.logicalId < 0 && |op.spec.inputs| == 1
    && var e := op.spec.inputs[0].name;
       (op.instName == "__MakeContiguous_" + e && op.spec == CopyOf(e, Tensor("contiguous_" + e, OnCpu)))
       || (op.instName == "__Copy_" + e && op.spec == CopyOf(e, Tensor(e, OnGpu)))
  }

  function CopyOf(e: string, target: Tensor): OpSpec {
    OpSpec("MakeContiguous", MixedOp, map[], [Tensor(e, OnCpu)], [], [target])
  }

  // Only copies were appended.
  ghost predicate CopiesAppended(ops: seq<OpDefinition>, ops': seq<OpDefinition>) {
    ops <= ops' && forall i :: |ops| <= i < |ops'| ==> IsCopy(ops'[i])
  }

  lemma CopyAppended(groupable: set<string>, s: State, edge: string, prefix: string, target: Tensor)
    requires IdsExact(s)
    requires (prefix == "__MakeContiguous_" && target == Tensor("contiguous_" + edge, OnCpu))
             || (prefix == "__Copy_" && target == Tensor(edge, OnGpu))
    ensures InsertCopy(groupable, s, edge, prefix, target).Ok?
    ensures var t := InsertCopy(groupable, s, edge, prefix, target).value;
            IdsExact(t) && CopiesAppended(s.ops, t.ops) && t.edges == s.edges
  {
    CopyId(groupable, s, edge, prefix, target);
    assert s.nextInternalId < 0;
    hide IdsExact;
    assert IsCopy(OpDefinition(prefix + edge, CopySpec(edge, target), s.nextInternalId));
  }

  // The same state with another edge table.
  lemma SetupCpuExactly(groupable: set<string>, s: State, e: string)
    requires IdsExact(s) && e in s.edges
    ensures SetupCpuInput(groupable, s, e).Ok?
    ensures var t := SetupCpuInput(groupable, s, e).value;
            SameReaders(s.edges, t.edges, {}) && CopiesAppended(s.ops, t.ops) && IdsExact(t)
  {
    assert Contiguous(e) == "contiguous_" + e;
    CopyAppended(groupable, s, e, "__MakeContiguous_", Tensor(Contiguous(e), OnCpu));
    hide IdsExact, InsertCopy, CopiesAppended, Contiguous;
    NothingRead(s.edges, s.ops, CpuOp);
    if !s.edges[e].hasContiguous {
      var t := InsertCopy(groupable, s, e, "__MakeContiguous_", Tensor(Contiguous(e), OnCpu)).value;
      SameIds(t, SetupCpuInput(groupable, s, e).value);
    }
  }

  lemma SetupGpuExactly(groupable: set<string>, s: State, e: string)
    requires IdsExact(s) && e in s.edges
    ensures SetupGpuInput(groupable, s, e).Ok?
    ensures var t := SetupGpuInput(groupable, s, e).value;
            SameReaders(s.edges, t.edges, {e}) && CopiesAppended(s.ops, t.ops) && IdsExact(t)
  {
    CopyAppended(groupable, s, e, "__Copy_", Tensor(e, OnGpu));
    hide IdsExact, InsertCopy, CopiesAppended;
    NothingRead(s.edges, s.ops, CpuOp);
    if !s.edges[e].hasGpu {
      var t := InsertCopy(groupable, s, e, "__Copy_", Tensor(e, OnGpu)).value;
      SameIds(t, SetupGpuInput(groupable, s, e).value);
    }
  }

  lemma SetupInputExactly(groupable: set<string>, s: State, device: OpDevice, input: Tensor)
    requires IdsExact(s)
    ensures SetupInput(groupable, s, device, input).Ok? <==> MayRead(s.edges, device, input)
    ensures SetupInput(groupable, s, device, input).Ok? ==>
              var t := SetupInput(groupable, s, device, input).value.0;
              SameReaders(s.edges, t.edges, AskedBy(device, [input])) && CopiesAppended(s.ops, t.ops) && IdsExact(t)
  {
    hide IdsExact, SetupCpuInput, SetupGpuInput, CopiesAppended, Contiguous, SameReaders;
    if input.name in s.edges {
      SetupCpuExactly(groupable, s, input.name);
      SetupGpuExactly(groupable, s, input.name);
    }
    NothingRead(s.edges, s.ops, device);
    assert Asked([]) == {};
    assert Asked([input]) == if input.storage == OnGpu then {input.name} else {};
  }

  lemma SameReadersMay(edges: map<string, EdgeMeta>, edges': map<string, EdgeMeta>, asked: set<string>, device: OpDevice, t: Tensor)
    requires SameReaders(edges, edges', asked)
    ensures MayRead(edges', device, t) <==> MayRead(edges, device, t)
  {
  }

  lemma SameReadersThen(a: map<string, EdgeMeta>, b: map<string, EdgeMeta>, c: map<string, EdgeMeta>,
                        device: OpDevice, first: Tensor, rest: seq<Tensor>)
    requires SameReaders(a, b, AskedBy(device, [first])) && SameReaders(b, c, AskedBy(device, rest))
    ensures SameReaders(a, c, AskedBy(device, [first] + rest))
  {
    assert Asked([first] + rest) == Asked([first]) + Asked(rest) by {
      assert forall t :: t in [first] + rest <==> t in [first] || t in rest;
    }
  }

  lemma CopiesThen(a: seq<OpDefinition>, b: seq<OpDefinition>, c: seq<OpDefinition>)
    requires CopiesAppended(a, b) && CopiesAppended(b, c)
    ensures CopiesAppended(a, c)
  {
    hide IsCopy;
    forall i | |a| <= i < |c| ensures IsCopy(c[i]) {
      if i < |b| {
        assert c[i] == b[i];
      }
    }
  }

  predicate AllMayRead(edges: map<string, EdgeMeta>, device: OpDevice, inputs: seq<Tensor>) {
    forall t :: t in inputs ==> MayRead(edges, device, t)
  }

  lemma MayReadCons(edges: map<string, EdgeMeta>, device: OpDevice, inputs: seq<Tensor>)
    requires inputs != []
    ensures AllMayRead(edges, device, inputs) <==> MayRead(edges, device, inputs[0]) && AllMayRead(edges, device, inputs[1..])
  {
    hide MayRead;
    assert inputs == [inputs[0]] + inputs[1..];
  }

  lemma {:induction false} SetupInputsExactly(groupable: set<string>, s: State, device: OpDevice, inputs: seq<Tensor>)
    requires IdsExact(s)
    ensures SetupInputs(groupable, s, device, inputs).Ok? <==> AllMayRead(s.edges, device, inputs)
    ensures SetupInputs(groupable, s, device, inputs).Ok? ==>
              var t := SetupInputs(groupable, s, device, inputs).value.0;
              SameReaders(s.edges, t.edges, AskedBy(device, inputs)) && CopiesAppended(s.ops, t.ops) && IdsExact(t)
    decreases |inputs|
  {
    hide SetupInput, IdsExact, SameReaders, CopiesAppended, MayRead, AskedBy;
    if inputs == [] {
      NothingRead(s.edges, s.ops, device);
    } else {
      SetupInputExactly(groupable, s, device, inputs[0]);
      MayReadCons(s.edges, device, inputs);
      if SetupInput(groupable, s, device, inputs[0]).Ok? {
        var t := SetupInput(groupable, s, device, inputs[0]).value.0;
        SetupInputsExactly(groupable, t, device, inputs[1..]);
        SameReadersMayAll(s.edges, t.edges, AskedBy(device, [inputs[0]]), device, inputs[1..]);
        if SetupInputs(groupable, t, device, inputs[1..]).Ok? {
          var u := SetupInputs(groupable, t, device, inputs[1..]).value.0;
          SameReadersThen(s.edges, t.edges, u.edges, device, inputs[0], inputs[1..]);
          CopiesThen(s.ops, t.ops, u.ops);
          assert inputs == [inputs[0]] + inputs[1..];
        }
      }
    }
  }

  lemma NothingRead(edges: map<string, EdgeMeta>, ops: seq<OpDefinition>, device: OpDevice)
    ensures SameReaders(edges, edges, AskedBy(device, [])) && CopiesAppended(ops, ops) && AllMayRead(edges, device, [])
  {
  }

  lemma SameReadersMayAll(edges: map<string, EdgeMeta>, edges': map<string, EdgeMeta>, asked: set<string>, device: OpDevice,
                          inputs: seq<Tensor>)
    requires SameReaders(edges, edges', asked)
    ensures AllMayRead(edges', device, inputs) <==> AllMayRead(edges, device, inputs)
  {
    hide MayRead, SameReaders;
    forall t | t in inputs ensures MayRead(edges', device, t) <==> MayRead(edges, device, t) {
      SameReadersMay(edges, edges', asked, device, t);
    }
  }

  // ---- the outputs -------------------------------------------------------------------------------------------

  // Cpu and support operators write on the cpu only.
  predicate MayWrite(device: OpDevice, outputs: seq<Tensor>) {
    device == CpuOp || device == SupportOp ==> forall t :: t in outputs ==> t.storage == OnCpu
  }

  lemma {:induction false} AddOutputsExactly(s: State, device: OpDevice, outputs: seq<Tensor>)
    ensures AddOutputs(s, device, outputs).Ok? <==> NewNames(s.edges, outputs) && MayWrite(device, outputs)
    decreases |outputs|
  {
    if outputs != [] {
      var first, rest := outputs[0], outputs[1..];
      assert outputs == [first] + rest;
      var t := s.(edges := s.edges[first.name := NewEdge(device, first.storage)]);
      AddOutputsExactly(t, device, rest);
      hide NewEdge;
      NewNamesBoth(s.edges, t.edges, first, rest);
      assert MayWrite(device, outputs) <==> MayWrite(device, [first]) && MayWrite(device, rest);
    }
  }

  lemma NewNamesBoth(edges: map<string, EdgeMeta>, edges': map<string, EdgeMeta>, first: Tensor, rest: seq<Tensor>)
    requires edges'.Keys == edges.Keys + {first.name}
    ensures NewNames(edges, [first] + rest) <==> first.name !in edges && NewNames(edges', rest)
  {
    var all := [first] + rest;
    assert all[0] == first && forall i :: 0 <= i < |rest| ==> all[i + 1] == rest[i];
    if first.name !in edges && NewNames(edges', rest) {
      forall i, j | 0 <= i < j < |all| ensures all[i].name != all[j].name {
        assert all[j] == rest[j - 1];
        if i > 0 {
          assert all[i] == rest[i - 1];
        }
      }
      forall i | 0 <= i < |all| ensures all[i].name !in edges {
        if i > 0 {
          assert all[i] == rest[i - 1];
        }
      }
    }
    if NewNames(edges, all) {
      forall i | 0 <= i < |rest| ensures rest[i].name !in edges' {
        assert all[i + 1] == rest[i] && all[0].name != all[i + 1].name;
      }
      forall i, j | 0 <= i < j < |rest| ensures rest[i].name != rest[j].name {
        assert all[i + 1].name != all[j + 1].name;
      }
    }
  }

  // ---- ids --------------------------------------------------------------------------------------------------------

  // Every operator that has the id already is an instance of this one, which allows grouping.
  predicate IdAllowed(groupable: set<string>, ops: seq<OpDefinition>, id: int, name: string) {
    forall i :: 0 <= i < |ops| && ops[i].logicalId == id ==> ops[i].spec.name == name && name in groupable
  }

  lemma AddToOpSpecsExactly(groupable: set<string>, s: State, def: OpDefinition)
    requires TableExact(s) && OneName(s.ops)
    ensures AddToOpSpecs(groupable, s, def).Ok? <==> IdAllowed(groupable, s.ops, def.logicalId, def.spec.name)
  {
    var id := def.logicalId;
    PositionsSound(s.ops, id);
    assert Group(s, id) == Positions(s.ops, id);
    hide Positions;
    var group := Group(s, id);
    if group != [] {
      assert group[0] < |s.ops| && s.ops[group[0]].logicalId == id;
      forall i | 0 <= i < |s.ops| && s.ops[i].logicalId == id ensures s.ops[i].spec.name == s.ops[group[0]].spec.name {
        var k := group[0];
        if i < k {
          assert s.ops[i].logicalId == s.ops[k].logicalId;
        } else if k < i {
          assert s.ops[k].logicalId == s.ops[i].logicalId;
        }
      }
    }
  }

  lemma CopiesKeepIds(groupable: set<string>, ops: seq<OpDefinition>, ops': seq<OpDefinition>, id: int, name: string)
    requires CopiesAppended(ops, ops') && id >= 0
    ensures IdAllowed(groupable, ops', id, name) <==> IdAllowed(groupable, ops, id, name)
  {
    assert forall i :: |ops| <= i < |ops'| ==> IsCopy(ops'[i]) && ops'[i].logicalId < 0;
    hide IsCopy;
    assert forall i :: 0 <= i < |ops| ==> ops'[i] == ops[i];
  }

  // ---- one operator ----------------------------------------------------------------------------------------------

  predicate SupportEdge(edges: map<string, EdgeMeta>, e: string) {
    e in edges && edges[e].hasCpu && edges[e].isSupport
  }

  /** What an operator that is not split needs of the pipeline. */
  ghost predicate Allowed(groupable: set<string>, edges: map<string, EdgeMeta>, ops: seq<OpDefinition>, def: OpDefinition) {
    var spec := def.spec;
    && def.logicalId >= 0 && !spec.device.OtherOp? && AllMayRead(edges, spec.device, spec.inputs)
    && (forall a :: a in spec.argInputs ==> SupportEdge(edges, a.edge))
    && NewNames(edges, spec.outputs) && MayWrite(spec.device, spec.outputs)
    && IdAllowed(groupable, ops, def.logicalId, spec.name)
  }

  lemma ArgInputsSame(s: State, t: State, asked: set<string>, args: seq<ArgInput>)
    requires SameReaders(s.edges, t.edges, asked)
    ensures (forall a :: a in args ==> ArgInputOk(t, a)) <==> forall a :: a in args ==> SupportEdge(s.edges, a.edge)
  {
    forall a | a in args ensures ArgInputOk(t, a) <==> SupportEdge(s.edges, a.edge) {
    }
  }

  lemma AddPlainExactly(groupable: set<string>, s: State, def: OpDefinition)
    requires IdsExact(s) && def.logicalId >= 0 && !def.spec.device.OtherOp?
    ensures AddPlain(groupable, s, def).Ok? <==> Allowed(groupable, s.edges, s.ops, def)
  {
    var spec := def.spec;
    hide SetupInputs, AddOutputs, AddToOpSpecs, IdsExact, AllMayRead, NewNames, MayWrite, IdAllowed, ArgInputOk, SameReaders, CopiesAppended;
    SetupInputsExactly(groupable, s, spec.device, spec.inputs);
    if SetupInputs(groupable, s, spec.device, spec.inputs).Ok? {
      var (t, renamed) := SetupInputs(groupable, s, spec.device, spec.inputs).value;
      ArgInputsSame(s, t, AskedBy(spec.device, spec.inputs), spec.argInputs);
      AddOutputsExactly(t, spec.device, spec.outputs);
      SameNames(s.edges, t.edges, AskedBy(spec.device, spec.inputs), spec.outputs);
      if AddOutputs(t, spec.device, spec.outputs).Ok? {
        var t2 := AddOutputs(t, spec.device, spec.outputs).value;
        OutputsKeepIds(t, t2, spec.device, spec.outputs);
        AddToOpSpecsExactly(groupable, t2, def.(spec := spec.(inputs := renamed)));
        CopiesKeepIds(groupable, s.ops, t.ops, def.logicalId, spec.name);
      }
    }
  }

  lemma SameNames(edges: map<string, EdgeMeta>, edges': map<string, EdgeMeta>, asked: set<string>, outputs: seq<Tensor>)
    requires SameReaders(edges, edges', asked)
    ensures NewNames(edges', outputs) <==> NewNames(edges, outputs)
  {
  }

  lemma OutputsKeepIds(s: State, t: State, device: OpDevice, outputs: seq<Tensor>)
    requires AddOutputs(s, device, outputs) == Ok(t) && IdsExact(s)
    ensures TableExact(t) && OneName(t.ops) && t.ops == s.ops && IdsExact(t)
  {
    hide NewNames, Extended, AddOutputs, Positions;
    AddOutputsMeaning(s, device, outputs);
    SameIds(s, t);
  }

  lemma IdsKept(s: State, s0: State, id: int)
    requires s0.ops == s.ops && s0.logicalIds == s.logicalIds && s0.nextInternalId == s.nextInternalId
    requires IdsExact(s) && id >= 0 && (s0.nextLogicalId == Bumped(s.nextLogicalId, id) || s0.nextLogicalId == s.nextLogicalId + 1)
    ensures IdsExact(s0) && s0.nextLogicalId >= 0
  {
    assert forall i :: Group(s0, i) == Group(s, i) == Positions(s.ops, i);
  }

  lemma UnsplitExactly(groupable: set<string>, s: State, def: OpDefinition)
    requires IdsExact(s) && !Splits(def.spec)
    ensures AddOperator(groupable, s, def).Ok? <==> Allowed(groupable, s.edges, s.ops, def)
  {
    var s0 := s.(nextLogicalId := Bumped(s.nextLogicalId, def.logicalId), serialized := s.serialized + [def]);
    if def.logicalId >= 0 && !def.spec.device.OtherOp? {
      assert AddOperator(groupable, s, def) == AddPlain(groupable, s0, def);
      IdsKept(s, s0, def.logicalId);
      hide AddPlain, AddOperator, Splits, IdsExact, Allowed;
      AddPlainExactly(groupable, s0, def);
    }
  }

  // ---- the edge table over a run -------------------------------------------------------------------------------

  lemma TellsCopies(edges: map<string, EdgeMeta>, edges': map<string, EdgeMeta>, made: set<Made>, fetched: set<string>, asked: set<string>)
    requires Tells(edges, made, fetched) && SameReaders(edges, edges', asked)
    ensures Tells(edges', made, fetched + asked)
  {
    forall m | m in made ensures TellsOf(edges', fetched + asked, m) {
      assert TellsOf(edges, fetched, m);
    }
  }

  lemma TellsOutputs(edges: map<string, EdgeMeta>, edges': map<string, EdgeMeta>, made: set<Made>, fetched: set<string>,
                     device: OpDevice, outputs: seq<Tensor>)
    requires Tells(edges, made, fetched) && fetched <= edges.Keys
    requires NewNames(edges, outputs) && Extended(edges, edges', device, outputs)
    ensures Tells(edges', made + Declared(outputs, device == SupportOp), fetched) && fetched <= edges'.Keys
  {
    var more := Declared(outputs, device == SupportOp);
    forall m | m in made + more ensures TellsOf(edges', fetched, m) {
      if m in more {
        var i :| 0 <= i < |outputs| && m == Made(outputs[i].name, outputs[i].storage, device == SupportOp);
      } else {
        assert TellsOf(edges, fetched, m);
      }
    }
    forall e ensures e in edges' <==> e in Names(made + more) {
      if e in edges' && e !in edges {
        var i :| 0 <= i < |outputs| && outputs[i].name == e;
        assert Made(e, outputs[i].storage, device == SupportOp) in more;
      } else if e in edges {
        var m :| m in made && m.name == e;
        assert m in made + more;
      }
      if e in Names(made + more) {
        var m :| m in made + more && m.name == e;
        assert TellsOf(edges', fetched, m);
      }
    }
    assert edges'.Keys == Names(made + more);
  }

  lemma UnsplitTells(groupable: set<string>, s: State, made: set<Made>, fetched: set<string>, def: OpDefinition)
    requires IdsExact(s) && !Splits(def.spec) && AddOperator(groupable, s, def).Ok?
    requires Tells(s.edges, made, fetched) && fetched <= s.edges.Keys
    ensures var t := AddOperator(groupable, s, def).value;
            var fetched' := fetched + AskedBy(def.spec.device, def.spec.inputs);
            Tells(t.edges, made + Declared(def.spec.outputs, def.spec.device == SupportOp), fetched') && fetched' <= t.edges.Keys
  {
    var spec := def.spec;
    hide AddOperator, AddPlain, SetupInputs, AddOutputs, AddToOpSpecs, IdsExact, Tells, Positions, NewNames, Extended, Declared, AllMayRead;
    var s0 := AddOperatorUnfold(groupable, s, def);
    IdsKept(s, s0, def.logicalId);
    var t, renamed, t2 := AddPlainUnfold(groupable, s0, def);
    SetupInputsExactly(groupable, s0, spec.device, spec.inputs);
    TellsCopies(s.edges, t.edges, made, fetched, AskedBy(spec.device, spec.inputs));
    AskedKnown(s.edges, spec.device, spec.inputs);
    AddOutputsMeaning(t, spec.device, spec.outputs);
    TellsOutputs(t.edges, t2.edges, made, fetched + AskedBy(spec.device, spec.inputs), spec.device, spec.outputs);
  }

  lemma AskedKnown(edges: map<string, EdgeMeta>, device: OpDevice, inputs: seq<Tensor>)
    requires AllMayRead(edges, device, inputs)
    ensures AskedBy(device, inputs) <= edges.Keys
  {
    forall t | t in inputs ensures t.name in edges {
      assert MayRead(edges, device, t);
    }
  }

  // The stages of a split decoder, spelled out.
  lemma StagesAre(def: OpDefinition)
    requires Splits(def.spec) && def.spec.outputs != []
    ensures CpuStage(def.spec, def.instName) ==
            def.spec.(name := StageName(def), device := CpuOp, outputs := StreamOutputs(def))
    ensures GpuStage(def.spec, def.instName) ==
            OpSpec("nvJPEGDecoderGPUStage", MixedOp, def.spec.args,
                   [Tensor(StreamOutputs(def)[0].name, OnCpu), Tensor(StreamOutputs(def)[1].name, OnCpu),
                    Tensor(StreamOutputs(def)[2].name, OnCpu)], [], [Tensor(def.spec.outputs[0].name, OnGpu)])
  {
    hide Contains;
    var name := def.spec.name;
    if DECODER_PREFIXES[0] <= name {
      assert CpuStageName(def.spec) == "nvJPEGDecoderCPUStage" + name[13..];
    } else {
      assert CpuStageName(def.spec) == "nvJPEGDecoderCPUStage" + name[12..];
    }
  }

  // ---- a split decoder ------------------------------------------------------------------------------------------

  /** What a decoder that is split needs of the pipeline: its inputs on the host, new names for its
      streams and outputs, and an id for each of its two stages. */
  ghost predicate SplitAllowed(groupable: set<string>, edges: map<string, EdgeMeta>, ops: seq<OpDefinition>, next: int, def: OpDefinition) {
    var spec, id := def.spec, if def.logicalId > next then def.logicalId + 1 else next;
    && def.logicalId >= 0 && spec.outputs != [] && spec.argInputs == [] && AllMayRead(edges, CpuOp, spec.inputs)
    && NewNames(edges, StreamOutputs(def) + [Tensor(spec.outputs[0].name, OnGpu)]) && MayWrite(CpuOp, StreamOutputs(def))
    && IdAllowed(groupable, ops, def.logicalId, StageName(def))
    && id != def.logicalId && IdAllowed(groupable, ops, id, "nvJPEGDecoderGPUStage")
  }

  lemma NewNamesSnoc(edges: map<string, EdgeMeta>, edges': map<string, EdgeMeta>, device: OpDevice, outputs: seq<Tensor>, last: Tensor)
    requires NewNames(edges, outputs) && Extended(edges, edges', device, outputs)
    ensures NewNames(edges', [last]) <==> NewNames(edges, outputs + [last])
  {
    var all := outputs + [last];
    assert forall i :: 0 <= i < |outputs| ==> all[i] == outputs[i];
    assert all[|outputs|] == last;
    if last.name in edges' && last.name !in edges {
      var i :| 0 <= i < |outputs| && outputs[i].name == last.name;
      assert all[i].name == all[|outputs|].name;
    }
  }

  // What the cpu stage leaves for the other one.
  ghost predicate AfterStage(edges: map<string, EdgeMeta>, ops: seq<OpDefinition>, def: OpDefinition, t: State, mid: map<string, EdgeMeta>)
    requires def.spec.outputs != []
  {
    && mid.Keys == edges.Keys && Extended(mid, t.edges, CpuOp, StreamOutputs(def))
    && t.ops != [] && CopiesAppended(ops, t.ops[..|t.ops| - 1])
    && t.ops[|t.ops| - 1].logicalId == def.logicalId && t.ops[|t.ops| - 1].spec.name == StageName(def)
  }

  lemma StageLeaves(groupable: set<string>, s: State, cpu: OpDefinition, def: OpDefinition) returns (mid: map<string, EdgeMeta>)
    requires IdsExact(s) && def.spec.outputs != [] && !Splits(cpu.spec)
    requires cpu.logicalId == def.logicalId && cpu.spec == def.spec.(name := StageName(def), device := CpuOp, outputs := StreamOutputs(def))
    requires AddOperator(groupable, s, cpu).Ok?
    ensures AfterStage(s.edges, s.ops, def, AddOperator(groupable, s, cpu).value, mid)
    ensures var t := AddOperator(groupable, s, cpu).value;
            IdsExact(t) && t.nextLogicalId == Bumped(s.nextLogicalId, def.logicalId)
  {
    hide AddOperator, AddPlain, SetupInputs, AddOutputs, AddToOpSpecs, IdsExact, NewNames, Extended, AllMayRead, Splits, StreamOutputs, StageName;
    var s0 := AddOperatorUnfold(groupable, s, cpu);
    IdsKept(s, s0, def.logicalId);
    var t, renamed, t2 := AddPlainUnfold(groupable, s0, cpu);
    SetupInputsExactly(groupable, s0, CpuOp, cpu.spec.inputs);
    AddOutputsMeaning(t, CpuOp, cpu.spec.outputs);
    UnsplitIds(groupable, s, cpu);
    UnsplitRecords(groupable, s, cpu);
    mid := t.edges;
    var r := AddOperator(groupable, s, cpu).value;
    assert r.ops[..|r.ops| - 1] == t.ops;
  }

  lemma IdAfterStage(groupable: set<string>, ops: seq<OpDefinition>, ops': seq<OpDefinition>, def: OpDefinition, id: int)
    requires ops' != [] && CopiesAppended(ops, ops'[..|ops'| - 1]) && id >= 0
    requires ops'[|ops'| - 1].logicalId == def.logicalId && ops'[|ops'| - 1].spec.name == StageName(def)
    ensures IdAllowed(groupable, ops', id, "nvJPEGDecoderGPUStage") <==>
            id != def.logicalId && IdAllowed(groupable, ops, id, "nvJPEGDecoderGPUStage")
  {
    var n := |ops'| - 1;
    assert StageName(def)[13] == 'C' && "nvJPEGDecoderGPUStage"[13] == 'G';
    hide StageName;
    CopiesKeepIds(groupable, ops, ops'[..n], id, "nvJPEGDecoderGPUStage");
    assert forall i :: 0 <= i < n ==> ops'[i] == ops'[..n][i];
  }

  lemma StreamsReadable(edges: map<string, EdgeMeta>, edges': map<string, EdgeMeta>, outputs: seq<Tensor>)
    requires |outputs| >= 3 && MayWrite(CpuOp, outputs) && Extended(edges, edges', CpuOp, outputs)
    ensures AllMayRead(edges', MixedOp, [Tensor(outputs[0].name, OnCpu), Tensor(outputs[1].name, OnCpu), Tensor(outputs[2].name, OnCpu)])
  {
    assert outputs[0] in outputs && outputs[1] in outputs && outputs[2] in outputs;
  }

  lemma SplitExactly(groupable: set<string>, s: State, def: OpDefinition)
    requires IdsExact(s) && Splits(def.spec)
    ensures AddOperator(groupable, s, def).Ok? <==> SplitAllowed(groupable, s.edges, s.ops, s.nextLogicalId, def)
  {
    hide AddOperator, CpuStage, GpuStage, StreamOutputs, StageName, IdsExact, AllMayRead, NewNames, MayWrite, IdAllowed, Splits, Extended, CopiesAppended;
    SplitNeeds(groupable, s, def);
    if def.logicalId >= 0 && def.spec.outputs != [] && def.spec.argInputs == [] {
      StagesFacts(def);
      var s0 := s.(nextLogicalId := Bumped(s.nextLogicalId, def.logicalId), serialized := s.serialized + [def]);
      var cpu := def.(spec := CpuStage(def.spec, def.instName));
      IdsKept(s, s0, def.logicalId);
      UnsplitExactly(groupable, s0, cpu);
      NewNamesFront(s.edges, StreamOutputs(def), Tensor(def.spec.outputs[0].name, OnGpu));
      if AddOperator(groupable, s0, cpu).Ok? {
        var mid := StageLeaves(groupable, s0, cpu, def);
        var s1 := AddOperator(groupable, s0, cpu).value;
        SplitGoesOn(groupable, s, def, s0, s1);
        SecondStage(groupable, s, s1, mid, def);
      } else {
        SplitFails(groupable, s, def, s0);
      }
    }
  }

  lemma SplitNeeds(groupable: set<string>, s: State, def: OpDefinition)
    requires Splits(def.spec)
    ensures AddOperator(groupable, s, def).Ok? ==> def.logicalId >= 0 && def.spec.outputs != [] && def.spec.argInputs == []
  {
    hide *;
    if AddOperator(groupable, s, def).Ok? {
      var s0, s1 := AddSplitUnfold(groupable, s, def);
    }
  }

  lemma StagesFacts(def: OpDefinition)
    requires Splits(def.spec) && def.spec.outputs != []
    ensures HasDecoderPrefix(def.spec.name) && |StreamOutputs(def)| >= 3
    ensures !Splits(CpuStage(def.spec, def.instName)) && !Splits(GpuStage(def.spec, def.instName))
    ensures CpuStage(def.spec, def.instName) ==
            def.spec.(name := StageName(def), device := CpuOp, outputs := StreamOutputs(def))
    ensures GpuStage(def.spec, def.instName) ==
            OpSpec("nvJPEGDecoderGPUStage", MixedOp, def.spec.args,
                   [Tensor(StreamOutputs(def)[0].name, OnCpu), Tensor(StreamOutputs(def)[1].name, OnCpu),
                    Tensor(StreamOutputs(def)[2].name, OnCpu)], [], [Tensor(def.spec.outputs[0].name, OnGpu)])
  {
    StagesDoNotSplit(def.spec, def.instName);
    StagesAre(def);
    hide CpuStage, GpuStage, Contains, StageName, Stream;
  }

  lemma NewNamesFront(edges: map<string, EdgeMeta>, outputs: seq<Tensor>, last: Tensor)
    ensures NewNames(edges, outputs + [last]) ==> NewNames(edges, outputs)
  {
    var all := outputs + [last];
    assert forall i :: 0 <= i < |outputs| ==> all[i] == outputs[i];
  }

  lemma SplitFails(groupable: set<string>, s: State, def: OpDefinition, s0: State)
    requires Splits(def.spec) && def.spec.outputs != [] && def.spec.argInputs == [] && def.logicalId >= 0
    requires s0 == s.(nextLogicalId := Bumped(s.nextLogicalId, def.logicalId), serialized := s.serialized + [def])
    ensures AddOperator(groupable, s, def).Ok? ==> AddOperator(groupable, s0, def.(spec := CpuStage(def.spec, def.instName))).Ok?
  {
    hide *;
    if AddOperator(groupable, s, def).Ok? {
      var s', s1 := AddSplitUnfold(groupable, s, def);
    }
  }

  lemma SplitGoesOn(groupable: set<string>, s: State, def: OpDefinition, s0: State, s1: State)
    requires Splits(def.spec) && def.spec.outputs != [] && def.spec.argInputs == [] && def.logicalId >= 0
    requires s0 == s.(nextLogicalId := Bumped(s.nextLogicalId, def.logicalId), serialized := s.serialized + [def])
    requires AddOperator(groupable, s0, def.(spec := CpuStage(def.spec, def.instName))) == Ok(s1)
    ensures AddOperator(groupable, s, def) ==
            AddOperator(groupable, s1.(nextLogicalId := s1.nextLogicalId + 1),
                        OpDefinition(def.instName + "_gpu", GpuStage(def.spec, def.instName), s1.nextLogicalId))
  {
    hide CpuStage, GpuStage, AddPlain, Contains;
    StagesDoNotSplit(def.spec, def.instName);
  }

  // The second stage is accepted exactly when its output is new and its id is free.
  lemma SecondStage(groupable: set<string>, s: State, s1: State, mid: map<string, EdgeMeta>, def: OpDefinition)
    requires IdsExact(s) && Splits(def.spec) && def.spec.outputs != [] && def.logicalId >= 0
    requires IdsExact(s1) && s1.nextLogicalId == Bumped(Bumped(s.nextLogicalId, def.logicalId), def.logicalId)
    requires AfterStage(s.edges, s.ops, def, s1, mid) && NewNames(s.edges, StreamOutputs(def)) && MayWrite(CpuOp, StreamOutputs(def))
    ensures var gpu := OpDefinition(def.instName + "_gpu", GpuStage(def.spec, def.instName), s1.nextLogicalId);
            var id := if def.logicalId > s.nextLogicalId then def.logicalId + 1 else s.nextLogicalId;
            AddOperator(groupable, s1.(nextLogicalId := s1.nextLogicalId + 1), gpu).Ok? <==>
              && NewNames(s.edges, StreamOutputs(def) + [Tensor(def.spec.outputs[0].name, OnGpu)])
              && id != def.logicalId && IdAllowed(groupable, s.ops, id, "nvJPEGDecoderGPUStage")
  {
    hide AddOperator, CpuStage, GpuStage, StreamOutputs, StageName, IdsExact, AllMayRead, NewNames, IdAllowed, Splits, Extended, CopiesAppended;
    StagesFacts(def);
    var gpu := OpDefinition(def.instName + "_gpu", GpuStage(def.spec, def.instName), s1.nextLogicalId);
    var out := Tensor(def.spec.outputs[0].name, OnGpu);
    IdsKept(s, s.(nextLogicalId := s.nextLogicalId + 1), 0);
    var s2 := s1.(nextLogicalId := s1.nextLogicalId + 1);
    IdsKept(s1, s2, 0);
    UnsplitExactly(groupable, s2, gpu);
    StreamsReadable(mid, s1.edges, StreamOutputs(def));
    SameKeysNew(s.edges, mid, StreamOutputs(def));
    SameKeysNew(s.edges, mid, StreamOutputs(def) + [out]);
    NewNamesSnoc(mid, s1.edges, CpuOp, StreamOutputs(def), out);
    IdAfterStage(groupable, s.ops, s1.ops, def, s1.nextLogicalId);
  }

  lemma SameKeysNew(edges: map<string, EdgeMeta>, edges': map<string, EdgeMeta>, outputs: seq<Tensor>)
    requires edges'.Keys == edges.Keys
    ensures NewNames(edges', outputs) <==> NewNames(edges, outputs)
  {
  }

  // ---- over a run -------------------------------------------------------------------------------------------------

  lemma SplitTells(groupable: set<string>, s: State, made: set<Made>, fetched: set<string>, def: OpDefinition)
    requires IdsExact(s) && Splits(def.spec) && AddOperator(groupable, s, def).Ok?
    requires Tells(s.edges, made, fetched) && fetched <= s.edges.Keys
    ensures var t := AddOperator(groupable, s, def).value;
            Tells(t.edges, made + Makes(Operator(def)), fetched) && fetched <= t.edges.Keys
  {
    hide AddOperator, CpuStage, GpuStage, IdsExact, Tells, Declared, Asked, StreamOutputs, Contains;
    var s0, s1 := AddSplitUnfold(groupable, s, def);
    StagesAre(def);
    IdsKept(s, s0, def.logicalId);
    var cpu := def.(spec := CpuStage(def.spec, def.instName));
    var gpu := OpDefinition(def.instName + "_gpu", GpuStage(def.spec, def.instName), s1.nextLogicalId);
    UnsplitTells(groupable, s0, made, fetched, cpu);
    UnsplitIds(groupable, s0, cpu);
    var s2 := s1.(nextLogicalId := s1.nextLogicalId + 1);
    IdsKept(s1, s2, 0);
    assert fetched + {} == fetched;
    UnsplitTells(groupable, s2, made + Declared(StreamOutputs(def), false), fetched, gpu);
    OneDeclared(Tensor(def.spec.outputs[0].name, OnGpu));
    assert made + Declared(StreamOutputs(def), false) + {Made(def.spec.outputs[0].name, OnGpu, false)} == made + Makes(Operator(def));
  }

  lemma OneDeclared(t: Tensor)
    ensures Declared([t], false) == {Made(t.name, t.storage, false)}
  {
  }

  lemma StepTells(groupable: set<string>, s: State, made: set<Made>, fetched: set<string>, call: Call)
    requires IdsExact(s) && Step(groupable, s, call).Ok? && Tells(s.edges, made, fetched) && fetched <= s.edges.Keys
    ensures var t := Step(groupable, s, call).value;
            Tells(t.edges, made + Makes(call), fetched + Fetches(call)) && fetched + Fetches(call) <= t.edges.Keys
  {
    match call
    case External(name) =>
      hide IdsExact;
      assert fetched + {} == fetched;
      ExternalTells(s.edges, made, fetched, name);
    case Operator(def) =>
      hide AddOperator, IdsExact, Tells;
      if Splits(def.spec) {
        assert fetched + {} == fetched;
        SplitTells(groupable, s, made, fetched, def);
      } else {
        UnsplitTells(groupable, s, made, fetched, def);
      }
  }

  lemma ExternalTells(edges: map<string, EdgeMeta>, made: set<Made>, fetched: set<string>, name: string)
    requires Tells(edges, made, fetched) && fetched <= edges.Keys && name !in edges
    ensures Tells(edges[name := EdgeMeta(true, false, false, false)], made + {Made(name, OnCpu, false)}, fetched)
  {
    var edges', made' := edges[name := EdgeMeta(true, false, false, false)], made + {Made(name, OnCpu, false)};
    forall m | m in made' ensures TellsOf(edges', fetched, m) {
      if m in made {
        assert TellsOf(edges, fetched, m);
      }
    }
    assert Names(made') == Names(made) + {name} by {
      assert Made(name, OnCpu, false) in made';
    }
  }

  lemma MadeSnoc(calls: seq<Call>, call: Call)
    ensures AllMade(calls + [call]) == AllMade(calls) + Makes(call)
    ensures AllFetched(calls + [call]) == AllFetched(calls) + Fetches(call)
  {
    assert forall c :: c in calls + [call] <==> c in calls || c == call;
  }

  /** After every accepted run the edge table tells, of each edge the calls declared and of no other, where
      it was declared, whether a support operator made it, and whether it is on the gpu. */
  lemma {:induction false} RunTells(groupable: set<string>, calls: seq<Call>)
    requires Run(groupable, calls).Ok?
    ensures var s := Run(groupable, calls).value;
            Tells(s.edges, AllMade(calls), AllFetched(calls)) && AllFetched(calls) <= s.edges.Keys
  {
    if calls == [] {
      assert AllMade(calls) == {} && AllFetched(calls) == {};
    } else {
      var front, last := calls[..|calls| - 1], calls[|calls| - 1];
      assert calls == front + [last];
      hide Step, Tells, AllMade, AllFetched, Makes, Fetches;
      RunTells(groupable, front);
      RunIds(groupable, front);
      MadeSnoc(front, last);
      StepTells(groupable, Run(groupable, front).value, AllMade(front), AllFetched(front), last);
    }
  }

  // ---- what may follow a run --------------------------------------------------------------------------------------

  /** Who may read an edge, by the call that declared it. A gpu operator reads any edge on the gpu. */
  predicate Readable(made: set<Made>, device: OpDevice, t: Tensor) {
    match device
    case GpuOp =>
      if t.storage == OnGpu then t.name in Names(made)
      else Made(t.name, OnCpu, false) in made || Made(t.name, OnCpu, true) in made
    case SupportOp => t.storage == OnCpu && Made(t.name, OnCpu, true) in made
    case _ => t.storage == OnCpu && Made(t.name, OnCpu, false) in made
  }

  predicate New(made: set<Made>, outputs: seq<Tensor>) {
    && (forall i :: 0 <= i < |outputs| ==> outputs[i].name !in Names(made))
    && (forall i, j :: 0 <= i < j < |outputs| ==> outputs[i].name != outputs[j].name)
  }

  /** The calls that may follow. `ops` and `next` are the operators and the next free logical id so far. */
  predicate MayFollow(groupable: set<string>, made: set<Made>, ops: seq<OpDefinition>, next: int, call: Call) {
    match call
    case External(name) => name !in Names(made)
    case Operator(def) =>
      var spec := def.spec;
      && def.logicalId >= 0
      && if Splits(spec) then
           var id := if def.logicalId > next then def.logicalId + 1 else next;
           && spec.outputs != [] && spec.argInputs == []
           && (forall t :: t in spec.inputs ==> Readable(made, CpuOp, t))
           && (forall t :: t in spec.outputs[1..] ==> t.storage == OnCpu)
           && New(made, StreamOutputs(def) + [Tensor(spec.outputs[0].name, OnGpu)])
           && IdAllowed(groupable, ops, def.logicalId, StageName(def))
           && id != def.logicalId && IdAllowed(groupable, ops, id, "nvJPEGDecoderGPUStage")
         else
           && !spec.device.OtherOp?
           && (forall t :: t in spec.inputs ==> Readable(made, spec.device, t))
           && (forall a :: a in spec.argInputs ==> Made(a.edge, OnCpu, true) in made)
           && New(made, spec.outputs)
           && (spec.device == CpuOp || spec.device == SupportOp ==> forall t :: t in spec.outputs ==> t.storage == OnCpu)
           && IdAllowed(groupable, ops, def.logicalId, spec.name)
  }

  lemma ToldOf(edges: map<string, EdgeMeta>, made: set<Made>, fetched: set<string>, e: string)
    requires Tells(edges, made, fetched)
    ensures e in edges <==> e in Names(made)
    ensures Made(e, OnCpu, true) in made <==> e in edges && edges[e].hasCpu && edges[e].isSupport
    ensures Made(e, OnCpu, false) in made <==> e in edges && edges[e].hasCpu && !edges[e].isSupport
  {
    if e in edges {
      var m :| m in made && m.name == e;
      assert TellsOf(edges, fetched, m) && m == Made(e, m.storage, m.support);
    }
    if Made(e, OnCpu, true) in made {
      assert TellsOf(edges, fetched, Made(e, OnCpu, true));
    }
    if Made(e, OnCpu, false) in made {
      assert TellsOf(edges, fetched, Made(e, OnCpu, false));
    }
  }

  lemma ReadableIs(edges: map<string, EdgeMeta>, made: set<Made>, fetched: set<string>, device: OpDevice, inputs: seq<Tensor>)
    requires Tells(edges, made, fetched)
    ensures AllMayRead(edges, device, inputs) <==> forall t :: t in inputs ==> Readable(made, device, t)
  {
    hide Tells, Names;
    forall t | t in inputs ensures MayRead(edges, device, t) <==> Readable(made, device, t) {
      ToldOf(edges, made, fetched, t.name);
    }
  }

  lemma NewIs(edges: map<string, EdgeMeta>, made: set<Made>, fetched: set<string>, outputs: seq<Tensor>)
    requires Tells(edges, made, fetched)
    ensures NewNames(edges, outputs) <==> New(made, outputs)
  {
  }

  lemma ArgsAre(edges: map<string, EdgeMeta>, made: set<Made>, fetched: set<string>, args: seq<ArgInput>)
    requires Tells(edges, made, fetched)
    ensures (forall a :: a in args ==> SupportEdge(edges, a.edge)) <==> forall a :: a in args ==> Made(a.edge, OnCpu, true) in made
  {
    hide Tells, Names;
    forall a | a in args ensures SupportEdge(edges, a.edge) <==> Made(a.edge, OnCpu, true) in made {
      ToldOf(edges, made, fetched, a.edge);
    }
  }

  lemma StreamsOnCpu(def: OpDefinition)
    requires def.spec.outputs != []
    ensures MayWrite(CpuOp, StreamOutputs(def)) <==> forall t :: t in def.spec.outputs[1..] ==> t.storage == OnCpu
  {
    hide Stream;
    var outs := StreamOutputs(def);
    assert forall t :: t in outs <==> t in [Tensor(Stream(def, "0"), OnCpu)] || t in def.spec.outputs[1..]
                                      || t in [Tensor(Stream(def, "1"), OnCpu), Tensor(Stream(def, "2"), OnCpu)];
  }

  lemma StepExactly(groupable: set<string>, s: State, made: set<Made>, fetched: set<string>, call: Call)
    requires IdsExact(s) && Tells(s.edges, made, fetched)
    ensures Step(groupable, s, call).Ok? <==> MayFollow(groupable, made, s.ops, s.nextLogicalId, call)
  {
    hide AddOperator, IdsExact, Tells, AllMayRead, NewNames, New, Readable, IdAllowed, SupportEdge, StreamOutputs, StageName;
    match call
    case External(name) =>
      ToldOf(s.edges, made, fetched, name);
    case Operator(def) =>
      if Splits(def.spec) {
        SplitExactly(groupable, s, def);
        ReadableIs(s.edges, made, fetched, CpuOp, def.spec.inputs);
        if def.spec.outputs != [] {
          NewIs(s.edges, made, fetched, StreamOutputs(def) + [Tensor(def.spec.outputs[0].name, OnGpu)]);
          StreamsOnCpu(def);
        }
      } else {
        UnsplitExactly(groupable, s, def);
        ReadableIs(s.edges, made, fetched, def.spec.device, def.spec.inputs);
        NewIs(s.edges, made, fetched, def.spec.outputs);
        ArgsAre(s.edges, made, fetched, def.spec.argInputs);
      }
  }

  // ---- which decoders are split ------------------------------------------------------------------------------------

  lemma ContainsMeans(text: string, part: string)
    ensures Contains(text, part) <==> exists a, b :: text == a + part + b
  {
    if Contains(text, part) {
      var i :| 0 <= i <= |text| && part <= text[i..];
      assert text == text[..i] + part + text[i + |part|..];
    }
    if a, b :| text == a + part + b {
      assert text[|a|..] == part + b;
    }
  }

  /** A decoder is split exactly when it runs on the mixed device, is called "nvJPEGDecoder" or
      "ImageDecoder" with any suffix, is not itself a stage, and asks for it. */
  lemma SplitsExactly(spec: OpSpec)
    ensures Splits(spec) <==>
              && spec.device == MixedOp
              && ((exists x :: spec.name == "nvJPEGDecoder" + x) || exists x :: spec.name == "ImageDecoder" + x)
              && (forall a, b :: spec.name != a + "CPUStage" + b) && (forall a, b :: spec.name != a + "GPUStage" + b)
              && "split_stages" in spec.args && spec.args["split_stages"] == "true"
  {
    ContainsMeans(spec.name, "CPUStage");
    ContainsMeans(spec.name, "GPUStage");
    hide Contains;
    PrefixMeans(spec.name, "nvJPEGDecoder");
    PrefixMeans(spec.name, "ImageDecoder");
  }

  lemma PrefixMeans(name: string, prefix: string)
    ensures prefix <= name <==> exists x :: name == prefix + x
  {
    if prefix <= name {
      assert name == prefix + name[|prefix|..];
    }
  }

  /** The two stages of a split decoder, for every suffix x of its name. The cpu stage keeps the suffix, the
      inputs and the arguments, and writes three streams, which the mixed stage reads. */
  lemma SplitStages(spec: OpSpec, instName: string, x: string)
    requires spec.name == "nvJPEGDecoder" + x || spec.name == "ImageDecoder" + x
    requires |spec.outputs| == 1
    ensures HasDecoderPrefix(spec.name)
    ensures var stream := "nvJPEGDecoderCPUStage" + x + instName;
            && CpuStage(spec, instName) ==
               OpSpec("nvJPEGDecoderCPUStage" + x, CpuOp, spec.args, spec.inputs, spec.argInputs,
                      [Tensor(stream + "0", OnCpu), Tensor(stream + "1", OnCpu), Tensor(stream + "2", OnCpu)])
            && GpuStage(spec, instName) ==
               OpSpec("nvJPEGDecoderGPUStage", MixedOp, spec.args,
                      [Tensor(stream + "0", OnCpu), Tensor(stream + "1", OnCpu), Tensor(stream + "2", OnCpu)], [],
                      [Tensor(spec.outputs[0].name, OnGpu)])
  {
    assert "ImageDecoder"[0] != "nvJPEGDecoder"[0];
    if spec.name == "nvJPEGDecoder" + x {
      assert spec.name[13..] == x;
    } else {
      assert spec.name[0] == 'I' && spec.name[12..] == x;
    }
    assert CpuStageName(spec) == "nvJPEGDecoderCPUStage" + x;
  }

  // ---- the operator list of a run -----------------------------------------------------------------------------------

  // The operators that are not inserted copies, in order.
  function UserOps(ops: seq<OpDefinition>): seq<OpDefinition> {
    if ops == [] then []
    else
      var n := |ops| - 1;
      if ops[n].logicalId < 0 then UserOps(ops[..n]) else UserOps(ops[..n]) + [ops[n]]
  }

  // A gpu operator reads its cpu inputs under their contiguous names.
  function Rewired(def: OpDefinition): OpDefinition {
    def.(spec := def.spec.(inputs :=
      seq(|def.spec.inputs|, i requires 0 <= i < |def.spec.inputs| =>
        if def.spec.device == GpuOp && def.spec.inputs[i].storage == OnCpu
        then Tensor("contiguous_" + def.spec.inputs[i].name, OnCpu)
        else def.spec.inputs[i])))
  }

  // The next free logical id after a call.
  function NextAfter(next: int, call: Call): int {
    match call
    case External(_) => next + 1
    case Operator(def) =>
      var bumped := if def.logicalId > next then def.logicalId + 1 else next;
      if Splits(def.spec) then bumped + 1 else bumped
  }

  function NextId(calls: seq<Call>): int {
    if calls == [] then 0 else NextAfter(NextId(calls[..|calls| - 1]), calls[|calls| - 1])
  }

  // What a call adds to the operators, besides copies.
  function Lowered(next: int, call: Call): seq<OpDefinition> {
    match call
    case External(_) => []
    case Operator(def) =>
      if Splits(def.spec) && def.spec.outputs != [] then
        var outs := StreamOutputs(def);
        [def.(spec := def.spec.(name := StageName(def), device := CpuOp, outputs := outs)),
         OpDefinition(def.instName + "_gpu",
                      OpSpec("nvJPEGDecoderGPUStage", MixedOp, def.spec.args,
                             [Tensor(outs[0].name, OnCpu), Tensor(outs[1].name, OnCpu), Tensor(outs[2].name, OnCpu)], [],
                             [Tensor(def.spec.outputs[0].name, OnGpu)]),
                      if def.logicalId > next then def.logicalId + 1 else next)]
      else [Rewired(def)]
  }

  function LoweredRun(calls: seq<Call>): seq<OpDefinition> {
    if calls == [] then []
    else
      var front := calls[..|calls| - 1];
      LoweredRun(front) + Lowered(NextId(front), calls[|calls| - 1])
  }

  lemma {:induction false} UserOpsCopies(ops: seq<OpDefinition>, ops': seq<OpDefinition>)
    requires CopiesAppended(ops, ops')
    ensures UserOps(ops') == UserOps(ops)
    decreases |ops'|
  {
    if |ops| < |ops'| {
      var n := |ops'| - 1;
      assert IsCopy(ops'[n]);
      hide IsCopy;
      UserOpsCopies(ops, ops'[..n]);
    } else {
      assert ops == ops';
    }
  }

  lemma UserOpsPush(ops: seq<OpDefinition>, def: OpDefinition)
    requires def.logicalId >= 0
    ensures UserOps(ops + [def]) == UserOps(ops) + [def]
  {
    assert (ops + [def])[..|ops|] == ops;
  }

  // Every operator with a negative id is a copy.
  ghost predicate CopiesOnly(ops: seq<OpDefinition>) {
    forall i :: 0 <= i < |ops| && ops[i].logicalId < 0 ==> IsCopy(ops[i])
  }

  lemma CopiesOnlyThen(ops: seq<OpDefinition>, ops': seq<OpDefinition>, def: OpDefinition)
    requires CopiesOnly(ops) && CopiesAppended(ops, ops') && def.logicalId >= 0
    ensures CopiesOnly(ops' + [def])
  {
    hide IsCopy;
    assert forall i :: 0 <= i < |ops| ==> ops'[i] == ops[i];
  }

  lemma {:induction false} SetupInputsRenames(groupable: set<string>, s: State, device: OpDevice, inputs: seq<Tensor>)
    requires SetupInputs(groupable, s, device, inputs).Ok? && !device.OtherOp?
    ensures var renamed := SetupInputs(groupable, s, device, inputs).value.1;
            && |renamed| == |inputs|
            && forall i :: 0 <= i < |inputs| ==>
                 renamed[i] == if device == GpuOp && inputs[i].storage == OnCpu then Tensor("contiguous_" + inputs[i].name, OnCpu) else inputs[i]
    decreases |inputs|
  {
    if inputs != [] {
      var first := SetupInput(groupable, s, device, inputs[0]).value;
      assert first.1 == if device == GpuOp && inputs[0].storage == OnCpu then Tensor("contiguous_" + inputs[0].name, OnCpu) else inputs[0];
      hide SetupInput;
      SetupInputsRenames(groupable, first.0, device, inputs[1..]);
    }
  }

  lemma UnsplitLowers(groupable: set<string>, s: State, def: OpDefinition)
    requires IdsExact(s) && CopiesOnly(s.ops) && !Splits(def.spec) && AddOperator(groupable, s, def).Ok?
    ensures var t := AddOperator(groupable, s, def).value;
            && UserOps(t.ops) == UserOps(s.ops) + [Rewired(def)] && CopiesOnly(t.ops)
            && t.nextLogicalId == if def.logicalId > s.nextLogicalId then def.logicalId + 1 else s.nextLogicalId
  {
    hide AddOperator, AddPlain, SetupInputs, AddOutputs, AddToOpSpecs, IdsExact, NewNames, Extended, AllMayRead, Splits, UserOps, CopiesOnly,
         CopiesAppended;
    UnsplitRecords(groupable, s, def);
    var s0 := AddOperatorUnfold(groupable, s, def);
    IdsKept(s, s0, def.logicalId);
    var t, renamed, t2 := AddPlainUnfold(groupable, s0, def);
    SetupInputsExactly(groupable, s0, def.spec.device, def.spec.inputs);
    SetupInputsRenames(groupable, s0, def.spec.device, def.spec.inputs);
    AddOutputsMeaning(t, def.spec.device, def.spec.outputs);
    var def' := def.(spec := def.spec.(inputs := renamed));
    assert renamed == Rewired(def).spec.inputs;
    UserOpsCopies(s.ops, t.ops);
    UserOpsPush(t.ops, def');
    CopiesOnlyThen(s.ops, t.ops, def');
  }

  lemma StageReads(def: OpDefinition)
    requires def.spec.device == CpuOp || def.spec.device == MixedOp
    ensures Rewired(def) == def
  {
    assert Rewired(def).spec.inputs == def.spec.inputs;
  }

  lemma StepLowers(groupable: set<string>, s: State, call: Call)
    requires IdsExact(s) && CopiesOnly(s.ops) && Step(groupable, s, call).Ok?
    ensures var t := Step(groupable, s, call).value;
            && UserOps(t.ops) == UserOps(s.ops) + Lowered(s.nextLogicalId, call) && CopiesOnly(t.ops)
            && t.nextLogicalId == NextAfter(s.nextLogicalId, call)
  {
    hide AddOperator, IdsExact, UserOps, CopiesOnly, CpuStage, GpuStage, StreamOutputs, StageName, Rewired, Splits;
    match call
    case External(name) =>
      assert UserOps(s.ops) + [] == UserOps(s.ops);
    case Operator(def) =>
      if Splits(def.spec) {
        SplitLowers(groupable, s, def);
      } else {
        UnsplitLowers(groupable, s, def);
      }
  }

  lemma SplitLowers(groupable: set<string>, s: State, def: OpDefinition)
    requires IdsExact(s) && CopiesOnly(s.ops) && Splits(def.spec) && AddOperator(groupable, s, def).Ok?
    ensures var t := AddOperator(groupable, s, def).value;
            && UserOps(t.ops) == UserOps(s.ops) + Lowered(s.nextLogicalId, Operator(def)) && CopiesOnly(t.ops)
            && t.nextLogicalId == NextAfter(s.nextLogicalId, Operator(def))
  {
    hide AddOperator, IdsExact, UserOps, CopiesOnly, CpuStage, GpuStage, StreamOutputs, StageName, Rewired, Splits;
    var s0, s1 := AddSplitUnfold(groupable, s, def);
    StagesFacts(def);
    var cpu := def.(spec := CpuStage(def.spec, def.instName));
    var gpu := OpDefinition(def.instName + "_gpu", GpuStage(def.spec, def.instName), s1.nextLogicalId);
    IdsKept(s, s0, def.logicalId);
    UnsplitLowers(groupable, s0, cpu);
    UnsplitIds(groupable, s0, cpu);
    var s2 := s1.(nextLogicalId := s1.nextLogicalId + 1);
    IdsKept(s1, s2, 0);
    UnsplitLowers(groupable, s2, gpu);
    StageReads(cpu);
    StageReads(gpu);
    assert UserOps(s.ops) + [cpu] + [gpu] == UserOps(s.ops) + [cpu, gpu];
  }

  /** The operator list of every accepted run: besides inserted copies, exactly the user's operators in the
      order of the calls, with decoders split and the cpu inputs of gpu operators renamed. The next free
      logical id follows from the calls. */
  lemma {:induction false} RunLowers(groupable: set<string>, calls: seq<Call>)
    requires Run(groupable, calls).Ok?
    ensures var s := Run(groupable, calls).value;
            UserOps(s.ops) == LoweredRun(calls) && CopiesOnly(s.ops) && s.nextLogicalId == NextId(calls)
  {
    if calls != [] {
      var front := calls[..|calls| - 1];
      hide Step, UserOps, CopiesOnly, Lowered, NextAfter, IdsExact;
      RunLowers(groupable, front);
      RunIds(groupable, front);
      StepLowers(groupable, Run(groupable, front).value, calls[|calls| - 1]);
    }
  }

  // ---- the theorems --------------------------------------------------------------------------------------------------

  lemma {:induction false} IdAllowedUser(groupable: set<string>, ops: seq<OpDefinition>, id: int, name: string)
    requires id >= 0
    ensures IdAllowed(groupable, UserOps(ops), id, name) <==> IdAllowed(groupable, ops, id, name)
  {
    if ops != [] {
      var n := |ops| - 1;
      IdAllowedUser(groupable, ops[..n], id, name);
      IdAllowedSnoc(groupable, ops[..n], ops[n], id, name);
      IdAllowedSnoc(groupable, UserOps(ops[..n]), ops[n], id, name);
      assert ops == ops[..n] + [ops[n]];
    }
  }

  lemma IdAllowedSnoc(groupable: set<string>, ops: seq<OpDefinition>, op: OpDefinition, id: int, name: string)
    ensures IdAllowed(groupable, ops + [op], id, name) <==>
            IdAllowed(groupable, ops, id, name) && (op.logicalId == id ==> op.spec.name == name && name in groupable)
  {
    var all := ops + [op];
    assert all[|ops|] == op && forall i :: 0 <= i < |ops| ==> all[i] == ops[i];
  }

  lemma MayFollowUser(groupable: set<string>, made: set<Made>, ops: seq<OpDefinition>, next: int, call: Call)
    requires next >= 0
    ensures MayFollow(groupable, made, UserOps(ops), next, call) <==> MayFollow(groupable, made, ops, next, call)
  {
    hide IdAllowed, UserOps, New, Readable, StreamOutputs, StageName, Splits;
    if call.Operator? && call.def.logicalId >= 0 {
      var def := call.def;
      IdAllowedUser(groupable, ops, def.logicalId, def.spec.name);
      IdAllowedUser(groupable, ops, def.logicalId, StageName(def));
      IdAllowedUser(groupable, ops, if def.logicalId > next then def.logicalId + 1 else next, "nvJPEGDecoderGPUStage");
    }
  }

  lemma NextIsId(s: State)
    requires IdsExact(s)
    ensures s.nextLogicalId >= 0
  {
  }

  /** After every accepted run, a call is accepted if and only if it may follow the earlier calls: every
      input is readable on the operator's device, every argument input was declared by a support
      operator, the outputs are new and allowed on the device, and the ids are free or shared by
      instances that may be grouped. */
  lemma AcceptsExactly(groupable: set<string>, calls: seq<Call>, call: Call)
    requires Run(groupable, calls).Ok?
    ensures Run(groupable, calls + [call]).Ok? <==>
              MayFollow(groupable, AllMade(calls), LoweredRun(calls), NextId(calls), call)
  {
    assert (calls + [call])[..|calls|] == calls;
    var s := Run(groupable, calls).value;
    assert Run(groupable, calls + [call]) == Step(groupable, s, call);
    hide *;
    RunTells(groupable, calls);
    RunIds(groupable, calls);
    RunLowers(groupable, calls);
    NextIsId(s);
    StepExactly(groupable, s, AllMade(calls), AllFetched(calls), call);
    MayFollowUser(groupable, AllMade(calls), s.ops, s.nextLogicalId, call);
  }

  // Each call may follow the ones before it.
  predicate AllFollow(groupable: set<string>, calls: seq<Call>) {
    if calls == [] then true
    else
      var front := calls[..|calls| - 1];
      AllFollow(groupable, front) && MayFollow(groupable, AllMade(front), LoweredRun(front), NextId(front), calls[|calls| - 1])
  }

  /** So a whole run is accepted exactly when each call may follow the ones before it. */
  lemma {:induction false} RunAccepted(groupable: set<string>, calls: seq<Call>)
    ensures Run(groupable, calls).Ok? <==> AllFollow(groupable, calls)
  {
    if calls != [] {
      var front, last := calls[..|calls| - 1], calls[|calls| - 1];
      assert calls == front + [last];
      hide Step, MayFollow, AllMade, LoweredRun, NextId;
      RunAccepted(groupable, front);
      if Run(groupable, front).Ok? {
        AcceptsExactly(groupable, front, last);
      }
    }
  }

  lemma {:induction false} PrefixAccepted(groupable: set<string>, calls: seq<Call>, k: nat)
    requires Run(groupable, calls).Ok? && k <= |calls|
    ensures Run(groupable, calls[..k]).Ok?
    decreases |calls|
  {
    if k < |calls| {
      assert calls[..|calls| - 1][..k] == calls[..k];
      PrefixAccepted(groupable, calls[..|calls| - 1], k);
    } else {
      assert calls[..k] == calls;
    }
  }

  // A support edge comes from a support operator.
  lemma SupportMade(calls: seq<Call>, e: string) returns (j: nat)
    requires Made(e, OnCpu, true) in AllMade(calls)
    ensures j < |calls| && calls[j].Operator? && calls[j].def.spec.device == SupportOp
    ensures Tensor(e, OnCpu) in calls[j].def.spec.outputs
  {
    var call :| call in calls && Made(e, OnCpu, true) in Makes(call);
    j :| 0 <= j < |calls| && calls[j] == call;
    assert !Splits(call.def.spec) || call.def.spec.outputs == [];
  }

  /** In every accepted run each argument input of an operator names an output, on the cpu, of an earlier
      call of a support operator. */
  lemma ArgumentsFromSupport(groupable: set<string>, calls: seq<Call>, k: nat, a: ArgInput) returns (j: nat)
    requires Run(groupable, calls).Ok? && k < |calls| && calls[k].Operator? && a in calls[k].def.spec.argInputs
    ensures j < k && calls[j].Operator? && calls[j].def.spec.device == SupportOp
    ensures Tensor(a.edge, OnCpu) in calls[j].def.spec.outputs
  {
    hide Run, AllMade, LoweredRun, NextId, Splits, IdAllowed, New, Readable, StreamOutputs, StageName;
    PrefixAccepted(groupable, calls, k);
    PrefixAccepted(groupable, calls, k + 1);
    assert calls[..k + 1] == calls[..k] + [calls[k]];
    AcceptsExactly(groupable, calls[..k], calls[k]);
    j := SupportMade(calls[..k], a.edge);
  }
}
