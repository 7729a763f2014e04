/** The pipeline and its operator graph as objects that are updated in place. */
module PipelineObject {
  import opened PipelineState
  import opened PipelineInvariant
  import opened PipelineAcceptance
  import opened PipelineBuild
  import opened PipelineReplay

  // ---- the operator graph ----------------------------------------------------------------------

  // What AddOp asks of the devices of an operator.
  predicate DevicesOk(spec: OpSpec) {
    match spec.device
    case CpuOp => AllHost(spec.inputs) && AllHost(spec.outputs)
    case GpuOp => true
    case MixedOp => AllHost(spec.inputs)
    case SupportOp => AllHost(spec.inputs)
    case OtherOp(_) => false
  }

  predicate AllHost(ts: seq<Tensor>) {
    forall t :: t in ts ==> t.storage == OnCpu
  }

  // The operator fits on top of the tensors that already exist.
  predicate Fits(known: set<Tensor>, spec: OpSpec) {
    Reads(spec) <= known && Writes(spec) !! known && DistinctOutputs(spec)
  }

  method CheckHost(ts: seq<Tensor>) returns (ok: bool)
    ensures ok <==> AllHost(ts)
  {
    for i := 0 to |ts|
      invariant forall j :: 0 <= j < i ==> ts[j].storage == OnCpu
    {
      if ts[i].storage != OnCpu {
        return false;
      }
    }
    return true;
  }

  class OpGraph {
    var nodes: seq<OpSpec>
    // Tensor name to the index of the operator that produces it.
    var producer: map<Tensor, nat>

    ghost predicate Valid()
      reads this
    {
      forall t :: t in producer ==> producer[t] < |nodes| && t in Writes(nodes[producer[t]])
    }

    constructor ()
      ensures Valid() && producer == map[] && nodes == []
    {
      nodes, producer := [], map[];
    }

    method CheckDevices(spec: OpSpec) returns (ok: bool)
      ensures ok <==> DevicesOk(spec)
      ensures ok <==> !spec.device.OtherOp?
                      && (spec.device != GpuOp ==> forall t :: t in spec.inputs ==> t.storage == OnCpu)
                      && (spec.device == CpuOp ==> forall t :: t in spec.outputs ==> t.storage == OnCpu)
    {
      match spec.device
      case CpuOp =>
        ok := CheckHost(spec.inputs);
        if ok {
          ok := CheckHost(spec.outputs);
        }
      case GpuOp => ok := true;
      case MixedOp => ok := CheckHost(spec.inputs);
      case SupportOp => ok := CheckHost(spec.inputs);
      case OtherOp(_) => ok := false;
    }

    method CheckSources(spec: OpSpec) returns (ok: bool)
      ensures ok <==> Reads(spec) <= producer.Keys
    {
      for i := 0 to |spec.inputs|
        invariant forall j :: 0 <= j < i ==> spec.inputs[j] in producer
      {
        if spec.inputs[i] !in producer {
          assert spec.inputs[i] in Reads(spec);
          return false;
        }
      }
      for i := 0 to |spec.argInputs|
        invariant forall j :: 0 <= j < i ==> Tensor(spec.argInputs[j].edge, OnCpu) in producer
      {
        if Tensor(spec.argInputs[i].edge, OnCpu) !in producer {
          assert spec.argInputs[i] in spec.argInputs;
          assert Tensor(spec.argInputs[i].edge, OnCpu) in Reads(spec);
          return false;
        }
      }
      ok := true;
    }

    // The new tensors of the last operator, each produced for the first time.
    method PlaceTensors(outputs: seq<Tensor>) returns (ok: bool)
      requires |nodes| > 0
      modifies `producer
      ensures ok <==> FirstProduced(old(producer.Keys), outputs)
      ensures ok ==> producer.Keys == old(producer.Keys) + set t | t in outputs
      ensures forall t :: t in old(producer) ==> t in producer && producer[t] == old(producer)[t]
      ensures forall t :: t in producer && t !in old(producer) ==> t in outputs && producer[t] == |nodes| - 1
    {
      ghost var known := producer.Keys;
      for i := 0 to |outputs|
        invariant producer.Keys == known + set t | t in outputs[..i]
        invariant forall t :: t in known ==> producer[t] == old(producer)[t]
        invariant forall t :: t in outputs[..i] ==> t !in known && producer[t] == |nodes| - 1
        invariant forall j, k :: 0 <= j < k < i ==> outputs[j] != outputs[k]
      {
        if outputs[i] in producer {
          return false;
        }
        assert outputs[..i + 1] == outputs[..i] + [outputs[i]];
        producer := producer[outputs[i] := |nodes| - 1];
      }
      assert outputs[..|outputs|] == outputs;
      ok := true;
    }

    /** An operator is accepted exactly when all it reads has a producer and it is the first
        producer of each of its outputs. */
    method AddOp(spec: OpSpec) returns (ok: bool)
      requires Valid()
      modifies this
      ensures Valid()
      ensures ok <==> DevicesOk(spec) && Fits(old(producer.Keys), spec)
      ensures ok ==> producer.Keys == old(producer.Keys) + Writes(spec) && nodes == old(nodes) + [spec]
      ensures old(nodes) <= nodes
      ensures forall t :: t in old(producer) ==> t in producer && producer[t] == old(producer)[t]
    {
      hide DevicesOk, Reads, FirstProduced;
      ok := CheckDevices(spec);
      if !ok {
        return;
      }
      nodes := nodes + [spec];
      ok := CheckSources(spec);
      if !ok {
        return;
      }
      ok := PlaceTensors(spec.outputs);
      FirstProducedFits(old(producer.Keys), spec);
    }
  }

  predicate FirstProduced(known: set<Tensor>, outputs: seq<Tensor>) {
    && (forall t :: t in outputs ==> t !in known)
    && (forall j, k :: 0 <= j < k < |outputs| ==> outputs[j] != outputs[k])
  }

  lemma FirstProducedFits(known: set<Tensor>, spec: OpSpec)
    ensures Reads(spec) <= known ==> (Fits(known, spec) <==> FirstProduced(known, spec.outputs))
  {
    assert (Writes(spec) !! known) <==> forall t :: t in spec.outputs ==> t !in known;
  }

  // ---- remaining work of the loops ----------------------------------------------------------------

  /** Setting up the inputs from the start is setting up the rest after the first i. */
  ghost predicate InputsLeft(groupable: set<string>, s0: State, s: State, spec: OpSpec, done: seq<Tensor>) {
    |done| <= |spec.inputs| &&
    var left := SetupInputs(groupable, s, spec.device, spec.inputs[|done|..]);
    SetupInputs(groupable, s0, spec.device, spec.inputs) ==
    if left.Ok? then Ok((left.value.0, done + left.value.1)) else Err
  }

  lemma InputsStart(groupable: set<string>, s: State, spec: OpSpec)
    ensures InputsLeft(groupable, s, s, spec, [])
  {
    assert spec.inputs[0..] == spec.inputs;
    var all := SetupInputs(groupable, s, spec.device, spec.inputs);
    if all.Ok? {
      assert [] + all.value.1 == all.value.1;
    }
  }

  lemma InputsNext(groupable: set<string>, s0: State, s: State, spec: OpSpec, done: seq<Tensor>, r: Result<(State, Tensor)>)
    requires InputsLeft(groupable, s0, s, spec, done) && |done| < |spec.inputs|
    requires r == SetupInput(groupable, s, spec.device, spec.inputs[|done|])
    ensures r.Err? ==> SetupInputs(groupable, s0, spec.device, spec.inputs).Err?
    ensures r.Ok? ==> InputsLeft(groupable, s0, r.value.0, spec, done + [r.value.1])
  {
    hide SetupInput;
    var rest := spec.inputs[|done|..];
    assert rest[0] == spec.inputs[|done|] && rest[1..] == spec.inputs[|done| + 1..];
    if r.Ok? {
      var left := SetupInputs(groupable, r.value.0, spec.device, rest[1..]);
      if left.Ok? {
        assert done + ([r.value.1] + left.value.1) == (done + [r.value.1]) + left.value.1;
      }
    }
  }

  lemma InputsEnd(groupable: set<string>, s0: State, s: State, spec: OpSpec, done: seq<Tensor>)
    requires InputsLeft(groupable, s0, s, spec, done) && |done| == |spec.inputs|
    ensures SetupInputs(groupable, s0, spec.device, spec.inputs) == Ok((s, done))
  {
    assert spec.inputs[|done|..] == [];
    assert done + [] == done;
  }

  // ---- the pipeline ---------------------------------------------------------------------------------

  // Every list of a logical id refers to operators that exist.
  ghost predicate IdsInRange(ids: map<int, seq<nat>>, n: nat) {
    forall id :: id in ids ==> forall k :: k in ids[id] ==> k < n
  }

  ghost predicate AllDevicesOk(ops: seq<OpDefinition>) {
    forall def :: def in ops ==> DevicesOk(def.spec)
  }

  lemma ExternalFits(externals: seq<string>, names: set<string>, name: string, spec: OpSpec)
    requires name !in names && forall x :: x in externals ==> x in names
    requires spec.inputs == [] && spec.argInputs == [] && spec.outputs == [Tensor(name, OnCpu)] && spec.device == CpuOp
    ensures DevicesOk(spec) && Fits(Base(externals), spec)
    ensures Base(externals) + Writes(spec) == Base(externals + [name])
  {
    BaseSnoc(externals, name);
    assert Writes(spec) == {Tensor(name, OnCpu)};
  }

  class Pipeline {
    // Operators whose schema allows instance grouping.
    const groupable: set<string>
    const graph: OpGraph
    var built: bool
    var edgeNames: map<string, EdgeMeta>
    var opSpecs: seq<OpDefinition>
    var opSpecsForSerialization: seq<OpDefinition>
    var logicalIds: map<int, seq<nat>>
    var externalInputs: seq<string>
    var nextLogicalId: int
    var nextInternalId: int
    var outputNames: seq<Tensor>

    ghost function S(): State
      reads this
    {
      State(edgeNames, opSpecs, opSpecsForSerialization, logicalIds, externalInputs, nextLogicalId, nextInternalId)
    }

    ghost predicate Consistent()
      reads this
    {
      IdsInRange(logicalIds, |opSpecs|) && AllDevicesOk(opSpecs) && forall x :: x in externalInputs ==> x in edgeNames
    }

    constructor (groupable: set<string>)
      ensures Consistent() && S() == INITIAL && !built && this.groupable == groupable
      ensures fresh(graph) && graph.Valid() && graph.producer.Keys == Base([])
    {
      this.groupable := groupable;
      graph := new OpGraph();
      built := false;
      edgeNames, opSpecs, opSpecsForSerialization, logicalIds := map[], [], [], map[];
      externalInputs, nextLogicalId, nextInternalId, outputNames := [], 0, -1, [];
    }

    method AddToOpSpecs(def: OpDefinition) returns (ok: bool)
      requires Consistent() && DevicesOk(def.spec)
      modifies `edgeNames, `opSpecs, `opSpecsForSerialization, `logicalIds, `nextLogicalId, `nextInternalId
      ensures Consistent() && old(opSpecs) <= opSpecs
      ensures ok <==> PipelineState.AddToOpSpecs(groupable, old(S()), def).Ok?
      ensures S() == if ok then PipelineState.AddToOpSpecs(groupable, old(S()), def).value else old(S())
    {
      var group := if def.logicalId in logicalIds then logicalIds[def.logicalId] else [];
      if |group| > 0 {
        var front := group[0];
        assert front in group;
        var groupName := opSpecs[front].spec.name;
        if groupName != def.spec.name || def.spec.name !in groupable {
          return false;
        }
      }
      opSpecs := opSpecs + [def];
      logicalIds := logicalIds[def.logicalId := group + [|opSpecs| - 1]];
      ok := true;
    }

    method InsertCopy(edge: string, prefix: string, target: Tensor) returns (ok: bool)
      requires Consistent()
      modifies `edgeNames, `opSpecs, `opSpecsForSerialization, `logicalIds, `nextLogicalId, `nextInternalId
      ensures Consistent()
      ensures ok <==> PipelineState.InsertCopy(groupable, old(S()), edge, prefix, target).Ok?
      ensures ok ==> S() == PipelineState.InsertCopy(groupable, old(S()), edge, prefix, target).value
      ensures old(opSpecs) <= opSpecs && edgeNames == old(edgeNames)
    {
      var id := nextInternalId;
      nextInternalId := nextInternalId - 1;
      ok := AddToOpSpecs(OpDefinition(prefix + edge, CopySpec(edge, target), id));
    }

    method SetupInput(device: OpDevice, input: Tensor) returns (ok: bool, renamed: Tensor)
      requires Consistent()
      modifies `edgeNames, `opSpecs, `opSpecsForSerialization, `logicalIds, `nextLogicalId, `nextInternalId
      ensures Consistent() && old(opSpecs) <= opSpecs
      ensures ok <==> PipelineState.SetupInput(groupable, old(S()), device, input).Ok?
      ensures ok ==> PipelineState.SetupInput(groupable, old(S()), device, input) == Ok((S(), renamed))
    {
      renamed := input;
      if input.name !in edgeNames {
        return false, renamed;
      }
      var meta := edgeNames[input.name];
      if device == GpuOp {
        if input.storage == OnCpu {
          ok := meta.hasCpu;
          if ok && !meta.hasContiguous {
            ok := InsertCopy(input.name, "__MakeContiguous_", Tensor(Contiguous(input.name), OnCpu));
            edgeNames := edgeNames[input.name := meta.(hasContiguous := true)];
          }
          renamed := Tensor(Contiguous(input.name), OnCpu);
        } else {
          ok := true;
          if !meta.hasGpu {
            ok := InsertCopy(input.name, "__Copy_", Tensor(input.name, OnGpu));
            edgeNames := edgeNames[input.name := meta.(hasGpu := true)];
          }
        }
      } else if device == SupportOp {
        ok := input.storage == OnCpu && meta.hasCpu && meta.isSupport;
      } else {
        ok := input.storage == OnCpu && meta.hasCpu && !meta.isSupport;
      }
    }

    // Before Build, the graph holds the external sources and nothing else.
    ghost predicate Valid()
      reads this, graph
    {
      Consistent() && graph.Valid() && (!built ==> graph.producer.Keys == Base(externalInputs))
    }

    method AddExternalInput(name: string) returns (ok: bool)
      requires Valid()
      modifies this, graph
      ensures Valid() && built == old(built)
      ensures ok <==> !built && name !in old(edgeNames)
      ensures ok <==> !built && PipelineState.AddExternalInput(old(S()), name).Ok?
      ensures S() == if ok then PipelineState.AddExternalInput(old(S()), name).value else old(S())
    {
      if built || name in edgeNames {
        return false;
      }
      edgeNames := edgeNames[name := EdgeMeta(true, false, false, false)];
      var id := nextLogicalId;
      nextLogicalId := nextLogicalId + 1;
      logicalIds := logicalIds[id := if id in logicalIds then logicalIds[id] else []];
      var spec := OpSpec("ExternalSource", CpuOp, map[], [], [], [Tensor(name, OnCpu)]);
      ExternalFits(externalInputs, edgeNames.Keys - {name}, name, spec);
      hide *;
      ok := graph.AddOp(spec);
      externalInputs := externalInputs + [name];
    }

    // The loops of AddOperator over the regular inputs, the argument inputs and the outputs.
    method SetupInputs(spec: OpSpec) returns (ok: bool, inputs: seq<Tensor>)
      requires Consistent()
      modifies `edgeNames, `opSpecs, `opSpecsForSerialization, `logicalIds, `nextLogicalId, `nextInternalId
      ensures Consistent() && old(opSpecs) <= opSpecs
      ensures ok <==> PipelineState.SetupInputs(groupable, old(S()), spec.device, spec.inputs).Ok?
      ensures ok ==> PipelineState.SetupInputs(groupable, old(S()), spec.device, spec.inputs) == Ok((S(), inputs))
      ensures ok && spec.device != GpuOp ==> AllHost(inputs)
    {
      hide PipelineState.SetupInputs, InputsLeft, AllDevicesOk, IdsInRange;
      inputs := [];
      InputsStart(groupable, S(), spec);
      for i := 0 to |spec.inputs|
        invariant Consistent() && old(opSpecs) <= opSpecs && |inputs| == i
        invariant InputsLeft(groupable, old(S()), S(), spec, inputs)
        invariant spec.device != GpuOp ==> AllHost(inputs)
      {
        var renamed;
        InputsNext(groupable, old(S()), S(), spec, inputs, PipelineState.SetupInput(groupable, S(), spec.device, spec.inputs[i]));
        ok, renamed := SetupInput(spec.device, spec.inputs[i]);
        if !ok {
          return;
        }
        inputs := inputs + [renamed];
      }
      InputsEnd(groupable, old(S()), S(), spec, inputs);
      ok := true;
    }

    method CheckArgInputs(spec: OpSpec) returns (ok: bool)
      ensures ok <==> forall a :: a in spec.argInputs ==> ArgInputOk(S(), a)
      ensures ok <==> forall a :: a in spec.argInputs ==>
                        a.edge in edgeNames && edgeNames[a.edge].hasCpu && edgeNames[a.edge].isSupport
    {
      for i := 0 to |spec.argInputs|
        invariant forall j :: 0 <= j < i ==> ArgInputOk(S(), spec.argInputs[j])
      {
        var a := spec.argInputs[i];
        if a.edge !in edgeNames || !edgeNames[a.edge].hasCpu || !edgeNames[a.edge].isSupport {
          assert a in spec.argInputs;
          return false;
        }
      }
      ok := true;
    }

    method RecordOutputs(spec: OpSpec) returns (ok: bool)
      requires Consistent()
      modifies this`edgeNames
      ensures Consistent()
      ensures ok <==> AddOutputs(old(S()), spec.device, spec.outputs).Ok?
      ensures ok ==> S() == AddOutputs(old(S()), spec.device, spec.outputs).value
      ensures ok && spec.device == CpuOp ==> AllHost(spec.outputs)
    {
      hide AllDevicesOk, IdsInRange;
      assert spec.outputs[0..] == spec.outputs;
      for i := 0 to |spec.outputs|
        invariant Consistent() && AddOutputs(old(S()), spec.device, spec.outputs) == AddOutputs(S(), spec.device, spec.outputs[i..])
        invariant spec.device == CpuOp ==> forall j :: 0 <= j < i ==> spec.outputs[j].storage == OnCpu
      {
        var output := spec.outputs[i];
        assert spec.outputs[i..][0] == output && spec.outputs[i..][1..] == spec.outputs[i + 1..];
        if output.name in edgeNames {
          return false;
        }
        if (spec.device == CpuOp || spec.device == SupportOp) && output.storage != OnCpu {
          return false;
        }
        var meta := EdgeMeta(output.storage == OnCpu, output.storage == OnGpu, false, false);
        if spec.device == GpuOp && output.storage == OnCpu {
          meta := meta.(hasContiguous := true);
        }
        if spec.device == SupportOp {
          meta := meta.(hasContiguous := true, isSupport := true);
        }
        edgeNames := edgeNames[output.name := meta];
      }
      ok := true;
    }

    /** One call of AddOperator does what the specification step does, copies, split and all. When
        it is refused the operators that were already there stay. */
    method AddOperator(def: OpDefinition) returns (ok: bool)
      requires Consistent()
      modifies `edgeNames, `opSpecs, `opSpecsForSerialization, `logicalIds, `nextLogicalId, `nextInternalId
      ensures Consistent() && old(opSpecs) <= opSpecs
      ensures ok <==> !old(built) && PipelineState.AddOperator(groupable, old(S()), def).Ok?
      ensures ok ==> S() == PipelineState.AddOperator(groupable, old(S()), def).value
      ensures forall calls :: Run(groupable, calls) == Ok(old(S())) ==>
                (ok <==> !old(built) && MayFollow(groupable, AllMade(calls), LoweredRun(calls), NextId(calls), Operator(def)))
      decreases Splits(def.spec), 1
    {
      RunsTo(groupable, S(), def);
      hide Run, MayFollow, AllMade, LoweredRun, NextId;
      hide PipelineState.SetupInputs, AddOutputs, CpuStage, GpuStage, Contains, AllDevicesOk, IdsInRange, PipelineState.AddToOpSpecs;
      if built || def.logicalId < 0 {
        return false;
      }
      if def.logicalId > nextLogicalId {
        nextLogicalId := def.logicalId + 1;
      }
      opSpecsForSerialization := opSpecsForSerialization + [def];
      var spec := def.spec;
      if spec.device.OtherOp? {
        return false;
      }
      if Splits(spec) {
        ok := AddSplitHybridDecoder(def);
        return;
      }
      var inputs;
      ok, inputs := SetupInputs(spec);
      if !ok {
        return;
      }
      ok := CheckArgInputs(spec);
      if !ok {
        return;
      }
      ok := RecordOutputs(spec);
      if !ok {
        return;
      }
      ok := AddToOpSpecs(def.(spec := spec.(inputs := inputs)));
    }

    method AddSplitHybridDecoder(def: OpDefinition) returns (ok: bool)
      requires Consistent() && Splits(def.spec) && !built
      modifies `edgeNames, `opSpecs, `opSpecsForSerialization, `logicalIds, `nextLogicalId, `nextInternalId
      ensures Consistent() && old(opSpecs) <= opSpecs
      ensures ok <==>
                && def.spec.outputs != [] && def.spec.argInputs == []
                && var cpu := PipelineState.AddOperator(groupable, old(S()), def.(spec := CpuStage(def.spec, def.instName)));
                   cpu.Ok? && GpuStageAdded(groupable, cpu.value, def).Ok?
      ensures ok ==> S() == GpuStageAdded(groupable,
                       PipelineState.AddOperator(groupable, old(S()), def.(spec := CpuStage(def.spec, def.instName))).value, def).value
      decreases true, 0
    {
      hide PipelineState.AddOperator, CpuStage, GpuStage, Contains, AllDevicesOk, IdsInRange;
      if def.spec.outputs == [] || def.spec.argInputs != [] {
        return false;
      }
      StagesDoNotSplit(def.spec, def.instName);
      ok := AddOperator(def.(spec := CpuStage(def.spec, def.instName)));
      if ok {
        var id := nextLogicalId;
        nextLogicalId := nextLogicalId + 1;
        ok := AddOperator(OpDefinition(def.instName + "_gpu", GpuStage(def.spec, def.instName), id));
      }
    }

    /** Build succeeds exactly when every requested output exists and the graph with its copies is
        well placed; the graph then holds one producer for every tensor. */
    method Build(outputs: seq<Tensor>) returns (ok: bool, outs: seq<Tensor>)
      requires Valid()
      modifies this, graph
      ensures graph.Valid() && outputNames == outputs && built == (old(built) || ok)
      ensures (forall r :: r in outputs ==> Obtainable(old(edgeNames), r)) <==> PlanOutputs(old(S()), outputs).Ok?
      ensures ok <==>
                && !old(built) && outputs != [] && (forall r :: r in outputs ==> Obtainable(old(edgeNames), r))
                && Placed(WithExtra(old(S()), PlanOutputs(old(S()), outputs).value))
      ensures ok ==> outs == PlanOutputs(old(S()), outputs).value.outs && Returned(old(edgeNames), outputs, outs)
      ensures ok ==> graph.producer.Keys == AllTensors(WithExtra(old(S()), PlanOutputs(old(S()), outputs).value))
      ensures opSpecs == old(opSpecs) && edgeNames == old(edgeNames) && externalInputs == old(externalInputs)
    {
      outputNames, outs := outputs, [];
      PlanExactly(S(), outputs);
      if built || outputs == [] {
        return false, outs;
      }
      hide *;
      ghost var s := S();
      ok := PlaceOps();
      PlanKeepsOps(s, outputs);
      if !ok {
        return;
      }
      ok, outs := PlaceOutputs(outputs);
      built := ok;
    }

    method SerializeToProtobuf() returns (msg: PipelineMessage)
      ensures msg == Serialize(S(), outputNames) && IsMessage(S(), outputNames, msg)
    {
      var ops := [];
      for i := 0 to |opSpecsForSerialization|
        invariant ops == SerializeOps(opSpecsForSerialization[..i])
      {
        var def := opSpecsForSerialization[i];
        var message := Blank;
        if def.spec.name != "ExternalSource" {
          message := OpMessage(def.(spec := def.spec.(args := map a | a in def.spec.args && a !in FILTERED_ARGS :: def.spec.args[a])));
        }
        assert opSpecsForSerialization[..i + 1] == opSpecsForSerialization[..i] + [def];
        assert def.spec.args - FILTERED_ARGS == map a | a in def.spec.args && a !in FILTERED_ARGS :: def.spec.args[a];
        ops := ops + [message];
      }
      assert opSpecsForSerialization[..|opSpecsForSerialization|] == opSpecsForSerialization;
      msg := PipelineMessage(externalInputs, ops, outputNames);
      SerializeIs(S(), outputNames);
    }

    // Creating the graph from the recorded operators.
    method PlaceOps() returns (ok: bool)
      requires graph.Valid() && AllDevicesOk(opSpecs) && graph.producer.Keys == Base(externalInputs)
      modifies graph
      ensures graph.Valid()
      ensures ok <==> Placed(S())
      ensures ok ==> graph.producer.Keys == AllTensors(S())
    {
      ghost var base := Base(externalInputs);
      assert WellPlaced(base, opSpecs[..0]) && Available(base, opSpecs[..0]) == base;
      assert forall i :: 0 <= i < |opSpecs| ==> DevicesOk(opSpecs[i].spec);
      hide WellPlaced, Available, DevicesOk, Fits;
      for i := 0 to |opSpecs|
        invariant graph.Valid() && WellPlaced(base, opSpecs[..i]) && graph.producer.Keys == Available(base, opSpecs[..i])
      {
        assert opSpecs[..i + 1] == opSpecs[..i] + [opSpecs[i]];
        PlacedNext(base, opSpecs[..i], opSpecs[i]);
        ok := graph.AddOp(opSpecs[i].spec);
        if !ok {
          PlacedFront(base, opSpecs, i + 1);
          return;
        }
      }
      assert opSpecs[..|opSpecs|] == opSpecs;
      ok := true;
    }

    // Validating the requested outputs, with a copy for each that is missing.
    method PlaceOutputs(outputs: seq<Tensor>) returns (ok: bool, outs: seq<Tensor>)
      requires graph.Valid() && Placed(S()) && graph.producer.Keys == AllTensors(S())
      modifies graph, `nextLogicalId, `nextInternalId
      ensures graph.Valid()
      ensures (forall r :: r in outputs ==> Obtainable(old(edgeNames), r)) <==> PlanOutputs(old(S()), outputs).Ok?
      ensures ok <==>
                && (forall r :: r in outputs ==> Obtainable(old(edgeNames), r))
                && Placed(WithExtra(old(S()), PlanOutputs(old(S()), outputs).value))
      ensures ok ==> outs == PlanOutputs(old(S()), outputs).value.outs && Returned(old(edgeNames), outputs, outs)
      ensures ok ==> graph.producer.Keys == AllTensors(WithExtra(old(S()), PlanOutputs(old(S()), outputs).value))
    {
      outs := [];
      ghost var s := S();
      PlanExactly(s, outputs);
      PlanReturns(s, outputs);
      ghost var plan := Plan([], [], nextLogicalId, nextInternalId);
      assert PlanOutputs(s, outputs[..0]) == Ok(plan);
      assert s.ops + [] == s.ops;
      hide PlanOutputs, WellPlaced, Available, Fits, DevicesOk, CopySpec, Writes, Obtainable, Returned;
      for i := 0 to |outputs|
        invariant graph.Valid() && PlanOutputs(s, outputs[..i]) == Ok(plan) && outs == plan.outs
        invariant nextLogicalId == plan.nextLogicalId && nextInternalId == plan.nextInternalId
        invariant Placed(WithExtra(s, plan)) && graph.producer.Keys == AllTensors(WithExtra(s, plan))
      {
        ghost var next := PlanOutput(s, plan, outputs[i]);
        PlanStep(s, outputs, i, plan);
        var name, storage := outputs[i].name, outputs[i].storage;
        if name !in edgeNames {
          return false, outs;
        }
        var meta := edgeNames[name];
        if storage == OnCpu && !meta.hasCpu {
          return false, outs;
        }
        if (storage == OnCpu && meta.hasContiguous) || (storage == OnGpu && meta.hasGpu) {
          outs := outs + [outputs[i]];
        } else {
          if !meta.hasCpu {
            return false, outs;
          }
          var target := if storage == OnCpu then Tensor(Contiguous(name), OnCpu) else outputs[i];
          var spec := CopySpec(name, target);
          PlanCopy(s, plan, outputs[i], spec);
          if storage == OnCpu {
            nextInternalId := nextInternalId - 1;
          } else {
            nextLogicalId := nextLogicalId + 1;
          }
          ok := graph.AddOp(spec);
          if !ok {
            return;
          }
          outs := outs + [target];
        }
        plan := next.value;
      }
      assert outputs[..|outputs|] == outputs;
      ok := true;
    }
  }

  // What Build hands to the executor: a requested cpu output under its contiguous name unless it is
  // contiguous already, and any other output as it is.
  ghost predicate Returned(edges: map<string, EdgeMeta>, outputs: seq<Tensor>, outs: seq<Tensor>) {
    && |outs| == |outputs|
    && forall i :: 0 <= i < |outputs| ==>
         && outputs[i].name in edges
         && outs[i] == if outputs[i].storage == OnCpu && !edges[outputs[i].name].hasContiguous
                       then Tensor("contiguous_" + outputs[i].name, OnCpu) else outputs[i]
  }

  lemma PlanReturns(s: State, outputs: seq<Tensor>)
    ensures PlanOutputs(s, outputs).Ok? ==> Returned(s.edges, outputs, PlanOutputs(s, outputs).value.outs)
  {
    hide PlanOutputs;
    if PlanOutputs(s, outputs).Ok? {
      PlanKnows(s, outputs);
      forall i | 0 <= i < |outputs|
        ensures outputs[i].name in s.edges &&
                PlanOutputs(s, outputs).value.outs[i] ==
                if outputs[i].storage == OnCpu && !s.edges[outputs[i].name].hasContiguous
                then Tensor("contiguous_" + outputs[i].name, OnCpu) else outputs[i]
      {
        PlanOuts(s, outputs, i);
      }
    }
  }

  // Of every run that leads to a state, the calls that may follow are those that the state accepts.
  lemma RunsTo(groupable: set<string>, s: State, def: OpDefinition)
    ensures forall calls :: Run(groupable, calls) == Ok(s) ==>
              (AddOperator(groupable, s, def).Ok? <==>
               MayFollow(groupable, AllMade(calls), LoweredRun(calls), NextId(calls), Operator(def)))
  {
    forall calls | Run(groupable, calls) == Ok(s)
      ensures AddOperator(groupable, s, def).Ok? <==>
              MayFollow(groupable, AllMade(calls), LoweredRun(calls), NextId(calls), Operator(def))
    {
      assert (calls + [Operator(def)])[..|calls|] == calls;
      assert Run(groupable, calls + [Operator(def)]) == AddOperator(groupable, s, def);
      hide *;
      AcceptsExactly(groupable, calls, Operator(def));
    }
  }

  lemma PlacedNext(base: set<Tensor>, ops: seq<OpDefinition>, def: OpDefinition)
    ensures WellPlaced(base, ops + [def]) <==> WellPlaced(base, ops) && Fits(Available(base, ops), def.spec)
    ensures Available(base, ops + [def]) == Available(base, ops) + Writes(def.spec)
  {
    AvailablePush(base, ops, def);
  }

  lemma {:induction false} PlacedFront(base: set<Tensor>, ops: seq<OpDefinition>, i: nat)
    requires i <= |ops|
    ensures WellPlaced(base, ops) ==> WellPlaced(base, ops[..i])
  {
    if i == |ops| {
      assert ops[..i] == ops;
    } else {
      assert ops[..|ops| - 1][..i] == ops[..i];
      PlacedFront(base, ops[..|ops| - 1], i);
    }
  }

  lemma {:induction false} PlanFront(s: State, reqs: seq<Tensor>, i: nat)
    requires i <= |reqs| && PlanOutputs(s, reqs).Ok?
    ensures PlanOutputs(s, reqs[..i]).Ok? && PlanOutputs(s, reqs[..i]).value.extra <= PlanOutputs(s, reqs).value.extra
  {
    if i == |reqs| {
      assert reqs[..i] == reqs;
    } else {
      assert reqs[..|reqs| - 1][..i] == reqs[..i];
      PlanFront(s, reqs[..|reqs| - 1], i);
    }
  }

  /** A plan that is refused, or whose graph is, stays so however many outputs follow. */
  lemma PlanRefused(s: State, reqs: seq<Tensor>, i: nat)
    requires i <= |reqs|
    requires PlanOutputs(s, reqs).Ok? && Placed(WithExtra(s, PlanOutputs(s, reqs).value))
    ensures PlanOutputs(s, reqs[..i]).Ok? && Placed(WithExtra(s, PlanOutputs(s, reqs[..i]).value))
  {
    hide PlanOutputs, WellPlaced;
    PlanFront(s, reqs, i);
    var ops, all := s.ops + PlanOutputs(s, reqs[..i]).value.extra, s.ops + PlanOutputs(s, reqs).value.extra;
    assert all[..|ops|] == ops;
    PlacedFront(Base(s.externals), all, |ops|);
  }

  lemma PlanKeepsOps(s: State, reqs: seq<Tensor>)
    ensures PlanOutputs(s, reqs).Ok? && Placed(WithExtra(s, PlanOutputs(s, reqs).value)) ==> Placed(s)
  {
    if PlanOutputs(s, reqs).Ok? && Placed(WithExtra(s, PlanOutputs(s, reqs).value)) {
      PlanRefused(s, reqs, 0);
      assert s.ops + [] == s.ops;
    }
  }

  lemma PlanStep(s: State, reqs: seq<Tensor>, i: nat, plan: Plan)
    requires i < |reqs| && PlanOutputs(s, reqs[..i]) == Ok(plan)
    ensures PlanOutputs(s, reqs[..i + 1]) == PlanOutput(s, plan, reqs[i])
    ensures PlanOutputs(s, reqs).Ok? && Placed(WithExtra(s, PlanOutputs(s, reqs).value)) ==>
              PlanOutput(s, plan, reqs[i]).Ok? && Placed(WithExtra(s, PlanOutput(s, plan, reqs[i]).value))
  {
    assert reqs[..i + 1][..i] == reqs[..i];
    if PlanOutputs(s, reqs).Ok? && Placed(WithExtra(s, PlanOutputs(s, reqs).value)) {
      PlanRefused(s, reqs, i + 1);
    }
  }

  lemma PlanCopy(s: State, plan: Plan, req: Tensor, spec: OpSpec)
    requires req.name in s.edges && s.edges[req.name].hasCpu && NeedsCopy(s, req) && spec == CopySpec(req.name, Target(req))
    ensures PlanOutput(s, plan, req).Ok? && DevicesOk(spec)
    ensures var next := PlanOutput(s, plan, req).value;
            && (Placed(WithExtra(s, next)) <==> Placed(WithExtra(s, plan)) && Fits(AllTensors(WithExtra(s, plan)), spec))
            && AllTensors(WithExtra(s, next)) == AllTensors(WithExtra(s, plan)) + Writes(spec)
  {
    var next := PlanOutput(s, plan, req).value;
    var def := next.extra[|plan.extra|];
    assert s.ops + next.extra == s.ops + plan.extra + [def];
    hide WellPlaced, Available, Fits, CopySpec;
    PlacedNext(Base(s.externals), s.ops + plan.extra, def);
  }

  function GpuStageAdded(groupable: set<string>, s: State, def: OpDefinition): Result<State>
    requires HasDecoderPrefix(def.spec.name) && def.spec.outputs != []
  {
    PipelineState.AddOperator(groupable, s.(nextLogicalId := s.nextLogicalId + 1),
                              OpDefinition(def.instName + "_gpu", GpuStage(def.spec, def.instName), s.nextLogicalId))
  }

  // ---- whole runs of the object ------------------------------------------------------------------------

  lemma {:induction false} RunFront(groupable: set<string>, calls: seq<Call>, i: nat)
    requires i <= |calls|
    ensures Run(groupable, calls).Ok? ==> Run(groupable, calls[..i]).Ok?
  {
    if i == |calls| {
      assert calls[..i] == calls;
    } else {
      assert calls[..|calls| - 1][..i] == calls[..i];
      RunFront(groupable, calls[..|calls| - 1], i);
    }
  }

  lemma RunNext(groupable: set<string>, calls: seq<Call>, i: nat)
    requires i < |calls| && Run(groupable, calls[..i]).Ok?
    ensures Run(groupable, calls[..i + 1]) == Step(groupable, Run(groupable, calls[..i]).value, calls[i])
    ensures Run(groupable, calls).Ok? ==> Run(groupable, calls[..i + 1]).Ok?
  {
    assert calls[..i + 1][..i] == calls[..i];
    RunFront(groupable, calls, i + 1);
  }

  /** A fresh pipeline accepts a list of calls exactly when the run does, and ends in its state. */
  method Construct(groupable: set<string>, calls: seq<Call>) returns (ok: bool, p: Pipeline)
    ensures fresh(p) && fresh(p.graph) && p.Valid() && !p.built && p.groupable == groupable
    ensures ok <==> AllFollow(groupable, calls)
    ensures ok <==> Run(groupable, calls).Ok?
    ensures ok ==> p.S() == Run(groupable, calls).value
  {
    RunAccepted(groupable, calls);
    hide AllFollow, MayFollow, AllMade, LoweredRun, NextId;
    p := new Pipeline(groupable);
    hide PipelineState.AddOperator, AllDevicesOk, IdsInRange;
    for i := 0 to |calls|
      invariant p.Valid() && !p.built && fresh(p) && fresh(p.graph) && p.groupable == groupable
      invariant Run(groupable, calls[..i]) == Ok(p.S())
    {
      RunNext(groupable, calls, i);
      match calls[i] {
        case External(name) => ok := p.AddExternalInput(name);
        case Operator(def) => ok := p.AddOperator(def);
      }
      if !ok {
        return;
      }
    }
    assert calls[..|calls|] == calls;
    ok := true;
  }
}
