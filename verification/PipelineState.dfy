/** Construction state of a processing pipeline: the edge table, the operator list with inserted
    copies, logical ids, and the steps that change them. */
module PipelineState {

  datatype Result<+T> = Ok(value: T) | Err {
    predicate IsFailure() { Err? }
    function PropagateFailure<U>(): Result<U> requires Err? { Err }
    function Extract(): T requires Ok? { value }
  }

  // Where a tensor lives; inputs and outputs of operators accept only these two.
  datatype Storage = OnCpu | OnGpu

  // The "device" argument of an operator.
  datatype OpDevice = CpuOp | GpuOp | MixedOp | SupportOp | OtherOp(device: string)

  datatype Tensor = Tensor(name: string, storage: Storage)

  datatype EdgeMeta = EdgeMeta(hasCpu: bool, hasGpu: bool, hasContiguous: bool, isSupport: bool)

  datatype ArgInput = ArgInput(arg: string, edge: string)

  // An operator specification. Argument inputs follow the regular inputs; `args` holds the
  // remaining arguments.
  datatype OpSpec = OpSpec(
    name: string,
    device: OpDevice,
    args: map<string, string>,
    inputs: seq<Tensor>,
    argInputs: seq<ArgInput>,
    outputs: seq<Tensor>)

  datatype OpDefinition = OpDefinition(instName: string, spec: OpSpec, logicalId: int)

  datatype State = State(
    edges: map<string, EdgeMeta>,
    ops: seq<OpDefinition>,
    serialized: seq<OpDefinition>,
    logicalIds: map<int, seq<nat>>,
    externals: seq<string>,
    nextLogicalId: int,
    nextInternalId: int)

  const INITIAL := State(map[], [], [], map[], [], 0, -1)

  // ---- copies ---------------------------------------------------------------------------------

  function Contiguous(edge: string): string {
    "contiguous_" + edge
  }

  function CopySpec(edge: string, target: Tensor): OpSpec {
    OpSpec("MakeContiguous", MixedOp, map[], [Tensor(edge, OnCpu)], [], [target])
  }

  // ---- AddToOpSpecs -----------------------------------------------------------------------------

  function Group(s: State, id: int): seq<nat> {
    if id in s.logicalIds then s.logicalIds[id] else []
  }

  function OpNameAt(s: State, i: nat): string {
    if i < |s.ops| then s.ops[i].spec.name else ""
  }

  // `groupable`: operators whose schema allows instance grouping.
  function AddToOpSpecs(groupable: set<string>, s: State, def: OpDefinition): Result<State> {
    var group := Group(s, def.logicalId);
    if group != [] && (OpNameAt(s, group[0]) != def.spec.name || def.spec.name !in groupable) then Err
    else Ok(s.(ops := s.ops + [def], logicalIds := s.logicalIds[def.logicalId := group + [|s.ops|]]))
  }

  // ---- inputs -------------------------------------------------------------------------------------

  function InsertCopy(groupable: set<string>, s: State, edge: string, prefix: string, target: Tensor): Result<State> {
    AddToOpSpecs(groupable, s.(nextInternalId := s.nextInternalId - 1),
                 OpDefinition(prefix + edge, CopySpec(edge, target), s.nextInternalId))
  }

  // SetupCPUInput: the contiguous version of an edge, copied the first time it is asked for.
  function SetupCpuInput(groupable: set<string>, s: State, edge: string): Result<State>
    requires edge in s.edges
  {
    if s.edges[edge].hasContiguous then Ok(s)
    else
      var s1 :- InsertCopy(groupable, s, edge, "__MakeContiguous_", Tensor(Contiguous(edge), OnCpu));
      Ok(s1.(edges := s.edges[edge := s.edges[edge].(hasContiguous := true)]))
  }

  // SetupGPUInput: the device copy of an edge.
  function SetupGpuInput(groupable: set<string>, s: State, edge: string): Result<State>
    requires edge in s.edges
  {
    if s.edges[edge].hasGpu then Ok(s)
    else
      var s1 :- InsertCopy(groupable, s, edge, "__Copy_", Tensor(edge, OnGpu));
      Ok(s1.(edges := s.edges[edge := s.edges[edge].(hasGpu := true)]))
  }

  // One regular input: the constraint table, and the tensor the operator will really read.
  function SetupInput(groupable: set<string>, s: State, device: OpDevice, input: Tensor): Result<(State, Tensor)> {
    if input.name !in s.edges then Err
    else
      var meta := s.edges[input.name];
      match device
      case GpuOp =>
        if input.storage == OnCpu then
          if !meta.hasCpu then Err
          else
            var s1 :- SetupCpuInput(groupable, s, input.name);
            Ok((s1, Tensor(Contiguous(input.name), OnCpu)))
        else
          var s1 :- SetupGpuInput(groupable, s, input.name);
          Ok((s1, input))
      case SupportOp =>
        if input.storage == OnCpu && meta.hasCpu && meta.isSupport then Ok((s, input)) else Err
      case _ =>
        if input.storage == OnCpu && meta.hasCpu && !meta.isSupport then Ok((s, input)) else Err
  }

  function SetupInputs(groupable: set<string>, s: State, device: OpDevice, inputs: seq<Tensor>): Result<(State, seq<Tensor>)>
    decreases |inputs|
  {
    if inputs == [] then Ok((s, []))
    else
      var first :- SetupInput(groupable, s, device, inputs[0]);
      var rest :- SetupInputs(groupable, first.0, device, inputs[1..]);
      Ok((rest.0, [first.1] + rest.1))
  }

  predicate ArgInputOk(s: State, a: ArgInput) {
    a.edge in s.edges && s.edges[a.edge].hasCpu && s.edges[a.edge].isSupport
  }

  // ---- outputs --------------------------------------------------------------------------------------

  function NewEdge(device: OpDevice, storage: Storage): EdgeMeta {
    EdgeMeta(storage == OnCpu, storage == OnGpu,
             device == SupportOp || (device == GpuOp && storage == OnCpu), device == SupportOp)
  }

  function AddOutput(s: State, device: OpDevice, output: Tensor): Result<State> {
    if output.name in s.edges then Err
    else if (device == CpuOp || device == SupportOp) && output.storage != OnCpu then Err
    else Ok(s.(edges := s.edges[output.name := NewEdge(device, output.storage)]))
  }

  function AddOutputs(s: State, device: OpDevice, outputs: seq<Tensor>): Result<State>
    decreases |outputs|
  {
    if outputs == [] then Ok(s)
    else
      var s1 :- AddOutput(s, device, outputs[0]);
      AddOutputs(s1, device, outputs[1..])
  }

  // ---- AddOperator -----------------------------------------------------------------------------------

  // AddOperator once the specification is known not to be split.
  function AddPlain(groupable: set<string>, s: State, def: OpDefinition): Result<State> {
    var spec := def.spec;
    var r :- SetupInputs(groupable, s, spec.device, spec.inputs);
    if exists a :: a in spec.argInputs && !ArgInputOk(r.0, a) then Err
    else
      var s2 :- AddOutputs(r.0, spec.device, spec.outputs);
      AddToOpSpecs(groupable, s2, def.(spec := spec.(inputs := r.1)))
  }

  predicate Contains(text: string, part: string) {
    exists i :: 0 <= i <= |text| && part <= text[i..]
  }

  const DECODER_PREFIXES := ["nvJPEGDecoder", "ImageDecoder"]

  predicate HasDecoderPrefix(name: string) {
    DECODER_PREFIXES[0] <= name || DECODER_PREFIXES[1] <= name
  }

  // A hybrid decoder that asks to be split in a CPU and a mixed stage.
  predicate Splits(spec: OpSpec) {
    && spec.device == MixedOp && HasDecoderPrefix(spec.name)
    && !Contains(spec.name, "CPUStage") && !Contains(spec.name, "GPUStage")
    && "split_stages" in spec.args && spec.args["split_stages"] == "true"
  }

  function CpuStageName(spec: OpSpec): string
    requires HasDecoderPrefix(spec.name)
  {
    "nvJPEGDecoderCPUStage" +
    (if DECODER_PREFIXES[0] <= spec.name then spec.name[|DECODER_PREFIXES[0]|..] else spec.name[|DECODER_PREFIXES[1]|..])
  }

  // The first output carries the encoded stream to the second stage; two more are added.
  function CpuStage(spec: OpSpec, instName: string): OpSpec
    requires HasDecoderPrefix(spec.name) && spec.outputs != []
  {
    var mangled := CpuStageName(spec) + instName;
    spec.(name := CpuStageName(spec), device := CpuOp,
          outputs := [Tensor(mangled + "0", OnCpu)] + spec.outputs[1..]
                     + [Tensor(mangled + "1", OnCpu), Tensor(mangled + "2", OnCpu)])
  }

  function GpuStage(spec: OpSpec, instName: string): OpSpec
    requires HasDecoderPrefix(spec.name) && spec.outputs != []
  {
    var outs := CpuStage(spec, instName).outputs;
    OpSpec("nvJPEGDecoderGPUStage", MixedOp, spec.args,
           [Tensor(outs[0].name, OnCpu), Tensor(outs[1].name, OnCpu), Tensor(outs[2].name, OnCpu)], [],
           [Tensor(spec.outputs[0].name, OnGpu)])
  }

  lemma StagesDoNotSplit(spec: OpSpec, instName: string)
    requires HasDecoderPrefix(spec.name) && spec.outputs != []
    ensures !Splits(CpuStage(spec, instName)) && !Splits(GpuStage(spec, instName))
  {
    assert "GPUStage" <= "nvJPEGDecoderGPUStage"[13..];
  }

  function AddOperator(groupable: set<string>, s: State, def: OpDefinition): Result<State>
    decreases Splits(def.spec)
  {
    if def.logicalId < 0 then Err
    else
      var next := if def.logicalId > s.nextLogicalId then def.logicalId + 1 else s.nextLogicalId;
      var s0 := s.(nextLogicalId := next, serialized := s.serialized + [def]);
      if def.spec.device.OtherOp? then Err
      else if Splits(def.spec) then
        // The second stage shares the arguments before it adds its inputs, which is an error
        // when there are argument inputs.
        if def.spec.outputs == [] || def.spec.argInputs != [] then Err
        else
          StagesDoNotSplit(def.spec, def.instName);
          var s1 :- AddOperator(groupable, s0, def.(spec := CpuStage(def.spec, def.instName)));
          AddOperator(groupable, s1.(nextLogicalId := s1.nextLogicalId + 1),
                      OpDefinition(def.instName + "_gpu", GpuStage(def.spec, def.instName), s1.nextLogicalId))
      else AddPlain(groupable, s0, def)
  }

  function AddExternalInput(s: State, name: string): Result<State> {
    if name in s.edges then Err
    else
      var id := s.nextLogicalId;
      Ok(s.(edges := s.edges[name := EdgeMeta(true, false, false, false)],
            nextLogicalId := id + 1,
            logicalIds := s.logicalIds[id := Group(s, id)],
            externals := s.externals + [name]))
  }

  // ---- runs ------------------------------------------------------------------------------------------

  datatype Call = External(name: string) | Operator(def: OpDefinition)

  function Step(groupable: set<string>, s: State, call: Call): Result<State> {
    match call
    case External(name) => AddExternalInput(s, name)
    case Operator(def) => AddOperator(groupable, s, def)
  }

  function Run(groupable: set<string>, calls: seq<Call>): Result<State> {
    if calls == [] then Ok(INITIAL)
    else
      var s :- Run(groupable, calls[..|calls| - 1]);
      Step(groupable, s, calls[|calls| - 1])
  }
}
