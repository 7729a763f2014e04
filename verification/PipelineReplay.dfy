/** Serializing a pipeline and rebuilding it from the message. */
module PipelineReplay {
  import opened PipelineState
  import opened PipelineInvariant
  import opened PipelineMeaning

  // ---- messages --------------------------------------------------------------------------------

  // An operator message; one that was added but never filled in is Blank.
  datatype OpMessage = Blank | OpMessage(def: OpDefinition)

  datatype PipelineMessage = PipelineMessage(externals: seq<string>, ops: seq<OpMessage>, outputs: seq<Tensor>)

  const FILTERED_ARGS := {"batch_size", "num_threads", "bytes_per_sample_hint"}

  function FilterSpec(spec: OpSpec): OpSpec {
    spec.(args := spec.args - FILTERED_ARGS)
  }

  function Filter(def: OpDefinition): OpDefinition {
    def.(spec := FilterSpec(def.spec))
  }

  function FilterAll(defs: seq<OpDefinition>): (r: seq<OpDefinition>)
    ensures |r| == |defs| && forall i :: 0 <= i < |defs| ==> r[i] == Filter(defs[i])
  {
    seq(|defs|, i requires 0 <= i < |defs| => Filter(defs[i]))
  }

  // SerializeToProtobuf of one operator: external sources are skipped after the message was added.
  function SerializeOp(def: OpDefinition): OpMessage {
    if def.spec.name == "ExternalSource" then Blank else OpMessage(Filter(def))
  }

  function SerializeOps(defs: seq<OpDefinition>): (r: seq<OpMessage>)
    ensures |r| == |defs| && forall i :: 0 <= i < |defs| ==> r[i] == SerializeOp(defs[i])
  {
    seq(|defs|, i requires 0 <= i < |defs| => SerializeOp(defs[i]))
  }

  function Serialize(s: State, outputs: seq<Tensor>): PipelineMessage {
    PipelineMessage(s.externals, SerializeOps(s.serialized), outputs)
  }

  /** b is a without the three arguments that are set when a pipeline is loaded; everything else is equal. */
  ghost predicate Carries(a: OpDefinition, b: OpDefinition) {
    && b.instName == a.instName && b.logicalId == a.logicalId && b.spec.name == a.spec.name && b.spec.device == a.spec.device
    && b.spec.inputs == a.spec.inputs && b.spec.argInputs == a.spec.argInputs && b.spec.outputs == a.spec.outputs
    && (forall key :: key in b.spec.args <==>
          key in a.spec.args && key != "batch_size" && key != "num_threads" && key != "bytes_per_sample_hint")
    && (forall key :: key in b.spec.args ==> b.spec.args[key] == a.spec.args[key])
  }

  ghost predicate AllCarried(defs: seq<OpDefinition>, defs': seq<OpDefinition>) {
    |defs'| == |defs| && forall i :: 0 <= i < |defs| ==> Carries(defs[i], defs'[i])
  }

  lemma FilterCarries(defs: seq<OpDefinition>)
    ensures AllCarried(defs, FilterAll(defs))
  {
  }

  /** The message of a pipeline: its external inputs, its operators as they were added, without those three
      arguments, and its outputs. External sources leave a blank. */
  ghost predicate IsMessage(s: State, outputs: seq<Tensor>, msg: PipelineMessage) {
    && msg.externals == s.externals && msg.outputs == outputs && |msg.ops| == |s.serialized|
    && forall i :: 0 <= i < |msg.ops| ==>
         if s.serialized[i].spec.name == "ExternalSource" then msg.ops[i].Blank?
         else msg.ops[i].OpMessage? && Carries(s.serialized[i], msg.ops[i].def)
  }

  lemma SerializeIs(s: State, outputs: seq<Tensor>)
    ensures IsMessage(s, outputs, Serialize(s, outputs))
  {
  }

  // ---- rebuilding ----------------------------------------------------------------------------------

  function AddExternals(s: State, names: seq<string>): Result<State> {
    if names == [] then Ok(s)
    else
      var t :- AddExternals(s, names[..|names| - 1]);
      AddExternalInput(t, names[|names| - 1])
  }

  // A blank message has no device argument and no schema to take one from.
  function ReplayOp(groupable: set<string>, s: State, msg: OpMessage): Result<State> {
    match msg
    case Blank => Err
    case OpMessage(def) => AddOperator(groupable, s, def)
  }

  function ReplayOps(groupable: set<string>, s: State, msgs: seq<OpMessage>): Result<State> {
    if msgs == [] then Ok(s)
    else
      var t :- ReplayOps(groupable, s, msgs[..|msgs| - 1]);
      ReplayOp(groupable, t, msgs[|msgs| - 1])
  }

  // The deserializing constructor: external inputs first, then the operators, then the outputs.
  function Deserialize(groupable: set<string>, msg: PipelineMessage): Result<(State, seq<Tensor>)> {
    var s :- AddExternals(INITIAL, msg.externals);
    var t :- ReplayOps(groupable, s, msg.ops);
    Ok((t, msg.outputs))
  }

  // ---- simulation ------------------------------------------------------------------------------------

  const EXTERNAL_EDGE := EdgeMeta(true, false, false, false)

  ghost predicate EdgesPlus(edges: map<string, EdgeMeta>, more: map<string, EdgeMeta>, pending: set<string>) {
    && more.Keys == edges.Keys + pending && edges.Keys !! pending
    && (forall e :: e in edges ==> more[e] == edges[e])
    && (forall e :: e in pending ==> more[e] == EXTERNAL_EDGE)
  }

  ghost predicate SameGroups(s: State, t: State) {
    forall id :: Group(s, id) == Group(t, id)
  }

  /** t is s with the external inputs `pending` declared ahead of time. */
  ghost predicate Ahead(s: State, t: State, pending: set<string>) {
    && EdgesPlus(s.edges, t.edges, pending)
    && t.ops == FilterAll(s.ops)
    && SameGroups(s, t)
    && t.nextInternalId == s.nextInternalId
  }

  lemma AheadPush(groupable: set<string>, s: State, t: State, pending: set<string>, def: OpDefinition)
    requires Ahead(s, t, pending) && AddToOpSpecs(groupable, s, def).Ok?
    ensures AddToOpSpecs(groupable, t, Filter(def)).Ok?
    ensures Ahead(AddToOpSpecs(groupable, s, def).value, AddToOpSpecs(groupable, t, Filter(def)).value, pending)
  {
    var group := Group(s, def.logicalId);
    assert group == Group(t, def.logicalId);
    assert group != [] ==> OpNameAt(t, group[0]) == OpNameAt(s, group[0]);
    var s1, t1 := AddToOpSpecs(groupable, s, def).value, AddToOpSpecs(groupable, t, Filter(def)).value;
    assert t1.ops == FilterAll(s1.ops);
    forall id ensures Group(s1, id) == Group(t1, id) {
      assert Group(s, id) == Group(t, id);
    }
  }

  lemma AheadCopy(groupable: set<string>, s: State, t: State, pending: set<string>, edge: string, prefix: string, target: Tensor)
    requires Ahead(s, t, pending) && InsertCopy(groupable, s, edge, prefix, target).Ok?
    ensures InsertCopy(groupable, t, edge, prefix, target).Ok?
    ensures Ahead(InsertCopy(groupable, s, edge, prefix, target).value, InsertCopy(groupable, t, edge, prefix, target).value, pending)
    ensures InsertCopy(groupable, s, edge, prefix, target).value.edges == s.edges
    ensures InsertCopy(groupable, t, edge, prefix, target).value.edges == t.edges
  {
    var s1, t1 := s.(nextInternalId := s.nextInternalId - 1), t.(nextInternalId := t.nextInternalId - 1);
    var def := OpDefinition(prefix + edge, CopySpec(edge, target), s.nextInternalId);
    assert def.spec.args - FILTERED_ARGS == def.spec.args;
    assert Filter(def) == def;
    assert SameGroups(s1, t1) by {
      forall id ensures Group(s1, id) == Group(t1, id) {
        assert Group(s, id) == Group(t, id);
      }
    }
    AheadPush(groupable, s1, t1, pending, def);
  }

  lemma AheadFlag(s: State, t: State, pending: set<string>, edge: string, meta: EdgeMeta)
    requires Ahead(s, t, pending) && edge in s.edges
    ensures Ahead(s.(edges := s.edges[edge := meta]), t.(edges := t.edges[edge := meta]), pending)
  {
    var s1, t1 := s.(edges := s.edges[edge := meta]), t.(edges := t.edges[edge := meta]);
    hide FilterAll;
    assert SameGroups(s1, t1) by {
      forall id ensures Group(s1, id) == Group(t1, id) {
        assert Group(s, id) == Group(t, id);
      }
    }
  }

  lemma AheadInput(groupable: set<string>, s: State, t: State, pending: set<string>, device: OpDevice, input: Tensor)
    requires Ahead(s, t, pending) && SetupInput(groupable, s, device, input).Ok?
    ensures SetupInput(groupable, t, device, input).Ok?
    ensures SetupInput(groupable, t, device, input).value.1 == SetupInput(groupable, s, device, input).value.1
    ensures Ahead(SetupInput(groupable, s, device, input).value.0, SetupInput(groupable, t, device, input).value.0, pending)
  {
    var e := input.name;
    assert e in t.edges && t.edges[e] == s.edges[e];
    hide Ahead, InsertCopy, Contiguous;
    if device == GpuOp {
      var meta := s.edges[e];
      if input.storage == OnCpu && !meta.hasContiguous {
        AheadCopy(groupable, s, t, pending, e, "__MakeContiguous_", Tensor(Contiguous(e), OnCpu));
        AheadFlag(InsertCopy(groupable, s, e, "__MakeContiguous_", Tensor(Contiguous(e), OnCpu)).value,
                  InsertCopy(groupable, t, e, "__MakeContiguous_", Tensor(Contiguous(e), OnCpu)).value,
                  pending, e, meta.(hasContiguous := true));
      } else if input.storage == OnGpu && !meta.hasGpu {
        AheadCopy(groupable, s, t, pending, e, "__Copy_", Tensor(e, OnGpu));
        AheadFlag(InsertCopy(groupable, s, e, "__Copy_", Tensor(e, OnGpu)).value,
                  InsertCopy(groupable, t, e, "__Copy_", Tensor(e, OnGpu)).value,
                  pending, e, meta.(hasGpu := true));
      }
    }
  }

  lemma {:induction false} AheadInputs(groupable: set<string>, s: State, t: State, pending: set<string>, device: OpDevice, inputs: seq<Tensor>)
    requires Ahead(s, t, pending) && SetupInputs(groupable, s, device, inputs).Ok?
    ensures SetupInputs(groupable, t, device, inputs).Ok?
    ensures SetupInputs(groupable, t, device, inputs).value.1 == SetupInputs(groupable, s, device, inputs).value.1
    ensures Ahead(SetupInputs(groupable, s, device, inputs).value.0, SetupInputs(groupable, t, device, inputs).value.0, pending)
    decreases |inputs|
  {
    if inputs != [] {
      hide Ahead, SetupInput;
      AheadInput(groupable, s, t, pending, device, inputs[0]);
      AheadInputs(groupable, SetupInput(groupable, s, device, inputs[0]).value.0,
                  SetupInput(groupable, t, device, inputs[0]).value.0, pending, device, inputs[1..]);
    }
  }

  lemma AheadOutput(s: State, t: State, pending: set<string>, device: OpDevice, output: Tensor)
    requires Ahead(s, t, pending) && AddOutput(s, device, output).Ok? && output.name !in pending
    ensures AddOutput(t, device, output).Ok?
    ensures Ahead(AddOutput(s, device, output).value, AddOutput(t, device, output).value, pending)
  {
    var s1, t1 := AddOutput(s, device, output).value, AddOutput(t, device, output).value;
    hide FilterAll;
    assert SameGroups(s1, t1) by {
      forall id ensures Group(s1, id) == Group(t1, id) {
        assert Group(s, id) == Group(t, id);
      }
    }
  }

  lemma {:induction false} AheadOutputs(s: State, t: State, pending: set<string>, device: OpDevice, outputs: seq<Tensor>)
    requires Ahead(s, t, pending) && AddOutputs(s, device, outputs).Ok?
    requires pending !! AddOutputs(s, device, outputs).value.edges.Keys
    ensures AddOutputs(t, device, outputs).Ok?
    ensures Ahead(AddOutputs(s, device, outputs).value, AddOutputs(t, device, outputs).value, pending)
    decreases |outputs|
  {
    if outputs != [] {
      AddOutputsMeaning(s, device, outputs);
      var s1 := AddOutput(s, device, outputs[0]).value;
      assert AddOutputs(s, device, outputs) == AddOutputs(s1, device, outputs[1..]);
      assert outputs[0].name in AddOutputs(s, device, outputs).value.edges;
      hide Ahead, AddOutput;
      AheadOutput(s, t, pending, device, outputs[0]);
      AheadOutputs(s1, AddOutput(t, device, outputs[0]).value, pending, device, outputs[1..]);
    }
  }

  lemma AheadArgs(s: State, t: State, pending: set<string>, args: seq<ArgInput>)
    requires Ahead(s, t, pending) && forall a :: a in args ==> ArgInputOk(s, a)
    ensures forall a :: a in args ==> ArgInputOk(t, a)
  {
  }

  lemma AddPlainFold(groupable: set<string>, s: State, def: OpDefinition, t: State, renamed: seq<Tensor>, u: State)
    requires SetupInputs(groupable, s, def.spec.device, def.spec.inputs) == Ok((t, renamed))
    requires forall a :: a in def.spec.argInputs ==> ArgInputOk(t, a)
    requires AddOutputs(t, def.spec.device, def.spec.outputs) == Ok(u)
    ensures AddPlain(groupable, s, def) == AddToOpSpecs(groupable, u, def.(spec := def.spec.(inputs := renamed)))
  {
  }

  /** Declaring external inputs early commutes with adding an operator. */
  lemma AheadPlain(groupable: set<string>, s: State, t: State, pending: set<string>, def: OpDefinition)
    requires Ahead(s, t, pending) && AddPlain(groupable, s, def).Ok?
    requires pending !! AddPlain(groupable, s, def).value.edges.Keys
    ensures AddPlain(groupable, t, Filter(def)).Ok?
    ensures Ahead(AddPlain(groupable, s, def).value, AddPlain(groupable, t, Filter(def)).value, pending)
  {
    var spec := def.spec;
    assert Filter(def).spec == spec.(args := Filter(def).spec.args);
    hide Ahead, AddPlain, SetupInputs, AddOutputs, AddToOpSpecs, ArgInputOk;
    var s1, renamed, s2 := AddPlainUnfold(groupable, s, def);
    AheadInputs(groupable, s, t, pending, spec.device, spec.inputs);
    var t1 := SetupInputs(groupable, t, spec.device, spec.inputs).value.0;
    AheadArgs(s1, t1, pending, spec.argInputs);
    AheadOutputs(s1, t1, pending, spec.device, spec.outputs);
    var t2 := AddOutputs(t1, spec.device, spec.outputs).value;
    AddPlainFold(groupable, t, Filter(def), t1, renamed, t2);
    var def' := def.(spec := spec.(inputs := renamed));
    AheadPush(groupable, s2, t2, pending, def');
    assert Filter(def').spec == Filter(def).spec.(inputs := renamed);
  }

  // ---- external inputs declared later are not yet known ------------------------------------------------

  function Pending(all: seq<string>, done: nat): set<string>
    requires done <= |all|
  {
    set x | x in all[done..]
  }

  lemma {:induction false} Later(groupable: set<string>, calls: seq<Call>, k: nat)
    requires k <= |calls| && Run(groupable, calls).Ok?
    ensures Run(groupable, calls[..k]).Ok?
    ensures var s, t := Run(groupable, calls[..k]).value, Run(groupable, calls).value;
            && s.externals <= t.externals && s.serialized <= t.serialized && s.edges.Keys <= t.edges.Keys
            && Pending(t.externals, |s.externals|) !! s.edges.Keys
    decreases |calls|
  {
    var n := |calls|;
    if k == n {
      assert calls[..k] == calls;
    } else {
      var init := calls[..n - 1];
      assert init[..k] == calls[..k];
      hide Step, Pending;
      Later(groupable, init, k);
      var s, t := Run(groupable, calls[..k]).value, Run(groupable, init).value;
      StepKeys(groupable, t, calls[n - 1]);
      StepRecords(groupable, t, calls[n - 1]);
      PendingMore(s, t, groupable, calls[n - 1]);
    }
  }

  lemma PendingMore(s: State, t: State, groupable: set<string>, call: Call)
    requires s.externals <= t.externals && s.edges.Keys <= t.edges.Keys
    requires Pending(t.externals, |s.externals|) !! s.edges.Keys && Step(groupable, t, call).Ok?
    ensures Pending(t.externals + Declares(call), |s.externals|) !! s.edges.Keys
  {
    hide AddOperator;
    var n := |s.externals|;
    assert (t.externals + Declares(call))[n..] == t.externals[n..] + Declares(call);
  }

  lemma {:induction false} ExternalsDistinct(groupable: set<string>, calls: seq<Call>)
    requires Run(groupable, calls).Ok?
    ensures var s := Run(groupable, calls).value;
            && (forall x :: x in s.externals ==> x in s.edges)
            && (forall i, j :: 0 <= i < j < |s.externals| ==> s.externals[i] != s.externals[j])
    decreases |calls|
  {
    if calls != [] {
      var init, last := calls[..|calls| - 1], calls[|calls| - 1];
      ExternalsDistinct(groupable, init);
      hide AddOperator;
      var s := Run(groupable, init).value;
      StepKeys(groupable, s, last);
      StepRecords(groupable, s, last);
    }
  }

  lemma AheadDeclare(t: State, pending: set<string>, name: string)
    requires Ahead(INITIAL, t, pending) && name !in pending
    ensures AddExternalInput(t, name).Ok?
    ensures Ahead(INITIAL, AddExternalInput(t, name).value, pending + {name})
  {
    var t1 := AddExternalInput(t, name).value;
    forall id ensures Group(INITIAL, id) == Group(t1, id) {
      assert Group(INITIAL, id) == Group(t, id);
    }
  }

  lemma {:induction false} ExternalsDeclared(names: seq<string>)
    requires forall i, j :: 0 <= i < j < |names| ==> names[i] != names[j]
    ensures AddExternals(INITIAL, names).Ok?
    ensures var t := AddExternals(INITIAL, names).value;
            && t.externals == names && t.serialized == []
            && Ahead(INITIAL, t, Pending(names, 0))
  {
    if names == [] {
      assert Ahead(INITIAL, INITIAL, {});
    } else {
      hide Ahead;
      var init, last := names[..|names| - 1], names[|names| - 1];
      ExternalsDeclared(init);
      assert names[0..] == init[0..] + [last];
      assert Pending(names, 0) == Pending(init, 0) + {last};
      AheadDeclare(AddExternals(INITIAL, init).value, Pending(init, 0), last);
      assert init + [last] == names;
    }
  }

  lemma {:induction false} ExternalIds(names: seq<string>)
    requires AddExternals(INITIAL, names).Ok?
    ensures AddExternals(INITIAL, names).value.nextLogicalId == |names|
  {
    if names != [] {
      ExternalIds(names[..|names| - 1]);
    }
  }

  // ---- rebuilding an accepted run -----------------------------------------------------------------------

  lemma FilterKeepsSplits(spec: OpSpec)
    ensures Splits(FilterSpec(spec)) <==> Splits(spec)
  {
    assert "split_stages" !in FILTERED_ARGS;
  }

  lemma AheadOperator(groupable: set<string>, s: State, t: State, pending: set<string>, def: OpDefinition)
    requires Ahead(s, t, pending) && AddOperator(groupable, s, def).Ok? && !Splits(def.spec)
    requires pending !! AddOperator(groupable, s, def).value.edges.Keys
    ensures AddOperator(groupable, t, Filter(def)).Ok?
    ensures Ahead(AddOperator(groupable, s, def).value, AddOperator(groupable, t, Filter(def)).value, pending)
  {
    FilterKeepsSplits(def.spec);
    var s0 := AddOperatorUnfold(groupable, s, def);
    var next := if def.logicalId > t.nextLogicalId then def.logicalId + 1 else t.nextLogicalId;
    var t0 := t.(nextLogicalId := next, serialized := t.serialized + [Filter(def)]);
    assert AddOperator(groupable, t, Filter(def)) == AddPlain(groupable, t0, Filter(def));
    AheadRecords(s, t, s0, t0, pending);
    hide Ahead, AddPlain, AddOperator;
    AheadPlain(groupable, s0, t0, pending, def);
  }

  lemma AheadRecords(s: State, t: State, s0: State, t0: State, pending: set<string>)
    requires Ahead(s, t, pending)
    requires s0.edges == s.edges && s0.ops == s.ops && s0.logicalIds == s.logicalIds && s0.nextInternalId == s.nextInternalId
    requires t0.edges == t.edges && t0.ops == t.ops && t0.logicalIds == t.logicalIds && t0.nextInternalId == t.nextInternalId
    ensures Ahead(s0, t0, pending)
  {
    forall id ensures Group(s0, id) == Group(t0, id) {
      assert Group(s, id) == Group(t, id);
    }
  }

  lemma AheadExternal(s: State, t: State, pending: set<string>, name: string)
    requires Ahead(s, t, pending + {name}) && name !in pending && AddExternalInput(s, name).Ok?
    ensures Ahead(AddExternalInput(s, name).value, t, pending)
  {
    var s1 := AddExternalInput(s, name).value;
    forall id ensures Group(s1, id) == Group(t, id) {
      assert Group(s, id) == Group(t, id);
    }
  }

  /** Every operator called is one that the message can carry. */
  predicate Carried(call: Call) {
    call.Operator? ==> !Splits(call.def.spec) && call.def.spec.name != "ExternalSource"
  }

  predicate Replayable(calls: seq<Call>) {
    forall call :: call in calls ==> Carried(call)
  }

  ghost predicate Rebuilt(s: State, t: State, all: seq<string>)
    requires |s.externals| <= |all|
  {
    && Ahead(s, t, Pending(all, |s.externals|))
    && t.externals == all && t.serialized == FilterAll(s.serialized)
    && t.nextLogicalId == IdsThrough(|all|, s.serialized)
  }

  // The next free logical id after operators are added, from a given one on.
  function IdsThrough(next: int, defs: seq<OpDefinition>): int {
    if defs == [] then next else Bumped(IdsThrough(next, defs[..|defs| - 1]), defs[|defs| - 1].logicalId)
  }

  lemma IdsSnoc(next: int, defs: seq<OpDefinition>, def: OpDefinition)
    ensures IdsThrough(next, defs + [def]) == Bumped(IdsThrough(next, defs), def.logicalId)
  {
    assert (defs + [def])[..|defs|] == defs;
  }

  lemma RebuiltStep(groupable: set<string>, s: State, t: State, all: seq<string>, call: Call)
    requires Step(groupable, s, call).Ok? && Carried(call)
    requires Step(groupable, s, call).value.externals <= all && s.externals <= all && Rebuilt(s, t, all)
    requires Pending(all, |Step(groupable, s, call).value.externals|) !! Step(groupable, s, call).value.edges.Keys
    ensures var s1 := Step(groupable, s, call).value;
            && (call.External? ==> s1.serialized == s.serialized && Rebuilt(s1, t, all))
            && (call.Operator? ==>
                  && s1.serialized == s.serialized + [call.def]
                  && AddOperator(groupable, t, Filter(call.def)).Ok?
                  && Rebuilt(s1, AddOperator(groupable, t, Filter(call.def)).value, all))
  {
    hide AddOperator, Ahead;
    StepRecords(groupable, s, call);
    match call
    case External(name) =>
      var n := |s.externals|;
      assert all[n] == name && all[n..] == [name] + all[n + 1..];
      assert Pending(all, n) == Pending(all, n + 1) + {name};
      AheadExternal(s, t, Pending(all, n + 1), name);
    case Operator(def) =>
      UnsplitRecords(groupable, s, def);
      AheadOperator(groupable, s, t, Pending(all, |s.externals|), def);
      FilterKeepsSplits(def.spec);
      UnsplitRecords(groupable, t, Filter(def));
      var s1 := Step(groupable, s, call).value;
      assert FilterAll(s1.serialized) == FilterAll(s.serialized) + [Filter(def)];
      IdsSnoc(|all|, s.serialized, def);
  }

  lemma SerializeSnoc(defs: seq<OpDefinition>, def: OpDefinition)
    ensures SerializeOps(defs + [def]) == SerializeOps(defs) + [SerializeOp(def)]
  {
  }

  lemma RunSnoc(groupable: set<string>, calls: seq<Call>, k: nat)
    requires 0 < k <= |calls| && Run(groupable, calls[..k]).Ok?
    ensures Run(groupable, calls[..k - 1]).Ok?
    ensures Run(groupable, calls[..k]) == Step(groupable, Run(groupable, calls[..k - 1]).value, calls[k - 1])
  {
    assert calls[..k][..k - 1] == calls[..k - 1];
  }

  lemma ReplaySnoc(groupable: set<string>, s: State, msgs: seq<OpMessage>, msg: OpMessage)
    ensures ReplayOps(groupable, s, msgs + [msg]) ==
            if ReplayOps(groupable, s, msgs).Ok? then ReplayOp(groupable, ReplayOps(groupable, s, msgs).value, msg) else Err
  {
    assert (msgs + [msg])[..|msgs|] == msgs;
  }

  lemma CarriedMessage(groupable: set<string>, s: State, def: OpDefinition)
    requires Carried(Operator(def))
    ensures ReplayOp(groupable, s, SerializeOp(def)) == AddOperator(groupable, s, Filter(def))
  {
  }

  lemma {:induction false} ReplayPrefix(groupable: set<string>, calls: seq<Call>, k: nat)
    requires k <= |calls| && Run(groupable, calls).Ok? && Replayable(calls)
    ensures Run(groupable, calls[..k]).Ok?
    ensures var s, all := Run(groupable, calls[..k]).value, Run(groupable, calls).value.externals;
            && AddExternals(INITIAL, all).Ok? && |s.externals| <= |all|
            && var t := ReplayOps(groupable, AddExternals(INITIAL, all).value, SerializeOps(s.serialized));
               t.Ok? && Rebuilt(s, t.value, all)
    decreases k
  {
    hide *;
    var all := Run(groupable, calls).value.externals;
    Later(groupable, calls, k);
    if k == 0 {
      ReplayStart(groupable, calls);
    } else {
      ReplayPrefix(groupable, calls, k - 1);
      Later(groupable, calls, k - 1);
      RunSnoc(groupable, calls, k);
      var s := Run(groupable, calls[..k - 1]).value;
      var start := AddExternals(INITIAL, all).value;
      var t := ReplayOps(groupable, start, SerializeOps(s.serialized)).value;
      var call := calls[k - 1];
      assert Carried(call) by { ReplayableAt(calls, k - 1); }
      RebuiltStep(groupable, s, t, all, call);
      if call.Operator? {
        SerializeSnoc(s.serialized, call.def);
        ReplaySnoc(groupable, start, SerializeOps(s.serialized), SerializeOp(call.def));
        CarriedMessage(groupable, t, call.def);
      }
    }
  }

  lemma ReplayableAt(calls: seq<Call>, k: nat)
    requires k < |calls| && Replayable(calls)
    ensures Carried(calls[k])
  {
  }

  lemma ReplayStart(groupable: set<string>, calls: seq<Call>)
    requires Run(groupable, calls).Ok?
    ensures var all := Run(groupable, calls).value.externals;
            && AddExternals(INITIAL, all).Ok? && Run(groupable, calls[..0]) == Ok(INITIAL)
            && var t := ReplayOps(groupable, AddExternals(INITIAL, all).value, SerializeOps(INITIAL.serialized));
               t.Ok? && Rebuilt(INITIAL, t.value, all)
  {
    ExternalsDistinct(groupable, calls);
    hide Run, Ahead;
    ExternalsDeclared(Run(groupable, calls).value.externals);
    ExternalIds(Run(groupable, calls).value.externals);
  }

  // ---- a run the message cannot carry ---------------------------------------------------------------------

  lemma {:induction false} ReplayFailsEarly(groupable: set<string>, s: State, msgs: seq<OpMessage>, k: nat)
    requires k <= |msgs| && ReplayOps(groupable, s, msgs[..k]).Err?
    ensures ReplayOps(groupable, s, msgs).Err?
  {
    if k == |msgs| {
      assert msgs[..k] == msgs;
    } else {
      var init := msgs[..|msgs| - 1];
      assert init[..k] == msgs[..k];
      ReplayFailsEarly(groupable, s, init, k);
    }
  }

  lemma FirstOutputExists(groupable: set<string>, s: State, def: OpDefinition)
    requires AddOperator(groupable, s, def).Ok? && !Splits(def.spec) && def.spec.outputs != []
    ensures def.spec.outputs[0].name !in s.edges && def.spec.outputs[0].name in AddOperator(groupable, s, def).value.edges
  {
    var s0 := AddOperatorUnfold(groupable, s, def);
    hide AddOperator;
    var t, renamed, u := AddPlainUnfold(groupable, s0, def);
    SetupInputsKeys(groupable, s0, def.spec.device, def.spec.inputs);
    AddOutputsMeaning(t, def.spec.device, def.spec.outputs);
  }

  // Once a decoder was split, its CPU stage cannot be added again.
  lemma StageAddedOnce(groupable: set<string>, s: State, def: OpDefinition)
    requires AddOperator(groupable, s, Filter(def)).Ok? && Splits(def.spec) && def.spec.outputs != []
    ensures AddOperator(groupable, AddOperator(groupable, s, Filter(def)).value,
                        Filter(def.(spec := CpuStage(def.spec, def.instName)))).Err?
  {
    var first := Filter(def);
    var cpu := Filter(def.(spec := CpuStage(def.spec, def.instName)));
    FilterKeepsSplits(def.spec);
    StagesDoNotSplit(def.spec, def.instName);
    FilterKeepsSplits(CpuStage(def.spec, def.instName));
    hide AddOperator;
    var s0, s1 := AddSplitUnfold(groupable, s, first);
    var stage := first.(spec := CpuStage(first.spec, first.instName));
    assert stage.spec.outputs == cpu.spec.outputs;
    FirstOutputExists(groupable, s0, stage);
    var gpu := OpDefinition(def.instName + "_gpu", GpuStage(first.spec, def.instName), s1.nextLogicalId);
    UnsplitKeys(groupable, s1.(nextLogicalId := s1.nextLogicalId + 1), gpu);
    if AddOperator(groupable, AddOperator(groupable, s, first).value, cpu).Ok? {
      FirstOutputExists(groupable, AddOperator(groupable, s, first).value, cpu);
      assert false;
    }
  }

  lemma BlankFails(groupable: set<string>, start: State, msgs: seq<OpMessage>, k: nat)
    requires k < |msgs| && msgs[k] == Blank
    ensures ReplayOps(groupable, start, msgs).Err?
  {
    hide *;
    assert msgs[..k + 1] == msgs[..k] + [Blank];
    ReplaySnoc(groupable, start, msgs[..k], Blank);
    assert forall s :: ReplayOp(groupable, s, Blank).Err? by { BlankRefused(groupable); }
    ReplayFailsEarly(groupable, start, msgs, k + 1);
  }

  lemma BlankRefused(groupable: set<string>)
    ensures forall s :: ReplayOp(groupable, s, Blank).Err?
  {
  }

  lemma SplitFails(groupable: set<string>, start: State, msgs: seq<OpMessage>, k: nat, def: OpDefinition)
    requires k + 1 < |msgs| && Splits(def.spec) && def.spec.outputs != []
    requires msgs[k] == OpMessage(Filter(def))
    requires msgs[k + 1] == OpMessage(Filter(def.(spec := CpuStage(def.spec, def.instName))))
    ensures ReplayOps(groupable, start, msgs).Err?
  {
    hide Splits, Filter, CpuStage, AddOperator, ReplayOps;
    assert msgs[..k + 1] == msgs[..k] + [msgs[k]];
    assert msgs[..k + 2] == msgs[..k + 1] + [msgs[k + 1]];
    ReplaySnoc(groupable, start, msgs[..k], msgs[k]);
    ReplaySnoc(groupable, start, msgs[..k + 1], msgs[k + 1]);
    var t := ReplayOps(groupable, start, msgs[..k]);
    if t.Ok? && AddOperator(groupable, t.value, Filter(def)).Ok? {
      StageAddedOnce(groupable, t.value, def);
    }
    ReplayFailsEarly(groupable, start, msgs, k + 2);
  }

  lemma StageCarried(spec: OpSpec, instName: string)
    requires HasDecoderPrefix(spec.name) && spec.outputs != []
    ensures CpuStage(spec, instName).name != "ExternalSource" && spec.name != "ExternalSource"
  {
    assert CpuStage(spec, instName).name[0] == 'n';
    assert spec.name[0] == 'n' || spec.name[0] == 'I';
  }

  lemma NotCarriedFails(groupable: set<string>, s: State, call: Call, start: State)
    requires Step(groupable, s, call).Ok? && !Carried(call)
    ensures ReplayOps(groupable, start, SerializeOps(Step(groupable, s, call).value.serialized)).Err?
  {
    hide AddOperator, ReplayOps, Contains, CpuStage;
    var def, n := call.def, |s.serialized|;
    var msgs := SerializeOps(Step(groupable, s, call).value.serialized);
    if Splits(def.spec) {
      var gpu := SplitRecords(groupable, s, def);
      StageCarried(def.spec, def.instName);
      SplitFails(groupable, start, msgs, n, def);
    } else {
      UnsplitRecords(groupable, s, def);
      BlankFails(groupable, start, msgs, n);
    }
  }

  lemma NotReplayable(groupable: set<string>, calls: seq<Call>, k: nat, start: State)
    requires Run(groupable, calls).Ok? && k < |calls| && !Carried(calls[k])
    ensures ReplayOps(groupable, start, SerializeOps(Run(groupable, calls).value.serialized)).Err?
  {
    hide *;
    Later(groupable, calls, k + 1);
    RunSnoc(groupable, calls, k + 1);
    var s, t := Run(groupable, calls[..k + 1]).value, Run(groupable, calls).value;
    NotCarriedFails(groupable, Run(groupable, calls[..k]).value, calls[k], start);
    SerializePrefix(s.serialized, t.serialized);
    ReplayFailsEarly(groupable, start, SerializeOps(t.serialized), |s.serialized|);
  }

  lemma SerializePrefix(defs: seq<OpDefinition>, more: seq<OpDefinition>)
    requires defs <= more
    ensures |SerializeOps(more)| == |more| && SerializeOps(more)[..|defs|] == SerializeOps(defs)
  {
  }

  // ---- round trip ------------------------------------------------------------------------------------------

  /** A rebuilt pipeline is the original with those three arguments taken out; it serializes to the
      same message. Only the next free logical id may differ: it is the one after declaring all
      external inputs first. */
  ghost predicate SamePipeline(s: State, t: State) {
    && AllCarried(s.ops, t.ops) && AllCarried(s.serialized, t.serialized) && t.edges == s.edges && t.externals == s.externals
    && SameGroups(s, t) && t.nextInternalId == s.nextInternalId
    && t.nextLogicalId == IdsThrough(|s.externals|, s.serialized)
  }

  lemma RebuiltWhole(s: State, t: State)
    requires Rebuilt(s, t, s.externals)
    ensures SamePipeline(s, t)
    ensures SerializeOps(t.serialized) == SerializeOps(s.serialized)
  {
    FilterCarries(s.ops);
    FilterCarries(s.serialized);
    hide Carries;
    assert Pending(s.externals, |s.externals|) == {};
    assert t.edges.Keys == s.edges.Keys;
    forall i | 0 <= i < |s.serialized| ensures SerializeOps(t.serialized)[i] == SerializeOps(s.serialized)[i] {
      var args := s.serialized[i].spec.args;
      assert args - FILTERED_ARGS - FILTERED_ARGS == args - FILTERED_ARGS;
    }
  }

  /** The message of an accepted run can be rebuilt exactly when no decoder was split and no operator
      is an explicit external source. The rebuilt pipeline is then the original one. */
  lemma SerializeRoundTrip(groupable: set<string>, calls: seq<Call>, outputs: seq<Tensor>)
    requires Run(groupable, calls).Ok?
    ensures var s := Run(groupable, calls).value;
            var r := Deserialize(groupable, Serialize(s, outputs));
            && (r.Ok? <==> Replayable(calls))
            && (r.Ok? ==> r.value.1 == outputs && SamePipeline(s, r.value.0)
                          && Serialize(r.value.0, r.value.1) == Serialize(s, outputs))
  {
    hide Run, Carried, AddExternals, ReplayOps, SerializeOps, SamePipeline, Rebuilt;
    var s := Run(groupable, calls).value;
    ReplayStart(groupable, calls);
    var start := AddExternals(INITIAL, s.externals).value;
    if Replayable(calls) {
      ReplayPrefix(groupable, calls, |calls|);
      assert calls[..|calls|] == calls;
      var t := ReplayOps(groupable, start, SerializeOps(s.serialized)).value;
      RebuiltWhole(s, t);
      assert t.externals == s.externals by { RebuiltExternals(s, t); }
    } else {
      var k :| 0 <= k < |calls| && !Carried(calls[k]);
      NotReplayable(groupable, calls, k, start);
    }
  }

  lemma RebuiltExternals(s: State, t: State)
    requires SamePipeline(s, t)
    ensures t.externals == s.externals
  {
  }

  lemma {:induction false} HostInputsPass(groupable: set<string>, s: State, device: OpDevice, inputs: seq<Tensor>)
    requires device == CpuOp || device == MixedOp
    requires HostInputs(s, inputs)
    ensures SetupInputs(groupable, s, device, inputs) == Ok((s, inputs))
    decreases |inputs|
  {
    if inputs != [] {
      HostInputsPass(groupable, s, device, inputs[1..]);
      assert [inputs[0]] + inputs[1..] == inputs;
    }
  }

  lemma HostOperatorAccepted(groupable: set<string>, s: State, def: OpDefinition)
    requires def.spec.device == CpuOp || def.spec.device == MixedOp
    requires !Splits(def.spec) && def.logicalId >= 0 && Group(s, def.logicalId) == [] && def.spec.argInputs == []
    requires HostInputs(s, def.spec.inputs)
    requires AddOutputs(s, def.spec.device, def.spec.outputs).Ok?
    ensures AddOperator(groupable, s, def).Ok?
    ensures var t := AddOperator(groupable, s, def).value;
            && t.edges == AddOutputs(s, def.spec.device, def.spec.outputs).value.edges
            && t.logicalIds == s.logicalIds[def.logicalId := [|s.ops|]]
            && t.nextLogicalId == if def.logicalId > s.nextLogicalId then def.logicalId + 1 else s.nextLogicalId
  {
    var next := if def.logicalId > s.nextLogicalId then def.logicalId + 1 else s.nextLogicalId;
    var s0 := s.(nextLogicalId := next, serialized := s.serialized + [def]);
    HostInputsPass(groupable, s0, def.spec.device, def.spec.inputs);
    AddOutputsOfEdges(s, s0, def.spec.device, def.spec.outputs);
    assert Group(s, def.logicalId) + [|s.ops|] == [|s.ops|];
  }

  lemma {:induction false} AddOutputsOfEdges(s: State, t: State, device: OpDevice, outputs: seq<Tensor>)
    requires s.edges == t.edges && AddOutputs(s, device, outputs).Ok?
    ensures AddOutputs(t, device, outputs) == Ok(t.(edges := AddOutputs(s, device, outputs).value.edges))
    decreases |outputs|
  {
    if outputs != [] {
      AddOutputsOfEdges(AddOutput(s, device, outputs[0]).value, AddOutput(t, device, outputs[0]).value, device, outputs[1..]);
    }
  }

  lemma DecoderSplits(spec: OpSpec)
    requires spec.name == "ImageDecoder" && spec.device == MixedOp && spec.args == map["split_stages" := "true"]
    ensures Splits(spec)
  {
    forall i | 0 <= i <= |spec.name| ensures !("CPUStage" <= spec.name[i..]) && !("GPUStage" <= spec.name[i..]) {
      if i < |spec.name| {
        assert spec.name[i..][0] == spec.name[i] && spec.name[i] != 'C' && spec.name[i] != 'G';
      }
    }
  }

  lemma ThreeOutputs(s: State, a: Tensor, b: Tensor, c: Tensor)
    requires a.storage == OnCpu && b.storage == OnCpu && c.storage == OnCpu
    requires a.name != b.name && a.name != c.name && b.name != c.name
    requires a.name !in s.edges && b.name !in s.edges && c.name !in s.edges
    ensures AddOutputs(s, CpuOp, [a, b, c]).Ok?
    ensures AddOutputs(s, CpuOp, [a, b, c]).value.edges ==
            s.edges[a.name := NewEdge(CpuOp, OnCpu)][b.name := NewEdge(CpuOp, OnCpu)][c.name := NewEdge(CpuOp, OnCpu)]
  {
    assert [a, b, c][1..] == [b, c] && [b, c][1..] == [c] && [c][1..] == [];
    var s1 := s.(edges := s.edges[a.name := NewEdge(CpuOp, OnCpu)]);
    var s2 := s1.(edges := s1.edges[b.name := NewEdge(CpuOp, OnCpu)]);
    assert AddOutputs(s, CpuOp, [a, b, c]) == AddOutputs(s1, CpuOp, [b, c]);
    assert AddOutputs(s1, CpuOp, [b, c]) == AddOutputs(s2, CpuOp, [c]);
    var s3 := s2.(edges := s2.edges[c.name := NewEdge(CpuOp, OnCpu)]);
    assert AddOutputs(s2, CpuOp, [c]) == AddOutputs(s3, CpuOp, []);
  }

  predicate HostInputs(s: State, inputs: seq<Tensor>) {
    forall t :: t in inputs ==> t.storage == OnCpu && t.name in s.edges && s.edges[t.name].hasCpu && !s.edges[t.name].isSupport
  }

  lemma StageNames(spec: OpSpec, instName: string, stream: string) returns (a: Tensor, b: Tensor, c: Tensor)
    requires HasDecoderPrefix(spec.name) && |spec.outputs| == 1 && stream == CpuStageName(spec) + instName
    ensures [a, b, c] == [Tensor(stream + "0", OnCpu), Tensor(stream + "1", OnCpu), Tensor(stream + "2", OnCpu)]
    ensures a.name != b.name && a.name != c.name && b.name != c.name
    ensures CpuStage(spec, instName) == spec.(name := CpuStageName(spec), device := CpuOp, outputs := [a, b, c])
    ensures GpuStage(spec, instName).device == MixedOp && GpuStage(spec, instName).inputs == [a, b, c]
    ensures GpuStage(spec, instName).argInputs == []
    ensures GpuStage(spec, instName).outputs == [Tensor(spec.outputs[0].name, OnGpu)]
  {
    hide CpuStageName;
    a, b, c := Tensor(stream + "0", OnCpu), Tensor(stream + "1", OnCpu), Tensor(stream + "2", OnCpu);
    assert a.name[|stream|] == '0' && b.name[|stream|] == '1' && c.name[|stream|] == '2';
    assert CpuStage(spec, instName).outputs == [a, b, c];
  }

  // A decoder with one output and host inputs splits in two accepted operators.
  lemma SplitAccepted(groupable: set<string>, s: State, def: OpDefinition, stream: string)
    requires Splits(def.spec) && stream == CpuStageName(def.spec) + def.instName
    requires |def.spec.outputs| == 1 && def.spec.argInputs == [] && HostInputs(s, def.spec.inputs)
    requires 0 <= s.nextLogicalId < def.logicalId && Group(s, def.logicalId) == [] && Group(s, def.logicalId + 1) == []
    requires stream + "0" !in s.edges && stream + "1" !in s.edges && stream + "2" !in s.edges
    requires def.spec.outputs[0].name !in s.edges
    requires def.spec.outputs[0].name !in {stream + "0", stream + "1", stream + "2"}
    ensures AddOperator(groupable, s, def).Ok?
  {
    hide AddOperator, CpuStage, GpuStage, CpuStageName, Contains;
    StagesDoNotSplit(def.spec, def.instName);
    var s0 := s.(nextLogicalId := def.logicalId + 1, serialized := s.serialized + [def]);
    var cpu := def.(spec := CpuStage(def.spec, def.instName));
    var a, b, c := StageNames(def.spec, def.instName, stream);
    ThreeOutputs(s0, a, b, c);
    HostOperatorAccepted(groupable, s0, cpu);
    hide AddOutputs;
    var s1 := AddOperator(groupable, s0, cpu).value;
    StageReady(s0, s1.(nextLogicalId := s1.nextLogicalId + 1), a, b, c, def.spec.outputs[0].name);
    var gpu := OpDefinition(def.instName + "_gpu", GpuStage(def.spec, def.instName), s1.nextLogicalId);
    HostOperatorAccepted(groupable, s1.(nextLogicalId := s1.nextLogicalId + 1), gpu);
    SplitFold(groupable, s, def, s1);
  }

  // The streams of the cpu stage can be read, and the output of the other stage can be added.
  lemma StageReady(s: State, t: State, a: Tensor, b: Tensor, c: Tensor, output: string)
    requires t.edges == s.edges[a.name := NewEdge(CpuOp, OnCpu)][b.name := NewEdge(CpuOp, OnCpu)][c.name := NewEdge(CpuOp, OnCpu)]
    requires a.storage == OnCpu && b.storage == OnCpu && c.storage == OnCpu && output !in t.edges
    ensures HostInputs(t, [a, b, c]) && AddOutputs(t, MixedOp, [Tensor(output, OnGpu)]).Ok?
  {
    assert [Tensor(output, OnGpu)][1..] == [];
  }

  lemma SplitFold(groupable: set<string>, s: State, def: OpDefinition, s1: State)
    requires Splits(def.spec) && def.spec.outputs != [] && def.spec.argInputs == [] && 0 <= s.nextLogicalId < def.logicalId
    requires AddOperator(groupable, s.(nextLogicalId := def.logicalId + 1, serialized := s.serialized + [def]),
                         def.(spec := CpuStage(def.spec, def.instName))) == Ok(s1)
    ensures AddOperator(groupable, s, def) ==
            AddOperator(groupable, s1.(nextLogicalId := s1.nextLogicalId + 1),
                        OpDefinition(def.instName + "_gpu", GpuStage(def.spec, def.instName), s1.nextLogicalId))
  {
    hide CpuStage, GpuStage, AddPlain, Contains;
    StagesDoNotSplit(def.spec, def.instName);
  }

  /** A two-call pipeline that is accepted and cannot be rebuilt from its own message. */
  lemma SplitDecoderNotRebuilt(groupable: set<string>, spec: OpSpec, calls: seq<Call>, outputs: seq<Tensor>)
    requires spec == OpSpec("ImageDecoder", MixedOp, map["split_stages" := "true"], [Tensor("jpegs", OnCpu)], [],
                            [Tensor("images", OnGpu)])
    requires calls == [External("jpegs"), Operator(OpDefinition("decoder", spec, 2))]
    ensures Run(groupable, calls).Ok?
    ensures Deserialize(groupable, Serialize(Run(groupable, calls).value, outputs)).Err?
  {
    hide *;
    DecoderSplits(spec);
    var stream := StreamName(spec, "decoder");
    TwoCalls(groupable, "jpegs", calls[1].def);
    var s := AfterExternal("jpegs");
    assert HostInputs(s, spec.inputs) by { HostInput(s, spec.inputs, "jpegs"); }
    SplitAccepted(groupable, s, calls[1].def, stream);
    SerializeRoundTrip(groupable, calls, outputs);
    NotReplayableSplit(calls, 1);
  }

  lemma HostInput(s: State, inputs: seq<Tensor>, name: string)
    requires inputs == [Tensor(name, OnCpu)] && s.edges == map[name := EXTERNAL_EDGE]
    ensures HostInputs(s, inputs)
  {
  }

  lemma NotReplayableSplit(calls: seq<Call>, k: nat)
    requires k < |calls| && calls[k].Operator? && Splits(calls[k].def.spec)
    ensures !Replayable(calls)
  {
    assert !Carried(calls[k]);
  }

  lemma StreamName(spec: OpSpec, instName: string) returns (stream: string)
    requires HasDecoderPrefix(spec.name)
    ensures stream == CpuStageName(spec) + instName && |stream| > 0 && stream[0] == 'n'
    ensures (stream + "0")[0] == 'n' && (stream + "1")[0] == 'n' && (stream + "2")[0] == 'n'
  {
    stream := CpuStageName(spec) + instName;
  }

  lemma AfterExternal(name: string) returns (s: State)
    ensures AddExternalInput(INITIAL, name) == Ok(s)
    ensures s.edges == map[name := EXTERNAL_EDGE] && s.nextLogicalId == 1 && forall id :: Group(s, id) == []
  {
    s := AddExternalInput(INITIAL, name).value;
  }

  lemma TwoCalls(groupable: set<string>, name: string, def: OpDefinition)
    ensures AddExternalInput(INITIAL, name).Ok?
    ensures Run(groupable, [External(name), Operator(def)]) == AddOperator(groupable, AddExternalInput(INITIAL, name).value, def)
  {
    hide AddOperator;
    assert [External(name), Operator(def)][..1] == [External(name)];
    assert [External(name)][..0] == [];
    assert Run(groupable, [External(name)]) == AddExternalInput(INITIAL, name);
  }
}
