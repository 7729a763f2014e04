/** Logical ids over whole runs of pipeline construction: the id table, operator groups and the
    internal ids of inserted copies. */
module PipelineIds {
  import opened PipelineState
  import opened PipelineInvariant

  // Positions of the operators with a given id, in order.
  function Positions(ops: seq<OpDefinition>, id: int): seq<nat> {
    if ops == [] then []
    else
      var n := |ops| - 1;
      if ops[n].logicalId == id then Positions(ops[..n], id) + [n] else Positions(ops[..n], id)
  }

  lemma {:induction false} PositionsSound(ops: seq<OpDefinition>, id: int)
    ensures forall k :: 0 <= k < |Positions(ops, id)| ==>
              Positions(ops, id)[k] < |ops| && ops[Positions(ops, id)[k]].logicalId == id
    ensures forall i :: 0 <= i < |ops| && ops[i].logicalId == id ==> i in Positions(ops, id)
  {
    if ops != [] {
      PositionsSound(ops[..|ops| - 1], id);
      assert forall i :: 0 <= i < |ops| - 1 ==> ops[i] == ops[..|ops| - 1][i];
    }
  }

  lemma {:induction false} NoPositions(ops: seq<OpDefinition>, id: int)
    requires forall i :: 0 <= i < |ops| ==> ops[i].logicalId != id
    ensures Positions(ops, id) == []
  {
    if ops != [] {
      NoPositions(ops[..|ops| - 1], id);
    }
  }

  lemma PositionsPush(ops: seq<OpDefinition>, def: OpDefinition, id: int)
    ensures Positions(ops + [def], id)
            == if def.logicalId == id then Positions(ops, id) + [|ops|] else Positions(ops, id)
  {
    assert (ops + [def])[..|ops|] == ops;
  }

  // Operators that share an id are instances of one operator.
  ghost predicate OneName(ops: seq<OpDefinition>) {
    forall i, j :: 0 <= i < j < |ops| && ops[i].logicalId == ops[j].logicalId ==> ops[i].spec.name == ops[j].spec.name
  }

  // Copies carry distinct negative ids, all above the next one to be given out.
  ghost predicate InternalIds(ops: seq<OpDefinition>, next: int) {
    && next < 0
    && (forall i :: 0 <= i < |ops| ==> ops[i].logicalId > next)
    && (forall i, j :: 0 <= i < j < |ops| && ops[i].logicalId < 0 ==> ops[i].logicalId != ops[j].logicalId)
  }

  ghost predicate TableExact(s: State) {
    forall id :: Group(s, id) == Positions(s.ops, id)
  }

  ghost predicate IdsExact(s: State) {
    TableExact(s) && OneName(s.ops) && InternalIds(s.ops, s.nextInternalId) && s.nextLogicalId >= 0
  }

  lemma PushId(groupable: set<string>, s: State, def: OpDefinition)
    requires TableExact(s) && OneName(s.ops) && AddToOpSpecs(groupable, s, def).Ok?
    ensures var t := AddToOpSpecs(groupable, s, def).value;
            TableExact(t) && OneName(t.ops) && t.ops == s.ops + [def]
  {
    var t := AddToOpSpecs(groupable, s, def).value;
    forall id ensures Group(t, id) == Positions(t.ops, id) {
      PositionsPush(s.ops, def, id);
      assert Group(s, id) == Positions(s.ops, id);
    }
    PositionsSound(s.ops, def.logicalId);
    hide Positions;
    var group := Group(s, def.logicalId);
    assert group == Positions(s.ops, def.logicalId);
    forall i | 0 <= i < |s.ops| && s.ops[i].logicalId == def.logicalId ensures s.ops[i].spec.name == def.spec.name {
      assert i in group && group != [] && group[0] < |s.ops| && s.ops[group[0]].logicalId == def.logicalId;
    }
  }

  // Inserting a copy is never refused.
  lemma CopyId(groupable: set<string>, s: State, edge: string, prefix: string, target: Tensor)
    requires IdsExact(s)
    ensures InsertCopy(groupable, s, edge, prefix, target).Ok?
    ensures IdsExact(InsertCopy(groupable, s, edge, prefix, target).value)
  {
    var s1 := s.(nextInternalId := s.nextInternalId - 1);
    var def := OpDefinition(prefix + edge, CopySpec(edge, target), s.nextInternalId);
    NoPositions(s.ops, def.logicalId);
    assert Group(s1, def.logicalId) == Group(s, def.logicalId) == Positions(s.ops, def.logicalId);
    assert TableExact(s1) by { assert forall id :: Group(s1, id) == Group(s, id) == Positions(s.ops, id); }
    hide Positions, CopySpec;
    PushId(groupable, s1, def);
  }

  lemma SetupInputIds(groupable: set<string>, s: State, device: OpDevice, input: Tensor)
    requires IdsExact(s) && SetupInput(groupable, s, device, input).Ok?
    ensures IdsExact(SetupInput(groupable, s, device, input).value.0)
  {
    hide InsertCopy;
    CopyId(groupable, s, input.name, "__MakeContiguous_", Tensor(Contiguous(input.name), OnCpu));
    CopyId(groupable, s, input.name, "__Copy_", Tensor(input.name, OnGpu));
    SameIds(s, SetupInput(groupable, s, device, input).value.0);
    if device == GpuOp {
      if input.storage == OnCpu {
        if !s.edges[input.name].hasContiguous {
          SameIds(InsertCopy(groupable, s, input.name, "__MakeContiguous_", Tensor(Contiguous(input.name), OnCpu)).value,
                  SetupInput(groupable, s, device, input).value.0);
        }
      } else if !s.edges[input.name].hasGpu {
        SameIds(InsertCopy(groupable, s, input.name, "__Copy_", Tensor(input.name, OnGpu)).value,
                SetupInput(groupable, s, device, input).value.0);
      }
    }
  }

  lemma SameIds(s: State, t: State)
    ensures t == s.(edges := t.edges, serialized := t.serialized) && IdsExact(s) ==> IdsExact(t)
  {
    if t == s.(edges := t.edges, serialized := t.serialized) && IdsExact(s) {
      assert forall id :: Group(t, id) == Group(s, id) == Positions(s.ops, id);
    }
  }

  lemma {:induction false} SetupInputsIds(groupable: set<string>, s: State, device: OpDevice, inputs: seq<Tensor>)
    requires IdsExact(s) && SetupInputs(groupable, s, device, inputs).Ok?
    ensures IdsExact(SetupInputs(groupable, s, device, inputs).value.0)
    decreases |inputs|
  {
    if inputs != [] {
      hide *;
      var t, first, u, rest := SetupInputsUnfold(groupable, s, device, inputs);
      SetupInputIds(groupable, s, device, inputs[0]);
      SetupInputsIds(groupable, t, device, inputs[1..]);
    }
  }

  lemma AddPlainIds(groupable: set<string>, s: State, def: OpDefinition)
    requires IdsExact(s) && def.logicalId >= 0 && AddPlain(groupable, s, def).Ok?
    ensures IdsExact(AddPlain(groupable, s, def).value)
  {
    var spec := def.spec;
    var (t, renamed) := SetupInputs(groupable, s, spec.device, spec.inputs).value;
    var t2 := AddOutputs(t, spec.device, spec.outputs).value;
    var def' := def.(spec := spec.(inputs := renamed));
    assert AddPlain(groupable, s, def) == AddToOpSpecs(groupable, t2, def');
    hide AddPlain, SetupInputs, AddOutputs, Positions;
    SetupInputsIds(groupable, s, spec.device, spec.inputs);
    AddOutputsMeaning(t, spec.device, spec.outputs);
    SameIds(t, t2);
    PushId(groupable, t2, def');
  }

  lemma UnsplitIds(groupable: set<string>, s: State, def: OpDefinition)
    requires IdsExact(s) && AddOperator(groupable, s, def).Ok? && !Splits(def.spec)
    ensures IdsExact(AddOperator(groupable, s, def).value)
  {
    var s0 := AddOperatorUnfold(groupable, s, def);
    hide AddPlain, AddOperator, Splits, Positions;
    assert IdsExact(s0) by { assert forall id :: Group(s0, id) == Group(s, id) == Positions(s.ops, id); }
    AddPlainIds(groupable, s0, def);
  }

  lemma StepIds(groupable: set<string>, s: State, call: Call)
    requires IdsExact(s) && Step(groupable, s, call).Ok?
    ensures IdsExact(Step(groupable, s, call).value)
  {
    if call.External? {
      var t := AddExternalInput(s, call.name).value;
      assert forall id :: Group(t, id) == Group(s, id) == Positions(s.ops, id);
    } else if Splits(call.def.spec) {
      hide AddOperator, Contains, Positions;
      var def := call.def;
      var s0, s1 := AddSplitUnfold(groupable, s, def);
      assert IdsExact(s0) by { assert forall id :: Group(s0, id) == Group(s, id) == Positions(s.ops, id); }
      UnsplitIds(groupable, s0, def.(spec := CpuStage(def.spec, def.instName)));
      var s2 := s1.(nextLogicalId := s1.nextLogicalId + 1);
      assert IdsExact(s2) by { assert forall id :: Group(s2, id) == Group(s1, id) == Positions(s1.ops, id); }
      UnsplitIds(groupable, s2, OpDefinition(def.instName + "_gpu", GpuStage(def.spec, def.instName), s1.nextLogicalId));
    } else {
      UnsplitIds(groupable, s, call.def);
    }
  }

  /** Over every accepted run: the id table lists, for each logical id, exactly the positions of
      the operators that carry it, in order; operators that share an id have one name; and the
      inserted copies carry distinct negative ids. */
  lemma {:induction false} RunIds(groupable: set<string>, calls: seq<Call>)
    requires Run(groupable, calls).Ok?
    ensures IdsExact(Run(groupable, calls).value)
  {
    if calls == [] {
      assert forall id :: Group(INITIAL, id) == [];
    } else {
      hide Step, IdsExact;
      RunIds(groupable, calls[..|calls| - 1]);
      StepIds(groupable, Run(groupable, calls[..|calls| - 1]).value, calls[|calls| - 1]);
    }
  }
}
