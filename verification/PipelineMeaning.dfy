/** What a pipeline computes. Inserted copies, renamed inputs and split decoders do not change the
    value of any edge. */
module PipelineMeaning {
  import opened PipelineState
  import opened PipelineInvariant

  // What the meaning of an operator may depend on, besides the values it reads. Random operators
  // are seeded through their logical id.
  datatype OpCore = OpCore(name: string, device: OpDevice, args: map<string, string>, argNames: seq<string>, logicalId: int)

  function Core(def: OpDefinition): OpCore {
    OpCore(def.spec.name, def.spec.device, def.spec.args,
           seq(|def.spec.argInputs|, i requires 0 <= i < |def.spec.argInputs| => def.spec.argInputs[i].arg), def.logicalId)
  }

  // Operators are uninterpreted functions: (operator, inputs, argument inputs, output number).
  type Sem<!V> = (OpCore, seq<V>, seq<V>, nat) -> V

  // MakeContiguous copies.
  ghost predicate CopyLaw<V(!new)>(sem: Sem<V>) {
    forall core: OpCore, v: V :: core.name == "MakeContiguous" ==> sem(core, [v], [], 0) == v
  }

  // ---- evaluating a graph ------------------------------------------------------------------------

  function IndexOf<T(==)>(xs: seq<T>, x: T): (i: nat)
    requires x in xs
    ensures i < |xs| && xs[i] == x && forall k :: 0 <= k < i ==> xs[k] != x
  {
    if xs[0] == x then 0 else 1 + IndexOf(xs[1..], x)
  }

  ghost function InputValues<V>(env: map<Tensor, V>, spec: OpSpec): seq<V>
    requires Reads(spec) <= env.Keys
  {
    seq(|spec.inputs|, i requires 0 <= i < |spec.inputs| => assert spec.inputs[i] in Reads(spec); env[spec.inputs[i]])
  }

  ghost function ArgValues<V>(env: map<Tensor, V>, spec: OpSpec): seq<V>
    requires Reads(spec) <= env.Keys
  {
    seq(|spec.argInputs|, i requires 0 <= i < |spec.argInputs| =>
      assert Tensor(spec.argInputs[i].edge, OnCpu) in Reads(spec); env[Tensor(spec.argInputs[i].edge, OnCpu)])
  }

  ghost function Results<V>(sem: Sem<V>, env: map<Tensor, V>, def: OpDefinition): (r: map<Tensor, V>)
    requires Reads(def.spec) <= env.Keys
    ensures r.Keys == Writes(def.spec)
  {
    map t | t in Writes(def.spec) ::
      sem(Core(def), InputValues(env, def.spec), ArgValues(env, def.spec), IndexOf(def.spec.outputs, t))
  }

  // Values of all tensors once the operators have run in order.
  ghost function Eval<V>(sem: Sem<V>, env: map<Tensor, V>, ops: seq<OpDefinition>): (r: map<Tensor, V>)
    requires WellPlaced(env.Keys, ops)
    ensures r.Keys == Available(env.Keys, ops)
  {
    if ops == [] then env
    else
      var front := Eval(sem, env, ops[..|ops| - 1]);
      front + Results(sem, front, ops[|ops| - 1])
  }

  ghost function ExternalValues<V>(inputs: string -> V, externals: seq<string>): (r: map<Tensor, V>)
    ensures r.Keys == Base(externals)
  {
    map t | t in Base(externals) :: inputs(t.name)
  }

  // Values of all tensors when the graph starts with the external inputs X.
  ghost function ValuesIn<V>(sem: Sem<V>, inputs: string -> V, X: seq<string>, ops: seq<OpDefinition>): (r: map<Tensor, V>)
    requires WellPlaced(Base(X), ops)
    ensures r.Keys == Available(Base(X), ops)
  {
    Eval(sem, ExternalValues(inputs, X), ops)
  }

  ghost function Values<V>(sem: Sem<V>, inputs: string -> V, s: State): (r: map<Tensor, V>)
    requires Placed(s)
    ensures r.Keys == AllTensors(s)
  {
    ValuesIn(sem, inputs, s.externals, s.ops)
  }

  lemma EvalPush<V>(sem: Sem<V>, env: map<Tensor, V>, ops: seq<OpDefinition>, def: OpDefinition)
    requires WellPlaced(env.Keys, ops + [def])
    ensures WellPlaced(env.Keys, ops) && Reads(def.spec) <= Available(env.Keys, ops)
    ensures Eval(sem, env, ops + [def]) == Eval(sem, env, ops) + Results(sem, Eval(sem, env, ops), def)
  {
    AvailablePush(env.Keys, ops, def);
    assert (ops + [def])[..|ops|] == ops;
  }

  // ---- evaluating by edge name -------------------------------------------------------------------

  predicate KnownEdges(known: set<string>, spec: OpSpec) {
    && (forall t :: t in spec.inputs ==> t.name in known)
    && (forall a :: a in spec.argInputs ==> a.edge in known)
  }

  function OutputNames(spec: OpSpec): seq<string> {
    seq(|spec.outputs|, i requires 0 <= i < |spec.outputs| => spec.outputs[i].name)
  }

  ghost function EdgeInputs<V>(env: map<string, V>, spec: OpSpec): (r: seq<V>)
    requires KnownEdges(env.Keys, spec)
    ensures |r| == |spec.inputs|
  {
    seq(|spec.inputs|, i requires 0 <= i < |spec.inputs| => env[spec.inputs[i].name])
  }

  ghost function EdgeArgs<V>(env: map<string, V>, spec: OpSpec): (r: seq<V>)
    requires KnownEdges(env.Keys, spec)
    ensures |r| == |spec.argInputs|
  {
    seq(|spec.argInputs|, i requires 0 <= i < |spec.argInputs| => env[spec.argInputs[i].edge])
  }

  /** The direct meaning of an operator: it reads edges and writes edges; where they live does
      not matter. */
  ghost function Direct<V>(sem: Sem<V>, env: map<string, V>, def: OpDefinition): (r: map<string, V>)
    requires KnownEdges(env.Keys, def.spec)
  {
    env + map n | n in OutputNames(def.spec) ::
      sem(Core(def), EdgeInputs(env, def.spec), EdgeArgs(env, def.spec), IndexOf(OutputNames(def.spec), n))
  }

  // ---- values are final ---------------------------------------------------------------------------

  ghost predicate Holds<V>(values: map<Tensor, V>, t: Tensor, v: V) {
    t in values && values[t] == v
  }

  ghost predicate Grows<V>(values: map<Tensor, V>, more: map<Tensor, V>) {
    forall t :: t in values ==> Holds(more, t, values[t])
  }

  lemma ValuesPush<V>(sem: Sem<V>, inputs: string -> V, X: seq<string>, ops: seq<OpDefinition>, def: OpDefinition)
    requires WellPlaced(Base(X), ops + [def])
    ensures WellPlaced(Base(X), ops) && Reads(def.spec) <= Available(Base(X), ops)
    ensures var before := ValuesIn(sem, inputs, X, ops);
            var after := ValuesIn(sem, inputs, X, ops + [def]);
            && after == before + Results(sem, before, def) && Grows(before, after)
  {
    AvailablePush(Base(X), ops, def);
    EvalPush(sem, ExternalValues(inputs, X), ops, def);
    hide Available, WellPlaced, Eval, Reads;
  }

  lemma {:induction false} PlacedPrefix(base: set<Tensor>, ops: seq<OpDefinition>, all: seq<OpDefinition>)
    requires ops <= all && WellPlaced(base, all)
    ensures WellPlaced(base, ops)
    decreases |all|
  {
    if |ops| == |all| {
      assert ops == all;
    } else {
      PlacedPrefix(base, ops, all[..|all| - 1]);
    }
  }

  lemma {:induction false} ValuesPrefix<V>(sem: Sem<V>, inputs: string -> V, X: seq<string>, ops: seq<OpDefinition>, all: seq<OpDefinition>)
    requires ops <= all && WellPlaced(Base(X), all)
    ensures WellPlaced(Base(X), ops) && Grows(ValuesIn(sem, inputs, X, ops), ValuesIn(sem, inputs, X, all))
    decreases |all|
  {
    if |ops| == |all| {
      assert ops == all;
    } else {
      var front, last := all[..|all| - 1], all[|all| - 1];
      assert all == front + [last];
      hide WellPlaced, Available, ValuesIn;
      ValuesPush(sem, inputs, X, front, last);
      ValuesPrefix(sem, inputs, X, ops, front);
    }
  }

  lemma ExternalValue<V>(sem: Sem<V>, inputs: string -> V, X: seq<string>, ops: seq<OpDefinition>, name: string)
    requires WellPlaced(Base(X), ops) && name in X
    ensures Holds(ValuesIn(sem, inputs, X, ops), Tensor(name, OnCpu), inputs(name))
  {
    assert [] <= ops;
    assert ValuesIn(sem, inputs, X, []) == ExternalValues(inputs, X);
    assert Tensor(name, OnCpu) in Base(X);
    hide WellPlaced, ValuesIn;
    ValuesPrefix(sem, inputs, X, [], ops);
  }

  // ---- every version of an edge has the value of the edge -------------------------------------------

  ghost predicate AgreesAt<V>(edges: map<string, EdgeMeta>, born: set<string>, values: map<Tensor, V>, env: map<string, V>, e: string)
    requires e in edges && e in env
  {
    && (edges[e].hasCpu ==> Holds(values, Tensor(e, OnCpu), env[e]))
    && (edges[e].hasGpu ==> Holds(values, Tensor(e, OnGpu), env[e]))
    && (edges[e].hasContiguous && e !in born ==> Holds(values, Tensor(Contiguous(e), OnCpu), env[e]))
  }

  ghost predicate Agrees<V>(edges: map<string, EdgeMeta>, born: set<string>, values: map<Tensor, V>, env: map<string, V>) {
    env.Keys == edges.Keys && forall e :: e in edges ==> AgreesAt(edges, born, values, env, e)
  }

  ghost predicate Means<V>(sem: Sem<V>, inputs: string -> V, X: seq<string>, s: State, born: set<string>, env: map<string, V>) {
    WellPlaced(Base(X), s.ops) && Agrees(s.edges, born, ValuesIn(sem, inputs, X, s.ops), env)
  }

  lemma AgreesGrows<V>(edges: map<string, EdgeMeta>, born: set<string>, values: map<Tensor, V>, more: map<Tensor, V>, env: map<string, V>)
    requires Agrees(edges, born, values, env) && Grows(values, more)
    ensures Agrees(edges, born, more, env)
  {
    hide Contiguous;
    forall e | e in edges ensures AgreesAt(edges, born, more, env, e) {
      assert AgreesAt(edges, born, values, env, e);
    }
  }

  lemma MeansFacts<V>(sem: Sem<V>, inputs: string -> V, X: seq<string>, s: State, born: set<string>, env: map<string, V>)
    requires Means(sem, inputs, X, s, born, env)
    ensures WellPlaced(Base(X), s.ops) && env.Keys == s.edges.Keys && Agrees(s.edges, born, ValuesIn(sem, inputs, X, s.ops), env)
  {
  }

  lemma SameOpsMeans<V>(sem: Sem<V>, inputs: string -> V, X: seq<string>, s: State, t: State, born: set<string>, env: map<string, V>)
    requires t.ops == s.ops && t.edges == s.edges && Means(sem, inputs, X, s, born, env)
    ensures Means(sem, inputs, X, t, born, env)
  {
  }

  // ---- copies keep the meaning ---------------------------------------------------------------------

  lemma CopyValue<V(!new)>(sem: Sem<V>, env: map<Tensor, V>, def: OpDefinition, edge: string, target: Tensor)
    requires CopyLaw(sem) && def.spec == CopySpec(edge, target) && Tensor(edge, OnCpu) in env
    ensures Reads(def.spec) <= env.Keys
    ensures Results(sem, env, def) == map[target := env[Tensor(edge, OnCpu)]]
  {
    assert Reads(def.spec) == {Tensor(edge, OnCpu)} && Writes(def.spec) == {target};
    assert InputValues(env, def.spec) == [env[Tensor(edge, OnCpu)]] && ArgValues(env, def.spec) == [];
    assert IndexOf(def.spec.outputs, target) == 0;
    assert sem(Core(def), [env[Tensor(edge, OnCpu)]], [], 0) == env[Tensor(edge, OnCpu)];
  }

  lemma AgreesFlag<V>(edges: map<string, EdgeMeta>, born: set<string>, values: map<Tensor, V>, env: map<string, V>,
                      edge: string, target: Tensor, meta: EdgeMeta)
    requires Agrees(edges, born, values, env) && edge in edges && Holds(values, target, env[edge])
    requires (target == Tensor(edge, OnGpu) && meta == edges[edge].(hasGpu := true))
             || (target == Tensor(Contiguous(edge), OnCpu) && meta == edges[edge].(hasContiguous := true))
    ensures Agrees(edges[edge := meta], born, values, env)
  {
    hide Contiguous;
    forall e | e in edges ensures AgreesAt(edges[edge := meta], born, values, env, e) {
      assert AgreesAt(edges, born, values, env, e);
    }
  }

  lemma CopyMeans<V(!new)>(sem: Sem<V>, inputs: string -> V, X: seq<string>, s: State, t: State, born: set<string>,
                           env: map<string, V>, edge: string, target: Tensor, meta: EdgeMeta)
    requires CopyLaw(sem) && Means(sem, inputs, X, s, born, env) && Copies(s, t, edge, target, meta)
    requires edge in s.edges && s.edges[edge].hasCpu && WellPlaced(Base(X), t.ops)
    requires (target == Tensor(edge, OnGpu) && meta == s.edges[edge].(hasGpu := true))
             || (target == Tensor(Contiguous(edge), OnCpu) && meta == s.edges[edge].(hasContiguous := true))
    ensures Means(sem, inputs, X, t, born, env)
  {
    hide CopyLaw, WellPlaced, ValuesIn, Contiguous, CopySpec, Results, Base;
    var def := t.ops[|s.ops|];
    ValuesPush(sem, inputs, X, s.ops, def);
    var before, after := ValuesIn(sem, inputs, X, s.ops), ValuesIn(sem, inputs, X, t.ops);
    assert AgreesAt(s.edges, born, before, env, edge);
    CopyValue(sem, before, def, edge, target);
    AgreesGrows(s.edges, born, before, after, env);
    AgreesFlag(s.edges, born, after, env, edge, target, meta);
  }

  lemma SetupInputMeans<V(!new)>(groupable: set<string>, sem: Sem<V>, inputs: string -> V, X: seq<string>, s: State,
                                 born: set<string>, env: map<string, V>, device: OpDevice, input: Tensor)
    requires CopyLaw(sem) && Means(sem, inputs, X, s, born, env) && Flagged(s.edges, born)
    requires SetupInput(groupable, s, device, input).Ok? && WellPlaced(Base(X), SetupInput(groupable, s, device, input).value.0.ops)
    ensures Means(sem, inputs, X, SetupInput(groupable, s, device, input).value.0, born, env)
  {
    hide CopyLaw, Means, SetupCpuInput, SetupGpuInput, WellPlaced, Contiguous, Copies;
    var e := input.name;
    if device == GpuOp {
      if input.storage == OnCpu {
        SetupCpuUnfold(groupable, s, e);
        if !s.edges[e].hasContiguous {
          CopyMeans(sem, inputs, X, s, SetupCpuInput(groupable, s, e).value, born, env, e, Tensor(Contiguous(e), OnCpu),
                    s.edges[e].(hasContiguous := true));
        }
      } else {
        SetupGpuUnfold(groupable, s, e);
        if !s.edges[e].hasGpu {
          CopyMeans(sem, inputs, X, s, SetupGpuInput(groupable, s, e).value, born, env, e, Tensor(e, OnGpu),
                    s.edges[e].(hasGpu := true));
        }
      }
    }
  }

  lemma SetupInputPrefix(groupable: set<string>, s: State, device: OpDevice, input: Tensor)
    requires SetupInput(groupable, s, device, input).Ok?
    ensures s.ops <= SetupInput(groupable, s, device, input).value.0.ops
  {
  }

  lemma {:induction false} SetupInputsPrefix(groupable: set<string>, s: State, device: OpDevice, ins: seq<Tensor>)
    requires SetupInputs(groupable, s, device, ins).Ok?
    ensures s.ops <= SetupInputs(groupable, s, device, ins).value.0.ops
    decreases |ins|
  {
    hide SetupInput;
    if ins != [] {
      var t, first, u, rest := SetupInputsUnfold(groupable, s, device, ins);
      SetupInputPrefix(groupable, s, device, ins[0]);
      SetupInputsPrefix(groupable, t, device, ins[1..]);
    }
  }

  lemma {:induction false} SetupInputsMeans<V(!new)>(groupable: set<string>, sem: Sem<V>, inputs: string -> V, X: seq<string>,
      s: State, born: set<string>, env: map<string, V>, device: OpDevice, ins: seq<Tensor>)
    requires CopyLaw(sem) && Means(sem, inputs, X, s, born, env) && Coherent(s, born) && !device.OtherOp?
    requires SetupInputs(groupable, s, device, ins).Ok? && WellPlaced(Base(X), SetupInputs(groupable, s, device, ins).value.0.ops)
    ensures Means(sem, inputs, X, SetupInputs(groupable, s, device, ins).value.0, born, env)
    decreases |ins|
  {
    hide *;
    if ins == [] {
      NothingToSetUp(groupable, Base(X), s, device);
    } else {
      var t, first, u, rest := SetupInputsUnfold(groupable, s, device, ins);
      SetupInputKeeps(groupable, Base(s.externals), s, born, device, ins[0]);
      SetupInputsPrefix(groupable, t, device, ins[1..]);
      PlacedPrefix(Base(X), t.ops, u.ops);
      CoherentFlagged(s, born);
      SetupInputMeans(groupable, sem, inputs, X, s, born, env, device, ins[0]);
      SetupInputsMeans(groupable, sem, inputs, X, t, born, env, device, ins[1..]);
    }
  }

  lemma CoherentFlagged(s: State, born: set<string>)
    requires Coherent(s, born)
    ensures Flagged(s.edges, born)
  {
  }

  // ---- an operator means what it says ------------------------------------------------------------------

  // The cpu reads of edges born contiguous deliver the values of those edges.
  ghost predicate FedInput<V>(values: map<Tensor, V>, env: map<string, V>, device: OpDevice, born: set<string>, t: Tensor) {
    !GoodInput(device, t, born) ==> t.name in env && Holds(values, Tensor(Contiguous(t.name), OnCpu), env[t.name])
  }

  ghost predicate Fed<V>(values: map<Tensor, V>, env: map<string, V>, spec: OpSpec, born: set<string>) {
    forall t :: t in spec.inputs ==> FedInput(values, env, spec.device, born, t)
  }

  lemma ReadValue<V>(edges: map<string, EdgeMeta>, born: set<string>, values: map<Tensor, V>, env: map<string, V>,
                     device: OpDevice, t: Tensor)
    requires Agrees(edges, born, values, env) && Ready(edges, device, t) && FedInput(values, env, device, born, t)
    ensures t.name in env && Holds(values, Renamed(device, t), env[t.name])
  {
    assert AgreesAt(edges, born, values, env, t.name);
  }

  // The values an operator reads are those of the edges it names.
  lemma ReadsAgreeWith<V>(edges: map<string, EdgeMeta>, born: set<string>, values: map<Tensor, V>, env: map<string, V>,
                          spec: OpSpec, spec': OpSpec)
    requires Agrees(edges, born, values, env) && AllReady(edges, spec.device, spec.inputs) && Fed(values, env, spec, born)
    requires spec' == spec.(inputs := spec'.inputs) && RenamedFrom(edges, spec.device, spec.inputs, spec'.inputs)
    requires forall a :: a in spec.argInputs ==> a.edge in edges && edges[a.edge].hasCpu
    requires Reads(spec') <= values.Keys
    ensures KnownEdges(env.Keys, spec)
    ensures InputValues(values, spec') == EdgeInputs(env, spec) && ArgValues(values, spec') == EdgeArgs(env, spec)
  {
    hide Renamed, FedInput, Ready, AgreesAt;
    forall i | 0 <= i < |spec.inputs| ensures InputValues(values, spec')[i] == EdgeInputs(env, spec)[i] {
      assert spec'.inputs[i] in Reads(spec') && spec.inputs[i] in spec.inputs;
      ReadValue(edges, born, values, env, spec.device, spec.inputs[i]);
    }
    forall i | 0 <= i < |spec.argInputs| ensures ArgValues(values, spec')[i] == EdgeArgs(env, spec)[i] {
      assert Tensor(spec.argInputs[i].edge, OnCpu) in Reads(spec') && spec.argInputs[i] in spec.argInputs;
      ArgValue(edges, born, values, env, spec.argInputs[i].edge);
    }
  }

  lemma ArgValue<V>(edges: map<string, EdgeMeta>, born: set<string>, values: map<Tensor, V>, env: map<string, V>, e: string)
    requires Agrees(edges, born, values, env) && e in edges && edges[e].hasCpu
    ensures Holds(values, Tensor(e, OnCpu), env[e])
  {
    assert AgreesAt(edges, born, values, env, e);
  }

  lemma OutputIndex(spec: OpSpec, t: Tensor)
    requires t in spec.outputs
    requires forall i, j :: 0 <= i < j < |spec.outputs| ==> spec.outputs[i].name != spec.outputs[j].name
    ensures t.name in OutputNames(spec) && IndexOf(OutputNames(spec), t.name) == IndexOf(spec.outputs, t)
  {
    var i := IndexOf(spec.outputs, t);
    assert OutputNames(spec)[i] == t.name;
  }

  lemma WritesAgree<V>(sem: Sem<V>, values: map<Tensor, V>, env: map<string, V>, def: OpDefinition, def': OpDefinition, t: Tensor)
    requires def'.spec == def.spec.(inputs := def'.spec.inputs) && def'.logicalId == def.logicalId
    requires Reads(def'.spec) <= values.Keys && KnownEdges(env.Keys, def.spec) && t in def.spec.outputs
    requires InputValues(values, def'.spec) == EdgeInputs(env, def.spec)
    requires ArgValues(values, def'.spec) == EdgeArgs(env, def.spec)
    requires forall i, j :: 0 <= i < j < |def.spec.outputs| ==> def.spec.outputs[i].name != def.spec.outputs[j].name
    ensures t in Results(sem, values, def') && t.name in Direct(sem, env, def)
    ensures Results(sem, values, def')[t] == Direct(sem, env, def)[t.name]
  {
    OutputIndex(def.spec, t);
    assert Core(def') == Core(def);
    hide InputValues, ArgValues, EdgeInputs, EdgeArgs;
  }

  lemma DirectKeys<V>(sem: Sem<V>, env: map<string, V>, def: OpDefinition)
    requires KnownEdges(env.Keys, def.spec)
    ensures Direct(sem, env, def).Keys == env.Keys + (set t | t in def.spec.outputs :: t.name)
    ensures forall e :: e in env && (forall t :: t in def.spec.outputs ==> t.name != e) ==> Direct(sem, env, def)[e] == env[e]
  {
    assert forall n :: n in OutputNames(def.spec) <==> n in (set t | t in def.spec.outputs :: t.name) by {
      forall n | n in OutputNames(def.spec) ensures n in (set t | t in def.spec.outputs :: t.name) {
        var i :| 0 <= i < |def.spec.outputs| && OutputNames(def.spec)[i] == n;
        assert def.spec.outputs[i] in def.spec.outputs;
      }
      forall t | t in def.spec.outputs ensures t.name in OutputNames(def.spec) {
        var i :| 0 <= i < |def.spec.outputs| && def.spec.outputs[i] == t;
        assert OutputNames(def.spec)[i] == t.name;
      }
    }
  }

  lemma ExtendedKeys(edges: map<string, EdgeMeta>, edges': map<string, EdgeMeta>, spec: OpSpec)
    requires Extended(edges, edges', spec.device, spec.outputs)
    ensures edges'.Keys == edges.Keys + (set t | t in spec.outputs :: t.name)
  {
    forall e | e in edges' && e !in edges ensures e in (set t | t in spec.outputs :: t.name) {
      var i :| 0 <= i < |spec.outputs| && spec.outputs[i].name == e;
      assert spec.outputs[i] in spec.outputs;
    }
  }

  lemma AgreesOutputs<V>(edges: map<string, EdgeMeta>, edges': map<string, EdgeMeta>, born: set<string>, values: map<Tensor, V>,
                         env: map<string, V>, spec: OpSpec, env': map<string, V>)
    requires Agrees(edges, born, values, env) && born <= edges.Keys
    requires NewNames(edges, spec.outputs) && Extended(edges, edges', spec.device, spec.outputs)
    requires spec.device == SupportOp ==> forall i :: 0 <= i < |spec.outputs| ==> spec.outputs[i].storage == OnCpu
    requires edges'.Keys == env'.Keys && (forall e :: e in env ==> e in env' && env'[e] == env[e])
    requires forall x :: x in Writes(spec) ==> x.name in env' && Holds(values, x, env'[x.name])
    ensures Agrees(edges', born + Born(spec), values, env')
  {
    hide Contiguous, NewEdge;
    OutputKeys(edges, edges', spec);
    forall e | e in edges' ensures AgreesAt(edges', born + Born(spec), values, env', e) {
      if e in edges {
        assert AgreesAt(edges, born, values, env, e);
        assert e !in CpuOutputs(spec) + GpuOutputs(spec);
      } else {
        NewEdgeFlags(edges, edges', spec, e);
        CpuOutputWritten(spec, e);
        GpuOutputWritten(spec, e);
      }
    }
  }

  lemma GpuOutputWritten(spec: OpSpec, n: string)
    ensures n in GpuOutputs(spec) <==> Tensor(n, OnGpu) in Writes(spec)
  {
  }

  lemma PushMeans<V>(sem: Sem<V>, inputs: string -> V, X: seq<string>, t: State, u: State, born: set<string>,
                     def: OpDefinition, def': OpDefinition, env: map<string, V>)
    requires Means(sem, inputs, X, t, born, env) && born <= t.edges.Keys
    requires WellPlaced(Base(X), u.ops) && u.ops == t.ops + [def']
    requires def'.spec == def.spec.(inputs := def'.spec.inputs) && def'.logicalId == def.logicalId
    requires RenamedFrom(t.edges, def.spec.device, def.spec.inputs, def'.spec.inputs)
    requires AllReady(t.edges, def.spec.device, def.spec.inputs) && forall a :: a in def.spec.argInputs ==> ArgInputOk(t, a)
    requires WellPlaced(Base(X), t.ops) ==> Fed(ValuesIn(sem, inputs, X, t.ops), env, def.spec, born)
    requires NewNames(t.edges, def.spec.outputs) && Extended(t.edges, u.edges, def.spec.device, def.spec.outputs)
    requires def.spec.device == SupportOp ==> forall i :: 0 <= i < |def.spec.outputs| ==> def.spec.outputs[i].storage == OnCpu
    ensures KnownEdges(env.Keys, def.spec) && Means(sem, inputs, X, u, born + Born(def.spec), Direct(sem, env, def))
  {
    var spec := def.spec;
    ExtendedKeys(t.edges, u.edges, spec);
    NewNamesAnywhere(t.edges, spec.outputs);
    assert Writes(def'.spec) == Writes(spec);
    assert forall i, j :: 0 <= i < j < |spec.outputs| ==> spec.outputs[i].name != spec.outputs[j].name;
    hide WellPlaced, ValuesIn, Reads, Results, Direct, Contiguous, Extended, Agrees, InputValues, ArgValues,
         EdgeInputs, EdgeArgs, RenamedFrom, KnownEdges, NewNames, Core, Fed, AllReady, Born, NewEdge;
    ValuesPush(sem, inputs, X, t.ops, def');
    var before, after := ValuesIn(sem, inputs, X, t.ops), ValuesIn(sem, inputs, X, u.ops);
    MeansFacts(sem, inputs, X, t, born, env);
    ReadsAgreeWith(t.edges, born, before, env, spec, def'.spec);
    DirectKeys(sem, env, def);
    DirectKeepsOthers(sem, env, def);
    forall x | x in Writes(spec) ensures x.name in Direct(sem, env, def) && Holds(after, x, Direct(sem, env, def)[x.name]) {
      WritesAgree(sem, before, env, def, def', x);
    }
    AgreesGrows(t.edges, born, before, after, env);
    AgreesOutputs(t.edges, u.edges, born, after, env, spec, Direct(sem, env, def));
  }

  /** Adding an operator to a pipeline adds exactly the operator's direct meaning. */
  lemma AddPlainMeans<V(!new)>(groupable: set<string>, sem: Sem<V>, inputs: string -> V, X: seq<string>, s: State, born: set<string>,
                               env: map<string, V>, def: OpDefinition, ops: seq<OpDefinition>)
    requires CopyLaw(sem) && Means(sem, inputs, X, s, born, env) && Coherent(s, born) && !def.spec.device.OtherOp?
    requires AddPlain(groupable, s, def).Ok? && AddPlain(groupable, s, def).value.ops <= ops && WellPlaced(Base(X), ops)
    requires FedFinally(sem, inputs, X, ops, env, def.spec, born)
    ensures KnownEdges(env.Keys, def.spec)
    ensures Means(sem, inputs, X, AddPlain(groupable, s, def).value, born + Born(def.spec), Direct(sem, env, def))
  {
    hide *;
    var spec := def.spec;
    var t, renamed, t2 := AddPlainUnfold(groupable, s, def);
    var u := AddPlain(groupable, s, def).value;
    var def' := def.(spec := spec.(inputs := renamed));
    AddOutputsMeaning(t, spec.device, spec.outputs);
    assert u.ops == t.ops + [def'] && u.edges == t2.edges;
    PlacedPrefix(Base(X), u.ops, ops);
    PlacedPrefix(Base(X), t.ops, ops);
    SetupInputsKeeps(groupable, Base(s.externals), s, born, spec.device, spec.inputs);
    OnlyCopiesFacts(Base(s.externals), s, t);
    RenamedFromKeys(s.edges, t.edges, spec.device, spec.inputs, renamed);
    SetupInputsMeans(groupable, sem, inputs, X, s, born, env, spec.device, spec.inputs);
    CoherentFlagged(t, born);
    assert born <= t.edges.Keys by { FlaggedKeys(t.edges, born); }
    FedEarlier(sem, inputs, X, t.ops, ops, env, spec, born, def', t.edges);
    PushMeans(sem, inputs, X, t, u, born, def, def', env);
  }

  lemma FlaggedKeys(edges: map<string, EdgeMeta>, born: set<string>)
    requires Flagged(edges, born)
    ensures born <= edges.Keys
  {
  }

  // What the born reads of an operator deliver in the whole graph.
  ghost predicate FedFinally<V>(sem: Sem<V>, inputs: string -> V, X: seq<string>, ops: seq<OpDefinition>, env: map<string, V>,
                                spec: OpSpec, born: set<string>)
    requires WellPlaced(Base(X), ops)
  {
    Fed(ValuesIn(sem, inputs, X, ops), env, spec, born)
  }

  // They deliver it already when the operator runs.
  lemma FedEarlier<V>(sem: Sem<V>, inputs: string -> V, X: seq<string>, front: seq<OpDefinition>, ops: seq<OpDefinition>,
                      env: map<string, V>, spec: OpSpec, born: set<string>, def': OpDefinition, edges: map<string, EdgeMeta>)
    requires front + [def'] <= ops && WellPlaced(Base(X), ops) && FedFinally(sem, inputs, X, ops, env, spec, born)
    requires RenamedFrom(edges, spec.device, spec.inputs, def'.spec.inputs)
    ensures WellPlaced(Base(X), front) && Fed(ValuesIn(sem, inputs, X, front), env, spec, born)
  {
    hide WellPlaced, ValuesIn, Contiguous;
    PlacedPrefix(Base(X), front + [def'], ops);
    ValuesPush(sem, inputs, X, front, def');
    ValuesPrefix(sem, inputs, X, front, ops);
    var before, after := ValuesIn(sem, inputs, X, front), ValuesIn(sem, inputs, X, ops);
    forall t | t in spec.inputs ensures FedInput(before, env, spec.device, born, t) {
      var i :| 0 <= i < |spec.inputs| && spec.inputs[i] == t;
      assert def'.spec.inputs[i] == Renamed(spec.device, t) && def'.spec.inputs[i] in Reads(def'.spec);
      assert FedInput(after, env, spec.device, born, t);
    }
  }

  // ---- external inputs -----------------------------------------------------------------------------------

  lemma ExternalMeans<V>(sem: Sem<V>, inputs: string -> V, X: seq<string>, s: State, born: set<string>, env: map<string, V>, name: string)
    requires Means(sem, inputs, X, s, born, env) && name in X && AddExternalInput(s, name).Ok?
    ensures Means(sem, inputs, X, AddExternalInput(s, name).value, born, env[name := inputs(name)])
  {
    var u, values := AddExternalInput(s, name).value, ValuesIn(sem, inputs, X, s.ops);
    ExternalValue(sem, inputs, X, s.ops, name);
    hide WellPlaced, ValuesIn, Contiguous;
    forall e | e in u.edges ensures AgreesAt(u.edges, born, values, env[name := inputs(name)], e) {
      if e != name {
        assert AgreesAt(s.edges, born, values, env, e);
      }
    }
  }

  // ---- whole runs -----------------------------------------------------------------------------------------

  // The two stages of a split decoder compose to the decoder.
  ghost predicate SplitLaw<V(!new)>(sem: Sem<V>) {
    forall def: OpDefinition, id: int, ins: seq<V> ::
      Splits(def.spec) && |def.spec.outputs| == 1 && def.spec.argInputs == [] ==> ComposesAt(sem, def, id, ins)
  }

  function CpuStageDef(def: OpDefinition): OpDefinition
    requires Splits(def.spec) && |def.spec.outputs| == 1
  {
    def.(spec := CpuStage(def.spec, def.instName))
  }

  function GpuStageDef(def: OpDefinition, id: int): OpDefinition
    requires Splits(def.spec) && |def.spec.outputs| == 1
  {
    OpDefinition(def.instName + "_gpu", GpuStage(def.spec, def.instName), id)
  }

  ghost predicate ComposesAt<V>(sem: Sem<V>, def: OpDefinition, id: int, ins: seq<V>)
    requires Splits(def.spec) && |def.spec.outputs| == 1
  {
    var cpu := Core(CpuStageDef(def));
    sem(Core(GpuStageDef(def, id)), [sem(cpu, ins, [], 0), sem(cpu, ins, [], 1), sem(cpu, ins, [], 2)], [], 0)
    == sem(Core(def), ins, [], 0)
  }

  // The two laws ask nothing impossible of the operators.
  lemma LawsSatisfiable<V(!new)>(d: V) returns (sem: Sem<V>)
    ensures CopyLaw(sem) && SplitLaw(sem)
  {
    sem := (core, ins, args, k) => if |ins| > 0 then ins[0] else d;
  }

  /** The user's view: every call evaluated directly by edge name, decoders whole. Fails only if a
      call names an edge that no earlier call of the user declared, or a split decoder does not
      have exactly one output. */
  ghost function UserEnv<V>(sem: Sem<V>, inputs: string -> V, calls: seq<Call>): Result<map<string, V>> {
    if calls == [] then Ok(map[])
    else
      var env :- UserEnv(sem, inputs, calls[..|calls| - 1]);
      match calls[|calls| - 1]
      case External(name) => Ok(env[name := inputs(name)])
      case Operator(def) =>
        if !KnownEdges(env.Keys, def.spec) then Err
        else if Splits(def.spec) && |def.spec.outputs| != 1 then Err
        else Ok(Direct(sem, env, def))
  }

  // `full` knows at least the user's edges, with the user's values.
  ghost predicate Refines<V>(full: map<string, V>, env: map<string, V>) {
    env.Keys <= full.Keys && forall e :: e in env ==> full[e] == env[e]
  }

  lemma DirectRefines<V>(sem: Sem<V>, full: map<string, V>, env: map<string, V>, def: OpDefinition)
    requires Refines(full, env) && KnownEdges(env.Keys, def.spec) && KnownEdges(full.Keys, def.spec)
    ensures Refines(Direct(sem, full, def), Direct(sem, env, def))
  {
    assert EdgeInputs(full, def.spec) == EdgeInputs(env, def.spec);
    assert EdgeArgs(full, def.spec) == EdgeArgs(env, def.spec);
  }

  lemma OutputsFresh(groupable: set<string>, s: State, def: OpDefinition)
    requires AddOperator(groupable, s, def).Ok? && !Splits(def.spec)
    ensures NewNames(s.edges, def.spec.outputs)
  {
    var s0 := AddOperatorUnfold(groupable, s, def);
    var spec := def.spec;
    var t := SetupInputs(groupable, s0, spec.device, spec.inputs).value.0;
    assert AddOutputs(t, spec.device, spec.outputs).Ok?;
    hide SetupInputs, AddOutputs, AddOperator, AddPlain, Splits;
    SetupInputsKeys(groupable, s0, spec.device, spec.inputs);
    AddOutputsMeaning(t, spec.device, spec.outputs);
  }

  lemma DirectAt<V>(sem: Sem<V>, env: map<string, V>, def: OpDefinition, i: nat)
    requires KnownEdges(env.Keys, def.spec) && i < |def.spec.outputs| && NewNames(map[], def.spec.outputs)
    ensures def.spec.outputs[i].name in Direct(sem, env, def)
    ensures Direct(sem, env, def)[def.spec.outputs[i].name]
            == sem(Core(def), EdgeInputs(env, def.spec), EdgeArgs(env, def.spec), i)
  {
    OutputIndex(def.spec, def.spec.outputs[i]);
    var names := OutputNames(def.spec);
    assert names[i] == def.spec.outputs[i].name;
    assert IndexOf(def.spec.outputs, def.spec.outputs[i]) == i;
    hide EdgeInputs, EdgeArgs, Core;
  }

  lemma NewNamesAnywhere(edges: map<string, EdgeMeta>, outputs: seq<Tensor>)
    requires NewNames(edges, outputs)
    ensures NewNames(map[], outputs) && forall t :: t in outputs ==> t.name !in edges
  {
  }

  // The two stages, evaluated one after the other, add the decoder's output and keep the rest.
  lemma StagesCompose<V(!new)>(sem: Sem<V>, full: map<string, V>, def: OpDefinition, id: int)
    requires SplitLaw(sem) && Splits(def.spec) && |def.spec.outputs| == 1 && def.spec.argInputs == []
    requires KnownEdges(full.Keys, CpuStageDef(def).spec)
    requires KnownEdges(Direct(sem, full, CpuStageDef(def)).Keys, GpuStageDef(def, id).spec)
    requires NewNames(map[], CpuStageDef(def).spec.outputs)
    ensures KnownEdges(full.Keys, def.spec)
    ensures var out := def.spec.outputs[0].name;
            var full2 := Direct(sem, Direct(sem, full, CpuStageDef(def)), GpuStageDef(def, id));
            out in full2 && full2[out] == sem(Core(def), EdgeInputs(full, def.spec), [], 0)
  {
    hide Direct, Contains, CpuStageName;
    var cpu, gpu := CpuStageDef(def), GpuStageDef(def, id);
    var mid, ins := Direct(sem, full, cpu), EdgeInputs(full, def.spec);
    assert EdgeInputs(full, cpu.spec) == ins && EdgeArgs(full, cpu.spec) == [];
    assert |cpu.spec.outputs| == 3;
    DirectAt(sem, full, cpu, 0);
    DirectAt(sem, full, cpu, 1);
    DirectAt(sem, full, cpu, 2);
    var m := cpu.spec.outputs;
    assert gpu.spec.inputs == [Tensor(m[0].name, OnCpu), Tensor(m[1].name, OnCpu), Tensor(m[2].name, OnCpu)];
    assert EdgeInputs(mid, gpu.spec) == [mid[m[0].name], mid[m[1].name], mid[m[2].name]];
    assert EdgeArgs(mid, gpu.spec) == [] && gpu.spec.outputs == [Tensor(def.spec.outputs[0].name, OnGpu)];
    DirectAt(sem, mid, gpu, 0);
    assert ComposesAt(sem, def, id, ins);
  }

  lemma DirectKeepsOthers<V>(sem: Sem<V>, env: map<string, V>, def: OpDefinition)
    requires KnownEdges(env.Keys, def.spec) && forall t :: t in def.spec.outputs ==> t.name !in env
    ensures Refines(Direct(sem, env, def), env)
  {
    DirectKeys(sem, env, def);
    hide Direct;
    forall e | e in env ensures Direct(sem, env, def)[e] == env[e] {
      assert forall t :: t in def.spec.outputs ==> t.name != e;
    }
  }

  lemma RefinesTransitive<V>(a: map<string, V>, b: map<string, V>, c: map<string, V>)
    requires Refines(a, b) && Refines(b, c)
    ensures Refines(a, c)
  {
  }

  // The user's view of a decoder with one output.
  lemma DecoderDirect<V>(sem: Sem<V>, env: map<string, V>, def: OpDefinition)
    requires KnownEdges(env.Keys, def.spec) && |def.spec.outputs| == 1 && def.spec.argInputs == []
    ensures Direct(sem, env, def) == env[def.spec.outputs[0].name := sem(Core(def), EdgeInputs(env, def.spec), [], 0)]
  {
    assert OutputNames(def.spec) == [def.spec.outputs[0].name];
    assert EdgeArgs(env, def.spec) == [];
    assert IndexOf(OutputNames(def.spec), def.spec.outputs[0].name) == 0;
  }

  lemma EnvExternal<V>(full: map<string, V>, env: map<string, V>, name: string, v: V)
    requires Refines(full, env)
    ensures Refines(full[name := v], env[name := v])
  {
  }

  lemma EnvSplit<V>(sem: Sem<V>, full: map<string, V>, full2: map<string, V>, env: map<string, V>, def: OpDefinition)
    requires Refines(full, env) && Refines(full2, full) && |def.spec.outputs| == 1 && def.spec.argInputs == []
    requires KnownEdges(env.Keys, def.spec) && KnownEdges(full.Keys, def.spec)
    requires def.spec.outputs[0].name in full2
    requires full2[def.spec.outputs[0].name] == sem(Core(def), EdgeInputs(full, def.spec), [], 0)
    ensures Refines(full2, Direct(sem, env, def))
  {
    DecoderDirect(sem, env, def);
    assert EdgeInputs(full, def.spec) == EdgeInputs(env, def.spec);
    hide EdgeInputs, Direct, Core;
  }

  // What a call's born reads deliver in the whole graph.
  ghost predicate FedCall<V>(values: map<Tensor, V>, env: map<string, V>, call: Call, born: set<string>) {
    call.External? || Splits(call.def.spec) || Fed(values, env, call.def.spec, born)
  }

  lemma UnsplitMeans<V(!new)>(groupable: set<string>, sem: Sem<V>, inputs: string -> V, X: seq<string>, s: State, born: set<string>,
                              env: map<string, V>, def: OpDefinition, ops: seq<OpDefinition>)
    requires CopyLaw(sem) && Means(sem, inputs, X, s, born, env) && Coherent(s, born) && !Splits(def.spec)
    requires AddOperator(groupable, s, def).Ok? && AddOperator(groupable, s, def).value.ops <= ops && WellPlaced(Base(X), ops)
    requires FedFinally(sem, inputs, X, ops, env, def.spec, born)
    ensures KnownEdges(env.Keys, def.spec)
    ensures Means(sem, inputs, X, AddOperator(groupable, s, def).value, born + Born(def.spec), Direct(sem, env, def))
  {
    hide *;
    var s0 := AddOperatorUnfold(groupable, s, def);
    SameOpsMeans(sem, inputs, X, s, s0, born, env);
    CoherentSame(s, s0, born);
    AddPlainMeans(groupable, sem, inputs, X, s0, born, env, def, ops);
  }

  lemma UnsplitPrefix(groupable: set<string>, s: State, def: OpDefinition)
    requires AddOperator(groupable, s, def).Ok? && !Splits(def.spec)
    ensures s.ops <= AddOperator(groupable, s, def).value.ops
  {
    hide *;
    var s0 := AddOperatorUnfold(groupable, s, def);
    var t, renamed, u := AddPlainUnfold(groupable, s0, def);
    SetupInputsPrefix(groupable, s0, def.spec.device, def.spec.inputs);
    AddOutputsMeaning(t, def.spec.device, def.spec.outputs);
  }

  lemma StepPrefix(groupable: set<string>, s: State, call: Call)
    requires Step(groupable, s, call).Ok?
    ensures s.ops <= Step(groupable, s, call).value.ops
  {
    hide AddOperator;
    if call.Operator? {
      if Splits(call.def.spec) {
        var s0, s1 := AddSplitUnfold(groupable, s, call.def);
        UnsplitPrefix(groupable, s0, call.def.(spec := CpuStage(call.def.spec, call.def.instName)));
        UnsplitPrefix(groupable, s1.(nextLogicalId := s1.nextLogicalId + 1),
                      OpDefinition(call.def.instName + "_gpu", GpuStage(call.def.spec, call.def.instName), s1.nextLogicalId));
      } else {
        UnsplitPrefix(groupable, s, call.def);
      }
    }
  }

  lemma StagesFed<V>(values: map<Tensor, V>, env: map<string, V>, def: OpDefinition, id: int, born: set<string>)
    requires Splits(def.spec) && |def.spec.outputs| == 1
    ensures Fed(values, env, CpuStageDef(def).spec, born) && Born(CpuStageDef(def).spec) == {}
    ensures Born(GpuStageDef(def, id).spec) == {}
  {
    hide Contains, CpuStageName;
  }

  lemma MixedFed<V>(values: map<Tensor, V>, env: map<string, V>, def: OpDefinition, id: int, born: set<string>)
    requires Splits(def.spec) && |def.spec.outputs| == 1
    ensures Fed(values, env, GpuStageDef(def, id).spec, born)
  {
    hide Contains, CpuStageName;
  }

  lemma SplitMeans<V(!new)>(groupable: set<string>, sem: Sem<V>, inputs: string -> V, X: seq<string>, s: State, born: set<string>,
                            full: map<string, V>, def: OpDefinition, ops: seq<OpDefinition>) returns (full2: map<string, V>)
    requires CopyLaw(sem) && SplitLaw(sem) && Means(sem, inputs, X, s, born, full) && Coherent(s, born)
    requires Splits(def.spec) && |def.spec.outputs| == 1
    requires AddOperator(groupable, s, def).Ok? && AddOperator(groupable, s, def).value.ops <= ops && WellPlaced(Base(X), ops)
    ensures Means(sem, inputs, X, AddOperator(groupable, s, def).value, born, full2)
    ensures Refines(full2, full) && KnownEdges(full.Keys, def.spec) && def.spec.argInputs == []
    ensures var out := def.spec.outputs[0].name;
            out in full2 && full2[out] == sem(Core(def), EdgeInputs(full, def.spec), [], 0)
  {
    hide *;
    var s0, s1 := AddSplitUnfold(groupable, s, def);
    var cpu, gpu := StageDefs(def, s1.nextLogicalId);
    var s2 := s1.(nextLogicalId := s1.nextLogicalId + 1);
    UnsplitPrefix(groupable, s2, gpu);
    assert s1.ops <= ops;
    SameOpsMeans(sem, inputs, X, s, s0, born, full);
    CoherentSame(s, s0, born);
    assert FedFinally(sem, inputs, X, ops, full, cpu.spec, born) by {
      StagesFed(ValuesIn(sem, inputs, X, ops), full, def, s1.nextLogicalId, born);
      FedFold(sem, inputs, X, ops, full, cpu.spec, born);
    }
    StagesFed(ValuesIn(sem, inputs, X, ops), full, def, s1.nextLogicalId, born);
    assert born + {} == born;
    UnsplitKeeps(groupable, Base(s0.externals), s0, born, cpu);
    UnsplitMeans(groupable, sem, inputs, X, s0, born, full, cpu, ops);
    var mid := Direct(sem, full, cpu);
    SameOpsMeans(sem, inputs, X, s1, s2, born, mid);
    StageCoherent(Base(s0.externals), s0, s1, born, cpu);
    CoherentSame(s1, s2, born);
    assert FedFinally(sem, inputs, X, ops, mid, gpu.spec, born) by {
      MixedFed(ValuesIn(sem, inputs, X, ops), mid, def, s1.nextLogicalId, born);
      FedFold(sem, inputs, X, ops, mid, gpu.spec, born);
    }
    UnsplitMeans(groupable, sem, inputs, X, s2, born, mid, gpu, ops);
    full2 := Direct(sem, mid, gpu);
    OutputsFresh(groupable, s0, cpu);
    OutputsFresh(groupable, s2, gpu);
    NewNamesAnywhere(s0.edges, cpu.spec.outputs);
    NewNamesAnywhere(s2.edges, gpu.spec.outputs);
    MeansFacts(sem, inputs, X, s0, born, full);
    MeansFacts(sem, inputs, X, s2, born, mid);
    DirectKeepsOthers(sem, full, cpu);
    DirectKeepsOthers(sem, mid, gpu);
    RefinesTransitive(full2, mid, full);
    StagesCompose(sem, full, def, s1.nextLogicalId);
  }

  lemma StageDefs(def: OpDefinition, id: int) returns (cpu: OpDefinition, gpu: OpDefinition)
    requires Splits(def.spec) && |def.spec.outputs| == 1
    ensures cpu == CpuStageDef(def) && gpu == GpuStageDef(def, id)
    ensures HasDecoderPrefix(def.spec.name) && def.spec.outputs != []
    ensures cpu == def.(spec := CpuStage(def.spec, def.instName))
    ensures gpu == OpDefinition(def.instName + "_gpu", GpuStage(def.spec, def.instName), id)
  {
    cpu, gpu := CpuStageDef(def), GpuStageDef(def, id);
  }

  lemma FedFold<V>(sem: Sem<V>, inputs: string -> V, X: seq<string>, ops: seq<OpDefinition>, env: map<string, V>, spec: OpSpec, born: set<string>)
    requires WellPlaced(Base(X), ops) && Fed(ValuesIn(sem, inputs, X, ops), env, spec, born)
    ensures FedFinally(sem, inputs, X, ops, env, spec, born)
  {
  }

  lemma StageCoherent(base: set<Tensor>, s: State, u: State, born: set<string>, cpu: OpDefinition)
    requires Advances(base, s, u, born, Operator(cpu)) && Born(cpu.spec) == {}
    ensures Coherent(u, born)
  {
    assert born + {} == born;
  }

  // One call: the compiled state means the old environment plus the call.
  lemma StepMeans<V(!new)>(groupable: set<string>, sem: Sem<V>, inputs: string -> V, X: seq<string>, s: State, born: set<string>,
                           full: map<string, V>, env: map<string, V>, call: Call, ops: seq<OpDefinition>) returns (full2: map<string, V>)
    requires CopyLaw(sem) && SplitLaw(sem) && Means(sem, inputs, X, s, born, full) && Coherent(s, born) && Refines(full, env)
    requires Step(groupable, s, call).Ok? && Step(groupable, s, call).value.ops <= ops && WellPlaced(Base(X), ops)
    requires call.External? ==> call.name in X
    requires FedCall(ValuesIn(sem, inputs, X, ops), full, call, born)
    requires call.Operator? ==> KnownEdges(env.Keys, call.def.spec)
    requires call.Operator? && Splits(call.def.spec) ==> |call.def.spec.outputs| == 1
    ensures Means(sem, inputs, X, Step(groupable, s, call).value, born + BornBy(call), full2)
    ensures Refines(full2, if call.External? then env[call.name := inputs(call.name)] else Direct(sem, env, call.def))
  {
    assert Step(groupable, s, call)
           == if call.External? then AddExternalInput(s, call.name) else AddOperator(groupable, s, call.def);
    assert BornBy(call) == if call.External? || Splits(call.def.spec) then {} else Born(call.def.spec);
    assert call.External? || Splits(call.def.spec) || FedFinally(sem, inputs, X, ops, full, call.def.spec, born);
    assert born + {} == born;
    hide *;
    if call.External? {
      full2 := full[call.name := inputs(call.name)];
      ExternalMeans(sem, inputs, X, s, born, full, call.name);
      EnvExternal(full, env, call.name, inputs(call.name));
    } else if Splits(call.def.spec) {
      full2 := SplitMeans(groupable, sem, inputs, X, s, born, full, call.def, ops);
      EnvSplit(sem, full, full2, env, call.def);
    } else {
      UnsplitMeans(groupable, sem, inputs, X, s, born, full, call.def, ops);
      full2 := Direct(sem, full, call.def);
      DirectRefines(sem, full, env, call.def);
    }
  }

  // ---- the user's edges ------------------------------------------------------------------------------------

  lemma UnsplitOutputs(groupable: set<string>, s: State, def: OpDefinition)
    requires AddOperator(groupable, s, def).Ok? && !Splits(def.spec)
    ensures forall t :: t in def.spec.outputs ==> t.name !in s.edges && t.name in AddOperator(groupable, s, def).value.edges
  {
    hide AddOperator, AddPlain, SetupInputs, AddOutputs, Splits, AddToOpSpecs;
    var s0 := AddOperatorUnfold(groupable, s, def);
    var t, renamed, u := AddPlainUnfold(groupable, s0, def);
    SetupInputsKeys(groupable, s0, def.spec.device, def.spec.inputs);
    AddOutputsMeaning(t, def.spec.device, def.spec.outputs);
    forall x | x in def.spec.outputs ensures x.name !in s.edges && x.name in u.edges {
      var i :| 0 <= i < |def.spec.outputs| && def.spec.outputs[i] == x;
    }
  }

  lemma CallOutputs(groupable: set<string>, s: State, def: OpDefinition)
    requires AddOperator(groupable, s, def).Ok? && (Splits(def.spec) ==> |def.spec.outputs| == 1)
    ensures forall t :: t in def.spec.outputs ==> t.name !in s.edges && t.name in AddOperator(groupable, s, def).value.edges
  {
    hide *;
    if Splits(def.spec) {
      var s0, s1 := AddSplitUnfold(groupable, s, def);
      var cpu, gpu := StageDefs(def, s1.nextLogicalId);
      UnsplitKeys(groupable, s0, cpu);
      UnsplitOutputs(groupable, s1.(nextLogicalId := s1.nextLogicalId + 1), gpu);
      DecoderOutput(def, s1.nextLogicalId);
    } else {
      UnsplitOutputs(groupable, s, def);
    }
  }

  lemma DecoderOutput(def: OpDefinition, id: int)
    requires Splits(def.spec) && |def.spec.outputs| == 1
    ensures GpuStageDef(def, id).spec.outputs == [Tensor(def.spec.outputs[0].name, OnGpu)]
    ensures Tensor(def.spec.outputs[0].name, OnGpu) in GpuStageDef(def, id).spec.outputs
    ensures forall t :: t in def.spec.outputs ==> t.name == def.spec.outputs[0].name
  {
  }

  lemma UserStep<V>(sem: Sem<V>, inputs: string -> V, calls: seq<Call>)
    requires calls != [] && UserEnv(sem, inputs, calls).Ok?
    ensures var front, call := calls[..|calls| - 1], calls[|calls| - 1];
            && UserEnv(sem, inputs, front).Ok?
            && var env := UserEnv(sem, inputs, front).value;
            && (call.Operator? ==> KnownEdges(env.Keys, call.def.spec))
            && (call.Operator? && Splits(call.def.spec) ==> |call.def.spec.outputs| == 1)
            && UserEnv(sem, inputs, calls).value
               == if call.External? then env[call.name := inputs(call.name)] else Direct(sem, env, call.def)
  {
    hide Splits, KnownEdges, Direct;
  }

  lemma RunStep(groupable: set<string>, calls: seq<Call>)
    requires calls != [] && Run(groupable, calls).Ok?
    ensures Run(groupable, calls[..|calls| - 1]).Ok?
    ensures Run(groupable, calls) == Step(groupable, Run(groupable, calls[..|calls| - 1]).value, calls[|calls| - 1])
  {
    hide Step;
  }

  // A call gives values to new edges and leaves the others alone.
  lemma {:induction false} UserEdges<V>(groupable: set<string>, sem: Sem<V>, inputs: string -> V, calls: seq<Call>)
    requires Run(groupable, calls).Ok? && UserEnv(sem, inputs, calls).Ok?
    ensures UserEnv(sem, inputs, calls).value.Keys <= Run(groupable, calls).value.edges.Keys
    ensures calls != [] ==> UserEnv(sem, inputs, calls[..|calls| - 1]).Ok?
                            && Refines(UserEnv(sem, inputs, calls).value, UserEnv(sem, inputs, calls[..|calls| - 1]).value)
  {
    if calls != [] {
      var front, call := calls[..|calls| - 1], calls[|calls| - 1];
      hide Run, UserEnv, AddOperator, Splits, KnownEdges, Direct;
      UserStep(sem, inputs, calls);
      RunStep(groupable, calls);
      UserEdges(groupable, sem, inputs, front);
      var s, env := Run(groupable, front).value, UserEnv(sem, inputs, front).value;
      StepKeys(groupable, s, call);
      if call.Operator? {
        CallOutputs(groupable, s, call.def);
        DirectKeys(sem, env, call.def);
        DirectKeepsOthers(sem, env, call.def);
      }
    }
  }

  lemma {:induction false} ExternalEnv<V>(groupable: set<string>, sem: Sem<V>, inputs: string -> V, calls: seq<Call>)
    requires Run(groupable, calls).Ok? && UserEnv(sem, inputs, calls).Ok?
    ensures forall x :: x in ExternalNames(calls) ==>
              x in UserEnv(sem, inputs, calls).value && UserEnv(sem, inputs, calls).value[x] == inputs(x)
  {
    if calls != [] {
      hide Run, UserEnv;
      UserEdges(groupable, sem, inputs, calls);
      UserStep(sem, inputs, calls);
      RunStep(groupable, calls);
      ExternalEnv(groupable, sem, inputs, calls[..|calls| - 1]);
    }
  }

  // A cpu edge that is not the user's is the stream of a decoder, and is not named like a copy.
  lemma {:induction false} UserCpuEdges<V>(sem: Sem<V>, inputs: string -> V, calls: seq<Call>, e: string)
    requires UserEnv(sem, inputs, calls).Ok? && Contiguous(e) in CpuEdges(calls)
    ensures Contiguous(e) in UserEnv(sem, inputs, calls).value
  {
    var front, call := calls[..|calls| - 1], calls[|calls| - 1];
    hide UserEnv, Contains, Direct, KnownEdges;
    UserStep(sem, inputs, calls);
    var env := UserEnv(sem, inputs, front).value;
    if call.Operator? {
      DirectKeys(sem, env, call.def);
      if Splits(call.def.spec) {
        StreamNames(call.def);
        assert Contiguous(e)[0] == 'c';
      }
    }
    if Contiguous(e) in CpuEdges(front) {
      hide Contiguous, CpuBy;
      UserCpuEdges(sem, inputs, front, e);
    }
  }

  lemma StreamNames(def: OpDefinition)
    requires Splits(def.spec) && |def.spec.outputs| == 1
    ensures forall n :: n in CpuBy(Operator(def)) ==> |n| > 0 && n[0] == 'n'
  {
    hide Contains;
    var stream := CpuStageName(def.spec) + def.instName;
    assert CpuStage(def.spec, def.instName).outputs
           == [Tensor(stream + "0", OnCpu), Tensor(stream + "1", OnCpu), Tensor(stream + "2", OnCpu)];
    assert stream[0] == 'n';
  }

  // ---- meaning of a whole run -------------------------------------------------------------------------------

  ghost predicate FedRun<V>(values: map<Tensor, V>, env: map<string, V>, calls: seq<Call>) {
    if calls == [] then true
    else
      var front, last := calls[..|calls| - 1], calls[|calls| - 1];
      FedRun(values, env, front) && FedCall(values, env, last, BornOf(front))
  }

  // The edge that carries the contiguous name of an edge born contiguous has the same value.
  ghost predicate AgreeInput<V>(env: map<string, V>, device: OpDevice, born: set<string>, t: Tensor) {
    !GoodInput(device, t, born) ==> t.name in env && Contiguous(t.name) in env && env[Contiguous(t.name)] == env[t.name]
  }

  ghost predicate AgreeCall<V>(env: map<string, V>, call: Call, born: set<string>) {
    call.External? || Splits(call.def.spec) || forall t :: t in call.def.spec.inputs ==> AgreeInput(env, call.def.spec.device, born, t)
  }

  /** Whenever a gpu operator reads on the cpu an edge born contiguous, the edge that really has the
      contiguous name holds the same value. */
  ghost predicate ReadsAgree<V>(env: map<string, V>, calls: seq<Call>) {
    if calls == [] then true
    else
      var front, last := calls[..|calls| - 1], calls[|calls| - 1];
      ReadsAgree(env, front) && AgreeCall(env, last, BornOf(front))
  }

  ghost predicate KeptCall<V>(values: map<Tensor, V>, env: map<string, V>, call: Call) {
    call.Operator? ==>
      && (forall t :: t in call.def.spec.inputs ==> t.name in env && Holds(values, Renamed(call.def.spec.device, t), env[t.name]))
      && (forall a :: a in call.def.spec.argInputs ==> a.edge in env && Holds(values, Tensor(a.edge, OnCpu), env[a.edge]))
  }

  /** Every operator of the user reads, for each input and argument input, the value that the user's
      calls give the edge it names. */
  ghost predicate InputsKept<V>(values: map<Tensor, V>, env: map<string, V>, calls: seq<Call>) {
    forall call :: call in calls ==> KeptCall(values, env, call)
  }

  lemma FedTransfer<V>(values: map<Tensor, V>, top: map<string, V>, env: map<string, V>, full: map<string, V>, call: Call, born: set<string>)
    requires FedCall(values, top, call, born) && Refines(top, env) && Refines(full, env)
    requires call.Operator? ==> KnownEdges(env.Keys, call.def.spec)
    ensures FedCall(values, full, call, born)
  {
    hide Splits, GoodInput, Contiguous;
    if call.Operator? && !Splits(call.def.spec) {
      forall t | t in call.def.spec.inputs ensures FedInput(values, full, call.def.spec.device, born, t) {
        assert FedInput(values, top, call.def.spec.device, born, t);
      }
    }
  }

  // A graph that holds the operators of a run and knows its external inputs, and the user's final view.
  ghost predicate Within<V>(groupable: set<string>, sem: Sem<V>, inputs: string -> V, X: seq<string>, ops: seq<OpDefinition>,
                            top: map<string, V>, calls: seq<Call>) {
    && Run(groupable, calls).Ok? && Run(groupable, calls).value.ops <= ops && WellPlaced(Base(X), ops)
    && (forall x :: x in ExternalNames(calls) ==> x in X)
    && UserEnv(sem, inputs, calls).Ok? && Refines(top, UserEnv(sem, inputs, calls).value)
    && (forall x :: x in X ==> x in top && top[x] == inputs(x))
  }

  lemma WithinFront<V>(groupable: set<string>, sem: Sem<V>, inputs: string -> V, X: seq<string>, ops: seq<OpDefinition>,
                       top: map<string, V>, calls: seq<Call>)
    requires calls != [] && Within(groupable, sem, inputs, X, ops, top, calls)
    ensures Within(groupable, sem, inputs, X, ops, top, calls[..|calls| - 1])
    ensures calls[|calls| - 1].External? ==> calls[|calls| - 1].name in X
  {
    hide Run, UserEnv, Step, WellPlaced;
    var front, call := calls[..|calls| - 1], calls[|calls| - 1];
    RunStep(groupable, calls);
    StepPrefix(groupable, Run(groupable, front).value, call);
    UserEdges(groupable, sem, inputs, calls);
    assert ExternalNames(calls) == ExternalNames(front) + Declares(call);
    forall x | x in ExternalNames(front) ensures x in ExternalNames(calls) {
    }
    if call.External? {
      assert Declares(call)[0] == call.name && call.name in ExternalNames(calls);
    }
  }

  lemma {:induction false} RunMeans<V(!new)>(groupable: set<string>, sem: Sem<V>, inputs: string -> V, X: seq<string>,
      ops: seq<OpDefinition>, top: map<string, V>, calls: seq<Call>) returns (full: map<string, V>)
    requires CopyLaw(sem) && SplitLaw(sem) && Within(groupable, sem, inputs, X, ops, top, calls)
    requires FedRun(ValuesIn(sem, inputs, X, ops), top, calls)
    ensures Means(sem, inputs, X, Run(groupable, calls).value, BornOf(calls), full)
    ensures Refines(full, UserEnv(sem, inputs, calls).value)
  {
    if calls == [] {
      full := map[];
      assert WellPlaced(Base(X), []);
    } else {
      var front, call := calls[..|calls| - 1], calls[|calls| - 1];
      assert FedRun(ValuesIn(sem, inputs, X, ops), top, front) && FedCall(ValuesIn(sem, inputs, X, ops), top, call, BornOf(front));
      assert Run(groupable, calls).value.ops <= ops;
      assert BornOf(calls) == BornOf(front) + BornBy(call);
      hide *;
      WithinFront(groupable, sem, inputs, X, ops, top, calls);
      RunStep(groupable, calls);
      UserStep(sem, inputs, calls);
      var s, env := Run(groupable, front).value, UserEnv(sem, inputs, front).value;
      var before := RunMeans(groupable, sem, inputs, X, ops, top, front);
      RunTable(groupable, front, Base(s.externals));
      assert Refines(top, env) by { WithinRefines(groupable, sem, inputs, X, ops, top, front); }
      FedTransfer(ValuesIn(sem, inputs, X, ops), top, env, before, call, BornOf(front));
      full := StepMeans(groupable, sem, inputs, X, s, BornOf(front), before, env, call, ops);
    }
  }

  lemma WithinRefines<V>(groupable: set<string>, sem: Sem<V>, inputs: string -> V, X: seq<string>, ops: seq<OpDefinition>,
                         top: map<string, V>, calls: seq<Call>)
    requires Within(groupable, sem, inputs, X, ops, top, calls)
    ensures Run(groupable, calls).Ok? && UserEnv(sem, inputs, calls).Ok? && Refines(top, UserEnv(sem, inputs, calls).value)
    ensures Run(groupable, calls).value.ops <= ops && WellPlaced(Base(X), ops)
    ensures forall x :: x in X ==> x in top && top[x] == inputs(x)
  {
  }

  // The tensor that a born read finds is that of the edge with the contiguous name.
  lemma BornValue<V(!new)>(groupable: set<string>, sem: Sem<V>, inputs: string -> V, X: seq<string>, ops: seq<OpDefinition>,
                           top: map<string, V>, front: seq<Call>, full: map<string, V>, e: string)
    requires Within(groupable, sem, inputs, X, ops, top, front)
    requires Means(sem, inputs, X, Run(groupable, front).value, BornOf(front), full)
    requires Refines(full, UserEnv(sem, inputs, front).value)
    requires Contiguous(e) in CpuEdges(front) || Tensor(Contiguous(e), OnCpu) in Base(X)
    ensures Contiguous(e) in top && Holds(ValuesIn(sem, inputs, X, ops), Tensor(Contiguous(e), OnCpu), top[Contiguous(e)])
  {
    hide *;
    WithinRefines(groupable, sem, inputs, X, ops, top, front);
    var s, c := Run(groupable, front).value, Contiguous(e);
    if Tensor(c, OnCpu) in Base(X) {
      BaseName(X, c);
      ExternalValue(sem, inputs, X, ops, c);
    } else {
      RunTable(groupable, front, Base(s.externals));
      UserCpuEdges(sem, inputs, front, e);
      MeansFacts(sem, inputs, X, s, BornOf(front), full);
      ValuesPrefix(sem, inputs, X, s.ops, ops);
      CpuEdgeValue(s.edges, BornOf(front), ValuesIn(sem, inputs, X, s.ops), full, ValuesIn(sem, inputs, X, ops), c);
      RefinesAt(full, UserEnv(sem, inputs, front).value, c);
      RefinesAt(top, UserEnv(sem, inputs, front).value, c);
    }
  }

  lemma BaseName(X: seq<string>, name: string)
    ensures Tensor(name, OnCpu) in Base(X) <==> name in X
  {
  }

  lemma RefinesAt<V>(full: map<string, V>, env: map<string, V>, e: string)
    requires Refines(full, env) && e in env
    ensures e in full && full[e] == env[e]
  {
  }

  lemma CpuEdgeValue<V>(edges: map<string, EdgeMeta>, born: set<string>, values: map<Tensor, V>, env: map<string, V>,
                        more: map<Tensor, V>, c: string)
    requires Agrees(edges, born, values, env) && Grows(values, more) && c in TableOf(edges, born).cpu
    ensures c in env && Holds(more, Tensor(c, OnCpu), env[c])
  {
    assert AgreesAt(edges, born, values, env, c);
  }

  // A sourced born read delivers the right value exactly when the two edges agree.
  lemma FedIffAgree<V(!new)>(groupable: set<string>, sem: Sem<V>, inputs: string -> V, X: seq<string>, ops: seq<OpDefinition>,
                             top: map<string, V>, front: seq<Call>, full: map<string, V>, call: Call)
    requires Within(groupable, sem, inputs, X, ops, top, front)
    requires Means(sem, inputs, X, Run(groupable, front).value, BornOf(front), full)
    requires Refines(full, UserEnv(sem, inputs, front).value)
    requires SourcedCall(call, BornOf(front), CpuEdges(front), Base(X))
    ensures WellPlaced(Base(X), ops)
    ensures FedCall(ValuesIn(sem, inputs, X, ops), top, call, BornOf(front)) <==> AgreeCall(top, call, BornOf(front))
  {
    hide Run, UserEnv, WellPlaced, ValuesIn, Means, Within, Splits, Base, CpuEdges, BornOf, Refines, Contiguous;
    WithinRefines(groupable, sem, inputs, X, ops, top, front);
    if call.Operator? && !Splits(call.def.spec) {
      var spec, born := call.def.spec, BornOf(front);
      forall t | t in spec.inputs
        ensures FedInput(ValuesIn(sem, inputs, X, ops), top, spec.device, born, t) <==> AgreeInput(top, spec.device, born, t)
      {
        assert SourcedInput(spec.device, t, born, CpuEdges(front), Base(X));
        if !GoodInput(spec.device, t, born) {
          BornValue(groupable, sem, inputs, X, ops, top, front, full, t.name);
        }
      }
    }
  }

  lemma {:induction false} FedRunIffAgree<V(!new)>(groupable: set<string>, sem: Sem<V>, inputs: string -> V, X: seq<string>,
      ops: seq<OpDefinition>, top: map<string, V>, calls: seq<Call>)
    requires CopyLaw(sem) && SplitLaw(sem) && Within(groupable, sem, inputs, X, ops, top, calls)
    requires ReadsSourcedBy(calls, Base(X))
    ensures WellPlaced(Base(X), ops)
    ensures FedRun(ValuesIn(sem, inputs, X, ops), top, calls) <==> ReadsAgree(top, calls)
  {
    if calls != [] {
      var front, call := calls[..|calls| - 1], calls[|calls| - 1];
      hide CopyLaw, SplitLaw, Within, ValuesIn, WellPlaced, FedCall, AgreeCall, SourcedCall, Base;
      WithinFront(groupable, sem, inputs, X, ops, top, calls);
      FedRunIffAgree(groupable, sem, inputs, X, ops, top, front);
      if FedRun(ValuesIn(sem, inputs, X, ops), top, front) {
        var full := RunMeans(groupable, sem, inputs, X, ops, top, front);
        FedIffAgree(groupable, sem, inputs, X, ops, top, front, full, call);
      }
    }
  }

  // ---- what the operators read ----------------------------------------------------------------------------------

  lemma KeptIsFed<V>(values: map<Tensor, V>, env: map<string, V>, call: Call, born: set<string>)
    requires KeptCall(values, env, call)
    ensures FedCall(values, env, call, born)
  {
    hide Contiguous;
    if call.Operator? && !Splits(call.def.spec) {
      forall t | t in call.def.spec.inputs ensures FedInput(values, env, call.def.spec.device, born, t) {
      }
    }
  }

  lemma {:induction false} KeptRunIsFed<V>(values: map<Tensor, V>, env: map<string, V>, calls: seq<Call>)
    requires InputsKept(values, env, calls)
    ensures FedRun(values, env, calls)
  {
    if calls != [] {
      hide KeptCall, FedCall;
      KeptIsFed(values, env, calls[|calls| - 1], BornOf(calls[..|calls| - 1]));
      KeptRunIsFed(values, env, calls[..|calls| - 1]);
    }
  }

  // What the inputs of an operator hold in the whole graph.
  ghost predicate SpecKept<V>(values: map<Tensor, V>, env: map<string, V>, spec: OpSpec) {
    && (forall t :: t in spec.inputs ==> t.name in env && Holds(values, Renamed(spec.device, t), env[t.name]))
    && (forall a :: a in spec.argInputs ==> a.edge in env && Holds(values, Tensor(a.edge, OnCpu), env[a.edge]))
  }

  lemma StateKept<V>(values: map<Tensor, V>, more: map<Tensor, V>, env: map<string, V>, t: State, born: set<string>, spec: OpSpec)
    requires Agrees(t.edges, born, values, env) && Grows(values, more) && AllReady(t.edges, spec.device, spec.inputs)
    requires Fed(values, env, spec, born) && forall a :: a in spec.argInputs ==> ArgInputOk(t, a)
    ensures SpecKept(more, env, spec)
  {
    hide Renamed, Contiguous, FedInput, Ready, Agrees;
    forall x | x in spec.inputs ensures x.name in env && Holds(more, Renamed(spec.device, x), env[x.name]) {
      ReadValue(t.edges, born, values, env, spec.device, x);
    }
    forall a | a in spec.argInputs ensures a.edge in env && Holds(more, Tensor(a.edge, OnCpu), env[a.edge]) {
      assert ArgInputOk(t, a);
      ArgValue(t.edges, born, values, env, a.edge);
      AgreesKeys(t.edges, born, values, env);
    }
  }

  lemma AgreesKeys<V>(edges: map<string, EdgeMeta>, born: set<string>, values: map<Tensor, V>, env: map<string, V>)
    requires Agrees(edges, born, values, env)
    ensures env.Keys == edges.Keys
  {
  }

  lemma UnsplitKept<V(!new)>(groupable: set<string>, sem: Sem<V>, inputs: string -> V, X: seq<string>, s: State, born: set<string>,
                             env: map<string, V>, def: OpDefinition, ops: seq<OpDefinition>)
    requires CopyLaw(sem) && Means(sem, inputs, X, s, born, env) && Coherent(s, born) && !Splits(def.spec)
    requires AddOperator(groupable, s, def).Ok? && AddOperator(groupable, s, def).value.ops <= ops && WellPlaced(Base(X), ops)
    requires FedFinally(sem, inputs, X, ops, env, def.spec, born)
    ensures SpecKept(ValuesIn(sem, inputs, X, ops), env, def.spec)
  {
    hide *;
    var spec := def.spec;
    var s0 := AddOperatorUnfold(groupable, s, def);
    SameOpsMeans(sem, inputs, X, s, s0, born, env);
    CoherentSame(s, s0, born);
    var t, renamed, t2 := AddPlainUnfold(groupable, s0, def);
    AddOutputsMeaning(t, spec.device, spec.outputs);
    var def' := def.(spec := spec.(inputs := renamed));
    PlacedPrefix(Base(X), t.ops + [def'], ops);
    PlacedPrefix(Base(X), t.ops, ops);
    SetupInputsKeeps(groupable, Base(s0.externals), s0, born, spec.device, spec.inputs);
    SetupInputsMeans(groupable, sem, inputs, X, s0, born, env, spec.device, spec.inputs);
    FedEarlier(sem, inputs, X, t.ops, ops, env, spec, born, def', s0.edges);
    MeansFacts(sem, inputs, X, t, born, env);
    ValuesPrefix(sem, inputs, X, t.ops, ops);
    StateKept(ValuesIn(sem, inputs, X, t.ops), ValuesIn(sem, inputs, X, ops), env, t, born, spec);
  }

  lemma CallKept<V(!new)>(groupable: set<string>, sem: Sem<V>, inputs: string -> V, X: seq<string>, s: State, born: set<string>,
                          full: map<string, V>, def: OpDefinition, ops: seq<OpDefinition>)
    requires CopyLaw(sem) && Means(sem, inputs, X, s, born, full) && Coherent(s, born)
    requires AddOperator(groupable, s, def).Ok? && AddOperator(groupable, s, def).value.ops <= ops && WellPlaced(Base(X), ops)
    requires Splits(def.spec) ==> |def.spec.outputs| == 1
    requires FedCall(ValuesIn(sem, inputs, X, ops), full, Operator(def), born)
    ensures SpecKept(ValuesIn(sem, inputs, X, ops), full, def.spec)
  {
    assert Splits(def.spec) || FedFinally(sem, inputs, X, ops, full, def.spec, born);
    hide *;
    if Splits(def.spec) {
      var s0, s1 := AddSplitUnfold(groupable, s, def);
      var cpu, gpu := StageDefs(def, s1.nextLogicalId);
      UnsplitPrefix(groupable, s1.(nextLogicalId := s1.nextLogicalId + 1), gpu);
      SameOpsMeans(sem, inputs, X, s, s0, born, full);
      CoherentSame(s, s0, born);
      StagesFed(ValuesIn(sem, inputs, X, ops), full, def, s1.nextLogicalId, born);
      FedFold(sem, inputs, X, ops, full, cpu.spec, born);
      UnsplitKept(groupable, sem, inputs, X, s0, born, full, cpu, ops);
      StageKept(ValuesIn(sem, inputs, X, ops), full, def);
    } else {
      UnsplitKept(groupable, sem, inputs, X, s, born, full, def, ops);
    }
  }

  lemma StageKept<V>(values: map<Tensor, V>, env: map<string, V>, def: OpDefinition)
    requires Splits(def.spec) && |def.spec.outputs| == 1 && def.spec.argInputs == []
    requires SpecKept(values, env, CpuStageDef(def).spec)
    ensures SpecKept(values, env, def.spec)
  {
    hide Contains, CpuStageName;
    forall t | t in def.spec.inputs ensures t.name in env && Holds(values, Renamed(def.spec.device, t), env[t.name]) {
      assert t in CpuStageDef(def).spec.inputs && Renamed(CpuOp, t) == t;
    }
  }

  lemma KeptTransfer<V>(values: map<Tensor, V>, full: map<string, V>, env: map<string, V>, top: map<string, V>, def: OpDefinition)
    requires SpecKept(values, full, def.spec) && Refines(full, env) && Refines(top, env) && KnownEdges(env.Keys, def.spec)
    ensures KeptCall(values, top, Operator(def))
  {
    hide Renamed;
  }

  lemma LastKept<V(!new)>(groupable: set<string>, sem: Sem<V>, inputs: string -> V, X: seq<string>,
                          ops: seq<OpDefinition>, top: map<string, V>, front: seq<Call>, def: OpDefinition)
    requires CopyLaw(sem) && SplitLaw(sem) && Within(groupable, sem, inputs, X, ops, top, front + [Operator(def)])
    requires Within(groupable, sem, inputs, X, ops, top, front)
    requires FedRun(ValuesIn(sem, inputs, X, ops), top, front)
    requires FedCall(ValuesIn(sem, inputs, X, ops), top, Operator(def), BornOf(front))
    ensures KeptCall(ValuesIn(sem, inputs, X, ops), top, Operator(def))
  {
    hide *;
    var calls := front + [Operator(def)];
    assert calls[..|front|] == front && calls[|front|] == Operator(def);
    WithinRefines(groupable, sem, inputs, X, ops, top, calls);
    WithinRefines(groupable, sem, inputs, X, ops, top, front);
    RunStep(groupable, calls);
    UserStep(sem, inputs, calls);
    var s, env := Run(groupable, front).value, UserEnv(sem, inputs, front).value;
    var full := RunMeans(groupable, sem, inputs, X, ops, top, front);
    RunTable(groupable, front, Base(s.externals));
    FedTransfer(ValuesIn(sem, inputs, X, ops), top, env, full, Operator(def), BornOf(front));
    StepIsAdd(groupable, s, def);
    CallKept(groupable, sem, inputs, X, s, BornOf(front), full, def, ops);
    KeptTransfer(ValuesIn(sem, inputs, X, ops), full, env, top, def);
  }

  lemma {:induction false} FedRunIsKept<V(!new)>(groupable: set<string>, sem: Sem<V>, inputs: string -> V, X: seq<string>,
      ops: seq<OpDefinition>, top: map<string, V>, calls: seq<Call>)
    requires CopyLaw(sem) && SplitLaw(sem) && Within(groupable, sem, inputs, X, ops, top, calls)
    requires FedRun(ValuesIn(sem, inputs, X, ops), top, calls)
    ensures InputsKept(ValuesIn(sem, inputs, X, ops), top, calls)
  {
    hide *;
    WithinRefines(groupable, sem, inputs, X, ops, top, calls);
    FedFront(ValuesIn(sem, inputs, X, ops), top, calls);
    if calls != [] {
      var front, call := calls[..|calls| - 1], calls[|calls| - 1];
      assert calls == front + [call];
      WithinFront(groupable, sem, inputs, X, ops, top, calls);
      FedRunIsKept(groupable, sem, inputs, X, ops, top, front);
      if call.Operator? {
        LastKept(groupable, sem, inputs, X, ops, top, front, call.def);
      }
      KeptSnoc(ValuesIn(sem, inputs, X, ops), top, front, call);
    }
  }

  lemma FedFront<V>(values: map<Tensor, V>, env: map<string, V>, calls: seq<Call>)
    requires FedRun(values, env, calls)
    ensures calls != [] ==>
              var front := calls[..|calls| - 1];
              FedRun(values, env, front) && FedCall(values, env, calls[|calls| - 1], BornOf(front))
    ensures calls == [] ==> InputsKept(values, env, calls)
  {
    hide FedCall, BornOf;
  }

  lemma StepIsAdd(groupable: set<string>, s: State, def: OpDefinition)
    ensures Step(groupable, s, Operator(def)) == AddOperator(groupable, s, def)
  {
  }

  lemma KeptSnoc<V>(values: map<Tensor, V>, top: map<string, V>, front: seq<Call>, call: Call)
    requires InputsKept(values, top, front) && (call.Operator? ==> KeptCall(values, top, call))
    ensures InputsKept(values, top, front + [call])
  {
    hide Renamed;
  }

  // ---- the theorem ------------------------------------------------------------------------------------------------

  lemma WithinSelf<V>(groupable: set<string>, sem: Sem<V>, inputs: string -> V, calls: seq<Call>)
    requires Run(groupable, calls).Ok? && UserEnv(sem, inputs, calls).Ok? && Placed(Run(groupable, calls).value)
    ensures var s := Run(groupable, calls).value;
            Within(groupable, sem, inputs, s.externals, s.ops, UserEnv(sem, inputs, calls).value, calls)
            && ReadsSourcedBy(calls, Base(s.externals))
  {
    hide Run, UserEnv, WellPlaced, ReadsSourcedBy, NoCopyClash;
    AcceptedRuns(groupable, calls);
    ExternalEnv(groupable, sem, inputs, calls);
  }

  /** The compiled pipeline computes what the user wrote. In the graph of any accepted run that can be
      instantiated: every operator reads the values the user wired to it if and only if, for each cpu
      read of an edge born contiguous by a gpu operator, the edge that carries the contiguous name has
      the same value; and then every version of every edge of the user - on the cpu, on the gpu, and the
      contiguous copy - holds the value the user's calls give that edge. */
  lemma MeaningPreserved<V(!new)>(groupable: set<string>, sem: Sem<V>, inputs: string -> V, calls: seq<Call>)
    requires CopyLaw(sem) && SplitLaw(sem) && Run(groupable, calls).Ok? && Placed(Run(groupable, calls).value)
    requires UserEnv(sem, inputs, calls).Ok?
    ensures var s, env := Run(groupable, calls).value, UserEnv(sem, inputs, calls).value;
            var values := Values(sem, inputs, s);
            && (InputsKept(values, env, calls) <==> ReadsAgree(env, calls))
            && env.Keys <= s.edges.Keys
            && (ReadsAgree(env, calls) ==> forall e :: e in env ==> AgreesAt(s.edges, BornOf(calls), values, env, e))
  {
    var s, env := Run(groupable, calls).value, UserEnv(sem, inputs, calls).value;
    var values := Values(sem, inputs, s);
    assert values == ValuesIn(sem, inputs, s.externals, s.ops);
    hide *;
    UserEdges(groupable, sem, inputs, calls);
    WithinSelf(groupable, sem, inputs, calls);
    FedRunIffAgree(groupable, sem, inputs, s.externals, s.ops, env, calls);
    if InputsKept(values, env, calls) {
      KeptRunIsFed(values, env, calls);
    }
    if ReadsAgree(env, calls) {
      FedRunIsKept(groupable, sem, inputs, s.externals, s.ops, env, calls);
      var full := RunMeans(groupable, sem, inputs, s.externals, s.ops, env, calls);
      MeansFacts(sem, inputs, s.externals, s, BornOf(calls), full);
      forall e | e in env ensures AgreesAt(s.edges, BornOf(calls), values, env, e) {
        RefinesAt(full, env, e);
        AgreesFor(s.edges, BornOf(calls), values, full, env, e);
      }
    }
  }

  lemma AgreesFor<V>(edges: map<string, EdgeMeta>, born: set<string>, values: map<Tensor, V>, full: map<string, V>,
                     env: map<string, V>, e: string)
    requires Agrees(edges, born, values, full) && e in full && e in env && full[e] == env[e]
    ensures e in edges && AgreesAt(edges, born, values, env, e)
  {
    assert AgreesAt(edges, born, values, full, e);
  }

  /** In particular when no gpu operator reads on the cpu an edge born contiguous. */
  lemma {:induction false} GoodRunAgrees<V>(env: map<string, V>, calls: seq<Call>)
    requires GoodRun(calls)
    ensures ReadsAgree(env, calls)
  {
    if calls != [] {
      hide Splits, Contiguous, BornOf;
      GoodRunAgrees(env, calls[..|calls| - 1]);
    }
  }
}
