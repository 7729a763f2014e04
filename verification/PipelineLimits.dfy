/** When an accepted pipeline can be built, and accepted pipelines that cannot. */
module PipelineLimits {
  import opened PipelineState
  import opened PipelineInvariant
  import opened PipelineBuild
  import opened PipelineMeaning
  import opened PipelineAcceptance
  import opened PipelineObject

  /** For every accepted run, the graph of Build is accepted exactly when no copied edge shares the name
      of its copy with a cpu edge, every cpu read of an edge born contiguous finds an edge of the
      contiguous name, no output that needs a copy is requested twice, and no copy of an output would
      get the name of a cpu edge. */
  lemma BuildAccepts(groupable: set<string>, calls: seq<Call>, outputs: seq<Tensor>)
    requires Run(groupable, calls).Ok? && PlanOutputs(Run(groupable, calls).value, outputs).Ok?
    ensures forall r :: r in outputs ==> r.name in Run(groupable, calls).value.edges
    ensures var s := Run(groupable, calls).value;
            Placed(WithExtra(s, PlanOutputs(s, outputs).value)) <==>
              && NoCopyClash(calls) && ReadsSourcedBy(calls, Base(ExternalNames(calls)))
              && NoRepeatedCopies(s, outputs) && NoPlanClash(s, outputs)
  {
    hide *;
    AcceptedRuns(groupable, calls);
    PlanPlaced(Run(groupable, calls).value, BornOf(calls), outputs);
  }

  /** When no edge is named like the copy of another, what remains is that no gpu operator reads the cpu
      side of an edge born contiguous and no output that needs a copy is requested twice. */
  lemma UnshadowedBuild(groupable: set<string>, calls: seq<Call>, outputs: seq<Tensor>)
    requires Run(groupable, calls).Ok? && PlanOutputs(Run(groupable, calls).value, outputs).Ok?
    requires NoShadow(Run(groupable, calls).value.edges.Keys)
    ensures forall r :: r in outputs ==> r.name in Run(groupable, calls).value.edges
    ensures var s := Run(groupable, calls).value;
            Placed(WithExtra(s, PlanOutputs(s, outputs).value)) <==> GoodRun(calls) && NoRepeatedCopies(s, outputs)
  {
    var s := Run(groupable, calls).value;
    hide Run, PlanOutputs, NoCopyClash, GoodRun, NoRepeatedCopies, ReadsSourcedBy, Placed, Coherent, NoShadow, Contiguous;
    AcceptedRuns(groupable, calls);
    UnshadowedRuns(groupable, calls);
    PlanPlaced(s, BornOf(calls), outputs);
    forall r | r in outputs ensures !Clashes(s, r) {
      NoShadowAt(s.edges.Keys, r.name);
    }
  }

  // A requested output list that Build accepts on top of a run.
  ghost predicate Buildable(s: State, calls: seq<Call>, outputs: seq<Tensor>) {
    && outputs != [] && (forall r :: r in outputs ==> Obtainable(s.edges, r))
    && NoCopyClash(calls) && ReadsSourcedBy(calls, Base(ExternalNames(calls)))
    && NoRepeatedCopies(s, outputs) && NoPlanClash(s, outputs)
  }

  /** Constructing and building a pipeline succeeds exactly when each call may follow the ones before it,
      every output exists where it is wanted or can be copied there, and the conditions of BuildAccepts
      hold. */
  method Compile(groupable: set<string>, calls: seq<Call>, outputs: seq<Tensor>) returns (ok: bool, p: Pipeline, outs: seq<Tensor>)
    ensures fresh(p) && fresh(p.graph) && p.graph.Valid()
    ensures AllFollow(groupable, calls) ==> Run(groupable, calls).Ok?
    ensures ok <==> AllFollow(groupable, calls) && Buildable(Run(groupable, calls).value, calls, outputs)
    ensures ok ==> PlanOutputs(Run(groupable, calls).value, outputs).Ok?
    ensures ok ==>
              var s := Run(groupable, calls).value;
              var plan := PlanOutputs(s, outputs).value;
              outs == plan.outs && p.graph.producer.Keys == AllTensors(WithExtra(s, plan))
  {
    hide *;
    outs := [];
    RunAccepted(groupable, calls);
    ok, p := Construct(groupable, calls);
    if !ok {
      ValidGraph(p);
      return;
    }
    BuildableIff(groupable, calls, outputs);
    ok, outs := p.Build(outputs);
  }

  lemma ValidGraph(p: Pipeline)
    requires p.Valid()
    ensures p.graph.Valid()
  {
  }

  lemma BuildableIff(groupable: set<string>, calls: seq<Call>, outputs: seq<Tensor>)
    requires Run(groupable, calls).Ok?
    ensures var s := Run(groupable, calls).value;
            Buildable(s, calls, outputs) <==>
              outputs != [] && PlanOutputs(s, outputs).Ok? && Placed(WithExtra(s, PlanOutputs(s, outputs).value))
  {
    hide Run, PlanOutputs, Placed, NoCopyClash, ReadsSourcedBy, NoRepeatedCopies, NoPlanClash, Obtainable;
    PlanExactly(Run(groupable, calls).value, outputs);
    if PlanOutputs(Run(groupable, calls).value, outputs).Ok? {
      BuildAccepts(groupable, calls, outputs);
    }
  }

  lemma RunOne(groupable: set<string>, a: Call)
    ensures Run(groupable, [a]) == Step(groupable, INITIAL, a)
  {
    hide Step;
    assert [a][..0] == [] && Run(groupable, []) == Ok(INITIAL);
  }

  lemma RunTwo(groupable: set<string>, a: Call, b: Call)
    ensures Run(groupable, [a, b]) ==
            if Step(groupable, INITIAL, a).Ok? then Step(groupable, Step(groupable, INITIAL, a).value, b) else Err
  {
    hide Step;
    assert [a, b][..1] == [a];
    RunOne(groupable, a);
  }

  lemma RunThree(groupable: set<string>, a: Call, b: Call, c: Call)
    ensures Run(groupable, [a, b, c]) ==
            if Run(groupable, [a, b]).Ok? then Step(groupable, Run(groupable, [a, b]).value, c) else Err
  {
    hide Step;
    assert [a, b, c][..2] == [a, b];
  }

  function GpuReader(input: Tensor, output: string, id: int): OpDefinition {
    OpDefinition("reader", OpSpec("Resize", GpuOp, map[], [input], [], [Tensor(output, OnGpu)]), id)
  }

  lemma ReaderIsPlain(input: Tensor, output: string, id: int)
    ensures !Splits(GpuReader(input, output, id).spec)
  {
  }

  lemma OneInput(groupable: set<string>, s: State, device: OpDevice, input: Tensor)
    ensures SetupInputs(groupable, s, device, [input]) ==
            match SetupInput(groupable, s, device, input)
            case Ok(r) => Ok((r.0, [r.1]))
            case Err => Err
  {
    assert [input][1..] == [];
    var r := SetupInput(groupable, s, device, input);
    if r.Ok? {
      assert [r.value.1] + [] == [r.value.1];
      assert SetupInputs(groupable, r.value.0, device, []) == Ok((r.value.0, []));
    }
  }

  lemma OneOutput(s: State, device: OpDevice, output: Tensor)
    ensures AddOutputs(s, device, [output]) == AddOutput(s, device, output)
  {
    assert [output][1..] == [];
  }

  // Adding the reader once its input is set up.
  lemma ReaderAdded(groupable: set<string>, s: State, input: Tensor, output: string, id: int, t: State, renamed: Tensor)
    requires id > s.nextLogicalId >= 0
    requires SetupInput(groupable, s.(nextLogicalId := id + 1, serialized := s.serialized + [GpuReader(input, output, id)]),
                        GpuOp, input) == Ok((t, renamed))
    requires output !in t.edges && Group(t, id) == []
    ensures AddOperator(groupable, s, GpuReader(input, output, id)).Ok?
    ensures var u := AddOperator(groupable, s, GpuReader(input, output, id)).value;
            && |u.ops| == |t.ops| + 1 && u.ops[..|t.ops|] == t.ops && u.externals == t.externals
            && u.ops[|t.ops|] == GpuReader(input, output, id).(spec := GpuReader(renamed, output, id).spec)
  {
    var def := GpuReader(input, output, id);
    ReaderIsPlain(input, output, id);
    OneInput(groupable, s.(nextLogicalId := id + 1, serialized := s.serialized + [def]), GpuOp, input);
    OneOutput(t, GpuOp, Tensor(output, OnGpu));
  }

  lemma LongerName(x: string)
    ensures Contiguous(x) != x
  {
    assert |Contiguous(x)| == |"contiguous_"| + |x|;
  }

  // Two operators of which the first writes a tensor that is already there.
  lemma OverwriteRefused(base: set<Tensor>, ops: seq<OpDefinition>, t: Tensor)
    requires |ops| == 2 && t in Writes(ops[0].spec) && t in base
    ensures !WellPlaced(base, ops)
  {
    assert ops == ([] + [ops[0]]) + [ops[1]];
    AvailablePush(base, [ops[0]], ops[1]);
    AvailablePush(base, [], ops[0]);
  }

  lemma ExternalsOnly(groupable: set<string>, a: string, b: string)
    requires a != b
    ensures Run(groupable, [External(a), External(b)]).Ok? && BornOf([External(a), External(b)]) == {}
    ensures var s := Run(groupable, [External(a), External(b)]).value;
            && s.externals == [a, b] && s.edges == map[a := EdgeMeta(true, false, false, false), b := EdgeMeta(true, false, false, false)]
            && s.ops == [] && s.nextLogicalId == 2 && s.nextInternalId == -1 && forall id :: Group(s, id) == []
  {
    RunTwo(groupable, External(a), External(b));
    assert [External(a), External(b)][..1] == [External(a)] && [External(a)][..0] == [];
    assert BornOf([External(a)]) == {};
  }

  /** An edge called like the contiguous copy of another: the calls are accepted and nothing reads
      an edge born contiguous, yet the graph is refused. */
  lemma ShadowedCopyRefused(groupable: set<string>, x: string, y: string)
    requires y != x && y != Contiguous(x)
    ensures var front := [External(Contiguous(x)), External(x)];
            var calls := front + [Operator(GpuReader(Tensor(x, OnCpu), y, 3))];
            Run(groupable, calls).Ok? && !Placed(Run(groupable, calls).value) && BornOf(front) == {}
  {
    var cx, call := Contiguous(x), Operator(GpuReader(Tensor(x, OnCpu), y, 3));
    LongerName(x);
    hide SetupInput, AddOperator, Run, WellPlaced, Contiguous, BornOf, GpuReader;
    ExternalsOnly(groupable, cx, x);
    assert [External(cx), External(x)] + [call] == [External(cx), External(x), call];
    RunThree(groupable, External(cx), External(x), call);
    var s := Run(groupable, [External(cx), External(x)]).value;
    var t, copy := ShadowingCopy(groupable, s, x, call.def);
    ReaderAdded(groupable, s, Tensor(x, OnCpu), y, 3, t, Tensor(cx, OnCpu));
    var u := AddOperator(groupable, s, call.def).value;
    assert u.ops[0] == u.ops[..1][0];
    OverwriteRefused(Base(u.externals), u.ops, Tensor(cx, OnCpu));
  }

  lemma ShadowingCopy(groupable: set<string>, s: State, x: string, def: OpDefinition) returns (t: State, copy: OpDefinition)
    requires x in s.edges && s.edges[x].hasCpu && !s.edges[x].hasContiguous && s.ops == [] && Group(s, -1) == [] && s.nextInternalId == -1
    requires Group(s, 3) == []
    ensures SetupInput(groupable, s.(nextLogicalId := 4, serialized := s.serialized + [def]), GpuOp, Tensor(x, OnCpu))
            == Ok((t, Tensor(Contiguous(x), OnCpu)))
    ensures t.ops == [copy] && copy.spec == CopySpec(x, Tensor(Contiguous(x), OnCpu))
    ensures t.edges.Keys == s.edges.Keys && Group(t, 3) == [] && t.externals == s.externals
  {
    hide Contiguous;
    var s0 := s.(nextLogicalId := 4, serialized := s.serialized + [def]);
    t := SetupInput(groupable, s0, GpuOp, Tensor(x, OnCpu)).value.0;
    copy := t.ops[0];
  }

  function SupportSource(e: string): OpDefinition {
    OpDefinition("source", OpSpec("Uniform", SupportOp, map[], [], [], [Tensor(e, OnCpu)]), 0)
  }

  lemma SupportAdded(groupable: set<string>, e: string) returns (s: State)
    ensures Run(groupable, [Operator(SupportSource(e))]) == Ok(s)
    ensures s.edges == map[e := EdgeMeta(true, false, true, true)] && s.ops == [SupportSource(e)] && s.externals == []
    ensures s.nextLogicalId == 0 && forall id :: id != 0 ==> Group(s, id) == []
    ensures BornOf([Operator(SupportSource(e))]) == {e}
  {
    var def := SupportSource(e);
    var s0 := INITIAL.(serialized := [def]);
    assert [] + [def] == [def] && SetupInputs(groupable, s0, SupportOp, []) == Ok((s0, []));
    RunOne(groupable, Operator(def));
    OneOutput(s0, SupportOp, Tensor(e, OnCpu));
    assert def.spec.(inputs := []) == def.spec;
    assert AddOperator(groupable, INITIAL, def) == AddPlain(groupable, s0, def);
    s := AddPlain(groupable, s0, def).value;
    assert [Operator(def)][..0] == [];
    assert BornOf([]) == {} && def.spec.outputs[0] == Tensor(e, OnCpu);
    assert Born(def.spec) == {e};
  }

  /** A gpu operator that takes the output of a support operator on the cpu: both calls are
      accepted, without a copy, and the contiguous version the operator reads has no producer. */
  lemma SupportReadRefused(groupable: set<string>, e: string, y: string)
    requires y != e
    ensures var calls := [Operator(SupportSource(e)), Operator(GpuReader(Tensor(e, OnCpu), y, 1))];
            Run(groupable, calls).Ok? && !Placed(Run(groupable, calls).value) && !GoodRun(calls)
  {
    var source, call := Operator(SupportSource(e)), Operator(GpuReader(Tensor(e, OnCpu), y, 1));
    var s := SupportAdded(groupable, e);
    var calls := [source, call];
    assert calls[..1] == [source];
    assert Run(groupable, calls) == AddOperator(groupable, s, call.def);
    ReaderIsPlain(Tensor(e, OnCpu), y, 1);
    var t := s.(nextLogicalId := 2, serialized := s.serialized + [call.def]);
    assert SetupInput(groupable, t, GpuOp, Tensor(e, OnCpu)) == Ok((t, Tensor(Contiguous(e), OnCpu)));
    assert Group(s, 1) == [];
    hide SetupInput, AddOperator, Run, Contiguous, SupportSource, Splits;
    ReaderAdded(groupable, s, Tensor(e, OnCpu), y, 1, t, Tensor(Contiguous(e), OnCpu));
    var u := AddOperator(groupable, s, call.def).value;
    assert AllGood(GpuOp, [Tensor(e, OnCpu)], {e}) ==> GoodInput(GpuOp, Tensor(e, OnCpu), {e});
    assert !GoodRun(calls);
    UnsourcedRefused(e, u);
  }

  lemma UnsourcedRefused(e: string, u: State)
    requires |u.ops| == 2 && u.ops[..1] == [SupportSource(e)] && u.externals == []
    requires Tensor(Contiguous(e), OnCpu) in u.ops[1].spec.inputs
    ensures !Placed(u)
  {
    var t := Tensor(Contiguous(e), OnCpu);
    LongerName(e);
    assert u.ops == [SupportSource(e)] + [u.ops[1]];
    AvailablePush({}, [SupportSource(e)], u.ops[1]);
    assert [] + [SupportSource(e)] == [SupportSource(e)];
    AvailablePush({}, [], SupportSource(e));
    assert Base([]) == {};
    assert t in u.ops[1].spec.inputs && t in Reads(u.ops[1].spec);
  }

  // The support source, and the name its contiguous version would have as an external input.
  lemma SourceAndExternal(groupable: set<string>, e: string) returns (s: State)
    ensures Run(groupable, [Operator(SupportSource(e)), External(Contiguous(e))]) == Ok(s)
    ensures s.edges == map[e := EdgeMeta(true, false, true, true), Contiguous(e) := EdgeMeta(true, false, false, false)]
    ensures s.ops == [SupportSource(e)] && s.externals == [Contiguous(e)] && s.nextLogicalId == 1
    ensures forall id :: id != 0 ==> Group(s, id) == []
    ensures BornOf([Operator(SupportSource(e)), External(Contiguous(e))]) == {e}
  {
    var source, other := Operator(SupportSource(e)), External(Contiguous(e));
    LongerName(e);
    var s1 := SupportAdded(groupable, e);
    assert [source, other][..1] == [source];
    assert Run(groupable, [source, other]) == AddExternalInput(s1, Contiguous(e));
    s := AddExternalInput(s1, Contiguous(e)).value;
    assert [] + [Contiguous(e)] == [Contiguous(e)];
    assert BornOf([source, other]) == BornOf([source]);
    assert forall id :: id != 0 ==> Group(s, id) == Group(s1, id);
  }

  // The reader's input is taken as contiguous already, and only renamed.
  lemma BornIsRenamed(groupable: set<string>, s: State, e: string)
    requires e in s.edges && s.edges[e].hasCpu && s.edges[e].hasContiguous
    ensures SetupInput(groupable, s, GpuOp, Tensor(e, OnCpu)) == Ok((s, Tensor(Contiguous(e), OnCpu)))
  {
    hide Contiguous;
  }

  // A source of (e, cpu) and an operator that reads the external input `other` instead.
  ghost predicate Substituted(u: State, e: string, other: string, y: string) {
    && u.externals == [other] && other != e
    && u.ops == [SupportSource(e), GpuReader(Tensor(other, OnCpu), y, 5)]
  }

  lemma SubstitutedPlaced(u: State, e: string, other: string, y: string)
    requires Substituted(u, e, other, y)
    ensures WellPlaced(Base([other]), [SupportSource(e)]) && Placed(u)
  {
    var first, second := SupportSource(e), GpuReader(Tensor(other, OnCpu), y, 5);
    var base := Base([other]);
    assert base == {Tensor(other, OnCpu)};
    assert [] + [first] == [first] && [first] + [second] == [first, second];
    AvailablePush(base, [], first);
    AvailablePush(base, [first], second);
    assert Reads(first.spec) == {} && Writes(first.spec) == {Tensor(e, OnCpu)};
    assert Reads(second.spec) == {Tensor(other, OnCpu)} && Writes(second.spec) == {Tensor(y, OnGpu)};
  }

  lemma SubstitutedValue<V(!new)>(sem: Sem<V>, inputs: string -> V, u: State, e: string, other: string, y: string)
    requires Substituted(u, e, other, y) && Placed(u)
    ensures Holds(Values(sem, inputs, u), Tensor(y, OnGpu), sem(Core(GpuReader(Tensor(e, OnCpu), y, 5)), [inputs(other)], [], 0))
  {
    var first, second := SupportSource(e), GpuReader(Tensor(other, OnCpu), y, 5);
    SubstitutedPlaced(u, e, other, y);
    assert [first] + [second] == u.ops;
    assert Core(second) == Core(GpuReader(Tensor(e, OnCpu), y, 5));
    hide WellPlaced, Available, Eval, Base, ValuesIn;
    ExternalValue(sem, inputs, [other], [first], other);
    ValuesPush(sem, inputs, [other], [first], second);
    var before := ValuesIn(sem, inputs, [other], [first]);
    assert InputValues(before, second.spec) == [inputs(other)] && ArgValues(before, second.spec) == [];
    assert IndexOf(second.spec.outputs, Tensor(y, OnGpu)) == 0 && Tensor(y, OnGpu) in Writes(second.spec);
  }

  lemma IntendedValue<V>(sem: Sem<V>, inputs: string -> V, e: string, y: string)
    requires y != e && y != Contiguous(e)
    ensures var calls := [Operator(SupportSource(e)), External(Contiguous(e)), Operator(GpuReader(Tensor(e, OnCpu), y, 5))];
            var made := sem(Core(SupportSource(e)), [], [], 0);
            UserEnv(sem, inputs, calls) ==
              Ok(map[e := made, Contiguous(e) := inputs(Contiguous(e)),
                     y := sem(Core(GpuReader(Tensor(e, OnCpu), y, 5)), [made], [], 0)])
  {
    var source, other, reader := SupportSource(e), Contiguous(e), GpuReader(Tensor(e, OnCpu), y, 5);
    LongerName(e);
    ReaderIsPlain(Tensor(e, OnCpu), y, 5);
    assert !Splits(source.spec);
    var calls := [Operator(source), External(other), Operator(reader)];
    assert calls[..2] == [Operator(source), External(other)] && calls[..2][..1] == [Operator(source)];
    hide Contiguous, Splits;
    var env1 := DirectOne(sem, map[], source, e, []);
    assert [Operator(source)][..0] == [];
    assert UserEnv(sem, inputs, [Operator(source)]) == Ok(env1);
    var env2 := env1[other := inputs(other)];
    assert UserEnv(sem, inputs, calls[..2]) == Ok(env2);
    var env3 := DirectOne(sem, env2, reader, y, [env2[e]]);
    assert UserEnv(sem, inputs, calls) == Ok(env3);
  }

  // The direct meaning of an operator with one output and no argument inputs.
  lemma DirectOne<V>(sem: Sem<V>, env: map<string, V>, def: OpDefinition, output: string, args: seq<V>) returns (after: map<string, V>)
    requires |def.spec.outputs| == 1 && def.spec.outputs[0].name == output && def.spec.argInputs == []
    requires KnownEdges(env.Keys, def.spec) && args == EdgeInputs(env, def.spec)
    ensures after == Direct(sem, env, def) == env[output := sem(Core(def), args, [], 0)]
  {
    after := Direct(sem, env, def);
    assert OutputNames(def.spec) == [output];
    assert EdgeArgs(env, def.spec) == [];
    assert IndexOf(OutputNames(def.spec), output) == 0;
  }

  /** A silent substitution: a gpu operator takes the output of a support operator on the cpu, and there
      is an external input with the contiguous name. The calls are accepted, the graph can be
      instantiated, and the operator computes with the external input in place of the edge it names. */
  lemma SupportReadSubstituted<V(!new)>(groupable: set<string>, sem: Sem<V>, inputs: string -> V, e: string, y: string)
    requires y != e && y != Contiguous(e)
    ensures var calls := [Operator(SupportSource(e)), External(Contiguous(e)), Operator(GpuReader(Tensor(e, OnCpu), y, 5))];
            var core, made := Core(GpuReader(Tensor(e, OnCpu), y, 5)), sem(Core(SupportSource(e)), [], [], 0);
            && Run(groupable, calls).Ok? && Placed(Run(groupable, calls).value) && !GoodRun(calls)
            && Holds(Values(sem, inputs, Run(groupable, calls).value), Tensor(y, OnGpu), sem(core, [inputs(Contiguous(e))], [], 0))
            && UserEnv(sem, inputs, calls).Ok? && y in UserEnv(sem, inputs, calls).value
            && UserEnv(sem, inputs, calls).value[y] == sem(core, [made], [], 0)
            && (ReadsAgree(UserEnv(sem, inputs, calls).value, calls) <==> inputs(Contiguous(e)) == made)
  {
    var source, other, reader := SupportSource(e), Contiguous(e), GpuReader(Tensor(e, OnCpu), y, 5);
    var calls := [Operator(source), External(other), Operator(reader)];
    LongerName(e);
    IntendedValue(sem, inputs, e, y);
    SubstitutedRun(groupable, e, y);
    var u := Run(groupable, calls).value;
    hide Run, Placed, Contiguous, GpuReader, SupportSource, UserEnv;
    SubstitutedPlaced(u, e, other, y);
    SubstitutedValue(sem, inputs, u, e, other, y);
    SubstitutedReads(UserEnv(sem, inputs, calls).value, e, y);
  }

  lemma SubstitutedRun(groupable: set<string>, e: string, y: string)
    requires y != e && y != Contiguous(e)
    ensures var calls := [Operator(SupportSource(e)), External(Contiguous(e)), Operator(GpuReader(Tensor(e, OnCpu), y, 5))];
            Run(groupable, calls).Ok? && Substituted(Run(groupable, calls).value, e, Contiguous(e), y)
  {
    var source, other, reader := SupportSource(e), Contiguous(e), GpuReader(Tensor(e, OnCpu), y, 5);
    LongerName(e);
    hide SetupInput, AddOperator, Run, Contiguous, BornOf, SupportSource, Splits;
    var s := SourceAndExternal(groupable, e);
    RunThree(groupable, Operator(source), External(other), Operator(reader));
    var t := s.(nextLogicalId := 6, serialized := s.serialized + [reader]);
    BornIsRenamed(groupable, t, e);
    assert Group(t, 5) == Group(s, 5);
    ReaderAdded(groupable, s, Tensor(e, OnCpu), y, 5, t, Tensor(other, OnCpu));
    var u := AddOperator(groupable, s, reader).value;
    assert u.ops == u.ops[..1] + [u.ops[1]];
  }

  lemma SubstitutedReads<V>(env: map<string, V>, e: string, y: string)
    requires e in env && Contiguous(e) in env
    ensures var calls := [Operator(SupportSource(e)), External(Contiguous(e)), Operator(GpuReader(Tensor(e, OnCpu), y, 5))];
            !GoodRun(calls) && (ReadsAgree(env, calls) <==> env[Contiguous(e)] == env[e])
  {
    var source, other, reader := Operator(SupportSource(e)), External(Contiguous(e)), Operator(GpuReader(Tensor(e, OnCpu), y, 5));
    var calls := [source, other, reader];
    var s := SourceAndExternal({}, e);
    ReaderIsPlain(Tensor(e, OnCpu), y, 5);
    hide Contiguous, Splits, BornOf, Run;
    assert calls[..2] == [source, other] && calls[..2][..1] == [source] && [source][..0] == [];
    assert reader.def.spec.inputs == [Tensor(e, OnCpu)] && Tensor(e, OnCpu) in reader.def.spec.inputs;
    assert AgreeCall(env, reader, {e}) <==> AgreeInput(env, GpuOp, {e}, Tensor(e, OnCpu));
    assert !GoodInput(GpuOp, Tensor(e, OnCpu), {e});
    assert SupportSource(e).spec.inputs == [];
    assert ReadsAgree(env, [source]) && ReadsAgree(env, [source, other]);
  }

  /** The same output requested twice on the gpu: planned, and refused by the graph. */
  lemma RepeatedOutputRefused(groupable: set<string>, x: string)
    ensures var reqs := [Tensor(x, OnGpu), Tensor(x, OnGpu)];
            && Run(groupable, [External(x)]).Ok?
            && PlanOutputs(Run(groupable, [External(x)]).value, reqs).Ok?
            && !Placed(WithExtra(Run(groupable, [External(x)]).value, PlanOutputs(Run(groupable, [External(x)]).value, reqs).value))
  {
    var reqs := [Tensor(x, OnGpu), Tensor(x, OnGpu)];
    RunOne(groupable, External(x));
    assert reqs[..1] == [Tensor(x, OnGpu)] && reqs[..1][..0] == [];
    var s := Run(groupable, [External(x)]).value;
    assert s.edges == map[x := EdgeMeta(true, false, false, false)];
    assert PlanOutputs(s, reqs[..1]) == PlanOutput(s, Plan([], [], s.nextLogicalId, s.nextInternalId), reqs[0]);
    var plan := PlanOutputs(s, reqs[..1]).value;
    assert PlanOutputs(s, reqs) == PlanOutput(s, plan, reqs[1]);
    hide Run, PlanOutputs, NoCopyClash, ReadsSourcedBy, NoPlanClash;
    BuildAccepts(groupable, [External(x)], reqs);
    assert NeedsCopy(s, reqs[0]) && reqs[0] == reqs[1];
  }
}
