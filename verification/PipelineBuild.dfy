/** Building a pipeline: the copies added for the requested outputs. */
module PipelineBuild {
  import opened PipelineState
  import opened PipelineInvariant
  import opened PipelineMeaning

  // Operators added for the outputs, and the tensors handed to the executor.
  datatype Plan = Plan(extra: seq<OpDefinition>, outs: seq<Tensor>, nextLogicalId: int, nextInternalId: int)

  // A requested output that does not exist yet in the form the executor returns it.
  predicate NeedsCopy(s: State, req: Tensor)
    requires req.name in s.edges
  {
    if req.storage == OnCpu then !s.edges[req.name].hasContiguous else !s.edges[req.name].hasGpu
  }

  function Target(req: Tensor): Tensor {
    if req.storage == OnCpu then Tensor(Contiguous(req.name), OnCpu) else req
  }

  function PlanOutput(s: State, p: Plan, req: Tensor): Result<Plan> {
    if req.name !in s.edges then Err
    else if req.storage == OnCpu && !s.edges[req.name].hasCpu then Err
    else if !NeedsCopy(s, req) then Ok(p.(outs := p.outs + [req]))
    else if !s.edges[req.name].hasCpu then Err
    else
      var id := if req.storage == OnCpu then p.nextInternalId else p.nextLogicalId;
      var def := OpDefinition("__MakeContiguous_" + req.name, CopySpec(req.name, Target(req)), id);
      Ok(Plan(p.extra + [def], p.outs + [Target(req)],
              if req.storage == OnCpu then p.nextLogicalId else id + 1,
              if req.storage == OnCpu then id - 1 else p.nextInternalId))
  }

  function PlanOutputs(s: State, reqs: seq<Tensor>): Result<Plan> {
    if reqs == [] then Ok(Plan([], [], s.nextLogicalId, s.nextInternalId))
    else
      var p :- PlanOutputs(s, reqs[..|reqs| - 1]);
      PlanOutput(s, p, reqs[|reqs| - 1])
  }

  // The edge exists where the output is wanted, or can be copied there.
  predicate Obtainable(edges: map<string, EdgeMeta>, req: Tensor) {
    && req.name in edges
    && if req.storage == OnCpu then edges[req.name].hasCpu else edges[req.name].hasCpu || edges[req.name].hasGpu
  }

  /** Outputs can be planned exactly when each of them exists where it is wanted, or on the cpu. */
  lemma {:induction false} PlanExactly(s: State, reqs: seq<Tensor>)
    ensures PlanOutputs(s, reqs).Ok? <==> forall r :: r in reqs ==> Obtainable(s.edges, r)
  {
    if reqs != [] {
      var front, req := reqs[..|reqs| - 1], reqs[|reqs| - 1];
      assert reqs == front + [req];
      PlanExactly(s, front);
      hide Contiguous, CopySpec;
      assert forall p: Plan :: PlanOutput(s, p, req).Ok? <==> Obtainable(s.edges, req);
    }
  }

  // The state with the operators of the plan appended: the graph that Build instantiates.
  function WithExtra(s: State, p: Plan): State {
    s.(ops := s.ops + p.extra)
  }

  // Asked for once, or already there.
  predicate NoRepeatedCopies(s: State, reqs: seq<Tensor>)
    requires forall r :: r in reqs ==> r.name in s.edges
  {
    forall i, j :: 0 <= i < j < |reqs| && reqs[i] == reqs[j] ==> !NeedsCopy(s, reqs[i])
  }

  // No planned copy on the cpu has the name of an edge with a cpu version.
  predicate NoPlanClash(s: State, reqs: seq<Tensor>)
    requires forall r :: r in reqs ==> r.name in s.edges
  {
    forall r :: r in reqs && NeedsCopy(s, r) ==> !Clashes(s, r)
  }

  predicate Clashes(s: State, req: Tensor) {
    req.storage == OnCpu && Contiguous(req.name) in s.edges && s.edges[Contiguous(req.name)].hasCpu
  }

  ghost function CopyTargets(s: State, reqs: seq<Tensor>): set<Tensor>
    requires forall r :: r in reqs ==> r.name in s.edges
  {
    set r | r in reqs && NeedsCopy(s, r) :: Target(r)
  }

  lemma TargetInjective(a: Tensor, b: Tensor)
    requires Target(a) == Target(b)
    ensures a == b
  {
    if a.storage == OnCpu {
      ContiguousInjective(a.name, b.name);
    }
  }

  lemma {:induction false} PlanKnows(s: State, reqs: seq<Tensor>)
    requires PlanOutputs(s, reqs).Ok?
    ensures forall r :: r in reqs ==> r.name in s.edges
    ensures |PlanOutputs(s, reqs).value.outs| == |reqs|
  {
    if reqs != [] {
      PlanKnows(s, reqs[..|reqs| - 1]);
      assert reqs == reqs[..|reqs| - 1] + [reqs[|reqs| - 1]];
    }
  }

  // The tensor of a planned copy is there already only if it clashes with an edge.
  lemma TargetMissing(s: State, born: set<string>, req: Tensor)
    requires Coherent(s, born) && req.name in s.edges && NeedsCopy(s, req)
    ensures Target(req) in AllTensors(s) <==> Clashes(s, req)
  {
    hide AllTensors, Contiguous, Tensors, Once;
    CopyInTable(TableOf(s.edges, born), req.name);
    GpuInTable(TableOf(s.edges, born), req.name);
  }

  lemma PlanStepTensors(s: State, born: set<string>, front: seq<Tensor>, req: Tensor, p: Plan, q: Plan)
    requires Coherent(s, born) && forall r :: r in front + [req] ==> r.name in s.edges
    requires PlanOutput(s, p, req) == Ok(q) && AllTensors(WithExtra(s, p)) == AllTensors(s) + CopyTargets(s, front)
    ensures AllTensors(WithExtra(s, q)) == AllTensors(s) + CopyTargets(s, front + [req])
    ensures Placed(WithExtra(s, q)) <==>
              Placed(WithExtra(s, p)) && (NeedsCopy(s, req) ==> req !in front && !Clashes(s, req))
  {
    hide *;
    CopyTargetsSnoc(s, front, req);
    if NeedsCopy(s, req) {
      var def := PlannedCopy(s, p, q, req);
      PushedTensors(WithExtra(s, p), WithExtra(s, q), def);
      PlannedSource(s, born, req);
      TargetMissing(s, born, req);
    } else {
      NothingPlanned(s, p, q, req);
    }
  }

  lemma NothingPlanned(s: State, p: Plan, q: Plan, req: Tensor)
    requires PlanOutput(s, p, req) == Ok(q) && req.name in s.edges && !NeedsCopy(s, req)
    ensures WithExtra(s, q) == WithExtra(s, p) && q.outs == p.outs + [req]
    ensures if req.storage == OnCpu then s.edges[req.name].hasCpu else s.edges[req.name].hasGpu
  {
  }

  lemma PlannedCopy(s: State, p: Plan, q: Plan, req: Tensor) returns (def: OpDefinition)
    requires PlanOutput(s, p, req) == Ok(q) && req.name in s.edges && NeedsCopy(s, req)
    ensures WithExtra(s, q) == WithExtra(s, p).(ops := WithExtra(s, p).ops + [def])
    ensures def.spec == CopySpec(req.name, Target(req)) && q.outs == p.outs + [Target(req)]
    ensures Writes(def.spec) == {Target(req)} && Reads(def.spec) == {Tensor(req.name, OnCpu)} && DistinctOutputs(def.spec)
    ensures s.edges[req.name].hasCpu
  {
    def := q.extra[|p.extra|];
    assert q.extra == p.extra + [def] && def.spec == CopySpec(req.name, Target(req));
    assert s.ops + (p.extra + [def]) == s.ops + p.extra + [def];
  }

  lemma PushedTensors(s: State, t: State, def: OpDefinition)
    requires t.ops == s.ops + [def] && t.externals == s.externals
    ensures AllTensors(t) == AllTensors(s) + Writes(def.spec)
    ensures Placed(t) <==>
              Placed(s) && Reads(def.spec) <= AllTensors(s) && Writes(def.spec) !! AllTensors(s) && DistinctOutputs(def.spec)
  {
    AvailablePush(Base(s.externals), s.ops, def);
  }

  // The cpu version that a planned copy reads exists.
  lemma PlannedSource(s: State, born: set<string>, req: Tensor)
    requires Coherent(s, born) && req.name in s.edges && s.edges[req.name].hasCpu
    ensures Tensor(req.name, OnCpu) in AllTensors(s)
  {
    hide AllTensors, Contiguous, Tensors, Once;
    GpuInTable(TableOf(s.edges, born), req.name);
  }

  lemma CopyTargetsSnoc(s: State, front: seq<Tensor>, req: Tensor)
    requires forall r :: r in front + [req] ==> r.name in s.edges
    ensures forall r :: r in front ==> r.name in s.edges
    ensures req.name in s.edges
    ensures CopyTargets(s, front + [req]) == CopyTargets(s, front) + (if NeedsCopy(s, req) then {Target(req)} else {})
    ensures NeedsCopy(s, req) ==> (Target(req) in CopyTargets(s, front) <==> req in front)
  {
    assert forall r :: r in front + [req] <==> r in front || r == req;
    hide NeedsCopy, Contiguous, Target;
    forall r | r in front && Target(r) == Target(req) ensures r == req {
      TargetInjective(r, req);
    }
  }

  lemma RepeatedSnoc(s: State, front: seq<Tensor>, req: Tensor)
    requires forall r :: r in front + [req] ==> r.name in s.edges
    ensures forall r :: r in front ==> r.name in s.edges
    ensures NoRepeatedCopies(s, front + [req]) && NoPlanClash(s, front + [req]) <==>
              NoRepeatedCopies(s, front) && NoPlanClash(s, front) && (NeedsCopy(s, req) ==> req !in front && !Clashes(s, req))
  {
    var all := front + [req];
    hide NeedsCopy, Clashes;
    assert forall r :: r in all <==> r in front || r == req;
    assert all[|front|] == req && forall i :: 0 <= i < |front| ==> all[i] == front[i];
  }

  lemma PlanOfNothing(s: State)
    ensures PlanOutputs(s, []).Ok? && WithExtra(s, PlanOutputs(s, []).value) == s
    ensures CopyTargets(s, []) == {} && NoRepeatedCopies(s, []) && NoPlanClash(s, [])
  {
    assert s.ops + [] == s.ops;
  }

  lemma PlanSnoc(s: State, front: seq<Tensor>, req: Tensor)
    requires PlanOutputs(s, front + [req]).Ok?
    ensures PlanOutputs(s, front).Ok?
    ensures PlanOutputs(s, front + [req]) == PlanOutput(s, PlanOutputs(s, front).value, req)
  {
    assert (front + [req])[..|front|] == front;
  }

  /** Build's graph is accepted - on top of an operator list that already is - exactly when no
      output that needs a copy is requested twice, and no copy on the cpu would get the name of an
      edge that has a cpu version. */
  lemma {:induction false} PlanPlaced(s: State, born: set<string>, reqs: seq<Tensor>)
    requires Coherent(s, born) && PlanOutputs(s, reqs).Ok?
    ensures forall r :: r in reqs ==> r.name in s.edges
    ensures var p := PlanOutputs(s, reqs).value;
            && AllTensors(WithExtra(s, p)) == AllTensors(s) + CopyTargets(s, reqs)
            && (Placed(WithExtra(s, p)) <==> Placed(s) && NoRepeatedCopies(s, reqs) && NoPlanClash(s, reqs))
  {
    hide *;
    PlanKnows(s, reqs);
    if reqs == [] {
      PlanOfNothing(s);
    } else {
      var front, req := reqs[..|reqs| - 1], reqs[|reqs| - 1];
      assert reqs == front + [req];
      PlanSnoc(s, front, req);
      var p, q := PlanOutputs(s, front).value, PlanOutputs(s, reqs).value;
      PlanPlaced(s, born, front);
      PlanStepTensors(s, born, front, req, p, q);
      RepeatedSnoc(s, front, req);
    }
  }

  // The version of an edge that a requested output is taken from.
  function TakenFrom(s: State, req: Tensor): Tensor
    requires req.name in s.edges
  {
    if NeedsCopy(s, req) then Tensor(req.name, OnCpu) else req
  }

  lemma {:induction false} PlanGrows(s: State, reqs: seq<Tensor>)
    requires PlanOutputs(s, reqs).Ok?
    ensures s.ops <= WithExtra(s, PlanOutputs(s, reqs).value).ops
  {
  }

  // Each tensor handed to the executor holds the value of the version it was taken from.
  lemma {:induction false} PlanMeans<V(!new)>(sem: Sem<V>, inputs: string -> V, s: State, born: set<string>, reqs: seq<Tensor>, i: nat)
    requires CopyLaw(sem) && Coherent(s, born) && PlanOutputs(s, reqs).Ok? && i < |reqs|
    requires Placed(WithExtra(s, PlanOutputs(s, reqs).value))
    ensures Placed(s) && reqs[i].name in s.edges
    ensures var p := PlanOutputs(s, reqs).value;
            && i < |p.outs| && TakenFrom(s, reqs[i]) in Values(sem, inputs, s)
            && Holds(Values(sem, inputs, WithExtra(s, p)), p.outs[i], Values(sem, inputs, s)[TakenFrom(s, reqs[i])])
  {
    hide PlanOutputs, PlanOutput, NeedsCopy, Contiguous, Coherent, CopyLaw, Placed, Values, Target, WithExtra, CopySpec,
         NoRepeatedCopies, NoPlanClash, AllTensors, CopyTargets, DistinctOutputs, Reads, Writes;
    var front, req := reqs[..|reqs| - 1], reqs[|reqs| - 1];
    assert reqs == front + [req];
    PlanSnoc(s, front, req);
    PlanKnows(s, front);
    PlanKnows(s, reqs);
    var p, q := PlanOutputs(s, front).value, PlanOutputs(s, reqs).value;
    PlanPlaced(s, born, reqs);
    if NeedsCopy(s, req) {
      var def := PlannedCopy(s, p, q, req);
      PlacedBefore(WithExtra(s, p), WithExtra(s, q), def);
      CopyPlanned(sem, inputs, s, born, front, req, def);
    } else {
      NothingPlanned(s, p, q, req);
    }
    if i < |front| {
      PlanMeans(sem, inputs, s, born, front, i);
    } else {
      TakenValue(sem, inputs, s, born, front, req);
    }
  }

  lemma PlacedBefore(s: State, t: State, def: OpDefinition)
    requires Placed(t) && t.ops == s.ops + [def] && t.externals == s.externals
    ensures Placed(s)
  {
    AvailablePush(Base(s.externals), s.ops, def);
  }

  lemma TakenValue<V(!new)>(sem: Sem<V>, inputs: string -> V, s: State, born: set<string>, front: seq<Tensor>, req: Tensor)
    requires Coherent(s, born) && PlanOutputs(s, front).Ok? && Placed(WithExtra(s, PlanOutputs(s, front).value))
    requires req.name in s.edges
    requires if TakenFrom(s, req).storage == OnCpu then s.edges[req.name].hasCpu else s.edges[req.name].hasGpu
    ensures Placed(s) && TakenFrom(s, req) in Values(sem, inputs, s)
    ensures Holds(Values(sem, inputs, WithExtra(s, PlanOutputs(s, front).value)), TakenFrom(s, req),
                  Values(sem, inputs, s)[TakenFrom(s, req)])
  {
    var p := PlanOutputs(s, front).value;
    PlanGrows(s, front);
    hide PlanOutputs, Available, WellPlaced, Eval, Contiguous, Tensors, Once, NeedsCopy, NoRepeatedCopies, NoPlanClash;
    PlanPlaced(s, born, front);
    GpuInTable(TableOf(s.edges, born), req.name);
    ValuesPrefix(sem, inputs, s.externals, s.ops, WithExtra(s, p).ops);
  }

  lemma CopyPlanned<V(!new)>(sem: Sem<V>, inputs: string -> V, s: State, born: set<string>, front: seq<Tensor>, req: Tensor, def: OpDefinition)
    requires CopyLaw(sem) && Coherent(s, born) && PlanOutputs(s, front).Ok? && req.name in s.edges && s.edges[req.name].hasCpu
    requires def.spec == CopySpec(req.name, Target(req))
    requires var t := WithExtra(s, PlanOutputs(s, front).value); Placed(t) && Placed(t.(ops := t.ops + [def]))
    ensures var t := WithExtra(s, PlanOutputs(s, front).value);
            var before, after := Values(sem, inputs, t), Values(sem, inputs, t.(ops := t.ops + [def]));
            Grows(before, after) && Tensor(req.name, OnCpu) in before && Holds(after, Target(req), before[Tensor(req.name, OnCpu)])
  {
    var t := WithExtra(s, PlanOutputs(s, front).value);
    var before := Values(sem, inputs, t);
    assert t.externals == s.externals;
    hide PlanOutputs, WellPlaced, Eval, Contiguous, Once, CopySpec, CopyLaw, Results, Available, AllTensors, ValuesIn, Target, WithExtra;
    CopySpecParts(req.name, Target(req));
    ValuesPush(sem, inputs, s.externals, t.ops, def);
    CopyValue(sem, before, def, req.name, Target(req));
  }

  /** What the executor is handed for a request: the tensor itself, or its copy. */
  lemma {:induction false} PlanOuts(s: State, reqs: seq<Tensor>, i: nat)
    requires PlanOutputs(s, reqs).Ok? && i < |reqs|
    ensures reqs[i].name in s.edges && i < |PlanOutputs(s, reqs).value.outs|
    ensures var meta := s.edges[reqs[i].name];
            PlanOutputs(s, reqs).value.outs[i] ==
            if reqs[i].storage == OnCpu && !meta.hasContiguous then Tensor("contiguous_" + reqs[i].name, OnCpu) else reqs[i]
    ensures PlanOutputs(s, reqs).value.outs[i] == if NeedsCopy(s, reqs[i]) then Target(reqs[i]) else reqs[i]
    ensures if TakenFrom(s, reqs[i]).storage == OnCpu then s.edges[reqs[i].name].hasCpu else s.edges[reqs[i].name].hasGpu
  {
    var front := reqs[..|reqs| - 1];
    PlanKnows(s, reqs);
    PlanKnows(s, front);
    if i < |front| {
      PlanOuts(s, front, i);
    }
  }

  // Requests for which a copy is made, on one side.
  function CopyCount(edges: map<string, EdgeMeta>, reqs: seq<Tensor>, storage: Storage): nat {
    if reqs == [] then 0
    else
      var n := |reqs| - 1;
      var r := reqs[n];
      CopyCount(edges, reqs[..n], storage)
      + if r.storage == storage && r.name in edges && !(if storage == OnCpu then edges[r.name].hasContiguous else edges[r.name].hasGpu)
        then 1 else 0
  }

  /** The copies for the outputs: those to the gpu take the next logical ids, those on the cpu internal
      ones, and each is made only where the output does not exist yet. */
  lemma {:induction false} PlanIds(s: State, reqs: seq<Tensor>)
    requires PlanOutputs(s, reqs).Ok?
    ensures var p := PlanOutputs(s, reqs).value;
            && p.nextLogicalId == s.nextLogicalId + CopyCount(s.edges, reqs, OnGpu)
            && p.nextInternalId == s.nextInternalId - CopyCount(s.edges, reqs, OnCpu)
            && |p.extra| == CopyCount(s.edges, reqs, OnGpu) + CopyCount(s.edges, reqs, OnCpu)
            && forall k :: 0 <= k < |p.extra| ==> IsOutputCopy(p.extra[k])
  {
    if reqs != [] {
      PlanIds(s, reqs[..|reqs| - 1]);
      hide CopySpec, Contiguous, IsOutputCopy;
      var req := reqs[|reqs| - 1];
      forall id ensures IsOutputCopy(OpDefinition("__MakeContiguous_" + req.name, CopySpec(req.name, Target(req)), id)) {
        OutputCopy(req, id);
      }
    }
  }

  // A copy for an output: to the contiguous version or to the gpu.
  predicate IsOutputCopy(op: OpDefinition) {
    && |op.spec.inputs| == 1
    && var e := op.spec.inputs[0].name;
       && op.instName == "__MakeContiguous_" + e
       && (op.spec == OpSpec("MakeContiguous", MixedOp, map[], [Tensor(e, OnCpu)], [], [Tensor("contiguous_" + e, OnCpu)])
           || op.spec == OpSpec("MakeContiguous", MixedOp, map[], [Tensor(e, OnCpu)], [], [Tensor(e, OnGpu)]))
  }

  lemma OutputCopy(req: Tensor, id: int)
    ensures IsOutputCopy(OpDefinition("__MakeContiguous_" + req.name, CopySpec(req.name, Target(req)), id))
  {
  }

  /** Every tensor handed to the executor is in the graph. */
  lemma OutExists(s: State, born: set<string>, reqs: seq<Tensor>, i: nat)
    requires Coherent(s, born) && PlanOutputs(s, reqs).Ok? && i < |reqs|
    ensures i < |PlanOutputs(s, reqs).value.outs|
    ensures PlanOutputs(s, reqs).value.outs[i] in AllTensors(WithExtra(s, PlanOutputs(s, reqs).value))
  {
    hide PlanOutputs, AllTensors, Contiguous, Tensors, Once, Placed, NoRepeatedCopies, NoPlanClash;
    PlanPlaced(s, born, reqs);
    PlanOuts(s, reqs, i);
    if NeedsCopy(s, reqs[i]) {
      assert Target(reqs[i]) in CopyTargets(s, reqs);
    } else {
      GpuInTable(TableOf(s.edges, born), reqs[i].name);
    }
  }

  /** The outputs of a built pipeline: for every accepted run whose operators read what the user
      wired to them, if Build's graph is accepted then the tensor it returns for each requested
      output holds the value of that edge in the user's view. */
  lemma OutputsPreserved<V(!new)>(groupable: set<string>, sem: Sem<V>, inputs: string -> V, calls: seq<Call>, reqs: seq<Tensor>)
    requires CopyLaw(sem) && SplitLaw(sem) && Run(groupable, calls).Ok? && UserEnv(sem, inputs, calls).Ok?
    requires ReadsAgree(UserEnv(sem, inputs, calls).value, calls) && PlanOutputs(Run(groupable, calls).value, reqs).Ok?
    requires var s := Run(groupable, calls).value; Placed(WithExtra(s, PlanOutputs(s, reqs).value))
    ensures var s, env := Run(groupable, calls).value, UserEnv(sem, inputs, calls).value;
            var p := PlanOutputs(s, reqs).value;
            && |p.outs| == |reqs|
            && forall i :: 0 <= i < |reqs| && reqs[i].name in env ==>
                 Holds(Values(sem, inputs, WithExtra(s, p)), p.outs[i], env[reqs[i].name])
  {
    var s, env := Run(groupable, calls).value, UserEnv(sem, inputs, calls).value;
    var p := PlanOutputs(s, reqs).value;
    hide Run, UserEnv, Placed, Values, CopyLaw, SplitLaw, Contiguous, PlanOutputs, NoRepeatedCopies, NoPlanClash, ReadsAgree,
         InputsKept, BornOf, AgreesAt;
    AcceptedRuns(groupable, calls);
    PlanKnows(s, reqs);
    PlanPlaced(s, BornOf(calls), reqs);
    MeaningPreserved(groupable, sem, inputs, calls);
    forall i | 0 <= i < |reqs| && reqs[i].name in env
      ensures Holds(Values(sem, inputs, WithExtra(s, p)), p.outs[i], env[reqs[i].name])
    {
      PlanMeans(sem, inputs, s, BornOf(calls), reqs, i);
      TakenAgrees(s, BornOf(calls), Values(sem, inputs, s), env, reqs, i);
    }
  }

  lemma TakenAgrees<V>(s: State, born: set<string>, values: map<Tensor, V>, env: map<string, V>, reqs: seq<Tensor>, i: nat)
    requires PlanOutputs(s, reqs).Ok? && i < |reqs| && reqs[i].name in s.edges && reqs[i].name in env
    requires AgreesAt(s.edges, born, values, env, reqs[i].name)
    ensures Holds(values, TakenFrom(s, reqs[i]), env[reqs[i].name])
  {
    hide PlanOutputs, Contiguous;
    PlanOuts(s, reqs, i);
  }
}
