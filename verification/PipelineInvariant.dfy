/** What every step of pipeline construction keeps: which tensors exist, who may read them, and
    when the operator list forms a graph that can be instantiated. */
module PipelineInvariant {
  import opened PipelineState

  // ---- graphs -----------------------------------------------------------------------------------

  function Reads(spec: OpSpec): set<Tensor> {
    (set t | t in spec.inputs) + (set a | a in spec.argInputs :: Tensor(a.edge, OnCpu))
  }

  function Writes(spec: OpSpec): set<Tensor> {
    set t | t in spec.outputs
  }

  // Tensors that exist once `ops` have been added to a graph that already has `base`.
  function Available(base: set<Tensor>, ops: seq<OpDefinition>): set<Tensor> {
    if ops == [] then base
    else Available(base, ops[..|ops| - 1]) + Writes(ops[|ops| - 1].spec)
  }

  predicate DistinctOutputs(spec: OpSpec) {
    forall i, j :: 0 <= i < j < |spec.outputs| ==> spec.outputs[i] != spec.outputs[j]
  }

  // OpGraph::AddOp accepts every operator in turn: all it reads exists already, and nothing it
  // writes does.
  predicate WellPlaced(base: set<Tensor>, ops: seq<OpDefinition>) {
    if ops == [] then true
    else
      var front, last := ops[..|ops| - 1], ops[|ops| - 1].spec;
      && WellPlaced(base, front)
      && Reads(last) <= Available(base, front)
      && Writes(last) !! Available(base, front)
      && DistinctOutputs(last)
  }

  lemma AvailablePush(base: set<Tensor>, ops: seq<OpDefinition>, def: OpDefinition)
    ensures Available(base, ops + [def]) == Available(base, ops) + Writes(def.spec)
    ensures WellPlaced(base, ops + [def]) <==>
              && WellPlaced(base, ops)
              && Reads(def.spec) <= Available(base, ops)
              && Writes(def.spec) !! Available(base, ops)
              && DistinctOutputs(def.spec)
  {
    assert (ops + [def])[..|ops|] == ops;
  }

  lemma AvailableBase(base: set<Tensor>, more: set<Tensor>, ops: seq<OpDefinition>)
    ensures Available(base + more, ops) == Available(base, ops) + more
  {
  }

  // Each tensor is written once, and nothing the graph started with is.
  predicate Once(base: set<Tensor>, ops: seq<OpDefinition>) {
    if ops == [] then true
    else
      var front, last := ops[..|ops| - 1], ops[|ops| - 1].spec;
      Once(base, front) && Writes(last) !! Available(base, front) && DistinctOutputs(last)
  }

  // Each tensor that is read was there at the start or was written earlier.
  predicate ReadsMet(base: set<Tensor>, ops: seq<OpDefinition>) {
    if ops == [] then true
    else
      var front, last := ops[..|ops| - 1], ops[|ops| - 1].spec;
      ReadsMet(base, front) && Reads(last) <= Available(base, front)
  }

  lemma {:induction false} WellPlacedParts(base: set<Tensor>, ops: seq<OpDefinition>)
    ensures WellPlaced(base, ops) <==> Once(base, ops) && ReadsMet(base, ops)
  {
    if ops != [] {
      WellPlacedParts(base, ops[..|ops| - 1]);
    }
  }

  lemma PartsPush(base: set<Tensor>, ops: seq<OpDefinition>, def: OpDefinition)
    ensures Once(base, ops + [def]) <==> Once(base, ops) && Writes(def.spec) !! Available(base, ops) && DistinctOutputs(def.spec)
    ensures ReadsMet(base, ops + [def]) <==> ReadsMet(base, ops) && Reads(def.spec) <= Available(base, ops)
  {
    assert (ops + [def])[..|ops|] == ops;
  }

  lemma {:induction false} OnceExtend(base: set<Tensor>, ops: seq<OpDefinition>, t: Tensor)
    requires t !in base
    ensures Once(base + {t}, ops) <==> Once(base, ops) && t !in Available(base, ops)
  {
    if ops != [] {
      OnceExtend(base, ops[..|ops| - 1], t);
      AvailableBase(base, {t}, ops[..|ops| - 1]);
    }
  }

  // ---- the edge table as sets of names --------------------------------------------------------------

  function Base(externals: seq<string>): set<Tensor> {
    set n | n in externals :: Tensor(n, OnCpu)
  }

  function AllTensors(s: State): set<Tensor> {
    Available(Base(s.externals), s.ops)
  }

  lemma BaseSnoc(externals: seq<string>, name: string)
    ensures Base(externals + [name]) == Base(externals) + {Tensor(name, OnCpu)}
  {
    assert forall n :: n in externals + [name] <==> n in externals || n == name;
  }

  // Edges with a cpu version, with a gpu version, and with a contiguous copy of their own.
  datatype Table = Table(cpu: set<string>, gpu: set<string>, copied: set<string>)

  // `born` are the edges that were declared contiguous when they were created; they have the flag
  // and no copy.
  function TableOf(edges: map<string, EdgeMeta>, born: set<string>): Table {
    Table(set e | e in edges && edges[e].hasCpu,
          set e | e in edges && edges[e].hasGpu,
          set e | e in edges && edges[e].hasContiguous && e !in born)
  }

  // The tensors that a table stands for.
  function Tensors(table: Table): set<Tensor> {
    (set e | e in table.cpu :: Tensor(e, OnCpu))
    + (set e | e in table.gpu :: Tensor(e, OnGpu))
    + (set e | e in table.copied :: Tensor(Contiguous(e), OnCpu))
  }

  // No contiguous copy has the name of an edge with a cpu version.
  predicate NoClash(table: Table) {
    forall e :: e in table.copied ==> Contiguous(e) !in table.cpu
  }

  lemma ContiguousInjective(a: string, b: string)
    requires Contiguous(a) == Contiguous(b)
    ensures a == b
  {
    assert Contiguous(a)[11..] == a && Contiguous(b)[11..] == b;
  }

  lemma CopyInTable(table: Table, e: string)
    ensures Tensor(Contiguous(e), OnCpu) in Tensors(table) <==> Contiguous(e) in table.cpu || e in table.copied
  {
    hide Contiguous;
    forall x | Contiguous(x) == Contiguous(e) ensures x == e {
      ContiguousInjective(x, e);
    }
  }

  lemma GpuInTable(table: Table, e: string)
    ensures Tensor(e, OnGpu) in Tensors(table) <==> e in table.gpu
    ensures e in table.cpu ==> Tensor(e, OnCpu) in Tensors(table)
  {
  }

  // ---- the invariant -----------------------------------------------------------------------------

  ghost predicate Flagged(edges: map<string, EdgeMeta>, born: set<string>) {
    && born <= edges.Keys
    && (forall e :: e in edges ==> edges[e].hasCpu || edges[e].hasGpu)
    && (forall e :: e in born ==> edges[e].hasCpu && edges[e].hasContiguous)
  }

  /** The table tells exactly which tensors exist, and whether each is written once. */
  ghost predicate Coherent(s: State, born: set<string>) {
    && Flagged(s.edges, born) && (forall n :: n in s.externals ==> n in s.edges)
    && AllTensors(s) == Tensors(TableOf(s.edges, born))
    && (Once(Base(s.externals), s.ops) <==> NoClash(TableOf(s.edges, born)))
  }

  // From s to t only copies were inserted, and every read of theirs is met.
  ghost predicate OnlyCopies(base: set<Tensor>, s: State, t: State) {
    && t.edges.Keys == s.edges.Keys && t.externals == s.externals
    && (forall e :: e in s.edges ==>
          && t.edges[e].hasCpu == s.edges[e].hasCpu && t.edges[e].isSupport == s.edges[e].isSupport
          && (s.edges[e].hasGpu ==> t.edges[e].hasGpu) && (s.edges[e].hasContiguous ==> t.edges[e].hasContiguous))
    && (ReadsMet(base, t.ops) <==> ReadsMet(base, s.ops))
  }

  lemma OnlyCopiesTransitive(base: set<Tensor>, s: State, t: State, u: State)
    requires OnlyCopies(base, s, t) && OnlyCopies(base, t, u)
    ensures OnlyCopies(base, s, u)
  {
  }

  lemma OnlyCopiesFacts(base: set<Tensor>, s: State, t: State)
    requires OnlyCopies(base, s, t)
    ensures t.edges.Keys == s.edges.Keys && t.externals == s.externals
    ensures forall born :: TableOf(t.edges, born).cpu == TableOf(s.edges, born).cpu
  {
  }

  // ---- inserting a copy ---------------------------------------------------------------------------

  ghost predicate CopyTarget(edge: string, target: Tensor) {
    target == Tensor(edge, OnGpu) || target == Tensor(Contiguous(edge), OnCpu)
  }

  lemma CopySpecParts(edge: string, target: Tensor)
    ensures var spec := CopySpec(edge, target);
            Reads(spec) == {Tensor(edge, OnCpu)} && Writes(spec) == {target} && DistinctOutputs(spec)
  {
  }

  // t is s with a copy of `edge` appended and its flag set.
  ghost predicate Copies(s: State, t: State, edge: string, target: Tensor, meta: EdgeMeta) {
    && edge in s.edges && CopyTarget(edge, target) && t.externals == s.externals && t.edges == s.edges[edge := meta]
    && |t.ops| == |s.ops| + 1 && t.ops == s.ops + [t.ops[|s.ops|]] && t.ops[|s.ops|].spec == CopySpec(edge, target)
  }

  lemma CopyGraph(base: set<Tensor>, s: State, t: State, born: set<string>, edge: string, target: Tensor, meta: EdgeMeta)
    requires Copies(s, t, edge, target, meta) && Coherent(s, born) && s.edges[edge].hasCpu && Base(s.externals) <= base
    ensures AllTensors(t) == AllTensors(s) + {target}
    ensures Once(Base(t.externals), t.ops) <==> Once(Base(s.externals), s.ops) && target !in AllTensors(s)
    ensures ReadsMet(base, t.ops) <==> ReadsMet(base, s.ops)
  {
    var def := t.ops[|s.ops|];
    CopySpecParts(edge, target);
    hide Available, Once, ReadsMet, WellPlaced, Contiguous, CopySpec, NoClash;
    AvailablePush(Base(s.externals), s.ops, def);
    PartsPush(Base(s.externals), s.ops, def);
    PartsPush(base, s.ops, def);
    GpuInTable(TableOf(s.edges, born), edge);
    assert base == Base(s.externals) + base;
    AvailableBase(Base(s.externals), base, s.ops);
  }

  lemma GpuCopyKeeps(base: set<Tensor>, s: State, t: State, born: set<string>, edge: string)
    requires Coherent(s, born) && edge in s.edges && s.edges[edge].hasCpu && !s.edges[edge].hasGpu
    requires Base(s.externals) <= base
    requires Copies(s, t, edge, Tensor(edge, OnGpu), s.edges[edge].(hasGpu := true))
    ensures Coherent(t, born) && OnlyCopies(base, s, t)
    ensures TableOf(t.edges, born).copied == TableOf(s.edges, born).copied
  {
    hide AllTensors, Once, ReadsMet, Contiguous, Tensors, NoClash, TableOf, Flagged, CopyTarget, CopySpec;
    CopyGraph(base, s, t, born, edge, Tensor(edge, OnGpu), s.edges[edge].(hasGpu := true));
    GpuFlag(s.edges, born, edge);
    GpuInTable(TableOf(s.edges, born), edge);
    GpuAdded(TableOf(s.edges, born), edge);
  }

  lemma GpuFlag(edges: map<string, EdgeMeta>, born: set<string>, e: string)
    requires Flagged(edges, born) && e in edges
    ensures var after := edges[e := edges[e].(hasGpu := true)];
            Flagged(after, born) && TableOf(after, born) == TableOf(edges, born).(gpu := TableOf(edges, born).gpu + {e})
    ensures e in TableOf(edges, born).gpu <==> edges[e].hasGpu
  {
  }

  lemma ContiguousFlag(edges: map<string, EdgeMeta>, born: set<string>, e: string)
    requires Flagged(edges, born) && e in edges && !edges[e].hasContiguous
    ensures var after := edges[e := edges[e].(hasContiguous := true)];
            Flagged(after, born) && TableOf(after, born) == TableOf(edges, born).(copied := TableOf(edges, born).copied + {e})
    ensures e !in TableOf(edges, born).copied
  {
  }

  lemma GpuAdded(table: Table, e: string)
    ensures Tensors(table.(gpu := table.gpu + {e})) == Tensors(table) + {Tensor(e, OnGpu)}
    ensures NoClash(table.(gpu := table.gpu + {e})) <==> NoClash(table)
  {
    hide Contiguous;
  }

  lemma CopyAdded(table: Table, e: string)
    ensures Tensors(table.(copied := table.copied + {e})) == Tensors(table) + {Tensor(Contiguous(e), OnCpu)}
    ensures NoClash(table.(copied := table.copied + {e})) <==> NoClash(table) && Contiguous(e) !in table.cpu
  {
    hide Contiguous;
  }

  lemma CpuAdded(table: Table, e: string)
    ensures Tensors(table.(cpu := table.cpu + {e})) == Tensors(table) + {Tensor(e, OnCpu)}
    ensures NoClash(table.(cpu := table.cpu + {e})) <==> NoClash(table) && forall x :: x in table.copied ==> Contiguous(x) != e
  {
    hide Contiguous;
  }

  lemma ContiguousCopyKeeps(base: set<Tensor>, s: State, t: State, born: set<string>, edge: string)
    requires Coherent(s, born) && edge in s.edges && s.edges[edge].hasCpu && !s.edges[edge].hasContiguous
    requires Base(s.externals) <= base
    requires Copies(s, t, edge, Tensor(Contiguous(edge), OnCpu), s.edges[edge].(hasContiguous := true))
    ensures Coherent(t, born) && OnlyCopies(base, s, t)
    ensures TableOf(t.edges, born).copied == TableOf(s.edges, born).copied + {edge}
  {
    hide AllTensors, Once, ReadsMet, Contiguous, Tensors, NoClash, TableOf, Flagged, CopyTarget, CopySpec;
    CopyGraph(base, s, t, born, edge, Tensor(Contiguous(edge), OnCpu), s.edges[edge].(hasContiguous := true));
    ContiguousFlag(s.edges, born, edge);
    CopyInTable(TableOf(s.edges, born), edge);
    CopyAdded(TableOf(s.edges, born), edge);
  }

  lemma SetupCpuUnfold(groupable: set<string>, s: State, e: string)
    requires e in s.edges && SetupCpuInput(groupable, s, e).Ok?
    ensures var t := SetupCpuInput(groupable, s, e).value;
            if s.edges[e].hasContiguous then t == s
            else Copies(s, t, e, Tensor(Contiguous(e), OnCpu), s.edges[e].(hasContiguous := true))
  {
    hide CopySpec, Contiguous;
  }

  lemma SetupGpuUnfold(groupable: set<string>, s: State, e: string)
    requires e in s.edges && SetupGpuInput(groupable, s, e).Ok?
    ensures var t := SetupGpuInput(groupable, s, e).value;
            if s.edges[e].hasGpu then t == s else Copies(s, t, e, Tensor(e, OnGpu), s.edges[e].(hasGpu := true))
  {
    hide CopySpec;
  }

  // ---- the inputs of an operator ---------------------------------------------------------------------

  // The tensor an operator on `device` really reads for a requested input.
  function Renamed(device: OpDevice, input: Tensor): Tensor {
    if device == GpuOp && input.storage == OnCpu then Tensor(Contiguous(input.name), OnCpu) else input
  }

  // The edge whose contiguous copy an input asks for, unless it was born contiguous.
  function CopiedFor(device: OpDevice, input: Tensor, born: set<string>): set<string> {
    if device == GpuOp && input.storage == OnCpu && input.name !in born then {input.name} else {}
  }

  function CopiedForAll(device: OpDevice, inputs: seq<Tensor>, born: set<string>): set<string> {
    if inputs == [] then {} else CopiedFor(device, inputs[0], born) + CopiedForAll(device, inputs[1..], born)
  }

  // A gpu operator does not ask for the cpu version of an edge that was born contiguous.
  predicate GoodInput(device: OpDevice, input: Tensor, born: set<string>) {
    device == GpuOp && input.storage == OnCpu ==> input.name !in born
  }

  // ... or it does, and the contiguous name is that of an edge with a cpu version, or of an
  // external input.
  predicate SourcedInput(device: OpDevice, input: Tensor, born: set<string>, cpu: set<string>, base: set<Tensor>) {
    GoodInput(device, input, born) || Contiguous(input.name) in cpu || Tensor(Contiguous(input.name), OnCpu) in base
  }

  // What the table says once an input has been set up.
  predicate Ready(edges: map<string, EdgeMeta>, device: OpDevice, input: Tensor) {
    && input.name in edges
    && if device != GpuOp then input.storage == OnCpu && edges[input.name].hasCpu
       else if input.storage == OnCpu then edges[input.name].hasContiguous
       else edges[input.name].hasGpu
  }

  predicate AllReady(edges: map<string, EdgeMeta>, device: OpDevice, inputs: seq<Tensor>) {
    forall t :: t in inputs ==> Ready(edges, device, t)
  }

  predicate AllGood(device: OpDevice, inputs: seq<Tensor>, born: set<string>) {
    forall t :: t in inputs ==> GoodInput(device, t, born)
  }

  predicate AllSourced(device: OpDevice, inputs: seq<Tensor>, born: set<string>, cpu: set<string>, base: set<Tensor>) {
    forall t :: t in inputs ==> SourcedInput(device, t, born, cpu, base)
  }

  ghost predicate RenamedFrom(edges: map<string, EdgeMeta>, device: OpDevice, inputs: seq<Tensor>, renamed: seq<Tensor>) {
    && |renamed| == |inputs|
    && forall i :: 0 <= i < |inputs| ==> inputs[i].name in edges && renamed[i] == Renamed(device, inputs[i])
  }

  // An input that has been set up is there exactly when it has a source.
  lemma ReadyThere(s: State, born: set<string>, base: set<Tensor>, device: OpDevice, input: Tensor)
    requires Coherent(s, born) && Ready(s.edges, device, input)
    ensures Renamed(device, input) in base + AllTensors(s) <==>
              SourcedInput(device, input, born, TableOf(s.edges, born).cpu, base)
  {
    hide AllTensors, Once, Contiguous, NoClash, Tensors;
    CopyInTable(TableOf(s.edges, born), input.name);
    GpuInTable(TableOf(s.edges, born), input.name);
  }

  lemma SetupInputKeeps(groupable: set<string>, base: set<Tensor>, s: State, born: set<string>, device: OpDevice, input: Tensor)
    requires Coherent(s, born) && !device.OtherOp? && Base(s.externals) <= base
    requires SetupInput(groupable, s, device, input).Ok?
    ensures var (t, renamed) := SetupInput(groupable, s, device, input).value;
            && input.name in s.edges && renamed == Renamed(device, input)
            && Coherent(t, born) && OnlyCopies(base, s, t) && Ready(t.edges, device, input)
            && TableOf(t.edges, born).copied == TableOf(s.edges, born).copied + CopiedFor(device, input, born)
  {
    var e := input.name;
    hide AllTensors, Once, ReadsMet, SetupCpuInput, SetupGpuInput, Contiguous, NoClash, Tensors, Copies;
    if device == GpuOp {
      if input.storage == OnCpu {
        SetupCpuUnfold(groupable, s, e);
        if !s.edges[e].hasContiguous {
          var t := SetupCpuInput(groupable, s, e).value;
          ContiguousCopyKeeps(base, s, t, born, e);
          CopiesFlag(s, t, e, Tensor(Contiguous(e), OnCpu), s.edges[e].(hasContiguous := true));
        }
      } else {
        SetupGpuUnfold(groupable, s, e);
        if !s.edges[e].hasGpu {
          var t := SetupGpuInput(groupable, s, e).value;
          GpuCopyKeeps(base, s, t, born, e);
          CopiesFlag(s, t, e, Tensor(e, OnGpu), s.edges[e].(hasGpu := true));
        }
      }
    }
  }

  lemma CopiesFlag(s: State, t: State, edge: string, target: Tensor, meta: EdgeMeta)
    requires Copies(s, t, edge, target, meta)
    ensures edge in t.edges && t.edges[edge] == meta
  {
  }

  lemma RenamedFromKeys(edges: map<string, EdgeMeta>, edges': map<string, EdgeMeta>, device: OpDevice,
                        inputs: seq<Tensor>, renamed: seq<Tensor>)
    requires edges.Keys == edges'.Keys && RenamedFrom(edges, device, inputs, renamed)
    ensures RenamedFrom(edges', device, inputs, renamed)
  {
  }

  lemma InputCons(edges: map<string, EdgeMeta>, device: OpDevice, x: Tensor, xs: seq<Tensor>, y: Tensor, ys: seq<Tensor>)
    ensures AllReady(edges, device, [x] + xs) <==> Ready(edges, device, x) && AllReady(edges, device, xs)
    ensures x.name in edges && y == Renamed(device, x) && RenamedFrom(edges, device, xs, ys)
            ==> RenamedFrom(edges, device, [x] + xs, [y] + ys)
  {
    hide Ready, Renamed;
    assert forall t :: t in [x] + xs <==> t == x || t in xs;
  }

  lemma SetupInputsUnfold(groupable: set<string>, s: State, device: OpDevice, inputs: seq<Tensor>)
    returns (t: State, first: Tensor, u: State, rest: seq<Tensor>)
    requires inputs != [] && SetupInputs(groupable, s, device, inputs).Ok?
    ensures SetupInput(groupable, s, device, inputs[0]) == Ok((t, first))
    ensures SetupInputs(groupable, t, device, inputs[1..]) == Ok((u, rest))
    ensures SetupInputs(groupable, s, device, inputs) == Ok((u, [first] + rest))
  {
    hide SetupInput;
    t, first := SetupInput(groupable, s, device, inputs[0]).value.0, SetupInput(groupable, s, device, inputs[0]).value.1;
    u, rest := SetupInputs(groupable, t, device, inputs[1..]).value.0, SetupInputs(groupable, t, device, inputs[1..]).value.1;
  }

  lemma {:induction false} SetupInputsKeeps(groupable: set<string>, base: set<Tensor>, s: State, born: set<string>,
                                            device: OpDevice, inputs: seq<Tensor>)
    requires Coherent(s, born) && !device.OtherOp? && Base(s.externals) <= base
    requires SetupInputs(groupable, s, device, inputs).Ok?
    ensures var (t, renamed) := SetupInputs(groupable, s, device, inputs).value;
            && RenamedFrom(s.edges, device, inputs, renamed)
            && Coherent(t, born) && OnlyCopies(base, s, t) && AllReady(t.edges, device, inputs)
            && TableOf(t.edges, born).copied == TableOf(s.edges, born).copied + CopiedForAll(device, inputs, born)
    decreases |inputs|
  {
    hide *;
    CopiedForStep(device, inputs, born);
    if inputs == [] {
      NothingToSetUp(groupable, base, s, device);
    } else {
      var t, first, u, rest := SetupInputsUnfold(groupable, s, device, inputs);
      SetupInputKeeps(groupable, base, s, born, device, inputs[0]);
      OnlyCopiesFacts(base, s, t);
      SetupInputsKeeps(groupable, base, t, born, device, inputs[1..]);
      OnlyCopiesTransitive(base, s, t, u);
      RenamedFromKeys(t.edges, s.edges, device, inputs[1..], rest);
      ReadyKeptOne(base, t, u, device, inputs[0]);
      InputCons(u.edges, device, inputs[0], inputs[1..], first, rest);
      InputCons(s.edges, device, inputs[0], inputs[1..], first, rest);
      assert inputs == [inputs[0]] + inputs[1..];
    }
  }

  lemma CopiedForStep(device: OpDevice, inputs: seq<Tensor>, born: set<string>)
    ensures CopiedForAll(device, inputs, born) ==
            if inputs == [] then {} else CopiedFor(device, inputs[0], born) + CopiedForAll(device, inputs[1..], born)
  {
  }

  lemma ReadyKeptOne(base: set<Tensor>, s: State, t: State, device: OpDevice, input: Tensor)
    requires OnlyCopies(base, s, t) && Ready(s.edges, device, input)
    ensures Ready(t.edges, device, input)
  {
    hide ReadsMet;
  }

  lemma NothingToSetUp(groupable: set<string>, base: set<Tensor>, s: State, device: OpDevice)
    ensures SetupInputs(groupable, s, device, []) == Ok((s, []))
    ensures RenamedFrom(s.edges, device, [], []) && OnlyCopies(base, s, s) && AllReady(s.edges, device, [])
  {
  }

  // ---- the outputs of an operator --------------------------------------------------------------------

  ghost predicate NewNames(edges: map<string, EdgeMeta>, outputs: seq<Tensor>) {
    && (forall i :: 0 <= i < |outputs| ==> outputs[i].name !in edges)
    && (forall i, j :: 0 <= i < j < |outputs| ==> outputs[i].name != outputs[j].name)
  }

  ghost predicate Extended(edges: map<string, EdgeMeta>, edges': map<string, EdgeMeta>, device: OpDevice, outputs: seq<Tensor>) {
    && (forall e :: e in edges ==> e in edges' && edges'[e] == edges[e])
    && (forall i :: 0 <= i < |outputs| ==>
          outputs[i].name in edges' && edges'[outputs[i].name] == NewEdge(device, outputs[i].storage))
    && (forall e :: e in edges' ==> e in edges || exists i :: 0 <= i < |outputs| && outputs[i].name == e)
  }

  lemma {:induction false} AddOutputsMeaning(s: State, device: OpDevice, outputs: seq<Tensor>)
    requires AddOutputs(s, device, outputs).Ok?
    ensures var t := AddOutputs(s, device, outputs).value;
            && t == s.(edges := t.edges) && NewNames(s.edges, outputs) && Extended(s.edges, t.edges, device, outputs)
            && (device == SupportOp ==> forall i :: 0 <= i < |outputs| ==> outputs[i].storage == OnCpu)
    decreases |outputs|
  {
    hide NewNames, Extended, AddOutput, AddOutputs, NewEdge;
    if outputs == [] {
      NothingAdded(s, device);
    } else {
      var t, u := AddOutputsUnfold(s, device, outputs);
      AddOutputsMeaning(t, device, outputs[1..]);
      assert forall i :: 0 < i < |outputs| ==> outputs[i] == outputs[1..][i - 1];
      NewNamesCons(s.edges, device, outputs[0], outputs[1..]);
      ExtendedCons(s.edges, u.edges, device, outputs[0], outputs[1..]);
      assert outputs == [outputs[0]] + outputs[1..];
    }
  }

  lemma NothingAdded(s: State, device: OpDevice)
    ensures AddOutputs(s, device, []) == Ok(s) && NewNames(s.edges, []) && Extended(s.edges, s.edges, device, [])
  {
  }

  lemma AddOutputsUnfold(s: State, device: OpDevice, outputs: seq<Tensor>) returns (t: State, u: State)
    requires outputs != [] && AddOutputs(s, device, outputs).Ok?
    ensures outputs[0].name !in s.edges && t == s.(edges := s.edges[outputs[0].name := NewEdge(device, outputs[0].storage)])
    ensures device == SupportOp ==> outputs[0].storage == OnCpu
    ensures AddOutputs(t, device, outputs[1..]) == Ok(u) && AddOutputs(s, device, outputs) == Ok(u)
  {
    t := AddOutput(s, device, outputs[0]).value;
    u := AddOutputs(t, device, outputs[1..]).value;
  }

  lemma NewNamesCons(edges: map<string, EdgeMeta>, device: OpDevice, o: Tensor, rest: seq<Tensor>)
    requires o.name !in edges && NewNames(edges[o.name := NewEdge(device, o.storage)], rest)
    ensures NewNames(edges, [o] + rest)
  {
  }

  lemma ExtendedCons(edges: map<string, EdgeMeta>, edges': map<string, EdgeMeta>, device: OpDevice, o: Tensor, rest: seq<Tensor>)
    requires o.name !in edges && Extended(edges[o.name := NewEdge(device, o.storage)], edges', device, rest)
    ensures Extended(edges, edges', device, [o] + rest)
  {
    var all := [o] + rest;
    var mid := edges[o.name := NewEdge(device, o.storage)];
    forall e | e in edges' && e !in edges ensures exists i :: 0 <= i < |all| && all[i].name == e {
      if e == o.name {
        assert all[0].name == e;
      } else {
        assert e !in mid;
        var i :| 0 <= i < |rest| && rest[i].name == e;
        assert all[i + 1].name == e;
      }
    }
    forall i | 0 <= i < |all| ensures all[i].name in edges' && edges'[all[i].name] == NewEdge(device, all[i].storage) {
      if i == 0 {
        assert o.name in mid;
      } else {
        assert all[i] == rest[i - 1];
      }
    }
  }

  // Edges that an operator declares contiguous at birth.
  function Born(spec: OpSpec): set<string> {
    if spec.device == SupportOp || spec.device == GpuOp
    then set t | t in spec.outputs && t.storage == OnCpu :: t.name else {}
  }

  function CpuOutputs(spec: OpSpec): set<string> {
    set t | t in spec.outputs && t.storage == OnCpu :: t.name
  }

  function GpuOutputs(spec: OpSpec): set<string> {
    set t | t in spec.outputs && t.storage == OnGpu :: t.name
  }

  // The table after the outputs of an operator were recorded.
  lemma OutputTable(edges: map<string, EdgeMeta>, edges': map<string, EdgeMeta>, born: set<string>, spec: OpSpec)
    requires Flagged(edges, born) && NewNames(edges, spec.outputs) && Extended(edges, edges', spec.device, spec.outputs)
    requires spec.device == SupportOp ==> forall i :: 0 <= i < |spec.outputs| ==> spec.outputs[i].storage == OnCpu
    ensures Flagged(edges', born + Born(spec))
    ensures var before := TableOf(edges, born);
            TableOf(edges', born + Born(spec)) ==
            Table(before.cpu + CpuOutputs(spec), before.gpu + GpuOutputs(spec), before.copied)
  {
    hide NewEdge, NewNames, Extended, Born, CpuOutputs, GpuOutputs;
    OutputKeys(edges, edges', spec);
    forall e | e in edges' && e !in edges
      ensures edges'[e].hasCpu <==> e in CpuOutputs(spec)
      ensures edges'[e].hasGpu <==> e in GpuOutputs(spec)
      ensures edges'[e].hasContiguous <==> e in Born(spec)
      ensures edges'[e].hasCpu || edges'[e].hasGpu
    {
      NewEdgeFlags(edges, edges', spec, e);
    }
    var cpu, gpu, birth := CpuOutputs(spec), GpuOutputs(spec), Born(spec);
    assert TableOf(edges', born + birth).cpu == TableOf(edges, born).cpu + cpu;
    assert TableOf(edges', born + birth).gpu == TableOf(edges, born).gpu + gpu;
    assert TableOf(edges', born + birth).copied == TableOf(edges, born).copied;
  }

  lemma OutputKeys(edges: map<string, EdgeMeta>, edges': map<string, EdgeMeta>, spec: OpSpec)
    requires NewNames(edges, spec.outputs) && Extended(edges, edges', spec.device, spec.outputs)
    ensures forall e :: e in edges ==> e in edges' && edges'[e] == edges[e]
    ensures CpuOutputs(spec) + GpuOutputs(spec) == edges'.Keys - edges.Keys
    ensures Born(spec) <= CpuOutputs(spec)
  {
    hide NewEdge;
    forall e | e in edges' && e !in edges ensures e in CpuOutputs(spec) + GpuOutputs(spec) {
      var i :| 0 <= i < |spec.outputs| && spec.outputs[i].name == e;
      assert spec.outputs[i] in spec.outputs;
    }
    forall t | t in spec.outputs ensures t.name in edges' && t.name !in edges {
      var i :| 0 <= i < |spec.outputs| && spec.outputs[i] == t;
    }
  }

  lemma NewEdgeFlags(edges: map<string, EdgeMeta>, edges': map<string, EdgeMeta>, spec: OpSpec, e: string)
    requires NewNames(edges, spec.outputs) && Extended(edges, edges', spec.device, spec.outputs) && e in edges' && e !in edges
    requires spec.device == SupportOp ==> forall i :: 0 <= i < |spec.outputs| ==> spec.outputs[i].storage == OnCpu
    ensures edges'[e].hasCpu <==> e in CpuOutputs(spec)
    ensures edges'[e].hasGpu <==> e in GpuOutputs(spec)
    ensures edges'[e].hasContiguous <==> e in Born(spec)
    ensures edges'[e].hasCpu || edges'[e].hasGpu
  {
    var i :| 0 <= i < |spec.outputs| && spec.outputs[i].name == e;
    var o := spec.outputs[i];
    assert o in spec.outputs;
    assert forall t :: t in spec.outputs && t.name == e ==> t == o;
    assert edges'[e] == NewEdge(spec.device, o.storage);
  }

  lemma OutputTensors(table: Table, spec: OpSpec)
    ensures Tensors(Table(table.cpu + CpuOutputs(spec), table.gpu + GpuOutputs(spec), table.copied)) ==
            Tensors(table) + Writes(spec)
  {
    hide Contiguous;
    var after := Table(table.cpu + CpuOutputs(spec), table.gpu + GpuOutputs(spec), table.copied);
    forall t | t in Tensors(after) ensures t in Tensors(table) + Writes(spec) {
    }
    forall t | t in spec.outputs ensures t in Tensors(after) {
      assert t == Tensor(t.name, t.storage);
    }
  }

  // New names collide with copies only.
  lemma OutputClash(edges: map<string, EdgeMeta>, born: set<string>, spec: OpSpec)
    requires NewNames(edges, spec.outputs)
    ensures var table := TableOf(edges, born);
            Writes(spec) !! Tensors(table) <==>
            forall e :: e in table.copied ==> Contiguous(e) !in CpuOutputs(spec)
    ensures DistinctOutputs(spec)
  {
    hide Contiguous, Tensors, TableOf, CpuOutputs;
    var table := TableOf(edges, born);
    forall e | e in table.copied
      ensures Tensor(Contiguous(e), OnCpu) in Tensors(table)
      ensures Tensor(Contiguous(e), OnCpu) in Writes(spec) <==> Contiguous(e) in CpuOutputs(spec)
    {
      CopyInTable(table, e);
      CpuOutputWritten(spec, Contiguous(e));
    }
    forall t | t in Writes(spec) && t in Tensors(table)
      ensures exists e :: e in table.copied && Contiguous(e) in CpuOutputs(spec)
    {
      NewTensorIsCopy(edges, born, spec, t);
    }
  }

  lemma CpuOutputWritten(spec: OpSpec, n: string)
    ensures n in CpuOutputs(spec) <==> Tensor(n, OnCpu) in Writes(spec)
  {
  }

  // A tensor with a new name that is nevertheless in the table is a copy.
  lemma NewTensorIsCopy(edges: map<string, EdgeMeta>, born: set<string>, spec: OpSpec, t: Tensor)
    requires NewNames(edges, spec.outputs) && t in Writes(spec) && t in Tensors(TableOf(edges, born))
    ensures exists e :: e in TableOf(edges, born).copied && Contiguous(e) in CpuOutputs(spec)
  {
    hide Contiguous;
    var i :| 0 <= i < |spec.outputs| && spec.outputs[i] == t;
    assert t.name !in edges;
    var e :| e in TableOf(edges, born).copied && t == Tensor(Contiguous(e), OnCpu);
  }

  // ---- whole operators ------------------------------------------------------------------------------

  ghost predicate Placed(s: State) {
    WellPlaced(Base(s.externals), s.ops)
  }

  // Adding the operator itself, after its copies (up to state t) and outputs (edges').
  lemma PushOperator(base: set<Tensor>, t: State, u: State, born: set<string>, def: OpDefinition, spec: OpSpec)
    requires Coherent(t, born) && Base(t.externals) <= base
    requires NewNames(t.edges, spec.outputs) && Extended(t.edges, u.edges, spec.device, spec.outputs)
    requires spec.device == SupportOp ==> forall i :: 0 <= i < |spec.outputs| ==> spec.outputs[i].storage == OnCpu
    requires def.spec == spec.(inputs := def.spec.inputs)
    requires RenamedFrom(t.edges, spec.device, spec.inputs, def.spec.inputs) && AllReady(t.edges, spec.device, spec.inputs)
    requires forall a :: a in spec.argInputs ==> ArgInputOk(t, a)
    requires u.ops == t.ops + [def] && u.externals == t.externals
    ensures Coherent(u, born + Born(spec))
    ensures var before, after := TableOf(t.edges, born), TableOf(u.edges, born + Born(spec));
            after.cpu == before.cpu + CpuOutputs(spec) && after.copied == before.copied
    ensures ReadsMet(base, u.ops) <==>
              ReadsMet(base, t.ops) && AllSourced(spec.device, spec.inputs, born, TableOf(t.edges, born).cpu, base)
  {
    hide Available, Once, ReadsMet, WellPlaced, Contiguous, NewNames, Extended, Tensors, Born, CpuOutputs, GpuOutputs,
         RenamedFrom, AllReady, Reads, TableOf, Flagged, AllSourced, ArgInputOk;
    var before := TableOf(t.edges, born);
    assert Writes(def.spec) == Writes(spec) && (DistinctOutputs(def.spec) <==> DistinctOutputs(spec));
    AvailablePush(Base(t.externals), t.ops, def);
    PartsPush(Base(t.externals), t.ops, def);
    PartsPush(base, t.ops, def);
    OutputTable(t.edges, u.edges, born, spec);
    ExtendedKeeps(t.edges, u.edges, spec);
    OutputTensors(before, spec);
    OutputClash(t.edges, born, spec);
    assert base == Base(t.externals) + base;
    AvailableBase(Base(t.externals), base, t.ops);
    ReadsSourced(t, born, base, spec, def.spec);
  }

  lemma ExtendedKeeps(edges: map<string, EdgeMeta>, edges': map<string, EdgeMeta>, spec: OpSpec)
    requires Extended(edges, edges', spec.device, spec.outputs)
    ensures edges.Keys <= edges'.Keys
  {
  }

  lemma ReadsSourced(t: State, born: set<string>, base: set<Tensor>, spec: OpSpec, spec': OpSpec)
    requires Coherent(t, born) && spec'.argInputs == spec.argInputs
    requires RenamedFrom(t.edges, spec.device, spec.inputs, spec'.inputs) && AllReady(t.edges, spec.device, spec.inputs)
    requires forall a :: a in spec.argInputs ==> ArgInputOk(t, a)
    ensures Reads(spec') <= AllTensors(t) + base <==> AllSourced(spec.device, spec.inputs, born, TableOf(t.edges, born).cpu, base)
  {
    hide AllTensors, Once, Contiguous, NoClash, Tensors, SourcedInput, Renamed;
    var cpu := TableOf(t.edges, born).cpu;
    forall x | x in spec.inputs
      ensures Renamed(spec.device, x) in base + AllTensors(t) <==> SourcedInput(spec.device, x, born, cpu, base)
    {
      ReadyThere(t, born, base, spec.device, x);
    }
    forall a | a in spec.argInputs ensures Tensor(a.edge, OnCpu) in AllTensors(t) {
      GpuInTable(TableOf(t.edges, born), a.edge);
    }
    forall i | 0 <= i < |spec.inputs| ensures spec'.inputs[i] == Renamed(spec.device, spec.inputs[i]) && spec'.inputs[i] in Reads(spec') {
    }
    if Reads(spec') <= AllTensors(t) + base {
      forall x | x in spec.inputs ensures SourcedInput(spec.device, x, born, cpu, base) {
        var i :| 0 <= i < |spec.inputs| && spec.inputs[i] == x;
        assert spec'.inputs[i] in Reads(spec');
      }
    }
  }

  /** Adding an operator keeps the table exact; its reads are met exactly when each cpu input of a gpu
      operator was not born contiguous, or its contiguous name is that of an earlier cpu edge or of an
      external input. */
  lemma AddPlainKeeps(groupable: set<string>, base: set<Tensor>, s: State, born: set<string>, def: OpDefinition)
    requires Coherent(s, born) && !def.spec.device.OtherOp? && Base(s.externals) <= base
    requires AddPlain(groupable, s, def).Ok?
    ensures var u, spec := AddPlain(groupable, s, def).value, def.spec;
            var before, after := TableOf(s.edges, born), TableOf(u.edges, born + Born(spec));
            && Coherent(u, born + Born(spec)) && u.externals == s.externals
            && after.cpu == before.cpu + CpuOutputs(spec)
            && after.copied == before.copied + CopiedForAll(spec.device, spec.inputs, born)
            && (ReadsMet(base, u.ops) <==> ReadsMet(base, s.ops) && AllSourced(spec.device, spec.inputs, born, before.cpu, base))
  {
    hide *;
    var spec := def.spec;
    var t, renamed, t2 := AddPlainUnfold(groupable, s, def);
    AddOutputsMeaning(t, spec.device, spec.outputs);
    SetupInputsKeeps(groupable, base, s, born, spec.device, spec.inputs);
    OnlyCopiesFacts(base, s, t);
    OnlyCopiesReads(base, s, t);
    RenamedFromKeys(s.edges, t.edges, spec.device, spec.inputs, renamed);
    PushOperator(base, t, AddPlain(groupable, s, def).value, born, def.(spec := spec.(inputs := renamed)), spec);
  }

  lemma OnlyCopiesReads(base: set<Tensor>, s: State, t: State)
    requires OnlyCopies(base, s, t)
    ensures ReadsMet(base, t.ops) <==> ReadsMet(base, s.ops)
  {
  }

  lemma AddPlainUnfold(groupable: set<string>, s: State, def: OpDefinition) returns (t: State, renamed: seq<Tensor>, u: State)
    requires AddPlain(groupable, s, def).Ok?
    ensures SetupInputs(groupable, s, def.spec.device, def.spec.inputs) == Ok((t, renamed))
    ensures forall a :: a in def.spec.argInputs ==> ArgInputOk(t, a)
    ensures AddOutputs(t, def.spec.device, def.spec.outputs) == Ok(u)
    ensures AddPlain(groupable, s, def) == AddToOpSpecs(groupable, u, def.(spec := def.spec.(inputs := renamed)))
    ensures var r := AddPlain(groupable, s, def).value;
            r.edges == u.edges && r.externals == u.externals && r.ops == u.ops + [def.(spec := def.spec.(inputs := renamed))]
  {
    var r := SetupInputs(groupable, s, def.spec.device, def.spec.inputs).value;
    t, renamed := r.0, r.1;
    u := AddOutputs(t, def.spec.device, def.spec.outputs).value;
  }

  lemma {:induction false} SetupInputsKeys(groupable: set<string>, s: State, device: OpDevice, inputs: seq<Tensor>)
    requires SetupInputs(groupable, s, device, inputs).Ok?
    ensures SetupInputs(groupable, s, device, inputs).value.0.edges.Keys == s.edges.Keys
    decreases |inputs|
  {
    if inputs != [] {
      var (t, first) := SetupInput(groupable, s, device, inputs[0]).value;
      assert t.edges.Keys == s.edges.Keys;
      SetupInputsKeys(groupable, t, device, inputs[1..]);
    }
  }

  // The edge table only grows.
  lemma AddPlainKeys(groupable: set<string>, s: State, def: OpDefinition)
    requires AddPlain(groupable, s, def).Ok?
    ensures s.edges.Keys <= AddPlain(groupable, s, def).value.edges.Keys
  {
    var spec := def.spec;
    SetupInputsKeys(groupable, s, spec.device, spec.inputs);
    AddOutputsMeaning(SetupInputs(groupable, s, spec.device, spec.inputs).value.0, spec.device, spec.outputs);
  }

  lemma NewNameIsCopy(edges: map<string, EdgeMeta>, born: set<string>, name: string)
    requires name !in edges
    ensures Tensor(name, OnCpu) in Tensors(TableOf(edges, born)) <==>
            exists e :: e in TableOf(edges, born).copied && Contiguous(e) == name
  {
    hide Contiguous;
  }

  // ---- external inputs --------------------------------------------------------------------------------

  lemma AddExternalKeeps(s: State, born: set<string>, name: string)
    requires Coherent(s, born) && AddExternalInput(s, name).Ok?
    ensures var u := AddExternalInput(s, name).value;
            var before, after := TableOf(s.edges, born), TableOf(u.edges, born);
            && Coherent(u, born) && u.ops == s.ops && u.externals == s.externals + [name]
            && after.cpu == before.cpu + {name} && after.copied == before.copied
  {
    hide Available, Once, Contiguous, Tensors, NoClash, TableOf, Flagged;
    var t := Tensor(name, OnCpu);
    CpuFlag(s.edges, born, name);
    CpuAdded(TableOf(s.edges, born), name);
    NewNameIsCopy(s.edges, born, name);
    BaseSnoc(s.externals, name);
    assert t !in Base(s.externals);
    hide Base;
    AddedBase(s.externals, name, s.ops);
  }

  lemma AddedBase(externals: seq<string>, name: string, ops: seq<OpDefinition>)
    requires Tensor(name, OnCpu) !in Base(externals)
    ensures Available(Base(externals + [name]), ops) == Available(Base(externals), ops) + {Tensor(name, OnCpu)}
    ensures Once(Base(externals + [name]), ops) <==>
              Once(Base(externals), ops) && Tensor(name, OnCpu) !in Available(Base(externals), ops)
  {
    hide *;
    BaseSnoc(externals, name);
    AvailableBase(Base(externals), {Tensor(name, OnCpu)}, ops);
    OnceExtend(Base(externals), ops, Tensor(name, OnCpu));
  }

  lemma CpuFlag(edges: map<string, EdgeMeta>, born: set<string>, name: string)
    requires Flagged(edges, born) && name !in edges
    ensures var after := edges[name := EdgeMeta(true, false, false, false)];
            Flagged(after, born) && TableOf(after, born) == TableOf(edges, born).(cpu := TableOf(edges, born).cpu + {name})
  {
  }

  // ---- AddOperator and runs -----------------------------------------------------------------------------

  // The next free logical id after an operator with a given one.
  function Bumped(next: int, id: int): int {
    if id > next then id + 1 else next
  }

  lemma AddOperatorUnfold(groupable: set<string>, s: State, def: OpDefinition) returns (s0: State)
    requires AddOperator(groupable, s, def).Ok? && !Splits(def.spec)
    ensures s0.edges == s.edges && s0.ops == s.ops && s0.externals == s.externals
    ensures s0.logicalIds == s.logicalIds && s0.nextInternalId == s.nextInternalId
    ensures AddOperator(groupable, s, def) == AddPlain(groupable, s0, def)
    ensures !def.spec.device.OtherOp? && def.logicalId >= 0
    ensures s0.serialized == s.serialized + [def] && s0.nextLogicalId == Bumped(s.nextLogicalId, def.logicalId)
  {
    hide AddPlain;
    s0 := s.(nextLogicalId := Bumped(s.nextLogicalId, def.logicalId), serialized := s.serialized + [def]);
  }

  lemma AddSplitUnfold(groupable: set<string>, s: State, def: OpDefinition) returns (s0: State, s1: State)
    requires AddOperator(groupable, s, def).Ok? && Splits(def.spec)
    ensures s0.edges == s.edges && s0.ops == s.ops && s0.externals == s.externals
    ensures s0.logicalIds == s.logicalIds && s0.nextInternalId == s.nextInternalId
    ensures s0 == s.(nextLogicalId := Bumped(s.nextLogicalId, def.logicalId), serialized := s.serialized + [def])
    ensures def.spec.outputs != [] && def.spec.argInputs == [] && def.logicalId >= 0
    ensures !Splits(CpuStage(def.spec, def.instName)) && !Splits(GpuStage(def.spec, def.instName))
    ensures AddOperator(groupable, s0, def.(spec := CpuStage(def.spec, def.instName))) == Ok(s1)
    ensures AddOperator(groupable, s, def)
            == AddOperator(groupable, s1.(nextLogicalId := s1.nextLogicalId + 1),
                           OpDefinition(def.instName + "_gpu", GpuStage(def.spec, def.instName), s1.nextLogicalId))
  {
    hide AddPlain, CpuStage, GpuStage, Contains;
    var next := if def.logicalId > s.nextLogicalId then def.logicalId + 1 else s.nextLogicalId;
    s0 := s.(nextLogicalId := next, serialized := s.serialized + [def]);
    StagesDoNotSplit(def.spec, def.instName);
    s1 := AddOperator(groupable, s0, def.(spec := CpuStage(def.spec, def.instName))).value;
  }

  lemma UnsplitKeys(groupable: set<string>, s: State, def: OpDefinition)
    requires AddOperator(groupable, s, def).Ok? && !Splits(def.spec)
    ensures s.edges.Keys <= AddOperator(groupable, s, def).value.edges.Keys
  {
    hide *;
    var s0 := AddOperatorUnfold(groupable, s, def);
    AddPlainKeys(groupable, s0, def);
  }

  lemma StepKeys(groupable: set<string>, s: State, call: Call)
    requires Step(groupable, s, call).Ok?
    ensures s.edges.Keys <= Step(groupable, s, call).value.edges.Keys
  {
    hide AddOperator;
    if call.Operator? {
      if Splits(call.def.spec) {
        var s0, s1 := AddSplitUnfold(groupable, s, call.def);
        UnsplitKeys(groupable, s0, call.def.(spec := CpuStage(call.def.spec, call.def.instName)));
        UnsplitKeys(groupable, s1.(nextLogicalId := s1.nextLogicalId + 1),
                    OpDefinition(call.def.instName + "_gpu", GpuStage(call.def.spec, call.def.instName), s1.nextLogicalId));
      } else {
        UnsplitKeys(groupable, s, call.def);
      }
    }
  }

  // What a call adds: edges born contiguous, cpu versions and contiguous copies. The stages of a split
  // decoder run on the cpu and mixed devices.
  function BornBy(call: Call): set<string> {
    if call.External? || Splits(call.def.spec) then {} else Born(call.def.spec)
  }

  function CpuBy(call: Call): set<string> {
    if call.External? then {call.name}
    else if Splits(call.def.spec) && call.def.spec.outputs != [] then CpuOutputs(CpuStage(call.def.spec, call.def.instName))
    else CpuOutputs(call.def.spec)
  }

  function CopiedBy(call: Call, born: set<string>): set<string> {
    if call.External? || Splits(call.def.spec) then {} else CopiedForAll(call.def.spec.device, call.def.spec.inputs, born)
  }

  function Declares(call: Call): seq<string> {
    if call.External? then [call.name] else []
  }

  predicate GoodCall(call: Call, born: set<string>) {
    call.External? || Splits(call.def.spec) || AllGood(call.def.spec.device, call.def.spec.inputs, born)
  }

  predicate SourcedCall(call: Call, born: set<string>, cpu: set<string>, base: set<Tensor>) {
    call.External? || Splits(call.def.spec) || AllSourced(call.def.spec.device, call.def.spec.inputs, born, cpu, base)
  }

  // ---- what a call records ---------------------------------------------------------------------------

  lemma {:induction false} SetupInputsRecords(groupable: set<string>, s: State, device: OpDevice, inputs: seq<Tensor>)
    requires SetupInputs(groupable, s, device, inputs).Ok?
    ensures var t := SetupInputs(groupable, s, device, inputs).value.0;
            t.serialized == s.serialized && t.externals == s.externals && t.nextLogicalId == s.nextLogicalId
    decreases |inputs|
  {
    if inputs != [] {
      SetupInputsRecords(groupable, SetupInput(groupable, s, device, inputs[0]).value.0, device, inputs[1..]);
    }
  }

  lemma {:induction false} AddOutputsRecords(s: State, device: OpDevice, outputs: seq<Tensor>)
    requires AddOutputs(s, device, outputs).Ok?
    ensures var t := AddOutputs(s, device, outputs).value;
            t.serialized == s.serialized && t.externals == s.externals && t.nextLogicalId == s.nextLogicalId
    decreases |outputs|
  {
    if outputs != [] {
      AddOutputsRecords(AddOutput(s, device, outputs[0]).value, device, outputs[1..]);
    }
  }

  lemma AddPlainRecords(groupable: set<string>, s: State, def: OpDefinition)
    requires AddPlain(groupable, s, def).Ok?
    ensures var t := AddPlain(groupable, s, def).value;
            t.serialized == s.serialized && t.externals == s.externals && t.nextLogicalId == s.nextLogicalId
  {
    var t, renamed, u := AddPlainUnfold(groupable, s, def);
    SetupInputsRecords(groupable, s, def.spec.device, def.spec.inputs);
    AddOutputsRecords(t, def.spec.device, def.spec.outputs);
  }

  lemma UnsplitRecords(groupable: set<string>, s: State, def: OpDefinition)
    requires AddOperator(groupable, s, def).Ok? && !Splits(def.spec)
    ensures var t := AddOperator(groupable, s, def).value;
            && t.serialized == s.serialized + [def] && t.externals == s.externals
            && t.nextLogicalId == Bumped(s.nextLogicalId, def.logicalId)
  {
    hide AddOperator, AddPlain;
    var s0 := AddOperatorUnfold(groupable, s, def);
    AddPlainRecords(groupable, s0, def);
  }

  // A split decoder is recorded three times: itself and each of its stages.
  lemma SplitRecords(groupable: set<string>, s: State, def: OpDefinition) returns (gpu: OpDefinition)
    requires AddOperator(groupable, s, def).Ok? && Splits(def.spec)
    ensures def.spec.outputs != []
    ensures var t := AddOperator(groupable, s, def).value;
            && t.serialized == s.serialized + [def, def.(spec := CpuStage(def.spec, def.instName)), gpu]
            && t.externals == s.externals
  {
    hide AddOperator, AddPlain;
    var s0, s1 := AddSplitUnfold(groupable, s, def);
    UnsplitRecords(groupable, s0, def.(spec := CpuStage(def.spec, def.instName)));
    gpu := OpDefinition(def.instName + "_gpu", GpuStage(def.spec, def.instName), s1.nextLogicalId);
    UnsplitRecords(groupable, s1.(nextLogicalId := s1.nextLogicalId + 1), gpu);
  }

  lemma StepRecords(groupable: set<string>, s: State, call: Call)
    requires Step(groupable, s, call).Ok?
    ensures Step(groupable, s, call).value.externals == s.externals + Declares(call)
    ensures s.serialized <= Step(groupable, s, call).value.serialized
  {
    hide AddOperator;
    if call.Operator? {
      if Splits(call.def.spec) {
        var _ := SplitRecords(groupable, s, call.def);
      } else {
        UnsplitRecords(groupable, s, call.def);
      }
    }
  }

  // What one accepted call does to a coherent state.
  ghost predicate Advances(base: set<Tensor>, s: State, u: State, born: set<string>, call: Call) {
    var before, after := TableOf(s.edges, born), TableOf(u.edges, born + BornBy(call));
    && Coherent(u, born + BornBy(call)) && u.externals == s.externals + Declares(call)
    && after.cpu == before.cpu + CpuBy(call) && after.copied == before.copied + CopiedBy(call, born)
    && (ReadsMet(base, u.ops) <==> ReadsMet(base, s.ops) && SourcedCall(call, born, before.cpu, base))
  }

  lemma CoherentSame(s: State, t: State, born: set<string>)
    requires t.edges == s.edges && t.ops == s.ops && t.externals == s.externals
    ensures Coherent(t, born) <==> Coherent(s, born)
  {
  }

  lemma UnsplitKeeps(groupable: set<string>, base: set<Tensor>, s: State, born: set<string>, def: OpDefinition)
    requires Coherent(s, born) && !Splits(def.spec) && Base(s.externals) <= base && AddOperator(groupable, s, def).Ok?
    ensures Advances(base, s, AddOperator(groupable, s, def).value, born, Operator(def))
  {
    hide AddOperator, AddPlain, Coherent, TableOf, ReadsMet, AllSourced, CopiedForAll, CpuOutputs, Born, Base;
    var s0 := AddOperatorUnfold(groupable, s, def);
    CoherentSame(s, s0, born);
    AddPlainKeeps(groupable, base, s0, born, def);
  }

  lemma StageEffects(def: OpDefinition, born: set<string>, cpu: set<string>, base: set<Tensor>, id: int)
    requires Splits(def.spec) && def.spec.outputs != [] && def.spec.argInputs == []
    ensures var first := Operator(def.(spec := CpuStage(def.spec, def.instName)));
            var second := Operator(OpDefinition(def.instName + "_gpu", GpuStage(def.spec, def.instName), id));
            && BornBy(first) == {} && BornBy(second) == {} && CopiedBy(first, born) == {} && CopiedBy(second, born) == {}
            && CpuBy(first) == CpuBy(Operator(def)) && CpuBy(second) == {}
            && SourcedCall(first, born, cpu, base) && SourcedCall(second, born, cpu, base)
  {
    StagesDoNotSplit(def.spec, def.instName);
    hide Contains, CpuStageName, DECODER_PREFIXES;
    NothingCopied(CpuStage(def.spec, def.instName).device, CpuStage(def.spec, def.instName).inputs, born);
    NothingCopied(GpuStage(def.spec, def.instName).device, GpuStage(def.spec, def.instName).inputs, born);
  }

  lemma {:induction false} NothingCopied(device: OpDevice, inputs: seq<Tensor>, born: set<string>)
    requires device != GpuOp
    ensures CopiedForAll(device, inputs, born) == {}
  {
    if inputs != [] {
      NothingCopied(device, inputs[1..], born);
    }
  }

  lemma SplitKeeps(groupable: set<string>, base: set<Tensor>, s: State, born: set<string>, def: OpDefinition)
    requires Coherent(s, born) && Splits(def.spec) && Base(s.externals) <= base && AddOperator(groupable, s, def).Ok?
    ensures Advances(base, s, AddOperator(groupable, s, def).value, born, Operator(def))
  {
    hide AddOperator, Coherent, TableOf, ReadsMet, Base, Contains, CpuStage, GpuStage, CpuOutputs, CpuBy, CopiedBy, BornBy, SourcedCall;
    var s0, s1 := AddSplitUnfold(groupable, s, def);
    var cpu := def.(spec := CpuStage(def.spec, def.instName));
    var gpu := OpDefinition(def.instName + "_gpu", GpuStage(def.spec, def.instName), s1.nextLogicalId);
    var s2 := s1.(nextLogicalId := s1.nextLogicalId + 1);
    StageEffects(def, born, TableOf(s.edges, born).cpu, base, s1.nextLogicalId);
    StageEffects(def, born, TableOf(s1.edges, born).cpu, base, s1.nextLogicalId);
    SplitEffects(def, born, TableOf(s.edges, born).cpu, base);
    assert born + {} == born;
    CoherentSame(s, s0, born);
    UnsplitKeeps(groupable, base, s0, born, cpu);
    assert s0.externals + [] == s0.externals;
    CoherentSame(s1, s2, born);
    UnsplitKeeps(groupable, base, s2, born, gpu);
  }

  lemma SplitEffects(def: OpDefinition, born: set<string>, cpu: set<string>, base: set<Tensor>)
    requires Splits(def.spec)
    ensures BornBy(Operator(def)) == {} && CopiedBy(Operator(def), born) == {} && SourcedCall(Operator(def), born, cpu, base)
  {
  }

  /** Every accepted call keeps the invariant, and says what it adds to the table. */
  lemma StepKeeps(groupable: set<string>, base: set<Tensor>, s: State, born: set<string>, call: Call)
    requires Coherent(s, born) && Step(groupable, s, call).Ok? && Base(s.externals) <= base
    ensures Advances(base, s, Step(groupable, s, call).value, born, call)
  {
    hide AddOperator, Coherent, TableOf, ReadsMet, Base, Splits;
    match call
    case External(name) =>
      AddExternalKeeps(s, born, name);
      assert born + {} == born;
    case Operator(def) =>
      if Splits(def.spec) {
        SplitKeeps(groupable, base, s, born, def);
      } else {
        UnsplitKeeps(groupable, base, s, born, def);
      }
  }

  function BornOf(calls: seq<Call>): set<string> {
    if calls == [] then {} else BornOf(calls[..|calls| - 1]) + BornBy(calls[|calls| - 1])
  }

  // Edges with a cpu version after a run.
  function CpuEdges(calls: seq<Call>): set<string> {
    if calls == [] then {} else CpuEdges(calls[..|calls| - 1]) + CpuBy(calls[|calls| - 1])
  }

  // Edges that some gpu operator reads on the cpu and that were not born contiguous.
  function CopiedEdges(calls: seq<Call>): set<string> {
    if calls == [] then {}
    else CopiedEdges(calls[..|calls| - 1]) + CopiedBy(calls[|calls| - 1], BornOf(calls[..|calls| - 1]))
  }

  function ExternalNames(calls: seq<Call>): seq<string> {
    if calls == [] then [] else ExternalNames(calls[..|calls| - 1]) + Declares(calls[|calls| - 1])
  }

  /** No edge that is copied shares the name of its copy with an edge on the cpu. */
  predicate NoCopyClash(calls: seq<Call>) {
    forall e :: e in CopiedEdges(calls) ==> Contiguous(e) !in CpuEdges(calls)
  }

  /** Whenever a gpu operator reads on the cpu an edge born contiguous, its contiguous name is that of
      an earlier cpu edge or of an external input declared at any time. */
  predicate ReadsSourcedBy(calls: seq<Call>, base: set<Tensor>) {
    if calls == [] then true
    else
      var front, last := calls[..|calls| - 1], calls[|calls| - 1];
      ReadsSourcedBy(front, base) && SourcedCall(last, BornOf(front), CpuEdges(front), base)
  }

  // No gpu operator of the run takes a cpu input from an edge born contiguous earlier.
  predicate GoodRun(calls: seq<Call>) {
    calls == [] || (GoodRun(calls[..|calls| - 1]) && GoodCall(calls[|calls| - 1], BornOf(calls[..|calls| - 1])))
  }

  lemma {:induction false} RunTable(groupable: set<string>, calls: seq<Call>, base: set<Tensor>)
    requires Run(groupable, calls).Ok? && Base(Run(groupable, calls).value.externals) <= base
    ensures var s := Run(groupable, calls).value;
            var table := TableOf(s.edges, BornOf(calls));
            && Coherent(s, BornOf(calls)) && s.externals == ExternalNames(calls)
            && table.cpu == CpuEdges(calls) && table.copied == CopiedEdges(calls)
            && (ReadsMet(base, s.ops) <==> ReadsSourcedBy(calls, base))
  {
    if calls == [] {
      assert Coherent(INITIAL, {}) by { InitialCoherent(); }
    } else {
      hide Step, Coherent, TableOf, ReadsMet, CpuBy, BornBy, CopiedBy, SourcedCall, Declares;
      var front, last := calls[..|calls| - 1], calls[|calls| - 1];
      var s := Run(groupable, front).value;
      StepExternals(groupable, s, last);
      RunTable(groupable, front, base);
      StepKeeps(groupable, base, s, BornOf(front), last);
    }
  }

  lemma InitialCoherent()
    ensures Coherent(INITIAL, {})
  {
    assert AllTensors(INITIAL) == {};
  }

  lemma StepExternals(groupable: set<string>, s: State, call: Call)
    requires Step(groupable, s, call).Ok?
    ensures Base(s.externals) <= Base(Step(groupable, s, call).value.externals)
  {
    hide Step;
    StepRecords(groupable, s, call);
  }

  /** Every accepted run: the edge table describes the tensors exactly, and the graph can be
      instantiated - every tensor produced once and before it is used - if and only if no copied edge
      shares the name of its copy with a cpu edge, and every cpu read of an edge born contiguous finds
      an edge of the contiguous name. */
  lemma AcceptedRuns(groupable: set<string>, calls: seq<Call>)
    requires Run(groupable, calls).Ok?
    ensures var s := Run(groupable, calls).value;
            && Coherent(s, BornOf(calls)) && s.externals == ExternalNames(calls)
            && (Placed(s) <==> NoCopyClash(calls) && ReadsSourcedBy(calls, Base(ExternalNames(calls))))
  {
    var s := Run(groupable, calls).value;
    RunTable(groupable, calls, Base(s.externals));
    WellPlacedParts(Base(s.externals), s.ops);
    hide Run, Once, ReadsMet, WellPlaced, AllTensors, Contiguous, CpuEdges, CopiedEdges, BornOf, ReadsSourcedBy, Tensors;
  }

  // ---- runs without shadowed names ------------------------------------------------------------------------

  // No edge is called like the contiguous copy of another edge.
  predicate NoShadow(names: set<string>) {
    forall a, b :: a in names && b in names ==> a != Contiguous(b)
  }

  lemma {:induction false} SourcedIsGood(calls: seq<Call>, names: set<string>, base: set<Tensor>)
    requires NoShadow(names) && CpuEdges(calls) <= names && BornOf(calls) <= names && forall t :: t in base ==> t.name in names
    ensures ReadsSourcedBy(calls, base) <==> GoodRun(calls)
  {
    if calls != [] {
      var front, last := calls[..|calls| - 1], calls[|calls| - 1];
      SourcedIsGood(front, names, base);
      if last.Operator? {
        hide Contiguous, Splits, CpuBy, BornBy, NoShadow;
        forall t | t in last.def.spec.inputs
          ensures SourcedInput(last.def.spec.device, t, BornOf(front), CpuEdges(front), base) <==>
                  GoodInput(last.def.spec.device, t, BornOf(front))
        {
          if t.name in BornOf(front) {
            NoShadowAt(names, t.name);
          }
        }
      }
    }
  }

  lemma NoShadowAt(names: set<string>, e: string)
    requires NoShadow(names) && e in names
    ensures Contiguous(e) !in names
  {
    hide Contiguous;
  }

  /** When no edge is named like the copy of another, the graph can be instantiated if and only if no gpu
      operator reads on the cpu an edge that was born contiguous. */
  lemma UnshadowedRuns(groupable: set<string>, calls: seq<Call>)
    requires Run(groupable, calls).Ok? && NoShadow(Run(groupable, calls).value.edges.Keys)
    ensures Placed(Run(groupable, calls).value) <==> GoodRun(calls)
  {
    var s := Run(groupable, calls).value;
    hide Run, Placed, Once, AllTensors, Contiguous, CpuEdges, CopiedEdges, BornOf, ReadsSourcedBy, Tensors, NoShadow, GoodRun;
    AcceptedRuns(groupable, calls);
    RunTable(groupable, calls, Base(s.externals));
    SourcedIsGood(calls, s.edges.Keys, Base(s.externals));
    forall e | e in CopiedEdges(calls) ensures Contiguous(e) !in CpuEdges(calls) {
      NoShadowAt(s.edges.Keys, e);
    }
  }
}
