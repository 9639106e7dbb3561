/**
 Execution contracts: one step per planned phase, obligations placed by kind, and
 each step fed by the outputs of the one before.
 */
module Execution {
  import opened Base
  import opened Reachability
  import opened Obligations
  import opened Activation
  import Graphs = ExecutionGraph

  datatype KernelBinding = KernelBinding(sourceRef: string, outputs: seq<string>)

  datatype CompileError = PlanBlocked | UnknownPhase(id: string) | NoPhases

  const P0 := "P0_UNPACK"
  const P1 := "P1_CONSTITUTIONAL_PREFLIGHT"
  const P3 := "P3_ARCHITECTURE_DECISION"

  const CANONICAL_PHASES: set<string> := {P0, P1, P2, P3, P4, P5, P6, P7}

  /** The prose step of a phase: routing and architecture share one. */
  function ProseStep(phase: string): string
  {
    if phase == P0 then "lock context"
    else if phase == P1 then "run constitutional preflight"
    else if phase == P2 || phase == P3 then "apply selected task and architecture kernels"
    else if phase == P4 then "run alignment and stub gate"
    else if phase == P5 then "run recursive improvement"
    else if phase == P6 then "run leverage compression"
    else "execute terminal doctrine only after gates pass"
  }

  /** Where each kind of obligation is discharged. */
  function PhaseFor(kind: Kind, phases: seq<string>): string
    requires phases != []
  {
    match kind
    case Authority => P1
    case Realization => P2
    case Architecture => P3
    case Epistemic => P0
    case Validation => if P4 in phases then P4 else P2
    case Delivery => if P7 in phases then P7 else phases[|phases| - 1]
    case Convergence => if P7 in phases then P7 else phases[|phases| - 1]
  }

  /** The first phase of an id. */
  function FirstPhase(pipeline: seq<Phase>, id: string): Option<Phase>
  {
    if pipeline == [] then None
    else if pipeline[0].id == id then Some(pipeline[0])
    else FirstPhase(pipeline[1..], id)
  }

  predicate Primary(pipeline: seq<Phase>, phase: string, kernel: string)
  {
    FirstPhase(pipeline, phase).Some? && kernel in FirstPhase(pipeline, phase).value.primaryKernels
  }

  /** One binding's entries for a phase: one for each time the phase is listed. */
  function Entries(pipeline: seq<Phase>, listed: seq<string>, phase: string, kernel: string): seq<string>
  {
    if listed == [] then []
    else
      Entries(pipeline, listed[..|listed| - 1], phase, kernel)
      + (if listed[|listed| - 1] == phase && Primary(pipeline, phase, kernel) then [kernel] else [])
  }

  /** The kernels of one phase's step, in binding order. */
  function StepKernels(pipeline: seq<Phase>, listed: seq<string>, kernels: seq<KernelBinding>,
      phase: string): seq<string>
  {
    if kernels == [] then []
    else
      StepKernels(pipeline, listed, kernels[..|kernels| - 1], phase)
      + Entries(pipeline, listed, phase, kernels[|kernels| - 1].sourceRef)
  }

  function DeclaredOutputs(kernels: seq<KernelBinding>, refs: seq<string>): seq<string>
  {
    if kernels == [] then []
    else
      DeclaredOutputs(kernels[..|kernels| - 1], refs)
      + (if kernels[|kernels| - 1].sourceRef in refs then kernels[|kernels| - 1].outputs else [])
  }

  function StepOutputs(required: seq<string>, declared: seq<string>): seq<string>
  {
    required + Filter((o: string) => o !in required, declared)
  }

  /** The ids of the obligations a phase discharges, in order. */
  function PlacedIn(os: seq<Obligation>, phases: seq<string>, phase: string): seq<string>
    requires phases != []
  {
    if os == [] then []
    else
      PlacedIn(os[..|os| - 1], phases, phase)
      + (if PhaseFor(os[|os| - 1].kind, phases) == phase then [os[|os| - 1].id] else [])
  }

  datatype Contract = Contract(sequence: seq<string>, kernelActivation: seq<string>, steps: seq<Graphs.ExecStep>)

  /** Step `k` of the contract: its phase, kernels, obligations and outputs, fed by step `k - 1`. */
  ghost predicate IsStep(pipeline: seq<Phase>, phases: seq<string>, kernels: seq<KernelBinding>, os: seq<Obligation>,
                         steps: seq<Graphs.ExecStep>, k: nat)
    requires k < |phases| && k < |steps|
  {
    var s, refs := steps[k], StepKernels(pipeline, phases, kernels, phases[k]);
    && s.id == "step." + phases[k] && s.phase == phases[k] && s.kernelRefs == refs
    && s.obligationRefs == PlacedIn(os, phases, phases[k])
    && s.outputRefs == StepOutputs(OutputsOf(pipeline, phases[k]), DeclaredOutputs(kernels, refs))
    && s.inputRefs == if k == 0 then [] else steps[k - 1].outputRefs
  }

  ghost predicate IsCompiled(pipeline: seq<Phase>, phases: seq<string>, kernels: seq<KernelBinding>,
      os: seq<Obligation>,
                             steps: seq<Graphs.ExecStep>)
  {
    |steps| == |phases| && forall k: nat | k < |steps| :: IsStep(pipeline, phases, kernels, os, steps, k)
  }

  // ---- the imperative compiler -------------------------------------------

  function Listed(projected: map<string, seq<string>>, phase: string): seq<string>
  {
    if phase in projected then projected[phase] else []
  }

  lemma EntriesSnoc(pipeline: seq<Phase>, listed: seq<string>, k: nat, phase: string, kernel: string)
    requires k < |listed|
    ensures Entries(pipeline, listed[..k + 1], phase, kernel) == Entries(pipeline, listed[..k], phase, kernel)
      + (if listed[k] == phase && Primary(pipeline, phase, kernel) then [kernel] else [])
  {
    assert listed[..k + 1][..k] == listed[..k] && listed[..k + 1][k] == listed[k];
  }

  lemma KernelsSnoc(pipeline: seq<Phase>, listed: seq<string>, kernels: seq<KernelBinding>, b: nat, phase: string)
    requires b < |kernels|
    ensures StepKernels(pipeline, listed, kernels[..b + 1], phase)
         == StepKernels(pipeline, listed, kernels[..b], phase) + Entries(pipeline, listed, phase, kernels[b].sourceRef)
  {
    assert kernels[..b + 1][..b] == kernels[..b] && kernels[..b + 1][b] == kernels[b];
  }

  /** Enter one binding under every listed phase it is primary for. */
  method ProjectBinding(pipeline: seq<Phase>, phases: seq<string>, kernel: string, before: map<string, seq<string>>)
    returns (projected: map<string, seq<string>>)
    ensures forall p :: Listed(projected, p) == Listed(before, p) + Entries(pipeline, phases, p, kernel)
  {
    hide Entries, Primary;
    projected := before;
    NoEntries(pipeline, phases, kernel);
    for k := 0 to |phases|
      invariant forall p :: Listed(projected, p) == Listed(before, p) + Entries(pipeline, phases[..k], p, kernel)
    {
      ghost var sofar := projected;
      if Primary(pipeline, phases[k], kernel) {
        projected := projected[phases[k] := Listed(projected, phases[k]) + [kernel]];
      }
      forall p ensures Listed(projected, p) == Listed(before, p) + Entries(pipeline, phases[..k + 1], p, kernel) {
        EntriesSnoc(pipeline, phases, k, p, kernel);
        assert Listed(sofar, p) == Listed(before, p) + Entries(pipeline, phases[..k], p, kernel);
      }
    }
    assert phases[..|phases|] == phases;
  }

  /** The phase-to-kernels projection, binding by binding. */
  method ProjectKernels(pipeline: seq<Phase>, phases: seq<string>, kernels: seq<KernelBinding>)
    returns (projected: map<string, seq<string>>)
    ensures forall p :: Listed(projected, p) == StepKernels(pipeline, phases, kernels, p)
  {
    hide Entries, Listed;
    projected := map[];
    NothingListed();
    for b := 0 to |kernels|
      invariant forall p :: Listed(projected, p) == StepKernels(pipeline, phases, kernels[..b], p)
    {
      ghost var before := projected;
      projected := ProjectBinding(pipeline, phases, kernels[b].sourceRef, projected);
      forall p ensures Listed(projected, p) == StepKernels(pipeline, phases, kernels[..b + 1], p) {
        KernelsSnoc(pipeline, phases, kernels, b, p);
        assert Listed(before, p) == StepKernels(pipeline, phases, kernels[..b], p);
      }
    }
    assert kernels[..|kernels|] == kernels;
  }

  lemma NoEntries(pipeline: seq<Phase>, phases: seq<string>, kernel: string)
    ensures forall p :: Entries(pipeline, phases[..0], p, kernel) == []
  {
  }

  lemma NothingListed()
    ensures forall p :: Listed(map[], p) == []
  {
  }

  method CollectDeclared(kernels: seq<KernelBinding>, refs: seq<string>) returns (outputs: seq<string>)
    ensures outputs == DeclaredOutputs(kernels, refs)
  {
    outputs := [];
    for b := 0 to |kernels|
      invariant outputs == DeclaredOutputs(kernels[..b], refs)
    {
      assert kernels[..b + 1][..b] == kernels[..b];
      if kernels[b].sourceRef in refs { outputs := outputs + kernels[b].outputs; }
    }
    assert kernels[..|kernels|] == kernels;
  }

  /** The prose sequence, or the first phase without a canonical step. */
  method ProseSequence(phases: seq<string>) returns (r: Result<seq<string>, CompileError>)
    ensures r.Ok? <==> forall p | p in phases :: p in CANONICAL_PHASES
    ensures r.Ok? ==> |r.value| == |phases| && forall k | 0 <= k < |phases| :: r.value[k] == ProseStep(phases[k])
    ensures r.Err? ==> r.error.UnknownPhase? && r.error.id in phases && r.error.id !in CANONICAL_PHASES
  {
    var sequence: seq<string> := [];
    for k := 0 to |phases|
      invariant |sequence| == k
      invariant forall i | 0 <= i < k :: phases[i] in CANONICAL_PHASES && sequence[i] == ProseStep(phases[i])
    {
      if phases[k] !in CANONICAL_PHASES { return Err(UnknownPhase(phases[k])); }
      sequence := sequence + [ProseStep(phases[k])];
    }
    return Ok(sequence);
  }

  method BuildSteps(pipeline: seq<Phase>, phases: seq<string>, kernels: seq<KernelBinding>, os: seq<Obligation>,
                    projected: map<string, seq<string>>) returns (steps: seq<Graphs.ExecStep>)
    requires forall p :: Listed(projected, p) == StepKernels(pipeline, phases, kernels, p)
    ensures IsCompiled(pipeline, phases, kernels, os, steps)
  {
    hide StepKernels, DeclaredOutputs, StepOutputs, PlacedIn, OutputsOf;
    steps := [];
    var previousOutputs: seq<string> := [];
    for k := 0 to |phases|
      invariant |steps| == k && previousOutputs == if k == 0 then [] else steps[k - 1].outputRefs
      invariant forall i: nat | i < k :: IsStep(pipeline, phases, kernels, os, steps, i)
    {
      var phase := phases[k];
      var refs := Listed(projected, phase);
      var declared := CollectDeclared(kernels, refs);
      var outputs := StepOutputs(OutputsOf(pipeline, phase), declared);
      var step := Graphs.ExecStep("step." + phase, phase, refs, PlacedIn(os, phases, phase), previousOutputs, outputs);
      var longer := steps + [step];
      forall i: nat | i < k + 1 ensures IsStep(pipeline, phases, kernels, os, longer, i) {
        if i < k {
          assert longer[i] == steps[i] && IsStep(pipeline, phases, kernels, os, steps, i);
          assert i > 0 ==> longer[i - 1] == steps[i - 1];
        } else {
          assert longer[i] == step && (i > 0 ==> longer[i - 1] == steps[i - 1]);
        }
      }
      steps := longer;
      previousOutputs := outputs;
    }
  }

  /** `ExecutionContractCompiler.compile`, for a plan and its bound kernels. */
  method Compile(pipeline: seq<Phase>, phases: seq<string>, blocked: bool, kernels: seq<KernelBinding>,
      os: seq<Obligation>)
    returns (r: Result<Contract, CompileError>)
    ensures r.Ok? <==> !blocked && phases != [] && forall p | p in phases :: p in CANONICAL_PHASES
    ensures r == Err(PlanBlocked) <==> blocked
    ensures r.Ok? ==> IsCompiled(pipeline, phases, kernels, os, r.value.steps)
    ensures r.Ok? ==>
      |r.value.sequence| == |phases| && forall k | 0 <= k < |phases| :: r.value.sequence[k] == ProseStep(phases[k])
    ensures r.Ok? ==> |r.value.kernelActivation| == |kernels|
                      && forall b | 0 <= b < |kernels| :: r.value.kernelActivation[b] == kernels[b].sourceRef
  {
    hide IsCompiled;
    if blocked { return Err(PlanBlocked); }
    var projected := ProjectKernels(pipeline, phases, kernels);
    var prose := ProseSequence(phases);
    if prose.Err? { return Err(prose.error); }
    if phases == [] { return Err(NoPhases); }
    var steps := BuildSteps(pipeline, phases, kernels, os, projected);
    return Ok(Contract(prose.value, seq(|kernels|, b requires 0 <= b < |kernels| => kernels[b].sourceRef), steps));
  }

  // ---- what the steps guarantee ------------------------------------------

  lemma {:induction false} InPlaced(os: seq<Obligation>, phases: seq<string>, phase: string, id: string)
    requires phases != []
    ensures id in PlacedIn(os, phases, phase) <==>
      exists o :: o in os && o.id == id && PhaseFor(o.kind, phases) == phase
  {
    if os != [] {
      var init, last := os[..|os| - 1], os[|os| - 1];
      assert os == init + [last];
      InPlaced(init, phases, phase, id);
    }
  }

  lemma {:induction false} PlacedOnce(os: seq<Obligation>, phases: seq<string>, phase: string)
    requires phases != [] && DistinctIds(os)
    ensures NoDup(PlacedIn(os, phases, phase))
  {
    if os != [] {
      var init, last := os[..|os| - 1], os[|os| - 1];
      PlacedOnce(init, phases, phase);
      InPlaced(init, phases, phase, last.id);
      assert last.id !in PlacedIn(init, phases, phase) by {
        forall x | x in init ensures x.id != last.id { var i :| 0 <= i < |init| && init[i] == x; }
      }
    }
  }

  /**
   An obligation lies on the step of its mapped phase and on no other: on exactly
   one step when that phase is planned, on none when it is not. No step lists an
   obligation twice.
   */
  lemma LiesOnItsPhaseAlone(pipeline: seq<Phase>, phases: seq<string>, kernels: seq<KernelBinding>, os: seq<Obligation>,
                            steps: seq<Graphs.ExecStep>, o: Obligation)
    requires phases != [] && NoDup(phases) && DistinctIds(os) && o in os
    requires IsCompiled(pipeline, phases, kernels, os, steps)
    ensures forall k | 0 <= k < |steps| :: o.id in steps[k].obligationRefs <==> phases[k] == PhaseFor(o.kind, phases)
    ensures PhaseFor(o.kind, phases) in phases <==> exists k :: 0 <= k < |steps| && o.id in steps[k].obligationRefs
    ensures forall j, k | 0 <= j < |steps| && 0 <= k < |steps|
      && o.id in steps[j].obligationRefs && o.id in steps[k].obligationRefs :: j == k
    ensures forall k | 0 <= k < |steps| :: NoDup(steps[k].obligationRefs)
  {
    hide StepKernels, DeclaredOutputs, StepOutputs, PlacedIn, OutputsOf;
    forall k: nat | k < |steps|
      ensures o.id in steps[k].obligationRefs <==> phases[k] == PhaseFor(o.kind, phases)
      ensures NoDup(steps[k].obligationRefs)
    {
      assert IsStep(pipeline, phases, kernels, os, steps, k);
      PlacedOnce(os, phases, phases[k]);
      InPlaced(os, phases, phases[k], o.id);
      forall x | x in os && x.id == o.id ensures x == o { }
    }
  }

  /** Steps are fed in a chain, and distinct phases give distinct step ids, so a graph can always be derived. */
  lemma StepsChainAndDerive(pipeline: seq<Phase>, phases: seq<string>, kernels: seq<KernelBinding>, os: seq<Obligation>,
                            steps: seq<Graphs.ExecStep>)
    requires phases != [] && NoDup(phases) && IsCompiled(pipeline, phases, kernels, os, steps)
    ensures steps[0].inputRefs == [] && forall k | 0 < k < |steps| :: steps[k].inputRefs == steps[k - 1].outputRefs
    ensures NoDup(Graphs.StepIds(steps))
  {
    hide StepKernels, DeclaredOutputs, StepOutputs, PlacedIn, OutputsOf;
    forall k: nat | k < |steps|
      ensures steps[k].inputRefs == if k == 0 then [] else steps[k - 1].outputRefs
      ensures steps[k].id == "step." + phases[k] {
      assert IsStep(pipeline, phases, kernels, os, steps, k);
    }
    assert IsStep(pipeline, phases, kernels, os, steps, 0);
    forall i, j | 0 <= i < j < |steps| ensures Graphs.StepIds(steps)[i] != Graphs.StepIds(steps)[j] {
      assert ("step." + phases[i])[5..] == phases[i] && ("step." + phases[j])[5..] == phases[j];
    }
  }

  /** From a request to a graph: the planned phases always compile to steps that derive a valid graph. */
  method PlanToGraph(x: Request, blocked: bool, kernels: seq<KernelBinding>, os: seq<Obligation>)
    returns (r: Result<(Contract, Graphs.DerivedGraph), CompileError>)
    requires WellFormed(x)
    ensures r.Ok? <==> !blocked && Sequence(x) != [] && forall p | p in Sequence(x) :: p in CANONICAL_PHASES
    ensures r.Ok? ==> IsCompiled(x.pipeline, Sequence(x), kernels, os, r.value.0.steps)
                      && r.value.0.steps != [] && r.value.1 == Graphs.DerivedFrom(r.value.0.steps)
  {
    hide IsCompiled, Graphs.DerivedFrom, Graphs.StepIds, Sequence, Active, TerminalPermitted, AllKernels,
      RequiredOutputs;
    var plan := Plan(x);
    PhasesAreCanonical(x);
    var compiled := Compile(x.pipeline, plan.phases, blocked, kernels, os);
    if compiled.Err? { return Err(compiled.error); }
    StepsChainAndDerive(x.pipeline, plan.phases, kernels, os, compiled.value.steps);
    StepsListed(x.pipeline, plan.phases, kernels, os, compiled.value.steps);
    var graph := Graphs.DeriveGraph(compiled.value.steps);
    return Ok((compiled.value, graph.value));
  }

  lemma StepsListed(pipeline: seq<Phase>, phases: seq<string>, kernels: seq<KernelBinding>, os: seq<Obligation>,
                    steps: seq<Graphs.ExecStep>)
    requires IsCompiled(pipeline, phases, kernels, os, steps)
    ensures |steps| == |phases|
  {
  }
}
