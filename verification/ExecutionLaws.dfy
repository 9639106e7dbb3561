/**
 Which obligations a task owes, field by field, and the step each is discharged on.
 */
module ExecutionLaws {
  import opened Base
  import opened Reachability
  import opened Obligations
  import opened Activation
  import opened Execution
  import Graphs = ExecutionGraph

  // ---- what is owed ------------------------------------------------------

  /** `owner` is the first kernel with the property, or, where there is none, the default. */
  ghost predicate FirstOr(kernels: seq<string>, p: string -> bool, default: string, owner: string)
  {
    if exists i :: 0 <= i < |kernels| && p(kernels[i])
    then exists i :: 0 <= i < |kernels| && kernels[i] == owner && p(owner) && forall j | 0 <= j < i :: !p(kernels[j])
    else owner == default
  }

  lemma {:induction false} FirstKernelMeans(p: string -> bool, kernels: seq<string>, default: string, owner: string)
    ensures owner == FirstKernel(p, kernels, default) <==> FirstOr(kernels, p, default, owner)
  {
    if kernels == [] {
    } else if p(kernels[0]) {
      assert p(kernels[0]);
    } else {
      var rest := kernels[1..];
      FirstKernelMeans(p, rest, default, owner);
      if i :| 0 <= i < |kernels| && p(kernels[i]) { assert rest[i - 1] == kernels[i]; }
      if i :| 0 <= i < |kernels| && kernels[i] == owner && p(owner) && forall j | 0 <= j < i :: !p(kernels[j]) {
        assert rest[i - 1] == owner && forall j | 0 <= j < i - 1 :: rest[j] == kernels[j + 1];
      }
      if i :| 0 <= i < |rest| && rest[i] == owner && p(owner) && forall j | 0 <= j < i :: !p(rest[j]) {
        assert kernels[i + 1] == owner;
        forall j | 0 <= j < i + 1 ensures !p(kernels[j]) { if j > 0 { assert kernels[j] == rest[j - 1]; } }
      }
    }
  }

  ghost predicate OwnedByTask(x: Inputs, owner: string)
  {
    FirstOr(x.kernels, (k: string) => "runtime/kernels/task/" <= k, "phase:P2_TASK_ROUTING", owner)
  }

  ghost predicate OwnedByTerminal(x: Inputs, owner: string)
  {
    FirstOr(x.kernels, (k: string) => EndsWith(k, "flawless_victory.contract.yaml"), "terminal:flawless_victory", owner)
  }

  ghost predicate OwnedByArchitect(x: Inputs, owner: string)
  {
    FirstOr(x.kernels, (k: string) => EndsWith(k, "global_architect_kernel.yaml"),
      "runtime/kernels/" + "architecture/" + "global_architect_kernel.yaml", owner)
  }

  /** The obligations of fixed id. */
  ghost predicate OwedFixed(x: Inputs, o: Obligation)
  {
    o.required && o.disposition == Pending && match o.id
      case "OBL.AUTHORITY" =>
        && o.kind == Authority
        && o.owner == "runtime/kernels/" + "constitutional/K01-platform-architecture-engine.yaml"
        && o.consumers == ["execution_contract"] && o.evidence == ["authority order respected with evidence"]
      case "OBL.RUNTIME_INTEGRITY" =>
        && o.kind == Validation && o.owner == "validation_runtime"
        && o.consumers == ["validation_contract"] && o.evidence == ["command run or blocker reason"]
      case "OBL.REALIZATION" =>
        && o.kind == Realization && OwnedByTask(x, o.owner) && o.consumers == ["execution_graph"]
        && o.evidence == ["realization evidence for mode " + x.realizationMode]
      case "OBL.VALIDATION" =>
        && x.validationRequired && o.kind == Validation && o.owner == "validation_runtime"
        && o.consumers == ["validation_contract"] && o.evidence == ["command run or blocker reason"]
      case "OBL.DELIVERY" =>
        && x.deliveryRequired && o.kind == Delivery && OwnedByTerminal(x, o.owner)
        && o.consumers == ["handoff_contract", "validation_contract"]
        && o.evidence == ["delivery evidence for mode " + x.deliveryMode]
      case "OBL.CONVERGENCE" =>
        && (x.accountabilityRequired || x.terminalAllowed) && o.kind == Convergence && OwnedByTerminal(x, o.owner)
        && o.consumers == ["validation_contract"] && o.evidence == ["terminal disposition receipt"]
      case "OBL.ARCHITECTURE" =>
        && x.materialityRequired && o.kind == Architecture && OwnedByArchitect(x, o.owner)
        && o.consumers == ["validation_contract", "execution_graph"]
        && o.evidence == ["architectural integrity evidence", "plan readiness evidence"]
      case "OBL.EPISTEMIC.REALIZATION_RESOLUTION" =>
        && x.realizationMode == "UNKNOWN" && o.kind == Epistemic && o.owner == "objective_deriver"
        && o.consumers == ["handoff_contract"] && o.evidence == ["deterministic realization resolution"]
      case _ => false
  }

  lemma Owners(x: Inputs, owner: string)
    ensures owner == TaskOwner(x.kernels) <==> OwnedByTask(x, owner)
    ensures owner == TerminalOwner(x.kernels) <==> OwnedByTerminal(x, owner)
    ensures owner == GarOwner(x.kernels) <==> OwnedByArchitect(x, owner)
  {
    hide FirstOr, FirstKernel;
    FirstKernelMeans((k: string) => StartsWith(k, TASK_KERNELS), x.kernels, "phase:P2_TASK_ROUTING", owner);
    FirstKernelMeans((k: string) => EndsWith(k, TERMINAL_KERNEL), x.kernels, "terminal:flawless_victory", owner);
    FirstKernelMeans((k: string) => EndsWith(k, GAR_KERNEL), x.kernels, GAR_DEFAULT, owner);
    SameFirst((k: string) => StartsWith(k, TASK_KERNELS), (k: string) => "runtime/kernels/task/" <= k, x.kernels,
      "phase:P2_TASK_ROUTING", owner);
    SameFirst((k: string) => EndsWith(k, TERMINAL_KERNEL),
      (k: string) => EndsWith(k, "flawless_victory.contract.yaml"), x.kernels, "terminal:flawless_victory", owner);
    SameFirst((k: string) => EndsWith(k, GAR_KERNEL), (k: string) => EndsWith(k, "global_architect_kernel.yaml"),
      x.kernels, GAR_DEFAULT, owner);
  }

  lemma SameFirst(p: string -> bool, q: string -> bool, kernels: seq<string>, default: string, owner: string)
    requires forall k :: p(k) <==> q(k)
    ensures FirstOr(kernels, p, default, owner) <==> FirstOr(kernels, q, default, owner)
  {
  }

  lemma CoreIff(x: Inputs, o: Obligation)
    ensures o in Core(x) <==>
      OwedFixed(x, o) && o.id in {"OBL.AUTHORITY", "OBL.RUNTIME_INTEGRITY", "OBL.REALIZATION"}
  {
    Owners(x, o.owner);
    InCore(x, o);
    hide OwnedByTask, OwnedByTerminal, OwnedByArchitect, TaskOwner, Core;
  }

  lemma EndsIff(x: Inputs, o: Obligation)
    ensures o == DeliveryObligation(x) && x.deliveryRequired <==> OwedFixed(x, o) && o.id == "OBL.DELIVERY"
    ensures o == ConvergenceObligation(x) && (x.accountabilityRequired || x.terminalAllowed) <==>
      OwedFixed(x, o) && o.id == "OBL.CONVERGENCE"
  {
    Owners(x, o.owner);
    hide OwnedByTask, OwnedByTerminal, OwnedByArchitect, TerminalOwner;
  }

  lemma ArchitectureIff(x: Inputs, o: Obligation)
    ensures o == ArchitectureObligation(x) && x.materialityRequired <==>
      OwedFixed(x, o) && o.id == "OBL.ARCHITECTURE"
  {
    Owners(x, o.owner);
    hide OwnedByTask, OwnedByTerminal, OwnedByArchitect, GarOwner;
  }

  lemma PlainIff(x: Inputs, o: Obligation)
    ensures o == ValidationObligation() && x.validationRequired <==> OwedFixed(x, o) && o.id == "OBL.VALIDATION"
    ensures o == ResolutionObligation() && x.realizationMode == "UNKNOWN" <==>
      OwedFixed(x, o) && o.id == "OBL.EPISTEMIC.REALIZATION_RESOLUTION"
  {
    hide OwnedByTask, OwnedByTerminal, OwnedByArchitect;
  }

  lemma ConditionalIff(x: Inputs, o: Obligation)
    ensures o in Conditional(x) <==>
      OwedFixed(x, o) && o.id !in {"OBL.AUTHORITY", "OBL.RUNTIME_INTEGRITY", "OBL.REALIZATION"}
  {
    InConditional(x, o);
    EndsIff(x, o);
    ArchitectureIff(x, o);
    PlainIff(x, o);
    hide OwnedByTask, OwnedByTerminal, OwnedByArchitect, Conditional, ValidationObligation, DeliveryObligation,
      ConvergenceObligation, ArchitectureObligation, ResolutionObligation;
  }

  /** An obligation for a material unknown of the context. */
  ghost predicate OwedForUnknown(x: Inputs, u: ContextUnknown, o: Obligation)
  {
    && u in x.contextUnknowns && u.blocking && o == Obligation(
         "OBL.EPISTEMIC.CONTEXT." + u.id, Epistemic, true, "context_compiler", ["handoff_contract"],
         ["resolution or governed disposition of " + u.reason], Pending)
  }

  /** A note for an unknown of the intent, named by its place. */
  ghost predicate NotedFor(x: Inputs, k: nat, o: Obligation)
  {
    && k < |x.intentUnknowns| && x.intentUnknowns[k] != "realization_mode_UNKNOWN" && o == Obligation(
         "OBL.EPISTEMIC.UNKNOWN." + Decimal(k), Epistemic, false, "objective_deriver", ["handoff_contract"],
         ["resolution or disposition of: " + x.intentUnknowns[k]], Pending)
  }

  /** What a task owes, and no more: the fixed obligations, one for each material unknown, a note for each other. */
  lemma OwedIff(x: Inputs, o: Obligation)
    ensures o in Derived(x) <==>
      OwedFixed(x, o) || (exists u :: OwedForUnknown(x, u, o)) || exists k: nat :: NotedFor(x, k, o)
  {
    CoreIff(x, o);
    ConditionalIff(x, o);
    InFromContext(x.contextUnknowns, o);
    InFromNotes(x.intentUnknowns, o);
    hide Core, Conditional, OwedFixed, FromContext, FromNotes;
    if o in FromContext(x.contextUnknowns) {
      var u :| u in x.contextUnknowns && u.blocking && o == ContextObligation(u);
      assert OwedForUnknown(x, u, o);
    }
    if o in FromNotes(x.intentUnknowns) {
      var k :| 0 <= k < |x.intentUnknowns| && x.intentUnknowns[k] != MODE_UNKNOWN
        && o == NoteObligation(k, x.intentUnknowns[k]);
      assert NotedFor(x, k, o);
    }
  }

  // ---- where it is discharged --------------------------------------------

  /** The step of `phase` discharges an obligation of this kind. */
  ghost predicate DischargedIn(kind: Kind, phases: seq<string>, phase: string)
  {
    match kind
    case Authority => phase == "P1_CONSTITUTIONAL_PREFLIGHT"
    case Realization => phase == "P2_TASK_ROUTING"
    case Architecture => phase == "P3_ARCHITECTURE_DECISION"
    case Epistemic => phase == "P0_UNPACK"
    case Validation =>
      if "P4_ALIGNMENT_AND_STUB_GATE" in phases then phase == "P4_ALIGNMENT_AND_STUB_GATE"
      else phase == "P2_TASK_ROUTING"
    case Delivery => LastResort(phases, phase)
    case Convergence => LastResort(phases, phase)
  }

  /** The terminal phase, or, where it is not planned, the last one that is. */
  ghost predicate LastResort(phases: seq<string>, phase: string)
  {
    if "P7_FLAWLESS_VICTORY" in phases then phase == "P7_FLAWLESS_VICTORY"
    else phases != [] && phase == phases[|phases| - 1]
  }

  /** A step lists exactly the ids of the obligations its phase discharges. */
  lemma StepDischarges(pipeline: seq<Phase>, phases: seq<string>, kernels: seq<KernelBinding>, os: seq<Obligation>,
                       steps: seq<Graphs.ExecStep>, k: nat, id: string)
    requires phases != [] && IsCompiled(pipeline, phases, kernels, os, steps) && k < |steps|
    ensures |steps| == |phases| && steps[k].phase == phases[k]
    ensures id in steps[k].obligationRefs <==>
      exists o :: o in os && o.id == id && DischargedIn(o.kind, phases, steps[k].phase)
  {
    hide StepKernels, DeclaredOutputs, StepOutputs, PlacedIn, OutputsOf, PhaseFor, DischargedIn;
    assert IsStep(pipeline, phases, kernels, os, steps, k);
    hide IsStep, IsCompiled;
    InPlaced(os, phases, phases[k], id);
    forall kind ensures PhaseFor(kind, phases) == phases[k] <==> DischargedIn(kind, phases, phases[k]) {
      PhaseForIff(kind, phases, phases[k]);
    }
  }

  lemma PhaseForIff(kind: Kind, phases: seq<string>, phase: string)
    requires phases != []
    ensures PhaseFor(kind, phases) == phase <==> DischargedIn(kind, phases, phase)
  {
  }

  /** What is owed under this id is of this kind. */
  ghost predicate OwedAs(x: Inputs, id: string, kind: Kind)
  {
    forall o | o in Derived(x) && o.id == id :: o.kind == kind
  }

  /** An open-ended id is none of the fixed ones. */
  lemma OpenId(x: Inputs, o: Obligation)
    requires Tag(o.id) < 9 && o in Derived(x)
    ensures OwedFixed(x, o)
  {
    OwedIff(x, o);
    hide Tag, OwedFixed, Derived;
    if u :| OwedForUnknown(x, u, o) {
      FamilyTags(u.id);
    } else if k: nat :| NotedFor(x, k, o) {
      FamilyTags(Decimal(k));
    }
  }

  lemma FixedKinds(x: Inputs)
    ensures OwedAs(x, "OBL.AUTHORITY", Authority) && OwedAs(x, "OBL.REALIZATION", Realization)
    ensures OwedAs(x, "OBL.RUNTIME_INTEGRITY", Validation) && OwedAs(x, "OBL.VALIDATION", Validation)
    ensures OwedAs(x, "OBL.DELIVERY", Delivery) && OwedAs(x, "OBL.CONVERGENCE", Convergence)
    ensures OwedAs(x, "OBL.ARCHITECTURE", Architecture)
    ensures OwedAs(x, "OBL.EPISTEMIC.REALIZATION_RESOLUTION", Epistemic)
  {
    FixedTags();
    hide Tag, Derived, OwnedByTask, OwnedByTerminal, OwnedByArchitect;
    forall o | o in Derived(x) && Tag(o.id) < 9 ensures OwedFixed(x, o) { OpenId(x, o); }
  }

  lemma OpenKinds(x: Inputs, tail: string)
    ensures OwedAs(x, "OBL.EPISTEMIC.CONTEXT." + tail, Epistemic)
    ensures OwedAs(x, "OBL.EPISTEMIC.UNKNOWN." + tail, Epistemic)
  {
    FamilyTags(tail);
    FixedTags();
    hide Tag, Derived, OwnedByTask, OwnedByTerminal, OwnedByArchitect;
    forall o | o in Derived(x) && Tag(o.id) >= 9 ensures o.kind == Epistemic {
      OwedIff(x, o);
      FixedIdTag(x, o);
    }
  }

  lemma FixedIdTag(x: Inputs, o: Obligation)
    ensures OwedFixed(x, o) ==> Tag(o.id) < 9
  {
    FixedTags();
    hide Tag, OwnedByTask, OwnedByTerminal, OwnedByArchitect;
  }

  /** An id of one kind lies on a step exactly where that kind is discharged. */
  lemma IdDischarged(x: Inputs, pipeline: seq<Phase>, phases: seq<string>, kernels: seq<KernelBinding>,
                     steps: seq<Graphs.ExecStep>, k: nat, id: string, kind: Kind)
    requires phases != [] && IsCompiled(pipeline, phases, kernels, Derived(x), steps) && k < |steps|
    requires OwedAs(x, id, kind)
    ensures id in steps[k].obligationRefs <==> id in IdSet(Derived(x)) && DischargedIn(kind, phases, steps[k].phase)
  {
    hide IsCompiled, Derived, DischargedIn;
    StepDischarges(pipeline, phases, kernels, Derived(x), steps, k, id);
  }

  /**
   Each id a task owes lies on the steps its kind is discharged on, under the
   condition it is owed, and on no other.
   */
  lemma OwedAreDischarged(x: Inputs, pipeline: seq<Phase>, phases: seq<string>, kernels: seq<KernelBinding>,
                          steps: seq<Graphs.ExecStep>, k: nat)
    requires phases != [] && IsCompiled(pipeline, phases, kernels, Derived(x), steps) && k < |steps|
    ensures var refs, phase := steps[k].obligationRefs, steps[k].phase;
      && ("OBL.AUTHORITY" in refs <==> phase == "P1_CONSTITUTIONAL_PREFLIGHT")
      && ("OBL.REALIZATION" in refs <==> phase == "P2_TASK_ROUTING")
      && ("OBL.RUNTIME_INTEGRITY" in refs <==> DischargedIn(Validation, phases, phase))
      && ("OBL.VALIDATION" in refs <==> x.validationRequired && DischargedIn(Validation, phases, phase))
      && ("OBL.DELIVERY" in refs <==> x.deliveryRequired && LastResort(phases, phase))
      && ("OBL.CONVERGENCE" in refs <==> (x.accountabilityRequired || x.terminalAllowed) && LastResort(phases, phase))
      && ("OBL.ARCHITECTURE" in refs <==> x.materialityRequired && phase == "P3_ARCHITECTURE_DECISION")
      && ("OBL.EPISTEMIC.REALIZATION_RESOLUTION" in refs <==> x.realizationMode == "UNKNOWN" && phase == "P0_UNPACK")
  {
    DerivesExactly(x);
    FixedKinds(x);
    hide IsCompiled, Derived, LastResort, OwedAs, IdSet;
    IdDischarged(x, pipeline, phases, kernels, steps, k, OBL_AUTHORITY, Authority);
    IdDischarged(x, pipeline, phases, kernels, steps, k, OBL_REALIZATION, Realization);
    IdDischarged(x, pipeline, phases, kernels, steps, k, OBL_RUNTIME_INTEGRITY, Validation);
    IdDischarged(x, pipeline, phases, kernels, steps, k, OBL_VALIDATION, Validation);
    IdDischarged(x, pipeline, phases, kernels, steps, k, OBL_DELIVERY, Delivery);
    IdDischarged(x, pipeline, phases, kernels, steps, k, OBL_CONVERGENCE, Convergence);
    IdDischarged(x, pipeline, phases, kernels, steps, k, OBL_ARCHITECTURE, Architecture);
    IdDischarged(x, pipeline, phases, kernels, steps, k, OBL_RESOLUTION, Epistemic);
  }

  /** Obligations for material unknowns, and the notes, lie on the unpacking step. */
  lemma UnknownsAreDischarged(x: Inputs, pipeline: seq<Phase>, phases: seq<string>, kernels: seq<KernelBinding>,
                              steps: seq<Graphs.ExecStep>, k: nat)
    requires phases != [] && IsCompiled(pipeline, phases, kernels, Derived(x), steps) && k < |steps|
    ensures forall u | u in x.contextUnknowns && u.blocking ::
      "OBL.EPISTEMIC.CONTEXT." + u.id in steps[k].obligationRefs <==> steps[k].phase == "P0_UNPACK"
    ensures forall n: nat | n < |x.intentUnknowns| && x.intentUnknowns[n] != "realization_mode_UNKNOWN" ::
      "OBL.EPISTEMIC.UNKNOWN." + Decimal(n) in steps[k].obligationRefs <==> steps[k].phase == "P0_UNPACK"
  {
    hide IsCompiled, Derived, OwedFixed;
    forall u | u in x.contextUnknowns && u.blocking
      ensures "OBL.EPISTEMIC.CONTEXT." + u.id in steps[k].obligationRefs <==> steps[k].phase == "P0_UNPACK" {
      UnknownDischarged(x, pipeline, phases, kernels, steps, k, u);
    }
    forall n: nat | n < |x.intentUnknowns| && x.intentUnknowns[n] != "realization_mode_UNKNOWN"
      ensures "OBL.EPISTEMIC.UNKNOWN." + Decimal(n) in steps[k].obligationRefs <==> steps[k].phase == "P0_UNPACK" {
      NoteDischarged(x, pipeline, phases, kernels, steps, k, n);
    }
  }

  lemma UnknownDischarged(x: Inputs, pipeline: seq<Phase>, phases: seq<string>, kernels: seq<KernelBinding>,
                          steps: seq<Graphs.ExecStep>, k: nat, u: ContextUnknown)
    requires phases != [] && IsCompiled(pipeline, phases, kernels, Derived(x), steps) && k < |steps|
    requires u in x.contextUnknowns && u.blocking
    ensures "OBL.EPISTEMIC.CONTEXT." + u.id in steps[k].obligationRefs <==> steps[k].phase == "P0_UNPACK"
  {
    hide IsCompiled, Derived, OwedFixed, OwedAs;
    var id := "OBL.EPISTEMIC.CONTEXT." + u.id;
    var o := Obligation(id, Epistemic, true, "context_compiler", ["handoff_contract"],
      ["resolution or governed disposition of " + u.reason], Pending);
    assert OwedForUnknown(x, u, o);
    OwedIff(x, o);
    OpenKinds(x, u.id);
    IdDischarged(x, pipeline, phases, kernels, steps, k, id, Epistemic);
  }

  lemma NoteDischarged(x: Inputs, pipeline: seq<Phase>, phases: seq<string>, kernels: seq<KernelBinding>,
                       steps: seq<Graphs.ExecStep>, k: nat, n: nat)
    requires phases != [] && IsCompiled(pipeline, phases, kernels, Derived(x), steps) && k < |steps|
    requires n < |x.intentUnknowns| && x.intentUnknowns[n] != "realization_mode_UNKNOWN"
    ensures "OBL.EPISTEMIC.UNKNOWN." + Decimal(n) in steps[k].obligationRefs <==> steps[k].phase == "P0_UNPACK"
  {
    hide IsCompiled, Derived, OwedFixed, OwedAs;
    var id := "OBL.EPISTEMIC.UNKNOWN." + Decimal(n);
    var o := Obligation(id, Epistemic, false, "objective_deriver", ["handoff_contract"],
      ["resolution or disposition of: " + x.intentUnknowns[n]], Pending);
    assert NotedFor(x, n, o);
    OwedIff(x, o);
    OpenKinds(x, Decimal(n));
    IdDischarged(x, pipeline, phases, kernels, steps, k, id, Epistemic);
  }

  // ---- what a step runs and yields ---------------------------------------

  /** The first phase of this id names the kernel as primary. */
  ghost predicate RunsIn(pipeline: seq<Phase>, phase: string, kernel: string)
  {
    exists i :: 0 <= i < |pipeline| && pipeline[i].id == phase && kernel in pipeline[i].primaryKernels
      && forall j | 0 <= j < i :: pipeline[j].id != phase
  }

  /** The last phase of this id requires the output. */
  ghost predicate Requires(pipeline: seq<Phase>, phase: string, output: string)
  {
    exists i :: 0 <= i < |pipeline| && pipeline[i].id == phase && output in pipeline[i].requiredOutputs
      && forall j | i < j < |pipeline| :: pipeline[j].id != phase
  }

  lemma {:induction false} PrimaryIff(pipeline: seq<Phase>, phase: string, kernel: string)
    ensures Primary(pipeline, phase, kernel) <==> RunsIn(pipeline, phase, kernel)
  {
    if pipeline != [] {
      var rest := pipeline[1..];
      PrimaryIff(rest, phase, kernel);
      if pipeline[0].id != phase {
        if RunsIn(rest, phase, kernel) {
          var i :| 0 <= i < |rest| && rest[i].id == phase && kernel in rest[i].primaryKernels
            && forall j | 0 <= j < i :: rest[j].id != phase;
          assert pipeline[i + 1] == rest[i];
          forall j | 0 <= j < i + 1 ensures pipeline[j].id != phase { if j > 0 { assert pipeline[j] == rest[j - 1]; } }
        }
        if RunsIn(pipeline, phase, kernel) {
          var i :| 0 <= i < |pipeline| && pipeline[i].id == phase && kernel in pipeline[i].primaryKernels
            && forall j | 0 <= j < i :: pipeline[j].id != phase;
          assert rest[i - 1] == pipeline[i] && forall j | 0 <= j < i - 1 :: rest[j] == pipeline[j + 1];
        }
      }
    }
  }

  lemma {:induction false} RequiresIff(pipeline: seq<Phase>, phase: string, output: string)
    ensures output in OutputsOf(pipeline, phase) <==> Requires(pipeline, phase, output)
  {
    if pipeline != [] {
      var init, last := pipeline[..|pipeline| - 1], pipeline[|pipeline| - 1];
      RequiresIff(init, phase, output);
      if last.id == phase {
        assert pipeline[|pipeline| - 1] == last;
      } else {
        if Requires(init, phase, output) {
          var i :| 0 <= i < |init| && init[i].id == phase && output in init[i].requiredOutputs
            && forall j | i < j < |init| :: init[j].id != phase;
          assert pipeline[i] == init[i];
          forall j | i < j < |pipeline| ensures pipeline[j].id != phase {
            if j < |init| { assert pipeline[j] == init[j]; }
          }
        }
        if Requires(pipeline, phase, output) {
          var i :| 0 <= i < |pipeline| && pipeline[i].id == phase && output in pipeline[i].requiredOutputs
            && forall j | i < j < |pipeline| :: pipeline[j].id != phase;
          assert init[i] == pipeline[i] && forall j | i < j < |init| :: init[j] == pipeline[j];
        }
      }
    }
  }

  lemma {:induction false} InEntries(pipeline: seq<Phase>, listed: seq<string>, phase: string, kernel: string,
                                     x: string)
    ensures x in Entries(pipeline, listed, phase, kernel) <==>
      x == kernel && phase in listed && Primary(pipeline, phase, kernel)
  {
    if listed != [] {
      InEntries(pipeline, listed[..|listed| - 1], phase, kernel, x);
      assert listed == listed[..|listed| - 1] + [listed[|listed| - 1]];
    }
  }

  lemma {:induction false} InStepKernels(pipeline: seq<Phase>, listed: seq<string>, kernels: seq<KernelBinding>,
                                         phase: string, x: string)
    ensures x in StepKernels(pipeline, listed, kernels, phase) <==>
      phase in listed && Primary(pipeline, phase, x) && exists b :: b in kernels && b.sourceRef == x
  {
    if kernels != [] {
      hide Primary, Entries;
      var init, last := kernels[..|kernels| - 1], kernels[|kernels| - 1];
      assert kernels == init + [last];
      InStepKernels(pipeline, listed, init, phase, x);
      InEntries(pipeline, listed, phase, last.sourceRef, x);
    }
  }

  lemma {:induction false} InDeclared(kernels: seq<KernelBinding>, refs: seq<string>, x: string)
    ensures x in DeclaredOutputs(kernels, refs) <==> exists b :: b in kernels && b.sourceRef in refs && x in b.outputs
  {
    if kernels != [] {
      var init, last := kernels[..|kernels| - 1], kernels[|kernels| - 1];
      assert kernels == init + [last];
      InDeclared(init, refs, x);
    }
  }

  /**
   A step runs the bound kernels its phase names as primary, yields what its phase
   requires and what those kernels declare, and is fed by the step before.
   */
  lemma StepRuns(pipeline: seq<Phase>, phases: seq<string>, kernels: seq<KernelBinding>, os: seq<Obligation>,
                 steps: seq<Graphs.ExecStep>, k: nat)
    requires phases != [] && IsCompiled(pipeline, phases, kernels, os, steps) && k < |steps|
    ensures forall x :: x in steps[k].kernelRefs <==>
      RunsIn(pipeline, steps[k].phase, x) && exists b :: b in kernels && b.sourceRef == x
    ensures forall x :: x in steps[k].outputRefs <==>
      Requires(pipeline, steps[k].phase, x)
      || exists b :: b in kernels && b.sourceRef in steps[k].kernelRefs && x in b.outputs
    ensures steps[k].inputRefs == if k == 0 then [] else steps[k - 1].outputRefs
    ensures steps[k].id == "step." + steps[k].phase && steps[k].phase == phases[k]
  {
    assert IsStep(pipeline, phases, kernels, os, steps, k);
    var phase, refs := phases[k], steps[k].kernelRefs;
    assert phase in phases;
    hide StepKernels, DeclaredOutputs, PlacedIn, OutputsOf, IsCompiled, Primary, RunsIn, Requires;
    forall x ensures x in refs <==> RunsIn(pipeline, phase, x) && exists b :: b in kernels && b.sourceRef == x {
      InStepKernels(pipeline, phases, kernels, phase, x);
      PrimaryIff(pipeline, phase, x);
    }
    forall x ensures x in steps[k].outputRefs <==>
        Requires(pipeline, phase, x) || exists b :: b in kernels && b.sourceRef in refs && x in b.outputs {
      RequiresIff(pipeline, phase, x);
      InDeclared(kernels, refs, x);
    }
  }

  // ---- the graph of the steps --------------------------------------------

  /**
   The graph of a contract carries its steps: one node each, field by field, an edge
   from each to the next, the last one terminal; it converges exactly where the
   terminal phase is planned.
   */
  lemma GraphCarriesSteps(steps: seq<Graphs.ExecStep>)
    requires steps != []
    ensures var g := Graphs.DerivedFrom(steps);
      && |g.nodes| == |steps| && |g.edges| == |steps| - 1
      && (forall k | 0 <= k < |steps| ::
            && g.nodes[k].id == steps[k].id && g.nodes[k].phase == steps[k].phase
            && g.nodes[k].kernelRefs == steps[k].kernelRefs && g.nodes[k].obligationRefs == steps[k].obligationRefs
            && g.nodes[k].inputs == steps[k].inputRefs && g.nodes[k].outputs == steps[k].outputRefs
            && g.nodes[k].disposition == if steps[k].phase == "P7_FLAWLESS_VICTORY" then Some("CONVERGED") else None)
      && (forall k | 0 <= k < |steps| - 1 :: g.edges[k] == Graphs.Edge(steps[k].id, steps[k + 1].id))
      && g.terminalNode == steps[|steps| - 1].id
      && (g.terminalDisposition == Some("CONVERGED") <==> exists s :: s in steps && s.phase == "P7_FLAWLESS_VICTORY")
      && (g.terminalDisposition == None <==> forall s | s in steps :: s.phase != "P7_FLAWLESS_VICTORY")
  {
  }
}
