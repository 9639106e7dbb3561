/**
 What an activation plan holds, told from the request: which phases, which kernels,
 which outputs.
 */
module ActivationLaws {
  import opened Base
  import opened Reachability
  import opened Obligations
  import opened Activation

  /** The request asks for the phase: by its route, by asking for the terminal one, by improving, or by architecture. */
  ghost predicate Asked(x: Request, p: string)
  {
    || p in x.route.phases
    || (x.includeTerminal && p == "P7_FLAWLESS_VICTORY")
    || (!x.includeTerminal && x.improves && p in x.route.optionalPhases
        && p in {"P4_ALIGNMENT_AND_STUB_GATE", "P5_RECURSIVE_IMPROVEMENT", "P6_LEVERAGE_COMPRESSION"})
    || (x.architectureRequired && p == x.garPhase)
  }

  ghost predicate HasPhase(x: Request, p: string) { exists n :: 0 <= n < |x.pipeline| && x.pipeline[n].id == p }

  /** The terminal phase was asked for, and neither the mission nor the caller allows it. */
  ghost predicate TerminalRefused(x: Request)
  {
    && Asked(x, "P7_FLAWLESS_VICTORY") && HasPhase(x, "P7_FLAWLESS_VICTORY")
    && !x.terminalPhrase && !x.includeTerminal
  }

  lemma WantedIff(x: Request, p: string)
    ensures p in Wanted(x) <==> Asked(x, p)
  {
    var optionals := Filter((q: string) => Optional(q), x.route.optionalPhases);
    assert p in optionals <==> p in x.route.optionalPhases && Optional(p);
    hide Filter;
  }

  lemma InPipeline(x: Request, p: string)
    ensures p in PhaseIds(x.pipeline) <==> HasPhase(x, p)
  {
    var ids := PhaseIds(x.pipeline);
    if HasPhase(x, p) {
      var n :| 0 <= n < |x.pipeline| && x.pipeline[n].id == p;
      assert ids[n] == p;
    }
  }

  lemma OrderedIff(x: Request, p: string)
    ensures p in Ordered(x) <==> HasPhase(x, p) && Asked(x, p)
  {
    WantedIff(x, p);
    InPipeline(x, p);
    hide Wanted, PhaseIds, Asked, HasPhase;
  }

  lemma DropsIff(x: Request)
    ensures DropsTerminal(x) <==> TerminalRefused(x)
  {
    OrderedIff(x, P7);
    hide Ordered, Asked, HasPhase;
  }

  /** A phase is planned exactly when the pipeline has it and it is asked for, the terminal one only if allowed. */
  lemma PhasePlannedIff(x: Request, p: string)
    requires WellFormed(x)
    ensures p in PlanOf(x).phases <==>
      HasPhase(x, p) && Asked(x, p) && (p == "P7_FLAWLESS_VICTORY" ==> x.terminalPhrase || x.includeTerminal)
  {
    hide Ordered, Asked, HasPhase, Wanted, PhaseIds;
    OrderedIff(x, p);
    OrderedIff(x, P7);
    OrderedDistinct(x);
    if DropsTerminal(x) { RemoveIsFilter(Ordered(x), P7); }
  }

  lemma OrderedDistinct(x: Request)
    requires WellFormed(x)
    ensures NoDup(Ordered(x))
  {
  }

  // ---- kernels -----------------------------------------------------------

  /** Phase `n` is the last of this id. */
  ghost predicate IsLastOf(pipeline: seq<Phase>, p: string, n: nat)
  {
    n < |pipeline| && pipeline[n].id == p && forall m | n < m < |pipeline| :: pipeline[m].id != p
  }

  /** The last phase of this id has `kernel` as primary. */
  ghost predicate Carries(x: Request, p: string, kernel: string)
  {
    exists n: nat :: IsLastOf(x.pipeline, p, n) && kernel in x.pipeline[n].primaryKernels
  }

  ghost predicate Yields(x: Request, p: string, output: string)
  {
    exists n: nat :: IsLastOf(x.pipeline, p, n) && output in x.pipeline[n].requiredOutputs
  }

  /** `PhaseOf` is the last phase of an id. */
  lemma {:induction false} PhaseOfIs(pipeline: seq<Phase>, p: string)
    ensures PhaseOf(pipeline, p).None? <==> forall n | 0 <= n < |pipeline| :: pipeline[n].id != p
    ensures PhaseOf(pipeline, p).Some? ==>
      exists n: nat :: IsLastOf(pipeline, p, n) && pipeline[n] == PhaseOf(pipeline, p).value
  {
    if pipeline != [] {
      var init, last := pipeline[..|pipeline| - 1], pipeline[|pipeline| - 1];
      PhaseOfIs(init, p);
      if last.id == p {
        assert IsLastOf(pipeline, p, |init|);
      } else if PhaseOf(init, p).Some? {
        var n: nat :| IsLastOf(init, p, n) && init[n] == PhaseOf(init, p).value;
        assert pipeline[n] == init[n];
        forall m | n < m < |pipeline| ensures pipeline[m].id != p { if m < |init| { assert pipeline[m] == init[m]; } }
        assert IsLastOf(pipeline, p, n);
      } else {
        forall n | 0 <= n < |pipeline| ensures pipeline[n].id != p { if n < |init| { assert init[n] == pipeline[n]; } }
      }
    }
  }

  lemma KernelsAre(x: Request, p: string, kernel: string)
    ensures kernel in KernelsOf(x.pipeline, p) <==> Carries(x, p, kernel)
  {
    PhaseOfIs(x.pipeline, p);
    hide PhaseOf;
  }

  lemma OutputsAre(x: Request, p: string, output: string)
    ensures output in OutputsOf(x.pipeline, p) <==> Yields(x, p, output)
  {
    PhaseOfIs(x.pipeline, p);
    hide PhaseOf;
  }

  /**
   A kernel is active exactly when the route names it for the task, or a phase asked
   for other than task routing carries it; where the terminal phase was refused, its
   own kernel is not.
   */
  lemma KernelActiveIff(x: Request, kernel: string)
    requires WellFormed(x)
    ensures kernel in PlanOf(x).active <==>
      && (kernel in x.route.taskKernels ||
          exists p :: HasPhase(x, p) && Asked(x, p) && p != "P2_TASK_ROUTING" && Carries(x, p, kernel))
      && (TerminalRefused(x) ==> !EndsWith(kernel, "flawless_victory.contract.yaml"))
  {
    hide Ordered, Asked, HasPhase, Wanted, PhaseIds, Spliced, KernelsOf, Carries, TerminalRefused, DropsTerminal;
    ActiveIsPhaseOrderAroundBlock(x);
    DropsIff(x);
    forall p ensures p in Ordered(x) <==> HasPhase(x, p) && Asked(x, p) { OrderedIff(x, p); }
    forall p ensures kernel in KernelsOf(x.pipeline, p) <==> Carries(x, p, kernel) { KernelsAre(x, p, kernel); }
  }

  /** The plan requires exactly what its phases yield. */
  lemma OutputRequiredIff(x: Request, output: string)
    ensures output in PlanOf(x).requiredOutputs <==>
      exists p :: p in PlanOf(x).phases && Yields(x, p, output)
  {
    var phases := Sequence(x);
    OutputsFirstMet(x.pipeline, phases);
    InJoined(OutputLists(x.pipeline, phases), output);
    var lists := OutputLists(x.pipeline, phases);
    hide Sequence, Yields, OutputsOf;
    forall p ensures output in OutputsOf(x.pipeline, p) <==> Yields(x, p, output) { OutputsAre(x, p, output); }
    if p :| p in phases && Yields(x, p, output) {
      var n :| 0 <= n < |phases| && phases[n] == p;
      assert output in lists[n];
    }
  }

  /** Planned phases keep the pipeline's order. */
  lemma PhasesInOrder(x: Request, i: nat, j: nat) returns (a: nat, b: nat)
    requires WellFormed(x) && i < j < |PlanOf(x).phases|
    ensures a < b < |x.pipeline|
    ensures x.pipeline[a].id == PlanOf(x).phases[i] && x.pipeline[b].id == PlanOf(x).phases[j]
  {
    PhasesAreCanonical(x);
    var ids := PhaseIds(x.pipeline);
    a, b := FilterPlaces((p: string) => p in Wanted(x) && (p == P7 ==> TerminalPermitted(x)), ids, i, j);
    assert ids[a] == x.pipeline[a].id && ids[b] == x.pipeline[b].id;
  }

  lemma {:induction false} FilterPlaces(p: string -> bool, xs: seq<string>, i: nat, j: nat) returns (a: nat, b: nat)
    requires i < j < |Filter(p, xs)|
    ensures a < b < |xs| && xs[a] == Filter(p, xs)[i] && xs[b] == Filter(p, xs)[j]
  {
    var init, last := xs[..|xs| - 1], xs[|xs| - 1];
    if p(last) && j == |Filter(p, xs)| - 1 {
      assert Filter(p, xs)[i] in Filter(p, init);
      a :| a < |init| && init[a] == Filter(p, xs)[i];
      b := |init|;
    } else {
      a, b := FilterPlaces(p, init, i, j);
    }
  }
}
