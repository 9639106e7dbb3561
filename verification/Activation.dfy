/**
 Activation planning: which phases run, in canonical order, and which kernels are
 active, with the route's task kernels spliced in behind the constitutional ones.
 Matching a mission to a route is an input here.
 */
module Activation {
  import opened Base
  import opened Reachability
  import opened Obligations

  datatype Phase = Phase(id: string, primaryKernels: seq<string>, requiredOutputs: seq<string>)

  datatype Route = Route(phases: seq<string>, optionalPhases: seq<string>, taskKernels: seq<string>)

  /** The pack's pipeline and matched route, and what the mission text was found to say. */
  datatype Request = Request(
    pipeline: seq<Phase>, route: Route, garPhase: string, includeTerminal: bool, improves: bool,
    architectureRequired: bool, terminalPhrase: bool)

  datatype ActivationPlan = ActivationPlan(
    phases: seq<string>, active: seq<string>, skipped: seq<string>, terminalAllowed: bool,
    requiredOutputs: seq<string>, nextPhase: string)

  const P2 := "P2_TASK_ROUTING"
  const P4 := "P4_ALIGNMENT_AND_STUB_GATE"
  const P5 := "P5_RECURSIVE_IMPROVEMENT"
  const P6 := "P6_LEVERAGE_COMPRESSION"
  const P7 := "P7_FLAWLESS_VICTORY"
  const CONSTITUTIONAL := "/constitutional/"

  predicate Contains(s: string, part: string)
  {
    exists i | 0 <= i <= |s| :: part <= s[i..]
  }

  // ---- phases ------------------------------------------------------------

  function PhaseIds(pipeline: seq<Phase>): seq<string>
  {
    seq(|pipeline|, k requires 0 <= k < |pipeline| => pipeline[k].id)
  }

  predicate Optional(p: string) { p == P4 || p == P5 || p == P6 }

  /** The phases asked for, in the order they are asked for. */
  function Wanted(x: Request): seq<string>
  {
    var listed := x.route.phases +
      (if x.includeTerminal then [P7]
       else if x.improves then Filter((p: string) => Optional(p), x.route.optionalPhases) else []);
    if x.architectureRequired && x.garPhase !in listed then listed + [x.garPhase] else listed
  }

  /** Canonical order, whatever order the phases were asked for in. */
  function Ordered(x: Request): seq<string>
  {
    Filter((p: string) => p in Wanted(x), PhaseIds(x.pipeline))
  }

  predicate TerminalPermitted(x: Request)
  {
    (P7 in Ordered(x) && x.terminalPhrase) || x.includeTerminal
  }

  predicate DropsTerminal(x: Request) { P7 in Ordered(x) && !TerminalPermitted(x) }

  function RemoveFirst(xs: seq<string>, x: string): seq<string>
  {
    if x in xs then xs[..Pos(xs, x)] + xs[Pos(xs, x) + 1..] else xs
  }

  function Sequence(x: Request): seq<string>
  {
    if DropsTerminal(x) then RemoveFirst(Ordered(x), P7) else Ordered(x)
  }

  // ---- kernels -----------------------------------------------------------

  /** Append what is not there yet. */
  function AddNew(xs: seq<string>, more: seq<string>): seq<string>
  {
    if more == [] then xs
    else
      var sofar, last := AddNew(xs, more[..|more| - 1]), more[|more| - 1];
      if last in sofar then sofar else sofar + [last]
  }

  /** The phase of an id; a later one of the same id replaces an earlier one. */
  function PhaseOf(pipeline: seq<Phase>, id: string): Option<Phase>
  {
    if pipeline == [] then None
    else if pipeline[|pipeline| - 1].id == id then Some(pipeline[|pipeline| - 1])
    else PhaseOf(pipeline[..|pipeline| - 1], id)
  }

  function KernelsOf(pipeline: seq<Phase>, id: string): seq<string>
  {
    if PhaseOf(pipeline, id).Some? then PhaseOf(pipeline, id).value.primaryKernels else []
  }

  /** Primary kernels of the phases in order, task routing aside. */
  function PhaseKernels(pipeline: seq<Phase>, phases: seq<string>): seq<string>
  {
    if phases == [] then []
    else
      var sofar, last := PhaseKernels(pipeline, phases[..|phases| - 1]), phases[|phases| - 1];
      if last == P2 then sofar else AddNew(sofar, KernelsOf(pipeline, last))
  }

  function TaskKernels(x: Request): seq<string>
  {
    Filter((k: string) => k !in PhaseKernels(x.pipeline, Ordered(x)), x.route.taskKernels)
  }

  /** One past the last constitutional kernel, or the end if there is none. */
  function InsertAt(active: seq<string>): (at: nat)
    ensures at <= |active|
    ensures forall k | at <= k < |active| :: !Contains(active[k], CONSTITUTIONAL)
    ensures at < |active| ==> at > 0 && Contains(active[at - 1], CONSTITUTIONAL)
  {
    var last := LastConstitutional(active);
    if last.Some? then last.value + 1 else |active|
  }

  function LastConstitutional(active: seq<string>): (last: Option<nat>)
    ensures last.Some? ==> last.value < |active| && Contains(active[last.value], CONSTITUTIONAL)
    ensures forall k | 0 <= k < |active| && (last.None? || k > last.value) :: !Contains(active[k], CONSTITUTIONAL)
  {
    if active == [] then None
    else if Contains(active[|active| - 1], CONSTITUTIONAL) then Some(|active| - 1)
    else LastConstitutional(active[..|active| - 1])
  }

  function Splice(active: seq<string>, block: seq<string>): seq<string>
  {
    active[..InsertAt(active)] + block + active[InsertAt(active)..]
  }

  function Spliced(x: Request): seq<string>
  {
    Splice(PhaseKernels(x.pipeline, Ordered(x)), TaskKernels(x))
  }

  function Active(x: Request): seq<string>
  {
    if DropsTerminal(x) then Filter((k: string) => !EndsWith(k, TERMINAL_KERNEL), Spliced(x)) else Spliced(x)
  }

  /** Lists joined end to end. */
  function Joined(parts: seq<seq<string>>): seq<string>
  {
    if parts == [] then [] else Joined(parts[..|parts| - 1]) + parts[|parts| - 1]
  }

  /** `xs` lists each entry of `all` once, in the order they are first met. */
  ghost predicate FirstMet(xs: seq<string>, all: seq<string>)
  {
    && NoDup(xs)
    && (forall x :: x in xs <==> x in all)
    && (forall i, j | 0 <= i < j < |xs| :: Before(all, xs[i], xs[j]))
  }

  /** `x` occurs before any occurrence of `y`. */
  ghost predicate Before(all: seq<string>, x: string, y: string)
  {
    exists i :: 0 <= i < |all| && all[i] == x && y !in all[..i + 1]
  }

  lemma FirstMetNext(xs: seq<string>, all: seq<string>, x: string)
    requires FirstMet(xs, all)
    ensures FirstMet(if x in xs then xs else xs + [x], all + [x])
  {
    var ys, longer := if x in xs then xs else xs + [x], all + [x];
    forall i, j | 0 <= i < j < |ys| ensures Before(longer, ys[i], ys[j]) {
      assert ys[i] == xs[i] && xs[i] in all;
      if j < |xs| {
        assert Before(all, xs[i], xs[j]);
        var n :| 0 <= n < |all| && all[n] == xs[i] && xs[j] !in all[..n + 1];
        assert longer[..n + 1] == all[..n + 1] && longer[n] == xs[i];
      } else {
        var n :| 0 <= n < |all| && all[n] == xs[i];
        assert longer[..n + 1] == all[..n + 1] && longer[n] == xs[i];
      }
    }
  }

  /** Appending what is new keeps first-met order. */
  lemma {:induction false} AddNewFirstMet(xs: seq<string>, all: seq<string>, more: seq<string>)
    requires FirstMet(xs, all)
    ensures FirstMet(AddNew(xs, more), all + more)
  {
    hide FirstMet;
    if more == [] {
      assert all + more == all;
    } else {
      var init, last := more[..|more| - 1], more[|more| - 1];
      AddNewFirstMet(xs, all, init);
      FirstMetNext(AddNew(xs, init), all + init, last);
      assert all + init + [last] == all + more;
    }
  }

  lemma NothingMet()
    ensures FirstMet([], [])
  {
  }

  function OutputsOf(pipeline: seq<Phase>, id: string): seq<string>
  {
    if PhaseOf(pipeline, id).Some? then PhaseOf(pipeline, id).value.requiredOutputs else []
  }

  function RequiredOutputs(pipeline: seq<Phase>, phases: seq<string>): seq<string>
  {
    if phases == [] then []
    else AddNew(RequiredOutputs(pipeline, phases[..|phases| - 1]), OutputsOf(pipeline, phases[|phases| - 1]))
  }

  function AllKernels(pipeline: seq<Phase>): seq<string>
  {
    if pipeline == [] then []
    else AddNew(AllKernels(pipeline[..|pipeline| - 1]), pipeline[|pipeline| - 1].primaryKernels)
  }

  /** The pipeline's own lists of primary kernels, phase by phase. */
  function PipelineLists(pipeline: seq<Phase>): seq<seq<string>>
  {
    seq(|pipeline|, k requires 0 <= k < |pipeline| => pipeline[k].primaryKernels)
  }

  /** The kernel lists of the phases asked for, task routing aside. */
  function PhaseLists(pipeline: seq<Phase>, phases: seq<string>): seq<seq<string>>
  {
    seq(|phases|, k requires 0 <= k < |phases| => if phases[k] == P2 then [] else KernelsOf(pipeline, phases[k]))
  }

  function OutputLists(pipeline: seq<Phase>, phases: seq<string>): seq<seq<string>>
  {
    seq(|phases|, k requires 0 <= k < |phases| => OutputsOf(pipeline, phases[k]))
  }

  lemma JoinedNext(parts: seq<seq<string>>, last: seq<string>)
    ensures Joined(parts + [last]) == Joined(parts) + last
  {
    assert (parts + [last])[..|parts|] == parts;
  }

  /** Every primary kernel of the pipeline, once, in first-met order. */
  lemma {:induction false} AllKernelsFirstMet(pipeline: seq<Phase>)
    ensures FirstMet(AllKernels(pipeline), Joined(PipelineLists(pipeline)))
  {
    hide FirstMet;
    if pipeline == [] { NothingMet(); }
    else {
      var init, last := pipeline[..|pipeline| - 1], pipeline[|pipeline| - 1];
      AllKernelsFirstMet(init);
      assert PipelineLists(pipeline) == PipelineLists(init) + [last.primaryKernels];
      JoinedNext(PipelineLists(init), last.primaryKernels);
      AddNewFirstMet(AllKernels(init), Joined(PipelineLists(init)), last.primaryKernels);
    }
  }

  /** Every primary kernel of the planned phases, once, in first-met order. */
  lemma {:induction false} PhaseKernelsFirstMet(pipeline: seq<Phase>, phases: seq<string>)
    ensures FirstMet(PhaseKernels(pipeline, phases), Joined(PhaseLists(pipeline, phases)))
  {
    hide FirstMet;
    if phases == [] { NothingMet(); }
    else {
      var init, last := phases[..|phases| - 1], phases[|phases| - 1];
      var more := if last == P2 then [] else KernelsOf(pipeline, last);
      PhaseKernelsFirstMet(pipeline, init);
      assert PhaseLists(pipeline, phases) == PhaseLists(pipeline, init) + [more];
      JoinedNext(PhaseLists(pipeline, init), more);
      AddNewFirstMet(PhaseKernels(pipeline, init), Joined(PhaseLists(pipeline, init)), more);
    }
  }

  /** Every required output of the planned phases, once, in first-met order. */
  lemma {:induction false} OutputsFirstMet(pipeline: seq<Phase>, phases: seq<string>)
    ensures FirstMet(RequiredOutputs(pipeline, phases), Joined(OutputLists(pipeline, phases)))
  {
    hide FirstMet;
    if phases == [] { NothingMet(); }
    else {
      var init, last := phases[..|phases| - 1], phases[|phases| - 1];
      OutputsFirstMet(pipeline, init);
      assert OutputLists(pipeline, phases) == OutputLists(pipeline, init) + [OutputsOf(pipeline, last)];
      JoinedNext(OutputLists(pipeline, init), OutputsOf(pipeline, last));
      AddNewFirstMet(RequiredOutputs(pipeline, init), Joined(OutputLists(pipeline, init)), OutputsOf(pipeline, last));
    }
  }

  lemma {:induction false} InJoined(parts: seq<seq<string>>, x: string)
    ensures x in Joined(parts) <==> exists k :: 0 <= k < |parts| && x in parts[k]
  {
    if parts != [] {
      var init, last := parts[..|parts| - 1], parts[|parts| - 1];
      InJoined(init, x);
      assert forall k | 0 <= k < |init| :: init[k] == parts[k];
      assert x in last <==> x in parts[|parts| - 1];
    }
  }

  /** A phase of the pipeline lists `kernel`. */
  ghost predicate Lists(pipeline: seq<Phase>, kernel: string)
  {
    exists p :: p in pipeline && kernel in p.primaryKernels
  }

  lemma InAllKernels(pipeline: seq<Phase>, kernel: string)
    ensures kernel in AllKernels(pipeline) <==> Lists(pipeline, kernel)
  {
    var lists := PipelineLists(pipeline);
    AllKernelsFirstMet(pipeline);
    InJoined(lists, kernel);
    if Lists(pipeline, kernel) {
      var p :| p in pipeline && kernel in p.primaryKernels;
      var k :| 0 <= k < |pipeline| && pipeline[k] == p;
      assert kernel in lists[k];
    }
  }

  function PlanOf(x: Request): ActivationPlan
  {
    var phases := Sequence(x);
    ActivationPlan(
      phases, Active(x), Filter((k: string) => k !in Active(x), AllKernels(x.pipeline)),
      TerminalPermitted(x) && P7 in phases, RequiredOutputs(x.pipeline, phases),
      if phases != [] then phases[0] else "BLOCKED")
  }

  // ---- the imperative planner --------------------------------------------

  method OptionalPhases(optionals: seq<string>, improves: bool) returns (phases: seq<string>)
    ensures phases == if improves then Filter((p: string) => Optional(p), optionals) else []
  {
    phases := [];
    ghost var keep := (p: string) => Optional(p);
    for k := 0 to |optionals|
      invariant phases == if improves then Filter(keep, optionals[..k]) else []
    {
      assert optionals[..k + 1][..k] == optionals[..k];
      if Optional(optionals[k]) && improves { phases := phases + [optionals[k]]; }
    }
    assert optionals[..|optionals|] == optionals;
  }

  method CollectWanted(x: Request) returns (phases: seq<string>)
    ensures phases == Wanted(x)
  {
    phases := x.route.phases;
    if x.includeTerminal {
      phases := phases + [P7];
    } else {
      var optionals := OptionalPhases(x.route.optionalPhases, x.improves);
      phases := phases + optionals;
    }
    if x.architectureRequired && x.garPhase !in phases { phases := phases + [x.garPhase]; }
  }

  method AppendNew(xs: seq<string>, more: seq<string>) returns (all: seq<string>)
    ensures all == AddNew(xs, more)
  {
    all := xs;
    for k := 0 to |more|
      invariant all == AddNew(xs, more[..k])
    {
      assert more[..k + 1][..k] == more[..k];
      if more[k] !in all { all := all + [more[k]]; }
    }
    assert more[..|more|] == more;
  }

  method CollectKernels(pipeline: seq<Phase>, phases: seq<string>) returns (active: seq<string>)
    ensures active == PhaseKernels(pipeline, phases) && FirstMet(active, Joined(PhaseLists(pipeline, phases)))
  {
    PhaseKernelsFirstMet(pipeline, phases);
    active := [];
    for k := 0 to |phases|
      invariant active == PhaseKernels(pipeline, phases[..k])
    {
      assert phases[..k + 1][..k] == phases[..k];
      if phases[k] == P2 { continue; }
      active := AppendNew(active, KernelsOf(pipeline, phases[k]));
    }
    assert phases[..|phases|] == phases;
  }

  /** `_all_kernel_paths`. */
  method AllKernelPaths(pipeline: seq<Phase>) returns (seen: seq<string>)
    ensures seen == AllKernels(pipeline) && FirstMet(seen, Joined(PipelineLists(pipeline)))
  {
    AllKernelsFirstMet(pipeline);
    seen := [];
    for k := 0 to |pipeline|
      invariant seen == AllKernels(pipeline[..k])
    {
      assert pipeline[..k + 1][..k] == pipeline[..k];
      seen := AppendNew(seen, pipeline[k].primaryKernels);
    }
    assert pipeline[..|pipeline|] == pipeline;
  }

  method CollectOutputs(pipeline: seq<Phase>, phases: seq<string>) returns (outputs: seq<string>)
    ensures outputs == RequiredOutputs(pipeline, phases) && FirstMet(outputs, Joined(OutputLists(pipeline, phases)))
  {
    OutputsFirstMet(pipeline, phases);
    outputs := [];
    for k := 0 to |phases|
      invariant outputs == RequiredOutputs(pipeline, phases[..k])
    {
      assert phases[..k + 1][..k] == phases[..k];
      outputs := AppendNew(outputs, OutputsOf(pipeline, phases[k]));
    }
    assert phases[..|phases|] == phases;
  }

  /** Splice the route's task kernels in behind the last constitutional kernel. */
  method InsertTaskKernels(active: seq<string>, block: seq<string>) returns (all: seq<string>)
    ensures all == Splice(active, block)
  {
    all := active;
    if block != [] {
      var last := -1;
      for k := 0 to |active|
        invariant -1 <= last < k
        invariant last >= 0 ==> Contains(active[last], CONSTITUTIONAL)
        invariant forall j | last < j < k :: !Contains(active[j], CONSTITUTIONAL)
      {
        if Contains(active[k], CONSTITUTIONAL) { last := k; }
      }
      var at := if last >= 0 then last + 1 else |active|;
      assert at == InsertAt(active);
      all := active[..at] + block + active[at..];
    } else {
      assert active[..InsertAt(active)] + [] + active[InsertAt(active)..] == active;
    }
  }

  /** `ActivationPlanner.plan`. */
  method Plan(x: Request) returns (plan: ActivationPlan)
    ensures plan == PlanOf(x)
  {
    var wanted := CollectWanted(x);
    var phases := Filter((p: string) => p in wanted, PhaseIds(x.pipeline));
    FilterAgrees((p: string) => p in wanted, (p: string) => p in Wanted(x), PhaseIds(x.pipeline));
    var active := CollectKernels(x.pipeline, phases);
    var block := Filter((k: string) => k !in active, x.route.taskKernels);
    FilterAgrees((k: string) => k !in active, (k: string) => k !in PhaseKernels(x.pipeline, Ordered(x)),
      x.route.taskKernels);
    active := InsertTaskKernels(active, block);
    var permitted := (P7 in phases && x.terminalPhrase) || x.includeTerminal;
    if P7 in phases && !permitted {
      phases := RemoveFirst(phases, P7);
      active := Filter((k: string) => !EndsWith(k, TERMINAL_KERNEL), active);
    }
    var outputs := CollectOutputs(x.pipeline, phases);
    var all := AllKernelPaths(x.pipeline);
    var skipped := Filter((k: string) => k !in active, all);
    FilterAgrees((k: string) => k !in active, (k: string) => k !in Active(x), all);
    plan := ActivationPlan(phases, active, skipped, permitted && P7 in phases, outputs,
                           if phases != [] then phases[0] else "BLOCKED");
  }

  // ---- what a plan guarantees --------------------------------------------

  ghost predicate WellFormed(x: Request)
  {
    NoDup(PhaseIds(x.pipeline)) && NoDup(x.route.taskKernels)
  }

  lemma {:induction false} RemoveIsFilter(xs: seq<string>, x: string)
    requires NoDup(xs)
    ensures RemoveFirst(xs, x) == Filter((y: string) => y != x, xs)
  {
    hide Filter;
    var p := (y: string) => y != x;
    if x in xs {
      var k := Pos(xs, x);
      var a, b := xs[..k], xs[k + 1..];
      assert xs == a + ([x] + b);
      FilterConcat(p, a, [x] + b);
      FilterConcat(p, [x], b);
      FilterUniform(p, a, true);
      FilterUniform(p, [x], false);
      FilterUniform(p, b, true);
    } else {
      FilterUniform(p, xs, true);
    }
  }

  lemma {:induction false} FilterTwice(p: string -> bool, q: string -> bool, both: string -> bool, xs: seq<string>)
    requires forall x | x in xs :: both(x) <==> p(x) && q(x)
    ensures Filter(q, Filter(p, xs)) == Filter(both, xs)
  {
    if xs != [] {
      var init, last := xs[..|xs| - 1], xs[|xs| - 1];
      assert xs == init + [last];
      FilterTwice(p, q, both, init);
      var kept := Filter(p, init);
      assert (kept + [last])[..|kept|] == kept && (kept + [last])[|kept|] == last;
    }
  }

  /** The planned phases are those asked for and allowed, once each, in canonical order. */
  lemma PhasesAreCanonical(x: Request)
    requires WellFormed(x)
    ensures PlanOf(x).phases ==
      Filter((p: string) => p in Wanted(x) && (p == P7 ==> TerminalPermitted(x)), PhaseIds(x.pipeline))
    ensures NoDup(PlanOf(x).phases)
  {
    var ids := PhaseIds(x.pipeline);
    var allowed := (p: string) => p in Wanted(x) && (p == P7 ==> TerminalPermitted(x));
    if DropsTerminal(x) {
      RemoveIsFilter(Ordered(x), P7);
      FilterTwice((p: string) => p in Wanted(x), (p: string) => p != P7, allowed, ids);
    } else {
      forall p | p in ids ensures p in Wanted(x) <==> allowed(p) { }
      FilterAgrees((p: string) => p in Wanted(x), allowed, ids);
    }
  }

  /** Terminal success is allowed exactly when the terminal phase is in the sequence. */
  lemma TerminalAllowedIff(x: Request)
    requires WellFormed(x)
    ensures PlanOf(x).terminalAllowed <==> P7 in PlanOf(x).phases
  {
    PhasesAreCanonical(x);
  }

  lemma PhaseKernelsDistinct(pipeline: seq<Phase>, phases: seq<string>)
    ensures NoDup(PhaseKernels(pipeline, phases))
    ensures forall k :: k in PhaseKernels(pipeline, phases) <==>
      exists p :: p in phases && p != P2 && k in KernelsOf(pipeline, p)
  {
    var lists := PhaseLists(pipeline, phases);
    PhaseKernelsFirstMet(pipeline, phases);
    forall k ensures k in PhaseKernels(pipeline, phases) <==>
        exists p :: p in phases && p != P2 && k in KernelsOf(pipeline, p) {
      InJoined(lists, k);
      if p :| p in phases && p != P2 && k in KernelsOf(pipeline, p) {
        var n :| 0 <= n < |phases| && phases[n] == p;
        assert k in lists[n];
      }
    }
  }

  lemma SpliceDistinct(active: seq<string>, block: seq<string>)
    requires NoDup(active) && NoDup(block) && forall k | k in block :: k !in active
    ensures NoDup(Splice(active, block))
    ensures Filter((k: string) => k !in block, Splice(active, block)) == active
    ensures forall k :: k in Splice(active, block) <==> k in active || k in block
  {
    hide Filter, NoDup, InsertAt;
    var at := InsertAt(active);
    var a, b := active[..at], active[at..];
    var p := (k: string) => k !in block;
    assert active == a + b;
    assert Splice(active, block) == a + (block + b);
    FilterConcat(p, a, block + b);
    FilterConcat(p, block, b);
    FilterUniform(p, a, true);
    FilterUniform(p, block, false);
    FilterUniform(p, b, true);
    SplitDistinct(active, at, block);
  }

  lemma SplitDistinct(active: seq<string>, at: nat, block: seq<string>)
    requires NoDup(active) && NoDup(block) && at <= |active| && forall k | k in block :: k !in active
    ensures NoDup(active[..at] + (block + active[at..]))
  {
    var all := active[..at] + (block + active[at..]);
    forall i, j | 0 <= i < j < |all| ensures all[i] != all[j] {
      var n := |block|;
      assert all[i] == if i < at then active[i] else if i < at + n then block[i - at] else active[i - n];
      assert all[j] == if j < at then active[j] else if j < at + n then block[j - at] else active[j - n];
      assert at <= j < at + n ==> block[j - at] in block;
      assert at <= i < at + n ==> block[i - at] in block;
    }
  }

  /**
   Active kernels are distinct; taking the route's block out leaves the phases'
   kernels in phase order; and the block sits right behind the last
   constitutional kernel, or at the end when there is none.
   */
  lemma ActiveIsPhaseOrderAroundBlock(x: Request)
    requires WellFormed(x)
    ensures NoDup(PlanOf(x).active) && NoDup(Spliced(x))
    ensures Filter((k: string) => k !in TaskKernels(x), Spliced(x)) == PhaseKernels(x.pipeline, Ordered(x))
    ensures forall k :: k in Spliced(x) <==>
      k in x.route.taskKernels || exists p :: p in Ordered(x) && p != P2 && k in KernelsOf(x.pipeline, p)
    ensures var phaseKernels := PhaseKernels(x.pipeline, Ordered(x)); var at := InsertAt(phaseKernels);
      && Spliced(x) == phaseKernels[..at] + TaskKernels(x) + phaseKernels[at..]
      && (forall k | at <= k < |phaseKernels| :: !Contains(phaseKernels[k], CONSTITUTIONAL))
      && (at < |phaseKernels| ==> at > 0 && Contains(phaseKernels[at - 1], CONSTITUTIONAL))
  {
    hide PhaseKernels, Ordered;
    PhaseKernelsDistinct(x.pipeline, Ordered(x));
    SpliceDistinct(PhaseKernels(x.pipeline, Ordered(x)), TaskKernels(x));
  }

  lemma {:induction false} PhaseIsListed(pipeline: seq<Phase>, id: string)
    ensures PhaseOf(pipeline, id).Some? ==> PhaseOf(pipeline, id).value in pipeline
  {
    if pipeline != [] { PhaseIsListed(pipeline[..|pipeline| - 1], id); }
  }

  /**
   The pipeline's kernels are split: each is active or skipped and never both,
   the skipped ones are listed once each, and what is active beyond the pipeline
   is the route's.
   */
  lemma ActiveAndSkippedSplit(x: Request)
    requires WellFormed(x)
    ensures NoDup(PlanOf(x).skipped)
    ensures forall k :: k in PlanOf(x).skipped <==> Lists(x.pipeline, k) && k !in PlanOf(x).active
    ensures forall k | k in PlanOf(x).active :: Lists(x.pipeline, k) || k in x.route.taskKernels
  {
    hide Spliced, Ordered, AllKernels, PhaseKernels, TaskKernels, Lists, DropsTerminal, TerminalPermitted;
    AllKernelsFirstMet(x.pipeline);
    forall k ensures k in PlanOf(x).skipped <==> Lists(x.pipeline, k) && k !in PlanOf(x).active {
      InAllKernels(x.pipeline, k);
    }
    forall k | k in PlanOf(x).active ensures Lists(x.pipeline, k) || k in x.route.taskKernels {
      ActiveIsListed(x, k);
    }
  }

  lemma ActiveIsListed(x: Request, k: string)
    requires WellFormed(x) && k in Spliced(x)
    ensures Lists(x.pipeline, k) || k in x.route.taskKernels
  {
    hide Spliced, Ordered, PhaseOf;
    ActiveIsPhaseOrderAroundBlock(x);
    if k !in x.route.taskKernels {
      var p :| p in Ordered(x) && p != P2 && k in KernelsOf(x.pipeline, p);
      PhaseIsListed(x.pipeline, p);
    }
  }

  // ---- matching a route --------------------------------------------------

  datatype Confidence = High | Medium | Low

  /** A listed route and how many of its tokens the mission names. */
  datatype Scored = Scored(name: string, score: nat)

  const PACK_REVIEW := "pack_review"

  /** `_match_route`: a running best that starts below every score. */
  method MatchRoute(routes: seq<Scored>) returns (name: string, confidence: Confidence)
    ensures routes == [] ==> name == PACK_REVIEW && confidence == Low
    ensures routes != [] ==> exists k: nat :: IsBest(routes, k) && name == routes[k].name
                              && (confidence == High <==> routes[k].score >= 2)
                              && (confidence == Low <==> routes[k].score == 0)
    ensures routes != [] && (forall r | r in routes :: r.score == 0) ==> name == routes[0].name && confidence == Low
  {
    name := PACK_REVIEW;
    var best: int := -1;
    ghost var at: nat := 0;
    for k := 0 to |routes|
      invariant k == 0 ==> best == -1 && name == PACK_REVIEW
      invariant k > 0 ==> 0 <= at < k && name == routes[at].name && best == routes[at].score
      invariant k > 0 ==> IsBest(routes[..k], at)
    {
      if routes[k].score > best {
        name, best, at := routes[k].name, routes[k].score, k;
      }
    }
    assert routes[..|routes|] == routes;
    if routes != [] { BestOfNone(routes, at); }
    confidence := if best >= 2 then High else if best == 1 then Medium else Low;
  }

  /** When no route matches, the first listed is the best. */
  lemma BestOfNone(routes: seq<Scored>, k: nat)
    requires IsBest(routes, k)
    ensures (forall r | r in routes :: r.score == 0) ==> k == 0
  {
    assert routes[0] in routes && routes[k] in routes;
  }

  /** The first route of the highest score. */
  ghost predicate IsBest(routes: seq<Scored>, k: nat)
  {
    && k < |routes|
    && (forall j | 0 <= j < |routes| :: routes[j].score <= routes[k].score)
    && forall j | 0 <= j < k :: routes[j].score < routes[k].score
  }
}
