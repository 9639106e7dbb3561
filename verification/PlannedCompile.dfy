/**
 From candidates to an accepted context: discover, plan, compile and validate, and
 what a task is promised about what it is delivered.
 */
module PlannedCompile {
  import opened Base
  import opened ContextModel
  import opened Reachability
  import opened Resolution
  import opened ResolutionLaws
  import opened Selection
  import opened ContextCompiler
  import opened SelectionLaws
  import opened Closure
  import opened ClosureAgreement
  import opened ClosureVerdict
  import opened HarmlessPlans
  import opened Discovery
  import opened ClosureLaws
  import opened ShortfallLaws
  import opened RequirementPlanner
  import opened PlannerLaws

  lemma ArchitectureIsPlanned(ident: Body -> string, plan: Plan, scoped: set<string>, required: bool,
      declared: set<Declared>)
    returns (n: nat)
    requires Plans(ident, plan, AllBodies(scoped, required, declared))
    ensures n < |plan.requirements|
    ensures plan.requirements[n] == ArchitectureRequirement(plan.requirements[n].id, scoped, required)
  {
    var b := Baseline(ArchitectureConstraint, scoped, required, Informative);
    assert b == BaselineBodies(scoped, required)[0];
    n := PlannedAt(ident, plan, AllBodies(scoped, required, declared), b);
  }

  /** Every signal of the routing view reached the selection, or the context says the budget ran out. */
  ghost predicate SignalsKept(ctx: Context, rid: string, dv: View)
  {
    forall x | x in ViewItems(dv.groups) && x.claim.ConstraintClaim? ::
      || (exists s :: s in ctx.selected && s.item == x && rid in s.because)
      || (exists u :: u in ctx.unknowns && u.reason.BudgetInsufficient? && u.requirement == Some(rid))
  }

  lemma DiscoveryUnbound(cands: seq<Item>, scoped: set<string>, v: View, d: DiscoveryContext)
    requires Resolves(DiscoveryCandidates(cands, scoped), v) && Projects(v, d)
    ensures Unbound(d.unknowns)
  {
    forall u | u in d.unknowns ensures u.requirement.None? {
      if u in v.unknowns { ViewReportsUnbound(DiscoveryCandidates(cands, scoped), v, u); }
    }
  }

  // ---- required kinds ----------------------------------------------------

  /** Where nothing of the kind was selected, a blocking unknown of a planned requirement of the kind says so. */
  ghost predicate AccountsFor(ctx: Context, plan: Plan, k: Kind)
  {
    (forall s | s in ctx.selected :: s.item.Kind() != k) ==>
      exists u, r :: u in ctx.unknowns && r in plan.requirements && r.kind == k
        && u.requirement == Some(r.id) && u.materiality == Blocking
        && (u.reason == MissingRequiredContext || u.reason == BudgetInsufficient)
  }

  /** A planned requirement that is required gets something of its kind, or leaves a blocking unknown. */
  lemma RequiredIsAccounted(ctx: Context, plan: Plan, cands: seq<Item>, t: Trace, extra: seq<Unknown>, n: nat)
    requires Given(plan, cands, extra) && Compiled(ctx, plan, cands, t, extra) && n < |plan.requirements|
    requires plan.requirements[n].required
    ensures AccountsFor(ctx, plan, plan.requirements[n].kind)
  {
    var r := plan.requirements[n];
    assert r in plan.requirements && r.Valid();
    if forall s | s in ctx.selected :: s.item.Kind() != r.kind {
      GotNothing(ctx, plan, cands, t, extra, r);
      hide Compiled, Given, Got;
      ShortfallIff(ctx, plan, cands, t, extra, n);
      var u :| TellsShortfall(ctx, r.id, u);
      ShortfallSays(ctx, plan, cands, t, extra, n, u);
    }
  }

  lemma GotNothing(ctx: Context, plan: Plan, cands: seq<Item>, t: Trace, extra: seq<Unknown>, r: Requirement)
    requires Given(plan, cands, extra) && Compiled(ctx, plan, cands, t, extra) && r in plan.requirements
    requires forall s | s in ctx.selected :: s.item.Kind() != r.kind
    ensures Got(ctx, r.id) == {}
  {
    hide Compiled, Given;
    if i :| i in Got(ctx, r.id) {
      var s :| s in ctx.selected && r.id in s.because && s.item == i;
      SelectedMatchesItsReasons(ctx, plan, cands, t, extra, s, r);
      assert false;
    }
  }

  // ---- plan, compile, validate -------------------------------------------

  /** What the pipeline guarantees of a compile that succeeds. */
  ghost predicate Delivers(ctx: Context, plan: Plan, cands: seq<Item>, dv: View)
  {
    && (exists views :: Reresolved(plan, cands, views) && Closed(ctx, plan, views))
    && (exists r :: r in plan.requirements && r.kind == ArchitectureConstraint && SignalsKept(ctx, r.id, dv))
  }

  lemma Delivered(ident: Body -> string, scoped: set<string>, required: bool, kernels: seq<KernelNeeds>, plan: Plan,
                  cands: seq<Item>, extra: seq<Unknown>, dv: View, ctx: Context, t: Trace, views: seq<View>)
    requires Given(plan, cands, extra) && Plans(ident, plan, AllBodies(scoped, required, DeclaredBy(kernels)))
    requires Resolves(DiscoveryCandidates(cands, scoped), dv) && Compiled(ctx, plan, cands, t, extra)
    requires Reresolved(plan, cands, views) && Closed(ctx, plan, views)
    ensures Delivers(ctx, plan, cands, dv)
  {
    hide Plans, AllBodies, Resolves, Compiled, Closed, WellIdentified, DiscoveryEligible, Filter, Given;
    var n := ArchitectureIsPlanned(ident, plan, scoped, required, DeclaredBy(kernels));
    var rid := plan.requirements[n].id;
    forall x | x in ViewItems(dv.groups) && x.claim.ConstraintClaim?
      ensures (exists s :: s in ctx.selected && s.item == x && rid in s.because)
           || (exists u :: u in ctx.unknowns && u.reason.BudgetInsufficient? && u.requirement == Some(rid))
    {
      SignalIsNeverLost(ctx, plan, cands, t, extra, n, scoped, required, dv, x);
    }
    assert plan.requirements[n] in plan.requirements && SignalsKept(ctx, rid, dv);
  }

  lemma SignalsProven(dv: View, d: DiscoveryContext)
    requires Projects(dv, d)
    ensures d.signals != {} <==> exists key :: Signals(dv, key)
  {
    hide Signals;
    if d.signals != {} { var key :| key in d.signals; }
  }

  /** The standing requirements that are required are accounted for. */
  lemma Accounted(ident: Body -> string, scoped: set<string>, required: bool, kernels: seq<KernelNeeds>, plan: Plan,
                  cands: seq<Item>, extra: seq<Unknown>, ctx: Context, t: Trace)
    requires Injective(ident) && Plans(ident, plan, AllBodies(scoped, required, DeclaredBy(kernels)))
    requires Given(plan, cands, extra) && Compiled(ctx, plan, cands, t, extra)
    ensures scoped != {} ==> AccountsFor(ctx, plan, RepositoryState)
    ensures required ==> AccountsFor(ctx, plan, ArchitectureConstraint)
  {
    hide Plans, AllBodies, Injective, Given, Compiled, AccountsFor, NeededBy, ForNeed;
    PlanHolds(ident, scoped, required, kernels, plan);
    assert Served(plan, RepositoryState) && Served(plan, ArchitectureConstraint);
    var i: nat :| FirstOfKind(plan, i) && plan.requirements[i].kind == RepositoryState;
    var j: nat :| FirstOfKind(plan, j) && plan.requirements[j].kind == ArchitectureConstraint;
    if scoped != {} { RequiredIsAccounted(ctx, plan, cands, t, extra, i); }
    if required { RequiredIsAccounted(ctx, plan, cands, t, extra, j); }
  }

  /** Materiality asked for architecture and discovery proved a signal of it. */
  ghost predicate ArchitectureAsked(materialityRequired: bool, dv: View)
  {
    materialityRequired && exists key :: Signals(dv, key)
  }

  /**
   Discover, plan, compile and validate. No requirement can block; closure
   accepts unless the run chose what its checks on the claims reject, and always
   when every kernel need is safe. What is delivered lost no architecture signal
   discovery proved; a task that names a target is delivered repository state or a
   blocking unknown for it, and so is architecture when it was asked for.
   */
  method PlanCompileValidate(ident: Body -> string, scoped: set<string>, materialityRequired: bool,
                             kernels: seq<KernelNeeds>, cands: seq<Item>, extra: seq<Unknown>)
    returns (out: Result<Context, Failure>, ghost plan: Plan, ghost dv: View)
    requires Injective(ident) && WellDeclared(kernels) && WellIdentified(Elems(cands)) && Unbound(extra)
    requires forall i | i in cands :: i.Valid()
    ensures plan.Valid() && Resolves(DiscoveryCandidates(cands, scoped), dv)
    ensures Plans(ident, plan, AllBodies(scoped, ArchitectureAsked(materialityRequired, dv), DeclaredBy(kernels)))
    ensures out.Ok? <==> exists t :: Accepts(plan, cands, t)
    ensures out.Err? ==> out.error.ClosureFailed? && exists t :: Rejects(plan, cands, t, out.error.check)
    ensures NeedsAreSafe(kernels, scoped) ==> out.Ok?
    ensures out.Ok? ==> Delivers(out.value, plan, cands, dv)
    ensures out.Ok? && scoped != {} ==> AccountsFor(out.value, plan, RepositoryState)
    ensures out.Ok? && ArchitectureAsked(materialityRequired, dv) ==>
      AccountsFor(out.value, plan, ArchitectureConstraint)
  {
    hide Plans, AllBodies, Resolves, Compiled, Closed, Projects, Injective, WellIdentified, DiscoveryEligible, Filter,
      Delivers, Accepts, Rejects, NeedsAreSafe, Harmless, AccountsFor;
    var d := Discover(cands, scoped);
    dv :| Resolves(DiscoveryCandidates(cands, scoped), dv) && Projects(dv, d);
    SignalsProven(dv, d);
    DiscoveryUnbound(cands, scoped, dv, d);
    var thePlan := PlanRequirements(ident, scoped, materialityRequired, d.signals, kernels);
    plan := thePlan;
    ghost var required := materialityRequired && d.signals != {};
    PlansAreValid(ident, scoped, required, kernels, plan);
    PlanIsHarmlessIff(ident, scoped, required, kernels, plan, 0);
    out := CompileThenValidate(thePlan, cands, extra + d.unknowns);
    if out.Ok? {
      ghost var t, views :| Accepts(plan, cands, t) && Compiled(out.value, plan, cands, t, extra + d.unknowns)
        && Reresolved(plan, cands, views) && Closed(out.value, plan, views);
      Delivered(ident, scoped, required, kernels, plan, cands, extra + d.unknowns, dv, out.value, t, views);
      Accounted(ident, scoped, required, kernels, plan, cands, extra + d.unknowns, out.value, t);
    }
    forall t, check | Harmless(plan, 0) ensures !Rejects(plan, cands, t, check) {
      HarmlessNeverRejects(plan, cands, t, check, 0);
    }
  }
}
