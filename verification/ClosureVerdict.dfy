/**
 When closure accepts. The checks that account for a plan accept every compile;
 the two that look at the selected claims can still reject one, and this says
 for exactly which runs.
 */
module ClosureVerdict {
  import opened Base
  import opened ContextModel
  import opened Reachability
  import opened Resolution
  import opened ResolutionLaws
  import opened Selection
  import opened ContextCompiler
  import opened SelectionLaws
  import opened Closure
  import opened ClosureAgreement
  import opened ClosureValidator

  // ---- what was chosen ---------------------------------------------------

  /** The items a run ends with. */
  ghost function Chosen(t: Trace): set<Item>
  {
    if t.states == [] then {} else t.End().byItem.Values
  }

  predicate UnverifiedState(i: Item) { i.claim.RepositoryClaim? && i.level.Unverified? }

  /** Two facts about one capability, one proving it and one denying it. */
  predicate Contradict(x: Item, y: Item)
  {
    && x.claim.CapabilityClaim? && y.claim.CapabilityClaim? && x.key == y.key
    && x.claim.state == AVAILABLE && y.claim.state == UNAVAILABLE
  }

  ghost predicate Consistent(items: set<Item>)
  {
    forall x, y | x in items && y in items :: !Contradict(x, y)
  }

  /** No unverified repository state, and no capability both available and unavailable. */
  ghost predicate Admissible(items: set<Item>)
  {
    (forall i | i in items :: !UnverifiedState(i)) && Consistent(items)
  }

  lemma ChosenIsListed(t: Trace, selected: seq<Selected>)
    requires t.states != [] && Lists(selected, t.End())
    ensures forall s | s in selected :: s.item in Chosen(t)
    ensures forall i | i in Chosen(t) :: exists s :: s in selected && s.item == i
  {
    forall i | i in Chosen(t) ensures exists s :: s in selected && s.item == i {
      var id :| id in t.End().byItem && t.End().byItem[id] == i;
      var s :| s in selected && s.item.id == id;
    }
  }

  lemma ChosenIsCandidate(plan: Plan, cands: seq<Item>, t: Trace, i: Item)
    requires WellIdentified(Elems(cands)) && IsTrace(plan, cands, t) && i in Chosen(t)
    ensures i in cands
  {
    hide IsStep, Offers, WellIdentified;
    SelectionOffered(plan, cands, t, |t.views|);
    OfferedIsCandidate(plan, cands, i);
  }

  lemma ProvenancedIff(ctx: Context, plan: Plan, cands: seq<Item>, t: Trace)
    requires WellIdentified(Elems(cands)) && (forall i | i in cands :: i.Valid())
    requires IsRun(plan, cands, t) && Lists(ctx.selected, t.End())
    ensures Provenanced(ctx) <==> forall i | i in Chosen(t) :: !UnverifiedState(i)
  {
    hide IsStep, WellIdentified, Lists, Chosen;
    ChosenIsListed(t, ctx.selected);
    forall s | s in ctx.selected ensures Governed(s.item.level) ==> HasProvenance(s.item.source) {
      assert s.item in Chosen(t);
      ChosenIsCandidate(plan, cands, t, s.item);
      assert s.item.Valid();
    }
    if Provenanced(ctx) {
      forall i | i in Chosen(t) ensures !UnverifiedState(i) { var s :| s in ctx.selected && s.item == i; }
    }
  }

  lemma ConsistentIff(ctx: Context, plan: Plan, cands: seq<Item>, t: Trace)
    requires IsRun(plan, cands, t) && Lists(ctx.selected, t.End())
    ensures CapabilitiesConsistent(ctx) <==> Consistent(Chosen(t))
  {
    hide IsStep, Lists, Chosen;
    ChosenIsListed(t, ctx.selected);
    if !CapabilitiesConsistent(ctx) {
      var k :| k in CapabilitiesIn(ctx.selected, AVAILABLE) && k in CapabilitiesIn(ctx.selected, UNAVAILABLE);
      var s :| s in ctx.selected && s.item.claim.CapabilityClaim? && s.item.claim.state == AVAILABLE && s.item.key == k;
      var u :| u in ctx.selected && u.item.claim.CapabilityClaim? && u.item.claim.state == UNAVAILABLE
        && u.item.key == k;
      assert Contradict(s.item, u.item);
    }
    if !Consistent(Chosen(t)) {
      var x, y :| x in Chosen(t) && y in Chosen(t) && Contradict(x, y);
      var s :| s in ctx.selected && s.item == x;
      var u :| u in ctx.selected && u.item == y;
      assert x.key in CapabilitiesIn(ctx.selected, AVAILABLE) * CapabilitiesIn(ctx.selected, UNAVAILABLE);
    }
  }

  /** Closure accepts a compile exactly when what the run chose is admissible. */
  lemma VerdictIff(ctx: Context, plan: Plan, cands: seq<Item>, t: Trace, extra: seq<Unknown>, views: seq<View>)
    requires Given(plan, cands, extra) && Compiled(ctx, plan, cands, t, extra) && Reresolved(plan, cands, views)
    ensures Accounted(ctx, plan, views)
    ensures Provenanced(ctx) <==> forall i | i in Chosen(t) :: !UnverifiedState(i)
    ensures Closed(ctx, plan, views) <==> Admissible(Chosen(t))
  {
    hide Accounted, Provenanced, CapabilitiesConsistent, Lists, IsTrace, Reresolved, WellIdentified, Consistent, Chosen,
      Deduped;
    ClosureAccountsForCompiled(ctx, plan, cands, t, extra, views);
    ProvenancedIff(ctx, plan, cands, t);
    ConsistentIff(ctx, plan, cands, t);
  }

  // ---- one run per input -------------------------------------------------

  /** Two traces of the same plan over the same candidates pass through the same states. */
  lemma {:induction false} StatesAgree(plan: Plan, cands: seq<Item>, t: Trace, u: Trace, n: nat)
    requires WellIdentified(Elems(cands)) && IsTrace(plan, cands, t) && IsTrace(plan, cands, u)
    requires n <= |t.views| && n <= |u.views|
    ensures t.states[n] == u.states[n]
  {
    if n > 0 {
      hide IsTrace, TakenAt, AdmitAll, WellIdentified;
      StatesAgree(plan, cands, t, u, n - 1);
      StepsAgree(plan, cands, t, u, n - 1);
      StateAfter(plan, cands, t, n - 1);
      StateAfter(plan, cands, u, n - 1);
    }
  }

  /** From the same state a requirement takes the same items and is met or not alike. */
  lemma StepsAgree(plan: Plan, cands: seq<Item>, t: Trace, u: Trace, n: nat)
    requires WellIdentified(Elems(cands)) && IsTrace(plan, cands, t) && IsTrace(plan, cands, u)
    requires n < |t.views| && n < |u.views| && t.states[n] == u.states[n]
    ensures InTrace(plan, t, n) && InTrace(plan, u, n)
    ensures TakenAt(plan, t, n) == TakenAt(plan, u, n)
    ensures MetAt(plan, t, n) <==> MetAt(plan, u, n)
  {
    TraceView(plan, cands, t, n);
    TraceView(plan, cands, u, n);
    MetsAgree(cands, plan.budget, plan.requirements[n], t.states[n], t.views[n], u.views[n]);
  }

  lemma MetsAgree(cands: seq<Item>, budget: Budget, r: Requirement, st: State, v: View, w: View)
    requires WellIdentified(Elems(cands)) && Resolves(Eligible(cands, r), v) && Resolves(Eligible(cands, r), w)
    ensures Taken(st, budget, r, v) == Taken(st, budget, r, w)
    ensures Met(st, budget, r, v) <==> Met(st, budget, r, w)
  {
    hide Resolves, WellIdentified, Satisfied, FrontierOf;
    EligibleIdentified(cands, r);
    SameFrontier(r, Eligible(cands, r), v, w);
    ViewsAgree(Eligible(cands, r), v, w);
  }

  /** Where one trace was blocked, no run keeps every blocking requirement met. */
  lemma BlockedHasNoRun(plan: Plan, cands: seq<Item>, t: Trace, error: Blocked, u: Trace)
    requires WellIdentified(Elems(cands)) && BlockedAt(plan, cands, t, error) && IsRun(plan, cands, u)
    ensures !NothingBlocked(plan, u)
  {
    hide IsStep, Resolves, Met, WellIdentified;
    var n := |t.views|;
    var r := plan.requirements[n];
    var v :| Resolves(Eligible(cands, r), v) && !Met(t.End(), plan.budget, r, v);
    assert InTrace(plan, u, n) && t.End() == u.states[n] by { RunShape(plan, cands, t, u); }
    TraceView(plan, cands, u, n);
    MetsAgree(cands, plan.budget, r, t.End(), v, u.views[n]);
    assert !MetAt(plan, u, n);
  }

  lemma RunShape(plan: Plan, cands: seq<Item>, t: Trace, u: Trace)
    requires WellIdentified(Elems(cands)) && IsTrace(plan, cands, t) && |t.views| < |plan.requirements|
    requires IsRun(plan, cands, u)
    ensures InTrace(plan, u, |t.views|) && t.states != [] && t.End() == u.states[|t.views|]
  {
    StatesAgree(plan, cands, t, u, |t.views|);
  }

  lemma RunsAgree(plan: Plan, cands: seq<Item>, t: Trace, u: Trace)
    requires WellIdentified(Elems(cands)) && IsRun(plan, cands, t) && IsRun(plan, cands, u)
    ensures Chosen(t) == Chosen(u)
  {
    StatesAgree(plan, cands, t, u, |plan.requirements|);
  }

  // ---- compile, then validate --------------------------------------------

  datatype Failure = RequirementBlocked(requirement: string) | ClosureFailed(check: string)

  /** A run of the plan in which nothing blocks. */
  ghost predicate Completes(plan: Plan, cands: seq<Item>, t: Trace)
  {
    IsRun(plan, cands, t) && NothingBlocked(plan, t)
  }

  lemma CompletesOnce(plan: Plan, cands: seq<Item>, t: Trace)
    requires WellIdentified(Elems(cands)) && Completes(plan, cands, t)
    ensures forall u | Completes(plan, cands, u) :: Chosen(u) == Chosen(t)
  {
    hide IsTrace, WellIdentified, Chosen, NothingBlocked;
    forall u | Completes(plan, cands, u) ensures Chosen(u) == Chosen(t) { RunsAgree(plan, cands, t, u); }
  }

  /** The accepted runs: complete, and choosing only admissible items. */
  ghost predicate Accepts(plan: Plan, cands: seq<Item>, t: Trace)
  {
    Completes(plan, cands, t) && Admissible(Chosen(t))
  }

  /** The complete runs closure rejects, and the check that fails first. */
  ghost predicate Rejects(plan: Plan, cands: seq<Item>, t: Trace, check: string)
  {
    && Completes(plan, cands, t) && !Admissible(Chosen(t))
    && check == if exists i :: i in Chosen(t) && UnverifiedState(i) then PROVENANCE_CHECK else CAPABILITY_CHECK
  }

  /** The first failing check of a context that is accounted for. */
  lemma FirstFailing(ctx: Context, plan: Plan, views: seq<View>, k: nat)
    requires FailsAt(ctx, plan, views, k) && Accounted(ctx, plan, views)
    ensures CHECKS[k] == if Provenanced(ctx) then CAPABILITY_CHECK else PROVENANCE_CHECK
  {
    hide RequirementsDisposed, ItemsBound, ConflictsVisible, MemoryContained, BudgetsRespected, CoverageProven,
      UnknownsBound, Provenanced, CapabilitiesConsistent;
    if k > 1 { assert CheckHolds(1, ctx, plan, views); }
    if k == 5 { assert CHECKS[5] == CAPABILITY_CHECK; }
  }

  /**
   Compile, then validate, as the pipeline does. It succeeds exactly when a run
   completes with an admissible choice; otherwise a requirement blocked, or the
   one complete run chose what closure rejects.
   */
  method CompileThenValidate(plan: Plan, cands: seq<Item>, extra: seq<Unknown>) returns (out: Result<Context, Failure>)
    requires Given(plan, cands, extra)
    ensures out.Ok? <==> exists t :: Accepts(plan, cands, t)
    ensures out.Ok? ==> exists t, views :: Accepts(plan, cands, t) && Compiled(out.value, plan, cands, t, extra)
                          && Reresolved(plan, cands, views) && Closed(out.value, plan, views)
    ensures out.Err? && out.error.RequirementBlocked? ==>
              exists t :: BlockedAt(plan, cands, t, Blocked(out.error.requirement))
    ensures out.Err? && out.error.ClosureFailed? ==> exists t :: Rejects(plan, cands, t, out.error.check)
    ensures (forall r | r in plan.requirements :: !r.policy.Block?) ==> out.Err? ==> out.error.ClosureFailed?
  {
    hide WellIdentified, Compiled, Reresolved, Closed, Accepts, Rejects, BlockedAt;
    var compiled, t := Compile(plan, cands, extra);
    if compiled.Err? {
      BlockedIsRefused(plan, cands, t, compiled.error);
      return Err(RequirementBlocked(compiled.error.requirement));
    }
    var verdict, views := Validate(compiled.value, plan, cands);
    out := if verdict.Err? then Err(ClosureFailed(verdict.error)) else Ok(compiled.value);
    Judged(compiled.value, plan, cands, t, extra, views, verdict);
  }

  lemma BlockedIsRefused(plan: Plan, cands: seq<Item>, t: Trace, error: Blocked)
    requires WellIdentified(Elems(cands)) && BlockedAt(plan, cands, t, error)
    ensures forall u :: !Accepts(plan, cands, u)
    ensures exists r :: r in plan.requirements && r.policy.Block?
  {
    hide WellIdentified, IsTrace, Admissible, NothingBlocked, Chosen;
    forall u ensures !Accepts(plan, cands, u) {
      if IsRun(plan, cands, u) { BlockedHasNoRun(plan, cands, t, error, u); }
    }
    assert plan.requirements[|t.views|] in plan.requirements;
  }

  /** The verdict of closure on a compile, in terms of the run behind it. */
  lemma Judged(ctx: Context, plan: Plan, cands: seq<Item>, t: Trace, extra: seq<Unknown>, views: seq<View>,
               verdict: Result<seq<string>, string>)
    requires Given(plan, cands, extra) && Compiled(ctx, plan, cands, t, extra) && Reresolved(plan, cands, views)
    requires verdict.Ok? <==> Closed(ctx, plan, views)
    requires verdict.Err? ==> exists k: nat :: FailsAt(ctx, plan, views, k) && verdict.error == CHECKS[k]
    ensures verdict.Ok? ==> Accepts(plan, cands, t)
    ensures verdict.Err? ==> Rejects(plan, cands, t, verdict.error) && forall u :: !Accepts(plan, cands, u)
  {
    hide WellIdentified, IsTrace, Reresolved, Closed, Admissible, Accounted, CheckHolds, Lists, Deduped, NothingBlocked,
      Provenanced, Chosen;
    VerdictIff(ctx, plan, cands, t, extra, views);
    CompletesOnce(plan, cands, t);
    if verdict.Err? {
      var k: nat :| FailsAt(ctx, plan, views, k) && verdict.error == CHECKS[k];
      FirstFailing(ctx, plan, views, k);
    }
  }
}
