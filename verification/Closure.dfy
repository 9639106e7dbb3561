/**
 The context closure validator: it receives only the finished context, re-resolves
 every requirement's candidates, and recomputes dispositions, budgets and coverage.
 */
module Closure {
  import opened Base
  import opened ContextModel
  import opened Reachability
  import opened Resolution
  import opened ResolutionLaws
  import opened Selection

  // ---- reading the finished context --------------------------------------

  /** The selected items bound to a requirement. */
  function BoundTo(selected: seq<Selected>, rid: string): seq<Item>
  {
    if selected == [] then []
    else
      var rest, last := BoundTo(selected[..|selected| - 1], rid), selected[|selected| - 1];
      if rid in last.because then rest + [last.item] else rest
  }

  /** The selected items bound to any of the given requirements. */
  function BoundToAny(selected: seq<Selected>, rids: set<string>): seq<Item>
  {
    if selected == [] then []
    else
      var rest, last := BoundToAny(selected[..|selected| - 1], rids), selected[|selected| - 1];
      if last.because * rids != {} then rest + [last.item] else rest
  }

  function ItemsOf(selected: seq<Selected>): seq<Item>
  {
    if selected == [] then []
    else ItemsOf(selected[..|selected| - 1]) + [selected[|selected| - 1].item]
  }

  function PlannedIds(reqs: seq<Requirement>): set<string> { set r | r in reqs :: r.id }

  /** `_eligible_items`: identity to semantic key. */
  function KeyMap(items: seq<Item>): map<string, string>
  {
    if items == [] then map[]
    else KeyMap(items[..|items| - 1])[items[|items| - 1].id := items[|items| - 1].key]
  }

  /** Keys a requirement disposed as a conflict its own view confirms. */
  function DisposedKeys(unknowns: seq<Unknown>, rid: string, v: View): set<string>
  {
    set u | u in unknowns && u.reason.ConflictingGovernedClaims? && u.requirement == Some(rid)
         && u.key.Some? && u.key.value in ConflictKeys(v.groups) :: u.key.value
  }

  predicate ShortfallRecorded(unknowns: seq<Unknown>, rid: string)
  {
    exists u | u in unknowns :: Shortfall(u.reason) && u.requirement == Some(rid)
  }

  function MissingListed(u: Unknown): set<string>
  {
    if u.details.ShortfallDetails? && u.details.missingKeys.Some? then u.details.missingKeys.value else {}
  }

  function MissingRecorded(unknowns: seq<Unknown>, rid: string): set<string>
  {
    set u, k | u in unknowns && Shortfall(u.reason) && u.requirement == Some(rid) && k in MissingListed(u) :: k
  }

  // ---- the budget witness ------------------------------------------------

  function FirstBudget(unknowns: seq<Unknown>, rid: string): (r: Option<Unknown>)
    ensures r.Some? ==> r.value in unknowns && r.value.reason.BudgetInsufficient? && r.value.requirement == Some(rid)
    ensures r.None? ==> forall u | u in unknowns :: !(u.reason.BudgetInsufficient? && u.requirement == Some(rid))
  {
    if unknowns == [] then None
    else if unknowns[0].reason.BudgetInsufficient? && unknowns[0].requirement == Some(rid) then Some(unknowns[0])
    else FirstBudget(unknowns[1..], rid)
  }

  function Witness(u: Unknown): Option<BudgetStop>
  {
    if u.details.ShortfallDetails? then u.details.stop else None
  }

  /** Dictionary update by identity: replace in place, or append. */
  function Upsert(xs: seq<Item>, i: Item): seq<Item>
  {
    if xs == [] then [i]
    else if xs[0].id == i.id then [i] + xs[1..]
    else [xs[0]] + Upsert(xs[1..], i)
  }

  function UpsertAll(xs: seq<Item>, items: seq<Item>): seq<Item>
  {
    if items == [] then xs
    else Upsert(UpsertAll(xs, items[..|items| - 1]), items[|items| - 1])
  }

  /** The selection at the stop, rebuilt: earlier requirements' items and this one's own. */
  function Rebuilt(selected: seq<Selected>, earlier: set<string>, admitted: seq<Item>): seq<Item>
  {
    UpsertAll(UpsertAll([], BoundToAny(selected, earlier)), admitted)
  }

  /** Does the witness hold, given what the requirement admitted and what blocked it? */
  predicate WitnessHolds(w: BudgetStop, budget: Budget, r: Requirement, selected: seq<Selected>,
                         earlier: set<string>, admitted: seq<Item>, blocked: Item)
  {
    && blocked.id == w.blockedId
    && blocked.cost == w.candidateCost
    && match w.bound
       case RequirementMaxItems =>
         && r.maxItems == Some(w.limit) && w.observedCount == |admitted| && |admitted| + 1 > w.limit
       case RequirementMaxBytes =>
         && r.maxBytes == Some(w.limit) && w.observedBytes == SumCost(admitted)
         && SumCost(admitted) + blocked.cost > w.limit
       case GlobalMaxItems =>
         var unique := Rebuilt(selected, earlier, admitted);
         && blocked.id !in (set i | i in unique :: i.id)
         && w.limit == budget.maxItems && w.observedCount == |unique| && |unique| + 1 > budget.maxItems
       case GlobalMaxBytes =>
         var unique := Rebuilt(selected, earlier, admitted);
         && blocked.id !in (set i | i in unique :: i.id)
         && w.limit == budget.maxBytes && w.observedBytes == SumCost(unique)
         && SumCost(unique) + blocked.cost > budget.maxBytes
       case OtherBound(_) => false
  }

  function EarlierIds(plan: Plan, n: nat): set<string>
    requires n <= |plan.requirements|
  {
    PlannedIds(plan.requirements[..n])
  }

  function TakenIds(ctx: Context, rid: string): set<string>
  {
    set i | i in BoundTo(ctx.selected, rid) :: i.id
  }

  /** `_budget_stop_independently_proven`. */
  predicate StopProven(ctx: Context, plan: Plan, n: nat, v: View)
    requires n < |plan.requirements|
  {
    var r := plan.requirements[n];
    var u := FirstBudget(ctx.unknowns, r.id);
    u.Some? && Witness(u.value).Some? &&
    var taken := TakenIds(ctx, r.id);
    var admitted := Filter((i: Item) => i.id in taken, FrontierOf(r, v));
    var left := Filter((i: Item) => i.id !in taken, FrontierOf(r, v));
    left != [] &&
    WitnessHolds(Witness(u.value).value, plan.budget, r, ctx.selected, EarlierIds(plan, n), admitted, left[0])
  }

  // ---- one requirement's verdict -----------------------------------------

  datatype Breach =
    | IneligibleSelection(ids: set<string>)
    | AllEligibleIncomplete(missed: set<string>)
    | MinimumExceeded(selected: nat, expected: nat)
    | MinimumIncomplete(selected: nat, expected: nat)
    | SemanticKeysExceeded(keys: set<string>)
    | SemanticKeysIncomplete(keys: set<string>)
    | MaxItemsBreach(selected: nat)
    | MaxBytesBreach(bytes: nat)
    | MinItemsBreach(selected: nat)
    | RequiredKeysBreach(missing: set<string>)

  /** `_coverage_breach`. */
  function CoverageBreach(r: Requirement, eligible: map<string, string>, taken: set<string>, takenKeys: set<string>,
                          disposed: set<string>, truncated: bool): Option<Breach>
  {
    if taken - eligible.Keys != {} then Some(IneligibleSelection(taken - eligible.Keys))
    else match r.coverage
    case AllEligible =>
      if eligible.Keys - taken != {} && !truncated then Some(AllEligibleIncomplete(eligible.Keys - taken)) else None
    case Minimum =>
      var expected := if r.minItems <= |eligible| then r.minItems else |eligible|;
      if |taken| > expected then Some(MinimumExceeded(|taken|, expected))
      else if |taken| < expected && !truncated then Some(MinimumIncomplete(|taken|, expected))
      else None
    case SemanticKeys =>
      var unselected := eligible.Values * r.requiredKeys - takenKeys - disposed;
      if takenKeys - r.requiredKeys != {} then Some(SemanticKeysExceeded(takenKeys - r.requiredKeys))
      else if unselected != {} && !truncated then Some(SemanticKeysIncomplete(unselected))
      else None
  }

  /** `_requirement_breach`. */
  function RequirementBreach(r: Requirement, count: nat, cost: nat, keys: set<string>, disposed: set<string>,
                             recorded: bool, missingRecorded: set<string>): Option<Breach>
  {
    if r.maxItems.Some? && count > r.maxItems.value then Some(MaxItemsBreach(count))
    else if r.maxBytes.Some? && cost > r.maxBytes.value then Some(MaxBytesBreach(cost))
    else if !r.required then None
    else if count + |disposed - keys| < r.minItems && !recorded then Some(MinItemsBreach(count))
    else if r.coverage.SemanticKeys? && r.requiredKeys - keys - disposed - missingRecorded != {} then
      Some(RequiredKeysBreach(r.requiredKeys - keys - disposed - missingRecorded))
    else None
  }

  function CoverageAt(ctx: Context, plan: Plan, n: nat, v: View): Option<Breach>
    requires n < |plan.requirements|
  {
    var r := plan.requirements[n];
    CoverageBreach(r, KeyMap(ViewItems(v.groups)), TakenIds(ctx, r.id), KeysOf(BoundTo(ctx.selected, r.id)),
                   DisposedKeys(ctx.unknowns, r.id, v), StopProven(ctx, plan, n, v))
  }

  function BudgetAt(ctx: Context, plan: Plan, n: nat, v: View): Option<Breach>
    requires n < |plan.requirements|
  {
    var r := plan.requirements[n];
    var items := BoundTo(ctx.selected, r.id);
    RequirementBreach(r, |items|, SumCost(items), KeysOf(items), DisposedKeys(ctx.unknowns, r.id, v),
                      ShortfallRecorded(ctx.unknowns, r.id), MissingRecorded(ctx.unknowns, r.id))
  }

  // ---- the checks --------------------------------------------------------

  /** 1. Every required requirement is satisfied or legally disposed. */
  predicate RequirementsDisposed(ctx: Context, plan: Plan)
  {
    forall r | r in plan.requirements && r.required ::
      || (exists s | s in ctx.selected :: r.id in s.because)
      || (exists u | u in ctx.unknowns :: u.requirement == Some(r.id) && Disposing(u.reason))
  }

  /** 2. Governed claims carry provenance, and repository state never rests on an unverified claim. */
  predicate Provenanced(ctx: Context)
  {
    forall s | s in ctx.selected ::
      && (Governed(s.item.level) ==> HasProvenance(s.item.source))
      && !(s.item.claim.RepositoryClaim? && s.item.level.Unverified?)
  }

  /** The capabilities selected in a state. A capability's identifier is its semantic key. */
  function CapabilitiesIn(selected: seq<Selected>, state: string): set<string>
  {
    set s | s in selected && s.item.claim.CapabilityClaim? && s.item.claim.state == state :: s.item.key
  }

  /** 8, its contradiction test. No capability is both available and unavailable. */
  predicate CapabilitiesConsistent(ctx: Context)
  {
    CapabilitiesIn(ctx.selected, AVAILABLE) * CapabilitiesIn(ctx.selected, UNAVAILABLE) == {}
  }

  const AVAILABLE := "available"
  const UNAVAILABLE := "unavailable"

  /** 4. Every selected item is bound, and only to planned requirements. */
  predicate ItemsBound(ctx: Context, plan: Plan)
  {
    forall s | s in ctx.selected :: s.because != {} && s.because <= PlannedIds(plan.requirements)
  }

  predicate ConflictShown(ctx: Context, rid: string, e: Entry)
  {
    e.group.conflict ==>
      exists u | u in ctx.unknowns ::
        u.reason.ConflictingGovernedClaims? && u.requirement == Some(rid) && u.key == Some(e.key.key)
  }

  /** 6. Every conflict an eligible view holds is visible as an unknown of its requirement. */
  predicate ConflictsVisible(ctx: Context, plan: Plan, views: seq<View>)
    requires |views| == |plan.requirements|
  {
    forall n | 0 <= n < |views| :: forall e | e in views[n].groups :: ConflictShown(ctx, plan.requirements[n].id, e)
  }

  /** 7. Memory enriches and never resolves. */
  predicate MemoryContained(ctx: Context, plan: Plan)
  {
    forall s | s in ctx.selected && s.item.claim.MemoryClaim? ::
      && !Governed(s.item.level)
      && s.because <= (set r | r in plan.requirements && r.kind == MemoryContext :: r.id)
  }

  predicate BudgetsKept(ctx: Context, plan: Plan, views: seq<View>)
    requires |views| == |plan.requirements|
  {
    forall n | 0 <= n < |views| :: BudgetAt(ctx, plan, n, views[n]).None?
  }

  /** 9. Budgets hold per requirement and globally. */
  predicate BudgetsRespected(ctx: Context, plan: Plan, views: seq<View>)
    requires |views| == |plan.requirements|
  {
    && BudgetsKept(ctx, plan, views)
    && |ctx.selected| <= plan.budget.maxItems
    && SumCost(ItemsOf(ctx.selected)) <= plan.budget.maxBytes
  }

  predicate CoverageClean(ctx: Context, plan: Plan, n: nat, v: View)
    requires n < |plan.requirements|
  {
    CoverageAt(ctx, plan, n, v).None?
  }

  /** 10. Every coverage mode is proven against the recomputed eligible set. */
  predicate CoverageProven(ctx: Context, plan: Plan, views: seq<View>)
    requires |views| == |plan.requirements|
  {
    forall n {:trigger CoverageClean(ctx, plan, n, views[n])} | 0 <= n < |views| ::
      CoverageClean(ctx, plan, n, views[n])
  }

  /** 11. Unknowns are bound to planned requirements of a legal policy. */
  predicate UnknownsBound(ctx: Context, plan: Plan)
  {
    forall u | u in ctx.unknowns && u.requirement.Some? ::
      && (u.requirement.value != "" ==> u.requirement.value in PlannedIds(plan.requirements))
      && forall r | r in plan.requirements && r.id == u.requirement.value :: !(r.policy.OptionalPolicy? && r.required)
  }

  /** The checks that account for every requirement, conflict, ceiling and unknown of the plan. */
  predicate Accounted(ctx: Context, plan: Plan, views: seq<View>)
    requires |views| == |plan.requirements|
  {
    && RequirementsDisposed(ctx, plan)
    && ItemsBound(ctx, plan)
    && ConflictsVisible(ctx, plan, views)
    && MemoryContained(ctx, plan)
    && BudgetsRespected(ctx, plan, views)
    && CoverageProven(ctx, plan, views)
    && UnknownsBound(ctx, plan)
  }

  /** Every modelled check holds. */
  predicate Closed(ctx: Context, plan: Plan, views: seq<View>)
    requires |views| == |plan.requirements|
  {
    Accounted(ctx, plan, views) && Provenanced(ctx) && CapabilitiesConsistent(ctx)
  }

  // ---- the imperative validator ------------------------------------------

  /** `_eligible_frontier`. */
  method EligibleFrontier(r: Requirement, v: View) returns (frontier: seq<Item>)
    ensures frontier == FrontierOf(r, v)
  {
    var items := Sort(CandLt, ViewItems(v.groups));
    frontier := [];
    for n := 0 to |items|
      invariant frontier == Frontier(r, items[..n])
    {
      FrontierStep(r, items, n);
      if r.coverage.Minimum? && |frontier| >= r.minItems {
        return;
      }
      if r.coverage.SemanticKeys? && items[n].key !in r.requiredKeys {
        continue;
      }
      frontier := frontier + [items[n]];
    }
    assert items[..|items|] == items;
  }

  method BudgetStopProven(ctx: Context, plan: Plan, n: nat, v: View) returns (b: bool)
    requires n < |plan.requirements|
    ensures b <==> StopProven(ctx, plan, n, v)
  {
    var r := plan.requirements[n];
    var u := FirstBudget(ctx.unknowns, r.id);
    if u.None? || Witness(u.value).None? { return false; }
    var taken := TakenIds(ctx, r.id);
    var frontier := EligibleFrontier(r, v);
    var admitted := Filter((i: Item) => i.id in taken, frontier);
    var left := Filter((i: Item) => i.id !in taken, frontier);
    if left == [] { return false; }
    return WitnessHolds(Witness(u.value).value, plan.budget, r, ctx.selected, EarlierIds(plan, n), admitted, left[0]);
  }

  /** `_conflict_disposed_keys`, one requirement's entry at a time being `DisposedKeys`. */
  method ConflictDisposedKeys(unknowns: seq<Unknown>, rid: string, v: View) returns (keys: set<string>)
    ensures keys == DisposedKeys(unknowns, rid, v)
  {
    keys := {};
    for k := 0 to |unknowns|
      invariant keys == DisposedKeys(unknowns[..k], rid, v)
    {
      var u := unknowns[k];
      assert unknowns[..k + 1] == unknowns[..k] + [u];
      if u.reason.ConflictingGovernedClaims? && u.requirement == Some(rid) && u.key.Some?
         && u.key.value in ConflictKeys(v.groups) {
        keys := keys + {u.key.value};
      }
    }
    assert unknowns[..|unknowns|] == unknowns;
  }

  /** `_shortfall_dispositions`: requirements with a recorded shortfall, and the keys it names. */
  method ShortfallDispositions(unknowns: seq<Unknown>) returns (recorded: map<string, set<string>>)
    ensures forall rid :: rid in recorded <==> ShortfallRecorded(unknowns, rid)
    ensures forall rid | rid in recorded :: recorded[rid] == MissingRecorded(unknowns, rid)
  {
    recorded := map[];
    for k := 0 to |unknowns|
      invariant forall rid :: rid in recorded <==> ShortfallRecorded(unknowns[..k], rid)
      invariant forall rid | rid in recorded :: recorded[rid] == MissingRecorded(unknowns[..k], rid)
    {
      var u := unknowns[k];
      forall rid
        ensures ShortfallRecorded(unknowns[..k + 1], rid) <==>
          ShortfallRecorded(unknowns[..k], rid) || (Shortfall(u.reason) && u.requirement == Some(rid))
        ensures MissingRecorded(unknowns[..k + 1], rid) == MissingRecorded(unknowns[..k], rid)
          + (if Shortfall(u.reason) && u.requirement == Some(rid) then MissingListed(u) else {})
        ensures !ShortfallRecorded(unknowns[..k], rid) ==> MissingRecorded(unknowns[..k], rid) == {} {
        RecordedNextUnknown(unknowns, k, rid);
      }
      if Shortfall(u.reason) && u.requirement.Some? {
        var rid := u.requirement.value;
        var sofar := if rid in recorded then recorded[rid] else {};
        recorded := recorded[rid := sofar + MissingListed(u)];
      }
    }
    assert unknowns[..|unknowns|] == unknowns;
  }

  lemma RecordedNextUnknown(unknowns: seq<Unknown>, k: nat, rid: string)
    requires k < |unknowns|
    ensures var u := unknowns[k];
      && (ShortfallRecorded(unknowns[..k + 1], rid) <==>
          ShortfallRecorded(unknowns[..k], rid) || (Shortfall(u.reason) && u.requirement == Some(rid)))
      && MissingRecorded(unknowns[..k + 1], rid) == MissingRecorded(unknowns[..k], rid)
          + (if Shortfall(u.reason) && u.requirement == Some(rid) then MissingListed(u) else {})
      && (!ShortfallRecorded(unknowns[..k], rid) ==> MissingRecorded(unknowns[..k], rid) == {})
  {
    assert unknowns[..k + 1] == unknowns[..k] + [unknowns[k]];
  }

  method CoverageBreachOf(ctx: Context, plan: Plan, n: nat, v: View) returns (breach: Option<Breach>)
    requires n < |plan.requirements|
    ensures breach == CoverageAt(ctx, plan, n, v)
    ensures breach.None? <==> CoverageClean(ctx, plan, n, v)
  {
    var r := plan.requirements[n];
    var disposed := ConflictDisposedKeys(ctx.unknowns, r.id, v);
    var truncated := BudgetStopProven(ctx, plan, n, v);
    breach := CoverageBreach(r, KeyMap(ViewItems(v.groups)), TakenIds(ctx, r.id), KeysOf(BoundTo(ctx.selected, r.id)),
                             disposed, truncated);
  }

  /** Requirement `n` breaks its coverage, as `b` says. */
  ghost predicate CoverageBreaks(ctx: Context, plan: Plan, views: seq<View>, n: nat, b: Breach)
  {
    n < |views| && |views| == |plan.requirements| && CoverageAt(ctx, plan, n, views[n]) == Some(b)
  }

  /** Requirement `n` breaks its budget, as `b` says. */
  ghost predicate BudgetBreaks(ctx: Context, plan: Plan, views: seq<View>, n: nat, b: Breach)
  {
    n < |views| && |views| == |plan.requirements| && BudgetAt(ctx, plan, n, views[n]) == Some(b)
  }

  /** `_coverage_breaches`. */
  method CoverageBreaches(ctx: Context, plan: Plan, views: seq<View>) returns (breaches: seq<Breach>)
    requires |views| == |plan.requirements|
    ensures forall b :: b in breaches <==> exists n: nat :: CoverageBreaks(ctx, plan, views, n, b)
    ensures breaches == [] <==> CoverageProven(ctx, plan, views)
  {
    hide CoverageClean, CoverageAt;
    breaches := [];
    for n := 0 to |views|
      invariant forall b :: b in breaches <==> exists m: nat :: m < n && CoverageBreaks(ctx, plan, views, m, b)
      invariant breaches == [] <==> CleanUpTo(ctx, plan, views, n)
    {
      var breach := CoverageBreachOf(ctx, plan, n, views[n]);
      forall b ensures CoverageBreaks(ctx, plan, views, n, b) <==> breach == Some(b) {}
      if breach.Some? { breaches := breaches + [breach.value]; }
    }
    CleanUpToAll(ctx, plan, views, |views|);
  }

  ghost predicate CleanUpTo(ctx: Context, plan: Plan, views: seq<View>, n: nat)
    requires |views| == |plan.requirements| && n <= |views|
  {
    n == 0 || (CleanUpTo(ctx, plan, views, n - 1) && CoverageClean(ctx, plan, n - 1, views[n - 1]))
  }

  lemma {:induction false} CleanUpToAll(ctx: Context, plan: Plan, views: seq<View>, n: nat)
    requires |views| == |plan.requirements| && n <= |views|
    ensures CleanUpTo(ctx, plan, views, n) <==>
      forall k {:trigger CoverageClean(ctx, plan, k, views[k])} | 0 <= k < n :: CoverageClean(ctx, plan, k, views[k])
  {
    hide CoverageClean;
    if n > 0 { CleanUpToAll(ctx, plan, views, n - 1); }
  }

  method BudgetBreachOf(ctx: Context, plan: Plan, n: nat, v: View, shortfalls: map<string, set<string>>)
    returns (breach: Option<Breach>)
    requires n < |plan.requirements|
    requires forall rid :: rid in shortfalls <==> ShortfallRecorded(ctx.unknowns, rid)
    requires forall rid | rid in shortfalls :: shortfalls[rid] == MissingRecorded(ctx.unknowns, rid)
    ensures breach == BudgetAt(ctx, plan, n, v)
  {
    var r := plan.requirements[n];
    var items := BoundTo(ctx.selected, r.id);
    var disposed := ConflictDisposedKeys(ctx.unknowns, r.id, v);
    var recorded := r.id in shortfalls;
    var missing := if recorded then shortfalls[r.id] else {};
    MissingOnlyIfRecorded(ctx.unknowns, r.id);
    breach := RequirementBreach(r, |items|, SumCost(items), KeysOf(items), disposed, recorded, missing);
  }

  /** `_budget_breaches`. */
  method BudgetBreaches(ctx: Context, plan: Plan, views: seq<View>) returns (breaches: seq<Breach>)
    requires |views| == |plan.requirements|
    ensures forall b :: b in breaches <==> exists n: nat :: BudgetBreaks(ctx, plan, views, n, b)
    ensures breaches == [] <==> BudgetsKept(ctx, plan, views)
  {
    hide BudgetAt;
    breaches := [];
    var shortfalls := ShortfallDispositions(ctx.unknowns);
    for n := 0 to |views|
      invariant forall b :: b in breaches <==> exists m: nat :: m < n && BudgetBreaks(ctx, plan, views, m, b)
      invariant breaches == [] <==> forall k | 0 <= k < n :: BudgetAt(ctx, plan, k, views[k]).None?
    {
      var breach := BudgetBreachOf(ctx, plan, n, views[n], shortfalls);
      forall b ensures BudgetBreaks(ctx, plan, views, n, b) <==> breach == Some(b) {}
      if breach.Some? { breaches := breaches + [breach.value]; }
    }
  }

  lemma MissingOnlyIfRecorded(unknowns: seq<Unknown>, rid: string)
    ensures !ShortfallRecorded(unknowns, rid) ==> MissingRecorded(unknowns, rid) == {}
  {
  }

  const PROVENANCE_CHECK := "every_governed_selected_item_has_valid_provenance"
  const CAPABILITY_CHECK := "capability_and_authority_gaps_are_explicit"

  /** The modelled checks, in the order the ladder runs them. */
  const CHECKS: seq<string> := [
    "every_required_requirement_has_legal_disposition",
    PROVENANCE_CHECK,
    "every_selected_item_has_relevance_binding",
    "no_equal_authority_conflict_is_silently_selected",
    "no_memory_item_is_used_as_authoritative_resolution",
    CAPABILITY_CHECK,
    "per_requirement_and_global_budgets_are_respected",
    "every_coverage_mode_is_independently_proven",
    "unresolved_unknowns_are_stable_and_bound"
  ]

  /** Whether check number `k` of the ladder holds. */
  predicate CheckHolds(k: nat, ctx: Context, plan: Plan, views: seq<View>)
    requires |views| == |plan.requirements|
  {
    match k
    case 0 => RequirementsDisposed(ctx, plan)
    case 1 => Provenanced(ctx)
    case 2 => ItemsBound(ctx, plan)
    case 3 => ConflictsVisible(ctx, plan, views)
    case 4 => MemoryContained(ctx, plan)
    case 5 => CapabilitiesConsistent(ctx)
    case 6 => BudgetsRespected(ctx, plan, views)
    case 7 => CoverageProven(ctx, plan, views)
    case _ => UnknownsBound(ctx, plan)
  }

  method ResolveViews(plan: Plan, cands: seq<Item>) returns (views: seq<View>)
    requires WellIdentified(Elems(cands))
    ensures Reresolved(plan, cands, views)
  {
    hide Resolves, Filter;
    views := [];
    for n := 0 to |plan.requirements|
      invariant |views| == n
      invariant forall k | 0 <= k < n :: Resolves(Eligible(cands, plan.requirements[k]), views[k])
    {
      EligibleIdentified(cands, plan.requirements[n]);
      var v := ResolveCandidates(Eligible(cands, plan.requirements[n]));
      var longer := views + [v];
      forall k | 0 <= k < n + 1 ensures Resolves(Eligible(cands, plan.requirements[k]), longer[k]) {
        assert longer[k] == if k < n then views[k] else v;
      }
      views := longer;
    }
  }

  /** Views closure recomputed for itself, one per planned requirement. */
  ghost predicate Reresolved(plan: Plan, cands: seq<Item>, views: seq<View>)
  {
    && |views| == |plan.requirements|
    && forall n | 0 <= n < |views| :: Resolves(Eligible(cands, plan.requirements[n]), views[n])
  }

  lemma ClosedByChecks(ctx: Context, plan: Plan, views: seq<View>)
    requires |views| == |plan.requirements|
    ensures Closed(ctx, plan, views) <==> forall k | 0 <= k < |CHECKS| :: CheckHolds(k, ctx, plan, views)
  {
    hide RequirementsDisposed, ItemsBound, ConflictsVisible, MemoryContained, BudgetsRespected, CoverageProven,
      UnknownsBound, Provenanced, CapabilitiesConsistent;
    if forall k | 0 <= k < |CHECKS| :: CheckHolds(k, ctx, plan, views) {
      assert CheckHolds(0, ctx, plan, views) && CheckHolds(1, ctx, plan, views) && CheckHolds(2, ctx, plan, views)
          && CheckHolds(3, ctx, plan, views) && CheckHolds(4, ctx, plan, views) && CheckHolds(5, ctx, plan, views)
          && CheckHolds(6, ctx, plan, views) && CheckHolds(7, ctx, plan, views) && CheckHolds(8, ctx, plan, views);
    }
  }

  /** Whether the budgets hold on the finished context, per requirement and globally. */
  method BudgetVerdict(ctx: Context, plan: Plan, views: seq<View>) returns (ok: bool)
    requires |views| == |plan.requirements|
    ensures ok <==> BudgetsRespected(ctx, plan, views)
  {
    hide BudgetsKept, BudgetBreaks;
    var breaches := BudgetBreaches(ctx, plan, views);
    ok := breaches == [] && |ctx.selected| <= plan.budget.maxItems
          && SumCost(ItemsOf(ctx.selected)) <= plan.budget.maxBytes;
  }

  method Verdicts(ctx: Context, plan: Plan, views: seq<View>) returns (verdicts: seq<bool>)
    requires |views| == |plan.requirements|
    ensures |verdicts| == |CHECKS|
    ensures forall k | 0 <= k < |CHECKS| :: verdicts[k] <==> CheckHolds(k, ctx, plan, views)
  {
    hide RequirementsDisposed, ItemsBound, ConflictsVisible, MemoryContained, BudgetsRespected, CoverageProven,
      UnknownsBound, Provenanced, CapabilitiesConsistent, CoverageBreaks;
    var coverage := CoverageBreaches(ctx, plan, views);
    var budgets := BudgetVerdict(ctx, plan, views);
    verdicts := [
      RequirementsDisposed(ctx, plan), Provenanced(ctx), ItemsBound(ctx, plan), ConflictsVisible(ctx, plan, views),
      MemoryContained(ctx, plan), CapabilitiesConsistent(ctx), budgets, coverage == [], UnknownsBound(ctx, plan)];
  }

  /** Check `k` is the first of the ladder that fails. */
  ghost predicate FailsAt(ctx: Context, plan: Plan, views: seq<View>, k: nat)
  {
    && |views| == |plan.requirements| && k < |CHECKS|
    && !CheckHolds(k, ctx, plan, views) && forall j | 0 <= j < k :: CheckHolds(j, ctx, plan, views)
  }
}
