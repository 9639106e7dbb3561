/**
 A plan of one requirement under every modelled check. The contexts that show
 where a prefix is not forced are closed here into contexts closure accepts
 whole, so the exact conditions for the budget and coverage checks are those of
 closure itself.
 */
module SolePlan {
  import opened Base
  import opened ContextModel
  import opened Reachability
  import opened Resolution
  import opened ResolutionLaws
  import opened Selection
  import opened SelectionLaws
  import opened Closure
  import opened ClosureAgreement
  import opened ClosureSoundness
  import opened ClosureLimits
  import opened ClosureVerdict
  import opened PrefixLimits

  /** Candidates of the only requirement, resolved, none of them unverified repository state. */
  ghost predicate Sole(plan: Plan, cands: seq<Item>, v: View)
  {
    && plan.Valid() && |plan.requirements| == 1 && WellIdentified(Elems(cands)) && (forall i | i in cands :: i.Valid())
    && Resolves(Eligible(cands, plan.requirements[0]), v)
    && forall i | i in ViewItems(v.groups) :: !UnverifiedState(i)
  }

  lemma OfferedMatches(cands: seq<Item>, r: Requirement, v: View, i: Item)
    requires WellIdentified(Elems(cands)) && Resolves(Eligible(cands, r), v) && i in ViewItems(v.groups)
    ensures i in cands && Matches(r, i) && i.Kind() == r.kind
  {
    hide Resolves, WellIdentified;
    EligibleIdentified(cands, r);
    ViewItemIsRep(Eligible(cands, r), v, i);
  }

  lemma OfferedInGroup(items: seq<Item>, v: View, i: Item)
    requires Resolves(items, v)
    requires exists e :: e in v.groups && e.key == KeyOf(i) && !e.group.conflict && i in e.group.items
    ensures !GroupFor(items, KeyOf(i)).conflict && i in GroupFor(items, KeyOf(i)).items
  {
    hide GroupFor;
  }

  lemma OfferedAlone(cands: seq<Item>, r: Requirement, v: View, i: Item)
    requires WellIdentified(Elems(cands)) && Resolves(Eligible(cands, r), v)
    requires i in ViewItems(v.groups) && i.claim.CapabilityClaim?
    ensures GroupFor(Eligible(cands, r), KeyOf(i)).items == [i]
  {
    hide WellIdentified, GroupFor, Resolves, ViewItems, GroupMembers, Reps, Eligible;
    EligibleIdentified(cands, r);
    ViewItemIsRep(Eligible(cands, r), v, i);
    OfferedInGroup(Eligible(cands, r), v, i);
    SettlesAlone(Eligible(cands, r), KeyOf(i), i);
  }

  /** No view offers two claims about one capability. */
  lemma OneClaimOfCapability(cands: seq<Item>, r: Requirement, v: View, x: Item, y: Item)
    requires WellIdentified(Elems(cands)) && Resolves(Eligible(cands, r), v)
    requires x in ViewItems(v.groups) && y in ViewItems(v.groups)
    requires x.claim.CapabilityClaim? && y.claim.CapabilityClaim? && x.key == y.key
    ensures x == y
  {
    hide WellIdentified, GroupFor, Resolves, ViewItems, Eligible;
    OfferedAlone(cands, r, v, x);
    OfferedAlone(cands, r, v, y);
    assert KeyOf(x) == KeyOf(y);
    assert [x][0] == [y][0];
  }

  lemma BestUnknownsBound(selected: seq<Selected>, plan: Plan, n: nat, v: View, u: Unknown)
    requires n < |plan.requirements| && u in BestUnknowns(selected, plan, n, v)
    ensures u.requirement == Some(plan.requirements[n].id)
  {
    hide FirstHasNoRoom, WitnessFor, ConflictKeys;
  }

  lemma ConflictNoted(selected: seq<Selected>, plan: Plan, n: nat, v: View, e: Entry)
    requires n < |plan.requirements| && e in v.groups
    ensures ConflictShown(Context(selected, BestUnknowns(selected, plan, n, v)), plan.requirements[n].id, e)
  {
    hide FirstHasNoRoom, WitnessFor;
    if e.group.conflict {
      var r, keys := plan.requirements[n], SortedStrings(ConflictKeys(v.groups));
      SortedStringsSorted(ConflictKeys(v.groups));
      assert e.key.key in Elems(keys);
      var i :| 0 <= i < |keys| && keys[i] == e.key.key;
      assert ConflictNotes(r.id, keys)[i] in BestUnknowns(selected, plan, n, v);
    }
  }

  lemma BoundItem(plan: Plan, t: set<Item>, xs: seq<Item>, s: Selected)
    requires |plan.requirements| == 1 && Elems(xs) == t && s in BindAll(plan, 0, {}, t, xs)
    ensures s.item in t && s.because == {plan.requirements[0].id}
  {
    var k :| 0 <= k < |xs| && BindAll(plan, 0, {}, t, xs)[k] == s;
    assert xs[k] in Elems(xs);
  }

  /** The witness of the only requirement passes the checks on its items. */
  lemma WitnessItems(plan: Plan, cands: seq<Item>, v: View, t: set<Item>, xs: seq<Item>, us: seq<Unknown>)
    requires Sole(plan, cands, v) && t <= Elems(ViewItems(v.groups)) && Elems(xs) == t
    ensures var ctx := Context(BindAll(plan, 0, {}, t, xs), us);
      ItemsBound(ctx, plan) && Provenanced(ctx) && MemoryContained(ctx, plan) && CapabilitiesConsistent(ctx)
  {
    hide Resolves, WellIdentified, BindAll, Matches;
    var r, ctx := plan.requirements[0], Context(BindAll(plan, 0, {}, t, xs), us);
    assert r in plan.requirements;
    forall s | s in ctx.selected
      ensures s.item in ViewItems(v.groups) && s.item in cands && s.item.Valid() && s.item.Kind() == r.kind
      ensures s.because == {r.id} && s.because <= PlannedIds(plan.requirements)
      ensures s.item.claim.MemoryClaim? ==>
        s.because <= (set q | q in plan.requirements && q.kind == MemoryContext :: q.id)
    {
      BoundItem(plan, t, xs, s);
      OfferedMatches(cands, r, v, s.item);
    }
    forall k | k in CapabilitiesIn(ctx.selected, AVAILABLE) ensures k !in CapabilitiesIn(ctx.selected, UNAVAILABLE) {
      var s :| s in ctx.selected && s.item.claim.CapabilityClaim? && s.item.claim.state == AVAILABLE && s.item.key == k;
      forall u | u in ctx.selected && u.item.claim.CapabilityClaim? && u.item.key == k ensures u.item == s.item {
        OneClaimOfCapability(cands, r, v, s.item, u.item);
      }
    }
  }

  lemma WitnessUnknowns(plan: Plan, v: View, selected: seq<Selected>)
    requires plan.Valid() && |plan.requirements| == 1
    ensures var ctx := Context(selected, BestUnknowns(selected, plan, 0, v));
      RequirementsDisposed(ctx, plan) && ConflictsVisible(ctx, plan, [v]) && UnknownsBound(ctx, plan)
  {
    hide BestUnknowns;
    var r, ctx := plan.requirements[0], Context(selected, BestUnknowns(selected, plan, 0, v));
    BestUnknownsRecord(selected, plan, 0, v);
    assert MissingNote(r) in ctx.unknowns && Disposing(MissingNote(r).reason);
    forall u | u in ctx.unknowns ensures u.requirement == Some(r.id) { BestUnknownsBound(selected, plan, 0, v, u); }
    forall e | e in v.groups ensures ConflictShown(ctx, r.id, e) { ConflictNoted(selected, plan, 0, v, e); }
    assert r in plan.requirements && r.Valid();
    forall q | q in plan.requirements ensures q == r { }
  }

  lemma SoleClosed(ctx: Context, plan: Plan, v: View)
    requires |plan.requirements| == 1 && PassesChecks(ctx, plan, 0, v)
    requires RequirementsDisposed(ctx, plan) && ItemsBound(ctx, plan) && ConflictsVisible(ctx, plan, [v])
    requires MemoryContained(ctx, plan) && UnknownsBound(ctx, plan) && Provenanced(ctx) && CapabilitiesConsistent(ctx)
    ensures Closed(ctx, plan, [v])
  {
    hide RequirementsDisposed, ItemsBound, Provenanced, MemoryContained, CapabilitiesConsistent, ConflictsVisible,
      UnknownsBound, CoverageClean, BudgetAt, ItemsOf, SumCost;
    assert forall m | 0 <= m < |[v]| :: m == 0 && [v][m] == v;
  }

  /** Every modelled check of closure accepts the witness. */
  lemma WitnessCloses(plan: Plan, cands: seq<Item>, v: View, t: set<Item>) returns (ctx: Context)
    requires Sole(plan, cands, v) && Passable(plan, 0, v, {}, t)
    ensures Genuine(ctx, plan.requirements[0], v) && Closed(ctx, plan, [v])
    ensures TakenBy(ctx.selected, plan.requirements[0].id) == t
  {
    ResolvedIsSetting(plan, cands, 0, v);
    SoleShape(plan, cands, v);
    assert t <= Elems(ViewItems(v.groups));
    hide Sole, Setting, Passable, BindAll, BestUnknowns, RequirementsDisposed, ItemsBound, Provenanced, MemoryContained,
      CapabilitiesConsistent, ConflictsVisible, UnknownsBound, PassesChecks, TakenBy, BoundToAny, Genuine, Closed,
      EarlierIds, ViewItems, Elems;
    ctx := PassablePasses(plan, 0, v, {}, t);
    var xs: seq<Item> :| Elems(xs) == {} + t && ctx.selected == BindAll(plan, 0, {}, t, xs);
    assert {} + t == t;
    WitnessItems(plan, cands, v, t, xs, ctx.unknowns);
    WitnessUnknowns(plan, v, ctx.selected);
    assert ctx == Context(BindAll(plan, 0, {}, t, xs), ctx.unknowns);
    assert ctx == Context(ctx.selected, BestUnknowns(ctx.selected, plan, 0, v));
    SoleClosed(ctx, plan, v);
  }

  lemma SoleShape(plan: Plan, cands: seq<Item>, v: View)
    requires Sole(plan, cands, v)
    ensures plan.Valid() && |plan.requirements| == 1
  {
  }

  /**
   For a plan of one requirement this is closure itself: every context all modelled
   checks accept takes a prefix exactly when the budget and coverage checks force one.
   */
  lemma ClosureForcesPrefixIff(plan: Plan, cands: seq<Item>, v: View)
    requires Sole(plan, cands, v)
    ensures (forall ctx | Genuine(ctx, plan.requirements[0], v) && Closed(ctx, plan, [v]) ::
               TakesPrefix(ctx, plan.requirements[0], v))
      <==> ForcesPrefix(plan, 0, v, {})
  {
    ResolvedIsSetting(plan, cands, 0, v);
    var r := plan.requirements[0];
    hide Sole, Setting, Passable, TakesPrefix, IsPrefix, Genuine, Closed, PassesChecks, TakenBy, ForcesPrefix,
      FrontierOf;
    ForcesPrefixIff(plan, 0, v, {});
    if ForcesPrefix(plan, 0, v, {}) {
      forall ctx | Genuine(ctx, r, v) && Closed(ctx, plan, [v]) ensures TakesPrefix(ctx, r, v) {
        ClosedPasses(ctx, plan, v);
        ForcedTakes(ctx, plan, v);
      }
    } else {
      var t :| Passable(plan, 0, v, {}, t) && !IsPrefix(FrontierOf(r, v), t);
      var ctx := WitnessCloses(plan, cands, v, t);
      TakesPrefixIff(ctx, plan, 0, v, {});
    }
  }

  lemma ForcedTakes(ctx: Context, plan: Plan, v: View)
    requires |plan.requirements| == 1 && ForcesPrefix(plan, 0, v, {})
    requires Carries(ctx, plan, 0, v, {}) && PassesChecks(ctx, plan, 0, v)
    ensures TakesPrefix(ctx, plan.requirements[0], v)
  {
  }

  lemma ClosedPasses(ctx: Context, plan: Plan, v: View)
    requires |plan.requirements| == 1 && Closed(ctx, plan, [v]) && Genuine(ctx, plan.requirements[0], v)
    ensures Carries(ctx, plan, 0, v, {}) && PassesChecks(ctx, plan, 0, v)
  {
    hide CoverageClean, BudgetAt;
    assert [v][0] == v && CoverageClean(ctx, plan, 0, [v][0]);
    assert EarlierIds(plan, 0) == {};
    NothingEarlier(ctx.selected);
  }

  lemma {:induction false} NothingEarlier(selected: seq<Selected>)
    ensures BoundToAny(selected, {}) == []
  {
    if selected != [] { NothingEarlier(selected[..|selected| - 1]); }
  }
}
