/**
 What each check of closure asks, told from the finished context, the plan and the
 groups each requirement's candidates settle into.
 */
module ClosureLaws {
  import opened Base
  import opened ContextModel
  import opened Reachability
  import opened Resolution
  import opened ResolutionLaws
  import opened Selection
  import opened SelectionLaws
  import opened Closure
  import opened ClosureAgreement

  // ---- reading the context -----------------------------------------------

  /** The selected items that carry the requirement's id as a reason. */
  ghost function Got(ctx: Context, rid: string): set<Item>
  {
    set s | s in ctx.selected && rid in s.because :: s.item
  }

  /** An unknown that reports the requirement missing or cut short. */
  ghost predicate TellsShortfall(ctx: Context, rid: string, u: Unknown)
  {
    && u in ctx.unknowns && u.requirement == Some(rid)
    && (u.reason == MissingRequiredContext || u.reason == BudgetInsufficient)
  }

  /** An unknown that reports a conflict under the key to the requirement. */
  ghost predicate TellsConflict(ctx: Context, rid: string, key: string, u: Unknown)
  {
    u in ctx.unknowns && u.requirement == Some(rid) && u.reason == ConflictingGovernedClaims && u.key == Some(key)
  }

  /** A shortfall reported to the requirement lists the key as missing. */
  ghost predicate TellsMissing(ctx: Context, rid: string, key: string)
  {
    exists u :: TellsShortfall(ctx, rid, u) && u.details.ShortfallDetails? && u.details.missingKeys.Some?
      && key in u.details.missingKeys.value
  }

  /** A conflict of the requirement's view that the context reports. */
  ghost predicate Disputed(ctx: Context, rid: string, v: View, key: string)
  {
    InConflict(v, key) && exists u :: TellsConflict(ctx, rid, key, u)
  }

  ghost predicate IsPlanned(plan: Plan, rid: string) { exists r :: r in plan.requirements && r.id == rid }

  ghost predicate IsForMemory(plan: Plan, rid: string)
  {
    exists r :: r in plan.requirements && r.id == rid && r.kind == MemoryContext
  }

  predicate NotEmpty(o: Option<string>) { o.Some? && o.value != "" }

  // ---- what each check asks ----------------------------------------------

  /** 1. A required requirement selected something or has an unknown that disposes of it. */
  ghost predicate AllAnswered(ctx: Context, plan: Plan)
  {
    forall r | r in plan.requirements && r.required ::
      || (exists s :: s in ctx.selected && r.id in s.because)
      || (exists u :: TellsShortfall(ctx, r.id, u))
      || (exists u :: u in ctx.unknowns && u.requirement == Some(r.id) && u.reason == ConflictingGovernedClaims)
  }

  /** 2. Governed claims name a coordinate or digest, and repository state is not unverified. */
  ghost predicate AllSourced(ctx: Context)
  {
    forall s | s in ctx.selected ::
      && (s.item.level == GovernedAuthoritative || s.item.level == GovernedVerified ==>
          NotEmpty(s.item.source.coordinate) || NotEmpty(s.item.source.digest))
      && (s.item.claim.RepositoryClaim? ==> s.item.level != Unverified)
  }

  /** 4. Every selected item has a reason, and every reason is planned. */
  ghost predicate AllBound(ctx: Context, plan: Plan)
  {
    forall s | s in ctx.selected :: s.because != {} && forall rid | rid in s.because :: IsPlanned(plan, rid)
  }

  /** 6. Every conflict in a requirement's view is told to that requirement under its key. */
  ghost predicate ConflictsTold(ctx: Context, plan: Plan, views: seq<View>)
    requires |views| == |plan.requirements|
  {
    forall n: nat, key | n < |views| && InConflict(views[n], key) ::
      exists u :: TellsConflict(ctx, plan.requirements[n].id, key, u)
  }

  /** 7. Memory is never governed, and selected only for memory requirements. */
  ghost predicate MemoryEnriches(ctx: Context, plan: Plan)
  {
    forall s | s in ctx.selected && s.item.claim.MemoryClaim? ::
      && s.item.level != GovernedAuthoritative && s.item.level != GovernedVerified
      && forall rid | rid in s.because :: IsForMemory(plan, rid)
  }

  /** 8. No capability is selected as available and as unavailable. */
  ghost predicate NoContradiction(ctx: Context)
  {
    !exists s, t :: s in ctx.selected && t in ctx.selected && s.item.key == t.item.key
      && s.item.claim.CapabilityClaim? && s.item.claim.state == "available"
      && t.item.claim.CapabilityClaim? && t.item.claim.state == "unavailable"
  }

  /** The conflict keys reported to the requirement that nothing it got has. */
  ghost function DisputedOnly(ctx: Context, rid: string, v: View): set<string>
  {
    set u | u in ctx.unknowns && u.key.Some? && Disputed(ctx, rid, v, u.key.value)
      && (forall i | i in Got(ctx, rid) :: i.key != u.key.value) :: u.key.value
  }

  /** 9, for one requirement: its ceilings, and, where it is required, its floor and keys or their shortfall. */
  ghost predicate WithinLimits(ctx: Context, r: Requirement, v: View)
  {
    var got := BoundTo(ctx.selected, r.id);
    && (r.maxItems.Some? ==> |got| <= r.maxItems.value) && (r.maxBytes.Some? ==> SumCost(got) <= r.maxBytes.value)
    && (r.required ==>
          && (|got| + |DisputedOnly(ctx, r.id, v)| >= r.minItems || exists u :: TellsShortfall(ctx, r.id, u))
          && (r.coverage == SemanticKeys ==> forall key | key in r.requiredKeys ::
                || (exists i :: i in Got(ctx, r.id) && i.key == key)
                || Disputed(ctx, r.id, v, key) || TellsMissing(ctx, r.id, key)))
  }

  /** 9. Every requirement within its limits, and the whole within the global ones. */
  ghost predicate AllWithinLimits(ctx: Context, plan: Plan, views: seq<View>)
    requires |views| == |plan.requirements|
  {
    && (forall n: nat | n < |views| :: WithinLimits(ctx, plan.requirements[n], views[n]))
    && |ctx.selected| <= plan.budget.maxItems && SumCost(ItemsOf(ctx.selected)) <= plan.budget.maxBytes
  }

  ghost predicate GotId(ctx: Context, rid: string, id: string) { exists i :: i in Got(ctx, rid) && i.id == id }

  ghost predicate OffersId(v: View, id: string) { exists o :: OnOffer(v, o) && o.id == id }

  /** 10, for one requirement: only what is on offer, no more than the mode asks, and all it asks or a proven stop. */
  ghost predicate Covers(ctx: Context, plan: Plan, n: nat, v: View)
    requires n < |plan.requirements|
  {
    var r := plan.requirements[n];
    var taken, offered := set i | i in Got(ctx, r.id) :: i.id, OfferedIds(v);
    && (forall i | i in Got(ctx, r.id) :: OffersId(v, i.id))
    && match r.coverage
       case AllEligible => (forall o | OnOffer(v, o) :: GotId(ctx, r.id, o.id)) || StopProven(ctx, plan, n, v)
       case Minimum =>
         && |taken| <= r.minItems && (|taken| < r.minItems && |taken| < |offered| ==> StopProven(ctx, plan, n, v))
       case SemanticKeys =>
         && (forall i | i in Got(ctx, r.id) :: i.key in r.requiredKeys)
         && ((forall o | OnOffer(v, o) && o.key in r.requiredKeys ::
                (exists i :: i in Got(ctx, r.id) && i.key == o.key) || Disputed(ctx, r.id, v, o.key))
             || StopProven(ctx, plan, n, v))
  }

  ghost predicate AllCover(ctx: Context, plan: Plan, views: seq<View>)
    requires |views| == |plan.requirements|
  {
    forall n {:trigger Covers(ctx, plan, n, views[n])} | 0 <= n < |views| :: Covers(ctx, plan, n, views[n])
  }

  /** 11. A bound unknown names a planned requirement, and never one both required and optional. */
  ghost predicate UnknownsPlanned(ctx: Context, plan: Plan)
  {
    forall u, rid | u in ctx.unknowns && u.requirement == Some(rid) ::
      && (rid != "" ==> IsPlanned(plan, rid))
      && forall r | r in plan.requirements && r.id == rid :: r.required ==> r.policy != OptionalPolicy
  }

  // ---- each check asks just that -----------------------------------------

  lemma AnsweredIff(ctx: Context, plan: Plan)
    ensures RequirementsDisposed(ctx, plan) <==> AllAnswered(ctx, plan)
  {
    forall r | r in plan.requirements && r.required
      ensures (exists u | u in ctx.unknowns :: u.requirement == Some(r.id) && Disposing(u.reason)) <==>
        (exists u :: TellsShortfall(ctx, r.id, u))
        || (exists u :: u in ctx.unknowns && u.requirement == Some(r.id) && u.reason == ConflictingGovernedClaims) {
      if u :| u in ctx.unknowns && u.requirement == Some(r.id) && Disposing(u.reason) {
        assert u.reason != ConflictingGovernedClaims ==> TellsShortfall(ctx, r.id, u);
      }
    }
  }

  lemma SourcedIff(ctx: Context)
    ensures Provenanced(ctx) <==> AllSourced(ctx)
  {
  }

  lemma BoundIff(ctx: Context, plan: Plan)
    ensures ItemsBound(ctx, plan) <==> AllBound(ctx, plan)
  {
    forall rid ensures rid in PlannedIds(plan.requirements) <==> IsPlanned(plan, rid) { }
  }

  lemma ShownIff(ctx: Context, rid: string, e: Entry)
    ensures ConflictShown(ctx, rid, e) <==>
      (e.group.conflict ==> exists u :: TellsConflict(ctx, rid, e.key.key, u))
  {
    forall u ensures TellsConflict(ctx, rid, e.key.key, u) <==> (u in ctx.unknowns
      && u.reason.ConflictingGovernedClaims? && u.requirement == Some(rid) && u.key == Some(e.key.key)) { }
  }

  lemma ToldIff(ctx: Context, plan: Plan, views: seq<View>)
    requires |views| == |plan.requirements|
    ensures ConflictsVisible(ctx, plan, views) <==> ConflictsTold(ctx, plan, views)
  {
    forall rid, e ensures ConflictShown(ctx, rid, e) <==>
      (e.group.conflict ==> exists u :: TellsConflict(ctx, rid, e.key.key, u)) {
      ShownIff(ctx, rid, e);
    }
    hide ConflictShown, TellsConflict;
    if ConflictsVisible(ctx, plan, views) {
      forall n: nat, key | n < |views| && InConflict(views[n], key)
        ensures exists u :: TellsConflict(ctx, plan.requirements[n].id, key, u) {
        var e :| e in views[n].groups && e.group.conflict && e.key.key == key;
        assert ConflictShown(ctx, plan.requirements[n].id, e);
      }
    }
    if ConflictsTold(ctx, plan, views) {
      forall n, e | 0 <= n < |views| && e in views[n].groups
        ensures ConflictShown(ctx, plan.requirements[n].id, e) {
        assert e.group.conflict ==> InConflict(views[n], e.key.key);
      }
    }
  }

  lemma MemoryIff(ctx: Context, plan: Plan)
    ensures MemoryContained(ctx, plan) <==> MemoryEnriches(ctx, plan)
  {
    forall rid
      ensures rid in (set r | r in plan.requirements && r.kind == MemoryContext :: r.id) <==> IsForMemory(plan, rid) { }
  }

  lemma ContradictionIff(ctx: Context)
    ensures CapabilitiesConsistent(ctx) <==> NoContradiction(ctx)
  {
    if k :| k in CapabilitiesIn(ctx.selected, AVAILABLE) && k in CapabilitiesIn(ctx.selected, UNAVAILABLE) {
      var s :| s in ctx.selected && s.item.claim.CapabilityClaim? && s.item.claim.state == AVAILABLE && s.item.key == k;
      var t :| t in ctx.selected && t.item.claim.CapabilityClaim? && t.item.claim.state == UNAVAILABLE
        && t.item.key == k;
    }
    if !NoContradiction(ctx) {
      var s, t :| s in ctx.selected && t in ctx.selected && s.item.key == t.item.key
        && s.item.claim.CapabilityClaim? && s.item.claim.state == AVAILABLE
        && t.item.claim.CapabilityClaim? && t.item.claim.state == UNAVAILABLE;
      assert s.item.key in CapabilitiesIn(ctx.selected, AVAILABLE) * CapabilitiesIn(ctx.selected, UNAVAILABLE);
    }
  }

  lemma UnknownsIff(ctx: Context, plan: Plan)
    ensures UnknownsBound(ctx, plan) <==> UnknownsPlanned(ctx, plan)
  {
    forall rid ensures rid in PlannedIds(plan.requirements) <==> IsPlanned(plan, rid) { }
    forall u, rid | u in ctx.unknowns && u.requirement == Some(rid) ensures u.requirement.value == rid { }
  }

  // ---- the budget and coverage checks ------------------------------------

  lemma GotIsBound(ctx: Context, rid: string)
    ensures forall i :: i in Got(ctx, rid) <==> i in BoundTo(ctx.selected, rid)
    ensures forall key :: key in KeysOf(BoundTo(ctx.selected, rid)) <==> exists i :: i in Got(ctx, rid) && i.key == key
    ensures TakenIds(ctx, rid) == set i | i in Got(ctx, rid) :: i.id
  {
    forall i ensures i in Got(ctx, rid) <==> i in BoundTo(ctx.selected, rid) { InBoundTo(ctx.selected, rid, i); }
  }

  lemma DisputedIff(ctx: Context, rid: string, v: View, key: string)
    ensures key in DisposedKeys(ctx.unknowns, rid, v) <==> Disputed(ctx, rid, v, key)
  {
    assert key in ConflictKeys(v.groups) <==> InConflict(v, key);
    if u :| TellsConflict(ctx, rid, key, u) { assert u.reason.ConflictingGovernedClaims?; }
    if key in DisposedKeys(ctx.unknowns, rid, v) {
      var u :| u in ctx.unknowns && u.reason.ConflictingGovernedClaims? && u.requirement == Some(rid)
        && u.key.Some? && u.key.value in ConflictKeys(v.groups) && u.key.value == key;
      assert TellsConflict(ctx, rid, key, u);
    }
  }

  lemma ShortToldIff(ctx: Context, rid: string)
    ensures ShortfallRecorded(ctx.unknowns, rid) <==> exists u :: TellsShortfall(ctx, rid, u)
    ensures forall key :: key in MissingRecorded(ctx.unknowns, rid) <==> TellsMissing(ctx, rid, key)
  {
    forall u ensures TellsShortfall(ctx, rid, u) <==>
      u in ctx.unknowns && Shortfall(u.reason) && u.requirement == Some(rid) { }
    forall key ensures key in MissingRecorded(ctx.unknowns, rid) <==> TellsMissing(ctx, rid, key) {
      forall u ensures key in MissingListed(u) <==> (u.details.ShortfallDetails? && u.details.missingKeys.Some?
        && key in u.details.missingKeys.value) { }
    }
  }

  lemma DisputedOnlyIs(ctx: Context, rid: string, v: View)
    ensures DisputedOnly(ctx, rid, v) == DisposedKeys(ctx.unknowns, rid, v) - KeysOf(BoundTo(ctx.selected, rid))
  {
    GotIsBound(ctx, rid);
    hide Got, Disputed, KeysOf;
    forall key ensures key in DisposedKeys(ctx.unknowns, rid, v) <==> Disputed(ctx, rid, v, key) {
      DisputedIff(ctx, rid, v, key);
    }
    forall key | key in DisposedKeys(ctx.unknowns, rid, v)
      ensures exists u :: u in ctx.unknowns && u.key == Some(key) { }
  }

  /** Check 9 of one requirement. */
  lemma WithinLimitsIff(ctx: Context, plan: Plan, n: nat, v: View)
    requires n < |plan.requirements|
    ensures BudgetAt(ctx, plan, n, v).None? <==> WithinLimits(ctx, plan.requirements[n], v)
  {
    var r := plan.requirements[n];
    GotIsBound(ctx, r.id);
    ShortToldIff(ctx, r.id);
    DisputedOnlyIs(ctx, r.id, v);
    forall key ensures key in DisposedKeys(ctx.unknowns, r.id, v) <==> Disputed(ctx, r.id, v, key) {
      DisputedIff(ctx, r.id, v, key);
    }
    hide Got, Disputed, KeysOf, TellsShortfall, TellsMissing, DisposedKeys, MissingRecorded, ShortfallRecorded,
      DisputedOnly, BoundTo;
    var keys, disposed := KeysOf(BoundTo(ctx.selected, r.id)), DisposedKeys(ctx.unknowns, r.id, v);
    var missing := MissingRecorded(ctx.unknowns, r.id);
    assert r.requiredKeys - keys - disposed - missing == {} <==>
      forall key | key in r.requiredKeys :: key in keys || key in disposed || key in missing by {
      forall key | key in r.requiredKeys && key !in keys && key !in disposed && key !in missing
        ensures key in r.requiredKeys - keys - disposed - missing { }
    }
  }

  /** What the coverage rule allows of the ids and keys taken. */
  ghost predicate Allowed(r: Requirement, offered: set<string>, wanted: set<string>, taken: set<string>,
                          keys: set<string>, disposed: set<string>, truncated: bool)
  {
    && taken <= offered
    && match r.coverage
       case AllEligible => offered <= taken || truncated
       case Minimum => |taken| <= r.minItems && (|taken| < r.minItems && |taken| < |offered| ==> truncated)
       case SemanticKeys => keys <= r.requiredKeys && (wanted <= keys + disposed || truncated)
  }

  lemma BreachIff(r: Requirement, eligible: map<string, string>, taken: set<string>, keys: set<string>,
                  disposed: set<string>, truncated: bool)
    ensures CoverageBreach(r, eligible, taken, keys, disposed, truncated).None? <==>
      Allowed(r, eligible.Keys, eligible.Values * r.requiredKeys, taken, keys, disposed, truncated)
  {
    Subtract(taken, eligible.Keys);
    if taken <= eligible.Keys { SubsetCard(taken, eligible.Keys); }
    assert |eligible.Keys| == |eligible|;
    match r.coverage {
      case AllEligible => Subtract(eligible.Keys, taken);
      case Minimum =>
      case SemanticKeys =>
        Subtract(keys, r.requiredKeys);
        SubtractTwice(eligible.Values * r.requiredKeys, keys, disposed);
    }
  }

  lemma SubtractTwice(a: set<string>, b: set<string>, c: set<string>)
    ensures a - b - c == {} <==> a <= b + c
  {
    Subtract(a, b + c);
    assert a - b - c == a - (b + c);
  }

  ghost function OfferedIds(v: View): set<string> { set i | i in ViewItems(v.groups) :: i.id }

  lemma OfferIs(v: View)
    ensures forall id :: id in OfferedIds(v) <==> OffersId(v, id)
    ensures forall key :: key in KeysOf(ViewItems(v.groups)) <==> exists o :: OnOffer(v, o) && o.key == key
  {
    forall i ensures i in ViewItems(v.groups) <==> OnOffer(v, i) { InViewItems(v.groups, i); }
    hide OnOffer;
  }

  /** Check 10 of one requirement, over a view as closure resolves it. */
  lemma CoversIff(ctx: Context, plan: Plan, cands: seq<Item>, n: nat, v: View)
    requires n < |plan.requirements| && WellIdentified(Elems(cands))
    requires Resolves(Eligible(cands, plan.requirements[n]), v)
    ensures CoverageClean(ctx, plan, n, v) <==> Covers(ctx, plan, n, v)
  {
    hide Resolves, WellIdentified, StopProven, CoverageBreach, Allowed, KeyMap, Covers, TakenIds, KeysOf, DisposedKeys;
    var r := plan.requirements[n];
    EligibleIdentified(cands, r);
    ViewItemsDistinct(Eligible(cands, r), v);
    KeyMapFacts(ViewItems(v.groups));
    var truncated := StopProven(ctx, plan, n, v);
    BreachIff(r, KeyMap(ViewItems(v.groups)), TakenIds(ctx, r.id), KeysOf(BoundTo(ctx.selected, r.id)),
      DisposedKeys(ctx.unknowns, r.id, v), truncated);
    assert KeyMap(ViewItems(v.groups)).Keys == OfferedIds(v);
    AllowedIff(ctx, plan, n, v);
  }

  lemma AllowedIff(ctx: Context, plan: Plan, n: nat, v: View)
    requires n < |plan.requirements|
    ensures var r := plan.requirements[n];
      Allowed(r, OfferedIds(v), KeysOf(ViewItems(v.groups)) * r.requiredKeys, TakenIds(ctx, r.id),
        KeysOf(BoundTo(ctx.selected, r.id)), DisposedKeys(ctx.unknowns, r.id, v), StopProven(ctx, plan, n, v))
      <==> Covers(ctx, plan, n, v)
  {
    var r := plan.requirements[n];
    GotIsBound(ctx, r.id);
    hide TakenIds, StopProven, Got, Disputed, KeysOf, DisposedKeys, BoundTo, OnOffer, OffersId, GotId, OfferedIds;
    WithinIff(ctx, r, v);
    WantedIff(ctx, r, v);
  }

  lemma WithinIff(ctx: Context, r: Requirement, v: View)
    ensures TakenIds(ctx, r.id) <= OfferedIds(v) <==> forall i | i in Got(ctx, r.id) :: OffersId(v, i.id)
    ensures OfferedIds(v) <= TakenIds(ctx, r.id) <==> forall o | OnOffer(v, o) :: GotId(ctx, r.id, o.id)
    ensures KeysOf(BoundTo(ctx.selected, r.id)) <= r.requiredKeys <==>
      forall i | i in Got(ctx, r.id) :: i.key in r.requiredKeys
  {
    GotIsBound(ctx, r.id);
    OfferIs(v);
    var taken := TakenIds(ctx, r.id);
    forall id ensures id in taken <==> GotId(ctx, r.id, id) { }
    hide Got, KeysOf, BoundTo, OnOffer, OfferedIds, TakenIds;
    if forall i | i in Got(ctx, r.id) :: OffersId(v, i.id) {
      forall id | id in taken ensures id in OfferedIds(v) { assert GotId(ctx, r.id, id); }
    }
    if forall o | OnOffer(v, o) :: GotId(ctx, r.id, o.id) {
      forall id | id in OfferedIds(v) ensures id in taken { assert OffersId(v, id); }
    }
    forall i | i in Got(ctx, r.id) ensures GotId(ctx, r.id, i.id) { }
    forall o | OnOffer(v, o) ensures OffersId(v, o.id) { }
  }

  lemma WantedIff(ctx: Context, r: Requirement, v: View)
    ensures (KeysOf(ViewItems(v.groups)) * r.requiredKeys
             <= KeysOf(BoundTo(ctx.selected, r.id)) + DisposedKeys(ctx.unknowns, r.id, v)) <==>
      (forall o | OnOffer(v, o) && o.key in r.requiredKeys ::
         (exists i :: i in Got(ctx, r.id) && i.key == o.key) || Disputed(ctx, r.id, v, o.key))
  {
    GotIsBound(ctx, r.id);
    OfferIs(v);
    forall key ensures key in DisposedKeys(ctx.unknowns, r.id, v) <==> Disputed(ctx, r.id, v, key) {
      DisputedIff(ctx, r.id, v, key);
    }
    hide Got, Disputed, KeysOf, DisposedKeys, BoundTo, OnOffer;
    var offered, got := KeysOf(ViewItems(v.groups)), KeysOf(BoundTo(ctx.selected, r.id));
    var disposed := DisposedKeys(ctx.unknowns, r.id, v);
    if offered * r.requiredKeys <= got + disposed {
      forall o | OnOffer(v, o) && o.key in r.requiredKeys ensures o.key in got || o.key in disposed {
        assert o.key in offered * r.requiredKeys;
      }
    }
    if forall o | OnOffer(v, o) && o.key in r.requiredKeys :: o.key in got || o.key in disposed {
      forall key | key in offered * r.requiredKeys ensures key in got + disposed {
        var o :| OnOffer(v, o) && o.key == key;
      }
    }
  }

  // ---- the verdict -------------------------------------------------------

  /** What a context must be for closure to accept it. */
  ghost predicate Accepted(ctx: Context, plan: Plan, views: seq<View>)
    requires |views| == |plan.requirements|
  {
    && AllAnswered(ctx, plan) && AllSourced(ctx) && AllBound(ctx, plan) && ConflictsTold(ctx, plan, views)
    && MemoryEnriches(ctx, plan) && NoContradiction(ctx) && AllWithinLimits(ctx, plan, views)
    && AllCover(ctx, plan, views) && UnknownsPlanned(ctx, plan)
  }

  /** The check that is named when the context is refused: it fails and those before it hold. */
  ghost predicate Refused(check: string, ctx: Context, plan: Plan, views: seq<View>)
    requires |views| == |plan.requirements|
  {
    match check
    case "every_required_requirement_has_legal_disposition" => !AllAnswered(ctx, plan)
    case "every_governed_selected_item_has_valid_provenance" => AllAnswered(ctx, plan) && !AllSourced(ctx)
    case "every_selected_item_has_relevance_binding" =>
      AllAnswered(ctx, plan) && AllSourced(ctx) && !AllBound(ctx, plan)
    case "no_equal_authority_conflict_is_silently_selected" =>
      && AllAnswered(ctx, plan) && AllSourced(ctx) && AllBound(ctx, plan)
      && !ConflictsTold(ctx, plan, views)
    case "no_memory_item_is_used_as_authoritative_resolution" =>
      && AllAnswered(ctx, plan) && AllSourced(ctx) && AllBound(ctx, plan) && ConflictsTold(ctx, plan, views)
      && !MemoryEnriches(ctx, plan)
    case "capability_and_authority_gaps_are_explicit" =>
      && AllAnswered(ctx, plan) && AllSourced(ctx) && AllBound(ctx, plan) && ConflictsTold(ctx, plan, views)
      && MemoryEnriches(ctx, plan) && !NoContradiction(ctx)
    case "per_requirement_and_global_budgets_are_respected" =>
      && AllAnswered(ctx, plan) && AllSourced(ctx) && AllBound(ctx, plan) && ConflictsTold(ctx, plan, views)
      && MemoryEnriches(ctx, plan) && NoContradiction(ctx) && !AllWithinLimits(ctx, plan, views)
    case "every_coverage_mode_is_independently_proven" =>
      && AllAnswered(ctx, plan) && AllSourced(ctx) && AllBound(ctx, plan) && ConflictsTold(ctx, plan, views)
      && MemoryEnriches(ctx, plan) && NoContradiction(ctx) && AllWithinLimits(ctx, plan, views)
      && !AllCover(ctx, plan, views)
    case "unresolved_unknowns_are_stable_and_bound" =>
      && AllAnswered(ctx, plan) && AllSourced(ctx) && AllBound(ctx, plan) && ConflictsTold(ctx, plan, views)
      && MemoryEnriches(ctx, plan) && NoContradiction(ctx) && AllWithinLimits(ctx, plan, views)
      && AllCover(ctx, plan, views) && !UnknownsPlanned(ctx, plan)
    case _ => false
  }

  lemma LimitsIff(ctx: Context, plan: Plan, views: seq<View>)
    requires |views| == |plan.requirements|
    ensures BudgetsRespected(ctx, plan, views) <==> AllWithinLimits(ctx, plan, views)
  {
    hide BudgetAt, WithinLimits;
    forall n: nat | n < |views|
      ensures BudgetAt(ctx, plan, n, views[n]).None? <==> WithinLimits(ctx, plan.requirements[n], views[n]) {
      WithinLimitsIff(ctx, plan, n, views[n]);
    }
  }

  lemma CoverageIff(ctx: Context, plan: Plan, cands: seq<Item>, views: seq<View>)
    requires WellIdentified(Elems(cands)) && Reresolved(plan, cands, views)
    ensures CoverageProven(ctx, plan, views) <==> AllCover(ctx, plan, views)
  {
    hide CoverageClean, Covers, WellIdentified, Resolves;
    forall n: nat | n < |views| ensures CoverageClean(ctx, plan, n, views[n]) <==> Covers(ctx, plan, n, views[n]) {
      CoversIff(ctx, plan, cands, n, views[n]);
    }
  }

  /** The nine checks over the views closure resolves say what is told here, one by one. */
  lemma ChecksMean(ctx: Context, plan: Plan, cands: seq<Item>, views: seq<View>)
    requires WellIdentified(Elems(cands)) && Reresolved(plan, cands, views)
    ensures CheckHolds(0, ctx, plan, views) <==> AllAnswered(ctx, plan)
    ensures CheckHolds(1, ctx, plan, views) <==> AllSourced(ctx)
    ensures CheckHolds(2, ctx, plan, views) <==> AllBound(ctx, plan)
    ensures CheckHolds(3, ctx, plan, views) <==> ConflictsTold(ctx, plan, views)
    ensures CheckHolds(4, ctx, plan, views) <==> MemoryEnriches(ctx, plan)
    ensures CheckHolds(5, ctx, plan, views) <==> NoContradiction(ctx)
    ensures CheckHolds(6, ctx, plan, views) <==> AllWithinLimits(ctx, plan, views)
    ensures CheckHolds(7, ctx, plan, views) <==> AllCover(ctx, plan, views)
    ensures CheckHolds(8, ctx, plan, views) <==> UnknownsPlanned(ctx, plan)
  {
    hide RequirementsDisposed, ItemsBound, ConflictsVisible, MemoryContained, BudgetsRespected, CoverageProven,
      UnknownsBound, Provenanced, CapabilitiesConsistent, AllAnswered, AllSourced, AllBound, ConflictsTold,
      MemoryEnriches, NoContradiction, AllWithinLimits, AllCover, UnknownsPlanned, WellIdentified;
    AnsweredIff(ctx, plan);
    SourcedIff(ctx);
    BoundIff(ctx, plan);
    ToldIff(ctx, plan, views);
    MemoryIff(ctx, plan);
    ContradictionIff(ctx);
    LimitsIff(ctx, plan, views);
    CoverageIff(ctx, plan, cands, views);
    UnknownsIff(ctx, plan);
  }

  lemma AcceptedIff(ctx: Context, plan: Plan, cands: seq<Item>, views: seq<View>)
    requires WellIdentified(Elems(cands)) && Reresolved(plan, cands, views)
    ensures Closed(ctx, plan, views) <==> Accepted(ctx, plan, views)
  {
    hide AllAnswered, AllSourced, AllBound, ConflictsTold, MemoryEnriches, NoContradiction, AllWithinLimits, AllCover,
      UnknownsPlanned, CheckHolds, Closed, WellIdentified;
    ChecksMean(ctx, plan, cands, views);
    ClosedByChecks(ctx, plan, views);
    assert |CHECKS| == 9;
    forall k | 0 <= k < 9 && Accepted(ctx, plan, views) ensures CheckHolds(k, ctx, plan, views) { }
    assert (forall k | 0 <= k < 9 :: CheckHolds(k, ctx, plan, views)) ==>
      && CheckHolds(0, ctx, plan, views) && CheckHolds(1, ctx, plan, views) && CheckHolds(2, ctx, plan, views)
      && CheckHolds(3, ctx, plan, views) && CheckHolds(4, ctx, plan, views) && CheckHolds(5, ctx, plan, views)
      && CheckHolds(6, ctx, plan, views) && CheckHolds(7, ctx, plan, views) && CheckHolds(8, ctx, plan, views);
  }

  lemma RefusedBy(ctx: Context, plan: Plan, cands: seq<Item>, views: seq<View>, k: nat)
    requires WellIdentified(Elems(cands)) && Reresolved(plan, cands, views) && FailsAt(ctx, plan, views, k)
    ensures Refused(CHECKS[k], ctx, plan, views)
  {
    hide AllAnswered, AllSourced, AllBound, ConflictsTold, MemoryEnriches, NoContradiction, AllWithinLimits, AllCover,
      UnknownsPlanned, CheckHolds, WellIdentified;
    ChecksMean(ctx, plan, cands, views);
    assert k > 0 ==> CheckHolds(0, ctx, plan, views);
    assert k > 1 ==> CheckHolds(1, ctx, plan, views);
    assert k > 2 ==> CheckHolds(2, ctx, plan, views);
    assert k > 3 ==> CheckHolds(3, ctx, plan, views);
    assert k > 4 ==> CheckHolds(4, ctx, plan, views);
    assert k > 5 ==> CheckHolds(5, ctx, plan, views);
    assert k > 6 ==> CheckHolds(6, ctx, plan, views);
    assert k > 7 ==> CheckHolds(7, ctx, plan, views);
  }
}
