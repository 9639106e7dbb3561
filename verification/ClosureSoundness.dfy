/**
 What an accepted context is worth, whoever wrote it: clean coverage means the
 requirement took only eligible items and either all it should have, or one it
 left really had no room. Nothing here assumes that the selector ran.
 */
module ClosureSoundness {
  import opened Base
  import opened ContextModel
  import opened Reachability
  import opened Resolution
  import opened ResolutionLaws
  import opened Selection
  import opened SelectionLaws
  import opened Closure
  import opened ClosureAgreement

  /** The eligible items a requirement took. */
  ghost function Own(ctx: Context, r: Requirement, v: View): seq<Item>
  {
    Filter((i: Item) => i.id in TakenIds(ctx, r.id), ViewItems(v.groups))
  }

  /** The items of the requirement's canonical frontier that it took. */
  ghost function Admitted(ctx: Context, r: Requirement, v: View): seq<Item>
  {
    Filter((i: Item) => i.id in TakenIds(ctx, r.id), FrontierOf(r, v))
  }

  /**
   The selection when the requirement stopped: distinct items, each bound to an
   earlier requirement or one of its own, missing none that an earlier requirement
   holds and none of its frontier that it took.
   */
  ghost predicate Held(ctx: Context, plan: Plan, n: nat, v: View, held: seq<Item>)
    requires n < |plan.requirements|
  {
    var r, earlier := plan.requirements[n], BoundToAny(ctx.selected, EarlierIds(plan, n));
    && DistinctIds(held)
    && (forall h | h in held :: h in earlier || h in Own(ctx, r, v))
    && IdsOf(held) == IdsOf(earlier) + IdsOf(Admitted(ctx, r, v))
  }

  /** Holding `held`, admitting `b` breaks a global ceiling. */
  ghost predicate Overflows(budget: Budget, held: seq<Item>, b: Item)
  {
    b.id !in IdsOf(held) && (|held| + 1 > budget.maxItems || SumCost(held) + b.cost > budget.maxBytes)
  }

  /** Admitting `b` on top of what the requirement took would break its own ceiling or a global one. */
  ghost predicate NoRoomFor(ctx: Context, plan: Plan, n: nat, v: View, b: Item)
    requires n < |plan.requirements|
  {
    var r, own := plan.requirements[n], Own(ctx, plan.requirements[n], v);
    || (r.maxItems.Some? && |own| + 1 > r.maxItems.value)
    || (r.maxBytes.Some? && SumCost(own) + b.cost > r.maxBytes.value)
    || exists held :: Held(ctx, plan, n, v, held) && Overflows(plan.budget, held, b)
  }

  /** Some eligible item was left, and there was no room for it. */
  ghost predicate ReallyTruncated(ctx: Context, plan: Plan, n: nat, v: View)
    requires n < |plan.requirements|
  {
    exists b :: b in ViewItems(v.groups) && b.id !in TakenIds(ctx, plan.requirements[n].id)
      && NoRoomFor(ctx, plan, n, v, b)
  }

  lemma {:induction false} SumCostSub(a: seq<Item>, b: seq<Item>)
    requires NoDup(a) && forall i | i in a :: i in b
    ensures |a| <= |b| && SumCost(a) <= SumCost(b)
  {
    if a != [] {
      var init, last := a[..|a| - 1], a[|a| - 1];
      assert last in a;
      var k :| 0 <= k < |b| && b[k] == last;
      SumCostRemove(b, k);
      forall i | i in init ensures i in b[..k] + b[k + 1..] {
        assert i in a && i != last;
        var j :| 0 <= j < |b| && b[j] == i;
        if j < k { assert b[..k][j] == i; } else { assert b[k + 1..][j - k - 1] == i; }
      }
      SumCostSub(init, b[..k] + b[k + 1..]);
    }
  }

  /** What the witness calls admitted is among the eligible items taken, and what it calls blocked was left. */
  lemma AdmittedAreOwn(ctx: Context, cands: seq<Item>, r: Requirement, v: View, admitted: seq<Item>, left: seq<Item>)
    requires WellIdentified(Elems(cands)) && Resolves(Eligible(cands, r), v)
    requires admitted == Admitted(ctx, r, v)
    requires left == Filter((i: Item) => i.id !in TakenIds(ctx, r.id), FrontierOf(r, v)) && left != []
    ensures forall i | i in admitted :: i in Own(ctx, r, v)
    ensures |admitted| <= |Own(ctx, r, v)| && SumCost(admitted) <= SumCost(Own(ctx, r, v))
    ensures left[0] in ViewItems(v.groups) && left[0].id !in TakenIds(ctx, r.id)
  {
    hide Resolves, FrontierOf, WellIdentified, TakenIds;
    TakenFromView(cands, r, v);
    assert left[0] in left;
    SumCostSub(admitted, Own(ctx, r, v));
  }

  lemma RebuiltIsHeld(ctx: Context, plan: Plan, n: nat, v: View, admitted: seq<Item>)
    requires n < |plan.requirements| && admitted == Admitted(ctx, plan.requirements[n], v)
    requires forall i | i in admitted :: i in Own(ctx, plan.requirements[n], v)
    ensures Held(ctx, plan, n, v, Rebuilt(ctx.selected, EarlierIds(plan, n), admitted))
  {
    hide UpsertAll, BoundToAny, Own, EarlierIds, Admitted, DistinctIds, IdsOf;
    NothingHeld();
    var earlier := BoundToAny(ctx.selected, EarlierIds(plan, n));
    UpsertAllKeeps([], earlier);
    UpsertAllKeeps(UpsertAll([], earlier), admitted);
  }

  lemma NothingHeld()
    ensures DistinctIds([]) && IdsOf([]) == {}
  {
  }

  /** A stop closure proves is a real one. */
  lemma ProvenStopIsReal(ctx: Context, plan: Plan, cands: seq<Item>, n: nat, v: View)
    requires WellIdentified(Elems(cands)) && n < |plan.requirements|
    requires Resolves(Eligible(cands, plan.requirements[n]), v) && StopProven(ctx, plan, n, v)
    ensures ReallyTruncated(ctx, plan, n, v)
  {
    hide Resolves, FrontierOf, WellIdentified, Rebuilt, Own, TakenIds, EarlierIds, SumCost;
    var r := plan.requirements[n];
    var taken := TakenIds(ctx, r.id);
    var admitted := Filter((i: Item) => i.id in taken, FrontierOf(r, v));
    var left := Filter((i: Item) => i.id !in taken, FrontierOf(r, v));
    var w := Witness(FirstBudget(ctx.unknowns, r.id).value).value;
    assert WitnessHolds(w, plan.budget, r, ctx.selected, EarlierIds(plan, n), admitted, left[0]);
    SameFilter(FrontierOf(r, v), taken, TakenIds(ctx, r.id));
    AdmittedAreOwn(ctx, cands, r, v, admitted, left);
    RebuiltIsHeld(ctx, plan, n, v, admitted);
    WitnessLeavesNoRoom(ctx, plan, n, v, w, admitted, left[0]);
  }

  /** `w` is the witness of the first budget shortfall recorded for the requirement. */
  ghost predicate FirstWitness(ctx: Context, rid: string, w: BudgetStop)
  {
    exists m: nat :: IsFirstStop(ctx.unknowns, rid, m) && ctx.unknowns[m].details.ShortfallDetails?
      && ctx.unknowns[m].details.stop == Some(w)
  }

  ghost predicate IsFirstStop(us: seq<Unknown>, rid: string, m: nat)
  {
    && m < |us| && us[m].reason == BudgetInsufficient && us[m].requirement == Some(rid)
    && forall k | 0 <= k < m :: !(us[k].reason == BudgetInsufficient && us[k].requirement == Some(rid))
  }

  /** `b` is the first item of the frontier the requirement left. */
  ghost predicate LeftFirst(f: seq<Item>, taken: set<string>, b: Item)
  {
    exists j :: 0 <= j < |f| && f[j] == b && b.id !in taken && forall i | 0 <= i < j :: f[i].id in taken
  }

  /** The witness tells which ceiling the item left would have broken, and what was held then. */
  ghost predicate Tells(ctx: Context, plan: Plan, n: nat, v: View, w: BudgetStop, b: Item)
    requires n < |plan.requirements|
  {
    var r, admitted := plan.requirements[n], Admitted(ctx, plan.requirements[n], v);
    var held := IdsOf(BoundToAny(ctx.selected, EarlierIds(plan, n))) + IdsOf(admitted);
    && w.blockedId == b.id && w.candidateCost == b.cost
    && match w.bound
       case RequirementMaxItems =>
         r.maxItems == Some(w.limit) && w.observedCount == |admitted| && w.limit <= |admitted|
       case RequirementMaxBytes =>
         && r.maxBytes == Some(w.limit) && w.observedBytes == SumCost(admitted)
         && w.limit < SumCost(admitted) + b.cost
       case GlobalMaxItems =>
         && b.id !in held && w.limit == plan.budget.maxItems && w.observedCount == |held| && w.limit <= |held|
       case GlobalMaxBytes =>
         && b.id !in held && w.limit == plan.budget.maxBytes && w.limit < w.observedBytes + b.cost
         && w.observedBytes == SumCost(Rebuilt(ctx.selected, EarlierIds(plan, n), admitted))
       case OtherBound(_) => false
  }

  lemma {:induction false} FirstBudgetIs(us: seq<Unknown>, rid: string)
    ensures FirstBudget(us, rid).Some? ==>
      exists m: nat :: IsFirstStop(us, rid, m) && us[m] == FirstBudget(us, rid).value
    ensures forall m: nat | IsFirstStop(us, rid, m) :: FirstBudget(us, rid) == Some(us[m])
  {
    if us != [] {
      var rest := us[1..];
      FirstBudgetIs(rest, rid);
      if us[0].reason.BudgetInsufficient? && us[0].requirement == Some(rid) {
        assert IsFirstStop(us, rid, 0);
      } else {
        if FirstBudget(rest, rid).Some? {
          var m: nat :| IsFirstStop(rest, rid, m) && rest[m] == FirstBudget(rest, rid).value;
          assert us[m + 1] == rest[m];
          forall k | 0 <= k < m + 1 ensures !(us[k].reason == BudgetInsufficient && us[k].requirement == Some(rid)) {
            if k > 0 { assert us[k] == rest[k - 1]; }
          }
          assert IsFirstStop(us, rid, m + 1);
        }
        forall m: nat | IsFirstStop(us, rid, m) ensures FirstBudget(us, rid) == Some(us[m]) {
          assert m > 0;
          assert rest[m - 1] == us[m];
          assert forall k | 0 <= k < m - 1 :: rest[k] == us[k + 1];
          assert IsFirstStop(rest, rid, m - 1);
        }
      }
    }
  }

  lemma {:induction false} LeftFirstIs(f: seq<Item>, taken: set<string>, b: Item)
    ensures var left := Filter((i: Item) => i.id !in taken, f);
      LeftFirst(f, taken, b) <==> left != [] && left[0] == b
  {
    var keep := (i: Item) => i.id !in taken;
    if f != [] {
      var init, last := f[..|f| - 1], f[|f| - 1];
      assert f == init + [last];
      LeftFirstIs(init, taken, b);
      var left := Filter(keep, init);
      if left == [] {
        forall i | 0 <= i < |init| ensures f[i].id in taken { assert init[i] !in left; }
        if keep(last) && last == b { assert f[|init|] == b; }
        if LeftFirst(f, taken, b) { LeftIsLast(f, taken, b); }
      } else {
        assert left[0] in left;
        var j :| 0 <= j < |init| && init[j] == left[0];
        assert f[j] == init[j];
        LeftWithin(init, last, taken, b, j);
      }
    }
  }

  lemma LeftIsLast(f: seq<Item>, taken: set<string>, b: Item)
    requires f != [] && LeftFirst(f, taken, b) && forall i | 0 <= i < |f| - 1 :: f[i].id in taken
    ensures f[|f| - 1] == b
  {
  }

  lemma LeftWithin(init: seq<Item>, last: Item, taken: set<string>, b: Item, j: nat)
    requires j < |init| && init[j].id !in taken
    ensures LeftFirst(init + [last], taken, b) <==> LeftFirst(init, taken, b)
  {
    var f := init + [last];
    if LeftFirst(f, taken, b) {
      var k :| 0 <= k < |f| && f[k] == b && b.id !in taken && forall i | 0 <= i < k :: f[i].id in taken;
      assert f[j] == init[j];
      assert init[k] == b && forall i | 0 <= i < k :: init[i] == f[i];
    }
    if LeftFirst(init, taken, b) {
      var k :| 0 <= k < |init| && init[k] == b && b.id !in taken && forall i | 0 <= i < k :: init[i].id in taken;
      assert f[k] == b && forall i | 0 <= i < k :: f[i] == init[i];
    }
  }

  lemma HoldsIffTells(ctx: Context, plan: Plan, n: nat, v: View, w: BudgetStop, b: Item)
    requires n < |plan.requirements|
    ensures WitnessHolds(w, plan.budget, plan.requirements[n], ctx.selected, EarlierIds(plan, n),
        Admitted(ctx, plan.requirements[n], v), b)
      <==> Tells(ctx, plan, n, v, w, b)
  {
    hide Admitted, UpsertAll, BoundToAny, EarlierIds, SumCost, DistinctIds, IdsOf;
    var admitted, earlier := Admitted(ctx, plan.requirements[n], v), BoundToAny(ctx.selected, EarlierIds(plan, n));
    var unique := Rebuilt(ctx.selected, EarlierIds(plan, n), admitted);
    NothingHeld();
    UpsertAllKeeps([], earlier);
    UpsertAllKeeps(UpsertAll([], earlier), admitted);
    IdsCount(unique);
  }

  lemma {:induction false} IdsCount(xs: seq<Item>)
    requires DistinctIds(xs)
    ensures |IdsOf(xs)| == |xs| && IdsOf(xs) == set i | i in xs :: i.id
  {
    if xs != [] {
      var init, last := xs[..|xs| - 1], xs[|xs| - 1];
      assert xs == init + [last];
      IdsCount(init);
      IdsSnoc(init, last);
    }
  }

  ghost predicate Witnessed(ctx: Context, plan: Plan, n: nat, v: View, w: BudgetStop, b: Item)
    requires n < |plan.requirements|
  {
    && FirstWitness(ctx, plan.requirements[n].id, w)
    && LeftFirst(FrontierOf(plan.requirements[n], v), TakenIds(ctx, plan.requirements[n].id), b)
    && Tells(ctx, plan, n, v, w, b)
  }

  /** A stop is proven exactly by the first witness on record telling truly of the first item left. */
  lemma StopProvenIff(ctx: Context, plan: Plan, n: nat, v: View)
    requires n < |plan.requirements|
    ensures StopProven(ctx, plan, n, v) <==> exists w, b :: Witnessed(ctx, plan, n, v, w, b)
  {
    var r := plan.requirements[n];
    var f, taken, u := FrontierOf(r, v), TakenIds(ctx, r.id), FirstBudget(ctx.unknowns, r.id);
    var left := Filter((i: Item) => i.id !in taken, f);
    assert Admitted(ctx, r, v) == Filter((i: Item) => i.id in taken, f);
    hide FrontierOf, TakenIds, Filter, WitnessHolds, Tells, LeftFirst, EarlierIds, IsFirstStop, FirstBudget;
    FirstBudgetIs(ctx.unknowns, r.id);
    if left != [] { LeftFirstIs(f, taken, left[0]); }
    if StopProven(ctx, plan, n, v) {
      var w, b := Witness(u.value).value, left[0];
      HoldsIffTells(ctx, plan, n, v, w, b);
      assert FirstWitness(ctx, r.id, w);
      assert Witnessed(ctx, plan, n, v, w, b);
    }
    if w, b :| Witnessed(ctx, plan, n, v, w, b) {
      LeftFirstIs(f, taken, b);
      HoldsIffTells(ctx, plan, n, v, w, b);
      var m: nat :| IsFirstStop(ctx.unknowns, r.id, m) && ctx.unknowns[m].details.ShortfallDetails?
        && ctx.unknowns[m].details.stop == Some(w);
      assert u == Some(ctx.unknowns[m]);
    }
  }

  lemma WitnessLeavesNoRoom(ctx: Context, plan: Plan, n: nat, v: View, w: BudgetStop, admitted: seq<Item>, b: Item)
    requires n < |plan.requirements|
    requires WitnessHolds(w, plan.budget, plan.requirements[n], ctx.selected, EarlierIds(plan, n), admitted, b)
    requires |admitted| <= |Own(ctx, plan.requirements[n], v)|
    requires SumCost(admitted) <= SumCost(Own(ctx, plan.requirements[n], v))
    requires Held(ctx, plan, n, v, Rebuilt(ctx.selected, EarlierIds(plan, n), admitted))
    ensures NoRoomFor(ctx, plan, n, v, b)
  {
    hide Held, Rebuilt, Own, SumCost, EarlierIds;
    var unique := Rebuilt(ctx.selected, EarlierIds(plan, n), admitted);
    assert (set i | i in unique :: i.id) == IdsOf(unique);
    if w.bound.GlobalMaxItems? || w.bound.GlobalMaxBytes? { assert Overflows(plan.budget, unique, b); }
  }

  /** The keys a requirement's view offers. */
  ghost function OfferedKeys(v: View): set<string> { KeysOf(ViewItems(v.groups)) }

  /** What clean coverage is worth, mode by mode. */
  ghost predicate Sound(ctx: Context, plan: Plan, n: nat, v: View)
    requires n < |plan.requirements|
  {
    var r, taken := plan.requirements[n], TakenIds(ctx, plan.requirements[n].id);
    var eligible, keys := IdsOf(ViewItems(v.groups)), KeysOf(BoundTo(ctx.selected, r.id));
    && taken <= eligible
    && (r.coverage.AllEligible? ==> taken == eligible || ReallyTruncated(ctx, plan, n, v))
    && (r.coverage.Minimum? ==>
          && |taken| <= r.minItems
          && (|taken| == r.minItems || taken == eligible || ReallyTruncated(ctx, plan, n, v)))
    && (r.coverage.SemanticKeys? ==>
          && keys <= r.requiredKeys
          && (OfferedKeys(v) * r.requiredKeys <= keys + ConflictKeys(v.groups) || ReallyTruncated(ctx, plan, n, v)))
  }

  /**
   Soundness on any context, forged or not: clean coverage means only eligible
   items were taken, never more than the mode asks for, and what is missing was
   disposed as a conflict its view confirms or blocked by a ceiling with no room.
   */
  lemma CoverageIsSound(ctx: Context, plan: Plan, cands: seq<Item>, n: nat, v: View)
    requires WellIdentified(Elems(cands)) && n < |plan.requirements|
    requires Resolves(Eligible(cands, plan.requirements[n]), v) && CoverageClean(ctx, plan, n, v)
    ensures Sound(ctx, plan, n, v)
  {
    hide Resolves, WellIdentified, StopProven, KeyMap, ReallyTruncated, TakenIds, IdsOf, KeysOf;
    var r := plan.requirements[n];
    var items := ViewItems(v.groups);
    if StopProven(ctx, plan, n, v) { ProvenStopIsReal(ctx, plan, cands, n, v); }
    EligibleIdentified(cands, r);
    ViewItemsDistinct(Eligible(cands, r), v);
    KeyMapFacts(items);
    DistinctCard(items);
    assert DisposedKeys(ctx.unknowns, r.id, v) <= ConflictKeys(v.groups);
    AllOrFewer(TakenIds(ctx, r.id), IdsOf(items));
    if r.coverage.SemanticKeys? {
      var keys, disposed := KeysOf(BoundTo(ctx.selected, r.id)), DisposedKeys(ctx.unknowns, r.id, v);
      AllOrFewer(keys, r.requiredKeys);
      AllOrFewer(keys + disposed, OfferedKeys(v) * r.requiredKeys);
      assert OfferedKeys(v) * r.requiredKeys - keys - disposed == OfferedKeys(v) * r.requiredKeys - (keys + disposed);
    }
  }

  lemma AllOrFewer<T>(a: set<T>, b: set<T>)
    ensures a <= b && |a| >= |b| ==> a == b
    ensures a <= b ==> |a| <= |b|
    ensures b - a == {} ==> b <= a
    ensures a - b == {} ==> a <= b
  {
    Subtract(a, b);
    Subtract(b, a);
    if a <= b { SubsetCard(a, b); }
  }

  // ---- the finished context ----------------------------------------------

  /** The context names each identity once, and carries eligible items as their views offer them. */
  ghost predicate Faithful(ctx: Context, r: Requirement, v: View)
  {
    && DistinctIds(ItemsOf(ctx.selected))
    && forall s, i | s in ctx.selected && i in ViewItems(v.groups) && s.item.id == i.id :: s.item == i
  }

  lemma HeldIsSelected(ctx: Context, plan: Plan, n: nat, v: View, held: seq<Item>)
    requires n < |plan.requirements| && Faithful(ctx, plan.requirements[n], v) && Held(ctx, plan, n, v, held)
    ensures |held| <= |ctx.selected| && SumCost(held) <= SumCost(ItemsOf(ctx.selected))
  {
    ItemsOfAt(ctx.selected);
    forall h | h in held ensures h in ItemsOf(ctx.selected) {
      var s := CarrierOf(ctx, plan, n, v, h);
      var k :| 0 <= k < |ctx.selected| && ctx.selected[k] == s;
      assert ItemsOf(ctx.selected)[k] == h;
    }
    DistinctIdsNoDup(held);
    SumCostSub(held, ItemsOf(ctx.selected));
  }

  lemma DistinctIdsNoDup(xs: seq<Item>)
    requires DistinctIds(xs)
    ensures NoDup(xs)
  {
  }

  lemma CarrierOf(ctx: Context, plan: Plan, n: nat, v: View, h: Item) returns (s: Selected)
    requires n < |plan.requirements| && Faithful(ctx, plan.requirements[n], v)
    requires h in BoundToAny(ctx.selected, EarlierIds(plan, n)) || h in Own(ctx, plan.requirements[n], v)
    ensures s in ctx.selected && s.item == h
  {
    hide EarlierIds;
    InBoundToAny(ctx.selected, EarlierIds(plan, n), h);
    if h in BoundToAny(ctx.selected, EarlierIds(plan, n)) {
      s :| s in ctx.selected && s.item == h;
    } else {
      var r := plan.requirements[n];
      var i :| i in BoundTo(ctx.selected, r.id) && i.id == h.id;
      InBoundTo(ctx.selected, r.id, i);
      s :| s in ctx.selected && s.item == i;
    }
  }

  /**
   For a faithful context the stop can be read off the finished selection: an item
   with no room breaks the requirement's own ceiling, or cannot be added to the
   finished context within the global budget, or no earlier requirement held it
   and it was selected all the same.
   */
  lemma NoRoomInTheEnd(ctx: Context, plan: Plan, n: nat, v: View, b: Item)
    requires n < |plan.requirements| && Faithful(ctx, plan.requirements[n], v) && NoRoomFor(ctx, plan, n, v, b)
    ensures var r, own := plan.requirements[n], Own(ctx, plan.requirements[n], v);
      || (r.maxItems.Some? && |own| + 1 > r.maxItems.value)
      || (r.maxBytes.Some? && SumCost(own) + b.cost > r.maxBytes.value)
      || (b.id in IdsOf(ItemsOf(ctx.selected)) && b.id !in IdsOf(BoundToAny(ctx.selected, EarlierIds(plan, n))))
      || Overflows(plan.budget, ItemsOf(ctx.selected), b)
  {
    hide Own, SumCost, Faithful, EarlierIds, BoundToAny, Admitted;
    var r, own := plan.requirements[n], Own(ctx, plan.requirements[n], v);
    if !(r.maxItems.Some? && |own| + 1 > r.maxItems.value)
      && !(r.maxBytes.Some? && SumCost(own) + b.cost > r.maxBytes.value) {
      var held :| Held(ctx, plan, n, v, held) && Overflows(plan.budget, held, b);
      HeldIsSelected(ctx, plan, n, v, held);
      ItemsOfAt(ctx.selected);
    }
  }

  /** A selected item neither this requirement nor an earlier one took was taken by a later one. */
  lemma SelectedLater(ctx: Context, plan: Plan, n: nat, id: string)
    requires n < |plan.requirements| && ItemsBound(ctx, plan)
    requires id in IdsOf(ItemsOf(ctx.selected)) && id !in IdsOf(BoundToAny(ctx.selected, EarlierIds(plan, n)))
    requires id !in TakenIds(ctx, plan.requirements[n].id)
    ensures exists m :: n < m < |plan.requirements| && id in TakenIds(ctx, plan.requirements[m].id)
  {
    var s := SelectedAs(ctx.selected, id);
    var rid :| rid in s.because;
    var r :| r in plan.requirements && r.id == rid;
    var m :| 0 <= m < |plan.requirements| && plan.requirements[m] == r;
    InBoundTo(ctx.selected, rid, s.item);
    assert id in TakenIds(ctx, rid);
    if m < n { BoundEarlier(ctx, plan, n, s, m); }
  }

  lemma BoundEarlier(ctx: Context, plan: Plan, n: nat, s: Selected, m: nat)
    requires m < n <= |plan.requirements| && s in ctx.selected && plan.requirements[m].id in s.because
    ensures s.item.id in IdsOf(BoundToAny(ctx.selected, EarlierIds(plan, n)))
  {
    assert plan.requirements[m] in plan.requirements[..n];
    assert plan.requirements[m].id in s.because * EarlierIds(plan, n);
    InBoundToAny(ctx.selected, EarlierIds(plan, n), s.item);
  }

  lemma SelectedAs(selected: seq<Selected>, id: string) returns (s: Selected)
    requires id in IdsOf(ItemsOf(selected))
    ensures s in selected && s.item.id == id
  {
    ItemsOfAt(selected);
    var i :| i in ItemsOf(selected) && i.id == id;
    var k :| 0 <= k < |selected| && ItemsOf(selected)[k] == i;
    s := selected[k];
  }

  /** A requirement whose budgets are clean kept its ceilings and, if required, its floor. */
  ghost predicate BudgetSound(ctx: Context, r: Requirement, v: View)
  {
    var items := BoundTo(ctx.selected, r.id);
    && (r.maxItems.Some? ==> |items| <= r.maxItems.value)
    && (r.maxBytes.Some? ==> SumCost(items) <= r.maxBytes.value)
    && (r.required ==>
          || |items| + |ConflictKeys(v.groups) - KeysOf(items)| >= r.minItems
          || ShortfallRecorded(ctx.unknowns, r.id))
    && (r.required && r.coverage.SemanticKeys? ==>
          r.requiredKeys <= KeysOf(items) + ConflictKeys(v.groups) + MissingRecorded(ctx.unknowns, r.id))
  }

  lemma BudgetIsSound(ctx: Context, plan: Plan, n: nat, v: View)
    requires n < |plan.requirements| && BudgetAt(ctx, plan, n, v).None?
    ensures BudgetSound(ctx, plan.requirements[n], v)
  {
    hide KeysOf, MissingRecorded, ShortfallRecorded, BoundTo, SumCost;
    var r := plan.requirements[n];
    var keys := KeysOf(BoundTo(ctx.selected, r.id));
    var disposed, conflicts := DisposedKeys(ctx.unknowns, r.id, v), ConflictKeys(v.groups);
    assert disposed <= conflicts;
    assert disposed - keys <= conflicts - keys;
    AllOrFewer(disposed - keys, conflicts - keys);
    var missing := MissingRecorded(ctx.unknowns, r.id);
    assert r.requiredKeys - keys - disposed - missing == {} ==> r.requiredKeys <= keys + conflicts + missing by {
      forall k | k in r.requiredKeys && r.requiredKeys - keys - disposed - missing == {}
        ensures k in keys + conflicts + missing {
        assert k !in r.requiredKeys - keys - disposed - missing;
      }
    }
  }

  /** A context closure accepts is sound for every requirement of its plan, whoever wrote it. */
  lemma AcceptedIsSound(ctx: Context, plan: Plan, cands: seq<Item>, views: seq<View>)
    requires WellIdentified(Elems(cands)) && Reresolved(plan, cands, views) && Closed(ctx, plan, views)
    ensures forall n: nat | n < |views| ::
      Sound(ctx, plan, n, views[n]) && BudgetSound(ctx, plan.requirements[n], views[n])
    ensures |ctx.selected| <= plan.budget.maxItems && SumCost(ItemsOf(ctx.selected)) <= plan.budget.maxBytes
  {
    hide Resolves, WellIdentified, CoverageClean, Sound, BudgetSound, RequirementsDisposed, ItemsBound,
      ConflictsVisible, MemoryContained, UnknownsBound;
    forall n: nat | n < |views|
      ensures Sound(ctx, plan, n, views[n]) && BudgetSound(ctx, plan.requirements[n], views[n]) {
      assert CoverageClean(ctx, plan, n, views[n]);
      CoverageIsSound(ctx, plan, cands, n, views[n]);
      BudgetIsSound(ctx, plan, n, views[n]);
    }
  }
}
