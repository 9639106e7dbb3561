/**
 Whether closure forces a requirement to take a prefix of its frontier. For each
 coverage mode, and whatever earlier requirements hold, the exact condition on
 the costs and the ceilings under which every context that passes the budget and
 coverage checks takes a prefix.
 */
module PrefixLimits {
  import opened Base
  import opened ContextModel
  import opened Reachability
  import opened Resolution
  import opened ResolutionLaws
  import opened Selection
  import opened SelectionLaws
  import opened Closure
  import opened ClosureAgreement
  import opened ClosureSoundness
  import opened ClosureLimits
  import opened ClosureVerdict

  // ---- the cost of a set -------------------------------------------------

  lemma SetIsListed(s: set<Item>)
    ensures exists xs: seq<Item> :: NoDup(xs) && Elems(xs) == s
  {
    var xs := SetAsSeq(s);
  }

  ghost function SetCost(s: set<Item>): nat
  {
    SetIsListed(s);
    var xs: seq<Item> :| NoDup(xs) && Elems(xs) == s;
    SumCost(xs)
  }

  lemma CostOfList(xs: seq<Item>)
    requires NoDup(xs)
    ensures SetCost(Elems(xs)) == SumCost(xs) && |Elems(xs)| == |xs|
  {
    SetIsListed(Elems(xs));
    NoDupCard(xs);
    var ys: seq<Item> :| NoDup(ys) && Elems(ys) == Elems(xs) && SetCost(Elems(xs)) == SumCost(ys);
    InElems(xs);
    InElems(ys);
    SameItemsSameFacts(xs, ys);
  }

  lemma CostAdds(s: set<Item>, x: Item)
    requires x !in s
    ensures SetCost(s + {x}) == SetCost(s) + x.cost && |s + {x}| == |s| + 1
  {
    var xs := SetAsSeq(s);
    InElems(xs);
    NoDupConcat(xs, [x]);
    ElemsSnoc(xs, x);
    CostOfList(xs);
    CostOfList(xs + [x]);
    SumCostSnoc(xs, x);
  }

  lemma CostGrows(s: set<Item>, t: set<Item>)
    requires s <= t
    ensures |s| <= |t| && SetCost(s) <= SetCost(t)
  {
    var xs := SetAsSeq(s);
    var ys := SetAsSeq(t);
    InElems(xs);
    InElems(ys);
    CostOfList(xs);
    CostOfList(ys);
    SumCostSub(xs, ys);
  }

  /** A list costs at least its distinct items. */
  lemma ListCostsMore(s: set<Item>, ys: seq<Item>)
    requires s <= Elems(ys)
    ensures |s| <= |ys| && SetCost(s) <= SumCost(ys)
  {
    var xs := SetAsSeq(s);
    InElems(xs);
    InElems(ys);
    CostOfList(xs);
    SumCostSub(xs, ys);
  }

  // ---- what fits, and what is stuck --------------------------------------

  /** With `held` selected before, `t` keeps the requirement's own ceilings and the global ones. */
  ghost predicate Fits(plan: Plan, n: nat, held: set<Item>, t: set<Item>)
    requires n < |plan.requirements|
  {
    var r := plan.requirements[n];
    && (r.maxItems.Some? ==> |t| <= r.maxItems.value)
    && (r.maxBytes.Some? ==> SetCost(t) <= r.maxBytes.value)
    && |held + t| <= plan.budget.maxItems && SetCost(held + t) <= plan.budget.maxBytes
  }

  lemma LessFits(plan: Plan, n: nat, held: set<Item>, s: set<Item>, t: set<Item>)
    requires n < |plan.requirements| && s <= t && Fits(plan, n, held, t)
    ensures Fits(plan, n, held, s)
  {
    CostGrows(s, t);
    CostGrows(held + s, held + t);
  }

  /** `f[j]` is the first item of `f` left out of `t`. */
  ghost predicate FirstLeft(f: seq<Item>, t: set<Item>, j: nat)
  {
    j < |f| && f[j] !in t && forall i | 0 <= i < j :: f[i] in t
  }

  /** The first frontier item left does not fit on top of the frontier items taken. */
  ghost predicate Stuck(plan: Plan, n: nat, v: View, held: set<Item>, t: set<Item>)
    requires n < |plan.requirements|
  {
    var f := FrontierOf(plan.requirements[n], v);
    exists j: nat :: FirstLeft(f, t, j) && !Fits(plan, n, held, t * Elems(f) + {f[j]})
  }

  /** What a requirement may take and pass, in terms of the items alone. */
  ghost predicate Passable(plan: Plan, n: nat, v: View, held: set<Item>, t: set<Item>)
    requires n < |plan.requirements|
  {
    var r, eligible := plan.requirements[n], Elems(ViewItems(v.groups));
    && t <= eligible && Fits(plan, n, held, t)
    && match r.coverage
       case AllEligible => t == eligible || Stuck(plan, n, v, held, t)
       case Minimum =>
         && |t| <= Expected(r, ViewItems(v.groups))
         && (|t| == Expected(r, ViewItems(v.groups)) || Stuck(plan, n, v, held, t))
       case SemanticKeys =>
         && t <= Elems(FrontierOf(r, v))
         && (KeysIn(Elems(FrontierOf(r, v))) <= KeysIn(t) || Stuck(plan, n, v, held, t))
  }

  ghost function KeysIn(s: set<Item>): set<string> { set i | i in s :: i.key }

  // ---- contexts ----------------------------------------------------------

  /** A view as resolution yields it, and held items that agree with it on identities. */
  ghost predicate Setting(plan: Plan, n: nat, v: View, held: set<Item>)
  {
    && n < |plan.requirements| && plan.Valid()
    && NoDup(ViewItems(v.groups)) && IdsDistinct(held + Elems(ViewItems(v.groups)))
    && OfferedKeys(v) !! ConflictKeys(v.groups)
    && (n == 0 ==> held == {})
  }

  /** The context binds `held` to earlier requirements, and to this one only items its view offers. */
  ghost predicate Carries(ctx: Context, plan: Plan, n: nat, v: View, held: set<Item>)
    requires n < |plan.requirements|
  {
    Elems(BoundToAny(ctx.selected, EarlierIds(plan, n))) == held && Genuine(ctx, plan.requirements[n], v)
  }

  /** Checks 9 and 10 as they bear on one requirement: its ceilings and floor, its coverage, and the global ceilings. */
  ghost predicate PassesChecks(ctx: Context, plan: Plan, n: nat, v: View)
    requires n < |plan.requirements|
  {
    && CoverageClean(ctx, plan, n, v) && BudgetAt(ctx, plan, n, v).None?
    && |ctx.selected| <= plan.budget.maxItems && SumCost(ItemsOf(ctx.selected)) <= plan.budget.maxBytes
  }

  ghost function TakenBy(selected: seq<Selected>, rid: string): set<Item> { Elems(BoundTo(selected, rid)) }

  lemma SettingFacts(plan: Plan, n: nat, v: View, held: set<Item>)
    requires Setting(plan, n, v, held)
    ensures Distinct(v) && IdsDistinct(held) && plan.requirements[n].Valid()
  {
    assert held <= held + Elems(ViewItems(v.groups));
  }

  lemma FrontierInView(plan: Plan, n: nat, v: View, held: set<Item>)
    requires Setting(plan, n, v, held)
    ensures var f := FrontierOf(plan.requirements[n], v);
      NoDup(f) && Elems(f) <= Elems(ViewItems(v.groups)) && IdsDistinct(held + Elems(f))
  {
    var r := plan.requirements[n];
    SortedWithin(ViewItems(v.groups));
    FrontierWithin(r, Sort(CandLt, ViewItems(v.groups)));
  }

  // ---- ids and items -----------------------------------------------------

  ghost function ItemIds(s: set<Item>): set<string> { set i | i in s :: i.id }

  lemma SameIds(all: set<Item>, s: set<Item>, x: Item)
    requires IdsDistinct(all) && s <= all && x in all
    ensures x.id in ItemIds(s) <==> x in s
  {
  }

  lemma TakenIdsAre(ctx: Context, rid: string)
    ensures TakenIds(ctx, rid) == ItemIds(TakenBy(ctx.selected, rid))
    ensures KeysOf(BoundTo(ctx.selected, rid)) == KeysIn(TakenBy(ctx.selected, rid))
  {
  }

  /** The frontier items taken, and the first one left. */
  lemma TakenPart(plan: Plan, n: nat, v: View, held: set<Item>, selected: seq<Selected>, t: set<Item>)
    requires Setting(plan, n, v, held) && t == TakenBy(selected, plan.requirements[n].id)
    requires t <= Elems(ViewItems(v.groups))
    ensures var r := plan.requirements[n]; var f := FrontierOf(r, v);
      && NoDup(AdmittedOf(selected, r, v)) && Elems(AdmittedOf(selected, r, v)) == t * Elems(f)
      && forall i :: i in Left(selected, r, v) <==> i in f && i !in t
  {
    hide FrontierOf;
    var r := plan.requirements[n];
    var f := FrontierOf(r, v);
    FrontierInView(plan, n, v, held);
    TakenIdsAre(Context(selected, []), r.id);
    forall i | i in f ensures i.id in TakenIds(Context(selected, []), r.id) <==> i in t {
      SameIds(held + Elems(ViewItems(v.groups)), t, i);
    }
  }

  lemma {:induction false} FilterFirst(p: Item -> bool, f: seq<Item>)
    ensures Filter(p, f) != [] ==> exists j: nat :: j < |f| && p(f[j]) && Filter(p, f)[0] == f[j]
                                                    && forall i | 0 <= i < j :: !p(f[i])
    ensures Filter(p, f) == [] ==> forall i | 0 <= i < |f| :: !p(f[i])
  {
    if f != [] {
      var init, last := f[..|f| - 1], f[|f| - 1];
      FilterFirst(p, init);
      if Filter(p, init) != [] {
        var j: nat :| j < |init| && p(init[j]) && Filter(p, init)[0] == init[j] && forall i | 0 <= i < j :: !p(init[i]);
        assert f[j] == init[j] && forall i | 0 <= i < j :: f[i] == init[i];
      }
      assert forall i | 0 <= i < |init| :: f[i] == init[i];
    }
  }

  /** The selection rebuilt at the stop is what was held and the frontier items taken. */
  lemma RebuiltIs(plan: Plan, n: nat, v: View, held: set<Item>, selected: seq<Selected>, admitted: seq<Item>)
    requires n < |plan.requirements| && Elems(BoundToAny(selected, EarlierIds(plan, n))) == held
    requires IdsDistinct(held + Elems(admitted))
    ensures var unique := Rebuilt(selected, EarlierIds(plan, n), admitted);
      && NoDup(unique) && Elems(unique) == held + Elems(admitted)
      && |unique| == |held + Elems(admitted)| && SumCost(unique) == SetCost(held + Elems(admitted))
  {
    hide SumCost, UpsertAll, BoundToAny, EarlierIds, SetCost;
    var earlier := BoundToAny(selected, EarlierIds(plan, n));
    var unique := Rebuilt(selected, EarlierIds(plan, n), admitted);
    NothingHeld();
    UpsertAllKeeps([], earlier);
    UpsertAllKeeps(UpsertAll([], earlier), admitted);
    DistinctIdsNoDup(unique);
    InElems(earlier);
    InElems(admitted);
    InElems(unique);
    forall y | y in held + Elems(admitted) ensures y in unique { ById(held + Elems(admitted), unique, y); }
    assert Elems(unique) == held + Elems(admitted);
    CostOfList(unique);
  }

  lemma ById(all: set<Item>, xs: seq<Item>, y: Item)
    requires IdsDistinct(all) && y in all && (forall x | x in xs :: x in all) && y.id in IdsOf(xs)
    ensures y in xs
  {
  }

  /** One more item fits exactly when it keeps each ceiling; what is held already is free globally. */
  lemma FitsNext(plan: Plan, n: nat, held: set<Item>, t: set<Item>, b: Item)
    requires n < |plan.requirements| && b !in t && Fits(plan, n, held, t)
    ensures var r := plan.requirements[n];
      !Fits(plan, n, held, t + {b}) <==>
        || (r.maxItems.Some? && |t| + 1 > r.maxItems.value)
        || (r.maxBytes.Some? && SetCost(t) + b.cost > r.maxBytes.value)
        || (b !in held
            && (|held + t| + 1 > plan.budget.maxItems || SetCost(held + t) + b.cost > plan.budget.maxBytes))
  {
    hide SetCost;
    CostAdds(t, b);
    if b in held {
      assert held + (t + {b}) == held + t;
    } else {
      CostAdds(held + t, b);
      assert held + (t + {b}) == (held + t) + {b};
    }
  }

  lemma OverflowsIff(plan: Plan, n: nat, v: View, held: set<Item>, selected: seq<Selected>, admitted: seq<Item>,
    b: Item)
    requires n < |plan.requirements| && Elems(BoundToAny(selected, EarlierIds(plan, n))) == held
    requires b !in Elems(admitted) && IdsDistinct(held + Elems(admitted) + {b})
    ensures Overflows(plan.budget, Rebuilt(selected, EarlierIds(plan, n), admitted), b) <==>
      b !in held && (|held + Elems(admitted)| + 1 > plan.budget.maxItems
                     || SetCost(held + Elems(admitted)) + b.cost > plan.budget.maxBytes)
  {
    hide SumCost, BoundToAny, EarlierIds, SetCost, Rebuilt;
    var t, unique := Elems(admitted), Rebuilt(selected, EarlierIds(plan, n), admitted);
    assert held + t <= held + t + {b};
    RebuiltIs(plan, n, v, held, selected, admitted);
    InElems(unique);
    IdInList(held + t + {b}, unique, b);
  }

  lemma IdInList(all: set<Item>, xs: seq<Item>, b: Item)
    requires IdsDistinct(all) && b in all && forall x | x in xs :: x in all
    ensures b.id in IdsOf(xs) <==> b in xs
  {
  }

  /** `b` breaks a ceiling on top of what was admitted and of the selection rebuilt with it. */
  ghost predicate LacksRoom(plan: Plan, n: nat, selected: seq<Selected>, admitted: seq<Item>, b: Item)
    requires n < |plan.requirements|
  {
    var r := plan.requirements[n];
    || (r.maxItems.Some? && |admitted| + 1 > r.maxItems.value)
    || (r.maxBytes.Some? && SumCost(admitted) + b.cost > r.maxBytes.value)
    || Overflows(plan.budget, Rebuilt(selected, EarlierIds(plan, n), admitted), b)
  }

  lemma NoRoomMeans(plan: Plan, n: nat, v: View, selected: seq<Selected>)
    requires n < |plan.requirements| && Left(selected, plan.requirements[n], v) != []
    ensures var r := plan.requirements[n];
      FirstHasNoRoom(selected, plan, n, v) <==>
        LacksRoom(plan, n, selected, AdmittedOf(selected, r, v), Left(selected, r, v)[0])
  {
  }

  /** The next item lacks room exactly when it does not fit on top of the frontier items taken. */
  lemma NoRoomIff(plan: Plan, n: nat, v: View, held: set<Item>, selected: seq<Selected>, admitted: seq<Item>, b: Item)
    requires n < |plan.requirements| && Elems(BoundToAny(selected, EarlierIds(plan, n))) == held
    requires NoDup(admitted) && b !in Elems(admitted) && IdsDistinct(held + Elems(admitted) + {b})
    requires Fits(plan, n, held, Elems(admitted))
    ensures LacksRoom(plan, n, selected, admitted, b) <==> !Fits(plan, n, held, Elems(admitted) + {b})
  {
    hide SumCost, BoundToAny, EarlierIds, SetCost, Rebuilt, Overflows, Fits, Elems, IdsDistinct;
    CostOfList(admitted);
    FitsNext(plan, n, held, Elems(admitted), b);
    OverflowsIff(plan, n, v, held, selected, admitted, b);
  }

  lemma StuckAt(plan: Plan, n: nat, v: View, held: set<Item>, t: set<Item>, j: nat)
    requires n < |plan.requirements| && FirstLeft(FrontierOf(plan.requirements[n], v), t, j)
    ensures var f := FrontierOf(plan.requirements[n], v);
      Stuck(plan, n, v, held, t) <==> !Fits(plan, n, held, t * Elems(f) + {f[j]})
  {
    hide Fits, FrontierOf;
    var f := FrontierOf(plan.requirements[n], v);
    assert forall k | FirstLeft(f, t, k) :: k == j;
  }

  lemma RoomOnTopOf(plan: Plan, n: nat, v: View, held: set<Item>, selected: seq<Selected>, t: set<Item>,
                    f: set<Item>, admitted: seq<Item>, b: Item)
    requires n < |plan.requirements| && Elems(BoundToAny(selected, EarlierIds(plan, n))) == held
    requires NoDup(admitted) && Elems(admitted) == t * f && b in f && b !in t
    requires IdsDistinct(held + f) && Fits(plan, n, held, t)
    ensures LacksRoom(plan, n, selected, admitted, b) <==> !Fits(plan, n, held, t * f + {b})
  {
    hide Fits, LacksRoom, EarlierIds, BoundToAny, IdsDistinct, NoDup, Elems;
    LessFits(plan, n, held, t * f, t);
    LessDistinct(held + t * f + {b}, held + f);
    NoRoomIff(plan, n, v, held, selected, admitted, b);
  }

  lemma LessDistinct(s: set<Item>, t: set<Item>)
    requires s <= t && IdsDistinct(t)
    ensures IdsDistinct(s)
  {
  }

  lemma StuckIff(plan: Plan, n: nat, v: View, held: set<Item>, selected: seq<Selected>, t: set<Item>)
    requires Setting(plan, n, v, held) && t == TakenBy(selected, plan.requirements[n].id)
    requires Elems(BoundToAny(selected, EarlierIds(plan, n))) == held
    requires t <= Elems(ViewItems(v.groups)) && Fits(plan, n, held, t)
    ensures FirstHasNoRoom(selected, plan, n, v) <==> Stuck(plan, n, v, held, t)
  {
    var r := plan.requirements[n];
    var f, left := FrontierOf(r, v), Left(selected, r, v);
    FirstOfLeft(plan, n, v, held, selected, t);
    if left != [] {
      var j: nat :| FirstLeft(f, t, j) && left[0] == f[j];
      hide FrontierOf, AdmittedOf, Left, Fits, LacksRoom, EarlierIds, BoundToAny, TakenBy, Setting, FirstHasNoRoom,
        Stuck, IdsDistinct, NoDup;
      assert f[j] in Elems(f) && f[j] !in t;
      StuckAt(plan, n, v, held, t, j);
      TakenPart(plan, n, v, held, selected, t);
      FrontierInView(plan, n, v, held);
      RoomOnTopOf(plan, n, v, held, selected, t, Elems(f), AdmittedOf(selected, r, v), f[j]);
      NoRoomMeans(plan, n, v, selected);
    }
  }

  lemma FirstOfLeft(plan: Plan, n: nat, v: View, held: set<Item>, selected: seq<Selected>, t: set<Item>)
    requires Setting(plan, n, v, held) && t == TakenBy(selected, plan.requirements[n].id)
    requires t <= Elems(ViewItems(v.groups))
    ensures var f, left := FrontierOf(plan.requirements[n], v), Left(selected, plan.requirements[n], v);
      && (left != [] ==> exists j: nat :: FirstLeft(f, t, j) && left[0] == f[j])
      && (left == [] ==> forall j: nat :: !FirstLeft(f, t, j))
  {
    hide FrontierOf;
    var r := plan.requirements[n];
    var f := FrontierOf(r, v);
    TakenPart(plan, n, v, held, selected, t);
    var left := Left(selected, r, v);
    FilterFirst((i: Item) => i.id !in TakenIds(Context(selected, []), r.id), f);
    if left != [] {
      var j: nat :| j < |f| && left[0] == f[j]
        && forall i | 0 <= i < j :: !(f[i].id !in TakenIds(Context(selected, []), r.id));
      assert f[j] in left;
      forall i | 0 <= i < j ensures f[i] in t {
        assert f[i] in f;
        assert f[i] in t <==> f[i] !in left;
        SameIds(held + Elems(ViewItems(v.groups)), t, f[i]);
      }
      assert FirstLeft(f, t, j);
    } else {
      forall j: nat | j < |f| ensures f[j] in t { assert f[j] in f && f[j] !in left; }
    }
  }

  // ---- passing contexts take passable sets -------------------------------

  lemma BoundIsSelected(selected: seq<Selected>, rid: string, earlier: set<string>)
    ensures TakenBy(selected, rid) + Elems(BoundToAny(selected, earlier)) <= Elems(ItemsOf(selected))
  {
    ItemsOfAt(selected);
    forall i | i in TakenBy(selected, rid) || i in Elems(BoundToAny(selected, earlier)) ensures i in ItemsOf(selected) {
      InBoundTo(selected, rid, i);
      InBoundToAny(selected, earlier, i);
      var s :| s in selected && s.item == i;
      var k :| 0 <= k < |selected| && selected[k] == s;
      assert ItemsOf(selected)[k] == i;
    }
  }

  /** What passes the budgets fits. */
  lemma TakenFits(ctx: Context, plan: Plan, n: nat, v: View, held: set<Item>)
    requires n < |plan.requirements| && Carries(ctx, plan, n, v, held) && BudgetAt(ctx, plan, n, v).None?
    requires |ctx.selected| <= plan.budget.maxItems && SumCost(ItemsOf(ctx.selected)) <= plan.budget.maxBytes
    ensures Fits(plan, n, held, TakenBy(ctx.selected, plan.requirements[n].id))
  {
    hide SumCost, ItemsOf, BoundTo, BoundToAny, EarlierIds, SetCost, DisposedKeys, ShortfallRecorded, MissingRecorded,
      KeysOf;
    var r := plan.requirements[n];
    ListCostsMore(TakenBy(ctx.selected, r.id), BoundTo(ctx.selected, r.id));
    BoundIsSelected(ctx.selected, r.id, EarlierIds(plan, n));
    ItemsOfAt(ctx.selected);
    ListCostsMore(held + TakenBy(ctx.selected, r.id), ItemsOf(ctx.selected));
  }

  lemma IdsAsItems(all: set<Item>, s: set<Item>, t: set<Item>)
    requires IdsDistinct(all) && s <= all && t <= all
    ensures ItemIds(s) <= ItemIds(t) <==> s <= t
  {
    if ItemIds(s) <= ItemIds(t) {
      forall x | x in s ensures x in t { assert x.id in ItemIds(s); }
    }
  }

  lemma {:induction false} IdsCount(s: set<Item>)
    requires IdsDistinct(s)
    ensures |ItemIds(s)| == |s|
  {
    var xs := SetAsSeq(s);
    DistinctCard(xs);
    InElems(xs);
    CostOfList(xs);
    assert IdsOf(xs) == ItemIds(s);
  }

  /** Coverage over ids, for items of the view, is coverage over the items. */
  lemma CoversItems(plan: Plan, n: nat, v: View, held: set<Item>, t: set<Item>, stopped: bool)
    requires Setting(plan, n, v, held) && t <= Elems(ViewItems(v.groups))
    ensures var r, eligible := plan.requirements[n], Elems(ViewItems(v.groups));
      Covers(r, v, ItemIds(t), KeysIn(t), ConflictKeys(v.groups), stopped) <==>
        match r.coverage
        case AllEligible => t == eligible || stopped
        case Minimum => |t| <= Expected(r, ViewItems(v.groups)) && (|t| == Expected(r, ViewItems(v.groups)) || stopped)
        case SemanticKeys =>
          t <= Elems(FrontierOf(r, v)) && (KeysIn(Elems(FrontierOf(r, v))) <= KeysIn(t) || stopped)
  {
    var r, items := plan.requirements[n], ViewItems(v.groups);
    var eligible := Elems(items);
    SettingFacts(plan, n, v, held);
    IdsAsItems(eligible, t, eligible);
    IdsAsItems(eligible, eligible, t);
    assert IdsOf(items) == ItemIds(eligible);
    assert IdsDistinct(t);
    IdsCount(t);
    if r.coverage.SemanticKeys? {
      RequestedFrontier(r, v);
      hide FrontierOf;
      var f := FrontierOf(r, v);
      assert KeysIn(Elems(f)) == KeysOf(f);
      assert KeysIn(t) <= r.requiredKeys <==> t <= Elems(f) by { KeysWithin(t, items, f, r.requiredKeys); }
    }
  }

  lemma KeysWithin(t: set<Item>, items: seq<Item>, f: seq<Item>, required: set<string>)
    requires t <= Elems(items) && forall i :: i in f <==> i in items && i.key in required
    ensures KeysIn(t) <= required <==> t <= Elems(f)
  {
    if t <= Elems(f) {
      forall k | k in KeysIn(t) ensures k in required { var i :| i in t && i.key == k; assert i in f; }
    }
    if KeysIn(t) <= required { forall i | i in t ensures i in f { assert i.key in KeysIn(t); } }
  }

  lemma PassesIsPassable(ctx: Context, plan: Plan, n: nat, v: View, held: set<Item>)
    requires Setting(plan, n, v, held) && Carries(ctx, plan, n, v, held) && PassesChecks(ctx, plan, n, v)
    ensures Passable(plan, n, v, held, TakenBy(ctx.selected, plan.requirements[n].id))
  {
    var r, t := plan.requirements[n], TakenBy(ctx.selected, plan.requirements[n].id);
    assert t <= Elems(ViewItems(v.groups));
    TakenFits(ctx, plan, n, v, held);
    hide CoverageClean, StopProven, FirstHasNoRoom, Fits, Stuck, Covers, BudgetAt, FrontierOf, TakenBy, BoundToAny,
      EarlierIds, DisposedKeys, ConflictKeys, TakenIds, KeysOf, IdsDistinct, NoDup;
    SettingFacts(plan, n, v, held);
    CleanMeans(ctx, plan, n, v);
    TakenIdsAre(ctx, r.id);
    DisposedWithin(ctx.unknowns, r.id, v);
    if StopProven(ctx, plan, n, v) { StopNeedsNoRoom(ctx, plan, n, v); }
    StuckIff(plan, n, v, held, ctx.selected, t);
    MoreCovers(r, v, ItemIds(t), KeysIn(t), DisposedKeys(ctx.unknowns, r.id, v), StopProven(ctx, plan, n, v),
               Stuck(plan, n, v, held, t));
    CoversItems(plan, n, v, held, t, Stuck(plan, n, v, held, t));
  }

  /** Coverage with fewer keys disposed and a stop proven is coverage with the view's own conflicts and a real stop. */
  lemma MoreCovers(r: Requirement, v: View, taken: set<string>, keys: set<string>, disposed: set<string>,
                   proven: bool, stuck: bool)
    requires Covers(r, v, taken, keys, disposed, proven)
    requires disposed <= ConflictKeys(v.groups) && (proven ==> stuck)
    ensures Covers(r, v, taken, keys, ConflictKeys(v.groups), stuck)
  {
  }

  // ---- passable sets are taken by passing contexts -----------------------

  /** Why an item of the witness is selected. */
  ghost function Because(plan: Plan, n: nat, held: set<Item>, t: set<Item>, i: Item): set<string>
    requires n < |plan.requirements|
  {
    (if i in held then {plan.requirements[0].id} else {}) + (if i in t then {plan.requirements[n].id} else {})
  }

  /** The witness: `held` bound to the first requirement, `t` to this one. */
  ghost function BindAll(plan: Plan, n: nat, held: set<Item>, t: set<Item>, xs: seq<Item>): seq<Selected>
    requires n < |plan.requirements|
  {
    seq(|xs|, k requires 0 <= k < |xs| => Selected(xs[k], Because(plan, n, held, t, xs[k])))
  }

  lemma BoundReads(plan: Plan, n: nat, v: View, held: set<Item>, t: set<Item>, xs: seq<Item>)
    requires Setting(plan, n, v, held) && t <= Elems(ViewItems(v.groups))
    requires NoDup(xs) && Elems(xs) == held + t
    ensures var selected, rid := BindAll(plan, n, held, t, xs), plan.requirements[n].id;
      && ItemsOf(selected) == xs && TakenBy(selected, rid) == t && NoDup(BoundTo(selected, rid))
      && Elems(BoundToAny(selected, EarlierIds(plan, n))) == held
  {
    var selected, rid := BindAll(plan, n, held, t, xs), plan.requirements[n].id;
    ItemsOfAt(selected);
    InElems(xs);
    IdsApart(xs);
    BoundToDistinct(selected, rid);
    forall i ensures i in TakenBy(selected, rid) <==> i in t { BoundToMember(plan, n, held, t, xs, i); }
    forall i ensures i in Elems(BoundToAny(selected, EarlierIds(plan, n))) <==> i in held {
      BoundToMember(plan, n, held, t, xs, i);
    }
  }

  lemma IdsApart(xs: seq<Item>)
    requires NoDup(xs) && IdsDistinct(Elems(xs))
    ensures forall i, j | 0 <= i < j < |xs| :: xs[i].id != xs[j].id
  {
    forall i, j | 0 <= i < j < |xs| ensures xs[i].id != xs[j].id { assert xs[i] in Elems(xs) && xs[j] in Elems(xs); }
  }

  lemma BoundToMember(plan: Plan, n: nat, held: set<Item>, t: set<Item>, xs: seq<Item>, i: Item)
    requires n < |plan.requirements| && plan.Valid() && (n == 0 ==> held == {}) && Elems(xs) == held + t
    ensures var selected := BindAll(plan, n, held, t, xs);
      && (i in BoundTo(selected, plan.requirements[n].id) <==> i in t)
      && (i in BoundToAny(selected, EarlierIds(plan, n)) <==> i in held)
  {
    hide BoundTo, BoundToAny;
    var selected, rid := BindAll(plan, n, held, t, xs), plan.requirements[n].id;
    InBoundTo(selected, rid, i);
    InBoundToAny(selected, EarlierIds(plan, n), i);
    NotEarlier(plan, n);
    FirstIsEarlier(plan, n);
    if i in held + t {
      var k :| 0 <= k < |xs| && xs[k] == i by { assert i in Elems(xs); }
      assert selected[k] in selected && selected[k].item == i;
    }
    forall s | s in selected ensures s.item in held + t && s.because == Because(plan, n, held, t, s.item) {
      var k :| 0 <= k < |xs| && selected[k] == s;
      assert xs[k] in Elems(xs);
    }
  }

  lemma FirstIsEarlier(plan: Plan, n: nat)
    requires n < |plan.requirements| && plan.Valid()
    ensures n > 0 ==>
      plan.requirements[0].id in EarlierIds(plan, n) && plan.requirements[0].id != plan.requirements[n].id
  {
    if n > 0 {
      assert plan.requirements[..n][0] == plan.requirements[0] && plan.requirements[0] in plan.requirements[..n];
    }
  }

  /** With a shortfall and every key recorded, only the ceilings are left of the budget check. */
  lemma CeilingsOnly(ctx: Context, plan: Plan, n: nat, v: View, held: set<Item>)
    requires n < |plan.requirements| && NoDup(BoundTo(ctx.selected, plan.requirements[n].id))
    requires Fits(plan, n, held, TakenBy(ctx.selected, plan.requirements[n].id))
    requires ShortfallRecorded(ctx.unknowns, plan.requirements[n].id)
    requires plan.requirements[n].requiredKeys <= MissingRecorded(ctx.unknowns, plan.requirements[n].id)
    ensures BudgetAt(ctx, plan, n, v).None?
  {
    hide SumCost, BoundTo, SetCost, DisposedKeys, ShortfallRecorded, MissingRecorded, KeysOf, NoDup, Elems;
    var r := plan.requirements[n];
    CostOfList(BoundTo(ctx.selected, r.id));
    var keys, disposed := KeysOf(BoundTo(ctx.selected, r.id)), DisposedKeys(ctx.unknowns, r.id, v);
    assert r.requiredKeys - keys - disposed - MissingRecorded(ctx.unknowns, r.id) == {};
  }

  lemma WitnessCovers(plan: Plan, n: nat, v: View, held: set<Item>, t: set<Item>, selected: seq<Selected>)
    requires Setting(plan, n, v, held) && Passable(plan, n, v, held, t)
    requires TakenBy(selected, plan.requirements[n].id) == t
    requires Elems(BoundToAny(selected, EarlierIds(plan, n))) == held
    ensures CoverageClean(Context(selected, BestUnknowns(selected, plan, n, v)), plan, n, v)
  {
    var r, ctx := plan.requirements[n], Context(selected, BestUnknowns(selected, plan, n, v));
    hide CoverageClean, StopProven, FirstHasNoRoom, Fits, Stuck, Covers, FrontierOf, TakenBy, BoundToAny, EarlierIds,
      DisposedKeys, ConflictKeys, TakenIds, KeysOf, IdsDistinct, NoDup, BestUnknowns;
    SettingFacts(plan, n, v, held);
    BestUnknownsRead(selected, plan, n, v);
    CleanMeans(ctx, plan, n, v);
    TakenIdsAre(ctx, r.id);
    StuckIff(plan, n, v, held, selected, t);
    CoversItems(plan, n, v, held, t, Stuck(plan, n, v, held, t));
  }

  lemma PassablePasses(plan: Plan, n: nat, v: View, held: set<Item>, t: set<Item>) returns (ctx: Context)
    requires Setting(plan, n, v, held) && Passable(plan, n, v, held, t)
    ensures Carries(ctx, plan, n, v, held) && PassesChecks(ctx, plan, n, v)
    ensures TakenBy(ctx.selected, plan.requirements[n].id) == t
    ensures exists xs: seq<Item> :: Elems(xs) == held + t && ctx.selected == BindAll(plan, n, held, t, xs)
    ensures ctx.unknowns == BestUnknowns(ctx.selected, plan, n, v)
  {
    var r := plan.requirements[n];
    var xs := SetAsSeq(held + t);
    var selected := BindAll(plan, n, held, t, xs);
    ctx := Context(selected, BestUnknowns(selected, plan, n, v));
    BoundReads(plan, n, v, held, t, xs);
    CostOfList(xs);
    InElems(BoundTo(selected, r.id));
    hide BindAll, BestUnknowns, CoverageClean, BudgetAt, Stuck, Setting, BoundToAny, BoundTo, EarlierIds, ItemsOf,
      SumCost, SetCost;
    WitnessCovers(plan, n, v, held, t, selected);
    BestUnknownsRecord(selected, plan, n, v);
    CeilingsOnly(ctx, plan, n, v, held);
  }

  // ---- prefixes ----------------------------------------------------------

  ghost predicate IsPrefix(f: seq<Item>, t: set<Item>)
  {
    exists k: nat :: k <= |f| && t == Elems(f[..k])
  }

  lemma TakesPrefixIff(ctx: Context, plan: Plan, n: nat, v: View, held: set<Item>)
    requires Setting(plan, n, v, held) && Genuine(ctx, plan.requirements[n], v)
    ensures var r := plan.requirements[n];
      TakesPrefix(ctx, r, v) <==> IsPrefix(FrontierOf(r, v), TakenBy(ctx.selected, r.id))
  {
    hide FrontierOf;
    var r := plan.requirements[n];
    var f, t := FrontierOf(r, v), TakenBy(ctx.selected, r.id);
    FrontierInView(plan, n, v, held);
    TakenIdsAre(ctx, r.id);
    forall k: nat | k <= |f| ensures TakenIds(ctx, r.id) == IdsOf(f[..k]) <==> t == Elems(f[..k]) {
      assert IdsOf(f[..k]) == ItemIds(Elems(f[..k])) && Elems(f[..k]) <= Elems(f);
      SettingFacts(plan, n, v, held);
      IdsAsItems(Elems(ViewItems(v.groups)), t, Elems(f[..k]));
      IdsAsItems(Elems(ViewItems(v.groups)), Elems(f[..k]), t);
    }
  }

  /** Every context that passes with `held` taken before takes a prefix. */
  ghost predicate ForcesPrefix(plan: Plan, n: nat, v: View, held: set<Item>)
    requires n < |plan.requirements|
  {
    forall ctx | Carries(ctx, plan, n, v, held) && PassesChecks(ctx, plan, n, v) ::
      TakesPrefix(ctx, plan.requirements[n], v)
  }

  /** That is a statement about sets of items. */
  lemma ForcesPrefixIff(plan: Plan, n: nat, v: View, held: set<Item>)
    requires Setting(plan, n, v, held)
    ensures ForcesPrefix(plan, n, v, held) <==>
      forall t | Passable(plan, n, v, held, t) :: IsPrefix(FrontierOf(plan.requirements[n], v), t)
  {
    var r := plan.requirements[n];
    hide Passable, IsPrefix, FrontierOf, TakesPrefix, PassesChecks, TakenBy, BindAll, BestUnknowns, BoundToAny;
    if ForcesPrefix(plan, n, v, held) {
      forall t | Passable(plan, n, v, held, t) ensures IsPrefix(FrontierOf(r, v), t) {
        var ctx := PassablePasses(plan, n, v, held, t);
        TakesPrefixIff(ctx, plan, n, v, held);
      }
    }
    if forall t | Passable(plan, n, v, held, t) :: IsPrefix(FrontierOf(r, v), t) {
      forall ctx | Carries(ctx, plan, n, v, held) && PassesChecks(ctx, plan, n, v) ensures TakesPrefix(ctx, r, v) {
        PassesIsPassable(ctx, plan, n, v, held);
        TakesPrefixIff(ctx, plan, n, v, held);
      }
    }
  }

  lemma GapIsNoPrefix(f: seq<Item>, t: set<Item>, j: nat, q: nat)
    requires NoDup(f) && j < q < |f| && f[j] !in t && f[q] in t
    ensures !IsPrefix(f, t)
  {
    forall k: nat | k <= |f| ensures t != Elems(f[..k]) {
      if k > j { assert f[..k][j] == f[j]; } else { NotBefore(f, k, q); }
    }
  }

  lemma NotBefore(f: seq<Item>, k: nat, q: nat)
    requires NoDup(f) && k <= q < |f|
    ensures f[q] !in Elems(f[..k])
  {
  }

  lemma PrefixNext(f: seq<Item>, j: nat)
    requires j < |f|
    ensures Elems(f[..j + 1]) == Elems(f[..j]) + {f[j]}
  {
    assert f[..j + 1] == f[..j] + [f[j]];
  }

  lemma PrefixesGrow(f: seq<Item>, j: nat, k: nat)
    requires j <= k <= |f|
    ensures Elems(f[..j]) <= Elems(f[..k]) <= Elems(f)
  {
    assert forall i | 0 <= i < j :: f[..j][i] == f[..k][i];
  }

  /** Some frontier item fits alone, and not on top of everything before it. */
  ghost predicate SpareRoom(plan: Plan, n: nat, held: set<Item>, f: seq<Item>)
    requires n < |plan.requirements|
  {
    exists q: nat :: FitsAloneOnly(plan, n, held, f, q)
  }

  ghost predicate FitsAloneOnly(plan: Plan, n: nat, held: set<Item>, f: seq<Item>, q: nat)
    requires n < |plan.requirements|
  {
    q < |f| && Fits(plan, n, held, {f[q]}) && !Fits(plan, n, held, Elems(f[..q + 1]))
  }

  /** How far the frontier fits next to an item further on. */
  lemma GreedyBeside(plan: Plan, n: nat, held: set<Item>, f: seq<Item>, q: nat) returns (j: nat)
    requires n < |plan.requirements| && FitsAloneOnly(plan, n, held, f, q)
    ensures j < q && Fits(plan, n, held, Elems(f[..j]) + {f[q]})
    ensures !Fits(plan, n, held, Elems(f[..j + 1]) + {f[q]})
  {
    hide Fits;
    j := 0;
    assert Elems(f[..0]) + {f[q]} == {f[q]};
    PrefixNext(f, q);
    while j < q && Fits(plan, n, held, Elems(f[..j + 1]) + {f[q]})
      invariant j <= q && Fits(plan, n, held, Elems(f[..j]) + {f[q]})
    {
      j := j + 1;
    }
  }

  lemma BesideTake(plan: Plan, n: nat, held: set<Item>, f: seq<Item>, q: nat) returns (t: set<Item>, j: nat)
    requires n < |plan.requirements| && NoDup(f) && FitsAloneOnly(plan, n, held, f, q)
    ensures t <= Elems(f) && |t| < |f| && Fits(plan, n, held, t) && !IsPrefix(f, t)
    ensures FirstLeft(f, t, j) && !Fits(plan, n, held, t * Elems(f) + {f[j]})
  {
    hide Fits, IsPrefix, NoDup;
    j := GreedyBeside(plan, n, held, f, q);
    t := Elems(f[..j]) + {f[q]};
    BesideFacts(f, j, q);
    PrefixNext(f, j);
    assert t * Elems(f) + {f[j]} == Elems(f[..j + 1]) + {f[q]} by { assert t * Elems(f) == t; }
    GapIsNoPrefix(f, t, j, q);
  }

  /** Taking that item and what fits beside it is stuck, and no prefix. */
  lemma SpareRoomTake(plan: Plan, n: nat, v: View, held: set<Item>, q: nat) returns (t: set<Item>)
    requires Setting(plan, n, v, held) && FitsAloneOnly(plan, n, held, FrontierOf(plan.requirements[n], v), q)
    ensures var f := FrontierOf(plan.requirements[n], v);
      && t <= Elems(f) && |t| < |f| && Fits(plan, n, held, t) && Stuck(plan, n, v, held, t) && !IsPrefix(f, t)
  {
    var f := FrontierOf(plan.requirements[n], v);
    hide Fits, FrontierOf, Setting, NoDup, IsPrefix, FirstLeft, Elems, FitsAloneOnly;
    FrontierInView(plan, n, v, held);
    var j;
    t, j := BesideTake(plan, n, held, f, q);
    StuckAt(plan, n, v, held, t, j);
  }

  lemma BesideFacts(f: seq<Item>, j: nat, q: nat)
    requires NoDup(f) && j < q < |f|
    ensures var t := Elems(f[..j]) + {f[q]};
      t <= Elems(f) && |t| < |f| && FirstLeft(f, t, j)
  {
    var t := Elems(f[..j]) + {f[q]};
    PrefixesGrow(f, j, j);
    NotBefore(f, j, j);
    NoDupCard(f);
    assert forall i | 0 <= i < j :: f[i] in f[..j];
    assert f[j] in Elems(f) && f[j] !in t && f[q] in Elems(f);
    SubsetCard(t, Elems(f));
  }

  /** The longest prefix that fits. */
  lemma LongestFit(plan: Plan, n: nat, held: set<Item>, f: seq<Item>) returns (p: nat)
    requires n < |plan.requirements| && Fits(plan, n, held, {})
    ensures p <= |f| && Fits(plan, n, held, Elems(f[..p]))
    ensures p < |f| ==> !Fits(plan, n, held, Elems(f[..p + 1]))
  {
    hide Fits;
    p := 0;
    assert Elems(f[..0]) == {};
    while p < |f| && Fits(plan, n, held, Elems(f[..p + 1]))
      invariant p <= |f| && Fits(plan, n, held, Elems(f[..p]))
    {
      p := p + 1;
    }
  }

  /** Without spare room, what fits of the frontier lies within its longest fitting prefix. */
  lemma TakenWithin(plan: Plan, n: nat, held: set<Item>, f: seq<Item>, t: set<Item>, p: nat)
    requires n < |plan.requirements| && !SpareRoom(plan, n, held, f) && Fits(plan, n, held, t)
    requires p <= |f| && (p < |f| ==> !Fits(plan, n, held, Elems(f[..p + 1])))
    ensures t * Elems(f) <= Elems(f[..p])
  {
    hide Fits;
    forall x | x in t * Elems(f) ensures x in Elems(f[..p]) {
      var q: nat :| q < |f| && f[q] == x;
      LessFits(plan, n, held, {x}, t);
      assert !FitsAloneOnly(plan, n, held, f, q);
      if p <= q {
        PrefixesGrow(f, p + 1, q + 1);
        LessFits(plan, n, held, Elems(f[..p + 1]), Elems(f[..q + 1]));
        assert false;
      }
      assert f[..p][q] == x;
    }
  }

  /** So a stuck requirement took exactly that prefix of its frontier. */
  lemma StuckAtLongest(plan: Plan, n: nat, v: View, held: set<Item>, t: set<Item>, p: nat)
    requires Setting(plan, n, v, held) && Fits(plan, n, held, t) && Stuck(plan, n, v, held, t)
    requires !SpareRoom(plan, n, held, FrontierOf(plan.requirements[n], v))
    requires p <= |FrontierOf(plan.requirements[n], v)|
    requires Fits(plan, n, held, Elems(FrontierOf(plan.requirements[n], v)[..p]))
    requires p < |FrontierOf(plan.requirements[n], v)| ==>
      !Fits(plan, n, held, Elems(FrontierOf(plan.requirements[n], v)[..p + 1]))
    ensures p < |FrontierOf(plan.requirements[n], v)|
    ensures t * Elems(FrontierOf(plan.requirements[n], v)) == Elems(FrontierOf(plan.requirements[n], v)[..p])
  {
    var f := FrontierOf(plan.requirements[n], v);
    hide Fits, FrontierOf, Setting, SpareRoom;
    TakenWithin(plan, n, held, f, t, p);
    var j: nat :| FirstLeft(f, t, j) && !Fits(plan, n, held, t * Elems(f) + {f[j]});
    hide Stuck;
    if j < p {
      assert f[..p][j] in f[..p];
      LessFits(plan, n, held, t * Elems(f) + {f[j]}, Elems(f[..p]));
      assert false;
    }
    forall x | x in Elems(f[..p]) ensures x in t * Elems(f) {
      var i :| 0 <= i < p && f[..p][i] == x;
      assert f[i] == x && f[i] in f;
    }
  }

  // ---- all eligible ------------------------------------------------------

  /** All eligible: a prefix is forced exactly when no item that fits alone lies past where the frontier stops. */
  lemma AllEligibleForcesPrefixIff(plan: Plan, n: nat, v: View, held: set<Item>)
    requires Setting(plan, n, v, held) && plan.requirements[n].coverage.AllEligible?
    ensures ForcesPrefix(plan, n, v, held) <==> !SpareRoom(plan, n, held, FrontierOf(plan.requirements[n], v))
  {
    var r := plan.requirements[n];
    var f := FrontierOf(r, v);
    SettingFacts(plan, n, v, held);
    FrontierIsView(r, v);
    assert Elems(f) == Elems(ViewItems(v.groups));
    hide Fits, FrontierOf, Setting, Stuck, IsPrefix, ForcesPrefix, Distinct, NoDup;
    ForcesPrefixIff(plan, n, v, held);
    if SpareRoom(plan, n, held, f) {
      var q: nat :| FitsAloneOnly(plan, n, held, f, q);
      var t := SpareRoomTake(plan, n, v, held, q);
      assert Passable(plan, n, v, held, t);
    } else {
      forall t | Passable(plan, n, v, held, t) ensures IsPrefix(f, t) {
        if t == Elems(f) { WholeIsPrefix(f); }
        else { StuckIsPrefix(plan, n, v, held, t); }
      }
    }
  }

  lemma WholeIsPrefix(f: seq<Item>)
    ensures IsPrefix(f, Elems(f))
  {
    assert f[..|f|] == f;
  }

  lemma StuckIsPrefix(plan: Plan, n: nat, v: View, held: set<Item>, t: set<Item>)
    requires Setting(plan, n, v, held) && Fits(plan, n, held, t) && Stuck(plan, n, v, held, t)
    requires !SpareRoom(plan, n, held, FrontierOf(plan.requirements[n], v))
    requires t <= Elems(FrontierOf(plan.requirements[n], v))
    ensures IsPrefix(FrontierOf(plan.requirements[n], v), t)
  {
    var f := FrontierOf(plan.requirements[n], v);
    hide Fits, FrontierOf, Setting, SpareRoom, Stuck;
    LessFits(plan, n, held, {}, t);
    var p := LongestFit(plan, n, held, f);
    StuckAtLongest(plan, n, v, held, t, p);
    assert t * Elems(f) == t;
  }

  // ---- semantic keys -----------------------------------------------------

  ghost predicate KeysDistinct(f: seq<Item>)
  {
    forall i, j | 0 <= i < j < |f| :: f[i].key != f[j].key
  }

  /** A prefix that fits covers every requested key that is offered, one of them twice. */
  ghost predicate SpareKey(plan: Plan, n: nat, held: set<Item>, f: seq<Item>)
    requires n < |plan.requirements|
  {
    exists k: nat :: CoversTwice(plan, n, held, f, k)
  }

  ghost predicate CoversTwice(plan: Plan, n: nat, held: set<Item>, f: seq<Item>, k: nat)
    requires n < |plan.requirements|
  {
    && k <= |f| && Fits(plan, n, held, Elems(f[..k]))
    && KeysIn(Elems(f)) <= KeysIn(Elems(f[..k])) && !KeysDistinct(f[..k])
  }

  /** Leaving the earlier of the two covers every key still, and is no prefix. */
  lemma SpareKeyTake(plan: Plan, n: nat, held: set<Item>, f: seq<Item>, k: nat) returns (t: set<Item>)
    requires n < |plan.requirements| && NoDup(f) && CoversTwice(plan, n, held, f, k)
    ensures t <= Elems(f) && Fits(plan, n, held, t) && KeysIn(Elems(f)) <= KeysIn(t) && !IsPrefix(f, t)
  {
    hide Fits, IsPrefix;
    var i, j :| 0 <= i < j < k && f[..k][i].key == f[..k][j].key;
    t := Elems(f[..k]) - {f[i]};
    LessFits(plan, n, held, t, Elems(f[..k]));
    PrefixesGrow(f, k, k);
    assert f[..k][j] in f[..k] && f[j] in t;
    forall key | key in KeysIn(Elems(f)) ensures key in KeysIn(t) {
      var x :| x in Elems(f[..k]) && x.key == key;
      if x == f[i] { assert f[j] in t && f[j].key == key; } else { assert x in t; }
    }
    GapIsNoPrefix(f, t, i, j);
  }

  /** Where a covering choice lies within a prefix of distinct keys, it is that prefix. */
  lemma CoversAll(f: seq<Item>, t: set<Item>, p: nat)
    requires p <= |f| && t <= Elems(f[..p]) && KeysIn(Elems(f)) <= KeysIn(t) && KeysDistinct(f[..p])
    ensures IsPrefix(f, t)
  {
    forall x | x in Elems(f[..p]) ensures x in t {
      PrefixesGrow(f, p, p);
      assert x.key in KeysIn(Elems(f));
      var y :| y in t && y.key == x.key;
      var i :| 0 <= i < p && f[..p][i] == x;
      var j :| 0 <= j < p && f[..p][j] == y;
      assert i == j;
    }
    assert t == Elems(f[..p]);
  }

  lemma CoveringIsPrefix(plan: Plan, n: nat, held: set<Item>, f: seq<Item>, t: set<Item>)
    requires n < |plan.requirements| && t <= Elems(f) && Fits(plan, n, held, t) && KeysIn(Elems(f)) <= KeysIn(t)
    requires !SpareRoom(plan, n, held, f) && !SpareKey(plan, n, held, f)
    ensures IsPrefix(f, t)
  {
    hide Fits, SpareRoom, IsPrefix;
    LessFits(plan, n, held, {}, t);
    var p := LongestFit(plan, n, held, f);
    TakenWithin(plan, n, held, f, t, p);
    assert t * Elems(f) == t;
    KeysGrow(t, Elems(f[..p]));
    assert !CoversTwice(plan, n, held, f, p);
    CoversAll(f, t, p);
  }

  lemma KeysGrow(s: set<Item>, t: set<Item>)
    requires s <= t
    ensures KeysIn(s) <= KeysIn(t)
  {
  }

  /** Semantic keys: exactly when, besides, no fitting prefix covers the keys with one to spare. */
  lemma SemanticKeysForcePrefixIff(plan: Plan, n: nat, v: View, held: set<Item>)
    requires Setting(plan, n, v, held) && plan.requirements[n].coverage.SemanticKeys?
    ensures var f := FrontierOf(plan.requirements[n], v);
      ForcesPrefix(plan, n, v, held) <==> !SpareRoom(plan, n, held, f) && !SpareKey(plan, n, held, f)
  {
    var r := plan.requirements[n];
    var f := FrontierOf(r, v);
    FrontierInView(plan, n, v, held);
    hide Fits, FrontierOf, Setting, Stuck, IsPrefix, ForcesPrefix, NoDup;
    ForcesPrefixIff(plan, n, v, held);
    if SpareRoom(plan, n, held, f) {
      var q: nat :| FitsAloneOnly(plan, n, held, f, q);
      var t := SpareRoomTake(plan, n, v, held, q);
      assert Passable(plan, n, v, held, t);
    } else if SpareKey(plan, n, held, f) {
      var k: nat :| CoversTwice(plan, n, held, f, k);
      var t := SpareKeyTake(plan, n, held, f, k);
      assert Passable(plan, n, v, held, t);
    } else {
      forall t | Passable(plan, n, v, held, t) ensures IsPrefix(f, t) {
        if Stuck(plan, n, v, held, t) { StuckIsPrefix(plan, n, v, held, t); }
        else { CoveringIsPrefix(plan, n, held, f, t); }
      }
    }
  }

  // ---- minimum -----------------------------------------------------------

  /** An eligible item past the frontier fits where the frontier stops. */
  ghost predicate SpareBeyond(plan: Plan, n: nat, v: View, held: set<Item>)
    requires n < |plan.requirements|
  {
    exists k: nat, x :: FitsBeyond(plan, n, v, held, k, x)
  }

  ghost predicate FitsBeyond(plan: Plan, n: nat, v: View, held: set<Item>, k: nat, x: Item)
    requires n < |plan.requirements|
  {
    var f := FrontierOf(plan.requirements[n], v);
    && k < |f| && x in ViewItems(v.groups) && x !in f
    && Fits(plan, n, held, Elems(f[..k]) + {x}) && !Fits(plan, n, held, Elems(f[..k + 1]))
  }

  /** As many eligible items as asked for, but not the first ones, fit. */
  ghost predicate OtherEnough(plan: Plan, n: nat, v: View, held: set<Item>)
    requires n < |plan.requirements|
  {
    exists t :: EnoughOthers(plan, n, v, held, t)
  }

  ghost predicate EnoughOthers(plan: Plan, n: nat, v: View, held: set<Item>, t: set<Item>)
    requires n < |plan.requirements|
  {
    var f := FrontierOf(plan.requirements[n], v);
    t <= Elems(ViewItems(v.groups)) && |t| == |f| && t != Elems(f) && Fits(plan, n, held, t)
  }

  lemma BeyondFacts(f: seq<Item>, k: nat, x: Item)
    requires NoDup(f) && k < |f| && x !in f
    ensures var t := Elems(f[..k]) + {x};
      |t| <= |f| && FirstLeft(f, t, k) && t * Elems(f) == Elems(f[..k]) && !IsPrefix(f, t)
  {
    var t := Elems(f[..k]) + {x};
    PrefixesGrow(f, k, k);
    NoDupCard(f[..k]);
    NotBefore(f, k, k);
    assert forall i | 0 <= i < k :: f[i] in f[..k];
    forall m: nat | m <= |f| ensures t != Elems(f[..m]) { PrefixesGrow(f, m, m); assert x in t; }
  }

  lemma BeyondTake(plan: Plan, n: nat, v: View, held: set<Item>, k: nat, x: Item) returns (t: set<Item>)
    requires Setting(plan, n, v, held) && FitsBeyond(plan, n, v, held, k, x)
    ensures var f := FrontierOf(plan.requirements[n], v);
      && t <= Elems(ViewItems(v.groups)) && |t| <= |f| && Fits(plan, n, held, t) && Stuck(plan, n, v, held, t)
      && !IsPrefix(f, t)
  {
    var f := FrontierOf(plan.requirements[n], v);
    FrontierInView(plan, n, v, held);
    hide Fits, FrontierOf, Setting, Stuck, IsPrefix, FirstLeft, NoDup, ViewItems;
    t := Elems(f[..k]) + {x};
    BeyondFacts(f, k, x);
    PrefixesGrow(f, k, k);
    StuckAt(plan, n, v, held, t, k);
    PrefixNext(f, k);
  }

  lemma WholeSizePrefix(f: seq<Item>, t: set<Item>)
    requires NoDup(f) && IsPrefix(f, t) && |t| == |f|
    ensures t == Elems(f)
  {
    var k: nat :| k <= |f| && t == Elems(f[..k]);
    NoDupCard(f[..k]);
    assert f[..|f|] == f;
  }

  lemma BeyondIsSpare(plan: Plan, n: nat, v: View, held: set<Item>, k: nat, x: Item)
    requires n < |plan.requirements| && FitsBeyond(plan, n, v, held, k, x)
    ensures SpareBeyond(plan, n, v, held)
  {
  }

  /** With no room beyond the frontier, what a stuck requirement took is on it. */
  lemma NothingBeyond(plan: Plan, n: nat, v: View, held: set<Item>, t: set<Item>, p: nat, x: Item)
    requires n < |plan.requirements| && x in t && x in ViewItems(v.groups) && Fits(plan, n, held, t)
    requires var f := FrontierOf(plan.requirements[n], v);
      p < |f| && Elems(f[..p]) <= t && !Fits(plan, n, held, Elems(f[..p + 1]))
    requires !SpareBeyond(plan, n, v, held)
    ensures x in Elems(FrontierOf(plan.requirements[n], v))
  {
    var f := FrontierOf(plan.requirements[n], v);
    hide Fits, FrontierOf, SpareBeyond, ViewItems;
    LessFits(plan, n, held, Elems(f[..p]) + {x}, t);
    if x !in Elems(f) { BeyondIsSpare(plan, n, v, held, p, x); }
  }

  lemma PrefixIsPrefix(f: seq<Item>, p: nat)
    requires p <= |f|
    ensures IsPrefix(f, Elems(f[..p]))
  {
  }

  lemma EnoughOrStuck(plan: Plan, n: nat, v: View, held: set<Item>, t: set<Item>)
    requires Setting(plan, n, v, held) && t <= Elems(ViewItems(v.groups)) && Fits(plan, n, held, t)
    requires !SpareRoom(plan, n, held, FrontierOf(plan.requirements[n], v))
    requires !SpareBeyond(plan, n, v, held) && Stuck(plan, n, v, held, t)
    ensures IsPrefix(FrontierOf(plan.requirements[n], v), t)
  {
    var f := FrontierOf(plan.requirements[n], v);
    hide Fits, FrontierOf, Setting, SpareRoom, SpareBeyond, Stuck, ViewItems;
    LessFits(plan, n, held, {}, t);
    var p := LongestFit(plan, n, held, f);
    StuckAtLongest(plan, n, v, held, t, p);
    hide IsPrefix;
    forall x | x in t ensures x in Elems(f) { NothingBeyond(plan, n, v, held, t, p, x); }
    assert t * Elems(f) == t;
    PrefixIsPrefix(f, p);
  }

  /**
   Minimum: exactly when, besides, no eligible item past the frontier fits where it
   stops, and no other eligible items of the number asked for fit.
   */
  lemma MinimumForcesPrefixIff(plan: Plan, n: nat, v: View, held: set<Item>)
    requires Setting(plan, n, v, held) && plan.requirements[n].coverage.Minimum?
    ensures ForcesPrefix(plan, n, v, held) <==>
      && !SpareRoom(plan, n, held, FrontierOf(plan.requirements[n], v))
      && !SpareBeyond(plan, n, v, held) && !OtherEnough(plan, n, v, held)
  {
    var r := plan.requirements[n];
    var f := FrontierOf(r, v);
    FrontierInView(plan, n, v, held);
    SettingFacts(plan, n, v, held);
    MinimumFrontier(r, v);
    assert |f| == Expected(r, ViewItems(v.groups));
    hide Fits, FrontierOf, Setting, Stuck, IsPrefix, ForcesPrefix, NoDup, Sort, Distinct, ViewItems;
    ForcesPrefixIff(plan, n, v, held);
    if SpareRoom(plan, n, held, f) {
      var q: nat :| FitsAloneOnly(plan, n, held, f, q);
      var t := SpareRoomTake(plan, n, v, held, q);
      assert Passable(plan, n, v, held, t);
    } else if SpareBeyond(plan, n, v, held) {
      var k: nat, x :| FitsBeyond(plan, n, v, held, k, x);
      var t := BeyondTake(plan, n, v, held, k, x);
      assert Passable(plan, n, v, held, t);
    } else if OtherEnough(plan, n, v, held) {
      var t :| EnoughOthers(plan, n, v, held, t);
      assert Passable(plan, n, v, held, t);
      if IsPrefix(f, t) { WholeSizePrefix(f, t); }
    } else {
      forall t | Passable(plan, n, v, held, t) ensures IsPrefix(f, t) {
        if Stuck(plan, n, v, held, t) { EnoughOrStuck(plan, n, v, held, t); }
        else { assert !EnoughOthers(plan, n, v, held, t); WholeIsPrefix(f); }
      }
    }
  }

  lemma ResolvedIsSetting(plan: Plan, cands: seq<Item>, n: nat, v: View)
    requires plan.Valid() && n < |plan.requirements| && WellIdentified(Elems(cands))
    requires Resolves(Eligible(cands, plan.requirements[n]), v)
    ensures Setting(plan, n, v, {})
  {
    hide Resolves, WellIdentified;
    ResolvedIsDistinct(cands, plan.requirements[n], v);
    ResolvedKeysApart(cands, plan.requirements[n], v);
    assert {} + Elems(ViewItems(v.groups)) == Elems(ViewItems(v.groups));
  }
}
