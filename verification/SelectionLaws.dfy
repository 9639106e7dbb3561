/**
 What a run of the selector keeps: which requirement admitted what, the books
 it keeps on items and bytes, and that it takes the longest prefix that fits.
 */
module SelectionLaws {
  import opened Base
  import opened ContextModel
  import opened Reachability
  import opened Resolution
  import opened ResolutionLaws
  import opened Selection
  import opened ContextCompiler

  function IdsOf(items: seq<Item>): set<string> { set i | i in items :: i.id }

  lemma IdsSnoc(init: seq<Item>, last: Item)
    ensures IdsOf(init + [last]) == IdsOf(init) + {last.id}
  {
  }

  // ---- what admitting a list does ----------------------------------------

  /** The reasons recorded for an identity, none if it is not selected. */
  function ReasonsFor(st: State, id: string): set<string>
  {
    if id in st.reasons then st.reasons[id] else {}
  }

  /** Admission adds identities, keeps earlier carriers and records the reason. */
  ghost predicate Admits(st: State, items: seq<Item>, rid: string, after: State)
  {
    && after.byItem.Keys == st.byItem.Keys + IdsOf(items)
    && after.reasons.Keys == st.reasons.Keys + IdsOf(items)
    && (forall id | id in st.byItem :: after.byItem[id] == st.byItem[id])
    && (forall id | id in after.byItem && id !in st.byItem :: after.byItem[id] in items)
    && AddsReason(st, IdsOf(items), rid, after)
  }

  ghost predicate AddsReason(st: State, ids: set<string>, rid: string, after: State)
  {
    forall id :: ReasonsFor(after, id) == ReasonsFor(st, id) + (if id in ids then {rid} else {})
  }

  lemma {:induction false} AdmitAllAdmits(st: State, items: seq<Item>, rid: string)
    ensures Admits(st, items, rid, AdmitAll(st, items, rid))
  {
    if items != [] {
      var init, last := items[..|items| - 1], items[|items| - 1];
      assert items == init + [last];
      AdmitAllAdmits(st, init, rid);
      IdsSnoc(init, last);
      AdmitToItems(st, init, last, rid, AdmitAll(st, init, rid));
      AdmitToReasons(st, IdsOf(init), last, rid, AdmitAll(st, init, rid));
    }
  }

  lemma AdmitToItems(st: State, init: seq<Item>, last: Item, rid: string, mid: State)
    requires mid.byItem.Keys == st.byItem.Keys + IdsOf(init) && mid.reasons.Keys == st.reasons.Keys + IdsOf(init)
    requires forall id | id in st.byItem :: mid.byItem[id] == st.byItem[id]
    requires forall id | id in mid.byItem && id !in st.byItem :: mid.byItem[id] in init
    ensures var after := AdmitTo(mid, last, rid);
      && after.byItem.Keys == st.byItem.Keys + (IdsOf(init) + {last.id})
      && after.reasons.Keys == st.reasons.Keys + (IdsOf(init) + {last.id})
      && (forall id | id in st.byItem :: after.byItem[id] == st.byItem[id])
      && (forall id | id in after.byItem && id !in st.byItem :: after.byItem[id] in init + [last])
  {
  }

  lemma AdmitToReasons(st: State, ids: set<string>, last: Item, rid: string, mid: State)
    requires AddsReason(st, ids, rid, mid)
    ensures AddsReason(st, ids + {last.id}, rid, AdmitTo(mid, last, rid))
  {
    var after := AdmitTo(mid, last, rid);
    forall id ensures ReasonsFor(after, id) == ReasonsFor(st, id) + (if id in ids + {last.id} then {rid} else {}) {
      assert ReasonsFor(mid, id) == ReasonsFor(st, id) + (if id in ids then {rid} else {});
      assert ReasonsFor(after, id) == ReasonsFor(mid, id) + (if id == last.id then {rid} else {});
    }
  }

  // ---- history -----------------------------------------------------------

  /** The identities each requirement admitted, in plan order. */
  ghost function Took(plan: Plan, t: Trace): seq<set<string>>
    requires |t.views| <= |plan.requirements| && |t.states| == |t.views| + 1
  {
    seq(|t.views|, n requires 0 <= n < |t.views| => IdsOf(TakenAt(plan, t, n)))
  }

  /** The requirement ids among the first `n` that took `id`. */
  ghost function TakersOf(reqs: seq<Requirement>, took: seq<set<string>>, n: nat, id: string): set<string>
    requires n <= |took| <= |reqs|
  {
    set m | 0 <= m < n && id in took[m] :: reqs[m].id
  }

  /** The selection after `n` requirements is exactly what they took, with exactly their reasons. */
  ghost predicate IsHistory(reqs: seq<Requirement>, took: seq<set<string>>, n: nat, st: State)
    requires n <= |took| <= |reqs|
  {
    && (forall id :: id in st.byItem <==> TakersOf(reqs, took, n, id) != {})
    && (forall id :: ReasonsFor(st, id) == TakersOf(reqs, took, n, id))
  }

  lemma TakersNext(reqs: seq<Requirement>, took: seq<set<string>>, n: nat, id: string)
    requires n < |took| <= |reqs|
    ensures TakersOf(reqs, took, n + 1, id) ==
      TakersOf(reqs, took, n, id) + (if id in took[n] then {reqs[n].id} else {})
  {
  }

  lemma StepAdmits(plan: Plan, cands: seq<Item>, t: Trace, n: nat)
    requires IsTrace(plan, cands, t) && n < |t.views|
    ensures InTrace(plan, t, n)
    ensures Admits(t.states[n], TakenAt(plan, t, n), plan.requirements[n].id, t.states[n + 1])
  {
    assert IsStep(cands, plan.budget, plan.requirements[n], t.views[n], t.states[n], t.states[n + 1]);
    AdmitAllAdmits(t.states[n], TakenAt(plan, t, n), plan.requirements[n].id);
  }

  lemma HistoryStep(reqs: seq<Requirement>, took: seq<set<string>>, n: nat, st: State, items: seq<Item>, after: State)
    requires n < |took| <= |reqs| && IsHistory(reqs, took, n, st)
    requires IdsOf(items) == took[n] && Admits(st, items, reqs[n].id, after)
    ensures IsHistory(reqs, took, n + 1, after)
  {
    hide TakersOf, ReasonsFor, IdsOf;
    forall id
      ensures ReasonsFor(after, id) == TakersOf(reqs, took, n + 1, id)
      ensures id in after.byItem <==> TakersOf(reqs, took, n + 1, id) != {} {
      TakersNext(reqs, took, n, id);
      assert id in st.byItem <==> TakersOf(reqs, took, n, id) != {};
    }
  }

  /** The selection at any point of a run is exactly what the requirements so far took. */
  lemma {:induction false} History(plan: Plan, cands: seq<Item>, t: Trace, n: nat)
    requires IsTrace(plan, cands, t) && n <= |t.views|
    ensures IsHistory(plan.requirements, Took(plan, t), n, t.states[n])
  {
    if n > 0 {
      History(plan, cands, t, n - 1);
      StepAdmits(plan, cands, t, n - 1);
      HistoryStep(plan.requirements, Took(plan, t), n - 1, t.states[n - 1], TakenAt(plan, t, n - 1), t.states[n]);
    }
  }

  // ---- one carrier per identity ------------------------------------------

  lemma FrontierWithin(r: Requirement, sorted: seq<Item>)
    requires NoDup(sorted)
    ensures NoDup(Frontier(r, sorted)) && forall i | i in Frontier(r, sorted) :: i in sorted
  {
  }

  lemma SortedWithin(items: seq<Item>)
    requires NoDup(items)
    ensures NoDup(Sort(CandLt, items)) && forall i :: i in Sort(CandLt, items) <==> i in items
  {
    var sorted := Sort(CandLt, items);
    SameMultisetSameElems(sorted, items);
    NoDupCard(items);
    NoDupCard(sorted);
    forall i ensures i in sorted <==> i in items { assert i in Elems(sorted) <==> i in Elems(items); }
  }

  /** A requirement admits distinct items of its own view. */
  lemma TakenFromView(cands: seq<Item>, r: Requirement, v: View)
    requires WellIdentified(Elems(cands)) && Resolves(Eligible(cands, r), v)
    ensures NoDup(FrontierOf(r, v)) && forall i | i in FrontierOf(r, v) :: i in ViewItems(v.groups)
  {
    EligibleIdentified(cands, r);
    ViewItemsDistinct(Eligible(cands, r), v);
    SortedWithin(ViewItems(v.groups));
    FrontierWithin(r, Sort(CandLt, ViewItems(v.groups)));
  }

  lemma TraceView(plan: Plan, cands: seq<Item>, t: Trace, n: nat)
    requires IsTrace(plan, cands, t) && n < |t.views|
    ensures Resolves(Eligible(cands, plan.requirements[n]), t.views[n])
  {
    assert IsStep(cands, plan.budget, plan.requirements[n], t.views[n], t.states[n], t.states[n + 1]);
  }

  /** `i` is offered by the view of some requirement of the trace. */
  ghost predicate Offers(plan: Plan, cands: seq<Item>, i: Item)
  {
    exists r, v :: r in plan.requirements && Resolves(Eligible(cands, r), v) && i in ViewItems(v.groups)
  }

  lemma OneCarrier(plan: Plan, cands: seq<Item>, x: Item, y: Item)
    requires WellIdentified(Elems(cands)) && Offers(plan, cands, x) && Offers(plan, cands, y) && x.id == y.id
    ensures x == y
  {
    var r, v :| r in plan.requirements && Resolves(Eligible(cands, r), v) && x in ViewItems(v.groups);
    var s, w :| s in plan.requirements && Resolves(Eligible(cands, s), w) && y in ViewItems(w.groups);
    SameCarrierEverywhere(cands, r, s, v, w, x, y);
  }

  lemma TakenOffered(plan: Plan, cands: seq<Item>, t: Trace, n: nat)
    requires WellIdentified(Elems(cands)) && IsTrace(plan, cands, t) && n < |t.views|
    ensures InTrace(plan, t, n) && NoDup(TakenAt(plan, t, n))
    ensures forall i | i in TakenAt(plan, t, n) :: Offers(plan, cands, i)
  {
    TraceView(plan, cands, t, n);
    TakenFromView(cands, plan.requirements[n], t.views[n]);
    forall i | i in TakenAt(plan, t, n) ensures Offers(plan, cands, i) {
      assert i in FrontierOf(plan.requirements[n], t.views[n]);
    }
  }

  /** Every carrier in the selection was offered by some view. */
  lemma {:induction false} SelectionOffered(plan: Plan, cands: seq<Item>, t: Trace, n: nat)
    requires WellIdentified(Elems(cands)) && IsTrace(plan, cands, t) && n <= |t.views|
    ensures forall id | id in t.states[n].byItem ::
      Offers(plan, cands, t.states[n].byItem[id]) && t.states[n].byItem[id].id == id
  {
    hide Offers, Resolves, TakenAt, IsStep;
    TraceKeys(plan, cands, t, n);
    if n > 0 {
      SelectionOffered(plan, cands, t, n - 1);
      StepAdmits(plan, cands, t, n - 1);
      TakenOffered(plan, cands, t, n - 1);
    }
  }

  // ---- the books ---------------------------------------------------------

  /** `xs` lists the selected items once each, and their costs add up to the recorded total. */
  ghost predicate Tallies(xs: seq<Item>, st: State)
  {
    && ListsCarriers(xs, st.byItem)
    && IdsOf(xs) == st.byItem.Keys
    && |xs| == |st.byItem|
    && SumCost(xs) == st.total
  }

  ghost predicate ListsCarriers(xs: seq<Item>, byItem: map<string, Item>)
  {
    NoDup(xs) && forall i | i in xs :: i.id in byItem && byItem[i.id] == i
  }

  lemma TallyStep(xs: seq<Item>, st: State, item: Item, rid: string) returns (ys: seq<Item>)
    requires Tallies(xs, st)
    ensures Tallies(ys, AdmitTo(st, item, rid))
  {
    ys := xs;
    if item.id !in st.byItem {
      ys := xs + [item];
      NewCarrier(xs, st.byItem, item);
      NewKeys(xs, st.byItem, item);
      NewCost(xs, item);
    }
  }

  lemma NewCost(xs: seq<Item>, item: Item)
    ensures SumCost(xs + [item]) == SumCost(xs) + item.cost
  {
    assert (xs + [item])[..|xs|] == xs;
  }

  lemma NewKeys(xs: seq<Item>, byItem: map<string, Item>, item: Item)
    requires item.id !in byItem && IdsOf(xs) == byItem.Keys
    ensures IdsOf(xs + [item]) == byItem[item.id := item].Keys && |byItem[item.id := item]| == |byItem| + 1
  {
    IdsSnoc(xs, item);
    assert byItem[item.id := item].Keys == byItem.Keys + {item.id};
  }

  lemma NewCarrier(xs: seq<Item>, byItem: map<string, Item>, item: Item)
    requires item.id !in byItem && ListsCarriers(xs, byItem)
    ensures ListsCarriers(xs + [item], byItem[item.id := item])
  {
    NoDupConcat(xs, [item]);
  }

  lemma {:induction false} TallyAll(xs: seq<Item>, st: State, items: seq<Item>, rid: string) returns (ys: seq<Item>)
    requires Tallies(xs, st)
    ensures Tallies(ys, AdmitAll(st, items, rid))
  {
    if items == [] {
      ys := xs;
    } else {
      var zs := TallyAll(xs, st, items[..|items| - 1], rid);
      ys := TallyStep(zs, AdmitAll(st, items[..|items| - 1], rid), items[|items| - 1], rid);
    }
  }

  /** After every requirement the total is the cost of the distinct items: a reused item is paid once. */
  lemma {:induction false} TallyTrace(plan: Plan, cands: seq<Item>, t: Trace, n: nat) returns (xs: seq<Item>)
    requires IsTrace(plan, cands, t) && n <= |t.views|
    ensures Tallies(xs, t.states[n])
  {
    if n == 0 {
      xs := [];
    } else {
      hide Tallies, AdmitAll, TakenAt, IsTrace;
      var before := TallyTrace(plan, cands, t, n - 1);
      StateAfter(plan, cands, t, n - 1);
      xs := TallyAll(before, t.states[n - 1], TakenAt(plan, t, n - 1), plan.requirements[n - 1].id);
    }
  }

  // ---- ceilings and the longest prefix -----------------------------------

  predicate WithinBudget(budget: Budget, st: State)
  {
    |st.byItem| <= budget.maxItems && st.total <= budget.maxBytes
  }

  /** Admitting the first `k` of the frontier keeps every ceiling. */
  predicate Fits(st: State, budget: Budget, r: Requirement, f: seq<Item>, k: nat)
    requires k <= |f|
  {
    && (r.maxItems.Some? ==> k <= r.maxItems.value)
    && (r.maxBytes.Some? ==> SumCost(f[..k]) <= r.maxBytes.value)
    && WithinBudget(budget, AdmitAll(st, f[..k], r.id))
  }

  lemma {:induction false} UnstoppedFits(st: State, budget: Budget, r: Requirement, f: seq<Item>, k: nat)
    requires k <= |f| && WithinBudget(budget, st)
    requires forall j | 0 <= j < k :: StopAt(st, budget, r, f, j).None?
    ensures Fits(st, budget, r, f, k)
  {
    if k > 0 {
      UnstoppedFits(st, budget, r, f, k - 1);
      UnstoppedStep(st, budget, r, f, k - 1);
    }
  }

  lemma UnstoppedStep(st: State, budget: Budget, r: Requirement, f: seq<Item>, k: nat)
    requires k < |f| && Fits(st, budget, r, f, k) && StopAt(st, budget, r, f, k).None?
    ensures Fits(st, budget, r, f, k + 1)
  {
    hide AdmitAll, SumCost, KeysOf;
    AdmitOneMore(st, f, k, r.id);
  }

  /** Once a prefix breaks a ceiling every longer one does. */
  lemma {:induction false} MisfitGrows(st: State, budget: Budget, r: Requirement, f: seq<Item>, j: nat, k: nat)
    requires j <= k <= |f| && !Fits(st, budget, r, f, j)
    ensures !Fits(st, budget, r, f, k)
  {
    hide AdmitAll, SumCost, KeysOf, Filter;
    if j < k {
      MisfitGrows(st, budget, r, f, j, k - 1);
      AdmitOneMore(st, f, k - 1, r.id);
    }
  }

  /** The selector takes the longest prefix of the canonical frontier that fits every ceiling. */
  lemma TakesLongestPrefixThatFits(st: State, budget: Budget, r: Requirement, f: seq<Item>)
    requires WithinBudget(budget, st)
    ensures Fits(st, budget, r, f, TakeFrom(st, budget, r, f, 0))
    ensures forall j | TakeFrom(st, budget, r, f, 0) < j <= |f| :: !Fits(st, budget, r, f, j)
  {
    var n := TakeFrom(st, budget, r, f, 0);
    UnstoppedFits(st, budget, r, f, n);
    if n < |f| {
      AdmitOneMore(st, f, n, r.id);
      assert StopAt(st, budget, r, f, n).Some?;
      assert !Fits(st, budget, r, f, n + 1);
      forall j | n < j <= |f| ensures !Fits(st, budget, r, f, j) { MisfitGrows(st, budget, r, f, n + 1, j); }
    }
  }

  /** Every selection along a run is within the global budget, and every requirement within its own. */
  lemma {:induction false} RunKeepsCeilings(plan: Plan, cands: seq<Item>, t: Trace, n: nat)
    requires IsTrace(plan, cands, t) && n <= |t.views|
    ensures WithinBudget(plan.budget, t.states[n])
    ensures n > 0 ==> var r := plan.requirements[n - 1]; var taken := TakenAt(plan, t, n - 1);
      (r.maxItems.Some? ==> |taken| <= r.maxItems.value) && (r.maxBytes.Some? ==> SumCost(taken) <= r.maxBytes.value)
  {
    if n > 0 {
      RunKeepsCeilings(plan, cands, t, n - 1);
      var r := plan.requirements[n - 1];
      assert IsStep(cands, plan.budget, r, t.views[n - 1], t.states[n - 1], t.states[n]);
      TakesLongestPrefixThatFits(t.states[n - 1], plan.budget, r, FrontierOf(r, t.views[n - 1]));
    }
  }

  // ---- the canonical order -----------------------------------------------

  /** Scoped candidates come before global ones, and stronger before weaker within each. */
  ghost predicate Canonical(f: seq<Item>)
  {
    forall i, j | 0 <= i < j < |f| ::
      && (f[j].scope.Scoped? ==> f[i].scope.Scoped?)
      && (f[i].scope.Scoped? == f[j].scope.Scoped? ==> f[i].Rank() <= f[j].Rank())
  }

  lemma CandLtMeans(f: seq<Item>)
    requires StrictlySorted(CandLt, f)
    ensures Canonical(f)
  {
  }

  /** A requirement spends its ceilings on scoped and stronger material first. */
  lemma TakesScopedAndStrongerFirst(plan: Plan, cands: seq<Item>, t: Trace, n: nat)
    requires WellIdentified(Elems(cands)) && IsTrace(plan, cands, t) && n < |t.views|
    ensures InTrace(plan, t, n) && Canonical(FrontierOf(plan.requirements[n], t.views[n]))
    ensures TakenAt(plan, t, n) <= FrontierOf(plan.requirements[n], t.views[n])
  {
    hide Resolves, IsStep, FrontierOf, Canonical, WellIdentified;
    var r, v := plan.requirements[n], t.views[n];
    TraceView(plan, cands, t, n);
    EligibleIdentified(cands, r);
    ViewItemsDistinct(Eligible(cands, r), v);
    FrontierSorted(r, v);
    CandLtMeans(FrontierOf(r, v));
  }

  lemma FrontierSorted(r: Requirement, v: View)
    requires NoDup(ViewItems(v.groups)) && IdsDistinct(Elems(ViewItems(v.groups)))
    ensures StrictlySorted(CandLt, FrontierOf(r, v))
  {
    hide NoDup, IdsDistinct, CandLt;
    CandOrder(Elems(ViewItems(v.groups)));
    SortSorted(CandLt, ViewItems(v.groups));
    var sorted := Sort(CandLt, ViewItems(v.groups));
    FilterSorted(CandLt, (i: Item) => i.key in r.requiredKeys, sorted);
  }
}
