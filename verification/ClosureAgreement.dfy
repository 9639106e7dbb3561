/**
 The selector and the closure validator agree: whatever the compile finishes
 with, closure, which sees only the finished context, finds every requirement,
 conflict, ceiling, coverage and unknown accounted for.
 */
module ClosureAgreement {
  import opened Base
  import opened ContextModel
  import opened Reachability
  import opened Resolution
  import opened ResolutionLaws
  import opened Selection
  import opened ContextCompiler
  import opened SelectionLaws
  import opened Closure

  // ---- what the finished context says about each requirement -------------

  lemma {:induction false} InBoundTo(selected: seq<Selected>, rid: string, i: Item)
    ensures i in BoundTo(selected, rid) <==> exists s :: s in selected && rid in s.because && s.item == i
  {
    if selected != [] {
      var init, last := selected[..|selected| - 1], selected[|selected| - 1];
      assert selected == init + [last];
      InBoundTo(init, rid, i);
    }
  }

  lemma {:induction false} InBoundToAny(selected: seq<Selected>, rids: set<string>, i: Item)
    ensures i in BoundToAny(selected, rids) <==> exists s :: s in selected && s.because * rids != {} && s.item == i
  {
    if selected != [] {
      var init, last := selected[..|selected| - 1], selected[|selected| - 1];
      assert selected == init + [last];
      InBoundToAny(init, rids, i);
    }
  }

  ghost predicate DistinctItems(selected: seq<Selected>)
  {
    forall i, j | 0 <= i < j < |selected| :: selected[i].item.id != selected[j].item.id
  }

  lemma {:induction false} BoundToDistinct(selected: seq<Selected>, rid: string)
    requires DistinctItems(selected)
    ensures NoDup(BoundTo(selected, rid))
  {
    if selected != [] {
      var init, last := selected[..|selected| - 1], selected[|selected| - 1];
      BoundToDistinct(init, rid);
      InBoundTo(init, rid, last.item);
      NoDupConcat(BoundTo(init, rid), if rid in last.because then [last.item] else []);
    }
  }

  /** With distinct requirement ids, being a taker names one requirement. */
  lemma TakerIs(plan: Plan, took: seq<set<string>>, n: nat, id: string)
    requires plan.Valid() && n < |took| <= |plan.requirements|
    ensures plan.requirements[n].id in TakersOf(plan.requirements, took, |took|, id) <==> id in took[n]
  {
    if plan.requirements[n].id in TakersOf(plan.requirements, took, |took|, id) {
      var m :| 0 <= m < |took| && id in took[m] && plan.requirements[m].id == plan.requirements[n].id;
      assert m == n;
    }
  }

  /** The final reasons for an identity name exactly the requirements that took it. */
  lemma ReasonsNameTakers(plan: Plan, cands: seq<Item>, t: Trace, n: nat, id: string)
    requires IsRun(plan, cands, t) && plan.Valid() && n < |t.views|
    ensures plan.requirements[n].id in ReasonsFor(t.End(), id) <==> id in Took(plan, t)[n]
  {
    hide IsStep, TakersOf, ReasonsFor;
    History(plan, cands, t, |t.views|);
    TakerIs(plan, Took(plan, t), n, id);
  }

  /** The selected items bound to requirement `n` are exactly what it admitted. */
  lemma BoundIsTaken(plan: Plan, cands: seq<Item>, t: Trace, selected: seq<Selected>, n: nat)
    requires WellIdentified(Elems(cands)) && IsRun(plan, cands, t) && plan.Valid() && n < |t.views|
    requires Lists(selected, t.End())
    ensures InTrace(plan, t, n)
    ensures forall i :: i in BoundTo(selected, plan.requirements[n].id) <==> i in TakenAt(plan, t, n)
    ensures NoDup(BoundTo(selected, plan.requirements[n].id)) && NoDup(TakenAt(plan, t, n))
  {
    hide TakenAt, Offers, IsStep, Took;
    var rid := plan.requirements[n].id;
    BoundToDistinct(selected, rid);
    TakenOffered(plan, cands, t, n);
    SelectionOffered(plan, cands, t, |t.views|);
    TraceKeys(plan, cands, t, |t.views|);
    forall i ensures i in BoundTo(selected, rid) <==> i in TakenAt(plan, t, n) {
      InBoundTo(selected, rid, i);
      ReasonsNameTakers(plan, cands, t, n, i.id);
      TookAt(plan, t, n, i.id);
      if i in TakenAt(plan, t, n) {
        assert i.id in IdsOf(TakenAt(plan, t, n));
        assert i.id in t.End().byItem;
        var s :| s in selected && s.item.id == i.id;
        OneCarrier(plan, cands, s.item, i);
      }
      if i in BoundTo(selected, rid) {
        var s :| s in selected && rid in s.because && s.item == i;
        var y :| y in TakenAt(plan, t, n) && y.id == i.id;
        OneCarrier(plan, cands, i, y);
      }
    }
  }

  lemma TookAt(plan: Plan, t: Trace, n: nat, id: string)
    requires InTrace(plan, t, n)
    ensures id in Took(plan, t)[n] <==> id in IdsOf(TakenAt(plan, t, n))
  {
  }

  // ---- sums and sets carry over ------------------------------------------

  lemma {:induction false} SumCostRemove(a: seq<Item>, k: nat)
    requires k < |a|
    ensures SumCost(a) == SumCost(a[..k] + a[k + 1..]) + a[k].cost
  {
    var rest := a[..k] + a[k + 1..];
    if k == |a| - 1 {
      assert rest == a[..|a| - 1];
    } else {
      SumCostRemove(a[..|a| - 1], k);
      assert a[..|a| - 1][..k] + a[..|a| - 1][k + 1..] == rest[..|rest| - 1];
      assert a[..|a| - 1][k] == a[k];
    }
  }

  lemma RemoveOne<T>(b: seq<T>, k: nat)
    requires k < |b|
    ensures multiset(b[..k] + b[k + 1..]) == multiset(b) - multiset{b[k]}
  {
    assert b == b[..k] + [b[k]] + b[k + 1..];
  }

  /** Costs add up the same in any order. */
  lemma {:induction false} SumCostAnyOrder(a: seq<Item>, b: seq<Item>)
    requires multiset(a) == multiset(b)
    ensures SumCost(a) == SumCost(b) && |a| == |b|
    decreases |a|
  {
    assert |multiset(a)| == |multiset(b)|;
    if a != [] {
      var last := a[|a| - 1];
      assert a == a[..|a| - 1] + [last];
      assert last in multiset(b);
      var k :| 0 <= k < |b| && b[k] == last;
      RemoveOne(a, |a| - 1);
      RemoveOne(b, k);
      assert a[..|a| - 1] + a[|a|..] == a[..|a| - 1];
      SumCostAnyOrder(a[..|a| - 1], b[..k] + b[k + 1..]);
      SumCostRemove(b, k);
    }
  }

  lemma SameItemsSameFacts(a: seq<Item>, b: seq<Item>)
    requires NoDup(a) && NoDup(b) && forall x :: x in a <==> x in b
    ensures |a| == |b| && SumCost(a) == SumCost(b) && IdsOf(a) == IdsOf(b) && KeysOf(a) == KeysOf(b)
  {
    SameSetSameMultiset(a, b);
    SumCostAnyOrder(a, b);
  }

  // ---- rebuilding the selection at the stop ------------------------------

  ghost predicate DistinctIds(xs: seq<Item>)
  {
    forall i, j | 0 <= i < j < |xs| :: xs[i].id != xs[j].id
  }

  lemma IdsCons(first: Item, rest: seq<Item>)
    ensures IdsOf([first] + rest) == {first.id} + IdsOf(rest)
  {
  }

  lemma ConsDistinct(first: Item, rest: seq<Item>)
    ensures DistinctIds([first] + rest) <==> DistinctIds(rest) && first.id !in IdsOf(rest)
  {
    var xs := [first] + rest;
    if DistinctIds(xs) {
      forall i, j | 0 <= i < j < |rest| ensures rest[i].id != rest[j].id { assert xs[i + 1].id != xs[j + 1].id; }
      forall i | i in rest ensures i.id != first.id {
        var k :| 0 <= k < |rest| && rest[k] == i;
        assert xs[0].id != xs[k + 1].id;
      }
    }
    if DistinctIds(rest) && first.id !in IdsOf(rest) {
      forall k | 0 <= k < |rest| ensures rest[k].id != first.id { assert rest[k] in rest; }
    }
  }

  lemma {:induction false} UpsertKeeps(xs: seq<Item>, i: Item)
    requires DistinctIds(xs)
    ensures DistinctIds(Upsert(xs, i)) && IdsOf(Upsert(xs, i)) == IdsOf(xs) + {i.id}
    ensures forall y | y in Upsert(xs, i) :: y in xs || y == i
  {
    if xs != [] {
      hide IdsOf, DistinctIds;
      var first, rest := xs[0], xs[1..];
      assert xs == [first] + rest;
      IdsCons(first, rest);
      ConsDistinct(first, rest);
      if first.id == i.id {
        IdsCons(i, rest);
        ConsDistinct(i, rest);
      } else {
        UpsertKeeps(rest, i);
        IdsCons(first, Upsert(rest, i));
        ConsDistinct(first, Upsert(rest, i));
      }
    }
  }

  lemma {:induction false} UpsertAllKeeps(xs: seq<Item>, items: seq<Item>)
    requires DistinctIds(xs)
    ensures DistinctIds(UpsertAll(xs, items)) && IdsOf(UpsertAll(xs, items)) == IdsOf(xs) + IdsOf(items)
    ensures forall y | y in UpsertAll(xs, items) :: y in xs || y in items
  {
    if items != [] {
      var init, last := items[..|items| - 1], items[|items| - 1];
      assert items == init + [last];
      IdsSnoc(init, last);
      UpsertAllKeeps(xs, init);
      UpsertKeeps(UpsertAll(xs, init), last);
    }
  }

  /** A list of the selection's own carriers, one per identity, has its size and its total. */
  lemma CarriersTally(unique: seq<Item>, xs: seq<Item>, st: State)
    requires Tallies(xs, st) && DistinctIds(unique) && IdsOf(unique) == st.byItem.Keys
    requires forall y | y in unique :: y.id in st.byItem && y == st.byItem[y.id]
    ensures |unique| == |st.byItem| && SumCost(unique) == st.total
  {
    hide SumCost;
    forall y ensures y in unique <==> y in xs {
      if y in unique {
        assert y.id in IdsOf(xs);
        var x :| x in xs && x.id == y.id;
      }
      if y in xs {
        assert y.id in IdsOf(unique);
        var x :| x in unique && x.id == y.id;
      }
    }
    SameItemsSameFacts(unique, xs);
  }

  lemma RebuiltCarriers(plan: Plan, cands: seq<Item>, t: Trace, selected: seq<Selected>, n: nat, y: Item)
    requires WellIdentified(Elems(cands)) && IsRun(plan, cands, t) && n < |t.views|
    requires Lists(selected, t.End())
    requires InTrace(plan, t, n)
    requires y in BoundToAny(selected, EarlierIds(plan, n)) || y in TakenAt(plan, t, n)
    requires y.id in t.states[n + 1].byItem
    ensures y == t.states[n + 1].byItem[y.id]
  {
    hide TakenAt, IsTrace, Offers, Lists, BoundToAny, EarlierIds;
    SelectionOffered(plan, cands, t, n + 1);
    if y in TakenAt(plan, t, n) {
      TakenOffered(plan, cands, t, n);
    } else {
      BoundIsOffered(plan, cands, t, selected, EarlierIds(plan, n), y);
    }
    OneCarrier(plan, cands, y, t.states[n + 1].byItem[y.id]);
  }

  lemma BoundIsOffered(plan: Plan, cands: seq<Item>, t: Trace, selected: seq<Selected>, rids: set<string>, y: Item)
    requires WellIdentified(Elems(cands)) && IsRun(plan, cands, t) && Lists(selected, t.End())
    requires y in BoundToAny(selected, rids)
    ensures Offers(plan, cands, y)
  {
    hide IsStep, Offers;
    SelectionOffered(plan, cands, t, |t.views|);
    InBoundToAny(selected, rids, y);
  }

  /**
   History reconstruction: the items bound to earlier requirements, updated with
   this requirement's own admissions, are exactly the selection it left behind,
   in identity, number and total cost, whatever later requirements admitted.
   */
  lemma RebuiltIsTheSelection(plan: Plan, cands: seq<Item>, t: Trace, selected: seq<Selected>, n: nat)
    requires WellIdentified(Elems(cands)) && IsRun(plan, cands, t) && plan.Valid() && n < |t.views|
    requires Lists(selected, t.End())
    ensures InTrace(plan, t, n)
    ensures var unique := Rebuilt(selected, EarlierIds(plan, n), TakenAt(plan, t, n));
      && IdsOf(unique) == t.states[n + 1].byItem.Keys
      && |unique| == |t.states[n + 1].byItem|
      && SumCost(unique) == t.states[n + 1].total
  {
    hide TakenAt, Offers, IsStep, SumCost, Tallies, BoundToAny, EarlierIds, UpsertAll;
    var earlier := BoundToAny(selected, EarlierIds(plan, n));
    var taken := TakenAt(plan, t, n);
    var unique := Rebuilt(selected, EarlierIds(plan, n), taken);
    UpsertAllKeeps([], earlier);
    UpsertAllKeeps(UpsertAll([], earlier), taken);
    EarlierIsBefore(plan, cands, t, selected, n);
    StepAdmits(plan, cands, t, n);
    assert IdsOf(unique) == t.states[n + 1].byItem.Keys;
    forall y | y in unique ensures y.id in t.states[n + 1].byItem && y == t.states[n + 1].byItem[y.id] {
      assert y.id in IdsOf(unique);
      RebuiltCarriers(plan, cands, t, selected, n, y);
    }
    var xs := TallyTrace(plan, cands, t, n + 1);
    CarriersTally(unique, xs, t.states[n + 1]);
  }

  /** An identity is bound to one of `rids` exactly when its recorded reasons meet them. */
  lemma BoundByReasons(selected: seq<Selected>, st: State, rids: set<string>, id: string)
    requires Lists(selected, st) && st.reasons.Keys == st.byItem.Keys
    requires forall x | x in st.byItem :: st.byItem[x].id == x
    ensures id in IdsOf(BoundToAny(selected, rids)) <==> ReasonsFor(st, id) * rids != {}
  {
    hide BoundToAny;
    if ReasonsFor(st, id) * rids != {} {
      var s :| s in selected && s.item.id == id;
      InBoundToAny(selected, rids, s.item);
    }
    if id in IdsOf(BoundToAny(selected, rids)) {
      var i :| i in BoundToAny(selected, rids) && i.id == id;
      InBoundToAny(selected, rids, i);
    }
  }

  /** The identities bound to earlier requirements are the selection before this one. */
  lemma EarlierIsBefore(plan: Plan, cands: seq<Item>, t: Trace, selected: seq<Selected>, n: nat)
    requires IsRun(plan, cands, t) && plan.Valid() && n < |t.views|
    requires Lists(selected, t.End())
    ensures IdsOf(BoundToAny(selected, EarlierIds(plan, n))) == t.states[n].byItem.Keys
  {
    hide IsStep, Lists, BoundToAny, IdsOf, TakersOf, ReasonsFor, EarlierIds, Took;
    var earlier := IdsOf(BoundToAny(selected, EarlierIds(plan, n)));
    TraceKeys(plan, cands, t, |t.views|);
    History(plan, cands, t, n);
    History(plan, cands, t, |t.views|);
    assert |Took(plan, t)| == |t.views| by { TookLength(plan, t); }
    forall id ensures id in earlier <==> id in t.states[n].byItem {
      BoundByReasons(selected, t.End(), EarlierIds(plan, n), id);
      EarlierTakers(plan, Took(plan, t), n, id);
    }
  }

  lemma TookLength(plan: Plan, t: Trace)
    requires |t.views| <= |plan.requirements| && |t.states| == |t.views| + 1
    ensures |Took(plan, t)| == |t.views|
  {
  }

  /** An identity some earlier requirement took is one whose final takers include an earlier requirement. */
  lemma EarlierTakers(plan: Plan, took: seq<set<string>>, n: nat, id: string)
    requires plan.Valid() && |took| == |plan.requirements| && n < |took|
    ensures TakersOf(plan.requirements, took, n, id) != {} <==>
      TakersOf(plan.requirements, took, |took|, id) * EarlierIds(plan, n) != {}
  {
    var reqs := plan.requirements;
    if x :| x in TakersOf(reqs, took, n, id) {
      var m :| 0 <= m < n && id in took[m] && reqs[m].id == x;
      assert reqs[m] in reqs[..n];
      assert x in EarlierIds(plan, n) && x in TakersOf(reqs, took, |took|, id);
    }
    if x :| x in TakersOf(reqs, took, |took|, id) && x in EarlierIds(plan, n) {
      var m :| 0 <= m < |took| && id in took[m] && reqs[m].id == x;
      var r :| r in reqs[..n] && r.id == x;
      var k :| 0 <= k < n && reqs[k] == r;
      assert m == k;
      assert x in TakersOf(reqs, took, n, id);
    }
  }

  // ---- the two resolutions and the unknowns ------------------------------

  /** Two resolutions of the same candidates hold the same entries. */
  lemma ViewsAgree(items: seq<Item>, v: View, w: View)
    requires Resolves(items, v) && Resolves(items, w)
    ensures forall e :: e in v.groups <==> e in w.groups
    ensures ConflictKeys(v.groups) == ConflictKeys(w.groups)
  {
    forall e ensures e in v.groups <==> e in w.groups {
      if e in v.groups { SameEntry(items, items, v, w, e); }
      if e in w.groups { SameEntry(items, items, w, v, e); }
    }
  }

  /** Scope and discovery unknowns are bound to no requirement. */
  ghost predicate Unbound(extra: seq<Unknown>)
  {
    forall u | u in extra :: u.requirement.None?
  }

  /** Everything the compile and closure are given. */
  ghost predicate Given(plan: Plan, cands: seq<Item>, extra: seq<Unknown>)
  {
    && WellIdentified(Elems(cands)) && plan.Valid() && Unbound(extra)
    && forall i | i in cands :: i.Valid()
  }

  lemma ViewReportsUnbound(items: seq<Item>, v: View, u: Unknown)
    requires Resolves(items, v) && u in v.unknowns
    ensures u.requirement.None?
  {
    assert ReportsAny(items, u);
  }

  /** An unknown bound to requirement `n` is one that requirement recorded itself. */
  lemma BoundUnknownIsOwn(plan: Plan, cands: seq<Item>, t: Trace, extra: seq<Unknown>, n: nat, u: Unknown)
    requires Given(plan, cands, extra) && IsRun(plan, cands, t) && n < |t.views|
    requires Collected(plan, t, extra, u) && u.requirement == Some(plan.requirements[n].id)
    ensures RecordsConflict(plan.requirements[n], t.views[n], u)
         || RecordsShortfall(t.states[n], plan.budget, plan.requirements[n], t.views[n], u)
  {
    hide Met, Resolves, IsStep, Taken, Stop, WellIdentified;
    var m: nat :| InTrace(plan, t, m) && RecordsAt(plan, t, m, u);
    TraceView(plan, cands, t, m);
    if u in t.views[m].unknowns { ViewReportsUnbound(Eligible(cands, plan.requirements[m]), t.views[m], u); }
    assert u.requirement == Some(plan.requirements[m].id);
    assert m == n;
  }

  lemma RecordedIsShown(ctx: Context, plan: Plan, cands: seq<Item>, t: Trace, extra: seq<Unknown>, n: nat, u: Unknown)
    requires Compiled(ctx, plan, cands, t, extra) && InTrace(plan, t, n) && RecordsAt(plan, t, n, u)
    ensures exists w :: w in ctx.unknowns && SameUnknown(w, u)
  {
    hide Records, Lists, IsTrace;
    assert Collected(plan, t, extra, u);
    assert Represented(ctx.unknowns, u);
  }

  ghost function ShortfallAt(plan: Plan, t: Trace, n: nat): Option<Unknown>
    requires InTrace(plan, t, n)
  {
    ShortfallUnknown(plan.requirements[n], KeysOf(TakenAt(plan, t, n)), ConflictKeys(t.views[n].groups),
      StopOf(plan, t, n))
  }

  /** An unmet requirement shows its shortfall, unless it was optional and nothing was truncated. */
  lemma UnmetShown(ctx: Context, plan: Plan, cands: seq<Item>, t: Trace, extra: seq<Unknown>, n: nat)
    requires Compiled(ctx, plan, cands, t, extra) && InTrace(plan, t, n)
    requires !MetAt(plan, t, n) && ShortfallAt(plan, t, n).Some?
    ensures exists w :: w in ctx.unknowns && SameUnknown(w, ShortfallAt(plan, t, n).value)
  {
    hide Lists, IsTrace, Taken, Stop, Met;
    assert RecordsAt(plan, t, n, ShortfallAt(plan, t, n).value);
    RecordedIsShown(ctx, plan, cands, t, extra, n, ShortfallAt(plan, t, n).value);
  }

  /** A shortfall shown for requirement `n` is its own: it was unmet, and these are the details. */
  lemma ShownShortfallIsOwn(ctx: Context, plan: Plan, cands: seq<Item>, t: Trace, extra: seq<Unknown>, n: nat,
      w: Unknown)
    requires Given(plan, cands, extra) && Compiled(ctx, plan, cands, t, extra) && n < |t.views|
    requires w in ctx.unknowns && w.requirement == Some(plan.requirements[n].id) && Shortfall(w.reason)
    ensures InTrace(plan, t, n) && !MetAt(plan, t, n) && ShortfallAt(plan, t, n) == Some(w)
  {
    hide Met, Taken, Stop, Lists, IsTrace;
    assert Collected(plan, t, extra, w);
    BoundUnknownIsOwn(plan, cands, t, extra, n, w);
  }

  /** Every conflict of a requirement's view is shown under its key. */
  lemma ConflictsShown(ctx: Context, plan: Plan, cands: seq<Item>, t: Trace, extra: seq<Unknown>, n: nat, e: Entry)
    requires Compiled(ctx, plan, cands, t, extra) && InTrace(plan, t, n)
    requires e in t.views[n].groups && e.group.conflict
    ensures exists w :: w in ctx.unknowns && w.reason.ConflictingGovernedClaims?
                     && w.requirement == Some(plan.requirements[n].id) && w.key == Some(e.key.key)
  {
    hide Lists, IsTrace, Met;
    var u := ConflictUnknown(plan.requirements[n], e);
    assert RecordsConflict(plan.requirements[n], t.views[n], u);
    RecordedIsShown(ctx, plan, cands, t, extra, n, u);
  }

  // ---- the budget witness of the finished context ------------------------

  /** Filtering by a test that holds exactly up to `k` keeps the prefix, by its negation the rest. */
  lemma FilterSplits(p: Item -> bool, q: Item -> bool, f: seq<Item>, k: nat)
    requires k <= |f| && (forall i | i in f[..k] :: p(i) && !q(i)) && (forall i | i in f[k..] :: !p(i) && q(i))
    ensures Filter(p, f) == f[..k] && Filter(q, f) == f[k..]
  {
    hide Filter;
    assert f == f[..k] + f[k..];
    FilterConcat(p, f[..k], f[k..]);
    FilterConcat(q, f[..k], f[k..]);
    FilterUniform(p, f[..k], true);
    FilterUniform(q, f[..k], false);
    FilterUniform(p, f[k..], false);
    FilterUniform(q, f[k..], true);
  }

  /** Splitting a list of distinct identities by whether they were taken recovers the prefix. */
  lemma SplitByTaken(f: seq<Item>, k: nat)
    requires NoDup(f) && IdsDistinct(Elems(f)) && k <= |f|
    ensures Filter((i: Item) => i.id in IdsOf(f[..k]), f) == f[..k]
    ensures Filter((i: Item) => i.id !in IdsOf(f[..k]), f) == f[k..]
  {
    forall i | 0 <= i < |f| ensures f[i].id in IdsOf(f[..k]) <==> i < k {
      if i < k { assert f[i] in f[..k]; }
      if x :| x in f[..k] && x.id == f[i].id {
        assert x in Elems(f) && f[i] in Elems(f);
        assert x == f[i];
        var j :| 0 <= j < k && f[j] == x;
        assert i == j;
      }
    }
    FilterSplits((i: Item) => i.id in IdsOf(f[..k]), (i: Item) => i.id !in IdsOf(f[..k]), f, k);
  }

  /** What both programs see for requirement `n`: one frontier, one prefix of it taken. */
  ghost predicate SharedFrontier(ctx: Context, plan: Plan, t: Trace, n: nat, v: View, f: seq<Item>, k: nat)
    requires InTrace(plan, t, n)
  {
    && f == FrontierOf(plan.requirements[n], v) && NoDup(f) && IdsDistinct(Elems(f))
    && k <= |f| && TakenAt(plan, t, n) == f[..k]
    && (StopOf(plan, t, n) == if k < |f| then StopAt(t.states[n], plan.budget, plan.requirements[n], f, k) else None)
    && (StopOf(plan, t, n).Some? <==> k < |f|)
    && TakenIds(ctx, plan.requirements[n].id) == IdsOf(f[..k])
    && KeysOf(BoundTo(ctx.selected, plan.requirements[n].id)) == KeysOf(f[..k])
  }

  lemma FrontiersMeet(ctx: Context, plan: Plan, cands: seq<Item>, t: Trace, n: nat, v: View)
    returns (f: seq<Item>, k: nat)
    requires WellIdentified(Elems(cands)) && plan.Valid() && IsRun(plan, cands, t) && n < |t.views|
    requires Lists(ctx.selected, t.End()) && Resolves(Eligible(cands, plan.requirements[n]), v)
    ensures InTrace(plan, t, n) && SharedFrontier(ctx, plan, t, n, v, f, k)
  {
    hide IsStep, Resolves, Matches, WellIdentified;
    var r := plan.requirements[n];
    EligibleIdentified(cands, r);
    TraceView(plan, cands, t, n);
    SameFrontier(r, Eligible(cands, r), t.views[n], v);
    TakenFromView(cands, r, v);
    f := FrontierOf(r, v);
    k := TakeFrom(t.states[n], plan.budget, r, f, 0);
    BoundIsTaken(plan, cands, t, ctx.selected, n);
    SameItemsSameFacts(BoundTo(ctx.selected, r.id), TakenAt(plan, t, n));
    ViewItemsDistinct(Eligible(cands, r), v);
    assert TakenIds(ctx, r.id) == IdsOf(BoundTo(ctx.selected, r.id));
    forall i | i in Elems(f) ensures i in Elems(ViewItems(v.groups)) {}
  }

  /** The witness a stop records is one closure can verify from the finished context. */
  lemma StopWitnessHolds(ctx: Context, plan: Plan, cands: seq<Item>, t: Trace, n: nat, v: View, f: seq<Item>, k: nat)
    requires WellIdentified(Elems(cands)) && plan.Valid() && IsRun(plan, cands, t) && n < |t.views|
    requires Lists(ctx.selected, t.End())
    requires InTrace(plan, t, n) && SharedFrontier(ctx, plan, t, n, v, f, k) && k < |f|
    ensures StopOf(plan, t, n).Some?
    ensures WitnessHolds(StopOf(plan, t, n).value, plan.budget, plan.requirements[n], ctx.selected,
      EarlierIds(plan, n), f[..k], f[k])
  {
    hide Lists, SumCost, Rebuilt, EarlierIds, IsTrace, Resolves, Taken, TakenAt, AdmitAll, StopAt, WitnessHolds,
      NoDup, IdsDistinct, FrontierOf, KeysOf, TakenIds, BoundTo, WellIdentified, IdsOf, StopOf;
    RebuiltIsTheSelection(plan, cands, t, ctx.selected, n);
    StateAfter(plan, cands, t, n);
    WitnessAt(t.states[n], plan.budget, plan.requirements[n], ctx.selected, EarlierIds(plan, n), f, k);
  }

  /** What a stop says of the live selection, the rebuilt selection confirms. */
  lemma WitnessAt(st: State, budget: Budget, r: Requirement, selected: seq<Selected>, earlier: set<string>,
      f: seq<Item>, k: nat)
    requires k < |f| && StopAt(st, budget, r, f, k).Some?
    requires var unique, after := Rebuilt(selected, earlier, f[..k]), AdmitAll(st, f[..k], r.id);
      IdsOf(unique) == after.byItem.Keys && |unique| == |after.byItem| && SumCost(unique) == after.total
    ensures WitnessHolds(StopAt(st, budget, r, f, k).value, budget, r, selected, earlier, f[..k], f[k])
  {
    hide SumCost, Rebuilt, AdmitAll;
    var unique := Rebuilt(selected, earlier, f[..k]);
    assert (set i | i in unique :: i.id) == IdsOf(unique);
  }

  /** The budget unknown closure reads first for the requirement carries the selector's own stop. */
  lemma ShownWitness(ctx: Context, plan: Plan, cands: seq<Item>, t: Trace, extra: seq<Unknown>, n: nat)
    requires Given(plan, cands, extra) && Compiled(ctx, plan, cands, t, extra) && n < |t.views|
    requires InTrace(plan, t, n) && StopOf(plan, t, n).Some? && !MetAt(plan, t, n)
    ensures var u := FirstBudget(ctx.unknowns, plan.requirements[n].id);
      u.Some? && Witness(u.value) == StopOf(plan, t, n)
  {
    hide Lists, IsTrace, Met, TakenAt, StopOf, WellIdentified;
    UnmetShown(ctx, plan, cands, t, extra, n);
    var w :| w in ctx.unknowns && SameUnknown(w, ShortfallAt(plan, t, n).value);
    var u := FirstBudget(ctx.unknowns, plan.requirements[n].id);
    assert u.Some?;
    ShownShortfallIsOwn(ctx, plan, cands, t, extra, n, u.value);
  }

  /** A truncated, unmet requirement's stop is independently proven. */
  lemma TruncationIsProven(ctx: Context, plan: Plan, cands: seq<Item>, t: Trace, extra: seq<Unknown>, n: nat,
      v: View, f: seq<Item>, k: nat)
    requires Given(plan, cands, extra) && Compiled(ctx, plan, cands, t, extra) && n < |t.views|
    requires InTrace(plan, t, n) && SharedFrontier(ctx, plan, t, n, v, f, k) && k < |f| && !MetAt(plan, t, n)
    ensures StopProven(ctx, plan, n, v)
  {
    hide WitnessHolds, Deduped, Lists, IsTrace, Met, StopAt, TakenAt, StopOf, WellIdentified, EarlierIds, IdsOf,
      KeysOf, FirstBudget, Witness, NoDup, IdsDistinct, FrontierOf, NothingBlocked;
    StopWitnessHolds(ctx, plan, cands, t, n, v, f, k);
    ShownWitness(ctx, plan, cands, t, extra, n);
    SplitByTaken(f, k);
    SameFilter(f, TakenIds(ctx, plan.requirements[n].id), IdsOf(f[..k]));
  }

  lemma SameFilter(f: seq<Item>, a: set<string>, b: set<string>)
    requires a == b
    ensures Filter((i: Item) => i.id in a, f) == Filter((i: Item) => i.id in b, f)
    ensures Filter((i: Item) => i.id !in a, f) == Filter((i: Item) => i.id !in b, f)
  {
  }

  // ---- coverage ----------------------------------------------------------

  lemma {:induction false} KeyMapFacts(items: seq<Item>)
    requires NoDup(items) && IdsDistinct(Elems(items))
    ensures KeyMap(items).Keys == IdsOf(items) && KeyMap(items).Values == KeysOf(items)
    ensures |KeyMap(items)| == |items|
  {
    if items != [] {
      var init, last := items[..|items| - 1], items[|items| - 1];
      DistinctInit(items);
      KeyMapFacts(init);
      NewEntry(KeyMap(init), last.id, last.key);
    }
  }

  lemma DistinctInit(items: seq<Item>)
    requires items != [] && NoDup(items) && IdsDistinct(Elems(items))
    ensures var init, last := items[..|items| - 1], items[|items| - 1];
      && NoDup(init) && IdsDistinct(Elems(init)) && last.id !in IdsOf(init)
      && IdsOf(items) == IdsOf(init) + {last.id} && KeysOf(items) == KeysOf(init) + {last.key}
  {
    var init, last := items[..|items| - 1], items[|items| - 1];
    assert items == init + [last];
    ElemsSnoc(init, last);
    IdsSnoc(init, last);
    forall i | i in init ensures i.id != last.id { assert i in Elems(items) && last in Elems(items); }
  }

  lemma NewEntry(m: map<string, string>, k: string, x: string)
    requires k !in m
    ensures m[k := x].Keys == m.Keys + {k} && m[k := x].Values == m.Values + {x} && |m[k := x]| == |m| + 1
  {
    var m' := m[k := x];
    assert m'.Keys == m.Keys + {k};
    forall y ensures y in m'.Values <==> y in m.Values + {x} {
      if y in m.Values { var j :| j in m && m[j] == y; assert m'[j] == y; }
      if y == x { assert m'[k] == x; }
    }
    assert |m'.Keys| == |m'|;
  }

  lemma {:induction false} DistinctCard(items: seq<Item>)
    requires NoDup(items) && IdsDistinct(Elems(items))
    ensures |IdsOf(items)| == |items|
  {
    KeyMapFacts(items);
  }

  /** A requirement disposes exactly the conflict keys of its own view. */
  lemma DisposesItsConflicts(ctx: Context, plan: Plan, cands: seq<Item>, t: Trace, extra: seq<Unknown>, n: nat, v: View)
    requires Compiled(ctx, plan, cands, t, extra) && n < |t.views|
    requires Resolves(Eligible(cands, plan.requirements[n]), v)
    ensures DisposedKeys(ctx.unknowns, plan.requirements[n].id, v)
            == ConflictKeys(v.groups) == ConflictKeys(t.views[n].groups)
  {
    hide Resolves, Lists;
    TraceView(plan, cands, t, n);
    ViewsAgree(Eligible(cands, plan.requirements[n]), v, t.views[n]);
    forall k | k in ConflictKeys(v.groups) ensures k in DisposedKeys(ctx.unknowns, plan.requirements[n].id, v) {
      var e :| e in t.views[n].groups && e.group.conflict && e.key.key == k;
      ConflictsShown(ctx, plan, cands, t, extra, n, e);
    }
  }

  /** The frontier against the recomputed eligible set, mode by mode. */
  lemma FrontierCovers(r: Requirement, items: seq<Item>, f: seq<Item>)
    requires NoDup(items) && IdsDistinct(Elems(items)) && f == Frontier(r, Sort(CandLt, items))
    ensures IdsOf(f) <= KeyMap(items).Keys
    ensures r.coverage.AllEligible? ==> IdsOf(f) == KeyMap(items).Keys
    ensures r.coverage.Minimum? ==> |f| == if r.minItems <= |KeyMap(items)| then r.minItems else |KeyMap(items)|
    ensures r.coverage.SemanticKeys? ==> KeysOf(f) == KeyMap(items).Values * r.requiredKeys
  {
    hide KeyMap, Sort, NoDup, IdsDistinct;
    var sorted := Sort(CandLt, items);
    KeyMapFacts(items);
    SortedFacts(items);
    if r.coverage.SemanticKeys? { RequestedKeys(r, sorted); }
    assert IdsOf(f) <= IdsOf(sorted);
  }

  lemma SortedFacts(items: seq<Item>)
    requires NoDup(items)
    ensures var sorted := Sort(CandLt, items);
      |sorted| == |items| && IdsOf(sorted) == IdsOf(items) && KeysOf(sorted) == KeysOf(items)
  {
    SortedWithin(items);
    SameItemsSameFacts(items, Sort(CandLt, items));
  }

  lemma RequestedKeys(r: Requirement, sorted: seq<Item>)
    requires r.coverage.SemanticKeys?
    ensures KeysOf(Frontier(r, sorted)) == KeysOf(sorted) * r.requiredKeys
  {
    var f := Frontier(r, sorted);
    forall k | k in KeysOf(sorted) * r.requiredKeys ensures k in KeysOf(f) {
      var i :| i in sorted && i.key == k;
      assert i in f;
    }
  }

  lemma PrefixOf(f: seq<Item>, k: nat)
    requires NoDup(f) && IdsDistinct(Elems(f)) && k <= |f|
    ensures |IdsOf(f[..k])| == k && IdsOf(f[..k]) <= IdsOf(f) && KeysOf(f[..k]) <= KeysOf(f)
    ensures k == |f| ==> f[..k] == f
  {
    assert Elems(f[..k]) <= Elems(f);
    DistinctCard(f[..k]);
  }

  /** Coverage follows from taking a prefix, all of it unless the stop is proven or the keys were disposed. */
  lemma PrefixCovers(r: Requirement, items: seq<Item>, f: seq<Item>, k: nat, disposed: set<string>, truncated: bool)
    requires NoDup(items) && IdsDistinct(Elems(items)) && NoDup(f) && IdsDistinct(Elems(f))
    requires f == Frontier(r, Sort(CandLt, items)) && k <= |f|
    requires k < |f| && !Satisfied(r, k, KeysOf(f[..k]), disposed, true) ==> truncated
    ensures CoverageBreach(r, KeyMap(items), IdsOf(f[..k]), KeysOf(f[..k]), disposed, truncated).None?
  {
    hide KeyMap, Frontier, NoDup, IdsDistinct, Sort, IdsOf, KeysOf;
    FrontierCovers(r, items, f);
    PrefixOf(f, k);
    var taken := KeysOf(f[..k]);
    if r.coverage.SemanticKeys? {
      assert k < |f| && !truncated ==>
        KeyMap(items).Values * r.requiredKeys - taken - disposed <= r.requiredKeys - taken - disposed;
    } else if r.coverage.Minimum? {
      FrontierShort(r, items, f);
    }
  }

  lemma FrontierShort(r: Requirement, items: seq<Item>, f: seq<Item>)
    requires f == Frontier(r, Sort(CandLt, items)) && r.coverage.Minimum?
    ensures |f| <= r.minItems
  {
  }

  /** Check 10 accepts every requirement of a compile. */
  lemma CoverageAccepted(ctx: Context, plan: Plan, cands: seq<Item>, t: Trace, extra: seq<Unknown>, n: nat, v: View)
    requires Given(plan, cands, extra) && Compiled(ctx, plan, cands, t, extra) && n < |t.views|
    requires Resolves(Eligible(cands, plan.requirements[n]), v)
    ensures CoverageClean(ctx, plan, n, v)
  {
    hide Resolves, Lists, IsTrace, StopProven, CoverageBreach, KeyMap, Frontier, StopAt, TakeFrom, WellIdentified,
      IdsOf, KeysOf, ConflictKeys, Taken, Stop, Satisfied;
    var r := plan.requirements[n];
    var f, k := FrontiersMeet(ctx, plan, cands, t, n, v);
    DisposesItsConflicts(ctx, plan, cands, t, extra, n, v);
    EligibleIdentified(cands, r);
    ViewItemsDistinct(Eligible(cands, r), v);
    MetMeans(plan, t, n, f, k);
    if k < |f| && !MetAt(plan, t, n) { TruncationIsProven(ctx, plan, cands, t, extra, n, v, f, k); }
    PrefixCovers(r, ViewItems(v.groups), f, k, ConflictKeys(v.groups), StopProven(ctx, plan, n, v));
  }

  lemma MetMeans(plan: Plan, t: Trace, n: nat, f: seq<Item>, k: nat)
    requires InTrace(plan, t, n) && k <= |f| && TakenAt(plan, t, n) == f[..k]
    requires StopOf(plan, t, n).Some? <==> k < |f|
    ensures MetAt(plan, t, n) <==>
      Satisfied(plan.requirements[n], k, KeysOf(f[..k]), ConflictKeys(t.views[n].groups), k < |f|)
  {
  }

  // ---- budgets -----------------------------------------------------------

  lemma {:induction false} ItemsOfAt(selected: seq<Selected>)
    ensures |ItemsOf(selected)| == |selected|
    ensures forall k | 0 <= k < |selected| :: ItemsOf(selected)[k] == selected[k].item
  {
    if selected != [] { ItemsOfAt(selected[..|selected| - 1]); }
  }

  lemma ListedCarriers(selected: seq<Selected>, st: State)
    requires Lists(selected, st) && forall id | id in st.byItem :: st.byItem[id].id == id
    ensures var unique := ItemsOf(selected);
      && DistinctIds(unique) && IdsOf(unique) == st.byItem.Keys
      && forall y | y in unique :: y.id in st.byItem && y == st.byItem[y.id]
  {
    ItemsOfAt(selected);
    var unique := ItemsOf(selected);
    forall y | y in unique ensures y.id in st.byItem && y == st.byItem[y.id] {
      var k :| 0 <= k < |unique| && unique[k] == y;
      assert selected[k] in selected;
    }
    forall id | id in st.byItem ensures id in IdsOf(unique) {
      var s :| s in selected && s.item.id == id;
      var k :| 0 <= k < |selected| && selected[k] == s;
      assert unique[k] in unique;
    }
  }

  /** The finished context holds what the selection held, at the cost it recorded. */
  lemma ContextTally(plan: Plan, cands: seq<Item>, t: Trace, selected: seq<Selected>)
    requires IsRun(plan, cands, t) && Lists(selected, t.End())
    ensures |selected| == |t.End().byItem| && SumCost(ItemsOf(selected)) == t.End().total
  {
    hide IsStep, SumCost, Tallies, Lists, ItemsOf, IdsOf, DistinctIds;
    TraceKeys(plan, cands, t, |t.views|);
    ListedCarriers(selected, t.End());
    ItemsOfAt(selected);
    var xs := TallyTrace(plan, cands, t, |t.views|);
    CarriersTally(ItemsOf(selected), xs, t.End());
  }

  /** A required requirement that was not met left a record of what is missing. */
  lemma RequiredShortfallShown(ctx: Context, plan: Plan, cands: seq<Item>, t: Trace, extra: seq<Unknown>, n: nat)
    requires plan.Valid() && Compiled(ctx, plan, cands, t, extra) && n < |t.views|
    requires plan.requirements[n].required && InTrace(plan, t, n) && !MetAt(plan, t, n)
    ensures ShortfallRecorded(ctx.unknowns, plan.requirements[n].id)
    ensures plan.requirements[n].coverage.SemanticKeys? ==>
      plan.requirements[n].requiredKeys - KeysOf(TakenAt(plan, t, n)) - ConflictKeys(t.views[n].groups)
        <= MissingRecorded(ctx.unknowns, plan.requirements[n].id)
    ensures exists u :: u in ctx.unknowns && u.requirement == Some(plan.requirements[n].id) && Disposing(u.reason)
  {
    hide Lists, IsTrace, TakenAt, Met, StopOf, KeysOf, ConflictKeys;
    var r := plan.requirements[n];
    assert r.Valid();
    UnmetShown(ctx, plan, cands, t, extra, n);
    var w :| w in ctx.unknowns && SameUnknown(w, ShortfallAt(plan, t, n).value);
    assert Shortfall(w.reason) && w.requirement == Some(r.id);
    if r.coverage.SemanticKeys? {
      var missing := r.requiredKeys - KeysOf(TakenAt(plan, t, n)) - ConflictKeys(t.views[n].groups);
      assert MissingListed(w) == missing;
      forall k | k in missing ensures k in MissingRecorded(ctx.unknowns, r.id) {}
    }
  }

  /** Check 9 accepts every requirement of a compile. */
  lemma BudgetAccepted(ctx: Context, plan: Plan, cands: seq<Item>, t: Trace, extra: seq<Unknown>, n: nat, v: View)
    requires Given(plan, cands, extra) && Compiled(ctx, plan, cands, t, extra) && n < |t.views|
    requires Resolves(Eligible(cands, plan.requirements[n]), v)
    ensures BudgetAt(ctx, plan, n, v).None?
  {
    hide Resolves, Lists, IsTrace, WellIdentified, KeysOf, ConflictKeys, SumCost, Taken, Stop, TakenAt,
      MissingRecorded, ShortfallRecorded, BoundTo;
    var r := plan.requirements[n];
    BoundIsTaken(plan, cands, t, ctx.selected, n);
    SameItemsSameFacts(BoundTo(ctx.selected, r.id), TakenAt(plan, t, n));
    DisposesItsConflicts(ctx, plan, cands, t, extra, n, v);
    RunKeepsCeilings(plan, cands, t, n + 1);
    if MetAt(plan, t, n) { MetFacts(plan, t, n); }
    else if r.required { RequiredShortfallShown(ctx, plan, cands, t, extra, n); }
  }

  lemma MetFacts(plan: Plan, t: Trace, n: nat)
    requires InTrace(plan, t, n) && MetAt(plan, t, n)
    ensures |TakenAt(plan, t, n)| >= plan.requirements[n].minItems
    ensures plan.requirements[n].coverage.SemanticKeys? ==>
      plan.requirements[n].requiredKeys - KeysOf(TakenAt(plan, t, n)) - ConflictKeys(t.views[n].groups) == {}
  {
  }

  lemma BudgetsAccepted(ctx: Context, plan: Plan, cands: seq<Item>, t: Trace, extra: seq<Unknown>, views: seq<View>)
    requires Given(plan, cands, extra) && Compiled(ctx, plan, cands, t, extra) && Reresolved(plan, cands, views)
    ensures BudgetsRespected(ctx, plan, views)
  {
    hide Resolves, Lists, IsStep, BudgetAt, SumCost;
    forall n | 0 <= n < |views| ensures BudgetAt(ctx, plan, n, views[n]).None? {
      BudgetAccepted(ctx, plan, cands, t, extra, n, views[n]);
    }
    RunKeepsCeilings(plan, cands, t, |t.views|);
    ContextTally(plan, cands, t, ctx.selected);
  }

  // ---- dispositions, bindings, conflicts, memory -------------------------

  lemma DispositionsAccepted(ctx: Context, plan: Plan, cands: seq<Item>, t: Trace, extra: seq<Unknown>)
    requires Given(plan, cands, extra) && Compiled(ctx, plan, cands, t, extra)
    ensures RequirementsDisposed(ctx, plan)
  {
    hide Lists, IsTrace, WellIdentified, Met, TakenAt;
    forall r | r in plan.requirements && r.required
      ensures (exists s | s in ctx.selected :: r.id in s.because)
           || (exists u | u in ctx.unknowns :: u.requirement == Some(r.id) && Disposing(u.reason))
    {
      var n: nat :| n < |plan.requirements| && plan.requirements[n] == r;
      assert r.Valid();
      BoundIsTaken(plan, cands, t, ctx.selected, n);
      if TakenAt(plan, t, n) != [] {
        assert TakenAt(plan, t, n)[0] in TakenAt(plan, t, n);
        InBoundTo(ctx.selected, r.id, TakenAt(plan, t, n)[0]);
      } else {
        NotMetIfEmpty(plan, t, n);
        RequiredShortfallShown(ctx, plan, cands, t, extra, n);
      }
    }
  }

  lemma NotMetIfEmpty(plan: Plan, t: Trace, n: nat)
    requires InTrace(plan, t, n) && TakenAt(plan, t, n) == [] && plan.requirements[n].minItems > 0
    ensures !MetAt(plan, t, n)
  {
    if MetAt(plan, t, n) { MetFacts(plan, t, n); }
  }

  /** The recorded reasons of a selected item are those of the requirements that took it. */
  lemma ReasonsAreTakers(plan: Plan, cands: seq<Item>, t: Trace, selected: seq<Selected>, s: Selected)
    requires IsRun(plan, cands, t) && Lists(selected, t.End()) && s in selected
    ensures s.because == TakersOf(plan.requirements, Took(plan, t), |t.views|, s.item.id) && s.because != {}
  {
    hide IsStep;
    History(plan, cands, t, |t.views|);
    assert ReasonsFor(t.End(), s.item.id) == s.because;
  }

  lemma BindingsAccepted(ctx: Context, plan: Plan, cands: seq<Item>, t: Trace, extra: seq<Unknown>)
    requires Compiled(ctx, plan, cands, t, extra)
    ensures ItemsBound(ctx, plan)
  {
    hide IsStep, Lists, Took;
    forall s | s in ctx.selected ensures s.because != {} && s.because <= PlannedIds(plan.requirements) {
      ReasonsAreTakers(plan, cands, t, ctx.selected, s);
    }
  }

  lemma ConflictsAccepted(ctx: Context, plan: Plan, cands: seq<Item>, t: Trace, extra: seq<Unknown>, views: seq<View>)
    requires Compiled(ctx, plan, cands, t, extra) && Reresolved(plan, cands, views)
    ensures ConflictsVisible(ctx, plan, views)
  {
    hide Resolves, Lists;
    forall n, e | 0 <= n < |views| && e in views[n].groups ensures ConflictShown(ctx, plan.requirements[n].id, e) {
      TraceView(plan, cands, t, n);
      ViewsAgree(Eligible(cands, plan.requirements[n]), views[n], t.views[n]);
      if e.group.conflict { ConflictsShown(ctx, plan, cands, t, extra, n, e); }
    }
  }

  lemma OfferedIsCandidate(plan: Plan, cands: seq<Item>, i: Item)
    requires WellIdentified(Elems(cands)) && Offers(plan, cands, i)
    ensures i in cands
  {
    var r, v :| r in plan.requirements && Resolves(Eligible(cands, r), v) && i in ViewItems(v.groups);
    EligibleIdentified(cands, r);
    ViewItemIsRep(Eligible(cands, r), v, i);
  }

  /** A requirement only takes items it matches. */
  lemma TakenMatches(plan: Plan, cands: seq<Item>, t: Trace, n: nat, i: Item)
    requires WellIdentified(Elems(cands)) && IsTrace(plan, cands, t) && InTrace(plan, t, n) && i in TakenAt(plan, t, n)
    ensures Matches(plan.requirements[n], i)
  {
    hide Resolves, IsStep;
    var r := plan.requirements[n];
    TraceView(plan, cands, t, n);
    TakenFromView(cands, r, t.views[n]);
    assert i in FrontierOf(r, t.views[n]);
    EligibleIdentified(cands, r);
    ViewItemIsRep(Eligible(cands, r), t.views[n], i);
  }

  lemma MemoryAccepted(ctx: Context, plan: Plan, cands: seq<Item>, t: Trace, extra: seq<Unknown>)
    requires Given(plan, cands, extra) && Compiled(ctx, plan, cands, t, extra)
    ensures MemoryContained(ctx, plan)
  {
    hide IsStep, WellIdentified, Offers, TakenAt;
    SelectionOffered(plan, cands, t, |t.views|);
    forall s | s in ctx.selected && s.item.claim.MemoryClaim?
      ensures !Governed(s.item.level)
      ensures s.because <= (set r | r in plan.requirements && r.kind == MemoryContext :: r.id)
    {
      OfferedIsCandidate(plan, cands, s.item);
      assert s.item.Valid();
      ReasonsAreTakers(plan, cands, t, ctx.selected, s);
      forall x | x in s.because ensures exists r :: r in plan.requirements && r.kind == MemoryContext && r.id == x {
        var m :| 0 <= m < |t.views| && s.item.id in Took(plan, t)[m] && plan.requirements[m].id == x;
        var y :| y in TakenAt(plan, t, m) && y.id == s.item.id;
        TakenOffered(plan, cands, t, m);
        OneCarrier(plan, cands, y, s.item);
        TakenMatches(plan, cands, t, m, y);
        assert plan.requirements[m] in plan.requirements;
      }
    }
  }

  /**
   Every selected item matches every requirement it is bound to; so authority and
   capability gaps close only on governed facts.
   */
  lemma SelectedMatchesItsReasons(ctx: Context, plan: Plan, cands: seq<Item>, t: Trace, extra: seq<Unknown>,
      s: Selected, r: Requirement)
    requires Given(plan, cands, extra) && Compiled(ctx, plan, cands, t, extra)
    requires s in ctx.selected && r in plan.requirements && r.id in s.because
    ensures Matches(r, s.item)
    ensures s.item.claim.AuthorityClaim? || s.item.claim.CapabilityClaim? ==> Governed(s.item.level)
  {
    hide IsStep, WellIdentified, Offers, TakenAt, Lists;
    var m: nat :| m < |plan.requirements| && plan.requirements[m] == r;
    BoundIsTaken(plan, cands, t, ctx.selected, m);
    InBoundTo(ctx.selected, r.id, s.item);
    TakenMatches(plan, cands, t, m, s.item);
  }

  /** A bound unknown names the requirement that recorded it. */
  lemma UnknownsNameTheirRequirement(plan: Plan, cands: seq<Item>, t: Trace, extra: seq<Unknown>, u: Unknown)
    requires Unbound(extra) && IsRun(plan, cands, t) && Collected(plan, t, extra, u) && u.requirement.Some?
    ensures exists r :: r in plan.requirements && u.requirement == Some(r.id)
  {
    hide Resolves, IsStep, Met, ShortfallAt, Taken, Stop;
    var m: nat :| InTrace(plan, t, m) && RecordsAt(plan, t, m, u);
    TraceView(plan, cands, t, m);
    if u in t.views[m].unknowns { ViewReportsUnbound(Eligible(cands, plan.requirements[m]), t.views[m], u); }
    assert plan.requirements[m] in plan.requirements && u.requirement == Some(plan.requirements[m].id);
  }

  lemma UnknownsAccepted(ctx: Context, plan: Plan, cands: seq<Item>, t: Trace, extra: seq<Unknown>)
    requires Given(plan, cands, extra) && Compiled(ctx, plan, cands, t, extra)
    ensures UnknownsBound(ctx, plan)
  {
    hide IsTrace, Lists, WellIdentified, RecordsAt;
    forall u | u in ctx.unknowns && u.requirement.Some?
      ensures u.requirement.value in PlannedIds(plan.requirements)
      ensures forall r | r in plan.requirements && r.id == u.requirement.value ::
        !(r.policy.OptionalPolicy? && r.required)
    {
      assert Collected(plan, t, extra, u);
      UnknownsNameTheirRequirement(plan, cands, t, extra, u);
      forall r | r in plan.requirements ensures !(r.policy.OptionalPolicy? && r.required) { assert r.Valid(); }
    }
  }

  // ---- the main theorem --------------------------------------------------

  /**
   Two programs written apart agree on every input: whatever candidates and plan
   the selector ran over, closure accounts for the context it finished with. The
   two checks on the claims themselves are `ClosureVerdict`'s.
   */
  lemma ClosureAccountsForCompiled(ctx: Context, plan: Plan, cands: seq<Item>, t: Trace, extra: seq<Unknown>,
      views: seq<View>)
    requires Given(plan, cands, extra) && Compiled(ctx, plan, cands, t, extra) && Reresolved(plan, cands, views)
    ensures Accounted(ctx, plan, views)
  {
    hide RequirementsDisposed, ItemsBound, ConflictsVisible, MemoryContained, BudgetsRespected, UnknownsBound,
      CoverageClean;
    DispositionsAccepted(ctx, plan, cands, t, extra);
    BindingsAccepted(ctx, plan, cands, t, extra);
    ConflictsAccepted(ctx, plan, cands, t, extra, views);
    MemoryAccepted(ctx, plan, cands, t, extra);
    BudgetsAccepted(ctx, plan, cands, t, extra, views);
    UnknownsAccepted(ctx, plan, cands, t, extra);
    forall n | 0 <= n < |views| ensures CoverageClean(ctx, plan, n, views[n]) {
      CoverageAccepted(ctx, plan, cands, t, extra, n, views[n]);
    }
  }
}
