/**
 The requirement-bound compile: every requirement of the plan in order over one
 shared selection, then the finished context with its deduplicated unknowns.
 */
module ContextCompiler {
  import opened Base
  import opened ContextModel
  import opened Reachability
  import opened Resolution
  import opened ResolutionLaws
  import opened Selection

  /** A run of the plan: the view of each requirement met so far and the selection before and after it. */
  datatype Trace = Trace(views: seq<View>, states: seq<State>)
  {
    function End(): State
      requires states != []
    {
      states[|states| - 1]
    }
  }

  /** Requirement `n` was resolved over its own candidates and filled from the state it found. */
  ghost predicate IsStep(cands: seq<Item>, budget: Budget, r: Requirement, v: View, before: State, after: State)
  {
    && Resolves(Eligible(cands, r), v)
    && after == AdmitAll(before, Taken(before, budget, r, v), r.id)
  }

  ghost predicate IsTrace(plan: Plan, cands: seq<Item>, t: Trace)
  {
    && |t.states| == |t.views| + 1 && |t.views| <= |plan.requirements|
    && t.states[0] == EMPTY
    && forall n | 0 <= n < |t.views| ::
         IsStep(cands, plan.budget, plan.requirements[n], t.views[n], t.states[n], t.states[n + 1])
  }

  /** A trace of the whole plan. */
  ghost predicate IsRun(plan: Plan, cands: seq<Item>, t: Trace)
  {
    IsTrace(plan, cands, t) && |t.views| == |plan.requirements|
  }

  ghost predicate InTrace(plan: Plan, t: Trace, n: nat)
  {
    n < |t.views| && |t.views| <= |plan.requirements| && |t.states| == |t.views| + 1
  }

  /** What requirement `n` admits. */
  ghost function TakenAt(plan: Plan, t: Trace, n: nat): seq<Item>
    requires InTrace(plan, t, n)
  {
    Taken(t.states[n], plan.budget, plan.requirements[n], t.views[n])
  }

  ghost function StopOf(plan: Plan, t: Trace, n: nat): Option<BudgetStop>
    requires InTrace(plan, t, n)
  {
    Stop(t.states[n], plan.budget, plan.requirements[n], t.views[n])
  }

  ghost predicate MetAt(plan: Plan, t: Trace, n: nat)
    requires InTrace(plan, t, n)
  {
    Met(t.states[n], plan.budget, plan.requirements[n], t.views[n])
  }

  ghost predicate RecordsAt(plan: Plan, t: Trace, n: nat, u: Unknown)
    requires InTrace(plan, t, n)
  {
    Records(t.states[n], plan.budget, plan.requirements[n], t.views[n], u)
  }

  /** Every unknown the compile collects: scope, discovery and the like, then each requirement's. */
  ghost predicate Collected(plan: Plan, t: Trace, extra: seq<Unknown>, u: Unknown)
  {
    u in extra || exists n: nat :: InTrace(plan, t, n) && RecordsAt(plan, t, n, u)
  }

  /** `selected` lists the selection, each identity once, with its reasons. */
  ghost predicate Lists(selected: seq<Selected>, st: State)
  {
    && (forall i, j | 0 <= i < j < |selected| :: selected[i].item.id != selected[j].item.id)
    && (forall s | s in selected ::
          && s.item.id in st.byItem && s.item == st.byItem[s.item.id]
          && s.item.id in st.reasons && s.because == st.reasons[s.item.id])
    && (forall id | id in st.byItem :: exists s :: s in selected && s.item.id == id)
  }

  /** `unknowns` holds exactly one representative of every unknown identity collected. */
  ghost predicate Deduped(unknowns: seq<Unknown>, plan: Plan, t: Trace, extra: seq<Unknown>)
  {
    && OneEach(unknowns)
    && (forall u | u in unknowns :: Collected(plan, t, extra, u))
    && (forall u | Collected(plan, t, extra, u) :: Represented(unknowns, u))
  }

  /** No identity is listed twice. */
  ghost predicate OneEach(unknowns: seq<Unknown>)
  {
    NoDup(unknowns) && forall v, w | v in unknowns && w in unknowns && SameUnknown(v, w) :: v == w
  }

  ghost predicate NothingBlocked(plan: Plan, t: Trace)
  {
    forall n: nat | InTrace(plan, t, n) :: plan.requirements[n].policy.Block? ==> MetAt(plan, t, n)
  }

  /** `ctx` is a finished compile of `plan`: nothing was blocked, everything is listed. */
  ghost predicate Compiled(ctx: Context, plan: Plan, cands: seq<Item>, t: Trace, extra: seq<Unknown>)
  {
    && IsRun(plan, cands, t)
    && Lists(ctx.selected, t.End())
    && Deduped(ctx.unknowns, plan, t, extra)
    && NothingBlocked(plan, t)
  }

  // ---- the imperative compile --------------------------------------------

  ghost predicate Represented(out: seq<Unknown>, u: Unknown)
  {
    exists w :: w in out && SameUnknown(w, u)
  }

  lemma StillRepresented(out: seq<Unknown>, kept: seq<Unknown>, u: Unknown, x: Unknown)
    requires Represented(out, x) && forall w :: w in kept <==> w in out && !SameUnknown(w, u)
    ensures Represented(kept + [u], x)
  {
    var w :| w in out && SameUnknown(w, x);
    if SameUnknown(w, u) { assert u in kept + [u] && SameUnknown(u, x); } else { assert w in kept + [u]; }
  }

  /** `u` is the last of its identity in `us`. */
  ghost predicate IsLastOf(us: seq<Unknown>, u: Unknown)
  {
    exists k :: 0 <= k < |us| && us[k] == u && forall j | k < j < |us| :: !SameUnknown(us[j], u)
  }

  lemma LastSnoc(us: seq<Unknown>, n: nat)
    requires n < |us|
    ensures IsLastOf(us[..n + 1], us[n])
    ensures forall w | IsLastOf(us[..n], w) && !SameUnknown(w, us[n]) :: IsLastOf(us[..n + 1], w)
  {
    var before, after := us[..n], us[..n + 1];
    assert after == before + [us[n]];
    forall w | IsLastOf(us[..n], w) && !SameUnknown(w, us[n]) ensures IsLastOf(us[..n + 1], w) {
      var k :| 0 <= k < n && before[k] == w && forall j | k < j < n :: !SameUnknown(before[j], w);
      forall j | k < j < n + 1 ensures !SameUnknown(after[j], w) {
        if j < n { assert after[j] == before[j]; }
      }
      assert after[k] == w;
    }
  }

  /** Keep the last unknown of each identity, each identity once. */
  method DedupeUnknowns(unknowns: seq<Unknown>) returns (out: seq<Unknown>)
    ensures forall u | u in unknowns :: Represented(out, u)
    ensures forall u | u in out :: u in unknowns && IsLastOf(unknowns, u)
    ensures OneEach(out)
  {
    hide IsLastOf;
    out := [];
    for k := 0 to |unknowns|
      invariant forall u | u in out :: u in unknowns && IsLastOf(unknowns[..k], u)
      invariant OneEach(out)
      invariant forall i | 0 <= i < k :: Represented(out, unknowns[i])
    {
      var u := unknowns[k];
      var kept := Filter((w: Unknown) => !SameUnknown(w, u), out);
      forall i | 0 <= i < k + 1 ensures Represented(kept + [u], unknowns[i]) {
        if i < k { StillRepresented(out, kept, u, unknowns[i]); }
        else { assert u in kept + [u] && SameUnknown(u, u); }
      }
      LastSnoc(unknowns, k);
      NoDupConcat(kept, [u]);
      out := kept + [u];
    }
    assert unknowns[..|unknowns|] == unknowns;
  }

  /** The canonical order of the finished context: kind, key and identity. */
  predicate SelectedLt(a: Selected, b: Selected) { SortKeyLt(a.item, b.item) }

  lemma SelectedOrder(selected: seq<Selected>)
    requires forall i, j | 0 <= i < j < |selected| :: selected[i].item.id != selected[j].item.id
    ensures NoDup(selected) && StrictOrderOn(SelectedLt, Elems(selected))
  {
    var items := set s | s in selected :: s.item;
    forall a, b | a in Elems(selected) && b in Elems(selected) && a.item.id == b.item.id ensures a == b {
      var i :| 0 <= i < |selected| && selected[i] == a;
      var j :| 0 <= j < |selected| && selected[j] == b;
      assert i == j;
    }
    hide SortKeyLt;
    SortKeyOrder(items);
  }

  /** Sorting a listing of the selection lists it still. */
  lemma SortedLists(selected: seq<Selected>, st: State)
    requires Lists(selected, st)
    ensures Lists(Sort(SelectedLt, selected), st) && StrictlySorted(SelectedLt, Sort(SelectedLt, selected))
  {
    var sorted := Sort(SelectedLt, selected);
    SelectedOrder(selected);
    SortSorted(SelectedLt, selected);
    StrictlySortedNoDup(SelectedLt, sorted);
    SameListing(selected, sorted, st);
  }

  lemma SameListing(a: seq<Selected>, b: seq<Selected>, st: State)
    requires Lists(a, st) && NoDup(b) && Elems(a) == Elems(b)
    ensures Lists(b, st)
  {
    assert forall s :: s in a <==> s in Elems(a);
    assert forall s :: s in b <==> s in Elems(b);
    forall i, j | 0 <= i < j < |b| ensures b[i].item.id != b[j].item.id {
      assert b[i] in a && b[j] in a;
      var p :| 0 <= p < |a| && a[p] == b[i];
      var q :| 0 <= q < |a| && a[q] == b[j];
      assert p != q;
    }
  }

  /** The selected items with their reasons, in canonical order. */
  method ListSelection(st: State) returns (selected: seq<Selected>)
    requires st.reasons.Keys == st.byItem.Keys
    requires forall id | id in st.byItem :: st.byItem[id].id == id
    ensures Lists(selected, st) && StrictlySorted(SelectedLt, selected)
  {
    SortedStringsSorted(st.byItem.Keys);
    var ids := SortedStrings(st.byItem.Keys);
    forall id ensures id in ids <==> id in st.byItem { assert id in ids <==> id in Elems(ids); }
    selected := seq(|ids|, k requires 0 <= k < |ids| && ids[k] in st.byItem && ids[k] in st.reasons =>
                      Selected(st.byItem[ids[k]], st.reasons[ids[k]]));
    ListedIds(st, ids, selected);
    SortedLists(selected, st);
    selected := Sort(SelectedLt, selected);
  }

  lemma ListedIds(st: State, ids: seq<string>, selected: seq<Selected>)
    requires st.reasons.Keys == st.byItem.Keys
    requires forall id | id in st.byItem :: st.byItem[id].id == id
    requires NoDup(ids) && forall id :: id in ids <==> id in st.byItem
    requires |selected| == |ids|
    requires forall j | 0 <= j < |ids| :: selected[j] == Selected(st.byItem[ids[j]], st.reasons[ids[j]])
    ensures Lists(selected, st)
  {
    forall i, j | 0 <= i < j < |selected| ensures selected[i].item.id != selected[j].item.id {
      assert selected[i].item.id == ids[i] && selected[j].item.id == ids[j];
    }
    forall id | id in st.byItem ensures exists s :: s in selected && s.item.id == id {
      var j :| 0 <= j < |ids| && ids[j] == id;
      assert selected[j] in selected;
    }
  }

  lemma {:induction false} AdmitAllKeys(st: State, items: seq<Item>, rid: string)
    requires st.reasons.Keys == st.byItem.Keys
    requires forall id | id in st.byItem :: st.byItem[id].id == id
    ensures AdmitAll(st, items, rid).reasons.Keys == AdmitAll(st, items, rid).byItem.Keys
    ensures forall id | id in AdmitAll(st, items, rid).byItem :: AdmitAll(st, items, rid).byItem[id].id == id
  {
    if items != [] { AdmitAllKeys(st, items[..|items| - 1], rid); }
  }

  lemma StateAfter(plan: Plan, cands: seq<Item>, t: Trace, n: nat)
    requires IsTrace(plan, cands, t) && n < |t.views|
    ensures InTrace(plan, t, n)
    ensures t.states[n + 1] == AdmitAll(t.states[n], TakenAt(plan, t, n), plan.requirements[n].id)
  {
    assert IsStep(cands, plan.budget, plan.requirements[n], t.views[n], t.states[n], t.states[n + 1]);
  }

  /** Reasons and items always have the same keys, and each item sits under its own identity. */
  lemma {:induction false} TraceKeys(plan: Plan, cands: seq<Item>, t: Trace, n: nat)
    requires IsTrace(plan, cands, t) && n <= |t.views|
    ensures t.states[n].reasons.Keys == t.states[n].byItem.Keys
    ensures forall id | id in t.states[n].byItem :: t.states[n].byItem[id].id == id
  {
    if n > 0 {
      hide IsTrace, TakenAt, AdmitAll;
      TraceKeys(plan, cands, t, n - 1);
      StateAfter(plan, cands, t, n - 1);
      AdmitAllKeys(t.states[n - 1], TakenAt(plan, t, n - 1), plan.requirements[n - 1].id);
    }
  }

  /** Resolve and fill one requirement. */
  method SelectFor(r: Requirement, cands: seq<Item>, sel: SharedSelection)
    returns (out: Result<seq<Unknown>, Blocked>, v: View)
    requires WellIdentified(Elems(cands))
    modifies sel
    ensures IsStep(cands, sel.budget, r, v, old(sel.Now()), sel.Now())
    ensures out.Err? <==> r.policy.Block? && !Met(old(sel.Now()), sel.budget, r, v)
    ensures out.Err? ==> out.error == Blocked(r.id)
    ensures out.Ok? ==> forall u :: u in out.value <==> Records(old(sel.Now()), sel.budget, r, v, u)
  {
    EligibleIdentified(cands, r);
    v := ResolveCandidates(Eligible(cands, r));
    out := SelectFrom(r, Eligible(cands, r), v, sel);
  }

  /** The reports of a run, requirement by requirement. */
  ghost predicate Reported(plan: Plan, t: Trace, n: nat, report: seq<Unknown>)
    requires InTrace(plan, t, n)
  {
    && (plan.requirements[n].policy.Block? ==> MetAt(plan, t, n))
    && forall u :: u in report <==> RecordsAt(plan, t, n, u)
  }

  lemma TraceNext(plan: Plan, cands: seq<Item>, t: Trace, v: View, after: State)
    requires IsTrace(plan, cands, t) && |t.views| < |plan.requirements|
    requires IsStep(cands, plan.budget, plan.requirements[|t.views|], v, t.End(), after)
    ensures IsTrace(plan, cands, Trace(t.views + [v], t.states + [after]))
  {
    hide IsStep;
    var t', k := Trace(t.views + [v], t.states + [after]), |t.views|;
    forall n | 0 <= n < k + 1
      ensures IsStep(cands, plan.budget, plan.requirements[n], t'.views[n], t'.states[n], t'.states[n + 1])
    {
      assert t'.states[n] == t.states[n];
      if n < k { assert t'.views[n] == t.views[n] && t'.states[n + 1] == t.states[n + 1]; }
      else { assert t'.views[n] == v && t'.states[n + 1] == after; }
    }
  }

  lemma ReportStands(plan: Plan, t: Trace, v: View, after: State, n: nat, report: seq<Unknown>)
    requires InTrace(plan, t, n) && Reported(plan, t, n, report) && |t.views| < |plan.requirements|
    ensures Reported(plan, Trace(t.views + [v], t.states + [after]), n, report)
  {
    var t' := Trace(t.views + [v], t.states + [after]);
    assert t'.views[n] == t.views[n] && t'.states[n] == t.states[n];
  }

  lemma ReportLast(plan: Plan, t: Trace, v: View, after: State, report: seq<Unknown>)
    requires |t.views| < |plan.requirements| && |t.states| == |t.views| + 1
    requires plan.requirements[|t.views|].policy.Block? ==> Met(t.End(), plan.budget, plan.requirements[|t.views|], v)
    requires forall u :: u in report <==> Records(t.End(), plan.budget, plan.requirements[|t.views|], v, u)
    ensures Reported(plan, Trace(t.views + [v], t.states + [after]), |t.views|, report)
  {
    hide Met, Records;
    var t', k := Trace(t.views + [v], t.states + [after]), |t.views|;
    assert t'.views[k] == v && t'.states[k] == t.states[k] && t.states[k] == t.End();
  }

  /** The run up to `t` kept every blocking requirement met; the next one blocks and is unmet on its own view. */
  ghost predicate BlockedAt(plan: Plan, cands: seq<Item>, t: Trace, error: Blocked)
  {
    && IsTrace(plan, cands, t) && NothingBlocked(plan, t) && |t.views| < |plan.requirements|
    && var r := plan.requirements[|t.views|];
    && r.policy.Block? && error == Blocked(r.id)
    && exists v :: Resolves(Eligible(cands, r), v) && !Met(t.End(), plan.budget, r, v)
  }

  lemma StepResolves(cands: seq<Item>, budget: Budget, r: Requirement, v: View, before: State, after: State)
    requires IsStep(cands, budget, r, v, before, after)
    ensures Resolves(Eligible(cands, r), v)
  {
  }

  lemma ReportedUnblocked(plan: Plan, t: Trace, reports: seq<seq<Unknown>>)
    requires |t.views| == |reports| <= |plan.requirements| && |t.states| == |t.views| + 1
    requires forall n | 0 <= n < |t.views| :: Reported(plan, t, n, reports[n])
    ensures NothingBlocked(plan, t)
  {
    forall n: nat | InTrace(plan, t, n) ensures plan.requirements[n].policy.Block? ==> MetAt(plan, t, n) {
      assert Reported(plan, t, n, reports[n]);
    }
  }

  /** Run the plan's requirements in order over one selection. */
  method RunPlan(plan: Plan, cands: seq<Item>, sel: SharedSelection)
    returns (out: Result<seq<seq<Unknown>>, Blocked>, ghost t: Trace)
    requires WellIdentified(Elems(cands)) && sel.budget == plan.budget && sel.Now() == EMPTY
    modifies sel
    ensures out.Ok? ==> IsRun(plan, cands, t) && t.End() == sel.Now() && |out.value| == |t.views|
    ensures out.Ok? ==> forall n | 0 <= n < |t.views| :: Reported(plan, t, n, out.value[n])
    ensures out.Err? ==> BlockedAt(plan, cands, t, out.error)
  {
    hide IsStep, Reported, Met, Records;
    t := Trace([], [EMPTY]);
    var reports: seq<seq<Unknown>> := [];
    for k := 0 to |plan.requirements|
      invariant IsTrace(plan, cands, t) && |t.views| == |reports| == k && t.End() == sel.Now()
      invariant forall n | 0 <= n < k :: Reported(plan, t, n, reports[n])
    {
      var r := plan.requirements[k];
      var more, v := SelectFor(r, cands, sel);
      if more.Err? {
        StepResolves(cands, plan.budget, r, v, t.End(), sel.Now());
        ReportedUnblocked(plan, t, reports);
        return Err(more.error), t;
      }
      TraceNext(plan, cands, t, v, sel.Now());
      ghost var t' := Trace(t.views + [v], t.states + [sel.Now()]);
      forall n | 0 <= n < k + 1 ensures Reported(plan, t', n, (reports + [more.value])[n]) {
        if n < k { ReportStands(plan, t, v, sel.Now(), n, reports[n]); }
        else { ReportLast(plan, t, v, sel.Now(), more.value); }
      }
      t, reports := t', reports + [more.value];
    }
    out := Ok(reports);
  }

  lemma CollectedReports(plan: Plan, t: Trace, extra: seq<Unknown>, reports: seq<seq<Unknown>>, all: seq<Unknown>,
      u: Unknown)
    requires |t.views| == |reports| == |plan.requirements| && |t.states| == |t.views| + 1
    requires forall n | 0 <= n < |t.views| :: Reported(plan, t, n, reports[n])
    requires forall x :: x in all <==> exists n :: 0 <= n < |reports| && x in reports[n]
    ensures u in extra + all <==> Collected(plan, t, extra, u)
  {
    if u in all {
      var n :| 0 <= n < |reports| && u in reports[n];
      assert InTrace(plan, t, n) && RecordsAt(plan, t, n, u);
    }
    if n: nat :| InTrace(plan, t, n) && RecordsAt(plan, t, n, u) {
      assert Reported(plan, t, n, reports[n]);
      assert u in reports[n];
    }
  }

  /** Compile the requirement-bound context, or fail on a BLOCK requirement. */
  method Compile(plan: Plan, cands: seq<Item>, extra: seq<Unknown>)
    returns (out: Result<Context, Blocked>, ghost t: Trace)
    requires WellIdentified(Elems(cands))
    ensures out.Ok? ==> Compiled(out.value, plan, cands, t, extra)
    ensures out.Ok? ==> StrictlySorted(SelectedLt, out.value.selected)
    ensures out.Err? ==> BlockedAt(plan, cands, t, out.error)
  {
    var sel := new SharedSelection(plan.budget);
    var reports;
    reports, t := RunPlan(plan, cands, sel);
    if reports.Err? {
      return Err(reports.error), t;
    }
    var all := Flatten(reports.value);
    var unknowns := DedupeUnknowns(extra + all);
    TraceKeys(plan, cands, t, |t.views|);
    var selected := ListSelection(sel.Now());
    out := Ok(Context(selected, unknowns));
    Finish(plan, cands, t, extra, reports.value, all, out.value);
  }

  lemma Finish(plan: Plan, cands: seq<Item>, t: Trace, extra: seq<Unknown>, reports: seq<seq<Unknown>>,
      all: seq<Unknown>, ctx: Context)
    requires IsRun(plan, cands, t) && |reports| == |t.views|
    requires forall n | 0 <= n < |t.views| :: Reported(plan, t, n, reports[n])
    requires forall x :: x in all <==> exists n :: 0 <= n < |reports| && x in reports[n]
    requires OneEach(ctx.unknowns) && forall u | u in ctx.unknowns :: u in extra + all
    requires forall u | u in extra + all :: Represented(ctx.unknowns, u)
    requires Lists(ctx.selected, t.End())
    ensures Compiled(ctx, plan, cands, t, extra)
  {
    forall u ensures u in extra + all <==> Collected(plan, t, extra, u) {
      CollectedReports(plan, t, extra, reports, all, u);
    }
    ReportedUnblocked(plan, t, reports);
  }
}
