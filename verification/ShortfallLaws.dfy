/**
 What a compile owes a requirement. Told from the finished context and the groups
 the requirement's candidates settled into: when it fell short, when it was cut
 short, what is recorded of that, and when a blocking requirement stops the compile.
 */
module ShortfallLaws {
  import opened Base
  import opened ContextModel
  import opened Reachability
  import opened Resolution
  import opened ResolutionLaws
  import opened Selection
  import opened ContextCompiler
  import opened SelectionLaws
  import opened Closure
  import opened ClosureAgreement
  import opened ClosureLaws

  /** No item of `got` has the key, and no conflict accounts for it. */
  ghost predicate Unaccounted(v: View, got: set<Item>, key: string)
  {
    !InConflict(v, key) && forall i | i in got :: i.key != key
  }

  /** The requirement got less than it asks for. */
  ghost predicate FallsShort(r: Requirement, v: View, got: set<Item>)
  {
    || |got| < r.minItems
    || (r.coverage == SemanticKeys && exists key :: key in r.requiredKeys && Unaccounted(v, got, key))
    || (r.coverage == AllEligible && exists i :: OnOffer(v, i) && i !in got)
  }

  /** Something on offer that it would have taken was left. */
  ghost predicate CutShort(r: Requirement, v: View, got: set<Item>)
  {
    && (r.coverage == Minimum ==> |got| < r.minItems)
    && exists i :: OnOffer(v, i) && i !in got && (r.coverage == SemanticKeys ==> i.key in r.requiredKeys)
  }

  // ---- one requirement ---------------------------------------------------

  /** The frontier's items, mode by mode. */
  lemma FrontierItems(r: Requirement, v: View)
    requires NoDup(ViewItems(v.groups))
    ensures var f := FrontierOf(r, v);
      && NoDup(f) && (forall i | i in f :: OnOffer(v, i))
      && (r.coverage == AllEligible ==> forall i | OnOffer(v, i) :: i in f)
      && (r.coverage == SemanticKeys ==> forall i :: i in f <==> OnOffer(v, i) && i.key in r.requiredKeys)
      && (r.coverage == Minimum ==> |f| <= r.minItems && (|f| < r.minItems ==> forall i | OnOffer(v, i) :: i in f))
  {
    var sorted := Sort(CandLt, ViewItems(v.groups));
    SortedWithin(ViewItems(v.groups));
    FrontierWithin(r, sorted);
    forall i ensures i in sorted <==> OnOffer(v, i) { InViewItems(v.groups, i); }
  }

  lemma PrefixSet(f: seq<Item>, k: nat)
    requires NoDup(f) && k <= |f|
    ensures |Elems(f[..k])| == k && NoDup(f[..k])
    ensures forall i :: i in Elems(f[..k]) <==> i in f[..k]
    ensures k < |f| ==> f[k] in f && f[k] !in Elems(f[..k])
    ensures k == |f| ==> forall i | i in f :: i in Elems(f[..k])
  {
    NoDupCard(f[..k]);
    assert k == |f| ==> f[..k] == f;
  }

  /** What a requirement takes is the items it gets; it was stopped exactly when it was cut short. */
  lemma StoppedIff(st: State, budget: Budget, r: Requirement, v: View)
    requires NoDup(ViewItems(v.groups))
    ensures Stop(st, budget, r, v).Some? <==> CutShort(r, v, Elems(Taken(st, budget, r, v)))
  {
    var f, k := FrontierOf(r, v), TakeFrom(st, budget, r, FrontierOf(r, v), 0);
    FrontierItems(r, v);
    PrefixSet(f, k);
    hide FrontierOf, StopAt, OnOffer, NoDup, Elems;
    assert Taken(st, budget, r, v) == f[..k];
    if k < |f| {
      var i := f[k];
      assert OnOffer(v, i) && i !in Elems(f[..k]);
    }
  }

  /** It is met exactly when it does not fall short. */
  lemma MetIff(st: State, budget: Budget, r: Requirement, v: View)
    requires NoDup(ViewItems(v.groups))
    ensures Met(st, budget, r, v) <==> !FallsShort(r, v, Elems(Taken(st, budget, r, v)))
  {
    StoppedIff(st, budget, r, v);
    var t := Taken(st, budget, r, v);
    FrontierItems(r, v);
    PrefixSet(FrontierOf(r, v), TakeFrom(st, budget, r, FrontierOf(r, v), 0));
    MissingIff(r, v, t);
    hide FrontierOf, Stop, Taken, OnOffer, Unaccounted, NoDup;
    assert r.coverage == AllEligible ==> (CutShort(r, v, Elems(t)) <==> exists i :: OnOffer(v, i) && i !in Elems(t));
  }

  lemma MissingIff(r: Requirement, v: View, t: seq<Item>)
    ensures r.requiredKeys - KeysOf(t) - ConflictKeys(v.groups) ==
      set key | key in r.requiredKeys && Unaccounted(v, Elems(t), key)
  {
    forall key ensures key in KeysOf(t) <==> exists i :: i in Elems(t) && i.key == key { }
    forall key ensures key in ConflictKeys(v.groups) <==> InConflict(v, key) { }
  }

  // ---- the finished context ----------------------------------------------

  lemma GotIsTaken(ctx: Context, plan: Plan, cands: seq<Item>, t: Trace, n: nat)
    requires plan.Valid() && WellIdentified(Elems(cands)) && IsRun(plan, cands, t) && Lists(ctx.selected, t.End())
    requires n < |plan.requirements|
    ensures InTrace(plan, t, n) && Got(ctx, plan.requirements[n].id) == Elems(TakenAt(plan, t, n))
    ensures NoDup(ViewItems(t.views[n].groups))
  {
    hide IsStep, Lists, TakenAt, Resolves, WellIdentified;
    var rid := plan.requirements[n].id;
    BoundIsTaken(plan, cands, t, ctx.selected, n);
    TraceView(plan, cands, t, n);
    EligibleIdentified(cands, plan.requirements[n]);
    ViewItemsDistinct(Eligible(cands, plan.requirements[n]), t.views[n]);
    forall i ensures i in Got(ctx, rid) <==> i in TakenAt(plan, t, n) { InBoundTo(ctx.selected, rid, i); }
  }

  /** Where nothing was blocked, no BLOCK requirement falls short. */
  lemma NothingBlockedIff(plan: Plan, cands: seq<Item>, t: Trace)
    requires WellIdentified(Elems(cands)) && IsTrace(plan, cands, t)
    ensures NothingBlocked(plan, t) <==> forall n: nat | InTrace(plan, t, n) ::
      plan.requirements[n].policy == Block ==>
        !FallsShort(plan.requirements[n], t.views[n], Elems(TakenAt(plan, t, n)))
  {
    hide IsStep, TakenAt, FallsShort, Met, Resolves, WellIdentified;
    forall n: nat | InTrace(plan, t, n)
      ensures MetAt(plan, t, n) <==> !FallsShort(plan.requirements[n], t.views[n], Elems(TakenAt(plan, t, n))) {
      MetAtIff(plan, cands, t, n);
    }
  }

  lemma MetAtIff(plan: Plan, cands: seq<Item>, t: Trace, n: nat)
    requires WellIdentified(Elems(cands)) && IsTrace(plan, cands, t) && InTrace(plan, t, n)
    ensures MetAt(plan, t, n) <==> !FallsShort(plan.requirements[n], t.views[n], Elems(TakenAt(plan, t, n)))
    ensures StopOf(plan, t, n).Some? <==> CutShort(plan.requirements[n], t.views[n], Elems(TakenAt(plan, t, n)))
  {
    hide IsStep, FallsShort, CutShort, Met, Taken, Stop, Resolves, WellIdentified;
    TraceView(plan, cands, t, n);
    EligibleIdentified(cands, plan.requirements[n]);
    ViewItemsDistinct(Eligible(cands, plan.requirements[n]), t.views[n]);
    MetIff(t.states[n], plan.budget, plan.requirements[n], t.views[n]);
    StoppedIff(t.states[n], plan.budget, plan.requirements[n], t.views[n]);
  }

  /** A compile that stops does so at a BLOCK requirement that falls short on what it could get. */
  lemma BlockedFallsShort(plan: Plan, cands: seq<Item>, t: Trace, error: Blocked)
    requires WellIdentified(Elems(cands)) && BlockedAt(plan, cands, t, error)
    ensures |t.views| < |plan.requirements| && t.states != []
    ensures plan.requirements[|t.views|].policy == Block && error.requirement == plan.requirements[|t.views|].id
    ensures var r := plan.requirements[|t.views|];
      exists v :: Resolves(Eligible(cands, r), v) && FallsShort(r, v, Elems(Taken(t.End(), plan.budget, r, v)))
  {
    hide IsStep, FallsShort, Met, Taken, Resolves, WellIdentified, NothingBlocked;
    var r := plan.requirements[|t.views|];
    var v :| Resolves(Eligible(cands, r), v) && !Met(t.End(), plan.budget, r, v);
    EligibleIdentified(cands, r);
    ViewItemsDistinct(Eligible(cands, r), v);
    MetIff(t.End(), plan.budget, r, v);
  }

  /**
   What a finished compile records of one requirement. It has a shortfall exactly
   when it falls short, one that is OPTIONAL only when it was cut short; one that
   BLOCKs never falls short.
   */
  lemma ShortfallIff(ctx: Context, plan: Plan, cands: seq<Item>, t: Trace, extra: seq<Unknown>, n: nat)
    requires Given(plan, cands, extra) && Compiled(ctx, plan, cands, t, extra) && n < |plan.requirements|
    ensures var r, v, got := plan.requirements[n], t.views[n], Got(ctx, plan.requirements[n].id);
      && ((exists u :: TellsShortfall(ctx, r.id, u)) <==>
          FallsShort(r, v, got) && (r.policy == OptionalPolicy ==> CutShort(r, v, got)))
      && (r.policy == Block ==> !FallsShort(r, v, got))
  {
    hide IsStep, FallsShort, CutShort, Met, Taken, Stop, Lists, WellIdentified, Deduped, Got;
    var r := plan.requirements[n];
    GotIsTaken(ctx, plan, cands, t, n);
    MetAtIff(plan, cands, t, n);
    if !MetAt(plan, t, n) && ShortfallAt(plan, t, n).Some? {
      UnmetShown(ctx, plan, cands, t, extra, n);
      var w :| w in ctx.unknowns && SameUnknown(w, ShortfallAt(plan, t, n).value);
      assert TellsShortfall(ctx, r.id, w);
    }
    if u :| TellsShortfall(ctx, r.id, u) {
      ShownShortfallIsOwn(ctx, plan, cands, t, extra, n, u);
    }
  }

  /** And what it says: why, how much it matters, how many keys were selected, and which are missing. */
  lemma ShortfallSays(ctx: Context, plan: Plan, cands: seq<Item>, t: Trace, extra: seq<Unknown>, n: nat, u: Unknown)
    requires Given(plan, cands, extra) && Compiled(ctx, plan, cands, t, extra) && n < |plan.requirements|
    requires TellsShortfall(ctx, plan.requirements[n].id, u)
    ensures var r, v, got := plan.requirements[n], t.views[n], Got(ctx, plan.requirements[n].id);
      && u.key == None && u.details.ShortfallDetails?
      && (u.reason == BudgetInsufficient <==> CutShort(r, v, got))
      && (u.details.stop.Some? <==> CutShort(r, v, got))
      && (u.materiality == Blocking <==> r.required)
      && u.details.kind == r.kind && u.details.coverage == r.coverage && u.details.minItems == r.minItems
      && u.details.selected == |set i | i in got :: i.key|
      && u.details.missingKeys == (if r.coverage == SemanticKeys
           then Some(set key | key in r.requiredKeys && Unaccounted(v, got, key)) else None)
    ensures forall w | TellsShortfall(ctx, plan.requirements[n].id, w) :: w == u
  {
    hide IsStep, CutShort, Met, Taken, Stop, Lists, WellIdentified, Deduped, Got, Unaccounted;
    GotIsTaken(ctx, plan, cands, t, n);
    MetAtIff(plan, cands, t, n);
    ShownShortfallIsOwn(ctx, plan, cands, t, extra, n, u);
    MissingIff(plan.requirements[n], t.views[n], TakenAt(plan, t, n));
    assert KeysOf(TakenAt(plan, t, n)) == set i | i in Elems(TakenAt(plan, t, n)) :: i.key;
    forall w | TellsShortfall(ctx, plan.requirements[n].id, w) ensures w == u {
      ShownShortfallIsOwn(ctx, plan, cands, t, extra, n, w);
    }
  }

  ghost predicate IsConflict(v: View, key: string, e: Entry)
  {
    e in v.groups && e.group.conflict && e.key.key == key
  }

  /** A conflict of the requirement's own view, and nothing else, is recorded under its key, at its weight. */
  lemma ConflictRecordedIff(ctx: Context, plan: Plan, cands: seq<Item>, t: Trace, extra: seq<Unknown>, n: nat,
                            key: string)
    requires Given(plan, cands, extra) && Compiled(ctx, plan, cands, t, extra) && n < |plan.requirements|
    ensures (exists u :: TellsConflict(ctx, plan.requirements[n].id, key, u)) <==> InConflict(t.views[n], key)
    ensures forall u | TellsConflict(ctx, plan.requirements[n].id, key, u) ::
      && (u.materiality == Blocking <==> plan.requirements[n].required)
      && exists e :: IsConflict(t.views[n], key, e)
           && u.details == ConflictDetails(plan.requirements[n].kind, e.group.info)
  {
    hide IsStep, Met, Taken, Stop, Lists, WellIdentified, Deduped;
    var r, v := plan.requirements[n], t.views[n];
    if InConflict(v, key) {
      var e :| e in v.groups && e.group.conflict && e.key.key == key;
      ConflictsShown(ctx, plan, cands, t, extra, n, e);
    }
    forall u | TellsConflict(ctx, r.id, key, u)
      ensures InConflict(v, key) && (u.materiality == Blocking <==> r.required)
      ensures exists e :: IsConflict(v, key, e) && u.details == ConflictDetails(r.kind, e.group.info) {
      assert Collected(plan, t, extra, u) by { KeptIsCollected(ctx, plan, cands, t, extra, u); }
      BoundUnknownIsOwn(plan, cands, t, extra, n, u);
      var e :| e in v.groups && e.group.conflict && u == ConflictUnknown(r, e);
    }
  }

  lemma KeptIsCollected(ctx: Context, plan: Plan, cands: seq<Item>, t: Trace, extra: seq<Unknown>, u: Unknown)
    requires Compiled(ctx, plan, cands, t, extra) && u in ctx.unknowns
    ensures Collected(plan, t, extra, u)
  {
    hide Lists, IsTrace;
  }

  // ---- what is taken first -----------------------------------------------

  /** Scoped before global, then the stronger, then the lower key, then the lower identity. */
  ghost predicate ComesBefore(a: Item, b: Item)
  {
    if a.scope.Scoped? != b.scope.Scoped? then a.scope.Scoped?
    else if a.level != b.level then LevelRank(a.level) < LevelRank(b.level)
    else if a.key != b.key then TextBelow(a.key, b.key)
    else TextBelow(a.id, b.id)
  }

  lemma CandLtIff(a: Item, b: Item)
    ensures CandLt(a, b) <==> ComesBefore(a, b)
  {
    StrLtIff(a.key, b.key);
    StrLtIff(a.id, b.id);
  }

  lemma EarlierInOrder(f: seq<Item>, k: nat, a: Item, b: Item)
    requires StrictlySorted(CandLt, f) && k <= |f| && a in f[..k] && b in f && b !in f[..k]
    ensures ComesBefore(a, b)
  {
    hide CandLt, ComesBefore;
    var i :| 0 <= i < k && f[..k][i] == a;
    var j :| 0 <= j < |f| && f[j] == b;
    assert forall m | 0 <= m < k :: f[m] in f[..k];
    CandLtIff(a, b);
  }

  /** What a requirement got comes before anything it would have taken and did not get. */
  lemma GotComesFirst(ctx: Context, plan: Plan, cands: seq<Item>, t: Trace, extra: seq<Unknown>, n: nat, a: Item,
                      b: Item)
    requires Given(plan, cands, extra) && Compiled(ctx, plan, cands, t, extra) && n < |plan.requirements|
    requires a in Got(ctx, plan.requirements[n].id) && b !in Got(ctx, plan.requirements[n].id)
    requires OnOffer(t.views[n], b)
    requires plan.requirements[n].coverage == SemanticKeys ==> b.key in plan.requirements[n].requiredKeys
    ensures ComesBefore(a, b)
  {
    hide IsStep, Lists, WellIdentified, Deduped, Got, Resolves, OnOffer, NoDup, IdsDistinct, ComesBefore;
    var r, v := plan.requirements[n], t.views[n];
    GotIsTaken(ctx, plan, cands, t, n);
    TraceView(plan, cands, t, n);
    EligibleIdentified(cands, r);
    ViewItemsDistinct(Eligible(cands, r), v);
    TakenComesFirst(t.states[n], plan.budget, r, v, a, b);
  }

  lemma OfferSorted(v: View)
    requires NoDup(ViewItems(v.groups)) && IdsDistinct(Elems(ViewItems(v.groups)))
    ensures StrictlySorted(CandLt, Sort(CandLt, ViewItems(v.groups)))
    ensures forall i :: i in Sort(CandLt, ViewItems(v.groups)) <==> OnOffer(v, i)
  {
    hide IdsDistinct, CandLt, OnOffer, NoDup;
    CandOrder(Elems(ViewItems(v.groups)));
    SortSorted(CandLt, ViewItems(v.groups));
    SortedWithin(ViewItems(v.groups));
    forall i ensures i in ViewItems(v.groups) <==> OnOffer(v, i) { OfferedInView(v, i); }
  }

  lemma OfferedInView(v: View, i: Item)
    ensures i in ViewItems(v.groups) <==> OnOffer(v, i)
  {
    InViewItems(v.groups, i);
  }

  lemma MinimumPrefix(r: Requirement, sorted: seq<Item>, k: nat)
    requires r.coverage == Minimum && k <= |Frontier(r, sorted)|
    ensures k <= |sorted| && Frontier(r, sorted)[..k] == sorted[..k]
  {
  }

  lemma TakenComesFirst(st: State, budget: Budget, r: Requirement, v: View, a: Item, b: Item)
    requires NoDup(ViewItems(v.groups)) && IdsDistinct(Elems(ViewItems(v.groups)))
    requires a in Elems(Taken(st, budget, r, v)) && b !in Elems(Taken(st, budget, r, v)) && OnOffer(v, b)
    requires r.coverage == SemanticKeys ==> b.key in r.requiredKeys
    ensures ComesBefore(a, b)
  {
    var sorted := Sort(CandLt, ViewItems(v.groups));
    var f, k := FrontierOf(r, v), TakeFrom(st, budget, r, FrontierOf(r, v), 0);
    assert Taken(st, budget, r, v) == f[..k] && f == Frontier(r, sorted);
    hide OnOffer, NoDup, IdsDistinct, ComesBefore, CandLt, Sort, FrontierOf, Frontier, Taken, TakeFrom;
    FrontierItems(r, v);
    FrontierSorted(r, v);
    OfferSorted(v);
    if r.coverage == Minimum {
      MinimumPrefix(r, sorted, k);
      EarlierInOrder(sorted, k, a, b);
    } else {
      EarlierInOrder(f, k, a, b);
    }
  }
}
