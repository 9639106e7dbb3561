/**
 Which plans closure can never reject: the exact condition on the plan alone, for
 plans without a blocking requirement and for any least cost of an item, and for
 every other such plan the candidates closure rejects.
 */
module HarmlessPlans {
  import opened Base
  import opened ContextModel
  import opened Reachability
  import opened Resolution
  import opened ResolutionLaws
  import opened Selection
  import opened ContextCompiler
  import opened SelectionLaws
  import opened Closure
  import opened ClosureAgreement
  import opened ClosureSoundness
  import opened ClosureVerdict

  // ---- the condition -----------------------------------------------------

  /** Whether a requirement selects anything at all: a minimum of zero never does. */
  predicate Takes(r: Requirement) { r.coverage.Minimum? ==> r.minItems > 0 }

  predicate TakesKey(r: Requirement, key: string)
  {
    Takes(r) && (r.coverage.SemanticKeys? ==> key in r.requiredKeys)
  }

  predicate ShareKey(r: Requirement, s: Requirement)
  {
    Takes(r) && Takes(s)
      && (r.coverage.SemanticKeys? && s.coverage.SemanticKeys? ==> r.requiredKeys * s.requiredKeys != {})
  }

  predicate ScopeWithin(a: Scope, b: Scope) { a.Global? || (b.Scoped? && a.refs <= b.refs) }

  predicate FreshnessWithin(a: Freshness, b: Freshness)
  {
    b.ExactRevision? ==> a.ExactRevision? && a.constraint == b.constraint
  }

  /** Authority apart, `s` sees every capability fact `r` sees. */
  predicate SeesWithin(r: Requirement, s: Requirement)
  {
    ScopeWithin(r.scope, s.scope) && FreshnessWithin(r.freshness, s.freshness)
  }

  /**
   Two capability requirements can settle one capability differently: each sees
   a fact the other does not, or one sees less and accepts a merely verified fact.
   */
  predicate MayDisagree(r: Requirement, s: Requirement)
  {
    && ShareKey(r, s)
    && !(SeesWithin(r, s) && SeesWithin(s, r))
    && (SeesWithin(r, s) ==> !r.minAuthority.GovernedAuthoritative?)
    && (SeesWithin(s, r) ==> !s.minAuthority.GovernedAuthoritative?)
  }

  predicate AdmitsUnverifiedState(r: Requirement)
  {
    r.kind == RepositoryState && r.minAuthority.Unverified? && Takes(r)
  }

  /** The requirement's own byte ceiling admits an item of cost `c`. */
  predicate Affords(r: Requirement, c: nat) { r.maxBytes.Some? ==> c <= r.maxBytes.value }

  /** For candidates that cost at least `c` each: no requirement takes what closure rejects. */
  predicate Harmless(plan: Plan, c: nat)
  {
    && (c <= plan.budget.maxBytes ==>
          forall r | r in plan.requirements :: !(AdmitsUnverifiedState(r) && Affords(r, c)))
    && (plan.budget.maxItems >= 2 && c + c <= plan.budget.maxBytes ==>
          forall r, s | r in plan.requirements && s in plan.requirements ::
            !(Disagreement(r, s) && Affords(r, c) && Affords(s, c)))
  }

  predicate Disagreement(r: Requirement, s: Requirement)
  {
    r.kind == CapabilityFact && s.kind == CapabilityFact && MayDisagree(r, s)
  }

  ghost predicate Sound(cands: seq<Item>)
  {
    WellIdentified(Elems(cands)) && forall i | i in cands :: i.Valid()
  }

  ghost predicate CostAtLeast(cands: seq<Item>, c: nat)
  {
    forall i | i in cands :: i.cost >= c
  }

  /** Closure rejects no compile of the plan over candidates that cost at least `c` each. */
  ghost predicate NeverRejected(plan: Plan, c: nat)
  {
    forall cands, t, check | Sound(cands) && CostAtLeast(cands, c) :: !Rejects(plan, cands, t, check)
  }

  // ---- a chosen item was taken by a requirement that settled on it -------

  /** Requirement `m` took the carrier the state holds for `id`. */
  ghost predicate TookCarrier(plan: Plan, t: Trace, m: nat, st: State, id: string)
  {
    InTrace(plan, t, m) && id in st.byItem && st.byItem[id] in TakenAt(plan, t, m)
  }

  lemma CarrierNext(plan: Plan, cands: seq<Item>, t: Trace, n: nat, id: string)
    requires IsTrace(plan, cands, t) && n < |t.views| && id in t.states[n + 1].byItem
    ensures id in t.states[n].byItem ==> t.states[n + 1].byItem[id] == t.states[n].byItem[id]
    ensures id !in t.states[n].byItem ==> TookCarrier(plan, t, n, t.states[n + 1], id)
  {
    hide TakenAt, IsTrace;
    StepAdmits(plan, cands, t, n);
  }

  lemma {:induction false} ChosenByStep(plan: Plan, cands: seq<Item>, t: Trace, n: nat, id: string)
    requires IsTrace(plan, cands, t) && n <= |t.views| && id in t.states[n].byItem
    ensures exists m: nat :: TookCarrier(plan, t, m, t.states[n], id)
  {
    hide TakenAt, IsStep, InTrace;
    if n > 0 {
      CarrierNext(plan, cands, t, n - 1, id);
      if id in t.states[n - 1].byItem {
        ChosenByStep(plan, cands, t, n - 1, id);
        var m: nat :| TookCarrier(plan, t, m, t.states[n - 1], id);
        assert TookCarrier(plan, t, m, t.states[n], id);
      }
    }
  }

  lemma TakenByOne(plan: Plan, cands: seq<Item>, t: Trace, i: Item) returns (n: nat)
    requires IsRun(plan, cands, t) && i in Chosen(t)
    ensures InTrace(plan, t, n) && i in TakenAt(plan, t, n)
  {
    hide TakenAt, IsStep;
    var id :| id in t.End().byItem && t.End().byItem[id] == i;
    ChosenByStep(plan, cands, t, |t.views|, id);
    n :| TookCarrier(plan, t, n, t.End(), id);
  }

  /** What a requirement takes it matches, wants, and finds settled in its view. */
  lemma TakenIsSettled(plan: Plan, cands: seq<Item>, t: Trace, n: nat, i: Item)
    requires WellIdentified(Elems(cands)) && IsTrace(plan, cands, t) && InTrace(plan, t, n) && i in TakenAt(plan, t, n)
    ensures Matches(plan.requirements[n], i) && i in cands && TakesKey(plan.requirements[n], i.key)
    ensures Settles(i.Kind(), Reps(GroupMembers(Eligible(cands, plan.requirements[n]), KeyOf(i))), i)
  {
    hide Resolves, IsStep, WellIdentified, Settles, GroupFor, GroupMembers, Reps;
    var r, v := plan.requirements[n], t.views[n];
    TraceView(plan, cands, t, n);
    TakenFromView(cands, r, v);
    assert i in FrontierOf(r, v);
    EligibleIdentified(cands, r);
    ViewItemIsRep(Eligible(cands, r), v, i);
    EntrySettles(Eligible(cands, r), v, i);
  }

  lemma EntrySettles(items: seq<Item>, v: View, i: Item)
    requires WellIdentified(Elems(items)) && Resolves(items, v)
    requires exists e :: e in v.groups && e.key == KeyOf(i) && !e.group.conflict && i in e.group.items
    ensures Settles(i.Kind(), Reps(GroupMembers(items, KeyOf(i))), i)
  {
    hide GroupFor, GroupMembers, Reps, Settles;
    GroupSettlesOn(items, KeyOf(i), i);
  }

  /** A settled capability is strictly stronger than any other fact of its key in sight. */
  lemma SettledIsStronger(cands: seq<Item>, r: Requirement, x: Item, y: Item)
    requires WellIdentified(Elems(cands)) && x.claim.CapabilityClaim?
    requires Settles(CapabilityFact, Reps(GroupMembers(Eligible(cands, r), KeyOf(x))), x)
    requires y in cands && KeyOf(y) == KeyOf(x) && x.claim != y.claim && Matches(r, y)
    ensures x.Rank() < y.Rank()
  {
    hide Matches;
    var m := GroupMembers(Eligible(cands, r), KeyOf(x));
    EligibleIdentified(cands, r);
    SurvivorsByKey(Eligible(cands, r), KeyOf(x));
    assert y in m;
    var z := HasRep(m, y);
    assert z != x;
  }

  // ---- a harmless plan is never rejected ---------------------------------

  /** `s` matches any capability fact `r` matches that is within `s`'s floor. */
  lemma SeenByBoth(r: Requirement, s: Requirement, x: Item)
    requires r.kind == CapabilityFact && s.kind == CapabilityFact && SeesWithin(r, s) && Matches(r, x)
    requires r.Valid()
    ensures Matches(s, x) <==> x.Rank() <= LevelRank(s.minAuthority)
  {
    assert ScopeMatches(r, x);
    if r.scope.Scoped? && x.scope.Scoped? {
      assert r.scope.refs * x.scope.refs != {};
      var ref :| ref in r.scope.refs * x.scope.refs;
      assert ref in s.scope.refs * x.scope.refs;
    }
  }

  /** Each settled on its own fact over the other's: the two requirements may disagree. */
  lemma PickedApart(r: Requirement, s: Requirement, x: Item, y: Item)
    requires r.Valid() && s.Valid() && Matches(r, x) && Matches(s, y) && Contradict(x, y)
    requires TakesKey(r, x.key) && TakesKey(s, y.key)
    requires Matches(r, y) ==> x.Rank() < y.Rank()
    requires Matches(s, x) ==> y.Rank() < x.Rank()
    ensures Disagreement(r, s)
  {
    assert x.Rank() <= LevelRank(r.minAuthority) && y.Rank() <= LevelRank(s.minAuthority);
    assert r.kind == CapabilityFact && s.kind == CapabilityFact;
    if r.coverage.SemanticKeys? && s.coverage.SemanticKeys? { assert x.key in r.requiredKeys * s.requiredKeys; }
    hide Matches, ShareKey, TakesKey;
    if SeesWithin(r, s) { SeenByBoth(r, s, x); }
    if SeesWithin(s, r) { SeenByBoth(s, r, y); }
  }

  lemma UnverifiedIsAdmitted(r: Requirement, i: Item)
    requires Matches(r, i) && TakesKey(r, i.key) && UnverifiedState(i)
    ensures AdmitsUnverifiedState(r)
  {
  }

  lemma CostWithin(xs: seq<Item>, i: Item)
    requires i in xs
    ensures i.cost <= SumCost(xs)
  {
    var k :| 0 <= k < |xs| && xs[k] == i;
    SumCostRemove(xs, k);
  }

  /** What a requirement takes its own byte ceiling affords. */
  lemma TakenIsAfforded(plan: Plan, cands: seq<Item>, t: Trace, n: nat, i: Item)
    requires IsTrace(plan, cands, t) && InTrace(plan, t, n) && i in TakenAt(plan, t, n)
    ensures Affords(plan.requirements[n], i.cost)
  {
    hide TakenAt, IsStep;
    RunKeepsCeilings(plan, cands, t, n + 1);
    CostWithin(TakenAt(plan, t, n), i);
  }

  lemma ChosenIsTallied(st: State, xs: seq<Item>, x: Item)
    requires Tallies(xs, st) && x in st.byItem.Values
    ensures x in xs
  {
    var id :| id in st.byItem && st.byItem[id] == x;
    assert id in IdsOf(xs);
    var i :| i in xs && i.id == id;
  }

  /** What a run chooses the global budget affords, one item or two. */
  lemma ChosenIsAfforded(plan: Plan, cands: seq<Item>, t: Trace, x: Item, y: Item)
    requires IsRun(plan, cands, t) && x in Chosen(t) && y in Chosen(t)
    ensures x.cost <= plan.budget.maxBytes
    ensures x != y ==> plan.budget.maxItems >= 2 && x.cost + y.cost <= plan.budget.maxBytes
  {
    hide IsStep, SumCost;
    RunKeepsCeilings(plan, cands, t, |t.views|);
    var xs := TallyTrace(plan, cands, t, |t.views|);
    ChosenIsTallied(t.End(), xs, x);
    ChosenIsTallied(t.End(), xs, y);
    CostWithin(xs, x);
    if x != y {
      SumCostSub([x, y], xs);
      CostOfTwo(x, y);
    }
  }

  lemma CostOfTwo(x: Item, y: Item)
    ensures SumCost([x, y]) == x.cost + y.cost
  {
    assert [x] + [y] == [x, y] && [] + [x] == [x];
    NewCost([], x);
    NewCost([x], y);
  }

  lemma ChosenApart(plan: Plan, cands: seq<Item>, t: Trace, x: Item, y: Item) returns (r: Requirement, s: Requirement)
    requires plan.Valid() && Sound(cands) && IsRun(plan, cands, t)
    requires x in Chosen(t) && y in Chosen(t) && Contradict(x, y)
    ensures r in plan.requirements && s in plan.requirements && Disagreement(r, s)
    ensures Affords(r, x.cost) && Affords(s, y.cost)
  {
    hide IsTrace, TakenAt, Chosen, Settles, GroupMembers, Reps, Matches, TakesKey, WellIdentified, Disagreement,
      Affords;
    var n := TakenByOne(plan, cands, t, x);
    var m := TakenByOne(plan, cands, t, y);
    r, s := plan.requirements[n], plan.requirements[m];
    TakenIsSettled(plan, cands, t, n, x);
    TakenIsSettled(plan, cands, t, m, y);
    TakenIsAfforded(plan, cands, t, n, x);
    TakenIsAfforded(plan, cands, t, m, y);
    if Matches(r, y) { SettledIsStronger(cands, r, x, y); }
    if Matches(s, x) { SettledIsStronger(cands, s, y, x); }
    PickedApart(r, s, x, y);
  }

  lemma ChosenCosts(plan: Plan, cands: seq<Item>, t: Trace, c: nat, i: Item)
    requires Sound(cands) && CostAtLeast(cands, c) && IsTrace(plan, cands, t) && i in Chosen(t)
    ensures i.cost >= c
  {
    hide IsTrace, Chosen, WellIdentified;
    ChosenIsCandidate(plan, cands, t, i);
  }

  lemma HarmlessAdmits(plan: Plan, cands: seq<Item>, t: Trace, c: nat)
    requires plan.Valid() && Harmless(plan, c) && Sound(cands) && CostAtLeast(cands, c) && IsRun(plan, cands, t)
    ensures Admissible(Chosen(t))
  {
    hide IsTrace, TakenAt, Chosen, Matches, Sound, Disagreement, AdmitsUnverifiedState, CostAtLeast;
    forall i | i in Chosen(t) ensures !UnverifiedState(i) {
      if UnverifiedState(i) {
        var n := TakenByOne(plan, cands, t, i);
        TakenSound(plan, cands, t, n, i);
        UnverifiedIsAdmitted(plan.requirements[n], i);
        TakenIsAfforded(plan, cands, t, n, i);
        ChosenIsAfforded(plan, cands, t, i, i);
        ChosenCosts(plan, cands, t, c, i);
      }
    }
    forall x, y | x in Chosen(t) && y in Chosen(t) ensures !Contradict(x, y) {
      if Contradict(x, y) {
        ChosenIsAfforded(plan, cands, t, x, y);
        ChosenCosts(plan, cands, t, c, x);
        ChosenCosts(plan, cands, t, c, y);
        var r, s := ChosenApart(plan, cands, t, x, y);
      }
    }
  }

  lemma TakenSound(plan: Plan, cands: seq<Item>, t: Trace, n: nat, i: Item)
    requires Sound(cands) && IsTrace(plan, cands, t) && InTrace(plan, t, n) && i in TakenAt(plan, t, n)
    ensures Matches(plan.requirements[n], i) && TakesKey(plan.requirements[n], i.key)
    ensures plan.requirements[n] in plan.requirements
  {
    hide IsTrace, TakenAt, Matches, TakesKey, WellIdentified, Settles, GroupMembers, Reps;
    TakenIsSettled(plan, cands, t, n, i);
  }

  // ---- every other plan can be ------------------------------------------

  /** Distinct facts under one key of a kind without supersession. */
  ghost predicate Plain(cs: seq<Item>, k: GroupKey)
  {
    && Sound(cs) && (k.kind == RepositoryState || k.kind == CapabilityFact)
    && (forall c | c in cs :: KeyOf(c) == k)
    && (forall a, b | a in cs && b in cs && a != b ::
          a.id != b.id && a.claim != b.claim && CoordinateOf(a) == CoordinateOf(b))
  }

  lemma PlainSilent(cs: seq<Item>, k: GroupKey, r: Requirement, u: Unknown)
    requires Plain(cs, k)
    ensures !ReportsAny(Eligible(cs, r), u)
  {
    var items := Eligible(cs, r);
    forall kind ensures !ReportsOf(items, kind, u) {
      if DeclaresSupersession(kind) {
        assert forall i | i in items :: i.Kind() != kind;
        assert forall n | 0 <= n < |items| :: items[n] in items;
        NoneOfKind(items, kind);
        EmptyKindSilent(items, kind, u);
      }
    }
  }

  /** The members of the one group are the matching facts. */
  lemma PlainMembers(cs: seq<Item>, k: GroupKey, r: Requirement, key: GroupKey)
    requires Plain(cs, k)
    ensures GroupMembers(Eligible(cs, r), key) == if key == k then (set c | c in cs && Matches(r, c)) else {}
  {
    hide Matches;
  }

  /** The view of such candidates: at most one group. */
  ghost function PlainView(cs: seq<Item>, k: GroupKey, r: Requirement): View
  {
    var items := Eligible(cs, r);
    View(if GroupMembers(items, k) == {} then [] else [Entry(k, GroupFor(items, k))], [])
  }

  lemma PlainResolves(cs: seq<Item>, k: GroupKey, r: Requirement)
    requires Plain(cs, k)
    ensures Resolves(Eligible(cs, r), PlainView(cs, k, r))
  {
    hide Plain, GroupMembers, GroupFor, ReportsAny, Eligible;
    var items, v := Eligible(cs, r), PlainView(cs, k, r);
    forall u ensures u in v.unknowns <==> ReportsAny(items, u) { PlainSilent(cs, k, r, u); }
    forall key ensures HasKey(v.groups, key) <==> GroupMembers(items, key) != {} {
      PlainMembers(cs, k, r, key);
      if key == k && v.groups != [] { assert v.groups[0] in v.groups; }
    }
  }

  /** Each distinct fact represents itself. */
  lemma PlainReps(cs: seq<Item>, k: GroupKey, r: Requirement)
    requires Plain(cs, k)
    ensures Reps(GroupMembers(Eligible(cs, r), k)) == set c | c in cs && Matches(r, c)
  {
    PlainMembers(cs, k, r, k);
    var m := GroupMembers(Eligible(cs, r), k);
    assert forall i, j | i in m && j in m && SameClaim(i, j) :: i == j;
  }

  /** The strongest matching fact is what its group settles on. */
  lemma PlainSettles(cs: seq<Item>, k: GroupKey, r: Requirement, x: Item)
    requires Plain(cs, k) && x in cs && Matches(r, x)
    requires forall c | c in cs && c != x && Matches(r, c) :: x.Rank() < c.Rank()
    ensures x in GroupMembers(Eligible(cs, r), k)
    ensures Settles(k.kind, Reps(GroupMembers(Eligible(cs, r), k)), x)
  {
    hide Matches, GroupMembers, Reps, Eligible;
    PlainReps(cs, k, r);
    PlainMembers(cs, k, r, k);
  }

  /** A requirement is offered the fact that is stronger than every other it matches, and that alone. */
  lemma PlainOffers(cs: seq<Item>, k: GroupKey, r: Requirement, v: View, x: Item)
    requires Plain(cs, k) && x in cs && Matches(r, x) && Resolves(Eligible(cs, r), v)
    requires forall c | c in cs && c != x && Matches(r, c) :: x.Rank() < c.Rank()
    ensures ViewItems(v.groups) == [x]
  {
    hide Resolves, Settles, GroupMembers, Reps, Matches, GroupFor, Eligible, WellIdentified;
    var items := Eligible(cs, r);
    EligibleIdentified(cs, r);
    PlainSettles(cs, k, r, x);
    GroupSettlesOn(items, k, x);
    SettlesAlone(items, k, x);
    OnlyGroup(cs, k, r, v, x);
  }

  lemma OnlyGroup(cs: seq<Item>, k: GroupKey, r: Requirement, v: View, x: Item)
    requires Plain(cs, k) && Resolves(Eligible(cs, r), v) && GroupMembers(Eligible(cs, r), k) != {}
    requires !GroupFor(Eligible(cs, r), k).conflict && GroupFor(Eligible(cs, r), k).items == [x]
    ensures ViewItems(v.groups) == [x]
  {
    hide GroupMembers, GroupFor, Matches;
    var items := Eligible(cs, r);
    forall e | e in v.groups ensures e == Entry(k, GroupFor(items, k)) {
      assert HasKey(v.groups, e.key);
      PlainMembers(cs, k, r, e.key);
    }
    assert HasKey(v.groups, k);
    DistinctEntries(v.groups);
    SoleElement(v.groups, Entry(k, GroupFor(items, k)));
    assert ViewItems(v.groups) == ViewItems(v.groups[..0]) + [x];
  }

  /** A plan runs over any candidates every requirement can resolve. */
  lemma {:induction false} TraceExists(plan: Plan, cands: seq<Item>, n: nat) returns (t: Trace)
    requires n <= |plan.requirements|
    requires forall r | r in plan.requirements :: exists v :: Resolves(Eligible(cands, r), v)
    ensures IsTrace(plan, cands, t) && |t.views| == n
  {
    if n == 0 {
      t := Trace([], [EMPTY]);
    } else {
      hide Resolves, Eligible, Taken;
      var before := TraceExists(plan, cands, n - 1);
      var r := plan.requirements[n - 1];
      assert r in plan.requirements;
      var v :| Resolves(Eligible(cands, r), v);
      var after := AdmitAll(before.End(), Taken(before.End(), plan.budget, r, v), r.id);
      TraceNext(plan, cands, before, v, after);
      t := Trace(before.views + [v], before.states + [after]);
    }
  }

  lemma PlainRun(plan: Plan, cs: seq<Item>, k: GroupKey) returns (t: Trace)
    requires Plain(cs, k)
    ensures IsRun(plan, cs, t)
  {
    hide Resolves, Plain, PlainView, IsTrace;
    forall r | r in plan.requirements ensures exists v :: Resolves(Eligible(cs, r), v) { PlainResolves(cs, k, r); }
    t := TraceExists(plan, cs, |plan.requirements|);
  }

  /** The one offered item is the whole frontier of a requirement that takes its key. */
  lemma SoleFrontier(r: Requirement, v: View, x: Item)
    requires ViewItems(v.groups) == [x] && TakesKey(r, x.key)
    ensures FrontierOf(r, v) == [x]
  {
    assert Insert(CandLt, x, Sort(CandLt, [])) == [x];
    assert [x][..0] == [] && [x][0] == x;
    assert Sort(CandLt, [x]) == [x];
    assert [x][..1] == [x];
    if r.coverage.SemanticKeys? { assert Frontier(r, [x]) == Filter((i: Item) => i.key in r.requiredKeys, [x]); }
  }

  /** With room for one more item, nothing stops it. */
  lemma SoleItemTaken(st: State, budget: Budget, r: Requirement, v: View, x: Item)
    requires r.Valid() && FrontierOf(r, v) == [x] && Affords(r, x.cost)
    requires x.id in st.byItem || (|st.byItem| + 1 <= budget.maxItems && st.total + x.cost <= budget.maxBytes)
    ensures Taken(st, budget, r, v) == [x]
  {
    assert [x][..0] == [] && [x][0] == x;
    assert StopAt(st, budget, r, [x], 0).None?;
    assert TakeFrom(st, budget, r, [x], 0) == TakeFrom(st, budget, r, [x], 1) == 1;
    assert [x][..1] == [x];
  }

  /** Only candidates are ever held. */
  lemma HeldAreCandidates(plan: Plan, cs: seq<Item>, t: Trace, n: nat, i: Item)
    requires WellIdentified(Elems(cs)) && IsTrace(plan, cs, t) && n <= |t.views|
    requires i.id in t.states[n].byItem && t.states[n].byItem[i.id] == i
    ensures i in cs
  {
    hide IsStep, Offers, WellIdentified, IdsOf;
    SelectionOffered(plan, cs, t, n);
    OfferedIsCandidate(plan, cs, i);
  }

  /** So where all candidates fit together, there is room for one more of them. */
  lemma RoomForOneMore(plan: Plan, cs: seq<Item>, t: Trace, n: nat, x: Item)
    requires WellIdentified(Elems(cs)) && IsTrace(plan, cs, t) && n <= |t.views|
    requires x in cs && |cs| <= plan.budget.maxItems && SumCost(cs) <= plan.budget.maxBytes
    ensures var st := t.states[n];
      x.id in st.byItem || (|st.byItem| + 1 <= plan.budget.maxItems && st.total + x.cost <= plan.budget.maxBytes)
  {
    hide IsStep, WellIdentified, SumCost;
    var st := t.states[n];
    var xs := TallyTrace(plan, cs, t, n);
    if x.id !in st.byItem {
      forall i | i in xs ensures i in cs { HeldAreCandidates(plan, cs, t, n, i); }
      assert x !in xs;
      NoDupConcat(xs, [x]);
      SumCostSub(xs + [x], cs);
      NewCost(xs, x);
    }
  }

  /** All candidates together fit the global budget. */
  ghost predicate Affordable(plan: Plan, cs: seq<Item>)
  {
    |cs| <= plan.budget.maxItems && SumCost(cs) <= plan.budget.maxBytes
  }

  lemma PlainTaken(plan: Plan, cs: seq<Item>, k: GroupKey, t: Trace, n: nat, x: Item)
    requires plan.Valid() && Plain(cs, k) && Affordable(plan, cs) && IsRun(plan, cs, t)
    requires n < |plan.requirements| && x in cs && Matches(plan.requirements[n], x)
    requires TakesKey(plan.requirements[n], x.key) && Affords(plan.requirements[n], x.cost)
    requires forall c | c in cs && c != x && Matches(plan.requirements[n], c) :: x.Rank() < c.Rank()
    ensures InTrace(plan, t, n) && TakenAt(plan, t, n) == [x]
  {
    var r, v := plan.requirements[n], t.views[n];
    assert r.Valid() && WellIdentified(Elems(cs));
    hide Resolves, IsStep, Matches, TakesKey, WellIdentified, Taken, Plain, SumCost, Affords;
    TraceView(plan, cs, t, n);
    PlainOffers(cs, k, r, v, x);
    SoleFrontier(r, v, x);
    RoomForOneMore(plan, cs, t, n, x);
    SoleItemTaken(t.states[n], plan.budget, r, v, x);
  }

  /** The stronger fact in sight of a requirement that wants its key is chosen. */
  lemma PlainChosen(plan: Plan, cs: seq<Item>, k: GroupKey, t: Trace, n: nat, x: Item)
    requires plan.Valid() && Plain(cs, k) && Affordable(plan, cs) && IsRun(plan, cs, t)
    requires n < |plan.requirements| && x in cs && Matches(plan.requirements[n], x)
    requires TakesKey(plan.requirements[n], x.key) && Affords(plan.requirements[n], x.cost)
    requires forall c | c in cs && c != x && Matches(plan.requirements[n], c) :: x.Rank() < c.Rank()
    ensures x in Chosen(t)
  {
    hide IsTrace, Matches, TakesKey, WellIdentified, TakenAt, Chosen, Affordable, Affords;
    PlainTaken(plan, cs, k, t, n, x);
    TakenIsChosen(plan, cs, t, n, x);
  }

  lemma TakenIsChosen(plan: Plan, cands: seq<Item>, t: Trace, n: nat, x: Item)
    requires WellIdentified(Elems(cands)) && IsRun(plan, cands, t) && InTrace(plan, t, n) && x in TakenAt(plan, t, n)
    ensures x in Chosen(t)
  {
    hide TakenAt, WellIdentified, Offers, IsStep;
    History(plan, cands, t, |t.views|);
    TookAt(plan, t, n, x.id);
    assert x.id in IdsOf(TakenAt(plan, t, n));
    assert plan.requirements[n].id in TakersOf(plan.requirements, Took(plan, t), |t.views|, x.id);
    SelectionOffered(plan, cands, t, |t.views|);
    TakenOffered(plan, cands, t, n);
    OneCarrier(plan, cands, x, t.End().byItem[x.id]);
  }

  // ---- the candidates that break a plan ----------------------------------

  function SomeKey(keys: set<string>): (k: string)
    ensures keys != {} ==> k in keys
  {
    if keys == {} then "k"
    else
      LeastExists(keys);
      var k :| Least(k, keys);
      k
  }

  /** A coordinate a freshness rule accepts. */
  function FreshCoordinate(f: Freshness): Option<string>
  {
    if f.ExactRevision? then Some(f.constraint) else None
  }

  function UnverifiedFact(r: Requirement, c: nat): Item
  {
    Item("x", SomeKey(r.requiredKeys), Unverified, SourceRef("s", "k", "l", FreshCoordinate(r.freshness), None),
         r.scope, RepositoryClaim("", ""), c)
  }

  lemma UnverifiedFactIsSeen(r: Requirement, c: nat)
    requires r.Valid() && AdmitsUnverifiedState(r)
    ensures var x := UnverifiedFact(r, c);
      x.Valid() && Matches(r, x) && TakesKey(r, x.key) && UnverifiedState(x) && Plain([x], KeyOf(x))
  {
    var x := UnverifiedFact(r, c);
    assert ScopeMatches(r, x) by {
      if r.scope.Scoped? {
        var ref :| ref in r.scope.refs;
        assert ref in r.scope.refs * r.scope.refs;
      }
    }
  }

  predicate NoneBlocks(plan: Plan) { forall r | r in plan.requirements :: !r.policy.Block? }

  lemma RunCompletes(plan: Plan, cands: seq<Item>, t: Trace)
    requires NoneBlocks(plan) && IsRun(plan, cands, t)
    ensures Completes(plan, cands, t)
  {
    hide IsTrace;
    forall n: nat | InTrace(plan, t, n) ensures !plan.requirements[n].policy.Block? {
      assert plan.requirements[n] in plan.requirements;
    }
  }

  /** A requirement that admits unverified state selects one, whatever it costs, and closure rejects the context. */
  lemma UnverifiedStateBreaks(plan: Plan, r: Requirement, c: nat) returns (cands: seq<Item>, t: Trace)
    requires plan.Valid() && NoneBlocks(plan) && r in plan.requirements && AdmitsUnverifiedState(r)
    requires Affords(r, c) && c <= plan.budget.maxBytes
    ensures Sound(cands) && CostAtLeast(cands, c) && Rejects(plan, cands, t, PROVENANCE_CHECK)
  {
    var x := UnverifiedFact(r, c);
    cands := [x];
    assert r.Valid();
    UnverifiedFactIsSeen(r, c);
    assert [x][..0] == [] && SumCost([x]) == c;
    assert Sound(cands) && Affordable(plan, cands) && x in cands;
    hide Matches, TakesKey, Plain, IsTrace, Chosen, UnverifiedFact, AdmitsUnverifiedState, Affords, Affordable,
      Completes, UnverifiedState;
    t := PlainRun(plan, cands, KeyOf(x));
    var n: nat :| n < |plan.requirements| && plan.requirements[n] == r;
    PlainChosen(plan, cands, KeyOf(x), t, n, x);
    RunCompletes(plan, cands, t);
  }

  // ---- two facts for two requirements ------------------------------------

  function Fact(id: string, key: string, state: string, level: Level, scope: Scope, f: Freshness, c: nat): Item
  {
    Item(id, key, level, SourceRef("s", "k", "l", FreshCoordinate(f), Some("d")), scope, CapabilityClaim(state, ""), c)
  }

  /** `(x, y)` settles `r` and `s` on opposite states of one capability. */
  ghost predicate Splits(r: Requirement, s: Requirement, x: Item, y: Item)
  {
    && x.Valid() && y.Valid() && x.id != y.id
    && x.claim.CapabilityClaim? && y.claim.CapabilityClaim? && x.key == y.key
    && {x.claim.state, y.claim.state} == {AVAILABLE, UNAVAILABLE}
    && Matches(r, x) && Matches(s, y) && TakesKey(r, x.key) && TakesKey(s, y.key)
    && (Matches(r, y) ==> x.Rank() < y.Rank())
    && (Matches(s, x) ==> y.Rank() < x.Rank())
  }

  /** A scope `a` accepts, and `b` does not unless it accepts all that `a` does. */
  function ScopeApart(a: Scope, b: Scope): Scope
  {
    if b.Scoped? && a.Scoped? then Scoped(if a.refs <= b.refs then a.refs else a.refs - b.refs) else a
  }

  function CommonKey(r: Requirement, s: Requirement): string
  {
    if r.coverage.SemanticKeys? && s.coverage.SemanticKeys? then SomeKey(r.requiredKeys * s.requiredKeys)
    else if r.coverage.SemanticKeys? then SomeKey(r.requiredKeys)
    else SomeKey(s.requiredKeys)
  }

  lemma CommonKeyTaken(r: Requirement, s: Requirement)
    requires r.Valid() && s.Valid() && ShareKey(r, s)
    ensures TakesKey(r, CommonKey(r, s)) && TakesKey(s, CommonKey(r, s))
  {
    assert r.coverage.SemanticKeys? && s.coverage.SemanticKeys? ==> CommonKey(r, s) in r.requiredKeys * s.requiredKeys;
  }

  /** A fact for `r` that `s` does not see, unless `s` sees all that `r` does. */
  function FactFor(r: Requirement, s: Requirement, id: string, key: string, state: string, c: nat): Item
  {
    Fact(id, key, state, if SeesWithin(r, s) then GovernedVerified else GovernedAuthoritative,
         ScopeApart(r.scope, s.scope), r.freshness, c)
  }

  lemma FactIsSeen(r: Requirement, s: Requirement, id: string, key: string, state: string, c: nat)
    requires r.kind == CapabilityFact && s.kind == CapabilityFact && r.Valid() && s.Valid()
    requires SeesWithin(r, s) ==> !r.minAuthority.GovernedAuthoritative?
    ensures FactFor(r, s, id, key, state, c).Valid()
    ensures Matches(r, FactFor(r, s, id, key, state, c))
    ensures Matches(s, FactFor(r, s, id, key, state, c)) ==> SeesWithin(r, s)
  {
    var x := FactFor(r, s, id, key, state, c);
    assert r.scope.Scoped? ==> x.scope.Scoped? && x.scope.refs != {} && r.scope.refs * x.scope.refs == x.scope.refs by {
      if r.scope.Scoped? && s.scope.Scoped? && !(r.scope.refs <= s.scope.refs) {
        var ref :| ref in r.scope.refs && ref !in s.scope.refs;
        assert ref in r.scope.refs - s.scope.refs;
      }
    }
    assert ScopeMatches(r, x);
    if Matches(s, x) {
      assert ScopeMatches(s, x) && FreshEnough(s, x);
    }
  }

  /** Requirements that may disagree do, on two facts, whatever they cost. */
  lemma DisagreementSplits(r: Requirement, s: Requirement, c: nat) returns (x: Item, y: Item)
    requires r.Valid() && s.Valid() && Disagreement(r, s)
    ensures Splits(r, s, x, y) && x.cost == y.cost == c
  {
    var key := CommonKey(r, s);
    x := FactFor(r, s, "x", key, AVAILABLE, c);
    y := FactFor(s, r, "y", key, UNAVAILABLE, c);
    CommonKeyTaken(r, s);
    FactIsSeen(r, s, "x", key, AVAILABLE, c);
    FactIsSeen(s, r, "y", key, UNAVAILABLE, c);
    assert x.id == "x" && y.id == "y";
    assert "x"[0] != "y"[0];
    hide Matches, TakesKey, CommonKey, SeesWithin;
  }

  lemma PairIsPlain(x: Item, y: Item)
    requires x.Valid() && y.Valid() && x.id != y.id && x.key == y.key
    requires x.claim.CapabilityClaim? && y.claim.CapabilityClaim? && x.claim != y.claim
    ensures Plain([x, y], KeyOf(x)) && Sound([x, y])
  {
    assert forall c | c in [x, y] :: c == x || c == y;
  }

  /** Two facts that split two requirements are both chosen. */
  lemma SplitChosen(plan: Plan, r: Requirement, s: Requirement, x: Item, y: Item) returns (t: Trace)
    requires plan.Valid() && r in plan.requirements && s in plan.requirements && Splits(r, s, x, y)
    requires Affords(r, x.cost) && Affords(s, y.cost) && Affordable(plan, [x, y])
    ensures IsRun(plan, [x, y], t) && x in Chosen(t) && y in Chosen(t)
  {
    hide Matches, TakesKey, IsTrace, Chosen, Affords, Affordable;
    var cands := [x, y];
    PairIsPlain(x, y);
    t := PlainRun(plan, cands, KeyOf(x));
    var n: nat :| n < |plan.requirements| && plan.requirements[n] == r;
    var m: nat :| m < |plan.requirements| && plan.requirements[m] == s;
    assert x in cands && y in cands && forall c | c in cands :: c == x || c == y;
    hide Plain;
    PlainChosen(plan, cands, KeyOf(x), t, n, x);
    PlainChosen(plan, cands, KeyOf(x), t, m, y);
  }

  /** And closure then rejects the context. */
  lemma DisagreementBreaks(plan: Plan, r: Requirement, s: Requirement, c: nat) returns (cands: seq<Item>, t: Trace)
    requires plan.Valid() && NoneBlocks(plan) && plan.budget.maxItems >= 2 && c + c <= plan.budget.maxBytes
    requires r in plan.requirements && s in plan.requirements
    requires Disagreement(r, s) && Affords(r, c) && Affords(s, c)
    ensures Sound(cands) && CostAtLeast(cands, c) && Rejects(plan, cands, t, CAPABILITY_CHECK)
  {
    assert r.Valid() && s.Valid();
    hide Matches, TakesKey, IsTrace, Chosen, Disagreement, Affords, Completes, SumCost, WellIdentified;
    var x, y := DisagreementSplits(r, s, c);
    cands := [x, y];
    CostOfTwo(x, y);
    PairIsPlain(x, y);
    hide Plain;
    t := SplitChosen(plan, r, s, x, y);
    RunCompletes(plan, cands, t);
    assert Contradict(x, y) || Contradict(y, x);
    forall i | i in Chosen(t) ensures !UnverifiedState(i) { ChosenIsCandidate(plan, cands, t, i); }
  }

  /**
   For a plan none of whose requirements blocks, and candidates that cost at least
   `c` each: closure can never reject a compile exactly when the plan is harmless.
   */
  lemma NeverRejectedIff(plan: Plan, c: nat)
    requires plan.Valid() && NoneBlocks(plan)
    ensures NeverRejected(plan, c) <==> Harmless(plan, c)
  {
    hide Rejects, Sound, Disagreement, AdmitsUnverifiedState, CostAtLeast, Affords;
    if Harmless(plan, c) {
      forall cands, t, check | Sound(cands) && CostAtLeast(cands, c) ensures !Rejects(plan, cands, t, check) {
        HarmlessNeverRejects(plan, cands, t, check, c);
      }
    } else if r :| r in plan.requirements && AdmitsUnverifiedState(r) && Affords(r, c) && c <= plan.budget.maxBytes {
      var cands, t := UnverifiedStateBreaks(plan, r, c);
    } else {
      var r, s :| r in plan.requirements && s in plan.requirements
        && Disagreement(r, s) && Affords(r, c) && Affords(s, c);
      var cands, t := DisagreementBreaks(plan, r, s, c);
    }
  }

  /** Closure rejects no compile of a harmless plan, blocking requirements or not. */
  lemma HarmlessNeverRejects(plan: Plan, cands: seq<Item>, t: Trace, check: string, c: nat)
    requires plan.Valid() && Harmless(plan, c) && Sound(cands) && CostAtLeast(cands, c)
    ensures !Rejects(plan, cands, t, check)
  {
    hide IsTrace, Admissible, Chosen, Sound, Harmless, CostAtLeast;
    if IsRun(plan, cands, t) { HarmlessAdmits(plan, cands, t, c); }
  }

  // ---- a blocking requirement can protect --------------------------------

  /** One slot, and a blocking requirement of another kind that must fill it. */
  predicate OnlySlotIsTaken(plan: Plan)
  {
    plan.budget.maxItems == 1
    && exists r | r in plan.requirements :: r.policy.Block? && r.minItems >= 1 && r.kind != RepositoryState
  }

  /** A met requirement with a floor took something it matches. */
  lemma MetTook(plan: Plan, cands: seq<Item>, t: Trace, n: nat) returns (i: Item)
    requires Sound(cands) && IsRun(plan, cands, t) && InTrace(plan, t, n) && MetAt(plan, t, n)
    requires plan.requirements[n].minItems >= 1
    ensures i in Chosen(t) && i.Kind() == plan.requirements[n].kind
  {
    MetFacts(plan, t, n);
    hide IsTrace, TakenAt, Chosen, WellIdentified, MetAt;
    i := TakenAt(plan, t, n)[0];
    assert i in TakenAt(plan, t, n);
    TakenSound(plan, cands, t, n, i);
    MatchedKind(plan.requirements[n], i);
    TakenIsChosen(plan, cands, t, n, i);
  }

  lemma MatchedKind(r: Requirement, i: Item)
    requires Matches(r, i)
    ensures i.Kind() == r.kind
  {
  }

  /** Such a plan is never rejected, harmless or not: closure only sees runs that met the blocking requirement. */
  lemma BlockingProtects(plan: Plan, cands: seq<Item>, t: Trace, check: string)
    requires plan.Valid() && OnlySlotIsTaken(plan) && Sound(cands)
    ensures !Rejects(plan, cands, t, check)
  {
    hide IsTrace, Chosen, Sound, MetAt;
    if Completes(plan, cands, t) {
      var r :| r in plan.requirements && r.policy.Block? && r.minItems >= 1 && r.kind != RepositoryState;
      var n: nat :| n < |plan.requirements| && plan.requirements[n] == r;
      RunReaches(plan, cands, t, n);
      var i := MetTook(plan, cands, t, n);
      forall x | x in Chosen(t) ensures x == i { ChosenIsAfforded(plan, cands, t, x, i); }
    }
  }

  lemma RunReaches(plan: Plan, cands: seq<Item>, t: Trace, n: nat)
    requires IsRun(plan, cands, t) && n < |plan.requirements|
    ensures InTrace(plan, t, n)
  {
  }
}
