/**
 The routing projection and the planner's architecture requirement: a governed
 constraint that routed a task is never lost on the way to the selection.
 */
module Discovery {
  import opened Base
  import opened ContextModel
  import opened Reachability
  import opened Resolution
  import opened ResolutionLaws
  import opened Selection
  import opened ContextCompiler
  import opened SelectionLaws
  import opened Closure
  import opened ClosureAgreement

  const DISCOVERY_KINDS: seq<Kind> :=
    [RelevantEntity, RepositoryState, ArchitectureConstraint, ApplicableLaw, DependencyContext]

  predicate DiscoveryScopeMatch(item: Item, scoped: set<string>)
  {
    item.scope.Scoped? ==> item.scope.refs * scoped != {}
  }

  /** What the projection may route from: governed facts of a discovery kind, in scope. */
  predicate DiscoveryEligible(item: Item, scoped: set<string>)
  {
    item.Kind() in DISCOVERY_KINDS && Governed(item.level) && DiscoveryScopeMatch(item, scoped)
  }

  function DiscoveryCandidates(cands: seq<Item>, scoped: set<string>): seq<Item>
  {
    Filter((i: Item) => DiscoveryEligible(i, scoped), cands)
  }

  datatype DiscoveryContext = DiscoveryContext(routing: set<string>, signals: set<string>, unknowns: seq<Unknown>)

  function DiscoveryConflict(e: Entry): Unknown
  {
    Unknown(None, Some(e.key.key), ConflictingGovernedClaims, ConflictDetails(e.key.kind, e.group.info), NonBlocking)
  }

  /** The item ids, and the keys of the constraints, among the groups of one kind that resolved. */
  ghost function RoutedBy(groups: seq<Entry>): set<string>
  {
    set e, i | e in groups && !e.group.conflict && i in e.group.items :: i.id
  }

  ghost function SignalledBy(groups: seq<Entry>): set<string>
  {
    set e, i | e in groups && !e.group.conflict && i in e.group.items && i.claim.ConstraintClaim? :: i.key
  }

  ghost predicate ConflictIn(groups: seq<Entry>, u: Unknown)
  {
    exists e :: e in groups && e.group.conflict && u == DiscoveryConflict(e)
  }

  /** One pass over the groups, taking those of `kind`. */
  method DiscoverKind(kind: Kind, groups: seq<Entry>)
    returns (routing: set<string>, signals: set<string>, conflicts: seq<Unknown>)
    ensures routing == RoutedBy(Filter((e: Entry) => e.key.kind == kind, groups))
    ensures signals == SignalledBy(Filter((e: Entry) => e.key.kind == kind, groups))
    ensures forall u :: u in conflicts <==> ConflictIn(Filter((e: Entry) => e.key.kind == kind, groups), u)
  {
    hide RoutedBy, SignalledBy, ConflictIn;
    RoutedNothing();
    routing, signals, conflicts := {}, {}, [];
    ghost var ofKind := (e: Entry) => e.key.kind == kind;
    for n := 0 to |groups|
      invariant routing == RoutedBy(Filter(ofKind, groups[..n]))
      invariant signals == SignalledBy(Filter(ofKind, groups[..n]))
      invariant forall u :: u in conflicts <==> ConflictIn(Filter(ofKind, groups[..n]), u)
    {
      var e := groups[n];
      assert groups[..n + 1][..n] == groups[..n] && groups[..n + 1] == groups[..n] + [e];
      RoutedSnoc(Filter(ofKind, groups[..n]), e);
      if e.key.kind == kind {
        if e.group.conflict {
          conflicts := conflicts + [DiscoveryConflict(e)];
        } else {
          routing := routing + (set i | i in e.group.items :: i.id);
          signals := signals + (set i | i in e.group.items && i.claim.ConstraintClaim? :: i.key);
        }
      }
    }
    assert groups[..|groups|] == groups;
  }

  lemma RoutedNothing()
    ensures RoutedBy([]) == {} && SignalledBy([]) == {} && forall u :: !ConflictIn([], u)
  {
  }

  lemma RoutedSnoc(init: seq<Entry>, e: Entry)
    ensures RoutedBy(init + [e]) == RoutedBy(init)
      + (if e.group.conflict then {} else set i | i in e.group.items :: i.id)
    ensures SignalledBy(init + [e]) == SignalledBy(init)
      + (if e.group.conflict then {} else set i | i in e.group.items && i.claim.ConstraintClaim? :: i.key)
    ensures forall u :: ConflictIn(init + [e], u) <==>
      ConflictIn(init, u) || (e.group.conflict && u == DiscoveryConflict(e))
  {
    forall u | ConflictIn(init, u) ensures ConflictIn(init + [e], u) {
      var x :| x in init && x.group.conflict && u == DiscoveryConflict(x);
      assert x in init + [e];
    }
    assert e in init + [e];
  }

  /** `key` is a proven architecture signal of the routing view. */
  ghost predicate Signals(v: View, key: string)
  {
    exists x :: x in ViewItems(v.groups) && x.claim.ConstraintClaim? && x.key == key
  }

  /** What the projection reports of its view: everything routed, every conflict an unknown. */
  ghost predicate Projects(v: View, d: DiscoveryContext)
  {
    && (forall id :: id in d.routing <==> exists x :: x in ViewItems(v.groups) && x.id == id)
    && (forall key :: key in d.signals <==> Signals(v, key))
    && (forall u :: u in d.unknowns <==>
          u in v.unknowns || exists e :: e in v.groups && e.group.conflict && u == DiscoveryConflict(e))
  }

  lemma ViewKinds(cands: seq<Item>, scoped: set<string>, v: View, e: Entry)
    requires Resolves(DiscoveryCandidates(cands, scoped), v) && e in v.groups
    ensures e.key.kind in DISCOVERY_KINDS
  {
    assert HasKey(v.groups, e.key);
    var i :| i in GroupMembers(DiscoveryCandidates(cands, scoped), e.key);
  }

  ghost function UpTo(groups: seq<Entry>, n: nat): seq<Entry>
    requires n <= |DISCOVERY_KINDS|
  {
    Filter((e: Entry) => e.key.kind in DISCOVERY_KINDS[..n], groups)
  }

  lemma OneMoreKind(groups: seq<Entry>, n: nat)
    requires n < |DISCOVERY_KINDS|
    ensures forall e :: e in UpTo(groups, n + 1) <==>
      e in UpTo(groups, n) || e in Filter((e: Entry) => e.key.kind == DISCOVERY_KINDS[n], groups)
  {
    assert DISCOVERY_KINDS[..n + 1] == DISCOVERY_KINDS[..n] + [DISCOVERY_KINDS[n]];
  }

  lemma AllKinds(groups: seq<Entry>)
    requires forall e | e in groups :: e.key.kind in DISCOVERY_KINDS
    ensures forall e :: e in UpTo(groups, |DISCOVERY_KINDS|) <==> e in groups
  {
    assert DISCOVERY_KINDS[..|DISCOVERY_KINDS|] == DISCOVERY_KINDS;
  }

  /** Compile the routing projection, kind by kind. */
  method Discover(cands: seq<Item>, scoped: set<string>) returns (d: DiscoveryContext)
    requires WellIdentified(Elems(cands))
    ensures exists v :: Resolves(DiscoveryCandidates(cands, scoped), v) && Projects(v, d)
  {
    hide Resolves, Filter;
    assert Elems(DiscoveryCandidates(cands, scoped)) <= Elems(cands);
    var view := ResolveCandidates(DiscoveryCandidates(cands, scoped));
    var groups := Sort(EntryLt, view.groups);
    var routing, signals, unknowns := {}, {}, view.unknowns;
    for n := 0 to |DISCOVERY_KINDS|
      invariant routing == RoutedBy(UpTo(groups, n)) && signals == SignalledBy(UpTo(groups, n))
      invariant forall u :: u in unknowns <==> u in view.unknowns || ConflictIn(UpTo(groups, n), u)
    {
      var more, named, conflicts := DiscoverKind(DISCOVERY_KINDS[n], groups);
      OneMoreKind(groups, n);
      NextKind(groups, n);
      routing, signals, unknowns := routing + more, signals + named, unknowns + conflicts;
    }
    d := DiscoveryContext(routing, signals, unknowns);
    Projected(cands, scoped, view, groups, d);
  }

  lemma NextKind(groups: seq<Entry>, n: nat)
    requires n < |DISCOVERY_KINDS|
    ensures var these := Filter((e: Entry) => e.key.kind == DISCOVERY_KINDS[n], groups);
      && RoutedBy(UpTo(groups, n + 1)) == RoutedBy(UpTo(groups, n)) + RoutedBy(these)
      && SignalledBy(UpTo(groups, n + 1)) == SignalledBy(UpTo(groups, n)) + SignalledBy(these)
    ensures forall u :: ConflictIn(UpTo(groups, n + 1), u) <==>
      (ConflictIn(UpTo(groups, n), u)
       || ConflictIn(Filter((e: Entry) => e.key.kind == DISCOVERY_KINDS[n], groups), u))
  {
    OneMoreKind(groups, n);
    hide UpTo;
  }

  lemma Projected(cands: seq<Item>, scoped: set<string>, v: View, groups: seq<Entry>, d: DiscoveryContext)
    requires Resolves(DiscoveryCandidates(cands, scoped), v) && multiset(groups) == multiset(v.groups)
    requires d.routing == RoutedBy(UpTo(groups, |DISCOVERY_KINDS|))
    requires d.signals == SignalledBy(UpTo(groups, |DISCOVERY_KINDS|))
    requires forall u :: u in d.unknowns <==> u in v.unknowns || ConflictIn(UpTo(groups, |DISCOVERY_KINDS|), u)
    ensures Projects(v, d)
  {
    hide Resolves, UpTo;
    SameMultisetSameElems(groups, v.groups);
    forall e ensures e in groups <==> e in v.groups { assert e in Elems(groups) <==> e in Elems(v.groups); }
    forall e | e in groups ensures e.key.kind in DISCOVERY_KINDS { ViewKinds(cands, scoped, v, e); }
    AllKinds(groups);
    var all := UpTo(groups, |DISCOVERY_KINDS|);
    forall x ensures x in ViewItems(v.groups) <==> exists e :: e in all && !e.group.conflict && x in e.group.items {
      InViewItems(v.groups, x);
    }
    forall id ensures id in d.routing <==> exists x :: x in ViewItems(v.groups) && x.id == id {}
    forall key ensures key in d.signals <==> Signals(v, key) {}
  }

  // ---- what may route, told from the items -------------------------------

  /** A governed entity, repository state, constraint, law or dependency, global or in the task's scope. */
  ghost predicate MayRoute(i: Item, scoped: set<string>)
  {
    && (i.claim.EntityClaim? || i.claim.RepositoryClaim? || i.claim.ConstraintClaim? || i.claim.LawClaim?
        || i.claim.DependencyClaim?)
    && (i.level == GovernedAuthoritative || i.level == GovernedVerified)
    && (i.scope.Scoped? ==> exists ref :: ref in i.scope.refs && ref in scoped)
  }

  lemma CandidateIff(cands: seq<Item>, scoped: set<string>, i: Item)
    ensures i in DiscoveryCandidates(cands, scoped) <==> i in cands && MayRoute(i, scoped)
  {
    if i.scope.Scoped? {
      if ref :| ref in i.scope.refs && ref in scoped { assert ref in i.scope.refs * scoped; }
    }
    assert i.Kind() in DISCOVERY_KINDS <==>
      i.Kind() == DISCOVERY_KINDS[0] || i.Kind() == DISCOVERY_KINDS[1] || i.Kind() == DISCOVERY_KINDS[2]
      || i.Kind() == DISCOVERY_KINDS[3] || i.Kind() == DISCOVERY_KINDS[4];
  }

  /**
   What discovery reports. It routes by the claims on offer among the items that may
   route, so by governed ones in scope and never by memory, and signals are its
   constraints; each key in conflict is an unknown that blocks nothing and binds to no
   requirement.
   */
  lemma DiscoveryReports(cands: seq<Item>, scoped: set<string>, v: View, d: DiscoveryContext)
    requires WellIdentified(Elems(cands)) && Resolves(DiscoveryCandidates(cands, scoped), v) && Projects(v, d)
    ensures forall id :: id in d.routing <==> exists x :: OnOffer(v, x) && x.id == id
    ensures forall key :: key in d.signals <==> exists x :: OnOffer(v, x) && x.claim.ConstraintClaim? && x.key == key
    ensures forall x | OnOffer(v, x) :: x in cands && MayRoute(x, scoped)
    ensures forall key | InConflict(v, key) ::
      exists u :: u in d.unknowns && u.reason == ConflictingGovernedClaims && u.key == Some(key)
    ensures forall u | u in d.unknowns && u !in v.unknowns ::
      u.reason == ConflictingGovernedClaims && u.requirement == None && u.materiality == NonBlocking
      && u.key.Some? && InConflict(v, u.key.value)
  {
    hide Resolves, WellIdentified, DiscoveryCandidates, MayRoute, Signals, GroupFor;
    forall x ensures x in ViewItems(v.groups) <==> OnOffer(v, x) { InViewItems(v.groups, x); }
    forall key ensures Signals(v, key) <==> exists x :: OnOffer(v, x) && x.claim.ConstraintClaim? && x.key == key {
      SignalsMeans(v, key);
    }
    forall x | OnOffer(v, x) ensures x in cands && MayRoute(x, scoped) {
      OfferedMayRoute(cands, scoped, v, x);
    }
    forall key | InConflict(v, key)
      ensures exists u :: u in d.unknowns && u.reason == ConflictingGovernedClaims && u.key == Some(key) {
      var e :| e in v.groups && e.group.conflict && e.key.key == key;
      assert DiscoveryConflict(e) in d.unknowns;
    }
  }

  lemma SignalsMeans(v: View, key: string)
    ensures Signals(v, key) <==> exists x :: x in ViewItems(v.groups) && x.claim.ConstraintClaim? && x.key == key
  {
  }

  lemma OfferedMayRoute(cands: seq<Item>, scoped: set<string>, v: View, x: Item)
    requires WellIdentified(Elems(cands)) && Resolves(DiscoveryCandidates(cands, scoped), v)
    requires x in ViewItems(v.groups)
    ensures x in cands && MayRoute(x, scoped)
  {
    hide Resolves, MayRoute, DiscoveryEligible;
    assert Elems(DiscoveryCandidates(cands, scoped)) <= Elems(cands);
    ViewItemIsRep(DiscoveryCandidates(cands, scoped), v, x);
    CandidateIff(cands, scoped, x);
  }

  // ---- the architecture requirement --------------------------------------

  const PER_REQUIREMENT_MAX_ITEMS := 16
  const PER_REQUIREMENT_MAX_BYTES := 65_536

  /** The planner's architecture requirement for a task that names `scoped`. */
  function ArchitectureRequirement(id: string, scoped: set<string>, required: bool): Requirement
  {
    Requirement(id, ArchitectureConstraint, required,
      if scoped == {} then Global else Scoped(scoped),
      SnapshotBound, Informative, AllEligible, if required then 1 else 0, {},
      Some(PER_REQUIREMENT_MAX_ITEMS), Some(PER_REQUIREMENT_MAX_BYTES),
      if required then PreserveUnknown else OptionalPolicy)
  }

  /** For constraints the two eligibility rules differ only in the authority floor. */
  lemma SameScopeRule(id: string, scoped: set<string>, required: bool, i: Item)
    requires i.claim.ConstraintClaim?
    ensures DiscoveryEligible(i, scoped) <==>
      Governed(i.level) && Matches(ArchitectureRequirement(id, scoped, required), i)
  {
  }

  /** A constraint group settles on a claim exactly when it is the unique strongest representative. */
  lemma ConstraintGroupPicks(items: seq<Item>, k: GroupKey, x: Item)
    requires WellIdentified(Elems(items)) && k.kind == ArchitectureConstraint
    ensures !GroupFor(items, k).conflict && x in GroupFor(items, k).items <==>
      UniqueStrongest(Reps(GroupMembers(items, k)), x)
    ensures UniqueStrongest(Reps(GroupMembers(items, k)), x) ==> GroupFor(items, k).items == [x]
  {
    hide SurvivesIn, IsRep, GroupFor, UniqueStrongest;
    var reps := Reps(GroupMembers(items, k));
    GroupSettlesOn(items, k, x);
    ConstraintsSettle(reps, x);
    if UniqueStrongest(reps, x) { SettlesAlone(items, k, x); }
  }

  lemma ConstraintsSettle(reps: set<Item>, x: Item)
    requires forall i | i in reps :: i.Kind() == ArchitectureConstraint
    ensures Settles(ArchitectureConstraint, reps, x) <==> UniqueStrongest(reps, x)
  {
    forall y | y in reps ensures CoordinateOf(y) == None { assert y.claim.ConstraintClaim?; }
  }

  // ---- discovery's claim is the requirement's claim ----------------------

  lemma GovernedMembers(cands: seq<Item>, id: string, scoped: set<string>, required: bool, k: GroupKey, i: Item)
    requires k.kind == ArchitectureConstraint
    ensures i in GroupMembers(DiscoveryCandidates(cands, scoped), k) <==>
      Governed(i.level) && i in GroupMembers(Eligible(cands, ArchitectureRequirement(id, scoped, required)), k)
  {
    if i.Kind() == ArchitectureConstraint { SameScopeRule(id, scoped, required, i); }
  }

  /** Restricting a set to its governed claims keeps the unique strongest of a governed kind of set. */
  lemma GovernedPartDecides(all: set<Item>, governed: set<Item>, x: Item)
    requires WellIdentified(all) && governed == (set i | i in all && Governed(i.level))
    requires UniqueStrongest(Reps(governed), x)
    ensures UniqueStrongest(Reps(all), x)
  {
    forall j | j in all && SameClaim(x, j) && j != x ensures RepLt(x, j) {
      if Governed(j.level) { assert j in governed; }
    }
    forall y | y in Reps(all) && y != x ensures x.Rank() < y.Rank() {
      if Governed(y.level) { assert y in governed; assert y in Reps(governed); }
    }
  }

  /** The claim discovery settled on is the one the requirement's wider view settles on. */
  lemma SignalIsOffered(cands: seq<Item>, id: string, scoped: set<string>, required: bool, dv: View, w: View, x: Item)
    requires WellIdentified(Elems(cands)) && x.claim.ConstraintClaim?
    requires Resolves(DiscoveryCandidates(cands, scoped), dv) && x in ViewItems(dv.groups)
    requires Resolves(Eligible(cands, ArchitectureRequirement(id, scoped, required)), w)
    ensures exists e :: e in w.groups && e.key == KeyOf(x) && !e.group.conflict && e.group.items == [x]
    ensures x in ViewItems(w.groups)
  {
    hide SurvivesIn, Reps, UniqueStrongest, GroupFor, DiscoveryEligible, Matches;
    var narrow, r := DiscoveryCandidates(cands, scoped), ArchitectureRequirement(id, scoped, required);
    var wide, k := Eligible(cands, r), KeyOf(x);
    assert Elems(narrow) <= Elems(cands);
    EligibleIdentified(cands, r);
    SurvivorsByKey(wide, k);
    ViewItemIsRep(narrow, dv, x);
    ConstraintGroupPicks(narrow, k, x);
    ConstraintGroupPicks(wide, k, x);
    var all, governed := GroupMembers(wide, k), GroupMembers(narrow, k);
    forall i ensures i in governed <==> i in all && Governed(i.level) {
      GovernedMembers(cands, id, scoped, required, k, i);
    }
    assert governed == set i | i in all && Governed(i.level);
    GovernedPartDecides(all, governed, x);
    NonEmptyIfPicked(all, x);
    assert HasKey(w.groups, k);
    InViewItems(w.groups, x);
  }

  lemma NonEmptyIfPicked(m: set<Item>, x: Item)
    requires UniqueStrongest(Reps(m), x)
    ensures m != {}
  {
    assert x in m;
  }

  /**
   A governed constraint discovery used as an architecture signal is never lost:
   the same item is selected for the architecture requirement, unless the finished
   context records that requirement's budget as insufficient.
   */
  lemma SignalIsNeverLost(ctx: Context, plan: Plan, cands: seq<Item>, t: Trace, extra: seq<Unknown>, n: nat,
                          scoped: set<string>, required: bool, dv: View, x: Item)
    requires Given(plan, cands, extra) && Compiled(ctx, plan, cands, t, extra) && n < |plan.requirements|
    requires plan.requirements[n] == ArchitectureRequirement(plan.requirements[n].id, scoped, required)
    requires Resolves(DiscoveryCandidates(cands, scoped), dv) && x in ViewItems(dv.groups) && x.claim.ConstraintClaim?
    ensures (exists s :: s in ctx.selected && s.item == x && plan.requirements[n].id in s.because)
         || (exists u ::
                u in ctx.unknowns && u.reason.BudgetInsufficient? && u.requirement == Some(plan.requirements[n].id))
  {
    hide Resolves, WellIdentified, Lists, IsStep, Taken, Stop;
    var r := plan.requirements[n];
    TraceView(plan, cands, t, n);
    SignalIsOffered(cands, r.id, scoped, required, dv, t.views[n], x);
    AllTakenOrStopped(plan, cands, t, n, x);
    if StopOf(plan, t, n).Some? {
      assert RecordsAt(plan, t, n, ShortfallAt(plan, t, n).value);
      RecordedIsShown(ctx, plan, cands, t, extra, n, ShortfallAt(plan, t, n).value);
    } else {
      BoundIsTaken(plan, cands, t, ctx.selected, n);
      InBoundTo(ctx.selected, r.id, x);
    }
  }

  /** An all-eligible requirement takes every offered item, or records a stop and is unmet. */
  lemma AllTakenOrStopped(plan: Plan, cands: seq<Item>, t: Trace, n: nat, x: Item)
    requires WellIdentified(Elems(cands)) && InTrace(plan, t, n) && plan.requirements[n].coverage.AllEligible?
    requires Resolves(Eligible(cands, plan.requirements[n]), t.views[n]) && x in ViewItems(t.views[n].groups)
    ensures StopOf(plan, t, n).Some? || x in TakenAt(plan, t, n)
    ensures StopOf(plan, t, n).Some? ==> !MetAt(plan, t, n)
  {
    hide Resolves, WellIdentified, StopAt, Sort;
    var r, v := plan.requirements[n], t.views[n];
    EligibleIdentified(cands, r);
    ViewItemsDistinct(Eligible(cands, r), v);
    SortedWithin(ViewItems(v.groups));
    assert x in FrontierOf(r, v);
  }
}
