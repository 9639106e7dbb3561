/**
 What a plan holds, told from the task and the kernels' needs: the standing
 requirement of each kind, one requirement for each need, nothing else, and in
 which order they are served.
 */
module PlannerLaws {
  import opened Base
  import opened ContextModel
  import opened RequirementPlanner

  /** Kinds in the order a plan serves them. */
  const SERVED: seq<Kind> :=
    [ArchitectureConstraint, ApplicableLaw, RepositoryState, RelevantEntity, DependencyContext, PriorDecision,
     EvidenceRef, AuthorityFact, CapabilityFact, MemoryContext]

  /** The requirement every plan has of its kind, for a task that names `scoped`. */
  ghost predicate Standing(r: Requirement, scoped: set<string>, architectureRequired: bool)
  {
    && r.freshness == SnapshotBound && r.requiredKeys == {} && r.maxBytes == Some(65_536)
    && r.scope == (if scoped == {} || r.kind in {EvidenceRef, CapabilityFact, MemoryContext} then Global
                   else Scoped(scoped))
    && (r.required <==>
        (r.kind == RepositoryState && scoped != {}) || (r.kind == ArchitectureConstraint && architectureRequired))
    && r.policy == (if r.required then PreserveUnknown else OptionalPolicy)
    && r.minAuthority == (if r.kind == EvidenceRef then Unverified
                          else if r.kind in {RepositoryState, AuthorityFact, CapabilityFact} then GovernedVerified
                          else Informative)
    && (if r.kind == MemoryContext then r.coverage == Minimum && r.minItems == 3 && r.maxItems == Some(3)
        else r.coverage == AllEligible && r.minItems == (if r.required then 1 else 0) && r.maxItems == Some(16))
  }

  /** The requirement a kernel's need becomes. */
  ghost predicate ForNeed(r: Requirement, n: Need, scoped: set<string>)
  {
    && r.kind == n.kind && r.required == n.required && r.coverage == n.coverage && r.requiredKeys == n.keys
    && r.freshness == SnapshotBound && r.maxBytes == Some(65_536)
    && r.scope == (if scoped == {} || n.kind == MemoryContext then Global else Scoped(scoped))
    && r.minAuthority == (if n.kind in {AuthorityFact, CapabilityFact} && n.minimum in {Informative, Unverified}
                          then GovernedVerified else n.minimum)
    && r.minItems == (if n.coverage == SemanticKeys then |n.keys| else if n.required then 1 else 0)
    && r.maxItems == Some(if r.minItems > 16 then r.minItems else 16)
    && r.policy == (if n.required then PreserveUnknown else OptionalPolicy)
  }

  ghost predicate NeededBy(r: Requirement, kernels: seq<KernelNeeds>, scoped: set<string>)
  {
    exists k, n :: k in kernels && n in k.needs && ForNeed(r, n, scoped)
  }

  ghost predicate FirstOfKind(plan: Plan, i: nat)
  {
    i < |plan.requirements| && forall j | 0 <= j < i :: plan.requirements[j].kind != plan.requirements[i].kind
  }

  ghost predicate Served(plan: Plan, k: Kind)
  {
    exists i: nat :: FirstOfKind(plan, i) && plan.requirements[i].kind == k
  }

  /** The bodies a plan lists, in order. */
  lemma PlannedBodies(ident: Body -> string, plan: Plan, bodies: set<Body>) returns (ordered: seq<Body>)
    requires Plans(ident, plan, bodies)
    ensures StrictlySorted((a: Body, b: Body) => BodyLt(ident, a, b), ordered) && Elems(ordered) == bodies
    ensures |ordered| == |plan.requirements| && plan.budget == Budget(64, 262_144)
    ensures forall i | 0 <= i < |ordered| :: plan.requirements[i] == ToRequirement(ident, ordered[i])
    ensures forall i, j | 0 <= i < j < |ordered| :: ordered[i].priority <= ordered[j].priority
  {
    ordered :| StrictlySorted((a: Body, b: Body) => BodyLt(ident, a, b), ordered) && Elems(ordered) == bodies
      && plan == ToPlan(ident, ordered);
    var lt := (a: Body, b: Body) => BodyLt(ident, a, b);
    forall i, j | 0 <= i < j < |ordered| ensures ordered[i].priority <= ordered[j].priority {
      assert lt(ordered[i], ordered[j]);
    }
  }

  /** Where a kind is served. */
  function Place(k: Kind): (p: nat)
    ensures p < |SERVED| && SERVED[p] == k && forall i | 0 <= i < |SERVED| && SERVED[i] == k :: i == p
  {
    match k
    case ArchitectureConstraint => 0
    case ApplicableLaw => 1
    case RepositoryState => 2
    case RelevantEntity => 3
    case DependencyContext => 4
    case PriorDecision => 5
    case EvidenceRef => 6
    case AuthorityFact => 7
    case CapabilityFact => 8
    case MemoryContext => 9
  }

  lemma BaselineBody(ident: Body -> string, scoped: set<string>, required: bool, b: Body)
    requires b in BaselineBodies(scoped, required)
    ensures Standing(ToRequirement(ident, b), scoped, required) && b.priority == 10 * Place(b.kind) + 10
  {
  }

  lemma OneBaselineEach(scoped: set<string>, required: bool, a: Body, b: Body)
    requires a in BaselineBodies(scoped, required) && b in BaselineBodies(scoped, required) && a.kind == b.kind
    ensures a == b
  {
  }

  lemma HasBaseline(scoped: set<string>, required: bool, k: Kind) returns (b: Body)
    ensures b in BaselineBodies(scoped, required) && b.kind == k
  {
    b := BaselineBodies(scoped, required)[Place(k)];
  }

  lemma NeedBody(ident: Body -> string, scoped: set<string>, kernels: seq<KernelNeeds>, b: Body)
    requires b in KernelBodies(DeclaredBy(kernels), scoped)
    ensures NeededBy(ToRequirement(ident, b), kernels, scoped) && b.priority == 10 * Place(b.kind) + 11
  {
    var declared := DeclaredBy(kernels);
    var s :| s in Signatures(declared) && b == BodyFor(s, RefsFor(declared, s), scoped);
    var d :| d in declared && SignatureOf(d.need) == s;
    BodyOfNeed(ident, scoped, d.need, RefsFor(declared, s));
    var k, n :| k in kernels && n in k.needs && d == Declared(RefOf(k, n), n);
  }

  lemma BodyOfNeed(ident: Body -> string, scoped: set<string>, n: Need, refs: set<string>)
    ensures var b := BodyFor(SignatureOf(n), refs, scoped);
      ForNeed(ToRequirement(ident, b), n, scoped) && b.priority == 10 * Place(b.kind) + 11
  {
  }

  /** Each listed body is the standing one of its kind, the first of it, or comes from a need. */
  lemma ListedBody(ident: Body -> string, scoped: set<string>, required: bool, kernels: seq<KernelNeeds>,
                   ordered: seq<Body>, i: nat)
    requires Elems(ordered) == AllBodies(scoped, required, DeclaredBy(kernels)) && i < |ordered|
    ensures ordered[i] in BaselineBodies(scoped, required) || ordered[i] in KernelBodies(DeclaredBy(kernels), scoped)
  {
    assert ordered[i] in Elems(ordered);
  }

  /** `ordered` lists a plan's bodies, each once, by priority. */
  ghost predicate ListsBodies(ordered: seq<Body>, scoped: set<string>, required: bool, kernels: seq<KernelNeeds>)
  {
    && Elems(ordered) == AllBodies(scoped, required, DeclaredBy(kernels)) && NoDup(ordered)
    && forall x, y | 0 <= x < y < |ordered| :: ordered[x].priority <= ordered[y].priority
  }

  lemma NotBeforeStanding(ident: Body -> string, scoped: set<string>, required: bool, kernels: seq<KernelNeeds>,
                          ordered: seq<Body>, at: nat, j: nat)
    requires ListsBodies(ordered, scoped, required, kernels) && at < |ordered| && j < |ordered|
    requires ordered[at] in BaselineBodies(scoped, required) && ordered[j].kind == ordered[at].kind
    ensures at <= j && (ordered[j] in BaselineBodies(scoped, required) ==> j == at)
  {
    hide BaselineBodies, KernelBodies;
    ListedBody(ident, scoped, required, kernels, ordered, j);
    BaselineBody(ident, scoped, required, ordered[at]);
    if ordered[j] in BaselineBodies(scoped, required) {
      OneBaselineEach(scoped, required, ordered[j], ordered[at]);
    } else {
      NeedBody(ident, scoped, kernels, ordered[j]);
    }
  }

  lemma StandingFirst(ident: Body -> string, scoped: set<string>, required: bool, kernels: seq<KernelNeeds>,
                      ordered: seq<Body>, i: nat)
    requires ListsBodies(ordered, scoped, required, kernels) && i < |ordered|
    ensures ordered[i] in BaselineBodies(scoped, required) <==>
      forall j | 0 <= j < i :: ordered[j].kind != ordered[i].kind
  {
    var b := HasBaseline(scoped, required, ordered[i].kind);
    assert b in Elems(ordered);
    var at: nat :| at < |ordered| && ordered[at] == b;
    hide BaselineBodies, ListsBodies;
    NotBeforeStanding(ident, scoped, required, kernels, ordered, at, i);
    forall j: nat | j < |ordered| && ordered[j].kind == ordered[i].kind ensures at <= j {
      NotBeforeStanding(ident, scoped, required, kernels, ordered, at, j);
    }
  }

  lemma PlanListsBodies(ident: Body -> string, scoped: set<string>, required: bool, kernels: seq<KernelNeeds>,
                        ordered: seq<Body>)
    requires Injective(ident) && Elems(ordered) == AllBodies(scoped, required, DeclaredBy(kernels))
    requires StrictlySorted((a: Body, b: Body) => BodyLt(ident, a, b), ordered)
    requires forall x, y | 0 <= x < y < |ordered| :: ordered[x].priority <= ordered[y].priority
    ensures ListsBodies(ordered, scoped, required, kernels)
  {
    hide AllBodies, BodyLt, Injective;
    BodyOrder(ident, Elems(ordered));
    StrictlySortedNoDup((a: Body, b: Body) => BodyLt(ident, a, b), ordered);
  }

  /**
   Every plan has ten standing requirements, the first of each kind, and every other
   requirement comes from a kernel's need; every need is served; and kinds are served
   in one order.
   */
  lemma PlanHolds(ident: Body -> string, scoped: set<string>, required: bool, kernels: seq<KernelNeeds>, plan: Plan)
    requires Injective(ident) && Plans(ident, plan, AllBodies(scoped, required, DeclaredBy(kernels)))
    ensures plan.budget == Budget(64, 262_144)
    ensures forall k :: Served(plan, k)
    ensures forall i: nat | FirstOfKind(plan, i) :: Standing(plan.requirements[i], scoped, required)
    ensures forall i: nat | i < |plan.requirements| && !FirstOfKind(plan, i) ::
      NeededBy(plan.requirements[i], kernels, scoped)
    ensures forall k, n | k in kernels && n in k.needs ::
      exists r :: r in plan.requirements && ForNeed(r, n, scoped)
    ensures forall i, j | 0 <= i < j < |plan.requirements| ::
      Place(plan.requirements[i].kind) <= Place(plan.requirements[j].kind)
  {
    var bodies := AllBodies(scoped, required, DeclaredBy(kernels));
    var ordered := PlannedBodies(ident, plan, bodies);
    PlanListsBodies(ident, scoped, required, kernels, ordered);
    hide BaselineBodies, KernelBodies, BodyLt, Injective, Plans, Standing, NeededBy, ForNeed, ListsBodies;
    forall i: nat | i < |ordered|
      ensures ordered[i] in BaselineBodies(scoped, required) <==> FirstOfKind(plan, i)
      ensures FirstOfKind(plan, i) ==> Standing(plan.requirements[i], scoped, required)
      ensures !FirstOfKind(plan, i) ==> NeededBy(plan.requirements[i], kernels, scoped)
      ensures 10 * Place(plan.requirements[i].kind) + 10 <= ordered[i].priority <=
        10 * Place(plan.requirements[i].kind) + 11 {
      StandingFirst(ident, scoped, required, kernels, ordered, i);
      ListedBody(ident, scoped, required, kernels, ordered, i);
      if ordered[i] in BaselineBodies(scoped, required) { BaselineBody(ident, scoped, required, ordered[i]); }
      else { NeedBody(ident, scoped, kernels, ordered[i]); }
    }
    forall k ensures Served(plan, k) {
      var b := HasBaseline(scoped, required, k);
      assert b in Elems(ordered);
      var i: nat :| i < |ordered| && ordered[i] == b;
      assert FirstOfKind(plan, i);
    }
    forall k, n | k in kernels && n in k.needs ensures exists r :: r in plan.requirements && ForNeed(r, n, scoped) {
      var i := NeedIsListed(ident, scoped, required, kernels, ordered, k, n);
      assert plan.requirements[i] in plan.requirements;
    }
  }

  lemma NeedIsListed(ident: Body -> string, scoped: set<string>, required: bool, kernels: seq<KernelNeeds>,
                     ordered: seq<Body>, k: KernelNeeds, n: Need) returns (i: nat)
    requires Elems(ordered) == AllBodies(scoped, required, DeclaredBy(kernels)) && k in kernels && n in k.needs
    ensures i < |ordered| && ForNeed(ToRequirement(ident, ordered[i]), n, scoped)
  {
    var declared := DeclaredBy(kernels);
    var d, refs := Declared(RefOf(k, n), n), RefsFor(declared, SignatureOf(n));
    assert d in declared && SignatureOf(d.need) in Signatures(declared);
    BodyOfNeed(ident, scoped, n, refs);
    hide BaselineBodies, ForNeed, BodyFor;
    assert BodyFor(SignatureOf(n), refs, scoped) in Elems(ordered);
    i :| i < |ordered| && ordered[i] == BodyFor(SignatureOf(n), refs, scoped);
  }

  /** A floor as a plan advertises it. */
  predicate SameFloor(k: Kind, a: Level, b: Level)
  {
    a == b || (k in {AuthorityFact, CapabilityFact} && a != GovernedAuthoritative && b != GovernedAuthoritative)
  }

  /** Two needs become one requirement exactly when they ask for the same, for the same reason, at the same floor. */
  lemma NeedsMergeIff(scoped: set<string>, kernels: seq<KernelNeeds>, d: Declared, e: Declared, b: Body, c: Body)
    requires d in DeclaredBy(kernels) && e in DeclaredBy(kernels)
    requires b in KernelBodies(DeclaredBy(kernels), scoped) && d.ref in b.needRefs
    requires c in KernelBodies(DeclaredBy(kernels), scoped) && e.ref in c.needRefs
    requires forall x, y | x in DeclaredBy(kernels) && y in DeclaredBy(kernels) && x.ref == y.ref :: x == y
    ensures b == c <==> (var m, n := d.need, e.need;
      && m.kind == n.kind && m.required == n.required && m.reason == n.reason && m.coverage == n.coverage
      && m.keys == n.keys && SameFloor(m.kind, m.minimum, n.minimum))
  {
    hide KernelBodies, DeclaredBy;
    NeedsAreMerged(scoped, kernels, d, e, b, c);
  }
}
