/**
 The requirement planner: ten baseline requirements under the task's scope, and
 one requirement for each distinct need the selected kernels declare.
 */
module RequirementPlanner {
  import opened Base
  import opened ContextModel
  import opened Reachability
  import opened Resolution
  import opened ResolutionLaws
  import opened ContextCompiler
  import opened Closure
  import opened ClosureAgreement
  import opened ClosureVerdict
  import opened HarmlessPlans
  import opened Discovery

  const GLOBAL_MAX_ITEMS := 64
  const GLOBAL_MAX_BYTES := 262_144
  const MEMORY_MIN_ITEMS := 3

  /** The content of a requirement, which its identity is derived from. The planner's own prose is left out. */
  datatype Body = Body(
    kind: Kind, reason: Option<string>, required: bool, scope: Scope, minAuthority: Level, priority: nat,
    coverage: Coverage, minItems: nat, keys: set<string>, maxItems: nat, policy: MissingPolicy, needRefs: set<string>)

  ghost predicate Injective(ident: Body -> string)
  {
    forall a, b | ident(a) == ident(b) :: a == b
  }

  function ToRequirement(ident: Body -> string, b: Body): Requirement
  {
    Requirement(ident(b), b.kind, b.required, b.scope, SnapshotBound, b.minAuthority, b.coverage, b.minItems, b.keys,
                Some(b.maxItems), Some(PER_REQUIREMENT_MAX_BYTES), b.policy)
  }

  function Priority(k: Kind): nat
  {
    match k
    case ArchitectureConstraint => 10
    case ApplicableLaw => 20
    case RepositoryState => 30
    case RelevantEntity => 40
    case DependencyContext => 50
    case PriorDecision => 60
    case EvidenceRef => 70
    case AuthorityFact => 80
    case CapabilityFact => 90
    case MemoryContext => 100
  }

  // ---- the baseline ------------------------------------------------------

  /** Kinds whose claims apply to the scope a task names. */
  predicate BindsToScope(k: Kind)
  {
    k in {ArchitectureConstraint, ApplicableLaw, PriorDecision, AuthorityFact, RepositoryState, RelevantEntity,
      DependencyContext}
  }

  function GoverningScope(k: Kind, scoped: set<string>): Scope
  {
    if scoped != {} && BindsToScope(k) then Scoped(scoped) else Global
  }

  function Baseline(k: Kind, scoped: set<string>, required: bool, minAuthority: Level): Body
  {
    Body(k, None, required, GoverningScope(k, scoped), minAuthority, Priority(k), AllEligible,
         if required then 1 else 0, {}, PER_REQUIREMENT_MAX_ITEMS,
         if required then PreserveUnknown else OptionalPolicy, {})
  }

  function MemoryBaseline(): Body
  {
    Body(MemoryContext, None, false, Global, Informative, Priority(MemoryContext), Minimum,
         MEMORY_MIN_ITEMS, {}, MEMORY_MIN_ITEMS, OptionalPolicy, {})
  }

  function BaselineBodies(scoped: set<string>, architectureRequired: bool): seq<Body>
  {
    [Baseline(ArchitectureConstraint, scoped, architectureRequired, Informative),
     Baseline(ApplicableLaw, scoped, false, Informative),
     Baseline(RepositoryState, scoped, scoped != {}, GovernedVerified),
     Baseline(RelevantEntity, scoped, false, Informative),
     Baseline(DependencyContext, scoped, false, Informative),
     Baseline(PriorDecision, scoped, false, Informative),
     Baseline(EvidenceRef, scoped, false, Unverified),
     Baseline(AuthorityFact, scoped, false, GovernedVerified),
     Baseline(CapabilityFact, scoped, false, GovernedVerified),
     MemoryBaseline()]
  }

  // ---- kernel needs ------------------------------------------------------

  datatype Need = Need(
    id: string, kind: Kind, required: bool, reason: string, coverage: Coverage, minimum: Level, keys: set<string>)
  {
    /** What parsing a kernel file guarantees. */
    predicate Valid() { coverage.SemanticKeys? <==> keys != {} }
  }

  datatype KernelNeeds = KernelNeeds(sourceRef: string, needs: seq<Need>)

  datatype Signature = Signature(
    kind: Kind, required: bool, reason: string, coverage: Coverage, floor: Level, keys: set<string>)

  /** Authority and capability gaps close only on governed facts, so a weaker floor is raised. */
  function AuthorityFloor(k: Kind, minimum: Level): Level
  {
    if GovernedOnly(k) && LevelRank(minimum) > LevelRank(GovernedVerified) then GovernedVerified else minimum
  }

  function SignatureOf(n: Need): Signature
  {
    Signature(n.kind, n.required, n.reason, n.coverage, AuthorityFloor(n.kind, n.minimum), n.keys)
  }

  /** One declared need and the reference that names it. */
  datatype Declared = Declared(ref: string, need: Need)

  function RefOf(k: KernelNeeds, n: Need): string { k.sourceRef + "#" + n.id }

  ghost function DeclaredBy(kernels: seq<KernelNeeds>): set<Declared>
  {
    set k, n | k in kernels && n in k.needs :: Declared(RefOf(k, n), n)
  }

  function KernelScope(k: Kind, scoped: set<string>): Scope
  {
    if scoped != {} && k != MemoryContext then Scoped(scoped) else Global
  }

  /** The requirement one signature yields, naming every kernel need behind it. */
  function BodyFor(s: Signature, refs: set<string>, scoped: set<string>): Body
  {
    var minItems := if s.coverage.SemanticKeys? then |s.keys| else if s.required then 1 else 0;
    Body(s.kind, Some(s.reason), s.required, KernelScope(s.kind, scoped), s.floor, Priority(s.kind) + 1,
         s.coverage, minItems, s.keys,
         if minItems > PER_REQUIREMENT_MAX_ITEMS then minItems else PER_REQUIREMENT_MAX_ITEMS,
         if s.required then PreserveUnknown else OptionalPolicy, refs)
  }

  ghost function RefsFor(declared: set<Declared>, s: Signature): set<string>
  {
    set d | d in declared && SignatureOf(d.need) == s :: d.ref
  }

  ghost function Signatures(declared: set<Declared>): set<Signature>
  {
    set d | d in declared :: SignatureOf(d.need)
  }

  ghost function KernelBodies(declared: set<Declared>, scoped: set<string>): set<Body>
  {
    set s | s in Signatures(declared) :: BodyFor(s, RefsFor(declared, s), scoped)
  }

  // ---- merging, in place -------------------------------------------------

  /** `merged` and the first need of each signature hold exactly `declared`. */
  ghost predicate Merges(declared: set<Declared>, merged: map<Signature, seq<string>>, first: map<Signature, Need>)
  {
    && merged.Keys == first.Keys == Signatures(declared)
    && (forall s | s in merged :: Elems(merged[s]) == RefsFor(declared, s))
    && forall s | s in first :: SignatureOf(first[s]) == s
  }

  lemma MergeOne(declared: set<Declared>, merged: map<Signature, seq<string>>, first: map<Signature, Need>, d: Declared)
    requires Merges(declared, merged, first)
    ensures var s := SignatureOf(d.need);
      Merges(declared + {d}, merged[s := (if s in merged then merged[s] else []) + [d.ref]],
             if s in first then first else first[s := d.need])
  {
    hide SignatureOf, RefsFor, Signatures, Elems;
    var s := SignatureOf(d.need);
    var sofar := if s in merged then merged[s] else [];
    ElemsSnoc(sofar, d.ref);
    SignaturesAdd(declared, d);
    forall x
      ensures RefsFor(declared + {d}, x) == if x == s then RefsFor(declared, x) + {d.ref} else RefsFor(declared, x) {
      RefsAdd(declared, d, x);
    }
    if s !in merged { NoRefs(declared, s); }
  }

  lemma SignaturesAdd(declared: set<Declared>, d: Declared)
    ensures Signatures(declared + {d}) == Signatures(declared) + {SignatureOf(d.need)}
  {
  }

  lemma RefsAdd(declared: set<Declared>, d: Declared, x: Signature)
    ensures RefsFor(declared + {d}, x) ==
      if x == SignatureOf(d.need) then RefsFor(declared, x) + {d.ref} else RefsFor(declared, x)
  {
  }

  lemma NoRefs(declared: set<Declared>, s: Signature)
    requires s !in Signatures(declared)
    ensures RefsFor(declared, s) == {} && Elems<string>([]) == {}
  {
  }

  ghost function DeclaredIn(k: KernelNeeds, n: nat): set<Declared>
    requires n <= |k.needs|
  {
    set i | 0 <= i < n :: Declared(RefOf(k, k.needs[i]), k.needs[i])
  }

  lemma DeclaredNext(kernels: seq<KernelNeeds>, b: nat)
    requires b < |kernels|
    ensures DeclaredBy(kernels[..b + 1]) == DeclaredBy(kernels[..b]) + DeclaredIn(kernels[b], |kernels[b].needs|)
  {
    assert kernels[..b + 1] == kernels[..b] + [kernels[b]];
  }

  method MergeNeeds(kernels: seq<KernelNeeds>)
    returns (merged: map<Signature, seq<string>>, first: map<Signature, Need>)
    ensures Merges(DeclaredBy(kernels), merged, first)
  {
    hide Merges;
    merged, first := map[], map[];
    NothingMerged();
    for b := 0 to |kernels|
      invariant Merges(DeclaredBy(kernels[..b]), merged, first)
    {
      var k := kernels[b];
      assert DeclaredBy(kernels[..b]) + DeclaredIn(k, 0) == DeclaredBy(kernels[..b]);
      for i := 0 to |k.needs|
        invariant Merges(DeclaredBy(kernels[..b]) + DeclaredIn(k, i), merged, first)
      {
        var n := k.needs[i];
        var s := SignatureOf(n);
        MergeOne(DeclaredBy(kernels[..b]) + DeclaredIn(k, i), merged, first, Declared(RefOf(k, n), n));
        assert DeclaredIn(k, i + 1) == DeclaredIn(k, i) + {Declared(RefOf(k, n), n)};
        assert DeclaredBy(kernels[..b]) + DeclaredIn(k, i) + {Declared(RefOf(k, n), n)} ==
          DeclaredBy(kernels[..b]) + DeclaredIn(k, i + 1);
        first := if s in first then first else first[s := n];
        merged := merged[s := (if s in merged then merged[s] else []) + [RefOf(k, n)]];
      }
      DeclaredNext(kernels, b);
    }
    assert kernels[..|kernels|] == kernels;
  }

  lemma NothingMerged()
    ensures Merges(DeclaredBy([]), map[], map[])
  {
  }

  /** One body for each signature; the plan sorts them, so the order met here does not matter. */
  method KernelRequirements(kernels: seq<KernelNeeds>, scoped: set<string>) returns (bodies: seq<Body>)
    ensures Elems(bodies) == KernelBodies(DeclaredBy(kernels), scoped) && NoDup(bodies)
  {
    var merged, first := MergeNeeds(kernels);
    var signatures := ListOf(merged.Keys);
    ghost var declared := DeclaredBy(kernels);
    forall k | 0 <= k < |signatures| ensures signatures[k] in merged { assert signatures[k] in Elems(signatures); }
    bodies := [];
    for k := 0 to |signatures|
      invariant |bodies| == k
      invariant forall i | 0 <= i < k ::
        bodies[i] == BodyFor(signatures[i], RefsFor(declared, signatures[i]), scoped)
    {
      var s := signatures[k];
      bodies := bodies + [BodyFor(SignatureOf(first[s]), Elems(merged[s]), scoped)];
    }
    OneBodyEach(declared, scoped, signatures, bodies);
  }

  lemma OneBodyEach(declared: set<Declared>, scoped: set<string>, signatures: seq<Signature>, bodies: seq<Body>)
    requires NoDup(signatures) && Elems(signatures) == Signatures(declared) && |bodies| == |signatures|
    requires forall i | 0 <= i < |bodies| ::
      bodies[i] == BodyFor(signatures[i], RefsFor(declared, signatures[i]), scoped)
    ensures Elems(bodies) == KernelBodies(declared, scoped) && NoDup(bodies)
  {
    forall b ensures b in Elems(bodies) <==> b in KernelBodies(declared, scoped) {
      if b in Elems(bodies) {
        var i :| 0 <= i < |bodies| && bodies[i] == b;
        assert signatures[i] in Elems(signatures);
      }
      if b in KernelBodies(declared, scoped) {
        var s :| s in Signatures(declared) && b == BodyFor(s, RefsFor(declared, s), scoped);
        assert s in Elems(signatures);
        var i :| 0 <= i < |signatures| && signatures[i] == s;
        assert bodies[i] == b;
      }
    }
  }

  // ---- the plan ----------------------------------------------------------

  predicate BodyLt(ident: Body -> string, a: Body, b: Body)
  {
    if a.priority != b.priority then a.priority < b.priority
    else if KindValue(a.kind) != KindValue(b.kind) then StrLt(KindValue(a.kind), KindValue(b.kind))
    else StrLt(ident(a), ident(b))
  }

  lemma BodyOrder(ident: Body -> string, s: set<Body>)
    requires Injective(ident)
    ensures StrictOrderOn((a: Body, b: Body) => BodyLt(ident, a, b), s)
  {
    var lt := (a: Body, b: Body) => BodyLt(ident, a, b);
    forall a | a in s ensures !lt(a, a) { StrLtIrreflexive(ident(a)); }
    forall a, b, c | a in s && b in s && c in s && lt(a, b) && lt(b, c) ensures lt(a, c) {
      StrLtFacts(KindValue(a.kind), KindValue(b.kind), KindValue(c.kind));
      StrLtFacts(ident(a), ident(b), ident(c));
    }
    forall a, b | a in s && b in s && a != b ensures lt(a, b) || lt(b, a) {
      StrLtFacts(KindValue(a.kind), KindValue(b.kind), "");
      StrLtFacts(ident(a), ident(b), "");
    }
  }

  function Ordered(ident: Body -> string, bodies: seq<Body>): seq<Body>
  {
    Sort((a: Body, b: Body) => BodyLt(ident, a, b), bodies)
  }

  function ToPlan(ident: Body -> string, ordered: seq<Body>): Plan
  {
    Plan(Budget(GLOBAL_MAX_ITEMS, GLOBAL_MAX_BYTES),
         seq(|ordered|, k requires 0 <= k < |ordered| => ToRequirement(ident, ordered[k])))
  }

  ghost function AllBodies(scoped: set<string>, architectureRequired: bool, declared: set<Declared>): set<Body>
  {
    Elems(BaselineBodies(scoped, architectureRequired)) + KernelBodies(declared, scoped)
  }

  /** `plan` lists the bodies once each, in canonical order. */
  ghost predicate Plans(ident: Body -> string, plan: Plan, bodies: set<Body>)
  {
    exists ordered: seq<Body> ::
      && StrictlySorted((a: Body, b: Body) => BodyLt(ident, a, b), ordered) && Elems(ordered) == bodies
      && plan == ToPlan(ident, ordered)
  }

  method PlanRequirements(ident: Body -> string, scoped: set<string>, materialityRequired: bool, signals: set<string>,
                          kernels: seq<KernelNeeds>) returns (plan: Plan)
    requires Injective(ident)
    ensures Plans(ident, plan, AllBodies(scoped, materialityRequired && signals != {}, DeclaredBy(kernels)))
  {
    var architectureRequired := materialityRequired && signals != {};
    var own := KernelRequirements(kernels, scoped);
    var bodies := BaselineBodies(scoped, architectureRequired) + own;
    BodiesDistinct(scoped, architectureRequired, own, DeclaredBy(kernels));
    BodyOrder(ident, Elems(bodies));
    SortSorted((a: Body, b: Body) => BodyLt(ident, a, b), bodies);
    plan := ToPlan(ident, Ordered(ident, bodies));
  }

  lemma BodiesDistinct(scoped: set<string>, required: bool, own: seq<Body>, declared: set<Declared>)
    requires Elems(own) == KernelBodies(declared, scoped) && NoDup(own)
    ensures NoDup(BaselineBodies(scoped, required) + own)
    ensures Elems(BaselineBodies(scoped, required) + own) == AllBodies(scoped, required, declared)
  {
    var base := BaselineBodies(scoped, required);
    forall b | b in own ensures b !in base { assert b in Elems(own); }
    NoDupConcat(base, own);
    assert Elems(base + own) == Elems(base) + Elems(own);
  }

  // ---- what every plan guarantees ----------------------------------------

  ghost predicate WellDeclared(kernels: seq<KernelNeeds>)
  {
    forall k, n | k in kernels && n in k.needs :: n.Valid()
  }

  lemma BaselineIsValid(ident: Body -> string, scoped: set<string>, required: bool, b: Body)
    requires b in BaselineBodies(scoped, required)
    ensures ToRequirement(ident, b).Valid() && !ToRequirement(ident, b).policy.Block?
  {
  }

  lemma KernelBodyIsValid(ident: Body -> string, scoped: set<string>, kernels: seq<KernelNeeds>, b: Body)
    requires WellDeclared(kernels) && b in KernelBodies(DeclaredBy(kernels), scoped)
    ensures ToRequirement(ident, b).Valid() && !ToRequirement(ident, b).policy.Block?
  {
    var s :| s in Signatures(DeclaredBy(kernels)) && b == BodyFor(s, RefsFor(DeclaredBy(kernels), s), scoped);
    var d :| d in DeclaredBy(kernels) && SignatureOf(d.need) == s;
    assert d.need.Valid();
  }

  lemma BodyIsValid(ident: Body -> string, scoped: set<string>, required: bool, kernels: seq<KernelNeeds>, b: Body)
    requires WellDeclared(kernels) && b in AllBodies(scoped, required, DeclaredBy(kernels))
    ensures ToRequirement(ident, b).Valid() && !ToRequirement(ident, b).policy.Block?
  {
    hide BaselineBodies, KernelBodies, WellDeclared, ToRequirement;
    if b in KernelBodies(DeclaredBy(kernels), scoped) { KernelBodyIsValid(ident, scoped, kernels, b); }
    else { BaselineIsValid(ident, scoped, required, b); }
  }

  /**
   Every plan is valid, its requirement ids are distinct, so the plan's own
   duplicate check cannot fail, and it never asks for a blocking requirement.
   */
  lemma PlansAreValid(ident: Body -> string, scoped: set<string>, required: bool, kernels: seq<KernelNeeds>, plan: Plan)
    requires Injective(ident) && WellDeclared(kernels)
    requires Plans(ident, plan, AllBodies(scoped, required, DeclaredBy(kernels)))
    ensures plan.Valid() && forall r | r in plan.requirements :: !r.policy.Block?
  {
    hide AllBodies, Injective;
    var lt := (a: Body, b: Body) => BodyLt(ident, a, b);
    var bodies := AllBodies(scoped, required, DeclaredBy(kernels));
    var ordered: seq<Body> :| StrictlySorted(lt, ordered) && Elems(ordered) == bodies && plan == ToPlan(ident, ordered);
    BodyOrder(ident, bodies);
    StrictlySortedNoDup(lt, ordered);
    forall r | r in plan.requirements ensures r.Valid() && !r.policy.Block? {
      var k :| 0 <= k < |ordered| && plan.requirements[k] == r;
      assert ordered[k] in Elems(ordered);
      BodyIsValid(ident, scoped, required, kernels, ordered[k]);
    }
    forall i, j | 0 <= i < j < |ordered| ensures plan.requirements[i].id != plan.requirements[j].id {
      SameIdent(ident, ordered[i], ordered[j]);
    }
  }

  lemma SameIdent(ident: Body -> string, a: Body, b: Body)
    requires Injective(ident)
    ensures ident(a) == ident(b) ==> a == b
  {
  }

  /** Which kernels declared a need, and in what order, leaves the plan unchanged. */
  lemma PlanForgetsKernelOrder(ident: Body -> string, scoped: set<string>, required: bool, a: seq<KernelNeeds>,
      b: seq<KernelNeeds>, p: Plan, q: Plan)
    requires Injective(ident) && DeclaredBy(a) == DeclaredBy(b)
    requires Plans(ident, p, AllBodies(scoped, required, DeclaredBy(a)))
    requires Plans(ident, q, AllBodies(scoped, required, DeclaredBy(b)))
    ensures p == q
  {
    hide AllBodies, Injective;
    var lt := (x: Body, y: Body) => BodyLt(ident, x, y);
    var bodies := AllBodies(scoped, required, DeclaredBy(a));
    var xs: seq<Body> :| StrictlySorted(lt, xs) && Elems(xs) == bodies && p == ToPlan(ident, xs);
    var ys: seq<Body> :| StrictlySorted(lt, ys) && Elems(ys) == bodies && q == ToPlan(ident, ys);
    BodyOrder(ident, bodies);
    SortedUnique(lt, xs, ys);
  }

  lemma PlannedAt(ident: Body -> string, plan: Plan, bodies: set<Body>, b: Body) returns (n: nat)
    requires Plans(ident, plan, bodies) && b in bodies
    ensures n < |plan.requirements| && plan.requirements[n] == ToRequirement(ident, b)
  {
    var lt := (x: Body, y: Body) => BodyLt(ident, x, y);
    var ordered: seq<Body> :| StrictlySorted(lt, ordered) && Elems(ordered) == bodies && plan == ToPlan(ident, ordered);
    assert b in Elems(ordered);
    n :| n < |ordered| && ordered[n] == b;
  }

  /** Every declared need is planned once, at its raised floor, naming every kernel that declared it. */
  lemma NeedsAreMerged(scoped: set<string>, kernels: seq<KernelNeeds>, d: Declared, e: Declared, b: Body, c: Body)
    requires d in DeclaredBy(kernels) && e in DeclaredBy(kernels)
    requires b in KernelBodies(DeclaredBy(kernels), scoped) && d.ref in b.needRefs
    requires c in KernelBodies(DeclaredBy(kernels), scoped) && e.ref in c.needRefs
    requires forall x, y | x in DeclaredBy(kernels) && y in DeclaredBy(kernels) && x.ref == y.ref :: x == y
    ensures b == c <==> SignatureOf(d.need) == SignatureOf(e.need)
    ensures b.kind == d.need.kind && b.keys == d.need.keys
    ensures b.minAuthority == AuthorityFloor(d.need.kind, d.need.minimum)
  {
    var declared := DeclaredBy(kernels);
    var s :| s in Signatures(declared) && b == BodyFor(s, RefsFor(declared, s), scoped);
    var t :| t in Signatures(declared) && c == BodyFor(t, RefsFor(declared, t), scoped);
    var x :| x in declared && SignatureOf(x.need) == s && x.ref == d.ref;
    var y :| y in declared && SignatureOf(y.need) == t && y.ref == e.ref;
    assert x == d && y == e;
  }

  /** The advertised floor is the one matching enforces: raising it changes no match. */
  lemma FloorIsHonest(r: Requirement, item: Item)
    ensures Matches(r, item) <==> Matches(r.(minAuthority := AuthorityFloor(r.kind, r.minAuthority)), item)
  {
  }

  // ---- which kernel needs can make closure reject ------------------------

  /** A need that selects something, and nothing closure can reject. */
  predicate NeedIsSafe(n: Need, scoped: set<string>)
  {
    n.required || !n.coverage.Minimum? ==>
      && !(n.kind == RepositoryState && n.minimum.Unverified?)
      && !(n.kind == CapabilityFact && scoped != {})
  }

  ghost predicate NeedsAreSafe(kernels: seq<KernelNeeds>, scoped: set<string>)
  {
    forall k, n | k in kernels && n in k.needs :: NeedIsSafe(n, scoped)
  }

  /** A planned requirement that admits unverified state, or sees capabilities under the task's scope. */
  predicate Hazard(r: Requirement)
  {
    AdmitsUnverifiedState(r) || (r.kind == CapabilityFact && r.scope.Scoped? && Takes(r))
  }

  lemma BaselineNoHazard(ident: Body -> string, scoped: set<string>, required: bool, b: Body)
    requires b in BaselineBodies(scoped, required)
    ensures !Hazard(ToRequirement(ident, b))
  {
  }

  lemma KernelHazardIff(ident: Body -> string, scoped: set<string>, n: Need, refs: set<string>)
    requires n.Valid()
    ensures Hazard(ToRequirement(ident, BodyFor(SignatureOf(n), refs, scoped))) <==> !NeedIsSafe(n, scoped)
  {
    var b := BodyFor(SignatureOf(n), refs, scoped);
    assert n.coverage.SemanticKeys? ==> |n.keys| > 0;
  }

  /** Some planned requirement is a hazard exactly when some kernel need is unsafe. */
  lemma HazardIff(ident: Body -> string, scoped: set<string>, required: bool, kernels: seq<KernelNeeds>, plan: Plan)
    requires Injective(ident) && WellDeclared(kernels)
    requires Plans(ident, plan, AllBodies(scoped, required, DeclaredBy(kernels)))
    ensures (exists r :: r in plan.requirements && Hazard(r)) <==> !NeedsAreSafe(kernels, scoped)
  {
    hide BaselineBodies, Hazard, NeedIsSafe, ToRequirement, BodyFor, Plans, Injective;
    var declared := DeclaredBy(kernels);
    if r :| r in plan.requirements && Hazard(r) {
      var b := PlannedBody(ident, plan, AllBodies(scoped, required, declared), r);
      if b in BaselineBodies(scoped, required) { BaselineNoHazard(ident, scoped, required, b); }
      assert b in KernelBodies(declared, scoped);
      var s :| s in Signatures(declared) && b == BodyFor(s, RefsFor(declared, s), scoped);
      var d :| d in declared && SignatureOf(d.need) == s;
      KernelHazardIff(ident, scoped, d.need, RefsFor(declared, s));
    }
    if k, n :| k in kernels && n in k.needs && !NeedIsSafe(n, scoped) {
      var d := Declared(RefOf(k, n), n);
      var b := BodyFor(SignatureOf(n), RefsFor(declared, SignatureOf(n)), scoped);
      assert d in declared && SignatureOf(d.need) in Signatures(declared);
      assert b in KernelBodies(declared, scoped);
      KernelHazardIff(ident, scoped, n, RefsFor(declared, SignatureOf(n)));
      var at := PlannedAt(ident, plan, AllBodies(scoped, required, declared), b);
      assert plan.requirements[at] in plan.requirements;
    }
  }

  lemma PlannedBody(ident: Body -> string, plan: Plan, bodies: set<Body>, r: Requirement) returns (b: Body)
    requires Plans(ident, plan, bodies) && r in plan.requirements
    ensures b in bodies && r == ToRequirement(ident, b)
  {
    var lt := (x: Body, y: Body) => BodyLt(ident, x, y);
    var ordered: seq<Body> :| StrictlySorted(lt, ordered) && Elems(ordered) == bodies && plan == ToPlan(ident, ordered);
    var k :| 0 <= k < |ordered| && plan.requirements[k] == r;
    b := ordered[k];
    assert b in Elems(ordered);
  }

  /** The task's one scope, or none: the only applicability a planned capability requirement has. */
  lemma PlannedScope(ident: Body -> string, scoped: set<string>, required: bool, kernels: seq<KernelNeeds>, plan: Plan,
                     r: Requirement)
    requires Plans(ident, plan, AllBodies(scoped, required, DeclaredBy(kernels))) && r in plan.requirements
    requires r.kind == CapabilityFact
    ensures r.freshness.SnapshotBound? && (r.scope.Global? || r.scope == Scoped(scoped))
  {
    hide Plans;
    var b := PlannedBody(ident, plan, AllBodies(scoped, required, DeclaredBy(kernels)), r);
    if b in BaselineBodies(scoped, required) {} else { assert b in KernelBodies(DeclaredBy(kernels), scoped); }
  }

  lemma BaselineCapability(ident: Body -> string, scoped: set<string>, required: bool, kernels: seq<KernelNeeds>,
                           plan: Plan) returns (r: Requirement)
    requires Plans(ident, plan, AllBodies(scoped, required, DeclaredBy(kernels)))
    ensures r in plan.requirements && r.kind == CapabilityFact && r.scope.Global? && r.freshness.SnapshotBound?
    ensures r.coverage.AllEligible? && r.minAuthority.GovernedVerified?
  {
    hide Plans;
    var b := Baseline(CapabilityFact, scoped, false, GovernedVerified);
    assert b == BaselineBodies(scoped, required)[8];
    var n := PlannedAt(ident, plan, AllBodies(scoped, required, DeclaredBy(kernels)), b);
    r := plan.requirements[n];
  }

  /** Two requirements of one freshness disagree only across scopes. */
  lemma ScopesApart(r: Requirement, s: Requirement, scoped: set<string>)
    requires r.freshness.SnapshotBound? && s.freshness.SnapshotBound? && Disagreement(r, s)
    requires (r.scope.Global? || r.scope == Scoped(scoped)) && (s.scope.Global? || s.scope == Scoped(scoped))
    ensures Hazard(r) || Hazard(s)
  {
  }

  /** Every planned requirement has the same byte ceiling, and two items of it fit the global one. */
  lemma PlannedCeilings(ident: Body -> string, scoped: set<string>, required: bool, kernels: seq<KernelNeeds>,
                        plan: Plan, c: nat)
    requires Plans(ident, plan, AllBodies(scoped, required, DeclaredBy(kernels))) && c <= PER_REQUIREMENT_MAX_BYTES
    ensures plan.budget.maxItems >= 2 && c + c <= plan.budget.maxBytes
    ensures forall r | r in plan.requirements :: Affords(r, c)
  {
    hide AllBodies, BodyLt;
    forall r | r in plan.requirements ensures Affords(r, c) {
      hide Plans;
      var b := PlannedBody(ident, plan, AllBodies(scoped, required, DeclaredBy(kernels)), r);
    }
  }

  /**
   Closure can never reject a planned compile exactly when every kernel need is
   safe, whatever the least an item costs, as long as a requirement affords it.
   */
  lemma PlanIsHarmlessIff(ident: Body -> string, scoped: set<string>, required: bool, kernels: seq<KernelNeeds>,
                          plan: Plan, c: nat)
    requires Injective(ident) && WellDeclared(kernels) && c <= PER_REQUIREMENT_MAX_BYTES
    requires Plans(ident, plan, AllBodies(scoped, required, DeclaredBy(kernels)))
    ensures plan.Valid() && NoneBlocks(plan) && (NeverRejected(plan, c) <==> NeedsAreSafe(kernels, scoped))
    ensures Harmless(plan, c) <==> NeedsAreSafe(kernels, scoped)
  {
    PlansAreValid(ident, scoped, required, kernels, plan);
    HazardIff(ident, scoped, required, kernels, plan);
    PlannedCeilings(ident, scoped, required, kernels, plan, c);
    NeverRejectedIff(plan, c);
    hide Plans, NeedsAreSafe, Injective, NeverRejected, Disagreement, Affords;
    var base := BaselineCapability(ident, scoped, required, kernels, plan);
    forall r, s | r in plan.requirements && s in plan.requirements && Disagreement(r, s)
      ensures Hazard(r) || Hazard(s)
    {
      DisagreementIsHazard(ident, scoped, required, kernels, plan, r, s);
    }
    forall r | r in plan.requirements && Hazard(r) ensures AdmitsUnverifiedState(r) || Disagreement(base, r) {
      HazardDisagrees(base, r);
    }
  }

  lemma DisagreementIsHazard(ident: Body -> string, scoped: set<string>, required: bool, kernels: seq<KernelNeeds>,
                             plan: Plan, r: Requirement, s: Requirement)
    requires Plans(ident, plan, AllBodies(scoped, required, DeclaredBy(kernels)))
    requires r in plan.requirements && s in plan.requirements && Disagreement(r, s)
    ensures Hazard(r) || Hazard(s)
  {
    hide Plans, AllBodies, Hazard;
    PlannedScope(ident, scoped, required, kernels, plan, r);
    PlannedScope(ident, scoped, required, kernels, plan, s);
    ScopesApart(r, s, scoped);
  }

  lemma HazardDisagrees(base: Requirement, r: Requirement)
    requires base.kind == CapabilityFact && base.scope.Global? && base.freshness.SnapshotBound?
    requires base.coverage.AllEligible? && base.minAuthority.GovernedVerified?
    requires Hazard(r) && (r.kind == CapabilityFact ==> r.freshness.SnapshotBound?)
    ensures AdmitsUnverifiedState(r) || Disagreement(base, r)
  {
  }
}
