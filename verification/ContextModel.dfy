/**
 The typed context IR: candidates, requirements, unknowns and the compiled
 context, with the constructor constraints the models enforce.
 */
module ContextModel {
  import opened Base

  datatype Kind =
    | RelevantEntity | RepositoryState | ArchitectureConstraint | ApplicableLaw | PriorDecision
    | DependencyContext | EvidenceRef | MemoryContext | CapabilityFact | AuthorityFact

  function KindValue(k: Kind): string
  {
    match k
    case RelevantEntity => "relevant_entity"
    case RepositoryState => "repository_state"
    case ArchitectureConstraint => "architecture_constraint"
    case ApplicableLaw => "applicable_law"
    case PriorDecision => "prior_decision"
    case DependencyContext => "dependency_context"
    case EvidenceRef => "evidence_ref"
    case MemoryContext => "memory_context"
    case CapabilityFact => "capability_fact"
    case AuthorityFact => "authority_fact"
  }

  datatype Level = GovernedAuthoritative | GovernedVerified | Informative | Unverified

  /** The one authority ranking, strongest first. */
  function LevelRank(l: Level): nat
  {
    match l
    case GovernedAuthoritative => 0
    case GovernedVerified => 1
    case Informative => 2
    case Unverified => 3
  }

  predicate Governed(l: Level) { l.GovernedAuthoritative? || l.GovernedVerified? }

  datatype Scope = Global | Scoped(refs: set<string>)

  datatype DecisionStatus = Active | Superseded | StatusUnknown

  datatype SourceRef = SourceRef(
    sourceId: string, sourceKind: string, locator: string,
    coordinate: Option<string>, digest: Option<string>)

  /** `has_immutable_provenance`: a coordinate or a digest that is not empty. */
  predicate HasProvenance(s: SourceRef)
  {
    (s.coordinate.Some? && s.coordinate.value != "") || (s.digest.Some? && s.digest.value != "")
  }

  /** What an item asserts. `body` stands for the fields no rule reads. */
  datatype Claim =
    | EntityClaim(body: string)
    | RepositoryClaim(revision: string, body: string)
    | ConstraintClaim(body: string)
    | LawClaim(precedence: Option<nat>, supersedes: seq<string>, body: string)
    | DecisionClaim(status: DecisionStatus, supersedes: seq<string>, supersededBy: seq<string>, body: string)
    | DependencyClaim(version: Option<string>, body: string)
    | EvidenceClaim(body: string)
    | MemoryClaim(body: string)
    | CapabilityClaim(state: string, body: string)
    | AuthorityClaim(state: string, body: string)

  datatype Item = Item(
    id: string, key: string, level: Level, source: SourceRef, scope: Scope, claim: Claim, cost: nat)
  {
    function Kind(): Kind
    {
      match claim
      case EntityClaim(_) => RelevantEntity
      case RepositoryClaim(_, _) => RepositoryState
      case ConstraintClaim(_) => ArchitectureConstraint
      case LawClaim(_, _, _) => ApplicableLaw
      case DecisionClaim(_, _, _, _) => PriorDecision
      case DependencyClaim(_, _) => DependencyContext
      case EvidenceClaim(_) => EvidenceRef
      case MemoryClaim(_) => MemoryContext
      case CapabilityClaim(_, _) => CapabilityFact
      case AuthorityClaim(_, _) => AuthorityFact
    }

    function Rank(): nat { LevelRank(level) }

    predicate Marked() { claim.DecisionClaim? && claim.status.Superseded? }

    /** Constructor constraints the model layer enforces on every item. */
    ghost predicate Valid()
    {
      && (claim.MemoryClaim? ==> !Governed(level))
      && (scope.Scoped? ==> scope.refs != {})
      && (Governed(level) ==> HasProvenance(source))
    }
  }

  /**
   Identity is an injective recipe over kind, key, claim, applicability and
   source. It leaves the authority level out, so two copies of one identity may
   differ there, and then in serialised cost.
   */
  ghost predicate WellIdentified(s: set<Item>)
  {
    forall a, b | a in s && b in s && a.id == b.id ::
      && a == b.(level := a.level, cost := a.cost)
      && (a.level == b.level ==> a == b)
  }

  ghost predicate IdsDistinct(s: set<Item>)
  {
    forall a, b | a in s && b in s && a.id == b.id :: a == b
  }

  datatype Freshness = ExactRevision(constraint: string) | SnapshotBound | AnyFreshness
  datatype Coverage = Minimum | AllEligible | SemanticKeys
  datatype MissingPolicy = Block | PreserveUnknown | OptionalPolicy

  datatype Requirement = Requirement(
    id: string, kind: Kind, required: bool, scope: Scope, freshness: Freshness,
    minAuthority: Level, coverage: Coverage, minItems: nat, requiredKeys: set<string>,
    maxItems: Option<nat>, maxBytes: Option<nat>, policy: MissingPolicy)
  {
    ghost predicate Valid()
    {
      && (scope.Scoped? ==> scope.refs != {})
      && (required ==> minItems >= 1)
      && (maxItems.Some? ==> maxItems.value >= 1 && maxItems.value >= minItems)
      && (maxBytes.Some? ==> maxBytes.value >= 1)
      && (maxItems.Some? || maxBytes.Some?)
      && (!coverage.SemanticKeys? ==> requiredKeys == {})
      && (coverage.SemanticKeys? ==> requiredKeys != {} && minItems >= |requiredKeys|)
      && (required ==> !policy.OptionalPolicy?)
    }
  }

  datatype Budget = Budget(maxItems: nat, maxBytes: nat)

  datatype Plan = Plan(budget: Budget, requirements: seq<Requirement>)
  {
    ghost predicate Valid()
    {
      && budget.maxItems >= 1 && budget.maxBytes >= 1
      && (forall r | r in requirements :: r.Valid())
      && (forall i, j | 0 <= i < j < |requirements| :: requirements[i].id != requirements[j].id)
    }
  }

  datatype Materiality = Blocking | NonBlocking

  datatype Reason =
    | AmbiguousScope | MissingRequiredContext | ConflictingGovernedClaims | BudgetInsufficient
    | UnsupportedCapability | MissingAuthority | UnknownSupersession | DanglingSupersession
    | OtherReason(code: string)

  datatype Bound =
    | RequirementMaxItems | RequirementMaxBytes | GlobalMaxItems | GlobalMaxBytes | OtherBound(name: string)

  /** The deterministic record that a bound blocked the next candidate. */
  datatype BudgetStop = BudgetStop(
    bound: Bound, blockedId: string, observedCount: nat, observedBytes: nat, candidateCost: nat, limit: nat)

  datatype ConflictInfo =
    | NoInfo
    | Revisions(revisions: set<string>)
    | Versions(versions: set<Option<string>>)
    | EqualAuthority(level: Level, claims: nat)

  datatype Details =
    | ShortfallDetails(kind: Kind, coverage: Coverage, minItems: nat, selected: nat,
        stop: Option<BudgetStop>, missingKeys: Option<set<string>>)
    | ConflictDetails(kind: Kind, info: ConflictInfo)
    | CycleDetails(kind: Kind, domains: set<string>, itemIds: set<string>)
    | RefusedDetails(kind: Kind, supersederLevel: Level, superseded: string, supersededLevel: Level)
    | DanglingDetails(kind: Kind, unresolved: string)
    | OtherDetails(text: string)

  /** Identity of an unknown is everything but its materiality. */
  datatype Unknown = Unknown(
    requirement: Option<string>, key: Option<string>, reason: Reason, details: Details,
    materiality: Materiality)

  predicate SameUnknown(a: Unknown, b: Unknown)
  {
    a == b.(materiality := a.materiality)
  }

  function ReasonCode(r: Reason): string
  {
    match r
    case AmbiguousScope => "ambiguous_scope"
    case MissingRequiredContext => "missing_required_context"
    case ConflictingGovernedClaims => "conflicting_governed_claims"
    case BudgetInsufficient => "budget_insufficient"
    case UnsupportedCapability => "unsupported_capability"
    case MissingAuthority => "missing_authority"
    case UnknownSupersession => "unknown_supersession"
    case DanglingSupersession => "dangling_supersession"
    case OtherReason(code) => code
  }

  predicate Disposing(r: Reason)
  {
    r.MissingRequiredContext? || r.BudgetInsufficient? || r.ConflictingGovernedClaims?
  }

  predicate Shortfall(r: Reason) { r.MissingRequiredContext? || r.BudgetInsufficient? }

  datatype Selected = Selected(item: Item, because: set<string>)

  datatype Context = Context(selected: seq<Selected>, unknowns: seq<Unknown>)

  // ---- eligibility -------------------------------------------------------

  predicate GloballyApplicable(k: Kind)
  {
    k in {ArchitectureConstraint, ApplicableLaw, PriorDecision, AuthorityFact, CapabilityFact}
  }

  predicate GovernedOnly(k: Kind) { k in {AuthorityFact, CapabilityFact} }

  predicate ScopeMatches(r: Requirement, item: Item)
  {
    match (r.scope, item.scope)
    case (Global, Global) => true
    case (Global, Scoped(_)) => false
    case (Scoped(want), Scoped(have)) => have * want != {}
    case (Scoped(_), Global) => GloballyApplicable(r.kind)
  }

  predicate FreshEnough(r: Requirement, item: Item)
  {
    r.freshness.ExactRevision? ==>
      || item.source.coordinate == Some(r.freshness.constraint)
      || (item.claim.RepositoryClaim? && item.claim.revision == r.freshness.constraint)
  }

  /** The explicit matching rule shared by the selector and by closure. */
  predicate Matches(r: Requirement, item: Item)
  {
    && item.Kind() == r.kind
    && item.Rank() <= LevelRank(r.minAuthority)
    && (GovernedOnly(item.Kind()) ==> Governed(item.level))
    && ScopeMatches(r, item)
    && FreshEnough(r, item)
  }

  /** A stronger copy of a matching identity also matches. */
  lemma MatchesStronger(r: Requirement, weak: Item, strong: Item)
    requires Matches(r, weak) && strong == weak.(level := strong.level, cost := strong.cost)
    requires strong.Rank() <= weak.Rank()
    ensures Matches(r, strong)
  {
  }

  // ---- canonical orders --------------------------------------------------

  function ScopeOrder(item: Item): nat { if item.scope.Scoped? then 0 else 1 }

  /** `_candidate_sort_key`: scoped first, then authority, key and id. */
  predicate CandLt(a: Item, b: Item)
  {
    if ScopeOrder(a) != ScopeOrder(b) then ScopeOrder(a) < ScopeOrder(b)
    else if a.Rank() != b.Rank() then a.Rank() < b.Rank()
    else if a.key != b.key then StrLt(a.key, b.key)
    else StrLt(a.id, b.id)
  }

  /** `sort_key`: kind, key and id. */
  predicate SortKeyLt(a: Item, b: Item)
  {
    if KindValue(a.Kind()) != KindValue(b.Kind()) then StrLt(KindValue(a.Kind()), KindValue(b.Kind()))
    else if a.key != b.key then StrLt(a.key, b.key)
    else StrLt(a.id, b.id)
  }

  lemma CandLtTransitive(a: Item, b: Item, c: Item)
    requires CandLt(a, b) && CandLt(b, c)
    ensures CandLt(a, c)
  {
    if a.key == b.key == c.key {
      if StrLt(a.id, b.id) && StrLt(b.id, c.id) { StrLtTransitive(a.id, b.id, c.id); }
    } else if StrLt(a.key, b.key) && StrLt(b.key, c.key) {
      StrLtTransitive(a.key, b.key, c.key);
      if a.key == c.key { StrLtIrreflexive(a.key); }
    }
  }

  lemma SortKeyLtTransitive(a: Item, b: Item, c: Item)
    requires SortKeyLt(a, b) && SortKeyLt(b, c)
    ensures SortKeyLt(a, c)
  {
    var ka, kb, kc := KindValue(a.Kind()), KindValue(b.Kind()), KindValue(c.Kind());
    if ka != kb || kb != kc {
      if ka != kb && kb != kc {
        StrLtTransitive(ka, kb, kc);
        if ka == kc { StrLtIrreflexive(ka); }
      }
    } else if a.key == b.key == c.key {
      StrLtTransitive(a.id, b.id, c.id);
    } else if a.key != b.key && b.key != c.key {
      StrLtTransitive(a.key, b.key, c.key);
      if a.key == c.key { StrLtIrreflexive(a.key); }
    }
  }

  lemma CandOrder(s: set<Item>)
    requires IdsDistinct(s)
    ensures StrictOrderOn(CandLt, s)
  {
    forall a | a in s ensures !CandLt(a, a) { StrLtIrreflexive(a.id); }
    forall a, b, c | a in s && b in s && c in s && CandLt(a, b) && CandLt(b, c) ensures CandLt(a, c) {
      CandLtTransitive(a, b, c);
    }
    forall a, b | a in s && b in s && a != b ensures CandLt(a, b) || CandLt(b, a) {
      if a.key != b.key { StrLtTotal(a.key, b.key); }
      StrLtTotal(a.id, b.id);
    }
  }

  lemma SortKeyOrder(s: set<Item>)
    requires IdsDistinct(s)
    ensures StrictOrderOn(SortKeyLt, s)
  {
    forall a | a in s ensures !SortKeyLt(a, a) { StrLtIrreflexive(a.id); }
    forall a, b, c | a in s && b in s && c in s && SortKeyLt(a, b) && SortKeyLt(b, c) ensures SortKeyLt(a, c) {
      SortKeyLtTransitive(a, b, c);
    }
    forall a, b | a in s && b in s && a != b ensures SortKeyLt(a, b) || SortKeyLt(b, a) {
      if KindValue(a.Kind()) != KindValue(b.Kind()) { StrLtTotal(KindValue(a.Kind()), KindValue(b.Kind())); }
      if a.key != b.key { StrLtTotal(a.key, b.key); }
      StrLtTotal(a.id, b.id);
    }
  }
}
