/**
 What a requirement sees, told from the candidates: which of them are eligible,
 which carries a claim for its copies, what its view offers and what it disputes.
 */
module ViewLaws {
  import opened Base
  import opened ContextModel
  import opened Reachability
  import opened Supersession
  import opened Resolution
  import opened ResolutionLaws

  // ---- eligibility -------------------------------------------------------

  /** `a` is at least as strong as `b`. */
  predicate AtLeast(a: Level, b: Level)
  {
    match b
    case GovernedAuthoritative => a == GovernedAuthoritative
    case GovernedVerified => a == GovernedAuthoritative || a == GovernedVerified
    case Informative => a != Unverified
    case Unverified => true
  }

  /** A requirement's scope reaches the item. */
  ghost predicate Reaches(scope: Scope, i: Item)
  {
    if scope.Global? then i.scope.Global?
    else if i.scope.Global? then
      || i.claim.ConstraintClaim? || i.claim.LawClaim? || i.claim.DecisionClaim? || i.claim.AuthorityClaim?
      || i.claim.CapabilityClaim?
    else exists ref :: ref in scope.refs && ref in i.scope.refs
  }

  /** What the selector and closure may consider for a requirement. */
  ghost predicate MaySee(r: Requirement, i: Item)
  {
    && i.Kind() == r.kind && AtLeast(i.level, r.minAuthority)
    && (i.claim.AuthorityClaim? || i.claim.CapabilityClaim? ==> AtLeast(i.level, GovernedVerified))
    && Reaches(r.scope, i)
    && (r.freshness.ExactRevision? ==>
          || i.source.coordinate == Some(r.freshness.constraint)
          || (i.claim.RepositoryClaim? && i.claim.revision == r.freshness.constraint))
  }

  /** A requirement's candidates are those of its kind, floor, scope and revision. */
  lemma EligibleIff(cands: seq<Item>, r: Requirement, i: Item)
    ensures i in Eligible(cands, r) <==> i in cands && MaySee(r, i)
  {
    assert r.scope.Scoped? && i.scope.Scoped? ==>
      (i.scope.refs * r.scope.refs != {} <==> exists ref :: ref in r.scope.refs && ref in i.scope.refs) by {
      if r.scope.Scoped? && i.scope.Scoped? { Meet(i.scope.refs, r.scope.refs); }
    }
  }

  lemma Meet(a: set<string>, b: set<string>)
    ensures a * b != {} <==> exists x :: x in b && x in a
  {
    if x :| x in b && x in a { assert x in a * b; }
  }

  // ---- the carrier of a claim --------------------------------------------

  function TextOf(o: Option<string>): string { if o == None then "" else o.value }

  /** Stronger first, then one with a coordinate, then the lower coordinate, digest and identity. */
  ghost predicate Preferred(a: Item, b: Item)
  {
    var ca, cb := TextOf(a.source.coordinate), TextOf(b.source.coordinate);
    var da, db := TextOf(a.source.digest), TextOf(b.source.digest);
    if a.level != b.level then AtLeast(a.level, b.level)
    else if ca != "" && cb == "" then true
    else if ca == "" && cb != "" then false
    else if ca != cb then TextBelow(ca, cb)
    else if da != db then TextBelow(da, db)
    else TextBelow(a.id, b.id)
  }

  lemma PreferredIff(a: Item, b: Item)
    ensures RepLt(a, b) <==> Preferred(a, b)
  {
    StrLtIff(Text(a.source.coordinate), Text(b.source.coordinate));
    StrLtIff(Text(a.source.digest), Text(b.source.digest));
    StrLtIff(a.id, b.id);
  }

  /** A claim at one applicability is carried by the copy preferred over every other. */
  lemma CarrierIff(m: set<Item>, i: Item)
    ensures i in Reps(m) <==>
      i in m && forall j | j in m && j.claim == i.claim && j.scope == i.scope && j != i :: Preferred(i, j)
  {
    hide Preferred, RepLt;
    forall j ensures RepLt(i, j) <==> Preferred(i, j) { PreferredIff(i, j); }
  }

  // ---- what is offered and what is disputed ------------------------------

  /** The members of a group: of its kind and key, and, for laws and decisions, standing after supersession. */
  lemma MemberIff(items: seq<Item>, k: GroupKey, i: Item)
    ensures i in GroupMembers(items, k) <==>
      && i in items && i.Kind() == k.kind && i.key == k.key
      && (i.claim.LawClaim? || i.claim.DecisionClaim? ==> Keeps(OfKind(items, k.kind), i))
  {
    hide Keeps, OfKind;
  }

  ghost predicate Decides(g: Group) { g.conflict || g.items != [] }

  lemma AuthorityDecides(reps: seq<Item>)
    requires reps != []
    ensures Decides(ResolveByAuthority(reps))
  {
  }

  lemma LawDecides(reps: seq<Item>)
    requires reps != [] && forall i | i in reps :: i.claim.LawClaim?
    ensures Decides(ResolveLaw(reps))
  {
    hide ResolveByAuthority;
    forall top | top != [] ensures Decides(ResolveByAuthority(top)) { AuthorityDecides(top); }
  }

  lemma SortedDecides(reps: seq<Item>)
    requires reps != []
    ensures Sort(SortKeyLt, reps) != []
  {
    assert |multiset(Sort(SortKeyLt, reps))| == |multiset(reps)|;
  }

  lemma GroupDecides(kind: Kind, reps: seq<Item>)
    requires reps != [] && forall i | i in reps :: i.Kind() == kind
    ensures Decides(ResolveGroup(kind, reps))
  {
    hide ResolveLaw, ResolveByAuthority, Sort, RevisionsOf, VersionsOf;
    AuthorityDecides(reps);
    SortedDecides(reps);
    if kind == ApplicableLaw {
      assert forall i | i in reps :: i.Kind() == ApplicableLaw && i.claim.LawClaim?;
      LawDecides(reps);
    }
  }

  /** A group with members settles on something or conflicts. */
  lemma SettlesOrConflicts(items: seq<Item>, k: GroupKey)
    requires WellIdentified(Elems(items)) && GroupMembers(items, k) != {}
    ensures Decides(GroupFor(items, k))
  {
    hide SurvivesIn, IsRep, ResolveGroup;
    var m := GroupMembers(items, k);
    SurvivorsByKey(items, k);
    RepsHaveDistinctIds(m);
    ListedIsTheSet(Reps(m));
    var reps := Listed(SortKeyLt, Reps(m));
    forall i | i in reps ensures i.Kind() == k.kind { assert i in Elems(reps); }
    var y :| y in m;
    var z := HasRep(m, y);
    assert z in Elems(reps);
    GroupDecides(k.kind, reps);
  }

  /** A view offers exactly the claims the rule of their kind settles on. */
  lemma OfferIff(items: seq<Item>, v: View, x: Item)
    requires WellIdentified(Elems(items)) && Resolves(items, v)
    ensures OnOffer(v, x) <==> Settles(x.Kind(), Reps(GroupMembers(items, KeyOf(x))), x)
  {
    hide GroupFor, GroupMembers, Reps, Settles, WellIdentified;
    GroupSettlesOn(items, KeyOf(x), x);
    if OnOffer(v, x) {
      var e :| e in v.groups && !e.group.conflict && x in e.group.items;
      EntryItemKey(items, v, e, x);
    }
    if Settles(x.Kind(), Reps(GroupMembers(items, KeyOf(x))), x) {
      SettledIsMember(x.Kind(), items, x);
      assert HasKey(v.groups, KeyOf(x));
    }
  }

  lemma SettledIsMember(kind: Kind, items: seq<Item>, x: Item)
    requires Settles(kind, Reps(GroupMembers(items, KeyOf(x))), x)
    ensures x in GroupMembers(items, KeyOf(x))
  {
    hide GroupMembers, RepLt;
  }

  /** The claims of a group exist and none of them prevails. */
  ghost predicate Disputes(items: seq<Item>, k: GroupKey)
  {
    GroupMembers(items, k) != {} && forall x :: !Settles(k.kind, Reps(GroupMembers(items, k)), x)
  }

  /** A key is in conflict exactly when the claims under it exist and none prevails. */
  lemma ConflictIff(items: seq<Item>, v: View, key: string)
    requires WellIdentified(Elems(items)) && Resolves(items, v)
    ensures InConflict(v, key) <==> exists k: GroupKey :: k.key == key && Disputes(items, k)
  {
    hide GroupFor, GroupMembers, Reps, Settles, WellIdentified;
    forall k | GroupMembers(items, k) != {} ensures GroupFor(items, k).conflict <==> Disputes(items, k) {
      DisputesIff(items, k);
    }
    if e :| e in v.groups && e.group.conflict && e.key.key == key {
      assert HasKey(v.groups, e.key);
    }
    if k: GroupKey :| k.key == key && Disputes(items, k) {
      assert HasKey(v.groups, k);
    }
  }

  lemma DisputesIff(items: seq<Item>, k: GroupKey)
    requires WellIdentified(Elems(items)) && GroupMembers(items, k) != {}
    ensures GroupFor(items, k).conflict <==> Disputes(items, k)
  {
    hide GroupFor, GroupMembers, Reps, Settles, WellIdentified;
    SettlesOrConflicts(items, k);
    forall x ensures !GroupFor(items, k).conflict && x in GroupFor(items, k).items <==>
      Settles(k.kind, Reps(GroupMembers(items, k)), x) {
      GroupSettlesOn(items, k, x);
    }
    if !GroupFor(items, k).conflict {
      assert GroupFor(items, k).items[0] in GroupFor(items, k).items;
    }
  }

  // ---- what a conflict says ----------------------------------------------

  /** `n` of the claims, more than one, share the level, and none is stronger. */
  ghost predicate TiesAt(pool: set<Item>, level: Level, n: nat)
  {
    n == |AtLevel(pool, level)| && n > 1 && forall i | i in pool :: AtLeast(level, i.level)
  }

  ghost function AtLevel(pool: set<Item>, level: Level): set<Item> { set i | i in pool && i.level == level }

  /** The claims that authority decides between: of laws that all declare a precedence, those of the lowest. */
  ghost function Contenders(kind: Kind, reps: set<Item>): set<Item>
  {
    if kind == ApplicableLaw && AllLaws(reps) && AllDeclare(reps)
    then set i | i in reps && forall j | j in reps :: i.claim.precedence.value <= j.claim.precedence.value
    else reps
  }

  /** Two of the claims name different revisions or versions. */
  ghost predicate Differ(reps: set<Item>)
  {
    exists a, b :: a in reps && b in reps && CoordinateOf(a) != CoordinateOf(b)
  }

  ghost predicate SaysWhy(kind: Kind, reps: set<Item>, info: ConflictInfo)
  {
    if kind == RepositoryState && Differ(reps) then
      info == Revisions(set i | i in reps && i.claim.RepositoryClaim? :: i.claim.revision)
    else if kind == DependencyContext && Differ(reps) then
      info == Versions(set i | i in reps && i.claim.DependencyClaim? :: i.claim.version)
    else info.EqualAuthority? && TiesAt(Contenders(kind, reps), info.level, info.claims)
  }

  lemma AuthorityTies(reps: seq<Item>)
    requires reps != [] && NoDup(reps) && ResolveByAuthority(reps).conflict
    ensures var info := ResolveByAuthority(reps).info;
      info.EqualAuthority? && TiesAt(Elems(reps), info.level, info.claims)
  {
    var top, best := Strongest(reps), LeastRank(reps);
    assert top != [] by { var i :| i in reps && i.Rank() == best; assert i in top; }
    var level := top[0].level;
    assert top[0] in top && LevelRank(level) == best;
    forall i | i in reps ensures i in top <==> i.level == level { SameRank(i.level, level); }
    NoDupCard(top);
    assert Elems(top) == AtLevel(Elems(reps), level);
    forall i | i in Elems(reps) ensures AtLeast(level, i.level) { RankIsStrength(level, i.level); }
  }

  lemma SameRank(a: Level, b: Level)
    ensures LevelRank(a) == LevelRank(b) <==> a == b
  {
  }

  lemma RankIsStrength(a: Level, b: Level)
    ensures AtLeast(a, b) <==> LevelRank(a) <= LevelRank(b)
  {
  }

  /** Of laws that all declare a precedence, the contenders are those of the least. */
  lemma LeastContend(reps: set<Item>, w: Item, best: nat)
    requires AllLaws(reps) && AllDeclare(reps) && w in reps && w.claim.precedence == Some(best)
    requires forall i | i in reps :: best <= i.claim.precedence.value
    ensures Contenders(ApplicableLaw, reps) == set i | i in reps && i.claim.precedence == Some(best)
  {
  }

  lemma LawTies(reps: seq<Item>)
    requires reps != [] && NoDup(reps) && (forall i | i in reps :: i.claim.LawClaim?) && ResolveLaw(reps).conflict
    ensures var info := ResolveLaw(reps).info;
      info.EqualAuthority? && TiesAt(Contenders(ApplicableLaw, Elems(reps)), info.level, info.claims)
  {
    InElems(reps);
    hide ResolveByAuthority, TiesAt;
    if forall i | i in reps :: i.claim.precedence.Some? {
      var best := LeastPrecedence(reps);
      var top := Filter((i: Item) => i.claim.LawClaim? && i.claim.precedence == Some(best), reps);
      var w :| w in reps && w.claim.precedence == Some(best);
      LeastContend(Elems(reps), w, best);
      assert w in top;
      assert Elems(top) == set i | i in Elems(reps) && i.claim.precedence == Some(best);
      AuthorityTies(top);
    } else {
      AuthorityTies(reps);
    }
  }

  lemma GroupSaysWhy(kind: Kind, reps: seq<Item>)
    requires reps != [] && NoDup(reps) && forall i | i in reps :: i.Kind() == kind
    requires ResolveGroup(kind, reps).conflict
    ensures SaysWhy(kind, Elems(reps), ResolveGroup(kind, reps).info)
  {
    InElems(reps);
    hide ResolveByAuthority, ResolveLaw, Sort, NoDup, TiesAt;
    match kind
    case ApplicableLaw =>
      assert forall i | i in reps :: i.Kind() == ApplicableLaw && i.claim.LawClaim?;
      LawTies(reps);
    case RepositoryState =>
      RevisionsDiffer(reps);
      if |RevisionsOf(reps)| <= 1 { AuthorityTies(reps); }
    case DependencyContext =>
      VersionsDiffer(reps);
      if |VersionsOf(reps)| <= 1 { AuthorityTies(reps); }
    case EvidenceRef =>
    case MemoryContext =>
    case _ => AuthorityTies(reps);
  }

  /** A conflict in a view says what its claims disagree in: revision, version, or equal authority. */
  lemma ConflictSays(items: seq<Item>, v: View, e: Entry)
    requires WellIdentified(Elems(items)) && Resolves(items, v) && e in v.groups && e.group.conflict
    ensures SaysWhy(e.key.kind, Reps(GroupMembers(items, e.key)), e.group.info)
  {
    hide SurvivesIn, IsRep, ResolveGroup, SaysWhy, WellIdentified;
    var m := GroupMembers(items, e.key);
    SurvivorsByKey(items, e.key);
    WithinIdentified(items, m);
    RepsHaveDistinctIds(m);
    ListedIsTheSet(Reps(m));
    var reps := Listed(SortKeyLt, Reps(m));
    forall i | i in reps ensures i.Kind() == e.key.kind { assert i in Elems(reps); }
    GroupSaysWhy(e.key.kind, reps);
  }

  lemma WithinIdentified(items: seq<Item>, m: set<Item>)
    requires WellIdentified(Elems(items)) && m <= Elems(items)
    ensures WellIdentified(m)
  {
  }

  // ---- the order of the finished context ---------------------------------

  /** Selected items are listed by kind, then key, then identity. */
  lemma SortKeyIff(a: Item, b: Item)
    ensures SortKeyLt(a, b) <==>
      if KindValue(a.Kind()) != KindValue(b.Kind()) then TextBelow(KindValue(a.Kind()), KindValue(b.Kind()))
      else if a.key != b.key then TextBelow(a.key, b.key) else TextBelow(a.id, b.id)
  {
    StrLtIff(KindValue(a.Kind()), KindValue(b.Kind()));
    StrLtIff(a.key, b.key);
    StrLtIff(a.id, b.id);
  }
}
