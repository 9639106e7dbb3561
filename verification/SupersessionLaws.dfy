/**
 Supersession told from the claims alone. A claim overrides another when it names
 it, or is named by it, and is at least as strong; walks of overrides that return
 are loops. What survives and what is reported is stated over these, whatever
 edges and graphs the resolver builds to find out.
 */
module SupersessionLaws {
  import opened Base
  import opened ContextModel
  import opened Reachability
  import opened Supersession
  import opened Resolution
  import opened ResolutionLaws
  import opened OrderMatters

  // ---- what the claims say -----------------------------------------------

  /** `i`'s reference is to `j`: by identity, or, where no claim has that identity, by a domain other than `i`'s own. */
  predicate RefersTo(members: seq<Item>, i: Item, ref: string, j: Item)
  {
    && i.id != j.id
    && if exists k | k in members :: k.id == ref then j.id == ref else j.key == ref && i.key != ref
  }

  /** `y` names `x` as a claim it supersedes. */
  predicate Supplants(members: seq<Item>, y: Item, x: Item)
  {
    && (y.claim.LawClaim? || y.claim.DecisionClaim?)
    && exists ref | ref in y.claim.supersedes :: RefersTo(members, y, ref, x)
  }

  /** `x` names `y` as a claim it is superseded by. */
  predicate YieldsTo(members: seq<Item>, x: Item, y: Item)
  {
    x.claim.DecisionClaim? && exists ref | ref in x.claim.supersededBy :: RefersTo(members, x, ref, y)
  }

  /** `y` is the last listed copy of its identity, the one that counts. */
  ghost predicate Counts(members: seq<Item>, y: Item)
  {
    exists k :: 0 <= k < |members| && members[k] == y && forall j | k < j < |members| :: members[j].id != y.id
  }

  /** `y` claims to retire `x`. */
  ghost predicate Claims(members: seq<Item>, y: Item, x: Item)
  {
    Counts(members, y) && Counts(members, x) && (Supplants(members, y, x) || YieldsTo(members, x, y))
  }

  /** And is strong enough to. */
  ghost predicate Overrides(members: seq<Item>, y: Item, x: Item)
  {
    Claims(members, y, x) && LevelRank(y.level) <= LevelRank(x.level)
  }

  /** A walk of overrides from one claim to another. */
  ghost predicate IsWalk(members: seq<Item>, p: seq<Item>)
  {
    |p| >= 2 && forall n | 0 <= n < |p| - 1 :: Overrides(members, p[n], p[n + 1])
  }

  ghost predicate Walks(members: seq<Item>, y: Item, x: Item)
  {
    exists p :: IsWalk(members, p) && p[0] == y && p[|p| - 1] == x
  }

  ghost predicate InLoop(members: seq<Item>, x: Item) { Walks(members, x, x) }

  // ---- the index and the claims that count -------------------------------

  lemma {:induction false} IndexCounts(members: seq<Item>)
    ensures forall y :: Counts(members, y) <==> y.id in IndexOf(members) && IndexOf(members)[y.id] == y
  {
    if members != [] {
      var init, last := members[..|members| - 1], members[|members| - 1];
      assert members == init + [last];
      IndexCounts(init);
      IndexSnoc(init, last);
      forall y ensures Counts(members, y) <==> y == last || (y.id != last.id && Counts(init, y)) {
        CountsSnoc(init, last, y);
      }
    }
  }

  lemma CountsSnoc(init: seq<Item>, last: Item, y: Item)
    ensures Counts(init + [last], y) <==> y == last || (y.id != last.id && Counts(init, y))
  {
    var members := init + [last];
    if Counts(members, y) {
      var k :| 0 <= k < |members| && members[k] == y && forall j | k < j < |members| :: members[j].id != y.id;
      if k < |init| {
        assert members[|init|].id != y.id;
        assert init[k] == y && forall j | k < j < |init| :: init[j] == members[j];
      }
    }
    if y == last { assert members[|init|] == y; }
    if y.id != last.id && Counts(init, y) {
      var k :| 0 <= k < |init| && init[k] == y && forall j | k < j < |init| :: init[j].id != y.id;
      assert members[k] == y;
      forall j | k < j < |members| ensures members[j].id != y.id { if j < |init| { assert members[j] == init[j]; } }
    }
  }

  /** The copy that counts for an identity. */
  ghost function Counting(members: seq<Item>, id: string): Item
    requires id in IndexOf(members)
  {
    IndexOf(members)[id]
  }

  lemma CountingCounts(members: seq<Item>, id: string)
    requires id in IndexOf(members)
    ensures Counts(members, Counting(members, id)) && Counting(members, id).id == id
    ensures Counting(members, id) in members
  {
    IndexCounts(members);
  }

  // ---- proposed edges are what the claims say ----------------------------

  lemma KeptKey(members: seq<Item>, i: Item)
    requires WellIdentified(Elems(members)) && i in members
    ensures i.id in IndexOf(members) && IndexOf(members)[i.id].key == i.key
  {
    assert IndexOf(members)[i.id] in Elems(members) && i in Elems(members);
  }

  lemma NamedOne(members: seq<Item>, i: Item, ref: string, t: string)
    requires WellIdentified(Elems(members)) && i in members && i.id in IndexOf(members)
    ensures t in Named(Elems(members), IndexOf(members), i, ref) <==>
      exists j :: j in members && j.id == t && RefersTo(members, i, ref, j)
  {
    KeptKey(members, i);
    hide WellIdentified;
    var idx := IndexOf(members);
    assert (exists k | k in members :: k.id == ref) <==> ref in idx;
    if ref in idx { assert idx[ref] in members && idx[ref].id == ref; }
  }

  /** Some reference of the list is to a claim of identity `t`. */
  ghost predicate RefersToId(members: seq<Item>, i: Item, refs: seq<string>, t: string)
  {
    exists ref, j :: ref in refs && j in members && j.id == t && RefersTo(members, i, ref, j)
  }

  lemma NamedRefers(members: seq<Item>, i: Item, refs: seq<string>, t: string)
    requires WellIdentified(Elems(members)) && i in members && i.id in IndexOf(members)
    ensures t in NamedByAll(Elems(members), IndexOf(members), i, refs) <==> RefersToId(members, i, refs, t)
  {
    hide WellIdentified, RefersTo, Named, IndexOf, Elems;
    if t in NamedByAll(Elems(members), IndexOf(members), i, refs) {
      var ref :| ref in refs && t in Named(Elems(members), IndexOf(members), i, ref);
      NamedOne(members, i, ref, t);
    }
    if RefersToId(members, i, refs, t) {
      var ref, j :| ref in refs && j in members && j.id == t && RefersTo(members, i, ref, j);
      NamedOne(members, i, ref, t);
    }
  }

  /** The edges a claim proposes, as it refers to them. */
  lemma ProposalsOf(members: seq<Item>, i: Item, a: string, b: string)
    requires WellIdentified(Elems(members)) && i in members
    ensures i.id in IndexOf(members) && ((a, b) in Proposals(Elems(members), IndexOf(members), i) <==>
      || (a == i.id && RefersToId(members, i, Supersedes(i), b))
      || (b == i.id && RefersToId(members, i, SupersededBy(i), a)))
  {
    KeptKey(members, i);
    NamedRefers(members, i, Supersedes(i), b);
    NamedRefers(members, i, SupersededBy(i), a);
    hide WellIdentified, RefersToId, NamedByAll, IndexOf, Elems, Supersedes, SupersededBy;
  }

  /** One of the claims of these identities says that the first retires the second. */
  ghost predicate Said(members: seq<Item>, a: string, b: string)
  {
    exists y, x :: y in members && x in members && y.id == a && x.id == b
      && (Supplants(members, y, x) || YieldsTo(members, x, y))
  }

  lemma SaysByList(members: seq<Item>, i: Item, t: string)
    requires i in members
    ensures RefersToId(members, i, Supersedes(i), t) <==>
      exists x :: x in members && x.id == t && Supplants(members, i, x)
    ensures RefersToId(members, i, SupersededBy(i), t) <==>
      exists y :: y in members && y.id == t && YieldsTo(members, i, y)
  {
    hide RefersTo;
  }

  /** The resolver proposes an edge exactly where one of the two claims says so. */
  lemma ProposesIff(members: seq<Item>, a: string, b: string)
    requires WellIdentified(Elems(members))
    ensures Proposes(members, (a, b)) <==> Said(members, a, b)
  {
    hide WellIdentified, RefersToId, Proposals, IndexOf, Supersedes, SupersededBy, Supplants, YieldsTo;
    if Proposes(members, (a, b)) {
      var i :| i in Elems(members) && (a, b) in Proposals(Elems(members), IndexOf(members), i);
      ProposalsOf(members, i, a, b);
      SaysByList(members, i, b);
      SaysByList(members, i, a);
    }
    if Said(members, a, b) {
      var y, x :| y in members && x in members && y.id == a && x.id == b
        && (Supplants(members, y, x) || YieldsTo(members, x, y));
      var i := if Supplants(members, y, x) then y else x;
      ProposalsOf(members, i, a, b);
      SaysByList(members, i, b);
      SaysByList(members, i, a);
      assert i in Elems(members);
    }
  }

  lemma SameWords(members: seq<Item>, y: Item, y': Item, x: Item, x': Item)
    requires y' == y.(level := y'.level, cost := y'.cost) && x' == x.(level := x'.level, cost := x'.cost)
    ensures Supplants(members, y, x) <==> Supplants(members, y', x')
    ensures YieldsTo(members, x, y) <==> YieldsTo(members, x', y')
  {
  }

  lemma CopyOfCounting(members: seq<Item>, y: Item)
    requires WellIdentified(Elems(members)) && y in members
    ensures y.id in IndexOf(members)
    ensures var c := Counting(members, y.id); y == c.(level := y.level, cost := y.cost)
  {
    assert y in Elems(members) && IndexOf(members)[y.id] in Elems(members);
  }

  /** Every copy of a claim says the same, so the copies that count say it. */
  lemma SaidByCounting(members: seq<Item>, a: string, b: string)
    requires WellIdentified(Elems(members)) && a in IndexOf(members) && b in IndexOf(members)
    ensures Said(members, a, b) <==> Claims(members, Counting(members, a), Counting(members, b))
  {
    hide WellIdentified, IndexOf, Supplants, YieldsTo, Counts, Counting;
    CountingCounts(members, a);
    CountingCounts(members, b);
    if Said(members, a, b) {
      var y, x :| y in members && x in members && y.id == a && x.id == b
        && (Supplants(members, y, x) || YieldsTo(members, x, y));
      CopyOfCounting(members, y);
      CopyOfCounting(members, x);
      SameWords(members, Counting(members, a), y, Counting(members, b), x);
    }
  }

  /** An edge passes the gate exactly where the one claim overrides the other. */
  lemma AcceptsIff(members: seq<Item>, a: string, b: string)
    requires WellIdentified(Elems(members))
    ensures Accepts(members, (a, b)) <==>
      a in IndexOf(members) && b in IndexOf(members) && Overrides(members, Counting(members, a), Counting(members, b))
  {
    hide WellIdentified, IndexOf, Claims, Said, Accepts, Proposes;
    AcceptsMeans(members, (a, b));
    ProposesIff(members, a, b);
    if Proposes(members, (a, b)) { ProposesEndpoints(members, (a, b)); }
    if a in IndexOf(members) && b in IndexOf(members) { SaidByCounting(members, a, b); }
  }

  lemma OverriddenCount(members: seq<Item>, y: Item, x: Item)
    requires Overrides(members, y, x)
    ensures y.id in IndexOf(members) && Counting(members, y.id) == y
    ensures x.id in IndexOf(members) && Counting(members, x.id) == x
  {
    hide Counts;
    IndexCounts(members);
  }

  /** The graph the resolver searches for cycles. */
  ghost function GraphOf(members: seq<Item>): Graph { EdgeGraph(Elems(members), IndexOf(members)) }

  lemma StepIff(members: seq<Item>, a: string, b: string)
    requires WellIdentified(Elems(members))
    ensures b in Succ(GraphOf(members), a) <==>
      a in IndexOf(members) && b in IndexOf(members) && Overrides(members, Counting(members, a), Counting(members, b))
  {
    hide WellIdentified, IndexOf, Overrides, EdgeGraph, Accepted, Elems, Indexed;
    IndexOfIndexed(members);
    GraphEdge(Elems(members), IndexOf(members), a, b);
    AcceptsIff(members, a, b);
  }

  lemma PathStep(members: seq<Item>, p: seq<string>, n: nat)
    requires WellIdentified(Elems(members)) && IsPath(GraphOf(members), p) && n < |p| - 1
    ensures p[n] in IndexOf(members) && p[n + 1] in IndexOf(members)
    ensures Overrides(members, Counting(members, p[n]), Counting(members, p[n + 1]))
  {
    hide WellIdentified, IndexOf, Overrides, Counting, GraphOf, Succ;
    StepIff(members, p[n], p[n + 1]);
  }

  lemma WalkFurther(members: seq<Item>, y: Item, z: Item, x: Item)
    requires Walks(members, y, z) && Overrides(members, z, x)
    ensures Walks(members, y, x)
  {
    hide Overrides;
    var q: seq<Item> :| IsWalk(members, q) && q[0] == y && q[|q| - 1] == z;
    var longer := q + [x];
    forall n | 0 <= n < |longer| - 1 ensures Overrides(members, longer[n], longer[n + 1]) {
      if n < |q| - 1 { assert Overrides(members, q[n], q[n + 1]); }
    }
    assert IsWalk(members, longer);
  }

  lemma PathInit(g: Graph, p: seq<string>)
    requires IsPath(g, p) && |p| > 2
    ensures IsPath(g, p[..|p| - 1])
  {
    var init := p[..|p| - 1];
    forall n | 0 <= n < |init| - 1 ensures init[n + 1] in Succ(g, init[n]) {
      assert p[n + 1] in Succ(g, p[n]);
    }
  }

  lemma OneStep(members: seq<Item>, y: Item, x: Item)
    requires Overrides(members, y, x)
    ensures Walks(members, y, x)
  {
    hide Overrides;
    assert IsWalk(members, [y, x]);
  }

  /** Paths of the graph are walks of overrides. */
  lemma {:induction false} PathWalks(members: seq<Item>, p: seq<string>)
    requires WellIdentified(Elems(members)) && IsPath(GraphOf(members), p)
    ensures |p| >= 2 && p[0] in IndexOf(members) && p[|p| - 1] in IndexOf(members)
    ensures Walks(members, Counting(members, p[0]), Counting(members, p[|p| - 1]))
  {
    assert |p| >= 2;
    hide WellIdentified, IndexOf, Overrides, Counting, GraphOf, IsPath, Walks, Elems;
    PathStep(members, p, |p| - 2);
    if |p| == 2 {
      OneStep(members, Counting(members, p[0]), Counting(members, p[1]));
    } else {
      PathInit(GraphOf(members), p);
      PathWalks(members, p[..|p| - 1]);
      WalkFurther(members, Counting(members, p[0]), Counting(members, p[|p| - 2]), Counting(members, p[|p| - 1]));
    }
  }

  lemma PathIsWalk(members: seq<Item>, a: string, b: string)
    requires WellIdentified(Elems(members)) && Reaches(GraphOf(members), a, b)
    ensures a in IndexOf(members) && b in IndexOf(members)
    ensures Walks(members, Counting(members, a), Counting(members, b))
  {
    hide WellIdentified, Walks;
    var p :| IsPath(GraphOf(members), p) && p[0] == a && p[|p| - 1] == b;
    PathWalks(members, p);
  }

  lemma WalkIsPath(members: seq<Item>, y: Item, x: Item)
    requires WellIdentified(Elems(members)) && Walks(members, y, x)
    ensures Reaches(GraphOf(members), y.id, x.id)
    ensures y.id in IndexOf(members) && Counting(members, y.id) == y
    ensures x.id in IndexOf(members) && Counting(members, x.id) == x
  {
    hide WellIdentified, IndexOf, Overrides, Counting, GraphOf, Succ;
    var q: seq<Item> :| IsWalk(members, q) && q[0] == y && q[|q| - 1] == x;
    var p := seq(|q|, n requires 0 <= n < |q| => q[n].id);
    forall n | 0 <= n < |p| - 1 ensures p[n + 1] in Succ(GraphOf(members), p[n]) {
      assert Overrides(members, q[n], q[n + 1]);
      OverriddenCount(members, q[n], q[n + 1]);
      StepIff(members, p[n], p[n + 1]);
    }
    assert IsPath(GraphOf(members), p);
    assert Overrides(members, q[0], q[0 + 1]);
    OverriddenCount(members, q[0], q[1]);
    assert Overrides(members, q[|q| - 2], q[|q| - 2 + 1]);
    OverriddenCount(members, q[|q| - 2], q[|q| - 1]);
  }

  /** A claim lies on a cycle exactly when a walk of overrides leads from it back to it. */
  lemma CycleIsLoop(members: seq<Item>, y: Item)
    requires WellIdentified(Elems(members)) && Counts(members, y)
    ensures Cyclic(Elems(members), IndexOf(members), y.id) <==> InLoop(members, y)
  {
    hide WellIdentified, Walks, Reaches, Counts, IndexOf, EdgeGraph;
    IndexCounts(members);
    if Reaches(GraphOf(members), y.id, y.id) { PathIsWalk(members, y.id, y.id); }
    if Walks(members, y, y) { WalkIsPath(members, y, y); }
  }

  // ---- what survives -----------------------------------------------------

  /** A claim is retired exactly when another one off every loop overrides it. */
  lemma RetiredIff(members: seq<Item>, x: Item)
    requires WellIdentified(Elems(members)) && Counts(members, x)
    ensures Retired(Elems(members), IndexOf(members), x.id) <==>
      exists y :: Overrides(members, y, x) && !InLoop(members, y)
  {
    hide WellIdentified, Overrides, InLoop, Counts, IndexOf, Accepted, Cyclic, Elems, Indexed;
    IndexOfIndexed(members);
    var m, idx := Elems(members), IndexOf(members);
    IndexCounts(members);
    if a :| Accepted(m, idx, (a, x.id)) && !Cyclic(m, idx, a) {
      AcceptsIff(members, a, x.id);
      CountingCounts(members, a);
      CycleIsLoop(members, Counting(members, a));
    }
    if y :| Overrides(members, y, x) && !InLoop(members, y) {
      OverriddenCount(members, y, x);
      AcceptsIff(members, y.id, x.id);
      CycleIsLoop(members, y);
    }
  }

  /**
   The meaning of survival. A claim stands exactly when it is not a decision marked
   superseded, its counting copy is in no loop, and only claims in loops override that.
   */
  lemma SurvivesIff(members: seq<Item>, x: Item, c: Item)
    requires WellIdentified(Elems(members)) && x in members && Counts(members, c) && c.id == x.id
    ensures Keeps(members, x) <==>
      && !(x.claim.DecisionClaim? && x.claim.status.Superseded?)
      && !InLoop(members, c) && forall y | Overrides(members, y, c) :: InLoop(members, y)
  {
    hide WellIdentified, Overrides, InLoop, Counts, IndexOf, Cyclic, Retired, Elems;
    CycleIsLoop(members, c);
    RetiredIff(members, c);
  }

  /** No claim overrides its way back to itself. */
  ghost predicate LoopFree(members: seq<Item>)
  {
    forall y :: !InLoop(members, y)
  }

  /**
   Without loops, and told claim by claim. A decision that lists a claim at least as
   strong among those it is superseded by does not stand; a claim another supersedes
   does not stand unless it is stronger; and a claim no other supersedes, that lists
   no claim it is superseded by, stands unless it is marked superseded.
   */
  lemma LoopFreeVerdicts(members: seq<Item>, x: Item)
    requires WellIdentified(Elems(members)) && LoopFree(members) && Counts(members, x)
    ensures forall y, ref | Counts(members, y) && x.claim.DecisionClaim? && ref in x.claim.supersededBy
      && RefersTo(members, x, ref, y) && LevelRank(y.level) <= LevelRank(x.level) :: !Keeps(members, x)
    ensures forall y, ref | Counts(members, y) && (y.claim.LawClaim? || y.claim.DecisionClaim?)
      && ref in y.claim.supersedes && RefersTo(members, y, ref, x) :: Keeps(members, x) ==>
      LevelRank(x.level) < LevelRank(y.level)
    ensures (forall y | Counts(members, y) :: !Supplants(members, y, x) && !YieldsTo(members, x, y)) ==>
      (Keeps(members, x) <==> !(x.claim.DecisionClaim? && x.claim.status.Superseded?))
  {
    hide WellIdentified, RefersTo, InLoop, Keeps;
    SurvivesIff(members, x, x) by { CountsListed(members, x); }
    forall y, ref | Counts(members, y) && x.claim.DecisionClaim? && ref in x.claim.supersededBy
      && RefersTo(members, x, ref, y) && LevelRank(y.level) <= LevelRank(x.level)
      ensures !Keeps(members, x) {
      assert YieldsTo(members, x, y);
      assert Overrides(members, y, x);
    }
    forall y, ref | Counts(members, y) && (y.claim.LawClaim? || y.claim.DecisionClaim?)
      && ref in y.claim.supersedes && RefersTo(members, y, ref, x) && !(LevelRank(x.level) < LevelRank(y.level))
      ensures !Keeps(members, x) {
      assert Supplants(members, y, x);
      assert Overrides(members, y, x);
    }
  }

  lemma CountsListed(members: seq<Item>, x: Item)
    requires Counts(members, x)
    ensures x in members
  {
  }

  // ---- what is reported --------------------------------------------------

  /** `ref` stands in one of `x`'s lists and nothing has it as identity or domain. */
  ghost predicate NamesNothing(members: seq<Item>, x: Item, ref: string)
  {
    && x in members
    && (((x.claim.LawClaim? || x.claim.DecisionClaim?) && ref in x.claim.supersedes)
        || (x.claim.DecisionClaim? && ref in x.claim.supersededBy))
    && forall j | j in members :: j.id != ref && j.key != ref
  }

  /** The members of one loop: every claim that walks to them and back. */
  ghost predicate IsLoop(members: seq<Item>, c: set<Item>)
  {
    && c != {} && (forall x | x in c :: InLoop(members, x))
    && forall x, y | x in c :: y in c <==> Walks(members, x, y) && Walks(members, y, x)
  }

  /** An unknown of one loop, under the domain of one member. */
  ghost predicate TellsLoop(kind: Kind, members: seq<Item>, c: set<Item>, x: Item, u: Unknown)
  {
    && IsLoop(members, c) && x in c
    && u.requirement == None && u.key == Some(x.key) && u.reason == UnknownSupersession
    && u.details == CycleDetails(kind, DomainsIn(c), IdsIn(c))
    && (u.materiality == Blocking <==> SomeGoverned(c))
  }

  ghost function IdsIn(c: set<Item>): set<string> { set z | z in c :: z.id }

  ghost function DomainsIn(c: set<Item>): set<string> { set z | z in c :: z.key }

  ghost predicate SomeGoverned(c: set<Item>)
  {
    exists z :: z in c && (z.level == GovernedAuthoritative || z.level == GovernedVerified)
  }

  ghost predicate TellsRefusal(kind: Kind, members: seq<Item>, y: Item, x: Item, u: Unknown)
  {
    && Claims(members, y, x) && LevelRank(x.level) < LevelRank(y.level)
    && u == Unknown(None, Some(y.key), UnknownSupersession, RefusedDetails(kind, y.level, x.key, x.level), NonBlocking)
  }

  ghost predicate TellsDangling(kind: Kind, members: seq<Item>, x: Item, ref: string, u: Unknown)
  {
    && NamesNothing(members, x, ref)
    && u == Unknown(None, Some(x.key), DanglingSupersession, DanglingDetails(kind, ref), NonBlocking)
  }

  /** A reference is lost exactly where it names nothing. */
  lemma LosesIff(members: seq<Item>, key: string, ref: string)
    requires WellIdentified(Elems(members))
    ensures LosesRef(Elems(members), IndexOf(members), (key, ref)) <==>
      exists x: Item :: x.key == key && NamesNothing(members, x, ref)
  {
    var m, idx := Elems(members), IndexOf(members);
    forall x | x in members
      ensures x.id in idx && ((key, ref) in Losses(m, idx, x) <==> x.key == key && NamesNothing(members, x, ref)) {
      LossOf(members, x, key, ref);
    }
    hide WellIdentified, Losses, NamesNothing, IndexOf;
    if x: Item :| x.key == key && NamesNothing(members, x, ref) { NamesNothingListed(members, x, ref); }
  }

  lemma NamesNothingListed(members: seq<Item>, x: Item, ref: string)
    requires NamesNothing(members, x, ref)
    ensures x in members
  {
  }

  lemma DanglesIff(members: seq<Item>, ref: string)
    ensures Dangles(Elems(members), IndexOf(members), ref) <==> forall j | j in members :: j.id != ref && j.key != ref
  {
    assert ref in IndexOf(members) <==> exists j :: j in members && j.id == ref;
  }

  lemma LossOf(members: seq<Item>, x: Item, key: string, ref: string)
    requires WellIdentified(Elems(members)) && x in members
    ensures x.id in IndexOf(members)
    ensures (key, ref) in Losses(Elems(members), IndexOf(members), x) <==>
      x.key == key && NamesNothing(members, x, ref)
  {
    KeptKey(members, x);
    hide WellIdentified;
    DanglesIff(members, ref);
    hide Dangles, IndexOf, Elems;
    var idx := IndexOf(members);
    assert (key, ref) in Losses(Elems(members), idx, x) <==>
      idx[x.id].key == key && (ref in Supersedes(x) || ref in SupersededBy(x)) && Dangles(Elems(members), idx, ref);
  }

  /** An edge is refused exactly where a weaker claim says it retires a stronger. */
  lemma RefusesIff(members: seq<Item>, e: Edge)
    requires WellIdentified(Elems(members))
    ensures Refused(Elems(members), IndexOf(members), e) <==>
      && e.0 in IndexOf(members) && e.1 in IndexOf(members)
      && Claims(members, Counting(members, e.0), Counting(members, e.1))
      && LevelRank(Counting(members, e.1).level) < LevelRank(Counting(members, e.0).level)
  {
    hide WellIdentified, IndexOf, Claims, Said, Proposed, Elems;
    IndexOfIndexed(members);
    ProposesIff(members, e.0, e.1);
    if e.0 in IndexOf(members) && e.1 in IndexOf(members) { SaidByCounting(members, e.0, e.1); }
  }

  lemma ClaimsCount(members: seq<Item>, y: Item, x: Item)
    requires Claims(members, y, x)
    ensures y.id in IndexOf(members) && Counting(members, y.id) == y
    ensures x.id in IndexOf(members) && Counting(members, x.id) == x
  {
    hide Counts;
    IndexCounts(members);
  }

  /** Reachability in the graph is walking between the copies that count. */
  lemma ReachesIff(members: seq<Item>, y: Item, x: Item)
    requires WellIdentified(Elems(members)) && Counts(members, y) && Counts(members, x)
    ensures Reaches(GraphOf(members), y.id, x.id) <==> Walks(members, y, x)
  {
    hide WellIdentified, Walks, Reaches, Counts, IndexOf, GraphOf;
    IndexCounts(members);
    if Reaches(GraphOf(members), y.id, x.id) { PathIsWalk(members, y.id, x.id); }
    if Walks(members, y, x) { WalkIsPath(members, y, x); }
  }

  /** The copies that count of these identities. */
  ghost function CountingOf(members: seq<Item>, ids: set<string>): set<Item>
  {
    set id | id in ids && id in IndexOf(members) :: Counting(members, id)
  }

  lemma WalkerCounts(members: seq<Item>, y: Item, x: Item)
    requires Walks(members, y, x)
    ensures Counts(members, y) && Counts(members, x)
  {
    var q: seq<Item> :| IsWalk(members, q) && q[0] == y && q[|q| - 1] == x;
    assert Overrides(members, q[0], q[0 + 1]);
    assert Overrides(members, q[|q| - 2], q[|q| - 2 + 1]);
  }

  lemma CycleSetIsLoop(members: seq<Item>, ids: set<string>)
    requires WellIdentified(Elems(members)) && IsCycleSet(GraphOf(members), ids)
    ensures IsLoop(members, CountingOf(members, ids)) && IdsIn(CountingOf(members, ids)) == ids
  {
    hide WellIdentified, Walks, Reaches, Counts, IndexOf, GraphOf;
    IndexCounts(members);
    var c := CountingOf(members, ids);
    forall id | id in ids ensures id in IndexOf(members) { PathIsWalk(members, id, id); }
    forall id | id in ids ensures Counting(members, id) in c && Counting(members, id).id == id {
      CountingCounts(members, id);
    }
    forall x | x in c ensures x.id in ids && InLoop(members, x) && Counts(members, x) {
      var id :| id in ids && id in IndexOf(members) && Counting(members, id) == x;
      CountingCounts(members, id);
      ReachesIff(members, x, x);
    }
    var w :| w in ids;
    assert Counting(members, w) in c;
    forall x, y | x in c ensures y in c <==> Walks(members, x, y) && Walks(members, y, x) {
      if Walks(members, x, y) && Walks(members, y, x) {
        WalkerCounts(members, x, y);
        ReachesIff(members, x, y);
        ReachesIff(members, y, x);
        assert Mutual(GraphOf(members), x.id, y.id);
        assert Counting(members, y.id) == y;
      }
      if y in c {
        ReachesIff(members, x, y);
        ReachesIff(members, y, x);
        assert Mutual(GraphOf(members), x.id, y.id);
      }
    }
  }

  lemma LoopIsCycleSet(members: seq<Item>, c: set<Item>)
    requires WellIdentified(Elems(members)) && IsLoop(members, c)
    ensures IsCycleSet(GraphOf(members), IdsIn(c)) && CountingOf(members, IdsIn(c)) == c
  {
    hide WellIdentified, Walks, Reaches, Counts, IndexOf, GraphOf;
    IndexCounts(members);
    forall x | x in c
      ensures Counts(members, x) && Counting(members, x.id) == x && OnCycle(GraphOf(members), x.id)
      ensures x.id in IndexOf(members) {
      WalkerCounts(members, x, x);
      ReachesIff(members, x, x);
    }
    var w :| w in c;
    assert w.id in IdsIn(c);
    var ids := IdsIn(c);
    forall a, b | a in ids ensures b in ids <==> Mutual(GraphOf(members), a, b) {
      var x :| x in c && x.id == a;
      MutualInLoop(members, c, x, b);
    }
  }

  lemma MutualInLoop(members: seq<Item>, c: set<Item>, x: Item, b: string)
    requires WellIdentified(Elems(members)) && IsLoop(members, c) && x in c
    ensures b in IdsIn(c) <==> Mutual(GraphOf(members), x.id, b)
  {
    hide WellIdentified, Walks, Reaches, Counts, IndexOf, GraphOf;
    WalkerCounts(members, x, x);
    if b in IdsIn(c) {
      var y :| y in c && y.id == b;
      WalkerCounts(members, y, y);
      ReachesIff(members, x, y);
      ReachesIff(members, y, x);
    }
    if Mutual(GraphOf(members), x.id, b) {
      PathIsWalk(members, x.id, b);
      PathIsWalk(members, b, x.id);
      WalkIsPath(members, x, x) by { assert InLoop(members, x); }
      CountingCounts(members, b);
      assert Counting(members, b) in c;
    }
  }

  lemma LoopMember(members: seq<Item>, c: set<Item>)
    requires IsLoop(members, c)
    ensures forall z | z in c :: z.id in IndexOf(members) && IndexOf(members)[z.id] == z
  {
    hide IsLoop;
    forall z | z in c ensures z.id in IndexOf(members) && IndexOf(members)[z.id] == z {
      LoopMemberCounts(members, c, z);
    }
  }

  lemma LoopDomains(idx: Index, c: set<Item>)
    requires forall z | z in c :: z.id in idx && idx[z.id] == z
    ensures DomainsOf(idx, IdsIn(c)) == DomainsIn(c) && forall x | x in c :: x.key in DomainsIn(c)
    ensures TruthTier(idx, IdsIn(c)) == Blocking <==> SomeGoverned(c)
  {
    forall z | z in c ensures z.id in IdsIn(c) { }
  }

  lemma LoopUnknown(kind: Kind, members: seq<Item>, c: set<Item>, x: Item, u: Unknown)
    requires WellIdentified(Elems(members)) && IsLoop(members, c) && x in c
    ensures TellsLoop(kind, members, c, x, u) <==> u == CycleUnknown(kind, IndexOf(members), IdsIn(c), x.key)
    ensures x.key in DomainsOf(IndexOf(members), IdsIn(c))
  {
    hide WellIdentified, IsLoop, IndexOf, DomainsOf, DomainsIn, TruthTier, IdsIn, SomeGoverned, Elems;
    LoopMember(members, c);
    LoopDomains(IndexOf(members), c);
  }

  lemma LoopMemberCounts(members: seq<Item>, c: set<Item>, z: Item)
    requires IsLoop(members, c) && z in c
    ensures z.id in IndexOf(members) && IndexOf(members)[z.id] == z
  {
    hide Counts, Walks;
    WalkerCounts(members, z, z);
    IndexCounts(members);
  }

  /** `u` is what the resolver reports of the component `ids` under the domain `d`. */
  ghost predicate IsCycleUnknown(kind: Kind, members: seq<Item>, ids: set<string>, d: string, u: Unknown)
  {
    && IsCycleSet(GraphOf(members), ids) && d in DomainsOf(IndexOf(members), ids)
    && u == CycleUnknown(kind, IndexOf(members), ids, d)
  }

  lemma LoopTold(kind: Kind, members: seq<Item>, c: set<Item>, x: Item, u: Unknown)
    requires TellsLoop(kind, members, c, x, u)
    ensures IsLoop(members, c) && x in c
  {
  }

  /** `u` is what the resolver reports of the refused edge `e`. */
  ghost predicate IsRefusedUnknown(kind: Kind, members: seq<Item>, e: Edge, u: Unknown)
  {
    Refused(Elems(members), IndexOf(members), e) && u == RefusedUnknown(kind, IndexOf(members), e)
  }

  /** `u` is what the resolver reports of the lost reference `d`. */
  ghost predicate IsLostUnknown(kind: Kind, members: seq<Item>, d: Edge, u: Unknown)
  {
    LosesRef(Elems(members), IndexOf(members), d) && u == DanglingUnknown(kind, d.0, d.1)
  }

  /** `u` is reported by one of the three rules. */
  ghost predicate ByRule(kind: Kind, members: seq<Item>, u: Unknown)
  {
    || (exists ids, d :: IsCycleUnknown(kind, members, ids, d, u))
    || (exists e :: IsRefusedUnknown(kind, members, e, u))
    || (exists d :: IsLostUnknown(kind, members, d, u))
  }

  lemma ReportedByRule(kind: Kind, members: seq<Item>, u: Unknown)
    requires ReportsIn(kind, members, u)
    ensures ByRule(kind, members, u)
  {
    hide IsCycleSet, LosesRef, EdgeGraph, Refused, CycleUnknown, DomainsOf, IndexOf, Indexed;
    IndexOfIndexed(members);
    var m, idx := Elems(members), IndexOf(members);
    forall e | Refused(m, idx, e) ensures e.0 in idx && e.1 in idx { RefusedEnds(members, e); }
    if c, d :| IsCycleSet(EdgeGraph(m, idx), c) && d in DomainsOf(idx, c) && u == CycleUnknown(kind, idx, c, d) {
      assert IsCycleUnknown(kind, members, c, d, u);
    } else if e :| Refused(m, idx, e) && u == RefusedUnknown(kind, idx, e) {
      assert IsRefusedUnknown(kind, members, e, u);
    } else {
      var d :| LosesRef(m, idx, d) && u == DanglingUnknown(kind, d.0, d.1);
      assert IsLostUnknown(kind, members, d, u);
    }
  }

  lemma RuleReports(kind: Kind, members: seq<Item>, u: Unknown)
    requires ByRule(kind, members, u)
    ensures ReportsIn(kind, members, u)
  {
    hide IsCycleSet, LosesRef, EdgeGraph, Refused, CycleUnknown, DomainsOf, IndexOf, Indexed;
    IndexOfIndexed(members);
    var m, idx := Elems(members), IndexOf(members);
    forall e | Refused(m, idx, e) ensures e.0 in idx && e.1 in idx { RefusedEnds(members, e); }
    if ids, d :| IsCycleUnknown(kind, members, ids, d, u) {
      assert IsCycleSet(EdgeGraph(m, idx), ids);
    }
  }

  lemma RefusedEnds(members: seq<Item>, e: Edge)
    requires Indexed(Elems(members), IndexOf(members)) && Refused(Elems(members), IndexOf(members), e)
    ensures e.0 in IndexOf(members) && e.1 in IndexOf(members)
  {
  }

  lemma LoopsReported(kind: Kind, members: seq<Item>, u: Unknown)
    requires WellIdentified(Elems(members))
    ensures (exists ids, d :: IsCycleUnknown(kind, members, ids, d, u)) <==>
      (exists c, x :: TellsLoop(kind, members, c, x, u))
  {
    hide WellIdentified, IsLoop, IsCycleSet, GraphOf, IndexOf, CycleUnknown, CountingOf, TellsLoop;
    if ids, d :| IsCycleUnknown(kind, members, ids, d, u) {
      CycleSetIsLoop(members, ids);
      var c := CountingOf(members, ids);
      var id :| id in ids && id in IndexOf(members) && IndexOf(members)[id].key == d;
      InCountingOf(members, ids, id);
      LoopUnknown(kind, members, c, Counting(members, id), u);
    }
    if c, x :| TellsLoop(kind, members, c, x, u) {
      LoopTold(kind, members, c, x, u);
      LoopIsCycleSet(members, c);
      LoopUnknown(kind, members, c, x, u);
      assert IsCycleUnknown(kind, members, IdsIn(c), x.key, u);
    }
  }

  lemma InCountingOf(members: seq<Item>, ids: set<string>, id: string)
    requires id in ids && id in IndexOf(members)
    ensures Counting(members, id) in CountingOf(members, ids)
  {
  }

  /**
   The meaning of what is reported: one unknown for each loop and each domain in it,
   blocking when a member is governed; one for each claim that says it retires a
   stronger one; one for each reference that names nothing; and nothing else.
   */
  lemma ReportsIff(kind: Kind, members: seq<Item>, u: Unknown)
    requires WellIdentified(Elems(members))
    ensures ReportsIn(kind, members, u) <==>
      || (exists c, x :: TellsLoop(kind, members, c, x, u))
      || (exists y, x :: TellsRefusal(kind, members, y, x, u))
      || (exists x, ref :: TellsDangling(kind, members, x, ref, u))
  {
    hide WellIdentified, TellsLoop, TellsRefusal, TellsDangling, IsCycleUnknown, IsRefusedUnknown, IsLostUnknown,
      ReportsIn;
    if ReportsIn(kind, members, u) { ReportedByRule(kind, members, u); }
    if ByRule(kind, members, u) { RuleReports(kind, members, u); }
    LoopsReported(kind, members, u);
    RefusalsReported(kind, members, u);
    DanglingReported(kind, members, u);
  }

  lemma RefusalsReported(kind: Kind, members: seq<Item>, u: Unknown)
    requires WellIdentified(Elems(members))
    ensures (exists e :: IsRefusedUnknown(kind, members, e, u)) <==>
      (exists y, x :: TellsRefusal(kind, members, y, x, u))
  {
    hide WellIdentified, Claims, Proposed, IndexOf, Elems;
    if e :| IsRefusedUnknown(kind, members, e, u) {
      RefusesIff(members, e);
      assert TellsRefusal(kind, members, Counting(members, e.0), Counting(members, e.1), u);
    }
    if y, x :| TellsRefusal(kind, members, y, x, u) {
      ClaimsCount(members, y, x);
      RefusesIff(members, (y.id, x.id));
      assert IsRefusedUnknown(kind, members, (y.id, x.id), u);
    }
  }

  lemma DanglingReported(kind: Kind, members: seq<Item>, u: Unknown)
    requires WellIdentified(Elems(members))
    ensures (exists d :: IsLostUnknown(kind, members, d, u)) <==>
      (exists x, ref :: TellsDangling(kind, members, x, ref, u))
  {
    hide WellIdentified, NamesNothing, LosesRef, IndexOf, Elems, Indexed;
    IndexOfIndexed(members);
    if d :| IsLostUnknown(kind, members, d, u) {
      LosesIff(members, d.0, d.1);
      var x: Item :| x.key == d.0 && NamesNothing(members, x, d.1);
      assert TellsDangling(kind, members, x, d.1, u);
    }
    if x, ref :| TellsDangling(kind, members, x, ref, u) {
      LosesIff(members, x.key, ref);
      assert IsLostUnknown(kind, members, (x.key, ref), u);
    }
  }
}
