/**
 Kind-wide explicit supersession. The rules are stated over the set of claims
 and an index from identity to carrier; the methods compute them from a list.
 */
module Supersession {
  import opened Base
  import opened ContextModel
  import opened Reachability

  type Index = map<string, Item>
  type Edge = (string, string)

  /** Identity to claim; a later copy of an identity replaces an earlier one. */
  function IndexOf(members: seq<Item>): (idx: Index)
    ensures idx.Keys == set m | m in members :: m.id
    ensures forall id | id in idx :: idx[id] in members && idx[id].id == id
  {
    if members == [] then map[]
    else
      var last := members[|members| - 1];
      assert members == members[..|members| - 1] + [last];
      IndexOf(members[..|members| - 1])[last.id := last]
  }

  lemma IndexSnoc(rest: seq<Item>, z: Item)
    ensures IndexOf(rest + [z]) == IndexOf(rest)[z.id := z]
  {
    var b := rest + [z];
    assert b[..|b| - 1] == rest && b[|b| - 1] == z;
  }

  function Supersedes(i: Item): seq<string>
  {
    match i.claim
    case LawClaim(_, refs, _) => refs
    case DecisionClaim(_, refs, _, _) => refs
    case _ => []
  }

  function SupersededBy(i: Item): seq<string>
  {
    if i.claim.DecisionClaim? then i.claim.supersededBy else []
  }

  // ---- the rules ---------------------------------------------------------

  /** The claims other than the referrer that one reference names. */
  ghost function Named(m: set<Item>, idx: Index, i: Item, ref: string): set<string>
    requires i.id in idx
  {
    if ref in idx then {ref} - {i.id}
    else if ref == idx[i.id].key then {}
    else set j | j in m && j.key == ref && j.id != i.id :: j.id
  }

  ghost predicate Dangles(m: set<Item>, idx: Index, ref: string)
  {
    ref !in idx && forall j | j in m :: j.key != ref
  }

  ghost function NamedByAll(m: set<Item>, idx: Index, i: Item, refs: seq<string>): set<string>
    requires i.id in idx
  {
    set ref, t | ref in refs && t in Named(m, idx, i, ref) :: t
  }

  ghost function DanglingOf(m: set<Item>, idx: Index, refs: seq<string>): set<string>
  {
    set ref | ref in refs && Dangles(m, idx, ref)
  }

  function EdgesFrom(a: string, targets: set<string>): set<Edge> { set t | t in targets :: (a, t) }

  function EdgesInto(sources: set<string>, b: string): set<Edge> { set t | t in sources :: (t, b) }

  /** The edges one claim proposes, superseder first. */
  ghost function Proposals(m: set<Item>, idx: Index, i: Item): set<Edge>
    requires i.id in idx
  {
    EdgesFrom(i.id, NamedByAll(m, idx, i, Supersedes(i))) + EdgesInto(NamedByAll(m, idx, i, SupersededBy(i)), i.id)
  }

  /** The references of one claim that name nothing, with the claim's domain. */
  ghost function Losses(m: set<Item>, idx: Index, i: Item): set<Edge>
    requires i.id in idx
  {
    EdgesFrom(idx[i.id].key, DanglingOf(m, idx, Supersedes(i)) + DanglingOf(m, idx, SupersededBy(i)))
  }

  ghost predicate Indexed(m: set<Item>, idx: Index)
  {
    && idx.Keys == (set i | i in m :: i.id)
    && (forall id | id in idx :: idx[id] in m && idx[id].id == id)
  }

  ghost predicate Proposed(m: set<Item>, idx: Index, e: Edge)
    requires Indexed(m, idx)
  {
    exists i :: i in m && e in Proposals(m, idx, i)
  }

  /** The authority gate: a weaker claim may not retire a stronger one. */
  ghost predicate Accepted(m: set<Item>, idx: Index, e: Edge)
    requires Indexed(m, idx)
  {
    e.0 in idx && e.1 in idx && Proposed(m, idx, e) && idx[e.0].Rank() <= idx[e.1].Rank()
  }

  ghost predicate Refused(m: set<Item>, idx: Index, e: Edge)
    requires Indexed(m, idx)
  {
    e.0 in idx && e.1 in idx && Proposed(m, idx, e) && idx[e.0].Rank() > idx[e.1].Rank()
  }

  ghost function EdgeGraph(m: set<Item>, idx: Index): Graph
    requires Indexed(m, idx)
  {
    map a | a in idx :: set b | b in idx && Accepted(m, idx, (a, b))
  }

  ghost predicate Cyclic(m: set<Item>, idx: Index, id: string)
    requires Indexed(m, idx)
  {
    OnCycle(EdgeGraph(m, idx), id)
  }

  /** Some claim off every cycle retires `id`. */
  ghost predicate Retired(m: set<Item>, idx: Index, id: string)
    requires Indexed(m, idx)
  {
    exists a :: Accepted(m, idx, (a, id)) && !Cyclic(m, idx, a)
  }

  ghost predicate Survives(m: set<Item>, idx: Index, i: Item)
    requires Indexed(m, idx)
  {
    !Cyclic(m, idx, i.id) && !i.Marked() && !Retired(m, idx, i.id)
  }

  ghost predicate IsCycleSet(g: Graph, c: set<string>)
  {
    && c != {}
    && (forall x | x in c :: OnCycle(g, x))
    && (forall x, y | x in c :: y in c <==> Mutual(g, x, y))
  }

  function TruthTier(idx: Index, ids: set<string>): Materiality
  {
    if exists id | id in ids :: id in idx && Governed(idx[id].level) then Blocking else NonBlocking
  }

  function DomainsOf(idx: Index, ids: set<string>): set<string>
  {
    set id | id in ids && id in idx :: idx[id].key
  }

  function CycleUnknown(kind: Kind, idx: Index, c: set<string>, domain: string): Unknown
  {
    Unknown(None, Some(domain), UnknownSupersession, CycleDetails(kind, DomainsOf(idx, c), c), TruthTier(idx, c))
  }

  function RefusedUnknown(kind: Kind, idx: Index, e: Edge): Unknown
    requires e.0 in idx && e.1 in idx
  {
    Unknown(None, Some(idx[e.0].key), UnknownSupersession,
            RefusedDetails(kind, idx[e.0].level, idx[e.1].key, idx[e.1].level), NonBlocking)
  }

  function DanglingUnknown(kind: Kind, domain: string, ref: string): Unknown
  {
    Unknown(None, Some(domain), DanglingSupersession, DanglingDetails(kind, ref), NonBlocking)
  }

  /** The unknowns supersession reports, as a rule over the set of claims. */
  ghost predicate Reports(kind: Kind, m: set<Item>, idx: Index, u: Unknown)
    requires Indexed(m, idx)
  {
    || (exists c, d :: IsCycleSet(EdgeGraph(m, idx), c) && d in DomainsOf(idx, c) && u == CycleUnknown(kind, idx, c, d))
    || (exists e :: Refused(m, idx, e) && u == RefusedUnknown(kind, idx, e))
    || (exists d :: LosesRef(m, idx, d) && u == DanglingUnknown(kind, d.0, d.1))
  }

  // ---- what the rules guarantee ------------------------------------------

  lemma GraphEdge(m: set<Item>, idx: Index, a: string, b: string)
    requires Indexed(m, idx)
    ensures b in Succ(EdgeGraph(m, idx), a) <==> Accepted(m, idx, (a, b))
  {
  }

  /** Accepted edges never climb in authority, along any path. */
  lemma PathDescends(m: set<Item>, idx: Index, a: string, b: string)
    requires Indexed(m, idx) && Reaches(EdgeGraph(m, idx), a, b)
    ensures a in idx && b in idx && idx[a].Rank() <= idx[b].Rank()
  {
    var g := EdgeGraph(m, idx);
    var p :| IsPath(g, p) && p[0] == a && p[|p| - 1] == b;
    assert p[0 + 1] in Succ(g, p[0]);
    var i := 0;
    while i < |p| - 1
      invariant 0 <= i < |p| && p[i] in idx && idx[a].Rank() <= idx[p[i]].Rank()
    {
      assert p[i + 1] in Succ(g, p[i]);
      GraphEdge(m, idx, p[i], p[i + 1]);
      i := i + 1;
    }
  }

  /**
   After the gate every member of a cycle has the same authority rank, so one
   governed member means the whole component is governed truth in doubt.
   */
  lemma CycleSharesAuthority(m: set<Item>, idx: Index, c: set<string>)
    requires Indexed(m, idx) && IsCycleSet(EdgeGraph(m, idx), c)
    ensures forall x, y | x in c && y in c :: x in idx && y in idx && idx[x].level == idx[y].level
    ensures TruthTier(idx, c) == Blocking <==> forall x | x in c :: Governed(idx[x].level)
  {
    forall x, y | x in c && y in c ensures x in idx && y in idx && idx[x].level == idx[y].level {
      assert Mutual(EdgeGraph(m, idx), x, y);
      PathDescends(m, idx, x, y);
      PathDescends(m, idx, y, x);
    }
    var w :| w in c;
    if Governed(idx[w].level) { assert w in idx; }
  }

  /** A walk whose every step leaves a claim that lies on no cycle. */
  ghost predicate OffCycleWalk(m: set<Item>, idx: Index, p: seq<string>)
    requires Indexed(m, idx)
  {
    && p != []
    && (forall k | 0 <= k < |p| :: p[k] in idx)
    && (forall k | 0 <= k < |p| - 1 :: Accepted(m, idx, (p[k], p[k + 1])) && !Cyclic(m, idx, p[k]))
  }

  /** A claim that ends the search for a cause: it stands, or is itself marked superseded. */
  ghost predicate Stands(m: set<Item>, idx: Index, id: string)
    requires Indexed(m, idx)
  {
    id in idx && !Cyclic(m, idx, id) && !Retired(m, idx, id)
  }

  lemma WalkReaches(m: set<Item>, idx: Index, p: seq<string>, i: nat, j: nat)
    requires Indexed(m, idx) && OffCycleWalk(m, idx, p) && i < j < |p|
    ensures Reaches(EdgeGraph(m, idx), p[i], p[j])
  {
    var q := p[i..j + 1];
    forall k | 0 <= k < |q| - 1 ensures q[k + 1] in Succ(EdgeGraph(m, idx), q[k]) {
      GraphEdge(m, idx, p[i + k], p[i + k + 1]);
    }
    assert IsPath(EdgeGraph(m, idx), q);
  }

  lemma ExtendWalk(m: set<Item>, idx: Index, a: string, p: seq<string>)
    requires Indexed(m, idx) && OffCycleWalk(m, idx, p)
    requires Accepted(m, idx, (a, p[0])) && !Cyclic(m, idx, a)
    ensures OffCycleWalk(m, idx, [a] + p) && a !in p
  {
    var longer, g := [a] + p, EdgeGraph(m, idx);
    forall k | 0 <= k < |longer| - 1
      ensures Accepted(m, idx, (longer[k], longer[k + 1])) && !Cyclic(m, idx, longer[k]) {
      if k > 0 { assert longer[k] == p[k - 1] && longer[k + 1] == p[k]; }
    }
    GraphEdge(m, idx, a, p[0]);
    ReachesEdge(g, a, p[0]);
    forall k | 0 <= k < |p| ensures p[k] != a {
      if k > 0 {
        WalkReaches(m, idx, p, 0, k);
        ReachesTransitive(g, a, p[0], p[k]);
      }
    }
  }

  lemma FewerLeft(all: set<string>, a: string, p: seq<string>)
    requires a in all && a !in p
    ensures all - Elems([a] + p) < all - Elems(p)
  {
    assert Elems([a] + p) == {a} + Elems(p);
    assert a in all - Elems(p);
  }

  /** Walking back from a retired claim never repeats, so it ends at a claim that stands. */
  lemma {:induction false} WalkBack(m: set<Item>, idx: Index, p: seq<string>) returns (q: seq<string>)
    requires Indexed(m, idx) && OffCycleWalk(m, idx, p)
    requires |p| > 1 || !Cyclic(m, idx, p[0])
    ensures OffCycleWalk(m, idx, q) && q[|q| - 1] == p[|p| - 1] && Stands(m, idx, q[0])
    decreases idx.Keys - Elems(p)
  {
    if !Retired(m, idx, p[0]) {
      q := p;
    } else {
      var a :| Accepted(m, idx, (a, p[0])) && !Cyclic(m, idx, a);
      ExtendWalk(m, idx, a, p);
      var longer := [a] + p;
      FewerLeft(idx.Keys, a, p);
      q := WalkBack(m, idx, longer);
    }
  }

  /** The walk that explains why `id` was retired: it starts from a claim at least as strong that stands. */
  ghost predicate Explains(m: set<Item>, idx: Index, p: seq<string>, id: string)
    requires Indexed(m, idx)
  {
    && |p| > 1 && OffCycleWalk(m, idx, p) && p[|p| - 1] == id && id in idx
    && idx[p[0]].Rank() <= idx[id].Rank()
    && (Survives(m, idx, idx[p[0]]) || idx[p[0]].Marked())
  }

  lemma RetiredIsExplained(m: set<Item>, idx: Index, id: string) returns (p: seq<string>)
    requires Indexed(m, idx) && id in idx && !Cyclic(m, idx, id) && Retired(m, idx, id)
    ensures Explains(m, idx, p, id)
  {
    p := WalkBack(m, idx, [id]);
    WalkReaches(m, idx, p, 0, |p| - 1);
    PathDescends(m, idx, p[0], id);
  }

  /**
   No claim vanishes without cause. A claim that does not survive lies on a
   cycle, is marked superseded, or is reached along accepted edges between
   claims on no cycle from one of at least equal authority that survives or is
   itself marked superseded.
   */
  lemma NothingVanishesUnexplained(m: set<Item>, idx: Index, i: Item)
    requires Indexed(m, idx) && i in m && !Survives(m, idx, i)
    ensures Cyclic(m, idx, i.id) || i.Marked() || exists p :: Explains(m, idx, p, i.id)
  {
    if !Cyclic(m, idx, i.id) && !i.Marked() {
      var p := RetiredIsExplained(m, idx, i.id);
    }
  }

  /** With no cycles, a non-empty set of laws always keeps a survivor. */
  lemma LawsKeepASurvivor(m: set<Item>, idx: Index)
    requires Indexed(m, idx) && m != {}
    requires forall i | i in m :: i.claim.LawClaim?
    requires forall id | id in idx :: !Cyclic(m, idx, id)
    ensures exists i :: i in m && Survives(m, idx, i)
  {
    var i :| i in m;
    if !Survives(m, idx, i) {
      NothingVanishesUnexplained(m, idx, i);
      var p :| Explains(m, idx, p, i.id);
      assert idx[p[0]] in m;
    }
  }

  // ---- the computation ---------------------------------------------------

  ghost function DomainIds(members: seq<Item>, d: string): set<string>
  {
    set j | j in members && j.key == d :: j.id
  }

  lemma DomainIdsSnoc(members: seq<Item>, n: nat, d: string)
    requires n < |members|
    ensures DomainIds(members[..n + 1], d) ==
      DomainIds(members[..n], d) + (if members[n].key == d then {members[n].id} else {})
  {
    assert members[..n + 1] == members[..n] + [members[n]];
  }

  /** The domain table lists, under each identifier in use, the identities that use it. */
  ghost predicate IsDomainTable(members: seq<Item>, byDomain: map<string, set<string>>)
  {
    && (forall d :: d in byDomain <==> DomainIds(members, d) != {})
    && (forall d | d in byDomain :: byDomain[d] == DomainIds(members, d))
  }

  /** Members by domain identifier, and by item identity. */
  method SupersessionIndex(members: seq<Item>) returns (byDomain: map<string, set<string>>, byItem: Index)
    ensures byItem == IndexOf(members) && IsDomainTable(members, byDomain)
  {
    byDomain, byItem := map[], map[];
    for k := 0 to |members|
      invariant byItem == IndexOf(members[..k]) && IsDomainTable(members[..k], byDomain)
    {
      var item := members[k];
      forall d
        ensures DomainIds(members[..k + 1], d) ==
          DomainIds(members[..k], d) + (if item.key == d then {item.id} else {}) {
        DomainIdsSnoc(members, k, d);
      }
      assert members[..k + 1][..k] == members[..k];
      var sofar := if item.key in byDomain then byDomain[item.key] else {};
      byDomain := byDomain[item.key := sofar + {item.id}];
      byItem := byItem[item.id := item];
    }
    assert members[..|members|] == members;
  }

  lemma IndexOfIndexed(members: seq<Item>)
    ensures Indexed(Elems(members), IndexOf(members))
  {
  }

  /** The targets one reference names, and whether it names anything at all. */
  function ExpandRef(ref: string, referrer: Item, byDomain: map<string, set<string>>, byItem: Index): (set<string>,
      bool)
    requires referrer.id in byItem
  {
    if ref in byItem then (if ref != referrer.id then {ref} else {}, true)
    else if ref in byDomain then
      (if ref == byItem[referrer.id].key then {} else byDomain[ref] - {referrer.id}, true)
    else ({}, false)
  }

  lemma ExpandRefNames(members: seq<Item>, ref: string, i: Item, byDomain: map<string, set<string>>)
    requires i in members && IsDomainTable(members, byDomain)
    ensures ExpandRef(ref, i, byDomain, IndexOf(members)).0 == Named(Elems(members), IndexOf(members), i, ref)
    ensures ExpandRef(ref, i, byDomain, IndexOf(members)).1 <==> !Dangles(Elems(members), IndexOf(members), ref)
  {
    var idx := IndexOf(members);
    assert (exists j :: j in members && j.key == ref) <==> DomainIds(members, ref) != {} by {
      forall j | j in members && j.key == ref ensures j.id in DomainIds(members, ref) { }
    }
    if ref !in idx && ref in byDomain && ref != idx[i.id].key {
      assert Named(Elems(members), idx, i, ref) == DomainIds(members, ref) - {i.id};
    }
    if ref !in idx && ref !in byDomain && ref != idx[i.id].key {
      assert Named(Elems(members), idx, i, ref) == {};
    }
  }

  /** Expand a list of references of one claim. */
  method ExpandAll(members: seq<Item>, i: Item, refs: seq<string>, byDomain: map<string, set<string>>, byItem: Index)
    returns (targets: set<string>, dangling: set<string>)
    requires i in members && byItem == IndexOf(members)
    requires IsDomainTable(members, byDomain)
    ensures targets == NamedByAll(Elems(members), byItem, i, refs)
    ensures dangling == DanglingOf(Elems(members), byItem, refs)
  {
    targets, dangling := {}, {};
    for k := 0 to |refs|
      invariant targets == NamedByAll(Elems(members), byItem, i, refs[..k])
      invariant dangling == DanglingOf(Elems(members), byItem, refs[..k])
    {
      ExpandRefNames(members, refs[k], i, byDomain);
      var (more, resolved) := ExpandRef(refs[k], i, byDomain, byItem);
      assert refs[..k + 1] == refs[..k] + [refs[k]];
      if !resolved {
        dangling := dangling + {refs[k]};
      }
      targets := targets + more;
    }
    assert refs[..|refs|] == refs;
  }

  /** What one claim proposes, and its references that name nothing. */
  method ProposeFor(members: seq<Item>, item: Item, byDomain: map<string, set<string>>, byItem: Index)
    returns (edges: set<Edge>, lost: set<Edge>)
    requires item in members && byItem == IndexOf(members)
    requires IsDomainTable(members, byDomain)
    ensures edges == Proposals(Elems(members), byItem, item)
    ensures lost == Losses(Elems(members), byItem, item)
  {
    var domain := byItem[item.id].key;
    var down, lostDown := ExpandAll(members, item, Supersedes(item), byDomain, byItem);
    var up, lostUp := ExpandAll(members, item, SupersededBy(item), byDomain, byItem);
    edges := EdgesFrom(item.id, down) + EdgesInto(up, item.id);
    lost := EdgesFrom(domain, lostDown + lostUp);
  }

  method ProposePerClaim(members: seq<Item>) returns (parts: seq<set<Edge>>, losses: seq<set<Edge>>)
    ensures |parts| == |losses| == |members|
    ensures forall k | 0 <= k < |members| ::
      && parts[k] == Proposals(Elems(members), IndexOf(members), members[k])
      && losses[k] == Losses(Elems(members), IndexOf(members), members[k])
  {
    var byDomain, byItem := SupersessionIndex(members);
    parts, losses := [], [];
    for k := 0 to |members|
      invariant |parts| == |losses| == k
      invariant forall i | 0 <= i < k ::
        && parts[i] == Proposals(Elems(members), byItem, members[i])
        && losses[i] == Losses(Elems(members), byItem, members[i])
    {
      var edges, lost := ProposeFor(members, members[k], byDomain, byItem);
      var parts', losses' := parts + [edges], losses + [lost];
      forall i | 0 <= i < k + 1
        ensures parts'[i] == Proposals(Elems(members), byItem, members[i])
        ensures losses'[i] == Losses(Elems(members), byItem, members[i])
      {
        if i < k {
          assert parts'[i] == parts[i] && losses'[i] == losses[i];
        } else {
          assert parts'[i] == edges && losses'[i] == lost;
        }
      }
      parts, losses := parts', losses';
    }
  }

  method UnionOf(parts: seq<set<Edge>>) returns (u: set<Edge>)
    ensures forall e :: e in u <==> exists k :: 0 <= k < |parts| && e in parts[k]
  {
    u := {};
    for k := 0 to |parts|
      invariant forall e :: e in u <==> exists i :: 0 <= i < k && e in parts[i]
    {
      u := u + parts[k];
    }
  }

  ghost predicate LosesRef(m: set<Item>, idx: Index, d: Edge)
    requires Indexed(m, idx)
  {
    exists i :: i in m && d in Losses(m, idx, i)
  }

  /** Every proposed edge and every reference that names nothing. */
  method ProposeEdges(members: seq<Item>) returns (proposed: set<Edge>, dangling: set<Edge>)
    ensures forall e :: e in proposed <==> Proposed(Elems(members), IndexOf(members), e)
    ensures forall d :: d in dangling <==> LosesRef(Elems(members), IndexOf(members), d)
  {
    var parts, losses := ProposePerClaim(members);
    proposed := UnionOf(parts);
    dangling := UnionOf(losses);
    ghost var m, idx := Elems(members), IndexOf(members);
    forall e ensures e in proposed <==> Proposed(m, idx, e) {
      ByPosition(members, (i: Item) => if i.id in idx then Proposals(m, idx, i) else {}, parts, e);
    }
    forall d ensures d in dangling <==> LosesRef(m, idx, d) {
      ByPosition(members, (i: Item) => if i.id in idx then Losses(m, idx, i) else {}, losses, d);
    }
  }

  lemma ByPosition(members: seq<Item>, f: Item -> set<Edge>, parts: seq<set<Edge>>, e: Edge)
    requires |parts| == |members| && forall k | 0 <= k < |members| :: parts[k] == f(members[k])
    ensures (exists k :: 0 <= k < |parts| && e in parts[k]) <==> (exists i :: i in Elems(members) && e in f(i))
  {
    if i :| i in Elems(members) && e in f(i) {
      var k :| 0 <= k < |members| && members[k] == i;
      assert e in parts[k];
    }
    if k :| 0 <= k < |parts| && e in parts[k] {
      assert members[k] in Elems(members);
    }
  }

  lemma ProposedEndpoints(m: set<Item>, idx: Index, e: Edge)
    requires Indexed(m, idx) && Proposed(m, idx, e)
    ensures e.0 in idx && e.1 in idx
  {
    var i :| i in m && e in Proposals(m, idx, i);
    var refs := if e in EdgesFrom(i.id, NamedByAll(m, idx, i, Supersedes(i))) then Supersedes(i) else SupersededBy(i);
    var t := if e in EdgesFrom(i.id, NamedByAll(m, idx, i, Supersedes(i))) then e.1 else e.0;
    assert t in NamedByAll(m, idx, i, refs);
    var ref :| ref in refs && t in Named(m, idx, i, ref);
  }

  /** A lower rank number is stronger authority; a weaker superseder is refused. */
  method GateEdges(proposed: set<Edge>, byItem: Index) returns (edges: set<Edge>, refused: set<Edge>)
    requires forall e | e in proposed :: e.0 in byItem && e.1 in byItem
    ensures edges == set e | e in proposed && byItem[e.0].Rank() <= byItem[e.1].Rank()
    ensures refused == proposed - edges
  {
    edges, refused := {}, {};
    var todo := proposed;
    while todo != {}
      invariant todo <= proposed && edges + refused == proposed - todo
      invariant forall e | e in edges :: e in proposed && byItem[e.0].Rank() <= byItem[e.1].Rank()
      invariant forall e | e in refused :: e in proposed && byItem[e.0].Rank() > byItem[e.1].Rank()
      decreases todo
    {
      var e :| e in todo;
      if byItem[e.0].Rank() <= byItem[e.1].Rank() { edges := edges + {e}; }
      else { refused := refused + {e}; }
      todo := todo - {e};
    }
  }

  method Adjacency(edges: set<Edge>) returns (g: Graph)
    ensures forall a, b :: b in Succ(g, a) <==> (a, b) in edges
  {
    g := map[];
    var todo := edges;
    while todo != {}
      invariant todo <= edges
      invariant forall a, b :: b in Succ(g, a) <==> (a, b) in edges - todo
      decreases todo
    {
      var e :| e in todo;
      g := g[e.0 := Succ(g, e.0) + {e.1}];
      todo := todo - {e};
    }
  }

  lemma AdjacencyIsEdgeGraph(m: set<Item>, idx: Index, edges: set<Edge>, g: Graph)
    requires Indexed(m, idx)
    requires forall e :: e in edges <==> Accepted(m, idx, e)
    requires forall a, b :: b in Succ(g, a) <==> (a, b) in edges
    ensures forall a, b :: Reaches(g, a, b) <==> Reaches(EdgeGraph(m, idx), a, b)
  {
    forall n ensures Succ(g, n) == Succ(EdgeGraph(m, idx), n) {
      forall b ensures b in Succ(g, n) <==> b in Succ(EdgeGraph(m, idx), n) { GraphEdge(m, idx, n, b); }
    }
    ReachesSameEdges(g, EdgeGraph(m, idx));
  }

  /** The gated graph of a list of claims, with its cycles and its refusals. */
  method SupersessionGraph(members: seq<Item>)
    returns (edges: set<Edge>, refused: set<Edge>, dangling: set<Edge>, components: seq<seq<string>>)
    ensures forall e :: e in edges <==> Accepted(Elems(members), IndexOf(members), e)
    ensures forall e :: e in refused <==> Refused(Elems(members), IndexOf(members), e)
    ensures forall e | e in refused :: e.0 in IndexOf(members) && e.1 in IndexOf(members)
    ensures forall d :: d in dangling <==> LosesRef(Elems(members), IndexOf(members), d)
    ensures AreCycleComponents(EdgeGraph(Elems(members), IndexOf(members)), components)
  {
    ghost var m, idx := Elems(members), IndexOf(members);
    var byItem := IndexOf(members);
    var proposed;
    proposed, dangling := ProposeEdges(members);
    forall e | e in proposed ensures e.0 in byItem && e.1 in byItem { ProposedEndpoints(m, idx, e); }
    edges, refused := GateEdges(proposed, byItem);
    forall e ensures e in edges <==> Accepted(m, idx, e) { }
    forall e ensures e in refused <==> Refused(m, idx, e) { }
    var g := Adjacency(edges);
    components := CycleComponents(g);
    AdjacencyIsEdgeGraph(m, idx, edges, g);
    ComponentsCarryOver(g, EdgeGraph(m, idx), components);
  }

  lemma ComponentsCarryOver(g: Graph, h: Graph, components: seq<seq<string>>)
    requires AreCycleComponents(g, components)
    requires forall a, b :: Reaches(g, a, b) <==> Reaches(h, a, b)
    ensures AreCycleComponents(h, components)
  {
    forall c | c in components ensures IsClass(h, c) {
      forall x, y | x in c ensures y in c <==> Mutual(h, x, y) {
        assert Mutual(g, x, y) <==> Mutual(h, x, y);
      }
      forall x | x in c ensures OnCycle(h, x) { assert OnCycle(g, x); }
    }
    forall x | OnCycle(h, x) ensures exists c :: c in components && x in c { assert OnCycle(g, x); }
  }

  lemma ClassIsCycleSet(g: Graph, c: seq<string>)
    requires IsClass(g, c)
    ensures IsCycleSet(g, Elems(c))
  {
    assert c[0] in Elems(c);
    forall x, y | x in Elems(c) ensures y in Elems(c) <==> Mutual(g, x, y) { assert x in c; }
  }

  lemma CycleSetIsClass(g: Graph, components: seq<seq<string>>, c: set<string>) returns (k: nat)
    requires AreCycleComponents(g, components) && IsCycleSet(g, c)
    ensures k < |components| && Elems(components[k]) == c
  {
    var x :| x in c;
    assert OnCycle(g, x);
    var comp :| comp in components && x in comp;
    k :| 0 <= k < |components| && components[k] == comp;
    assert IsClass(g, comp);
    forall y ensures y in Elems(comp) <==> y in c {
      assert y in comp <==> Mutual(g, x, y);
    }
  }

  ghost predicate ReportsCycle(kind: Kind, g: Graph, idx: Index, u: Unknown)
  {
    exists c, d :: IsCycleSet(g, c) && d in DomainsOf(idx, c) && u == CycleUnknown(kind, idx, c, d)
  }

  ghost predicate ReportedByFirst(kind: Kind, idx: Index, components: seq<seq<string>>, n: nat, u: Unknown)
    requires n <= |components|
  {
    exists i, d :: 0 <= i < n && d in DomainsOf(idx, Elems(components[i]))
      && u == CycleUnknown(kind, idx, Elems(components[i]), d)
  }

  lemma ReportedNext(kind: Kind, idx: Index, components: seq<seq<string>>, n: nat, u: Unknown)
    requires n < |components|
    ensures ReportedByFirst(kind, idx, components, n + 1, u) <==>
      (ReportedByFirst(kind, idx, components, n, u)
       || exists d ::
               d in DomainsOf(idx, Elems(components[n])) && u == CycleUnknown(kind, idx, Elems(components[n]), d))
  {
  }

  lemma ReportedByAll(kind: Kind, g: Graph, idx: Index, components: seq<seq<string>>, u: Unknown)
    requires AreCycleComponents(g, components)
    ensures ReportedByFirst(kind, idx, components, |components|, u) <==> ReportsCycle(kind, g, idx, u)
  {
    hide DomainsOf, CycleUnknown, IsCycleSet;
    if ReportedByFirst(kind, idx, components, |components|, u) {
      var i, d :| 0 <= i < |components| && d in DomainsOf(idx, Elems(components[i]))
        && u == CycleUnknown(kind, idx, Elems(components[i]), d);
      ClassIsCycleSet(g, components[i]);
    }
    if ReportsCycle(kind, g, idx, u) {
      var c, d :| IsCycleSet(g, c) && d in DomainsOf(idx, c) && u == CycleUnknown(kind, idx, c, d);
      var i := CycleSetIsClass(g, components, c);
    }
  }

  /** One unknown per identifier a component touches. */
  method CycleUnknowns(kind: Kind, ghost g: Graph, idx: Index, components: seq<seq<string>>) returns (out: seq<Unknown>)
    requires AreCycleComponents(g, components)
    ensures forall u :: u in out <==> ReportsCycle(kind, g, idx, u)
  {
    hide AreCycleComponents, ReportsCycle, CycleUnknown, DomainsOf;
    out := [];
    for k := 0 to |components|
      invariant forall u :: u in out <==> ReportedByFirst(kind, idx, components, k, u)
    {
      var more := CycleUnknownsFor(kind, idx, Elems(components[k]));
      forall u ensures u in out + more <==> ReportedByFirst(kind, idx, components, k + 1, u) {
        ReportedNext(kind, idx, components, k, u);
      }
      out := out + more;
    }
    forall u ensures u in out <==> ReportsCycle(kind, g, idx, u) { ReportedByAll(kind, g, idx, components, u); }
  }

  method CycleUnknownsFor(kind: Kind, idx: Index, c: set<string>) returns (out: seq<Unknown>)
    ensures forall u :: u in out <==> exists d :: d in DomainsOf(idx, c) && u == CycleUnknown(kind, idx, c, d)
  {
    SortedStringsSorted(DomainsOf(idx, c));
    var domains := SortedStrings(DomainsOf(idx, c));
    var tier, names := TruthTier(idx, c), DomainsOf(idx, c);
    out := OnePerDomain(kind, c, names, tier, domains);
    forall d ensures d in DomainsOf(idx, c) <==> d in domains { assert d in domains <==> d in Elems(domains); }
  }

  method OnePerDomain(kind: Kind, c: set<string>, names: set<string>, tier: Materiality, domains: seq<string>)
    returns (out: seq<Unknown>)
    ensures forall u :: u in out <==>
      (exists d :: d in domains && u == Unknown(None, Some(d), UnknownSupersession, CycleDetails(kind, names, c), tier))
  {
    out := [];
    for k := 0 to |domains|
      invariant forall u :: u in out <==>
        (exists d :: d in domains[..k]
          && u == Unknown(None, Some(d), UnknownSupersession, CycleDetails(kind, names, c), tier))
    {
      assert domains[..k + 1] == domains[..k] + [domains[k]];
      out := out + [Unknown(None, Some(domains[k]), UnknownSupersession, CycleDetails(kind, names, c), tier)];
    }
    assert domains[..|domains|] == domains;
  }

  /** One unknown per refused edge and one per dangling reference. */
  method EdgeUnknowns(kind: Kind, idx: Index, refused: set<Edge>, dangling: set<Edge>) returns (out: seq<Unknown>)
    requires forall e | e in refused :: e.0 in idx && e.1 in idx
    ensures forall u :: u in out <==>
      || (exists e :: e in refused && u == RefusedUnknown(kind, idx, e))
      || (exists d :: d in dangling && u == DanglingUnknown(kind, d.0, d.1))
  {
    var es := ListOf(refused);
    var ds := ListOf(dangling);
    assert forall e :: e in es <==> e in refused by { assert forall e :: e in es <==> e in Elems(es); }
    assert forall d :: d in ds <==> d in dangling by { assert forall d :: d in ds <==> d in Elems(ds); }
    var first: seq<Unknown> := [];
    for k := 0 to |es|
      invariant forall u :: u in first <==> exists j :: 0 <= j < k && u == RefusedUnknown(kind, idx, es[j])
    {
      first := first + [RefusedUnknown(kind, idx, es[k])];
    }
    var second: seq<Unknown> := [];
    for k := 0 to |ds|
      invariant forall u :: u in second <==> exists j :: 0 <= j < k && u == DanglingUnknown(kind, ds[j].0, ds[j].1)
    {
      second := second + [DanglingUnknown(kind, ds[k].0, ds[k].1)];
    }
    out := first + second;
  }

  lemma RetiredBySet(m: set<Item>, idx: Index, edges: set<Edge>, onCycle: set<string>, id: string)
    requires Indexed(m, idx)
    requires forall e :: e in edges <==> Accepted(m, idx, e)
    requires forall x :: x in onCycle <==> Cyclic(m, idx, x)
    ensures Retired(m, idx, id) <==> id in set e | e in edges && e.0 !in onCycle :: e.1
  {
    if Retired(m, idx, id) {
      var a :| Accepted(m, idx, (a, id)) && !Cyclic(m, idx, a);
      assert (a, id) in edges;
    }
  }

  /** The survival rule of a list of claims. */
  ghost predicate Keeps(members: seq<Item>, i: Item)
  {
    Survives(Elems(members), IndexOf(members), i)
  }

  /** The claims on a cycle, the claims retired from off any cycle, and the reports. */
  method Standing(kind: Kind, members: seq<Item>)
    returns (onCycle: set<string>, retired: set<string>, unknowns: seq<Unknown>)
    ensures forall x :: x in onCycle <==> Cyclic(Elems(members), IndexOf(members), x)
    ensures forall x :: x in retired <==> Retired(Elems(members), IndexOf(members), x)
    ensures forall u :: u in unknowns <==> Reports(kind, Elems(members), IndexOf(members), u)
  {
    ghost var m, idx := Elems(members), IndexOf(members);
    var byItem := IndexOf(members);
    hide Reports, Retired, Accepted, Refused, LosesRef;
    var edges, refused, dangling, components := SupersessionGraph(members);
    onCycle := set c, x | c in components && x in c :: x;
    assert forall x :: x in onCycle <==> Cyclic(m, idx, x) by {
      assert forall c | c in components :: IsClass(EdgeGraph(m, idx), c);
    }
    retired := set e | e in edges && e.0 !in onCycle :: e.1;
    forall x ensures x in retired <==> Retired(m, idx, x) { RetiredBySet(m, idx, edges, onCycle, x); }
    var cycles := CycleUnknowns(kind, EdgeGraph(m, idx), byItem, components);
    var others := EdgeUnknowns(kind, byItem, refused, dangling);
    unknowns := cycles + others;
    forall u ensures u in unknowns <==> Reports(kind, m, idx, u) {
      ReportsSplit(kind, m, idx, u, refused, dangling);
    }
  }

  lemma ReportsSplit(kind: Kind, m: set<Item>, idx: Index, u: Unknown, refused: set<Edge>, dangling: set<Edge>)
    requires Indexed(m, idx)
    requires forall e :: e in refused <==> Refused(m, idx, e)
    requires forall e | e in refused :: e.0 in idx && e.1 in idx
    requires forall d :: d in dangling <==> LosesRef(m, idx, d)
    ensures Reports(kind, m, idx, u) <==>
      || ReportsCycle(kind, EdgeGraph(m, idx), idx, u)
      || (exists e :: e in refused && u == RefusedUnknown(kind, idx, e))
      || (exists d :: d in dangling && u == DanglingUnknown(kind, d.0, d.1))
  {
  }

  /** Apply explicit supersession across one kind. */
  method ResolveSupersession(kind: Kind, members: seq<Item>) returns (survivors: seq<Item>, unknowns: seq<Unknown>)
    ensures survivors == Filter((i: Item) => Keeps(members, i), members)
    ensures forall u :: u in unknowns <==> Reports(kind, Elems(members), IndexOf(members), u)
  {
    var onCycle, retired;
    onCycle, retired, unknowns := Standing(kind, members);
    ghost var keep := (i: Item) => Keeps(members, i);
    survivors := [];
    for k := 0 to |members|
      invariant survivors == Filter(keep, members[..k])
    {
      var item := members[k];
      assert members[..k + 1][..k] == members[..k] && members[..k + 1][k] == item;
      if item.id !in onCycle && !item.Marked() && item.id !in retired {
        survivors := survivors + [item];
      }
    }
    assert members[..|members|] == members;
  }
}
