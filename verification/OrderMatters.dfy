/**
 When the order of the candidates matters. Two copies of one identity may differ in
 authority, and the identity index keeps the last; so the order can reach the
 authority gate. Exactly when it does, and what follows when it does not.
 */
module OrderMatters {
  import opened Base
  import opened ContextModel
  import opened Reachability
  import opened Supersession
  import opened Resolution
  import opened ResolutionLaws

  // ---- proposals do not depend on the copy -------------------------------

  lemma KeysAgree(m: set<Item>, idx: Index, jdx: Index)
    requires Indexed(m, idx) && Indexed(m, jdx) && WellIdentified(m)
    ensures idx.Keys == jdx.Keys
    ensures forall id | id in idx :: idx[id].key == jdx[id].key && idx[id].Marked() == jdx[id].Marked()
  {
    forall id | id in idx ensures idx[id].key == jdx[id].key && idx[id].Marked() == jdx[id].Marked() {
      assert idx[id] in m && jdx[id] in m && idx[id].id == jdx[id].id;
    }
  }

  lemma NamedAgree(m: set<Item>, idx: Index, jdx: Index, i: Item, refs: seq<string>)
    requires Indexed(m, idx) && Indexed(m, jdx) && WellIdentified(m) && i in m
    ensures NamedByAll(m, idx, i, refs) == NamedByAll(m, jdx, i, refs)
    ensures DanglingOf(m, idx, refs) == DanglingOf(m, jdx, refs)
  {
    KeysAgree(m, idx, jdx);
    assert i.id in idx;
    forall ref ensures Named(m, idx, i, ref) == Named(m, jdx, i, ref) { }
  }

  lemma ProposedBlind(m: set<Item>, idx: Index, jdx: Index, e: Edge)
    requires Indexed(m, idx) && Indexed(m, jdx) && WellIdentified(m)
    ensures Proposed(m, idx, e) <==> Proposed(m, jdx, e)
    ensures LosesRef(m, idx, e) <==> LosesRef(m, jdx, e)
  {
    hide NamedByAll, DanglingOf;
    KeysAgree(m, idx, jdx);
    forall i | i in m
      ensures Proposals(m, idx, i) == Proposals(m, jdx, i) && Losses(m, idx, i) == Losses(m, jdx, i) {
      NamedAgree(m, idx, jdx, i, Supersedes(i));
      NamedAgree(m, idx, jdx, i, SupersededBy(i));
    }
  }

  /** No claim supersedes itself. */
  lemma ProposedApart(m: set<Item>, idx: Index, e: Edge)
    requires Indexed(m, idx) && Proposed(m, idx, e)
    ensures e.0 in idx && e.1 in idx && e.0 != e.1
  {
    ProposedEndpoints(m, idx, e);
    var i :| i in m && e in Proposals(m, idx, i);
    if e in EdgesFrom(i.id, NamedByAll(m, idx, i, Supersedes(i))) {
      var ref :| ref in Supersedes(i) && e.1 in Named(m, idx, i, ref);
    } else {
      var ref :| ref in SupersededBy(i) && e.0 in Named(m, idx, i, ref);
    }
  }

  // ---- the gate ----------------------------------------------------------

  /** All copies of the two endpoints give the gate the same verdict. */
  ghost predicate CopyBlind(m: set<Item>, e: Edge)
  {
    forall x, x', y, y' | Copies(m, e.0, x, x') && Copies(m, e.1, y, y') ::
      x.Rank() <= y.Rank() <==> x'.Rank() <= y'.Rank()
  }

  ghost predicate Copies(m: set<Item>, id: string, x: Item, y: Item)
  {
    x in m && y in m && x.id == id && y.id == id
  }

  /** Every edge the claims propose is judged alike by all copies of its endpoints. */
  ghost predicate GateIsCopyBlind(a: seq<Item>)
  {
    forall e | Proposes(a, e) :: CopyBlind(Elems(a), e)
  }

  ghost predicate Proposes(a: seq<Item>, e: Edge)
  {
    Proposed(Elems(a), IndexOf(a), e)
  }

  ghost predicate Accepts(a: seq<Item>, e: Edge)
  {
    Accepted(Elems(a), IndexOf(a), e)
  }

  /** The same edges pass the gate. */
  ghost predicate SameGate(a: seq<Item>, b: seq<Item>)
  {
    forall e :: Accepts(a, e) <==> Accepts(b, e)
  }

  lemma AcceptsMeans(a: seq<Item>, e: Edge)
    ensures Accepts(a, e) <==>
      (Proposes(a, e) && e.0 in IndexOf(a) && e.1 in IndexOf(a) && IndexOf(a)[e.0].Rank() <= IndexOf(a)[e.1].Rank())
  {
  }

  lemma SameProposals(a: seq<Item>, b: seq<Item>, e: Edge)
    requires Elems(a) == Elems(b) && WellIdentified(Elems(a))
    ensures Proposes(a, e) <==> Proposes(b, e)
  {
    hide Proposed, WellIdentified, IndexOf, Elems, Indexed;
    IndexOfIndexed(a);
    IndexOfIndexed(b);
    ProposedBlind(Elems(a), IndexOf(a), IndexOf(b), e);
  }

  lemma CopiesOf(a: seq<Item>, b: seq<Item>, id: string)
    requires Elems(a) == Elems(b) && id in IndexOf(a)
    ensures id in IndexOf(b) && Copies(Elems(a), id, IndexOf(a)[id], IndexOf(b)[id])
  {
    IndexEntry(a, id);
    IndexCovers(b, IndexOf(a)[id]);
    IndexEntry(b, id);
  }

  /** Blind to the copy, the gate passes the same edges in any order. */
  lemma BlindGateIsSame(a: seq<Item>, b: seq<Item>)
    requires Elems(a) == Elems(b) && WellIdentified(Elems(a)) && GateIsCopyBlind(a)
    ensures SameGate(a, b)
  {
    hide IndexOf, Elems, Proposes, Accepts, WellIdentified;
    forall e ensures Accepts(a, e) <==> Accepts(b, e) {
      AcceptsMeans(a, e);
      AcceptsMeans(b, e);
      SameProposals(a, b, e);
      if Proposes(a, e) {
        ProposesEndpoints(a, e);
        CopiesOf(a, b, e.0);
        CopiesOf(a, b, e.1);
        assert CopyBlind(Elems(a), e);
      }
    }
  }

  lemma ProposesEndpoints(a: seq<Item>, e: Edge)
    requires Proposes(a, e)
    ensures e.0 in IndexOf(a) && e.1 in IndexOf(a) && e.0 != e.1
  {
    ProposedApart(Elems(a), IndexOf(a), e);
  }

  /** Any two copies of different identities can be made the ones the index keeps. */
  lemma LastCopiesWin(a: seq<Item>, x: Item, y: Item) returns (b: seq<Item>)
    requires x in a && y in a && x.id != y.id
    ensures multiset(b) == multiset(a) && Elems(b) == Elems(a)
    ensures x.id in IndexOf(b) && y.id in IndexOf(b) && IndexOf(b)[x.id] == x && IndexOf(b)[y.id] == y
  {
    hide IndexOf, Elems;
    var rest := ToEnd(a, x);
    assert y in rest by { assert y in multiset(rest + [x]); }
    var left := ToEnd(rest, y);
    b := left + [y] + [x];
    IndexSnoc(left, y);
    IndexSnoc(left + [y], x);
    SameMultisetSameElems(a, b);
  }

  lemma ToEnd(a: seq<Item>, x: Item) returns (rest: seq<Item>)
    requires x in a
    ensures multiset(rest) + multiset{x} == multiset(a) == multiset(rest + [x])
  {
    var k :| 0 <= k < |a| && a[k] == x;
    rest := a[..k] + a[k + 1..];
    MoveToEnd(a, k);
  }

  lemma CopiesDisagree(m: set<Item>, e: Edge) returns (x: Item, y: Item, x': Item, y': Item)
    requires !CopyBlind(m, e)
    ensures Copies(m, e.0, x, x') && Copies(m, e.1, y, y') && x.Rank() <= y.Rank() && x'.Rank() > y'.Rank()
  {
    x, x', y, y' :| Copies(m, e.0, x, x') && Copies(m, e.1, y, y') && x.Rank() <= y.Rank() && x'.Rank() > y'.Rank();
  }

  /** Some order keeps the copies `x` and `y`, and the gate then goes by them. */
  lemma KeptCopiesDecide(a: seq<Item>, e: Edge, x: Item, y: Item) returns (b: seq<Item>)
    requires WellIdentified(Elems(a)) && Proposes(a, e) && x in a && y in a && x.id == e.0 && y.id == e.1
    ensures multiset(b) == multiset(a)
    ensures Accepts(b, e) <==> x.Rank() <= y.Rank()
  {
    hide IndexOf, Elems, Proposes, Accepts, WellIdentified;
    ProposesEndpoints(a, e);
    b := LastCopiesWin(a, x, y);
    SameProposals(a, b, e);
    AcceptsMeans(b, e);
  }

  /** Copies that disagree give two orders, one in which the edge passes and one in which it is refused. */
  lemma DisagreeingCopies(a: seq<Item>, e: Edge) returns (p: seq<Item>, q: seq<Item>)
    requires WellIdentified(Elems(a)) && Proposes(a, e) && !CopyBlind(Elems(a), e)
    ensures multiset(p) == multiset(a) == multiset(q) && Accepts(p, e) && !Accepts(q, e)
  {
    hide IndexOf, Proposes, Accepts, WellIdentified, CopyBlind;
    var x, y, x', y' := CopiesDisagree(Elems(a), e);
    p := KeptCopiesDecide(a, e, x, y);
    q := KeptCopiesDecide(a, e, x', y');
  }

  /**
   The exact condition at the gate: the accepted edges are the same in every order
   exactly when, for every edge the claims propose, all copies of its endpoints
   give the same verdict.
   */
  lemma EdgesIgnoreOrderIff(a: seq<Item>)
    requires WellIdentified(Elems(a))
    ensures (forall b | multiset(b) == multiset(a) :: SameGate(a, b)) <==> GateIsCopyBlind(a)
  {
    hide Accepts, Proposes, CopyBlind, WellIdentified;
    if GateIsCopyBlind(a) {
      forall b | multiset(b) == multiset(a) ensures SameGate(a, b) {
        SameMultisetSameElems(a, b);
        BlindGateIsSame(a, b);
      }
    } else {
      var e :| Proposes(a, e) && !CopyBlind(Elems(a), e);
      var p, q := DisagreeingCopies(a, e);
      NotBothSame(a, p, q, e);
    }
  }

  lemma NotBothSame(a: seq<Item>, p: seq<Item>, q: seq<Item>, e: Edge)
    requires Accepts(p, e) && !Accepts(q, e)
    ensures !SameGate(a, p) || !SameGate(a, q)
  {
    hide Accepts;
    assert SameGate(a, p) ==> Accepts(a, e);
    assert SameGate(a, q) ==> !Accepts(a, e);
  }

  // ---- what follows when the gate is blind -------------------------------

  lemma SameEdgesSameGraph(a: seq<Item>, b: seq<Item>)
    requires Elems(a) == Elems(b) && WellIdentified(Elems(a)) && SameGate(a, b)
    ensures EdgeGraph(Elems(a), IndexOf(a)) == EdgeGraph(Elems(b), IndexOf(b))
  {
    hide Accepted, WellIdentified, IndexOf, Elems, Indexed;
    IndexOfIndexed(a);
    IndexOfIndexed(b);
    var m, idx, jdx := Elems(a), IndexOf(a), IndexOf(b);
    KeysAgree(m, idx, jdx);
    forall x | x in idx
      ensures (set y | y in idx && Accepted(m, idx, (x, y))) == (set y | y in jdx && Accepted(m, jdx, (x, y))) {
      forall y ensures Accepted(m, idx, (x, y)) <==> Accepted(m, jdx, (x, y)) {
        assert Accepts(a, (x, y)) <==> Accepts(b, (x, y));
      }
    }
  }

  /** Survival reads the index only through the graph and the accepted edges. */
  lemma SameStanding(m: set<Item>, idx: Index, jdx: Index, i: Item)
    requires Indexed(m, idx) && Indexed(m, jdx) && EdgeGraph(m, idx) == EdgeGraph(m, jdx)
    requires forall x :: Accepted(m, idx, (x, i.id)) <==> Accepted(m, jdx, (x, i.id))
    ensures Survives(m, idx, i) <==> Survives(m, jdx, i)
  {
    hide EdgeGraph, Accepted, OnCycle, Indexed;
  }

  /** The same claims survive in any order. */
  lemma SurvivorsIgnoreOrder(a: seq<Item>, b: seq<Item>, i: Item)
    requires Elems(a) == Elems(b) && WellIdentified(Elems(a)) && GateIsCopyBlind(a)
    ensures Keeps(a, i) <==> Keeps(b, i)
  {
    hide EdgeGraph, Accepted, IndexOf, Survives, WellIdentified, GateIsCopyBlind, Elems, Indexed;
    IndexOfIndexed(a);
    IndexOfIndexed(b);
    BlindGateIsSame(a, b);
    SameEdgesSameGraph(a, b);
    var m, idx, jdx := Elems(a), IndexOf(a), IndexOf(b);
    forall x ensures Accepted(m, idx, (x, i.id)) <==> Accepted(m, jdx, (x, i.id)) {
      assert Accepts(a, (x, i.id)) <==> Accepts(b, (x, i.id));
    }
    SameStanding(m, idx, jdx, i);
  }

  /** All copies of a refused edge's endpoints are one copy. */
  ghost predicate RefusedOnce(a: seq<Item>)
  {
    forall e | Proposes(a, e) && !Accepts(a, e) ::
      (forall x, y | Copies(Elems(a), e.0, x, y) || Copies(Elems(a), e.1, x, y) :: x == y)
  }

  /** A blind gate judges an accepted edge alike when the index keeps another copy of its target. */
  lemma AcceptedOfAnyCopy(a: seq<Item>, b: seq<Item>, e: Edge)
    requires Elems(a) == Elems(b) && GateIsCopyBlind(a) && Accepts(a, e)
    ensures e.0 in IndexOf(a) && e.1 in IndexOf(a) && e.1 in IndexOf(b)
    ensures IndexOf(a)[e.0].Rank() <= IndexOf(b)[e.1].Rank()
  {
    hide Proposes, IndexOf, Elems, Accepts;
    AcceptsMeans(a, e);
    CopiesOf(a, a, e.0);
    CopiesOf(a, b, e.1);
    CopiesOf(a, a, e.1);
    assert CopyBlind(Elems(a), e);
  }

  /** The last step of a cycle back to `x`. */
  lemma LastStep(g: Graph, x: string) returns (y: string)
    requires OnCycle(g, x)
    ensures x in Succ(g, y) && (y == x || Reaches(g, x, y))
  {
    var p :| IsPath(g, p) && p[0] == x && p[|p| - 1] == x;
    y := p[|p| - 2];
    assert p[|p| - 2 + 1] in Succ(g, y);
    if |p| > 2 {
      var q := p[..|p| - 1];
      forall k | 0 <= k < |q| - 1 ensures q[k + 1] in Succ(g, q[k]) { assert p[k + 1] in Succ(g, p[k]); }
      assert IsPath(g, q);
    }
  }

  /** A claim on a cycle of a blind gate has one authority rank, whichever copy the index keeps. */
  lemma CycleHasOneRank(a: seq<Item>, b: seq<Item>, x: string)
    requires Elems(a) == Elems(b) && GateIsCopyBlind(a) && Cyclic(Elems(a), IndexOf(a), x)
    ensures x in IndexOf(a) && x in IndexOf(b) && IndexOf(a)[x].Rank() <= IndexOf(b)[x].Rank()
  {
    hide IndexOf, Elems, Indexed, EdgeGraph, GateIsCopyBlind, Accepted, OnCycle;
    IndexOfIndexed(a);
    var m, idx := Elems(a), IndexOf(a);
    var y := LastStep(EdgeGraph(m, idx), x);
    GraphEdge(m, idx, y, x);
    AcceptedOfAnyCopy(a, b, (y, x));
    if y != x { PathDescends(m, idx, x, y); }
  }

  /** A blind gate reports the same cycles, at the same materiality. */
  lemma CyclesIgnoreOrder(kind: Kind, a: seq<Item>, b: seq<Item>, c: set<string>, d: string)
    requires Elems(a) == Elems(b) && WellIdentified(Elems(a)) && GateIsCopyBlind(a)
    requires IsCycleSet(EdgeGraph(Elems(a), IndexOf(a)), c)
    ensures IsCycleSet(EdgeGraph(Elems(b), IndexOf(b)), c)
    ensures DomainsOf(IndexOf(a), c) == DomainsOf(IndexOf(b), c)
    ensures CycleUnknown(kind, IndexOf(a), c, d) == CycleUnknown(kind, IndexOf(b), c, d)
  {
    hide EdgeGraph, OnCycle, Mutual, WellIdentified, GateIsCopyBlind, SameGate, Elems, IndexOf, Indexed;
    IndexOfIndexed(a);
    IndexOfIndexed(b);
    BlindGateIsSame(a, b);
    SameEdgesSameGraph(a, b);
    KeysAgree(Elems(a), IndexOf(a), IndexOf(b));
    BlindBothWays(a, b);
    forall x | x in c ensures x in IndexOf(a) && x in IndexOf(b) && IndexOf(a)[x].level == IndexOf(b)[x].level {
      CycleHasOneRank(a, b, x);
      CycleHasOneRank(b, a, x);
    }
  }

  lemma BlindBothWays(a: seq<Item>, b: seq<Item>)
    requires Elems(a) == Elems(b) && WellIdentified(Elems(a)) && GateIsCopyBlind(a)
    ensures GateIsCopyBlind(b)
  {
    hide Proposes, CopyBlind, WellIdentified;
    forall e | Proposes(b, e) ensures CopyBlind(Elems(b), e) { SameProposals(a, b, e); }
  }

  ghost predicate ReportsIn(kind: Kind, a: seq<Item>, u: Unknown)
  {
    Reports(kind, Elems(a), IndexOf(a), u)
  }

  lemma ReportsCarryOver(kind: Kind, a: seq<Item>, b: seq<Item>, u: Unknown)
    requires Elems(a) == Elems(b) && WellIdentified(Elems(a)) && GateIsCopyBlind(a) && RefusedOnce(a)
    requires ReportsIn(kind, a, u)
    ensures ReportsIn(kind, b, u)
  {
    hide IsCycleSet, EdgeGraph, LosesRef, Proposed, CycleUnknown, GateIsCopyBlind, WellIdentified, DomainsOf,
      RefusedOnce, Proposes, Accepts, IndexOf, Elems, Indexed;
    IndexOfIndexed(a);
    IndexOfIndexed(b);
    var m, idx, jdx := Elems(a), IndexOf(a), IndexOf(b);
    if c, d :| IsCycleSet(EdgeGraph(m, idx), c) && d in DomainsOf(idx, c) && u == CycleUnknown(kind, idx, c, d) {
      CyclesIgnoreOrder(kind, a, b, c, d);
    } else if e :| Refused(m, idx, e) && u == RefusedUnknown(kind, idx, e) {
      RefusedMeans(a, e);
      RefusedCarriesOver(kind, a, b, e);
      RefusedMeans(b, e);
    } else {
      var d :| LosesRef(m, idx, d) && u == DanglingUnknown(kind, d.0, d.1);
      ProposedBlind(m, idx, jdx, d);
    }
  }

  lemma RefusedCarriesOver(kind: Kind, a: seq<Item>, b: seq<Item>, e: Edge)
    requires Elems(a) == Elems(b) && WellIdentified(Elems(a)) && GateIsCopyBlind(a) && RefusedOnce(a)
    requires e.0 in IndexOf(a) && e.1 in IndexOf(a) && Proposes(a, e) && !Accepts(a, e)
    ensures e.0 in IndexOf(b) && e.1 in IndexOf(b) && Proposes(b, e) && !Accepts(b, e)
    ensures RefusedUnknown(kind, IndexOf(a), e) == RefusedUnknown(kind, IndexOf(b), e)
  {
    hide Accepts, Proposes, WellIdentified, GateIsCopyBlind, IndexOf, Elems, Copies;
    BlindGateIsSame(a, b);
    SameProposals(a, b, e);
    CopiesOf(a, b, e.0);
    CopiesOf(a, b, e.1);
  }

  lemma RefusedMeans(a: seq<Item>, e: Edge)
    ensures Indexed(Elems(a), IndexOf(a))
    ensures Refused(Elems(a), IndexOf(a), e) <==> Proposes(a, e) && !Accepts(a, e)
  {
    hide IndexOf, Elems, Proposed;
    IndexOfIndexed(a);
    if Proposes(a, e) { ProposesEndpoints(a, e); }
  }

  // ---- resolution --------------------------------------------------------

  /** The order of the copies of this kind's claims never reaches its gate. */
  ghost predicate OrderBlind(items: seq<Item>, kind: Kind)
  {
    WellIdentified(Elems(OfKind(items, kind))) && GateIsCopyBlind(OfKind(items, kind))
  }

  lemma OfKindElems(a: seq<Item>, b: seq<Item>, kind: Kind)
    requires Elems(a) == Elems(b)
    ensures Elems(OfKind(a, kind)) == Elems(OfKind(b, kind))
  {
    forall i ensures i in OfKind(a, kind) <==> i in OfKind(b, kind) {
      assert i in a <==> i in Elems(a);
      assert i in b <==> i in Elems(b);
    }
  }

  lemma MembersIgnoreOrder(a: seq<Item>, b: seq<Item>, k: GroupKey)
    requires Elems(a) == Elems(b) && (DeclaresSupersession(k.kind) ==> OrderBlind(a, k.kind))
    ensures GroupMembers(a, k) == GroupMembers(b, k)
  {
    hide Keeps, GateIsCopyBlind, WellIdentified, OfKind;
    OfKindElems(a, b, k.kind);
    forall i ensures i in GroupMembers(a, k) <==> i in GroupMembers(b, k) {
      assert i in a <==> i in Elems(a);
      assert i in b <==> i in Elems(b);
      if DeclaresSupersession(k.kind) { SurvivorsIgnoreOrder(OfKind(a, k.kind), OfKind(b, k.kind), i); }
    }
  }

  lemma ReportsIgnoreOrder(kind: Kind, a: seq<Item>, b: seq<Item>, u: Unknown)
    requires Elems(a) == Elems(b) && DeclaresSupersession(kind) && OrderBlind(a, kind) && RefusedOnce(OfKind(a, kind))
    requires ReportsOf(a, kind, u)
    ensures ReportsOf(b, kind, u)
  {
    hide Reports, GateIsCopyBlind, WellIdentified, RefusedOnce, OfKind;
    OfKindElems(a, b, kind);
    ReportsCarryOver(kind, OfKind(a, kind), OfKind(b, kind), u);
  }

  lemma RefusedOnceBothWays(a: seq<Item>, b: seq<Item>)
    requires Elems(a) == Elems(b) && WellIdentified(Elems(a)) && GateIsCopyBlind(a) && RefusedOnce(a)
    ensures RefusedOnce(b)
  {
    hide Proposes, Accepts, WellIdentified, Copies, GateIsCopyBlind;
    BlindGateIsSame(a, b);
    forall e | Proposes(b, e) && !Accepts(b, e)
      ensures forall x, y | Copies(Elems(b), e.0, x, y) || Copies(Elems(b), e.1, x, y) :: x == y {
      SameProposals(a, b, e);
    }
  }

  /**
   Input order is never precedence where the gate is blind to copies of the laws and
   of the decisions: any permutation resolves to the same groups, and, when refused
   edges have one copy of each endpoint, to the same supersession unknowns. Copies of
   the other kinds never matter.
   */
  lemma InputOrderIsNotPrecedence(a: seq<Item>, b: seq<Item>, va: View, vb: View)
    requires multiset(a) == multiset(b) && Resolves(a, va) && Resolves(b, vb)
    requires OrderBlind(a, ApplicableLaw) && OrderBlind(a, PriorDecision)
    ensures forall e :: e in va.groups <==> e in vb.groups
    ensures RefusedOnce(OfKind(a, ApplicableLaw)) && RefusedOnce(OfKind(a, PriorDecision)) ==>
      forall u :: u in va.unknowns <==> u in vb.unknowns
  {
    hide GroupMembers, ReportsOf, OrderBlind, RefusedOnce;
    SameMultisetSameElems(a, b);
    forall e ensures e in va.groups <==> e in vb.groups {
      MembersIgnoreOrder(a, b, e.key);
      if e in va.groups { SameEntry(a, b, va, vb, e); }
      if e in vb.groups { SameEntry(b, a, vb, va, e); }
    }
    if RefusedOnce(OfKind(a, ApplicableLaw)) && RefusedOnce(OfKind(a, PriorDecision)) {
      forall kind, u ensures ReportsOf(a, kind, u) <==> ReportsOf(b, kind, u) { SameReports(kind, a, b, u); }
      forall u ensures u in va.unknowns <==> u in vb.unknowns { assert ReportsAny(a, u) <==> ReportsAny(b, u); }
    }
  }

  lemma SameReports(kind: Kind, a: seq<Item>, b: seq<Item>, u: Unknown)
    requires Elems(a) == Elems(b)
    requires DeclaresSupersession(kind) ==> OrderBlind(a, kind) && RefusedOnce(OfKind(a, kind))
    ensures ReportsOf(a, kind, u) <==> ReportsOf(b, kind, u)
  {
    hide Reports, GateIsCopyBlind, WellIdentified, RefusedOnce, OfKind;
    if DeclaresSupersession(kind) {
      OfKindElems(a, b, kind);
      BlindBothWays(OfKind(a, kind), OfKind(b, kind));
      RefusedOnceBothWays(OfKind(a, kind), OfKind(b, kind));
      if ReportsOf(a, kind, u) { ReportsIgnoreOrder(kind, a, b, u); }
      if ReportsOf(b, kind, u) { ReportsIgnoreOrder(kind, b, a, u); }
    }
  }

  /** One copy of each law and of each decision is enough, whatever copies the other kinds have. */
  lemma DistinctIsBlind(items: seq<Item>, kind: Kind)
    requires IdsDistinct(Elems(OfKind(items, kind)))
    ensures OrderBlind(items, kind) && RefusedOnce(OfKind(items, kind))
  {
    hide OfKind, Proposes, Accepts;
  }

  /** So with one copy of each law and each decision, order decides nothing. */
  lemma DistinctSupersedersIgnoreOrder(a: seq<Item>, b: seq<Item>, va: View, vb: View)
    requires multiset(a) == multiset(b) && Resolves(a, va) && Resolves(b, vb)
    requires IdsDistinct(Elems(OfKind(a, ApplicableLaw))) && IdsDistinct(Elems(OfKind(a, PriorDecision)))
    ensures forall e :: e in va.groups <==> e in vb.groups
    ensures forall u :: u in va.unknowns <==> u in vb.unknowns
  {
    hide Resolves, OfKind, OrderBlind, RefusedOnce, IdsDistinct;
    DistinctIsBlind(a, ApplicableLaw);
    DistinctIsBlind(a, PriorDecision);
    InputOrderIsNotPrecedence(a, b, va, vb);
  }

  // ---- a claim with one rival --------------------------------------------

  /** Only `rival` is proposed to retire `id`, `id` retires nothing, and nothing retires `rival`. */
  ghost predicate SoleRival(a: seq<Item>, id: string, rival: string)
  {
    && Proposes(a, (rival, id))
    && forall e | Proposes(a, e) :: (e.1 == id ==> e.0 == rival) && e.0 != id && e.1 != rival
  }

  lemma RivalIsOffCycle(a: seq<Item>, id: string, rival: string)
    requires SoleRival(a, id, rival)
    ensures !Cyclic(Elems(a), IndexOf(a), rival) && !Cyclic(Elems(a), IndexOf(a), id)
  {
    var m, idx := Elems(a), IndexOf(a);
    var g := EdgeGraph(m, idx);
    forall x, y | y in Succ(g, x) ensures x != id && y != rival {
      GraphEdge(m, idx, x, y);
      assert Proposes(a, (x, y));
    }
    if Reaches(g, id, id) { ClosedHolds(g, id, {}, id); }
    if OnCycle(g, rival) { var y := LastStep(g, rival); }
  }

  /** Such a claim stands exactly when the copies the index keeps refuse its rival. */
  lemma StandsIffRefused(a: seq<Item>, x: Item, rival: string)
    requires x in a && !x.Marked() && SoleRival(a, x.id, rival)
    ensures Keeps(a, x) <==> !Accepts(a, (rival, x.id))
  {
    hide Cyclic;
    RivalIsOffCycle(a, x.id, rival);
    forall y | Accepts(a, (y, x.id)) ensures y == rival { assert Proposes(a, (y, x.id)); }
    if Accepts(a, (rival, x.id)) { assert Accepted(Elems(a), IndexOf(a), (rival, x.id)); }
    if Retired(Elems(a), IndexOf(a), x.id) {
      var y :| Accepted(Elems(a), IndexOf(a), (y, x.id));
      assert Accepts(a, (y, x.id));
    }
  }

  lemma SoleRivalAnyOrder(a: seq<Item>, b: seq<Item>, id: string, rival: string)
    requires Elems(a) == Elems(b) && WellIdentified(Elems(a)) && SoleRival(a, id, rival)
    ensures SoleRival(b, id, rival)
  {
    hide Proposes, WellIdentified;
    forall e ensures Proposes(a, e) <==> Proposes(b, e) { SameProposals(a, b, e); }
  }

  /**
   Survival of such a claim, in a list of any length, is the same in every order
   exactly when all copies of it and of its rival give the gate the same verdict.
   */
  lemma SurvivalIgnoresOrderIff(a: seq<Item>, x: Item, rival: string)
    requires WellIdentified(Elems(a)) && x in a && !x.Marked() && SoleRival(a, x.id, rival)
    ensures (forall b | multiset(b) == multiset(a) :: Keeps(b, x) <==> Keeps(a, x)) <==>
      CopyBlind(Elems(a), (rival, x.id))
  {
    hide Keeps, Accepts, Proposes, CopyBlind, WellIdentified, SoleRival;
    if CopyBlind(Elems(a), (rival, x.id)) {
      forall b | multiset(b) == multiset(a) ensures Keeps(b, x) <==> Keeps(a, x) {
        BlindRivalDecidesOnce(a, b, x, rival);
      }
    } else {
      var p, q := LastCopyDecides(a, x, rival);
      assert Keeps(p, x) != Keeps(q, x);
    }
  }

  lemma BlindRivalDecidesOnce(a: seq<Item>, b: seq<Item>, x: Item, rival: string)
    requires WellIdentified(Elems(a)) && x in a && !x.Marked() && SoleRival(a, x.id, rival)
    requires multiset(a) == multiset(b) && CopyBlind(Elems(a), (rival, x.id))
    ensures Keeps(b, x) <==> Keeps(a, x)
  {
    hide Keeps, Proposes, WellIdentified, IndexOf;
    SameMultisetSameElems(a, b);
    assert x in Elems(b);
    SoleRivalAnyOrder(a, b, x.id, rival);
    StandsIffRefused(a, x, rival);
    StandsIffRefused(b, x, rival);
    var e := (rival, x.id);
    AcceptsMeans(a, e);
    AcceptsMeans(b, e);
    ProposesEndpoints(a, e);
    CopiesOf(a, b, rival);
    CopiesOf(a, b, x.id);
  }

  /** Where copies disagree, the claim stands in one order and is retired in another. */
  lemma LastCopyDecides(a: seq<Item>, x: Item, rival: string) returns (p: seq<Item>, q: seq<Item>)
    requires WellIdentified(Elems(a)) && x in a && !x.Marked() && SoleRival(a, x.id, rival)
    requires !CopyBlind(Elems(a), (rival, x.id))
    ensures multiset(p) == multiset(a) == multiset(q) && !Keeps(p, x) && Keeps(q, x)
  {
    hide Keeps, Accepts, Proposes, CopyBlind, WellIdentified;
    p, q := DisagreeingCopies(a, (rival, x.id));
    SameMultisetSameElems(a, p);
    SameMultisetSameElems(a, q);
    assert x in Elems(p) && x in Elems(q);
    SoleRivalAnyOrder(a, p, x.id, rival);
    SoleRivalAnyOrder(a, q, x.id, rival);
    StandsIffRefused(p, x, rival);
    StandsIffRefused(q, x, rival);
  }

  lemma {:induction false} PartitionKeeps(p: Item -> bool, q: Item -> bool, xs: seq<Item>)
    requires forall i | i in xs :: p(i) <==> !q(i)
    ensures multiset(Filter(p, xs) + Filter(q, xs)) == multiset(xs)
  {
    if xs != [] {
      var init, last := xs[..|xs| - 1], xs[|xs| - 1];
      assert xs == init + [last];
      PartitionKeeps(p, q, init);
    }
  }

  /** Any order of one kind's claims is their order in some permutation of all the candidates. */
  lemma Regrouped(items: seq<Item>, kind: Kind, p: seq<Item>) returns (b: seq<Item>)
    requires multiset(p) == multiset(OfKind(items, kind))
    ensures multiset(b) == multiset(items) && OfKind(b, kind) == p
  {
    var yes, no := (i: Item) => i.Kind() == kind, (i: Item) => i.Kind() != kind;
    PartitionKeeps(no, yes, items);
    b := Filter(no, items) + p;
    SameMultisetSameElems(p, OfKind(items, kind));
    FilterConcat(yes, Filter(no, items), p);
    FilterUniform(yes, Filter(no, items), false);
    forall i | i in p ensures yes(i) { assert i in Elems(OfKind(items, kind)); }
    FilterUniform(yes, p, true);
    assert [] + p == p;
  }

  /** In any candidate list: copies that disagree about a claim's one rival let the order decide whether it survives. */
  lemma OrderDecidesAmongCandidates(items: seq<Item>, x: Item, rival: string) returns (p: seq<Item>, q: seq<Item>)
    requires DeclaresSupersession(x.Kind()) && x in items && !x.Marked()
    requires WellIdentified(Elems(OfKind(items, x.Kind()))) && SoleRival(OfKind(items, x.Kind()), x.id, rival)
    requires !CopyBlind(Elems(OfKind(items, x.Kind())), (rival, x.id))
    ensures multiset(p) == multiset(items) == multiset(q) && !SurvivesIn(p, x) && SurvivesIn(q, x)
  {
    hide Keeps, Proposes, CopyBlind, WellIdentified, SoleRival;
    var p', q' := LastCopyDecides(OfKind(items, x.Kind()), x, rival);
    p := Regrouped(items, x.Kind(), p');
    q := Regrouped(items, x.Kind(), q');
  }

  /** Three laws suffice: one, a weaker copy of it, and a rival ranked between them. */
  lemma ThreeLawsSuffice(strong: Item, weak: Item, rival: Item)
    requires strong.claim.LawClaim? && strong.claim.supersedes == []
    requires weak == strong.(level := weak.level, cost := weak.cost) && strong.Rank() < rival.Rank() <= weak.Rank()
    requires rival.claim.LawClaim? && rival.claim.supersedes == [strong.id] && rival.id != strong.id
    ensures SoleRival([strong, weak, rival], strong.id, rival.id)
    ensures !CopyBlind(Elems([strong, weak, rival]), (rival.id, strong.id))
  {
    var a := [strong, weak, rival];
    var m, idx := Elems(a), IndexOf(a);
    assert a[0] in a && a[1] in a && a[2] in a;
    assert strong in m && weak in m && rival in m;
    forall e ensures Proposes(a, e) <==> e == (rival.id, strong.id) { OnlyProposal(strong, weak, rival, idx, e); }
    assert m == {strong, weak, rival};
    assert Copies(m, rival.id, rival, rival) && Copies(m, strong.id, strong, weak);
  }

  lemma OnlyProposal(strong: Item, weak: Item, rival: Item, idx: Index, e: Edge)
    requires strong.claim.LawClaim? && strong.claim.supersedes == []
    requires weak == strong.(level := weak.level, cost := weak.cost)
    requires rival.claim.LawClaim? && rival.claim.supersedes == [strong.id] && rival.id != strong.id
    requires Indexed(Elems([strong, weak, rival]), idx)
    ensures Proposed(Elems([strong, weak, rival]), idx, e) <==> e == (rival.id, strong.id)
  {
    var m := Elems([strong, weak, rival]);
    assert m == {strong, weak, rival};
    assert strong in m && weak in m && rival in m;
    ProposedByThree(m, idx, strong, weak, rival, e);
    hide Proposals, Elems, Proposed, Indexed;
    NamesNothing(m, idx, strong);
    NamesNothing(m, idx, weak);
    NamesOne(m, idx, rival, strong.id);
  }

  lemma ProposedByThree(m: set<Item>, idx: Index, a: Item, b: Item, c: Item, e: Edge)
    requires m == {a, b, c} && Indexed(m, idx)
    ensures a.id in idx && b.id in idx && c.id in idx
    ensures Proposed(m, idx, e) <==>
      e in Proposals(m, idx, a) || e in Proposals(m, idx, b) || e in Proposals(m, idx, c)
  {
    assert a in m && b in m && c in m;
    hide Proposals;
  }

  lemma NamesNothing(m: set<Item>, idx: Index, law: Item)
    requires law.id in idx && law.claim.LawClaim? && law.claim.supersedes == []
    ensures Proposals(m, idx, law) == {}
  {
  }

  lemma NamesOne(m: set<Item>, idx: Index, rival: Item, id: string)
    requires rival.id in idx && rival.claim.LawClaim? && rival.claim.supersedes == [id] && rival.id != id && id in idx
    ensures Proposals(m, idx, rival) == {(rival.id, id)}
  {
    assert SupersededBy(rival) == [] && Supersedes(rival) == [id];
    assert Named(m, idx, rival, id) == {id};
    assert NamedByAll(m, idx, rival, Supersedes(rival)) == {id};
  }
}
