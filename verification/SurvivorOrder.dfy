/**
 Which claims of a kind survive, and in which orders. An order of the candidates is
 a choice of one copy for each identity, any choice comes from some order, and
 supersession then sees only the choice. So cycles and survivors can be settled for
 all orders at once, by comparing the ranks of copies.
 */
module SurvivorOrder {
  import opened Base
  import opened ContextModel
  import opened Reachability
  import opened Supersession
  import opened Resolution
  import opened ResolutionLaws
  import opened OrderMatters
  import opened SnapshotOrder

  // ---- orders are choices of copies --------------------------------------

  /** `i` is the copy `c` keeps. */
  predicate Picked(c: Index, i: Item) { i.id in c && c[i.id] == i }

  lemma {:induction false} LaterCopiesWin(l: seq<Item>, r: seq<Item>, c: Index)
    requires forall i | i in r :: Picked(c, i)
    ensures forall id | id in IndexOf(r) :: id in IndexOf(l + r) && id in c && IndexOf(l + r)[id] == c[id]
  {
    if r == [] {
    } else {
      var init, last := r[..|r| - 1], r[|r| - 1];
      assert r == init + [last] && l + r == (l + init) + [last];
      LaterCopiesWin(l, init, c);
      IndexSnoc(init, last);
      IndexSnoc(l + init, last);
    }
  }

  /** Any choice of copies is what the index keeps of some order. */
  lemma ChoiceHasOrder(a: seq<Item>, c: Index) returns (b: seq<Item>)
    requires Indexed(Elems(a), c)
    ensures multiset(b) == multiset(a) && IndexOf(b) == c
  {
    hide Indexed, Filter, IndexOf;
    var no, yes := (i: Item) => !Picked(c, i), (i: Item) => Picked(c, i);
    PartitionKeeps(no, yes, a);
    b := Filter(no, a) + Filter(yes, a);
    SameMultisetSameElems(b, a);
    IndexOfIndexed(b);
    LaterCopiesWin(Filter(no, a), Filter(yes, a), c);
    PickedAreListed(a, c, Filter(yes, a));
    SameIndex(Elems(a), IndexOf(b), c);
  }

  lemma PickedAreListed(a: seq<Item>, c: Index, r: seq<Item>)
    requires Indexed(Elems(a), c) && forall i | i in a && Picked(c, i) :: i in r
    ensures forall id | id in c :: id in IndexOf(r)
  {
    hide IndexOf;
    forall id | id in c ensures id in IndexOf(r) {
      assert c[id] in Elems(a) && Picked(c, c[id]);
      IndexCovers(r, c[id]);
    }
  }

  lemma SameIndex(m: set<Item>, c: Index, d: Index)
    requires Indexed(m, c) && Indexed(m, d) && forall id | id in d :: id in c && c[id] == d[id]
    ensures c == d
  {
  }

  // ---- the copies at either end of the ranks -----------------------------

  ghost function CopiesOfId(m: set<Item>, id: string): set<Item> { set i | i in m && i.id == id }

  /** Ranks count down in strength, so the strongest copy has the least. */
  function Lead(strong: bool, i: Item): int { if strong then i.Rank() else 0 - i.Rank() }

  lemma {:induction false} Extreme(s: set<Item>, strong: bool) returns (x: Item)
    requires s != {}
    ensures x in s && forall y | y in s :: Lead(strong, x) <= Lead(strong, y)
    decreases s
  {
    x :| x in s;
    if y :| y in s && Lead(strong, y) < Lead(strong, x) {
      var t := set z | z in s && Lead(strong, z) < Lead(strong, x);
      assert x !in t && t < s && y in t;
      x := Extreme(t, strong);
    }
  }

  ghost predicate IsExtreme(m: set<Item>, id: string, strong: bool, x: Item)
  {
    x in CopiesOfId(m, id) && forall y | y in CopiesOfId(m, id) :: Lead(strong, x) <= Lead(strong, y)
  }

  predicate Side(d: string, id: string, strong: bool) { (d == id) == strong }

  /** Keep the strongest copy of one identity and the weakest of every other, or the reverse. */
  ghost predicate Tilted(m: set<Item>, c: Index, id: string, strong: bool)
  {
    Indexed(m, c) && forall d | d in c :: IsExtreme(m, d, Side(d, id, strong), c[d])
  }

  lemma TiltedChoice(m: set<Item>, id: string, strong: bool) returns (c: Index)
    ensures Tilted(m, c, id, strong)
  {
    hide IsExtreme;
    var ids := set i | i in m :: i.id;
    forall d | d in ids ensures exists x :: IsExtreme(m, d, Side(d, id, strong), x) {
      HasExtreme(m, d, Side(d, id, strong));
    }
    c := map d | d in ids :: ExtremeOf(m, d, Side(d, id, strong));
    forall d | d in c ensures c[d] in m && c[d].id == d {
      ExtremeIsCopy(m, d, Side(d, id, strong), c[d]);
    }
  }

  ghost function ExtremeOf(m: set<Item>, id: string, strong: bool): Item
    requires exists x :: IsExtreme(m, id, strong, x)
  {
    var x :| IsExtreme(m, id, strong, x);
    x
  }

  lemma ExtremeIsCopy(m: set<Item>, id: string, strong: bool, x: Item)
    requires IsExtreme(m, id, strong, x)
    ensures x in m && x.id == id
  {
  }

  lemma HasExtreme(m: set<Item>, id: string, strong: bool)
    requires id in (set i | i in m :: i.id)
    ensures exists x :: IsExtreme(m, id, strong, x)
  {
    var i :| i in m && i.id == id;
    assert i in CopiesOfId(m, id);
    var x := Extreme(CopiesOfId(m, id), strong);
    assert IsExtreme(m, id, strong, x);
  }

  // ---- one edge under every choice ---------------------------------------

  /** The edge passes the gate whichever copies are kept. */
  ghost predicate AlwaysPasses(m: set<Item>, e: Edge)
  {
    forall x, y | x in CopiesOfId(m, e.0) && y in CopiesOfId(m, e.1) :: x.Rank() <= y.Rank()
  }

  /** Some two copies let it pass. */
  ghost predicate CanPass(m: set<Item>, e: Edge)
  {
    exists x, y :: x in CopiesOfId(m, e.0) && y in CopiesOfId(m, e.1) && x.Rank() <= y.Rank()
  }

  /** With its target strong and the rest weak, an edge passes only if it always does. */
  lemma StrongTargetRefuses(m: set<Item>, c: Index, e: Edge)
    requires Tilted(m, c, e.1, true) && e.0 in c && e.1 in c && e.0 != e.1
    ensures c[e.0].Rank() <= c[e.1].Rank() <==> AlwaysPasses(m, e)
  {
    assert IsExtreme(m, e.0, false, c[e.0]) && IsExtreme(m, e.1, true, c[e.1]);
    if c[e.0].Rank() <= c[e.1].Rank() {
      forall x, y | x in CopiesOfId(m, e.0) && y in CopiesOfId(m, e.1) ensures x.Rank() <= y.Rank() {
        assert Lead(false, c[e.0]) <= Lead(false, x) && Lead(true, c[e.1]) <= Lead(true, y);
      }
    }
  }

  /** With its target weak and the rest strong, it passes if it ever does. */
  lemma WeakTargetAdmits(m: set<Item>, c: Index, e: Edge)
    requires Tilted(m, c, e.1, false) && e.0 in c && e.1 in c && e.0 != e.1
    ensures c[e.0].Rank() <= c[e.1].Rank() <==> CanPass(m, e)
  {
    assert IsExtreme(m, e.0, true, c[e.0]) && IsExtreme(m, e.1, false, c[e.1]);
    if x, y :| x in CopiesOfId(m, e.0) && y in CopiesOfId(m, e.1) && x.Rank() <= y.Rank() {
      assert Lead(true, c[e.0]) <= Lead(true, x) && Lead(false, c[e.1]) <= Lead(false, y);
    }
  }

  // ---- cycles ------------------------------------------------------------

  ghost predicate HasRank(m: set<Item>, id: string, rank: nat)
  {
    exists i :: i in CopiesOfId(m, id) && i.Rank() == rank
  }

  /** The proposals between identities that have a copy of this rank. */
  ghost function RankGraph(m: set<Item>, idx: Index, rank: nat): Graph
    requires Indexed(m, idx)
  {
    map x | x in idx && HasRank(m, x, rank) :: set y | y in idx && HasRank(m, y, rank) && Proposed(m, idx, (x, y))
  }

  ghost predicate RankCycle(a: seq<Item>, rank: nat, x: string)
  {
    OnCycle(RankGraph(Elems(a), IndexOf(a), rank), x)
  }

  ghost predicate CycleFree(a: seq<Item>)
  {
    forall rank, x :: !RankCycle(a, rank, x)
  }

  ghost predicate CycleIn(a: seq<Item>, x: string)
  {
    Cyclic(Elems(a), IndexOf(a), x)
  }

  ghost predicate Acyclic(a: seq<Item>)
  {
    forall x :: !CycleIn(a, x)
  }

  lemma WiderGraphKeepsCycles(g: Graph, h: Graph, x: string)
    requires OnCycle(g, x) && forall n :: Succ(g, n) <= Succ(h, n)
    ensures OnCycle(h, x)
  {
    var p :| IsPath(g, p) && p[0] == x && p[|p| - 1] == x;
    forall i | 0 <= i < |p| - 1 ensures p[i + 1] in Succ(h, p[i]) { assert p[i + 1] in Succ(g, p[i]); }
    assert IsPath(h, p);
  }

  /** The choice that keeps copies of one rank wherever there are some. */
  lemma RankChoice(a: seq<Item>, rank: nat) returns (c: Index)
    ensures Indexed(Elems(a), c) && forall id | id in c && HasRank(Elems(a), id, rank) :: c[id].Rank() == rank
  {
    var m, idx := Elems(a), IndexOf(a);
    c := map id | id in idx :: if HasRank(m, id, rank) then OfRank(m, id, rank) else idx[id];
  }

  ghost function OfRank(m: set<Item>, id: string, rank: nat): (i: Item)
    requires HasRank(m, id, rank)
    ensures i in m && i.id == id && i.Rank() == rank
  {
    var i :| i in CopiesOfId(m, id) && i.Rank() == rank;
    i
  }

  /** A cycle of proposals at one rank is a cycle in some order. */
  lemma RankCycleHappens(a: seq<Item>, rank: nat, x: string) returns (b: seq<Item>)
    requires WellIdentified(Elems(a)) && RankCycle(a, rank, x)
    ensures multiset(b) == multiset(a) && !Acyclic(b)
  {
    hide WellIdentified, OnCycle, IndexOf, Elems, Proposed, HasRank, Indexed;
    IndexOfIndexed(a);
    var c := RankChoice(a, rank);
    b := ChoiceHasOrder(a, c);
    SameMultisetSameElems(a, b);
    IndexOfIndexed(b);
    var m, g, h := Elems(a), RankGraph(Elems(a), IndexOf(a), rank), EdgeGraph(Elems(b), IndexOf(b));
    forall n ensures Succ(g, n) <= Succ(h, n) {
      forall y | y in Succ(g, n) ensures y in Succ(h, n) { RankEdgeAccepted(m, IndexOf(a), c, rank, (n, y)); }
    }
    WiderGraphKeepsCycles(g, h, x);
    assert CycleIn(b, x);
  }

  lemma RankEdgeAccepted(m: set<Item>, idx: Index, c: Index, rank: nat, e: Edge)
    requires Indexed(m, idx) && Indexed(m, c) && WellIdentified(m)
    requires forall id | id in c && HasRank(m, id, rank) :: c[id].Rank() == rank
    requires e.1 in Succ(RankGraph(m, idx, rank), e.0)
    ensures e.1 in Succ(EdgeGraph(m, c), e.0)
  {
    hide Proposed, WellIdentified, HasRank;
    ProposedBlind(m, idx, c, e);
    GraphEdge(m, c, e.0, e.1);
  }

  /** A cycle in some order is a cycle of proposals at the rank its members share. */
  lemma CycleHasRank(a: seq<Item>, b: seq<Item>, x: string)
    requires WellIdentified(Elems(a)) && Elems(b) == Elems(a) && CycleIn(b, x)
    ensures exists rank :: RankCycle(a, rank, x)
  {
    hide WellIdentified, Proposed, EdgeGraph;
    var m, idx, c := Elems(a), IndexOf(a), IndexOf(b);
    PathDescends(m, c, x, x);
    var rank := c[x].Rank();
    var g, h := EdgeGraph(m, c), RankGraph(m, idx, rank);
    var p :| IsPath(g, p) && p[0] == x && p[|p| - 1] == x;
    forall i | 0 <= i < |p| - 1 ensures p[i + 1] in Succ(h, p[i]) {
      CycleStep(m, idx, c, p, i, rank);
    }
    assert IsPath(h, p);
    assert RankCycle(a, rank, x);
  }

  lemma CycleStep(m: set<Item>, idx: Index, c: Index, p: seq<string>, i: nat, rank: nat)
    requires Indexed(m, idx) && Indexed(m, c) && WellIdentified(m) && IsPath(EdgeGraph(m, c), p)
    requires i < |p| - 1 && p[0] == p[|p| - 1] && p[0] in c && c[p[0]].Rank() == rank
    ensures p[i + 1] in Succ(RankGraph(m, idx, rank), p[i])
  {
    hide WellIdentified, Proposed, EdgeGraph;
    OneRankOnCycle(m, c, p, i);
    OneRankOnCycle(m, c, p, i + 1);
    GraphEdge(m, c, p[i], p[i + 1]);
    ProposedBlind(m, idx, c, (p[i], p[i + 1]));
    HasItsRank(m, c, p[i]);
    HasItsRank(m, c, p[i + 1]);
  }

  lemma HasItsRank(m: set<Item>, c: Index, id: string)
    requires Indexed(m, c) && id in c
    ensures HasRank(m, id, c[id].Rank())
  {
    assert c[id] in CopiesOfId(m, id);
  }

  lemma OneRankOnCycle(m: set<Item>, c: Index, p: seq<string>, i: nat)
    requires Indexed(m, c) && IsPath(EdgeGraph(m, c), p) && i < |p| && p[0] == p[|p| - 1] && p[0] in c
    ensures p[i] in c && c[p[i]].Rank() == c[p[0]].Rank()
  {
    if 0 < i < |p| - 1 {
      SubPath(EdgeGraph(m, c), p, 0, i);
      SubPath(EdgeGraph(m, c), p, i, |p| - 1);
      PathDescends(m, c, p[0], p[i]);
      PathDescends(m, c, p[i], p[0]);
    }
  }

  lemma SubPath(g: Graph, p: seq<string>, i: nat, j: nat)
    requires IsPath(g, p) && i < j < |p|
    ensures Reaches(g, p[i], p[j])
  {
    var q := p[i..j + 1];
    forall k | 0 <= k < |q| - 1 ensures q[k + 1] in Succ(g, q[k]) { assert p[i + k + 1] in Succ(g, p[i + k]); }
    assert IsPath(g, q);
  }

  /**
   No order of the candidates makes a cycle exactly when, at no authority rank, the
   proposals between the identities that have a copy of that rank form one.
   */
  lemma NeverCyclicIff(a: seq<Item>)
    requires WellIdentified(Elems(a))
    ensures (forall b | multiset(b) == multiset(a) :: Acyclic(b)) <==> CycleFree(a)
  {
    hide WellIdentified, RankCycle, CycleIn;
    if CycleFree(a) {
      forall b, x | multiset(b) == multiset(a) ensures !CycleIn(b, x) {
        SameMultisetSameElems(a, b);
        if CycleIn(b, x) { CycleHasRank(a, b, x); }
      }
    } else {
      var rank, x :| RankCycle(a, rank, x);
      var b := RankCycleHappens(a, rank, x);
    }
  }

  // ---- survivors ---------------------------------------------------------

  ghost predicate SameSurvivors(a: seq<Item>, b: seq<Item>)
  {
    forall x | x in a :: Keeps(a, x) <==> Keeps(b, x)
  }

  /** Another order makes no cycle and keeps the same claims. */
  ghost predicate Steady(a: seq<Item>, b: seq<Item>)
  {
    Acyclic(b) && SameSurvivors(a, b)
  }

  /** Some proposal that always passes retires the claim, or none that could ever pass does. */
  ghost predicate Settled(a: seq<Item>, id: string)
  {
    || (exists y :: Proposes(a, (y, id)) && AlwaysPasses(Elems(a), (y, id)))
    || (forall y | Proposes(a, (y, id)) :: !CanPass(Elems(a), (y, id)))
  }

  ghost predicate AllSettled(a: seq<Item>)
  {
    forall x | x in a && !x.Marked() :: Settled(a, x.id)
  }

  /** Off every cycle, a claim stands exactly when no edge into it passes. */
  lemma KeptIffNoEdge(a: seq<Item>, x: Item)
    requires Acyclic(a) && !x.Marked()
    ensures Keeps(a, x) <==> forall y :: !Accepts(a, (y, x.id))
  {
    hide Accepted, Cyclic;
    assert !CycleIn(a, x.id);
    if y :| Accepts(a, (y, x.id)) {
      assert !CycleIn(a, y);
      assert Accepted(Elems(a), IndexOf(a), (y, x.id));
      assert Retired(Elems(a), IndexOf(a), x.id);
    }
  }

  /** What the index keeps is a copy, so an edge that always passes is accepted and an accepted one can pass. */
  lemma AcceptsBetween(a: seq<Item>, b: seq<Item>, e: Edge)
    requires WellIdentified(Elems(a)) && Elems(b) == Elems(a)
    ensures Proposes(a, e) && AlwaysPasses(Elems(a), e) ==> Accepts(b, e)
    ensures Accepts(b, e) ==> Proposes(a, e) && CanPass(Elems(a), e)
  {
    hide WellIdentified, Proposes, Accepts, IndexOf;
    AcceptsMeans(b, e);
    SameProposals(a, b, e);
    if Proposes(b, e) {
      ProposesEndpoints(b, e);
      IndexEntry(b, e.0);
      IndexEntry(b, e.1);
      assert IndexOf(b)[e.0] in CopiesOfId(Elems(a), e.0) && IndexOf(b)[e.1] in CopiesOfId(Elems(a), e.1);
    }
  }

  lemma SettledIsSame(a: seq<Item>, b: seq<Item>, x: Item)
    requires WellIdentified(Elems(a)) && Elems(b) == Elems(a) && Acyclic(a) && Acyclic(b)
    requires !x.Marked() && Settled(a, x.id)
    ensures Keeps(a, x) <==> Keeps(b, x)
  {
    hide WellIdentified, Proposes, Accepts, Keeps, AlwaysPasses, CanPass, Acyclic, Elems;
    KeptIffNoEdge(a, x);
    KeptIffNoEdge(b, x);
    forall y
      ensures Proposes(a, (y, x.id)) && AlwaysPasses(Elems(a), (y, x.id)) ==>
        Accepts(a, (y, x.id)) && Accepts(b, (y, x.id))
      ensures Accepts(a, (y, x.id)) || Accepts(b, (y, x.id)) ==>
        Proposes(a, (y, x.id)) && CanPass(Elems(a), (y, x.id)) {
      AcceptsBetween(a, a, (y, x.id));
      AcceptsBetween(a, b, (y, x.id));
    }
  }

  /** The order that tilts the choice one way for one identity. */
  lemma TiltedOrder(a: seq<Item>, id: string, strong: bool) returns (b: seq<Item>)
    ensures multiset(b) == multiset(a) && Elems(b) == Elems(a) && Tilted(Elems(a), IndexOf(b), id, strong)
  {
    hide Elems, IndexOf;
    var c := TiltedChoice(Elems(a), id, strong);
    b := ChoiceHasOrder(a, c);
    SameMultisetSameElems(a, b);
  }

  lemma StrongAccepts(a: seq<Item>, b: seq<Item>, e: Edge)
    requires WellIdentified(Elems(a)) && Elems(b) == Elems(a) && Tilted(Elems(a), IndexOf(b), e.1, true)
    ensures Accepts(b, e) <==> Proposes(a, e) && AlwaysPasses(Elems(a), e)
  {
    hide WellIdentified, Proposes, Accepts, IndexOf, Tilted, Elems, AlwaysPasses;
    AcceptsMeans(b, e);
    SameProposals(a, b, e);
    if Proposes(b, e) {
      ProposesEndpoints(b, e);
      StrongTargetRefuses(Elems(a), IndexOf(b), e);
    }
  }

  lemma WeakAccepts(a: seq<Item>, b: seq<Item>, e: Edge)
    requires WellIdentified(Elems(a)) && Elems(b) == Elems(a) && Tilted(Elems(a), IndexOf(b), e.1, false)
    ensures Accepts(b, e) <==> Proposes(a, e) && CanPass(Elems(a), e)
  {
    hide WellIdentified, Proposes, Accepts, IndexOf, Tilted, Elems, CanPass;
    AcceptsMeans(b, e);
    SameProposals(a, b, e);
    if Proposes(b, e) {
      ProposesEndpoints(b, e);
      WeakTargetAdmits(Elems(a), IndexOf(b), e);
    }
  }

  /** An unsettled claim stands in one order and is retired in another. */
  lemma UnsettledDiffers(a: seq<Item>, x: Item) returns (p: seq<Item>, q: seq<Item>)
    requires WellIdentified(Elems(a)) && !x.Marked() && !Settled(a, x.id)
    requires forall b | multiset(b) == multiset(a) :: Acyclic(b)
    ensures multiset(p) == multiset(a) == multiset(q) && Keeps(p, x) && !Keeps(q, x)
  {
    hide WellIdentified, Proposes, Accepts, Keeps, AlwaysPasses, CanPass, Acyclic, Elems, IndexOf, Tilted;
    p := TiltedOrder(a, x.id, true);
    q := TiltedOrder(a, x.id, false);
    KeptIffNoEdge(p, x);
    KeptIffNoEdge(q, x);
    forall y ensures !Accepts(p, (y, x.id)) { StrongAccepts(a, p, (y, x.id)); }
    var y :| Proposes(a, (y, x.id)) && CanPass(Elems(a), (y, x.id));
    WeakAccepts(a, q, (y, x.id));
  }

  /**
   The exact condition for the claims of a whole kind: every order is free of cycles
   and keeps the same claims exactly when the proposals form no cycle at any rank and
   each claim not marked superseded has a proposal against it that every two copies
   let pass, or none that any two do.
   */
  lemma OrderNeverDecidesIff(a: seq<Item>)
    requires WellIdentified(Elems(a))
    ensures (forall b | multiset(b) == multiset(a) :: Steady(a, b)) <==> CycleFree(a) && AllSettled(a)
  {
    hide WellIdentified, Acyclic, Keeps, CycleFree, Settled;
    NeverCyclicIff(a);
    if CycleFree(a) && AllSettled(a) {
      forall b | multiset(b) == multiset(a) ensures Steady(a, b) { AllSettledIsSame(a, b); }
    }
    if forall b | multiset(b) == multiset(a) :: Steady(a, b) {
      forall b | multiset(b) == multiset(a) ensures Acyclic(b) { assert Steady(a, b); }
    }
    if CycleFree(a) && !AllSettled(a) {
      var x :| x in a && !x.Marked() && !Settled(a, x.id);
      var p, q := UnsettledDiffers(a, x);
      assert Steady(a, p) && Steady(a, q) ==> (Keeps(p, x) <==> Keeps(q, x));
    }
  }

  lemma AllSettledIsSame(a: seq<Item>, b: seq<Item>)
    requires WellIdentified(Elems(a)) && multiset(b) == multiset(a) && Acyclic(a) && Acyclic(b) && AllSettled(a)
    ensures SameSurvivors(a, b)
  {
    hide WellIdentified, Acyclic, Keeps, Settled;
    SameMultisetSameElems(a, b);
    forall x | x in a ensures Keeps(a, x) <==> Keeps(b, x) {
      if x.Marked() { MarkedIsNotKept(a, x); MarkedIsNotKept(b, x); } else { SettledIsSame(a, b, x); }
    }
  }

  lemma MarkedIsNotKept(a: seq<Item>, x: Item)
    requires x.Marked()
    ensures !Keeps(a, x)
  {
  }

  /** Normalising neither makes nor breaks a cycle, and keeps the same claims. */
  lemma NormalisingKeepsStanding(a: seq<Item>)
    requires WellIdentified(Elems(a))
    ensures Acyclic(Normalised(a)) <==> Acyclic(a)
    ensures forall x :: x in Normalised(a) <==> x in a
    ensures forall x :: Keeps(Normalised(a), x) <==> Keeps(a, x)
  {
    hide WellIdentified, Normalised, IndexOf, Survives, Cyclic;
    SortKeepsIndex(a);
    forall x ensures x in Normalised(a) <==> x in a {
      assert x in Elems(Normalised(a)) <==> x in Elems(a);
    }
    forall x ensures CycleIn(Normalised(a), x) <==> CycleIn(a, x) { }
    forall x ensures Keeps(Normalised(a), x) <==> Keeps(a, x) { }
  }

  /** The same condition decides it for the claims as the compiler normalises them. */
  lemma SnapshotNeverDecidesIff(a: seq<Item>)
    requires WellIdentified(Elems(a))
    ensures (forall b | multiset(b) == multiset(a) :: Steady(Normalised(a), Normalised(b))) <==>
      CycleFree(a) && AllSettled(a)
  {
    hide WellIdentified, Acyclic, Keeps, CycleFree, AllSettled, Normalised;
    OrderNeverDecidesIff(a);
    NormalisingKeepsStanding(a);
    forall b | multiset(b) == multiset(a)
      ensures Steady(Normalised(a), Normalised(b)) <==> Steady(a, b) {
      SameMultisetSameElems(a, b);
      NormalisingKeepsStanding(b);
    }
  }
}
