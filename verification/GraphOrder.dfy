/**
 Which topological order the canonical sort returns. Nodes come in the order their
 last predecessor does, those it frees together by id; that fixes the order, so it
 does not depend on how nodes or edges are listed.
 */
module GraphOrder {
  import opened Base
  import opened Reachability
  import opened ExecutionGraph

  /** How many nodes of `order` have passed when the last predecessor of `v` among them has; 0 if it has none. */
  function Freeing(edges: seq<Edge>, order: seq<string>, v: string): (n: nat)
    ensures n <= |order|
  {
    if order == [] then 0
    else if Edge(order[|order| - 1], v) in edges then |order|
    else Freeing(edges, order[..|order| - 1], v)
  }

  /** `a` is freed before `b`, or with it and has the lower id. */
  ghost predicate FreedBefore(edges: seq<Edge>, done: seq<string>, a: string, b: string)
  {
    || Freeing(edges, done, a) < Freeing(edges, done, b)
    || (Freeing(edges, done, a) == Freeing(edges, done, b) && TextBelow(a, b))
  }

  ghost predicate Canonical(edges: seq<Edge>, order: seq<string>)
  {
    forall i, j | 0 <= i < j < |order| :: FreedBefore(edges, order, order[i], order[j])
  }

  // ---- the sort keeps to it ----------------------------------------------

  /** What is ordered and what is ready stand in the order they were freed. */
  ghost predicate Ranked(edges: seq<Edge>, w: Work)
  {
    forall i, j | 0 <= i < j < |w.ordered + w.ready| ::
      FreedBefore(edges, w.ordered, (w.ordered + w.ready)[i], (w.ordered + w.ready)[j])
  }

  lemma PrecedesIff(ids: seq<string>, edges: seq<Edge>, u: string, v: string)
    requires u in ids
    ensures Precedes(Outgoing(Elems(ids), edges), u, v) <==> Edge(u, v) in edges
  {
    if Edge(u, v) in edges { assert v in TargetsOf(u, edges); }
  }

  lemma FreeingSnoc(edges: seq<Edge>, done: seq<string>, node: string, v: string)
    ensures Freeing(edges, done + [node], v) == if Edge(node, v) in edges then |done| + 1 else Freeing(edges, done, v)
  {
    assert (done + [node])[..|done|] == done;
  }

  /** A node already freed has no predecessor still to come. */
  lemma FreedIsSettled(ids: seq<string>, edges: seq<Edge>, w: Work, v: string)
    requires Kept(Outgoing(Elems(ids), edges), w, w.ordered + w.ready) && w.ready != [] && v in w.ordered + w.ready
    ensures Edge(w.ready[0], v) !in edges
  {
    var out, first, node := Outgoing(Elems(ids), edges), w.ordered + w.ready, w.ready[0];
    assert first[|w.ordered|] == node && node in first;
    assert node in out && node in ids;
    assert node !in w.ordered by {
      forall k | 0 <= k < |w.ordered| ensures w.ordered[k] != node { assert first[k] == w.ordered[k]; }
    }
    PrecedesIff(ids, edges, node, v);
    forall u | Precedes(out, u, v) ensures u in w.ordered { PredecessorsDone(out, w, first, u, v); }
  }

  lemma PredecessorsDone(out: Graph, w: Work, first: seq<string>, u: string, v: string)
    requires Kept(out, w, first) && v in first && Precedes(out, u, v)
    ensures u in w.ordered
  {
    assert v in out && w.incoming[v] == {};
    assert u in w.incoming[v] <==> u !in w.ordered;
  }

  lemma NewlyFreed(ids: seq<string>, edges: seq<Edge>, w: Work, m: string)
    requires Kept(Outgoing(Elems(ids), edges), w, w.ordered + w.ready) && w.ready != []
    ensures w.ready[0] in Outgoing(Elems(ids), edges)
    ensures m in Freed(w.incoming, w.ready[0], SortedStrings(Outgoing(Elems(ids), edges)[w.ready[0]])) ==>
      Edge(w.ready[0], m) in edges
  {
    FreedAre(w, Outgoing(Elems(ids), edges), w.ordered + w.ready, m);
    PrecedesIff(ids, edges, w.ready[0], m);
  }

  lemma FreedAscending(incoming: map<string, set<string>>, node: string, targets: set<string>)
    ensures StrictlySorted(StrLt, Freed(incoming, node, SortedStrings(targets)))
  {
    SortedStringsSorted(targets);
    FilterSorted(StrLt, (m: string) => m in incoming && incoming[m] - {node} == {}, SortedStrings(targets));
  }

  lemma FirstFreed(ids: seq<string>, edges: seq<Edge>, w: Work)
    requires Kept(Outgoing(Elems(ids), edges), w, w.ordered + w.ready) && w.ready != []
    ensures var node, out := w.ready[0], Outgoing(Elems(ids), edges);
      && node in out && Next(w, out).ordered == w.ordered + [node]
      && Next(w, out).ordered + Next(w, out).ready ==
         (w.ordered + w.ready) + Freed(w.incoming, node, SortedStrings(out[node]))
  {
    hide Freed, Discard, Kept;
    NodeKnown(ids, edges, w);
    assert w.ready == [w.ready[0]] + w.ready[1..];
  }

  lemma NodeKnown(ids: seq<string>, edges: seq<Edge>, w: Work)
    requires Kept(Outgoing(Elems(ids), edges), w, w.ordered + w.ready) && w.ready != []
    ensures w.ready[0] in Outgoing(Elems(ids), edges)
  {
    assert (w.ordered + w.ready)[|w.ordered|] == w.ready[0];
  }

  lemma RankedNext(ids: seq<string>, edges: seq<Edge>, w: Work)
    requires Kept(Outgoing(Elems(ids), edges), w, w.ordered + w.ready) && w.ready != [] && Ranked(edges, w)
    ensures w.ready[0] in Outgoing(Elems(ids), edges) && Ranked(edges, Next(w, Outgoing(Elems(ids), edges)))
  {
    FirstFreed(ids, edges, w);
    var out, node, first := Outgoing(Elems(ids), edges), w.ready[0], w.ordered + w.ready;
    var freed := Freed(w.incoming, node, SortedStrings(out[node]));
    var x := Next(w, out);
    FreedAscending(w.incoming, node, out[node]);
    forall v | v in first ensures Freeing(edges, x.ordered, v) == Freeing(edges, w.ordered, v) {
      FreedIsSettled(ids, edges, w, v);
      FreeingSnoc(edges, w.ordered, node, v);
    }
    forall v | v in freed ensures Freeing(edges, x.ordered, v) == |w.ordered| + 1 {
      NewlyFreed(ids, edges, w, v);
      FreeingSnoc(edges, w.ordered, node, v);
    }
    forall a, b: string ensures StrLt(a, b) <==> TextBelow(a, b) { StrLtIff(a, b); }
    hide Freed, Kept, Freeing, Outgoing, StrLt, TextBelow, Next;
    RankedJoin(edges, w.ordered, x.ordered, first, freed);
    assert x.ordered + x.ready == first + freed;
  }

  lemma RankedJoin(edges: seq<Edge>, done: seq<string>, after: seq<string>, first: seq<string>, freed: seq<string>)
    requires forall i, j | 0 <= i < j < |first| :: FreedBefore(edges, done, first[i], first[j])
    requires forall v | v in first :: Freeing(edges, after, v) == Freeing(edges, done, v)
    requires forall v | v in freed :: Freeing(edges, after, v) == |done| + 1
    requires forall i, j | 0 <= i < j < |freed| :: TextBelow(freed[i], freed[j])
    ensures forall i, j | 0 <= i < j < |first + freed| ::
      FreedBefore(edges, after, (first + freed)[i], (first + freed)[j])
  {
    var all := first + freed;
    hide TextBelow;
    forall i, j | 0 <= i < j < |all| ensures FreedBefore(edges, after, all[i], all[j]) {
      if j < |first| {
        assert all[i] == first[i] && all[j] == first[j];
      } else if i < |first| {
        assert all[i] in first && all[j] == freed[j - |first|];
      } else {
        assert all[i] == freed[i - |first|] && all[j] == freed[j - |first|];
      }
    }
  }

  lemma {:induction false} RankedRun(ids: seq<string>, edges: seq<Edge>, run: seq<Work>, k: nat)
    requires IsRun(Outgoing(Elems(ids), edges), run) && k < |run| && Ranked(edges, run[0])
    requires Kept(Outgoing(Elems(ids), edges), run[0], run[0].ordered + run[0].ready)
    ensures Ranked(edges, run[k])
  {
    if k > 0 {
      hide Kept, Ranked, Outgoing;
      RankedRun(ids, edges, run, k - 1);
      DistinctRun(Outgoing(Elems(ids), edges), run, k - 1);
      assert IsNext(Outgoing(Elems(ids), edges), run[k - 1], run[k - 1 + 1]);
      RankedNext(ids, edges, run[k - 1]);
    }
  }

  lemma StartRanked(ids: seq<string>, edges: seq<Edge>)
    requires NoDup(ids)
    ensures Ranked(edges, Start(ids, edges, SourcesSorted(ids, edges)))
    ensures NoDup(SourcesSorted(ids, edges)) && Sources(ids, edges, SourcesSorted(ids, edges))
  {
    SortedSources(ids, edges);
    SortedSourcesDistinct(ids, edges);
    var ready := SourcesListed(ids, edges);
    ListedSources(ids, edges);
    StrLtOrders(Elems(ready));
    SortSorted(StrLt, ready);
    var w := Start(ids, edges, SourcesSorted(ids, edges));
    assert w.ordered + w.ready == Sort(StrLt, ready);
    forall a, b: string ensures StrLt(a, b) <==> TextBelow(a, b) { StrLtIff(a, b); }
    hide StrLt, TextBelow, Sort, SourcesSorted, SourcesListed;
  }

  /** The canonical sort returns its nodes as they are freed, and those freed together by id. */
  lemma SortIsCanonical(ids: seq<string>, edges: seq<Edge>, ordered: seq<string>)
    requires NoDup(ids) && EndpointsExist(ids, edges) && SortsTo(ids, edges, ordered)
    ensures Canonical(edges, ordered)
  {
    hide Outgoing, Incoming, Sources, SourcesSorted, NoDup, Ranked, Kept;
    var out, ready := Outgoing(Elems(ids), edges), SourcesSorted(ids, edges);
    var run: seq<Work> :| IsRun(out, run) && run[0] == Work(Incoming(Elems(ids), edges), ready, [])
      && run[|run| - 1].ready == [] && run[|run| - 1].ordered == ordered;
    StartRanked(ids, edges);
    assert [] + ready == ready;
    StartKept(ids, edges, ready, ready);
    RankedRun(ids, edges, run, |run| - 1);
    RankedEnd(edges, run[|run| - 1]);
  }

  lemma RankedEnd(edges: seq<Edge>, w: Work)
    requires Ranked(edges, w) && w.ready == []
    ensures Canonical(edges, w.ordered)
  {
    assert w.ordered + w.ready == w.ordered;
  }

  // ---- there is one such order -------------------------------------------

  /** Every edge goes forward. */
  ghost predicate GoesForward(edges: seq<Edge>, order: seq<string>)
  {
    forall i, j | 0 <= i < |order| && 0 <= j < |order| && Edge(order[i], order[j]) in edges :: i < j
  }

  /** Nodes from `k` on do not precede one that stands before or at them. */
  lemma {:induction false} FreeingOfPrefix(edges: seq<Edge>, order: seq<string>, k: nat, v: string)
    requires k <= |order| && forall i | k <= i < |order| :: Edge(order[i], v) !in edges
    ensures Freeing(edges, order, v) == Freeing(edges, order[..k], v)
  {
    if k == |order| {
      assert order[..k] == order;
    } else {
      var init := order[..|order| - 1];
      assert order[..k] == init[..k];
      forall i | k <= i < |init| ensures Edge(init[i], v) !in edges { assert init[i] == order[i]; }
      FreeingOfPrefix(edges, init, k, v);
    }
  }

  lemma AtPlace(edges: seq<Edge>, order: seq<string>, k: nat)
    requires k < |order| && GoesForward(edges, order)
    ensures Freeing(edges, order, order[k]) == Freeing(edges, order[..k], order[k])
  {
    FreeingOfPrefix(edges, order, k, order[k]);
  }

  lemma CancelLeft<T>(p: multiset<T>, x: multiset<T>, y: multiset<T>)
    requires p + x == p + y
    ensures x == y
  {
    assert x == (p + x) - p && y == (p + y) - p;
  }

  lemma SameTails(a: seq<string>, b: seq<string>, k: nat)
    requires multiset(a) == multiset(b) && k <= |a| && k <= |b| && a[..k] == b[..k]
    ensures multiset(a[k..]) == multiset(b[k..])
  {
    assert a == a[..k] + a[k..] && b == b[..k] + b[k..];
    CancelLeft(multiset(a[..k]), multiset(a[k..]), multiset(b[k..]));
  }

  /** Where `b` first differs from `a`, what stands there in `a` is freed by what they share. */
  lemma SharedFreeing(edges: seq<Edge>, a: seq<string>, b: seq<string>, k: nat, j: nat)
    requires k <= j < |b| && k < |a| && a[..k] == b[..k] && a[k] == b[j]
    requires GoesForward(edges, a) && GoesForward(edges, b) && |a| == |b| && multiset(a) == multiset(b)
    ensures Freeing(edges, b, b[j]) == Freeing(edges, a, a[k])
  {
    AtPlace(edges, a, k);
    SameTails(a, b, k);
    forall i | k <= i < |b| ensures Edge(b[i], b[j]) !in edges {
      assert b[k..][i - k] == b[i] && b[i] in multiset(b[k..]);
      assert b[i] in a[k..];
      var n :| 0 <= n < |a[k..]| && a[k..][n] == b[i];
      assert a[k + n] == b[i];
    }
    FreeingOfPrefix(edges, b, k, b[j]);
  }

  lemma FoundLater(a: seq<string>, b: seq<string>, k: nat) returns (j: nat)
    requires multiset(a) == multiset(b) && k < |a| && |a| == |b| && a[..k] == b[..k] && a[k] != b[k]
    ensures k < j < |b| && b[j] == a[k]
  {
    SameTails(a, b, k);
    assert a[k..][0] == a[k] && a[k] in multiset(a[k..]);
    assert a[k] in b[k..];
    var n :| 0 <= n < |b[k..]| && b[k..][n] == a[k];
    j := k + n;
  }

  lemma NotAlsoBefore(edges: seq<Edge>, p: seq<string>, q: seq<string>, x: string, y: string)
    requires FreedBefore(edges, p, x, y)
    requires Freeing(edges, p, x) == Freeing(edges, q, x) && Freeing(edges, p, y) == Freeing(edges, q, y)
    ensures !FreedBefore(edges, q, y, x)
  {
    StrLtIff(x, y);
    StrLtIff(y, x);
    StrLtIrreflexive(x);
    if StrLt(x, y) && StrLt(y, x) { StrLtTransitive(x, y, x); }
  }

  /** Two canonical orders of the same nodes are one. */
  lemma {:induction false} OneCanonicalOrder(edges: seq<Edge>, a: seq<string>, b: seq<string>, k: nat)
    requires multiset(a) == multiset(b) && GoesForward(edges, a) && GoesForward(edges, b)
    requires Canonical(edges, a) && Canonical(edges, b) && |a| == |b| && k <= |a| && a[..k] == b[..k]
    ensures a == b
    decreases |a| - k
  {
    if k == |a| {
      assert a[..k] == a && b[..k] == b;
    } else if a[k] == b[k] {
      assert a[..k + 1] == a[..k] + [a[k]] && b[..k + 1] == b[..k] + [b[k]];
      OneCanonicalOrder(edges, a, b, k + 1);
    } else {
      var j := FoundLater(a, b, k);
      var i := FoundLater(b, a, k);
      SharedFreeing(edges, a, b, k, j);
      SharedFreeing(edges, b, a, k, i);
      assert FreedBefore(edges, a, a[k], a[i]) && FreedBefore(edges, b, b[k], b[j]);
      NotAlsoBefore(edges, a, b, a[k], b[k]);
    }
  }

  lemma TopologicalGoesForward(ids: seq<string>, edges: seq<Edge>, order: seq<string>)
    requires IsTopological(ids, edges, order)
    ensures GoesForward(edges, order)
  {
  }

  /**
   What the canonical sort returns is determined: of the orders of the nodes in which
   every edge goes forward, the one whose nodes come as they are freed, by id when
   freed together. So listing nodes or edges otherwise returns the same order.
   */
  lemma CanonicalOrderIff(ids: seq<string>, edges: seq<Edge>, ordered: seq<string>, order: seq<string>)
    requires NoDup(ids) && EndpointsExist(ids, edges) && SortsTo(ids, edges, ordered) && |ordered| == |ids|
    ensures order == ordered <==> IsTopological(ids, edges, order) && Canonical(edges, order)
  {
    hide EndpointsExist, SortsTo, IsTopological, Canonical, GoesForward;
    OrderedIsTopological(ids, edges, ordered);
    SortIsCanonical(ids, edges, ordered);
    if IsTopological(ids, edges, order) && Canonical(edges, order) {
      TopologicalGoesForward(ids, edges, order);
      TopologicalGoesForward(ids, edges, ordered);
      SameNodes(ids, edges, order, ordered);
      OneCanonicalOrder(edges, order, ordered, 0);
    }
  }

  lemma SameNodes(ids: seq<string>, edges: seq<Edge>, a: seq<string>, b: seq<string>)
    requires IsTopological(ids, edges, a) && IsTopological(ids, edges, b)
    ensures multiset(a) == multiset(b) && |a| == |b|
  {
    assert |multiset(a)| == |multiset(b)|;
  }

  lemma OrderedIsTopological(ids: seq<string>, edges: seq<Edge>, ordered: seq<string>)
    requires NoDup(ids) && EndpointsExist(ids, edges) && SortsTo(ids, edges, ordered) && |ordered| == |ids|
    ensures IsTopological(ids, edges, ordered)
  {
    hide Drains, Sources, SourcesSorted, Outgoing, IsTopological, EndpointsExist;
    SortedSources(ids, edges);
    SortedSourcesDistinct(ids, edges);
    OutcomeDecides(ids, edges, SourcesSorted(ids, edges), ordered);
  }

  /** Nodes and edges listed in another order are sorted to the same list. */
  lemma SortForgetsListing(ids: seq<string>, edges: seq<Edge>, a: seq<string>, ids': seq<string>, edges': seq<Edge>,
                           b: seq<string>)
    requires NoDup(ids) && EndpointsExist(ids, edges) && SortsTo(ids, edges, a) && |a| == |ids|
    requires NoDup(ids') && EndpointsExist(ids', edges') && SortsTo(ids', edges', b) && |b| == |ids'|
    requires multiset(ids) == multiset(ids') && Elems(edges) == Elems(edges')
    ensures a == b
  {
    hide SortsTo, EndpointsExist, GoesForward;
    OrderedIsTopological(ids, edges, a);
    OrderedIsTopological(ids', edges', b);
    SortIsCanonical(ids, edges, a);
    SortIsCanonical(ids', edges', b);
    forall e ensures e in edges <==> e in edges' { assert e in Elems(edges) <==> e in Elems(edges'); }
    assert IsTopological(ids, edges, b);
    TopologicalGoesForward(ids, edges, a);
    TopologicalGoesForward(ids, edges, b);
    forall order, v ensures Freeing(edges, order, v) == Freeing(edges', order, v) {
      SameFreeing(edges, edges', order, v);
    }
    assert Canonical(edges, b);
    hide IsTopological, Canonical;
    SameNodes(ids, edges, a, b);
    OneCanonicalOrder(edges, a, b, 0);
  }

  lemma {:induction false} SameFreeing(edges: seq<Edge>, edges': seq<Edge>, order: seq<string>, v: string)
    requires forall e :: e in edges <==> e in edges'
    ensures Freeing(edges, order, v) == Freeing(edges', order, v)
  {
    if order != [] { SameFreeing(edges, edges', order[..|order| - 1], v); }
  }
}
