/**
 Execution graphs: two topological sorts written apart, the validator over a
 serialised graph, and the graph derived from a contract's steps.
 */
module ExecutionGraph {
  import opened Base
  import opened Reachability

  datatype Edge = Edge(from: string, to: string)

  datatype GraphError =
    | MissingNode(edge: Edge) | CycleDetected | NoSteps | DuplicateStep(id: string) | OrderDiverged

  function TargetsOf(i: string, edges: seq<Edge>): set<string> { set e | e in edges && e.from == i :: e.to }

  function SourcesOf(i: string, edges: seq<Edge>): set<string> { set e | e in edges && e.to == i :: e.from }

  function Outgoing(ids: set<string>, edges: seq<Edge>): Graph
  {
    map i | i in ids :: TargetsOf(i, edges)
  }

  function Incoming(ids: set<string>, edges: seq<Edge>): map<string, set<string>>
  {
    map i | i in ids :: SourcesOf(i, edges)
  }

  predicate EndpointsExist(ids: seq<string>, edges: seq<Edge>)
  {
    forall e | e in edges :: e.from in ids && e.to in ids
  }

  ghost predicate Acyclic(g: Graph) { forall n :: !OnCycle(g, n) }

  // ---- the work list as a value ------------------------------------------

  datatype Work = Work(incoming: map<string, set<string>>, ready: seq<string>, ordered: seq<string>)

  /** `incoming` once `node` no longer precedes any of `targets`. */
  function Discard(incoming: map<string, set<string>>, node: string, targets: set<string>): map<string, set<string>>
  {
    map m | m in incoming :: if m in targets then incoming[m] - {node} else incoming[m]
  }

  /** The successors of `node` that nothing else precedes, in the given order. */
  function Freed(incoming: map<string, set<string>>, node: string, succs: seq<string>): seq<string>
  {
    Filter((m: string) => m in incoming && incoming[m] - {node} == {}, succs)
  }

  function Next(w: Work, out: Graph): Work
    requires w.ready != [] && w.ready[0] in out
  {
    var node := w.ready[0];
    Work(Discard(w.incoming, node, out[node]),
         w.ready[1..] + Freed(w.incoming, node, SortedStrings(out[node])),
         w.ordered + [node])
  }

  ghost predicate IsRun(out: Graph, run: seq<Work>)
  {
    run != [] && forall k | 0 <= k < |run| - 1 :: IsNext(out, run[k], run[k + 1])
  }

  ghost predicate IsNext(out: Graph, w: Work, x: Work)
  {
    w.ready != [] && w.ready[0] in out && x == Next(w, out)
  }

  /** Working the list down from `ready` leaves `ordered`. */
  ghost predicate Drains(ids: set<string>, edges: seq<Edge>, ready: seq<string>, ordered: seq<string>)
  {
    exists run: seq<Work> :: IsRun(Outgoing(ids, edges), run) && run[0] == Work(Incoming(ids, edges), ready, [])
      && run[|run| - 1].ready == [] && run[|run| - 1].ordered == ordered
  }

  lemma {:induction false} RunsAgree(out: Graph, a: seq<Work>, b: seq<Work>)
    requires IsRun(out, a) && IsRun(out, b) && a[0] == b[0]
    requires a[|a| - 1].ready == [] && b[|b| - 1].ready == []
    ensures a[|a| - 1] == b[|b| - 1]
  {
    assert |a| > 1 ==> IsNext(out, a[0], a[0 + 1]);
    assert |b| > 1 ==> IsNext(out, b[0], b[0 + 1]);
    if |a| > 1 && |b| > 1 {
      forall k | 0 <= k < |a| - 2 ensures IsNext(out, a[1..][k], a[1..][k + 1]) {
        assert IsNext(out, a[k + 1], a[k + 1 + 1]);
      }
      forall k | 0 <= k < |b| - 2 ensures IsNext(out, b[1..][k], b[1..][k + 1]) {
        assert IsNext(out, b[k + 1], b[k + 1 + 1]);
      }
      RunsAgree(out, a[1..], b[1..]);
    }
  }

  /** The order depends only on the graph and the list the work starts from. */
  lemma DrainsOneWay(ids: set<string>, edges: seq<Edge>, ready: seq<string>, a: seq<string>, b: seq<string>)
    requires Drains(ids, edges, ready, a) && Drains(ids, edges, ready, b)
    ensures a == b
  {
    hide Outgoing, Incoming;
    var out := Outgoing(ids, edges);
    var p: seq<Work> :| IsRun(out, p) && p[0] == Work(Incoming(ids, edges), ready, [])
      && p[|p| - 1].ready == [] && p[|p| - 1].ordered == a;
    var q: seq<Work> :| IsRun(out, q) && q[0] == Work(Incoming(ids, edges), ready, [])
      && q[|q| - 1].ready == [] && q[|q| - 1].ordered == b;
    RunsAgree(out, p, q);
  }

  // ---- what the work keeps -----------------------------------------------

  ghost predicate Precedes(out: Graph, u: string, v: string) { v in Succ(out, u) }

  /** Every predecessor of each node of `first` comes before it. */
  ghost predicate Forward(out: Graph, first: seq<string>)
  {
    forall j, u | 0 <= j < |first| && Precedes(out, u, first[j]) :: u in first[..j]
  }

  /** `first` lists the nodes ever freed, in the order they first were. */
  ghost predicate Kept(out: Graph, w: Work, first: seq<string>)
  {
    && w.incoming.Keys == out.Keys && (forall n | n in out :: out[n] <= out.Keys)
    && (forall v, u | v in out :: u in w.incoming[v] <==> Precedes(out, u, v) && u !in w.ordered)
    && NoDup(first) && (forall v :: v in first <==> v in w.ordered || v in w.ready)
    && (forall v :: v in first <==> v in out && w.incoming[v] == {})
    && Forward(out, first)
  }

  ghost function Added(first: seq<string>, freed: seq<string>): seq<string>
  {
    Filter((m: string) => m !in first, freed)
  }

  lemma FreedAre(w: Work, out: Graph, first: seq<string>, m: string)
    requires Kept(out, w, first) && w.ready != []
    ensures w.ready[0] in out
    ensures m in Freed(w.incoming, w.ready[0], SortedStrings(out[w.ready[0]])) <==>
      m in out[w.ready[0]] && w.incoming[m] - {w.ready[0]} == {}
  {
    assert w.ready[0] in w.ready && w.ready[0] in first;
    var node := w.ready[0];
    SortedStringsSorted(out[node]);
    assert m in SortedStrings(out[node]) <==> m in Elems(SortedStrings(out[node]));
  }

  lemma FreedDistinct(w: Work, out: Graph, first: seq<string>)
    requires Kept(out, w, first) && w.ready != []
    ensures w.ready[0] in out
    ensures NoDup(Freed(w.incoming, w.ready[0], SortedStrings(out[w.ready[0]])))
  {
    assert w.ready[0] in w.ready && w.ready[0] in first;
    SortedStringsSorted(out[w.ready[0]]);
  }

  lemma NextIncoming(out: Graph, w: Work, first: seq<string>)
    requires Kept(out, w, first) && w.ready != []
    ensures w.ready[0] in out
    ensures forall v, u | v in out ::
      u in Next(w, out).incoming[v] <==> Precedes(out, u, v) && u !in Next(w, out).ordered
  {
    assert w.ready[0] in w.ready && w.ready[0] in first;
  }

  lemma ForwardExtends(out: Graph, first: seq<string>, more: seq<string>, done: seq<string>)
    requires Forward(out, first) && forall u | u in done :: u in first
    requires forall v, u | v in more && Precedes(out, u, v) :: u in done
    ensures Forward(out, first + more)
  {
    var all := first + more;
    forall j, u | 0 <= j < |all| && Precedes(out, u, all[j]) ensures u in all[..j] {
      if j < |first| {
        assert all[j] == first[j] && all[..j] == first[..j];
      } else {
        assert all[j] in more;
        assert all[..j] == first + more[..j - |first|];
      }
    }
  }

  /** One step keeps the books, listing the nodes it newly freed. */
  lemma KeptNext(out: Graph, w: Work, first: seq<string>)
    requires Kept(out, w, first) && w.ready != []
    ensures w.ready[0] in out
    ensures Kept(out, Next(w, out), first + Added(first, Freed(w.incoming, w.ready[0], SortedStrings(out[w.ready[0]]))))
  {
    assert w.ready[0] in w.ready && w.ready[0] in first;
    var node := w.ready[0];
    var freed := Freed(w.incoming, node, SortedStrings(out[node]));
    var more, x := Added(first, freed), Next(w, out);
    FreedDistinct(w, out, first);
    NextIncoming(out, w, first);
    forall m ensures m in freed <==> m in out[node] && w.incoming[m] - {node} == {} { FreedAre(w, out, first, m); }
    NoDupConcat(first, more);
    MoreFreed(out, w, first, freed);
    KeptLists(out, w, first, freed);
    ForwardExtends(out, first, more, x.ordered);
  }

  lemma MoreFreed(out: Graph, w: Work, first: seq<string>, freed: seq<string>)
    requires Kept(out, w, first) && w.ready != [] && w.ready[0] in out
    requires forall m :: m in freed <==> m in out[w.ready[0]] && w.incoming[m] - {w.ready[0]} == {}
    ensures forall v, u | v in freed && Precedes(out, u, v) :: u in w.ordered + [w.ready[0]]
    ensures forall v :: v in first + Added(first, freed) <==> v in out && Next(w, out).incoming[v] == {}
  {
    var x, node := Next(w, out), w.ready[0];
    forall v | v in out ensures x.incoming[v] == {} <==> v in first || v in freed {
      if v in out[node] {
        assert x.incoming[v] == w.incoming[v] - {node};
      }
    }
    forall v, u | v in freed && Precedes(out, u, v) ensures u in w.ordered + [node] {
      assert v in out;
      if u !in w.ordered { assert u in w.incoming[v]; }
    }
  }

  lemma KeptLists(out: Graph, w: Work, first: seq<string>, freed: seq<string>)
    requires w.ready != [] && w.ready[0] in out && (forall v :: v in first <==> v in w.ordered || v in w.ready)
    requires freed == Freed(w.incoming, w.ready[0], SortedStrings(out[w.ready[0]]))
    ensures forall v :: v in first + Added(first, freed) <==> v in Next(w, out).ordered || v in Next(w, out).ready
  {
    assert w.ready == [w.ready[0]] + w.ready[1..];
  }

  // ---- the work ends -----------------------------------------------------

  function Power(b: nat, k: nat): nat { if k == 0 then 1 else b * Power(b, k - 1) }

  lemma {:induction false} PowerGrows(b: nat, j: nat, k: nat)
    requires b >= 1 && j <= k
    ensures 1 <= Power(b, j) <= Power(b, k)
    decreases k
  {
    if k > 0 {
      PowerGrows(b, if j < k then j else k - 1, k - 1);
      TimesAtLeast(b, Power(b, k - 1));
    }
  }

  lemma TimesAtLeast(b: nat, q: nat)
    requires b >= 1
    ensures b * q >= q
  {
  }

  /** The work `ready` can still cause: a node frees only nodes that were first freed after it. */
  ghost function Weight(first: seq<string>, ready: seq<string>, n: nat): nat
    requires |first| <= n && forall x | x in ready :: x in first
  {
    if ready == [] then 0
    else Power(n + 1, n - Pos(first, ready[0])) + Weight(first, ready[1..], n)
  }

  lemma {:induction false} WeightConcat(first: seq<string>, a: seq<string>, b: seq<string>, n: nat)
    requires |first| <= n && forall x | x in a + b :: x in first
    ensures forall x | x in a :: x in a + b
    ensures forall x | x in b :: x in a + b
    ensures Weight(first, a + b, n) == Weight(first, a, n) + Weight(first, b, n)
  {
    if a == [] {
      assert a + b == b;
    } else {
      assert (a + b)[0] == a[0] && (a + b)[1..] == a[1..] + b;
      WeightConcat(first, a[1..], b, n);
    }
  }

  lemma {:induction false} PosKept(first: seq<string>, more: seq<string>, x: string)
    requires x in first
    ensures Pos(first + more, x) == Pos(first, x)
  {
    assert (first + more)[0] == first[0];
    if first[0] != x {
      assert (first + more)[1..] == first[1..] + more;
      assert first == [first[0]] + first[1..];
      PosKept(first[1..], more, x);
    }
  }

  lemma {:induction false} WeightKept(first: seq<string>, more: seq<string>, ready: seq<string>, n: nat)
    requires |first + more| <= n && forall x | x in ready :: x in first
    ensures Weight(first + more, ready, n) == Weight(first, ready, n)
  {
    if ready != [] {
      PosKept(first, more, ready[0]);
      WeightKept(first, more, ready[1..], n);
    }
  }

  lemma {:induction false} WeightBound(first: seq<string>, xs: seq<string>, n: nat, p: nat)
    requires |first| <= n && p < n && forall x | x in xs :: x in first && Pos(first, x) > p
    ensures Weight(first, xs, n) <= |xs| * Power(n + 1, n - p - 1)
  {
    if xs != [] {
      hide Power;
      assert xs[0] in xs;
      var q := Power(n + 1, n - p - 1);
      PowerGrows(n + 1, n - Pos(first, xs[0]), n - p - 1);
      WeightBound(first, xs[1..], n, p);
      OneMoreProduct(|xs| - 1, q);
    }
  }

  lemma OneMoreProduct(a: nat, q: nat)
    ensures (a + 1) * q == q + a * q
  {
  }

  lemma SizeWithin(xs: seq<string>, s: set<string>)
    requires NoDup(xs) && forall x | x in xs :: x in s
    ensures |xs| <= |s|
  {
    NoDupCard(xs);
    assert Elems(xs) <= s;
    SubsetCard(Elems(xs), s);
  }

  lemma KeptBounded(out: Graph, w: Work, first: seq<string>)
    requires Kept(out, w, first)
    ensures |first| <= |out| && forall x | x in w.ready :: x in first
  {
    SizeWithin(first, out.Keys);
  }

  /** Every step spends more weight than it adds, duplicates or not. */
  lemma WeightDrops(out: Graph, w: Work, first: seq<string>, longer: seq<string>, freed: seq<string>)
    requires Kept(out, w, first) && w.ready != [] && w.ready[0] in out
    requires freed == Freed(w.incoming, w.ready[0], SortedStrings(out[w.ready[0]]))
    requires longer == first + Added(first, freed) && Kept(out, Next(w, out), longer)
    ensures |first| <= |out| && |longer| <= |out|
    ensures (forall x | x in w.ready :: x in first) && (forall x | x in Next(w, out).ready :: x in longer)
    ensures Weight(longer, Next(w, out).ready, |out|) < Weight(first, w.ready, |out|)
  {
    hide Kept, Weight, Power, Added, Freed, Pos;
    var n, node, rest := |out|, w.ready[0], w.ready[1..];
    KeptBounded(out, w, first);
    KeptBounded(out, Next(w, out), longer);
    assert w.ready == [node] + rest;
    assert node in w.ready && forall x | x in rest :: x in w.ready;
    PosKept(first, Added(first, freed), node);
    forall m | m in freed ensures m in longer && Pos(longer, m) > Pos(longer, node) {
      assert m in Next(w, out).ready;
      FreedLater(out, w, first, longer, m);
    }
    FreedFew(out, w, first);
    WeightKept(first, Added(first, freed), rest, n);
    assert Next(w, out).ready == rest + freed;
    WeightConcat(longer, rest, freed, n);
    WeightSpent(first, longer, node, rest, freed, n);
  }

  lemma WeightSpent(first: seq<string>, longer: seq<string>, node: string, rest: seq<string>, freed: seq<string>,
      n: nat)
    requires |first| <= n && |longer| <= n && |freed| <= n
    requires node in first && (forall x | x in [node] + rest :: x in first)
    requires node in longer && Pos(longer, node) == Pos(first, node)
    requires forall m | m in freed :: m in longer && Pos(longer, m) > Pos(longer, node)
    ensures forall x | x in rest :: x in [node] + rest
    ensures Weight(longer, freed, n) + Weight(first, rest, n) < Weight(first, [node] + rest, n)
  {
    hide Pos, Power, Weight;
    var p := Pos(first, node);
    var q := Power(n + 1, n - p - 1);
    WeightBound(longer, freed, n, p);
    WeightHead(first, node, rest, n);
    PowerStep(n + 1, n - p);
    PowerGrows(n + 1, n - p - 1, n - p - 1);
    ProductBelow(|freed|, n, q);
    Spent(Weight(longer, freed, n), Weight(first, rest, n), Weight(first, [node] + rest, n), |freed| * q, (n + 1) * q);
  }

  lemma Spent(freed: nat, rest: nat, whole: nat, few: nat, node: nat)
    requires freed <= few < node && whole == node + rest
    ensures freed + rest < whole
  {
  }

  lemma WeightHead(first: seq<string>, node: string, rest: seq<string>, n: nat)
    requires |first| <= n && node in first && (forall x | x in [node] + rest :: x in first)
    ensures forall x | x in rest :: x in [node] + rest
    ensures Weight(first, [node] + rest, n) == Power(n + 1, n - Pos(first, node)) + Weight(first, rest, n)
  {
    assert ([node] + rest)[0] == node && ([node] + rest)[1..] == rest;
  }

  lemma PowerStep(b: nat, k: nat)
    requires k > 0
    ensures Power(b, k) == b * Power(b, k - 1)
  {
  }

  lemma ProductBelow(a: nat, n: nat, q: nat)
    requires a <= n && q >= 1
    ensures a * q < (n + 1) * q
  {
    assert (n + 1 - a) * q >= q;
  }

  lemma FreedFew(out: Graph, w: Work, first: seq<string>)
    requires Kept(out, w, first) && w.ready != []
    ensures w.ready[0] in out && |Freed(w.incoming, w.ready[0], SortedStrings(out[w.ready[0]]))| <= |out|
  {
    assert w.ready[0] in w.ready && w.ready[0] in first;
    var freed := Freed(w.incoming, w.ready[0], SortedStrings(out[w.ready[0]]));
    FreedDistinct(w, out, first);
    forall m | m in freed ensures m in out { FreedAre(w, out, first, m); }
    SizeWithin(freed, out.Keys);
  }

  lemma FreedLater(out: Graph, w: Work, first: seq<string>, longer: seq<string>, m: string)
    requires Kept(out, w, first) && w.ready != [] && w.ready[0] in out && w.ready[0] in longer
    requires m in Freed(w.incoming, w.ready[0], SortedStrings(out[w.ready[0]]))
    requires Kept(out, Next(w, out), longer) && m in longer
    ensures Pos(longer, m) > Pos(longer, w.ready[0])
  {
    FreedAre(w, out, first, m);
    assert Precedes(out, w.ready[0], longer[Pos(longer, m)]);
    assert w.ready[0] in longer[..Pos(longer, m)];
  }

  // ---- starting the work -------------------------------------------------

  /** `ready` lists the nodes nothing precedes. */
  ghost predicate Sources(ids: seq<string>, edges: seq<Edge>, ready: seq<string>)
  {
    forall v :: v in ready <==> v in ids && Incoming(Elems(ids), edges)[v] == {}
  }

  ghost function Start(ids: seq<string>, edges: seq<Edge>, ready: seq<string>): Work
  {
    Work(Incoming(Elems(ids), edges), ready, [])
  }

  lemma StartKept(ids: seq<string>, edges: seq<Edge>, ready: seq<string>, first: seq<string>)
    requires EndpointsExist(ids, edges) && Sources(ids, edges, ready)
    requires NoDup(first) && forall v :: v in first <==> v in ready
    ensures Kept(Outgoing(Elems(ids), edges), Start(ids, edges, ready), first)
  {
    var out, w := Outgoing(Elems(ids), edges), Start(ids, edges, ready);
    forall v, u | v in out ensures u in w.incoming[v] <==> Precedes(out, u, v) {
      if u in w.incoming[v] {
        var e :| e in edges && e.to == v && e.from == u;
      }
      if Precedes(out, u, v) {
        var e :| e in edges && e.from == u && e.to == v;
      }
    }
    forall n, x | n in out && x in out[n] ensures x in out.Keys {
      var e :| e in edges && e.from == n && e.to == x;
    }
    forall v ensures v in first <==> v in out && w.incoming[v] == {} {
      assert v in ids <==> v in Elems(ids);
    }
  }

  // ---- the two sorts -----------------------------------------------------

  /** The source's two dictionaries, or the first edge with a missing endpoint. */
  method BuildMaps(ids: seq<string>, edges: seq<Edge>)
    returns (r: Result<(map<string, set<string>>, Graph), GraphError>)
    ensures r.Ok? <==> EndpointsExist(ids, edges)
    ensures r.Ok? ==> r.value == (Incoming(Elems(ids), edges), Outgoing(Elems(ids), edges))
    ensures r.Err? ==> r.error.MissingNode? && r.error.edge in edges
                       && (r.error.edge.from !in ids || r.error.edge.to !in ids)
  {
    var incoming, outgoing := Incoming(Elems(ids), []), Outgoing(Elems(ids), []);
    for k := 0 to |edges|
      invariant incoming == Incoming(Elems(ids), edges[..k]) && outgoing == Outgoing(Elems(ids), edges[..k])
      invariant EndpointsExist(ids, edges[..k])
    {
      var e := edges[k];
      assert edges[..k + 1] == edges[..k] + [e];
      if e.from !in incoming || e.to !in incoming {
        return Err(MissingNode(e));
      }
      outgoing := outgoing[e.from := outgoing[e.from] + {e.to}];
      incoming := incoming[e.to := incoming[e.to] + {e.from}];
      MoreEdges(Elems(ids), edges, k);
    }
    assert edges[..|edges|] == edges;
    r := Ok((incoming, outgoing));
  }

  lemma MoreEdges(ids: set<string>, edges: seq<Edge>, k: nat)
    requires k < |edges| && edges[k].from in ids && edges[k].to in ids
    ensures Outgoing(ids, edges[..k + 1]) ==
      Outgoing(ids, edges[..k])[edges[k].from := Outgoing(ids, edges[..k])[edges[k].from] + {edges[k].to}]
    ensures Incoming(ids, edges[..k + 1]) ==
      Incoming(ids, edges[..k])[edges[k].to := Incoming(ids, edges[..k])[edges[k].to] + {edges[k].from}]
  {
    forall i
      ensures TargetsOf(i, edges[..k + 1]) ==
        (if i == edges[k].from then TargetsOf(i, edges[..k]) + {edges[k].to} else TargetsOf(i, edges[..k]))
      ensures SourcesOf(i, edges[..k + 1]) ==
        (if i == edges[k].to then SourcesOf(i, edges[..k]) + {edges[k].from} else SourcesOf(i, edges[..k])) {
      MoreOf(edges, k, i);
    }
    hide TargetsOf, SourcesOf;
  }

  lemma MoreOf(edges: seq<Edge>, k: nat, i: string)
    requires k < |edges|
    ensures TargetsOf(i, edges[..k + 1]) ==
      (if i == edges[k].from then TargetsOf(i, edges[..k]) + {edges[k].to} else TargetsOf(i, edges[..k]))
    ensures SourcesOf(i, edges[..k + 1]) ==
      (if i == edges[k].to then SourcesOf(i, edges[..k]) + {edges[k].from} else SourcesOf(i, edges[..k]))
  {
    assert edges[..k + 1] == edges[..k] + [edges[k]];
  }

  lemma ReleaseNone(node: string, incoming0: map<string, set<string>>)
    ensures Discard(incoming0, node, Elems([])) == incoming0 && Freed(incoming0, node, []) == []
  {
  }

  /** Discarding the node from one more successor. */
  lemma ReleaseOne(node: string, done: seq<string>, nxt: string, incoming0: map<string, set<string>>)
    requires nxt !in done && nxt in incoming0
    ensures Discard(incoming0, node, Elems(done + [nxt])) ==
      Discard(incoming0, node, Elems(done))[nxt := incoming0[nxt] - {node}]
    ensures nxt in Discard(incoming0, node, Elems(done))
    ensures Discard(incoming0, node, Elems(done))[nxt] == incoming0[nxt]
    ensures Freed(incoming0, node, done + [nxt]) ==
      Freed(incoming0, node, done) + (if incoming0[nxt] - {node} == {} then [nxt] else [])
  {
    ElemsSnoc(done, nxt);
    assert (done + [nxt])[..|done|] == done;
  }

  /** Discard a finished node from its successors, appending the ones it frees. */
  method Release(node: string, succs: seq<string>, incoming0: map<string, set<string>>, ready0: seq<string>)
    returns (incoming: map<string, set<string>>, ready: seq<string>)
    requires NoDup(succs) && forall m | m in succs :: m in incoming0
    ensures incoming == Discard(incoming0, node, Elems(succs))
    ensures ready == ready0 + Freed(incoming0, node, succs)
  {
    hide Discard, Freed;
    incoming, ready := incoming0, ready0;
    ReleaseNone(node, incoming0);
    for k := 0 to |succs|
      invariant incoming == Discard(incoming0, node, Elems(succs[..k]))
      invariant ready == ready0 + Freed(incoming0, node, succs[..k])
    {
      var nxt := succs[k];
      assert succs[..k + 1] == succs[..k] + [nxt];
      ReleaseOne(node, succs[..k], nxt, incoming0);
      incoming := incoming[nxt := incoming[nxt] - {node}];
      if incoming[nxt] == {} { ready := ready + [nxt]; }
    }
    assert succs[..|succs|] == succs;
  }

  lemma RunGrows(out: Graph, run: seq<Work>)
    requires IsRun(out, run) && run[|run| - 1].ready != [] && run[|run| - 1].ready[0] in out
    ensures IsRun(out, run + [Next(run[|run| - 1], out)])
  {
    var longer := run + [Next(run[|run| - 1], out)];
    forall k | 0 <= k < |longer| - 1 ensures IsNext(out, longer[k], longer[k + 1]) {
      if k < |run| - 1 { assert longer[k] == run[k] && longer[k + 1] == run[k + 1]; }
      else { assert longer[k] == run[|run| - 1]; }
    }
  }

  lemma NodeReady(out: Graph, w: Work, first: seq<string>)
    requires Kept(out, w, first) && w.ready != []
    ensures w.ready[0] in out && forall m | m in out[w.ready[0]] :: m in w.incoming
  {
    assert w.ready[0] in w.ready && w.ready[0] in first;
  }

  /** One turn of the loop: the run grows, the books are kept, the weight drops. */
  lemma WorkStep(out: Graph, w: Work, first: seq<string>, run: seq<Work>) returns (longer: seq<string>)
    requires Kept(out, w, first) && w.ready != [] && IsRun(out, run) && run[|run| - 1] == w
    requires |first| <= |out| && forall x | x in w.ready :: x in first
    ensures w.ready[0] in out && forall m | m in out[w.ready[0]] :: m in w.incoming
    ensures Kept(out, Next(w, out), longer) && IsRun(out, run + [Next(w, out)])
    ensures |longer| <= |out| && forall x | x in Next(w, out).ready :: x in longer
    ensures Weight(longer, Next(w, out).ready, |out|) < Weight(first, w.ready, |out|)
  {
    hide Kept, IsRun, Weight;
    NodeReady(out, w, first);
    var freed := Freed(w.incoming, w.ready[0], SortedStrings(out[w.ready[0]]));
    longer := first + Added(first, freed);
    KeptNext(out, w, first);
    WeightDrops(out, w, first, longer, freed);
    RunGrows(out, run);
  }

  lemma SuccessorsListed(out: Graph, node: string)
    requires node in out
    ensures NoDup(SortedStrings(out[node])) && Elems(SortedStrings(out[node])) == out[node]
    ensures forall m | m in SortedStrings(out[node]) :: m in out[node]
  {
    SortedStringsSorted(out[node]);
    assert forall m | m in SortedStrings(out[node]) :: m in Elems(SortedStrings(out[node]));
  }

  ghost function SourcesSorted(ids: seq<string>, edges: seq<Edge>): seq<string>
  {
    var incoming := Incoming(Elems(ids), edges);
    Sort(StrLt, Filter((i: string) => i in incoming && incoming[i] == {}, ids))
  }

  /** What the canonical sort leaves when its work list is empty. */
  ghost predicate SortsTo(ids: seq<string>, edges: seq<Edge>, ordered: seq<string>)
  {
    Drains(Elems(ids), edges, SourcesSorted(ids, edges), ordered)
  }

  lemma SortedSources(ids: seq<string>, edges: seq<Edge>)
    ensures Sources(ids, edges, SourcesSorted(ids, edges))
  {
    var incoming := Incoming(Elems(ids), edges);
    var ready := Filter((i: string) => i in incoming && incoming[i] == {}, ids);
    SameMultisetSameElems(Sort(StrLt, ready), ready);
    forall v ensures v in Sort(StrLt, ready) <==> v in ready {
      assert v in Elems(ready) <==> v in Elems(Sort(StrLt, ready));
    }
    forall v ensures v in ready <==> v in ids && incoming[v] == {} { assert v in ids <==> v in Elems(ids); }
  }

  lemma FirstLists(ready: seq<string>)
    ensures NoDup(SortedStrings(Elems(ready))) && forall v :: v in SortedStrings(Elems(ready)) <==> v in ready
  {
    SortedStringsSorted(Elems(ready));
    forall v ensures v in SortedStrings(Elems(ready)) <==> v in ready {
      assert v in SortedStrings(Elems(ready)) <==> v in Elems(SortedStrings(Elems(ready)));
    }
  }

  lemma Begin(ids: seq<string>, edges: seq<Edge>, ready: seq<string>) returns (first: seq<string>)
    requires EndpointsExist(ids, edges) && Sources(ids, edges, ready)
    ensures Kept(Outgoing(Elems(ids), edges), Start(ids, edges, ready), first)
    ensures |first| <= |Outgoing(Elems(ids), edges)| && forall x | x in ready :: x in first
    ensures IsRun(Outgoing(Elems(ids), edges), [Start(ids, edges, ready)])
  {
    hide Kept, Outgoing;
    first := SortedStrings(Elems(ready));
    FirstLists(ready);
    StartKept(ids, edges, ready, first);
    KeptBounded(Outgoing(Elems(ids), edges), Start(ids, edges, ready), first);
  }

  // ---- distinct nodes ----------------------------------------------------

  /** Every node once, every edge going forward. */
  ghost predicate IsTopological(ids: seq<string>, edges: seq<Edge>, order: seq<string>)
  {
    && multiset(order) == multiset(ids)
    && forall e, i, j | e in edges && 0 <= i < |order| && 0 <= j < |order|
                        && order[i] == e.from && order[j] == e.to :: i < j
  }

  /** With no node listed twice, what was freed is exactly what was ordered and then what is ready. */
  lemma DistinctNext(out: Graph, w: Work)
    requires Kept(out, w, w.ordered + w.ready) && w.ready != []
    ensures w.ready[0] in out && Kept(out, Next(w, out), Next(w, out).ordered + Next(w, out).ready)
  {
    hide Kept, Freed, Discard;
    var first := w.ordered + w.ready;
    KeptNext(out, w, first);
    var freed := Freed(w.incoming, w.ready[0], SortedStrings(out[w.ready[0]]));
    forall m | m in freed ensures m !in first { FreedIsNew(out, w, m); }
    KeepAll(first, freed);
    assert first + freed == Next(w, out).ordered + Next(w, out).ready;
  }

  lemma FreedIsNew(out: Graph, w: Work, m: string)
    requires Kept(out, w, w.ordered + w.ready) && w.ready != [] && w.ready[0] in out
    requires m in Freed(w.incoming, w.ready[0], SortedStrings(out[w.ready[0]]))
    ensures m !in w.ordered + w.ready
  {
    var first, node := w.ordered + w.ready, w.ready[0];
    FreedAre(w, out, first, m);
    assert first[|w.ordered|] == node;
    forall k | 0 <= k < |w.ordered| ensures w.ordered[k] != node { assert first[k] == w.ordered[k]; }
    assert m in out && Precedes(out, node, m);
    assert node in w.incoming[m];
  }

  lemma {:induction false} KeepAll(first: seq<string>, freed: seq<string>)
    requires forall m | m in freed :: m !in first
    ensures Added(first, freed) == freed
  {
    if freed != [] {
      KeepAll(first, freed[..|freed| - 1]);
      assert freed == freed[..|freed| - 1] + [freed[|freed| - 1]];
    }
  }

  lemma {:induction false} DistinctRun(out: Graph, run: seq<Work>, k: nat)
    requires IsRun(out, run) && k < |run| && Kept(out, run[0], run[0].ordered + run[0].ready)
    ensures Kept(out, run[k], run[k].ordered + run[k].ready)
  {
    if k > 0 {
      hide Kept;
      DistinctRun(out, run, k - 1);
      assert IsNext(out, run[k - 1], run[k - 1 + 1]);
      DistinctNext(out, run[k - 1]);
    }
  }

  /** `ordered` holds every node nothing left precedes, each after all its predecessors. */
  ghost predicate Exhausted(out: Graph, ordered: seq<string>)
  {
    && (forall n | n in out :: out[n] <= out.Keys)
    && NoDup(ordered) && Forward(out, ordered)
    && (forall v :: v in ordered <==> v in out && forall u | Precedes(out, u, v) :: u in ordered)
  }

  lemma DrainExhausts(ids: seq<string>, edges: seq<Edge>, ready: seq<string>, ordered: seq<string>)
    requires EndpointsExist(ids, edges) && Sources(ids, edges, ready) && NoDup(ready)
    requires Drains(Elems(ids), edges, ready, ordered)
    ensures Exhausted(Outgoing(Elems(ids), edges), ordered)
  {
    hide Outgoing, Incoming, Sources;
    var out := Outgoing(Elems(ids), edges);
    var run: seq<Work> :| IsRun(out, run) && run[0] == Work(Incoming(Elems(ids), edges), ready, [])
      && run[|run| - 1].ready == [] && run[|run| - 1].ordered == ordered;
    StartKept(ids, edges, ready, ready);
    assert [] + ready == ready;
    DistinctRun(out, run, |run| - 1);
    var w := run[|run| - 1];
    assert w.ordered + [] == ordered;
    forall v | v in out ensures w.incoming[v] == {} <==> forall u | Precedes(out, u, v) :: u in ordered {
      if u :| u in w.incoming[v] { assert Precedes(out, u, v) && u !in ordered; }
    }
  }

  /** A path through ordered nodes only goes forward, so none returns to where it began. */
  lemma ForwardIsAcyclic(out: Graph, order: seq<string>)
    requires Forward(out, order) && forall n | n in out :: n in order && forall m | m in out[n] :: m in order
    ensures Acyclic(out)
  {
    forall n ensures !OnCycle(out, n) {
      if OnCycle(out, n) {
        var p :| IsPath(out, p) && p[0] == n && p[|p| - 1] == n;
        assert p[0 + 1] in Succ(out, p[0]);
        var i := 1;
        StepForward(out, order, p[0], p[1]);
        while i < |p| - 1
          invariant 1 <= i < |p| && p[i] in order && n in order && Pos(order, n) < Pos(order, p[i])
        {
          assert p[i + 1] in Succ(out, p[i]);
          StepForward(out, order, p[i], p[i + 1]);
          i := i + 1;
        }
      }
    }
  }

  lemma StepForward(out: Graph, order: seq<string>, a: string, b: string)
    requires Forward(out, order) && b in Succ(out, a)
    requires forall n | n in out :: n in order && forall m | m in out[n] :: m in order
    ensures a in order && b in order && Pos(order, a) < Pos(order, b)
  {
    assert Precedes(out, a, order[Pos(order, b)]);
    PosFirst(order, a, Pos(order, b));
  }

  lemma {:induction false} PosFirst(xs: seq<string>, x: string, k: nat)
    requires k <= |xs| && x in xs[..k]
    ensures x in xs && Pos(xs, x) < k
  {
    if xs[0] != x {
      assert xs[..k] == [xs[0]] + xs[1..][..k - 1];
      PosFirst(xs[1..], x, k - 1);
    }
  }

  /** A walk that stays inside `rest`. */
  ghost predicate WalksIn(g: Graph, rest: set<string>, p: seq<string>)
  {
    p != [] && (forall k | 0 <= k < |p| :: p[k] in rest) && forall k | 0 <= k < |p| - 1 :: p[k + 1] in Succ(g, p[k])
  }

  /** Nodes that each have a predecessor among themselves contain a cycle. */
  lemma {:induction false} LeftoverHasCycle(g: Graph, rest: set<string>, p: seq<string>) returns (c: string)
    requires WalksIn(g, rest, p) && NoDup(p)
    requires forall v | v in rest :: exists u :: u in rest && v in Succ(g, u)
    ensures c in rest && OnCycle(g, c)
    decreases |rest| - |p|
  {
    hide WalksIn, NoDup, Succ;
    WalkStart(g, rest, p);
    var a :| a in rest && p[0] in Succ(g, a);
    if a in p {
      var k :| 0 <= k < |p| && p[k] == a;
      ReturnsTo(g, rest, p, a, k);
      c := a;
    } else {
      WalkFurther(g, rest, a, p);
      c := LeftoverHasCycle(g, rest, [a] + p);
    }
  }

  lemma WalkStart(g: Graph, rest: set<string>, p: seq<string>)
    requires WalksIn(g, rest, p)
    ensures p != [] && p[0] in rest
  {
  }

  lemma WalkFurther(g: Graph, rest: set<string>, a: string, p: seq<string>)
    requires WalksIn(g, rest, p) && NoDup(p) && a in rest && p[0] in Succ(g, a) && a !in p
    ensures WalksIn(g, rest, [a] + p) && NoDup([a] + p) && |p| < |rest|
  {
    var longer := [a] + p;
    forall k | 0 <= k < |longer| - 1 ensures longer[k + 1] in Succ(g, longer[k]) {
      if k > 0 { assert longer[k] == p[k - 1] && longer[k + 1] == p[k]; }
    }
    NoDupConcat([a], p);
    SizeWithin(longer, rest);
  }

  lemma ReturnsTo(g: Graph, rest: set<string>, p: seq<string>, a: string, k: nat)
    requires WalksIn(g, rest, p) && k < |p| && p[k] == a && p[0] in Succ(g, a)
    ensures OnCycle(g, a)
  {
    var loop := [a] + p[..k + 1];
    forall i | 0 <= i < |loop| - 1 ensures loop[i + 1] in Succ(g, loop[i]) {
      if i > 0 { assert loop[i] == p[i - 1] && loop[i + 1] == p[i]; }
    }
    assert IsPath(g, loop);
  }

  lemma NodesLeft(out: Graph, ordered: seq<string>) returns (c: string)
    requires Exhausted(out, ordered) && (exists v :: v in out && v !in ordered)
    ensures c in out && c !in ordered && OnCycle(out, c)
  {
    hide Exhausted, WalksIn, Succ, NoDup, OnCycle;
    var rest := set v | v in out && v !in ordered;
    forall v | v in rest ensures exists u :: u in rest && v in Succ(out, u) {
      LeftBehind(out, ordered, v);
    }
    var v :| v in out && v !in ordered;
    assert v in rest;
    SingleWalk(out, rest, v);
    c := LeftoverHasCycle(out, rest, [v]);
  }

  lemma SingleWalk(g: Graph, rest: set<string>, v: string)
    requires v in rest
    ensures WalksIn(g, rest, [v]) && NoDup([v])
  {
  }

  lemma LeftBehind(out: Graph, ordered: seq<string>, v: string)
    requires Exhausted(out, ordered) && v in out && v !in ordered
    ensures exists u :: u in out && u !in ordered && v in Succ(out, u)
  {
    var u :| Precedes(out, u, v) && u !in ordered;
  }

  /** Working every node off means there was no cycle; a leftover always contains one. */
  lemma ExhaustedMeans(ids: seq<string>, edges: seq<Edge>, ordered: seq<string>)
    requires NoDup(ids) && EndpointsExist(ids, edges) && Exhausted(Outgoing(Elems(ids), edges), ordered)
    ensures |ordered| == |ids| <==> Acyclic(Outgoing(Elems(ids), edges))
    ensures |ordered| == |ids| ==> IsTopological(ids, edges, ordered)
    ensures |ordered| != |ids| ==>
      exists c :: c in ids && c !in ordered && OnCycle(Outgoing(Elems(ids), edges), c)
  {
    var out := Outgoing(Elems(ids), edges);
    NoDupCard(ids);
    NoDupCard(ordered);
    assert Elems(ordered) <= Elems(ids);
    SubsetCard(Elems(ordered), Elems(ids));
    if |ordered| == |ids| {
      AllOrdered(ids, edges, ordered);
    } else {
      assert Elems(ids) != Elems(ordered);
      var v :| v in Elems(ids) && v !in Elems(ordered);
      var c := NodesLeft(out, ordered);
    }
  }

  lemma AllOrdered(ids: seq<string>, edges: seq<Edge>, ordered: seq<string>)
    requires NoDup(ids) && EndpointsExist(ids, edges) && Exhausted(Outgoing(Elems(ids), edges), ordered)
    requires Elems(ordered) == Elems(ids)
    ensures Acyclic(Outgoing(Elems(ids), edges)) && IsTopological(ids, edges, ordered)
  {
    var out := Outgoing(Elems(ids), edges);
    forall n | n in out ensures n in ordered && forall m | m in out[n] :: m in ordered {
      assert n in Elems(ordered) && forall m | m in out[n] :: m in Elems(ordered);
    }
    ForwardIsAcyclic(out, ordered);
    assert forall x :: x in ordered <==> x in Elems(ordered);
    assert forall x :: x in ids <==> x in Elems(ids);
    SameSetSameMultiset(ordered, ids);
    forall e, i, j | e in edges && 0 <= i < |ordered| && 0 <= j < |ordered|
                     && ordered[i] == e.from && ordered[j] == e.to
      ensures i < j {
      assert Precedes(out, ordered[i], ordered[j]) by {
        assert e.from in Elems(ids) && e.to in TargetsOf(e.from, edges);
      }
      assert ordered[i] in ordered[..j];
    }
  }

  /** Whatever order the sources are listed in, the outcome decides acyclicity. */
  lemma OutcomeDecides(ids: seq<string>, edges: seq<Edge>, ready: seq<string>, ordered: seq<string>)
    requires NoDup(ids) && EndpointsExist(ids, edges) && Sources(ids, edges, ready) && NoDup(ready)
    requires Drains(Elems(ids), edges, ready, ordered)
    ensures |ordered| == |ids| <==> Acyclic(Outgoing(Elems(ids), edges))
    ensures |ordered| == |ids| ==> IsTopological(ids, edges, ordered)
    ensures |ordered| != |ids| ==> exists c :: c in ids && c !in ordered && OnCycle(Outgoing(Elems(ids), edges), c)
  {
    hide Outgoing, Drains, Sources, Acyclic;
    DrainExhausts(ids, edges, ready, ordered);
    ExhaustedMeans(ids, edges, ordered);
  }

  /** What a topological sort promises over distinct node ids. */
  ghost predicate SortsWell(ids: seq<string>, edges: seq<Edge>, r: Result<seq<string>, GraphError>)
  {
    && (r.Ok? <==> EndpointsExist(ids, edges) && Acyclic(Outgoing(Elems(ids), edges)))
    && (r.Ok? ==> IsTopological(ids, edges, r.value))
    && (r == Err(CycleDetected) <==> EndpointsExist(ids, edges) && exists c :: OnCycle(Outgoing(Elems(ids), edges), c))
  }

  lemma OutcomeSortsWell(ids: seq<string>, edges: seq<Edge>, ready: seq<string>, ordered: seq<string>)
    requires NoDup(ids) && EndpointsExist(ids, edges) && Sources(ids, edges, ready) && NoDup(ready)
    requires Drains(Elems(ids), edges, ready, ordered)
    ensures SortsWell(ids, edges, if |ordered| == |ids| then Ok(ordered) else Err(CycleDetected))
  {
    hide Drains, Sources, Outgoing, OnCycle;
    OutcomeDecides(ids, edges, ready, ordered);
  }

  lemma MissingSortsWell(ids: seq<string>, edges: seq<Edge>, e: Edge)
    requires !EndpointsExist(ids, edges)
    ensures SortsWell(ids, edges, Err(MissingNode(e)))
  {
  }

  /** The canonical sort: sources ascending, successors ascending, missing endpoints refused. */
  method TopologicalOrder(ids: seq<string>, edges: seq<Edge>) returns (r: Result<seq<string>, GraphError>)
    ensures r.Err? && r.error.MissingNode? <==> !EndpointsExist(ids, edges)
    ensures r.Err? && r.error.MissingNode? ==>
      r.error.edge in edges && (r.error.edge.from !in ids || r.error.edge.to !in ids)
    ensures r.Err? ==> r.error.MissingNode? || r.error.CycleDetected?
    ensures EndpointsExist(ids, edges) ==> exists ordered ::
      SortsTo(ids, edges, ordered) && r == if |ordered| == |ids| then Ok(ordered) else Err(CycleDetected)
    ensures NoDup(ids) ==> SortsWell(ids, edges, r)
  {
    hide Kept, IsRun, Outgoing, Incoming, Weight, Discard, Freed, SortsWell, NoDup;
    var maps := BuildMaps(ids, edges);
    if maps.Err? {
      MissingSortsWell(ids, edges, maps.error.edge);
      return Err(maps.error);
    }
    var incoming, outgoing := maps.value.0, maps.value.1;
    var ready := Sort(StrLt, Filter((i: string) => i in incoming && incoming[i] == {}, ids));
    SortedSources(ids, edges);
    var ordered: seq<string> := [];
    ghost var first := Begin(ids, edges, ready);
    ghost var run := [Start(ids, edges, ready)];
    while ready != []
      invariant Kept(outgoing, Work(incoming, ready, ordered), first)
      invariant |first| <= |outgoing| && forall x | x in ready :: x in first
      invariant run != [] && IsRun(outgoing, run) && run[0] == Start(ids, edges, SourcesSorted(ids, edges))
      invariant run[|run| - 1] == Work(incoming, ready, ordered)
      decreases Weight(first, ready, |outgoing|)
    {
      ghost var longer := WorkStep(outgoing, Work(incoming, ready, ordered), first, run);
      first, run := longer, run + [Next(Work(incoming, ready, ordered), outgoing)];
      var node := ready[0];
      ordered := ordered + [node];
      SuccessorsListed(outgoing, node);
      incoming, ready := Release(node, SortedStrings(outgoing[node]), incoming, ready[1..]);
    }
    RunDrains(ids, edges, SourcesSorted(ids, edges), run);
    if NoDup(ids) {
      SortedSourcesDistinct(ids, edges);
      OutcomeSortsWell(ids, edges, SourcesSorted(ids, edges), ordered);
    }
    if |ordered| != |ids| { return Err(CycleDetected); }
    return Ok(ordered);
  }

  lemma RunDrains(ids: seq<string>, edges: seq<Edge>, ready: seq<string>, run: seq<Work>)
    requires IsRun(Outgoing(Elems(ids), edges), run) && run[0] == Start(ids, edges, ready)
    requires run[|run| - 1].ready == []
    ensures Drains(Elems(ids), edges, ready, run[|run| - 1].ordered)
  {
  }

  lemma SortedSourcesDistinct(ids: seq<string>, edges: seq<Edge>)
    requires NoDup(ids)
    ensures NoDup(SourcesSorted(ids, edges))
  {
    var ready := SourcesListed(ids, edges);
    StrLtOrders(Elems(ready));
    SortSorted(StrLt, ready);
    StrictlySortedNoDup(StrLt, Sort(StrLt, ready));
  }

  /** The second sort's sources, in the order the nodes are listed. */
  ghost function SourcesListed(ids: seq<string>, edges: seq<Edge>): seq<string>
  {
    var incoming := Incoming(Elems(ids), edges);
    Filter((i: string) => i in incoming && incoming[i] == {}, ids)
  }

  lemma ListedSources(ids: seq<string>, edges: seq<Edge>)
    ensures Sources(ids, edges, SourcesListed(ids, edges))
    ensures NoDup(ids) ==> NoDup(SourcesListed(ids, edges))
  {
    var incoming := Incoming(Elems(ids), edges);
    forall v ensures v in SourcesListed(ids, edges) <==> v in ids && incoming[v] == {} {
      assert v in ids <==> v in Elems(ids);
    }
  }

  /** The dependency resolver: the same work list, but sources as listed. A missing endpoint is a key error. */
  method DependencyOrder(ids: seq<string>, edges: seq<Edge>) returns (r: Result<seq<string>, GraphError>)
    ensures r.Err? && r.error.MissingNode? <==> !EndpointsExist(ids, edges)
    ensures r.Err? && r.error.MissingNode? ==>
      r.error.edge in edges && (r.error.edge.from !in ids || r.error.edge.to !in ids)
    ensures EndpointsExist(ids, edges) ==> exists ordered ::
      Drains(Elems(ids), edges, SourcesListed(ids, edges), ordered)
      && r == if |ordered| == |ids| then Ok(ordered) else Err(CycleDetected)
    ensures NoDup(ids) ==> SortsWell(ids, edges, r)
  {
    hide Kept, IsRun, Outgoing, Incoming, Weight, Discard, Freed, SortsWell, NoDup;
    var maps := BuildMaps(ids, edges);
    if maps.Err? {
      MissingSortsWell(ids, edges, maps.error.edge);
      return Err(maps.error);
    }
    var incoming, outgoing := maps.value.0, maps.value.1;
    var ready := Filter((i: string) => i in incoming && incoming[i] == {}, ids);
    ListedSources(ids, edges);
    var ordered: seq<string> := [];
    ghost var first := Begin(ids, edges, ready);
    ghost var run := [Start(ids, edges, ready)];
    while ready != []
      invariant Kept(outgoing, Work(incoming, ready, ordered), first)
      invariant |first| <= |outgoing| && forall x | x in ready :: x in first
      invariant run != [] && IsRun(outgoing, run) && run[0] == Start(ids, edges, SourcesListed(ids, edges))
      invariant run[|run| - 1] == Work(incoming, ready, ordered)
      decreases Weight(first, ready, |outgoing|)
    {
      ghost var longer := WorkStep(outgoing, Work(incoming, ready, ordered), first, run);
      first, run := longer, run + [Next(Work(incoming, ready, ordered), outgoing)];
      var n := ready[0];
      ordered := ordered + [n];
      SuccessorsListed(outgoing, n);
      incoming, ready := Release(n, SortedStrings(outgoing[n]), incoming, ready[1..]);
    }
    RunDrains(ids, edges, SourcesListed(ids, edges), run);
    if NoDup(ids) { OutcomeSortsWell(ids, edges, SourcesListed(ids, edges), ordered); }
    if |ordered| != |ids| { return Err(CycleDetected); }
    return Ok(ordered);
  }

  /** Ids given in ascending order, the two sorts start alike and so return the same list. */
  lemma TwoSortsAgree(ids: seq<string>, edges: seq<Edge>, a: seq<string>, b: seq<string>)
    requires StrictlySorted(StrLt, ids)
    requires SortsTo(ids, edges, a) && Drains(Elems(ids), edges, SourcesListed(ids, edges), b)
    ensures a == b
  {
    hide Drains, Incoming;
    var incoming := Incoming(Elems(ids), edges);
    var ready := SourcesListed(ids, edges);
    FilterSorted(StrLt, (i: string) => i in incoming && incoming[i] == {}, ids);
    StrLtOrders(Elems(ready));
    StrictlySortedNoDup(StrLt, ready);
    SortSorted(StrLt, ready);
    SortedUnique(StrLt, Sort(StrLt, ready), ready);
    DrainsOneWay(Elems(ids), edges, ready, a, b);
  }

  // ---- the validator -----------------------------------------------------

  datatype Finding = DuplicateNodeId | TerminalMissing | OrderFails(error: GraphError)

  /** Findings are empty exactly for a well-formed acyclic graph, repeated node ids included. */
  method ValidateGraph(ids: seq<string>, edges: seq<Edge>, terminal: string) returns (findings: seq<Finding>)
    ensures findings == [] <==>
      NoDup(ids) && terminal in ids && EndpointsExist(ids, edges) && Acyclic(Outgoing(Elems(ids), edges))
    ensures DuplicateNodeId in findings <==> !NoDup(ids)
    ensures NoDup(ids) ==>
      ((exists e :: OrderFails(e) in findings) <==>
        !(EndpointsExist(ids, edges) && Acyclic(Outgoing(Elems(ids), edges))))
    ensures TerminalMissing in findings <==> terminal !in ids
  {
    hide EndpointsExist, Acyclic, Outgoing, IsTopological, SortsTo, NoDup;
    findings := [];
    NoDupCard(ids);
    if |ids| != |Elems(ids)| { findings := findings + [DuplicateNodeId]; }
    if terminal !in ids { findings := findings + [TerminalMissing]; }
    var order := TopologicalOrder(ids, edges);
    if order.Err? { findings := findings + [OrderFails(order.error)]; }
  }

  // ---- deriving the graph from steps -------------------------------------

  const TERMINAL_PHASE := "P7_FLAWLESS_VICTORY"
  const CONVERGED := "CONVERGED"

  datatype ExecStep = ExecStep(
    id: string, phase: string, kernelRefs: seq<string>, obligationRefs: seq<string>,
    inputRefs: seq<string>, outputRefs: seq<string>)

  datatype Node = Node(
    id: string, phase: string, kernelRefs: seq<string>, obligationRefs: seq<string>,
    inputs: seq<string>, outputs: seq<string>, disposition: Option<string>)

  datatype DerivedGraph = DerivedGraph(
    nodes: seq<Node>, edges: seq<Edge>, terminalNode: string, terminalDisposition: Option<string>)

  function StepIds(steps: seq<ExecStep>): seq<string>
  {
    seq(|steps|, k requires 0 <= k < |steps| => steps[k].id)
  }

  function NodeOf(s: ExecStep): Node
  {
    Node(s.id, s.phase, s.kernelRefs, s.obligationRefs, s.inputRefs, s.outputRefs,
         if s.phase == TERMINAL_PHASE then Some(CONVERGED) else None)
  }

  function Chain(ids: seq<string>): seq<Edge>
  {
    seq(if ids == [] then 0 else |ids| - 1, k requires 0 <= k < |ids| - 1 => Edge(ids[k], ids[k + 1]))
  }

  lemma ChainIsForward(ids: seq<string>)
    requires NoDup(ids)
    ensures EndpointsExist(ids, Chain(ids)) && Forward(Outgoing(Elems(ids), Chain(ids)), ids)
  {
    var edges := Chain(ids);
    forall e | e in edges ensures e.from in ids && e.to in ids {
      var k :| 0 <= k < |edges| && edges[k] == e;
    }
    forall j, u | 0 <= j < |ids| && Precedes(Outgoing(Elems(ids), edges), u, ids[j]) ensures u in ids[..j] {
      var e :| e in edges && e.from == u && e.to == ids[j];
      var k :| 0 <= k < |edges| && edges[k] == e;
      assert k + 1 == j;
      assert ids[..j][k] == u;
    }
  }

  lemma ChainIsAcyclic(ids: seq<string>)
    requires NoDup(ids)
    ensures EndpointsExist(ids, Chain(ids)) && Acyclic(Outgoing(Elems(ids), Chain(ids)))
  {
    hide Acyclic, Forward;
    ChainIsForward(ids);
    var out := Outgoing(Elems(ids), Chain(ids));
    forall n | n in out ensures n in ids && forall m | m in out[n] :: m in ids {
      assert n in Elems(ids);
    }
    ForwardIsAcyclic(out, ids);
  }

  lemma InOrder(ids: seq<string>, order: seq<string>, k: nat)
    requires IsTopological(ids, Chain(ids), order) && k + 1 < |ids|
    ensures ids[k] in order && ids[k + 1] in order && Pos(order, ids[k]) < Pos(order, ids[k + 1])
  {
    assert ids[k] in multiset(ids) && ids[k + 1] in multiset(ids);
    assert ids[k] in order && ids[k + 1] in order;
    assert Chain(ids)[k] == Edge(ids[k], ids[k + 1]);
    assert Edge(ids[k], ids[k + 1]) in Chain(ids);
  }

  lemma {:induction false} PosAtLeast(ids: seq<string>, order: seq<string>, k: nat)
    requires IsTopological(ids, Chain(ids), order) && k < |ids|
    ensures ids[k] in order && Pos(order, ids[k]) >= k
  {
    assert ids[k] in multiset(order);
    if k > 0 {
      PosAtLeast(ids, order, k - 1);
      InOrder(ids, order, k - 1);
    }
  }

  lemma {:induction false} PosAtMost(ids: seq<string>, order: seq<string>, k: nat)
    requires IsTopological(ids, Chain(ids), order) && k < |ids|
    ensures ids[k] in order && Pos(order, ids[k]) <= k
    decreases |ids| - k
  {
    assert ids[k] in multiset(order);
    assert |multiset(ids)| == |multiset(order)|;
    if k + 1 < |ids| {
      PosAtMost(ids, order, k + 1);
      InOrder(ids, order, k);
    }
  }

  /** A chain has one topological order: its own. */
  lemma ChainHasOneOrder(ids: seq<string>, order: seq<string>)
    requires IsTopological(ids, Chain(ids), order)
    ensures order == ids
  {
    assert |multiset(ids)| == |multiset(order)|;
    forall k | 0 <= k < |ids| ensures order[k] == ids[k] {
      PosAtLeast(ids, order, k);
      PosAtMost(ids, order, k);
    }
  }

  /** The nodes of the steps, refusing a repeated step id. */
  method NodesOf(steps: seq<ExecStep>) returns (r: Result<(seq<Node>, seq<string>), GraphError>)
    ensures r.Ok? <==> NoDup(StepIds(steps))
    ensures r.Ok? ==>
      r.value.1 == StepIds(steps) && r.value.0 == seq(|steps|, k requires 0 <= k < |steps| => NodeOf(steps[k]))
    ensures r.Err? ==> exists k :: 0 <= k < |steps| && r.error == DuplicateStep(steps[k].id)
                                && steps[k].id in StepIds(steps[..k]) && NoDup(StepIds(steps[..k]))
  {
    var nodes: seq<Node>, ordered: seq<string> := [], [];
    var seen: set<string> := {};
    for k := 0 to |steps|
      invariant ordered == StepIds(steps[..k]) && seen == Elems(ordered) && NoDup(ordered)
      invariant |nodes| == k && forall i | 0 <= i < k :: nodes[i] == NodeOf(steps[i])
    {
      var step := steps[k];
      assert StepIds(steps)[k] == step.id;
      if step.id in seen {
        assert step.id in ordered;
        var i :| 0 <= i < k && ordered[i] == step.id;
        assert StepIds(steps)[i] == step.id;
        return Err(DuplicateStep(step.id));
      }
      assert StepIds(steps[..k + 1]) == ordered + [step.id];
      ElemsSnoc(ordered, step.id);
      NoDupConcat(ordered, [step.id]);
      seen, ordered, nodes := seen + {step.id}, ordered + [step.id], nodes + [NodeOf(step)];
    }
    assert steps[..|steps|] == steps;
    return Ok((nodes, ordered));
  }

  /** The edges of consecutive steps. */
  method ChainEdges(ids: seq<string>) returns (edges: seq<Edge>)
    requires ids != []
    ensures edges == Chain(ids)
  {
    edges := [];
    for k := 1 to |ids|
      invariant |edges| == k - 1 && forall i | 0 <= i < k - 1 :: edges[i] == Edge(ids[i], ids[i + 1])
    {
      edges := edges + [Edge(ids[k - 1], ids[k])];
    }
  }

  /** What a contract's steps derive to. */
  ghost function DerivedFrom(steps: seq<ExecStep>): DerivedGraph
    requires steps != []
  {
    DerivedGraph(seq(|steps|, k requires 0 <= k < |steps| => NodeOf(steps[k])), Chain(StepIds(steps)),
                 steps[|steps| - 1].id,
                 if exists s | s in steps :: s.phase == TERMINAL_PHASE then Some(CONVERGED) else None)
  }

  /** A contract's steps as a graph: fails only on no steps or a repeated id, never on the order. */
  method DeriveGraph(steps: seq<ExecStep>) returns (r: Result<DerivedGraph, GraphError>)
    ensures r.Ok? <==> steps != [] && NoDup(StepIds(steps))
    ensures steps == [] <==> r == Err(NoSteps)
    ensures r.Err? && !r.error.NoSteps? ==>
      exists k :: 0 <= k < |steps| && r.error == DuplicateStep(steps[k].id) && steps[k].id in StepIds(steps[..k])
    ensures r.Ok? ==> r.value == DerivedFrom(steps)
  {
    hide SortsWell, Chain, SortsTo, EndpointsExist;
    if steps == [] { return Err(NoSteps); }
    var listed := NodesOf(steps);
    if listed.Err? { return Err(listed.error); }
    var nodes, ids := listed.value.0, listed.value.1;
    var edges := ChainEdges(ids);
    var order := TopologicalOrder(ids, edges);
    var terminal := if exists s | s in steps :: s.phase == TERMINAL_PHASE then Some(CONVERGED) else None;
    r := if order.Err? then Err(order.error)
         else if order.value != ids then Err(OrderDiverged)
         else Ok(DerivedGraph(nodes, edges, ids[|ids| - 1], terminal));
    ChainSorts(ids, order);
  }

  lemma ChainSorts(ids: seq<string>, order: Result<seq<string>, GraphError>)
    requires NoDup(ids) && SortsWell(ids, Chain(ids), order)
    ensures order == Ok(ids)
  {
    hide IsTopological, Acyclic, Chain;
    ChainIsAcyclic(ids);
    if order.Ok? { ChainHasOneOrder(ids, order.value); }
  }

  function NodeIds(nodes: seq<Node>): seq<string>
  {
    seq(|nodes|, k requires 0 <= k < |nodes| => nodes[k].id)
  }

  /** Every node but the terminal has an outgoing edge. */
  ghost predicate NoOrphans(g: DerivedGraph)
  {
    forall n | n in g.nodes && n.id != g.terminalNode :: exists e :: e in g.edges && e.from == n.id
  }

  /** A derived graph is one the validator has no findings for, it has no orphan, and its only order is step order. */
  lemma DerivedIsValid(steps: seq<ExecStep>, order: seq<string>)
    requires steps != [] && NoDup(StepIds(steps))
    ensures var g := DerivedFrom(steps); var ids := NodeIds(g.nodes);
      && ids == StepIds(steps) && NoDup(ids) && g.terminalNode in ids
      && EndpointsExist(ids, g.edges) && Acyclic(Outgoing(Elems(ids), g.edges)) && NoOrphans(g)
      && (IsTopological(ids, g.edges, order) <==> order == ids)
  {
    hide Acyclic, IsTopological, EndpointsExist;
    var g := DerivedFrom(steps);
    var ids := StepIds(steps);
    assert NodeIds(g.nodes) == ids;
    assert ids[|steps| - 1] == g.terminalNode;
    ChainIsAcyclic(ids);
    forall n | n in g.nodes && n.id != g.terminalNode ensures exists e :: e in g.edges && e.from == n.id {
      var k :| 0 <= k < |steps| && g.nodes[k] == n;
      assert ids[k] == n.id;
      assert Chain(ids)[k].from == n.id;
    }
    if IsTopological(ids, g.edges, order) { ChainHasOneOrder(ids, order); }
    ChainOrderIsTopological(ids);
  }

  lemma ChainOrderIsTopological(ids: seq<string>)
    requires NoDup(ids)
    ensures IsTopological(ids, Chain(ids), ids)
  {
  }
}
