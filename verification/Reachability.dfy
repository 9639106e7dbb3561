/**
 Directed graphs as adjacency maps: reachability in one or more steps, the
 work-list search that computes it, and the components of mutually reachable
 nodes that the supersession resolver reports as cycles.
 */
module Reachability {
  import opened Base

  type Graph = map<string, set<string>>

  function Succ(g: Graph, n: string): set<string>
  {
    if n in g then g[n] else {}
  }

  ghost predicate IsPath(g: Graph, p: seq<string>)
  {
    |p| >= 2 && forall i | 0 <= i < |p| - 1 :: p[i + 1] in Succ(g, p[i])
  }

  /** `b` is one or more edges away from `a`. */
  ghost predicate Reaches(g: Graph, a: string, b: string)
  {
    exists p :: IsPath(g, p) && p[0] == a && p[|p| - 1] == b
  }

  ghost predicate OnCycle(g: Graph, n: string) { Reaches(g, n, n) }

  ghost predicate Mutual(g: Graph, a: string, b: string) { Reaches(g, a, b) && Reaches(g, b, a) }

  lemma ReachesEdge(g: Graph, a: string, b: string)
    requires b in Succ(g, a)
    ensures Reaches(g, a, b)
  {
    assert IsPath(g, [a, b]);
  }

  lemma ReachesTransitive(g: Graph, a: string, b: string, c: string)
    requires Reaches(g, a, b) && Reaches(g, b, c)
    ensures Reaches(g, a, c)
  {
    var p :| IsPath(g, p) && p[0] == a && p[|p| - 1] == b;
    var q :| IsPath(g, q) && q[0] == b && q[|q| - 1] == c;
    var r := p + q[1..];
    forall i | 0 <= i < |r| - 1 ensures r[i + 1] in Succ(g, r[i]) {
      if i < |p| - 1 { assert r[i] == p[i] && r[i + 1] == p[i + 1]; }
      else { assert r[i] == q[i - |p| + 1] && r[i + 1] == q[i - |p| + 2]; }
    }
    assert IsPath(g, r);
  }

  /** A set closed under edges from `a` holds everything `a` reaches. */
  lemma ClosedHolds(g: Graph, a: string, s: set<string>, b: string)
    requires Succ(g, a) <= s && forall x | x in s :: Succ(g, x) <= s
    requires Reaches(g, a, b)
    ensures b in s
  {
    var p :| IsPath(g, p) && p[0] == a && p[|p| - 1] == b;
    var i := 1;
    while i < |p| - 1
      invariant 1 <= i < |p| && p[i] in s
    {
      assert p[i + 1] in Succ(g, p[i]);
      i := i + 1;
    }
  }

  /** Reachability depends on a graph only through its successor sets. */
  lemma ReachesSameEdges(g: Graph, h: Graph)
    requires forall n :: Succ(g, n) == Succ(h, n)
    ensures forall a, b :: Reaches(g, a, b) <==> Reaches(h, a, b)
  {
    forall p: seq<string> ensures IsPath(g, p) <==> IsPath(h, p) { }
  }

  /** The last step of a walk to `b` leaves from a node that has edges. */
  lemma ReachesFirstStep(g: Graph, a: string, b: string)
    requires Reaches(g, a, b)
    ensures a in g && exists x :: x in Succ(g, a) && (x == b || Reaches(g, x, b))
  {
    var p :| IsPath(g, p) && p[0] == a && p[|p| - 1] == b;
    assert p[0 + 1] in Succ(g, p[0]);
    if |p| > 2 {
      forall i | 0 <= i < |p[1..]| - 1 ensures p[1..][i + 1] in Succ(g, p[1..][i]) {
        assert p[i + 2] in Succ(g, p[i + 1]);
      }
      assert IsPath(g, p[1..]);
    }
  }

  ghost function Targets(g: Graph): set<string>
  {
    set a, x | a in g && x in g[a] :: x
  }

  /** Every node reachable from `node`, by a stack and a seen set. */
  method ReachableSet(node: string, g: Graph) returns (seen: set<string>)
    ensures forall x :: x in seen <==> Reaches(g, node, x)
  {
    seen := {};
    var stack := ListOf(Succ(g, node));
    forall x | x in stack ensures Reaches(g, node, x) && x in Targets(g) {
      assert x in Elems(stack);
      ReachesEdge(g, node, x);
    }
    while stack != []
      invariant forall x | x in stack :: Reaches(g, node, x) && x in Targets(g)
      invariant forall x | x in seen :: Reaches(g, node, x)
      invariant Succ(g, node) <= seen + Elems(stack)
      invariant forall x | x in seen :: Succ(g, x) <= seen + Elems(stack)
      decreases Targets(g) - seen, |stack|
    {
      var current := stack[|stack| - 1];
      ghost var before := Elems(stack);
      stack := stack[..|stack| - 1];
      assert before <= Elems(stack) + {current};
      if current !in seen {
        seen := seen + {current};
        var next := ListOf(Succ(g, current));
        forall x | x in next ensures Reaches(g, node, x) && x in Targets(g) {
          assert x in Elems(next);
          ReachesEdge(g, current, x);
          ReachesTransitive(g, node, current, x);
        }
        assert Elems(stack + next) == Elems(stack) + Elems(next);
        stack := stack + next;
      }
    }
    forall x | Reaches(g, node, x) ensures x in seen { ClosedHolds(g, node, seen, x); }
  }

  /** Disjoint, non-empty classes of mutual reachability among nodes on a cycle. */
  ghost predicate AreClasses(g: Graph, components: seq<seq<string>>)
  {
    && (forall c | c in components :: IsClass(g, c))
    && (forall i, j | 0 <= i < j < |components| :: Elems(components[i]) !! Elems(components[j]))
  }

  ghost predicate IsClass(g: Graph, c: seq<string>)
  {
    && c != [] && NoDup(c)
    && (forall x | x in c :: OnCycle(g, x))
    && (forall x, y | x in c :: y in c <==> Mutual(g, x, y))
  }

  /** Exactly the strongly connected components that hold a cycle. */
  ghost predicate AreCycleComponents(g: Graph, components: seq<seq<string>>)
  {
    && AreClasses(g, components)
    && (forall x | OnCycle(g, x) :: exists c :: c in components && x in c)
  }

  lemma MutualSymmetric(g: Graph, a: string, b: string)
    ensures Mutual(g, a, b) <==> Mutual(g, b, a)
  {
  }

  lemma MutualTransitive(g: Graph, a: string, b: string, c: string)
    requires Mutual(g, a, b) && Mutual(g, b, c)
    ensures Mutual(g, a, c)
  {
    ReachesTransitive(g, a, b, c);
    ReachesTransitive(g, c, b, a);
  }

  function Filter<T(!new)>(p: T -> bool, xs: seq<T>): (r: seq<T>)
    ensures forall x :: x in r <==> x in xs && p(x)
    ensures NoDup(xs) ==> NoDup(r)
  {
    if xs == [] then []
    else
      var rest := Filter(p, xs[..|xs| - 1]);
      var last := xs[|xs| - 1];
      assert xs == xs[..|xs| - 1] + [last];
      if p(last) then rest + [last] else rest
  }

  lemma {:induction false} FilterConcat<T(!new)>(p: T -> bool, a: seq<T>, b: seq<T>)
    ensures Filter(p, a + b) == Filter(p, a) + Filter(p, b)
  {
    if b == [] {
      assert a + b == a;
    } else {
      var init, last := b[..|b| - 1], b[|b| - 1];
      assert (a + b)[..|a + b| - 1] == a + init && (a + b)[|a + b| - 1] == last;
      FilterConcat(p, a, init);
    }
  }

  lemma {:induction false} FilterUniform<T(!new)>(p: T -> bool, f: seq<T>, yes: bool)
    requires forall i | i in f :: p(i) <==> yes
    ensures Filter(p, f) == if yes then f else []
  {
    if f != [] {
      FilterUniform(p, f[..|f| - 1], yes);
      assert f == f[..|f| - 1] + [f[|f| - 1]];
    }
  }

  lemma {:induction false} FilterAgrees<T(!new)>(p: T -> bool, q: T -> bool, xs: seq<T>)
    requires forall x | x in xs :: p(x) <==> q(x)
    ensures Filter(p, xs) == Filter(q, xs)
  {
    if xs != [] {
      assert xs == xs[..|xs| - 1] + [xs[|xs| - 1]];
      FilterAgrees(p, q, xs[..|xs| - 1]);
    }
  }

  lemma {:induction false} FilterSorted<T(!new)>(lt: (T, T) -> bool, p: T -> bool, xs: seq<T>)
    requires StrictlySorted(lt, xs)
    ensures StrictlySorted(lt, Filter(p, xs))
  {
    if xs != [] {
      var init, last := xs[..|xs| - 1], xs[|xs| - 1];
      FilterSorted(lt, p, init);
      forall x | x in init ensures lt(x, last) {
        var i :| 0 <= i < |init| && init[i] == x;
      }
      forall i | 0 <= i < |Filter(p, init)| ensures lt(Filter(p, init)[i], last) {
        assert Filter(p, init)[i] in Filter(p, init);
      }
    }
  }

  /** The reachable set of every node that has edges. */
  method AllReach(g: Graph) returns (reach: map<string, set<string>>)
    ensures reach.Keys == g.Keys
    ensures forall n, x | n in reach :: x in reach[n] <==> Reaches(g, n, x)
  {
    reach := map[];
    var todo := g.Keys;
    while todo != {}
      invariant reach.Keys + todo == g.Keys && reach.Keys !! todo
      invariant forall n, x | n in reach :: x in reach[n] <==> Reaches(g, n, x)
      decreases todo
    {
      var n :| n in todo;
      var r := ReachableSet(n, g);
      reach, todo := reach[n := r], todo - {n};
    }
  }

  /** The nodes that reach themselves, in ascending order. */
  method NodesOnCycle(g: Graph, reach: map<string, set<string>>) returns (onCycle: seq<string>)
    requires reach.Keys == g.Keys
    requires forall n, x | n in reach :: x in reach[n] <==> Reaches(g, n, x)
    ensures forall n :: n in onCycle <==> OnCycle(g, n)
    ensures StrictlySorted(StrLt, onCycle)
  {
    SortedStringsSorted(g.Keys);
    var nodes := SortedStrings(g.Keys);
    onCycle := Filter(n => n in reach && n in reach[n], nodes);
    FilterSorted(StrLt, n => n in reach && n in reach[n], nodes);
    forall n ensures n in onCycle <==> OnCycle(g, n) {
      if OnCycle(g, n) { ReachesFirstStep(g, n, n); }
      assert n in nodes <==> n in Elems(nodes);
    }
  }

  ghost function Members(components: seq<seq<string>>): set<string>
  {
    set c, x | c in components && x in c :: x
  }

  /** The nodes mutually reachable with `node`. */
  method ComponentOf(g: Graph, reach: map<string, set<string>>, onCycle: seq<string>, node: string)
    returns (component: seq<string>)
    requires reach.Keys == g.Keys
    requires forall n, x | n in reach :: x in reach[n] <==> Reaches(g, n, x)
    requires StrictlySorted(StrLt, onCycle) && forall n :: n in onCycle <==> OnCycle(g, n)
    requires node in onCycle
    ensures node in component && IsClass(g, component) && StrictlySorted(StrLt, component)
    ensures forall x | x in component :: x in onCycle
  {
    ReachesFirstStep(g, node, node);
    component := Filter(other => other in reach && other in reach[node] && node in reach[other], onCycle);
    FilterSorted(StrLt, other => other in reach && other in reach[node] && node in reach[other], onCycle);
    AscendingDistinct(component);
    forall x ensures x in component <==> x in onCycle && Mutual(g, node, x) {
      if Reaches(g, x, node) { ReachesFirstStep(g, x, node); }
    }
    ClassOf(g, node, onCycle, component);
  }

  lemma AscendingDistinct(xs: seq<string>)
    requires StrictlySorted(StrLt, xs)
    ensures NoDup(xs)
  {
    StrLtOrders(Elems(xs));
    StrictlySortedNoDup(StrLt, xs);
  }

  /** Each component ascends, and the components ascend by their smallest members. */
  ghost predicate Ascend(components: seq<seq<string>>)
  {
    && (forall c | c in components :: c != [] && StrictlySorted(StrLt, c))
    && forall i, j | 0 <= i < j < |components| && components[i] != [] && components[j] != [] ::
         StrLt(components[i][0], components[j][0])
  }

  /** The smallest members met so far are among the first `k` nodes. */
  ghost predicate HeadsBefore(components: seq<seq<string>>, onCycle: seq<string>, k: nat)
  {
    k <= |onCycle| && forall c | c in components :: c != [] && c[0] in onCycle[..k]
  }

  /** Distinct components, smallest member first. */
  method CycleComponents(g: Graph) returns (components: seq<seq<string>>)
    ensures AreCycleComponents(g, components)
    ensures Ascend(components)
  {
    hide AreClasses, Ascend, HeadsBefore, StrictlySorted, IsClass, Reaches;
    var reach := AllReach(g);
    var onCycle := NodesOnCycle(g, reach);
    NoComponents(g, onCycle);
    components := [];
    var placed: set<string> := {};
    for k := 0 to |onCycle|
      invariant AreClasses(g, components)
      invariant placed == Members(components)
      invariant forall i | 0 <= i < k :: onCycle[i] in placed
      invariant Ascend(components) && HeadsBefore(components, onCycle, k)
    {
      var node := onCycle[k];
      if node !in placed {
        var component := ComponentOf(g, reach, onCycle, node);
        AddClass(g, components, component, node);
        SmallestIsFirst(g, components, onCycle, k, component);
        AscendOneMore(components, onCycle, k, component);
        assert Members(components + [component]) == Members(components) + Elems(component);
        components := components + [component];
        placed := placed + Elems(component);
      } else {
        HeadsFurther(components, onCycle, k);
      }
    }
    forall x | OnCycle(g, x) ensures exists c :: c in components && x in c {
      assert x in onCycle && x in Members(components);
    }
  }

  lemma HeadsFurther(components: seq<seq<string>>, onCycle: seq<string>, k: nat)
    requires HeadsBefore(components, onCycle, k) && k < |onCycle|
    ensures HeadsBefore(components, onCycle, k + 1)
  {
    assert onCycle[..k + 1] == onCycle[..k] + [onCycle[k]];
  }

  lemma NoComponents(g: Graph, onCycle: seq<string>)
    ensures AreClasses(g, []) && Members([]) == {} && Ascend([]) && HeadsBefore([], onCycle, 0)
  {
  }

  /** The first node met of a component is its smallest. */
  lemma SmallestIsFirst(g: Graph, components: seq<seq<string>>, onCycle: seq<string>, k: nat, component: seq<string>)
    requires k < |onCycle| && StrictlySorted(StrLt, onCycle) && StrictlySorted(StrLt, component)
    requires AreClasses(g, components + [component])
    requires onCycle[k] in component && forall x | x in component :: x in onCycle
    requires forall i | 0 <= i < k :: onCycle[i] in Members(components)
    ensures component[0] == onCycle[k]
  {
    hide AreClasses, StrLt;
    var x := component[0];
    assert x in component;
    var i :| 0 <= i < |onCycle| && onCycle[i] == x;
    var j :| 0 <= j < |component| && component[j] == onCycle[k];
    if i < k {
      var c :| c in components && x in c;
      OneComponent(g, components, component, c, x);
      assert false;
    } else if i > k {
      StrLtIrreflexive(x);
      if j > 0 { StrLtTransitive(x, onCycle[k], x); }
      assert false;
    }
  }

  lemma OneComponent(g: Graph, components: seq<seq<string>>, component: seq<string>, c: seq<string>, x: string)
    requires AreClasses(g, components + [component]) && c in components && x in c
    ensures x !in component
  {
    var all := components + [component];
    var n :| 0 <= n < |components| && components[n] == c;
    assert all[n] == c && all[|components|] == component;
    assert x in Elems(all[n]);
  }

  lemma AscendOneMore(components: seq<seq<string>>, onCycle: seq<string>, k: nat, component: seq<string>)
    requires k < |onCycle| && StrictlySorted(StrLt, onCycle) && StrictlySorted(StrLt, component)
    requires Ascend(components) && HeadsBefore(components, onCycle, k)
    requires component != [] && component[0] == onCycle[k]
    ensures Ascend(components + [component]) && HeadsBefore(components + [component], onCycle, k + 1)
  {
    var all := components + [component];
    forall i | 0 <= i < |components| ensures all[i] != [] && StrLt(all[i][0], component[0]) {
      assert all[i] in components;
      var m :| 0 <= m < k && onCycle[..k][m] == all[i][0];
    }
    assert onCycle[..k + 1] == onCycle[..k] + [onCycle[k]];
  }

  lemma ClassOf(g: Graph, node: string, onCycle: seq<string>, component: seq<string>)
    requires OnCycle(g, node) && NoDup(component)
    requires forall n :: n in onCycle <==> OnCycle(g, n)
    requires forall x :: x in component <==> x in onCycle && Mutual(g, node, x)
    ensures node in component && IsClass(g, component)
  {
    forall x, y | x in component ensures y in component <==> Mutual(g, x, y) {
      MutualSymmetric(g, node, x);
      if Mutual(g, x, y) {
        MutualTransitive(g, node, x, y);
        ReachesTransitive(g, y, x, y);
      }
      if Mutual(g, node, y) { MutualTransitive(g, x, node, y); }
    }
  }

  lemma AddClass(g: Graph, components: seq<seq<string>>, component: seq<string>, node: string)
    requires AreClasses(g, components) && IsClass(g, component)
    requires node in component && forall c | c in components :: node !in c
    ensures AreClasses(g, components + [component])
  {
    forall c, x | c in components && x in c ensures x !in component {
      MutualSymmetric(g, x, node);
      assert x in component ==> Mutual(g, x, node);
    }
    var all := components + [component];
    forall i, j | 0 <= i < j < |all| ensures Elems(all[i]) !! Elems(all[j]) {
      if j == |components| { assert all[i] in components; }
    }
  }
}
