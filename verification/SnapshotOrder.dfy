/**
 The order a snapshot is supplied in. Normalising sorts it by kind, key and
 identity, and the sort is stable: it forgets the order of everything but the
 copies of one identity, and hands their order on to resolution.
 */
module SnapshotOrder {
  import opened Base
  import opened ContextModel
  import opened Reachability
  import opened Supersession
  import opened Resolution
  import opened ResolutionLaws
  import opened OrderMatters

  // ---- a stable sort -----------------------------------------------------

  /** Strict, and what is not above a bound is above whatever is below the bound. */
  ghost predicate WeakOrder<T(!new)>(lt: (T, T) -> bool)
  {
    && (forall a :: !lt(a, a))
    && (forall a, b, c | lt(a, b) && lt(b, c) :: lt(a, c))
    && (forall a, b, c | lt(a, b) && !lt(c, b) :: lt(a, c))
  }

  ghost predicate Ordered<T(!new)>(lt: (T, T) -> bool, xs: seq<T>)
  {
    forall i, j | 0 <= i < j < |xs| :: !lt(xs[j], xs[i])
  }

  lemma AboveAll<T(!new)>(lt: (T, T) -> bool, x: T, xs: seq<T>)
    requires WeakOrder(lt) && Ordered(lt, xs) && xs != [] && lt(x, xs[0])
    ensures forall z | z in xs :: lt(x, z) && !lt(z, x)
  {
    forall z | z in xs ensures lt(x, z) && !lt(z, x) {
      var j :| 0 <= j < |xs| && xs[j] == z;
      assert j == 0 || !lt(xs[j], xs[0]);
    }
  }

  lemma InsertHas<T(!new)>(lt: (T, T) -> bool, x: T, xs: seq<T>)
    ensures forall z :: z in Insert(lt, x, xs) <==> z == x || z in xs
  {
    forall z ensures z in Insert(lt, x, xs) <==> z == x || z in xs {
      assert z in Insert(lt, x, xs) <==> z in multiset(Insert(lt, x, xs));
      assert z in xs <==> z in multiset(xs);
    }
  }

  lemma ConsOrdered<T(!new)>(lt: (T, T) -> bool, h: T, t: seq<T>)
    requires Ordered(lt, t) && forall z | z in t :: !lt(z, h)
    ensures Ordered(lt, [h] + t)
  {
    forall i, j | 0 <= i < j < |[h] + t| ensures !lt(([h] + t)[j], ([h] + t)[i]) { assert ([h] + t)[j] in t; }
  }

  lemma OrderedTail<T(!new)>(lt: (T, T) -> bool, xs: seq<T>)
    requires Ordered(lt, xs) && xs != []
    ensures Ordered(lt, xs[1..]) && forall z | z in xs[1..] :: !lt(z, xs[0])
  {
    forall z | z in xs[1..] ensures !lt(z, xs[0]) {
      var j :| 0 <= j < |xs[1..]| && xs[1..][j] == z;
      assert xs[j + 1] == z;
    }
  }

  lemma {:induction false} InsertOrdered<T(!new)>(lt: (T, T) -> bool, x: T, xs: seq<T>)
    requires WeakOrder(lt) && Ordered(lt, xs)
    ensures Ordered(lt, Insert(lt, x, xs))
  {
    if xs == [] {
    } else if lt(x, xs[0]) {
      AboveAll(lt, x, xs);
      ConsOrdered(lt, x, xs);
    } else {
      OrderedTail(lt, xs);
      InsertOrdered(lt, x, xs[1..]);
      InsertHas(lt, x, xs[1..]);
      ConsOrdered(lt, xs[0], Insert(lt, x, xs[1..]));
    }
  }

  lemma {:induction false} SortOrdered<T(!new)>(lt: (T, T) -> bool, xs: seq<T>)
    requires WeakOrder(lt)
    ensures Ordered(lt, Sort(lt, xs))
  {
    if xs != [] {
      SortOrdered(lt, xs[..|xs| - 1]);
      InsertOrdered(lt, xs[|xs| - 1], Sort(lt, xs[..|xs| - 1]));
    }
  }

  lemma FilterCons<T(!new)>(p: T -> bool, h: T, t: seq<T>)
    ensures Filter(p, [h] + t) == if p(h) then [h] + Filter(p, t) else Filter(p, t)
  {
    FilterConcat(p, [h], t);
    assert [h][..0] == [] && [h][0] == h;
    assert Filter(p, [h]) == if p(h) then [h] else [];
  }

  lemma InsertFront<T(!new)>(lt: (T, T) -> bool, x: T, xs: seq<T>)
    requires forall z | z in xs :: lt(x, z)
    ensures Insert(lt, x, xs) == [x] + xs
  {
    if xs != [] { assert xs[0] in xs; }
  }

  lemma {:induction false} FilterInsert<T(!new)>(p: T -> bool, lt: (T, T) -> bool, x: T, xs: seq<T>)
    requires WeakOrder(lt) && Ordered(lt, xs)
    ensures Filter(p, Insert(lt, x, xs)) == if p(x) then Insert(lt, x, Filter(p, xs)) else Filter(p, xs)
  {
    hide WeakOrder, Ordered, Filter;
    if xs == [] {
      assert [x] + [] == [x];
      FilterCons(p, x, []);
      FilterEmpty(p);
    } else if lt(x, xs[0]) {
      AboveAll(lt, x, xs);
      FilterCons(p, x, xs);
      InsertFront(lt, x, Filter(p, xs));
    } else {
      var h, t := xs[0], xs[1..];
      assert xs == [h] + t;
      OrderedTail(lt, xs);
      InsertPast(lt, x, h, t);
      FilterInsert(p, lt, x, t);
      FilterCons(p, h, t);
      FilterCons(p, h, Insert(lt, x, t));
      if p(h) && p(x) { InsertPast(lt, x, h, Filter(p, t)); }
    }
  }

  lemma FilterEmpty<T(!new)>(p: T -> bool)
    ensures Filter(p, []) == []
  {
  }

  lemma InsertPast<T>(lt: (T, T) -> bool, x: T, h: T, t: seq<T>)
    requires !lt(x, h)
    ensures Insert(lt, x, [h] + t) == [h] + Insert(lt, x, t)
  {
    assert ([h] + t)[1..] == t;
  }

  /** Picking some elements out before a stable sort or after it is the same. */
  lemma {:induction false} FilterSort<T(!new)>(p: T -> bool, lt: (T, T) -> bool, xs: seq<T>)
    requires WeakOrder(lt)
    ensures Filter(p, Sort(lt, xs)) == Sort(lt, Filter(p, xs))
  {
    if xs != [] {
      hide WeakOrder;
      var init, last := xs[..|xs| - 1], xs[|xs| - 1];
      FilterSort(p, lt, init);
      SortOrdered(lt, init);
      FilterInsert(p, lt, last, Sort(lt, init));
      if p(last) { SortSnoc(lt, Filter(p, init), last); }
    }
  }

  lemma SortSnoc<T>(lt: (T, T) -> bool, xs: seq<T>, x: T)
    ensures Sort(lt, xs + [x]) == Insert(lt, x, Sort(lt, xs))
  {
    assert (xs + [x])[..|xs|] == xs;
  }

  /** Elements none of which is above another keep their order. */
  lemma {:induction false} SortLevel<T(!new)>(lt: (T, T) -> bool, xs: seq<T>)
    requires forall a, b | a in xs && b in xs :: !lt(a, b)
    ensures Sort(lt, xs) == xs
  {
    if xs != [] {
      var init, last := xs[..|xs| - 1], xs[|xs| - 1];
      assert xs == init + [last];
      SortLevel(lt, init);
      InsertBack(lt, last, init);
    }
  }

  lemma {:induction false} InsertBack<T(!new)>(lt: (T, T) -> bool, x: T, xs: seq<T>)
    requires forall z | z in xs :: !lt(x, z)
    ensures Insert(lt, x, xs) == xs + [x]
  {
    if xs != [] {
      InsertBack(lt, x, xs[1..]);
      assert xs == [xs[0]] + xs[1..];
    }
  }

  // ---- the snapshot's order ----------------------------------------------

  lemma SortKeyFacts(a: Item, b: Item, c: Item)
    ensures !SortKeyLt(a, a)
    ensures SortKeyLt(a, b) && SortKeyLt(b, c) ==> SortKeyLt(a, c)
    ensures SortKeyLt(a, b) && !SortKeyLt(c, b) ==> SortKeyLt(a, c)
  {
    StrLtIrreflexive(a.id);
    if SortKeyLt(a, b) && SortKeyLt(b, c) { SortKeyLtTransitive(a, b, c); }
    if SortKeyLt(a, b) && !SortKeyLt(c, b) { SortKeyAbove(a, b, c); }
  }

  lemma SortKeyAbove(a: Item, b: Item, c: Item)
    requires SortKeyLt(a, b) && !SortKeyLt(c, b)
    ensures SortKeyLt(a, c)
  {
    var kb, kc := KindValue(b.Kind()), KindValue(c.Kind());
    if kb != kc { StrLtTotal(kb, kc); } else if b.key != c.key { StrLtTotal(b.key, c.key); }
    else if b.id != c.id { StrLtTotal(b.id, c.id); }
    if SortKeyLt(b, c) { SortKeyLtTransitive(a, b, c); }
  }

  lemma SortKeyIsWeak()
    ensures WeakOrder(SortKeyLt)
  {
    forall a, b, c: Item
      ensures !SortKeyLt(a, a)
      ensures SortKeyLt(a, b) && SortKeyLt(b, c) ==> SortKeyLt(a, c)
      ensures SortKeyLt(a, b) && !SortKeyLt(c, b) ==> SortKeyLt(a, c)
    {
      SortKeyFacts(a, b, c);
    }
  }

  /** `resolve_snapshot`: the candidates sorted by kind, key and identity. */
  function Normalised(xs: seq<Item>): seq<Item> { Sort(SortKeyLt, xs) }

  /** The copies of an identity, in the order they are listed. */
  ghost function CopiesIn(xs: seq<Item>, id: string): seq<Item>
  {
    Filter((i: Item) => i.id == id, xs)
  }

  lemma CopiesSnoc(init: seq<Item>, last: Item, id: string)
    ensures CopiesIn(init + [last], id) == CopiesIn(init, id) + (if last.id == id then [last] else [])
  {
    assert (init + [last])[..|init|] == init;
  }

  /** The index keeps the last copy of an identity, if there is one. */
  ghost predicate KeepsLast(copies: seq<Item>, idx: Index, id: string)
  {
    if copies == [] then id !in idx else id in idx && idx[id] == copies[|copies| - 1]
  }

  lemma {:induction false} IndexIsLast(xs: seq<Item>, id: string)
    ensures KeepsLast(CopiesIn(xs, id), IndexOf(xs), id)
  {
    if xs != [] {
      hide CopiesIn;
      var init, last := xs[..|xs| - 1], xs[|xs| - 1];
      assert xs == init + [last];
      IndexIsLast(init, id);
      IndexSnoc(init, last);
      CopiesSnoc(init, last, id);
    }
  }

  lemma CopyLevel(m: set<Item>, a: Item, b: Item)
    requires WellIdentified(m) && a in m && b in m && a.id == b.id
    ensures !SortKeyLt(a, b)
  {
    StrLtIrreflexive(a.id);
  }

  lemma CopiesLevel(xs: seq<Item>, id: string)
    requires WellIdentified(Elems(xs))
    ensures forall a, b | a in CopiesIn(xs, id) && b in CopiesIn(xs, id) :: !SortKeyLt(a, b)
  {
    hide WellIdentified, SortKeyLt;
    forall a, b | a in CopiesIn(xs, id) && b in CopiesIn(xs, id) ensures !SortKeyLt(a, b) {
      CopyLevel(Elems(xs), a, b);
    }
  }

  /** Normalising keeps the copies of an identity in the order they were supplied in. */
  lemma SortKeepsCopies(xs: seq<Item>, id: string)
    requires WellIdentified(Elems(xs))
    ensures CopiesIn(Normalised(xs), id) == CopiesIn(xs, id)
  {
    hide WeakOrder, SortKeyLt, WellIdentified, Elems, Filter, Sort;
    SortKeyIsWeak();
    FilterSort((i: Item) => i.id == id, SortKeyLt, xs);
    CopiesLevel(xs, id);
    SortLevel(SortKeyLt, CopiesIn(xs, id));
  }

  /** So the index keeps the copy it would have kept. */
  lemma SortKeepsIndex(xs: seq<Item>)
    requires WellIdentified(Elems(xs))
    ensures IndexOf(Normalised(xs)) == IndexOf(xs) && Elems(Normalised(xs)) == Elems(xs)
  {
    hide WellIdentified, IndexOf, SortKeyLt, CopiesIn, Sort;
    var sorted := Normalised(xs);
    SameMultisetSameElems(sorted, xs);
    forall id ensures id in IndexOf(sorted) <==> id in IndexOf(xs)
              ensures id in IndexOf(xs) ==> IndexOf(sorted)[id] == IndexOf(xs)[id] {
      SortKeepsCopies(xs, id);
      IndexIsLast(xs, id);
      IndexIsLast(sorted, id);
    }
  }

  // ---- what normalising forgets ------------------------------------------

  lemma TailOrdered(xs: seq<Item>)
    requires xs != [] && Ordered(SortKeyLt, xs)
    ensures Ordered(SortKeyLt, xs[1..]) && multiset(xs) == multiset{xs[0]} + multiset(xs[1..])
  {
    hide SortKeyLt;
    OrderedTail(SortKeyLt, xs);
    assert xs == [xs[0]] + xs[1..];
  }

  /** Items of one sort key are copies of one identity. */
  lemma LevelIsSame(a: Item, b: Item)
    requires !SortKeyLt(a, b) && !SortKeyLt(b, a)
    ensures a.id == b.id
  {
    var ka, kb := KindValue(a.Kind()), KindValue(b.Kind());
    if ka != kb { StrLtTotal(ka, kb); }
    else if a.key != b.key { StrLtTotal(a.key, b.key); }
    else if a.id != b.id { StrLtTotal(a.id, b.id); }
  }

  /** One copy for each identity: a list has one order. */
  lemma {:induction false} OneOrder(a: seq<Item>, b: seq<Item>)
    requires multiset(a) == multiset(b) && IdsDistinct(Elems(a))
    requires Ordered(SortKeyLt, a) && Ordered(SortKeyLt, b)
    ensures a == b
  {
    hide SortKeyLt;
    SameMultisetSameElems(a, b);
    if a != [] {
      FirstSame(a, b);
      TailOrdered(a);
      TailOrdered(b);
      assert Elems(a[1..]) <= Elems(a);
      SameRest(multiset(a[1..]), multiset(b[1..]), a[0]);
      OneOrder(a[1..], b[1..]);
      assert a == [a[0]] + a[1..] && b == [b[0]] + b[1..];
    }
  }

  lemma SameRest<T>(p: multiset<T>, q: multiset<T>, x: T)
    requires multiset{x} + p == multiset{x} + q
    ensures p == q
  {
    assert p == (multiset{x} + p) - multiset{x} && q == (multiset{x} + q) - multiset{x};
  }

  lemma FirstSame(a: seq<Item>, b: seq<Item>)
    requires a != [] && b != [] && Elems(a) == Elems(b) && IdsDistinct(Elems(a))
    requires Ordered(SortKeyLt, a) && Ordered(SortKeyLt, b)
    ensures a[0] == b[0]
  {
    hide SortKeyLt;
    InElems(a);
    InElems(b);
    assert a[0] in b && b[0] in a;
    NotAboveFirst(a, b[0]);
    NotAboveFirst(b, a[0]);
    LevelIsSame(a[0], b[0]);
  }

  lemma NotAboveFirst(a: seq<Item>, x: Item)
    requires a != [] && Ordered(SortKeyLt, a) && x in a
    ensures !SortKeyLt(x, a[0])
  {
    SortKeyFacts(x, x, x);
    var j :| 0 <= j < |a| && a[j] == x;
  }

  /**
   Normalising forgets the order a snapshot is supplied in exactly when no two of
   its candidates share an identity and differ.
   */
  lemma SnapshotForgetsOrderIff(a: seq<Item>)
    requires WellIdentified(Elems(a))
    ensures (forall b | multiset(b) == multiset(a) :: Normalised(b) == Normalised(a)) <==>
      IdsDistinct(Elems(a))
  {
    hide WellIdentified, IdsDistinct, Normalised;
    if IdsDistinct(Elems(a)) {
      forall b | multiset(b) == multiset(a) ensures Normalised(b) == Normalised(a) { SortsAlike(a, b); }
    }
    if forall b | multiset(b) == multiset(a) :: Normalised(b) == Normalised(a) {
      forall b | multiset(b) == multiset(a) ensures IndexOf(b) == IndexOf(a) {
        assert Normalised(b) == Normalised(a);
        SameMultisetSameElems(a, b);
        SortKeepsIndex(a);
        SortKeepsIndex(b);
      }
      IndexIgnoresOrderIff(a);
    }
  }

  lemma SortsAlike(a: seq<Item>, b: seq<Item>)
    requires IdsDistinct(Elems(a)) && multiset(b) == multiset(a)
    ensures Normalised(b) == Normalised(a)
  {
    hide IdsDistinct, SortKeyLt, WeakOrder;
    SortKeyIsWeak();
    SortOrdered(SortKeyLt, a);
    SortOrdered(SortKeyLt, b);
    SameMultisetSameElems(Normalised(a), a);
    OneOrder(Normalised(a), Normalised(b));
  }

  // ---- what it hands on --------------------------------------------------

  /** One kind's candidates of the normalised snapshot are that kind's candidates, normalised. */
  lemma KindSorted(items: seq<Item>, kind: Kind)
    ensures OfKind(Normalised(items), kind) == Normalised(OfKind(items, kind))
  {
    hide SortKeyLt, WeakOrder;
    SortKeyIsWeak();
    FilterSort((i: Item) => i.Kind() == kind, SortKeyLt, items);
  }

  /** Survival is the same before and after normalising. */
  lemma NormalisingKeepsSurvival(items: seq<Item>, x: Item)
    requires DeclaresSupersession(x.Kind()) && WellIdentified(Elems(OfKind(items, x.Kind())))
    ensures SurvivesIn(Normalised(items), x) <==> SurvivesIn(items, x)
  {
    hide WellIdentified, OfKind, SortKeyLt, Survives;
    KindSorted(items, x.Kind());
    SortKeepsIndex(OfKind(items, x.Kind()));
  }

  /** So are the edges the gate accepts. */
  lemma NormalisingKeepsGate(a: seq<Item>, e: Edge)
    requires WellIdentified(Elems(a))
    ensures Accepts(Normalised(a), e) <==> Accepts(a, e)
  {
    hide WellIdentified, SortKeyLt, Accepted;
    SortKeepsIndex(a);
  }

  /** A normalised snapshot accepts the same edges in every order exactly when the gate is blind to copies. */
  lemma SnapshotEdgesIgnoreOrderIff(a: seq<Item>)
    requires WellIdentified(Elems(a))
    ensures (forall b | multiset(b) == multiset(a) :: SameGate(Normalised(a), Normalised(b))) <==>
      GateIsCopyBlind(a)
  {
    hide WellIdentified, Accepts, GateIsCopyBlind, Normalised, SameGate;
    EdgesIgnoreOrderIff(a);
    forall b | multiset(b) == multiset(a) ensures SameGate(Normalised(a), Normalised(b)) <==> SameGate(a, b) {
      SameMultisetSameElems(a, b);
      SameGateNormalised(a, b);
    }
  }

  lemma SameGateNormalised(a: seq<Item>, b: seq<Item>)
    requires WellIdentified(Elems(a)) && WellIdentified(Elems(b))
    ensures SameGate(Normalised(a), Normalised(b)) <==> SameGate(a, b)
  {
    hide WellIdentified, Accepts, Normalised;
    forall e ensures Accepts(Normalised(a), e) <==> Accepts(a, e)
             ensures Accepts(Normalised(b), e) <==> Accepts(b, e)
    {
      NormalisingKeepsGate(a, e);
      NormalisingKeepsGate(b, e);
    }
  }

  /**
   The failing input, as a snapshot the compiler can be given: where copies disagree
   about a claim's one rival, the order they are supplied in decides, through the
   normalising sort, whether the claim survives.
   */
  lemma SnapshotOrderDecides(items: seq<Item>, x: Item, rival: string) returns (p: seq<Item>, q: seq<Item>)
    requires DeclaresSupersession(x.Kind()) && x in items && !x.Marked()
    requires WellIdentified(Elems(OfKind(items, x.Kind()))) && SoleRival(OfKind(items, x.Kind()), x.id, rival)
    requires !CopyBlind(Elems(OfKind(items, x.Kind())), (rival, x.id))
    ensures multiset(p) == multiset(items) == multiset(q)
    ensures !SurvivesIn(Normalised(p), x) && SurvivesIn(Normalised(q), x)
  {
    hide WellIdentified, OfKind, SortKeyLt, SoleRival, CopyBlind, SurvivesIn;
    p, q := OrderDecidesAmongCandidates(items, x, rival);
    SameMultisetSameElems(items, p);
    SameMultisetSameElems(items, q);
    OfKindElems(items, p, x.Kind());
    OfKindElems(items, q, x.Kind());
    NormalisingKeepsSurvival(p, x);
    NormalisingKeepsSurvival(q, x);
  }
}
