/**
 What resolution guarantees: it is a function of the candidate set, an identity
 has one carrier in every view, and a view selects only representatives.
 */
module ResolutionLaws {
  import opened Base
  import opened ContextModel
  import opened Reachability
  import opened Supersession
  import opened Resolution

  // ---- the identity index ------------------------------------------------

  lemma IndexEntry(a: seq<Item>, id: string)
    requires id in IndexOf(a)
    ensures IndexOf(a)[id] in Elems(a) && IndexOf(a)[id].id == id
  {
  }

  lemma IndexCovers(a: seq<Item>, x: Item)
    requires x in Elems(a)
    ensures x.id in IndexOf(a)
  {
  }

  lemma IndexAgrees(a: seq<Item>, b: seq<Item>, id: string)
    requires Elems(a) == Elems(b) && IdsDistinct(Elems(a)) && id in IndexOf(a)
    ensures id in IndexOf(b) && IndexOf(a)[id] == IndexOf(b)[id]
  {
    IndexEntry(a, id);
    IndexCovers(b, IndexOf(a)[id]);
    IndexEntry(b, id);
  }

  /** With one copy per identity the index is a function of the set. */
  lemma IndexForgetsOrder(a: seq<Item>, b: seq<Item>)
    requires Elems(a) == Elems(b) && IdsDistinct(Elems(a))
    ensures IndexOf(a) == IndexOf(b)
  {
    hide IndexOf, IdsDistinct, Elems;
    var x, y := IndexOf(a), IndexOf(b);
    forall id | id in x ensures id in y && x[id] == y[id] { IndexAgrees(a, b, id); }
    forall id | id in y ensures id in x { IndexAgrees(b, a, id); }
  }

  lemma SameEntry(a: seq<Item>, b: seq<Item>, va: View, vb: View, e: Entry)
    requires Resolves(a, va) && Resolves(b, vb) && GroupMembers(a, e.key) == GroupMembers(b, e.key)
    requires e in va.groups
    ensures e in vb.groups
  {
    assert HasKey(va.groups, e.key);
    var f :| f in vb.groups && f.key == e.key;
    assert f.group == GroupFor(b, e.key) == GroupFor(a, e.key) == e.group;
  }

  lemma MoveToEnd<T>(a: seq<T>, k: nat)
    requires k < |a|
    ensures multiset(a[..k] + a[k + 1..] + [a[k]]) == multiset(a)
  {
    assert a == a[..k] + [a[k]] + a[k + 1..];
  }

  lemma LastCopyWins(a: seq<Item>, z: Item)
    requires z in a
    ensures exists b :: multiset(b) == multiset(a) && z.id in IndexOf(b) && IndexOf(b)[z.id] == z
  {
    var k :| 0 <= k < |a| && a[k] == z;
    var rest := a[..k] + a[k + 1..];
    MoveToEnd(a, k);
    IndexSnoc(rest, z);
    var b := rest + [z];
    assert multiset(b) == multiset(a) && z.id in IndexOf(b) && IndexOf(b)[z.id] == z;
  }

  /**
   The index keeps the last copy of an identity, so it ignores order exactly
   when no two candidates share an identity and differ.
   */
  lemma IndexIgnoresOrderIff(a: seq<Item>)
    ensures (forall b | multiset(b) == multiset(a) :: IndexOf(b) == IndexOf(a)) <==> IdsDistinct(Elems(a))
  {
    if IdsDistinct(Elems(a)) {
      forall b | multiset(b) == multiset(a) ensures IndexOf(b) == IndexOf(a) {
        SameMultisetSameElems(a, b);
        IndexForgetsOrder(a, b);
      }
    } else {
      var x, y :| x in Elems(a) && y in Elems(a) && x.id == y.id && x != y;
      var z := if IndexOf(a)[x.id] == x then y else x;
      LastCopyWins(a, z);
      var b :| multiset(b) == multiset(a) && z.id in IndexOf(b) && IndexOf(b)[z.id] == z;
      assert IndexOf(b)[z.id] == z;
    }
  }

  // ---- a view selects only representatives -------------------------------

  lemma SurvivorsByKey(items: seq<Item>, k: GroupKey)
    ensures GroupMembers(items, k) <= Elems(items)
  {
  }

  /** A resolution offers distinct claims of the group and nothing else. */
  ghost predicate Within(g: Group, reps: seq<Item>)
  {
    NoDup(g.items) && forall i | i in g.items :: i in reps
  }

  lemma AuthorityWithin(reps: seq<Item>)
    requires reps != [] && NoDup(reps)
    ensures Within(ResolveByAuthority(reps), reps)
  {
  }

  lemma LawWithin(reps: seq<Item>)
    requires reps != [] && NoDup(reps) && forall i | i in reps :: i.claim.LawClaim?
    ensures Within(ResolveLaw(reps), reps)
  {
    AuthorityWithin(reps);
    if forall i | i in reps :: i.claim.precedence.Some? {
      var best := LeastPrecedence(reps);
      var top := Filter((i: Item) => i.claim.LawClaim? && i.claim.precedence == Some(best), reps);
      if top != [] { AuthorityWithin(top); }
    }
  }

  lemma SortWithin(reps: seq<Item>)
    requires NoDup(reps)
    ensures NoDup(Sort(SortKeyLt, reps)) && forall i | i in Sort(SortKeyLt, reps) :: i in reps
  {
    var sorted := Sort(SortKeyLt, reps);
    SameMultisetSameElems(sorted, reps);
    NoDupCard(reps);
    NoDupCard(sorted);
    forall i | i in sorted ensures i in reps { assert i in Elems(sorted); }
  }

  lemma ResolvedWithin(kind: Kind, reps: seq<Item>)
    requires reps != [] && NoDup(reps) && forall i | i in reps :: i.Kind() == kind
    ensures Within(ResolveGroup(kind, reps), reps)
  {
    if |reps| != 1 {
      match kind
      case EvidenceRef => SortWithin(reps);
      case MemoryContext => SortWithin(reps);
      case ApplicableLaw =>
        assert forall i | i in reps :: i.Kind() == ApplicableLaw && i.claim.LawClaim?;
        LawWithin(reps);
      case _ => AuthorityWithin(reps);
    }
  }

  lemma ListedElems(s: set<Item>)
    requires IdsDistinct(s)
    ensures NoDup(Listed(SortKeyLt, s))
    ensures forall i | i in Listed(SortKeyLt, s) :: i in s
  {
    var xs := Listed(SortKeyLt, s);
    if StrictlySorted(SortKeyLt, xs) && Elems(xs) == s {
      SortKeyOrder(s);
      StrictlySortedNoDup(SortKeyLt, xs);
      forall i | i in xs ensures i in s { assert i in Elems(xs); }
    }
  }

  lemma GroupItemsAreReps(items: seq<Item>, k: GroupKey)
    requires WellIdentified(Elems(items))
    ensures forall i | i in GroupFor(items, k).items :: i in Reps(GroupMembers(items, k))
    ensures NoDup(GroupFor(items, k).items)
  {
    SurvivorsByKey(items, k);
    RepsHaveDistinctIds(GroupMembers(items, k));
    var reps := Listed(SortKeyLt, Reps(GroupMembers(items, k)));
    ListedElems(Reps(GroupMembers(items, k)));
    if reps != [] && forall i | i in reps :: i.Kind() == k.kind { ResolvedWithin(k.kind, reps); }
  }

  /** `i` is on offer: the group it stands in settled on it. */
  ghost predicate OnOffer(v: View, i: Item)
  {
    exists e :: e in v.groups && !e.group.conflict && i in e.group.items
  }

  ghost predicate InConflict(v: View, key: string)
  {
    exists e :: e in v.groups && e.group.conflict && e.key.key == key
  }

  /** The items a view offers, in the order its groups are listed. */
  function ViewItems(groups: seq<Entry>): seq<Item>
  {
    if groups == [] then []
    else
      var last := groups[|groups| - 1];
      ViewItems(groups[..|groups| - 1]) + (if last.group.conflict then [] else last.group.items)
  }

  lemma {:induction false} InViewItems(groups: seq<Entry>, i: Item)
    ensures i in ViewItems(groups) <==> exists e :: e in groups && !e.group.conflict && i in e.group.items
  {
    if groups != [] {
      var init, last := groups[..|groups| - 1], groups[|groups| - 1];
      assert groups == init + [last];
      InViewItems(init, i);
    }
  }

  /** What the source's requirement sees: the candidates it matches. */
  function Eligible(cands: seq<Item>, r: Requirement): seq<Item>
  {
    Filter((i: Item) => Matches(r, i), cands)
  }

  lemma ViewItemIsRep(items: seq<Item>, v: View, i: Item)
    requires WellIdentified(Elems(items)) && Resolves(items, v) && i in ViewItems(v.groups)
    ensures i in Reps(GroupMembers(items, KeyOf(i))) && i in items
    ensures exists e :: e in v.groups && e.key == KeyOf(i) && !e.group.conflict && i in e.group.items
  {
    InViewItems(v.groups, i);
    var e :| e in v.groups && !e.group.conflict && i in e.group.items;
    GroupItemsAreReps(items, e.key);
  }

  /** A view never offers the same item, or the same identity, twice. */
  lemma ViewItemsDistinct(items: seq<Item>, v: View)
    requires WellIdentified(Elems(items)) && Resolves(items, v)
    ensures NoDup(ViewItems(v.groups)) && IdsDistinct(Elems(ViewItems(v.groups)))
  {
    forall n: nat | n < |v.groups| ensures FreshAt(v.groups, n) { OfferedDistinct(items, v, n); }
    ApartDistinct(v.groups, |v.groups|);
    assert v.groups[..|v.groups|] == v.groups;
    forall a, b | a in Elems(ViewItems(v.groups)) && b in Elems(ViewItems(v.groups)) && a.id == b.id ensures a == b {
      SameIdSameItem(items, v, a, b);
    }
  }

  lemma SameIdSameItem(items: seq<Item>, v: View, a: Item, b: Item)
    requires WellIdentified(Elems(items)) && Resolves(items, v)
    requires a in ViewItems(v.groups) && b in ViewItems(v.groups) && a.id == b.id
    ensures a == b
  {
    ViewItemIsRep(items, v, a);
    ViewItemIsRep(items, v, b);
    SameIdSameRep(items, a, b);
  }

  lemma SameIdSameRep(items: seq<Item>, a: Item, b: Item)
    requires WellIdentified(Elems(items)) && a.id == b.id
    requires a in Reps(GroupMembers(items, KeyOf(a))) && b in Reps(GroupMembers(items, KeyOf(b)))
    ensures a == b
  {
    SameIdSameKey(items, a, b);
    SurvivorsByKey(items, KeyOf(a));
    RepUnique(GroupMembers(items, KeyOf(a)), a, b);
  }

  lemma SameIdSameKey(items: seq<Item>, a: Item, b: Item)
    requires WellIdentified(Elems(items)) && a in items && b in items && a.id == b.id
    ensures KeyOf(a) == KeyOf(b) && SameClaim(a, b)
  {
    assert a in Elems(items) && b in Elems(items);
  }

  /** Every item of a group carries the group's key. */
  lemma EntryItemKey(items: seq<Item>, v: View, e: Entry, i: Item)
    requires WellIdentified(Elems(items)) && Resolves(items, v) && e in v.groups && i in e.group.items
    ensures KeyOf(i) == e.key
  {
    GroupItemsAreReps(items, e.key);
  }

  function Offered(e: Entry): seq<Item> { if e.group.conflict then [] else e.group.items }

  lemma ViewItemsSnoc(groups: seq<Entry>, n: nat)
    requires n < |groups|
    ensures ViewItems(groups[..n + 1]) == ViewItems(groups[..n]) + Offered(groups[n])
  {
    assert groups[..n + 1][..n] == groups[..n] && groups[..n + 1][n] == groups[n];
  }

  /** Each group offers distinct items that no earlier group offers. */
  ghost predicate Apart(groups: seq<Entry>)
  {
    forall n: nat | n < |groups| :: FreshAt(groups, n)
  }

  ghost predicate FreshAt(groups: seq<Entry>, n: nat)
    requires n < |groups|
  {
    NoDup(Offered(groups[n])) && forall i | i in Offered(groups[n]) :: i !in ViewItems(groups[..n])
  }

  lemma {:induction false} ApartDistinct(groups: seq<Entry>, n: nat)
    requires Apart(groups) && n <= |groups|
    ensures NoDup(ViewItems(groups[..n]))
  {
    if n > 0 {
      hide NoDup;
      ApartDistinct(groups, n - 1);
      ViewItemsSnoc(groups, n - 1);
      assert FreshAt(groups, n - 1);
      NoDupConcat(ViewItems(groups[..n - 1]), Offered(groups[n - 1]));
    }
  }

  lemma OfferedDistinct(items: seq<Item>, v: View, n: nat)
    requires WellIdentified(Elems(items)) && Resolves(items, v) && n < |v.groups|
    ensures NoDup(Offered(v.groups[n]))
    ensures forall i | i in Offered(v.groups[n]) :: i !in ViewItems(v.groups[..n])
  {
    assert v.groups[n] in v.groups;
    GroupItemsAreReps(items, v.groups[n].key);
    forall i | i in Offered(v.groups[n]) ensures i !in ViewItems(v.groups[..n]) { NotInEarlierGroup(items, v, n, i); }
  }

  lemma NotInEarlierGroup(items: seq<Item>, v: View, n: nat, i: Item)
    requires WellIdentified(Elems(items)) && Resolves(items, v) && n < |v.groups|
    requires i in v.groups[n].group.items
    ensures i !in ViewItems(v.groups[..n])
  {
    EntryItemKey(items, v, v.groups[n], i);
    InViewItems(v.groups[..n], i);
    forall j | 0 <= j < n ensures i !in v.groups[j].group.items {
      if i in v.groups[j].group.items { EntryItemKey(items, v, v.groups[j], i); }
    }
  }

  /** A group survives whole or not at all: standing depends on identity, not on the copy. */
  lemma StrongerCopyStands(cands: seq<Item>, r: Requirement, weak: Item, strong: Item)
    requires WellIdentified(Elems(cands))
    requires weak in Eligible(cands, r) && SurvivesIn(Eligible(cands, r), weak)
    requires strong in cands && strong.id == weak.id && strong.Rank() <= weak.Rank()
    ensures strong in GroupMembers(Eligible(cands, r), KeyOf(weak)) && SameClaim(strong, weak)
  {
    assert weak in Elems(cands) && strong in Elems(cands);
    MatchesStronger(r, weak, strong);
  }

  /** One identity has one carrier in every view that offers it. */
  lemma SameCarrierEverywhere(cands: seq<Item>, r: Requirement, s: Requirement, v: View, w: View, x: Item, y: Item)
    requires WellIdentified(Elems(cands))
    requires Resolves(Eligible(cands, r), v) && Resolves(Eligible(cands, s), w)
    requires x in ViewItems(v.groups) && y in ViewItems(w.groups) && x.id == y.id
    ensures x == y
  {
    if x.Rank() <= y.Rank() { CarrierStep(cands, r, s, v, w, x, y); }
    else { CarrierStep(cands, s, r, w, v, y, x); }
  }

  lemma CarrierStep(cands: seq<Item>, r: Requirement, s: Requirement, v: View, w: View, x: Item, y: Item)
    requires WellIdentified(Elems(cands))
    requires Resolves(Eligible(cands, r), v) && Resolves(Eligible(cands, s), w)
    requires x in ViewItems(v.groups) && y in ViewItems(w.groups) && x.id == y.id && x.Rank() <= y.Rank()
    ensures x == y
  {
    hide Resolves, ViewItems, SurvivesIn, Matches, WellIdentified, GroupMembers, Reps;
    EligibleIdentified(cands, r);
    EligibleIdentified(cands, s);
    ViewItemIsRep(Eligible(cands, r), v, x);
    ViewItemIsRep(Eligible(cands, s), w, y);
    RepIsMember(Eligible(cands, s), KeyOf(y), y);
    StrongerCopyStands(cands, s, y, x);
    NoStrongerCopy(GroupMembers(Eligible(cands, s), KeyOf(y)), y, x);
    SameCopy(cands, x, y);
  }

  lemma RepIsMember(items: seq<Item>, k: GroupKey, y: Item)
    requires y in Reps(GroupMembers(items, k))
    ensures y in items && SurvivesIn(items, y)
  {
  }

  /** A representative is no weaker than any copy of its claim in the group. */
  lemma NoStrongerCopy(m: set<Item>, y: Item, x: Item)
    requires y in Reps(m) && x in m && SameClaim(x, y)
    ensures y.Rank() <= x.Rank()
  {
  }

  lemma SameCopy(cands: seq<Item>, x: Item, y: Item)
    requires WellIdentified(Elems(cands)) && x in cands && y in cands && x.id == y.id && x.Rank() == y.Rank()
    ensures x == y
  {
    assert x in Elems(cands) && y in Elems(cands);
  }

  lemma EligibleIdentified(cands: seq<Item>, r: Requirement)
    requires WellIdentified(Elems(cands))
    ensures WellIdentified(Elems(Eligible(cands, r))) && Elems(Eligible(cands, r)) <= Elems(cands)
  {
  }

  /** Every member of a group has a representative of its claim at least as strong. */
  lemma {:induction false} HasRep(m: set<Item>, y: Item) returns (z: Item)
    requires WellIdentified(m) && y in m
    ensures z in Reps(m) && SameClaim(z, y) && z.Rank() <= y.Rank()
    decreases m
  {
    if j :| j in m && SameClaim(y, j) && j != y && !RepLt(y, j) {
      RepLtTotal(m, y, j);
      z := HasRep(m - {y}, j);
      if j' :| j' in m && SameClaim(z, j') && j' != z && !RepLt(z, j') {
        assert j' == y;
        RepFirst(m, z, j, y);
        assert false;
      }
    } else {
      z := y;
    }
  }

  lemma RepFirst(m: set<Item>, z: Item, j: Item, y: Item)
    requires z in Reps(m - {y}) && j in m - {y} && SameClaim(z, j) && RepLt(j, y)
    ensures RepLt(z, y)
  {
    if z != j { RepLtTransitive(z, j, y); }
  }

  // ---- each kind's own rule ----------------------------------------------

  ghost predicate UniqueStrongest(reps: set<Item>, x: Item)
  {
    x in reps && forall y | y in reps && y != x :: x.Rank() < y.Rank()
  }

  lemma SoleElement<T>(xs: seq<T>, x: T)
    requires NoDup(xs) && x in xs && forall y | y in xs :: y == x
    ensures xs == [x]
  {
    NoDupCard(xs);
    assert Elems(xs) == {x};
  }

  lemma AuthorityPicks(reps: seq<Item>, x: Item)
    requires reps != [] && NoDup(reps)
    ensures !ResolveByAuthority(reps).conflict && x in ResolveByAuthority(reps).items <==>
      UniqueStrongest(Elems(reps), x)
    ensures UniqueStrongest(Elems(reps), x) ==> ResolveByAuthority(reps).items == [x]
    ensures ResolveByAuthority(reps).conflict ==> !UniqueStrongest(Elems(reps), x)
  {
    var top := Strongest(reps);
    if UniqueStrongest(Elems(reps), x) {
      var y :| y in reps && y.Rank() == LeastRank(reps);
      assert y in Elems(reps);
      assert x in top;
      forall z | z in top ensures z == x { assert z in Elems(reps); }
      SoleElement(top, x);
    }
    if |top| == 1 && x in top {
      forall y | y in Elems(reps) && y != x ensures x.Rank() < y.Rank() { assert y !in top; }
    }
  }

  predicate AllLaws(reps: set<Item>) { forall i | i in reps :: i.claim.LawClaim? }

  predicate AllDeclare(reps: set<Item>)
    requires AllLaws(reps)
  {
    forall i | i in reps :: i.claim.precedence.Some?
  }

  /** Lowest declared precedence, authority deciding between equals. */
  ghost predicate PrecedenceWinner(reps: set<Item>, x: Item)
    requires AllLaws(reps) && AllDeclare(reps)
  {
    x in reps && forall y | y in reps && y != x ::
      || x.claim.precedence.value < y.claim.precedence.value
      || (x.claim.precedence.value == y.claim.precedence.value && x.Rank() < y.Rank())
  }

  /** Same-key laws settle on the precedence winner when all declare one, else on the unique strongest. */
  lemma LawSettlesOn(reps: seq<Item>, x: Item)
    requires reps != [] && NoDup(reps) && AllLaws(Elems(reps))
    ensures !ResolveLaw(reps).conflict && x in ResolveLaw(reps).items <==>
      if AllDeclare(Elems(reps)) then PrecedenceWinner(Elems(reps), x) else UniqueStrongest(Elems(reps), x)
  {
    InElems(reps);
    if |reps| == 1 {
      assert reps == [reps[0]];
    } else if AllDeclare(Elems(reps)) {
      TopSettles(reps, x);
    } else {
      AuthorityPicks(reps, x);
    }
  }

  lemma InElems(reps: seq<Item>)
    ensures forall i :: i in reps <==> i in Elems(reps)
  {
  }

  lemma TopSettles(reps: seq<Item>, x: Item)
    requires |reps| > 1 && NoDup(reps) && AllLaws(Elems(reps)) && AllDeclare(Elems(reps))
    requires forall i | i in reps :: i.claim.LawClaim? && i.claim.precedence.Some?
    ensures !ResolveLaw(reps).conflict && x in ResolveLaw(reps).items <==> PrecedenceWinner(Elems(reps), x)
  {
    hide ResolveByAuthority;
    var best := LeastPrecedence(reps);
    var top := Filter((i: Item) => i.claim.LawClaim? && i.claim.precedence == Some(best), reps);
    var m :| m in reps && m.claim.precedence == Some(best);
    assert m in top;
    AuthorityPicks(top, x);
    TopWinner(reps, top, best, x);
    if |top| == 1 { assert top == [top[0]]; }
  }

  lemma TopWinner(reps: seq<Item>, top: seq<Item>, best: nat, x: Item)
    requires AllLaws(Elems(reps)) && AllDeclare(Elems(reps))
    requires forall i | i in reps :: i.claim.LawClaim? && i.claim.precedence.Some? && best <= i.claim.precedence.value
    requires top != [] && forall i :: i in top <==> i in reps && i.claim.precedence == Some(best)
    ensures PrecedenceWinner(Elems(reps), x) <==> UniqueStrongest(Elems(top), x)
  {
    assert top[0] in top;
    InElems(reps);
    InElems(top);
  }

  /**
   A wider view can reopen what a narrower one settled: a weaker law without
   precedence switches the group from precedence to authority, and two laws of
   equal authority then conflict.
   */
  lemma WeakerLawReopens(a: Item, b: Item, c: Item)
    requires AllLaws({a, b, c}) && a != b && c != a && c != b
    requires a.Rank() == b.Rank() < c.Rank() && c.claim.precedence.None?
    requires a.claim.precedence.Some? && b.claim.precedence.Some? && a.claim.precedence.value < b.claim.precedence.value
    ensures ResolveLaw([a, b]).items == [a] && !ResolveLaw([a, b]).conflict
    ensures ResolveLaw([a, b, c]).conflict
  {
    var reps := [a, b, c];
    assert reps[0] == a && reps[1] == b && reps[2] == c;
    assert Elems([a, b]) == {a, b};
    OnlyA(a, b);
    TieConflicts(reps, a, b, c);
  }

  /** Without a precedence from every law, two laws that tie for strongest conflict. */
  lemma TieConflicts(reps: seq<Item>, a: Item, b: Item, c: Item)
    requires (forall i | i in reps :: i.claim.LawClaim?) && NoDup(reps)
    requires a in reps && b in reps && c in reps && a != b
    requires c.claim.precedence.None? && a.Rank() == b.Rank() && forall i | i in reps :: a.Rank() <= i.Rank()
    ensures ResolveLaw(reps).conflict
  {
    hide ResolveByAuthority;
    assert |reps| > 1;
    forall x ensures !UniqueStrongest(Elems(reps), x) { assert a in Elems(reps) && b in Elems(reps); }
    if !ResolveByAuthority(reps).conflict { AuthorityOne(reps); }
  }

  lemma AuthorityOne(reps: seq<Item>)
    requires reps != [] && NoDup(reps) && !ResolveByAuthority(reps).conflict
    ensures exists x :: UniqueStrongest(Elems(reps), x)
  {
    var x := ResolveByAuthority(reps).items[0];
    AuthorityPicks(reps, x);
    assert UniqueStrongest(Elems(reps), x);
  }

  lemma OnlyA(a: Item, b: Item)
    requires AllLaws(Elems([a, b])) && a != b && AllDeclare(Elems([a, b]))
    requires forall i | i in [a, b] :: i.claim.LawClaim?
    requires a.claim.precedence.value < b.claim.precedence.value
    ensures ResolveLaw([a, b]).items == [a] && !ResolveLaw([a, b]).conflict
  {
    InElems([a, b]);
    LawSettlesOn([a, b], a);
    LawSettlesOn([a, b], b);
    LawWithin([a, b]);
    assert a in [a, b] && b in [a, b];
    assert PrecedenceWinner(Elems([a, b]), a) && !PrecedenceWinner(Elems([a, b]), b);
    var items := ResolveLaw([a, b]).items;
    forall k | 0 <= k < |items| ensures items[k] == a { assert items[k] in items; }
    SoleElement(items, a);
  }

  // ---- what a group settles on -------------------------------------------

  /** The coordinate a kind compares before authority: claims that differ in it conflict. */
  function CoordinateOf(i: Item): Option<string>
  {
    match i.claim
    case RepositoryClaim(revision, _) => Some(revision)
    case DependencyClaim(version, _) => version
    case _ => None
  }

  /** Each kind's rule, over the set of distinct claims: enrichment is kept whole, the rest settle on one claim. */
  ghost predicate Settles(kind: Kind, reps: set<Item>, x: Item)
  {
    match kind
    case EvidenceRef => x in reps
    case MemoryContext => x in reps
    case ApplicableLaw =>
      if AllLaws(reps) && AllDeclare(reps) then PrecedenceWinner(reps, x) else UniqueStrongest(reps, x)
    case _ => UniqueStrongest(reps, x) && forall y | y in reps :: CoordinateOf(y) == CoordinateOf(x)
  }

  lemma OneOf<T>(s: set<T>)
    ensures |s| > 1 <==> exists a, b :: a in s && b in s && a != b
  {
    if |s| > 1 {
      var a :| a in s;
      assert |s - {a}| > 0;
      var b :| b in s - {a};
    }
    if a, b :| a in s && b in s && a != b { assert b in s - {a}; assert |s - {a}| > 0; }
  }

  lemma RevisionsDiffer(reps: seq<Item>)
    requires forall i | i in reps :: i.Kind() == RepositoryState
    ensures |RevisionsOf(reps)| > 1 <==> exists a, b :: a in reps && b in reps && CoordinateOf(a) != CoordinateOf(b)
  {
    OneOf(RevisionsOf(reps));
    if a, b :| a in reps && b in reps && CoordinateOf(a) != CoordinateOf(b) {
      assert a.Kind() == RepositoryState && b.Kind() == RepositoryState;
      assert a.claim.revision in RevisionsOf(reps) && b.claim.revision in RevisionsOf(reps);
    }
  }

  lemma VersionsDiffer(reps: seq<Item>)
    requires forall i | i in reps :: i.Kind() == DependencyContext
    ensures |VersionsOf(reps)| > 1 <==> exists a, b :: a in reps && b in reps && CoordinateOf(a) != CoordinateOf(b)
  {
    OneOf(VersionsOf(reps));
    if a, b :| a in reps && b in reps && CoordinateOf(a) != CoordinateOf(b) {
      assert a.Kind() == DependencyContext && b.Kind() == DependencyContext;
      assert a.claim.version in VersionsOf(reps) && b.claim.version in VersionsOf(reps);
    }
  }

  /** Claims agree on their coordinate with `x`, a claim among them, exactly when no two of them differ. */
  lemma AgreeWithOne(reps: seq<Item>, x: Item)
    requires x in reps
    ensures (forall y | y in Elems(reps) :: CoordinateOf(y) == CoordinateOf(x)) <==>
      !exists a, b :: a in reps && b in reps && CoordinateOf(a) != CoordinateOf(b)
  {
    InElems(reps);
  }

  /** A claim alone under its key is settled on, whatever its kind. */
  lemma AloneSettles(kind: Kind, reps: seq<Item>, x: Item)
    requires |reps| == 1 && reps[0].Kind() == kind
    ensures x in reps <==> Settles(kind, Elems(reps), x)
  {
    assert reps == [reps[0]];
    assert Elems(reps) == {reps[0]};
  }

  lemma SettlesOn(kind: Kind, reps: seq<Item>, x: Item)
    requires reps != [] && NoDup(reps) && forall i | i in reps :: i.Kind() == kind
    ensures var g := ResolveGroup(kind, reps); !g.conflict && x in g.items <==> Settles(kind, Elems(reps), x)
  {
    InElems(reps);
    hide ResolveByAuthority, ResolveLaw, Sort, UniqueStrongest, PrecedenceWinner, RevisionsOf, VersionsOf, NoDup, Elems;
    if |reps| == 1 {
      AloneSettles(kind, reps, x);
    } else {
      match kind
      case EvidenceRef => InSort(reps, x);
      case MemoryContext => InSort(reps, x);
      case ApplicableLaw =>
        assert forall i | i in reps :: i.Kind() == ApplicableLaw && i.claim.LawClaim?;
        LawSettlesOn(reps, x);
      case RepositoryState => RevisionsDiffer(reps); CoordinatesSettle(reps, x);
      case DependencyContext => VersionsDiffer(reps); CoordinatesSettle(reps, x);
      case _ => CoordinatesSettle(reps, x); NoCoordinates(kind, reps);
    }
  }

  lemma NoCoordinates(kind: Kind, reps: seq<Item>)
    requires kind != RepositoryState && kind != DependencyContext && forall i | i in reps :: i.Kind() == kind
    ensures forall i | i in Elems(reps) :: CoordinateOf(i) == None
  {
    forall i | i in Elems(reps) ensures CoordinateOf(i) == None { assert i.Kind() == kind; }
  }

  lemma InSort(reps: seq<Item>, x: Item)
    ensures x in Sort(SortKeyLt, reps) <==> x in reps
  {
    SameMultisetSameElems(Sort(SortKeyLt, reps), reps);
    InElems(reps);
    InElems(Sort(SortKeyLt, reps));
  }

  lemma CoordinatesSettle(reps: seq<Item>, x: Item)
    requires reps != [] && NoDup(reps)
    ensures !ResolveByAuthority(reps).conflict && x in ResolveByAuthority(reps).items <==>
      UniqueStrongest(Elems(reps), x)
    ensures x in reps ==> ((forall y | y in Elems(reps) :: CoordinateOf(y) == CoordinateOf(x)) <==>
      !exists a, b :: a in reps && b in reps && CoordinateOf(a) != CoordinateOf(b))
    ensures UniqueStrongest(Elems(reps), x) ==> x in reps
  {
    AuthorityPicks(reps, x);
    if x in reps { AgreeWithOne(reps, x); }
  }

  lemma {:induction false} SetAsSeq(s: set<Item>) returns (xs: seq<Item>)
    ensures NoDup(xs) && Elems(xs) == s
  {
    xs := [];
    if s != {} {
      var x :| x in s;
      var rest := SetAsSeq(s - {x});
      assert forall y | y in rest :: y in Elems(rest);
      NoDupConcat(rest, [x]);
      ElemsSnoc(rest, x);
      xs := rest + [x];
    }
  }

  lemma ListedIsTheSet(s: set<Item>)
    requires IdsDistinct(s)
    ensures NoDup(Listed(SortKeyLt, s)) && Elems(Listed(SortKeyLt, s)) == s
  {
    var xs := SetAsSeq(s);
    SortKeyOrder(s);
    SortSorted(SortKeyLt, xs);
    ListedIs(SortKeyLt, s, Sort(SortKeyLt, xs));
    StrictlySortedNoDup(SortKeyLt, Sort(SortKeyLt, xs));
  }

  /** A group offers a claim exactly when its kind's rule settles on it among the group's representatives. */
  lemma GroupSettlesOn(items: seq<Item>, k: GroupKey, x: Item)
    requires WellIdentified(Elems(items))
    ensures !GroupFor(items, k).conflict && x in GroupFor(items, k).items <==>
      Settles(k.kind, Reps(GroupMembers(items, k)), x)
  {
    hide SurvivesIn, IsRep, ResolveGroup, Settles;
    var m := GroupMembers(items, k);
    SurvivorsByKey(items, k);
    RepsHaveDistinctIds(m);
    ListedIsTheSet(Reps(m));
    var reps := Listed(SortKeyLt, Reps(m));
    forall i | i in reps ensures i.Kind() == k.kind { assert i in Elems(reps); }
    if reps != [] { SettlesOn(k.kind, reps, x); }
    else {
      assert Reps(m) == {};
      NothingSettles(k.kind, x);
    }
  }

  lemma NothingSettles(kind: Kind, x: Item)
    ensures !Settles(kind, {}, x)
  {
  }

  /** Kinds other than enrichment offer the claim they settle on alone. */
  lemma SettlesAlone(items: seq<Item>, k: GroupKey, x: Item)
    requires WellIdentified(Elems(items)) && k.kind != EvidenceRef && k.kind != MemoryContext
    requires !GroupFor(items, k).conflict && x in GroupFor(items, k).items
    ensures GroupFor(items, k).items == [x]
  {
    hide GroupFor, GroupMembers, Reps;
    GroupItemsAreReps(items, k);
    forall y | y in GroupFor(items, k).items ensures y == x {
      GroupSettlesOn(items, k, x);
      GroupSettlesOn(items, k, y);
      OneSettles(k.kind, Reps(GroupMembers(items, k)), x, y);
    }
    SoleElement(GroupFor(items, k).items, x);
  }

  lemma OneSettles(kind: Kind, reps: set<Item>, x: Item, y: Item)
    requires kind != EvidenceRef && kind != MemoryContext && Settles(kind, reps, x) && Settles(kind, reps, y)
    ensures x == y
  {
  }

  // ---- what a wider view keeps -------------------------------------------

  /** `wide` adds only claims weaker than every claim of `narrow`, as a weaker authority floor does. */
  ghost predicate Widens(narrow: set<Item>, wide: set<Item>)
  {
    narrow <= wide && forall i, j | i in narrow && j in wide - narrow :: i.Rank() < j.Rank()
  }

  /**
   What keeps a settled claim settled: laws that all declare a precedence must meet
   no lower one, and where a claim without one joins them the winner must already be
   the unique strongest; claims with coordinates must all agree on theirs.
   */
  ghost predicate StaysSettled(kind: Kind, narrow: set<Item>, wide: set<Item>, x: Item)
    requires x in narrow && narrow <= wide
  {
    match kind
    case EvidenceRef => true
    case MemoryContext => true
    case ApplicableLaw =>
      AllLaws(wide) && AllDeclare(narrow) ==>
        if AllDeclare(wide) then forall y | y in wide :: x.claim.precedence.value <= y.claim.precedence.value
        else UniqueStrongest(narrow, x)
    case _ => forall y | y in wide :: CoordinateOf(y) == CoordinateOf(x)
  }

  lemma WidensStrongest(narrow: set<Item>, wide: set<Item>, x: Item)
    requires Widens(narrow, wide) && x in narrow
    ensures UniqueStrongest(wide, x) <==> UniqueStrongest(narrow, x)
  {
    forall y | y in wide && y !in narrow ensures x.Rank() < y.Rank() { assert y in wide - narrow; }
  }

  /** Of a claim a narrower view settled on, exactly when a view with a weaker floor settles on it too. */
  lemma WiderViewKeepsIff(kind: Kind, narrow: set<Item>, wide: set<Item>, x: Item)
    requires Widens(narrow, wide) && (forall i | i in wide :: i.Kind() == kind) && Settles(kind, narrow, x)
    ensures Settles(kind, wide, x) <==> StaysSettled(kind, narrow, wide, x)
  {
    assert x in narrow;
    WidensStrongest(narrow, wide, x);
    if kind == ApplicableLaw {
      assert AllLaws(wide) by { forall i | i in wide ensures i.claim.LawClaim? { assert i.Kind() == kind; } }
      WiderLaws(narrow, wide, x);
    }
  }

  lemma WiderLaws(narrow: set<Item>, wide: set<Item>, x: Item)
    requires Widens(narrow, wide) && AllLaws(wide) && Settles(ApplicableLaw, narrow, x) && x in narrow
    requires UniqueStrongest(wide, x) <==> UniqueStrongest(narrow, x)
    ensures Settles(ApplicableLaw, wide, x) <==> StaysSettled(ApplicableLaw, narrow, wide, x)
  {
    assert AllLaws(narrow) && (AllDeclare(wide) ==> AllDeclare(narrow));
    forall y | y in wide && y !in narrow ensures x.Rank() < y.Rank() { assert y in wide - narrow; }
  }
}
