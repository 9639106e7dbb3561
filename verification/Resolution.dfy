/**
 Resolving one eligible candidate set: supersession per kind, grouping by kind
 and semantic key, deduplication to representatives, and each kind's own
 precedence rule. The rules are stated over sets; the methods work on lists.
 */
module Resolution {
  import opened Base
  import opened ContextModel
  import opened Reachability
  import opened Supersession

  datatype GroupKey = GroupKey(kind: Kind, key: string)

  datatype Group = Group(items: seq<Item>, conflict: bool, info: ConflictInfo, sources: seq<Item>)

  datatype Entry = Entry(key: GroupKey, group: Group)

  datatype View = View(groups: seq<Entry>, unknowns: seq<Unknown>)

  function KeyOf(i: Item): GroupKey { GroupKey(i.Kind(), i.key) }

  // ---- representatives ---------------------------------------------------

  /** Same claim at the same applicability: the deduplication key. */
  predicate SameClaim(a: Item, b: Item) { a.claim == b.claim && a.scope == b.scope }

  function Text(o: Option<string>): string { if o.Some? then o.value else "" }

  /** Strongest authority, then a present coordinate, coordinate, digest and id. */
  predicate RepLt(a: Item, b: Item)
  {
    var ca, cb := Text(a.source.coordinate), Text(b.source.coordinate);
    var da, db := Text(a.source.digest), Text(b.source.digest);
    if a.Rank() != b.Rank() then a.Rank() < b.Rank()
    else if (ca == "") != (cb == "") then cb == ""
    else if ca != cb then StrLt(ca, cb)
    else if da != db then StrLt(da, db)
    else StrLt(a.id, b.id)
  }

  lemma StrLtFacts(a: string, b: string, c: string)
    ensures StrLt(a, b) && StrLt(b, c) ==> StrLt(a, c) && a != c
    ensures a != b ==> StrLt(a, b) || StrLt(b, a)
    ensures !StrLt(a, a)
  {
    StrLtIrreflexive(a);
    if a != b { StrLtTotal(a, b); }
    if StrLt(a, b) && StrLt(b, c) { StrLtTransitive(a, b, c); }
  }

  lemma RepLtTransitive(a: Item, b: Item, c: Item)
    requires RepLt(a, b) && RepLt(b, c)
    ensures RepLt(a, c)
  {
    StrLtFacts(Text(a.source.coordinate), Text(b.source.coordinate), Text(c.source.coordinate));
    StrLtFacts(Text(a.source.digest), Text(b.source.digest), Text(c.source.digest));
    StrLtFacts(a.id, b.id, c.id);
  }

  lemma RepOrder(s: set<Item>)
    requires WellIdentified(s)
    ensures StrictOrderOn(RepLt, s)
  {
    forall a | a in s ensures !RepLt(a, a) { StrLtIrreflexive(a.id); }
    forall a, b, c | a in s && b in s && c in s && RepLt(a, b) && RepLt(b, c) ensures RepLt(a, c) {
      RepLtTransitive(a, b, c);
    }
    forall a, b | a in s && b in s && a != b ensures RepLt(a, b) || RepLt(b, a) { RepLtTotal(s, a, b); }
  }

  lemma RepLtTotal(s: set<Item>, a: Item, b: Item)
    requires WellIdentified(s) && a in s && b in s && a != b
    ensures RepLt(a, b) || RepLt(b, a)
  {
    StrLtFacts(Text(a.source.coordinate), Text(b.source.coordinate), "");
    StrLtFacts(Text(a.source.digest), Text(b.source.digest), "");
    StrLtFacts(a.id, b.id, "");
    if a.id == b.id { assert a.level != b.level; }
  }

  /** `_representative`: the least carrier, never the first listed. */
  method Representative(bucket: seq<Item>) returns (r: Item)
    requires bucket != [] && WellIdentified(Elems(bucket))
    ensures r in bucket && forall j | j in bucket && j != r :: RepLt(r, j)
  {
    RepOrder(Elems(bucket));
    r := bucket[0];
    for k := 1 to |bucket|
      invariant r in bucket[..k] && forall j | j in bucket[..k] && j != r :: RepLt(r, j)
    {
      assert bucket[..k + 1] == bucket[..k] + [bucket[k]];
      assert r in Elems(bucket) && bucket[k] in Elems(bucket) && forall j | j in bucket[..k] :: j in Elems(bucket);
      if RepLt(bucket[k], r) { r := bucket[k]; }
    }
    assert bucket[..|bucket|] == bucket;
  }

  // ---- the rules over sets -----------------------------------------------

  ghost function OfKind(items: seq<Item>, k: Kind): seq<Item>
  {
    Filter((i: Item) => i.Kind() == k, items)
  }

  predicate DeclaresSupersession(k: Kind) { k == ApplicableLaw || k == PriorDecision }

  ghost predicate SurvivesIn(items: seq<Item>, i: Item)
  {
    DeclaresSupersession(i.Kind()) ==> Keeps(OfKind(items, i.Kind()), i)
  }

  ghost function GroupMembers(items: seq<Item>, k: GroupKey): set<Item>
  {
    set i | i in items && KeyOf(i) == k && SurvivesIn(items, i)
  }

  ghost predicate IsRep(m: set<Item>, i: Item)
  {
    i in m && forall j | j in m && SameClaim(i, j) && j != i :: RepLt(i, j)
  }

  ghost function Reps(m: set<Item>): set<Item> { set i | i in m && IsRep(m, i) }

  /** The elements of `s` in ascending order, where there is one such list. */
  ghost function Listed(lt: (Item, Item) -> bool, s: set<Item>): seq<Item>
  {
    if exists xs: seq<Item> :: StrictlySorted(lt, xs) && Elems(xs) == s
    then var xs: seq<Item> :| StrictlySorted(lt, xs) && Elems(xs) == s; xs
    else []
  }

  lemma ListedIs(lt: (Item, Item) -> bool, s: set<Item>, xs: seq<Item>)
    requires StrictOrderOn(lt, s) && StrictlySorted(lt, xs) && Elems(xs) == s
    ensures Listed(lt, s) == xs
  {
    SortedUnique(lt, Listed(lt, s), xs);
  }

  // ---- precedence within one group ---------------------------------------

  function LeastRank(items: seq<Item>): (r: nat)
    requires items != []
    ensures forall i | i in items :: r <= i.Rank()
    ensures exists i :: i in items && i.Rank() == r
  {
    if |items| == 1 then items[0].Rank()
    else
      assert items == [items[0]] + items[1..];
      var rest := LeastRank(items[1..]);
      if items[0].Rank() < rest then items[0].Rank() else rest
  }

  function Strongest(items: seq<Item>): seq<Item>
    requires items != []
  {
    var best := LeastRank(items);
    Filter((i: Item) => i.Rank() == best, items)
  }

  function ResolveByAuthority(reps: seq<Item>): Group
    requires reps != []
  {
    var top := Strongest(reps);
    if |top| == 1 then Group(top, false, NoInfo, [])
    else
      assert top != [] by { var i :| i in reps && i.Rank() == LeastRank(reps); assert i in top; }
      Group([], true, EqualAuthority(top[0].level, |top|), reps)
  }

  function LeastPrecedence(items: seq<Item>): (r: nat)
    requires items != [] && forall i | i in items :: i.claim.LawClaim? && i.claim.precedence.Some?
    ensures forall i | i in items :: r <= i.claim.precedence.value
    ensures exists i :: i in items && i.claim.precedence == Some(r)
  {
    if |items| == 1 then items[0].claim.precedence.value
    else
      assert items == [items[0]] + items[1..];
      var rest := LeastPrecedence(items[1..]);
      if items[0].claim.precedence.value < rest then items[0].claim.precedence.value else rest
  }

  /** Declared precedence outranks authority when every law declares one. */
  function ResolveLaw(reps: seq<Item>): Group
    requires reps != [] && forall i | i in reps :: i.claim.LawClaim?
  {
    if |reps| == 1 then Group(reps, false, NoInfo, [])
    else if forall i | i in reps :: i.claim.precedence.Some? then
      var best := LeastPrecedence(reps);
      var top := Filter((i: Item) => i.claim.LawClaim? && i.claim.precedence == Some(best), reps);
      assert top != [] by { var i :| i in reps && i.claim.precedence == Some(best); assert i in top; }
      if |top| == 1 then Group(top, false, NoInfo, []) else ResolveByAuthority(top)
    else ResolveByAuthority(reps)
  }

  function RevisionsOf(reps: seq<Item>): set<string>
  {
    set i | i in reps && i.claim.RepositoryClaim? :: i.claim.revision
  }

  function VersionsOf(reps: seq<Item>): set<Option<string>>
  {
    set i | i in reps && i.claim.DependencyClaim? :: i.claim.version
  }

  /** Each kind's own rule over the distinct claims of one group. */
  function ResolveGroup(kind: Kind, reps: seq<Item>): Group
    requires reps != [] && forall i | i in reps :: i.Kind() == kind
  {
    if |reps| == 1 then Group(reps, false, NoInfo, [])
    else match kind
    case EvidenceRef => Group(Sort(SortKeyLt, reps), false, NoInfo, [])
    case MemoryContext => Group(Sort(SortKeyLt, reps), false, NoInfo, [])
    case ApplicableLaw =>
      assert forall i | i in reps :: i.Kind() == ApplicableLaw && i.claim.LawClaim?;
      ResolveLaw(reps)
    case RepositoryState =>
      if |RevisionsOf(reps)| > 1 then Group([], true, Revisions(RevisionsOf(reps)), reps) else ResolveByAuthority(reps)
    case DependencyContext =>
      if |VersionsOf(reps)| > 1 then Group([], true, Versions(VersionsOf(reps)), reps) else ResolveByAuthority(reps)
    case _ => ResolveByAuthority(reps)
  }

  // ---- the resolved view -------------------------------------------------

  /** The outcome of one group, as a function of its surviving members. */
  ghost function GroupFor(items: seq<Item>, k: GroupKey): Group
  {
    var reps := Listed(SortKeyLt, Reps(GroupMembers(items, k)));
    if reps != [] && forall i | i in reps :: i.Kind() == k.kind then ResolveGroup(k.kind, reps)
    else Group([], false, NoInfo, [])
  }

  ghost predicate ReportsOf(items: seq<Item>, kind: Kind, u: Unknown)
  {
    DeclaresSupersession(kind) && Reports(kind, Elems(OfKind(items, kind)), IndexOf(OfKind(items, kind)), u)
  }

  ghost predicate ReportsAny(items: seq<Item>, u: Unknown)
  {
    exists kind :: ReportsOf(items, kind, u)
  }

  ghost predicate DistinctKeys(groups: seq<Entry>)
  {
    forall i, j | 0 <= i < j < |groups| :: groups[i].key != groups[j].key
  }

  ghost predicate HasKey(groups: seq<Entry>, k: GroupKey)
  {
    exists e :: e in groups && e.key == k
  }

  /** `v` is what resolving `items` yields. */
  ghost predicate Resolves(items: seq<Item>, v: View)
  {
    && DistinctKeys(v.groups)
    && (forall k :: HasKey(v.groups, k) <==> GroupMembers(items, k) != {})
    && (forall e | e in v.groups :: e.group == GroupFor(items, e.key))
    && (forall u :: u in v.unknowns <==> ReportsAny(items, u))
  }

  // ---- the computation ---------------------------------------------------

  lemma OfKindSnoc(items: seq<Item>, n: nat, k: Kind)
    requires n < |items|
    ensures OfKind(items[..n + 1], k) == OfKind(items[..n], k) + (if items[n].Kind() == k then [items[n]] else [])
  {
    assert items[..n + 1][..n] == items[..n] && items[..n + 1][n] == items[n];
  }

  lemma NoneOfKind(items: seq<Item>, k: Kind)
    requires forall i | 0 <= i < |items| :: items[i].Kind() != k
    ensures OfKind(items, k) == []
  {
    if items != [] { NoneOfKind(items[..|items| - 1], k); }
  }

  method ByKind(items: seq<Item>) returns (kinds: seq<Kind>, byKind: map<Kind, seq<Item>>)
    ensures forall k :: k in kinds <==> k in byKind
    ensures forall k | k in byKind :: byKind[k] == OfKind(items, k)
    ensures forall k | k !in byKind :: OfKind(items, k) == []
  {
    kinds, byKind := [], map[];
    for n := 0 to |items|
      invariant forall k :: k in kinds <==> k in byKind
      invariant forall k | k in byKind :: byKind[k] == OfKind(items[..n], k)
      invariant forall i | 0 <= i < n :: items[i].Kind() in byKind
    {
      var kind := items[n].Kind();
      if kind !in byKind {
        NoneOfKind(items[..n], kind);
        kinds := kinds + [kind];
      }
      var sofar := if kind in byKind then byKind[kind] else [];
      ghost var before := byKind;
      byKind := byKind[kind := sofar + [items[n]]];
      forall k | k in byKind ensures byKind[k] == OfKind(items[..n + 1], k) {
        OfKindSnoc(items, n, k);
        assert k != kind ==> byKind[k] == before[k];
      }
    }
    assert items[..|items|] == items;
    forall k | k !in byKind ensures OfKind(items, k) == [] { NoneOfKind(items, k); }
  }

  ghost predicate KeptOfKind(items: seq<Item>, kind: Kind, kept: seq<Item>)
  {
    forall i :: i in kept <==> i in items && i.Kind() == kind && SurvivesIn(items, i)
  }

  ghost predicate ReportsOfKind(items: seq<Item>, kind: Kind, reports: seq<Unknown>)
  {
    forall u :: u in reports <==> ReportsOf(items, kind, u)
  }

  method SurvivorsOfKind(kind: Kind, members: seq<Item>, ghost items: seq<Item>)
    returns (kept: seq<Item>, unknowns: seq<Unknown>)
    requires members == OfKind(items, kind)
    ensures KeptOfKind(items, kind, kept) && ReportsOfKind(items, kind, unknowns)
  {
    if DeclaresSupersession(kind) {
      kept, unknowns := ResolveSupersession(kind, members);
      forall i ensures i in kept <==> i in items && i.Kind() == kind && SurvivesIn(items, i) {
        assert i in kept <==> i in members && Keeps(members, i);
        assert i in members <==> i in items && i.Kind() == kind;
      }
    } else {
      kept, unknowns := members, [];
    }
  }

  /** Survivors and reports, kind by kind. */
  method SurvivorsPerKind(items: seq<Item>, kinds: seq<Kind>, byKind: map<Kind, seq<Item>>)
    returns (kept: seq<seq<Item>>, reports: seq<seq<Unknown>>)
    requires forall k | k in kinds :: k in byKind && byKind[k] == OfKind(items, k)
    ensures |kept| == |reports| == |kinds|
    ensures forall n | 0 <= n < |kinds| :: KeptOfKind(items, kinds[n], kept[n])
    ensures forall n | 0 <= n < |kinds| :: ReportsOfKind(items, kinds[n], reports[n])
  {
    hide KeptOfKind, ReportsOfKind;
    kept, reports := [], [];
    for n := 0 to |kinds|
      invariant |kept| == |reports| == n
      invariant forall j | 0 <= j < n :: KeptOfKind(items, kinds[j], kept[j])
      invariant forall j | 0 <= j < n :: ReportsOfKind(items, kinds[j], reports[j])
    {
      var survivors, unknowns := SurvivorsOfKind(kinds[n], byKind[kinds[n]], items);
      kept, reports := kept + [survivors], reports + [unknowns];
    }
  }

  method Flatten<T(!new)>(parts: seq<seq<T>>) returns (all: seq<T>)
    ensures forall x :: x in all <==> exists n :: 0 <= n < |parts| && x in parts[n]
  {
    all := [];
    for k := 0 to |parts|
      invariant forall x :: x in all <==> exists n :: 0 <= n < k && x in parts[n]
    {
      all := all + parts[k];
    }
  }

  /** Resolve supersession in every kind that declares it; other kinds pass through. */
  method ApplySupersession(items: seq<Item>) returns (survivors: seq<Item>, unknowns: seq<Unknown>)
    ensures forall i :: i in survivors <==> i in items && SurvivesIn(items, i)
    ensures forall u :: u in unknowns <==> ReportsAny(items, u)
  {
    var kinds, byKind := ByKind(items);
    var kept, reports := SurvivorsPerKind(items, kinds, byKind);
    survivors := Flatten(kept);
    unknowns := Flatten(reports);
    forall i ensures i in survivors <==> i in items && SurvivesIn(items, i) { KeptByKind(items, kinds, kept, i); }
    forall u ensures u in unknowns <==> ReportsAny(items, u) { ReportsByKind(items, kinds, reports, u); }
  }

  lemma KeptByKind(items: seq<Item>, kinds: seq<Kind>, kept: seq<seq<Item>>, i: Item)
    requires |kept| == |kinds| && forall n | 0 <= n < |kinds| :: KeptOfKind(items, kinds[n], kept[n])
    requires forall k | k !in kinds :: OfKind(items, k) == []
    ensures (exists n :: 0 <= n < |kept| && i in kept[n]) <==> i in items && SurvivesIn(items, i)
  {
    if i in items && SurvivesIn(items, i) {
      assert i in OfKind(items, i.Kind());
      var n :| 0 <= n < |kinds| && kinds[n] == i.Kind();
      assert i in kept[n];
    }
  }

  lemma ReportsByKind(items: seq<Item>, kinds: seq<Kind>, reports: seq<seq<Unknown>>, u: Unknown)
    requires |reports| == |kinds| && forall n | 0 <= n < |kinds| :: ReportsOfKind(items, kinds[n], reports[n])
    requires forall k | k !in kinds :: OfKind(items, k) == []
    ensures (exists n :: 0 <= n < |reports| && u in reports[n]) <==> ReportsAny(items, u)
  {
    if n :| 0 <= n < |reports| && u in reports[n] {
      assert ReportsOf(items, kinds[n], u);
    }
    if ReportsAny(items, u) {
      hide Reports;
      var kind :| ReportsOf(items, kind, u);
      if kind !in kinds { EmptyKindSilent(items, kind, u); }
      var n :| 0 <= n < |kinds| && kinds[n] == kind;
      assert u in reports[n];
    }
  }

  lemma EmptyKindSilent(items: seq<Item>, kind: Kind, u: Unknown)
    requires OfKind(items, kind) == []
    ensures !ReportsOf(items, kind, u)
  {
    assert Elems<Item>([]) == {};
    NoClaimsNoReports(kind, u);
  }

  lemma NoClaimsNoReports(kind: Kind, u: Unknown)
    ensures !Reports(kind, {}, IndexOf([]), u)
  {
    var idx := IndexOf([]);
    forall c | IsCycleSet(EdgeGraph({}, idx), c) ensures DomainsOf(idx, c) == {} { }
  }

  lemma RepUnique(m: set<Item>, a: Item, b: Item)
    requires WellIdentified(m) && IsRep(m, a) && IsRep(m, b) && SameClaim(a, b)
    ensures a == b
  {
    if a != b {
      RepLtTransitive(a, b, a);
      StrLtIrreflexive(a.id);
    }
  }

  lemma RepsHaveDistinctIds(m: set<Item>)
    requires WellIdentified(m)
    ensures IdsDistinct(Reps(m))
  {
    forall a, b | a in Reps(m) && b in Reps(m) && a.id == b.id ensures a == b { RepUnique(m, a, b); }
  }

  type ClaimKey = (Claim, Scope)

  function ClaimKeyOf(i: Item): ClaimKey { (i.claim, i.scope) }

  /** Members bucketed by what they claim and where. */
  method ByClaim(members: seq<Item>) returns (claims: seq<ClaimKey>, buckets: map<ClaimKey, seq<Item>>)
    ensures NoDup(claims) && forall c :: c in claims <==> c in buckets
    ensures forall c | c in buckets ::
      buckets[c] != [] && forall i :: i in buckets[c] <==> i in members && ClaimKeyOf(i) == c
    ensures forall i | i in members :: ClaimKeyOf(i) in buckets
  {
    claims, buckets := [], map[];
    for n := 0 to |members|
      invariant NoDup(claims) && forall c :: c in claims <==> c in buckets
      invariant forall c | c in buckets ::
        buckets[c] != [] && forall i :: i in buckets[c] <==> i in members[..n] && ClaimKeyOf(i) == c
      invariant forall i | i in members[..n] :: ClaimKeyOf(i) in buckets
    {
      var c := ClaimKeyOf(members[n]);
      assert members[..n + 1] == members[..n] + [members[n]];
      if c !in buckets {
        claims, buckets := claims + [c], buckets[c := [members[n]]];
      } else {
        buckets := buckets[c := buckets[c] + [members[n]]];
      }
    }
    assert members[..|members|] == members;
  }

  lemma BucketLeastIsRep(members: seq<Item>, bucket: seq<Item>, c: ClaimKey, r: Item)
    requires WellIdentified(Elems(members))
    requires forall i :: i in bucket <==> i in members && ClaimKeyOf(i) == c
    requires r in bucket && forall j | j in bucket && j != r :: RepLt(r, j)
    ensures forall i :: i in Reps(Elems(members)) && ClaimKeyOf(i) == c <==> i == r
  {
    assert IsRep(Elems(members), r);
    forall i | i in Reps(Elems(members)) && ClaimKeyOf(i) == c ensures i == r { RepUnique(Elems(members), i, r); }
  }

  /** One representative per distinct claim, in canonical order. */
  method RepsOf(members: seq<Item>) returns (reps: seq<Item>)
    requires WellIdentified(Elems(members))
    ensures reps == Listed(SortKeyLt, Reps(Elems(members)))
    ensures Elems(reps) == Reps(Elems(members)) && (members != [] ==> reps != [])
  {
    ghost var m := Elems(members);
    var claims, buckets := ByClaim(members);
    var found: seq<Item> := [];
    for n := 0 to |claims|
      invariant |found| == n && NoDup(found)
      invariant forall i :: i in found <==> i in Reps(m) && ClaimKeyOf(i) in claims[..n]
    {
      var c := claims[n];
      var bucket := buckets[c];
      assert Elems(bucket) <= m;
      var r := Representative(bucket);
      BucketLeastIsRep(members, bucket, c, r);
      assert claims[..n + 1] == claims[..n] + [c];
      assert c !in claims[..n];
      found := found + [r];
    }
    assert claims[..|claims|] == claims;
    assert Elems(found) == Reps(m);
    RepsHaveDistinctIds(m);
    SortKeyOrder(Reps(m));
    reps := Sort(SortKeyLt, found);
    SortSorted(SortKeyLt, found);
    ListedIs(SortKeyLt, Reps(m), reps);
    if members != [] {
      assert ClaimKeyOf(members[0]) in claims;
    }
  }

  /** Survivors grouped by kind and semantic key. */
  method GroupByKey(survivors: seq<Item>) returns (keys: seq<GroupKey>, grouped: map<GroupKey, seq<Item>>)
    ensures NoDup(keys) && forall k :: k in keys <==> k in grouped
    ensures forall k | k in grouped ::
      grouped[k] != [] && forall i :: i in grouped[k] <==> i in survivors && KeyOf(i) == k
    ensures forall i | i in survivors :: KeyOf(i) in grouped
  {
    keys, grouped := [], map[];
    for n := 0 to |survivors|
      invariant NoDup(keys) && forall k :: k in keys <==> k in grouped
      invariant forall k | k in grouped ::
        grouped[k] != [] && forall i :: i in grouped[k] <==> i in survivors[..n] && KeyOf(i) == k
      invariant forall i | i in survivors[..n] :: KeyOf(i) in grouped
    {
      var k := KeyOf(survivors[n]);
      assert survivors[..n + 1] == survivors[..n] + [survivors[n]];
      if k !in grouped {
        keys, grouped := keys + [k], grouped[k := [survivors[n]]];
      } else {
        grouped := grouped[k := grouped[k] + [survivors[n]]];
      }
    }
    assert survivors[..|survivors|] == survivors;
  }

  /** Resolve one group of surviving claims. */
  method ResolveEntry(ghost items: seq<Item>, k: GroupKey, members: seq<Item>) returns (e: Entry)
    requires WellIdentified(Elems(items))
    requires members != [] && Elems(members) == GroupMembers(items, k)
    ensures e.key == k && e.group == GroupFor(items, k)
  {
    assert Elems(members) <= Elems(items);
    var reps := RepsOf(members);
    forall i | i in reps ensures i.Kind() == k.kind { assert i in Elems(reps); }
    e := Entry(k, ResolveGroup(k.kind, reps));
  }

  method ResolveGroups(ghost items: seq<Item>, keys: seq<GroupKey>, grouped: map<GroupKey, seq<Item>>)
    returns (groups: seq<Entry>)
    requires WellIdentified(Elems(items))
    requires forall k | k in keys :: k in grouped && grouped[k] != [] && Elems(grouped[k]) == GroupMembers(items, k)
    ensures |groups| == |keys|
    ensures forall j | 0 <= j < |keys| :: groups[j].key == keys[j] && groups[j].group == GroupFor(items, keys[j])
  {
    hide GroupFor, GroupMembers;
    groups := [];
    for n := 0 to |keys|
      invariant |groups| == n
      invariant forall j | 0 <= j < n :: groups[j].key == keys[j] && groups[j].group == GroupFor(items, keys[j])
    {
      var e := ResolveEntry(items, keys[n], grouped[keys[n]]);
      groups := groups + [e];
    }
  }

  /** The surviving claims, group by group. */
  method GroupSurvivors(items: seq<Item>)
    returns (keys: seq<GroupKey>, grouped: map<GroupKey, seq<Item>>, unknowns: seq<Unknown>)
    ensures NoDup(keys) && forall k :: k in keys <==> GroupMembers(items, k) != {}
    ensures forall k | k in keys :: k in grouped && grouped[k] != [] && Elems(grouped[k]) == GroupMembers(items, k)
    ensures forall u :: u in unknowns <==> ReportsAny(items, u)
  {
    var survivors;
    survivors, unknowns := ApplySupersession(items);
    keys, grouped := GroupByKey(survivors);
    forall k ensures k in keys <==> GroupMembers(items, k) != {} {
      if k in keys { MembersAre(items, survivors, k, grouped[k]); assert grouped[k][0] in Elems(grouped[k]); }
      else { forall i ensures i !in GroupMembers(items, k) { } }
    }
    forall k | k in keys ensures Elems(grouped[k]) == GroupMembers(items, k) {
      MembersAre(items, survivors, k, grouped[k]);
    }
  }

  lemma MembersAre(items: seq<Item>, survivors: seq<Item>, k: GroupKey, members: seq<Item>)
    requires forall i :: i in survivors <==> i in items && SurvivesIn(items, i)
    requires forall i :: i in members <==> i in survivors && KeyOf(i) == k
    ensures Elems(members) == GroupMembers(items, k)
  {
  }

  /** Supersession, grouping, deduplication and precedence over one candidate set. */
  method ResolveCandidates(items: seq<Item>) returns (v: View)
    requires WellIdentified(Elems(items))
    ensures Resolves(items, v)
  {
    var keys, grouped, unknowns := GroupSurvivors(items);
    var groups := ResolveGroups(items, keys, grouped);
    v := View(groups, unknowns);
    forall k ensures HasKey(groups, k) <==> k in keys { KeysAlign(keys, groups, k); }
  }

  lemma KeysAlign(keys: seq<GroupKey>, groups: seq<Entry>, k: GroupKey)
    requires |groups| == |keys| && forall j | 0 <= j < |keys| :: groups[j].key == keys[j]
    ensures HasKey(groups, k) <==> k in keys
  {
    if k in keys {
      var j :| 0 <= j < |keys| && keys[j] == k;
      assert groups[j] in groups;
    }
  }
}
