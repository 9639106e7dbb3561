/**
 The bounded run store: time-to-live, least-recently-used order and the fairness
 rule that picks a capacity victim. The class follows the source; the functions
 beside it say what it computes on the stored records, least recent first.
 */
module RunStore {
  import opened Base
  import opened Reachability

  datatype Record = Record(
    runId: string, principal: string, createdAt: real, expiresAt: real, payload: string, resourceUri: string)

  // ---- the store as a list of records, least recently used first ---------

  ghost predicate DistinctRuns(rs: seq<Record>)
  {
    forall i, j | 0 <= i < j < |rs| :: rs[i].runId != rs[j].runId
  }

  function Live(rs: seq<Record>, now: real): seq<Record>
  {
    Filter((r: Record) => r.expiresAt > now, rs)
  }

  function Count(rs: seq<Record>, principal: string): nat
  {
    if rs == [] then 0
    else Count(rs[..|rs| - 1], principal) + (if rs[|rs| - 1].principal == principal then 1 else 0)
  }

  /** The least recently used run of a principal holding the most. */
  ghost predicate IsVictim(rs: seq<Record>, k: nat)
  {
    && k < |rs|
    && (forall r | r in rs :: Count(rs, r.principal) <= Count(rs, rs[k].principal))
    && forall j | 0 <= j < k :: Count(rs, rs[j].principal) < Count(rs, rs[k].principal)
  }

  lemma {:induction false} BusiestWithin(rs: seq<Record>, n: nat) returns (k: nat)
    requires 0 < n <= |rs|
    ensures k < n && forall j | 0 <= j < n :: Count(rs, rs[j].principal) <= Count(rs, rs[k].principal)
    ensures forall j | 0 <= j < k :: Count(rs, rs[j].principal) < Count(rs, rs[k].principal)
  {
    if n == 1 {
      k := 0;
    } else {
      k := BusiestWithin(rs, n - 1);
      if Count(rs, rs[n - 1].principal) > Count(rs, rs[k].principal) { k := n - 1; }
    }
  }

  /** There is exactly one victim to choose. */
  lemma OneVictim(rs: seq<Record>)
    requires rs != []
    ensures exists k :: IsVictim(rs, k)
    ensures forall j, k | IsVictim(rs, j) && IsVictim(rs, k) :: j == k
  {
    var k := BusiestWithin(rs, |rs|);
    assert IsVictim(rs, k);
    forall i: nat, j: nat | IsVictim(rs, i) && IsVictim(rs, j) ensures i == j {
      assert rs[i] in rs && rs[j] in rs;
    }
  }

  ghost function Victim(rs: seq<Record>): (k: nat)
    requires rs != []
    ensures IsVictim(rs, k)
  {
    OneVictim(rs);
    var k :| IsVictim(rs, k);
    k
  }

  function Drop<T>(xs: seq<T>, k: nat): seq<T>
    requires k < |xs|
  {
    xs[..k] + xs[k + 1..]
  }

  /** Evict victims until the bound holds. */
  ghost function Trim(rs: seq<Record>, max: nat): (t: seq<Record>)
    ensures |t| <= max
    decreases |rs|
  {
    if |rs| <= max then rs else Trim(Drop(rs, Victim(rs)), max)
  }

  ghost function Created(rs: seq<Record>, now: real, r: Record, max: nat): seq<Record>
  {
    Trim(Live(rs, now) + [r], max)
  }

  /** The record a caller may see: live, and its own. */
  ghost predicate Visible(rs: seq<Record>, now: real, id: string, principal: string, r: Record)
  {
    r in Live(rs, now) && r.runId == id && r.principal == principal
  }

  ghost function Touched(rs: seq<Record>, now: real, id: string, principal: string): seq<Record>
  {
    if r :| Visible(rs, now, id, principal, r) then
      Drop(Live(rs, now), Pos(Live(rs, now), r)) + [r]
    else Live(rs, now)
  }

  function OwnedBy(rs: seq<Record>, principal: string): seq<Record>
  {
    Filter((r: Record) => r.principal == principal, rs)
  }

  // ---- the concrete representation ---------------------------------------

  ghost predicate Consistent(items: map<string, Record>, order: seq<string>)
  {
    && NoDup(order) && (forall id :: id in order <==> id in items)
    && forall id | id in items :: items[id].runId == id
  }

  /** The records in the order they are listed. */
  ghost function Records(items: map<string, Record>, order: seq<string>): seq<Record>
    requires Consistent(items, order)
  {
    seq(|order|, k requires 0 <= k < |order| => items[order[k]])
  }

  lemma RecordsDistinct(items: map<string, Record>, order: seq<string>)
    requires Consistent(items, order)
    ensures DistinctRuns(Records(items, order)) && |Records(items, order)| == |order|
    ensures forall id | id in items :: items[id] in Records(items, order)
    ensures forall r | r in Records(items, order) :: r.runId in items && items[r.runId] == r
  {
    forall id | id in items ensures items[id] in Records(items, order) {
      var k :| 0 <= k < |order| && order[k] == id;
      assert Records(items, order)[k] == items[id];
    }
  }

  /** Forgetting one run drops its record. */
  lemma ForgetOne(items: map<string, Record>, order: seq<string>, id: string)
    requires Consistent(items, order) && id in order
    ensures Consistent(items - {id}, Drop(order, Pos(order, id)))
    ensures Records(items - {id}, Drop(order, Pos(order, id))) == Drop(Records(items, order), Pos(order, id))
    ensures Records(items, order)[Pos(order, id)] == items[id]
  {
    DropOne(order, Pos(order, id));
    RestRecords(items, order, id);
  }

  lemma RestRecords(items: map<string, Record>, order: seq<string>, id: string)
    requires Consistent(items, order) && id in order && Consistent(items - {id}, Drop(order, Pos(order, id)))
    ensures Records(items - {id}, Drop(order, Pos(order, id))) == Drop(Records(items, order), Pos(order, id))
  {
    var k, rs := Pos(order, id), Records(items, order);
    var left := Drop(order, k);
    var rest := Records(items - {id}, left);
    hide Records, Consistent, Drop;
    RecordsAt(items, order);
    RecordsAt(items - {id}, left);
    DropAt(order, k);
    DropAt(rs, k);
    forall i | 0 <= i < |rest| ensures rest[i] == Drop(rs, k)[i] { SameRecord(items, id, left[i]); }
  }

  lemma SameRecord(items: map<string, Record>, id: string, x: string)
    requires x in items - {id}
    ensures x in items && (items - {id})[x] == items[x]
  {
  }

  lemma DropAt<T>(xs: seq<T>, k: nat)
    requires k < |xs|
    ensures |Drop(xs, k)| == |xs| - 1
    ensures forall i | 0 <= i < |xs| - 1 :: Drop(xs, k)[i] == xs[if i < k then i else i + 1]
  {
  }

  lemma RecordsAt(items: map<string, Record>, order: seq<string>)
    requires Consistent(items, order)
    ensures |Records(items, order)| == |order|
    ensures forall k | 0 <= k < |order| :: order[k] in items && Records(items, order)[k] == items[order[k]]
  {
    forall k | 0 <= k < |order| ensures order[k] in items { assert order[k] in order; }
  }

  /** Dropping one of several distinct elements leaves the others, still distinct. */
  lemma DropOne(xs: seq<string>, k: nat)
    requires NoDup(xs) && k < |xs|
    ensures NoDup(Drop(xs, k)) && forall x :: x in Drop(xs, k) <==> x in xs && x != xs[k]
  {
    var rest := Drop(xs, k);
    forall i | 0 <= i < |rest| ensures rest[i] == xs[if i < k then i else i + 1] && rest[i] != xs[k] { }
    forall x | x in xs && x != xs[k] ensures x in rest {
      var j :| 0 <= j < |xs| && xs[j] == x;
      assert rest[if j < k then j else j - 1] == x;
    }
  }

  lemma AddOne(items: map<string, Record>, order: seq<string>, r: Record)
    requires Consistent(items, order) && r.runId !in items
    ensures Consistent(items[r.runId := r], order + [r.runId])
    ensures Records(items[r.runId := r], order + [r.runId]) == Records(items, order) + [r]
  {
    var longer := order + [r.runId];
    forall i, j | 0 <= i < j < |longer| ensures longer[i] != longer[j] {
      if j == |order| { assert order[i] in order; }
    }
  }

  /** Moving one run to the end keeps the records and moves its own. */
  lemma MoveToEnd(items: map<string, Record>, order: seq<string>, id: string)
    requires Consistent(items, order) && id in order
    ensures Consistent(items, Drop(order, Pos(order, id)) + [id])
    ensures Records(items, Drop(order, Pos(order, id)) + [id]) ==
      Drop(Records(items, order), Pos(order, id)) + [items[id]]
  {
    ForgetOne(items, order, id);
    AddOne(items - {id}, Drop(order, Pos(order, id)), items[id]);
    assert (items - {id})[id := items[id]] == items;
  }

  // ---- the class ---------------------------------------------------------

  class InMemoryRunStore {
    const maxEntries: nat
    const ttlSeconds: real
    var items: map<string, Record>
    var order: seq<string>

    /** Keys and order agree without duplicates, and the bound holds between calls. */
    ghost predicate Valid()
      reads this
    {
      Consistent(items, order) && |order| <= maxEntries
    }

    ghost function Contents(): seq<Record>
      reads this
      requires Consistent(items, order)
    {
      Records(items, order)
    }

    constructor (maxEntries: nat, ttlSeconds: real)
      ensures Valid() && Contents() == [] && this.maxEntries == maxEntries && this.ttlSeconds == ttlSeconds
    {
      this.maxEntries, this.ttlSeconds := maxEntries, ttlSeconds;
      items, order := map[], [];
    }

    /** `_items.pop` and `_order.remove`. */
    method Forget(id: string)
      requires Consistent(items, order) && id in order
      modifies this`items, this`order
      ensures Consistent(items, order) && Contents() == Drop(old(Contents()), Pos(old(order), id))
      ensures items == old(items) - {id} && |order| == |old(order)| - 1
    {
      ForgetOne(items, order, id);
      items := items - {id};
      order := Drop(order, Pos(order, id));
    }

    /** `_evict_locked`. */
    method Evict(now: real)
      requires Consistent(items, order)
      modifies this`items, this`order
      ensures Consistent(items, order) && |order| <= old(|order|)
      ensures Contents() == Live(old(Contents()), now) && items.Keys <= old(items.Keys)
    {
      hide Elems, Without, Live, NoDup;
      ghost var before, gone: set<string> := Contents(), {};
      RecordsDistinct(items, order);
      ghost var expiredIds := set id | id in items && items[id].expiresAt <= now;
      var expired := ListOf(set id | id in items && items[id].expiresAt <= now);
      WithoutNone(before, gone);
      NoElems(expired);
      for n := 0 to |expired|
        invariant Consistent(items, order) && |order| <= old(|order|) && items.Keys <= old(items.Keys)
        invariant gone == Elems(expired[..n]) && Contents() == Without(before, gone)
        invariant items.Keys == old(items.Keys) - gone
      {
        PrefixElems(expired, n);
        WithoutOneMore(before, gone, items, order, expired[n]);
        gone := gone + {expired[n]};
        Forget(expired[n]);
      }
      WholeElems(expired);
      LiveIsWithout(before, gone, now);
    }

    /** `_capacity_victim_locked`. */
    method CapacityVictim() returns (victim: string)
      requires Consistent(items, order) && order != []
      ensures victim in order && Pos(order, victim) == Victim(Contents())
    {
      hide Tallied, Count, IsVictim;
      ghost var rs := Contents();
      var counts: map<string, nat> := map[];
      NothingTallied();
      for n := 0 to |order|
        invariant Tallied(rs[..n], counts)
      {
        var principal := items[order[n]].principal;
        CountsNext(rs, n, counts, principal);
        counts := counts[principal := (if principal in counts then counts[principal] else 0) + 1];
      }
      assert rs[..|rs|] == rs;
      SomeValue(rs, counts);
      ghost var top := Greatest(counts.Values);
      var most :| most in counts.Values && forall v | v in counts.Values :: v <= most;
      victim := FirstHolding(counts, most);
    }

    /** The first listed run whose principal holds `most`. */
    method FirstHolding(counts: map<string, nat>, most: nat) returns (victim: string)
      requires Consistent(items, order) && Tallied(Contents(), counts)
      requires most in counts.Values && forall v | v in counts.Values :: v <= most
      ensures victim in order && order != [] && Pos(order, victim) == Victim(Contents())
    {
      hide Tallied, Count, IsVictim, Records;
      ghost var rs := Contents();
      RecordsAt(items, order);
      SomeoneHolds(rs, counts, most);
      EveryoneCounted(rs, counts);
      var n := 0;
      while counts[items[order[n]].principal] != most
        invariant n < |order| && forall j | 0 <= j < n :: Count(rs, rs[j].principal) != most
        decreases |order| - n
      {
        n := n + 1;
      }
      FoundVictim(rs, counts, most, n);
      victim := order[n];
      PosOf(order, n);
    }

    /** `create`, with the clock and the fresh run id as inputs. */
    method Create(principal: string, payload: string, now: real, runId: string) returns (record: Record)
      requires Valid() && runId !in items
      modifies this`items, this`order
      ensures Valid()
      ensures record == Record(runId, principal, now, now + ttlSeconds, payload, "l9://runs/" + runId)
      ensures Contents() == Created(old(Contents()), now, record, maxEntries)
    {
      record := Record(runId, principal, now, now + ttlSeconds, payload, "l9://runs/" + runId);
      ghost var before := Contents();
      Evict(now);
      AddOne(items, order, record);
      items := items[runId := record];
      order := order + [runId];
      while |order| > maxEntries
        invariant Consistent(items, order)
        invariant Trim(Contents(), maxEntries) == Created(before, now, record, maxEntries)
        decreases |order|
      {
        var victim := CapacityVictim();
        Forget(victim);
      }
    }

    /** `get`: the caller's own live run, moved to the recent end, or nothing. */
    method Get(runId: string, principal: string, now: real) returns (found: Option<Record>)
      requires Valid()
      modifies this`items, this`order
      ensures Valid()
      ensures found.Some? ==> Visible(old(Contents()), now, runId, principal, found.value)
      ensures found.None? ==> forall r :: !Visible(old(Contents()), now, runId, principal, r)
      ensures Contents() == Touched(old(Contents()), now, runId, principal)
    {
      hide Visible, Touched, Live, Records, Consistent;
      ghost var before := Contents();
      Evict(now);
      RecordsDistinct(items, order);
      Unseen(before, now, items, order, runId, principal);
      if runId !in items || items[runId].principal != principal {
        return None;
      }
      var record := items[runId];
      SeesOne(before, now, items, order, record);
      MoveToEnd(items, order, runId);
      order := Drop(order, Pos(order, runId));
      order := order + [runId];
      return Some(record);
    }

    /** `require`: the same lookup, one typed error for every way of not finding it. */
    method Require(runId: string, principal: string, now: real) returns (r: Result<Record, RunNotFound>)
      requires Valid()
      modifies this`items, this`order
      ensures Valid()
      ensures r.Ok? ==> Visible(old(Contents()), now, runId, principal, r.value)
      ensures r.Err? <==> forall x :: !Visible(old(Contents()), now, runId, principal, x)
      ensures r.Err? ==> r.error == RunNotFound(runId)
      ensures Contents() == Touched(old(Contents()), now, runId, principal)
    {
      var found := Get(runId, principal, now);
      if found.None? { return Err(RunNotFound(runId)); }
      return Ok(found.value);
    }

    /** `list_for_principal`. */
    method ListForPrincipal(principal: string, now: real) returns (runs: seq<Record>)
      requires Valid()
      modifies this`items, this`order
      ensures Valid()
      ensures Contents() == Live(old(Contents()), now)
      ensures runs == OwnedBy(Live(old(Contents()), now), principal)
    {
      Evict(now);
      ghost var rs := Contents();
      runs := [];
      for n := 0 to |order|
        invariant runs == OwnedBy(rs[..n], principal)
      {
        assert rs[..n + 1][..n] == rs[..n] && rs[..n + 1][n] == rs[n];
        if items[order[n]].principal == principal { runs := runs + [items[order[n]]]; }
      }
      assert rs[..|order|] == rs;
    }
  }

  datatype RunNotFound = RunNotFound(path: string)

  // ---- lemmas for the methods --------------------------------------------

  lemma {:induction false} PosOf(order: seq<string>, n: nat)
    requires NoDup(order) && n < |order|
    ensures Pos(order, order[n]) == n
  {
    assert order[Pos(order, order[n])] == order[n];
  }

  lemma {:induction false} Greatest(s: set<nat>) returns (top: nat)
    requires s != {}
    ensures top in s && forall v | v in s :: v <= top
  {
    var x :| x in s;
    top := x;
    var rest := s - {x};
    if rest != {} {
      var m := Greatest(rest);
      if m > x { top := m; }
    }
    forall v | v in s ensures v <= top { assert v == x || v in rest; }
  }

  /** `counts` holds exactly the principals present, with how many runs each has. */
  ghost predicate Tallied(rs: seq<Record>, counts: map<string, nat>)
  {
    && (forall p :: p in counts <==> exists r :: r in rs && r.principal == p)
    && forall p :: Count(rs, p) == if p in counts then counts[p] else 0
  }

  lemma NothingTallied()
    ensures Tallied([], map[])
  {
  }

  lemma PresentNext(rs: seq<Record>, n: nat, p: string)
    requires n < |rs|
    ensures (exists r :: r in rs[..n + 1] && r.principal == p) <==>
      (exists r :: r in rs[..n] && r.principal == p) || rs[n].principal == p
  {
    assert rs[..n + 1] == rs[..n] + [rs[n]];
    assert rs[n] in rs[..n + 1];
  }

  lemma CountNext(rs: seq<Record>, n: nat, p: string)
    requires n < |rs|
    ensures Count(rs[..n + 1], p) == Count(rs[..n], p) + (if rs[n].principal == p then 1 else 0)
  {
    assert rs[..n + 1][..n] == rs[..n] && rs[..n + 1][n] == rs[n];
  }

  lemma CountsNext(rs: seq<Record>, n: nat, counts: map<string, nat>, principal: string)
    requires n < |rs| && rs[n].principal == principal && Tallied(rs[..n], counts)
    ensures Tallied(rs[..n + 1], counts[principal := (if principal in counts then counts[principal] else 0) + 1])
  {
    hide Count;
    forall p
      ensures (exists r :: r in rs[..n + 1] && r.principal == p) <==> p in counts || p == principal
      ensures Count(rs[..n + 1], p) == Count(rs[..n], p) + (if principal == p then 1 else 0) {
      PresentNext(rs, n, p);
      CountNext(rs, n, p);
    }
  }

  lemma SomeValue(rs: seq<Record>, counts: map<string, nat>)
    requires rs != [] && Tallied(rs, counts)
    ensures counts.Values != {}
  {
    assert rs[0] in rs && rs[0].principal in counts;
    assert counts[rs[0].principal] in counts.Values;
  }

  lemma EveryoneCounted(rs: seq<Record>, counts: map<string, nat>)
    requires Tallied(rs, counts)
    ensures forall n | 0 <= n < |rs| ::
      rs[n].principal in counts && counts[rs[n].principal] == Count(rs, rs[n].principal)
  {
    forall n | 0 <= n < |rs| ensures rs[n].principal in counts { assert rs[n] in rs; }
  }

  lemma SomeoneHolds(rs: seq<Record>, counts: map<string, nat>, most: nat)
    requires Tallied(rs, counts) && most in counts.Values
    ensures exists n :: 0 <= n < |rs| && Count(rs, rs[n].principal) == most
  {
    var p :| p in counts && counts[p] == most;
    var r :| r in rs && r.principal == p;
    var n :| 0 <= n < |rs| && rs[n] == r;
  }

  lemma FoundVictim(rs: seq<Record>, counts: map<string, nat>, most: nat, n: nat)
    requires Tallied(rs, counts) && forall v | v in counts.Values :: v <= most
    requires n < |rs| && Count(rs, rs[n].principal) == most
    requires forall j | 0 <= j < n :: Count(rs, rs[j].principal) != most
    ensures n == Victim(rs)
  {
    forall r | r in rs ensures Count(rs, r.principal) <= most {
      assert r.principal in counts;
      assert counts[r.principal] in counts.Values;
    }
    forall j | 0 <= j < n ensures Count(rs, rs[j].principal) < most { assert rs[j] in rs; }
    assert IsVictim(rs, n);
    OneVictim(rs);
  }

  lemma PrefixElems(xs: seq<string>, n: nat)
    requires NoDup(xs) && n < |xs|
    ensures Elems(xs[..n + 1]) == Elems(xs[..n]) + {xs[n]} && xs[n] in Elems(xs) && xs[n] !in Elems(xs[..n])
  {
    assert xs[..n + 1] == xs[..n] + [xs[n]];
    ElemsSnoc(xs[..n], xs[n]);
  }

  lemma NoElems(xs: seq<string>)
    ensures Elems(xs[..0]) == {}
  {
  }

  lemma WholeElems(xs: seq<string>)
    ensures Elems(xs[..|xs|]) == Elems(xs)
  {
    assert xs[..|xs|] == xs;
  }

  ghost function Without(rs: seq<Record>, gone: set<string>): seq<Record>
  {
    Filter((r: Record) => r.runId !in gone, rs)
  }

  lemma WithoutNone(rs: seq<Record>, gone: set<string>)
    requires gone == {}
    ensures Without(rs, gone) == rs
  {
    FilterUniform((r: Record) => r.runId !in gone, rs, true);
  }

  lemma {:induction false} WithoutTwice(rs: seq<Record>, gone: set<string>, id: string)
    ensures Without(Without(rs, gone), {id}) == Without(rs, gone + {id})
  {
    if rs != [] {
      var init, last := rs[..|rs| - 1], rs[|rs| - 1];
      WithoutTwice(init, gone, id);
      var kept := Without(init, gone);
      assert (kept + [last])[..|kept|] == kept && (kept + [last])[|kept|] == last;
    }
  }

  lemma DropIsWithout(rs: seq<Record>, k: nat)
    requires DistinctRuns(rs) && k < |rs|
    ensures Drop(rs, k) == Without(rs, {rs[k].runId})
  {
    hide Filter;
    var gone := {rs[k].runId};
    var p := (r: Record) => r.runId !in gone;
    var a, x, b := rs[..k], [rs[k]], rs[k + 1..];
    assert rs == a + (x + b);
    FilterConcat(p, a, x + b);
    FilterConcat(p, x, b);
    FilterUniform(p, a, true);
    FilterUniform(p, x, false);
    FilterUniform(p, b, true);
    assert Filter(p, rs) == a + b;
  }

  lemma WithoutOneMore(before: seq<Record>, gone: set<string>, items: map<string, Record>, order: seq<string>,
      id: string)
    requires Consistent(items, order) && Records(items, order) == Without(before, gone) && id in order
    ensures Drop(Records(items, order), Pos(order, id)) == Without(before, gone + {id})
  {
    RecordsDistinct(items, order);
    DropIsWithout(Records(items, order), Pos(order, id));
    WithoutTwice(before, gone, id);
  }

  lemma LiveIsWithout(rs: seq<Record>, gone: set<string>, now: real)
    requires forall r | r in rs :: r.runId in gone <==> r.expiresAt <= now
    ensures Without(rs, gone) == Live(rs, now)
  {
    FilterAgrees((r: Record) => r.runId !in gone, (r: Record) => r.expiresAt > now, rs);
  }

  lemma Unseen(before: seq<Record>, now: real, items: map<string, Record>, order: seq<string>, id: string,
      principal: string)
    requires Consistent(items, order) && Records(items, order) == Live(before, now)
    ensures id !in items || items[id].principal != principal ==>
      (forall r :: !Visible(before, now, id, principal, r)) && Touched(before, now, id, principal) == Live(before, now)
    ensures id in items ==> id in order && items[id].runId == id
  {
    RecordsDistinct(items, order);
    if id !in items || items[id].principal != principal {
      forall r ensures !Visible(before, now, id, principal, r) {
        if r in Live(before, now) && r.runId == id { assert r in Records(items, order); }
      }
    }
  }

  lemma SeesOne(before: seq<Record>, now: real, items: map<string, Record>, order: seq<string>, r: Record)
    requires Consistent(items, order) && Records(items, order) == Live(before, now)
    requires r.runId in items && items[r.runId] == r
    ensures Visible(before, now, r.runId, r.principal, r)
    ensures Touched(before, now, r.runId, r.principal) == Drop(Records(items, order), Pos(order, r.runId)) + [r]
  {
    RecordsDistinct(items, order);
    ForgetOne(items, order, r.runId);
    var rs := Records(items, order);
    assert rs[Pos(rs, r)] == r && rs[Pos(order, r.runId)] == r;
    assert Pos(rs, r) == Pos(order, r.runId);
    assert Visible(before, now, r.runId, r.principal, r);
    forall x | Visible(before, now, r.runId, r.principal, x) ensures x == r { assert x in rs; }
    assert Touched(before, now, r.runId, r.principal) == Drop(rs, Pos(rs, r)) + [r];
  }
}
