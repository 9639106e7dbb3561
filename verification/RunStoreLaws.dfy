/**
 What the run store promises over any sequence of operations: the bound, recency
 order, non-disclosure, and that a principal within its fair share loses runs
 only to expiry.
 */
module RunStoreLaws {
  import opened Base
  import opened Reachability
  import opened RunStore

  // ---- fair share --------------------------------------------------------

  ghost function Principals(rs: seq<Record>): set<string> { set r | r in rs :: r.principal }

  /** Whole runs per principal present. */
  ghost function FairShare(max: nat, rs: seq<Record>): nat
  {
    if Principals(rs) == {} then 0 else max / |Principals(rs)|
  }

  ghost function Others(rs: seq<Record>, p: string): seq<Record>
  {
    Filter((r: Record) => r.principal != p, rs)
  }

  lemma {:induction false} OthersCount(rs: seq<Record>, p: string, q: string)
    ensures |rs| == Count(rs, p) + |Others(rs, p)|
    ensures Count(Others(rs, p), q) == if q == p then 0 else Count(rs, q)
  {
    if rs != [] {
      var init, last := rs[..|rs| - 1], rs[|rs| - 1];
      OthersCount(init, p, q);
      if last.principal != p {
        var rest := Others(init, p);
        assert (rest + [last])[..|rest|] == rest && (rest + [last])[|rest|] == last;
      }
    }
  }

  lemma OthersPrincipals(rs: seq<Record>, p: string)
    ensures Principals(Others(rs, p)) == Principals(rs) - {p}
  {
  }

  lemma {:induction false} CountPositive(rs: seq<Record>, r: Record)
    requires r in rs
    ensures Count(rs, r.principal) > 0
  {
    if rs[|rs| - 1] != r {
      assert rs == rs[..|rs| - 1] + [rs[|rs| - 1]];
      CountPositive(rs[..|rs| - 1], r);
    }
  }

  /** If no principal holds more than `m`, there are at most `m` runs per principal. */
  lemma {:induction false} Pigeonhole(rs: seq<Record>, m: nat)
    requires forall r | r in rs :: Count(rs, r.principal) <= m
    ensures |rs| <= |Principals(rs)| * m
    decreases |rs|
  {
    if rs != [] {
      var p := rs[0].principal;
      var rest := Others(rs, p);
      assert rs[0] in rs && p in Principals(rs);
      OthersCount(rs, p, p);
      CountPositive(rs, rs[0]);
      forall r | r in rest ensures Count(rest, r.principal) <= m { OthersCount(rs, p, r.principal); }
      Pigeonhole(rest, m);
      OthersPrincipals(rs, p);
      assert |Principals(rest)| == |Principals(rs)| - 1;
      OneMorePrincipal(|Principals(rs)| - 1, m);
    }
  }

  lemma OneMorePrincipal(n: nat, m: nat)
    ensures (n + 1) * m == n * m + m
  {
  }

  lemma DividedShare(max: nat, n: nat, m: nat)
    requires n > 0 && m <= max / n
    ensures n * m <= max
  {
    assert n * m <= n * (max / n) <= max by { assert max == n * (max / n) + max % n; TimesMonotone(n, m, max / n); }
  }

  lemma TimesMonotone(n: nat, a: nat, b: nat)
    requires a <= b
    ensures n * a <= n * b
  {
  }

  /** When the bound is exceeded, a principal within its fair share is never the victim. */
  lemma ShareIsSafe(rs: seq<Record>, max: nat, p: string)
    requires |rs| > max && Count(rs, p) <= FairShare(max, rs)
    ensures rs[Victim(rs)].principal != p
  {
    var v := Victim(rs);
    if rs[v].principal == p {
      assert rs[v] in rs && p in Principals(rs);
      Pigeonhole(rs, Count(rs, p));
      DividedShare(max, |Principals(rs)|, Count(rs, p));
    }
  }

  // ---- operations --------------------------------------------------------

  datatype Op =
    | CreateOp(now: real, record: Record)
    | GetOp(now: real, id: string, principal: string)
    | ListOp(now: real)

  /** What one call leaves of the store's records. */
  ghost function Apply(rs: seq<Record>, op: Op, max: nat): seq<Record>
  {
    match op
    case CreateOp(now, r) => Created(rs, now, r, max)
    case GetOp(now, id, p) => Touched(rs, now, id, p)
    case ListOp(now) => Live(rs, now)
  }

  /** The records after a sequence of calls on an empty store. */
  ghost function After(ops: seq<Op>, max: nat): seq<Record>
  {
    if ops == [] then [] else Apply(After(ops[..|ops| - 1], max), ops[|ops| - 1], max)
  }

  lemma {:induction false} FilterShorter<T(!new)>(p: T -> bool, xs: seq<T>)
    ensures |Filter(p, xs)| <= |xs|
  {
    if xs != [] { FilterShorter(p, xs[..|xs| - 1]); }
  }

  lemma LiveShorter(rs: seq<Record>, now: real)
    ensures |Live(rs, now)| <= |rs| && forall r :: r in Live(rs, now) <==> r in rs && r.expiresAt > now
  {
    FilterShorter((r: Record) => r.expiresAt > now, rs);
  }

  /** The bound holds between calls, whatever the calls. */
  lemma {:induction false} BoundHolds(ops: seq<Op>, max: nat)
    ensures |After(ops, max)| <= max
  {
    if ops != [] {
      BoundHolds(ops[..|ops| - 1], max);
      LiveShorter(After(ops[..|ops| - 1], max), ops[|ops| - 1].now);
    }
  }

  lemma TrimOnce(rs: seq<Record>, max: nat)
    requires |rs| <= max + 1
    ensures Trim(rs, max) == if |rs| <= max then rs else Drop(rs, Victim(rs))
  {
    hide Count, Drop;
    if |rs| > max { DropAt(rs, Victim(rs)); }
  }

  /** Creating evicts at most one run beyond the expired, and only when the store is full. */
  lemma CreateEvictsOne(rs: seq<Record>, now: real, r: Record, max: nat)
    requires |rs| <= max
    ensures var full := Live(rs, now) + [r];
      Created(rs, now, r, max) == if |full| <= max then full else Drop(full, Victim(full))
  {
    hide Live, IsVictim, Drop;
    LiveShorter(rs, now);
    TrimOnce(Live(rs, now) + [r], max);
  }

  /** `op` gives principal `p` no more than its fair share whenever it overflows the store. */
  ghost predicate WithinShare(rs: seq<Record>, op: Op, max: nat, p: string)
  {
    op.CreateOp? ==>
      var full := Live(rs, op.now) + [op.record];
      |full| > max ==> Count(full, p) <= FairShare(max, full)
  }

  lemma DropKeeps<T>(xs: seq<T>, k: nat, x: T)
    requires k < |xs| && x in xs && xs[k] != x
    ensures x in Drop(xs, k)
  {
    var j :| 0 <= j < |xs| && xs[j] == x;
    assert Drop(xs, k)[if j < k then j else j - 1] == x;
  }

  lemma TouchKeeps(rs: seq<Record>, now: real, id: string, p: string, r: Record)
    requires r in Live(rs, now)
    ensures r in Touched(rs, now, id, p)
  {
    if x :| Visible(rs, now, id, p, x) && Touched(rs, now, id, p) == Drop(Live(rs, now), Pos(Live(rs, now), x)) + [x] {
      if r != x { DropKeeps(Live(rs, now), Pos(Live(rs, now), x), r); }
    }
  }

  /** A call takes away a live run only from a principal over its share. */
  lemma StepKeeps(rs: seq<Record>, op: Op, max: nat, r: Record)
    requires |rs| <= max && WithinShare(rs, op, max, r.principal)
    requires (r in rs && r.expiresAt > op.now) || (op.CreateOp? && r == op.record)
    ensures r in Apply(rs, op, max)
  {
    LiveShorter(rs, op.now);
    match op
    case ListOp(now) =>
    case GetOp(now, id, p) => TouchKeeps(rs, now, id, p, r);
    case CreateOp(now, record) =>
      CreateEvictsOne(rs, now, record, max);
      var full := Live(rs, now) + [record];
      assert r in full;
      if |full| > max {
        ShareIsSafe(full, max, r.principal);
        DropKeeps(full, Victim(full), r);
      }
  }

  /**
   Over any sequence of operations a principal that stays within its fair share
   loses a run only to expiry: if no call found it expired, it is still there.
   */
  lemma {:induction false} LosesOnlyToExpiry(ops: seq<Op>, max: nat, i: nat, r: Record)
    requires i <= |ops| && r in After(ops[..i], max)
    requires forall k | i <= k < |ops| ::
      r.expiresAt > ops[k].now && WithinShare(After(ops[..k], max), ops[k], max, r.principal)
    ensures r in After(ops, max)
  {
    if i == |ops| {
      assert ops[..i] == ops;
    } else {
      var init := ops[..|ops| - 1];
      assert init[..i] == ops[..i];
      forall k | i <= k < |init|
        ensures r.expiresAt > init[k].now && WithinShare(After(init[..k], max), init[k], max, r.principal) {
        assert init[..k] == ops[..k] && init[k] == ops[k];
      }
      LosesOnlyToExpiry(init, max, i, r);
      assert ops[..|ops| - 1] == init;
      BoundHolds(init, max);
      StepKeeps(After(init, max), ops[|ops| - 1], max, r);
    }
  }

  // ---- recency -----------------------------------------------------------

  /** Every created run id is new to the store it is added to. */
  ghost predicate FreshIds(ops: seq<Op>, max: nat)
  {
    forall k | 0 <= k < |ops| :: FreshAt(ops, max, k)
  }

  ghost predicate FreshAt(ops: seq<Op>, max: nat, k: nat)
    requires k < |ops|
  {
    ops[k].CreateOp? ==> forall r | r in After(ops[..k], max) :: r.runId != ops[k].record.runId
  }

  /** Does the call use the run: create it, or return it to its owner? */
  ghost predicate Uses(rs: seq<Record>, op: Op, id: string)
  {
    match op
    case CreateOp(now, r) => r.runId == id
    case GetOp(now, x, p) => x == id && exists r :: Visible(rs, now, x, p, r)
    case ListOp(now) => false
  }

  /** The number of the last call that used a run. */
  ghost function LastUse(ops: seq<Op>, max: nat, id: string): (n: nat)
    ensures n <= |ops|
  {
    if ops == [] then 0
    else if Uses(After(ops[..|ops| - 1], max), ops[|ops| - 1], id) then |ops|
    else LastUse(ops[..|ops| - 1], max, id)
  }

  ghost predicate Ascending(rs: seq<Record>, stamp: string -> nat)
  {
    forall i, j | 0 <= i < j < |rs| :: stamp(rs[i].runId) < stamp(rs[j].runId)
  }

  lemma {:induction false} FilterAscending(p: Record -> bool, rs: seq<Record>, stamp: string -> nat)
    requires Ascending(rs, stamp)
    ensures Ascending(Filter(p, rs), stamp)
  {
    if rs != [] {
      var init, last := rs[..|rs| - 1], rs[|rs| - 1];
      FilterAscending(p, init, stamp);
      forall r | r in init ensures stamp(r.runId) < stamp(last.runId) {
        var i :| 0 <= i < |init| && init[i] == r;
      }
      AppendAscending(Filter(p, init), last, stamp);
    }
  }

  lemma AppendAscending(rs: seq<Record>, last: Record, stamp: string -> nat)
    requires Ascending(rs, stamp) && forall r | r in rs :: stamp(r.runId) < stamp(last.runId)
    ensures Ascending(rs + [last], stamp)
  {
  }

  lemma DropAscending(rs: seq<Record>, k: nat, stamp: string -> nat)
    requires k < |rs| && Ascending(rs, stamp)
    ensures Ascending(Drop(rs, k), stamp)
  {
    DropAt(rs, k);
  }

  lemma AscendingDistinct(rs: seq<Record>, stamp: string -> nat)
    requires Ascending(rs, stamp)
    ensures DistinctRuns(rs)
  {
  }

  lemma NewStamps(rs: seq<Record>, before: string -> nat, after: string -> nat)
    requires Ascending(rs, before) && forall r | r in rs :: after(r.runId) == before(r.runId)
    ensures Ascending(rs, after)
  {
    forall i | 0 <= i < |rs| ensures after(rs[i].runId) == before(rs[i].runId) { assert rs[i] in rs; }
  }

  lemma DroppedIsGone(rs: seq<Record>, k: nat)
    requires DistinctRuns(rs) && k < |rs|
    ensures forall r | r in Drop(rs, k) :: r.runId != rs[k].runId
  {
    DropAt(rs, k);
  }

  lemma {:induction false} TrimAscending(rs: seq<Record>, max: nat, stamp: string -> nat)
    requires Ascending(rs, stamp)
    ensures Ascending(Trim(rs, max), stamp)
    decreases |rs|
  {
    if |rs| > max {
      DropAscending(rs, Victim(rs), stamp);
      TrimAscending(Drop(rs, Victim(rs)), max, stamp);
    }
  }

  /** The listed order is recency order: runs are listed by the call that last used them. */
  lemma {:induction false} OrderIsRecency(ops: seq<Op>, max: nat)
    requires FreshIds(ops, max)
    ensures Ascending(After(ops, max), id => LastUse(ops, max, id)) && DistinctRuns(After(ops, max))
  {
    if ops != [] {
      var init := ops[..|ops| - 1];
      forall k | 0 <= k < |init| ensures FreshAt(init, max, k) {
        assert FreshAt(ops, max, k) && init[..k] == ops[..k];
      }
      OrderIsRecency(init, max);
      assert FreshAt(ops, max, |ops| - 1);
      RecencyStep(ops, max);
    }
    AscendingDistinct(After(ops, max), id => LastUse(ops, max, id));
  }

  lemma RecencyStep(ops: seq<Op>, max: nat)
    requires ops != [] && FreshAt(ops, max, |ops| - 1)
    requires var init := ops[..|ops| - 1]; Ascending(After(init, max), id => LastUse(init, max, id))
    ensures Ascending(After(ops, max), id => LastUse(ops, max, id))
  {
    var init, op := ops[..|ops| - 1], ops[|ops| - 1];
    var rs := After(init, max);
    var before, after := (id => LastUse(init, max, id)), (id => LastUse(ops, max, id));
    forall id ensures after(id) == if Uses(rs, op, id) then |ops| else before(id) { }
    forall id ensures before(id) < |ops| { }
    StepAscending(rs, op, max, before, after, |ops|);
  }

  lemma StepAscending(rs: seq<Record>, op: Op, max: nat, before: string -> nat, after: string -> nat, now: nat)
    requires Ascending(rs, before) && (forall id :: before(id) < now)
    requires forall id :: after(id) == if Uses(rs, op, id) then now else before(id)
    requires op.CreateOp? ==> forall r | r in rs :: r.runId != op.record.runId
    ensures Ascending(Apply(rs, op, max), after)
  {
    var live := Live(rs, op.now);
    LiveShorter(rs, op.now);
    FilterAscending((r: Record) => r.expiresAt > op.now, rs, before);
    match op
    case ListOp(_) => NewStamps(live, before, after);
    case CreateOp(_, record) =>
      NewStamps(live, before, after);
      AppendAscending(live, record, after);
      TrimAscending(live + [record], max, after);
    case GetOp(t, id, p) => TouchAscending(rs, t, id, p, before, after, now);
  }

  lemma TouchAscending(rs: seq<Record>, t: real, id: string, p: string, before: string -> nat, after: string -> nat,
      now: nat)
    requires Ascending(Live(rs, t), before) && (forall x :: before(x) < now)
    requires forall x :: after(x) == if Uses(rs, GetOp(t, id, p), x) then now else before(x)
    ensures Ascending(Touched(rs, t, id, p), after)
  {
    var live := Live(rs, t);
    if r :| Visible(rs, t, id, p, r) && Touched(rs, t, id, p) == Drop(live, Pos(live, r)) + [r] {
      var k := Pos(live, r);
      AscendingDistinct(live, before);
      DropAscending(live, k, before);
      DroppedIsGone(live, k);
      NewStamps(Drop(live, k), before, after);
      AppendAscending(Drop(live, k), r, after);
    } else {
      NewStamps(live, before, after);
    }
  }

  // ---- non-disclosure ----------------------------------------------------

  /** A caller that does not own the run learns and changes nothing it would not with an id never issued. */
  lemma NonOwnerSeesNothing(rs: seq<Record>, now: real, id: string, never: string, principal: string)
    requires forall r | r in rs :: r.runId != never
    requires forall r | r in rs && r.runId == id :: r.principal != principal
    ensures Touched(rs, now, id, principal) == Touched(rs, now, never, principal) == Live(rs, now)
    ensures forall r :: !Visible(rs, now, id, principal, r) && !Visible(rs, now, never, principal, r)
  {
    LiveShorter(rs, now);
  }

  /** A found run is the one the caller created, unexpired, and it becomes the most recent. */
  lemma FoundIsOwnAndMostRecent(rs: seq<Record>, now: real, id: string, principal: string, r: Record)
    requires DistinctRuns(rs) && r in rs && r.runId == id && r.principal == principal && r.expiresAt > now
    ensures var t := Touched(rs, now, id, principal);
      t != [] && t[|t| - 1] == r && multiset(t) == multiset(Live(rs, now))
  {
    LiveShorter(rs, now);
    assert Visible(rs, now, id, principal, r);
    forall x | Visible(rs, now, id, principal, x) ensures x == r { }
    var live := Live(rs, now);
    var k := Pos(live, r);
    assert live == live[..k] + [live[k]] + live[k + 1..];
    assert Touched(rs, now, id, principal) == Drop(live, k) + [r];
  }

  // ---- whom a full store evicts ------------------------------------------

  /** Where a principal's runs stand. */
  ghost function Holding(rs: seq<Record>, p: string): set<nat>
  {
    set n: nat | n < |rs| && rs[n].principal == p
  }

  lemma {:induction false} CountIsHolding(rs: seq<Record>, p: string)
    ensures Count(rs, p) == |Holding(rs, p)|
  {
    if rs == [] {
      assert Holding(rs, p) == {};
    } else {
      var init, n := rs[..|rs| - 1], |rs| - 1;
      CountIsHolding(init, p);
      assert Holding(rs, p) == Holding(init, p) + if rs[n].principal == p then {n} else {};
    }
  }

  /** What a new run meets: the runs not expired, and itself at the recent end. */
  ghost predicate Meets(rs: seq<Record>, now: real, r: Record, full: seq<Record>)
  {
    full != [] && full[|full| - 1] == r && full[..|full| - 1] == Filter((x: Record) => x.expiresAt > now, rs)
  }

  /**
   A create in a full store evicts the least recent run of a principal that holds the
   most, and of such principals the one whose run is least recent; it evicts nothing
   else, and nothing where there is room.
   */
  lemma EvictsOldestOfBusiest(rs: seq<Record>, now: real, r: Record, max: nat, full: seq<Record>)
    requires |rs| <= max && Meets(rs, now, r, full)
    ensures |full| <= max ==> Created(rs, now, r, max) == full
    ensures |full| > max ==> exists k: nat :: IsBusiestOldest(full, k) && Created(rs, now, r, max) == Drop(full, k)
  {
    hide IsVictim, Drop, Count;
    assert full == Live(rs, now) + [r];
    CreateEvictsOne(rs, now, r, max);
    if |full| > max { VictimIsBusiestOldest(full, Victim(full)); }
  }

  ghost predicate IsBusiestOldest(rs: seq<Record>, k: nat)
  {
    && k < |rs|
    && (forall p :: |Holding(rs, p)| <= |Holding(rs, rs[k].principal)|)
    && forall j | 0 <= j < k :: |Holding(rs, rs[j].principal)| < |Holding(rs, rs[k].principal)|
  }

  lemma VictimIsBusiestOldest(rs: seq<Record>, k: nat)
    requires IsVictim(rs, k)
    ensures IsBusiestOldest(rs, k)
  {
    hide Count, Holding;
    forall p ensures Count(rs, p) == |Holding(rs, p)| { CountIsHolding(rs, p); }
    forall p ensures |Holding(rs, p)| <= |Holding(rs, rs[k].principal)| {
      if n :| 0 <= n < |rs| && rs[n].principal == p { assert rs[n] in rs; } else { HoldsNothing(rs, p); }
    }
  }

  lemma HoldsNothing(rs: seq<Record>, p: string)
    requires forall n | 0 <= n < |rs| :: rs[n].principal != p
    ensures |Holding(rs, p)| == 0
  {
    assert Holding(rs, p) == {};
  }

  /** A principal's list is its own runs not expired, in the order they were last used. */
  lemma ListIsOwnByRecency(ops: seq<Op>, max: nat, now: real, p: string)
    requires FreshIds(ops, max)
    ensures forall r :: r in OwnedBy(Live(After(ops, max), now), p) <==>
      r in After(ops, max) && r.expiresAt > now && r.principal == p
    ensures Ascending(OwnedBy(Live(After(ops, max), now), p), id => LastUse(ops, max, id))
  {
    OrderIsRecency(ops, max);
    FilterAscending((r: Record) => r.expiresAt > now, After(ops, max), id => LastUse(ops, max, id));
    FilterAscending((r: Record) => r.principal == p, Live(After(ops, max), now), id => LastUse(ops, max, id));
  }
}
