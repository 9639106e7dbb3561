/**
 The requirement-driven selector: one shared mutable selection, filled one
 requirement at a time under per-requirement and global ceilings, with a
 witness recorded whenever a ceiling blocks the next candidate.
 */
module Selection {
  import opened Base
  import opened ContextModel
  import opened Reachability
  import opened Resolution
  import opened ResolutionLaws

  // ---- the selection as a value ------------------------------------------

  datatype State = State(byItem: map<string, Item>, reasons: map<string, set<string>>, total: nat)

  const EMPTY := State(map[], map[], 0)

  predicate ExceedsGlobal(st: State, budget: Budget, item: Item)
  {
    item.id !in st.byItem &&
    (|st.byItem| + 1 > budget.maxItems || st.total + item.cost > budget.maxBytes)
  }

  function AdmitTo(st: State, item: Item, rid: string): State
  {
    State(
      if item.id in st.byItem then st.byItem else st.byItem[item.id := item],
      st.reasons[item.id := (if item.id in st.reasons then st.reasons[item.id] else {}) + {rid}],
      if item.id in st.byItem then st.total else st.total + item.cost)
  }

  function AdmitAll(st: State, items: seq<Item>, rid: string): State
  {
    if items == [] then st
    else AdmitTo(AdmitAll(st, items[..|items| - 1], rid), items[|items| - 1], rid)
  }

  function SumCost(items: seq<Item>): nat
  {
    if items == [] then 0 else SumCost(items[..|items| - 1]) + items[|items| - 1].cost
  }

  // ---- one requirement ---------------------------------------------------

  /** The candidates a coverage mode may consider, in canonical order. */
  function Frontier(r: Requirement, sorted: seq<Item>): seq<Item>
  {
    match r.coverage
    case Minimum => if r.minItems <= |sorted| then sorted[..r.minItems] else sorted
    case SemanticKeys => Filter((i: Item) => i.key in r.requiredKeys, sorted)
    case AllEligible => sorted
  }

  function FrontierOf(r: Requirement, v: View): seq<Item>
  {
    Frontier(r, Sort(CandLt, ViewItems(v.groups)))
  }

  /** The bound, if any, that blocks `item` once `taken` has been admitted to give `st`. */
  function StopBefore(st: State, budget: Budget, r: Requirement, taken: seq<Item>, item: Item): Option<BudgetStop>
  {
    var count, bytes := |taken|, SumCost(taken);
    if r.maxItems.Some? && count + 1 > r.maxItems.value then
      Some(BudgetStop(RequirementMaxItems, item.id, count, bytes, item.cost, r.maxItems.value))
    else if r.maxBytes.Some? && bytes + item.cost > r.maxBytes.value then
      Some(BudgetStop(RequirementMaxBytes, item.id, count, bytes, item.cost, r.maxBytes.value))
    else if ExceedsGlobal(st, budget, item) then
      if |st.byItem| + 1 > budget.maxItems then
        Some(BudgetStop(GlobalMaxItems, item.id, |st.byItem|, st.total, item.cost, budget.maxItems))
      else
        Some(BudgetStop(GlobalMaxBytes, item.id, |st.byItem|, st.total, item.cost, budget.maxBytes))
    else None
  }

  function StopAt(st: State, budget: Budget, r: Requirement, f: seq<Item>, k: nat): Option<BudgetStop>
    requires k < |f|
  {
    StopBefore(AdmitAll(st, f[..k], r.id), budget, r, f[..k], f[k])
  }

  /** How many of the frontier are admitted, from position `k` on. */
  function TakeFrom(st: State, budget: Budget, r: Requirement, f: seq<Item>, k: nat): (n: nat)
    requires k <= |f|
    ensures k <= n <= |f|
    ensures forall j | k <= j < n :: StopAt(st, budget, r, f, j).None?
    ensures n < |f| ==> StopAt(st, budget, r, f, n).Some?
    decreases |f| - k
  {
    if k == |f| || StopAt(st, budget, r, f, k).Some? then k else TakeFrom(st, budget, r, f, k + 1)
  }

  function Taken(st: State, budget: Budget, r: Requirement, v: View): seq<Item>
  {
    FrontierOf(r, v)[..TakeFrom(st, budget, r, FrontierOf(r, v), 0)]
  }

  function Stop(st: State, budget: Budget, r: Requirement, v: View): Option<BudgetStop>
  {
    var f := FrontierOf(r, v);
    var n := TakeFrom(st, budget, r, f, 0);
    if n < |f| then StopAt(st, budget, r, f, n) else None
  }

  function MaterialityFor(r: Requirement): Materiality { if r.required then Blocking else NonBlocking }

  function ConflictKeys(groups: seq<Entry>): set<string>
  {
    set e | e in groups && e.group.conflict :: e.key.key
  }

  function ConflictUnknown(r: Requirement, e: Entry): Unknown
  {
    Unknown(Some(r.id), Some(e.key.key), ConflictingGovernedClaims, ConflictDetails(r.kind, e.group.info),
      MaterialityFor(r))
  }

  function KeysOf(items: seq<Item>): set<string> { set i | i in items :: i.key }

  /** `_satisfied`. */
  predicate Satisfied(r: Requirement, count: nat, keys: set<string>, disposed: set<string>, stopped: bool)
  {
    && count >= r.minItems
    && (r.coverage.SemanticKeys? ==> r.requiredKeys - keys - disposed == {})
    && (r.coverage.AllEligible? ==> !stopped)
  }

  /** The shortfall a requirement records: nothing when it was optional and nothing was truncated. */
  function ShortfallUnknown(r: Requirement, keys: set<string>, disposed: set<string>,
      stop: Option<BudgetStop>): Option<Unknown>
  {
    if r.policy.OptionalPolicy? && stop.None? then None
    else Some(Unknown(
      Some(r.id), None,
      if stop.Some? then BudgetInsufficient else MissingRequiredContext,
      ShortfallDetails(r.kind, r.coverage, r.minItems, |keys|, stop,
        if r.coverage.SemanticKeys? then Some(r.requiredKeys - keys - disposed) else None),
      MaterialityFor(r)))
  }

  /** What one requirement leaves behind, given the selection it started from. */
  ghost predicate Met(st: State, budget: Budget, r: Requirement, v: View)
  {
    var t := Taken(st, budget, r, v);
    Satisfied(r, |t|, KeysOf(t), ConflictKeys(v.groups), Stop(st, budget, r, v).Some?)
  }

  ghost predicate Records(st: State, budget: Budget, r: Requirement, v: View, u: Unknown)
  {
    u in v.unknowns || RecordsConflict(r, v, u) || RecordsShortfall(st, budget, r, v, u)
  }

  // ---- the imperative selector -------------------------------------------

  /** The mutable selection shared across the requirements of one compile. */
  class SharedSelection {
    const budget: Budget
    var byItem: map<string, Item>
    var reasons: map<string, set<string>>
    var totalBytes: nat

    function Now(): State
      reads this
    {
      State(byItem, reasons, totalBytes)
    }

    constructor (budget: Budget)
      ensures this.budget == budget && Now() == EMPTY
    {
      this.budget := budget;
      byItem, reasons, totalBytes := map[], map[], 0;
    }

    method WouldExceedGlobal(item: Item) returns (b: bool)
      ensures b <==> ExceedsGlobal(Now(), budget, item)
    {
      if item.id in byItem { return false; }
      if |byItem| + 1 > budget.maxItems { return true; }
      return totalBytes + item.cost > budget.maxBytes;
    }

    method Admit(item: Item, rid: string)
      modifies this
      ensures Now() == AdmitTo(old(Now()), item, rid)
    {
      if item.id !in byItem {
        byItem := byItem[item.id := item];
        totalBytes := totalBytes + item.cost;
      }
      var sofar := if item.id in reasons then reasons[item.id] else {};
      reasons := reasons[item.id := sofar + {rid}];
    }
  }

  lemma AdmitOneMore(st: State, f: seq<Item>, k: nat, rid: string)
    requires k < |f|
    ensures AdmitAll(st, f[..k + 1], rid) == AdmitTo(AdmitAll(st, f[..k], rid), f[k], rid)
    ensures SumCost(f[..k + 1]) == SumCost(f[..k]) + f[k].cost
    ensures KeysOf(f[..k + 1]) == KeysOf(f[..k]) + {f[k].key}
  {
    assert f[..k + 1][..k] == f[..k] && f[..k + 1][k] == f[k];
    assert f[..k + 1] == f[..k] + [f[k]];
  }

  lemma TakeStep(st: State, budget: Budget, r: Requirement, f: seq<Item>, k: nat)
    requires k < |f|
    ensures TakeFrom(st, budget, r, f, k) ==
      if StopAt(st, budget, r, f, k).Some? then k else TakeFrom(st, budget, r, f, k + 1)
  {
  }

  lemma {:induction false} FilterPrefix(p: Item -> bool, e: seq<Item>, n: nat)
    requires n <= |e|
    ensures |Filter(p, e[..n])| <= |Filter(p, e)| && Filter(p, e[..n]) == Filter(p, e)[..|Filter(p, e[..n])|]
  {
    if n < |e| {
      assert e[..|e| - 1][..n] == e[..n];
      FilterPrefix(p, e[..|e| - 1], n);
    } else {
      assert e[..n] == e;
    }
  }

  /** Scanning further only extends the frontier. */
  lemma FrontierPrefix(r: Requirement, e: seq<Item>, n: nat)
    requires n <= |e|
    ensures |Frontier(r, e[..n])| <= |Frontier(r, e)|
    ensures Frontier(r, e[..n]) == Frontier(r, e)[..|Frontier(r, e[..n])|]
  {
    if r.coverage.SemanticKeys? { FilterPrefix((i: Item) => i.key in r.requiredKeys, e, n); }
    else if r.coverage.Minimum? { assert r.minItems <= n ==> e[..n][..r.minItems] == e[..r.minItems]; }
  }

  /** What one more scanned candidate adds to the frontier. */
  lemma FrontierStep(r: Requirement, e: seq<Item>, n: nat)
    requires n < |e|
    ensures r.coverage.Minimum? && |Frontier(r, e[..n])| >= r.minItems ==> Frontier(r, e[..n]) == Frontier(r, e)
    ensures r.coverage.SemanticKeys? && e[n].key !in r.requiredKeys ==> Frontier(r, e[..n + 1]) == Frontier(r, e[..n])
    ensures !(r.coverage.Minimum? && |Frontier(r, e[..n])| >= r.minItems)
         && !(r.coverage.SemanticKeys? && e[n].key !in r.requiredKeys)
      ==> Frontier(r, e[..n + 1]) == Frontier(r, e[..n]) + [e[n]]
  {
    assert e[..n + 1][..n] == e[..n] && e[..n + 1][n] == e[n] && e[..n + 1] == e[..n] + [e[n]];
    if r.coverage.Minimum? {
      assert r.minItems <= n ==> e[..n][..r.minItems] == e[..r.minItems];
      assert r.minItems <= n + 1 ==> e[..n + 1][..r.minItems] == e[..r.minItems];
    }
  }

  /** How many candidates of `e[..n]` the coverage mode considers. */
  ghost function Scanned(r: Requirement, e: seq<Item>, n: nat): nat
    requires n <= |e|
  {
    |Frontier(r, e[..n])|
  }

  lemma ScanNext(r: Requirement, e: seq<Item>, n: nat)
    requires n < |e|
    ensures ScanStep(r, e[n], Frontier(r, e), Scanned(r, e, n), Scanned(r, e, n + 1))
  {
    FrontierStep(r, e, n);
    FrontierPrefix(r, e, n + 1);
  }

  /** How scanning one candidate moves the position in the frontier. */
  ghost predicate ScanStep(r: Requirement, item: Item, f: seq<Item>, at: nat, next: nat)
  {
    if r.coverage.Minimum? && at >= r.minItems then at == |f|
    else if r.coverage.SemanticKeys? && item.key !in r.requiredKeys then next == at
    else at < |f| && f[at] == item && next == at + 1
  }

  /** The frontier position before each scanned candidate. */
  lemma ScanTable(r: Requirement, e: seq<Item>) returns (scan: seq<nat>)
    ensures |scan| == |e| + 1 && scan[0] == 0 && scan[|e|] == |Frontier(r, e)|
    ensures forall n | 0 <= n < |e| :: ScanStep(r, e[n], Frontier(r, e), scan[n], scan[n + 1])
  {
    scan := seq(|e| + 1, n requires 0 <= n <= |e| => Scanned(r, e, n));
    assert e[..|e|] == e;
    forall n | 0 <= n < |e| ensures ScanStep(r, e[n], Frontier(r, e), scan[n], scan[n + 1]) { ScanNext(r, e, n); }
  }

  /** The first ceiling `item` would break, checked in the source's order. */
  method FirstBound(r: Requirement, item: Item, count: nat, bytes: nat, sel: SharedSelection, ghost taken: seq<Item>)
    returns (stop: Option<BudgetStop>)
    requires count == |taken| && bytes == SumCost(taken)
    ensures stop == StopBefore(sel.Now(), sel.budget, r, taken, item)
  {
    if r.maxItems.Some? && count + 1 > r.maxItems.value {
      return Some(BudgetStop(RequirementMaxItems, item.id, count, bytes, item.cost, r.maxItems.value));
    }
    if r.maxBytes.Some? && bytes + item.cost > r.maxBytes.value {
      return Some(BudgetStop(RequirementMaxBytes, item.id, count, bytes, item.cost, r.maxBytes.value));
    }
    var full := sel.WouldExceedGlobal(item);
    if full {
      if |sel.byItem| + 1 > sel.budget.maxItems {
        return Some(BudgetStop(GlobalMaxItems, item.id, |sel.byItem|, sel.totalBytes, item.cost, sel.budget.maxItems));
      }
      return Some(BudgetStop(GlobalMaxBytes, item.id, |sel.byItem|, sel.totalBytes, item.cost, sel.budget.maxBytes));
    }
    return None;
  }

  /** Admit the next frontier candidate, or record the bound that blocks it. */
  method TakeNext(r: Requirement, item: Item, count: nat, bytes: nat, sel: SharedSelection, ghost st: State,
      ghost f: seq<Item>)
    returns (stop: Option<BudgetStop>)
    requires count < |f| && f[count] == item && bytes == SumCost(f[..count])
    requires sel.Now() == AdmitAll(st, f[..count], r.id)
    modifies sel
    ensures stop == StopAt(st, sel.budget, r, f, count)
    ensures sel.Now() == AdmitAll(st, f[..if stop.Some? then count else count + 1], r.id)
    ensures stop.None? ==> bytes + item.cost == SumCost(f[..count + 1])
    ensures stop.None? ==> KeysOf(f[..count + 1]) == KeysOf(f[..count]) + {item.key}
    ensures TakeFrom(st, sel.budget, r, f, count) ==
            if stop.Some? then count else TakeFrom(st, sel.budget, r, f, count + 1)
  {
    stop := FirstBound(r, item, count, bytes, sel, f[..count]);
    if stop.None? {
      AdmitOneMore(st, f, count, r.id);
      sel.Admit(item, r.id);
    }
    TakeStep(st, sel.budget, r, f, count);
  }

  /** The greedy pass over the sorted candidates. */
  method Fill(r: Requirement, eligible: seq<Item>, sel: SharedSelection)
    returns (count: nat, keys: set<string>, stop: Option<BudgetStop>)
    modifies sel
    ensures count == TakeFrom(old(sel.Now()), sel.budget, r, Frontier(r, eligible), 0)
    ensures sel.Now() == AdmitAll(old(sel.Now()), Frontier(r, eligible)[..count], r.id)
    ensures keys == KeysOf(Frontier(r, eligible)[..count])
    ensures stop == if count < |Frontier(r, eligible)|
                    then StopAt(old(sel.Now()), sel.budget, r, Frontier(r, eligible), count) else None
  {
    ghost var st, f := sel.Now(), Frontier(r, eligible);
    count, keys, stop := 0, {}, None;
    var bytes := 0;
    var n := 0;
    ghost var scan := ScanTable(r, eligible);
    while n < |eligible|
      invariant n <= |eligible| && count == scan[n] <= |f|
      invariant stop.None? && sel.Now() == AdmitAll(st, f[..count], r.id)
      invariant bytes == SumCost(f[..count]) && keys == KeysOf(f[..count])
      invariant TakeFrom(st, sel.budget, r, f, 0) == TakeFrom(st, sel.budget, r, f, count)
    {
      var item := eligible[n];
      assert ScanStep(r, item, f, count, scan[n + 1]);
      n := n + 1;
      if r.coverage.Minimum? && count >= r.minItems {
        break;
      }
      if r.coverage.SemanticKeys? && item.key !in r.requiredKeys {
        continue;
      }
      stop := TakeNext(r, item, count, bytes, sel, st, f);
      if stop.Some? {
        break;
      }
      keys, count, bytes := keys + {item.key}, count + 1, bytes + item.cost;
    }
  }

  predicate EntryLt(a: Entry, b: Entry)
  {
    if a.key.kind != b.key.kind then StrLt(KindValue(a.key.kind), KindValue(b.key.kind))
    else StrLt(a.key.key, b.key.key)
  }

  lemma DistinctEntries(groups: seq<Entry>)
    requires DistinctKeys(groups)
    ensures NoDup(groups)
  {
  }

  /** Listing the groups of a view in another order yields the same view. */
  lemma ResolvesInAnyOrder(items: seq<Item>, v: View, groups: seq<Entry>)
    requires Resolves(items, v) && multiset(groups) == multiset(v.groups)
    ensures Resolves(items, v.(groups := groups))
    ensures Elems(groups) == Elems(v.groups)
  {
    SameMultisetSameElems(groups, v.groups);
    DistinctEntries(v.groups);
    NoDupCard(groups);
    NoDupCard(v.groups);
    forall i, j | 0 <= i < j < |groups| ensures groups[i].key != groups[j].key {
      assert groups[i] in Elems(groups) && groups[j] in Elems(groups);
      var p :| 0 <= p < |v.groups| && v.groups[p] == groups[i];
      var q :| 0 <= q < |v.groups| && v.groups[q] == groups[j];
      assert p != q;
    }
    forall k ensures HasKey(groups, k) <==> HasKey(v.groups, k) {
      assert forall e :: e in groups <==> e in Elems(groups);
      assert forall e :: e in v.groups <==> e in Elems(v.groups);
    }
    forall e | e in groups ensures e in v.groups { assert e in Elems(groups); }
  }

  /** The canonical candidate order does not depend on how the groups are listed. */
  lemma SameFrontier(r: Requirement, items: seq<Item>, v: View, w: View)
    requires WellIdentified(Elems(items)) && Resolves(items, v) && Resolves(items, w)
    ensures Sort(CandLt, ViewItems(v.groups)) == Sort(CandLt, ViewItems(w.groups))
    ensures FrontierOf(r, v) == FrontierOf(r, w)
  {
    ViewItemsDistinct(items, v);
    ViewItemsDistinct(items, w);
    forall i ensures i in ViewItems(v.groups) <==> i in ViewItems(w.groups) {
      if i in ViewItems(v.groups) { OfferedByBoth(items, v, w, i); }
      if i in ViewItems(w.groups) { OfferedByBoth(items, w, v, i); }
    }
    CandOrder(Elems(ViewItems(v.groups)));
    SortForgetsOrder(CandLt, ViewItems(v.groups), ViewItems(w.groups));
  }

  lemma OfferedByBoth(items: seq<Item>, v: View, w: View, i: Item)
    requires WellIdentified(Elems(items)) && Resolves(items, v) && Resolves(items, w)
    requires i in ViewItems(v.groups)
    ensures i in ViewItems(w.groups)
  {
    InViewItems(v.groups, i);
    var e :| e in v.groups && !e.group.conflict && i in e.group.items;
    assert HasKey(v.groups, e.key) && HasKey(w.groups, e.key);
    var f :| f in w.groups && f.key == e.key;
    InViewItems(w.groups, i);
  }

  /** Split the groups, in canonical order, into offered items and conflicts. */
  method SplitGroups(groups: seq<Entry>) returns (eligible: seq<Item>, conflicted: seq<Entry>)
    ensures eligible == ViewItems(groups)
    ensures forall e :: e in conflicted <==> e in groups && e.group.conflict
  {
    eligible, conflicted := [], [];
    for n := 0 to |groups|
      invariant eligible == ViewItems(groups[..n])
      invariant forall e :: e in conflicted <==> e in groups[..n] && e.group.conflict
    {
      assert groups[..n + 1][..n] == groups[..n] && groups[..n + 1] == groups[..n] + [groups[n]];
      if groups[n].group.conflict { conflicted := conflicted + [groups[n]]; }
      else { eligible := eligible + groups[n].group.items; }
    }
    assert groups[..|groups|] == groups;
  }

  /** A conflict is a disposition bound to the requirement that wanted the key. */
  method ConflictUnknowns(r: Requirement, conflicted: seq<Entry>) returns (out: seq<Unknown>, disposed: set<string>)
    ensures forall u :: u in out <==> exists e :: e in conflicted && u == ConflictUnknown(r, e)
    ensures disposed == set e | e in conflicted :: e.key.key
  {
    out, disposed := [], {};
    for n := 0 to |conflicted|
      invariant forall u :: u in out <==> exists e :: e in conflicted[..n] && u == ConflictUnknown(r, e)
      invariant disposed == set e | e in conflicted[..n] :: e.key.key
    {
      assert conflicted[..n + 1] == conflicted[..n] + [conflicted[n]];
      out := out + [ConflictUnknown(r, conflicted[n])];
      disposed := disposed + {conflicted[n].key.key};
    }
    assert conflicted[..|conflicted|] == conflicted;
  }

  /** The unsatisfiable requirement's error under a BLOCK missing policy. */
  datatype Blocked = Blocked(requirement: string)

  method Dispose(r: Requirement, keys: set<string>, disposed: set<string>, stop: Option<BudgetStop>)
    returns (out: Result<seq<Unknown>, Blocked>)
    ensures out.Err? <==> r.policy.Block?
    ensures out.Err? ==> out.error == Blocked(r.id)
    ensures out.Ok? ==> forall u :: u in out.value <==> ShortfallUnknown(r, keys, disposed, stop) == Some(u)
  {
    var reason := if stop.Some? then BudgetInsufficient else MissingRequiredContext;
    var missing := if r.coverage.SemanticKeys? then Some(r.requiredKeys - keys - disposed) else None;
    var details := ShortfallDetails(r.kind, r.coverage, r.minItems, |keys|, stop, missing);
    if r.policy.Block? { return Err(Blocked(r.id)); }
    if r.policy.OptionalPolicy? && reason != BudgetInsufficient { return Ok([]); }
    return Ok([Unknown(Some(r.id), None, reason, details, MaterialityFor(r))]);
  }

  /** The sorted candidates of a view and the unknowns its conflicts leave. */
  method Prepare(r: Requirement, ghost items: seq<Item>, v: View)
    returns (eligible: seq<Item>, conflicts: seq<Unknown>, disposed: set<string>)
    requires WellIdentified(Elems(items)) && Resolves(items, v)
    ensures eligible == Sort(CandLt, ViewItems(v.groups))
    ensures disposed == ConflictKeys(v.groups)
    ensures forall u :: u in conflicts <==> RecordsConflict(r, v, u)
  {
    var groups := Sort(EntryLt, v.groups);
    ResolvesInAnyOrder(items, v, groups);
    var listed, conflicted := SplitGroups(groups);
    SameFrontier(r, items, v.(groups := groups), v);
    eligible := Sort(CandLt, listed);
    ConflictsListed(v, groups, conflicted);
    conflicts, disposed := ConflictUnknowns(r, conflicted);
  }

  ghost predicate RecordsConflict(r: Requirement, v: View, u: Unknown)
  {
    exists e :: e in v.groups && e.group.conflict && u == ConflictUnknown(r, e)
  }

  ghost predicate RecordsShortfall(st: State, budget: Budget, r: Requirement, v: View, u: Unknown)
  {
    && !Met(st, budget, r, v)
    && ShortfallUnknown(r, KeysOf(Taken(st, budget, r, v)), ConflictKeys(v.groups), Stop(st, budget, r, v)) == Some(u)
  }

  /** Fill from the prepared candidates, and dispose of what is left unmet. */
  method FillAndDispose(r: Requirement, v: View, eligible: seq<Item>, disposed: set<string>, sel: SharedSelection)
    returns (out: Result<seq<Unknown>, Blocked>)
    requires eligible == Sort(CandLt, ViewItems(v.groups)) && disposed == ConflictKeys(v.groups)
    modifies sel
    ensures sel.Now() == AdmitAll(old(sel.Now()), Taken(old(sel.Now()), sel.budget, r, v), r.id)
    ensures out.Err? <==> r.policy.Block? && !Met(old(sel.Now()), sel.budget, r, v)
    ensures out.Err? ==> out.error == Blocked(r.id)
    ensures out.Ok? ==> forall u :: u in out.value <==> RecordsShortfall(old(sel.Now()), sel.budget, r, v, u)
  {
    var count, keys, stop := Fill(r, eligible, sel);
    if Satisfied(r, count, keys, disposed, stop.Some?) {
      out := Ok([]);
    } else {
      out := Dispose(r, keys, disposed, stop);
    }
  }

  /** Fill one requirement from its own resolved view. */
  method SelectFrom(r: Requirement, ghost items: seq<Item>, v: View, sel: SharedSelection)
    returns (out: Result<seq<Unknown>, Blocked>)
    requires WellIdentified(Elems(items)) && Resolves(items, v)
    modifies sel
    ensures sel.Now() == AdmitAll(old(sel.Now()), Taken(old(sel.Now()), sel.budget, r, v), r.id)
    ensures out.Err? <==> r.policy.Block? && !Met(old(sel.Now()), sel.budget, r, v)
    ensures out.Err? ==> out.error == Blocked(r.id)
    ensures out.Ok? ==> forall u :: u in out.value <==> Records(old(sel.Now()), sel.budget, r, v, u)
  {
    var eligible, conflicts, disposed := Prepare(r, items, v);
    var short := FillAndDispose(r, v, eligible, disposed, sel);
    match short {
      case Err(e) => out := Err(e);
      case Ok(more) => out := Ok(v.unknowns + conflicts + more);
    }
  }

  lemma ConflictsListed(v: View, groups: seq<Entry>, conflicted: seq<Entry>)
    requires Elems(groups) == Elems(v.groups)
    requires forall e :: e in conflicted <==> e in groups && e.group.conflict
    ensures forall e :: e in conflicted <==> e in v.groups && e.group.conflict
    ensures (set e | e in conflicted :: e.key.key) == ConflictKeys(v.groups)
  {
    assert forall e :: e in groups <==> e in Elems(groups);
    assert forall e :: e in v.groups <==> e in Elems(v.groups);
  }
}
