/**
 What the coverage proof alone does not force. For each coverage mode, exactly
 which selections some list of unknowns makes pass. When a prefix is forced is
 the subject of PrefixLimits.
 */
module ClosureLimits {
  import opened Base
  import opened ContextModel
  import opened Reachability
  import opened Resolution
  import opened ResolutionLaws
  import opened Selection
  import opened SelectionLaws
  import opened Closure
  import opened ClosureAgreement
  import opened ClosureSoundness

  /** The frontier items a selection leaves, in canonical order. */
  ghost function Left(selected: seq<Selected>, r: Requirement, v: View): seq<Item>
  {
    Filter((i: Item) => i.id !in TakenIds(Context(selected, []), r.id), FrontierOf(r, v))
  }

  ghost function AdmittedOf(selected: seq<Selected>, r: Requirement, v: View): seq<Item>
  {
    Admitted(Context(selected, []), r, v)
  }

  /** The first frontier item left breaks a ceiling on top of what was taken before and by the requirement. */
  ghost predicate FirstHasNoRoom(selected: seq<Selected>, plan: Plan, n: nat, v: View)
    requires n < |plan.requirements|
  {
    var r := plan.requirements[n];
    var admitted, left := AdmittedOf(selected, r, v), Left(selected, r, v);
    && left != []
    && (|| (r.maxItems.Some? && |admitted| + 1 > r.maxItems.value)
        || (r.maxBytes.Some? && SumCost(admitted) + left[0].cost > r.maxBytes.value)
        || Overflows(plan.budget, Rebuilt(selected, EarlierIds(plan, n), admitted), left[0]))
  }

  // ---- stops that can be proven ------------------------------------------

  /** A witness for the first ceiling the first item left breaks. */
  ghost function WitnessFor(selected: seq<Selected>, plan: Plan, n: nat, v: View): BudgetStop
    requires n < |plan.requirements| && FirstHasNoRoom(selected, plan, n, v)
  {
    var r := plan.requirements[n];
    var admitted, b := AdmittedOf(selected, r, v), Left(selected, r, v)[0];
    var held := Rebuilt(selected, EarlierIds(plan, n), admitted);
    if r.maxItems.Some? && |admitted| + 1 > r.maxItems.value then
      BudgetStop(RequirementMaxItems, b.id, |admitted|, SumCost(admitted), b.cost, r.maxItems.value)
    else if r.maxBytes.Some? && SumCost(admitted) + b.cost > r.maxBytes.value then
      BudgetStop(RequirementMaxBytes, b.id, |admitted|, SumCost(admitted), b.cost, r.maxBytes.value)
    else if |held| + 1 > plan.budget.maxItems then
      BudgetStop(GlobalMaxItems, b.id, |held|, SumCost(held), b.cost, plan.budget.maxItems)
    else BudgetStop(GlobalMaxBytes, b.id, |held|, SumCost(held), b.cost, plan.budget.maxBytes)
  }

  ghost function StopUnknown(r: Requirement, stop: BudgetStop): Unknown
  {
    Unknown(Some(r.id), None, BudgetInsufficient,
            ShortfallDetails(r.kind, r.coverage, r.minItems, 0, Some(stop), None), MaterialityFor(r))
  }

  lemma WitnessForHolds(selected: seq<Selected>, plan: Plan, n: nat, v: View)
    requires n < |plan.requirements| && FirstHasNoRoom(selected, plan, n, v)
    ensures WitnessHolds(WitnessFor(selected, plan, n, v), plan.budget, plan.requirements[n], selected,
                         EarlierIds(plan, n), AdmittedOf(selected, plan.requirements[n], v),
                         Left(selected, plan.requirements[n], v)[0])
  {
    hide AdmittedOf, Left, Rebuilt, EarlierIds, SumCost;
  }

  lemma NoRoomIfHolds(w: BudgetStop, selected: seq<Selected>, plan: Plan, n: nat, v: View)
    requires n < |plan.requirements| && Left(selected, plan.requirements[n], v) != []
    requires WitnessHolds(w, plan.budget, plan.requirements[n], selected, EarlierIds(plan, n),
                          AdmittedOf(selected, plan.requirements[n], v), Left(selected, plan.requirements[n], v)[0])
    ensures FirstHasNoRoom(selected, plan, n, v)
  {
    hide AdmittedOf, Left, Rebuilt, EarlierIds, SumCost;
  }

  lemma ReadsSelection(ctx: Context, r: Requirement, v: View)
    ensures Filter((i: Item) => i.id in TakenIds(ctx, r.id), FrontierOf(r, v)) == AdmittedOf(ctx.selected, r, v)
    ensures Filter((i: Item) => i.id !in TakenIds(ctx, r.id), FrontierOf(r, v)) == Left(ctx.selected, r, v)
  {
    assert TakenIds(ctx, r.id) == TakenIds(Context(ctx.selected, []), r.id);
    SameFilter(FrontierOf(r, v), TakenIds(ctx, r.id), TakenIds(Context(ctx.selected, []), r.id));
  }

  /** What a proven stop says, in terms of the selection and the witness read first. */
  lemma StopProvenMeans(ctx: Context, plan: Plan, n: nat, v: View)
    requires n < |plan.requirements|
    ensures var r := plan.requirements[n]; var u := FirstBudget(ctx.unknowns, r.id);
      StopProven(ctx, plan, n, v) <==>
        && u.Some? && Witness(u.value).Some? && Left(ctx.selected, r, v) != []
        && WitnessHolds(Witness(u.value).value, plan.budget, r, ctx.selected, EarlierIds(plan, n),
                        AdmittedOf(ctx.selected, r, v), Left(ctx.selected, r, v)[0])
  {
    var r := plan.requirements[n];
    var taken := TakenIds(ctx, r.id);
    ReadsSelection(ctx, r, v);
    SameFilter(FrontierOf(r, v), taken, TakenIds(ctx, r.id));
    hide WitnessHolds, FirstBudget, Witness, EarlierIds, AdmittedOf, Left, FrontierOf, TakenIds;
  }

  /** Some unknowns prove a stop exactly when the first item left has no room. */
  lemma StopProvableIff(selected: seq<Selected>, plan: Plan, n: nat, v: View)
    requires n < |plan.requirements|
    ensures (exists us :: StopProven(Context(selected, us), plan, n, v)) <==> FirstHasNoRoom(selected, plan, n, v)
  {
    hide StopProven, FirstHasNoRoom, WitnessHolds, WitnessFor;
    if FirstHasNoRoom(selected, plan, n, v) { StopShown(selected, [], plan, n, v); }
    if us :| StopProven(Context(selected, us), plan, n, v) { StopNeedsNoRoom(Context(selected, us), plan, n, v); }
  }

  lemma StopNeedsNoRoom(ctx: Context, plan: Plan, n: nat, v: View)
    requires n < |plan.requirements| && StopProven(ctx, plan, n, v)
    ensures FirstHasNoRoom(ctx.selected, plan, n, v)
  {
    hide StopProven, FirstHasNoRoom, WitnessHolds, AdmittedOf, Left;
    StopProvenMeans(ctx, plan, n, v);
    NoRoomIfHolds(Witness(FirstBudget(ctx.unknowns, plan.requirements[n].id).value).value, ctx.selected, plan, n, v);
  }

  /** The witness, listed first, proves the stop. */
  lemma StopShown(selected: seq<Selected>, more: seq<Unknown>, plan: Plan, n: nat, v: View)
    requires n < |plan.requirements| && FirstHasNoRoom(selected, plan, n, v)
    ensures StopProven(Context(selected, [StopUnknown(plan.requirements[n], WitnessFor(selected, plan, n, v))] + more),
                       plan, n, v)
  {
    hide StopProven, WitnessHolds, WitnessFor, AdmittedOf, Left;
    var u := StopUnknown(plan.requirements[n], WitnessFor(selected, plan, n, v));
    var ctx := Context(selected, [u] + more);
    assert ctx.unknowns[0] == u;
    WitnessForHolds(selected, plan, n, v);
    StopProvenMeans(ctx, plan, n, v);
  }

  // ---- selections that can pass ------------------------------------------

  /** How many items a `minimum` requirement takes. */
  function Expected(r: Requirement, items: seq<Item>): nat
  {
    if r.minItems <= |items| then r.minItems else |items|
  }

  /** Coverage, given the keys disposed and whether a stop is proven. */
  ghost predicate Covers(r: Requirement, v: View, taken: set<string>, keys: set<string>, disposed: set<string>,
    stopped: bool)
  {
    var items := ViewItems(v.groups);
    && taken <= IdsOf(items)
    && match r.coverage
       case AllEligible => taken == IdsOf(items) || stopped
       case Minimum => |taken| <= Expected(r, items) && (|taken| == Expected(r, items) || stopped)
       case SemanticKeys => keys <= r.requiredKeys && (OfferedKeys(v) * r.requiredKeys <= keys + disposed || stopped)
  }

  /** `v` offers no identity twice, as every resolved view does. */
  ghost predicate Distinct(v: View)
  {
    NoDup(ViewItems(v.groups)) && IdsDistinct(Elems(ViewItems(v.groups)))
  }

  lemma ResolvedIsDistinct(cands: seq<Item>, r: Requirement, v: View)
    requires WellIdentified(Elems(cands)) && Resolves(Eligible(cands, r), v)
    ensures Distinct(v)
  {
    EligibleIdentified(cands, r);
    ViewItemsDistinct(Eligible(cands, r), v);
  }

  lemma CleanMeans(ctx: Context, plan: Plan, n: nat, v: View)
    requires n < |plan.requirements| && Distinct(v)
    ensures var r := plan.requirements[n];
      CoverageClean(ctx, plan, n, v) <==>
        Covers(r, v, TakenIds(ctx, r.id), KeysOf(BoundTo(ctx.selected, r.id)), DisposedKeys(ctx.unknowns, r.id, v),
               StopProven(ctx, plan, n, v))
  {
    hide StopProven, KeyMap, TakenIds, IdsOf, KeysOf, DisposedKeys, NoDup, IdsDistinct;
    var r, items := plan.requirements[n], ViewItems(v.groups);
    KeyMapFacts(items);
    var taken, keys := TakenIds(ctx, r.id), KeysOf(BoundTo(ctx.selected, r.id));
    var disposed := DisposedKeys(ctx.unknowns, r.id, v);
    Subtract(taken, IdsOf(items));
    Subtract(IdsOf(items), taken);
    Subtract(keys, r.requiredKeys);
    Subtract(OfferedKeys(v) * r.requiredKeys, keys + disposed);
    assert OfferedKeys(v) * r.requiredKeys - keys - disposed == OfferedKeys(v) * r.requiredKeys - (keys + disposed);
  }

  /** What a selection needs for some unknowns to make its coverage pass. */
  ghost predicate Acceptable(selected: seq<Selected>, plan: Plan, n: nat, v: View)
    requires n < |plan.requirements|
  {
    var r := plan.requirements[n];
    Covers(r, v, TakenIds(Context(selected, []), r.id), KeysOf(BoundTo(selected, r.id)), ConflictKeys(v.groups),
           FirstHasNoRoom(selected, plan, n, v))
  }

  ghost function ConflictNotes(rid: string, keys: seq<string>): seq<Unknown>
  {
    seq(|keys|, k requires 0 <= k < |keys| =>
      Unknown(Some(rid), Some(keys[k]), ConflictingGovernedClaims, OtherDetails(""), NonBlocking))
  }

  lemma NotesDispose(rid: string, v: View, first: seq<Unknown>)
    requires forall u | u in first :: !u.reason.ConflictingGovernedClaims?
    ensures DisposedKeys(first + ConflictNotes(rid, SortedStrings(ConflictKeys(v.groups))), rid, v) ==
      ConflictKeys(v.groups)
  {
    var keys := SortedStrings(ConflictKeys(v.groups));
    var notes := ConflictNotes(rid, keys);
    SortedStringsSorted(ConflictKeys(v.groups));
    forall k | k in ConflictKeys(v.groups) ensures k in DisposedKeys(first + notes, rid, v) {
      assert k in Elems(keys);
      var i :| 0 <= i < |keys| && keys[i] == k;
      assert notes[i] in first + notes;
    }
  }

  /** A shortfall that names every requested key. */
  ghost function MissingNote(r: Requirement): Unknown
  {
    Unknown(Some(r.id), None, MissingRequiredContext,
            ShortfallDetails(r.kind, r.coverage, r.minItems, 0, None, Some(r.requiredKeys)), MaterialityFor(r))
  }

  /**
   The unknowns that give a selection its best chance: its witness, if it has one,
   a shortfall that names every key, and every conflict.
   */
  ghost function BestUnknowns(selected: seq<Selected>, plan: Plan, n: nat, v: View): seq<Unknown>
    requires n < |plan.requirements|
  {
    var r := plan.requirements[n];
    (if FirstHasNoRoom(selected, plan, n, v) then [StopUnknown(r, WitnessFor(selected, plan, n, v))] else [])
    + ([MissingNote(r)] + ConflictNotes(r.id, SortedStrings(ConflictKeys(v.groups))))
  }

  lemma BestUnknownsRead(selected: seq<Selected>, plan: Plan, n: nat, v: View)
    requires n < |plan.requirements|
    ensures var ctx := Context(selected, BestUnknowns(selected, plan, n, v));
      && DisposedKeys(ctx.unknowns, plan.requirements[n].id, v) == ConflictKeys(v.groups)
      && (StopProven(ctx, plan, n, v) <==> FirstHasNoRoom(selected, plan, n, v))
  {
    hide StopProven, FirstHasNoRoom, WitnessFor, DisposedKeys, ConflictKeys, ConflictNotes;
    var r := plan.requirements[n];
    var notes := ConflictNotes(r.id, SortedStrings(ConflictKeys(v.groups)));
    var us := BestUnknowns(selected, plan, n, v);
    if FirstHasNoRoom(selected, plan, n, v) {
      var stop := StopUnknown(r, WitnessFor(selected, plan, n, v));
      StopShown(selected, [MissingNote(r)] + notes, plan, n, v);
      NotesDispose(r.id, v, [stop, MissingNote(r)]);
      assert us == [stop, MissingNote(r)] + notes;
    } else {
      NotesDispose(r.id, v, [MissingNote(r)]);
      assert us == [MissingNote(r)] + notes;
      if StopProven(Context(selected, us), plan, n, v) { StopNeedsNoRoom(Context(selected, us), plan, n, v); }
    }
  }

  /** They also record a shortfall and every requested key as missing. */
  lemma BestUnknownsRecord(selected: seq<Selected>, plan: Plan, n: nat, v: View)
    requires n < |plan.requirements|
    ensures var us, r := BestUnknowns(selected, plan, n, v), plan.requirements[n];
      MissingNote(r) in us && ShortfallRecorded(us, r.id) && r.requiredKeys <= MissingRecorded(us, r.id)
  {
    hide FirstHasNoRoom, WitnessFor, ConflictKeys, ConflictNotes;
    var us, r := BestUnknowns(selected, plan, n, v), plan.requirements[n];
    assert MissingNote(r) in us;
    assert MissingListed(MissingNote(r)) == r.requiredKeys;
  }

  /**
   The exact reach of the coverage proof: a selection passes with some unknowns
   exactly when it took only eligible items, no more than its mode asks, and either
   all its mode asks or its first item left really has no room.
   */
  lemma PassesIff(selected: seq<Selected>, plan: Plan, n: nat, v: View)
    requires n < |plan.requirements| && Distinct(v)
    ensures (exists us :: CoverageClean(Context(selected, us), plan, n, v)) <==> Acceptable(selected, plan, n, v)
  {
    hide Distinct, CoverageClean, StopProven, FirstHasNoRoom, BestUnknowns, DisposedKeys, ConflictKeys;
    var r := plan.requirements[n];
    var best := BestUnknowns(selected, plan, n, v);
    BestUnknownsRead(selected, plan, n, v);
    CleanMeans(Context(selected, best), plan, n, v);
    SameTaken(selected, best, r.id);
    if us :| CoverageClean(Context(selected, us), plan, n, v) {
      CleanMeans(Context(selected, us), plan, n, v);
      SameTaken(selected, us, r.id);
      DisposedWithin(us, r.id, v);
      if StopProven(Context(selected, us), plan, n, v) { StopNeedsNoRoom(Context(selected, us), plan, n, v); }
    }
  }

  lemma SameTaken(selected: seq<Selected>, us: seq<Unknown>, rid: string)
    ensures TakenIds(Context(selected, us), rid) == TakenIds(Context(selected, []), rid)
  {
  }

  lemma DisposedWithin(us: seq<Unknown>, rid: string, v: View)
    ensures DisposedKeys(us, rid, v) <= ConflictKeys(v.groups)
  {
  }

  // ---- prefixes ----------------------------------------------------------

  /** The requirement took exactly a prefix of its canonical frontier. */
  ghost predicate TakesPrefix(ctx: Context, r: Requirement, v: View)
  {
    exists k: nat :: k <= |FrontierOf(r, v)| && TakenIds(ctx, r.id) == IdsOf(FrontierOf(r, v)[..k])
  }

  /** A selection of `xs` for requirement `r` alone. */
  ghost function Taking(r: Requirement, xs: seq<Item>): seq<Selected>
  {
    if xs == [] then [] else Taking(r, xs[..|xs| - 1]) + [Selected(xs[|xs| - 1], {r.id})]
  }

  lemma {:induction false} TakingReads(r: Requirement, xs: seq<Item>)
    ensures BoundTo(Taking(r, xs), r.id) == xs
  {
    if xs != [] {
      TakingReads(r, xs[..|xs| - 1]);
      var init, last := Taking(r, xs[..|xs| - 1]), Selected(xs[|xs| - 1], {r.id});
      assert (init + [last])[..|init|] == init && (init + [last])[|init|] == last;
      assert xs == xs[..|xs| - 1] + [xs[|xs| - 1]];
    }
  }

  lemma TakingIds(r: Requirement, xs: seq<Item>, us: seq<Unknown>)
    ensures TakenIds(Context(Taking(r, xs), us), r.id) == IdsOf(xs)
  {
    TakingReads(r, xs);
  }

  /** Distinct items of the view. */
  ghost predicate Offers(v: View, xs: seq<Item>)
  {
    NoDup(xs) && forall i | i in xs :: i in ViewItems(v.groups)
  }

  lemma OfferedFacts(v: View, xs: seq<Item>)
    requires Distinct(v) && Offers(v, xs)
    ensures IdsOf(xs) <= IdsOf(ViewItems(v.groups)) && |IdsOf(xs)| == |xs| && IdsDistinct(Elems(xs))
  {
    forall a, b | a in Elems(xs) && b in Elems(xs) && a.id == b.id ensures a == b {
      assert a in Elems(ViewItems(v.groups)) && b in Elems(ViewItems(v.groups));
    }
    DistinctCard(xs);
  }

  lemma FrontierIsView(r: Requirement, v: View)
    requires Distinct(v) && r.coverage.AllEligible?
    ensures |FrontierOf(r, v)| == |ViewItems(v.groups)| && IdsOf(FrontierOf(r, v)) == IdsOf(ViewItems(v.groups))
    ensures NoDup(FrontierOf(r, v)) && forall i :: i in FrontierOf(r, v) <==> i in ViewItems(v.groups)
  {
    SortedWithin(ViewItems(v.groups));
    SortedFacts(ViewItems(v.groups));
  }

  /** What a selection of offered items takes of the frontier is those items. */
  lemma TakingIsTaken(r: Requirement, v: View, xs: seq<Item>)
    requires Distinct(v) && r.coverage.AllEligible? && Offers(v, xs)
    ensures |AdmittedOf(Taking(r, xs), r, v)| == |xs|
    ensures |xs| < |FrontierOf(r, v)| ==> Left(Taking(r, xs), r, v) != []
  {
    var f, selected := FrontierOf(r, v), Taking(r, xs);
    FrontierIsView(r, v);
    TakingIds(r, xs, []);
    var admitted := AdmittedOf(selected, r, v);
    forall i ensures i in admitted <==> i in xs { OfferedById(v, xs, i); }
    SameItemsSameFacts(admitted, xs);
    if Left(selected, r, v) == [] {
      forall i | i in f ensures i in xs {
        assert i !in Left(selected, r, v);
        OfferedById(v, xs, i);
      }
      SumCostSub(f, xs);
    }
  }

  lemma OfferedById(v: View, xs: seq<Item>, i: Item)
    requires Distinct(v) && Offers(v, xs)
    ensures i in ViewItems(v.groups) && i.id in IdsOf(xs) <==> i in xs
  {
    if i in ViewItems(v.groups) && i.id in IdsOf(xs) {
      var x :| x in xs && x.id == i.id;
      assert x in Elems(ViewItems(v.groups)) && i in Elems(ViewItems(v.groups));
    }
  }

  /**
   All eligible: with an item ceiling of m below the frontier's length, every m of
   the eligible items pass with their witness, prefix or not.
   */
  lemma EverySubsetPasses(plan: Plan, n: nat, v: View, xs: seq<Item>)
    requires n < |plan.requirements| && Distinct(v) && plan.requirements[n].coverage.AllEligible?
    requires plan.requirements[n].maxItems == Some(|xs|) && |xs| < |FrontierOf(plan.requirements[n], v)|
    requires Offers(v, xs)
    ensures exists us :: CoverageClean(Context(Taking(plan.requirements[n], xs), us), plan, n, v)
    ensures forall us :: TakenIds(Context(Taking(plan.requirements[n], xs), us), plan.requirements[n].id) == IdsOf(xs)
  {
    hide CoverageClean, FrontierOf, Distinct, Offers, TakenIds, Rebuilt, EarlierIds, AdmittedOf, Left;
    var r := plan.requirements[n];
    TakingIsTaken(r, v, xs);
    OfferedFacts(v, xs);
    forall us ensures TakenIds(Context(Taking(r, xs), us), r.id) == IdsOf(xs) { TakingIds(r, xs, us); }
    PassesIff(Taking(r, xs), plan, n, v);
  }

  /** All eligible: without a proven stop everything is taken, so the prefix is the whole frontier. */
  lemma UnstoppedTakesAll(ctx: Context, plan: Plan, n: nat, v: View)
    requires n < |plan.requirements| && Distinct(v) && plan.requirements[n].coverage.AllEligible?
    requires CoverageClean(ctx, plan, n, v) && !StopProven(ctx, plan, n, v)
    ensures TakenIds(ctx, plan.requirements[n].id) == IdsOf(FrontierOf(plan.requirements[n], v))
    ensures TakesPrefix(ctx, plan.requirements[n], v)
  {
    hide StopProven, CoverageClean, Distinct, FrontierOf;
    CleanMeans(ctx, plan, n, v);
    var f := FrontierOf(plan.requirements[n], v);
    FrontierIsView(plan.requirements[n], v);
    assert f[..|f|] == f;
  }

  // ---- minimum coverage --------------------------------------------------

  lemma MinimumFrontier(r: Requirement, v: View)
    requires Distinct(v) && r.coverage.Minimum?
    ensures var sorted := Sort(CandLt, ViewItems(v.groups));
      && |sorted| == |ViewItems(v.groups)| && FrontierOf(r, v) == sorted[..Expected(r, ViewItems(v.groups))]
      && NoDup(sorted) && IdsDistinct(Elems(sorted))
      && IdsOf(sorted) == IdsOf(ViewItems(v.groups)) && Offers(v, sorted)
  {
    SortedWithin(ViewItems(v.groups));
    SortedFacts(ViewItems(v.groups));
    var sorted := Sort(CandLt, ViewItems(v.groups));
    assert sorted[..|sorted|] == sorted;
    OfferedFacts(v, sorted);
  }

  /** Minimum: without a proven stop, exactly the sets of the expected size pass, whatever the order. */
  lemma MinimumTakesAnyEnough(ctx: Context, plan: Plan, n: nat, v: View)
    requires n < |plan.requirements| && Distinct(v) && plan.requirements[n].coverage.Minimum?
    requires !StopProven(ctx, plan, n, v)
    ensures var taken := TakenIds(ctx, plan.requirements[n].id);
      CoverageClean(ctx, plan, n, v) <==>
        taken <= IdsOf(ViewItems(v.groups)) && |taken| == Expected(plan.requirements[n], ViewItems(v.groups))
  {
    hide StopProven, CoverageClean, Distinct;
    CleanMeans(ctx, plan, n, v);
  }

  // ---- lists and costs ---------------------------------------------------

  lemma SumCostSnoc(xs: seq<Item>, i: Item)
    ensures SumCost(xs + [i]) == SumCost(xs) + i.cost
  {
    assert (xs + [i])[..|xs|] == xs;
  }

  lemma NotEarlier(plan: Plan, n: nat)
    requires n < |plan.requirements| && plan.Valid()
    ensures plan.requirements[n].id !in EarlierIds(plan, n)
  {
    forall r | r in plan.requirements[..n] ensures r.id != plan.requirements[n].id {
      var k :| 0 <= k < n && plan.requirements[..n][k] == r;
    }
  }

  // ---- semantic keys -----------------------------------------------------

  /** What is bound to the requirement are items its view offers. */
  ghost predicate Genuine(ctx: Context, r: Requirement, v: View)
  {
    forall i | i in BoundTo(ctx.selected, r.id) :: i in ViewItems(v.groups)
  }

  /** A key is offered or in conflict, never both, when all candidates are of one kind. */
  lemma ResolvedKeysApart(cands: seq<Item>, r: Requirement, v: View)
    requires WellIdentified(Elems(cands)) && Resolves(Eligible(cands, r), v)
    ensures OfferedKeys(v) !! ConflictKeys(v.groups)
  {
    EligibleIdentified(cands, r);
    forall k | k in OfferedKeys(v) ensures k !in ConflictKeys(v.groups) {
      var i :| i in ViewItems(v.groups) && i.key == k;
      ViewItemIsRep(Eligible(cands, r), v, i);
      forall e | e in v.groups && e.group.conflict ensures e.key.key != k { OneKindOfKey(cands, r, v, e, i); }
    }
  }

  lemma OneKindOfKey(cands: seq<Item>, r: Requirement, v: View, e: Entry, i: Item)
    requires Resolves(Eligible(cands, r), v) && e in v.groups && e.group.conflict && i in Eligible(cands, r)
    requires exists d :: d in v.groups && d.key == KeyOf(i) && !d.group.conflict
    ensures e.key.key != i.key
  {
    assert HasKey(v.groups, e.key);
    var x :| x in GroupMembers(Eligible(cands, r), e.key);
    assert x.Kind() == r.kind == i.Kind();
    var d :| d in v.groups && d.key == KeyOf(i) && !d.group.conflict;
    assert d.group == GroupFor(Eligible(cands, r), d.key) && e.group == GroupFor(Eligible(cands, r), e.key);
  }

  lemma RequestedFrontier(r: Requirement, v: View)
    requires Distinct(v) && r.coverage.SemanticKeys?
    ensures var f := FrontierOf(r, v);
      && NoDup(f) && IdsDistinct(Elems(f)) && KeysOf(f) == OfferedKeys(v) * r.requiredKeys
      && forall i :: i in f <==> i in ViewItems(v.groups) && i.key in r.requiredKeys
  {
    SortedWithin(ViewItems(v.groups));
    SortedFacts(ViewItems(v.groups));
    RequestedKeys(r, Sort(CandLt, ViewItems(v.groups)));
    OfferedFacts(v, FrontierOf(r, v));
  }
}
