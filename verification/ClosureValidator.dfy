/**
 The ladder: the checks in order, each passed recorded, the first failure named.
 */
module ClosureValidator {
  import opened Base
  import opened ContextModel
  import opened Reachability
  import opened Resolution
  import opened ResolutionLaws
  import opened Selection
  import opened Closure
  import opened ClosureLaws

  /** Execute the checks in order, recording each that passes. */
  method Ladder(verdicts: seq<bool>) returns (out: Result<seq<string>, string>)
    requires |verdicts| == |CHECKS|
    ensures out.Ok? <==> forall k | 0 <= k < |verdicts| :: verdicts[k]
    ensures out.Ok? ==> out.value == CHECKS
    ensures out.Err? ==> exists k :: 0 <= k < |CHECKS| && out.error == CHECKS[k] && !verdicts[k]
                                  && forall j | 0 <= j < k :: verdicts[j]
  {
    var executed: seq<string> := [];
    for k := 0 to |CHECKS|
      invariant executed == CHECKS[..k] && forall j | 0 <= j < k :: verdicts[j]
    {
      if !verdicts[k] { return Err(CHECKS[k]); }
      executed := executed + [CHECKS[k]];
    }
    out := Ok(executed);
  }

  /** Run the ladder; fail at the first check that does not hold. */
  method Validate(ctx: Context, plan: Plan, cands: seq<Item>)
    returns (out: Result<seq<string>, string>, ghost views: seq<View>)
    requires WellIdentified(Elems(cands))
    ensures Reresolved(plan, cands, views)
    ensures out.Ok? <==> Closed(ctx, plan, views)
    ensures out.Ok? ==> out.value == CHECKS
    ensures out.Err? ==> exists k: nat :: FailsAt(ctx, plan, views, k) && out.error == CHECKS[k]
    ensures out.Ok? <==> Accepted(ctx, plan, views)
    ensures out.Err? ==> Refused(out.error, ctx, plan, views)
  {
    var resolved := ResolveViews(plan, cands);
    views := resolved;
    var verdicts := Verdicts(ctx, plan, resolved);
    hide CheckHolds, Reresolved, Accepted, Refused, WellIdentified;
    out := Ladder(verdicts);
    ClosedByChecks(ctx, plan, views);
    AcceptedIff(ctx, plan, cands, views);
    if out.Err? {
      ghost var k: nat :| k < |CHECKS| && out.error == CHECKS[k] && !verdicts[k]
                       && forall j | 0 <= j < k :: verdicts[j];
      assert FailsAt(ctx, plan, views, k);
      RefusedBy(ctx, plan, cands, views, k);
    }
  }
}
