/**
 The hand-over from context to obligations: a compiled context lists each unknown
 identity once, so what is derived from it passes every guard that follows.
 */
module Pipeline {
  import opened Base
  import opened ContextModel
  import opened ContextCompiler
  import Obligations
  import ObligationGuards
  import ExecutionLaws

  /** An injective identity: equal exactly for unknowns that agree on all but materiality. */
  ghost predicate Identifies(ident: Unknown -> string)
  {
    forall u, v :: ident(u) == ident(v) <==> SameUnknown(u, v)
  }

  /** What derivation reads of the context's unknowns. */
  function MaterialOf(ident: Unknown -> string, unknowns: seq<Unknown>): seq<Obligations.ContextUnknown>
  {
    seq(|unknowns|, k requires 0 <= k < |unknowns| =>
      Obligations.ContextUnknown(ident(unknowns[k]), unknowns[k].materiality.Blocking?, ReasonCode(unknowns[k].reason)))
  }

  /** One unknown for each identity means no material unknown is recorded twice. */
  lemma OneEachIsDistinct(ident: Unknown -> string, unknowns: seq<Unknown>)
    requires Identifies(ident) && OneEach(unknowns)
    ensures Obligations.BlockingDistinct(MaterialOf(ident, unknowns))
  {
    var us := MaterialOf(ident, unknowns);
    forall i, j | 0 <= i < j < |us| ensures us[i].id != us[j].id {
      assert unknowns[i] in unknowns && unknowns[j] in unknowns;
    }
  }

  /** A blocking unknown of the context is owed as a required obligation, and only a blocking one is. */
  lemma BlockingIsOwed(ident: Unknown -> string, ctx: Context, x: Obligations.Inputs, u: Unknown)
    requires Identifies(ident) && OneEach(ctx.unknowns) && u in ctx.unknowns
    ensures u.materiality == Blocking <==>
      "OBL.EPISTEMIC.CONTEXT." + ident(u) in Obligations.IdSet(Obligations.Derived(InputsFor(ident, ctx, x)))
    ensures forall o | o in Obligations.Derived(InputsFor(ident, ctx, x))
      && o.id == "OBL.EPISTEMIC.CONTEXT." + ident(u) :: o.required && o.kind == Obligations.Epistemic
  {
    var y, id := InputsFor(ident, ctx, x), "OBL.EPISTEMIC.CONTEXT." + ident(u);
    var us := y.contextUnknowns;
    var k :| 0 <= k < |ctx.unknowns| && ctx.unknowns[k] == u;
    assert us[k] in us && us[k].id == ident(u) && (us[k].blocking <==> u.materiality == Blocking);
    hide Obligations.Derived, Obligations.Tag, OneEach;
    if us[k].blocking {
      var o := Obligations.Obligation(id, Obligations.Epistemic, true, "context_compiler", ["handoff_contract"],
        ["resolution or governed disposition of " + us[k].reason], Obligations.Pending);
      assert ExecutionLaws.OwedForUnknown(y, us[k], o);
      ExecutionLaws.OwedIff(y, o);
    }
    forall o | o in Obligations.Derived(y) && o.id == id
      ensures o.required && o.kind == Obligations.Epistemic && u.materiality == Blocking {
      var w := OwedById(ident, ctx, x, ident(u), o);
      assert ident(w) == ident(u) && SameUnknown(w, u);
      OneOfEach(ctx.unknowns, w, u);
    }
  }

  lemma OneOfEach(unknowns: seq<Unknown>, v: Unknown, w: Unknown)
    requires OneEach(unknowns) && v in unknowns && w in unknowns && SameUnknown(v, w)
    ensures v == w
  {
  }

  /** An obligation under a context id comes from a blocking unknown of that identity. */
  lemma OwedById(ident: Unknown -> string, ctx: Context, x: Obligations.Inputs, id: string, o: Obligations.Obligation)
    returns (w: Unknown)
    requires o in Obligations.Derived(InputsFor(ident, ctx, x)) && o.id == "OBL.EPISTEMIC.CONTEXT." + id
    ensures w in ctx.unknowns && ident(w) == id && w.materiality == Blocking
    ensures o.required && o.kind == Obligations.Epistemic
  {
    var y := InputsFor(ident, ctx, x);
    ExecutionLaws.OwedIff(y, o);
    Obligations.FamilyTags(id);
    ExecutionLaws.FixedIdTag(y, o);
    hide Obligations.Derived, Obligations.Tag, ExecutionLaws.OwedFixed;
    if k: nat :| ExecutionLaws.NotedFor(y, k, o) { Obligations.FamilyTags(Obligations.Decimal(k)); }
    var c :| ExecutionLaws.OwedForUnknown(y, c, o);
    Obligations.ContextIdSame(c.id, id);
    var k :| 0 <= k < |y.contextUnknowns| && y.contextUnknowns[k] == c;
    w := ctx.unknowns[k];
  }

  /** Derivation over a compiled context's own unknowns. */
  function InputsFor(ident: Unknown -> string, ctx: Context, x: Obligations.Inputs): Obligations.Inputs
  {
    x.(contextUnknowns := MaterialOf(ident, ctx.unknowns))
  }

  /** The obligations of every compiled context pass every later guard. */
  lemma CompiledPassesEveryGuard(ident: Unknown -> string, ctx: Context, plan: Plan, cands: seq<Item>, t: Trace,
                                 extra: seq<Unknown>, x: Obligations.Inputs, temporal: bool)
    requires Identifies(ident) && Compiled(ctx, plan, cands, t, extra)
    ensures ObligationGuards.PassesEveryGuard(Obligations.Derived(InputsFor(ident, ctx, x)), temporal)
  {
    hide IsRun, Lists, NothingBlocked, OneEach, Collected, Represented, Identifies, Obligations.Derived;
    OneEachIsDistinct(ident, ctx.unknowns);
    ObligationGuards.DerivedPassesEveryGuard(InputsFor(ident, ctx, x), temporal);
  }

  /** The owners a derived list needs, whatever the unknowns. */
  predicate OwnersBound(x: Obligations.Inputs)
  {
    && Obligations.K01 in x.kernels && ObligationGuards.TaskResolves(x)
    && (x.materialityRequired ==> ObligationGuards.GarResolves(x))
  }

  /** Derive and thread a context's obligations: refused exactly when an owner is not bound. */
  method DeriveForContext(ident: Unknown -> string, ctx: Context, x: Obligations.Inputs, temporal: bool)
    returns (r: Result<seq<Obligations.Obligation>, ObligationGuards.HopError>)
    requires Identifies(ident) && OneEach(ctx.unknowns)
    ensures r.Ok? <==> OwnersBound(x)
    ensures r.Ok? ==> r.value == Obligations.Derived(InputsFor(ident, ctx, x))
                      && ObligationGuards.PassesEveryGuard(r.value, temporal)
    ensures r.Err? ==> r.error.Owners?
  {
    hide Obligations.Derived, OneEach, Identifies;
    var inputs := InputsFor(ident, ctx, x);
    r := ObligationGuards.ThreadObligations(inputs, temporal);
    OneEachIsDistinct(ident, ctx.unknowns);
    ObligationGuards.DerivedIsWellOwnedIff(inputs);
    ObligationGuards.DerivedPassesEveryGuard(inputs, temporal);
  }
}
