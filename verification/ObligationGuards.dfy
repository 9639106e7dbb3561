/**
 The guards between artifacts, and what a chain of accepted hops is worth.
 */
module ObligationGuards {
  import opened Base
  import opened Reachability
  import opened Obligations

  datatype GuardError =
    | DuplicateId(id: string) | DuplicateChildId | Disappeared(id: string) | KindChanged(id: string)
    | ForeignId(id: string) | OwnerUnresolved(id: string) | NoConsumer(id: string)

  // ---- the guards as predicates ------------------------------------------

  /** An obligation of the same id and kind is in `child`. */
  ghost predicate KeptIn(o: Obligation, child: seq<Obligation>)
  {
    exists c :: c in child && c.id == o.id && c.kind == o.kind
  }

  ghost predicate Conserves(parent: seq<Obligation>, child: seq<Obligation>)
  {
    && DistinctIds(parent) && DistinctIds(child)
    && forall o | o in parent && MustPropagate(o) :: KeptIn(o, child)
  }

  ghost predicate ConservesIds(parent: seq<Obligation>, ids: seq<string>)
  {
    && NoDup(ids) && DistinctIds(parent)
    && (forall o | o in parent && MustPropagate(o) :: o.id in ids)
    && forall id | id in ids :: id in IdSet(parent)
  }

  ghost predicate WellOwned(os: seq<Obligation>, registry: set<string>)
  {
    DistinctIds(os) && forall o | o in os :: o.owner in registry && (o.required ==> o.consumers != [])
  }

  // ---- the guards as methods ---------------------------------------------

  /** `_index`: id to obligation, refusing a repeated id. */
  method Index(os: seq<Obligation>) returns (r: Result<map<string, Obligation>, GuardError>)
    ensures r.Ok? <==> DistinctIds(os)
    ensures r.Ok? ==> r.value.Keys == IdSet(os) && forall o | o in os :: r.value[o.id] == o
    ensures r.Err? ==> r.error.DuplicateId? && exists i, j :: 0 <= i < j < |os| && os[i].id == os[j].id == r.error.id
  {
    var indexed: map<string, Obligation> := map[];
    for k := 0 to |os|
      invariant DistinctIds(os[..k]) && indexed.Keys == IdSet(os[..k])
      invariant forall i | 0 <= i < k :: os[i].id in indexed && indexed[os[i].id] == os[i]
    {
      if os[k].id in indexed {
        var o :| o in os[..k] && o.id == os[k].id;
        var i :| 0 <= i < k && os[i] == o;
        return Err(DuplicateId(os[k].id));
      }
      IndexNext(os, k, indexed);
      indexed := indexed[os[k].id := os[k]];
    }
    assert os[..|os|] == os;
    return Ok(indexed);
  }

  lemma IndexNext(os: seq<Obligation>, k: nat, indexed: map<string, Obligation>)
    requires k < |os| && DistinctIds(os[..k]) && indexed.Keys == IdSet(os[..k]) && os[k].id !in indexed
    ensures DistinctIds(os[..k + 1]) && indexed[os[k].id := os[k]].Keys == IdSet(os[..k + 1])
    ensures forall i | 0 <= i < k :: os[i].id != os[k].id
  {
    assert os[..k + 1] == os[..k] + [os[k]];
    forall i | 0 <= i < k ensures os[i].id != os[k].id { assert os[i] in os[..k]; }
  }

  lemma ByIndex(os: seq<Obligation>, index: map<string, Obligation>, id: string)
    requires index.Keys == IdSet(os) && forall o | o in os :: index[o.id] == o
    ensures id in index ==> index[id] in os && index[id].id == id
    ensures id !in index ==> forall o | o in os :: o.id != id
  {
  }

  /** `conserve`: a required, undisposed obligation keeps its id and kind. */
  method Conserve(parent: seq<Obligation>, child: seq<Obligation>) returns (r: Result<(), GuardError>)
    ensures r.Ok? <==> Conserves(parent, child)
    ensures r.Err? && r.error.Disappeared? ==>
      exists o :: o in parent && MustPropagate(o) && r.error.id == o.id && o.id !in IdSet(child)
    ensures r.Err? && r.error.KindChanged? ==>
      exists o, c :: o in parent && MustPropagate(o) && c in child && c.id == o.id && c.kind != o.kind
  {
    var parentIndex := Index(parent);
    if parentIndex.Err? { return Err(parentIndex.error); }
    var childIndex := Index(child);
    if childIndex.Err? { return Err(childIndex.error); }
    for k := 0 to |parent|
      invariant forall i | 0 <= i < k && MustPropagate(parent[i]) :: KeptIn(parent[i], child)
    {
      var o := parent[k];
      if !o.required || Terminal(o) { continue; }
      ByIndex(child, childIndex.value, o.id);
      if o.id !in childIndex.value { return Err(Disappeared(o.id)); }
      if childIndex.value[o.id].kind != o.kind { return Err(KindChanged(o.id)); }
    }
    return Ok(());
  }

  /** `conserve_ids`: the child carries ids only. */
  method ConserveIds(parent: seq<Obligation>, ids: seq<string>) returns (r: Result<(), GuardError>)
    ensures r.Ok? <==> ConservesIds(parent, ids)
    ensures r == Err(DuplicateChildId) <==> !NoDup(ids)
    ensures r.Err? && r.error.Disappeared? ==>
      exists o :: o in parent && MustPropagate(o) && r.error.id == o.id && o.id !in ids
    ensures r.Err? && r.error.ForeignId? ==> r.error.id in ids && r.error.id !in IdSet(parent)
  {
    NoDupCard(ids);
    if |ids| != |Elems(ids)| { return Err(DuplicateChildId); }
    var index := Index(parent);
    if index.Err? { return Err(index.error); }
    for k := 0 to |parent|
      invariant forall i | 0 <= i < k && MustPropagate(parent[i]) :: parent[i].id in ids
    {
      if !parent[k].required || Terminal(parent[k]) { continue; }
      if parent[k].id !in ids { return Err(Disappeared(parent[k].id)); }
    }
    for k := 0 to |ids|
      invariant forall i | 0 <= i < k :: ids[i] in IdSet(parent)
    {
      if ids[k] !in index.value { return Err(ForeignId(ids[k])); }
    }
    return Ok(());
  }

  /** `validate_obligations`: owners resolve and required obligations have consumers. */
  method ValidateObligations(os: seq<Obligation>, registry: set<string>) returns (r: Result<(), GuardError>)
    ensures r.Ok? <==> WellOwned(os, registry)
    ensures r.Err? && r.error.OwnerUnresolved? ==>
      exists o :: o in os && r.error.id == o.id && o.owner !in registry
    ensures r.Err? && r.error.NoConsumer? ==>
      exists o :: o in os && r.error.id == o.id && o.required && o.consumers == []
  {
    var index := Index(os);
    if index.Err? { return Err(index.error); }
    for k := 0 to |os|
      invariant forall i | 0 <= i < k :: os[i].owner in registry && (os[i].required ==> os[i].consumers != [])
    {
      if os[k].owner !in registry { return Err(OwnerUnresolved(os[k].id)); }
      if os[k].required && os[k].consumers == [] { return Err(NoConsumer(os[k].id)); }
    }
    return Ok(());
  }

  // ---- conservation over chains ------------------------------------------

  ghost predicate ChainConserves(stages: seq<seq<Obligation>>)
  {
    forall k | 0 <= k < |stages| - 1 :: Conserves(stages[k], stages[k + 1])
  }

  /** Some stage holds the obligation, under its kind, disposed or no longer required. */
  ghost predicate DisposedIn(stage: seq<Obligation>, id: string, kind: Kind)
  {
    exists o :: o in stage && o.id == id && o.kind == kind && !MustPropagate(o)
  }

  /**
   Through a chain of accepted hops of any length, a required pending obligation
   reaches the last stage under its id and kind, or an earlier stage disposed of
   it or made it non-required.
   */
  lemma {:induction false} ReachesOrIsDisposed(stages: seq<seq<Obligation>>, o: Obligation)
    requires stages != [] && ChainConserves(stages) && o in stages[0]
    ensures (exists c :: c in stages[|stages| - 1] && c.id == o.id && c.kind == o.kind)
         || (exists k :: 0 <= k < |stages| - 1 && DisposedIn(stages[k], o.id, o.kind))
  {
    if |stages| > 1 {
      if !MustPropagate(o) {
        assert DisposedIn(stages[0], o.id, o.kind);
      } else {
        assert Conserves(stages[0], stages[0 + 1]);
        var c :| c in stages[1] && c.id == o.id && c.kind == o.kind;
        var rest := stages[1..];
        forall k | 0 <= k < |rest| - 1 ensures Conserves(rest[k], rest[k + 1]) {
          assert Conserves(stages[k + 1], stages[k + 1 + 1]);
        }
        ReachesOrIsDisposed(rest, c);
        if k :| 0 <= k < |rest| - 1 && DisposedIn(rest[k], c.id, c.kind) {
          assert DisposedIn(stages[k + 1], o.id, o.kind);
        }
      }
    }
  }

  // ---- the other projections ---------------------------------------------

  function RequiredPendingIds(os: seq<Obligation>): seq<string>
  {
    if os == [] then []
    else RequiredPendingIds(os[..|os| - 1]) + (if MustPropagate(os[|os| - 1]) then [os[|os| - 1].id] else [])
  }

  /** The ids the execution graph carries. */
  function GraphRefs(os: seq<Obligation>): seq<string>
  {
    if os == [] then []
    else
      var last := os[|os| - 1];
      GraphRefs(os[..|os| - 1]) + (if last.required && last.disposition == Pending then [last.id] else [])
  }

  /** A disposition is pending or terminal, so the graph carries exactly the ids the pipeline expects. */
  lemma {:induction false} GraphRefsAreRequiredPending(os: seq<Obligation>)
    ensures GraphRefs(os) == RequiredPendingIds(os)
  {
    if os != [] { GraphRefsAreRequiredPending(os[..|os| - 1]); }
  }

  datatype Property = Property(id: string, ref: string, evaluator: string)

  function EvaluatorOf(k: Kind): string
  {
    match k
    case Realization => "realization_evidence"
    case Architecture => "architecture_integrity_evidence"
    case Validation => "validation_ladder"
    case Delivery => "delivery_evidence"
    case Authority => "authority_order"
    case Epistemic => "unknown_resolution"
    case Convergence => "terminal_success_gate"
  }

  const IDEMPOTENCY := Property("PROP.GAR.IDEMPOTENCY", OBL_ARCHITECTURE, "idempotency_evidence")

  function PropertyOf(o: Obligation): Property { Property("PROP." + o.id, o.id, EvaluatorOf(o.kind)) }

  predicate HasArchitecture(os: seq<Obligation>) { exists o | o in os :: o.id == OBL_ARCHITECTURE }

  function Required(os: seq<Obligation>): seq<Obligation> { Filter((o: Obligation) => o.required, os) }

  /** The validation properties, in order: one for each required obligation, then one for temporal architecture. */
  ghost predicate ArePropertiesOf(properties: seq<Property>, os: seq<Obligation>, temporal: bool)
  {
    var required := Required(os);
    && |properties| == |required| + (if temporal && HasArchitecture(os) then 1 else 0)
    && (forall k | 0 <= k < |required| :: properties[k] == PropertyOf(required[k]))
    && (temporal && HasArchitecture(os) ==> properties[|required|] == IDEMPOTENCY)
  }

  /** The properties of the required obligations, in order. */
  ghost predicate Lists(properties: seq<Property>, required: seq<Obligation>)
  {
    |properties| == |required| && forall i | 0 <= i < |required| :: properties[i] == PropertyOf(required[i])
  }

  lemma ListsNext(properties: seq<Property>, required: seq<Obligation>, o: Obligation)
    requires Lists(properties, required)
    ensures Lists(properties + [PropertyOf(o)], required + [o])
  {
  }

  method CompileProperties(os: seq<Obligation>, temporal: bool) returns (properties: seq<Property>)
    ensures ArePropertiesOf(properties, os, temporal)
    ensures RefsOf(properties) == PropertyRefs(os, temporal)
  {
    hide Required, RequiredIds, PropertyOf, HasArchitecture, Lists;
    properties := [];
    NothingRequired();
    for k := 0 to |os|
      invariant RefsOf(properties) == RequiredIds(os[..k])
      invariant Lists(properties, Required(os[..k]))
    {
      RequiredSnoc(os, k);
      if !os[k].required { continue; }
      var p := PropertyOf(os[k]);
      PropertyRef(os[k]);
      RefsSnoc(properties, p);
      ListsNext(properties, Required(os[..k]), os[k]);
      properties := properties + [p];
    }
    assert os[..|os|] == os;
    ghost var own := properties;
    if HasArchitecture(os) && temporal {
      RefsSnoc(properties, IDEMPOTENCY);
      properties := properties + [IDEMPOTENCY];
    }
    PropertiesOf(own, properties, os, temporal);
  }

  lemma NothingRequired()
    ensures RefsOf([]) == RequiredIds([]) && Lists([], Required([]))
  {
  }

  lemma PropertyRef(o: Obligation)
    ensures PropertyOf(o).ref == o.id
  {
  }

  lemma PropertiesOf(own: seq<Property>, properties: seq<Property>, os: seq<Obligation>, temporal: bool)
    requires Lists(own, Required(os))
    requires properties == if HasArchitecture(os) && temporal then own + [IDEMPOTENCY] else own
    ensures ArePropertiesOf(properties, os, temporal)
  {
    hide Required, PropertyOf, HasArchitecture;
  }

  /** What evaluates an obligation of a kind. */
  predicate Evaluates(kind: Kind, evaluator: string)
  {
    match kind
    case Realization => evaluator == "realization_evidence"
    case Architecture => evaluator == "architecture_integrity_evidence"
    case Validation => evaluator == "validation_ladder"
    case Delivery => evaluator == "delivery_evidence"
    case Authority => evaluator == "authority_order"
    case Epistemic => evaluator == "unknown_resolution"
    case Convergence => evaluator == "terminal_success_gate"
  }

  /** The property that stands for an obligation. */
  predicate Names(p: Property, o: Obligation)
  {
    p.id == "PROP." + o.id && p.ref == o.id && Evaluates(o.kind, p.evaluator)
  }

  lemma PropertyNames(o: Obligation, p: Property)
    ensures Names(p, o) <==> p == PropertyOf(o)
  {
  }

  lemma RequiredAre(os: seq<Obligation>)
    ensures forall o :: o in Required(os) <==> o in os && o.required
  {
  }

  lemma HasProperty(properties: seq<Property>, os: seq<Obligation>, temporal: bool, o: Obligation)
    requires ArePropertiesOf(properties, os, temporal) && o in os && o.required
    ensures exists p :: p in properties && Names(p, o)
  {
    hide Required, Names, HasArchitecture, PropertyOf;
    RequiredAre(os);
    var k :| 0 <= k < |Required(os)| && Required(os)[k] == o;
    PropertyNames(o, properties[k]);
    assert properties[k] in properties;
  }

  /** A temporal task's architecture has one property more. */
  predicate IsTemporal(p: Property, os: seq<Obligation>, temporal: bool)
  {
    && temporal && (exists o | o in os :: o.id == OBL_ARCHITECTURE)
    && p.id == "PROP.GAR.IDEMPOTENCY" && p.ref == OBL_ARCHITECTURE && p.evaluator == "idempotency_evidence"
  }

  lemma IsOfSome(properties: seq<Property>, os: seq<Obligation>, temporal: bool, p: Property)
    requires ArePropertiesOf(properties, os, temporal) && p in properties
    ensures IsTemporal(p, os, temporal) || exists o :: o in os && o.required && Names(p, o)
  {
    hide Required, Names, PropertyOf;
    RequiredAre(os);
    var k :| 0 <= k < |properties| && properties[k] == p;
    if k < |Required(os)| {
      var o := Required(os)[k];
      assert o in Required(os);
      PropertyNames(o, p);
    }
  }

  /**
   Each required obligation has a property that names it and what evaluates its kind,
   temporal architecture one more, and there is no other.
   */
  lemma PropertiesSay(properties: seq<Property>, os: seq<Obligation>, temporal: bool)
    requires ArePropertiesOf(properties, os, temporal)
    ensures forall o | o in os && o.required :: exists p :: p in properties && Names(p, o)
    ensures forall p | p in properties ::
      IsTemporal(p, os, temporal) || exists o :: o in os && o.required && Names(p, o)
  {
    hide ArePropertiesOf, Names, IsTemporal;
    forall o | o in os && o.required ensures exists p :: p in properties && Names(p, o) {
      HasProperty(properties, os, temporal, o);
    }
    forall p | p in properties
      ensures IsTemporal(p, os, temporal) || exists o :: o in os && o.required && Names(p, o) {
      IsOfSome(properties, os, temporal, p);
    }
  }

  function RefsOf(ps: seq<Property>): set<string> { set p | p in ps :: p.ref }

  lemma RefsSnoc(ps: seq<Property>, p: Property)
    ensures RefsOf(ps + [p]) == RefsOf(ps) + {p.ref}
  {
  }

  lemma RequiredSnoc(os: seq<Obligation>, k: nat)
    requires k < |os|
    ensures RequiredIds(os[..k + 1]) == RequiredIds(os[..k]) + (if os[k].required then {os[k].id} else {})
    ensures Required(os[..k + 1]) == if os[k].required then Required(os[..k]) + [os[k]] else Required(os[..k])
  {
    assert os[..k + 1] == os[..k] + [os[k]];
    assert os[..k + 1][..k] == os[..k];
  }

  function RequiredIds(os: seq<Obligation>): set<string> { set o | o in os && o.required :: o.id }

  function PropertyRefs(os: seq<Obligation>, temporal: bool): set<string>
  {
    RequiredIds(os) + (if temporal && HasArchitecture(os) then {OBL_ARCHITECTURE} else {})
  }

  /** The validation contract's references always pass the id guard. */
  lemma PropertiesConserve(os: seq<Obligation>, temporal: bool)
    ensures ConservesIds(os, SortedStrings(PropertyRefs(os, temporal))) <==> DistinctIds(os)
  {
    SortedHolds(PropertyRefs(os, temporal));
    hide NoDup, DistinctIds;
  }

  lemma SortedHolds(s: set<string>)
    ensures NoDup(SortedStrings(s)) && forall id :: id in SortedStrings(s) <==> id in s
  {
    SortedStringsSorted(s);
    forall id ensures id in SortedStrings(s) <==> id in s { assert id in Elems(SortedStrings(s)) <==> id in s; }
  }

  // ---- the packet --------------------------------------------------------

  datatype PacketError = ForeignProperty | LostValidation | DeliveryDropped | GarMissing | GarNoOutputs

  datatype Binding = Binding(sourceRef: string, outputs: seq<string>)

  function PacketIds(os: seq<Obligation>): set<string>
  {
    set o | o in os && o.required && o.disposition == Pending :: o.id
  }

  /** Binding `i` is the first of the architect kernel. */
  ghost predicate IsFirstGar(bindings: seq<Binding>, i: nat)
  {
    && i < |bindings| && EndsWith(bindings[i].sourceRef, "global_architect_kernel.yaml")
    && forall j | 0 <= j < i :: !EndsWith(bindings[j].sourceRef, "global_architect_kernel.yaml")
  }

  lemma FirstGarLater(bindings: seq<Binding>)
    requires bindings != [] && !EndsWith(bindings[0].sourceRef, "global_architect_kernel.yaml")
    ensures forall i: nat | IsFirstGar(bindings[1..], i) ::
      IsFirstGar(bindings, i + 1) && bindings[i + 1] == bindings[1..][i]
  {
    forall i: nat | IsFirstGar(bindings[1..], i) ensures IsFirstGar(bindings, i + 1) {
      forall j | 0 <= j < i + 1 ensures !EndsWith(bindings[j].sourceRef, "global_architect_kernel.yaml") {
        if j > 0 { assert bindings[j] == bindings[1..][j - 1]; }
      }
    }
  }

  /** The first binding of the architect kernel. */
  function FirstGar(bindings: seq<Binding>): (first: Option<Binding>)
    ensures first.Some? ==> exists i: nat :: IsFirstGar(bindings, i) && bindings[i] == first.value
    ensures first.None? ==> forall b | b in bindings :: !EndsWith(b.sourceRef, "global_architect_kernel.yaml")
  {
    if bindings == [] then None
    else if EndsWith(bindings[0].sourceRef, GAR_KERNEL) then
      assert IsFirstGar(bindings, 0);
      Some(bindings[0])
    else
      var first := FirstGar(bindings[1..]);
      FirstGarLater(bindings);
      first
  }

  /** `validate_packet`, the obligation checks, over the projections the packet is built from. */
  method ValidatePacket(os: seq<Obligation>, refs: set<string>, bindings: seq<Binding>)
    returns (error: Option<PacketError>)
    ensures error.None? <==>
      (&& refs == PacketIds(os)
       && (forall o | o in os && o.id == OBL_DELIVERY && o.required :: o.id in PacketIds(os))
       && (OBL_ARCHITECTURE in PacketIds(os) ==> FirstGar(bindings).Some? && FirstGar(bindings).value.outputs != []))
    ensures error == Some(ForeignProperty) <==> !(refs <= PacketIds(os))
    ensures error == Some(LostValidation) <==> refs < PacketIds(os)
  {
    var required := PacketIds(os);
    assert refs <= required <==> refs - required == {} by {
      forall id | id in refs && id !in required ensures id in refs - required { }
    }
    if refs - required != {} { return Some(ForeignProperty); }
    if required - refs != {} { return Some(LostValidation); }
    assert refs == required;
    var delivery := Filter((o: Obligation) => o.id == OBL_DELIVERY, os);
    if exists o | o in delivery :: o.required && o.id !in required { return Some(DeliveryDropped); }
    if OBL_ARCHITECTURE in required {
      var gar := FirstGar(bindings);
      if gar.None? { return Some(GarMissing); }
      if gar.value.outputs == [] { return Some(GarNoOutputs); }
    }
    return None;
  }

  /**
   The packet's set checks hold exactly when every required obligation is still
   pending and no temporal property hangs off an architecture obligation that is
   not required and pending: one disposed required obligation breaks them.
   */
  lemma PacketSetsAgreeIff(os: seq<Obligation>, temporal: bool)
    requires DistinctIds(os)
    ensures PropertyRefs(os, temporal) == PacketIds(os) <==>
      && (forall o | o in os && o.required :: o.disposition == Pending)
      && (temporal ==> forall o | o in os && o.id == OBL_ARCHITECTURE :: o.required)
  {
    if PropertyRefs(os, temporal) == PacketIds(os) {
      forall o | o in os && o.required ensures o.disposition == Pending {
        assert o.id in PropertyRefs(os, temporal);
        OneById(os, o);
      }
      if temporal {
        forall o | o in os && o.id == OBL_ARCHITECTURE ensures o.required {
          assert o.id in PropertyRefs(os, temporal);
          OneById(os, o);
        }
      }
    }
  }

  lemma OneById(os: seq<Obligation>, o: Obligation)
    requires DistinctIds(os) && o in os
    ensures forall x | x in os && x.id == o.id :: x == o
  {
  }

  // ---- the derived list passes every guard -------------------------------

  lemma SameListConserves(os: seq<Obligation>)
    requires DistinctIds(os)
    ensures Conserves(os, os)
  {
  }

  lemma InDerived(x: Inputs, o: Obligation)
    ensures o in Derived(x) <==>
      o in Core(x) || o in Conditional(x) || o in FromContext(x.contextUnknowns) || o in FromNotes(x.intentUnknowns)
  {
  }

  ghost predicate PendingAndBound(o: Obligation)
  {
    o.disposition == Pending && o.consumers != [] && (o.id == OBL_ARCHITECTURE ==> o.required)
  }

  lemma NotePending(us: seq<string>, o: Obligation)
    requires o in FromNotes(us)
    ensures PendingAndBound(o)
  {
    InFromNotes(us, o);
    var k :| 0 <= k < |us| && us[k] != MODE_UNKNOWN && o == NoteObligation(k, us[k]);
    hide Tag;
    FamilyTags(Decimal(k));
    FixedTags();
  }

  lemma CorePending(x: Inputs, o: Obligation)
    requires o in Core(x)
    ensures PendingAndBound(o)
  {
  }

  lemma ConditionalPending(x: Inputs, o: Obligation)
    requires o in Conditional(x)
    ensures PendingAndBound(o)
  {
    InConditional(x, o);
    hide Conditional, TerminalOwner, GarOwner;
  }

  lemma ContextPending(us: seq<ContextUnknown>, o: Obligation)
    requires o in FromContext(us)
    ensures PendingAndBound(o)
  {
    InFromContext(us, o);
  }

  /** Everything derived is pending, and the architecture obligation, if there, is required. */
  lemma DerivedPending(x: Inputs, o: Obligation)
    requires o in Derived(x)
    ensures PendingAndBound(o)
  {
    hide Derived, Core, Conditional, FromContext, FromNotes, PendingAndBound;
    InDerived(x, o);
    if o in Core(x) { CorePending(x, o); }
    else if o in Conditional(x) { ConditionalPending(x, o); }
    else if o in FromContext(x.contextUnknowns) { ContextPending(x.contextUnknowns, o); }
    else { NotePending(x.intentUnknowns, o); }
  }

  /** Execution and handoff carry the list, the validation ids conserve it, and graph and packet agree with it. */
  ghost predicate PassesEveryGuard(os: seq<Obligation>, temporal: bool)
  {
    && Conserves(os, os)
    && ConservesIds(os, SortedStrings(PropertyRefs(os, temporal)))
    && GraphRefs(os) == RequiredPendingIds(os)
    && PropertyRefs(os, temporal) == PacketIds(os)
  }

  /** A derived list passes every later guard exactly when no material context unknown is recorded twice. */
  lemma DerivedPassesEveryGuard(x: Inputs, temporal: bool)
    ensures PassesEveryGuard(Derived(x), temporal) <==> BlockingDistinct(x.contextUnknowns)
  {
    hide Derived, BlockingDistinct;
    var os := Derived(x);
    DerivedDistinct(x);
    if DistinctIds(os) {
      SameListConserves(os);
      PropertiesConserve(os, temporal);
      GraphRefsAreRequiredPending(os);
      forall o | o in os ensures PendingAndBound(o) { DerivedPending(x, o); }
      PacketSetsAgreeIff(os, temporal);
    }
  }

  // ---- owners ------------------------------------------------------------

  const RESERVED: set<string> := {"objective_deriver", "validation_runtime", "adapter_renderer", "context_compiler"}

  /** `owner_registry`. */
  function Registry(x: Inputs): set<string>
  {
    RESERVED + (set p | p in x.phases :: "phase:" + p) + (set k | k in x.kernels) + {"terminal:flawless_victory"}
  }

  /** An owner resolves when it is a runtime component, a planned phase, a bound kernel or the terminal one. */
  lemma OwnerKnownIff(x: Inputs, owner: string)
    ensures owner in Registry(x) <==>
      || owner in {"objective_deriver", "validation_runtime", "adapter_renderer", "context_compiler"}
      || (exists p :: p in x.phases && owner == "phase:" + p) || owner in x.kernels
      || owner == "terminal:flawless_victory"
  {
  }

  lemma {:induction false} FirstKernelIs(p: string -> bool, kernels: seq<string>, default: string)
    ensures var k := FirstKernel(p, kernels, default);
      if exists x :: x in kernels && p(x) then k in kernels && p(k) else k == default
  {
    if kernels != [] && !p(kernels[0]) {
      FirstKernelIs(p, kernels[1..], default);
      if x :| x in kernels && p(x) { assert x in kernels[1..]; }
    }
  }

  /** A repository path resolves only to a bound kernel. */
  lemma PathResolves(x: Inputs, path: string)
    requires path == K01 || path == GAR_DEFAULT
    ensures path in Registry(x) <==> path in x.kernels
  {
    assert KERNEL_ROOT[0] == 'r';
    assert path[0] == 'r';
    forall p | p in x.phases ensures "phase:" + p != path { assert ("phase:" + p)[0] == 'p'; }
    assert path !in RESERVED by { assert |path| > 30; }
    assert path != "terminal:flawless_victory" by { assert "terminal:flawless_victory"[0] == 't'; }
  }

  lemma PhaseResolves(x: Inputs)
    ensures "phase:P2_TASK_ROUTING" in Registry(x) <==>
      "P2_TASK_ROUTING" in x.phases || "phase:P2_TASK_ROUTING" in x.kernels
  {
    var name := "phase:P2_TASK_ROUTING";
    assert name == "phase:" + "P2_TASK_ROUTING" && name[0] == 'p';
    forall p | p in x.phases && "phase:" + p == name ensures p == "P2_TASK_ROUTING" {
      PhaseNamed(p, "P2_TASK_ROUTING");
    }
    ReservedHeads();
    assert "terminal:flawless_victory"[0] == 't';
    PhaseListed(x, "P2_TASK_ROUTING");
  }

  lemma PhaseNamed(p: string, q: string)
    ensures "phase:" + p == "phase:" + q ==> p == q
  {
    assert ("phase:" + p)[6..] == p && ("phase:" + q)[6..] == q;
  }

  /** A phase name resolves through a planned phase, unless a kernel has that very name. */
  lemma PhaseListed(x: Inputs, p: string)
    requires "phase:" + p !in RESERVED && "phase:" + p != "terminal:flawless_victory"
    ensures "phase:" + p in Registry(x) <==> p in x.phases || "phase:" + p in x.kernels
  {
    hide RESERVED;
    forall q | q in x.phases && "phase:" + q == "phase:" + p ensures q == p { PhaseNamed(q, p); }
  }

  lemma ReservedHeads()
    ensures forall r | r in RESERVED :: r != [] && r[0] != 'p'
  {
    assert "objective_deriver"[0] == 'o' && "validation_runtime"[0] == 'v';
    assert "adapter_renderer"[0] == 'a' && "context_compiler"[0] == 'c';
  }

  predicate TaskResolves(x: Inputs)
  {
    || (exists k | k in x.kernels :: StartsWith(k, TASK_KERNELS))
    || "P2_TASK_ROUTING" in x.phases || "phase:P2_TASK_ROUTING" in x.kernels
  }

  predicate GarResolves(x: Inputs)
  {
    exists k | k in x.kernels :: EndsWith(k, GAR_KERNEL)
  }

  lemma OwnersResolve(x: Inputs)
    ensures TaskOwner(x.kernels) in Registry(x) <==> TaskResolves(x)
    ensures GarOwner(x.kernels) in Registry(x) <==> GarResolves(x)
    ensures TerminalOwner(x.kernels) in Registry(x)
    ensures K01 in Registry(x) <==> K01 in x.kernels
  {
    FirstKernelIs((k: string) => StartsWith(k, TASK_KERNELS), x.kernels, "phase:P2_TASK_ROUTING");
    FirstKernelIs((k: string) => EndsWith(k, GAR_KERNEL), x.kernels, GAR_DEFAULT);
    FirstKernelIs((k: string) => EndsWith(k, TERMINAL_KERNEL), x.kernels, "terminal:flawless_victory");
    PhaseResolves(x);
    PathResolves(x, K01);
    PathResolves(x, GAR_DEFAULT);
    assert EndsWith(GAR_DEFAULT, GAR_KERNEL);
  }

  lemma ConditionalOwners(x: Inputs)
    ensures (forall o | o in Conditional(x) :: o.owner in Registry(x)) <==> (x.materialityRequired ==> GarResolves(x))
  {
    hide Registry, GarResolves, TaskResolves, GarOwner, TerminalOwner;
    ReservedResolve(x);
    OwnersResolve(x);
    var v, d := When(x.validationRequired, ValidationObligation()), When(x.deliveryRequired, DeliveryObligation(x));
    var c := When(x.accountabilityRequired || x.terminalAllowed, ConvergenceObligation(x));
    var a, r := When(x.materialityRequired, ArchitectureObligation(x)),
      When(x.realizationMode == "UNKNOWN", ResolutionObligation());
    forall o ensures o in Conditional(x) <==> o in v || o in d || o in c || o in a || o in r { }
    if x.materialityRequired { assert ArchitectureObligation(x) in a; }
  }

  lemma ReservedResolve(x: Inputs)
    ensures "objective_deriver" in Registry(x) && "validation_runtime" in Registry(x)
    ensures "context_compiler" in Registry(x)
  {
  }

  lemma CoreOwners(x: Inputs)
    ensures (forall o | o in Core(x) :: o.owner in Registry(x)) <==> K01 in x.kernels && TaskResolves(x)
  {
    hide Registry, TaskResolves, GarResolves, TaskOwner;
    ReservedResolve(x);
    OwnersResolve(x);
    assert Core(x)[0] in Core(x) && Core(x)[2] in Core(x);
  }

  lemma EpistemicOwners(x: Inputs, o: Obligation)
    requires o in FromContext(x.contextUnknowns) || o in FromNotes(x.intentUnknowns)
    ensures o.owner in Registry(x)
  {
    InFromContext(x.contextUnknowns, o);
    InFromNotes(x.intentUnknowns, o);
    ReservedResolve(x);
  }

  /**
   The structural check passes on a derived list exactly when no material unknown
   is recorded twice, the constitutional kernel is bound, the task owner resolves,
   and material architecture has its kernel bound.
   */
  lemma DerivedIsWellOwnedIff(x: Inputs)
    ensures WellOwned(Derived(x), Registry(x)) <==>
      && BlockingDistinct(x.contextUnknowns) && K01 in x.kernels && TaskResolves(x)
      && (x.materialityRequired ==> GarResolves(x))
  {
    hide Derived, Registry, Conditional, Core, TaskResolves, GarResolves, DistinctIds, BlockingDistinct;
    DerivedDistinct(x);
    ConditionalOwners(x);
    CoreOwners(x);
    forall o
      ensures o in Derived(x) <==>
        o in Core(x) || o in Conditional(x) || o in FromContext(x.contextUnknowns) || o in FromNotes(x.intentUnknowns) {
      InDerived(x, o);
    }
    forall o | o in FromContext(x.contextUnknowns) || o in FromNotes(x.intentUnknowns) ensures o.owner in Registry(x) {
      EpistemicOwners(x, o);
    }
    forall o | o in Derived(x) ensures o.consumers != [] { DerivedPending(x, o); }
  }

  // ---- the pipeline's hops -----------------------------------------------

  datatype HopError = Owners(error: GuardError) | Hop(stage: string, error: GuardError) | GraphDiverged

  /** The guards at each hop: intent to execution, execution to validation and to handoff, and the graph. */
  method CheckHops(intent: seq<Obligation>, execution: seq<Obligation>, handoff: seq<Obligation>, temporal: bool)
    returns (error: Option<HopError>)
    ensures error.None? <==>
      && Conserves(intent, execution) && Conserves(execution, handoff)
      && ConservesIds(execution, SortedStrings(PropertyRefs(execution, temporal)))
      && GraphRefs(execution) == RequiredPendingIds(execution)
    ensures error.Some? ==> !error.value.Owners?
  {
    hide Conserves, ConservesIds;
    var first := Conserve(intent, execution);
    if first.Err? { return Some(Hop("intent->execution", first.error)); }
    var properties := CompileProperties(execution, temporal);
    var second := ConserveIds(execution, SortedStrings(RefsOf(properties)));
    if second.Err? { return Some(Hop("execution->validation", second.error)); }
    var third := Conserve(execution, handoff);
    if third.Err? { return Some(Hop("execution->handoff", third.error)); }
    if GraphRefs(execution) != RequiredPendingIds(execution) { return Some(GraphDiverged); }
    return None;
  }

  /** Derive, check owners, then thread the obligations through every hop: only the owner check can refuse. */
  method ThreadObligations(x: Inputs, temporal: bool) returns (r: Result<seq<Obligation>, HopError>)
    ensures r.Ok? <==> WellOwned(Derived(x), Registry(x))
    ensures r.Ok? ==> r.value == Derived(x)
    ensures r.Err? ==> r.error.Owners?
  {
    hide Derived, Registry, Conserves, ConservesIds, WellOwned;
    var os := Derive(x);
    var owners := ValidateObligations(os, Registry(x));
    if owners.Err? { return Err(Owners(owners.error)); }
    var error := CheckHops(os, os, os, temporal);
    r := if error.Some? then Err(error.value) else Ok(os);
    WellOwnedPasses(x, temporal);
  }

  lemma WellOwnedPasses(x: Inputs, temporal: bool)
    requires WellOwned(Derived(x), Registry(x))
    ensures var os := Derived(x);
      Conserves(os, os) && ConservesIds(os, SortedStrings(PropertyRefs(os, temporal)))
        && GraphRefs(os) == RequiredPendingIds(os)
  {
    hide Derived, Registry, Conserves, ConservesIds;
    DerivedDistinct(x);
    DerivedPassesEveryGuard(x, temporal);
  }
}
