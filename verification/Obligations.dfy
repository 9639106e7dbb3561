/**
 Obligations: derived once from intent and activation, then conserved through
 every downstream artifact with a guard at each hop.
 */
module Obligations {
  import opened Base
  import opened Reachability

  datatype Kind = Realization | Architecture | Validation | Delivery | Authority | Epistemic | Convergence

  datatype Disposition = Pending | Satisfied | ValidBlock | SupersededByHigherAuthority | NotApplicableWithProof

  datatype Obligation = Obligation(
    id: string, kind: Kind, required: bool, owner: string, consumers: seq<string>, evidence: seq<string>,
    disposition: Disposition)

  predicate Terminal(o: Obligation)
  {
    o.disposition in {Satisfied, ValidBlock, SupersededByHigherAuthority, NotApplicableWithProof}
  }

  predicate MustPropagate(o: Obligation) { o.required && !Terminal(o) }

  ghost predicate DistinctIds(os: seq<Obligation>)
  {
    forall i, j | 0 <= i < j < |os| :: os[i].id != os[j].id
  }

  function IdSet(os: seq<Obligation>): set<string> { set o | o in os :: o.id }

  // ---- derivation --------------------------------------------------------

  /** What derivation reads of intent, plan, kernels and compiled context. */
  datatype Inputs = Inputs(
    realizationMode: string, deliveryMode: string, validationRequired: bool, deliveryRequired: bool,
    accountabilityRequired: bool, terminalAllowed: bool, materialityRequired: bool,
    kernels: seq<string>, phases: seq<string>,
    contextUnknowns: seq<ContextUnknown>, intentUnknowns: seq<string>)

  datatype ContextUnknown = ContextUnknown(id: string, blocking: bool, reason: string)

  predicate StartsWith(s: string, p: string) { p <= s }

  predicate EndsWith(s: string, p: string) { |p| <= |s| && s[|s| - |p|..] == p }

  const TASK_KERNELS := "runtime/kernels/task/"
  const TERMINAL_KERNEL := "flawless_victory.contract.yaml"
  const GAR_KERNEL := "global_architect_kernel.yaml"
  const KERNEL_ROOT := "runtime/kernels/"
  const GAR_DEFAULT := KERNEL_ROOT + "architecture/" + GAR_KERNEL
  const K01 := KERNEL_ROOT + "constitutional/K01-platform-architecture-engine.yaml"

  /** The first kernel satisfying `p`, or the default. */
  function FirstKernel(p: string -> bool, kernels: seq<string>, default: string): string
  {
    if kernels == [] then default
    else if p(kernels[0]) then kernels[0]
    else FirstKernel(p, kernels[1..], default)
  }

  function TaskOwner(kernels: seq<string>): string
  {
    FirstKernel((k: string) => StartsWith(k, TASK_KERNELS), kernels, "phase:P2_TASK_ROUTING")
  }

  function TerminalOwner(kernels: seq<string>): string
  {
    FirstKernel((k: string) => EndsWith(k, TERMINAL_KERNEL), kernels, "terminal:flawless_victory")
  }

  function GarOwner(kernels: seq<string>): string
  {
    FirstKernel((k: string) => EndsWith(k, GAR_KERNEL), kernels, GAR_DEFAULT)
  }

  function Decimal(n: nat): (s: string)
    ensures s != []
  {
    if n < 10 then ['0' + n as char] else Decimal(n / 10) + ['0' + (n % 10) as char]
  }

  const OBL_AUTHORITY := "OBL.AUTHORITY"
  const OBL_RUNTIME_INTEGRITY := "OBL.RUNTIME_INTEGRITY"
  const OBL_REALIZATION := "OBL.REALIZATION"
  const OBL_VALIDATION := "OBL.VALIDATION"
  const OBL_DELIVERY := "OBL.DELIVERY"
  const OBL_CONVERGENCE := "OBL.CONVERGENCE"
  const OBL_ARCHITECTURE := "OBL.ARCHITECTURE"
  const OBL_RESOLUTION := "OBL.EPISTEMIC.REALIZATION_RESOLUTION"
  const CONTEXT_PREFIX := "OBL.EPISTEMIC.CONTEXT."
  const NOTE_PREFIX := "OBL.EPISTEMIC.UNKNOWN."

  function Fixed(id: string, kind: Kind, owner: string, consumers: seq<string>, evidence: seq<string>): Obligation
  {
    Obligation(id, kind, true, owner, consumers, evidence, Pending)
  }

  function When(condition: bool, o: Obligation): seq<Obligation> { if condition then [o] else [] }

  function Core(x: Inputs): seq<Obligation>
  {
    [Fixed(OBL_AUTHORITY, Authority, K01, ["execution_contract"], ["authority order respected with evidence"]),
     Fixed(OBL_RUNTIME_INTEGRITY, Validation, "validation_runtime", ["validation_contract"],
       ["command run or blocker reason"]),
     Fixed(OBL_REALIZATION, Realization, TaskOwner(x.kernels), ["execution_graph"],
           ["realization evidence for mode " + x.realizationMode])]
  }

  function ValidationObligation(): Obligation
  {
    Fixed(OBL_VALIDATION, Validation, "validation_runtime", ["validation_contract"], ["command run or blocker reason"])
  }

  function DeliveryObligation(x: Inputs): Obligation
  {
    Fixed(OBL_DELIVERY, Delivery, TerminalOwner(x.kernels), ["handoff_contract", "validation_contract"],
          ["delivery evidence for mode " + x.deliveryMode])
  }

  function ConvergenceObligation(x: Inputs): Obligation
  {
    Fixed(OBL_CONVERGENCE, Convergence, TerminalOwner(x.kernels), ["validation_contract"],
      ["terminal disposition receipt"])
  }

  function ArchitectureObligation(x: Inputs): Obligation
  {
    Fixed(OBL_ARCHITECTURE, Architecture, GarOwner(x.kernels), ["validation_contract", "execution_graph"],
          ["architectural integrity evidence", "plan readiness evidence"])
  }

  function ResolutionObligation(): Obligation
  {
    Fixed(OBL_RESOLUTION, Epistemic, "objective_deriver", ["handoff_contract"],
      ["deterministic realization resolution"])
  }

  function ContextObligation(u: ContextUnknown): Obligation
  {
    Fixed(CONTEXT_PREFIX + u.id, Epistemic, "context_compiler", ["handoff_contract"],
          ["resolution or governed disposition of " + u.reason])
  }

  function NoteObligation(index: nat, unknown: string): Obligation
  {
    Obligation(NOTE_PREFIX + Decimal(index), Epistemic, false, "objective_deriver", ["handoff_contract"],
               ["resolution or disposition of: " + unknown], Pending)
  }

  /** Material context unknowns, one required obligation each. */
  function FromContext(us: seq<ContextUnknown>): seq<Obligation>
  {
    if us == [] then []
    else FromContext(us[..|us| - 1]) + When(us[|us| - 1].blocking, ContextObligation(us[|us| - 1]))
  }

  const MODE_UNKNOWN := "realization_mode_UNKNOWN"

  /** Remaining unknowns, one note each, named by position. */
  function FromNotes(us: seq<string>): seq<Obligation>
  {
    if us == [] then []
    else FromNotes(us[..|us| - 1]) + When(us[|us| - 1] != MODE_UNKNOWN, NoteObligation(|us| - 1, us[|us| - 1]))
  }

  function Conditional(x: Inputs): seq<Obligation>
  {
    When(x.validationRequired, ValidationObligation())
    + When(x.deliveryRequired, DeliveryObligation(x))
    + When(x.accountabilityRequired || x.terminalAllowed, ConvergenceObligation(x))
    + When(x.materialityRequired, ArchitectureObligation(x))
    + When(x.realizationMode == "UNKNOWN", ResolutionObligation())
  }

  function Derived(x: Inputs): seq<Obligation>
  {
    Core(x) + Conditional(x) + FromContext(x.contextUnknowns) + FromNotes(x.intentUnknowns)
  }

  lemma InCore(x: Inputs, o: Obligation)
    ensures o in Core(x) <==>
      || o == Fixed(OBL_AUTHORITY, Authority, K01, ["execution_contract"], ["authority order respected with evidence"])
      || o == Fixed(OBL_RUNTIME_INTEGRITY, Validation, "validation_runtime", ["validation_contract"],
                    ["command run or blocker reason"])
      || o == Fixed(OBL_REALIZATION, Realization, TaskOwner(x.kernels), ["execution_graph"],
                    ["realization evidence for mode " + x.realizationMode])
  {
    hide TaskOwner;
    var core := Core(x);
    assert o in core <==> o == core[0] || o == core[1] || o == core[2];
  }

  lemma InConditional(x: Inputs, o: Obligation)
    ensures o in Conditional(x) <==>
      || (x.validationRequired && o == ValidationObligation())
      || (x.deliveryRequired && o == DeliveryObligation(x))
      || ((x.accountabilityRequired || x.terminalAllowed) && o == ConvergenceObligation(x))
      || (x.materialityRequired && o == ArchitectureObligation(x))
      || (x.realizationMode == "UNKNOWN" && o == ResolutionObligation())
  {
    hide ValidationObligation, DeliveryObligation, ConvergenceObligation, ArchitectureObligation,
      ResolutionObligation;
  }

  /** The obligations of fixed id, each under its own condition. */
  method DeriveFixed(x: Inputs) returns (os: seq<Obligation>)
    ensures os == Core(x) + Conditional(x)
  {
    hide Core, ValidationObligation, DeliveryObligation, ConvergenceObligation, ArchitectureObligation,
      ResolutionObligation;
    os := [];
    if x.validationRequired { os := os + [ValidationObligation()]; }
    ghost var v := When(x.validationRequired, ValidationObligation());
    assert os == v;
    if x.deliveryRequired { os := os + [DeliveryObligation(x)]; }
    ghost var vd := v + When(x.deliveryRequired, DeliveryObligation(x));
    assert os == vd;
    if x.accountabilityRequired || x.terminalAllowed { os := os + [ConvergenceObligation(x)]; }
    ghost var vdc := vd + When(x.accountabilityRequired || x.terminalAllowed, ConvergenceObligation(x));
    assert os == vdc;
    if x.materialityRequired { os := os + [ArchitectureObligation(x)]; }
    assert os == vdc + When(x.materialityRequired, ArchitectureObligation(x));
    if x.realizationMode == "UNKNOWN" { os := os + [ResolutionObligation()]; }
    os := Core(x) + os;
  }

  method DeriveFromContext(us: seq<ContextUnknown>) returns (os: seq<Obligation>)
    ensures os == FromContext(us)
  {
    os := [];
    for k := 0 to |us|
      invariant os == FromContext(us[..k])
    {
      assert us[..k + 1][..k] == us[..k];
      if !us[k].blocking { continue; }
      os := os + [ContextObligation(us[k])];
    }
    assert us[..|us|] == us;
  }

  method DeriveFromNotes(us: seq<string>) returns (os: seq<Obligation>)
    ensures os == FromNotes(us)
  {
    os := [];
    for k := 0 to |us|
      invariant os == FromNotes(us[..k])
    {
      assert us[..k + 1][..k] == us[..k];
      if us[k] == MODE_UNKNOWN { continue; }
      os := os + [NoteObligation(k, us[k])];
    }
    assert us[..|us|] == us;
  }

  /** `ObligationDeriver.derive`. */
  method Derive(x: Inputs) returns (os: seq<Obligation>)
    ensures os == Derived(x)
  {
    os := DeriveFixed(x);
    var context := DeriveFromContext(x.contextUnknowns);
    var notes := DeriveFromNotes(x.intentUnknowns);
    os := os + context + notes;
  }

  // ---- derived ids are distinct ------------------------------------------

  /** What tells the id families apart: the letters after the dots, and the length. */
  function Tag(id: string): nat
  {
    if |id| < 12 then 0
    else if id[4] == 'E' && |id| > 14 && id[14] == 'C' then 9
    else if id[4] == 'E' && |id| > 14 && id[14] == 'U' then 10
    else if id[4] == 'E' then 8
    else if id[4] == 'A' && id[5] == 'U' then 1
    else if id[4] == 'R' && id[5] == 'U' then 2
    else if id[4] == 'R' then 3
    else if id[4] == 'V' then 4
    else if id[4] == 'D' then 5
    else if id[4] == 'C' then 6
    else 7
  }

  lemma FixedTags()
    ensures Tag(OBL_AUTHORITY) == 1 && Tag(OBL_RUNTIME_INTEGRITY) == 2 && Tag(OBL_REALIZATION) == 3
    ensures Tag(OBL_VALIDATION) == 4 && Tag(OBL_DELIVERY) == 5 && Tag(OBL_CONVERGENCE) == 6
    ensures Tag(OBL_ARCHITECTURE) == 7 && Tag(OBL_RESOLUTION) == 8
  {
  }

  lemma FamilyTags(tail: string)
    ensures Tag(CONTEXT_PREFIX + tail) == 9 && Tag(NOTE_PREFIX + tail) == 10
  {
    assert (CONTEXT_PREFIX + tail)[4] == 'E' && (CONTEXT_PREFIX + tail)[14] == 'C';
    assert (NOTE_PREFIX + tail)[4] == 'E' && (NOTE_PREFIX + tail)[14] == 'U';
  }

  lemma {:induction false} DecimalInjective(m: nat, n: nat)
    requires Decimal(m) == Decimal(n)
    ensures m == n
  {
    var a, b := Decimal(m), Decimal(n);
    assert a[|a| - 1] == b[|b| - 1];
    if m >= 10 && n >= 10 {
      assert a[..|a| - 1] == Decimal(m / 10) && b[..|b| - 1] == Decimal(n / 10);
      DecimalInjective(m / 10, n / 10);
    }
  }

  ghost predicate TagsWithin(os: seq<Obligation>, low: nat, high: nat)
  {
    forall o | o in os :: low <= Tag(o.id) < high
  }

  lemma JoinDistinct(a: seq<Obligation>, b: seq<Obligation>, low: nat, mid: nat, high: nat)
    requires DistinctIds(a) && DistinctIds(b) && TagsWithin(a, low, mid) && TagsWithin(b, mid, high)
    requires low <= mid <= high
    ensures DistinctIds(a + b) && TagsWithin(a + b, low, high)
  {
    forall i, j | 0 <= i < j < |a + b| ensures (a + b)[i].id != (a + b)[j].id {
      assert i < |a| ==> (a + b)[i] in a;
      assert j >= |a| ==> (a + b)[j] in b;
    }
  }

  lemma WhenTagged(c: bool, o: Obligation, tag: nat)
    requires Tag(o.id) == tag
    ensures DistinctIds(When(c, o)) && TagsWithin(When(c, o), tag, tag + 1)
  {
  }

  lemma CoreDistinct(x: Inputs)
    ensures DistinctIds(Core(x)) && TagsWithin(Core(x), 1, 4)
  {
    FixedTags();
  }

  lemma ConditionalDistinct(x: Inputs)
    ensures DistinctIds(Conditional(x)) && TagsWithin(Conditional(x), 4, 9)
  {
    FixedTags();
    hide When, Tag, DistinctIds, TagsWithin;
    var v, d := When(x.validationRequired, ValidationObligation()), When(x.deliveryRequired, DeliveryObligation(x));
    var c := When(x.accountabilityRequired || x.terminalAllowed, ConvergenceObligation(x));
    var a, r := When(x.materialityRequired, ArchitectureObligation(x)),
      When(x.realizationMode == "UNKNOWN", ResolutionObligation());
    WhenTagged(x.validationRequired, ValidationObligation(), 4);
    WhenTagged(x.deliveryRequired, DeliveryObligation(x), 5);
    WhenTagged(x.accountabilityRequired || x.terminalAllowed, ConvergenceObligation(x), 6);
    WhenTagged(x.materialityRequired, ArchitectureObligation(x), 7);
    WhenTagged(x.realizationMode == "UNKNOWN", ResolutionObligation(), 8);
    JoinDistinct(v, d, 4, 5, 6);
    JoinDistinct(v + d, c, 4, 6, 7);
    JoinDistinct(v + d + c, a, 4, 7, 8);
    JoinDistinct(v + d + c + a, r, 4, 8, 9);
  }

  /** Blocking context unknowns have distinct ids. */
  ghost predicate BlockingDistinct(us: seq<ContextUnknown>)
  {
    forall i, j | 0 <= i < j < |us| && us[i].blocking && us[j].blocking :: us[i].id != us[j].id
  }

  lemma {:induction false} InFromContext(us: seq<ContextUnknown>, o: Obligation)
    ensures o in FromContext(us) <==> exists u :: u in us && u.blocking && o == ContextObligation(u)
  {
    if us != [] {
      var init, last := us[..|us| - 1], us[|us| - 1];
      assert us == init + [last];
      InFromContext(init, o);
    }
  }

  lemma ContextIdSame(a: string, b: string)
    ensures CONTEXT_PREFIX + a == CONTEXT_PREFIX + b ==> a == b
  {
    assert (CONTEXT_PREFIX + a)[|CONTEXT_PREFIX|..] == a && (CONTEXT_PREFIX + b)[|CONTEXT_PREFIX|..] == b;
  }

  lemma {:induction false} ContextDistinct(us: seq<ContextUnknown>)
    ensures DistinctIds(FromContext(us)) <==> BlockingDistinct(us)
    ensures TagsWithin(FromContext(us), 9, 10)
  {
    if us != [] {
      var init, last := us[..|us| - 1], us[|us| - 1];
      ContextDistinct(init);
      FamilyTags(last.id);
      FromContextStep(us);
      hide Tag, DistinctIds, BlockingDistinct, FromContext;
      if last.blocking { ContextStep(init, last, us); }
      else { SkipDistinct(init, last, us); }
    }
  }

  lemma FromContextStep(us: seq<ContextUnknown>)
    requires us != []
    ensures var init, last := us[..|us| - 1], us[|us| - 1];
      FromContext(us) == if last.blocking then FromContext(init) + [ContextObligation(last)] else FromContext(init)
  {
  }

  lemma SkipDistinct(init: seq<ContextUnknown>, last: ContextUnknown, us: seq<ContextUnknown>)
    requires us == init + [last] && !last.blocking
    ensures BlockingDistinct(us) <==> BlockingDistinct(init)
  {
    if BlockingDistinct(us) {
      forall i, j | 0 <= i < j < |init| && init[i].blocking && init[j].blocking ensures init[i].id != init[j].id {
        assert us[i] == init[i] && us[j] == init[j];
      }
    }
    if BlockingDistinct(init) {
      forall i, j | 0 <= i < j < |us| && us[i].blocking && us[j].blocking ensures us[i].id != us[j].id {
        assert us[i] == init[i] && us[j] == init[j];
      }
    }
  }

  lemma ContextStep(init: seq<ContextUnknown>, last: ContextUnknown, us: seq<ContextUnknown>)
    requires us == init + [last] && last.blocking
    requires DistinctIds(FromContext(init)) <==> BlockingDistinct(init)
    ensures DistinctIds(FromContext(init) + [ContextObligation(last)]) <==> BlockingDistinct(us)
  {
    var sofar, o := FromContext(init), ContextObligation(last);
    var longer := sofar + [o];
    if DistinctIds(longer) {
      forall i, j | 0 <= i < j < |sofar| ensures sofar[i].id != sofar[j].id { assert longer[i].id != longer[j].id; }
      forall i | 0 <= i < |init| && init[i].blocking ensures init[i].id != last.id {
        InFromContext(init, ContextObligation(init[i]));
        var k :| 0 <= k < |sofar| && sofar[k] == ContextObligation(init[i]);
        assert longer[k].id != longer[|sofar|].id;
      }
    }
    if BlockingDistinct(us) {
      forall i, j | 0 <= i < j < |init| && init[i].blocking && init[j].blocking ensures init[i].id != init[j].id {
        assert us[i].id != us[j].id;
      }
      forall k | 0 <= k < |sofar| ensures sofar[k].id != o.id {
        InFromContext(init, sofar[k]);
        var u :| u in init && u.blocking && sofar[k] == ContextObligation(u);
        var i :| 0 <= i < |init| && init[i] == u;
        assert us[i].id != us[|init|].id;
        ContextIdSame(u.id, last.id);
      }
    }
  }

  lemma {:induction false} InFromNotes(us: seq<string>, o: Obligation)
    ensures o in FromNotes(us) <==> exists k :: 0 <= k < |us| && us[k] != MODE_UNKNOWN && o == NoteObligation(k, us[k])
  {
    if us != [] {
      var init := us[..|us| - 1];
      InFromNotes(init, o);
      if o in FromNotes(init) {
        var k :| 0 <= k < |init| && init[k] != MODE_UNKNOWN && o == NoteObligation(k, init[k]);
        assert us[k] == init[k];
      }
      if k :| 0 <= k < |us| && us[k] != MODE_UNKNOWN && o == NoteObligation(k, us[k]) {
        if k < |init| { assert init[k] == us[k]; }
      }
    }
  }

  lemma NoteIdSame(a: nat, b: nat)
    ensures NOTE_PREFIX + Decimal(a) == NOTE_PREFIX + Decimal(b) ==> a == b
  {
    if NOTE_PREFIX + Decimal(a) == NOTE_PREFIX + Decimal(b) {
      assert (NOTE_PREFIX + Decimal(a))[|NOTE_PREFIX|..] == Decimal(a);
      assert (NOTE_PREFIX + Decimal(b))[|NOTE_PREFIX|..] == Decimal(b);
      DecimalInjective(a, b);
    }
  }

  lemma {:induction false} NotesDistinct(us: seq<string>)
    ensures DistinctIds(FromNotes(us)) && TagsWithin(FromNotes(us), 10, 11)
  {
    if us != [] {
      var init, last := us[..|us| - 1], us[|us| - 1];
      NotesDistinct(init);
      FamilyTags(Decimal(|init|));
      forall o | o in FromNotes(init) ensures o.id != NoteObligation(|init|, last).id {
        InFromNotes(init, o);
        var k :| 0 <= k < |init| && init[k] != MODE_UNKNOWN && o == NoteObligation(k, init[k]);
        NoteIdSame(k, |init|);
      }
    }
  }

  /** Derivation never repeats an id, except for a material context unknown recorded twice. */
  lemma DerivedDistinct(x: Inputs)
    ensures DistinctIds(Derived(x)) <==> BlockingDistinct(x.contextUnknowns)
  {
    hide Tag, Conditional, Core, FromContext, FromNotes;
    var context, notes := FromContext(x.contextUnknowns), FromNotes(x.intentUnknowns);
    CoreDistinct(x);
    ConditionalDistinct(x);
    ContextDistinct(x.contextUnknowns);
    NotesDistinct(x.intentUnknowns);
    var fixed := Core(x) + Conditional(x);
    JoinDistinct(Core(x), Conditional(x), 1, 4, 9);
    if DistinctIds(context) {
      JoinDistinct(fixed, context, 1, 9, 10);
      JoinDistinct(fixed + context, notes, 1, 10, 11);
    }
    if DistinctIds(Derived(x)) {
      forall i, j | 0 <= i < j < |context| ensures context[i].id != context[j].id {
        assert Derived(x)[|fixed| + i] == context[i] && Derived(x)[|fixed| + j] == context[j];
      }
    }
  }

  // ---- which obligations are derived -------------------------------------

  lemma InWhen(c: bool, o: Obligation, id: string)
    ensures id in IdSet(When(c, o)) <==> c && id == o.id
  {
  }

  lemma IdsJoin(a: seq<Obligation>, b: seq<Obligation>)
    ensures IdSet(a + b) == IdSet(a) + IdSet(b)
  {
  }

  lemma ConditionalIds(x: Inputs, id: string)
    ensures id in IdSet(Conditional(x)) <==>
      || (x.validationRequired && id == OBL_VALIDATION) || (x.deliveryRequired && id == OBL_DELIVERY)
      || ((x.accountabilityRequired || x.terminalAllowed) && id == OBL_CONVERGENCE)
      || (x.materialityRequired && id == OBL_ARCHITECTURE) || (x.realizationMode == "UNKNOWN" && id == OBL_RESOLUTION)
  {
    hide When, IdSet;
    var v, d := When(x.validationRequired, ValidationObligation()), When(x.deliveryRequired, DeliveryObligation(x));
    var c := When(x.accountabilityRequired || x.terminalAllowed, ConvergenceObligation(x));
    var a, r := When(x.materialityRequired, ArchitectureObligation(x)),
      When(x.realizationMode == "UNKNOWN", ResolutionObligation());
    InWhen(x.validationRequired, ValidationObligation(), id);
    InWhen(x.deliveryRequired, DeliveryObligation(x), id);
    InWhen(x.accountabilityRequired || x.terminalAllowed, ConvergenceObligation(x), id);
    InWhen(x.materialityRequired, ArchitectureObligation(x), id);
    InWhen(x.realizationMode == "UNKNOWN", ResolutionObligation(), id);
    IdsJoin(v, d);
    IdsJoin(v + d, c);
    IdsJoin(v + d + c, a);
    IdsJoin(v + d + c + a, r);
  }

  lemma OpenIds(x: Inputs, id: string)
    requires Tag(id) < 9
    ensures id !in IdSet(FromContext(x.contextUnknowns)) && id !in IdSet(FromNotes(x.intentUnknowns))
  {
    ContextDistinct(x.contextUnknowns);
    NotesDistinct(x.intentUnknowns);
  }

  lemma CoreIds(x: Inputs)
    ensures IdSet(Core(x)) == {OBL_AUTHORITY, OBL_RUNTIME_INTEGRITY, OBL_REALIZATION}
  {
    var os := Core(x);
    assert os[0] in os && os[1] in os && os[2] in os;
  }

  /** Each fixed obligation is derived exactly under its own condition. */
  lemma DerivesExactly(x: Inputs)
    ensures {OBL_AUTHORITY, OBL_RUNTIME_INTEGRITY, OBL_REALIZATION} <= IdSet(Derived(x))
    ensures OBL_VALIDATION in IdSet(Derived(x)) <==> x.validationRequired
    ensures OBL_DELIVERY in IdSet(Derived(x)) <==> x.deliveryRequired
    ensures OBL_CONVERGENCE in IdSet(Derived(x)) <==> x.accountabilityRequired || x.terminalAllowed
    ensures OBL_ARCHITECTURE in IdSet(Derived(x)) <==> x.materialityRequired
    ensures OBL_RESOLUTION in IdSet(Derived(x)) <==> x.realizationMode == "UNKNOWN"
  {
    FixedTags();
    hide Tag, IdSet, Core, Conditional, FromContext, FromNotes;
    IdsJoin(Core(x), Conditional(x));
    IdsJoin(Core(x) + Conditional(x), FromContext(x.contextUnknowns));
    IdsJoin(Core(x) + Conditional(x) + FromContext(x.contextUnknowns), FromNotes(x.intentUnknowns));
    CoreIds(x);
    forall id | id in {OBL_VALIDATION, OBL_DELIVERY, OBL_CONVERGENCE, OBL_ARCHITECTURE, OBL_RESOLUTION}
      ensures id in IdSet(Derived(x)) <==> id in IdSet(Core(x)) || id in IdSet(Conditional(x)) {
      OpenIds(x, id);
    }
    ConditionalIds(x, OBL_VALIDATION);
    ConditionalIds(x, OBL_DELIVERY);
    ConditionalIds(x, OBL_CONVERGENCE);
    ConditionalIds(x, OBL_ARCHITECTURE);
    ConditionalIds(x, OBL_RESOLUTION);
  }
}
