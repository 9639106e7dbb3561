# Verification of the cognitive runtime's context compiler

A Dafny model of the deterministic context compiler and of what is built on it,
with machine-checked proofs. Five components are modelled.

1. **Context selection and closure.** Candidate claims are resolved for each
   requirement (supersession graph, authority gate, cycles, deduplication,
   same-key groups), then a greedy selector fills an ordered plan over one shared,
   mutable selection under per-requirement and global ceilings, recording a witness
   whenever a ceiling stops it. The closure validator receives only the finished
   context, resolves everything again, and rebuilds the selector's state at each
   stop. The main result, `ClosureAgreement.ClosureAccountsForCompiled`, is that the
   two agree on every input about dispositions, bindings, conflicts, memory, budgets,
   coverage and unknowns. Two more checks look at the claims themselves and can
   reject a compile: `ClosureVerdict.VerdictIff` says for which runs, and
   `HarmlessPlans.NeverRejectedIff` for which plans.
   `ClosureSoundness.AcceptedIsSound` says what acceptance is worth for a context
   nobody compiled, `ClosureLimits` and `PrefixLimits` what it is not. `PlannedCompile`
   composes discovery, planning, compilation and closure.
2. **Execution graph.** Two topological sorts, the graph validator, and the graph
   derived from a contract's steps.
3. **Run store.** The bounded store with expiry, recency and a fairness rule, as a
   class over its own map and list, with laws over all sequences of calls.
4. **Obligations, activation, execution.** Derivation, the guards at every hop,
   conservation through chains of any length, phase and kernel planning, and the
   placement of obligations on steps.
5. **Template rendering.** The one-pass placeholder scan and its splice.

Code that changes state step by step is modelled by methods and classes proved
against functions and predicates over sets and sequences; the laws are proved of
those. The modules named `...Laws` say what each component means from its inputs and
outputs alone: `SupersessionLaws`, `ViewLaws`, `ShortfallLaws`, `ClosureLaws`,
`PlannerLaws`, `ActivationLaws`, `ExecutionLaws`, `RunStoreLaws`, and `GraphOrder`. `Base.dfy` and `Reachability.dfy` hold the shared vocabulary.

## Modelling decisions

- Identities derived by hashing (items, unknowns, requirements) are injective. An
  item's identity leaves out its authority level, as the recipe at
  `src/l9_cognitive_runtime/models/context.py:302-333` does: two copies of one
  identity agree on everything but level and serialised cost (`WellIdentified`).
  An unknown is compared by everything but its materiality and its sources.
- The semantic key of a law, decision or capability fact is its domain identifier, as its
  constructor enforces. Ids and keys are non-empty.
- `canonical_cost` is a natural-number field. Strings are compared by code point.
- Constructor constraints of items, requirements and plans are type invariants.
- Scope, discovery, capability, authority and decision-status unknowns enter a
  compile as a list of unknowns bound to no requirement.
- The clock, the fresh run id, the matched route and the phrase tests on the
  mission are inputs. Times are reals.
- A key error (missing endpoint in the dependency resolver) and an index error
  (execution compile of an empty phase sequence) are error results.

## What is false, and exactly when

- *Input order is never precedence.* It can be, but only for laws and decisions,
  and only where copies of one identity at different authority disagree about an
  edge some claim proposes. `OrderMatters.EdgesIgnoreOrderIff` is the exact
  condition at the authority gate, `SurvivorOrder.OrderNeverDecidesIff` for cycles
  and survivors of a whole kind, `OrderMatters.SurvivalIgnoresOrderIff` for one
  claim with one rival, and `ResolutionLaws.IndexIgnoresOrderIff` for the index
  alone. `OrderMatters.OrderDecidesAmongCandidates` is the failing family.
- *Normalising a snapshot forgets its order.* The sort is stable and a snapshot may
  list copies of one identity, whose order it keeps:
  `SnapshotOrder.SnapshotForgetsOrderIff` is exact, and
  `SnapshotOrder.SnapshotOrderDecides` carries the failing family above through it.
- *Closure accepts every compile.* Check 2 rejects unverified repository state and
  check 8 a capability that is both available and unavailable.
  `ClosureVerdict.VerdictIff` is exact for a run, `HarmlessPlans.NeverRejectedIff`
  for a plan without BLOCK requirements and any least cost of an item, and
  `RequirementPlanner.PlanIsHarmlessIff` for the kernel needs behind a plan: a need
  that selects repository state at the unverified floor, or capability facts under a
  scoped task next to the global baseline requirement, lets closure reject. A BLOCK
  requirement can protect a plan that would be rejected without it
  (`HarmlessPlans.BlockingProtects`).
- *Closure forces a prefix of the frontier.* Checks 9 and 10 together force one
  under a condition of each mode's own, whatever earlier requirements hold:
  `PrefixLimits.AllEligibleForcesPrefixIff`, `PrefixLimits.SemanticKeysForcePrefixIff`
  and `PrefixLimits.MinimumForcesPrefixIff`. For a plan of one requirement these are
  exact for all modelled checks (`SolePlan.ClosureForcesPrefixIff`).
  `ClosureLimits.PassesIff` says exactly which selections check 10 alone passes.
- *A wider view keeps what a narrower one settled.* Not for laws whose precedence a
  weaker law undercuts or does not declare, nor for differing coordinates:
  `ResolutionLaws.WiderViewKeepsIff`, with an input in
  `ResolutionLaws.WeakerLawReopens`.
- *With no matching route the default is taken.* The first listed route is
  (`Activation.MatchRoute`).
- *The packet's set checks accept a conserved list.* They reject a required
  obligation that has been disposed (`ObligationGuards.PacketSetsAgreeIff`).

## Model

| member | source | states |
|---|---|---|
| `Reachability.ReachableSet` | src/l9_cognitive_runtime/compiler/task_context.py:301-311 | the work-list search terminates and returns exactly the nodes one or more edges away |
| `Reachability.AllReach` | src/l9_cognitive_runtime/compiler/task_context.py:322 | one reachable set for every node that has edges |
| `Reachability.NodesOnCycle` | src/l9_cognitive_runtime/compiler/task_context.py:323 | exactly the nodes that reach themselves, in ascending order |
| `Reachability.ComponentOf` | src/l9_cognitive_runtime/compiler/task_context.py:329 | the component of a node on a cycle: exactly the nodes mutually reachable with it, in ascending order |
| `Reachability.CycleComponents` | src/l9_cognitive_runtime/compiler/task_context.py:314-332 | exactly the strongly connected components that hold a cycle: non-empty, disjoint, covering every node on a cycle, each ascending and smallest member first |
| `Supersession.SupersessionIndex` | src/l9_cognitive_runtime/compiler/task_context.py:260-272 | members by domain identifier, and by identity with the last copy kept |
| `Supersession.ExpandRefNames` | src/l9_cognitive_runtime/compiler/task_context.py:275-298 | a reference names that claim, or every other claim of that domain, never its own referrer or its own domain; it dangles exactly when it names nothing |
| `Supersession.ProposeFor` | src/l9_cognitive_runtime/compiler/task_context.py:392-409 | one claim proposes exactly the edges its two reference lists name, superseder first, and loses exactly the dangling references |
| `Supersession.ProposeEdges` | src/l9_cognitive_runtime/compiler/task_context.py:387-409 | the proposed edges and the dangling references of the whole kind |
| `Supersession.GateEdges` | src/l9_cognitive_runtime/compiler/task_context.py:411-418 | an edge is accepted exactly when the superseder is at least as strong; every other one is refused |
| `Supersession.SupersessionGraph` | src/l9_cognitive_runtime/compiler/task_context.py:392-424 | accepted edges, refused edges, dangling references and the cycle components of the accepted graph |
| `Supersession.CycleUnknowns` | src/l9_cognitive_runtime/compiler/task_context.py:433-459 | one unknown for each cycle and each identifier it touches, carrying the whole cycle |
| `Supersession.EdgeUnknowns` | src/l9_cognitive_runtime/compiler/task_context.py:460-485 | one unknown for each refused edge and each dangling reference |
| `Supersession.ResolveSupersession` | src/l9_cognitive_runtime/compiler/task_context.py:374-497 | survivors are, in order, the claims on no cycle, not marked superseded and retired by no claim off every cycle; the unknowns are exactly the reported ones |
| `Supersession.PathDescends` | src/l9_cognitive_runtime/compiler/task_context.py:411-424 | along any path of accepted edges authority never rises |
| `Supersession.CycleSharesAuthority` | src/l9_cognitive_runtime/compiler/task_context.py:357-371 | after the gate a cycle has one authority level, so any governed member means all are |
| `Supersession.WalkBack` | src/l9_cognitive_runtime/compiler/task_context.py:425-430 | walking back from a retired claim never repeats a claim and ends at one that is on no cycle and not retired |
| `Supersession.NothingVanishesUnexplained` | src/l9_cognitive_runtime/compiler/task_context.py:411-430 | a claim that does not survive is on a cycle, marked superseded, or reached off-cycle from one of at least equal authority that survives or is itself marked |
| `Supersession.LawsKeepASurvivor` | src/l9_cognitive_runtime/compiler/task_context.py:487-497 | without cycles a non-empty set of laws keeps a survivor |
| `SupersessionLaws.ProposesIff` | src/l9_cognitive_runtime/compiler/task_context.py:392-409 | an edge is proposed exactly where one claim says so: it lists the other, by identity or by a domain not its own, among those it supersedes, or is listed by it as superseding |
| `SupersessionLaws.AcceptsIff` | src/l9_cognitive_runtime/compiler/task_context.py:411-418 | an edge passes the gate exactly where the one claim overrides the other: says so and is at least as strong |
| `SupersessionLaws.SurvivesIff` | src/l9_cognitive_runtime/compiler/task_context.py:487-497 | the meaning of survival, from the claims alone: not marked superseded, in no loop of overrides, and overridden by claims in loops only |
| `SupersessionLaws.LoopFreeVerdicts` | src/l9_cognitive_runtime/compiler/task_context.py:403-430 | without loops: a decision that lists a claim at least as strong in its superseded_by does not survive; a claim another supersedes does not unless it is stronger; a claim nobody overrides survives unless marked |
| `SupersessionLaws.ReportsIff` | src/l9_cognitive_runtime/compiler/task_context.py:433-485 | exactly what is reported: one unknown for each loop and domain in it, blocking when a member is governed, one for each weaker claim that names a stronger, one for each reference that names nothing |
| `Resolution.Representative` | src/l9_cognitive_runtime/compiler/task_context.py:170-185 | the carrier below every other in the fixed order, whatever the list order |
| `Resolution.RepOrder` | src/l9_cognitive_runtime/compiler/task_context.py:176-185 | the carrier order is strict and total on identified items |
| `Resolution.ApplySupersession` | src/l9_cognitive_runtime/compiler/task_context.py:500-518 | survivors and reports of every kind, kinds without supersession kept whole |
| `Resolution.RepsOf` | src/l9_cognitive_runtime/compiler/task_context.py:605-611 | one representative for each distinct claim at each applicability |
| `Resolution.GroupByKey` | src/l9_cognitive_runtime/compiler/task_context.py:600-602 | survivors grouped by kind and semantic key |
| `Resolution.ResolveCandidates` | src/l9_cognitive_runtime/compiler/task_context.py:592-615 | groups, one per key with a survivor, each resolved by its kind; unknowns exactly those of supersession; both stated over the set of candidates |
| `ViewLaws.EligibleIff` | src/l9_cognitive_runtime/compiler/task_context.py:708-739 | a requirement sees exactly the candidates of its kind, at or above its floor, governed where the kind demands it, in its scope or global where the kind allows it, and at its revision |
| `ViewLaws.CarrierIff` | src/l9_cognitive_runtime/compiler/task_context.py:170-185 | the carrier of a claim is the copy preferred over every other: stronger, then with a coordinate, then lower coordinate, digest and identity |
| `ViewLaws.MemberIff` | src/l9_cognitive_runtime/compiler/task_context.py:500-602 | a group holds the candidates of its kind and key, laws and decisions only while they survive |
| `ViewLaws.OfferIff` | src/l9_cognitive_runtime/compiler/task_context.py:592-615 | a view offers exactly the claims the rule of their kind settles on |
| `ViewLaws.ConflictIff` | src/l9_cognitive_runtime/compiler/task_context.py:592-615 | a key is in conflict exactly when claims stand under it and none prevails |
| `ViewLaws.ConflictSays` | src/l9_cognitive_runtime/compiler/task_context.py:526-574 | a conflict names the revisions, the versions, or the shared level and the number of claims that tie at it |
| `ResolutionLaws.AuthorityPicks` | src/l9_cognitive_runtime/compiler/task_context.py:565-574 | a group settles by authority on a claim exactly when it is the unique strongest; otherwise it conflicts |
| `ResolutionLaws.LawSettlesOn` | src/l9_cognitive_runtime/compiler/task_context.py:577-589 | laws settle on the precedence winner when all declare one, else on the unique strongest, in both directions |
| `ResolutionLaws.WeakerLawReopens` | src/l9_cognitive_runtime/compiler/task_context.py:583-589 | a weaker law without precedence turns a settled group into a conflict: a wider view can reopen what a narrower one settled |
| `ResolutionLaws.GroupSettlesOn` | src/l9_cognitive_runtime/compiler/task_context.py:526-615 | every kind, both directions: a group offers a claim exactly when its rule settles on it: enrichment keeps all, laws by precedence then authority, revisions and versions must agree, and otherwise the unique strongest |
| `ResolutionLaws.SettlesAlone` | src/l9_cognitive_runtime/compiler/task_context.py:526-589 | outside evidence and memory a settled group offers one claim |
| `ResolutionLaws.WiderViewKeepsIff` | src/l9_cognitive_runtime/compiler/task_context.py:526-589 | of a claim a view settled on, exactly when a view with a weaker floor settles on it too |
| `OrderMatters.EdgesIgnoreOrderIff` | src/l9_cognitive_runtime/compiler/task_context.py:411-418 | exact condition at the gate: the accepted edges are the same in every order exactly when all copies of the endpoints of every proposed edge give the same verdict |
| `OrderMatters.InputOrderIsNotPrecedence` | src/l9_cognitive_runtime/compiler/task_context.py:374-615 | where that holds of laws and of decisions, any permutation of the candidates yields the same groups, and the same unknowns when refused edges have one copy of each endpoint; copies of the other kinds never matter |
| `OrderMatters.DistinctSupersedersIgnoreOrder` | src/l9_cognitive_runtime/compiler/task_context.py:374-615 | with one copy of each law and of each decision, any permutation yields the same groups and unknowns |
| `OrderMatters.SurvivalIgnoresOrderIff` | src/l9_cognitive_runtime/compiler/task_context.py:411-430 | for a claim with one rival, in a list of any length: survival is the same in every order exactly when all copies of the two give the same verdict |
| `OrderMatters.OrderDecidesAmongCandidates` | src/l9_cognitive_runtime/compiler/task_context.py:500-518 | in any candidate list where those copies disagree, one order keeps the claim and another retires it |
| `OrderMatters.ThreeLawsSuffice` | src/l9_cognitive_runtime/compiler/task_context.py:260-272 | a concrete family: a law, a weaker copy of it and a rival ranked between them |
| `SnapshotOrder.SnapshotForgetsOrderIff` | src/l9_cognitive_runtime/compiler/task_context.py:618-626 | normalising a snapshot forgets the order it was supplied in exactly when no two of its items share an identity and differ |
| `SnapshotOrder.SortKeepsIndex` | src/l9_cognitive_runtime/compiler/task_context.py:260-272 | normalising hands the order of copies on: the identity index keeps the copy it would have kept |
| `SnapshotOrder.SnapshotEdgesIgnoreOrderIff` | src/l9_cognitive_runtime/compiler/task_context.py:411-418 | the exact condition at the gate holds of the normalised snapshot as well |
| `SnapshotOrder.SnapshotOrderDecides` | src/l9_cognitive_runtime/compiler/task_context.py:618-626 | where copies disagree about a claim's one rival, two orders of one snapshot normalise into one that keeps the claim and one that retires it |
| `SurvivorOrder.ChoiceHasOrder` | src/l9_cognitive_runtime/compiler/task_context.py:260-272 | any choice of one copy for each identity is what the index keeps of some order |
| `SurvivorOrder.NeverCyclicIff` | src/l9_cognitive_runtime/compiler/task_context.py:314-332 | no order makes a cycle exactly when, at no authority rank, the proposals between identities with a copy of that rank form one |
| `SurvivorOrder.OrderNeverDecidesIff` | src/l9_cognitive_runtime/compiler/task_context.py:411-430 | the claims of a whole kind: every order is free of cycles and keeps the same claims exactly when that holds and each claim not marked superseded has a proposal against it that every two copies let pass, or none that any two do |
| `SurvivorOrder.SnapshotNeverDecidesIff` | src/l9_cognitive_runtime/compiler/task_context.py:618-626 | the same condition is exact for the normalised snapshot |
| `ResolutionLaws.IndexIgnoresOrderIff` | src/l9_cognitive_runtime/compiler/task_context.py:260-272 | the identity index ignores order exactly when no two candidates share an identity and differ |
| `ResolutionLaws.SameCarrierEverywhere` | src/l9_cognitive_runtime/models/context.py:302-333 | an identity offered by two requirements' views is the same carrier in both |
| `ResolutionLaws.ViewItemsDistinct` | src/l9_cognitive_runtime/compiler/task_context.py:592-615 | a resolved view offers no item and no identity twice |
| `Selection.SharedSelection.constructor` | src/l9_cognitive_runtime/compiler/task_context.py:775-782 | a new selection is empty under the plan's budget |
| `Selection.SharedSelection.WouldExceedGlobal` | src/l9_cognitive_runtime/compiler/task_context.py:784-790 | true exactly when the item is new and would break a global ceiling |
| `Selection.SharedSelection.Admit` | src/l9_cognitive_runtime/compiler/task_context.py:792-796 | the whole new state: item and cost once, reason added |
| `Selection.FirstBound` | src/l9_cognitive_runtime/compiler/task_context.py:940-977 | the first ceiling the next candidate breaks, in checking order, with what was observed |
| `Selection.Fill` | src/l9_cognitive_runtime/compiler/task_context.py:924-981 | the greedy pass equals taking a prefix of the frontier, with its keys and the stop that ended it |
| `Selection.FrontierStep` | src/l9_cognitive_runtime/compiler/context_closure.py:501-517 | what one more scanned candidate adds to the frontier under each coverage mode |
| `Selection.SameFrontier` | src/l9_cognitive_runtime/compiler/task_context.py:742-748 | the canonical frontier does not depend on the order of the groups or on which resolution produced them |
| `Selection.SplitGroups` | src/l9_cognitive_runtime/compiler/task_context.py:897-901 | offered items and conflicting groups, in order |
| `Selection.ConflictUnknowns` | src/l9_cognitive_runtime/compiler/task_context.py:905-922 | each conflict becomes an unknown bound to the requirement, and its key is disposed |
| `Selection.Dispose` | src/l9_cognitive_runtime/compiler/task_context.py:1019-1073 | BLOCK fails; OPTIONAL records nothing unless truncated; otherwise one shortfall with its witness and missing keys |
| `Selection.SelectFrom` | src/l9_cognitive_runtime/compiler/task_context.py:875-997 | one requirement: the state it leaves, when it blocks, and exactly the unknowns it records |
| `ShortfallLaws.MetIff` | src/l9_cognitive_runtime/compiler/task_context.py:999-1017 | a requirement is met exactly when it does not fall short: fewer than its minimum, a required key neither got nor in conflict, or, all eligible, something on offer left |
| `ShortfallLaws.ShortfallIff` | src/l9_cognitive_runtime/compiler/task_context.py:983-1073 | a finished context records a shortfall of a requirement exactly when it falls short, for an OPTIONAL one only when it was also cut short; a BLOCK one never falls short |
| `ShortfallLaws.ShortfallSays` | src/l9_cognitive_runtime/compiler/task_context.py:1019-1080 | the one shortfall of a requirement: insufficient budget exactly when cut short, blocking exactly when required, with the keys got and the keys missing |
| `ShortfallLaws.BlockedFallsShort` | src/l9_cognitive_runtime/compiler/task_context.py:1054-1059 | a compile stops only at a BLOCK requirement that falls short on what it could get |
| `ShortfallLaws.NothingBlockedIff` | src/l9_cognitive_runtime/compiler/task_context.py:1054-1059 | nothing is blocked exactly when no BLOCK requirement of the run falls short |
| `ShortfallLaws.ConflictRecordedIff` | src/l9_cognitive_runtime/compiler/task_context.py:905-922 | a conflict is recorded to a requirement exactly when its own view has it, blocking exactly when it is required, with the reason the group gives |
| `ShortfallLaws.GotComesFirst` | src/l9_cognitive_runtime/compiler/task_context.py:742-748 | what a requirement got comes before all it would have taken and did not get: scoped, stronger, lower key, lower identity |
| `ContextCompiler.RunPlan` | src/l9_cognitive_runtime/compiler/task_context.py:824-825 | the plan in order over one selection is a run of the requirements; it stops only at a BLOCK requirement unmet on its own view, everything before being met |
| `ContextCompiler.DedupeUnknowns` | src/l9_cognitive_runtime/compiler/task_context.py:1104-1106 | each identity collected is kept exactly once, as its last occurrence, nothing else is kept and nothing is listed twice |
| `ContextCompiler.ListSelection` | src/l9_cognitive_runtime/compiler/task_context.py:827-831 | the selected items, each identity once, with its reasons, in the order of kind, key and identity |
| `ViewLaws.SortKeyIff` | src/l9_cognitive_runtime/compiler/task_context.py:827-831 | the order of the finished context: by kind, then key, then identity, each by code point |
| `ContextCompiler.Compile` | src/l9_cognitive_runtime/compiler/task_context.py:807-873 | a finished compile of a run, or the blocking requirement that stopped it |
| `ContextCompiler.TraceKeys` | src/l9_cognitive_runtime/compiler/task_context.py:792-796 | items and reasons always have the same keys, and an item sits under its own identity |
| `SelectionLaws.History` | src/l9_cognitive_runtime/compiler/task_context.py:792-796 | at any point of a run the selection is exactly what the requirements so far took, with exactly their ids as reasons |
| `SelectionLaws.OneCarrier` | src/l9_cognitive_runtime/compiler/task_context.py:792-796 | an identity offered anywhere in a run has one carrier |
| `SelectionLaws.TallyTrace` | src/l9_cognitive_runtime/compiler/task_context.py:792-796 | the total is the cost of the distinct items: a reused item is paid once |
| `SelectionLaws.TakesLongestPrefixThatFits` | src/l9_cognitive_runtime/compiler/task_context.py:929-981 | what is taken is the longest prefix of the frontier that keeps every ceiling |
| `SelectionLaws.RunKeepsCeilings` | src/l9_cognitive_runtime/compiler/task_context.py:940-977 | after every requirement the global and its own ceilings hold |
| `SelectionLaws.TakesScopedAndStrongerFirst` | src/l9_cognitive_runtime/compiler/task_context.py:742-748 | the frontier lists scoped before global and stronger before weaker, and what is taken is a prefix of it |
| `Closure.EligibleFrontier` | src/l9_cognitive_runtime/compiler/context_closure.py:497-517 | the recomputed frontier equals the one the selector scans |
| `Closure.BudgetStopProven` | src/l9_cognitive_runtime/compiler/context_closure.py:527-610 | exactly the verdict of the reconstructed witness |
| `Closure.ConflictDisposedKeys` | src/l9_cognitive_runtime/compiler/context_closure.py:442-467 | exactly the conflict keys bound to the requirement that its own view confirms |
| `Closure.ShortfallDispositions` | src/l9_cognitive_runtime/compiler/context_closure.py:470-484 | exactly the requirements with a recorded shortfall and the keys it names |
| `Closure.CoverageBreaches` | src/l9_cognitive_runtime/compiler/context_closure.py:613-637 | exactly the coverage breaches of the requirements, so none exactly when every requirement's coverage is clean |
| `Closure.BudgetBreaches` | src/l9_cognitive_runtime/compiler/context_closure.py:719-745 | exactly the budget breaches of the requirements, so none exactly when every requirement's budgets are clean |
| `ClosureValidator.Validate` | src/l9_cognitive_runtime/compiler/context_closure.py:129-366 | over the nine modelled checks (all but 3 and 5, and of check 8 its contradiction test): accepts exactly the contexts that are answered, sourced, bound, tell every conflict, keep memory apart, contradict nothing, keep the limits, cover and bind their unknowns; otherwise names the first of these that fails |
| `ClosureLaws.ChecksMean` | src/l9_cognitive_runtime/compiler/context_closure.py:129-366 | each check, read off the context, the plan and the views: who is answered, what is sourced, which conflicts are told to which requirement, what is within limits and covered |
| `ClosureLaws.AnsweredIff` | src/l9_cognitive_runtime/compiler/context_closure.py:164-177 | check 1: a required requirement selected something, or an unknown bound to it reports a shortfall or a conflict |
| `ClosureLaws.ToldIff` | src/l9_cognitive_runtime/compiler/context_closure.py:242-260 | check 6: for every requirement, each key in conflict in its view is the key of a conflict unknown bound to it |
| `ClosureLaws.WithinLimitsIff` | src/l9_cognitive_runtime/compiler/context_closure.py:748-799 | check 9 for one requirement: its ceilings, and where required its floor, counting reported conflicts, and its keys, or their recorded shortfall |
| `ClosureLaws.CoversIff` | src/l9_cognitive_runtime/compiler/context_closure.py:640-716 | check 10 for one requirement: only what is on offer, no more than the mode asks, and all it asks or a proven stop |
| `ClosureValidator.Ladder` | src/l9_cognitive_runtime/compiler/context_closure.py:139-142 | checks run in order and stop at the first failure |
| `ClosureAgreement.BoundIsTaken` | src/l9_cognitive_runtime/compiler/context_closure.py:550-554 | the finished context binds to a requirement exactly what that requirement admitted |
| `ClosureAgreement.RebuiltIsTheSelection` | src/l9_cognitive_runtime/compiler/context_closure.py:581-594 | history reconstruction: items bound to earlier requirements plus its own equal the selection at that point, in identity, number and cost, whatever came later |
| `ClosureAgreement.StopWitnessHolds` | src/l9_cognitive_runtime/compiler/context_closure.py:555-610 | every stop the selector records is one the validator can verify from the finished context |
| `ClosureAgreement.TruncationIsProven` | src/l9_cognitive_runtime/compiler/context_closure.py:527-610 | a truncated, unmet requirement's stop is proven from the finished context alone |
| `ClosureAgreement.DisposesItsConflicts` | src/l9_cognitive_runtime/compiler/context_closure.py:442-467 | a compile disposes exactly the conflict keys of the recomputed view |
| `ClosureAgreement.DispositionsAccepted` | src/l9_cognitive_runtime/compiler/context_closure.py:164-177 | check 1 accepts every compile |
| `ClosureAgreement.BindingsAccepted` | src/l9_cognitive_runtime/compiler/context_closure.py:218-230 | check 4 accepts every compile |
| `ClosureAgreement.ConflictsAccepted` | src/l9_cognitive_runtime/compiler/context_closure.py:242-260 | check 6 accepts every compile |
| `ClosureAgreement.MemoryAccepted` | src/l9_cognitive_runtime/compiler/context_closure.py:262-282 | check 7 accepts every compile |
| `ClosureAgreement.BudgetsAccepted` | src/l9_cognitive_runtime/compiler/context_closure.py:305-324 | check 9 accepts every compile |
| `ClosureAgreement.CoverageAccepted` | src/l9_cognitive_runtime/compiler/context_closure.py:640-716 | check 10 accepts every requirement of every compile |
| `ClosureAgreement.UnknownsAccepted` | src/l9_cognitive_runtime/compiler/context_closure.py:337-366 | check 11 accepts every compile |
| `ClosureAgreement.SelectedMatchesItsReasons` | src/l9_cognitive_runtime/compiler/task_context.py:708-739 | a selected item matches every requirement it is bound to, so authority and capability facts are selected only when governed |
| `ClosureAgreement.ClosureAccountsForCompiled` | src/l9_cognitive_runtime/compiler/context_closure.py:129-366 | main theorem: whatever the candidates and the plan, checks 1, 4, 6, 7, 9, 10 and 11 accept the context the selector finished with |
| `ClosureVerdict.VerdictIff` | src/l9_cognitive_runtime/compiler/context_closure.py:129-366 | closure accepts a compile in all nine modelled checks exactly when the run chose no unverified repository state and no capability both available and unavailable |
| `ClosureVerdict.RunsAgree` | src/l9_cognitive_runtime/compiler/task_context.py:824-997 | a plan and its candidates determine what is chosen: two runs end alike |
| `ClosureVerdict.BlockedHasNoRun` | src/l9_cognitive_runtime/compiler/task_context.py:1019-1040 | where one run was blocked, no run of the plan meets every BLOCK requirement |
| `ClosureVerdict.CompileThenValidate` | src/l9_cognitive_runtime/compiler/pipeline.py:316-333 | succeeds exactly when a run completes with an admissible choice; otherwise a BLOCK requirement was unmet, or closure rejects the one complete run in check 2 or 8, whichever fails first |
| `HarmlessPlans.NeverRejectedIff` | src/l9_cognitive_runtime/compiler/context_closure.py:179-193 | checks 2 and 8 against every candidate set whose items cost at least c each, for any c and any plan without a BLOCK requirement: closure can never reject a completed compile exactly when no requirement that affords such an item admits unverified repository state and no two such capability requirements may disagree, a condition on the plan alone |
| `HarmlessPlans.HarmlessNeverRejects` | src/l9_cognitive_runtime/compiler/context_closure.py:179-193 | in that direction for every plan: no completed compile of a harmless plan is rejected, BLOCK requirements or not |
| `HarmlessPlans.BlockingProtects` | src/l9_cognitive_runtime/compiler/task_context.py:1019-1040 | why BLOCK requirements are apart: one that must fill the only slot with another kind protects any plan, harmless or not, since closure only sees runs that met it |
| `HarmlessPlans.UnverifiedStateBreaks` | src/l9_cognitive_runtime/compiler/context_closure.py:187-193 | for any requirement that admits unverified repository state and any cost it affords, candidates of that cost whose compile completes and check 2 rejects |
| `HarmlessPlans.DisagreementBreaks` | src/l9_cognitive_runtime/compiler/context_closure.py:284-302 | for any two capability requirements that may disagree and any cost they afford, candidates of that cost whose compile completes and check 8 rejects |
| `HarmlessPlans.SettledIsStronger` | src/l9_cognitive_runtime/compiler/task_context.py:565-574 | a settled capability fact is strictly stronger than every other fact of its key the requirement sees |
| `ClosureSoundness.ProvenStopIsReal` | src/l9_cognitive_runtime/compiler/context_closure.py:527-610 | on any context, a proven stop means an eligible item was left and had no room |
| `ClosureSoundness.StopProvenIff` | src/l9_cognitive_runtime/compiler/context_closure.py:527-610 | a stop is proven exactly by the first budget unknown of the requirement whose witness tells truly which item was left first, which ceiling it breaks and what was held then |
| `ClosureSoundness.CoverageIsSound` | src/l9_cognitive_runtime/compiler/context_closure.py:640-716 | on any context, forged or not, clean coverage means only eligible items, no more than the mode asks, and anything missing was disposed as a confirmed conflict or really had no room |
| `ClosureSoundness.BudgetIsSound` | src/l9_cognitive_runtime/compiler/context_closure.py:748-799 | on any context, clean budgets mean the ceilings hold and a required floor is met or its shortfall recorded |
| `ClosureSoundness.AcceptedIsSound` | src/l9_cognitive_runtime/compiler/context_closure.py:129-366 | a context that closure accepts is sound for every requirement of its plan |
| `ClosureSoundness.NoRoomInTheEnd` | src/l9_cognitive_runtime/compiler/context_closure.py:573-610 | for a context that carries items faithfully, an item with no room breaks the requirement's own ceiling, cannot be added to the finished context, or is selected there and bound to no earlier requirement |
| `ClosureSoundness.SelectedLater` | src/l9_cognitive_runtime/compiler/context_closure.py:581-594 | such a selected item is bound only from this requirement on |
| `ClosureLimits.ResolvedIsDistinct` | src/l9_cognitive_runtime/compiler/task_context.py:592-615 | every resolved view offers each identity once, so the limits below hold of the views closure recomputes |
| `ClosureLimits.ResolvedKeysApart` | src/l9_cognitive_runtime/compiler/task_context.py:592-615 | over candidates of one requirement a key is offered or in conflict, never both |
| `ClosureLimits.StopProvableIff` | src/l9_cognitive_runtime/compiler/context_closure.py:527-610 | some unknowns prove a stop exactly when the first frontier item left has no room on top of what was taken before and by the requirement |
| `ClosureLimits.PassesIff` | src/l9_cognitive_runtime/compiler/context_closure.py:640-716 | every mode: a selection passes with some unknowns exactly when it took only eligible items, no more than the mode asks, and all it asks unless the first item left really has no room |
| `ClosureLimits.EverySubsetPasses` | src/l9_cognitive_runtime/compiler/context_closure.py:669-677 | all eligible, ceiling m below the frontier: every m of the eligible items pass with their witness |
| `ClosureLimits.UnstoppedTakesAll` | src/l9_cognitive_runtime/compiler/context_closure.py:669-677 | all eligible without a proven stop: everything is taken |
| `ClosureLimits.MinimumTakesAnyEnough` | src/l9_cognitive_runtime/compiler/context_closure.py:678-696 | minimum without a proven stop: exactly the sets of the expected size pass |
| `PrefixLimits.ForcesPrefixIff` | src/l9_cognitive_runtime/compiler/context_closure.py:640-799 | every mode, whatever earlier requirements hold: checks 9 and 10 force a prefix of the frontier exactly when every set of eligible items that fits the ceilings and meets the mode, or whose first item left has no room, is one |
| `PrefixLimits.PassablePasses` | src/l9_cognitive_runtime/compiler/context_closure.py:640-799 | each such set is taken by some context that passes both checks |
| `PrefixLimits.PassesIsPassable` | src/l9_cognitive_runtime/compiler/context_closure.py:640-799 | and a context that passes both takes such a set |
| `PrefixLimits.ResolvedIsSetting` | src/l9_cognitive_runtime/compiler/task_context.py:592-615 | every resolved view meets the assumptions of these statements |
| `PrefixLimits.AllEligibleForcesPrefixIff` | src/l9_cognitive_runtime/compiler/context_closure.py:669-677 | all eligible: checks 9 and 10 force a prefix exactly when no frontier item fits every ceiling alone yet not on top of all before it |
| `PrefixLimits.SemanticKeysForcePrefixIff` | src/l9_cognitive_runtime/compiler/context_closure.py:697-716 | semantic keys: exactly when, besides, no prefix that fits covers every key offered and one of them twice |
| `PrefixLimits.MinimumForcesPrefixIff` | src/l9_cognitive_runtime/compiler/context_closure.py:678-696 | minimum: exactly when, besides, no eligible item past the frontier fits where the frontier stops, and no other set of eligible items of the size asked for fits |
| `SolePlan.ClosureForcesPrefixIff` | src/l9_cognitive_runtime/compiler/context_closure.py:129-366 | for a plan of one requirement, every modelled check together: closure forces a prefix exactly when checks 9 and 10 do |
| `Discovery.Discover` | src/l9_cognitive_runtime/compiler/task_context.py:642-684 | routing ids and signals of exactly the resolved groups, every conflict an unknown |
| `Discovery.CandidateIff` | src/l9_cognitive_runtime/compiler/task_context.py:687-706 | only governed entities, repository state, constraints, laws and dependencies, global or in scope, may route |
| `Discovery.DiscoveryReports` | src/l9_cognitive_runtime/compiler/task_context.py:642-684 | discovery routes exactly by the claims on offer among those, signals are its constraints, and each conflict is an unknown that blocks nothing |
| `Discovery.ConstraintGroupPicks` | src/l9_cognitive_runtime/compiler/task_context.py:565-574 | a constraint group settles on a claim exactly when it is the unique strongest representative |
| `Discovery.SignalIsOffered` | src/l9_cognitive_runtime/compiler/task_context.py:693-705 | the item discovery settled on is the item the wider architecture view settles on |
| `Discovery.SignalIsNeverLost` | src/l9_cognitive_runtime/compiler/context_requirements.py:156-180 | a signalled constraint is selected for the architecture requirement unless its budget shortfall is recorded |
| `RequirementPlanner.MergeNeeds` | src/l9_cognitive_runtime/compiler/context_requirements.py:345-349 | needs merged in place by signature, every contributing reference kept |
| `RequirementPlanner.KernelRequirements` | src/l9_cognitive_runtime/compiler/context_requirements.py:329-383 | exactly one requirement for each distinct signature |
| `RequirementPlanner.PlanRequirements` | src/l9_cognitive_runtime/compiler/context_requirements.py:130-327 | the baseline and kernel requirements, once each, in canonical plan order |
| `RequirementPlanner.PlansAreValid` | src/l9_cognitive_runtime/models/context.py:818-838 | every plan satisfies the constructor constraints, its ids are distinct, and none of its requirements blocks |
| `PlannerLaws.PlanHolds` | src/l9_cognitive_runtime/compiler/context_requirements.py:130-383 | every plan: the first requirement of each of the ten kinds is the standing one, with its stated floor, scope, coverage and ceilings, repository state required exactly when a target is named and architecture exactly when asked for; every other comes from a kernel need, every need is served, and kinds are served in one order |
| `RequirementPlanner.PlanForgetsKernelOrder` | src/l9_cognitive_runtime/compiler/context_requirements.py:329-383 | the plan does not depend on the order kernels or needs are listed in |
| `RequirementPlanner.NeedsAreMerged` | src/l9_cognitive_runtime/compiler/context_requirements.py:115-124 | two needs share a requirement exactly when their signatures agree |
| `PlannerLaws.NeedsMergeIff` | src/l9_cognitive_runtime/compiler/context_requirements.py:94-127 | two needs become one requirement exactly when they ask for the same kind, keys and coverage, as strongly, for the same reason, at the same advertised floor |
| `RequirementPlanner.FloorIsHonest` | src/l9_cognitive_runtime/compiler/context_requirements.py:100-112 | raising the advertised floor changes no match |
| `RequirementPlanner.PlanIsHarmlessIff` | src/l9_cognitive_runtime/compiler/context_requirements.py:130-383 | a plan has no BLOCK requirement, and closure can never reject a compile of it, whatever least cost within the byte ceiling items have, exactly when every kernel need is safe: none that selects asks for repository state at the unverified floor, or for capability facts under a scoped task |
| `PlannedCompile.PlanCompileValidate` | src/l9_cognitive_runtime/compiler/pipeline.py:286-333 | discover, plan, compile and validate: no requirement can block, success exactly on an admissible choice and always when every kernel need is safe, and on success no architecture signal lost |
| `PlannedCompile.RequiredIsAccounted` | src/l9_cognitive_runtime/compiler/task_context.py:983-1080 | a required requirement gets something of its kind, or the context carries a blocking unknown of it |
| `ExecutionGraph.TopologicalOrder` | src/l9_cognitive_runtime/graph/__init__.py:130-156 | terminates on every input, repeated ids included; a missing endpoint is refused; on distinct ids it succeeds exactly when the graph is acyclic, with every edge forward, and reports a cycle exactly when there is one |
| `GraphOrder.CanonicalOrderIff` | src/l9_cognitive_runtime/graph/__init__.py:130-156 | which order is returned: of those in which every edge goes forward, the one whose nodes come as their last predecessor frees them, by id when freed together |
| `GraphOrder.SortForgetsListing` | src/l9_cognitive_runtime/graph/__init__.py:130-156 | the order does not depend on how nodes and edges are listed |
| `ExecutionGraph.DependencyOrder` | runtime/execution_graph/dependency_resolver.py:4-20 | the same for the second implementation |
| `ExecutionGraph.BuildMaps` | src/l9_cognitive_runtime/graph/__init__.py:131-144 | the two dictionaries, or the first edge with a missing endpoint |
| `ExecutionGraph.Release` | src/l9_cognitive_runtime/graph/__init__.py:150-153 | one finished node discarded from its successors, the freed ones appended in order |
| `ExecutionGraph.WeightDrops` | src/l9_cognitive_runtime/graph/__init__.py:147-153 | each turn spends more work than it adds, even when ids repeat |
| `ExecutionGraph.ExhaustedMeans` | src/l9_cognitive_runtime/graph/__init__.py:154-155 | every node ordered exactly when acyclic; otherwise the nodes left contain a cycle |
| `ExecutionGraph.LeftoverHasCycle` | src/l9_cognitive_runtime/graph/__init__.py:154-155 | nodes that each have a predecessor among themselves contain a cycle |
| `ExecutionGraph.TwoSortsAgree` | runtime/execution_graph/dependency_resolver.py:4-20 | for ascending ids and existing endpoints both implementations leave the same list |
| `ExecutionGraph.ValidateGraph` | src/l9_cognitive_runtime/graph/__init__.py:107-127 | no findings exactly for distinct ids, a known terminal, existing endpoints and no cycle |
| `ExecutionGraph.ChainHasOneOrder` | src/l9_cognitive_runtime/graph/__init__.py:66-82 | a chain has one topological order, its own |
| `ExecutionGraph.DeriveGraph` | src/l9_cognitive_runtime/graph/__init__.py:23-104 | fails only on no steps or a repeated step id; the divergence error is unreachable; otherwise the derived graph |
| `ExecutionGraph.DerivedIsValid` | src/l9_cognitive_runtime/compiler/liveness.py:276-283 | a derived graph has no findings, no orphan node, and step order as its only order |
| `RunStore.InMemoryRunStore.constructor` | src/l9_cognitive_runtime/mcp/run_store.py:39-47 | a new store is empty and valid |
| `RunStore.InMemoryRunStore.Evict` | src/l9_cognitive_runtime/mcp/run_store.py:107-112 | exactly the unexpired records remain, in order |
| `RunStore.InMemoryRunStore.CapacityVictim` | src/l9_cognitive_runtime/mcp/run_store.py:70-82 | the least recently used run of a principal holding the most |
| `RunStore.OneVictim` | src/l9_cognitive_runtime/mcp/run_store.py:81-82 | there is exactly one victim to choose |
| `RunStore.InMemoryRunStore.Create` | src/l9_cognitive_runtime/mcp/run_store.py:49-68 | the record, and the store left: live records and the new one, trimmed to the bound |
| `RunStore.InMemoryRunStore.Get` | src/l9_cognitive_runtime/mcp/run_store.py:84-93 | found exactly when live and the caller's own; a found run moves to the recent end, nothing else changes but expiry |
| `RunStore.InMemoryRunStore.Require` | src/l9_cognitive_runtime/mcp/run_store.py:95-100 | the same lookup with one error for every way of not finding |
| `RunStore.InMemoryRunStore.ListForPrincipal` | src/l9_cognitive_runtime/mcp/run_store.py:102-105 | the caller's live runs, in recency order |
| `RunStoreLaws.Pigeonhole` | src/l9_cognitive_runtime/mcp/run_store.py:77-82 | if nobody holds more than m runs, there are at most m for each principal present |
| `RunStoreLaws.ShareIsSafe` | src/l9_cognitive_runtime/mcp/run_store.py:70-82 | when the bound is exceeded, a principal within its fair share is never the victim |
| `RunStoreLaws.BoundHolds` | src/l9_cognitive_runtime/mcp/run_store.py:64-67 | after any sequence of calls the store holds at most the bound |
| `RunStoreLaws.CreateEvictsOne` | src/l9_cognitive_runtime/mcp/run_store.py:64-67 | a create evicts at most one live run, and only when full |
| `RunStoreLaws.EvictsOldestOfBusiest` | src/l9_cognitive_runtime/mcp/run_store.py:60-82 | a full store evicts the least recent run of a principal that holds the most, and of such principals the one whose run is least recent |
| `RunStoreLaws.ListIsOwnByRecency` | src/l9_cognitive_runtime/mcp/run_store.py:102-105 | a principal is listed exactly its own runs not expired, in the order they were last used |
| `RunStoreLaws.LosesOnlyToExpiry` | src/l9_cognitive_runtime/mcp/run_store.py:60-82 | over any sequence of calls a principal within its share loses runs only to expiry |
| `RunStoreLaws.OrderIsRecency` | src/l9_cognitive_runtime/mcp/run_store.py:90-93 | over any sequence of calls the list is ordered by the call that last used each run, without duplicates |
| `RunStoreLaws.NonOwnerSeesNothing` | src/l9_cognitive_runtime/mcp/run_store.py:84-93 | asking for another principal's run gives the result and the state of asking for an id never issued |
| `RunStoreLaws.FoundIsOwnAndMostRecent` | src/l9_cognitive_runtime/mcp/run_store.py:84-93 | a found run becomes the most recent, and no other live run is gained or lost |
| `Obligations.Derive` | src/l9_cognitive_runtime/compiler/obligations.py:51-216 | the derived list, in order |
| `Obligations.DerivesExactly` | src/l9_cognitive_runtime/compiler/obligations.py:101-177 | each fixed obligation is derived exactly under its own condition |
| `ExecutionLaws.OwedIff` | src/l9_cognitive_runtime/compiler/obligations.py:51-216 | what a task owes, field by field, and no more: the fixed obligations under their conditions, one for each material unknown, a note for each other |
| `Pipeline.BlockingIsOwed` | src/l9_cognitive_runtime/compiler/obligations.py:177-200 | an unknown of the context is owed as a required obligation exactly when it blocks |
| `Obligations.DerivedDistinct` | src/l9_cognitive_runtime/compiler/obligations.py:51-216 | derived ids are distinct exactly when no material context unknown is recorded twice |
| `Obligations.DecimalInjective` | src/l9_cognitive_runtime/compiler/obligations.py:202-207 | positions written in decimal never collide |
| `ObligationGuards.Index` | src/l9_cognitive_runtime/compiler/obligations.py:219-230 | an index of the list, or the first repeated id |
| `ObligationGuards.Conserve` | src/l9_cognitive_runtime/compiler/obligations.py:237-277 | accepts exactly when ids are distinct and every required, undisposed obligation keeps its id and kind; the error says which way it failed |
| `ObligationGuards.ConserveIds` | src/l9_cognitive_runtime/compiler/obligations.py:280-310 | accepts exactly when ids are distinct, none is lost and none is foreign |
| `ObligationGuards.ValidateObligations` | src/l9_cognitive_runtime/compiler/obligations.py:313-333 | accepts exactly when ids are distinct, owners resolve and required obligations have consumers |
| `ObligationGuards.OwnerKnownIff` | src/l9_cognitive_runtime/compiler/obligations.py:333-342 | an owner resolves when it is a runtime component, a planned phase, a bound kernel or the terminal contract |
| `ObligationGuards.ReachesOrIsDisposed` | src/l9_cognitive_runtime/compiler/obligations.py:237-277 | through a chain of accepted hops of any length an obligation reaches the end under its kind, or a stage disposed of it or made it non-required |
| `ObligationGuards.GraphRefsAreRequiredPending` | src/l9_cognitive_runtime/graph/__init__.py:87-91 | the graph carries exactly the ids the pipeline expects |
| `ObligationGuards.CompileProperties` | src/l9_cognitive_runtime/compiler/validation.py:68-98 | in order, one property for each required obligation with the evaluator of its kind, then one for temporal architecture |
| `ObligationGuards.PropertiesSay` | src/l9_cognitive_runtime/compiler/validation.py:68-98 | each required obligation has a property with its id and what evaluates its kind, temporal architecture one more, and there is no other |
| `ObligationGuards.PropertiesConserve` | src/l9_cognitive_runtime/compiler/pipeline.py:352-356 | the validation references pass the id guard exactly when ids are distinct |
| `ObligationGuards.ValidatePacket` | src/l9_cognitive_runtime/compiler/adapters.py:146-193 | accepts exactly when the property references are the required ids, delivery is kept, and architecture has its kernel with outputs |
| `ObligationGuards.PacketSetsAgreeIff` | src/l9_cognitive_runtime/compiler/packet.py:67-71 | the packet's ids agree exactly when every required obligation is still pending and no temporal property hangs off one that is not required |
| `ObligationGuards.DerivedPassesEveryGuard` | src/l9_cognitive_runtime/compiler/pipeline.py:336-366 | a derived list passes every later guard exactly when no material context unknown is recorded twice |
| `ObligationGuards.DerivedIsWellOwnedIff` | src/l9_cognitive_runtime/compiler/obligations.py:313-342 | the owner check passes a derived list exactly when no material unknown is recorded twice, the constitutional kernel is bound, the task owner resolves and material architecture has its kernel |
| `ObligationGuards.CheckHops` | src/l9_cognitive_runtime/compiler/pipeline.py:350-366 | accepts exactly when every hop conserves and the graph references agree |
| `ObligationGuards.ThreadObligations` | src/l9_cognitive_runtime/compiler/pipeline.py:336-366 | derive, check owners and thread through every hop: only the owner check can refuse |
| `Pipeline.OneEachIsDistinct` | src/l9_cognitive_runtime/compiler/task_context.py:1104-1106 | an identity kept once by the context is a material unknown recorded once |
| `Pipeline.CompiledPassesEveryGuard` | src/l9_cognitive_runtime/compiler/pipeline.py:336-366 | the obligations of every compiled context pass every later guard |
| `Pipeline.DeriveForContext` | src/l9_cognitive_runtime/compiler/pipeline.py:336-366 | derive for a context and thread: refused exactly when an owner is not bound |
| `Activation.Plan` | src/l9_cognitive_runtime/compiler/activation.py:105-218 | the plan: phases, active and skipped kernels, terminal flag, outputs, next phase |
| `Activation.PhasesAreCanonical` | src/l9_cognitive_runtime/compiler/activation.py:153-155 | the phases asked for and allowed, once each, in canonical order |
| `ActivationLaws.PhasePlannedIff` | src/l9_cognitive_runtime/compiler/activation.py:113-155 | a phase is planned exactly when the pipeline has it and the request asks for it, by route, terminal wish, improvement or architecture, the terminal one only if allowed |
| `ActivationLaws.PhasesInOrder` | src/l9_cognitive_runtime/compiler/activation.py:153-155 | planned phases keep the pipeline order |
| `ActivationLaws.KernelActiveIff` | src/l9_cognitive_runtime/compiler/activation.py:157-184 | a kernel is active exactly when the route names it or a phase asked for other than task routing carries it; a refused terminal phase takes its kernel away |
| `ActivationLaws.OutputRequiredIff` | src/l9_cognitive_runtime/compiler/activation.py:186-190 | the plan requires exactly the outputs its phases yield |
| `Activation.TerminalAllowedIff` | src/l9_cognitive_runtime/compiler/activation.py:181-212 | terminal success is allowed exactly when the terminal phase is in the sequence |
| `Activation.InsertTaskKernels` | src/l9_cognitive_runtime/compiler/activation.py:166-179 | the route's block goes right behind the last constitutional kernel, or at the end |
| `Activation.ActiveIsPhaseOrderAroundBlock` | src/l9_cognitive_runtime/compiler/activation.py:157-179 | active kernels are distinct; without the inserted block they are the phases' kernels in phase order |
| `Activation.AllKernelsFirstMet` | src/l9_cognitive_runtime/compiler/activation.py:225-231 | the kernels of the pipeline are the entries of its phases' lists, each once, in first-met order |
| `Activation.AllKernelPaths` | src/l9_cognitive_runtime/compiler/activation.py:225-231 | every primary kernel of the pipeline, once, in first-met order |
| `Activation.PhaseKernelsFirstMet` | src/l9_cognitive_runtime/compiler/activation.py:157-165 | the kernels of the phases asked for, task routing aside, once each, in first-met order |
| `Activation.OutputsFirstMet` | src/l9_cognitive_runtime/compiler/activation.py:186-190 | the required outputs of the phases, once each, in first-met order |
| `Activation.ActiveAndSkippedSplit` | src/l9_cognitive_runtime/compiler/activation.py:192 | each kernel of the pipeline is active or skipped and never both, and an active kernel the pipeline does not list is the route's |
| `Activation.MatchRoute` | src/l9_cognitive_runtime/compiler/activation.py:234-251 | the first route of the highest score, with the confidence of that score; when nothing matches, the first listed route |
| `Execution.ProjectKernels` | src/l9_cognitive_runtime/compiler/execution.py:113-125 | for every phase, its primary kernels among the bindings, in binding order |
| `Execution.ProseSequence` | src/l9_cognitive_runtime/compiler/execution.py:127-136 | the prose steps, or a phase without one |
| `Execution.BuildSteps` | src/l9_cognitive_runtime/compiler/execution.py:171-210 | one step per phase: kernels, obligations, outputs, and the previous step's outputs as inputs |
| `Execution.Compile` | src/l9_cognitive_runtime/compiler/execution.py:81-246 | succeeds exactly when nothing blocks, there is a phase, and every phase is canonical |
| `Execution.LiesOnItsPhaseAlone` | src/l9_cognitive_runtime/compiler/execution.py:152-186 | an obligation lies on exactly one step, listed there once, when its mapped phase is planned, and on none when it is not |
| `ExecutionLaws.StepDischarges` | src/l9_cognitive_runtime/compiler/execution.py:134-186 | a step lists exactly the obligations whose kind its phase discharges: each kind on its own named phase, validation on routing exactly when the gate is not planned, delivery and convergence on the last phase exactly when the terminal one is not |
| `ExecutionLaws.OwedAreDischarged` | src/l9_cognitive_runtime/compiler/execution.py:134-186 | each derived id lies on its named step, under the condition it is owed, and on no other |
| `ExecutionLaws.UnknownsAreDischarged` | src/l9_cognitive_runtime/compiler/execution.py:134-186 | obligations for material unknowns and notes lie on the unpacking step |
| `ExecutionLaws.StepRuns` | src/l9_cognitive_runtime/compiler/execution.py:113-210 | a step runs the bound kernels its phase names as primary and yields what the phase requires and those kernels declare |
| `ExecutionLaws.GraphCarriesSteps` | src/l9_cognitive_runtime/graph/__init__.py:23-104 | the derived graph carries the steps field by field, an edge from each to the next, and converges exactly where the terminal phase is planned |
| `Execution.StepsChainAndDerive` | src/l9_cognitive_runtime/compiler/execution.py:196-210 | each step is fed by the one before, and distinct phases give distinct step ids |
| `Execution.PlanToGraph` | src/l9_cognitive_runtime/compiler/pipeline.py:341-359 | plan, compile steps and derive: planned phases always derive a graph |
| `Template.TokenFound` | src/l9_cognitive_runtime/compiler/adapters.py:38-39 | a string starts with at most one token, and the scan finds it |
| `Template.TokensAreAllOccurrences` | src/l9_cognitive_runtime/compiler/adapters.py:335-337 | the tokens found are exactly the occurrences of the pattern anywhere in the template |
| `Template.CutsAtToken` | src/l9_cognitive_runtime/compiler/adapters.py:39-42 | the scan cuts the template at every occurrence, and both sides are scanned as if alone |
| `Template.AcceptedIff` | src/l9_cognitive_runtime/compiler/adapters.py:335-351 | accepted exactly when every occurrence has a value and no delimiter is left; the error names exactly the unknown tokens |
| `Template.RenderingSplices` | src/l9_cognitive_runtime/compiler/adapters.py:352 | an accepted template cut at any token is two accepted templates with clean literals, joined by the value verbatim |
| `Template.PlainTemplate` | src/l9_cognitive_runtime/compiler/adapters.py:335-352 | text without tokens or delimiters renders as itself |
| `Template.IdentityRendering` | src/l9_cognitive_runtime/compiler/adapters.py:352 | mapping every placeholder to itself returns the template |

## Left out

- Hashing, canonical JSON and pydantic validation: identities are injective and constructor constraints are invariants.
- Closure checks 3 and 5, the recorded-gap and non-empty-order parts of check 8, and liveness checks other than the orphan check: equality or constructor facts.
- HarmlessPlans.NeverRejectedIff: a plan with a BLOCK requirement has only the safe half, `HarmlessPlans.HarmlessNeverRejects`; whether another requirement's hazard can still be reached once every BLOCK requirement is met depends on what those take. Such plans cannot come from the planner.
- SolePlan.ClosureForcesPrefixIff: for plans of several requirements the prefix conditions are those of checks 9 and 10 for one requirement beside what earlier ones hold. Repository state without provenance, which check 2 rejects, is not among the items offered.
- SurvivorOrder.OrderNeverDecidesIff: where some order does make a cycle, whether claims behind it survive is settled for each order alone (`Supersession.ResolveSupersession`), not for all orders at once.
- The error details, prose reasons, `source_refs` of unknowns and the order of unknowns by digest; the budget witness and the missing keys, which closure reads back, are kept.
- Task scope compilation, capability and authority compilation, and the choice of authority order.
- Mission text: route tokens, terminal phrases, verb families and materiality are inputs.
- Kernel parsing, pack loading, manifest reads, deployment packing, MCP tools, HTTP, OAuth and the CLI wrappers.
- Locks in the run store: every locked body is one atomic method.
- RunStore.InMemoryRunStore.Create: assumes the generated run id is not in the store; a collision of random tokens is not modelled.
- Node fields of the derived graph that are copied through unchanged (gates, evidence, failure routes), and the contract's constant lists.
- Execution.Compile: takes whether the plan has blockers; the blockers and low-confidence notes themselves are text about the mission. The pipeline's own id and doctrine are taken as present.
- `_STRAY_DELIMITER` is applied line by line in the source; a delimiter is two adjacent braces, so the model applies it to the whole text.
- `convergence.py`, `providers.py`, `handoff.py` beyond its obligation list, and `task_scope.py`: short case checks.
- ExecutionGraph.TopologicalOrder: with repeated node ids, termination and the outcome of the work list are proved, but acyclicity is decided only for distinct ids; the validator reports a repeated id in any case.
