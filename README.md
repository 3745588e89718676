# Equality sharing in a small SMT engine, modelled in Dafny

This project models the theory-combination core of a modular SMT engine
written in Rust. It also proves properties of that model.

Several decision procedures ("theories") are registered with the engine. In
the two-theory set-up the tests use, these are an uninterpreted-function
(UF) theory and a difference-logic (DL) theory. They cooperate in the
Nelson–Oppen style:

- **Terms and atoms.** A term store (`Context`) hands out term and sort
  identifiers. An atom table records which theory owns each asserted atom.
- **Shared terms.** The shared-term oracle computes which terms are
  referenced by at least two theories. It ORs one ownership bit per theory
  into a per-term mask, and a term is shared when the mask has two or more
  bits.
- **Reasons.** Every exported equality carries a reason: a handle into an
  append-only arena of leaves (SAT literals) and AND nodes. The arena can
  flatten a reason into its literals with an explicit stack.
- **The equality-sharing round.** One round does four things in order:
  1. it recomputes the shared terms when the atom table grew;
  2. it collects the equalities every theory with the sharing capability
     exports, in registration order;
  3. it offers each equality to every other theory, filtered by the UF→DL
     and DL→UF policy switches;
  4. it advances the round epoch, wrapping at 2^64.

  Every delivery is recorded in a drainable event trace and imported by
  theories that have the sharing capability. When diagnostics are on, the
  delivery is also logged once per symmetric key (exporter, importer,
  unordered term pair, epoch).
- **Debugging aids.** A reason DAG can be rendered as a bounded
  breadth-first graph. The event trace can be rendered as a deduplicated
  graph of numbered term nodes. The tests phrase their expectations with the
  `has_pair` / `has_dir` predicates.

The model is split into modules as follows:

| module | what it holds |
|---|---|
| `Iter` | bounded prefixes (`iter().take(n)`) |
| `Core` | the term store |
| `Sat` | literals and the stub SAT kernel |
| `Atoms` | the atom table |
| `Reasons` | the reason arena and its expansion specification |
| `TheoryContext` | the AND-composition helper |
| `Config` | the engine configuration and its defaults |
| `Wrapping` | 64-bit wrap-around |
| `Theories` | abstract theory records |
| `Trace` | the event trace and the dedup key |
| `SharedTerms` | the shared-term oracle |
| `SharingRound` | one round, stated as functions of its inputs |
| `Engine` | the engine class, whose methods carry out the round step by step |
| `ReasonDot` | the reason-graph renderer |
| `EqShareDot` | the trace-graph renderer |
| `EqShareMacros` | the test vocabulary |

The modules take the same form as the source:
- Objects the source mutates are classes with `modifies` frames: the term
  store, the arena, the atom table, the oracle, the trace and the engine.
- Loops are `while`/`for` loops with invariants. These are the stack-based
  expansion, the BFS, the recompute and the broadcast.
- Each loop method is proved against a specification function of its inputs.
- Pure code is functions and lemmas.

Modelling choices, each stated as the code behaves:
- **Policy.** The policy is two flags for the UF/DL pair only, not a general
  pair matrix.
- **Recompute epoch.** The recompute epoch wraps at 2^64 rather than
  growing monotonically.
- **Export calls.** `export` is called only on theories that have the sharing
  capability.
- **Expansion order.** Expansion has a definite order (the reverse of the
  children's order at each AND node), not just multiset semantics.
- **Diagnostic gate.** A diagnostic line is emitted only when diagnostics
  are enabled and import or export logging is on.
- **Dedup set.** The dedup set persists across rounds. Its keys carry the
  epoch, so the dedup acts per round.

## Model

| member | source | states |
|---|---|---|
| `Core.Context.constructor` | crates/smt-core/src/lib.rs:67-74 | a new context holds only the Int sort, at id 0, cached under Int, and no terms |
| `Core.Context.IntSort` | crates/smt-core/src/lib.rs:76-79 | id 0 names the Int sort in every valid context |
| `Core.Context.DeclareUninterpretedSort` | crates/smt-core/src/lib.rs:81-91 | a cached name returns its old id and changes nothing; a new name is appended, gets the next id and is cached; terms are untouched |
| `Core.Context.Intern` | crates/smt-core/src/lib.rs:93-104 | the new id is the old term count, the node is appended and reads back as (kind, sort), and sorts are untouched |
| `Core.Context.TermNodeOf` | crates/smt-core/src/lib.rs:100-103 | the stored kind and sort of an in-range term |
| `Core.Context.IntConst` | crates/smt-core/src/lib.rs:106-109 | appends an integer-constant node of the Int sort at the next id |
| `Core.Context.ConstTerm` | crates/smt-core/src/lib.rs:111-114 | appends a named-constant node of the given sort at the next id |
| `Core.Context.UfApp` | crates/smt-core/src/lib.rs:116-125 | appends an application node with the given symbol, arguments and result sort at the next id |
| `Core.Context.MkEq` | crates/smt-core/src/lib.rs:127-131 | appends an equality node of the Int sort at the next id |
| `Core.Context.MkLe` | crates/smt-core/src/lib.rs:133-136 | appends a less-or-equal node of the Int sort at the next id |
| `Core.Context.MkNot` | crates/smt-core/src/lib.rs:138-141 | appends a negation node of the Int sort at the next id |
| `Core.InternTwice` | crates/smt-core/src/lib.rs:93-98 | interning the same node twice gives two different ids with equal nodes (no hash-consing) |
| `Core.DeclareTwice` | crates/smt-core/src/lib.rs:81-91 | declaring one name twice gives the same id, which names the sort, adds at most one sort and leaves the terms alone |
| `Sat.Pos` | crates/smt-sat/src/lib.rs:17 | the positive literal of `v` has variable `v` and is positive |
| `Sat.Neg` | crates/smt-sat/src/lib.rs:18 | the negative literal of `v` has variable `v` and is not positive |
| `Sat.PosNegDistinct` | crates/smt-sat/src/lib.rs:17-18 | the two literals of one variable differ |
| `Sat.LitIsPosOrNeg` | crates/smt-sat/src/lib.rs:10-21 | every literal is `pos` or `neg` of its own variable, as its sign says |
| `Sat.Lit.Var` | crates/smt-sat/src/lib.rs:20 | the variable, which together with the sign rebuilds the literal |
| `Sat.Lit.IsPos` | crates/smt-sat/src/lib.rs:21 | true exactly for the positive literal of its variable, false exactly for the negative one |
| `Iter.Take` | crates/smt-engine/src/engine.rs:152 | taking `n` elements gives a prefix of the input of length min(n, count) |
| `Sat.Propagate` | crates/smt-sat/src/lib.rs:38-40 | the stub kernel never reports a conflict |
| `Atoms.AtomTable.constructor` | crates/smt-engine/src/atoms.rs:14-17 | a new table is empty |
| `Atoms.AtomTable.Push` | crates/smt-engine/src/atoms.rs:22-24 | appends the atom, keeps earlier atoms and grows the length by one |
| `Atoms.AtomTable.IterAtoms` | crates/smt-engine/src/atoms.rs:26-28 | yields exactly the stored atoms, in insertion order |
| `Atoms.AtomTable.Len` | crates/smt-engine/src/atoms.rs:19 | the number of stored atoms |
| `Config.DefaultSharingConfig` | crates/smt-engine/src/config.rs:9-13 | both sharing directions are on by default |
| `Config.DefaultDebugEqSharing` | crates/smt-engine/src/config.rs:24-34 | diagnostics off, 8 reason literals, all three log switches on |
| `Config.DefaultEngineConfig` | crates/smt-engine/src/config.rs:36-40 | the engine default is built from the two defaults above |
| `Wrapping.WrappingInc` | crates/smt-engine/src/shared_terms.rs:52 | the increment is (x + 1) mod 2^64 and never returns its input |
| `Wrapping.AdvanceFromZero` | crates/smt-engine/src/engine.rs:176 | n increments from 0 give n mod 2^64 |
| `Reasons.ReasonArena.constructor` | crates/smt-engine/src/reason.rs:15-18 | a new arena is empty and well formed |
| `Reasons.ReasonArena.Push` | crates/smt-engine/src/reason.rs:21-25 | the new handle is the old length, the node is appended, and earlier nodes are unchanged |
| `Reasons.ReasonArena.Get` | crates/smt-engine/src/reason.rs:27-29 | the stored node of an in-range handle; in a valid arena its children are older handles |
| `Reasons.ReasonArena.ExpandLits` | crates/smt-engine/src/reason.rs:32-42 | the stack loop returns exactly the specified expansion of the root |
| `Reasons.LitsOfAppend` | crates/smt-engine/src/reason.rs:38 | pushing children `a + b` on the stack expands `b` first, then `a` |
| `Reasons.ExpansionAtom` | crates/smt-engine/src/reason.rs:37 | a leaf expands to its single literal |
| `Reasons.ExpansionAnd` | crates/smt-engine/src/reason.rs:38 | an AND node expands to the stacked expansion of its children |
| `Reasons.LitsOfMultiset` | crates/smt-engine/src/reason.rs:32-42 | as a multiset, the expansion of a handle list is the sum of the handles' expansions |
| `Reasons.AndExpansionMultiset` | crates/smt-engine/src/reason.rs:38 | an AND node's expansion is, as a multiset, the sum of its children's; an empty AND expands to nothing |
| `Reasons.LitsOfExtend` | crates/smt-engine/src/reason.rs:21-25 | appending nodes does not change the expansion of existing handle lists |
| `Reasons.ExpansionExtend` | crates/smt-engine/src/reason.rs:21-25 | appending nodes does not change the expansion of existing handles |
| `TheoryContext.TheoryCtx.constructor` | crates/smt-engine/src/theory_ctx.rs:11 | the helper wraps the given arena |
| `TheoryContext.TheoryCtx.RAnd` | crates/smt-engine/src/theory_ctx.rs:14-17 | one child returns that child and leaves the arena unchanged; otherwise an AND node is appended at the next handle |
| `TheoryContext.EmptyAndExpandsToNothing` | crates/smt-engine/src/theory_ctx.rs:16 | an AND over no children expands to no literals |
| `TheoryContext.PairAndExpansion` | crates/smt-engine/src/theory_ctx.rs:14-17 | AND of h1, h2 expands to expand(h2) + expand(h1), which as a multiset is expand(h1) + expand(h2) |
| `TheoryContext.ExpansionIsNotChildOrder` | crates/smt-engine/src/reason.rs:35-39 | for two distinct leaves, the expansion order is the reverse of the children's order |
| `Trace.KeyOf` | crates/smt-engine/src/engine.rs:146-147 | the dedup key keeps exporter, importer and epoch and holds the two terms as an ordered pair |
| `Trace.KeyOfSymmetric` | crates/smt-engine/src/engine.rs:146 | swapping the terms gives the same key |
| `Trace.EqShareTrace.constructor` | crates/smt-engine/src/eqshare_trace.rs:18-21 | a new trace is empty |
| `Trace.EqShareTrace.Push` | crates/smt-engine/src/eqshare_trace.rs:24-26 | appends the event |
| `Trace.EqShareTrace.Clear` | crates/smt-engine/src/eqshare_trace.rs:28 | empties the trace |
| `Trace.EqShareTrace.Take` | crates/smt-engine/src/eqshare_trace.rs:33-35 | returns every event and leaves the trace empty |
| `Trace.EqShareTrace.Events` | crates/smt-engine/src/eqshare_trace.rs:30 | the recorded events, in recording order |
| `Trace.TakeTwice` | crates/smt-engine/src/eqshare_trace.rs:33-35 | a second drain returns nothing |
| `SharedTerms.ReferencedMembers` | crates/smt-engine/src/shared_terms.rs:36-43 | a term gets a mask entry exactly when it is an endpoint of some atom |
| `SharedTerms.OwnerMaskMembers` | crates/smt-engine/src/shared_terms.rs:36-43 | bit b is in a term's mask exactly when an atom whose theory has bit b lists the term as an endpoint |
| `SharedTerms.UnreferencedMaskEmpty` | crates/smt-engine/src/shared_terms.rs:41 | a term that is no atom's endpoint has an empty mask |
| `SharedTerms.SharedIffTwoOwnerBits` | crates/smt-engine/src/shared_terms.rs:45-50 | shared exactly when two atoms with different owner bits list the term |
| `SharedTerms.SharedHasTwoOwnerBits` | crates/smt-engine/src/shared_terms.rs:47 | a shared term is listed by two atoms with different owner bits |
| `SharedTerms.TwoOwnerBitsShared` | crates/smt-engine/src/shared_terms.rs:47-48 | a term listed by two atoms with different owner bits is shared |
| `SharedTerms.OneOwnerBitNeverShared` | crates/smt-engine/src/shared_terms.rs:47 | a term whose listing atoms all share one owner bit is not shared |
| `SharedTerms.HighTheoriesShareBit` | crates/smt-engine/src/shared_terms.rs:38 | theories 31 and above all use bit 31 |
| `SharedTerms.TwoTheoriesShareCommonEndpoint` | crates/smt-engine/src/shared_terms.rs:33-50 | endpoints {x, y} from one theory and {y, z} from the other give shared set {y} |
| `SharedTerms.MarkEndpoints` | crates/smt-engine/src/shared_terms.rs:40-42 | the loop ORs the bit into the mask of every listed endpoint and leaves other entries alone |
| `SharedTerms.CollectOwners` | crates/smt-engine/src/shared_terms.rs:36-43 | the mask map has exactly the referenced terms as keys, each with its specified mask |
| `SharedTerms.MultiOwned` | crates/smt-engine/src/shared_terms.rs:45-50 | keeps exactly the terms whose mask has two or more bits |
| `SharedTerms.SharedTermOracle.constructor` | crates/smt-engine/src/shared_terms.rs:15-19 | no shared terms, epoch 0 |
| `SharedTerms.SharedTermOracle.IsShared` | crates/smt-engine/src/shared_terms.rs:24-26 | true exactly for members of the shared set |
| `SharedTerms.SharedTermOracle.Epoch` | crates/smt-engine/src/shared_terms.rs:21 | the current recompute epoch |
| `SharedTerms.SharedTermOracle.SharedSet` | crates/smt-engine/src/shared_terms.rs:27-29 | the current shared set itself |
| `SharedTerms.SharedTermOracle.Recompute` | crates/smt-engine/src/shared_terms.rs:32-53 | the shared set becomes the specified set, within the referenced terms, and the epoch wraps forward by one |
| `SharingRound.TagAllIndex` | crates/smt-engine/src/engine.rs:113-115 | tagging keeps length and order and labels every equality with its exporter |
| `SharingRound.TagAllMembers` | crates/smt-engine/src/engine.rs:113-115 | a tagged entry is in the list exactly when its exporter matches and its equality was exported |
| `SharingRound.ExportedMembers` | crates/smt-engine/src/engine.rs:109-117 | an export-list entry is exactly an equality exported by a theory with the sharing capability, tagged with it |
| `SharingRound.ExportedInRegistrationOrder` | crates/smt-engine/src/engine.rs:110-117 | the export list is ordered by exporter index, and every index is that of a registered theory |
| `SharingRound.TargetsMembers` | crates/smt-engine/src/engine.rs:120-129 | an equality goes to theory j exactly when j is registered, is not the exporter, and the policy allows the pair |
| `SharingRound.TargetsIncreasing` | crates/smt-engine/src/engine.rs:120 | one equality's importers come in strictly increasing registration order |
| `SharingRound.AllowedSwitchedPairsOnly` | crates/smt-engine/src/engine.rs:124-128 | with distinct UF and DL slots, a pair is refused exactly when it is UF→DL with that switch off or DL→UF with that switch off; every other pair is allowed |
| `SharingRound.PermissiveTargetsCount` | crates/smt-engine/src/engine.rs:122-129 | with both directions on, an equality reaches every other theory |
| `SharingRound.DeliveriesAppend` | crates/smt-engine/src/engine.rs:119-120 | deliveries follow export order: the deliveries of xs + ys are those of xs, then those of ys |
| `SharingRound.DeliveryMembers` | crates/smt-engine/src/engine.rs:119-129 | a delivery happens exactly when its equality was exported by src, dst is another registered theory, and the policy allows the pair |
| `SharingRound.NoSelfDelivery` | crates/smt-engine/src/engine.rs:122 | no equality is delivered back to its exporter |
| `SharingRound.EventsOfIndex` | crates/smt-engine/src/engine.rs:132-142 | one trace event per delivery, in delivery order, carrying the round's epoch, the endpoints and the reason |
| `SharingRound.ImportsToWithoutSharing` | crates/smt-engine/src/engine.rs:170 | a theory without the sharing capability imports nothing |
| `SharingRound.ImportsToMembers` | crates/smt-engine/src/engine.rs:170-172 | a theory imports an equality exactly when it has the capability and some delivery brings that equality to it |
| `SharingRound.ImportsToUnaddressed` | crates/smt-engine/src/engine.rs:170-172 | a theory no delivery is addressed to imports nothing |
| `SharingRound.LogSeenKeys` | crates/smt-engine/src/engine.rs:147 | after a round the seen set is the old set plus the keys of all deliveries |
| `SharingRound.LoggedFresh` | crates/smt-engine/src/engine.rs:145-147 | every logged delivery is a delivery whose key was new at the start of the round |
| `SharingRound.LoggedDistinct` | crates/smt-engine/src/engine.rs:147 | no key is logged twice |
| `SharingRound.LoggedComplete` | crates/smt-engine/src/engine.rs:145-147 | every delivery with a new key has its key logged |
| `SharingRound.EqLineLiterals` | crates/smt-engine/src/engine.rs:150-156 | a log line lists at most `max_reason_lits` literals that start the reason's expansion; it is marked truncated exactly when the expansion is longer, and otherwise lists it all |
| `SharingRound.ExportCallsShape` | crates/smt-engine/src/engine.rs:110-116 | every export call sees the same oracle view and epoch |
| `SharingRound.ImportCallsShape` | crates/smt-engine/src/engine.rs:170-172 | every import call sees the same oracle view |
| `SharingRound.PhaseSeparation` | crates/smt-engine/src/engine.rs:109-172 | in a round's call log no export follows an import, and all calls see one oracle view |
| `SharingRound.StatsLines` | crates/smt-engine/src/engine.rs:101-107 | one shared-terms count line exactly when diagnostics and the stats switch are on |
| `SharingRound.BlockedDirectionDeliversNothing` | crates/smt-engine/src/engine.rs:124-129 | with UF→DL off between UF and DL, DL gets no delivery, no import and no trace event |
| `SharingRound.DedupDoesNotSuppressDelivery` | crates/smt-engine/src/engine.rs:131-172 | the same delivery twice gives two imports and two events but one log line |
| `SharingRound.UfTwiceToDl` | crates/smt-engine/src/engine.rs:119-129 | an equality UF exports twice is delivered to DL twice |
| `SharingRound.ExportedOnlyUf` | crates/smt-engine/src/engine.rs:109-117 | when only UF exports, and exports one equality, the export list is that equality tagged with UF |
| `SharingRound.UfOnceToDl` | crates/smt-engine/src/engine.rs:119-129 | with UF→DL on, one UF export is delivered to DL and nowhere else |
| `SharingRound.UfExportReachesDl` | crates/smt-engine/src/engine.rs:109-172 | when UF exports one leaf-justified equality, DL imports exactly it, UF imports nothing, and the import expands to the leaf's literal |
| `Engine.InitialConfig` | crates/smt-engine/src/engine.rs:67-78 | the default configuration, except that the toggle enables diagnostics with 16 literals |
| `Engine.SmtEngine.constructor` | crates/smt-engine/src/engine.rs:56-81 | UF in slot 0, DL in slot 1; empty fresh tables, arena, oracle and trace; epoch 0; configuration from the toggle |
| `Engine.SmtEngine.MaybeRecomputeSharedTerms` | crates/smt-engine/src/engine.rs:84-90 | the oracle is recomputed exactly when the atom count changed, and the recorded count is updated |
| `Engine.SmtEngine.ExportPhase` | crates/smt-engine/src/engine.rs:109-117 | returns the specified export list and logs one export call per capable theory |
| `Engine.SmtEngine.EqLineFor` | crates/smt-engine/src/engine.rs:148-156 | builds the specified log line of a delivery from the expanded reason |
| `Engine.SmtEngine.LogDelivery` | crates/smt-engine/src/engine.rs:144-168 | logging stays in step with the deduplicated log specification |
| `Engine.SmtEngine.ImportDelivery` | crates/smt-engine/src/engine.rs:170-172 | import logs and the call log stay in step with the import specification |
| `Engine.SmtEngine.RecordEvent` | crates/smt-engine/src/engine.rs:131-142 | the trace stays in step with the event specification |
| `Engine.SmtEngine.Deliver` | crates/smt-engine/src/engine.rs:131-172 | one delivery updates trace, log and imports as the specification says |
| `Engine.SmtEngine.OfferTo` | crates/smt-engine/src/engine.rs:121-172 | offering an equality to one theory delivers it exactly when the pair is allowed and not a self-pair |
| `Engine.SmtEngine.OfferNext` | crates/smt-engine/src/engine.rs:120-173 | one turn of the importer loop extends the state by that importer's targets |
| `Engine.SmtEngine.BroadcastOne` | crates/smt-engine/src/engine.rs:120-173 | broadcasting one equality performs exactly its specified deliveries |
| `Engine.SmtEngine.BroadcastPhase` | crates/smt-engine/src/engine.rs:119-174 | the broadcast loop performs exactly the specified deliveries of the whole export list |
| `Engine.SmtEngine.LogSharedStats` | crates/smt-engine/src/engine.rs:101-107 | appends the shared-terms count line exactly when diagnostics and the stats switch are on |
| `Engine.SmtEngine.ExchangeEqualities` | crates/smt-engine/src/engine.rs:109-176 | export then broadcast: trace, imports, calls and log follow the specification, and the epoch wraps forward by one |
| `Engine.SmtEngine.EqualitySharingRound` | crates/smt-engine/src/engine.rs:93-177 | the whole round's effect on the view, trace, imports, calls, log and epoch |
| `Engine.SmtEngine.CheckSat` | crates/smt-engine/src/engine.rs:203-208 | runs one round and answers Unknown |
| `Engine.SmtEngine.TakeEqshareEvents` | crates/smt-engine/src/engine.rs:211-214 | returns the trace and empties it |
| `Engine.SmtEngine.DumpConflictReasonDot` | crates/smt-engine/src/engine.rs:198-200 | under the default cap of 300 the node order is the breadth-first order (`IsBfsOrder`), without repeats and all reachable, and below the cap it holds every reachable node; nodes have the specified shapes; an edge exists exactly for each drawn parent-child pair, and the edge list is exactly the specified one, in drawing order and multiplicity |
| `Engine.SmtEngine.DumpEqshareDot` | crates/smt-engine/src/engine.rs:180-190 | under the default limits: the first 300 events, deduplicated, numbered by first appearance; the edges are exactly `EqEdges` of the kept events; at most 300 edges, no reason boxes, at most 6 literals each, and truncated exactly when the trace is longer |
| `ReasonDot.DefaultDotLimits` | crates/smt-engine/src/reason_dot.rs:20-24 | 300 nodes and 64-byte labels by default |
| `ReasonDot.NodeCap` | crates/smt-engine/src/reason_dot.rs:39-41 | the order holds at most the limit, but always the root, since the limit is checked after a push |
| `ReasonDot.BfsReachable` | crates/smt-engine/src/reason_dot.rs:39-49 | every visited node is reachable from the root |
| `ReasonDot.ClosedHoldsReachable` | crates/smt-engine/src/reason_dot.rs:44-47 | a visit order closed under children holds every node reachable from the root |
| `ReasonDot.VisitedPrefix` | crates/smt-engine/src/reason_dot.rs:46 | the seen set keeps the visit order free of repeats |
| `ReasonDot.EnqueueKids` | crates/smt-engine/src/reason_dot.rs:44-47 | the child loop marks every child seen and queues exactly the unseen ones |
| `ReasonDot.VisitHead` | crates/smt-engine/src/reason_dot.rs:39-49 | one BFS step keeps the search invariant and makes progress |
| `ReasonDot.BfsOrder` | crates/smt-engine/src/reason_dot.rs:30-50 | the visit order starts at the root, has no repeats and respects the cap; each later node is a child of an earlier one, and the first child, in (parent, position) order, not listed before it; when cut short of the cap it is closed under children |
| `ReasonDot.BfsOrderUnique` | crates/smt-engine/src/reason_dot.rs:39-49 | at most one order meets `IsBfsOrder` for a root and a cap, so the description fixes the visit order |
| `ReasonDot.DiamondBfsOrder` | crates/smt-engine/src/reason_dot.rs:39-49 | for a root AND(2, 3) over 2 = AND(0, 1) and 3 = AND(0), the breadth-first order is exactly [4, 2, 3, 0, 1] |
| `ReasonDot.CapKeepsFirstChild` | crates/smt-engine/src/reason_dot.rs:39-49 | with a cap of 2 and a root AND(0, 1), the order is exactly [root, 0]: the cap keeps the first child |
| `ReasonDot.Shapes` | crates/smt-engine/src/reason_dot.rs:62-74 | one shape per visited node, an ellipse for a leaf and a box with the child count for an AND |
| `ReasonDot.KidEdgesMembers` | crates/smt-engine/src/reason_dot.rs:78-83 | one node's edges go to exactly those of its children that were named |
| `ReasonDot.EdgesMembers` | crates/smt-engine/src/reason_dot.rs:76-85 | an edge joins two visited nodes exactly when the second is a child of the first |
| `ReasonDot.NameMap` | crates/smt-engine/src/reason_dot.rs:52-55 | each visited node is named by its position in the visit order |
| `ReasonDot.NamesOfUnique` | crates/smt-engine/src/reason_dot.rs:52-55 | the naming of visited nodes is determined by the visit order |
| `ReasonDot.DrawNodes` | crates/smt-engine/src/reason_dot.rs:62-85 | the two drawing loops emit exactly the specified shapes and edges |
| `ReasonDot.ReasonToDot` | crates/smt-engine/src/reason_dot.rs:30-89 | the node order is the breadth-first order (`IsBfsOrder`, which fixes it), so node `r{i}` and the nodes kept under the cap are determined; the nodes are reachable from the root, capped and complete below the cap, with the specified shapes; an edge exists exactly for each drawn parent-child pair, and the edge list is exactly the specified one, in drawing order and multiplicity |
| `EqShareDot.DefaultEqDotLimits` | crates/smt-engine/src/eqshare_dot.rs:24-28 | 300 events, 6 reason literals and no reason boxes by default |
| `EqShareDot.SeenKeysMembers` | crates/smt-engine/src/eqshare_dot.rs:56-59 | the edge-seen set is exactly the keys of the events read |
| `EqShareDot.KeptFromEvents` | crates/smt-engine/src/eqshare_dot.rs:55-59 | the drawn events are among the events read, and there are no more of them |
| `EqShareDot.KeptDistinct` | crates/smt-engine/src/eqshare_dot.rs:57 | no two drawn events share a key |
| `EqShareDot.KeptCovers` | crates/smt-engine/src/eqshare_dot.rs:56-59 | every event read has its key drawn |
| `EqShareDot.KeptPrefix` | crates/smt-engine/src/eqshare_dot.rs:55-59 | reading more events never removes drawn ones |
| `EqShareDot.NumberingShape` | crates/smt-engine/src/eqshare_dot.rs:61-71 | every endpoint gets a node number, only endpoints get one, and numbers are below the node count |
| `EqShareDot.NumberingInjective` | crates/smt-engine/src/eqshare_dot.rs:61-71 | different terms get different node numbers |
| `EqShareDot.NumberingExtends` | crates/smt-engine/src/eqshare_dot.rs:61 | a term's node number never changes once assigned |
| `EqShareDot.NumberingFirstOccurrence` | crates/smt-engine/src/eqshare_dot.rs:61-71 | terms are numbered in order of first appearance |
| `EqShareDot.EndpointsNumbered` | crates/smt-engine/src/eqshare_dot.rs:61-71 | both endpoints of every event are numbered |
| `EqShareDot.KeptNumbering` | crates/smt-engine/src/eqshare_dot.rs:56-71 | skipping duplicate events leaves the term nodes as if all events were drawn |
| `EqShareDot.EqEdgesMembers` | crates/smt-engine/src/eqshare_dot.rs:61-97 | one edge per drawn event: numbered endpoints, exporter, importer, epoch, reason, at most `max_reason_lits` leading literals of the expansion, truncated exactly when it is longer, and a reason box exactly when they are enabled |
| `EqShareDot.DrawEvent` | crates/smt-engine/src/eqshare_dot.rs:61-97 | drawing one event numbers its endpoints and appends its specified edge |
| `EqShareDot.StepEvent` | crates/smt-engine/src/eqshare_dot.rs:55-98 | one loop turn skips a seen key or draws the event |
| `EqShareDot.DrawEvents` | crates/smt-engine/src/eqshare_dot.rs:55-98 | the event loop yields the specified edges and term nodes of the deduplicated events |
| `EqShareDot.EqShareToDot` | crates/smt-engine/src/eqshare_dot.rs:38-111 | edges and term nodes of the capped, deduplicated trace; at most `max_events` edges; truncated exactly when the trace is longer |
| `EqShareMacros.HasPairExists` | crates/smt-tests/src/eqshare_macros.rs:7-9 | `has_pair` holds exactly when some event matches the direction and the pair in either orientation; so it is false on an empty trace |
| `EqShareMacros.HasDirExists` | crates/smt-tests/src/eqshare_macros.rs:11-13 | `has_dir` holds exactly when some event has that direction; so it is false on an empty trace |
| `EqShareMacros.HasPairSymmetric` | crates/smt-tests/src/eqshare_macros.rs:8 | swapping the pair does not change `has_pair` |
| `EqShareMacros.HasPairImpliesHasDir` | crates/smt-tests/src/eqshare_macros.rs:7-13 | `has_pair` implies `has_dir` for the same direction |
| `EqShareMacros.Dump` | crates/smt-tests/src/eqshare_macros.rs:15-20 | at most 40 events, the leading ones; all of them if there are no more than 40 |
| `EqShareMacros.FirstHopIsFirst` | crates/smt-tests/src/eqshare_macros.rs:97-163 | the `hop_none` search finds a pair exactly when `hop_any` holds, and finds the first candidate that is a hop |
| `EqShareMacros.RoundHasDirIff` | crates/smt-engine/src/engine.rs:119-142 | a round's trace has an s→d event exactly when s exported something, d is another registered theory, and the policy allows s→d |
| `EqShareMacros.BlockedUfToDlHasNoDir` | crates/smt-engine/src/engine.rs:124-129 | with UF→DL off, no round's trace has a UF→DL event |
| `EqShareMacros.RoundHasNoSelfDir` | crates/smt-engine/src/engine.rs:122 | no round's trace has a self-directed event |
| `EqShareMacros.NewEngineSlots` | crates/smt-tests/src/eqshare_macros.rs:22-23 | the test constants UF = 0 and DL = 1 are the engine's own UF and DL slots |

## Left out

- The `as u32` casts of term, sort and reason ids are not modelled. Ids are
  unbounded naturals, and more than 2^32 terms or reasons are assumed not
  to occur.
- Text is left out. The model never renders `eprintln!` lines, DOT text,
  `{:?}` term labels or theory names. Diagnostics are structured values
  (`Diagnostic`), and graphs are structured node and edge lists.
- Hash-map and hash-set iteration order is not modelled. Shared sets, seen
  sets and masks are Dafny sets and maps, so the order of the DOT
  term-node lines is not modelled.
- The `test-debug` build feature is assumed on, so the trace always exists.
  The variants compiled without it are not modelled.
- The process-wide toggle of `test_debug.rs` is not modelled as global
  state. It becomes the constructor's `debugToggle` parameter.
- Theories are abstract records. An export is a function of (oracle view,
  epoch), and an import is recorded in a per-theory log.
- Theories do not push reasons through `TheoryCtx` during a round, and their
  internal state is not modelled.
- The ownership mask is a set of bit positions 0..31 instead of a `u32`.
  `count_ones` is the set's size.
- `Reasons.ReasonArena.Push` requires an AND node's children to be older
  than the node. The source assumes this ordering and never checks it; the
  model needs it for termination of the expansion.
- `ReasonDot.ReasonToDot` does not model the 64-byte literal-label
  truncation, because labels are not rendered.
- `EqShareMacros.Dump` returns the events that would be printed, not the
  joined text lines.
- The `assert_eqshare_*` macros' panics are left out; only their
  conditions are modelled (`HasDir`, `HasPair`, `AnyHop`, `FirstHop`).
- The unsat bundle writer (`unsat_bundle.rs`, file I/O) is not part of this
  model.
- The `smt-api` session wrapper is not part of this model.
- The test helpers in `smt-tests` other than the equality-sharing
  vocabulary are not part of this model.
- The SAT/CDCL search is a stub in the source. `Propagate` always succeeds
  and `CheckSat` runs one round.
- `Context::term_node` panics on an unknown id; the model makes that id a
  precondition.
- `Reasons.ReasonArena.Get` requires its handle to name an arena entry.
  `ReasonArena::get` indexes the arena (reason.rs:28) and panics on an
  out-of-range handle; the model makes that case a precondition.
- `Reasons.ReasonArena.ExpandLits` requires its root handle to be in range.
  The expansion panics in `get` (reason.rs:36) otherwise; the model makes
  that case a precondition.
- `Engine.SmtEngine.EqualitySharingRound` requires `RoundReady()`, which
  makes two panic cases preconditions. Recompute indexes the theory list by
  each atom's theory (shared_terms.rs:40). The first-seen log line expands
  each delivery's reason handle (engine.rs:150).
- `Engine.SmtEngine.CheckSat` requires `RoundReady()` for the same two
  panic cases.
- `Engine.SmtEngine.MaybeRecomputeSharedTerms` requires every atom's theory
  to be registered when it recomputes. Recompute indexes the theory list by
  it (shared_terms.rs:40) and panics otherwise.
- `SharedTerms.SharedTermOracle.Recompute` requires every atom's theory to be
  registered (`AtomsOwned`). The source indexes `theories[th_idx]`
  (shared_terms.rs:40) and panics otherwise.
- `Engine.SmtEngine.EqLineFor` requires the delivery's reason handle to be in
  range. `expand_lits` (engine.rs:150) panics otherwise.
- `Engine.SmtEngine.LogDelivery` requires, when logging is on, the reason
  handle of a delivery it logs to be in range (the panic of engine.rs:150).
- `Engine.SmtEngine.ExchangeEqualities`, like the broadcast methods below it
  (`BroadcastPhase`, `BroadcastOne`, `OfferNext`, `OfferTo`, `Deliver`),
  requires the reason handles of the deliveries it logs to be in range (the
  panic of engine.rs:150).
- `Engine.SmtEngine.DumpEqshareDot` requires the reason handle of every drawn
  event to be in range. `eqshare_to_dot` expands it (eqshare_dot.rs:76) and
  panics otherwise.
- `EqShareDot.EqShareToDot` requires the reason handle of every drawn event
  to be in range (the panic of eqshare_dot.rs:76). `DrawEvents`, `StepEvent`
  and `DrawEvent` require the same of the events they draw.
- `Engine.SmtEngine.DumpConflictReasonDot` requires its root handle to be in
  range. `reason_to_dot` reads every visited node from the arena
  (reason_dot.rs:42, 64) and panics otherwise.
- `ReasonDot.ReasonToDot` and `ReasonDot.BfsOrder` require the root handle
  to be in range, for the same arena reads.
