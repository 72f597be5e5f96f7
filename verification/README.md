# Proofs about ILAng: memory models, unrolling, expression graphs, simulator generation

ILAng models hardware by Instruction-Level Abstractions (ILAs): states, inputs, and instructions with a
decode function and an update function per state. This project models the parts of ILAng whose output is a
formula or a program with a meaning, and proves what they promise. `dafny verify dfyconfig.toml` checks all of it.

## What is modelled

**Weak memory.** `src/mcm` registers the instructions of several ILAs as trace steps with integer timestamps,
gives every shared write of the TSO model a second, global timestamp (its facet), and pushes axioms as formulas.
`Constraints`, `RfCoFr`, `MemoryModels` and `LocalState` build the formulas with the loops of the source and
prove, for every model, what they mean; `Trace` states the axioms; `Machine` defines a store-buffer machine and an
atomic memory as step relations. The main results are that the axioms admit exactly the runs of the machine
(`TsoEquivalence`, `Sc`), how the two models compare (`Compare`), exactly when both ways to link private states
agree (`PrivateState`, `LocalState`), and that the constraints of a whole multi-ILA program (`MultiIla`) are satisfiable
exactly when a machine has a run of it that ends with the property asked for, under TSO and under SC (`MultiRuns`).
`StepReads`, `ThreadRuns` and `ProgramRuns` say what that means for the program itself: which states a step reads, that
linked private states are those of a run of the thread, and that every step decodes, updates and stores as its
instruction does in the state it finds.

**Unrolling and commuting diagrams.** `Unroller` is the unroller with its tables, in three encodings; `Encodings`
proves how they relate, for all lengths, instruction sets and states. `MonoRuns` proves that the selection-bit
encoding of a whole ILA has exactly its runs as models, `PathRuns` the same of the encoding of a path. `Refinement`
and `CommDiag` prove that the equivalence query has no model exactly when the commuting diagram holds for all runs;
`StepChecks` says what the checks that precede the query establish and what they do not, `Latching` exactly when
that is enough; `DiagramExample` has two ILAs that meet all hypotheses.

**Expression graphs.** `HashCons` mutates shared nodes in place; `Rewriter` and `RewritePass` keep a memo table, and
no expression they leave has a redex (`Redexes`) of the pass, with an exact condition where one can stay;
`Serializer`, `Deserializer` and `RoundTrip` write a hierarchy as a JSON document and read it back.

**Refinement maps and simulator generation.** `RfExprs` is the two-stack traversal with quantifier expansion,
`Clocks` the clock expansion, `Ilator` and `IlatorUpdates` a generator of update functions, proved correct against
simultaneous update (`CxxCode` defines the generated code and how it runs).

All parts share one expression datatype and evaluator (`Ast`). A formula is a predicate over assignments, a solver
call is the truth of that predicate, and simplification is the identity on meaning.

## Model

| member | source | states |
|---|---|---|
| `Trace.ValueRuleIsRfCoFr` | src/mcm/tso_manual.cc:147-225 | the source the RF_CO_FR axiom names for a read is the write of the Value axiom (Appendix K of The SPARC Architecture Manual, Version 8), and no competing write of another core becomes global at the very time of the read: both directions |
| `Trace.ValueRuleUnique` | src/mcm/tso_manual.cc:265-291 | at most one write satisfies the Value rule for a read: the strict maximum in the order of global performance |
| `TsoMachine.SourceObeysValueRule` | src/mcm/tso_manual.cc:265-291 | in every run of the store-buffer machine the write a load is served from (newest own buffered one, else the last one in memory) is the one the Value rule picks under the run's timestamps |
| `TsoEquivalence.RunSatisfiesAxioms` | src/mcm/tso_manual.cc:145-250 | every complete run of the store-buffer machine, numbered 1..n, satisfies all five axioms and program order |
| `TsoEquivalence.AxiomsAccept` | src/mcm/tso_manual.cc:145-250 | if the numbering of a sequence of events satisfies the axioms, every event was enabled when it was taken |
| `TsoEquivalence.RunsAreNumberedExecutions` | src/mcm/tso_manual.cc:145-250 | a sequence of all events is a complete machine run if and only if its numbering satisfies the axioms and follows program order |
| `TsoEquivalence.NumberingKeepsAxioms` | src/mcm/tso_manual.cc:145-250 | replacing timestamps that satisfy the axioms by the positions in any order that extends them keeps the axioms, however ties are broken |
| `TsoEquivalence.AxiomsLinearise` | src/mcm/tso_manual.cc:145-250 | every order of the events that extends timestamps satisfying the axioms is a complete run of the machine |
| `TsoEquivalence.LinearisationExists` | src/mcm/tso_manual.cc:145-250 | some order of all events extends any given timestamps |
| `TsoEquivalence.TsoIsStoreBufferMachine` | src/mcm/tso_manual.cc:145-291 | the constraints are satisfiable with given values if and only if a complete run of the store-buffer machine produces them |
| `Sc.ScIsAtomicMemory` | src/mcm/sc_manual.cc:102-166 | the SC axiom holds for an assignment if and only if every order extending the timestamps replays on one memory and the timestamps alone fix the latest write of every read |
| `Sc.ReplayAloneIsNotEnough` | src/mcm/sc_manual.cc:102-154 | the second conjunct is needed: with a write and a read of equal value at one time every order replays and the axiom fails |
| `Sc.InterleavingSatisfiesSc` | src/mcm/sc_manual.cc:102-166 | an interleaving replays on one memory if and only if its numbering 1..n satisfies the axiom |
| `Sc.ScIsInterleaving` | src/mcm/sc_manual.cc:102-166 | the SC constraints are satisfiable with given values if and only if an interleaving in program order replays them |
| `Compare.RmwDrainsBuffer` | src/mcm/tso_manual.cc:205-248 | all program-earlier writes of the core are globally performed before an RMW step |
| `Compare.RmwIsAtomic` | src/mcm/tso_manual.cc:147-248 | no other decoded write to the place an RMW reads becomes global between the write it reads from and its own write |
| `Compare.ScGivesTso` | src/mcm/tso_manual.cc:197-249 | with facets placed strictly between a write and every later step (at the step for RMW) the SC axiom implies all TSO axioms |
| `Compare.ScAllowedIsTsoAllowed` | src/mcm/sc_manual.cc:102-166 | every program outcome SC allows, TSO allows |
| `Compare.FencedTsoIsSc` | src/mcm/tso_manual.cc:197-249 | if each non-RMW write is followed by a fence or RMW before a later read of its core, and no non-RMW step reads and writes, moving every write to its facet turns a TSO execution into an SC one |
| `Compare.FencedKeepsProgramOrder` | src/mcm/tso_manual.cc:226-240 | the moved timestamps still follow the program order of the reads, writes and fences of a core |
| `Compare.FencedAtEndIsSc` | src/mcm/sc_manual.cc:102-166 | for such programs, with or without a final step, SC allows exactly the outcomes TSO allows with every store global before a final step reads |
| `Compare.FencedModelsAgree` | src/mcm/sc_manual.cc:102-166 | without a final step TSO and SC allow the same outcomes of such programs |
| `Compare.FinalStepMissesStore` | src/mcm/tso_manual.cc:112-116 | with one they need not: the final step comes after all steps but not after their facets, and a fenced program whose final step reads the initial value while a store is buffered is allowed by TSO and not by SC |
| `Constraints.ForallList` | src/mcm/axiom_helper.cc:80-92 | the formula holds in a model if and only if all conjuncts do; true for none |
| `Constraints.ExistsList` | src/mcm/axiom_helper.cc:95-107 | the formula holds if and only if some disjunct does; false for none |
| `Constraints.MemVarSameAddress` | src/mcm/axiom_helper.cc:158-215 | for every model, what the pairing loops say of the addresses of two accesses, with the early exits and the read-read case that is always true |
| `Constraints.MemVarSameData` | src/mcm/axiom_helper.cc:217-329 | for every model, what the pairing says of the words of two steps: writes against the loads of the other side in both directions, two writes or all loads only when there is no such pair, and against the initial memory for the initial step |
| `Constraints.SameAddressF` | src/mcm/axiom_helper.cc:362-433 | true for a register or the initial step, otherwise the pairing under the hints |
| `Constraints.SameDataF` | src/mcm/axiom_helper.cc:435-559 | the value equation for a register, the pairing of addresses and data for a memory |
| `Constraints.AddressMeaning` | src/mcm/axiom_helper.cc:362-433 | for a registered write and read, SameAddress in either argument order means what the axioms' relation on accesses says |
| `Constraints.DataMeaning` | src/mcm/axiom_helper.cc:492-559 | SameData means that the read has the data of the write wherever they have one address |
| `Constraints.SpecialNames` | src/mcm/tso_manual.cc:80-91 | the instructions called fence, Fence or FENCE are fences, those called atomic_add or atomic_and RMWs, and no other is either |
| `StepReads.ReadSetMeaning` | src/mcm/memory_model.cc:37-47 | a step reads exactly the variables that its decode or the value of an update mentions (for the final step, the property) |
| `StepReads.LoadsMeaning` | src/mcm/axiom_helper.cc:28-68 | the loads of a step from a memory are exactly the LOADs of it that occur in its decode or its updates, with their addresses |
| `StepReads.BaseIsNoUse` | src/mcm/ast_helper.cc:18-36 | what a store to a variable reads decides its value if and only if the variable is mentioned in the address or the data: the search skips the variable that a STORE changes |
| `StepReads.WriteIsUpdate` | src/mcm/axiom_helper.cc:513-556 | the access of a write is the value of the update: the register's new value, or the one word in which the memory differs from what it was |
| `RfCoFr.KindMeaning` | src/mcm/tso_manual.cc:265-291 | with RF, FR and CO of one or the other model the axiom is that of SC or of TSO |
| `RfCoFr.CompetitorsF` | src/mcm/tso_manual.cc:159-176 | the inner loop over WRITE_list: every model satisfies the formula if and only if no other decoded same-address write interferes |
| `RfCoFr.SourceF` | src/mcm/tso_manual.cc:177-185 | the formula for one candidate write holds exactly in the models where the read takes its value from it |
| `RfCoFr.ReadF` | src/mcm/tso_manual.cc:153-187 | the loop over WRITE_list: some write is the source of the read |
| `RfCoFr.RfCoFrF` | src/mcm/tso_manual.cc:147-196 | the three outer loops: the pushed formula holds exactly in the models that satisfy the RF_CO_FR axiom |
| `MemoryModels.WriteFacetOrderF` | src/mcm/tso_manual.cc:197-204 | every pure write is before its facet |
| `MemoryModels.StoreF` | src/mcm/tso_manual.cc:205-225 | two writes of one core become global in the order they are issued |
| `MemoryModels.FenceF` | src/mcm/tso_manual.cc:226-241 | a write before a fence of its core is global before the fence |
| `MemoryModels.RmwF` | src/mcm/tso_manual.cc:242-248 | an RMW step and its facet have one timestamp |
| `MemoryModels.Tso.RegisterStep` | src/mcm/tso_manual.cc:32-93 | the step becomes a read if its decode or an update mentions a shared state, a write if it updates one, a fence or an RMW by its name, and nothing else; its timestamp and that of its facet are constrained to be positive |
| `MemoryModels.Tso.RegisterSteps` | src/mcm/tso_manual.cc:29-94 | all instructions of one ILA, in order, with positions from 1 |
| `MemoryModels.Tso.FinishRegisterSteps` | src/mcm/tso_manual.cc:96-110 | the initial step becomes a write, after the pure writes have been fixed without it |
| `MemoryModels.FinalF` | src/mcm/tso_manual.cc:112-129 | the formulas for a final step hold in the models that order it after every registered step and give it the property, and in no other |
| `MemoryModels.Tso.SetFinalProperty` | src/mcm/tso_manual.cc:112-129 | the final step is constrained to come after every registered step (not after the facets) and to satisfy the property |
| `MemoryModels.Tso.ApplyAxioms` | src/mcm/tso_manual.cc:145-250 | a model of well-timed steps satisfies the pushed formulas if and only if its timestamps and values satisfy the TSO axioms |
| `MemoryModels.Sc.RegisterSteps` | src/mcm/sc_manual.cc:28-55 | the same registration without facets |
| `MemoryModels.Sc.FinishRegisterSteps` | src/mcm/sc_manual.cc:57-68 | the initial step becomes a write |
| `MemoryModels.Sc.SetFinalProperty` | src/mcm/sc_manual.cc:70-88 | the same final step under SC |
| `MemoryModels.Sc.ApplyAxioms` | src/mcm/sc_manual.cc:102-154 | a model satisfies the pushed formula if and only if it satisfies the SC axiom |
| `PrivateState.CarryIsLastDecoded` | src/mcm/memory_model.cc:383-447 | with linked reads, the value the table of last updates holds at a read or at the end is that of the last decoded update |
| `PrivateState.LinkingsAgree` | src/mcm/memory_model.cc:377-620 | timestamps in program order, and every writing step that neither decodes nor reads the state is overwritten by a decoded one before anything reads it: the ordered and the unordered linking accept the same values |
| `PrivateState.LinkingsAgreeExactly` | src/mcm/memory_model.cc:377-620 | for steps with given accesses, decoding and order: the two linkings agree on all values if and only if that is so |
| `PrivateState.SettledLinkingsAgree` | src/mcm/memory_model.cc:377-620 | a condition on each step by itself: if every step that writes the state decodes or reads it, the linkings accept the same values |
| `PrivateState.OverwrittenIsCovered` | src/mcm/memory_model.cc:412-426 | that condition is stronger than needed: an undecoded write that a later decoded one overwrites meets the exact one |
| `PrivateState.LooseWriterInventsValue` | src/mcm/memory_model.cc:416-426 | one such step at the end that nothing overwrites: the ordered linking accepts any final value, the unordered one only the right one |
| `LocalState.RecordWrites` | src/mcm/memory_model.cc:413-426 | after a step the table holds, for every private state, an expression for its last update |
| `LocalState.SetOrdered` | src/mcm/memory_model.cc:377-448 | the constraints hold exactly in the models where all reads and the final values are linked to the last update and the steps are chained |
| `LocalState.CollectDefines` | src/mcm/memory_model.cc:462-479 | the list of a state holds exactly its initial value and the updates of the steps that write it |
| `LocalState.SetUnordered` | src/mcm/memory_model.cc:451-620 | the constraints hold exactly in the models where every read, and the final value, has an undisturbed decoded writer |
| `LocalState.LocalStatesAgree` | src/mcm/memory_model.cc:362-625 | on the pushed constraints: a model chained in program order in which such steps are overwritten satisfies the ordered ones if and only if it satisfies the unordered ones |
| `LocalState.LinesCovered` | src/mcm/memory_model.cc:397-426 | a state of a list of steps meets the condition if and only if the values a model gives to the steps do |
| `ThreadRuns.LinkedIsRun` | src/mcm/memory_model.cc:377-448 | if every loose write is overwritten and the updates of private states are decided by what the instructions mention, ordered linking means exactly that the steps are chained, that every private state a step mentions has the value left by executing all earlier instructions from the initial state, and that the final values are those after all |
| `ThreadRuns.SearchedIsRun` | src/mcm/memory_model.cc:451-620 | the same of unordered linking at distinct times, for the instructions in the order of their timestamps, and without the condition on loose writes |
| `MultiIla.UnrollTso` | src/mcm/inter_ila_unroller.cc:115-149 | registration, final property, axioms and linking of all ILAs, ordered or not: a model satisfies all pushed constraints if and only if it is positive, satisfies the TSO axioms, links all private states and, with a property, ends in a last step that has it |
| `MultiIla.UnrollSc` | src/mcm/inter_ila_unroller.cc:115-149 | the same for the SC model: positive timestamps, the SC axiom, the links of all private states and the property |
| `MultiRuns.EndStateMeaning` | src/mcm/axiom_helper.cc:42-64 | an expression whose shared memories occur only under LOAD has the same value in a final step as in the state that holds the memory its loads found |
| `MultiRuns.FinalReadsMemory` | src/mcm/tso_manual.cc:112-129 | in every run of the store-buffer machine a final step comes after all other steps have been issued and finds the contents of memory then, with stores possibly still buffered |
| `MultiRuns.SatisfiableIsRunnable` | src/mcm/inter_ila_unroller.cc:115-149 | for ordered ILAs the TSO constraints, with or without a final property, are satisfiable with given values if and only if the private states are linked and the store-buffer machine has a complete run with the values whose final step finds a memory with the property |
| `MultiRuns.ScSatisfiableIsRunnable` | src/mcm/inter_ila_unroller.cc:115-149 | the SC constraints are so if and only if the private states are linked and some interleaving in program order replays the values and ends in a memory with the property |
| `MultiRuns.PartIsOfMemory` | src/mcm/axiom_helper.cc:28-68 | whatever a step evaluates (decode, updates, addresses and data of its stores) has the same value as in the state that holds the shared memory its loads found |
| `ProgramRuns.OrderedThreadIsRun` | src/mcm/memory_model.cc:377-448 | on the constraints of a program: an ordered ILA is linked if and only if its steps follow one another and the run of its instructions |
| `ProgramRuns.UnorderedThreadIsRun` | src/mcm/memory_model.cc:451-620 | an unordered ILA is linked if and only if its steps follow the run of its instructions in the order of the timestamps |
| `ProgramRuns.SatisfiableIsExecuted` | src/mcm/inter_ila_unroller.cc:115-149 | the TSO constraints of ordered ILAs are satisfiable with given values if and only if every thread follows the run of its instructions and the store-buffer machine has a complete run with these values that ends with the property |
| `ProgramRuns.ScSatisfiableIsExecuted` | src/mcm/inter_ila_unroller.cc:115-149 | the same under SC, for an interleaving in program order on one memory |
| `ProgramRuns.StepIsTakenInRun` | src/mcm/tso_manual.cc:145-291 | in such a run every decode, update, address and data of a step has in the model the value it has in the state the step finds: the private states its thread left, and memory as its core sees it when the step is issued |
| `ProgramRuns.StepIsTakenInMemory` | src/mcm/sc_manual.cc:102-166 | the same in an interleaving on one memory |
| `ProgramRuns.StoreIsTaken` | src/mcm/tso_manual.cc:145-291 | when a step becomes global it changes memory as its instruction does in the state in which it was taken: the register or the one word its update gives if it decodes there, and nothing otherwise |
| `ProgramRuns.RunStartsInitially` | src/mcm/tso_manual.cc:96-110 | a run starts with the shared states of the initial step |
| `ProgramRuns.StoreIsLinked` | src/mcm/memory_model.cc:397-426 | exactly when linking keeps a store to a private memory: a thread of one store follows its run in every model that links it if and only if the instruction mentions the memory or never decodes; otherwise some model of the constraints changes other words of the memory |
| `Frames.GetExprMeaning` | src/ila-mngr/u_unroller.cc:60-66 | a translated expression means in an assignment what the expression means in the frame |
| `Frames.SubstituteMeaning` | src/ila-mngr/u_unroller.cc:286-296 | substituting terms for framed variables is evaluating in the updated assignment |
| `Unrollers.IExprToZExpr` | src/ila-mngr/u_unroller.cc:277-284 | the appended terms say that all expressions hold in the frame |
| `Unrollers.IExprToZExprSubst` | src/ila-mngr/u_unroller.cc:286-296 | the appended terms say that all expressions hold in the frame seen through the substitution |
| `Unrollers.AssertEqual` | src/ila-mngr/u_unroller.cc:264-273 | the appended equations say that the frame has the values of the terms |
| `Unrollers.ConjPred` | src/ila-mngr/u_unroller.cc:305-312 | the result is true if and only if every collected constraint is |
| `Unrollers.Unroller.BootStrap` | src/ila-mngr/u_unroller.cc:231-262 | tables and constraints are reset, and the substitution starts from the frame variables |
| `Unrollers.Unroller.PathTransition` | src/ila-mngr/u_unroller.cc:353-370 | the tables hold the decode of the step's own instruction and, for every variable, its update, the variable itself without one |
| `Unrollers.Unroller.MonoTransition` | src/ila-mngr/u_unroller.cc:418-495 | the tables hold, for all variables, the accumulated decode and update constraints and the one-hot constraints |
| `Unrollers.Unroller.OneHotAtMostOne` | src/ila-mngr/u_unroller.cc:484-494 | the pairwise constraints of the instruction selectors |
| `Unrollers.Unroller.UnrollAssn` | src/ila-mngr/u_unroller.cc:130-169 | the result is satisfied by exactly the assignments that satisfy all predicates in all frames and equate consecutive frames |
| `Unrollers.Unroller.UnrollNone` | src/ila-mngr/u_unroller.cc:171-204 | the same with a next-state frame per step and nothing between the steps |
| `Unrollers.Unroller.UnrollSubs` | src/ila-mngr/u_unroller.cc:79-128 | the result is satisfied by exactly the assignments whose substituted frames satisfy all predicates and whose last one is the end frame |
| `Encodings.AssnGivesSubs` | src/ila-mngr/u_unroller.cc:79-169 | every model of UnrollAssn from 0 satisfies UnrollSubs |
| `Encodings.SubsGivesAssn` | src/ila-mngr/u_unroller.cc:79-169 | every model of UnrollSubs from 0, extended by its substituted frames, satisfies UnrollAssn |
| `Encodings.ExtensionIsUnique` | src/ila-mngr/u_unroller.cc:79-169 | that extension over the intermediate frames is the only one |
| `Encodings.SubsIsAssnProjected` | src/ila-mngr/u_unroller.cc:79-169 | UnrollSubs holds of an assignment if and only if some extension over the intermediate frames satisfies UnrollAssn |
| `Encodings.NoneLinkedIsAssn` | src/ila-mngr/u_unroller.cc:130-204 | with next(i) = curr(i+1), UnrollNone and the end-frame predicates together are equivalent to UnrollAssn |
| `Ila.CompletedMeaning` | src/ila-mngr/u_unroller.cc:206-209 | the completed update gives the value of the update that the instruction has for the state, and the old value if it has none |
| `PathRuns.PathEncodingIsRuns` | src/ila-mngr/u_unroller.cc:353-370 | for all paths: a sequence of states is shown by some model of the encoding if and only if instruction i decodes in state i and state i+1 is the result of executing it, under the predicates of the user |
| `PathRuns.SubsIsPathRun` | src/ila-mngr/u_unroller.cc:79-128 | the substituted encoding of a path holds of an assignment if and only if some such run has its first, its last and its other values |
| `PathRuns.PathAssn` | src/ila-mngr/u_unroller.cc:328-332 | the term returned for a path, frame by frame, describes exactly its runs |
| `PathRuns.PathSubs` | src/ila-mngr/u_unroller.cc:322-326 | so does the substituted one, on the assignments of its first and last frame |
| `MonoRuns.MonoPredsMeaning` | src/ila-mngr/u_unroller.cc:443-494 | what the pushed step predicates say: per variable the decode and update clauses, and the one-hot constraints |
| `MonoRuns.ExactlyOneSelector` | src/ila-mngr/u_unroller.cc:476-494 | in every model exactly one selector is true, although the at-most-one loop does not mention the dummy |
| `MonoRuns.ModelIsRun` | src/ila-mngr/u_unroller.cc:130-169 | a model of the encoding shows a run of the ILA: in each step some decoded instruction completes its updates, or none decodes and all states stay |
| `MonoRuns.RunIsModel` | src/ila-mngr/u_unroller.cc:130-169 | every run of the ILA has a model |
| `MonoRuns.EncodingIsRuns` | src/ila-mngr/u_unroller.cc:418-495 | for all lengths: a sequence of states is shown by some model of the k-step encoding from frame 0 if and only if it is a run |
| `MonoRuns.MonoAssn` | src/ila-mngr/u_unroller.cc:386-390 | the term the unroller returns for a whole ILA describes exactly the runs of `len` steps |
| `Refinement.FlushRunIsMonoRun` | src/ila-mngr/v_eq_check_crr.cc:820-834 | the unrolled flushing problem has exactly the flushing runs under the invariants as runs |
| `Refinement.OneRepresentative` | src/ila-mngr/v_eq_check_crr.cc:836-848 | if a path completes at exactly one step, path and marks hold if and only if the representative state is the state of that step |
| `Refinement.QueryModelBreaksDiagram` | src/ila-mngr/v_eq_check_crr.cc:74-82 | a model of the query yields two pairs of runs whose diagram does not commute |
| `Refinement.BrokenDiagramIsQueryModel` | src/ila-mngr/v_eq_check_crr.cc:74-82 | two pairs of runs whose diagram does not commute, merged into one assignment, are a model of the query |
| `Refinement.QueryIsDiagram` | src/ila-mngr/v_eq_check_crr.cc:30-83 | if all admissible flushing runs complete exactly once, the query is unsatisfiable if and only if the diagram commutes for all runs |
| `Refinement.PathsOnceGiveRunsOnce` | src/ila-mngr/v_eq_check_crr.cc:602-671 | if every unrolled path completes exactly once, so does every admissible pair of runs |
| `StepChecks.OrigIsFlush` | src/ila-mngr/v_eq_check_crr.cc:605-612 | the problem with a global flush condition has the models of the flushing problem from position 0 |
| `StepChecks.ApplIsFlush` | src/ila-mngr/v_eq_check_crr.cc:643-653 | the problem with an initial apply predicate has the models of the flushing problem from position 1 that start with an apply |
| `StepChecks.OnceSplits` | src/ila-mngr/v_eq_check_crr.cc:623-637 | exactly once is at least once and at most once |
| `StepChecks.PassedOrigIsOnce` | src/ila-mngr/v_eq_check_crr.cc:623-637 | a passed check means exactly-once completion if and only if no path completes twice |
| `StepChecks.PassedApplIsOnce` | src/ila-mngr/v_eq_check_crr.cc:656-670 | the same for the paths that start with an apply |
| `Latching.LatchIsExact` | src/ila-mngr/v_eq_check_crr.cc:602-671 | no flushing run, however long, from a state in which the checks start to flush completes twice, if and only if a latch exists: a set of states that flushing keeps and a mark that a completion sets, that flushing keeps and that excludes another completion, three conditions on single states and steps |
| `Latching.LatchIsExactWhenReached` | src/ila-mngr/v_eq_check_crr.cc:602-671 | if every flushing state is reached by such a run, if and only if there is such a mark on all states |
| `Latching.PathsLatch` | src/ila-mngr/v_eq_check_crr.cc:602-671 | the same of what the checks unroll: for all numbers of steps no path of either kind completes twice, if and only if a latch exists |
| `Latching.PassedAndLatched` | src/ila-mngr/v_eq_check_crr.cc:602-671 | with a latch, passed checks give what the query relies on: all admissible pairs of runs complete exactly once |
| `DiagramExample.PassedAndTwice` | src/ila-mngr/v_eq_check_crr.cc:625-670 | an ILA with instructions for which both checks pass although on both sides a path completes twice, for every number of steps |
| `DiagramExample.EqualBitsCommute` | src/ila-mngr/v_eq_check_crr.cc:30-83 | two ILAs with instructions on each side that meet every hypothesis of the theorem for all numbers of steps, with related runs, and for which the query has no model |
| `DiagramExample.SetBitBreaks` | src/ila-mngr/v_eq_check_crr.cc:30-83 | the same two ILAs with a relation that does not commute: the query has a model |
| `CommutingDiagram.AtLeastOnce` | src/ila-mngr/v_eq_check_crr.cc:798-805 | true if and only if the path completes somewhere in range |
| `CommutingDiagram.AtMostOnce` | src/ila-mngr/v_eq_check_crr.cc:807-818 | true if and only if it does not complete at two positions in range |
| `CommutingDiagram.CommDiag.CheckStepOrig` | src/ila-mngr/v_eq_check_crr.cc:602-638 | the formulas of the two queries; the second is asked with the first still in the solver, so both are unsatisfiable if and only if every path completes at least once |
| `CommutingDiagram.CommDiag.CheckStepAppl` | src/ila-mngr/v_eq_check_crr.cc:640-671 | the same for the unrolling that starts with an apply |
| `CommutingDiagram.CommDiag.GenInit` | src/ila-mngr/v_eq_check_crr.cc:710-722 | equal states, one side about to apply and the other flushing |
| `CommutingDiagram.CommDiag.UnrollFlush` | src/ila-mngr/v_eq_check_crr.cc:820-853 | the result is satisfied by exactly the flushing unrollings whose completing steps have the representative state |
| `CommutingDiagram.CommDiag.GenTranRel` | src/ila-mngr/v_eq_check_crr.cc:724-730 | initial condition and both unrollings of one side |
| `CommutingDiagram.CommDiag.EqCheck` | src/ila-mngr/v_eq_check_crr.cc:48-82 | the three formulas given to the solver: the transition relations, and a query that has no model if and only if the diagram commutes |
| `HashCons.UnfoldIsTree` | src/ila/hash_ast.cc:32-53 | in a graph with in-place arguments every node unfolds to the tree it was built for |
| `HashCons.SameTreeSameHash` | src/ila/hash_ast.cc:55-109 | nodes whose arguments are representatives have one hash if and only if they are one tree |
| `HashCons.RepsAreUnique` | src/ila/hash_ast.cc:21-53 | no two representatives are structurally equal |
| `HashCons.ExprMngr.Visit` | src/ila/hash_ast.cc:32-53 | the arguments are replaced by their representatives and the node is entered if its hash is new; nodes that were done keep their arguments |
| `HashCons.ExprMngr.DepthFirstVisit` | include/ilang/ila/ast/expr.h:100-106 | all nodes below are visited, no node above is changed, and no entry of the table is lost |
| `HashCons.ExprMngr.GetRep` | src/ila/hash_ast.cc:21-30 | the in-place replacement changes what no node unfolds to; the result is a representative of the same tree; a representative is its own |
| `HashCons.TopEq` | src/ila/ast_hub.cc:390-395 | true if and only if the two nodes unfold to the same tree |
| `HashCons.TableGrows` | src/ila/hash_ast.cc:21-53 | the table of a graph is one of every larger graph, and no node unfolds to anything else there: nodes may be built between two calls |
| `HashCons.UnifyNew` | src/ila/instr_lvl_abs.cc:299-301 | a node built on the graph and unified: its representative stands for the new tree, and nothing said of older nodes changes |
| `Rewriter.IdenticalBranches` | src/ila-mngr/p_rewrite_conditional_store.cc:41-46 | pattern 0 keeps sort and value in all environments |
| `Rewriter.StoreOrKeep` | src/ila-mngr/p_rewrite_conditional_store.cc:50-61 | pattern 1, store in the first branch, likewise |
| `Rewriter.KeepOrStore` | src/ila-mngr/p_rewrite_conditional_store.cc:63-74 | pattern 1, store in the second branch, likewise |
| `Rewriter.StoreEither` | src/ila-mngr/p_rewrite_conditional_store.cc:76-88 | pattern 2, two stores to one memory, likewise |
| `Rewriter.LoadFromStore` | src/ila-mngr/p_rewrite_store_load.cc:41-52 | loading from a single store keeps sort and value in all environments |
| `Rewriter.CondMemReplaces` | src/ila-mngr/p_rewrite_conditional_store.cc:29-105 | whichever pattern applies, the result can stand for the expression, provided the table is sound |
| `Rewriter.LoadReplaces` | src/ila-mngr/p_rewrite_store_load.cc:27-72 | the same for the load rewriter |
| `Rewriter.ResultIsCondFree` | src/ila-mngr/p_rewrite_conditional_store.cc:41-88 | for every expression: in the result no memory ITE has equal branches, a branch that stores to the other one (a variable or constant), or two stores to one memory |
| `Rewriter.ResultIsLoadFree` | src/ila-mngr/p_rewrite_store_load.cc:34-52 | for every expression: in the result no LOAD is from a STORE to a variable or constant, if and only if the expression has no such LOAD in the address of a load from a variable or constant |
| `Rewriter.AddressIsMissed` | src/ila-mngr/p_rewrite_store_load.cc:34-37 | such an address: the pass returns the expression unchanged |
| `Rewriter.RewritingAchieves` | src/ila-mngr/u_rewrite_expr.cc:11-37 | rewriting does what its pass is for: no memory ITE is left that a pattern could merge; no LOAD from a STORE to a variable or constant is left, if and only if none stands in the address of a load from a variable or constant |
| `Rewriter.FuncObjRewrExpr.Post` | src/ila-mngr/u_rewrite_expr.cc:23-28 | the table is extended by the result of the simple recursion for the node, and by nothing else |
| `Rewriter.FuncObjRewrExpr.DepthFirstVisitPrePost` | include/ilang/ila/ast/expr.h:110-122 | every entry of the table is what the simple recursion gives for its key; no entry is redefined, and what is added is not larger than the expression |
| `Rewriter.FuncObjRewrExpr.Rewr` | src/ila-mngr/u_rewrite_expr.cc:11-15 | memoised rewriting gives the result of rewriting the tree from its leaves; it can stand for the original in all environments and has no redex of the pass left (for loads, exactly if there is none in the address of a load from a variable or constant) |
| `Rewriter.RewriteIsRewritten` | src/ila-mngr/u_rewrite_expr.cc:11-37 | through a table of results a node is rewritten as the simple recursion rewrites it |
| `RewritePass.RewriteInstr` | src/ila-mngr/p_rewrite_generic.cc:32-39 | decode and updates of an instruction become their rewritten forms |
| `RewritePass.RewriteGeneric` | src/ila-mngr/p_rewrite_generic.cc:12-48 | every decode, update, valid and fetch of the hierarchy has been rewritten at least once (once per occurrence), and nothing else has changed |
| `RewritePass.RunPass` | src/ila-mngr/p_rewrite_conditional_store.cc:109-110 | a whole pass, from an empty table: every decode, update, valid and fetch in the hierarchy has been rewritten, can stand for what it was, and has no redex of the pass left (for loads under the exact condition) |
| `RewritePass.TransitionKept` | src/ila-mngr/p_rewrite_generic.cc:28-40 | the rewritten instructions allow exactly the same steps from every well-typed state |
| `Serializer.I2JSer.SerExprUnit` | src/target-json/ila_to_json_serializer.cc:160-228 | a node is appended once: ids stay unique and arguments come before their users |
| `Serializer.I2JSer.SerExpr` | src/target-json/ila_to_json_serializer.cc:120-132 | all nodes of the expression are in the array, and the array only grows |
| `Serializer.I2JSer.SerInstr` | src/target-json/ila_to_json_serializer.cc:230-255 | decode and, under the name of every state and no other, the id of the update the instruction has for it, or of the state itself if it has none |
| `JsonDoc.DocInstrIsWritten` | src/target-json/ila_to_json_serializer.cc:241-252 | the object of an instruction has for every state the id of its update, or of the state without one |
| `JsonDoc.ForgetIsExact` | src/target-json/ila_to_json_serializer.cc:160-228 | what is kept of two nodes is equal if and only if they are one tree up to ids: operators, parameters, sorts, values, hosts and names included |
| `Serializer.I2JSer.SerInstrLvlAbsNoAst` | src/target-json/ila_to_json_serializer.cc:257-321 | the JSON object of the hierarchy; all its nodes are in the array, each ILA's own variables in their order |
| `Serializer.I2JSer.SerInstrLvlAbs` | src/target-json/ila_to_json_serializer.cc:33-51 | the document, whose array has unique ids and every argument before its user |
| `ReadBack.NewIsFirst` | src/ila/instr_lvl_abs.cc:229-242 | after a new child has been created the hierarchy read so far is as it should be: the child has what it inherits and nothing else, its parent one child more, all others what they had |
| `Deserializer.J2IDes.DesVarUnit` | src/target-json/json_to_ila_deserializer.cc:377-431 | exactly the unread variables the ILA lists are created, in the order of the array |
| `Deserializer.J2IDes.DesVarHier` | src/target-json/json_to_ila_deserializer.cc:433-449 | for a written hierarchy: every ILA below has the variables of the original, and nothing else has changed but the parent's list of children |
| `Deserializer.J2IDes.DesExprs` | src/target-json/json_to_ila_deserializer.cc:40-44 | after the loop every id of the array maps to its node's expression |
| `Deserializer.J2IDes.DesInstr` | src/target-json/json_to_ila_deserializer.cc:451-475 | decode and, for every state of the host, the update found under its name |
| `Deserializer.J2IDes.DesIlaUnit` | src/target-json/json_to_ila_deserializer.cc:477-520 | the ILA gets the fetch (by default the one-bit constant 1), valid, instructions and initial conditions of the original |
| `Deserializer.J2IDes.DesIlaHier` | src/target-json/json_to_ila_deserializer.cc:522-531 | the same for all ILAs below |
| `Deserializer.J2IDes.DesInstrLvlAbs` | src/target-json/json_to_ila_deserializer.cc:26-55 | the whole hierarchy is read back |
| `ReadBack.ScanIsOwn` | src/target-json/json_to_ila_deserializer.cc:397-431 | inherited variables followed by the scanned ones are the original lists, in their order |
| `ReadBack.NodeReads` | src/target-json/json_to_ila_deserializer.cc:108-155 | with arguments before their users, entry n can be read and gives its node's expression |
| `ReadBack.InstrIsRead` | src/target-json/json_to_ila_deserializer.cc:451-475 | an instruction of the document is read as the original one |
| `RoundTrip.WriteAndRead` | src/target-json/json_to_ila_deserializer.cc:26-55 | writing a hierarchy and reading the document gives, for every ILA, the same variables in order, fetch (the one-bit constant 1 if there is none), valid and initial conditions, and for every instruction its decode and, for every state, its update or the state itself if it has none; and no other ILA |
| `RfExprs.ReplaceIsBind` | src/rfmap-in/rfmap_typecheck.cc:718-756 | replacing the free occurrences of a variable by a constant is evaluating with the variable bound, whatever is shadowed |
| `RfExprs.RangeIsWords` | src/rfmap-in/rfmap_typecheck.cc:774-777 | the values a quantified variable ranges over are the numbers that words of its width have |
| `RfExprs.QuantifierInstantiation` | src/rfmap-in/rfmap_typecheck.cc:759-795 | the loop joins the 2^width instances, later ones first |
| `RfExprs.InstancesMeaning` | src/rfmap-in/rfmap_typecheck.cc:776-793 | the joined instances are true if and only if all (FORALL) or some (EXIST) instances are; two or more have value 0 or 1 whatever the body |
| `RfExprs.ExpandTopMeaning` | src/rfmap-in/rfmap_typecheck.cc:759-795 | expanding one quantifier keeps its value if and only if it has bits or its only instance is 0 or 1 |
| `RfExprs.TraverseRfExpr` | src/rfmap-in/rfmap_typecheck.cc:872-903 | the loop over the two stacks ends, and its result is the bottom-up application of the function |
| `RfExprs.ExpandedMeaning` | src/rfmap-in/rfmap_typecheck.cc:811-819 | expanding bottom-up keeps the value in every environment, with nested and shadowed quantifiers of any width; only the bodies of quantifiers without bits have to be Boolean |
| `RfExprs.ExpandedIsFree` | src/rfmap-in/rfmap_typecheck.cc:811-819 | the expanded expression has no quantifier |
| `RfExprs.FindExpandQuantifier` | src/rfmap-in/rfmap_typecheck.cc:811-819 | the result is quantifier free and has the value of the input in every environment, if the bodies of quantifiers without bits are Boolean |
| `Clocks.GcdDivides` | src/rfmap-in/verilog_rfmap.cc:318-322 | gcd divides both arguments |
| `Clocks.Bezout` | src/rfmap-in/verilog_rfmap.cc:318-322 | gcd is an integer combination of its arguments |
| `Clocks.LcmOfIsLeast` | src/rfmap-in/verilog_rfmap.cc:327-329 | product over gcd divides every common multiple |
| `Clocks.ExactIsLcm` | src/rfmap-in/verilog_rfmap.cc:325-331 | in exact arithmetic the loop computes the least common multiple of all cycles |
| `Clocks.StepIsExact` | src/rfmap-in/verilog_rfmap.cc:328 | one step with unsigned products is exact if and only if the product does not wrap around |
| `Clocks.LoopIsExact` | src/rfmap-in/verilog_rfmap.cc:325-331 | all steps are exact if and only if no product wraps around |
| `Clocks.WrapsToZero` | src/rfmap-in/verilog_rfmap.cc:328 | for cycles 65536 and 65536 the product wraps to 0 although the least common multiple is in range |
| `Clocks.WrapsAndRecovers` | src/rfmap-in/verilog_rfmap.cc:325-331 | for cycles 65537, 65537 and 65537 a product wraps and the final value is the least common multiple all the same |
| `Clocks.FinalValueIsLcm` | src/rfmap-in/verilog_rfmap.cc:325-331 | the returned value is the least common multiple if and only if what the last wrapped product left is not 0 and divides it, and that with the later cycles has every earlier cycle as a divisor of its least common multiple |
| `Clocks.Lcm` | src/rfmap-in/verilog_rfmap.cc:325-331 | the loop, and that it is the least common multiple when no product wraps around |
| `Clocks.Expand` | src/rfmap-in/verilog_rfmap.cc:353-368 | for every clock with a cycle and every length: the wrap-around loop ends, without a failed assertion or a read outside the period, if and only if the length is a number of periods and is 0 or the offset is less than the cycle; then it has `len` elements, element i high if and only if (offset + i) mod cycle < high |
| `Clocks.OffsetNotReached` | src/rfmap-in/verilog_rfmap.cc:360 | from an offset of a cycle or more the index never returns to the offset: the loop's exit needs offset < cycle |
| `Clocks.HighsOfPeriods` | src/rfmap-in/verilog_rfmap.cc:358-368 | over k periods a clock is high exactly high * k times |
| `Clocks.ConvertFactorToSeq` | src/rfmap-in/verilog_rfmap.cc:333-371 | for all clocks with a cycle, wrapped products or not: no result without a clock; otherwise it succeeds if and only if every clock can be expanded to the computed length, and then there is a sequence for the names of the clocks and no other, of that length, with the right levels and high * len / cycle highs |
| `Clocks.FitsIsExpandable` | src/rfmap-in/verilog_rfmap.cc:325-371 | with products in range the length is the least common multiple, and the conversion succeeds if and only if every offset is less than its cycle |
| `CxxCode.ImplyRendering` | src/target-sc/ilator_dfs.cc:208-215 | the code for implication has the value of the implication if and only if its sides differ |
| `CxxCode.ConstantMemoryRendering` | src/target-sc/ilator.cc:401-419 | a memory constant is written out without its default word: right if and only if that is 0 |
| `CxxCode.CommitIgnoresBase` | src/target-sc/ilator.cc:278-284 | changed words are committed to the state whatever memory the update starts from: right if and only if the two agree on all other words |
| `IlatorGen.StoreRenders` | src/target-sc/ilator_dfs.cc:100-112 | after the code of its memory, the one assignment for a store leaves the words that differ in the map |
| `IlatorGen.CallRenders` | src/target-sc/ilator_dfs.cc:113-118 | the call of its own function does so for an ITE |
| `IlatorGen.Ilator.RenderExpr` | src/target-sc/ilator.cc:727-747 | the appended code computes every rendered node into its variable, and disturbs nothing rendered before |
| `IlatorGen.Ilator.RenderMemUpdate` | src/target-sc/ilator.cc:317-344 | for a chain of stores and ITEs the code fills the map with the words that differ |
| `IlatorGen.Ilator.GenerateFunction` | src/target-sc/ilator.cc:362-385 | the body of a memory update function does the update, the two branches with separate tables |
| `IlatorGen.Ilator.GenerateMemoryUpdate` | src/target-sc/ilator.cc:315-395 | every registered function has such a body, and calls only registered functions |
| `IlatorGen.CallsWork` | src/target-sc/ilator.cc:362-385 | called on an empty map, every function of the table leaves the words in which the memory changes |
| `IlatorUpdates.CheckedIsPure` | src/target-sc/ilator.cc:50-61 | an expression without a load from a store or ITE has no memory operation below it |
| `IlatorUpdates.LoadFromStoreMeaning` | src/target-sc/ilator.cc:50-61 | the check reports an expression if and only if a LOAD whose memory is an operation occurs in it |
| `IlatorUpdates.CheckIsExact` | src/target-sc/ilator.cc:50-61 | if loads are from variables, constants, stores and memory ITEs, the check passes exactly the values without memory operations and exactly the memory updates whose addresses, data and conditions have none |
| `IlatorUpdates.MemoryIsMem` | src/target-sc/ilator.cc:238-249 | the values treated as memories are those that are memories in every well-typed state |
| `IlatorUpdates.FirstPhase` | src/target-sc/ilator.cc:228-267 | it succeeds if and only if no LOAD in a memory update is from an operation; then all holders and maps have the next values and no state has changed |
| `IlatorUpdates.CommitEffect` | src/target-sc/ilator.cc:269-284 | a commit sets its state to the next value and nothing else |
| `IlatorUpdates.PhasesSimulate` | src/target-sc/ilator.cc:224-284 | placeholders, then commits, give every state its completed update on the pre-state |
| `IlatorUpdates.GenerateUpdate` | src/target-sc/ilator.cc:224-395 | the generator succeeds if and only if no LOAD in a memory update is from an operation, that is (if loads are from variables, constants, stores and memory ITEs) if and only if every one is a chain of stores and ITEs over its state without further memory operations; then the generated code simulates the instruction's simultaneous update |

## Left out

Hypotheses and readings of the code that a user of the results should know:

- Trace.OneAddress: the results about machines assume at most one load address per memory and step; the helpers of
  the code match "some" address (`src/mcm/axiom_helper.cc:174-183`) and require a top-level STORE.
- Nested loads and stores stop the original with an assertion (`src/mcm/axiom_helper.cc:36-41`); the model has no such check.
- Machine: an undecoded write still passes through the buffer and an undecoded fence still waits, because the axioms
  other than RF_CO_FR do not look at decode (`src/mcm/tso_manual.cc:197-249`).
- MemoryModels.Tso.SetFinalProperty: the final step is ordered after the steps only (`src/mcm/tso_manual.cc:115-116`), so
  that under TSO it may miss stores; `Compare.FinalStepMissesStore` has such a program.
- Constraints.MemVarSameAddress: two plain reads always match, because the disjunction starts from true
  (`src/mcm/axiom_helper.cc:204-212`).
- Constraints.MemVarSameData: the address and the data of a write come together, as they do from one STORE.
- Constraints.SameDataF: the pairing of a write with a read, the only one the axioms ask for.
- The loads of the final step are searched again at every query and repeated in the formula
  (`src/mcm/axiom_helper.cc:53-64`); the model lists them once, which means the same.
- ProgramRuns.SatisfiableIsExecuted: every loose write to a private state is overwritten before it is read (the condition of
  `PrivateState.LinkingsAgreeExactly`), and an update of a private state that is a STORE to a private memory has that
  memory mentioned elsewhere in the instruction. Without the second the linking loses stores:
  `ProgramRuns.StoreIsLinked` says exactly when for one store, `StepReads.BaseIsNoUse` exactly when a STORE is decided by
  what counts as read.
- ProgramRuns.StepIsTakenInRun: about expressions that mention shared memories only under LOAD, at addresses that are words,
  and have no STORE to a variable; a step's own STORE is covered through its address and its data.
- ThreadRuns.SearchedIsRun: the times of the steps are positive and distinct; steps of an unordered ILA may share a
  timestamp, and then no order of them is meant.
- Sc.ScIsAtomicMemory: "every order replays" alone does not characterise the axiom, see `Sc.ReplayAloneIsNotEnough`.
- MultiRuns.SatisfiableIsRunnable: all ILAs are ordered; an unordered ILA has no program order that a machine could
  follow. A property mentions shared memories only under LOAD, at one address per memory, and its addresses are words.
  The constraints of the ILAs' own initial conditions are not modelled.
- LocalState.LocalStatesAgree: one way only. The values of updates depend on those of states, so that on single programs
  the linkings may agree by chance; `PrivateState.LinkingsAgreeExactly` is about all values.
- Step names, variable suffixes and hash strings are built by formatting; the model takes them as injective.
- Unrollers.Unroller.UnrollSubs: the equivalences between encodings are for base position 0; for others the original
  takes its end frame from the length alone (`src/ila-mngr/u_unroller.cc:117-120`, `161`), and so do the predicates here.
- Unrollers.Unroller.BootStrap: without the cache flag, which no caller sets; the state variables are given instead of
  collected from the instructions.
- MonoRuns.EncodingIsRuns: names are those of the solver, which start with the names of the hosts, and variable names,
  selector names and next-state names are distinct; an instruction of the top level called `dead` would share its
  selector with the dummy. An instruction without decode has the constant true.
- CommutingDiagram.CommDiag.EqCheck: returns the formulas instead of calling a solver, and takes the numbers of steps.
- Refinement.QueryIsDiagram: exactly-once completion is a hypothesis. The checks that precede the query do not establish
  it: their second query is put to a solver that still holds the first (`src/ila-mngr/v_eq_check_crr.cc:625-635`,
  `657-668`), see `CommutingDiagram.CommDiag.CheckStepOrig` and `DiagramExample.PassedAndTwice`;
  `Latching.PassedAndLatched` gives a condition under which they do, and `Latching.PathsLatch` says how exact it is: about
  all numbers of steps together, and with sets of states that need not be expressions of the ILA.
- The loops that try one number of steps after the other, the incremental checks and the sanity check of the relation are not modelled;
  that the relation speaks of states of the two top levels is a hypothesis.
- HashCons.ExprMngr.GetRep: function symbols are part of a node's kind. Unification is compiled in but switched off by a
  constant (`src/ila/instr_lvl_abs.cc:9`).
- Rewriter.CondMemReplaces: the original compares pointers where the model compares expressions, so it finds fewer
  patterns; each pattern is proved by itself.
- Rewriter.LoadReplaces: the load rewriter is modelled as it is meant; its method takes its argument by value
  (`src/ila-mngr/p_rewrite_store_load.cc:19`) and so does not override the one of the base class.
- Rewriter.ResultIsLoadFree: the pass returns a load from a variable or constant as it is, with its address unrewritten
  (`Rewriter.AddressIsMissed`); it leaves no redex exactly when there is none to miss. A STORE over another
  STORE is not a redex: the original rewrites loads from single stores only.
- Rewriter.DefaultReplaces: one case for all operators; the original has no case for signed remainder and modulo.
- Words are integers without a width in the expression evaluator; operators no property depends on have an arbitrary meaning.
- RoundTrip.WriteAndRead: hypotheses are unique ILA names, unique ids, no free variables, each child's lists starting
  with its parent's, and every variable listed by the ILA it belongs to. A variable is read back as its ILA, name and sort.
- Serializer: the table of uninterpreted functions, sorts and constant values are carried as strings; SerFunc never
  records a function as written (`src/target-json/ila_to_json_serializer.cc:82-118`), which may repeat it in the table.
- RfExprs.TraverseRfExpr: annotations are not modelled, and neither is the check that a quantified variable has at most
  32 bits. The traversal without modification never enters its input (`src/rfmap-in/rfmap_typecheck.cc:851-870`), so that
  the test for quantifiers built on it always answers no; it is left out.
- RfExprs.ExpandedMeaning: the body of a quantifier without bits is Boolean; `RfExprs.ExpandTopMeaning` says why. The type
  check only warns about wider bodies (`src/rfmap-in/rfmap_typecheck.cc:769-770`).
- Clocks.LoopIsExact: about every step of the loop; `Clocks.WrapsAndRecovers` has a right result after a wrong step, and
  `Clocks.FinalValueIsLcm` is about the result.
- Clocks.ConvertFactorToSeq: every cycle is positive (the original divides by it), and high + low is taken without overflow.
- IlatorUpdates.GenerateUpdate: updates contain no implication, memory constants have default 0, and each memory update
  is based on the state it updates. Elsewhere the generated code is wrong; `CxxCode.ImplyRendering`,
  `CxxCode.ConstantMemoryRendering` and `CxxCode.CommitIgnoresBase` say exactly when. The code's operators have the meaning
  of the expression's; SystemC types, truncation of addresses and files are not modelled.
- IlatorUpdates.CheckIsExact: the memories that loads are from are variables, constants, stores and ITEs. A memory that
  is the result of a function is refused as well, although it is no store (`IlatorUpdates.LoadFromStoreMeaning`).
- The simulator's kernel, valid and decode functions, instruction scheduling and logging.
- The older simulator generator, bounded model checking of flattened ILAs, SMT and Verilog parsers, the Yosys and CHC
  translators, JSON keys, and the Python front end: text plumbing or foreign code.
