# LLVM exercise passes, modelled in Dafny

This project models three LLVM passes from a program-analysis course. It proves
properties about each.

- **ParameterFlow / FlowSensitivePV** (`ParameterFlow.cpp`) is a taint analysis
  that follows function arguments.
  - The instruction visitor `FlowIV` keeps a set of tracked values. Its handlers
    for load, store, binary, unary and call instructions only ever add to that set.
  - `ParameterFlow` seeds the set with one argument and visits the whole function.
  - `FlowSensitivePV` runs a LIFO worklist of (block, incoming set) pairs. It is
    seeded with every block that has no predecessor, and it offers four
    compile-time loop-handling policies (none, process once, input differs,
    output differs).
- **InstructionCount** (`InstructionCount.cpp`) builds a histogram of the opcodes
  of every instruction in a module.
- **IRMInliner** (`IRMInliner.cpp`) inserts `irmCall(arg0, 42)` before every call
  whose first argument is an integer. It does not do so inside functions whose
  name starts with `irm`. It creates the monitor function `irmCall` in the module
  the first time it is needed. That monitor exits with status 1 exactly when its
  two arguments are equal.

Files:

- `ir.dfy` (module `Ir`): the IR abstraction, shared by all the passes.
  - Values are data, not pointers: locals with a number and a type, globals,
    integer constants, and the calls inserted by the IRM pass.
  - An instruction is one of a datatype's cases. A block is its instructions plus
    the successor list of its terminator.
- `parameter_flow.dfy` (module `ParameterFlow`) has two parts.
  - The imperative side: the visitor as a class over its tracked set, the
    flow-insensitive pass, and `valueSetsAreEqual`.
  - The specification side: the transfer function `Transfer`, its left fold
    `Flow`, and lemmas about them.
- `flow_sensitive.dfy` (module `FlowSensitive`) holds the worklist algorithm.
  - The specification: one loop iteration is the function `Step`, and `Run`
    applies it at most `fuel` times.
  - The imperative loop: `TraceArgument`, with `ProcessEntry`, `VisitEntry` and
    `PushSuccessors`. Each is proved equal to that specification.
  - Properties proved of the specification: seeding, pushing, the carried
    argument, and termination and coverage under the process-once policy.
  - The state records the visits the loop makes (block, incoming set, outgoing
    set). The source does not keep that list. It is kept only so that properties
    can talk about what was visited.
- `instruction_count.dfy` (module `InstructionCount`) holds the triple counting
  loop. It is proved to build the histogram: exact counts, only opcodes that
  occur, and counts summing to the number of instructions.
- `irm_inliner.dfy` (module `IrmInliner`) has three parts.
  - The event predicate, and the injection as a pure function `Inject` with its
    placement and round-trip lemmas.
  - The module's function table as a class: lookup-or-create of the monitor, and
    collecting the injection points.
  - The injection loop, proved to yield the pure result whatever order the set of
    points is walked in.
- `reference_monitor.dfy` (module `ReferenceMonitor`) writes out the body that
  `createReferenceMonitor` emits, as IR.
  - Its three blocks are `initial`, `truecase` and `falsecase`.
  - A small interpreter runs that body. The theorem `MonitorExitsIffEqual` states
    its behaviour.

## Model

| member | source | states |
|---|---|---|
| ParameterFlow.Transfer | 2016/llvm/exercises/ParameterFlow/ParameterFlow.cpp:50-120 | a handler never removes a tracked value, and adds at most the value the instruction defines (a store: its pointer operand) |
| ParameterFlow.FlowConcat | 2016/llvm/exercises/ParameterFlow/ParameterFlow.cpp:142 | visiting a function block after block is visiting the concatenation of its instructions |
| ParameterFlow.FlowGrows | 2016/llvm/exercises/ParameterFlow/ParameterFlow.cpp:27-120 | the set after a walk contains the incoming set and is within it plus the values the walked instructions define |
| ParameterFlow.FlowMonotone | 2016/llvm/exercises/ParameterFlow/ParameterFlow.cpp:50-120 | a larger incoming set never gives a smaller outgoing set |
| ParameterFlow.LoadRule | 2016/llvm/exercises/ParameterFlow/ParameterFlow.cpp:50-60 | at a load, its result is added exactly when its pointer operand is tracked at that point of the walk |
| ParameterFlow.StoreRule | 2016/llvm/exercises/ParameterFlow/ParameterFlow.cpp:62-72 | at a store, its pointer operand is added exactly when its value operand is tracked, and nothing else is added |
| ParameterFlow.BinOpRule | 2016/llvm/exercises/ParameterFlow/ParameterFlow.cpp:74-85 | at a binary operator, its result is added exactly when either operand is tracked |
| ParameterFlow.UnaryRule | 2016/llvm/exercises/ParameterFlow/ParameterFlow.cpp:87-97 | at a unary instruction (alloca, casts), its result is added exactly when its operand is tracked |
| ParameterFlow.CallRule | 2016/llvm/exercises/ParameterFlow/ParameterFlow.cpp:108-120 | a call with any tracked argument adds exactly its result, however many arguments are tracked |
| ParameterFlow.NoHandlerRule | 2016/llvm/exercises/ParameterFlow/ParameterFlow.cpp:99-106 | returns and instructions without a handler leave the set unchanged |
| ParameterFlow.LoadBeforeStoreStaysUntracked | 2016/llvm/exercises/ParameterFlow/ParameterFlow.cpp:50-72 | the walk is in program order: a load before the store that taints its pointer stays untracked, after it the load is tracked |
| ParameterFlow.FlowVisitor.constructor | 2016/llvm/exercises/ParameterFlow/ParameterFlow.cpp:140 | a fresh visitor tracks nothing |
| ParameterFlow.FlowVisitor.AddTrackedValue | 2016/llvm/exercises/ParameterFlow/ParameterFlow.cpp:31-36 | the value is inserted into the tracked set, nothing else changes |
| ParameterFlow.FlowVisitor.VisitLoadInst | 2016/llvm/exercises/ParameterFlow/ParameterFlow.cpp:50-60 | the new tracked set is the transfer of the old one over the load |
| ParameterFlow.FlowVisitor.VisitStoreInst | 2016/llvm/exercises/ParameterFlow/ParameterFlow.cpp:62-72 | the new tracked set is the transfer of the old one over the store |
| ParameterFlow.FlowVisitor.VisitBinaryOperator | 2016/llvm/exercises/ParameterFlow/ParameterFlow.cpp:74-85 | the new tracked set is the transfer of the old one over the binary operator |
| ParameterFlow.FlowVisitor.VisitUnaryInstruction | 2016/llvm/exercises/ParameterFlow/ParameterFlow.cpp:87-97 | the new tracked set is the transfer of the old one over the unary instruction |
| ParameterFlow.FlowVisitor.VisitCallInst | 2016/llvm/exercises/ParameterFlow/ParameterFlow.cpp:108-120 | the loop over the arguments adds the call's result once when some argument is tracked, else nothing |
| ParameterFlow.FlowVisitor.Visit | 2016/llvm/exercises/ParameterFlow/ParameterFlow.cpp:50-120 | visiting any instruction is its transfer rule; return and unhandled instructions change nothing |
| ParameterFlow.FlowVisitor.VisitBlock | 2016/llvm/exercises/ParameterFlow/ParameterFlow.cpp:206 | visiting a block is the fold of the transfer rules over its instructions in order |
| ParameterFlow.FlowVisitor.VisitFunction | 2016/llvm/exercises/ParameterFlow/ParameterFlow.cpp:142 | visiting a function is the fold over all its instructions, block by block |
| ParameterFlow.RunOnFunction | 2016/llvm/exercises/ParameterFlow/ParameterFlow.cpp:130-146 | one visit per argument, each from just that argument, yielding the fold over the function and containing the argument; the pass reports no change |
| ParameterFlow.ValueSetsAreEqual | 2016/llvm/exercises/ParameterFlow/ParameterFlow.cpp:253-262 | returns true if and only if the two sets have the same elements |
| FlowSensitive.PredecessorBelowMeans | 2016/llvm/exercises/ParameterFlow/ParameterFlow.cpp:248-251 | a block has a predecessor exactly when some block of the function lists it as a successor |
| FlowSensitive.SeedsUpTo | 2016/llvm/exercises/ParameterFlow/ParameterFlow.cpp:170-176 | every seed entry names a block of the function and carries just the traced argument |
| FlowSensitive.SeedsAreEntryBlocks | 2016/llvm/exercises/ParameterFlow/ParameterFlow.cpp:170-176 | every seed entry is for a block without predecessor and carries `{a}` |
| FlowSensitive.SeedsCoverEntryBlocks | 2016/llvm/exercises/ParameterFlow/ParameterFlow.cpp:170-176 | every block without predecessor is seeded |
| FlowSensitive.SeedsIncreasing | 2016/llvm/exercises/ParameterFlow/ParameterFlow.cpp:170-176 | seeds are in strictly increasing block order, so each entry block is seeded exactly once |
| FlowSensitive.Pushes | 2016/llvm/exercises/ParameterFlow/ParameterFlow.cpp:230-239 | pushed entries carry the outgoing set; under process-once none names a processed block; otherwise one entry per successor, in order |
| FlowSensitive.PushesEverySuccessor | 2016/llvm/exercises/ParameterFlow/ParameterFlow.cpp:230-239 | every successor the policy does not exclude is pushed |
| FlowSensitive.PushesBelow | 2016/llvm/exercises/ParameterFlow/ParameterFlow.cpp:230-239 | pushed entries name only successor blocks, so blocks of the function |
| FlowSensitive.StepShape | 2016/llvm/exercises/ParameterFlow/ParameterFlow.cpp:189-192 | an iteration pops the last entry and leaves the rest of the worklist as it was |
| FlowSensitive.StepWorklist | 2016/llvm/exercises/ParameterFlow/ParameterFlow.cpp:189-239 | helper for StepShape: after an iteration the worklist is the popped one, possibly followed by the pushed successors |
| FlowSensitive.PopPush | 2016/llvm/exercises/ParameterFlow/ParameterFlow.cpp:189-239 | helper for StepShape: popping and appending valid entries keeps every entry a block of the function and the rest of the worklist in place |
| FlowSensitive.StepCarries | 2016/llvm/exercises/ParameterFlow/ParameterFlow.cpp:201-207 | one iteration keeps the traced argument in every pending entry and records a visit whose outgoing set is the block's fold |
| FlowSensitive.RunCarries | 2016/llvm/exercises/ParameterFlow/ParameterFlow.cpp:189-242 | the same holds after any number of iterations |
| FlowSensitive.RunFromSeedCarriesArgument | 2016/llvm/exercises/ParameterFlow/ParameterFlow.cpp:154-246 | under every policy, every visit starts from a set holding the argument and ends with a superset of it |
| FlowSensitive.ProcessOnceNeverRepushes | 2016/llvm/exercises/ParameterFlow/ParameterFlow.cpp:209-237 | under process-once the popped block becomes processed and no pushed entry names a processed block |
| FlowSensitive.ProcessOnceProgress | 2016/llvm/exercises/ParameterFlow/ParameterFlow.cpp:189-239 | under process-once each iteration processes a new block or consumes an entry of a processed one without adding such entries |
| FlowSensitive.StepsToFixpoint | 2016/llvm/exercises/ParameterFlow/ParameterFlow.cpp:189-242 | under process-once the worklist is empty after finitely many iterations, from any state |
| FlowSensitive.StepCovers | 2016/llvm/exercises/ParameterFlow/ParameterFlow.cpp:230-239 | under process-once an iteration keeps every root and every successor of a processed block processed or pending |
| FlowSensitive.RunCovers | 2016/llvm/exercises/ParameterFlow/ParameterFlow.cpp:189-242 | the same holds after any number of iterations |
| FlowSensitive.ProcessOnceVisitsReachableBlocks | 2016/llvm/exercises/ParameterFlow/ParameterFlow.cpp:154-246 | under process-once the run ends having processed every entry block and every successor of a processed block, each visited from a set holding the argument |
| FlowSensitive.RunUnfold | 2016/llvm/exercises/ParameterFlow/ParameterFlow.cpp:189 | helper for Advance: a run of a non-empty worklist is one iteration followed by the rest of the run |
| FlowSensitive.RunStops | 2016/llvm/exercises/ParameterFlow/ParameterFlow.cpp:189 | helper for LoopFrom: a run from an empty worklist, or with no fuel left, is the state itself |
| FlowSensitive.VisitEntry | 2016/llvm/exercises/ParameterFlow/ParameterFlow.cpp:203-207 | a fresh visitor seeded with the incoming values yields the fold of the block from that set |
| FlowSensitive.PushSuccessors | 2016/llvm/exercises/ParameterFlow/ParameterFlow.cpp:230-239 | the push loop appends exactly the entries the policy allows, in successor order |
| FlowSensitive.ProcessEntry | 2016/llvm/exercises/ParameterFlow/ParameterFlow.cpp:189-239 | one iteration of the loop, including each policy's skip and bookkeeping, is the specification step |
| FlowSensitive.SeedWorklist | 2016/llvm/exercises/ParameterFlow/ParameterFlow.cpp:170-176 | the seeding loop pushes exactly the seed entries, one per block without predecessor, in block order |
| FlowSensitive.Advance | 2016/llvm/exercises/ParameterFlow/ParameterFlow.cpp:189-239 | one iteration moves the loop one step along the specification run it is following |
| FlowSensitive.LoopFrom | 2016/llvm/exercises/ParameterFlow/ParameterFlow.cpp:189-242 | the while loop ends in the state the specification run reaches from its start |
| FlowSensitive.PrefixGrows | 2016/llvm/exercises/ParameterFlow/ParameterFlow.cpp:157-244 | helper for RunOnFunction: appending the next run extends the prefix of runs by one |
| FlowSensitive.TraceArgument | 2016/llvm/exercises/ParameterFlow/ParameterFlow.cpp:164-242 | seeding and the loop for one argument yield the specification run from the seed |
| FlowSensitive.RunOnFunction | 2016/llvm/exercises/ParameterFlow/ParameterFlow.cpp:154-246 | one run per argument, each the specification run from that argument's seed; the pass reports no change |
| InstructionCount.Bump | 2016/llvm/exercises/InstructionCount/InstructionCount.cpp:23-27 | a missing opcode is inserted with 0 and then incremented; every other count is unchanged |
| InstructionCount.TallyConcat | 2016/llvm/exercises/InstructionCount/InstructionCount.cpp:18-30 | counting one sequence and then another is counting their concatenation |
| InstructionCount.ComparisonsShareOneKey | 2016/llvm/exercises/InstructionCount/InstructionCount.cpp:21-27 | two integer comparisons count under the single ICmp opcode whatever their predicates |
| InstructionCount.HistogramCounts | 2016/llvm/exercises/InstructionCount/InstructionCount.cpp:16-30 | the map's keys are exactly the occurring opcodes, each mapped to its number of occurrences, hence at least 1 |
| InstructionCount.TotalRemove | 2016/llvm/exercises/InstructionCount/InstructionCount.cpp:16 | helper for HistogramTotal: the sum of a count map is one count plus the sum of the rest |
| InstructionCount.TotalBump | 2016/llvm/exercises/InstructionCount/InstructionCount.cpp:23-27 | one counting step adds exactly one to the sum of the counts |
| InstructionCount.HistogramTotal | 2016/llvm/exercises/InstructionCount/InstructionCount.cpp:18-28 | the counts sum to the number of instructions visited |
| InstructionCount.RunOnModule | 2016/llvm/exercises/InstructionCount/InstructionCount.cpp:14-41 | the loops build the histogram of all instructions of all functions: exact counts, only occurring opcodes, sum equal to the instruction count; the pass reports no change |
| IrmInliner.MatchesEvent | 2016/llvm/exercises/IRM/IRMInliner.cpp:44-56 | false inside any function named with the prefix "irm"; elsewhere true exactly for calls with a first argument of integer type |
| IrmInliner.Pow2AtLeast64 | 2016/llvm/exercises/IRM/IRMInliner.cpp:35 | helper for MarkerConstant: integer types of 6 bits and more can hold 42 |
| IrmInliner.MarkerConstant | 2016/llvm/exercises/IRM/IRMInliner.cpp:35 | the constant has the type of the first argument, fits its width, and is 42 whenever the type is wide enough |
| IrmInliner.MonitorCallFor | 2016/llvm/exercises/IRM/IRMInliner.cpp:35-37 | the inserted call calls `irmCall` with the event's first argument and the constant 42 of that argument's type |
| IrmInliner.InsertShift | 2016/llvm/exercises/IRM/IRMInliner.cpp:32-37 | helper for InjectMark: inserting into the tail of a block is inserting into the block at the shifted position |
| IrmInliner.CountTruePrefix | 2016/llvm/exercises/IRM/IRMInliner.cpp:30 | helper for InjectMark and InjectPlacement: the count of marks before a position splits into the first mark and the rest |
| IrmInliner.CountTrueBound | 2016/llvm/exercises/IRM/IRMInliner.cpp:30 | helper for InjectPlacement: at most one mark per position, counted one position at a time |
| IrmInliner.InjectLength | 2016/llvm/exercises/IRM/IRMInliner.cpp:30-38 | exactly one instruction is added per marked event |
| IrmInliner.InjectPlacement | 2016/llvm/exercises/IRM/IRMInliner.cpp:30-38 | each original instruction keeps its relative place, and a marked one is immediately preceded by its monitor call |
| IrmInliner.InjectMark | 2016/llvm/exercises/IRM/IRMInliner.cpp:32-37 | inserting the monitor call before one more event, at its current position, is marking that event |
| IrmInliner.InjectMarkFirst | 2016/llvm/exercises/IRM/IRMInliner.cpp:32-37 | helper for InjectMark: marking the first instruction of a block inserts its monitor call at the front |
| IrmInliner.InjectMarkLater | 2016/llvm/exercises/IRM/IRMInliner.cpp:32-37 | helper for InjectMark: marking a later event shifts its insertion point by the first instruction and its call, if any |
| IrmInliner.InjectNone | 2016/llvm/exercises/IRM/IRMInliner.cpp:19-40 | with no event marked the block is unchanged |
| IrmInliner.Strip | 2016/llvm/exercises/IRM/IRMInliner.cpp:37 | dropping the inserted calls never lengthens a block |
| IrmInliner.StripInject | 2016/llvm/exercises/IRM/IRMInliner.cpp:30-38 | dropping the inserted calls gives back the original block: nothing else is added, removed or reordered |
| IrmInliner.EventMarks | 2016/llvm/exercises/IRM/IRMInliner.cpp:19-27 | exactly the instructions the event predicate selects are marked |
| IrmInliner.InstrumentFunction | 2016/llvm/exercises/IRM/IRMInliner.cpp:17-41 | name, arguments and block count are kept; each block gets a monitor call before each of its events |
| IrmInliner.InstrumentGuardsEvents | 2016/llvm/exercises/IRM/IRMInliner.cpp:30-38 | after the pass every event is immediately preceded by `irmCall(arg0, 42)`, every other instruction is still in place, one instruction added per event |
| IrmInliner.InstrumentThenStrip | 2016/llvm/exercises/IRM/IRMInliner.cpp:30-38 | removing the inserted calls from an instrumented block restores it, successors unchanged |
| IrmInliner.ReservedFunctionsUntouched | 2016/llvm/exercises/IRM/IRMInliner.cpp:45 | a function whose name starts with "irm" has no events and is left unchanged |
| IrmInliner.MonitorCallIsEvent | 2016/llvm/exercises/IRM/IRMInliner.cpp:20-38 | an inserted call is itself an event, which is why the points are collected before any insertion |
| IrmInliner.MonitorBodyHasEventShape | 2016/llvm/exercises/IRM/IRMInliner.cpp:45 | the monitor's own exit call has the shape of an event, and the monitor's name carries the reserved prefix that shields it |
| IrmInliner.GuardExitsOnMarker | 2016/llvm/exercises/IRM/IRMInliner.cpp:35 | at an instrumented event the monitor exits with status 1 exactly when the first argument equals 42 |
| IrmInliner.FindFunction | 2016/llvm/exercises/IRM/IRMInliner.cpp:60 | the lookup yields a function of that name, or fails only when the table has none |
| IrmInliner.FindAppended | 2016/llvm/exercises/IRM/IRMInliner.cpp:72 | a function appended under a new name is found at its index |
| IrmInliner.FindSameNames | 2016/llvm/exercises/IRM/IRMInliner.cpp:60 | the lookup depends only on the names in the table |
| IrmInliner.FindPrefix | 2016/llvm/exercises/IRM/IRMInliner.cpp:60 | appending functions does not change where an existing name is found |
| IrmInliner.PrototypeFound | 2016/llvm/exercises/IRM/IRMInliner.cpp:59-64 | the table keeps all its functions; an existing monitor leaves it unchanged; otherwise the new monitor with its body comes right after the old functions; afterwards the monitor is found |
| IrmInliner.MonitorAppended | 2016/llvm/exercises/IRM/IRMInliner.cpp:67-72 | helper for PrototypeFound: after appending the monitor and declaring printf and exit, the old table is a prefix and the monitor is found right after it |
| IrmInliner.PrototypeIdempotent | 2016/llvm/exercises/IRM/IRMInliner.cpp:59-64 | a second lookup-or-create adds no function |
| IrmInliner.DeclarationUpdate | 2016/llvm/exercises/IRM/IRMInliner.cpp:119-130 | declaring printf or exit commutes with rewriting the body of another function |
| IrmInliner.PrototypeUpdate | 2016/llvm/exercises/IRM/IRMInliner.cpp:59-64 | lookup-or-create commutes with rewriting the body of the instrumented function |
| IrmInliner.IrModule.constructor | 2016/llvm/exercises/IRM/IRMInliner.cpp:33 | the module holds the given function table |
| IrmInliner.IrModule.GetOrInsertFunction | 2016/llvm/exercises/IRM/IRMInliner.cpp:72 | an existing function of that name is returned, otherwise the declaration is appended; afterwards the name is found at the returned index |
| IrmInliner.IrModule.CreateReferenceMonitor | 2016/llvm/exercises/IRM/IRMInliner.cpp:67-116 | appends `irmCall` with its three blocks, then declares printf and exit where absent |
| IrmInliner.IrModule.GetIRMCallPrototype | 2016/llvm/exercises/IRM/IRMInliner.cpp:59-64 | returns the existing monitor, creating it only when the table has none |
| IrmInliner.IrModule.CollectInjectionPoints | 2016/llvm/exercises/IRM/IRMInliner.cpp:19-27 | the collected set holds exactly the positions of the function's events |
| IrmInliner.IrModule.InsertBefore | 2016/llvm/exercises/IRM/IRMInliner.cpp:32-37 | the instruction goes right before the given position of the given block; nothing else changes |
| IrmInliner.IrModule.InjectOne | 2016/llvm/exercises/IRM/IRMInliner.cpp:30-38 | one injection finds the event at its current position and inserts its monitor call right before it |
| IrmInliner.IrModule.InjectAt | 2016/llvm/exercises/IRM/IRMInliner.cpp:32-37 | the monitor is looked up or created, and then its call on the event's first argument and 42 goes right before the event; no other function changes |
| IrmInliner.InjectOneState | 2016/llvm/exercises/IRM/IRMInliner.cpp:30-38 | helper for InjectOne: after one insertion, the function is one event further along and the rest of the table is as the monitor's creation left it |
| IrmInliner.IrModule.InjectAll | 2016/llvm/exercises/IRM/IRMInliner.cpp:29-38 | after the loop, exactly the collected events carry a monitor call, and the monitor exists once any was inserted |
| IrmInliner.IrModule.RunOnFunction | 2016/llvm/exercises/IRM/IRMInliner.cpp:17-41 | the function becomes its instrumented form whatever order the points are visited in; the monitor is added only if there was an event; no other function changes; the pass reports a change |
| IrmInliner.PartialStep | 2016/llvm/exercises/IRM/IRMInliner.cpp:32-37 | an unhandled event sits at its index plus the calls already inserted before it, and inserting there marks it |
| IrmInliner.NoMarks | 2016/llvm/exercises/IRM/IRMInliner.cpp:20 | before injection no position is marked |
| IrmInliner.PartialStart | 2016/llvm/exercises/IRM/IRMInliner.cpp:20-27 | before injection the function is as it was |
| IrmInliner.MarkOneMore | 2016/llvm/exercises/IRM/IRMInliner.cpp:30 | helper for InjectAll: the marks follow the set of handled points |
| IrmInliner.PartialComplete | 2016/llvm/exercises/IRM/IRMInliner.cpp:29-40 | with every collected point handled the function is fully instrumented, and something was inserted exactly when it had events |
| ReferenceMonitor.InitialStores | 2016/llvm/exercises/IRM/IRMInliner.cpp:76-85 | the two allocas take fresh cells and the stores put the two arguments in them |
| ReferenceMonitor.InitialCompare | 2016/llvm/exercises/IRM/IRMInliner.cpp:86-95 | the loads read the arguments back, and the branch goes to the true case exactly when they are equal |
| ReferenceMonitor.TrueCase | 2016/llvm/exercises/IRM/IRMInliner.cpp:97-109 | the true case prints the first argument and exits with status 1 |
| ReferenceMonitor.FalseCase | 2016/llvm/exercises/IRM/IRMInliner.cpp:111-114 | the false case returns normally without printing |
| ReferenceMonitor.MonitorExitsIffEqual | 2016/llvm/exercises/IRM/IRMInliner.cpp:66-114 | the monitor exits with status 1, after printing its first argument, exactly when its two arguments are equal, and returns normally otherwise |

## Left out

- The Soot call-graph driver (`Main.java`) is left out. It only configures and calls library code that is not part of this model.
- The Java example and test programs are left out. They are inputs to analyses, not analysis logic.
- The other exercise passes (`PointerObservation.cpp`, `FirstTransform.cpp`, `FirstPass.cpp`) are left out.
- The `errs()` diagnostics are left out, and so is the printing loop of InstructionCount. Apart from the callee lookup described next, they only produce output.
- ParameterFlow.Transfer: every call names its callee, so indirect calls are not modelled. For an indirect call `getCalledFunction()` is null. The diagnostic at ParameterFlow.cpp:112 then dereferences a null pointer as soon as an argument of the call is tracked. The model treats that call like any other call and adds its result.
- Pass registration is left out.
- The loop-handling policy is a compile-time macro in the source. Here it is a parameter, so all four policies are modelled at once.
- FlowSensitive.Run: it is bounded by `fuel` and makes no termination claim for the default policy (none) or the two "differs" policies. The default policy does not terminate when a cycle is reachable from a block without predecessor. Termination is proved only for process-once (`StepsToFixpoint`).
- FlowSensitive.TraceArgument: it runs at most `fuel` iterations. For process-once, `StepsToFixpoint` gives a fuel that empties the worklist.
- `ret void` is a no-op on the tracked set. The source reads operand 0 of a return even when it has none, which is undefined behaviour.
- Pointer identity of LLVM values is not modelled. Values are compared structurally.
- An inserted monitor call gets the value `Injected(site)`. This gives it an identity of its own without an allocator.
- The instruction set is reduced to the kinds the passes distinguish: load, store, binary, unary (alloca and casts), integer compare (one opcode whatever its predicate, as `getOpcode` gives), call, return, branch, unreachable, and "other". Opcodes are datatype values rather than LLVM's numbers.
- InstructionCount.RunOnModule: counts are unbounded naturals. The 64-bit counter of the source cannot overflow on any module that fits in memory, so its wrap-around is not modelled.
- IrmInliner.IrModule.CreateReferenceMonitor: it requires that the module has no `irmCall` yet. Its only caller guarantees this. Re-using an existing function of that name inside `getOrInsertFunction` is not modelled.
- Type checking of calls is not modelled. `getOrInsertFunction` returns a cast when an existing `printf` or `exit` has another type. `irmCall` takes `i32`, yet the pass passes a first argument of whatever integer width the event has.
- The string constant that `geti8StrVal` creates is not added to the module. The printf call refers to it as the global value `outputMessage`.
- The interpreter in `ReferenceMonitor` runs only the instructions the monitor uses, and of the comparison predicates only equality. It models printf by the integer it prints, not by the formatted text, and it gives printf's result no value.
- IrmInliner.GuardExitsOnMarker: stated only for first arguments of at least 6 bits. For narrower integer types the constant 42 is truncated to the width (`MarkerConstant`), and the monitor then compares against that truncated value.
- IrmInliner.IrModule.InsertBefore: the source's IRBuilder inserts before an instruction pointer. The model inserts before a (block, position) pair instead. `InjectOne` recomputes that position from the original index and the number of calls already inserted before it.
