# LLGo, verified: lowering machines and whole-program analyses

LLGo compiles Go's SSA form to LLVM. What is hard about it lies in the small machines its emitted code
runs and in the analyses that decide what may be left out. This project models those parts in Dafny over
abstract SSA and control-flow graphs and proves what they are for. LLVM values become mathematical values,
emitted code becomes a step relation, and maps that the compiler walks in random order become choices that
the proofs hold for.

`dafny verify dfyconfig.toml` checks all files together.

## What is modelled

- **Defer and panic dispatch** (`DeferLowering`, `DeferMachine`, `DeferRuns`, `DeferOrder`). The compiler's
  record of defer statements, the dispatch code emitted from it, and the machine that code runs: conditional
  bits, the argument list, the Reth resume word and the Rund continuation word, with a panic possible in any
  deferred call. Runs are proved against a reference list of calls and a step bound. Native block addresses
  and wasm selectors are in lockstep. Go's order (last registered first, each once) is *not* what the code
  always gives: an unconditional defer that never registered is called all the same, a drain loop can overtake
  a plain deferred call that left no list node, and a conditional bit can fall outside a 32-bit word. For each
  the project builds a finished run that breaks Go's order, under every choice of panics, and it proves the
  exact condition, `Orderly`, in both directions.
- **Unused global initializers** (`UnusedInits`, `UnusedInitsRuns`). The fixed point reaches the least closed
  plan in every visiting order, and skipping the plan preserves every run. The plan is also described without
  the rules: it is the greatest set of removals that can be put in an order in which every use of what is
  removed goes first, stores and map writes of a removed global or map aside.
- **Static initializer folding** (`StaticInitTrie`, `StaticInitNames`, `StaticInitCollect`, `StaticInitTrace`,
  `StaticInitExact`, `StaticInitBuilds`). Stores become a trie, the trie a constant; the constant is what running the stores leaves,
  in any order of the stores, and generated symbol names do not collide. For a whole initializer, with
  temporaries flattened into the objects they are copied to, folding is *not* always right: a copy covers what
  was stored in its place before, and folding forgets that; and a slice stored over a whole global is folded
  even if the global is then overwritten. The project shows an SSA initializer for each and proves the exact
  condition, `Intact`, in both directions: after a slice over the whole global no other store is over the whole
  of it, and no non-zero store into the global or an object it reaches is later covered by a copy. The examples
  are SSA-level inputs that the collector accepts; that Go's own SSA builder produces such code is not claimed.
  When a global is folded at all is stated on its stores, without the trie (`Foldable`), in both directions.
- **Stack allocation of named results** (`ResultEscape`, `ResultBorrow`). The interprocedural borrow check with
  its memo and budget, proved sound against a heap semantics with calls, returns and recursion: nothing points
  into an accepted slot once the frame that allocated it is left. It accepts exactly the slots that are
  `Harmless`: every value the slot leads to is only borrowed, no parameter it reaches leads back to itself, and
  the uses, counted once for the slot and once for each parameter reached, are at most 1024.
- **In-place array comparison** (`ArrayCompare`) and **cached initializer calls** (`LocalityLowering`), proved
  over all paths of a control-flow graph (`CfgPaths`).
- **MethodByName names** (`StringRuns`, `StringCover`, `StringInts`, `StringSlots`, `StringYields`,
  `StringCollector`, `StringGlobals`, `StringReads`). An all-or-nothing collection of the strings a call can be given, in a closed module in SSA
  form, through parameters, returns, tables of constants and local arrays. The proof that joint values (a
  pointer and its length) stay in step, and that a stored constant is still there when it is loaded, uses
  dominance: no operand can run again without its user. The collection is *not* sound for every module. It
  reads the text of any byte array with an initializer, constant or not, and a program may overwrite the array
  before it makes the string; and the walk that guards other initializers does not follow a pointer loaded from
  an offset of a global. The project shows a program for each and proves soundness in every run that keeps the
  initial contents of the globals that were read, hence in every run if nothing writes them (`Untouched`). For
  one read of text that condition is exact, and for the walk's guard it follows if all pointers to the global
  are loaded where the walk follows them (`AllFollowed`). What is collected is stated without the collector's
  walk: each name is one that the string can be seen to be in some way it is given (`Yields`), and the
  collection succeeds if one way applies in full and there is room (`Ready`).
- **Exact interface-method ids** (`InterfaceIds`, `InterfaceDescriptors`, `InterfacePass`, `InterfaceEmission`).
  The pass is also proved on what the compiler emits: for any method sets and interface calls the metadata is
  accepted and each call finds on each type the slot of its method, or none. Keys of methods do not always
  look like keys: an unexported method of a package whose path is `i`, or begins like a reserved id, is taken
  for something else, and the emitted programs exclude exactly these.
- **GC roots** (`RootChain`, `RootLayout`): the shadow chain after every sequence of calls, returns, setjmps,
  longjmps and replays, and the slot layout of a frame.
- **Memoised reachability on cyclic graphs** (`RecoverScopes`, `CallerReach`).
- **Bit arithmetic**: float min/max without floating point (`FloatMinMax`, any format, words as bits) and
  bounds checks across widths (`BoundsCheck`).
- Shared vocabulary: `Common`, `Decimal` (numerals inside generated names), `CfgPaths`.

## Assumptions the statements carry

- Defer: at least one statement is recorded; registrations follow compile order, a statement outside loops at
  most once (`History`). The conditional word is the set of its one bits, and the constant `1 << bit` is cut to
  the target's word: on a 32-bit target the bits from 32 on have no place in it.
- Static folding: the initializer is straight-line, a temporary's stores come before its copy, and a copy has the
  temporary's type (`Staged`).
- Unused initializers: instructions left uninterpreted (calls, control flow, loads and stores through pointers)
  see and produce only what their operands, live globals and maps, the rest of memory and globals exposed to
  native code lead to (`MemorySafe`); they may follow pointers to globals. Operands have been computed and keys
  have the map's key type (`SsaSound`), and small size hints do not panic.
- String runs: string-typed values are valid strings, and functions are entered by direct calls unless they have
  no parameters or another use. A global's contents may change at any time unless it is constant or, in the
  whole module, addresses of it and of globals that hold such addresses only feed loads, casts and address
  arithmetic (`Untouched`). An address computed with an index outside its array is not loaded or stored
  through. A local whose address only feeds loads, stores, casts and address arithmetic is changed by those
  stores alone; lifetime markers do nothing, and volatile accesses count as unknown code. The dominator tree
  is correct.
- Root chain: a new frame has an address no live frame has, other code does not write live frames' headers,
  and during a replay only frames that are not the saved head return (`Legal`).
- Bounds: conversions extend by the source's signedness and otherwise truncate; a length is a non-negative
  native int.

## Model

| member | source | states |
|---|---|---|
| `DeferLowering.DeferState.DeferRecover` | ssa/eh.go:457-489 | a recorded statement is appended with the next free conditional bit and whether it links a node, as a call without a function value always does; the 65th conditional one is refused and changes nothing |
| `DeferLowering.DeferState.RunDefers` | ssa/eh.go:770-784 | each site gets the next dense selector and its own block |
| `DeferLowering.DeferState.EndDefer` | ssa/eh.go:818-873 | walking the statements backwards with the drainer flag emits, for every statement, the block of the direct definition: one drain loop per contiguous run of loop statements |
| `DeferLowering.BitsDistinct` | ssa/eh.go:468-476 | recorded conditional statements have increasing, hence distinct, bits below 64 |
| `DeferLowering.SelectorsDense` | ssa/eh.go:790-816 | every Reth or Rund selector, and every block, belongs to exactly one target |
| `DeferMachine.JumpReth` | ssa/eh.go:797-816 | in either encoding a jump through a stored Reth target reaches that target's block |
| `DeferMachine.JumpRund` | ssa/eh.go:797-816 | the same for Rund |
| `DeferMachine.Lockstep` | ssa/eh.go:383-429 | along whole runs the native and the wasm machine agree on place, bits, list, log and panic state, their words stand for the same targets, and neither reaches the invalid block |
| `DeferRuns.CallStep` | ssa/eh.go:656-695 | one step of a statement outside loops starts the calls and leaves the list that the reference says, whether it panics or not |
| `DeferRuns.CondStep` | ssa/eh.go:556-605 | one turn of a drain loop pops and calls the top node if it is a loop node, and sets the resume target to the loop itself |
| `DeferRuns.StepInv` | ssa/eh.go:526-605 | every step keeps "log plus calls to come is constant" and the meaning of both words, and decreases a measure: statement, then list length, then place in the block |
| `DeferRuns.RunsDispatch` | ssa/eh.go:818-873 | every run's log is a prefix of the reference calls, no run is longer than 6(statements + registrations) + 5 states, and a finished run started them all and left through the rethrow block iff a panic landed, else through its own site; with no exit site at all only a panic enters, and the same holds |
| `DeferRuns.RunFinishes` | ssa/eh.go:526-605 | for every choice of panics there is a finished run |
| `DeferOrder.BodyBitsTell` | ssa/eh.go:468-476 | after any registrations a conditional bit is set iff its statement registered and the bit exists in the target's word |
| `DeferOrder.WalkExact` | ssa/eh.go:526-605 | from any point of the walk, the remaining calls are Go's order iff the history still due is orderly below it |
| `DeferOrder.DispatchOrder` | ssa/eh.go:526-695 | for every history, exit and choice of panics, a finished run made each registered call once, last registered first, if and only if the history is `Orderly` |
| `DeferOrder.MissesOrder` | ssa/eh.go:526-695 | a history that is not orderly has, for every choice of panics, a finished run whose calls are not Go's |
| `DeferOrder.OvertakingExample` | ssa/eh.go:589-601 | such a finished run, for every choice of panics, where a drain loop overtakes a later plain defer |
| `DeferOrder.StrayExample` | ssa/eh.go:539-543 | the same where an unconditional defer had not registered, in a function without an exit site |
| `DeferOrder.LostBitExample` | ssa/eh.go:468-476 | the same where the 33rd conditional defer registers on a 32-bit target, which has no bit for it |
| `UnusedInits.RulesMonotone` | cl/unused_global_init.go:121-192 | each removal rule still applies when more is removed |
| `UnusedInits.GlobalPass` | cl/unused_global_init.go:129-155 | in any order, a pass over the globals stays below every closed plan, gives each removal its reason, and if it adds nothing the plan is closed under the global rule |
| `UnusedInits.InstrPass` | cl/unused_global_init.go:156-191 | the same for the load and map rules; the removals so far can be put in an order |
| `UnusedInits.InTurnWithin` | cl/unused_global_init.go:112-192 | removals in an order, each after the uses of what it removes, a store after its global and a map write after its map, are part of every closed plan |
| `UnusedInits.FindUnusedGlobalInits` | cl/unused_global_init.go:66-221 | the loop ends with a closed plan contained in every closed plan, and every removal is justified; its removals can be put in an order, and it contains all removals that can |
| `UnusedInits.PlanUnique` | cl/unused_global_init.go:209-219 | two results are equal, so cache keys do not depend on map order |
| `UnusedInits.KeyCannotPanic` | cl/unused_global_init.go:337-351 | no value of an accepted key type makes hashing panic |
| `UnusedInits.KeyTestExact` | cl/unused_global_init.go:337-351 | a key type is accepted iff none of its values, arrays of any length included, makes hashing panic |
| `UnusedInitsRuns.SurvivorOperands` | cl/unused_global_init.go:112-192 | a remaining instruction mentions no removed value and no dead global |
| `UnusedInitsRuns.StepRemoved` | cl/unused_global_init.go:324-351 | a removed instruction never panics and touches nothing the remaining code can reach |
| `UnusedInitsRuns.EliminationPreserves` | cl/unused_global_init.go:353-361 | after any number of steps, through calls, returns and recursion, the full and the reduced program are at the same place with the same trace of calls and panics with their operands, the same surviving values in every activation and the same live globals and maps |
| `UnusedInitsRuns.FollowingIsSafe` | cl/unused_global_init.go:59-65 | code that follows a pointer to a global, stored by an initializer, meets the memory-safety assumption and sees the global |
| `StaticInitTrie.StoreTrie.AddStore` | cl/static_init.go:958-995 | adding in place keeps the trie of all accepted stores, and fails exactly when that trie does not exist |
| `StaticInitTrie.TrieAccepts` | cl/static_init.go:973-995 | the trie accepts a list of stores iff no path is a prefix of another |
| `StaticInitTrie.UpdatesCommute` | cl/static_init.go:973-995 | stores at prefix-incomparable paths commute on every value, off-type paths and blank fields included |
| `StaticInitTrie.AnyOrder` | cl/static_init.go:943-956 | accepted stores give the same value in every order |
| `StaticInitTrie.DenoteAdd` | cl/static_init.go:973-995 | adding a leaf to a trie is executing its store on what the trie stands for |
| `StaticInitTrie.ConvertMeans` | cl/static_init.go:1136-1165 | a literal is converted to a constant of a basic kind iff that constant is what the literal means at that kind |
| `StaticInitTrie.ZeroMeans` | cl/static_init.go:1136-1139 | the zero value of a basic kind is false, 0, 0.0 or the empty string |
| `StaticInitTrie.ByteArrayAgrees` | cl/static_init.go:1107-1125 | the byte-array shortcut builds what the general path builds |
| `StaticInitTrie.BuildEmptyAgrees` | cl/static_init.go:1005-1081 | an empty node builds the zero value, or fails on an array that is too long |
| `StaticInitTrie.BuildDenotes` | cl/static_init.go:1005-1081 | a built constant, nested slices and pointers included, is what the trie stands for, literals by what they mean |
| `StaticInitTrie.FoldIsRun` | cl/static_init.go:943-956 | a constant built from a list of stores is the value after running them on zero |
| `StaticInitBuilds.ObjectBuilds` | cl/static_init.go:943-1105 | a constant is built from a list of stores iff no path is a prefix of another, every store lies in the type and fits there, and no array that has to be written out is too long |
| `StaticInitBuilds.CollectibleExact` | cl/static_init.go:233-598 | the stores into an object are collected iff each of them stores a constant, a function, or an object whose stores are collected in turn, without cycles |
| `StaticInitBuilds.FoldsExactly` | cl/static_init.go:126-212 | a global is folded iff it is `Foldable`: all its stores are collectible and what they store can be built |
| `StaticInitNames.NamesDistinct` | cl/static_init.go:1005-1105 | the backing names generated under a global differ pairwise and extend its own |
| `StaticInitNames.SymbolInjective` | cl/static_init.go:647-688 | symbols spelled for different globals or positions are different strings, for global names without a dollar sign |
| `StaticInitNames.SymbolsDistinct` | cl/static_init.go:862-880 | two backing variables of a program have one symbol iff they belong to the same folded part of the same global, at the same position |
| `StaticInitTrace.TracePuts` | cl/static_init.go:233-374 | the collected stores of an object are the stores of its trace, in order |
| `StaticInitTrace.CopyTrace` | cl/static_init.go:233-301 | copying a temporary is clearing its place and repeating its own stores there, on every value |
| `StaticInitTrace.TraceTracks` | cl/static_init.go:305-374 | after any number of stores an object's memory is what its trace leaves |
| `StaticInitTrace.LossFree` | cl/static_init.go:126-212 | if no clear covers a non-zero store, the stores alone leave the same value |
| `StaticInitTrace.LossShows` | cl/static_init.go:126-212 | otherwise the covered place holds zero at the end, whatever follows |
| `StaticInitExact.BuildAccepts` | cl/static_init.go:1005-1105 | a built constant means that the stores of every object it is made of are pairwise incomparable |
| `StaticInitExact.CollectSourced` | cl/static_init.go:376-598 | every pointer or slice leaf carries exactly the stores collected for the object it refers to, at every depth |
| `StaticInitExact.FoldExact` | cl/static_init.go:126-212 | when a global is folded, the constant represents its memory after the run, backing objects included, if and only if it is `Intact`, for a slice over the whole global and for other stores alike |
| `StaticInitCollect.GatherSlice` | cl/static_init.go:126-177 | a gathered candidate has every store into the global collected, and the only slice over the whole of it is the one the candidate names |
| `StaticInitExact.SliceExact` | cl/static_init.go:144-205 | a folded slice represents memory iff no later store is over the whole global and the slice's own object loses nothing |
| `StaticInitExact.ReplacedExample` | cl/static_init.go:144-205 | an SSA initializer that stores a slice and then nil: it is folded to the slice while memory holds nil |
| `StaticInitExact.OverwrittenExample` | cl/static_init.go:233-301 | an SSA initializer that the collector accepts and folds, that is not intact, and whose constant differs from the memory |
| `ResultBorrow.ResultEscapeAnalysis.Borrowed` | cl/result_alloc.go:67-139 | a true answer means that the uses of every value newly seen are borrowed and paid for, once each; a false answer means the slot is not harmless |
| `ResultBorrow.ResultEscapeAnalysis.BorrowedUse` | cl/result_alloc.go:83-137 | the same for one use: reads, writes through the address, pointer views, and calls of inspectable functions |
| `ResultBorrow.ResultEscapeAnalysis.BorrowedParam` | cl/result_alloc.go:141-150 | the same through the memo of parameters: each is looked at once, and one still being checked leads to itself |
| `ResultBorrow.CanStackAllocateResult` | cl/result_alloc.go:30-54 | a slot is accepted iff all guards hold and it is `Harmless`; then it fits the stack |
| `ResultBorrow.FinishedHarmless` | cl/result_alloc.go:67-150 | if the slot and all parameters met are settled within the budget, the slot is harmless |
| `ResultBorrow.ReachedLeast` | cl/result_alloc.go:63-66 | the values the slot leads to are the least set around it that every use keeps inside itself, if there is one |
| `ResultBorrow.FewUsesHarmless` | cl/result_alloc.go:30-150 | a slot in a set of borrowed values that are not passed to calls and have at most 1024 uses is harmless |
| `ResultEscape.BorrowedFitsStack` | cl/result_alloc.go:27-54 | in every run in which the slot is allocated, a value pointing into it is at any time in the allocating frame or above it, and there is none once that frame is left |
| `ResultEscape.StepConfined` | cl/result_alloc.go:67-139 | no instruction, call, return or unknown code lets the slot's object out of borrowed values of live frames |
| `ResultEscape.BorrowedNeverEscapes` | cl/result_alloc.go:67-150 | in every run after the allocation no memory cell and no returned, captured or leaked value points into the slot |
| `ArrayCompare.ImmutableAddrUses` | cl/compile.go:2300-2332 | the walk answers true with a set of addresses all of whose uses are harmless, and false only when no such set exists |
| `ArrayCompare.ImmutableLocalArrayLoad` | cl/compile.go:2282-2298 | it finds the allocation exactly when the load is immutable |
| `ArrayCompare.ImmutableExactly` | cl/compile.go:2282-2332 | a load is immutable iff it loads an array from a local allocation, nothing exposes its address, and every store through an address derived from it stands earlier in the load's block |
| `ArrayCompare.CanElideArrayCompareLoad` | cl/compile.go:2242-2276 | true iff the load is used, and only by comparisons whose two operands can be read in place |
| `ArrayCompare.WritesPrecedeLoad` | cl/compile.go:2300-2348 | the only instructions that can change the memory are the allocation and earlier stores of the load's block |
| `ArrayCompare.ElidedLoadUnchanged` | cl/compile.go:2242-2348 | on every path, loops included, the memory at a use equals the value the load produced when it last ran |
| `LocalityLowering.Lowering.EnsureInitializer` | cl/locality_lower.go:496-514 | afterwards a call of the initializer precedes the end of the block on every path; one call is emitted if none did before, and nothing otherwise |
| `LocalityLowering.Lowering.PackageBase` | cl/locality_lower.go:475-494 | the base returned was computed earlier on every path to this point; it is computed anew only if none was |
| `LocalityLowering.Lowering.VariableAddr` | cl/locality_lower.go:430-449 | the access it emits is covered, whatever was compiled before |
| `LocalityLowering.AccessCovered` | cl/locality_lower.go:430-514 | on every path from the entry to an access, the owner's initializer call has run and the base it uses was computed, on that path |
| `StringRuns.OperandKept` | ltoplugin/LLGOReflectMethodByNamePass.cpp:1119-1131 | between the last run of a value and now its operands kept their values, so selects and parts can be read jointly |
| `StringCover.PairSelect` | ltoplugin/LLGOReflectMethodByNamePass.cpp:1119-1126 | two selects on one condition denote what one pair of arms denotes |
| `StringCover.PairPhi` | ltoplugin/LLGOReflectMethodByNamePass.cpp:1133-1149 | two phis of one block took their values along one edge |
| `StringCover.PairExtractConst` | ltoplugin/LLGOReflectMethodByNamePass.cpp:1053-1067 | a constant length that agrees with every candidate is the string's own length |
| `StringCover.PairArg` | ltoplugin/LLGOReflectMethodByNamePass.cpp:880-919 | names covering what all callers pass cover the argument |
| `StringCover.ValueReturn` | ltoplugin/LLGOReflectMethodByNamePass.cpp:958-980 | names covering every return of the callee cover the call |
| `StringCollector.AddName` | ltoplugin/LLGOReflectMethodByNamePass.cpp:61-70 | a name is added or already there unless 32 others are |
| `StringInts.CollectInts` | ltoplugin/LLGOReflectMethodByNamePass.cpp:405-435 | success means the integer is one of the choices in every run; only values the integer can be seen to take are added, each once, on success all of them, and it succeeds if every end is a number and there is room |
| `StringInts.CollectIndex` | ltoplugin/LLGOReflectMethodByNamePass.cpp:559-592 | success means the index, where it is in range, is one of the choices, all of them in range; the choices are exactly those of the index, and it succeeds if it has choices and they are in range |
| `StringInts.EnumerateAddrs` | ltoplugin/LLGOReflectMethodByNamePass.cpp:594-691 | success means that in every run that keeps the globals read on the way the address is one of at most 32 slots of globals, unless an index is out of range; the slots are exactly those the indices lead to, and it succeeds if all indices have choices, together at most 32 |
| `StringSlots.EnumerateLocals` | ltoplugin/LLGOReflectMethodByNamePass.cpp:698-727 | the same for the items of a local array |
| `StringSlots.BasedAt` | ltoplugin/LLGOReflectMethodByNamePass.cpp:805-810 | at every point of a run an address lies at its constant offset from its base as the base is now |
| `StringSlots.DominatingConstant` | ltoplugin/LLGOReflectMethodByNamePass.cpp:770-803 | a constant is found iff there are stores over the cell, every one puts exactly it there and every one dominates the load |
| `StringSlots.LocalLoad` | ltoplugin/LLGOReflectMethodByNamePass.cpp:729-803 | in every run, loops included, the load then gives that constant: after the last dominating store neither another store nor a new allocation changes the cell |
| `StringCollector.CollectConstantSlots` | ltoplugin/LLGOReflectMethodByNamePass.cpp:820-844 | success means that the pointer and length loaded from a table of constants are one of the names in every run that keeps the table |
| `StringCollector.CollectLocalSlots` | ltoplugin/LLGOReflectMethodByNamePass.cpp:846-878 | success means that the pointer and length loaded from a local array are one of the names in every run that keeps the globals read |
| `StringCollector.AddConcatenated` | ltoplugin/LLGOReflectMethodByNamePass.cpp:156-166 | only concatenations of a prefix and a suffix are added, on success all of them, and it succeeds if there is room |
| `StringCollector.AddSlices` | ltoplugin/LLGOReflectMethodByNamePass.cpp:246-256 | the same for slices, if all bounds are in range |
| `StringCollector.CollectCat` | ltoplugin/LLGOReflectMethodByNamePass.cpp:209-223 | success means every concatenation in every such run is one of the names; only concatenations of what the two parts yield are added, and it succeeds if both parts do and there is room |
| `StringCollector.CollectSlice` | ltoplugin/LLGOReflectMethodByNamePass.cpp:225-257 | the same for slicing with enumerated bounds, all of them in range |
| `StringCollector.CollectReturn` | ltoplugin/LLGOReflectMethodByNamePass.cpp:958-980 | the same for direct calls |
| `StringCollector.CollectPairArg` | ltoplugin/LLGOReflectMethodByNamePass.cpp:880-919 | the same for a string parameter split in two |
| `StringCollector.CollectValueArg` | ltoplugin/LLGOReflectMethodByNamePass.cpp:922-949 | the same for a whole string parameter |
| `StringCollector.CollectExtracted` | ltoplugin/LLGOReflectMethodByNamePass.cpp:1034-1067 | the same for a pointer taken out of a string, with its own or a constant length |
| `StringCollector.CollectValue` | ltoplugin/LLGOReflectMethodByNamePass.cpp:982-1032 | success means that at every point and time of every run that keeps the globals read the string value is one of at most 32 names; every name added is yielded by the value, and it succeeds if the value is ready |
| `StringCollector.CollectPair` | ltoplugin/LLGOReflectMethodByNamePass.cpp:1076-1151 | the same for a pointer and a length read at the same point; text of a byte array in range is always found, constant or not, and nothing else is added for it |
| `StringCollector.CollectFromCallArgs` | ltoplugin/LLGOReflectMethodByNamePass.cpp:1166-1175 | in every run of the module that keeps the globals which were read, whatever string the MethodByName call is given is among the names; if those globals are untouched, that is every run; the names are strings the argument yields, each once, and the collection succeeds if the argument is ready |
| `StringYields.StripExact` | ltoplugin/LLGOReflectMethodByNamePass.cpp:1076-1082 | stripping casts gives the first value behind them that is no cast |
| `StringYields.FoldedExact` | ltoplugin/LLGOReflectMethodByNamePass.cpp:368-392 | a load folds to a constant iff its address is, behind casts, a constant place of a readable global whose initializer holds that constant there |
| `StringYields.ReadExact` | ltoplugin/LLGOReflectMethodByNamePass.cpp:77-102 | text is read iff it stands in a byte array at that offset with that length |
| `StringYields.InsertedExact` | ltoplugin/LLGOReflectMethodByNamePass.cpp:131-141 | the part found in an aggregate is the one last put there |
| `StringCover.ConstPair` | ltoplugin/LLGOReflectMethodByNamePass.cpp:77-102 | text read from an initializer is the string in every run that keeps the byte array |
| `StringReads.ReadExact` | ltoplugin/LLGOReflectMethodByNamePass.cpp:77-102 | for a program that passes part of a byte array as a name: every run passes the text that is read iff nothing writes the array, or nothing is read of it |
| `StringReads.AnyNameGiven` | ltoplugin/LLGOReflectMethodByNamePass.cpp:77-102 | with a writable array, a run passes any other string of that length |
| `StringReads.WritableExample` | ltoplugin/LLGOReflectMethodByNamePass.cpp:77-102 | a program that overwrites "Foo" by "Boo": the collector answers exactly "Foo", and a run passes "Boo" |
| `StringGlobals.OnlyReadUses` | ltoplugin/LLGOReflectMethodByNamePass.cpp:258-301 | acceptance means the uses seen are harmless and closed under what the walk follows; it accepts whenever all visits it can make are harmless |
| `StringGlobals.WalkSound` | ltoplugin/LLGOReflectMethodByNamePass.cpp:258-319 | an accepted global is untouched, if every load that can give a pointer leading to it is from the start of another global |
| `StringGlobals.CanReadGlobalInitializer` | ltoplugin/LLGOReflectMethodByNamePass.cpp:303-319 | the same for the guard, constants included |
| `StringReads.HeaderExample` | ltoplugin/LLGOReflectMethodByNamePass.cpp:258-301 | a table whose address is held at an offset of another global: the guard accepts it and its loads fold to "Foo", but the program stores through the pointer and a run passes "Boo" |
| `InterfaceIds.ExactInjective` | ltoplugin/LLGOInterfaceMethodTypeIDPass.cpp:181-184 | exact ids of different methods or interfaces are different strings |
| `InterfaceIds.ParsedSeparate` | ltoplugin/LLGOInterfaceMethodTypeIDPass.cpp:154-189 | after parsing, an exact id belongs to one method of one interface |
| `InterfaceIds.CollectCalls` | ltoplugin/LLGOInterfaceMethodTypeIDPass.cpp:257-299 | it succeeds iff loads of one interface declare the same methods, and collects exactly the interfaces and the loads of each id |
| `InterfaceDescriptors.ClassifyBroad` | ltoplugin/LLGOInterfaceMethodTypeIDPass.cpp:203-227 | metadata and calls agree on which ids are shared by all methods of a name and signature, and which are exact |
| `InterfaceDescriptors.CollectTypeSlots` | ltoplugin/LLGOInterfaceMethodTypeIDPass.cpp:203-227 | it succeeds iff no method id has two offsets, and then holds exactly the slots of the metadata |
| `InterfaceDescriptors.CollectDescriptors` | ltoplugin/LLGOInterfaceMethodTypeIDPass.cpp:305-318 | descriptors are the eligible globals in order, none missing, and each bucket lists exactly the descriptors with its id |
| `InterfaceDescriptors.Seed` | ltoplugin/LLGOInterfaceMethodTypeIDPass.cpp:334-343 | a smallest bucket among the methods, or none iff a method has no bucket |
| `InterfaceDescriptors.SeedComplete` | ltoplugin/LLGOInterfaceMethodTypeIDPass.cpp:334-363 | every bucket of the interface holds every implementer, so the choice does not matter |
| `InterfacePass.AddExact` | ltoplugin/LLGOInterfaceMethodTypeIDPass.cpp:229-252 | the exact id gets the broad slot's offset; an existing different offset is an error |
| `InterfacePass.LinkedModule.Grant` | ltoplugin/LLGOInterfaceMethodTypeIDPass.cpp:334-363 | all descriptors are refined for one more interface, and it says whether it has an implementer |
| `InterfacePass.LinkedModule.FallBack` | ltoplugin/LLGOInterfaceMethodTypeIDPass.cpp:371-386 | exactly the loads of the interface get their method's broad id |
| `InterfacePass.RefinedUnique` | ltoplugin/LLGOInterfaceMethodTypeIDPass.cpp:323-386 | the refined slots are determined, whatever order the interfaces are taken in |
| `InterfacePass.Run` | ltoplugin/LLGOInterfaceMethodTypeIDPass.cpp:257-403 | the pass succeeds exactly on well-formed input without conflicting exact slots; then every descriptor has its old exact ids and those of the called methods of the interfaces it implements, at the broad offsets, and nothing else |
| `InterfaceEmission.KeyBroad` | ssa/globaldce.go:137-151 | the key of a method is taken for a shared id iff the method is exported or the path of its package does not begin like a reserved id |
| `InterfaceEmission.KeyInjective` | ssa/globaldce.go:137-151 | two methods have one key iff they have the same name, signature and, if unexported, package |
| `InterfaceEmission.UnluckyExample` | ssa/globaldce.go:137-151 | an unexported method of package `i` is taken for an exact id |
| `InterfaceEmission.AddMethodTypeMetadata` | ssa/globaldce.go:349-371 | each method gives its key and, if exported, two reflect ids with and without its name, at its two slots |
| `InterfaceEmission.CollectEmitted` | ltoplugin/LLGOInterfaceMethodTypeIDPass.cpp:203-227 | on emitted metadata the collection of slots succeeds and maps exactly the keys of the methods to their slots |
| `InterfaceEmission.LoadParses` | ssa/globaldce.go:228-254 | an emitted call is parsed back to its interface, method and method keys |
| `InterfaceEmission.RunEmitted` | ltoplugin/LLGOInterfaceMethodTypeIDPass.cpp:257-403 | on an emitted program the pass succeeds, and afterwards every call finds on every type that can be behind its interface exactly the slot of its method, on the others nothing if some type can be, and its method's slot if none can |
| `InterfacePass.TargetsKept` | ltoplugin/LLGOInterfaceMethodTypeIDPass.cpp:345-386 | every call still finds its method's slot on every descriptor that implements its interface |
| `InterfacePass.ExactOnly` | ltoplugin/LLGOInterfaceMethodTypeIDPass.cpp:345-363 | where there is an implementer, a descriptor answers to the call's id iff it covers the whole method set or carried that id before |
| `InterfacePass.FallbackKeepsBroad` | ltoplugin/LLGOInterfaceMethodTypeIDPass.cpp:365-386 | with no implementer a call finds on every descriptor what its broad id found before |
| `RootChain.ChainLists` | ssa/gcroot.go:58-208 | after every legal sequence of calls, returns, setjmps, longjmps, replayed entries and returns, reuse of stack memory and landings, the chain lists exactly the rooted frames of live activations, innermost first, each with its own root count; during a replay the saved header and chain still give that list |
| `RootChain.StepKeeps` | ssa/gcroot.go:58-208 | each operation keeps the invariant behind it |
| `RootChain.FirstReturnKeeps` | ssa/eh.go:409-412 | the repair after the first return of setjmp, by a helper that has linked a frame of its own, leaves the same chain and list |
| `RootChain.LandKeeps` | runtime/internal/runtime/defer_gcroot_wasm.go:35-46 | the repair after a later return lists exactly the frames up to the target, though replay reused stack slots |
| `RootChain.Relisted` | ssa/eh.go:394-413 | saved chain and header rebuild the list from any memory that kept the frames below |
| `RootChain.Chain.Push` | ssa/gcroot.go:58-114 | the inline prologue links, clears and publishes a frame, and stores nothing if the frame is the head or a replay is on |
| `RootChain.Chain.PushOutlined` | ssa/gcroot.go:305-368 | the outlined prologue reaches the same state |
| `RootChain.Chain.Pop` | ssa/gcroot.go:180-208 | only the head is popped; the outlined helper (lines 340-345) is the same load, select and store |
| `RootChain.Chain.Enter` | ssa/gcroot.go:58-114 | the emitted prologue performs the call step and clears the slots |
| `RootChain.Chain.Leave` | ssa/gcroot.go:180-208 | the emitted epilogue performs the return step |
| `RootChain.Chain.SetDeferGCRoot` | runtime/internal/runtime/defer_gcroot_wasm.go:27-33 | though its own frame is linked meanwhile, it saves the caller's chain and first header, which suffice to rebuild the list up to this activation |
| `RootChain.Chain.Rethrow` | runtime/internal/runtime/rethrow_wasm_gc.go:14-46 | the saved chain is installed, a replay starts and the frames below the target stay listed |
| `RootChain.Chain.ReplayEnter` | ssa/gcroot.go:58-114 | a replayed entry publishes nothing |
| `RootChain.Chain.ReplayLeave` | ssa/gcroot.go:180-208 | a replayed return of a frame that is not the head changes nothing |
| `RootChain.Chain.RestoreDeferGCRoot` | runtime/internal/runtime/defer_gcroot_wasm.go:39-46 | whether its own frame was linked or not, it ends with the saved chain, the saved header in place and the replay over |
| `RootChain.Chain.ReturnFirst` | ssa/eh.go:409-412 | after the first return of setjmp the chain is what it was |
| `RootChain.Chain.ReturnAgain` | runtime/internal/runtime/defer_gcroot_wasm.go:35-46 | after a later return the activations above the target are gone and the chain lists the rest |
| `RootLayout.AppendPointers` | ssa/gcroot.go:244-281 | it appends all pointers of a value in order, as many as the count of its type |
| `RootLayout.CountIsPointers` | ssa/gcroot.go:211-235 | the count of a type is the number of pointers in each of its values |
| `RootLayout.MayNotMeansZero` | cl/gcroot.go:142-166 | for non-tuple types, no possible root means count zero |
| `RootLayout.PrepareRoots` | cl/gcroot.go:84-139 | each counted value gets the consecutive slots after those before it, and the total is their sum, plus one for a closure context |
| `RootLayout.RangesDisjoint` | cl/gcroot.go:84-139 | ranges of different values do not overlap and lie inside the frame |
| `RootLayout.SlotOwner` | cl/gcroot.go:84-139 | every reserved slot belongs to some value |
| `RootLayout.PublishRoot` | cl/gcroot.go:286-304 | exactly the value's slots receive its pointers; the count check cannot fail |
| `RecoverScopes.RecoverFacts.FunctionUsesRecover` | cl/recover.go:92-118 | the memoised answer is whether the function calls recover |
| `RecoverScopes.RecoverFacts.NeedsRecoverScope` | cl/recover.go:139-201 | after any queries on any graph, the answer is whether a recover user, a bodyless function or a dispatching wrapper is reachable through transparent wrappers, and every cached entry is right |
| `RecoverScopes.QuietNeedsNothing` | cl/recover.go:194-200 | a set without hits and closed under forwarding needs nothing, so it can be cached in bulk |
| `CallerReach.RuntimeCallerAnalysis.ComputeReachability` | cl/instr.go:1720-1770 | in every order, it marks a function iff a call path of package functions leads from it to a caller-frame function or an unresolved call |
| `CallerReach.BackwardClosed` | cl/instr.go:1763-1769 | a set with all sources that is closed under callers holds every function that reaches one |
| `FloatMinMax.NaNExact` | ssa/float_minmax.go:46-71 | the integer test finds exactly the NaN encodings |
| `FloatMinMax.KeyOrder` | ssa/float_minmax.go:46-71 | unsigned order of the keys is the order of the numbers, with -0 below +0 |
| `FloatMinMax.MagnitudeMonotone` | ssa/float_minmax.go:46-71 | the decoding of section 3.4 of IEEE 754-2019 is strictly monotone in exponent and fraction |
| `FloatMinMax.MinMaxCorrect` | ssa/float_minmax.go:46-71 | for every format and all encodings, the result is the first NaN operand if there is one, else an operand that is the least or greatest |
| `FloatMinMax.BelowTotal` | ssa/float_minmax.go:46-71 | the order of numbers is total, so that least and greatest determine the result |
| `BoundsCheck.Split` | ssa/datastruct.go:246-322 | the two words of a failed wide check recombine to the index |
| `BoundsCheck.CheckIndex` | ssa/datastruct.go:246-322 | for every width and signedness it panics exactly when the mathematical index is outside [0, max), and otherwise returns it without loss |
| `BoundsCheck.ShortcutAgrees` | ssa/datastruct.go:214-230 | an index exempt from the check passes it |

## Left out

- Range-over-func defer stacks (explicit owner frames and their drain) are not modelled.
- Dispatch with no recorded statement and the recover tokens around deferred calls are not modelled.
- The lifetime proof that lets initializers keep collector roots: its set of preserved globals is an input.
- Static map initializers and complex constants are not folded by the model.
- CollectPair: says when it succeeds, not when it fails, because a way that fails may leave names behind that then take up room.
- CollectExtracted: a pointer taken from a value with a constant length succeeds on its own terms only, which do not enter `Ready`, because they need a run in which the value occurs.
- The test that an index is a loop counter is an input; every index in range is enumerated for a counter, so no claim rests on it.
- OnlyReadUses: does not say which order of uses makes it accept, because a use met in two ways is looked at once.
- The guard's answers are given to the collector as a set, and so are the parts of initializers at each offset and type, because LLVM's data layout is not modelled.
- CollectValue: pointer arithmetic into byte arrays appears only as constants with an offset.
- MinMaxCorrect: the NaN delivered is the operand unchanged; quieting is not modelled.
- ComputeReachability: resolving interface and function-value calls to targets is an input.
- Locks around the caches, verbose output and environment switches are not modelled.
- Block compilation order, debug information, descriptor tables, cgo and linkname handling would only add tables and plumbing.
- StoreTrie keeps the trie as a value that is replaced, so sharing of trie nodes is not modelled.
