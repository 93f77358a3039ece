# The algorithms of the Lua 5.3.2 interpreter

`webproxy_aws/temp/lua-5.3.2/src` holds the source of the Lua 5.3.2 interpreter. This project models its
algorithmic parts in Dafny, in the form in which they are written: fields and vectors that methods update in
place, loops, linked lists and relative links. It proves what these parts promise.

- **Garbage collector** (`Gc*.dfy`; lgc.c, lgc.h). The heap is a map from object ids to objects; the collector is a class
  whose methods change colours, gray lists and the list of all objects. Reachability is the least closed
  set, with ephemeron tables. `GcRuns` interleaves the steps of the collector with all that a program may do,
  in any order, where a step of the collector is a relation between states that its methods are proved to follow; nothing
  reachable is ever freed, and a full collection leaves exactly what is reachable.
- **Tables** (`Table*.dfy`; ltable.c). The hash part is a vector of nodes threaded by relative offsets, with
  Brent's variation and with dead keys left in the chains. It refines a finite map; rehashing preserves the
  map and makes room; traversal returns each entry once and then ends.
- **Expression compiler** (`Opcodes.dfy`, `Code*.dfy`; lcode.c, lopcodes.h, lvm.c). Jump lists are linked through the
  instructions they consist of. While code is generated some jumps are pending; what the code means is stated
  for runs that may leave by a pending jump. The final theorem is about a machine that runs the finished code.
- **Operator precedence** (`Precedence.dfy`, `Grammar.dfy`; lparser.c). Printing with the parentheses needed, and reading back;
  the grouping that the manual describes, for all operators.
- **String library** (`Match*.dfy`, `String{Quote,Lex,Laws}.dfy`, `Pack*.dfy`; lstrlib.c, llex.c). The pattern matcher
  against a declarative relation and its order of preference, `%q` against the lexer, and `pack` against `unpack` and `packsize`.
- **Sorting** (`SortOrder.dfy`, `Quicksort.dfy`; ltablib.c), **interned strings** (`StringTable.dfy`; lstring.c) and **open
  upvalues** (`OpenUpvalues.dfy`; lfunc.c, ldo.c).

What methods and their specifications share is pinned down apart from both: `CodeMeaning`, `GcLaws`, `Grammar`, `MatchLaws`,
`PackLaws` and `StringLaws` state, in bytes, values and registers, what the operators, objects, symbols, character classes,
options and escapes mean.

The platform is the usual one of 64 bits: `int` has 32 bits, `size_t`, `long` and `lua_Integer` have 64. Integers that
can wrap around in the source wrap around in the model. Errors that the source raises are results of the
methods. Memory that the allocator gives, hash functions, the conversion of numbers between float and double, the
comparison functions of scripts and the random pivot are parameters.

## Where the source does not do what it means to

- `computesizes` (ltable.c:221-240): with more than 2^30 keys for the array part, the doubling wraps to 0 at 32 bits, the
  loop goes on, and reads past the slice counts. `TableSizes.ComputeSizes` says exactly when.
- `str_find_aux` (lstrlib.c:634-641): `nospecials` does not know the closing parenthesis, so such a pattern is searched as
  plain text although as a pattern it is an error. `MatchFind.PlainSearchAgrees` says exactly when the two searches give the
  same, `MatchFind.ParenthesisDiffers` is an instance.
- `str_unpack` (lstrlib.c:1491-1496): the length of a zero-terminated string goes through `int`, so strings of 2^31 bytes do not
  come back (`PackStrings.RoundTrip`, both directions); a string without its zero is accepted, and the position returned
  is beyond the end. `PackEnds.UnpackEnds` and `PackEnds.UnpackedInside` say exactly when, for every format and all data;
  `PackEnds.UnterminatedAccepted` is an instance.
- `luaD_shrinkstack` (ldo.c:221-234): a stack of the extra size for error handling may be cut to the normal limit although a call
  reaches into the last slots, which then lie in the reserve; `stackinuse` asserts the contrary.
  `OpenUpvalues.RoomAfterShrink` gives the exact condition, `OpenUpvalues.SqueezedThread` an instance.

## Model

| member | source | states |
|---|---|---|
| GcHeap.InvImpliesSafe | webproxy_aws/temp/lua-5.3.2/src/lgc.c:235-283 | in every collector state, the invariant implies that every object the program can reach is allocated and will not be freed by the sweep |
| GcHeap.LiveIsClosed | webproxy_aws/temp/lua-5.3.2/src/lgc.h:14-26 | the objects that are not dead form a set closed under reachability, ephemeron tables included |
| GcLaws.RootsReachable | webproxy_aws/temp/lua-5.3.2/src/lgc.c:289-344 | what the roots are |
| GcLaws.UdataReaches | webproxy_aws/temp/lua-5.3.2/src/lgc.c:252-266 | userdata reach their metatable and user value |
| GcLaws.ClosureReaches | webproxy_aws/temp/lua-5.3.2/src/lgc.c:496-527 | closures and prototypes reach what they refer to and what their upvalues hold |
| GcLaws.ThreadReaches | webproxy_aws/temp/lua-5.3.2/src/lgc.c:530-552 | threads reach their stack |
| GcLaws.TableReaches | webproxy_aws/temp/lua-5.3.2/src/lgc.c:394-471 | tables reach their entries; ephemeron tables reach a value where the key is within reach, and string keys |
| GcLaws.NothingElse | webproxy_aws/temp/lua-5.3.2/src/lgc.c:985-1029 | nothing else is within reach |
| GcRuns.RunSafe | webproxy_aws/temp/lua-5.3.2/src/lgc.c:1048-1101 | over every run, that is every interleaving of collector steps, barriered writes, allocations, interning and changes of roots: everything reachable is allocated and not dead, and no collector step frees or changes it except for weak entries with unreachable keys; the steps are relations that say nothing of the invariant |
| GcRuns.RunTriColour | webproxy_aws/temp/lua-5.3.2/src/lgc.h:14-26 | in every state of every run up to GCSatomic: no black object refers to a white one, every gray object but the fixed ones is on a gray list, and threads are never black |
| GcRuns.NextInv | webproxy_aws/temp/lua-5.3.2/src/lgc.c:155-216 | every transition of the program and of the collector keeps the invariant; the collector steps are given by what they do (`GcSteps.Collects`), not by what they keep |
| GcCollector.Collector.ReallyMark | webproxy_aws/temp/lua-5.3.2/src/lgc.c:235-283 | the object is marked, only white objects change, all newly gray ones are on the gray list, and everything marked is forced by the argument; the loop on userdata ends |
| GcMarking.ReentryUdata | webproxy_aws/temp/lua-5.3.2/src/lgc.c:252-266 | one turn of the loop that follows the user values of userdata keeps the marking discipline and what is still pending |
| GcMarking.MarksKeepInv | webproxy_aws/temp/lua-5.3.2/src/lgc.c:235-283 | marking keeps the accounting of gray objects: every gray object is settled or waiting on a list |
| GcCollector.Collector.PropagateMark | webproxy_aws/temp/lua-5.3.2/src/lgc.c:559-600 | what is done with the first gray object, by its kind, is a visit as `GcAccounting.Visits` defines it; nothing is marked that the object does not force, and the accounting of gray objects is kept |
| GcAccounting.VisitPropagated | webproxy_aws/temp/lua-5.3.2/src/lgc.c:559-600 | every visit keeps the accounting: all that the object strongly holds is marked, each gray object is settled or waits on a list, and there is less left to do |
| GcCollector.Collector.TraverseEphemeron | webproxy_aws/temp/lua-5.3.2/src/lgc.c:394-430 | after the traversal the table is on the list that fits: `grayagain` while propagating; in the atomic step `ephemeron` if an unmarked key has an unmarked value, `allweak` if there is an unmarked key, else none |
| GcAccounting.EphemeronPropagated | webproxy_aws/temp/lua-5.3.2/src/lgc.c:451-471 | the traversal of an ephemeron table is complete: the table stays gray and every entry is settled or waits on the list where the table is |
| GcAccounting.BlackPropagated | webproxy_aws/temp/lua-5.3.2/src/lgc.c:433-527 | the traversal of a strong table, closure or prototype is complete: black, with everything it holds marked |
| GcAccounting.ThreadPropagated | webproxy_aws/temp/lua-5.3.2/src/lgc.c:530-552 | a traversed thread stays gray on `grayagain` |
| GcCollector.Collector.ConvergeEphemerons | webproxy_aws/temp/lua-5.3.2/src/lgc.c:608-623 | terminates; afterwards every entry of a marked ephemeron table with a marked key has a marked value |
| GcAtomic.ConvergedClosed | webproxy_aws/temp/lua-5.3.2/src/lgc.c:608-623 | once a whole round marks nothing, the marked objects are closed under reachability: the fixpoint is reached |
| GcAtomic.ListsSuffice | webproxy_aws/temp/lua-5.3.2/src/lgc.c:1004-1019 | clearing the tables of the two weak lists clears every marked table |
| GcAtomic.CleanedHolds | webproxy_aws/temp/lua-5.3.2/src/lgc.c:639-650 | after the atomic step, what is left in an object alive is alive: entries with dead keys are gone, all others were forced |
| GcCollector.Collector.ClearTable | webproxy_aws/temp/lua-5.3.2/src/lgc.c:639-650 | exactly the entries with clearable keys lose their value |
| GcCollector.Collector.Atomic | webproxy_aws/temp/lua-5.3.2/src/lgc.c:985-1029 | the objects alive afterwards form the least set that contains what was marked before and is closed under reachability; tables lose exactly the entries whose keys are outside it; all old white objects become dead by the flip |
| GcAtomic.AtomicFinish | webproxy_aws/temp/lua-5.3.2/src/lgc.c:985-1029 | what the flip of the current white makes of the converged marks |
| GcAtomic.AtomicAlive | webproxy_aws/temp/lua-5.3.2/src/lgc.c:985-1029 | after the atomic step the structure is sound and nothing alive refers to anything dead: the sweep may begin |
| GcAtomic.AtomicFrom | webproxy_aws/temp/lua-5.3.2/src/lgc.c:1061-1068 | propagating what is still gray and doing the atomic step then has the effect of the atomic step |
| GcSteps.AtomicReach | webproxy_aws/temp/lua-5.3.2/src/lgc.c:985-1029 | the atomic step does not change what the program can reach |
| GcSteps.AtomicExact | webproxy_aws/temp/lua-5.3.2/src/lgc.c:985-1029 | if only reachable objects were marked before, exactly the reachable ones are alive after |
| GcCollector.Collector.SweepList | webproxy_aws/temp/lua-5.3.2/src/lgc.c:734-751 | at most `count` objects: the dead ones of the stretch are gone, the others are white in the current white, the rest of the list is untouched, and the position to go on at is right |
| GcCollector.Collector.SweepToLive | webproxy_aws/temp/lua-5.3.2/src/lgc.c:757-766 | sweeps up to the first object that stays, and never goes on at the head of the list |
| GcCollector.Collector.EnterSweep | webproxy_aws/temp/lua-5.3.2/src/lgc.c:960-967 | sweeps up to the first object that stays, from the head of the list |
| GcSteps.EntersKeeps | webproxy_aws/temp/lua-5.3.2/src/lgc.c:960-967 | entering the sweep keeps the invariant, what the program can reach, and exactness |
| GcSweep.SweptKeeps | webproxy_aws/temp/lua-5.3.2/src/lgc.c:734-751 | sweeping a stretch frees dead objects only and keeps every reference of a live object leading to a live object |
| GcSweep.SweptReach | webproxy_aws/temp/lua-5.3.2/src/lgc.c:734-751 | if exactly the reachable objects are alive, they still are after sweeping a stretch |
| GcSweep.SweptStep | webproxy_aws/temp/lua-5.3.2/src/lgc.c:739-748 | one turn of the loop extends the swept stretch by one object |
| GcSteps.SweptPreserves | webproxy_aws/temp/lua-5.3.2/src/lgc.c:734-751 | nothing that the program can reach goes or changes by sweeping |
| GcSteps.PreservesTrans | webproxy_aws/temp/lua-5.3.2/src/lgc.c:1108-1112 | preservation of the reachable heap composes over steps |
| GcSteps.CollectsStepped | webproxy_aws/temp/lua-5.3.2/src/lgc.c:1048-1101 | each of the eight kinds of steps keeps the invariant and the reachable heap, advances the cycle, and keeps exactness |
| GcCollector.Collector.RestartCollection | webproxy_aws/temp/lua-5.3.2/src/lgc.c:337-344 | the gray lists are emptied and the main thread, the registry and the metatables marked, with all that this forces and no more |
| GcCollector.Collector.PropagateStep | webproxy_aws/temp/lua-5.3.2/src/lgc.c:1056-1062 | one visit, and the end of the phase when nothing is gray |
| GcCollector.Collector.AtomicStep | webproxy_aws/temp/lua-5.3.2/src/lgc.c:1063-1072 | what is still gray is propagated, then the atomic step, then the sweep is entered |
| GcCollector.Collector.SweepStep | webproxy_aws/temp/lua-5.3.2/src/lgc.c:1032-1045 | the next stretch of the list is swept, and the next state entered at its end |
| GcSteps.StepAdvances | webproxy_aws/temp/lua-5.3.2/src/lgc.c:1108-1112 | every step moves to the next of the eight states or leaves less work in the current one, so that any state is reached |
| GcSteps.ExactAtPause | webproxy_aws/temp/lua-5.3.2/src/lgc.c:1163-1179 | after an exact cycle the list of collectable objects holds exactly what the program can reach |
| GcCollector.Collector.SingleStep | webproxy_aws/temp/lua-5.3.2/src/lgc.c:1048-1101 | each of the eight cases does what the transition relation says, and so keeps the invariant and the reachable heap and advances the cycle |
| GcCollector.Collector.RunTilState | webproxy_aws/temp/lua-5.3.2/src/lgc.c:1108-1112 | terminates in one of the wanted states; a run from pause is exact |
| GcCollector.Collector.FullGC | webproxy_aws/temp/lua-5.3.2/src/lgc.c:1163-1179 | from any collector state: ends in pause, `allgc` is exactly the reachable objects other than fixed ones and the main thread, all white |
| GcMutator.StoreInv | webproxy_aws/temp/lua-5.3.2/src/lgc.h:118-132 | a store of reachable values breaks the invariant at most in the object stored into |
| GcMutator.ForwardMarks | webproxy_aws/temp/lua-5.3.2/src/lgc.c:155-164 | the forward barrier while marking restores the invariant |
| GcMutator.ForwardSweep | webproxy_aws/temp/lua-5.3.2/src/lgc.c:155-164 | the forward barrier while sweeping, which turns the object white, keeps the invariant |
| GcMutator.BackwardGray | webproxy_aws/temp/lua-5.3.2/src/lgc.c:171-176 | the backward barrier turns the table gray, puts it on `grayagain`, and restores the invariant |
| GcMutator.CellMarked | webproxy_aws/temp/lua-5.3.2/src/lgc.c:185-191 | the upvalue barrier restores the invariant whatever closures share the upvalue |
| GcMutator.NewInv | webproxy_aws/temp/lua-5.3.2/src/lgc.c:208-216 | a new object in the current white keeps the invariant, also during a sweep that has not passed it |
| GcMutator.ResurrectInv | webproxy_aws/temp/lua-5.3.2/src/lstring.c:173-180 | finding a dead string that is not yet swept and changing its white keeps the invariant |
| GcMutator.RootInv | webproxy_aws/temp/lua-5.3.2/src/lgc.c:337-344 | changing roots needs no barrier |
| GcMutator.FixInv | webproxy_aws/temp/lua-5.3.2/src/lgc.c:194-201 | fixing the newest object keeps the invariant: it is gray for ever and on no gray list |
| GcCollector.Collector.Barrier | webproxy_aws/temp/lua-5.3.2/src/lgc.c:155-164 | with its guard: keeps the invariant and has the effect that the transition system gives it |
| GcCollector.Collector.BarrierBack | webproxy_aws/temp/lua-5.3.2/src/lgc.c:171-176 | with its guard: one more of the stored values is harmless |
| GcCollector.Collector.SetEntry | webproxy_aws/temp/lua-5.3.2/src/ltable.c:483-490 | a new or assigned entry of the hash part, with the barrier for both key and value, is a transition of the run model |
| GcCollector.Collector.SetArray | webproxy_aws/temp/lua-5.3.2/src/lapi.c:830-842 | an assigned slot of the array part, likewise |
| GcCollector.Collector.SetMetatable | webproxy_aws/temp/lua-5.3.2/src/lapi.c:846-883 | an assigned metatable, likewise |
| GcCollector.Collector.SetUservalue | webproxy_aws/temp/lua-5.3.2/src/lapi.c:886-895 | an assigned user value, likewise |
| GcCollector.Collector.SetUpval | webproxy_aws/temp/lua-5.3.2/src/lgc.c:185-191 | assigning a shared closed upvalue is a transition of the run model |
| GcCollector.Collector.NewObj | webproxy_aws/temp/lua-5.3.2/src/lgc.c:208-216 | links the object at the head of `allgc` in the current white; the sweep pointer keeps its place |
| GcCollector.Collector.NewObject | webproxy_aws/temp/lua-5.3.2/src/lgc.c:208-216 | creating an object and leaving it on the stack is a transition of the run model |
| GcCollector.Collector.Reuse | webproxy_aws/temp/lua-5.3.2/src/lstring.c:173-180 | a string found in the string table is not dead when it is handed out |
| GcCollector.Collector.Fix | webproxy_aws/temp/lua-5.3.2/src/lgc.c:194-201 | moves the newest object to `fixedgc`, gray |
| TableInsert.LuaTable.Store | webproxy_aws/temp/lua-5.3.2/src/ltable.c:591-596 | `t[k] = v`: the table stands for the updated finite map, all other keys keep their values; nil and NaN keys are errors, and a float with an integer value is that integer; fails if and only if the key has no place and the sizes after counting overflow, never below 2^30 live keys |
| TableInsert.LuaTable.Lookup | webproxy_aws/temp/lua-5.3.2/src/ltable.c:570-584 | returns the value of the map, under the integer for a float with an integer value, and nil under nil and NaN |
| TableInsert.FloatIsInteger | webproxy_aws/temp/lua-5.3.2/src/ltable.c:442-451 | after storing under an integer or the float of that value, both find the value; what every other integer, float or key finds is unchanged |
| TableInsert.OthersStay | webproxy_aws/temp/lua-5.3.2/src/ltable.c:570-596 | after storing under any other key, that key finds the value and no other key is affected |
| TableInsert.LuaTable.Search | webproxy_aws/temp/lua-5.3.2/src/ltable.c:497-514 | finds the live node of a key through the relative links, or reports that there is none |
| TableInsert.LuaTable.GetCell | webproxy_aws/temp/lua-5.3.2/src/ltable.c:541-553 | the cell of the key, in the array or the hash part, or none if it has no value |
| TableInsert.LuaTable.GetFreePos | webproxy_aws/temp/lua-5.3.2/src/ltable.c:424-431 | the next free node below `lastfree`; none only if no node is free |
| TableInsert.LuaTable.FindPrevious | webproxy_aws/temp/lua-5.3.2/src/ltable.c:457-459 | the loop ends at the node whose link leads to the colliding one |
| TableInsert.LuaTable.InsertKey | webproxy_aws/temp/lua-5.3.2/src/ltable.c:442-491 | the three cases of the insertion: either the table has grown by the key alone, or no node is free, which is exactly when the key has no place, and nothing has changed |
| TableInsert.LuaTable.NewKey | webproxy_aws/temp/lua-5.3.2/src/ltable.c:442-491 | the map is unchanged and the returned cell belongs to the new key; the recursion through `rehash` ends after one rehash; fails if and only if `TableInsert.Fits` does not hold |
| TableNodes.PlaceValid | webproxy_aws/temp/lua-5.3.2/src/ltable.c:483-490 | main position free: links stay inside the vector, acyclic, with at most one predecessor, and every live key is reached from its main position |
| TableNodes.PlaceGet | webproxy_aws/temp/lua-5.3.2/src/ltable.c:483-490 | main position free: no stored value changes |
| TableNodes.ChainValid | webproxy_aws/temp/lua-5.3.2/src/ltable.c:473-481 | colliding node at home: the structure of the chains is kept |
| TableNodes.ChainGet | webproxy_aws/temp/lua-5.3.2/src/ltable.c:473-481 | colliding node at home: no stored value changes |
| TableNodes.MoveValid | webproxy_aws/temp/lua-5.3.2/src/ltable.c:456-471 | colliding node moved: the structure of the chains is kept |
| TableNodes.MoveGet | webproxy_aws/temp/lua-5.3.2/src/ltable.c:456-471 | colliding node moved: no stored value changes |
| TableNodes.BuryValid | webproxy_aws/temp/lua-5.3.2/src/lgc.c:125-129 | a removed entry keeps its node in its chain, with a dead key |
| TableNodes.SearchNext | webproxy_aws/temp/lua-5.3.2/src/ltable.c:541-553 | following one link loses no node that holds the key |
| TableSteps.PlaceFirst | webproxy_aws/temp/lua-5.3.2/src/ltable.c:483-490 | a live key comes before a dead key of the same object in its chain (main position free) |
| TableSteps.ChainFirst | webproxy_aws/temp/lua-5.3.2/src/ltable.c:473-481 | the same when the new node is chained |
| TableSteps.MoveFirst | webproxy_aws/temp/lua-5.3.2/src/ltable.c:456-471 | the same when the colliding node moves |
| TableSteps.BuryTable | webproxy_aws/temp/lua-5.3.2/src/lgc.c:125-129 | removing an entry without value leaves the map as it is |
| TableInsert.LuaTable.Resize | webproxy_aws/temp/lua-5.3.2/src/ltable.c:335-367 | whatever sizes with room for the keys that do not fit in the array part: the map is preserved while entries move between the parts |
| TableInsert.LuaTable.Rehash | webproxy_aws/temp/lua-5.3.2/src/ltable.c:378-395 | the map is preserved and afterwards there is room for the extra key, which needs no further rehash; fails exactly when the sizes computed are too large |
| TableInsert.FewFit | webproxy_aws/temp/lua-5.3.2/src/ltable.c:221-240 | below 2^30 live keys there is always room |
| TableInsert.RoomIs | webproxy_aws/temp/lua-5.3.2/src/ltable.c:378-395 | the condition under which a rehash fails, in terms of the live keys alone |
| TableInsert.BestUnique | webproxy_aws/temp/lua-5.3.2/src/ltable.c:221-240 | the size that `computesizes` looks for is unique |
| TableFill.FillStep | webproxy_aws/temp/lua-5.3.2/src/ltable.c:353-364 | putting one more entry of the old parts into the new ones |
| TableFill.FillRoom | webproxy_aws/temp/lua-5.3.2/src/ltable.c:353-364 | there is a free node for every entry still to be moved |
| TableFill.NodeCountIs | webproxy_aws/temp/lua-5.3.2/src/ltable.c:310-333 | the hash part has the smallest power of two of nodes that is enough |
| TableFill.Rehashed1 | webproxy_aws/temp/lua-5.3.2/src/ltable.c:456-462 | after a rehash the extra key is inserted without another one |
| TableFill.SizesFit | webproxy_aws/temp/lua-5.3.2/src/ltable.c:378-395 | the sizes that `rehash` computes have room for all live keys and the extra one |
| TableMap.CountedSum | webproxy_aws/temp/lua-5.3.2/src/ltable.c:259-298 | the slice counts add up to the number of candidate keys up to each power of two |
| TableSizes.CeilLog2 | webproxy_aws/temp/lua-5.3.2/src/lobject.c:65-80 | with its table of 256 logarithms: the least `l` with `x <= 2^l` |
| TableSizes.ComputeSizes | webproxy_aws/temp/lua-5.3.2/src/ltable.c:221-240 | the largest power of two with more than half of its slots in use, or 0, with the number of keys it holds; reads past the counts if and only if there are more than 2^30 keys, when the doubling wraps around |
| TableCount.MoreThanHalf | webproxy_aws/temp/lua-5.3.2/src/ltable.c:208-240 | in terms of the keys: more than half of the slots of the array part are for keys that there are, and at most half would be for any larger power of two |
| TableSizes.EmptySlice | webproxy_aws/temp/lua-5.3.2/src/ltable.c:230-235 | a slice without keys never makes a new candidate |
| TableSizes.TooLarge | webproxy_aws/temp/lua-5.3.2/src/ltable.c:227-229 | the early exit loses no candidate |
| TableCount.CountInt | webproxy_aws/temp/lua-5.3.2/src/ltable.c:243-251 | puts an integer key in the slice of its logarithm |
| TableCount.NumUseArray | webproxy_aws/temp/lua-5.3.2/src/ltable.c:259-282 | counts the values of the array part, slice by slice |
| TableCount.NumUseHash | webproxy_aws/temp/lua-5.3.2/src/ltable.c:285-298 | counts the live nodes, and those with integer keys by slice |
| TableInsert.LuaTable.FindIndex | webproxy_aws/temp/lua-5.3.2/src/ltable.c:161-185 | the position after the key that was returned before; fails only for a key that no node has |
| TableInsert.LuaTable.Next | webproxy_aws/temp/lua-5.3.2/src/ltable.c:188-205 | the next entry with a value from there on, or the end |
| TableTraverse.FoundAgain | webproxy_aws/temp/lua-5.3.2/src/ltable.c:161-185 | the search for a returned key finds its own node, also after existing entries were changed or cleared and their keys have died |
| TableTraverse.IndexAgain | webproxy_aws/temp/lua-5.3.2/src/ltable.c:161-185 | so the traversal goes on where it was |
| TableTraverse.ReturnedOnce | webproxy_aws/temp/lua-5.3.2/src/ltable.c:188-205 | no key is returned twice, and each with its value at that moment |
| TableTraverse.CallsDistinct | webproxy_aws/temp/lua-5.3.2/src/ltable.c:161-205 | any number of calls that go on where they left off, with assignments to existing entries meanwhile, return no key twice |
| TableTraverse.Progress | webproxy_aws/temp/lua-5.3.2/src/ltable.c:188-205 | each call goes on behind the one before: there are at most as many as the table has positions |
| TableTraverse.ReturnedOrAhead | webproxy_aws/temp/lua-5.3.2/src/ltable.c:188-205 | a key with a value all the time has been returned or is still ahead |
| TableTraverse.CallsUntouched | webproxy_aws/temp/lua-5.3.2/src/ltable.c:188-205 | on a table that nobody touches, any unfinished iteration has returned different live keys, and the next answer is the end exactly when all of them have been returned |
| TableTraverse.TraversalComplete | webproxy_aws/temp/lua-5.3.2/src/ltable.c:161-205 | a whole traversal with assignments to existing entries meanwhile: each key at most once, current values, and every key that has a value throughout; that there is one is `TableInsert.LuaTable.Traverse` |
| TableTraverse.TraversalUntouched | webproxy_aws/temp/lua-5.3.2/src/ltable.c:161-205 | on an unmodified table the keys returned are exactly those with a value, each once |
| TableTraverse.NeverInvalid | webproxy_aws/temp/lua-5.3.2/src/ltable.c:161-185 | the next call never raises "invalid key" |
| TableInsert.LuaTable.Apply | webproxy_aws/temp/lua-5.3.2/src/ltable.c:591-596 | assigning to existing entries, or clearing them, keeps every key in its position |
| TableInsert.LuaTable.Traverse | webproxy_aws/temp/lua-5.3.2/src/ltable.c:188-205 | calls `next` from nil on, with any assignments to existing entries between the calls, until it answers the end, which it does; the answers are a whole traversal, and without assignments they are exactly the live keys |
| TableInsert.LuaTable.Getn | webproxy_aws/temp/lua-5.3.2/src/ltable.c:641-657 | a boundary: the entry there has a value or it is 0, and the next one has none |
| TableInsert.LuaTable.UnboundSearch | webproxy_aws/temp/lua-5.3.2/src/ltable.c:613-634 | the same for tables that go on in the hash part, with its fallback to linear search |
| CodeProgram.CompileBody | webproxy_aws/temp/lua-5.3.2/src/lcode.c:496-933 | the code emitted for assignments of expressions to locals and a result, run on the machine of the opcode meanings from any registers, returns what the source means; all jumps are patched; a failure shows that the registers, the constants or the jump distance have reached the limit reported, and a body below all limits compiles |
| CodeMeaning.Comparison | webproxy_aws/temp/lua-5.3.2/src/lcode.c:825-838 | for all operands: which comparison the machine makes, of which operand first; greater-than is less-than with its operands exchanged, unequal is not equal |
| CodeMeaning.Mirrored | webproxy_aws/temp/lua-5.3.2/src/lcode.c:825-838 | `x > y` is `y < x`, `x >= y` is `y <= x`, `x ~= y` is `not (x == y)` |
| CodeMeaning.Literals | webproxy_aws/temp/lua-5.3.2/src/lcode.c:313-380 | two numerals, or two strings, are the same value if and only if they are equal; no numeral is a string; none is nil or a boolean |
| CodeMeaning.Logic | webproxy_aws/temp/lua-5.3.2/src/lcode.c:640-734 | only nil and false count as false; `and` and `or` give one of their operands; parentheses change nothing |
| CodeMeaning.Locals | webproxy_aws/temp/lua-5.3.2/src/lcode.c:407-412 | a local variable is its register |
| CodeMeaning.LocalsAllowed | webproxy_aws/temp/lua-5.3.2/src/lparser.c:1020-1070 | every expression over the active locals may be compiled |
| CodeMeaning.EvalReturns | webproxy_aws/temp/lua-5.3.2/src/lcode.c:496-933 | the same statements about the value that is returned, which `CompileBody` ensures of the machine on its code |
| CodeMeaning.Loads | webproxy_aws/temp/lua-5.3.2/src/lvm.c:784-792 | MOVE, LOADK and NOT, in terms of registers and constants |
| CodeMeaning.LoadsBool | webproxy_aws/temp/lua-5.3.2/src/lvm.c:800-804 | LOADBOOL, with and without the skip |
| CodeMeaning.LoadsNil | webproxy_aws/temp/lua-5.3.2/src/lvm.c:805-811 | LOADNIL clears a register and as many more as its operand says |
| CodeMeaning.Tests | webproxy_aws/temp/lua-5.3.2/src/lvm.c:1094-1110 | TEST and TESTSET |
| CodeMeaning.Compares | webproxy_aws/temp/lua-5.3.2/src/lvm.c:1065-1093 | EQ, LT and LE on registers and, from 256 on, constants |
| CodeMeaning.JumpsAndReturns | webproxy_aws/temp/lua-5.3.2/src/lvm.c:1061-1064 | JMP and RETURN |
| CodeProgram.Assigned | webproxy_aws/temp/lua-5.3.2/src/lparser.c:1155-1172 | assignments are made in order, each changing its local variable and no other |
| CodeProgram.SmallBodies | webproxy_aws/temp/lua-5.3.2/src/lcode.c:278-286 | bodies of up to 5000 nodes with few registers are below all limits, so they compile |
| CodeProgram.CompileStmts | webproxy_aws/temp/lua-5.3.2/src/lparser.c:1142-1172 | the assignments in order: the code does what they mean; sizes and the reason of a failure are bounded by the source text |
| CodeProgram.CompileStmt | webproxy_aws/temp/lua-5.3.2/src/lparser.c:1155-1172 | one assignment to a local variable, likewise |
| CodeProgram.CompileResult | webproxy_aws/temp/lua-5.3.2/src/lcode.c:86-88 | the result and its return instruction, likewise |
| CodeProgram.NextPart | webproxy_aws/temp/lua-5.3.2/src/lparser.c:1142-1172 | the bounds on code and constants add up over the assignments |
| CodeGen.FuncState.CompileExpr | webproxy_aws/temp/lua-5.3.2/src/lparser.c:1020-1070 | the code so far evaluates the expression up to what the description says: value, constant or pending comparison, with the jumps of the two lists still to be patched; active locals unchanged; the code, constants and registers used are bounded by the expression, and a failure shows which limit was reached |
| CodeGen.FuncState.CompileLogic | webproxy_aws/temp/lua-5.3.2/src/lcode.c:855-905 | `and` and `or` as a whole: the first operand, its jumps, the second operand |
| CodeGen.FuncState.InfixLogic | webproxy_aws/temp/lua-5.3.2/src/lcode.c:855-864 | after the first operand control goes on where the second one counts; the other ways are in the list |
| CodeGen.FuncState.PosfixLogic | webproxy_aws/temp/lua-5.3.2/src/lcode.c:885-900 | the lists of both operands joined stand for the value of the whole |
| CodeGen.FuncState.CompileRel | webproxy_aws/temp/lua-5.3.2/src/lcode.c:825-838 | a comparison as a whole |
| CodeGen.FuncState.Exp2Reg | webproxy_aws/temp/lua-5.3.2/src/lcode.c:496-517 | whichever way control takes, the value ends up in the target register |
| CodeGen.FuncState.BringHome | webproxy_aws/temp/lua-5.3.2/src/lcode.c:501-514 | both lists are patched so that value jumps bring their value and the others load false or true |
| CodeGen.FuncState.LoadBooleans | webproxy_aws/temp/lua-5.3.2/src/lcode.c:504-510 | the two loads and the jump over them do not disturb a value already in place |
| CodeGen.FuncState.Discharge2Reg | webproxy_aws/temp/lua-5.3.2/src/lcode.c:445-485 | one instruction puts the value in the register |
| CodeGen.FuncState.Discharge2AnyReg | webproxy_aws/temp/lua-5.3.2/src/lcode.c:488-493 | a value not yet in a register gets a new one |
| CodeGen.FuncState.Exp2NextReg | webproxy_aws/temp/lua-5.3.2/src/lcode.c:520-525 | the value is in the first free register, which is now in use |
| CodeGen.FuncState.Exp2AnyReg | webproxy_aws/temp/lua-5.3.2/src/lcode.c:528-539 | the value is in some register that is no local of another expression |
| CodeGen.FuncState.Exp2Val | webproxy_aws/temp/lua-5.3.2/src/lcode.c:548-553 | only an expression with jumps needs a register |
| CodeGen.FuncState.Exp2RK | webproxy_aws/temp/lua-5.3.2/src/lcode.c:556-589 | the operand is a register or a constant of the allowed range with the same value |
| CodeGen.FuncState.Val2RK | webproxy_aws/temp/lua-5.3.2/src/lcode.c:556-589 | the same after the expression has been discharged |
| CodeGen.FuncState.KeepConst | webproxy_aws/temp/lua-5.3.2/src/lcode.c:558-570 | a constant becomes an operand if its index fits |
| CodeGen.FuncState.KeepNum | webproxy_aws/temp/lua-5.3.2/src/lcode.c:574-584 | a numeral, likewise |
| CodeGen.FuncState.JumpOnCond | webproxy_aws/temp/lua-5.3.2/src/lcode.c:640-652 | the jump is taken if and only if the value counts as the condition; a NOT is replaced by the opposite test |
| CodeGen.FuncState.GoIfTrue | webproxy_aws/temp/lua-5.3.2/src/lcode.c:655-676 | control goes on exactly where the value is true; the other ways are in the list returned |
| CodeGen.FuncState.GoIfFalse | webproxy_aws/temp/lua-5.3.2/src/lcode.c:679-699 | control goes on exactly where the value is false |
| CodeGen.FuncState.CodeNot | webproxy_aws/temp/lua-5.3.2/src/lcode.c:702-734 | the description now stands for the negation; the lists are exchanged and bring no values |
| CodeGen.FuncState.NegateKind | webproxy_aws/temp/lua-5.3.2/src/lcode.c:704-727 | the negation before the lists are exchanged, by the kind of the expression |
| CodeGen.FuncState.NegateReg | webproxy_aws/temp/lua-5.3.2/src/lcode.c:717-725 | a value in a register is negated by a NOT instruction |
| CodeGen.FuncState.CodeComp | webproxy_aws/temp/lua-5.3.2/src/lcode.c:825-838 | the comparison jumps if it holds; greater-than exchanges its operands |
| CodeGen.FuncState.FixJump | webproxy_aws/temp/lua-5.3.2/src/lcode.c:97-104 | the offset becomes the distance to the target; too long jumps are an error |
| CodeGen.FuncState.Concat | webproxy_aws/temp/lua-5.3.2/src/lcode.c:215-226 | two disjoint lists become one with the jumps of both |
| CodeGen.FuncState.PatchTestReg | webproxy_aws/temp/lua-5.3.2/src/lcode.c:148-158 | a TESTSET gets the register or becomes a TEST |
| CodeGen.FuncState.RemoveValues | webproxy_aws/temp/lua-5.3.2/src/lcode.c:161-164 | no jump of the list brings a value any more |
| CodeGen.FuncState.PatchListAux | webproxy_aws/temp/lua-5.3.2/src/lcode.c:167-177 | value jumps go to the first target with the register set, the others to the second |
| CodeGen.FuncState.DischargeJpc | webproxy_aws/temp/lua-5.3.2/src/lcode.c:180-183 | the jumps to the next instruction get it as their target |
| CodeGen.FuncState.Code | webproxy_aws/temp/lua-5.3.2/src/lcode.c:229-241 | delayed jumps are patched before the instruction is emitted |
| CodeGen.FuncState.Jump | webproxy_aws/temp/lua-5.3.2/src/lcode.c:76-83 | the new jump takes along the jumps to here |
| CodeGen.FuncState.LoadNil | webproxy_aws/temp/lua-5.3.2/src/lcode.c:54-73 | registers of a preceding LOADNIL are merged only when no jump comes in between, and the same registers become nil |
| CodeGen.FuncState.AddK | webproxy_aws/temp/lua-5.3.2/src/lcode.c:313-337 | the index holds an equal constant; if there was one, it is reused and the constants are the same; too many constants exactly when a new one would exceed the limit |
| CodeLists.ListUnique | webproxy_aws/temp/lua-5.3.2/src/lcode.c:117-123 | the list at a jump is unique |
| CodeLists.ListDistinct | webproxy_aws/temp/lua-5.3.2/src/lcode.c:117-123 | a list that ends holds no jump twice: lists are acyclic |
| CodeLists.ListJoin | webproxy_aws/temp/lua-5.3.2/src/lcode.c:215-226 | linking the last jump of a list to another list gives their concatenation |
| CodeLists.PatchOne | webproxy_aws/temp/lua-5.3.2/src/lcode.c:167-177 | patching one more jump leaves the others pending |
| CodeExec.ExecSplit | webproxy_aws/temp/lua-5.3.2/src/lopcodes.h:171-235 | a run can be cut where no test is parted from its jump |
| CodeExec.PatchedExec | webproxy_aws/temp/lua-5.3.2/src/lcode.c:167-177 | after a patch, runs that left by one of the jumps go on at its target with the value brought |
| CodeExec.EmptiedExec | webproxy_aws/temp/lua-5.3.2/src/lcode.c:161-164 | dropping the value of a test changes no other register |
| CodeExec.EmittedSplit | webproxy_aws/temp/lua-5.3.2/src/lcode.c:229-241 | new instructions come after the old run |
| CodeSem.MergedSem | webproxy_aws/temp/lua-5.3.2/src/lcode.c:54-73 | an extended LOADNIL means both |
| CodeSem.RelocSem | webproxy_aws/temp/lua-5.3.2/src/lcode.c:445-485 | giving a relocatable instruction its register |
| CodeSem.LoadSem | webproxy_aws/temp/lua-5.3.2/src/lcode.c:445-485 | loading a value |
| CodeJumps.JumpSem | webproxy_aws/temp/lua-5.3.2/src/lcode.c:640-652 | a test and jump splits the runs by the truth of the value |
| CodeJumps.CompareJumps | webproxy_aws/temp/lua-5.3.2/src/lopcodes.h:207-209 | a comparison with its jump |
| CodeJumps.InvertedJumps | webproxy_aws/temp/lua-5.3.2/src/lcode.c:632-637 | the inverted comparison jumps in the opposite case |
| CodeJumps.TestSetJumps | webproxy_aws/temp/lua-5.3.2/src/lopcodes.h:211-212 | TESTSET with its jump, taken without a register |
| CodeJumps.NotJumps | webproxy_aws/temp/lua-5.3.2/src/lcode.c:641-648 | the test that replaces a NOT |
| CodeLogic.LogicSem | webproxy_aws/temp/lua-5.3.2/src/lcode.c:885-905 | `and` and `or`: short-circuit value of the joined lists |
| CodeLogic.TrueHere | webproxy_aws/temp/lua-5.3.2/src/lcode.c:655-676 | the true list goes on here |
| CodeLogic.NotConst | webproxy_aws/temp/lua-5.3.2/src/lcode.c:704-712 | negating a constant |
| CodeLogic.NotJmp | webproxy_aws/temp/lua-5.3.2/src/lcode.c:713-716 | negating a comparison |
| CodeLogic.NotReg | webproxy_aws/temp/lua-5.3.2/src/lcode.c:717-725 | negating a value in a register |
| CodeLogic.SwapSem | webproxy_aws/temp/lua-5.3.2/src/lcode.c:728-733 | exchanging the lists and removing their values negates |
| CodeHome.HomeSem | webproxy_aws/temp/lua-5.3.2/src/lcode.c:510-514 | patching one list brings its jumps home |
| CodeHome.SkippedRun | webproxy_aws/temp/lua-5.3.2/src/lcode.c:504-509 | the loads of false and true are jumped over by control that has the value already |
| CodeHome.KnownSem | webproxy_aws/temp/lua-5.3.2/src/lcode.c:500-509 | a comparison that did not jump loads false |
| CodeProgram.MachineFollows | webproxy_aws/temp/lua-5.3.2/src/lopcodes.h:171-235 | the machine on the final code follows the code under construction |
| CodeProgram.FinalCode | webproxy_aws/temp/lua-5.3.2/src/lcode.c:86-88 | after the return no jump is pending and every offset leads to its target |
| CodeProgram.ReturnsValue | webproxy_aws/temp/lua-5.3.2/src/lcode.c:86-88 | the machine returns the value of the result expression |
| MatchLoop.MatchState.Match | webproxy_aws/temp/lua-5.3.2/src/lstrlib.c:435-536 | the outcome that `MatchRun.Run` defines: the match that the pattern prefers, no match, or the error of the pattern, message included; it takes exactly the repetitions that `MatchRun.Work` counts, and the only other result is "pattern too complex", for which these do not suffice or the rest of the pattern is longer than the depth left; captures are restored where nothing is found |
| MatchLoop.MatchState.MaxExpand | webproxy_aws/temp/lua-5.3.2/src/lstrlib.c:371-383 | the match after the largest number of repetitions, up to all there are, after which the rest of the pattern matches; an error of the rest as soon as it is met |
| MatchLoop.MatchState.MinExpand | webproxy_aws/temp/lua-5.3.2/src/lstrlib.c:386-396 | the match after the smallest such number |
| MatchRun.RunAgrees | webproxy_aws/temp/lua-5.3.2/src/lstrlib.c:435-536 | sound and complete: a match is one that the declarative relation allows, with its captures, and where there is no match the relation allows none |
| MatchRun.Longest | webproxy_aws/temp/lua-5.3.2/src/lstrlib.c:371-383 | greedy repetition: the match is after `k` repetitions, and there is none after more |
| MatchRun.Shortest | webproxy_aws/temp/lua-5.3.2/src/lstrlib.c:386-396 | lazy repetition: there is none after fewer |
| MatchLoop.MatchState.StartCapture | webproxy_aws/temp/lua-5.3.2/src/lstrlib.c:399-410 | opens a capture, undone when the rest does not match; more than 32 are the error "too many captures" |
| MatchLoop.MatchState.EndCapture | webproxy_aws/temp/lua-5.3.2/src/lstrlib.c:413-421 | closes the last open capture, undone when the rest does not match; "invalid pattern capture" if none is open |
| MatchLoop.MatchState.MatchCapture | webproxy_aws/temp/lua-5.3.2/src/lstrlib.c:424-432 | a back reference repeats the text of a closed capture |
| MatchLoop.MatchState.MatchBalance | webproxy_aws/temp/lua-5.3.2/src/lstrlib.c:351-368 | the end of the shortest balanced text, if there is one |
| MatchLoop.MatchState.MatchBracketClass | webproxy_aws/temp/lua-5.3.2/src/lstrlib.c:312-332 | membership in a set with ranges, classes and complement |
| MatchLoop.MatchState.FindClassEnd | webproxy_aws/temp/lua-5.3.2/src/lstrlib.c:268-289 | the end of a single-character item, or the malformed-pattern error |
| MatchLoop.MatchState.SingleMatch | webproxy_aws/temp/lua-5.3.2/src/lstrlib.c:335-348 | whether one character matches the item |
| MatchLaws.ClassBytes | webproxy_aws/temp/lua-5.3.2/src/lstrlib.c:292-309 | the bytes of `%d`, `%l`, `%u`, `%s`, `%x`, `%c`, `%g` and `%z` |
| MatchLaws.ClassParts | webproxy_aws/temp/lua-5.3.2/src/lstrlib.c:292-309 | `%l` and `%u` are disjoint and make up `%a`; `%w` is `%a` or `%d`; `%p` is `%g` without `%w` |
| MatchLaws.ClassComplement | webproxy_aws/temp/lua-5.3.2/src/lstrlib.c:292-309 | an upper-case class letter is the complement of the lower-case one |
| MatchLaws.ClassLiteral | webproxy_aws/temp/lua-5.3.2/src/lstrlib.c:292-309 | every other escape stands for itself |
| MatchLaws.AnyItem | webproxy_aws/temp/lua-5.3.2/src/lstrlib.c:335-348 | a dot stands for every character |
| MatchLaws.LiteralItem | webproxy_aws/temp/lua-5.3.2/src/lstrlib.c:335-348 | a character without special meaning stands for itself |
| MatchLaws.EscapedItem | webproxy_aws/temp/lua-5.3.2/src/lstrlib.c:335-348 | an escape stands for its class |
| MatchLaws.SetItem | webproxy_aws/temp/lua-5.3.2/src/lstrlib.c:312-332 | the items of a set: classes, ranges, characters |
| MatchLaws.CharacterSet | webproxy_aws/temp/lua-5.3.2/src/lstrlib.c:312-332 | a set of plain characters stands for these |
| MatchLaws.RangeItem | webproxy_aws/temp/lua-5.3.2/src/lstrlib.c:312-332 | `[x-y]` |
| MatchLaws.NoRangeItem | webproxy_aws/temp/lua-5.3.2/src/lstrlib.c:312-332 | `[^x-y]` |
| MatchLaws.SetEndsAt | webproxy_aws/temp/lua-5.3.2/src/lstrlib.c:268-289 | a set ends at the first closing bracket after its first character |
| MatchLaws.UnfinishedItem | webproxy_aws/temp/lua-5.3.2/src/lstrlib.c:268-289 | the errors of patterns that end too early |
| MatchLoop.MatchState.MatchItem | webproxy_aws/temp/lua-5.3.2/src/lstrlib.c:488-531 | a single-character item with an optional suffix: the outcome of the pattern, or where to go on with the same outcome |
| MatchLaws.Greedy | webproxy_aws/temp/lua-5.3.2/src/lstrlib.c:511-522 | `*` and `+` on a row of `n` characters of the item: the outcome is that of the rest of the pattern after the largest number of them, not below none or one, after which it does not fail |
| MatchLaws.Lazy | webproxy_aws/temp/lua-5.3.2/src/lstrlib.c:523-526 | `-`: the smallest number |
| MatchLaws.OptionalOrOnce | webproxy_aws/temp/lua-5.3.2/src/lstrlib.c:503-530 | `?` and no suffix |
| MatchLaws.ItemWork | webproxy_aws/temp/lua-5.3.2/src/lstrlib.c:488-502 | which matches of single characters count as repetitions |
| MatchLaws.GreedyWork | webproxy_aws/temp/lua-5.3.2/src/lstrlib.c:371-383 | a row that is taken at once counts as one repetition |
| MatchLoop.MatchState.MatchEscape | webproxy_aws/temp/lua-5.3.2/src/lstrlib.c:453-487 | balanced text, frontiers and back references: the outcome of the pattern, errors included, or where to go on with the same outcome |
| MatchPattern.CanRepeat | webproxy_aws/temp/lua-5.3.2/src/lstrlib.c:371-383 | the relation for `*`, `+` and `-`: some number of repetitions |
| MatchPattern.CanFrontier | webproxy_aws/temp/lua-5.3.2/src/lstrlib.c:457-468 | the relation for frontiers |
| MatchPattern.CanBalance | webproxy_aws/temp/lua-5.3.2/src/lstrlib.c:351-368 | the relation for balanced text |
| MatchLaws.BalancedCounts | webproxy_aws/temp/lua-5.3.2/src/lstrlib.c:351-368 | `%bxy`: as many `x` as `y`, and more of them in every shorter piece from the start |
| MatchLaws.BalancedPair | webproxy_aws/temp/lua-5.3.2/src/lstrlib.c:351-368 | `%bxx`: up to the next `x` |
| MatchLaws.BalanceItem | webproxy_aws/temp/lua-5.3.2/src/lstrlib.c:453-456 | balanced text in a pattern |
| MatchLaws.FrontierAt | webproxy_aws/temp/lua-5.3.2/src/lstrlib.c:457-468 | a frontier: the character before is not in the set, the one after is; both ends of the subject count as zeros |
| MatchLaws.CaptureItems | webproxy_aws/temp/lua-5.3.2/src/lstrlib.c:440-450 | captures are opened where the parentheses are; at most 32 |
| MatchLaws.CaptureEnds | webproxy_aws/temp/lua-5.3.2/src/lstrlib.c:413-421 | a closing parenthesis ends the capture opened last |
| MatchLaws.BackReference | webproxy_aws/temp/lua-5.3.2/src/lstrlib.c:424-432 | `%1` to `%9`: the text of the capture again, or the error |
| MatchLaws.PatternEnd | webproxy_aws/temp/lua-5.3.2/src/lstrlib.c:448-452 | the end of the pattern, and `$` there |
| MatchFind.Find | webproxy_aws/temp/lua-5.3.2/src/lstrlib.c:623-667 | the loop over start positions ends where `MatchFind.Search` says, with its match, error or failure; only the start is tried if anchored |
| MatchFind.SearchFirst | webproxy_aws/temp/lua-5.3.2/src/lstrlib.c:653-663 | a search that finds something finds a match at the first position that has one; one that fails shows that no position has one |
| MatchFind.StrFind | webproxy_aws/temp/lua-5.3.2/src/lstrlib.c:623-671 | `find`: the plain search when asked for or when there are no special characters, the pattern search otherwise, from any initial position; "pattern too complex" only for patterns of 200 characters or more, or if the search takes more than 4 times the length of the subject plus 100000 repetitions |
| MatchFind.HasNoSpecials | webproxy_aws/temp/lua-5.3.2/src/lstrlib.c:592-600 | whether the pattern has special characters, over embedded zeros |
| MatchFind.SpecialBytes | webproxy_aws/temp/lua-5.3.2/src/lstrlib.c:592-600 | the special characters, byte by byte |
| MatchFind.Anchored | webproxy_aws/temp/lua-5.3.2/src/lstrlib.c:646-653 | a caret at the start of the pattern fixes where the match starts |
| MatchFind.MemFind | webproxy_aws/temp/lua-5.3.2/src/lstrlib.c:540-559 | the first occurrence of the text |
| MatchFind.PlainRun | webproxy_aws/temp/lua-5.3.2/src/lstrlib.c:435-536 | a pattern without special characters matches exactly its own text, up to its first closing parenthesis, which is an error |
| MatchFind.PlainSearchAgrees | webproxy_aws/temp/lua-5.3.2/src/lstrlib.c:634-641 | for every subject, pattern without special characters and initial position: the plain search gives what the pattern search gives if and only if the pattern has no closing parenthesis or the text before the first one does not occur; and they agree on whether something is found if and only if there is no closing parenthesis or no occurrence |
| MatchFind.ParenthesisDiffers | webproxy_aws/temp/lua-5.3.2/src/lstrlib.c:592-600 | an instance: `)` is found in `)`, and is an error as a pattern |
| Quicksort.Sort | webproxy_aws/temp/lua-5.3.2/src/ltablib.c:409-420 | under any comparison function: ends, keeps the elements, and nests at most about log2(n) calls; under a strict weak order: sorted, and never "invalid order function" |
| SortOrder.StrictWeakIs | webproxy_aws/temp/lua-5.3.2/src/ltablib.c:283-296 | which comparison functions are valid; comparing by a key is |
| SortOrder.FollowsIs | webproxy_aws/temp/lua-5.3.2/src/ltablib.c:283-296 | what it means that the function always answers as the order says |
| Quicksort.Sorter.AuxSort | webproxy_aws/temp/lua-5.3.2/src/ltablib.c:355-406 | the same for a segment, which alone is permuted |
| Quicksort.Sorter.Partition | webproxy_aws/temp/lua-5.3.2/src/ltablib.c:306-336 | stays inside the segment; the pivot is at its place with smaller elements before and larger ones after it |
| Quicksort.Sorter.ScanUp | webproxy_aws/temp/lua-5.3.2/src/ltablib.c:312-317 | the index stays inside or the order is reported invalid, which cannot happen for a strict weak order |
| Quicksort.Sorter.ScanDown | webproxy_aws/temp/lua-5.3.2/src/ltablib.c:319-325 | the same downwards |
| Quicksort.Sorter.PlacePivot | webproxy_aws/temp/lua-5.3.2/src/ltablib.c:357-390 | median of three, and segments of two or three elements |
| Quicksort.ChoosePivot | webproxy_aws/temp/lua-5.3.2/src/ltablib.c:343-349 | an element of the middle half |
| SortOrder.SettledPermuted | webproxy_aws/temp/lua-5.3.2/src/ltablib.c:355-406 | permuting a segment keeps what is settled outside it |
| SortOrder.BelowDone | webproxy_aws/temp/lua-5.3.2/src/ltablib.c:392-396 | after the part below the pivot is sorted, only the part above remains |
| SortOrder.AboveDone | webproxy_aws/temp/lua-5.3.2/src/ltablib.c:397-401 | the other way round |
| StringQuote.QuoteRoundTrip | webproxy_aws/temp/lua-5.3.2/src/lstrlib.c:925-947 | lexing the text of `%q` gives every byte string back, with the line ends counted, embedded zeros, carriage returns and control bytes before digits included |
| StringQuote.AddQuoted | webproxy_aws/temp/lua-5.3.2/src/lstrlib.c:925-947 | the loop writes the quoted text |
| StringLaws.QuotedPair | webproxy_aws/temp/lua-5.3.2/src/lstrlib.c:929-932 | quotes, backslashes and newlines get a backslash |
| StringLaws.QuotedControl | webproxy_aws/temp/lua-5.3.2/src/lstrlib.c:933-941 | zeros and control characters are written in decimal, with three digits before a digit |
| StringLaws.QuotedPlain | webproxy_aws/temp/lua-5.3.2/src/lstrlib.c:942-943 | all other characters are written as they are |
| StringLex.QuoteAndRead | webproxy_aws/temp/lua-5.3.2/src/llex.c:397-457 | the lexer run on the output of `%q` returns the string; the only error is too many lines |
| StringLex.LexState.ReadString | webproxy_aws/temp/lua-5.3.2/src/llex.c:397-457 | reads a literal as the definition of its text says, errors included |
| StringLex.LexState.ReadEscapeSequence | webproxy_aws/temp/lua-5.3.2/src/llex.c:407-449 | all escape sequences |
| StringLaws.NamedEscapes | webproxy_aws/temp/lua-5.3.2/src/llex.c:412-424 | the byte of each escape of one character |
| StringLaws.HexEscape | webproxy_aws/temp/lua-5.3.2/src/llex.c:419 | `\xXX` |
| StringLaws.NoHexEscape | webproxy_aws/temp/lua-5.3.2/src/llex.c:419 | anything but two hexadecimal digits is an error |
| StringLaws.OneDigitEscape | webproxy_aws/temp/lua-5.3.2/src/llex.c:384-394 | a decimal escape of one digit |
| StringLaws.TwoDigitEscape | webproxy_aws/temp/lua-5.3.2/src/llex.c:384-394 | a decimal escape of two digits |
| StringLaws.ThreeDigitEscape | webproxy_aws/temp/lua-5.3.2/src/llex.c:384-394 | a decimal escape of three digits, up to 255 |
| StringLaws.UnicodeEscape | webproxy_aws/temp/lua-5.3.2/src/llex.c:358-382 | `\u{XXX}` with any number of digits, up to 0x10FFFF |
| StringLaws.Utf8Decodes | webproxy_aws/temp/lua-5.3.2/src/lobject.c:304-319 | how many bytes the encoding has, what they look like, and that they give the value back |
| StringLaws.LineEndEscape | webproxy_aws/temp/lua-5.3.2/src/llex.c:421-422 | a line end of one or two characters is a newline |
| StringLaws.SkipEscape | webproxy_aws/temp/lua-5.3.2/src/llex.c:426-434 | `\z` skips the white space that follows |
| StringLaws.LiteralEnds | webproxy_aws/temp/lua-5.3.2/src/llex.c:397-406 | where a literal ends, and what does not belong into it |
| StringLex.LexState.ReadDecEsc | webproxy_aws/temp/lua-5.3.2/src/llex.c:384-394 | up to three digits; values above 255 are errors |
| StringLex.LexState.ReadUtf8Esc | webproxy_aws/temp/lua-5.3.2/src/llex.c:358-373 | hexadecimal digits up to the brace; too large values are errors |
| StringLex.LexState.IncLineNumber | webproxy_aws/temp/lua-5.3.2/src/llex.c:151-159 | a line end of one or two characters counts once |
| StringLex.Utf8Esc | webproxy_aws/temp/lua-5.3.2/src/lobject.c:304-319 | the bytes built backwards are the UTF-8 encoding |
| Precedence.ReadBack | webproxy_aws/temp/lua-5.3.2/src/lparser.c:1043-1070 | a tree printed with only the parentheses that its priorities demand is read back as the same tree, and reading stops at the first operator of no higher left priority, if and only if the nesting is within the limit |
| Precedence.ReadBare | webproxy_aws/temp/lua-5.3.2/src/lparser.c:1043-1070 | the same for the text without outer parentheses, where it fits |
| Precedence.Needed | webproxy_aws/temp/lua-5.3.2/src/lparser.c:1020-1037 | where a tree does not fit, its text without parentheses is read as something else |
| Precedence.MoreKeeps | webproxy_aws/temp/lua-5.3.2/src/lparser.c:1060-1067 | the operator loop keeps the tree read so far as its left end |
| Precedence.Parser.SubExpr | webproxy_aws/temp/lua-5.3.2/src/lparser.c:1043-1070 | reads what the grammar by priorities says, which the laws of `Grammar` pin down, and returns the operator it stops at |
| Grammar.Grouping | webproxy_aws/temp/lua-5.3.2/src/lparser.c:1020-1070 | for any two operators and any operands: `a op1 b op2 c` groups as the levels of section 3.4.8 of the manual say, to the left on the same level except for `..` and `^` |
| Grammar.UnaryGrouping | webproxy_aws/temp/lua-5.3.2/src/lparser.c:1036-1056 | a unary operator takes `a ^ b` whole, and only `a` before every other binary operator |
| Grammar.UnaryOperand | webproxy_aws/temp/lua-5.3.2/src/lparser.c:1047-1067 | to the right of a binary operator a unary one applies to its operand |
| Grammar.NamesGroup | webproxy_aws/temp/lua-5.3.2/src/lparser.c:1043-1070 | `a - b - c`, `a ^ b ^ c` and `- a ^ b` |
| Grammar.LogicSymbols | webproxy_aws/temp/lua-5.3.2/src/lparser.c:992-1017 | the symbols of the logical operators and comparisons |
| Grammar.BitSymbols | webproxy_aws/temp/lua-5.3.2/src/lparser.c:992-1017 | the symbols of the operators on bits |
| Grammar.ValueSymbols | webproxy_aws/temp/lua-5.3.2/src/lparser.c:992-1017 | the symbols of arithmetic and concatenation |
| Grammar.NoSymbol | webproxy_aws/temp/lua-5.3.2/src/lparser.c:992-1017 | nothing else is a binary operator |
| Grammar.UnarySymbols | webproxy_aws/temp/lua-5.3.2/src/lparser.c:981-989 | the symbols of the unary operators, and no others |
| Grammar.NestingLimit | webproxy_aws/temp/lua-5.3.2/src/lparser.c:326-330 | 200 levels of nesting |
| Grammar.EnclosedOperand | webproxy_aws/temp/lua-5.3.2/src/lparser.c:865-978 | an expression in parentheses is an operand |
| Precedence.Parser.Operand | webproxy_aws/temp/lua-5.3.2/src/lparser.c:1047-1056 | unary operators and simple expressions |
| Precedence.Parser.SimpleExp | webproxy_aws/temp/lua-5.3.2/src/lparser.c:865-978 | names and expressions in parentheses |
| StringTable.Table.Resize | webproxy_aws/temp/lua-5.3.2/src/lstring.c:71-96 | in place, between sizes of which one divides the other: every string once, the same set, each in the bucket of its hash; the vanishing slice is empty before it goes |
| StringTable.Table.Intern | webproxy_aws/temp/lua-5.3.2/src/lstring.c:167-193 | the one string of the table with this text, or a new one; the table never holds two equal strings, and doubles exactly when it is full and not too large |
| StringTable.Table.Create | webproxy_aws/temp/lua-5.3.2/src/lstring.c:184-192 | the new string is linked in, and nothing else changes |
| StringTable.Table.Find | webproxy_aws/temp/lua-5.3.2/src/lstring.c:173-182 | looking in one bucket is enough |
| StringTable.Table.Remove | webproxy_aws/temp/lua-5.3.2/src/lstring.c:154-161 | exactly this string leaves the table |
| StringTable.NewPosition | webproxy_aws/temp/lua-5.3.2/src/lstring.c:81-90 | a string of bucket `i` stays, or goes to a bucket dealt with before or beyond the old size: no string is visited twice |
| StringTable.MoveStep | webproxy_aws/temp/lua-5.3.2/src/lstring.c:84-90 | moving one string keeps all chains disjoint |
| StringTable.VanishingEmpty | webproxy_aws/temp/lua-5.3.2/src/lstring.c:91-94 | after the rehash no bucket from the new size on has a string |
| StringTable.PowersCompatible | webproxy_aws/temp/lua-5.3.2/src/lstring.c:86 | every two powers of two are sizes that `Resize` may go between |
| StringTable.NotElsewhere | webproxy_aws/temp/lua-5.3.2/src/lstring.c:173-182 | a text missing in the bucket of its hash is not in the table |
| OpenUpvalues.State.FindUpval | webproxy_aws/temp/lua-5.3.2/src/lfunc.c:57-80 | the only upvalue of the slot: the one other closures share, or a new one; the list stays strictly descending and no value seen through an upvalue changes |
| OpenUpvalues.State.Close | webproxy_aws/temp/lua-5.3.2/src/lfunc.c:83-96 | exactly the upvalues at or above the level are detached: closed over the value of their slot, or freed when no closure refers to them; those below are as they were |
| OpenUpvalues.State.constructor | webproxy_aws/temp/lua-5.3.2/src/lstate.c:152-168 | a new thread has no upvalues and one call, and is in order |
| OpenUpvalues.ClosingKeepsValues | webproxy_aws/temp/lua-5.3.2/src/lfunc.c:83-96 | closing changes the value seen through no upvalue, and frees none that has a reference |
| OpenUpvalues.InsertOpen | webproxy_aws/temp/lua-5.3.2/src/lfunc.c:68-75 | linking in keeps the list strictly descending |
| OpenUpvalues.CloseStep | webproxy_aws/temp/lua-5.3.2/src/lfunc.c:85-95 | one more upvalue closed |
| OpenUpvalues.State.CorrectStack | webproxy_aws/temp/lua-5.3.2/src/ldo.c:158-170 | every pointer into the old stack becomes the pointer to the same offset of the new one |
| OpenUpvalues.State.ReallocStack | webproxy_aws/temp/lua-5.3.2/src/ldo.c:177-188 | the thread is the same elsewhere; new slots hold nil |
| OpenUpvalues.MovingKeepsValues | webproxy_aws/temp/lua-5.3.2/src/ldo.c:158-188 | wherever the stack goes, every upvalue keeps its value |
| OpenUpvalues.State.GrowStack | webproxy_aws/temp/lua-5.3.2/src/ldo.c:191-207 | twice the size within the limit, or more if the slots asked for need it; else the error-handling size and "stack overflow"; and an error in an error changes nothing |
| OpenUpvalues.State.StackInUse | webproxy_aws/temp/lua-5.3.2/src/ldo.c:210-218 | the highest slot in use, over all calls |
| OpenUpvalues.State.ShrinkStack | webproxy_aws/temp/lua-5.3.2/src/ldo.c:221-234 | cuts the stack to the part in use and an eighth, within the limit; keeps all values; all calls still end below the reserve if and only if the stack was not in the squeezed case |
| OpenUpvalues.RoomAfterShrink | webproxy_aws/temp/lua-5.3.2/src/ldo.c:221-234 | the exact condition under which the assertion of `stackinuse` survives a shrink |
| OpenUpvalues.SqueezedThread | webproxy_aws/temp/lua-5.3.2/src/ldo.c:221-234 | a thread for which it does not, with frames as calls of Lua functions make them |
| PackStrings.RoundTrip | webproxy_aws/temp/lua-5.3.2/src/lstrlib.c:1297-1506 | for every format and all arguments that pack accepts: unpack returns the values and the length plus one, if and only if no zero-terminated string has 2^31 bytes or more |
| PackRoundTrip.RoundTripFrom | webproxy_aws/temp/lua-5.3.2/src/lstrlib.c:1297-1506 | the same from any point of the format, with the text anywhere in a longer string |
| PackStrings.ArgumentsBack | webproxy_aws/temp/lua-5.3.2/src/lstrlib.c:1297-1506 | the values are the arguments themselves but for strings of another than the fixed length and numbers rounded to floats |
| PackStrings.SizeOfPacked | webproxy_aws/temp/lua-5.3.2/src/lstrlib.c:1386-1408 | packsize gives the length of what pack writes, and fails exactly for variable-length formats and results beyond the limit |
| PackRoundTrip.SizeExact | webproxy_aws/temp/lua-5.3.2/src/lstrlib.c:1386-1408 | the same from any point of the format |
| PackStrings.StrPack | webproxy_aws/temp/lua-5.3.2/src/lstrlib.c:1297-1383 | writes what the format says, or reports the first error |
| PackLaws.IntegerBytes | webproxy_aws/temp/lua-5.3.2/src/lstrlib.c:1262-1330 | for every option for integers, in either byte order: exactly the integers of its size are accepted, and they are written byte by byte |
| PackLaws.FloatBytes | webproxy_aws/temp/lua-5.3.2/src/lstrlib.c:1331-1342 | `f` has 4 bytes, `d` and `n` have 8, in the order asked for |
| PackLaws.ZeroTerminated | webproxy_aws/temp/lua-5.3.2/src/lstrlib.c:1366-1374 | `z` |
| PackLaws.CountedString | webproxy_aws/temp/lua-5.3.2/src/lstrlib.c:1355-1365 | `s`: the length in so many bytes, which has to fit, and the string |
| PackLaws.FixedString | webproxy_aws/temp/lua-5.3.2/src/lstrlib.c:1343-1354 | `c`: cut, or filled up with zeros |
| PackLaws.Padding | webproxy_aws/temp/lua-5.3.2/src/lstrlib.c:1375-1378 | `x` and the space |
| PackLaws.NativeOrder | webproxy_aws/temp/lua-5.3.2/src/lstrlib.c:1177-1182 | a format starts in the byte order of the machine |
| PackLaws.OtherOptions | webproxy_aws/temp/lua-5.3.2/src/lstrlib.c:1188-1223 | there are no other options |
| PackLaws.AlignedAfterByte | webproxy_aws/temp/lua-5.3.2/src/lstrlib.c:1235-1253 | after `!` an option starts at a multiple of its size; without it nothing is skipped |
| PackLaws.AlignedX | webproxy_aws/temp/lua-5.3.2/src/lstrlib.c:1240-1243 | `X` skips to a multiple of the size of the option after it |
| PackLaws.NumeralDigit | webproxy_aws/temp/lua-5.3.2/src/lstrlib.c:1149-1159 | numerals are read as long as they fit in an `int` |
| PackStrings.PackOption | webproxy_aws/temp/lua-5.3.2/src/lstrlib.c:1305-1379 | one option: its padding and its bytes, or the error of its argument |
| PackStrings.StrPackSize | webproxy_aws/temp/lua-5.3.2/src/lstrlib.c:1386-1408 | computes the size, or reports the first error |
| PackStrings.StrUnpack | webproxy_aws/temp/lua-5.3.2/src/lstrlib.c:1445-1506 | reads what the format says, from any initial position, or reports the first error |
| PackLaws.IntegerRead | webproxy_aws/temp/lua-5.3.2/src/lstrlib.c:1419-1442 | any bytes of the right number are the text of one integer, which is what is read |
| PackLaws.TooShort | webproxy_aws/temp/lua-5.3.2/src/lstrlib.c:1457-1458 | data too short for an integer are refused |
| PackLaws.ShortIs | webproxy_aws/temp/lua-5.3.2/src/lstrlib.c:1491-1496 | which strings are too long to come back |
| Sequences.PositionNames | webproxy_aws/temp/lua-5.3.2/src/lstrlib.c:61-65 | position -1 is the last one, and every position has two names |
| PackEnds.UnpackEnds | webproxy_aws/temp/lua-5.3.2/src/lstrlib.c:1442-1506 | for every format and all data: unpacking ends inside the data if and only if no zero-terminated string that it reads is cut off by the end; otherwise it ends one byte after the data, and the string cut off is the last thing read |
| PackEnds.UnpackedInside | webproxy_aws/temp/lua-5.3.2/src/lstrlib.c:1442-1506 | the same for the position that `string.unpack` returns; the position after a string cut off is refused by another call |
| PackEnds.ZeroTermEnd | webproxy_aws/temp/lua-5.3.2/src/lstrlib.c:1491-1496 | one `z`: it ends inside the data if and only if a zero follows (below 2^31 bytes), otherwise one byte after them |
| PackEnds.NothingAfterEnd | webproxy_aws/temp/lua-5.3.2/src/lstrlib.c:1450-1458 | from one byte after the data no option is read |
| PackEnds.UnterminatedAccepted | webproxy_aws/temp/lua-5.3.2/src/lstrlib.c:1491-1496 | an instance: all data without a zero are read by `z` as one string |
| PackFields.CountInside | webproxy_aws/temp/lua-5.3.2/src/lstrlib.c:1483-1490 | although the sum may wrap around, no counted string is read beyond the data |
| PackInts.SignedBack | webproxy_aws/temp/lua-5.3.2/src/lstrlib.c:1262-1276 | a signed integer that fits in 1 to 16 bytes comes back |
| PackInts.UnsignedBack | webproxy_aws/temp/lua-5.3.2/src/lstrlib.c:1419-1442 | an unsigned integer, likewise |
| PackInts.OnlyFitting | webproxy_aws/temp/lua-5.3.2/src/lstrlib.c:1315-1327 | the overflow checks refuse no integer that would come back |
| PackInts.NumberLow | webproxy_aws/temp/lua-5.3.2/src/lstrlib.c:1262-1270 | the bytes written stand for the number modulo a power of 256 |
| PackBuffer.Buffer.PackInt | webproxy_aws/temp/lua-5.3.2/src/lstrlib.c:1262-1276 | the two's complement in either byte order, with the sign extended beyond eight bytes |
| PackBuffer.UnpackInt | webproxy_aws/temp/lua-5.3.2/src/lstrlib.c:1419-1442 | the integer that the bytes hold, or the error that it is none of eight bytes |
| PackBuffer.LongInt | webproxy_aws/temp/lua-5.3.2/src/lstrlib.c:1434-1440 | the check of the bytes beyond the eighth accepts exactly the integers of eight bytes |
| PackBuffer.ShortInt | webproxy_aws/temp/lua-5.3.2/src/lstrlib.c:1428-1433 | flipping the sign bit and taking it away extends the sign |
| PackBuffer.CopyWithEndian | webproxy_aws/temp/lua-5.3.2/src/lstrlib.c:1283-1294 | a copy, reversed when the byte orders differ |
| PackFormat.Reader.GetNum | webproxy_aws/temp/lua-5.3.2/src/lstrlib.c:1149-1159 | the numeral, read as far as `int` allows |
| PackFormat.Reader.GetOption | webproxy_aws/temp/lua-5.3.2/src/lstrlib.c:1188-1223 | every option with its size, its error, and its effect on the header |
| PackFormat.Reader.GetDetails | webproxy_aws/temp/lua-5.3.2/src/lstrlib.c:1235-1253 | the gap before the option, computed with bit operations, and the alignment errors |
| PackFormat.GapLeast | webproxy_aws/temp/lua-5.3.2/src/lstrlib.c:1244-1251 | the gap is the least that leads to a multiple of the alignment |
| PackFormat.PowerBits | webproxy_aws/temp/lua-5.3.2/src/lstrlib.c:1249 | the bit test recognises exactly the powers of two |
| PackFormat.GapBits | webproxy_aws/temp/lua-5.3.2/src/lstrlib.c:1251 | the bit operations compute the gap |

## Left out

- The Ruby, Python, PHP and shell code of the repository: glue around other programs.
- lvm.c: of the interpreter's loop only the opcodes that the modelled expressions compile to are here (`Opcodes.Effect`, the
  meanings of lopcodes.h, which lvm.c:784-811, 1038-1043 and 1061-1110 implement). lundump.c, ldump.c and lzio.c: binary chunks.
- Garbage collector: finalizers, weak-value and all-weak tables, the cache of closures in prototypes, emergency
  collection, debt and pacing (`sweepMax` stands for the amount of a sweep step), and the shrinking of the
  string table. Open upvalues are slots of the stack of their thread. The gray lists that the source threads
  through the objects are sequences.
- Garbage collector: objects and references are ids in a map, so pointer representation is not captured.
- Tables: metamethods, and tables whose size overflows: after a `TableOverflow` nothing is said of the table. Float
  keys with integer values are normalised by `Store` and `Lookup`, not by `Next`.
- TableInsert.LuaTable.Resize: asks for room in the hash part for what does not fit in the array part, as `rehash` leaves and as
  growing the array part or sizing an empty table does; shrinking a table below its keys, which no caller
  does, is left out.
- Compiler: calls, upvalues, indexing, arithmetic, concatenation, constant folding, assignment to several variables, `goto` and
  line information. Comparisons are deterministic and raise no errors. Expressions come as trees; how they
  are parsed is the subject of `Precedence`.
- CodeGen.FuncState.AddK: more than 2^18 constants, for which the source uses OP_LOADKX, are an error here.
- Pattern matcher: locale (the C locale is built in), `gsub`, `gmatch` and what is done with the captures.
- GcCollector.Collector.Fix: only strings, and only while the collector pauses, as all callers do: they fix reserved
  words, names of metamethods and the memory error message while the state is created.
- Quicksort.Sort: the elements are those of an array, not of a table with metamethods; the index of the first one is 0.
- String table: the cache of `luaS_new` and long strings, which are never interned. Resurrection is in `GcMutator`.
- Open upvalues: the reference counts that `pushclosure` in lvm.c keeps; the list of threads with open upvalues is one
  flag here.
- OpenUpvalues.State.Close: the upvalue barrier after closing is not part of this module; `GcMutator.CellMarked` is about it.
- OpenUpvalues.State.ShrinkStack: the list of unused calls, which is shrunk with the stack, is left out.
- `pack`: arguments have their types already, so conversions between strings and numbers are left out; the
  number of results is not limited. Floats are byte strings with given conversions.
- liolib.c, loslib.c, loadlib.c, ldblib.c and the thin parts of the C interface, which would only add easy members.
