# Verified models of the embedded Lua 5.1.4 and Box2D 2.1.2

The repository is a thin iPad shell around two embedded libraries. This project models their hardest
algorithms and proves what they are for:

- **Code generator** (`Bytecode`, `Expressions`, `JumpLists`, `ExprMeaning`, `CodeGen`, `CodeLaws`): `and`, `or`,
  `not` and comparisons are compiled into test-and-jump code. Pending jumps are threaded through the instructions and
  patched later. The meaning of unfinished code is given by an executor that stops at pending jumps; finished code is run as
  the virtual machine runs it. What it leaves is `Expressions.Emitted`, compared there with the short-circuit value
  `Expressions.Eval` of section 2.5.3 of the Lua 5.1 Reference Manual.
- **Collector** (`Heap`, `Marking`, `WeakTables`, `Sweeping`, `Garbage`, `Collector`): the incremental tri-colour
  collector with both barriers, weak tables and string buckets, interleaved with a mutator that can do anything to
  objects it reaches. A run is any sequence of `Op`.
- **Tables** (`Powers`, `Chains`, `TableSizes`, `Table`): array part and chained scatter hash, proved to be a finite
  map (`Table.Table.ValueAt`). A ghost place of each node on its chain stands for the paths of the links.
- **Pattern matcher** (`PatternMeaning`, `Matcher`, `MatchLaws`): compared with a meaning in which a list of choices
  says how often each quantified item repeats; greedy and lazy items only differ in which choices are preferred.
- **Dynamic tree and broad-phase** (`Boxes`, `TreeShape`, `DynamicTree`, `BroadPhase`, `BoxLaws`): a pooled,
  index-linked tree whose queries agree with brute force over the live proxies.
- **Quicksort** (`Quicksort`): `table.sort` with its sentinels and its bounded recursion.
- **Chunks** (`ChunkFormat`, `ChunkDump`, `ChunkUndump`, `ChunkLaws`): precompiled functions written and read back.

Where the source updates objects in place the model has a class with the same fields, and its methods make the same
changes in the same order. Errors are results, not preconditions. What the code cannot decide itself is a parameter:
the outcomes of comparisons of values, the hash of a number, the order handed to `sort`, the bytecode verifier, the
writer of a dump, and the callback of a query.

The modules whose names end in `Laws`, `Collector.GlobalState.CollectGarbage` and `Collector.GlobalState.Run` say what
the main operations do in plain terms: characters, coordinates, bytes, fields, and the outcomes of comparisons. What
they state does not depend on the definitions that the code of the model and its specifications share.

What came out differently from what one would expect:

- In `((a and b) or false) and c` the literal makes the generator emit an unconditional jump, and `luaK_jump` lets it
  absorb the exit of `a and b`, whose value then reaches the result: with a nil the code yields nil instead of false
  (`CodeGen.AbsorbedExitIsWrong`). The theorems about compiled code hold for every expression: they say what it does
  leave. `Expressions.Right` follows the branch through an expression, without evaluating it: no exit may bring a
  value that a literal took over. Right expressions are compiled correctly (`Expressions.CourseRight`), and where no
  local is read twice no others are (`Expressions.ExactlyRight`). A wrong value can also be masked: with `or d` behind
  it the expression above is right again (`Expressions.MasksExit`).
- A pattern with `)` may be found as plain text but raise an error as a pattern, since the list of special characters
  in `lstrlib.c` does not have it. The two searches agree if and only if the pattern has no `)` or the text before
  the first one does not occur (`Matcher.StrMatch`, `Matcher.LoneParenthesis`).
- The loop that adjusts ancestors after a removal never gets further than the first (`DynamicTree.StopsAtOnce`).
- Destroying a proxy leaves a stale entry in the move buffer exactly when it was buffered more than once
  (`BroadPhase.Phase.DestroyProxy`), as after one move (`BroadPhase.StaleEntry`). `UpdatePairs` needs buffers
  without stale entries.
- Strings that a weak table referred to only in entries that are removed survive that collection
  (`Collector.Collected`): `iscleared` marks them.

## Model

| member | source | states |
|---|---|---|
| Bytecode.ExecRefines | Classes/Lua/lcode.c:131-176 | Back-patching keeps meaning: code whose pending jumps were redirected and that was extended behaves as running the old code up to where it stopped, storing what the patched control stores, and going on from there. |
| Bytecode.ExecIsRun | Classes/Lua/lvm.c:541-581 | The executor used in the proofs, which stops at jumps still pending, agrees with the virtual machine on code that meets none. |
| CodeGen.FuncState.FixJump | Classes/Lua/lcode.c:80-87 | The jump is re-aimed, unless its offset does not fit in either direction; then nothing changes. |
| CodeGen.FuncState.Concat | Classes/Lua/lcode.c:185-196 | Two disjoint lists threaded through the code become one that visits the first and then the second; only links of the first change; it fails exactly when the last jump cannot reach the second list. |
| CodeGen.FuncState.NeedValue | Classes/Lua/lcode.c:122-128 | Answers whether some jump on the list is not controlled by a TESTSET. |
| CodeGen.FuncState.PatchTestReg | Classes/Lua/lcode.c:131-141 | Only a TESTSET control is changed: to the given register, or to a TEST when the value is not wanted there. |
| CodeGen.FuncState.RemoveValues | Classes/Lua/lcode.c:144-147 | Every TESTSET that controls a jump on the list becomes a TEST; the list and all else stay. |
| CodeGen.FuncState.PatchListAux | Classes/Lua/lcode.c:150-160 | The walk over the list ends with each listed jump at vtarget when a TESTSET controls it and at dtarget otherwise, and no instruction but those jumps and their controls changed. |
| CodeGen.FuncState.Code | Classes/Lua/lcode.c:797-809 | Emitting an instruction first lands all jumps pending on it. |
| CodeGen.FuncState.Jump | Classes/Lua/lcode.c:59-66 | An unconditional jump takes the jumps pending on it into its own list instead of letting them land on it. |
| CodeGen.FuncState.PatchToHere | Classes/Lua/lcode.c:179-182 | The list joins, behind what is there, the jumps pending on the next instruction. |
| CodeGen.FuncState.AddK | Classes/Lua/lcode.c:229-247 | A constant is found again or appended; the table overflows exactly when the constant is new and the table has reached its limit. |
| CodeGen.FuncState.Discharge2Reg | Classes/Lua/lcode.c:343-379 | The value the descriptor stands for is brought into the register, meaning the same expression as before, with the locals and all older code kept. |
| CodeGen.FuncState.Exp2Reg | Classes/Lua/lcode.c:390-411 | All exits of an expression, those with a value and those that need the loads of false and true, meet behind it with its short-circuit value in the register. |
| CodeGen.FuncState.Exp2NextReg | Classes/Lua/lcode.c:414-419 | The same for the first free register, which is then taken. |
| CodeGen.FuncState.Exp2RK | Classes/Lua/lcode.c:444-469 | The operand ends up in a register or among the constants an instruction can address, standing for the same value. |
| CodeGen.FuncState.JumpOnCond | Classes/Lua/lcode.c:524-536 | Emits a test that leaves when the truth is as asked; a `not` just emitted is taken back and its condition reversed. |
| CodeGen.FuncState.GoIfTrue | Classes/Lua/lcode.c:539-564 | Control goes on exactly when the value that arrives is true, and every false exit carries what it should; a literal false absorbs the jumps pending on it with what they carry. |
| CodeGen.FuncState.GoIfFalse | Classes/Lua/lcode.c:567-591 | The same for going on when the value is false. |
| CodeGen.FuncState.CodeNot | Classes/Lua/lcode.c:594-626 | The descriptor now stands for the negation: exits are exchanged and stripped of their values, comparisons inverted, constants folded. |
| CodeGen.FuncState.CodeComp | Classes/Lua/lcode.c:681-694 | Two operands and a comparison, `>` and `>=` with operands exchanged, become a conditional jump that stands for the comparison of their values. |
| CodeGen.FuncState.Infix | Classes/Lua/lcode.c:718-742 | After the first operand the code waits for the second, whichever operator comes between. |
| CodeGen.FuncState.Posfix | Classes/Lua/lcode.c:745-789 | After the second operand the descriptor stands for the whole binary expression, with locals, older code and pending jumps kept. |
| CodeGen.FuncState.Compile | Classes/Lua/lcode.c:718-789 | For every expression the calls made in source order give a descriptor that stands for the way of that expression, absorbed exits included; code, constants and registers used are bounded by its size, and it fails only when one of them is exhausted. |
| CodeGen.FuncState.Assign | Classes/Lua/lcode.c:472-480 | The code made for a local variable computes what the emitted form of the expression says and fails only when a resource is exhausted. |
| CodeGen.CompileAssignment | Classes/Lua/lcode.c:472-480 | Running the finished code of `v = x`, for every x, leaves in v what the emitted form of x says and every other local unchanged; that is the short-circuit value if x is right, and some registers get another value if it is not and reads no local twice. Every expression with params + size + 8 <= 250 does compile. |
| CodeGen.CompileLocal | Classes/Lua/lcode.c:414-419 | The same for `local v = x`: the value is in the first free register, and every local is unchanged. |
| CodeLaws.Leaves | Classes/Lua/lcode.c:343-379 | The code of `v = x` leaves the local, true, false, the number or the string that x is. |
| CodeLaws.Connectives | Classes/Lua/lcode.c:539-626 | For any y and z: `not y` leaves true just when y leaves nil or false, `y and z` what y leaves if that is nil or false and else what z leaves, `y or z` the other way round. |
| CodeLaws.LocalConnectives | Classes/Lua/lcode.c:539-626 | The same for two locals, whose values are given outright. |
| CodeLaws.Comparisons | Classes/Lua/lcode.c:780-785 | For any y and z each of the six comparisons leaves the answer of `==`, `<` or `<=` on what y and z leave: `~=` its opposite, `>` and `>=` that of `<` and `<=` with the operands exchanged. |
| CodeLaws.Exchanged | Classes/Lua/lcode.c:681-694 | `y > z` leaves what `z < y` leaves, `y >= z` what `z <= y` leaves, and `y ~= z` the opposite of `y == z`. |
| CodeLaws.ComparedNumbers | Classes/Lua/lcode.c:681-694 | When the relation is the order of numbers, the six comparisons of two locals that hold m and n leave m = n, m != n, m < n, m <= n, m > n and m >= n. |
| Expressions.CourseRight | Classes/Lua/lcode.c:516-626 | The emitted code takes every right expression to its short-circuit value, whatever the comparisons answer and whatever value the jumps that lead to it carry. |
| Expressions.Mistaken | Classes/Lua/lcode.c:516-626 | For every expression that is not right and reads no local twice there are registers for which the emitted code leaves another value. |
| Expressions.ExactlyRight | Classes/Lua/lcode.c:516-626 | So where no local is read twice, right is exactly: correct for all comparisons and registers. |
| Expressions.CourseFollows | Classes/Lua/lcode.c:516-626 | For all expressions, the way the emitted code takes is one of those listed statically, and does right by the value except on the ways where a literal took over a value. |
| Expressions.UsualRight | Classes/Lua/lcode.c:516-626 | Every expression in which literals are at most last operands of `and` and `or` is right, whatever the jumps that lead to it carry. |
| Expressions.TestsLeavePlain | Classes/Lua/lcode.c:524-536 | Comparisons and `not` leave without a value, so `((a < b and c) or false) and d` and `((not a and b) or false) and c` are right. |
| Expressions.MasksExit | Classes/Lua/lcode.c:567-591 | `x and c or d` is right whatever values literals took over in x: they leave it only when false, and `or` goes on then. |
| Expressions.AbsorbsExit | Classes/Lua/lcode.c:551-559 | `(x or false) and y` is not right whenever x can be left through a false exit that carries its value. |
| CodeGen.EmitAbsorbedExit | Classes/Lua/lcode.c:59-66 | For `((a and b) or false) and c` the generator emits, without fail, the code of the next row: the jump for the literal takes over an exit that carries a value. |
| CodeGen.AbsorbedExitIsWrong | Classes/Lua/lcode.c:59-66 | That code leaves the value of the expression if and only if a is not nil; for a nil a it leaves nil instead of false. |
| CodeGen.AbsorbedExitIsNotRight | Classes/Lua/lcode.c:551-559 | That expression reads no local twice and is not right, so the exact condition foretells the failure. |
| JumpLists.ListAppend | Classes/Lua/lcode.c:185-196 | Linking the last jump of one list to the head of a disjoint one makes the concatenated list. |
| ExprMeaning.NotMeans | Classes/Lua/lcode.c:594-626 | Exchanging and stripping the exits of an expression makes them those of its negation. |
| ExprMeaning.FinishedMeans | Classes/Lua/lcode.c:390-411 | Code whose exits were patched to the end or to the loads delivers the value of the expression from every exit. |
| Heap.FollowWithin | Classes/Lua/lgc.c:69-270 | Nothing outside a set that holds the roots and is closed under references can be reached by any path. |
| Heap.MarkedFields | Classes/Lua/lgc.c:158-270 | A traversal marks an object exactly when one of the listed fields refers to it: metatable and environment of userdata; environment, prototype and upvalues of a closure; source, constants, upvalue names, prototypes and names of locals of a prototype; metatable, items and non-empty entries of a table unless weak; globals and stack of a thread. |
| Heap.ReachableByFields | Classes/Lua/lgc.c:69-270 | Reachable and strongly reachable are: at the end of a path from a root along those fields. |
| Collector.GlobalState.ReallyMarkObject | Classes/Lua/lgc.c:69-112 | The object is not white afterwards; what it and, for userdata and upvalues, their referents gained is gray and listed, and only objects of a closed set are marked. |
| Collector.GlobalState.PropagateMark | Classes/Lua/lgc.c:277-320 | One gray object is traversed: the tri-colour invariant holds again, tables found weak and threads are left gray on their lists, and the work left shrinks. |
| Collector.GlobalState.PropagateAll | Classes/Lua/lgc.c:323-327 | Propagation ends with no gray object left on the gray list and the invariant kept. |
| Marking.MarkedKeepsTricolour | Classes/Lua/lgc.c:69-112 | Marking white objects, in any number, never makes a black object refer to a white one and keeps each gray object on one list. |
| Marking.WriteTricolour | Classes/Lua/lgc.h:86-98 | After a store only the object written can be black and refer to a white one, and only through the value stored. |
| Marking.BackTricolour | Classes/Lua/lgc.c:675-683 | Making the written table gray again and linking it in grayagain restores the invariant. |
| Collector.GlobalState.ClearTable | Classes/Lua/lgc.c:351-375 | Exactly the entries whose weak key or value was not marked are emptied; strings met on the way are marked and stay. |
| Collector.GlobalState.ClearTables | Classes/Lua/lgc.c:351-375 | The whole weak list is cleared so, each table once. |
| WeakTables.KeptSettled | Classes/Lua/lgc.c:351-375 | A cleared table refers to nothing white, weakly or strongly. |
| WeakTables.ClearedClosed | Classes/Lua/lgc.c:525-553 | After propagation and clearing no marked object refers to a white one. |
| Collector.GlobalState.MarkRoot | Classes/Lua/lgc.c:501-512 | From a heap all in the current white, marking starts from main thread, its globals, registry and basic metatables with the invariant holding. |
| Collector.GlobalState.Atomic | Classes/Lua/lgc.c:525-553 | The uninterrupted end of marking: what is not white is closed under references and holds all roots, what was strongly reachable is marked and nothing outside the given closed set is, and the other white becomes current. |
| Collector.MarkingOver | Classes/Lua/lgc.c:525-553 | Why: an empty gray list, settled threads and cleared weak tables leave the marked objects closed. |
| Sweeping.FlippedClosed | Classes/Lua/lgc.c:546-551 | Changing the current white dooms exactly the objects still white and not fixed, none of them reachable. |
| Collector.GlobalState.SweepList | Classes/Lua/lgc.c:407-428 | At most count objects from the place on: the dead ones leave the list and the heap, the others become current white and keep their order, and the place moves behind them. |
| Sweeping.BucketSwept | Classes/Lua/lgc.c:573-583 | Sweeping one string bucket leaves the lists chaining exactly the heap, with all buckets up to it swept. |
| Sweeping.RootsSwept | Classes/Lua/lgc.c:584-596 | The same for a piece of the object list. |
| Collector.GlobalState.SingleStep | Classes/Lua/lgc.c:556-607 | Every step of every phase keeps the whole invariant, changes the heap only as its phase may, and moves the collector strictly nearer to the pause. |
| Collector.GlobalState.FullGC | Classes/Lua/lgc.c:636-659 | From any state in mid-cycle a full collection terminates in the pause and has collected exactly (next rows). |
| Collector.GlobalState.CollectGarbage | Classes/Lua/lapi.c:913-916 | Field by field, weak tables or not: after a collection every reference in every field of every object left, and every root, leads to an object in the heap; what was strongly reachable is there, and besides only fixed objects and strings; no body has changed but for table entries that referred to what is gone, which are empty. |
| Collector.ReachMarked | Classes/Lua/lgc.c:636-659 | Marked means strongly reachable, in both directions. |
| Collector.CollectedAll | Classes/Lua/lgc.c:636-659 | Sweeping the rest of an interrupted cycle, marking anew and sweeping again leaves: everything strongly reachable, fixed objects, strings met in weak tables, and nothing else, all in the current white, bodies changed only by weak clearing. |
| Collector.CollectedWithoutWeak | Classes/Lua/lgc.c:636-659 | Without weak tables in reach: exactly the reachable and the fixed objects, none of them changed. |
| Collector.GlobalState.BarrierF | Classes/Lua/lgc.c:662-672 | The forward barrier restores the invariant in every phase: the new value is marked while marking and the object whitened while sweeping. |
| Collector.GlobalState.BarrierBack | Classes/Lua/lgc.c:675-683 | The backward barrier restores the invariant for tables in every phase. |
| Collector.GlobalState.Write | Classes/Lua/lgc.h:86-98 | Every store of a value in a field, upvalue or stack slot, with the barrier its object needs or none for threads, keeps the invariant and stores just that. |
| Collector.GlobalState.Link | Classes/Lua/lgc.c:686-692 | A new object, current white in front of the list, keeps the invariant even in the middle of a sweep. |
| Collector.GlobalState.NewString | Classes/Lua/lstring.c:50-72 | The same for a new string in its bucket. |
| Collector.GlobalState.Resurrect | Classes/Lua/lstring.c:75-93 | A string found again in its bucket although doomed is safe to use. |
| Collector.GlobalState.Resume | Classes/Lua/lgc.c:535-537 | The running thread, a root, may change between steps. |
| Collector.GlobalState.SetBasicMetatables | Classes/Lua/lgc.c:493-497 | So may the basic metatables. |
| Sweeping.ReachableAlive | Classes/Lua/lgc.c:407-428 | In every state of the invariant whatever can be reached is in the heap and not doomed. |
| Collector.GlobalState.Execute | Classes/Lua/lgc.c:556-607 | Any one operation of the mutator or the collector removes nothing that was reachable before it (strongly reachable, for a whole collection), and gives no way back to what was cut off. |
| Collector.GlobalState.Run | Classes/Lua/lgc.c:525-607 | Safety over all runs: after any sequence of steps, collections, creations, stores, thread switches and metatable changes the roots, and all that fields lead to from there, are in the heap. |
| Collector.GlobalState.Cycle | Classes/Lua/lgc.c:525-607 | Completeness over all runs: what could not be reached when a cycle began is gone when everything has been swept, whatever the mutator did in between, unless it is a string or fixed or its address was given to a new object. |
| Garbage.UnreachableWalled | Classes/Lua/lgc.c:69-270 | Nothing that can be reached refers to what cannot, not even weakly. |
| Garbage.AtomicDooms | Classes/Lua/lgc.c:525-553 | What nothing outside refers to is still white at the end of marking, and so doomed. |
| Collector.GlobalState.constructor | Classes/Lua/lstate.c:143-190 | The first state, with main thread, globals and registry alone, satisfies the invariant. |
| Chains.OnePredecessor | Classes/Lua/ltable.c:399-429 | No two nodes link to the same one. |
| Chains.Reuse | Classes/Lua/ltable.c:399-429 | A key put over an empty entry in its main position keeps every key on the chain from its main position. |
| Chains.Displace | Classes/Lua/ltable.c:408-418 | Moving a colliding node out of a place that is not its own, behind its predecessor, does too. |
| Chains.Append | Classes/Lua/ltable.c:419-425 | So does putting the new key in the free node behind one in its own place. |
| Table.Table.FindNode | Classes/Lua/ltable.c:469-491 | Walking the chain of the main position finds the key exactly when some node holds it, and always ends. |
| Table.Table.GetFreePos | Classes/Lua/ltable.c:382-388 | Returns the last never-used node, and none only when all nodes hold keys. |
| Table.Table.InsertKey | Classes/Lua/ltable.c:399-429 | A missing key gets a node without any key changing its value; refused exactly when its main position is taken and no node is free. |
| Table.Table.GetNum | Classes/Lua/ltable.c:435-449 | Integer keys are found in the array part or in the hash part, or are missing. |
| Table.Table.Get | Classes/Lua/ltable.c:469-491 | Returns the slot of the key, or none exactly when the key is missing; nil and NaN are always missing. |
| Table.Table.GetValue | Classes/Lua/ltable.c:469-491 | Reading gives the value the map has at the key. |
| Table.Table.Set | Classes/Lua/ltable.c:494-505 | Returns a slot of the key, old or new, changing no value; nil and NaN are refused, and nothing else unless more than 2^26 entries are in use. |
| Table.Table.Put | Classes/Lua/ltable.c:494-505 | A store is a map update: the key has the new value, every other key its old one, through collisions, moves, reuse and rehash. |
| Table.Table.NewKey | Classes/Lua/ltable.c:399-429 | Inserts at once or after one rehash: the recursion newkey, rehash, set never rehashes twice. |
| Table.Table.Rehash | Classes/Lua/ltable.c:333-349 | Keeps every association and leaves room for the new key. |
| Table.Table.CountKeys | Classes/Lua/ltable.c:333-349 | The counts are exact, and the size chosen is the largest power of two more than half in use. |
| TableSizes.ComputeSizes | Classes/Lua/ltable.c:189-208 | Finds the largest worthwhile power of two and the exact number of keys it covers, although it skips empty slices and stops early. |
| TableSizes.CountedSum | Classes/Lua/ltable.c:222-260 | The slices added up are the keys 1 to 2^i in use. |
| TableSizes.InUseBound | Classes/Lua/ltable.c:189-208 | No more than n of the keys 1 to n are in use, which is what makes skipping empty slices right. |
| TableSizes.LeftOver | Classes/Lua/ltable.c:341-348 | What the array part does not hold is just what the hash part must have room for. |
| Table.Table.NumUseArray | Classes/Lua/ltable.c:222-244 | Counts the array part slice by slice. |
| Table.Table.NumUseHash | Classes/Lua/ltable.c:247-260 | Counts the hash part, integer keys into their slices. |
| Table.Table.Resize | Classes/Lua/ltable.c:297-324 | Any array size and any hash size with room enough keep every association; it fails exactly when the hash size is too large. |
| Table.Table.SetNodeVector | Classes/Lua/ltable.c:272-294 | An empty hash part of at least the size asked for, a power of two. |
| Table.Table.ResizeArray | Classes/Lua/ltable.c:327-330 | Growing the array part keeps every association. |
| Table.Table.FindIndex | Classes/Lua/ltable.c:137-159 | Inverts the position of every key that a traversal returned; fails only for missing keys. |
| Table.Table.Next | Classes/Lua/ltable.c:162-179 | Returns the first entry with a value behind the key, or the end. |
| Table.Table.Traverse | Classes/Lua/ltable.c:162-179 | Repeated from nil on an unmodified table, next yields each key with a value exactly once and stops. |
| Table.Table.GetN | Classes/Lua/ltable.c:560-576 | Always returns a border: t[n+1] is nil, and t[n] is not unless n is 0. |
| Table.Table.UnboundSearch | Classes/Lua/ltable.c:532-553 | Doubling and bisection in the hash part find a border and end for every table, past the largest int by linear search. |
| Table.Table.LinearSearch | Classes/Lua/ltable.c:540-545 | The fallback finds the first border. |
| TableSizes.RunFits | Classes/Lua/ltable.c:532-553 | A run of consecutive keys in the hash part is no longer than the hash part, so the searches end. |
| Matcher.MatchState.FindClassEnd | Classes/Lua/lstrlib.c:202-223 | Finds where a single-character item ends, or that it is malformed, as specified. |
| Matcher.MatchState.MatchBracketClass | Classes/Lua/lstrlib.c:245-265 | Decides membership in a set with ranges, classes and negation, as specified. |
| MatchLaws.ClassItem | Classes/Lua/lstrlib.c:226-243 | Which characters each of `%a` to `%z` accepts, as ranges, and that the capital accepts exactly the others, by running the matcher on a single character. |
| MatchLaws.RangeItem | Classes/Lua/lstrlib.c:245-265 | `[lo-hix]` accepts the characters from lo to hi and x, and `[^lo-hix]` the others. |
| MatchLaws.SetItem | Classes/Lua/lstrlib.c:202-223 | A `]` that comes first in a set belongs to it, and so do the members of a class in it. |
| MatchLaws.PlainItem | Classes/Lua/lstrlib.c:268-275 | The dot accepts every character, an escaped one just itself. |
| Matcher.MatchState.MatchBalance | Classes/Lua/lstrlib.c:281-298 | Finds the end of the balanced string. |
| PatternMeaning.BalanceCounts | Classes/Lua/lstrlib.c:281-298 | That end is the first place with as many closings as openings. |
| MatchLaws.BalancedText | Classes/Lua/lstrlib.c:281-298 | `%bxy` finds the first x from which on the numbers of x and y become equal, and ends there; it finds none only if there is none. |
| MatchLaws.WordBegins | Classes/Lua/lstrlib.c:384-395 | `%f[%a]` finds the first letter with none before it, and matches nothing there. |
| Matcher.MatchState.MaxExpand | Classes/Lua/lstrlib.c:301-313 | Takes the largest repetition count that lets the rest match; when none does the captures are as on entry. |
| Matcher.MatchState.MinExpand | Classes/Lua/lstrlib.c:316-326 | Takes the smallest such count. |
| MatchLaws.Repetitions | Classes/Lua/lstrlib.c:413-433 | `x*` takes all x there are, `x-` none, `x?` one if there is one, and `x+` all from the first x on, for every subject. |
| MatchLaws.UpTo | Classes/Lua/lstrlib.c:301-326 | `.*y` reaches to the last y and `.-y` to the first. |
| Matcher.MatchState.StartCapture | Classes/Lua/lstrlib.c:329-340 | An opened capture is undone when the rest does not match; too many captures raise an error. |
| Matcher.MatchState.EndCapture | Classes/Lua/lstrlib.c:343-351 | Closing the last open capture is undone when the rest does not match; with none open it is an error. |
| MatchLaws.AtClosing | Classes/Lua/lstrlib.c:343-351 | The capture that a closing parenthesis ends is the last one open, and its text goes from where it was opened to here. |
| MatchLaws.CapturedWord | Classes/Lua/lstrlib.c:329-351 | `(%a+)y` finds the first letters that a y follows and captures exactly these. |
| MatchLaws.NestedCaptures | Classes/Lua/lstrlib.c:329-351 | The captures of `(x(y)())` are the two characters, the second of them, and the place behind. |
| Matcher.MatchState.MatchCapture | Classes/Lua/lstrlib.c:354-362 | A back-reference matches exactly a repetition of a closed capture and is an error otherwise. |
| MatchLaws.RepeatedCharacter | Classes/Lua/lstrlib.c:354-362 | `(.)%1` finds the first character that occurs twice in a row. |
| Matcher.MatchState.RepeatedItem | Classes/Lua/lstrlib.c:413-433 | Each quantifier `?`, `*`, `+` and `-` takes the count it prefers among those that work. |
| Matcher.MatchState.Match | Classes/Lua/lstrlib.c:365-440 | For every well-formed pattern the matcher ends and matches exactly when some choice of counts matches, with the end and captures of the most preferred choice; on failure all captures are as on entry. For every pattern without special characters, well-formed or not, the answer is given outright. |
| Matcher.QuantifiedAnswer | Classes/Lua/lstrlib.c:413-433 | The best count for an item followed by the best choices for the rest is the best choice for both. |
| Matcher.BestOnce | Classes/Lua/lstrlib.c:365-440 | There is only one best choice, so the result is determined. |
| PatternMeaning.PreferredOnce | Classes/Lua/lstrlib.c:301-326 | Preference between choices, item by item, is antisymmetric. |
| PatternMeaning.ChoicesCount | Classes/Lua/lstrlib.c:365-440 | A matching choice has one count for each quantified item. |
| PatternMeaning.RunBounds | Classes/Lua/lstrlib.c:365-440 | A match moves forward, stays in the subject and leaves no capture open. |
| Matcher.MatchState.Find | Classes/Lua/lstrlib.c:513-532 | Finds the leftmost match from init on, an anchored pattern at init only. |
| Matcher.PlainFind | Classes/Lua/lstrlib.c:444-463 | Finds the first occurrence of a text, or that there is none. |
| Matcher.PlainExactly | Classes/Lua/lstrlib.c:503-512 | For every pattern without special characters the matcher fails for an invalid capture exactly when the text before its first `)` occurs from init on, and otherwise answers as the plain search does. |
| Matcher.StrMatch | Classes/Lua/lstrlib.c:495-546 | string.match: the leftmost match for every well-formed pattern; and for every pattern without special characters the first occurrence if and only if it has no `)` or the text before the first one does not occur, else an error. |
| PatternMeaning.PlainMeans | Classes/Lua/lstrlib.c:503-512 | Such a pattern matches exactly where it occurs. |
| Matcher.LoneParenthesis | Classes/Lua/lstrlib.c:503-512 | The pattern `)` counts as plain, and the matcher run on it raises an error for every subject. |
| Matcher.StrFind | Classes/Lua/lstrlib.c:495-535 | string.find: both ways of searching, chosen as the source does, answer correctly from the place init - 1, from the beginning for 0, and from the end less -init characters for a negative init, each kept within the subject. |
| MatchLaws.Anchors | Classes/Lua/lstrlib.c:409-413 | `^x` matches at the beginning only and `x$` at the end only. |
| DynamicTree.Tree.AllocateNode | Classes/Box2D/Collision/b2DynamicTree.cpp:52-84 | Hands out an unused node, doubling an exhausted pool; all other nodes stay. |
| DynamicTree.Tree.FreeNode | Classes/Box2D/Collision/b2DynamicTree.cpp:87-94 | Puts a node back on the free list; all other nodes stay. |
| DynamicTree.Tree.FindSibling | Classes/Box2D/Collision/b2DynamicTree.cpp:191-219 | Descends to a leaf, at each node to the child with the nearer center. |
| BoxLaws.CenterDistance | Classes/Box2D/Collision/b2DynamicTree.cpp:200-219 | Nearness is the sum of the distances of the centers along the two axes. |
| TreeShape.LinkShape | Classes/Box2D/Collision/b2DynamicTree.cpp:221-262 | A new parent in the place of the sibling leaves a full binary tree with matching parent links. |
| DynamicTree.Tree.EnlargeAncestors | Classes/Box2D/Collision/b2DynamicTree.cpp:243-254 | Despite stopping at the first large enough ancestor, every box contains those of its children. |
| DynamicTree.Tree.InsertLeaf | Classes/Box2D/Collision/b2DynamicTree.cpp:180-264 | The tree is valid again with just this leaf added. |
| TreeShape.UnlinkShape | Classes/Box2D/Collision/b2DynamicTree.cpp:266-320 | Moving the sibling into the place of the parent leaves a full binary tree. |
| TreeShape.ReboxUp | Classes/Box2D/Collision/b2DynamicTree.cpp:301-313 | A node that got the least box for its children can only make its own parent too small. |
| DynamicTree.Tree.ShrinkAncestors | Classes/Box2D/Collision/b2DynamicTree.cpp:301-313 | The boxes still contain those of their children after the removal. |
| DynamicTree.StopsAtOnce | Classes/Box2D/Collision/b2DynamicTree.cpp:301-313 | In a valid tree the shrinking loop always ends with the first ancestor, because a box that contains its children contains their combination. |
| DynamicTree.Tree.RemoveLeaf | Classes/Box2D/Collision/b2DynamicTree.cpp:266-320 | The leaf is out of the tree, unchanged; its parent is free; all else is valid. |
| DynamicTree.Tree.CreateProxy | Classes/Box2D/Collision/b2DynamicTree.cpp:99-123 | A new proxy id with the box fattened on all sides; no other proxy changes, rebalancing included. |
| DynamicTree.Tree.DestroyProxy | Classes/Box2D/Collision/b2DynamicTree.cpp:125-132 | Just that proxy is gone. |
| DynamicTree.Tree.MoveProxy | Classes/Box2D/Collision/b2DynamicTree.cpp:134-178 | Nothing changes exactly when the fat box still contains the box; otherwise the proxy keeps its id and data and gets a box fattened and stretched along the displacement. |
| DynamicTree.FatBoxContains | Classes/Box2D/Collision/b2DynamicTree.cpp:134-178 | That box contains the box it was made for, where it is and where twice the displacement takes it. |
| DynamicTree.Tree.PickLeaf | Classes/Box2D/Collision/b2DynamicTree.cpp:329-342 | Descends to a leaf by the bits of the path, cyclically. |
| DynamicTree.Tree.Rebalance | Classes/Box2D/Collision/b2DynamicTree.cpp:322-345 | Reinserting leaves changes no proxy and keeps the tree valid. |
| DynamicTree.Tree.ComputeHeight | Classes/Box2D/Collision/b2DynamicTree.cpp:348-365 | Computes the height of the tree. |
| DynamicTree.Tree.Conserved | Classes/Box2D/Collision/b2DynamicTree.cpp:52-94 | Used and free nodes make up the pool, and a tree of n proxies uses 2n - 1 nodes. |
| DynamicTree.Tree.Query | Classes/Box2D/Collision/b2DynamicTree.h:145-188 | Reports each overlapping proxy at most once and no other, stops when the callback says so, and otherwise, up to height 128, misses none: the stack drops no child. |
| DynamicTree.Tree.HeightBound | Classes/Box2D/Collision/b2DynamicTree.h:145-188 | A tree is not higher than it has proxies, so with up to 128 of them a query misses none. |
| BoxLaws.SharedPoint | Classes/Box2D/Collision/b2Collision.h:225-238 | Boxes overlap, touching edges included, exactly when they have a point in common. |
| BoxLaws.Search | Classes/Box2D/Collision/b2DynamicTree.h:145-188 | A query reports exactly the proxies whose fat boxes meet the box on both axes, that is, have a point in common with it. |
| BoxLaws.Fattened | Classes/Box2D/Collision/b2DynamicTree.cpp:99-178 | The coordinates of fat boxes: a tenth more on each side, and after a move twice the displacement on the side moved to; a box still inside on all four sides changes nothing. |
| TreeShape.AllReached | Classes/Box2D/Collision/b2DynamicTree.h:145-188 | When the stack is empty every overlapping node has been visited. |
| BroadPhase.Phase.CreateProxy | Classes/Box2D/Collision/b2BroadPhase.cpp:41-47 | A new proxy is in the tree and in the move buffer. |
| BroadPhase.Phase.UnBufferMove | Classes/Box2D/Collision/b2BroadPhase.cpp:80-90 | Clears only the first entry for a proxy. |
| BroadPhase.Phase.DestroyProxy | Classes/Box2D/Collision/b2BroadPhase.cpp:49-54 | The buffer names only live proxies afterwards exactly when the destroyed one was in it at most once. |
| BroadPhase.LiveAfter | Classes/Box2D/Collision/b2BroadPhase.cpp:80-90 | The same, of buffers and live sets alone. |
| BroadPhase.StaleEntry | Classes/Box2D/Collision/b2BroadPhase.cpp:41-63 | A proxy created, moved out of its fat box and destroyed leaves such an entry. |
| BroadPhase.Phase.MoveProxy | Classes/Box2D/Collision/b2BroadPhase.cpp:56-63 | The move is buffered exactly when the fat box changed. |
| BroadPhase.Phase.GatherPairs | Classes/Box2D/Collision/b2BroadPhase.h:161-180 | The pair buffer holds just the overlapping pairs with a moved member. |
| BroadPhase.Phase.ReportPairs | Classes/Box2D/Collision/b2BroadPhase.h:189-214 | A sorted buffer is reported without duplicates, each pair once in order, with the user data of its two proxies. |
| BroadPhase.Phase.UpdatePairs | Classes/Box2D/Collision/b2BroadPhase.h:161-215 | Up to height 128 every pair of distinct live proxies with overlapping fat boxes, at least one of them moved, is reported exactly once, and no other; the move buffer is empty and no box changed. If that held of every update before, every pair whose boxes overlap, fat or as given, has been reported. |
| BroadPhase.KnownNow | Classes/Box2D/Collision/b2BroadPhase.h:161-215 | Why: a pair neither of whose members is in the move buffer is known already, and fat boxes contain the boxes given. |
| BoxLaws.Update | Classes/Box2D/Collision/b2BroadPhase.h:161-215 | In coordinates: exactly the pairs of which one has moved and whose fat boxes meet on both axes are reported, each once, and then every pair is known whose boxes meet, fat or as given. |
| Quicksort.OrderThree | Classes/Lua/ltablib.c:200-221 | First, middle and last place are put in order; ranges of two or three are then sorted, and only they end here. |
| Quicksort.ScanUp | Classes/Lua/ltablib.c:227-231 | The pivot itself stops the scan within the range, so the order is never found invalid. |
| Quicksort.ScanDown | Classes/Lua/ltablib.c:232-236 | The first value stops the downward scan within the range. |
| Quicksort.Partition | Classes/Lua/ltablib.c:222-243 | A permutation of the range with nothing greater before and nothing less behind the pivot. |
| Quicksort.HalfSettled | Classes/Lua/ltablib.c:244-253 | Once one side is sorted the loop goes on with the other alone. |
| Quicksort.SettledShuffled | Classes/Lua/ltablib.c:244-253 | Permuting what is still to be sorted leaves the rest settled. |
| Quicksort.AuxSort | Classes/Lua/ltablib.c:193-254 | For every strict weak order: sorted, a permutation within the range, nothing else touched, and recursion no deeper than the logarithm of the length. |
| Quicksort.Sort | Classes/Lua/ltablib.c:256-264 | table.sort on the whole array. |
| ChunkFormat.WordOfBytes | Classes/Lua/ldump.c:45-48 | Four bytes give back the 32-bit integer they were written from, signed or unsigned. |
| ChunkFormat.LoadedSame | Classes/Lua/lundump.c:161-181 | Sources left out because they are those of the function around are put back: functions that all have a source are loaded as they were. |
| ChunkDump.DumpState.DumpBlock | Classes/Lua/ldump.c:29-37 | A block goes to the writer only while all before it were accepted. |
| ChunkDump.DumpState.DumpString | Classes/Lua/ldump.c:61-74 | NULL and the empty string are written differently. |
| ChunkDump.DumpState.DumpConstants | Classes/Lua/ldump.c:80-109 | Writes constants and inner functions in the format, or up to the refused block. |
| ChunkDump.DumpState.DumpDebug | Classes/Lua/ldump.c:111-127 | Writes debug information, or its absence when stripping. |
| ChunkDump.DumpState.DumpFunction | Classes/Lua/ldump.c:129-141 | Writes a function with all inside it in the format, or up to the refused block. |
| ChunkDump.Dump | Classes/Lua/ldump.c:153-164 | The writer was given header and function in order; status 0 means all of it, another status is that of the block refused, the last one given. |
| ChunkLaws.Header | Classes/Lua/ldump.c:143-148 | Every accepted dump begins with the same twelve bytes, which are given. |
| ChunkLaws.EmptyVectors | Classes/Lua/ldump.c:129-141 | The bytes of a function with empty vectors in order: source, two lines, four bytes, six sizes, integers with their lowest byte first. |
| ChunkLaws.OneConstant | Classes/Lua/ldump.c:80-109 | The bytes of constants: 0 for nil, 1 and the truth value, 3 and the eight bytes of a number, 4 and the string with its size and a zero. |
| ChunkLaws.OneOfEach | Classes/Lua/ldump.c:80-141 | The bytes of a function with one entry in every vector; the source of the inner function is left out. |
| ChunkUndump.LoadState.LoadInt | Classes/Lua/lundump.c:61-67 | Reads back a written integer; never returns a negative one. |
| ChunkUndump.LoadState.LoadString | Classes/Lua/lundump.c:76-88 | Reads back a written string or NULL. |
| ChunkUndump.LoadState.LoadCode | Classes/Lua/lundump.c:90-96 | Reads back written code. |
| ChunkUndump.LoadState.LoadConstant | Classes/Lua/lundump.c:109-130 | Reads back a written constant of each type. |
| ChunkUndump.LoadState.LoadConstants | Classes/Lua/lundump.c:100-135 | Reads back constants and inner functions. |
| ChunkUndump.LoadState.LoadDebug | Classes/Lua/lundump.c:137-159 | Reads back debug information. |
| ChunkUndump.LoadState.LoadFunction | Classes/Lua/lundump.c:161-181 | Where the input holds a dumped function that is accepted and not too deep it is loaded and just its bytes are used, or, if they are cut short, the end of input is reported; whatever loads from any input at all fits the format, is accepted throughout and is not too deep. |
| ChunkUndump.LoadState.LoadHeader | Classes/Lua/lundump.c:183-190 | Only the header of this format passes. |
| ChunkUndump.Undump | Classes/Lua/lundump.c:195-209 | The same for a whole chunk, with `=?` for an unknown source. |
| ChunkLaws.Anonymous | Classes/Lua/lundump.c:195-209 | A stripped dump comes back with the source `=?`, its code and constants, and no debug information. |
| ChunkUndump.Restored | Classes/Lua/lundump.c:161-209 | Round trip: a function dumped unstripped and loaded, whatever follows it, comes back equal if and only if it is accepted throughout and not nested too deep; exactly the bytes written are used. |
| ChunkUndump.Reloaded | Classes/Lua/lundump.c:195-209 | Whatever loads at all can be dumped and loads again as the same function. |
| ChunkUndump.Truncated | Classes/Lua/lundump.c:48-52 | A dump cut short anywhere is refused as such. |

## Left out

- CodeGen.CompileAssignment: the converse, that an expression which is not right goes wrong, is stated where no local is read twice. It fails in general: a jump that is absorbed wrongly may be one that no run can take, as behind `a < b and not (a < b)`.
- CodeGen.CompileLocal: the same.
- CodeGen.FuncState.Discharge2Reg: no descriptors of nil, upvalues, globals, indexed variables and calls.
- CodeGen.FuncState.Exp2RK: no nil operand.
- CodeGen.FuncState.Posfix: no arithmetic and no concatenation.
- CodeGen: nil literals, since `luaK_nil` may widen a preceding LOADNIL; arithmetic, calls, indexing, upvalues, globals and the parser that makes the calls.
- Bytecode: metamethods and errors of comparisons; a comparison is an arbitrary total relation on values.
- Collector: open upvalues, userdata with finalizers (`luaC_separateudata`, GCTM), resizing of the string table and of stacks, clearing of stack slots above the top, and the pacing of `luaC_step` by byte counts. The finalize phase is an empty step.
- Collector.GlobalState.ReallyMarkObject: no open upvalues, which stay gray.
- Collector.GlobalState.Atomic: no remarking of open upvalues and no userdata set apart for their finalizers.
- Collector.GlobalState.ClearTable: no finalized userdata as values.
- Collector.GlobalState.SingleStep: the finalize phase calls nothing.
- Collector.GlobalState.Cycle: says nothing of unreachable strings, which a weak table can keep or a new string can resurrect.
- Collector: dead keys. An empty entry keeps its key and refers to nothing.
- Table.Table.Set: says nothing of the table once a size overflows, which needs more than 2^26 entries in use.
- Table.Table.ResizeArray: asks for an array part of at most 2^26, within which every table of the model stays; the C code takes larger ones from `lua_createtable`.
- Table: keys are compared as values; dead keys and the caching of `flags` for metamethods are not part of this model. The counter j of `UnboundSearch` does not wrap, as it is checked against the largest int first.
- TableSizes.ComputeSizes: asks for slices that hold no more keys than they have places, which `InUseBound` proves of every table.
- Matcher: gmatch, gsub, pushing of captures on the stack, and patterns with embedded zeros. Jumps back to the start of `match` are the tail calls that the comments of the source say they are. Recursion has no depth limit.
- PatternMeaning: character classes are those of the C locale.
- DynamicTree: RayCast, the limits of 32-bit indices, and rounding: coordinates are reals.
- DynamicTree.Tree.Query: complete only up to height 128, as the stack of the source is.
- BroadPhase.Sort: stands in for `std::sort`, which is not part of this model; only that it sorts is used.
- BroadPhase: capacities of its buffers, which grow as needed, and `Query`, `RayCast` and `TestOverlap`, which only hand on.
- Quicksort: comparison functions that are no strict weak order; "invalid order function" is raised only for them.
- ChunkUndump.LoadState.LoadFunction: takes the bytecode verifier as a parameter, and memory as sufficient; counts too large for the address space are refused for the missing input instead.
- ChunkUndump: messages of errors, and the marking of the chunk name.
- The iPad shell, OpenGL, bindings, and the file, system and dynamic-library parts of Lua.
