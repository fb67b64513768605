# A model of Mirb's collector, compiler and core algorithms

Mirb is a Ruby implementation in C++.  This project models the parts of it whose correctness does not
show in any one function, and proves what they are for:

* **The garbage collector** (modules `Gc*`).  `Collector::mark` drains a work-list that runs through
  object headers; `update_forward` and `update_backward` slide the live objects of several regions
  together, with every reference slot unhooked into a list at its target's header in between.  The
  main results are `GcCollect.CollectionPreserves` (the reachable graph is unchanged up to renaming),
  the exact contents of every chain (`GcMove`), agreement of the two passes and no running out of
  room (`GcPlan`, `GcBackward`), and `GcRun.RunProgram` for whole runs of a program from
  `Collector::initialize` on.
* **The bytecode compiler and its machine** (`Tree`, `Vm`, `CodeGen`, `Simulation`, `Generator`,
  `Execute`).  `Tree.Eval` says what a tree means, `CodeGen.Emit` what its code is, `Simulation` that
  running the code does what the tree means, and class `Generator` that appending instructions and
  back-patching labels produces that code.
* **Captured variables** (`Scopes`, `Closures`, `Captures`): which variables live on heap tuples, and
  that compiled code finds the right tuple in every activation.
* **Exceptions inside a frame** (`Unwinding`): who takes one, and which ensures run.
* **Algorithms**: the open-addressing table (`ValueMaps`), `Enumerable#sort` (`Sorting`),
  `String#inspect` against the lexer (`Strings`), precedence climbing against the printer
  (`Operators`), argument binding and destructuring (`Binding`, `Destructuring`), shifts and fixnum arithmetic (`Numbers`, `Fixnums`) and
  line reading (`Streams`).

Code that updates state is a class or a method over arrays here as it is there, proved against
functions on values; what these functions promise is proved as lemmas.

What a method and its specification share, such as which words of an object are references, which
values are true, how tightly operators bind, labels, escapes and line ends, has laws of its own that
spell it out in offsets, bytes and tables (`GcWords`, `Tree.ConditionDecides`, `Operators.TwoOperators`,
`Unwinding.TakenByLoop`, `Strings.Inspect` and `LetterIsRead`, `Streams.LineInBytes`).

## How the model reads the code

* Memory is a sequence of words with one address per word.  A word has eight bytes, so the source's
  byte counts (`page_size`, `max_region_alloc`) are divided by eight.  An object is a header (the
  data word that serves as mark list and thread list, as in release builds at
  `src/value.cpp:163-171`, and the word with type tag and mark), a word for the size of a tuple or
  block or the `next` of a free block, and its fields.  A class is given by the sorts of its words:
  raw, value reference, pointer, or character data that points inside a `VariableBlock`.  A
  character array with static data is a raw word.  `next` of a free block is the number of the
  region.  A region's header counts as words before `data`.
* Roots are an array of distinct slots outside of all objects; symbols are pinned and always kept.
  Addresses that `malloc` and the platform return are parameters, constrained to be unused.
* Trees have literals, locals in registers, self, assignment, not, and, or, operators, calls,
  if/unless, while/until, groups, return, break and next.  A unary operator is a call without
  arguments.  A call is logged, and its result depends on the whole log.  The value of a loop is nil
  however it ends, as in the code.  Labels that nothing branches to are not modelled, except the
  method's body label, which `convert_loop` moves.
* `x & mask` for a table whose size is a power of two, and for a mask of ones, is the remainder.
  `mp_div_2d` truncates the magnitude, and a read from a stream is short only at its end; these are
  assumptions about code outside the model.
* Words of the machine have 64 bits, characters 8.

## Where the code does not do what it is for

* `update_backward` ignores the result of `load()` (`src/collector-compact.cpp:364-371`).  The first
  header it reads is an object's if and only if some region is not empty (`GcCollect.FirstHeader`);
  otherwise it reads whatever words are at the last region's data.  `GcBackward.WalkStarts` says which
  words end the walk there, `GcCollect.Collect` holds for them, `GcCollect.FirstRound` says what the
  first round does with any others, and `GcRun.FreshHeapHasNoStart` is a valid heap with other words.
* `get_region` overruns a region of a single page for requests between a page less the region header
  and a page (`src/collector.cpp:209-241`).  No caller asks for such a size.
  `GcAlloc.NewRegionHolds` is the exact condition.
* A `next` with a value inside a while loop drops the value unevaluated
  (`src/codegen/bytecode.cpp:871-872`): `Simulation.NextInLoop` and `Simulation.CallInNext`.
* Targets behind a splat are numbered from -1 downwards and `Assign` counts from the end, so in
  `a, *b, c, d` the variables c and d get each other's element (`src/parser/parser.cpp:1550-1585`,
  `src/vm.cpp:265-272`): `Destructuring.RightIfTidy` is the exact condition.
* `ValueMap` `set` reports a new key as present when the table grows (`src/value-map.hpp:153`).
* An `\x` escape with fewer than two digits folds the x into the number
  (`src/lexer/strings.cpp:224-238`): `Strings.HexEscape`.
* A left shift of zero by 62 or more, or to exactly the lowest fixnum, gives a big number that fits a
  fixnum (`src/classes/fixnum.cpp:211-212`): `Fixnums.LeftShiftIsNormal`.

## Model

| member | source | states |
|---|---|---|
| GcReach.ReachableIsLeast | src/collector-mark.cpp:97-128 | Reach(v) is the least set that holds the root objects and is closed under references: any set with these two properties contains every reachable object |
| GcWords.TupleRefersTo | src/allocator.hpp:114-118 | word by word: a tuple refers to exactly what its entries, from the fourth word on, hold the address of; null is no reference in a tuple of pointers |
| GcWords.RecordRefersTo | src/collector-mark.cpp:21-62 | an object of a fixed class refers to exactly what its fields hold, value references, pointers that are not null and the blocks three words before its character data |
| GcWords.RootsReferTo | src/collector-common.hpp:38-83 | the root objects are the symbols and exactly what the root slots hold, each as its sort says |
| GcWords.EntryIsReachable | src/allocator.hpp:114-118 | what any entry of a reachable tuple holds, the first and the last included, is reachable |
| GcWords.FieldIsReachable | src/collector-mark.cpp:21-62 | what any field of a reachable object that is no raw word holds is reachable |
| GcMark.Pushing | src/collector-mark.cpp:64-87 | setting the mark and linking an unmarked object in front of the work-list keeps the marking invariant: the list runs through the data words of exactly the objects on it, and everything else in memory is the original with the marked objects painted |
| GcMark.Popping | src/collector-mark.cpp:105-107 | taking the first object off the work-list and resetting its data word keeps the marking invariant for the rest of the list |
| GcMark.MarkPointer | src/collector-mark.cpp:64-87 | the object is marked afterwards; it is pushed, and true returned, if and only if it was not marked before |
| GcMark.MarkChildren | src/collector-mark.cpp:97-119 | drains the work-list: afterwards every marked object has all its children marked and the list is empty, for every graph, cyclic ones included; it terminates |
| GcMark.EachRoot | src/collector-common.hpp:38-83 | going over all root slots and then the symbols, with either marker, leaves memory as the original with exactly the reachable objects painted |
| GcMark.Mark | src/collector-mark.cpp:121-128 | exactly the objects reachable from the roots are marked, no other word changes, so every data word is back at list_end as threading requires |
| GcMark.NaiveMarkPointer | src/collector-naive-mark.cpp:58-75 | recursive marking of an object: it and everything its newly marked objects refer to are marked; it terminates on cyclic graphs |
| GcMark.NaiveMark | src/collector-naive-mark.cpp:85-92 | the recursive marker computes the same memory as the work-list marker |
| GcThreads.ThreadingASlot | src/collector-compact.cpp:67-77 | hooking a slot into the list at its target's header keeps the threading invariant: each header heads one finite chain of exactly the threaded slots that refer to it, all other slots hold their original word or their final one |
| GcThreads.ResolvingAChain | src/collector-compact.cpp:86-110 | walking a chain writes the new address into every slot of it and nowhere else, empties the chain, and keeps the invariant for the others; an interior slot gets the address of the character data |
| GcForward.ThreadingKeeps | src/collector-compact.cpp:67-77 | thread_data on a reference slot keeps the threading invariant, with this slot added to the threaded ones: its target's chain is as before with the slot in front, all other chains are as before, and every slot not threaded holds its original or its final word |
| GcForward.ThreadChildren | src/collector-compact.cpp:48-59 | threads every reference field of an object, in order, and no other word of it |
| GcForward.Update | src/collector-compact.cpp:86-110 | update: the loop over a chain ends, every slot of it holds the new address with the bias of a variable block, and the header's data word is list_end again; the second pass also clears the mark |
| GcForward.VisitForward | src/collector-compact.cpp:292-301 | one live object of the forward pass, update and then threading of its fields, carries the pass invariant from one node to the next |
| GcPlan.NeverOutOfSpace | src/collector-compact.cpp:231-262 | for every tiled heap and every choice of live objects the allocator places all of them, each at or before its old place in the order of regions and addresses: the abort is unreachable and the free position never passes the walker |
| GcPlan.DestOrdered | src/collector-compact.cpp:231-262 | destinations keep the order of the live objects, do not overlap and lie within their region |
| GcPlan.TilingGrows | src/collector.hpp:160-188 | bump allocation at a region's pos keeps every region exactly tiled |
| GcPlan.TilingAppend | src/collector.cpp:186-200 | appending an empty region keeps every region exactly tiled |
| GcGraph.GraphIsValid | src/collector-compact.cpp:326-355 | the graph of a marked heap that satisfies the layout invariant is one the threading invariant speaks about: distinct nodes whose old places do not overlap, distinct slots, every slot in one node or root, every target a node |
| GcSlide.DestsApart | src/collector-compact.cpp:357-379 | the new places of two live objects, pinned ones included, never overlap |
| GcSlide.DestMissesLater | src/collector-compact.cpp:366-379 | moving an object overwrites no live object that is still to be moved |
| GcSlide.DestMissesWalk | src/collector-compact.cpp:366-396 | moving an object overwrites no header the walk has still to read |
| GcSlide.DestMissesRoots | src/collector-compact.cpp:366-379 | moving an object overwrites no root slot |
| GcRuns.RunStarts | src/collector-compact.cpp:317-320 | the first dead object of a run becomes prev; the records of the runs before it stay |
| GcRuns.RunGrows | src/collector-compact.cpp:306-316 | one more dead object: the record in the first object of the run now jumps over it, to the walker's next place or to the end of the heap; all other records stay |
| GcWalk.RegionWalker.Load | src/collector-compact.cpp:143-153 | load finds the first object of the heap, skipping empty regions, or reports that there is none, and then stands at the last region's data |
| GcWalk.RegionWalker.StepRegion | src/collector-compact.cpp:155-173 | step_region finds the first object of the next region that is not empty |
| GcWalk.RegionWalker.Jump | src/collector-compact.cpp:175-189 | jump goes to the recorded place, or stops when there is no region |
| GcWalk.RegionWalker.Step | src/collector-compact.cpp:191-211 | step goes from object k of the heap to object k + 1, across region ends, or reports the end |
| GcWalk.RegionAllocator.Leave | src/collector-compact.cpp:225-229 | leaving a region in the backward pass cuts it at the free position; regions from the allocator's on are as they were, so the walker reads no changed pos |
| GcWalk.RegionAllocator.Allocate | src/collector-compact.cpp:231-262 | returns the place the plan gives to the next live object, closes the regions it leaves behind, and does not run out of regions |
| GcCompact.ThreadRoots | src/collector-compact.cpp:328-330 | exactly the root slots are threaded |
| GcCompact.ForwardLive | src/collector-compact.cpp:292-301 | the free position of the forward pass is the planned one, and the object's visit keeps the invariant |
| GcCompact.ForwardDead | src/collector-compact.cpp:302-321 | dead objects leave exact jump records and change nothing else |
| GcCompact.WalkForward | src/collector-compact.cpp:332-335 | the walk visits every object of the regions once and in order |
| GcCompact.UpdateForward | src/collector-compact.cpp:326-355 | after the forward pass the threaded slots are exactly those aimed at an equal or lower address, and those of pinned objects and symbols aimed at nodes that come no later; every dead run has its record |
| GcMove.ForwardChainIsExact | src/collector-compact.cpp:292-298 | when the forward pass reaches a live object its chain holds exactly the root slots and the slots of earlier live objects that refer to it |
| GcMove.BackwardChainIsExact | src/collector-compact.cpp:372-377 | when the backward pass reaches a live object its chain holds exactly the slots of itself and of later live objects that refer to it |
| GcMove.MovedObjectIsUnthreaded | src/collector-compact.cpp:376-377 | an object that is moved has no slot in any chain |
| GcMove.AllChainsEmpty | src/collector-compact.cpp:357-443 | after the backward pass every chain is empty |
| GcMove.BackwardVisit | src/collector-compact.cpp:372-378 | update and move of one live object carry the invariant of the backward pass to the next node, with every object so far in its final place with its final words |
| GcBackward.Move | src/collector-compact.cpp:112-118 | move puts an object's words at its new place, whatever the overlap, and not moving it is the same as moving it onto itself |
| GcBackward.MemMove | src/collector-compact.cpp:112-118 | copying word by word, upwards to a lower place and downwards to a higher one, gives the target the words the source held before, for overlapping ranges too, and changes no other word |
| GcBackward.WalkBackward | src/collector-compact.cpp:366-396 | with jumps over dead runs the backward pass visits every live object once, in the same order as the forward pass, and gives it the same address; with no object in the regions it reads the words at the last region's data as a header and ends if these are an unmarked free run that leads nowhere |
| GcBackward.BackwardHeapList | src/collector-compact.cpp:422-439 | pinned objects: the live ones stay where they are and are resolved and unmarked, the dead ones leave the list |
| GcBackward.UpdateBackward | src/collector-compact.cpp:357-443 | all nodes are in their final places, the regions behind the free position are released, pos of each remaining region is the end of its last object, and the kept objects tile them; so too without objects in the regions, if the walk ends as above |
| GcSurvive.CompactedIsValid | src/collector-compact.cpp:445-450 | the compacted heap satisfies the whole heap invariant again: tiling, headers, idle data words, every reference to an object |
| GcCollect.MarkingEstablishesMarked | src/collector.cpp:159-167 | what marking leaves is what compaction needs: idle headers, and every slot of a live object and every root aimed at a live object |
| GcCollect.CollectionPreserves | src/collector-compact.cpp:326-443 | there is a renaming of exactly the reachable objects, one to one and onto the new heap's objects, the identity on pinned objects and symbols, keeping the order in the regions, under which every root slot and every field is the renamed original with its interior offset, and all else is unchanged |
| GcWords.TupleIsCopied | src/collector-compact.cpp:326-443 | after a collection a tuple has the same class and number of entries, and each entry holds the same word, or the new address of what it referred to |
| GcWords.RecordIsCopied | src/collector-compact.cpp:326-443 | the same for the fields of an object of a fixed class; character data stays three words inside of its block |
| GcWords.BlockIsCopied | src/collector-compact.cpp:326-443 | a block keeps all its words |
| GcWords.RootIsCopied | src/collector-compact.cpp:326-330 | the same for root slots |
| GcCollect.Collect | src/collector.cpp:145-184 | mark and compact together: the new heap is valid and Preserved holds for some renaming; regions only go away; current and pages are as the code sets them; with an object in some region always, and otherwise if the words at the last region's data end the walk |
| GcCollect.FirstHeader | src/collector-compact.cpp:364-371 | load as update_backward calls it: the header read first is an object's if and only if some region is not empty; else it is at the last region's data |
| GcCollect.FirstRound | src/collector-compact.cpp:357-396 | the first round of update_backward up to its step: with all regions empty it ends the pass if and only if the words at the last region's data are an unmarked free block that leads nowhere; otherwise the pass goes where these words say, or moves what they describe, if marked, and steps on in no region |
| GcCollect.ObjectsInRegions | src/collector-compact.cpp:143-173 | a tiled heap has an object if and only if some region is not empty |
| GcRun.FreshHeapHasNoStart | src/collector-compact.cpp:364-371 | a valid heap with one empty region whose words end no walk: the input for which update_backward has no header to start with |
| GcCollect.NothingElseSurvives | src/collector-compact.cpp:398-418 | no garbage is left: every object of the new heap is reachable, so no released region held a live one |
| GcCollect.AccessPathsSurvive | src/collector-compact.cpp:326-443 | following any path of field offsets from corresponding objects leads to corresponding words before and after a collection |
| GcAlloc.AllocateRegion | src/collector.cpp:186-200 | the new, empty region is appended, and whatever objects tiled the regions exactly still do |
| GcAlloc.Initialize | src/collector.cpp:243-246 | from unused memory and roots without references initialize makes a sound heap of one empty region of thirty-two pages of 4096 bytes |
| GcAlloc.GetRegion | src/collector.cpp:209-241 | a request beyond a page gets a full region of its own and leaves current alone; any other opens a region of `pages` pages, makes it current and grows pages by half |
| GcAlloc.NewRegionHolds | src/collector.cpp:209-241 | the returned room ends within its region if and only if the request is beyond a page or, with the region header, fits the new region; it does for every size that can be asked of it, but not for a page-sized request while pages is one |
| GcAlloc.AllocateSimple | src/collector.hpp:160-188 | room at the free position of the current region if it fits there, and else in a new region; all other regions stay |
| GcAlloc.RoomIsTiled | src/collector.hpp:160-188 | with the new object put into the room the regions are exactly tiled again |
| GcAlloc.AddingKeepsValid | src/collector.hpp:193-230 | a heap with one more object in an unused place is valid, and the other objects and the roots are untouched |
| GcAlloc.New | src/collector.hpp:193-230 | allocation keeps the heap sound and adds exactly that object: in a region, as a pinned object (a tuple or block of more than 512 bytes, or of any class when the caller asks for it) or in the symbol pool |
| GcAlloc.PlacedInWords | src/collector.hpp:160-230 | where the object is: at the address the platform gives for a pinned one, in the pool or not, else at the free position of the current region if it fits there, else at the start of a new region, which becomes current, with the next one half as big again, unless the object is bigger than a page |
| GcRun.WritingKeepsValid | src/collector.hpp:160-188 | a program's stores through its roots keep the heap valid |
| GcRun.DoAllocate | src/collector.hpp:193-230 | an allocation adds exactly the new object, makes a root refer to it and keeps the heap sound |
| GcRun.DoLoad | src/collector.hpp:160-188 | a load writes one root slot with the field's word and keeps the heap sound |
| GcRun.DoStore | src/collector.hpp:160-188 | a store writes one field with the root's word and keeps the heap sound |
| GcRun.DoCollect | src/collector.hpp:147-158 | a collection in the middle of a run keeps the heap sound and Preserved |
| GcRun.Run | src/collector.hpp:147-188 | over every sequence of allocations, loads, stores and collections: each operation that is enabled has exactly its effect on the heap before it and every other one has none, and every heap in between is valid |
| GcRun.RunProgram | src/collector.cpp:243-246 | a run from initialize on: for every memory and roots the platform can give, and every sequence of operations, the last heap is sound and the steps are those of a run that starts with one empty region |
| GcWords.EntryIsAccessible | src/vm.cpp:298-304 | every entry of a tuple a root refers to can be stored into and loaded from |
| GcWords.FieldIsAccessible | src/collector.hpp:160-188 | so can every field of an object of a fixed class that is no raw word |
| GcWords.CollectionIsPossible | src/collector-compact.cpp:364-371 | a program can collect whenever some region is not empty |
| GcWords.NewlyAllocated | src/collector.hpp:193-230 | after an allocation the root holds the address of an object with the class and, for tuples, the number of entries asked for, three words in for a block; the other roots and all objects keep their words |
| GcWords.AllocationIsPossible | src/collector.hpp:160-230 | a program can allocate every class of object whenever it fits the current region, or the platform has room for a new region or for the object itself |
| GcWords.StoredObjectIsLoaded | src/collector.hpp:147-188 | in every run that allocates a tuple and an object, stores the object into any entry and collects, the store is possible, and so is a load of that entry afterwards, and it gives the object where it is now |
| Vm.EvaluateBlock | src/vm.cpp:48-152 | the interpreter loop computes as many steps of the machine as allowed |
| Simulation.SimulateAssignment | src/codegen/bytecode.cpp:419-429 | running the code of an assignment leaves the local and the target register with the value and keeps every other register below the fresh ones |
| Simulation.SimulateBooleanNot | src/codegen/bytecode.cpp:321-348 | the same for not, with and without a use for the result |
| Simulation.SimulateBooleanOp | src/codegen/bytecode.cpp:372-393 | the same for and/or: the right operand runs exactly when the left one does not decide |
| Simulation.SimulateBinaryOp | src/codegen/bytecode.cpp:350-370 | the same for operators: the left operand's register survives the code of the right one |
| Simulation.SimulateCall | src/codegen/bytecode.cpp:577-596 | the same for calls: arguments stay in their consecutive registers while the receiver is evaluated, and the call is logged with exactly these values |
| Simulation.SimulateIf | src/codegen/bytecode.cpp:634-662 | the same for if and unless |
| Simulation.SimulateLoop | src/codegen/bytecode.cpp:747-788 | the same for while and until: break and next in the body go to this loop's end and start, those in the condition to the enclosing one, and evaluation that does not end runs on for at least as many steps as rounds |
| Simulation.SimulateGroup | src/codegen/bytecode.cpp:790-806 | the same for statement groups: the last value is kept, an empty group is nil |
| Simulation.SimulateReturn | src/codegen/bytecode.cpp:808-839 | return leaves the value in the method's result register and control at the epilog, from any depth |
| Simulation.SimulateBreak | src/codegen/bytecode.cpp:841-861 | break evaluates its value and leaves control at the loop's end |
| Simulation.SimulateNext | src/codegen/bytecode.cpp:863-881 | next goes to the loop's start, or outside of loops leaves its value as the method's result |
| Simulation.Simulate | src/codegen/bytecode.cpp:103-881 | for every tree, running its code from any registers gives the same locals, call log and outcome as evaluating the tree, and touches only the target register, fresh registers, the tree's locals and, when the method is left, the result register |
| Simulation.CompilationIsCorrect | src/codegen/bytecode.cpp:1330-1440 | a compiled method never gets stuck; if it ends, the tree's evaluation ends with the same value, locals and calls, and if the evaluation ends so does the method |
| Simulation.TerminatesAlike | src/codegen/bytecode.cpp:1330-1440 | a method ends if and only if its tree's evaluation does |
| Simulation.NextInLoop | src/codegen/bytecode.cpp:871-872 | so next with a value inside a loop does what it means if and only if the value comes out without changing a local or making a call |
| Simulation.CallInNext | src/codegen/bytecode.cpp:871-872 | a call as that value is a case where it does not: the meaning logs the call |
| Tree.QuietChangesNothing | src/codegen/bytecode.cpp:871-872 | a value of literals, self, locals, not, and, or, if and groups meets that condition: its evaluation ends with a value and changes nothing, so such values are allowed in well-formed loops |
| Tree.SimpleValuesAreQuiet | src/codegen/bytecode.cpp:871-872 | literals, self and locals are such values, and so is what not, and, or, if and groups make of them |
| Tree.LeavesStandForThemselves | src/codegen/bytecode.cpp:431-460 | nil, true, false, self, integers and locals evaluate to what they stand for |
| Tree.ConditionDecides | src/value.cpp:138-141 | for every condition: nil and false make if take its third part, while end, not give true and or go on, and every other value the opposite; unless and until are mirrored |
| Tree.CallsAreLogged | src/codegen/bytecode.cpp:350-370 | an operator is a call of its left operand with its right one, and of a call the argument comes first; the call is logged last and its value depends on the log |
| Generator.RecordedMore | src/codegen/bytecode.hpp:178-201 | appending a branch keeps the record exact: branches are just the instructions with a label |
| Generator.IfEmitted | src/codegen/bytecode.cpp:634-662 | whatever positions the labels end up with, the appended instructions resolve to the code of the if |
| Generator.LoopEmitted | src/codegen/bytecode.cpp:764-787 | the same for loops, whose end label is placed after the body has branched to it |
| Generator.Generator.ConvertLoop | src/codegen/bytecode.cpp:747-788 | appends the code of a loop; moving the method's own body label on the way changes no emitted branch |
| Generator.Generator.ToBytecode | src/codegen/bytecode.hpp:137-147 | appends exactly the code of the node for every final position of the labels placed elsewhere, creates only fresh registers and labels, and moves no earlier label |
| Generator.Generator.Finalize | src/codegen/bytecode.cpp:1243-1250 | after back-patching every branch has its label's position and every other instruction is unchanged |
| Generator.Generator.Generate | src/codegen/bytecode.cpp:1330-1440 | the buffer with its patched branches is the code of the method, and var_count its registers |
| Execute.CompileAndRun | src/codegen/bytecode.cpp:1330-1440 | generator and interpreter together: the frame is that of running the compiled method for exactly limit rounds, it is never stuck, and when it has finished its value, locals and log are those of the tree; while the evaluation is not done it is running |
| Execute.EnoughInstructions | src/vm.cpp:48-152 | if the tree's evaluation ends there is a limit from which on the run has finished as the tree says |
| Scopes.Scope.RequireScope | src/tree/tree.cpp:84-90 | the scope is referenced afterwards, no scope is referenced twice if none was, and the indexes of the others stay valid |
| Scopes.MoveToHeap | src/tree/tree.cpp:105-110 | a captured variable gets the next slot of its owner's tuple, below heap_vars and its alone; no earlier slot changes |
| Scopes.HandDown | src/tree/tree.cpp:116-123 | one step of the walk: the scope below may be ahead of its parent only for the owner being handed down |
| Scopes.RequireVar | src/tree/tree.cpp:103-124 | keeps the invariant and makes the variable accessible in the scope: every scope a closure references encloses it, is referenced once, has a tuple, and is its parent or referenced by its parent too |
| Scopes.CarriedTuples | src/tree/tree.cpp:103-124 | what a scope references, in each state this leads to: scopes around it that have a tuple, each once, and each its parent or referenced by its parent |
| Scopes.Defined | src/tree/tree.cpp:126-145 | returns the innermost visible scope with the name, or nothing if none has it |
| Scopes.ResolveFindsInnermost | src/tree/tree.cpp:126-145 | resolving a name outwards from a scope gives the variable of the innermost visible scope that has it |
| Scopes.AllocVar | src/tree/tree.hpp:236-245 | a fresh variable in the next register of its scope |
| Scopes.Define | src/tree/tree.hpp:247-261 | the scope's variable of that name, made if there was none |
| Scopes.GetVar | src/tree/tree.hpp:263-281 | the variable the name resolves to, with no name rebound, or else a new one here under that name; it is accessible in the scope, and so is everything that was |
| Closures.Document.UseName | src/tree/tree.hpp:263-281 | the use recorded is of the variable the name resolves to in the open scope, or of a new one named there, and all uses so far can be compiled |
| Closures.Document.Take | src/parser/parser.hpp:88-121 | one step opens a fresh scope, closes one, or uses exactly the variable its kind says: the resolved one, the scope's parameter of that name, or one without a name; earlier uses and names stay |
| Closures.Parse | src/tree/tree.cpp:103-146 | for every sequence of scopes opened and closed, names used, parameters and temporaries defined: step by step the open scope, the names and the variable used are as the step says, starting from one empty scope, and each of these uses can be compiled in its scope at the end |
| Closures.EachStep | src/tree/tree.hpp:236-281 | case by case what each step of a parse makes of the open scope and of the names, and which variable it uses |
| Captures.AccessVariable | src/codegen/bytecode.cpp:221-244 | the operand denotes the variable: its register, its slot in the scope's own tuple, or an index within referenced_scopes that names its owner and its slot there |
| Captures.OneVariable | src/codegen/bytecode.cpp:221-244 | no operand denotes two variables |
| Captures.ClosureTuples | src/codegen/bytecode.cpp:1493-1501 | each tuple a closure needs comes from heap_var if it is the maker's own, and otherwise from a valid index of the maker's tuples |
| Captures.MakeClosure | src/codegen/bytecode.cpp:1481-1510 | a closure made by compiled code runs as compiled code of its scope, with the frame that made it |
| Captures.TupleOfItsOwner | src/codegen/bytecode.cpp:1481-1510 | in every activation, however deep, the tuple at the index of a referenced scope is that of the scope's own activation in which the closure was made |
| Captures.CapturedVariable | src/vm.cpp:242-244 | every use of a captured variable reads or writes the variable's slot in its own activation's tuple |
| Captures.ClosuresShare | src/support.cpp:15-23 | two closures made by one activation use the same slot for a variable of the scopes around them |
| Unwinding.StandardTried | src/vm.cpp:511-517 | a plain rescue takes the exception exactly if it is a standard error |
| Unwinding.FilterTried | src/vm.cpp:488-509 | a filtered rescue takes it exactly if its test left a list with one of the exception's classes |
| Unwinding.AllTried | src/vm.cpp:534-580 | when no handler matches, a loop entry takes break, redo and next; otherwise the block's ensure is next, or the parent block |
| Unwinding.TakenSomewhere | src/vm.cpp:481-483 | an exception is taken at one block, or outside of all, and the block around that one is current |
| Unwinding.TakenByLoop | src/vm.cpp:534-564 | an exception taken by a block's loop entry goes on at the loop's end for a break, at its next round for a next, where it was raised for a redo, and it is one of these |
| Unwinding.TakenByRescue | src/vm.cpp:485-531 | a rescue that takes it is a handler of the block, and the exception is a standard error or of one of the classes the rescue's test has just left |
| Unwinding.NotTakenFartherIn | src/vm.cpp:485-580 | no block farther in has a plain rescue if it is a standard error, or a loop entry if it is a break, a next or a redo |
| Unwinding.RescueBeforeLoop | src/vm.cpp:485-564 | a block's own rescues come before its loop entry |
| Unwinding.TakenByFrame | src/vm.cpp:435-475 | outside of all blocks a next and a return to this code leave the frame with their value, a redo goes back to where it was raised, and everything else is raised again |
| Unwinding.Frame.HandleException | src/vm.cpp:431-483 | with k blocks passed, goes on to the next test, ensure, rescue or loop label, or leaves the frame, as the specification says |
| Unwinding.Frame.TryHandlers | src/vm.cpp:485-580 | the same from a given handler of a block on |
| Unwinding.Frame.UnwindFilter | src/vm.cpp:494-509 | the same from the end of a test on |
| Unwinding.Frame.UnwindEnsure | src/vm.cpp:394-399 | the same from the end of an ensure on |
| Unwinding.Frame.Raise | src/vm.cpp:431-602 | a raised exception is taken by the first block outward with a matching handler, by its first matching one, or else a loop entry for it, or leaves the frame; the tests and ensures that ran are exactly the specified ones in order; the search ends; the block around the one that takes it is current afterwards; exactly if a rescue takes it, it is the thread's exception and in the rescue's variable |
| Unwinding.EnsuresRunOnce | src/vm.cpp:572-580 | the ensures that ran are those strictly inside the block that takes the exception, each once, innermost first, and all of them if no block takes it |
| Unwinding.EnsuresInLog | src/vm.cpp:572-580 | the log grows only at its end, and an ensure is in what it grew by exactly if its block is inside of the one that takes the exception |
| Unwinding.OneVerdict | src/vm.cpp:431-580 | there is exactly one way an exception can be taken |
| ValueMaps.SomeFree | src/value-map.hpp:97-128 | a table with fewer entries than slots has a free slot |
| ValueMaps.NotThere | src/value-map.hpp:104-109 | where a probe stops at a free slot the key is not in the table |
| ValueMaps.StoredHolds | src/value-map.hpp:140-168 | storing into the slot a probe ends at keeps keys unique and every probe chain unbroken, and binds exactly the key |
| ValueMaps.ValueMapData.Search | src/value-map.hpp:97-128 | ends, at the slot of the key if it is there and otherwise at a free slot of its probe sequence |
| ValueMaps.ValueMapData.Store | src/value-map.hpp:140-168 | the map gets the binding; the result tells whether the key was there |
| ValueMaps.ValueMap.Get | src/value-map.hpp:304-316 | the bound value, or what the callback makes for a missing key |
| ValueMaps.ValueMap.Has | src/value-map.hpp:318-327 | whether the key is bound |
| ValueMaps.ValueMap.Expand | src/value-map.hpp:175-224 | twice the slots, the same bindings and number of entries |
| ValueMaps.ValueMap.Set | src/value-map.hpp:329-334 | binds the key, doubling the table exactly when it is full; what it returns is whether the key was there, except that a new key that makes the table grow also reports true |
| ValueMaps.ValueMap.EachPair | src/value-map.hpp:271-286 | visits bindings in slot order, each at most once, all of them exactly if the callback never stops it |
| ValueMaps.RunTable | src/value-map.hpp:97-335 | over every sequence of get, set and has the table answers as a map does |
| Sorting.PartsKeepAll | corelib/enumerable.rb:344-353 | the two parts and the key are the range's elements; the parts are on their sides of the key |
| Sorting.SortPermutes | corelib/enumerable.rb:328-361 | the result is a permutation of the input for every comparison |
| Sorting.SortAscends | corelib/enumerable.rb:328-361 | the result is ascending for every total preorder |
| Sorting.Partition | corelib/enumerable.rb:341-353 | the other buffer gets the smaller elements at the front and the larger ones, reversed, at the back of the range; nothing outside of the range changes |
| Sorting.SortSub | corelib/enumerable.rb:328-361 | the result buffer's range is the sorted range of whichever buffer was the source; nothing outside of the range changes in either buffer; it terminates |
| Sorting.Sort | corelib/enumerable.rb:373-380 | the array is the quicksorted sequence of what each yields |
| Sorting.SortInOrder | corelib/enumerable.rb:373-380 | sort returns an ascending permutation of its input for every total preorder |
| Sorting.SortNumbers | corelib/enumerable.rb:373-380 | numbers compared by their difference come out in ascending order, each as often as before |
| Strings.Inspect | src/classes/string.cpp:38-77 | the text is the quoted form of every byte between quotes: printable ASCII only, characters 32 to 126 as they are, but quote, hash and backslash, newline and return as a backslash and their letter, and every other byte as \x and two capital digits |
| Strings.InspectJoins | src/classes/string.cpp:38-77 | what is written for two strings together is what is written for each |
| Strings.Lexer.Decode | src/lexer/strings.cpp:224-238 | going back over the digits adds up their number in the eight bits of a character |
| Strings.Lexer.ParseEscape | src/lexer/strings.cpp:88-293 | one escape is read as specified, with its end, for every input |
| Strings.Lexer.ParseInterpolate | src/lexer/strings.cpp:340-486 | a double-quoted literal is read up to its end, its first interpolation or the end of the text, as specified, for every input |
| Strings.HexRead | src/lexer/strings.cpp:210-239 | \x and the two digits of a byte are read as that byte, because eight bits drop what the x itself adds |
| Strings.QuotedIsRead | src/classes/string.cpp:42-74 | what inspect writes for a byte is read as that byte |
| Strings.InspectRoundTrip | src/classes/string.cpp:38-77 | lexing what inspect wrote for any byte string, anywhere in a text, gives back exactly that string and ends right behind it |
| Strings.InspectIsInjective | src/classes/string.cpp:38-77 | different strings are never written alike |
| Strings.InspectAndLex | src/lexer/strings.cpp:516-526 | inspect followed by the lexer is the identity on byte strings |
| Strings.HexEscape | src/lexer/strings.cpp:210-239 | an \x escape denotes the number of its digits if and only if there are two: with one digit it is sixteen more, with none thirty-three |
| Strings.LetterIsRead | src/lexer/strings.cpp:246-293 | n, t, r, f, v, a, e, b and s behind a backslash are read as bytes 10, 9, 13, 12, 11, 7, 27, 8 and 32, and a character without a meaning as itself |
| Strings.PrefixIsSkipped | src/lexer/strings.cpp:133-165 | a control or meta prefix leaves the escape behind it as it is |
| Strings.LinesAreJoined | src/lexer/strings.cpp:98-131 | a backslash and the end of a line stand for nothing |
| Strings.OctalIsRead | src/lexer/strings.cpp:172-205 | one to three octal digits behind a backslash are read as their number modulo 256 |
| Strings.HexIsRead | src/lexer/strings.cpp:208-239 | two hexadecimal digits, capital or not, are read as their number, one as sixteen more, none as 33 |
| Strings.ByteIsRead | src/lexer/strings.cpp:340-486 | a quote ends the literal, a hash before {, $ or @ interpolates, and any other byte but a backslash or a return stands for itself |
| Operators.TightInside | src/parser/parser.cpp:1272-1303 | in a grouped tree every operator binds at least as tightly as the root |
| Operators.RootIsLastLeast | src/parser/parser.cpp:1315-1365 | the root of a grouped tree is the last of the operators of its text that bind the least |
| Operators.OneTree | src/parser/parser.cpp:1315-1365 | a text has at most one grouping |
| Operators.Parser.ParseRight | src/parser/parser.cpp:1329-1361 | reads an operator and a right operand that binds more tightly, up to an operator that does not |
| Operators.Parser.ParsePrecedence | src/parser/parser.cpp:1315-1365 | reads on until an operator that binds less than asked for; the tree reads back as the input, left operands bind at least as tightly and right ones more tightly than their operator |
| Operators.Parser.ParseExpression | src/parser/parser.cpp:1310-1313 | consumes exactly the maximal sequence of operators and operands, and returns the one tree with that text |
| Operators.TwoOperators | src/parser/parser.cpp:1272-1303 | for every two operators: a p b q c is read as a p (b q c) exactly if q is of an earlier class than p, in the order multiplicative, additive, shifts, bitwise and, bitwise xor and or, comparisons, equalities and matches, logical and, logical or |
| Operators.PrintAndParse | src/tree/printer.cpp:92-98 | printing a tree and parsing the text gives back the tree if and only if its grouping follows precedence |
| Destructuring.Number | src/parser/parser.cpp:1550-1585 | the numbers of a list's targets: how many items stand before each, indexes that go up from 0 and, behind a splat, down from -1; two splats are an error |
| Destructuring.WriteNode | src/codegen/bytecode.hpp:211-228 | the code emitted for a target, nested lists included, and the registers it takes |
| Destructuring.MultipleAssignment | src/codegen/bytecode.cpp:395-417 | the code emitted for a list of targets, in order |
| Destructuring.RunsStores | src/vm.cpp:265-296 | running that code, for every target and value, leads to the specified storage and is never stuck |
| Destructuring.SpreadAssigns | src/vm.cpp:265-296 | in that storage each of the target's variables, wherever it lives, has the element its number selects |
| Destructuring.SpreadKeeps | src/codegen/bytecode.cpp:395-417 | no other variable and no temporary register in use has changed |
| Destructuring.VariablesGet | src/vm.cpp:265-296 | a list of variables gets an array's elements in order and nil beyond them; a value that is no array goes to the first variable and nil to the others |
| Destructuring.SplatAndVariablesGet | src/vm.cpp:265-296 | what the language means by a list with a splat: the variables before it get elements from the front, the splat what is left over, those behind it the last elements in order |
| Destructuring.LateItemsReversed | src/vm.cpp:265-272 | items behind a splat get the elements due to them in reverse order |
| Destructuring.RightIfTidy | src/codegen/bytecode.cpp:395-417 | for every target: the code assigns what the language means, whatever the value, if and only if no list in it has two items behind its splat of which one has a variable |
| Destructuring.TwoBehindASplat | src/vm.cpp:265-272 | such a target and value: of four elements the last two go to each other's variable |
| Binding.Prologue | src/codegen/bytecode.cpp:1357-1428 | the prologue emitted for any order of required, defaulted and destructured parameters, an optional rest, named or not, and an optional block parameter, each variable in a register or on the tuple, with the argument counts call_frame checks |
| Binding.ArgumentsSpellOut | src/vm.cpp:70-90 | the bound arguments in parameter order followed by the rest are argv |
| Binding.WhoIsBound | src/vm.cpp:93-101 | all required parameters are bound, and exactly the first argc - required defaulted ones |
| Binding.SourcesAscend | src/vm.cpp:75-101 | later parameters get later arguments |
| Binding.StaysBound | src/codegen/bytecode.cpp:1371-1428 | the variables of a parameter, one or several, keep their values while later ones are bound |
| Binding.BlockStays | src/codegen/bytecode.cpp:1357-1369 | the block parameter keeps the block while the other parameters are bound |
| Binding.PrologueBinds | src/codegen/bytecode.cpp:1357-1428 | running the prologue for any accepted call makes the tuple and gives every parameter its argument, or its default evaluated when all parameters before it were bound, taken apart for parameters in parentheses, the rest parameter the remaining arguments and the block parameter the block, each in its register or its slot of the tuple |
| Binding.EachIsBound | src/codegen/bytecode.cpp:1371-1428 | each variable of each parameter holds the value that is its own |
| Numbers.MagnitudeSplits | src/number.cpp:311-333 | a digit vector split at a digit; the low part is zero exactly if all its digits are |
| Numbers.ShiftedOut | src/number.cpp:313-333 | the digit loop and the mask find a set bit exactly if the magnitude is not a multiple of the power of two |
| Numbers.RightShift | src/number.cpp:279-343 | floor division by the power of two, for every sign, digit vector and shift up to INT_MAX; an error exactly beyond it |
| Numbers.ShiftHalves | src/number.cpp:279-343 | one bit more halves the quotient, downwards, and none leaves the number |
| Fixnums.FromInt | src/classes/fixnum.cpp:39-42 | tagging is exact on [low, high] |
| Fixnums.ToInt | src/classes/fixnum.cpp:44-47 | untagging is its inverse |
| Fixnums.Convert | src/classes/fixnum.cpp:31-37 | denotes the integer, tagged exactly from -2^62 to 2^62 - 1 |
| Fixnums.OneRepresentation | src/classes/fixnum.cpp:31-37 | two normal values that denote one integer are the same value |
| Fixnums.Add | src/classes/fixnum.cpp:108-111 | denotes the exact sum, in its only representation; the machine addition does not overflow |
| Fixnums.Sub | src/classes/fixnum.cpp:113-116 | denotes the exact difference, in its only representation |
| Fixnums.Mul | src/classes/fixnum.cpp:122-132 | denotes the exact product, in its only representation; the fast path is taken only for factors whose product fits |
| Fixnums.LeftShift | src/classes/fixnum.cpp:204-215 | denotes obj * 2^shift, or the floor of the quotient for a negative shift; tagged only if that fits; an error exactly beyond INT_MAX |
| Fixnums.RightShift | src/classes/fixnum.cpp:219-230 | denotes the floor of obj / 2^shift, or the product for a negative shift; tagged only if that fits |
| Fixnums.ShiftsByOneMore | src/classes/fixnum.cpp:204-230 | one bit more to the left doubles the result, one to the right halves it, downwards, and none leaves it |
| Fixnums.LeftShiftIsNormal | src/classes/fixnum.cpp:204-215 | a left shift gives the only representation of its result, except exactly for zero shifted by 62 or more and for results equal to low, which come out as big numbers |
| Fixnums.RightShiftIsNormal | src/classes/fixnum.cpp:219-230 | a right shift always does |
| Streams.LineEndIsLine | src/stream.cpp:44-95 | the byte-at-a-time reader's line has its terminator at its end and none inside, with \r\n kept together |
| Streams.LineInBytes | src/stream.cpp:55-88 | a line ends behind the first byte 10 or 13 in it, and a 13 takes a 10 that follows with it |
| Streams.OneLine | src/stream.cpp:44-95 | there is one way to cut off a line |
| Streams.Stream.Scan | src/stream.cpp:55-88 | the scan of one buffer finds the line's end and seeks there, or finds none in it |
| Streams.Stream.LastReturn | src/stream.cpp:69-79 | a \r on the buffer boundary: one more byte is taken if and only if it is a \n |
| Streams.Stream.Gets | src/stream.cpp:44-95 | exactly the next line with its terminator, in bytes 10 and 13, and the position right behind it, for every stream and position |
| Streams.ReadLines | src/stream.cpp:44-95 | repeated calls cut the whole stream into its lines, which joined are the stream |
| Streams.CutsAreLines | src/stream.cpp:44-95 | each of these lines starts where the one before it ends, and is a line |

## Left out

- GcCollect.Collect: with all regions empty it promises nothing unless the words at the last region's data are an unmarked free run that leads nowhere, because `update_backward` reads them as a header whatever `load()` says; what other words there make of the heap is not modelled.
- GcRun.Run: operations whose addresses the platform could not return, or that store a reference of another sort, are not enabled and have no effect; raw contents of objects are written only by allocation.
- GcAlloc.New: the counters `memory` and `collections` and the `pending` flag, which only decide when a collection happens, are not modelled.
- GcMark.NaiveMark: the two `mirb_runtime_assert` calls are not modelled; the invariant implies them.
- Execute.CompileAndRun: calls are opaque, so exceptions raised by a call are in `Unwinding` only, and locals on heap tuples are in `Captures` only.
- Simulation.Simulate: next inside a loop with a value that calls, assigns, loops or jumps is outside of well-formed trees, since the code does not evaluate the value; break outside of a loop unwinds another frame.
- Generator.Generator.ToBytecode: labels are numbers with a table of positions instead of objects; source locations and the string table are not modelled.
- Scopes.RequireVar: `require_args` for argument-less `super` is not modelled.
- Captures.CapturedVariable: creation of heap tuples is the activation's `heap`; the values in the slots are not modelled.
- Unwinding.Frame.Raise: tests and ensures are assumed not to raise exceptions of their own and to come back to the block they started in; what a test leaves in its register is a parameter, and so are the ancestors of an exception's class; the special case for stack overflow is not modelled.
- ValueMaps.ValueMap.Expand: a failing allocation while the table grows is not modelled.
- ValueMaps.ValueMap.Get: keys are compared by identity, as in the light table; `remove` is not modelled, since `remove_index` steps a doubled slot index by one and does not keep the probe chains.
- Strings.Lexer.ParseInterpolate: heredocs, other delimiters, the code inside of interpolations, regular expressions and diagnostics are not modelled.
- Operators.Parser.ParseExpression: operands are opaque, newlines behind operators and operands that are lists are not modelled, and a missing operand is a leaf without text.
- Destructuring.WriteNode: targets are local variables of the scope itself; attributes, elements, constants, globals and instance variables as targets, and variables of scopes around it, are not modelled.
- Binding.PrologueBinds: a default may read but does not assign parameters, and its code is one instruction without temporary registers; a splat in parentheses that names a parameter already there, and blocks called with fewer arguments than parameters, are not modelled.
- Fixnums.Mul: factors that are not small go through exact integers, for which libtommath is trusted.
- Redo, case, constants, ranges, interpolation, super and definitions in the code generator.
- Finalizers, DEBUG and VALGRIND variants, stack limits, threads and signals.
- Vectors, lists, hash tables and buffers of the prelude library, which are sequences and maps here.
- Files, the console, regular expressions, and the thin class wrappers, which would only add easy members.
