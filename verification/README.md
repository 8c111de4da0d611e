# Eagle: proofs about the compiler's and the runtime's own algorithms

Eagle is a compiler written in C with a reference-counting runtime written in Eagle itself. This project models the
algorithms of the two that do not depend on LLVM, and proves what they are for.

* **Regular expressions** (`RegexSyntax`, `RegexNfa`, `RegexPaths`, `RegexClosure`, `RegexBuild`, `RegexParser`,
  `RegexPrinter`, `RegexTexts`, `RegexEngine`, `RegexTheorems`). The recursive-descent parser, the construction of the state graph
  with its lists of unfilled `out` pointers threaded through the very fields to be filled, and the simulation with
  generation marks. The grammar of patterns is defined on its own, in bytes, and the parser reads exactly that
  grammar; the language of a tree is defined on its own, without states, and the engine's answers are exactly that
  language.
* **Reference counting** (`CountedMemory`, `CountedSteps`, `CountedReach`, `CountedRuntime`, `CountedStores`,
  `CountedStructs`, `CountedValues`, `CountedPrograms`). Objects with counts, lists of weak slots, generated destructors
  and the release cascade; struct values in local storage, copied and destroyed field by field; whole programs. `Mem` is
  the memory; `owed` are references held by nobody's slot (owned temporaries, and references on their way into or out of
  a slot); the `pinned` ones among them are those of temporaries that stay where they are; `doomed` objects are being
  destroyed; an `idle` slot still holds bits whose reference it no longer owns, or does not own yet. `Inv` says that
  every live object's count is the number of slots in use that hold it plus what is owed, that its weak list is exactly
  its weak slots, and that no slot in use points to anything freed.
* **Interface dispatch** (`Dispatch`). Flattened method tables with offsets summed at compile time and searched by name
  at run time.
* **Short-circuit code** (`ShortCircuit`, `ShortCircuitProof`). The blocks and phis emitted for `&&` and `||`, with a
  small machine that runs them.
* **Generics** (`GenericTypes`, `GenericInference`, `GenericCalls`, `GenericArena`). The loose type comparison, one-way
  matching of templates, and type nodes in memory, where interned generic nodes are overwritten in place.
* **Work queue** (`WorkQueue`). The worker threads as a machine whose steps are single lock operations, reads and
  writes, scheduled in any order.
* **Imports** (`Imports`), **hash table** (`HashTable`), **scopes** (`Scopes`), **heap** (`Heap`): the import worklist,
  the chained table with relinked nodes, variable lookup across a closure's barrier, and the array list's heap sort.

Code that changes things in place is modelled by classes and methods with the source's fields and loops; each is tied to
a pure function or relation on values, and the properties are lemmas about those. Memory that C reaches by pointer
(states, nodes of the hash table, type nodes, scopes) is a sequence of cells whose indices are the addresses.

## What turned out not to hold

* `rgx_matches` never accepts the empty input, even if the pattern has the empty word: `matched` is cleared after the
  first closure. If the calls so far on a fresh regex all had empty inputs, the next call answers "no" whatever its
  input: the marks of the last reset are 0 and so is the generation. `Regex.Matches` and `RegexTheorems.Ask` state
  exactly when an answer is right, `WordsMissed` gives concrete words.
* Class ranges are compared without folding case, also under the ignore-case flag: `RegexSyntax.ClassKeepsCase` gives
  the pattern. `RegexSyntax.CaseIgnored` says that words equal up to case are accepted alike if each class holds both
  cases of its letters, and `CaseIgnoredExactly` that for a class alone this is necessary too.
* `ett_are_same` is transitive through exactly the types without generics (`GenericTypes.TransitiveExactly`).
* Matching does not look at the non-generic leaves of a template, at weak flags, or at closure flags:
  `GenericCalls.AcceptedButDifferent` is an accepted argument that is not an instance, and
  `GenericCalls.GivenSameAsInstance` says exactly when an accepted one is.
* A plain type as a parameter of a function type is never copied, and the copied parameter array is uninitialised:
  `GenericCalls.CopyDetermined` says exactly when a copy is independent of that memory.
* A generic inside an array is shared with the template and changes with it: `GenericArena.CopyIsolatedExactly`.
* A lookup that has to cross two closure barriers does not end: `Scopes.EndsExactly`.
* A block's scope keeps what was captured while it was open, so a closure that uses a variable inside a block and again
  after it has it twice in its list: `Scopes.CapturedAgain`, `Scopes.ListedTwice`. `Scopes.ClosureLists` says how often
  a variable is listed, for every body of blocks, closures, declarations and uses: once for each use that no binding in
  an open block of the body precedes (`Scopes.Needed`), and never if it is bound nowhere, beyond another closure, or to
  a plain function. So a list is free of repetitions exactly if no variable is needed twice, as in bodies without blocks
  (`Scopes.FlatNeeded`).
* `arr_heapsort` does not sort, because `arr_heapify` passes over the last parent. It sorts every list whose last parent
  is not below its children (`Heap.Sorts`), and only lists with a largest entry that is not a child of the last parent
  (`Heap.SortedOnly`), which is exactly when heapifying brings a largest entry to the top (`Heap.ToppedExactly`). The
  second condition is exact up to four entries and for six (`Heap.SortsExactly`), and for no other length: of five
  entries, and of every number beyond six, some list meets it and is not sorted (`Heap.OthersFail`,
  `Heap.ExactLengths`). Up to three entries both conditions are the same (`Heap.OneParent`); a list of four is sorted
  that does not meet the first (`Heap.FirstNotNecessary`). Every list of two is reversed (`Heap.TwoReversed`).
* An operator at the start of a pattern, of an alternative or of a group has nothing to repeat; it is no error and
  stands for itself: `RegexTexts.TermText`, which `RegexTexts.GrammarExactly` shows to be what the parser does.
* An `import` token in a place that an `export` token consumes is never heard: `Imports.ImportConsumed` is an example,
  and `Imports.HeardExactly` says that a file's imports are all heard exactly if none stands in such a place. The same
  holds of an `export` in such a place; and the long form with a kind records its last token without looking whether it
  is a string: `Imports.RecordedExactly` says exactly when the record is what is written.
* Assigning a struct destroys the old value before the new one takes its references. `CountedValues.AssignStruct` says
  that this works exactly if, before the assignment, everything that the new value points to is held up without the old
  one: it lies in a set of objects each of which has a reference from a local or a temporary outside the old value, or
  from a field of an object in the set, or was never counted (`CountedReach.Sustained`). So a struct that holds the last
  reference to an object cannot be assigned to itself (`CountedValues.SelfAssignmentFails`), nor take over what only
  that object holds (`CountedValues.FieldAssignmentFails`).
* The generated copy constructor passes over arrays of counted pointers, whose elements the destructor releases all the
  same: `CountedStructs.ArrayCopyExactly` says that a copy is accounted for exactly if its arrays hold nothing.
* `hst_resize` is compiled but never called by `hst_put` (`NO_RESIZE`); its model stands on its own.

## Model

| member | source | states |
|---|---|---|
| RegexPrinter.RoundTrip | src/core/regex.c:216-452 | every tree of the parser's shape, printed with escapes, brackets and parentheses, parses to itself, with the whole text consumed and no error |
| RegexPrinter.ParsedShape | src/core/regex.c:216-452 | every pattern parses to a tree of that shape; clean bytes give no leaf that collides with a sentinel code; short of an overrun the tree can be written back |
| RegexPrinter.Reprint | src/core/regex.c:216-452 | printing the tree of any pattern that was read without overrun, and parsing again, gives the same tree |
| RegexPrinter.ClassParses | src/core/regex.c:360-407 | a bracket class, written with its negation, its ranges and its escapes, is read back as the same class, ranges that end in a byte above 127 included |
| RegexTexts.GrammarExactly | src/core/regex.c:216-452 | a text parses to a tree, wholly and without error, exactly if a grammar written in byte codes says that it stands for that tree |
| RegexTexts.Unambiguous | src/core/regex.c:216-452 | no text stands for two trees |
| RegexTexts.OperatorsRead | src/core/regex.c:216-286 | what star, plus, question mark, bar, dot and parentheses make of ordinary bytes |
| RegexTexts.EscapedByte | src/core/regex.c:419-449 | every byte but six letters stands for itself after a backslash |
| RegexTexts.EscapedLetter | src/core/regex.c:306-358 | after a backslash d, s and w have the digits, the white space and the word characters as their words, and D, S and W all other bytes |
| RegexParser.Compiler.Regex | src/core/regex.c:216-234 | alternations nest to the right; the method turns the cursor it finds into the tree and the cursor it leaves |
| RegexParser.Compiler.Term | src/core/regex.c:236-253 | left-nested sequence of factors that starts with a blank |
| RegexParser.Compiler.Factor | src/core/regex.c:255-286 | any number of postfix operators around a base |
| RegexParser.Compiler.BaseNode | src/core/regex.c:409-452 | groups, escapes with predefined classes, bracket classes, any, plain characters |
| RegexParser.Compiler.ClassNode | src/core/regex.c:360-407 | the loop computes the class that `ClassParses` is about: entries with negation and ranges |
| RegexBuild.DanglingDistinct | src/core/regex.c:454-478 | the unfilled slots of a fragment are pairwise different, so the threaded list has no cycle |
| RegexBuild.SequenceBuilt | src/core/regex.c:514-522 | patching the first part's exits with the second's entry wires the sequence and keeps the second's exits threaded |
| RegexBuild.OrBuilt | src/core/regex.c:504-512 | a new split in front of two sides whose lists of exits have been joined makes the fragment of the alternative |
| RegexBuild.LoopBuilt | src/core/regex.c:539-555 | patching the body's exits to the split closes the loop and leaves one exit |
| RegexBuild.OptionBuilt | src/core/regex.c:557-563 | the body's exits and the split's second exit form the fragment's list |
| RegexBuild.PatternCompiled | src/core/regex.c:192-214 | after the last patch every slot is filled: the graph is that of the pattern and ends in its only MATCH state |
| RegexClosure.CompiledTotal | src/core/regex.c:192-214 | every state but MATCH has its successor inside the graph, every split both |
| RegexPaths.WordsHavePaths | src/core/regex.c:504-594 | each word of a pattern is read along some path from the entry to the exit of its graph |
| RegexPaths.PathsSpellWords | src/core/regex.c:504-594 | a path through a fragment leaves it by its exit, having read a word of its pattern |
| RegexPaths.Spells | src/core/regex.c:504-594 | the graph reaches its end on exactly the words of the pattern |
| RegexClosure.GrownByClosure | src/core/regex.c:596-617 | the states marked on behalf of one state are exactly its silent closure |
| RegexClosure.ListsOneMore | src/core/regex.c:596-617 | the list stays free of repetitions and never exceeds the number of states |
| RegexClosure.ReachOneMore | src/core/regex.c:659-674 | what is reached by one more character: leave a listed state over it and close silently |
| RegexEngine.TestClass | src/core/regex.c:619-635 | class membership with ranges and negation |
| RegexEngine.Test | src/core/regex.c:644-657 | whether a state is left on a character: literal, any, class, other case on request |
| RegexEngine.Regex.Join | src/core/regex.c:462-468 | the walk to the end of the first list hangs the second behind it; no other slot changes |
| RegexEngine.Regex.Patch | src/core/regex.c:470-478 | every slot of the list, and none else, leads to the given state |
| RegexEngine.Regex.Build | src/core/regex.c:571-594 | the new states are the wired graph of the tree, its exits threaded; older states are untouched |
| RegexEngine.Regex.Compile | src/core/regex.c:192-214 | the constructor: a pattern that ends properly and has no leaf that collides with a sentinel code gives a complete graph with fresh marks |
| RegexEngine.Regex.AddState | src/core/regex.c:596-617 | ends on cyclic graphs; lists, once each, exactly the newly marked states that are not silent |
| RegexEngine.Regex.Step | src/core/regex.c:659-674 | the next list holds the states reached by one more character; `matched` says whether MATCH is among them |
| RegexEngine.Regex.ResetAll | src/core/regex.c:676-691 | all marks become 0 |
| RegexEngine.Regex.Matches | src/core/regex.c:840-877 | the answer is yes exactly if the input is non-empty, in the language, and the marks are usable |
| RegexTheorems.Ask | src/core/regex.c:840-877 | over any series of calls on one compiled pattern, which answers are right |
| RegexTheorems.AskText | src/core/regex.c:840-877 | the same in terms of the text alone: the tree is the one that the grammar gives it |
| RegexTheorems.Decide | src/core/regex.c:192-214 | tree to text to graph to answer: the tree's own language, for every non-empty input |
| RegexTheorems.WordsMissed | src/core/regex.c:859-861 | words of the language that a call does not accept |
| RegexSyntax.ClassKeepsCase | src/core/regex.c:619-657 | under the ignore-case flag `[a-z]` has the word a and not the word A |
| RegexSyntax.CaseIgnored | src/core/regex.c:644-657 | words equal up to case are accepted alike if each class holds both cases of its letters |
| RegexSyntax.CaseIgnoredExactly | src/core/regex.c:619-657 | for a class alone, exactly then |
| CountedSteps.Dropped | rc.egl:65-71 | counting down a reference that is owed pays it and keeps the accounting |
| CountedSteps.Raised | rc.egl:51-55 | counting up makes a reference owed and keeps the accounting |
| CountedSteps.Unlisted | rc.egl:128-157 | removal by shifting takes exactly one slot off the list |
| CountedSteps.Enlisted | rc.egl:113-126 | the slot joins its target's list and the list stays exact |
| CountedSteps.Doomed | rc.egl:70-83 | an object without references can be marked: its weak slots read nil and nothing else pointed to it |
| CountedSteps.Freed | rc.egl:84-85 | once its fields are given up, freeing leaves no slot pointing to it |
| CountedReach.ChainSurvives | rc.egl:65-86 | every object on a chain of counted pointers from a local or from an owned temporary survives a release, with the chain |
| CountedReach.ReachableSurvives | rc.egl:65-86 | no release frees an object that a local or a temporary reaches |
| CountedReach.SurvivorsExactly | rc.egl:65-86 | after a release exactly those objects are left that hold each other up with locals and owed references, without what was given up |
| CountedReach.ReachableSustained | rc.egl:65-86 | whatever a local or a temporary reaches is held up |
| CountedReach.OwnerLasts | src/compiler/ac_expressions.c:1408-1425 | the owner of a field, reached over counted pointers, is held up without that field |
| CountedReach.UnreferencedIntact | rc.egl:79-83 | a destructor meets each field of its object exactly once |
| CountedReach.Unreachable | rc.egl:71 | a count of zero means that no local and no temporary reaches the object |
| CountedReach.ChainAround | src/compiler/ac_expressions.c:1408-1425 | the owner of a field is reached without going through that field |
| CountedRuntime.Runtime.DecrPtr | rc.egl:65-86 | the cascade ends on every object graph, pays exactly one reference, keeps the accounting, destroys the object with its last reference; between steps exactly the objects that are no longer held up are freed |
| CountedRuntime.Runtime.Destroy | rc.egl:71-85 | weak slots cleared, fields released, object freed once |
| CountedRuntime.Runtime.Teardown | src/compiler/ac_struct.c:144-210 | every field of the object is given up once, in order |
| CountedRuntime.Runtime.RemoveWeak | rc.egl:128-157 | the slot leaves its target's list; no other list changes in content |
| CountedRuntime.Runtime.AddWeak | rc.egl:113-126 | appends to the list, growing it by ten when full; nothing for nil or a dying target |
| CountedRuntime.Runtime.SetNil | rc.egl:57-63 | exactly the listed slots become nil |
| CountedRuntime.ShiftedOut | rc.egl:145-156 | the list without one entry, in the old order, and still as long as allocated |
| CountedRuntime.Appended | rc.egl:118-125 | the list with one more entry at the end |
| CountedStores.IncrPtr | rc.egl:51-55 | a new reference is owed; an object being destroyed owes nothing, and keeps its count once it is marked |
| CountedStores.SafeStore | src/compiler/ac_expressions.c:1408-1448 | storing a counted pointer keeps the accounting, self-assignment and unlinking included, and takes an owned temporary's reference over; exactly what the slot's old value alone held up is freed |
| CountedStores.SafeStoreWeak | src/compiler/ac_expressions.c:1427-1431 | storing a weak pointer moves the slot between lists and changes no count |
| CountedStores.CheckPtr | rc.egl:94-111 | an object that no slot took is destroyed at once, and only such an object, with exactly what it alone held up |
| CountedStores.LeaveScope | src/compiler/ac_rc.c:11-27 | a counted or weak local that goes out of scope gives its reference up; exactly what is held up without it stays, and so what others reach |
| CountedStores.Declare | src/compiler/ac_expressions.c:117-162 | a nil local comes into scope |
| CountedStores.Allocate | rc.egl:37-44 | a new object with count zero and initial fields disturbs nothing |
| CountedPrograms.Execute | src/compiler/ac_expressions.c:1408-1448 | each step, calls and owned temporaries, stores, scopes and struct values, does what it says to cells, objects and temporaries, leaves all other cells as they were but for weak pointers to what was freed, and keeps the accounting, where all that is owed is what the temporaries hold; a step fails exactly if it copies a struct over what holds something up that it points to |
| CountedPrograms.Assign | src/compiler/ac_expressions.c:1408-1448 | the slot has the value stored, as a counted or a weak pointer by its kind; the other cells are as before, and exactly what the old value alone held up is gone |
| CountedPrograms.NewStored | src/compiler/ac_expressions.c:1408-1448 | a new object in a local has its initial fields, and what the local's old value does not hold up alone stays |
| CountedPrograms.NewGone | rc.egl:94-111 | a new object that no slot takes is gone, and everything is as it was |
| CountedPrograms.ReachedStorable | src/compiler/ac_expressions.c:1408-1448 | a program that got to a slot's owner over counted pointers can always store there |
| CountedPrograms.ValueLives | src/compiler/ac_expressions.c:1408-1448 | a pointer that a program can load, weak or counted, points to allocated memory |
| CountedPrograms.TempLives | src/compiler/ac_rc.c:29-47 | so does an owned temporary |
| CountedPrograms.Return | src/compiler/ac_control_flow.c:73-94 | the value a function returns is counted up and owned by a temporary of the caller |
| CountedPrograms.AssignTemp | src/compiler/ac_expressions.c:1411-1431 | storing a temporary in a counted slot takes its reference over, in a weak slot it does not; the slot has the value, and exactly what its old value alone held up is gone |
| CountedPrograms.Release | src/compiler/ac_rc.c:29-39 | at the end of the statement a temporary's reference is paid back; exactly what is held up without it stays |
| CountedPrograms.Run | rc.egl:51-157 | after any program every count is the number of holders plus what the temporaries hold, weak lists are exact, and no slot and no temporary points to freed memory; the states passed through are those of the steps' effects, from the empty memory on; only a failed struct assignment stops a run |
| CountedStructs.PlainStruct | src/core/types.c:1291-1315 | a struct needs no destructor exactly if there is no pointer cell anywhere in it |
| CountedStructs.CopyConstruct | src/compiler/ac_struct.c:59-100 | after the bitwise copy, every pointer cell of the copy but the elements of arrays takes its own reference or list entry |
| CountedStructs.ArrayCopyExactly | src/compiler/ac_struct.c:59-100 | the elements that the copy constructor passes over are accounted for exactly if they are nil |
| CountedStructs.DestroyStruct | src/compiler/ac_struct.c:144-210 | each pointer cell gives up its reference or list entry, with the cascade that hangs on the struct alone; whatever was held last by the struct is gone and whatever is held up without it stays; where everything is held elsewhere nothing is freed |
| CountedStructs.DestroyArray | rc.egl:164-170 | the same for an array, element by element |
| CountedStructs.CopyThenDestroy | src/compiler/ac_struct.c:59-210 | copying a struct of any nested shape, its arrays empty, and destroying the copy restores all counts and weak lists and frees nothing |
| CountedStructs.CopyBacked | src/compiler/ac_struct.c:59-100 | the bitwise copy of a struct in use meets that lemma's condition: the original holds what the copy points to |
| CountedStructs.BooksBalanced | src/compiler/ac_struct.c:59-210 | equal slots and equal debts mean equal counts and lists |
| CountedValues.DeclareStruct | src/compiler/ac_expressions.c:117-162 | a struct or an array comes into scope with nil in all its pointer cells |
| CountedValues.LeaveStruct | src/compiler/ac_struct.c:13-17 | a struct that goes out of scope gives all its references up; exactly what is held up without it stays, and so what others reach |
| CountedValues.LeaveArray | src/compiler/ac_rc.c:17-21 | so does an array of counted pointers |
| CountedValues.AssignStruct | src/compiler/ac_expressions.c:1432-1447 | the assignment works exactly if all that the new bits point to is held up without the old value; then the bits are there, counted but for arrays, and the other cells are as before; a last reference held by the old value never survives |
| CountedValues.SelfAssignmentFails | src/compiler/ac_expressions.c:1432-1447 | a struct that holds the last reference to an object cannot be assigned to itself |
| CountedValues.FieldAssignmentFails | src/compiler/ac_expressions.c:1432-1447 | nor can it take over what only that object holds |
| Dispatch.InterfaceOffset | src/core/types.c:1116-1127 | first position of the method in the interface, or -1 |
| Dispatch.SlotsAt | src/compiler/ac_class.c:312-327 | where an interface's methods lie in the flattened table |
| Dispatch.SlotSearch | src/compiler/ac_class.c:199-223 | the first slot that asks for a method, interface by interface |
| Dispatch.ClassHelper.Register | src/compiler/ac_class.c:199-223 | the method goes to the first slot that asks for it, if its type agrees; no other slot changes |
| Dispatch.BuildOffsets | src/compiler/ac_class.c:312-327 | each interface starts where the methods of those before it end |
| Dispatch.AllFilled | src/compiler/ac_class.c:359-364 | no slot stays empty exactly if the slots ask for different methods and the class has them all |
| Dispatch.DefineClass | src/compiler/ac_class.c:268-364 | definition succeeds exactly if types agree and the class is complete; then slot by slot the table has its own methods |
| Dispatch.InterfaceForMethod | src/core/types.c:1155-1169 | the first interface of a composite that has the method |
| Dispatch.LookupMethod | rc.egl:172-190 | the function at the offset of the first entry of that name, or nil |
| Dispatch.OwnSlot | src/compiler/ac_class.c:312-364 | the slot of an implemented interface's method lies in the table and holds the class's method |
| Dispatch.Call | src/compiler/ac_expressions.c:227-245 | a call through a composite interface runs the class's own method of that name if the class implements the first interface of the composite that has it, and finds nil otherwise; after the check that it implements them all, never nil |
| Dispatch.CheckedExactly | src/core/types.c:1171-1189 | all methods of a composite are answered exactly if the class implements each interface that adds one; so where each adds one, exactly if it passes the check |
| ShortCircuit.Builder.Flatten | src/compiler/ac_expressions.c:569-572 | the operands down the left spine of one operator, the first one last |
| ShortCircuit.SpineShape | src/compiler/ac_expressions.c:569-572 | every operand but the first is the right side of its node on the spine |
| ShortCircuit.Builder.CompileLogical | src/compiler/ac_expressions.c:560-707 | the loops over operands emit what the recursive scheme emits |
| ShortCircuit.Builder.Compile | src/compiler/ac_expressions.c:560-707 | any nesting of operators and leaves is emitted by that scheme |
| ShortCircuitProof.EmitRuns | src/compiler/ac_expressions.c:560-707 | running an expression's blocks evaluates its leaves as short-circuit evaluation does, leaves its value, and changes no register that was in use |
| ShortCircuitProof.GuardRuns | src/compiler/ac_expressions.c:574-602 | an operand that decides goes to the merge block with the constant that the phi selects, any other to the next operand |
| ShortCircuitProof.EmitSound | src/compiler/ac_expressions.c:604-633 | emission keeps every phi listing exactly its predecessors, each once |
| ShortCircuitProof.EmitNumbered | src/compiler/ac_expressions.c:560-707 | the registers an expression defines are new, each is defined in one place, and the last one has its value |
| ShortCircuitProof.CompilesCorrectly | src/compiler/ac_expressions.c:560-707 | in any surrounding code and for any leaves, trace and value are those of the expression, registers in use are kept, all phis are exact, and no register is defined twice |
| ShortCircuitProof.CompileFunction | src/compiler/ac_expressions.c:560-707 | the same of a builder's own run on a new function |
| GenericTypes.SameReflexive | src/core/types.c:669-740 | the comparison is reflexive |
| GenericTypes.SameSymmetric | src/core/types.c:669-740 | the comparison is symmetric |
| GenericTypes.TransitiveExactly | src/core/types.c:669-740 | it is transitive through a type exactly if that type has no generic |
| GenericTypes.SameExactly | src/core/types.c:669-740 | types without generics are the same exactly if their normal forms are equal, in which pointers are managed or not, function types closures or not, and names, lengths and kinds are kept |
| GenericTypes.CommonExactly | src/core/types.c:669-740 | any two types are the same exactly if some type without generics is the same as both |
| GenericInference.Inference.HandleGeneric | src/compiler/ac_generics.c:168-182 | a use must be the same as the one before; the last use stays |
| GenericInference.Inference.HandlePointer | src/compiler/ac_generics.c:184-200 | succeeds exactly if the shapes and uses allow it; the copy has the template's flags and the given parts |
| GenericInference.Inference.HandleFunction | src/compiler/ac_generics.c:202-226 | the same for function types, whose unwritten parameters are whatever the memory held |
| GenericInference.Inference.CopyAndFind | src/compiler/ac_generics.c:228-254 | matching succeeds exactly if shapes fit and uses agree in order, or, with nothing given, if every generic is known |
| GenericInference.FitsExactly | src/compiler/ac_generics.c:184-238 | a given type has the declared shape exactly if it looks the same wherever no generic is declared: kinds, counted pointers, numbers of parameters, the variadic and the generator flag |
| GenericInference.AgreeAppend | src/compiler/ac_generics.c:221-223 | matching two parts after each other is matching both |
| GenericCalls.InstanceType | src/compiler/ac_generics.c:256-297 | a call is accepted exactly if its arguments fit, agree and decide the return type; then the instance's type |
| GenericCalls.AcceptedExactly | src/compiler/ac_generics.c:256-298 | for concrete arguments: shapes fit, any two uses of a generic are the same, and the parameters mention every generic of the return type |
| GenericCalls.AcceptedByForm | src/compiler/ac_generics.c:256-298 | a call with concrete arguments is accepted exactly if they look as declared, all that is given for a generic has one normal form, and the parameters mention every generic of the return type |
| GenericCalls.TwoOfOneType | src/compiler/ac_generics.c:168-182 | f(T, T) takes two types exactly if they have one normal form; two structs of different names are refused |
| GenericCalls.AgreeExactly | src/compiler/ac_generics.c:168-182 | comparing each use with the one before compares all pairs, for generic-free types |
| GenericCalls.InstancesAccepted | src/compiler/ac_generics.c:273-297 | arguments that are instances under one substitution are accepted, if they decide the return type |
| GenericCalls.AcceptedCall | src/compiler/ac_generics.c:273-297 | an accepted call has one substitution: copies are the instances up to the comparison, the return type is the instance itself, and each parameter of the instance's type is the argument where the declared one has a generic, and the declared one elsewhere |
| GenericCalls.CopySameAsInstance | src/compiler/ac_generics.c:184-226 | a copied parameter is the instantiated template, as the compiler compares types |
| GenericCalls.CopyIsInstance | src/compiler/ac_generics.c:292-294 | the copied return type is the instantiated template exactly |
| GenericCalls.GivenSameAsInstance | src/compiler/ac_generics.c:228-254 | an argument that matched is an instance exactly if its other parts are the declared ones |
| GenericCalls.AcceptedButDifferent | src/compiler/ac_generics.c:184-193 | a raw pointer accepted for a weak one |
| GenericCalls.CopyDetermined | src/compiler/ac_generics.c:217-225 | a copy is independent of uninitialised memory exactly if no function type inside has a plain parameter |
| GenericArena.TypeMemory.DeepCopy | src/core/types.c:538-571 | the copy has the structure of its input and consists of new nodes, down to arrays, generators and the names of enums |
| GenericArena.TypeMemory.Copy | src/core/types.c:607-621 | one node is copied; a function's parameter array is new and unset |
| GenericArena.TypeMemory.GenericType | src/core/types.c:1337-1351 | one interned node for each identifier |
| GenericArena.TypeMemory.SetGenericType | src/core/types.c:1353-1360 | only the interned node of that identifier changes |
| GenericArena.TypeMemory.Register | src/compiler/ac_generics.c:30-59 | only the template's own node is written; unless a part that is copied has an enum inside or any part a generic in an array or a generator, the node describes the same type as before without involving an interned node |
| GenericArena.TypeMemory.Run | src/compiler/ac_generics.c:123-132 | whatever is interned, overwritten, allocated, copied and written into newer nodes, types that involve no interned node stay |
| GenericArena.TypeMemory.RegisterAndRun | src/compiler/ac_generics.c:30-59 | a registered template keeps its meaning through everything that follows |
| GenericArena.CopyIsolatedExactly | src/core/types.c:538-571 | a deep copy is cut off from the interned generics exactly if none hides in an array or a generator |
| GenericArena.SurvivesExactly | src/core/types.c:1353-1360 | overwriting a generic leaves exactly those types as they were that do not involve its node |
| WorkQueue.StepInv | src/core/threading.c:145-185 | no step of any worker breaks locking, exclusive claims, slots written at most once by their own job, or consecutive numbers |
| WorkQueue.StepDistinct | src/core/threading.c:93-102 | no number is ever in two names |
| WorkQueue.StepRemaining | src/core/threading.c:145-216 | every step uses up one of a number of steps known in advance |
| WorkQueue.NoDeadlock | src/core/threading.c:145-216 | as long as a worker has not finished, some worker can step |
| WorkQueue.EveryRun | src/core/threading.c:145-216 | under every schedule a run has one bounded length, is over exactly when all have finished, and then each job was done once, for its own bundle, in its own slot |
| Imports.Importer.Follow | src/environment/imports.c:409-426 | one import is resolved and listed if it is new |
| Imports.Importer.ScanFile | src/environment/imports.c:391-450 | one file's imports are all followed and its export record is made, with the text and the kind of each export that `RecordedAre` lists |
| Imports.Importer.Collect | src/environment/imports.c:368-450 | success exactly if every reachable file's imports exist; then the table has the files reachable from the root, minus the root, each scanned once and recorded |
| Imports.ReachesExactly | src/environment/imports.c:391-450 | reachability by paths and by closed sets are the same |
| Imports.Closed | src/environment/imports.c:391-450 | when the worklist is used up, what is known is what the root reaches |
| Imports.HeardExactly | src/environment/imports.c:405-441 | the scan hears every import of a file, in order, exactly if none stands where an `export` consumes it |
| Imports.ImportConsumed | src/environment/imports.c:428-436 | an import right after `export` is not heard, and its file not looked for |
| Imports.FarEnough | src/environment/imports.c:428-441 | all are heard if none stands within four tokens after an `export` |
| Imports.RecordedAre | src/environment/imports.c:428-441 | the records of a file are the exports that the scan reads, each with its text and its kind |
| Imports.RecordedExactly | src/environment/imports.c:428-441 | they are the exports that are written, place by place, exactly if none of them stands where another one consumes it and every long form that is read ends in a string |
| Imports.RecordIsWritten | src/environment/imports.c:428-441 | of such a file the record is the list of what is written |
| Imports.ExportForms | src/environment/imports.c:428-441 | what the short form and the long form with a kind leave in the record |
| HashTable.Representable | src/core/hashtable.c:99-134 | every equality function that is an equivalence and implies equal hashes is the equality of some representatives, by which the model's map is keyed |
| HashTable.Apart | src/core/hashtable.c:99-134 | different places on the lists hold different nodes with keys that are not equal |
| HashTable.AppendKeeps | src/core/hashtable.c:112-133 | a new node at the end of its bucket keeps the invariant and adds its key |
| HashTable.OverwriteKeeps | src/core/hashtable.c:121-129 | a new value for a key that is there |
| HashTable.UnlinkKeeps | src/core/hashtable.c:219-238 | bypassing a node removes exactly its key |
| HashTable.MoveKeeps | src/core/hashtable.c:71-92 | moving one node to the end of its new bucket leaves the moved and the remaining nodes in order |
| HashTable.MovedAll | src/core/hashtable.c:63-97 | the new buckets hold every node once, at home, for the same map |
| HashTable.Hashtable.Put | src/core/hashtable.c:99-134 | the map with the entry |
| HashTable.Hashtable.Get | src/core/hashtable.c:136-149 | the map's value, or nothing |
| HashTable.Hashtable.ContainsKey | src/core/hashtable.c:180-193 | whether the map has the key |
| HashTable.Hashtable.RemoveKey | src/core/hashtable.c:207-241 | the map without the key, and the value it had |
| HashTable.Hashtable.Resize | src/core/hashtable.c:63-97 | more buckets, the same map and count |
| HashTable.Hashtable.AddAllFrom | src/core/hashtable.c:166-178 | the union, the other table's entries taking precedence; the other table may be the same one |
| Scopes.GetStuck | src/compiler/variable_manager.c:88-118 | inside an outer lookup, a barrier before the binding is never got past |
| Scopes.GetCaptures | src/compiler/variable_manager.c:96-109 | across one barrier: one callback, and the new binding at the top is the answer |
| Scopes.GetUnbound | src/compiler/variable_manager.c:88-118 | a name bound nowhere is not found, and nothing changes |
| Scopes.EndsExactly | src/compiler/variable_manager.c:88-118 | a lookup ends exactly if at most one barrier separates the top from the innermost binding |
| Scopes.CapturedOnce | src/compiler/variable_manager.c:88-118 | later lookups find the captured name at the top without another callback |
| Scopes.CaptureEffect | src/compiler/ac_functions.c:174-204 | what a capture changes: a binding at the top, one more capture, the outer variable closed, and nothing else; a variable that has its counted cell keeps it, any other gets a new one, the value inside is new, and a plain function stays one |
| Scopes.ClosureShares | src/compiler/ac_functions.c:174-204 | all that a closure lists for a variable is the counted cell that the variable has |
| Scopes.TwoClosuresShare | src/compiler/ac_functions.c:174-204 | two closures, whatever is compiled in between short of a new declaration, list the same cell for a variable |
| Scopes.ClosureCaptures | src/compiler/ac_functions.c:174-204 | the compiler's callback is one that the lookup can rely on |
| Scopes.PushKeeps | src/compiler/variable_manager.c:43-54 | in a new block every lookup ends as before, and what is found is found one entry deeper |
| Scopes.BlockLeaves | src/compiler/variable_manager.c:70-86 | whatever a block declared and captured, after it every name is bound where it was, behind as many barriers, and lookups end exactly if they did |
| Scopes.CapturedAgain | src/compiler/variable_manager.c:70-118 | a variable captured inside a block is captured again after it |
| Scopes.LookOutcome | src/compiler/variable_manager.c:88-118 | a lookup that ends changes nothing, or captures across the one barrier before the innermost binding |
| Scopes.RunLists | src/compiler/ac_functions.c:174-204 | a body adds to its closure's list one entry for each time it needs a variable that the closure can take in, and none for other names |
| Scopes.RunBeyond | src/compiler/ac_functions.c:206-335 | a body inside an inner closure adds nothing to the outer one's list |
| Scopes.ClosureLists | src/compiler/ac_functions.c:174-335 | for every body that compiles, a variable is listed exactly as often as the text needs it, so at most once exactly if it is needed at most once |
| Scopes.FlatNeeded | src/compiler/ac_functions.c:174-335 | a body without blocks needs no variable twice |
| Scopes.ListedTwice | src/compiler/ac_functions.c:174-204 | used inside a block and again after it, a variable is in the closure's list twice |
| Scopes.VarScopeStack.CompileClosure | src/compiler/ac_functions.c:206-335 | pushing barrier and scope, compiling the body, nested blocks and closures included, and popping both is the run that `ClosureLists` is about; the list has, as often as the text needs it, the counted cell that each variable has afterwards |
| Scopes.ClosureLimits | src/compiler/variable_manager.c:156-166 | inside a new closure a lookup ends exactly for names that are unbound or had no barrier before them |
| Scopes.PutFound | src/compiler/variable_manager.c:182-191 | a name put is found at the top at once |
| Scopes.PutOther | src/compiler/variable_manager.c:182-191 | any other name is bound where it was, to what it was, and its lookups end exactly if they did |
| Scopes.VarScopeStack.Lookup | src/compiler/variable_manager.c:88-118 | the loop with its two nested calls computes the lookup |
| Scopes.VarScopeStack.GetVariable | src/compiler/variable_manager.c:88-118 | wherever a lookup from the top ends: found exactly if bound, the other bindings and barriers in place |
| Scopes.VarScopeStack.ClosureCallback | src/compiler/ac_functions.c:174-204 | the callback's steps compute the capture |
| Heap.SwapDown | src/core/arraylist.c:143-171 | moving the larger child up leaves only that child's place out of order |
| Heap.SiftHeap | src/core/arraylist.c:143-171 | sifting down from a place whose children alone are out of order completes the heap |
| Heap.SiftPermutes | src/core/arraylist.c:143-171 | it permutes, and changes nothing beyond the end |
| Heap.SiftDown | src/core/arraylist.c:143-171 | the loop computes what those lemmas are about |
| Heap.HeapifyHeap | src/core/arraylist.c:173-179 | if the last parent is in order, heapifying makes a heap |
| Heap.ToppedExactly | src/core/arraylist.c:173-179 | it brings a largest entry to the top exactly if one stands elsewhere than below the last parent |
| Heap.ExtractSorts | src/core/arraylist.c:181-193 | from a heap, and even if its last entry is out of order, the extraction makes a sorted list |
| Heap.HeapSort | src/core/arraylist.c:181-193 | heapifying and extracting in place compute the function that the following are about |
| Heap.SortPermutes | src/core/arraylist.c:173-193 | the sort never loses or invents an entry |
| Heap.Sorts | src/core/arraylist.c:173-193 | of every length: a list whose last parent is not below its children comes out sorted |
| Heap.SortedOnly | src/core/arraylist.c:173-193 | of every length: only lists with a largest entry that is not below the last parent come out sorted |
| Heap.SortsExactly | src/core/arraylist.c:173-193 | up to four entries, and for six, that is exactly when |
| Heap.OneParent | src/core/arraylist.c:173-193 | up to three entries both conditions are the same |
| Heap.TwoReversed | src/core/arraylist.c:173-193 | every list of two is reversed |
| Heap.FirstNotNecessary | src/core/arraylist.c:173-193 | a list of four that is sorted although its last parent is below its child |
| Heap.NearHeapSorts | src/core/arraylist.c:173-193 | such a list is sorted if heapifying leaves only its last entry out of order |
| Heap.OthersFail | src/core/arraylist.c:173-193 | of five entries, and of every number beyond six, a list that is not sorted although a largest entry is not below the last parent |
| Heap.ExactLengths | src/core/arraylist.c:173-193 | the condition is exact for all lists of a length exactly up to four and for six |

## Left out

- `rgx_search` and `rgx_collect_matches`: they carry live states from one start position into the next.
- Patterns that end inside an escape, a group or a class and make the parser read past its terminator: the parser model records the overrun and claims nothing after it.
- RegexEngine.Regex.Compile: bytes 0xFF and 0xFE as literals collide with the codes of blank and class states, so patterns with such a leaf (`NoSentinel`) are outside the claim.
- RegexTheorems.Ask: patterns with a literal byte 0xFF or 0xFE, and patterns that make the parser read past its terminator, as above.
- RegexPrinter.RoundTrip: what has no text is not covered: a bracket class without entries, one that starts with a caret it does not negate by, and bytes that are 0 or no bytes; the parser yields none of these.
- Overflow of `listgen`, and the global-match flag, which only the two search functions read.
- The marks of states are a sequence beside the states, not a field in them; lists of states are parameters, not fields of the regex.
- User-written destructors, `__inc` and `__dec`, casts to raw pointers, and overflow of the 16-bit weak counters.
- CountedStores.SafeStore: a field's owner must be held up by something other than the field's old value, or the store would write to freed memory; a store into a new object that nothing has counted yet is not modelled.
- CountedRuntime.Runtime.Teardown: arrays of counted pointers inside objects are laid out as single fields, given up in order.
- CountedValues.AssignStruct: a struct value that a temporary owns, whose copy constructor is skipped, and structs that are fields of objects.
- CountedPrograms.Execute: one reference for each pointer temporary; struct temporaries and the joining of temporaries in the conditional operator are not steps.
- `__egl_print_count`, `__egl_decr_no_free` and closures' counted cells.
- Dispatch: methods are names with types compared by a given relation; bodies, static methods, constructors and interfaces declared in another module in another order are not modelled.
- ShortCircuit: a leaf is any other expression together with its truth test; the releases of temporaries between operands are part of the leaves, and the order in which blocks are laid out is not modelled.
- Ternary, loop, switch and generator code.
- GenericCalls.InstanceType: the table of instances by name and the list of work are not modelled; types that differ only in what a name leaves out would share an instance.
- GenericArena.TypeMemory.SetGenericType: a parameter array is part of its node, so two nodes that share one after an overwrite are not modelled; nothing writes through such an array.
- Interfaces and structs in place: `ett_composite_interface`, `ett_class_set_interfaces` and typedef nodes.
- WorkQueue: what a job does between its steps (optimising, assembling, spawning) is no step; the lock around the pool of file names is not modelled.
- Imports: tokens are given; an `export (` cut off by the end of the file makes no record; an existing but unreadable file is not modelled, nor is the text built after the collecting.
- HashTable: equality functions that are no equivalence or do not respect the hash; key duplication, freeing, iteration, and `hst_remove_val`, which steps through the node it has just freed; NULL values, which `hst_get` cannot tell from a missing key.
- Scopes: deferments, warnings, modules, and callbacks on leaving scopes; the callback's LLVM values are numbers.
- Heap.HeapSort: that the whole sort sorts, which is false; an exact condition for five entries and for more than six.
- LLVM types and passes, lexer, grammar, arguments, messages, files and processes.
