# A verified model of libdres

libdres brings policy goals up to date. A rule file lists targets with their
prerequisites (other targets, fact variables, local variables) and with actions
in a small language; the library compiles the actions to bytecode for a stack
machine, sorts the prerequisites of every target, and on request checks a
goal's dependencies in that order and runs the actions of the outdated ones
inside a transaction on the fact store. Actions may resolve goals themselves.

The project models that and proves it right, in four parts.

**Compiler and virtual machine.** `Words` has the instruction words bit by bit
for 32-bit and 64-bit hosts; `Machine` says what one instruction and one run do;
`Lang` is the rule language with a direct evaluator that knows nothing of
bytecode; `Emit` is the code each construct is compiled to, with real word
offsets. `Correctness` proves that running the code is evaluating the actions:
same facts, same way to end, stack and scopes as before. `Acceptance` says which
actions are refused. The compiler as it
works, with patched branches, is `Compiler`; the machine as it works, with its
stack, scopes and counters changed in place, is `VirtualMachine`; both are proved
against these specifications, and so is a resolve from within an instruction.
`Layout` proves that branches land on instructions and that no run fails a check
on the size of its code. `Facts` says what the instructions that work on facts
do, `Globals` has their loops over tables with holes and the accounting of
references, `FactLaws` and `StoreLaws` what they achieve, `Operators` what comparing
and negating mean, `Scopes` what a local variable reads as. `Unwinding` says which exceptions can be unwound, `Lifetimes` when values are freed
that something still points to, and which actions never run into that.

**Dependency graph and sort.** `Ids` has the packed identifiers with their flags,
`Graph` the recursive closure into reversed adjacency lists, `Sort` the
topological sort with its circular queue. The result: a list of dependencies
exists exactly for acyclic closures and is a topological order of them.

**Updates.** `Protocol` says how a goal is brought up to date; the actions of a run
are a script of facts written, goals resolved and statuses returned, so that a
statement about all scripts is one about all runs that end. `Transactions` proves
all-or-nothing and exact rollback for any nesting, `Statuses` where the statuses come
from, `Reports` that no reported change is lost; `Outdated` proves which targets
an update runs and that doing it again runs none, and `Interference` shows why
that needs the goals resolved on the way to be separate ones; `Resolver` is the
resolver as it works, proved against `Protocol`; `Finalization` compiles and sorts.

**Precompiled rules.** `Precompiled` says how targets are written and read, `RuleFile`
the other sections and the whole file; `RoundTrip` and `FileRoundTrip` prove that
loading gives back what was saved, within the arena computed from the header, and
`SaveStatus` what the status of saving is worth; `Buffers` has the buffers as they
work.

To check the project, use `dafny verify dfyconfig.toml` (Dafny 4.11).

## Where the code is not what one expects

The model follows the code. These are the places where it departs from the
manual (`doc/resolver-overview.txt`) or from what its callers may rely on; each
is a proved statement.

- Integer literals from 0x7fff to 0xfffd are pushed wrong on 64-bit hosts
  (`Words.PushIntRoundTrip`); the evaluator therefore takes a literal for what is
  pushed.
- The mask of the branch decoder covers the sign bit, so that short backward
  branches would be lost; the compiler emits none (`Words.BranchRoundTrip`).
- Operands of different types compare to 0 under every operator, also `!=`, where
  the manual promises an error (`Operators.OppositesNeedOneType`).
- `!` on a string tests its pointer and gives 0 (`Operators.NegationMissesEmpty`).
- A local variable is read without making room on the stack, which raises when it
  happens to be full (`VirtualMachine.Vm.DoGetLocal`); the evaluator keeps track of
  the capacity for that reason.
- A FILTER that raises after it has dropped a fact leaves its global on the stack
  with more facts counted than left; unwinding then runs past the end of its table
  (`FactLaws.FilterTorn`, `Unwinding.SelectionDefined`, `Unwinding.FilterInputs`).
- A REPLACE of facts that are in the store but not selected finds no name for its
  destinations, and frees two globals that are still on the stack, which the
  unwinding frees again (`Unwinding.UnnamedIff`, `Unwinding.ReplaceInputs`,
  `VirtualMachine.Vm.DoReplace`).
- A source that lacks the first match field passes for one that has every match field
  (`Globals.FactSpace.CollectFields`); UPDATE and REPLACE then compare a null pointer as
  soon as they meet a destination that has the field (`Lifetimes.UpdateDefined`,
  `Lifetimes.ReplaceDefined`, `Lifetimes.NullInputs`).
- A full update of facts by themselves frees the values it matches by
  (`Lifetimes.UpdateDefined`, `Lifetimes.SelfInputs`).
- A string read from a field is a pointer into the fact. In `f($g.s, h())` it is freed if
  `h` sets the field or removes the fact (`Lifetimes.ArgumentFreed`,
  `Lifetimes.ArgumentInputs`).
- SET between different numbers of facts raises without releasing either global
  (`VirtualMachine.Vm.DoSet`).
- If the locals of an update cannot be bound, the transaction is rolled back but
  the status is positive, which otherwise means success
  (`Transactions.AllOrNothing`).
- The start indices of the last two loops of `graph_add_leafs` leave targets out;
  the sort comes out right because a node without a list has no edges to take
  (`Graph.DependencyGraph.AddLeafs`, `Sort.SortGraph`).
- The release loop of UPDATE stops half way; freeing the global does the rest
  (`Globals.FactSpace.ReleaseLoop`, `Globals.FactSpace.Update`).
- A target resolved by an action after it has been checked is run twice, and others
  may be left older than it (`Interference.RunsTwice`).
- `dres_save` reports success although the buffers have run out in one of the later
  sections (`SaveStatus.SaveComplete`, `SaveStatus.SaveTruncates`).
- Doubles in initializers are saved as a whole number and thousandths; negative ones
  are saved wrong (`FileRoundTrip.DoubleRoundTrip`).
- A 64-bit host cannot load a file in which code comes after an odd number of list
  entries (`RoundTrip.SaveThenLoad`).

## Conventions

Handlers of methods are an oracle from name, arguments, scope, depth and capacity of
the stack, and facts to a status, a value, a stack capacity and an effect on the
facts. `Wild`, `Stuck` and `Crashed` stand for undefined behaviour of the C program.
Compiled code runs into it exactly where the evaluator says `Bad`, that is:

- an update or replace whose source lacks the first match field, which some
  destination has: a null pointer is compared;
- a full update of a source that is a destination itself, before a destination that
  has the first match field: a freed value is compared;
- a string read from a field that is compared, tested, stored or passed to a method
  after its field has been set anew or its fact removed;
- a FILTER that raises after a drop, and a REPLACE of destinations without a name;
- a handler that crashes.

What the operand fields of the instruction words cannot carry is excluded by the
predicates `Fits…` of `Emit`: strings of 32 KB on 64-bit hosts, 32767 and more
selectors, arguments or locals, numbers of match fields of an update that have bit 7
set, branches over 2^21 words.

## Model

| member | source | states |
|---|---|---|
| `Words.PushWordExact` | include/dres/vm.h:159-161 | the operand and the type tag of a PUSH word come back from it; the operand exactly while it is below 0x10000 on a 32-bit and 0x8000 on a 64-bit host |
| `Words.PushIntRoundTrip` | include/dres/vm.h:163-179 | an emitted integer is pushed as itself for every 32-bit value, except exactly for 0x7fff up to 0xfffd on a 64-bit host, where the word is sign-extended |
| `Words.PushIntLosesLiteral` | src/vm-instr.c:127-131 | a witness of that exception: on a 64-bit host the literal 40000 is pushed as -25536 |
| `Words.PushIntDecodes` | src/vm-instr.c:127-131 | for every 32-bit integer, what the words of VM_INSTR_PUSH_INT decode to and the value PUSH takes out of them, above and below the inline limit |
| `Words.BranchRoundTrip` | include/dres/vm.h:418-455 | a branch keeps its kind always, and its distance exactly for forward distances below 2^21 and backward ones from 2^21 to below 2^22, since the mask of the decoder covers the sign bit |
| `Words.UpdateRoundTrip` | include/dres/vm.h:270-282 | the number of match fields and the partial flag of UPDATE survive together exactly if bit 7 of the number is clear |
| `Words.GetLocalDecodes` | include/dres/vm.h:358-365 | GET LOCAL decodes to the index of the local although its word carries a type byte as well |
| `Words.GetFieldDecodes` | include/dres/vm.h:344-356 | the flag of GET FIELD survives although the word is negative as an int |
| `Operators.StrCmpOrders` | src/vm-instr.c:936-943 | comparing strings gives 0 for equal ones only and is antisymmetric |
| `Operators.OppositesNeedOneType` | src/vm-instr.c:926-966 | == and !=, < and >=, <= and > exclude each other and leave nothing out exactly for operands of one type; operands of different types compare to 0 whatever the operator; == holds for equal contents only |
| `Operators.NegationMissesEmpty` | src/vm-instr.c:953-962 | negation is the opposite of what BRANCH takes for true, except exactly for the empty string, because a string is negated by its pointer |
| `Operators.NumbersOrdered` | src/vm-instr.c:944-952 | every operator on integers and doubles is the relation its name says |
| `Operators.StringsOrdered` | src/vm-instr.c:936-943 | every operator on strings is the one of dictionary order: a proper beginning comes first, and otherwise the first characters that differ decide |
| `Operators.ComparingRaises` | src/vm-instr.c:926-966 | comparing raises exactly for two globals or two unset locals, and gives 0 or 1 otherwise |
| `Operators.ConditionsMean` | src/vm-instr.c:1010-1025 | what a condition takes for true, by type, and that it raises exactly for an unset local |
| `Operators.NegationMeans` | src/vm-instr.c:953-962 | what negation gives, by type, and that it raises exactly for an unset local |
| `Scopes.InnermostDecides` | src/vm-local.c:145-180 | a local reads as the innermost scope that sets it says, however far out that is, and as nothing if none does |
| `Scopes.SettingReads` | src/vm-local.c:117-140 | setting a local is refused out of range and for globals; otherwise it reads as the value set and every other local as before |
| `Scopes.FirstWins` | src/vm-instr.c:156-175 | the named locals of a call are refused exactly if one is out of range or a global; the first binding of a variable wins, and a variable not bound reads as in the scopes around |
| `Scopes.MatchFieldsAre` | src/compiler.c:210-228 | the match fields are the fields of the selectors without an operand, in their order |
| `FactLaws.FilterLaw` | src/vm-instr.c:245-289 | a completed FILTER leaves the order-preserving subsequence of facts that pass all selectors: a missing field fails an equality and passes a negation, and a field of the type of the operand passes exactly if (equal contents) != (negation) |
| `FactLaws.FilterRaises` | src/vm-global.c:354-399 | FILTER raises exactly if some fact that passes all selectors applied before one has its field, with a type other than the operand's |
| `FactLaws.FilterTorn` | src/vm-instr.c:256-278 | a FILTER that raises leaves a global that can still be freed exactly if it clashes before any fact has been dropped: all facts have passed the selectors applied before, and all facts ahead of the clashing one the selector at hand |
| `FactLaws.UpdateLaw` | src/vm-instr.c:350-388 | UPDATE, sources and destinations being apart, succeeds exactly if every source agrees with a destination in all match fields; then each destination is the in-order fold of its matching sources and nothing else changes; if it raises, it is ENOENT, and exactly the sources before the first without a partner have been assigned |
| `FactLaws.FoldKeepsMatch` | src/vm-instr.c:350-388 | no assignment of an UPDATE changes the match fields of a destination, so that matching never changes on the way |
| `FactLaws.ReplaceLaw` | src/vm-instr.c:464-527 | after REPLACE by fresh sources every selected destination has been merged with a matching source or removed from the store, and every source inserted under the name of the destinations or merged into one, although the scan bound falls while holes remain |
| `FactLaws.ReplaceKeys` | src/vm-instr.c:464-527 | the match-field tuples of the facts that result from a REPLACE are exactly those of the sources |
| `FactLaws.ScanLaw` | src/vm-instr.c:471-485 | one source scanned over the destinations with holes: each is untouched or merged with a source that matched it, and a hit is one that landed |
| `FactLaws.SetCopies` | src/vm-instr.c:590-598 | SET to as many facts gives every destination the fields its source had before, under its own name, unless the source has been a destination by then; other facts do not change |
| `FactLaws.SetTraces` | src/vm-instr.c:590-598 | the general case, sources among the destinations included: every fact ends with the fields that the fact its value is traced back to had before |
| `FactLaws.SetInserts` | src/vm-instr.c:581-587 | SET to a name adds a new fact of that name for every source, in order, and changes no fact |
| `FactLaws.SetLaw` | src/vm-instr.c:574-604 | which of its three things SET does: naming a single nameless fact, inserting copies under a name, or copying into as many facts; and EINVAL, with nothing changed, for different numbers |
| `FactLaws.GetFieldLaw` | src/vm-global.c:406-435 | GET FIELD on a single fact gives the contents of the field with its type, a string as the fact's own; it raises ENOENT for no fact or no field and EINVAL for several facts |
| `FactLaws.SetFieldLaw` | src/vm-global.c:325-349 | after SET FIELD the field of the single fact has the contents of the value and reads back as them, every other field and fact is as before; it raises for no fact, several facts, and values that are neither number nor string |
| `StoreLaws.LookupLaw` | src/vm-global.c:40-69 | a lookup gives exactly the facts of the name that are in the store, each once and in the order of the store, and the bare name exactly if there are none |
| `StoreLaws.WritingFrees` | src/vm-global.c:325-349 | which values are freed when a fact gets other fields: the ones that differ if fields are set, all it had if it is cleared first; nothing else changes |
| `StoreLaws.ReplaceNamed` | src/vm-instr.c:435-449 | the name that inserted facts get: the first 255 characters of the name of the first destination, or of the bare name; none exactly if there is neither |
| `StoreLaws.ReplaceOrder` | src/vm-instr.c:491-527 | after REPLACE the store is what it has kept, followed by the sources inserted, both in the order they had |
| `StoreLaws.ScanReaches` | src/vm-instr.c:471-485 | exactly which destinations a source is merged into: those that match and that the scan reaches, whose end comes one slot nearer with every merge |
| `StoreLaws.HalfMerged` | src/vm-instr.c:471-485 | so a source that matches all of n destinations is merged into the first half of them only, rounded up |
| `Globals.FactSpace.Free` | src/vm-global.c:108-124 | freeing a global releases the first nfact references it still holds once each, holes or not; it runs past the end of the table exactly if nfact counts more references than are left |
| `Globals.FactSpace.FactUpdate` | src/vm-global.c:251-275 | a partial update writes only fields of the source that differ, frees their values and no other, and the destination ends as the source laid over it |
| `Globals.FactSpace.FactCopy` | src/vm-global.c:216-245 | a full copy makes the fields of the destination those of the source, also if they are one fact, and frees every value the destination had |
| `Globals.FactSpace.ApplyTest` | src/vm-instr.c:256-278 | one selector: the slots left are those it keeps, in order, the drops are counted, and each fact dropped is released once, also when it raises, which leaves fewer facts than before exactly if it has dropped one |
| `Globals.FactSpace.Pack` | src/vm-instr.c:280-287 | the facts left are packed to the front in order, and nfact counts them |
| `Globals.FactSpace.CollectFields` | src/vm-global.c:441-451 | 0, or minus the index of the first match field a fact lacks, so that a missing first field looks like success |
| `Globals.FactSpace.FindFrom` | src/vm-global.c:524-555 | the first matching slot from a given one on, below nfact, or -1 if there is none |
| `Globals.FactSpace.UpdateMatching` | src/vm-instr.c:355-369 | the find_first/find_next loop updates every destination that matches the source, in order, and tells whether there was one |
| `Globals.FactSpace.ConsumeSources` | src/vm-instr.c:350-377 | the loop over the sources: the facts end as specified and each source consumed is released once |
| `Globals.FactSpace.ReleaseLoop` | src/vm-instr.c:378-382 | the release loop of UPDATE only gets through half of the destinations, because its bound falls while its index rises; those it releases once |
| `Globals.FactSpace.Update` | src/vm-instr.c:346-396 | UPDATE as a whole: the facts as specified, and every reference of both globals released exactly once, whether it succeeds or fails |
| `Globals.FactSpace.MergeMatching` | src/vm-instr.c:471-485 | the scan of REPLACE over destinations with holes under a falling bound, slot by slot as specified, each merged reference released once |
| `Globals.FactSpace.RemoveLeftovers` | src/vm-instr.c:495-506 | exactly the destinations left leave the store, each released once |
| `Globals.FactSpace.Replace` | src/vm-instr.c:462-542 | REPLACE as a whole: the facts as specified; every reference of both globals is released once or handed to the store |
| `Correctness.TargetCorrect` | src/compiler.c:73-601 | semantic preservation: vm_exec of a compiled target ends as the direct evaluator says (completion at HALT, exception, silent failure, or undefined behaviour exactly where the evaluator says so), with its facts and stack capacity, and with the stack and the scope chain as on entry; no other run leaves the chunk or goes backwards |
| `Correctness.StmtsRun` | src/compiler.c:77-171 | a list of statements, in any surrounding code: stack-balanced, same facts, same way to end, pc at the end of its code, ninstr and nsize still large enough |
| `Correctness.IfRun` | src/compiler.c:285-322 | if/else: the two patched branches go forward to where they should, and exactly the right branch runs |
| `Correctness.StoreRun` | src/compiler.c:174-248 | an lvalue stores by SET, SET FIELD, UPDATE or REPLACE what the evaluator stores, from operands in the order the compiler pushes them; a REPLACE of destinations without a name is undefined behaviour |
| `Correctness.ExprRun` | src/compiler.c:386-608 | an expression leaves its value on top of an unchanged stack, or ends as its evaluation does |
| `Correctness.RelRun` | src/compiler.c:578-601 | relational operators evaluate the second operand first and compare in the right order |
| `Correctness.ShortRun` | src/compiler.c:488-559 | && and or skip the second operand when the first decides, and leave 0 or 1 through both patched branches |
| `Correctness.CallCodeRun` | src/compiler.c:341-383 | a call evaluates its arguments in order, binds its locals in a scope of its own, calls the handler once with both, and leaves the scope |
| `Correctness.PushLocalsRun` | src/vm-instr.c:156-175 | PUSH LOCALS binds what was pushed, the first binding of a name winning, or raises with the stack and the scope unwound |
| `Correctness.FilteredRun` | src/compiler.c:435-485 | a global with selectors: lookup, pushed tests, and FILTER, whose exception is undefined behaviour exactly after a drop |
| `Correctness.BindingsRun` | src/compiler.c:363-368 | the values of named locals are evaluated in the scope of the caller |
| `Unwinding.SelectionDefined` | include/dres/vm.h:624-633 | selecting facts raises an exception that can be unwound exactly if a type clash comes before any drop; every other clash is undefined behaviour; without one exactly the facts passing all selectors are left |
| `Unwinding.UnnamedIff` | src/vm-instr.c:434-447 | a REPLACE cannot tell the name of its destinations exactly if the store has facts of the name but the selectors pass none of them |
| `Unwinding.ReplacingDefined` | src/vm-instr.c:398-447 | replacing by fresh sources with all match fields is undefined exactly in that case: the two globals are freed where they are on the stack and again by the unwinding |
| `Unwinding.FilterInputs` | src/vm-instr.c:256-278 | inputs: `$g[a:5]` on a fact with a number and then one with a string in the field corrupts memory, the other way round it raises EINVAL |
| `Unwinding.ReplaceInputs` | src/vm-instr.c:434-447 | inputs: `$g[a:5] *= $y` is undefined if the store has a fact of that name with another number, and completes if it has none |
| `Lifetimes.UpdateDefined` | src/vm-instr.c:350-377 | UPDATE, whatever facts are sources and destinations at once, is undefined exactly if its first source that cannot be assigned lacks the first match field while some destination has it, or is fully copied onto itself ahead of a destination that has it; it succeeds exactly if every source has all match fields, matches a destination and does neither; all decided by the facts before it, because match fields never change |
| `Lifetimes.ReplaceDefined` | src/vm-instr.c:464-487 | REPLACE, whatever facts are sources and destinations at once, is undefined exactly if its first source without all match fields lacks the first one and a destination that the sources before it have left has that field; otherwise it raises, with ENOENT, exactly if some source has the first match field and lacks another |
| `Lifetimes.NullInputs` | src/vm-global.c:441-451 | compiled assignments at an input: updating or replacing `$g[a]` by a fact without `a` is undefined exactly if the fact of `$g` has `a` |
| `Lifetimes.SelfInputs` | src/vm-global.c:216-245 | and updating two facts by themselves is undefined exactly if the assignment is a full one |
| `Lifetimes.ScopeOwned` | src/vm-instr.c:156-175 | the locals a method is called with never hold a string of a fact |
| `Lifetimes.ComparedGone` | src/vm-instr.c:936-943 | a comparison whose operands come to values is undefined exactly if both are strings and one of them has been freed since it was read, by setting its field anew or removing its fact |
| `Lifetimes.ArgumentFreed` | src/vm-instr.c:718-722 | a string field read as an argument, and a method called before the call it is an argument of: the compiled statement is undefined exactly if that method has removed the fact or freed the field |
| `Lifetimes.ArgumentInputs` | src/vm-global.c:322-348 | the same at an input: undefined exactly if the method sets the field to another string, because a field that matches is left alone |
| `Lifetimes.ExprSound` | src/vm-global.c:402-434 | an expression without selectors, evaluated with handlers that free no field and remove no fact, is always defined, and its value is not freed |
| `Lifetimes.NeverStuck` | src/compiler.c:73-601 | the compiled code of actions without selectors never runs into undefined behaviour if the handlers they call free no field and remove no fact |
| `Layout.TargetLaid` | src/compiler.c:285-322 | the code of a target consists of whole instructions, and every branch word at the beginning of one goes forward to the beginning of another |
| `Layout.NeverTrips` | src/vm-instr.c:108-114 | no state reached by running a target, however it ends, fails one of the checks on the size of its code, although branches leave the counters alone |
| `Layout.LaidShort` | src/compiler.c:488-559 | the two patched branches of && and or land on the push that follows the result they skip, and the last one at the end |
| `Acceptance.StmtsAllowed` | src/compiler.c:176-250 | actions are acceptable exactly if every single use in them is, wherever it occurs: locals without selectors or fields, globals read without match fields, known methods, stores to globals only, partial ones only by match fields, and by match fields only as a whole |
| `Compiler.CompileTarget` | src/compiler.c:77-108 | compiling succeeds exactly for acceptable actions; a target without actions gets no chunk, any other the specified code followed by HALT |
| `Compiler.CompileStmts` | src/compiler.c:77-171 | a list of statements compiles exactly if it is acceptable, and its code is appended to what was there |
| `Compiler.CompileIf` | src/compiler.c:285-322 | emitting with empty branches and patching them afterwards gives the specified code |
| `Compiler.CompileLvalue` | src/compiler.c:174-248 | which assignment is emitted for which lvalue, and which lvalues are refused |
| `Compiler.CompileShortCircuit` | src/compiler.c:488-559 | the code of && and or after both branches have been patched |
| `Compiler.CompileCall` | src/compiler.c:341-383 | a call of an unknown method is refused; the code has arguments, locals, method and the number of arguments in the order the machine takes them off the stack |
| `Compiler.LookupMethod` | src/vm-method.c:123-148 | the identifier of the first method of a name, or -1 |
| `VirtualMachine.Stack.Cleanup` | src/vm-stack.c:143-152 | that many entries are gone and no other, and every reference of the globals among them is released once |
| `VirtualMachine.Vm.GetLocal` | src/vm-local.c:145-180 | the innermost scope that sets the variable decides; unset reads as nil |
| `VirtualMachine.Vm.PushLocals` | src/vm-instr.c:156-175 | a new scope filled from pairs on the stack; what raises leaves the scope for the unwinding, and a scope never gets to hold a global |
| `VirtualMachine.Vm.DoFilter` | src/vm-instr.c:234-297 | FILTER consumes three entries a selector, filters the global where it sits on the stack, and releases each dropped fact once; when it raises, the global it leaves cannot be freed exactly if the specified outcome is undefined |
| `VirtualMachine.Vm.DoUpdate` | src/vm-instr.c:308-396 | UPDATE as specified, with both globals released once however it ends |
| `VirtualMachine.Vm.DoReplace` | src/vm-instr.c:406-542 | REPLACE as specified, with every reference released once or handed to the store; without a name or match fields the two globals are released while the stack still holds them, and the specified outcome is undefined |
| `VirtualMachine.Vm.DoSet` | src/vm-instr.c:553-611 | SET as specified; both globals are released, except that neither is when the numbers of facts differ |
| `VirtualMachine.Vm.DoSetField` | src/vm-instr.c:617-660 | SET FIELD as specified; the global is released, except when the value has a type that facts do not have |
| `VirtualMachine.Vm.DoGetField` | src/vm-instr.c:684-730 | GET FIELD as specified, with the global released however it ends |
| `VirtualMachine.Vm.DoGetLocal` | src/vm-instr.c:736-757 | GET LOCAL, which raises on a full stack because it makes no room |
| `VirtualMachine.Vm.CallMethod` | src/vm-method.c:191-213 | the handler gets the arguments, which are gone afterwards with the globals among them released, and its value is pushed exactly if it succeeded |
| `VirtualMachine.Vm.DoCall` | src/vm-instr.c:865-897 | CALL raises on a negative status and fails silently on 0; a name that is no name raises |
| `VirtualMachine.Vm.DoCmp` | src/vm-instr.c:907-980 | CMP as specified, with the globals it compares released however it ends |
| `VirtualMachine.Vm.DoBranch` | src/vm-instr.c:990-1076 | BRANCH leaves the counters alone, and releases a global it tests |
| `VirtualMachine.Vm.Dispatch` | src/vm-instr.c:75-90 | every instruction does what is specified for its word |
| `VirtualMachine.Vm.Run` | src/vm-instr.c:57-94 | the loop ends as the specified run ends, and keeps the ledger: what has been released and what the stack still holds is never more than globals have taken |
| `VirtualMachine.Vm.Cleanup` | include/dres/vm.h:624-633 | VM_TRY cuts the stack and the scopes back to its mark, and releases every reference of the globals above it once |
| `VirtualMachine.Vm.Execute` | src/vm.c:73-87 | vm_exec returns the status and leaves the memory of the specified run, with the catch chain as it was; over the run and its unwinding no reference is released more often than it has been taken |
| `VirtualMachine.Vm.RunChunks` | src/dres.c:541-559 | the chunks of given targets, run one after the other up to the first that does not succeed, change the facts as the direct evaluation of their actions does; a target without code succeeds |
| `VirtualMachine.Vm.Reenter` | src/builtin.c:151-171 | running chunks from within an instruction changes the facts and the capacity of the stack; chunk, pc, ninstr, nsize, info, stack, scope and catch chain are as before |
| `VirtualMachine.Vm.BuiltinDres` | src/builtin.c:131-179 | closes the induction over nested resolves: on a machine whose calls of `dres` are answered for nesting up to d, the builtin gives the answer of the oracle for nesting up to d + 1, for the goal it is given, whatever the resolver decides to run for it, and the interrupted chunk can go on |
| `Lang.DresResolves` | src/builtin.c:146-179 | `dres` answers for the goal it is given as a string, for the default goal without arguments, and with -EINVAL, running nothing, for anything else; the answer is what running the planned actions comes to |
| `Ids.PackRoundTrip` | include/dres/dres.h:70-87 | identifiers survive packing into a word, and none is DRES_ID_NONE |
| `Ids.PackFields` | include/dres/dres.h:70-87 | type, index and the two flags of a packed identifier do not disturb each other |
| `Ids.FlagMacros` | include/dres/dres.h:74-87 | the macros that set or clear a flag do that and nothing else, whatever the flags were |
| `Ids.NodeMacro` | src/graph.c:350-360 | the node of an identifier depends on its kind and index only, so that a tagged identifier finds the same node |
| `Graph.DependencyGraph.BuildPrereq` | src/graph.c:126-161 | every edge added belongs to the closure, and the prerequisites of its source are in the graph as well; it ends on cyclic rules since the pairs not yet in the graph get fewer |
| `Graph.ClosureReached` | src/graph.c:71-76 | a graph extended in this way from nothing holds the whole closure of the goal |
| `Graph.DependencyGraph.AddLeafs` | src/graph.c:226-284 | marking leaves, with the start indices of the code, adds no edge and only nodes that have edges |
| `Graph.BuildGraph` | src/graph.c:47-97 | fails exactly on an undefined goal, and otherwise has exactly the edges from prerequisites to reachable targets, each once |
| `Sort.Ring.Pop` | src/graph.c:335-348 | popping gives the oldest item left; head and tail agree only when nothing is left, unless n items were pushed and none popped |
| `Sort.Start` | src/graph.c:385-456 | after the first loops the counters are the in-degrees and the queue holds the nodes without prerequisites |
| `Sort.NotFull` | src/graph.c:335-348 | fewer than n nodes are in the queue when nothing has been popped |
| `Sort.TakeEdge` | src/graph.c:480-503 | taking an edge keeps the invariant of the algorithm; a node joins the queue when, and only when, its last edge goes |
| `Sort.TakeEdges` | src/graph.c:480-503 | the inner loop takes every edge out of the popped node, tagging identifiers before they are pushed |
| `Sort.Exhausted` | src/graph.c:506-526 | when the queue is empty, no edge is left exactly if the graph has no cycle |
| `Sort.SortGraph` | src/graph.c:290-538 | fails exactly if the graph has a cycle; otherwise L holds every node once, prerequisites first, and then only the terminator |
| `Sort.SameCycles` | src/graph.c:506-526 | the cycles of the graph are those of the rules |
| `Sort.GoalLast` | src/graph.c:78-85 | a goal with prerequisites is the last node of its list; a goal without any has an empty list |
| `Sort.Dependencies` | src/dres.c:449-462 | the dependencies of a target exist exactly if it is defined and needs no node that needs itself, and then are a topological order of its closure |
| `Sort.Finalize` | src/dres.c:439-470 | finalizing succeeds exactly if every target is defined and has an acyclic closure |
| `Transactions.AllOrNothing` | src/dres.c:509-566 | over any nesting of resolves: one transaction opened and closed; success exactly if every action of the nest succeeded, with the facts they have written; otherwise facts and stamps as before; if the locals cannot be bound nothing runs, everything is undone, and the status is a positive error number; -EINVAL and nothing else exactly if no target has the name or the first that has is undefined |
| `Transactions.GoalIs` | src/target.c:86-100 | the goal of an update is the first target of the name, or the first of all without a name, if it is defined |
| `Transactions.ChangesKept` | src/variables.c:142-201 | a reported change gives its variable a stamp newer than all before, which a rollback leaves |
| `Transactions.UpdateWithin` | src/builtin.c:131-179 | a nested update opens and closes no transaction, keeps the pre-transaction stamp of every target, and succeeds only if every action in it did |
| `Transactions.CheckWithin` | src/target.c:199-256 | checking one target, however its actions nest, keeps the transaction and the stamps before it, and succeeds exactly if every action in it did |
| `Transactions.BindReads` | src/dres.c:596-647 | the locals of an update can be bound exactly if every argument has no tag or one of s, i, d, and names a variable; a variable then reads as what the last argument for it gives: the string, the integer or the double, by tag |
| `Transactions.BindRefuses` | src/dres.c:611-640 | the first argument that cannot be bound decides the error: EINVAL for an unknown tag, ENOENT for an unknown name |
| `Transactions.RestoreBases` | src/variables.c:232-254 | a rollback restores the stamp of every target restamped any number of times |
| `Transactions.SettledAfter` | src/dres.c:491-571 | between updates no transaction is open and no stamp is ahead of the global one |
| `Transactions.AlwaysSettled` | src/dres.c:491-571 | no transaction is open, no stamp is ahead, and snapshots and transactions balance, after any series of updates with any changes between them, of rules parsed or loaded |
| `Statuses.StatusesTold` | src/action.c:139-153 | over any nesting: targets without actions are recorded with success; the statuses of the others are the ones their actions return, in order, followed after a failure to resolve a goal only by that failure; a failed update ends with the status of the last target run; so an update whose targets with actions all succeed is a success |
| `Reports.ReportsKept` | src/variables.c:142-201 | over any nesting, however the update ends: a fact variable that was reported before or by the actions is restamped or waits for the next resolve, and no other is |
| `Outdated.BringsUpToDate` | src/dres.c:541-559 | if the goals that actions resolve share no target with the graph of the goal, and no variable of that graph is reported before one is resolved, a successful update has run exactly the targets of the closure that are unconditional, or need, directly or not, one that is, or whose prerequisite has been reported or has a newer stamp; each once, prerequisites first; the goal has the newest stamp, and no target of the graph is older than what it needs |
| `Outdated.ChangesRun` | src/factvar.c:121-135 | a fact variable that was reported, or stamped after a target that needs it, makes that target run; a target that needs only fact variables of which this holds for none is not run |
| `Outdated.BehindOpened` | src/target.c:211-241 | in the state an update opens with, a target is found in need of an update exactly if it has no prerequisites, or a fact variable it needs has been reported or stamped after it, or another variable or target it needs has a newer stamp |
| `Outdated.RunsGoal` | src/dres.c:536-540 | a goal without prerequisites is run whatever the stamps say, and once, and has the newest stamp after a success |
| `Interference.RunsTwice` | src/target.c:199-256 | why the condition is needed: a finalized rule file and actions of which one resolves a target already checked; the update succeeds, but it runs that target twice and leaves another older than what it needs |
| `Outdated.RunsOutdated` | src/dres.c:545-555 | also when it fails, the targets run are a prefix of the outdated ones in the order of the sort |
| `Outdated.StaleIff` | src/target.c:211-241 | checked in sorted order, a target is found in need of an update exactly if it was outdated at the beginning |
| `Outdated.CheckAllCalm` | src/dres.c:545-555 | the loop over the dependencies runs a prefix of the outdated targets and, if it gets to the end, all of them |
| `Outdated.AsideUpdate` | src/builtin.c:131-179 | resolving a goal that shares no target with a graph, with everything that resolves in turn, runs and stamps nothing in the graph |
| `Outdated.Idle` | src/target.c:211-253 | if none is older, none is unconditional and no change is reported, an update runs nothing and restamps only the goal |
| `Outdated.Quiescent` | src/dres.c:491-571 | resolving a goal again right after a success runs nothing, whatever the actions would do |
| `Outdated.LinkedListed` | src/dres.c:545-555 | a goal with prerequisites is among its own dependencies, so that the loop checks a target at least |
| `Resolver.Resolver.TouchStamp` | src/dres.c:663-685 | the first stamp of a transaction saves the one before it |
| `Resolver.Resolver.CheckStore` | src/variables.c:142-201 | every reported variable is restamped and the reports are gone |
| `Resolver.Resolver.TxRollback` | src/variables.c:232-254 | the facts of the snapshot are back, and the stamps of targets and dres variables with them |
| `Resolver.Resolver.PushLocals` | src/dres.c:596-647 | a scope with the values of the arguments is left exactly if they can be bound, and none otherwise |
| `Resolver.Resolver.NeedsUpdate` | src/target.c:211-241 | the loop finds a target in need of an update exactly if it has no prerequisites or is older than one of them |
| `Resolver.Resolver.RunGoal` | src/dres.c:541-555 | the loop over the dependencies checks targets in their order and is left at the first status that is not positive; a goal without prerequisites is run |
| `Resolver.Resolver.Resolve` | src/dres.c:491-571 | dres_update_goal does what is specified, and the scope of the locals is gone on every way out |
| `Finalization.FinalizeActions` | src/dres.c:414-432 | all actions compile exactly if those of every target are acceptable, and then every chunk is the code of its target |
| `Finalization.Prepare` | src/dres.c:476-485 | finalizing succeeds exactly if all actions compile and all targets are defined and acyclic; the result has the specified code and dependencies to which the theorems about updates apply |
| `RoundTrip.SaveThenLoad` | src/target.c:262-413 | if the buffer meets no error, loading gives back every target: identifier, name, prerequisites (an empty list as none), code words and dependencies, whatever follows in the file; a 64-bit host exits instead exactly if some code comes after an odd number of list entries |
| `RoundTrip.ArenaSuffices` | src/compiler.c:814-827 | the share of the arena that the targets count in the header covers every allocation of loading them, although prerequisites are counted as targets and their lists not at all |
| `RoundTrip.ArenaCovered` | src/target.c:281-284 | prerequisites counted as targets make room for their lists |
| `RoundTrip.AlignedIff` | src/target.c:367-373 | the alignment check before a chunk fails exactly after an odd number of list entries on a 64-bit host |
| `FileRoundTrip.FileRoundTrip` | src/compiler.c:779-892 | the whole file: if no error was met up to the last section, loading gives back targets, fact variables, dres variables, initializers and methods, doubles as they come back; it never fails for want of room in the arena worked out from the one header, and a 64-bit host exits exactly if some code comes after an odd number of list entries |
| `FileRoundTrip.CompleteIff` | src/compiler.c:632-700 | a file whose targets were saved loads back as the rules exactly if the buffer met no error up to the last section, although loading initializers and methods ignores errors in reading, and whatever errno is when a read falls short: 0 is no error, but the builtin methods come last |
| `FileRoundTrip.TruncatedFails` | src/compiler.c:898-974 | any proper beginning of the later sections fails to load or loads as something else, whatever errno is when a read falls short |
| `FileRoundTrip.RestReads` | src/factvar.c:192-210 | reading the later sections back gives what was written, and takes from the arena exactly what the header counts |
| `FileRoundTrip.DoubleRoundTrip` | src/compiler.c:1202-1228 | a double comes back exactly if it is not negative and a whole number of thousandths; every negative one comes back wrong |
| `SaveStatus.FitsIff` | src/compiler.c:1036-1099 | saving the targets, or everything, meets no error exactly if the bytes worked out from the rules fit both buffers |
| `SaveStatus.SaveSucceeds` | src/compiler.c:628-640 | with the buffers doubled on failure, the status is success exactly if the targets fit in a megabyte, and ENOMEM otherwise |
| `SaveStatus.SaveComplete` | src/compiler.c:641-700 | a save that reports success has left a complete file exactly if the later sections fit as well in the size that was large enough for the targets, whatever errno is when it is loaded |
| `SaveStatus.SaveTruncates` | src/compiler.c:641-652 | an input: a rule file with 3000 fact variables, whose names are distinct and have 24 characters, is saved with success, and the file does not load back |
| `Buffers.SaveBuffer.WriteStr` | src/compiler.c:1062-1099 | strings are aligned and padded; none and the empty string share offset 0 |
| `Buffers.SaveBuffer.WriteTargets` | src/target.c:262-320 | saving all targets, with the counts of the header |
| `Buffers.SaveBuffer.WriteInits` | src/compiler.c:707-748 | saving initializers, with a switch over the types of values and the counts of the header; of a double that does not fit, neither number is written |
| `Buffers.SaveRules` | src/compiler.c:615-700 | dres_save with its retries: status and file are the specified ones |
| `Buffers.LoadBuffer.ReadTargets` | src/target.c:326-413 | loading all targets |
| `Buffers.LoadBuffer.ReadInits` | src/compiler.c:898-946 | loading initializers: an allocation that fails ends it, an error in reading does not |
| `Buffers.LoadRules` | src/compiler.c:779-850 | loading all sections: the rules, the error, or the end of the process, as specified |

## Left out

- The lexer and the parser: the model begins with the syntax tree.
- Method handlers other than `dres`: they are an oracle. `resolve` differs from `dres` in name only.
- `VirtualMachine.Vm.BuiltinDres`: which targets a nested resolve runs is given by a plan; the stamps that decide it are in `Protocol`, whose scripts say what actions do. That the script of a run is what the compiled actions do is not stated.
- `VirtualMachine.Vm.Reenter`: the goal and the transaction around the chunks are not in it; `VirtualMachine.Vm.BuiltinDres` has the goal, `Resolver.Resolver.Resolve` the transaction.
- `VirtualMachine.Vm.RunChunks`: the stamp checks between the chunks are in `Resolver.Resolver.CheckTarget`.
- Byte order, file descriptors and the magic number: the file is a header, a table of strings, and a sequence of numbers and blocks.
- Allocation failures, apart from the full buffer and the full stack.
- `FileRoundTrip.DoubleRoundTrip`: doubles are real numbers, and the whole part and the thousandths are taken to fit 32 bits.
- `FileRoundTrip.FileRoundTrip`: initial values of a type that is none of the four written are taken not to carry the tag of one.
- `VirtualMachine.Vm.DoSet`: the leak of references on differing dimensions is stated, but nothing is said about when the process would run out of memory.
- `VirtualMachine.Vm.Execute`: that a reference is released at most as often as taken is proved, not that it is released at last: globals used as the value of a selector, as the name of a method, or left by an instruction that leaks are never freed.
- Globals on the stack are values; the table of a global exists from the instruction that works on it in place to its end. Two entries of the stack never share a table in the code either. That freeing a table twice is undefined even if it holds no reference is taken into the specification of REPLACE, not derived.
- `Words.BranchRoundTrip`: shifting a negative or large `int` is taken to wrap as two's complement does.
- `Correctness.TargetCorrect`: a fact removed from the store is taken to be gone, also if a global further down the stack still holds it. What a handler frees is what its world says it frees. Names of fields and methods are literals in compiled code, and are not checked for having been freed when an instruction takes them off the stack; nor are the operands of selectors, which are literals or locals (`Lifetimes.ScopeOwned`), or the strings a caller of an update passes for locals.
- Value types of the fact store other than integers, doubles and strings, and the order in which the store lists facts of one name beyond the order of insertion. Doubles are real numbers: no NaN, no rounding.
- A fact inserted twice: the store may hold a reference twice in the model, and removing it removes both.
- CREATE, DEBUG and GET of a named variable, which the compiler never emits.
- What a rollback reports as changed: the model keeps the changes reported before it; every theorem holds for any set of reported changes.
- `Outdated.BringsUpToDate`: for actions that resolve separate goals. Where a goal resolved on the way shares a target, `Interference.RunsTwice` shows that exactness can fail; nothing is said of the cases in which it happens to hold.
- `Transactions.AllOrNothing`: unbounded stamps and transaction numbers; the code's wrap after 2^31 updates.
- `Finalization.Prepare`: compiling again after a failure, and the fallback handler that makes up for actions that do not compile.
- Adding targets and variables while parsing, and looking them up by name there.
- Text output, dumping and logging.
