# Verified core of the KCL toolchain

This project models the parts of KCL (the configuration language under `kclvm/`) whose behaviour is
hardest to see from any single function, and proves what the language relies on:

- **Lazy evaluation** (`lazy_*.dfy`). Statements may stand in any order. A read of a name without a
  value backtracks through the name's setters from last to first, under a level counter, and caches
  the result. `LazyMachine` is that state machine as total functions, `LazyEvaluator.Evaluator` the
  object whose fields the methods update in place, each method proved to be one function of the
  machine. `LazySpec` is the simple meaning: one value per name, in dependency order, as the
  text-order fold of its setters. `LazyTheorems` and `LazyOrder` relate the two over whole runs;
  `LazyReach` and `LazyText` tell before the run what it caches and with which variables it ends;
  `LazyBranch`, `LazyNested` and `LazySelected` say what backtracking executes inside `if` statements and
  what it yields there; `LazyStart` and `LazyPrograms` what a run starts with and what single loads,
  expressions and small programs give, for all values.
- **Schema setters** (`schema_setters.dfy`): how parent, own and mixin setters of an attribute line up.
- **Configuration union** (`merge_*.dfy`, `union*.dfy`). `Union` is the code's entry-by-entry merge
  with its operations, conflict flag and failures; `MergeSpec` is an order-aware merge of trees,
  `MergeAgree` the condition under which no conflict is raised, and `MergePaths` both of them path by
  path. `UnionOperations` says what every kind of entry leaves under its key. `Floats` is the conversion of
  integers to 64-bit floats, with its rounding.
- **Comprehensions** (`comprehension*.dfy`): nested generators that share one scope and one collection.
- **Lexer and printer** (`lexer*.dfy`, `printer*.dfy`): the cursor-based lexer, the expression printer,
  what each kind of text lexes to, where the printer puts spaces, and the round trip between the two, down
  to the values of numbers and strings.
- **Cache info file** (`cache_*.dfy`): lock, read, write a temporary file, rename, unlock, for any
  number of calls whose steps interleave in any way and which may stop at any point.
- **Attribute paths** (`attr_*.dfy`): the target printer and the query path parser.

`dafny verify dfyconfig.toml` checks everything.

## How to read the lazy core

`State` carries three logs the program does not keep: `visits` (every statement execution with its
backtracking depth), `readLog` (every name load with its reader) and `forced` (how many setters the main
walk had done when backtracking first entered a name). They are written and never read by the machine,
and exist so that statements about whole runs can be made. `Room` is the termination measure: the sum
over names of setter count minus level, cut at zero. Every function of the machine carries it, so the
evaluation is total on every program, cyclic ones included.

`usize` subtraction at `kclvm/evaluator/src/lazy.rs:356` is guarded by `index >= n` at line 357. The model
follows a release build, where a level above the setter count wraps around and the default is returned; a
debug build stops there with an overflow.

## Where the code and the expectation part

- **Variables of names with several setters.** In `x = 1; y = x; x += 1` the read finishes `x` at 2, and the
  main walk then adds 1 again, so the variable of `x`, which is what a run exports, ends at 3 while `y` and the
  cache have 2 (`LazyExample.MultiSetterVariableFails`). `LazyTheorems.FinalVariable` says what the variable
  holds in every run, and statements and values decide it before the run: if the first statement that leads to a
  read of the name stands after `j` of its `n` setters, the setters `j..n` are applied twice
  (`LazyText.FinalVariableText`). So, when applying them again shows, the variable is right if and only if that
  first statement, if there is one, does not stand between the name's first and last setter
  (`LazyText.FinalVariableRight`). A statement leads to a name through any chain of reads that `and`, `or` and
  conditionals let happen, except through statements that a later assignment of the same name makes irrelevant.
  Without `and`, `or` and conditionals the text alone decides (`LazyText.TextDecides`).
- **`elif`.** The parser makes an `elif` an `if` in the else part, and backtracking applies the kind of the
  outermost branch to every `if` inside it. So a setter in the body of an `elif` is never run by backtracking
  (`LazyNested.ElifNeverRuns`): in `y = x` before `if False: x = 1` and `elif True: x = 2` the reader `y`
  gets no value and `x` ends at 2 (`LazyNested.ElifReadFails`). `LazyNested.NestedSetterRunsToStop` says for every
  nesting exactly when the setter's statement runs.
- **String literals.** The comment at `kclvm/lexer/src/kcl_cursor.rs:62-64` says that newlines are not
  checked, but the loop does stop at them, only behind a plain character. The printer escapes quotes and no
  backslashes. So a short literal comes back as one closed token if and only if an even number of backslashes
  stands before every quote and at the end, and every CR, LF or NUL follows a quote or a pair of backslashes or
  comes first (`LexerStrings.ShortLiteral`); a long one if and only if no odd run of backslashes stands at its end
  or before a quote at its end (`LexerStrings.LongLiteral`). One backslash fails in both
  (`LexerStrings.BackslashFails`).
- **Numbers with a leading zero.** The comment at `kclvm/lexer/src/number.rs:24` allows octal numbers with a
  leading zero, but the digit behind the zero is taken for a part of the prefix. So `07` is an empty octal literal,
  which the parser rejects, and `077` is not (`LexerNumbers.PrefixedLiteral`).
- **Ints and floats in union.** The idempotence check compares an int with a float by converting the int, which
  rounds from 2^53 on. So an int against the float it converts to is no conflict, and the order of the two
  decides which one stays (`UnionSymmetry.JoinCommutes`, with `None` against `Undefined` the only other case).
  With 2^53, 2^53 as a float and 2^53+1 one grouping succeeds and the other fails, and a block of the three splits
  wrongly (`UnionSplit.RoundingTears`, `UnionSplit.SplitTears`). `UnionTheorems.JoinAssoc` and
  `UnionSplit.SplitAnywhere` give the exact conditions, and below 2^53 both laws hold without any.
- **Comprehension variables outlive their iteration.** An expression that reads a variable which only inner loops
  have set sees what the previous iteration left there. Exactly the generator lists without such reads meet
  their specification whatever their expressions mean (`ComprehensionScope.ScopingIsExact`).
- **Attribute paths.** A printed target comes back exactly when every index is a string without quotes that needs no
  escaping, and no name is empty (`AttrQuotes.PathRoundTripExact`, for names without separators). A single quote
  needs no escaping and still fails (`AttrQuotes.SingleQuoteFails`); a number or any other non-string index makes
  the parser report a missing quote. A path that ends inside an index is no error (`AttrPath.UnfinishedPaths`). A
  dotted target comes back exactly when its names are also free of `.` and `]`.

## Model

| member | source | states |
|---|---|---|
| LazyEmit.EmitSettersWith | kclvm/evaluator/src/lazy.rs:200-310 | the loop emits exactly the bindings of the body in text order, or, inside an `if`, hands every bound name to the enclosing statement |
| LazyEmit.EmitIf | kclvm/evaluator/src/lazy.rs:255-298 | an `if` contributes the names of its body, tagged as its if-branch, then those of its else part, tagged as its else-branch |
| LazyEmit.EmitSetters | kclvm/evaluator/src/lazy.rs:189-198 | the whole body's setters grouped by name |
| LazyEmit.TableAt | kclvm/evaluator/src/lazy.rs:208-225 | the grouped table lists for every name exactly its own bindings, in order, and never an empty list |
| LazyEmit.EmissionIsFlattening | kclvm/evaluator/src/lazy.rs:189-310 | for every nesting of `if`, the stop points of a name's setters are its binding occurrences in text pre-order: none lost, none twice |
| LazyEmit.EmissionIsTagged | kclvm/evaluator/src/lazy.rs:189-310 | every setter has its top-level statement index, the branch of the outermost `if`, and a leaf of that branch as stop point |
| LazyMachine.GetValue | kclvm/evaluator/src/lazy.rs:313-380 | resolving a name, at any depth, ends, restores every level that was below its setter count, and leaves both stacks as they were |
| LazyMachine.Backtrack | kclvm/evaluator/src/lazy.rs:341-376 | one backtracking step restores the level it raised and every other level below its setter count |
| LazyMachine.WalkSetter | kclvm/evaluator/src/node.rs:1151-1181 | running a setter pops the step it pushed and executes statements only at a greater backtracking depth |
| LazyMachine.WalkExpr | kclvm/evaluator/src/node.rs:572-626 | evaluating an expression keeps levels and stacks and logs no statement at the current depth |
| LazyMachine.WalkStmt | kclvm/evaluator/src/node.rs:39-60 | executing a statement keeps levels and targets and changes the top backtracking step in its break flag only |
| LazyMachine.WalkIf | kclvm/evaluator/src/node.rs:192-216 | the same for an `if`, whose branch is chosen by the backtracking kind |
| LazyMachine.AfterStep | kclvm/evaluator/src/node.rs:1142-1149 | the main walk is the walk of its statements one after another |
| LazyMachine.NoBacktrackingBetweenStatements | kclvm/evaluator/src/lazy.rs:341-376 | for every body, cyclic ones included, the run is total and between two statements of the main walk every level is 0 and both stacks are empty |
| LazyStart.VariablesAtStart | kclvm/evaluator/src/module.rs:47-84 | for every body and nesting: before the main walk a name is a variable, an undefined one, if and only if one of the occurrences that emission lists binds it by a plain assignment |
| LazyPrograms.PlainLoads | kclvm/evaluator/src/lazy.rs:321-340 | what a load without backtracking yields: nothing for no variable, the cached value, and the variable for a name without setters, one whose setters are all running, or the target itself |
| LazyPrograms.LiteralValues | kclvm/evaluator/src/node.rs:572-626 | operators get their operands in text order, and `and`, `or` and conditionals choose as written |
| LazyPrograms.ReadsInOrder | kclvm/evaluator/src/node.rs:572-626 | operands are evaluated from left to right: without backtracking the reads of an expression are logged in text order and nothing else changes |
| LazyPrograms.AugmentedReads | kclvm/evaluator/src/node.rs:131-158 | an augmented assignment reads its value first and its target last |
| LazyRefine.ExprRight | kclvm/evaluator/src/node.rs:572-626 | inside a statement of a name, an expression evaluates to its meaning in the solution, and only lower-ranked names change on the way |
| LazyRefine.NameRight | kclvm/evaluator/src/scope.rs:617-637 | a load yields the name's own running value inside its own setters and its solution value everywhere else |
| LazyRefine.BacktrackRight | kclvm/evaluator/src/lazy.rs:328-380 | with k setters left, backtracking yields and caches the text-order fold of the first k setters |
| LazyRefine.OperandRight | kclvm/evaluator/src/node.rs:101-158 | a statement of a name computes the next step of its fold from the name's current value |
| LazyRun.MainStep | kclvm/evaluator/src/node.rs:101-158 | every statement of the main walk keeps the invariant between statements and every cached name |
| LazyRun.RunBetween | kclvm/evaluator/src/module.rs:86-107 | the invariant holds between any two statements of every run |
| LazyTheorems.FlatIsStraightLine | kclvm/evaluator/src/lazy.rs:189-310 | emission puts every straight-line body with unique ids into the form the run theorems need |
| LazyTheorems.SolutionExists | kclvm/evaluator/src/lazy.rs:41-54 | a program without cyclic dependencies has a meaning: evaluation in dependency order solves it |
| LazyTheorems.SolutionUnique | kclvm/evaluator/src/lazy.rs:41-54 | and it has only one |
| LazyTheorems.ReadsRefine | kclvm/evaluator/src/lazy.rs:313-391 | every read of a name from another name's statement, wherever it sits and at any backtracking depth, yields the fold of all that name's setters |
| LazyTheorems.RunMeetsDependencyOrder | kclvm/evaluator/src/lazy.rs:313-391 | for every acyclic straight-line body: all cross-name reads, all final cache entries and all single-setter variables are those of dependency-order evaluation |
| LazyTheorems.FinalCache | kclvm/evaluator/src/lazy.rs:383-391 | at the end every name is cached with its solution value and every setter has been counted |
| LazyTheorems.CacheStable | kclvm/evaluator/src/lazy.rs:328-390 | between the statements of the main walk a cached value never changes |
| LazyTheorems.LoadKeepsCache | kclvm/evaluator/src/lazy.rs:328-390 | inside a statement, at any backtracking depth, no load changes what is cached for a name at level 0 |
| LazyTheorems.BacktrackKeepsCache | kclvm/evaluator/src/lazy.rs:341-376 | nor does a whole backtracking step, except for the name it is about |
| LazyTheorems.FinalVariable | kclvm/evaluator/src/scope.rs:617-637 | the final variable is the solution value with the setters the main walk still had to do applied once more, or the solution value itself if backtracking never entered the name |
| LazyTheorems.FinalVariableSingle | kclvm/evaluator/src/lazy.rs:321-326 | a single-setter name's variable is its solution value |
| LazyTheorems.FinalVariableUndisturbed | kclvm/evaluator/src/lazy.rs:321-326 | so is that of a name whose setters are separated only by statements that do not rank above it |
| LazyTheorems.FinalVariableDisturbed | kclvm/evaluator/src/lazy.rs:321-326 | a certain read after j of n setters of an uncached name makes setters j..n apply twice |
| LazyTheorems.FinalVariableExact | kclvm/evaluator/src/lazy.rs:321-326 | for all values: when applying setters again shows, the variable ends right if and only if the name is cached before its first statement is reached or not cached before its last one is |
| LazyReach.LoadReach | kclvm/evaluator/src/lazy.rs:313-380 | a load caches exactly what the name reaches through the reads that the solution's values let happen, in statements that are not overwritten |
| LazyReach.BackReach | kclvm/evaluator/src/lazy.rs:341-376 | a backtracking step caches exactly what its remaining setters reach |
| LazyText.CachedIff | kclvm/evaluator/src/lazy.rs:328-391 | for all values: before any statement a name is cached if and only if an earlier statement leads to it or all its own statements stand earlier |
| LazyText.FirstLeadIs | kclvm/evaluator/src/lazy.rs:328-380 | the statement that the next two rows speak of is the first of the body that leads to the name, and missing exactly when none does |
| LazyText.FinalVariableText | kclvm/evaluator/src/lib.rs:185-225 | for all values: the exported variable is the solution value, with the setters behind the first statement that leads to the name applied once more |
| LazyText.FinalVariableRight | kclvm/evaluator/src/lib.rs:185-225 | when applying setters again shows, the exported variable is the solution value if and only if no statement leads to the name or the first that does stands before its first setter or after its last |
| LazyText.TextDecides | kclvm/evaluator/src/lazy.rs:313-391 | without `and`, `or` and conditionals two programs of one text, with any two meanings of operators, have the same such statement for every name |
| LazyExample.ExampleText | kclvm/evaluator/src/lazy.rs:321-326 | the failing program meets the hypotheses of these theorems and the condition under which they say it fails |
| LazyExample.MultiSetterVariableFails | kclvm/evaluator/src/lazy.rs:321-326 | `x = 1; y = x; x += 1` ends with variable 3, cache 2 |
| LazyOrder.AtMostTwice | kclvm/evaluator/src/lazy.rs:69-100 | over a whole acyclic run every statement is executed once by the main walk and at most once more by backtracking |
| LazyOrder.OrderIndependent | kclvm/evaluator/src/lazy.rs:41-54 | two bodies that are permutations keeping each name's own statements in order give the same cross-name reads, cache entries and single-setter variables |
| LazyBranch.IfSetterRunsToStop | kclvm/evaluator/src/lazy.rs:16-39 | backtracking into an `if` setter executes exactly the statements of that flat branch up to and including the stop statement, even when they start further backtracking, and the stack ends at its starting depth |
| LazyNested.NestedSetterRunsToStop | kclvm/evaluator/src/node.rs:192-216 | for `if` statements of any nesting backtracking executes the stop statement if and only if it stands in the branch of the outermost kind of every `if` on the way and every condition, evaluated on the way, selects that branch; it is then executed once and last |
| LazyNested.OtherBranchNeverRuns | kclvm/evaluator/src/node.rs:192-216 | a setter behind a nested `if` in whose other branch it stands is never executed, whatever the conditions are |
| LazyNested.EmittedOnce | kclvm/evaluator/src/lazy.rs:255-298 | every setter emitted for an `if` of a body with unique ids meets the hypotheses of these two |
| LazyNested.ElifNeverRuns | kclvm/parser/src/parser/stmt.rs:653-670 | backtracking never executes a setter in the body of an `elif` |
| LazyNested.ElifReadFails | kclvm/evaluator/src/lazy.rs:341-376 | a read before an `if` whose `elif` sets the name yields undefined, while the name ends with what the `elif` assigns |
| LazySelected.SelectedRead | kclvm/evaluator/src/lazy.rs:341-376 | for every nesting: a backtracking step whose statement is selected yields and caches what that statement stores when the walk arrives at it |
| LazyPrograms.ForwardRead | kclvm/evaluator/src/scope.rs:617-637 | so does a forward read of a name whose last setter is selected |
| LazyPrograms.ElseReadRight | kclvm/evaluator/src/module.rs:72-76 | for all values: a read before an `if` whose else part alone sets the name, and runs, yields the value assigned there |
| LazyPrograms.UpdateReadRight | kclvm/evaluator/src/lazy.rs:69-100 | for all values and operators: a read after an `if` whose else part updates the name yields the updated value, although the setter of the other branch has not run |
| LazyEvaluator.Evaluator.constructor | kclvm/evaluator/src/scope.rs:33-96 | a new evaluator is the machine's initial state on the emitted setters |
| LazyEvaluator.Evaluator.PredefineGlobalVars | kclvm/evaluator/src/module.rs:47-84 | exactly the names that a plain assignment binds, in whichever branch of whichever `if`, start undefined, and no other variable changes |
| LazyEvaluator.Evaluator.CalIncrement | kclvm/evaluator/src/lazy.rs:69-79 | counts a store outside backtracking and reports when all setters have stored |
| LazyEvaluator.Evaluator.SetValueToLazyScope | kclvm/evaluator/src/lazy.rs:383-391 | caches exactly as the machine's store does |
| LazyEvaluator.Evaluator.AddOrUpdateGlobalVariable | kclvm/evaluator/src/scope.rs:315-348 | stores the variable and then the lazy scope |
| LazyEvaluator.Evaluator.LoadName | kclvm/evaluator/src/scope.rs:617-637 | a load is the machine's load |
| LazyEvaluator.Evaluator.GetValueFromLazyScope | kclvm/evaluator/src/lazy.rs:313-380 | resolving a name in place is the machine's resolution |
| LazyEvaluator.Evaluator.Backtrack | kclvm/evaluator/src/lazy.rs:341-376 | one backtracking step in place is the machine's step |
| LazyEvaluator.Evaluator.WalkStmtsWithSetter | kclvm/evaluator/src/node.rs:1151-1181 | pushes the step, walks the statement, pops the step |
| LazyEvaluator.Evaluator.WalkExpr | kclvm/evaluator/src/node.rs:572-626 | operands left to right, with short-circuit `and`/`or` and conditional |
| LazyEvaluator.Evaluator.WalkStmt | kclvm/evaluator/src/node.rs:39-60 | skips when broken off, else notes the node, walks it and updates the break flag |
| LazyEvaluator.Evaluator.WalkAssignStmt | kclvm/evaluator/src/node.rs:101-129 | pushes the target, evaluates, stores, pops |
| LazyEvaluator.Evaluator.WalkAugAssignStmt | kclvm/evaluator/src/node.rs:131-158 | evaluates the right side, loads the target, combines and stores |
| LazyEvaluator.Evaluator.WalkIfStmt | kclvm/evaluator/src/node.rs:192-216 | runs the branch the condition and the backtracking kind select |
| LazyEvaluator.Evaluator.CompileModule | kclvm/evaluator/src/module.rs:86-107 | the main walk ends in the machine's final state |
| LazyEvaluator.EvaluateModule | kclvm/evaluator/src/lib.rs:163-225 | a whole run exports for every name the variable that statements and values foretell, which for single-setter names is the dependency-order value; its cache holds the dependency-order value of every name |
| SchemaSetters.MergeVariablesAndSetters | kclvm/evaluator/src/lazy.rs:134-153 | appends the other table's setters key by key and gives the value an undefined entry for every key it lacks, keeping the rest |
| SchemaSetters.ExtendedIs | kclvm/evaluator/src/lazy.rs:134-153 | a value keeps every entry it had and gets an undefined one for every further attribute with a setter |
| SchemaSetters.TableIsLinear | kclvm/evaluator/src/schema.rs:271-326 | for every acyclic hierarchy an attribute's list is the parent's list, then its own setters, then each mixin's in order, and an attribute has an entry if and only if that list is not empty |
| SchemaSetters.LinearIsMarked | kclvm/evaluator/src/schema.rs:271-326 | every setter in it is marked with a schema of the hierarchy in whose body it sets that attribute |
| SchemaSetters.Schemas.InitLazyScope | kclvm/evaluator/src/schema.rs:271-326 | the schema's scope becomes that table, its value gets an undefined entry for every attribute with a setter, and no schema that is not below it changes |
| MergeLaws.MergeAssoc | kclvm/evaluator/src/union.rs:22-188 | deep merge of values of consistent kinds is associative, key order included, with `None` and `Undefined` absorbed |
| MergePaths.AgreePaths | kclvm/evaluator/src/union.rs:199-227 | two configurations agree if and only if they do at every path |
| MergePaths.MergeAt | kclvm/evaluator/src/union.rs:22-188 | a merge holds at every path the second side's node, or the first's where the second has nothing |
| MergePaths.AgreeMergeLeft | kclvm/evaluator/src/union.rs:199-227 | agreeing with a merge is agreeing with its second side, and with its first where the second has nothing |
| MergePaths.AgreeMergeRight | kclvm/evaluator/src/union.rs:199-227 | the same on the right |
| MergePaths.Triangle | kclvm/runtime/src/unification/subsume.rs:12-66 | agreement carries over a third configuration except where that has nothing or a float that two different ints convert to |
| Floats.SmallIsExact | kclvm/runtime/src/value/val_cmp.rs:7-18 | below 2^53 an int is its own float and no other int converts to it |
| Floats.LargeCollide | kclvm/runtime/src/value/val_cmp.rs:7-18 | 2^53 and 2^53+1 convert to the same float |
| Floats.NearestEven | kclvm/runtime/src/value/val_cmp.rs:7-18 | for every int: conversion gives the nearest multiple of the weight of its last of 53 binary digits, the even one of two |
| Union.UnionFn | kclvm/evaluator/src/union.rs:22-188 | the loop over the right-hand entries, stopping at the first conflict, is the recursive entry merge |
| Union.UnionList | kclvm/evaluator/src/union.rs:199-227 | the positional list loop is the recursive list merge |
| UnionOperations.EntriesExact | kclvm/evaluator/src/union.rs:22-188 | for all operations and indexes, checked or not: a union of dictionaries ends if and only if every entry of the right is possible on what the left has under its key |
| UnionOperations.EntriesAt | kclvm/evaluator/src/union.rs:22-188 | then every key of the right has what its entry leaves, spelled out for plain, override and insert entries with and without an index, and every other key what it had |
| UnionOperations.KeyOrder | kclvm/evaluator/src/union.rs:22-188 | the keys keep their order and new ones follow in theirs |
| UnionOperations.OverrideWins | kclvm/evaluator/src/union.rs:126-149 | a union that ends has under every un-indexed override key the value written there, under plain keys what a merge gives, elsewhere what was there; operations and indexes are those written last |
| UnionOperations.LeavesJoin | kclvm/runtime/src/unification/subsume.rs:12-66 | two leaves under one key conflict unless they are the same value or an int and its float, and the second stays |
| UnionOperations.IntsJoin | kclvm/evaluator/src/union.rs:323-329 | `\|` on two ints has exactly the bits that one of them has, in two's complement |
| UnionOperations.OtherJoins | kclvm/evaluator/src/union.rs:306-339 | nothing gives way to the other side, other mixtures fail under `\|`, and inside a dictionary the second value replaces the first |
| UnionLaws.CheckedUnion | kclvm/evaluator/src/union.rs:306-339 | with the idempotence check, a union of plain entries ends without a conflict if and only if the values agree, and then it is their merge |
| UnionLaws.UncheckedUnion | kclvm/evaluator/src/union.rs:306-339 | without the check a union of plain entries never fails where no list meets a dictionary, and is the merge |
| UnionLaws.UncheckedFails | kclvm/evaluator/src/union.rs:265-273 | and it fails where one does |
| UnionTheorems.JoinIffAgree | kclvm/evaluator/src/union.rs:341-384 | `a \| b` on configurations succeeds exactly when they agree, with their merge as result |
| UnionTheorems.JoinAssoc | kclvm/evaluator/src/calculation.rs:63-74 | both groupings of three configurations raise a conflict or give the same dictionary, key order included, if and only if the three are not torn by rounding: two different ints that convert to one float, in the telling order, and no other conflict |
| UnionTheorems.JoinAssocSmall | kclvm/evaluator/src/calculation.rs:63-74 | in particular when no int of the first configuration reaches 2^53 |
| UnionSplit.RoundingTears | kclvm/runtime/src/value/val_cmp.rs:7-18 | 2^53, its float and 2^53+1: one grouping succeeds and the other fails |
| UnionTheorems.UncheckedAssoc | kclvm/evaluator/src/union.rs:22-188 | unchecked union is associative on all values of consistent kinds and never fails |
| UnionTheorems.WalkConfigEntries | kclvm/evaluator/src/node.rs:1610-1666 | the loop over evaluated entries builds the block entry by entry |
| UnionOperations.BlockOverride | kclvm/evaluator/src/node.rs:1610-1666 | an override entry behind any block that builds gives a block with the new value under its key, all other keys as before and the key order kept |
| UnionOperations.BlockKeeps | kclvm/evaluator/src/node.rs:1610-1666 | an entry whose key no later one has, and that is new or overrides, has its value in the block |
| UnionSplit.SplitAnywhere | kclvm/evaluator/src/node.rs:1610-1666 | a block built whole equals its two parts built and merged, failures included, if and only if, where the entries of each part agree, the last values of the first part agree with the first values of the second exactly when they agree with its last values |
| UnionSplit.BlockIsLasts | kclvm/evaluator/src/node.rs:1610-1666 | a block builds if and only if every entry agrees with the last values before it, and the result is the last values |
| UnionSplit.BuildsAppend | kclvm/evaluator/src/node.rs:1610-1666 | the entries of a longer block agree if and only if those of its parts do and the second part begins in agreement with the first |
| UnionSplit.BlockAppend | kclvm/evaluator/src/node.rs:1610-1666 | a block goes on exactly when what follows builds by itself and begins in agreement with it, and then it is the merge of the two |
| UnionSplit.SplitSmall | kclvm/evaluator/src/node.rs:1610-1666 | with ints below 2^53 a block can be split anywhere |
| UnionSplit.SplitTears | kclvm/evaluator/src/node.rs:1610-1666 | the three entries at 2^53 build as one block and fail when split after the first |
| UnionSymmetry.UnionIdempotent | kclvm/evaluator/src/union.rs:22-188 | merging a value of union and un-indexed override entries with its own copy changes nothing and raises nothing, at any depth, checked or not |
| UnionSymmetry.MergeCommutes | kclvm/evaluator/src/union.rs:306-339 | agreeing values merge to the same tree up to key order in either order if and only if no shared path has `None` against `Undefined` or an int against an equal float |
| UnionSymmetry.JoinCommutes | kclvm/evaluator/src/calculation.rs:63-74 | `a \| b` fails exactly when `b \| a` does, and otherwise the results are the same up to key order exactly under that condition |
| ComprehensionSpec.RowsInOrder | kclvm/evaluator/src/node.rs:1508-1608 | the tuples of a nested comprehension come in strictly increasing lexicographic order of their positions |
| ComprehensionSpec.RowsExact | kclvm/evaluator/src/node.rs:1508-1608 | a tuple is among them if and only if its positions exist in the values of the iterables, inner ones depending on outer variables, all filters pass, and its variables are those that the positions give: one variable the element, key or character, two the position or key and the element, value or character |
| ComprehensionSpec.RowsFail | kclvm/evaluator/src/node.rs:1508-1608 | there are no tuples at all if and only if something reached on the way cannot be iterated, or has neither one nor two loop variables |
| Comprehension.RowHolds | kclvm/evaluator/src/node.rs:1534-1557 | in every tuple the variables of each loop, unless a later loop has them too, hold what the tuple's position there names: `Int(p)` and the p-th element of a list, the p-th key and value of a dictionary, `Int(p)` and the p-th character of a string |
| ComprehensionSpec.CollectList | kclvm/evaluator/src/node.rs:1574-1577 | a list collects one element per tuple and keeps its earlier contents as a prefix |
| ComprehensionSpec.CollectDict | kclvm/evaluator/src/node.rs:1578-1591 | a dictionary collects the config block of the tuples' entries |
| Comprehension.DictCompHolds | kclvm/evaluator/src/node.rs:1578-1591 | the dictionary has under the key of a tuple the value of that tuple, if no later one has the key and it is new or overrides |
| Comprehension.Walker.WalkGenerator | kclvm/evaluator/src/node.rs:1508-1608 | the recursive accumulator on a shared scope collects exactly the rows of the leaking walk, fails when it fails, and leaves no new local variable |
| Comprehension.WalkIsRows | kclvm/evaluator/src/node.rs:1508-1608 | when no expression reads a variable that only inner loops have set, the shared-scope walk reaches exactly the specified rows, whatever the variables held before, and changes loop variables only |
| Comprehension.WalkMeetsRows | kclvm/evaluator/src/node.rs:1508-1608 | the same for a whole comprehension, whose first iterable may read anything |
| Comprehension.WalkListComp | kclvm/evaluator/src/node.rs:766-782 | the result is the list of the element's values over the specified rows, or a failure exactly when something cannot be iterated or bound |
| Comprehension.WalkDictComp | kclvm/evaluator/src/node.rs:784-806 | the result is the config block of the rows' entries, or a failure |
| ComprehensionScope.EarlyReadLoses | kclvm/evaluator/src/node.rs:1524-1568 | for every generator list with such a read, some pure meaning of the same shape makes the walk lose rows |
| ComprehensionScope.ScopingIsExact | kclvm/evaluator/src/node.rs:1508-1608 | a generator list is scoped if and only if the walk meets the specification for all meanings of its expressions |
| LexerSpec.TokensTile | kclvm/lexer/src/lib.rs:303-313 | for every text the tokens' lengths add up to the text, none is empty, and every suffix starts within its literal |
| LexerSpec.TokensAreFirst | kclvm/lexer/src/lib.rs:297-313 | every token is the first token of what remains of the text at its start |
| Lexer.Tokenize | kclvm/lexer/src/lib.rs:303-313 | the cursor loop ends on every input and yields exactly those tokens |
| Lexer.Cursor.NextToken | kclvm/lexer/src/lib.rs:401-596 | one call yields the first token of the remaining characters and moves past it |
| Lexer.Cursor.EatNumber | kclvm/lexer/src/number.rs:12-97 | the number scanner recognises the specified base, digits, fraction and exponent |
| LexerNumbers.PrefixedLiteral | kclvm/lexer/src/number.rs:15-56 | `0b`, `0o`, `0x` or a leading zero with digits, before any text that cannot extend it, is one int literal of that base, empty if and only if no digit stands behind the prefix |
| LexerNumbers.DecimalLiteral | kclvm/lexer/src/number.rs:43-60 | decimal digits and underscores are one decimal int literal |
| LexerNumbers.DecimalFloats | kclvm/lexer/src/number.rs:62-96 | a fraction, an exponent or both make one decimal float literal whose exponent is flagged empty if and only if it has no digit |
| LexerNumbers.PrefixedFraction | kclvm/lexer/src/number.rs:62-83 | a fraction behind a base prefix makes a float of that base |
| LexerNumbers.PrefixedExponent | kclvm/lexer/src/number.rs:84-91 | so does an exponent behind a binary or octal one |
| LexerNumbers.PrefixedSuffix | kclvm/lexer/src/lib.rs:419-425 | a suffix belongs to the literal and starts behind its digits |
| LexerNumbers.FractionSuffix | kclvm/lexer/src/lib.rs:419-425 | the same behind a fraction |
| Lexer.Cursor.EatDigits | kclvm/lexer/src/number.rs:99-131 | a digit loop takes the longest run and reports whether it holds more than underscores |
| Lexer.Cursor.EatQuotedString | kclvm/lexer/src/kcl_cursor.rs:65-126 | the string scanner covers and closes the literal as specified |
| Lexer.Cursor.ScanToClose | kclvm/lexer/src/kcl_cursor.rs:75-120 | its loop stops at the closing quote, or where an unclosed string gives up |
| Lexer.Cursor.EatIdent | kclvm/lexer/src/kcl_cursor.rs:137-150 | an identifier takes all its characters, and emoji make it invalid |
| LexerSigns.PlainSign | kclvm/lexer/src/lib.rs:454-577 | every operator sign before no `=` and, where it can stand twice, not before itself is its one-character token |
| LexerSigns.EqSign | kclvm/lexer/src/lib.rs:454-577 | every operator sign before `=` is its two-character token |
| LexerSigns.DoubledSign | kclvm/lexer/src/lib.rs:468-563 | `<<`, `>>`, `**` and `//`, and each before `=`, are their tokens |
| LexerSigns.DelimiterIs | kclvm/lexer/src/lib.rs:428-453 | every bracket, mark and blank is its token |
| LexerSigns.DotsAndContinuations | kclvm/lexer/src/lib.rs:434-585 | three dots, single dots and line continuations, valid and not |
| LexerSigns.CommentIs | kclvm/lexer/src/kcl_cursor.rs:21-33 | a comment reaches to the end of its line |
| LexerSigns.WhitespaceIs | kclvm/lexer/src/lib.rs:379-398 | each of the eight other white-space characters is one token |
| LexerSigns.NameIs | kclvm/lexer/src/kcl_cursor.rs:129-150 | a name of letters and digits of any script is one identifier |
| LexerSigns.DollarNameIs | kclvm/lexer/src/kcl_cursor.rs:129-150 | also behind a dollar sign |
| LexerSigns.EmojiNameIs | kclvm/lexer/src/lib.rs:607-617 | a name that runs into an emoji is one invalid identifier with all that follows of its kind |
| LexerSigns.StrayIs | kclvm/lexer/src/lib.rs:453-590 | a dollar sign alone, an emoji first, and any other character |
| LexerSigns.QuotesAlike | kclvm/lexer/src/kcl_cursor.rs:65-126 | every text that begins with a quote lexes as the text with the two quotes exchanged |
| LexerSigns.RawIs | kclvm/lexer/src/kcl_cursor.rs:36-57 | a raw prefix makes a string token one character longer and changes nothing else |
| LexerSigns.ShortStringIs | kclvm/lexer/src/kcl_cursor.rs:65-126 | a short string without escapes ends at its quote, or unclosed at the end of its line |
| LexerSigns.LongStringIs | kclvm/lexer/src/kcl_cursor.rs:65-126 | a long one ends at three quotes, or unclosed, and then not marked long, at the end of the text |
| Lexer.Cursor.EatWhile | kclvm/lexer/src/cursor.rs:87-93 | takes the longest prefix that satisfies the predicate |
| Printer.Printer.WalkExpr | kclvm/ast_pretty/src/node.rs:389-461 | printing an expression appends exactly its text |
| Printer.Printer.WriteArgsAndKwargs | kclvm/ast_pretty/src/node.rs:876-890 | arguments, then keywords, each separated by a comma and a space |
| Printer.Printer.WalkCompare | kclvm/ast_pretty/src/node.rs:770-778 | every link of a comparison chain with its operator between spaces |
| PrinterLayout.ArgumentsSeparated | kclvm/ast_pretty/src/node.rs:876-890 | arguments and keyword arguments together are their texts with a comma and a space between each two |
| PrinterLayout.CompareGrows | kclvm/ast_pretty/src/node.rs:770-778 | a comparison grows by its operator between spaces and its operand |
| PrinterLayout.UnaryLayout | kclvm/ast_pretty/src/node.rs:397-405 | signs stand close to their operand and `not` before a space |
| PrinterLayout.BinaryLayout | kclvm/ast_pretty/src/node.rs:407-414 | binary operators stand between spaces |
| PrinterLayout.BracketLayout | kclvm/ast_pretty/src/node.rs:389-461 | conditionals have their words between spaces, and parentheses stand close to what they enclose |
| PrinterLayout.SubscriptLayout | kclvm/ast_pretty/src/node.rs:433-455 | an index stands in brackets, behind a question mark if there is one |
| PrinterLayout.SliceLayout | kclvm/ast_pretty/src/node.rs:433-455 | a slice has two colons and leaves out what is missing |
| LexerTokens.NameRight | kclvm/lexer/src/kcl_cursor.rs:130-150 | an ASCII identifier before an acceptable text is one identifier token |
| LexerTokens.NumberRight | kclvm/lexer/src/number.rs:12-97 | a decimal number with an optional unit suffix is one integer literal whose suffix starts after its digits |
| LexerStrings.ShortLiteral | kclvm/ast_pretty/src/node.rs:814-824 | for every value: the short literal is one closed token covering it if and only if backslashes before quotes and at the end are even and every line break follows a quote or a pair of backslashes or comes first |
| LexerStrings.LongLiteral | kclvm/ast_pretty/src/node.rs:814-824 | for every value: the long literal is one closed, triple-quoted token if and only if no odd run of backslashes stands at its end or before a quote at its end |
| LexerStrings.BackslashFails | kclvm/ast_pretty/src/node.rs:814-824 | the value of one backslash is no closed token covering its literal, short or long |
| LexerTokens.BinRight | kclvm/ast/src/ast.rs:1626-1644 | every binary operator symbol between spaces is its one token |
| LexerTokens.CmpRight | kclvm/ast/src/ast.rs:1788-1801 | every comparison symbol between spaces is its one or two tokens |
| LexerRoundTrip.PrintedLexesBack | kclvm/ast_pretty/src/node.rs:389-461 | every expression of identifiers, numbers, strings, unary, binary, compare, conditional, paren, call and subscript nodes prints to a text that lexes, spaces dropped, to exactly its token sequence, alone or before any acceptable text |
| LexerRoundTrip.LexemesAreTokens | kclvm/lexer/src/lib.rs:303-313 | the tokens with their characters are the token list laid over its text |
| LexerRoundTrip.PrintThenTokenize | kclvm/lexer/src/lib.rs:400-618 | running the printer and then the lexer gives that token sequence |
| LexerReading.DigitsReadBack | kclvm/ast_pretty/src/node.rs:803-807 | for every number: the value of its printed digits, ten times the digits before plus the last digit, is the number |
| LexerReading.UnitReadsBack | kclvm/ast/src/ast.rs:1392-1413 | the parser takes every printed unit for that unit |
| LexerReading.PrintedReadsBack | kclvm/ast_pretty/src/node.rs:389-461 | the tokens of every printed expression read back as its numbers by value and unit, its strings by their characters, and its signs, in order |
| LexerReading.PrintThenRead | kclvm/lexer/src/lib.rs:400-618 | running the printer, the lexer and that reading gives the same |
| CacheProtocol.InvNext | kclvm/config/src/cache.rs:192-214 | every step of every call keeps the invariant: the file is whole, the lock holder is alone and up to date, no file being written is being read, no update is recorded twice |
| CacheTheorems.FileIsFold | kclvm/config/src/cache.rs:179-214 | after any interleaving the file is a complete text and means the fold of all updates in rename order over what it meant at the start |
| CacheTheorems.NoLostUpdate | kclvm/config/src/cache.rs:192-214 | a finished writer's update is in the history exactly once, and its path has in the file the value of the path's last update, this one or a later one |
| CacheTheorems.ReaderSeesWhole | kclvm/config/src/cache.rs:179-190 | an unlocked reader gets the whole map as of some rename not before it began, and a file it has found can always be opened |
| CacheTheorems.ReadsAreMonotone | kclvm/config/src/cache.rs:179-190 | a read that begins after another has ended never sees fewer updates |
| CacheTheorems.MutualExclusion | kclvm/config/src/cache.rs:206-212 | at most one call is between taking the lock and giving it back |
| CacheTheorems.OthersStay | kclvm/config/src/cache.rs:192-214 | a path that no update names keeps what it had at the start |
| CacheTheorems.HolderGoesOn | kclvm/config/src/cache.rs:206-212 | no deadlock: in every reachable state the holder of the lock is a writer with an enabled step that does not end in an abort, and if it stops instead the lock is free |
| CacheTheorems.Disk.WriteInfoCache | kclvm/config/src/cache.rs:192-214 | with the lock free a writer gets through and the file's meaning gains exactly its entry |
| CacheTheorems.Disk.ReadInfoCache | kclvm/config/src/cache.rs:179-190 | a read returns what the file means, the empty map if it is absent or malformed, and changes nothing on disk |
| AttrPath.ParseAttributePath | kclvm/query/src/path.rs:5-60 | the character loop is the recursive scan, errors included |
| AttrPath.GetTargetPath | kclvm/ast/src/path.rs:70-105 | the printer appends every member and index of the target in order |
| AttrPath.PlainIndices | kclvm/ast/src/path.rs:79-99 | number, signed and other indices print as written, or as three dots |
| AttrPath.EscapedParts | kclvm/ast/src/path.rs:93-95 | the debug form of a string is that of its characters in order, and a string without escapes is its own |
| AttrPath.IndexParses | kclvm/query/src/path.rs:3-60 | a name with an index in quotes of either kind, also behind a dot, parses to the name and the index |
| AttrPath.BadPaths | kclvm/query/src/path.rs:14-48 | an index without a quote, a quote without a bracket and a bracket without an index are each its error |
| AttrPath.UnfinishedPaths | kclvm/query/src/path.rs:37-44 | a path that ends inside an index is accepted |
| AttrPath.PathParses | kclvm/query/src/path.rs:5-60 | parsing a printed target of unbroken names and quote-free indices gives its non-empty names, indices in debug form, or a missing-quote error exactly when an index is not a string |
| AttrPath.PathRoundTrip | kclvm/query/src/path.rs:5-60 | so the round trip gives exactly the names if and only if every index is a string, no name is empty and every index is its own debug form |
| AttrPath.PartsAreFull | kclvm/query/src/path.rs:5-60 | no parsed part of any input is empty |
| AttrPath.PartsAreClean | kclvm/query/src/path.rs:5-60 | without an opening bracket no parsed part holds a dot or a closing bracket |
| AttrQuotes.NextPart | kclvm/query/src/path.rs:5-60 | for every input: the part finished next takes no closing bracket from outside brackets and begins inside them with no quote |
| AttrQuotes.PathRoundTripExact | kclvm/query/src/path.rs:5-60 | for all targets whose names hold no separator, the round trip gives exactly the names if and only if every index is a quote-free string that is its own debug form and no name is empty |
| AttrQuotes.SingleQuoteFails | kclvm/ast/src/path.rs:70-105 | an index of one single quote, which needs no escape, ends in an error |
| AttrPath.DottedRoundTripExact | kclvm/ast/src/path.rs:70-105 | a dotted target without an opening bracket round-trips if and only if every name is non-empty and free of dots and closing brackets |

## Left out

- Value arithmetic, truth of values and the Unicode character tables are parameters of the model; operators are total, so a panic of value arithmetic is not modelled.
- Lambda closures, scope covers, packages and imports: one module and its global scope are modelled.
- Statements other than assignment, augmented assignment and `if` (unification and schema attributes, which are emitted as assignments are, schema and rule statements, asserts, type aliases, expression statements), multiple and path targets, type annotations and expressions with calls.
- Value theorems over whole runs for bodies with `if`: a forward read whose last setter sits in the branch not taken caches whatever the variable holds; `LazyBranch` and `LazyNested` say which statements run, and `LazySelected.SelectedRead` what a selected one yields.
- LazyEvaluator.Evaluator.constructor: builtin functions, type names and further modules of a package are not put into the scope.
- `SchemaEvalContext::get_value` and `set_value`, the same backtracking algorithm on a schema's own value, and schema instantiation and checks.
- SchemaSetters.Schemas.InitLazyScope: a schema's value is a map, so the order of the undefined entries is not captured; frames that are no schemas are not modelled.
- UnionSymmetry.UnionIdempotent: number-with-unit values and the float NaN are not modelled; the check rejects either against its own copy.
- Schema values inside `union`, the conflict path of the error message, the attribute maps and type packing; union is modelled on values, so sharing of one object on both sides and its short cut are not captured.
- Union of entries with an index and of insert entries has its exact results (`UnionOperations`) but no algebraic law: it is not idempotent or associative by design.
- UnionTheorems.WalkConfigEntries: unpacking entries and the local variable stored for every key (kclvm/evaluator/src/node.rs:1645-1663) are not modelled.
- Comprehensions over schema values; expressions in comprehensions are pure.
- LexerSpec.TokensTile: lengths count characters, not UTF-8 bytes.
- Printer layout, comments, configuration, list, dictionary, lambda, schema, selector and format-string expressions, floats and name constants, raw literal text, and parsing back into trees.
- CacheTheorems.NoLostUpdate: unique temporary file names, atomic rename and release of the lock when a call stops are built into the steps; the MD5 of the cached file is a parameter, and a round-tripping serialiser is assumed.
- `save_data_to_file`, the same lock-and-rename pattern without reading, and any agreement between the info file and the data file, which are written one after the other under two locks.
- AttrPath.PathParses: says which parts a target yields only for string indices without quotes; with quotes `AttrQuotes.PathRoundTripExact` says whether its names come back.
- AttrQuotes.PathRoundTripExact: names with separators beside indices are not characterised beyond the facts on parsed parts; of the debug form only is used that it drops no character, keeps closing brackets and makes a quote only of a quote.
