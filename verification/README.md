# Verified model of the automation contracts

A Dafny model of the contract code of a browser-automation platform, with proofs. Five parts are modelled, each in the
form its source has: the IREL expression language, the static validator and compiler of scenarios, the lifecycle
machines, the in-memory runtime store, and the control plane's request runner with the recording-to-scenario
translation. `dafny verify dfyconfig.toml` checks everything.

## How it is organised

| files | part |
|---|---|
| `IrelSyntax`, `IrelLexer`, `IrelParser`, `IrelPrinter`, `IrelPrecedence` | tokens, trees, the tokenizer loop, the mutable recursive-descent parser, the printer and the round trips, independence of precedence |
| `Json`, `IrelTypes`, `IrelEval`, `IrelSoundness`, `IrelCompile` | schemas and types, the strict evaluator, type soundness, compiled conditions |
| `Decimals`, `IrelLaws`, `IrelScopes`, `IrelExact` | decimal texts, the laws of the evaluator, schemas and scopes against types, exactness of the type rules |
| `Graphs`, `Tarjan`, `Reachability`, `CycleRule` | graphs, the strongly connected components pass, the worklists, the documented cycle rule |
| `Scenarios`, `Decisions`, `ScenarioCompile`, `ScenarioTheorems`, `ScenarioMoves`, `ScenarioRules`, `ScenarioWitnesses` | the rules of the validator, decision coverage, the whole compile step, what acceptance guarantees, the flow and the rules read off the fields, what acceptance does not guarantee |
| `Recording`, `RecordingStore` | drafts from recorded events and the sessions that keep them |
| `Lifecycle`, `RunTraces`, `EntityTraces`, `GuardTraces`, `OutcomeTraces`, `EntityOutcomes` | the three machines, their exact event languages, and what guards and outcomes mean over whole lives |
| `Outbox`, `Entities`, `StoreRuns`, `StoreHistories`, `StoreCounters`, `StoreEvents`, `DeadLetters`, `BrowserLeases`, `LeaseHistories`, `Credentials`, `SlotHistories`, `RuntimeStore` | the store: specification functions, runs of the whole store, and the class whose methods are proved against them |
| `CanonicalJson`, `CanonicalTheorem`, `CanonicalReader`, `Idempotency`, `RequestRunner`, `RequestAnswers`, `RequestCrashes`, `RequestReplay` | canonical text and its reader, the idempotency and If-Match stores, the request protocol and its answers, the requests that leave their key unusable |

Code that updates things in place is a class or a method with loops, proved equal to a specification function; the
theorems are about those functions. Concurrent code (relays, requests, replays) is a state machine whose steps lie
between the source's `await` points, and the theorems hold for every sequence of steps.

## Where the code and its documents differ, or surprise

The model follows the code. Each of these is stated by a lemma of the table below.

- Cycles: the validation document asks for a loop node in every cycle, the code for one in every cyclic component
  (`ScenarioWitnesses.DetourScenarioAccepted`, `CycleRule.AcceptedObeysIff`).
- The loop-exit rule can never report anything (`ScenarioCompile.LoopExitIssues`), and the registry of signed commands
  cannot change acceptance, since shell actions are refused anyway (`ScenarioCompile.CompileScenarioStatic`).
- A parameter that a text can name and whose schema infers an empty type makes a condition disappear without a
  diagnostic, and nothing else does (`ScenarioWitnesses.LossyScenarioAccepted`, `IrelCompile.DroppedIff`).
- The decision-coverage rule warns although a branch that is always true without being the literal answers every
  decision (`Decisions.UnfoundedWarning`); `Decisions.CoverageExact` and `Decisions.OthersDecide` say when a warning is
  founded.
- A dead-letter replay waits between re-opening its work item and closing its record. If the item is abandoned again in
  that window, it ends up with no open record (`DeadLetters.ReplayRace`, `DeadLetters.InTimeIff`). An item whose id
  is the empty string can never be replayed (`DeadLetters.ReplayRestores`).
- Outbox keys count no occurrences: an entity has one row per pair of triggering and emitted event
  (`StoreEvents.RowsArePairs`), so all suspensions of a run share one row and all abandonments of an item at most two
  (`StoreEvents.SuspensionsCollapse`, `StoreEvents.AbandonmentsCollapse`).
- A browser lease can be renewed for a shorter time than it had (`BrowserLeases.RenewalShortens`), and anyone can release
  a credential slot (`Credentials.SlotKeptIff`).
- A credential limit can be lowered below a slot in use; then a slot can be given out although as many are held as the
  limit allows (`Credentials.LoweredLimit`).
- A handler that throws anything but an API error leaves the idempotency record in process and its key unusable
  (`RequestCrashes.ThrowWedges`). With either authorization resolver of the repository nothing else does
  (`RequestCrashes.HandlerCrashIff`, `RequestCrashes.ServedIff`): they read the If-Match id before the reservation and
  throw there when it cannot be read. Under another resolver such an id is a second cause, and the last one
  (`RequestCrashes.UnreadableWedges`, `RequestCrashes.CrashedIff`).

## Model

| member | source | states |
|---|---|---|
| Tarjan.FindIllegalCycles | codegen/static-validation.ts:717-769 | for every graph the pass terminates and returns exactly one member of each cyclic component without a loop node, nothing else, and nothing at all exactly when every node on a cycle shares its component with a loop node |
| Tarjan.Search.StrongConnect | codegen/static-validation.ts:725-762 | one call numbers its node and everything newly reachable, keeps the stack, lowlink and reported-set invariants and closes whole components only |
| Tarjan.Search.PopComponent | codegen/static-validation.ts:750-757 | pops exactly the nodes above the base of the stack, in stack order, and clears their stack marks |
| Tarjan.Search.Offends | codegen/static-validation.ts:759-760 | the length, self-edge and loop tests decide exactly whether the popped component is cyclic and has no loop node |
| Tarjan.Search.Visit | codegen/static-validation.ts:733-746 | handling one successor keeps the lowlink witness and bound over the successors seen so far |
| CycleRule.DocumentedIff | ir-static-validation.md:29 | the documented rule (every cycle contains a loop node itself) holds exactly when the same pass finds nothing on the graph with the loop nodes cut out |
| CycleRule.DocumentedAccepted | ir-static-validation.md:29 | whatever the documented rule allows, the implemented one accepts |
| CycleRule.AcceptedObeysIff | codegen/static-validation.ts:759-762 | an accepted graph obeys the documented rule exactly when no component with a loop node has a cycle that avoids the loop nodes |
| CycleRule.DetourAccepted | codegen/static-validation.ts:759-762 | a three-node graph that the code accepts although one of its cycles has no loop node |
| ScenarioWitnesses.DetourScenarioAccepted | codegen/static-validation.ts:759-762 | a whole scenario of four nodes that the validator accepts although one of its cycles has no loop node |
| Reachability.ReachableFrom | codegen/static-validation.ts:695-705 | the worklist returns exactly the nodes reachable from the start, declared or not |
| Reachability.IsAncestor | codegen/irel-compile.ts:1105-1129 | the backwards search answers exactly whether a non-empty path leads from the candidate to the node |
| Reachability.Reverse | codegen/irel-compile.ts:1105-1129 | the predecessor lists hold exactly the reversed edges |
| IrelLexer.Tokenize | codegen/irel-compile.ts:294-367 | the index loop, including its step past the end at the last character, computes the tokens of the recursive definition and fails exactly where that fails |
| IrelLexer.ReadNumber | codegen/irel-compile.ts:1231-1239 | reads digits and, if a digit follows a dot, the fraction |
| IrelLexer.ReadString | codegen/irel-compile.ts:328-349 | reads up to the closing quote and refuses escapes, line breaks and a missing quote |
| IrelLexer.LexWf | codegen/irel-compile.ts:294-367 | every token list ends in the only end marker and every token has the text its kind demands |
| IrelLexer.RenderLex | codegen/irel-compile.ts:294-367 | tokens written out with spaces are read back as the same tokens |
| IrelParser.Parser.ParseWhole | codegen/irel-compile.ts:377-387 | the mutable parser returns what the grammar functions define and demands the end marker |
| IrelParser.Parser.ParseOr | codegen/irel-compile.ts:389-403 | agrees with the grammar: a run of disjunctions, refused when an ungrouped conjunction stands beside it |
| IrelParser.Parser.ParseAnd | codegen/irel-compile.ts:405-412 | agrees with the grammar: a run of conjunctions |
| IrelParser.Parser.ParseNegation | codegen/irel-compile.ts:414-422 | agrees with the grammar: one ! before a sum or a comparison, refused for a comparison without parentheses |
| IrelParser.Parser.ParseCompare | codegen/irel-compile.ts:424-434 | agrees with the grammar: at most one comparison without parentheses |
| IrelParser.Parser.ParseSum | codegen/irel-compile.ts:436-445 | agrees with the grammar: left-associative sums |
| IrelParser.Parser.ParseOperand | codegen/irel-compile.ts:447-486 | agrees with the grammar: literals, signed numbers, groups, names |
| IrelParser.Parser.ParseName | codegen/irel-compile.ts:488-506 | agrees with the grammar: calls and dotted variables |
| IrelPrinter.ParseSound | codegen/irel-compile.ts:369-551 | every tree the parser returns has the grouping shape of the grammar, and exactly the end marker is left |
| IrelPrinter.ParsePrint | codegen/irel-compile.ts:369-551 | every tree of the grouping shape prints, with parentheses exactly at grouped nodes, to tokens that parse to the same tree |
| IrelPrinter.TextRoundTrip | codegen/irel-compile.ts:220-226 | the printed text is read back as the same tokens and the same tree |
| IrelPrinter.ReparseStable | codegen/irel-compile.ts:220-226 | printing what was parsed and parsing again changes nothing |
| IrelPrinter.ParserImage | codegen/irel-compile.ts:369-551 | a tree has the grouping shape exactly when some text parses to it |
| IrelPrinter.ParseExpression | codegen/irel-compile.ts:220-226 | tokenizer and parser together compute the text-level definition |
| IrelPrecedence.PrecedenceIndependent | codegen/irel-compile.ts:389-422 | a token list is accepted with a tree exactly when both reference grammars, one in which disjunction is looser and one in which conjunction is, give that same tree |
| IrelPrecedence.LooseIsFold | codegen/irel-compile.ts:389-412 | both grammars are folds over one flat list of operands and operators |
| IrelPrecedence.ReadAlike | codegen/irel-compile.ts:1215-1217 | the two folds of a list agree exactly when it uses one operator only |
| IrelTypes.ResolvePropertyLoop | codegen/irel-compile.ts:945-993 | walking the parameter schema in a loop resolves a path as the recursive definition does |
| IrelCompile.Check | codegen/irel-compile.ts:719-778 | type checking with a diagnostics list computes the specified type and diagnostics |
| IrelCompile.CheckVariable | codegen/irel-compile.ts:810-860 | resolves a variable by its root, with the specified diagnostics |
| IrelCompile.CheckNode | codegen/irel-compile.ts:862-943 | resolves a node variable: declared, an ancestor or a prior tier, and a known field |
| IrelCompile.Compile | codegen/static-validation.ts:426-451 | compiles a condition to a tree, or to the diagnostics that refuse it |
| IrelSoundness.TypeSoundness | codegen/irel-compile.ts:266-288 | an expression accepted at a type, evaluated where every mentioned variable has a value of its declared kind, gives a value of a kind in that type, or fails and then contains date_before or date_after |
| IrelLaws.Successor | codegen/irel-compile.ts:568-588 | for every expression that gives a number, it is below itself plus one and not above it, and the other way round for itself minus one |
| IrelLaws.Trichotomy | codegen/irel-compile.ts:568-588 | of two numeric expressions exactly one of less, equal and greater holds; the weak comparisons negate the opposite strict ones; greater is less turned round |
| IrelLaws.OrderedSums | codegen/irel-compile.ts:266-288 | less is transitive and kept by adding the same on both sides; adding and subtracting undo each other; sums commute and associate |
| IrelLaws.Equality | codegen/irel-compile.ts:568-588 | equality holds exactly between equal values of any kind, and inequality is its negation |
| IrelLaws.BooleanAlgebra | codegen/irel-compile.ts:559-566 | De Morgan, units, zeros and double negation for all boolean expressions |
| IrelLaws.NoShortCircuit | codegen/irel-compile.ts:559-566 | neither connective skips its right operand: if that fails, so does the whole |
| IrelLaws.StartsWith | codegen/irel-compile.ts:590-633 | starts_with holds exactly when the text is the prefix followed by something |
| IrelLaws.ContainsText | codegen/irel-compile.ts:590-633 | contains holds exactly when the text is something, the needle and something |
| IrelLaws.Lengths | codegen/irel-compile.ts:590-633 | len counts the characters, and a text is at least as long as what it starts with |
| IrelLaws.Coalescing | codegen/irel-compile.ts:590-633 | coalesce takes its fallback exactly when its first argument is null, and is null exactly when both are |
| IrelLaws.UnneededFallback | codegen/irel-compile.ts:590-633 | a fallback that would fail does no harm while it is not needed |
| IrelLaws.DateOrder | codegen/irel-compile.ts:590-656 | readable dates are ordered by the instants they stand for, and date_after is date_before turned round |
| IrelLaws.UnreadableDate | codegen/irel-compile.ts:641-656 | a date that cannot be read, or has a time of day without an offset, makes the comparison fail |
| IrelLaws.OffsetIff | codegen/irel-compile.ts:641-656 | the accepted offsets are exactly Z in either case and a sign with four digits, with or without a colon between them |
| IrelLaws.ArithmeticTexts | codegen/irel-compile.ts:207-292 | from the text to the truth: for all numbers m and n the six comparisons, the sum and the difference of their decimal texts are tokenized, parsed and evaluated to the comparison, sum and difference of m and n |
| IrelScopes.ResolveReads | codegen/irel-compile.ts:658-695 | a variable evaluates to exactly the scalar stored under its path in the scope, and is missing otherwise |
| IrelScopes.InferenceSound | codegen/irel-compile.ts:1043-1103 | every JSON value that conforms to a schema (const, enum, type name or list of names) with an inferred type is a scalar of a kind in that type |
| IrelScopes.InferenceTight | codegen/irel-compile.ts:1043-1103 | every atom inferred from a schema is the type of some conforming value |
| IrelScopes.NoTypeNoScalar | codegen/irel-compile.ts:1063-1078 | a type name from which nothing is inferred admits no scalar |
| IrelScopes.KeywordOrder | codegen/irel-compile.ts:1043-1061 | const decides before enum and enum before type; a keyword that lacks its own form does not count |
| IrelScopes.ObjectIff | codegen/irel-compile.ts:1080-1085 | a schema that names one type, or none, may have properties exactly when an object meets its type |
| IrelScopes.PropertyHasSchema | codegen/irel-compile.ts:945-993 | the type of a parameter path is inferred from the schema of the property the path leads to |
| IrelScopes.ShapedSupplies | codegen/irel-compile.ts:810-993 | where parameters conform to their schema and node outputs, flags, cursor and loop values have their documented forms, every variable has a value of the kind it was checked with |
| IrelScopes.CompiledDecidesShaped | codegen/irel-compile.ts:207-292 | a compiled condition decides in every such scope that has what it reads |
| IrelExact.OperatorExact | codegen/irel-compile.ts:719-778 | sums, comparisons by order and connectives are accepted exactly on operand types all of whose values go together at run time |
| IrelExact.CombineIsEval | codegen/irel-compile.ts:266-288 | going together at run time is what the evaluator makes of the operator's node once both operands have values |
| IrelExact.NegationExact | codegen/irel-compile.ts:719-778 | negation is accepted exactly where every value of the operand's type can be negated |
| IrelExact.EqualityExact | codegen/irel-compile.ts:1191-1195 | equality is refused only where equal values could be nothing but null or numbers, and where it is accepted and neither side is just null, some other value is common to both |
| IrelExact.SumTypeExact | codegen/irel-compile.ts:719-778 | the type of a sum holds every sum of values of the operand types, and each of its atoms is attained |
| IrelExact.SignatureExact | codegen/irel-compile.ts:780-808 | a call is accepted exactly when it has the right number of arguments and every choice of values of their types evaluates, unreadable dates excepted |
| IrelExact.ResultAttained | codegen/irel-compile.ts:780-808 | every atom of the type of an accepted call is the type of some result |
| IrelExact.CoalesceExact | codegen/irel-compile.ts:1024-1041 | coalesce is accepted only where the first argument can be null and every fallback fits what the first can be otherwise |
| IrelExact.UntilChecked | ir-expression.md:128 | the documented loop condition is boolean inside a loop with an integer max_pages and has no type outside |
| IrelExact.Vocabulary | ir-expression.md:50-60 | the names that may be used under flags, loop, cursor and node are exactly those listed |
| IrelSoundness.SuccessResolves | codegen/irel-compile.ts:658-676 | evaluation succeeds only if every variable outside a coalesce fallback resolves |
| IrelSoundness.AcceptedClean | codegen/irel-compile.ts:719-808 | an accepted expression has no diagnostics |
| IrelSoundness.RefusalDiagnosed | codegen/irel-compile.ts:719-808 | a refused expression has a diagnostic, if no variable it mentions has an empty type |
| IrelSoundness.SilentRefusal | codegen/irel-compile.ts:789 | a call on a variable of empty type is refused with no diagnostic |
| IrelSoundness.RefusalsExplainedIff | codegen/irel-compile.ts:780-808 | every tree that is refused is diagnosed exactly when no variable of the context has an empty type |
| IrelCompile.FitsHonest | codegen/irel-compile.ts:447-486 | parsed trees carry literals of the type they state |
| IrelCompile.CompiledDecides | codegen/irel-compile.ts:228-250 | a compiled condition is the parse of its text and evaluates to a boolean in every scope that fits its context, date failures excepted |
| IrelCompile.NeverDropped | codegen/static-validation.ts:426-451 | where no variable that can be written in a text has an empty type, every condition text is compiled or refused with a diagnostic |
| IrelCompile.SomeDropped | codegen/static-validation.ts:426-451 | any variable that can be written and has an empty type, nested or not, makes some condition text disappear silently |
| IrelCompile.DroppedIff | codegen/static-validation.ts:426-451 | no condition text is dropped silently exactly when no variable that can be written in a text has an empty type |
| ScenarioWitnesses.LossyScenarioAccepted | codegen/static-validation.ts:426-451 | a whole schema-valid scenario with a parameter of no choices that the validator accepts and whose only condition is missing from the compiled form |
| Scenarios.PriorityIssues | codegen/static-validation.ts:248-258 | reports something exactly when two branches of a node share a priority |
| Scenarios.TargetIssues | codegen/static-validation.ts:208-232 | reports one issue for every target that is malformed or undeclared |
| Scenarios.HandlerBranchIssues | codegen/static-validation.ts:234-246 | reports one issue for every branch whose target is an object |
| Scenarios.FallbackIssues | codegen/static-validation.ts:295-327 | once some tier is not read-only, reports one issue for every tier that lacks its idempotency key, and otherwise none |
| Scenarios.PathIssues | codegen/static-validation.ts:329-343 | reports one issue for every value path that is malformed or has another root |
| Scenarios.ActionIssues | codegen/static-validation.ts:471-482 | reports one issue for every file or shell action |
| Scenarios.CommandIssues | codegen/static-validation.ts:453-469 | reports one issue for every shell action outside the signed registry |
| Scenarios.EdgesIn | codegen/static-validation.ts:683-693 | the edges of a node are exactly its node targets |
| ScenarioCompile.GraphValid | codegen/static-validation.ts:683-693 | the graph has the scenario's nodes and exactly the edges its targets name |
| ScenarioCompile.ValidateExpressions | codegen/static-validation.ts:345-424 | the loops over branches, loop, tiers and witnesses compile a node as specified, each in its own context |
| ScenarioCompile.ValidateNode | codegen/static-validation.ts:161-177 | the errors and the warnings about a node are exactly those of the rules it breaks, each under its rule number; the compiled conditions are the specified ones |
| ScenarioCompile.LoopExitIssues | codegen/static-validation.ts:771-786 | the loop-exit rule never reports anything: the exit is an edge of its own loop node |
| ScenarioCompile.HasReachableTerminal | codegen/static-validation.ts:707-715 | answers whether a reachable node is terminal or ends without data |
| ScenarioCompile.CompileScenarioStatic | codegen/static-validation.ts:134-206 | the report is exact: every broken rule is reported under its number and about its node, nothing else is, and every cyclic component without a loop node has a reported member; there is no error exactly for accepted scenarios, no warning exactly for quiet ones, and the compiled conditions are returned exactly when there is no error |
| ScenarioCompile.NothingReported | codegen/static-validation.ts:161-177 | a node is accepted exactly when no rule reports about it, and quiet exactly when none warns |
| ScenarioMoves.EdgesAreMoves | codegen/static-validation.ts:660-693 | the graph has an edge exactly where the fields allow a move: next as a plain id or as a handler call with its return node, each branch target, each tier entry, loop body and loop exit |
| ScenarioMoves.TargetsBroken | codegen/static-validation.ts:788-832 | a target is malformed exactly when a field that is there has none of the forms it may have |
| ScenarioMoves.TargetsEnd | codegen/static-validation.ts:788-832 | a node can end without data exactly when next or a branch target is the reserved end |
| ScenarioMoves.AcceptedPaths | codegen/static-validation.ts:208-229 | every path of moves from the start of an accepted scenario stays on declared nodes, none of which has a malformed target |
| ScenarioMoves.AcceptedEnds | codegen/static-validation.ts:707-715 | from the start of an accepted scenario some path of moves ends at a terminal node or one that can end without data |
| ScenarioMoves.LongPathMeetsLoop | codegen/static-validation.ts:717-769 | a path longer than the number of nodes comes upon a node from which moves lead to a loop node and back |
| ScenarioRules.TiersIff | codegen/static-validation.ts:272-288 | the fallback rule is silent exactly when the tier names are taken from T0, T1, T2, T3 in that order, each at most once |
| ScenarioRules.LoopIff | codegen/static-validation.ts:484-512 | the loop rule is silent exactly when body and exit are named and the bound is a whole number from 1 to 10000 |
| ScenarioRules.WitnessIff | codegen/static-validation.ts:260-270 | the empty-result warning is absent exactly when a node that can end without data or ends in an empty success says when that is allowed |
| ScenarioRules.FallbackIff | codegen/static-validation.ts:295-327 | the idempotency rule is silent exactly when no tier entry changes anything or every tier entry has a non-empty idempotency key |
| ScenarioRules.ValuePathIff | codegen/static-validation.ts:329-343 | a value path is accepted exactly when it is a dotted list of identifiers that starts with extracted or node |
| ScenarioRules.PrioritiesIff | codegen/static-validation.ts:248-258 | priorities are accepted exactly when no two branches carry the same number |
| ScenarioRules.ConditionsIff | codegen/static-validation.ts:345-451 | a node is reported for its conditions exactly when one of its branch, loop, tier or empty-result conditions fails to compile in its own context, under rule 9 for unknown node fields and rule 8 otherwise |
| ScenarioRules.DecisionRefsIff | codegen/static-validation.ts:614-658 | the tasks whose decisions a condition refers to are exactly those whose decision variable it mentions anywhere |
| ScenarioRules.CompleteIff | codegen/static-validation.ts:545-593 | the decisions of a task are covered exactly when approve, reject, correct and retry are |
| ScenarioRules.HumanTaskIff | codegen/static-validation.ts:514-523 | a node declares a human task exactly when its next is a call of that handler |
| ScenarioRules.CorrectionsIff | codegen/static-validation.ts:525-543 | the corrections that may be referred to, and their types, are those of the last supported field under each key of the declared form |
| ScenarioTheorems.WalkStaysDeclared | codegen/static-validation.ts:149-193 | in an accepted scenario every walk from the start stays on declared nodes |
| ScenarioTheorems.AcceptedCanEnd | codegen/static-validation.ts:179-183 | in an accepted scenario some walk from the start ends at a node that is terminal or ends without data |
| ScenarioTheorems.LongWalkMeetsLoop | codegen/static-validation.ts:187-193 | a walk longer than the number of nodes enters a component that contains a loop node |
| ScenarioTheorems.CompilationComplete | codegen/static-validation.ts:345-451 | for schema-valid scenarios without empty parameter types, the compiled form keeps every branch, loop, fallback and witness condition in order |
| ScenarioTheorems.KeptDecides | codegen/static-validation.ts:345-451 | each kept condition is the parse of its source and evaluates to a boolean in every fitting scope, date failures excepted |
| ScenarioTheorems.QuietDecisionsHandled | codegen/static-validation.ts:545-593 | at a node without warnings whose decision is tested by plain equalities, each of the four values fires some branch |
| Decisions.WarnedTasks | codegen/static-validation.ts:545-593 | the loops over branches warn exactly about the tasks the rule names, each once |
| Decisions.EqualityDecides | codegen/static-validation.ts:600-612 | a bare decision equality evaluates to whether the decision is its literal |
| Decisions.HandledIff | codegen/static-validation.ts:545-638 | a value fires a literal-true branch or a plain equality on the task in every scope carrying it exactly when an equality covers it or a literal-true branch exists |
| Decisions.CoverageAgrees | codegen/static-validation.ts:545-638 | for a task referred to only by plain equalities: no warning exactly when each of the four decisions fires a literal-true branch or a plain equality on the task |
| Decisions.UnwarnedAnswered | codegen/static-validation.ts:545-638 | for a task referred to only by plain equalities: without a warning each of the four decisions fires some branch in every scope carrying it |
| Decisions.CoverageExact | codegen/static-validation.ts:545-638 | where every branch is a literal true or a plain equality on the task: no warning exactly when each of the four decisions fires some branch |
| Decisions.UnfoundedWarning | codegen/static-validation.ts:580-592 | a node that is warned although a branch that is always true answers every decision |
| Decisions.OthersDecide | codegen/static-validation.ts:580-592 | a decision without an equality of its own fires some branch in every scope carrying it exactly when the branches that do not test it do so by themselves |
| Decisions.WarningIsReal | codegen/static-validation.ts:545-638 | behind a warning is a decision value that makes every equality branch on that task false |
| Recording.DraftIrFromRecording | control-plane/minimal-handlers.ts:3606-3631 | the loop builds the specified draft: one step node per event in order with its action, side effect and successor, then done, and a schema of the declared inputs |
| Recording.RecordingAction | control-plane/minimal-handlers.ts:3633-3658 | returns the action of each event kind with its instruction and arguments, and adds at most the event's own property and required name |
| Recording.RequiredOnce | control-plane/minimal-handlers.ts:3633-3658 | with rising event numbers no required name is listed twice |
| Recording.StepIdDistinct | control-plane/minimal-handlers.ts:3606-3631 | step ids are distinct and never done |
| Recording.DraftIsChain | control-plane/minimal-handlers.ts:3606-3631 | the draft's graph is a chain through its ids |
| Recording.DraftPassesValidation | control-plane/minimal-handlers.ts:2799-2813 | the static validator yields no error and no warning on every draft, so the empty report is justified |
| Recording.DraftWalk | control-plane/minimal-handlers.ts:3606-3631 | every walk from the start visits the events in order |
| Recording.DraftWalkEnds | control-plane/minimal-handlers.ts:3606-3631 | a walk from the start that cannot go on has visited every event in order and stands at done |
| Recording.RefsDeclared | control-plane/minimal-handlers.ts:3633-3658 | every parameter a step refers to has a schema and is required |
| RecordingStore.Recordings.Start | control-plane/minimal-handlers.ts:2719-2750 | opens a session under an id never issued before |
| RecordingStore.Recordings.Append | control-plane/minimal-handlers.ts:2752-2797 | appends to an active session only, all given events in order or none, numbered on consecutively, other sessions untouched |
| RecordingStore.Recordings.Complete | control-plane/minimal-handlers.ts:2799-2813 | completes a session with the draft of its own events, no required name twice, and a report that running the validator would give |
| RecordingStore.JustifiedReport | control-plane/minimal-handlers.ts:2799-2813 | a completed session's draft is accepted without warnings |
| RecordingStore.SessionRequiresOnce | control-plane/minimal-handlers.ts:2770-2789 | events numbered as sessions number them never require a name twice |
| RunTraces.RunLanguage | codegen/transitions.ts:34-272 | a state and a word of events belong together exactly when some trace from queued gives them: nothing, a lone failure, or started, whole rounds of suspension and resumption, a part of one, at most one terminal event matching the state |
| RunTraces.TraceLegal | codegen/transitions.ts:34-272 | every trace from a legal run ends in a legal run |
| RunTraces.NoReturn | codegen/transitions.ts:34-272 | after aborting only cancelled follows, and after completing cancelled never does |
| GuardTraces.StatesAreGranted | codegen/transitions.ts:34-272 | no run gets ahead of its grants: one in progress was leased and then initialised, a completing one also reached a terminal, a completed one has all four grants in order |
| OutcomeTraces.ArrivalsAreCaused | codegen/transitions.ts:34-272 | in every trace from queued each state is entered exactly as often as a guarded event that causes it occurs, whatever the state before: requeues are init failures below the threshold, system failures the five guarded causes, and so on |
| OutcomeTraces.LeaseArrivals | codegen/transitions.ts:34-272 | leases are as many as claims and resumptions together, and a run is claimed once and again after every requeue |
| OutcomeTraces.AbortArrivals | codegen/transitions.ts:34-272 | abort requests and security exceptions are as many as the times the run started to abort or, completing, stayed as it was; escalations as many as the times it stayed suspended |
| OutcomeTraces.EndIsCaused | codegen/transitions.ts:34-272 | the end can be read off the history: a run is in a terminal state exactly when a cause of that state occurred, and then exactly once |
| OutcomeTraces.FailsUnstartedIff | codegen/transitions.ts:49-69 | a run fails before it has started exactly when an initialisation failed at the threshold |
| OutcomeTraces.EmissionsAreCaused | codegen/transitions.ts:34-272 | every event occurs in the word of a trace exactly as often as a guarded input that causes it, for all eight run events |
| OutcomeTraces.CommandsAreCaused | codegen/transitions.ts:34-272 | every command whose cause does not depend on the state is issued exactly as often as an input that causes it occurs |
| OutcomeTraces.BoundCommands | codegen/transitions.ts:34-272 | the worker is recorded at every claim, the session restored at every resumption, and an abort request rejected whenever the run is completing |
| OutcomeTraces.OneLease | codegen/transitions.ts:34-272 | leases taken less leases given back are none while the run is parked and exactly one while it works |
| OutcomeTraces.DrainedIff | codegen/transitions.ts:34-272 | closing the stream and draining the browser are asked for exactly when a run that holds a lease aborts |
| GuardTraces.AbandonmentsAreReplayed | codegen/transitions.ts:277-364 | in every trace of a work item abandonments equal authorized replays, plus one while abandoned; dead-letter and completion events equal their causes |
| EntityOutcomes.ItemArrivalsAreCaused | codegen/transitions.ts:277-364 | in every trace of a new item each state is entered exactly as often as an input that causes it occurs, and the terminal ones at most once |
| EntityOutcomes.CheckoutIff | codegen/transitions.ts:277-364 | an item can be checked out exactly when it is fresh, just replayed or just failed with attempts left and, on its first attempt, its reference is free or, on a later one, its backoff has elapsed; only a later attempt resets the loop counters |
| EntityOutcomes.ItemCommandsAreCaused | codegen/transitions.ts:277-364 | every command of an item is issued exactly as often as an input that causes it occurs |
| EntityOutcomes.TaskArrivalsAreCaused | codegen/transitions.ts:369-481 | in every trace of an open task each state is entered exactly as often as an event that causes it occurs |
| EntityOutcomes.TimeoutPolicy | codegen/transitions.ts:465-481 | over whole lives: a task just escalated expires on a timeout whatever its policy; any other open task expires under the fail policy, escalates under the other and has no timeout without one |
| EntityOutcomes.AssigneeIff | codegen/transitions.ts:369-463 | an assignee is recorded at every assignment and replaced by an escalation by hand or the assignment after an escalation of either kind |
| EntityTraces.ItemLanguage | codegen/transitions.ts:277-364 | exact language of work items: one dead-letter event per abandonment, at most one completion and last, and the failed-system state unreachable |
| EntityTraces.TaskLanguage | codegen/transitions.ts:369-481 | exact language of human tasks: any number of escalations, none while open, at least one once escalated, then at most one announced end |
| Entities.RunApplied | runtime/fake-store.ts:293-312 | an application moves a run legally from its stored state, or changes nothing |
| Entities.ItemApplied | runtime/fake-store.ts:314-333 | the same for work items, with attempts, pause mark and dead letter as specified |
| Entities.TaskApplied | runtime/fake-store.ts:335-354 | the same for human tasks |
| Entities.ReplayApplied | runtime/fake-store.ts:778-816 | a replay that goes ahead cannot miss: its abandoned item becomes new with no attempts, and nothing else changes |
| StoreHistories.RunCas | runtime/fake-store.ts:293-378 | over any run of the store with any stale expectations, a run's status and emissions are those of the transition function along the applied inputs from its seed |
| StoreHistories.ItemCas | runtime/fake-store.ts:314-405 | over any run of the store a work item's status and emissions are those of the transition function along the applied inputs from its seed, replays included |
| StoreHistories.TaskCas | runtime/fake-store.ts:335-431 | over any run of the store a human task's status and emissions are those of the transition function along the applied inputs from its seed |
| StoreHistories.StoredRunLegal | runtime/fake-store.ts:293-377 | a run seeded as queued has emitted a word of the run language that belongs to its stored status |
| StoreHistories.StoredItemLegal | runtime/fake-store.ts:314-405 | an item seeded as new has emitted a word of the item language that belongs to its stored status |
| StoreHistories.StoredTaskLegal | runtime/fake-store.ts:335-431 | a task seeded as open has emitted a word of the task language that belongs to its stored status |
| StoreCounters.ItemCounts | runtime/fake-store.ts:832-851 | over any run of the store an item's attempts are the failures applied to it since its last replay, on top of its seed, and its timer is paused exactly since the suspension that nothing has ended, at that time |
| StoreCounters.RunCounts | runtime/fake-store.ts:818-830 | over any run of the store a run's attempts are its seed plus the requeues applied to it, and it has an end exactly when an input ended it, at the time of that input |
| StoreCounters.TaskAssignee | runtime/fake-store.ts:853-857 | over any run of the store a task has an assignee exactly when it was ever assigned |
| StoreEvents.Realised | runtime/fake-store.ts:293-377 | every trace of the machine can be driven through the store with the same emissions |
| StoreEvents.LivesAreTraces | runtime/fake-store.ts:293-377 | the lives of queued runs in the store are exactly the traces of the machine |
| StoreEvents.OneSuspensionRow | runtime/fake-store.ts:876-910 | however often a run was suspended, the outbox has exactly one row for it |
| StoreEvents.SuspensionsCollapse | runtime/fake-store.ts:897-903 | for every count there is a run with so many suspensions and one row |
| StoreEvents.RowsArePairs | runtime/fake-store.ts:876-910 | the outbox has one row for every distinct pair of triggering event and emitted event of an entity, however often it occurred, and no other |
| StoreEvents.AtMostTwoDeadLetterRows | runtime/fake-store.ts:876-910 | however often an item was given up, the outbox has at most two dead-letter rows for it, one per cause |
| StoreEvents.ItemRealised | runtime/fake-store.ts:314-405 | every trace of the work item machine can be driven through the store with the same emissions |
| StoreEvents.AbandonmentsCollapse | runtime/fake-store.ts:897-903 | for every count there is an item that announced so many dead letters and has at most two rows for them |
| Outbox.OutboxSafety | runtime/fake-store.ts:433-502 | under every interleaving of appends with poll, publish and mark steps: one row per emitted key, marked rows and published list are prefixes of the outbox, nothing is published twice |
| Outbox.OnlyFittingDelivered | runtime/fake-store.ts:455-483 | whatever is handed to the outbox, no row is delivered that does not fit its schema or has a payload, and no key twice |
| StoreRuns.StoreOutboxSafe | runtime/fake-store.ts:356-502 | the same for the whole store, with transitions, replays and seeds as the source of rows |
| Outbox.AppendKeeps | runtime/fake-store.ts:433-445 | appending drafts keeps keys and ids distinct and adds exactly the missing keys |
| Outbox.PublishStep | runtime/fake-store.ts:455-483 | a publish step keeps the invariant: it delivers the first undelivered row or nothing |
| Outbox.MarkStep | runtime/fake-store.ts:485-489 | a mark step keeps the invariant: it extends the marked prefix by one or leaves it |
| Outbox.RelayIsRun | runtime/fake-store.ts:491-502 | a relay nobody interrupts is one run of the step machine |
| DeadLetters.DeadLetterRuns | runtime/fake-store.ts:859-874 | in every run no work item has two open records; if replays are closed in time every abandoned one has one |
| DeadLetters.InTimeIff | runtime/fake-store.ts:799-814 | over whole runs: all replays are closed in time exactly when after every step each abandoned work item has an open record |
| DeadLetters.CloseKeepsIff | runtime/fake-store.ts:814 | closing a replayed record loses its item exactly when that was abandoned again while the replay waited |
| DeadLetters.ReplayRace | runtime/fake-store.ts:799-814 | a run in which a replay waits too long and leaves an abandoned item that no replay finds |
| DeadLetters.ReplayRestores | runtime/fake-store.ts:778-816 | an abandoned item has exactly one open record; replaying it succeeds exactly when the item's id is not empty, and restores new with no attempts |
| DeadLetters.RefusedForever | runtime/fake-store.ts:783-786 | a closed record is refused after any further operations, whoever asks |
| BrowserLeases.OneLivePerSeat | runtime/fake-store.ts:521-596 | in every run at most one live lease per tenant, site and identity |
| BrowserLeases.GrantHolds | runtime/fake-store.ts:521-584 | what is acquired or renewed until a time is held until that time |
| BrowserLeases.HoldKeptIff | runtime/fake-store.ts:521-596 | until its time a hold survives a step exactly when the step is not the owner's drain, the owner's shorter renewal or a sweep past its expiry |
| BrowserLeases.SeatIsHeld | runtime/fake-store.ts:531-540 | over whole runs, an undisturbed hold puts off every acquisition at or before its time |
| BrowserLeases.RenewalShortens | runtime/fake-store.ts:560-584 | an owner can renew for less, and then another worker gets the seat before the time first granted |
| BrowserLeases.LostForever | runtime/fake-store.ts:560-584 | a lease that expired or left the live states is never renewed again |
| LeaseHistories.LeasesTell | runtime/fake-store.ts:521-596 | over any run every lease tells its story: seat, run and owner are those of its grant, its heartbeat is the last grant or renewal, its expiry that plus the time granted or the time of a drain since, and its state the last thing that happened to it |
| LeaseHistories.RetryAfter | runtime/fake-store.ts:531-540 | an acquisition put off by k milliseconds is put off until the clock has advanced by k and granted right after, if nothing else happens |
| Credentials.NeverOverLimit | runtime/fake-store.ts:598-648 | no more slots are held at once than the largest limit in force |
| Credentials.AcquireIff | runtime/fake-store.ts:610-648 | a request is put off exactly when every slot below the limit is held; otherwise it takes the lowest slot not held and only that one, whatever the limits were before |
| Credentials.AcquireCounts | runtime/fake-store.ts:610-648 | if no slot at or above the limit was ever used, a request is put off exactly when as many slots are held as the limit allows |
| Credentials.LoweredLimit | runtime/fake-store.ts:598-648 | a run in which the limit was lowered, as many slots are held as it allows, and a slot is given out all the same |
| Credentials.SlotKeptIff | runtime/fake-store.ts:610-691 | until its time a run keeps its slot over a step exactly when the step is not anybody's release, its own shorter renewal or a sweep past its time |
| Credentials.SlotIsKept | runtime/fake-store.ts:664-691 | over whole runs a kept slot is renewable by its run only and given to nobody |
| SlotHistories.SlotsTell | runtime/fake-store.ts:610-691 | over any run every slot that was ever used tells its story since it was last taken: run, item and time of acquisition, the time of the last renewal, and whether it is in use, released or overrun |
| RuntimeStore.Store.ApplyRunEvent | runtime/fake-store.ts:293-377 | updates the store as the specified application does |
| RuntimeStore.Store.ApplyWorkitemEvent | runtime/fake-store.ts:314-405 | updates the store as the specified application does |
| RuntimeStore.Store.ApplyHumanTaskEvent | runtime/fake-store.ts:335-431 | updates the store as the specified application does |
| RuntimeStore.Store.OutboxDraftsForTransition | runtime/fake-store.ts:876-910 | one draft per emitted event with the next ids and its index in the key |
| RuntimeStore.Store.AppendOutboxDrafts | runtime/fake-store.ts:433-445 | map, order list and key index grow by the drafts with new keys, which are returned; with unused ids the outbox in order is the specified one |
| RuntimeStore.AddAllKeeps | runtime/fake-store.ts:433-445 | with unused ids the three outbox fields stay consistent and list what appending the drafts to the list of rows gives |
| RuntimeStore.Store.PollUnpublished | runtime/fake-store.ts:447-453 | returns the first unmarked rows in order |
| RuntimeStore.Store.Publish | runtime/fake-store.ts:455-483 | delivers once per key, answers duplicate otherwise, refuses rows that do not fit |
| RuntimeStore.Store.MarkPublished | runtime/fake-store.ts:485-489 | marks the row of an id and no other |
| RuntimeStore.Store.RelayOutboxBatch | runtime/fake-store.ts:491-502 | polls, publishes and marks as the specified batch does, with the answer to each row |
| RuntimeStore.Store.Replay | runtime/fake-store.ts:778-816 | answers and changes the store as the specified replay does |
| RuntimeStore.Store.CreateDlqForSideEffect | runtime/fake-store.ts:859-874 | adds a record unless the item has an open one or none is asked for |
| RuntimeStore.Store.Create | runtime/fake-store.ts:757-776 | is the step of a run of the store that adds a record under a fresh id without looking for others |
| RuntimeStore.Store.AdvanceMs | runtime/fake-store.ts:181-184 | is the step of a run of the store that moves the clock |
| RuntimeStore.Store.SeedRun | runtime/fake-store.ts:186-207 | is the step of a run of the store that puts a run in place, whatever was there |
| RuntimeStore.Store.SeedWorkitem | runtime/fake-store.ts:209-232 | is the step of a run of the store that puts a work item in place, whatever was there |
| RuntimeStore.Store.SeedHumanTask | runtime/fake-store.ts:234-257 | is the step of a run of the store that puts a human task in place, whatever was there |
| RuntimeStore.Store.SetCredentialMaxConcurrency | runtime/fake-store.ts:598-608 | sets the limit of an account, above or below the slots in use |
| RuntimeStore.Store.AcquireBrowser | runtime/fake-store.ts:521-558 | answers and changes the leases as the specified step does |
| RuntimeStore.Store.RenewBrowser | runtime/fake-store.ts:560-584 | answers and changes the leases as the specified step does |
| RuntimeStore.Store.DrainBrowser | runtime/fake-store.ts:586-596 | changes the leases as the specified step does |
| RuntimeStore.Store.AcquireCredential | runtime/fake-store.ts:610-648 | the slot loop answers and changes the slots as the specified step does |
| RuntimeStore.Store.RenewCredential | runtime/fake-store.ts:664-691 | answers and changes the slots as the specified step does |
| RuntimeStore.Store.ReleaseCredential | runtime/fake-store.ts:650-662 | releases a slot whoever asks |
| RuntimeStore.Store.SweepExpired | runtime/fake-store.ts:693-715 | ends exactly the live leases and used slots past the given time and reports them in insertion order |
| CanonicalTheorem.CanonicalIff | control-plane/fake-request-runner.ts:754-760 | two values have the same canonical text exactly when they are equal up to the order of keys |
| CanonicalTheorem.TextUnique | control-plane/fake-request-runner.ts:754-760 | no text is another text followed by what may follow a value |
| CanonicalTheorem.NormalSame | runtime/fake-store.ts:1057-1065 | sorting keys at every level gives the same value exactly for values that are equal up to the order of keys |
| CanonicalTheorem.QuoteUnique | control-plane/fake-request-runner.ts:754-760 | a quoted string ends at its own closing quote and determines its content |
| CanonicalTheorem.RequestIff | control-plane/fake-request-runner.ts:745-752 | requests are told apart by method, path and body up to key order, and by nothing else |
| CanonicalReader.CanonicalRoundTrip | control-plane/fake-request-runner.ts:754-760 | a reader that follows the grammar of RFC 8259 gets every value back from its canonical text, with nothing left over and the keys of every object ascending |
| CanonicalReader.ReadText | control-plane/fake-request-runner.ts:754-760 | every value is read back from its text, whatever may follow a value |
| CanonicalReader.ReadEscaped | control-plane/fake-request-runner.ts:754-760 | the inside of every quoted string is read back character by character up to its closing quote |
| CanonicalReader.LessIff | control-plane/fake-request-runner.ts:758 | one key comes before another exactly when it is a proper prefix or has the lesser character at the first difference |
| Idempotency.Store.Reserve | control-plane/fake-request-runner.ts:305-341 | answers and records a reservation as specified |
| Idempotency.Store.FindByRecordId | control-plane/fake-request-runner.ts:369-374 | finds the record of an id, or that there is none |
| Idempotency.Store.SaveResult | control-plane/fake-request-runner.ts:343-347 | saves a response under its record only, and tells whether there was one |
| Idempotency.Store.SaveFailure | control-plane/fake-request-runner.ts:349-357 | saves an error with the answer its code stands for, under its record only |
| Idempotency.Store.Release | control-plane/fake-request-runner.ts:359-367 | drops a record that is still in process and no other |
| Idempotency.ReleaseReopens | control-plane/fake-request-runner.ts:359-367 | a slot can be reserved afresh after a release exactly when it was free or in process under that record |
| Idempotency.IfMatchStore.Check | control-plane/fake-request-runner.ts:380-390 | matches the stored version, or any version the first time, and moves on by one |
| RequestRunner.Runner.Inject | control-plane/fake-request-runner.ts:157-204 | one uninterrupted request is the sequence of the protocol's steps; RequestAnswers.AloneAnswer says what it is answered |
| RequestRunner.AtMostOnce | control-plane/fake-request-runner.ts:100-205 | in every interleaving no two handler starts are for the same tenant, operation and key |
| RequestRunner.SameAnswer | control-plane/fake-request-runner.ts:157-204 | everyone answered from a record, its owner or a later request, gets the same status and body |
| RequestRunner.LaterRequest | control-plane/fake-request-runner.ts:226-263 | what a later request of a held key gets: refusal for a different hash, the owner's answer once it has finished, otherwise a request to wait |
| RequestAnswers.AnswerIff | control-plane/fake-request-runner.ts:157-263 | in every interleaving the answer of a request is exactly what one of its own steps came to: its handler's response, or the catalogue's status for the code the handler refused with and the request's own correlation id and details; its failed If-Match check; or its reservation, where it is refused, told to wait, or given the answer of the request that holds its key |
| RequestAnswers.HandlerAnswer | control-plane/fake-request-runner.ts:186-204 | once its handler has ended, a request has exactly the handler's answer, whatever else goes on |
| RequestAnswers.TwinAnswer | control-plane/fake-request-runner.ts:157-263 | a later request with the same key and hash gets the holder's handler's answer, once that is saved |
| RequestAnswers.ReplayedFromWork | control-plane/fake-request-runner.ts:226-263 | an answer from a record is the answer of one other request, with the same key and hash, that finished on its own |
| RequestAnswers.RowsAreKept | control-plane/fake-request-runner.ts:226-263 | every record was reserved by one of the requests, which went on from there |
| RequestAnswers.AloneAnswer | control-plane/fake-request-runner.ts:157-204 | an uninterrupted request whose handler is called ends with the handler's answer |
| RequestAnswers.AloneRepeats | control-plane/fake-request-runner.ts:157-263 | if it is keyed, the same request, made again, is given that answer from the record |
| RequestCrashes.CrashedIff | control-plane/fake-request-runner.ts:178-204 | in every interleaving a request has crashed exactly when one of its own steps read an If-Match id that cannot be read, past its reservation, or ended a handler that threw anything but an API error |
| RequestCrashes.HandlerCrashIff | control-plane/fake-request-runner.ts:189-204 | a request whose If-Match id can be read, as all do that get past either resolver of the repository, has crashed exactly when its handler threw in that run |
| RequestCrashes.AloneCrashesIff | control-plane/fake-request-runner.ts:157-204 | an uninterrupted request crashes exactly when its reservation succeeds and either its If-Match id cannot be read, or it needs no check or passes it and its handler throws |
| RequestCrashes.CanFinishIff | control-plane/fake-request-runner.ts:157-204 | past its own reservation a request can still finish exactly when it has not crashed and is not about to read an If-Match id that cannot be read |
| RequestCrashes.CrashWedges | control-plane/fake-request-runner.ts:226-263 | a crashed or doomed holder leaves its key waiting: every later request with its hash is told to wait, after any further steps |
| RequestCrashes.ServedIff | control-plane/fake-request-runner.ts:226-263 | a later request with the hash of a holder can still be answered from the record exactly when the holder is not doomed |
| RequestCrashes.ThrowWedges | control-plane/fake-request-runner.ts:189-204 | a run for any keyed request in which its handler throws and its repetition is told to wait |
| RequestCrashes.UnreadableWedges | control-plane/fake-request-runner.ts:178 | a run for any keyed request that holds its record when its If-Match id turns out to be unreadable, in which its repetition is told to wait; it takes an authorization resolver supplied by the caller, since both resolvers of the repository read the same id earlier (lines 639-643) and throw with no record held |
| RequestRunner.MatchedOnce | control-plane/fake-request-runner.ts:380-390 | no version of a resource is matched twice, however requests interleave |
| RequestRunner.MatchedInOrder | control-plane/fake-request-runner.ts:380-390 | however requests interleave, the matched versions of a resource are consecutive from the first on, and the stored one is the next |
| RequestReplay.ReplayedIff | control-plane/fake-request-runner.ts:745-752 | after a keyed request has finished, a later one is given its answer exactly when method, path and body, up to key order, are the same |

## Left out

- The text of a validation issue: an issue is its rule and its node, and the number of issues is modelled, not which target, path, tier or action each names.
- The name, version and mode in a draft scenario's `meta`.
- Diagnostic texts, source lines and columns, and the order in which illegal cycles are reported.
- Floating-point rounding, overflow and negative zero: numbers are reals, and canonical numbers are an abstract type with an injective printer.
- UTF-16 code units: strings are sequences of characters, so lengths and the sort order of keys outside the basic plane may differ from the source.
- `Date.parse`: a parameter of the evaluator; clock readings are integers.
- SHA-256 and HMAC: the request hash is represented by the canonical text it is taken of, that is, taken as collision-free; resume tokens are not modelled.
- Concatenated string keys (tenant, id and so on) are tuples, so collisions through separators are not modelled.
- Lookups that reach JavaScript's object prototype.
- Row fields that are only copied (correlation ids, worker ids, evidence references, isolation and cleanup policy of leases); creation times of rows.
- RuntimeStore.Store.Replay: is the uninterrupted replay; its two halves with others in between are in `StoreRuns`.
- RequestRunner.Runner.Inject: starts at the reservation; routing, authentication, validation and authorization come before it and are not modelled, and what the handler comes to is a parameter.
- RequestCrashes.UnreadableWedges: starts at the reservation, so it does not show a request of the repository's own configurations; there the authorization step, which is not modelled, throws first.
- StoreRuns.StoreOutboxSafe: assumes that nobody but relays publishes or marks rows, as in the source's own callers.
- DeadLetters.DeadLetterRuns: assumes that records come from transitions only and no item is seeded as abandoned, because `create` and the seeding methods check nothing.
- BrowserLeases.SeatIsHeld: assumes that the clock does not go back.
- BrowserLeases.LostForever: assumes that the clock does not go back.
- Credentials.SlotIsKept: assumes that the clock does not go back.
- Query strings are not part of the request hash in the source either.
- The worker's job dispatch, the other control-plane handlers, the gateway, the error catalogue's contents, role matrix, operation registry and JSON schemas.
- The interpreter, workers and database that the repository describes elsewhere.
