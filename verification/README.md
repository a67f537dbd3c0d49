# Model of the workflow engine

A workflow engine runs jobs: lists of tasks with dependencies, each task carried out by a handler, with retries, a
final check of constraints, and a state machine around the whole. This project models its engine and states what it
keeps over whole runs.

- `Graphs`, `CycleCheck`, `DagPlanner`, `Optimizer`, `Sorting`: dependency graphs, the shared depth-first cycle
  search, Kahn levels, the memoised critical path, and the two-stage optimizer, against declarative notions of chain,
  cycle, depth.
- `Jobs`, `Validator`, `Services`: job definitions and the gate that accepts them; how runs come into being.
- `Workflow`, `StateMachine`, `Retry`, `Scheduler`, `RunLoop`, `RunTheorems`, `RunTraces`, `RunOutputs`: a run as a
  loop over task runs, for an arbitrary oracle of handler outcomes; its invariant, its outcome, the order of its
  handler calls, and what the tasks hold at the end.
- `Orchestrator`, `Execution`: the same loop as the imperative service over two stores, locks and dead letters, proved
  to leave exactly what the loop on values computes.
- `Scanning`, `ExprTokenizer`, `ExprParser`, `ExprRoundTrip`: the expression language.
- `DslAst`, `DslLexer`, `DslParser`, `DslGrammar`, `DslRoundTrip`, `DslDivergence`, `DslCompiler`: the workflow
  language down to the characters, the grammar its parser accepts, where its parser hangs, and what becomes of a
  compiled text.
- `ParallelExecutor`: workers that share an index and a map, under every interleaving.
- `Saga`, `Cron`, `Pool`, `CircuitBreaker`: forward and compensating steps over aliased objects, schedules, the
  priority pool and the breaker.

Verify with `dafny verify dfyconfig.toml`, or with more checks by

```sh
dafny verify --resource-limit 2000000 --verification-time-limit 0 --warn-contradictory-assumptions *.dfy
```

Handlers, clocks, random ids and the outcome of the constraint check are parameters. A handler returns, declines or
throws as an oracle says; every theorem holds for every oracle. An exception is an error result.

Where code and documentation disagree, the model follows the code:

- A task gets at most max(1, `maxAttempts` − 1) attempts, because the attempt compared was already counted
  (`src/workers/retry-handler.ts:18-19`), and the first retry waits with exponent 1 instead of 0.
- Dead-lettering after the retry budget (`docs/runbook.md:27`) happens only when `maxAttempts` is 1: with larger
  values the attempts never add up to `maxAttempts` times the number of tasks
  (`src/services/execution-service.ts:118-119`).
- `optional` has no effect on a run (`RunTraces.OptionalIsIgnored`): the completion guard wants every task to have
  succeeded (`src/engine/transition-guard.ts:36-45`), and a failing optional task fails the run.
- A lock conflict is thrown outside the `try` block and leaves the local lock of the run behind
  (`src/services/execution-service.ts:40-44`). Nothing in the repository acquires a lock under a second owner name, so
  the conflict takes another caller of the registry; and a lock held under an empty name is taken over
  (`src/engine/run-lock.ts:9`).
- The planner drops tasks that list a dependency twice or an unknown one, and the optimizer drops all but the last
  task of an id. Both conditions are exact (`DagPlanner.NothingDropped`, `Optimizer.DuplicateIdIsLost`).
- The expression parser cannot read the string literals `"-"` and `"!"`: it tests the text of a token without its
  type.
- The parser of the workflow language never looks at what follows the closing brace, and hangs on an unexpected token
  inside a constraint.
- A schedule whose next run cannot be found stays due and fires at every poll, also twice in one minute
  (`src/services/schedule-service.ts:53-54`); a schedule for 29 February does so (`Cron.LeapDayFiresTwice`), and the
  exact condition is `Cron.NoMinuteTwiceExactly`.

## Model

| member | source | states |
|---|---|---|
| RunTheorems.FreshRunOutcome | src/services/execution-service.ts:56-131 | For every accepted job, fresh run, and any handler outcomes: the run has failed (or is dead-lettered) if and only if the last handler call failed at the attempt cap, and then exactly one task has failed and all others succeeded or are untouched; otherwise every task has succeeded, and the run is completed if and only if the constraints do not block. It never waits and the completion guard never trips. At most n·cap handler calls are made, and at most n·(cap−1)·maxDelayMs is slept. |
| RunOutputs.FreshRunReports | src/services/execution-service.ts:88-98 | At the end of a fresh run, for any outcomes: a task has succeeded if and only if the last call made for it returned, and then it holds exactly the output of that call; after a last call that declined or threw it holds the message of that call; a task never called is untouched. |
| RunOutputs.ExecuteReports | src/workers/task-executor.ts:29-65 | The same over any execution of any matching workflow, together with the attempt count of the last call: ids and handlers never change, and an output comes only from a call that returned. |
| RunTheorems.NobodyWaits | src/workers/scheduler.ts:6-32 | In an accepted job whose loop invariant holds, no runnable task means that every task has succeeded, optional or not: acyclicity excludes waiting. |
| RunTheorems.DriveEnds | src/services/execution-service.ts:56-115 | The loop from any invariant state ends in one of the three ways only, keeping what has succeeded. |
| RunTheorems.DriveIsBounded | src/services/execution-service.ts:56-115 | From any state of the loop, handler calls and time slept are bounded by the attempts that are left, for any outcomes. |
| RunTheorems.ExecuteKeepsPhase | src/services/execution-service.ts:35-136 | A call of `executeRun` takes every reachable state between calls to a reachable one. |
| RunTheorems.SettledStays | src/services/execution-service.ts:54-131 | Executing a completed, failed or dead-lettered run again changes nothing and calls no handler. |
| RunTheorems.RunsStayInPhase | src/services/execution-service.ts:117-131 | After any number of calls of `executeRun`: dead-lettered if and only if a task has failed, `maxAttempts` is 1 and every task has been attempted; failed or dead-lettered if and only if some task has failed; waiting is never reached. |
| RunTheorems.BudgetIs | src/services/execution-service.ts:118-119 | The summed attempts of a failed run reach `maxAttempts`·n if and only if `maxAttempts` is 1 and every task was attempted. |
| RunTheorems.EndingIs | src/services/execution-service.ts:58-86 | How the loop ends when nothing is runnable, on the fields of the tasks: waiting if and only if a non-optional task is not finished; otherwise the constraint error, the refusal of an unfinished optional task, or completion. |
| RunLoop.IterateKeepsInv | src/services/execution-service.ts:88-114 | One pass keeps the loop invariant: attempts within the cap, attempted tasks have their dependencies done, a task between two attempts is the one picked next; or it fails exactly one task at the cap. |
| RunLoop.WorkDrops | src/services/execution-service.ts:88-114 | The summed remaining attempts drop in each pass: the loop ends. |
| RunLoop.IterateIs | src/services/execution-service.ts:88-113 | What one attempt makes of the one task run: one attempt more; after a handler that returned, succeeded with exactly its output; after one that declined or threw, its message, and queued again or, at the cap, failed; everything else as before. The handler called is the one the definition names, and the delay is the computed one. |
| RunLoop.NextRunnableIs | src/workers/scheduler.ts:6-32 | The task picked is the first that is queued or failed and whose dependencies have all succeeded or been skipped; none is picked if and only if there is none. |
| RunTraces.CalledAfterDependencies | src/services/execution-service.ts:57-98 | Over a whole run, when a handler is called for a task, an earlier call for each of its dependencies has succeeded. |
| RunTraces.AttemptsAreContiguous | src/services/execution-service.ts:88-104 | Calls for one task are made in one go with consecutive attempt numbers, each but the last followed by a sleep, and the sleeps never get shorter. |
| RunTraces.CallsAndSleeps | src/services/execution-service.ts:88-104 | Each call of a fresh run is made for a task of the job with the handler its definition names, and the sleep after attempt a is the initial delay multiplied a times by the factor, rounded down and cut off at the ceiling. |
| RunTraces.RunsInListOrder | src/workers/scheduler.ts:9-21 | A job listed dependency-first starts its tasks in exactly the list order, whatever the handlers do. |
| RunTraces.OptionalIsIgnored | src/engine/transition-guard.ts:36-45 | Changing which tasks are optional changes nothing about a run: not its calls, its error, its outcome. |
| Scheduler.FirstEligibleIs | src/workers/scheduler.ts:9-21 | The task picked is the first definition that is neither done nor busy and has its dependencies met. |
| Scheduler.EligibleIff | src/workers/scheduler.ts:9-21 | A definition may start if and only if its run is queued, failed or absent, and each dependency has a run that succeeded or was skipped. |
| Retry.RetriedBelowCap | src/workers/retry-handler.ts:17-24 | A failing attempt is retried if and only if fewer than max(1, maxAttempts−1) attempts have been used, and then after the computed delay. |
| Retry.BackoffGrows | src/domain/retry-policy.ts:10-16 | Later retries never wait less than earlier ones and never more than the ceiling. |
| Retry.BackoffIs | src/domain/retry-policy.ts:10-16 | The delay is the initial delay times the factor once per earlier attempt, rounded down and cut off at the ceiling. |
| Retry.RunTaskRecords | src/workers/task-executor.ts:29-85 | After a success the output is the handler's and the old message stays; after a failure the message is the handler's and the old output stays; id, definition and handler never change. |
| Execution.ExecutionService.AttemptTask | src/services/execution-service.ts:88-104 | The stores hold the result of the attempt, and of queueing it again for a retry; the handler call names the definition's handler and is the one computed on values (`RunLoop.IterateIs` says what that is). |
| Execution.ExecutionService.Loop | src/services/execution-service.ts:56-115 | The imperative loop over the stores leaves the workflow and the error, and makes the handler calls, that the loop on values computes (`RunTheorems.FreshRunOutcome` and `RunOutputs.FreshRunReports` say what these are). |
| Execution.ExecutionService.Decide | src/services/execution-service.ts:117-131 | The dead-letter decision, its transition and its entry. |
| Execution.ExecutionService.ExecuteRun | src/services/execution-service.ts:35-136 | The whole method, locks included: stores, error, handler calls and dead letters are what the execution on values computes; the first missing record is named, and it or a held lock leaves records, dead letters and calls alone; a conflicting registry lock leaves the local lock behind. |
| Execution.RunLockRegistry.Acquire | src/engine/run-lock.ts:7-13 | Refused exactly when another owner with a name holds the lock, and then nothing changes. |
| Execution.RunLockRegistry.Release | src/engine/run-lock.ts:15-19 | Frees only the owner's own lock. |
| Orchestrator.WorkflowOrchestrator.ApplyTransition | src/engine/orchestrator.ts:33-69 | A denied transition changes neither store; an allowed one is stored, and the run record mirrors state and terminality. |
| StateMachine.HistoryStaysConnected | src/engine/state-machine.ts:12-37 | After any sequence of transitions and task updates the history is a path of table rules from pending to the current state, the version counts it, the run mirrors it, and a terminal state and its history are final. |
| StateMachine.ApplyKeepsConsistent | src/engine/orchestrator.ts:33-53 | Each single operation keeps history, version, status and finish mark consistent. |
| StateMachine.NextIs | src/engine/transition-guard.ts:13-46 | A transition goes through if and only if a rule and the guard allow it, and then appends one history entry and counts the version; otherwise which of the errors is raised. |
| StateMachine.TableIs | src/validators/transition-validator.ts:7-36 | The transitions that the table allows, one by one. |
| StateMachine.TerminalIsAbsorbing | src/validators/transition-validator.ts:24-36 | A state is terminal if and only if no rule leaves it. |
| Validator.Validate | src/validators/job-definition-validator.ts:5-30 | The messages collected are exactly the defects of the definition. |
| Validator.ValidateTask | src/validators/job-definition-validator.ts:32-44 | Adds exactly the messages about this task. |
| Validator.NoDefectIsWellFormed | src/validators/job-definition-validator.ts:5-44 | No message if and only if the definition is well-formed. |
| Validator.ValidateDependencyOrder | src/validators/job-definition-validator.ts:46-68 | Throws if and only if the dependency relation has a cycle, and names a task on one. |
| CycleCheck.CycleSearch.Visit | src/engine/dag-planner.ts:96-104 | The depth-first visit keeps a finish order in which dependencies come first, or reports a task that reaches itself; it terminates on every input. |
| CycleCheck.FindCycle | src/engine/dag-planner.ts:93-106 | Sound and complete cycle detection for any relation, unknown ids included. |
| Graphs.OrderedIsAcyclic | src/engine/dag-planner.ts:93-106 | A listing with dependencies first exists only without a cycle. |
| DagPlanner.Plan | src/engine/dag-planner.ts:29-35 | Throws if and only if there is a cycle. Otherwise exact levels, each listing its tasks in exactly the order in which they are freed; and a critical path that is a genuine chain, has weight `estimatedMs`, is outweighed by no chain, and is that of the first task in insertion order to outweigh all before it. |
| DagPlanner.BuildGraph | src/engine/dag-planner.ts:16-27 | The graph of a task list, last task of an id winning, ids in the order of their first task; refused exactly on a cycle. |
| DagPlanner.TopologicalLevels | src/engine/dag-planner.ts:37-59 | Level j holds, once each, exactly the plannable tasks whose longest chain of prerequisites has j tasks, in the order in which the tasks of the level below free them. |
| DagPlanner.Release | src/engine/dag-planner.ts:49-54 | One placed task lowers the in-degree of each dependent by one and appends those that reach zero, in insertion order. |
| DagPlanner.PathMemo.LongestFrom | src/engine/dag-planner.ts:71-91 | The memoised recursion equals the unmemoised one and keeps the memo right. |
| DagPlanner.CriticalPath | src/engine/dag-planner.ts:61-69 | A heaviest chain of the graph, and of the heaviest the first found. |
| DagPlanner.NoneHeavier | src/engine/dag-planner.ts:61-69 | The path chosen by the scan over all tasks is a chain that no chain of the graph outweighs. |
| Graphs.LongestIsHeaviest | src/engine/dag-planner.ts:71-91 | The recursion finds a chain that no chain ending at the same task outweighs. |
| Graphs.DepthIsLongestChain | src/dsl/optimizer.ts:29-33 | A task's depth is the length of the longest chain of prerequisites that ends at it. |
| DagPlanner.PlannedOnce | src/engine/dag-planner.ts:37-59 | A task is on a level if and only if it is plannable, and on one level only. |
| DagPlanner.PrerequisitesEarlier | src/engine/dag-planner.ts:46-57 | Every prerequisite of a planned task is on an earlier level. |
| DagPlanner.NothingDropped | src/engine/dag-planner.ts:39-54 | No task is dropped if and only if every task lists only known dependencies, each once. |
| Optimizer.SortTasksTopologically | src/dsl/optimizer.ts:10-26 | For any input one task per id; dependency-first when acyclic, and then in exactly the order of the plain recursion, each id where it is first met; a list already in order is kept. |
| Optimizer.NaiveKeepsOrder | src/dsl/optimizer.ts:15-25 | The recursion that defines the order keeps any list that is already dependency-first. |
| Optimizer.MergeParallelTasks | src/dsl/optimizer.ts:28-35 | For any input, cyclic or not, the stable sort by the depths that one pass over the list computes. |
| Optimizer.DepthsAreTrue | src/dsl/optimizer.ts:29-33 | On a dependency-first list of an acyclic relation the depths computed in one pass are the lengths of the longest chains. |
| Optimizer.Optimize | src/dsl/optimizer.ts:4-8 | For any input: one task per distinct id (the last), the same relation, sorted by the computed depths; dependency-first if and only if acyclic and then by true depth; an optimal list is a fixed point. |
| Optimizer.DuplicateIdIsLost | src/dsl/optimizer.ts:11-22 | The result is a permutation of the input if and only if the ids are distinct. |
| Sorting.StableSortUnique | src/dsl/optimizer.ts:34 | Sortedness and stability determine the sort completely. |
| Services.JobService.Register | src/services/job-service.ts:25-53 | Only accepted definitions are stored, with the given relation and each timeout the smaller of the given one and twice the manifest's; a rejection changes nothing and names the first unknown handler, the defects, or a task on a cycle; accepted if and only if handlers are known and the input passes both checks (manifest timeouts positive). |
| Services.JobService.ResolveTasks | src/handlers/resolver.ts:7-16 | Every timeout becomes the smaller of the given one and twice the manifest's default, or stays if there is no manifest; every other field stays. |
| Services.WorkflowService.CreateRun | src/services/workflow-service.ts:19-62 | Fails if and only if the job is unknown, and then stores nothing; otherwise the definition is an accepted one, the new instance is pending with one queued run per task in order, named after its task and handler, which is the fresh state that every theorem about runs starts from, and the run record mirrors it. |
| ExprTokenizer.Tokenizer.Tokenize | src/expressions/tokenizer.ts:22-60 | The cursor loop computes the token list that the specification names. |
| ExprTokenizer.TokenizeInvertsSpelling | src/expressions/tokenizer.ts:22-95 | Spelling any tokens and tokenizing the text gives them back. |
| ExprTokenizer.LayoutIsIgnored | src/expressions/tokenizer.ts:22-66 | Any tokens, with any white space before, between and behind them that keeps them apart, are read as those tokens. |
| ExprTokenizer.TokensAreTerminated | src/expressions/tokenizer.ts:22-60 | For any input only spellable tokens come out, then one end mark. |
| ExprTokenizer.OneCharacter | src/expressions/tokenizer.ts:22-60 | What every one-character text is read as, characters written out. |
| ExprTokenizer.TwoCharacters | src/expressions/tokenizer.ts:66-95 | Which two characters stand together in one token: a letter and a part of an identifier, a digit and a part of a number, and the six two-character operators. |
| Scanning.LetterIs | src/expressions/tokenizer.ts:52 | The letters are the 52 and the underscore. |
| ExprParser.ExpressionParser.ParseInput | src/expressions/parser.ts:9-17 | The recursive descent over a mutable cursor computes the parse by precedence levels, which `ExprRoundTrip` ties to precedences written out. |
| ExprParser.ExpressionParser.ParseOr | src/expressions/parser.ts:19-26 | The `||` loop builds left-associative trees as specified and never moves past the end mark. |
| ExprParser.ExpressionParser.ParseComparison | src/expressions/parser.ts:37-45 | At most one comparison is read. |
| ExprParser.ExpressionParser.ParseUnary | src/expressions/parser.ts:65-75 | Prefix operators, tested by the text of a token alone. |
| ExprParser.ExpressionParser.ParsePrimaryNode | src/expressions/parser.ts:77-114 | Literals, identifiers, calls and parentheses, with the same failures. |
| ExprParser.Parse | src/expressions/parser.ts:19-114 | A successful parse moves on and never consumes the end mark. |
| ExprRoundTrip.ReadsBack | src/expressions/parser.ts:19-114 | The rendering of a tree for any level, with the precedences written out (`||` below `&&` below the comparisons below `+ -` below `* /`), standing anywhere in a token list, is read back as that tree. |
| ExprRoundTrip.ParseInvertsPrint | src/expressions/parser.ts:9-114 | Printing any writable tree with the fewest parentheses that those precedences allow, and parsing the text, gives the tree back. |
| ExprRoundTrip.FewestTokens | src/expressions/parser.ts:9-114 | Of all texts that parse to a tree its printing has the fewest tokens. |
| ExprRoundTrip.ImageOfTheParser | src/expressions/parser.ts:9-114 | A tree is the result of some parse if and only if it is writable: in particular never with the string literals "-" and "!". |
| DslLexer.WorkflowDslLexer.Tokenize | src/dsl/lexer.ts:43-99 | The lexer computes the specified tokens, each with the line and column at which it starts. |
| DslLexer.WorkflowDslLexer.Advance | src/dsl/lexer.ts:110-118 | Line and column always equal the count of line ends and of characters since the last one. |
| DslLexer.WorkflowDslLexer.SkipWhitespaceAndComments | src/dsl/lexer.ts:120-132 | Stops where the specification says, with line and column kept. |
| DslLexer.SkipStops | src/dsl/lexer.ts:120-132 | What is skipped is white space and comments only, and what stands behind it is neither. |
| DslLexer.WorkflowDslLexer.ReadString | src/dsl/lexer.ts:134-150 | Reads up to the closing quote, a backslash standing for the next character; unclosed strings run to the end. |
| DslLexer.EscapeReadsBack | src/dsl/lexer.ts:138-147 | Reading an escaped text gives back any text at all. |
| DslLexer.StringReadsBack | src/dsl/lexer.ts:134-150 | Any text escaped and put in quotes of either kind is lexed as a string of that text. |
| DslLexer.LexInvertsSpelling | src/dsl/lexer.ts:43-99 | Spelling any tokens and lexing the text gives them back, then the end mark. |
| DslLexer.LayoutIsIgnored | src/dsl/lexer.ts:48-99 | Any tokens, with any white space and comments before, between and behind them that keep them apart, are lexed as those tokens. |
| DslLexer.TokensAreTerminated | src/dsl/lexer.ts:43-99 | For any input only spellable tokens come out, then one end mark. |
| DslLexer.OneCharacter | src/dsl/lexer.ts:50-95 | What every one-character text is read as, characters written out. |
| DslLexer.TwoCharacters | src/dsl/lexer.ts:75-93 | Which two characters stand together in one token. |
| DslLexer.KeywordIs | src/dsl/lexer.ts:22-34 | A word is a keyword if and only if it is one of the eleven; its text is kept either way. |
| DslParser.WorkflowDslParser.Parse | src/dsl/parser.ts:9-32 | Lexing and the cursor parser compute the specified outcome: a workflow, an exception, or divergence. |
| DslParser.WorkflowDslParser.ParseTask | src/dsl/parser.ts:34-71 | A task with its fields in any order and number, refused without a handler. |
| DslParser.WorkflowDslParser.ParseTaskField | src/dsl/parser.ts:43-67 | One pass of the field loop. |
| DslParser.WorkflowDslParser.ParseDependList | src/dsl/parser.ts:56-60 | Identifiers or strings with optional commas up to the bracket. |
| DslParser.WorkflowDslParser.ParseConstraint | src/dsl/parser.ts:73-95 | A constraint, an exception, or divergence. |
| DslParser.WorkflowDslParser.ParseConstraintItem | src/dsl/parser.ts:80-92 | One pass of the item loop; where no branch applies the cursor does not move. |
| DslGrammar.TaskIs | src/dsl/parser.ts:34-71 | A task is parsed from a position to an end if and only if the grammar derives it there: fields in any order and number, the last handler and timeout winning, all dependency lists joined, names as identifiers or strings, with or without commas, 30000 for a timeout left out; and its handler is not empty. |
| DslGrammar.ConstraintIs | src/dsl/parser.ts:73-95 | The same for constraints: the last expression and severity win, the empty expression and `block` stand for those left out. |
| DslGrammar.WorkflowIs | src/dsl/parser.ts:9-32 | On any tokens of the lexer, the parser accepts exactly what the grammar derives, and gives the workflow it derives. |
| DslRoundTrip.NumberInvertsDigits | src/dsl/parser.ts:18 | Reading the decimal digits of a number gives the number. |
| DslRoundTrip.LeadingZero | src/dsl/parser.ts:18 | A leading zero changes no number. |
| DslRoundTrip.ParseInvertsPrint | src/dsl/parser.ts:9-95 | For every writable workflow, lexing and parsing its printed text gives it back, whatever tokens follow. |
| DslRoundTrip.ParsesOnlyWritable | src/dsl/parser.ts:9-71 | Whatever is parsed is writable, and printing and parsing it again keeps it. |
| DslRoundTrip.ImageOfTheParser | src/dsl/parser.ts:9-95 | A workflow is the result of some parse if and only if it is writable. |
| DslDivergence.DivergesMeansForever | src/dsl/parser.ts:80-92 | The outcome `Diverges` names exactly the loops still running after any number of rounds. |
| DslDivergence.EndsInTime | src/dsl/parser.ts:80-92 | Any other loop ends with the specified outcome within one round per remaining token. |
| DslDivergence.WhenTheParserHangs | src/dsl/parser.ts:80-92 | The parser hangs if and only if, behind a complete header and complete items, a constraint opens whose items run into an unexpected token; the end of the input is one. |
| DslDivergence.NoConstraintNoHang | src/dsl/parser.ts:21-29 | Without the keyword `constraint` the parser always ends. |
| DslDivergence.CutOffHangs | src/dsl/parser.ts:80-92 | Any workflow with a constraint hangs the parser when its two last closing braces are left out, and parses with them. |
| DslCompiler.WorkflowDslCompiler.Compile | src/dsl/compiler.ts:12-16 | Fails exactly where the parser fails. Otherwise each definition has the id, the name (the id again), handler, timeout, optional flag and dependencies of the last task written with its id, in the optimizer's order, dependency-first if and only if acyclic; constraints agree one by one; name and version are the workflow's, the id is the given one or the name in small letters, and the policy is 3 attempts, 500 ms, factor 2, at most 30000 ms. |
| DslCompiler.MappedCarries | src/dsl/compiler.ts:23-48 | Name, version, constraints, id and policy of the mapped definition, field by field. |
| DslCompiler.SameRelation | src/dsl/compiler.ts:30-37 | The mapping to definitions keeps the dependency relation. |
| DslCompiler.CompiledIsAccepted | src/validators/job-definition-validator.ts:5-68 | A compiled definition passes both checks if and only if its text has tasks, no cycle, and last tasks with positive timeouts and known dependencies; duplicate ids never stop it. |
| DslCompiler.CompiledRunsInListOrder | src/workers/scheduler.ts:9-21 | A run of a compiled, acceptable job starts the tasks in the compiled order under any outcomes. |
| DslCompiler.LevelsFollowList | src/dsl/optimizer.ts:28-35 | The depth that the optimizer computes for a task in one pass is the planner's level plus one, for every task the planner places; and the compiled list goes level by level. |
| ParallelExecutor.ExecuteLevel | src/engine/parallel-executor.ts:18-39 | Under every interleaving and any outcomes: throws if and only if there is a cycle; otherwise each plannable task with an entry is executed exactly once (never without a worker) by the handler of the first definition of its id, started in the order of the plan, at most `maxConcurrency` at a time, after all its dependencies with an entry have finished. Its entry becomes what that execution gave: output or message, attempt and status; all others stay. |
| ParallelExecutor.RunBatch | src/engine/parallel-executor.ts:41-61 | Workers sharing an index execute each item of a batch exactly once, started in the order of the batch, and all have returned at the end; each entry holds what its execution gave. |
| ParallelExecutor.TakeKeeps | src/engine/parallel-executor.ts:50-53 | Taking the next item keeps the protocol: no two workers hold one item, never too many at work. |
| ParallelExecutor.FinishKeeps | src/engine/parallel-executor.ts:54-55 | Storing a result keeps the protocol and touches one entry. |
| ParallelExecutor.BatchIsDrawn | src/engine/parallel-executor.ts:27-33 | A batch holds exactly the tasks of the level that have an entry, once each, in the order of the level, with that entry. |
| ParallelExecutor.BatchIsOfFirst | src/engine/parallel-executor.ts:28 | Every item of a batch has the first definition of its id. |
| ParallelExecutor.AcceptedRunsWhole | src/engine/dag-planner.ts:39-54 | Every task of an accepted job is executed if and only if no task lists a dependency twice. |
| ParallelExecutor.RepeatedDependencyIsDropped | src/engine/dag-planner.ts:40-53 | A job the validator accepts, of which one task is never executed. |
| Saga.SagaCoordinator.ExecuteForward | src/saga/saga-coordinator.ts:47-108 | For any definition and handler behaviour: all calls in order, the final state of every step object, and the final status. |
| Saga.SagaCoordinator.RunSteps | src/saga/saga-coordinator.ts:55-104 | The forward loop ends at the first step that does not succeed, with the stack holding exactly the objects of the steps before it. |
| Saga.SagaCoordinator.Compensate | src/saga/saga-coordinator.ts:110-148 | The compensations called and the status of each step object, through the aliases on the stack; outputs and attempts are untouched. |
| Saga.SagaCoordinator.Start | src/saga/saga-coordinator.ts:25-45 | A new instance with untouched steps is filed and run up to the first step whose handler is not registered, declines or throws; an unknown definition is refused. |
| Saga.UndoneInReverse | src/saga/saga-coordinator.ts:115-147 | The compensations called are exactly the registered ones of completed steps, once each, in strictly descending order, each with its own step's output. |
| Saga.ForwardInOrder | src/saga/saga-coordinator.ts:55-85 | The steps tried are called once each and in order. |
| Saga.PriorIsEarlierOutputs | src/saga/saga-coordinator.ts:95 | With distinct ids a step is shown exactly the outputs of the steps before it. |
| Saga.OwnCompensation | src/saga/saga-coordinator.ts:117 | Every step is undone by its own compensation if and only if the step ids are distinct. |
| Saga.SagaOutcome | src/saga/saga-coordinator.ts:47-148 | With distinct ids, and k such that all steps below it have a registered handler that returned and step k, if any, does not: steps below k have their handler's output and are undone exactly if their own compensation is registered and does not throw; step k failed; later steps are untouched. |
| Saga.SagaCalls | src/saga/saga-coordinator.ts:55-147 | With distinct ids, all calls of a saga, field by field: the steps in order, each with the outputs of those before it; then the registered compensations of the completed steps in reverse, each with its own step's output. |
| Saga.FirstFailureIs | src/saga/saga-coordinator.ts:62-91 | The step at which a saga stops is the one below which every step has a registered handler that returned and which has none or one that declines or throws. |
| Saga.CompensationStack.Push | src/saga/compensation-stack.ts:6-10 | Only completed steps are pushed. |
| Cron.NextCronRun | src/utils/cron.ts:33-43 | The least whole minute strictly after the given time that matches; throws if and only if none of the next 527040 minutes does. |
| Cron.MatchesWhenAllowed | src/utils/cron.ts:2-31 | A minute, given as day, hour and minute with its weekday, matches if and only if each field allows its value: a star always, a step its multiples if positive, a list its members. |
| Cron.StepsRun | src/utils/cron.ts:21-43 | With any steps in minute, hour and weekday and stars elsewhere, a next run is found if and only if all three are positive, and it is the first later minute whose minute, hour and weekday are multiples of them. |
| Cron.ListsRun | src/utils/cron.ts:21-43 | With lists of any length in minute, hour and weekday and stars elsewhere, a next run is found if and only if each holds a value in range, and it is the first later minute listed in all three. |
| Cron.WeeklyHasNext | src/utils/cron.ts:33-43 | With day of month and month open, a next run is found if and only if minute, hour and weekday are satisfiable, and then within 10080 minutes. |
| Cron.ScheduleService.Create | src/services/schedule-service.ts:16-42 | Stored if and only if a next run exists, and not due before it. |
| Cron.ScheduleService.DueSchedules | src/services/schedule-service.ts:44-51 | Exactly the stored schedules that are due. |
| Cron.ScheduleService.MarkTriggered | src/services/schedule-service.ts:53-62 | Afterwards the schedule is not due again within the minute; when no next run exists nothing changes. |
| Cron.ScheduleService.Disable | src/services/schedule-service.ts:68-72 | A disabled schedule is never due. |
| Cron.NoMinuteTwiceExactly | src/services/schedule-service.ts:44-62 | However a planned schedule is polled, no minute fires twice if and only if a next run can be found from every minute that is polled again. |
| Cron.LeapDayFiresTwice | src/services/schedule-service.ts:53-54 | In any calendar that has a 29 February with no other within a year of it, a schedule for that day is created, is due on it with no next run to be found, and every poll of that minute fires. |
| Cron.FiresTwiceIfExhausted | src/services/schedule-service.ts:53-54 | Any due schedule that is polled twice at one moment fires once if and only if a next run can be found. |
| Cron.FiresExactlyMatches | src/services/schedule-service.ts:44-62 | Polled at least once a minute, a schedule fires in exactly the matching minutes if and only if a next run can be found from every minute polled but the last. |
| Pool.WorkerPool.Enqueue | src/workers/pool.ts:16-19 | The sorted queue stays the stable sort of the arrivals; nothing is lost or duplicated. |
| Pool.WorkerPool.Start | src/workers/pool.ts:25-29 | Yields a run if and only if one waits and a slot is free: the earliest of highest priority. |
| Pool.WorkerPool.Complete | src/workers/pool.ts:31-33 | Frees a slot; running never leaves 0..concurrency. |
| Pool.SortPop | src/workers/pool.ts:25-29 | Taking the head off the sorted queue is taking the earliest run of highest priority out of the arrivals. |
| Pool.RankOrders | src/domain/priority.ts:1-10 | Critical goes before high, high before normal, normal before low, and no two rank the same. |
| CircuitBreaker.CircuitBreaker.CanExecute | src/handlers/http/circuit-breaker.ts:17-27 | Refuses exactly as the history predicate says. |
| CircuitBreaker.CircuitBreaker.RecordFailure | src/handlers/http/circuit-breaker.ts:34-40 | The three fields keep agreeing with the history. |
| CircuitBreaker.CircuitBreaker.RecordSuccess | src/handlers/http/circuit-breaker.ts:29-32 | A success closes the breaker. |
| CircuitBreaker.RefusedByClock | src/handlers/http/circuit-breaker.ts:17-40 | With a clock that never goes back: refused if and only if there were at least max(1, threshold) failures since the last success and the last is less than the cooldown ago. |
| CircuitBreaker.BackwardClock | src/handlers/http/circuit-breaker.ts:20-26 | A concrete history in which a clock going back lets a call through inside the cooldown. |

## Left out

- HTTP routes, middleware, configuration, logging, metrics, audit, notifications and connectors: plumbing. Of the
  input schema only the facts it establishes are used, as preconditions.
- Handler implementations and the task simulator: replaced by an arbitrary outcome oracle.
- The evaluator of expressions: it rests on JavaScript coercions. The model stops at the syntax tree, and whether the
  constraints of a job block is an answer of the oracle.
- ExprTokenizer.Tokenizer.Tokenize: token positions are left out, as the parser never reads them.
- ExprParser.Parse: a number literal keeps its text, for `Number()` of texts such as `1.2.3` is not modelled.
- ExprParser.ExpressionParser.ParseInput: number literals keep their text, as in `Parse`.
- ExprParser.ExpressionParser.ParsePrimaryNode: number literals keep their text, as in `Parse`.
- DslParser.WorkflowDslParser.Parse: numbers are exact, so rounding above 2^53 is not modelled; messages of exceptions
  are left out.
- DslLexer.WorkflowDslLexer.Tokenize: characters are Unicode scalar values, not UTF-16 code units.
- DslCompiler.WorkflowDslCompiler.Compile: lower-casing covers the letters an identifier can hold; time stamps,
  metadata and the empty list of allowed transitions are left out.
- Retry.BackoffGrows: delays are computed over reals, so the rounding of floating-point powers is not modelled.
- Execution.ExecutionService.ExecuteRun: one execution at a time works on a run; awaits do not interleave with other
  writers. A workflow that is already running when `executeRun` starts must be one that an earlier execution left
  behind.
- Services.WorkflowService.CreateRun: the random ids are parameters and assumed distinct; time stamps and contexts are
  left out.
- Services.JobService.Register: schema parsing is not modelled, and the optional handler registry and resolver are
  taken to be present.
- StateMachine.HistoryStaysConnected: time stamps, actors and notes of history entries are left out.
- ParallelExecutor.ExecuteLevel: finishing one item and taking the next are two steps, so that more interleavings are
  covered than the runtime produces; each handler call ends.
- Saga.SagaCoordinator.ExecuteForward: error texts and time stamps are left out; the oracle answers per step.
- Cron.NextCronRun: fields are given as read from their text; steps and values are integers. Day of month and month
  come from an arbitrary calendar; only `LeapDayFiresTwice` assumes something about it, and a calendar with leap days
  is given.
- Cron.ScheduleService.DueSchedules: a set, so the order of the store is left out.
- Pool.WorkerPool.Start: the queue is a sequence value, not an array updated in place; the runtime's sort is modelled
  as the stable sort it is specified to be.
- Event listeners, the emitted domain events, checkpoint restore, and the `retry` and `resume` events, which nothing
  fires.
- Webhooks, tenants, quotas, templates, catalogues and analytics: simple members.
