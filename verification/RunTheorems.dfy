/** What every run of an accepted job does, whatever its handlers do. */
module RunTheorems {
  import opened Wrappers
  import opened Graphs
  import opened Jobs
  import opened Workflow
  import opened StateMachine
  import opened Retry
  import opened Scheduler
  import opened Validator
  import opened RunLoop

  // ----- how the loop ends

  /** In an acyclic job nothing is left waiting: if no task can run, all have succeeded. */
  lemma {:induction false} NobodyWaits(def: JobDefinition, tasks: seq<TaskRun>, i: nat)
    requires Accepted(def) && Inv(def, tasks) && i < |tasks|
    requires NextRunnable(tasks, def.tasks).None?
    ensures tasks[i].status == Succeeded
    decreases Ancestors(GraphOf(def.tasks), def.tasks[i].id)
  {
    var g := GraphOf(def.tasks);
    MapByDistinct(def.tasks, TaskKey, TaskDeps, i);
    assert def.tasks[i] in def.tasks && tasks[i] in tasks;
    forall d | d in def.tasks[i].dependsOn
      ensures exists j :: 0 <= j < |tasks| && def.tasks[j].id == d && IsDone(tasks[j].status)
    {
      var j :| 0 <= j < |def.tasks| && TaskKey(def.tasks[j]) == d;
      AncestorsShrink(g, d, def.tasks[i].id);
      NobodyWaits(def, tasks, j);
      assert IsDone(tasks[j].status);
    }
    var k := FirstEligibleIs(def.tasks, StatusByDef(tasks));
    assert !Eligible(def.tasks[i], StatusByDef(tasks));
    EligibleIs(def, tasks, i);
  }

  lemma {:induction false} NoneRunnableMeansAllSucceeded(def: JobDefinition, tasks: seq<TaskRun>)
    requires Accepted(def) && Inv(def, tasks) && NextRunnable(tasks, def.tasks).None?
    ensures AllSucceeded(def, tasks) && AllDone(tasks, def.tasks)
  {
    forall i | 0 <= i < |tasks| ensures tasks[i].status == Succeeded {
      NobodyWaits(def, tasks, i);
    }
    forall d | d in def.tasks ensures d.id in StatusByDef(tasks) && IsDone(StatusByDef(tasks)[d.id]) {
      var i :| 0 <= i < |def.tasks| && def.tasks[i] == d;
      StatusAt(def, tasks, i);
    }
  }

  function Moved(
      workflow: WorkflowInstance, tasks: seq<TaskRun>, target: WorkflowState, event: string): WorkflowInstance {
    workflow.(
      tasks := tasks,
      state := target,
      history := workflow.history + [HistoryEntry(workflow.state, target, event)],
      version := workflow.version + 1)
  }

  ghost predicate FailedAt(def: JobDefinition, tasks: seq<TaskRun>) {
    exists f :: OneFailed(def, tasks, f)
  }

  ghost predicate EndsCompleted(def: JobDefinition, workflow: WorkflowInstance, r: Driven) {
    r.error == None && AllSucceeded(def, r.workflow.tasks)
    && r.workflow == Moved(workflow, r.workflow.tasks, Completed, "complete")
  }

  ghost predicate EndsBlocked(def: JobDefinition, workflow: WorkflowInstance, r: Driven) {
    r.error == Some(ConstraintsBlocked) && AllSucceeded(def, r.workflow.tasks) && Inv(def, r.workflow.tasks)
    && r.workflow == workflow.(tasks := r.workflow.tasks)
  }

  ghost predicate EndsFailed(def: JobDefinition, workflow: WorkflowInstance, r: Driven) {
    r.error == None && FailedAt(def, r.workflow.tasks)
    && r.workflow == Moved(workflow, r.workflow.tasks, Failed, "fail")
  }

  /** The three ways the loop can end: completed, stopped by a blocking constraint, or failed at one task. */
  ghost predicate Ends(def: JobDefinition, workflow: WorkflowInstance, r: Driven, blocked: bool) {
    && KeepsSucceeded(workflow.tasks, r.workflow.tasks)
    && (|| (!blocked && EndsCompleted(def, workflow, r))
        || (blocked && EndsBlocked(def, workflow, r))
        || EndsFailed(def, workflow, r))
  }

  lemma {:induction false} RunningMayEnd()
    ensures CanTransition(Running, Completed, "complete") && CanTransition(Running, Failed, "fail")
    ensures CanTransition(Pending, Running, "start") && CanTransition(Failed, DeadLettered, "dead_letter")
  {
  }

  lemma {:induction false} NextFails(workflow: WorkflowInstance)
    requires workflow.state == Running
    ensures Next(workflow, "fail", Failed) == Ok(Moved(workflow, workflow.tasks, Failed, "fail"))
  {
    RunningMayEnd();
  }

  lemma {:induction false} NextCompletes(def: JobDefinition, workflow: WorkflowInstance)
    requires workflow.state == Running && AllSucceeded(def, workflow.tasks)
    ensures Next(workflow, "complete", Completed) == Ok(Moved(workflow, workflow.tasks, Completed, "complete"))
  {
    RunningMayEnd();
  }

  /** How the loop ends for any job when nothing is runnable: it waits while a task that is not optional is unfinished;
      then the constraints speak; and then completion is refused exactly if an optional task is unfinished. */
  lemma {:induction false} EndingIs(def: JobDefinition, workflow: WorkflowInstance, blocked: bool)
    requires Matches(def, workflow.tasks) && workflow.state == Running
    ensures var tasks := workflow.tasks;
            Ending(def, workflow, blocked) ==
            if exists i :: 0 <= i < |tasks| && !def.tasks[i].optional && !IsFinished(tasks[i]) then
              Driven(Moved(workflow, tasks, Waiting, "await"), [], None)
            else if blocked then Driven(workflow, [], Some(ConstraintsBlocked))
            else if exists i :: 0 <= i < |tasks| && !IsFinished(tasks[i]) then
              Driven(workflow, [], Some(Refused(TasksNotSucceeded)))
            else Driven(Moved(workflow, tasks, Completed, "complete"), [], None)
  {
    AllDoneIs(def, workflow.tasks);
    NextIs(workflow, "await", Waiting);
    NextIs(workflow, "complete", Completed);
    TableIs(Running, Waiting, "await");
    TableIs(Running, Completed, "complete");
  }

  /** One unfolding of the loop at the task the scheduler picks. */
  lemma {:induction false} DriveStep(
      def: JobDefinition, workflow: WorkflowInstance, outcomes: Outcomes, k: nat, blocked: bool, at: nat,
      it: Iteration, after: WorkflowInstance)
    requires Matches(def, workflow.tasks) && workflow.state == Running && at < |workflow.tasks|
    requires NextRunnable(workflow.tasks, def.tasks) == Some(def.tasks[at])
    requires FindRun(workflow.tasks, def.tasks[at].id) == Some(at)
    requires it == Iterate(def, workflow.tasks, at, outcomes(k)) && after == workflow.(tasks := it.tasks)
    ensures Matches(def, after.tasks)
    ensures it.failed ==>
              Drive(def, workflow, outcomes, k, blocked) ==
              Driven(Moved(after, it.tasks, Failed, "fail"), [it.call], None)
    ensures !it.failed ==>
              && Sum(after.tasks, Work(def.retryPolicy)) < Sum(workflow.tasks, Work(def.retryPolicy))
              && var rest := Drive(def, after, outcomes, k + 1, blocked);
                 Drive(def, workflow, outcomes, k, blocked) == Driven(rest.workflow, [it.call] + rest.calls, rest.error)
  {
    TaskRunExists(def, workflow.tasks);
    var t := IterateIs(def, workflow.tasks, at, outcomes(k));
    if it.failed {
      NextFails(after);
    } else {
      WorkDrops(def, workflow.tasks, at, outcomes(k));
    }
  }

  /** The same, with what the rest of the loop does. */
  lemma {:induction false} DriveRest(
      def: JobDefinition, workflow: WorkflowInstance, outcomes: Outcomes, k: nat, blocked: bool, at: nat,
      it: Iteration, after: WorkflowInstance)
    returns (rest: Driven)
    requires Matches(def, workflow.tasks) && workflow.state == Running && at < |workflow.tasks|
    requires NextRunnable(workflow.tasks, def.tasks) == Some(def.tasks[at])
    requires FindRun(workflow.tasks, def.tasks[at].id) == Some(at)
    requires it == Iterate(def, workflow.tasks, at, outcomes(k)) && after == workflow.(tasks := it.tasks)
    ensures Matches(def, after.tasks)
    ensures it.failed ==> rest == Driven(Moved(after, after.tasks, Failed, "fail"), [], None)
    ensures !it.failed ==> rest == Drive(def, after, outcomes, k + 1, blocked)
    ensures !it.failed ==> Sum(after.tasks, Work(def.retryPolicy)) < Sum(workflow.tasks, Work(def.retryPolicy))
    ensures Drive(def, workflow, outcomes, k, blocked) == Driven(rest.workflow, [it.call] + rest.calls, rest.error)
  {
    DriveStep(def, workflow, outcomes, k, blocked, at, it, after);
    if it.failed {
      rest := Driven(Moved(after, after.tasks, Failed, "fail"), [], None);
      assert [it.call] + [] == [it.call];
    } else {
      rest := Drive(def, after, outcomes, k + 1, blocked);
    }
  }

  /** The end of the loop when nothing is runnable, for any job. */
  lemma {:induction false} DriveStops(
      def: JobDefinition, workflow: WorkflowInstance, outcomes: Outcomes, k: nat, blocked: bool)
    requires Matches(def, workflow.tasks) && workflow.state == Running
    requires NextRunnable(workflow.tasks, def.tasks).None?
    ensures Drive(def, workflow, outcomes, k, blocked) == Ending(def, workflow, blocked)
  {
  }

  /** The end of the loop of an accepted job when nothing is runnable. */
  lemma {:induction false} DriveDone(
      def: JobDefinition, workflow: WorkflowInstance, outcomes: Outcomes, k: nat, blocked: bool)
    requires Accepted(def) && Inv(def, workflow.tasks) && workflow.state == Running
    requires NextRunnable(workflow.tasks, def.tasks).None?
    ensures var r := Drive(def, workflow, outcomes, k, blocked);
            && AllSucceeded(def, workflow.tasks)
            && r == if blocked then Driven(workflow, [], Some(ConstraintsBlocked))
                    else Driven(Moved(workflow, workflow.tasks, Completed, "complete"), [], None)
  {
    NoneRunnableMeansAllSucceeded(def, workflow.tasks);
    NextCompletes(def, workflow);
  }

  lemma {:induction false} PassShape(def: JobDefinition, workflow: WorkflowInstance, outcome: Outcome, at: nat)
    returns (it: Iteration, after: WorkflowInstance)
    requires Inv(def, workflow.tasks) && Picked(def, workflow.tasks, at)
    ensures it == Iterate(def, workflow.tasks, at, outcome) && after == workflow.(tasks := it.tasks)
    ensures KeepsSucceeded(workflow.tasks, after.tasks)
    ensures it.failed ==> FailedAt(def, after.tasks)
    ensures !it.failed ==> Inv(def, after.tasks) && 0 <= Sum(after.tasks, Work(def.retryPolicy))
  {
    it := Iterate(def, workflow.tasks, at, outcome);
    after := workflow.(tasks := it.tasks);
    IterateKeepsInv(def, workflow.tasks, at, outcome);
    WorkIsNat(after.tasks, def.retryPolicy);
  }

  /** One pass of the loop that runs a task: the task picked, what the attempt did, and what the rest of the loop
      does. */
  lemma {:induction false} DrivePass(
      def: JobDefinition, workflow: WorkflowInstance, outcomes: Outcomes, k: nat, blocked: bool)
    returns (at: nat, it: Iteration, after: WorkflowInstance, rest: Driven)
    requires Inv(def, workflow.tasks) && workflow.state == Running
    requires NextRunnable(workflow.tasks, def.tasks).Some?
    ensures Picked(def, workflow.tasks, at) && it == Iterate(def, workflow.tasks, at, outcomes(k))
    ensures after == workflow.(tasks := it.tasks) && KeepsSucceeded(workflow.tasks, after.tasks)
    ensures it.failed ==>
              FailedAt(def, after.tasks) && rest == Driven(Moved(after, after.tasks, Failed, "fail"), [], None)
    ensures !it.failed ==> Inv(def, after.tasks) && rest == Drive(def, after, outcomes, k + 1, blocked)
    ensures !it.failed ==>
              0 <= Sum(after.tasks, Work(def.retryPolicy)) < Sum(workflow.tasks, Work(def.retryPolicy))
    ensures Drive(def, workflow, outcomes, k, blocked) == Driven(rest.workflow, [it.call] + rest.calls, rest.error)
  {
    at := PickIs(def, workflow.tasks);
    it, after := PassShape(def, workflow, outcomes(k), at);
    rest := DriveRest(def, workflow, outcomes, k, blocked, at, it, after);
  }

  lemma {:induction false} EndsLater(
      def: JobDefinition, workflow: WorkflowInstance, after: WorkflowInstance, rest: Driven, call: Call,
      blocked: bool)
    requires KeepsSucceeded(workflow.tasks, after.tasks) && after == workflow.(tasks := after.tasks)
    requires Ends(def, after, rest, blocked) || (EndsFailed(def, after, rest) && rest.workflow.tasks == after.tasks)
    ensures Ends(def, workflow, Driven(rest.workflow, [call] + rest.calls, rest.error), blocked)
  {
  }

  /** For an accepted job the loop never awaits, is never refused a transition, and ends in one of three ways. */
  lemma {:induction false} DriveEnds(
      def: JobDefinition, workflow: WorkflowInstance, outcomes: Outcomes, k: nat, blocked: bool)
    requires Accepted(def) && Inv(def, workflow.tasks) && workflow.state == Running
    ensures Ends(def, workflow, Drive(def, workflow, outcomes, k, blocked), blocked)
    decreases Sum(workflow.tasks, Work(def.retryPolicy))
  {
    if NextRunnable(workflow.tasks, def.tasks).None? {
      DriveDone(def, workflow, outcomes, k, blocked);
    } else {
      var at, it, after, rest := DrivePass(def, workflow, outcomes, k, blocked);
      if !it.failed {
        DriveEnds(def, after, outcomes, k + 1, blocked);
      }
      EndsLater(def, workflow, after, rest, it.call, blocked);
    }
  }

  // ----- how much the loop does

  function Slept(calls: seq<Call>): int {
    if calls == [] then 0 else Nap(calls[0]) + Slept(calls[1..])
  }

  lemma {:induction false} LeftDropsAt(tasks: seq<TaskRun>, at: nat, t: TaskRun, cap: nat)
    requires at < |tasks| && !IsDone(tasks[at].status) && tasks[at].attempt < cap && t.attempt == tasks[at].attempt + 1
    ensures Sum(tasks[at := t], Left(cap)) < Sum(tasks, Left(cap))
    ensures Sum(tasks[at := t], Left(cap - 1)) <= Sum(tasks, Left(cap - 1))
    ensures !IsDone(t.status) && t.attempt < cap ==> Sum(tasks[at := t], Left(cap - 1)) == Sum(tasks, Left(cap - 1)) - 1
  {
    SumUpdate(tasks, Left(cap), at, t);
    SumUpdate(tasks, Left(cap - 1), at, t);
  }

  /** How one attempt at a task changes the attempts and the retries left. */
  lemma {:induction false} LeftDrops(def: JobDefinition, tasks: seq<TaskRun>, at: nat, outcome: Outcome)
    requires Inv(def, tasks) && Picked(def, tasks, at)
    ensures var it, cap := Iterate(def, tasks, at, outcome), Cap(def.retryPolicy);
            && Sum(it.tasks, Left(cap)) < Sum(tasks, Left(cap))
            && Sum(it.tasks, Left(cap - 1)) <= Sum(tasks, Left(cap - 1))
            && (it.call.retryAfterMs.Some? ==> Sum(it.tasks, Left(cap - 1)) == Sum(tasks, Left(cap - 1)) - 1)
  {
    assert tasks[at] in tasks;
    var t := IterateIs(def, tasks, at, outcome);
    LeftDropsAt(tasks, at, t, Cap(def.retryPolicy));
  }

  /** What a call adds to the time slept. */
  function Nap(call: Call): int {
    if call.retryAfterMs.Some? then call.retryAfterMs.value else 0
  }

  lemma {:induction false} NapIsBounded(def: JobDefinition, tasks: seq<TaskRun>, at: nat, outcome: Outcome)
    requires SanePolicy(def.retryPolicy) && Matches(def, tasks) && at < |tasks|
    ensures var it := Iterate(def, tasks, at, outcome);
            0 <= Nap(it.call) <= (if it.call.retryAfterMs.Some? then def.retryPolicy.maxDelayMs else 0)
  {
    var t := IterateIs(def, tasks, at, outcome);
    BackoffGrows(def.retryPolicy, t.attempt + 1, t.attempt + 1);
  }

  lemma SleepBudget(nap: int, rest: int, left: int, leftAfter: int, most: int)
    requires most >= 0 && 0 <= nap && 0 <= rest <= leftAfter * most
    requires (nap == 0 && leftAfter <= left) || (nap <= most && leftAfter == left - 1)
    ensures 0 <= nap + rest <= left * most
  {
    if leftAfter == left - 1 {
      Distribute(leftAfter, left, most);
    } else {
      Monotone(leftAfter, left, most);
    }
  }

  /** A call adds the delay it is followed by, and nothing if it is not followed by a retry. */
  lemma SleptCons(call: Call, rest: seq<Call>)
    ensures Slept([]) == 0
    ensures Slept([call] + rest) == Slept(rest) + match call.retryAfterMs case Some(ms) => ms case None => 0
  {
    assert ([call] + rest)[1..] == rest;
  }

  ghost predicate Bounded(def: JobDefinition, tasks: seq<TaskRun>, calls: seq<Call>) {
    && |calls| <= Sum(tasks, Left(Cap(def.retryPolicy)))
    && 0 <= Slept(calls) <= Sum(tasks, Left(Cap(def.retryPolicy) - 1)) * def.retryPolicy.maxDelayMs
  }

  lemma {:induction false} BoundedStep(
      def: JobDefinition, tasks: seq<TaskRun>, at: nat, outcome: Outcome, rest: seq<Call>)
    requires SanePolicy(def.retryPolicy) && Inv(def, tasks) && Picked(def, tasks, at)
    requires Bounded(def, Iterate(def, tasks, at, outcome).tasks, rest)
    ensures Bounded(def, tasks, [Iterate(def, tasks, at, outcome).call] + rest)
  {
    var it, cap := Iterate(def, tasks, at, outcome), Cap(def.retryPolicy);
    LeftDrops(def, tasks, at, outcome);
    NapIsBounded(def, tasks, at, outcome);
    SleptCons(it.call, rest);
    SleepBudget(
      Nap(it.call), Slept(rest), Sum(tasks, Left(cap - 1)), Sum(it.tasks, Left(cap - 1)), def.retryPolicy.maxDelayMs);
  }

  lemma {:induction false} BoundedNone(def: JobDefinition, tasks: seq<TaskRun>)
    requires SanePolicy(def.retryPolicy)
    ensures Bounded(def, tasks, [])
  {
    LeftIsNat(tasks, Cap(def.retryPolicy));
    LeftIsNat(tasks, Cap(def.retryPolicy) - 1);
    Product(Sum(tasks, Left(Cap(def.retryPolicy) - 1)), def.retryPolicy.maxDelayMs);
  }

  /** Every handler call uses up one of the attempts left, every sleep one of the retries left. */
  lemma {:induction false} DriveIsBounded(
      def: JobDefinition, workflow: WorkflowInstance, outcomes: Outcomes, k: nat, blocked: bool)
    requires SanePolicy(def.retryPolicy) && Accepted(def) && Inv(def, workflow.tasks) && workflow.state == Running
    ensures Bounded(def, workflow.tasks, Drive(def, workflow, outcomes, k, blocked).calls)
    decreases Sum(workflow.tasks, Work(def.retryPolicy))
  {
    if NextRunnable(workflow.tasks, def.tasks).None? {
      DriveDone(def, workflow, outcomes, k, blocked);
      BoundedNone(def, workflow.tasks);
    } else {
      var at, it, after, rest := DrivePass(def, workflow, outcomes, k, blocked);
      if it.failed {
        BoundedNone(def, it.tasks);
      } else {
        DriveIsBounded(def, after, outcomes, k + 1, blocked);
      }
      BoundedStep(def, workflow.tasks, at, outcomes(k), rest.calls);
    }
  }

  lemma {:induction false} LeftIsNat(tasks: seq<TaskRun>, limit: nat)
    ensures Sum(tasks, Left(limit)) >= 0
  {
    if tasks != [] {
      LeftIsNat(tasks[..|tasks| - 1], limit);
    }
  }

  lemma Product(a: int, b: int)
    requires a >= 0 && b >= 0
    ensures a * b >= 0
  {
  }

  lemma Distribute(a: int, b: int, m: int)
    requires b == a + 1
    ensures b * m == a * m + m
  {
  }

  lemma Monotone(a: int, b: int, m: int)
    requires a <= b && m >= 0
    ensures a * m <= b * m
  {
  }

  // ----- fresh runs

  ghost predicate Fresh(def: JobDefinition, workflow: WorkflowInstance) {
    && workflow.state == Pending
    && Matches(def, workflow.tasks)
    && forall t | t in workflow.tasks :: Untouched(t)
  }

  lemma {:induction false} FreshIsInv(def: JobDefinition, tasks: seq<TaskRun>)
    requires Matches(def, tasks) && forall t | t in tasks :: Untouched(t)
    ensures Inv(def, tasks)
    ensures forall limit: nat :: Sum(tasks, Left(limit)) == |tasks| * limit
  {
    assert forall i | 0 <= i < |tasks| :: tasks[i] in tasks;
    forall limit: nat ensures Sum(tasks, Left(limit)) == |tasks| * limit {
      SumBounds(tasks, Left(limit), limit, limit);
    }
  }

  // ----- executeRun

  /** One call of `executeRun`: what its handler calls do and whether the constraints block. */
  datatype Session = Session(outcomes: Outcomes, blocked: bool)

  function TotalAttempts(tasks: seq<TaskRun>): int {
    Sum(tasks, AttemptOf)
  }

  /** `orchestrator.startRun` */
  function StartRun(workflow: WorkflowInstance): Result<WorkflowInstance, TransitionError> {
    if workflow.state == Pending then Next(workflow, "start", Running) else Ok(workflow)
  }

  /** The decision after the loop: a failed run whose attempts reach the global budget is dead-lettered. */
  function DeadLetter(def: JobDefinition, r: Driven): Driven {
    if r.error == None && r.workflow.state == Failed
       && TotalAttempts(r.workflow.tasks) >= def.retryPolicy.maxAttempts * |def.tasks| then
      Settle(r.workflow, r.calls, Next(r.workflow, "dead_letter", DeadLettered))
    else r
  }

  lemma {:induction false} StartKeepsTasks(workflow: WorkflowInstance)
    ensures StartRun(workflow).Ok? && StartRun(workflow).value.tasks == workflow.tasks
    ensures StartRun(workflow).value.state == if workflow.state == Pending then Running else workflow.state
  {
    RunningMayEnd();
  }

  function Execute(def: JobDefinition, workflow: WorkflowInstance, s: Session): Driven
    requires Matches(def, workflow.tasks)
  {
    StartKeepsTasks(workflow);
    DeadLetter(def, Drive(def, StartRun(workflow).value, s.outcomes, 0, s.blocked))
  }

  /** Every state a run can be in between two calls of `executeRun`. */
  ghost predicate Phase(def: JobDefinition, workflow: WorkflowInstance) {
    match workflow.state
    case Pending => Fresh(def, workflow)
    case Running => Inv(def, workflow.tasks) && AllSucceeded(def, workflow.tasks)
    case Completed => AllSucceeded(def, workflow.tasks)
    case Failed => FailedAt(def, workflow.tasks) && !BudgetSpent(def, workflow.tasks)
    case DeadLettered => FailedAt(def, workflow.tasks) && BudgetSpent(def, workflow.tasks)
    case _ => false
  }

  /** The only way a run uses up the global budget: a single attempt each, and every task attempted. */
  ghost predicate BudgetSpent(def: JobDefinition, tasks: seq<TaskRun>) {
    def.retryPolicy.maxAttempts == 1 && forall t | t in tasks :: t.attempt >= 1
  }

  lemma {:induction false} FailedAttempts(def: JobDefinition, tasks: seq<TaskRun>)
    requires FailedAt(def, tasks)
    ensures Matches(def, tasks) && forall t | t in tasks :: AttemptOf(t) <= Cap(def.retryPolicy)
  {
    var f :| OneFailed(def, tasks, f);
    forall t | t in tasks ensures AttemptOf(t) <= Cap(def.retryPolicy) {
      var i :| 0 <= i < |tasks| && tasks[i] == t;
    }
  }

  lemma {:induction false} BudgetIs(def: JobDefinition, tasks: seq<TaskRun>)
    requires Accepted(def) && FailedAt(def, tasks)
    ensures TotalAttempts(tasks) >= def.retryPolicy.maxAttempts * |def.tasks| <==> BudgetSpent(def, tasks)
  {
    FailedAttempts(def, tasks);
    SumTight(tasks, AttemptOf, Cap(def.retryPolicy));
    BudgetReached(TotalAttempts(tasks), |def.tasks|, Cap(def.retryPolicy), def.retryPolicy.maxAttempts);
    if def.retryPolicy.maxAttempts == 1 {
      SingleAttempts(tasks);
    }
  }

  /** With a cap below `maxAttempts` the budget is out of reach; the two are equal only when both are 1. */
  lemma BudgetReached(total: int, n: int, cap: int, maxAttempts: int)
    requires n > 0 && maxAttempts >= 1 && cap == (if maxAttempts >= 2 then maxAttempts - 1 else 1) && total <= n * cap
    ensures total >= maxAttempts * n <==> maxAttempts == 1 && total >= n
  {
    if maxAttempts >= 2 {
      assert maxAttempts * n == n * cap + n;
    }
  }

  lemma {:induction false} SingleAttempts(tasks: seq<TaskRun>)
    requires forall t | t in tasks :: AttemptOf(t) <= 1
    ensures TotalAttempts(tasks) >= |tasks| <==> forall t | t in tasks :: t.attempt >= 1
  {
    SumTight(tasks, AttemptOf, 1);
    assert (forall t | t in tasks :: AttemptOf(t) == 1) <==> (forall t | t in tasks :: t.attempt >= 1);
  }

  lemma {:induction false} NextDeadLetters(workflow: WorkflowInstance)
    requires workflow.state == Failed
    ensures Next(workflow, "dead_letter", DeadLettered) ==
            Ok(Moved(workflow, workflow.tasks, DeadLettered, "dead_letter"))
  {
    RunningMayEnd();
  }

  /** What one `executeRun` may leave behind. */
  ghost predicate Leaves(def: JobDefinition, workflow: WorkflowInstance, r: Driven, blocked: bool) {
    && Phase(def, r.workflow) && KeepsSucceeded(workflow.tasks, r.workflow.tasks)
    && (r.error == None || (r.error == Some(ConstraintsBlocked) && blocked && r.workflow.state == Running))
    && (r.error == None ==> r.workflow.state in {Completed, Failed, DeadLettered})
  }

  lemma {:induction false} FailedThenDecided(def: JobDefinition, workflow: WorkflowInstance, r: Driven, blocked: bool)
    requires Accepted(def) && r.error == None && r.workflow.state == Failed
    requires FailedAt(def, r.workflow.tasks) && KeepsSucceeded(workflow.tasks, r.workflow.tasks)
    ensures Leaves(def, workflow, DeadLetter(def, r), blocked)
  {
    BudgetIs(def, r.workflow.tasks);
    NextDeadLetters(r.workflow);
  }

  lemma {:induction false} EndsThenDecided(def: JobDefinition, workflow: WorkflowInstance, r: Driven, blocked: bool)
    requires Accepted(def) && workflow.state == Running && Ends(def, workflow, r, blocked)
    ensures Leaves(def, workflow, DeadLetter(def, r), blocked)
  {
    if EndsFailed(def, workflow, r) {
      FailedThenDecided(def, workflow, r, blocked);
    }
  }

  /** Each call of `executeRun` leads from one of these states to another; it never awaits, no guard ever refuses it,
      and the only error it can raise is a blocking constraint, with every task succeeded. */
  lemma {:induction false} ExecuteKeepsPhase(def: JobDefinition, workflow: WorkflowInstance, s: Session)
    requires Accepted(def) && Phase(def, workflow)
    ensures Leaves(def, workflow, Execute(def, workflow, s), s.blocked)
  {
    StartKeepsTasks(workflow);
    var started := StartRun(workflow).value;
    if workflow.state in {Pending, Running} {
      if workflow.state == Pending {
        FreshIsInv(def, workflow.tasks);
      }
      DriveEnds(def, started, s.outcomes, 0, s.blocked);
      EndsThenDecided(def, started, Drive(def, started, s.outcomes, 0, s.blocked), s.blocked);
    } else {
      SettledStays(def, workflow, s);
    }
  }

  /** Once a run is completed, failed or dead-lettered, executing it again changes nothing and calls no handler. */
  lemma {:induction false} SettledStays(def: JobDefinition, workflow: WorkflowInstance, s: Session)
    requires Accepted(def) && Phase(def, workflow) && workflow.state in {Completed, Failed, DeadLettered}
    ensures Execute(def, workflow, s) == Driven(workflow, [], None)
  {
    if workflow.state == Failed {
      BudgetIs(def, workflow.tasks);
    }
  }

  /** The instance after any number of calls of `executeRun`. */
  function AfterAll(def: JobDefinition, workflow: WorkflowInstance, sessions: seq<Session>): (r: WorkflowInstance)
    requires Accepted(def) && Phase(def, workflow)
    ensures Phase(def, r)
    decreases |sessions|
  {
    if sessions == [] then workflow
    else
      ExecuteKeepsPhase(def, workflow, sessions[0]);
      AfterAll(def, Execute(def, workflow, sessions[0]).workflow, sessions[1..])
  }

  lemma {:induction false} FaultedIsFailed(def: JobDefinition, workflow: WorkflowInstance)
    requires Phase(def, workflow)
    ensures workflow.state in {Failed, DeadLettered} <==> FailedAt(def, workflow.tasks)
    ensures workflow.state in {Failed, DeadLettered} <==> exists t :: t in workflow.tasks && t.status == Faulted
  {
    if FailedAt(def, workflow.tasks) {
      var f: nat :| OneFailed(def, workflow.tasks, f);
      assert workflow.tasks[f] in workflow.tasks;
    }
  }

  /** Safety over whole lives of a run: from a fresh run, after any number of executions with any handlers and verdicts,
      the run is in one of six shapes. It is dead-lettered exactly when a task has failed, the job allows a single
      attempt, and every task has been attempted; with two attempts or more that never happens. */
  lemma {:induction false} RunsStayInPhase(def: JobDefinition, workflow: WorkflowInstance, sessions: seq<Session>)
    requires Accepted(def) && Fresh(def, workflow)
    ensures var r := AfterAll(def, workflow, sessions);
            && Phase(def, r)
            && (r.state == DeadLettered <==> FailedAt(def, r.tasks) && BudgetSpent(def, r.tasks))
            && (r.state in {Failed, DeadLettered} <==> exists t :: t in r.tasks && t.status == Faulted)
  {
    FaultedIsFailed(def, AfterAll(def, workflow, sessions));
  }

  /** The last of these calls, the first of which is call number `k` of the run, used up the attempts of its task and
      did not succeed. */
  ghost predicate LastCallFailed(def: JobDefinition, calls: seq<Call>, outcomes: Outcomes, k: nat) {
    calls != [] && calls[|calls| - 1].attempt >= Cap(def.retryPolicy) && !outcomes(k + |calls| - 1).Returned?
  }

  ghost predicate FailsAtCap(def: JobDefinition, r: Driven, outcomes: Outcomes, k: nat) {
    r.workflow.state == Failed <==> LastCallFailed(def, r.calls, outcomes, k)
  }

  /** A call before others does not decide; a last call does, by whether it failed at the cap. */
  lemma FailsAtCapCons(def: JobDefinition, call: Call, rest: Driven, outcomes: Outcomes, k: nat)
    requires if call.attempt >= Cap(def.retryPolicy) && !outcomes(k).Returned?
             then rest.workflow.state == Failed && rest.calls == []
             else FailsAtCap(def, rest, outcomes, k + 1)
    ensures FailsAtCap(def, Driven(rest.workflow, [call] + rest.calls, rest.error), outcomes, k)
  {
    var calls := [call] + rest.calls;
    if rest.calls == [] {
      assert calls == [call] && k + |calls| - 1 == k;
    } else {
      assert calls[|calls| - 1] == rest.calls[|rest.calls| - 1] && k + |calls| - 1 == k + 1 + |rest.calls| - 1;
    }
  }

  /** The loop fails exactly if its last call failed at the attempt cap. */
  lemma {:induction false} DriveFailsAtCap(
      def: JobDefinition, workflow: WorkflowInstance, outcomes: Outcomes, k: nat, blocked: bool)
    requires Accepted(def) && Inv(def, workflow.tasks) && workflow.state == Running
    ensures FailsAtCap(def, Drive(def, workflow, outcomes, k, blocked), outcomes, k)
    decreases Sum(workflow.tasks, Work(def.retryPolicy))
  {
    if NextRunnable(workflow.tasks, def.tasks).None? {
      DriveDone(def, workflow, outcomes, k, blocked);
    } else {
      var at, it, after, rest := DrivePass(def, workflow, outcomes, k, blocked);
      var t := IterateIs(def, workflow.tasks, at, outcomes(k));
      if !it.failed {
        DriveFailsAtCap(def, after, outcomes, k + 1, blocked);
      }
      FailsAtCapCons(def, it.call, rest, outcomes, k);
    }
  }

  /** How a run ends, by its last handler call and the verdict of the constraints. */
  ghost predicate EndsAsCalled(def: JobDefinition, r: Driven, s: Session) {
    if LastCallFailed(def, r.calls, s.outcomes, 0) then
      r.error == None && r.workflow.state in {Failed, DeadLettered} && FailedAt(def, r.workflow.tasks)
    else if s.blocked then
      r.error == Some(ConstraintsBlocked) && r.workflow.state == Running && AllSucceeded(def, r.workflow.tasks)
    else
      r.error == None && r.workflow.state == Completed && AllSucceeded(def, r.workflow.tasks)
  }

  lemma {:induction false} EndsAsDecided(def: JobDefinition, started: WorkflowInstance, r: Driven, s: Session)
    requires Accepted(def) && started.state == Running && Ends(def, started, r, s.blocked)
    requires FailsAtCap(def, r, s.outcomes, 0)
    ensures EndsAsCalled(def, DeadLetter(def, r), s)
  {
    DecidingCallsNobody(def, r);
    if r.workflow.state == Failed {
      FailedThenDecided(def, started, r, s.blocked);
    }
  }

  /** The headline for one execution of a fresh run. The run has failed exactly if the last handler call failed at the
      attempt cap; otherwise every task has succeeded, and the run is completed exactly if the constraints do not block.
      With its bounds on handler calls and on time slept. */
  lemma {:induction false} FreshRunOutcome(def: JobDefinition, workflow: WorkflowInstance, s: Session)
    requires Accepted(def) && SanePolicy(def.retryPolicy) && Fresh(def, workflow)
    ensures var r := Execute(def, workflow, s);
            && EndsAsCalled(def, r, s)
            && |r.calls| <= |def.tasks| * Cap(def.retryPolicy)
            && 0 <= Slept(r.calls) <= |def.tasks| * (Cap(def.retryPolicy) - 1) * def.retryPolicy.maxDelayMs
  {
    FreshIsInv(def, workflow.tasks);
    StartKeepsTasks(workflow);
    var started := StartRun(workflow).value;
    var r := Drive(def, started, s.outcomes, 0, s.blocked);
    DriveEnds(def, started, s.outcomes, 0, s.blocked);
    DriveFailsAtCap(def, started, s.outcomes, 0, s.blocked);
    EndsAsDecided(def, started, r, s);
    DriveIsBounded(def, started, s.outcomes, 0, s.blocked);
    DecidingCallsNobody(def, r);
  }

  lemma {:induction false} DecidingCallsNobody(def: JobDefinition, r: Driven)
    ensures DeadLetter(def, r).calls == r.calls
  {
    if r.workflow.state == Failed {
      NextDeadLetters(r.workflow);
    }
  }
}
