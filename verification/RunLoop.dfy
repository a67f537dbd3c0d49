/** What `ExecutionService.executeRun` does to a workflow instance, for any behaviour of the handlers. */
module RunLoop {
  import opened Wrappers
  import opened Jobs
  import opened Workflow
  import opened StateMachine
  import opened Retry
  import opened Scheduler

  /** One handler call: the task, the handler, which attempt it was, and the delay slept before the next one. */
  datatype Call = Call(task: string, handler: string, attempt: nat, retryAfterMs: Option<int>)

  /** What the k-th handler call of a run will do. */
  type Outcomes = nat -> Outcome

  datatype Iteration = Iteration(tasks: seq<TaskRun>, call: Call, failed: bool)

  /** The loop body once a runnable task has been found: attempt it, store the result, queue it again for a retry. */
  function Iterate(def: JobDefinition, tasks: seq<TaskRun>, at: nat, outcome: Outcome): Iteration
    requires at < |tasks| == |def.tasks|
  {
    var result := RunTask(tasks[at], def.retryPolicy, outcome);
    var stored := ReplaceTask(tasks, result.task);
    var after := if result.retryAfterMs.Some? then ReplaceTask(stored, result.task.(status := Queued)) else stored;
    var call := Call(tasks[at].definitionTaskId, def.tasks[at].handler, result.task.attempt, result.retryAfterMs);
    Iteration(after, call, result.task.status == Faulted)
  }

  // ----- sums over tasks

  function Sum(tasks: seq<TaskRun>, f: TaskRun -> int): int {
    if tasks == [] then 0 else Sum(tasks[..|tasks| - 1], f) + f(tasks[|tasks| - 1])
  }

  lemma {:induction false} SumUpdate(tasks: seq<TaskRun>, f: TaskRun -> int, i: nat, t: TaskRun)
    requires i < |tasks|
    ensures Sum(tasks[i := t], f) == Sum(tasks, f) - f(tasks[i]) + f(t)
  {
    var init := tasks[..|tasks| - 1];
    if i < |tasks| - 1 {
      assert tasks[i := t][..|tasks| - 1] == init[i := t];
      SumUpdate(init, f, i, t);
    } else {
      assert tasks[i := t][..|tasks| - 1] == init;
    }
  }

  lemma {:induction false} SumBounds(tasks: seq<TaskRun>, f: TaskRun -> int, low: int, high: int)
    requires forall t | t in tasks :: low <= f(t) <= high
    ensures |tasks| * low <= Sum(tasks, f) <= |tasks| * high
  {
    if tasks != [] {
      SumBounds(tasks[..|tasks| - 1], f, low, high);
    }
  }

  lemma AllPush(init: seq<TaskRun>, last: TaskRun, p: TaskRun -> bool)
    ensures (forall t | t in init + [last] :: p(t)) <==> (forall t | t in init :: p(t)) && p(last)
  {
    assert last in init + [last] && forall t | t in init :: t in init + [last];
  }

  lemma OneMore(n: nat, x: int)
    ensures (n + 1) * x == n * x + x
  {
  }

  /** Only when every task reaches the upper bound does the sum. */
  lemma {:induction false} SumTight(tasks: seq<TaskRun>, f: TaskRun -> int, high: int)
    requires forall t | t in tasks :: f(t) <= high
    ensures Sum(tasks, f) <= |tasks| * high
    ensures Sum(tasks, f) == |tasks| * high <==> forall t | t in tasks :: f(t) == high
  {
    if tasks != [] {
      var init, last := tasks[..|tasks| - 1], tasks[|tasks| - 1];
      assert tasks == init + [last];
      SumTight(init, f, high);
      OneMore(|init|, high);
      assert f(last) <= high;
      AllPush(init, last, t => f(t) == high);
    }
  }

  function Positive(x: int): nat {
    if x > 0 then x else 0
  }

  /** How many of `limit` attempts a task that is not done has left. */
  function Left(limit: nat): TaskRun -> int {
    (t: TaskRun) => if IsDone(t.status) then 0 else Positive(limit - t.attempt)
  }

  /** What every pass of the loop decreases: a task that is not done counts one more than its attempts left. */
  function Work(policy: RetryPolicy): TaskRun -> int {
    (t: TaskRun) => if IsDone(t.status) then 0 else 1 + Positive(Cap(policy) - t.attempt)
  }

  function AttemptOf(t: TaskRun): int {
    t.attempt
  }

  // ----- the loop

  /** The state of the task run after an attempt. */
  lemma {:induction false} ReplaceKeepsMatch(def: JobDefinition, tasks: seq<TaskRun>, at: nat, t: TaskRun)
    requires Matches(def, tasks) && at < |tasks|
    requires t.id == tasks[at].id && t.definitionTaskId == tasks[at].definitionTaskId
    ensures Matches(def, tasks[at := t]) && ReplaceTask(tasks, t) == tasks[at := t]
  {
    ReplaceIsUpdate(tasks, at, t);
    var after := tasks[at := t];
    assert forall i | 0 <= i < |tasks| :: RunKey(after[i]) == RunKey(tasks[i]);
  }

  lemma {:induction false} IterateIs(
      def: JobDefinition, tasks: seq<TaskRun>, at: nat, outcome: Outcome)
    returns (t: TaskRun)
    requires Matches(def, tasks) && at < |tasks|
    ensures var it := Iterate(def, tasks, at, outcome);
            && it.tasks == tasks[at := t] && Matches(def, it.tasks)
            && Recorded(tasks[at], def.retryPolicy, outcome, Queued, t)
            && it.call.task == def.tasks[at].id && it.call.handler == def.tasks[at].handler
            && it.call.attempt == t.attempt
            && (outcome.Returned? <==> t.status == Succeeded) && (it.failed <==> t.status == Faulted)
            && (it.call.retryAfterMs.Some? <==> t.status == Queued)
            && t.status in {Succeeded, Faulted, Queued}
            && (!outcome.Returned? ==> (it.failed <==> tasks[at].attempt + 1 >= Cap(def.retryPolicy)))
            && (it.call.retryAfterMs.Some? ==>
                  it.call.retryAfterMs == Some(ComputeBackoffDelay(def.retryPolicy, t.attempt + 1)))
  {
    var result := RunTask(tasks[at], def.retryPolicy, outcome);
    t := if result.retryAfterMs.Some? then result.task.(status := Queued) else result.task;
    ReplaceKeepsMatch(def, tasks, at, result.task);
    ReplaceKeepsMatch(def, tasks[at := result.task], at, t);
  }

  lemma {:induction false} RunnableIsFound(def: JobDefinition, tasks: seq<TaskRun>) returns (at: nat)
    requires Matches(def, tasks) && NextRunnable(tasks, def.tasks).Some?
    ensures at < |tasks| && NextRunnable(tasks, def.tasks) == Some(def.tasks[at])
    ensures FindRun(tasks, def.tasks[at].id) == Some(at)
    ensures Eligible(def.tasks[at], StatusByDef(tasks)) && !IsDone(tasks[at].status)
    ensures forall j | 0 <= j < at :: !Eligible(def.tasks[j], StatusByDef(tasks))
  {
    at := FirstEligibleIs(def.tasks, StatusByDef(tasks));
    StatusAt(def, tasks, at);
  }

  lemma {:induction false} TaskRunExists(def: JobDefinition, tasks: seq<TaskRun>)
    requires Matches(def, tasks) && NextRunnable(tasks, def.tasks).Some?
    ensures var found := FindRun(tasks, NextRunnable(tasks, def.tasks).value.id);
            found.Some? && !IsDone(tasks[found.value].status)
  {
    var at := RunnableIsFound(def, tasks);
  }

  lemma WorkOfAttempt(policy: RetryPolicy, before: TaskRun, outcome: Outcome, t: TaskRun)
    requires !IsDone(before.status) && Recorded(before, policy, outcome, Queued, t) && t.status != Faulted
    ensures Work(policy)(t) < Work(policy)(before)
  {
  }

  lemma {:induction false} WorkDrops(def: JobDefinition, tasks: seq<TaskRun>, at: nat, outcome: Outcome)
    requires Matches(def, tasks) && at < |tasks| && !IsDone(tasks[at].status)
    requires !Iterate(def, tasks, at, outcome).failed
    ensures Matches(def, Iterate(def, tasks, at, outcome).tasks)
    ensures 0 <= Sum(Iterate(def, tasks, at, outcome).tasks, Work(def.retryPolicy))
              < Sum(tasks, Work(def.retryPolicy))
  {
    var t := IterateIs(def, tasks, at, outcome);
    WorkOfAttempt(def.retryPolicy, tasks[at], outcome, t);
    SumUpdate(tasks, Work(def.retryPolicy), at, t);
    WorkIsNat(tasks[at := t], def.retryPolicy);
  }

  lemma {:induction false} WorkIsNat(tasks: seq<TaskRun>, policy: RetryPolicy)
    ensures Sum(tasks, Work(policy)) >= 0
  {
    if tasks != [] {
      WorkIsNat(tasks[..|tasks| - 1], policy);
    }
  }

  datatype RunError = ConstraintsBlocked | Refused(error: TransitionError)

  datatype Driven = Driven(workflow: WorkflowInstance, calls: seq<Call>, error: Option<RunError>)

  function Settle(
      workflow: WorkflowInstance, calls: seq<Call>, next: Result<WorkflowInstance, TransitionError>): Driven {
    match next
    case Ok(after) => Driven(after, calls, None)
    case Err(e) => Driven(workflow, calls, Some(Refused(e)))
  }

  /** The end of the loop when no task is runnable; `blocked` is the verdict of the constraints. */
  function Ending(def: JobDefinition, workflow: WorkflowInstance, blocked: bool): Driven {
    if !AllDone(workflow.tasks, def.tasks) then Settle(workflow, [], Next(workflow, "await", Waiting))
    else if blocked then Driven(workflow, [], Some(ConstraintsBlocked))
    else Settle(workflow, [], Next(workflow, "complete", Completed))
  }

  /** The `while` loop of `executeRun` from its k-th handler call on. */
  function Drive(def: JobDefinition, workflow: WorkflowInstance, outcomes: Outcomes, k: nat, blocked: bool): Driven
    requires Matches(def, workflow.tasks)
    decreases Sum(workflow.tasks, Work(def.retryPolicy))
  {
    var next := NextRunnable(workflow.tasks, def.tasks);
    if workflow.state != Running then Driven(workflow, [], None)
    else if next.None? then Ending(def, workflow, blocked)
    else
      TaskRunExists(def, workflow.tasks);
      var found := FindRun(workflow.tasks, next.value.id).value;
      var it := Iterate(def, workflow.tasks, found, outcomes(k));
      var after := workflow.(tasks := it.tasks);
      if it.failed then Settle(after, [it.call], Next(after, "fail", Failed))
      else
        WorkDrops(def, workflow.tasks, found, outcomes(k));
        var rest := Drive(def, after, outcomes, k + 1, blocked);
        rest.(calls := [it.call] + rest.calls)
  }

  // ----- the invariant of the loop

  /** `statuses` and dependencies by position: every dependency of task `i` has been done. */
  ghost predicate Met(def: JobDefinition, tasks: seq<TaskRun>, i: nat)
    requires |tasks| == |def.tasks| && i < |tasks|
  {
    forall d | d in def.tasks[i].dependsOn ::
      exists j :: 0 <= j < |tasks| && def.tasks[j].id == d && IsDone(tasks[j].status)
  }

  ghost predicate Waits(def: JobDefinition, tasks: seq<TaskRun>, i: nat)
    requires |tasks| == |def.tasks| && i < |tasks|
  {
    tasks[i].status == Queued && Met(def, tasks, i)
  }

  lemma {:induction false} MetIs(def: JobDefinition, tasks: seq<TaskRun>, i: nat)
    requires Matches(def, tasks) && i < |tasks|
    ensures DependenciesMet(def.tasks[i], StatusByDef(tasks)) <==> Met(def, tasks, i)
  {
    var statuses := StatusByDef(tasks);
    forall d | d in def.tasks[i].dependsOn
      ensures (d in statuses && IsDone(statuses[d])) <==>
              exists j :: 0 <= j < |tasks| && def.tasks[j].id == d && IsDone(tasks[j].status)
    {
      if d in statuses {
        var j :| 0 <= j < |tasks| && DefinitionKey(tasks[j]) == d;
        StatusAt(def, tasks, j);
      }
      if j :| 0 <= j < |tasks| && def.tasks[j].id == d && IsDone(tasks[j].status) {
        StatusAt(def, tasks, j);
      }
    }
  }

  ghost predicate QueuedOrSucceeded(tasks: seq<TaskRun>) {
    forall t | t in tasks :: t.status == Queued || t.status == Succeeded
  }

  lemma {:induction false} EligibleIs(def: JobDefinition, tasks: seq<TaskRun>, i: nat)
    requires Matches(def, tasks) && i < |tasks| && QueuedOrSucceeded(tasks)
    ensures Eligible(def.tasks[i], StatusByDef(tasks)) <==> Waits(def, tasks, i)
  {
    StatusAt(def, tasks, i);
    MetIs(def, tasks, i);
    assert tasks[i] in tasks;
  }

  ghost predicate IsFinished(t: TaskRun) {
    t.status == Succeeded || t.status == Skipped
  }

  /** Task `i` is queued or has failed, and each of its dependencies is finished. */
  ghost predicate CanRun(def: JobDefinition, tasks: seq<TaskRun>, i: nat)
    requires |tasks| == |def.tasks| && i < |tasks|
  {
    && (tasks[i].status == Queued || tasks[i].status == Faulted)
    && forall d | d in def.tasks[i].dependsOn ::
         exists j :: 0 <= j < |tasks| && def.tasks[j].id == d && IsFinished(tasks[j])
  }

  lemma {:induction false} EligibleMeans(def: JobDefinition, tasks: seq<TaskRun>, i: nat)
    requires Matches(def, tasks) && i < |tasks|
    ensures Eligible(def.tasks[i], StatusByDef(tasks)) <==> CanRun(def, tasks, i)
  {
    StatusAt(def, tasks, i);
    MetIs(def, tasks, i);
    assert forall j | 0 <= j < |tasks| :: IsDone(tasks[j].status) <==> IsFinished(tasks[j]);
  }

  /** Whatever the task runs look like, the scheduler picks the first task of the list that can run. */
  lemma {:induction false} NextRunnableIs(def: JobDefinition, tasks: seq<TaskRun>, i: nat)
    requires Matches(def, tasks) && i < |tasks|
    ensures NextRunnable(tasks, def.tasks) == Some(def.tasks[i]) <==>
            CanRun(def, tasks, i) && forall j | 0 <= j < i :: !CanRun(def, tasks, j)
    ensures NextRunnable(tasks, def.tasks) == None <==> forall j | 0 <= j < |tasks| :: !CanRun(def, tasks, j)
  {
    var k := FirstEligibleIs(def.tasks, StatusByDef(tasks));
    forall j | 0 <= j < |tasks| ensures Eligible(def.tasks[j], StatusByDef(tasks)) <==> CanRun(def, tasks, j) {
      EligibleMeans(def, tasks, j);
    }
    if k < |tasks| && k != i {
      assert TaskKey(def.tasks[k]) != TaskKey(def.tasks[i]);
    }
  }

  /** The run is done when every task that is not optional is finished. */
  lemma {:induction false} AllDoneIs(def: JobDefinition, tasks: seq<TaskRun>)
    requires Matches(def, tasks)
    ensures AllDone(tasks, def.tasks) <==>
            forall i | 0 <= i < |tasks| && !def.tasks[i].optional :: IsFinished(tasks[i])
  {
    forall i | 0 <= i < |tasks|
      ensures def.tasks[i].id in StatusByDef(tasks) && StatusByDef(tasks)[def.tasks[i].id] == tasks[i].status
    {
      StatusAt(def, tasks, i);
    }
    if AllDone(tasks, def.tasks) {
      forall i | 0 <= i < |tasks| && !def.tasks[i].optional ensures IsFinished(tasks[i]) {
        assert def.tasks[i] in def.tasks;
      }
    }
  }

  /** What holds whenever the loop tests its condition: attempts stay within the cap; a task that was ever attempted has
      all its dependencies done; and a task between two attempts is the very task the scheduler picks next. */
  ghost predicate Inv(def: JobDefinition, tasks: seq<TaskRun>) {
    && Matches(def, tasks)
    && QueuedOrSucceeded(tasks)
    && (forall t | t in tasks :: if t.status == Succeeded then 1 <= t.attempt <= Cap(def.retryPolicy)
                                 else t.attempt < Cap(def.retryPolicy))
    && (forall i | 0 <= i < |tasks| && tasks[i].attempt > 0 :: Met(def, tasks, i))
    && (forall i, j | 0 <= j < i < |tasks| && tasks[i].status == Queued && tasks[i].attempt > 0 ::
          !Waits(def, tasks, j))
  }

  /** A failed run: exactly one task failed, with all its attempts used; the others succeeded or were never touched. */
  ghost predicate OneFailed(def: JobDefinition, tasks: seq<TaskRun>, f: nat) {
    && Matches(def, tasks) && f < |tasks|
    && tasks[f].status == Faulted && tasks[f].attempt == Cap(def.retryPolicy)
    && (forall i | 0 <= i < |tasks| && i != f :: Untouched(tasks[i]) || HasSucceeded(def, tasks[i]))
    && (forall i | 0 <= i < |tasks| && tasks[i].attempt > 0 :: Met(def, tasks, i))
  }

  ghost predicate Untouched(t: TaskRun) {
    t.status == Queued && t.attempt == 0
  }

  ghost predicate HasSucceeded(def: JobDefinition, t: TaskRun) {
    t.status == Succeeded && 1 <= t.attempt <= Cap(def.retryPolicy)
  }

  ghost predicate AllSucceeded(def: JobDefinition, tasks: seq<TaskRun>) {
    Matches(def, tasks) && forall t | t in tasks :: HasSucceeded(def, t)
  }

  /** Succeeded tasks are never touched again. */
  ghost predicate KeepsSucceeded(before: seq<TaskRun>, after: seq<TaskRun>) {
    |before| == |after| && forall i | 0 <= i < |before| && before[i].status == Succeeded :: after[i] == before[i]
  }

  /** Task `at` is the first that waits for nothing, and the only one that may be between two attempts. */
  ghost predicate Picked(def: JobDefinition, tasks: seq<TaskRun>, at: nat) {
    && |tasks| == |def.tasks| && at < |tasks|
    && Waits(def, tasks, at)
    && (forall j | 0 <= j < at :: !Waits(def, tasks, j))
    && (forall i | 0 <= i < |tasks| && i != at && tasks[i].attempt > 0 :: tasks[i].status == Succeeded)
  }

  /** The task the scheduler picks, by position. */
  lemma {:induction false} PickIs(def: JobDefinition, tasks: seq<TaskRun>) returns (at: nat)
    requires Inv(def, tasks) && NextRunnable(tasks, def.tasks).Some?
    ensures Picked(def, tasks, at)
    ensures NextRunnable(tasks, def.tasks) == Some(def.tasks[at]) && FindRun(tasks, def.tasks[at].id) == Some(at)
  {
    at := RunnableIsFound(def, tasks);
    EligibleIs(def, tasks, at);
    forall j | 0 <= j < at ensures !Waits(def, tasks, j) {
      EligibleIs(def, tasks, j);
    }
    forall i | 0 <= i < |tasks| && i != at && tasks[i].attempt > 0 ensures tasks[i].status == Succeeded {
      assert tasks[i] in tasks;
      if tasks[i].status == Queued {
        assert Met(def, tasks, i) && Waits(def, tasks, i);
      }
    }
  }

  /** Finishing or retrying a task leaves met dependencies met. */
  lemma {:induction false} MetStays(def: JobDefinition, tasks: seq<TaskRun>, at: nat, t: TaskRun, i: nat)
    requires |tasks| == |def.tasks| && at < |tasks| && i < |tasks| && !IsDone(tasks[at].status)
    requires Met(def, tasks, i)
    ensures Met(def, tasks[at := t], i)
  {
    var after := tasks[at := t];
    forall d | d in def.tasks[i].dependsOn
      ensures exists j :: 0 <= j < |after| && def.tasks[j].id == d && IsDone(after[j].status)
    {
      var j :| 0 <= j < |tasks| && def.tasks[j].id == d && IsDone(tasks[j].status);
      assert IsDone(after[j].status);
    }
  }

  /** A retry makes nothing else runnable. */
  lemma {:induction false} RetryFreesNothing(def: JobDefinition, tasks: seq<TaskRun>, at: nat, t: TaskRun, i: nat)
    requires |tasks| == |def.tasks| && at < |tasks| && i < |tasks| && !IsDone(t.status)
    requires Met(def, tasks[at := t], i)
    ensures Met(def, tasks, i)
  {
    var after := tasks[at := t];
    forall d | d in def.tasks[i].dependsOn
      ensures exists j :: 0 <= j < |tasks| && def.tasks[j].id == d && IsDone(tasks[j].status)
    {
      var j :| 0 <= j < |after| && def.tasks[j].id == d && IsDone(after[j].status);
      assert IsDone(tasks[j].status);
    }
  }

  /** `after` is `tasks` with one more attempt made at the picked task. */
  ghost predicate Attempted(def: JobDefinition, tasks: seq<TaskRun>, at: nat, t: TaskRun, after: seq<TaskRun>) {
    && Inv(def, tasks) && Picked(def, tasks, at)
    && after == tasks[at := t] && Matches(def, after)
    && t.attempt == tasks[at].attempt + 1
  }

  lemma {:induction false} AttemptedStayMet(
      def: JobDefinition, tasks: seq<TaskRun>, at: nat, t: TaskRun, after: seq<TaskRun>)
    requires Attempted(def, tasks, at, t, after)
    ensures forall i | 0 <= i < |after| && after[i].attempt > 0 :: Met(def, after, i)
    ensures KeepsSucceeded(tasks, after) && 1 <= t.attempt <= Cap(def.retryPolicy)
  {
    assert tasks[at] in tasks;
    forall i | 0 <= i < |after| && after[i].attempt > 0 ensures Met(def, after, i) {
      MetStays(def, tasks, at, t, i);
    }
  }

  lemma {:induction false} RetryKeepsInv(
      def: JobDefinition, tasks: seq<TaskRun>, at: nat, t: TaskRun, after: seq<TaskRun>)
    requires Attempted(def, tasks, at, t, after) && t.status == Queued && t.attempt < Cap(def.retryPolicy)
    ensures Inv(def, after) && Picked(def, after, at)
  {
    AttemptedStayMet(def, tasks, at, t, after);
    forall u | u in after ensures u == t || u in tasks {
    }
    forall j | 0 <= j < at ensures !Waits(def, after, j) {
      assert !Waits(def, tasks, j) && after[j] == tasks[j];
      if Waits(def, after, j) {
        RetryFreesNothing(def, tasks, at, t, j);
      }
    }
    assert Met(def, after, at);
    assert Waits(def, after, at);
  }

  lemma {:induction false} SuccessKeepsInv(
      def: JobDefinition, tasks: seq<TaskRun>, at: nat, t: TaskRun, after: seq<TaskRun>)
    requires Attempted(def, tasks, at, t, after) && t.status == Succeeded
    ensures Inv(def, after)
  {
    AttemptedStayMet(def, tasks, at, t, after);
    forall u | u in after ensures u == t || u in tasks {
    }
  }

  lemma {:induction false} FailureEnds(
      def: JobDefinition, tasks: seq<TaskRun>, at: nat, t: TaskRun, after: seq<TaskRun>)
    requires Attempted(def, tasks, at, t, after) && t.status == Faulted && t.attempt >= Cap(def.retryPolicy)
    ensures OneFailed(def, after, at)
  {
    AttemptedStayMet(def, tasks, at, t, after);
    forall i | 0 <= i < |after| && i != at ensures Untouched(after[i]) || HasSucceeded(def, after[i]) {
      assert tasks[i] in tasks;
    }
  }

  /** One pass of the loop keeps the invariant, or ends in a failed run of the stated shape. */
  lemma {:induction false} IterateKeepsInv(def: JobDefinition, tasks: seq<TaskRun>, at: nat, outcome: Outcome)
    requires Inv(def, tasks) && Picked(def, tasks, at)
    ensures var it := Iterate(def, tasks, at, outcome);
            && KeepsSucceeded(tasks, it.tasks)
            && (!it.failed ==> Inv(def, it.tasks))
            && (it.failed ==> OneFailed(def, it.tasks, at))
            && (it.call.retryAfterMs.Some? ==> Picked(def, it.tasks, at))
  {
    var t := IterateIs(def, tasks, at, outcome);
    var after := tasks[at := t];
    AttemptedStayMet(def, tasks, at, t, after);
    match t.status {
      case Queued => RetryKeepsInv(def, tasks, at, t, after);
      case Succeeded => SuccessKeepsInv(def, tasks, at, t, after);
      case _ => FailureEnds(def, tasks, at, t, after);
    }
  }
}
