/** In which order and how often the handlers of a run are called. */
module RunTraces {
  import opened Wrappers
  import opened Graphs
  import opened Jobs
  import opened Workflow
  import opened Retry
  import opened Scheduler
  import opened Validator
  import opened RunLoop
  import opened RunTheorems

  // ----- the attempts of one task are contiguous

  /** After a call that is to be retried comes the next attempt at the same task; any other call is the last of its
      task. */
  ghost predicate Linked(calls: seq<Call>) {
    |calls| >= 2 ==>
      && (if calls[0].retryAfterMs.Some? then calls[1].task == calls[0].task && calls[1].attempt == calls[0].attempt + 1
          else forall c | c in calls[1..] :: c.task != calls[0].task)
      && Linked(calls[1..])
  }

  /** The call is made for task `i`, with the handler its definition names. */
  ghost predicate CallsTask(def: JobDefinition, i: int, c: Call)
    requires 0 <= i < |def.tasks|
  {
    c.task == def.tasks[i].id && c.handler == def.tasks[i].handler
  }

  /** The calls are made for tasks that have not succeeded yet, and wait as the policy says. */
  ghost predicate Grounded(def: JobDefinition, tasks: seq<TaskRun>, calls: seq<Call>)
    requires |tasks| == |def.tasks|
  {
    forall c | c in calls ::
      && (exists i :: 0 <= i < |tasks| && CallsTask(def, i, c) && tasks[i].status != Succeeded)
      && (c.retryAfterMs.Some? ==> c.retryAfterMs == Some(ComputeBackoffDelay(def.retryPolicy, c.attempt + 1)))
  }

  ghost predicate BeginsWith(def: JobDefinition, tasks: seq<TaskRun>, calls: seq<Call>, at: nat)
    requires |tasks| == |def.tasks|
  {
    at < |tasks| && (calls != [] ==> calls[0].task == def.tasks[at].id && calls[0].attempt == tasks[at].attempt + 1)
  }

  lemma {:induction false} PickedIsUnique(def: JobDefinition, tasks: seq<TaskRun>, a: nat, b: nat)
    requires Picked(def, tasks, a) && Picked(def, tasks, b)
    ensures a == b
  {
  }

  lemma {:induction false} StaysActive(def: JobDefinition, tasks: seq<TaskRun>, at: nat, t: TaskRun, calls: seq<Call>)
    requires Matches(def, tasks) && at < |tasks| && tasks[at].status != Succeeded
    requires Grounded(def, tasks[at := t], calls)
    ensures Grounded(def, tasks, calls)
    ensures t.status == Succeeded ==> forall c | c in calls :: c.task != def.tasks[at].id
  {
    var after := tasks[at := t];
    forall c | c in calls
      ensures exists i :: 0 <= i < |tasks| && CallsTask(def, i, c) && tasks[i].status != Succeeded
      ensures t.status == Succeeded ==> c.task != def.tasks[at].id
    {
      var i :| 0 <= i < |after| && CallsTask(def, i, c) && after[i].status != Succeeded;
      assert tasks[i].status != Succeeded;
      if i != at {
        assert TaskKey(def.tasks[i]) != TaskKey(def.tasks[at]);
      }
    }
  }

  lemma {:induction false} LinkedCons(call: Call, rest: seq<Call>)
    requires Linked(rest)
    requires call.retryAfterMs.Some? && rest != [] ==> rest[0].task == call.task && rest[0].attempt == call.attempt + 1
    requires call.retryAfterMs.None? ==> forall c | c in rest :: c.task != call.task
    ensures Linked([call] + rest)
  {
    assert ([call] + rest)[1..] == rest;
  }

  lemma {:induction false} GroundedCons(
      def: JobDefinition, tasks: seq<TaskRun>, at: nat, outcome: Outcome, rest: seq<Call>)
    requires Matches(def, tasks) && at < |tasks| && tasks[at].status != Succeeded
    requires Grounded(def, tasks, rest)
    ensures Grounded(def, tasks, [Iterate(def, tasks, at, outcome).call] + rest)
    ensures BeginsWith(def, tasks, [Iterate(def, tasks, at, outcome).call] + rest, at)
  {
    var t := IterateIs(def, tasks, at, outcome);
    var call := Iterate(def, tasks, at, outcome).call;
    assert CallsTask(def, at, call);
    assert forall c | c in [call] + rest :: c == call || c in rest;
  }

  /** What the calls of a loop that starts from `tasks` look like. */
  ghost predicate WellTraced(def: JobDefinition, tasks: seq<TaskRun>, calls: seq<Call>) {
    && |tasks| == |def.tasks|
    && Linked(calls) && Grounded(def, tasks, calls)
    && forall at | Picked(def, tasks, at) :: BeginsWith(def, tasks, calls, at)
  }

  lemma {:induction false} TraceStep(
      def: JobDefinition, tasks: seq<TaskRun>, at: nat, outcome: Outcome, rest: seq<Call>, calls: seq<Call>)
    requires Inv(def, tasks) && Picked(def, tasks, at)
    requires calls == [Iterate(def, tasks, at, outcome).call] + rest
    requires var it := Iterate(def, tasks, at, outcome);
             if it.failed then rest == [] else WellTraced(def, it.tasks, rest)
    ensures WellTraced(def, tasks, calls)
  {
    var t := IterateIs(def, tasks, at, outcome);
    IterateKeepsInv(def, tasks, at, outcome);
    StaysActive(def, tasks, at, t, rest);
    LinkedCons(Iterate(def, tasks, at, outcome).call, rest);
    GroundedCons(def, tasks, at, outcome, rest);
    forall a | Picked(def, tasks, a) ensures a == at {
      PickedIsUnique(def, tasks, a, at);
    }
  }

  lemma {:induction false} DriveIsLinked(
      def: JobDefinition, workflow: WorkflowInstance, outcomes: Outcomes, k: nat, blocked: bool)
    requires Accepted(def) && Inv(def, workflow.tasks) && workflow.state == Running
    ensures WellTraced(def, workflow.tasks, Drive(def, workflow, outcomes, k, blocked).calls)
    decreases Sum(workflow.tasks, Work(def.retryPolicy))
  {
    var calls := Drive(def, workflow, outcomes, k, blocked).calls;
    if NextRunnable(workflow.tasks, def.tasks).None? {
      DriveDone(def, workflow, outcomes, k, blocked);
      NoCalls(def, workflow.tasks);
    } else {
      var at, it, after, rest := DrivePass(def, workflow, outcomes, k, blocked);
      if !it.failed {
        DriveIsLinked(def, after, outcomes, k + 1, blocked);
      }
      TraceStep(def, workflow.tasks, at, outcomes(k), rest.calls, calls);
    }
  }

  lemma NoCalls(def: JobDefinition, tasks: seq<TaskRun>)
    requires |tasks| == |def.tasks|
    ensures WellTraced(def, tasks, [])
  {
    forall at | Picked(def, tasks, at) ensures BeginsWith(def, tasks, [], at) {
    }
  }

  /** Between two calls for one task there are only further attempts at it, numbered consecutively. */
  lemma {:induction false} LinkedBlock(calls: seq<Call>, a: nat, b: nat)
    requires Linked(calls) && a < b < |calls| && calls[a].task == calls[b].task
    ensures forall m | a <= m <= b :: calls[m].task == calls[a].task && calls[m].attempt == calls[a].attempt + (m - a)
    ensures forall m | a <= m < b :: calls[m].retryAfterMs.Some?
    decreases b
  {
    var rest := calls[1..];
    assert forall m | 0 < m < |calls| :: calls[m] == rest[m - 1];
    if a > 0 {
      LinkedBlock(rest, a - 1, b - 1);
    } else {
      assert calls[b] in rest;
      if b > 1 {
        LinkedBlock(rest, 0, b - 1);
      }
    }
  }

  lemma {:induction false} ExecuteIsTraced(def: JobDefinition, workflow: WorkflowInstance, s: Session)
    requires Accepted(def) && Fresh(def, workflow)
    ensures WellTraced(def, workflow.tasks, Execute(def, workflow, s).calls)
  {
    FreshIsInv(def, workflow.tasks);
    StartKeepsTasks(workflow);
    var started := StartRun(workflow).value;
    DriveIsLinked(def, started, s.outcomes, 0, s.blocked);
    DecidingCallsNobody(def, Drive(def, started, s.outcomes, 0, s.blocked));
  }

  lemma {:induction false} SleepsGrow(def: JobDefinition, tasks: seq<TaskRun>, calls: seq<Call>, a: nat, b: nat)
    requires SanePolicy(def.retryPolicy) && WellTraced(def, tasks, calls)
    requires a < b < |calls| && calls[a].task == calls[b].task
    requires calls[a].retryAfterMs.Some? && calls[b].retryAfterMs.Some?
    ensures calls[a].retryAfterMs.value <= calls[b].retryAfterMs.value
  {
    LinkedBlock(calls, a, b);
    assert calls[a] in calls && calls[b] in calls;
    BackoffGrows(def.retryPolicy, calls[a].attempt + 1, calls[b].attempt + 1);
  }

  /** In every execution of an accepted job: the attempts at a task are made in one go, with consecutive numbers, each
      but the last followed by a sleep; and the sleeps of one task never get shorter. */
  lemma {:induction false} AttemptsAreContiguous(
      def: JobDefinition, workflow: WorkflowInstance, s: Session, calls: seq<Call>, a: nat, b: nat)
    requires Accepted(def) && SanePolicy(def.retryPolicy) && Fresh(def, workflow)
    requires calls == Execute(def, workflow, s).calls && a < b < |calls| && calls[a].task == calls[b].task
    ensures forall m | a <= m <= b :: calls[m].task == calls[a].task && calls[m].attempt == calls[a].attempt + (m - a)
    ensures forall m | a <= m < b :: calls[m].retryAfterMs.Some?
    ensures calls[b].retryAfterMs.Some? ==> calls[a].retryAfterMs.value <= calls[b].retryAfterMs.value
  {
    ExecuteIsTraced(def, workflow, s);
    LinkedBlock(calls, a, b);
    if calls[b].retryAfterMs.Some? {
      SleepsGrow(def, workflow.tasks, calls, a, b);
    }
  }

  lemma {:induction false} CallIsGrounded(def: JobDefinition, tasks: seq<TaskRun>, calls: seq<Call>, call: Call)
    returns (i: nat)
    requires |tasks| == |def.tasks| && Grounded(def, tasks, calls) && call in calls
    ensures i < |def.tasks| && CallsTask(def, i, call)
    ensures call.retryAfterMs.Some? ==>
              var delay, most := RawDelay(def.retryPolicy, call.attempt).Floor, def.retryPolicy.maxDelayMs;
              call.retryAfterMs.value == if delay <= most then delay else most
  {
    BackoffIs(def.retryPolicy, call.attempt);
    i :| 0 <= i < |def.tasks| && CallsTask(def, i, call);
  }

  /** Each call is made for a task of the job with the handler its definition names; and the sleep after attempt number
      `a` is the initial delay, multiplied `a` times, rounded down and cut off at the ceiling. */
  lemma {:induction false} CallsAndSleeps(
      def: JobDefinition, workflow: WorkflowInstance, s: Session, calls: seq<Call>, call: Call)
    returns (i: nat)
    requires Accepted(def) && Fresh(def, workflow) && calls == Execute(def, workflow, s).calls && call in calls
    ensures i < |def.tasks| && CallsTask(def, i, call)
    ensures call.retryAfterMs.Some? ==>
              var delay, most := RawDelay(def.retryPolicy, call.attempt).Floor, def.retryPolicy.maxDelayMs;
              call.retryAfterMs.value == if delay <= most then delay else most
  {
    ExecuteIsTraced(def, workflow, s);
    i := CallIsGrounded(def, workflow.tasks, calls, call);
  }

  // ----- a dependency-first job runs in list order

  function TaskIds(tasks: seq<TaskDefinition>): (ids: seq<string>)
    ensures |ids| == |tasks| && forall i | 0 <= i < |ids| :: ids[i] == tasks[i].id
  {
    seq(|tasks|, i requires 0 <= i < |tasks| => tasks[i].id)
  }

  /** The calls go through the task list from position `n` on, moving to the next task when one needs no retry. */
  ghost predicate InListOrder(def: JobDefinition, calls: seq<Call>, n: nat)
    decreases |calls|
  {
    calls != [] ==>
      && n < |def.tasks| && calls[0].task == def.tasks[n].id
      && InListOrder(def, calls[1..], if calls[0].retryAfterMs.Some? then n else n + 1)
  }

  ghost predicate Progress(tasks: seq<TaskRun>, n: nat) {
    n <= |tasks| && forall i | 0 <= i < |tasks| :: tasks[i].status == Succeeded <==> i < n
  }

  lemma {:induction false} EarlierInList(def: JobDefinition, n: nat, d: string) returns (j: nat)
    requires WellFormed(def) && n < |def.tasks| && d in def.tasks[n].dependsOn
    requires Ordered(GraphOf(def.tasks), TaskIds(def.tasks))
    ensures j < n && def.tasks[j].id == d
  {
    var ids := TaskIds(def.tasks);
    assert def.tasks[n] in def.tasks;
    MapByDistinct(def.tasks, TaskKey, TaskDeps, n);
    assert d in Deps(GraphOf(def.tasks), ids[n]) && d in ids[..n];
    j :| 0 <= j < n && ids[j] == d;
  }

  lemma {:induction false} MetInOrder(def: JobDefinition, tasks: seq<TaskRun>, n: nat)
    requires WellFormed(def) && |tasks| == |def.tasks| && Progress(tasks, n) && n < |tasks|
    requires Ordered(GraphOf(def.tasks), TaskIds(def.tasks))
    ensures Met(def, tasks, n)
  {
    forall d | d in def.tasks[n].dependsOn
      ensures exists j :: 0 <= j < |tasks| && def.tasks[j].id == d && IsDone(tasks[j].status)
    {
      var j := EarlierInList(def, n, d);
      assert IsDone(tasks[j].status);
    }
  }

  lemma {:induction false} PicksNextInList(def: JobDefinition, tasks: seq<TaskRun>, n: nat, at: nat)
    requires Accepted(def) && Inv(def, tasks) && Progress(tasks, n) && Picked(def, tasks, at)
    requires Ordered(GraphOf(def.tasks), TaskIds(def.tasks))
    ensures at == n
  {
    assert tasks[n] in tasks;
    MetInOrder(def, tasks, n);
    assert Waits(def, tasks, n);
  }

  lemma {:induction false} InListOrderCons(def: JobDefinition, call: Call, rest: seq<Call>, n: nat)
    requires n < |def.tasks| && call.task == def.tasks[n].id
    requires InListOrder(def, rest, if call.retryAfterMs.Some? then n else n + 1)
    ensures InListOrder(def, [call] + rest, n)
  {
    assert ([call] + rest)[1..] == rest;
  }

  lemma {:induction false} ProgressStep(def: JobDefinition, tasks: seq<TaskRun>, n: nat, outcome: Outcome)
    requires Matches(def, tasks) && Progress(tasks, n) && n < |tasks|
    ensures var it := Iterate(def, tasks, n, outcome);
            !it.failed ==> Progress(it.tasks, if it.call.retryAfterMs.Some? then n else n + 1)
    ensures Iterate(def, tasks, n, outcome).call.task == def.tasks[n].id
  {
    var t := IterateIs(def, tasks, n, outcome);
  }

  lemma {:induction false} DriveInListOrder(
      def: JobDefinition, workflow: WorkflowInstance, outcomes: Outcomes, k: nat, blocked: bool, n: nat)
    requires Accepted(def) && Inv(def, workflow.tasks) && workflow.state == Running && Progress(workflow.tasks, n)
    requires Ordered(GraphOf(def.tasks), TaskIds(def.tasks))
    ensures InListOrder(def, Drive(def, workflow, outcomes, k, blocked).calls, n)
    decreases Sum(workflow.tasks, Work(def.retryPolicy))
  {
    if NextRunnable(workflow.tasks, def.tasks).None? {
      DriveDone(def, workflow, outcomes, k, blocked);
    } else {
      var at, it, after, rest := DrivePass(def, workflow, outcomes, k, blocked);
      PicksNextInList(def, workflow.tasks, n, at);
      ProgressStep(def, workflow.tasks, n, outcomes(k));
      if !it.failed {
        DriveInListOrder(def, after, outcomes, k + 1, blocked, if it.call.retryAfterMs.Some? then n else n + 1);
      }
      InListOrderCons(def, it.call, rest.calls, n);
    }
  }

  /** A job whose list is dependency-first, as the workflow compiler emits it, starts its tasks in exactly that order,
      whatever the handlers do. */
  lemma {:induction false} RunsInListOrder(def: JobDefinition, workflow: WorkflowInstance, s: Session)
    requires Accepted(def) && Fresh(def, workflow) && Ordered(GraphOf(def.tasks), TaskIds(def.tasks))
    ensures InListOrder(def, Execute(def, workflow, s).calls, 0)
  {
    FreshIsInv(def, workflow.tasks);
    StartKeepsTasks(workflow);
    var started := StartRun(workflow).value;
    assert forall i | 0 <= i < |workflow.tasks| :: workflow.tasks[i] in workflow.tasks;
    DriveInListOrder(def, started, s.outcomes, 0, s.blocked, 0);
    DecidingCallsNobody(def, Drive(def, started, s.outcomes, 0, s.blocked));
  }

  // ----- dependencies come first

  ghost predicate DoneTask(def: JobDefinition, tasks: seq<TaskRun>, d: string)
    requires |tasks| == |def.tasks|
  {
    exists j :: 0 <= j < |tasks| && def.tasks[j].id == d && IsDone(tasks[j].status)
  }

  /** An earlier one of the calls, the first of which is call number `k` of the run, was for task `d` and succeeded. */
  ghost predicate SucceededBefore(calls: seq<Call>, outcomes: Outcomes, k: nat, p: nat, d: string) {
    exists q: nat :: q < p && q < |calls| && calls[q].task == d && outcomes(k + q).Returned?
  }

  /** Whenever a task is called, each of its dependencies was done at the start or has been called with success. */
  ghost predicate DependenciesFirst(
      def: JobDefinition, tasks: seq<TaskRun>, calls: seq<Call>, outcomes: Outcomes, k: nat)
    requires |tasks| == |def.tasks|
  {
    forall p: nat, i: nat | p < |calls| && i < |def.tasks| && calls[p].task == def.tasks[i].id ::
      forall d | d in def.tasks[i].dependsOn ::
        DoneTask(def, tasks, d) || SucceededBefore(calls, outcomes, k, p, d)
  }

  /** What is done after one attempt was done before, or it is the task attempted and the attempt succeeded. */
  lemma DoneByAttempt(def: JobDefinition, tasks: seq<TaskRun>, at: nat, outcome: Outcome, d: string)
    requires Matches(def, tasks) && at < |tasks|
    requires |Iterate(def, tasks, at, outcome).tasks| == |def.tasks|
    requires DoneTask(def, Iterate(def, tasks, at, outcome).tasks, d)
    ensures DoneTask(def, tasks, d) || (d == def.tasks[at].id && outcome.Returned?)
  {
    var t := IterateIs(def, tasks, at, outcome);
    var after := tasks[at := t];
    var j :| 0 <= j < |after| && def.tasks[j].id == d && IsDone(after[j].status);
    if j != at {
      assert IsDone(tasks[j].status);
    }
  }

  lemma {:induction false} DependenciesFirstCons(
      def: JobDefinition, tasks: seq<TaskRun>, at: nat, outcomes: Outcomes, k: nat, rest: seq<Call>)
    requires Inv(def, tasks) && Picked(def, tasks, at)
    requires var it := Iterate(def, tasks, at, outcomes(k));
             |it.tasks| == |def.tasks| && (rest == [] || DependenciesFirst(def, it.tasks, rest, outcomes, k + 1))
    ensures DependenciesFirst(def, tasks, [Iterate(def, tasks, at, outcomes(k)).call] + rest, outcomes, k)
  {
    var t := IterateIs(def, tasks, at, outcomes(k));
    var it := Iterate(def, tasks, at, outcomes(k));
    var calls := [it.call] + rest;
    forall p: nat, i: nat | p < |calls| && i < |def.tasks| && calls[p].task == def.tasks[i].id
      ensures forall d | d in def.tasks[i].dependsOn ::
        DoneTask(def, tasks, d) || SucceededBefore(calls, outcomes, k, p, d)
    {
      if p == 0 {
        assert TaskKey(def.tasks[i]) == TaskKey(def.tasks[at]);
        assert i == at && Met(def, tasks, at);
      } else {
        assert rest[p - 1].task == def.tasks[i].id;
        forall d | d in def.tasks[i].dependsOn
          ensures DoneTask(def, tasks, d) || SucceededBefore(calls, outcomes, k, p, d)
        {
          LaterDependency(def, tasks, at, outcomes, k, rest, p - 1, d);
        }
      }
    }
  }

  lemma SucceededLater(call: Call, rest: seq<Call>, outcomes: Outcomes, k: nat, p: nat, d: string)
    requires SucceededBefore(rest, outcomes, k + 1, p, d)
    ensures SucceededBefore([call] + rest, outcomes, k, p + 1, d)
  {
    var calls := [call] + rest;
    var q: nat :| q < p && q < |rest| && rest[q].task == d && outcomes(k + 1 + q).Returned?;
    assert calls[q + 1].task == d && outcomes(k + (q + 1)).Returned?;
  }

  lemma SucceededFirst(call: Call, rest: seq<Call>, outcomes: Outcomes, k: nat, p: nat)
    requires outcomes(k).Returned?
    ensures SucceededBefore([call] + rest, outcomes, k, p + 1, call.task)
  {
    assert ([call] + rest)[0] == call && outcomes(k + 0).Returned?;
  }

  lemma LaterDependency(
      def: JobDefinition, tasks: seq<TaskRun>, at: nat, outcomes: Outcomes, k: nat, rest: seq<Call>, p: nat, d: string)
    requires Matches(def, tasks) && at < |tasks| && p < |rest|
    requires |Iterate(def, tasks, at, outcomes(k)).tasks| == |def.tasks|
    requires DoneTask(def, Iterate(def, tasks, at, outcomes(k)).tasks, d)
             || SucceededBefore(rest, outcomes, k + 1, p, d)
    ensures DoneTask(def, tasks, d)
            || SucceededBefore([Iterate(def, tasks, at, outcomes(k)).call] + rest, outcomes, k, p + 1, d)
  {
    var call := Iterate(def, tasks, at, outcomes(k)).call;
    if SucceededBefore(rest, outcomes, k + 1, p, d) {
      SucceededLater(call, rest, outcomes, k, p, d);
    } else {
      DoneByAttempt(def, tasks, at, outcomes(k), d);
      var t := IterateIs(def, tasks, at, outcomes(k));
      if outcomes(k).Returned? {
        SucceededFirst(call, rest, outcomes, k, p);
      }
    }
  }

  lemma {:induction false} DriveHasDependenciesFirst(
      def: JobDefinition, workflow: WorkflowInstance, outcomes: Outcomes, k: nat, blocked: bool)
    requires Accepted(def) && Inv(def, workflow.tasks) && workflow.state == Running
    ensures DependenciesFirst(def, workflow.tasks, Drive(def, workflow, outcomes, k, blocked).calls, outcomes, k)
    decreases Sum(workflow.tasks, Work(def.retryPolicy))
  {
    if NextRunnable(workflow.tasks, def.tasks).None? {
      DriveDone(def, workflow, outcomes, k, blocked);
    } else {
      var at, it, after, rest := DrivePass(def, workflow, outcomes, k, blocked);
      if !it.failed {
        DriveHasDependenciesFirst(def, after, outcomes, k + 1, blocked);
      }
      var t := IterateIs(def, workflow.tasks, at, outcomes(k));
      DependenciesFirstCons(def, workflow.tasks, at, outcomes, k, rest.calls);
    }
  }

  lemma {:induction false} ExecuteHasDependenciesFirst(def: JobDefinition, workflow: WorkflowInstance, s: Session)
    requires Accepted(def) && Fresh(def, workflow)
    ensures DependenciesFirst(def, workflow.tasks, Execute(def, workflow, s).calls, s.outcomes, 0)
  {
    FreshIsInv(def, workflow.tasks);
    StartKeepsTasks(workflow);
    var started := StartRun(workflow).value;
    DriveHasDependenciesFirst(def, started, s.outcomes, 0, s.blocked);
    DecidingCallsNobody(def, Drive(def, started, s.outcomes, 0, s.blocked));
  }

  lemma NothingDoneYet(def: JobDefinition, tasks: seq<TaskRun>, d: string)
    requires |tasks| == |def.tasks| && forall t | t in tasks :: Untouched(t)
    ensures !DoneTask(def, tasks, d)
  {
    assert forall j | 0 <= j < |tasks| :: tasks[j] in tasks;
  }

  /** Dependency safety over a whole run: when a handler is called for a task, an earlier call for each of its
      dependencies has succeeded. */
  lemma {:induction false} CalledAfterDependencies(
      def: JobDefinition, workflow: WorkflowInstance, s: Session, calls: seq<Call>, p: nat, i: nat, d: string)
    requires Accepted(def) && Fresh(def, workflow) && calls == Execute(def, workflow, s).calls && p < |calls|
    requires i < |def.tasks| && calls[p].task == def.tasks[i].id && d in def.tasks[i].dependsOn
    ensures SucceededBefore(calls, s.outcomes, 0, p, d)
  {
    ExecuteHasDependenciesFirst(def, workflow, s);
    NothingDoneYet(def, workflow.tasks, d);
  }

  // ----- optional tasks

  /** The two definitions differ in nothing but the `optional` marks of their tasks. */
  ghost predicate DifferInOptional(a: JobDefinition, b: JobDefinition) {
    && b == a.(tasks := b.tasks) && |a.tasks| == |b.tasks|
    && forall i | 0 <= i < |a.tasks| :: b.tasks[i] == a.tasks[i].(optional := b.tasks[i].optional)
  }

  lemma OptionalKeepsAccepted(a: JobDefinition, b: JobDefinition)
    requires Accepted(a) && DifferInOptional(a, b)
    ensures Accepted(b)
  {
    SameIdsSameGraph(a.tasks, b.tasks);
    assert forall i | 0 <= i < |a.tasks| :: a.tasks[i] in a.tasks;
    WellFormedCarriesOver(a, b);
  }

  lemma OptionalKeepsMatches(a: JobDefinition, b: JobDefinition, tasks: seq<TaskRun>)
    requires DifferInOptional(a, b) && Matches(a, tasks)
    ensures Matches(b, tasks)
  {
    assert forall i | 0 <= i < |a.tasks| :: TaskKey(b.tasks[i]) == TaskKey(a.tasks[i]);
  }

  lemma OptionalKeepsPicked(a: JobDefinition, b: JobDefinition, tasks: seq<TaskRun>, at: nat)
    requires DifferInOptional(a, b) && |tasks| == |a.tasks|
    ensures Picked(a, tasks, at) <==> Picked(b, tasks, at)
  {
    forall i | 0 <= i < |tasks| ensures Waits(a, tasks, i) <==> Waits(b, tasks, i) {
      OptionalKeepsMet(a, b, tasks, i);
    }
  }

  lemma OptionalKeepsMet(a: JobDefinition, b: JobDefinition, tasks: seq<TaskRun>, i: nat)
    requires DifferInOptional(a, b) && |tasks| == |a.tasks| && i < |tasks|
    ensures Met(a, tasks, i) <==> Met(b, tasks, i)
  {
    assert b.tasks[i].dependsOn == a.tasks[i].dependsOn;
    assert forall j | 0 <= j < |tasks| :: b.tasks[j].id == a.tasks[j].id;
  }

  /** If one of them finds something to run, so does the other, and the same. */
  lemma {:induction false} OptionalKeepsRunnable(a: JobDefinition, b: JobDefinition, tasks: seq<TaskRun>)
    requires DifferInOptional(a, b) && Accepted(b) && Inv(a, tasks) && Inv(b, tasks)
    requires NextRunnable(tasks, a.tasks).Some?
    ensures NextRunnable(tasks, b.tasks).Some?
  {
    var at := PickIs(a, tasks);
    OptionalKeepsPicked(a, b, tasks, at);
    if NextRunnable(tasks, b.tasks).None? {
      NobodyWaits(b, tasks, at);
    }
  }

  lemma {:induction false} OptionalKeepsDone(a: JobDefinition, b: JobDefinition, tasks: seq<TaskRun>)
    requires DifferInOptional(a, b) && Accepted(a) && Inv(a, tasks) && Inv(b, tasks)
    requires NextRunnable(tasks, a.tasks).None?
    ensures NextRunnable(tasks, b.tasks).None?
  {
    if NextRunnable(tasks, b.tasks).Some? {
      OptionalKeepsRunnable(b, a, tasks);
    }
  }

  /** A pass of the loop does the same for both, up to what is left after it. */
  lemma {:induction false} SamePass(
      a: JobDefinition, b: JobDefinition, workflow: WorkflowInstance, outcomes: Outcomes, k: nat, blocked: bool)
    returns (it: Iteration, after: WorkflowInstance, restA: Driven, restB: Driven)
    requires DifferInOptional(a, b) && Accepted(a) && Accepted(b)
    requires Inv(a, workflow.tasks) && Inv(b, workflow.tasks) && workflow.state == Running
    requires NextRunnable(workflow.tasks, a.tasks).Some?
    ensures restA == restB ==> Drive(a, workflow, outcomes, k, blocked) == Drive(b, workflow, outcomes, k, blocked)
    ensures it.failed ==> restA == restB
    ensures !it.failed ==> Inv(a, after.tasks) && Inv(b, after.tasks) && after.state == Running
    ensures !it.failed ==> restA == Drive(a, after, outcomes, k + 1, blocked)
    ensures !it.failed ==> restB == Drive(b, after, outcomes, k + 1, blocked)
    ensures !it.failed ==> 0 <= Sum(after.tasks, Work(a.retryPolicy)) < Sum(workflow.tasks, Work(a.retryPolicy))
  {
    OptionalKeepsRunnable(a, b, workflow.tasks);
    var at, atB, itB, afterB;
    at, it, after, restA := DrivePass(a, workflow, outcomes, k, blocked);
    atB, itB, afterB, restB := DrivePass(b, workflow, outcomes, k, blocked);
    OptionalKeepsPicked(a, b, workflow.tasks, atB);
    PickedIsUnique(a, workflow.tasks, at, atB);
    assert b.tasks[at].handler == a.tasks[at].handler;
  }

  /** And with nothing left to run both end in the same way. */
  lemma {:induction false} SameEnding(
      a: JobDefinition, b: JobDefinition, workflow: WorkflowInstance, outcomes: Outcomes, k: nat, blocked: bool)
    requires DifferInOptional(a, b) && Accepted(a) && Accepted(b)
    requires Inv(a, workflow.tasks) && Inv(b, workflow.tasks) && workflow.state == Running
    requires NextRunnable(workflow.tasks, a.tasks).None?
    ensures Drive(a, workflow, outcomes, k, blocked) == Drive(b, workflow, outcomes, k, blocked)
  {
    OptionalKeepsDone(a, b, workflow.tasks);
    DriveDone(a, workflow, outcomes, k, blocked);
    DriveDone(b, workflow, outcomes, k, blocked);
  }

  lemma {:induction false} DriveIgnoresOptional(
      a: JobDefinition, b: JobDefinition, workflow: WorkflowInstance, outcomes: Outcomes, k: nat, blocked: bool)
    requires DifferInOptional(a, b) && Accepted(a) && Accepted(b)
    requires Inv(a, workflow.tasks) && Inv(b, workflow.tasks) && workflow.state == Running
    ensures Drive(a, workflow, outcomes, k, blocked) == Drive(b, workflow, outcomes, k, blocked)
    decreases Sum(workflow.tasks, Work(a.retryPolicy))
  {
    if NextRunnable(workflow.tasks, a.tasks).Some? {
      var it, after, restA, restB := SamePass(a, b, workflow, outcomes, k, blocked);
      if !it.failed {
        DriveIgnoresOptional(a, b, after, outcomes, k + 1, blocked);
      }
    } else {
      SameEnding(a, b, workflow, outcomes, k, blocked);
    }
  }

  /** Marking tasks as optional, or not, changes nothing about a run: not its calls, not its outcome. */
  lemma {:induction false} OptionalIsIgnored(a: JobDefinition, b: JobDefinition, workflow: WorkflowInstance, s: Session)
    requires Accepted(a) && DifferInOptional(a, b) && Fresh(a, workflow)
    ensures Accepted(b) && Fresh(b, workflow) && Execute(b, workflow, s) == Execute(a, workflow, s)
  {
    OptionalKeepsAccepted(a, b);
    OptionalKeepsMatches(a, b, workflow.tasks);
    FreshIsInv(a, workflow.tasks);
    FreshIsInv(b, workflow.tasks);
    StartKeepsTasks(workflow);
    DriveIgnoresOptional(a, b, StartRun(workflow).value, s.outcomes, 0, s.blocked);
  }
}
