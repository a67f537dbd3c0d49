/** What a run leaves in its task runs: the output or the message of the last handler call made for each. */
module RunOutputs {
  import opened Wrappers
  import opened Jobs
  import opened Workflow
  import opened StateMachine
  import opened Retry
  import opened Scheduler
  import opened RunLoop
  import opened RunTheorems

  /** Call `p` is the last one made for task `id`. */
  ghost predicate LastFor(calls: seq<Call>, id: string, p: nat) {
    p < |calls| && calls[p].task == id && forall q | p < q < |calls| :: calls[q].task != id
  }

  ghost predicate NotCalled(calls: seq<Call>, id: string) {
    forall c | c in calls :: c.task != id
  }

  /** No call for the task has returned. */
  ghost predicate NoneReturned(calls: seq<Call>, id: string, outcomes: Outcomes, k: nat) {
    forall p: nat | p < |calls| && calls[p].task == id :: !outcomes(k + p).Returned?
  }

  /** The task run holds what the handler gave. */
  ghost predicate Holds(t: TaskRun, outcome: Outcome) {
    match outcome
    case Returned(output) => t.status == Succeeded && t.output == Some(output)
    case _ => (t.status == Faulted || t.status == Queued) && t.errorMessage == Some(outcome.message)
  }

  ghost predicate SameTask(before: TaskRun, after: TaskRun) {
    after.id == before.id && after.definitionTaskId == before.definitionTaskId && after.handler == before.handler
  }

  /** What the calls, the first of which is call `k` of the run, make of one task run: it is left alone without a call,
      and otherwise holds what its last call gave; an output comes only from a call that returned. */
  ghost predicate Reported(
      id: string, before: TaskRun, after: TaskRun, calls: seq<Call>, outcomes: Outcomes, k: nat)
  {
    && SameTask(before, after)
    && (NotCalled(calls, id) ==> after == before)
    && (forall p: nat | LastFor(calls, id, p) :: Holds(after, outcomes(k + p)) && after.attempt == calls[p].attempt)
    && (NoneReturned(calls, id, outcomes, k) ==> after.output == before.output)
  }

  lemma NotReported(id: string, t: TaskRun, outcomes: Outcomes, k: nat)
    ensures Reported(id, t, t, [], outcomes, k)
  {
  }

  lemma NotCalledCons(call: Call, rest: seq<Call>, id: string)
    ensures NotCalled([call] + rest, id) <==> call.task != id && NotCalled(rest, id)
  {
    assert forall c :: c in [call] + rest <==> c == call || c in rest;
  }

  lemma LastForCons(call: Call, rest: seq<Call>, id: string, p: nat)
    ensures p > 0 ==> (LastFor([call] + rest, id, p) <==> LastFor(rest, id, p - 1))
    ensures p == 0 ==> (LastFor([call] + rest, id, p) <==> call.task == id && NotCalled(rest, id))
  {
    var calls := [call] + rest;
    assert forall q | 0 < q < |calls| :: calls[q] == rest[q - 1];
    if p == 0 && LastFor(calls, id, p) {
      forall c | c in rest ensures c.task != id {
        var q :| 0 <= q < |rest| && rest[q] == c;
        assert calls[q + 1].task != id;
      }
    }
    if p > 0 && LastFor(calls, id, p) {
      forall q | p - 1 < q < |rest| ensures rest[q].task != id {
        assert calls[q + 1].task != id;
      }
    }
  }

  lemma NoneReturnedCons(call: Call, rest: seq<Call>, id: string, outcomes: Outcomes, k: nat)
    requires NoneReturned([call] + rest, id, outcomes, k)
    ensures NoneReturned(rest, id, outcomes, k + 1) && (call.task == id ==> !outcomes(k).Returned?)
  {
    var calls := [call] + rest;
    forall p: nat | p < |rest| && rest[p].task == id ensures !outcomes(k + 1 + p).Returned? {
      assert calls[p + 1] == rest[p] && k + (p + 1) == k + 1 + p;
    }
    assert calls[0] == call && k + 0 == k;
  }

  /** One call, and then the rest. */
  lemma {:induction false} ReportedCons(
      id: string, policy: RetryPolicy, before: TaskRun, middle: TaskRun, after: TaskRun, call: Call, rest: seq<Call>,
      outcomes: Outcomes, k: nat)
    requires Reported(id, middle, after, rest, outcomes, k + 1)
    requires if call.task == id
             then Recorded(before, policy, outcomes(k), Queued, middle) && call.attempt == middle.attempt
             else middle == before
    ensures Reported(id, before, after, [call] + rest, outcomes, k)
  {
    var calls := [call] + rest;
    NotCalledCons(call, rest, id);
    forall p: nat | LastFor(calls, id, p) ensures Holds(after, outcomes(k + p)) && after.attempt == calls[p].attempt {
      LastForCons(call, rest, id, p);
      if p > 0 {
        assert k + 1 + (p - 1) == k + p;
      }
    }
    if NoneReturned(calls, id, outcomes, k) {
      NoneReturnedCons(call, rest, id, outcomes, k);
    }
  }

  ghost predicate AllReported(
      def: JobDefinition, before: seq<TaskRun>, after: seq<TaskRun>, calls: seq<Call>, outcomes: Outcomes, k: nat)
  {
    && |after| == |before| == |def.tasks|
    && forall i | 0 <= i < |def.tasks| :: Reported(def.tasks[i].id, before[i], after[i], calls, outcomes, k)
  }

  lemma AllNotReported(def: JobDefinition, tasks: seq<TaskRun>, outcomes: Outcomes, k: nat)
    requires |tasks| == |def.tasks|
    ensures AllReported(def, tasks, tasks, [], outcomes, k)
  {
    forall i | 0 <= i < |def.tasks| ensures Reported(def.tasks[i].id, tasks[i], tasks[i], [], outcomes, k) {
      NotReported(def.tasks[i].id, tasks[i], outcomes, k);
    }
  }

  lemma {:induction false} AllReportedCons(
      def: JobDefinition, tasks: seq<TaskRun>, at: nat, after: seq<TaskRun>, rest: seq<Call>, outcomes: Outcomes,
      k: nat)
    requires Matches(def, tasks) && at < |tasks|
    requires AllReported(def, Iterate(def, tasks, at, outcomes(k)).tasks, after, rest, outcomes, k + 1)
    ensures AllReported(def, tasks, after, [Iterate(def, tasks, at, outcomes(k)).call] + rest, outcomes, k)
  {
    var it := Iterate(def, tasks, at, outcomes(k));
    var t := IterateIs(def, tasks, at, outcomes(k));
    forall i | 0 <= i < |def.tasks|
      ensures Reported(def.tasks[i].id, tasks[i], after[i], [it.call] + rest, outcomes, k)
    {
      if i != at {
        assert TaskKey(def.tasks[i]) != TaskKey(def.tasks[at]);
      }
      ReportedCons(def.tasks[i].id, def.retryPolicy, tasks[i], it.tasks[i], after[i], it.call, rest, outcomes, k);
    }
  }

  lemma SettleKeepsTasks(workflow: WorkflowInstance, event: string, target: WorkflowState)
    ensures var r := Settle(workflow, [], Next(workflow, event, target));
            r.workflow.tasks == workflow.tasks && r.calls == []
  {
  }

  lemma EndingKeepsTasks(def: JobDefinition, workflow: WorkflowInstance, blocked: bool, r: Driven)
    requires r == Ending(def, workflow, blocked)
    ensures r.workflow.tasks == workflow.tasks && r.calls == []
  {
    SettleKeepsTasks(workflow, "await", Waiting);
    SettleKeepsTasks(workflow, "complete", Completed);
  }

  /** The loop reports what its calls gave, for any job at all. */
  lemma {:induction false} DriveReports(
      def: JobDefinition, workflow: WorkflowInstance, outcomes: Outcomes, k: nat, blocked: bool, r: Driven)
    requires Matches(def, workflow.tasks) && r == Drive(def, workflow, outcomes, k, blocked)
    ensures AllReported(def, workflow.tasks, r.workflow.tasks, r.calls, outcomes, k)
    decreases Sum(workflow.tasks, Work(def.retryPolicy))
  {
    AllNotReported(def, workflow.tasks, outcomes, k);
    if workflow.state == Running {
      if NextRunnable(workflow.tasks, def.tasks).None? {
        DriveStops(def, workflow, outcomes, k, blocked);
        EndingKeepsTasks(def, workflow, blocked, r);
      } else {
        PassReports(def, workflow, outcomes, k, blocked, r);
      }
    }
  }

  lemma {:induction false} PassReports(
      def: JobDefinition, workflow: WorkflowInstance, outcomes: Outcomes, k: nat, blocked: bool, r: Driven)
    requires Matches(def, workflow.tasks) && workflow.state == Running && NextRunnable(workflow.tasks, def.tasks).Some?
    requires r == Drive(def, workflow, outcomes, k, blocked)
    ensures AllReported(def, workflow.tasks, r.workflow.tasks, r.calls, outcomes, k)
    decreases Sum(workflow.tasks, Work(def.retryPolicy)), 0
  {
    var at := RunnableIsFound(def, workflow.tasks);
    var it := Iterate(def, workflow.tasks, at, outcomes(k));
    var after := workflow.(tasks := it.tasks);
    var rest := DriveRest(def, workflow, outcomes, k, blocked, at, it, after);
    if it.failed {
      AllNotReported(def, it.tasks, outcomes, k + 1);
    } else {
      WorkIsNat(after.tasks, def.retryPolicy);
      DriveReports(def, after, outcomes, k + 1, blocked, rest);
    }
    AllReportedCons(def, workflow.tasks, at, rest.workflow.tasks, rest.calls, outcomes, k);
  }

  lemma {:induction false} DeadLetterKeepsTasks(def: JobDefinition, driven: Driven, r: Driven)
    requires r == DeadLetter(def, driven)
    ensures r.workflow.tasks == driven.workflow.tasks && r.calls == driven.calls
  {
  }

  /** And so does a whole execution. */
  lemma {:induction false} ExecuteReports(def: JobDefinition, workflow: WorkflowInstance, s: Session, r: Driven)
    requires Matches(def, workflow.tasks) && r == Execute(def, workflow, s)
    ensures AllReported(def, workflow.tasks, r.workflow.tasks, r.calls, s.outcomes, 0)
  {
    StartKeepsTasks(workflow);
    var driven := Drive(def, StartRun(workflow).value, s.outcomes, 0, s.blocked);
    DriveReports(def, StartRun(workflow).value, s.outcomes, 0, s.blocked, driven);
    DeadLetterKeepsTasks(def, driven, r);
  }

  lemma {:induction false} LastCall(calls: seq<Call>, id: string) returns (p: nat)
    requires !NotCalled(calls, id)
    ensures LastFor(calls, id, p)
  {
    var last := |calls| - 1;
    if calls[last].task == id {
      p := last;
    } else {
      assert calls == calls[..last] + [calls[last]];
      p := LastCall(calls[..last], id);
    }
  }

  /** After an execution of a fresh run a task has succeeded exactly if the last handler call made for it returned, and
      then it holds that call's output; a failed task holds the message of its last call, which did not return. */
  lemma {:induction false} FreshRunReports(def: JobDefinition, workflow: WorkflowInstance, s: Session, i: nat)
    requires Fresh(def, workflow) && i < |def.tasks|
    ensures |Execute(def, workflow, s).workflow.tasks| == |def.tasks|
    ensures var r, id := Execute(def, workflow, s), def.tasks[i].id;
            var t := r.workflow.tasks[i];
            && (t.status == Succeeded <==> exists p: nat :: LastFor(r.calls, id, p) && s.outcomes(p).Returned?)
            && (forall p: nat | LastFor(r.calls, id, p) ::
                  match s.outcomes(p)
                  case Returned(output) => t.output == Some(output)
                  case Declined(message) => t.errorMessage == Some(message)
                  case Threw(message) => t.errorMessage == Some(message))
            && (NotCalled(r.calls, id) ==> t == workflow.tasks[i])
  {
    var r, id := Execute(def, workflow, s), def.tasks[i].id;
    ExecuteReports(def, workflow, s, r);
    assert Reported(id, workflow.tasks[i], r.workflow.tasks[i], r.calls, s.outcomes, 0);
    assert workflow.tasks[i] in workflow.tasks;
    forall p: nat | LastFor(r.calls, id, p) ensures Holds(r.workflow.tasks[i], s.outcomes(p)) {
      assert 0 + p == p;
    }
    if !NotCalled(r.calls, id) {
      var p := LastCall(r.calls, id);
    }
  }
}
