/** `ExecutionService`: `executeRun` over the stores and locks. */
module Execution {
  import opened Wrappers
  import opened Jobs
  import opened Workflow
  import opened StateMachine
  import opened Retry
  import opened Scheduler
  import opened RunLoop
  import opened RunTheorems
  import opened Orchestrator

  datatype Failure =
    | NotFound(entity: string, id: string)
    | LockedBy(owner: string)
    | Raised(error: RunError)

  /** `RunLockRegistry`: which owner holds which run. */
  class RunLockRegistry {
    var locks: map<string, string>

    constructor ()
      ensures locks == map[]
    {
      locks := map[];
    }

    /** Somebody else holds the run. A holder with an empty name counts as none. */
    predicate HeldByOther(runId: string, owner: string)
      reads this
    {
      runId in locks && locks[runId] != "" && locks[runId] != owner
    }

    method Acquire(runId: string, owner: string) returns (conflict: Option<string>)
      modifies this
      ensures conflict.Some? <==> old(HeldByOther(runId, owner))
      ensures conflict.Some? <==> runId in old(locks) && old(locks)[runId] != "" && old(locks)[runId] != owner
      ensures conflict.Some? ==> locks == old(locks) && conflict.value == locks[runId]
      ensures conflict.None? ==> locks == old(locks)[runId := owner]
    {
      if HeldByOther(runId, owner) {
        return Some(locks[runId]);
      }
      locks := locks[runId := owner];
      return None;
    }

    method Release(runId: string, owner: string)
      modifies this
      ensures locks == if runId in old(locks) && old(locks)[runId] == owner then old(locks) - {runId} else old(locks)
    {
      if runId in locks && locks[runId] == owner {
        locks := locks - {runId};
      }
    }
  }

  const OWNER := "execution-service"

  class ExecutionService {
    const workflowStore: WorkflowStore
    const runStore: RunStore
    const orchestrator: WorkflowOrchestrator
    const runLocks: RunLockRegistry
    var jobs: map<string, JobDefinition>
    var localLocks: set<string>
    var deadLetters: seq<(string, string)>  // run id and workflow id

    /** The handler calls made so far, in order, each with the sleep that followed it. */
    ghost var called: seq<Call>

    constructor (jobs: map<string, JobDefinition>, workflowStore: WorkflowStore, runStore: RunStore,
                 orchestrator: WorkflowOrchestrator, runLocks: RunLockRegistry)
      requires orchestrator.workflowStore == workflowStore && orchestrator.runStore == runStore
      requires runStore.Valid()
      ensures Valid() && localLocks == {} && deadLetters == [] && called == [] && this.jobs == jobs
      ensures this.workflowStore == workflowStore && this.runStore == runStore && this.runLocks == runLocks
    {
      this.jobs, this.workflowStore, this.runStore := jobs, workflowStore, runStore;
      this.orchestrator, this.runLocks := orchestrator, runLocks;
      localLocks, deadLetters, called := {}, [], [];
    }

    ghost predicate Valid()
      reads this, runStore
    {
      orchestrator.workflowStore == workflowStore && orchestrator.runStore == runStore && runStore.Valid()
    }

    /** The three records of a run, as `createRun` files them, with the record agreeing with the workflow. */
    ghost predicate Filed(runId: string, definition: JobDefinition, workflow: WorkflowInstance)
      reads this, runStore, workflowStore, runStore.RecordOf(runId)
    {
      && runId in runStore.byId && runStore.byId[runId].jobId in jobs
      && definition == jobs[runStore.byId[runId].jobId]
      && Stored(runId, workflow)
      && Matches(definition, workflow.tasks)
    }

    ghost predicate Stored(runId: string, workflow: WorkflowInstance)
      reads runStore, workflowStore, runStore.RecordOf(runId)
    {
      && workflow.runId == runId
      && workflowStore.GetByRunId(runId) == Some(workflow)
      && workflowStore.byRunId[runId] == workflow.id
      && runId in runStore.byId && runStore.byId[runId].Mirrors(workflow)
    }

    method UpdateTask(workflow: WorkflowInstance, task: TaskRun) returns (updated: WorkflowInstance)
      requires Valid() && Stored(workflow.runId, workflow)
      modifies workflowStore
      ensures updated == Workflow.UpdateTask(workflow, task)
      ensures Valid() && Stored(workflow.runId, updated)
    {
      updated := workflow.(tasks := ReplaceTask(workflow.tasks, task));
      workflowStore.Save(updated);
    }

    /** A transition of the stored instance, as the loop makes it. */
    method Move(workflow: WorkflowInstance, event: string, target: WorkflowState)
      returns (r: Result<WorkflowInstance, TransitionError>)
      requires Valid() && Stored(workflow.runId, workflow) && !IsTerminal(workflow.state)
      modifies workflowStore, runStore, runStore.RecordOf(workflow.runId)
      ensures Valid() && runStore.byId == old(runStore.byId)
      ensures r == Next(workflow, event, target)
      ensures r.Ok? ==> r.value.id == workflow.id && r.value.runId == workflow.runId && r.value.state == target
      ensures Stored(workflow.runId, if r.Ok? then r.value else workflow)
    {
      r := orchestrator.ApplyTransition(workflow, event, target);
    }

    /** One attempt at the task run at position `at`, saved before and after the sleep of a retry. */
    method AttemptTask(
        definition: JobDefinition, nextDef: TaskDefinition, workflow: WorkflowInstance, at: nat, outcome: Outcome)
      returns (updated: WorkflowInstance, failed: bool)
      requires Valid() && Stored(workflow.runId, workflow)
      requires at < |workflow.tasks| == |definition.tasks| && nextDef == definition.tasks[at]
      modifies this`called, workflowStore
      ensures Valid() && Stored(workflow.runId, updated)
      ensures var it := Iterate(definition, workflow.tasks, at, outcome);
              updated == workflow.(tasks := it.tasks) && failed == it.failed && called == old(called) + [it.call]
    {
      var taskRun := workflow.tasks[at];
      var result := RunTask(taskRun, definition.retryPolicy, outcome);
      called := called
        + [Call(taskRun.definitionTaskId, nextDef.handler, result.task.attempt, result.retryAfterMs)];
      updated := UpdateTask(workflow, result.task);
      if result.retryAfterMs.Some? {
        updated := UpdateTask(updated, result.task.(status := Queued));
      }
      failed := result.task.status == Faulted;
    }

    /** The last step of the loop: completion or waiting. */
    method Finish(definition: JobDefinition, workflow: WorkflowInstance, blocked: bool)
      returns (after: WorkflowInstance, error: Option<RunError>)
      requires Valid() && Stored(workflow.runId, workflow) && workflow.state == Running
      modifies workflowStore, runStore, runStore.RecordOf(workflow.runId)
      ensures Valid() && runStore.byId == old(runStore.byId)
      ensures Driven(after, [], error) == Ending(definition, workflow, blocked)
      ensures Stored(workflow.runId, after) && after.id == workflow.id && after.state != DeadLettered
    {
      if AllDone(workflow.tasks, definition.tasks) && blocked {
        return workflow, Some(ConstraintsBlocked);
      }
      var done := AllDone(workflow.tasks, definition.tasks);
      var moved := Move(workflow, if done then "complete" else "await", if done then Completed else Waiting);
      after, error := AfterMove(workflow, moved);
    }

    /** The last step after a task has used up its attempts. */
    method Fail(workflow: WorkflowInstance) returns (after: WorkflowInstance, error: Option<RunError>)
      requires Valid() && Stored(workflow.runId, workflow) && workflow.state == Running
      modifies workflowStore, runStore, runStore.RecordOf(workflow.runId)
      ensures Valid() && runStore.byId == old(runStore.byId)
      ensures Driven(after, [], error) == Settle(workflow, [], Next(workflow, "fail", Failed))
      ensures Stored(workflow.runId, after) && after.id == workflow.id && after.state != DeadLettered
    {
      var moved := Move(workflow, "fail", Failed);
      after, error := AfterMove(workflow, moved);
    }

    /** The instance a transition leaves, and the error it raises. */
    method AfterMove(workflow: WorkflowInstance, moved: Result<WorkflowInstance, TransitionError>)
      returns (after: WorkflowInstance, error: Option<RunError>)
      ensures Driven(after, [], error) == Settle(workflow, [], moved)
    {
      match moved {
        case Ok(next) => return next, None;
        case Err(e) => return workflow, Some(Refused(e));
      }
    }

    /** One attempt, and the end of the run if it was the last one the task had. */
    method RunTaskPass(
        definition: JobDefinition, nextDef: TaskDefinition, workflow: WorkflowInstance, at: nat, outcome: Outcome)
      returns (after: WorkflowInstance, error: Option<RunError>, ended: bool)
      requires Valid() && Stored(workflow.runId, workflow) && workflow.state == Running
      requires at < |workflow.tasks| == |definition.tasks| && nextDef == definition.tasks[at]
      modifies this`called, workflowStore, runStore, runStore.RecordOf(workflow.runId)
      ensures Valid() && runStore.byId == old(runStore.byId)
      ensures Stored(workflow.runId, after) && after.id == workflow.id && after.runId == workflow.runId
      ensures var it := Iterate(definition, workflow.tasks, at, outcome);
              var run := workflow.(tasks := it.tasks);
              && called == old(called) + [it.call] && ended == it.failed && after.state != DeadLettered
              && Driven(after, [], error) ==
                 if ended then Settle(run, [], Next(run, "fail", Failed)) else Driven(run, [], None)
    {
      error := None;
      after, ended := AttemptTask(definition, nextDef, workflow, at, outcome);
      if ended {
        after, error := Fail(after);
      }
    }

    /** The `while` loop leaves the stores, the error it raises and the handler calls it makes as `Drive` says. */
    method Loop(definition: JobDefinition, started: WorkflowInstance, s: Session, ghost all: Driven)
      returns (workflow: WorkflowInstance, error: Option<RunError>)
      requires Valid() && Stored(started.runId, started) && Matches(definition, started.tasks)
      requires all == Drive(definition, started, s.outcomes, 0, s.blocked)
      modifies this`called, workflowStore, runStore, runStore.RecordOf(started.runId)
      ensures Valid() && runStore.byId == old(runStore.byId)
      ensures workflow == all.workflow && error == all.error && called == old(called) + all.calls
      ensures Stored(started.runId, workflow) && workflow.id == started.id
      ensures workflow.state == DeadLettered ==> started.state == DeadLettered
    {
      workflow, error := started, None;
      ghost var left := all;
      var k: nat := 0;
      while workflow.state == Running
        invariant Valid() && runStore.byId == old(runStore.byId) && error == None
        invariant workflow.runId == started.runId && workflow.id == started.id && Stored(started.runId, workflow)
        invariant workflow.state == Running || workflow == started
        invariant Owes(definition, workflow, s, k, all, left, old(called), called)
        decreases Sum(workflow.tasks, Work(definition.retryPolicy))
      {
        var nextDef := NextRunnable(workflow.tasks, definition.tasks);
        if nextDef.None? {
          FinishIsOwed(definition, workflow, s, k, all, left, old(called), called);
          workflow, error := Finish(definition, workflow, s.blocked);
          return;
        }
        left := PassIsOwed(definition, workflow, s, k, all, left, old(called), called);
        var found := FindRun(workflow.tasks, nextDef.value.id).value;
        var ended;
        workflow, error, ended := RunTaskPass(definition, nextDef.value, workflow, found, s.outcomes(k));
        if ended {
          return;
        }
        k := k + 1;
      }
      NothingIsOwed(definition, workflow, s, k, all, left, old(called), called);
    }

    /** A failed run whose attempts reach the global budget goes to the dead letters. */
    method Decide(definition: JobDefinition, workflow: WorkflowInstance) returns (after: WorkflowInstance)
      requires Valid() && Stored(workflow.runId, workflow)
      modifies this`deadLetters, workflowStore, runStore, runStore.RecordOf(workflow.runId)
      ensures Valid() && runStore.byId == old(runStore.byId)
      ensures after == DeadLetter(definition, Driven(workflow, [], None)).workflow
      ensures Stored(workflow.runId, after)
      ensures deadLetters == old(deadLetters) +
                if workflow.state == Failed && after.state == DeadLettered then [(workflow.runId, workflow.id)] else []
    {
      after := workflow;
      if workflow.state == Failed {
        var attempts := TotalAttempts(workflow.tasks);
        if attempts >= definition.retryPolicy.maxAttempts * |definition.tasks| {
          NextDeadLetters(workflow);
          var moved := Move(workflow, "dead_letter", DeadLettered);
          after := moved.value;
          deadLetters := deadLetters + [(workflow.runId, workflow.id)];
        }
      }
    }

    /** `startRun` */
    method Start(loaded: WorkflowInstance) returns (started: WorkflowInstance)
      requires Valid() && Stored(loaded.runId, loaded)
      modifies workflowStore, runStore, runStore.RecordOf(loaded.runId)
      ensures Valid() && runStore.byId == old(runStore.byId)
      ensures StartRun(loaded) == Ok(started) && Stored(loaded.runId, started)
      ensures started.id == loaded.id && started.runId == loaded.runId && started.tasks == loaded.tasks
      ensures started.state == DeadLettered <==> loaded.state == DeadLettered
    {
      StartKeepsTasks(loaded);
      started := loaded;
      if loaded.state == Pending {
        var moved := Move(loaded, "start", Running);
        started := moved.value;
      }
    }

    method LoopAndDecide(definition: JobDefinition, started: WorkflowInstance, s: Session)
      returns (error: Option<RunError>)
      requires Valid() && Stored(started.runId, started) && Matches(definition, started.tasks)
      modifies this`called, this`deadLetters, workflowStore, runStore, runStore.RecordOf(started.runId)
      ensures Valid() && runStore.byId == old(runStore.byId)
      ensures var executed := DeadLetter(definition, Drive(definition, started, s.outcomes, 0, s.blocked));
              && error == executed.error && Stored(started.runId, executed.workflow)
              && called == old(called) + executed.calls
              && deadLetters == old(deadLetters) + Buried(started, executed)
    {
      ghost var all := Drive(definition, started, s.outcomes, 0, s.blocked);
      DecidesOnWorkflow(definition, all);
      var workflow;
      workflow, error := Loop(definition, started, s, all);
      if error.None? {
        var decided := Decide(definition, workflow);
      }
    }

    /** The records `executeRun` needs are all there. */
    ghost predicate Loadable(runId: string)
      reads this, runStore, workflowStore
    {
      runId in runStore.byId && runStore.byId[runId].jobId in jobs && workflowStore.GetByRunId(runId).Some?
    }

    /** Which of the three records is missed first. */
    ghost function Missing(runId: string): Failure
      requires !Loadable(runId)
      reads this, runStore, workflowStore
    {
      if runId !in runStore.byId then NotFound("JobRun", runId)
      else if runStore.byId[runId].jobId !in jobs then NotFound("JobDefinition", runStore.byId[runId].jobId)
      else NotFound("WorkflowInstance", runId)
    }

    /** What `executeRun` is to do with a run whose records are all there. */
    ghost function Planned(runId: string, s: Session): Driven
      requires Loadable(runId) && Matches(jobs[runStore.byId[runId].jobId], workflowStore.GetByRunId(runId).value.tasks)
      reads this, runStore, workflowStore
    {
      Execute(jobs[runStore.byId[runId].jobId], workflowStore.GetByRunId(runId).value, s)
    }

    /** If its records are all there, they agree. */
    ghost predicate Ready(runId: string)
      reads this, runStore, workflowStore, runStore.RecordOf(runId)
    {
      Loadable(runId) ==> Filed(runId, jobs[runStore.byId[runId].jobId], workflowStore.GetByRunId(runId).value)
    }

    /** The body of the `try` block: the three look-ups, then the run. */
    method LoadAndRun(runId: string, s: Session) returns (r: Option<Failure>)
      requires Valid() && Ready(runId)
      modifies this`called, this`deadLetters, workflowStore, runStore, runStore.RecordOf(runId)
      ensures Valid() && runStore.byId == old(runStore.byId)
      ensures !old(Loadable(runId)) ==>
                r == Some(old(Missing(runId))) && unchanged(workflowStore) && unchanged(runStore.RecordOf(runId))
                && deadLetters == old(deadLetters) && called == old(called)
      ensures old(Loadable(runId)) ==>
                var executed := old(Planned(runId, s));
                && r == (if executed.error.Some? then Some(Raised(executed.error.value)) else None)
                && Stored(runId, executed.workflow)
                && called == old(called) + executed.calls
                && deadLetters == old(deadLetters) + Buried(old(workflowStore.GetByRunId(runId).value), executed)
    {
      var run := runStore.Get(runId);
      if run.None? {
        return Some(NotFound("JobRun", runId));
      }
      if run.value.jobId !in jobs {
        return Some(NotFound("JobDefinition", run.value.jobId));
      }
      var loaded := workflowStore.GetByRunId(runId);
      if loaded.None? {
        return Some(NotFound("WorkflowInstance", runId));
      }
      var started := Start(loaded.value);
      var error := LoopAndDecide(jobs[run.value.jobId], started, s);
      r := if error.Some? then Some(Raised(error.value)) else None;
    }

    /** `executeRun`. A run already being executed here is left alone. A run that another owner holds raises, and stays
        marked as being executed here for ever. In every other case both locks are given back, whatever is raised. */
    method ExecuteRun(runId: string, s: Session) returns (r: Option<Failure>)
      requires Valid() && Ready(runId)
      modifies this`localLocks, this`called, this`deadLetters, runLocks
      modifies workflowStore, runStore, runStore.RecordOf(runId)
      ensures Valid() && runStore.byId == old(runStore.byId)
      ensures || runId in old(localLocks) || old(runLocks.HeldByOther(runId, "execution-service"))
              || !old(Loadable(runId)) ==>
                unchanged(workflowStore) && unchanged(runStore.RecordOf(runId))
                && deadLetters == old(deadLetters) && called == old(called)
      ensures runId in old(localLocks) ==> r == None && localLocks == old(localLocks) && unchanged(runLocks)
      ensures runId !in old(localLocks) && old(runLocks.HeldByOther(runId, "execution-service")) ==>
                r == Some(LockedBy(old(runLocks.locks)[runId])) && localLocks == old(localLocks) + {runId}
                && runLocks.locks == old(runLocks.locks)
      ensures runId !in old(localLocks) && !old(runLocks.HeldByOther(runId, "execution-service")) ==>
                && localLocks == old(localLocks) && runLocks.locks == old(runLocks.locks) - {runId}
                && (!old(Loadable(runId)) ==> r == Some(old(Missing(runId))))
                && (old(Loadable(runId)) ==>
                      var executed := old(Planned(runId, s));
                      && r == (if executed.error.Some? then Some(Raised(executed.error.value)) else None)
                      && Stored(runId, executed.workflow)
                      && called == old(called) + executed.calls
                      && deadLetters == old(deadLetters) + Buried(old(workflowStore.GetByRunId(runId).value), executed))
    {
      if runId in localLocks {
        return None;
      }
      localLocks := localLocks + {runId};
      var conflict := runLocks.Acquire(runId, OWNER);
      if conflict.Some? {
        return Some(LockedBy(conflict.value));
      }
      r := LoadAndRun(runId, s);
      localLocks := localLocks - {runId};
      runLocks.Release(runId, OWNER);
    }
  }

  /** The dead letter that an execution of this instance leaves, if any. */
  function Buried(loaded: WorkflowInstance, executed: Driven): seq<(string, string)> {
    if executed.workflow.state == DeadLettered && loaded.state != DeadLettered then [(loaded.runId, loaded.id)] else []
  }

  /** After the calls in `now`, of which those in `before` were made earlier, doing `left` completes doing `all`. */
  ghost predicate Continues(all: Driven, left: Driven, before: seq<Call>, now: seq<Call>) {
    all.workflow == left.workflow && all.error == left.error && before + all.calls == now + left.calls
  }

  lemma NothingLeft(all: Driven, left: Driven, before: seq<Call>, now: seq<Call>)
    requires Continues(all, left, before, now) && left.calls == []
    ensures now == before + all.calls && left.workflow == all.workflow && left.error == all.error
  {
    assert now + [] == now;
  }

  /** The loop invariant: `left` is what the loop still has to do of `all`. */
  ghost predicate Owes(
      def: JobDefinition, workflow: WorkflowInstance, s: Session, k: nat, all: Driven, left: Driven, before: seq<Call>,
      now: seq<Call>)
  {
    && Matches(def, workflow.tasks)
    && left == Drive(def, workflow, s.outcomes, k, s.blocked) && Continues(all, left, before, now)
  }

  lemma NothingIsOwed(
      def: JobDefinition, workflow: WorkflowInstance, s: Session, k: nat, all: Driven, left: Driven, before: seq<Call>,
      now: seq<Call>)
    requires Owes(def, workflow, s, k, all, left, before, now) && workflow.state != Running
    ensures workflow == all.workflow && all.error == None && now == before + all.calls
  {
    NothingLeft(all, left, before, now);
  }

  lemma FinishIsOwed(
      def: JobDefinition, workflow: WorkflowInstance, s: Session, k: nat, all: Driven, left: Driven, before: seq<Call>,
      now: seq<Call>)
    requires Owes(def, workflow, s, k, all, left, before, now) && workflow.state == Running
    requires NextRunnable(workflow.tasks, def.tasks).None?
    ensures Driven(all.workflow, [], all.error) == Ending(def, workflow, s.blocked) && now == before + all.calls
  {
    DriveStops(def, workflow, s.outcomes, k, s.blocked);
    NothingLeft(all, left, before, now);
  }

  lemma CallAndRest(before: seq<Call>, call: Call, rest: seq<Call>)
    ensures before + ([call] + rest) == before + [call] + rest
  {
  }

  /** What a pass of the loop that runs a task leaves for the rest of the loop to do. */
  lemma {:induction false} PassOfLoop(
      def: JobDefinition, workflow: WorkflowInstance, outcomes: Outcomes, k: nat, blocked: bool)
    requires Matches(def, workflow.tasks) && workflow.state == Running && NextRunnable(workflow.tasks, def.tasks).Some?
    ensures var found := FindRun(workflow.tasks, NextRunnable(workflow.tasks, def.tasks).value.id);
            && found.Some? && found.value < |workflow.tasks| == |def.tasks|
            && NextRunnable(workflow.tasks, def.tasks) == Some(def.tasks[found.value])
            && var it := Iterate(def, workflow.tasks, found.value, outcomes(k));
               var after := workflow.(tasks := it.tasks);
               var all := Drive(def, workflow, outcomes, k, blocked);
               && Matches(def, after.tasks)
               && (it.failed ==>
                     Next(after, "fail", Failed) == Ok(all.workflow) && all.error == None && all.calls == [it.call])
               && (!it.failed ==>
                     && 0 <= Sum(after.tasks, Work(def.retryPolicy)) < Sum(workflow.tasks, Work(def.retryPolicy))
                     && var rest := Drive(def, after, outcomes, k + 1, blocked);
                        all == rest.(calls := [it.call] + rest.calls))
  {
    var at := RunnableIsFound(def, workflow.tasks);
    var it := Iterate(def, workflow.tasks, at, outcomes(k));
    var after := workflow.(tasks := it.tasks);
    DriveStep(def, workflow, outcomes, k, blocked, at, it, after);
    WorkIsNat(it.tasks, def.retryPolicy);
    NextFails(after);
  }

  /** After an attempt at the task found, with the handler call it makes, the rest is owed; or nothing, if it failed. */
  lemma PassIsOwed(
      def: JobDefinition, workflow: WorkflowInstance, s: Session, k: nat, all: Driven, left: Driven, before: seq<Call>,
      now: seq<Call>)
    returns (rest: Driven)
    requires Owes(def, workflow, s, k, all, left, before, now) && workflow.state == Running
    requires NextRunnable(workflow.tasks, def.tasks).Some?
    ensures var found := FindRun(workflow.tasks, NextRunnable(workflow.tasks, def.tasks).value.id);
            && found.Some? && found.value < |workflow.tasks| == |def.tasks|
            && NextRunnable(workflow.tasks, def.tasks) == Some(def.tasks[found.value])
            && var it := Iterate(def, workflow.tasks, found.value, s.outcomes(k));
               var after := workflow.(tasks := it.tasks);
               if it.failed then
                 && Driven(all.workflow, [], all.error) == Settle(after, [], Next(after, "fail", Failed))
                 && now + [it.call] == before + all.calls
               else
                 && 0 <= Sum(after.tasks, Work(def.retryPolicy)) < Sum(workflow.tasks, Work(def.retryPolicy))
                 && Owes(def, after, s, k + 1, all, rest, before, now + [it.call])
  {
    PassOfLoop(def, workflow, s.outcomes, k, s.blocked);
    var found := FindRun(workflow.tasks, NextRunnable(workflow.tasks, def.tasks).value.id).value;
    var it := Iterate(def, workflow.tasks, found, s.outcomes(k));
    var after := workflow.(tasks := it.tasks);
    if it.failed {
      rest := left;
    } else {
      rest := Drive(def, after, s.outcomes, k + 1, s.blocked);
      CallAndRest(now, it.call, rest.calls);
    }
  }

  lemma {:induction false} DecidesOnWorkflow(def: JobDefinition, r: Driven)
    ensures DeadLetter(def, r).calls == r.calls
    ensures r.error.Some? ==> DeadLetter(def, r) == r
    ensures r.error.None? ==>
              DeadLetter(def, r).workflow == DeadLetter(def, Driven(r.workflow, [], None)).workflow
              && DeadLetter(def, r).error == None
  {
    if r.workflow.state == Failed {
      NextDeadLetters(r.workflow);
    }
  }
}
