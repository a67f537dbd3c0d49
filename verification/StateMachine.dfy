/** `TransitionValidator`, `TransitionGuard` and `WorkflowStateMachine`: which transitions a workflow may take. */
module StateMachine {
  import opened Wrappers
  import opened Workflow

  datatype TransitionRule = TransitionRule(from: WorkflowState, to: WorkflowState, event: string)

  const DEFAULT_TRANSITION_RULES: seq<TransitionRule> := [
    TransitionRule(Draft, Pending, "submit"),
    TransitionRule(Pending, Running, "start"),
    TransitionRule(Running, Waiting, "await"),
    TransitionRule(Waiting, Running, "resume"),
    TransitionRule(Running, Completed, "complete"),
    TransitionRule(Running, Failed, "fail"),
    TransitionRule(Waiting, Failed, "fail"),
    TransitionRule(Failed, Running, "retry"),
    TransitionRule(Failed, DeadLettered, "dead_letter"),
    TransitionRule(Pending, Cancelled, "cancel"),
    TransitionRule(Running, Cancelled, "cancel")
  ]

  datatype TransitionError =
    | TransitionDenied(from: WorkflowState, event: string, to: WorkflowState)
    | TasksNotSucceeded
    | NothingToRetry
    | TasksRunning

  predicate CanTransition(from: WorkflowState, to: WorkflowState, event: string) {
    TransitionRule(from, to, event) in DEFAULT_TRANSITION_RULES
  }

  predicate IsTerminal(state: WorkflowState) {
    state == Completed || state == Cancelled || state == DeadLettered
  }

  /** `TransitionGuard.evaluate`; `None` when no guard objects. */
  function Guard(instance: WorkflowInstance, event: string, target: WorkflowState): Option<TransitionError> {
    if event == "complete" && target == Completed && exists t :: t in instance.tasks && !IsDone(t.status) then
      Some(TasksNotSucceeded)
    else if event == "retry" && target == Running && forall t | t in instance.tasks :: t.status != Faulted then
      Some(NothingToRetry)
    else if event == "cancel" && instance.state == Running
         && exists t :: t in instance.tasks && t.status == Executing then
      Some(TasksRunning)
    else
      None
  }

  /** The guard and then the state machine, as `applyTransition` consults them. */
  function Next(
      instance: WorkflowInstance, event: string, target: WorkflowState): Result<WorkflowInstance, TransitionError> {
    var objection := Guard(instance, event, target);
    if objection.Some? then Err(objection.value)
    else if !CanTransition(instance.state, target, event) then Err(TransitionDenied(instance.state, event, target))
    else
      Ok(instance.(
         state := target,
         history := instance.history + [HistoryEntry(instance.state, target, event)],
         version := instance.version + 1))
  }

  // ----- what any sequence of steps keeps

  /** The history leads from `Pending` to `state` along table rules, each step taking up where the last one ended. */
  ghost predicate Leads(history: seq<HistoryEntry>, state: WorkflowState) {
    && (state == if history == [] then Pending else history[|history| - 1].to)
    && (history != [] ==> history[0].from == Pending)
    && (forall i | 0 < i < |history| :: history[i].from == history[i - 1].to)
    && (forall e | e in history :: CanTransition(e.from, e.to, e.event))
  }

  /** A workflow instance and the run record that mirrors it. */
  datatype Tracked = Tracked(workflow: WorkflowInstance, status: WorkflowState, finished: bool)

  ghost predicate Consistent(t: Tracked) {
    && Leads(t.workflow.history, t.workflow.state)
    && t.workflow.version == 1 + |t.workflow.history|
    && t.status == t.workflow.state
    && (t.finished <==> IsTerminal(t.workflow.state))
  }

  datatype Operation = Transition(event: string, target: WorkflowState) | SetTask(task: TaskRun)

  function Apply(t: Tracked, op: Operation): Tracked {
    match op
    case SetTask(task) => t.(workflow := UpdateTask(t.workflow, task))
    case Transition(event, target) =>
      match Next(t.workflow, event, target)
      case Err(_) => t
      case Ok(next) => Tracked(next, target, t.finished || IsTerminal(target))
  }

  function ApplyAll(t: Tracked, ops: seq<Operation>): Tracked {
    if ops == [] then t else Apply(ApplyAll(t, ops[..|ops| - 1]), ops[|ops| - 1])
  }

  /** The table, event by event. */
  lemma TableIs(from: WorkflowState, to: WorkflowState, event: string)
    ensures CanTransition(from, to, event) <==>
            || (event == "submit" && from == Draft && to == Pending)
            || (event == "start" && from == Pending && to == Running)
            || (event == "await" && from == Running && to == Waiting)
            || (event == "resume" && from == Waiting && to == Running)
            || (event == "complete" && from == Running && to == Completed)
            || (event == "fail" && (from == Running || from == Waiting) && to == Failed)
            || (event == "retry" && from == Failed && to == Running)
            || (event == "dead_letter" && from == Failed && to == DeadLettered)
            || (event == "cancel" && (from == Pending || from == Running) && to == Cancelled)
  {
  }

  ghost predicate AllTasksDone(tasks: seq<TaskRun>) {
    forall t | t in tasks :: t.status == Succeeded || t.status == Skipped
  }

  /** A transition is made exactly if the table has it, completing finds every task done, retrying finds a failed task,
      and cancelling a running workflow finds no task running; the guard speaks before the table. */
  lemma NextIs(instance: WorkflowInstance, event: string, target: WorkflowState)
    ensures var r, tasks := Next(instance, event, target), instance.tasks;
            && (r.Ok? <==>
                  && CanTransition(instance.state, target, event)
                  && (event == "complete" ==> AllTasksDone(tasks))
                  && (event == "retry" ==> exists t :: t in tasks && t.status == Faulted)
                  && (event == "cancel" && instance.state == Running ==>
                        forall t | t in tasks :: t.status != Executing))
            && (r.Ok? ==>
                  && r.value.state == target && r.value.tasks == tasks && r.value.version == instance.version + 1
                  && r.value.history == instance.history + [HistoryEntry(instance.state, target, event)]
                  && r.value.id == instance.id && r.value.jobId == instance.jobId && r.value.runId == instance.runId)
            && (r.Err? && CanTransition(instance.state, target, event) ==>
                  r.error == if event == "complete" then TasksNotSucceeded
                             else if event == "retry" then NothingToRetry else TasksRunning)
            && (r.Err? && r.error.TransitionDenied? ==> r.error == TransitionDenied(instance.state, event, target))
  {
    TableIs(instance.state, target, event);
  }

  /** No event leads out of completed, cancelled or dead-lettered; out of every other state some event does. */
  lemma TerminalIsAbsorbing(state: WorkflowState)
    ensures IsTerminal(state) <==> forall event, target :: !CanTransition(state, target, event)
  {
    assert CanTransition(Draft, Pending, "submit") && CanTransition(Pending, Running, "start");
    assert CanTransition(Running, Waiting, "await") && CanTransition(Waiting, Running, "resume");
    assert CanTransition(Failed, Running, "retry");
  }

  /** A task update changes the runs with that id and nothing else; a transition is made or leaves everything alone. */
  lemma ApplyKeepsConsistent(t: Tracked, op: Operation)
    requires Consistent(t)
    ensures Consistent(Apply(t, op))
    ensures op.SetTask? ==>
              var after := Apply(t, op).workflow.tasks;
              && Apply(t, op) == t.(workflow := t.workflow.(tasks := after)) && |after| == |t.workflow.tasks|
              && forall i | 0 <= i < |after| ::
                   after[i] == if t.workflow.tasks[i].id == op.task.id then op.task else t.workflow.tasks[i]
    ensures op.Transition? ==>
              var r := Next(t.workflow, op.event, op.target);
              Apply(t, op).workflow == if r.Ok? then r.value else t.workflow
  {
    TerminalIsAbsorbing(t.workflow.state);
    if op.Transition? && Next(t.workflow, op.event, op.target).Ok? {
      assert CanTransition(t.workflow.state, op.target, op.event);
      var entry := HistoryEntry(t.workflow.state, op.target, op.event);
      assert forall e | e in t.workflow.history + [entry] :: e in t.workflow.history || e == entry;
    }
  }

  /** Whatever is done to an instance, in any order: its history stays a path of table rules from pending to the
      current state, its version counts the transitions, and the run record mirrors it. */
  lemma {:induction false} HistoryStaysConnected(t: Tracked, ops: seq<Operation>)
    requires Consistent(t)
    ensures Consistent(ApplyAll(t, ops))
    ensures t.workflow.history <= ApplyAll(t, ops).workflow.history
    ensures IsTerminal(t.workflow.state) ==>
              && ApplyAll(t, ops).workflow.state == t.workflow.state
              && ApplyAll(t, ops).workflow.history == t.workflow.history
  {
    if ops != [] {
      var before := ApplyAll(t, ops[..|ops| - 1]);
      HistoryStaysConnected(t, ops[..|ops| - 1]);
      ApplyKeepsConsistent(before, ops[|ops| - 1]);
      TerminalIsAbsorbing(t.workflow.state);
    }
  }
}
