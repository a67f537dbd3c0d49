/** Workflow instances and runs: the state a run moves through. */
module Workflow {
  import opened Wrappers
  import opened Graphs
  import opened Jobs

  datatype WorkflowState =
    | Draft | Pending | Running | Waiting | Completed | Failed | Cancelled | DeadLettered

  // `Executing` and `Faulted` are the statuses the engine spells "running" and "failed"
  datatype TaskStatus = Queued | Executing | Succeeded | Faulted | Skipped | Retrying

  type Payload = string

  datatype TaskRun = TaskRun(
    id: string,
    definitionTaskId: string,
    handler: string,
    status: TaskStatus,
    attempt: nat,
    output: Option<Payload>,
    errorMessage: Option<string>)

  datatype HistoryEntry = HistoryEntry(from: WorkflowState, to: WorkflowState, event: string)

  datatype WorkflowInstance = WorkflowInstance(
    id: string,
    jobId: string,
    runId: string,
    state: WorkflowState,
    tasks: seq<TaskRun>,
    history: seq<HistoryEntry>,
    version: int)

  function RunKey(t: TaskRun): string {
    t.id
  }

  function DefinitionKey(t: TaskRun): string {
    t.definitionTaskId
  }

  function StatusOf(t: TaskRun): TaskStatus {
    t.status
  }

  predicate IsDone(s: TaskStatus) {
    s == Succeeded || s == Skipped
  }

  /** The runs with every one that has the id of `task` replaced by it. */
  function ReplaceTask(tasks: seq<TaskRun>, task: TaskRun): (r: seq<TaskRun>)
    ensures |r| == |tasks|
    ensures forall i | 0 <= i < |tasks| :: r[i] == if tasks[i].id == task.id then task else tasks[i]
  {
    seq(|tasks|, i requires 0 <= i < |tasks| => if tasks[i].id == task.id then task else tasks[i])
  }

  function UpdateTask(workflow: WorkflowInstance, task: TaskRun): WorkflowInstance {
    workflow.(tasks := ReplaceTask(workflow.tasks, task))
  }

  lemma ReplaceIsUpdate(tasks: seq<TaskRun>, i: nat, task: TaskRun)
    requires i < |tasks| && DistinctKeys(tasks, RunKey) && task.id == tasks[i].id
    ensures ReplaceTask(tasks, task) == tasks[i := task]
  {
    forall j | 0 <= j < |tasks| && j != i ensures tasks[j].id != task.id {
      assert RunKey(tasks[j]) != RunKey(tasks[i]);
    }
  }

  /** The task runs stand one for one beside the definitions they were created from. */
  ghost predicate Matches(def: JobDefinition, tasks: seq<TaskRun>) {
    && |tasks| == |def.tasks|
    && DistinctKeys(def.tasks, TaskKey)
    && DistinctKeys(tasks, RunKey)
    && forall i | 0 <= i < |tasks| :: tasks[i].definitionTaskId == def.tasks[i].id
  }
}
