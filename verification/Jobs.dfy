/** Job definitions: the records a run is driven by. */
module Jobs {
  import opened Graphs

  datatype TaskDefinition = TaskDefinition(
    id: string,
    name: string,
    handler: string,
    timeoutMs: int,
    optional: bool,
    dependsOn: seq<string>)  // [] also stands for an absent list

  datatype Severity = Warn | Block

  datatype JobConstraint = JobConstraint(id: string, expression: string, severity: Severity)

  datatype RetryPolicy = RetryPolicy(
    maxAttempts: int,
    initialDelayMs: int,
    backoffMultiplier: real,
    maxDelayMs: int)

  datatype JobDefinition = JobDefinition(
    id: string,
    name: string,
    version: int,
    tasks: seq<TaskDefinition>,
    constraints: seq<JobConstraint>,
    retryPolicy: RetryPolicy)

  function TaskKey(t: TaskDefinition): string {
    t.id
  }

  function TaskDeps(t: TaskDefinition): seq<string> {
    t.dependsOn
  }

  function TaskTimeout(t: TaskDefinition): int {
    t.timeoutMs
  }

  /** The dependency relation of a task list. */
  function GraphOf(tasks: seq<TaskDefinition>): Graph {
    MapBy(tasks, TaskKey, TaskDeps)
  }

  function WeightsOf(tasks: seq<TaskDefinition>): Weights {
    MapBy(tasks, TaskKey, TaskTimeout)
  }

  /** Task lists with the same ids and dependencies, position by position, have the same relation. */
  lemma {:induction false} SameIdsSameGraph(tasks: seq<TaskDefinition>, changed: seq<TaskDefinition>)
    requires |changed| == |tasks|
    requires forall i | 0 <= i < |tasks| :: changed[i].id == tasks[i].id && changed[i].dependsOn == tasks[i].dependsOn
    ensures GraphOf(changed) == GraphOf(tasks)
  {
    if tasks != [] {
      SameIdsSameGraph(tasks[..|tasks| - 1], changed[..|tasks| - 1]);
    }
  }
}
