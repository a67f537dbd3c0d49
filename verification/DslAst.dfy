/** The syntax tree of the workflow language. */
module DslAst {
  import opened Graphs
  import opened Jobs

  datatype TaskDslNode = TaskDslNode(
    id: string,
    handler: string,
    timeoutMs: nat,
    dependsOn: seq<string>,
    optional: bool)

  datatype ConstraintDslNode = ConstraintDslNode(id: string, expr: string, severity: Severity)

  datatype WorkflowDslNode = WorkflowDslNode(
    name: string,
    version: nat,
    tasks: seq<TaskDslNode>,
    constraints: seq<ConstraintDslNode>)

  function NodeKey(t: TaskDslNode): string {
    t.id
  }

  function NodeDeps(t: TaskDslNode): seq<string> {
    t.dependsOn
  }

  function Itself(t: TaskDslNode): TaskDslNode {
    t
  }

  function NodeGraph(tasks: seq<TaskDslNode>): Graph {
    MapBy(tasks, NodeKey, NodeDeps)
  }

  function Ids(tasks: seq<TaskDslNode>): (ids: seq<string>)
    ensures |ids| == |tasks| && forall i | 0 <= i < |ids| :: ids[i] == tasks[i].id
  {
    seq(|tasks|, i requires 0 <= i < |tasks| => tasks[i].id)
  }
}
