/** `WorkflowDslCompiler`: from text to a job definition, and what the engine makes of the result. */
module DslCompiler {
  import opened Wrappers
  import opened Graphs
  import opened Jobs
  import opened Validator
  import opened DagPlanner
  import opened DslAst
  import opened DslParser
  import opened Optimizer
  import opened Workflow
  import opened RunTheorems
  import opened RunTraces

  const DEFAULT_RETRY_POLICY := RetryPolicy(3, 500, 2.0, 30000)

  /** `toLowerCase` on an identifier; it holds no white space for `replace` to touch. */
  function Lowercase(name: string): string {
    seq(|name|, i requires 0 <= i < |name| => if 'A' <= name[i] <= 'Z' then name[i] - 'A' + 'a' else name[i])
  }

  function ToTask(t: TaskDslNode): TaskDefinition {
    TaskDefinition(t.id, t.id, t.handler, t.timeoutMs, t.optional, t.dependsOn)
  }

  function ToTasks(tasks: seq<TaskDslNode>): (defs: seq<TaskDefinition>)
    ensures |defs| == |tasks| && forall i | 0 <= i < |defs| :: defs[i] == ToTask(tasks[i])
  {
    seq(|tasks|, i requires 0 <= i < |tasks| => ToTask(tasks[i]))
  }

  function ToConstraints(cs: seq<ConstraintDslNode>): seq<JobConstraint> {
    seq(|cs|, i requires 0 <= i < |cs| => JobConstraint(cs[i].id, cs[i].expr, cs[i].severity))
  }

  function ToJobDefinition(ast: WorkflowDslNode, jobId: Option<string>): JobDefinition {
    JobDefinition(
      if jobId.Some? then jobId.value else Lowercase(ast.name),
      ast.name, ast.version, ToTasks(ast.tasks), ToConstraints(ast.constraints), DEFAULT_RETRY_POLICY)
  }

  /** The mapping keeps the dependency relation. */
  lemma {:induction false} SameRelation(tasks: seq<TaskDslNode>)
    ensures GraphOf(ToTasks(tasks)) == NodeGraph(tasks)
  {
    if tasks != [] {
      SameRelation(tasks[..|tasks| - 1]);
      assert ToTasks(tasks)[..|tasks| - 1] == ToTasks(tasks[..|tasks| - 1]);
    }
  }

  /** The definition says what the node says, and takes the id for its name. */
  ghost predicate Defines(t: TaskDefinition, n: TaskDslNode) {
    && t.id == n.id && t.name == n.id && t.handler == n.handler
    && t.timeoutMs == n.timeoutMs && t.optional == n.optional && t.dependsOn == n.dependsOn
  }

  ghost predicate DefinesAll(defs: seq<TaskDefinition>, nodes: seq<TaskDslNode>) {
    |defs| == |nodes| && forall i | 0 <= i < |defs| :: Defines(defs[i], nodes[i])
  }

  ghost predicate SameConstraints(defs: seq<JobConstraint>, nodes: seq<ConstraintDslNode>) {
    && |defs| == |nodes|
    && forall i | 0 <= i < |defs| ::
         defs[i].id == nodes[i].id && defs[i].expression == nodes[i].expr && defs[i].severity == nodes[i].severity
  }

  /** `low` is `name` with each capital letter replaced by the small one. */
  ghost predicate Lowered(low: string, name: string) {
    && |low| == |name|
    && forall i | 0 <= i < |name| ::
         if 'A' <= name[i] <= 'Z' then low[i] as int == name[i] as int + 32 else low[i] == name[i]
  }

  /** Name, version and constraints are carried over; the policy is three attempts from half a second on, doubling up to
      half a minute. */
  ghost predicate Carries(w: WorkflowDslNode, jobId: Option<string>, def: JobDefinition) {
    && def.name == w.name && def.version == w.version && SameConstraints(def.constraints, w.constraints)
    && (if jobId.Some? then def.id == jobId.value else Lowered(def.id, w.name))
    && def.retryPolicy == RetryPolicy(3, 500, 2.0, 30000)
  }

  /** The list holds the last task written for each id, with the same dependency relation, by computed depth; and if
      that relation is acyclic, every dependency precedes its dependents and the tasks stand by depth. */
  ghost predicate Lists(tasks: seq<TaskDslNode>, defs: seq<TaskDefinition>) {
    && DistinctKeys(defs, TaskKey)
    && HoldsLast(defs, tasks)
    && GraphOf(defs) == NodeGraph(tasks)
    && (Ordered(GraphOf(defs), TaskIds(defs)) <==> Acyclic(NodeGraph(tasks)))
    && (Acyclic(NodeGraph(tasks)) ==> StandsByDepth(defs))
    && (exists sorted | Listing(tasks, sorted) :: DefinesAll(defs, ByComputedDepth(sorted)))
  }

  /** What a definition compiled from `w` is. */
  ghost predicate Compiled(w: WorkflowDslNode, jobId: Option<string>, def: JobDefinition) {
    Carries(w, jobId, def) && Lists(w.tasks, def.tasks)
  }

  ghost predicate HoldsLast(defs: seq<TaskDefinition>, tasks: seq<TaskDslNode>) {
    forall t :: t in defs <==> exists i :: LastOfKey(tasks, NodeKey, i) && Defines(t, tasks[i])
  }

  ghost predicate StandsByDepth(tasks: seq<TaskDefinition>)
    requires Acyclic(GraphOf(tasks))
  {
    forall i, j | 0 <= i < j < |tasks| ::
      && tasks[i].id in GraphOf(tasks) && tasks[j].id in GraphOf(tasks)
      && Depth(GraphOf(tasks), tasks[i].id) <= Depth(GraphOf(tasks), tasks[j].id)
  }

  lemma OnePerIdHoldsLast(tasks: seq<TaskDslNode>, given: seq<TaskDslNode>)
    requires OnePerId(tasks, given)
    ensures HoldsLast(ToTasks(tasks), given)
  {
    var defs := ToTasks(tasks);
    forall t ensures t in defs <==> exists i :: LastOfKey(given, NodeKey, i) && Defines(t, given[i]) {
      if t in defs {
        var k :| 0 <= k < |defs| && defs[k] == t;
        assert tasks[k] in tasks;
        var i :| LastOfKey(given, NodeKey, i) && given[i] == tasks[k];
        assert Defines(t, given[i]);
      }
      if i :| LastOfKey(given, NodeKey, i) && Defines(t, given[i]) {
        assert given[i] in tasks;
        var k :| 0 <= k < |tasks| && tasks[k] == given[i];
        assert defs[k] == t;
      }
    }
  }

  lemma MappedCarries(w: WorkflowDslNode, jobId: Option<string>)
    ensures Carries(w, jobId, ToJobDefinition(w, jobId))
  {
  }

  lemma SameIds(tasks: seq<TaskDslNode>)
    ensures TaskIds(ToTasks(tasks)) == Ids(tasks)
    ensures DistinctKeys(tasks, NodeKey) ==> DistinctKeys(ToTasks(tasks), TaskKey)
  {
    var defs := ToTasks(tasks);
    if DistinctKeys(tasks, NodeKey) {
      forall i, j | 0 <= i < j < |defs| ensures TaskKey(defs[i]) != TaskKey(defs[j]) {
        assert NodeKey(tasks[i]) != NodeKey(tasks[j]);
      }
    }
  }

  lemma DefinedByDepth(given: seq<TaskDslNode>, tasks: seq<TaskDslNode>)
    requires exists sorted | Listing(given, sorted) :: tasks == ByComputedDepth(sorted)
    ensures exists sorted | Listing(given, sorted) :: DefinesAll(ToTasks(tasks), ByComputedDepth(sorted))
  {
    assert DefinesAll(ToTasks(tasks), tasks);
  }

  lemma OptimizedLists(given: seq<TaskDslNode>, tasks: seq<TaskDslNode>)
    requires OnePerId(tasks, given) && NodeGraph(tasks) == NodeGraph(given)
    requires DependencyFirst(NodeGraph(given), tasks) <==> Acyclic(NodeGraph(given))
    requires Acyclic(NodeGraph(given)) ==> ByDepth(NodeGraph(given), tasks)
    requires exists sorted | Listing(given, sorted) :: tasks == ByComputedDepth(sorted)
    ensures Lists(given, ToTasks(tasks))
  {
    SameRelation(tasks);
    SameIds(tasks);
    OnePerIdHoldsLast(tasks, given);
    if Acyclic(NodeGraph(given)) {
      SortedStandsByDepth(tasks);
    }
    DefinedByDepth(given, tasks);
  }

  lemma SortedStandsByDepth(tasks: seq<TaskDslNode>)
    requires Acyclic(NodeGraph(tasks)) && ByDepth(NodeGraph(tasks), tasks)
    requires GraphOf(ToTasks(tasks)) == NodeGraph(tasks)
    ensures StandsByDepth(ToTasks(tasks))
  {
    var g := NodeGraph(tasks);
    forall i, j | 0 <= i < j < |tasks|
      ensures tasks[i].id in g && tasks[j].id in g && Depth(g, tasks[i].id) <= Depth(g, tasks[j].id)
    {
      assert NodeKey(tasks[i]) in g && NodeKey(tasks[j]) in g;
      assert TrueDepth(g)(tasks[i]) <= TrueDepth(g)(tasks[j]);
    }
  }

  class WorkflowDslCompiler {
    const parser: WorkflowDslParser

    constructor ()
      ensures fresh(parser)
    {
      parser := new WorkflowDslParser();
    }

    /** Fails exactly where the parser fails, and otherwise yields a definition compiled from what was parsed. */
    method Compile(source: string, jobId: Option<string>) returns (r: Outcome<JobDefinition>)
      modifies parser
      ensures match ParseText(source)
              case Parsed(w, next) => r.Parsed? && Compiled(w, jobId, r.node)
              case Throws => r == Throws
              case Diverges => r == Diverges
    {
      var ast := parser.Parse(source);
      match ast {
        case Throws => return Throws;
        case Diverges => return Diverges;
        case Parsed(w, next) =>
          var optimized := Optimize(w);
          MappedCarries(optimized, jobId);
          OptimizedLists(w.tasks, optimized.tasks);
          return Parsed(ToJobDefinition(optimized, jobId), next);
      }
    }
  }

  // ----- what becomes of a compiled definition

  /** What a workflow text has to satisfy so that its compiled form can be registered. */
  ghost predicate Acceptable(w: WorkflowDslNode) {
    && w.tasks != []
    && Acyclic(NodeGraph(w.tasks))
    && forall i | LastOfKey(w.tasks, NodeKey, i) ::
         w.tasks[i].timeoutMs > 0 && forall d | d in w.tasks[i].dependsOn :: d in NodeGraph(w.tasks)
  }

  lemma SelfLoopIsCycle(g: Graph, id: string)
    requires id in g && id in g[id]
    ensures !Acyclic(g)
  {
    ReachesEdge(g, id, id);
  }

  lemma CompiledTaskDeps(def: JobDefinition, t: TaskDefinition)
    requires t in def.tasks && DistinctKeys(def.tasks, TaskKey)
    ensures t.id in GraphOf(def.tasks) && GraphOf(def.tasks)[t.id] == t.dependsOn
  {
    var i :| 0 <= i < |def.tasks| && def.tasks[i] == t;
    MapByDistinct(def.tasks, TaskKey, TaskDeps, i);
  }

  lemma LastIsHeld(defs: seq<TaskDefinition>, tasks: seq<TaskDslNode>, i: int)
    requires HoldsLast(defs, tasks) && LastOfKey(tasks, NodeKey, i)
    ensures ToTask(tasks[i]) in defs
  {
    assert Defines(ToTask(tasks[i]), tasks[i]);
  }

  lemma AcceptedIsAcceptable(w: WorkflowDslNode, def: JobDefinition)
    requires HoldsLast(def.tasks, w.tasks) && GraphOf(def.tasks) == NodeGraph(w.tasks) && Accepted(def)
    ensures Acceptable(w)
  {
    assert def.tasks[0] in def.tasks;
    forall i | LastOfKey(w.tasks, NodeKey, i)
      ensures w.tasks[i].timeoutMs > 0 && forall d | d in w.tasks[i].dependsOn :: d in NodeGraph(w.tasks)
    {
      LastIsHeld(def.tasks, w.tasks, i);
    }
  }

  lemma AcceptableIsAccepted(w: WorkflowDslNode, def: JobDefinition)
    requires DistinctKeys(def.tasks, TaskKey) && def.retryPolicy.maxAttempts >= 1
    requires HoldsLast(def.tasks, w.tasks) && GraphOf(def.tasks) == NodeGraph(w.tasks) && Acceptable(w)
    ensures Accepted(def)
  {
    assert LastOfKey(w.tasks, NodeKey, |w.tasks| - 1);
    LastIsHeld(def.tasks, w.tasks, |w.tasks| - 1);
    forall t | t in def.tasks
      ensures t.timeoutMs > 0 && t.id !in t.dependsOn && forall d | d in t.dependsOn :: d in NodeGraph(w.tasks)
    {
      var i :| LastOfKey(w.tasks, NodeKey, i) && Defines(t, w.tasks[i]);
      CompiledTaskDeps(def, t);
      if t.id in t.dependsOn {
        SelfLoopIsCycle(NodeGraph(w.tasks), t.id);
      }
    }
  }

  /** A compiled definition passes both checks of `register` exactly if the text is acceptable. Duplicate ids never
      stop it: the optimizer has dropped all but the last task of an id. */
  lemma CompiledIsAccepted(w: WorkflowDslNode, jobId: Option<string>, def: JobDefinition)
    requires Compiled(w, jobId, def)
    ensures Accepted(def) <==> Acceptable(w)
  {
    if Accepted(def) {
      AcceptedIsAcceptable(w, def);
    } else if Acceptable(w) {
      AcceptableIsAccepted(w, def);
    }
  }

  /** Whatever the handlers do, a run of a compiled and accepted definition starts the tasks in the compiled order. */
  lemma CompiledRunsInListOrder(
      w: WorkflowDslNode, jobId: Option<string>, def: JobDefinition, workflow: WorkflowInstance, s: Session)
    requires Compiled(w, jobId, def) && Acceptable(w) && Fresh(def, workflow)
    ensures Accepted(def) && InListOrder(def, Execute(def, workflow, s).calls, 0)
  {
    CompiledIsAccepted(w, jobId, def);
    RunsInListOrder(def, workflow, s);
  }

  /** The planner puts a task on the level that its computed depth names, and the list goes level by level. */
  ghost predicate LevelsAgree(tasks: seq<TaskDefinition>, depth: map<string, int>, levels: seq<seq<string>>) {
    && (forall i, a | 0 <= i < |tasks| && 0 <= a < |levels| && tasks[i].id in levels[a] ::
          tasks[i].id in depth && depth[tasks[i].id] == a + 1)
    && (forall i, j, a, b | 0 <= i < j < |tasks| && 0 <= a < |levels| && 0 <= b < |levels|
          && tasks[i].id in levels[a] && tasks[j].id in levels[b] :: a <= b)
  }

  /** The optimizer's one-pass depths and the planner's levels agree on every task that the planner places. */
  lemma LevelsFollowList(w: WorkflowDslNode, jobId: Option<string>, def: JobDefinition, levels: seq<seq<string>>)
    requires Compiled(w, jobId, def) && Acyclic(NodeGraph(w.tasks)) && IsLevelling(NodeGraph(w.tasks), levels)
    ensures exists sorted | Listing(w.tasks, sorted) ::
              DefinesAll(def.tasks, ByComputedDepth(sorted)) && LevelsAgree(def.tasks, DepthsOf(sorted), levels)
  {
    var sorted :| Listing(w.tasks, sorted) && DefinesAll(def.tasks, ByComputedDepth(sorted));
    ComputedDepthNamesLevel(w.tasks, sorted, def.tasks, levels);
  }

  lemma ComputedDepthNamesLevel(
      given: seq<TaskDslNode>, sorted: seq<TaskDslNode>, defs: seq<TaskDefinition>, levels: seq<seq<string>>)
    requires Acyclic(NodeGraph(given)) && OnePerId(sorted, given) && DependencyFirst(NodeGraph(given), sorted)
    requires GraphOf(defs) == NodeGraph(given) && StandsByDepth(defs) && IsLevelling(NodeGraph(given), levels)
    ensures LevelsAgree(defs, DepthsOf(sorted), levels)
  {
    OnePerIdListsAll(sorted, given);
    assert sorted[..|sorted|] == sorted;
    DepthsAreTrue(NodeGraph(given), sorted, |sorted|, DepthsOf(sorted));
    DepthNamesLevel(NodeGraph(given), defs, DepthsOf(sorted), levels);
  }

  lemma DepthNamesLevel(g: Graph, tasks: seq<TaskDefinition>, depth: map<string, int>, levels: seq<seq<string>>)
    requires Acyclic(g) && IsLevelling(g, levels) && g == GraphOf(tasks) && StandsByDepth(tasks)
    requires g.Keys <= depth.Keys && Accurate(g, depth)
    ensures LevelsAgree(tasks, depth, levels)
  {
    forall i, a | 0 <= i < |tasks| && 0 <= a < |levels| && tasks[i].id in levels[a]
      ensures tasks[i].id in depth && depth[tasks[i].id] == a + 1
    {
      assert OnLevel(g, tasks[i].id, a);
    }
    forall i, j, a, b | 0 <= i < j < |tasks| && 0 <= a < |levels| && 0 <= b < |levels|
      && tasks[i].id in levels[a] && tasks[j].id in levels[b]
      ensures a <= b
    {
      assert OnLevel(g, tasks[i].id, a) && OnLevel(g, tasks[j].id, b);
    }
  }
}
