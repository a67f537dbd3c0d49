/** `JobService.register` and `WorkflowService.createRun`: how definitions and runs come into being. */
module Services {
  import opened Wrappers
  import opened Graphs
  import opened Jobs
  import opened Validator
  import opened Workflow
  import opened StateMachine
  import opened Orchestrator
  import opened RunTheorems

  datatype RegisterError =
    | UnknownHandler(handler: string)
    | Invalid(issues: seq<Issue>)
    | CircularDependency(id: string)

  /** Known handler name to the default timeout of its manifest. */
  type Manifests = map<string, int>

  function CapTimeout(t: TaskDefinition, manifests: Manifests): TaskDefinition {
    if t.handler in manifests && t.timeoutMs > manifests[t.handler] * 2
    then t.(timeoutMs := manifests[t.handler] * 2) else t
  }

  /** The timeout becomes the smaller of itself and twice the manifest's; everything else is kept. */
  ghost predicate Capped(t: TaskDefinition, manifests: Manifests, resolved: TaskDefinition) {
    && resolved == t.(timeoutMs := resolved.timeoutMs)
    && if t.handler !in manifests then resolved.timeoutMs == t.timeoutMs
       else
         && resolved.timeoutMs <= t.timeoutMs && resolved.timeoutMs <= manifests[t.handler] + manifests[t.handler]
         && (resolved.timeoutMs < t.timeoutMs ==> resolved.timeoutMs == manifests[t.handler] + manifests[t.handler])
  }

  ghost predicate AllCapped(tasks: seq<TaskDefinition>, manifests: Manifests, resolved: seq<TaskDefinition>) {
    |resolved| == |tasks| && forall i | 0 <= i < |tasks| :: Capped(tasks[i], manifests, resolved[i])
  }

  /** The issues, at least one, are all defects of the definition with its timeouts capped. */
  ghost predicate ListsDefects(input: JobDefinition, manifests: Manifests, issues: seq<Issue>) {
    && issues != []
    && exists resolved | AllCapped(input.tasks, manifests, resolved) ::
         forall e :: e in issues <==> Defect(input.(tasks := resolved), e)
  }

  /** The first handler that is unknown. */
  ghost predicate FirstUnknown(tasks: seq<TaskDefinition>, manifests: Manifests, handler: string) {
    exists i :: 0 <= i < |tasks| && tasks[i].handler == handler && handler !in manifests
                && KnownHandlers(tasks[..i], manifests)
  }

  ghost predicate KnownHandlers(tasks: seq<TaskDefinition>, manifests: Manifests) {
    forall t | t in tasks :: t.handler in manifests
  }

  class JobDefinitionStore {
    var byId: map<string, JobDefinition>

    constructor ()
      ensures byId == map[] && Valid()
    {
      byId := map[];
    }

    /** Every definition is filed under its own id and has passed both checks. */
    ghost predicate Valid()
      reads this
    {
      forall id | id in byId :: byId[id].id == id && Accepted(byId[id])
    }

    function Get(id: string): Option<JobDefinition>
      reads this
    {
      if id in byId then Some(byId[id]) else None
    }

    method Save(definition: JobDefinition)
      modifies this
      ensures byId == old(byId)[definition.id := definition]
    {
      byId := byId[definition.id := definition];
    }
  }

  class JobService {
    const manifests: Manifests
    const store: JobDefinitionStore

    constructor (manifests: Manifests, store: JobDefinitionStore)
      ensures this.manifests == manifests && this.store == store
    {
      this.manifests, this.store := manifests, store;
    }

    /** `HandlerResolver.resolveTasks` */
    method ResolveTasks(tasks: seq<TaskDefinition>) returns (resolved: seq<TaskDefinition>)
      ensures AllCapped(tasks, manifests, resolved)
    {
      resolved := [];
      for i := 0 to |tasks|
        invariant |resolved| == i && forall j | 0 <= j < i :: Capped(tasks[j], manifests, resolved[j])
      {
        resolved := resolved + [CapTimeout(tasks[i], manifests)];
      }
    }

    method AssertKnown(tasks: seq<TaskDefinition>) returns (unknown: Option<string>)
      ensures unknown.None? <==> KnownHandlers(tasks, manifests)
      ensures unknown.Some? ==> FirstUnknown(tasks, manifests, unknown.value)
    {
      for i := 0 to |tasks|
        invariant forall j | 0 <= j < i :: tasks[j].handler in manifests
      {
        if tasks[i].handler !in manifests {
          assert KnownHandlers(tasks[..i], manifests);
          return Some(tasks[i].handler);
        }
      }
      return None;
    }

    /** Only accepted definitions are ever stored, and a rejected one leaves the store alone. Whether a definition is
        accepted does not depend on the capping except through timeouts that it brings to zero or below. */
    method Register(input: JobDefinition) returns (r: Result<JobDefinition, RegisterError>)
      requires store.Valid()
      modifies store
      ensures store.Valid()
      ensures r.Err? ==> store.byId == old(store.byId)
      ensures r.Ok? ==> store.byId == old(store.byId)[input.id := r.value] && Accepted(r.value)
      ensures r.Ok? ==> r.value == input.(tasks := r.value.tasks) && GraphOf(r.value.tasks) == GraphOf(input.tasks)
      ensures r.Ok? ==> AllCapped(input.tasks, manifests, r.value.tasks)
      ensures r.Err? && r.error.UnknownHandler? <==> !KnownHandlers(input.tasks, manifests)
      ensures r.Err? && r.error.UnknownHandler? ==> FirstUnknown(input.tasks, manifests, r.error.handler)
      ensures r.Err? && r.error.Invalid? ==> ListsDefects(input, manifests, r.error.issues)
      ensures r.Err? && r.error.CircularDependency? ==> Reaches(GraphOf(input.tasks), r.error.id, r.error.id)
      ensures (forall h | h in manifests :: manifests[h] > 0) ==>
                && (r.Ok? <==> KnownHandlers(input.tasks, manifests) && Accepted(input))
                && (r.Err? && r.error.Invalid? <==> KnownHandlers(input.tasks, manifests) && !WellFormed(input))
    {
      var unknown := AssertKnown(input.tasks);
      if unknown.Some? {
        return Err(UnknownHandler(unknown.value));
      }
      var resolved := ResolveTasks(input.tasks);
      SameIdsSameGraph(input.tasks, resolved);
      var definition := input.(tasks := resolved);
      CappingKeepsWellFormed(input, definition, manifests);
      var issues := Validate(definition);
      NoDefectIsWellFormed(definition);
      if |issues| > 0 {
        assert Defect(definition, issues[0]);
        return Err(Invalid(issues));
      }
      var cycle := ValidateDependencyOrder(definition.tasks);
      if cycle.Some? {
        return Err(CircularDependency(cycle.value));
      }
      store.Save(definition);
      return Ok(definition);
    }
  }

  lemma {:induction false} CappingKeepsWellFormed(input: JobDefinition, capped: JobDefinition, manifests: Manifests)
    requires capped == input.(tasks := capped.tasks) && AllCapped(input.tasks, manifests, capped.tasks)
    requires GraphOf(capped.tasks) == GraphOf(input.tasks)
    ensures (forall h | h in manifests :: manifests[h] > 0) ==> (WellFormed(capped) <==> WellFormed(input))
  {
    if forall h | h in manifests :: manifests[h] > 0 {
      if WellFormed(input) {
        assert forall i | 0 <= i < |input.tasks| :: input.tasks[i] in input.tasks;
        WellFormedCarriesOver(input, capped);
      }
      if WellFormed(capped) {
        assert forall i | 0 <= i < |input.tasks| :: capped.tasks[i] in capped.tasks;
        WellFormedCarriesOver(capped, input);
      }
    }
  }

  datatype CreateError = JobNotFound(id: string)

  function Created(
      definition: JobDefinition, runId: string, workflowId: string, taskIds: seq<string>): (w: WorkflowInstance)
    requires |taskIds| == |definition.tasks|
    ensures Distinct(taskIds) && DistinctKeys(definition.tasks, TaskKey) ==> Fresh(definition, w)
  {
    var tasks := seq(|definition.tasks|, i requires 0 <= i < |definition.tasks| =>
      TaskRun(taskIds[i], definition.tasks[i].id, definition.tasks[i].handler, Queued, 0, None, None));
    WorkflowInstance(workflowId, definition.id, runId, Pending, tasks, [], 1)
  }

  class WorkflowService {
    const jobStore: JobDefinitionStore
    const workflowStore: WorkflowStore
    const runStore: RunStore

    constructor (jobStore: JobDefinitionStore, workflowStore: WorkflowStore, runStore: RunStore)
      ensures this.jobStore == jobStore && this.workflowStore == workflowStore && this.runStore == runStore
    {
      this.jobStore, this.workflowStore, this.runStore := jobStore, workflowStore, runStore;
    }

    /** `createRun`: fails for an unknown job and then files nothing. Otherwise a pending workflow with one untouched
        task run per definition, filed with a record that mirrors it. The ids stand for freshly drawn random ones. */
    method CreateRun(jobId: string, runId: string, workflowId: string, taskIds: seq<string>)
      returns (r: Result<(JobRun, WorkflowInstance, JobDefinition), CreateError>)
      requires jobStore.Valid() && runStore.Valid() && Distinct(taskIds)
      requires jobId in jobStore.byId ==> |taskIds| == |jobStore.byId[jobId].tasks|
      modifies workflowStore, runStore
      ensures jobStore.Valid() && runStore.Valid() && jobStore.byId == old(jobStore.byId)
      ensures r.Ok? <==> jobId in jobStore.byId
      ensures r.Err? ==> r == Err(JobNotFound(jobId)) && unchanged(workflowStore) && unchanged(runStore)
      ensures r.Ok? ==>
                var (run, workflow, definition) := r.value;
                && definition == jobStore.byId[jobId] && Accepted(definition)
                && workflow == WorkflowInstance(workflowId, jobId, runId, Pending, workflow.tasks, [], 1)
                && |workflow.tasks| == |definition.tasks|
                && forall i | 0 <= i < |definition.tasks| ::
                     workflow.tasks[i] ==
                     TaskRun(taskIds[i], definition.tasks[i].id, definition.tasks[i].handler, Queued, 0, None, None)
      ensures r.Ok? ==>
                var (run, workflow, definition) := r.value;
                && Fresh(definition, workflow) && workflow.runId == runId && workflow.id == workflowId
                && Consistent(Tracked(workflow, run.status, run.finished))
                && workflowStore.GetByRunId(runId) == Some(workflow)
                && fresh(run) && runStore.byId == old(runStore.byId)[runId := run]
                && run.id == runId && run.jobId == jobId && run.Mirrors(workflow)
    {
      var found := jobStore.Get(jobId);
      if found.None? {
        return Err(JobNotFound(jobId));
      }
      var definition := found.value;
      var workflow := Created(definition, runId, workflowId, taskIds);
      var run := new JobRun(runId, jobId);
      workflowStore.Save(workflow);
      runStore.Save(run);
      r := Ok((run, workflow, definition));
    }
  }
}
