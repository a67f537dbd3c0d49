/** The in-memory stores and `WorkflowOrchestrator`, which saves every transition to both of them. */
module Orchestrator {
  import opened Wrappers
  import opened Workflow
  import opened StateMachine

  /** The run record, whose status and finish mark are updated in place. */
  class JobRun {
    const id: string
    const jobId: string
    var status: WorkflowState
    var finished: bool  // `finishedAt` is set

    constructor (id: string, jobId: string)
      ensures this.id == id && this.jobId == jobId && status == Pending && !finished
    {
      this.id, this.jobId, status, finished := id, jobId, Pending, false;
    }

    /** The record agrees with the workflow it belongs to. */
    ghost predicate Mirrors(workflow: WorkflowInstance)
      reads this
    {
      status == workflow.state && (finished <==> IsTerminal(workflow.state))
    }
  }

  class WorkflowStore {
    var byId: map<string, WorkflowInstance>
    var byRunId: map<string, string>

    constructor ()
      ensures byId == map[] && byRunId == map[]
    {
      byId, byRunId := map[], map[];
    }

    function GetByRunId(runId: string): Option<WorkflowInstance>
      reads this
    {
      if runId in byRunId && byRunId[runId] in byId then Some(byId[byRunId[runId]]) else None
    }

    method Save(instance: WorkflowInstance)
      modifies this
      ensures byId == old(byId)[instance.id := instance]
      ensures byRunId == old(byRunId)[instance.runId := instance.id]
    {
      byId := byId[instance.id := instance];
      byRunId := byRunId[instance.runId := instance.id];
    }
  }

  class RunStore {
    var byId: map<string, JobRun>

    constructor ()
      ensures byId == map[]
    {
      byId := map[];
    }

    /** Every record is filed under its own id. */
    ghost predicate Valid()
      reads this
    {
      forall id | id in byId :: byId[id].id == id
    }

    function Get(id: string): Option<JobRun>
      reads this
    {
      if id in byId then Some(byId[id]) else None
    }

    /** The record of a run, if it is stored. */
    function RecordOf(id: string): set<JobRun>
      reads this
    {
      if id in byId then {byId[id]} else {}
    }

    method Save(run: JobRun)
      requires Valid()
      modifies this
      ensures Valid() && byId == old(byId)[run.id := run]
    {
      byId := byId[run.id := run];
    }
  }

  class WorkflowOrchestrator {
    const workflowStore: WorkflowStore
    const runStore: RunStore

    constructor (workflowStore: WorkflowStore, runStore: RunStore)
      ensures this.workflowStore == workflowStore && this.runStore == runStore
    {
      this.workflowStore, this.runStore := workflowStore, runStore;
    }

    /** A denied transition touches neither store; an allowed one saves the next instance and brings the record into
        line. */
    method ApplyTransition(instance: WorkflowInstance, event: string, target: WorkflowState)
      returns (r: Result<WorkflowInstance, TransitionError>)
      requires runStore.Valid()
      modifies workflowStore, runStore, runStore.RecordOf(instance.runId)
      ensures runStore.Valid() && runStore.byId == old(runStore.byId)
      ensures r == Next(instance, event, target)
      ensures r.Err? ==> unchanged(workflowStore) && unchanged(runStore.RecordOf(instance.runId))
      ensures r.Ok? ==> workflowStore.byId == old(workflowStore.byId)[instance.id := r.value]
      ensures r.Ok? ==> workflowStore.byRunId == old(workflowStore.byRunId)[instance.runId := instance.id]
      ensures r.Ok? && instance.runId in runStore.byId ==>
                var run := runStore.byId[instance.runId];
                run.status == target && run.finished == (old(run.finished) || IsTerminal(target))
    {
      r := Next(instance, event, target);
      if r.Err? {
        return;
      }
      var next := r.value;
      workflowStore.Save(next);
      var found := runStore.Get(next.runId);
      if found.Some? {
        var run := found.value;
        run.status := target;
        if IsTerminal(target) {
          run.finished := true;
        }
        runStore.Save(run);
      }
    }
  }
}
