/** `TaskScheduler`: which task runs next. */
module Scheduler {
  import opened Wrappers
  import opened Graphs
  import opened Jobs
  import opened Workflow

  type Statuses = map<string, TaskStatus>

  /** The status of each definition's task run; of several runs for one definition the last counts. */
  function StatusByDef(tasks: seq<TaskRun>): Statuses {
    MapBy(tasks, DefinitionKey, StatusOf)
  }

  predicate DependenciesMet(d: TaskDefinition, statuses: Statuses) {
    forall dep | dep in d.dependsOn :: dep in statuses && IsDone(statuses[dep])
  }

  predicate Eligible(d: TaskDefinition, statuses: Statuses) {
    && (d.id in statuses ==> !IsDone(statuses[d.id]) && statuses[d.id] != Executing && statuses[d.id] != Retrying)
    && DependenciesMet(d, statuses)
  }

  function FirstEligible(definitions: seq<TaskDefinition>, statuses: Statuses): Option<TaskDefinition> {
    if definitions == [] then None
    else if Eligible(definitions[0], statuses) then Some(definitions[0])
    else FirstEligible(definitions[1..], statuses)
  }

  function NextRunnable(tasks: seq<TaskRun>, definitions: seq<TaskDefinition>): Option<TaskDefinition> {
    FirstEligible(definitions, StatusByDef(tasks))
  }

  predicate AllDone(tasks: seq<TaskRun>, definitions: seq<TaskDefinition>) {
    var statuses := StatusByDef(tasks);
    forall d | d in definitions && !d.optional :: d.id in statuses && IsDone(statuses[d.id])
  }

  /** The position of the first run of the task defined under `id`. */
  function FindRun(tasks: seq<TaskRun>, id: string): (r: Option<nat>)
    ensures r.Some? ==> r.value < |tasks| && tasks[r.value].definitionTaskId == id
    ensures r.Some? ==> forall j | 0 <= j < r.value :: tasks[j].definitionTaskId != id
    ensures r.None? ==> forall t | t in tasks :: t.definitionTaskId != id
  {
    if tasks == [] then None
    else if tasks[0].definitionTaskId == id then Some(0)
    else
      var rest := FindRun(tasks[1..], id);
      if rest.Some? then Some(rest.value + 1) else None
  }

  /** A definition may start when its run is queued or has failed, or when there is no run for it, and when each of its
      dependencies has a run that succeeded or was skipped. */
  lemma EligibleIff(d: TaskDefinition, statuses: Statuses)
    ensures Eligible(d, statuses) <==>
            && (d.id !in statuses || statuses[d.id] == Queued || statuses[d.id] == Faulted)
            && forall dep | dep in d.dependsOn ::
                 dep in statuses && (statuses[dep] == Succeeded || statuses[dep] == Skipped)
  {
  }

  /** The scan stops at the first eligible definition, and finds none only if there is none. */
  lemma {:induction false} FirstEligibleIs(definitions: seq<TaskDefinition>, statuses: Statuses) returns (i: nat)
    ensures i <= |definitions| && forall j | 0 <= j < i :: !Eligible(definitions[j], statuses)
    ensures i < |definitions| ==> Eligible(definitions[i], statuses)
    ensures i < |definitions| ==> FirstEligible(definitions, statuses) == Some(definitions[i])
    ensures i == |definitions| ==> FirstEligible(definitions, statuses) == None
  {
    if definitions == [] {
      i := 0;
    } else if Eligible(definitions[0], statuses) {
      i := 0;
    } else {
      var k := FirstEligibleIs(definitions[1..], statuses);
      i := k + 1;
      forall j | 0 <= j < i ensures !Eligible(definitions[j], statuses) {
        assert j > 0 ==> definitions[j] == definitions[1..][j - 1];
      }
    }
  }

  lemma StatusAt(def: JobDefinition, tasks: seq<TaskRun>, i: nat)
    requires Matches(def, tasks) && i < |tasks|
    ensures def.tasks[i].id in StatusByDef(tasks) && StatusByDef(tasks)[def.tasks[i].id] == tasks[i].status
    ensures FindRun(tasks, def.tasks[i].id) == Some(i)
  {
    forall j, k | 0 <= j < k < |tasks| ensures DefinitionKey(tasks[j]) != DefinitionKey(tasks[k]) {
      assert TaskKey(def.tasks[j]) != TaskKey(def.tasks[k]);
    }
    MapByDistinct(tasks, DefinitionKey, StatusOf, i);
    assert tasks[i] in tasks;
    var f := FindRun(tasks, def.tasks[i].id).value;
    assert DefinitionKey(tasks[f]) == DefinitionKey(tasks[i]);
  }
}
