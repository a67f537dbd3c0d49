/** `JobDefinitionValidator`: the gate every job definition passes before it is stored. */
module Validator {
  import opened Wrappers
  import opened Graphs
  import opened Jobs
  import CycleCheck

  datatype Issue =
    | NoTasks
    | DuplicateTaskId(id: string)
    | TimeoutNotPositive(id: string)
    | UnknownDependency(id: string, dep: string)
    | SelfDependency(id: string)
    | MaxAttemptsTooSmall

  /** Position `i` holds the first task with its id; later ones are only reported as duplicates. */
  ghost predicate First(tasks: seq<TaskDefinition>, i: int) {
    0 <= i < |tasks| && forall j | 0 <= j < i :: tasks[j].id != tasks[i].id
  }

  /** What each message claims about the definition. */
  ghost predicate Defect(def: JobDefinition, issue: Issue) {
    match issue
    case NoTasks => def.tasks == []
    case MaxAttemptsTooSmall => def.retryPolicy.maxAttempts < 1
    case _ => exists i :: 0 <= i < |def.tasks| && TaskDefect(def.tasks, i, issue)
  }

  ghost predicate TaskDefect(tasks: seq<TaskDefinition>, i: int, issue: Issue)
    requires 0 <= i < |tasks|
  {
    match issue
    case DuplicateTaskId(id) => tasks[i].id == id && !First(tasks, i)
    case TimeoutNotPositive(id) => tasks[i].id == id && First(tasks, i) && tasks[i].timeoutMs <= 0
    case UnknownDependency(id, dep) =>
      tasks[i].id == id && First(tasks, i) && dep in tasks[i].dependsOn && forall t | t in tasks :: t.id != dep
    case SelfDependency(id) => tasks[i].id == id && First(tasks, i) && id in tasks[i].dependsOn
    case _ => false
  }

  /** What acceptance by `validate` means. */
  ghost predicate WellFormed(def: JobDefinition) {
    && def.tasks != []
    && DistinctKeys(def.tasks, TaskKey)
    && def.retryPolicy.maxAttempts >= 1
    && forall t | t in def.tasks ::
         && t.timeoutMs > 0
         && t.id !in t.dependsOn
         && forall d | d in t.dependsOn :: d in GraphOf(def.tasks)
  }

  /** Both checks of `register` passed. */
  ghost predicate Accepted(def: JobDefinition) {
    WellFormed(def) && Acyclic(GraphOf(def.tasks))
  }

  /** The messages about `task` when only the dependencies `deps` have been looked at. */
  ghost predicate Found(task: TaskDefinition, taskIds: set<string>, deps: seq<string>, e: Issue) {
    || (task.timeoutMs <= 0 && e == TimeoutNotPositive(task.id))
    || (e.UnknownDependency? && e.id == task.id && e.dep in deps && e.dep !in taskIds)
    || (task.id in deps && e == SelfDependency(task.id))
  }

  method ValidateTask(task: TaskDefinition, taskIds: set<string>, errors0: seq<Issue>) returns (errors: seq<Issue>)
    ensures forall e :: e in errors <==> e in errors0 || Found(task, taskIds, task.dependsOn, e)
  {
    errors := errors0;
    if task.timeoutMs <= 0 {
      errors := errors + [TimeoutNotPositive(task.id)];
    }
    for i := 0 to |task.dependsOn|
      invariant forall e :: e in errors <==> e in errors0 || Found(task, taskIds, task.dependsOn[..i], e)
    {
      var dep := task.dependsOn[i];
      if dep !in taskIds {
        errors := errors + [UnknownDependency(task.id, dep)];
      }
      if dep == task.id {
        errors := errors + [SelfDependency(task.id)];
      }
    }
  }

  /** The collected messages are exactly the defects of the definition. */
  method Validate(def: JobDefinition) returns (errors: seq<Issue>)
    ensures forall e :: e in errors <==> Defect(def, e)
  {
    errors := [];
    if |def.tasks| == 0 {
      errors := errors + [NoTasks];
    }
    var allTaskIds := set t | t in def.tasks :: t.id;
    var seen: set<string> := {};
    for i := 0 to |def.tasks|
      invariant seen == set j | 0 <= j < i :: def.tasks[j].id
      invariant forall e :: e in errors <==>
        ((e == NoTasks && def.tasks == []) || exists j :: 0 <= j < i && TaskDefect(def.tasks, j, e))
    {
      var task := def.tasks[i];
      ghost var before := errors;
      if task.id in seen {
        errors := errors + [DuplicateTaskId(task.id)];
      } else {
        seen := seen + {task.id};
        errors := ValidateTask(task, allTaskIds, errors);
      }
      forall e ensures e in errors <==> e in before || TaskDefect(def.tasks, i, e) {
      }
    }
    if def.retryPolicy.maxAttempts < 1 {
      errors := errors + [MaxAttemptsTooSmall];
    }
  }

  /** No message means well-formed, and conversely. */
  lemma NoDefectIsWellFormed(def: JobDefinition)
    ensures (forall e :: !Defect(def, e)) <==> WellFormed(def)
  {
    var tasks := def.tasks;
    if forall e :: !Defect(def, e) {
      assert !Defect(def, NoTasks) && !Defect(def, MaxAttemptsTooSmall);
      forall i | 0 <= i < |tasks| ensures First(tasks, i) {
        assert !Defect(def, DuplicateTaskId(tasks[i].id));
        assert !TaskDefect(tasks, i, DuplicateTaskId(tasks[i].id));
      }
      forall i, j | 0 <= i < j < |tasks| ensures TaskKey(tasks[i]) != TaskKey(tasks[j]) {
        assert First(tasks, j);
      }
      forall t | t in tasks
        ensures t.timeoutMs > 0 && t.id !in t.dependsOn
        ensures forall d | d in t.dependsOn :: d in GraphOf(tasks)
      {
        var i :| 0 <= i < |tasks| && tasks[i] == t;
        assert !Defect(def, TimeoutNotPositive(t.id)) && !Defect(def, SelfDependency(t.id));
        assert !TaskDefect(tasks, i, TimeoutNotPositive(t.id)) && !TaskDefect(tasks, i, SelfDependency(t.id));
        forall d | d in t.dependsOn ensures d in GraphOf(tasks) {
          assert !Defect(def, UnknownDependency(t.id, d));
          assert !TaskDefect(tasks, i, UnknownDependency(t.id, d));
          var u :| u in tasks && u.id == d;
          var j :| 0 <= j < |tasks| && tasks[j] == u;
          assert TaskKey(tasks[j]) == d;
        }
      }
    }
    if WellFormed(def) {
      forall e ensures !Defect(def, e) {
        forall i | 0 <= i < |tasks| ensures !TaskDefect(tasks, i, e) {
          assert tasks[i] in tasks;
          assert forall j | 0 <= j < i :: TaskKey(tasks[j]) != TaskKey(tasks[i]);
          if e.UnknownDependency? && e.dep in tasks[i].dependsOn {
            var j :| 0 <= j < |tasks| && TaskKey(tasks[j]) == e.dep;
            assert tasks[j] in tasks;
          }
        }
      }
    }
  }

  /** Throws exactly on a cyclic dependency relation, naming a task on a cycle. */
  method ValidateDependencyOrder(tasks: seq<TaskDefinition>) returns (r: Option<string>)
    ensures r.None? <==> Acyclic(GraphOf(tasks))
    ensures r.Some? ==> Reaches(GraphOf(tasks), r.value, r.value)
  {
    var g := GraphOf(tasks);
    var ids := seq(|tasks|, i requires 0 <= i < |tasks| => tasks[i].id);
    forall id ensures id in ids <==> id in g {
      if id in g {
        var i :| 0 <= i < |tasks| && TaskKey(tasks[i]) == id;
        assert ids[i] == id;
      }
      if id in ids {
        var i :| 0 <= i < |ids| && ids[i] == id;
        assert TaskKey(tasks[i]) == id;
      }
    }
    r := CycleCheck.FindCycle(g, ids);
  }

  /** Well-formedness looks only at ids, dependencies and the sign of timeouts. */
  lemma {:induction false} WellFormedCarriesOver(a: JobDefinition, b: JobDefinition)
    requires WellFormed(a) && b == a.(tasks := b.tasks) && |b.tasks| == |a.tasks|
    requires GraphOf(b.tasks) == GraphOf(a.tasks)
    requires forall i | 0 <= i < |a.tasks| ::
      b.tasks[i].id == a.tasks[i].id && b.tasks[i].dependsOn == a.tasks[i].dependsOn && b.tasks[i].timeoutMs > 0
    ensures WellFormed(b)
  {
    assert forall i | 0 <= i < |a.tasks| :: TaskKey(b.tasks[i]) == TaskKey(a.tasks[i]);
    forall t | t in b.tasks
      ensures t.timeoutMs > 0 && t.id !in t.dependsOn && forall d | d in t.dependsOn :: d in GraphOf(b.tasks)
    {
      var i :| 0 <= i < |b.tasks| && b.tasks[i] == t;
      assert a.tasks[i] in a.tasks;
    }
  }
}
