/** `ParallelTaskExecutor`: the levels of a plan one after another, each by a pool of workers that share an index.
    The loop in `RunBatch` lets any worker that has not returned make the next step, and lets a handler end in any way,
    so what is proved holds of every interleaving. */
module ParallelExecutor {
  import opened Wrappers
  import opened Graphs
  import opened Jobs
  import opened Validator
  import opened DagPlanner
  import opened Workflow
  import opened Retry

  datatype Event = Started(id: string, handler: string) | Finished(id: string, outcome: Outcome)

  // ----- what a log of events says

  function Starts(log: seq<Event>, id: string): nat {
    if log == [] then 0
    else
      var e := log[|log| - 1];
      Starts(log[..|log| - 1], id) + if e.Started? && e.id == id then 1 else 0
  }

  function Finishes(log: seq<Event>, id: string): nat {
    if log == [] then 0
    else
      var e := log[|log| - 1];
      Finishes(log[..|log| - 1], id) + if e.Finished? && e.id == id then 1 else 0
  }

  /** How many executions are under way after these events. */
  function InFlight(log: seq<Event>): int {
    if log == [] then 0 else InFlight(log[..|log| - 1]) + if log[|log| - 1].Started? then 1 else -1
  }

  /** The tasks in the order in which they start. */
  function StartOrder(log: seq<Event>): seq<string> {
    if log == [] then []
    else
      var e := log[|log| - 1];
      StartOrder(log[..|log| - 1]) + if e.Started? then [e.id] else []
  }

  ghost predicate NeverMore(log: seq<Event>, max: int) {
    forall p | 0 <= p <= |log| :: InFlight(log[..p]) <= max
  }

  /** No task finishes before it has started. */
  ghost predicate Paired(log: seq<Event>) {
    forall p | 0 <= p < |log| && log[p].Finished? :: Starts(log[..p], log[p].id) >= 1
  }

  /** No task starts before its dependencies among `known` have finished. */
  ghost predicate AfterDependencies(log: seq<Event>, g: Graph, known: set<string>) {
    forall p | 0 <= p < |log| && log[p].Started? ::
      forall d | d in Deps(g, log[p].id) && d in known :: Finishes(log[..p], d) >= 1
  }

  lemma LogPush(log: seq<Event>, e: Event, id: string)
    ensures Starts(log + [e], id) == Starts(log, id) + if e.Started? && e.id == id then 1 else 0
    ensures Finishes(log + [e], id) == Finishes(log, id) + if e.Finished? && e.id == id then 1 else 0
    ensures InFlight(log + [e]) == InFlight(log) + if e.Started? then 1 else -1
  {
    assert (log + [e])[..|log|] == log;
  }

  lemma NeverMorePush(log: seq<Event>, e: Event, max: int)
    requires NeverMore(log, max) && InFlight(log + [e]) <= max
    ensures NeverMore(log + [e], max)
  {
    forall p | 0 <= p <= |log + [e]| ensures InFlight((log + [e])[..p]) <= max {
      if p <= |log| {
        assert (log + [e])[..p] == log[..p];
      } else {
        assert (log + [e])[..p] == log + [e];
      }
    }
  }

  lemma PairedPush(log: seq<Event>, e: Event)
    requires Paired(log) && (e.Finished? ==> Starts(log, e.id) >= 1)
    ensures Paired(log + [e])
  {
    forall p | 0 <= p < |log + [e]| && (log + [e])[p].Finished?
      ensures Starts((log + [e])[..p], (log + [e])[p].id) >= 1
    {
      if p < |log| {
        assert (log + [e])[..p] == log[..p];
      } else {
        assert (log + [e])[..p] == log;
      }
    }
  }

  lemma {:induction false} LogConcat(a: seq<Event>, b: seq<Event>, id: string)
    ensures Starts(a + b, id) == Starts(a, id) + Starts(b, id)
    ensures Finishes(a + b, id) == Finishes(a, id) + Finishes(b, id)
    ensures InFlight(a + b) == InFlight(a) + InFlight(b)
    decreases |b|
  {
    if b == [] {
      assert a + b == a;
    } else {
      LogConcat(a, b[..|b| - 1], id);
      LogPush(a + b[..|b| - 1], b[|b| - 1], id);
      assert a + b[..|b| - 1] + [b[|b| - 1]] == a + b;
    }
  }

  lemma OrderPush(log: seq<Event>, e: Event)
    ensures StartOrder(log + [e]) == StartOrder(log) + if e.Started? then [e.id] else []
  {
    assert (log + [e])[..|log|] == log;
  }

  lemma {:induction false} OrderConcat(a: seq<Event>, b: seq<Event>)
    ensures StartOrder(a + b) == StartOrder(a) + StartOrder(b)
    decreases |b|
  {
    if b == [] {
      assert a + b == a;
    } else {
      OrderConcat(a, b[..|b| - 1]);
      assert (a + b)[..|a + b| - 1] == a + b[..|b| - 1];
    }
  }

  /** Three properties of histories carry over when a quiet history is continued by another. */
  lemma HistoriesConcat(a: seq<Event>, b: seq<Event>, max: int)
    requires NeverMore(a, max) && NeverMore(b, max) && InFlight(a) == 0 && Paired(a) && Paired(b)
    ensures NeverMore(a + b, max) && Paired(a + b)
  {
    var log := a + b;
    forall p | 0 <= p <= |log| ensures InFlight(log[..p]) <= max {
      PrefixOfConcat(a, b, p, "");
    }
    forall p | 0 <= p < |log| && log[p].Finished? ensures Starts(log[..p], log[p].id) >= 1 {
      PrefixOfConcat(a, b, p, log[p].id);
    }
  }

  lemma PrefixOfConcat(a: seq<Event>, b: seq<Event>, p: nat, id: string)
    requires p <= |a + b|
    ensures p <= |a| ==> (a + b)[..p] == a[..p]
    ensures p >= |a| ==> (a + b)[..p] == a + b[..p - |a|]
    ensures p >= |a| ==> InFlight((a + b)[..p]) == InFlight(a) + InFlight(b[..p - |a|])
    ensures p >= |a| ==> Starts((a + b)[..p], id) == Starts(a, id) + Starts(b[..p - |a|], id)
    ensures p >= |a| ==> Finishes((a + b)[..p], id) == Finishes(a, id) + Finishes(b[..p - |a|], id)
  {
    if p >= |a| {
      assert (a + b)[..p] == a + b[..p - |a|];
      LogConcat(a, b[..p - |a|], id);
    }
  }

  lemma {:induction false} CountedIsLogged(log: seq<Event>, id: string)
    ensures Starts(log, id) >= 1 <==> exists h :: Started(id, h) in log
    ensures Finishes(log, id) >= 1 <==> exists o :: Finished(id, o) in log
  {
    if log != [] {
      var init, e := log[..|log| - 1], log[|log| - 1];
      CountedIsLogged(init, id);
      assert log == init + [e];
      if Finishes(init, id) >= 1 {
        var o :| Finished(id, o) in init;
        assert Finished(id, o) in log;
      } else if e.Finished? && e.id == id {
        assert Finished(id, e.outcome) in log;
      }
      if Starts(init, id) >= 1 {
        var h :| Started(id, h) in init;
        assert Started(id, h) in log;
      } else if e.Started? && e.id == id {
        assert Started(id, e.handler) in log;
      }
    }
  }

  // ----- one level

  datatype Item = Item(def: TaskDefinition, run: TaskRun)

  /** The definition stands in the list before any other of the same id. */
  ghost predicate IsFirst(tasks: seq<TaskDefinition>, d: TaskDefinition) {
    exists i :: 0 <= i < |tasks| && tasks[i] == d && forall j | 0 <= j < i :: tasks[j].id != d.id
  }

  /** Every execution calls the handler of the first definition with the task's id. */
  ghost predicate HandlersNamed(tasks: seq<TaskDefinition>, log: seq<Event>) {
    forall e | e in log && e.Started? ::
      exists d :: d in tasks && IsFirst(tasks, d) && e.id == d.id && e.handler == d.handler
  }

  function FindDef(tasks: seq<TaskDefinition>, id: string): (r: Option<TaskDefinition>)
    ensures r.None? <==> forall t | t in tasks :: t.id != id
    ensures r.Some? ==> r.value in tasks && r.value.id == id
  {
    if tasks == [] then None
    else if tasks[0].id == id then Some(tasks[0])
    else FindDef(tasks[1..], id)
  }

  lemma {:induction false} FindDefIsFirst(tasks: seq<TaskDefinition>, id: string)
    requires FindDef(tasks, id).Some?
    ensures IsFirst(tasks, FindDef(tasks, id).value)
  {
    var d := FindDef(tasks, id).value;
    if tasks[0].id == id {
      assert tasks[0] == d;
    } else {
      FindDefIsFirst(tasks[1..], id);
      var i :| 0 <= i < |tasks[1..]| && tasks[1..][i] == d && forall j | 0 <= j < i :: tasks[1..][j].id != d.id;
      forall j | 0 <= j < i + 1 ensures tasks[j].id != d.id {
        assert j > 0 ==> tasks[j] == tasks[1..][j - 1];
      }
      assert tasks[i + 1] == d;
    }
  }

  /** The tasks of a level that have an entry, with the entry as it is when the level begins. */
  function BatchOf(tasks: seq<TaskDefinition>, level: seq<string>, updated: map<string, TaskRun>): seq<Item> {
    if level == [] then []
    else
      var def, rest := FindDef(tasks, level[0]), BatchOf(tasks, level[1..], updated);
      if def.Some? && level[0] in updated then [Item(def.value, updated[level[0]])] + rest else rest
  }

  /** The ids among `known`, in the order given. */
  function Kept(ids: seq<string>, known: set<string>): seq<string> {
    if ids == [] then [] else (if ids[0] in known then [ids[0]] else []) + Kept(ids[1..], known)
  }

  function ItemIds(batch: seq<Item>): (ids: seq<string>)
    ensures |ids| == |batch| && forall k | 0 <= k < |ids| :: ids[k] == batch[k].def.id
  {
    seq(|batch|, k requires 0 <= k < |batch| => batch[k].def.id)
  }

  /** Distinct tasks with an entry, each item holding that entry. */
  ghost predicate Drawn(batch: seq<Item>, updated: map<string, TaskRun>) {
    && Distinct(ItemIds(batch))
    && forall k | 0 <= k < |batch| :: batch[k].def.id in updated && batch[k].run == updated[batch[k].def.id]
  }

  lemma KnownIsFound(tasks: seq<TaskDefinition>, id: string)
    requires id in GraphOf(tasks)
    ensures FindDef(tasks, id).Some?
  {
    var i :| 0 <= i < |tasks| && TaskKey(tasks[i]) == id;
    assert tasks[i] in tasks;
  }

  lemma DrawnCons(first: Item, rest: seq<Item>, updated: map<string, TaskRun>)
    requires Drawn(rest, updated) && first.def.id !in ItemIds(rest)
    requires first.def.id in updated && first.run == updated[first.def.id]
    ensures Drawn([first] + rest, updated) && ItemIds([first] + rest) == [first.def.id] + ItemIds(rest)
  {
  }

  lemma {:induction false} BatchIsDrawn(tasks: seq<TaskDefinition>, level: seq<string>, updated: map<string, TaskRun>)
    requires Distinct(level) && forall id | id in level :: id in GraphOf(tasks)
    ensures var batch := BatchOf(tasks, level, updated);
            Drawn(batch, updated) && ItemIds(batch) == Kept(level, updated.Keys)
    ensures forall id :: id in Kept(level, updated.Keys) <==> id in level && id in updated
  {
    if level != [] {
      var rest := BatchOf(tasks, level[1..], updated);
      BatchIsDrawn(tasks, level[1..], updated);
      var id := level[0];
      assert id in level && id !in level[1..];
      KnownIsFound(tasks, id);
      if id in updated {
        DrawnCons(Item(FindDef(tasks, id).value, updated[id]), rest, updated);
      }
    }
  }

  /** Its definitions are the first of their ids. */
  lemma {:induction false} BatchIsOfFirst(tasks: seq<TaskDefinition>, level: seq<string>, updated: map<string, TaskRun>)
    ensures forall item | item in BatchOf(tasks, level, updated) :: item.def in tasks && IsFirst(tasks, item.def)
  {
    if level != [] {
      BatchIsOfFirst(tasks, level[1..], updated);
      if FindDef(tasks, level[0]).Some? {
        FindDefIsFirst(tasks, level[0]);
      }
    }
  }

  datatype Worker = Ready | Busy(at: nat) | Quit

  function BusyCount(workers: seq<Worker>): nat {
    if workers == [] then 0 else BusyCount(workers[1..]) + if workers[0].Busy? then 1 else 0
  }

  /** How many steps the workers still have before them, apart from items not yet taken. */
  function StepsLeft(workers: seq<Worker>): nat {
    if workers == [] then 0
    else StepsLeft(workers[1..]) + match workers[0] case Busy(_) => 2 case Ready => 1 case Quit => 0
  }

  lemma {:induction false} WorkerStep(workers: seq<Worker>, w: nat, now: Worker)
    requires w < |workers|
    ensures BusyCount(workers[w := now]) ==
            BusyCount(workers) - (if workers[w].Busy? then 1 else 0) + if now.Busy? then 1 else 0
    ensures StepsLeft(workers[w := now]) - StepsLeft([now]) == StepsLeft(workers) - StepsLeft([workers[w]])
  {
    if w > 0 {
      WorkerStep(workers[1..], w - 1, now);
      assert workers[w := now][1..] == workers[1..][w - 1 := now];
    } else {
      assert workers[w := now][1..] == workers[1..];
    }
  }

  lemma {:induction false} BusyBound(workers: seq<Worker>)
    ensures BusyCount(workers) <= |workers|
    ensures (forall w | 0 <= w < |workers| :: !workers[w].Busy?) ==> BusyCount(workers) == 0
  {
    if workers != [] {
      BusyBound(workers[1..]);
    }
  }

  predicate Holds(workers: seq<Worker>, k: int) {
    exists w :: 0 <= w < |workers| && workers[w].Busy? && workers[w].at == k
  }

  /** Items are taken in order; no two workers hold the same one; no worker returns before all are taken. */
  ghost predicate Taken(batch: seq<Item>, index: nat, workers: seq<Worker>) {
    && index <= |batch|
    && (forall w | 0 <= w < |workers| && workers[w].Busy? :: workers[w].at < index)
    && (forall v, w | 0 <= v < w < |workers| && workers[v].Busy? && workers[w].Busy? :: workers[v].at != workers[w].at)
    && (index < |batch| ==> Quit !in workers)
  }

  /** The log shows each item taken as started once, and each item taken and let go as finished once. */
  ghost predicate Logged(batch: seq<Item>, index: nat, workers: seq<Worker>, log: seq<Event>) {
    && (forall k | 0 <= k < |batch| ::
          && Starts(log, batch[k].def.id) == (if k < index then 1 else 0)
          && Finishes(log, batch[k].def.id) == (if k < index && !Holds(workers, k) then 1 else 0))
    && (forall id | id !in ItemIds(batch) :: Starts(log, id) == 0 && Finishes(log, id) == 0)
    && InFlight(log) == BusyCount(workers)
    && Paired(log)
  }

  /** The entry of a task is what its logged execution left of it, or as before when there is none; a task that may be
      tried again stays marked as between two attempts. */
  ghost predicate Stored(
      before: map<string, TaskRun>, policy: RetryPolicy, updated: map<string, TaskRun>, log: seq<Event>)
  {
    && updated.Keys == before.Keys
    && forall id | id in before ::
         if Finishes(log, id) == 0 then updated[id] == before[id]
         else exists o :: Finished(id, o) in log && Recorded(before[id], policy, o, Retrying, updated[id])
  }

  /** A worker that was ready takes an item: who holds the other items does not change. */
  lemma HoldsAfterTake(workers: seq<Worker>, w: nat, index: nat, k: int)
    requires w < |workers| && workers[w] == Ready
    ensures Holds(workers[w := Busy(index)], k) <==> k == index || Holds(workers, k)
  {
    var after := workers[w := Busy(index)];
    assert after[w] == Busy(index);
    if Holds(workers, k) {
      var v :| 0 <= v < |workers| && workers[v].Busy? && workers[v].at == k;
      assert after[v] == workers[v];
    }
  }

  lemma TakeKeepsTaken(batch: seq<Item>, index: nat, workers: seq<Worker>, w: nat)
    requires Taken(batch, index, workers) && w < |workers| && workers[w] == Ready && index < |batch|
    ensures Taken(batch, index + 1, workers[w := Busy(index)])
  {
  }

  lemma {:induction false} TakeKeepsLogged(batch: seq<Item>, index: nat, workers: seq<Worker>, log: seq<Event>, w: nat)
    requires Distinct(ItemIds(batch)) && Taken(batch, index, workers) && Logged(batch, index, workers, log)
    requires w < |workers| && workers[w] == Ready && index < |batch|
    ensures var after := workers[w := Busy(index)];
            && Taken(batch, index + 1, after)
            && Logged(batch, index + 1, after, log + [Started(batch[index].def.id, batch[index].def.handler)])
  {
    var after, e := workers[w := Busy(index)], Started(batch[index].def.id, batch[index].def.handler);
    WorkerStep(workers, w, Busy(index));
    LogPush(log, e, "");
    PairedPush(log, e);
    TakeKeepsTaken(batch, index, workers, w);
    forall k | 0 <= k < |batch|
      ensures Starts(log + [e], batch[k].def.id) == (if k < index + 1 then 1 else 0)
      ensures Finishes(log + [e], batch[k].def.id) == (if k < index + 1 && !Holds(after, k) then 1 else 0)
    {
      LogPush(log, e, batch[k].def.id);
      HoldsAfterTake(workers, w, index, k);
      assert ItemIds(batch)[k] != ItemIds(batch)[index] || k == index;
    }
    forall id | id !in ItemIds(batch) ensures Starts(log + [e], id) == 0 && Finishes(log + [e], id) == 0 {
      LogPush(log, e, id);
      assert ItemIds(batch)[index] in ItemIds(batch);
    }
  }

  lemma {:induction false} FinishKeepsLogged(
      batch: seq<Item>, index: nat, workers: seq<Worker>, log: seq<Event>, w: nat, outcome: Outcome)
    requires Distinct(ItemIds(batch)) && Taken(batch, index, workers) && Logged(batch, index, workers, log)
    requires w < |workers| && workers[w].Busy?
    ensures var after := workers[w := Ready];
            && Taken(batch, index, after)
            && Logged(batch, index, after, log + [Finished(batch[workers[w].at].def.id, outcome)])
  {
    var at := workers[w].at;
    var after, e := workers[w := Ready], Finished(batch[at].def.id, outcome);
    WorkerStep(workers, w, Ready);
    LogPush(log, e, "");
    PairedPush(log, e);
    forall k | 0 <= k < |batch| ensures Holds(after, k) <==> Holds(workers, k) && k != at {
      if v :| 0 <= v < |workers| && workers[v].Busy? && workers[v].at == k && k != at {
        assert after[v] == workers[v];
      }
    }
    forall k | 0 <= k < |batch|
      ensures Starts(log + [e], batch[k].def.id) == (if k < index then 1 else 0)
      ensures Finishes(log + [e], batch[k].def.id) == (if k < index && !Holds(after, k) then 1 else 0)
    {
      LogPush(log, e, batch[k].def.id);
      assert ItemIds(batch)[k] != ItemIds(batch)[at] || k == at;
    }
    forall id | id !in ItemIds(batch) ensures Starts(log + [e], id) == 0 && Finishes(log + [e], id) == 0 {
      LogPush(log, e, id);
      assert ItemIds(batch)[at] in ItemIds(batch);
    }
    if index < |batch| {
      assert Quit !in after;
    }
  }

  lemma {:induction false} QuitKeepsLogged(batch: seq<Item>, workers: seq<Worker>, log: seq<Event>, w: nat)
    requires Taken(batch, |batch|, workers) && Logged(batch, |batch|, workers, log)
    requires w < |workers| && workers[w] == Ready
    ensures var after := workers[w := Quit];
            Taken(batch, |batch|, after) && Logged(batch, |batch|, after, log)
  {
    var after := workers[w := Quit];
    WorkerStep(workers, w, Quit);
    forall k | 0 <= k < |batch| ensures Holds(after, k) <==> Holds(workers, k) {
      if Holds(workers, k) {
        var v :| 0 <= v < |workers| && workers[v].Busy? && workers[v].at == k;
        assert after[v] == workers[v];
      }
    }
  }

  lemma FinishKeepsStored(
      before: map<string, TaskRun>, policy: RetryPolicy, updated: map<string, TaskRun>, log: seq<Event>, id: string,
      outcome: Outcome)
    requires Stored(before, policy, updated, log) && id in before
    ensures Stored(
              before, policy, updated[id := RunTask(before[id], policy, outcome).task], log + [Finished(id, outcome)])
  {
    var after, e := updated[id := RunTask(before[id], policy, outcome).task], Finished(id, outcome);
    assert e in log + [e];
    RunTaskRecords(before[id], policy, outcome);
    forall x | x in before
      ensures if Finishes(log + [e], x) == 0 then after[x] == before[x]
              else exists o :: Finished(x, o) in log + [e] && Recorded(before[x], policy, o, Retrying, after[x])
    {
      LogPush(log, e, x);
      if x != id && Finishes(log, x) > 0 {
        var o :| Finished(x, o) in log && Recorded(before[x], policy, o, Retrying, updated[x]);
        assert Finished(x, o) in log + [e];
      }
    }
  }

  lemma StartKeepsStored(
      before: map<string, TaskRun>, policy: RetryPolicy, updated: map<string, TaskRun>, log: seq<Event>, e: Event)
    requires Stored(before, policy, updated, log) && e.Started?
    ensures Stored(before, policy, updated, log + [e])
  {
    forall x | x in before
      ensures if Finishes(log + [e], x) == 0 then updated[x] == before[x]
              else exists o :: Finished(x, o) in log + [e] && Recorded(before[x], policy, o, Retrying, updated[x])
    {
      LogPush(log, e, x);
      if Finishes(log, x) > 0 {
        var o :| Finished(x, o) in log && Recorded(before[x], policy, o, Retrying, updated[x]);
        assert Finished(x, o) in log + [e];
      }
    }
  }

  /** Each id of the batch was executed once, and nothing else was. */
  ghost predicate ExecutedOnce(log: seq<Event>, ids: seq<string>) {
    forall id :: Starts(log, id) == Finishes(log, id) == if id in ids then 1 else 0
  }

  lemma {:induction false} AllQuit(batch: seq<Item>, index: nat, workers: seq<Worker>, log: seq<Event>)
    requires Taken(batch, index, workers) && Logged(batch, index, workers, log)
    requires (forall w | 0 <= w < |workers| :: workers[w] == Quit) && (workers == [] ==> batch == [])
    ensures ExecutedOnce(log, ItemIds(batch)) && InFlight(log) == 0
  {
    BusyBound(workers);
    if workers != [] {
      assert workers[0] == Quit && workers[0] in workers;
    }
    forall id ensures Starts(log, id) == Finishes(log, id) == if id in ItemIds(batch) then 1 else 0 {
      if id in ItemIds(batch) {
        var k :| 0 <= k < |batch| && ItemIds(batch)[k] == id;
        assert !Holds(workers, k);
      }
    }
  }

  lemma {:induction false} AllReady(batch: seq<Item>, workers: seq<Worker>)
    requires forall w | 0 <= w < |workers| :: workers[w] == Ready
    ensures Taken(batch, 0, workers) && Logged(batch, 0, workers, [])
  {
    BusyBound(workers);
  }

  /** The executions are of items of the batch, by the handlers these name. */
  ghost predicate Drew(batch: seq<Item>, log: seq<Event>) {
    forall e | e in log && e.Started? ::
      exists k :: 0 <= k < |batch| && e.id == batch[k].def.id && e.handler == batch[k].def.handler
  }

  lemma DrewTake(batch: seq<Item>, log: seq<Event>, k: nat)
    requires Drew(batch, log) && k < |batch|
    ensures Drew(batch, log + [Started(batch[k].def.id, batch[k].def.handler)])
  {
    var e := Started(batch[k].def.id, batch[k].def.handler);
    assert forall f | f in log + [e] :: f in log || f == e;
  }

  lemma DrewFinish(batch: seq<Item>, log: seq<Event>, e: Event)
    requires Drew(batch, log) && e.Finished?
    ensures Drew(batch, log + [e])
  {
    assert forall f | f in log + [e] :: f in log || f == e;
  }

  lemma DrewNamed(batch: seq<Item>, tasks: seq<TaskDefinition>, log: seq<Event>, more: seq<Event>)
    requires HandlersNamed(tasks, log) && Drew(batch, more)
    requires forall item | item in batch :: item.def in tasks && IsFirst(tasks, item.def)
    ensures HandlersNamed(tasks, log + more)
  {
    forall e | e in log + more && e.Started?
      ensures exists d :: d in tasks && IsFirst(tasks, d) && e.id == d.id && e.handler == d.handler
    {
      if e !in log {
        var k :| 0 <= k < |batch| && e.id == batch[k].def.id && e.handler == batch[k].def.handler;
        assert batch[k] in batch;
      }
    }
  }

  ghost predicate Underway(
      batch: seq<Item>, policy: RetryPolicy, max: int, before: map<string, TaskRun>, index: nat, workers: seq<Worker>,
      updated: map<string, TaskRun>, log: seq<Event>)
  {
    && 1 <= |workers| <= max
    && Taken(batch, index, workers) && Logged(batch, index, workers, log)
    && NeverMore(log, max) && Stored(before, policy, updated, log) && Drew(batch, log)
    && StartOrder(log) == ItemIds(batch)[..index]
  }

  lemma NextStarts(batch: seq<Item>, index: nat, log: seq<Event>)
    requires index < |batch| && StartOrder(log) == ItemIds(batch)[..index]
    ensures StartOrder(log + [Started(batch[index].def.id, batch[index].def.handler)]) == ItemIds(batch)[..index + 1]
  {
    var ids := ItemIds(batch);
    OrderPush(log, Started(batch[index].def.id, batch[index].def.handler));
    assert ids[..index + 1] == ids[..index] + [ids[index]];
  }

  lemma TakeKeeps(
      batch: seq<Item>, policy: RetryPolicy, max: int, before: map<string, TaskRun>, index: nat, workers: seq<Worker>,
      updated: map<string, TaskRun>, log: seq<Event>, w: nat)
    requires Drawn(batch, before) && Underway(batch, policy, max, before, index, workers, updated, log)
    requires w < |workers| && workers[w] == Ready && index < |batch|
    ensures var e := Started(batch[index].def.id, batch[index].def.handler);
            Underway(batch, policy, max, before, index + 1, workers[w := Busy(index)], updated, log + [e])
    ensures StepsLeft(workers[w := Busy(index)]) == StepsLeft(workers) + 1
  {
    TakeKeepsLogged(batch, index, workers, log, w);
    StartKeepsStored(before, policy, updated, log, Started(batch[index].def.id, batch[index].def.handler));
    WorkerStep(workers, w, Busy(index));
    BusyBound(workers[w := Busy(index)]);
    NeverMorePush(log, Started(batch[index].def.id, batch[index].def.handler), max);
    DrewTake(batch, log, index);
    NextStarts(batch, index, log);
  }

  lemma FinishKeeps(
      batch: seq<Item>, policy: RetryPolicy, max: int, before: map<string, TaskRun>, index: nat, workers: seq<Worker>,
      updated: map<string, TaskRun>, log: seq<Event>, w: nat, outcome: Outcome)
    requires Drawn(batch, before) && Underway(batch, policy, max, before, index, workers, updated, log)
    requires w < |workers| && workers[w].Busy?
    ensures workers[w].at < |batch|
    ensures var item := batch[workers[w].at];
            var after := updated[item.def.id := RunTask(item.run, policy, outcome).task];
            var e := Finished(item.def.id, outcome);
            Underway(batch, policy, max, before, index, workers[w := Ready], after, log + [e])
    ensures StepsLeft(workers[w := Ready]) == StepsLeft(workers) - 1
  {
    var id := batch[workers[w].at].def.id;
    FinishKeepsLogged(batch, index, workers, log, w, outcome);
    FinishKeepsStored(before, policy, updated, log, id, outcome);
    WorkerStep(workers, w, Ready);
    BusyBound(workers[w := Ready]);
    NeverMorePush(log, Finished(id, outcome), max);
    DrewFinish(batch, log, Finished(id, outcome));
    OrderPush(log, Finished(id, outcome));
  }

  lemma QuitKeeps(
      batch: seq<Item>, policy: RetryPolicy, max: int, before: map<string, TaskRun>, workers: seq<Worker>,
      updated: map<string, TaskRun>, log: seq<Event>, w: nat)
    requires Underway(batch, policy, max, before, |batch|, workers, updated, log)
    requires w < |workers| && workers[w] == Ready
    ensures Underway(batch, policy, max, before, |batch|, workers[w := Quit], updated, log)
    ensures StepsLeft(workers[w := Quit]) == StepsLeft(workers) - 1
  {
    QuitKeepsLogged(batch, workers, log, w);
    WorkerStep(workers, w, Quit);
  }

  /** One worker makes its next step: it takes an item, or returns as none is left, or stores the result of its own. */
  method Step(
      batch: seq<Item>, policy: RetryPolicy, ghost max: int, ghost before: map<string, TaskRun>, index0: nat,
      workers0: seq<Worker>, updated0: map<string, TaskRun>, log0: seq<Event>, w: nat)
    returns (index: nat, workers: seq<Worker>, updated: map<string, TaskRun>, log: seq<Event>)
    requires Drawn(batch, before) && Underway(batch, policy, max, before, index0, workers0, updated0, log0)
    requires w < |workers0| && workers0[w] != Quit
    ensures Underway(batch, policy, max, before, index, workers, updated, log)
    ensures 3 * (|batch| - index) + StepsLeft(workers) < 3 * (|batch| - index0) + StepsLeft(workers0)
  {
    index, workers, updated, log := index0, workers0, updated0, log0;
    match workers[w] {
      case Ready =>
        if index < |batch| {
          TakeKeeps(batch, policy, max, before, index, workers, updated, log, w);
          workers := workers[w := Busy(index)];
          log := log + [Started(batch[index].def.id, batch[index].def.handler)];
          index := index + 1;
        } else {
          QuitKeeps(batch, policy, max, before, workers, updated, log, w);
          workers := workers[w := Quit];
        }
      case Busy(at) =>
        var outcome: Outcome := *;
        FinishKeeps(batch, policy, max, before, index, workers, updated, log, w, outcome);
        var current := batch[at];
        workers := workers[w := Ready];
        updated := updated[current.def.id := RunTask(current.run, policy, outcome).task];
        log := log + [Finished(current.def.id, outcome)];
    }
  }

  /** What a batch leaves behind when all workers have returned. */
  ghost predicate Ran(
      batch: seq<Item>, policy: RetryPolicy, max: int, before: map<string, TaskRun>, updated: map<string, TaskRun>,
      log: seq<Event>)
  {
    && ExecutedOnce(log, if max >= 1 then ItemIds(batch) else [])
    && StartOrder(log) == (if max >= 1 then ItemIds(batch) else [])
    && NeverMore(log, if max >= 1 then max else 0)
    && InFlight(log) == 0 && Paired(log) && Stored(before, policy, updated, log)
    && Drew(batch, log)
  }

  lemma AllReturned(
      batch: seq<Item>, policy: RetryPolicy, max: int, before: map<string, TaskRun>, index: nat, workers: seq<Worker>,
      updated: map<string, TaskRun>, log: seq<Event>)
    requires Underway(batch, policy, max, before, index, workers, updated, log)
    requires forall w | 0 <= w < |workers| :: workers[w] == Quit
    ensures Ran(batch, policy, max, before, updated, log)
  {
    AllQuit(batch, index, workers, log);
    assert workers[0] == Quit && workers[0] in workers;
    assert ItemIds(batch)[..|batch|] == ItemIds(batch);
  }

  lemma NoneToRun(batch: seq<Item>, policy: RetryPolicy, max: int, before: map<string, TaskRun>)
    requires max >= 1 ==> batch == []
    ensures Ran(batch, policy, max, before, before, [])
  {
  }

  /** `runBatch`: each item is executed exactly once, and the items start in the order of the batch. */
  method RunBatch(batch: seq<Item>, policy: RetryPolicy, maxConcurrency: int, before: map<string, TaskRun>)
    returns (updated: map<string, TaskRun>, log: seq<Event>)
    requires Drawn(batch, before)
    ensures Ran(batch, policy, maxConcurrency, before, updated, log)
  {
    var index := 0;
    var count := if maxConcurrency <= |batch| then maxConcurrency else |batch|;
    var workers := seq(if count < 0 then 0 else count, _ => Ready);
    updated, log := before, [];
    if workers == [] {
      NoneToRun(batch, policy, maxConcurrency, before);
      return;
    }
    AllReady(batch, workers);
    while exists w :: 0 <= w < |workers| && workers[w] != Quit
      invariant Underway(batch, policy, maxConcurrency, before, index, workers, updated, log)
      decreases 3 * (|batch| - index) + StepsLeft(workers)
    {
      // any worker that has not returned may be the next to make a step
      var w :| 0 <= w < |workers| && workers[w] != Quit;
      index, workers, updated, log :=
        Step(batch, policy, maxConcurrency, before, index, workers, updated, log, w);
    }
    AllReturned(batch, policy, maxConcurrency, before, index, workers, updated, log);
  }

  // ----- all levels

  /** The first `j` levels hold this task. */
  ghost predicate Within(levels: seq<seq<string>>, j: nat, id: string) {
    exists i :: 0 <= i < j && i < |levels| && id in levels[i]
  }

  /** The tasks of these levels that have an entry, level by level. */
  function KeptOf(levels: seq<seq<string>>, known: set<string>): seq<string> {
    if levels == [] then [] else KeptOf(levels[..|levels| - 1], known) + Kept(levels[|levels| - 1], known)
  }

  /** The tasks start in the order of the first `j` levels. */
  ghost predicate InOrder(levels: seq<seq<string>>, j: nat, max: int, known: set<string>, log: seq<Event>)
    requires j <= |levels|
  {
    StartOrder(log) == if max >= 1 then KeptOf(levels[..j], known) else []
  }

  lemma InOrderNext(
      levels: seq<seq<string>>, j: nat, max: int, known: set<string>, log: seq<Event>, more: seq<Event>)
    requires j < |levels| && InOrder(levels, j, max, known, log)
    requires StartOrder(more) == if max >= 1 then Kept(levels[j], known) else []
    ensures InOrder(levels, j + 1, max, known, log + more)
  {
    OrderConcat(log, more);
    assert levels[..j + 1][..j] == levels[..j];
  }

  /** The order in which the planner lists the tasks, whatever the handlers do. */
  ghost predicate StartsAsPlanned(tasks: seq<TaskDefinition>, max: int, known: set<string>, log: seq<Event>)
    requires Acyclic(GraphOf(tasks))
  {
    exists levels: seq<seq<string>> ::
      IsLevelling(GraphOf(tasks), levels) && PlansInOrder(tasks, levels) && InOrder(levels, |levels|, max, known, log)
  }

  /** What has happened when `j` levels are finished. */
  ghost predicate Behind(
      g: Graph, levels: seq<seq<string>>, j: nat, max: int, policy: RetryPolicy, runs: map<string, TaskRun>,
      updated: map<string, TaskRun>, log: seq<Event>)
  {
    && (forall id :: Starts(log, id) == Finishes(log, id)
                     == if id in runs && max >= 1 && Within(levels, j, id) then 1 else 0)
    && NeverMore(log, if max >= 1 then max else 0) && InFlight(log) == 0 && Paired(log)
    && AfterDependencies(log, g, runs.Keys)
    && Stored(runs, policy, updated, log)
  }

  lemma StoredConcat(
      runs: map<string, TaskRun>, policy: RetryPolicy, middle: map<string, TaskRun>, after: map<string, TaskRun>,
      a: seq<Event>, b: seq<Event>)
    requires Stored(runs, policy, middle, a) && Stored(middle, policy, after, b)
    requires forall id :: Finishes(a, id) == 0 || Finishes(b, id) == 0
    ensures Stored(runs, policy, after, a + b)
  {
    forall id | id in runs
      ensures if Finishes(a + b, id) == 0 then after[id] == runs[id]
              else exists o :: Finished(id, o) in a + b && Recorded(runs[id], policy, o, Retrying, after[id])
    {
      LogConcat(a, b, id);
      if Finishes(a, id) > 0 {
        var o :| Finished(id, o) in a && Recorded(runs[id], policy, o, Retrying, middle[id]);
        assert Finished(id, o) in a + b;
      } else if Finishes(b, id) > 0 {
        var o :| Finished(id, o) in b && Recorded(middle[id], policy, o, Retrying, after[id]);
        assert Finished(id, o) in a + b;
      }
    }
  }

  lemma AfterDependenciesConcat(a: seq<Event>, b: seq<Event>, g: Graph, known: set<string>)
    requires AfterDependencies(a, g, known)
    requires forall id, d | Starts(b, id) >= 1 && d in Deps(g, id) && d in known :: Finishes(a, d) >= 1
    ensures AfterDependencies(a + b, g, known)
  {
    var log := a + b;
    forall p, d | 0 <= p < |log| && log[p].Started? && d in Deps(g, log[p].id) && d in known
      ensures Finishes(log[..p], d) >= 1
    {
      PrefixOfConcat(a, b, p, d);
      if p >= |a| {
        assert log[p] == b[p - |a|] && Started(log[p].id, log[p].handler) in b;
        CountedIsLogged(b, log[p].id);
      } else {
        assert log[p] == a[p];
      }
    }
  }

  /** What the tasks of a level wait for has been executed on the levels before it. */
  lemma LevelIsDue(
      g: Graph, levels: seq<seq<string>>, j: nat, max: int, policy: RetryPolicy, runs: map<string, TaskRun>,
      updated: map<string, TaskRun>, log: seq<Event>, id: string, d: string)
    requires Acyclic(g) && IsLevelling(g, levels) && j < |levels| && max >= 1
    requires Behind(g, levels, j, max, policy, runs, updated, log)
    requires id in levels[j] && d in Deps(g, id) && d in runs
    ensures Finishes(log, d) >= 1
  {
    assert OnLevel(g, id, j);
    PrerequisitesEarlier(g, levels, j, id, d);
    assert Within(levels, j, d);
  }

  lemma NotBefore(g: Graph, levels: seq<seq<string>>, j: nat, id: string)
    requires Acyclic(g) && IsLevelling(g, levels) && j < |levels|
    ensures Within(levels, j + 1, id) <==> Within(levels, j, id) || id in levels[j]
    ensures id in levels[j] ==> !Within(levels, j, id)
  {
    PlannedOnce(g, levels, id);
  }

  lemma LevelCounts(
      g: Graph, levels: seq<seq<string>>, j: nat, max: int, policy: RetryPolicy, runs: map<string, TaskRun>,
      before: map<string, TaskRun>, log: seq<Event>, ids: seq<string>, more: seq<Event>, id: string)
    requires Acyclic(g) && IsLevelling(g, levels) && j < |levels|
    requires Behind(g, levels, j, max, policy, runs, before, log)
    requires id in ids <==> id in levels[j] && id in before
    requires Starts(more, id) == Finishes(more, id) == if max >= 1 && id in ids then 1 else 0
    ensures Starts(log + more, id) == Finishes(log + more, id)
            == if id in runs && max >= 1 && Within(levels, j + 1, id) then 1 else 0
    ensures Finishes(log, id) == 0 || Finishes(more, id) == 0
  {
    LogConcat(log, more, id);
    NotBefore(g, levels, j, id);
  }

  lemma LevelKeeps(
      g: Graph, levels: seq<seq<string>>, j: nat, max: int, policy: RetryPolicy, runs: map<string, TaskRun>,
      before: map<string, TaskRun>, updated: map<string, TaskRun>, log: seq<Event>, batch: seq<Item>, more: seq<Event>)
    requires Acyclic(g) && IsLevelling(g, levels) && j < |levels|
    requires Behind(g, levels, j, max, policy, runs, before, log)
    requires forall id :: id in ItemIds(batch) <==> id in levels[j] && id in before
    requires ExecutedOnce(more, if max >= 1 then ItemIds(batch) else [])
    requires NeverMore(more, if max >= 1 then max else 0) && InFlight(more) == 0 && Paired(more)
    requires Stored(before, policy, updated, more)
    ensures Behind(g, levels, j + 1, max, policy, runs, updated, log + more)
  {
    forall id
      ensures Starts(log + more, id) == Finishes(log + more, id)
              == if id in runs && max >= 1 && Within(levels, j + 1, id) then 1 else 0
      ensures Finishes(log, id) == 0 || Finishes(more, id) == 0
    {
      LevelCounts(g, levels, j, max, policy, runs, before, log, ItemIds(batch), more, id);
    }
    LogConcat(log, more, "");
    HistoriesConcat(log, more, if max >= 1 then max else 0);
    StoredConcat(runs, policy, before, updated, log, more);
    LevelComesAfter(g, levels, j, max, policy, runs, before, log, ItemIds(batch), more);
  }

  lemma LevelComesAfter(
      g: Graph, levels: seq<seq<string>>, j: nat, max: int, policy: RetryPolicy, runs: map<string, TaskRun>,
      before: map<string, TaskRun>, log: seq<Event>, ids: seq<string>, more: seq<Event>)
    requires Acyclic(g) && IsLevelling(g, levels) && j < |levels|
    requires Behind(g, levels, j, max, policy, runs, before, log)
    requires forall id | id in ids :: id in levels[j]
    requires ExecutedOnce(more, if max >= 1 then ids else [])
    ensures AfterDependencies(log + more, g, runs.Keys)
  {
    forall id, d | Starts(more, id) >= 1 && d in Deps(g, id) && d in runs.Keys ensures Finishes(log, d) >= 1 {
      LevelIsDue(g, levels, j, max, policy, runs, before, log, id, d);
    }
    AfterDependenciesConcat(log, more, g, runs.Keys);
  }

  /** What has happened when the first `j` levels of the plan are finished. */
  ghost predicate Reached(
      tasks: seq<TaskDefinition>, levels: seq<seq<string>>, j: nat, max: int, policy: RetryPolicy,
      runs: map<string, TaskRun>, updated: map<string, TaskRun>, log: seq<Event>)
    requires j <= |levels|
  {
    && Behind(GraphOf(tasks), levels, j, max, policy, runs, updated, log)
    && InOrder(levels, j, max, runs.Keys, log) && HandlersNamed(tasks, log)
  }

  lemma NoneReached(
      tasks: seq<TaskDefinition>, levels: seq<seq<string>>, max: int, policy: RetryPolicy, runs: map<string, TaskRun>)
    ensures Reached(tasks, levels, 0, max, policy, runs, runs, [])
  {
  }

  lemma ReachedNext(
      tasks: seq<TaskDefinition>, levels: seq<seq<string>>, j: nat, max: int, policy: RetryPolicy,
      runs: map<string, TaskRun>, before: map<string, TaskRun>, updated: map<string, TaskRun>, log: seq<Event>,
      batch: seq<Item>, more: seq<Event>)
    requires Acyclic(GraphOf(tasks)) && IsLevelling(GraphOf(tasks), levels) && j < |levels|
    requires Reached(tasks, levels, j, max, policy, runs, before, log)
    requires batch == BatchOf(tasks, levels[j], before) && Ran(batch, policy, max, before, updated, more)
    ensures Reached(tasks, levels, j + 1, max, policy, runs, updated, log + more)
  {
    BatchIsReady(tasks, levels, j, before);
    LevelKeeps(GraphOf(tasks), levels, j, max, policy, runs, before, updated, log, batch, more);
    InOrderNext(levels, j, max, runs.Keys, log, more);
    BatchIsOfFirst(tasks, levels[j], before);
    DrewNamed(batch, tasks, log, more);
  }

  /** What `executeLevel` answers when there is no cycle. */
  ghost predicate Executed(
      tasks: seq<TaskDefinition>, max: int, policy: RetryPolicy, runs: map<string, TaskRun>,
      updated: map<string, TaskRun>, log: seq<Event>)
    requires Acyclic(GraphOf(tasks))
  {
    && (forall id ::
          Starts(log, id) == Finishes(log, id)
          == if id in runs && max >= 1 && Plannable(GraphOf(tasks), id) then 1 else 0)
    && NeverMore(log, if max >= 1 then max else 0) && Paired(log)
    && AfterDependencies(log, GraphOf(tasks), runs.Keys) && StartsAsPlanned(tasks, max, runs.Keys, log)
    && Stored(runs, policy, updated, log) && HandlersNamed(tasks, log)
  }

  lemma AllReached(
      tasks: seq<TaskDefinition>, levels: seq<seq<string>>, max: int, policy: RetryPolicy, runs: map<string, TaskRun>,
      updated: map<string, TaskRun>, log: seq<Event>)
    requires Acyclic(GraphOf(tasks)) && IsLevelling(GraphOf(tasks), levels) && PlansInOrder(tasks, levels)
    requires Reached(tasks, levels, |levels|, max, policy, runs, updated, log)
    ensures Executed(tasks, max, policy, runs, updated, log)
  {
    AllLevelsBehind(GraphOf(tasks), levels, max, policy, runs, updated, log);
  }

  /** `executeLevel`, under every interleaving and whatever the handlers do: it throws exactly on a cycle. Otherwise
      each planned task with an entry is executed once, by its own handler, never more than `maxConcurrency` at a time,
      started in the order of the plan, and after all its dependencies with an entry have finished; its entry becomes
      the result, and other entries stay as they are. */
  method ExecuteLevel(
      tasks: seq<TaskDefinition>, runs: map<string, TaskRun>, maxConcurrency: int, policy: RetryPolicy)
    returns (r: Result<map<string, TaskRun>, string>, log: seq<Event>)
    ensures r.Ok? <==> Acyclic(GraphOf(tasks))
    ensures r.Err? ==> log == []
    ensures r.Ok? ==> Executed(tasks, maxConcurrency, policy, runs, r.value, log)
  {
    log := [];
    var plan := Plan(tasks);
    if plan.Err? {
      return Err(plan.error), log;
    }
    var levels := plan.value.levels;
    var updated := runs;
    NoneReached(tasks, levels, maxConcurrency, policy, runs);
    for j := 0 to |levels|
      invariant Reached(tasks, levels, j, maxConcurrency, policy, runs, updated, log)
    {
      BatchIsReady(tasks, levels, j, updated);
      var batch := BatchOf(tasks, levels[j], updated);
      var after, more := RunBatch(batch, policy, maxConcurrency, updated);
      ReachedNext(tasks, levels, j, maxConcurrency, policy, runs, updated, after, log, batch, more);
      updated, log := after, log + more;
    }
    AllReached(tasks, levels, maxConcurrency, policy, runs, updated, log);
    return Ok(updated), log;
  }

  lemma BatchIsReady(tasks: seq<TaskDefinition>, levels: seq<seq<string>>, j: nat, updated: map<string, TaskRun>)
    requires Acyclic(GraphOf(tasks)) && IsLevelling(GraphOf(tasks), levels) && j < |levels|
    ensures var batch := BatchOf(tasks, levels[j], updated);
            Drawn(batch, updated) && ItemIds(batch) == Kept(levels[j], updated.Keys)
    ensures forall id :: id in Kept(levels[j], updated.Keys) <==> id in levels[j] && id in updated
  {
    LevelIsKnown(GraphOf(tasks), levels, j);
    BatchIsDrawn(tasks, levels[j], updated);
  }

  lemma AllLevelsBehind(
      g: Graph, levels: seq<seq<string>>, max: int, policy: RetryPolicy, runs: map<string, TaskRun>,
      updated: map<string, TaskRun>, log: seq<Event>)
    requires Acyclic(g) && IsLevelling(g, levels)
    requires Behind(g, levels, |levels|, max, policy, runs, updated, log)
    ensures forall id ::
      Starts(log, id) == Finishes(log, id) == if id in runs && max >= 1 && Plannable(g, id) then 1 else 0
  {
    forall id ensures Within(levels, |levels|, id) <==> Plannable(g, id) {
      PlannedOnce(g, levels, id);
    }
  }

  lemma LevelIsKnown(g: Graph, levels: seq<seq<string>>, j: nat)
    requires Acyclic(g) && IsLevelling(g, levels) && j < |levels|
    ensures Distinct(levels[j]) && forall id | id in levels[j] :: id in g
  {
    assert Exact(g, levels[j], j);
    forall id | id in levels[j] ensures id in g {
      assert OnLevel(g, id, j);
    }
  }

  // ----- which tasks of an accepted job are executed

  /** Every task of an accepted job is executed exactly if no task lists a dependency twice. */
  lemma AcceptedRunsWhole(def: JobDefinition)
    requires Accepted(def)
    ensures (forall id | id in GraphOf(def.tasks) :: Plannable(GraphOf(def.tasks), id))
       <==> (forall t | t in def.tasks :: Distinct(t.dependsOn))
  {
    var g := GraphOf(def.tasks);
    if forall t | t in def.tasks :: Distinct(t.dependsOn) {
      forall id | id in g ensures Distinct(g[id]) && forall d | d in g[id] :: d in g {
        var i := MapByIsLast(def.tasks, TaskKey, TaskDeps, id);
        assert def.tasks[i] in def.tasks;
      }
      forall id | id in g ensures Plannable(g, id) {
        AllPlannable(g, id);
      }
    }
    if forall id | id in g :: Plannable(g, id) {
      forall t | t in def.tasks ensures Distinct(t.dependsOn) {
        var i :| 0 <= i < |def.tasks| && def.tasks[i] == t;
        MapByDistinct(def.tasks, TaskKey, TaskDeps, i);
      }
    }
  }

  /** The validator accepts a repeated dependency, the planner then drops the task, and so it is never executed. */
  lemma RepeatedDependencyIsDropped(policy: RetryPolicy)
    requires policy.maxAttempts >= 1
    ensures var a := TaskDefinition("a", "a", "h", 1, false, []);
            var b := TaskDefinition("b", "b", "h", 1, false, ["a", "a"]);
            var def := JobDefinition("j", "j", 1, [a, b], [], policy);
            Accepted(def) && "b" in GraphOf(def.tasks) && !Plannable(GraphOf(def.tasks), "b")
  {
    var a, b := TaskDefinition("a", "a", "h", 1, false, []), TaskDefinition("b", "b", "h", 1, false, ["a", "a"]);
    var def := JobDefinition("j", "j", 1, [a, b], [], policy);
    var g := GraphOf(def.tasks);
    MapByStep(def.tasks, TaskKey, TaskDeps, 0);
    MapByStep(def.tasks, TaskKey, TaskDeps, 1);
    assert def.tasks[..2] == def.tasks && def.tasks[..0] == [];
    assert g == map["a" := [], "b" := ["a", "a"]];
    var order := ["a", "b"];
    assert order[..1] == ["a"];
    OrderedIsAcyclic(g, order);
    assert g["b"][0] == g["b"][1];
  }
}
