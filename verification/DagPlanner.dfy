/** `DagPlanner`: dependency levels by Kahn's algorithm and the critical path by memoised recursion. */
module DagPlanner {
  import opened Wrappers
  import opened Graphs
  import opened Jobs
  import CycleCheck

  datatype DagNode = DagNode(taskId: string, dependsOn: seq<string>, weightMs: int)

  /** A `Map<string, DagNode>`: its keys in insertion order beside the entries. */
  datatype DagGraph = DagGraph(ids: seq<string>, nodes: map<string, DagNode>) {
    ghost predicate Valid() {
      && Distinct(ids)
      && (forall id :: id in ids <==> id in nodes)
      && forall id | id in nodes :: nodes[id].taskId == id
    }

    function Edges(): Graph {
      EdgesOf(nodes)
    }

    function Weights(): Weights {
      WeightsIn(nodes)
    }
  }

  function EdgesOf(nodes: map<string, DagNode>): Graph {
    map id | id in nodes :: nodes[id].dependsOn
  }

  function WeightsIn(nodes: map<string, DagNode>): Weights {
    map id | id in nodes :: nodes[id].weightMs
  }

  datatype DagPlan = DagPlan(levels: seq<seq<string>>, criticalPath: seq<string>, estimatedMs: int)

  lemma EdgesUpdate(nodes: map<string, DagNode>, node: DagNode)
    ensures EdgesOf(nodes[node.taskId := node]) == EdgesOf(nodes)[node.taskId := node.dependsOn]
  {
  }

  lemma WeightsUpdate(nodes: map<string, DagNode>, node: DagNode)
    ensures WeightsIn(nodes[node.taskId := node]) == WeightsIn(nodes)[node.taskId := node.weightMs]
  {
  }

  /** The ids of the tasks, each where it is met first. */
  function FirstIds(tasks: seq<TaskDefinition>): seq<string> {
    if tasks == [] then []
    else
      var init, id := FirstIds(tasks[..|tasks| - 1]), tasks[|tasks| - 1].id;
      if id in init then init else init + [id]
  }

  method BuildGraph(tasks: seq<TaskDefinition>) returns (r: Result<DagGraph, string>)
    ensures r.Ok? <==> Acyclic(GraphOf(tasks))
    ensures r.Ok? ==> r.value.ids == FirstIds(tasks)
    ensures r.Ok? ==> r.value.Valid() && r.value.Edges() == GraphOf(tasks) && r.value.Weights() == WeightsOf(tasks)
    ensures r.Err? ==> Reaches(GraphOf(tasks), r.error, r.error)
  {
    var graph := DagGraph([], map[]);
    for i := 0 to |tasks|
      invariant graph.Valid() && graph.Edges() == GraphOf(tasks[..i]) && graph.Weights() == WeightsOf(tasks[..i])
      invariant graph.ids == FirstIds(tasks[..i])
    {
      var t := tasks[i];
      var ids := SetAdd(graph.ids, t.id);
      var node := DagNode(t.id, t.dependsOn, t.timeoutMs);
      MapByStep(tasks, TaskKey, TaskDeps, i);
      MapByStep(tasks, TaskKey, TaskTimeout, i);
      EdgesUpdate(graph.nodes, node);
      WeightsUpdate(graph.nodes, node);
      assert tasks[..i + 1][..i] == tasks[..i];
      graph := DagGraph(ids, graph.nodes[t.id := node]);
    }
    assert tasks[..|tasks|] == tasks;
    var cycle := CycleCheck.FindCycle(graph.Edges(), graph.ids);
    r := if cycle.Some? then Err(cycle.value) else Ok(graph);
  }

  // ----- levels

  ghost function Elements(s: seq<string>): set<string> {
    set x | x in s
  }

  lemma TakeStep(s: seq<string>, i: nat)
    requires i < |s|
    ensures Elements(s[..i + 1]) == Elements(s[..i]) + {s[i]}
    ensures Distinct(s) ==> s[i] !in Elements(s[..i])
  {
    assert s[..i + 1] == s[..i] + [s[i]];
  }

  /** `Set.prototype.add`: the set keeps its elements in insertion order. */
  function SetAdd(s: seq<string>, x: string): (r: seq<string>)
    requires Distinct(s)
    ensures Distinct(r) && forall y :: y in r <==> y in s || y == x
  {
    if x in s then s else s + [x]
  }

  /** A task the levels will hold: it and everything before it lists only known tasks, each once. */
  ghost predicate Plannable(g: Graph, id: string)
    requires Acyclic(g)
    decreases Ancestors(g, id)
  {
    && id in g
    && Distinct(g[id])
    && forall d | d in g[id] :: d in g && (AncestorsShrink(g, d, id); Plannable(g, d))
  }

  ghost predicate OnLevel(g: Graph, id: string, level: int)
    requires Acyclic(g)
  {
    Plannable(g, id) && Depth(g, id) == level + 1
  }

  /** The tasks of one level, each once. */
  ghost predicate Exact(g: Graph, level: seq<string>, k: int)
    requires Acyclic(g)
  {
    Distinct(level) && forall id :: id in level <==> OnLevel(g, id, k)
  }

  ghost predicate AllExact(g: Graph, levels: seq<seq<string>>)
    requires Acyclic(g)
  {
    forall j | 0 <= j < |levels| :: levels[j] != [] && Exact(g, levels[j], j)
  }

  /** Level `j` lists once each exactly the plannable tasks whose longest chain of prerequisites has `j` tasks. */
  ghost predicate IsLevelling(g: Graph, levels: seq<seq<string>>)
    requires Acyclic(g)
  {
    && AllExact(g, levels)
    && (forall id | Plannable(g, id) :: Depth(g, id) <= |levels|)
  }

  /** What `inDegree` holds once the tasks in `done` have been placed: the listed dependencies not yet met. */
  ghost function Missing(g: Graph, id: string, done: set<string>): int
    requires id in g
  {
    |g[id]| - |DepSet(g, id) * done|
  }

  lemma {:induction false} ElementCount(s: seq<string>)
    ensures var elems := set x | x in s; |elems| <= |s| && (|elems| == |s| <==> Distinct(s))
  {
    if s != [] {
      var init, last := s[..|s| - 1], s[|s| - 1];
      ElementCount(init);
      var elems, before := (set x | x in s), (set x | x in init);
      assert s == init + [last];
      assert elems == before + {last};
      if last in before {
        var i :| 0 <= i < |init| && init[i] == last;
        assert s[i] == s[|s| - 1];
        assert before + {last} == before;
      }
    }
  }

  lemma MissingNone(g: Graph, id: string, done: set<string>)
    requires id in g
    ensures Missing(g, id, done) == 0 <==> Distinct(g[id]) && forall d | d in g[id] :: d in done
  {
    ElementCount(g[id]);
    var deps := DepSet(g, id);
    assert deps == set x | x in g[id];
    if deps <= done {
      assert deps * done == deps;
    } else {
      var d :| d in deps && d !in done;
      Subset(deps * done, deps - {d});
    }
  }

  lemma Subset<T>(a: set<T>, b: set<T>)
    requires a <= b
    ensures |a| <= |b|
  {
    assert b == a + (b - a);
  }

  lemma MissingStep(g: Graph, t: string, done: set<string>, id: string)
    requires t in g && id !in done
    ensures Missing(g, t, done + {id}) == Missing(g, t, done) - if id in g[t] then 1 else 0
  {
    if id in g[t] {
      assert DepSet(g, t) * (done + {id}) == DepSet(g, t) * done + {id};
    } else {
      assert DepSet(g, t) * (done + {id}) == DepSet(g, t) * done;
    }
  }

  ghost function Below(g: Graph, k: int): set<string>
    requires Acyclic(g)
  {
    set t | t in g && Plannable(g, t) && Depth(g, t) <= k
  }

  lemma MetByBelow(g: Graph, t: string, k: nat)
    requires Acyclic(g) && t in g
    ensures Missing(g, t, Below(g, k)) == 0 <==> Plannable(g, t) && Depth(g, t) <= k + 1
  {
    MissingNone(g, t, Below(g, k));
    DepthStep(g, t);
  }

  /** If no plannable task sits on level `k`, none sits higher. */
  lemma {:induction false} NoGap(g: Graph, k: nat, t: string)
    requires Acyclic(g) && Plannable(g, t)
    requires forall id :: !OnLevel(g, id, k)
    ensures Depth(g, t) <= k
    decreases Ancestors(g, t)
  {
    DepthStep(g, t);
    if Depth(g, t) > k {
      assert !OnLevel(g, t, k);
      var d :| d in g[t] && d in g && Depth(g, d) == Depth(g, t) - 1;
      AncestorsShrink(g, d, t);
      NoGap(g, k, d);
    }
  }

  ghost predicate Degrees(g: Graph, inDegree: map<string, int>, done: set<string>) {
    inDegree.Keys == g.Keys && forall t | t in g :: inDegree[t] == Missing(g, t, done)
  }

  /** The tasks that wait for `id` and for nothing else, in insertion order. */
  ghost function FreedBy(g: Graph, ids: seq<string>, inDegree: map<string, int>, id: string): seq<string>
    requires forall t | t in ids :: t in g && t in inDegree
  {
    if ids == [] then []
    else
      var t := ids[|ids| - 1];
      FreedBy(g, ids[..|ids| - 1], inDegree, id) + if id in g[t] && inDegree[t] == 1 then [t] else []
  }

  lemma {:induction false} FreedAre(g: Graph, ids: seq<string>, inDegree: map<string, int>, id: string)
    requires forall t | t in ids :: t in g && t in inDegree
    ensures forall t :: t in FreedBy(g, ids, inDegree, id) <==> t in ids && id in g[t] && inDegree[t] == 1
    ensures Distinct(ids) ==> Distinct(FreedBy(g, ids, inDegree, id))
  {
    if ids != [] {
      var init, last := ids[..|ids| - 1], ids[|ids| - 1];
      assert ids == init + [last];
      FreedAre(g, init, inDegree, id);
      if Distinct(ids) {
        assert last !in init;
      }
    }
  }

  /** The in-degrees once the dependents of `id` among `seen` have been lowered. */
  ghost predicate LoweredIn(g: Graph, before: map<string, int>, now: map<string, int>, seen: set<string>, id: string) {
    && before.Keys == g.Keys == now.Keys
    && forall t | t in g :: now[t] == before[t] - if t in seen && id in g[t] then 1 else 0
  }

  lemma LoweredStep(
      g: Graph, before: map<string, int>, now: map<string, int>, lower: map<string, int>, seen: set<string>,
      id: string, t: string)
    requires LoweredIn(g, before, now, seen, id) && t in g && t !in seen
    requires lower == if id in g[t] then now[t := now[t] - 1] else now
    ensures LoweredIn(g, before, lower, seen + {t}, id)
  {
  }

  /** The tasks freed among the first `i`, behind those that were ready before. */
  ghost predicate FreedIn(
      g: Graph, ids: seq<string>, i: nat, before: map<string, int>, id: string, next0: seq<string>, next: seq<string>)
    requires i <= |ids| && forall t | t in ids :: t in g && t in before
  {
    Distinct(next) && next == next0 + FreedBy(g, ids[..i], before, id)
  }

  lemma FreedStep(
      g: Graph, ids: seq<string>, i: nat, before: map<string, int>, id: string, next0: seq<string>,
      next: seq<string>, longer: seq<string>)
    requires (forall t | t in ids :: t in g && t in before) && i < |ids| && Distinct(ids)
    requires FreedIn(g, ids, i, before, id, next0, next) && forall t | t in next0 && t in before :: before[t] <= 0
    requires longer == if id in g[ids[i]] && before[ids[i]] == 1 then SetAdd(next, ids[i]) else next
    ensures FreedIn(g, ids, i + 1, before, id, next0, longer)
  {
    assert ids[..i + 1][..i] == ids[..i] && ids[..i + 1][i] == ids[i];
    TakeStep(ids, i);
    FreedAre(g, ids[..i], before, id);
    if id in g[ids[i]] && before[ids[i]] == 1 {
      assert ids[i] !in next;
      assert next + [ids[i]] == next0 + (FreedBy(g, ids[..i], before, id) + [ids[i]]);
    } else {
      assert FreedBy(g, ids[..i], before, id) + [] == FreedBy(g, ids[..i], before, id);
    }
  }

  /** One dependent misses one dependency less. */
  method LowerOne(taskId: string, inDegree0: map<string, int>, next0: seq<string>)
    returns (inDegree: map<string, int>, next: seq<string>)
    requires taskId in inDegree0 && Distinct(next0)
    ensures inDegree == inDegree0[taskId := inDegree0[taskId] - 1]
    ensures next == if inDegree0[taskId] == 1 then SetAdd(next0, taskId) else next0
  {
    var deg := inDegree0[taskId] - 1;
    inDegree, next := inDegree0[taskId := deg], next0;
    if deg == 0 {
      next := SetAdd(next, taskId);
    }
  }

  /** What holds when the first `i` tasks have been looked at. */
  ghost predicate Releasing(
      g: Graph, ids: seq<string>, i: nat, before: map<string, int>, id: string, next0: seq<string>,
      inDegree: map<string, int>, next: seq<string>)
    requires i <= |ids| && before.Keys == g.Keys && forall t | t in ids :: t in g
  {
    LoweredIn(g, before, inDegree, Elements(ids[..i]), id) && FreedIn(g, ids, i, before, id, next0, next)
  }

  lemma ReleasingFirst(
      g: Graph, ids: seq<string>, before: map<string, int>, id: string, next0: seq<string>)
    requires before.Keys == g.Keys && Distinct(next0) && forall t | t in ids :: t in g
    ensures Releasing(g, ids, 0, before, id, next0, before, next0)
  {
    assert next0 + [] == next0;
  }

  lemma ReleasingNext(
      g: Graph, ids: seq<string>, i: nat, before: map<string, int>, id: string, next0: seq<string>,
      inDegree: map<string, int>, next: seq<string>, lower: map<string, int>, longer: seq<string>)
    requires before.Keys == g.Keys && Distinct(ids) && i < |ids| && forall t | t in ids :: t in g
    requires Releasing(g, ids, i, before, id, next0, inDegree, next)
    requires forall t | t in next0 && t in before :: before[t] <= 0
    requires lower == if id in g[ids[i]] then inDegree[ids[i] := inDegree[ids[i]] - 1] else inDegree
    requires longer == if id in g[ids[i]] && inDegree[ids[i]] == 1 then SetAdd(next, ids[i]) else next
    ensures Releasing(g, ids, i + 1, before, id, next0, lower, longer)
  {
    TakeStep(ids, i);
    LoweredStep(g, before, inDegree, lower, Elements(ids[..i]), id, ids[i]);
    FreedStep(g, ids, i, before, id, next0, next, longer);
  }

  lemma ReleasingLast(
      g: Graph, ids: seq<string>, before: map<string, int>, id: string, next0: seq<string>,
      inDegree: map<string, int>, next: seq<string>)
    requires before.Keys == g.Keys && forall t :: t in ids <==> t in g
    requires Releasing(g, ids, |ids|, before, id, next0, inDegree, next)
    ensures inDegree.Keys == g.Keys && Distinct(next) && next == next0 + FreedBy(g, ids, before, id)
    ensures forall t | t in g :: inDegree[t] == before[t] - if id in g[t] then 1 else 0
  {
    assert ids[..|ids|] == ids;
  }

  /** One pass of the inner loop: the task at `i`, if it depends on `id`. */
  method ReleaseOne(
      dag: DagGraph, id: string, i: nat, inDegree0: map<string, int>, next0: seq<string>, ghost g: Graph)
    returns (inDegree: map<string, int>, next: seq<string>)
    requires dag.Valid() && g == dag.Edges() && i < |dag.ids| && inDegree0.Keys == g.Keys && Distinct(next0)
    ensures var t := dag.ids[i];
            && inDegree == (if id in g[t] then inDegree0[t := inDegree0[t] - 1] else inDegree0)
            && next == if id in g[t] && inDegree0[t] == 1 then SetAdd(next0, t) else next0
  {
    inDegree, next := inDegree0, next0;
    var taskId := dag.ids[i];
    if id in dag.nodes[taskId].dependsOn {
      inDegree, next := LowerOne(taskId, inDegree, next);
    }
  }

  method ReleaseStep(
      dag: DagGraph, id: string, i: nat, inDegree0: map<string, int>, next0: seq<string>, ghost g: Graph,
      ghost before: map<string, int>, ghost ready: seq<string>)
    returns (inDegree: map<string, int>, next: seq<string>)
    requires dag.Valid() && g == dag.Edges() && i < |dag.ids| && before.Keys == g.Keys
    requires forall t | t in ready && t in before :: before[t] <= 0
    requires Releasing(g, dag.ids, i, before, id, ready, inDegree0, next0)
    ensures Releasing(g, dag.ids, i + 1, before, id, ready, inDegree, next)
  {
    inDegree, next := ReleaseOne(dag, id, i, inDegree0, next0, g);
    ReleasingNext(g, dag.ids, i, before, id, ready, inDegree0, next0, inDegree, next);
  }

  /** The inner loop of one round: `id` has been placed, so its dependents miss one dependency less; those that waited
      for nothing else are ready, in insertion order. */
  method Release(dag: DagGraph, id: string, inDegree0: map<string, int>, next0: seq<string>, ghost g: Graph)
    returns (inDegree: map<string, int>, next: seq<string>)
    requires dag.Valid() && g == dag.Edges() && Distinct(next0) && inDegree0.Keys == g.Keys
    requires forall t | t in next0 && t in g :: inDegree0[t] <= 0
    ensures inDegree.Keys == g.Keys
    ensures forall t | t in g :: inDegree[t] == inDegree0[t] - if id in g[t] then 1 else 0
    ensures Distinct(next) && next == next0 + FreedBy(g, dag.ids, inDegree0, id)
  {
    inDegree, next := inDegree0, next0;
    ReleasingFirst(g, dag.ids, inDegree0, id, next0);
    for i := 0 to |dag.ids|
      invariant Releasing(g, dag.ids, i, inDegree0, id, next0, inDegree, next)
    {
      inDegree, next := ReleaseStep(dag, id, i, inDegree, next, g, inDegree0, next0);
    }
    ReleasingLast(g, dag.ids, inDegree0, id, next0, inDegree, next);
  }

  /** `next` holds the tasks whose last missing dependency was placed since `below`. */
  ghost predicate Released(g: Graph, next: seq<string>, below: set<string>, done: set<string>) {
    forall t :: t in next <==> (t in g && Missing(g, t, done) == 0 && Missing(g, t, below) != 0)
  }

  lemma DegreesStep(g: Graph, inDegree0: map<string, int>, inDegree: map<string, int>, done: set<string>, id: string)
    requires Degrees(g, inDegree0, done) && id !in done && inDegree.Keys == g.Keys
    requires forall t | t in g :: inDegree[t] == inDegree0[t] - if id in g[t] then 1 else 0
    ensures Degrees(g, inDegree, done + {id})
  {
    forall t | t in g ensures inDegree[t] == Missing(g, t, done + {id}) {
      MissingStep(g, t, done, id);
    }
  }

  lemma ReleasedStep(g: Graph, next0: seq<string>, next: seq<string>, inDegree: map<string, int>,
                     below: set<string>, done: set<string>, id: string)
    requires Released(g, next0, below, done) && id !in done && below <= done
    requires Degrees(g, inDegree, done + {id})
    requires forall t :: t in next <==> (t in next0 || (t in g && id in g[t] && inDegree[t] == 0))
    ensures Released(g, next, below, done + {id})
  {
    forall t | t in g
      ensures (Missing(g, t, done + {id}) == 0 && Missing(g, t, below) != 0)
         <==> ((Missing(g, t, done) == 0 && Missing(g, t, below) != 0)
               || (id in g[t] && Missing(g, t, done + {id}) == 0))
    {
      MissingStep(g, t, done, id);
      MissingNone(g, t, done);
      MissingNone(g, t, done + {id});
      MissingNone(g, t, below);
    }
  }

  lemma BelowStep(g: Graph, ready: seq<string>, k: nat)
    requires Acyclic(g) && Exact(g, ready, k)
    ensures Below(g, k + 1) == Below(g, k) + Elements(ready)
    ensures forall id | id in ready :: id !in Below(g, k)
    ensures ready != [] ==> g.Keys - Below(g, k + 1) < g.Keys - Below(g, k)
  {
    assert ready != [] ==> ready[0] in ready;
    forall t | t in Below(g, k + 1) && t !in Below(g, k) ensures t in ready {
      assert OnLevel(g, t, k);
    }
    assert forall t | t in ready :: OnLevel(g, t, k);
  }

  ghost function DegreesOf(g: Graph, done: set<string>): map<string, int> {
    map t | t in g :: Missing(g, t, done)
  }

  /** The tasks freed when those of `ready` are placed one after another, in that order; for each of them, the tasks it
      frees follow in insertion order. */
  ghost function FreedByAll(g: Graph, ids: seq<string>, ready: seq<string>, below: set<string>): seq<string>
    requires forall t | t in ids :: t in g
  {
    if ready == [] then []
    else
      var init := ready[..|ready| - 1];
      FreedByAll(g, ids, init, below) + FreedBy(g, ids, DegreesOf(g, below + Elements(init)), ready[|ready| - 1])
  }

  /** What holds when the first `i` of the ready tasks have been placed. */
  ghost predicate Placing(
      g: Graph, ids: seq<string>, ready: seq<string>, i: nat, below: set<string>, inDegree: map<string, int>,
      next: seq<string>)
    requires i <= |ready| && forall t | t in ids :: t in g
  {
    && Degrees(g, inDegree, below + Elements(ready[..i]))
    && Distinct(next) && Released(g, next, below, below + Elements(ready[..i]))
    && next == FreedByAll(g, ids, ready[..i], below)
  }

  lemma PlacingFirst(g: Graph, ids: seq<string>, ready: seq<string>, below: set<string>, inDegree: map<string, int>)
    requires Degrees(g, inDegree, below) && forall t | t in ids :: t in g
    ensures Placing(g, ids, ready, 0, below, inDegree, [])
  {
    assert below + Elements(ready[..0]) == below;
  }

  lemma ReleasedAreFree(
      g: Graph, below: set<string>, done: set<string>, inDegree: map<string, int>, next: seq<string>)
    requires Degrees(g, inDegree, done) && Released(g, next, below, done)
    ensures forall t | t in next && t in g :: inDegree[t] <= 0
  {
  }

  lemma FreedIsReleased(
      g: Graph, ids: seq<string>, id: string, inDegree0: map<string, int>, inDegree: map<string, int>,
      next0: seq<string>, next: seq<string>)
    requires (forall t :: t in ids <==> t in g) && inDegree0.Keys == g.Keys == inDegree.Keys
    requires forall t | t in g :: inDegree[t] == inDegree0[t] - if id in g[t] then 1 else 0
    requires next == next0 + FreedBy(g, ids, inDegree0, id)
    ensures forall t :: t in next <==> (t in next0 || (t in g && id in g[t] && inDegree[t] == 0))
  {
    FreedAre(g, ids, inDegree0, id);
  }

  lemma DegreesAre(g: Graph, inDegree: map<string, int>, done: set<string>)
    requires Degrees(g, inDegree, done)
    ensures inDegree == DegreesOf(g, done)
  {
  }

  lemma PlacingNext(
      g: Graph, ids: seq<string>, ready: seq<string>, i: nat, below: set<string>, inDegree0: map<string, int>,
      next0: seq<string>, inDegree: map<string, int>, next: seq<string>)
    requires i < |ready| && Distinct(ready) && (forall id | id in ready :: id !in below)
    requires forall t :: t in ids <==> t in g
    requires Placing(g, ids, ready, i, below, inDegree0, next0) && inDegree.Keys == g.Keys
    requires forall t | t in g :: inDegree[t] == inDegree0[t] - if ready[i] in g[t] then 1 else 0
    requires Distinct(next) && next == next0 + FreedBy(g, ids, inDegree0, ready[i])
    ensures Placing(g, ids, ready, i + 1, below, inDegree, next)
  {
    var done, id := below + Elements(ready[..i]), ready[i];
    TakeStep(ready, i);
    assert id in ready && below + Elements(ready[..i + 1]) == done + {id};
    assert ready[..i + 1][..i] == ready[..i];
    DegreesAre(g, inDegree0, done);
    DegreesStep(g, inDegree0, inDegree, done, id);
    FreedIsReleased(g, ids, id, inDegree0, inDegree, next0, next);
    ReleasedStep(g, next0, next, inDegree, below, done, id);
  }

  /** One round: every ready task is placed. */
  method Place(dag: DagGraph, ready: seq<string>, inDegree0: map<string, int>,
               ghost g: Graph, ghost below: set<string>, ghost after: set<string>)
    returns (inDegree: map<string, int>, next: seq<string>)
    requires dag.Valid() && g == dag.Edges() && after == below + Elements(ready)
    requires Distinct(ready) && forall id | id in ready :: id !in below
    requires Degrees(g, inDegree0, below)
    ensures Degrees(g, inDegree, after)
    ensures Distinct(next) && Released(g, next, below, after) && next == FreedByAll(g, dag.ids, ready, below)
  {
    inDegree, next := inDegree0, [];
    PlacingFirst(g, dag.ids, ready, below, inDegree0);
    for i := 0 to |ready|
      invariant Placing(g, dag.ids, ready, i, below, inDegree, next)
    {
      ghost var degrees, released := inDegree, next;
      ReleasedAreFree(g, below, below + Elements(ready[..i]), inDegree, next);
      inDegree, next := Release(dag, ready[i], inDegree, next, g);
      PlacingNext(g, dag.ids, ready, i, below, degrees, released, inDegree, next);
    }
    assert ready[..|ready|] == ready;
  }

  lemma NextLevel(g: Graph, next: seq<string>, k: nat)
    requires Acyclic(g) && Distinct(next) && Released(g, next, Below(g, k), Below(g, k + 1))
    ensures Exact(g, next, k + 1)
  {
    forall id ensures id in next <==> OnLevel(g, id, k + 1) {
      if id in g {
        MetByBelow(g, id, k);
        MetByBelow(g, id, k + 1);
      }
    }
  }

  lemma FirstLevel(g: Graph, ready: seq<string>)
    requires Acyclic(g) && forall id :: id in ready <==> id in g && |g[id]| == 0
    ensures Below(g, 0) == {}
    ensures Distinct(ready) ==> Exact(g, ready, 0)
  {
    forall t | t in g ensures Depth(g, t) >= 1 && (|g[t]| == 0 <==> OnLevel(g, t, 0)) {
      DepthStep(g, t);
      if OnLevel(g, t, 0) && g[t] != [] {
        assert g[t][0] in g[t];
        DepthStep(g, g[t][0]);
      }
    }
  }

  /** The ids with in-degree zero, in insertion order. */
  function Idle(ids: seq<string>, inDegree: map<string, int>): seq<string>
    requires forall t | t in ids :: t in inDegree
  {
    if ids == [] then []
    else
      var t := ids[|ids| - 1];
      Idle(ids[..|ids| - 1], inDegree) + if inDegree[t] == 0 then [t] else []
  }

  lemma {:induction false} IdleAre(ids: seq<string>, inDegree: map<string, int>)
    requires forall t | t in ids :: t in inDegree
    ensures forall t :: t in Idle(ids, inDegree) <==> t in ids && inDegree[t] == 0
    ensures Distinct(ids) ==> Distinct(Idle(ids, inDegree))
  {
    if ids != [] {
      var init, last := ids[..|ids| - 1], ids[|ids| - 1];
      assert ids == init + [last];
      IdleAre(init, inDegree);
      if Distinct(ids) {
        assert last !in init;
      }
    }
  }

  lemma IdleStep(ids: seq<string>, i: nat, inDegree: map<string, int>, ready: seq<string>, longer: seq<string>)
    requires (forall t | t in ids :: t in inDegree) && i < |ids| && Distinct(ids) && ready == Idle(ids[..i], inDegree)
    requires Distinct(ready) && longer == if inDegree[ids[i]] == 0 then SetAdd(ready, ids[i]) else ready
    ensures longer == Idle(ids[..i + 1], inDegree)
  {
    assert ids[..i + 1][..i] == ids[..i] && ids[..i + 1][i] == ids[i];
    TakeStep(ids, i);
    IdleAre(ids[..i], inDegree);
  }

  /** The ids that wait for nothing. */
  method InitiallyReady(dag: DagGraph, inDegree: map<string, int>) returns (ready: seq<string>)
    requires dag.Valid() && inDegree.Keys == dag.nodes.Keys
    ensures ready == Idle(dag.ids, inDegree)
    ensures Distinct(ready) && forall id :: id in ready <==> id in inDegree && inDegree[id] == 0
  {
    ready := [];
    for i := 0 to |dag.ids|
      invariant ready == Idle(dag.ids[..i], inDegree) && Distinct(ready)
    {
      ghost var before := ready;
      if inDegree[dag.ids[i]] == 0 {
        ready := SetAdd(ready, dag.ids[i]);
      }
      IdleStep(dag.ids, i, inDegree, before, ready);
    }
    assert dag.ids[..|dag.ids|] == dag.ids;
    IdleAre(dag.ids, inDegree);
  }

  lemma InitialDegrees(g: Graph, inDegree: map<string, int>)
    requires inDegree == map id | id in g :: |g[id]|
    ensures Degrees(g, inDegree, {})
  {
    forall t | t in g ensures inDegree[t] == Missing(g, t, {}) {
      assert DepSet(g, t) * {} == {};
    }
  }

  lemma PushLevel(g: Graph, levels: seq<seq<string>>, level: seq<string>)
    requires Acyclic(g) && AllExact(g, levels) && level != [] && Exact(g, level, |levels|)
    ensures AllExact(g, levels + [level])
  {
  }

  lemma NoneAbove(g: Graph, ready: seq<string>, k: nat)
    requires Acyclic(g) && Exact(g, ready, k) && ready == []
    ensures forall id | Plannable(g, id) :: Depth(g, id) <= k
  {
    forall id | Plannable(g, id) ensures Depth(g, id) <= k {
      NoGap(g, k, id);
    }
  }

  /** Level number `k`, given the levels before it. */
  ghost function LevelAfter(g: Graph, ids: seq<string>, levels: seq<seq<string>>): seq<string>
    requires Acyclic(g) && forall t | t in ids :: t in g
  {
    if levels == [] then Idle(ids, DegreesOf(g, {}))
    else FreedByAll(g, ids, levels[|levels| - 1], Below(g, |levels| - 1))
  }

  /** The order within the levels: the first holds the tasks that wait for nothing in insertion order, and every other
      one the tasks in the order in which the tasks before them free them. */
  ghost predicate InPlanOrder(g: Graph, ids: seq<string>, levels: seq<seq<string>>)
    requires Acyclic(g) && forall t | t in ids :: t in g
  {
    forall k | 0 <= k < |levels| :: levels[k] == LevelAfter(g, ids, levels[..k])
  }

  lemma OrderPush(g: Graph, ids: seq<string>, levels: seq<seq<string>>, level: seq<string>)
    requires Acyclic(g) && (forall t | t in ids :: t in g) && InPlanOrder(g, ids, levels)
    requires level == LevelAfter(g, ids, levels)
    ensures InPlanOrder(g, ids, levels + [level])
  {
    var longer := levels + [level];
    forall k | 0 <= k < |longer| ensures longer[k] == LevelAfter(g, ids, longer[..k]) {
      assert longer[..k] == levels[..k];
      assert levels[..|levels|] == levels;
    }
  }

  /** What holds when these levels have been listed: the next level is ready, and the in-degrees are up to date. */
  ghost predicate Levelled(
      g: Graph, ids: seq<string>, levels: seq<seq<string>>, inDegree: map<string, int>, ready: seq<string>)
    requires Acyclic(g) && forall t | t in ids :: t in g
  {
    && Exact(g, ready, |levels|) && Degrees(g, inDegree, Below(g, |levels|))
    && AllExact(g, levels) && InPlanOrder(g, ids, levels) && ready == LevelAfter(g, ids, levels)
  }

  lemma LevelledFirst(g: Graph, ids: seq<string>, inDegree: map<string, int>, ready: seq<string>)
    requires Acyclic(g) && (forall t :: t in ids <==> t in g) && inDegree == map id | id in g :: |g[id]|
    requires ready == Idle(ids, inDegree) && Distinct(ids)
    ensures Levelled(g, ids, [], inDegree, ready)
  {
    IdleAre(ids, inDegree);
    FirstLevel(g, ready);
    InitialDegrees(g, inDegree);
    DegreesAre(g, inDegree, {});
  }

  lemma AfterPush(g: Graph, ids: seq<string>, levels: seq<seq<string>>, ready: seq<string>)
    requires Acyclic(g) && forall t | t in ids :: t in g
    ensures LevelAfter(g, ids, levels + [ready]) == FreedByAll(g, ids, ready, Below(g, |levels|))
  {
  }

  lemma LevelledNext(
      g: Graph, ids: seq<string>, levels: seq<seq<string>>, inDegree0: map<string, int>, ready: seq<string>,
      inDegree: map<string, int>, next: seq<string>, longer: seq<seq<string>>)
    requires Acyclic(g) && (forall t | t in ids :: t in g) && Levelled(g, ids, levels, inDegree0, ready) && ready != []
    requires Degrees(g, inDegree, Below(g, |levels| + 1)) && Distinct(next)
    requires Released(g, next, Below(g, |levels|), Below(g, |levels| + 1))
    requires next == FreedByAll(g, ids, ready, Below(g, |levels|)) && longer == levels + [ready]
    ensures Levelled(g, ids, longer, inDegree, next)
  {
    assert |longer| == |levels| + 1;
    assert AllExact(g, longer) by {
      PushLevel(g, levels, ready);
    }
    assert InPlanOrder(g, ids, longer) by {
      OrderPush(g, ids, levels, ready);
    }
    assert Exact(g, next, |longer|) by {
      NextLevel(g, next, |levels|);
    }
    AfterPush(g, ids, levels, ready);
  }

  method TopologicalLevels(dag: DagGraph, ghost g: Graph) returns (levels: seq<seq<string>>)
    requires dag.Valid() && g == dag.Edges() && Acyclic(g)
    ensures IsLevelling(g, levels)
    ensures InPlanOrder(g, dag.ids, levels)
  {
    var inDegree := map id | id in dag.nodes :: |dag.nodes[id].dependsOn|;
    var ready := InitiallyReady(dag, inDegree);
    LevelledFirst(g, dag.ids, inDegree, ready);
    levels := [];
    while |ready| > 0
      invariant Levelled(g, dag.ids, levels, inDegree, ready)
      decreases g.Keys - Below(g, |levels|)
    {
      BelowStep(g, ready, |levels|);
      ghost var degrees := inDegree;
      var next;
      inDegree, next := Place(dag, ready, inDegree, g, Below(g, |levels|), Below(g, |levels| + 1));
      LevelledNext(g, dag.ids, levels, degrees, ready, inDegree, next, levels + [ready]);
      levels := levels + [ready];
      ready := next;
    }
    NoneAbove(g, ready, |levels|);
  }

  // ----- critical path

  lemma BestDepNext(g: Graph, w: Weights, id: string, i: nat, best: Costed, child: Costed)
    requires Acyclic(g) && id in g && g.Keys <= w.Keys && i < |g[id]| && best == BestDep(g, w, id, g[id][..i])
    requires child == if g[id][i] in g then Longest(g, w, g[id][i]) else Costed(0, [])
    ensures BestDep(g, w, id, g[id][..i + 1]) == if child.cost > best.cost then child else best
  {
    assert g[id][..i + 1][..i] == g[id][..i];
    BestDepIsMax(g, w, id, g[id][..i]);
    if g[id][i] in g {
      AncestorsShrink(g, g[id][i], id);
    }
  }

  /** The memo that `longestFrom` fills while it recurses. */
  class PathMemo {
    const dag: DagGraph
    var memo: map<string, Costed>

    ghost predicate Valid()
      reads this
    {
      && dag.Valid() && Acyclic(dag.Edges())
      && forall id | id in memo :: id in dag.nodes && memo[id] == Longest(dag.Edges(), dag.Weights(), id)
    }

    constructor (dag: DagGraph)
      requires dag.Valid() && Acyclic(dag.Edges())
      ensures Valid() && this.dag == dag
    {
      this.dag, memo := dag, map[];
    }

    method LongestFrom(id: string) returns (r: Costed)
      requires Valid()
      modifies this
      ensures Valid()
      ensures r == if id in dag.nodes then Longest(dag.Edges(), dag.Weights(), id) else Costed(0, [])
      decreases id in dag.nodes, Ancestors(dag.Edges(), id)
    {
      if id in memo {
        return memo[id];
      }
      if id !in dag.nodes {
        return Costed(0, []);
      }
      ghost var g, w := dag.Edges(), dag.Weights();
      var node := dag.nodes[id];
      var bestChild := Costed(0, []);
      for i := 0 to |node.dependsOn|
        invariant Valid()
        invariant bestChild == BestDep(g, w, id, g[id][..i])
      {
        var dep := node.dependsOn[i];
        if dep in g {
          AncestorsShrink(g, dep, id);
        }
        var child := LongestFrom(dep);
        BestDepNext(g, w, id, i, bestChild, child);
        if child.cost > bestChild.cost {
          bestChild := child;
        }
      }
      assert g[id][..|g[id]|] == g[id];
      r := Costed(node.weightMs + bestChild.cost, bestChild.path + [id]);
      memo := memo[id := r];
    }
  }

  /** Of the heaviest chains that end at one of these tasks, the first that weighs more than all before it. */
  ghost function BestOf(g: Graph, w: Weights, ids: seq<string>): Costed
    requires Acyclic(g) && g.Keys <= w.Keys && forall id | id in ids :: id in g
  {
    if ids == [] then Costed(0, [])
    else
      var best, result := BestOf(g, w, ids[..|ids| - 1]), Longest(g, w, ids[|ids| - 1]);
      if result.cost > best.cost then result else best
  }

  lemma BestOfNext(g: Graph, w: Weights, ids: seq<string>, i: nat, best: Costed, result: Costed)
    requires Acyclic(g) && g.Keys <= w.Keys && i < |ids| && forall id | id in ids :: id in g
    requires best == BestOf(g, w, ids[..i]) && result == Longest(g, w, ids[i])
    ensures BestOf(g, w, ids[..i + 1]) == if result.cost > best.cost then result else best
  {
    assert ids[..i + 1][..i] == ids[..i];
  }

  lemma {:induction false} BestOfIsHeaviest(g: Graph, w: Weights, ids: seq<string>)
    requires Acyclic(g) && g.Keys <= w.Keys && forall id | id in ids :: id in g
    ensures var best := BestOf(g, w, ids);
            && Chain(g, best.path) && best.cost == Weight(w, best.path) && best.cost >= 0
            && forall id | id in ids :: Longest(g, w, id).cost <= best.cost
  {
    if ids != [] {
      var init, last := ids[..|ids| - 1], ids[|ids| - 1];
      assert ids == init + [last];
      BestOfIsHeaviest(g, w, init);
      LongestIsChain(g, w, last);
    }
  }

  lemma NoneHeavier(g: Graph, w: Weights, ids: seq<string>, path: seq<string>)
    requires Acyclic(g) && g.Keys <= w.Keys && (forall id :: id in ids <==> id in g) && path == BestOf(g, w, ids).path
    ensures Chain(g, path) && forall p | Chain(g, p) :: Weight(w, p) <= Weight(w, path)
  {
    BestOfIsHeaviest(g, w, ids);
    forall p | Chain(g, p) ensures Weight(w, p) <= Weight(w, path) {
      if p != [] {
        LongestIsHeaviest(g, w, p[|p| - 1], p);
      }
    }
  }

  /** A heaviest chain of the whole graph; the empty chain when no chain weighs more than nothing. */
  method CriticalPath(dag: DagGraph) returns (path: seq<string>)
    requires dag.Valid() && Acyclic(dag.Edges())
    ensures path == BestOf(dag.Edges(), dag.Weights(), dag.ids).path
    ensures Chain(dag.Edges(), path)
    ensures forall p | Chain(dag.Edges(), p) :: Weight(dag.Weights(), p) <= Weight(dag.Weights(), path)
  {
    ghost var g, w := dag.Edges(), dag.Weights();
    var search := new PathMemo(dag);
    var best := Costed(0, []);
    for i := 0 to |dag.ids|
      invariant search.Valid() && search.dag == dag
      invariant best == BestOf(g, w, dag.ids[..i])
    {
      var result := search.LongestFrom(dag.ids[i]);
      BestOfNext(g, w, dag.ids, i, best, result);
      if result.cost > best.cost {
        best := result;
      }
    }
    path := best.path;
    assert dag.ids[..|dag.ids|] == dag.ids;
    NoneHeavier(g, w, dag.ids, path);
  }

  function SumWeights(dag: DagGraph, path: seq<string>): int {
    if path == [] then 0
    else
      var id := path[|path| - 1];
      SumWeights(dag, path[..|path| - 1]) + if id in dag.nodes then dag.nodes[id].weightMs else 0
  }

  lemma {:induction false} SumIsWeight(dag: DagGraph, path: seq<string>)
    requires forall id | id in path :: id in dag.nodes
    ensures SumWeights(dag, path) == Weight(dag.Weights(), path)
  {
    if path != [] {
      SumIsWeight(dag, path[..|path| - 1]);
    }
  }

  /** The path is that of the first task to weigh more than all before it, in insertion order. */
  ghost predicate IsBestPath(tasks: seq<TaskDefinition>, path: seq<string>)
    requires Acyclic(GraphOf(tasks)) && GraphOf(tasks).Keys <= WeightsOf(tasks).Keys
  {
    FirstIdsAreKnown(tasks);
    path == BestOf(GraphOf(tasks), WeightsOf(tasks), FirstIds(tasks)).path
  }

  ghost predicate PlansInOrder(tasks: seq<TaskDefinition>, levels: seq<seq<string>>)
    requires Acyclic(GraphOf(tasks))
  {
    FirstIdsAreKnown(tasks);
    InPlanOrder(GraphOf(tasks), FirstIds(tasks), levels)
  }

  lemma {:induction false} FirstIdsAreKnown(tasks: seq<TaskDefinition>)
    ensures forall id | id in FirstIds(tasks) :: id in GraphOf(tasks)
  {
    if tasks != [] {
      FirstIdsAreKnown(tasks[..|tasks| - 1]);
    }
  }

  /** `plan`: throws exactly on a cycle; otherwise exact levels, and an optimal critical path with its weight. */
  method Plan(tasks: seq<TaskDefinition>) returns (r: Result<DagPlan, string>)
    ensures r.Ok? <==> Acyclic(GraphOf(tasks))
    ensures r.Err? ==> Reaches(GraphOf(tasks), r.error, r.error)
    ensures r.Ok? ==> IsLevelling(GraphOf(tasks), r.value.levels)
    ensures r.Ok? ==> PlansInOrder(tasks, r.value.levels)
    ensures r.Ok? ==> Chain(GraphOf(tasks), r.value.criticalPath)
    ensures r.Ok? ==> r.value.estimatedMs == Weight(WeightsOf(tasks), r.value.criticalPath)
    ensures r.Ok? ==> forall p | Chain(GraphOf(tasks), p) :: Weight(WeightsOf(tasks), p) <= r.value.estimatedMs
    ensures r.Ok? ==> IsBestPath(tasks, r.value.criticalPath)
  {
    var built := BuildGraph(tasks);
    if built.Err? {
      return Err(built.error);
    }
    var graph := built.value;
    var levels := TopologicalLevels(graph, graph.Edges());
    var criticalPath := CriticalPath(graph);
    SumIsWeight(graph, criticalPath);
    return Ok(DagPlan(levels, criticalPath, SumWeights(graph, criticalPath)));
  }

  // ----- what the levels hold

  ghost predicate Planned(levels: seq<seq<string>>, id: string) {
    exists j :: 0 <= j < |levels| && id in levels[j]
  }

  /** The levels hold a task exactly when it is plannable, and then on one level only. */
  lemma PlannedOnce(g: Graph, levels: seq<seq<string>>, id: string)
    requires Acyclic(g) && IsLevelling(g, levels)
    ensures Planned(levels, id) <==> Plannable(g, id)
    ensures forall j, k | 0 <= j < |levels| && 0 <= k < |levels| && id in levels[j] && id in levels[k] :: j == k
  {
    if Plannable(g, id) {
      DepthStep(g, id);
      assert OnLevel(g, id, Depth(g, id) - 1);
      assert id in levels[Depth(g, id) - 1];
    }
    forall j, k | 0 <= j < |levels| && 0 <= k < |levels| && id in levels[j] && id in levels[k] ensures j == k {
      assert OnLevel(g, id, j) && OnLevel(g, id, k);
    }
  }

  /** Every prerequisite of a planned task sits on an earlier level. */
  lemma PrerequisitesEarlier(g: Graph, levels: seq<seq<string>>, j: nat, id: string, dep: string)
    requires Acyclic(g) && IsLevelling(g, levels)
    requires j < |levels| && id in levels[j] && dep in g[id]
    ensures exists i :: 0 <= i < j && dep in levels[i]
  {
    assert OnLevel(g, id, j);
    DepthStep(g, id);
    DepthStep(g, dep);
    assert OnLevel(g, dep, Depth(g, dep) - 1);
    assert dep in levels[Depth(g, dep) - 1];
  }

  lemma {:induction false} AllPlannable(g: Graph, id: string)
    requires Acyclic(g) && id in g
    requires forall t | t in g :: Distinct(g[t]) && forall d | d in g[t] :: d in g
    ensures Plannable(g, id)
    decreases Ancestors(g, id)
  {
    forall d | d in g[id] ensures Plannable(g, d) {
      AncestorsShrink(g, d, id);
      AllPlannable(g, d);
    }
  }

  /** No task is dropped exactly when every task lists only known dependencies, each once. */
  lemma NothingDropped(g: Graph, levels: seq<seq<string>>)
    requires Acyclic(g) && IsLevelling(g, levels)
    ensures (forall t | t in g :: Planned(levels, t))
       <==> (forall t | t in g :: Distinct(g[t]) && forall d | d in g[t] :: d in g)
  {
    forall t ensures Planned(levels, t) <==> Plannable(g, t) {
      PlannedOnce(g, levels, t);
    }
    if forall t | t in g :: Distinct(g[t]) && forall d | d in g[t] :: d in g {
      forall t | t in g ensures Planned(levels, t) {
        AllPlannable(g, t);
      }
    }
  }
}
