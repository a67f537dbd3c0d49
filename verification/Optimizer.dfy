/** `WorkflowDslOptimizer`: depth-first post-order, then a stable sort by depth. */
module Optimizer {
  import opened Graphs
  import opened Sorting
  import opened DslAst

  /** The list mentions every dependency among its graph's tasks before the dependents. */
  ghost predicate DependencyFirst(g: Graph, tasks: seq<TaskDslNode>) {
    Ordered(g, Ids(tasks))
  }

  /** Exactly one task per id: of the tasks given with that id, the last. */
  ghost predicate OnePerId(result: seq<TaskDslNode>, given: seq<TaskDslNode>) {
    && DistinctKeys(result, NodeKey)
    && forall t :: t in result <==> exists i :: LastOfKey(given, NodeKey, i) && given[i] == t
  }

  lemma {:induction false} ByIdIsGraph(tasks: seq<TaskDslNode>)
    ensures var byId, g := MapBy(tasks, NodeKey, Itself), NodeGraph(tasks);
            byId.Keys == g.Keys && forall id | id in g :: byId[id].id == id && g[id] == byId[id].dependsOn
  {
    if tasks != [] {
      ByIdIsGraph(tasks[..|tasks| - 1]);
    }
  }

  lemma LastIsById(tasks: seq<TaskDslNode>, t: TaskDslNode)
    ensures var byId := MapBy(tasks, NodeKey, Itself);
            (t.id in byId && byId[t.id] == t) <==> exists i :: LastOfKey(tasks, NodeKey, i) && tasks[i] == t
  {
    var byId := MapBy(tasks, NodeKey, Itself);
    if t.id in byId {
      var i := MapByIsLast(tasks, NodeKey, Itself, t.id);
      forall j | LastOfKey(tasks, NodeKey, j) && tasks[j] == t ensures j == i {
        assert NodeKey(tasks[j]) == NodeKey(tasks[i]);
      }
    }
    if i :| LastOfKey(tasks, NodeKey, i) && tasks[i] == t {
      assert NodeKey(tasks[i]) == t.id;
    }
  }

  ghost function Listed(out: seq<TaskDslNode>): set<string> {
    set t | t in out :: t.id
  }

  lemma ListedPush(out: seq<TaskDslNode>, t: TaskDslNode)
    ensures Listed(out + [t]) == Listed(out) + {t.id}
    ensures Ids(out + [t]) == Ids(out) + [t.id]
  {
    assert Ids(out + [t]) == Ids(out) + [t.id];
    assert t in out + [t];
    assert forall u | u in out :: u in out + [t];
  }

  lemma DependencyFirstPush(g: Graph, out: seq<TaskDslNode>, t: TaskDslNode)
    requires DependencyFirst(g, out) && forall d | d in Deps(g, t.id) && d in g :: d in Listed(out)
    ensures DependencyFirst(g, out + [t])
  {
    ListedPush(out, t);
    var ids := Ids(out + [t]);
    forall i, d | 0 <= i < |ids| && d in Deps(g, ids[i]) && d in g ensures d in ids[..i] {
      if i < |out| {
        assert ids[..i] == Ids(out)[..i];
      } else {
        var u :| u in out && u.id == d;
        var k :| 0 <= k < |out| && out[k] == u;
        assert ids[k] == d;
      }
    }
  }

  /** A task that is met again while it is still being visited lies on a cycle. */
  lemma ClosedTrail(g: Graph, id: string, trail: seq<string>)
    requires Chain(g, trail) && id in trail && id in g[trail[0]]
    ensures !Acyclic(g)
  {
    var k :| 0 <= k < |trail| && trail[k] == id;
    assert Walk(g, [id] + trail[..k + 1], id, id);
    assert Reaches(g, id, id);
  }

  lemma ExtendTrail(g: Graph, id: string, trail: seq<string>)
    requires Chain(g, trail) && id in g && (trail != [] ==> id in g[trail[0]])
    ensures Chain(g, [id] + trail)
    ensures forall x :: x in [id] + trail <==> x == id || x in trail
  {
  }

  // ----- the order, without a record of visits

  /** The tasks below and including `id` in post-order, each as often as it is met. */
  ghost function Naive(g: Graph, id: string): seq<string>
    requires Acyclic(g)
    decreases Ancestors(g, id), 1
  {
    if id in g then NaiveAll(g, id, g[id]) + [id] else []
  }

  ghost function NaiveAll(g: Graph, id: string, deps: seq<string>): seq<string>
    requires Acyclic(g) && id in g && forall d | d in deps :: d in g[id]
    decreases Ancestors(g, id), 0, |deps|
  {
    if deps == [] then []
    else
      var d := deps[|deps| - 1];
      NaiveAll(g, id, deps[..|deps| - 1]) + if d in g then (AncestorsShrink(g, d, id); Naive(g, d)) else []
  }

  ghost function NaiveOf(g: Graph, ids: seq<string>): seq<string>
    requires Acyclic(g)
  {
    if ids == [] then [] else NaiveOf(g, ids[..|ids| - 1]) + Naive(g, ids[|ids| - 1])
  }

  /** `out`, followed by what `more` adds to it, each id where it is met first. */
  function Merge(out: seq<string>, more: seq<string>): seq<string> {
    if more == [] then out
    else
      var merged, last := Merge(out, more[..|more| - 1]), more[|more| - 1];
      if last in merged then merged else merged + [last]
  }

  lemma {:induction false} MergeConcat(out: seq<string>, a: seq<string>, b: seq<string>)
    ensures Merge(out, a + b) == Merge(Merge(out, a), b)
    decreases |b|
  {
    if b == [] {
      assert a + b == a;
    } else {
      assert (a + b)[..|a + b| - 1] == a + b[..|b| - 1];
      MergeConcat(out, a, b[..|b| - 1]);
    }
  }

  lemma {:induction false} MergeKnown(out: seq<string>, more: seq<string>)
    requires forall x | x in more :: x in out
    ensures Merge(out, more) == out
  {
    if more != [] {
      MergeKnown(out, more[..|more| - 1]);
    }
  }

  lemma MergeNew(out: seq<string>, x: string)
    requires x !in out
    ensures Merge(out, [x]) == out + [x]
  {
    assert [x][..0] == [];
  }

  /** In a dependency-first list everything below a listed task is listed. */
  lemma {:induction false} NaiveIsListed(g: Graph, order: seq<string>, id: string)
    requires Acyclic(g) && Ordered(g, order) && (id in g ==> id in order)
    ensures forall x | x in Naive(g, id) :: x in order
    decreases Ancestors(g, id), 1
  {
    if id in g {
      NaiveAllIsListed(g, order, id, g[id]);
    }
  }

  lemma {:induction false} NaiveAllIsListed(g: Graph, order: seq<string>, id: string, deps: seq<string>)
    requires Acyclic(g) && Ordered(g, order) && id in g && id in order && forall d | d in deps :: d in g[id]
    ensures forall x | x in NaiveAll(g, id, deps) :: x in order
    decreases Ancestors(g, id), 0, |deps|
  {
    if deps != [] {
      var d := deps[|deps| - 1];
      NaiveAllIsListed(g, order, id, deps[..|deps| - 1]);
      if d in g {
        var i :| 0 <= i < |order| && order[i] == id;
        assert d in order[..i];
        AncestorsShrink(g, d, id);
        NaiveIsListed(g, order, d);
      }
    }
  }

  lemma InIds(out: seq<TaskDslNode>, id: string)
    ensures id in Ids(out) <==> id in Listed(out)
  {
    if id in Ids(out) {
      var i :| 0 <= i < |out| && Ids(out)[i] == id;
      assert out[i] in out;
    }
    if t :| t in out && t.id == id {
      var i :| 0 <= i < |out| && out[i] == t;
      assert Ids(out)[i] == id;
    }
  }

  /** A visit has listed `out`, after `before`, as the plain recursion would. */
  ghost predicate Follows(before: seq<TaskDslNode>, more: seq<string>, out: seq<TaskDslNode>) {
    Ids(out) == Merge(Ids(before), more)
  }

  lemma FollowsKnown(g: Graph, out: seq<TaskDslNode>, id: string)
    requires Acyclic(g) && DependencyFirst(g, out) && (id in g ==> id in Listed(out))
    ensures Follows(out, Naive(g, id), out)
  {
    InIds(out, id);
    NaiveIsListed(g, Ids(out), id);
    MergeKnown(Ids(out), Naive(g, id));
  }

  lemma FollowsThen(
      a: seq<TaskDslNode>, first: seq<string>, b: seq<TaskDslNode>, second: seq<string>, c: seq<TaskDslNode>)
    requires Follows(a, first, b) && Follows(b, second, c)
    ensures Follows(a, first + second, c)
  {
    MergeConcat(Ids(a), first, second);
  }

  lemma FollowsPush(out: seq<TaskDslNode>, t: TaskDslNode)
    requires t.id !in Listed(out)
    ensures Follows(out, [t.id], out + [t])
  {
    InIds(out, t.id);
    ListedPush(out, t);
    MergeNew(Ids(out), t.id);
  }

  lemma {:induction false} MergeHas(out: seq<string>, more: seq<string>, x: string)
    requires x in out || x in more
    ensures x in Merge(out, more)
  {
    if more != [] {
      if x != more[|more| - 1] {
        assert more == more[..|more| - 1] + [more[|more| - 1]];
        MergeHas(out, more[..|more| - 1], x);
      }
    }
  }

  lemma {:induction false} NaiveAllHas(g: Graph, id: string, deps: seq<string>, d: string)
    requires Acyclic(g) && id in g && (forall e | e in deps :: e in g[id]) && d in deps && d in g
    ensures d in NaiveAll(g, id, deps)
  {
    var init, last := deps[..|deps| - 1], deps[|deps| - 1];
    assert deps == init + [last];
    if d != last {
      NaiveAllHas(g, id, init, d);
    }
  }

  lemma DependenciesFollow(g: Graph, before: seq<TaskDslNode>, id: string, out: seq<TaskDslNode>)
    requires Acyclic(g) && id in g && Follows(before, NaiveAll(g, id, g[id]), out)
    ensures forall d | d in g[id] && d in g :: d in Listed(out)
  {
    forall d | d in g[id] && d in g ensures d in Listed(out) {
      NaiveAllHas(g, id, g[id], d);
      MergeHas(Ids(before), NaiveAll(g, id, g[id]), d);
      InIds(out, d);
    }
  }

  lemma NaiveStep(g: Graph, id: string, i: nat)
    requires Acyclic(g) && id in g && i < |g[id]|
    ensures NaiveAll(g, id, g[id][..i + 1]) == NaiveAll(g, id, g[id][..i]) + Naive(g, g[id][i])
  {
    assert g[id][..i + 1][..i] == g[id][..i];
    if g[id][i] in g {
      AncestorsShrink(g, g[id][i], id);
    }
  }

  /** What has been listed since `first` when the dependencies of `id` up to number `i` have been visited. */
  ghost predicate FollowsUpTo(g: Graph, first: seq<TaskDslNode>, id: string, i: nat, out: seq<TaskDslNode>)
    requires id in g && i <= |g[id]|
  {
    Acyclic(g) ==> Follows(first, NaiveAll(g, id, g[id][..i]), out)
  }

  lemma FollowsFirst(g: Graph, first: seq<TaskDslNode>, id: string)
    requires id in g
    ensures FollowsUpTo(g, first, id, 0, first)
  {
  }

  lemma FollowsNext(
      g: Graph, first: seq<TaskDslNode>, id: string, i: nat, before: seq<TaskDslNode>, out: seq<TaskDslNode>)
    requires id in g && i < |g[id]| && FollowsUpTo(g, first, id, i, before)
    requires Acyclic(g) ==> Follows(before, Naive(g, g[id][i]), out)
    ensures FollowsUpTo(g, first, id, i + 1, out)
  {
    if Acyclic(g) {
      NaiveStep(g, id, i);
      FollowsThen(first, NaiveAll(g, id, g[id][..i]), before, Naive(g, g[id][i]), out);
    }
  }

  lemma FollowsLast(g: Graph, first: seq<TaskDslNode>, id: string, out: seq<TaskDslNode>)
    requires id in g && FollowsUpTo(g, first, id, |g[id]|, out)
    ensures Acyclic(g) ==> Follows(first, NaiveAll(g, id, g[id]), out)
  {
    assert g[id][..|g[id]|] == g[id];
  }

  /** The state the recursive `visit` closure updates. */
  class PostOrder {
    const byId: map<string, TaskDslNode>
    ghost const g: Graph
    var visited: set<string>
    var out: seq<TaskDslNode>

    constructor (tasks: seq<TaskDslNode>)
      ensures g == NodeGraph(tasks) && byId == MapBy(tasks, NodeKey, Itself)
      ensures Valid() && Open([]) && out == [] && visited == {}
    {
      byId, g, visited, out := MapBy(tasks, NodeKey, Itself), NodeGraph(tasks), {}, [];
      new;
      ByIdIsGraph(tasks);
    }

    ghost predicate Indexed() {
      byId.Keys == g.Keys && forall id | id in g :: byId[id].id == id && g[id] == byId[id].dependsOn
    }

    ghost predicate Valid()
      reads this
    {
      && Indexed()
      && (forall t | t in out :: t.id in byId && byId[t.id] == t)
      && Listed(out) <= visited
      && DistinctKeys(out, NodeKey)
      && (Acyclic(g) ==> DependencyFirst(g, out))
    }

    /** The visits in progress, deepest first: the known tasks that are visited but not yet listed. */
    ghost predicate Open(trail: seq<string>)
      reads this
    {
      && Chain(g, trail)
      && (forall id | id in trail :: id in visited && id !in Listed(out))
      && forall id | id in visited && id in g :: id in Listed(out) || id in trail
    }

    method Visit(id: string, ghost trail: seq<string>)
      requires Valid() && Open(trail) && id in Universe(g)
      requires trail != [] ==> id in g[trail[0]]
      modifies this
      ensures Valid() && Open(trail) && id in visited
      ensures old(visited) <= visited && old(out) <= out
      ensures Acyclic(g) ==> Follows(old(out), Naive(g, id), out)
      decreases Universe(g) - visited, 0
    {
      if id in visited {
        if id in trail {
          ClosedTrail(g, id, trail);
        }
        if Acyclic(g) {
          FollowsKnown(g, out, id);
        }
        return;
      }
      assert id in Universe(g) - visited;
      visited := visited + {id};
      if id !in byId {
        return;
      }
      ExtendTrail(g, id, trail);
      VisitKnown(byId[id], trail);
    }

    method VisitKnown(t: TaskDslNode, ghost trail: seq<string>)
      requires Valid() && t.id in g && byId[t.id] == t && t.id !in trail && Chain(g, trail)
      requires Open([t.id] + trail)
      modifies this
      ensures Valid() && Open(trail)
      ensures old(visited) <= visited && old(out) <= out
      ensures Acyclic(g) ==> Follows(old(out), Naive(g, t.id), out)
      decreases Universe(g) - visited, 2
    {
      VisitDependencies(t, [t.id] + trail);
      ghost var between := out;
      if Acyclic(g) {
        DependenciesFollow(g, old(out), t.id, out);
      }
      Push(t, trail);
      if Acyclic(g) {
        FollowsThen(old(out), NaiveAll(g, t.id, g[t.id]), between, [t.id], out);
      }
    }

    method VisitDependencies(t: TaskDslNode, ghost here: seq<string>)
      requires Valid() && Open(here) && here != [] && here[0] == t.id && t.id in g && byId[t.id] == t
      modifies this
      ensures Valid() && Open(here)
      ensures old(visited) <= visited && old(out) <= out
      ensures Acyclic(g) ==> Follows(old(out), NaiveAll(g, t.id, g[t.id]), out)
      decreases Universe(g) - visited, 1
    {
      FollowsFirst(g, out, t.id);
      for i := 0 to |t.dependsOn|
        invariant Valid() && Open(here)
        invariant old(visited) <= visited && old(out) <= out
        invariant FollowsUpTo(g, old(out), t.id, i, out)
      {
        ghost var before := out;
        assert t.dependsOn[i] in g[t.id];
        Visit(t.dependsOn[i], here);
        FollowsNext(g, old(out), t.id, i, before, out);
      }
      FollowsLast(g, old(out), t.id, out);
    }

    /** `out.push(t)` at the end of a visit. */
    method Push(t: TaskDslNode, ghost trail: seq<string>)
      requires Valid() && Open([t.id] + trail) && Chain(g, trail) && t.id in g && byId[t.id] == t
      requires t.id !in trail
      requires Acyclic(g) ==> forall d | d in t.dependsOn && d in g :: d in Listed(out)
      modifies this`out
      ensures Valid() && Open(trail) && t.id in Listed(out) && out == old(out) + [t]
      ensures Follows(old(out), [t.id], out)
    {
      FollowsPush(out, t);
      assert t.id in [t.id] + trail && forall id | id in trail :: id in [t.id] + trail;
      ListedPush(out, t);
      if Acyclic(g) {
        DependencyFirstPush(g, out, t);
      }
      assert forall i | 0 <= i < |out| :: out[i] in out;
      out := out + [t];
    }
  }

  lemma ListedTake(tasks: seq<TaskDslNode>, i: nat)
    requires i < |tasks|
    ensures tasks[..i + 1] == tasks[..i] + [tasks[i]]
    ensures Listed(tasks[..i + 1]) == Listed(tasks[..i]) + {tasks[i].id}
  {
    assert tasks[..i + 1] == tasks[..i] + [tasks[i]];
    ListedPush(tasks[..i], tasks[i]);
  }

  lemma DependenciesListedBefore(g: Graph, tasks: seq<TaskDslNode>, i: nat)
    requires i < |tasks| && DependencyFirst(g, tasks)
    ensures forall d | d in Deps(g, tasks[i].id) && d in g :: d in Listed(tasks[..i])
  {
    var ids := Ids(tasks);
    forall d | d in Deps(g, tasks[i].id) && d in g ensures d in Listed(tasks[..i]) {
      assert d in Deps(g, ids[i]);
      var j :| 0 <= j < i && ids[j] == d;
      assert tasks[j] in tasks[..i];
    }
  }

  lemma GivenListsAll(tasks: seq<TaskDslNode>)
    ensures NodeGraph(tasks).Keys == Listed(tasks)
  {
    forall id ensures id in NodeGraph(tasks) <==> id in Listed(tasks) {
      if id in NodeGraph(tasks) {
        var i :| 0 <= i < |tasks| && NodeKey(tasks[i]) == id;
        assert tasks[i] in tasks;
      }
      if t :| t in tasks && t.id == id {
        var i :| 0 <= i < |tasks| && tasks[i] == t;
        assert NodeKey(tasks[i]) == id;
      }
    }
  }

  /** A dependency-first list of distinct ids. */
  ghost predicate InOrder(tasks: seq<TaskDslNode>) {
    DistinctKeys(tasks, NodeKey) && DependencyFirst(NodeGraph(tasks), tasks)
  }

  lemma ListedIsOnePerId(out: seq<TaskDslNode>, tasks: seq<TaskDslNode>)
    requires DistinctKeys(out, NodeKey) && NodeGraph(tasks).Keys <= Listed(out)
    requires var byId := MapBy(tasks, NodeKey, Itself); forall t | t in out :: t.id in byId && byId[t.id] == t
    ensures OnePerId(out, tasks)
  {
    ByIdIsGraph(tasks);
    forall t ensures t in out <==> exists i :: LastOfKey(tasks, NodeKey, i) && tasks[i] == t {
      LastIsById(tasks, t);
    }
  }

  /** On a list that is in order the plain recursion adds one task after the other. */
  lemma {:induction false} NaiveKeepsOrder(g: Graph, ids: seq<string>, n: nat)
    requires Acyclic(g) && Ordered(g, ids) && Distinct(ids) && n <= |ids| && forall id | id in ids :: id in g
    ensures Merge([], NaiveOf(g, ids[..n])) == ids[..n]
  {
    if n > 0 {
      var init, id := ids[..n - 1], ids[n - 1];
      assert ids[..n][..n - 1] == init;
      NaiveKeepsOrder(g, ids, n - 1);
      MergeConcat([], NaiveOf(g, init), Naive(g, id));
      NaiveAddsOne(g, ids, n - 1);
    }
  }

  lemma {:induction false} NaiveAddsOne(g: Graph, ids: seq<string>, i: nat)
    requires Acyclic(g) && Ordered(g, ids) && Distinct(ids) && i < |ids| && ids[i] in g
    ensures Merge(ids[..i], Naive(g, ids[i])) == ids[..i + 1]
  {
    OrderedTake(g, ids, i);
    NaiveAddsLast(g, ids[..i], ids[i], ids[..i + 1]);
  }

  lemma {:induction false} NaiveAddsLast(g: Graph, init: seq<string>, id: string, longer: seq<string>)
    requires Acyclic(g) && Ordered(g, init) && id in g && id !in init && longer == init + [id]
    requires forall d | d in g[id] && d in g :: d in init
    ensures Merge(init, Naive(g, id)) == longer
  {
    NaiveAllBelow(g, init, id, g[id]);
    MergeKnown(init, NaiveAll(g, id, g[id]));
    MergeConcat(init, NaiveAll(g, id, g[id]), [id]);
    MergeNew(init, id);
  }

  lemma OrderedTake(g: Graph, ids: seq<string>, i: nat)
    requires Ordered(g, ids) && i < |ids|
    ensures Ordered(g, ids[..i]) && forall d | d in Deps(g, ids[i]) && d in g :: d in ids[..i]
  {
    forall j, d | 0 <= j < i && d in Deps(g, ids[..i][j]) && d in g ensures d in ids[..i][..j] {
      assert d in Deps(g, ids[j]);
      assert ids[..i][..j] == ids[..j];
    }
  }

  lemma {:induction false} NaiveAllBelow(g: Graph, order: seq<string>, id: string, deps: seq<string>)
    requires Acyclic(g) && Ordered(g, order) && id in g && forall d | d in deps :: d in g[id]
    requires forall d | d in deps && d in g :: d in order
    ensures forall x | x in NaiveAll(g, id, deps) :: x in order
  {
    if deps != [] {
      var d := deps[|deps| - 1];
      NaiveAllBelow(g, order, id, deps[..|deps| - 1]);
      if d in g {
        NaiveIsListed(g, order, d);
      }
    }
  }

  /** The search lists what the plain recursion would, each task where it is met first. */
  ghost predicate InNaiveOrder(g: Graph, ids: seq<string>, out: seq<TaskDslNode>) {
    Acyclic(g) ==> Ids(out) == Merge([], NaiveOf(g, ids))
  }

  lemma NaiveOrderNext(g: Graph, tasks: seq<TaskDslNode>, i: nat, before: seq<TaskDslNode>, out: seq<TaskDslNode>)
    requires i < |tasks| && InNaiveOrder(g, Ids(tasks[..i]), before)
    requires Acyclic(g) ==> Follows(before, Naive(g, tasks[i].id), out)
    ensures InNaiveOrder(g, Ids(tasks[..i + 1]), out)
  {
    if Acyclic(g) {
      var ids := Ids(tasks[..i + 1]);
      assert ids[..i] == Ids(tasks[..i]) && ids[i] == tasks[i].id;
      MergeConcat([], NaiveOf(g, ids[..i]), Naive(g, ids[i]));
    }
  }

  lemma InOrderIsKept(g: Graph, tasks: seq<TaskDslNode>, out: seq<TaskDslNode>)
    requires InOrder(tasks) && g == NodeGraph(tasks) && InNaiveOrder(g, Ids(tasks), out) && OnePerId(out, tasks)
    ensures out == tasks
  {
    var ids := Ids(tasks);
    GivenListsAll(tasks);
    DependencyFirstIsAcyclic(g, tasks);
    forall i, j | 0 <= i < j < |ids| ensures ids[i] != ids[j] {
      assert NodeKey(tasks[i]) != NodeKey(tasks[j]);
    }
    forall id | id in ids ensures id in g {
      InIds(tasks, id);
    }
    NaiveKeepsOrder(g, ids, |ids|);
    assert ids[..|ids|] == ids;
    forall i | 0 <= i < |tasks| ensures out[i] == tasks[i] {
      SameAt(tasks, out, i);
    }
  }

  lemma SameAt(tasks: seq<TaskDslNode>, out: seq<TaskDslNode>, i: nat)
    requires DistinctKeys(tasks, NodeKey) && OnePerId(out, tasks) && Ids(out) == Ids(tasks) && i < |tasks|
    ensures |out| == |tasks| && out[i] == tasks[i]
  {
    assert |out| == |Ids(out)| && out[i] in out;
    var j :| LastOfKey(tasks, NodeKey, j) && tasks[j] == out[i];
    assert Ids(out)[i] == Ids(tasks)[i];
    assert NodeKey(tasks[j]) == NodeKey(tasks[i]);
  }

  method SortTasksTopologically(tasks: seq<TaskDslNode>) returns (out: seq<TaskDslNode>)
    ensures OnePerId(out, tasks)
    ensures Acyclic(NodeGraph(tasks)) ==> DependencyFirst(NodeGraph(tasks), out)
    ensures InNaiveOrder(NodeGraph(tasks), Ids(tasks), out)
    ensures InOrder(tasks) ==> out == tasks
  {
    ghost var g := NodeGraph(tasks);
    var order := new PostOrder(tasks);
    GivenListsAll(tasks);
    for i := 0 to |tasks|
      invariant order.Valid() && order.Open([]) && order.g == g && order.byId == MapBy(tasks, NodeKey, Itself)
      invariant Listed(tasks[..i]) <= order.visited
      invariant InNaiveOrder(g, Ids(tasks[..i]), order.out)
    {
      ListedTake(tasks, i);
      assert tasks[i] in tasks;
      ghost var before := order.out;
      order.Visit(tasks[i].id, []);
      NaiveOrderNext(g, tasks, i, before, order.out);
    }
    out := order.out;
    assert tasks[..|tasks|] == tasks;
    ListedIsOnePerId(out, tasks);
    if InOrder(tasks) {
      InOrderIsKept(g, tasks, out);
    }
  }

  // ----- the stable sort by depth

  function DepthKey(depth: map<string, int>): TaskDslNode -> int {
    (t: TaskDslNode) => if t.id in depth then depth[t.id] else 0
  }

  /** The largest depth recorded for a dependency; one without an entry counts as zero. */
  function DeepestOf(depth: map<string, int>, deps: seq<string>): int {
    if deps == [] then 0
    else
      var m, d := DeepestOf(depth, deps[..|deps| - 1]), deps[|deps| - 1];
      var v := if d in depth then depth[d] else 0;
      if v > m then v else m
  }

  lemma {:induction false} DeepestIsMax(depth: map<string, int>, deps: seq<string>)
    ensures DeepestOf(depth, deps) >= 0
    ensures forall d | d in deps && d in depth :: depth[d] <= DeepestOf(depth, deps)
    ensures DeepestOf(depth, deps) == 0 || exists d :: d in deps && d in depth && depth[d] == DeepestOf(depth, deps)
  {
    if deps != [] {
      DeepestIsMax(depth, deps[..|deps| - 1]);
      assert forall d | d in deps :: d in deps[..|deps| - 1] || d == deps[|deps| - 1];
    }
  }

  /** With the depths of all its known dependencies at hand, a task's own depth is one more than the deepest. */
  lemma DepthFromDependencies(g: Graph, depth: map<string, int>, id: string)
    requires Acyclic(g) && id in g
    requires forall d | d in depth :: d in g && depth[d] == Depth(g, d)
    requires forall d | d in g[id] && d in g :: d in depth
    ensures DeepestOf(depth, g[id]) + 1 == Depth(g, id)
  {
    DepthStep(g, id);
    DeepestIsMax(depth, g[id]);
  }

  /** The depth the sort uses is the length of the longest chain of prerequisites, the task included. */
  ghost function TrueDepth(g: Graph): TaskDslNode -> int
    requires Acyclic(g)
  {
    (t: TaskDslNode) => if t.id in g then Depth(g, t.id) else 0
  }

  /** The depth table as it stands after the tasks listed; a later task of the same id overwrites the entry. */
  function DepthsOf(tasks: seq<TaskDslNode>): map<string, int> {
    if tasks == [] then map[]
    else
      var depth, t := DepthsOf(tasks[..|tasks| - 1]), tasks[|tasks| - 1];
      depth[t.id := DeepestOf(depth, t.dependsOn) + 1]
  }

  function ByComputedDepth(tasks: seq<TaskDslNode>): seq<TaskDslNode> {
    StableSort(tasks, DepthKey(DepthsOf(tasks)))
  }

  method MergeParallelTasks(tasks: seq<TaskDslNode>) returns (merged: seq<TaskDslNode>)
    ensures merged == ByComputedDepth(tasks)
  {
    var depth: map<string, int> := map[];
    for i := 0 to |tasks|
      invariant depth == DepthsOf(tasks[..i])
    {
      assert tasks[..i + 1][..i] == tasks[..i];
      depth := depth[tasks[i].id := DeepestOf(depth, tasks[i].dependsOn) + 1];
    }
    assert tasks[..|tasks|] == tasks;
    merged := StableSort(tasks, DepthKey(depth));
  }

  ghost predicate Accurate(g: Graph, depth: map<string, int>)
    requires Acyclic(g)
  {
    forall id | id in depth :: id in g && depth[id] == Depth(g, id)
  }

  lemma AccurateWith(g: Graph, before: map<string, int>, depth: map<string, int>, id: string, entry: int)
    requires Acyclic(g) && Accurate(g, before) && id in g && entry == Depth(g, id) && depth == before[id := entry]
    ensures Accurate(g, depth)
  {
  }

  /** The known dependencies of the task at `i` have their entries. */
  ghost predicate Met(g: Graph, tasks: seq<TaskDslNode>, i: nat, depth: map<string, int>)
    requires i < |tasks|
  {
    forall d | d in tasks[i].dependsOn && d in g :: d in depth
  }

  lemma DependenciesMet(g: Graph, tasks: seq<TaskDslNode>, i: nat, depth: map<string, int>)
    requires i < |tasks| && tasks[i].id in g && g[tasks[i].id] == tasks[i].dependsOn
    requires DependencyFirst(g, tasks) && depth.Keys == Listed(tasks[..i])
    ensures Met(g, tasks, i, depth)
  {
    DependenciesListedBefore(g, tasks, i);
  }

  lemma EntryIsTrue(g: Graph, tasks: seq<TaskDslNode>, i: nat, depth: map<string, int>, entry: int)
    requires i < |tasks| && tasks[i].id in g && g[tasks[i].id] == tasks[i].dependsOn
    requires Acyclic(g) && Met(g, tasks, i, depth) && Accurate(g, depth)
    requires entry == DeepestOf(depth, tasks[i].dependsOn) + 1
    ensures entry == Depth(g, tasks[i].id)
  {
    DepthFromDependencies(g, depth, tasks[i].id);
  }

  lemma DepthsOfTake(tasks: seq<TaskDslNode>, n: nat, before: map<string, int>, depth: map<string, int>, entry: int)
    requires 0 < n <= |tasks| && before == DepthsOf(tasks[..n - 1]) && depth == DepthsOf(tasks[..n])
    requires entry == DeepestOf(before, tasks[n - 1].dependsOn) + 1
    ensures depth == before[tasks[n - 1].id := entry]
  {
    assert tasks[..n][..n - 1] == tasks[..n - 1];
  }

  /** On a dependency-first list of an acyclic graph, the depths computed in one pass are the true ones. */
  lemma {:induction false} DepthsAreTrue(g: Graph, tasks: seq<TaskDslNode>, n: nat, depth: map<string, int>)
    requires forall t | t in tasks :: t.id in g && g[t.id] == t.dependsOn
    requires Acyclic(g) && DependencyFirst(g, tasks) && n <= |tasks| && depth == DepthsOf(tasks[..n])
    ensures depth.Keys == Listed(tasks[..n]) && Accurate(g, depth)
    decreases n
  {
    if n > 0 {
      var before, i := DepthsOf(tasks[..n - 1]), n - 1;
      var entry := DeepestOf(before, tasks[i].dependsOn) + 1;
      DepthsAreTrue(g, tasks, i, before);
      DepthsOfTake(tasks, n, before, depth, entry);
      assert tasks[i] in tasks;
      DependenciesMet(g, tasks, i, before);
      EntryIsTrue(g, tasks, i, before, entry);
      AccurateWith(g, before, depth, tasks[i].id, entry);
      ListedTake(tasks, i);
    }
  }

  /** So the order they give is the stable sort by true depth. */
  lemma ComputedIsTrue(g: Graph, tasks: seq<TaskDslNode>)
    requires forall t | t in tasks :: t.id in g && g[t.id] == t.dependsOn
    requires Acyclic(g) && DependencyFirst(g, tasks)
    ensures ByComputedDepth(tasks) == StableSort(tasks, TrueDepth(g))
  {
    assert tasks[..|tasks|] == tasks;
    DepthsAreTrue(g, tasks, |tasks|, DepthsOf(tasks));
    assert forall t | t in tasks :: t.id in Listed(tasks);
    SameKeysSameSort(tasks, DepthKey(DepthsOf(tasks)), TrueDepth(g));
  }

  lemma {:induction false} SameKeysSameInsert<T(!new)>(s: seq<T>, x: T, key: T -> int, other: T -> int)
    requires forall t | t in s :: key(t) == other(t)
    requires key(x) == other(x)
    ensures Insert(s, x, key) == Insert(s, x, other)
  {
    if s != [] {
      SameKeysSameInsert(s[..|s| - 1], x, key, other);
    }
  }

  lemma {:induction false} SameKeysSameSort<T(!new)>(s: seq<T>, key: T -> int, other: T -> int)
    requires forall t | t in s :: key(t) == other(t)
    ensures StableSort(s, key) == StableSort(s, other)
  {
    if s != [] {
      var init := s[..|s| - 1];
      SameKeysSameSort(init, key, other);
      StableSortPermutes(init, key);
      forall t | t in StableSort(init, key) ensures key(t) == other(t) {
        assert t in multiset(init);
      }
      SameKeysSameInsert(StableSort(init, key), s[|s| - 1], key, other);
    }
  }

  // ----- optimize

  /** Tasks in order of non-decreasing depth. */
  ghost predicate ByDepth(g: Graph, tasks: seq<TaskDslNode>)
    requires Acyclic(g)
  {
    Sorted(tasks, TrueDepth(g))
  }

  ghost predicate AlreadyOptimal(tasks: seq<TaskDslNode>) {
    && DistinctKeys(tasks, NodeKey)
    && Acyclic(NodeGraph(tasks))
    && ByDepth(NodeGraph(tasks), tasks)
  }

  lemma PermutationKeepsOne(a: seq<TaskDslNode>, b: seq<TaskDslNode>, given: seq<TaskDslNode>)
    requires OnePerId(a, given) && multiset(a) == multiset(b)
    ensures OnePerId(b, given)
  {
    forall t ensures t in a <==> t in b {
      assert t in multiset(a) <==> t in multiset(b);
    }
    forall i, j | 0 <= i < j < |b| ensures NodeKey(b[i]) != NodeKey(b[j]) {
      if NodeKey(b[i]) == NodeKey(b[j]) {
        assert b[i] in a && b[j] in a;
        var k :| 0 <= k < |a| && a[k] == b[i];
        var l :| 0 <= l < |a| && a[l] == b[j];
        assert NodeKey(a[k]) == NodeKey(a[l]);
        assert k == l;
        CountOnce(a, k);
        CountTwice(b, i, j);
      }
    }
  }

  lemma CountOnce(a: seq<TaskDslNode>, k: nat)
    requires DistinctKeys(a, NodeKey) && k < |a|
    ensures multiset(a)[a[k]] == 1
  {
    assert a == a[..k] + [a[k]] + a[k + 1..];
    forall t | t in a[..k] || t in a[k + 1..] ensures t != a[k] {
      var j :| 0 <= j < |a| && j != k && a[j] == t;
      assert NodeKey(a[j]) != NodeKey(a[k]);
    }
    assert a[k] !in a[..k] && a[k] !in a[k + 1..];
  }

  lemma CountTwice(b: seq<TaskDslNode>, i: nat, j: nat)
    requires i < j < |b| && b[i] == b[j]
    ensures multiset(b)[b[i]] >= 2
  {
    assert b == b[..j] + [b[j]] + b[j + 1..];
    assert b[i] in b[..j];
  }

  /** The optimizer leaves the dependency relation itself alone. */
  lemma SameGraph(a: seq<TaskDslNode>, given: seq<TaskDslNode>)
    requires OnePerId(a, given)
    ensures NodeGraph(a) == NodeGraph(given)
  {
    var ga, gg := NodeGraph(a), NodeGraph(given);
    forall id ensures id in ga <==> id in gg {
      if id in ga {
        var i :| 0 <= i < |a| && NodeKey(a[i]) == id;
        assert a[i] in a;
        var j :| LastOfKey(given, NodeKey, j) && given[j] == a[i];
        assert NodeKey(given[j]) == id;
      }
      if id in gg {
        var j := MapByIsLast(given, NodeKey, NodeDeps, id);
        assert given[j] in a;
        var i :| 0 <= i < |a| && a[i] == given[j];
        assert NodeKey(a[i]) == id;
      }
    }
    forall id | id in gg ensures ga[id] == gg[id] {
      var j := MapByIsLast(given, NodeKey, NodeDeps, id);
      var i := MapByIsLast(a, NodeKey, NodeDeps, id);
      assert a[i] in a;
      var k :| LastOfKey(given, NodeKey, k) && given[k] == a[i];
      assert NodeKey(given[k]) == NodeKey(given[j]);
      assert k == j;
    }
  }

  /** Depth grows along every dependency, so an order by depth is dependency-first. */
  lemma ByDepthIsDependencyFirst(g: Graph, tasks: seq<TaskDslNode>)
    requires Acyclic(g) && ByDepth(g, tasks)
    requires forall id | id in g :: id in Listed(tasks)
    ensures DependencyFirst(g, tasks)
  {
    var ids := Ids(tasks);
    forall i, d | 0 <= i < |ids| && d in Deps(g, ids[i]) && d in g ensures d in ids[..i] {
      ShallowerIsEarlier(g, tasks, i, d);
    }
  }

  lemma ShallowerIsEarlier(g: Graph, tasks: seq<TaskDslNode>, i: nat, d: string)
    requires Acyclic(g) && ByDepth(g, tasks) && i < |tasks| && d in Listed(tasks)
    requires tasks[i].id in g && d in g[tasks[i].id] && d in g
    ensures d in Ids(tasks)[..i]
  {
    DepthStep(g, tasks[i].id);
    var t :| t in tasks && t.id == d;
    var j :| 0 <= j < |tasks| && tasks[j] == t;
    assert TrueDepth(g)(tasks[j]) < TrueDepth(g)(tasks[i]);
    assert j < i && Ids(tasks)[j] == d;
  }

  lemma DependencyFirstIsAcyclic(g: Graph, tasks: seq<TaskDslNode>)
    requires DependencyFirst(g, tasks) && DistinctKeys(tasks, NodeKey)
    requires forall id | id in g :: id in Listed(tasks)
    ensures Acyclic(g)
  {
    var ids := Ids(tasks);
    forall i, j | 0 <= i < j < |ids| ensures ids[i] != ids[j] {
      assert NodeKey(tasks[i]) != NodeKey(tasks[j]);
    }
    forall id | id in g ensures id in ids {
      var t :| t in tasks && t.id == id;
      var i :| 0 <= i < |tasks| && tasks[i] == t;
      assert ids[i] == id;
    }
    OrderedIsAcyclic(g, ids);
  }

  lemma OnePerIdListsAll(result: seq<TaskDslNode>, given: seq<TaskDslNode>)
    requires OnePerId(result, given)
    ensures forall id | id in NodeGraph(given) :: id in Listed(result)
    ensures forall t | t in result :: t.id in NodeGraph(given) && NodeGraph(given)[t.id] == t.dependsOn
  {
    forall id | id in NodeGraph(given) ensures id in Listed(result) {
      var i := MapByIsLast(given, NodeKey, NodeDeps, id);
      assert given[i] in result;
    }
    forall t | t in result ensures t.id in NodeGraph(given) && NodeGraph(given)[t.id] == t.dependsOn {
      var i :| LastOfKey(given, NodeKey, i) && given[i] == t;
      assert NodeKey(given[i]) == t.id;
      var j := MapByIsLast(given, NodeKey, NodeDeps, t.id);
      assert i == j;
    }
  }

  /** What the depth-first search may hand to the sort. */
  ghost predicate Listing(given: seq<TaskDslNode>, tasks: seq<TaskDslNode>) {
    && OnePerId(tasks, given) && InNaiveOrder(NodeGraph(given), Ids(given), tasks)
    && (Acyclic(NodeGraph(given)) ==> DependencyFirst(NodeGraph(given), tasks))
  }

  lemma MergedIsOne(given: seq<TaskDslNode>, tasks: seq<TaskDslNode>, merged: seq<TaskDslNode>)
    requires OnePerId(tasks, given) && merged == ByComputedDepth(tasks)
    ensures OnePerId(merged, given) && NodeGraph(merged) == NodeGraph(given)
  {
    StableSortPermutes(tasks, DepthKey(DepthsOf(tasks)));
    PermutationKeepsOne(tasks, merged, given);
    SameGraph(merged, given);
  }

  lemma MergedIsOrdered(g: Graph, given: seq<TaskDslNode>, tasks: seq<TaskDslNode>, merged: seq<TaskDslNode>)
    requires g == NodeGraph(given) && Acyclic(g)
    requires OnePerId(tasks, given) && DependencyFirst(g, tasks)
    requires merged == ByComputedDepth(tasks) && OnePerId(merged, given)
    ensures ByDepth(g, merged) && DependencyFirst(g, merged)
  {
    OnePerIdListsAll(tasks, given);
    OnePerIdListsAll(merged, given);
    ComputedIsTrue(g, tasks);
    StableSortSorts(tasks, TrueDepth(g));
    ByDepthIsDependencyFirst(g, merged);
  }

  lemma OptimalIsKept(given: seq<TaskDslNode>, tasks: seq<TaskDslNode>)
    requires AlreadyOptimal(given) && (InOrder(given) ==> tasks == given) && OnePerId(tasks, given)
    ensures ByComputedDepth(tasks) == given
  {
    var g := NodeGraph(given);
    GivenListsAll(given);
    ByDepthIsDependencyFirst(g, given);
    OnePerIdListsAll(tasks, given);
    ComputedIsTrue(g, tasks);
    StableSortFixesSorted(tasks, TrueDepth(g));
  }

  /** `optimize`, for any input at all: one task per distinct id and the same dependency relation, ordered by the
      computed depths; and the result is dependency-first exactly when there is no cycle, in which case the
      computed depths are the true ones. */
  method Optimize(workflow: WorkflowDslNode) returns (r: WorkflowDslNode)
    ensures r == workflow.(tasks := r.tasks)
    ensures OnePerId(r.tasks, workflow.tasks)
    ensures NodeGraph(r.tasks) == NodeGraph(workflow.tasks)
    ensures DependencyFirst(NodeGraph(workflow.tasks), r.tasks) <==> Acyclic(NodeGraph(workflow.tasks))
    ensures Acyclic(NodeGraph(workflow.tasks)) ==> ByDepth(NodeGraph(workflow.tasks), r.tasks)
    ensures AlreadyOptimal(workflow.tasks) ==> r == workflow
    ensures exists tasks | Listing(workflow.tasks, tasks) :: r.tasks == ByComputedDepth(tasks)
  {
    ghost var g := NodeGraph(workflow.tasks);
    var tasks := SortTasksTopologically(workflow.tasks);
    assert Listing(workflow.tasks, tasks);
    var merged := MergeParallelTasks(tasks);
    MergedIsOne(workflow.tasks, tasks, merged);
    if Acyclic(g) {
      MergedIsOrdered(g, workflow.tasks, tasks, merged);
    }
    if AlreadyOptimal(workflow.tasks) {
      OptimalIsKept(workflow.tasks, tasks);
    }
    if DependencyFirst(g, merged) {
      OnePerIdListsAll(merged, workflow.tasks);
      DependencyFirstIsAcyclic(g, merged);
    }
    r := workflow.(tasks := merged);
  }

  /** With distinct ids nothing is dropped: the result is a permutation of the input. */
  lemma DistinctIdsPermute(result: seq<TaskDslNode>, given: seq<TaskDslNode>)
    requires OnePerId(result, given) && DistinctKeys(given, NodeKey)
    ensures multiset(result) == multiset(given)
  {
    forall t ensures multiset(result)[t] == multiset(given)[t] {
      if t in given {
        var i :| 0 <= i < |given| && given[i] == t;
        forall j | i < j < |given| ensures NodeKey(given[j]) != NodeKey(given[i]) {
        }
        assert LastOfKey(given, NodeKey, i);
        assert t in result;
        var k :| 0 <= k < |result| && result[k] == t;
        CountOnce(given, i);
        CountOnce(result, k);
      } else {
        assert t !in result;
      }
    }
  }

  /** With a duplicated id the optimizer loses a task: it is a permutation only of distinct ids. */
  lemma DuplicateIdIsLost(result: seq<TaskDslNode>, given: seq<TaskDslNode>)
    requires OnePerId(result, given)
    ensures multiset(result) == multiset(given) <==> DistinctKeys(given, NodeKey)
  {
    if DistinctKeys(given, NodeKey) {
      DistinctIdsPermute(result, given);
    } else if multiset(result) == multiset(given) {
      var i, j :| 0 <= i < j < |given| && NodeKey(given[i]) == NodeKey(given[j]);
      assert given[i] in multiset(result) && given[j] in multiset(result);
      var k :| 0 <= k < |result| && result[k] == given[i];
      var l :| 0 <= l < |result| && result[l] == given[j];
      assert NodeKey(result[k]) == NodeKey(result[l]);
      assert k == l;
      CountOnce(result, k);
      CountTwice(given, i, j);
    }
  }
}
