/** Dependency graphs of tasks, and the declarative notions every graph algorithm
    of the engine is measured against: chains, cycles and heaviest chains. */
module Graphs {
  /** Known task id to the ids it depends on. A dependency need not be known,
      and may be listed more than once. */
  type Graph = map<string, seq<string>>

  function Deps(g: Graph, id: string): seq<string> {
    if id in g then g[id] else []
  }

  function DepSet(g: Graph, id: string): set<string> {
    set d | d in Deps(g, id)
  }

  /** Every id the graph mentions, known or not. */
  function Universe(g: Graph): set<string> {
    g.Keys + set id, d | id in g && d in g[id] :: d
  }

  /** The look-up table built from a list; of elements with the same key the last one counts. */
  function MapBy<T, V>(ts: seq<T>, key: T -> string, val: T -> V): (m: map<string, V>)
    ensures forall k :: k in m <==> exists i :: 0 <= i < |ts| && key(ts[i]) == k
  {
    if ts == [] then map[]
    else
      var init := ts[..|ts| - 1];
      assert forall i | 0 <= i < |ts| :: ts[i] == if i < |init| then init[i] else ts[|ts| - 1];
      MapBy(init, key, val)[key(ts[|ts| - 1]) := val(ts[|ts| - 1])]
  }

  lemma MapByStep<T, V>(ts: seq<T>, key: T -> string, val: T -> V, i: nat)
    requires i < |ts|
    ensures MapBy(ts[..i + 1], key, val) == MapBy(ts[..i], key, val)[key(ts[i]) := val(ts[i])]
  {
    assert ts[..i + 1][..i] == ts[..i];
  }

  /** No later element has the key of `ts[i]`. */
  ghost predicate LastOfKey<T>(ts: seq<T>, key: T -> string, i: int) {
    0 <= i < |ts| && forall j | i < j < |ts| :: key(ts[j]) != key(ts[i])
  }

  lemma {:induction false} MapByIsLast<T, V>(ts: seq<T>, key: T -> string, val: T -> V, k: string) returns (i: nat)
    requires k in MapBy(ts, key, val)
    ensures LastOfKey(ts, key, i) && key(ts[i]) == k && MapBy(ts, key, val)[k] == val(ts[i])
  {
    i := |ts| - 1;
    if key(ts[i]) != k {
      var init := ts[..i];
      i := MapByIsLast(init, key, val, k);
    }
  }

  ghost predicate DistinctKeys<T>(ts: seq<T>, key: T -> string) {
    forall i, j | 0 <= i < j < |ts| :: key(ts[i]) != key(ts[j])
  }

  lemma MapByDistinct<T, V>(ts: seq<T>, key: T -> string, val: T -> V, i: nat)
    requires i < |ts| && DistinctKeys(ts, key)
    ensures key(ts[i]) in MapBy(ts, key, val) && MapBy(ts, key, val)[key(ts[i])] == val(ts[i])
  {
    var j := MapByIsLast(ts, key, val, key(ts[i]));
    assert j == i;
  }

  ghost predicate Distinct<T(!new)>(s: seq<T>) {
    forall i, j | 0 <= i < j < |s| :: s[i] != s[j]
  }

  // ----- chains and cycles

  /** A chain of known tasks in which every task depends on the one before it. */
  ghost predicate Chain(g: Graph, p: seq<string>) {
    && (forall i | 0 <= i < |p| :: p[i] in g)
    && (forall i | 0 < i < |p| :: p[i - 1] in g[p[i]])
  }

  ghost predicate Walk(g: Graph, p: seq<string>, x: string, y: string) {
    |p| >= 2 && Chain(g, p) && p[0] == x && p[|p| - 1] == y
  }

  ghost predicate Reaches(g: Graph, x: string, y: string) {
    exists p :: Walk(g, p, x, y)
  }

  ghost predicate Acyclic(g: Graph) {
    forall x :: !Reaches(g, x, x)
  }

  lemma ReachesEdge(g: Graph, dep: string, id: string)
    requires id in g && dep in g && dep in g[id]
    ensures Reaches(g, dep, id)
  {
    assert Walk(g, [dep, id], dep, id);
  }

  lemma ReachesStep(g: Graph, x: string, dep: string, id: string)
    requires Reaches(g, x, dep) && id in g && dep in g[id]
    ensures Reaches(g, x, id)
  {
    var p :| Walk(g, p, x, dep);
    assert Walk(g, p + [id], x, id);
  }

  /** The known tasks that have to finish before `id`. */
  ghost function Ancestors(g: Graph, id: string): set<string> {
    set x | x in g.Keys && Reaches(g, x, id)
  }

  /** What every recursion over an acyclic graph decreases. */
  lemma AncestorsShrink(g: Graph, dep: string, id: string)
    requires Acyclic(g) && id in g && dep in g && dep in g[id]
    ensures Ancestors(g, dep) < Ancestors(g, id)
  {
    forall x | x in Ancestors(g, dep) ensures x in Ancestors(g, id) {
      ReachesStep(g, x, dep, id);
    }
    ReachesEdge(g, dep, id);
    assert dep in Ancestors(g, id) && dep !in Ancestors(g, dep);
  }

  /** A listing of ids in which every dependency comes before its dependents. */
  ghost predicate Ordered(g: Graph, order: seq<string>) {
    forall i, d | 0 <= i < |order| && d in Deps(g, order[i]) && d in g :: d in order[..i]
  }

  lemma {:induction false} ChainFollowsOrder(g: Graph, order: seq<string>, p: seq<string>, n: nat)
    requires Ordered(g, order) && Distinct(order) && Chain(g, p) && |p| >= 1
    requires n < |order| && order[n] == p[|p| - 1]
    ensures p[0] in order[..n + 1]
    ensures |p| >= 2 ==> p[0] in order[..n]
  {
    if |p| >= 2 {
      var q := p[..|p| - 1];
      var d := q[|q| - 1];
      assert d in g[p[|p| - 1]] by { assert p[(|p| - 1) - 1] in g[p[|p| - 1]]; }
      var m :| 0 <= m < n && order[m] == d;
      ChainFollowsOrder(g, order, q, m);
    }
  }

  /** A complete dependency-first listing rules every cycle out. */
  lemma OrderedIsAcyclic(g: Graph, order: seq<string>)
    requires Ordered(g, order) && Distinct(order) && forall id | id in g :: id in order
    ensures Acyclic(g)
  {
    forall x | Reaches(g, x, x) ensures false {
      var p :| Walk(g, p, x, x);
      var n :| 0 <= n < |order| && order[n] == x;
      ChainFollowsOrder(g, order, p, n);
    }
  }

  // ----- heaviest chains

  datatype Costed = Costed(cost: int, path: seq<string>)

  type Weights = map<string, int>

  /** The heaviest chain ending at `id`, found by plain recursion without a memo. */
  ghost function Longest(g: Graph, w: Weights, id: string): (c: Costed)
    requires Acyclic(g) && id in g && g.Keys <= w.Keys
    ensures c.path != [] && c.path[|c.path| - 1] == id
    decreases Ancestors(g, id), 1
  {
    var best := BestDep(g, w, id, g[id]);
    Costed(w[id] + best.cost, best.path + [id])
  }

  /** The heaviest of the chains ending at one of the given dependencies; the empty
      chain when none weighs more than nothing. The first of equals wins. */
  ghost function BestDep(g: Graph, w: Weights, id: string, deps: seq<string>): Costed
    requires Acyclic(g) && id in g && g.Keys <= w.Keys
    requires forall d | d in deps :: d in g[id]
    decreases Ancestors(g, id), 0, |deps|
  {
    if deps == [] then Costed(0, [])
    else
      var best := BestDep(g, w, id, deps[..|deps| - 1]);
      var dep := deps[|deps| - 1];
      if dep !in g then best
      else
        AncestorsShrink(g, dep, id);
        var child := Longest(g, w, dep);
        if child.cost > best.cost then child else best
  }

  function Weight(w: Weights, p: seq<string>): int
    requires forall id | id in p :: id in w
  {
    if p == [] then 0 else Weight(w, p[..|p| - 1]) + w[p[|p| - 1]]
  }

  lemma {:induction false} LongestIsChain(g: Graph, w: Weights, id: string)
    requires Acyclic(g) && id in g && g.Keys <= w.Keys
    ensures var c := Longest(g, w, id); Chain(g, c.path) && c.cost == Weight(w, c.path)
    decreases Ancestors(g, id), 1
  {
    BestDepIsChain(g, w, id, g[id]);
    var best := BestDep(g, w, id, g[id]);
    assert (best.path + [id])[..|best.path|] == best.path;
  }

  lemma {:induction false} BestDepIsChain(g: Graph, w: Weights, id: string, deps: seq<string>)
    requires Acyclic(g) && id in g && g.Keys <= w.Keys
    requires forall d | d in deps :: d in g[id]
    ensures var c := BestDep(g, w, id, deps);
            && Chain(g, c.path) && c.cost == Weight(w, c.path)
            && (c.path != [] ==> c.path[|c.path| - 1] in g[id])
    decreases Ancestors(g, id), 0, |deps|
  {
    if deps != [] {
      BestDepIsChain(g, w, id, deps[..|deps| - 1]);
      var dep := deps[|deps| - 1];
      if dep in g {
        AncestorsShrink(g, dep, id);
        LongestIsChain(g, w, dep);
      }
    }
  }

  /** What the best dependency weighs: the maximum over the known dependencies and nothing at all. */
  lemma {:induction false} BestDepIsMax(g: Graph, w: Weights, id: string, deps: seq<string>)
    requires Acyclic(g) && id in g && g.Keys <= w.Keys
    requires forall d | d in deps :: d in g[id]
    ensures BestDep(g, w, id, deps).cost >= 0
    ensures forall d | d in deps && d in g :: Longest(g, w, d).cost <= BestDep(g, w, id, deps).cost
    ensures BestDep(g, w, id, deps).cost == 0
            || exists d :: d in deps && d in g && Longest(g, w, d).cost == BestDep(g, w, id, deps).cost
    decreases |deps|
  {
    if deps != [] {
      var init := deps[..|deps| - 1];
      BestDepIsMax(g, w, id, init);
      assert forall d | d in deps :: d in init || d == deps[|deps| - 1];
    }
  }

  /** No chain ending at `id` weighs more than `Longest`. */
  lemma {:induction false} LongestIsHeaviest(g: Graph, w: Weights, id: string, p: seq<string>)
    requires Acyclic(g) && id in g && g.Keys <= w.Keys
    requires Chain(g, p) && p != [] && p[|p| - 1] == id
    ensures Weight(w, p) <= Longest(g, w, id).cost
    decreases |p|
  {
    BestDepIsMax(g, w, id, g[id]);
    var q := p[..|p| - 1];
    if q != [] {
      assert p[(|p| - 1) - 1] in g[p[|p| - 1]];
      LongestIsHeaviest(g, w, q[|q| - 1], q);
    }
  }

  // ----- depth: the heaviest chain when every task weighs one

  function Unit(g: Graph): Weights {
    map id | id in g :: 1
  }

  /** The number of tasks on the longest chain of prerequisites that ends with `id` itself. */
  ghost function Depth(g: Graph, id: string): int
    requires Acyclic(g) && id in g
  {
    Longest(g, Unit(g), id).cost
  }

  lemma {:induction false} UnitWeight(g: Graph, p: seq<string>)
    requires forall id | id in p :: id in g
    ensures Weight(Unit(g), p) == |p|
  {
    if p != [] {
      UnitWeight(g, p[..|p| - 1]);
    }
  }

  lemma DepthIsLongestChain(g: Graph, id: string)
    requires Acyclic(g) && id in g
    ensures exists p :: Chain(g, p) && p != [] && p[|p| - 1] == id && |p| == Depth(g, id)
    ensures forall p | Chain(g, p) && p != [] && p[|p| - 1] == id :: |p| <= Depth(g, id)
  {
    LongestIsChain(g, Unit(g), id);
    UnitWeight(g, Longest(g, Unit(g), id).path);
    forall p | Chain(g, p) && p != [] && p[|p| - 1] == id ensures |p| <= Depth(g, id) {
      LongestIsHeaviest(g, Unit(g), id, p);
      UnitWeight(g, p);
    }
  }

  /** Depth is one more than the depth of the deepest known dependency. */
  lemma DepthStep(g: Graph, id: string)
    requires Acyclic(g) && id in g
    ensures Depth(g, id) >= 1
    ensures forall d | d in g[id] && d in g :: Depth(g, d) < Depth(g, id)
    ensures Depth(g, id) == 1 || exists d :: d in g[id] && d in g && Depth(g, d) == Depth(g, id) - 1
  {
    BestDepIsMax(g, Unit(g), id, g[id]);
    var best := BestDep(g, Unit(g), id, g[id]).cost;
    if best != 0 {
      var d :| d in g[id] && d in g && Longest(g, Unit(g), d).cost == best;
      assert Depth(g, d) == Depth(g, id) - 1;
    }
  }
}
