/** The depth-first cycle search that the definition validator and the DAG planner share. */
module CycleCheck {
  import opened Wrappers
  import opened Graphs

  /** Ids listed once each, after everything they depend on. */
  ghost predicate FinishOrder(g: Graph, order: seq<string>) {
    && Distinct(order)
    && forall i, d | 0 <= i < |order| && d in Deps(g, order[i]) :: d in order[..i]
  }

  lemma FinishOrderPush(g: Graph, order: seq<string>, id: string)
    requires FinishOrder(g, order) && id !in order && forall d | d in Deps(g, id) :: d in order
    ensures FinishOrder(g, order + [id])
  {
    var longer := order + [id];
    forall i, d | 0 <= i < |longer| && d in Deps(g, longer[i]) ensures d in longer[..i] {
      assert longer[..i] == order[..i];
      if i == |order| {
        assert order[..i] == order;
      }
    }
  }

  /** Coming back to an id on the trail closes a cycle. */
  lemma TrailCloses(g: Graph, id: string, trail: seq<string>)
    requires Chain(g, trail) && id in trail && trail[0] in g && id in g[trail[0]]
    ensures Reaches(g, id, id)
  {
    var k :| 0 <= k < |trail| && trail[k] == id;
    assert Walk(g, [id] + trail[..k + 1], id, id);
  }

  /** The two sets the recursive `visit` closure updates. */
  class CycleSearch {
    const graph: Graph
    var visiting: set<string>
    var visited: set<string>
    ghost var order: seq<string>  // visited ids, in the order they were finished

    constructor (g: Graph)
      ensures graph == g && visiting == {} && visited == {} && order == [] && Settled()
    {
      graph, visiting, visited, order := g, {}, {}, [];
    }

    /** Whatever is visited was finished after everything it depends on. */
    ghost predicate Settled()
      reads this
    {
      && visited == (set id | id in order)
      && visited !! visiting
      && FinishOrder(graph, order)
    }

    /** The ids being visited, deepest first: each is a dependency of the next. */
    ghost predicate Trail(trail: seq<string>)
      reads this
    {
      && Distinct(trail)
      && Chain(graph, trail)
      && visiting == (set id | id in trail)
    }

    method Visit(id: string, ghost trail: seq<string>) returns (r: Option<string>)
      requires Settled() && Trail(trail) && id in Universe(graph)
      requires trail != [] ==> id in graph[trail[0]]
      modifies this
      ensures r.Some? ==> Reaches(graph, r.value, r.value)
      ensures r.None? ==> Settled() && Trail(trail) && id in visited
      ensures r.None? ==> old(order) <= order && old(visited) <= visited
      decreases Universe(graph) - visited - visiting
    {
      if id in visited {
        return None;
      }
      if id in visiting {
        TrailCloses(graph, id, trail);
        return Some(id);
      }
      ghost var before := Universe(graph) - visited - visiting;
      visiting := visiting + {id};
      assert Universe(graph) - visited - visiting < before by {
        assert id in before;
      }
      var deps := Deps(graph, id);
      ghost var here := [id] + trail;
      for i := 0 to |deps|
        invariant Settled() && old(order) <= order && old(visited) <= visited
        invariant visiting == old(visiting) + {id}
        invariant id in graph ==> Trail(here)
        invariant forall d | d in deps[..i] :: d in visited
      {
        assert id in graph && deps[i] in graph[id];
        assert Universe(graph) - visited - visiting < before by {
          assert id in before && id !in Universe(graph) - visited - visiting;
        }
        r := Visit(deps[i], here);
        if r.Some? {
          return;
        }
      }
      assert forall d | d in deps :: d in order by {
        assert deps[..|deps|] == deps;
      }
      FinishOrderPush(graph, order, id);
      visiting := visiting - {id};
      visited := visited + {id};
      order := order + [id];
      r := None;
    }
  }

  /** Visits every root in turn; `None` means no exception, `Some(id)` the id the exception names.
      Throws exactly when the dependency relation has a cycle, and names an id on one. */
  method FindCycle(g: Graph, roots: seq<string>) returns (r: Option<string>)
    requires forall id :: id in roots <==> id in g
    ensures r.None? <==> Acyclic(g)
    ensures r.Some? ==> Reaches(g, r.value, r.value)
  {
    var search := new CycleSearch(g);
    for i := 0 to |roots|
      invariant search.Settled() && search.Trail([])
      invariant forall id | id in roots[..i] :: id in search.visited
    {
      r := search.Visit(roots[i], []);
      if r.Some? {
        return;
      }
    }
    forall id | id in g ensures id in search.order {
      assert id in roots[..|roots|];
    }
    OrderedIsAcyclic(g, search.order);
    r := None;
  }
}
