// The three-colour depth-first search for a cycle among the `depends_on` entries
// of a deployment manifest.
module DependencyCycle {
  import opened Options

  /** The contracts of a manifest in document order and the names each of them depends on. */
  datatype Graph<Name(!new, ==)> = Graph(names: seq<Name>, dependsOn: map<Name, seq<Name>>)
  {
    function DependsOn(name: Name): seq<Name> {
      if name in dependsOn then dependsOn[name] else []
    }

    /** `name` depends on `dep`, and both are contracts of the manifest. */
    predicate Edge(name: Name, dep: Name) {
      name in names && dep in names && dep in DependsOn(name)
    }

    ghost predicate IsWalk(walk: seq<Name>) {
      forall i | 0 <= i < |walk| - 1 :: Edge(walk[i], walk[i + 1])
    }

    ghost predicate IsCycle(walk: seq<Name>) {
      |walk| >= 2 && walk[0] == walk[|walk| - 1] && IsWalk(walk)
    }

    ghost predicate Acyclic() {
      forall walk :: !IsCycle(walk)
    }

    /** Every contract of `order` comes after all it depends on. */
    ghost predicate DependenciesFirst(order: seq<Name>) {
      forall i, dep | 0 <= i < |order| && Edge(order[i], dep) :: dep in order[..i]
    }

    /** `order` deploys every contract of the manifest exactly once, after all it depends on. */
    ghost predicate IsDeploymentOrder(order: seq<Name>) {
      && Distinct(order)
      && (forall name :: name in order <==> name in names)
      && DependenciesFirst(order)
    }
  }

  ghost predicate Distinct<T>(s: seq<T>) {
    forall i, j | 0 <= i < j < |s| :: s[i] != s[j]
  }

  /** Along a walk inside a deployment order, positions only go down. */
  lemma {:induction false} WalkDescends<Name(!new)>(g: Graph<Name>, order: seq<Name>, walk: seq<Name>, from: nat)
    requires g.IsDeploymentOrder(order)
    requires |walk| > 0 && g.IsWalk(walk)
    requires from < |order| && order[from] == walk[0]
    ensures |walk| > 1 ==> walk[|walk| - 1] in order[..from]
    decreases |walk|
  {
    if |walk| > 1 {
      assert g.Edge(order[from], walk[1]);
      var next :| 0 <= next < from && order[next] == walk[1];
      forall i | 0 <= i < |walk[1..]| - 1
        ensures g.Edge(walk[1..][i], walk[1..][i + 1])
      {
        assert g.Edge(walk[i + 1], walk[i + 1 + 1]);
      }
      WalkDescends(g, order, walk[1..], next);
      assert order[..next] == order[..from][..next];
    }
  }

  /** A deployment order rules out every cycle. */
  lemma DeploymentOrderIsAcyclic<Name(!new)>(g: Graph<Name>, order: seq<Name>)
    requires g.IsDeploymentOrder(order)
    ensures g.Acyclic()
  {
    forall walk
      ensures !g.IsCycle(walk)
    {
      if g.IsCycle(walk) {
        assert g.Edge(walk[0], walk[1]);
        var from :| 0 <= from < |order| && order[from] == walk[0];
        assert order[from] !in order[..from];
        WalkDescends(g, order, walk, from);
      }
    }
  }

  datatype Color = White | Gray | Black

  /**
   * What the search keeps: the gray contracts are the path, a walk without repetition; the black
   * contracts are the finished ones, each finished after all it depends on.
   */
  ghost predicate Searching<Name(!new)>(g: Graph<Name>, color: map<Name, Color>, path: seq<Name>, finished: seq<Name>) {
    && (forall name :: name in color <==> name in g.names)
    && (forall name :: name in path <==> name in color && color[name] == Gray)
    && (forall name :: name in finished <==> name in color && color[name] == Black)
    && Distinct(path) && g.IsWalk(path)
    && Distinct(finished) && g.DependenciesFirst(finished)
  }

  ghost function WhiteNames<Name(!new)>(color: map<Name, Color>): set<Name> {
    set name | name in color && color[name] == White
  }

  lemma Enter<Name(!new)>(g: Graph<Name>, color: map<Name, Color>, path: seq<Name>, finished: seq<Name>, node: Name)
    requires Searching(g, color, path, finished)
    requires node in color && color[node] == White
    requires path == [] || g.Edge(path[|path| - 1], node)
    ensures Searching(g, color[node := Gray], path + [node], finished)
    ensures WhiteNames(color[node := Gray]) == WhiteNames(color) - {node}
  {
    forall i | 0 <= i < |path + [node]| - 1
      ensures g.Edge((path + [node])[i], (path + [node])[i + 1])
    {
      if i < |path| - 1 {
        assert g.Edge(path[i], path[i + 1]);
      }
    }
  }

  lemma Leave<Name(!new)>(g: Graph<Name>, color: map<Name, Color>, path: seq<Name>, finished: seq<Name>, node: Name)
    requires Searching(g, color, path + [node], finished)
    requires forall dep | dep in g.DependsOn(node) && dep in g.names :: dep in finished
    ensures Searching(g, color[node := Black], path, finished + [node])
    ensures WhiteNames(color[node := Black]) == WhiteNames(color)
  {
    var before, after := path + [node], finished + [node];
    assert before[|path|] == node && after[|finished|] == node;
    assert color[node] == Gray;
    assert forall i | 0 <= i < |path| :: path[i] == before[i];
    assert g.IsWalk(path) by {
      assert forall i | 0 <= i < |path| - 1 :: g.Edge(before[i], before[i + 1]);
    }
    assert node !in path && node !in finished;
    forall i, dep | 0 <= i < |after| && g.Edge(after[i], dep)
      ensures dep in after[..i]
    {
      assert after[..i] == finished[..i];
    }
  }

  lemma BackEdge<Name(!new)>(g: Graph<Name>, path: seq<Name>, start: nat, dep: Name)
    requires g.IsWalk(path) && start < |path| && path[start] == dep
    requires g.Edge(path[|path| - 1], dep)
    ensures g.IsCycle(path[start..] + [dep])
  {
    var walk := path[start..] + [dep];
    forall i | 0 <= i < |walk| - 1
      ensures g.Edge(walk[i], walk[i + 1])
    {
      if i < |walk| - 2 {
        assert g.Edge(path[start + i], path[start + i + 1]);
      }
    }
  }

  class CycleFinder<Name(!new, ==)> {
    const graph: Graph<Name>
    var color: map<Name, Color>
    var path: seq<Name>
    ghost var finished: seq<Name>

    ghost predicate Valid()
      reads this
    {
      Searching(graph, color, path, finished)
    }

    constructor (graph: Graph<Name>)
      ensures Valid()
      ensures this.graph == graph && path == []
    {
      this.graph := graph;
      color := map name | name in graph.names :: White;
      path := [];
      finished := [];
    }

    method PathIndex(name: Name) returns (k: nat)
      requires name in path
      ensures k < |path| && path[k] == name
    {
      k := 0;
      while path[k] != name
        invariant k < |path| && name !in path[..k]
        decreases |path| - k
      {
        k := k + 1;
      }
    }

    /** Leaves `node` black and the path as it was, or returns a cycle. */
    method Visit(node: Name) returns (cycle: Option<seq<Name>>)
      requires Valid() && node in color && color[node] == White
      requires path == [] || graph.Edge(path[|path| - 1], node)
      modifies this`color, this`path, this`finished
      ensures cycle.Some? ==> graph.IsCycle(cycle.value)
      ensures cycle.None? ==> Valid() && path == old(path) && old(finished) <= finished
      ensures cycle.None? ==> node in finished && WhiteNames(color) <= old(WhiteNames(color))
      decreases WhiteNames(color), 0
    {
      Enter(graph, color, path, finished, node);
      color := color[node := Gray];
      path := path + [node];
      var dependsOn := graph.DependsOn(node);
      for i := 0 to |dependsOn|
        invariant Valid() && path == old(path) + [node] && old(finished) <= finished
        invariant WhiteNames(color) <= old(WhiteNames(color)) - {node}
        invariant forall k | 0 <= k < i && dependsOn[k] in graph.names :: dependsOn[k] in finished
      {
        cycle := Follow(dependsOn[i]);
        if cycle.Some? {
          return;
        }
      }
      Leave(graph, color, old(path), finished, node);
      path := path[..|path| - 1];
      assert path == old(path);
      color := color[node := Black];
      finished := finished + [node];
      return None;
    }

    /** One turn of the loop over the dependencies of the contract that ends the path. */
    method Follow(dep: Name) returns (cycle: Option<seq<Name>>)
      requires Valid() && path != [] && dep in graph.DependsOn(path[|path| - 1])
      modifies this`color, this`path, this`finished
      ensures cycle.Some? ==> graph.IsCycle(cycle.value)
      ensures cycle.None? ==> Valid() && path == old(path) && old(finished) <= finished
      ensures cycle.None? ==> WhiteNames(color) <= old(WhiteNames(color)) && (dep in graph.names ==> dep in finished)
      decreases WhiteNames(color), 1
    {
      if dep !in color {
        return None;
      }
      assert path[|path| - 1] in path;
      if color[dep] == Gray {
        var start := PathIndex(dep);
        BackEdge(graph, path, start, dep);
        return Some(path[start..] + [dep]);
      }
      if color[dep] == White {
        cycle := Visit(dep);
      } else {
        return None;
      }
    }
  }

  /**
   * Returns None exactly when the known dependencies form no cycle; a returned path is a cycle.
   * Without a cycle, the order in which the search finishes contracts is a deployment order.
   */
  method FindDependencyCycle<Name(!new, ==)>(graph: Graph<Name>) returns (cycle: Option<seq<Name>>)
    ensures cycle.None? <==> graph.Acyclic()
    ensures cycle.Some? ==> graph.IsCycle(cycle.value)
    ensures cycle.None? ==> exists order :: graph.IsDeploymentOrder(order)
  {
    var finder := new CycleFinder(graph);
    for i := 0 to |graph.names|
      invariant finder.Valid() && finder.graph == graph && finder.path == []
      invariant forall k | 0 <= k < i :: graph.names[k] in finder.finished
    {
      if finder.color[graph.names[i]] == White {
        var found := finder.Visit(graph.names[i]);
        if found.Some? {
          return found;
        }
      }
    }
    assert graph.IsDeploymentOrder(finder.finished);
    DeploymentOrderIsAcyclic(graph, finder.finished);
    return None;
  }
}
