/** Reachability in a directed graph given by its edges. */
module Graphs {

  type Edges = (string, string) -> bool

  ghost predicate IsPath(edges: Edges, path: seq<string>) {
    forall i :: 0 <= i < |path| - 1 ==> edges(path[i], path[i + 1])
  }

  ghost predicate Reachable(edges: Edges, start: string, node: string) {
    exists path :: path != [] && path[0] == start && path[|path| - 1] == node && IsPath(edges, path)
  }

  lemma StartReachable(edges: Edges, start: string)
    ensures Reachable(edges, start, start)
  {
    var path := [start];
    assert path[0] == start && IsPath(edges, path);
  }

  lemma NextReachable(edges: Edges, start: string, node: string, next: string)
    requires Reachable(edges, start, node) && edges(node, next)
    ensures Reachable(edges, start, next)
  {
    var path :| path != [] && path[0] == start && path[|path| - 1] == node && IsPath(edges, path);
    var longer := path + [next];
    assert longer[0] == start && longer[|longer| - 1] == next && IsPath(edges, longer);
  }

  ghost predicate Closed(edges: Edges, nodes: set<string>) {
    forall u, v :: u in nodes && edges(u, v) ==> v in nodes
  }

  lemma {:induction false} ClosedHoldsPath(edges: Edges, nodes: set<string>, path: seq<string>, i: nat)
    requires i < |path| && path[0] in nodes && IsPath(edges, path) && Closed(edges, nodes)
    ensures path[i] in nodes
  {
    if i > 0 {
      ClosedHoldsPath(edges, nodes, path, i - 1);
      assert edges(path[i - 1], path[i]);
    }
  }

  lemma ClosedHoldsReachable(edges: Edges, start: string, nodes: set<string>)
    requires start in nodes && Closed(edges, nodes)
    ensures forall v :: Reachable(edges, start, v) ==> v in nodes
  {
    forall v | Reachable(edges, start, v) ensures v in nodes {
      var path :| path != [] && path[0] == start && path[|path| - 1] == v && IsPath(edges, path);
      ClosedHoldsPath(edges, nodes, path, |path| - 1);
    }
  }
}
