/** Paths and cycles of a finite directed graph. */
module Graphs {
  type Node = nat
  type Edges = set<(Node, Node)>

  predicate Path(edges: Edges, path: seq<Node>) {
    |path| >= 1 && forall i :: 0 <= i < |path| - 1 ==> (path[i], path[i + 1]) in edges
  }

  /** A closed chain: every node has an edge to the next, and the last to the first. */
  predicate Cycle(edges: Edges, cycle: seq<Node>) {
    Path(edges, cycle) && (cycle[|cycle| - 1], cycle[0]) in edges
  }

  ghost predicate HasSuccessor(edges: Edges, nodes: set<Node>, x: Node) {
    exists y :: y in nodes && (x, y) in edges
  }

  ghost predicate WithoutSinks(edges: Edges, nodes: set<Node>) {
    forall x {:trigger HasSuccessor(edges, nodes, x)} :: x in nodes ==> HasSuccessor(edges, nodes, x)
  }

  lemma {:induction false} LongPath(edges: Edges, nodes: set<Node>, x: Node, n: nat) returns (path: seq<Node>)
    requires WithoutSinks(edges, nodes) && x in nodes
    ensures |path| == n + 1 && path[0] == x && Path(edges, path)
    ensures forall y :: y in path ==> y in nodes
    decreases n
  {
    if n == 0 {
      path := [x];
    } else {
      assert HasSuccessor(edges, nodes, x);
      var y :| y in nodes && (x, y) in edges;
      var rest := LongPath(edges, nodes, y, n - 1);
      path := [x] + rest;
    }
  }

  /** More places than values: some value stands in two places. */
  lemma {:induction false} Pigeonhole(xs: seq<Node>, values: set<Node>) returns (i: nat, j: nat)
    requires |xs| > |values| && forall x :: x in xs ==> x in values
    ensures i < j < |xs| && xs[i] == xs[j]
    decreases |xs|
  {
    var last := xs[|xs| - 1];
    if last in xs[..|xs| - 1] {
      j := |xs| - 1;
      i :| 0 <= i < |xs| - 1 && xs[i] == last;
    } else {
      i, j := Pigeonhole(xs[..|xs| - 1], values - {last});
    }
  }

  /** If every node of a finite set has an edge into the set, there is a cycle. */
  lemma CycleExists(edges: Edges, nodes: set<Node>) returns (cycle: seq<Node>)
    requires nodes != {} && WithoutSinks(edges, nodes)
    ensures Cycle(edges, cycle)
  {
    var x :| x in nodes;
    var path := LongPath(edges, nodes, x, |nodes|);
    var i, j := Pigeonhole(path, nodes);
    cycle := path[i..j];
    assert (path[j - 1], path[j - 1 + 1]) in edges;
    forall k | 0 <= k < |cycle| - 1 ensures (cycle[k], cycle[k + 1]) in edges {
      assert (path[i + k], path[i + k + 1]) in edges;
    }
  }
}
