/** Directed graphs as Python dictionaries of sets, with reachability along paths. */
module Graphs {

  /** A module of the crate, known by its name. */
  datatype Node = Node(name: string)

  type Graph = map<Node, set<Node>>

  /** The source's `graph.get(v, ())`: a node that is not a key has no successors. */
  function Succ(g: Graph, v: Node): set<Node> {
    if v in g then g[v] else {}
  }

  /** Every node of the graph, including edge targets that are not keys. */
  ghost function Nodes(g: Graph): set<Node> {
    g.Keys + set v, w | v in g && w in g[v] :: w
  }

  /** `p` lists the nodes visited after `x` on a walk from `x` to `y`. */
  ghost predicate IsPath(g: Graph, x: Node, p: seq<Node>, y: Node)
    decreases p
  {
    if p == [] then x == y else p[0] in Succ(g, x) && IsPath(g, p[0], p[1..], y)
  }

  ghost predicate Reach(g: Graph, x: Node, y: Node) {
    exists p :: IsPath(g, x, p, y)
  }

  ghost predicate Mutual(g: Graph, x: Node, y: Node) {
    Reach(g, x, y) && Reach(g, y, x)
  }

  ghost predicate Closed(g: Graph, s: set<Node>) {
    forall x, y :: x in s && y in Succ(g, x) ==> y in s
  }

  ghost predicate SelfLoopFree(g: Graph) {
    forall x :: x !in Succ(g, x)
  }

  /** No edge lies on a cycle. */
  ghost predicate Acyclic(g: Graph) {
    forall x, y :: y in Succ(g, x) ==> !Reach(g, y, x)
  }

  lemma ReachRefl(g: Graph, x: Node)
    ensures Reach(g, x, x)
  {
    assert IsPath(g, x, [], x);
  }

  lemma ReachEdge(g: Graph, x: Node, y: Node)
    requires y in Succ(g, x)
    ensures Reach(g, x, y)
  {
    assert IsPath(g, y, [y][1..], y);
    assert IsPath(g, x, [y], y);
  }

  lemma {:induction false} PathConcat(g: Graph, x: Node, p: seq<Node>, y: Node, q: seq<Node>, z: Node)
    requires IsPath(g, x, p, y) && IsPath(g, y, q, z)
    ensures IsPath(g, x, p + q, z)
    decreases p
  {
    if p == [] {
      assert p + q == q;
    } else {
      PathConcat(g, p[0], p[1..], y, q, z);
      assert (p + q)[1..] == p[1..] + q;
    }
  }

  lemma ReachTrans(g: Graph, x: Node, y: Node, z: Node)
    requires Reach(g, x, y) && Reach(g, y, z)
    ensures Reach(g, x, z)
  {
    var p :| IsPath(g, x, p, y);
    var q :| IsPath(g, y, q, z);
    PathConcat(g, x, p, y, q, z);
  }

  lemma {:induction false} PathStaysClosed(g: Graph, s: set<Node>, x: Node, p: seq<Node>, y: Node)
    requires Closed(g, s) && x in s && IsPath(g, x, p, y)
    ensures y in s
    decreases p
  {
    if p != [] {
      PathStaysClosed(g, s, p[0], p[1..], y);
    }
  }

  /** Nothing outside a closed set is reachable from inside it. */
  lemma ReachStaysClosed(g: Graph, s: set<Node>, x: Node, y: Node)
    requires Closed(g, s) && x in s && Reach(g, x, y)
    ensures y in s
  {
    var p :| IsPath(g, x, p, y);
    PathStaysClosed(g, s, x, p, y);
  }
}
