/** The runtime import graph between source files, and what it means to reach a file from another. */
module ModuleGraph {

  type Node = string
  type Graph = map<Node, seq<Node>>

  /** The imports of a file; a file that was not scanned has none. */
  function Succ(g: Graph, n: Node): seq<Node> {
    if n in g then g[n] else []
  }

  predicate Edge(g: Graph, v: Node, w: Node) {
    w in Succ(g, v)
  }

  /** Every file the graph mentions, as an importer or as an import. */
  function Vertices(g: Graph): set<Node> {
    g.Keys + (set k, w | k in g && w in g[k] :: w)
  }

  /** `via` lists the nodes visited after x, ending in y. */
  ghost predicate Walk(g: Graph, x: Node, via: seq<Node>, y: Node)
    decreases |via|
  {
    if via == [] then x == y
    else Edge(g, x, via[0]) && Walk(g, via[0], via[1..], y)
  }

  ghost predicate Reach(g: Graph, x: Node, y: Node) {
    exists via :: Walk(g, x, via, y)
  }

  lemma ReachSelf(g: Graph, x: Node)
    ensures Reach(g, x, x)
  {
    assert Walk(g, x, [], x);
  }

  lemma ReachEdge(g: Graph, x: Node, y: Node)
    requires Edge(g, x, y)
    ensures Reach(g, x, y)
  {
    assert Walk(g, y, [y][1..], y);
    assert Walk(g, x, [y], y);
  }

  lemma {:induction false} WalkConcat(g: Graph, x: Node, p: seq<Node>, y: Node, q: seq<Node>, z: Node)
    requires Walk(g, x, p, y) && Walk(g, y, q, z)
    ensures Walk(g, x, p + q, z)
    decreases |p|
  {
    if p == [] {
      assert p + q == q;
    } else {
      WalkConcat(g, p[0], p[1..], y, q, z);
      assert (p + q)[1..] == p[1..] + q;
    }
  }

  lemma ReachTrans(g: Graph, x: Node, y: Node, z: Node)
    requires Reach(g, x, y) && Reach(g, y, z)
    ensures Reach(g, x, z)
  {
    var p :| Walk(g, x, p, y);
    var q :| Walk(g, y, q, z);
    WalkConcat(g, x, p, y, q, z);
  }

  lemma ReachStep(g: Graph, x: Node, y: Node, z: Node)
    requires Reach(g, x, y) && Edge(g, y, z)
    ensures Reach(g, x, z)
  {
    ReachEdge(g, y, z);
    ReachTrans(g, x, y, z);
  }

  ghost predicate Closed(g: Graph, s: set<Node>) {
    forall v, w :: v in s && Edge(g, v, w) ==> w in s
  }

  lemma {:induction false} WalkStaysInClosed(g: Graph, s: set<Node>, x: Node, p: seq<Node>, y: Node)
    requires Closed(g, s) && x in s && Walk(g, x, p, y)
    ensures y in s
    decreases |p|
  {
    if p != [] {
      WalkStaysInClosed(g, s, p[0], p[1..], y);
    }
  }

  /** A set with no edge leaving it keeps everything that can be reached from it. */
  lemma ReachStaysInClosed(g: Graph, s: set<Node>, x: Node, y: Node)
    requires Closed(g, s) && x in s && Reach(g, x, y)
    ensures y in s
  {
    var p :| Walk(g, x, p, y);
    WalkStaysInClosed(g, s, x, p, y);
  }

  ghost predicate Mutual(g: Graph, x: Node, y: Node) {
    Reach(g, x, y) && Reach(g, y, x)
  }

  /** A strongly connected component: a class of the mutual-reachability relation. */
  ghost predicate IsComponent(g: Graph, c: set<Node>) {
    && c != {}
    && (forall x, y :: x in c && y in c ==> Reach(g, x, y))
    && (forall x, y :: x in c && Mutual(g, x, y) ==> y in c)
  }

  /** v lies on a cycle; a self-import is one. */
  ghost predicate OnCycle(g: Graph, v: Node) {
    exists w :: Edge(g, v, w) && Reach(g, w, v)
  }

  ghost predicate Acyclic(g: Graph) {
    forall v :: !OnCycle(g, v)
  }
}
