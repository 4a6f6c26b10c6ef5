/** Collecting the files that a module pulls in through relative imports, with a worklist. */
module ImportWorklist {
  import opened Basics
  import opened ModuleGraph

  /** Everything found or waiting can be reached, and no edge leads out of what is found or waiting. */
  ghost predicate Frontier(g: Graph, entry: Node, discovered: seq<Node>, queue: seq<Node>) {
    && Distinct(discovered)
    && (entry in discovered || entry in queue)
    && (forall v :: v in discovered || v in queue ==> Reach(g, entry, v))
    && (forall v, w :: v in discovered && Edge(g, v, w) ==> w in discovered || w in queue)
  }

  lemma PopKnown(g: Graph, entry: Node, discovered: seq<Node>, queue: seq<Node>)
    requires Frontier(g, entry, discovered, queue) && queue != [] && queue[|queue| - 1] in discovered
    ensures Frontier(g, entry, discovered, queue[..|queue| - 1])
  {
    hide Reach;
    assert queue == queue[..|queue| - 1] + [queue[|queue| - 1]];
  }

  lemma PopNew(g: Graph, entry: Node, discovered: seq<Node>, queue: seq<Node>)
    requires Frontier(g, entry, discovered, queue) && queue != [] && queue[|queue| - 1] !in discovered
    ensures var v := queue[|queue| - 1]; Frontier(g, entry, discovered + [v], queue[..|queue| - 1] + Succ(g, v))
  {
    hide Reach, Succ;
    var v := queue[|queue| - 1];
    assert queue == queue[..|queue| - 1] + [v];
    forall w | w in Succ(g, v) ensures Reach(g, entry, w) {
      ReachStep(g, entry, v, w);
    }
  }

  lemma FrontierEmpty(g: Graph, entry: Node, discovered: seq<Node>)
    requires Frontier(g, entry, discovered, [])
    ensures forall v :: v in discovered <==> Reach(g, entry, v)
  {
    hide Reach;
    var s := set v | v in discovered;
    forall v | Reach(g, entry, v) ensures v in discovered {
      ReachStaysInClosed(g, s, entry, v);
    }
  }

  /** What is still to be discovered; every new file makes it smaller. */
  ghost function Undiscovered(g: Graph, entry: Node, discovered: seq<Node>): set<Node> {
    (Vertices(g) + {entry}) - set v | v in discovered
  }

  /** What is waiting is the entry or an import. */
  ghost predicate Known(g: Graph, entry: Node, queue: seq<Node>) {
    forall v :: v in queue ==> v in Vertices(g) + {entry}
  }

  lemma KnownStep(g: Graph, entry: Node, discovered: seq<Node>, queue: seq<Node>)
    requires Known(g, entry, queue) && queue != []
    ensures Known(g, entry, queue[..|queue| - 1])
    ensures var v := queue[|queue| - 1];
      && Known(g, entry, queue[..|queue| - 1] + Succ(g, v))
      && (v !in discovered ==> |Undiscovered(g, entry, discovered + [v])| < |Undiscovered(g, entry, discovered)|)
  {
    var v := queue[|queue| - 1];
    assert v in queue;
    if v !in discovered {
      assert Undiscovered(g, entry, discovered + [v]) <= Undiscovered(g, entry, discovered) - {v};
      Smaller(Undiscovered(g, entry, discovered + [v]), Undiscovered(g, entry, discovered), v);
    }
  }

  lemma Smaller(a: set<Node>, b: set<Node>, v: Node)
    requires a <= b - {v} && v in b
    ensures |a| < |b|
  {
    SubsetSize(a, b - {v});
  }

  /**
   * Finds each file that can be reached from the entry, once, in the order of discovery.
   * Resolved paths are absolute, so no file has an empty name.
   */
  method CollectRelativeImportGraph(g: Graph, entry: Node) returns (discovered: seq<Node>)
    requires entry != "" && "" !in Vertices(g)
    ensures Distinct(discovered)
    ensures forall v :: v in discovered <==> Reach(g, entry, v)
    ensures discovered != [] && discovered[0] == entry
  {
    hide Reach, Succ, Frontier, Vertices, Known, Undiscovered;
    discovered := [];
    var queue := [entry];
    Begins(g, entry);
    while queue != []
      invariant Frontier(g, entry, discovered, queue) && Known(g, entry, queue)
      invariant if discovered == [] then queue == [entry] else discovered[0] == entry
      decreases |Undiscovered(g, entry, discovered)|, |queue|
    {
      KnownStep(g, entry, discovered, queue);
      var current := queue[|queue| - 1];
      if current == "" || current in discovered {
        Named(g, entry, queue);
        PopKnown(g, entry, discovered, queue);
        queue := queue[..|queue| - 1];
        continue;
      }
      PopNew(g, entry, discovered, queue);
      queue := queue[..|queue| - 1];
      discovered := discovered + [current];
      queue := queue + Succ(g, current);
    }
    FrontierEmpty(g, entry, discovered);
    Started(g, entry, discovered);
  }

  lemma Begins(g: Graph, entry: Node)
    ensures Frontier(g, entry, [], [entry]) && Known(g, entry, [entry])
  {
    ReachSelf(g, entry);
    hide Reach;
  }

  lemma Started(g: Graph, entry: Node, discovered: seq<Node>)
    requires Frontier(g, entry, discovered, [])
    ensures discovered != [] && Distinct(discovered)
  {
  }

  lemma Named(g: Graph, entry: Node, queue: seq<Node>)
    requires Known(g, entry, queue) && entry != "" && "" !in Vertices(g)
    ensures "" !in queue
  {
    hide Vertices;
  }
}
