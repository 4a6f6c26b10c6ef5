/** One genuine cycle of a component, by a second depth-first search. */
module CycleWitness {
  import opened Basics
  import opened ModuleGraph
  import opened ImportCycles

  // ----- one real cycle of a component

  ghost predicate SimpleCycle(g: Graph, inside: set<Node>, w: seq<Node>) {
    && |w| >= 2
    && w[0] == w[|w| - 1]
    && Distinct(w[..|w| - 1])
    && (forall i :: 0 <= i < |w| ==> w[i] in inside)
    && (forall i :: 0 <= i < |w| - 1 ==> Linked(g, w, i))
  }

  ghost predicate Linked(g: Graph, w: seq<Node>, i: nat)
    requires i + 1 < |w|
  {
    Edge(g, w[i], w[i + 1])
  }

  /** `f` lists finished nodes so that each leads, inside the component, only to earlier ones. */
  ghost predicate FinishOrder(g: Graph, inside: set<Node>, f: seq<Node>) {
    && Distinct(f)
    && (forall i, w {:trigger Edge(g, f[i], w)} :: 0 <= i < |f| && w in inside && Edge(g, f[i], w) ==> w in f[..i])
  }

  ghost predicate SearchOk(g: Graph, inside: set<Node>, path: seq<Node>, visited: set<Node>, f: seq<Node>) {
    && visited == Members(path) + Members(f)
    && Members(path) !! Members(f)
    && Distinct(path)
    && visited <= inside
    && (forall i {:trigger Linked(g, path, i)} :: 0 <= i < |path| - 1 ==> Linked(g, path, i))
    && FinishOrder(g, inside, f)
  }

  lemma EnterKeepsOk(g: Graph, inside: set<Node>, path: seq<Node>, visited: set<Node>, f: seq<Node>, node: Node)
    requires SearchOk(g, inside, path, visited, f) && node in inside && node !in visited
    requires path != [] ==> Edge(g, path[|path| - 1], node)
    ensures SearchOk(g, inside, path + [node], visited + {node}, f)
  {
    var p := path + [node];
    assert Members(p) == Members(path) + {node};
    forall i | 0 <= i < |p| - 1 ensures Linked(g, p, i) {
      if i < |path| - 1 {
        assert Linked(g, path, i);
      }
    }
  }

  lemma ExitKeepsOk(g: Graph, inside: set<Node>, path: seq<Node>, visited: set<Node>, f: seq<Node>, node: Node)
    requires SearchOk(g, inside, path + [node], visited, f)
    requires forall w :: w in inside && Edge(g, node, w) ==> w in f
    ensures SearchOk(g, inside, path, visited, f + [node])
  {
    var p := path + [node];
    assert Members(p) == Members(path) + {node};
    assert Members(f + [node]) == Members(f) + {node};
    FinishNext(g, inside, f, node);
    assert p[|path|] == node && p[..|path|] == path;
    assert node !in path;
    forall i | 0 <= i < |path| - 1 ensures Linked(g, path, i) {
      assert Linked(g, p, i);
    }
  }

  class WitnessSearch {
    const graph: Graph
    const componentSet: set<Node>
    var activePath: seq<Node>
    var visited: set<Node>
    ghost var finished: seq<Node>

    ghost predicate Valid()
      reads this
    {
      SearchOk(graph, componentSet, activePath, visited, finished)
    }

    constructor (graph: Graph, component: seq<Node>)
      ensures this.graph == graph && componentSet == Members(component)
      ensures Valid() && activePath == [] && visited == {} && finished == []
    {
      this.graph := graph;
      componentSet := set v | v in component;
      activePath, visited, finished := [], {}, [];
    }

    method Visit(node: Node) returns (r: Option<seq<Node>>)
      requires Valid() && node in componentSet && node !in visited
      requires activePath != [] ==> Edge(graph, activePath[|activePath| - 1], node)
      modifies this
      ensures r.Some? ==> SimpleCycle(graph, componentSet, r.value)
      ensures r.Some? ==> Reach(Induced(graph, componentSet), (old(activePath) + [node])[0], r.value[0])
      ensures r.None? ==> Valid() && activePath == old(activePath)
      ensures r.None? ==> old(finished) <= finished && node in finished && old(visited) <= visited
      decreases componentSet - visited
    {
      hide SearchOk, SimpleCycle, Reach;
      EnterKeepsOk(graph, componentSet, activePath, visited, finished, node);
      activePath := activePath + [node];
      visited := visited + {node};
      ghost var path := activePath;
      var imports := Succ(graph, node);
      for i := 0 to |imports|
        invariant Valid() && activePath == path && old(finished) <= finished
        invariant old(visited) + {node} <= visited
        invariant forall j :: 0 <= j < i && imports[j] in componentSet ==> imports[j] in finished
      {
        var next := imports[i];
        if next !in componentSet {
          continue;
        }
        var existingIndex := Find(activePath, next);
        if existingIndex >= 0 {
          assert Edge(graph, node, next);
          CloseCycle(graph, componentSet, activePath, visited, finished, existingIndex, next);
          return Some(activePath[existingIndex..] + [next]);
        }
        if next !in visited {
          assert Edge(graph, node, next);
          var result := Visit(next);
          if result.Some? {
            assert (path + [next])[0] == path[0];
            return result;
          }
        } else {
          VisitedSplit(graph, componentSet, activePath, visited, finished, next);
        }
      }
      assert path[..|path| - 1] + [node] == path;
      ExitKeepsOk(graph, componentSet, path[..|path| - 1], visited, finished, node);
      activePath := activePath[..|activePath| - 1];
      finished := finished + [node];
      assert activePath == old(activePath);
      return None;
    }
  }

  lemma VisitedSplit(g: Graph, inside: set<Node>, path: seq<Node>, visited: set<Node>, f: seq<Node>, v: Node)
    requires SearchOk(g, inside, path, visited, f) && v in visited
    ensures v in path || v in f
  {
    assert v in Members(path) + Members(f);
  }

  lemma CloseCycle(g: Graph, inside: set<Node>, path: seq<Node>, visited: set<Node>, f: seq<Node>, k: nat, next: Node)
    requires SearchOk(g, inside, path, visited, f)
    requires k < |path| && path[k] == next && Edge(g, path[|path| - 1], next)
    ensures SimpleCycle(g, inside, path[k..] + [next])
    ensures Reach(Induced(g, inside), path[0], (path[k..] + [next])[0])
  {
    var w := path[k..] + [next];
    assert w[..|w| - 1] == path[k..];
    forall i | 0 <= i < |path| ensures path[i] in inside {
      assert path[i] in Members(path);
    }
    forall i | 0 <= i < |w| - 1 ensures Linked(g, w, i) {
      if i < |w| - 2 {
        assert Linked(g, path, k + i);
      }
    }
    PathReaches(g, inside, path, 0, k);
  }

  lemma {:induction false} PathReaches(g: Graph, inside: set<Node>, path: seq<Node>, j: nat, k: nat)
    requires j <= k < |path| && (forall i :: 0 <= i < |path| ==> path[i] in inside)
    requires forall i :: j <= i < k ==> Linked(g, path, i)
    ensures Reach(Induced(g, inside), path[j], path[k])
  {
    if j == k {
      ReachSelf(Induced(g, inside), path[j]);
    } else {
      PathReaches(g, inside, path, j, k - 1);
      assert Linked(g, path, k - 1);
      ReachStep(Induced(g, inside), path[j], path[k - 1], path[k]);
    }
  }

  lemma CycleIsAhead(g: Graph, component: seq<Node>, start: Node, w: seq<Node>)
    requires SimpleCycle(g, Members(component), w)
    requires Reach(Induced(g, Members(component)), start, w[0])
    ensures CycleAhead(g, component, start)
  {
    var h := Induced(g, Members(component));
    assert Linked(g, w, 0);
    assert Edge(h, w[0], w[1]);
    PathReaches(g, Members(component), w, 1, |w| - 1);
    assert OnCycle(h, w[0]);
  }

  lemma FinishNext(g: Graph, inside: set<Node>, f: seq<Node>, node: Node)
    requires FinishOrder(g, inside, f) && node !in f
    requires forall w :: w in inside && Edge(g, node, w) ==> w in f
    ensures FinishOrder(g, inside, f + [node])
  {
    var f' := f + [node];
    forall i, w | 0 <= i < |f'| && w in inside && Edge(g, f'[i], w) ensures w in f'[..i] {
      assert f'[..i] == f[..i];
      if i == |f| {
        assert f[..i] == f;
      }
    }
  }

  /** The graph cut down to the component: only imports from a member to a member. */
  function Induced(g: Graph, inside: set<Node>): Graph {
    map k | k in g && k in inside :: KeepInside(g[k], inside)
  }

  function KeepInside(s: seq<Node>, inside: set<Node>): (r: seq<Node>)
    ensures forall w :: w in r <==> w in s && w in inside
  {
    if s == [] then []
    else if s[0] in inside then [s[0]] + KeepInside(s[1..], inside)
    else KeepInside(s[1..], inside)
  }

  lemma FinishedClosed(g: Graph, inside: set<Node>, f: seq<Node>, n: nat)
    requires FinishOrder(g, inside, f) && n <= |f|
    ensures Closed(Induced(g, inside), Members(f[..n]))
  {
    forall x, y | x in f[..n] && Edge(Induced(g, inside), x, y) ensures y in f[..n] {
      var i :| 0 <= i < n && f[i] == x;
      assert Edge(g, f[i], y);
      assert f[..n][..i] == f[..i];
    }
  }

  lemma FinishedHasNoCycle(g: Graph, inside: set<Node>, f: seq<Node>, start: Node, v: Node)
    requires FinishOrder(g, inside, f) && start in f && Reach(Induced(g, inside), start, v)
    ensures !OnCycle(Induced(g, inside), v)
  {
    var h := Induced(g, inside);
    assert f[..|f|] == f;
    FinishedClosed(g, inside, f, |f|);
    ReachStaysInClosed(h, Members(f), start, v);
    var i :| 0 <= i < |f| && f[i] == v;
    FinishedClosed(g, inside, f, i);
    forall w | Edge(h, v, w) ensures !Reach(h, w, v) {
      assert Edge(g, f[i], w);
      if Reach(h, w, v) {
        ReachStaysInClosed(h, Members(f[..i]), w, v);
      }
    }
  }

  lemma ReportableLeadsInside(g: Graph, c: seq<Node>, v: Node) returns (w: Node)
    requires Reportable(g, c) && v in c
    ensures w in c && Edge(g, v, w)
  {
    NontrivialIsOnCycle(g, c, v);
    w :| Edge(g, v, w) && Reach(g, w, v);
    ReachEdge(g, v, w);
    assert Mutual(g, v, w) && v in Members(c);
    assert w in Members(c);
  }

  lemma FinishedNotReportable(g: Graph, c: seq<Node>, f: seq<Node>)
    requires FinishOrder(g, Members(c), f) && f != [] && f[0] in c
    ensures !Reportable(g, c)
  {
    if Reportable(g, c) {
      var w := ReportableLeadsInside(g, c, f[0]);
    }
  }

  /** Some cycle inside the component can be reached, inside it, from `start`. */
  ghost predicate CycleAhead(g: Graph, component: seq<Node>, start: Node) {
    exists v :: Reach(Induced(g, Members(component)), start, v) && OnCycle(Induced(g, Members(component)), v)
  }

  lemma NoCycleAhead(g: Graph, component: seq<Node>, start: Node, f: seq<Node>)
    requires FinishOrder(g, Members(component), f) && start in f
    ensures !CycleAhead(g, component, start)
  {
    forall v | Reach(Induced(g, Members(component)), start, v) ensures !OnCycle(Induced(g, Members(component)), v) {
      FinishedHasNoCycle(g, Members(component), f, start, v);
    }
  }

  /** The fall-back to the component itself is taken exactly when no cycle lies ahead of its first
      node, and so never for a reported component. */
  method FindCycleWitness(component: seq<Node>, graph: Graph) returns (w: seq<Node>)
    ensures component == [] || component[0] == "" ==> w == []
    ensures component != [] && component[0] != "" && CycleAhead(graph, component, component[0]) ==>
        SimpleCycle(graph, Members(component), w)
    ensures component != [] && component[0] != "" && !CycleAhead(graph, component, component[0]) ==> w == component
    ensures Reportable(graph, component) && "" !in component ==> SimpleCycle(graph, Members(component), w)
  {
    if component == [] || component[0] == "" {
      return [];
    }
    var start := component[0];
    var search := new WitnessSearch(graph, component);
    var found := search.Visit(start);
    if found.Some? {
      CycleIsAhead(graph, component, start, found.value);
      return found.value;
    }
    w := component;
    NoCycleAhead(graph, component, start, search.finished);
    assert search.finished[0] in Members(search.finished);
    FinishedNotReportable(graph, component, search.finished);
  }

  // ----- the whole check

  /** What a listed component offers the witness search: it is reportable, and none of its names is empty. */
  lemma ListedIsReportable(g: Graph, components: seq<seq<Node>>, i: nat)
    requires ReportsExactly(g, components) && i < |components| && "" !in Vertices(g)
    ensures Reportable(g, components[i]) && "" !in components[i]
  {
    var c := components[i];
    assert ListedComponent(components, Members(c));
    var v :| v in Members(c) && OnCycle(g, v);
    CycleMakesNontrivial(g, c, v);
    if "" in c {
      assert "" in Members(c);
      NontrivialIsOnCycle(g, c, "");
    }
  }

  /** One witness for each component the check reports. */
  ghost predicate WitnessesOf(g: Graph, components: seq<seq<Node>>, witnesses: seq<seq<Node>>) {
    |witnesses| == |components| && forall i :: 0 <= i < |components| ==> SimpleCycle(g, Members(components[i]), witnesses[i])
  }

  /** The report of a whole graph. */
  datatype Report = Cycles(components: seq<seq<Node>>, witnesses: seq<seq<Node>>) | StackUnderflow

  /** The check passes exactly when no file lies on a cycle; otherwise it shows, for each set of files that
      import each other and for no other, one cycle that runs inside the set. */
  method CheckImportCycles(graph: Graph, keys: seq<Node>) returns (r: Report)
    requires Members(keys) == graph.Keys
    ensures r.StackUnderflow? <==> "" in Vertices(graph)
    ensures r.Cycles? ==> ReportsExactly(graph, r.components) && WitnessesOf(graph, r.components, r.witnesses)
    ensures r.Cycles? ==> (r.components == [] <==> Acyclic(graph))
  {
    hide ReportsExactly, Acyclic, Vertices, SimpleCycle, CycleAhead, Reportable;
    var found := CollectStronglyConnectedComponents(graph, keys);
    if found.Underflow? {
      return StackUnderflow;
    }
    var witnesses: seq<seq<Node>> := [];
    for i := 0 to |found.value|
      invariant |witnesses| == i
      invariant forall j :: 0 <= j < i ==> SimpleCycle(graph, Members(found.value[j]), witnesses[j])
    {
      ListedIsReportable(graph, found.value, i);
      var w := FindCycleWitness(found.value[i], graph);
      witnesses := witnesses + [w];
    }
    return Cycles(found.value, witnesses);
  }
}
