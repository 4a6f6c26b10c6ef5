/** The cycle check: strongly connected components of the import graph by Tarjan's algorithm. */
module ImportCycles {
  import opened Basics
  import opened ModuleGraph

  /** The search state as a value, so that what a step keeps can be stated and proved by lemmas.
      `active` holds the nodes whose visit has begun and not ended. */
  datatype Search = Search(
    index: map<Node, nat>,
    next: nat,
    stack: seq<Node>,
    onStack: set<Node>,
    active: set<Node>,
    components: seq<seq<Node>>)

  ghost predicate SameNumber(index: map<Node, nat>, v: Node, w: Node) {
    v in index && w in index && index[v] == index[w]
  }

  ghost predicate WellNumbered(g: Graph, s: Search) {
    && s.index.Keys <= Vertices(g)
    && |s.index| == s.next
    && (forall v :: v in s.index ==> s.index[v] < s.next)
    && (forall v, w {:trigger SameNumber(s.index, v, w)} :: SameNumber(s.index, v, w) ==> v == w)
  }

  ghost predicate Below(index: map<Node, nat>, stack: seq<Node>, i: nat, j: nat)
    requires i < |stack| && j < |stack|
  {
    stack[i] in index && stack[j] in index && index[stack[i]] < index[stack[j]]
  }

  ghost predicate WellStacked(s: Search) {
    && s.onStack == (set v | v in s.stack)
    && s.onStack <= s.index.Keys
    && s.active <= s.onStack
    && (forall i, j {:trigger Below(s.index, s.stack, i, j)} :: 0 <= i < j < |s.stack| ==> Below(s.index, s.stack, i, j))
  }

  /** A node whose visit ended leads only to visited nodes. */
  ghost predicate Explored(g: Graph, s: Search) {
    forall v, w :: v in s.index && v !in s.active && Edge(g, v, w) ==> w in s.index
  }

  ghost predicate Retired(s: Search, v: Node) {
    v in s.index && v !in s.onStack
  }

  /** A node that left the stack leads only to nodes that left the stack, and is not the empty string. */
  ghost predicate RetiredClosed(g: Graph, s: Search) {
    && (forall v, w :: Retired(s, v) && Edge(g, v, w) ==> Retired(s, w))
    && !Retired(s, "")
  }

  ghost predicate ActiveReachesUp(g: Graph, s: Search)
    requires WellStacked(s)
  {
    forall x, y {:trigger Reach(g, x, y)} :: x in s.active && y in s.onStack && s.index[x] <= s.index[y] ==> Reach(g, x, y)
  }

  ghost predicate FallsBackTo(g: Graph, s: Search, y: Node, x: Node)
    requires WellStacked(s) && y in s.onStack
  {
    x in s.active && s.index[x] <= s.index[y] && Reach(g, y, x)
  }

  ghost predicate FallsBack(g: Graph, s: Search, y: Node)
    requires WellStacked(s) && y in s.onStack
  {
    exists x :: FallsBackTo(g, s, y, x)
  }

  /** From every stacked node the search can return to an active node numbered no higher. */
  ghost predicate StackFallsBack(g: Graph, s: Search)
    requires WellStacked(s)
  {
    forall y {:trigger FallsBack(g, s, y)} :: y in s.onStack ==> FallsBack(g, s, y)
  }

  function Members(c: seq<Node>): set<Node> {
    set v | v in c
  }

  /** What is reported of a component: it has two members, or its one member imports itself. */
  ghost predicate Nontrivial(g: Graph, c: seq<Node>) {
    |c| > 1 || (|c| == 1 && c[0] in Succ(g, c[0]))
  }

  ghost predicate Reportable(g: Graph, c: seq<Node>) {
    Distinct(c) && IsComponent(g, Members(c)) && Nontrivial(g, c)
  }

  ghost predicate Listed(components: seq<seq<Node>>, v: Node) {
    exists i :: 0 <= i < |components| && v in components[i]
  }

  ghost predicate PairwiseDisjoint(components: seq<seq<Node>>) {
    forall i, j, v :: 0 <= i < j < |components| && v in components[i] ==> v !in components[j]
  }

  ghost predicate Reported(g: Graph, s: Search) {
    && (forall i :: 0 <= i < |s.components| ==> Reportable(g, s.components[i]))
    && PairwiseDisjoint(s.components)
    && (forall v {:trigger Listed(s.components, v)} :: Listed(s.components, v) ==> Retired(s, v))
    && (forall v {:trigger OnCycle(g, v)} :: Retired(s, v) && OnCycle(g, v) ==> Listed(s.components, v))
  }

  ghost predicate Inv(g: Graph, s: Search) {
    && WellNumbered(g, s)
    && WellStacked(s)
    && Explored(g, s)
    && RetiredClosed(g, s)
    && ActiveReachesUp(g, s)
    && StackFallsBack(g, s)
    && Reported(g, s)
  }

  /** t is s after some visits that began and ended: what was visited and stacked before stays. */
  ghost predicate Extends(s: Search, t: Search) {
    && s.index.Keys <= t.index.Keys
    && (forall v :: v in s.index ==> t.index[v] == s.index[v])
    && (forall v :: v in t.index && v !in s.index ==> s.next <= t.index[v])
    && s.next <= t.next
    && s.stack <= t.stack
    && (forall v :: v in s.index ==> (v in t.onStack <==> v in s.onStack))
    && s.active == t.active
  }

  /** An edge from the part of the stack numbered k or more to the part below never goes under `low`. */
  ghost predicate EdgesBounded(g: Graph, s: Search, k: nat, low: nat)
    requires WellStacked(s)
  {
    forall x, y :: x in s.onStack && k <= s.index[x] && y in s.onStack && s.index[y] < k && Edge(g, x, y) ==>
        low <= s.index[y]
  }

  ghost predicate LowWitness(g: Graph, s: Search, node: Node, low: nat, y: Node)
    requires WellStacked(s)
  {
    y in s.onStack && s.index[y] == low && Reach(g, node, y)
  }

  // ----- entering a node

  ghost function Push(s: Search, node: Node): Search {
    s.(index := s.index[node := s.next], next := s.next + 1, stack := s.stack + [node],
       onStack := s.onStack + {node}, active := s.active + {node})
  }

  lemma PushKeepsStack(g: Graph, s: Search, node: Node)
    requires WellNumbered(g, s) && WellStacked(s) && node in Vertices(g) && node !in s.index
    ensures WellNumbered(g, Push(s, node)) && WellStacked(Push(s, node))
  {
    var t := Push(s, node);
    forall v, w | SameNumber(t.index, v, w) ensures v == w {
      assert v in s.index && w in s.index ==> SameNumber(s.index, v, w);
    }
    forall i, j | 0 <= i < j < |t.stack| ensures Below(t.index, t.stack, i, j) {
      assert t.stack[i] == s.stack[i] && s.stack[i] in s.onStack;
      if j < |s.stack| {
        assert Below(s.index, s.stack, i, j);
      }
    }
  }

  lemma PushKeepsReach(g: Graph, s: Search, node: Node)
    requires WellStacked(s) && ActiveReachesUp(g, s) && node !in s.index && WellStacked(Push(s, node))
    requires forall v :: v in s.index ==> s.index[v] < s.next
    requires forall a :: a in s.active ==> Reach(g, a, node)
    ensures ActiveReachesUp(g, Push(s, node))
  {
    ReachSelf(g, node);
  }

  lemma PushKeepsFallsBack(g: Graph, s: Search, node: Node)
    requires WellStacked(s) && StackFallsBack(g, s) && node !in s.index && WellStacked(Push(s, node))
    ensures StackFallsBack(g, Push(s, node))
  {
    var t := Push(s, node);
    ReachSelf(g, node);
    forall y | y in t.onStack ensures FallsBack(g, t, y) {
      if y == node {
        assert FallsBackTo(g, t, node, node);
      } else {
        assert FallsBack(g, s, y);
        var x :| FallsBackTo(g, s, y, x);
        assert FallsBackTo(g, t, y, x);
      }
    }
  }

  lemma PushKeepsInv(g: Graph, s: Search, node: Node)
    requires Inv(g, s) && node in Vertices(g) && node !in s.index
    requires forall a :: a in s.active ==> Reach(g, a, node)
    ensures Inv(g, Push(s, node))
  {
    PushKeepsStack(g, s, node);
    PushKeepsReach(g, s, node);
    PushKeepsFallsBack(g, s, node);
    assert forall v :: Retired(Push(s, node), v) <==> Retired(s, v);
  }

  // ----- leaving a node that stays on the stack

  ghost function Leave(s: Search, node: Node): Search {
    s.(active := s.active - {node})
  }

  lemma LeaveKeepsFallsBack(g: Graph, s: Search, node: Node, y: Node)
    requires WellStacked(s) && StackFallsBack(g, s) && node in s.active
    requires y in s.onStack && s.index[y] < s.index[node] && Reach(g, node, y)
    ensures WellStacked(Leave(s, node)) && StackFallsBack(g, Leave(s, node))
  {
    var t := Leave(s, node);
    assert FallsBack(g, s, y);
    var x' :| FallsBackTo(g, s, y, x');
    ReachTrans(g, node, y, x');
    forall z | z in t.onStack ensures FallsBack(g, t, z) {
      assert FallsBack(g, s, z);
      var x :| FallsBackTo(g, s, z, x);
      if x == node {
        ReachTrans(g, z, node, x');
        assert FallsBackTo(g, t, z, x');
      } else {
        assert FallsBackTo(g, t, z, x);
      }
    }
  }

  lemma LeaveKeepsInv(g: Graph, s: Search, node: Node, y: Node)
    requires Inv(g, s) && node in s.active
    requires forall w :: Edge(g, node, w) ==> w in s.index
    requires y in s.onStack && s.index[y] < s.index[node] && Reach(g, node, y)
    ensures Inv(g, Leave(s, node))
  {
    LeaveKeepsFallsBack(g, s, node, y);
    assert forall v :: Retired(Leave(s, node), v) <==> Retired(s, v);
  }

  // ----- leaving the root of a component

  /** The part of the stack numbered k or more. */
  ghost function Segment(s: Search, k: nat): set<Node>
    requires WellStacked(s)
  {
    set v | v in s.onStack && k <= s.index[v]
  }

  ghost function Gone(s: Search): set<Node> {
    set v | v in s.index && Retired(s, v)
  }

  /** When no edge of the segment goes below it, the segment and what left the stack are closed. */
  lemma SegmentClosed(g: Graph, s: Search, node: Node)
    requires WellStacked(s) && Explored(g, s) && RetiredClosed(g, s)
    requires node in s.active && EdgesBounded(g, s, s.index[node], s.index[node])
    requires forall a :: a in s.active && s.index[node] <= s.index[a] ==> a == node
    requires forall w :: Edge(g, node, w) ==> w in s.index
    ensures Closed(g, Gone(s)) && Closed(g, Segment(s, s.index[node]) + Gone(s))
  {
  }

  /** Each node of the segment and its root reach each other. */
  lemma SegmentMeetsRoot(g: Graph, s: Search, node: Node, z: Node)
    requires WellStacked(s) && ActiveReachesUp(g, s) && StackFallsBack(g, s)
    requires node in s.active && z in Segment(s, s.index[node])
    requires forall a :: a in s.active && s.index[node] <= s.index[a] ==> a == node
    requires Closed(g, Segment(s, s.index[node]) + Gone(s))
    ensures Mutual(g, z, node)
  {
    assert FallsBack(g, s, z);
    var x :| FallsBackTo(g, s, z, x);
    ReachStaysInClosed(g, Segment(s, s.index[node]) + Gone(s), z, x);
  }

  lemma SegmentIsMaximal(g: Graph, s: Search, k: nat, x: Node, y: Node)
    requires WellStacked(s) && Closed(g, Gone(s)) && Closed(g, Segment(s, k) + Gone(s))
    requires x in Segment(s, k) && Mutual(g, x, y)
    ensures y in Segment(s, k)
  {
    ReachStaysInClosed(g, Segment(s, k) + Gone(s), x, y);
    if y in Gone(s) {
      ReachStaysInClosed(g, Gone(s), y, x);
    }
  }

  lemma SegmentIsComponent(g: Graph, s: Search, node: Node)
    requires WellStacked(s) && Explored(g, s) && RetiredClosed(g, s) && ActiveReachesUp(g, s) && StackFallsBack(g, s)
    requires node in s.active && EdgesBounded(g, s, s.index[node], s.index[node])
    requires forall a :: a in s.active && s.index[node] <= s.index[a] ==> a == node
    requires forall w :: Edge(g, node, w) ==> w in s.index
    ensures IsComponent(g, Segment(s, s.index[node]))
  {
    var seg := Segment(s, s.index[node]);
    SegmentClosed(g, s, node);
    assert node in seg;
    forall x, y | x in seg && y in seg ensures Reach(g, x, y) {
      SegmentMeetsRoot(g, s, node, x);
      SegmentMeetsRoot(g, s, node, y);
      ReachTrans(g, x, node, y);
    }
    forall x, y | x in seg && Mutual(g, x, y) ensures y in seg {
      SegmentIsMaximal(g, s, s.index[node], x, y);
    }
  }

  lemma CycleMakesNontrivial(g: Graph, c: seq<Node>, v: Node)
    requires IsComponent(g, Members(c)) && v in c && OnCycle(g, v)
    ensures Nontrivial(g, c)
  {
    var w :| Edge(g, v, w) && Reach(g, w, v);
    ReachEdge(g, v, w);
    assert Mutual(g, v, w);
    assert w in Members(c);
    if |c| == 1 {
      assert v == c[0] && w == c[0];
    }
  }

  lemma NontrivialIsOnCycle(g: Graph, c: seq<Node>, v: Node)
    requires Reportable(g, c) && v in c
    ensures OnCycle(g, v)
  {
    if |c| == 1 {
      ReachSelf(g, v);
      assert Edge(g, v, v) && Reach(g, v, v);
    } else {
      var i :| 0 <= i < |c| && c[i] == v;
      var u := if i == 0 then c[1] else c[0];
      assert u in Members(c) && v in Members(c);
      var via :| Walk(g, v, via, u);
      assert Edge(g, v, via[0]) && Walk(g, via[0], via[1..], u);
      ReachTrans(g, via[0], u, v);
    }
  }

  ghost function Retire(s: Search, node: Node, base: nat, components: seq<seq<Node>>): Search
    requires base <= |s.stack|
  {
    s.(stack := s.stack[..base], onStack := s.onStack - Members(s.stack[base..]),
       active := s.active - {node}, components := components)
  }

  lemma SegmentIsSuffix(s: Search, node: Node, base: nat)
    requires WellStacked(s) && base < |s.stack| && s.stack[base] == node
    requires node in s.index
    ensures Segment(s, s.index[node]) == Members(s.stack[base..])
    ensures s.onStack - Members(s.stack[base..]) == Members(s.stack[..base])
  {
    forall i | 0 <= i < |s.stack| ensures s.stack[i] in s.onStack && (s.index[node] <= s.index[s.stack[i]] <==> base <= i) {
      if i < base {
        assert Below(s.index, s.stack, i, base);
      } else if base < i {
        assert Below(s.index, s.stack, base, i);
      }
    }
    forall v | v in s.onStack ensures v in s.stack[base..] <==> s.index[node] <= s.index[v] {
      var i :| 0 <= i < |s.stack| && s.stack[i] == v;
    }
    forall v | v in s.onStack ensures v in s.stack[..base] <==> s.index[v] < s.index[node] {
      var i :| 0 <= i < |s.stack| && s.stack[i] == v;
    }
  }

  /** What an emptied segment leaves behind. */
  lemma RetireKeepsStack(g: Graph, s: Search, node: Node, base: nat, components: seq<seq<Node>>)
    requires WellNumbered(g, s) && WellStacked(s) && node in s.active
    requires base < |s.stack| && s.stack[base] == node
    requires forall a :: a in s.active && s.index[node] <= s.index[a] ==> a == node
    ensures var t := Retire(s, node, base, components);
      WellNumbered(g, t) && WellStacked(t) && t.onStack == s.onStack - Segment(s, s.index[node])
  {
    SegmentIsSuffix(s, node, base);
    var t := Retire(s, node, base, components);
    forall i, j | 0 <= i < j < |t.stack| ensures Below(t.index, t.stack, i, j) {
      assert Below(s.index, s.stack, i, j);
    }
  }

  lemma RetireKeepsReach(g: Graph, s: Search, t: Search, node: Node)
    requires WellStacked(s) && WellStacked(t) && ActiveReachesUp(g, s) && StackFallsBack(g, s) && node in s.active
    requires t.index == s.index && t.active == s.active - {node} && t.onStack == s.onStack - Segment(s, s.index[node])
    ensures ActiveReachesUp(g, t) && StackFallsBack(g, t)
  {
    forall y | y in t.onStack ensures FallsBack(g, t, y) {
      assert FallsBack(g, s, y);
      var x :| FallsBackTo(g, s, y, x);
      assert FallsBackTo(g, t, y, x);
    }
  }

  lemma RetireKeepsClosed(g: Graph, s: Search, t: Search, node: Node)
    requires WellStacked(s) && Explored(g, s) && RetiredClosed(g, s) && node in s.active
    requires EdgesBounded(g, s, s.index[node], s.index[node])
    requires forall a :: a in s.active && s.index[node] <= s.index[a] ==> a == node
    requires forall w :: Edge(g, node, w) ==> w in s.index
    requires t.index == s.index && t.active == s.active - {node} && t.onStack == s.onStack - Segment(s, s.index[node])
    requires "" !in Segment(s, s.index[node])
    ensures Explored(g, t) && RetiredClosed(g, t)
  {
    SegmentClosed(g, s, node);
    assert forall v :: Retired(t, v) <==> v in Segment(s, s.index[node]) + Gone(s);
  }

  /** Popping the segment of `node` keeps the invariant, with `popped` reported exactly when it is non-trivial. */
  lemma RetireKeepsInv(g: Graph, s: Search, node: Node, base: nat, popped: seq<Node>, components: seq<seq<Node>>)
    requires Inv(g, s) && node in s.active && EdgesBounded(g, s, s.index[node], s.index[node])
    requires forall a :: a in s.active && s.index[node] <= s.index[a] ==> a == node
    requires forall w :: Edge(g, node, w) ==> w in s.index
    requires base < |s.stack| && s.stack[base] == node
    requires Distinct(popped) && Members(popped) == Members(s.stack[base..]) && "" !in popped
    requires components == if Nontrivial(g, popped) then s.components + [popped] else s.components
    ensures Inv(g, Retire(s, node, base, components))
  {
    var t := Retire(s, node, base, components);
    SegmentIsSuffix(s, node, base);
    assert forall v :: v in popped <==> v in Members(popped);
    RetireKeepsStack(g, s, node, base, components);
    RetireKeepsReach(g, s, t, node);
    RetireKeepsClosed(g, s, t, node);
    SegmentIsComponent(g, s, node);
    RetireReports(g, s, t, popped);
  }

  lemma RetireReports(g: Graph, s: Search, t: Search, popped: seq<Node>)
    requires Reported(g, s) && IsComponent(g, Members(popped)) && Distinct(popped)
    requires t.components == if Nontrivial(g, popped) then s.components + [popped] else s.components
    requires forall v :: Retired(t, v) <==> Retired(s, v) || v in popped
    requires forall v :: v in popped ==> !Retired(s, v)
    ensures Reported(g, t)
  {
    var n := |s.components|;
    forall v ensures Listed(t.components, v) <==> Listed(s.components, v) || (Nontrivial(g, popped) && v in popped) {
      if Listed(s.components, v) {
        var i :| 0 <= i < n && v in s.components[i];
        assert v in t.components[i];
      }
      if Nontrivial(g, popped) && v in popped {
        assert v in t.components[n];
      }
    }
    forall i, j, v | 0 <= i < j < |t.components| && v in t.components[i] ensures v !in t.components[j] {
      if j == n {
        assert v in s.components[i];
        assert Listed(s.components, v);
      }
    }
    forall v | Retired(t, v) && OnCycle(g, v) ensures Listed(t.components, v) {
      if v in popped {
        CycleMakesNontrivial(g, popped, v);
      }
    }
  }

  // ----- scanning the imports of a node

  ghost predicate LowReached(g: Graph, s: Search, node: Node, low: nat)
    requires WellStacked(s)
  {
    exists y :: LowWitness(g, s, node, low, y)
  }

  /** What the visit of `node` has told its caller about `low`, from s before it to t after it. */
  ghost predicate Visited(g: Graph, s: Search, t: Search, node: Node, low: nat)
    requires WellStacked(t)
  {
    && node in t.index && t.index[node] == s.next
    && EdgesBounded(g, t, s.next, low)
    && (if node in t.onStack then low < s.next && LowReached(g, t, node, low)
        else low == s.next && t.stack == s.stack)
  }

  /** An edge from strictly above the node numbered k to strictly below it never goes under `low`. */
  ghost predicate AboveBounded(g: Graph, s: Search, k: nat, low: nat)
    requires WellStacked(s)
  {
    forall x, y :: x in s.onStack && k < s.index[x] && y in s.onStack && s.index[y] < k && Edge(g, x, y) ==>
        low <= s.index[y]
  }

  ghost predicate EdgeScanned(s: Search, k: nat, low: nat, w: Node)
    requires WellStacked(s)
  {
    w in s.index && (w in s.onStack && s.index[w] < k ==> low <= s.index[w])
  }

  /** The visit of `node`, begun at s0, has looked at the first i of its imports. */
  ghost predicate Scanned(g: Graph, s0: Search, s: Search, node: Node, i: nat, low: nat)
    requires i <= |Succ(g, node)|
  {
    && Inv(g, s)
    && Extends(s0, s)
    && node in s0.active && node in s0.index && s0.index[node] + 1 == s0.next
    && low <= s0.index[node]
    && LowReached(g, s, node, low)
    && AboveBounded(g, s, s0.index[node], low)
    && (forall j :: 0 <= j < i ==> EdgeScanned(s, s0.index[node], low, Succ(g, node)[j]))
  }

  lemma ScanStart(g: Graph, s: Search, node: Node)
    requires Inv(g, s) && node in Vertices(g) && node !in s.index
    requires forall a :: a in s.active ==> Reach(g, a, node)
    ensures var t := Push(s, node); Scanned(g, t, t, node, 0, s.next)
  {
    var t := Push(s, node);
    PushKeepsInv(g, s, node);
    ReachSelf(g, node);
    assert LowWitness(g, t, node, s.next, node);
  }

  lemma ScanKnown(g: Graph, s0: Search, s: Search, node: Node, i: nat, low: nat, low': nat)
    requires i < |Succ(g, node)| && Scanned(g, s0, s, node, i, low)
    requires var w := Succ(g, node)[i];
      w in s.index && low' == if w in s.onStack && s.index[w] < low then s.index[w] else low
    ensures Scanned(g, s0, s, node, i + 1, low')
  {
    var w := Succ(g, node)[i];
    if low' < low {
      ReachEdge(g, node, w);
      assert LowWitness(g, s, node, low', w);
    }
    assert AboveBounded(g, s, s0.index[node], low');
    forall j | 0 <= j < i + 1 ensures EdgeScanned(s, s0.index[node], low', Succ(g, node)[j]) {
      if j < i {
        assert EdgeScanned(s, s0.index[node], low, Succ(g, node)[j]);
      }
    }
  }

  lemma ExtendsTrans(s: Search, t: Search, u: Search)
    requires Extends(s, t) && Extends(t, u)
    ensures Extends(s, u)
  {
  }

  lemma ActiveReach(g: Graph, u: Search, a: Node, node: Node, w: Node)
    requires WellStacked(u) && ActiveReachesUp(g, u) && a in u.active && node in u.active
    requires u.index[a] <= u.index[node] && Edge(g, node, w)
    ensures Reach(g, a, w)
  {
    assert Reach(g, a, node);
    ReachStep(g, a, node, w);
  }

  /** When a child is to be visited, it is a vertex and every active node reaches it. */
  lemma ActiveReachChild(g: Graph, s: Search, s0: Search, u: Search, node: Node, child: Node)
    requires WellStacked(s) && WellNumbered(g, s) && node !in s.index && s0 == Push(s, node)
    requires WellStacked(u) && ActiveReachesUp(g, u) && Extends(s0, u) && Edge(g, node, child)
    ensures child in Vertices(g)
    ensures forall a :: a in u.active ==> Reach(g, a, child)
  {
    forall a | a in u.active ensures Reach(g, a, child) {
      assert a in s0.active && s0.index[a] <= s0.index[node];
      ActiveReach(g, u, a, node, child);
    }
  }

  lemma ExtendsKeys(s: Search, t: Search)
    requires Extends(s, t)
    ensures s.index.Keys <= t.index.Keys && s.active == t.active
  {
  }

  lemma InvStacked(g: Graph, s: Search)
    requires Inv(g, s)
    ensures WellStacked(s)
  {
  }

  lemma ScannedParts(g: Graph, s: Search, s0: Search, u: Search, node: Node, i: nat, low: nat)
    requires i <= |Succ(g, node)| && Inv(g, s) && Scanned(g, s0, u, node, i, low)
    ensures WellStacked(s) && WellNumbered(g, s)
    ensures WellStacked(u) && WellNumbered(g, u) && ActiveReachesUp(g, u) && Extends(s0, u)
  {
  }

  lemma ChildVisitable(g: Graph, s: Search, s0: Search, u: Search, node: Node, i: nat, low: nat)
    requires i < |Succ(g, node)| && Inv(g, s) && node !in s.index && s0 == Push(s, node)
    requires Scanned(g, s0, u, node, i, low)
    ensures Inv(g, u) && Succ(g, node)[i] in Vertices(g)
    ensures forall a :: a in u.active ==> Reach(g, a, Succ(g, node)[i])
  {
    ScannedParts(g, s, s0, u, node, i, low);
    ActiveReachChild(g, s, s0, u, node, Succ(g, node)[i]);
  }

  lemma ChildKeepsWitness(g: Graph, s: Search, t: Search, node: Node, child: Node, low: nat, low': nat)
    requires WellStacked(s) && WellStacked(t) && Extends(s, t) && Visited(g, s, t, child, low') && Edge(g, node, child)
    requires low < s.next && LowReached(g, s, node, low)
    ensures LowReached(g, t, node, Min(low, low'))
  {
    if low' < low {
      var y :| LowWitness(g, t, child, low', y);
      ReachEdge(g, node, child);
      ReachTrans(g, node, child, y);
      assert LowWitness(g, t, node, low', y);
    } else {
      var y :| LowWitness(g, s, node, low, y);
      assert LowWitness(g, t, node, low, y);
    }
  }

  lemma ChildKeepsBounds(g: Graph, s: Search, t: Search, k: nat, child: Node, low: nat, low': nat)
    requires WellStacked(s) && WellStacked(t) && Extends(s, t) && Visited(g, s, t, child, low')
    requires k < s.next && AboveBounded(g, s, k, low)
    ensures AboveBounded(g, t, k, Min(low, low'))
  {
  }

  lemma ChildKeepsScanned(g: Graph, s: Search, t: Search, k: nat, child: Node, low: nat, low': nat, w: Node)
    requires WellStacked(s) && WellStacked(t) && Extends(s, t) && EdgeScanned(s, k, low, w)
    ensures EdgeScanned(t, k, Min(low, low'), w)
  {
  }

  lemma ChildScanned(g: Graph, s: Search, t: Search, k: nat, child: Node, low: nat, low': nat)
    requires WellStacked(t) && Visited(g, s, t, child, low') && k < s.next
    ensures EdgeScanned(t, k, Min(low, low'), child)
  {
  }

  lemma ScanChild(g: Graph, s0: Search, s: Search, t: Search, node: Node, i: nat, low: nat, low': nat)
    requires i < |Succ(g, node)| && Scanned(g, s0, s, node, i, low)
    requires Inv(g, t) && Extends(s, t) && Visited(g, s, t, Succ(g, node)[i], low')
    ensures Scanned(g, s0, t, node, i + 1, Min(low, low'))
  {
    hide Inv, AboveBounded, LowReached, EdgesBounded;
    var k := s0.index[node];
    InvStacked(g, s);
    InvStacked(g, t);
    ExtendsTrans(s0, s, t);
    ChildKeepsWitness(g, s, t, node, Succ(g, node)[i], low, low');
    ChildKeepsBounds(g, s, t, k, Succ(g, node)[i], low, low');
    forall j | 0 <= j < i + 1 ensures EdgeScanned(t, k, Min(low, low'), Succ(g, node)[j]) {
      if j < i {
        assert EdgeScanned(s, k, low, Succ(g, node)[j]);
        ChildKeepsScanned(g, s, t, k, Succ(g, node)[i], low, low', Succ(g, node)[j]);
      } else {
        ChildScanned(g, s, t, k, Succ(g, node)[i], low, low');
      }
    }
  }

  /** After all imports: no edge of the node's segment goes under `low`. */
  lemma ScanEnd(g: Graph, s0: Search, s: Search, node: Node, low: nat)
    requires Scanned(g, s0, s, node, |Succ(g, node)|, low)
    ensures EdgesBounded(g, s, s0.index[node], low)
    ensures forall w :: Edge(g, node, w) ==> w in s.index
  {
    forall w | Edge(g, node, w) ensures EdgeScanned(s, s0.index[node], low, w) {
    }
    forall x | x in s.onStack && s.index[x] == s0.index[node] ensures x == node {
      assert SameNumber(s.index, x, node);
    }
  }

  lemma LeaveExtends(g: Graph, s: Search, s0: Search, u: Search, node: Node)
    requires WellStacked(s) && node !in s.index && s0 == Push(s, node) && Extends(s0, u)
    requires forall v :: v in s.index ==> s.index[v] < s.next
    ensures Extends(s, Leave(u, node))
  {
  }

  /** The visit of `node` ends with the node left on the stack. */
  lemma EndLeaving(g: Graph, s: Search, s0: Search, u: Search, node: Node, low: nat)
    requires Inv(g, s) && node !in s.index && s0 == Push(s, node)
    requires Scanned(g, s0, u, node, |Succ(g, node)|, low) && low < s.next
    ensures var t := Leave(u, node); Inv(g, t) && Extends(s, t) && Visited(g, s, t, node, low)
  {
    var t := Leave(u, node);
    ScanEnd(g, s0, u, node, low);
    LeaveExtends(g, s, s0, u, node);
    var y :| LowWitness(g, u, node, low, y);
    LeaveKeepsInv(g, u, node, y);
    assert LowWitness(g, t, node, low, y);
    assert EdgesBounded(g, t, s.next, low);
  }

  lemma AtFinish(g: Graph, s: Search, s0: Search, u: Search, node: Node, low: nat)
    requires Inv(g, s) && node !in s.index && s0 == Push(s, node)
    requires Scanned(g, s0, u, node, |Succ(g, node)|, low)
    ensures WellStacked(u) && node in u.index && u.index[node] == s.next && low <= s.next
    ensures |s.stack| < |u.stack| && u.stack[|s.stack|] == node && Members(u.stack) <= Vertices(g)
  {
    assert u.stack[|s.stack|] == s0.stack[|s.stack|];
  }

  lemma TopActive(s: Search, s0: Search, u: Search, node: Node)
    requires WellStacked(s) && node !in s.index && s0 == Push(s, node) && Extends(s0, u)
    requires forall v :: v in s.index ==> s.index[v] < s.next
    ensures forall a :: a in u.active && a in u.index && s.next <= u.index[a] ==> a == node
  {
  }

  lemma RetireExtends(g: Graph, s: Search, s0: Search, u: Search, node: Node, components: seq<seq<Node>>)
    requires WellStacked(s) && WellStacked(u) && WellNumbered(g, s) && WellNumbered(g, u)
    requires node !in s.index && s0 == Push(s, node) && Extends(s0, u)
    requires u.stack[|s.stack|] == node
    ensures Extends(s, Retire(u, node, |s.stack|, components))
  {
    var t := Retire(u, node, |s.stack|, components);
    SegmentIsSuffix(u, node, |s.stack|);
    assert t.stack == s.stack;
    forall v | v in s.index ensures v in t.onStack <==> v in s.onStack {
    }
  }

  /** The visit of `node` ends with its component popped. */
  lemma EndRetiring(g: Graph, s: Search, s0: Search, u: Search, node: Node, popped: seq<Node>, components: seq<seq<Node>>)
    requires Inv(g, s) && node !in s.index && s0 == Push(s, node)
    requires Scanned(g, s0, u, node, |Succ(g, node)|, s.next)
    requires Distinct(popped) && Members(popped) == Members(u.stack[|s.stack|..]) && "" !in popped
    requires components == if Nontrivial(g, popped) then u.components + [popped] else u.components
    ensures var t := Retire(u, node, |s.stack|, components);
      Inv(g, t) && Extends(s, t) && Visited(g, s, t, node, s.next)
  {
    var t := Retire(u, node, |s.stack|, components);
    ScanEnd(g, s0, u, node, s.next);
    TopActive(s, s0, u, node);
    assert u.stack[|s.stack|] == s0.stack[|s.stack|] == node;
    RetireKeepsInv(g, u, node, |s.stack|, popped, components);
    RetireExtends(g, s, s0, u, node, components);
    SegmentIsSuffix(u, node, |s.stack|);
    assert node in Segment(u, s.next);
    assert t.stack == s.stack;
  }

  class ComponentSearch {
    const graph: Graph
    var nextIndex: nat
    var stack: seq<Node>
    var onStack: set<Node>
    var indexByNode: map<Node, nat>
    var lowLinkByNode: map<Node, nat>
    var components: seq<seq<Node>>
    ghost var active: set<Node>

    ghost function State(): Search
      reads this
    {
      Search(indexByNode, nextIndex, stack, onStack, active, components)
    }

    ghost predicate Valid()
      reads this
    {
      Inv(graph, State()) && lowLinkByNode.Keys == indexByNode.Keys
    }

    constructor (graph: Graph)
      ensures Valid() && this.graph == graph
      ensures State() == Search(map[], 0, [], {}, {}, [])
    {
      this.graph := graph;
      nextIndex, stack, onStack, components := 0, [], {}, [];
      indexByNode, lowLinkByNode := map[], map[];
      active := {};
    }

    /** Pops the stack down to `node`. False stands for the stack-underflow error, which the source
        raises for any falsy name: the stack itself never runs out, but an empty name is taken for it. */
    method PopComponent(node: Node, ghost base: nat) returns (ok: bool, component: seq<Node>)
      requires WellStacked(State()) && base < |stack| && stack[base] == node
      modifies this`stack, this`onStack
      ensures ok <==> "" !in old(stack)[base..]
      ensures ok ==> stack == old(stack)[..base] && onStack == old(onStack) - Members(old(stack)[base..])
      ensures ok ==> Distinct(component) && Members(component) == Members(old(stack)[base..])
      ensures ok ==> |component| == |old(stack)| - base && component[|component| - 1] == node
    {
      ghost var full := stack;
      component := [];
      var current := node;
      var more := true;
      while more
        invariant base <= |stack| <= |full| && stack == full[..|stack|]
        invariant more <==> base < |stack|
        invariant |component| == |full| - |stack|
        invariant forall i :: 0 <= i < |component| ==> component[i] == full[|full| - 1 - i]
        invariant "" !in component
        invariant onStack == old(onStack) - Members(component)
        decreases |stack|
      {
        current := stack[|stack| - 1];
        stack := stack[..|stack| - 1];
        assert current == full[|stack|] && full[base..][|stack| - base] == current;
        if current == "" {
          return false, component;
        }
        onStack := onStack - {current};
        component := component + [current];
        more := current != node;
        assert more <==> |stack| != base by {
          assert base < |stack| ==> Below(indexByNode, full, base, |stack|);
        }
      }
      ok := true;
      forall i, j | 0 <= i < j < |full| ensures full[i] != full[j] {
        assert Below(indexByNode, full, i, j);
      }
      PoppedIsSuffix(full, base, component);
    }

    /** The first lines of a visit: the node gets the next number and goes on the stack. */
    method Enter(node: Node)
      requires Valid() && node in Vertices(graph) && node !in indexByNode
      requires forall a :: a in active ==> Reach(graph, a, node)
      modifies this
      ensures State() == Push(old(State()), node)
      ensures lowLinkByNode == old(lowLinkByNode)[node := old(nextIndex)]
      ensures lowLinkByNode.Keys == indexByNode.Keys
      ensures Scanned(graph, State(), State(), node, 0, lowLinkByNode[node])
    {
      hide Inv, AboveBounded, EdgeScanned, LowReached, EdgesBounded, Scanned;
      ghost var s := State();
      indexByNode := indexByNode[node := nextIndex];
      lowLinkByNode := lowLinkByNode[node := nextIndex];
      nextIndex := nextIndex + 1;
      stack := stack + [node];
      onStack := onStack + {node};
      active := active + {node};
      ScanStart(graph, s, node);
    }

    /** The last lines of a visit, begun at s: the node stays on the stack, or its component is popped
        and, if it is a cycle, reported. */
    method Finish(node: Node, ghost s: Search) returns (ok: bool)
      requires Inv(graph, s) && node in Vertices(graph) && node !in s.index
      requires lowLinkByNode.Keys == indexByNode.Keys && node in lowLinkByNode
      requires Scanned(graph, Push(s, node), State(), node, |Succ(graph, node)|, lowLinkByNode[node])
      modifies this`stack, this`onStack, this`components, this`active
      ensures !ok ==> "" in Vertices(graph)
      ensures ok ==> Inv(graph, State()) && Extends(s, State())
      ensures ok ==> Visited(graph, s, State(), node, lowLinkByNode[node])
    {
      hide Inv, Scanned, Extends, Visited, WellStacked;
      ghost var s0, u := Push(s, node), State();
      AtFinish(graph, s, s0, u, node, lowLinkByNode[node]);
      if lowLinkByNode[node] != indexByNode[node] {
        active := active - {node};
        EndLeaving(graph, s, s0, u, node, lowLinkByNode[node]);
        return true;
      }
      var component;
      ok, component := PopComponent(node, |s.stack|);
      if !ok {
        assert "" in u.stack[|s.stack|..];
        return;
      }
      assert |component| == 1 ==> component[0] == node;
      if |component| > 1 || node in Succ(graph, node) {
        components := components + [component];
      }
      active := active - {node};
      EmptyNameNotPopped(u, |s.stack|, component);
      EndRetiring(graph, s, s0, u, node, component, components);
      assert State() == Retire(u, node, |s.stack|, components);
    }

    /** False stands for the stack-underflow error, which ends the whole search. */
    method Visit(node: Node) returns (ok: bool)
      requires Valid() && node in Vertices(graph) && node !in indexByNode
      requires forall a :: a in active ==> Reach(graph, a, node)
      modifies this
      ensures !ok ==> "" in Vertices(graph)
      ensures ok ==> Valid() && Extends(old(State()), State())
      ensures ok ==> node in lowLinkByNode && Visited(graph, old(State()), State(), node, lowLinkByNode[node])
      ensures ok ==> forall v :: v in old(lowLinkByNode) ==> lowLinkByNode[v] == old(lowLinkByNode[v])
      decreases Vertices(graph) - indexByNode.Keys
    {
      hide Inv, Scanned, Extends, Visited;
      ghost var s := State();
      Enter(node);
      ghost var s0 := State();
      var imports := Succ(graph, node);
      for i := 0 to |imports|
        invariant lowLinkByNode.Keys == indexByNode.Keys && s.index.Keys + {node} <= indexByNode.Keys
        invariant Scanned(graph, s0, State(), node, i, lowLinkByNode[node])
        invariant forall v :: v in s.index ==> lowLinkByNode[v] == old(lowLinkByNode)[v]
      {
        var next := imports[i];
        ghost var u, low := State(), lowLinkByNode[node];
        if next !in indexByNode {
          ChildVisitable(graph, s, s0, u, node, i, low);
          ok := Visit(next);
          if !ok {
            return;
          }
          ExtendsKeys(u, State());
          lowLinkByNode := lowLinkByNode[node := Min(lowLinkByNode[node], lowLinkByNode[next])];
          ScanChild(graph, s0, u, State(), node, i, low, lowLinkByNode[next]);
        } else {
          if next in onStack {
            lowLinkByNode := lowLinkByNode[node := Min(lowLinkByNode[node], indexByNode[next])];
          }
          ScanKnown(graph, s0, u, node, i, low, lowLinkByNode[node]);
        }
      }
      ok := Finish(node, s);
    }
  }

  lemma EmptyNameNotPopped(u: Search, base: nat, component: seq<Node>)
    requires base <= |u.stack| && Members(component) == Members(u.stack[base..]) && "" !in u.stack[base..]
    ensures "" !in component
  {
    assert "" in component <==> "" in Members(component);
  }

  lemma PoppedIsSuffix(full: seq<Node>, base: nat, component: seq<Node>)
    requires base < |full| && |component| == |full| - base && Distinct(full)
    requires forall i :: 0 <= i < |component| ==> component[i] == full[|full| - 1 - i]
    ensures Distinct(component) && Members(component) == Members(full[base..])
    ensures "" !in component ==> "" !in full[base..]
  {
    forall v ensures v in component <==> v in full[base..] {
      if v in component {
        var i :| 0 <= i < |component| && component[i] == v;
        assert full[base..][|full| - 1 - i - base] == v;
      }
      if v in full[base..] {
        var j :| 0 <= j < |full| - base && full[base..][j] == v;
        assert component[|full| - 1 - base - j] == v;
      }
    }
  }

  // ----- the whole search

  /** A component that deserves reporting: one of its members lies on a cycle. */
  ghost predicate CyclicComponent(g: Graph, c: set<Node>) {
    IsComponent(g, c) && exists v :: v in c && OnCycle(g, v)
  }

  ghost predicate ListedComponent(components: seq<seq<Node>>, c: set<Node>) {
    exists i :: 0 <= i < |components| && Members(components[i]) == c
  }

  /** The list names every cyclic component, nothing else, and no node twice. */
  ghost predicate ReportsExactly(g: Graph, components: seq<seq<Node>>) {
    && (forall c :: CyclicComponent(g, c) <==> ListedComponent(components, c))
    && (forall i :: 0 <= i < |components| ==> Distinct(components[i]))
    && PairwiseDisjoint(components)
  }

  lemma ComponentsMeet(g: Graph, c: set<Node>, d: set<Node>, v: Node)
    requires IsComponent(g, c) && IsComponent(g, d) && v in c && v in d
    ensures c == d
  {
    forall x ensures x in c <==> x in d {
      if x in c {
        assert Mutual(g, v, x);
      }
      if x in d {
        assert Mutual(g, v, x);
      }
    }
  }

  lemma ExactReport(g: Graph, components: seq<seq<Node>>)
    requires forall i :: 0 <= i < |components| ==> Reportable(g, components[i])
    requires PairwiseDisjoint(components)
    requires forall v :: OnCycle(g, v) ==> Listed(components, v)
    ensures ReportsExactly(g, components)
    ensures components == [] <==> Acyclic(g)
  {
    forall c | CyclicComponent(g, c) ensures ListedComponent(components, c) {
      var v :| v in c && OnCycle(g, v);
      assert Listed(components, v);
      var i :| 0 <= i < |components| && v in components[i];
      assert Reportable(g, components[i]);
      ComponentsMeet(g, c, Members(components[i]), v);
    }
    forall c | ListedComponent(components, c) ensures CyclicComponent(g, c) {
      var i :| 0 <= i < |components| && Members(components[i]) == c;
      assert Reportable(g, components[i]);
      NontrivialIsOnCycle(g, components[i], components[i][0]);
      assert components[i][0] in c;
    }
    if components != [] {
      assert Reportable(g, components[0]);
      NontrivialIsOnCycle(g, components[0], components[0][0]);
    }
    if v :| OnCycle(g, v) {
      assert Listed(components, v);
    }
  }

  lemma AllRetired(g: Graph, s: Search)
    requires Inv(g, s) && s.active == {} && g.Keys <= s.index.Keys
    ensures "" !in Vertices(g)
    ensures ReportsExactly(g, s.components)
    ensures s.components == [] <==> Acyclic(g)
  {
    NothingStacked(g, s);
    forall v | v in Vertices(g) ensures Retired(s, v) {
      if v !in g {
        var k, w :| k in g && w in g[k] && w == v;
        assert Edge(g, k, w) && Retired(s, k);
      }
    }
    forall v | OnCycle(g, v) ensures Listed(s.components, v) {
      var w :| Edge(g, v, w) && Reach(g, w, v);
      assert Retired(s, v);
    }
    ExactReport(g, s.components);
  }

  lemma FallTarget(g: Graph, s: Search, y: Node) returns (x: Node)
    requires WellStacked(s) && StackFallsBack(g, s) && y in s.onStack
    ensures FallsBackTo(g, s, y, x)
  {
    assert FallsBack(g, s, y);
    x :| FallsBackTo(g, s, y, x);
  }

  lemma NothingStacked(g: Graph, s: Search)
    requires WellStacked(s) && StackFallsBack(g, s) && s.active == {}
    ensures s.onStack == {}
  {
    if y :| y in s.onStack {
      var x := FallTarget(g, s, y);
    }
  }

  /** `Underflow` stands for the error "Import cycle stack underflow". */
  datatype Outcome = Components(value: seq<seq<Node>>) | Underflow

  /** `keys` is the order in which the graph lists its files. */
  method CollectStronglyConnectedComponents(graph: Graph, keys: seq<Node>) returns (r: Outcome)
    requires Members(keys) == graph.Keys
    ensures r.Underflow? <==> "" in Vertices(graph)
    ensures r.Components? ==> ReportsExactly(graph, r.value)
    ensures r.Components? ==> (r.value == [] <==> Acyclic(graph))
  {
    hide Inv, Extends, Visited, ReportsExactly, Acyclic;
    var search := new ComponentSearch(graph);
    for i := 0 to |keys|
      invariant search.graph == graph && search.Valid() && search.active == {}
      invariant forall j :: 0 <= j < i ==> keys[j] in search.indexByNode
    {
      var node := keys[i];
      if node !in search.indexByNode {
        assert node in Members(keys);
        ghost var s := search.State();
        var ok := search.Visit(node);
        if !ok {
          return Underflow;
        }
        ExtendsKeys(s, search.State());
      }
    }
    assert forall k :: k in Members(keys) ==> k in search.indexByNode;
    AllRetired(graph, search.State());
    return Components(search.components);
  }
}
