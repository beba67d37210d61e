/** The offline full-graph cycle scan: an explicit-stack depth-first search
    with memoised `visited` nodes and cycles deduplicated by node set. */
module CycleScan {
  import opened Common
  import opened Graph

  /** One row of the cold dependency store: `child` waits for `parent`. */
  datatype DependencyEdge = DependencyEdge(child: Node, parent: Node)

  /** The parents recorded for `child`, in the order of the rows. */
  function ParentsOf(edges: seq<DependencyEdge>, child: Node): seq<Node> {
    if edges == [] then []
    else
      var rest := ParentsOf(edges[..|edges| - 1], child);
      var last := edges[|edges| - 1];
      if last.child == child then rest + [last.parent] else rest
  }

  /** The dependency graph of a cold store: each child points at its parents. */
  function EdgeGraph(edges: seq<DependencyEdge>): Graph {
    map e | e in edges :: e.child := ParentsOf(edges, e.child)
  }

  lemma {:induction false} ParentsOfExact(edges: seq<DependencyEdge>, child: Node, parent: Node)
    ensures parent in ParentsOf(edges, child) <==> DependencyEdge(child, parent) in edges
  {
    if edges != [] {
      var init, last := edges[..|edges| - 1], edges[|edges| - 1];
      ParentsOfExact(init, child, parent);
      assert edges == init + [last];
    }
  }

  function Endpoints(edges: seq<DependencyEdge>): set<Node> {
    (set e | e in edges :: e.child) + (set e | e in edges :: e.parent)
  }

  lemma AppendRow(edges: seq<DependencyEdge>, e: DependencyEdge)
    ensures EdgeGraph(edges + [e]) == EdgeGraph(edges)[e.child := ParentsOf(edges, e.child) + [e.parent]]
  {
    var more := edges + [e];
    assert forall x :: x in more <==> x in edges || x == e;
    assert EdgeGraph(more).Keys == EdgeGraph(edges).Keys + {e.child};
    forall child | child in EdgeGraph(more)
      ensures EdgeGraph(more)[child] == EdgeGraph(edges)[e.child := ParentsOf(edges, e.child) + [e.parent]][child]
    {
      ParentsOfMore(edges, e, child);
    }
  }

  lemma AppendEndpoints(edges: seq<DependencyEdge>, e: DependencyEdge)
    ensures Endpoints(edges + [e]) == Endpoints(edges) + {e.child, e.parent}
  {
    assert forall x :: x in edges + [e] <==> x in edges || x == e;
  }

  lemma ParentsOfMore(edges: seq<DependencyEdge>, e: DependencyEdge, child: Node)
    ensures ParentsOf(edges + [e], child)
         == if child == e.child then ParentsOf(edges, child) + [e.parent] else ParentsOf(edges, child)
  {
    assert (edges + [e])[..|edges|] == edges;
  }

  /** Builds the adjacency lists in one pass over the rows. */
  method GroupParents(edges: seq<DependencyEdge>) returns (grouped: Graph, nodes: set<Node>)
    ensures grouped == EdgeGraph(edges)
    ensures forall a, b :: Edge(grouped, a, b) <==> DependencyEdge(a, b) in edges
    ensures nodes == Endpoints(edges)
  {
    grouped, nodes := map[], {};
    for i := 0 to |edges|
      invariant grouped == EdgeGraph(edges[..i])
      invariant nodes == Endpoints(edges[..i])
    {
      var e := edges[i];
      assert edges[..i + 1] == edges[..i] + [e];
      AppendRow(edges[..i], e);
      AppendEndpoints(edges[..i], e);
      NoRowsNoParents(edges[..i], e.child);
      var known := if e.child in grouped then grouped[e.child] else [];
      grouped := grouped[e.child := known + [e.parent]];
      nodes := nodes + {e.child, e.parent};
    }
    assert edges[..|edges|] == edges;
    EdgesExact(edges);
  }

  lemma EdgesExact(edges: seq<DependencyEdge>)
    ensures forall a, b :: Edge(EdgeGraph(edges), a, b) <==> DependencyEdge(a, b) in edges
  {
    forall a, b
      ensures Edge(EdgeGraph(edges), a, b) <==> DependencyEdge(a, b) in edges
    {
      ParentsOfExact(edges, a, b);
    }
  }

  lemma {:induction false} NoRowsNoParents(edges: seq<DependencyEdge>, child: Node)
    ensures child !in EdgeGraph(edges) ==> ParentsOf(edges, child) == []
  {
    if ParentsOf(edges, child) != [] {
      ParentsOfExact(edges, child, ParentsOf(edges, child)[0]);
      assert DependencyEdge(child, ParentsOf(edges, child)[0]) in edges;
    }
  }

  /** A stack frame: the node, the path that led to it, and the parents not yet looked at. */
  datatype Frame = Frame(node: Node, path: seq<Node>, rest: seq<Node>)

  function Parents(g: Graph, n: Node): seq<Node> {
    if n in g then g[n] else []
  }

  /** A frame's path is a repetition-free walk that ends at its node. */
  ghost predicate FrameOk(g: Graph, f: Frame) {
    && f.path != []
    && Walk(g, f.path)
    && NoDup(f.path)
    && f.path[|f.path| - 1] == f.node
    && forall b :: b in f.rest ==> Edge(g, f.node, b)
  }

  /** Each frame's path extends the one below it, and the top path holds exactly the nodes in the stack. */
  ghost predicate StackOk(g: Graph, stack: seq<Frame>, inStack: set<Node>) {
    && (forall i :: 0 <= i < |stack| ==> FrameOk(g, stack[i]))
    && (forall i, j :: 0 <= i < |stack| && j == i + 1 < |stack| ==> stack[j].path == stack[i].path + [stack[j].node])
    && (stack != [] ==> |stack[0].path| == 1)
    && inStack == (if stack == [] then {} else Elems(stack[|stack| - 1].path))
  }

  /** Pairs of nodes that lie together on a reported cycle. */
  ghost function Shared(cycles: seq<seq<Node>>): set<(Node, Node)> {
    set c, a, b | c in cycles && a in c && b in c :: (a, b)
  }

  ghost predicate Settled(stack: seq<Frame>, visited: set<Node>, loose: set<(Node, Node)>, i: int, b: Node)
    requires 0 <= i < |stack|
  {
    || b in stack[i].rest
    || b in visited
    || (stack[i].node, b) in loose
    || (i + 1 < |stack| && b == stack[i + 1].node)
  }

  /** Every parent of a frame's node is still to be looked at, finished, on a
      reported cycle with it, or the next frame. */
  ghost predicate Explored(g: Graph, stack: seq<Frame>, visited: set<Node>, loose: set<(Node, Node)>) {
    forall i, b {:trigger Settled(stack, visited, loose, i, b)} ::
      0 <= i < |stack| && Edge(g, stack[i].node, b) ==> Settled(stack, visited, loose, i, b)
  }

  /** No node set is reported twice, and every report is a real cycle. */
  ghost predicate Reported(g: Graph, cycles: seq<seq<Node>>, seen: set<set<Node>>) {
    && (forall i :: 0 <= i < |cycles| ==> SimpleCycle(g, cycles[i]))
    && (forall i, j :: 0 <= i < j < |cycles| ==> Elems(cycles[i]) != Elems(cycles[j]))
    && seen == (set c | c in cycles :: Elems(c))
  }

  /** The closed walk that a back edge to `parent` reports. */
  function Loop(path: seq<Node>, parent: Node): seq<Node>
    requires parent in path
  {
    path[IndexOf(path, parent)..] + [parent]
  }

  lemma LoopIsSimple(g: Graph, path: seq<Node>, parent: Node)
    requires path != [] && Walk(g, path) && NoDup(path) && parent in path && Edge(g, path[|path| - 1], parent)
    ensures SimpleCycle(g, Loop(path, parent))
  {
    BackEdgeCloses(g, path, parent);
    var c := Loop(path, parent);
    assert c[..|c| - 1] == path[IndexOf(path, parent)..];
  }

  lemma SharedGrows(cycles: seq<seq<Node>>, cycle: seq<Node>)
    ensures Shared(cycles) <= Shared(cycles + [cycle])
    ensures (set c | c in cycles + [cycle] :: Elems(c)) == (set c | c in cycles :: Elems(c)) + {Elems(cycle)}
  {
    assert forall c :: c in cycles + [cycle] <==> c in cycles || c == cycle;
  }

  /** A cycle skipped because its node set was already reported still has its nodes covered. */
  lemma SameSetShares(cycles: seq<seq<Node>>, cycle: seq<Node>, a: Node, b: Node)
    requires Elems(cycle) in (set c | c in cycles :: Elems(c)) && a in cycle && b in cycle
    ensures (a, b) in Shared(cycles)
  {
    var c :| c in cycles && Elems(c) == Elems(cycle);
    assert a in Elems(c) && b in Elems(c);
  }

  /** Takes parents off the top frame's iterator until one is new; every
      back edge met on the way is reported unless its node set already was. */
  method NextParent(g: Graph, f: Frame, inStack: set<Node>, visited: set<Node>,
                    cycles: seq<seq<Node>>, seen: set<set<Node>>)
    returns (advanced: bool, parent: Node, rest: seq<Node>, cycles': seq<seq<Node>>, seen': set<set<Node>>)
    requires FrameOk(g, f) && inStack == Elems(f.path) && Reported(g, cycles, seen)
    ensures Reported(g, cycles', seen') && Shared(cycles) <= Shared(cycles')
    ensures advanced ==> Edge(g, f.node, parent) && parent !in visited && parent !in inStack
    ensures !advanced ==> rest == []
    ensures forall b :: b in rest ==> b in f.rest
    ensures forall b :: b in f.rest ==>
      b in rest || b in visited || (f.node, b) in Shared(cycles') || (advanced && b == parent)
  {
    advanced, parent, rest, cycles', seen' := false, f.node, f.rest, cycles, seen;
    while rest != [] && !advanced
      invariant Reported(g, cycles', seen') && Shared(cycles) <= Shared(cycles')
      invariant advanced ==> Edge(g, f.node, parent) && parent !in visited && parent !in inStack
      invariant forall b :: b in rest ==> b in f.rest
      invariant forall b :: b in f.rest ==>
        b in rest || b in visited || (f.node, b) in Shared(cycles') || (advanced && b == parent)
      decreases |rest|
    {
      var next := rest[0];
      assert next in f.rest;
      assert forall b :: b in rest <==> b == next || b in rest[1..];
      rest := rest[1..];
      if next in inStack {
        LoopIsSimple(g, f.path, next);
        var cycle := Loop(f.path, next);
        if Elems(cycle) !in seen' {
          SharedGrows(cycles', cycle);
          seen' := seen' + {Elems(cycle)};
          cycles' := cycles' + [cycle];
        }
        SameSetShares(cycles', cycle, f.node, next);
      } else if next !in visited {
        advanced, parent := true, next;
      }
    }
  }

  /** After the top frame's iterator moved to `rest`. */
  function Retopped(stack: seq<Frame>, rest: seq<Node>): seq<Frame>
    requires stack != []
  {
    stack[..|stack| - 1] + [stack[|stack| - 1].(rest := rest)]
  }

  lemma RetopKeeps(g: Graph, stack: seq<Frame>, inStack: set<Node>, rest: seq<Node>)
    requires stack != [] && StackOk(g, stack, inStack)
    requires forall b :: b in rest ==> b in stack[|stack| - 1].rest
    ensures StackOk(g, Retopped(stack, rest), inStack)
  {
    var t := Retopped(stack, rest);
    forall i | 0 <= i < |t|
      ensures FrameOk(g, t[i]) && t[i].path == stack[i].path && t[i].node == stack[i].node
    {
      assert FrameOk(g, stack[i]);
    }
  }

  lemma PushKeeps(g: Graph, stack: seq<Frame>, inStack: set<Node>, parent: Node)
    requires stack != [] && StackOk(g, stack, inStack)
    requires Edge(g, stack[|stack| - 1].node, parent) && parent !in inStack
    ensures StackOk(g, stack + [Frame(parent, stack[|stack| - 1].path + [parent], Parents(g, parent))],
                    inStack + {parent})
  {
    var top := stack[|stack| - 1];
    assert FrameOk(g, top);
    ExtendWalk(g, top.path, parent);
    assert parent !in top.path;
    AppendFresh(top.path, parent);
    assert FrameOk(g, Frame(parent, top.path + [parent], Parents(g, parent)));
  }

  lemma PopKeeps(g: Graph, stack: seq<Frame>, inStack: set<Node>)
    requires stack != [] && StackOk(g, stack, inStack)
    ensures stack[|stack| - 1].node in inStack
    ensures StackOk(g, stack[..|stack| - 1], inStack - {stack[|stack| - 1].node})
  {
    var below, top := stack[..|stack| - 1], stack[|stack| - 1];
    assert FrameOk(g, top);
    if below != [] {
      var p := stack[|stack| - 2].path;
      assert top.path == p + [top.node];
      LastIsFresh(p, top.node);
      assert Elems(top.path) == Elems(p) + {top.node};
    }
  }

  lemma AdvanceKeepsExplored(g: Graph, stack: seq<Frame>, visited: set<Node>, loose: set<(Node, Node)>,
                             rest: seq<Node>, next: seq<Frame>, loose': set<(Node, Node)>)
    requires stack != [] && Explored(g, stack, visited, loose) && loose <= loose' && |next| <= 1
    requires forall b :: b in stack[|stack| - 1].rest ==>
      b in rest || b in visited || (stack[|stack| - 1].node, b) in loose' || (next != [] && b == next[0].node)
    requires next != [] ==> next[0].rest == Parents(g, next[0].node)
    ensures Explored(g, Retopped(stack, rest) + next, visited, loose')
  {
    var t := Retopped(stack, rest) + next;
    forall i, b | 0 <= i < |t| && Edge(g, t[i].node, b)
      ensures Settled(t, visited, loose', i, b)
    {
      if i < |stack| {
        assert Settled(stack, visited, loose, i, b);
      }
    }
  }

  /** The finished node joins the order: all its parents finished before it, or share a reported cycle with it. */
  lemma FinishKeepsOrder(g: Graph, stack: seq<Frame>, visited: set<Node>, loose: set<(Node, Node)>, post: seq<Node>)
    requires stack != [] && Explored(g, stack, visited, loose) && stack[|stack| - 1].rest == []
    requires Ordered(g, post, loose) && visited == Elems(post)
    ensures Ordered(g, post + [stack[|stack| - 1].node], loose)
    ensures Explored(g, stack[..|stack| - 1], visited + {stack[|stack| - 1].node}, loose)
  {
    var n, below := stack[|stack| - 1].node, stack[..|stack| - 1];
    forall b | Edge(g, n, b)
      ensures b in post || (n, b) in loose
    {
      assert Settled(stack, visited, loose, |stack| - 1, b);
    }
    AppendOrdered(g, post, loose, n);
    forall i, b | 0 <= i < |below| && Edge(g, below[i].node, b)
      ensures Settled(below, visited + {n}, loose, i, b)
    {
      assert Settled(stack, visited, loose, i, b);
    }
  }

  /** The invariant of the search. `post` lists the visited nodes in the order they were
      finished, which is a dependency order up to edges inside reported cycles. */
  ghost predicate Searching(g: Graph, universe: set<Node>, stack: seq<Frame>, inStack: set<Node>,
                            visited: set<Node>, loose: set<(Node, Node)>, post: seq<Node>) {
    && StackOk(g, stack, inStack)
    && inStack !! visited && inStack <= universe
    && visited <= universe && visited == Elems(post)
    && Ordered(g, post, loose) && Explored(g, stack, visited, loose)
  }

  lemma PushStep(g: Graph, universe: set<Node>, stack: seq<Frame>, inStack: set<Node>, visited: set<Node>,
                 loose: set<(Node, Node)>, post: seq<Node>, parent: Node, rest: seq<Node>, loose': set<(Node, Node)>)
    requires stack != [] && Searching(g, universe, stack, inStack, visited, loose, post) && loose <= loose'
    requires Edge(g, stack[|stack| - 1].node, parent) && parent !in visited && parent !in inStack && parent in universe
    requires forall b :: b in rest ==> b in stack[|stack| - 1].rest
    requires forall b :: b in stack[|stack| - 1].rest ==>
      b in rest || b in visited || (stack[|stack| - 1].node, b) in loose' || b == parent
    ensures Searching(g, universe,
      Retopped(stack, rest) + [Frame(parent, stack[|stack| - 1].path + [parent], Parents(g, parent))],
      inStack + {parent}, visited, loose', post)
  {
    RetopKeeps(g, stack, inStack, rest);
    PushKeeps(g, Retopped(stack, rest), inStack, parent);
    AdvanceKeepsExplored(g, stack, visited, loose, rest,
      [Frame(parent, stack[|stack| - 1].path + [parent], Parents(g, parent))], loose');
  }

  lemma PopStep(g: Graph, universe: set<Node>, stack: seq<Frame>, inStack: set<Node>, visited: set<Node>,
                loose: set<(Node, Node)>, post: seq<Node>, loose': set<(Node, Node)>)
    requires stack != [] && Searching(g, universe, stack, inStack, visited, loose, post) && loose <= loose'
    requires forall b :: b in stack[|stack| - 1].rest ==> b in visited || (stack[|stack| - 1].node, b) in loose'
    ensures stack[|stack| - 1].node in inStack
    ensures Searching(g, universe, stack[..|stack| - 1], inStack - {stack[|stack| - 1].node},
      visited + {stack[|stack| - 1].node}, loose', post + [stack[|stack| - 1].node])
  {
    PopKeeps(g, stack, inStack);
    AdvanceKeepsExplored(g, stack, visited, loose, [], [], loose');
    var drained := Retopped(stack, []);
    assert drained + [] == drained && drained[..|drained| - 1] == stack[..|stack| - 1];
    FinishKeepsOrder(g, drained, visited, loose', post);
  }

  /** Explores everything reachable from one root. */
  method ScanFrom(g: Graph, root: Node, visited: set<Node>, cycles: seq<seq<Node>>, seen: set<set<Node>>,
                  ghost universe: set<Node>, ghost post: seq<Node>)
    returns (visited': set<Node>, cycles': seq<seq<Node>>, seen': set<set<Node>>, ghost post': seq<Node>)
    requires root in universe && root !in visited
    requires forall a, b :: Edge(g, a, b) ==> b in universe
    requires Reported(g, cycles, seen) && Searching(g, universe, [], {}, visited, Shared(cycles), post)
    ensures Reported(g, cycles', seen') && Searching(g, universe, [], {}, visited', Shared(cycles'), post')
    ensures visited + {root} <= visited'
  {
    visited', cycles', seen', post' := visited, cycles, seen, post;
    var inStack := {root};
    var stack := [Frame(root, [root], Parents(g, root))];
    assert FrameOk(g, stack[0]) && Elems([root]) == {root};
    while stack != []
      invariant Searching(g, universe, stack, inStack, visited', Shared(cycles'), post')
      invariant Reported(g, cycles', seen')
      invariant visited + {root} <= visited' + inStack
      decreases universe - visited', universe - visited' - inStack
    {
      var top := stack[|stack| - 1];
      assert FrameOk(g, top);
      var advanced, parent, rest, moreCycles, moreSeen := NextParent(g, top, inStack, visited', cycles', seen');
      if advanced {
        PushStep(g, universe, stack, inStack, visited', Shared(cycles'), post', parent, rest, Shared(moreCycles));
        stack := Retopped(stack, rest) + [Frame(parent, top.path + [parent], Parents(g, parent))];
        inStack := inStack + {parent};
      } else {
        PopStep(g, universe, stack, inStack, visited', Shared(cycles'), post', Shared(moreCycles));
        stack := stack[..|stack| - 1];
        inStack := inStack - {top.node};
        visited' := visited' + {top.node};
        post' := post' + [top.node];
      }
      cycles', seen' := moreCycles, moreSeen;
    }
  }

  /** A walk has an edge whose two ends lie on one reported cycle. */
  ghost predicate Touched(p: seq<Node>, cycles: seq<seq<Node>>) {
    exists i, c :: 0 <= i < |p| - 1 && c in cycles && p[i] in c && p[i + 1] in c
  }

  lemma LooseMeansTouched(p: seq<Node>, cycles: seq<seq<Node>>)
    requires !Avoids(p, Shared(cycles))
    ensures Touched(p, cycles)
  {
    var i :| 0 <= i < |p| - 1 && (p[i], p[i + 1]) in Shared(cycles);
    var c :| c in cycles && p[i] in c && p[i + 1] in c;
  }

  /** Scans the whole cold store. The result is empty exactly when the
      dependency graph has no cycle; every list is a real cycle along the
      stored edges; no node set is reported twice; and every cycle of the
      graph, reported or not, runs through an edge inside a reported one. */
  method ScanDependencyCycles(edges: seq<DependencyEdge>) returns (cycles: seq<seq<Node>>)
    ensures forall i :: 0 <= i < |cycles| ==> SimpleCycle(EdgeGraph(edges), cycles[i])
    ensures cycles == [] <==> Acyclic(EdgeGraph(edges))
    ensures forall i, j :: 0 <= i < j < |cycles| ==> Elems(cycles[i]) != Elems(cycles[j])
    ensures forall p :: Walk(EdgeGraph(edges), p) && |p| >= 2 && p[0] == p[|p| - 1] ==> Touched(p, cycles)
  {
    var g, nodes := GroupParents(edges);
    var visited, seen := {}, {};
    ghost var post := [];
    cycles := [];
    var todo := nodes;
    while todo != {}
      invariant todo <= nodes && nodes - todo <= visited
      invariant Reported(g, cycles, seen) && Searching(g, nodes, [], {}, visited, Shared(cycles), post)
    {
      var root :| root in todo;
      todo := todo - {root};
      if root !in visited {
        visited, cycles, seen, post := ScanFrom(g, root, visited, cycles, seen, nodes, post);
      }
    }
    assert g.Keys <= nodes <= Elems(post);
    forall p | Walk(g, p) && |p| >= 2 && p[0] == p[|p| - 1]
      ensures Touched(p, cycles)
    {
      CycleUsesLooseEdge(g, post, Shared(cycles), p);
      LooseMeansTouched(p, cycles);
    }
    if cycles != [] {
      assert SimpleCycle(g, cycles[0]);
    }
  }
}
