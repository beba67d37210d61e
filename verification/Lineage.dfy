/** The registration-time cycle check and the acyclicity it preserves. */
module Lineage {
  import opened Common
  import opened Graph
  import opened HotStore

  /** Depth bound of lineage walks. */
  const MAX_LINEAGE_DEPTH: nat := 32

  /** Each task points at its parent task and at the tasks it depends on. */
  function LineageGraph(tasks: map<Task, Record>): Graph {
    map t | t in tasks :: Links(tasks[t])
  }

  function Links(r: Record): seq<Node> {
    (if r.parent.Some? then [r.parent.value] else []) + r.dependsOn
  }

  function Entries(nodes: seq<Node>, depth: nat): seq<(Node, nat)> {
    if nodes == [] then [] else Entries(nodes[..|nodes| - 1], depth) + [(nodes[|nodes| - 1], depth)]
  }

  /** One round of the ancestor search for a top entry that is not `child`: the entry is dropped; if it
      is new and not too deep it is marked and its own ancestors are pushed. */
  function Marked(stack: seq<(Node, nat)>, visited: set<Node>): set<Node>
    requires stack != []
  {
    var (node, depth) := stack[|stack| - 1];
    if depth >= MAX_LINEAGE_DEPTH then visited else visited + {node}
  }

  function Pushed(g: Graph, stack: seq<(Node, nat)>, visited: set<Node>): seq<(Node, nat)>
    requires stack != []
  {
    var (node, depth) := stack[|stack| - 1];
    var rest := stack[..|stack| - 1];
    if node in visited || depth >= MAX_LINEAGE_DEPTH || node !in g then rest
    else rest + Entries(g[node], depth + 1)
  }

  /** The ancestor search with its stack and visited set: true when `child` turns up. */
  function Search(g: Graph, child: Node, stack: seq<(Node, nat)>, visited: set<Node>): bool
    decreases g.Keys - visited, |stack|
  {
    if stack == [] then false
    else if stack[|stack| - 1].0 == child then true
    else Search(g, child, Pushed(g, stack, visited), Marked(stack, visited))
  }

  lemma SearchRound(g: Graph, child: Node, stack: seq<(Node, nat)>, visited: set<Node>)
    requires stack != []
    ensures Search(g, child, stack, visited)
       <==> stack[|stack| - 1].0 == child || Search(g, child, Pushed(g, stack, visited), Marked(stack, visited))
  {
  }

  /** A round in the steps of the loop. */
  lemma RoundByCases(g: Graph, child: Node, stack: seq<(Node, nat)>, visited: set<Node>, rest: seq<(Node, nat)>,
                     node: Node, depth: nat)
    requires stack != [] && stack[|stack| - 1] == (node, depth) && rest == stack[..|stack| - 1]
    ensures Search(g, child, stack, visited) <==>
      || node == child
      || (if node in visited || depth >= MAX_LINEAGE_DEPTH then Search(g, child, rest, visited)
          else Search(g, child, if node in g then rest + Entries(g[node], depth + 1) else rest, visited + {node}))
  {
    SearchRound(g, child, stack, visited);
    PushedIs(g, stack, visited, node, depth, rest);
    if node in visited { assert visited + {node} == visited; }
  }

  /** The check of `register_dependency`: is `child` among the ancestors of one of `parents`? */
  method FindsCycle(g: Graph, child: Node, parents: seq<Node>) returns (cycle: bool)
    ensures cycle == Search(g, child, Entries(parents, 0), {})
  {
    var visited: set<Node> := {};
    var stack := Entries(parents, 0);
    ghost var verdict := Search(g, child, stack, visited);
    while stack != []
      invariant Search(g, child, stack, visited) == verdict
      decreases g.Keys - visited, |stack|
    {
      var (node, depth) := stack[|stack| - 1];
      RoundByCases(g, child, stack, visited, stack[..|stack| - 1], node, depth);
      stack := stack[..|stack| - 1];
      if node == child { return true; }
      if node in visited || depth >= MAX_LINEAGE_DEPTH { continue; }
      visited := visited + {node};
      if node in g { stack := stack + Entries(g[node], depth + 1); }
    }
    return false;
  }

  /** The walk does not pass through `child` on its way. */
  ghost predicate Meets(p: seq<Node>, child: Node) {
    forall i :: 0 <= i < |p| - 1 ==> p[i] != child
  }

  /** Stack entries are reached from a parent by a walk of the recorded length that does not pass through `child`. */
  ghost predicate EntryOk(g: Graph, child: Node, parents: seq<Node>, e: (Node, nat)) {
    exists p :: Walk(g, p) && |p| == e.1 + 1 && p[0] in parents && p[|p| - 1] == e.0 && Meets(p, child)
  }

  ghost predicate StackOk(g: Graph, child: Node, parents: seq<Node>, stack: seq<(Node, nat)>) {
    forall e :: e in stack ==> EntryOk(g, child, parents, e)
  }

  /** `child` is an ancestor of one of `parents`, or one of them. */
  ghost predicate IsAncestor(g: Graph, child: Node, parents: seq<Node>) {
    exists p :: Walk(g, p) && p[0] in parents && p[|p| - 1] == child
  }

  /** A way from a parent up to `child`. */
  ghost predicate Way(g: Graph, child: Node, parents: seq<Node>, p: seq<Node>) {
    Walk(g, p) && p[0] in parents && p[|p| - 1] == child && Meets(p, child)
  }

  /** No way up to `child` has more than the depth bound's edges. */
  ghost predicate ShortWays(g: Graph, child: Node, parents: seq<Node>) {
    forall p :: Way(g, child, parents, p) ==> |p| <= 33
  }

  /** Every way up to `child` has more than the depth bound's edges. */
  ghost predicate LongWays(g: Graph, child: Node, parents: seq<Node>) {
    forall p :: Way(g, child, parents, p) ==> |p| > 33
  }

  /** However `n` is reached from the parents, that takes fewer edges than the depth bound. */
  ghost predicate Near(g: Graph, child: Node, parents: seq<Node>, n: Node) {
    forall p :: Walk(g, p) && p[0] in parents && p[|p| - 1] == n && Meets(p, child) ==> |p| <= 32
  }

  /** A way up to `child` on which no node is ever met at the depth bound. */
  ghost predicate ClearWay(g: Graph, child: Node, parents: seq<Node>, p: seq<Node>) {
    Way(g, child, parents, p) && forall i :: 0 <= i < |p| - 1 ==> Near(g, child, parents, p[i])
  }

  lemma {:induction false} EntriesExact(nodes: seq<Node>, depth: nat, e: (Node, nat))
    ensures e in Entries(nodes, depth) <==> e.0 in nodes && e.1 == depth
  {
    if nodes != [] {
      var init, last := nodes[..|nodes| - 1], nodes[|nodes| - 1];
      EntriesExact(init, depth, e);
      assert nodes == init + [last];
    }
  }

  lemma ExpandKeepsStack(g: Graph, child: Node, parents: seq<Node>, stack: seq<(Node, nat)>, node: Node, depth: nat)
    requires node != child
    requires StackOk(g, child, parents, stack) && EntryOk(g, child, parents, (node, depth)) && node in g
    ensures StackOk(g, child, parents, stack + Entries(g[node], depth + 1))
  {
    forall e | e in Entries(g[node], depth + 1)
      ensures EntryOk(g, child, parents, e)
    {
      EntriesExact(g[node], depth + 1, e);
      var p :| Walk(g, p) && |p| == depth + 1 && p[0] in parents && p[|p| - 1] == node && Meets(p, child);
      ExtendWalk(g, p, e.0);
      var q := p + [e.0];
      assert Walk(g, q) && |q| == e.1 + 1 && q[0] in parents && q[|q| - 1] == e.0 && Meets(q, child);
    }
  }

  lemma RoundKeepsStack(g: Graph, child: Node, parents: seq<Node>, stack: seq<(Node, nat)>, visited: set<Node>)
    requires stack != [] && stack[|stack| - 1].0 != child && StackOk(g, child, parents, stack)
    ensures StackOk(g, child, parents, Pushed(g, stack, visited))
  {
    var node, depth, rest := stack[|stack| - 1].0, stack[|stack| - 1].1, stack[..|stack| - 1];
    PopOk(g, child, parents, stack, (node, depth));
    if node in g { ExpandKeepsStack(g, child, parents, rest, node, depth); }
    PushedIs(g, stack, visited, node, depth, rest);
  }

  lemma PopOk(g: Graph, child: Node, parents: seq<Node>, stack: seq<(Node, nat)>, top: (Node, nat))
    requires stack != [] && top == stack[|stack| - 1] && StackOk(g, child, parents, stack)
    ensures EntryOk(g, child, parents, top) && StackOk(g, child, parents, stack[..|stack| - 1])
  {
    assert top in stack;
    assert forall e :: e in stack[..|stack| - 1] ==> e in stack;
  }

  lemma PushedIs(g: Graph, stack: seq<(Node, nat)>, visited: set<Node>, node: Node, depth: nat, rest: seq<(Node, nat)>)
    requires stack != [] && stack[|stack| - 1] == (node, depth) && rest == stack[..|stack| - 1]
    ensures Pushed(g, stack, visited)
         == if node in visited || depth >= MAX_LINEAGE_DEPTH || node !in g then rest
            else rest + Entries(g[node], depth + 1)
  {
  }

  /** A reported cycle is real, whatever the depth. */
  lemma {:induction false} SearchIsSound(g: Graph, child: Node, parents: seq<Node>, stack: seq<(Node, nat)>,
                                         visited: set<Node>)
    requires StackOk(g, child, parents, stack) && Search(g, child, stack, visited)
    ensures IsAncestor(g, child, parents)
    decreases g.Keys - visited, |stack|
  {
    var top := stack[|stack| - 1];
    if top.0 == child {
      assert top in stack && EntryOk(g, child, parents, top);
    } else {
      RoundKeepsStack(g, child, parents, stack, visited);
      SearchIsSound(g, child, parents, Pushed(g, stack, visited), Marked(stack, visited));
    }
  }

  ghost function StackNodes(stack: seq<(Node, nat)>): set<Node> {
    set e | e in stack :: e.0
  }

  /** The successors of the nodes in `part` that are never met at the depth bound are in `bound`. */
  ghost predicate ClosedUnder(g: Graph, child: Node, parents: seq<Node>, part: set<Node>, bound: set<Node>) {
    forall a, b :: a in part && Edge(g, a, b) && Near(g, child, parents, a) ==> b in bound
  }

  /** The part of a walk to `child` up to the first time it gets there. */
  lemma FirstMeeting(g: Graph, q: seq<Node>, child: Node) returns (w: seq<Node>)
    requires Walk(g, q) && q[|q| - 1] == child
    ensures WalkFromTo(g, w, q[0], child) && Meets(w, child)
  {
    var j := IndexOf(q, child);
    SubWalk(g, q, 0, j + 1);
    w := q[0..j + 1];
    forall i | 0 <= i < |w| - 1 ensures w[i] != child {
      assert w[i] == q[..j][i];
    }
  }

  lemma LongerWay(g: Graph, child: Node, parents: seq<Node>, p: seq<Node>, w: seq<Node>)
    requires Walk(g, p) && p[0] in parents && Meets(p, child) && p[|p| - 1] != child
    requires WalkFromTo(g, w, p[|p| - 1], child) && Meets(w, child) && Walk(g, p + w[1..])
    ensures |p + w[1..]| > |p| && Way(g, child, parents, p + w[1..])
  {
    var way := p + w[1..];
    forall i | 0 <= i < |way| - 1 ensures way[i] != child {
      if i >= |p| - 1 { assert way[i] == w[i - |p| + 1]; }
    }
  }

  lemma PopNodes(stack: seq<(Node, nat)>)
    requires stack != []
    ensures StackNodes(stack) == StackNodes(stack[..|stack| - 1]) + {stack[|stack| - 1].0}
  {
    assert stack == stack[..|stack| - 1] + [stack[|stack| - 1]];
  }

  lemma PushNodes(stack: seq<(Node, nat)>, nodes: seq<Node>, depth: nat)
    ensures StackNodes(stack + Entries(nodes, depth)) == StackNodes(stack) + Elems(nodes)
  {
    forall n
      ensures n in StackNodes(stack + Entries(nodes, depth)) <==> n in StackNodes(stack) + Elems(nodes)
    {
      EntriesExact(nodes, depth, (n, depth));
      forall e | e in Entries(nodes, depth)
        ensures e.0 in nodes
      {
        EntriesExact(nodes, depth, e);
      }
    }
  }

  /** A round puts the ancestors of the dropped node on the stack, unless it was expanded before or is deep. */
  lemma TopIsExpanded(g: Graph, child: Node, parents: seq<Node>, stack: seq<(Node, nat)>, visited: set<Node>, b: Node)
    requires stack != [] && StackOk(g, child, parents, stack)
    requires Edge(g, stack[|stack| - 1].0, b) && Near(g, child, parents, stack[|stack| - 1].0)
    ensures stack[|stack| - 1].0 in visited || b in StackNodes(Pushed(g, stack, visited))
  {
    var top := stack[|stack| - 1];
    PopOk(g, child, parents, stack, top);
    NearIsNotDeep(g, child, parents, top);
    ExpandedTop(g, stack, visited, top.0, top.1, b);
  }

  lemma ExpandedTop(g: Graph, stack: seq<(Node, nat)>, visited: set<Node>, node: Node, depth: nat, b: Node)
    requires stack != [] && stack[|stack| - 1] == (node, depth) && depth < MAX_LINEAGE_DEPTH && Edge(g, node, b)
    ensures node in visited || b in StackNodes(Pushed(g, stack, visited))
  {
    var rest := stack[..|stack| - 1];
    PushNodes(rest, g[node], depth + 1);
    PushedIs(g, stack, visited, node, depth, rest);
  }

  lemma NearIsNotDeep(g: Graph, child: Node, parents: seq<Node>, e: (Node, nat))
    requires EntryOk(g, child, parents, e) && Near(g, child, parents, e.0)
    ensures e.1 < MAX_LINEAGE_DEPTH
  {
  }

  lemma RestStays(g: Graph, stack: seq<(Node, nat)>, visited: set<Node>)
    requires stack != []
    ensures StackNodes(stack) <= StackNodes(Pushed(g, stack, visited)) + {stack[|stack| - 1].0}
  {
    var top, rest := stack[|stack| - 1], stack[..|stack| - 1];
    PopNodes(stack);
    if top.0 in g { PushNodes(rest, g[top.0], top.1 + 1); }
  }

  lemma RoundKeepsClosed(g: Graph, child: Node, parents: seq<Node>, stack: seq<(Node, nat)>, visited: set<Node>,
                         seen: set<Node>)
    requires stack != [] && StackOk(g, child, parents, stack)
    requires visited <= seen && ClosedUnder(g, child, parents, seen, seen + StackNodes(stack))
    ensures var seen' := seen + {stack[|stack| - 1].0};
      ClosedUnder(g, child, parents, seen', seen' + StackNodes(Pushed(g, stack, visited)))
  {
    var top := stack[|stack| - 1].0;
    RestStays(g, stack, visited);
    forall a, b | a in seen + {top} && Edge(g, a, b) && Near(g, child, parents, a)
      ensures b in seen + {top} + StackNodes(Pushed(g, stack, visited))
    {
      if a !in seen { TopIsExpanded(g, child, parents, stack, visited, b); }
    }
  }

  /** When the search comes back empty, what it saw is closed under edges from nodes that are never met at the depth
      bound, and does not include the child. */
  lemma {:induction false} SearchIsComplete(g: Graph, child: Node, parents: seq<Node>, stack: seq<(Node, nat)>,
                                            visited: set<Node>, seen: set<Node>) returns (closed: set<Node>)
    requires StackOk(g, child, parents, stack) && !Search(g, child, stack, visited)
    requires visited <= seen && child !in seen && ClosedUnder(g, child, parents, seen, seen + StackNodes(stack))
    ensures seen + StackNodes(stack) <= closed && child !in closed && ClosedUnder(g, child, parents, closed, closed)
    decreases g.Keys - visited, |stack|
  {
    if stack == [] {
      closed := seen;
    } else {
      RoundKeepsStack(g, child, parents, stack, visited);
      RoundKeepsClosed(g, child, parents, stack, visited, seen);
      closed := SearchIsComplete(g, child, parents, Pushed(g, stack, visited), Marked(stack, visited),
                                 seen + {stack[|stack| - 1].0});
      RestStays(g, stack, visited);
    }
  }

  lemma StartStack(g: Graph, child: Node, parents: seq<Node>)
    ensures StackOk(g, child, parents, Entries(parents, 0)) && StackNodes(Entries(parents, 0)) == Elems(parents)
  {
    forall e | e in Entries(parents, 0)
      ensures EntryOk(g, child, parents, e)
    {
      EntriesExact(parents, 0, e);
      assert Walk(g, [e.0]) && |[e.0]| == 1 && Meets([e.0], child);
    }
    PushNodes([], parents, 0);
    assert [] + Entries(parents, 0) == Entries(parents, 0);
  }

  lemma {:induction false} ClearWayStaysClosed(g: Graph, child: Node, parents: seq<Node>, closed: set<Node>,
                                               p: seq<Node>, i: nat)
    requires ClearWay(g, child, parents, p) && ClosedUnder(g, child, parents, closed, closed)
    requires p[0] in closed && i < |p|
    ensures p[i] in closed
  {
    if i > 0 {
      ClearWayStaysClosed(g, child, parents, closed, p, i - 1);
      assert Hop(g, p, i - 1) && Near(g, child, parents, p[i - 1]);
    }
  }

  /** A clear way is found. */
  lemma ClearWayIsFound(g: Graph, child: Node, parents: seq<Node>, p: seq<Node>)
    requires ClearWay(g, child, parents, p)
    ensures Search(g, child, Entries(parents, 0), {})
  {
    if !Search(g, child, Entries(parents, 0), {}) {
      StartStack(g, child, parents);
      var closed := SearchIsComplete(g, child, parents, Entries(parents, 0), {}, {});
      assert p[0] in Elems(parents);
      ClearWayStaysClosed(g, child, parents, closed, p, |p| - 1);
    }
  }

  /** Where all ways up to `child` are short, they are clear. */
  lemma ShortWaysAreClear(g: Graph, child: Node, parents: seq<Node>, way: seq<Node>)
    requires ShortWays(g, child, parents) && Way(g, child, parents, way)
    ensures ClearWay(g, child, parents, way)
  {
    forall i, p | 0 <= i < |way| - 1 && Walk(g, p) && p[0] in parents && p[|p| - 1] == way[i] && Meets(p, child)
      ensures |p| <= MAX_LINEAGE_DEPTH
    {
      var w := way[i..|way|];
      SubWalk(g, way, i, |way|);
      JoinWalks(g, p, w);
      LongerWay(g, child, parents, p, w);
    }
  }

  lemma ShortWaysAreFound(g: Graph, child: Node, parents: seq<Node>)
    requires ShortWays(g, child, parents) && IsAncestor(g, child, parents)
    ensures Search(g, child, Entries(parents, 0), {})
  {
    var q :| Walk(g, q) && q[0] in parents && q[|q| - 1] == child;
    var way := FirstMeeting(g, q, child);
    ShortWaysAreClear(g, child, parents, way);
    ClearWayIsFound(g, child, parents, way);
  }

  /** No entry is deeper than the bound, so a `child` that is only further away does not turn up. */
  lemma {:induction false} FarIsMissed(g: Graph, child: Node, parents: seq<Node>, stack: seq<(Node, nat)>,
                                       visited: set<Node>)
    requires LongWays(g, child, parents) && StackOk(g, child, parents, stack)
    requires forall e :: e in stack ==> e.1 <= MAX_LINEAGE_DEPTH
    ensures !Search(g, child, stack, visited)
    decreases g.Keys - visited, |stack|
  {
    if stack != [] {
      var top := stack[|stack| - 1];
      assert top in stack && EntryOk(g, child, parents, top);
      NotYet(g, child, parents, top);
      RoundKeepsStack(g, child, parents, stack, visited);
      RoundKeepsDepth(g, stack, visited);
      FarIsMissed(g, child, parents, Pushed(g, stack, visited), Marked(stack, visited));
    }
  }

  lemma NotYet(g: Graph, child: Node, parents: seq<Node>, e: (Node, nat))
    requires LongWays(g, child, parents) && EntryOk(g, child, parents, e) && e.1 <= MAX_LINEAGE_DEPTH
    ensures e.0 != child
  {
    var p :| Walk(g, p) && |p| == e.1 + 1 && p[0] in parents && p[|p| - 1] == e.0 && Meets(p, child);
    assert e.0 == child ==> Way(g, child, parents, p);
  }

  lemma RoundKeepsDepth(g: Graph, stack: seq<(Node, nat)>, visited: set<Node>)
    requires stack != [] && forall e :: e in stack ==> e.1 <= MAX_LINEAGE_DEPTH
    ensures forall e :: e in Pushed(g, stack, visited) ==> e.1 <= MAX_LINEAGE_DEPTH
  {
    var top, rest := stack[|stack| - 1], stack[..|stack| - 1];
    assert top in stack && forall e :: e in rest ==> e in stack;
    forall e | e in Pushed(g, stack, visited) ensures e.1 <= MAX_LINEAGE_DEPTH {
      if e !in rest { EntriesExact(g[top.0], top.1 + 1, e); }
    }
  }

  /** The check: a rejection always has a real chain of ancestors behind it, of at most 32 links. A clear way up to the
      child is found; so if no way up to it has more than 32 links, the check finds exactly the cycles there are. */
  lemma CheckIsExact(g: Graph, child: Node, parents: seq<Node>)
    ensures Search(g, child, Entries(parents, 0), {}) ==> IsAncestor(g, child, parents)
    ensures LongWays(g, child, parents) ==> !Search(g, child, Entries(parents, 0), {})
    ensures forall p :: ClearWay(g, child, parents, p) ==> Search(g, child, Entries(parents, 0), {})
    ensures ShortWays(g, child, parents) ==>
      (Search(g, child, Entries(parents, 0), {}) <==> IsAncestor(g, child, parents))
  {
    StartStack(g, child, parents);
    if Search(g, child, Entries(parents, 0), {}) { SearchIsSound(g, child, parents, Entries(parents, 0), {}); }
    if LongWays(g, child, parents) {
      forall e | e in Entries(parents, 0) ensures e.1 <= MAX_LINEAGE_DEPTH { EntriesExact(parents, 0, e); }
      FarIsMissed(g, child, parents, Entries(parents, 0), {});
    }
    forall p | ClearWay(g, child, parents, p) ensures Search(g, child, Entries(parents, 0), {}) {
      ClearWayIsFound(g, child, parents, p);
    }
    if ShortWays(g, child, parents) && IsAncestor(g, child, parents) { ShortWaysAreFound(g, child, parents); }
  }

  /** A walk of the updated graph that leaves `child` at most at its end is a walk of the old one. */
  lemma OldWalk(g: Graph, child: Node, targets: seq<Node>, p: seq<Node>)
    requires Walk(g[child := targets], p) && forall i :: 0 <= i < |p| - 1 ==> p[i] != child
    ensures Walk(g, p)
  {
    forall i | 0 <= i < |p| - 1
      ensures Hop(g, p, i)
    {
      assert Hop(g[child := targets], p, i);
    }
  }

  /** Pointing `child` at nodes from which it cannot be reached creates no cycle. */
  lemma RedirectKeepsAcyclic(g: Graph, child: Node, targets: seq<Node>)
    requires Acyclic(g) && !IsAncestor(g, child, targets)
    ensures Acyclic(g[child := targets])
  {
    var g' := g[child := targets];
    forall p | Walk(g', p) && |p| >= 2
      ensures p[0] != p[|p| - 1]
    {
      if p[0] == p[|p| - 1] {
        if child in p[..|p| - 1] {
          var q := RotateTo(g', p, child);
          FirstReturn(g, child, targets, q);
        } else {
          assert forall i :: 0 <= i < |p| - 1 ==> p[i] == p[..|p| - 1][i];
          OldWalk(g, child, targets, p);
        }
      }
    }
  }

  /** ... and pointing it at a node from which it can be reached does. */
  lemma RedirectClosesCycle(g: Graph, child: Node, targets: seq<Node>)
    requires IsAncestor(g, child, targets)
    ensures !Acyclic(g[child := targets])
  {
    var g' := g[child := targets];
    var p :| Walk(g, p) && p[0] in targets && p[|p| - 1] == child;
    var j := IndexOf(p, child);
    SubWalk(g, p, 0, j + 1);
    var w := p[0..j + 1];
    forall i | 0 <= i < |w| - 1 ensures Hop(g', w, i) {
      assert w[i] == p[..j][i] && Hop(g, w, i);
    }
    ReturnClosesCycle(g', child, w);
  }

  /** A closed walk can start at any of its nodes. */
  lemma RotateTo(g: Graph, p: seq<Node>, n: Node) returns (q: seq<Node>)
    requires Walk(g, p) && |p| >= 2 && p[0] == p[|p| - 1] && n in p[..|p| - 1]
    ensures Walk(g, q) && |q| >= 2 && q[0] == n && q[|q| - 1] == n
  {
    var i := IndexOf(p[..|p| - 1], n);
    SubWalk(g, p, i, |p|);
    SubWalk(g, p, 0, i + 1);
    JoinWalks(g, p[i..|p|], p[0..i + 1]);
    q := p[i..|p|] + p[0..i + 1][1..];
  }

  /** From `child` around to its first return, all but the first edge are old. */
  lemma FirstReturn(g: Graph, child: Node, targets: seq<Node>, q: seq<Node>)
    requires Walk(g[child := targets], q) && |q| >= 2 && q[0] == child && q[|q| - 1] == child
    ensures IsAncestor(g, child, targets)
  {
    var g' := g[child := targets];
    var tail := q[1..];
    var j := IndexOf(tail, child);
    SubWalk(g', q, 1, j + 2);
    var w := q[1..j + 2];
    assert w == tail[..j + 1];
    forall i | 0 <= i < |w| - 1
      ensures w[i] != child
    {
      assert w[i] == tail[..j][i];
    }
    OldWalk(g, child, targets, w);
    assert Hop(g', q, 0);
    assert w[0] in targets && w[|w| - 1] == child;
  }

  /** A change of the task store that touches lineage. */
  datatype Change =
    | Submit(t: Task, parent: Option<Task>)
    | Depend(c: Task, parents: seq<Task>)

  /** What goes through: any submission, whatever parent it names, and a registration that names existing tasks
      and passes the cycle check. */
  ghost predicate Possible(tasks: map<Task, Record>, ch: Change) {
    match ch
    case Submit(_, _) => true
    case Depend(c, parents) =>
      && parents != [] && c in tasks && (forall p :: p in parents ==> p in tasks)
      && !Search(LineageGraph(tasks), c, Entries(parents, 0), {})
  }

  /** The changed task is no ancestor of the tasks it is newly linked to. */
  ghost predicate Harmless(tasks: map<Task, Record>, ch: Change) {
    match ch
    case Submit(t, parent) => parent.Some? ==> !IsAncestor(LineageGraph(tasks), t, [parent.value])
    case Depend(c, parents) => !IsAncestor(LineageGraph(tasks), c, parents)
  }

  /** What a caller can keep to: a task is submitted under a fresh identifier with an existing parent; a registration
      finds no way longer than the depth bound from its parents up to the child. */
  ghost predicate Accepted(tasks: map<Task, Record>, ch: Change) {
    match ch
    case Submit(t, parent) => t !in tasks && (parent.Some? ==> parent.value in tasks)
    case Depend(c, parents) =>
      && parents != [] && c in tasks && (forall p :: p in parents ==> p in tasks)
      && !Search(LineageGraph(tasks), c, Entries(parents, 0), {})
      && ShortWays(LineageGraph(tasks), c, parents)
  }

  function Applied(tasks: map<Task, Record>, ch: Change): map<Task, Record> {
    match ch
    case Submit(t, parent) => tasks[t := Record("pending", parent, [])]
    case Depend(c, parents) => if c in tasks then tasks[c := tasks[c].(dependsOn := parents)] else tasks
  }

  /** Lineage refers to existing tasks only. */
  ghost predicate WellLinked(tasks: map<Task, Record>) {
    forall a, b :: Edge(LineageGraph(tasks), a, b) ==> b in tasks
  }

  function Changed(ch: Change): Task {
    match ch case Submit(t, _) => t case Depend(c, _) => c
  }

  lemma AppliedGraph(tasks: map<Task, Record>, ch: Change)
    requires Possible(tasks, ch)
    ensures Changed(ch) in Applied(tasks, ch)
    ensures LineageGraph(Applied(tasks, ch)) ==
      LineageGraph(tasks)[Changed(ch) := Links(Applied(tasks, ch)[Changed(ch)])]
  {
  }

  /** A submitted task has no descendants yet; a registered child was found not to be an ancestor. */
  lemma SubmittedIsNew(tasks: map<Task, Record>, t: Task, links: seq<Node>)
    requires t !in tasks && WellLinked(tasks) && forall b :: b in links ==> b in tasks
    ensures !IsAncestor(LineageGraph(tasks), t, links)
  {
    var g := LineageGraph(tasks);
    if IsAncestor(g, t, links) {
      var p :| Walk(g, p) && p[0] in links && p[|p| - 1] == t;
      ClosedSetHoldsWalk(g, tasks.Keys, p);
    }
  }

  /** In an acyclic graph no task is an ancestor of its own parent, so only the new dependencies matter. */
  lemma OnlyDependenciesMatter(tasks: map<Task, Record>, c: Task, parents: seq<Node>)
    requires c in tasks && Acyclic(LineageGraph(tasks))
    ensures var g := LineageGraph(tasks);
      IsAncestor(g, c, Links(tasks[c].(dependsOn := parents))) <==> IsAncestor(g, c, parents)
  {
    var g, links := LineageGraph(tasks), Links(tasks[c].(dependsOn := parents));
    if IsAncestor(g, c, links) {
      var p :| Walk(g, p) && p[0] in links && p[|p| - 1] == c;
      if p[0] !in parents {
        assert Edge(g, c, p[0]);
        ReturnClosesCycle(g, c, p);
      }
    }
    if IsAncestor(g, c, parents) {
      var p :| Walk(g, p) && p[0] in parents && p[|p| - 1] == c;
      assert p[0] in links;
    }
  }

  lemma ReturnClosesCycle(g: Graph, c: Node, p: seq<Node>)
    requires Walk(g, p) && Edge(g, c, p[0]) && p[|p| - 1] == c
    ensures !Acyclic(g)
  {
    var q := [c, p[0]];
    assert Hop(g, q, 0);
    JoinWalks(g, q, p);
    assert Walk(g, q + p[1..]) && |q + p[1..]| >= 2;
  }

  lemma NoParentNoAncestor(g: Graph, t: Node)
    ensures !IsAncestor(g, t, [])
  {
  }

  /** One change keeps the combined lineage and dependency graph acyclic if and only if it is harmless. */
  lemma ChangeKeepsAcyclicIff(tasks: map<Task, Record>, ch: Change)
    requires Possible(tasks, ch) && Acyclic(LineageGraph(tasks))
    ensures Acyclic(LineageGraph(Applied(tasks, ch))) <==> Harmless(tasks, ch)
  {
    var g, links := LineageGraph(tasks), Links(Applied(tasks, ch)[Changed(ch)]);
    AppliedGraph(tasks, ch);
    match ch {
      case Submit(t, parent) =>
        if parent.None? { NoParentNoAncestor(g, t); }
        assert links == if parent.Some? then [parent.value] else [];
      case Depend(c, parents) => OnlyDependenciesMatter(tasks, c, parents);
    }
    if IsAncestor(g, Changed(ch), links) {
      RedirectClosesCycle(g, Changed(ch), links);
    } else {
      RedirectKeepsAcyclic(g, Changed(ch), links);
    }
  }

  /** Keeping to the guard is harmless. */
  lemma AcceptedIsHarmless(tasks: map<Task, Record>, ch: Change)
    requires Accepted(tasks, ch) && WellLinked(tasks)
    ensures Possible(tasks, ch) && Harmless(tasks, ch)
  {
    match ch
    case Submit(t, parent) => if parent.Some? { SubmittedIsNew(tasks, t, [parent.value]); }
    case Depend(c, parents) => CheckIsExact(LineageGraph(tasks), c, parents);
  }

  lemma ChangeKeepsLinks(tasks: map<Task, Record>, ch: Change)
    requires Accepted(tasks, ch) && WellLinked(tasks)
    ensures WellLinked(Applied(tasks, ch))
  {
    AcceptedIsHarmless(tasks, ch);
    AppliedGraph(tasks, ch);
    forall a, b | Edge(LineageGraph(Applied(tasks, ch)), a, b)
      ensures b in Applied(tasks, ch)
    {
      if a != Changed(ch) {
        assert Edge(LineageGraph(tasks), a, b);
      } else {
        LinkExists(tasks, ch, b);
      }
    }
  }

  lemma LinkExists(tasks: map<Task, Record>, ch: Change, b: Node)
    requires Accepted(tasks, ch) && WellLinked(tasks)
    requires b in Links(Applied(tasks, ch)[Changed(ch)])
    ensures b in tasks
  {
    if ch.Depend? && b !in ch.parents { assert Edge(LineageGraph(tasks), ch.c, b); }
  }

  ghost function History(changes: seq<Change>): map<Task, Record> {
    if changes == [] then map[] else Applied(History(changes[..|changes| - 1]), changes[|changes| - 1])
  }

  /** Every change goes through in the store its predecessors leave. */
  ghost predicate AllPossible(changes: seq<Change>) {
    forall k :: 0 <= k < |changes| ==> Possible(History(changes[..k]), changes[k])
  }

  ghost predicate AcyclicUpTo(changes: seq<Change>) {
    Acyclic(LineageGraph(History(changes))) && (changes != [] ==> AcyclicUpTo(changes[..|changes| - 1]))
  }

  ghost predicate AllHarmless(changes: seq<Change>) {
    changes != [] ==>
      var init := changes[..|changes| - 1];
      AllHarmless(init) && Harmless(History(init), changes[|changes| - 1])
  }

  lemma EmptyIsAcyclic()
    ensures Acyclic(LineageGraph(map[]))
  {
    OrderedIsAcyclic(LineageGraph(map[]), []);
  }

  lemma PossiblePrefix(changes: seq<Change>)
    requires changes != [] && AllPossible(changes)
    ensures AllPossible(changes[..|changes| - 1])
    ensures Possible(History(changes[..|changes| - 1]), changes[|changes| - 1])
  {
    var init := changes[..|changes| - 1];
    assert forall k :: 0 <= k < |init| ==> init[..k] == changes[..k];
  }

  /** Over every sequence of submissions and registrations, the graph stays acyclic throughout if and only if every
      change is harmless when it is made. */
  lemma {:induction false} HistoryAcyclicIff(changes: seq<Change>)
    requires AllPossible(changes)
    ensures AcyclicUpTo(changes) <==> AllHarmless(changes)
  {
    if changes == [] {
      EmptyIsAcyclic();
    } else {
      var init := changes[..|changes| - 1];
      PossiblePrefix(changes);
      HistoryAcyclicIff(init);
      if AcyclicUpTo(init) { ChangeKeepsAcyclicIff(History(init), changes[|changes| - 1]); }
    }
  }

  /** Registration keeps the graph acyclic, over every sequence of submissions and registrations within the guard. */
  lemma {:induction false} RegistrationsKeepAcyclic(changes: seq<Change>)
    requires forall k :: 0 <= k < |changes| ==> Accepted(History(changes[..k]), changes[k])
    ensures AllHarmless(changes) && WellLinked(History(changes)) && AcyclicUpTo(changes)
  {
    if changes == [] {
      EmptyIsAcyclic();
    } else {
      var n := |changes| - 1;
      var init := changes[..n];
      assert forall k :: 0 <= k < n ==> init[..k] == changes[..k];
      RegistrationsKeepAcyclic(init);
      AcceptedIsHarmless(History(init), changes[n]);
      ChangeKeepsAcyclicIff(History(init), changes[n]);
      ChangeKeepsLinks(History(init), changes[n]);
    }
  }

  /** The guard on submissions is needed: two tasks submitted under each other close a cycle that nothing checks. */
  lemma UnknownParentClosesCycle(a: Task, b: Task)
    ensures var changes := [Submit(a, Some(b)), Submit(b, Some(a))];
      AllPossible(changes) && !Acyclic(LineageGraph(History(changes)))
  {
    var first, both := [Submit(a, Some(b))], [Submit(a, Some(b)), Submit(b, Some(a))];
    assert both[..1] == first && first[..0] == [];
    assert History(first) == map[a := Record("pending", Some(b), [])];
    assert History(both) == History(first)[b := Record("pending", Some(a), [])];
    var g := LineageGraph(History(both));
    assert Links(Record("pending", Some(a), [])) == [a] && Links(Record("pending", Some(b), [])) == [b];
    assert Edge(g, b, a) && Edge(g, a, b);
    var p := [a, b, a];
    assert Hop(g, p, 0) && Hop(g, p, 1);
  }

  // The bound is real: a chain of submissions, each under the one before, and one registration that closes a cycle.

  function Rung(i: nat): Node {
    Node(seq(i, _ => 'x'))
  }

  lemma RungsDiffer(i: nat, j: nat)
    requires i != j
    ensures Rung(i) != Rung(j)
  {
    assert |Rung(i).text| == i && |Rung(j).text| == j;
  }

  function ParentRung(k: nat, i: nat): Option<Task> {
    if i >= k then None else Some(Rung(i + 1))
  }

  /** The first `n` submissions of a chain of `k` links: rung `k` is the root, and each rung is submitted under the
      next higher one. */
  ghost function Climbers(k: nat, n: nat): seq<Change>
    requires n <= k + 1
  {
    if n == 0 then [] else Climbers(k, n - 1) + [Submit(Rung(k + 1 - n), ParentRung(k, k + 1 - n))]
  }

  predicate HasRung(tasks: map<Task, Record>, k: nat, i: nat) {
    Rung(i) in tasks && tasks[Rung(i)] == Record("pending", ParentRung(k, i), [])
  }

  /** The store holds the rungs from `lo` to `k`, linked upwards. */
  ghost predicate IsLadder(tasks: map<Task, Record>, k: nat, lo: nat) {
    forall i: nat :: lo <= i <= k ==> HasRung(tasks, k, i)
  }

  lemma {:induction false} ClimbersBuild(k: nat, n: nat)
    requires n <= k + 1
    ensures IsLadder(History(Climbers(k, n)), k, k + 1 - n) && AllPossible(Climbers(k, n))
  {
    if n > 0 {
      ClimbersBuild(k, n - 1);
      var init, last := Climbers(k, n - 1), Submit(Rung(k + 1 - n), ParentRung(k, k + 1 - n));
      HistoryOneMore(init, last);
      LadderGrows(History(init), k, k + 1 - n);
      OneMorePossible(init, last);
    }
  }

  lemma HistoryOneMore(changes: seq<Change>, ch: Change)
    ensures History(changes + [ch]) == Applied(History(changes), ch)
  {
    assert (changes + [ch])[..|changes|] == changes;
  }

  lemma LadderGrows(tasks: map<Task, Record>, k: nat, lo: nat)
    requires lo <= k && IsLadder(tasks, k, lo + 1)
    ensures IsLadder(tasks[Rung(lo) := Record("pending", ParentRung(k, lo), [])], k, lo)
  {
    var tasks' := tasks[Rung(lo) := Record("pending", ParentRung(k, lo), [])];
    forall i: nat | lo <= i <= k ensures HasRung(tasks', k, i) {
      if i > lo {
        RungsDiffer(i, lo);
        assert HasRung(tasks, k, i);
      }
    }
  }

  lemma OneMorePossible(changes: seq<Change>, ch: Change)
    requires AllPossible(changes) && Possible(History(changes), ch)
    ensures AllPossible(changes + [ch])
  {
    var more := changes + [ch];
    forall i | 0 <= i < |more| ensures Possible(History(more[..i]), more[i]) {
      assert more[..i] == if i < |changes| then changes[..i] else changes;
    }
  }

  lemma LadderEdge(tasks: map<Task, Record>, k: nat, i: nat)
    requires IsLadder(tasks, k, 0) && i <= k
    ensures Rung(i) in LineageGraph(tasks)
    ensures LineageGraph(tasks)[Rung(i)] == if i < k then [Rung(i + 1)] else []
  {
    assert HasRung(tasks, k, i);
  }

  function Climb(i: nat, k: nat): (p: seq<Node>)
    requires i <= k
    ensures |p| == k - i + 1 && forall j: nat :: j <= k - i ==> p[j] == Rung(i + j)
    decreases k - i
  {
    if i == k then [Rung(k)] else [Rung(i)] + Climb(i + 1, k)
  }

  lemma LadderHop(tasks: map<Task, Record>, k: nat, i: nat, j: nat)
    requires IsLadder(tasks, k, 0) && i + j < k
    ensures Hop(LineageGraph(tasks), Climb(i, k), j)
  {
    LadderEdge(tasks, k, i + j);
    assert Climb(i, k)[j] == Rung(i + j) && Climb(i, k)[j + 1] == Rung(i + (j + 1));
    assert [Rung(i + j + 1)][0] == Rung(i + j + 1);
  }

  lemma LadderWalk(tasks: map<Task, Record>, k: nat, i: nat)
    requires IsLadder(tasks, k, 0) && i <= k
    ensures WalkFromTo(LineageGraph(tasks), Climb(i, k), Rung(i), Rung(k))
  {
    forall j | 0 <= j < k - i ensures Hop(LineageGraph(tasks), Climb(i, k), j) {
      LadderHop(tasks, k, i, j);
    }
    assert Climb(i, k)[0] == Rung(i + 0) && Climb(i, k)[k - i] == Rung(i + (k - i));
  }

  /** On the ladder there is one way up only. */
  lemma {:induction false} OnlyWayUp(tasks: map<Task, Record>, k: nat, i: nat, p: seq<Node>, j: nat)
    requires IsLadder(tasks, k, 0) && i <= k && Walk(LineageGraph(tasks), p) && p[0] == Rung(i) && j < |p|
    ensures i + j <= k && p[j] == Rung(i + j)
  {
    if j > 0 {
      OnlyWayUp(tasks, k, i, p, j - 1);
      assert Hop(LineageGraph(tasks), p, j - 1);
      NextRung(tasks, k, i + j - 1, p[j]);
    }
  }

  lemma OneSuccessor(n: Node, x: Node)
    requires x in [n]
    ensures x == n
  {
  }

  lemma NextRung(tasks: map<Task, Record>, k: nat, i: nat, x: Node)
    requires IsLadder(tasks, k, 0) && i <= k && Edge(LineageGraph(tasks), Rung(i), x)
    ensures i < k && x == Rung(i + 1)
  {
    LadderEdge(tasks, k, i);
    OneSuccessor(Rung(i + 1), x);
  }

  lemma WaysOnLadder(tasks: map<Task, Record>, k: nat, p: seq<Node>)
    requires IsLadder(tasks, k, 0) && Way(LineageGraph(tasks), Rung(k), [Rung(0)], p)
    ensures |p| == k + 1
  {
    OnlyWayUp(tasks, k, 0, p, |p| - 1);
    assert |Rung(|p| - 1).text| == |p| - 1 && |Rung(k).text| == k;
  }

  lemma LadderCloses(tasks: map<Task, Record>, k: nat, i: nat, parents: seq<Task>)
    requires IsLadder(tasks, k, 0) && i <= k && Rung(i) in parents
    ensures !Harmless(tasks, Depend(Rung(k), parents))
  {
    LadderWalk(tasks, k, i);
  }

  /** Registering the root of a chain of `k` submissions below its lowest task closes a cycle. The registration is
      accepted if and only if the chain has more than 32 links. */
  lemma LadderCaughtUpToBound(k: nat)
    ensures var changes := Climbers(k, k + 1);
      && AllPossible(changes)
      && !Harmless(History(changes), Depend(Rung(k), [Rung(0)]))
      && (Possible(History(changes), Depend(Rung(k), [Rung(0)])) <==> k > 32)
  {
    var tasks, parents := History(Climbers(k, k + 1)), [Rung(0)];
    ClimbersBuild(k, k + 1);
    LadderOutcome(tasks, k, parents);
  }

  lemma LadderOutcome(tasks: map<Task, Record>, k: nat, parents: seq<Task>)
    requires IsLadder(tasks, k, 0) && parents == [Rung(0)]
    ensures !Harmless(tasks, Depend(Rung(k), parents))
    ensures Possible(tasks, Depend(Rung(k), parents)) <==> k > MAX_LINEAGE_DEPTH
  {
    LadderCloses(tasks, k, 0, parents);
    forall p | Way(LineageGraph(tasks), Rung(k), parents, p) ensures |p| == k + 1 { WaysOnLadder(tasks, k, p); }
    CheckIsExact(LineageGraph(tasks), Rung(k), parents);
    assert HasRung(tasks, k, k) && HasRung(tasks, k, 0);
  }

  // With short and long ways together the outcome depends on the order of the search: a node marked near the bound is
  // not looked at again when it turns up near the start, so even a cycle of three tasks can be missed.

  lemma OneEntry(n: Node, depth: nat)
    ensures Entries([n], depth) == [(n, depth)]
  {
    assert [n][..0] == [];
  }

  lemma TwoEntries(a: Node, b: Node, depth: nat)
    ensures Entries([a, b], depth) == [(a, depth), (b, depth)]
  {
    assert [a, b][..1] == [a];
    OneEntry(a, depth);
  }

  /** Of the rungs, those below `i` are marked. */
  ghost predicate MarkedBelow(visited: set<Node>, i: nat) {
    forall j: nat :: Rung(j) in visited <==> j < i
  }

  lemma MarkedOneMore(visited: set<Node>, i: nat)
    requires MarkedBelow(visited, i)
    ensures MarkedBelow(visited + {Rung(i)}, i + 1)
  {
    forall j: nat ensures Rung(j) in visited + {Rung(i)} <==> j < i + 1 {
      if j != i { RungsDiffer(i, j); }
    }
  }

  /** One round of the search up the ladder. */
  lemma LadderRound(tasks: map<Task, Record>, m: nat, i: nat, visited: set<Node>, waiting: (Node, nat))
    requires m <= MAX_LINEAGE_DEPTH && i < m && IsLadder(tasks, m + 1, 0) && Rung(i) !in visited
    ensures var stack := [waiting, (Rung(i), i)];
      && Pushed(LineageGraph(tasks), stack, visited) == [waiting, (Rung(i + 1), i + 1)]
      && Marked(stack, visited) == visited + {Rung(i)}
  {
    var stack := [waiting, (Rung(i), i)];
    LadderEdge(tasks, m + 1, i);
    OneEntry(Rung(i + 1), i + 1);
    assert stack[..1] == [waiting];
    PushedIs(LineageGraph(tasks), stack, visited, Rung(i), i, [waiting]);
  }

  /** The search up the ladder with its rung `m - 1`, marked on the way, still waiting at depth 0. */
  lemma {:induction false} ShadowedSearch(tasks: map<Task, Record>, m: nat, i: nat, visited: set<Node>)
    requires m == MAX_LINEAGE_DEPTH && i <= m && IsLadder(tasks, m + 1, 0) && MarkedBelow(visited, i)
    ensures !Search(LineageGraph(tasks), Rung(m + 1), [(Rung(m - 1), 0), (Rung(i), i)], visited)
    decreases m - i
  {
    var g, stack := LineageGraph(tasks), [(Rung(m - 1), 0), (Rung(i), i)];
    RungsDiffer(i, m + 1);
    SearchRound(g, Rung(m + 1), stack, visited);
    if i == m {
      assert stack[..1] == [(Rung(m - 1), 0)];
      PushedIs(g, stack, visited, Rung(i), i, stack[..1]);
      ShadowIsSkipped(g, m, visited);
    } else {
      LadderRound(tasks, m, i, visited, (Rung(m - 1), 0));
      MarkedOneMore(visited, i);
      ShadowedSearch(tasks, m, i + 1, visited + {Rung(i)});
    }
  }

  lemma ShadowIsSkipped(g: Graph, m: nat, visited: set<Node>)
    requires m > 0 && Rung(m - 1) in visited
    ensures !Search(g, Rung(m + 1), [(Rung(m - 1), 0)], visited)
  {
    RungsDiffer(m - 1, m + 1);
    var stack := [(Rung(m - 1), 0)];
    assert stack[..0] == [];
    SearchRound(g, Rung(m + 1), stack, visited);
    assert Pushed(g, stack, visited) == [];
  }

  /** After a chain of submissions, a registration with two parents: the child is two links above the first, which
      closes a cycle of three tasks, and the registration goes through. */
  lemma ShortCycleMissed(m: nat, parents: seq<Task>)
    requires m == MAX_LINEAGE_DEPTH && parents == [Rung(m - 1), Rung(0)]
    ensures var changes, ch := Climbers(m + 1, m + 2), Depend(Rung(m + 1), parents);
      && AllPossible(changes + [ch]) && !Harmless(History(changes), ch)
      && Walk(LineageGraph(History(changes)), [parents[0], Rung(m), Rung(m + 1)])
      && !AcyclicUpTo(changes + [ch])
  {
    var changes, ch := Climbers(m + 1, m + 2), Depend(Rung(m + 1), parents);
    var tasks := History(changes);
    ClimbersBuild(m + 1, m + 2);
    ThreeRungs(tasks, m);
    LadderCloses(tasks, m + 1, m - 1, parents);
    ShadowedParents(tasks, m, parents);
    OneMorePossible(changes, ch);
    HistoryAcyclicIff(changes + [ch]);
    assert (changes + [ch])[..|changes|] == changes;
  }

  lemma ThreeRungs(tasks: map<Task, Record>, m: nat)
    requires m > 0 && IsLadder(tasks, m + 1, 0)
    ensures Walk(LineageGraph(tasks), [Rung(m - 1), Rung(m), Rung(m + 1)])
  {
    var p := [Rung(m - 1), Rung(m), Rung(m + 1)];
    LadderEdge(tasks, m + 1, m - 1);
    LadderEdge(tasks, m + 1, m);
    assert Hop(LineageGraph(tasks), p, 0) && Hop(LineageGraph(tasks), p, 1);
  }

  lemma ShadowedParents(tasks: map<Task, Record>, m: nat, parents: seq<Task>)
    requires m == MAX_LINEAGE_DEPTH && IsLadder(tasks, m + 1, 0) && parents == [Rung(m - 1), Rung(0)]
    ensures Possible(tasks, Depend(Rung(m + 1), parents))
  {
    TwoEntries(Rung(m - 1), Rung(0), 0);
    ShadowedSearch(tasks, m, 0, {});
    assert HasRung(tasks, m + 1, m + 1) && HasRung(tasks, m + 1, m - 1) && HasRung(tasks, m + 1, 0);
  }
}
