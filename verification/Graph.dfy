/** Directed graphs as adjacency lists, with the facts about walks and cycles
    that the dependency scan, the registration check and the workflow DAG share. */
module Graph {
  import opened Common

  /** A task or step identifier. */
  datatype Node = Node(text: string)

  type Graph = map<Node, seq<Node>>

  predicate Edge(g: Graph, a: Node, b: Node) {
    a in g && b in g[a]
  }

  predicate Hop(g: Graph, p: seq<Node>, i: int)
    requires 0 <= i < |p| - 1
  {
    Edge(g, p[i], p[i + 1])
  }

  /** A walk lists its nodes; a single node is the walk with no edge. */
  ghost predicate Walk(g: Graph, p: seq<Node>) {
    |p| >= 1 && forall i :: 0 <= i < |p| - 1 ==> Hop(g, p, i)
  }

  ghost predicate WalkFromTo(g: Graph, p: seq<Node>, a: Node, b: Node) {
    Walk(g, p) && p[0] == a && p[|p| - 1] == b
  }

  ghost predicate Reaches(g: Graph, a: Node, b: Node) {
    exists p :: WalkFromTo(g, p, a, b)
  }

  /** No walk with at least one edge returns to where it started. */
  ghost predicate Acyclic(g: Graph) {
    forall p :: Walk(g, p) && |p| >= 2 ==> p[0] != p[|p| - 1]
  }

  /** A closed walk whose nodes are distinct apart from the repeated end. */
  ghost predicate SimpleCycle(g: Graph, p: seq<Node>) {
    && |p| >= 2
    && Walk(g, p)
    && p[0] == p[|p| - 1]
    && NoDup(p[..|p| - 1])
  }

  /** Every node of `order` has its successors strictly earlier in `order`, except along `loose` edges. */
  ghost predicate Ordered(g: Graph, order: seq<Node>, loose: set<(Node, Node)>) {
    forall i, b :: 0 <= i < |order| && Edge(g, order[i], b) ==> b in order[..i] || (order[i], b) in loose
  }

  ghost predicate Avoids(p: seq<Node>, loose: set<(Node, Node)>) {
    forall i :: 0 <= i < |p| - 1 ==> (p[i], p[i + 1]) !in loose
  }

  lemma SubWalk(g: Graph, p: seq<Node>, i: nat, j: nat)
    requires Walk(g, p) && i < j <= |p|
    ensures Walk(g, p[i..j])
  {
    forall k | 0 <= k < j - i - 1
      ensures Hop(g, p[i..j], k)
    {
      assert Hop(g, p, i + k);
    }
  }

  lemma JoinWalks(g: Graph, p: seq<Node>, q: seq<Node>)
    requires Walk(g, p) && Walk(g, q) && p[|p| - 1] == q[0]
    ensures WalkFromTo(g, p + q[1..], p[0], q[|q| - 1])
  {
    var r := p + q[1..];
    forall k | 0 <= k < |r| - 1
      ensures Hop(g, r, k)
    {
      if k >= |p| - 1 {
        assert Hop(g, q, k - |p| + 1);
      } else {
        assert Hop(g, p, k);
      }
    }
  }

  lemma ExtendWalk(g: Graph, p: seq<Node>, b: Node)
    requires Walk(g, p) && Edge(g, p[|p| - 1], b)
    ensures Walk(g, p + [b])
  {
    assert Walk(g, [p[|p| - 1], b]);
    JoinWalks(g, p, [p[|p| - 1], b]);
    assert p + [b] == p + [p[|p| - 1], b][1..];
  }

  /** Along a walk that avoids the loose edges of an ordered list, positions strictly fall. */
  lemma {:induction false} PositionsFall(g: Graph, order: seq<Node>, loose: set<(Node, Node)>, p: seq<Node>)
    requires Ordered(g, order, loose) && Walk(g, p) && p[0] in order && Avoids(p, loose)
    ensures p[|p| - 1] in order
    ensures |p| >= 2 ==> IndexOf(order, p[|p| - 1]) < IndexOf(order, p[0])
    decreases |p|
  {
    if |p| >= 2 {
      var i := IndexOf(order, p[0]);
      assert Hop(g, p, 0) && Edge(g, order[i], p[1]) && (p[0], p[0 + 1]) !in loose;
      var k := IndexOf(order[..i], p[1]);
      assert order[..i][k] == order[k];
      assert IndexOf(order, p[1]) <= k;
      SubWalk(g, p, 1, |p|);
      assert p[1..|p|] == p[1..];
      assert Avoids(p[1..], loose) by {
        forall j | 0 <= j < |p| - 2
          ensures (p[1..][j], p[1..][j + 1]) !in loose
        {
          assert (p[j + 1], p[j + 1 + 1]) !in loose;
        }
      }
      PositionsFall(g, order, loose, p[1..]);
    }
  }

  lemma AppendOrdered(g: Graph, order: seq<Node>, loose: set<(Node, Node)>, n: Node)
    requires Ordered(g, order, loose)
    requires forall b :: Edge(g, n, b) ==> b in order || (n, b) in loose
    ensures Ordered(g, order + [n], loose) && Elems(order + [n]) == Elems(order) + {n}
  {
    var more := order + [n];
    forall i, b | 0 <= i < |more| && Edge(g, more[i], b)
      ensures b in more[..i] || (more[i], b) in loose
    {
      if i < |order| {
        assert Edge(g, order[i], b) && more[..i] == order[..i];
      } else {
        assert more[..i] == order;
      }
    }
  }

  /** If an ordering covers all nodes that have successors, every cycle uses a loose edge. */
  lemma CycleUsesLooseEdge(g: Graph, order: seq<Node>, loose: set<(Node, Node)>, p: seq<Node>)
    requires Ordered(g, order, loose)
    requires forall n :: n in g && g[n] != [] ==> n in order
    requires Walk(g, p) && |p| >= 2 && p[0] == p[|p| - 1]
    ensures !Avoids(p, loose)
  {
    if Avoids(p, loose) {
      assert Hop(g, p, 0);
      PositionsFall(g, order, loose, p);
    }
  }

  /** An ordering without loose edges certifies acyclicity. */
  lemma OrderedIsAcyclic(g: Graph, order: seq<Node>)
    requires Ordered(g, order, {})
    requires forall n :: n in g && g[n] != [] ==> n in order
    ensures Acyclic(g)
  {
    forall p | Walk(g, p) && |p| >= 2
      ensures p[0] != p[|p| - 1]
    {
      assert Avoids(p, {});
      if p[0] == p[|p| - 1] { CycleUsesLooseEdge(g, order, {}, p); }
    }
  }

  ghost predicate SuccessorIn(g: Graph, n: Node, part: set<Node>) {
    exists m :: m in part && Edge(g, n, m)
  }

  /** An edge from the end of a walk back onto the walk closes a cycle. */
  lemma BackEdgeCloses(g: Graph, p: seq<Node>, m: Node)
    requires Walk(g, p) && m in p && Edge(g, p[|p| - 1], m)
    ensures Walk(g, p[IndexOf(p, m)..] + [m])
    ensures !Acyclic(g)
  {
    var i := IndexOf(p, m);
    SubWalk(g, p, i, |p|);
    assert p[i..|p|] == p[i..];
    ExtendWalk(g, p[i..], m);
    var loop := p[i..] + [m];
    assert |loop| >= 2 && loop[0] == loop[|loop| - 1];
  }

  /** Following successors inside a finite set must close a cycle. */
  lemma {:induction false} TrappedWalkCloses(g: Graph, trap: set<Node>, p: seq<Node>)
    requires Walk(g, p) && NoDup(p) && Elems(p) <= trap
    requires forall n {:trigger SuccessorIn(g, n, trap)} :: n in trap ==> SuccessorIn(g, n, trap)
    ensures !Acyclic(g)
    decreases |trap| - |p|
  {
    var last := p[|p| - 1];
    assert last in Elems(p) && SuccessorIn(g, last, trap);
    var m :| m in trap && Edge(g, last, m);
    if m in p {
      BackEdgeCloses(g, p, m);
    } else {
      ExtendWalk(g, p, m);
      AppendFresh(p, m);
      CardElems(p + [m]);
      CardSubset(Elems(p + [m]), trap);
      TrappedWalkCloses(g, trap, p + [m]);
    }
  }

  /** In an acyclic graph every non-empty finite set has a member with no successor in the set. */
  lemma SinkExists(g: Graph, part: set<Node>)
    requires Acyclic(g) && part != {}
    ensures exists n :: n in part && !SuccessorIn(g, n, part)
  {
    if forall n {:trigger SuccessorIn(g, n, part)} :: n in part ==> SuccessorIn(g, n, part) {
      var n :| n in part;
      TrappedWalkCloses(g, part, [n]);
    }
  }

  /** A set that contains the start and is closed under edges contains every walk. */
  lemma {:induction false} ClosedSetHoldsWalk(g: Graph, part: set<Node>, p: seq<Node>)
    requires Walk(g, p) && p[0] in part
    requires forall a, b :: a in part && Edge(g, a, b) ==> b in part
    ensures p[|p| - 1] in part
    decreases |p|
  {
    if |p| >= 2 {
      assert Hop(g, p, 0);
      SubWalk(g, p, 1, |p|);
      assert p[1..|p|] == p[1..];
      ClosedSetHoldsWalk(g, part, p[1..]);
    }
  }
}
