/** Workflow steps and their dependency graph: validation, execution order
    (Kahn's algorithm) and parallel groups. */
module WorkflowDag {
  import opened Common
  import opened Graph

  datatype WorkflowError = MissingDependency | CircularDependency

  /** `compensates` tells whether the step has a rollback handler. */
  datatype Step = Step(name: Node, dependencies: seq<Node>, compensates: bool)

  /** The steps by name; `names` is the order in which names were first declared. */
  datatype Dag = Dag(names: seq<Node>, steps: map<Node, Step>) {

    ghost predicate Valid() {
      && NoDup(names)
      && (forall n :: n in names <==> n in steps)
      && (forall n :: n in steps ==> steps[n].name == n)
    }

    function Deps(): Graph {
      map n | n in steps :: steps[n].dependencies
    }

    /** Dependencies name declared steps only. */
    ghost predicate Closed() {
      forall a, b :: Edge(Deps(), a, b) ==> b in steps
    }

    /** No step lists the same dependency twice. */
    ghost predicate DuplicateFree() {
      forall n :: n in steps ==> NoDup(steps[n].dependencies)
    }
  }

  /** The step that a declaration list finally binds to each name: the last one. */
  function LastNamed(steps: seq<Step>, n: Node): (i: int)
    ensures -1 <= i < |steps|
    ensures i >= 0 ==> steps[i].name == n
    ensures forall j :: i < j < |steps| ==> steps[j].name != n
  {
    if steps == [] then -1
    else if steps[|steps| - 1].name == n then |steps| - 1
    else LastNamed(steps[..|steps| - 1], n)
  }

  /** Every name is bound to its last declaration. */
  ghost predicate Indexes(d: Dag, steps: seq<Step>) {
    && d.Valid()
    && (forall n :: n in d.steps <==> LastNamed(steps, n) >= 0)
    && (forall n :: n in d.steps ==> d.steps[n] == steps[LastNamed(steps, n)])
  }

  lemma IndexOneMore(d: Dag, steps: seq<Step>, s: Step)
    requires Indexes(d, steps)
    ensures Indexes(Dag(if s.name in d.steps then d.names else d.names + [s.name], d.steps[s.name := s]), steps + [s])
  {
    var more := steps + [s];
    assert more[..|more| - 1] == steps;
    assert forall n :: LastNamed(more, n) == if n == s.name then |steps| else LastNamed(steps, n);
    if s.name !in d.steps { AppendFresh(d.names, s.name); }
  }

  /** Indexes the declared steps; a repeated name keeps its first position and its last definition. */
  method IndexSteps(steps: seq<Step>) returns (d: Dag)
    ensures Indexes(d, steps)
  {
    d := Dag([], map[]);
    for i := 0 to |steps|
      invariant Indexes(d, steps[..i])
    {
      var s := steps[i];
      IndexOneMore(d, steps[..i], s);
      assert steps[..i + 1] == steps[..i] + [s];
      d := Dag(if s.name in d.steps then d.names else d.names + [s.name], d.steps[s.name := s]);
    }
    assert steps[..|steps|] == steps;
  }

  /** The recursive cycle search of validation; `visited` and `recStack` are shared by all calls. */
  class CycleCheck {
    const g: Graph
    var visited: set<Node>
    var recStack: set<Node>
    /** Steps whose call has returned, in the order they returned. */
    ghost var post: seq<Node>

    constructor (g: Graph)
      ensures this.g == g && visited == {} && recStack == {} && post == []
    {
      this.g := g;
      visited, recStack, post := {}, {}, [];
    }

    ghost predicate Valid()
      reads this
    {
      && (forall a, b :: Edge(g, a, b) ==> b in g)
      && visited <= g.Keys
      && recStack <= visited
      && Elems(post) == visited - recStack
      && Ordered(g, post, {})
    }

    /** True means a cycle was found; false means everything below `name`
        is finished and the recursion stack is as it was. */
    method HasCycle(name: Node, ghost path: seq<Node>) returns (found: bool)
      requires Valid() && name in g && name !in visited
      requires Elems(path) == recStack && Walk(g, path + [name])
      modifies this
      ensures found ==> !Acyclic(g)
      ensures !found ==> Valid() && recStack == old(recStack) && old(visited) + {name} <= visited
      decreases g.Keys - visited
    {
      var before := recStack;
      visited := visited + {name};
      recStack := recStack + {name};
      assert Elems(post) == visited - recStack;
      var deps := g[name];
      var i := 0;
      while i < |deps|
        invariant 0 <= i <= |deps|
        invariant Valid() && recStack == before + {name}
        invariant old(visited) + {name} <= visited
        invariant forall j :: 0 <= j < i ==> deps[j] in visited && deps[j] !in recStack
      {
        var dep := deps[i];
        assert Edge(g, name, dep);
        if dep !in visited {
          ExtendWalk(g, path + [name], dep);
          var below := HasCycle(dep, path + [name]);
          if below { return true; }
        } else if dep in recStack {
          BackEdgeCloses(g, path + [name], dep);
          return true;
        }
        i := i + 1;
      }
      assert forall b :: Edge(g, name, b) ==> b in Elems(post);
      AppendOrdered(g, post, {}, name);
      recStack := recStack - {name};
      post := post + [name];
      return false;
    }
  }

  /** Accepts exactly the closed acyclic workflows, and says which defect it found. */
  method Validate(d: Dag) returns (r: Result<(), WorkflowError>)
    requires d.Valid()
    ensures r.Ok? <==> d.Closed() && Acyclic(d.Deps())
    ensures r == Err(MissingDependency) <==> !d.Closed()
  {
    for i := 0 to |d.names|
      invariant forall j, b :: 0 <= j < i && b in d.steps[d.names[j]].dependencies ==> b in d.steps
    {
      var deps := d.steps[d.names[i]].dependencies;
      for k := 0 to |deps|
        invariant forall j :: 0 <= j < k ==> deps[j] in d.steps
      {
        if deps[k] !in d.steps {
          assert Edge(d.Deps(), d.names[i], deps[k]);
          return Err(MissingDependency);
        }
      }
    }
    assert d.Closed();
    var check := new CycleCheck(d.Deps());
    for i := 0 to |d.names|
      invariant check.g == d.Deps() && check.Valid() && check.recStack == {}
      invariant forall j :: 0 <= j < i ==> d.names[j] in check.visited
    {
      if d.names[i] !in check.visited {
        assert [] + [d.names[i]] == [d.names[i]];
        var found := check.HasCycle(d.names[i], []);
        if found { return Err(CircularDependency); }
      }
    }
    assert forall n :: n in d.steps ==> n in Elems(check.post);
    OrderedIsAcyclic(d.Deps(), check.post);
    return Ok(());
  }

  /** The in-degree Kahn's algorithm keeps for step `n`: declared dependencies
      count with repetition, finished ones are subtracted once each. */
  ghost function Degree(d: Dag, n: Node, done: set<Node>): int
    requires n in d.steps
  {
    |d.steps[n].dependencies| - |Elems(d.steps[n].dependencies) * done|
  }

  lemma DegreeZero(d: Dag, n: Node, done: set<Node>)
    requires n in d.steps
    ensures Degree(d, n, done) >= 0
    ensures Degree(d, n, done) == 0 <==>
      NoDup(d.steps[n].dependencies) && Elems(d.steps[n].dependencies) <= done
  {
    var deps := d.steps[n].dependencies;
    CardElems(deps);
    CardSubset(Elems(deps) * done, Elems(deps));
    if Elems(deps) <= done { assert Elems(deps) * done == Elems(deps); }
  }

  lemma DegreeStep(d: Dag, n: Node, done: set<Node>, current: Node)
    requires n in d.steps && current !in done
    ensures Degree(d, n, done + {current}) ==
      Degree(d, n, done) - if current in d.steps[n].dependencies then 1 else 0
  {
    var deps := Elems(d.steps[n].dependencies);
    if current in deps {
      assert deps * (done + {current}) == deps * done + {current};
    } else {
      assert deps * (done + {current}) == deps * done;
    }
  }

  ghost predicate Tallied(d: Dag, inDegree: map<Node, int>, listed: seq<Node>, n: Node, done: set<Node>)
    requires n in d.steps
  {
    && n in inDegree
    && inDegree[n] == Degree(d, n, done)
    && (n in listed <==> inDegree[n] == 0)
  }

  /** What Kahn's loop knows: `listed` holds, once each, exactly the steps whose
      in-degree has reached zero given that the steps in `done` are finished. */
  ghost predicate Counted(d: Dag, inDegree: map<Node, int>, listed: seq<Node>, done: set<Node>) {
    && NoDup(listed)
    && (forall n :: n in listed ==> n in d.steps)
    && (forall n :: n in d.steps ==> Tallied(d, inDegree, listed, n, done))
  }

  /** One pass over all steps after `current` finished: decrements, and queues what reaches zero. */
  method Release(d: Dag, current: Node, ghost done: set<Node>, inDegree: map<Node, int>, ghost listed: seq<Node>)
    returns (inDegree': map<Node, int>, freed: seq<Node>)
    requires d.Valid() && current !in done && Counted(d, inDegree, listed, done)
    ensures Counted(d, inDegree', listed + freed, done + {current})
  {
    inDegree', freed := inDegree, [];
    assert listed + freed == listed;
    for i := 0 to |d.names|
      invariant Halfway(d, inDegree', listed + freed, done, current, i)
    {
      var n := d.names[i];
      assert Tallied(d, inDegree', listed + freed, n, done);
      if current in d.steps[n].dependencies {
        ReleaseOne(d, inDegree', listed + freed, done, current, i);
        var next := if inDegree'[n] == 1 then [n] else [];
        assert listed + (freed + next) == (listed + freed) + next;
        inDegree' := inDegree'[n := inDegree'[n] - 1];
        freed := freed + next;
      } else {
        ReleaseNone(d, inDegree', listed + freed, done, current, i);
      }
    }
  }

  /** The pass over the steps has reached the `i`-th. */
  ghost predicate Halfway(d: Dag, inDegree: map<Node, int>, listed: seq<Node>, done: set<Node>, current: Node, i: nat) {
    && d.Valid() && i <= |d.names|
    && NoDup(listed) && (forall m :: m in listed ==> m in d.steps)
    && (forall j :: 0 <= j < i ==> Tallied(d, inDegree, listed, d.names[j], done + {current}))
    && (forall j :: i <= j < |d.names| ==> Tallied(d, inDegree, listed, d.names[j], done))
  }

  lemma ReleaseNone(d: Dag, inDegree: map<Node, int>, listed: seq<Node>, done: set<Node>, current: Node, i: nat)
    requires Halfway(d, inDegree, listed, done, current, i) && i < |d.names|
    requires current !in d.steps[d.names[i]].dependencies && current !in done
    ensures Halfway(d, inDegree, listed, done, current, i + 1)
  {
    DegreeStep(d, d.names[i], done, current);
  }

  lemma ReleaseOne(d: Dag, inDegree: map<Node, int>, listed: seq<Node>, done: set<Node>, current: Node, i: nat)
    requires Halfway(d, inDegree, listed, done, current, i) && i < |d.names|
    requires current in d.steps[d.names[i]].dependencies && current !in done
    ensures d.names[i] in inDegree
    ensures var n := d.names[i];
      Halfway(d, inDegree[n := inDegree[n] - 1], listed + if inDegree[n] == 1 then [n] else [], done, current, i + 1)
  {
    var n := d.names[i];
    assert Tallied(d, inDegree, listed, n, done);
    DegreeStep(d, n, done, current);
    DegreeZero(d, n, done + {current});
    ReleaseKeepsOthers(d, inDegree, listed, n, done, current, i);
  }

  lemma ReleaseKeepsOthers(d: Dag, inDegree: map<Node, int>, listed: seq<Node>, n: Node, done: set<Node>,
                           current: Node, i: nat)
    requires d.Valid() && i < |d.names| && n == d.names[i]
    requires Tallied(d, inDegree, listed, n, done) && inDegree[n] >= 1 && NoDup(listed)
    requires forall j :: 0 <= j < i ==> Tallied(d, inDegree, listed, d.names[j], done + {current})
    requires forall j :: i < j < |d.names| ==> Tallied(d, inDegree, listed, d.names[j], done)
    ensures var inDegree' := inDegree[n := inDegree[n] - 1];
      var listed' := listed + if inDegree[n] == 1 then [n] else [];
      && NoDup(listed')
      && (forall j :: 0 <= j < i ==> Tallied(d, inDegree', listed', d.names[j], done + {current}))
      && (forall j :: i < j < |d.names| ==> Tallied(d, inDegree', listed', d.names[j], done))
      && (n in listed' <==> inDegree'[n] == 0)
  {
    var listed' := listed + if inDegree[n] == 1 then [n] else [];
    assert forall m :: m in listed' <==> m in listed || (m == n && inDegree[n] == 1);
  }

  /** A listed step has all its dependencies finished. */
  lemma ListedIsFree(d: Dag, inDegree: map<Node, int>, listed: seq<Node>, done: set<Node>, n: Node)
    requires Counted(d, inDegree, listed, done) && n in listed
    ensures NoDup(d.steps[n].dependencies) && Elems(d.steps[n].dependencies) <= done
  {
    assert Tallied(d, inDegree, listed, n, done);
    DegreeZero(d, n, done);
  }

  /** If nothing is left to process, an acyclic workflow without repeated dependencies is complete. */
  lemma NothingStuck(d: Dag, inDegree: map<Node, int>, result: seq<Node>)
    requires d.Valid() && d.Closed() && Acyclic(d.Deps()) && d.DuplicateFree()
    requires Counted(d, inDegree, result, Elems(result))
    ensures Elems(result) == d.steps.Keys
  {
    NobodyLeft(d, inDegree, result, d.steps.Keys - Elems(result));
    NoneOver(Elems(result), d.steps.Keys);
  }

  lemma NoneOver<T>(done: set<T>, all: set<T>)
    requires done <= all && all - done == {}
    ensures done == all
  {
    assert forall x :: x in all ==> x in all - done || x in done;
  }

  lemma NobodyLeft(d: Dag, inDegree: map<Node, int>, result: seq<Node>, left: set<Node>)
    requires d.Valid() && d.Closed() && Acyclic(d.Deps()) && d.DuplicateFree()
    requires Counted(d, inDegree, result, Elems(result)) && left == d.steps.Keys - Elems(result)
    ensures left == {}
  {
    if left != {} {
      SinkExists(d.Deps(), left);
      var n :| n in left && !SuccessorIn(d.Deps(), n, left);
      SinkIsServed(d, n, Elems(result));
      assert Tallied(d, inDegree, result, n, Elems(result));
      DegreeZero(d, n, Elems(result));
    }
  }

  lemma SinkIsServed(d: Dag, n: Node, done: set<Node>)
    requires d.Valid() && d.Closed() && n in d.steps && !SuccessorIn(d.Deps(), n, d.steps.Keys - done)
    ensures Elems(d.steps[n].dependencies) <= done
  {
    forall m | m in d.steps[n].dependencies
      ensures m in done
    {
      assert Edge(d.Deps(), n, m);
    }
  }

  /** The steps that depend on nothing start the queue. */
  method StartQueue(d: Dag) returns (inDegree: map<Node, int>, queue: seq<Node>)
    requires d.Valid()
    ensures Counted(d, inDegree, queue, {})
  {
    inDegree := map n | n in d.steps :: |d.steps[n].dependencies|;
    queue := [];
    for i := 0 to |d.names|
      invariant NoDup(queue) && forall n :: n in queue ==> n in d.steps
      invariant forall j :: 0 <= j < i ==> (d.names[j] in queue <==> d.steps[d.names[j]].dependencies == [])
      invariant forall j :: i <= j < |d.names| ==> d.names[j] !in queue
    {
      if inDegree[d.names[i]] == 0 {
        AppendFresh(queue, d.names[i]);
        queue := queue + [d.names[i]];
      }
    }
    forall n | n in d.steps
      ensures Tallied(d, inDegree, queue, n, {})
    {
      assert Elems(d.steps[n].dependencies) * {} == {};
      assert n in d.names;
    }
  }

  /** When the queue is empty, having every step is the same as being acyclic and free of repeats. */
  lemma SortOutcome(d: Dag, inDegree: map<Node, int>, result: seq<Node>)
    requires d.Valid() && d.Closed()
    requires Counted(d, inDegree, result, Elems(result)) && Ordered(d.Deps(), result, {})
    ensures |result| == |d.steps| <==> Acyclic(d.Deps()) && d.DuplicateFree()
    ensures |result| == |d.steps| ==> Elems(result) == d.steps.Keys
  {
    CardElems(result);
    assert Elems(result) <= d.steps.Keys;
    CardSubset(Elems(result), d.steps.Keys);
    if |result| == |d.steps| {
      forall n | n in d.steps
        ensures NoDup(d.steps[n].dependencies)
      {
        assert n in Elems(result);
        ListedIsFree(d, inDegree, result, Elems(result), n);
      }
      assert forall n :: n in d.steps ==> n in Elems(result);
      OrderedIsAcyclic(d.Deps(), result);
    } else if Acyclic(d.Deps()) && d.DuplicateFree() {
      NothingStuck(d, inDegree, result);
    }
  }

  /** The head of the queue can go next: it is new and everything it depends on is already out. */
  lemma TakeHead(d: Dag, inDegree: map<Node, int>, result: seq<Node>, queue: seq<Node>)
    requires queue != [] && Counted(d, inDegree, result + queue, Elems(result)) && Ordered(d.Deps(), result, {})
    ensures queue[0] in d.steps && queue[0] !in Elems(result)
    ensures Ordered(d.Deps(), result + [queue[0]], {})
    ensures Elems(result + [queue[0]]) == Elems(result) + {queue[0]}
  {
    assert queue[0] in result + queue;
    ListedIsFree(d, inDegree, result + queue, Elems(result), queue[0]);
    assert forall b :: Edge(d.Deps(), queue[0], b) ==> b in Elems(result);
    AppendOrdered(d.Deps(), result, {}, queue[0]);
    HeadIsFresh(result, queue);
  }

  lemma Regroup<T>(result: seq<T>, queue: seq<T>, freed: seq<T>)
    requires queue != []
    ensures result + queue + freed == (result + [queue[0]]) + (queue[1..] + freed)
  {
  }

  /** Kahn's algorithm. It succeeds exactly on acyclic workflows without
      repeated dependencies, and then lists every step once, after all the
      steps it depends on. */
  method TopologicalSort(d: Dag) returns (r: Result<seq<Node>, WorkflowError>)
    requires d.Valid() && d.Closed()
    ensures r.Ok? <==> Acyclic(d.Deps()) && d.DuplicateFree()
    ensures r.Ok? ==> NoDup(r.value) && Elems(r.value) == d.steps.Keys && Ordered(d.Deps(), r.value, {})
    ensures r.Err? ==> r.error == CircularDependency
  {
    var inDegree, queue := StartQueue(d);
    var result: seq<Node> := [];
    assert result + queue == queue && Elems(result) == {};
    while queue != []
      invariant Counted(d, inDegree, result + queue, Elems(result))
      invariant Ordered(d.Deps(), result, {})
      decreases d.steps.Keys - Elems(result)
    {
      var current := queue[0];
      TakeHead(d, inDegree, result, queue);
      var freed;
      inDegree, freed := Release(d, current, Elems(result), inDegree, result + queue);
      Regroup(result, queue, freed);
      result := result + [current];
      queue := queue[1..] + freed;
    }
    assert result + queue == result;
    SortOutcome(d, inDegree, result);
    if |result| != |d.steps| { return Err(CircularDependency); }
    return Ok(result);
  }
}
