/** Parallel groups, workflow runs and saga compensation. */
module Saga {
  import opened Common
  import opened Graph
  import opened WorkflowDag

  /** Some dependency chain of exactly `k` edges starts at `n`. */
  ghost predicate ChainFrom(g: Graph, n: Node, k: nat) {
    exists p :: Walk(g, p) && |p| == k + 1 && p[0] == n
  }

  lemma ChainLonger(g: Graph, n: Node, m: Node, k: nat)
    requires Edge(g, n, m) && ChainFrom(g, m, k)
    ensures ChainFrom(g, n, k + 1)
  {
    var p :| Walk(g, p) && |p| == k + 1 && p[0] == m;
    assert Walk(g, [n, m]) by { assert Hop(g, [n, m], 0); }
    JoinWalks(g, [n, m], p);
    assert |[n, m] + p[1..]| == k + 2;
  }

  lemma ChainShorter(g: Graph, n: Node, k: nat)
    requires ChainFrom(g, n, k + 1)
    ensures ChainFrom(g, n, k)
    ensures exists m :: Edge(g, n, m) && ChainFrom(g, m, k)
  {
    var p :| Walk(g, p) && |p| == k + 2 && p[0] == n;
    SubWalk(g, p, 0, k + 1);
    SubWalk(g, p, 1, k + 2);
    assert Walk(g, p[0..k + 1]) && |p[0..k + 1]| == k + 1;
    assert Walk(g, p[1..k + 2]) && |p[1..k + 2]| == k + 1;
    assert Hop(g, p, 0);
  }

  lemma ChainAtMost(g: Graph, n: Node, j: nat, k: nat)
    requires ChainFrom(g, n, k) && j <= k
    ensures ChainFrom(g, n, j)
    decreases k
  {
    if j < k {
      ChainShorter(g, n, k - 1);
      ChainAtMost(g, n, j, k - 1);
    }
  }

  /** The steps not yet completed whose dependencies all are. */
  method GetReadySteps(d: Dag, completed: set<Node>) returns (ready: seq<Node>)
    requires d.Valid()
    ensures NoDup(ready)
    ensures forall n :: n in ready <==>
      n in d.steps && n !in completed && Elems(d.steps[n].dependencies) <= completed
  {
    ready := [];
    for i := 0 to |d.names|
      invariant NoDup(ready)
      invariant forall n :: n in ready ==>
        n in d.steps && n !in completed && Elems(d.steps[n].dependencies) <= completed
      invariant forall j :: 0 <= j < i ==>
        (d.names[j] !in completed && Elems(d.steps[d.names[j]].dependencies) <= completed ==> d.names[j] in ready)
      invariant forall j :: i <= j < |d.names| ==> d.names[j] !in ready
    {
      var n := d.names[i];
      if n !in completed && forall dep :: dep in d.steps[n].dependencies ==> dep in completed {
        AppendFresh(ready, n);
        ready := ready + [n];
      }
    }
  }

  /** The steps with no chain of `k` edges; the completed set after `k` groups. */
  ghost predicate Shallow(d: Dag, completed: set<Node>, k: nat) {
    forall n :: n in completed <==> n in d.steps && !ChainFrom(d.Deps(), n, k)
  }

  /** The steps ready after `k` groups are those whose longest chain has `k` edges. */
  lemma ReadyIsLevel(d: Dag, completed: set<Node>, k: nat, n: Node)
    requires d.Closed() && Shallow(d, completed, k) && n in d.steps
    ensures n !in completed && Elems(d.steps[n].dependencies) <= completed <==>
      ChainFrom(d.Deps(), n, k) && !ChainFrom(d.Deps(), n, k + 1)
  {
    var g := d.Deps();
    if ChainFrom(g, n, k + 1) {
      ChainShorter(g, n, k);
      var m :| Edge(g, n, m) && ChainFrom(g, m, k);
      assert m in Elems(d.steps[n].dependencies);
    } else {
      forall m | m in Elems(d.steps[n].dependencies)
        ensures m in completed
      {
        assert Edge(g, n, m);
        if ChainFrom(g, m, k) { ChainLonger(g, n, m, k); }
      }
    }
  }

  lemma SomeStepReady(d: Dag, completed: set<Node>)
    requires d.Valid() && d.Closed() && Acyclic(d.Deps())
    requires completed <= d.steps.Keys && completed != d.steps.Keys
    ensures exists n :: n in d.steps && n !in completed && Elems(d.steps[n].dependencies) <= completed
  {
    var left := d.steps.Keys - completed;
    assert d.steps.Keys == completed + left;
    SinkExists(d.Deps(), left);
    var n :| n in left && !SuccessorIn(d.Deps(), n, left);
    forall m | m in d.steps[n].dependencies
      ensures m in completed
    {
      assert Edge(d.Deps(), n, m);
    }
  }

  ghost function Flat(groups: seq<seq<Node>>): set<Node> {
    set g, n | g in groups && n in g :: n
  }

  /** Group `k` holds, once each, exactly the steps whose longest dependency chain has `k` edges. */
  ghost predicate Levels(d: Dag, groups: seq<seq<Node>>) {
    forall k :: 0 <= k < |groups| ==>
      && groups[k] != [] && NoDup(groups[k])
      && forall n :: n in groups[k] <==>
           n in d.steps && ChainFrom(d.Deps(), n, k) && !ChainFrom(d.Deps(), n, k + 1)
  }

  lemma FlatGrows(groups: seq<seq<Node>>, ready: seq<Node>)
    ensures Flat(groups + [ready]) == Flat(groups) + Elems(ready)
  {
    assert forall g :: g in groups + [ready] <==> g in groups || g == ready;
  }

  lemma NextLevel(d: Dag, completed: set<Node>, groups: seq<seq<Node>>, ready: seq<Node>)
    requires d.Closed() && Shallow(d, completed, |groups|) && Levels(d, groups)
    requires ready != [] && NoDup(ready)
    requires forall n :: n in ready <==> n in d.steps && n !in completed && Elems(d.steps[n].dependencies) <= completed
    ensures Levels(d, groups + [ready])
    ensures Shallow(d, completed + Elems(ready), |groups| + 1)
  {
    var k := |groups|;
    forall n | n in d.steps
      ensures n in ready <==> ChainFrom(d.Deps(), n, k) && !ChainFrom(d.Deps(), n, k + 1)
      ensures n in completed + Elems(ready) <==> !ChainFrom(d.Deps(), n, k + 1)
    {
      ReadyIsLevel(d, completed, k, n);
      if ChainFrom(d.Deps(), n, k + 1) { ChainShorter(d.Deps(), n, k); }
    }
    var more := groups + [ready];
    forall i | 0 <= i < |more|
      ensures more[i] != [] && NoDup(more[i])
      ensures forall n :: n in more[i] <==>
        n in d.steps && ChainFrom(d.Deps(), n, i) && !ChainFrom(d.Deps(), n, i + 1)
    {
      if i < k { assert more[i] == groups[i]; }
    }
  }

  /** The groups built so far, and what they complete. */
  ghost predicate Grouped(d: Dag, groups: seq<seq<Node>>, completed: set<Node>) {
    && completed <= d.steps.Keys && completed == Flat(groups)
    && Shallow(d, completed, |groups|) && Levels(d, groups)
  }

  lemma NothingGrouped(d: Dag)
    ensures Grouped(d, [], {})
  {
    forall n ensures ChainFrom(d.Deps(), n, 0) {
      assert Walk(d.Deps(), [n]) && |[n]| == 1;
    }
  }

  lemma GroupOneMore(d: Dag, groups: seq<seq<Node>>, completed: set<Node>, ready: seq<Node>)
    requires d.Valid() && d.Closed() && Grouped(d, groups, completed) && ready != [] && NoDup(ready)
    requires forall n :: n in ready <==> n in d.steps && n !in completed && Elems(d.steps[n].dependencies) <= completed
    ensures Grouped(d, groups + [ready], completed + Elems(ready))
  {
    NextLevel(d, completed, groups, ready);
    FlatGrows(groups, ready);
  }

  /** On a validated workflow the groups partition the steps by longest dependency chain. */
  method GetParallelGroups(d: Dag) returns (groups: seq<seq<Node>>)
    requires d.Valid() && d.Closed() && Acyclic(d.Deps())
    ensures Levels(d, groups)
    ensures Flat(groups) == d.steps.Keys
  {
    groups := [];
    var completed: set<Node> := {};
    NothingGrouped(d);
    while |completed| < |d.steps|
      invariant Grouped(d, groups, completed)
      decreases d.steps.Keys - completed
    {
      SomeStepReady(d, completed);
      var ready := GetReadySteps(d, completed);
      if ready == [] { break; }
      GroupOneMore(d, groups, completed, ready);
      assert ready[0] in ready;
      groups := groups + [ready];
      completed := completed + Elems(ready);
    }
    CardSubset(completed, d.steps.Keys);
  }

  /** A step is in at most one group. */
  lemma LevelsDisjoint(d: Dag, groups: seq<seq<Node>>, i: nat, j: nat, n: Node)
    requires Levels(d, groups) && i < j < |groups| && n in groups[i]
    ensures n !in groups[j]
  {
    if n in groups[j] { ChainAtMost(d.Deps(), n, i + 1, j); }
  }

  /** What a step handler does when it is called. */
  datatype Handled<+V> = Returns(value: V) | Raises

  /** The end of a workflow run. On failure, `compensated` lists the rollback
      handlers invoked, with the argument each received. */
  datatype Run<+V> =
    | Succeeded(results: map<Node, V>)
    | Failed(completed: set<Node>, results: map<Node, V>, rollback: Result<seq<(Node, Option<V>)>, WorkflowError>)

  /** Everything a completed step depends on is completed too. */
  ghost predicate DependencyClosed(d: Dag, completed: set<Node>) {
    forall n :: n in completed ==> n in d.steps && Elems(d.steps[n].dependencies) <= completed
  }

  /** Results are exactly those of the completed steps, as their handlers returned them. */
  ghost predicate ResultsOf<V>(outcome: map<Node, Handled<V>>, completed: set<Node>, results: map<Node, V>) {
    && results.Keys == completed
    && forall n :: n in completed ==> n in outcome && outcome[n] == Returns(results[n])
  }

  /** The first raising step of `order` is at position `k`, or none raises and `k` is the end. */
  ghost predicate StopsAt<V>(order: seq<Node>, outcome: map<Node, Handled<V>>, k: nat) {
    && k <= |order| && (forall i :: 0 <= i < |order| ==> order[i] in outcome)
    && (forall i :: 0 <= i < k ==> outcome[order[i]].Returns?)
    && (k < |order| ==> outcome[order[k]].Raises?)
  }

  /** The first `i` steps of `order` have run and returned. */
  ghost predicate RanTo<V>(d: Dag, order: seq<Node>, outcome: map<Node, Handled<V>>, i: nat,
                           completed: set<Node>, results: map<Node, V>)
    requires i <= |order|
  {
    && completed == Elems(order[..i])
    && (forall j :: 0 <= j < i ==> order[j] in outcome && outcome[order[j]].Returns?)
    && DependencyClosed(d, completed) && ResultsOf(outcome, completed, results)
  }

  lemma RanOneMore<V>(d: Dag, order: seq<Node>, outcome: map<Node, Handled<V>>, i: nat,
                      completed: set<Node>, results: map<Node, V>, v: V)
    requires d.Valid() && ExecutionOrder(d, order) && i < |order| && order[i] in outcome
    requires RanTo(d, order, outcome, i, completed, results) && outcome[order[i]] == Returns(v)
    ensures RanTo(d, order, outcome, i + 1, completed + {order[i]}, results[order[i] := v])
  {
    var n := order[i];
    assert n in Elems(order);
    ElemsOneMore(order, i);
    forall m | m in d.steps[n].dependencies ensures m in completed {
      assert Edge(d.Deps(), order[i], m);
    }
  }

  /** Every step once, after its dependencies. */
  ghost predicate ExecutionOrder(d: Dag, order: seq<Node>) {
    NoDup(order) && Elems(order) == d.steps.Keys && Ordered(d.Deps(), order, {})
  }

  lemma AllStepsRan<V>(d: Dag, order: seq<Node>, outcome: map<Node, Handled<V>>, n: Node)
    requires ExecutionOrder(d, order) && n in d.steps && outcome.Keys == d.steps.Keys
    requires forall j :: 0 <= j < |order| ==> order[j] in outcome && outcome[order[j]].Returns?
    ensures outcome[n].Returns?
  {
    assert n in Elems(order);
  }

  /** Runs the steps in order until one raises: exactly the steps before the first raising one are completed. */
  method ExecuteSequential<V>(d: Dag, order: seq<Node>, outcome: map<Node, Handled<V>>)
    returns (ok: bool, completed: set<Node>, results: map<Node, V>)
    requires d.Valid() && ExecutionOrder(d, order) && outcome.Keys == d.steps.Keys
    ensures DependencyClosed(d, completed) && ResultsOf(outcome, completed, results)
    ensures ok <==> forall n :: n in d.steps ==> outcome[n].Returns?
    ensures exists k: nat :: StopsAt(order, outcome, k) && completed == Elems(order[..k])
    ensures ok ==> completed == d.steps.Keys
  {
    completed, results := {}, map[];
    assert forall i :: 0 <= i < |order| ==> order[i] in Elems(order);
    for i := 0 to |order|
      invariant RanTo(d, order, outcome, i, completed, results)
    {
      var n := order[i];
      match outcome[n]
      case Raises =>
        assert StopsAt(order, outcome, i);
        return false, completed, results;
      case Returns(v) =>
        RanOneMore(d, order, outcome, i, completed, results, v);
        results := results[n := v];
        completed := completed + {n};
    }
    assert order[..|order|] == order;
    assert StopsAt(order, outcome, |order|);
    forall n | n in d.steps ensures outcome[n].Returns? { AllStepsRan(d, order, outcome, n); }
    return true, completed, results;
  }

  /** The members of a group that finish: all that return if none raises, otherwise those of them that are late. */
  ghost function Finishing<V>(group: seq<Node>, outcome: map<Node, Handled<V>>, late: set<Node>, ok: bool): set<Node> {
    set n | n in group && n in outcome && outcome[n].Returns? && (ok || n in late)
  }

  /** One group: if a member raises, the others are cancelled and awaited;
      `late` says which of them are not stopped by that. */
  method ExecuteGroup<V>(d: Dag, group: seq<Node>, outcome: map<Node, Handled<V>>, late: set<Node>,
                         completed: set<Node>, results: map<Node, V>)
    returns (ok: bool, completed': set<Node>, results': map<Node, V>)
    requires d.Valid() && outcome.Keys == d.steps.Keys
    requires forall n :: n in group ==> n in d.steps && Elems(d.steps[n].dependencies) <= completed
    requires DependencyClosed(d, completed) && ResultsOf(outcome, completed, results)
    ensures DependencyClosed(d, completed') && ResultsOf(outcome, completed', results')
    ensures ok <==> forall n :: n in group ==> outcome[n].Returns?
    ensures completed' == completed + Finishing(group, outcome, late, ok)
  {
    ok := forall n :: n in group ==> outcome[n].Returns?;
    completed', results' := completed, results;
    for i := 0 to |group|
      invariant completed' == completed + Finishing(group[..i], outcome, late, ok)
      invariant DependencyClosed(d, completed') && ResultsOf(outcome, completed', results')
    {
      var n := group[i];
      assert group[..i + 1] == group[..i] + [n];
      if outcome[n].Returns? && (ok || n in late) {
        results' := results'[n := outcome[n].value];
        completed' := completed' + {n};
      }
    }
    assert group[..|group|] == group;
  }

  /** A dependency of a step is in an earlier group than the step. */
  lemma DependenciesInEarlierGroups(d: Dag, groups: seq<seq<Node>>, k: nat, n: Node)
    requires d.Closed() && Levels(d, groups) && Flat(groups) == d.steps.Keys && k < |groups| && n in groups[k]
    ensures Elems(d.steps[n].dependencies) <= Flat(groups[..k])
  {
    forall m | m in d.steps[n].dependencies
      ensures m in Flat(groups[..k])
    {
      assert Edge(d.Deps(), n, m) && m in Flat(groups);
      var j :| 0 <= j < |groups| && m in groups[j];
      if j >= k {
        ChainAtMost(d.Deps(), m, k, j);
        ChainLonger(d.Deps(), n, m, k);
      }
      assert groups[..k][j] == groups[j];
    }
  }

  /** The groups before the `k`-th hold the steps without a chain of `k` edges. */
  lemma FlatIsShallow(d: Dag, groups: seq<seq<Node>>, k: nat)
    requires Levels(d, groups) && Flat(groups) == d.steps.Keys && k <= |groups|
    ensures Shallow(d, Flat(groups[..k]), k)
  {
    forall n
      ensures n in Flat(groups[..k]) <==> n in d.steps && !ChainFrom(d.Deps(), n, k)
    {
      if n in d.steps {
        assert n in Flat(groups);
        var j :| 0 <= j < |groups| && n in groups[j];
        if j < k {
          assert groups[..k][j] == groups[j];
          if ChainFrom(d.Deps(), n, k) { ChainAtMost(d.Deps(), n, j + 1, k); }
        } else {
          ChainAtMost(d.Deps(), n, k, j);
          if n in Flat(groups[..k]) { LaterGroupElsewhere(d, groups, k, j, n); }
        }
      } else {
        assert n !in Flat(groups);
        assert forall g :: g in groups[..k] ==> g in groups;
      }
    }
  }

  lemma LaterGroupElsewhere(d: Dag, groups: seq<seq<Node>>, k: nat, j: nat, n: Node)
    requires Levels(d, groups) && k <= j < |groups| && n in groups[j]
    ensures n !in Flat(groups[..k])
  {
    if n in Flat(groups[..k]) {
      var i :| 0 <= i < k && n in groups[..k][i];
      LevelsDisjoint(d, groups, i, j, n);
    }
  }

  /** A step whose longest chain has `k` edges raises, and no step with a shorter one does. */
  ghost predicate FailsAt<V>(d: Dag, outcome: map<Node, Handled<V>>, k: nat)
    requires outcome.Keys == d.steps.Keys
  {
    && (exists n :: n in d.steps && ChainFrom(d.Deps(), n, k) && !ChainFrom(d.Deps(), n, k + 1) && outcome[n].Raises?)
    && (forall n :: n in d.steps && !ChainFrom(d.Deps(), n, k) ==> outcome[n].Returns?)
  }

  /** Completed: every step whose longest chain has fewer than `k` edges,
      and of those with `k` the late ones that return. */
  ghost predicate CompletedTo<V>(d: Dag, outcome: map<Node, Handled<V>>, late: set<Node>, completed: set<Node>, k: nat)
    requires outcome.Keys == d.steps.Keys
  {
    forall n :: n in completed <==>
      && n in d.steps
      && (!ChainFrom(d.Deps(), n, k) || (!ChainFrom(d.Deps(), n, k + 1) && outcome[n].Returns? && n in late))
  }

  lemma FailingGroup<V>(d: Dag, groups: seq<seq<Node>>, outcome: map<Node, Handled<V>>, late: set<Node>,
                        before: set<Node>, completed: set<Node>, k: nat)
    requires Levels(d, groups) && Flat(groups) == d.steps.Keys && k < |groups| && outcome.Keys == d.steps.Keys
    requires before == Flat(groups[..k]) && (forall n :: n in before ==> outcome[n].Returns?)
    requires exists n :: n in groups[k] && outcome[n].Raises?
    requires completed == before + Finishing(groups[k], outcome, late, false)
    ensures FailsAt(d, outcome, k) && CompletedTo(d, outcome, late, completed, k)
  {
    FlatIsShallow(d, groups, k);
  }

  lemma GroupPassed<V>(d: Dag, groups: seq<seq<Node>>, outcome: map<Node, Handled<V>>, late: set<Node>, k: nat)
    requires Levels(d, groups) && k < |groups| && outcome.Keys == d.steps.Keys
    requires forall n :: n in groups[k] ==> outcome[n].Returns?
    ensures Flat(groups[..k]) + Finishing(groups[k], outcome, late, true) == Flat(groups[..k + 1])
  {
    assert Finishing(groups[k], outcome, late, true) == Elems(groups[k]);
    assert groups[..k + 1] == groups[..k] + [groups[k]];
    FlatGrows(groups[..k], groups[k]);
  }

  /** Runs group after group until a member of a group raises. Then all groups before it are completed, and of
      the failing group exactly the late members that return. */
  method ExecuteParallel<V>(d: Dag, outcome: map<Node, Handled<V>>, late: set<Node>)
    returns (ok: bool, completed: set<Node>, results: map<Node, V>)
    requires d.Valid() && d.Closed() && Acyclic(d.Deps()) && outcome.Keys == d.steps.Keys
    ensures DependencyClosed(d, completed) && ResultsOf(outcome, completed, results)
    ensures ok <==> forall n :: n in d.steps ==> outcome[n].Returns?
    ensures ok ==> completed == d.steps.Keys
    ensures !ok ==> exists k: nat :: FailsAt(d, outcome, k) && CompletedTo(d, outcome, late, completed, k)
  {
    var groups := GetParallelGroups(d);
    completed, results := {}, map[];
    for i := 0 to |groups|
      invariant completed == Flat(groups[..i])
      invariant DependencyClosed(d, completed) && ResultsOf(outcome, completed, results)
    {
      forall n | n in groups[i]
        ensures n in d.steps && Elems(d.steps[n].dependencies) <= completed
      {
        DependenciesInEarlierGroups(d, groups, i, n);
      }
      ghost var before := completed;
      ok, completed, results := ExecuteGroup(d, groups[i], outcome, late, completed, results);
      if !ok {
        FailingGroup(d, groups, outcome, late, before, completed, i);
        return;
      }
      GroupPassed(d, groups, outcome, late, i);
    }
    assert groups[..|groups|] == groups;
    return true, completed, results;
  }

  function Names<V>(log: seq<(Node, Option<V>)>): (s: seq<Node>)
    ensures |s| == |log| && forall i :: 0 <= i < |s| ==> s[i] == log[i].0
  {
    seq(|log|, i requires 0 <= i < |log| => log[i].0)
  }

  /** Compensation in reverse: each compensator of a completed step runs exactly once, with that
      step's result, and never before the compensator of a step that depends on it. */
  ghost predicate Compensated<V>(d: Dag, completed: set<Node>, results: map<Node, V>, log: seq<(Node, Option<V>)>) {
    && NoDup(Names(log))
    && (forall n :: n in Names(log) <==> n in completed && n in d.steps && d.steps[n].compensates)
    && (forall i :: 0 <= i < |log| && log[i].0 in results ==> log[i].1 == Some(results[log[i].0]))
    && (forall i, j :: 0 <= i < j < |log| ==> !Reaches(d.Deps(), log[j].0, log[i].0))
  }

  lemma LaterInOrderNotNeeded(g: Graph, order: seq<Node>, i: nat, j: nat)
    requires Ordered(g, order, {}) && NoDup(order) && j < i < |order|
    ensures !Reaches(g, order[j], order[i])
  {
    if Reaches(g, order[j], order[i]) {
      var p :| WalkFromTo(g, p, order[j], order[i]);
      PositionsFall(g, order, {}, p);
    }
  }

  /** The log after walking `order` backwards down to position `i`; `at` gives each entry's position. */
  ghost predicate RolledDownTo<V>(d: Dag, order: seq<Node>, i: nat, completed: set<Node>, results: map<Node, V>,
                                  log: seq<(Node, Option<V>)>, at: seq<int>) {
    && |at| == |log|
    && (forall k :: 0 <= k < |log| ==> i <= at[k] < |order| && log[k].0 == order[at[k]])
    && (forall k, l :: 0 <= k < l < |log| ==> at[l] < at[k])
    && (forall k :: 0 <= k < |log| ==>
      log[k].0 in completed && log[k].0 in d.steps && d.steps[log[k].0].compensates)
    && (forall k :: 0 <= k < |log| && log[k].0 in results ==> log[k].1 == Some(results[log[k].0]))
    && (forall k :: i <= k < |order| && order[k] in completed && order[k] in d.steps ==>
      d.steps[order[k]].compensates ==> order[k] in Names(log))
  }

  lemma RollOne<V>(d: Dag, order: seq<Node>, i: nat, completed: set<Node>, results: map<Node, V>,
                   log: seq<(Node, Option<V>)>, at: seq<int>)
    requires i < |order| && order[i] in d.steps && order[i] in completed && d.steps[order[i]].compensates
    requires RolledDownTo(d, order, i + 1, completed, results, log, at)
    ensures RolledDownTo(d, order, i, completed, results,
      log + [(order[i], if order[i] in results then Some(results[order[i]]) else None)], at + [i])
  {
    var n := order[i];
    var more := log + [(n, if n in results then Some(results[n]) else None)];
    assert Names(more) == Names(log) + [n];
  }

  lemma SkipOne<V>(d: Dag, order: seq<Node>, i: nat, completed: set<Node>, results: map<Node, V>,
                   log: seq<(Node, Option<V>)>, at: seq<int>)
    requires i < |order| && order[i] in d.steps && !(order[i] in completed && d.steps[order[i]].compensates)
    requires RolledDownTo(d, order, i + 1, completed, results, log, at)
    ensures RolledDownTo(d, order, i, completed, results, log, at)
  {
  }

  lemma NamesOneMore<V>(log: seq<(Node, Option<V>)>, n: Node, v: Option<V>, broken: set<Node>)
    ensures Elems(Names(log + [(n, v)])) * broken == Elems(Names(log)) * broken + (if n in broken then {n} else {})
  {
    assert Names(log + [(n, v)]) == Names(log) + [n];
  }

  /** Rolls back the completed steps. A compensator in `broken` raises, which stops none of the others. */
  method Rollback<V>(d: Dag, completed: set<Node>, results: map<Node, V>, broken: set<Node>)
    returns (r: Result<seq<(Node, Option<V>)>, WorkflowError>, failed: set<Node>)
    requires d.Valid() && d.Closed()
    ensures r.Ok? <==> Acyclic(d.Deps()) && d.DuplicateFree()
    ensures r.Ok? ==> Compensated(d, completed, results, r.value)
    ensures r.Ok? ==> failed == Elems(Names(r.value)) * broken
  {
    var sorted := TopologicalSort(d);
    if sorted.Err? { return Err(sorted.error), {}; }
    var log;
    log, failed := RollbackInOrder(d, sorted.value, completed, results, broken);
    return Ok(log), failed;
  }

  method RollbackInOrder<V>(d: Dag, order: seq<Node>, completed: set<Node>, results: map<Node, V>, broken: set<Node>)
    returns (log: seq<(Node, Option<V>)>, failed: set<Node>)
    requires NoDup(order) && Elems(order) == d.steps.Keys && Ordered(d.Deps(), order, {})
    ensures Compensated(d, completed, results, log)
    ensures failed == Elems(Names(log)) * broken
  {
    log, failed := [], {};
    ghost var at: seq<int> := [];
    var i := |order|;
    while i > 0
      invariant 0 <= i <= |order| && RolledDownTo(d, order, i, completed, results, log, at)
      invariant failed == Elems(Names(log)) * broken
    {
      i := i - 1;
      var n := order[i];
      assert n in Elems(order);
      if n in completed && d.steps[n].compensates {
        var result := if n in results then Some(results[n]) else None;
        RollOne(d, order, i, completed, results, log, at);
        NamesOneMore(log, n, result, broken);
        log, at := log + [(n, result)], at + [i];
        if n in broken { failed := failed + {n}; }
      } else {
        SkipOne(d, order, i, completed, results, log, at);
      }
    }
    LogIsCompensation(d, order, completed, results, log, at);
  }

  lemma LogIsCompensation<V>(d: Dag, order: seq<Node>, completed: set<Node>, results: map<Node, V>,
                             log: seq<(Node, Option<V>)>, at: seq<int>)
    requires NoDup(order) && Elems(order) == d.steps.Keys && Ordered(d.Deps(), order, {})
    requires RolledDownTo(d, order, 0, completed, results, log, at)
    ensures Compensated(d, completed, results, log)
  {
    forall i, j | 0 <= i < j < |log|
      ensures !Reaches(d.Deps(), log[j].0, log[i].0) && Names(log)[i] != Names(log)[j]
    {
      LaterInOrderNotNeeded(d.Deps(), order, at[i], at[j]);
    }
    forall n | n in completed && n in d.steps && d.steps[n].compensates
      ensures n in Names(log)
    {
      assert n in Elems(order);
    }
  }

  /** The steps a failed run has completed. In sequence these are the steps before the first raising one, in an
      execution order; none if there is no order. In parallel these are the shallower groups and the late part of
      the failing one. */
  ghost predicate CompletedIn<V>(d: Dag, parallel: bool, outcome: map<Node, Handled<V>>, late: set<Node>,
                                 completed: set<Node>)
    requires outcome.Keys == d.steps.Keys
  {
    if parallel then exists k: nat :: FailsAt(d, outcome, k) && CompletedTo(d, outcome, late, completed, k)
    else if d.DuplicateFree() then
      exists order, k: nat ::
        ExecutionOrder(d, order) && k < |order| && StopsAt(order, outcome, k) && completed == Elems(order[..k])
    else completed == {}
  }

  /** What a whole run of a validated workflow may end with. */
  ghost predicate EndsWith<V>(d: Dag, parallel: bool, outcome: map<Node, Handled<V>>, late: set<Node>, r: Run<V>)
    requires outcome.Keys == d.steps.Keys
  {
    match r
    case Succeeded(results) =>
      && (forall n :: n in d.steps ==> outcome[n].Returns?)
      && (parallel || d.DuplicateFree())
      && ResultsOf(outcome, d.steps.Keys, results)
    case Failed(completed, results, rollback) =>
      && CompletedIn(d, parallel, outcome, late, completed)
      && DependencyClosed(d, completed) && ResultsOf(outcome, completed, results)
      && (rollback.Ok? <==> d.DuplicateFree())
      && (rollback.Ok? ==> Compensated(d, completed, results, rollback.value))
  }

  /** A whole run of a validated workflow. It fails if and only if a handler raises, or it is sequential and a step
      repeats a dependency. What it has completed then is compensated if and only if no step repeats a dependency:
      otherwise computing the order fails first. */
  method Execute<V>(d: Dag, parallel: bool, outcome: map<Node, Handled<V>>, late: set<Node>, broken: set<Node>)
    returns (r: Run<V>)
    requires d.Valid() && d.Closed() && Acyclic(d.Deps()) && outcome.Keys == d.steps.Keys
    ensures r.Succeeded? <==> (forall n :: n in d.steps ==> outcome[n].Returns?) && (parallel || d.DuplicateFree())
    ensures EndsWith(d, parallel, outcome, late, r)
  {
    var ok, completed, results := false, {}, map[];
    if parallel {
      ok, completed, results := ExecuteParallel(d, outcome, late);
    } else {
      var sorted := TopologicalSort(d);
      if sorted.Ok? {
        ok, completed, results := ExecuteSequential(d, sorted.value, outcome);
        ghost var k: nat :| StopsAt(sorted.value, outcome, k) && completed == Elems(sorted.value[..k]);
        if !ok { StoppedEarly(d, sorted.value, outcome, k); }
      }
    }
    if ok { return Succeeded(results); }
    var rollback, _ := Rollback(d, completed, results, broken);
    return Failed(completed, results, rollback);
  }

  lemma StoppedEarly<V>(d: Dag, order: seq<Node>, outcome: map<Node, Handled<V>>, k: nat)
    requires Elems(order) == d.steps.Keys && outcome.Keys == d.steps.Keys && StopsAt(order, outcome, k)
    requires exists n :: n in d.steps && outcome[n].Raises?
    ensures k < |order|
  {
    var n :| n in d.steps && outcome[n].Raises?;
    assert n in Elems(order);
  }

  /** What repetition costs, for every workflow with one: a failed parallel run has completed every step shallower than
      the one that raised, and compensates none of them. */
  lemma RepetitionLosesCompensation<V>(d: Dag, outcome: map<Node, Handled<V>>, late: set<Node>, r: Run<V>, n: Node,
                                       m: Node)
    requires outcome.Keys == d.steps.Keys && !d.DuplicateFree() && EndsWith(d, true, outcome, late, r) && r.Failed?
    requires n in d.steps && outcome[n].Raises? && (forall x :: x in d.steps && x != n ==> outcome[x].Returns?)
    requires m in d.steps && Edge(d.Deps(), n, m)
    ensures m in r.completed && r.rollback.Err?
  {
    var k: nat :| FailsAt(d, outcome, k) && CompletedTo(d, outcome, late, r.completed, k);
    if ChainFrom(d.Deps(), m, k) { ChainLonger(d.Deps(), n, m, k); }
  }

  const FIRST := Node("a")
  const SECOND := Node("b")

  /** Step `b` names its dependency `a`, which has a compensator, twice. */
  const REPEATING := Dag([FIRST, SECOND],
    map[FIRST := Step(FIRST, [], true), SECOND := Step(SECOND, [FIRST, FIRST], false)])

  lemma RepeatingIsAccepted()
    ensures REPEATING.Valid() && REPEATING.Closed() && Acyclic(REPEATING.Deps()) && !REPEATING.DuplicateFree()
    ensures forall x, m :: Edge(REPEATING.Deps(), x, m) <==> x == SECOND && m == FIRST
  {
    var d, order := REPEATING, [FIRST, SECOND];
    assert d.steps[SECOND].dependencies == [FIRST, FIRST] && [FIRST, FIRST][0] == [FIRST, FIRST][1];
    assert order[..1] == [FIRST];
    assert forall i, m :: 0 <= i < |order| && Edge(d.Deps(), order[i], m) ==> i == 1 && m == FIRST;
    OrderedIsAcyclic(d.Deps(), order);
  }

  lemma RepeatingChains()
    ensures var g := REPEATING.Deps();
      !ChainFrom(g, FIRST, 1) && ChainFrom(g, SECOND, 1) && !ChainFrom(g, SECOND, 2)
  {
    var g, p := REPEATING.Deps(), [SECOND, FIRST];
    RepeatingIsAccepted();
    if ChainFrom(g, FIRST, 1) { ChainShorter(g, FIRST, 0); }
    assert Hop(g, p, 0) && Walk(g, p) && |p| == 2;
    if ChainFrom(g, SECOND, 2) { ChainShorter(g, SECOND, 1); }
  }

  /** The gap is real: validation accepts the workflow; run in parallel with `b` raising, `a` is completed
      and has a compensator, and the rollback fails before calling it. Such an end is possible. */
  lemma RepeatedDependencyLosesCompensation(outcome: map<Node, Handled<int>>, late: set<Node>, r: Run<int>)
    requires outcome == map[FIRST := Returns(0), SECOND := Raises]
    ensures REPEATING.Valid() && REPEATING.Closed() && Acyclic(REPEATING.Deps()) && !REPEATING.DuplicateFree()
    ensures EndsWith(REPEATING, true, outcome, late, r) ==>
      r.Failed? && r.completed == {FIRST} && REPEATING.steps[FIRST].compensates && r.rollback.Err?
    ensures EndsWith(REPEATING, true, outcome, late, Failed({FIRST}, map[FIRST := 0], Err(CircularDependency)))
  {
    var g := REPEATING.Deps();
    RepeatingIsAccepted();
    RepeatingChains();
    assert Walk(g, [FIRST]) && Walk(g, [SECOND]);
    assert FailsAt(REPEATING, outcome, 1);
    assert CompletedTo(REPEATING, outcome, late, {FIRST}, 1);
    if EndsWith(REPEATING, true, outcome, late, r) {
      assert SECOND in REPEATING.steps && outcome[SECOND].Raises?;
      RepetitionLosesCompensation(REPEATING, outcome, late, r, SECOND, FIRST);
      assert SECOND !in r.completed;
    }
  }
}
