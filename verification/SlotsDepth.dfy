/** The depth limit of the ancestor walk is real: one level deeper, a task queues for a slot its own
    ancestor holds. */
module SlotsDepth {
  import opened Common
  import opened Graph
  import opened Slots

  const RESOURCE: Resource := Node("resource")

  /** The tasks of one chain, the root first. */
  function Link(n: nat): Task {
    Node(seq(n, _ => 't'))
  }

  lemma LinksDiffer(n: nat, m: nat)
    requires n != m
    ensures Link(n) != Link(m)
  {
    assert |Link(n).text| != |Link(m).text|;
  }

  ghost predicate Reachable(lim: Limits, s: State) {
    exists steps :: Exec(lim, steps) == Some(s)
  }

  lemma OneStep(lim: Limits, s: State, step: Step)
    requires Reachable(lim, s) && Enabled(lim, s, step)
    ensures Reachable(lim, Next(lim, s, step))
  {
    var steps :| Exec(lim, steps) == Some(s);
    assert (steps + [step])[..|steps|] == steps;
    assert Exec(lim, steps + [step]) == Some(Next(lim, s, step));
  }

  /** The `i`-th task of the chain is inside its body: the root with a slot, the others with an inherited one. */
  predicate InBody(runs: map<Task, Run>, i: nat) {
    && Link(i) in runs
    && var r := runs[Link(i)];
       && r.parent == (if i == 0 then None else Some(Link(i - 1)))
       && r.want == RESOURCE
       && r.ledger == (if i == 0 then Some(RESOURCE) else None)
       && r.phase == Body(if i == 0 then Some(0) else None)
  }

  /** A chain of `k` nested tasks below a root that holds the only slot in use. */
  ghost predicate Tower(s: State, k: nat) {
    && (forall i: nat :: i <= k ==> InBody(s.runs, i))
    && (forall i: nat :: k < i ==> Link(i) !in s.runs)
    && s.InUse(RESOURCE) == 1
  }

  function RunOf(serial: nat, k: nat, phase: Phase): Run {
    Run(serial, Some(Link(k)), RESOURCE, None, phase.Body?, phase)
  }

  function With(s: State, k: nat, phase: Phase): State {
    s.(runs := s.runs[Link(k + 1) := RunOf(|s.runs|, k, phase)])
  }

  /** The walk of the next task after `j` looks: it meets an entry only at the root. */
  function WalkAt(k: nat, j: nat): Phase
    requires j <= k + 1
  {
    Walking(Link(k + 1 - j), j, if j == k + 1 then {RESOURCE} else {})
  }

  lemma RootIsTower(s: State)
    requires s.runs == map[Link(0) := Run(0, None, RESOURCE, Some(RESOURCE), true, Body(Some(0)))]
    requires s.InUse(RESOURCE) == 1
    ensures Tower(s, 0)
  {
    forall i: nat | 0 < i ensures Link(i) !in s.runs { LinksDiffer(i, 0); }
  }

  lemma RootOnly(lim: Limits)
    requires lim.capacity > 0
    ensures exists s :: Reachable(lim, s) && Tower(s, 0)
  {
    var s := State(map[], map[], map[], 0);
    assert Exec(lim, []) == Some(s);
    var root := Link(0);
    OneStep(lim, s, Submit(root, None, RESOURCE));
    var s1 := Next(lim, s, Submit(root, None, RESOURCE));
    OneStep(lim, s1, Start(root));
    var s2 := Next(lim, s1, Start(root));
    OneStep(lim, s2, Look(root));
    var s3 := Next(lim, s2, Look(root));
    OneStep(lim, s3, Acquire(root));
    var s4 := Next(lim, s3, Acquire(root));
    OneStep(lim, s4, WriteLedger(root));
    var s5 := Next(lim, s4, WriteLedger(root));
    assert s5.runs == map[root := Run(0, None, RESOURCE, Some(RESOURCE), true, Body(Some(0)))];
    RootIsTower(s5);
  }

  lemma Begin(lim: Limits, s: State, k: nat)
    requires Reachable(lim, s) && Tower(s, k)
    ensures Reachable(lim, With(s, k, WalkAt(k, 0)))
  {
    var t := Link(k + 1);
    assert InBody(s.runs, k);
    OneStep(lim, s, Submit(t, Some(Link(k)), RESOURCE));
    OneStep(lim, With(s, k, Submitted), Start(t));
    assert With(s, k, WalkAt(k, 0)) == Next(lim, With(s, k, Submitted), Start(t));
  }

  lemma LookOnce(lim: Limits, s: State, k: nat, j: nat)
    requires Tower(s, k) && 0 < j <= k + 1 && j <= lim.depth
    ensures Looked(lim, With(s, k, WalkAt(k, j - 1)).runs, RunOf(|s.runs|, k, WalkAt(k, j - 1)))
         == RunOf(|s.runs|, k, WalkAt(k, j))
  {
    LinksDiffer(k + 1, k + 1 - j);
    assert InBody(s.runs, k + 1 - j);
    if j > 1 {
      LinksDiffer(k + 1, k + 2 - j);
      assert InBody(s.runs, k + 2 - j);
    }
  }

  lemma LookStep(lim: Limits, s: State, k: nat, phase: Phase, next: Phase)
    requires phase.Walking? && Reachable(lim, With(s, k, phase))
    requires Looked(lim, With(s, k, phase).runs, RunOf(|s.runs|, k, phase)) == RunOf(|s.runs|, k, next)
    ensures Reachable(lim, With(s, k, next))
  {
    var mid := With(s, k, phase);
    OneStep(lim, mid, Look(Link(k + 1)));
    assert Next(lim, mid, Look(Link(k + 1))).runs == With(s, k, next).runs;
  }

  lemma {:induction false} WalkUp(lim: Limits, s: State, k: nat, j: nat)
    requires Reachable(lim, s) && Tower(s, k) && j <= k + 1 && j <= lim.depth
    ensures Reachable(lim, With(s, k, WalkAt(k, j)))
  {
    if j == 0 {
      Begin(lim, s, k);
    } else {
      WalkUp(lim, s, k, j - 1);
      LookOnce(lim, s, k, j);
      LookStep(lim, s, k, WalkAt(k, j - 1), WalkAt(k, j));
    }
  }

  /** Within the limit the next task finds the root's entry and inherits the slot. */
  lemma NextInherits(lim: Limits, s: State, k: nat)
    requires Reachable(lim, s) && Tower(s, k) && k + 1 <= lim.depth
    ensures Reachable(lim, With(s, k, Body(None))) && Tower(With(s, k, Body(None)), k + 1)
  {
    WalkUp(lim, s, k, k + 1);
    assert InBody(s.runs, 0);
    LinksDiffer(k + 1, 0);
    LookStep(lim, s, k, WalkAt(k, k + 1), Body(None));
    TowerGrows(s, k);
  }

  lemma TowerGrows(s: State, k: nat)
    requires Tower(s, k)
    ensures Tower(With(s, k, Body(None)), k + 1)
  {
    var runs := With(s, k, Body(None)).runs;
    forall i: nat | i <= k ensures InBody(runs, i) {
      assert InBody(s.runs, i);
      LinksDiffer(i, k + 1);
    }
    forall i: nat | k + 1 < i ensures Link(i) !in runs { LinksDiffer(i, k + 1); }
  }

  lemma {:induction false} TowerOf(lim: Limits, k: nat)
    requires lim.capacity > 0 && k <= lim.depth
    ensures exists s :: Reachable(lim, s) && Tower(s, k)
  {
    if k == 0 {
      RootOnly(lim);
    } else {
      TowerOf(lim, k - 1);
      var s :| Reachable(lim, s) && Tower(s, k - 1);
      NextInherits(lim, s, k - 1);
    }
  }

  /** One level below the limit the walk ends before the root, and the task queues. */
  lemma NextWaits(lim: Limits, s: State)
    requires Reachable(lim, s) && Tower(s, lim.depth)
    ensures Reachable(lim, With(s, lim.depth, Waiting))
  {
    var k := lim.depth;
    WalkUp(lim, s, k, k);
    LookStep(lim, s, k, WalkAt(k, k), Waiting);
  }

  lemma {:induction false} RootAbove(s: State, k: nat, n: nat)
    requires Tower(s, k) && n <= k
    ensures |Ancestors(With(s, k, Waiting).runs, Link(k + 1), n + 1)| == n + 1
    ensures Ancestors(With(s, k, Waiting).runs, Link(k + 1), n + 1)[n] == Link(k - n)
  {
    if n > 0 {
      RootAbove(s, k, n - 1);
      assert InBody(s.runs, k + 1 - n);
      LinksDiffer(k + 1 - n, k + 1);
    }
  }

  /** `t` waits for what its ancestor `a`, just beyond the limit, holds. */
  ghost predicate WaitsBelowHolder(lim: Limits, s: State, t: Task, a: Task) {
    && t in s.runs && a in s.runs && s.runs[t].phase.Waiting?
    && a in Ancestors(s.runs, t, lim.depth + 1)
    && s.runs[a].Held().Some? && s.runs[a].want == s.runs[t].want
    && (lim.capacity == 1 ==> !Enabled(lim, s, Acquire(t)))
  }

  lemma BottomWaits(lim: Limits, s: State)
    requires Tower(s, lim.depth)
    ensures WaitsBelowHolder(lim, With(s, lim.depth, Waiting), Link(lim.depth + 1), Link(0))
  {
    RootAbove(s, lim.depth, lim.depth);
    assert InBody(s.runs, 0);
    LinksDiffer(0, lim.depth + 1);
  }

  /** For every depth limit there is a run in which a task `depth + 1` levels below the root waits for a
      resource that the root holds; with capacity one, nobody can be granted it before the root ends. */
  lemma DeepTaskWaits(lim: Limits) returns (steps: seq<Step>)
    requires lim.capacity > 0
    ensures Exec(lim, steps).Some?
    ensures WaitsBelowHolder(lim, Exec(lim, steps).value, Link(lim.depth + 1), Link(0))
  {
    TowerOf(lim, lim.depth);
    var s :| Reachable(lim, s) && Tower(s, lim.depth);
    NextWaits(lim, s);
    BottomWaits(lim, s);
    steps :| Exec(lim, steps) == Some(With(s, lim.depth, Waiting));
  }
}
