/** Cascading cancellation along the task lineage. */
module Cascade {
  import opened Common
  import opened Graph
  import opened TaskStatus

  type Task = Node

  datatype Record = Record(status: Status, cancelRequested: bool)

  const MAX_CASCADE_DEPTH: nat := 32

  predicate Live(tasks: map<Task, Record>, t: Task) {
    t in tasks && !IsTerminal(tasks[t].status)
  }

  /** A downward path on which everything after the start is live. */
  ghost predicate LivePath(g: Graph, tasks: map<Task, Record>, p: seq<Task>) {
    Walk(g, p) && forall i :: 1 <= i < |p| ==> Live(tasks, p[i])
  }

  /** `x` lies below `t` at a distance from 1 to `k`, through live tasks only. */
  ghost predicate Below(g: Graph, tasks: map<Task, Record>, t: Task, k: nat, x: Task) {
    exists p :: LivePath(g, tasks, p) && p[0] == t && p[|p| - 1] == x && 2 <= |p| <= k + 1
  }

  /** Every task is listed under at most one parent. */
  ghost predicate OneParent(g: Graph) {
    forall a, b, x :: Edge(g, a, x) && Edge(g, b, x) ==> a == b
  }

  /** Children are listed once each, under one parent. */
  ghost predicate Forest(g: Graph) {
    OneParent(g) && forall x :: x in g ==> NoDup(g[x])
  }

  /** With one parent per task, two paths to the same task agree as far back as both go. */
  lemma {:induction false} PathsAgree(g: Graph, p: seq<Task>, q: seq<Task>, k: nat)
    requires OneParent(g) && Walk(g, p) && Walk(g, q) && p[|p| - 1] == q[|q| - 1] && k < |p| && k < |q|
    ensures p[|p| - 1 - k] == q[|q| - 1 - k]
  {
    if k > 0 {
      PathsAgree(g, p, q, k - 1);
      assert Hop(g, p, |p| - 1 - k) && Hop(g, q, |q| - 1 - k);
    }
  }

  lemma ComesFromParent(g: Graph, t: Task, q: seq<Task>, i: nat)
    requires OneParent(g) && Walk(g, q) && 1 <= i < |q| && Edge(g, t, q[i])
    ensures q[i - 1] == t
  {
    assert Hop(g, q, i - 1);
  }

  /** Below two different children of a cancelled task there is nothing in common. */
  lemma SubtreesDisjoint(g: Graph, tasks: map<Task, Record>, t: Task, p: seq<Task>, q: seq<Task>)
    requires OneParent(g) && !Live(tasks, t)
    requires LivePath(g, tasks, p) && LivePath(g, tasks, q) && p[|p| - 1] == q[|q| - 1]
    requires Edge(g, t, p[0]) && Edge(g, t, q[0]) && Live(tasks, p[0]) && Live(tasks, q[0])
    ensures p[0] == q[0]
  {
    if |p| <= |q| { NestedEqual(g, tasks, t, p, q); } else { NestedEqual(g, tasks, t, q, p); }
  }

  lemma NestedEqual(g: Graph, tasks: map<Task, Record>, t: Task, p: seq<Task>, q: seq<Task>)
    requires OneParent(g) && !Live(tasks, t) && |p| <= |q|
    requires LivePath(g, tasks, p) && LivePath(g, tasks, q) && p[|p| - 1] == q[|q| - 1]
    requires Edge(g, t, p[0]) && Live(tasks, q[0])
    ensures p[0] == q[0]
  {
    PathsAgree(g, p, q, |p| - 1);
    var i := |q| - |p|;
    assert q[i] == p[0];
    if i > 0 { ComesFromParent(g, t, q, i); }
  }

  /** What a cascade below the children `done` of a task marks, with `k` levels left below each child. */
  ghost predicate Marked(g: Graph, tasks: map<Task, Record>, done: seq<Task>, k: nat, x: Task) {
    exists c :: c in done && Live(tasks, c) && (x == c || Below(g, tasks, c, k, x))
  }

  /** `now` is `tasks` with exactly the tasks in question cancelled. */
  ghost predicate CancelledExactly(g: Graph, tasks: map<Task, Record>, now: map<Task, Record>, done: seq<Task>,
                                   k: nat) {
    && now.Keys == tasks.Keys
    && forall x :: x in tasks ==>
      now[x] == if Marked(g, tasks, done, k, x) then Record(Cancelled, true) else tasks[x]
  }

  /** The next live child is untouched by the cascades below its siblings. */
  lemma SiblingUntouched(g: Graph, tasks: map<Task, Record>, t: Task, done: seq<Task>, k: nat, c: Task)
    requires OneParent(g) && !Live(tasks, t) && Edge(g, t, c) && c !in done && Live(tasks, c)
    requires forall d :: d in done ==> Edge(g, t, d)
    ensures !Marked(g, tasks, done, k, c)
  {
    if Marked(g, tasks, done, k, c) {
      var d :| d in done && Live(tasks, d) && (c == d || Below(g, tasks, d, k, c));
      var p :| LivePath(g, tasks, p) && p[0] == d && p[|p| - 1] == c;
      SubtreesDisjoint(g, tasks, t, [c], p);
    }
  }

  /** Paths below a live child see the same tasks live, whether or not its siblings' subtrees were cancelled. */
  lemma BelowUnchanged(g: Graph, tasks: map<Task, Record>, now: map<Task, Record>, t: Task, done: seq<Task>,
                       k: nat, c: Task, j: nat, x: Task)
    requires OneParent(g) && !Live(tasks, t) && Edge(g, t, c) && c !in done && Live(tasks, c)
    requires forall d :: d in done ==> Edge(g, t, d)
    requires CancelledExactly(g, tasks, now, done, k)
    ensures Below(g, now[c := Record(Cancelled, true)], c, j, x) <==> Below(g, tasks, c, j, x)
  {
    var after := now[c := Record(Cancelled, true)];
    if Below(g, after, c, j, x) {
      var p :| LivePath(g, after, p) && p[0] == c && p[|p| - 1] == x && 2 <= |p| <= j + 1;
      assert forall y :: Live(after, y) ==> Live(tasks, y);
      assert LivePath(g, tasks, p);
    }
    if Below(g, tasks, c, j, x) {
      var p :| LivePath(g, tasks, p) && p[0] == c && p[|p| - 1] == x && 2 <= |p| <= j + 1;
      forall i | 1 <= i < |p|
        ensures Live(after, p[i])
      {
        StaysLive(g, tasks, t, done, k, c, p, i);
      }
      assert LivePath(g, after, p);
    }
  }

  lemma StaysLive(g: Graph, tasks: map<Task, Record>, t: Task, done: seq<Task>, k: nat, c: Task, p: seq<Task>, i: nat)
    requires OneParent(g) && !Live(tasks, t) && Edge(g, t, c) && c !in done && Live(tasks, c)
    requires forall d :: d in done ==> Edge(g, t, d)
    requires LivePath(g, tasks, p) && p[0] == c && 1 <= i < |p|
    ensures p[i] != c && !Marked(g, tasks, done, k, p[i])
  {
    var w := p[0..i + 1];
    SubWalk(g, p, 0, i + 1);
    assert LivePath(g, tasks, w);
    if p[i] == c {
      ComesFromParent(g, t, p, i);
    }
    if Marked(g, tasks, done, k, p[i]) {
      var d :| d in done && Live(tasks, d) && (p[i] == d || Below(g, tasks, d, k, p[i]));
      if p[i] == d {
        SubtreesDisjoint(g, tasks, t, [d], w);
      } else {
        var q :| LivePath(g, tasks, q) && q[0] == d && q[|q| - 1] == p[i];
        SubtreesDisjoint(g, tasks, t, q, w);
      }
    }
  }

  lemma MarkedOneMore(g: Graph, tasks: map<Task, Record>, listed: seq<Task>, j: nat, k: nat, x: Task)
    requires j < |listed|
    ensures Marked(g, tasks, listed[..j + 1], k, x) <==>
      || Marked(g, tasks, listed[..j], k, x)
      || (Live(tasks, listed[j]) && (x == listed[j] || Below(g, tasks, listed[j], k, x)))
  {
    assert listed[..j + 1] == listed[..j] + [listed[j]];
  }

  /** The loop over the children: after child `j` was cancelled with everything below it, or skipped. */
  lemma NextChildDone(g: Graph, tasks: map<Task, Record>, before: map<Task, Record>, now: map<Task, Record>,
                      t: Task, listed: seq<Task>, j: nat, k: nat)
    requires OneParent(g) && !Live(tasks, t) && NoDup(listed) && j < |listed|
    requires forall c :: c in listed ==> Edge(g, t, c)
    requires CancelledExactly(g, tasks, before, listed[..j], k)
    requires !Live(before, listed[j]) ==> now == before
    requires Live(before, listed[j]) ==>
      var after := before[listed[j] := Record(Cancelled, true)];
      now.Keys == after.Keys &&
      forall x :: x in after ==>
        now[x] == if Below(g, after, listed[j], k, x) then Record(Cancelled, true) else after[x]
    ensures CancelledExactly(g, tasks, now, listed[..j + 1], k)
  {
    var c, done := listed[j], listed[..j];
    assert c !in done;
    if Live(tasks, c) { SiblingUntouched(g, tasks, t, done, k, c); }
    assert Live(before, c) <==> Live(tasks, c);
    forall x | x in tasks
      ensures now[x] == if Marked(g, tasks, listed[..j + 1], k, x) then Record(Cancelled, true) else tasks[x]
    {
      MarkedOneMore(g, tasks, listed, j, k, x);
      if Live(tasks, c) { BelowUnchanged(g, tasks, before, t, done, k, c, k, x); }
    }
  }

  lemma MarkedIsBelow(g: Graph, tasks: map<Task, Record>, t: Task, listed: seq<Task>, k: nat, x: Task)
    requires forall c :: Edge(g, t, c) <==> c in listed
    ensures Marked(g, tasks, listed, k, x) <==> Below(g, tasks, t, k + 1, x)
  {
    if Marked(g, tasks, listed, k, x) {
      var c :| c in listed && Live(tasks, c) && (x == c || Below(g, tasks, c, k, x));
      BelowChild(g, tasks, t, c, k, x);
    }
    if Below(g, tasks, t, k + 1, x) {
      var c := FirstChild(g, tasks, t, k, x);
    }
  }

  lemma BelowChild(g: Graph, tasks: map<Task, Record>, t: Task, c: Task, k: nat, x: Task)
    requires Edge(g, t, c) && Live(tasks, c) && (x == c || Below(g, tasks, c, k, x))
    ensures Below(g, tasks, t, k + 1, x)
  {
    var q := if x == c then [c]
             else var q :| LivePath(g, tasks, q) && q[0] == c && q[|q| - 1] == x && 2 <= |q| <= k + 1; q;
    assert Hop(g, [t, c], 0);
    JoinWalks(g, [t, c], q);
    var p := [t, c] + q[1..];
    assert forall i :: 1 <= i < |p| ==> p[i] == q[i - 1];
    assert LivePath(g, tasks, p) && p[0] == t && p[|p| - 1] == x && |p| == |q| + 1;
  }

  lemma FirstChild(g: Graph, tasks: map<Task, Record>, t: Task, k: nat, x: Task) returns (c: Task)
    requires Below(g, tasks, t, k + 1, x)
    ensures Edge(g, t, c) && Live(tasks, c) && (x == c || Below(g, tasks, c, k, x))
  {
    var p :| LivePath(g, tasks, p) && p[0] == t && p[|p| - 1] == x && 2 <= |p| <= k + 2;
    assert Hop(g, p, 0);
    SubWalk(g, p, 1, |p|);
    c := p[1];
    var q := p[1..|p|];
    assert LivePath(g, tasks, q) && q[0] == c && q[|q| - 1] == x && |q| == |p| - 1;
  }

  /** A path that comes back to its start can be shortened to one that does not. */
  lemma {:induction false} LeaveRootOnce(g: Graph, tasks: map<Task, Record>, t: Task, p: seq<Task>)
    returns (q: seq<Task>)
    requires LivePath(g, tasks, p) && p[0] == t && p[|p| - 1] != t
    ensures LivePath(g, tasks, q) && q[0] == t && q[|q| - 1] == p[|p| - 1] && 2 <= |q| <= |p|
    ensures forall i :: 1 <= i < |q| ==> q[i] != t
    decreases |p|
  {
    if i :| 1 <= i < |p| && p[i] == t {
      SubWalk(g, p, i, |p|);
      q := LeaveRootOnce(g, tasks, t, p[i..|p|]);
    } else {
      q := p;
    }
  }

  /** Cancelling the root first takes away only the paths that return to it. */
  lemma BelowCancelledRoot(g: Graph, tasks: map<Task, Record>, t: Task, k: nat, x: Task)
    requires Live(tasks, t)
    ensures Below(g, tasks[t := Record(Cancelled, true)], t, k, x) <==> x != t && Below(g, tasks, t, k, x)
  {
    var after := tasks[t := Record(Cancelled, true)];
    if Below(g, after, t, k, x) {
      var p :| LivePath(g, after, p) && p[0] == t && p[|p| - 1] == x && 2 <= |p| <= k + 1;
      assert LivePath(g, tasks, p);
    }
    if x != t && Below(g, tasks, t, k, x) {
      var p :| LivePath(g, tasks, p) && p[0] == t && p[|p| - 1] == x && 2 <= |p| <= k + 1;
      var q := LeaveRootOnce(g, tasks, t, p);
      assert LivePath(g, after, q);
    }
  }

  /** Whatever the lineage looks like, a cascade only ever cancels live tasks below, and only those. */
  ghost predicate CancelledWithin(g: Graph, tasks: map<Task, Record>, now: map<Task, Record>, t: Task, k: nat) {
    && now.Keys == tasks.Keys
    && forall x :: x in tasks && now[x] != tasks[x] ==> now[x] == Record(Cancelled, true) && Below(g, tasks, t, k, x)
  }

  lemma WithinOneMore(g: Graph, tasks: map<Task, Record>, before: map<Task, Record>, now: map<Task, Record>,
                      t: Task, k: nat, c: Task, x: Task)
    requires CancelledWithin(g, tasks, before, t, k + 1) && Edge(g, t, c) && Live(before, c)
    requires CancelledWithin(g, before[c := Record(Cancelled, true)], now, c, k)
    requires x in tasks && now[x] != tasks[x]
    ensures now[x] == Record(Cancelled, true) && Below(g, tasks, t, k + 1, x)
  {
    var after := before[c := Record(Cancelled, true)];
    assert forall y :: Live(after, y) ==> Live(tasks, y);
    assert Live(tasks, c) && before[c] == tasks[c];
    if x == c || (now[x] != after[x]) {
      if x != c {
        var p :| LivePath(g, after, p) && p[0] == c && p[|p| - 1] == x && 2 <= |p| <= k + 1;
        assert LivePath(g, tasks, p);
      }
      assert Marked(g, tasks, g[t], k, x);
      MarkedIsBelow(g, tasks, t, g[t], k, x);
    }
  }

  class Orchestrator {
    var tasks: map<Task, Record>
    const children: Graph

    constructor (tasks: map<Task, Record>, children: Graph)
      ensures this.tasks == tasks && this.children == children
    {
      this.tasks, this.children := tasks, children;
    }

    /** `lifecycle.cancel`: refuses missing and terminal tasks, otherwise marks and cancels. */
    method LifecycleCancel(t: Task) returns (ok: bool)
      modifies this
      ensures ok <==> Live(old(tasks), t)
      ensures tasks == if ok then old(tasks)[t := Record(Cancelled, true)] else old(tasks)
    {
      if t !in tasks || IsTerminal(tasks[t].status) { return false; }
      tasks := tasks[t := tasks[t].(cancelRequested := true)];
      TerminalIsStuck(tasks[t].status);
      assert CanTransition(tasks[t].status, Cancelled);
      tasks := tasks[t := tasks[t].(status := Cancelled)];
      return true;
    }

    /** Cancels the live tasks below `t`, level by level down to the depth limit. */
    method CascadeChildren(t: Task, depth: nat)
      requires depth <= MAX_CASCADE_DEPTH && !Live(tasks, t)
      modifies this
      ensures CancelledWithin(children, old(tasks), tasks, t, MAX_CASCADE_DEPTH - depth)
      ensures Forest(children) ==> forall x :: x in old(tasks) ==>
        tasks[x] == if Below(children, old(tasks), t, MAX_CASCADE_DEPTH - depth, x)
                    then Record(Cancelled, true) else old(tasks)[x]
      decreases MAX_CASCADE_DEPTH - depth
    {
      if depth >= MAX_CASCADE_DEPTH { return; }
      var listed := if t in children then children[t] else [];
      var k := MAX_CASCADE_DEPTH - depth - 1;
      for j := 0 to |listed|
        invariant CancelledWithin(children, old(tasks), tasks, t, k + 1)
        invariant Forest(children) ==> CancelledExactly(children, old(tasks), tasks, listed[..j], k)
      {
        var c := listed[j];
        ghost var before := tasks;
        if c in tasks && !IsTerminal(tasks[c].status) {
          var _ := LifecycleCancel(c);
          CascadeChildren(c, depth + 1);
          forall x | x in old(tasks) && tasks[x] != old(tasks)[x]
            ensures tasks[x] == Record(Cancelled, true) && Below(children, old(tasks), t, k + 1, x)
          {
            WithinOneMore(children, old(tasks), before, tasks, t, k, c, x);
          }
        }
        if Forest(children) { NextChildDone(children, old(tasks), before, tasks, t, listed, j, k); }
      }
      assert listed[..|listed|] == listed;
      forall x
        ensures Marked(children, old(tasks), listed, k, x) <==> Below(children, old(tasks), t, k + 1, x)
      {
        MarkedIsBelow(children, old(tasks), t, listed, k, x);
      }
    }

    /** Cascade cancel: it succeeds on live tasks only. It then cancels the task, and of the rest only
        live tasks within 32 levels below it that live tasks lead to; when every task is listed under
        one parent it cancels all of those. A cyclic lineage does not keep it from ending. */
    method Cancel(t: Task) returns (ok: bool)
      modifies this
      ensures ok <==> Live(old(tasks), t)
      ensures !ok ==> tasks == old(tasks)
      ensures ok ==> tasks.Keys == old(tasks).Keys && tasks[t] == Record(Cancelled, true)
      ensures ok ==> forall x :: x in old(tasks) && x != t && tasks[x] != old(tasks)[x] ==>
        tasks[x] == Record(Cancelled, true) && Below(children, old(tasks), t, 32, x)
      ensures ok && Forest(children) ==> forall x :: x in old(tasks) ==>
        tasks[x] == if x == t || Below(children, old(tasks), t, 32, x)
                    then Record(Cancelled, true) else old(tasks)[x]
    {
      ok := LifecycleCancel(t);
      if ok {
        CascadeChildren(t, 0);
        forall x
          ensures Below(children, old(tasks)[t := Record(Cancelled, true)], t, MAX_CASCADE_DEPTH, x) <==>
            x != t && Below(children, old(tasks), t, MAX_CASCADE_DEPTH, x)
        {
          BelowCancelledRoot(children, old(tasks), t, MAX_CASCADE_DEPTH, x);
        }
      }
    }
  }
}
