/** When an inherited slot is backed by a slot somebody holds. */
module SlotsStructured {
  import opened Common
  import opened Slots
  import opened SlotsDepth

  /** The task has left its body, or never got there; at most its slot is still to be given back. */
  predicate Over(r: Run) {
    r.phase.Releasing? || r.phase.Finished?
  }

  /** All tasks submitted from inside `t` are over. */
  predicate ChildrenDone(runs: map<Task, Run>, t: Task) {
    forall c :: c in runs && runs[c].parent == Some(t) ==> Over(runs[c])
  }

  /** Every task leaves its body only after the tasks it submitted are over. */
  ghost predicate StructuredRun(lim: Limits, steps: seq<Step>) {
    steps != [] ==>
      var init, last := steps[..|steps| - 1], steps[|steps| - 1];
      && StructuredRun(lim, init)
      && (Exec(lim, init).Some? && last.Leave? ==> ChildrenDone(Exec(lim, init).value.runs, last.t))
  }

  /** A task that is not over runs inside the body of its parent. */
  ghost predicate Nested(runs: map<Task, Run>) {
    forall t :: t in runs && !Over(runs[t]) && runs[t].parent.Some? ==>
      runs[t].parent.value in runs && runs[runs[t].parent.value].phase.Body?
  }

  /** A ledger entry is for the task's own resource, whose slot it holds until it has finished; and a task that inherits
      has an entry of its resource above it. */
  ghost predicate EntryOk(lim: Limits, runs: map<Task, Run>, t: Task)
    requires t in runs
  {
    var r := runs[t];
    && (r.ledger.Some? ==> r.ledger.value == r.want && (r.Held().Some? || r.phase.Finished?))
    && (r.phase == Body(None) ==> r.want in Ledgers(runs, Ancestors(runs, t, lim.depth)))
  }

  ghost predicate Entries(lim: Limits, runs: map<Task, Run>) {
    forall t :: t in runs ==> EntryOk(lim, runs, t)
  }

  /** Some ancestor within the limit holds a slot of the resource `t` wants. */
  ghost predicate Backed(lim: Limits, runs: map<Task, Run>, t: Task)
    requires t in runs
  {
    exists a :: a in Ancestors(runs, t, lim.depth) && a in runs && runs[a].want == runs[t].want && runs[a].Held().Some?
  }

  lemma StepKeepsNested(lim: Limits, s: State, step: Step)
    requires AllOk(lim, s.runs) && Nested(s.runs) && Enabled(lim, s, step)
    requires step.Leave? ==> ChildrenDone(s.runs, step.t)
    ensures Nested(Next(lim, s, step).runs)
  {
    var runs, runs', u := s.runs, Next(lim, s, step).runs, step.t;
    ActorMoves(lim, s, step, runs'[u]);
    if u in runs { BodyOnlyLeaves(lim, s, step); }
    forall t | t in runs' && !Over(runs'[t]) && runs'[t].parent.Some?
      ensures runs'[t].parent.value in runs' && runs'[runs'[t].parent.value].phase.Body?
    {
      if t in runs { assert TaskOk(lim, runs, t); }
    }
  }

  /** A task that is over stays over, and a body is left by leaving only. */
  lemma BodyOnlyLeaves(lim: Limits, s: State, step: Step)
    requires Enabled(lim, s, step) && step.t in s.runs
    ensures Over(s.runs[step.t]) ==> Over(Next(lim, s, step).runs[step.t])
    ensures s.runs[step.t].phase.Body? ==> step.Leave?
  {
  }

  /** A ledger entry is written together with entering the body on a slot, and nobody inherits but by looking. */
  lemma ActorKeepsSlot(lim: Limits, s: State, step: Step)
    requires Enabled(lim, s, step)
    requires step.t in s.runs ==> TaskOk(lim, s.runs, step.t) && EntryOk(lim, s.runs, step.t)
    ensures var r := Next(lim, s, step).runs[step.t];
      && (r.ledger.Some? ==> r.ledger.value == r.want && (r.Held().Some? || r.phase.Finished?))
      && (r.phase == Body(None) ==> step.Look?)
  {
  }

  lemma ActorEntryOk(lim: Limits, s: State, step: Step)
    requires AllOk(lim, s.runs) && Entries(lim, s.runs) && Enabled(lim, s, step)
    ensures EntryOk(lim, Next(lim, s, step).runs, step.t)
  {
    ActorKeepsSlot(lim, s, step);
    if step.Look? { LookedEntry(lim, s.runs, step.t, Looked(lim, s.runs, s.runs[step.t])); }
  }

  lemma LookedEntry(lim: Limits, runs: map<Task, Run>, t: Task, next: Run)
    requires AllOk(lim, runs) && t in runs && runs[t].phase.Walking? && next == Looked(lim, runs, runs[t])
    ensures next.phase == Body(None) ==> next.want in Ledgers(runs[t := next], Ancestors(runs[t := next], t, lim.depth))
  {
    LookEntry(lim, runs, t);
    LookProgress(lim, runs, t, next);
    ViewKept(lim, runs, runs[t := next], t, t, lim.depth);
  }

  lemma LookProgress(lim: Limits, runs: map<Task, Run>, t: Task, next: Run)
    requires AllOk(lim, runs) && t in runs && runs[t].phase.Walking? && next == Looked(lim, runs, runs[t])
    ensures Progress(runs, runs[t := next], t)
  {
    assert TaskOk(lim, runs, t);
    UpdateNotSmaller(runs, t, next);
  }

  /** A walk that ends in inheritance has found the resource on the chain. */
  lemma LookEntry(lim: Limits, runs: map<Task, Run>, t: Task)
    requires AllOk(lim, runs) && t in runs && runs[t].phase.Walking?
    ensures Looked(lim, runs, runs[t]).phase == Body(None) ==>
      runs[t].want in Ledgers(runs, Ancestors(runs, t, lim.depth))
  {
    assert TaskOk(lim, runs, t);
    var Walking(at, i, found) := runs[t].phase;
    if !(i < lim.depth && at in runs && runs[at].parent.Some?) {
      WalkIsOver(lim, runs, t, at, i, found, lim.depth);
    }
  }

  lemma StepKeepsEntries(lim: Limits, s: State, step: Step)
    requires AllOk(lim, s.runs) && Entries(lim, s.runs) && Enabled(lim, s, step)
    ensures Entries(lim, Next(lim, s, step).runs)
  {
    var runs' := Next(lim, s, step).runs;
    StepProgresses(lim, s, step);
    forall t | t in runs' ensures EntryOk(lim, runs', t) {
      if t == step.t {
        ActorEntryOk(lim, s, step);
      } else {
        assert EntryOk(lim, s.runs, t);
        ViewKept(lim, s.runs, runs', step.t, t, lim.depth);
      }
    }
  }

  lemma {:induction false} RunKeepsEntries(lim: Limits, steps: seq<Step>)
    requires Exec(lim, steps).Some?
    ensures Entries(lim, Exec(lim, steps).value.runs)
    ensures StructuredRun(lim, steps) ==> Nested(Exec(lim, steps).value.runs)
  {
    if steps != [] {
      var init, last := steps[..|steps| - 1], steps[|steps| - 1];
      RunKeepsEntries(lim, init);
      RunKeepsAll(lim, init);
      StepKeepsEntries(lim, Exec(lim, init).value, last);
      if StructuredRun(lim, steps) { StepKeepsNested(lim, Exec(lim, init).value, last); }
    }
  }

  lemma {:induction false} AncestorsInBody(lim: Limits, runs: map<Task, Run>, t: Task, n: nat)
    requires AllOk(lim, runs) && Nested(runs) && t in runs && !Over(runs[t])
    ensures forall a :: a in Ancestors(runs, t, n) ==> a in runs && runs[a].phase.Body?
  {
    if n > 0 {
      AncestorsInBody(lim, runs, t, n - 1);
      var near := Ancestors(runs, t, n - 1);
      var at := Furthest(t, near);
      assert near != [] ==> at in near;
    }
  }

  lemma {:induction false} EntryOnChain(runs: map<Task, Run>, ts: seq<Task>, r: Resource) returns (a: Task)
    requires r in Ledgers(runs, ts)
    ensures a in ts && a in runs && runs[a].ledger == Some(r)
  {
    var init, last := ts[..|ts| - 1], ts[|ts| - 1];
    a := last;
    if r !in LedgerOf(runs, last) { a := EntryOnChain(runs, init, r); }
  }

  /** Structured concurrency is enough: if every task leaves its body only after the tasks it submitted are over, then
      in every run every body runs under a slot held by the task itself or by an ancestor within the limit. */
  lemma EveryBodyIsBacked(lim: Limits, steps: seq<Step>, t: Task)
    requires Exec(lim, steps).Some? && StructuredRun(lim, steps)
    requires t in Exec(lim, steps).value.runs && Exec(lim, steps).value.runs[t].phase.Body?
    ensures var runs := Exec(lim, steps).value.runs; runs[t].Held().Some? || Backed(lim, runs, t)
  {
    var runs := Exec(lim, steps).value.runs;
    RunKeepsEntries(lim, steps);
    RunKeepsAll(lim, steps);
    if runs[t].Held().None? {
      assert EntryOk(lim, runs, t);
      var a := EntryOnChain(runs, Ancestors(runs, t, lim.depth), runs[t].want);
      AncestorsInBody(lim, runs, t, lim.depth);
      assert EntryOk(lim, runs, a);
    }
  }

  // ---------- what goes wrong otherwise ----------

  /** `t` runs on an inherited slot that nobody above it within the limit holds. */
  ghost predicate Stranded(lim: Limits, s: State, t: Task) {
    t in s.runs && s.runs[t].phase == Body(None) && !Backed(lim, s.runs, t)
  }

  /** `t` with its walk over and the slot inherited. */
  function Inherited(s: State, t: Task): State
    requires t in s.runs
  {
    s.(runs := s.runs[t := s.runs[t].(phase := Body(None), entered := true)])
  }

  lemma LookGoesOn(lim: Limits, runs: map<Task, Run>, t: Task, next: Run)
    requires AllOk(lim, runs) && t in runs && runs[t].phase.Walking? && next == Looked(lim, runs, runs[t])
    requires runs[t].want in Ledgers(runs, Ancestors(runs, t, lim.depth))
    ensures next.want == runs[t].want && next.want in Ledgers(runs[t := next], Ancestors(runs[t := next], t, lim.depth))
  {
    LookProgress(lim, runs, t, next);
    ViewKept(lim, runs, runs[t := next], t, t, lim.depth);
  }

  lemma LookChangesPhase(lim: Limits, s: State, t: Task)
    requires t in s.runs && s.runs[t].phase.Walking?
    requires var Walking(at, i, _) := s.runs[t].phase; i < lim.depth && at in s.runs && s.runs[at].parent.Some?
    ensures var s1 := Next(lim, s, Look(t));
      && s1 == s.(runs := s.runs[t := Looked(lim, s.runs, s.runs[t])])
      && s1.runs[t].phase.Walking? && s1.runs[t].phase.i == s.runs[t].phase.i + 1
      && Inherited(s1, t) == Inherited(s, t)
  {
    assert Inherited(Next(lim, s, Look(t)), t).runs == Inherited(s, t).runs;
  }

  lemma LookDecides(lim: Limits, s: State, t: Task)
    requires AllOk(lim, s.runs) && t in s.runs && s.runs[t].phase.Walking?
    requires var Walking(at, i, _) := s.runs[t].phase; !(i < lim.depth && at in s.runs && s.runs[at].parent.Some?)
    requires s.runs[t].want in Ledgers(s.runs, Ancestors(s.runs, t, lim.depth))
    ensures Next(lim, s, Look(t)) == Inherited(s, t)
  {
    assert TaskOk(lim, s.runs, t);
    var Walking(at, i, found) := s.runs[t].phase;
    WalkIsOver(lim, s.runs, t, at, i, found, lim.depth);
  }

  /** A walk on a chain with an entry of the resource ends in inheritance. */
  lemma {:induction false} WalkInherits(lim: Limits, s: State, t: Task) returns (steps: seq<Step>)
    requires AllOk(lim, s.runs) && t in s.runs && s.runs[t].phase.Walking?
    requires s.runs[t].want in Ledgers(s.runs, Ancestors(s.runs, t, lim.depth))
    ensures ExecFrom(lim, s, steps) == Some(Inherited(s, t))
    decreases lim.depth - s.runs[t].phase.i
  {
    var Walking(at, i, _) := s.runs[t].phase;
    if i < lim.depth && at in s.runs && s.runs[at].parent.Some? {
      LookGoesOn(lim, s.runs, t, Looked(lim, s.runs, s.runs[t]));
      LookChangesPhase(lim, s, t);
      StepKeepsOk(lim, s, Look(t));
      steps := WalkInherits(lim, Next(lim, s, Look(t)), t);
    } else {
      LookDecides(lim, s, t);
      steps := [];
    }
    First(lim, s, Look(t), steps);
    steps := [Look(t)] + steps;
  }

  lemma {:induction false} AncestorsVia(runs: map<Task, Run>, c: Task, t: Task, n: nat)
    requires c in runs && runs[c].parent == Some(t)
    ensures Ancestors(runs, c, n + 1) == [t] + Ancestors(runs, t, n)
  {
    if n > 0 { AncestorsVia(runs, c, t, n - 1); }
  }

  /** The holder is over and has given its slot back. */
  function Gone(s: State, t: Task): State
    requires t in s.runs && s.runs[t].phase.Body? && s.runs[t].phase.slot.Some?
  {
    Released(s, t, s.runs[t].want, s.runs[t].phase.slot.value)
  }

  lemma GoneInTwoSteps(lim: Limits, s: State, t: Task)
    requires t in s.runs && s.runs[t].phase.Body? && s.runs[t].phase.slot.Some?
    ensures Enabled(lim, Next(lim, s, Leave(t)), Release(t))
    ensures Next(lim, Next(lim, s, Leave(t)), Release(t)) == Gone(s, t)
  {
    assert Next(lim, Next(lim, s, Leave(t)), Release(t)).runs == Gone(s, t).runs;
  }

  lemma LeavesAndReleases(lim: Limits, s: State, t: Task, rest: seq<Step>)
    requires t in s.runs && s.runs[t].phase.Body? && s.runs[t].phase.slot.Some?
    ensures ExecFrom(lim, s, [Leave(t)] + ([Release(t)] + rest)) == ExecFrom(lim, Gone(s, t), rest)
  {
    GoneInTwoSteps(lim, s, t);
    First(lim, s, Leave(t), [Release(t)] + rest);
    First(lim, Next(lim, s, Leave(t)), Release(t), rest);
  }

  /** With the holder gone, nobody on its chain holds the resource. */
  lemma NobodyAbove(lim: Limits, s: State, t: Task, a: Task)
    requires AllOk(lim, s.runs) && t in s.runs && s.runs[t].phase.Body? && s.runs[t].phase.slot.Some?
    requires a == t || a in Ancestors(s.runs, t, lim.depth)
    ensures var runs := Gone(s, t).runs; a in runs && (runs[a].Held().Some? ==> runs[a].want != s.runs[t].want)
  {
    if a != t { NoAncestorHoldsIt(lim, s.runs, t, a); }
  }

  lemma GoneIsOk(lim: Limits, s: State, t: Task)
    requires AllOk(lim, s.runs) && t in s.runs && s.runs[t].phase.Body? && s.runs[t].phase.slot.Some?
    ensures AllOk(lim, Gone(s, t).runs) && LedgerOf(Gone(s, t).runs, t) == {s.runs[t].want}
    ensures Gone(s, t).runs == s.runs[t := s.runs[t].(phase := Finished)]
  {
    assert TaskOk(lim, s.runs, t);
    GoneInTwoSteps(lim, s, t);
    StepKeepsOk(lim, s, Leave(t));
    StepKeepsOk(lim, Next(lim, s, Leave(t)), Release(t));
  }

  /** A task that looks up a chain with an entry but without a holder ends up stranded. */
  lemma LooksAndStrands(lim: Limits, s: State, x: Task) returns (steps: seq<Step>, s': State)
    requires AllOk(lim, s.runs) && Enabled(lim, s, Start(x))
    requires s.runs[x].want in Ledgers(s.runs, Ancestors(s.runs, x, lim.depth))
    requires forall a :: a in Ancestors(s.runs, x, lim.depth) ==>
      a in s.runs && a != x && (s.runs[a].Held().Some? ==> s.runs[a].want != s.runs[x].want)
    ensures ExecFrom(lim, s, steps) == Some(s') && Stranded(lim, s', x)
    ensures s'.tokens == s.tokens && s'.inUse == s.inUse
  {
    var s1 := Next(lim, s, Start(x));
    StepKeepsOk(lim, s, Start(x));
    StartKeepsView(lim, s, x);
    steps := WalkInherits(lim, s1, x);
    s' := Inherited(s1, x);
    First(lim, s, Start(x), steps);
    steps := [Start(x)] + steps;
    assert s'.runs == s.runs[x := s'.runs[x]];
    SameChain(lim, s.runs, s'.runs, x);
  }

  lemma StartKeepsView(lim: Limits, s: State, x: Task)
    requires AllOk(lim, s.runs) && Enabled(lim, s, Start(x))
    ensures var runs' := Next(lim, s, Start(x)).runs;
      && Ancestors(runs', x, lim.depth) == Ancestors(s.runs, x, lim.depth)
      && Ledgers(runs', Ancestors(runs', x, lim.depth)) == Ledgers(s.runs, Ancestors(s.runs, x, lim.depth))
  {
    StepProgresses(lim, s, Start(x));
    ViewKept(lim, s.runs, Next(lim, s, Start(x)).runs, x, x, lim.depth);
  }

  lemma SameChain(lim: Limits, runs: map<Task, Run>, runs': map<Task, Run>, x: Task)
    requires AllOk(lim, runs) && x in runs && x in runs' && runs' == runs[x := runs'[x]]
    requires runs'[x].parent == runs[x].parent && runs'[x].want == runs[x].want
    requires forall a :: a in Ancestors(runs, x, lim.depth) ==>
      a in runs && a != x && (runs[a].Held().Some? ==> runs[a].want != runs[x].want)
    ensures !Backed(lim, runs', x)
  {
    AncestorsKept(runs, runs', x, lim.depth);
  }

  /** Leaving before an unstarted child of the same resource can strand the child. */
  lemma UnstartedChildCanStrand(lim: Limits, s: State, t: Task, c: Task) returns (steps: seq<Step>, s': State)
    requires AllOk(lim, s.runs) && lim.depth > 0
    requires t in s.runs && s.runs[t].phase.Body? && s.runs[t].phase.slot.Some?
    requires c in s.runs && s.runs[c].parent == Some(t) && s.runs[c].phase.Submitted? &&
      s.runs[c].want == s.runs[t].want
    ensures ExecFrom(lim, s, [Leave(t)] + ([Release(t)] + steps)) == Some(s') && Stranded(lim, s', c)
    ensures s'.inUse == Gone(s, t).inUse
  {
    var s1 := Gone(s, t);
    GoneIsOk(lim, s, t);
    AncestorsVia(s1.runs, c, t, lim.depth - 1);
    LedgersHas(s1.runs, Ancestors(s1.runs, c, lim.depth), t);
    ChainIsFree(lim, s, t, c);
    steps, s' := LooksAndStrands(lim, s1, c);
    LeavesAndReleases(lim, s, t, steps);
  }

  lemma NotItself<T>(x: T, above: seq<T>)
    requires NoDup([x] + above)
    ensures x !in above
  {
    forall i | 0 <= i < |above| ensures above[i] != x {
      assert ([x] + above)[i + 1] == above[i] && ([x] + above)[0] == x;
    }
  }

  lemma InPrefix<T>(x: T, a: seq<T>, b: seq<T>)
    requires x in a && a <= b
    ensures x in b
  {
    var i := IndexOf(a, x);
    assert b[i] == x;
  }

  /** The chain above a child of the holder is the holder and the chain above it. */
  lemma ChainAbove(lim: Limits, runs: map<Task, Run>, t: Task, c: Task, a: Task)
    requires lim.depth > 0 && c in runs && runs[c].parent == Some(t) && a in Ancestors(runs, c, lim.depth)
    ensures a == t || a in Ancestors(runs, t, lim.depth)
  {
    AncestorsVia(runs, c, t, lim.depth - 1);
    if a != t {
      ChainGrows(runs, t, lim.depth - 1, lim.depth);
      InPrefix(a, Ancestors(runs, t, lim.depth - 1), Ancestors(runs, t, lim.depth));
    }
  }

  /** Above a child of the holder that has gone, nobody holds the resource. */
  lemma ChainIsFree(lim: Limits, s: State, t: Task, c: Task)
    requires AllOk(lim, s.runs) && lim.depth > 0
    requires t in s.runs && s.runs[t].phase.Body? && s.runs[t].phase.slot.Some?
    requires c in s.runs && s.runs[c].parent == Some(t)
    ensures var runs := Gone(s, t).runs;
      forall a :: a in Ancestors(runs, c, lim.depth) ==>
        a in runs && a != c && (runs[a].Held().Some? ==> runs[a].want != s.runs[t].want)
  {
    var runs := Gone(s, t).runs;
    GoneIsOk(lim, s, t);
    AncestorsEntered(lim, s.runs, c, lim.depth);
    AncestorsKept(s.runs, runs, c, lim.depth);
    AncestorsDistinct(lim, runs, c, lim.depth);
    NotItself(c, Ancestors(runs, c, lim.depth));
    forall a | a in Ancestors(runs, c, lim.depth)
      ensures a in runs && a != c && (runs[a].Held().Some? ==> runs[a].want != s.runs[t].want)
    {
      ChainAbove(lim, s.runs, t, c, a);
      NobodyAbove(lim, s, t, a);
    }
  }

  /** Leaving before a child that has inherited the slot strands the child. */
  lemma InheritingChildStrands(lim: Limits, s: State, t: Task, c: Task)
    requires AllOk(lim, s.runs) && lim.depth > 0
    requires t in s.runs && s.runs[t].phase.Body? && s.runs[t].phase.slot.Some?
    requires c in s.runs && s.runs[c].parent == Some(t) && s.runs[c].phase == Body(None) &&
      s.runs[c].want == s.runs[t].want
    ensures ExecFrom(lim, s, [Leave(t)] + ([Release(t)] + [])) == Some(Gone(s, t)) && Stranded(lim, Gone(s, t), c)
  {
    LeavesAndReleases(lim, s, t, []);
    GoneIsOk(lim, s, t);
    assert TaskOk(lim, s.runs, c);
    ChainIsFree(lim, s, t, c);
  }

  /** The chain above `c` after its parent `t` has given its slot of `r` back: the entry of `t` is still there, and
      nobody holds the resource. */
  ghost predicate Freed(lim: Limits, runs: map<Task, Run>, t: Task, c: Task, r: Resource) {
    && AllOk(lim, runs) && c in runs && runs[c].parent == Some(t) && LedgerOf(runs, t) == {r}
    && forall a :: a in Ancestors(runs, c, lim.depth) ==>
         a in runs && a != c && (runs[a].Held().Some? ==> runs[a].want != r)
  }

  lemma GoneIsFreed(lim: Limits, s: State, t: Task, c: Task)
    requires AllOk(lim, s.runs) && lim.depth > 0
    requires t in s.runs && s.runs[t].phase.Body? && s.runs[t].phase.slot.Some?
    requires c in s.runs && s.runs[c].parent == Some(t)
    ensures c != t && Freed(lim, Gone(s, t).runs, t, c, s.runs[t].want)
  {
    assert TaskOk(lim, s.runs, c);
    GoneIsOk(lim, s, t);
    ChainIsFree(lim, s, t, c);
  }

  /** The child itself does not hold the resource either: it would have found the entry. */
  lemma ChildIsFree(lim: Limits, runs: map<Task, Run>, t: Task, c: Task, r: Resource)
    requires lim.depth > 0 && Freed(lim, runs, t, c, r)
    ensures runs[c].Held().Some? ==> runs[c].want != r
  {
    assert TaskOk(lim, runs, c);
    ParentFirst(runs, c, t, lim.depth);
    LedgersHas(runs, Ancestors(runs, c, lim.depth), t);
  }

  /** A new task of the child sees the entry, and nobody on its chain holds the resource. */
  lemma GrandchildSees(lim: Limits, freed: map<Task, Run>, runs: map<Task, Run>, t: Task, c: Task, g: Task, r: Resource)
    requires lim.depth > 1 && Freed(lim, freed, t, c, r) && t in freed && g !in freed
    requires g in runs && runs == freed[g := runs[g]] && runs[g].parent == Some(c)
    ensures r in Ledgers(runs, Ancestors(runs, g, lim.depth))
    ensures forall a :: a in Ancestors(runs, g, lim.depth) ==>
      a in runs && a != g && (runs[a].Held().Some? ==> runs[a].want != r)
  {
    GrandchildChain(lim, freed, runs, t, c, g);
    LedgersHas(runs, Ancestors(runs, g, lim.depth), t);
    ChildIsFree(lim, freed, t, c, r);
  }

  /** Once the slot above it is given back, a child in its body can submit a task that strands. */
  lemma GrandchildStrands(lim: Limits, s: State, t: Task, c: Task, g: Task, r: Resource)
    returns (steps: seq<Step>, s': State)
    requires lim.depth > 1 && Freed(lim, s.runs, t, c, r) && s.runs[c].phase.Body? && g !in s.runs
    ensures ExecFrom(lim, s, steps) == Some(s') && Stranded(lim, s', g)
  {
    var submit := Submit(g, Some(c), r);
    var s1 := Next(lim, s, submit);
    StepKeepsOk(lim, s, submit);
    assert t in s.runs;
    GrandchildSees(lim, s.runs, s1.runs, t, c, g, r);
    steps, s' := LooksAndStrands(lim, s1, g);
    First(lim, s, submit, steps);
    steps := [submit] + steps;
  }

  /** Leaving before a child that is in its body, on whatever slot, lets a later task of that child strand. */
  lemma WorkingChildCanStrand(lim: Limits, s: State, t: Task, c: Task, g: Task) returns (steps: seq<Step>, s': State)
    requires AllOk(lim, s.runs) && lim.depth > 1
    requires t in s.runs && s.runs[t].phase.Body? && s.runs[t].phase.slot.Some?
    requires c in s.runs && s.runs[c].parent == Some(t) && s.runs[c].phase.Body? && g !in s.runs
    ensures ExecFrom(lim, s, [Leave(t)] + ([Release(t)] + steps)) == Some(s') && Stranded(lim, s', g)
  {
    GoneIsFreed(lim, s, t, c);
    GoneIsOk(lim, s, t);
    steps, s' := GrandchildStrands(lim, Gone(s, t), t, c, g, s.runs[t].want);
    LeavesAndReleases(lim, s, t, steps);
  }

  // ---------- a child on its way reaches its body ----------

  /** A step of the child, or one by which somebody gives a slot back. */
  predicate Harmless(s: State, step: Step, c: Task) {
    step.t in s.runs && (step.t == c || step.Leave? || step.Abort? || step.Release?)
  }

  lemma GivesNothingNew(lim: Limits, s: State, step: Step)
    requires Enabled(lim, s, step) && (step.Leave? || step.Abort? || step.Release?)
    ensures var was, now := s.runs[step.t], Next(lim, s, step).runs[step.t];
      now.want == was.want && (now.Held().Some? ==> was.Held().Some?)
  {
  }

  lemma HarmlessKeepsFreed(lim: Limits, s: State, step: Step, t: Task, c: Task, r: Resource)
    requires Freed(lim, s.runs, t, c, r) && Enabled(lim, s, step) && Harmless(s, step, c)
    ensures Freed(lim, Next(lim, s, step).runs, t, c, r)
  {
    var runs, runs' := s.runs, Next(lim, s, step).runs;
    StepKeepsOk(lim, s, step);
    StepProgresses(lim, s, step);
    ViewKept(lim, runs, runs', step.t, c, lim.depth);
    assert TaskOk(lim, runs, c);
    forall a | a in Ancestors(runs', c, lim.depth)
      ensures a in runs' && a != c && (runs'[a].Held().Some? ==> runs'[a].want != r)
    {
      if a == step.t { GivesNothingNew(lim, s, step); }
    }
  }

  /** `steps` lead from `s` to `s'`, where the chain above `c` is still free and `c` is in its body. */
  ghost predicate Leads(lim: Limits, s: State, steps: seq<Step>, s': State, t: Task, c: Task, r: Resource) {
    && ExecFrom(lim, s, steps) == Some(s') && s'.runs.Keys == s.runs.Keys
    && Freed(lim, s'.runs, t, c, r) && s'.runs[c].phase.Body?
  }

  lemma Prepend(lim: Limits, s: State, step: Step, rest: seq<Step>, s': State, t: Task, c: Task, r: Resource)
    requires Enabled(lim, s, step) && step.t in s.runs && Leads(lim, Next(lim, s, step), rest, s', t, c, r)
    ensures Leads(lim, s, [step] + rest, s', t, c, r)
  {
    First(lim, s, step, rest);
    assert Next(lim, s, step).runs.Keys == s.runs.Keys;
  }

  lemma AcquiredEnters(lim: Limits, s: State, t: Task, c: Task, r: Resource) returns (steps: seq<Step>, s': State)
    requires Freed(lim, s.runs, t, c, r) && s.runs[c].phase.Acquired?
    ensures Leads(lim, s, steps, s', t, c, r)
  {
    s' := Next(lim, s, WriteLedger(c));
    HarmlessKeepsFreed(lim, s, WriteLedger(c), t, c, r);
    assert Leads(lim, s', [], s', t, c, r);
    Prepend(lim, s, WriteLedger(c), [], s', t, c, r);
    steps := [WriteLedger(c)] + [];
  }

  lemma FreeSlotEnters(lim: Limits, s: State, t: Task, c: Task, r: Resource) returns (steps: seq<Step>, s': State)
    requires Freed(lim, s.runs, t, c, r) && s.runs[c].phase.Waiting? && s.InUse(s.runs[c].want) < lim.capacity
    ensures Leads(lim, s, steps, s', t, c, r)
  {
    HarmlessKeepsFreed(lim, s, Acquire(c), t, c, r);
    steps, s' := AcquiredEnters(lim, Next(lim, s, Acquire(c)), t, c, r);
    Prepend(lim, s, Acquire(c), steps, s', t, c, r);
    steps := [Acquire(c)] + steps;
  }

  lemma ReleaseFreesSlot(lim: Limits, s: State, h: Task)
    requires Books(lim, s) && lim.capacity > 0 && Enabled(lim, s, Release(h))
    ensures var want := s.runs[h].want; Next(lim, s, Release(h)).InUse(want) < lim.capacity
  {
    ReleaseKeepsHolders(lim, s, h);
    assert UsageTrue(lim, s) && s.InUse(s.runs[h].want) <= lim.capacity;
  }

  /** A child that queues enters once a holder of its resource has given the slot back. */
  lemma ReleaserLetsEnter(lim: Limits, s: State, t: Task, c: Task, r: Resource, h: Task)
    returns (steps: seq<Step>, s': State)
    requires Freed(lim, s.runs, t, c, r) && Books(lim, s) && lim.capacity > 0 && s.runs[c].phase.Waiting?
    requires h in s.runs && s.runs[h].phase.Releasing? && s.runs[h].want == s.runs[c].want
    ensures Leads(lim, s, steps, s', t, c, r)
  {
    HarmlessKeepsFreed(lim, s, Release(h), t, c, r);
    ReleaseFreesSlot(lim, s, h);
    steps, s' := FreeSlotEnters(lim, Next(lim, s, Release(h)), t, c, r);
    Prepend(lim, s, Release(h), steps, s', t, c, r);
    steps := [Release(h)] + steps;
  }

  lemma HolderLetsEnter(lim: Limits, s: State, t: Task, c: Task, r: Resource, h: Task)
    returns (steps: seq<Step>, s': State)
    requires Freed(lim, s.runs, t, c, r) && Books(lim, s) && lim.capacity > 0 && s.runs[c].phase.Waiting?
    requires h in s.runs && s.runs[h].Held().Some? && s.runs[h].want == s.runs[c].want
    ensures Leads(lim, s, steps, s', t, c, r)
  {
    if s.runs[h].phase.Releasing? {
      steps, s' := ReleaserLetsEnter(lim, s, t, c, r, h);
    } else {
      var step := if s.runs[h].phase.Acquired? then Abort(h) else Leave(h);
      HarmlessKeepsFreed(lim, s, step, t, c, r);
      StepKeepsBooks(lim, s, step);
      steps, s' := ReleaserLetsEnter(lim, Next(lim, s, step), t, c, r, h);
      Prepend(lim, s, step, steps, s', t, c, r);
      steps := [step] + steps;
    }
  }

  /** A resource in use is held by somebody. */
  lemma SomeHolder(lim: Limits, s: State, r: Resource) returns (h: Task)
    requires Books(lim, s) && s.InUse(r) > 0
    ensures h in s.runs && s.runs[h].Held().Some? && s.runs[h].want == r
  {
    assert UsageTrue(lim, s) && |TokensFor(s.tokens, r)| > 0;
    var k :| k in TokensFor(s.tokens, r);
    h :| Holds(s.runs, h, k);
  }

  lemma WaitingEnters(lim: Limits, s: State, t: Task, c: Task, r: Resource) returns (steps: seq<Step>, s': State)
    requires Freed(lim, s.runs, t, c, r) && Books(lim, s) && lim.capacity > 0 && s.runs[c].phase.Waiting?
    ensures Leads(lim, s, steps, s', t, c, r)
  {
    if s.InUse(s.runs[c].want) < lim.capacity {
      steps, s' := FreeSlotEnters(lim, s, t, c, r);
    } else {
      var h := SomeHolder(lim, s, s.runs[c].want);
      steps, s' := HolderLetsEnter(lim, s, t, c, r, h);
    }
  }

  lemma LookMoves(lim: Limits, s: State, c: Task)
    requires c in s.runs && s.runs[c].phase.Walking?
    ensures var now := Next(lim, s, Look(c)).runs[c].phase;
      now.Body? || now.Waiting? || (now.Walking? && s.runs[c].phase.i < now.i <= lim.depth)
  {
  }

  lemma {:induction false} WalkingEnters(lim: Limits, s: State, t: Task, c: Task, r: Resource)
    returns (steps: seq<Step>, s': State)
    requires Freed(lim, s.runs, t, c, r) && Books(lim, s) && lim.capacity > 0 && s.runs[c].phase.Walking?
    ensures Leads(lim, s, steps, s', t, c, r)
    decreases lim.depth - s.runs[c].phase.i
  {
    var s1 := Next(lim, s, Look(c));
    HarmlessKeepsFreed(lim, s, Look(c), t, c, r);
    StepKeepsBooks(lim, s, Look(c));
    LookMoves(lim, s, c);
    if s1.runs[c].phase.Walking? {
      steps, s' := WalkingEnters(lim, s1, t, c, r);
    } else if s1.runs[c].phase.Waiting? {
      steps, s' := WaitingEnters(lim, s1, t, c, r);
    } else {
      steps, s' := [], s1;
    }
    Prepend(lim, s, Look(c), steps, s', t, c, r);
    steps := [Look(c)] + steps;
  }

  /** A child that is not over can always go on to its body. */
  lemma ChildEnters(lim: Limits, s: State, t: Task, c: Task, r: Resource) returns (steps: seq<Step>, s': State)
    requires Freed(lim, s.runs, t, c, r) && Books(lim, s) && lim.capacity > 0 && !Over(s.runs[c])
    ensures Leads(lim, s, steps, s', t, c, r)
  {
    match s.runs[c].phase
    case Submitted =>
      HarmlessKeepsFreed(lim, s, Start(c), t, c, r);
      StepKeepsBooks(lim, s, Start(c));
      steps, s' := WalkingEnters(lim, Next(lim, s, Start(c)), t, c, r);
      Prepend(lim, s, Start(c), steps, s', t, c, r);
      steps := [Start(c)] + steps;
    case Walking(_, _, _) => steps, s' := WalkingEnters(lim, s, t, c, r);
    case Waiting => steps, s' := WaitingEnters(lim, s, t, c, r);
    case Acquired(_) => steps, s' := AcquiredEnters(lim, s, t, c, r);
    case Body(_) => steps, s' := [], s;
  }

  lemma GoneKeepsBooks(lim: Limits, s: State, t: Task)
    requires Books(lim, s)
    requires t in s.runs && s.runs[t].phase.Body? && s.runs[t].phase.slot.Some?
    ensures Books(lim, Gone(s, t))
  {
    GoneInTwoSteps(lim, s, t);
    StepKeepsBooks(lim, s, Leave(t));
    StepKeepsBooks(lim, Next(lim, s, Leave(t)), Release(t));
  }

  /** Where a slot is held there is capacity. */
  lemma HeldWithinCapacity(lim: Limits, s: State, t: Task)
    requires Books(lim, s) && t in s.runs && s.runs[t].Held().Some?
    ensures lim.capacity > 0
  {
    var k, want := s.runs[t].Held().value, s.runs[t].want;
    assert Holds(s.runs, t, k) && k in TokensFor(s.tokens, want);
    assert s.InUse(want) == |TokensFor(s.tokens, want)| <= lim.capacity;
  }

  lemma {:induction false} Joins(lim: Limits, s: State, first: seq<Step>, s1: State, rest: seq<Step>)
    requires ExecFrom(lim, s, first) == Some(s1)
    ensures ExecFrom(lim, s, first + rest) == ExecFrom(lim, s1, rest)
    decreases |first|
  {
    if first == [] {
      assert first + rest == rest;
    } else {
      Joins(lim, Next(lim, s, first[0]), first[1..], s1, rest);
      First(lim, s, first[0], first[1..] + rest);
      assert first + rest == [first[0]] + (first[1..] + rest);
    }
  }

  /** If a holder leaves its body before a task it submitted is over, wherever that task stands, a later task can end
      up on a slot nobody above it holds. */
  lemma ChildCanStrand(lim: Limits, s: State, t: Task, c: Task, g: Task) returns (steps: seq<Step>, s': State)
    requires AllOk(lim, s.runs) && Books(lim, s) && lim.depth > 1
    requires t in s.runs && s.runs[t].phase.Body? && s.runs[t].phase.slot.Some?
    requires c in s.runs && s.runs[c].parent == Some(t) && !Over(s.runs[c]) && g !in s.runs
    ensures ExecFrom(lim, s, [Leave(t)] + ([Release(t)] + steps)) == Some(s') && Stranded(lim, s', g)
  {
    var r := s.runs[t].want;
    GoneIsFreed(lim, s, t, c);
    GoneIsOk(lim, s, t);
    GoneKeepsBooks(lim, s, t);
    HeldWithinCapacity(lim, s, t);
    var enter, s1 := ChildEnters(lim, Gone(s, t), t, c, r);
    assert g !in s1.runs.Keys;
    steps, s' := GrandchildStrands(lim, s1, t, c, g, r);
    Joins(lim, Gone(s, t), enter, s1, steps);
    steps := enter + steps;
    LeavesAndReleases(lim, s, t, steps);
  }

  lemma NewTaskChain(lim: Limits, gone: map<Task, Run>, runs: map<Task, Run>, c: Task, g: Task, n: nat)
    requires AllOk(lim, gone) && c in gone && g !in gone
    requires g in runs && runs == gone[g := runs[g]] && runs[g].parent == Some(c)
    ensures Ancestors(runs, g, n + 1) == [c] + Ancestors(gone, c, n)
  {
    AncestorsEntered(lim, gone, c, n);
    AncestorsKept(gone, runs, c, n);
    AncestorsVia(runs, g, c, n);
  }

  lemma ParentFirst(runs: map<Task, Run>, c: Task, t: Task, n: nat)
    requires n > 0 && c in runs && runs[c].parent == Some(t)
    ensures t in Ancestors(runs, c, n)
  {
    AncestorsVia(runs, c, t, n - 1);
    assert ([t] + Ancestors(runs, t, n - 1))[0] == t;
  }

  lemma CloserIsOnChain(lim: Limits, runs: map<Task, Run>, c: Task, n: nat, m: nat, a: Task)
    requires AllOk(lim, runs) && c in runs && n <= m && a in Ancestors(runs, c, n)
    ensures a in runs && a in Ancestors(runs, c, m)
  {
    AncestorsEntered(lim, runs, c, n);
    ChainGrows(runs, c, n, m);
    InPrefix(a, Ancestors(runs, c, n), Ancestors(runs, c, m));
  }

  lemma GrandchildChain(lim: Limits, gone: map<Task, Run>, runs: map<Task, Run>, t: Task, c: Task, g: Task)
    requires AllOk(lim, gone) && lim.depth > 1 && c in gone && gone[c].parent == Some(t) && g !in gone
    requires g in runs && runs == gone[g := runs[g]] && runs[g].parent == Some(c)
    ensures t in Ancestors(runs, g, lim.depth)
    ensures forall a :: a in Ancestors(runs, g, lim.depth) ==>
      a in gone && (a == c || a in Ancestors(gone, c, lim.depth))
  {
    var n := lim.depth - 1;
    NewTaskChain(lim, gone, runs, c, g, n);
    ParentFirst(gone, c, t, n);
    forall a | a in Ancestors(runs, g, lim.depth) ensures a in gone && (a == c || a in Ancestors(gone, c, lim.depth)) {
      if a != c { CloserIsOnChain(lim, gone, c, n, lim.depth, a); }
    }
  }

  lemma StepAfter(lim: Limits, before: seq<Step>, s: State, step: Step)
    requires Exec(lim, before) == Some(s) && Enabled(lim, s, step)
    ensures Exec(lim, before + [step]) == Some(Next(lim, s, step))
  {
    assert (before + [step])[..|before|] == before;
  }

  lemma FirstStep(lim: Limits, s: State, steps: seq<Step>) returns (s1: State)
    requires steps != [] && ExecFrom(lim, s, steps).Some?
    ensures Enabled(lim, s, steps[0]) && s1 == Next(lim, s, steps[0])
    ensures ExecFrom(lim, s1, steps[1..]) == ExecFrom(lim, s, steps)
  {
    s1 := Next(lim, s, steps[0]);
  }

  lemma {:induction false} Continue(lim: Limits, before: seq<Step>, s: State, steps: seq<Step>)
    requires Exec(lim, before) == Some(s) && ExecFrom(lim, s, steps).Some?
    ensures Exec(lim, before + steps) == ExecFrom(lim, s, steps)
    decreases |steps|
  {
    if steps == [] {
      assert before + steps == before;
    } else {
      var s1 := FirstStep(lim, s, steps);
      StepAfter(lim, before, s, steps[0]);
      Continue(lim, before + [steps[0]], s1, steps[1..]);
      assert before + [steps[0]] + steps[1..] == before + steps;
    }
  }

  /** Structured concurrency is needed: any run in which a holder is in its body while a task it submitted is not over
      can go on with the holder leaving, so that in the end some task is stranded. */
  lemma EarlyLeaveCanStrand(lim: Limits, before: seq<Step>, t: Task, c: Task, g: Task) returns (steps: seq<Step>)
    requires lim.depth > 1 && Exec(lim, before).Some?
    requires var runs := Exec(lim, before).value.runs;
      && t in runs && runs[t].phase.Body? && runs[t].phase.slot.Some?
      && c in runs && runs[c].parent == Some(t) && !Over(runs[c]) && g !in runs
    ensures steps != [] && steps[0] == Leave(t) && Exec(lim, before + steps).Some?
    ensures Stranded(lim, Exec(lim, before + steps).value, g)
  {
    var s := Exec(lim, before).value;
    RunKeepsAll(lim, before);
    var rest, s' := ChildCanStrand(lim, s, t, c, g);
    steps := [Leave(t)] + ([Release(t)] + rest);
    Continue(lim, before, s, steps);
  }

  lemma RootWithChild(lim: Limits) returns (before: seq<Step>, s: State)
    requires lim.capacity > 0
    ensures Exec(lim, before) == Some(s) && s.InUse(RESOURCE) == 1
    ensures Link(0) in s.runs && s.runs[Link(0)].phase == Body(Some(0)) && s.runs[Link(0)].want == RESOURCE
    ensures Link(1) in s.runs && s.runs[Link(1)].parent == Some(Link(0)) && s.runs[Link(1)].want == RESOURCE
    ensures s.runs[Link(1)].phase == Submitted
  {
    RootOnly(lim);
    var s0 :| Reachable(lim, s0) && Tower(s0, 0);
    assert InBody(s0.runs, 0);
    LinksDiffer(0, 1);
    var step := Submit(Link(1), Some(Link(0)), RESOURCE);
    s := Next(lim, s0, step);
    OneStep(lim, s0, step);
    before :| Exec(lim, before) == Some(s);
  }

  /** Such a run: the root acquires, submits a child, leaves and releases; the child then inherits from it, and runs
      while no slot of the resource is in use at all. */
  lemma BodyWithoutSlot(lim: Limits) returns (steps: seq<Step>)
    requires lim.capacity > 0 && lim.depth > 0
    ensures Exec(lim, steps).Some?
    ensures var s := Exec(lim, steps).value; Stranded(lim, s, Link(1)) && s.InUse(RESOURCE) == 0
  {
    var before, s := RootWithChild(lim);
    RunKeepsAll(lim, before);
    var rest, s' := UnstartedChildCanStrand(lim, s, Link(0), Link(1));
    Continue(lim, before, s, [Leave(Link(0))] + ([Release(Link(0))] + rest));
    assert Holds(s.runs, Link(0), 0);
    steps := before + ([Leave(Link(0))] + ([Release(Link(0))] + rest));
  }
}
