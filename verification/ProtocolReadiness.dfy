/** When readiness is exact: in runs where no parent ends during a
    registration that depends on it and every task is notified once. */
module ProtocolReadiness {
  import opened Common
  import opened HotStore
  import opened Protocol
  import opened ProtocolSafety
  import opened ProtocolProgress

  ghost predicate InProgress(r: Registration) {
    !r.phase.Idle? && !r.phase.Done?
  }

  /** A notification of `p` is running or has served all its children. */
  ghost predicate Started(s: State, p: Task) {
    p in s.notified || exists id :: Notifies(s, id, p)
  }

  /** A child registers once, and a task is notified once. */
  ghost predicate OnceStep(cfg: Config, s: State, step: Step) {
    && Enabled(cfg, s, step)
    && (step.Begin? ==> s.regs[step.c].phase.Idle?)
    && (step.Notify? ==> !Started(s, step.t))
  }

  /** A calm step: moreover, no task ends while a registration that depends on it is in progress. */
  ghost predicate CalmStep(cfg: Config, s: State, step: Step) {
    && OnceStep(cfg, s, step)
    && (forall t, c :: EndsNow(cfg, s, step, t) && c in cfg.deps && c in s.regs && t in cfg.deps[c] ==>
      !InProgress(s.regs[c]))
  }

  ghost predicate EndsNow(cfg: Config, s: State, step: Step, t: Task)
    requires Enabled(cfg, s, step)
  {
    Ended(cfg, Next(cfg, s, step).hot, t) && !Ended(cfg, s.hot, t)
  }

  ghost predicate Notifies(s: State, id: nat, p: Task) {
    id in s.procs && s.procs[id].Notifying() && s.procs[id].task == p
  }

  /** At most one notification per task, and none after it has finished. */
  ghost predicate OneNotifier(s: State) {
    && (forall i, j, p :: Notifies(s, i, p) && Notifies(s, j, p) ==> i == j)
    && (forall i, p :: Notifies(s, i, p) ==> p !in s.notified && NoDup(s.procs[i].todo))
  }

  /** The decrements since the counter was set are one per parent, each counted,
      ended and notified; those still to come are of different parents. */
  ghost predicate Calm(cfg: Config, s: State, c: Task)
    requires c in cfg.deps && c in s.regs
  {
    var r := s.regs[c];
    && (forall p :: c in s.hot.Children(p) ==> p in r.counted && !r.phase.Idle? && !r.phase.Reading?)
    && !r.phase.Compensating? && !r.phase.Recasting?
    && (InProgress(r) ==> forall p :: p in r.counted ==> !Ended(cfg, s.hot, p))
    && (!r.phase.Done? ==> r.decs == [])
    && NoDup(r.decs)
    && (forall p :: p in r.decs ==> p in r.counted && Ended(cfg, s.hot, p) && Started(s, p))
    && (forall id, p :: Notifies(s, id, p) && c in s.procs[id].todo ==>
      r.phase.Done? && p in r.counted && p !in r.decs)
  }

  /** A process never starts notifying for another task, and its list only shrinks. */
  lemma NotifierAdvances(cfg: Config, h: Hot, q: Process)
    ensures ProcessNext(cfg, h, q).Some? && ProcessNext(cfg, h, q).value.Notifying() ==>
      var q' := ProcessNext(cfg, h, q).value;
      && q.Notifying() && q'.task == q.task && (NoDup(q.todo) ==> NoDup(q'.todo))
      && forall x :: x in q'.todo ==> x in q.todo
    ensures q.Notifying() && !(q.Fanout? && q.todo == []) ==>
      ProcessNext(cfg, h, q).Some? && ProcessNext(cfg, h, q).value.Notifying()
  {
  }

  lemma StepKeepsOneNotifier(cfg: Config, s: State, step: Step)
    requires OneNotifier(s) && OnceStep(cfg, s, step)
    ensures OneNotifier(Next(cfg, s, step))
  {
    var s' := Next(cfg, s, step);
    if step.Advance? { NotifierAdvances(cfg, s.hot, s.procs[step.id]); }
    forall i, p | Notifies(s', i, p)
      ensures p !in s'.notified && NoDup(s'.procs[i].todo)
      ensures Notifies(s, i, p) || (step.Notify? && i == step.id && p == step.t)
    {
      if !(step.Notify? && i == step.id) { assert Notifies(s, i, p); }
      if step.Advance? && s.procs[step.id].Notifying() { assert Notifies(s, step.id, s.procs[step.id].task); }
    }
  }

  lemma StartedStays(cfg: Config, s: State, step: Step, p: Task)
    requires Enabled(cfg, s, step) && Started(s, p)
    ensures Started(Next(cfg, s, step), p)
  {
    var s' := Next(cfg, s, step);
    if p !in s.notified {
      var id :| Notifies(s, id, p);
      NotifierAdvances(cfg, s.hot, s.procs[id]);
      assert p in s'.notified || Notifies(s', id, p);
    }
  }

  /** A step with no decrement of `c` and no own registration step leaves its calm intact. */
  lemma QuietStepCalm(cfg: Config, s: State, step: Step, c: Task)
    requires cfg.Valid() && c in cfg.deps && Safe(cfg, s, c) && Calm(cfg, s, c) && CalmStep(cfg, s, step)
    requires Next(cfg, s, step).regs.Keys == s.regs.Keys
    requires Next(cfg, s, step).regs[c].(recent := {}) == s.regs[c].(recent := {})
    requires forall p :: c in Next(cfg, s, step).hot.Children(p) ==> c in s.hot.Children(p)
    requires forall id, p :: Notifies(Next(cfg, s, step), id, p) && c in Next(cfg, s, step).procs[id].todo ==>
      (Notifies(s, id, p) && c in s.procs[id].todo) ||
      (c in s.hot.Children(p) && Ended(cfg, s.hot, p) && !Started(s, p))
    ensures Calm(cfg, Next(cfg, s, step), c)
  {
    var s', r := Next(cfg, s, step), s.regs[c];
    StepEvolves(cfg, s, step);
    forall p | p in r.decs
      ensures Ended(cfg, s'.hot, p) && Started(s', p)
    {
      StartedStays(cfg, s, step, p);
    }
    if InProgress(r) {
      forall p | p in r.counted
        ensures !Ended(cfg, s'.hot, p)
      {
        if Ended(cfg, s'.hot, p) { assert EndsNow(cfg, s, step, p); }
      }
    }
  }

  /** A registration lists its child only with parents it has counted as running. */
  lemma OwnStepLists(cfg: Config, h: Hot, c: Task, r: Registration)
    requires c in cfg.deps && InRange(cfg.deps[c], r)
    requires forall p :: c in h.Children(p) ==> p in r.counted && !r.phase.Idle? && !r.phase.Reading?
    ensures var r' := RegisterNext(cfg, h, c, r);
      forall p :: c in RegisterHot(cfg, h, c, r).Children(p) ==>
        p in r'.counted && !r'.phase.Idle? && !r'.phase.Reading?
  {
  }

  lemma OwnStepCounts(cfg: Config, h: Hot, c: Task, r: Registration)
    requires c in cfg.deps && InRange(cfg.deps[c], r)
    requires InProgress(r) && !r.phase.Compensating? && !r.phase.Recasting? && r.decs == []
    requires forall p :: p in r.counted ==> p in h.tasks && !Ended(cfg, h, p)
    ensures var r' := RegisterNext(cfg, h, c, r);
      && (forall p :: p in r'.counted ==> !Ended(cfg, h, p))
      && !r'.phase.Compensating? && !r'.phase.Recasting? && r'.decs == []
  {
    if r.phase.Checking? && r.phase.i < |r.counted| { assert r.counted[r.phase.i] in r.counted; }
  }

  lemma OwnStepCalm(cfg: Config, s: State, c: Task)
    requires cfg.Valid() && c in cfg.deps && Safe(cfg, s, c) && Calm(cfg, s, c) && CalmStep(cfg, s, Register(c))
    ensures Calm(cfg, Next(cfg, s, Register(c)), c)
  {
    var s', r := Next(cfg, s, Register(c)), s.regs[c];
    var r' := RegisterNext(cfg, s.hot, c, r);
    OwnStepLists(cfg, s.hot, c, r);
    OwnStepCounts(cfg, s.hot, c, r);
    if InProgress(r') {
      forall p | p in r'.counted
        ensures !Ended(cfg, s'.hot, p)
      {
        if Ended(cfg, s'.hot, p) { OwnStepEndsNobody(cfg, s, c, p); }
      }
    }
  }

  lemma OwnStepEndsNobody(cfg: Config, s: State, c: Task, p: Task)
    requires c in cfg.deps && c in s.regs && Enabled(cfg, s, Register(c)) && !s.regs[c].phase.Closing?
    ensures Ended(cfg, Next(cfg, s, Register(c)).hot, p) <==> Ended(cfg, s.hot, p)
  {
  }

  /** The one decrement a parent makes: it is new, and no second one is on its way. */
  lemma DecrementCalm(cfg: Config, s: State, id: nat, c: Task)
    requires cfg.Valid() && c in cfg.deps && Safe(cfg, s, c) && Calm(cfg, s, c) && OneNotifier(s)
    requires CalmStep(cfg, s, Advance(id)) && s.procs[id].Fanout? && s.procs[id].todo != [] && s.procs[id].todo[0] == c
    ensures Calm(cfg, Next(cfg, s, Advance(id)), c)
  {
    var s', r, q := Next(cfg, s, Advance(id)), s.regs[c], s.procs[id];
    var t := q.task;
    StepEvolves(cfg, s, Advance(id));
    assert ProcessOk(cfg, s.hot, s.Manual(c), c, q);
    assert Notifies(s, id, t) && c in q.todo;
    AppendFresh(r.decs, t);
    assert Notifies(s', id, t);
    forall p | p in s'.regs[c].decs
      ensures p in r.counted && Ended(cfg, s'.hot, p) && Started(s', p)
    {
      if p != t { StartedStays(cfg, s, Advance(id), p); }
    }
    forall k, p | Notifies(s', k, p) && c in s'.procs[k].todo
      ensures p in r.counted && p !in s'.regs[c].decs
    {
      NotifierAdvances(cfg, s.hot, q);
      assert Notifies(s, k, p);
      assert c !in q.todo[1..];
    }
  }

  lemma AdvanceAddsNothing(cfg: Config, s: State, id: nat, c: Task)
    requires id in s.procs && Enabled(cfg, s, Advance(id))
    ensures forall p :: c in Next(cfg, s, Advance(id)).hot.Children(p) ==> c in s.hot.Children(p)
    ensures forall k, p :: Notifies(Next(cfg, s, Advance(id)), k, p) && c in Next(cfg, s, Advance(id)).procs[k].todo ==>
      Notifies(s, k, p) && c in s.procs[k].todo
  {
    NotifierAdvances(cfg, s.hot, s.procs[id]);
  }

  lemma OtherStepAddsNothing(cfg: Config, h: Hot, d: Task, r: Registration, c: Task, p: Task)
    requires d in cfg.deps && c != d && InRange(cfg.deps[d], r) && c in RegisterHot(cfg, h, d, r).Children(p)
    ensures c in h.Children(p)
  {
  }

  lemma OtherStepCalm(cfg: Config, s: State, d: Task, c: Task)
    requires cfg.Valid() && c in cfg.deps && c != d && Safe(cfg, s, c) && Calm(cfg, s, c) &&
      CalmStep(cfg, s, Register(d))
    ensures Calm(cfg, Next(cfg, s, Register(d)), c)
  {
    forall p | c in Next(cfg, s, Register(d)).hot.Children(p)
      ensures c in s.hot.Children(p)
    {
      OtherStepAddsNothing(cfg, s.hot, d, s.regs[d], c, p);
    }
    QuietStepCalm(cfg, s, Register(d), c);
  }

  lemma AdvanceCalm(cfg: Config, s: State, id: nat, c: Task)
    requires cfg.Valid() && c in cfg.deps && Safe(cfg, s, c) && Calm(cfg, s, c) && OneNotifier(s)
    requires CalmStep(cfg, s, Advance(id))
    ensures Calm(cfg, Next(cfg, s, Advance(id)), c)
  {
    var q := s.procs[id];
    if q.Fanout? && q.todo != [] && q.todo[0] == c {
      DecrementCalm(cfg, s, id, c);
    } else {
      AdvanceAddsNothing(cfg, s, id, c);
      QuietStepCalm(cfg, s, Advance(id), c);
    }
  }

  lemma NotifyCalm(cfg: Config, s: State, id: nat, t: Task, listing: seq<Task>, c: Task)
    requires cfg.Valid() && c in cfg.deps && Safe(cfg, s, c) && Calm(cfg, s, c)
    requires CalmStep(cfg, s, Notify(id, t, listing))
    ensures Calm(cfg, Next(cfg, s, Notify(id, t, listing)), c)
  {
    assert c in listing <==> c in Elems(listing);
    QuietStepCalm(cfg, s, Notify(id, t, listing), c);
  }

  lemma BeginCalm(cfg: Config, s: State, d: Task, c: Task)
    requires cfg.Valid() && c in cfg.deps && Safe(cfg, s, c) && Calm(cfg, s, c) && CalmStep(cfg, s, Begin(d))
    ensures Calm(cfg, Next(cfg, s, Begin(d)), c)
  {
    if d != c { QuietStepCalm(cfg, s, Begin(d), c); }
  }

  lemma OutsideCalm(cfg: Config, s: State, step: Step, c: Task)
    requires cfg.Valid() && c in cfg.deps && Safe(cfg, s, c) && Calm(cfg, s, c) && CalmStep(cfg, s, step)
    requires step.VoteCancel? || step.Create? || step.WriteStatus?
    ensures Calm(cfg, Next(cfg, s, step), c)
  {
    QuietStepCalm(cfg, s, step, c);
  }

  /** Every calm step keeps every child calm. */
  lemma StepKeepsCalm(cfg: Config, s: State, step: Step, c: Task)
    requires cfg.Valid() && c in cfg.deps && Safe(cfg, s, c) && Calm(cfg, s, c) && OneNotifier(s)
    requires CalmStep(cfg, s, step)
    ensures Calm(cfg, Next(cfg, s, step), c)
  {
    match step
    case Register(d) => if d == c { OwnStepCalm(cfg, s, c); } else { OtherStepCalm(cfg, s, d, c); }
    case Advance(id) => AdvanceCalm(cfg, s, id, c);
    case Begin(d) => BeginCalm(cfg, s, d, c);
    case Notify(id, t, listing) => NotifyCalm(cfg, s, id, t, listing, c);
    case _ => OutsideCalm(cfg, s, step, c);
  }

  /** The readiness view: a counter exists, is at or below zero, and the status is the ready word. */
  ghost predicate ReportedReady(h: Hot, c: Task, readyStatus: string) {
    c in h.remaining && h.remaining[c] <= 0 && h.Status(c) == readyStatus
  }

  /** In any run, the counter equals the number of counted parents that have not
      decremented it exactly when no parent decremented twice and no uncounted one did. */
  lemma CounterExactIff(cfg: Config, s: State, c: Task)
    requires cfg.Valid() && c in cfg.deps && Safe(cfg, s, c) && Wakeful(cfg, s, c) && s.regs[c].CounterSet()
    ensures var r := s.regs[c];
      s.hot.Remaining(c) == |Elems(r.counted) - Elems(r.decs)| <==> NoDup(r.decs) && Elems(r.decs) <= Elems(r.counted)
  {
    var r := s.regs[c];
    var counted, hit := Elems(r.counted), Elems(r.decs);
    CardElems(r.counted);
    CardElems(r.decs);
    assert counted == (counted - hit) + (counted * hit);
    assert |counted| == |counted - hit| + |counted * hit|;
    CardSubset(counted * hit, hit);
    if hit <= counted { assert counted * hit == hit; }
  }

  /** Exact readiness: in a calm run the counter is the number of counted parents not yet notified of,
      a child is never ready while a parent runs, and while no notification by a counted parent is under way
      a child is ready exactly when every parent has ended and every counted one was notified. */
  lemma ReadinessIsExact(cfg: Config, s: State, c: Task)
    requires cfg.Valid() && c in cfg.deps && Safe(cfg, s, c) && Wakeful(cfg, s, c) && Calm(cfg, s, c)
    requires s.regs[c].phase.Done?
    ensures var r := s.regs[c]; s.hot.Remaining(c) == |Elems(r.counted) - Elems(r.decs)|
    ensures s.hot.Remaining(c) <= 0 ==> forall p :: p in cfg.deps[c] ==> Ended(cfg, s.hot, p)
    ensures (forall id, p :: p in s.regs[c].counted ==> !Notifies(s, id, p)) ==>
      (s.hot.Remaining(c) <= 0 <==>
        (forall p :: p in cfg.deps[c] ==> Ended(cfg, s.hot, p)) &&
        (forall p :: p in s.regs[c].counted ==> p in s.notified))
  {
    var r := s.regs[c];
    CounterExactIff(cfg, s, c);
    if s.hot.Remaining(c) <= 0 {
      assert Elems(r.counted) - Elems(r.decs) == {};
      forall p | p in cfg.deps[c]
        ensures Ended(cfg, s.hot, p) && (p in r.counted ==> Started(s, p))
      {
        assert Classified(cfg, s.hot, r, p);
        if p in r.counted { assert p in Elems(r.counted) && p in Elems(r.decs); }
      }
    } else if forall p :: p in r.counted ==> p in s.notified {
      NoLostWakeUp(cfg, s, c);
    }
  }
}
