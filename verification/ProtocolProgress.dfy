/** Progress of the governance protocol: no wake-up is lost and no child
    hangs on dead parents, in any interleaving and across retries. */
module ProtocolProgress {
  import opened Common
  import opened HotStore
  import opened Protocol
  import opened ProtocolSafety

  /** How many counted parents are guaranteed to list the child among their active children. */
  function Added(r: Registration): nat {
    match r.phase
    case Idle => 0
    case Reading(_) => 0
    case Adding(i) => i
    case _ => |r.counted|
  }

  /** Every running notification of `p` still has `c` ahead of it, and none has finished. */
  ghost predicate Ahead(s: State, c: Task, p: Task) {
    && p !in s.notified
    && forall id :: id in s.procs && s.procs[id].Notifying() && s.procs[id].task == p ==> c in s.procs[id].todo
  }

  /** Number of counted parents whose re-check has been settled with a decrement or left to the notification. */
  function Checked(r: Registration): nat {
    match r.phase
    case Checking(i) => i
    case Compensating(i, _) => i
    case Recasting(i) => i + 1
    case _ => |r.counted|
  }

  ghost predicate Listed(h: Hot, c: Task, r: Registration) {
    Added(r) <= |r.counted| && forall k :: 0 <= k < Added(r) ==> c in h.Children(r.counted[k])
  }

  ghost predicate CounterExact(h: Hot, c: Task, r: Registration) {
    r.CounterSet() ==> c in h.remaining && h.Remaining(c) == |r.counted| - |r.decs|
  }

  /** Each counted parent already re-checked has decremented the counter since it was set, or still will. */
  ghost predicate Covered(s: State, c: Task, r: Registration) {
    r.CounterSet() ==>
      Checked(r) <= |r.counted| &&
      forall k :: 0 <= k < Checked(r) ==> r.counted[k] in r.decs || Ahead(s, c, r.counted[k])
  }

  ghost predicate Wakeful(cfg: Config, s: State, c: Task)
    requires c in cfg.deps && c in s.regs
  {
    Listed(s.hot, c, s.regs[c]) && CounterExact(s.hot, c, s.regs[c]) && Covered(s, c, s.regs[c])
  }

  /** A running parent has no notification yet. */
  lemma RunningIsAhead(cfg: Config, s: State, c: Task, p: Task)
    requires c in cfg.deps && Safe(cfg, s, c) && !Ended(cfg, s.hot, p)
    ensures Ahead(s, c, p)
  {
    assert forall id :: id in s.procs && s.procs[id].Notifying() ==> Ended(cfg, s.hot, s.procs[id].task);
  }

  lemma OwnStepGrowsChildren(cfg: Config, h: Hot, c: Task, r: Registration, p: Task)
    requires c in cfg.deps && InRange(cfg.deps[c], r)
    ensures h.Children(p) <= RegisterHot(cfg, h, c, r).Children(p)
  {
  }

  /** The child stays listed with every parent it was added to, including the one just added. */
  lemma OwnStepListed(cfg: Config, h: Hot, c: Task, r: Registration)
    requires c in cfg.deps && InRange(cfg.deps[c], r) && Listed(h, c, r)
    ensures Listed(RegisterHot(cfg, h, c, r), c, RegisterNext(cfg, h, c, r))
  {
    var r' := RegisterNext(cfg, h, c, r);
    if !r.phase.Reading? {
      forall k | 0 <= k < Added(r')
        ensures c in RegisterHot(cfg, h, c, r).Children(r'.counted[k])
      {
        OwnStepGrowsChildren(cfg, h, c, r, r'.counted[k]);
      }
    }
  }

  lemma OwnStepCounts(cfg: Config, h: Hot, c: Task, r: Registration)
    requires c in cfg.deps && InRange(cfg.deps[c], r) && CounterExact(h, c, r)
    ensures CounterExact(RegisterHot(cfg, h, c, r), c, RegisterNext(cfg, h, c, r))
  {
  }

  lemma OwnStepCovered(cfg: Config, s: State, c: Task)
    requires cfg.Valid() && c in cfg.deps && Safe(cfg, s, c) && Covered(s, c, s.regs[c]) && Enabled(cfg, s, Register(c))
    ensures Covered(Next(cfg, s, Register(c)), c, Next(cfg, s, Register(c)).regs[c])
  {
    var s', r := Next(cfg, s, Register(c)), s.regs[c];
    var r' := s'.regs[c];
    if r'.CounterSet() && !r.phase.Setting? {
      assert r.CounterSet() && r'.counted == r.counted && r.decs <= r'.decs;
      forall k | 0 <= k < Checked(r')
        ensures r'.counted[k] in r'.decs || Ahead(s', c, r'.counted[k])
      {
        if k < Checked(r) {
          assert r.counted[k] in r.decs || Ahead(s, c, r.counted[k]);
        } else if r.phase.Checking? {
          RunningIsAhead(cfg, s, c, r.counted[k]);
        }
      }
    }
  }

  lemma OwnStepWakeful(cfg: Config, s: State, c: Task)
    requires cfg.Valid() && c in cfg.deps && Safe(cfg, s, c) && Wakeful(cfg, s, c) && Enabled(cfg, s, Register(c))
    ensures Wakeful(cfg, Next(cfg, s, Register(c)), c)
  {
    OwnStepListed(cfg, s.hot, c, s.regs[c]);
    OwnStepCounts(cfg, s.hot, c, s.regs[c]);
    OwnStepCovered(cfg, s, c);
  }

  /** A status write, another child's registration, or a new process that does not notify. */
  lemma BystanderWakeful(cfg: Config, s: State, s': State, c: Task)
    requires c in cfg.deps && Safe(cfg, s, c) && Wakeful(cfg, s, c)
    requires c in s'.regs && s'.regs[c] == s.regs[c] && s'.notified == s.notified
    requires c in s.hot.remaining ==> c in s'.hot.remaining && s'.hot.Remaining(c) == s.hot.Remaining(c)
    requires forall p :: c in s.hot.Children(p) ==> c in s'.hot.Children(p)
    requires forall id :: id in s'.procs && s'.procs[id].Notifying() ==>
      (id in s.procs && s'.procs[id] == s.procs[id]) ||
      (s'.procs[id].Fanout? && Elems(s'.procs[id].todo) == s.hot.Children(s'.procs[id].task))
    ensures Wakeful(cfg, s', c)
  {
    var r := s.regs[c];
    if r.CounterSet() {
      forall k | 0 <= k < Checked(r) && Ahead(s, c, r.counted[k])
        ensures Ahead(s', c, r.counted[k])
      {
        assert c in s.hot.Children(r.counted[k]);
        assert forall id :: id in s'.procs && s'.procs[id].Fanout? ==>
          forall x :: x in s'.procs[id].todo <==> x in Elems(s'.procs[id].todo);
      }
    }
  }

  lemma OtherStepKeepsEntries(cfg: Config, h: Hot, d: Task, r: Registration, c: Task)
    requires c in cfg.deps && d in cfg.deps && c != d && InRange(cfg.deps[d], r)
    ensures c in h.remaining ==>
      c in RegisterHot(cfg, h, d, r).remaining && RegisterHot(cfg, h, d, r).Remaining(c) == h.Remaining(c)
    ensures forall p :: c in h.Children(p) ==> c in RegisterHot(cfg, h, d, r).Children(p)
  {
  }

  lemma AdvanceCounts(cfg: Config, s: State, id: nat, c: Task)
    requires c in cfg.deps && Safe(cfg, s, c) && id in s.procs && !Ended(cfg, s.hot, c)
    requires Listed(s.hot, c, s.regs[c]) && CounterExact(s.hot, c, s.regs[c])
    ensures Listed(AdvanceStep(cfg, s, id).hot, c, AdvanceStep(cfg, s, id).regs[c])
    ensures CounterExact(AdvanceStep(cfg, s, id).hot, c, AdvanceStep(cfg, s, id).regs[c])
  {
    var q, h' := s.procs[id], ProcessHot(cfg, s.hot, s.procs[id]);
    assert ProcessOk(cfg, s.hot, s.Manual(c), c, q);
    assert forall p :: c in s.hot.Children(p) ==> c in h'.Children(p);
  }

  /** A process step: a decrement of `c` is noted, and a finished fan-out has left nobody behind. */
  lemma AdvanceWakeful(cfg: Config, s: State, id: nat, c: Task)
    requires c in cfg.deps && Safe(cfg, s, c) && Wakeful(cfg, s, c) && id in s.procs
    requires !Ended(cfg, s.hot, c)
    ensures Wakeful(cfg, AdvanceStep(cfg, s, id), c)
  {
    AdvanceCounts(cfg, s, id, c);
    var s', r := AdvanceStep(cfg, s, id), s.regs[c];
    var r' := Noted(s.procs[id], c, r);
    if r.CounterSet() {
      forall k | 0 <= k < Checked(r)
        ensures r'.counted[k] in r'.decs || Ahead(s', c, r'.counted[k])
      {
        var p := r.counted[k];
        if p !in r'.decs {
          assert Ahead(s, c, p);
          AheadAdvances(cfg, s, id, c, p);
        }
      }
    }
  }

  lemma AheadAdvances(cfg: Config, s: State, id: nat, c: Task, p: Task)
    requires c in cfg.deps && id in s.procs && Ahead(s, c, p)
    requires !(s.procs[id].Fanout? && s.procs[id].task == p && s.procs[id].todo != [] && s.procs[id].todo[0] == c)
    ensures Ahead(AdvanceStep(cfg, s, id), c, p)
  {
    var q := s.procs[id];
    if q.Fanout? && q.task == p {
      assert c in q.todo;
      assert c in q.todo[1..];
    }
  }

  /** Every step keeps the wake-up invariant of a child that is still alive. */
  lemma StepKeepsWakeful(cfg: Config, s: State, step: Step, c: Task)
    requires cfg.Valid() && c in cfg.deps && Safe(cfg, s, c) && Wakeful(cfg, s, c) && Enabled(cfg, s, step)
    requires !Ended(cfg, s.hot, c)
    ensures Safe(cfg, Next(cfg, s, step), c) && Wakeful(cfg, Next(cfg, s, step), c)
  {
    var s' := Next(cfg, s, step);
    StepKeepsSafe(cfg, s, step, c);
    match step
    case Register(d) =>
      if d == c {
        OwnStepWakeful(cfg, s, c);
      } else {
        OtherStepKeepsEntries(cfg, s.hot, d, s.regs[d], c);
        BystanderWakeful(cfg, s, s', c);
      }
    case Advance(id) => AdvanceWakeful(cfg, s, id, c);
    case Begin(d) => if d != c { BystanderWakeful(cfg, s, s', c); }
    case _ => BystanderWakeful(cfg, s, s', c);
  }

  /** No lost wake-up: once the registration has settled every re-check and every counted parent
      has had a notification served to its children, the counter of a living child is at or below zero. */
  lemma NoLostWakeUp(cfg: Config, s: State, c: Task)
    requires cfg.Valid() && c in cfg.deps && Safe(cfg, s, c) && Wakeful(cfg, s, c)
    requires s.regs[c].phase.Closing? || s.regs[c].phase.Done?
    requires forall p :: p in s.regs[c].counted ==> p in s.notified
    ensures s.hot.Remaining(c) <= 0
  {
    var r := s.regs[c];
    forall p | p in Elems(r.counted)
      ensures p in Elems(r.decs)
    {
      var k :| 0 <= k < |r.counted| && r.counted[k] == p;
      assert r.counted[k] in r.decs || Ahead(s, c, r.counted[k]);
    }
    CardElems(r.counted);
    CardElems(r.decs);
    CardSubset(Elems(r.counted), Elems(r.decs));
  }
}
