/** No child hangs on dead parents: every dead parent's vote arrives, and
    whoever completes the votes cancels the child. */
module ProtocolVotes {
  import opened Common
  import opened HotStore
  import opened Protocol
  import opened ProtocolSafety
  import opened ProtocolProgress

  predicate HeadingFor(q: Process, c: Task)
    requires q.Notifying()
  {
    c in q.todo || ((q.Judging? || q.Casting?) && q.child == c)
  }

  /** Every running notification of `p` has `c` ahead of it or is just voting on it, and none has finished. */
  ghost predicate Heading(s: State, c: Task, p: Task) {
    && p !in s.notified
    && forall id :: id in s.procs && s.procs[id].Notifying() && s.procs[id].task == p ==> HeadingFor(s.procs[id], c)
  }

  ghost predicate Succeeded(cfg: Config, h: Hot, t: Task) {
    Ended(cfg, h, t) && cfg.words.Success(h.Status(t))
  }

  /** How many of the abnormal parents have had their vote cast by the registration. */
  function CastSoFar(r: Registration): nat {
    match r.phase
    case Idle => 0
    case Reading(_) => 0
    case Adding(_) => 0
    case Voting(i) => i
    case _ => |r.abnormal|
  }

  /** How many counted parents have been re-checked with their vote settled or left to the notification. */
  function Rechecked(r: Registration): nat {
    match r.phase
    case Checking(i) => i
    case Compensating(i, _) => i
    case Recasting(i) => i
    case _ => |r.counted|
  }

  ghost predicate AbnormalVoted(r: Registration) {
    CastSoFar(r) <= |r.abnormal| && forall k :: 0 <= k < CastSoFar(r) ==> r.abnormal[k] in r.recent
  }

  /** Each counted parent already re-checked has voted, succeeded, or has its vote still coming. */
  ghost predicate VotesCovered(cfg: Config, s: State, c: Task, r: Registration) {
    r.CounterSet() ==>
      Rechecked(r) <= |r.counted| &&
      forall k :: 0 <= k < Rechecked(r) ==>
        r.counted[k] in r.recent || Succeeded(cfg, s.hot, r.counted[k]) || Heading(s, c, r.counted[k])
  }

  ghost predicate CancelPending(s: State, c: Task) {
    exists id :: id in s.procs && s.procs[id].AboutToCancel(c)
  }

  /** A complete set of votes with at least one cast since the registration began
      is being acted upon by the one who completed it or saw it complete. */
  ghost predicate Acting(cfg: Config, s: State, c: Task, r: Registration)
    requires c in cfg.deps
  {
    && (cfg.lifecycle && r.recent != {} && Elems(cfg.deps[c]) <= s.hot.Votes(c) ==> r.triggered || CancelPending(s, c))
    && (cfg.lifecycle && r.phase.Done? ==> !r.triggered)
  }

  ghost predicate Ballot(cfg: Config, s: State, c: Task)
    requires c in cfg.deps && c in s.regs
  {
    && s.regs[c].recent <= s.hot.Votes(c)
    && AbnormalVoted(s.regs[c])
    && VotesCovered(cfg, s, c, s.regs[c])
    && Acting(cfg, s, c, s.regs[c])
  }

  lemma RunningIsHeading(cfg: Config, s: State, c: Task, p: Task)
    requires c in cfg.deps && Safe(cfg, s, c) && !Ended(cfg, s.hot, p)
    ensures Heading(s, c, p)
  {
    assert forall id :: id in s.procs && s.procs[id].Notifying() ==> Ended(cfg, s.hot, s.procs[id].task);
  }

  /** Complete votes pass the threshold test. */
  lemma CompleteIsReached(cfg: Config, h: Hot, c: Task)
    requires cfg.Valid() && c in cfg.deps && Elems(cfg.deps[c]) <= h.Votes(c)
    ensures Reached(h, c, |cfg.deps[c]|)
  {
    CardElems(cfg.deps[c]);
    CardSubset(Elems(cfg.deps[c]), h.Votes(c));
  }

  lemma OwnStepRecent(cfg: Config, h: Hot, c: Task, r: Registration)
    requires c in cfg.deps && InRange(cfg.deps[c], r) && r.recent <= h.Votes(c)
    ensures RegisterNext(cfg, h, c, r).recent <= RegisterHot(cfg, h, c, r).Votes(c)
    ensures r.recent <= RegisterNext(cfg, h, c, r).recent
  {
  }

  lemma CastingAdvances(cfg: Config, h: Hot, c: Task, r: Registration)
    requires c in cfg.deps && InRange(cfg.deps[c], r) && AbnormalVoted(r) && r.phase.Voting?
    ensures AbnormalVoted(RegisterNext(cfg, h, c, r))
  {
    var r' := RegisterNext(cfg, h, c, r);
    forall k | 0 <= k < CastSoFar(r')
      ensures r'.abnormal[k] in r'.recent
    {
      if k < CastSoFar(r) { assert r.abnormal[k] in r.recent; }
    }
  }

  lemma OwnStepAbnormal(cfg: Config, h: Hot, c: Task, r: Registration)
    requires c in cfg.deps && InRange(cfg.deps[c], r) && AbnormalVoted(r)
    ensures AbnormalVoted(RegisterNext(cfg, h, c, r))
  {
    if r.phase.Voting? {
      CastingAdvances(cfg, h, c, r);
    } else if CastSoFar(r) > 0 {
      var r' := RegisterNext(cfg, h, c, r);
      assert CastSoFar(r') == CastSoFar(r) && r'.abnormal == r.abnormal && r.recent <= r'.recent;
    }
  }

  lemma OwnStepActing(cfg: Config, s: State, c: Task)
    requires cfg.Valid() && c in cfg.deps && Safe(cfg, s, c) && Enabled(cfg, s, Register(c))
    requires Acting(cfg, s, c, s.regs[c])
    requires !Ended(cfg, Next(cfg, s, Register(c)).hot, c)
    ensures Acting(cfg, Next(cfg, s, Register(c)), c, Next(cfg, s, Register(c)).regs[c])
  {
    var s', r := Next(cfg, s, Register(c)), s.regs[c];
    if Elems(cfg.deps[c]) <= s'.hot.Votes(c) { CompleteIsReached(cfg, s'.hot, c); }
    if id :| id in s.procs && s.procs[id].AboutToCancel(c) {
      assert s'.procs[id].AboutToCancel(c);
    }
  }

  /** The re-check passes a parent that is running, one that succeeded, or one it has just voted for. */
  lemma OwnStepRechecks(cfg: Config, h: Hot, c: Task, r: Registration)
    requires c in cfg.deps && InRange(cfg.deps[c], r) && RegisterNext(cfg, h, c, r).CounterSet()
    ensures var r' := RegisterNext(cfg, h, c, r);
      if r.phase.Setting? then Rechecked(r') == 0
      else
        && r.CounterSet() && r'.counted == r.counted && r.recent <= r'.recent
        && Rechecked(r') <= Rechecked(r) + 1 && Rechecked(r') <= |r.counted|
        && (Rechecked(r) < Rechecked(r') ==>
              var p := r.counted[Rechecked(r)];
              || (r.phase.Checking? && !cfg.words.Terminal(h.Status(p)))
              || (r.phase.Compensating? && cfg.words.Success(r.phase.word))
              || p in r'.recent)
  {
  }

  lemma OwnStepVotesCovered(cfg: Config, s: State, c: Task)
    requires cfg.Valid() && c in cfg.deps && Safe(cfg, s, c) && Enabled(cfg, s, Register(c))
    requires VotesCovered(cfg, s, c, s.regs[c])
    ensures VotesCovered(cfg, Next(cfg, s, Register(c)), c, Next(cfg, s, Register(c)).regs[c])
  {
    var s', r := Next(cfg, s, Register(c)), s.regs[c];
    var r' := RegisterNext(cfg, s.hot, c, r);
    StepEvolves(cfg, s, Register(c));
    if r'.CounterSet() {
      OwnStepRechecks(cfg, s.hot, c, r);
      forall k | 0 <= k < Rechecked(r')
        ensures r'.counted[k] in r'.recent || Succeeded(cfg, s'.hot, r'.counted[k]) || Heading(s', c, r'.counted[k])
      {
        var p := r.counted[k];
        if k < Rechecked(r) {
          assert p in r.recent || Succeeded(cfg, s.hot, p) || Heading(s, c, p);
        } else if r.phase.Checking? {
          RunningIsHeading(cfg, s, c, p);
        }
      }
    }
  }

  /** A step that touches neither the registration nor the votes of `c`. */
  lemma BystanderBallot(cfg: Config, s: State, s': State, c: Task)
    requires c in cfg.deps && Safe(cfg, s, c) && Ballot(cfg, s, c) && Listed(s.hot, c, s.regs[c])
    requires Evolves(cfg, s.hot, s'.hot)
    requires c in s'.regs && s'.regs[c] == s.regs[c] && s'.notified == s.notified
    requires s'.hot.Votes(c) == s.hot.Votes(c)
    requires forall id :: id in s.procs ==> id in s'.procs && s'.procs[id] == s.procs[id]
    requires forall id :: id in s'.procs && s'.procs[id].Notifying() ==>
      (id in s.procs && s'.procs[id] == s.procs[id]) ||
      (s'.procs[id].Fanout? && Elems(s'.procs[id].todo) == s.hot.Children(s'.procs[id].task))
    ensures Ballot(cfg, s', c)
  {
    var r := s.regs[c];
    if r.CounterSet() {
      forall k | 0 <= k < Rechecked(r) && Heading(s, c, r.counted[k])
        ensures Heading(s', c, r.counted[k])
      {
        assert c in s.hot.Children(r.counted[k]);
        assert forall id :: id in s'.procs && s'.procs[id].Fanout? ==>
          forall x :: x in s'.procs[id].todo <==> x in Elems(s'.procs[id].todo);
      }
      forall k | 0 <= k < Rechecked(r)
        ensures r.counted[k] in r.recent || Succeeded(cfg, s'.hot, r.counted[k]) || Heading(s', c, r.counted[k])
      {
        assert r.counted[k] in r.recent || Succeeded(cfg, s.hot, r.counted[k]) || Heading(s, c, r.counted[k]);
      }
    }
    if id :| id in s.procs && s.procs[id].AboutToCancel(c) {
      assert s'.procs[id].AboutToCancel(c);
    }
  }

  lemma ProcessHeadsOn(cfg: Config, h: Hot, manual: set<Task>, c: Task, q: Process, r: Registration)
    requires c in cfg.deps && ProcessOk(cfg, h, manual, c, q) && !Ended(cfg, h, c) && c in h.tasks
    requires h.DependsOn(c) == cfg.deps[c] && q.Notifying() && q.task in cfg.deps[c] && !Succeeded(cfg, h, q.task)
    requires HeadingFor(q, c) && q.task !in Noted(q, c, r).recent
    ensures !(q.Fanout? && q.todo == [])
    ensures var next := ProcessNext(cfg, h, q); next.Some? && next.value.Notifying() && HeadingFor(next.value, c)
    ensures ProcessNext(cfg, h, q).value.task == q.task
  {
    if q.Fanout? { assert c == q.todo[0] || c in q.todo[1..]; }
  }

  lemma HeadingAdvances(cfg: Config, s: State, id: nat, c: Task, p: Task)
    requires c in cfg.deps && Safe(cfg, s, c) && !Ended(cfg, s.hot, c) && s.regs[c].CounterSet()
    requires id in s.procs && Heading(s, c, p) && p in cfg.deps[c]
    requires !Succeeded(cfg, s.hot, p) && p !in Noted(s.procs[id], c, s.regs[c]).recent
    ensures Heading(AdvanceStep(cfg, s, id), c, p)
  {
    var q := s.procs[id];
    assert ProcessOk(cfg, s.hot, s.Manual(c), c, q);
    if q.Notifying() && q.task == p {
      assert HeadingFor(q, c);
      ProcessHeadsOn(cfg, s.hot, s.Manual(c), c, q, s.regs[c]);
    }
  }

  lemma AdvanceVotesCovered(cfg: Config, s: State, id: nat, c: Task)
    requires c in cfg.deps && Safe(cfg, s, c) && !Ended(cfg, s.hot, c) && id in s.procs
    requires VotesCovered(cfg, s, c, s.regs[c])
    ensures VotesCovered(cfg, AdvanceStep(cfg, s, id), c, AdvanceStep(cfg, s, id).regs[c])
  {
    var s', r := AdvanceStep(cfg, s, id), s.regs[c];
    var r' := Noted(s.procs[id], c, r);
    StepEvolves(cfg, s, Advance(id));
    if r.CounterSet() {
      forall k | 0 <= k < Rechecked(r)
        ensures r'.counted[k] in r'.recent || Succeeded(cfg, s'.hot, r'.counted[k]) || Heading(s', c, r'.counted[k])
      {
        var p := r.counted[k];
        assert p in r.recent || Succeeded(cfg, s.hot, p) || Heading(s, c, p);
        if p !in r'.recent && !Succeeded(cfg, s.hot, p) { HeadingAdvances(cfg, s, id, c, p); }
      }
    }
  }

  lemma AdvanceRecent(cfg: Config, s: State, id: nat, c: Task)
    requires c in cfg.deps && Safe(cfg, s, c) && !Ended(cfg, s.hot, c) && id in s.procs
    requires s.regs[c].recent <= s.hot.Votes(c)
    ensures Noted(s.procs[id], c, s.regs[c]).recent <= ProcessHot(cfg, s.hot, s.procs[id]).Votes(c)
  {
    assert ProcessOk(cfg, s.hot, s.Manual(c), c, s.procs[id]);
  }

  /** A vote by a process: complete votes make it the one who cancels. */
  lemma AdvanceActing(cfg: Config, s: State, id: nat, c: Task)
    requires cfg.Valid() && c in cfg.deps && Safe(cfg, s, c) && id in s.procs
    requires Acting(cfg, s, c, s.regs[c])
    requires !Ended(cfg, AdvanceStep(cfg, s, id).hot, c)
    ensures Acting(cfg, AdvanceStep(cfg, s, id), c, AdvanceStep(cfg, s, id).regs[c])
  {
    var s', q := AdvanceStep(cfg, s, id), s.procs[id];
    StepEvolves(cfg, s, Advance(id));
    assert ProcessOk(cfg, s.hot, s.Manual(c), c, q);
    if cfg.lifecycle && s'.regs[c].recent != {} && Elems(cfg.deps[c]) <= s'.hot.Votes(c) {
      CompleteIsReached(cfg, s'.hot, c);
      if (q.Casting? || q.ManualCasting?) && q.child == c {
        assert s'.procs[id].AboutToCancel(c);
      } else if !s.regs[c].triggered {
        assert s'.hot.Votes(c) <= s.hot.Votes(c);
        var k :| k in s.procs && s.procs[k].AboutToCancel(c);
        assert k != id;
        assert s'.procs[k].AboutToCancel(c);
      }
    }
  }

  lemma OwnStepBallot(cfg: Config, s: State, c: Task)
    requires cfg.Valid() && c in cfg.deps && Safe(cfg, s, c) && Wakeful(cfg, s, c) && Ballot(cfg, s, c)
    requires Enabled(cfg, s, Register(c)) && !Ended(cfg, s.hot, c) && !Ended(cfg, Next(cfg, s, Register(c)).hot, c)
    ensures Ballot(cfg, Next(cfg, s, Register(c)), c)
  {
    OwnStepRecent(cfg, s.hot, c, s.regs[c]);
    OwnStepAbnormal(cfg, s.hot, c, s.regs[c]);
    OwnStepActing(cfg, s, c);
    OwnStepVotesCovered(cfg, s, c);
  }

  lemma AdvanceBallot(cfg: Config, s: State, id: nat, c: Task)
    requires cfg.Valid() && c in cfg.deps && Safe(cfg, s, c) && Wakeful(cfg, s, c) && Ballot(cfg, s, c)
    requires Enabled(cfg, s, Advance(id)) && !Ended(cfg, s.hot, c) && !Ended(cfg, Next(cfg, s, Advance(id)).hot, c)
    ensures Ballot(cfg, Next(cfg, s, Advance(id)), c)
  {
    AdvanceRecent(cfg, s, id, c);
    AdvanceVotesCovered(cfg, s, id, c);
    AdvanceActing(cfg, s, id, c);
  }

  /** Every step keeps both progress invariants of a child that stays alive. */
  lemma StepKeepsBallot(cfg: Config, s: State, step: Step, c: Task)
    requires cfg.Valid() && c in cfg.deps && Safe(cfg, s, c) && Wakeful(cfg, s, c) && Ballot(cfg, s, c)
    requires Enabled(cfg, s, step) && !Ended(cfg, Next(cfg, s, step).hot, c)
    ensures Safe(cfg, Next(cfg, s, step), c) && Wakeful(cfg, Next(cfg, s, step), c) &&
      Ballot(cfg, Next(cfg, s, step), c)
  {
    StepEvolves(cfg, s, step);
    assert !Ended(cfg, s.hot, c);
    StepKeepsWakeful(cfg, s, step, c);
    if step.Register? && step.c == c {
      OwnStepBallot(cfg, s, c);
    } else if step.Advance? {
      AdvanceBallot(cfg, s, step.id, c);
    } else {
      BystanderStepBallot(cfg, s, step, c);
    }
  }

  lemma BystanderStepBallot(cfg: Config, s: State, step: Step, c: Task)
    requires cfg.Valid() && c in cfg.deps && Safe(cfg, s, c) && Wakeful(cfg, s, c) && Ballot(cfg, s, c)
    requires Enabled(cfg, s, step) && !Ended(cfg, s.hot, c) && !Ended(cfg, Next(cfg, s, step).hot, c)
    requires !step.Advance? && !(step.Register? && step.c == c)
    ensures Ballot(cfg, Next(cfg, s, step), c)
  {
    StepEvolves(cfg, s, step);
    if step.Register? { OtherStepLeavesAlone(cfg, s.hot, step.c, s.regs[step.c], c); }
    if !(step.Begin? && step.c == c) { BystanderBallot(cfg, s, Next(cfg, s, step), c); }
  }

  /** Once every parent is dead and notified, all their votes are in. */
  lemma DeadParentsHaveVoted(cfg: Config, s: State, c: Task)
    requires cfg.Valid() && c in cfg.deps && Safe(cfg, s, c) && Ballot(cfg, s, c) && s.regs[c].phase.Done?
    requires forall p :: p in cfg.deps[c] ==> Dead(cfg, s.hot, p) && p in s.notified
    ensures s.regs[c].recent != {} && Elems(cfg.deps[c]) <= s.hot.Votes(c)
  {
    var r := s.regs[c];
    forall p | p in cfg.deps[c]
      ensures p in r.recent
    {
      assert Classified(cfg, s.hot, r, p);
    }
    assert cfg.deps[c][0] in r.recent;
  }

  /** No hang on dead dependencies: with a lifecycle injected, once the registration is done, all
      parents are dead and have been notified, and no cancellation is in flight, the child has ended. */
  lemma NoHangOnDeadParents(cfg: Config, s: State, c: Task)
    requires cfg.Valid() && cfg.lifecycle && c in cfg.deps && Safe(cfg, s, c)
    requires Ended(cfg, s.hot, c) || Ballot(cfg, s, c)
    requires s.regs[c].phase.Done?
    requires forall p :: p in cfg.deps[c] ==> Dead(cfg, s.hot, p) && p in s.notified
    requires !CancelPending(s, c)
    ensures Ended(cfg, s.hot, c)
  {
    if !Ended(cfg, s.hot, c) { DeadParentsHaveVoted(cfg, s, c); }
  }
}
