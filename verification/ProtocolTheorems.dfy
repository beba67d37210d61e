/** The governance guarantees, stated over whole runs from an empty store. */
module ProtocolTheorems {
  import opened Common
  import opened HotStore
  import opened Protocol
  import opened ProtocolSafety
  import opened ProtocolProgress
  import opened ProtocolVotes
  import opened ProtocolReadiness

  /** The state after a sequence of steps, if each was enabled when it was taken. */
  ghost function Exec(cfg: Config, s: State, steps: seq<Step>): Option<State> {
    if steps == [] then Some(s)
    else
      var before := Exec(cfg, s, steps[..|steps| - 1]);
      var last := steps[|steps| - 1];
      if before.Some? && Enabled(cfg, before.value, last) then Some(Next(cfg, before.value, last)) else None
  }

  /** All steps of the run are calm. */
  ghost predicate CalmRun(cfg: Config, s: State, steps: seq<Step>) {
    steps != [] ==>
      var init, last := steps[..|steps| - 1], steps[|steps| - 1];
      CalmRun(cfg, s, init) && Exec(cfg, s, init).Some? && CalmStep(cfg, Exec(cfg, s, init).value, last)
  }

  lemma {:induction false} RunIsSafe(cfg: Config, s: State, steps: seq<Step>, c: Task)
    requires cfg.Valid() && c in cfg.deps && Initial(cfg, s) && Exec(cfg, s, steps).Some?
    ensures Safe(cfg, Exec(cfg, s, steps).value, c)
  {
    if steps == [] {
      InitialSafe(cfg, s, c);
    } else {
      var init := steps[..|steps| - 1];
      RunIsSafe(cfg, s, init, c);
      StepKeepsSafe(cfg, Exec(cfg, s, init).value, steps[|steps| - 1], c);
    }
  }

  lemma {:induction false} RunMakesProgress(cfg: Config, s: State, steps: seq<Step>, c: Task)
    requires cfg.Valid() && c in cfg.deps && Initial(cfg, s) && Exec(cfg, s, steps).Some?
    requires !Ended(cfg, Exec(cfg, s, steps).value.hot, c)
    ensures var s' := Exec(cfg, s, steps).value; Safe(cfg, s', c) && Wakeful(cfg, s', c) && Ballot(cfg, s', c)
  {
    if steps == [] {
      InitialSafe(cfg, s, c);
    } else {
      var init, last := steps[..|steps| - 1], steps[|steps| - 1];
      var before := Exec(cfg, s, init).value;
      StepEvolves(cfg, before, last);
      RunMakesProgress(cfg, s, init, c);
      StepKeepsBallot(cfg, before, last, c);
    }
  }

  /** No lost wake-up, in every interleaving: when the registration of a living child is done and every
      parent has had a notification served, the child's counter stands at or below zero. */
  lemma NoLostWakeUpInAnyRun(cfg: Config, s: State, steps: seq<Step>, c: Task, readyStatus: string)
    requires cfg.Valid() && c in cfg.deps && Initial(cfg, s) && Exec(cfg, s, steps).Some?
    requires var s' := Exec(cfg, s, steps).value;
      && c in s'.regs && s'.regs[c].phase.Done?
      && s'.hot.Status(c) == readyStatus && !cfg.words.Terminal(readyStatus)
      && forall p :: p in cfg.deps[c] ==> p in s'.notified
    ensures ReportedReady(Exec(cfg, s, steps).value.hot, c, readyStatus)
  {
    RunMakesProgress(cfg, s, steps, c);
    NoLostWakeUp(cfg, Exec(cfg, s, steps).value, c);
  }

  /** No hang on dead dependencies, in every interleaving and across restarted registrations. */
  lemma NoHangInAnyRun(cfg: Config, s: State, steps: seq<Step>, c: Task)
    requires cfg.Valid() && cfg.lifecycle && c in cfg.deps && Initial(cfg, s) && Exec(cfg, s, steps).Some?
    requires var s' := Exec(cfg, s, steps).value;
      && c in s'.regs && s'.regs[c].phase.Done?
      && (forall p :: p in cfg.deps[c] ==> Dead(cfg, s'.hot, p) && p in s'.notified)
      && !CancelPending(s', c)
    ensures Ended(cfg, Exec(cfg, s, steps).value.hot, c)
  {
    RunIsSafe(cfg, s, steps, c);
    if !Ended(cfg, Exec(cfg, s, steps).value.hot, c) {
      RunMakesProgress(cfg, s, steps, c);
      NoHangOnDeadParents(cfg, Exec(cfg, s, steps).value, c);
    }
  }

  /** No wrongful cancellation, in every interleaving and with repeated notifications: votes come only from
      dead parents or by hand, and a governor step that changes a child's status finds all of them warranted. */
  lemma NoWrongfulCancelInAnyRun(cfg: Config, s: State, steps: seq<Step>, step: Step, c: Task)
    requires cfg.Valid() && c in cfg.deps && Initial(cfg, s) && Exec(cfg, s, steps).Some?
    ensures var s' := Exec(cfg, s, steps).value;
      && (forall p :: p in s'.hot.Votes(c) ==> p in cfg.deps[c] && (Dead(cfg, s'.hot, p) || p in s'.Manual(c)))
      && (Enabled(cfg, s', step) && !step.Create? && !step.WriteStatus? ==>
            Next(cfg, s', step).hot.Status(c) == s'.hot.Status(c) ||
            forall p :: p in cfg.deps[c] ==> Dead(cfg, s'.hot, p) || p in s'.Manual(c))
  {
    RunIsSafe(cfg, s, steps, c);
    var s' := Exec(cfg, s, steps).value;
    assert VotesSound(cfg, s'.hot, s'.Manual(c), c);
    assert forall p :: Warranted(cfg, s'.hot, s'.Manual(c), p) <==> Dead(cfg, s'.hot, p) || p in s'.Manual(c);
    if Enabled(cfg, s', step) && !step.Create? && !step.WriteStatus? &&
       Next(cfg, s', step).hot.Status(c) != s'.hot.Status(c) {
      CancelIsWarranted(cfg, s', step, c);
    }
  }

  lemma CalmStepStaysCalm(cfg: Config, s: State, step: Step, c: Task)
    requires cfg.Valid() && c in cfg.deps && Safe(cfg, s, c) && Calm(cfg, s, c) && OneNotifier(s)
    requires CalmStep(cfg, s, step)
    ensures var s' := Next(cfg, s, step); Safe(cfg, s', c) && Calm(cfg, s', c) && OneNotifier(s')
  {
    StepKeepsSafe(cfg, s, step, c);
    StepKeepsOneNotifier(cfg, s, step);
    StepKeepsCalm(cfg, s, step, c);
  }

  lemma {:induction false} CalmRunStaysCalm(cfg: Config, s: State, steps: seq<Step>, c: Task)
    requires cfg.Valid() && c in cfg.deps && Initial(cfg, s) && CalmRun(cfg, s, steps)
    ensures Exec(cfg, s, steps).Some?
    ensures var s' := Exec(cfg, s, steps).value; Safe(cfg, s', c) && Calm(cfg, s', c) && OneNotifier(s')
  {
    if steps == [] {
      InitialSafe(cfg, s, c);
    } else {
      var init := steps[..|steps| - 1];
      CalmRunStaysCalm(cfg, s, init, c);
      CalmStepStaysCalm(cfg, Exec(cfg, s, init).value, steps[|steps| - 1], c);
    }
  }

  /** Exact readiness in calm runs: the counter is the number of counted parents that have not decremented it; never
      ready while a parent runs; and while no notification by a counted parent is under way, ready exactly when every
      parent has ended and the ones counted at registration were notified. */
  lemma ExactReadinessInCalmRuns(cfg: Config, s: State, steps: seq<Step>, c: Task, readyStatus: string)
    requires cfg.Valid() && c in cfg.deps && Initial(cfg, s) && CalmRun(cfg, s, steps) && Exec(cfg, s, steps).Some?
    requires var s' := Exec(cfg, s, steps).value;
      c in s'.regs && s'.regs[c].phase.Done? && s'.hot.Status(c) == readyStatus && !cfg.words.Terminal(readyStatus)
    ensures var s' := Exec(cfg, s, steps).value;
      && s'.hot.Remaining(c) == |Elems(s'.regs[c].counted) - Elems(s'.regs[c].decs)|
      && (ReportedReady(s'.hot, c, readyStatus) ==> forall p :: p in cfg.deps[c] ==> Ended(cfg, s'.hot, p))
      && ((forall id, p :: p in s'.regs[c].counted ==> !Notifies(s', id, p)) ==>
           (ReportedReady(s'.hot, c, readyStatus) <==>
             (forall p :: p in cfg.deps[c] ==> Ended(cfg, s'.hot, p)) &&
             (forall p :: p in s'.regs[c].counted ==> p in s'.notified)))
  {
    RunMakesProgress(cfg, s, steps, c);
    CalmRunStaysCalm(cfg, s, steps, c);
    ReadinessIsExact(cfg, Exec(cfg, s, steps).value, c);
  }
}
