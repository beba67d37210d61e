/** Which parents a counter is decremented for twice. */
module ProtocolDecrements {
  import opened Common
  import opened HotStore
  import opened Protocol
  import opened ProtocolSafety
  import opened ProtocolReadiness
  import opened ProtocolTheorems

  /** All steps of the run let a child register once and a task be notified once. */
  ghost predicate OnceRun(cfg: Config, s: State, steps: seq<Step>) {
    steps != [] ==>
      var init, last := steps[..|steps| - 1], steps[|steps| - 1];
      OnceRun(cfg, s, init) && Exec(cfg, s, init).Some? && OnceStep(cfg, Exec(cfg, s, init).value, last)
  }

  /** The step sets the counter of `c`. */
  predicate Sets(s: State, step: Step, c: Task) {
    step == Register(c) && c in s.regs && s.regs[c].phase.Setting?
  }

  /** The parent that the re-check of `c` makes up for in this step: it found the parent ended. */
  function MadeUp(s: State, step: Step, c: Task): set<Task> {
    if step == Register(c) && c in s.regs && s.regs[c].phase.Compensating? && s.regs[c].phase.i < |s.regs[c].counted|
    then {s.regs[c].counted[s.regs[c].phase.i]} else {}
  }

  /** The task whose notification decrements for `c` in this step: it had listed `c`. */
  function Serves(s: State, step: Step, c: Task): set<Task> {
    if step.Advance? && step.id in s.procs && s.procs[step.id].Fanout? && s.procs[step.id].todo != []
       && s.procs[step.id].todo[0] == c
    then {s.procs[step.id].task} else {}
  }

  /** The parents made up for since the counter of `c` was set. */
  ghost function Compensated(cfg: Config, s: State, steps: seq<Step>, c: Task): set<Task>
    requires Exec(cfg, s, steps).Some?
  {
    if steps == [] then {}
    else
      var init, last := steps[..|steps| - 1], steps[|steps| - 1];
      var now := Exec(cfg, s, init).value;
      if Sets(now, last, c) then {} else Compensated(cfg, s, init, c) + MadeUp(now, last, c)
  }

  /** The tasks whose notification has decremented for `c` since its counter was set. */
  ghost function Served(cfg: Config, s: State, steps: seq<Step>, c: Task): set<Task>
    requires Exec(cfg, s, steps).Some?
  {
    if steps == [] then {}
    else
      var init, last := steps[..|steps| - 1], steps[|steps| - 1];
      var now := Exec(cfg, s, init).value;
      if Sets(now, last, c) then {} else Served(cfg, s, init, c) + Serves(now, last, c)
  }

  /** How far the re-check has come with making up. */
  function Passed(r: Registration): nat {
    match r.phase
    case Checking(i) => i
    case Compensating(i, _) => i
    case Recasting(i) => i + 1
    case Closing => |r.counted|
    case Done => |r.counted|
    case _ => 0
  }

  ghost predicate OwnOk(r: Registration, own: set<Task>) {
    && Passed(r) <= |r.counted|
    && own <= Elems(r.counted[..Passed(r)])
  }

  /** The notification of `p` is past `c`. */
  ghost predicate PastChild(s: State, c: Task, p: Task) {
    p in s.notified || exists id :: Notifies(s, id, p) && c !in s.procs[id].todo
  }

  /** Every decrement on record is one of the two kinds, and there is at most one of each kind per parent. */
  ghost predicate Sources(s: State, c: Task, own: set<Task>, served: set<Task>) {
    && c in s.regs && OwnOk(s.regs[c], own)
    && multiset(s.regs[c].decs) == multiset(own) + multiset(served)
    && forall p :: p in served ==> PastChild(s, c, p)
  }

  lemma AddNew(own: set<Task>, p: Task)
    requires p !in own
    ensures multiset(own + {p}) == multiset(own) + multiset{p}
  {
  }

  lemma PastChildStays(cfg: Config, s: State, step: Step, c: Task, p: Task)
    requires Enabled(cfg, s, step) && PastChild(s, c, p)
    ensures PastChild(Next(cfg, s, step), c, p)
  {
    if p !in s.notified {
      var id :| Notifies(s, id, p) && c !in s.procs[id].todo;
      NotifierAdvances(cfg, s.hot, s.procs[id]);
      var s' := Next(cfg, s, step);
      assert p in s'.notified || (Notifies(s', id, p) && c !in s'.procs[id].todo);
    }
  }

  /** The re-check goes through the counted parents in order and makes up for each at most once. */
  lemma OwnStepPasses(cfg: Config, h: Hot, c: Task, r: Registration)
    requires c in cfg.deps && InRange(cfg.deps[c], r)
    ensures var r' := RegisterNext(cfg, h, c, r);
      && (r.phase.Setting? ==> r'.decs == [] && Passed(r') == 0)
      && (!r.CounterSet() ==> Passed(r) == 0 == Passed(r'))
      && (!r.phase.Setting? && !r.phase.Compensating? ==> r'.decs == r.decs)
      && (r.CounterSet() ==> r'.counted == r.counted && Passed(r) <= Passed(r') <= |r.counted|)
      && (r.phase.Compensating? ==>
            && Passed(r) == r.phase.i && Passed(r') == r.phase.i + 1
            && r'.decs == r.decs + [r.counted[r.phase.i]])
  {
  }

  lemma PrefixGrows(counted: seq<Task>, i: nat, j: nat)
    requires i <= j <= |counted|
    ensures Elems(counted[..i]) <= Elems(counted[..j])
  {
    assert forall k :: 0 <= k < i ==> counted[..i][k] == counted[..j][k];
  }

  lemma NextIsNew(counted: seq<Task>, i: nat)
    requires NoDup(counted) && i < |counted|
    ensures counted[i] !in Elems(counted[..i]) && counted[i] in Elems(counted[..i + 1])
  {
    assert counted[..i + 1][i] == counted[i];
    assert forall k :: 0 <= k < i ==> counted[..i][k] == counted[k];
  }

  lemma OwnStepSources(cfg: Config, h: Hot, c: Task, r: Registration, own: set<Task>)
    requires c in cfg.deps && InRange(cfg.deps[c], r) && NoDup(r.counted) && OwnOk(r, own)
    ensures var r' := RegisterNext(cfg, h, c, r);
      var p := if r.phase.Compensating? then {r.counted[r.phase.i]} else {};
      if r.phase.Setting? then r'.decs == [] && OwnOk(r', {})
      else own !! p && OwnOk(r', own + p) && multiset(r'.decs) == multiset(r.decs) + multiset(p)
  {
    var r' := RegisterNext(cfg, h, c, r);
    OwnStepPasses(cfg, h, c, r);
    if r.CounterSet() { PrefixGrows(r.counted, Passed(r), Passed(r')); }
    if r.phase.Compensating? {
      NextIsNew(r.counted, r.phase.i);
      assert multiset(r.decs + [r.counted[r.phase.i]]) == multiset(r.decs) + multiset{r.counted[r.phase.i]};
    }
  }

  lemma Disjoint(own: set<Task>, p: set<Task>)
    requires own !! p
    ensures multiset(own + p) == multiset(own) + multiset(p)
  {
  }

  lemma OwnStepKeepsSources(cfg: Config, s: State, c: Task, own: set<Task>, served: set<Task>)
    requires cfg.Valid() && c in cfg.deps && Safe(cfg, s, c) && Sources(s, c, own, served) &&
      Enabled(cfg, s, Register(c))
    ensures var s' := Next(cfg, s, Register(c));
      if Sets(s, Register(c), c) then Sources(s', c, {}, {})
      else Sources(s', c, own + MadeUp(s, Register(c), c), served)
  {
    var r, p := s.regs[c], MadeUp(s, Register(c), c);
    OwnStepSources(cfg, s.hot, c, r, own);
    assert p == if r.phase.Compensating? then {r.counted[r.phase.i]} else {};
    if !r.phase.Setting? { Disjoint(own, p); }
    forall q | q in served ensures PastChild(Next(cfg, s, Register(c)), c, q) {
      PastChildStays(cfg, s, Register(c), c, q);
    }
  }

  lemma PastChildrenStay(cfg: Config, s: State, step: Step, c: Task, served: set<Task>)
    requires Enabled(cfg, s, step) && forall p :: p in served ==> PastChild(s, c, p)
    ensures forall p :: p in served ==> PastChild(Next(cfg, s, step), c, p)
  {
    forall q | q in served ensures PastChild(Next(cfg, s, step), c, q) { PastChildStays(cfg, s, step, c, q); }
  }

  lemma ServingStep(cfg: Config, s: State, id: nat, c: Task, own: set<Task>, served: set<Task>)
    requires Sources(s, c, own, served) && OneNotifier(s) && Enabled(cfg, s, Advance(id))
    requires Serves(s, Advance(id), c) != {}
    ensures Sources(Next(cfg, s, Advance(id)), c, own, served + {s.procs[id].task})
  {
    var q := s.procs[id];
    ServedOnce(s, id, c, served);
    AddNew(served, q.task);
    assert multiset(s.regs[c].decs + [q.task]) == multiset(s.regs[c].decs) + multiset{q.task};
    NowPast(cfg, s, id, c);
    PastChildrenStay(cfg, s, Advance(id), c, served);
  }

  /** The steps of notifications: each task decrements for a child at most once. */
  lemma AdvanceKeepsSources(cfg: Config, s: State, id: nat, c: Task, own: set<Task>, served: set<Task>)
    requires Sources(s, c, own, served) && OneNotifier(s) && Enabled(cfg, s, Advance(id))
    ensures Sources(Next(cfg, s, Advance(id)), c, own, served + Serves(s, Advance(id), c))
  {
    if Serves(s, Advance(id), c) != {} {
      ServingStep(cfg, s, id, c, own, served);
    } else {
      assert served + Serves(s, Advance(id), c) == served;
      PastChildrenStay(cfg, s, Advance(id), c, served);
    }
  }

  lemma ServedOnce(s: State, id: nat, c: Task, served: set<Task>)
    requires OneNotifier(s) && Serves(s, Advance(id), c) != {} && forall p :: p in served ==> PastChild(s, c, p)
    ensures s.procs[id].task !in served
  {
    assert Notifies(s, id, s.procs[id].task) && c in s.procs[id].todo;
  }

  lemma NowPast(cfg: Config, s: State, id: nat, c: Task)
    requires OneNotifier(s) && Enabled(cfg, s, Advance(id)) && Serves(s, Advance(id), c) != {}
    ensures PastChild(Next(cfg, s, Advance(id)), c, s.procs[id].task)
  {
    var q, s' := s.procs[id], Next(cfg, s, Advance(id));
    assert Notifies(s, id, q.task) && NoDup(q.todo);
    assert forall k :: 1 <= k < |q.todo| ==> q.todo[k] != q.todo[0];
    assert Notifies(s', id, q.task) && c !in s'.procs[id].todo;
  }

  lemma OutsideKeepsSources(cfg: Config, s: State, step: Step, c: Task, own: set<Task>, served: set<Task>)
    requires Sources(s, c, own, served) && OnceStep(cfg, s, step) && step != Register(c) && !step.Advance?
    ensures Sources(Next(cfg, s, step), c, own, served)
  {
    PastChildrenStay(cfg, s, step, c, served);
  }

  lemma StepKeepsSources(cfg: Config, s: State, step: Step, c: Task, own: set<Task>, served: set<Task>)
    requires cfg.Valid() && c in cfg.deps && Safe(cfg, s, c) && Sources(s, c, own, served) && OneNotifier(s)
    requires OnceStep(cfg, s, step)
    ensures if Sets(s, step, c) then Sources(Next(cfg, s, step), c, {}, {})
      else Sources(Next(cfg, s, step), c, own + MadeUp(s, step, c), served + Serves(s, step, c))
  {
    assert own + {} == own && served + {} == served;
    if step == Register(c) {
      OwnStepKeepsSources(cfg, s, c, own, served);
    } else if step.Advance? {
      AdvanceKeepsSources(cfg, s, step.id, c, own, served);
    } else {
      OutsideKeepsSources(cfg, s, step, c, own, served);
    }
  }

  lemma {:induction false} RunKeepsSources(cfg: Config, s: State, steps: seq<Step>, c: Task)
    requires cfg.Valid() && c in cfg.deps && Initial(cfg, s) && OnceRun(cfg, s, steps) && Exec(cfg, s, steps).Some?
    ensures OneNotifier(Exec(cfg, s, steps).value)
    ensures Sources(Exec(cfg, s, steps).value, c, Compensated(cfg, s, steps, c), Served(cfg, s, steps, c))
  {
    if steps != [] {
      var init, last := steps[..|steps| - 1], steps[|steps| - 1];
      RunKeepsSources(cfg, s, init, c);
      RunIsSafe(cfg, s, init, c);
      var now := Exec(cfg, s, init).value;
      StepKeepsOneNotifier(cfg, now, last);
      StepKeepsSources(cfg, now, last, c, Compensated(cfg, s, init, c), Served(cfg, s, init, c));
    }
  }

  lemma TwoKinds(decs: seq<Task>, own: set<Task>, served: set<Task>)
    requires multiset(decs) == multiset(own) + multiset(served)
    ensures Elems(decs) == own + served
    ensures NoDup(decs) <==> own !! served
  {
    forall p ensures p in Elems(decs) <==> p in own + served {
      assert p in decs <==> p in multiset(decs);
    }
    if own !! served {
      forall i, j | 0 <= i < j < |decs| ensures decs[i] != decs[j] {
        if decs[i] == decs[j] { TwiceMeansTwo(decs, i, j); }
      }
    } else {
      var p :| p in own && p in served;
      assert multiset(decs)[p] == 2;
      if NoDup(decs) { OnceMeansOne(decs, p); }
    }
  }

  lemma TwiceMeansTwo(decs: seq<Task>, i: nat, j: nat)
    requires i < j < |decs| && decs[i] == decs[j]
    ensures multiset(decs)[decs[i]] >= 2
  {
    assert decs == decs[..j] + [decs[j]] + decs[j + 1..];
    assert decs[..j][i] == decs[i];
  }

  lemma {:induction false} OnceMeansOne(decs: seq<Task>, p: Task)
    requires NoDup(decs)
    ensures multiset(decs)[p] <= 1
  {
    if decs != [] {
      var init, last := decs[..|decs| - 1], decs[|decs| - 1];
      assert decs == init + [last];
      LastIsFresh(init, last);
      OnceMeansOne(init, p);
      if p == last { assert p !in multiset(init); }
    }
  }

  /** In runs with one registration per child and one notification per task, the counter of a registered child is the
      number of counted parents not yet decremented for if and only if no parent both was found ended by the
      re-check and decremented by its notification after the counter was set, and only counted parents did. */
  lemma CounterExactInOnceRuns(cfg: Config, s: State, steps: seq<Step>, c: Task)
    requires cfg.Valid() && c in cfg.deps && Initial(cfg, s) && OnceRun(cfg, s, steps) && Exec(cfg, s, steps).Some?
    requires var s' := Exec(cfg, s, steps).value;
      !Ended(cfg, s'.hot, c) && c in s'.regs && s'.regs[c].CounterSet()
    ensures var s' := Exec(cfg, s, steps).value;
      var r, own, served := s'.regs[c], Compensated(cfg, s, steps, c), Served(cfg, s, steps, c);
      s'.hot.Remaining(c) == |Elems(r.counted) - (own + served)| <==> own !! served && served <= Elems(r.counted)
  {
    var s' := Exec(cfg, s, steps).value;
    var r, own, served := s'.regs[c], Compensated(cfg, s, steps, c), Served(cfg, s, steps, c);
    RunMakesProgress(cfg, s, steps, c);
    RunKeepsSources(cfg, s, steps, c);
    TwoKinds(r.decs, own, served);
    CounterExactIff(cfg, s', c);
    assert own <= Elems(r.counted);
  }
}
