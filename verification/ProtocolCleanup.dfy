/** The child side of a terminal notification: the task that ended leaves its parents' active children, and its ballot
    is cleared. */
module ProtocolCleanup {
  import opened Common
  import opened HotStore
  import opened Protocol
  import opened ProtocolSafety
  import opened ProtocolTheorems
  import Observers = ProtocolObservers
  import Overlap = ProtocolOverlap

  /** One removal takes the task out of the active children of the next declared parent, and changes nothing else. */
  lemma RemovalStep(cfg: Config, s: State, id: nat, t: Task, todo: seq<Task>)
    requires id in s.procs && s.procs[id] == Removing(t, todo)
    ensures var h, h' := s.hot, Next(cfg, s, Advance(id)).hot;
      && h'.tasks == h.tasks && h'.remaining == h.remaining && h'.votes == h.votes
      && forall p, c :: c in h'.Children(p) <==> c in h.Children(p) && !(todo != [] && p == todo[0] && c == t)
  {
  }

  /** `t` is among the active children of none of the parents on its record. */
  ghost predicate Gone(h: Hot, t: Task) {
    forall p :: p in h.DependsOn(t) ==> t !in h.Children(p)
  }

  /** A vote by `v` on `t` has been decided on and is still to be cast. */
  ghost predicate UnderWay(s: State, t: Task, v: Task) {
    exists id :: id in s.procs && VotesOn(s.procs[id], t) && s.procs[id].task == v
  }

  predicate VotesOn(q: Process, t: Task) {
    (q.Casting? || q.ManualCasting?) && q.child == t
  }

  /** Everything is cleaned up, but for votes that were under way in `s0`. */
  ghost predicate Clean(s0: State, s: State, t: Task) {
    Gone(s.hot, t) && forall v :: v in s.hot.Votes(t) ==> UnderWay(s0, t, v)
  }

  /** How far the notification `q` of `t` has got. */
  ghost predicate Tidying(h: Hot, q: Process, t: Task) {
    && q.task == t
    && match q
       case Removing(_, todo) => forall p :: p in h.DependsOn(t) && p !in todo ==> t !in h.Children(p)
       case Clearing(_) => Gone(h, t)
       case Leaving(_) => true
       case _ => q.Notifying()
  }

  /** What holds from the beginning of the notification `id` of `t` on, if `t` does not register meanwhile. */
  ghost predicate CleaningUp(cfg: Config, s0: State, s: State, id: nat, t: Task) {
    && Ended(cfg, s.hot, t) && s.hot.DependsOn(t) != []
    && (forall v :: UnderWay(s, t, v) ==> UnderWay(s0, t, v))
    && (Clean(s0, s, t) || (id in s.procs && Tidying(s.hot, s.procs[id], t)))
  }

  lemma ProcessKeepsMembers(cfg: Config, h: Hot, q: Process, t: Task)
    ensures var h' := ProcessHot(cfg, h, q);
      && h'.DependsOn(t) == h.DependsOn(t)
      && (forall p :: t in h'.Children(p) ==> t in h.Children(p))
      && (forall v :: v in h'.Votes(t) ==> v in h.Votes(t) || (VotesOn(q, t) && v == q.task))
  {
    CancelEvolves(cfg, h, t);
    if q.Cancelling? || q.ManualCancelling? { CancelEvolves(cfg, h, q.child); }
  }

  lemma RegisterKeepsMembers(cfg: Config, h: Hot, c: Task, r: Registration, t: Task)
    requires c in cfg.deps && InRange(cfg.deps[c], r) && c != t
    ensures var h' := RegisterHot(cfg, h, c, r);
      && h'.DependsOn(t) == h.DependsOn(t) && h'.Votes(t) == h.Votes(t)
      && forall p :: t in h'.Children(p) <==> t in h.Children(p)
  {
    CancelEvolves(cfg, h, c);
  }

  /** Only a registration of `t` brings it among the active children, and only votes under way reach its ballot. */
  lemma StepKeepsMembers(cfg: Config, s: State, step: Step, t: Task)
    requires Enabled(cfg, s, step) && step != Register(t) && t in s.hot.tasks
    ensures var h, h' := s.hot, Next(cfg, s, step).hot;
      && h'.DependsOn(t) == h.DependsOn(t)
      && (forall p :: t in h'.Children(p) ==> t in h.Children(p))
      && (forall v :: v in h'.Votes(t) ==> v in h.Votes(t) || UnderWay(s, t, v))
  {
    match step
    case Register(c) => RegisterKeepsMembers(cfg, s.hot, c, s.regs[c], t);
    case Advance(id) => ProcessKeepsMembers(cfg, s.hot, s.procs[id], t);
    case _ =>
  }

  /** Once `t` has ended, no new vote on it is decided on. */
  lemma NoNewVotes(cfg: Config, s: State, step: Step, t: Task, v: Task)
    requires Enabled(cfg, s, step) && Ended(cfg, s.hot, t) && UnderWay(Next(cfg, s, step), t, v)
    ensures UnderWay(s, t, v)
  {
    var s' := Next(cfg, s, step);
    var id :| id in s'.procs && VotesOn(s'.procs[id], t) && s'.procs[id].task == v;
    assert id in s.procs && s.procs[id] == s'.procs[id];
  }

  /** The next call of the notification itself. */
  lemma OwnCallTidies(cfg: Config, s0: State, s: State, id: nat, t: Task)
    requires id in s.procs && Tidying(s.hot, s.procs[id], t) && s.hot.DependsOn(t) != []
    ensures var s' := Next(cfg, s, Advance(id));
      Clean(s0, s', t) || (id in s'.procs && Tidying(s'.hot, s'.procs[id], t))
  {
    ProcessKeepsMembers(cfg, s.hot, s.procs[id], t);
  }

  lemma StepKeepsCleaningUp(cfg: Config, s0: State, s: State, step: Step, id: nat, t: Task)
    requires CleaningUp(cfg, s0, s, id, t) && Enabled(cfg, s, step) && step != Register(t)
    ensures CleaningUp(cfg, s0, Next(cfg, s, step), id, t)
    ensures Clean(s0, s, t) ==> Clean(s0, Next(cfg, s, step), t)
  {
    var s' := Next(cfg, s, step);
    StepEvolves(cfg, s, step);
    StepKeepsMembers(cfg, s, step, t);
    forall v | UnderWay(s', t, v) ensures UnderWay(s0, t, v) { NoNewVotes(cfg, s, step, t, v); }
    if !Clean(s0, s, t) && step == Advance(id) { OwnCallTidies(cfg, s0, s, id, t); }
  }

  lemma {:induction false} RunKeepsCleaningUp(cfg: Config, s0: State, steps: seq<Step>, id: nat, t: Task)
    requires CleaningUp(cfg, s0, s0, id, t) && Exec(cfg, s0, steps).Some? && Register(t) !in steps
    ensures CleaningUp(cfg, s0, Exec(cfg, s0, steps).value, id, t)
  {
    if steps != [] {
      var init, last := steps[..|steps| - 1], steps[|steps| - 1];
      assert last in steps && forall x :: x in init ==> x in steps;
      RunKeepsCleaningUp(cfg, s0, init, id, t);
      StepKeepsCleaningUp(cfg, s0, Exec(cfg, s0, init).value, last, id, t);
    }
  }

  lemma {:induction false} CleanStays(cfg: Config, s0: State, first: seq<Step>, rest: seq<Step>, id: nat, t: Task)
    requires CleaningUp(cfg, s0, s0, id, t) && Exec(cfg, s0, first).Some? && id !in Exec(cfg, s0, first).value.procs
    requires Exec(cfg, s0, first + rest).Some? && Register(t) !in first + rest
    ensures Clean(s0, Exec(cfg, s0, first + rest).value, t)
  {
    if rest == [] {
      assert first + rest == first;
      RunKeepsCleaningUp(cfg, s0, first, id, t);
    } else {
      var init, last := rest[..|rest| - 1], rest[|rest| - 1];
      var all := first + init;
      assert first + rest == all + [last] && (first + rest)[..|all|] == all;
      assert last in first + rest && forall x :: x in all ==> x in first + rest;
      CleanStays(cfg, s0, first, init, id, t);
      RunKeepsCleaningUp(cfg, s0, all, id, t);
      StepKeepsCleaningUp(cfg, s0, Exec(cfg, s0, all).value, last, id, t);
    }
  }

  /** Once a notification of a registered task is over, and as long as the task does not register again, it is among
      the active children of none of its declared parents, and its ballot holds at most votes that were under way when
      the notification began. */
  lemma NotificationCleansUp(cfg: Config, s: State, id: nat, t: Task, listing: seq<Task>, first: seq<Step>,
                             rest: seq<Step>)
    requires Enabled(cfg, s, Notify(id, t, listing)) && s.hot.DependsOn(t) != []
    requires var s0 := Next(cfg, s, Notify(id, t, listing));
      && Exec(cfg, s0, first).Some? && id !in Exec(cfg, s0, first).value.procs
      && Exec(cfg, s0, first + rest).Some?
    requires Register(t) !in first + rest
    ensures var s' := Exec(cfg, Next(cfg, s, Notify(id, t, listing)), first + rest).value;
      && (forall p :: p in s.hot.DependsOn(t) ==> t !in s'.hot.Children(p))
      && (forall v :: v in s'.hot.Votes(t) ==> UnderWay(s, t, v))
      && ((forall v :: !UnderWay(s, t, v)) ==> s'.hot.Votes(t) == {})
  {
    var s0 := Next(cfg, s, Notify(id, t, listing));
    CleanStays(cfg, s0, first, rest, id, t);
    RecordStays(cfg, s0, first + rest, t);
    forall v | UnderWay(s0, t, v) ensures UnderWay(s, t, v) {
      NoNewVotes(cfg, s, Notify(id, t, listing), t, v);
    }
  }

  lemma {:induction false} RecordStays(cfg: Config, s: State, steps: seq<Step>, t: Task)
    requires t in s.hot.tasks && Exec(cfg, s, steps).Some? && Register(t) !in steps
    ensures t in Exec(cfg, s, steps).value.hot.tasks
    ensures Exec(cfg, s, steps).value.hot.DependsOn(t) == s.hot.DependsOn(t)
  {
    if steps != [] {
      var init, last := steps[..|steps| - 1], steps[|steps| - 1];
      assert last in steps && forall x :: x in init ==> x in steps;
      RecordStays(cfg, s, init, t);
      StepKeepsMembers(cfg, Exec(cfg, s, init).value, last, t);
      StepEvolves(cfg, Exec(cfg, s, init).value, last);
    }
  }

  /** So in every run: a task whose registration was over when its notification began. */
  lemma CleanedUpInAnyRun(cfg: Config, start: State, before: seq<Step>, id: nat, t: Task, listing: seq<Task>,
                          first: seq<Step>, rest: seq<Step>)
    requires cfg.Valid() && t in cfg.deps && Initial(cfg, start) && Exec(cfg, start, before).Some?
    requires var s := Exec(cfg, start, before).value;
      && t in s.regs && s.regs[t].phase.Done? && Enabled(cfg, s, Notify(id, t, listing))
      && var s0 := Next(cfg, s, Notify(id, t, listing));
      && Exec(cfg, s0, first).Some? && id !in Exec(cfg, s0, first).value.procs
      && Exec(cfg, s0, first + rest).Some?
    requires Register(t) !in first + rest
    ensures var s := Exec(cfg, start, before).value;
      var s' := Exec(cfg, Next(cfg, s, Notify(id, t, listing)), first + rest).value;
      && (forall p :: p in cfg.deps[t] ==> t !in s'.hot.Children(p))
      && (forall v :: v in s'.hot.Votes(t) ==> UnderWay(s, t, v))
  {
    RunIsSafe(cfg, start, before, t);
    NotificationCleansUp(cfg, Exec(cfg, start, before).value, id, t, listing, first, rest);
  }

  // ---------- a vote under way outlives the cleanup ----------

  predicate IsNotification(q: Process) {
    !q.ManualCasting? && !q.ManualCancelling?
  }

  /** An upper bound for the calls a notification still makes. */
  function CallsLeft(h: Hot, q: Process): nat
    requires IsNotification(q)
  {
    var cleanup := |h.DependsOn(q.task)|;
    match q
    case Clearing(_) => 1
    case Removing(_, todo) => |todo| + 2
    case Leaving(_) => cleanup + 3
    case Fanout(_, _, todo) => cleanup + 4 + 4 * |todo|
    case Cancelling(_, _, _, todo) => cleanup + 5 + 4 * |todo|
    case Casting(_, _, _, _, todo) => cleanup + 6 + 4 * |todo|
    case Judging(_, _, _, todo) => cleanup + 7 + 4 * |todo|
  }

  lemma OneCallFewer(cfg: Config, h: Hot, q: Process)
    requires IsNotification(q) && ProcessNext(cfg, h, q).Some?
    ensures var q' := ProcessNext(cfg, h, q).value;
      IsNotification(q') && CallsLeft(ProcessHot(cfg, h, q), q') < CallsLeft(h, q)
  {
    ProcessKeepsMembers(cfg, h, q, q.task);
  }

  lemma Prepend(cfg: Config, s: State, step: Step, steps: seq<Step>)
    requires Enabled(cfg, s, step)
    ensures Exec(cfg, s, [step] + steps) == Exec(cfg, Next(cfg, s, step), steps)
  {
    if steps == [] {
      assert [step] + steps == [step] && [step][..0] == [];
    } else {
      var init := steps[..|steps| - 1];
      assert ([step] + steps)[..|steps|] == [step] + init;
      Prepend(cfg, s, step, init);
    }
  }

  /** A notification left to itself comes to its end; the other processes stay where they are. */
  lemma {:induction false} EndsAlone(cfg: Config, s: State, id: nat) returns (steps: seq<Step>, s': State)
    requires id in s.procs && IsNotification(s.procs[id])
    ensures Exec(cfg, s, steps) == Some(s') && s'.procs == s.procs - {id}
    ensures forall x :: x in steps ==> x == Advance(id)
    decreases CallsLeft(s.hot, s.procs[id])
  {
    var next, s1 := ProcessNext(cfg, s.hot, s.procs[id]), Next(cfg, s, Advance(id));
    if next.Some? {
      OneCallFewer(cfg, s.hot, s.procs[id]);
      steps, s' := EndsAlone(cfg, s1, id);
      assert s1.procs - {id} == s.procs - {id};
    } else {
      steps, s' := [], s1;
    }
    Prepend(cfg, s, Advance(id), steps);
    steps := [Advance(id)] + steps;
  }

  /** The exception is real: from any state, a vote under way when the notification begins can be cast after it is
      over, and then stays on the ballot. */
  lemma LateVoteStays(cfg: Config, s: State, id: nat, t: Task, listing: seq<Task>, v: Task)
    returns (steps: seq<Step>, s': State)
    requires Enabled(cfg, s, Notify(id, t, listing)) && UnderWay(s, t, v)
    ensures Exec(cfg, s, [Notify(id, t, listing)] + steps) == Some(s') && id !in s'.procs && v in s'.hot.Votes(t)
    ensures forall x :: x in steps ==> x.Advance?
  {
    var voter :| voter in s.procs && VotesOn(s.procs[voter], t) && s.procs[voter].task == v;
    var s0 := Next(cfg, s, Notify(id, t, listing));
    var alone, s1 := EndsAlone(cfg, s0, id);
    var last := Advance(voter);
    assert s1.procs[voter] == s.procs[voter];
    s' := Next(cfg, s1, last);
    steps := alone + [last];
    assert steps[..|alone|] == alone;
    Prepend(cfg, s, Notify(id, t, listing), steps);
  }

  /** Such a run: a manual vote on the child is decided on, the child ends and its notification runs to the end, and
      only then is the vote cast. */
  lemma BallotAfterCleanup() returns (s: State, steps: seq<Step>, s': State)
    ensures Overlap.Arises(s) && Enabled(Overlap.EARLY, s, Notify(1, Overlap.CHILD, []))
    ensures Exec(Overlap.EARLY, s, [Notify(1, Overlap.CHILD, [])] + steps) == Some(s')
    ensures 1 !in s'.procs && Overlap.FIRST in s'.hot.Votes(Overlap.CHILD)
  {
    var h := Overlap.Store("running", Overlap.BOTH, Overlap.LISTED, map[]);
    Observers.VotesStart(h, 1);
    var voting, step := Observers.ThreeVotes(h, 1), WriteStatus(Overlap.CHILD, "failed");
    s := Next(Overlap.EARLY, voting, step);
    Overlap.Goes(voting, step, s);
    assert s.procs[0] == ManualCasting(Overlap.FIRST, Overlap.CHILD, 2) && UnderWay(s, Overlap.CHILD, Overlap.FIRST);
    steps, s' := LateVoteStays(Overlap.EARLY, s, 1, Overlap.CHILD, [], Overlap.FIRST);
  }
}
