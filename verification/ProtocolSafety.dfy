/** Safety of the governance protocol: what every interleaving keeps. */
module ProtocolSafety {
  import opened Common
  import opened HotStore
  import opened Protocol

  /** The task exists and holds a terminal status. */
  ghost predicate Ended(cfg: Config, h: Hot, t: Task) {
    t in h.tasks && cfg.words.Terminal(h.Status(t))
  }

  /** The task ended without success: the only ground for an automatic vote. */
  ghost predicate Dead(cfg: Config, h: Hot, t: Task) {
    Ended(cfg, h, t) && !cfg.words.Success(h.Status(t))
  }

  /** A vote by `p` is warranted: `p` is dead, or someone voted on its behalf by hand. */
  ghost predicate Warranted(cfg: Config, h: Hot, manual: set<Task>, p: Task) {
    Dead(cfg, h, p) || p in manual
  }

  ghost predicate AllWarranted(cfg: Config, h: Hot, manual: set<Task>, c: Task)
    requires c in cfg.deps
  {
    forall p :: p in cfg.deps[c] ==> Warranted(cfg, h, manual, p)
  }

  ghost predicate VotesSound(cfg: Config, h: Hot, manual: set<Task>, c: Task)
    requires c in cfg.deps
  {
    forall p :: p in h.Votes(c) ==> p in cfg.deps[c] && Warranted(cfg, h, manual, p)
  }

  /** What a running process may rely on; `c` is the child under consideration. */
  ghost predicate ProcessOk(cfg: Config, h: Hot, manual: set<Task>, c: Task, q: Process)
    requires c in cfg.deps
  {
    && (!q.ManualCasting? && !q.ManualCancelling? ==> Ended(cfg, h, q.task))
    && (q.Notifying() ==> q.word == h.Status(q.task))
    && (q.Judging? || q.Casting? || q.Cancelling? ==> !cfg.words.Success(q.word))
    && ((q.Casting? || q.ManualCasting?) && q.child == c ==>
      q.task in cfg.deps[c] && q.threshold == |cfg.deps[c]|)
    && ((q.Casting? || q.ManualCasting? || q.Cancelling? || q.ManualCancelling?) && q.child == c ==> c in h.tasks)
    && (q.AboutToCancel(c) ==> AllWarranted(cfg, h, manual, c))
  }

  /** The registration has looked at `p` and put it where its status belongs. */
  ghost predicate Classified(cfg: Config, h: Hot, r: Registration, p: Task) {
    p in r.counted || p in r.abnormal || (Ended(cfg, h, p) && cfg.words.Success(h.Status(p)))
  }

  /** How much of the parent list has been classified. */
  ghost predicate ReadSoFar(cfg: Config, h: Hot, c: Task, r: Registration)
    requires c in cfg.deps && InRange(cfg.deps[c], r)
  {
    var parents := cfg.deps[c];
    && (r.phase.Reading? ==>
      (forall k :: 0 <= k < r.phase.i ==> Classified(cfg, h, r, parents[k])) &&
      (forall k :: r.phase.i <= k < |parents| ==> parents[k] !in r.counted))
    && (!r.phase.Reading? && !r.phase.Idle? ==> forall p :: p in parents ==> Classified(cfg, h, r, p))
  }

  ghost predicate ListsOk(cfg: Config, h: Hot, c: Task, r: Registration)
    requires c in cfg.deps
  {
    && NoDup(r.counted)
    && (forall p :: p in r.counted ==> p in cfg.deps[c] && p in h.tasks)
    && (forall p :: p in r.abnormal ==> p in cfg.deps[c] && Dead(cfg, h, p))
  }

  ghost predicate PhaseOk(cfg: Config, h: Hot, c: Task, r: Registration)
    requires c in cfg.deps && InRange(cfg.deps[c], r)
  {
    && (r.phase.Compensating? ==>
      Ended(cfg, h, r.counted[r.phase.i]) && r.phase.word == h.Status(r.counted[r.phase.i]))
    && (r.phase.Recasting? ==> Dead(cfg, h, r.counted[r.phase.i]))
    && (!r.phase.Idle? ==> c in h.tasks)
    && (r.CounterSet() || r.phase.Setting? ==> h.DependsOn(c) == cfg.deps[c])
  }

  ghost predicate RegistrationOk(cfg: Config, h: Hot, manual: set<Task>, c: Task, r: Registration)
    requires c in cfg.deps
  {
    && ListsOk(cfg, h, c, r)
    && InRange(cfg.deps[c], r)
    && ReadSoFar(cfg, h, c, r)
    && PhaseOk(cfg, h, c, r)
    && (r.triggered ==> AllWarranted(cfg, h, manual, c))
  }

  /** The safety invariant, for one governed child. */
  ghost predicate Safe(cfg: Config, s: State, c: Task)
    requires c in cfg.deps
  {
    && c in s.regs && RegistrationOk(cfg, s.hot, s.Manual(c), c, s.regs[c])
    && (s.hot.DependsOn(c) == [] || s.hot.DependsOn(c) == cfg.deps[c])
    && VotesSound(cfg, s.hot, s.Manual(c), c)
    && (forall id :: id in s.procs ==> ProcessOk(cfg, s.hot, s.Manual(c), c, s.procs[id]))
    && (forall t :: t in s.notified ==> Ended(cfg, s.hot, t))
  }

  /** Terminal statuses are final. */
  ghost predicate Evolves(cfg: Config, h: Hot, h': Hot) {
    && h.tasks.Keys <= h'.tasks.Keys
    && forall t :: Ended(cfg, h, t) ==> h'.Status(t) == h.Status(t)
  }

  lemma CancelEvolves(cfg: Config, h: Hot, c: Task)
    ensures Evolves(cfg, h, Cancel(cfg, h, c))
    ensures forall t :: Cancel(cfg, h, c).DependsOn(t) == h.DependsOn(t)
  {
  }

  /** No step of the protocol, and no write it interleaves with, revokes a terminal status. */
  lemma StepEvolves(cfg: Config, s: State, step: Step)
    requires Enabled(cfg, s, step)
    ensures Evolves(cfg, s.hot, Next(cfg, s, step).hot)
    ensures forall c :: s.Manual(c) <= Next(cfg, s, step).Manual(c)
  {
    match step
    case Create(t, status, parent) =>
    case WriteStatus(t, status) =>
    case Begin(c) =>
    case Register(c) => CancelEvolves(cfg, s.hot, c);
    case Notify(id, t, listing) =>
    case VoteCancel(id, p, c) =>
    case Advance(id) =>
      if s.procs[id].Cancelling? || s.procs[id].ManualCancelling? {
        CancelEvolves(cfg, s.hot, s.procs[id].child);
      }
  }

  lemma ProcessKept(cfg: Config, h: Hot, h': Hot, manual: set<Task>, manual': set<Task>, c: Task, q: Process)
    requires c in cfg.deps && Evolves(cfg, h, h') && manual <= manual' && ProcessOk(cfg, h, manual, c, q)
    ensures ProcessOk(cfg, h', manual', c, q)
  {
  }

  lemma RegistrationKept(cfg: Config, h: Hot, h': Hot, manual: set<Task>, manual': set<Task>, c: Task, r: Registration)
    requires c in cfg.deps && Evolves(cfg, h, h') && manual <= manual'
    requires h'.DependsOn(c) == h.DependsOn(c) || h'.DependsOn(c) == cfg.deps[c]
    requires RegistrationOk(cfg, h, manual, c, r)
    ensures RegistrationOk(cfg, h', manual', c, r)
  {
    forall p | Classified(cfg, h, r, p)
      ensures Classified(cfg, h', r, p)
    {
    }
  }

  /** A full house of votes means every vote is warranted. */
  lemma ThresholdMeansAll(cfg: Config, h: Hot, manual: set<Task>, c: Task)
    requires cfg.Valid() && c in cfg.deps && VotesSound(cfg, h, manual, c)
    ensures Reached(h, c, |cfg.deps[c]|) <==> h.Votes(c) == Elems(cfg.deps[c])
    ensures Reached(h, c, |cfg.deps[c]|) ==> AllWarranted(cfg, h, manual, c)
  {
    CardElems(cfg.deps[c]);
    assert h.Votes(c) <= Elems(cfg.deps[c]);
    CardSubset(h.Votes(c), Elems(cfg.deps[c]));
    if Reached(h, c, |cfg.deps[c]|) {
      forall p | p in cfg.deps[c]
        ensures Warranted(cfg, h, manual, p)
      {
        assert p in h.Votes(c);
      }
    }
  }

  /** Casting a warranted vote keeps the votes sound, and its threshold test is honest. */
  lemma VoteKeeps(cfg: Config, h: Hot, manual: set<Task>, c: Task, p: Task)
    requires cfg.Valid() && c in cfg.deps && VotesSound(cfg, h, manual, c)
    requires p in cfg.deps[c] && Warranted(cfg, h, manual, p)
    ensures VotesSound(cfg, h.CastVote(c, p), manual, c)
    ensures Reached(h.CastVote(c, p), c, |cfg.deps[c]|) ==> AllWarranted(cfg, h.CastVote(c, p), manual, c)
  {
    ThresholdMeansAll(cfg, h.CastVote(c, p), manual, c);
  }

  lemma ReadKeeps(cfg: Config, h: Hot, manual: set<Task>, c: Task, r: Registration)
    requires cfg.Valid() && c in cfg.deps && RegistrationOk(cfg, h, manual, c, r) && r.phase.Reading?
    ensures RegistrationOk(cfg, h, manual, c, RegisterNext(cfg, h, c, r))
  {
    var parents, i, r' := cfg.deps[c], r.phase.i, RegisterNext(cfg, h, c, r);
    if i == |parents| {
      assert forall p :: p in parents ==> Classified(cfg, h, r', p) by {
        forall k | 0 <= k < |parents|
          ensures Classified(cfg, h, r', parents[k])
        {
          assert Classified(cfg, h, r, parents[k]);
        }
      }
    } else if parents[i] in h.tasks {
      assert parents[i] !in r.counted;
      assert Classified(cfg, h, r', parents[i]);
      forall k | 0 <= k < i + 1
        ensures Classified(cfg, h, r', parents[k])
      {
        if k < i { assert Classified(cfg, h, r, parents[k]); }
      }
    }
  }

  /** The storage effect of the registration's own step keeps everything it already knew. */
  lemma WriteKeeps(cfg: Config, h: Hot, manual: set<Task>, c: Task, r: Registration)
    requires cfg.Valid() && c in cfg.deps && RegistrationOk(cfg, h, manual, c, r) && VotesSound(cfg, h, manual, c)
    ensures Evolves(cfg, h, RegisterHot(cfg, h, c, r))
    ensures r.phase.Writing? ==> RegisterHot(cfg, h, c, r).DependsOn(c) == cfg.deps[c]
    ensures !r.phase.Writing? ==> RegisterHot(cfg, h, c, r).DependsOn(c) == h.DependsOn(c)
    ensures VotesSound(cfg, RegisterHot(cfg, h, c, r), manual, c)
  {
    match r.phase
    case Voting(i) => if i < |r.abnormal| { VoteKeeps(cfg, h, manual, c, r.abnormal[i]); }
    case Recasting(i) => VoteKeeps(cfg, h, manual, c, r.counted[i]);
    case Closing => CancelEvolves(cfg, h, c);
    case _ =>
  }

  lemma WarrantKept(cfg: Config, h: Hot, h': Hot, manual: set<Task>, manual': set<Task>, c: Task)
    requires c in cfg.deps && Evolves(cfg, h, h') && manual <= manual' && AllWarranted(cfg, h, manual, c)
    ensures AllWarranted(cfg, h', manual', c)
  {
    forall p | p in cfg.deps[c]
      ensures Warranted(cfg, h', manual', p)
    {
      assert Warranted(cfg, h, manual, p);
    }
  }

  lemma TriggerHonest(cfg: Config, h: Hot, manual: set<Task>, c: Task, r: Registration)
    requires cfg.Valid() && c in cfg.deps && RegistrationOk(cfg, h, manual, c, r) && VotesSound(cfg, h, manual, c)
    requires RegisterNext(cfg, h, c, r).triggered
    ensures AllWarranted(cfg, RegisterHot(cfg, h, c, r), manual, c)
  {
    if r.triggered {
      WriteKeeps(cfg, h, manual, c, r);
      WarrantKept(cfg, h, RegisterHot(cfg, h, c, r), manual, manual, c);
    } else {
      assert r.phase.Voting? || r.phase.Recasting?;
      VoteKeeps(cfg, h, manual, c, if r.phase.Voting? then r.abnormal[r.phase.i] else r.counted[r.phase.i]);
    }
  }

  lemma NextPhaseOk(cfg: Config, h: Hot, c: Task, r: Registration)
    requires c in cfg.deps && InRange(cfg.deps[c], r) && ListsOk(cfg, h, c, r) && PhaseOk(cfg, h, c, r)
    requires !r.phase.Idle? && !r.phase.Reading? && !r.phase.Done?
    ensures InRange(cfg.deps[c], RegisterNext(cfg, h, c, r))
    ensures PhaseOk(cfg, RegisterHot(cfg, h, c, r), c, RegisterNext(cfg, h, c, r))
    ensures RegisterNext(cfg, h, c, r).counted == r.counted && RegisterNext(cfg, h, c, r).abnormal == r.abnormal
    ensures !RegisterNext(cfg, h, c, r).phase.Reading?
  {
    if r.phase.Closing? { CancelEvolves(cfg, h, c); }
  }

  lemma MoveKeeps(cfg: Config, h: Hot, manual: set<Task>, c: Task, r: Registration)
    requires cfg.Valid() && c in cfg.deps && RegistrationOk(cfg, h, manual, c, r) && VotesSound(cfg, h, manual, c)
    requires !r.phase.Idle? && !r.phase.Reading? && !r.phase.Done?
    ensures RegistrationOk(cfg, RegisterHot(cfg, h, c, r), manual, c, RegisterNext(cfg, h, c, r))
  {
    WriteKeeps(cfg, h, manual, c, r);
    NextPhaseOk(cfg, h, c, r);
    RegistrationKept(cfg, h, RegisterHot(cfg, h, c, r), manual, manual, c, r);
    if RegisterNext(cfg, h, c, r).triggered { TriggerHonest(cfg, h, manual, c, r); }
    SameLists(cfg, RegisterHot(cfg, h, c, r), c, r, RegisterNext(cfg, h, c, r));
  }

  lemma SameLists(cfg: Config, h: Hot, c: Task, r: Registration, r': Registration)
    requires c in cfg.deps && InRange(cfg.deps[c], r) && InRange(cfg.deps[c], r')
    requires ListsOk(cfg, h, c, r) && ReadSoFar(cfg, h, c, r) && !r.phase.Reading? && !r.phase.Idle?
    requires r'.counted == r.counted && r'.abnormal == r.abnormal && !r'.phase.Reading?
    ensures ListsOk(cfg, h, c, r') && ReadSoFar(cfg, h, c, r')
  {
    forall p | p in cfg.deps[c]
      ensures Classified(cfg, h, r', p)
    {
      assert Classified(cfg, h, r, p);
    }
  }

  /** Steps of a process: what they mean for the votes of `c` ... */
  lemma ProcessVotesSound(cfg: Config, h: Hot, manual: set<Task>, c: Task, q: Process)
    requires cfg.Valid() && c in cfg.deps && ProcessOk(cfg, h, manual, c, q) && VotesSound(cfg, h, manual, c)
    ensures Evolves(cfg, h, ProcessHot(cfg, h, q)) && ProcessHot(cfg, h, q).DependsOn(c) == h.DependsOn(c)
    ensures var manual' := if q.ManualCasting? && q.child == c then manual + {q.task} else manual;
      VotesSound(cfg, ProcessHot(cfg, h, q), manual', c)
  {
    match q
    case Casting(t, word, child, threshold, todo) => if child == c { VoteKeeps(cfg, h, manual, c, t); }
    case ManualCasting(p, child, threshold) => if child == c { VoteKeeps(cfg, h, manual + {p}, c, p); }
    case Cancelling(t, word, child, todo) => CancelEvolves(cfg, h, child);
    case ManualCancelling(p, child) => CancelEvolves(cfg, h, child);
    case _ =>
  }

  /** ... and for the process itself. */
  lemma ProcessStaysOk(cfg: Config, h: Hot, manual: set<Task>, c: Task, q: Process)
    requires cfg.Valid() && c in cfg.deps && ProcessOk(cfg, h, manual, c, q) && VotesSound(cfg, h, manual, c)
    requires h.DependsOn(c) == [] || h.DependsOn(c) == cfg.deps[c]
    requires ProcessNext(cfg, h, q).Some?
    ensures var manual' := if q.ManualCasting? && q.child == c then manual + {q.task} else manual;
      ProcessOk(cfg, ProcessHot(cfg, h, q), manual', c, ProcessNext(cfg, h, q).value)
  {
    ProcessVotesSound(cfg, h, manual, c, q);
    match q
    case Casting(t, word, child, threshold, todo) => if child == c { VoteKeeps(cfg, h, manual, c, t); }
    case ManualCasting(p, child, threshold) => if child == c { VoteKeeps(cfg, h, manual + {p}, c, p); }
    case _ =>
  }

  lemma VotesKept(cfg: Config, h: Hot, h': Hot, manual: set<Task>, manual': set<Task>, c: Task)
    requires c in cfg.deps && Evolves(cfg, h, h') && manual <= manual'
    requires VotesSound(cfg, h, manual, c) && h'.Votes(c) <= h.Votes(c)
    ensures VotesSound(cfg, h', manual', c)
  {
    forall p | p in h'.Votes(c)
      ensures p in cfg.deps[c] && Warranted(cfg, h', manual', p)
    {
      assert Warranted(cfg, h, manual, p);
    }
  }

  /** Puts the pieces together: only process `id` and the data of `c` may have changed. */
  lemma Assemble(cfg: Config, s: State, s': State, c: Task, who: Option<nat>)
    requires c in cfg.deps && Safe(cfg, s, c) && Evolves(cfg, s.hot, s'.hot) && s.Manual(c) <= s'.Manual(c)
    requires c in s'.regs && RegistrationOk(cfg, s'.hot, s'.Manual(c), c, s'.regs[c])
    requires VotesSound(cfg, s'.hot, s'.Manual(c), c)
    requires s'.hot.DependsOn(c) == s.hot.DependsOn(c) || s'.hot.DependsOn(c) == cfg.deps[c]
    requires forall k :: k in s'.procs && who != Some(k) ==> k in s.procs && s'.procs[k] == s.procs[k]
    requires who.Some? && who.value in s'.procs ==> ProcessOk(cfg, s'.hot, s'.Manual(c), c, s'.procs[who.value])
    requires forall t :: t in s'.notified ==> t in s.notified || Ended(cfg, s'.hot, t)
    ensures Safe(cfg, s', c)
  {
    forall k | k in s'.procs
      ensures ProcessOk(cfg, s'.hot, s'.Manual(c), c, s'.procs[k])
    {
      if who != Some(k) { ProcessKept(cfg, s.hot, s'.hot, s.Manual(c), s'.Manual(c), c, s.procs[k]); }
    }
  }

  /** A step that is none of `c`'s business: status writes, other registrations, new processes. */
  lemma Bystander(cfg: Config, s: State, s': State, c: Task, who: Option<nat>)
    requires c in cfg.deps && Safe(cfg, s, c) && Evolves(cfg, s.hot, s'.hot) && s.Manual(c) <= s'.Manual(c)
    requires c in s'.regs && s'.regs[c] == s.regs[c]
    requires s'.hot.Votes(c) == s.hot.Votes(c) && s'.hot.DependsOn(c) == s.hot.DependsOn(c)
    requires forall k :: k in s'.procs && who != Some(k) ==> k in s.procs && s'.procs[k] == s.procs[k]
    requires who.Some? && who.value in s'.procs ==> ProcessOk(cfg, s'.hot, s'.Manual(c), c, s'.procs[who.value])
    requires s'.notified == s.notified
    ensures Safe(cfg, s', c)
  {
    RegistrationKept(cfg, s.hot, s'.hot, s.Manual(c), s'.Manual(c), c, s.regs[c]);
    VotesKept(cfg, s.hot, s'.hot, s.Manual(c), s'.Manual(c), c);
    Assemble(cfg, s, s', c, who);
  }

  lemma OwnStepSafe(cfg: Config, s: State, c: Task)
    requires cfg.Valid() && c in cfg.deps && Safe(cfg, s, c) && Enabled(cfg, s, Register(c))
    ensures Safe(cfg, Next(cfg, s, Register(c)), c)
  {
    var s' := Next(cfg, s, Register(c));
    WriteKeeps(cfg, s.hot, s.Manual(c), c, s.regs[c]);
    if s.regs[c].phase.Reading? {
      ReadKeeps(cfg, s.hot, s.Manual(c), c, s.regs[c]);
    } else {
      MoveKeeps(cfg, s.hot, s.Manual(c), c, s.regs[c]);
    }
    Assemble(cfg, s, s', c, None);
  }

  lemma OtherStepLeavesAlone(cfg: Config, h: Hot, d: Task, r: Registration, c: Task)
    requires c in cfg.deps && d in cfg.deps && c != d && InRange(cfg.deps[d], r)
    ensures RegisterHot(cfg, h, d, r).Votes(c) == h.Votes(c)
    ensures RegisterHot(cfg, h, d, r).DependsOn(c) == h.DependsOn(c)
  {
  }

  lemma AdvanceSafe(cfg: Config, s: State, id: nat, c: Task)
    requires cfg.Valid() && c in cfg.deps && Safe(cfg, s, c) && id in s.procs
    ensures Safe(cfg, AdvanceStep(cfg, s, id), c)
  {
    var s', q := AdvanceStep(cfg, s, id), s.procs[id];
    ProcessVotesSound(cfg, s.hot, s.Manual(c), c, q);
    if ProcessNext(cfg, s.hot, q).Some? { ProcessStaysOk(cfg, s.hot, s.Manual(c), c, q); }
    RegistrationKept(cfg, s.hot, s'.hot, s.Manual(c), s'.Manual(c), c, s.regs[c]);
    HistoryIrrelevant(cfg, s'.hot, s'.Manual(c), c, s.regs[c], s'.regs[c]);
    Assemble(cfg, s, s', c, Some(id));
  }

  lemma HistoryIrrelevant(cfg: Config, h: Hot, manual: set<Task>, c: Task, r: Registration, r': Registration)
    requires c in cfg.deps && RegistrationOk(cfg, h, manual, c, r)
    requires r' == r.(recent := r'.recent, decs := r'.decs)
    ensures RegistrationOk(cfg, h, manual, c, r')
  {
    forall p | Classified(cfg, h, r, p)
      ensures Classified(cfg, h, r', p)
    {
    }
  }

  /** Every step keeps the safety invariant of every child. */
  lemma StepKeepsSafe(cfg: Config, s: State, step: Step, c: Task)
    requires cfg.Valid() && c in cfg.deps && Safe(cfg, s, c) && Enabled(cfg, s, step)
    ensures Safe(cfg, Next(cfg, s, step), c)
  {
    var s' := Next(cfg, s, step);
    StepEvolves(cfg, s, step);
    match step
    case Register(d) =>
      if d == c {
        OwnStepSafe(cfg, s, c);
      } else {
        OtherStepLeavesAlone(cfg, s.hot, d, s.regs[d], c);
        Bystander(cfg, s, s', c, None);
      }
    case Advance(id) => AdvanceSafe(cfg, s, id, c);
    case Begin(d) =>
      if d != c { Bystander(cfg, s, s', c, None); }
    case Notify(id, t, listing) => Bystander(cfg, s, s', c, Some(id));
    case VoteCancel(id, p, d) => Bystander(cfg, s, s', c, Some(id));
    case Create(t, status, parent) => Bystander(cfg, s, s', c, None);
    case WriteStatus(t, status) => Bystander(cfg, s, s', c, None);
  }

  lemma InitialSafe(cfg: Config, s: State, c: Task)
    requires cfg.Valid() && c in cfg.deps && Initial(cfg, s)
    ensures Safe(cfg, s, c)
  {
  }

  /** A registration changes the status of its own child only, and only by its final cancellation. */
  lemma RegistrationCancels(cfg: Config, h: Hot, d: Task, r: Registration, c: Task)
    requires d in cfg.deps && InRange(cfg.deps[d], r) && RegisterHot(cfg, h, d, r).Status(c) != h.Status(c)
    ensures d == c && r.phase.Closing? && r.triggered
  {
  }

  lemma ProcessCancels(cfg: Config, h: Hot, q: Process, c: Task)
    requires ProcessHot(cfg, h, q).Status(c) != h.Status(c)
    ensures q.AboutToCancel(c)
  {
  }

  /** No wrongful cancellation: the governor changes a child's status only when every
      parent is dead or was voted for by hand. */
  lemma CancelIsWarranted(cfg: Config, s: State, step: Step, c: Task)
    requires cfg.Valid() && c in cfg.deps && Safe(cfg, s, c) && Enabled(cfg, s, step)
    requires step.Begin? || step.Register? || step.Notify? || step.VoteCancel? || step.Advance?
    requires Next(cfg, s, step).hot.Status(c) != s.hot.Status(c)
    ensures AllWarranted(cfg, s.hot, s.Manual(c), c)
  {
    if step.Register? {
      RegistrationCancels(cfg, s.hot, step.c, s.regs[step.c], c);
    } else if step.Advance? {
      ProcessCancels(cfg, s.hot, s.procs[step.id], c);
    }
  }
}
