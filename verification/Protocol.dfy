/** Dependency governance as a concurrent protocol. A registration, a terminal
    notification and a manual vote are each a sequence of atomic storage calls;
    any number of them interleave with status writes. */
module Protocol {
  import opened Common
  import opened HotStore

  /** `deps` gives each governed child the (deduplicated) parent list its registrations use. */
  datatype Config = Config(words: Words, cancelWord: string, lifecycle: bool, deps: map<Task, seq<Task>>) {
    ghost predicate Valid() {
      && words.Terminal(cancelWord)
      && forall c :: c in deps ==> deps[c] != [] && NoDup(deps[c]) && c !in deps[c]
    }
  }

  /** Where a registration stands; an index counts the list entries already dealt with. */
  datatype Phase =
    | Idle
    | Reading(i: nat)
    | Adding(i: nat)
    | Voting(i: nat)
    | Writing
    | Setting
    | Checking(i: nat)
    | Compensating(i: nat, word: string)
    | Recasting(i: nat)
    | Closing
    | Done

  /** A registration: what it read, whether one of its votes reached the threshold, and two
      history variables, the votes cast for the child since the registration last began
      (`recent`) and the decrements of its counter since the counter was last set (`decs`). */
  datatype Registration = Registration(
    phase: Phase, counted: seq<Task>, abnormal: seq<Task>, triggered: bool, recent: set<Task>, decs: seq<Task>)
  {
    /** The counter has been set by the current attempt. */
    predicate CounterSet() {
      phase.Checking? || phase.Compensating? || phase.Recasting? || phase.Closing? || phase.Done?
    }
  }

  /** A notification of a terminal task in progress, or a manual vote. */
  datatype Process =
    | Fanout(task: Task, word: string, todo: seq<Task>)
    | Judging(task: Task, word: string, child: Task, todo: seq<Task>)
    | Casting(task: Task, word: string, child: Task, threshold: nat, todo: seq<Task>)
    | Cancelling(task: Task, word: string, child: Task, todo: seq<Task>)
    | Leaving(task: Task)
    | Removing(task: Task, todo: seq<Task>)
    | Clearing(task: Task)
    | ManualCasting(task: Task, child: Task, threshold: nat)
    | ManualCancelling(task: Task, child: Task)
  {
    /** Still notifying children on behalf of a terminal parent. */
    predicate Notifying() {
      Fanout? || Judging? || Casting? || Cancelling?
    }

    predicate AboutToCancel(c: Task) {
      (Cancelling? || ManualCancelling?) && child == c
    }
  }

  /** `notified` are the tasks for which some notification has served all its children;
      `manual` records who voted through `vote_cancel`. */
  datatype State = State(
    hot: Hot,
    regs: map<Task, Registration>,
    procs: map<nat, Process>,
    notified: set<Task>,
    manual: map<Task, set<Task>>)
  {
    function Manual(c: Task): set<Task> {
      if c in manual then manual[c] else {}
    }
  }

  datatype Step =
    | Create(t: Task, status: string, parent: Option<Task>)
    | WriteStatus(t: Task, status: string)
    | Begin(c: Task)
    | Register(c: Task)
    | Notify(id: nat, t: Task, listing: seq<Task>)
    | VoteCancel(id: nat, p: Task, c: Task)
    | Advance(id: nat)

  ghost predicate Initial(cfg: Config, s: State) {
    && s.hot.active == map[] && s.hot.remaining == map[] && s.hot.votes == map[]
    && (forall c :: c in cfg.deps ==> s.hot.DependsOn(c) == [])
    && s.regs == (map c | c in cfg.deps :: Registration(Idle, [], [], false, {}, []))
    && s.procs == map[] && s.notified == {} && s.manual == map[]
  }

  /** A status write respects terminal protection; a notification is for a task already
      terminal; a registration may begin, or begin again, at any time. */
  ghost predicate Enabled(cfg: Config, s: State, step: Step) {
    match step
    case Create(t, status, parent) => t !in s.hot.tasks
    case WriteStatus(t, status) => t in s.hot.tasks && !cfg.words.Terminal(s.hot.Status(t))
    case Begin(c) => c in cfg.deps && c in s.regs && c in s.hot.tasks
    case Register(c) =>
      c in cfg.deps && c in s.regs && !s.regs[c].phase.Idle? && !s.regs[c].phase.Done? &&
      InRange(cfg.deps[c], s.regs[c])
    case Notify(id, t, listing) =>
      id !in s.procs && t in s.hot.tasks && cfg.words.Terminal(s.hot.Status(t)) &&
      NoDup(listing) && Elems(listing) == s.hot.Children(t)
    case VoteCancel(id, p, c) => id !in s.procs
    case Advance(id) => id in s.procs
  }

  predicate InRange(parents: seq<Task>, r: Registration) {
    match r.phase
    case Reading(i) => i <= |parents|
    case Adding(i) => i <= |r.counted|
    case Voting(i) => i <= |r.abnormal|
    case Checking(i) => i <= |r.counted|
    case Compensating(i, _) => i < |r.counted|
    case Recasting(i) => i < |r.counted|
    case _ => true
  }

  /** `lifecycle.cancel`, when a lifecycle is injected: a terminal task is left alone. */
  function Cancel(cfg: Config, h: Hot, c: Task): Hot {
    if cfg.lifecycle && !cfg.words.Terminal(h.Status(c)) then h.WriteStatus(c, cfg.cancelWord) else h
  }

  function Reached(h: Hot, c: Task, threshold: nat): bool {
    |h.Votes(c)| >= threshold
  }

  /** The next storage call of the registration `r` of `c`: its effect on the store ... */
  function RegisterHot(cfg: Config, h: Hot, c: Task, r: Registration): Hot
    requires c in cfg.deps && InRange(cfg.deps[c], r)
  {
    match r.phase
    case Adding(i) => if i < |r.counted| then h.AddChild(r.counted[i], c) else h
    case Voting(i) => if i < |r.abnormal| then h.CastVote(c, r.abnormal[i]) else h
    case Writing => h.WriteDependsOn(c, cfg.deps[c])
    case Setting => h.SetRemaining(c, |r.counted|)
    case Compensating(i, word) => h.Decrement(c)
    case Recasting(i) => h.CastVote(c, r.counted[i])
    case Closing => if r.triggered then Cancel(cfg, h, c) else h
    case _ => h
  }

  /** ... and on the registration, which sees the store `h` it read from or wrote to. */
  function RegisterNext(cfg: Config, h: Hot, c: Task, r: Registration): Registration
    requires c in cfg.deps && InRange(cfg.deps[c], r)
  {
    match r.phase
    case Reading(i) =>
      if i == |cfg.deps[c]| then r.(phase := Adding(0))
      else if cfg.deps[c][i] !in h.tasks then r.(phase := Idle)
      else Classify(cfg, h, r, cfg.deps[c][i]).(phase := Reading(i + 1))
    case Adding(i) => r.(phase := if i == |r.counted| then Voting(0) else Adding(i + 1))
    case Voting(i) =>
      if i == |r.abnormal| then r.(phase := Writing) else OwnVote(cfg, h, c, r, r.abnormal[i]).(phase := Voting(i + 1))
    case Writing => r.(phase := Setting)
    case Setting => r.(phase := Checking(0), decs := [])
    case Checking(i) =>
      if i == |r.counted| then r.(phase := Closing)
      else
        var status := h.Status(r.counted[i]);
        r.(phase := if cfg.words.Terminal(status) then Compensating(i, status) else Checking(i + 1))
    case Compensating(i, word) =>
      r.(phase := if cfg.words.Success(word) then Checking(i + 1) else Recasting(i), decs := r.decs + [r.counted[i]])
    case Recasting(i) => OwnVote(cfg, h, c, r, r.counted[i]).(phase := Checking(i + 1))
    case Closing => r.(phase := Done)
    case _ => r
  }

  /** Running parents are counted, parents that ended without success count as votes. */
  function Classify(cfg: Config, h: Hot, r: Registration, p: Task): Registration {
    var status := h.Status(p);
    if !cfg.words.Terminal(status) then r.(counted := r.counted + [p])
    else if !cfg.words.Success(status) then r.(abnormal := r.abnormal + [p])
    else r
  }

  /** A vote cast by the registration itself; its threshold is the number of parents. */
  function OwnVote(cfg: Config, h: Hot, c: Task, r: Registration, p: Task): Registration
    requires c in cfg.deps
  {
    r.(recent := r.recent + {p}, triggered := r.triggered || Reached(h.CastVote(c, p), c, |cfg.deps[c]|))
  }

  /** The next storage call of process `q`: its effect on the store ... */
  function ProcessHot(cfg: Config, h: Hot, q: Process): Hot {
    match q
    case Fanout(t, word, todo) => if todo == [] then h else h.Decrement(todo[0])
    case Casting(t, word, child, threshold, todo) => h.CastVote(child, t)
    case Cancelling(t, word, child, todo) => Cancel(cfg, h, child)
    case Removing(t, todo) => if todo == [] then h else h.RemoveChild(todo[0], t)
    case Clearing(t) => h.ClearVotes(t)
    case ManualCasting(p, child, threshold) => h.CastVote(child, p)
    case ManualCancelling(p, child) => Cancel(cfg, h, child)
    case _ => h
  }

  /** ... and on the process, which ends when nothing is left to do. */
  function ProcessNext(cfg: Config, h: Hot, q: Process): Option<Process> {
    match q
    case Fanout(t, word, todo) =>
      if todo == [] then Some(Leaving(t))
      else if cfg.words.Success(word) then Some(Fanout(t, word, todo[1..]))
      else Some(Judging(t, word, todo[0], todo[1..]))
    case Judging(t, word, child, todo) =>
      if child in h.tasks && !cfg.words.Terminal(h.Status(child)) && t in h.DependsOn(child)
      then Some(Casting(t, word, child, |h.DependsOn(child)|, todo))
      else Some(Fanout(t, word, todo))
    case Casting(t, word, child, threshold, todo) =>
      if Reached(h.CastVote(child, t), child, threshold)
      then Some(Cancelling(t, word, child, todo))
      else Some(Fanout(t, word, todo))
    case Cancelling(t, word, child, todo) => Some(Fanout(t, word, todo))
    case Leaving(t) => if h.DependsOn(t) == [] then None else Some(Removing(t, h.DependsOn(t)))
    case Removing(t, todo) => if todo == [] then Some(Clearing(t)) else Some(Removing(t, todo[1..]))
    case Clearing(t) => None
    case ManualCasting(p, child, threshold) =>
      if Reached(h.CastVote(child, p), child, threshold) then Some(ManualCancelling(p, child)) else None
    case ManualCancelling(p, child) => None
  }

  /** The history of `c` after process `q` took its next step. */
  function Noted(q: Process, c: Task, r: Registration): Registration {
    match q
    case Fanout(t, word, todo) => if todo != [] && todo[0] == c then r.(decs := r.decs + [t]) else r
    case Casting(t, word, child, threshold, todo) => if child == c then r.(recent := r.recent + {t}) else r
    case ManualCasting(p, child, threshold) => if child == c then r.(recent := r.recent + {p}) else r
    case _ => r
  }

  function AdvanceStep(cfg: Config, s: State, id: nat): State
    requires id in s.procs
  {
    var q := s.procs[id];
    var next := ProcessNext(cfg, s.hot, q);
    State(
      ProcessHot(cfg, s.hot, q),
      map c | c in s.regs :: Noted(q, c, s.regs[c]),
      if next.Some? then s.procs[id := next.value] else s.procs - {id},
      if q.Fanout? && q.todo == [] then s.notified + {q.task} else s.notified,
      if q.ManualCasting? then s.manual[q.child := s.Manual(q.child) + {q.task}] else s.manual)
  }

  function Next(cfg: Config, s: State, step: Step): State
    requires Enabled(cfg, s, step)
  {
    match step
    case Create(t, status, parent) => s.(hot := s.hot.(tasks := s.hot.tasks[t := Record(status, parent, [])]))
    case WriteStatus(t, status) => s.(hot := s.hot.WriteStatus(t, status))
    case Begin(c) => s.(regs := s.regs[c := Registration(Reading(0), [], [], false, {}, s.regs[c].decs)])
    case Register(c) =>
      s.(hot := RegisterHot(cfg, s.hot, c, s.regs[c]), regs := s.regs[c := RegisterNext(cfg, s.hot, c, s.regs[c])])
    case Notify(id, t, listing) => s.(procs := s.procs[id := Fanout(t, s.hot.Status(t), listing)])
    case VoteCancel(id, p, c) =>
      var dependsOn := s.hot.DependsOn(c);
      if c in s.hot.tasks && !cfg.words.Terminal(s.hot.Status(c)) && p in dependsOn
      then s.(procs := s.procs[id := ManualCasting(p, c, |dependsOn|)])
      else s
    case Advance(id) => AdvanceStep(cfg, s, id)
  }
}
