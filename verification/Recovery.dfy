/** Executions, cancellations, reopenings and re-initializations racing on a
    store that protects terminal statuses. */
module Recovery {
  import opened Common
  import opened Graph
  import opened TaskStatus

  type Task = Node
  type Value = string

  /** The hot record. `generation` stands for the execution id; `result` is present or absent, as a key. */
  datatype Record = Record(status: Status, generation: nat, cancelRequested: bool, result: Option<Value>)

  /** What an update may carry: a status, and a result only together with success. */
  datatype Update = SetQueued | SetRunning | SetCancelled | SetFailed | SetSucceeded(value: Value)

  function NewStatus(u: Update): Status {
    match u
    case SetQueued => Queued
    case SetRunning => Running
    case SetCancelled => Cancelled
    case SetFailed => Failed
    case SetSucceeded(_) => Succeeded
  }

  /** The atomic update: a terminal record accepts no other status; fields are merged. */
  function Updated(r: Record, u: Update): Result<Record, ()> {
    if NewStatus(u) != r.status && IsTerminal(r.status) then Err(())
    else Ok(r.(status := NewStatus(u), result := if u.SetSucceeded? then Some(u.value) else r.result))
  }

  /** A running `execute` or `lifecycle.cancel`, by the storage call it makes next. */
  datatype Process =
    | Guarding(t: Task)
    | Starting(t: Task)
    | Working(t: Task)
    | Returned(t: Task, value: Value)
    | Failing(t: Task)
    | Writing(t: Task, update: Update)
    | Asking(t: Task)
    | Requesting(t: Task)
    | Validating(t: Task)

  /** `born` remembers, for each process, the generation its task was in when the process started, if any;
      `next` is the next generation number to hand out. */
  datatype State = State(tasks: map<Task, Record>, procs: map<nat, Process>, born: map<nat, Option<nat>>, next: nat)

  const INITIAL := State(map[], map[], map[], 0)

  function GenerationOf(tasks: map<Task, Record>, t: Task): Option<nat> {
    if t in tasks then Some(tasks[t].generation) else None
  }

  function Started(s: State, id: nat, q: Process): State {
    s.(procs := s.procs[id := q], born := s.born[id := GenerationOf(s.tasks, q.t)])
  }

  /** How the task body ends, for the step that waits for it. */
  datatype Ending = Returns(value: Value) | Raises | Interrupted

  datatype Step =
    | Initialize(t: Task)
    | Reopen(t: Task)
    | Queue(id: nat, t: Task)
    | Execute(id: nat, t: Task)
    | Cancel(id: nat, t: Task)
    | Advance(id: nat, ending: Ending)
    | Interrupt(id: nat)

  predicate Enabled(s: State, step: Step) {
    match step
    case Initialize(t) => true
    case Reopen(t) => t in s.tasks && IsTerminal(s.tasks[t].status)
    case Queue(id, t) => id !in s.procs && t in s.tasks && CanTransition(s.tasks[t].status, Queued)
    case Execute(id, t) => id !in s.procs
    case Cancel(id, t) => id !in s.procs
    case Advance(id, _) => id in s.procs
    case Interrupt(id) =>
      id in s.procs && (s.procs[id].Guarding? || s.procs[id].Starting? || s.procs[id].Working? || s.procs[id].Returned?)
  }

  function Flagged(s: State, t: Task): bool {
    t in s.tasks && s.tasks[t].cancelRequested
  }

  /** A write that is refused by terminal protection, or finds no record, changes nothing. */
  function Write(tasks: map<Task, Record>, t: Task, u: Update): map<Task, Record> {
    if t in tasks && Updated(tasks[t], u).Ok? then tasks[t := Updated(tasks[t], u).value] else tasks
  }

  function Accepts(tasks: map<Task, Record>, t: Task, u: Update): bool {
    t in tasks && Updated(tasks[t], u).Ok?
  }

  /** The next storage call of a process and what it does afterwards. */
  function Advanced(s: State, id: nat, ending: Ending): State
    requires id in s.procs
  {
    var q := s.procs[id];
    match q
    case Guarding(t) =>
      s.(procs := s.procs[id := if Flagged(s, t) then Writing(t, SetCancelled) else Starting(t)])
    case Starting(t) =>
      s.(tasks := Write(s.tasks, t, SetRunning),
         procs := s.procs[id := if Accepts(s.tasks, t, SetRunning) then Working(t) else Failing(t)])
    case Working(t) =>
      var next := match ending
        case Returns(v) => Returned(t, v)
        case Raises => Failing(t)
        case Interrupted => Writing(t, SetCancelled);
      s.(procs := s.procs[id := next])
    case Returned(t, v) =>
      s.(procs := s.procs[id := Writing(t, if Flagged(s, t) then SetCancelled else SetSucceeded(v))])
    case Failing(t) =>
      s.(procs := s.procs[id := Writing(t, if Flagged(s, t) then SetCancelled else SetFailed)])
    case Writing(t, u) => s.(tasks := Write(s.tasks, t, u), procs := s.procs - {id})
    case Asking(t) =>
      if t in s.tasks && !IsTerminal(s.tasks[t].status)
      then s.(procs := s.procs[id := Requesting(t)]) else s.(procs := s.procs - {id})
    case Requesting(t) =>
      if t in s.tasks
      then s.(tasks := s.tasks[t := s.tasks[t].(cancelRequested := true)], procs := s.procs[id := Validating(t)])
      else s.(procs := s.procs - {id})
    case Validating(t) =>
      if t in s.tasks && CanTransition(s.tasks[t].status, Cancelled)
      then s.(procs := s.procs[id := Writing(t, SetCancelled)]) else s.(procs := s.procs - {id})
  }

  function Next(s: State, step: Step): State
    requires Enabled(s, step)
  {
    match step
    case Initialize(t) =>
      s.(tasks := s.tasks[t := Record(Pending, s.next, false, None)], next := s.next + 1)
    case Reopen(t) =>
      s.(tasks := s.tasks[t := Record(Pending, s.next, false, None)], next := s.next + 1)
    case Queue(id, t) => Started(s, id, Writing(t, SetQueued))
    case Execute(id, t) => Started(s, id, Guarding(t))
    case Cancel(id, t) => Started(s, id, Asking(t))
    case Advance(id, ending) => Advanced(s, id, ending)
    case Interrupt(id) => s.(procs := s.procs[id := Writing(s.procs[id].t, SetCancelled)])
  }

  /** A result is on record only with success, and generations handed out are in the past. */
  ghost predicate Sound(s: State) {
    && (forall t :: t in s.tasks ==>
          (s.tasks[t].result.Some? ==> s.tasks[t].status == Succeeded) && s.tasks[t].generation < s.next)
    && (forall id :: id in s.procs ==> id in s.born && (s.born[id].Some? ==> s.born[id].value < s.next))
  }

  /** What may happen to a record from one state to a later one. */
  ghost predicate Follows(r: Record, r': Record) {
    && r.generation <= r'.generation
    && (r.generation == r'.generation && IsTerminal(r.status) ==> r'.status == r.status)
    && (r.generation == r'.generation && r.result.Some? ==> r'.result.Some?)
  }

  lemma WriteIsSafe(tasks: map<Task, Record>, t: Task, u: Update, x: Task)
    requires x in tasks && (tasks[x].result.Some? ==> tasks[x].status == Succeeded)
    ensures x in Write(tasks, t, u) && Follows(tasks[x], Write(tasks, t, u)[x])
    ensures Write(tasks, t, u)[x].result.Some? ==> Write(tasks, t, u)[x].status == Succeeded
    ensures Write(tasks, t, u)[x].generation == tasks[x].generation
  {
  }

  /** Every step keeps records sound and respects terminal statuses. */
  lemma StepKeepsSound(s: State, step: Step)
    requires Sound(s) && Enabled(s, step)
    ensures Sound(Next(s, step))
    ensures forall t :: t in s.tasks ==> t in Next(s, step).tasks && Follows(s.tasks[t], Next(s, step).tasks[t])
  {
    if step.Advance? {
      var q := s.procs[step.id];
      forall x | x in s.tasks
        ensures x in Next(s, step).tasks && Follows(s.tasks[x], Next(s, step).tasks[x])
        ensures Next(s, step).tasks[x].result.Some? ==> Next(s, step).tasks[x].status == Succeeded
        ensures Next(s, step).tasks[x].generation == s.tasks[x].generation
      {
        if q.Starting? { WriteIsSafe(s.tasks, q.t, SetRunning, x); }
        if q.Writing? { WriteIsSafe(s.tasks, q.t, q.update, x); }
      }
    }
  }

  ghost function Exec(s: State, steps: seq<Step>): Option<State> {
    if steps == [] then Some(s)
    else
      var before, last := Exec(s, steps[..|steps| - 1]), steps[|steps| - 1];
      if before.Some? && Enabled(before.value, last) then Some(Next(before.value, last)) else None
  }

  /** Terminal finality, over every interleaving: as long as a task stays in the same generation, its
      first terminal status stands; and a result is on record only while the status is succeeded. */
  lemma {:induction false} TerminalStatusIsFinal(s: State, steps: seq<Step>, t: Task)
    requires Sound(s) && Exec(s, steps).Some?
    ensures Sound(Exec(s, steps).value)
    ensures t in s.tasks ==>
      var later := Exec(s, steps).value.tasks;
      t in later && Follows(s.tasks[t], later[t])
  {
    if steps != [] {
      var init, last := steps[..|steps| - 1], steps[|steps| - 1];
      TerminalStatusIsFinal(s, init, t);
      StepKeepsSound(Exec(s, init).value, last);
    }
  }

  datatype Decision = Reuse | Rerun

  /** The recovery decision for one node: the latest snapshot claims success and the hot record has a result. */
  function Decide(s: State, snapshot: Option<Status>, reuseWords: set<Status>, t: Task): Decision {
    if snapshot.Some? && snapshot.value in reuseWords && t in s.tasks && s.tasks[t].result.Some? then Reuse else Rerun
  }

  /** Every success has its result on record. */
  ghost predicate Complete(s: State) {
    forall t :: t in s.tasks && s.tasks[t].status == Succeeded ==> s.tasks[t].result.Some?
  }

  lemma StepKeepsComplete(s: State, step: Step)
    requires Complete(s) && Enabled(s, step)
    ensures Complete(Next(s, step))
  {
  }

  lemma {:induction false} RunIsComplete(steps: seq<Step>)
    requires Exec(INITIAL, steps).Some?
    ensures Complete(Exec(INITIAL, steps).value)
  {
    if steps != [] {
      var init, last := steps[..|steps| - 1], steps[|steps| - 1];
      RunIsComplete(init);
      StepKeepsComplete(Exec(INITIAL, init).value, last);
    }
  }

  /** Safe reuse, and no needless rerun: whatever races happened, a node whose snapshot carries a reuse word is reused
      if and only if its current record has succeeded, and no other node is; a reopened node that has not run again
      is rerun. */
  lemma ReuseIffSucceeded(steps: seq<Step>, snapshot: Option<Status>, reuseWords: set<Status>, t: Task)
    requires Exec(INITIAL, steps).Some?
    ensures var s := Exec(INITIAL, steps).value;
      && (Decide(s, snapshot, reuseWords, t) == Reuse <==>
           && snapshot.Some? && snapshot.value in reuseWords
           && t in s.tasks && s.tasks[t].status == Succeeded)
      && (Enabled(s, Reopen(t)) ==> Decide(Next(s, Reopen(t)), snapshot, reuseWords, t) == Rerun)
  {
    TerminalStatusIsFinal(INITIAL, steps, t);
    RunIsComplete(steps);
  }

  // ---------- whose run settles a generation ----------

  /** Some process works on `t`: what the recovery service waits to be over before it reopens. */
  ghost predicate Busy(s: State, t: Task) {
    exists id :: id in s.procs && s.procs[id].t == t
  }

  /** The step gives `t` a new generation. */
  predicate Renews(step: Step, t: Task) {
    (step.Reopen? || step.Initialize?) && step.t == t
  }

  /** In the whole run, `t` is reopened and initialized only when nothing works on it. */
  ghost predicate GuardedRun(s: State, steps: seq<Step>, t: Task) {
    steps != [] ==>
      var init, last := steps[..|steps| - 1], steps[|steps| - 1];
      && GuardedRun(s, init, t)
      && (Exec(s, init).Some? && Renews(last, t) ==> !Busy(Exec(s, init).value, t))
  }

  /** Every process on `t` belongs to the generation `t` is in now. */
  ghost predicate Current(s: State, t: Task) {
    forall id :: id in s.procs && s.procs[id].t == t ==> id in s.born && s.born[id] == GenerationOf(s.tasks, t)
  }

  lemma AdvanceKeepsGenerations(s: State, id: nat, ending: Ending)
    requires id in s.procs
    ensures var s' := Advanced(s, id, ending);
      && (forall t :: GenerationOf(s'.tasks, t) == GenerationOf(s.tasks, t))
      && s'.born == s.born
      && (forall k :: k in s'.procs ==> k in s.procs && s'.procs[k].t == s.procs[k].t)
  {
  }

  lemma StepKeepsCurrent(s: State, step: Step, t: Task)
    requires Current(s, t) && Enabled(s, step) && (Renews(step, t) ==> !Busy(s, t))
    ensures Current(Next(s, step), t)
  {
    if step.Advance? { AdvanceKeepsGenerations(s, step.id, step.ending); }
  }

  lemma {:induction false} GuardedRunKeepsCurrent(steps: seq<Step>, t: Task)
    requires GuardedRun(INITIAL, steps, t) && Exec(INITIAL, steps).Some?
    ensures Current(Exec(INITIAL, steps).value, t)
  {
    if steps != [] {
      var init := steps[..|steps| - 1];
      GuardedRunKeepsCurrent(init, t);
      StepKeepsCurrent(Exec(INITIAL, init).value, steps[|steps| - 1], t);
    }
  }

  /** If a task is reopened and initialized only when nothing works on it, then over every run whatever a process
      changes in its record, it changes in the generation the process was started in. */
  lemma OwnRunSettlesGeneration(steps: seq<Step>, id: nat, ending: Ending, t: Task)
    requires GuardedRun(INITIAL, steps, t) && Exec(INITIAL, steps).Some?
    requires Enabled(Exec(INITIAL, steps).value, Advance(id, ending))
    ensures var s := Exec(INITIAL, steps).value;
      var s' := Next(s, Advance(id, ending));
      t in s.tasks && t in s'.tasks && s'.tasks[t] != s.tasks[t] ==>
        s.procs[id].t == t && id in s.born && s.born[id] == Some(s'.tasks[t].generation)
  {
    GuardedRunKeepsCurrent(steps, t);
  }

  /** An execution or a cancellation, as opposed to a submission on its way to the queue. */
  predicate Settling(q: Process) {
    q.Writing? ==> IsTerminal(NewStatus(q.update))
  }

  /** How many storage calls the process is away from its last write. */
  function CallsLeft(q: Process): nat {
    match q
    case Guarding(_) => 4
    case Starting(_) => 3
    case Working(_) => 2
    case Returned(_, _) => 1
    case Failing(_) => 1
    case Writing(_, _) => 0
    case Asking(_) => 3
    case Requesting(_) => 2
    case Validating(_) => 1
  }

  lemma OneCallNearer(s: State, id: nat, t: Task)
    requires t in s.tasks && !IsTerminal(s.tasks[t].status) && id in s.procs && s.procs[id].t == t
    requires Settling(s.procs[id]) && !s.procs[id].Writing?
    ensures var s' := Advanced(s, id, Raises);
      && t in s'.tasks && !IsTerminal(s'.tasks[t].status) && s'.tasks[t].generation == s.tasks[t].generation
      && id in s'.procs && s'.procs[id].t == t && Settling(s'.procs[id]) && s'.born == s.born
      && CallsLeft(s'.procs[id]) < CallsLeft(s.procs[id])
  {
    TerminalIsStuck(s.tasks[t].status);
  }

  lemma Prepend(s: State, step: Step, steps: seq<Step>)
    requires Enabled(s, step)
    ensures Exec(s, [step] + steps) == Exec(Next(s, step), steps)
  {
    if steps == [] {
      assert [step] + steps == [step] && [step][..0] == [];
    } else {
      var init := steps[..|steps| - 1];
      assert ([step] + steps)[..|steps|] == [step] + init;
      Prepend(s, step, init);
    }
  }

  // ---------- an execution that nothing disturbs ----------

  /** The record such an execution leaves: a terminal one as it was, a flagged one cancelled, and otherwise what the
      body's ending calls for. */
  function Ended(r: Record, ending: Ending): Record {
    if IsTerminal(r.status) then r
    else if r.cancelRequested then r.(status := Cancelled)
    else match ending
      case Returns(v) => r.(status := Succeeded, result := Some(v))
      case Raises => r.(status := Failed)
      case Interrupted => r.(status := Cancelled)
  }

  /** `steps` are the calls of process `id`, which ends with `r` on record for `t`; nothing else changes. */
  ghost predicate EndsWith(s: State, steps: seq<Step>, id: nat, ending: Ending, t: Task, r: Record) {
    && (forall k :: 0 <= k < |steps| ==> steps[k] == Advance(id, ending))
    && Exec(s, steps) == Some(s.(tasks := s.tasks[t := r], procs := s.procs - {id}))
  }

  lemma OneCallMore(s: State, steps: seq<Step>, id: nat, ending: Ending, t: Task, r: Record)
    requires id in s.procs && EndsWith(Advanced(s, id, ending), steps, id, ending, t, r)
    requires var s' := Advanced(s, id, ending);
      && s'.tasks[t := r] == s.tasks[t := r] && s'.procs - {id} == s.procs - {id}
      && s'.born == s.born && s'.next == s.next
    ensures EndsWith(s, [Advance(id, ending)] + steps, id, ending, t, r)
  {
    Prepend(s, Advance(id, ending), steps);
  }

  lemma LastWrite(s: State, id: nat, ending: Ending, t: Task, u: Update) returns (steps: seq<Step>)
    requires t in s.tasks && id in s.procs && s.procs[id] == Writing(t, u)
    ensures var r := s.tasks[t];
      EndsWith(s, steps, id, ending, t, if Updated(r, u).Ok? then Updated(r, u).value else r)
  {
    var r := s.tasks[t];
    var r' := if Updated(r, u).Ok? then Updated(r, u).value else r;
    assert Write(s.tasks, t, u) == s.tasks[t := r'];
    Prepend(s, Advance(id, ending), []);
    steps := [Advance(id, ending)] + [];
  }

  /** Once the body has returned or raised, or was refused, a flag set by then still cancels. */
  lemma BodyOver(s: State, id: nat, ending: Ending, t: Task) returns (steps: seq<Step>)
    requires t in s.tasks && id in s.procs
    requires if IsTerminal(s.tasks[t].status) || ending.Raises? then s.procs[id] == Failing(t)
             else ending.Returns? && s.procs[id] == Returned(t, ending.value)
    ensures EndsWith(s, steps, id, ending, t, Ended(s.tasks[t], ending))
  {
    var s1 := Advanced(s, id, ending);
    steps := LastWrite(s1, id, ending, t, s1.procs[id].update);
    assert s1.procs - {id} == s.procs - {id};
    OneCallMore(s, steps, id, ending, t, Ended(s.tasks[t], ending));
    steps := [Advance(id, ending)] + steps;
  }

  lemma BodyWorks(s: State, id: nat, ending: Ending, t: Task) returns (steps: seq<Step>)
    requires t in s.tasks && id in s.procs && s.procs[id] == Working(t) && !IsTerminal(s.tasks[t].status)
    ensures EndsWith(s, steps, id, ending, t, Ended(s.tasks[t], ending))
  {
    var s1 := Advanced(s, id, ending);
    assert s1.procs - {id} == s.procs - {id};
    if ending.Interrupted? {
      steps := LastWrite(s1, id, ending, t, SetCancelled);
    } else {
      steps := BodyOver(s1, id, ending, t);
    }
    OneCallMore(s, steps, id, ending, t, Ended(s.tasks[t], ending));
    steps := [Advance(id, ending)] + steps;
  }

  lemma BodyStarts(s: State, id: nat, ending: Ending, t: Task) returns (steps: seq<Step>)
    requires t in s.tasks && id in s.procs && s.procs[id] == Starting(t)
    ensures EndsWith(s, steps, id, ending, t, Ended(s.tasks[t], ending))
  {
    var s1, r := Advanced(s, id, ending), s.tasks[t];
    assert s1.procs - {id} == s.procs - {id};
    if IsTerminal(r.status) {
      steps := BodyOver(s1, id, ending, t);
    } else {
      assert s1.tasks == s.tasks[t := r.(status := Running)];
      steps := BodyWorks(s1, id, ending, t);
      assert s1.tasks[t := Ended(r, ending)] == s.tasks[t := Ended(r, ending)];
    }
    OneCallMore(s, steps, id, ending, t, Ended(r, ending));
    steps := [Advance(id, ending)] + steps;
  }

  /** What an execution does when nothing else happens: it leaves a terminal record alone, cancels a flagged one
      without entering the body, and otherwise records success with the value returned, failure or cancellation. */
  lemma UndisturbedExecution(s: State, id: nat, t: Task, ending: Ending) returns (steps: seq<Step>)
    requires t in s.tasks && id !in s.procs
    ensures EndsWith(Next(s, Execute(id, t)), steps, id, ending, t, Ended(s.tasks[t], ending))
  {
    var s0 := Next(s, Execute(id, t));
    var s1 := Advanced(s0, id, ending);
    assert s1.procs - {id} == s0.procs - {id};
    if s.tasks[t].cancelRequested {
      steps := LastWrite(s1, id, ending, t, SetCancelled);
    } else {
      steps := BodyStarts(s1, id, ending, t);
    }
    OneCallMore(s0, steps, id, ending, t, Ended(s.tasks[t], ending));
    steps := [Advance(id, ending)] + steps;
  }

  /** An execution interrupted anywhere before its last write cancels a live record. */
  lemma InterruptedExecution(s: State, id: nat, ending: Ending) returns (steps: seq<Step>)
    requires Enabled(s, Interrupt(id)) && s.procs[id].t in s.tasks
    ensures var t := s.procs[id].t;
      var r := s.tasks[t];
      EndsWith(Next(s, Interrupt(id)), steps, id, ending, t,
               if IsTerminal(r.status) then r else r.(status := Cancelled))
  {
    steps := LastWrite(Next(s, Interrupt(id)), id, ending, s.procs[id].t, SetCancelled);
  }

  /** A submission queues a pending task, and only a pending one can be queued. */
  lemma UndisturbedQueue(s: State, id: nat, t: Task, ending: Ending) returns (steps: seq<Step>)
    requires id !in s.procs && t in s.tasks
    ensures Enabled(s, Queue(id, t)) <==> s.tasks[t].status == Pending
    ensures s.tasks[t].status == Pending ==>
      EndsWith(Next(s, Queue(id, t)), steps, id, ending, t, s.tasks[t].(status := Queued))
  {
    OneStageForward(s.tasks[t].status, Queued);
    steps := [];
    if s.tasks[t].status == Pending { steps := LastWrite(Next(s, Queue(id, t)), id, ending, t, SetQueued); }
  }

  lemma CancelValidates(s: State, id: nat, ending: Ending, t: Task) returns (steps: seq<Step>)
    requires t in s.tasks && id in s.procs && s.procs[id] == Validating(t) && !IsTerminal(s.tasks[t].status)
    ensures EndsWith(s, steps, id, ending, t, s.tasks[t].(status := Cancelled))
  {
    TerminalIsStuck(s.tasks[t].status);
    var s1 := Advanced(s, id, ending);
    assert s1.procs - {id} == s.procs - {id};
    steps := LastWrite(s1, id, ending, t, SetCancelled);
    OneCallMore(s, steps, id, ending, t, s.tasks[t].(status := Cancelled));
    steps := [Advance(id, ending)] + steps;
  }

  lemma CancelRequests(s: State, id: nat, ending: Ending, t: Task) returns (steps: seq<Step>)
    requires t in s.tasks && id in s.procs && s.procs[id] == Requesting(t) && !IsTerminal(s.tasks[t].status)
    ensures EndsWith(s, steps, id, ending, t, s.tasks[t].(status := Cancelled, cancelRequested := true))
  {
    var s1, r := Advanced(s, id, ending), s.tasks[t].(status := Cancelled, cancelRequested := true);
    assert s1.procs - {id} == s.procs - {id};
    steps := CancelValidates(s1, id, ending, t);
    assert s1.tasks[t := r] == s.tasks[t := r];
    OneCallMore(s, steps, id, ending, t, r);
    steps := [Advance(id, ending)] + steps;
  }

  /** What a cancellation does when nothing else happens: it flags and cancels a live record, whatever its status, and
      leaves a terminal one alone. */
  lemma UndisturbedCancel(s: State, id: nat, t: Task, ending: Ending) returns (steps: seq<Step>)
    requires t in s.tasks && id !in s.procs
    ensures var r := s.tasks[t];
      EndsWith(Next(s, Cancel(id, t)), steps, id, ending, t,
               if IsTerminal(r.status) then r else r.(status := Cancelled, cancelRequested := true))
  {
    var s0 := Next(s, Cancel(id, t));
    var s1 := Advanced(s0, id, ending);
    assert s1.procs - {id} == s0.procs - {id};
    if IsTerminal(s.tasks[t].status) {
      Prepend(s0, Advance(id, ending), []);
      assert s0.tasks[t := s.tasks[t]] == s0.tasks;
      steps := [Advance(id, ending)] + [];
    } else {
      steps := CancelRequests(s1, id, ending, t);
      OneCallMore(s0, steps, id, ending, t, s.tasks[t].(status := Cancelled, cancelRequested := true));
      steps := [Advance(id, ending)] + steps;
    }
  }

  /** Left to itself, a process on a live record settles it, whatever generation it was started in. */
  lemma {:induction false} ProcessSettles(s: State, id: nat, t: Task) returns (steps: seq<Step>)
    requires t in s.tasks && !IsTerminal(s.tasks[t].status) && id in s.procs && s.procs[id].t == t
    requires Settling(s.procs[id])
    ensures Exec(s, steps).Some?
    ensures var r := Exec(s, steps).value.tasks;
      t in r && IsTerminal(r[t].status) && r[t].generation == s.tasks[t].generation
    ensures forall k :: 0 <= k < |steps| ==> steps[k] == Advance(id, Raises)
    decreases CallsLeft(s.procs[id])
  {
    var step := Advance(id, Raises);
    var rest := [];
    if !s.procs[id].Writing? {
      OneCallNearer(s, id, t);
      rest := ProcessSettles(Next(s, step), id, t);
    }
    Prepend(s, step, rest);
    steps := [step] + rest;
  }

  /** The guard is exact: reopened or initialized while an execution or a cancellation of it is in flight, a task can
      always have its new generation settled by that process alone, which was started for an older one. */
  lemma OldRunCanSettle(s: State, renewal: Step, id: nat, t: Task) returns (steps: seq<Step>)
    requires Sound(s) && Renews(renewal, t) && Enabled(s, renewal)
    requires id in s.procs && s.procs[id].t == t && Settling(s.procs[id])
    ensures Exec(s, [renewal] + steps).Some?
    ensures var r := Exec(s, [renewal] + steps).value.tasks;
      t in r && IsTerminal(r[t].status) && r[t].generation == s.next && s.born[id] != Some(r[t].generation)
    ensures forall k :: 0 <= k < |steps| ==> steps[k] == Advance(id, Raises)
  {
    steps := ProcessSettles(Next(s, renewal), id, t);
    Prepend(s, renewal, steps);
  }

  // ---------- when a result is final ----------

  /** A process that can still put another result on record: its body has been entered and no cancellation
      was requested, or it is about to write. */
  predicate CanOverwrite(q: Process, t: Task, r: Record) {
    && q.t == t
    && ((q.Working? && !r.cancelRequested)
        || (q.Returned? && !r.cancelRequested && r.result != Some(q.value))
        || (q.Writing? && q.update.SetSucceeded? && r.result != Some(q.update.value)))
  }

  ghost predicate ResultOpen(s: State, t: Task)
    requires t in s.tasks
  {
    exists id :: id in s.procs && CanOverwrite(s.procs[id], t, s.tasks[t])
  }

  /** `t` is in the same generation with the same result, and nothing can change that. */
  ghost predicate ResultClosed(s: State, t: Task, r: Record) {
    && t in s.tasks && s.tasks[t].generation == r.generation && s.tasks[t].result == r.result
    && s.tasks[t].status == Succeeded && !ResultOpen(s, t)
  }

  lemma AdvanceKeepsClosed(s: State, id: nat, ending: Ending, t: Task, r: Record)
    requires id in s.procs && r.result.Some? && ResultClosed(s, t, r)
    ensures ResultClosed(Advanced(s, id, ending), t, r)
  {
    var s' := Advanced(s, id, ending);
    assert !CanOverwrite(s.procs[id], t, s.tasks[t]);
    forall k | k in s'.procs ensures !CanOverwrite(s'.procs[k], t, s'.tasks[t]) {
      assert !CanOverwrite(s.procs[k], t, s.tasks[t]);
    }
  }

  lemma StepKeepsClosed(s: State, step: Step, t: Task, r: Record)
    requires Sound(s) && Enabled(s, step) && r.result.Some? && ResultClosed(s, t, r)
    ensures ResultClosed(Next(s, step), t, r) || Next(s, step).tasks[t].generation > r.generation
  {
    if step.Advance? {
      AdvanceKeepsClosed(s, step.id, step.ending, t, r);
    } else if !((step.Initialize? || step.Reopen?) && step.t == t) {
      var s' := Next(s, step);
      forall k | k in s'.procs ensures !CanOverwrite(s'.procs[k], t, s'.tasks[t]) {
        if k in s.procs { assert !CanOverwrite(s.procs[k], t, s.tasks[t]); }
      }
    }
  }

  /** A result is final in its generation unless some process can still overwrite it ... */
  lemma {:induction false} ResultIsFinal(s: State, steps: seq<Step>, t: Task)
    requires Sound(s) && Exec(s, steps).Some? && t in s.tasks && s.tasks[t].result.Some? && !ResultOpen(s, t)
    ensures Sound(Exec(s, steps).value)
    ensures ResultClosed(Exec(s, steps).value, t, s.tasks[t])
         || (t in Exec(s, steps).value.tasks && Exec(s, steps).value.tasks[t].generation > s.tasks[t].generation)
  {
    if steps != [] {
      var init, last := steps[..|steps| - 1], steps[|steps| - 1];
      ResultIsFinal(s, init, t);
      var s1 := Exec(s, init).value;
      StepKeepsSound(s1, last);
      if ResultClosed(s1, t, s.tasks[t]) { StepKeepsClosed(s1, last, t, s.tasks[t]); }
    }
  }

  /** ... and then it is not: that process alone can replace it. */
  lemma ResultCanChange(s: State, id: nat, t: Task) returns (steps: seq<Step>)
    requires Sound(s) && t in s.tasks && s.tasks[t].result.Some?
    requires id in s.procs && CanOverwrite(s.procs[id], t, s.tasks[t])
    ensures Exec(s, steps).Some?
    ensures var r := Exec(s, steps).value.tasks;
      t in r && r[t].generation == s.tasks[t].generation && r[t].result.Some? && r[t].result != s.tasks[t].result
  {
    var step := Advance(id, Returns(s.tasks[t].result.value + "!"));
    var s1 := Next(s, step);
    Prepend(s, step, []);
    if s.procs[id].Writing? {
      steps := [step];
      assert [step] + [] == [step];
    } else {
      steps := OverwriteFrom(s1, id, t);
      Prepend(s, step, steps);
      steps := [step] + steps;
    }
  }

  lemma OverwriteFrom(s: State, id: nat, t: Task) returns (steps: seq<Step>)
    requires t in s.tasks && s.tasks[t].status == Succeeded && s.tasks[t].result.Some?
    requires id in s.procs && !s.procs[id].Working? && CanOverwrite(s.procs[id], t, s.tasks[t])
    ensures Exec(s, steps).Some?
    ensures var r := Exec(s, steps).value.tasks;
      t in r && r[t].generation == s.tasks[t].generation && r[t].result.Some? && r[t].result != s.tasks[t].result
    decreases CallsLeft(s.procs[id])
  {
    var step := Advance(id, Raises);
    var rest := [];
    if s.procs[id].Returned? { rest := OverwriteFrom(Next(s, step), id, t); }
    Prepend(s, step, rest);
    steps := [step] + rest;
  }

  // ---------- a concrete run ----------

  /** Some run ends in this state. */
  ghost predicate Arises(s: State) {
    exists steps :: Exec(INITIAL, steps) == Some(s)
  }

  lemma Goes(s: State, step: Step, s': State)
    requires Arises(s) && Enabled(s, step) && Next(s, step) == s'
    ensures Arises(s')
  {
    var steps :| Exec(INITIAL, steps) == Some(s);
    assert (steps + [step])[..|steps|] == steps;
    assert Exec(INITIAL, steps + [step]) == Some(s');
  }

  /** Task `t` alone in the store, an execution of it started in generation 0, and perhaps a cancellation. */
  function Only(t: Task, r: Record, procs: map<nat, Process>, cancelled: bool, next: nat): State {
    State(map[t := r], procs, if cancelled then map[0 := Some(0), 1 := Some(0)] else map[0 := Some(0)], next)
  }

  lemma StartedWorking(t: Task)
    ensures Arises(Only(t, Record(Running, 0, false, None), map[0 := Working(t)], false, 1))
  {
    var new0 := Record(Pending, 0, false, None);
    var s1 := State(map[t := new0], map[], map[], 1);
    assert Exec(INITIAL, []) == Some(INITIAL);
    Goes(INITIAL, Initialize(t), s1);
    Goes(s1, Execute(0, t), Only(t, new0, map[0 := Guarding(t)], false, 1));
    Goes(Only(t, new0, map[0 := Guarding(t)], false, 1), Advance(0, Raises),
         Only(t, new0, map[0 := Starting(t)], false, 1));
    Goes(Only(t, new0, map[0 := Starting(t)], false, 1), Advance(0, Raises),
         Only(t, Record(Running, 0, false, None), map[0 := Working(t)], false, 1));
  }

  lemma CancelRequested(t: Task)
    ensures Arises(Only(t, Record(Running, 0, true, None), map[0 := Working(t), 1 := Validating(t)], true, 1))
  {
    var live, flagged := Record(Running, 0, false, None), Record(Running, 0, true, None);
    StartedWorking(t);
    Goes(Only(t, live, map[0 := Working(t)], false, 1), Cancel(1, t),
         Only(t, live, map[0 := Working(t), 1 := Asking(t)], true, 1));
    Goes(Only(t, live, map[0 := Working(t), 1 := Asking(t)], true, 1), Advance(1, Raises),
         Only(t, live, map[0 := Working(t), 1 := Requesting(t)], true, 1));
    Goes(Only(t, live, map[0 := Working(t), 1 := Requesting(t)], true, 1), Advance(1, Raises),
         Only(t, flagged, map[0 := Working(t), 1 := Validating(t)], true, 1));
  }

  /** A run is cancelled from outside while its body is still working. */
  lemma CancelledWhileWorking(t: Task)
    ensures Arises(Only(t, Record(Cancelled, 0, true, None), map[0 := Working(t)], true, 1))
  {
    var flagged := Record(Running, 0, true, None);
    CancelRequested(t);
    Goes(Only(t, flagged, map[0 := Working(t), 1 := Validating(t)], true, 1), Advance(1, Raises),
         Only(t, flagged, map[0 := Working(t), 1 := Writing(t, SetCancelled)], true, 1));
    assert map[0 := Working(t), 1 := Writing(t, SetCancelled)] - {1} == map[0 := Working(t)];
    Goes(Only(t, flagged, map[0 := Working(t), 1 := Writing(t, SetCancelled)], true, 1), Advance(1, Raises),
         Only(t, Record(Cancelled, 0, true, None), map[0 := Working(t)], true, 1));
  }

  /** What finality does not give: a run that outlives the reopening of its task settles the new generation with its
      own result, although it was started for the old one. */
  lemma StaleRunSettlesNewGeneration(t: Task, v: Value) returns (s: State)
    ensures Arises(s) && t in s.tasks && s.tasks[t] == Record(Succeeded, 1, false, Some(v))
    ensures s.procs == map[] && s.born == map[0 := Some(0), 1 := Some(0)]
  {
    CancelledWhileWorking(t);
    var again := Record(Pending, 1, false, None);
    Goes(Only(t, Record(Cancelled, 0, true, None), map[0 := Working(t)], true, 1), Reopen(t),
         Only(t, again, map[0 := Working(t)], true, 2));
    Goes(Only(t, again, map[0 := Working(t)], true, 2), Advance(0, Returns(v)),
         Only(t, again, map[0 := Returned(t, v)], true, 2));
    Goes(Only(t, again, map[0 := Returned(t, v)], true, 2), Advance(0, Raises),
         Only(t, again, map[0 := Writing(t, SetSucceeded(v))], true, 2));
    assert map[0 := Writing(t, SetSucceeded(v))] - {0} == map[];
    s := Only(t, Record(Succeeded, 1, false, Some(v)), map[], true, 2);
    Goes(Only(t, again, map[0 := Writing(t, SetSucceeded(v))], true, 2), Advance(0, Raises), s);
  }
}
