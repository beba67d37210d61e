/** The task state machine. */
module TaskStatus {

  datatype Status = Pending | Queued | Running | Succeeded | Failed | Cancelled

  /** The transition table. */
  function Allowed(s: Status): set<Status> {
    match s
    case Pending => {Queued, Cancelled}
    case Queued => {Running, Cancelled}
    case Running => {Succeeded, Failed, Cancelled}
    case Succeeded => {}
    case Failed => {}
    case Cancelled => {}
  }

  predicate CanTransition(from: Status, to: Status) {
    to in Allowed(from)
  }

  predicate IsTerminal(s: Status) {
    s in {Succeeded, Failed, Cancelled}
  }

  /** Terminal is the same as having nowhere to go, and every other status can be cancelled at once. */
  lemma TerminalIsStuck(s: Status)
    ensures IsTerminal(s) <==> Allowed(s) == {}
    ensures !IsTerminal(s) <==> CanTransition(s, Cancelled)
  {
    if !IsTerminal(s) { assert Cancelled in Allowed(s); }
  }

  /** How far a task has come: submitted, queued, running, ended. */
  function Stage(s: Status): nat {
    match s
    case Pending => 0
    case Queued => 1
    case Running => 2
    case _ => 3
  }

  /** A task moves one stage forward at a time, or is cancelled, until it has ended; nothing else is allowed. */
  lemma OneStageForward(s: Status, next: Status)
    ensures CanTransition(s, next) <==> Stage(s) < 3 && (next == Cancelled || Stage(next) == Stage(s) + 1)
    ensures IsTerminal(s) <==> Stage(s) == 3
  {
  }
}
