/** Why readiness is exact in calm runs only: a run in which a parent ends while its child registers. */
module ProtocolOverlap {
  import opened Common
  import opened Graph
  import opened HotStore
  import opened Protocol
  import opened ProtocolSafety
  import opened ProtocolReadiness
  import opened ProtocolTheorems

  const CHILD := Node("child")
  const FIRST := Node("first")
  const SECOND := Node("second")

  const EARLY := Config(
    Words({"succeeded"}, {"succeeded", "failed", "cancelled"}), "cancelled", true, map[CHILD := [FIRST, SECOND]])

  const BOTH: seq<Task> := [FIRST, SECOND]

  const LISTED: map<Task, set<Task>> := map[FIRST := {CHILD}, SECOND := {CHILD}]

  /** The store during the run below: the first parent's status, the child's record and the collections. */
  function Store(first: string, dependsOn: seq<Task>, active: map<Task, set<Task>>, remaining: map<Task, int>): Hot {
    Hot(map[CHILD := Record("pending", None, dependsOn), FIRST := Record(first, None, []),
            SECOND := Record("running", None, [])], active, remaining, map[])
  }

  function Reg(phase: Phase, counted: seq<Task>, decs: seq<Task>): Registration {
    Registration(phase, counted, [], false, {}, decs)
  }

  function Moment(h: Hot, r: Registration, procs: map<nat, Process>): State {
    State(h, map[CHILD := r], procs, {}, map[])
  }

  /** Some run ends in this state. */
  ghost predicate Arises(s: State) {
    exists s0: State, steps: seq<Step> :: Initial(EARLY, s0) && Exec(EARLY, s0, steps) == Some(s)
  }

  lemma Goes(s: State, step: Step, s': State)
    requires Arises(s) && Enabled(EARLY, s, step) && Next(EARLY, s, step) == s'
    ensures Arises(s')
  {
    var s0: State, steps: seq<Step> :| Initial(EARLY, s0) && Exec(EARLY, s0, steps) == Some(s);
    assert (steps + [step])[..|steps|] == steps;
    assert Exec(EARLY, s0, steps + [step]) == Some(s');
  }

  lemma Registers(h: Hot, r: Registration, h': Hot, r': Registration)
    requires Arises(Moment(h, r, map[])) && !r.phase.Idle? && !r.phase.Done? && InRange(BOTH, r)
    requires h' == RegisterHot(EARLY, h, CHILD, r) && r' == RegisterNext(EARLY, h, CHILD, r)
    ensures Arises(Moment(h', r', map[]))
  {
    Goes(Moment(h, r, map[]), Register(CHILD), Moment(h', r', map[]));
  }

  lemma Begins(h: Hot)
    requires h == Store("running", [], map[], map[])
    ensures Arises(Moment(h, Reg(Reading(0), [], []), map[]))
  {
    var s0 := Moment(h, Reg(Idle, [], []), map[]);
    assert Exec(EARLY, s0, []) == Some(s0);
    Goes(s0, Begin(CHILD), Moment(h, Reg(Reading(0), [], []), map[]));
  }

  lemma Reads(h: Hot)
    requires h == Store("running", [], map[], map[])
    ensures Arises(Moment(h, Reg(Adding(0), BOTH, []), map[]))
  {
    Begins(h);
    assert BOTH[0] == FIRST && [] + [FIRST] == [FIRST] && BOTH[1] == SECOND && [FIRST] + [SECOND] == BOTH;
    Registers(h, Reg(Reading(0), [], []), h, Reg(Reading(1), [FIRST], []));
    Registers(h, Reg(Reading(1), [FIRST], []), h, Reg(Reading(2), BOTH, []));
    Registers(h, Reg(Reading(2), BOTH, []), h, Reg(Adding(0), BOTH, []));
  }

  lemma Lists(h: Hot)
    requires h == Store("running", [], LISTED, map[])
    ensures Arises(Moment(h, Reg(Voting(0), BOTH, []), map[]))
  {
    var h0, h1 := Store("running", [], map[], map[]), Store("running", [], map[FIRST := {CHILD}], map[]);
    Reads(h0);
    var none: set<Task> := {};
    assert none + {CHILD} == {CHILD};
    Registers(h0, Reg(Adding(0), BOTH, []), h1, Reg(Adding(1), BOTH, []));
    Registers(h1, Reg(Adding(1), BOTH, []), h, Reg(Adding(2), BOTH, []));
    Registers(h, Reg(Adding(2), BOTH, []), h, Reg(Voting(0), BOTH, []));
  }

  lemma HasNoVotes(h: Hot)
    requires h == Store("running", [], LISTED, map[])
    ensures Arises(Moment(h, Reg(Writing, BOTH, []), map[]))
  {
    Lists(h);
    Registers(h, Reg(Voting(0), BOTH, []), h, Reg(Writing, BOTH, []));
  }

  lemma Declares(h: Hot)
    requires h == Store("running", BOTH, LISTED, map[])
    ensures Arises(Moment(h, Reg(Setting, BOTH, []), map[]))
  {
    var h0 := Store("running", [], LISTED, map[]);
    HasNoVotes(h0);
    assert h.tasks == h0.WriteDependsOn(CHILD, BOTH).tasks;
    Registers(h0, Reg(Writing, BOTH, []), h, Reg(Setting, BOTH, []));
  }

  lemma Counts(h: Hot)
    requires h == Store("running", BOTH, LISTED, map[CHILD := 2])
    ensures Arises(Moment(h, Reg(Checking(0), BOTH, []), map[]))
  {
    var h0 := Store("running", BOTH, LISTED, map[]);
    Declares(h0);
    Registers(h0, Reg(Setting, BOTH, []), h, Reg(Checking(0), BOTH, []));
  }

  lemma FirstEnds(h: Hot)
    requires h == Store("succeeded", BOTH, LISTED, map[CHILD := 2])
    ensures Arises(Moment(h, Reg(Checking(0), BOTH, []), map[]))
  {
    var h0 := Store("running", BOTH, LISTED, map[CHILD := 2]);
    Counts(h0);
    assert h.tasks == h0.WriteStatus(FIRST, "succeeded").tasks;
    Goes(Moment(h0, Reg(Checking(0), BOTH, []), map[]), WriteStatus(FIRST, "succeeded"),
         Moment(h, Reg(Checking(0), BOTH, []), map[]));
  }

  lemma NoticesEnd(h: Hot)
    requires h == Store("succeeded", BOTH, LISTED, map[CHILD := 2])
    ensures Arises(Moment(h, Reg(Compensating(0, "succeeded"), BOTH, []), map[]))
  {
    FirstEnds(h);
    assert BOTH[0] == FIRST;
    Registers(h, Reg(Checking(0), BOTH, []), h, Reg(Compensating(0, "succeeded"), BOTH, []));
  }

  /** The first parent has ended before the re-check reaches it, which then compensates for it. */
  lemma Compensates(h: Hot)
    requires h == Store("succeeded", BOTH, LISTED, map[CHILD := 1])
    ensures Arises(Moment(h, Reg(Checking(1), BOTH, [FIRST]), map[]))
  {
    var h0 := Store("succeeded", BOTH, LISTED, map[CHILD := 2]);
    NoticesEnd(h0);
    assert BOTH[0] == FIRST && [] + [FIRST] == [FIRST];
    Registers(h0, Reg(Compensating(0, "succeeded"), BOTH, []), h, Reg(Checking(1), BOTH, [FIRST]));
  }

  lemma Closes(h: Hot)
    requires h == Store("succeeded", BOTH, LISTED, map[CHILD := 1])
    ensures Arises(Moment(h, Reg(Done, BOTH, [FIRST]), map[]))
  {
    Compensates(h);
    assert h.Status(BOTH[1]) == "running";
    Registers(h, Reg(Checking(1), BOTH, [FIRST]), h, Reg(Checking(2), BOTH, [FIRST]));
    Registers(h, Reg(Checking(2), BOTH, [FIRST]), h, Reg(Closing, BOTH, [FIRST]));
    Registers(h, Reg(Closing, BOTH, [FIRST]), h, Reg(Done, BOTH, [FIRST]));
  }

  /** The notification decrements for the same parent once more. */
  lemma Notifies(h: Hot)
    requires h == Store("succeeded", BOTH, LISTED, map[CHILD := 0])
    ensures Arises(Moment(h, Reg(Done, BOTH, [FIRST] + [FIRST]), map[0 := Fanout(FIRST, "succeeded", [])]))
  {
    var h0 := Store("succeeded", BOTH, LISTED, map[CHILD := 1]);
    Closes(h0);
    assert Elems([CHILD]) == {CHILD};
    var a, b := Moment(h0, Reg(Done, BOTH, [FIRST]), map[]),
      Moment(h0, Reg(Done, BOTH, [FIRST]), map[0 := Fanout(FIRST, "succeeded", [CHILD])]);
    Goes(a, Notify(0, FIRST, [CHILD]), b);
    SecondDecrement(h0, h, b);
    Goes(b, Advance(0), Moment(h, Reg(Done, BOTH, [FIRST] + [FIRST]), map[0 := Fanout(FIRST, "succeeded", [])]));
  }

  lemma SecondDecrement(h0: Hot, h: Hot, b: State)
    requires h0 == Store("succeeded", BOTH, LISTED, map[CHILD := 1]) &&
      h == Store("succeeded", BOTH, LISTED, map[CHILD := 0])
    requires b == Moment(h0, Reg(Done, BOTH, [FIRST]), map[0 := Fanout(FIRST, "succeeded", [CHILD])])
    ensures AdvanceStep(EARLY, b, 0)
         == Moment(h, Reg(Done, BOTH, [FIRST] + [FIRST]), map[0 := Fanout(FIRST, "succeeded", [])])
  {
    assert [CHILD][1..] == [];
    var s' := AdvanceStep(EARLY, b, 0);
    assert s'.regs == map[CHILD := Reg(Done, BOTH, [FIRST] + [FIRST])];
    assert s'.procs == map[0 := Fanout(FIRST, "succeeded", [])] && s'.hot == h;
  }

  /** A parent that ends while the child registers is decremented for twice, once by the re-check and once
      by its notification, and the child is reported ready while the other parent runs. */
  lemma OverlapReportsTooEarly() returns (s: State)
    ensures EARLY.Valid() && Arises(s)
    ensures ReportedReady(s.hot, CHILD, "pending") && SECOND in EARLY.deps[CHILD] && !Ended(EARLY, s.hot, SECOND)
  {
    var h := Store("succeeded", BOTH, LISTED, map[CHILD := 0]);
    s := Moment(h, Reg(Done, BOTH, [FIRST] + [FIRST]), map[0 := Fanout(FIRST, "succeeded", [])]);
    Notifies(h);
    assert EARLY.deps[CHILD][1] == SECOND;
  }
}
