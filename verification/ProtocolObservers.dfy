/** Which votes observe that the cancellation threshold is reached. */
module ProtocolObservers {
  import opened Common
  import opened HotStore
  import opened Protocol
  import opened ProtocolSafety
  import opened ProtocolTheorems
  import Overlap = ProtocolOverlap

  /** A vote: who casts it, and the threshold it is compared with. */
  datatype Vote = Vote(voter: Task, threshold: nat)

  function RegistrationVote(cfg: Config, c: Task, r: Registration): Option<Vote>
    requires c in cfg.deps
  {
    match r.phase
    case Voting(i) => if i < |r.abnormal| then Some(Vote(r.abnormal[i], |cfg.deps[c]|)) else None
    case Recasting(i) => if i < |r.counted| then Some(Vote(r.counted[i], |cfg.deps[c]|)) else None
    case _ => None
  }

  function ProcessVote(c: Task, q: Process): Option<Vote> {
    if (q.Casting? || q.ManualCasting?) && q.child == c then Some(Vote(q.task, q.threshold)) else None
  }

  /** The vote that a step casts for `c`, if it casts one. */
  function VoteOf(cfg: Config, s: State, step: Step, c: Task): Option<Vote>
    requires c in cfg.deps
  {
    match step
    case Register(d) => if d == c && c in s.regs then RegistrationVote(cfg, c, s.regs[c]) else None
    case Advance(id) => if id in s.procs then ProcessVote(c, s.procs[id]) else None
    case _ => None
  }

  /** The step clears the votes of `c`. */
  predicate Clears(s: State, step: Step, c: Task) {
    step.Advance? && step.id in s.procs && s.procs[step.id] == Clearing(c)
  }

  /** The step casts a vote for `c` and is told that the threshold is reached. */
  predicate Observes(cfg: Config, s: State, step: Step, c: Task)
    requires c in cfg.deps
  {
    var v := VoteOf(cfg, s, step, c);
    v.Some? && Reached(s.hot.CastVote(c, v.value.voter), c, v.value.threshold)
  }

  /** Every declared parent has voted. */
  predicate Complete(cfg: Config, h: Hot, c: Task)
    requires c in cfg.deps
  {
    Elems(cfg.deps[c]) <= h.Votes(c)
  }

  lemma RegistrationVotes(cfg: Config, h: Hot, d: Task, r: Registration, c: Task)
    requires c in cfg.deps && d in cfg.deps && InRange(cfg.deps[d], r) && (d == c ==> ListsOk(cfg, h, c, r))
    ensures var v := if d == c then RegistrationVote(cfg, c, r) else None;
      var votes' := RegisterHot(cfg, h, d, r).Votes(c);
      if v.Some?
      then v.value.voter in cfg.deps[c] && v.value.threshold == |cfg.deps[c]| && votes' == h.Votes(c) + {v.value.voter}
      else votes' == h.Votes(c)
  {
    if d == c {
      if r.phase.Voting? && r.phase.i < |r.abnormal| { assert r.abnormal[r.phase.i] in r.abnormal; }
      if r.phase.Recasting? { assert r.counted[r.phase.i] in r.counted; }
    }
  }

  lemma ProcessVotes(cfg: Config, h: Hot, manual: set<Task>, c: Task, q: Process)
    requires c in cfg.deps && ProcessOk(cfg, h, manual, c, q)
    ensures var v, votes' := ProcessVote(c, q), ProcessHot(cfg, h, q).Votes(c);
      if v.Some?
      then v.value.voter in cfg.deps[c] && v.value.threshold == |cfg.deps[c]| && votes' == h.Votes(c) + {v.value.voter}
      else votes' == if q == Clearing(c) then {} else h.Votes(c)
  {
  }

  /** Votes come from declared parents and are compared with their number; they are the only way to gain votes,
      and clearing the only way to lose them. */
  lemma VotesMove(cfg: Config, s: State, step: Step, c: Task)
    requires cfg.Valid() && c in cfg.deps && Safe(cfg, s, c) && Enabled(cfg, s, step)
    ensures var v := VoteOf(cfg, s, step, c);
      var votes, votes' := s.hot.Votes(c), Next(cfg, s, step).hot.Votes(c);
      && (v.Some? ==>
            && v.value.voter in cfg.deps[c] && v.value.threshold == |cfg.deps[c]|
            && votes' == votes + {v.value.voter})
      && (Clears(s, step, c) ==> v.None? && votes' == {})
      && (v.None? && !Clears(s, step, c) ==> votes' == votes)
  {
    if step.Register? {
      RegistrationVotes(cfg, s.hot, step.c, s.regs[step.c], c);
    } else if step.Advance? {
      ProcessVotes(cfg, s.hot, s.Manual(c), c, s.procs[step.id]);
    }
  }

  /** On a sound ballot, a vote by `p` observes the threshold if and only if all other parents have voted; and the
      ballot was not complete before if and only if `p` had not voted yet. */
  lemma ObservesIff(cfg: Config, s: State, step: Step, c: Task)
    requires cfg.Valid() && c in cfg.deps && Safe(cfg, s, c) && Enabled(cfg, s, step)
    requires VoteOf(cfg, s, step, c).Some?
    ensures var p := VoteOf(cfg, s, step, c).value.voter;
      && (Observes(cfg, s, step, c) <==> Elems(cfg.deps[c]) - {p} <= s.hot.Votes(c))
      && (Observes(cfg, s, step, c) && !Complete(cfg, s.hot, c)
          <==> Elems(cfg.deps[c]) - {p} <= s.hot.Votes(c) && p !in s.hot.Votes(c))
  {
    VotesMove(cfg, s, step, c);
    var p, all, votes := VoteOf(cfg, s, step, c).value.voter, Elems(cfg.deps[c]), s.hot.Votes(c);
    assert votes <= all && p in all;
    FullHouse(cfg.deps[c], votes + {p});
  }

  lemma FullHouse(parents: seq<Task>, votes: set<Task>)
    requires NoDup(parents) && votes <= Elems(parents)
    ensures |votes| >= |parents| <==> Elems(parents) <= votes
  {
    CardElems(parents);
    CardSubset(votes, Elems(parents));
    if Elems(parents) <= votes { assert votes == Elems(parents); }
  }

  // ---------- over whole runs ----------

  /** Who has voted for `c`, in order, since its votes were last cleared. */
  ghost function Voters(cfg: Config, s: State, steps: seq<Step>, c: Task): seq<Task>
    requires c in cfg.deps && Exec(cfg, s, steps).Some?
  {
    if steps == [] then []
    else
      var init, last := steps[..|steps| - 1], steps[|steps| - 1];
      var now := Exec(cfg, s, init).value;
      var v := VoteOf(cfg, now, last, c);
      if Clears(now, last, c) then []
      else Voters(cfg, s, init, c) + if v.Some? then [v.value.voter] else []
  }

  /** How many of these votes observed the threshold. */
  ghost function Observed(cfg: Config, s: State, steps: seq<Step>, c: Task): nat
    requires c in cfg.deps && Exec(cfg, s, steps).Some?
  {
    if steps == [] then 0
    else
      var init, last := steps[..|steps| - 1], steps[|steps| - 1];
      var now := Exec(cfg, s, init).value;
      if Clears(now, last, c) then 0
      else Observed(cfg, s, init, c) + if Observes(cfg, now, last, c) then 1 else 0
  }

  /** How many of these votes were cast when the ballot was complete already. */
  ghost function Late(cfg: Config, s: State, steps: seq<Step>, c: Task): nat
    requires c in cfg.deps && Exec(cfg, s, steps).Some?
  {
    if steps == [] then 0
    else
      var init, last := steps[..|steps| - 1], steps[|steps| - 1];
      var now := Exec(cfg, s, init).value;
      if Clears(now, last, c) then 0
      else Late(cfg, s, init, c) + if VoteOf(cfg, now, last, c).Some? && Complete(cfg, now.hot, c) then 1 else 0
  }

  /** The vote that completes a ballot and every later one observe the threshold, and no other vote does. */
  lemma {:induction false} ObserversCounted(cfg: Config, s: State, steps: seq<Step>, c: Task)
    requires cfg.Valid() && c in cfg.deps && Initial(cfg, s) && Exec(cfg, s, steps).Some?
    ensures Observed(cfg, s, steps, c)
         == if Complete(cfg, Exec(cfg, s, steps).value.hot, c) then 1 + Late(cfg, s, steps, c) else 0
    ensures !Complete(cfg, Exec(cfg, s, steps).value.hot, c) ==> Late(cfg, s, steps, c) == 0
  {
    assert cfg.deps[c][0] in Elems(cfg.deps[c]);
    if steps != [] {
      var init, last := steps[..|steps| - 1], steps[|steps| - 1];
      ObserversCounted(cfg, s, init, c);
      RunIsSafe(cfg, s, init, c);
      var now := Exec(cfg, s, init).value;
      VotesMove(cfg, now, last, c);
      if VoteOf(cfg, now, last, c).Some? { ObservesIff(cfg, now, last, c); }
    }
  }

  /** In every run, at most one vote of a ballot observes the threshold if and only if no vote is cast on the ballot
      after it is complete; and then one does as soon as it is complete. */
  lemma OneObserverIff(cfg: Config, s: State, steps: seq<Step>, c: Task)
    requires cfg.Valid() && c in cfg.deps && Initial(cfg, s) && Exec(cfg, s, steps).Some?
    ensures Observed(cfg, s, steps, c) <= 1 <==> Late(cfg, s, steps, c) == 0
    ensures Late(cfg, s, steps, c) == 0 ==>
      (Observed(cfg, s, steps, c) == 1 <==> Complete(cfg, Exec(cfg, s, steps).value.hot, c))
  {
    ObserversCounted(cfg, s, steps, c);
  }

  /** Distinct voters: when no parent votes twice, nobody votes late, so exactly the completing vote observes. */
  lemma {:induction false} DistinctVotersAreNotLate(cfg: Config, s: State, steps: seq<Step>, c: Task)
    requires cfg.Valid() && c in cfg.deps && Initial(cfg, s) && Exec(cfg, s, steps).Some?
    ensures Elems(Voters(cfg, s, steps, c)) == Exec(cfg, s, steps).value.hot.Votes(c)
    ensures NoDup(Voters(cfg, s, steps, c)) ==> Late(cfg, s, steps, c) == 0
  {
    if steps != [] {
      var init, last := steps[..|steps| - 1], steps[|steps| - 1];
      DistinctVotersAreNotLate(cfg, s, init, c);
      RunIsSafe(cfg, s, init, c);
      var now := Exec(cfg, s, init).value;
      VotesMove(cfg, now, last, c);
      var v := VoteOf(cfg, now, last, c);
      var voters := Voters(cfg, s, init, c);
      if v.Some? {
        VoterOneMore(voters, v.value.voter);
        assert Complete(cfg, now.hot, c) ==> v.value.voter in Elems(voters);
      } else {
        assert voters + [] == voters;
      }
    }
  }

  lemma VoterOneMore(voters: seq<Task>, p: Task)
    ensures Elems(voters + [p]) == Elems(voters) + {p}
    ensures NoDup(voters + [p]) ==> NoDup(voters) && p !in voters
  {
    if NoDup(voters + [p]) { LastIsFresh(voters, p); }
  }

  // ---------- a run with two observers ----------

  /** Three votes on the way, the last two by the same parent. */
  function ThreeVotes(h: Hot, n: nat): State {
    var a, b := ManualCasting(Overlap.FIRST, Overlap.CHILD, 2), ManualCasting(Overlap.SECOND, Overlap.CHILD, 2);
    Overlap.Moment(h, Overlap.Reg(Setting, Overlap.BOTH, []),
      if n == 0 then map[] else if n == 1 then map[0 := a] else if n == 2 then map[0 := a, 1 := b]
      else map[0 := a, 1 := b, 2 := b])
  }

  lemma VotesStart(h: Hot, n: nat)
    requires h == Overlap.Store("running", Overlap.BOTH, Overlap.LISTED, map[]) && n <= 3
    ensures Overlap.Arises(ThreeVotes(h, n))
    decreases n
  {
    if n == 0 {
      Overlap.Declares(h);
    } else {
      VotesStart(h, n - 1);
      var p := if n == 1 then Overlap.FIRST else Overlap.SECOND;
      assert Overlap.BOTH[0] == Overlap.FIRST && Overlap.BOTH[1] == Overlap.SECOND;
      assert p in h.DependsOn(Overlap.CHILD) && h.Status(Overlap.CHILD) == "pending";
      Overlap.Goes(ThreeVotes(h, n - 1), VoteCancel(n - 1, p, Overlap.CHILD), ThreeVotes(h, n));
    }
  }

  /** Two overlapping votes by the same parent: both are told that the threshold is reached. */
  lemma TwoVotesObserve() returns (s: State)
    ensures Overlap.Arises(s)
    ensures Enabled(Overlap.EARLY, s, Advance(1)) && Observes(Overlap.EARLY, s, Advance(1), Overlap.CHILD)
    ensures var s' := Next(Overlap.EARLY, s, Advance(1));
      Enabled(Overlap.EARLY, s', Advance(2)) && Observes(Overlap.EARLY, s', Advance(2), Overlap.CHILD)
  {
    var h := Overlap.Store("running", Overlap.BOTH, Overlap.LISTED, map[]);
    VotesStart(h, 3);
    s := Next(Overlap.EARLY, ThreeVotes(h, 3), Advance(0));
    Overlap.Goes(ThreeVotes(h, 3), Advance(0), s);
    FirstVoteCast(h, s);
    LastTwoObserve(s);
  }

  lemma FirstVoteCast(h: Hot, s: State)
    requires h == Overlap.Store("running", Overlap.BOTH, Overlap.LISTED, map[])
    requires s == AdvanceStep(Overlap.EARLY, ThreeVotes(h, 3), 0)
    ensures s.hot.Votes(Overlap.CHILD) == {Overlap.FIRST} && 1 in s.procs && 2 in s.procs
    ensures s.procs[1] == s.procs[2] == ManualCasting(Overlap.SECOND, Overlap.CHILD, 2)
  {
    assert |{Overlap.FIRST}| == 1;
  }

  lemma LastTwoObserve(s: State)
    requires s.hot.Votes(Overlap.CHILD) == {Overlap.FIRST} && 1 in s.procs && 2 in s.procs
    requires s.procs[1] == s.procs[2] == ManualCasting(Overlap.SECOND, Overlap.CHILD, 2)
    ensures Observes(Overlap.EARLY, s, Advance(1), Overlap.CHILD)
    ensures var s' := Next(Overlap.EARLY, s, Advance(1));
      Enabled(Overlap.EARLY, s', Advance(2)) && Observes(Overlap.EARLY, s', Advance(2), Overlap.CHILD)
  {
    assert |{Overlap.FIRST} + {Overlap.SECOND}| == 2;
    assert {Overlap.FIRST} + {Overlap.SECOND} + {Overlap.SECOND} == {Overlap.FIRST} + {Overlap.SECOND};
  }
}
