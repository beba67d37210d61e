/** The registration protocol, run without interference, does what the
    registration method does. */
module SoloRun {
  import opened Common
  import opened HotStore
  import opened Protocol
  import opened Governor

  /** A registration's own step. */
  predicate OwnStep(cfg: Config, c: Task, h: Hot, r: Registration, h': Hot, r': Registration)
    requires c in cfg.deps
  {
    && !r.phase.Idle? && !r.phase.Done? && InRange(cfg.deps[c], r)
    && h' == RegisterHot(cfg, h, c, r) && r' == RegisterNext(cfg, h, c, r)
  }

  /** `n` own steps, nothing else in between. */
  ghost predicate Leads(cfg: Config, c: Task, n: nat, h: Hot, r: Registration, h': Hot, r': Registration)
    requires c in cfg.deps
    decreases n
  {
    if n == 0 then h' == h && r' == r
    else exists h1, r1 :: OwnStep(cfg, c, h, r, h1, r1) && Leads(cfg, c, n - 1, h1, r1, h', r')
  }

  /** Running alone, the registration gets from one point to the other. */
  ghost predicate Alone(cfg: Config, c: Task, h: Hot, r: Registration, h': Hot, r': Registration)
    requires c in cfg.deps
  {
    exists n: nat :: Leads(cfg, c, n, h, r, h', r')
  }

  lemma AloneFirst(cfg: Config, c: Task, h: Hot, r: Registration, h1: Hot, r1: Registration, h2: Hot, r2: Registration)
    requires c in cfg.deps && OwnStep(cfg, c, h, r, h1, r1) && Alone(cfg, c, h1, r1, h2, r2)
    ensures Alone(cfg, c, h, r, h2, r2)
  {
    var n: nat :| Leads(cfg, c, n, h1, r1, h2, r2);
    assert Leads(cfg, c, n + 1, h, r, h2, r2);
  }

  lemma AloneOnce(cfg: Config, c: Task, h: Hot, r: Registration, h': Hot, r': Registration)
    requires c in cfg.deps && OwnStep(cfg, c, h, r, h', r')
    ensures Alone(cfg, c, h, r, h', r')
  {
    assert Leads(cfg, c, 0, h', r', h', r');
    AloneFirst(cfg, c, h, r, h', r', h', r');
  }

  lemma {:induction false} LeadsThen(cfg: Config, c: Task, n: nat, h: Hot, r: Registration, h1: Hot, r1: Registration,
                                     h2: Hot, r2: Registration)
    requires c in cfg.deps && Leads(cfg, c, n, h, r, h1, r1) && Alone(cfg, c, h1, r1, h2, r2)
    ensures Alone(cfg, c, h, r, h2, r2)
  {
    if n > 0 {
      var h0, r0 :| OwnStep(cfg, c, h, r, h0, r0) && Leads(cfg, c, n - 1, h0, r0, h1, r1);
      LeadsThen(cfg, c, n - 1, h0, r0, h1, r1, h2, r2);
      AloneFirst(cfg, c, h, r, h0, r0, h2, r2);
    }
  }

  lemma AloneThen(cfg: Config, c: Task, h: Hot, r: Registration, h1: Hot, r1: Registration, h2: Hot, r2: Registration)
    requires c in cfg.deps && Alone(cfg, c, h, r, h1, r1) && Alone(cfg, c, h1, r1, h2, r2)
    ensures Alone(cfg, c, h, r, h2, r2)
  {
    var n: nat :| Leads(cfg, c, n, h, r, h1, r1);
    LeadsThen(cfg, c, n, h, r, h1, r1, h2, r2);
  }

  /** The registration once its parents are classified. */
  function Classified(cfg: Config, c: Task, h: Hot, r: Registration, phase: Phase): Registration
    requires c in cfg.deps && forall p :: p in cfg.deps[c] ==> p in h.tasks
  {
    r.(phase := phase, counted := Running(cfg.words, h, cfg.deps[c]), abnormal := Abnormal(cfg.words, h, cfg.deps[c]))
  }

  lemma {:induction false} ReadAll(cfg: Config, c: Task, h: Hot, r: Registration, i: nat)
    requires c in cfg.deps && i <= |cfg.deps[c]| && r.phase == Reading(i)
    requires forall p :: p in cfg.deps[c] ==> p in h.tasks
    requires r.counted == Running(cfg.words, h, cfg.deps[c][..i]) &&
      r.abnormal == Abnormal(cfg.words, h, cfg.deps[c][..i])
    ensures Alone(cfg, c, h, r, h, Classified(cfg, c, h, r, Adding(0)))
    decreases |cfg.deps[c]| - i
  {
    var parents := cfg.deps[c];
    var r' := RegisterNext(cfg, h, c, r);
    if i == |parents| {
      assert parents[..i] == parents;
      AloneOnce(cfg, c, h, r, h, r');
    } else {
      assert parents[..i + 1][..i] == parents[..i];
      assert r'.phase == Reading(i + 1);
      ReadAll(cfg, c, h, r', i + 1);
      AloneFirst(cfg, c, h, r, h, r', h, Classified(cfg, c, h, r, Adding(0)));
    }
  }

  /** The active children after the first `i` running parents. */
  ghost predicate AddedSoFar(c: Task, h0: Hot, h: Hot, r: Registration, i: nat)
    requires i <= |r.counted|
  {
    h == h0.(active := Joined(h0.active, Elems(r.counted[..i]), c))
  }

  lemma AddStep(cfg: Config, c: Task, h0: Hot, h: Hot, r: Registration, i: nat)
    requires c in cfg.deps && i < |r.counted| && r.phase == Adding(i) && AddedSoFar(c, h0, h, r, i)
    ensures AddedSoFar(c, h0, RegisterHot(cfg, h, c, r), r, i + 1)
    ensures RegisterNext(cfg, h, c, r) == r.(phase := Adding(i + 1))
  {
    JoinOneMore(h, h0.active, Elems(r.counted[..i]), r.counted[i], c);
    ElemsOneMore(r.counted, i);
  }

  lemma {:induction false} AddAll(cfg: Config, c: Task, h0: Hot, h: Hot, r: Registration, i: nat) returns (h': Hot)
    requires c in cfg.deps && i <= |r.counted| && r.phase == Adding(i) && AddedSoFar(c, h0, h, r, i)
    ensures AddedSoFar(c, h0, h', r, |r.counted|)
    ensures Alone(cfg, c, h, r, h', r.(phase := Voting(0)))
    decreases |r.counted| - i
  {
    if i == |r.counted| {
      h' := h;
      AloneOnce(cfg, c, h, r, h, r.(phase := Voting(0)));
    } else {
      AddStep(cfg, c, h0, h, r, i);
      var h1, r1 := RegisterHot(cfg, h, c, r), r.(phase := Adding(i + 1));
      h' := AddAll(cfg, c, h0, h1, r1, i + 1);
      AloneFirst(cfg, c, h, r, h1, r1, h', r.(phase := Voting(0)));
    }
  }

  /** The votes and the trigger after the first `i` abnormal parents. */
  ghost predicate VotedSoFar(cfg: Config, c: Task, h0: Hot, h: Hot, r: Registration, i: nat)
    requires c in cfg.deps && i <= |r.abnormal|
  {
    && h == h0.(votes := Voted(h0.votes, c, Elems(r.abnormal[..i])))
    && (r.triggered <==> i > 0 && |h0.Votes(c) + Elems(r.abnormal[..i])| >= |cfg.deps[c]|)
  }

  lemma VoteStep(cfg: Config, c: Task, h0: Hot, h: Hot, r: Registration, i: nat)
    requires c in cfg.deps && i < |r.abnormal| && r.phase == Voting(i) && VotedSoFar(cfg, c, h0, h, r, i)
    ensures var r' := RegisterNext(cfg, h, c, r);
      && r'.phase == Voting(i + 1) && r'.counted == r.counted && r'.abnormal == r.abnormal
      && VotedSoFar(cfg, c, h0, RegisterHot(cfg, h, c, r), r', i + 1)
  {
    var voters, p := Elems(r.abnormal[..i]), r.abnormal[i];
    ElemsOneMore(r.abnormal, i);
    VoteOneMore(h, h0.votes, c, voters, p);
    assert h.CastVote(c, p).Votes(c) == h0.Votes(c) + Elems(r.abnormal[..i + 1]);
    CardSubset(h0.Votes(c) + voters, h0.Votes(c) + Elems(r.abnormal[..i + 1]));
  }

  lemma {:induction false} VoteAll(cfg: Config, c: Task, h0: Hot, h: Hot, r: Registration, i: nat)
    returns (h': Hot, r': Registration)
    requires c in cfg.deps && i <= |r.abnormal| && r.phase == Voting(i) && VotedSoFar(cfg, c, h0, h, r, i)
    ensures Alone(cfg, c, h, r, h', r')
    ensures r'.phase == Voting(|r.abnormal|) && r'.counted == r.counted && r'.abnormal == r.abnormal
    ensures VotedSoFar(cfg, c, h0, h', r', |r.abnormal|)
    decreases |r.abnormal| - i
  {
    if i == |r.abnormal| {
      h', r' := h, r;
      assert Leads(cfg, c, 0, h, r, h', r');
    } else {
      VoteStep(cfg, c, h0, h, r, i);
      var h1, r1 := RegisterHot(cfg, h, c, r), RegisterNext(cfg, h, c, r);
      h', r' := VoteAll(cfg, c, h0, h1, r1, i + 1);
      AloneFirst(cfg, c, h, r, h1, r1, h', r');
    }
  }

  lemma {:induction false} CheckAll(cfg: Config, c: Task, h: Hot, r: Registration, i: nat)
    requires c in cfg.deps && i <= |r.counted| && r.phase == Checking(i)
    requires forall k :: 0 <= k < |r.counted| ==> !cfg.words.Terminal(h.Status(r.counted[k]))
    ensures Alone(cfg, c, h, r, h, r.(phase := Closing))
    decreases |r.counted| - i
  {
    var r' := RegisterNext(cfg, h, c, r);
    if i == |r.counted| {
      AloneOnce(cfg, c, h, r, h, r');
    } else {
      CheckAll(cfg, c, h, r', i + 1);
      AloneFirst(cfg, c, h, r, h, r', h, r.(phase := Closing));
    }
  }

  lemma WriteAndSet(cfg: Config, c: Task, h: Hot, r: Registration)
    requires c in cfg.deps && r.phase == Voting(|r.abnormal|)
    ensures Alone(cfg, c, h, r, h.WriteDependsOn(c, cfg.deps[c]).SetRemaining(c, |r.counted|),
                  r.(phase := Checking(0), decs := []))
  {
    var r0 := r.(phase := Writing);
    var h1, r1 := h.WriteDependsOn(c, cfg.deps[c]), r.(phase := Setting);
    var h2, r2 := h1.SetRemaining(c, |r.counted|), r.(phase := Checking(0), decs := []);
    AloneOnce(cfg, c, h1, r1, h2, r2);
    AloneFirst(cfg, c, h, r0, h1, r1, h2, r2);
    AloneFirst(cfg, c, h, r, h, r0, h2, r2);
  }

  /** Reading the parents and joining the running ones. */
  lemma SoloJoins(cfg: Config, c: Task, h: Hot, r: Registration)
    requires c in cfg.deps && (forall p :: p in cfg.deps[c] ==> p in h.tasks)
    requires r.phase == Reading(0) && r.counted == [] && r.abnormal == []
    ensures Alone(cfg, c, h, r, h.(active := Joined(h.active, Elems(Running(cfg.words, h, cfg.deps[c])), c)),
                  Classified(cfg, c, h, r, Voting(0)))
  {
    assert cfg.deps[c][..0] == [];
    ReadAll(cfg, c, h, r, 0);
    var r1 := Classified(cfg, c, h, r, Adding(0));
    assert r1.counted[..0] == [] && Joined(h.active, {}, c) == h.active;
    var h1 := AddAll(cfg, c, h, h, r1, 0);
    assert r1.counted[..|r1.counted|] == r1.counted;
    AloneThen(cfg, c, h, r, h, r1, h.(active := Joined(h.active, Elems(r1.counted), c)), r1.(phase := Voting(0)));
  }

  /** Casting the votes and writing `depends_on` and the counter. */
  lemma SoloRecords(cfg: Config, c: Task, h: Hot, r: Registration) returns (r': Registration)
    requires c in cfg.deps && r.phase == Voting(0) && !r.triggered
    ensures Alone(cfg, c, h, r,
      h.(votes := Voted(h.votes, c, Elems(r.abnormal))).WriteDependsOn(c, cfg.deps[c]).SetRemaining(c, |r.counted|), r')
    ensures r'.phase == Checking(0) && r'.counted == r.counted
    ensures r'.triggered <==> r.abnormal != [] && |h.Votes(c) + Elems(r.abnormal)| >= |cfg.deps[c]|
  {
    assert r.abnormal[..0] == [];
    var h1, r1 := VoteAll(cfg, c, h, h, r, 0);
    assert r.abnormal[..|r.abnormal|] == r.abnormal;
    WriteAndSet(cfg, c, h1, r1);
    r' := r1.(phase := Checking(0), decs := []);
    AloneThen(cfg, c, h, r, h1, r1, h1.WriteDependsOn(c, cfg.deps[c]).SetRemaining(c, |r1.counted|), r');
  }

  /** From the beginning to the last write. */
  lemma SoloWrites(cfg: Config, c: Task, h: Hot, r: Registration) returns (r': Registration)
    requires c in cfg.deps && c in h.tasks && (forall p :: p in cfg.deps[c] ==> p in h.tasks)
    requires r.phase == Reading(0) && r.counted == [] && r.abnormal == [] && !r.triggered
    ensures Alone(cfg, c, h, r, Registered(cfg.words, h, c, cfg.deps[c]), r')
    ensures r'.phase == Checking(0) && r'.counted == Running(cfg.words, h, cfg.deps[c])
    ensures r'.triggered <==> Triggered(cfg.words, h, c, cfg.deps[c])
  {
    SoloJoins(cfg, c, h, r);
    var h1 := h.(active := Joined(h.active, Elems(Running(cfg.words, h, cfg.deps[c])), c));
    var r1 := Classified(cfg, c, h, r, Voting(0));
    r' := SoloRecords(cfg, c, h1, r1);
    AloneThen(cfg, c, h, r, h1, r1, Registered(cfg.words, h, c, cfg.deps[c]), r');
  }

  lemma SoloChecks(cfg: Config, c: Task, h: Hot, h1: Hot, r1: Registration)
    requires cfg.Valid() && c in cfg.deps && c in h.tasks && (forall p :: p in cfg.deps[c] ==> p in h.tasks)
    requires h1 == Registered(cfg.words, h, c, cfg.deps[c])
    requires r1.phase == Checking(0) && r1.counted == Running(cfg.words, h, cfg.deps[c])
    ensures Alone(cfg, c, h1, r1, h1, r1.(phase := Closing))
  {
    forall k | 0 <= k < |r1.counted|
      ensures !cfg.words.Terminal(h1.Status(r1.counted[k]))
    {
      CountedRuns(cfg.words, h, c, cfg.deps[c], r1.counted[k]);
    }
    CheckAll(cfg, c, h1, r1, 0);
  }

  lemma CountedRuns(w: Words, h: Hot, child: Task, parents: seq<Task>, p: Task)
    requires child in h.tasks && p in Running(w, h, parents)
    ensures !w.Terminal(Registered(w, h, child, parents).Status(p))
  {
    RunningExact(w, h, parents);
  }

  /** The calls by which the re-check deals with one counted parent. */
  lemma RecheckParent(cfg: Config, c: Task, h: Hot, r: Registration, i: nat) returns (h': Hot, r': Registration)
    requires c in cfg.deps && i < |r.counted| && r.phase == Checking(i)
    ensures Alone(cfg, c, h, r, h', r')
    ensures h' == RecheckedOne(cfg.words, h, c, r.counted[i])
    ensures r'.phase == Checking(i + 1) && r'.counted == r.counted
    ensures r'.triggered <==> r.triggered || Hits(cfg.words, h, c, r.counted[i], |cfg.deps[c]|)
  {
    var p := r.counted[i];
    var status, r1 := h.Status(p), RegisterNext(cfg, h, c, r);
    AloneOnce(cfg, c, h, r, h, r1);
    if !cfg.words.Terminal(status) {
      h', r' := h, r1;
    } else {
      var h2, r2 := h.Decrement(c), RegisterNext(cfg, h, c, r1);
      AloneOnce(cfg, c, h, r1, h2, r2);
      AloneThen(cfg, c, h, r, h, r1, h2, r2);
      h', r' := h2, r2;
      if !cfg.words.Success(status) {
        h', r' := h2.CastVote(c, p), RegisterNext(cfg, h2, c, r2);
        AloneOnce(cfg, c, h2, r2, h', r');
        AloneThen(cfg, c, h, r, h2, r2, h', r');
      }
    }
  }

  lemma {:induction false} RecheckFrom(cfg: Config, c: Task, h0: Hot, h: Hot, r: Registration, i: nat, before: bool,
                                       hit: bool) returns (h': Hot, r': Registration)
    requires c in cfg.deps && i <= |r.counted| && r.phase == Checking(i)
    requires RecheckedTo(cfg.words, h0, c, r.counted, i, h, hit, |cfg.deps[c]|) && (r.triggered <==> before || hit)
    ensures Alone(cfg, c, h, r, h', r')
    ensures h' == Rechecked(cfg.words, h0, c, r.counted)
    ensures r'.phase.Closing? && r'.counted == r.counted
    ensures var voters := Elems(Abnormal(cfg.words, h0, r.counted));
      r'.triggered <==> before || Full(h0.Votes(c), voters, |cfg.deps[c]|)
    decreases |r.counted| - i
  {
    if i == |r.counted| {
      assert r.counted[..i] == r.counted;
      h', r' := h, RegisterNext(cfg, h, c, r);
      AloneOnce(cfg, c, h, r, h', r');
    } else {
      RecheckStep(cfg.words, h0, c, r.counted, i, h, hit, |cfg.deps[c]|);
      var h1, r1 := RecheckParent(cfg, c, h, r, i);
      var hit' := hit || Hits(cfg.words, h, c, r.counted[i], |cfg.deps[c]|);
      h', r' := RecheckFrom(cfg, c, h0, h1, r1, i + 1, before, hit');
      AloneThen(cfg, c, h, r, h1, r1, h', r');
    }
  }

  /** The protocol's re-check, left to itself, does what `Recheck` does, whichever of the counted parents have ended by
      then: one decrement for each, one vote for each without success. */
  lemma SoloRecheck(cfg: Config, c: Task, h: Hot, r: Registration) returns (r': Registration)
    requires c in cfg.deps && r.phase == Checking(0)
    ensures Alone(cfg, c, h, r, Rechecked(cfg.words, h, c, r.counted), r')
    ensures r'.phase.Closing? && r'.counted == r.counted
    ensures var voters := Elems(Abnormal(cfg.words, h, r.counted));
      r'.triggered <==> r.triggered || Full(h.Votes(c), voters, |cfg.deps[c]|)
  {
    NothingRechecked(cfg.words, h, c, r.counted, |cfg.deps[c]|);
    var h';
    h', r' := RecheckFrom(cfg, c, h, h, r, 0, r.triggered, false);
  }

  /** A registration that runs alone ends with the store that `RegisterDependency` leaves. */
  lemma SoloRegistration(cfg: Config, c: Task, h: Hot, r: Registration) returns (r': Registration)
    requires cfg.Valid() && c in cfg.deps && c in h.tasks && (forall p :: p in cfg.deps[c] ==> p in h.tasks)
    requires r.phase == Reading(0) && r.counted == [] && r.abnormal == [] && !r.triggered
    ensures r'.phase.Done?
    ensures var lifecycle := if cfg.lifecycle then Some(cfg.cancelWord) else None;
      Alone(cfg, c, h, r, Settled(cfg.words, lifecycle, h, c, cfg.deps[c]), r')
  {
    var h1 := Registered(cfg.words, h, c, cfg.deps[c]);
    var r1 := SoloWrites(cfg, c, h, r);
    SoloChecks(cfg, c, h, h1, r1);
    r' := r1.(phase := Done);
    var h2 := if r1.triggered then Cancel(cfg, h1, c) else h1;
    AloneOnce(cfg, c, h1, r1.(phase := Closing), h2, r');
    AloneThen(cfg, c, h1, r1, h1, r1.(phase := Closing), h2, r');
    AloneThen(cfg, c, h, r, h1, r1, h2, r');
  }
}
