/** The in-memory task store as an object, and the uninterrupted form of
    dependency registration over it. */
module Governor {
  import opened Common
  import opened HotStore
  import opened Lineage

  /** Running parents: each is counted and gets the child among its active children. */
  function Running(w: Words, h: Hot, parents: seq<Task>): seq<Task> {
    if parents == [] then []
    else
      var rest, p := Running(w, h, parents[..|parents| - 1]), parents[|parents| - 1];
      if w.Terminal(h.Status(p)) then rest else rest + [p]
  }

  /** Parents that ended without success: each counts as a vote already cast. */
  function Abnormal(w: Words, h: Hot, parents: seq<Task>): seq<Task> {
    if parents == [] then []
    else
      var rest, p := Abnormal(w, h, parents[..|parents| - 1]), parents[|parents| - 1];
      if w.Terminal(h.Status(p)) && !w.Success(h.Status(p)) then rest + [p] else rest
  }

  lemma {:induction false} RunningExact(w: Words, h: Hot, parents: seq<Task>)
    ensures forall p :: p in Running(w, h, parents) <==> p in parents && !w.Terminal(h.Status(p))
    ensures NoDup(parents) ==> NoDup(Running(w, h, parents))
  {
    if parents != [] {
      var init, p := parents[..|parents| - 1], parents[|parents| - 1];
      RunningExact(w, h, init);
      assert parents == init + [p];
      if NoDup(parents) { LastIsFresh(init, p); }
    }
  }

  lemma {:induction false} AbnormalExact(w: Words, h: Hot, parents: seq<Task>)
    ensures forall p :: p in Abnormal(w, h, parents) <==>
      p in parents && w.Terminal(h.Status(p)) && !w.Success(h.Status(p))
    ensures NoDup(parents) ==> NoDup(Abnormal(w, h, parents))
  {
    if parents != [] {
      var init, p := parents[..|parents| - 1], parents[|parents| - 1];
      AbnormalExact(w, h, init);
      assert parents == init + [p];
      if NoDup(parents) { LastIsFresh(init, p); }
    }
  }

  /** `child` joins the active children of every task in `parents`. */
  function Joined(active: map<Task, set<Task>>, parents: set<Task>, child: Task): map<Task, set<Task>> {
    map p | p in active.Keys + parents ::
      if p !in parents then active[p] else if p in active then active[p] + {child} else {child}
  }

  /** `child` receives the votes of all of `voters`. */
  function Voted(votes: map<Task, set<Task>>, child: Task, voters: set<Task>): map<Task, set<Task>> {
    if voters == {} then votes else votes[child := (if child in votes then votes[child] else {}) + voters]
  }

  /** Whether the votes cast at registration reach the threshold. */
  predicate Triggered(w: Words, h: Hot, child: Task, parents: seq<Task>) {
    Abnormal(w, h, parents) != [] && |h.Votes(child) + Elems(Abnormal(w, h, parents))| >= |parents|
  }

  /** The store after an uninterrupted registration, before any cancellation. */
  function Registered(w: Words, h: Hot, child: Task, parents: seq<Task>): Hot
    requires child in h.tasks
  {
    Hot(h.tasks[child := h.tasks[child].(dependsOn := parents)],
        Joined(h.active, Elems(Running(w, h, parents)), child),
        h.remaining[child := |Running(w, h, parents)|],
        Voted(h.votes, child, Elems(Abnormal(w, h, parents))))
  }

  /** The store after an uninterrupted registration, with the cancellation that complete votes trigger. */
  function Settled(w: Words, lifecycle: Option<string>, h: Hot, child: Task, parents: seq<Task>): Hot
    requires child in h.tasks
  {
    var h' := Registered(w, h, child, parents);
    if Triggered(w, h, child, parents) && lifecycle.Some? && !w.Terminal(h'.Status(child))
    then h'.WriteStatus(child, lifecycle.value) else h'
  }

  /** `p` has ended without success. */
  predicate Fails(w: Words, h: Hot, p: Task) {
    w.Terminal(h.Status(p)) && !w.Success(h.Status(p))
  }

  /** No declared parent is left that could still let `child` run: each has ended without success or voted earlier,
      and at least one has ended so. */
  predicate Doomed(w: Words, h: Hot, child: Task, declared: seq<Task>) {
    && (exists p :: p in declared && Fails(w, h, p))
    && forall p :: p in declared ==> Fails(w, h, p) || p in h.Votes(child)
  }

  lemma FullCount(parents: seq<Task>, voters: set<Task>)
    requires NoDup(parents) && voters <= Elems(parents)
    ensures |voters| >= |parents| <==> forall p :: p in parents ==> p in voters
  {
    CardElems(parents);
    CardSubset(voters, Elems(parents));
    if forall p :: p in parents ==> p in voters { assert voters == Elems(parents); }
  }

  lemma SomeFails(w: Words, h: Hot, parents: seq<Task>)
    ensures Abnormal(w, h, parents) != [] <==> exists p :: p in parents && Fails(w, h, p)
    ensures forall p :: p in Elems(Abnormal(w, h, parents)) <==> p in parents && Fails(w, h, p)
  {
    AbnormalExact(w, h, parents);
    if Abnormal(w, h, parents) != [] { SomeMember(Abnormal(w, h, parents)); }
  }

  /** Where only parents have voted, the count of votes reaches the number of parents exactly when all have. */
  lemma TriggeredIff(w: Words, h: Hot, child: Task, parents: seq<Task>)
    requires NoDup(parents) && h.Votes(child) <= Elems(parents)
    ensures Triggered(w, h, child, parents) <==> Doomed(w, h, child, parents)
  {
    SomeFails(w, h, parents);
    FullCount(parents, h.Votes(child) + Elems(Abnormal(w, h, parents)));
  }

  lemma DedupedTriggerIff(w: Words, h: Hot, child: Task, declared: seq<Task>)
    requires h.Votes(child) <= Elems(declared)
    ensures Triggered(w, h, child, Dedupe(declared)) <==> Doomed(w, h, child, declared)
  {
    var parents := Dedupe(declared);
    assert Elems(parents) == Elems(declared);
    TriggeredIff(w, h, child, parents);
    assert Doomed(w, h, child, parents) <==> Doomed(w, h, child, declared);
  }

  lemma SettledStatus(w: Words, lifecycle: Option<string>, h: Hot, child: Task, parents: seq<Task>, t: Task)
    requires child in h.tasks
    ensures Settled(w, lifecycle, h, child, parents).Status(t) ==
      if t == child && Triggered(w, h, child, parents) && lifecycle.Some? && !w.Terminal(h.Status(child))
      then lifecycle.value else h.Status(t)
  {
  }

  lemma DoomedWithoutVotes(w: Words, h: Hot, child: Task, declared: seq<Task>)
    requires h.Votes(child) == {} && declared != []
    ensures Doomed(w, h, child, declared) <==> forall p :: p in declared ==> Fails(w, h, p)
  {
    assert declared[0] in declared;
  }

  /** A registration writes the lifecycle's status to a live child exactly when no declared parent can still let it
      run; without earlier votes, when every one of them has ended without success. No other status changes. */
  lemma RegistrationCancelsIff(w: Words, lifecycle: Option<string>, h: Hot, child: Task, declared: seq<Task>)
    requires child in h.tasks && h.Votes(child) <= Elems(declared)
    ensures var h', live := Settled(w, lifecycle, h, child, Dedupe(declared)), !w.Terminal(h.Status(child));
      && h'.Status(child) == (if live && lifecycle.Some? && Doomed(w, h, child, declared)
                              then lifecycle.value else h.Status(child))
      && forall t :: t != child ==> h'.Status(t) == h.Status(t)
    ensures h.Votes(child) == {} && declared != [] ==>
      (Doomed(w, h, child, declared) <==> forall p :: p in declared ==> Fails(w, h, p))
  {
    DedupedTriggerIff(w, h, child, declared);
    if h.Votes(child) == {} && declared != [] { DoomedWithoutVotes(w, h, child, declared); }
    var h' := Settled(w, lifecycle, h, child, Dedupe(declared));
    forall t ensures h'.Status(t) == if t == child then h'.Status(child) else h.Status(t) {
      SettledStatus(w, lifecycle, h, child, Dedupe(declared), t);
    }
    SettledStatus(w, lifecycle, h, child, Dedupe(declared), child);
  }

  predicate Known(tasks: map<Task, Record>, child: Task, declared: seq<Task>) {
    child in tasks && forall p :: p in declared ==> p in tasks
  }

  /** Keeps the first occurrence of each parent. */
  function Dedupe(parents: seq<Task>): (r: seq<Task>)
    ensures NoDup(r) && forall p :: p in r <==> p in parents
  {
    if parents == [] then []
    else
      var init, p := Dedupe(parents[..|parents| - 1]), parents[|parents| - 1];
      assert forall x :: x in parents <==> x in parents[..|parents| - 1] || x == p;
      if p in init then init else init + [p]
  }

  class TaskStorage {
    var tasks: map<Task, Record>
    var active: map<Task, set<Task>>
    var remaining: map<Task, int>
    var votes: map<Task, set<Task>>

    constructor ()
      ensures View() == Hot(map[], map[], map[], map[])
    {
      tasks, active, remaining, votes := map[], map[], map[], map[];
    }

    function View(): Hot
      reads this
    {
      Hot(tasks, active, remaining, votes)
    }

    method SaddActiveChild(parent: Task, child: Task)
      modifies this`active
      ensures View() == old(View()).AddChild(parent, child)
    {
      var known := if parent in active then active[parent] else {};
      active := active[parent := known + {child}];
    }

    method SetRemainingDeps(child: Task, n: int)
      modifies this`remaining
      ensures View() == old(View()).SetRemaining(child, n)
    {
      remaining := remaining[child := n];
    }

    method DecrRemainingDeps(child: Task) returns (value: int)
      modifies this`remaining
      ensures View() == old(View()).Decrement(child) && value == View().Remaining(child)
    {
      value := (if child in remaining then remaining[child] else 0) - 1;
      remaining := remaining[child := value];
    }

    method VoteAndCheckThreshold(child: Task, parent: Task, threshold: nat) returns (reached: bool)
      modifies this`votes
      ensures View() == old(View()).CastVote(child, parent)
      ensures reached == (|View().Votes(child)| >= threshold)
    {
      var cast := (if child in votes then votes[child] else {}) + {parent};
      votes := votes[child := cast];
      reached := |cast| >= threshold;
    }

    method UpdateDependsOn(child: Task, parents: seq<Task>)
      modifies this`tasks
      ensures View() == old(View()).WriteDependsOn(child, parents)
    {
      if child in tasks { tasks := tasks[child := tasks[child].(dependsOn := parents)]; }
    }

    method UpdateStatus(t: Task, status: string)
      modifies this`tasks
      ensures View() == old(View()).WriteStatus(t, status)
    {
      if t in tasks { tasks := tasks[t := tasks[t].(status := status)]; }
    }

    /** The tasks whose counter exists, is at or below zero, and whose status is the one asked for. */
    method ListReadyDepTasks(status: string) returns (ready: set<Task>)
      ensures forall t :: t in ready <==>
        t in remaining && remaining[t] <= 0 && t in tasks && tasks[t].status == status
    {
      ready := {};
      var todo := remaining.Keys;
      while todo != {}
        invariant todo <= remaining.Keys
        invariant forall t :: t in ready <==>
          t in remaining && t !in todo && remaining[t] <= 0 && t in tasks && tasks[t].status == status
      {
        var t :| t in todo;
        todo := todo - {t};
        if remaining[t] <= 0 && t in tasks && tasks[t].status == status { ready := ready + {t}; }
      }
    }
  }

  lemma VoteOneMore(h: Hot, votes: map<Task, set<Task>>, child: Task, voters: set<Task>, p: Task)
    requires h.votes == Voted(votes, child, voters)
    ensures h.CastVote(child, p).votes == Voted(votes, child, voters + {p})
    ensures h.CastVote(child, p).Votes(child) == (if child in votes then votes[child] else {}) + (voters + {p})
  {
    var before := if child in votes then votes[child] else {};
    assert h.Votes(child) + {p} == before + (voters + {p});
  }

  lemma JoinOneMore(h: Hot, active: map<Task, set<Task>>, parents: set<Task>, p: Task, child: Task)
    requires h.active == Joined(active, parents, child)
    ensures h.AddChild(p, child).active == Joined(active, parents + {p}, child)
  {
    var a, b := h.AddChild(p, child).active, Joined(active, parents + {p}, child);
    forall x | x in b
      ensures x in a && a[x] == b[x]
    {
      if x == p { assert h.Children(p) + {child} == b[p]; }
    }
  }

  /** The effect of the post-write re-check: one decrement per counted parent
      that has ended meanwhile, one vote per such parent without success. */
  function Rechecked(w: Words, h: Hot, child: Task, counted: seq<Task>): Hot {
    Adjusted(h, child, |counted| - |Running(w, h, counted)|, Elems(Abnormal(w, h, counted)))
  }

  /** `n` decrements and the votes of `voters`. */
  function Adjusted(h: Hot, child: Task, n: int, voters: set<Task>): Hot {
    h.(remaining := if n == 0 then h.remaining else h.remaining[child := h.Remaining(child) - n],
       votes := Voted(h.votes, child, voters))
  }

  lemma AdjustOneMore(h: Hot, child: Task, n: nat, voters: set<Task>, p: Task)
    ensures Adjusted(h, child, n, voters).Decrement(child) == Adjusted(h, child, n + 1, voters)
    ensures Adjusted(h, child, n, voters).Decrement(child).CastVote(child, p) ==
      Adjusted(h, child, n + 1, voters + {p})
  {
    VoteOneMore(Adjusted(h, child, n + 1, voters), h.votes, child, voters, p);
  }

  /** Re-checking one parent. */
  function RecheckedOne(w: Words, h: Hot, child: Task, p: Task): Hot {
    if !w.Terminal(h.Status(p)) then h
    else if w.Success(h.Status(p)) then h.Decrement(child)
    else h.Decrement(child).CastVote(child, p)
  }

  lemma RecheckedOneAdjusts(w: Words, h: Hot, child: Task, n: nat, voters: set<Task>, p: Task)
    ensures RecheckedOne(w, Adjusted(h, child, n, voters), child, p) ==
      if !w.Terminal(h.Status(p)) then Adjusted(h, child, n, voters)
      else if w.Success(h.Status(p)) then Adjusted(h, child, n + 1, voters)
      else Adjusted(h, child, n + 1, voters + {p})
  {
    AdjustOneMore(h, child, n, voters, p);
  }

  lemma TripOneMore(h: Hot, child: Task, n: nat, voters: set<Task>, p: Task)
    ensures Adjusted(h, child, n, voters).Votes(child) + {p} == h.Votes(child) + (voters + {p})
  {
  }

  /** The state of the re-check after `i` of the counted parents. */
  ghost predicate RecheckedTo(w: Words, h: Hot, child: Task, counted: seq<Task>, i: nat, now: Hot, triggered: bool,
                              threshold: nat)
    requires i <= |counted|
  {
    var n, voters := i - |Running(w, h, counted[..i])|, Elems(Abnormal(w, h, counted[..i]));
    && n >= 0 && now == Adjusted(h, child, n, voters)
    && (triggered <==> Full(h.Votes(child), voters, threshold))
  }

  /** Some of `voters` saw the threshold reached. */
  predicate Full(votes: set<Task>, voters: set<Task>, threshold: nat) {
    voters != {} && |votes + voters| >= threshold
  }

  lemma FullOneMore(votes: set<Task>, voters: set<Task>, p: Task, threshold: nat)
    ensures Full(votes, voters + {p}, threshold) <==>
      Full(votes, voters, threshold) || |votes + (voters + {p})| >= threshold
  {
    CardSubset(votes + voters, votes + (voters + {p}));
    assert p in voters + {p};
  }

  /** The vote that re-checking `p` casts, if any, reaches the threshold. */
  predicate Hits(w: Words, h: Hot, child: Task, p: Task, threshold: nat) {
    w.Terminal(h.Status(p)) && !w.Success(h.Status(p)) && |h.Votes(child) + {p}| >= threshold
  }

  lemma NothingRechecked(w: Words, h: Hot, child: Task, counted: seq<Task>, threshold: nat)
    ensures RecheckedTo(w, h, child, counted, 0, h, false, threshold)
  {
    assert counted[..0] == [];
  }

  lemma RecheckHits(w: Words, h: Hot, child: Task, n: nat, voters: set<Task>, p: Task, threshold: nat)
    ensures Hits(w, Adjusted(h, child, n, voters), child, p, threshold) <==>
      w.Terminal(h.Status(p)) && !w.Success(h.Status(p)) && |h.Votes(child) + (voters + {p})| >= threshold
  {
    TripOneMore(h, child, n, voters, p);
  }

  lemma RecheckStep(w: Words, h: Hot, child: Task, counted: seq<Task>, i: nat, now: Hot, triggered: bool,
                    threshold: nat)
    requires i < |counted| && RecheckedTo(w, h, child, counted, i, now, triggered, threshold)
    ensures RecheckedTo(w, h, child, counted, i + 1, RecheckedOne(w, now, child, counted[i]),
                        triggered || Hits(w, now, child, counted[i], threshold), threshold)
  {
    var p, n, voters := counted[i], i - |Running(w, h, counted[..i])|, Elems(Abnormal(w, h, counted[..i]));
    ClassifyOneMore(w, h, counted, i);
    RecheckedOneAdjusts(w, h, child, n, voters, p);
    RecheckHits(w, h, child, n, voters, p, threshold);
    FullOneMore(h.Votes(child), voters, p, threshold);
  }

  lemma ClassifyOneMore(w: Words, h: Hot, counted: seq<Task>, i: nat)
    requires i < |counted|
    ensures var p, n, v := counted[i], |Running(w, h, counted[..i])|, Elems(Abnormal(w, h, counted[..i]));
      var n', v' := |Running(w, h, counted[..i + 1])|, Elems(Abnormal(w, h, counted[..i + 1]));
      && (!w.Terminal(h.Status(p)) ==> n' == n + 1 && v' == v)
      && (w.Terminal(h.Status(p)) && w.Success(h.Status(p)) ==> n' == n && v' == v)
      && (w.Terminal(h.Status(p)) && !w.Success(h.Status(p)) ==> n' == n && v' == v + {p})
  {
    assert counted[..i + 1][..i] == counted[..i];
  }

  datatype RegisterError = NoParents | TaskNotFound | CycleDetected | PrimaryNotAParent

  class DependencyGovernor {
    const storage: TaskStorage
    const words: Words
    const lifecycle: Option<string>

    /** `lifecycle` is the status an injected lifecycle writes when it cancels. */
    constructor (storage: TaskStorage, words: Words, lifecycle: Option<string>)
      ensures this.storage == storage && this.words == words && this.lifecycle == lifecycle
    {
      this.storage, this.words, this.lifecycle := storage, words, lifecycle;
    }

    method AddActive(child: Task, counted: seq<Task>)
      modifies storage
      ensures storage.View() == old(storage.View()).(active := Joined(old(storage.active), Elems(counted), child))
    {
      assert Joined(storage.active, {}, child) == storage.active;
      for i := 0 to |counted|
        invariant storage.View() ==
          old(storage.View()).(active := Joined(old(storage.active), Elems(counted[..i]), child))
      {
        JoinOneMore(storage.View(), old(storage.active), Elems(counted[..i]), counted[i], child);
        storage.SaddActiveChild(counted[i], child);
        ElemsOneMore(counted, i);
      }
      assert counted[..|counted|] == counted;
    }

    method CastVotes(child: Task, voters: seq<Task>, threshold: nat) returns (triggered: bool)
      modifies storage
      ensures storage.View() == old(storage.View()).(votes := Voted(old(storage.votes), child, Elems(voters)))
      ensures triggered <==> voters != [] && |old(storage.View()).Votes(child) + Elems(voters)| >= threshold
    {
      triggered := false;
      ghost var before := storage.View().Votes(child);
      for i := 0 to |voters|
        invariant storage.View() == old(storage.View()).(votes := Voted(old(storage.votes), child, Elems(voters[..i])))
        invariant triggered <==> i > 0 && |before + Elems(voters[..i])| >= threshold
      {
        VoteOneMore(storage.View(), old(storage.votes), child, Elems(voters[..i]), voters[i]);
        ElemsOneMore(voters, i);
        CardSubset(before + Elems(voters[..i]), before + Elems(voters[..i + 1]));
        var reached := storage.VoteAndCheckThreshold(child, voters[i], threshold);
        if reached { triggered := true; }
      }
      assert voters[..|voters|] == voters;
    }
  
    /** Re-reads one counted parent and makes up for a notification that may have missed the child. */
    method RecheckOne(child: Task, parent: Task, threshold: nat) returns (reached: bool)
      modifies storage
      ensures storage.View() == RecheckedOne(words, old(storage.View()), child, parent)
      ensures reached <==> Hits(words, old(storage.View()), child, parent, threshold)
    {
      reached := false;
      var status := storage.View().Status(parent);
      if words.Terminal(status) {
        var _ := storage.DecrRemainingDeps(child);
        if !words.Success(status) { reached := storage.VoteAndCheckThreshold(child, parent, threshold); }
      }
    }

    /** The post-write re-check of the counted parents. */
    method Recheck(child: Task, counted: seq<Task>, threshold: nat) returns (triggered: bool)
      modifies storage
      ensures storage.View() == Rechecked(words, old(storage.View()), child, counted)
      ensures var voters := Elems(Abnormal(words, old(storage.View()), counted));
        triggered <==> Full(old(storage.View()).Votes(child), voters, threshold)
    {
      triggered := false;
      ghost var before := storage.View();
      NothingRechecked(words, before, child, counted, threshold);
      for i := 0 to |counted|
        invariant RecheckedTo(words, before, child, counted, i, storage.View(), triggered, threshold)
      {
        RecheckStep(words, before, child, counted, i, storage.View(), triggered, threshold);
        var reached := RecheckOne(child, counted[i], threshold);
        if reached { triggered := true; }
      }
      assert counted[..|counted|] == counted;
    }

    /** `lifecycle.cancel`: writes the cancelled status unless the task is terminal. */
    method CancelTask(t: Task)
      modifies storage
      ensures storage.View() ==
        if lifecycle.Some? && !words.Terminal(old(storage.View()).Status(t))
        then old(storage.View()).WriteStatus(t, lifecycle.value) else old(storage.View())
    {
      if lifecycle.Some? && !words.Terminal(storage.View().Status(t)) {
        storage.UpdateStatus(t, lifecycle.value);
      }
    }

    /** All parents have records. */
    method AllKnown(parents: seq<Task>) returns (known: bool)
      ensures known <==> forall p :: p in parents ==> p in storage.tasks
    {
      for i := 0 to |parents|
        invariant forall k :: 0 <= k < i ==> parents[k] in storage.tasks
      {
        if parents[i] !in storage.tasks { return false; }
      }
      return true;
    }

    /** The writes of a registration, the re-check and the trigger. */
    method WriteRegistration(child: Task, parents: seq<Task>) returns (triggered: bool)
      requires child in storage.tasks
      modifies storage
      ensures triggered == Triggered(words, old(storage.View()), child, parents)
      ensures storage.View() == Settled(words, lifecycle, old(storage.View()), child, parents)
    {
      ghost var before := storage.View();
      var counted := Running(words, storage.View(), parents);
      var abnormal := Abnormal(words, storage.View(), parents);
      AddActive(child, counted);
      triggered := CastVotes(child, abnormal, |parents|);
      storage.UpdateDependsOn(child, parents);
      storage.SetRemainingDeps(child, |counted|);
      assert storage.View() == Registered(words, before, child, parents);
      NothingEnded(words, before, storage.View(), child, parents);
      var again := Recheck(child, counted, |parents|);
      if triggered || again { CancelTask(child); }
    }

    /** Registration without interference. Each error has its condition, in the order of the checks, and leaves the
        store as it was; success writes exactly the active children, votes, `depends_on` and counter that the parents'
        statuses call for, and cancels the child when the votes are complete. */
    method RegisterDependency(child: Task, declared: seq<Task>, primary: Option<Task>)
      returns (r: Result<bool, RegisterError>)
      modifies storage
      ensures r == Err(NoParents) <==> declared == []
      ensures r == Err(TaskNotFound) <==> declared != [] && !Known(old(storage.tasks), child, declared)
      ensures r == Err(CycleDetected) <==>
        && declared != [] && Known(old(storage.tasks), child, declared)
        && Search(LineageGraph(old(storage.tasks)), child, Entries(Dedupe(declared), 0), {})
      ensures r == Err(CycleDetected) ==> IsAncestor(LineageGraph(old(storage.tasks)), child, Dedupe(declared))
      ensures r == Err(PrimaryNotAParent) ==> primary.Some? && primary.value !in declared
      ensures r.Ok? ==> (primary.Some? ==> primary.value in declared)
      ensures r.Err? ==> storage.View() == old(storage.View())
      ensures r.Ok? ==> child in old(storage.tasks)
      ensures r.Ok? ==>
        && r.value == Triggered(words, old(storage.View()), child, Dedupe(declared))
        && storage.View() == Settled(words, lifecycle, old(storage.View()), child, Dedupe(declared))
      ensures r.Ok? && old(storage.View()).Votes(child) <= Elems(declared) ==>
        var h := old(storage.View());
        && (r.value <==> Doomed(words, h, child, declared))
        && storage.View().Status(child) == (if r.value && lifecycle.Some? && !words.Terminal(h.Status(child))
                                            then lifecycle.value else h.Status(child))
        && forall t :: t != child ==> storage.View().Status(t) == h.Status(t)
    {
      if declared == [] { return Err(NoParents); }
      var parents := Dedupe(declared);
      if child !in storage.tasks { return Err(TaskNotFound); }
      var known := AllKnown(parents);
      if !known { return Err(TaskNotFound); }
      var cycle := FindsCycle(LineageGraph(storage.tasks), child, parents);
      if cycle {
        CheckIsExact(LineageGraph(storage.tasks), child, parents);
        return Err(CycleDetected);
      }
      if primary.Some? && primary.value !in parents { return Err(PrimaryNotAParent); }
      ghost var h := storage.View();
      var triggered := WriteRegistration(child, parents);
      if h.Votes(child) <= Elems(declared) {
        DedupedTriggerIff(words, h, child, declared);
        RegistrationCancelsIff(words, lifecycle, h, child, declared);
      }
      return Ok(triggered);
    }
  }

  /** Without interference the re-check finds all counted parents still running. */
  lemma {:induction false} NothingEnded(w: Words, before: Hot, written: Hot, child: Task, parents: seq<Task>)
    requires forall t :: written.Status(t) == before.Status(t)
    ensures var counted := Running(w, before, parents);
      Rechecked(w, written, child, counted) == written && Abnormal(w, written, counted) == []
  {
    var counted := Running(w, before, parents);
    RunningExact(w, before, parents);
    AbnormalExact(w, written, counted);
    AllRunning(w, written, counted);
    if Abnormal(w, written, counted) != [] { SomeMember(Abnormal(w, written, counted)); }
  }

  lemma SomeMember<T>(s: seq<T>)
    requires s != []
    ensures exists x :: x in s
  {
    assert s[0] in s;
  }

  lemma {:induction false} AllRunning(w: Words, h: Hot, counted: seq<Task>)
    requires forall p :: p in counted ==> !w.Terminal(h.Status(p))
    ensures Running(w, h, counted) == counted
  {
    if counted != [] {
      var init := counted[..|counted| - 1];
      assert forall p :: p in init ==> p in counted;
      AllRunning(w, h, init);
    }
  }
}
