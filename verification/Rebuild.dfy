/** The offline rebuild of dependency counters from the cold edge store. */
module Rebuild {
  import opened Common
  import opened Graph
  import opened HotStore
  import opened Governor
  import opened CycleScan

  /** What the rebuild does with one child. */
  datatype Verdict = NoRecord | ParentMissing | Rebuilt(reached: bool)

  datatype Stats = Stats(
    rebuilt: nat, skipped: nat, skippedChildren: seq<Task>, cancelled: seq<Task>, pendingCancel: seq<Task>)

  /** The length of the leading part of `parents`, from `i` on, whose hot records exist. */
  function KnownFrom(h: Hot, parents: seq<Task>, i: nat): (n: nat)
    requires i <= |parents|
    ensures i <= n <= |parents|
    ensures forall k :: i <= k < n ==> parents[k] in h.tasks
    ensures n < |parents| ==> parents[n] !in h.tasks
    decreases |parents| - i
  {
    if i < |parents| && parents[i] in h.tasks then KnownFrom(h, parents, i + 1) else i
  }

  function VerdictOn(w: Words, h: Hot, child: Task, parents: seq<Task>): Verdict {
    if child !in h.tasks then NoRecord
    else if KnownFrom(h, parents, 0) < |parents| then ParentMissing
    else Rebuilt(Triggered(w, h, child, parents))
  }

  /** The sets after looking at `parents`: running ones join, abnormal ones vote. */
  function Collected(w: Words, h: Hot, child: Task, parents: seq<Task>): Hot {
    h.(active := Joined(h.active, Elems(Running(w, h, parents)), child),
       votes := Voted(h.votes, child, Elems(Abnormal(w, h, parents))))
  }

  /** One child: the parents up to the first missing one are collected; the
      counter is set only if none is missing. */
  function RebuildOne(w: Words, lifecycle: Option<string>, h: Hot, child: Task, parents: seq<Task>): Hot {
    match VerdictOn(w, h, child, parents)
    case NoRecord => h
    case ParentMissing => Collected(w, h, child, parents[..KnownFrom(h, parents, 0)])
    case Rebuilt(reached) =>
      var h' := Collected(w, h, child, parents).SetRemaining(child, |Running(w, h, parents)|);
      if reached && lifecycle.Some? && !w.Terminal(h'.Status(child)) then h'.WriteStatus(child, lifecycle.value) else h'
  }

  function Tally(v: Verdict, lifecycle: Option<string>, child: Task, stats: Stats): Stats {
    match v
    case NoRecord => stats.(skipped := stats.skipped + 1)
    case ParentMissing => stats.(skippedChildren := stats.skippedChildren + [child])
    case Rebuilt(reached) =>
      var more := stats.(rebuilt := stats.rebuilt + 1);
      if !reached then more
      else if lifecycle.Some? then more.(cancelled := more.cancelled + [child])
      else more.(pendingCancel := more.pendingCancel + [child])
  }

  /** The whole rebuild, child after child. */
  function RebuildAll(w: Words, lifecycle: Option<string>, h: Hot, order: seq<Task>, parentsOf: Graph): Hot
    requires forall c :: c in order ==> c in parentsOf
  {
    if order == [] then h
    else
      var last := order[|order| - 1];
      RebuildOne(w, lifecycle, RebuildAll(w, lifecycle, h, order[..|order| - 1], parentsOf), last, parentsOf[last])
  }

  function TallyAll(w: Words, lifecycle: Option<string>, h: Hot, order: seq<Task>, parentsOf: Graph): Stats
    requires forall c :: c in order ==> c in parentsOf
  {
    if order == [] then Stats(0, 0, [], [], [])
    else
      var init, last := order[..|order| - 1], order[|order| - 1];
      Tally(VerdictOn(w, RebuildAll(w, lifecycle, h, init, parentsOf), last, parentsOf[last]), lifecycle, last,
            TallyAll(w, lifecycle, h, init, parentsOf))
  }

  lemma CollectOneMore(w: Words, h: Hot, child: Task, parents: seq<Task>, i: nat)
    requires i < |parents|
    ensures var g, p := Collected(w, h, child, parents[..i]), parents[i];
      && g.Status(p) == h.Status(p)
      && g.Votes(child) == h.Votes(child) + Elems(Abnormal(w, h, parents[..i]))
      && Collected(w, h, child, parents[..i + 1]) ==
        if !w.Terminal(h.Status(p)) then g.AddChild(p, child)
        else if w.Success(h.Status(p)) then g
        else g.CastVote(child, p)
  {
    var g, p := Collected(w, h, child, parents[..i]), parents[i];
    assert parents[..i + 1][..i] == parents[..i];
    JoinOneMore(g, h.active, Elems(Running(w, h, parents[..i])), p, child);
    VoteOneMore(g, h.votes, child, Elems(Abnormal(w, h, parents[..i])), p);
    ElemsSnoc(Running(w, h, parents[..i]), p);
    ElemsSnoc(Abnormal(w, h, parents[..i]), p);
  }

  lemma ElemsSnoc<T>(s: seq<T>, x: T)
    ensures Elems(s + [x]) == Elems(s) + {x}
  {
  }

  /** The trigger as the loop over the parents accumulates it. */
  predicate Tripped(w: Words, h: Hot, child: Task, seen: seq<Task>, threshold: nat) {
    Abnormal(w, h, seen) != [] && |h.Votes(child) + Elems(Abnormal(w, h, seen))| >= threshold
  }

  lemma TripsOneMore(w: Words, h: Hot, child: Task, parents: seq<Task>, i: nat, threshold: nat)
    requires i < |parents|
    ensures var p := parents[i];
      Tripped(w, h, child, parents[..i + 1], threshold) <==>
        Tripped(w, h, child, parents[..i], threshold) ||
        (w.Terminal(h.Status(p)) && !w.Success(h.Status(p)) &&
         |h.Votes(child) + (Elems(Abnormal(w, h, parents[..i])) + {p})| >= threshold)
  {
    assert parents[..i + 1][..i] == parents[..i];
    var v := Elems(Abnormal(w, h, parents[..i]));
    ElemsSnoc(Abnormal(w, h, parents[..i]), parents[i]);
    CardSubset(h.Votes(child) + v, h.Votes(child) + (v + {parents[i]}));
  }

  lemma RunningOneMore(w: Words, h: Hot, parents: seq<Task>, i: nat)
    requires i < |parents|
    ensures |Running(w, h, parents[..i + 1])| ==
      |Running(w, h, parents[..i])| + if w.Terminal(h.Status(parents[i])) then 0 else 1
  {
    assert parents[..i + 1][..i] == parents[..i];
  }

  /** The state of the loop over the parents after `i` of them. */
  ghost predicate CollectedTo(w: Words, h: Hot, child: Task, parents: seq<Task>, i: nat,
                              now: Hot, running: nat, reached: bool)
    requires i <= |parents|
  {
    && now == Collected(w, h, child, parents[..i])
    && running == |Running(w, h, parents[..i])|
    && (reached <==> Tripped(w, h, child, parents[..i], |parents|))
  }

  /** Looking at one parent. */
  function CollectedOne(w: Words, h: Hot, child: Task, p: Task): Hot {
    if !w.Terminal(h.Status(p)) then h.AddChild(p, child)
    else if w.Success(h.Status(p)) then h
    else h.CastVote(child, p)
  }

  lemma CollectStep(w: Words, h: Hot, child: Task, parents: seq<Task>, i: nat, now: Hot, running: nat, reached: bool)
    requires i < |parents| && CollectedTo(w, h, child, parents, i, now, running, reached)
    ensures CollectedTo(w, h, child, parents, i + 1, CollectedOne(w, now, child, parents[i]),
      running + (if w.Terminal(now.Status(parents[i])) then 0 else 1),
      reached || Hits(w, now, child, parents[i], |parents|))
  {
    CollectOneMore(w, h, child, parents, i);
    RunningOneMore(w, h, parents, i);
    HitTrips(w, h, child, parents, i, now);
  }

  lemma HitTrips(w: Words, h: Hot, child: Task, parents: seq<Task>, i: nat, now: Hot)
    requires i < |parents| && now == Collected(w, h, child, parents[..i])
    ensures Tripped(w, h, child, parents[..i + 1], |parents|) <==>
      Tripped(w, h, child, parents[..i], |parents|) || Hits(w, now, child, parents[i], |parents|)
  {
    CollectOneMore(w, h, child, parents, i);
    TripsOneMore(w, h, child, parents, i, |parents|);
    var v := Elems(Abnormal(w, h, parents[..i]));
    assert h.Votes(child) + v + {parents[i]} == h.Votes(child) + (v + {parents[i]});
  }

  /** Looks at one parent of `child`. */
  method CollectParent(storage: TaskStorage, w: Words, child: Task, parent: Task, threshold: nat)
    returns (running: bool, reached: bool)
    modifies storage
    ensures storage.View() == CollectedOne(w, old(storage.View()), child, parent)
    ensures running <==> !w.Terminal(old(storage.View()).Status(parent))
    ensures reached <==> Hits(w, old(storage.View()), child, parent, threshold)
  {
    running, reached := false, false;
    var status := storage.View().Status(parent);
    if w.Terminal(status) {
      if !w.Success(status) { reached := storage.VoteAndCheckThreshold(child, parent, threshold); }
    } else {
      running := true;
      storage.SaddActiveChild(parent, child);
    }
  }

  /** Looks at the parents of `child` up to the first one without a hot record. */
  method CollectParents(storage: TaskStorage, w: Words, child: Task, parents: seq<Task>)
    returns (running: nat, reached: bool, missing: bool)
    modifies storage
    ensures storage.View() ==
      Collected(w, old(storage.View()), child, parents[..KnownFrom(old(storage.View()), parents, 0)])
    ensures missing <==> KnownFrom(old(storage.View()), parents, 0) < |parents|
    ensures !missing ==> running == |Running(w, old(storage.View()), parents)|
    ensures !missing ==> (reached <==> Triggered(w, old(storage.View()), child, parents))
  {
    running, reached, missing := 0, false, false;
    ghost var h := storage.View();
    assert Joined(h.active, {}, child) == h.active;
    var i := 0;
    while i < |parents|
      invariant 0 <= i <= |parents| && KnownFrom(h, parents, i) == KnownFrom(h, parents, 0)
      invariant CollectedTo(w, h, child, parents, i, storage.View(), running, reached)
    {
      if parents[i] !in storage.tasks { return running, reached, true; }
      CollectStep(w, h, child, parents, i, storage.View(), running, reached);
      var more, hit := CollectParent(storage, w, child, parents[i], |parents|);
      if more { running := running + 1; }
      if hit { reached := true; }
      i := i + 1;
    }
    assert parents[..|parents|] == parents;
  }

  /** Rebuilds one child. */
  method RebuildChild(storage: TaskStorage, w: Words, lifecycle: Option<string>, child: Task, parents: seq<Task>)
    returns (v: Verdict)
    modifies storage
    ensures v == VerdictOn(w, old(storage.View()), child, parents)
    ensures storage.View() == RebuildOne(w, lifecycle, old(storage.View()), child, parents)
  {
    if child !in storage.tasks { return NoRecord; }
    var running, reached, missing := CollectParents(storage, w, child, parents);
    if missing { return ParentMissing; }
    assert parents[..|parents|] == parents;
    storage.SetRemainingDeps(child, running);
    if reached && lifecycle.Some? && !w.Terminal(storage.View().Status(child)) {
      storage.UpdateStatus(child, lifecycle.value);
    }
    return Rebuilt(reached);
  }

  function ChildIds(edges: seq<DependencyEdge>): seq<Task> {
    if edges == [] then [] else ChildIds(edges[..|edges| - 1]) + [edges[|edges| - 1].child]
  }

  lemma {:induction false} ChildIdsExact(edges: seq<DependencyEdge>, c: Task)
    ensures c in ChildIds(edges) <==> c in EdgeGraph(edges)
  {
    if edges != [] {
      ChildIdsExact(edges[..|edges| - 1], c);
      assert edges == edges[..|edges| - 1] + [edges[|edges| - 1]];
    }
  }

  lemma ChildIdsAll(edges: seq<DependencyEdge>)
    ensures forall c :: c in ChildIds(edges) <==> c in EdgeGraph(edges)
  {
    forall c
      ensures c in ChildIds(edges) <==> c in EdgeGraph(edges)
    {
      ChildIdsExact(edges, c);
    }
  }

  /** The children in the order in which the cold store first mentions them. */
  function Order(edges: seq<DependencyEdge>): (order: seq<Task>)
    ensures NoDup(order) && forall c :: c in order <==> c in EdgeGraph(edges)
  {
    ChildIdsAll(edges);
    Dedupe(ChildIds(edges))
  }

  lemma RebuildOneMore(w: Words, lifecycle: Option<string>, h: Hot, order: seq<Task>, i: nat, parentsOf: Graph)
    requires i < |order| && forall c :: c in order ==> c in parentsOf
    ensures var before, c := RebuildAll(w, lifecycle, h, order[..i], parentsOf), order[i];
      && RebuildAll(w, lifecycle, h, order[..i + 1], parentsOf) == RebuildOne(w, lifecycle, before, c, parentsOf[c])
      && TallyAll(w, lifecycle, h, order[..i + 1], parentsOf)
         == Tally(VerdictOn(w, before, c, parentsOf[c]), lifecycle, c, TallyAll(w, lifecycle, h, order[..i], parentsOf))
  {
    assert order[..i + 1][..i] == order[..i];
  }

  /** Rebuilds the counters, active children and votes of every child in the cold store. */
  method RebuildDepCounters(storage: TaskStorage, edges: seq<DependencyEdge>, w: Words, lifecycle: Option<string>)
    returns (stats: Stats)
    modifies storage
    ensures storage.View() == RebuildAll(w, lifecycle, old(storage.View()), Order(edges), EdgeGraph(edges))
    ensures stats == TallyAll(w, lifecycle, old(storage.View()), Order(edges), EdgeGraph(edges))
    ensures TalliesRecords(old(storage.View()), Order(edges), EdgeGraph(edges), stats)
  {
    var parentsOf, _ := GroupParents(edges);
    var order := Order(edges);
    stats := Stats(0, 0, [], [], []);
    ghost var h := storage.View();
    for i := 0 to |order|
      invariant storage.View() == RebuildAll(w, lifecycle, h, order[..i], parentsOf)
      invariant stats == TallyAll(w, lifecycle, h, order[..i], parentsOf)
    {
      RebuildOneMore(w, lifecycle, h, order, i, parentsOf);
      var v := RebuildChild(storage, w, lifecycle, order[i], parentsOf[order[i]]);
      stats := Tally(v, lifecycle, order[i], stats);
    }
    assert order[..|order|] == order;
    TallyMeans(w, lifecycle, h, order, parentsOf);
  }

  /** The child and all its parents have hot records. */
  predicate OnRecord(h: Hot, c: Task, parents: seq<Task>) {
    c in h.tasks && forall p :: p in parents ==> p in h.tasks
  }

  lemma VerdictByRecords(w: Words, h: Hot, c: Task, parents: seq<Task>)
    ensures VerdictOn(w, h, c, parents).NoRecord? <==> c !in h.tasks
    ensures VerdictOn(w, h, c, parents).Rebuilt? <==> OnRecord(h, c, parents)
  {
    var n := KnownFrom(h, parents, 0);
    if n < |parents| { assert parents[n] in parents; }
    forall p | p in parents && n == |parents| ensures p in h.tasks {
      var k := IndexOf(parents, p);
      assert parents[k] in h.tasks;
    }
  }

  function CountedIn(h: Hot, order: seq<Task>, g: Graph): set<Task>
    requires forall c :: c in order ==> c in g
  {
    set c | c in order && OnRecord(h, c, g[c])
  }

  function Unknown(h: Hot, order: seq<Task>): set<Task> {
    set c | c in order && c !in h.tasks
  }

  /** The statistics as far as records and rows decide them. */
  ghost predicate TalliesRecords(h: Hot, order: seq<Task>, g: Graph, stats: Stats)
    requires forall c :: c in order ==> c in g
  {
    && stats.rebuilt == |CountedIn(h, order, g)|
    && stats.skipped == |Unknown(h, order)|
    && NoDup(stats.skippedChildren)
    && forall c :: c in stats.skippedChildren <==> c in order && c in h.tasks && !OnRecord(h, c, g[c])
  }

  lemma TallyOneMore(w: Words, lifecycle: Option<string>, h: Hot, h': Hot, order: seq<Task>, g: Graph, c: Task,
                     stats: Stats)
    requires (forall d :: d in order ==> d in g) && c in g && c !in order && TalliesRecords(h, order, g, stats)
    requires forall t :: t in h'.tasks <==> t in h.tasks
    ensures TalliesRecords(h, order + [c], g, Tally(VerdictOn(w, h', c, g[c]), lifecycle, c, stats))
  {
    VerdictByRecords(w, h', c, g[c]);
    CountOneMore(h, order, g, c);
    if c in h.tasks && !OnRecord(h, c, g[c]) { AppendFresh(stats.skippedChildren, c); }
  }

  lemma CountOneMore(h: Hot, order: seq<Task>, g: Graph, c: Task)
    requires (forall d :: d in order ==> d in g) && c in g && c !in order
    ensures |CountedIn(h, order + [c], g)| == |CountedIn(h, order, g)| + if OnRecord(h, c, g[c]) then 1 else 0
    ensures |Unknown(h, order + [c])| == |Unknown(h, order)| + if c !in h.tasks then 1 else 0
  {
    OneMore(CountedIn(h, order, g), CountedIn(h, order + [c], g), c, OnRecord(h, c, g[c]));
    OneMore(Unknown(h, order), Unknown(h, order + [c]), c, c !in h.tasks);
  }

  lemma OneMore<T>(a: set<T>, b: set<T>, x: T, more: bool)
    requires x !in a && forall y :: y in b <==> y in a || (y == x && more)
    ensures |b| == |a| + if more then 1 else 0
  {
    if more { assert b == a + {x}; } else { assert b == a; }
  }

  /** What the statistics count: rebuilt are the children whose records and whose parents' records all exist, skipped
      those without a record, and listed as skipped, once each, the others. */
  lemma {:induction false} TallyMeans(w: Words, lifecycle: Option<string>, h: Hot, order: seq<Task>, g: Graph)
    requires (forall c :: c in order ==> c in g) && NoDup(order)
    ensures TalliesRecords(h, order, g, TallyAll(w, lifecycle, h, order, g))
  {
    if order == [] {
      assert CountedIn(h, order, g) == {} && Unknown(h, order) == {};
    } else {
      var init, c := order[..|order| - 1], order[|order| - 1];
      assert order == init + [c];
      LastIsFresh(init, c);
      TallyMeans(w, lifecycle, h, init, g);
      var before := RebuildAll(w, lifecycle, h, init, g);
      forall t ensures t in before.tasks <==> t in h.tasks { AllKeepStatus(w, lifecycle, h, init, g, t); }
      TallyOneMore(w, lifecycle, h, before, init, g, c, TallyAll(w, lifecycle, h, init, g));
    }
  }

  /** Two stores agree on everything the governance keeps about child `c`. */
  ghost predicate Same(h: Hot, h': Hot, c: Task) {
    && h.Votes(c) == h'.Votes(c)
    && (c in h.remaining <==> c in h'.remaining)
    && h.Remaining(c) == h'.Remaining(c)
    && forall p :: c in h.Children(p) <==> c in h'.Children(p)
  }

  /** What an uninterrupted look at `parents` makes of the data of child `c` itself. */
  lemma CollectedMeans(w: Words, h: Hot, c: Task, parents: seq<Task>)
    ensures Collected(w, h, c, parents).Votes(c) == h.Votes(c) + Elems(Abnormal(w, h, parents))
    ensures forall p :: c in Collected(w, h, c, parents).Children(p) <==>
      c in h.Children(p) || p in Elems(Running(w, h, parents))
  {
  }

  lemma CollectedLeavesOthers(w: Words, h: Hot, d: Task, parents: seq<Task>, c: Task)
    requires c != d
    ensures Same(h, Collected(w, h, d, parents), c)
  {
  }

  /** Rebuilding one child touches no other child. */
  lemma OneLeavesOthers(w: Words, lifecycle: Option<string>, h: Hot, d: Task, parents: seq<Task>, c: Task)
    requires c != d
    ensures Same(h, RebuildOne(w, lifecycle, h, d, parents), c)
  {
    CollectedLeavesOthers(w, h, d, parents, c);
    CollectedLeavesOthers(w, h, d, parents[..KnownFrom(h, parents, 0)], c);
  }

  /** The two stores agree on which of the tasks listed exist, have ended, and have ended in success. */
  ghost predicate Alike(w: Words, h: Hot, h': Hot, ts: seq<Task>) {
    forall p :: p in ts ==>
      && (p in h.tasks <==> p in h'.tasks)
      && (w.Terminal(h.Status(p)) <==> w.Terminal(h'.Status(p)))
      && (w.Terminal(h.Status(p)) ==> (w.Success(h.Status(p)) <==> w.Success(h'.Status(p))))
  }

  lemma {:induction false} StatusDecides(w: Words, h: Hot, h': Hot, parents: seq<Task>)
    requires Alike(w, h, h', parents)
    ensures Running(w, h, parents) == Running(w, h', parents) && Abnormal(w, h, parents) == Abnormal(w, h', parents)
  {
    if parents != [] {
      var init := parents[..|parents| - 1];
      assert forall p :: p in init ==> p in parents;
      StatusDecides(w, h, h', init);
    }
  }

  lemma {:induction false} KnownSame(h: Hot, h': Hot, parents: seq<Task>, i: nat)
    requires i <= |parents| && forall p :: p in parents ==> (p in h.tasks <==> p in h'.tasks)
    ensures KnownFrom(h, parents, i) == KnownFrom(h', parents, i)
    decreases |parents| - i
  {
    if i < |parents| {
      assert parents[i] in parents;
      KnownSame(h, h', parents, i + 1);
    }
  }

  /** The parents that the rebuild of `c` looks at. */
  function Seen(h: Hot, c: Task, parents: seq<Task>): seq<Task> {
    if c in h.tasks then parents[..KnownFrom(h, parents, 0)] else []
  }

  lemma SeenSame(w: Words, h: Hot, h': Hot, c: Task, parents: seq<Task>)
    requires Alike(w, h, h', parents) && (c in h.tasks <==> c in h'.tasks)
    ensures Seen(h, c, parents) == Seen(h', c, parents)
    ensures Running(w, h, parents) == Running(w, h', parents) && Abnormal(w, h, parents) == Abnormal(w, h', parents)
    ensures Running(w, h, Seen(h, c, parents)) == Running(w, h', Seen(h, c, parents))
    ensures Abnormal(w, h, Seen(h, c, parents)) == Abnormal(w, h', Seen(h, c, parents))
  {
    KnownSame(h, h', parents, 0);
    StatusDecides(w, h, h', parents);
    assert forall p :: p in Seen(h, c, parents) ==> p in parents;
    StatusDecides(w, h, h', Seen(h, c, parents));
  }

  /** An injected lifecycle changes records, and nothing else. */
  lemma LifecycleChangesRecords(w: Words, lifecycle: Option<string>, h: Hot, c: Task, parents: seq<Task>)
    ensures RebuildOne(w, lifecycle, h, c, parents).(tasks := h.tasks) == RebuildOne(w, None, h, c, parents)
  {
  }

  lemma OneCollects(w: Words, h: Hot, c: Task, parents: seq<Task>)
    ensures var h', all := RebuildOne(w, None, h, c, parents), Collected(w, h, c, Seen(h, c, parents));
      && h'.votes == all.votes && h'.active == all.active
      && (if VerdictOn(w, h, c, parents).Rebuilt?
          then h'.remaining == h.remaining[c := |Running(w, h, parents)|] && Seen(h, c, parents) == parents
          else h'.remaining == h.remaining)
  {
    assert parents[..|parents|] == parents;
    if c !in h.tasks { CollectedNothing(w, h, c); }
  }

  lemma CollectedNothing(w: Words, h: Hot, c: Task)
    ensures Collected(w, h, c, []) == h
  {
    assert Joined(h.active, {}, c) == h.active;
  }

  /** What rebuilding `c` makes of its data. */
  lemma OneMeans(w: Words, lifecycle: Option<string>, h: Hot, c: Task, parents: seq<Task>)
    ensures var h', seen := RebuildOne(w, lifecycle, h, c, parents), Seen(h, c, parents);
      var v := VerdictOn(w, h, c, parents);
      && h'.Votes(c) == h.Votes(c) + Elems(Abnormal(w, h, seen))
      && (forall p :: c in h'.Children(p) <==> c in h.Children(p) || p in Elems(Running(w, h, seen)))
      && (v.Rebuilt? ==> c in h'.remaining && h'.Remaining(c) == |Running(w, h, parents)|)
      && (!v.Rebuilt? ==> h'.remaining == h.remaining)
      && (v.Rebuilt? ==> seen == parents)
  {
    LifecycleChangesRecords(w, lifecycle, h, c, parents);
    OneCollects(w, h, c, parents);
    CollectedMeans(w, h, c, Seen(h, c, parents));
  }

  /** What becomes of a child depends only on its parents' records and on its own data. */
  lemma OneIsLocal(w: Words, lifecycle: Option<string>, h: Hot, h': Hot, c: Task, parents: seq<Task>)
    requires Alike(w, h, h', parents) && (c in h.tasks <==> c in h'.tasks) && Same(h, h', c)
    ensures VerdictOn(w, h, c, parents) == VerdictOn(w, h', c, parents)
    ensures Same(RebuildOne(w, lifecycle, h, c, parents), RebuildOne(w, lifecycle, h', c, parents), c)
  {
    SeenSame(w, h, h', c, parents);
    VerdictSame(w, h, h', c, parents);
    OneMeans(w, lifecycle, h, c, parents);
    OneMeans(w, lifecycle, h', c, parents);
  }

  lemma VerdictSame(w: Words, h: Hot, h': Hot, c: Task, parents: seq<Task>)
    requires Alike(w, h, h', parents) && (c in h.tasks <==> c in h'.tasks) && h.Votes(c) == h'.Votes(c)
    ensures VerdictOn(w, h, c, parents) == VerdictOn(w, h', c, parents)
  {
    KnownSame(h, h', parents, 0);
    StatusDecides(w, h, h', parents);
  }

  /** The rebuild of the children in `order` cannot change the status of `p`: no lifecycle is injected, or `p` is
      not among them, or it is terminal already. */
  predicate Fixed(w: Words, lifecycle: Option<string>, h: Hot, order: seq<Task>, p: Task) {
    lifecycle.None? || p !in order || w.Terminal(h.Status(p))
  }

  lemma OneKeepsStatus(w: Words, lifecycle: Option<string>, h: Hot, c: Task, parents: seq<Task>, p: Task)
    ensures var h' := RebuildOne(w, lifecycle, h, c, parents);
      && (p in h'.tasks <==> p in h.tasks)
      && (lifecycle.None? || p != c || w.Terminal(h.Status(p)) ==> h'.Status(p) == h.Status(p))
  {
  }

  lemma {:induction false} AllKeepStatus(w: Words, lifecycle: Option<string>, h: Hot, order: seq<Task>, g: Graph,
                                         p: Task)
    requires forall c :: c in order ==> c in g
    ensures var h' := RebuildAll(w, lifecycle, h, order, g);
      && (p in h'.tasks <==> p in h.tasks)
      && (Fixed(w, lifecycle, h, order, p) ==> h'.Status(p) == h.Status(p))
  {
    if order != [] {
      var init, d := order[..|order| - 1], order[|order| - 1];
      assert order == init + [d];
      AllKeepStatus(w, lifecycle, h, init, g, p);
      OneKeepsStatus(w, lifecycle, RebuildAll(w, lifecycle, h, init, g), d, g[d], p);
    }
  }

  lemma AllKeepAlike(w: Words, lifecycle: Option<string>, h: Hot, order: seq<Task>, g: Graph, ts: seq<Task>)
    requires forall c :: c in order ==> c in g
    requires forall p :: p in ts ==> Fixed(w, lifecycle, h, order, p)
    ensures Alike(w, h, RebuildAll(w, lifecycle, h, order, g), ts)
  {
    forall p | p in ts
      ensures var h' := RebuildAll(w, lifecycle, h, order, g);
        (p in h.tasks <==> p in h'.tasks) && h.Status(p) == h'.Status(p)
    {
      AllKeepStatus(w, lifecycle, h, order, g, p);
    }
  }

  /** Children not in the cold store are left alone. */
  lemma {:induction false} AllLeaveOthers(w: Words, lifecycle: Option<string>, h: Hot, order: seq<Task>, g: Graph,
                                          c: Task)
    requires (forall d :: d in order ==> d in g) && c !in order
    ensures Same(h, RebuildAll(w, lifecycle, h, order, g), c)
  {
    if order != [] {
      var init, d := order[..|order| - 1], order[|order| - 1];
      AllLeaveOthers(w, lifecycle, h, init, g, c);
      OneLeavesOthers(w, lifecycle, RebuildAll(w, lifecycle, h, init, g), d, g[d], c);
    }
  }

  lemma {:induction false} UniqueRowsUniqueParents(edges: seq<DependencyEdge>, c: Task)
    requires NoDup(edges)
    ensures NoDup(ParentsOf(edges, c))
  {
    if edges != [] {
      var init, last := edges[..|edges| - 1], edges[|edges| - 1];
      assert edges == init + [last];
      LastIsFresh(init, last);
      UniqueRowsUniqueParents(init, c);
      if last.child == c {
        ParentsOfExact(init, c, last.parent);
        AppendFresh(ParentsOf(init, c), last.parent);
      }
    }
  }

  lemma {:induction false} DedupeIdentity(parents: seq<Task>)
    requires NoDup(parents)
    ensures Dedupe(parents) == parents
  {
    if parents != [] {
      var init, last := parents[..|parents| - 1], parents[|parents| - 1];
      assert parents == init + [last];
      LastIsFresh(init, last);
      DedupeIdentity(init);
    }
  }

  lemma OneParent(w: Words, h: Hot, p: Task)
    ensures Running(w, h, [p]) == if w.Terminal(h.Status(p)) then [] else [p]
    ensures Abnormal(w, h, [p]) == if w.Terminal(h.Status(p)) && !w.Success(h.Status(p)) then [p] else []
    ensures KnownFrom(h, [p], 0) == if p in h.tasks then 1 else 0
  {
    assert [p][..0] == [];
  }

  /** The governance already knows what `p` means for `c`. */
  predicate Recorded(w: Words, h: Hot, c: Task, p: Task) {
    if !w.Terminal(h.Status(p)) then c in h.Children(p) else w.Success(h.Status(p)) || p in h.Votes(c)
  }

  lemma JoinedIsSame(active: map<Task, set<Task>>, parents: set<Task>, c: Task)
    ensures Joined(active, parents, c) == active <==> forall p :: p in parents ==> p in active && c in active[p]
  {
    if Joined(active, parents, c) == active {
      forall p | p in parents ensures p in active && c in active[p] {
        assert p in Joined(active, parents, c);
      }
    }
    if forall p :: p in parents ==> p in active && c in active[p] {
      assert forall p :: p in parents ==> active[p] + {c} == active[p];
    }
  }

  lemma VotedIsSame(votes: map<Task, set<Task>>, c: Task, voters: set<Task>)
    ensures Voted(votes, c, voters) == votes <==> voters == {} || (c in votes && voters <= votes[c])
  {
    if Voted(votes, c, voters) == votes && voters != {} {
      assert c in Voted(votes, c, voters);
    } else if c in votes && voters <= votes[c] {
      assert votes[c] + voters == votes[c];
    }
  }

  lemma CollectedIsSame(w: Words, h: Hot, c: Task, seen: seq<Task>)
    ensures Collected(w, h, c, seen) == h <==> forall p :: p in seen ==> Recorded(w, h, c, p)
  {
    RunningExact(w, h, seen);
    AbnormalExact(w, h, seen);
    var running, abnormal := Elems(Running(w, h, seen)), Elems(Abnormal(w, h, seen));
    JoinedIsSame(h.active, running, c);
    VotedIsSame(h.votes, c, abnormal);
    assert (forall p :: p in seen ==> Recorded(w, h, c, p))
      <==> (forall p :: p in running ==> c in h.Children(p)) && abnormal <= h.Votes(c);
  }

  /** A child with a missing parent is skipped, but not always as a whole: its memberships and votes stay as they
      were if and only if every parent listed before the missing one was recorded already. */
  lemma SkippedWholeIff(w: Words, h: Hot, c: Task, parents: seq<Task>)
    requires VerdictOn(w, h, c, parents) == ParentMissing
    ensures RebuildOne(w, None, h, c, parents).remaining == h.remaining
    ensures RebuildOne(w, None, h, c, parents) == h
       <==> forall k :: 0 <= k < KnownFrom(h, parents, 0) ==> Recorded(w, h, c, parents[k])
  {
    var seen := parents[..KnownFrom(h, parents, 0)];
    CollectedIsSame(w, h, c, seen);
    forall k | 0 <= k < |seen| ensures seen[k] == parents[k] && seen[k] in seen {
    }
  }

  /** A child with a running parent and a missing one is skipped, and yet joins the active children of the first. */
  lemma SkippedPartly(w: Words, h: Hot, c: Task, p: Task, q: Task)
    requires c != p && q != c && q != p && !w.Terminal("running")
    requires h == Hot(map[c := Record("pending", None, []), p := Record("running", None, [])], map[], map[], map[])
    ensures VerdictOn(w, h, c, [p, q]) == ParentMissing
    ensures c !in h.Children(p) && c in RebuildOne(w, None, h, c, [p, q]).Children(p)
  {
    var parents := [p, q];
    assert KnownFrom(h, parents, 2) == 2 && KnownFrom(h, parents, 1) == 1 && KnownFrom(h, parents, 0) == 1;
    assert parents[..1] == [p];
    OneParent(w, h, p);
    OneMeans(w, None, h, c, parents);
  }

  /** A child is reported as pending cancellation by a rebuild of emptied sets
      exactly when every one of its parents has ended without success. */
  lemma PendingCancelIsExact(w: Words, h: Hot, edges: seq<DependencyEdge>, c: Task)
    requires NoDup(edges) && h.votes == map[]
    ensures c in TallyAll(w, None, h, Order(edges), EdgeGraph(edges)).pendingCancel <==>
      && c in EdgeGraph(edges) && c in h.tasks
      && (forall p :: p in EdgeGraph(edges)[c] ==>
        p in h.tasks && w.Terminal(h.Status(p)) && !w.Success(h.Status(p)))
  {
    var g, order := EdgeGraph(edges), Order(edges);
    PendingOne(w, h, order, g, c);
    if c in order {
      UniqueRowsUniqueParents(edges, c);
      assert g[c] != [] by { SomeParent(edges, c); }
      ReachedMeansAllAbnormal(w, h, c, g[c]);
    }
  }

  lemma SomeParent(edges: seq<DependencyEdge>, c: Task)
    requires c in EdgeGraph(edges)
    ensures ParentsOf(edges, c) != []
  {
    var e :| e in edges && e.child == c;
    ParentsOfExact(edges, c, e.parent);
  }

  lemma {:induction false} PendingOne(w: Words, h: Hot, order: seq<Task>, g: Graph, c: Task)
    requires (forall d :: d in order ==> d in g) && NoDup(order)
    ensures c in TallyAll(w, None, h, order, g).pendingCancel <==>
      c in order && VerdictOn(w, h, c, g[c]) == Rebuilt(true)
  {
    if order != [] {
      var init, d := order[..|order| - 1], order[|order| - 1];
      assert order == init + [d];
      LastIsFresh(init, d);
      PendingOne(w, h, init, g, c);
      if d == c {
        AllLeaveOthers(w, None, h, init, g, c);
        AllKeepAlike(w, None, h, init, g, g[c]);
        AllKeepStatus(w, None, h, init, g, c);
        VerdictSame(w, h, RebuildAll(w, None, h, init, g), c, g[c]);
      }
    }
  }

  lemma ReachedMeansAllAbnormal(w: Words, h: Hot, c: Task, parents: seq<Task>)
    requires NoDup(parents) && parents != [] && h.Votes(c) == {}
    ensures VerdictOn(w, h, c, parents) == Rebuilt(true) <==>
      c in h.tasks && forall p :: p in parents ==> p in h.tasks && w.Terminal(h.Status(p)) && !w.Success(h.Status(p))
  {
    var voters := Elems(Abnormal(w, h, parents));
    AbnormalExact(w, h, parents);
    CardElems(parents);
    assert voters <= Elems(parents) && h.Votes(c) + voters == voters;
    CardSubset(voters, Elems(parents));
    assert forall k :: 0 <= k < |parents| ==> parents[k] in parents;
    if forall p :: p in parents ==> p in Abnormal(w, h, parents) {
      assert voters == Elems(parents) && parents[0] in Abnormal(w, h, parents);
    }
    if Triggered(w, h, c, parents) {
      assert forall p :: p in parents ==> p in voters;
    }
  }
}
