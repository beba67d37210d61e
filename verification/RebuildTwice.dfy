/** How the children of a rebuild affect each other, and what a second rebuild changes after the first. */
module RebuildTwice {
  import opened Common
  import opened Graph
  import opened HotStore
  import opened Governor
  import opened CycleScan
  import opened Rebuild

  /** `p` runs in `h` and has ended in `h'`. */
  predicate Turned(w: Words, h: Hot, h': Hot, p: Task) {
    !w.Terminal(h.Status(p)) && w.Terminal(h'.Status(p))
  }

  /** Between `h` and `h'` no record came or went and no terminal status was revoked. */
  ghost predicate Later(w: Words, h: Hot, h': Hot) {
    && (forall p :: p in h.tasks <==> p in h'.tasks)
    && (forall p :: w.Terminal(h.Status(p)) ==> h'.Status(p) == h.Status(p))
  }

  lemma RebuildIsLater(w: Words, lifecycle: Option<string>, h: Hot, order: seq<Task>, g: Graph)
    requires forall c :: c in order ==> c in g
    ensures Later(w, h, RebuildAll(w, lifecycle, h, order, g))
  {
    var h' := RebuildAll(w, lifecycle, h, order, g);
    forall p
      ensures (p in h.tasks <==> p in h'.tasks) && (w.Terminal(h.Status(p)) ==> h'.Status(p) == h.Status(p))
    {
      AllKeepStatus(w, lifecycle, h, order, g, p);
    }
  }

  /** The running parents of a child only get fewer, and do when one of them ends. */
  lemma {:induction false} RunningShrinks(w: Words, h: Hot, h': Hot, parents: seq<Task>)
    requires Later(w, h, h')
    ensures |Running(w, h', parents)| <= |Running(w, h, parents)|
    ensures (exists p :: p in parents && Turned(w, h, h', p)) ==>
      |Running(w, h', parents)| < |Running(w, h, parents)|
  {
    if parents != [] {
      var init, last := parents[..|parents| - 1], parents[|parents| - 1];
      assert parents == init + [last];
      RunningShrinks(w, h, h', init);
    }
  }

  // ---------- one rebuild ----------

  /** When the rebuild reaches its `i`-th child, the tasks before it have their final status, the others their first. */
  lemma {:induction false} ReachedStatus(w: Words, lifecycle: Option<string>, h: Hot, order: seq<Task>, g: Graph,
                                         i: nat, p: Task)
    requires (forall c :: c in order ==> c in g) && NoDup(order) && i <= |order|
    ensures RebuildAll(w, lifecycle, h, order[..i], g).Status(p)
         == if p in order[..i] then RebuildAll(w, lifecycle, h, order, g).Status(p) else h.Status(p)
  {
    if i == |order| {
      assert order[..i] == order;
      AllKeepStatus(w, lifecycle, h, order, g, p);
    } else {
      var init, d := order[..|order| - 1], order[|order| - 1];
      assert order == init + [d] && init[..i] == order[..i];
      LastIsFresh(init, d);
      assert p in order[..i] ==> p in init;
      ReachedStatus(w, lifecycle, h, init, g, i, p);
      OneKeepsStatus(w, lifecycle, RebuildAll(w, lifecycle, h, init, g), d, g[d], p);
    }
  }

  /** What a rebuild makes of its `i`-th child is not touched any more. */
  lemma {:induction false} RestLeaves(w: Words, lifecycle: Option<string>, h: Hot, order: seq<Task>, g: Graph, i: nat)
    requires (forall c :: c in order ==> c in g) && NoDup(order) && i < |order|
    ensures var before, c := RebuildAll(w, lifecycle, h, order[..i], g), order[i];
      Same(RebuildOne(w, lifecycle, before, c, g[c]), RebuildAll(w, lifecycle, h, order, g), c)
  {
    var init, d := order[..|order| - 1], order[|order| - 1];
    assert order == init + [d] && init[..i] == order[..i];
    if i < |init| {
      LastIsFresh(init, d);
      RestLeaves(w, lifecycle, h, init, g, i);
      OneLeavesOthers(w, lifecycle, RebuildAll(w, lifecycle, h, init, g), d, g[d], order[i]);
    }
  }

  lemma NotBefore(order: seq<Task>, i: nat)
    requires NoDup(order) && i < |order|
    ensures order[i] !in order[..i] && IndexOf(order, order[i]) == i
  {
  }

  /** A second look at the parents of `c` sees something new in `p`: it was running the first time and has ended, and
      that shows in the counter or in the votes. */
  predicate Shows(w: Words, h: Hot, h': Hot, c: Task, parents: seq<Task>, p: Task) {
    && p in Seen(h, c, parents) && Turned(w, h, h', p)
    && (VerdictOn(w, h, c, parents).Rebuilt? || (!w.Success(h'.Status(p)) && p !in h.Votes(c)))
  }

  /** Looking later, when `p` has ended, instead of earlier makes a difference for `c`. */
  predicate Matters(w: Words, h: Hot, h': Hot, c: Task, parents: seq<Task>, p: Task) {
    p in Seen(h, c, parents) && Turned(w, h, h', p) && (Shows(w, h, h', c, parents, p) || c !in h.Children(p))
  }

  lemma NobodyTurned(w: Words, h: Hot, h': Hot, c: Task, parents: seq<Task>)
    requires Later(w, h, h') && VerdictOn(w, h, c, parents).Rebuilt?
    requires forall p :: !Shows(w, h, h', c, parents, p)
    ensures Alike(w, h, h', parents)
  {
    assert Seen(h, c, parents) == parents;
    forall p | p in parents
      ensures !Turned(w, h, h', p)
    {
      assert !Shows(w, h, h', c, parents, p);
    }
  }

  lemma LaterLookDiffers(w: Words, lifecycle: Option<string>, h: Hot, h': Hot, c: Task, parents: seq<Task>, p: Task)
    requires Later(w, h, h') && Same(h, h', c) && Matters(w, h, h', c, parents, p)
    ensures !Same(RebuildOne(w, lifecycle, h, c, parents), RebuildOne(w, lifecycle, h', c, parents), c)
  {
    var seen := Seen(h, c, parents);
    KnownSame(h, h', parents, 0);
    OneMeans(w, lifecycle, h, c, parents);
    OneMeans(w, lifecycle, h', c, parents);
    if VerdictOn(w, h, c, parents).Rebuilt? {
      RunningShrinks(w, h, h', parents);
    } else {
      SeenByStatus(w, h, seen);
      SeenByStatus(w, h', seen);
      assert p in Elems(Running(w, h, seen)) && p !in Elems(Running(w, h', seen));
      assert p !in Elems(Abnormal(w, h, seen)) && (!w.Success(h'.Status(p)) ==> p in Elems(Abnormal(w, h', seen)));
    }
  }

  lemma SeenByStatus(w: Words, h: Hot, seen: seq<Task>)
    ensures forall p :: p in Elems(Running(w, h, seen)) <==> p in seen && !w.Terminal(h.Status(p))
    ensures forall p :: p in Elems(Abnormal(w, h, seen)) <==>
      p in seen && w.Terminal(h.Status(p)) && !w.Success(h.Status(p))
  {
    RunningExact(w, h, seen);
    AbnormalExact(w, h, seen);
  }

  lemma LaterLookAgrees(w: Words, lifecycle: Option<string>, h: Hot, h': Hot, c: Task, parents: seq<Task>)
    requires Later(w, h, h') && Same(h, h', c) && forall p :: !Matters(w, h, h', c, parents, p)
    ensures Same(RebuildOne(w, lifecycle, h, c, parents), RebuildOne(w, lifecycle, h', c, parents), c)
  {
    if VerdictOn(w, h, c, parents).Rebuilt? {
      assert forall p :: !Shows(w, h, h', c, parents, p) by {
        assert forall p :: Shows(w, h, h', c, parents, p) ==> Matters(w, h, h', c, parents, p);
      }
      NobodyTurned(w, h, h', c, parents);
      OneIsLocal(w, lifecycle, h, h', c, parents);
    } else {
      SkippedAgrees(w, h, h', c, parents);
      KnownSame(h, h', parents, 0);
      OneMeans(w, lifecycle, h, c, parents);
      OneMeans(w, lifecycle, h', c, parents);
    }
  }

  lemma SkippedAgrees(w: Words, h: Hot, h': Hot, c: Task, parents: seq<Task>)
    requires Later(w, h, h') && Same(h, h', c) && forall p :: !Matters(w, h, h', c, parents, p)
    ensures var seen := Seen(h, c, parents);
      && h.Votes(c) + Elems(Abnormal(w, h, seen)) == h.Votes(c) + Elems(Abnormal(w, h', seen))
      && forall p :: c in h.Children(p) || p in Elems(Running(w, h, seen)) <==>
                     c in h.Children(p) || p in Elems(Running(w, h', seen))
  {
    var seen := Seen(h, c, parents);
    SeenByStatus(w, h, seen);
    SeenByStatus(w, h', seen);
    forall p
      ensures p in h.Votes(c) + Elems(Abnormal(w, h, seen)) <==> p in h.Votes(c) + Elems(Abnormal(w, h', seen))
      ensures c in h.Children(p) || p in Elems(Running(w, h, seen)) <==>
              c in h.Children(p) || p in Elems(Running(w, h', seen))
    {
      assert !Matters(w, h, h', c, parents, p);
    }
  }

  lemma LaterLookIff(w: Words, lifecycle: Option<string>, h: Hot, h': Hot, c: Task, parents: seq<Task>)
    requires Later(w, h, h') && Same(h, h', c)
    ensures Same(RebuildOne(w, lifecycle, h, c, parents), RebuildOne(w, lifecycle, h', c, parents), c) <==>
      forall p :: !Matters(w, h, h', c, parents, p)
  {
    if forall p :: !Matters(w, h, h', c, parents, p) {
      LaterLookAgrees(w, lifecycle, h, h', c, parents);
    } else {
      var p :| Matters(w, h, h', c, parents, p);
      LaterLookDiffers(w, lifecycle, h, h', c, parents, p);
    }
  }

  lemma MattersWhenReached(w: Words, lifecycle: Option<string>, h: Hot, order: seq<Task>, g: Graph, i: nat, p: Task)
    requires (forall c :: c in order ==> c in g) && NoDup(order) && i < |order|
    ensures var c, reached := order[i], RebuildAll(w, lifecycle, h, order[..i], g);
      Matters(w, h, reached, c, g[c], p) <==>
        p in order[..i] && Matters(w, h, RebuildAll(w, lifecycle, h, order, g), c, g[c], p)
  {
    ReachedStatus(w, lifecycle, h, order, g, i, p);
  }

  lemma SameAsLast(a: Hot, b: Hot, b': Hot, c: Task)
    requires Same(b, b', c)
    ensures Same(a, b, c) <==> Same(a, b', c)
  {
  }

  /** The whole rebuild does to a child what rebuilding it alone would do, if and only if it ends none of the child's
      parents before it in a way that matters. */
  lemma AllActIndependently(w: Words, lifecycle: Option<string>, h: Hot, order: seq<Task>, g: Graph, c: Task)
    requires (forall d :: d in order ==> d in g) && NoDup(order) && c in order
    ensures var once := RebuildAll(w, lifecycle, h, order, g);
      Same(RebuildOne(w, lifecycle, h, c, g[c]), once, c) <==>
        forall p :: p in order[..IndexOf(order, c)] ==> !Matters(w, h, once, c, g[c], p)
  {
    var i, once := IndexOf(order, c), RebuildAll(w, lifecycle, h, order, g);
    var reached := RebuildAll(w, lifecycle, h, order[..i], g);
    AllLeaveOthers(w, lifecycle, h, order[..i], g, c);
    RebuildIsLater(w, lifecycle, h, order[..i], g);
    RestLeaves(w, lifecycle, h, order, g, i);
    LaterLookIff(w, lifecycle, h, reached, c, g[c]);
    var alone := RebuildOne(w, lifecycle, h, c, g[c]);
    SameAsLast(alone, RebuildOne(w, lifecycle, reached, c, g[c]), once, c);
    forall p
      ensures Matters(w, h, reached, c, g[c], p) <==> p in order[..i] && Matters(w, h, once, c, g[c], p)
    {
      MattersWhenReached(w, lifecycle, h, order, g, i, p);
    }
  }

  /** The rebuild agrees with registration: a child whose record and parents all exist ends with the active-children
      memberships, votes and counter that registering it afresh would give, if and only if the rebuild ends none of
      its parents before it. */
  lemma RebuildAgreesWithRegistration(w: Words, lifecycle: Option<string>, h: Hot, edges: seq<DependencyEdge>, c: Task)
    requires c in EdgeGraph(edges) && c in h.tasks && NoDup(edges)
    requires forall p :: p in EdgeGraph(edges)[c] ==> p in h.tasks
    ensures Dedupe(EdgeGraph(edges)[c]) == EdgeGraph(edges)[c]
    ensures var order, once := Order(edges), RebuildAll(w, lifecycle, h, Order(edges), EdgeGraph(edges));
      Same(Registered(w, h, c, EdgeGraph(edges)[c]), once, c) <==>
        forall p :: p in EdgeGraph(edges)[c] && p in order[..IndexOf(order, c)] ==> !Turned(w, h, once, p)
  {
    var g := EdgeGraph(edges);
    UniqueRowsUniqueParents(edges, c);
    DedupeIdentity(g[c]);
    AgreesInOrder(w, lifecycle, h, Order(edges), g, c);
  }

  lemma AgreesInOrder(w: Words, lifecycle: Option<string>, h: Hot, order: seq<Task>, g: Graph, c: Task)
    requires (forall d :: d in order ==> d in g) && NoDup(order) && c in order
    requires c in h.tasks && forall p :: p in g[c] ==> p in h.tasks
    ensures var once := RebuildAll(w, lifecycle, h, order, g);
      Same(Registered(w, h, c, g[c]), once, c) <==>
        forall p :: p in g[c] && p in order[..IndexOf(order, c)] ==> !Turned(w, h, once, p)
  {
    var once := RebuildAll(w, lifecycle, h, order, g);
    AllActIndependently(w, lifecycle, h, order, g, c);
    RegisteredIsRebuilt(w, lifecycle, h, c, g[c]);
    SameAsLast(once, Registered(w, h, c, g[c]), RebuildOne(w, lifecycle, h, c, g[c]), c);
    KnownMatters(w, h, once, c, g[c]);
  }

  lemma KnownMatters(w: Words, h: Hot, h': Hot, c: Task, parents: seq<Task>)
    requires c in h.tasks && forall p :: p in parents ==> p in h.tasks
    ensures forall p :: Matters(w, h, h', c, parents, p) <==> p in parents && Turned(w, h, h', p)
  {
    AllKnown(w, h, c, parents);
  }

  lemma AllKnown(w: Words, h: Hot, c: Task, parents: seq<Task>)
    requires c in h.tasks && forall p :: p in parents ==> p in h.tasks
    ensures VerdictOn(w, h, c, parents).Rebuilt? && Seen(h, c, parents) == parents
  {
    assert forall k :: 0 <= k < |parents| ==> parents[k] in parents;
  }

  lemma RegisteredIsRebuilt(w: Words, lifecycle: Option<string>, h: Hot, c: Task, parents: seq<Task>)
    requires c in h.tasks && forall p :: p in parents ==> p in h.tasks
    ensures Same(Registered(w, h, c, parents), RebuildOne(w, lifecycle, h, c, parents), c)
  {
    AllKnown(w, h, c, parents);
    OneMeans(w, lifecycle, h, c, parents);
    CollectedMeans(w, h, c, parents);
  }

  lemma CancelledOneMore(w: Words, lifecycle: Option<string>, h: Hot, order: seq<Task>, g: Graph, d: Task, c: Task)
    requires (forall x :: x in order ==> x in g) && d in g
    ensures c in TallyAll(w, lifecycle, h, order + [d], g).cancelled <==>
      || c in TallyAll(w, lifecycle, h, order, g).cancelled
      || (c == d && lifecycle.Some? &&
          VerdictOn(w, RebuildAll(w, lifecycle, h, order, g), d, g[d]) == Rebuilt(true))
  {
    assert (order + [d])[..|order|] == order;
  }

  /** Cancelled is whoever had complete votes at its turn. */
  lemma {:induction false} CancelledAtTurn(w: Words, lifecycle: Option<string>, h: Hot, order: seq<Task>, g: Graph,
                                           i: nat)
    requires (forall c :: c in order ==> c in g) && NoDup(order) && i < |order|
    ensures var c, reached := order[i], RebuildAll(w, lifecycle, h, order[..i], g);
      c in TallyAll(w, lifecycle, h, order, g).cancelled <==>
        lifecycle.Some? && VerdictOn(w, reached, c, g[c]) == Rebuilt(true)
  {
    var init, d := order[..|order| - 1], order[|order| - 1];
    assert order == init + [d] && init[..i] == order[..i];
    LastIsFresh(init, d);
    CancelledOneMore(w, lifecycle, h, init, g, d, order[i]);
    if i < |init| { CancelledAtTurn(w, lifecycle, h, init, g, i); } else { OnlyInOrder(w, lifecycle, h, init, g, d); }
  }

  lemma {:induction false} OnlyInOrder(w: Words, lifecycle: Option<string>, h: Hot, order: seq<Task>, g: Graph, c: Task)
    requires (forall d :: d in order ==> d in g) && c !in order
    ensures c !in TallyAll(w, lifecycle, h, order, g).cancelled
  {
    if order != [] {
      var init, d := order[..|order| - 1], order[|order| - 1];
      assert order == init + [d];
      OnlyInOrder(w, lifecycle, h, init, g, c);
      CancelledOneMore(w, lifecycle, h, init, g, d, c);
    }
  }

  /** `p` has ended without success when the rebuild comes to the child after `before`. */
  predicate FailsByThen(w: Words, h: Hot, once: Hot, before: seq<Task>, p: Task) {
    Fails(w, if p in before then once else h, p)
  }

  /** The children reported as cancelled: those on record with all their parents, each of which has ended without
      success by the child's turn or had voted, at least one of them the former. A live one of them gets the lifecycle's
      status, and every other child keeps the status it had. */
  lemma CancelledIsExact(w: Words, lifecycle: Option<string>, h: Hot, edges: seq<DependencyEdge>, c: Task)
    requires NoDup(edges) && c in Order(edges) && h.Votes(c) <= Elems(EdgeGraph(edges)[c])
    ensures var g, order := EdgeGraph(edges), Order(edges);
      var once, before := RebuildAll(w, lifecycle, h, order, g), order[..IndexOf(order, c)];
      && (c in TallyAll(w, lifecycle, h, order, g).cancelled <==>
           && lifecycle.Some? && OnRecord(h, c, g[c])
           && (exists p :: p in g[c] && FailsByThen(w, h, once, before, p))
           && (forall p :: p in g[c] ==> FailsByThen(w, h, once, before, p) || p in h.Votes(c)))
      && (c in TallyAll(w, lifecycle, h, order, g).cancelled && !w.Terminal(h.Status(c)) ==>
           once.Status(c) == lifecycle.value)
      && (c !in TallyAll(w, lifecycle, h, order, g).cancelled || w.Terminal(h.Status(c)) ==>
           once.Status(c) == h.Status(c))
  {
    var g, order := EdgeGraph(edges), Order(edges);
    var i := IndexOf(order, c);
    CancelledAtTurn(w, lifecycle, h, order, g, i);
    UniqueRowsUniqueParents(edges, c);
    DoomedAtTurn(w, lifecycle, h, order, g, i);
    StatusAfterTurn(w, lifecycle, h, order, g, i);
  }

  lemma DoomedAtTurn(w: Words, lifecycle: Option<string>, h: Hot, order: seq<Task>, g: Graph, i: nat)
    requires (forall c :: c in order ==> c in g) && NoDup(order) && i < |order| && NoDup(g[order[i]])
    requires h.Votes(order[i]) <= Elems(g[order[i]])
    ensures var c, once := order[i], RebuildAll(w, lifecycle, h, order, g);
      VerdictOn(w, RebuildAll(w, lifecycle, h, order[..i], g), c, g[c]) == Rebuilt(true) <==>
        && OnRecord(h, c, g[c])
        && (exists p :: p in g[c] && FailsByThen(w, h, once, order[..i], p))
        && (forall p :: p in g[c] ==> FailsByThen(w, h, once, order[..i], p) || p in h.Votes(c))
  {
    var c, reached := order[i], RebuildAll(w, lifecycle, h, order[..i], g);
    NotBefore(order, i);
    RebuildIsLater(w, lifecycle, h, order[..i], g);
    AllLeaveOthers(w, lifecycle, h, order[..i], g, c);
    VerdictByRecords(w, reached, c, g[c]);
    TriggeredIff(w, reached, c, g[c]);
    forall p
      ensures Fails(w, reached, p) <==> FailsByThen(w, h, RebuildAll(w, lifecycle, h, order, g), order[..i], p)
    {
      ReachedStatus(w, lifecycle, h, order, g, i, p);
    }
  }

  lemma StatusAfterTurn(w: Words, lifecycle: Option<string>, h: Hot, order: seq<Task>, g: Graph, i: nat)
    requires (forall c :: c in order ==> c in g) && NoDup(order) && i < |order|
    ensures var c, reached := order[i], RebuildAll(w, lifecycle, h, order[..i], g);
      RebuildAll(w, lifecycle, h, order, g).Status(c) ==
        if VerdictOn(w, reached, c, g[c]) == Rebuilt(true) && lifecycle.Some? && !w.Terminal(h.Status(c))
        then lifecycle.value else h.Status(c)
  {
    var c, reached := order[i], RebuildAll(w, lifecycle, h, order[..i], g);
    NotBefore(order, i);
    RebuildOneMore(w, lifecycle, h, order, i, g);
    assert order[..i + 1][i] == c;
    ReachedStatus(w, lifecycle, h, order, g, i, c);
    ReachedStatus(w, lifecycle, h, order, g, i + 1, c);
    CancelledOnce(w, lifecycle, reached, c, g[c]);
  }

  // ---------- a second rebuild ----------

  lemma SecondLookShows(w: Words, lifecycle: Option<string>, h: Hot, h': Hot, c: Task, parents: seq<Task>, p: Task)
    requires Later(w, h, h') && Same(RebuildOne(w, lifecycle, h, c, parents), h', c) && Shows(w, h, h', c, parents, p)
    ensures !Same(h', RebuildOne(w, lifecycle, h', c, parents), c)
  {
    var seen := Seen(h, c, parents);
    KnownSame(h, h', parents, 0);
    OneMeans(w, lifecycle, h, c, parents);
    OneMeans(w, lifecycle, h', c, parents);
    if VerdictOn(w, h, c, parents).Rebuilt? {
      RunningShrinks(w, h, h', parents);
    } else {
      SeenByStatus(w, h, seen);
      SeenByStatus(w, h', seen);
      assert p in Elems(Abnormal(w, h', seen));
    }
  }

  lemma SecondLookAddsNothing(w: Words, h: Hot, h': Hot, c: Task, parents: seq<Task>)
    requires Later(w, h, h') && forall p :: !Shows(w, h, h', c, parents, p)
    ensures var seen := Seen(h, c, parents);
      && Elems(Running(w, h', seen)) <= Elems(Running(w, h, seen))
      && Elems(Abnormal(w, h', seen)) <= h.Votes(c) + Elems(Abnormal(w, h, seen))
  {
    var seen := Seen(h, c, parents);
    SeenByStatus(w, h, seen);
    SeenByStatus(w, h', seen);
    forall p | p in Elems(Abnormal(w, h', seen))
      ensures p in h.Votes(c) + Elems(Abnormal(w, h, seen))
    {
      assert !Shows(w, h, h', c, parents, p);
    }
  }

  lemma NothingShows(w: Words, lifecycle: Option<string>, h: Hot, h': Hot, c: Task, parents: seq<Task>)
    requires Later(w, h, h') && Same(RebuildOne(w, lifecycle, h, c, parents), h', c)
    requires forall p :: !Shows(w, h, h', c, parents, p)
    ensures Same(h', RebuildOne(w, lifecycle, h', c, parents), c)
  {
    KnownSame(h, h', parents, 0);
    OneMeans(w, lifecycle, h, c, parents);
    OneMeans(w, lifecycle, h', c, parents);
    SecondLookAddsNothing(w, h, h', c, parents);
    if VerdictOn(w, h, c, parents).Rebuilt? {
      NobodyTurned(w, h, h', c, parents);
      StatusDecides(w, h, h', parents);
    }
  }

  lemma TriggeredAlike(w: Words, h: Hot, h': Hot, c: Task, parents: seq<Task>)
    requires Abnormal(w, h, parents) == Abnormal(w, h', parents)
    requires h'.Votes(c) == h.Votes(c) + Elems(Abnormal(w, h, parents))
    ensures Triggered(w, h, c, parents) <==> Triggered(w, h', c, parents)
  {
    var voters := Elems(Abnormal(w, h, parents));
    assert h.Votes(c) + voters + voters == h.Votes(c) + voters;
  }

  lemma VerdictAlike(w: Words, lifecycle: Option<string>, h: Hot, h': Hot, c: Task, parents: seq<Task>)
    requires Later(w, h, h') && h'.Votes(c) == RebuildOne(w, lifecycle, h, c, parents).Votes(c)
    requires forall p :: !Shows(w, h, h', c, parents, p)
    ensures VerdictOn(w, h', c, parents) == VerdictOn(w, h, c, parents)
  {
    KnownSame(h, h', parents, 0);
    if VerdictOn(w, h, c, parents).Rebuilt? {
      NobodyTurned(w, h, h', c, parents);
      StatusDecides(w, h, h', parents);
      OneMeans(w, lifecycle, h, c, parents);
      TriggeredAlike(w, h, h', c, parents);
    }
  }

  /** The record of a child after its rebuild. */
  lemma CancelledOnce(w: Words, lifecycle: Option<string>, h: Hot, c: Task, parents: seq<Task>)
    ensures var cancels := VerdictOn(w, h, c, parents) == Rebuilt(true) && lifecycle.Some? && !w.Terminal(h.Status(c));
      && RebuildOne(w, lifecycle, h, c, parents).tasks
         == (if cancels then h.WriteStatus(c, lifecycle.value).tasks else h.tasks)
      && (cancels ==> c in h.tasks)
  {
  }

  /** A second look cancels nobody anew: a child it would cancel was cancelled by the first. */
  lemma NothingCancelled(w: Words, lifecycle: Option<string>, h: Hot, h': Hot, c: Task, parents: seq<Task>)
    requires Later(w, h, h') && h'.Votes(c) == RebuildOne(w, lifecycle, h, c, parents).Votes(c)
    requires h'.Status(c) == RebuildOne(w, lifecycle, h, c, parents).Status(c)
    requires forall p :: !Shows(w, h, h', c, parents, p)
    ensures RebuildOne(w, lifecycle, h', c, parents).tasks == h'.tasks
  {
    VerdictAlike(w, lifecycle, h, h', c, parents);
    CancelledOnce(w, lifecycle, h, c, parents);
    CancelledOnce(w, lifecycle, h', c, parents);
  }

  /** What a second rebuild changes about a child: something if and only if a parent the first one saw running when it
      reached the child has ended when the second one does, and that shows. */
  lemma ChildRebuiltTwice(w: Words, lifecycle: Option<string>, h: Hot, order: seq<Task>, g: Graph, i: nat)
    requires (forall c :: c in order ==> c in g) && NoDup(order) && i < |order|
    ensures var once, c := RebuildAll(w, lifecycle, h, order, g), order[i];
      var first, second := RebuildAll(w, lifecycle, h, order[..i], g), RebuildAll(w, lifecycle, once, order[..i], g);
      Same(once, RebuildAll(w, lifecycle, once, order, g), c) <==> forall p :: !Shows(w, first, second, c, g[c], p)
  {
    var once, c := RebuildAll(w, lifecycle, h, order, g), order[i];
    var first, second := RebuildAll(w, lifecycle, h, order[..i], g), RebuildAll(w, lifecycle, once, order[..i], g);
    NotBefore(order, i);
    RestLeaves(w, lifecycle, h, order, g, i);
    RestLeaves(w, lifecycle, once, order, g, i);
    AllLeaveOthers(w, lifecycle, once, order[..i], g, c);
    FirstToOnce(w, lifecycle, h, order, g, i);
    RebuildIsLater(w, lifecycle, once, order[..i], g);
    if forall p :: !Shows(w, first, second, c, g[c], p) {
      NothingShows(w, lifecycle, first, second, c, g[c]);
    } else {
      var p :| Shows(w, first, second, c, g[c], p);
      SecondLookShows(w, lifecycle, first, second, c, g[c], p);
    }
  }

  lemma FirstToOnce(w: Words, lifecycle: Option<string>, h: Hot, order: seq<Task>, g: Graph, i: nat)
    requires (forall c :: c in order ==> c in g) && NoDup(order) && i <= |order|
    ensures Later(w, RebuildAll(w, lifecycle, h, order[..i], g), RebuildAll(w, lifecycle, h, order, g))
  {
    var first, once := RebuildAll(w, lifecycle, h, order[..i], g), RebuildAll(w, lifecycle, h, order, g);
    RebuildIsLater(w, lifecycle, h, order[..i], g);
    RebuildIsLater(w, lifecycle, h, order, g);
    forall p
      ensures w.Terminal(first.Status(p)) ==> once.Status(p) == first.Status(p)
    {
      ReachedStatus(w, lifecycle, h, order, g, i, p);
    }
  }

  /** The first rebuild came to child `c` before it ended its parent `p`, and that will show. */
  ghost predicate Overtaken(w: Words, h: Hot, once: Hot, order: seq<Task>, g: Graph, c: Task, p: Task)
    requires forall d :: d in order ==> d in g
  {
    c in order && p !in order[..IndexOf(order, c)] && Shows(w, h, once, c, g[c], p)
  }

  lemma OvertakenShows(w: Words, lifecycle: Option<string>, h: Hot, order: seq<Task>, g: Graph, i: nat, p: Task)
    requires (forall c :: c in order ==> c in g) && NoDup(order) && i < |order|
    ensures var once, c := RebuildAll(w, lifecycle, h, order, g), order[i];
      Overtaken(w, h, once, order, g, c, p) <==>
        Shows(w, RebuildAll(w, lifecycle, h, order[..i], g), once, c, g[c], p)
  {
    var first, c := RebuildAll(w, lifecycle, h, order[..i], g), order[i];
    NotBefore(order, i);
    RebuildIsLater(w, lifecycle, h, order[..i], g);
    KnownSame(h, first, g[c], 0);
    AllLeaveOthers(w, lifecycle, h, order[..i], g, c);
    ReachedStatus(w, lifecycle, h, order, g, i, p);
  }

  /** Nothing that shows happened behind the back of a child. */
  ghost predicate Settled(w: Words, h: Hot, once: Hot, order: seq<Task>, g: Graph)
    requires forall d :: d in order ==> d in g
  {
    forall c, p :: !Overtaken(w, h, once, order, g, c, p)
  }

  /** After a first rebuild that overtook nobody, the second one changes no record. */
  lemma {:induction false} SecondCancelsNobody(w: Words, lifecycle: Option<string>, h: Hot, order: seq<Task>, g: Graph,
                                               i: nat)
    requires (forall c :: c in order ==> c in g) && NoDup(order) && i <= |order|
    requires Settled(w, h, RebuildAll(w, lifecycle, h, order, g), order, g)
    ensures var once := RebuildAll(w, lifecycle, h, order, g);
      RebuildAll(w, lifecycle, once, order[..i], g).tasks == once.tasks
  {
    if i > 0 {
      SecondCancelsNobody(w, lifecycle, h, order, g, i - 1);
      SecondLookIsQuiet(w, lifecycle, h, order, g, i - 1);
    }
  }

  lemma NobodyShows(w: Words, lifecycle: Option<string>, h: Hot, order: seq<Task>, g: Graph, i: nat, second: Hot)
    requires (forall c :: c in order ==> c in g) && NoDup(order) && i < |order|
    requires Settled(w, h, RebuildAll(w, lifecycle, h, order, g), order, g)
    requires second.tasks == RebuildAll(w, lifecycle, h, order, g).tasks
    ensures forall p :: !Shows(w, RebuildAll(w, lifecycle, h, order[..i], g), second, order[i], g[order[i]], p)
  {
    var once, first, c := RebuildAll(w, lifecycle, h, order, g), RebuildAll(w, lifecycle, h, order[..i], g), order[i];
    forall p
      ensures !Shows(w, first, second, c, g[c], p)
    {
      OvertakenShows(w, lifecycle, h, order, g, i, p);
      assert !Overtaken(w, h, once, order, g, c, p);
      assert second.Status(p) == once.Status(p);
    }
  }

  lemma SecondLookIsQuiet(w: Words, lifecycle: Option<string>, h: Hot, order: seq<Task>, g: Graph, i: nat)
    requires (forall c :: c in order ==> c in g) && NoDup(order) && i < |order|
    requires Settled(w, h, RebuildAll(w, lifecycle, h, order, g), order, g)
    requires var once := RebuildAll(w, lifecycle, h, order, g);
      RebuildAll(w, lifecycle, once, order[..i], g).tasks == once.tasks
    ensures var once := RebuildAll(w, lifecycle, h, order, g);
      RebuildAll(w, lifecycle, once, order[..i + 1], g).tasks == once.tasks
  {
    var once, c := RebuildAll(w, lifecycle, h, order, g), order[i];
    var first, second := RebuildAll(w, lifecycle, h, order[..i], g), RebuildAll(w, lifecycle, once, order[..i], g);
    NotBefore(order, i);
    RebuildOneMore(w, lifecycle, h, order, i, g);
    RebuildOneMore(w, lifecycle, once, order, i, g);
    RestLeaves(w, lifecycle, h, order, g, i);
    AllLeaveOthers(w, lifecycle, once, order[..i], g, c);
    FirstToOnce(w, lifecycle, h, order, g, i);
    SameRecordsLater(w, first, once, second);
    assert order[..i + 1][i] == c;
    ReachedStatus(w, lifecycle, h, order, g, i + 1, c);
    NobodyShows(w, lifecycle, h, order, g, i, second);
    NothingCancelled(w, lifecycle, first, second, c, g[c]);
  }

  lemma SameRecordsLater(w: Words, first: Hot, once: Hot, second: Hot)
    requires Later(w, first, once) && second.tasks == once.tasks
    ensures Later(w, first, second)
    ensures forall p :: second.Status(p) == once.Status(p)
  {
  }

  /** An overtaken child is changed by the second rebuild. */
  lemma OvertakenChanges(w: Words, lifecycle: Option<string>, h: Hot, order: seq<Task>, g: Graph, c: Task, p: Task)
    requires (forall d :: d in order ==> d in g) && NoDup(order)
    requires Overtaken(w, h, RebuildAll(w, lifecycle, h, order, g), order, g, c, p)
    ensures var once := RebuildAll(w, lifecycle, h, order, g);
      !Same(once, RebuildAll(w, lifecycle, once, order, g), c)
  {
    var i, once := IndexOf(order, c), RebuildAll(w, lifecycle, h, order, g);
    OvertakenShows(w, lifecycle, h, order, g, i, p);
    AllKeepStatus(w, lifecycle, once, order[..i], g, p);
    ChildRebuiltTwice(w, lifecycle, h, order, g, i);
    var first, second := RebuildAll(w, lifecycle, h, order[..i], g), RebuildAll(w, lifecycle, once, order[..i], g);
    assert Shows(w, first, second, c, g[c], p);
  }

  /** Otherwise no child is. */
  lemma SettledStays(w: Words, lifecycle: Option<string>, h: Hot, order: seq<Task>, g: Graph, c: Task)
    requires (forall d :: d in order ==> d in g) && NoDup(order)
    requires Settled(w, h, RebuildAll(w, lifecycle, h, order, g), order, g)
    ensures var once := RebuildAll(w, lifecycle, h, order, g);
      Same(once, RebuildAll(w, lifecycle, once, order, g), c)
  {
    var once := RebuildAll(w, lifecycle, h, order, g);
    if c in order {
      var i := IndexOf(order, c);
      SecondCancelsNobody(w, lifecycle, h, order, g, i);
      NobodyShows(w, lifecycle, h, order, g, i, RebuildAll(w, lifecycle, once, order[..i], g));
      ChildRebuiltTwice(w, lifecycle, h, order, g, i);
    } else {
      AllLeaveOthers(w, lifecycle, once, order, g, c);
    }
  }

  /** Rebuilding a second time changes no counter, memberships or votes of any child if and only if the first rebuild
      overtook nobody, and then it changes no record either. */
  lemma RebuildIsIdempotent(w: Words, lifecycle: Option<string>, h: Hot, edges: seq<DependencyEdge>)
    ensures var g, order := EdgeGraph(edges), Order(edges);
      var once := RebuildAll(w, lifecycle, h, order, g);
      var twice := RebuildAll(w, lifecycle, once, order, g);
      && ((forall c :: Same(once, twice, c)) <==> Settled(w, h, once, order, g))
      && (Settled(w, h, once, order, g) ==> twice.tasks == once.tasks)
  {
    var g, order := EdgeGraph(edges), Order(edges);
    var once := RebuildAll(w, lifecycle, h, order, g);
    var twice := RebuildAll(w, lifecycle, once, order, g);
    if Settled(w, h, once, order, g) {
      forall c
        ensures Same(once, twice, c)
      {
        SettledStays(w, lifecycle, h, order, g, c);
      }
      SecondCancelsNobody(w, lifecycle, h, order, g, |order|);
      assert order[..|order|] == order;
    } else {
      var c, p :| Overtaken(w, h, once, order, g, c, p);
      OvertakenChanges(w, lifecycle, h, order, g, c, p);
    }
  }

  /** Parents that are children themselves come before their children. */
  predicate ParentsFirst(order: seq<Task>, g: Graph)
    requires forall c :: c in order ==> c in g
  {
    forall c, p :: c in order && p in g[c] && p in order ==> p in order[..IndexOf(order, c)]
  }

  lemma NotOvertaken(w: Words, lifecycle: Option<string>, h: Hot, order: seq<Task>, g: Graph, c: Task, p: Task)
    requires (forall d :: d in order ==> d in g) && c in order
    requires lifecycle.None? || p !in g[c] || p !in order || p in order[..IndexOf(order, c)]
    ensures !Overtaken(w, h, RebuildAll(w, lifecycle, h, order, g), order, g, c, p)
  {
    AllKeepStatus(w, lifecycle, h, order, g, p);
    assert p in Seen(h, c, g[c]) ==> p in g[c];
  }

  /** So it is without an injected lifecycle, and whenever the cold rows mention parents before their children. */
  lemma SettledWhen(w: Words, lifecycle: Option<string>, h: Hot, edges: seq<DependencyEdge>)
    requires lifecycle.None? || ParentsFirst(Order(edges), EdgeGraph(edges))
    ensures Settled(w, h, RebuildAll(w, lifecycle, h, Order(edges), EdgeGraph(edges)), Order(edges), EdgeGraph(edges))
  {
    var g, order := EdgeGraph(edges), Order(edges);
    var once := RebuildAll(w, lifecycle, h, order, g);
    forall c, p
      ensures !Overtaken(w, h, once, order, g, c, p)
    {
      if c in order { NotOvertaken(w, lifecycle, h, order, g, c, p); }
    }
  }

  /** The statuses of the example below. */
  predicate Ordinary(w: Words) {
    && !w.Terminal("pending") && !w.Terminal("running")
    && w.Terminal("failed") && !w.Success("failed") && w.Terminal("cancelled") && !w.Success("cancelled")
  }

  /** A child with one running parent counts it. */
  lemma CountsRunning(w: Words, lifecycle: Option<string>, h: Hot, c: Task, a: Task)
    requires c in h.tasks && a in h.tasks && !w.Terminal(h.Status(a)) && h.Votes(c) == {}
    ensures var h' := RebuildOne(w, lifecycle, h, c, [a]);
      h'.Remaining(c) == 1 && h'.tasks == h.tasks && h'.votes == h.votes
  {
    OneParent(w, h, a);
    assert VerdictOn(w, h, c, [a]) == Rebuilt(false);
  }

  /** A child whose one parent ended without success counts nothing, and is cancelled if it was running. */
  lemma CountsAbnormal(w: Words, lifecycle: Option<string>, h: Hot, a: Task, x: Task)
    requires a in h.tasks && x in h.tasks && w.Terminal(h.Status(x)) && !w.Success(h.Status(x)) && h.Votes(a) == {}
    ensures var h' := RebuildOne(w, lifecycle, h, a, [x]);
      && h'.Remaining(a) == 0 && h'.tasks.Keys == h.tasks.Keys
      && (lifecycle.Some? && !w.Terminal(h.Status(a)) ==> h'.Status(a) == lifecycle.value)
      && (forall c :: c != a ==> h'.Remaining(c) == h.Remaining(c) && h'.Votes(c) == h.Votes(c))
  {
    OneParent(w, h, x);
    assert Elems([x]) == {x} && h.Votes(a) + {x} == {x} && |{x}| == 1;
    assert VerdictOn(w, h, a, [x]) == Rebuilt(true);
  }

  lemma BothInTurn(w: Words, lifecycle: Option<string>, h: Hot, g: Graph, c: Task, a: Task)
    requires a in g && c in g
    ensures RebuildAll(w, lifecycle, h, [c, a], g)
         == RebuildOne(w, lifecycle, RebuildOne(w, lifecycle, h, c, g[c]), a, g[a])
  {
    assert [c, a][..1] == [c] && [c][..0] == [];
    assert RebuildAll(w, lifecycle, h, [], g) == h;
    assert RebuildAll(w, lifecycle, h, [c], g) == RebuildOne(w, lifecycle, h, c, g[c]);
  }

  lemma ParentsOneMore(edges: seq<DependencyEdge>, e: DependencyEdge, c: Task)
    ensures ParentsOf(edges + [e], c) == ParentsOf(edges, c) + if e.child == c then [e.parent] else []
  {
    assert (edges + [e])[..|edges|] == edges;
  }

  /** The parents a child has in a cold store of two rows. */
  lemma TwoRowsParents(e: DependencyEdge, f: DependencyEdge, c: Task)
    ensures ParentsOf([e, f], c) == (if e.child == c then [e.parent] else []) + if f.child == c then [f.parent] else []
  {
    ParentsOneMore([], e, c);
    ParentsOneMore([e], f, c);
    assert [] + [e] == [e] && [e] + [f] == [e, f];
  }

  /** Two rows of different children are two groups, ... */
  lemma TwoRowsGraph(e: DependencyEdge, f: DependencyEdge)
    requires e.child != f.child
    ensures EdgeGraph([e, f]) == map[e.child := [e.parent], f.child := [f.parent]]
  {
    TwoRowsParents(e, f, e.child);
    TwoRowsParents(e, f, f.child);
    var edges := [e, f];
    assert edges[0] == e && edges[1] == f && forall d :: d in edges ==> d == e || d == f;
    assert ParentsOf(edges, e.child) == [e.parent] && ParentsOf(edges, f.child) == [f.parent];
    assert EdgeGraph(edges).Keys == {e.child, f.child};
    assert EdgeGraph(edges)[e.child] == [e.parent] && EdgeGraph(edges)[f.child] == [f.parent];
  }

  /** ... rebuilt in the order of the rows. */
  lemma TwoRowsOrder(e: DependencyEdge, f: DependencyEdge)
    requires e.child != f.child
    ensures Order([e, f]) == [e.child, f.child]
  {
    assert [e, f][..1] == [e] && [e][..0] == [];
    assert ChildIds([]) == [] && ChildIds([e]) == [e.child] && ChildIds([e, f]) == [e.child, f.child];
    DedupeIdentity([e.child, f.child]);
  }

  /** The condition is needed: child `c` depends on `a`, which depends on the failed `x`. The first rebuild counts `a`
      as running for `c` and then cancels it; the second one does not count it any more. */
  lemma LifecycleBreaksIdempotence(w: Words, h: Hot, x: Task, a: Task, c: Task, edges: seq<DependencyEdge>)
    requires Ordinary(w) && x != a && a != c && c != x
    requires edges == [DependencyEdge(c, a), DependencyEdge(a, x)]
    requires h == Hot(map[x := Record("failed", None, []), a := Record("running", None, []),
                          c := Record("pending", None, [])], map[], map[], map[])
    ensures var once := RebuildAll(w, Some("cancelled"), h, Order(edges), EdgeGraph(edges));
      && once.Remaining(c) == 1
      && RebuildAll(w, Some("cancelled"), once, Order(edges), EdgeGraph(edges)).Remaining(c) == 0
  {
    TwoRowsGraph(edges[0], edges[1]);
    TwoRowsOrder(edges[0], edges[1]);
    var lifecycle, g := Some("cancelled"), EdgeGraph(edges);
    CountsRunning(w, lifecycle, h, c, a);
    var h1 := RebuildOne(w, lifecycle, h, c, [a]);
    CountsAbnormal(w, lifecycle, h1, a, x);
    BothInTurn(w, lifecycle, h, g, c, a);
    var once := RebuildAll(w, lifecycle, h, [c, a], g);
    CountsAbnormal(w, lifecycle, once, c, a);
    BothInTurn(w, lifecycle, once, g, c, a);
    OneLeavesOthers(w, lifecycle, RebuildOne(w, lifecycle, once, c, [a]), a, [x], c);
  }
}
