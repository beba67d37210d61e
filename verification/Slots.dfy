/** Resource slots along a lineage: a task does not queue for a resource that is entered in the ledger of an
    ancestor, and gives back what it acquired once. Ledger entries are never cleared, so the ancestor may have
    given its slot back by then; `SlotsStructured` says when it has not. */
module Slots {
  import opened Common
  import opened Graph

  type Task = Node
  type Resource = Node
  type Token = nat

  /** The governor's capacity per resource, and how many levels the ancestor walk climbs. */
  datatype Limits = Limits(capacity: nat, depth: nat)

  /** Where an execution stands. */
  datatype Phase =
    | Submitted
    | Walking(at: Task, i: nat, found: set<Resource>)
    | Waiting
    | Acquired(token: Token)
    | Body(slot: Option<Token>)
    | Releasing(token: Token)
    | Finished

  /** A task record with its execution. `ledger` is the resource entry that descendants look up;
      `entered` says that the body has been reached, so that children may exist; `serial` is the
      order of submission. */
  datatype Run = Run(serial: nat, parent: Option<Task>, want: Resource, ledger: Option<Resource>, entered: bool,
                     phase: Phase) {
    function Held(): Option<Token> {
      match phase
      case Acquired(k) => Some(k)
      case Body(slot) => slot
      case Releasing(k) => Some(k)
      case _ => None
    }

    /** Waiting for its resource or holding a token for it. */
    predicate Claims() {
      phase.Waiting? || Held().Some?
    }
  }

  /** The executions and the governor's books. */
  datatype State = State(runs: map<Task, Run>, tokens: map<Token, Resource>, inUse: map<Resource, int>, issued: nat) {
    function InUse(r: Resource): int {
      if r in inUse then inUse[r] else 0
    }
  }

  datatype Step =
    | Submit(t: Task, parent: Option<Task>, want: Resource)
    | Skip(t: Task)
    | Start(t: Task)
    | Look(t: Task)
    | Acquire(t: Task)
    | GiveUp(t: Task)
    | WriteLedger(t: Task)
    | Abort(t: Task)
    | Leave(t: Task)
    | Release(t: Task)

  /** The ancestors of `t`, nearest first, as far as `n` parent links lead. */
  function Ancestors(runs: map<Task, Run>, t: Task, n: nat): seq<Task> {
    if n == 0 then []
    else
      var near := Ancestors(runs, t, n - 1);
      var at := if near == [] then t else near[|near| - 1];
      if |near| == n - 1 && at in runs && runs[at].parent.Some? then near + [runs[at].parent.value] else near
  }

  function LedgerOf(runs: map<Task, Run>, t: Task): set<Resource> {
    if t in runs && runs[t].ledger.Some? then {runs[t].ledger.value} else {}
  }

  /** The resources recorded for a list of tasks. */
  function Ledgers(runs: map<Task, Run>, ts: seq<Task>): set<Resource> {
    if ts == [] then {} else Ledgers(runs, ts[..|ts| - 1]) + LedgerOf(runs, ts[|ts| - 1])
  }

  /** A child is submitted from inside its parent's body; a token is granted only below capacity. */
  predicate Enabled(lim: Limits, s: State, step: Step) {
    match step
    case Submit(t, parent, want) =>
      t !in s.runs && (parent.Some? ==> parent.value in s.runs && s.runs[parent.value].phase.Body?)
    case Skip(t) => t in s.runs && s.runs[t].phase.Submitted?
    case Start(t) => t in s.runs && s.runs[t].phase.Submitted?
    case Look(t) => t in s.runs && s.runs[t].phase.Walking?
    case Acquire(t) => t in s.runs && s.runs[t].phase.Waiting? && s.InUse(s.runs[t].want) < lim.capacity
    case GiveUp(t) => t in s.runs && s.runs[t].phase.Waiting?
    case WriteLedger(t) => t in s.runs && s.runs[t].phase.Acquired?
    case Abort(t) => t in s.runs && s.runs[t].phase.Acquired?
    case Leave(t) => t in s.runs && s.runs[t].phase.Body?
    case Release(t) => t in s.runs && s.runs[t].phase.Releasing?
  }

  /** One step of the ancestor walk, or the decision at its end: inherit or queue. */
  function Looked(lim: Limits, runs: map<Task, Run>, r: Run): Run
    requires r.phase.Walking?
  {
    var Walking(at, i, found) := r.phase;
    if i < lim.depth && at in runs && runs[at].parent.Some? then
      var up := runs[at].parent.value;
      r.(phase := Walking(up, i + 1, found + LedgerOf(runs, up)))
    else if r.want in found then r.(phase := Body(None), entered := true)
    else r.(phase := Waiting)
  }

  function Next(lim: Limits, s: State, step: Step): State
    requires Enabled(lim, s, step)
  {
    match step
    case Submit(t, parent, want) => s.(runs := s.runs[t := Run(|s.runs|, parent, want, None, false, Submitted)])
    case Skip(t) => s.(runs := s.runs[t := s.runs[t].(phase := Finished)])
    case Start(t) => s.(runs := s.runs[t := s.runs[t].(phase := Walking(t, 0, {}))])
    case Look(t) => s.(runs := s.runs[t := Looked(lim, s.runs, s.runs[t])])
    case Acquire(t) =>
      var want := s.runs[t].want;
      State(s.runs[t := s.runs[t].(phase := Acquired(s.issued))], s.tokens[s.issued := want],
            s.inUse[want := s.InUse(want) + 1], s.issued + 1)
    case GiveUp(t) => s.(runs := s.runs[t := s.runs[t].(phase := Finished)])
    case WriteLedger(t) =>
      var r := s.runs[t];
      s.(runs := s.runs[t := r.(ledger := Some(r.want), entered := true, phase := Body(Some(r.phase.token)))])
    case Abort(t) => s.(runs := s.runs[t := s.runs[t].(phase := Releasing(s.runs[t].phase.token))])
    case Leave(t) =>
      var r := s.runs[t];
      s.(runs := s.runs[t := r.(phase := if r.phase.slot.Some? then Releasing(r.phase.slot.value) else Finished)])
    case Release(t) => Released(s, t, s.runs[t].want, s.runs[t].phase.token)
  }

  /** The governor's release: a token not on the books is ignored. */
  function Released(s: State, t: Task, want: Resource, token: Token): State
    requires t in s.runs
  {
    var runs := s.runs[t := s.runs[t].(phase := Finished)];
    if token in s.tokens
    then State(runs, s.tokens - {token}, s.inUse[want := if s.InUse(want) > 1 then s.InUse(want) - 1 else 0], s.issued)
    else s.(runs := runs)
  }

  /** The bookkeeping of one task. */
  ghost predicate TaskOk(lim: Limits, runs: map<Task, Run>, t: Task)
    requires t in runs
  {
    var r := runs[t];
    && r.serial < |runs|
    && (r.parent.Some? ==>
      r.parent.value in runs && runs[r.parent.value].entered && runs[r.parent.value].serial < r.serial)
    && (r.entered ==> r.phase.Body? || r.phase.Releasing? || r.phase.Finished?)
    && (r.phase.Body? ==> r.entered)
    && (r.entered && r.Held().Some? ==> r.ledger == Some(r.want))
    && (!r.entered ==> r.ledger == None)
    && (r.phase.Walking? ==> WalkOk(lim, runs, t, r.phase.at, r.phase.i, r.phase.found))
    && (r.Claims() ==> r.want !in Ledgers(runs, Ancestors(runs, t, lim.depth)))
  }

  /** The walk stands `i` links above `t` and has collected what it passed. */
  ghost predicate WalkOk(lim: Limits, runs: map<Task, Run>, t: Task, at: Task, i: nat, found: set<Resource>) {
    var above := Ancestors(runs, t, i);
    && i <= lim.depth && |above| == i
    && at == (if i == 0 then t else above[i - 1])
    && found == Ledgers(runs, above)
  }

  ghost predicate AllOk(lim: Limits, runs: map<Task, Run>) {
    forall t :: t in runs ==> TaskOk(lim, runs, t)
  }

  /** Ancestors exist and have entered their bodies. */
  lemma {:induction false} AncestorsEntered(lim: Limits, runs: map<Task, Run>, t: Task, n: nat)
    requires AllOk(lim, runs) && t in runs
    ensures forall a :: a in Ancestors(runs, t, n) ==> a in runs && runs[a].entered
  {
    if n > 0 {
      AncestorsEntered(lim, runs, t, n - 1);
      var near := Ancestors(runs, t, n - 1);
      var at := if near == [] then t else near[|near| - 1];
      assert TaskOk(lim, runs, at);
    }
  }

  /** Later states see the same ancestors ... */
  lemma {:induction false} AncestorsKept(runs: map<Task, Run>, runs': map<Task, Run>, t: Task, n: nat)
    requires t in runs && forall a :: a in Ancestors(runs, t, n) ==> a in runs
    requires forall x :: x in runs ==> x in runs' && runs'[x].parent == runs[x].parent
    ensures Ancestors(runs', t, n) == Ancestors(runs, t, n)
  {
    if n > 0 {
      var near := Ancestors(runs, t, n - 1);
      assert forall a :: a in near ==> a in Ancestors(runs, t, n);
      AncestorsKept(runs, runs', t, n - 1);
      assert near != [] ==> near[|near| - 1] in near;
    }
  }

  /** ... with the same ledger entries. */
  lemma {:induction false} LedgersKept(runs: map<Task, Run>, runs': map<Task, Run>, ts: seq<Task>)
    requires forall x :: x in ts ==> LedgerOf(runs', x) == LedgerOf(runs, x)
    ensures Ledgers(runs', ts) == Ledgers(runs, ts)
  {
    if ts != [] {
      assert forall x :: x in ts[..|ts| - 1] ==> x in ts;
      LedgersKept(runs, runs', ts[..|ts| - 1]);
    }
  }

  /** `runs'` differs from `runs` only by the legal progress of task `u`. */
  ghost predicate Progress(runs: map<Task, Run>, runs': map<Task, Run>, u: Task) {
    && u in runs'
    && |runs| <= |runs'|
    && (forall x :: x in runs ==>
      x in runs' && runs'[x].parent == runs[x].parent && runs'[x].want == runs[x].want &&
        runs'[x].serial == runs[x].serial)
    && (forall x :: x in runs && x != u ==> runs'[x] == runs[x])
    && (forall x :: x in runs' && x != u ==> x in runs)
    && (u in runs && runs[u].entered ==> runs'[u].entered && runs'[u].ledger == runs[u].ledger)
  }

  lemma ViewKept(lim: Limits, runs: map<Task, Run>, runs': map<Task, Run>, u: Task, t: Task, n: nat)
    requires AllOk(lim, runs) && Progress(runs, runs', u) && t in runs
    ensures Ancestors(runs', t, n) == Ancestors(runs, t, n)
    ensures Ledgers(runs', Ancestors(runs, t, n)) == Ledgers(runs, Ancestors(runs, t, n))
  {
    AncestorsEntered(lim, runs, t, n);
    AncestorsKept(runs, runs', t, n);
    LedgersKept(runs, runs', Ancestors(runs, t, n));
  }

  lemma OthersOk(lim: Limits, runs: map<Task, Run>, runs': map<Task, Run>, u: Task, t: Task)
    requires AllOk(lim, runs) && Progress(runs, runs', u) && t in runs && t != u
    ensures TaskOk(lim, runs', t)
  {
    assert TaskOk(lim, runs, t);
    ViewKept(lim, runs, runs', u, t, lim.depth);
    if runs[t].phase.Walking? { ViewKept(lim, runs, runs', u, t, runs[t].phase.i); }
  }

  /** The walk's own step: it follows the same links the ancestor list is made of. */
  lemma WalkFurther(lim: Limits, runs: map<Task, Run>, t: Task, at: Task, i: nat, found: set<Resource>)
    requires WalkOk(lim, runs, t, at, i, found) && i < lim.depth && at in runs && runs[at].parent.Some?
    ensures WalkOk(lim, runs, t, runs[at].parent.value, i + 1, found + LedgerOf(runs, runs[at].parent.value))
  {
    var above, up := Ancestors(runs, t, i), runs[at].parent.value;
    assert Ancestors(runs, t, i + 1) == above + [up];
    assert (above + [up])[..i] == above;
  }

  lemma WalkOkKept(lim: Limits, runs: map<Task, Run>, runs': map<Task, Run>, t: Task, at: Task, i: nat,
                   found: set<Resource>)
    requires AllOk(lim, runs) && Progress(runs, runs', t) && t in runs && WalkOk(lim, runs, t, at, i, found)
    ensures WalkOk(lim, runs', t, at, i, found)
  {
    ViewKept(lim, runs, runs', t, t, i);
  }

  lemma LookFurtherOk(lim: Limits, runs: map<Task, Run>, t: Task, up: Task, next: Run)
    requires AllOk(lim, runs) && t in runs && runs[t].phase.Walking?
    requires next == runs[t].(phase := Walking(up, runs[t].phase.i + 1, runs[t].phase.found + LedgerOf(runs, up)))
    requires WalkOk(lim, runs, t, up, next.phase.i, next.phase.found)
    ensures TaskOk(lim, runs[t := next], t)
  {
    assert TaskOk(lim, runs, t);
    SameLineage(lim, runs, t, next);
    UpdateNotSmaller(runs, t, next);
    WalkOkKept(lim, runs, runs[t := next], t, up, next.phase.i, next.phase.found);
  }

  lemma LookEndsOk(lim: Limits, runs: map<Task, Run>, t: Task, next: Run)
    requires AllOk(lim, runs) && t in runs && runs[t].phase.Walking?
    requires var at := runs[t].phase.at; !(runs[t].phase.i < lim.depth && at in runs && runs[at].parent.Some?)
    requires next == Looked(lim, runs, runs[t])
    ensures TaskOk(lim, runs[t := next], t)
  {
    var r := runs[t];
    assert TaskOk(lim, runs, t);
    WalkIsOver(lim, runs, t, r.phase.at, r.phase.i, r.phase.found, lim.depth);
    ViewKept(lim, runs, runs[t := next], t, t, lim.depth);
    SameLineage(lim, runs, t, next);
  }

  lemma SameLineage(lim: Limits, runs: map<Task, Run>, t: Task, next: Run)
    requires AllOk(lim, runs) && t in runs && next.parent == runs[t].parent && next.serial == runs[t].serial
    requires runs[t].entered ==> next.entered
    ensures next.serial < |runs[t := next]|
    ensures next.parent.Some? ==>
      var p := next.parent.value; p in runs && runs[t := next][p].entered && runs[t := next][p].serial < next.serial
  {
    assert TaskOk(lim, runs, t);
    UpdateNotSmaller(runs, t, next);
  }

  lemma LookOk(lim: Limits, runs: map<Task, Run>, t: Task)
    requires AllOk(lim, runs) && t in runs && runs[t].phase.Walking?
    ensures TaskOk(lim, runs[t := Looked(lim, runs, runs[t])], t)
  {
    var r := runs[t];
    if r.phase.i < lim.depth && r.phase.at in runs && runs[r.phase.at].parent.Some? {
      assert TaskOk(lim, runs, t);
      WalkFurther(lim, runs, t, r.phase.at, r.phase.i, r.phase.found);
      LookFurtherOk(lim, runs, t, runs[r.phase.at].parent.value, Looked(lim, runs, r));
    } else {
      LookEndsOk(lim, runs, t, Looked(lim, runs, r));
    }
  }

  lemma {:induction false} WalkIsOver(lim: Limits, runs: map<Task, Run>, t: Task, at: Task, i: nat,
                                      found: set<Resource>, n: nat)
    requires WalkOk(lim, runs, t, at, i, found) && i <= n
    requires i == n || at !in runs || runs[at].parent.None?
    ensures Ancestors(runs, t, n) == Ancestors(runs, t, i)
    decreases n
  {
    if i < n { WalkIsOver(lim, runs, t, at, i, found, n - 1); }
  }

  lemma StepProgresses(lim: Limits, s: State, step: Step)
    requires AllOk(lim, s.runs) && Enabled(lim, s, step)
    ensures Progress(s.runs, Next(lim, s, step).runs, step.t)
  {
    var r := Next(lim, s, step).runs[step.t];
    ActorMoves(lim, s, step, r);
    UpdateNotSmaller(s.runs, step.t, r);
  }

  /** A step changes the run of its own task only, keeps what identifies it, and never takes back a ledger entry. */
  lemma ActorMoves(lim: Limits, s: State, step: Step, r: Run)
    requires AllOk(lim, s.runs) && Enabled(lim, s, step) && r == Next(lim, s, step).runs[step.t]
    ensures Next(lim, s, step).runs == s.runs[step.t := r]
    ensures step.t in s.runs ==>
      var was := s.runs[step.t];
      && r.parent == was.parent && r.want == was.want && r.serial == was.serial
      && (was.entered ==> r.entered && r.ledger == was.ledger)
  {
    if step.t in s.runs { assert TaskOk(lim, s.runs, step.t); }
  }

  lemma UpdateNotSmaller<K, V>(m: map<K, V>, k: K, v: V)
    ensures |m| <= |m[k := v]|
  {
    assert m[k := v].Keys == m.Keys + {k};
    CardSubset(m.Keys, m[k := v].Keys);
  }

  /** A task may change phase as long as it claims nothing new. */
  lemma PhaseChangeOk(lim: Limits, runs: map<Task, Run>, t: Task, r: Run)
    requires AllOk(lim, runs) && t in runs && r.parent == runs[t].parent && r.want == runs[t].want &&
      r.serial == runs[t].serial
    requires r.Claims() ==> runs[t].Claims()
    requires r.phase.Walking? ==> r.phase == Walking(t, 0, {})
    requires r.entered ==> r.phase.Body? || r.phase.Releasing? || r.phase.Finished?
    requires r.phase.Body? ==> r.entered
    requires r.entered && r.Held().Some? ==> r.ledger == Some(r.want)
    requires if runs[t].entered then r.entered && r.ledger == runs[t].ledger else !r.entered ==> r.ledger == None
    ensures TaskOk(lim, runs[t := r], t)
  {
    assert TaskOk(lim, runs, t);
    ViewKept(lim, runs, runs[t := r], t, t, lim.depth);
    if r.parent.Some? { assert TaskOk(lim, runs, r.parent.value); }
  }

  lemma ActorOk(lim: Limits, s: State, step: Step)
    requires AllOk(lim, s.runs) && Enabled(lim, s, step)
    ensures TaskOk(lim, Next(lim, s, step).runs, step.t)
  {
    if step.Look? {
      LookOk(lim, s.runs, step.t);
    } else if step.Submit? {
      if step.parent.Some? { assert TaskOk(lim, s.runs, step.parent.value); }
    } else {
      assert TaskOk(lim, s.runs, step.t);
      var r := Next(lim, s, step).runs[step.t];
      assert Next(lim, s, step).runs == s.runs[step.t := r];
      PhaseChangeOk(lim, s.runs, step.t, r);
    }
  }

  /** Every step keeps the lineage bookkeeping. */
  lemma StepKeepsOk(lim: Limits, s: State, step: Step)
    requires AllOk(lim, s.runs) && Enabled(lim, s, step)
    ensures AllOk(lim, Next(lim, s, step).runs)
  {
    var runs' := Next(lim, s, step).runs;
    StepProgresses(lim, s, step);
    forall t | t in runs'
      ensures TaskOk(lim, runs', t)
    {
      if t == step.t { ActorOk(lim, s, step); } else { OthersOk(lim, s.runs, runs', step.t, t); }
    }
  }

  lemma {:induction false} LedgersHas(runs: map<Task, Run>, ts: seq<Task>, a: Task)
    requires a in ts
    ensures LedgerOf(runs, a) <= Ledgers(runs, ts)
  {
    var init, last := ts[..|ts| - 1], ts[|ts| - 1];
    assert ts == init + [last];
    if a in init { LedgersHas(runs, init, a); }
  }

  /** At most one slot per resource on a chain: a task that waits for a resource or holds
      it has no ancestor, within 32 levels, that holds the same resource. */
  lemma NoAncestorHoldsIt(lim: Limits, runs: map<Task, Run>, t: Task, a: Task)
    requires AllOk(lim, runs) && t in runs && runs[t].Claims()
    requires a in Ancestors(runs, t, lim.depth)
    ensures a in runs && (runs[a].Held().Some? ==> runs[a].want != runs[t].want)
  {
    AncestorsEntered(lim, runs, t, lim.depth);
    assert TaskOk(lim, runs, t) && TaskOk(lim, runs, a);
    LedgersHas(runs, Ancestors(runs, t, lim.depth), a);
  }

  function TokensFor(tokens: map<Token, Resource>, r: Resource): set<Token> {
    set k | k in tokens && tokens[k] == r
  }

  /** Task `t` holds token `k`. */
  predicate Holds(runs: map<Task, Run>, t: Task, k: Token) {
    t in runs && runs[t].Held() == Some(k)
  }

  /** The tokens issued and not returned are exactly those held, by one task each. */
  ghost predicate HoldersTrue(runs: map<Task, Run>, tokens: map<Token, Resource>, issued: nat) {
    && (forall t, k :: Holds(runs, t, k) ==> k in tokens && tokens[k] == runs[t].want)
    && (forall t, u, k :: Holds(runs, t, k) && Holds(runs, u, k) ==> t == u)
    && (forall k :: k in tokens ==> k < issued && exists t :: Holds(runs, t, k))
  }

  /** The usage count of each resource is the number of its tokens, within capacity. */
  ghost predicate UsageTrue(lim: Limits, s: State) {
    forall r :: s.InUse(r) == |TokensFor(s.tokens, r)| <= lim.capacity
  }

  ghost predicate Books(lim: Limits, s: State) {
    HoldersTrue(s.runs, s.tokens, s.issued) && UsageTrue(lim, s)
  }

  lemma AcquireKeepsHolders(lim: Limits, s: State, t: Task)
    requires Books(lim, s) && Enabled(lim, s, Acquire(t))
    ensures var s' := Next(lim, s, Acquire(t)); HoldersTrue(s'.runs, s'.tokens, s'.issued)
  {
    var s', k := Next(lim, s, Acquire(t)), s.issued;
    assert forall u, j :: Holds(s'.runs, u, j) <==> (u == t && j == k) || (u != t && Holds(s.runs, u, j));
    forall j | j in s'.tokens
      ensures exists u :: Holds(s'.runs, u, j)
    {
      if j == k {
        assert Holds(s'.runs, t, k);
      } else {
        var u :| Holds(s.runs, u, j);
        assert Holds(s'.runs, u, j);
      }
    }
  }

  lemma TokenPutOn(tokens: map<Token, Resource>, k: Token, want: Resource, r: Resource)
    requires k !in tokens
    ensures |TokensFor(tokens[k := want], r)| == |TokensFor(tokens, r)| + if want == r then 1 else 0
  {
    if want == r {
      assert TokensFor(tokens[k := want], r) == TokensFor(tokens, r) + {k};
    } else {
      assert TokensFor(tokens[k := want], r) == TokensFor(tokens, r);
    }
  }

  lemma AcquireKeepsUsage(lim: Limits, s: State, t: Task)
    requires Books(lim, s) && Enabled(lim, s, Acquire(t))
    ensures UsageTrue(lim, Next(lim, s, Acquire(t)))
  {
    var s', k, want := Next(lim, s, Acquire(t)), s.issued, s.runs[t].want;
    assert k !in s.tokens;
    forall r
      ensures s'.InUse(r) == |TokensFor(s'.tokens, r)| <= lim.capacity
    {
      assert s.InUse(r) == |TokensFor(s.tokens, r)|;
      TokenPutOn(s.tokens, k, want, r);
    }
  }

  /** A release always finds its token on the books, and takes it off. */
  lemma ReleaseKeepsHolders(lim: Limits, s: State, t: Task)
    requires Books(lim, s) && Enabled(lim, s, Release(t))
    ensures s.runs[t].phase.token in s.tokens && s.runs[t].phase.token !in Next(lim, s, Release(t)).tokens
    ensures var s' := Next(lim, s, Release(t)); HoldersTrue(s'.runs, s'.tokens, s'.issued)
  {
    var s', k := Next(lim, s, Release(t)), s.runs[t].phase.token;
    assert Holds(s.runs, t, k);
    assert forall u, j :: Holds(s'.runs, u, j) <==> u != t && Holds(s.runs, u, j);
    forall j | j in s'.tokens
      ensures exists u :: Holds(s'.runs, u, j)
    {
      var u :| Holds(s.runs, u, j);
      assert Holds(s'.runs, u, j);
    }
  }

  lemma TokenTakenOff(tokens: map<Token, Resource>, k: Token, r: Resource)
    requires k in tokens
    ensures |TokensFor(tokens - {k}, r)| == |TokensFor(tokens, r)| - if tokens[k] == r then 1 else 0
  {
    if tokens[k] == r {
      assert TokensFor(tokens, r) == TokensFor(tokens - {k}, r) + {k};
    } else {
      assert TokensFor(tokens - {k}, r) == TokensFor(tokens, r);
    }
  }

  lemma ReleaseKeepsUsage(lim: Limits, s: State, t: Task)
    requires Books(lim, s) && Enabled(lim, s, Release(t))
    ensures UsageTrue(lim, Next(lim, s, Release(t)))
  {
    var s', k, want := Next(lim, s, Release(t)), s.runs[t].phase.token, s.runs[t].want;
    assert Holds(s.runs, t, k);
    forall r
      ensures s'.InUse(r) == |TokensFor(s'.tokens, r)| <= lim.capacity
    {
      assert s.InUse(r) == |TokensFor(s.tokens, r)|;
      TokenTakenOff(s.tokens, k, r);
    }
  }

  lemma QuietKeepsHolders(runs: map<Task, Run>, runs': map<Task, Run>, tokens: map<Token, Resource>, issued: nat)
    requires HoldersTrue(runs, tokens, issued)
    requires forall u, k :: Holds(runs', u, k) <==> Holds(runs, u, k)
    requires forall u :: u in runs ==> u in runs' && runs'[u].want == runs[u].want
    ensures HoldersTrue(runs', tokens, issued)
  {
    forall k | k in tokens
      ensures exists u :: Holds(runs', u, k)
    {
      var u :| Holds(runs, u, k);
      assert Holds(runs', u, k);
    }
  }

  /** Every step keeps the books true. */
  lemma StepKeepsBooks(lim: Limits, s: State, step: Step)
    requires Books(lim, s) && Enabled(lim, s, step)
    ensures Books(lim, Next(lim, s, step))
  {
    var s' := Next(lim, s, step);
    match step
    case Acquire(t) =>
      AcquireKeepsHolders(lim, s, t);
      AcquireKeepsUsage(lim, s, t);
    case Release(t) =>
      ReleaseKeepsHolders(lim, s, t);
      ReleaseKeepsUsage(lim, s, t);
    case _ =>
      assert s'.tokens == s.tokens && s'.inUse == s.inUse && s'.issued == s.issued;
      QuietKeepsHolders(s.runs, s'.runs, s.tokens, s.issued);
  }

  ghost function Exec(lim: Limits, steps: seq<Step>): Option<State> {
    if steps == [] then Some(State(map[], map[], map[], 0))
    else
      var before, last := Exec(lim, steps[..|steps| - 1]), steps[|steps| - 1];
      if before.Some? && Enabled(lim, before.value, last) then Some(Next(lim, before.value, last)) else None
  }

  lemma {:induction false} RunKeepsAll(lim: Limits, steps: seq<Step>)
    requires Exec(lim, steps).Some?
    ensures AllOk(lim, Exec(lim, steps).value.runs) && Books(lim, Exec(lim, steps).value)
  {
    if steps == [] {
      assert forall r :: TokensFor(map[], r) == {};
    } else {
      var init, last := steps[..|steps| - 1], steps[|steps| - 1];
      RunKeepsAll(lim, init);
      StepKeepsOk(lim, Exec(lim, init).value, last);
      StepKeepsBooks(lim, Exec(lim, init).value, last);
    }
  }

  lemma AllReturned(lim: Limits, s: State, r: Resource)
    requires Books(lim, s) && forall u :: u in s.runs ==> s.runs[u].phase.Finished?
    ensures s.InUse(r) == 0
  {
    assert forall u, k :: !Holds(s.runs, u, k);
    assert TokensFor(s.tokens, r) == {};
  }

  /** Over every run: nobody waits for or holds a resource that an ancestor within the depth limit
      holds; usage never exceeds capacity; and when all executions are over, every slot is free. */
  lemma SlotsInAnyRun(lim: Limits, steps: seq<Step>, t: Task, a: Task, r: Resource)
    requires Exec(lim, steps).Some?
    ensures var s := Exec(lim, steps).value;
      && (t in s.runs && s.runs[t].Claims() && a in Ancestors(s.runs, t, lim.depth) ==>
          a in s.runs && (s.runs[a].Held().Some? ==> s.runs[a].want != s.runs[t].want))
      && s.InUse(r) <= lim.capacity
      && ((forall u :: u in s.runs ==> s.runs[u].phase.Finished?) ==> s.InUse(r) == 0)
  {
    var s := Exec(lim, steps).value;
    RunKeepsAll(lim, steps);
    if t in s.runs && s.runs[t].Claims() && a in Ancestors(s.runs, t, lim.depth) {
      NoAncestorHoldsIt(lim, s.runs, t, a);
    }
    if forall u :: u in s.runs ==> s.runs[u].phase.Finished? { AllReturned(lim, s, r); }
    assert UsageTrue(lim, s);
  }

  // ---------- nobody needs anybody else to end ----------

  /** The state after further steps. */
  ghost function ExecFrom(lim: Limits, s: State, steps: seq<Step>): Option<State>
    decreases |steps|
  {
    if steps == [] then Some(s)
    else if Enabled(lim, s, steps[0]) then ExecFrom(lim, Next(lim, s, steps[0]), steps[1..])
    else None
  }

  lemma First(lim: Limits, s: State, step: Step, rest: seq<Step>)
    requires Enabled(lim, s, step)
    ensures ExecFrom(lim, s, [step] + rest) == ExecFrom(lim, Next(lim, s, step), rest)
  {
    assert ([step] + rest)[1..] == rest;
  }

  /** `steps`, all of them by `t`, lead from `s` to `s'`, where `t` is over and everybody else as before. */
  ghost predicate Ends(lim: Limits, s: State, steps: seq<Step>, s': State, t: Task) {
    && ExecFrom(lim, s, steps) == Some(s')
    && (forall k :: 0 <= k < |steps| ==> steps[k].t == t)
    && t in s'.runs && s'.runs[t].phase.Finished?
    && s'.runs.Keys == s.runs.Keys && (forall x :: x in s.runs && x != t ==> s'.runs[x] == s.runs[x])
  }

  lemma EndsAfter(lim: Limits, s: State, step: Step, steps: seq<Step>, s': State, t: Task)
    requires Enabled(lim, s, step) && !step.Submit? && step.t == t && Ends(lim, Next(lim, s, step), steps, s', t)
    ensures Ends(lim, s, [step] + steps, s', t)
  {
    First(lim, s, step, steps);
    assert Next(lim, s, step).runs == s.runs[t := Next(lim, s, step).runs[t]];
  }

  lemma Stops(lim: Limits, s: State, t: Task)
    requires t in s.runs && s.runs[t].phase.Finished?
    ensures Ends(lim, s, [], s, t)
  {
  }

  lemma HolderEnds(lim: Limits, s: State, t: Task) returns (steps: seq<Step>, s': State)
    requires t in s.runs && s.runs[t].phase.Releasing?
    ensures Ends(lim, s, steps, s', t)
  {
    s' := Next(lim, s, Release(t));
    Stops(lim, s', t);
    EndsAfter(lim, s, Release(t), [], s', t);
    steps := [Release(t)] + [];
  }

  lemma AtWorkEnds(lim: Limits, s: State, t: Task) returns (steps: seq<Step>, s': State)
    requires t in s.runs && (s.runs[t].phase.Acquired? || s.runs[t].phase.Body?)
    ensures Ends(lim, s, steps, s', t)
  {
    var step := if s.runs[t].phase.Acquired? then Abort(t) else Leave(t);
    var s1 := Next(lim, s, step);
    if s1.runs[t].phase.Finished? {
      Stops(lim, s1, t);
      steps, s' := [], s1;
    } else {
      steps, s' := HolderEnds(lim, s1, t);
    }
    EndsAfter(lim, s, step, steps, s', t);
    steps := [step] + steps;
  }

  lemma {:induction false} WalkerEnds(lim: Limits, s: State, t: Task) returns (steps: seq<Step>, s': State)
    requires t in s.runs && s.runs[t].phase.Walking?
    ensures Ends(lim, s, steps, s', t)
    decreases if s.runs[t].phase.i < lim.depth then lim.depth - s.runs[t].phase.i else 0
  {
    var s1 := Next(lim, s, Look(t));
    match s1.runs[t].phase {
      case Walking(_, _, _) => steps, s' := WalkerEnds(lim, s1, t);
      case Waiting => steps, s' := OneStepEnds(lim, s1, GiveUp(t));
      case Body(_) => steps, s' := AtWorkEnds(lim, s1, t);
    }
    EndsAfter(lim, s, Look(t), steps, s', t);
    steps := [Look(t)] + steps;
  }

  lemma OneStepEnds(lim: Limits, s: State, step: Step) returns (steps: seq<Step>, s': State)
    requires (step.Skip? || step.GiveUp?) && step.t in s.runs
    requires if step.Skip? then s.runs[step.t].phase.Submitted? else s.runs[step.t].phase.Waiting?
    ensures steps == [step] && Ends(lim, s, steps, s', step.t)
  {
    s' := Next(lim, s, step);
    Stops(lim, s', step.t);
    EndsAfter(lim, s, step, [], s', step.t);
    steps := [step] + [];
  }

  /** Whatever the others do, every execution can come to its end by its own steps alone: a task that has not started
      in one step, and one that queues in one step, without being granted the slot. */
  lemma EveryTaskCanEnd(lim: Limits, s: State, t: Task) returns (steps: seq<Step>, s': State)
    requires t in s.runs
    ensures Ends(lim, s, steps, s', t)
    ensures s.runs[t].phase.Submitted? || s.runs[t].phase.Waiting? ==> |steps| == 1
  {
    match s.runs[t].phase
    case Submitted => steps, s' := OneStepEnds(lim, s, Skip(t));
    case Walking(_, _, _) => steps, s' := WalkerEnds(lim, s, t);
    case Waiting => steps, s' := OneStepEnds(lim, s, GiveUp(t));
    case Acquired(_) => steps, s' := AtWorkEnds(lim, s, t);
    case Body(_) => steps, s' := AtWorkEnds(lim, s, t);
    case Releasing(_) => steps, s' := HolderEnds(lim, s, t);
    case Finished =>
      Stops(lim, s, t);
      steps, s' := [], s;
  }

  /** The furthest task on the list, `t` itself when it has no ancestors. */
  function Furthest(t: Task, above: seq<Task>): Task {
    if above == [] then t else above[|above| - 1]
  }

  /** Ancestors were submitted earlier, so none repeats and none is the task itself. */
  lemma {:induction false} AncestorsDistinct(lim: Limits, runs: map<Task, Run>, t: Task, n: nat)
    requires AllOk(lim, runs) && t in runs
    ensures NoDup([t] + Ancestors(runs, t, n))
    ensures var all := [t] + Ancestors(runs, t, n);
      var last := Furthest(t, Ancestors(runs, t, n));
      last in runs && forall a :: a in all ==> a in runs && runs[last].serial <= runs[a].serial
  {
    if n > 0 {
      AncestorsDistinct(lim, runs, t, n - 1);
      var near := Ancestors(runs, t, n - 1);
      var at := Furthest(t, near);
      assert TaskOk(lim, runs, at);
      if Ancestors(runs, t, n) != near {
        var up := runs[at].parent.value;
        assert [t] + Ancestors(runs, t, n) == ([t] + near) + [up];
        AppendFresh([t] + near, up);
      }
    }
  }

  lemma LedgersOneMore(runs: map<Task, Run>, ts: seq<Task>, t: Task)
    ensures Ledgers(runs, ts + [t]) == Ledgers(runs, ts) + LedgerOf(runs, t)
  {
    assert (ts + [t])[..|ts|] == ts;
  }

  /** The lookup has climbed `i` links. */
  ghost predicate Climbed(runs: map<Task, Run>, t: Task, i: nat, at: Task, above: seq<Task>, visited: set<Task>,
                          resources: set<Resource>) {
    && above == Ancestors(runs, t, i) && |above| == i && at == Furthest(t, above)
    && visited == Elems([t] + above) && resources == Ledgers(runs, above)
  }

  lemma ClimbOne(runs: map<Task, Run>, t: Task, i: nat, at: Task, above: seq<Task>, visited: set<Task>,
                 resources: set<Resource>, parent: Task)
    requires Climbed(runs, t, i, at, above, visited, resources) && at in runs && runs[at].parent == Some(parent)
    ensures Ancestors(runs, t, i + 1) == above + [parent]
    ensures Climbed(runs, t, i + 1, parent, above + [parent], visited + {parent}, resources + LedgerOf(runs, parent))
  {
    LedgersOneMore(runs, above, parent);
    assert [t] + (above + [parent]) == ([t] + above) + [parent];
    assert Elems(([t] + above) + [parent]) == Elems([t] + above) + {parent};
  }

  /** The ancestor lookup of the executor: a loop over parent links with a cycle guard. It never reports
      a resource that is not on the chain, and on a chain without repetition it reports all of them. */
  method FindAncestorResources(runs: map<Task, Run>, t: Task, depth: nat := 32) returns (resources: set<Resource>)
    ensures resources <= Ledgers(runs, Ancestors(runs, t, depth))
    ensures NoDup([t] + Ancestors(runs, t, depth)) ==> resources == Ledgers(runs, Ancestors(runs, t, depth))
  {
    resources := {};
    var visited, at := {t}, t;
    ghost var above: seq<Task> := [];
    for i := 0 to depth
      invariant Climbed(runs, t, i, at, above, visited, resources)
    {
      if at !in runs || runs[at].parent.None? {
        ChainEnds(runs, t, i, depth);
        return;
      }
      var parent := runs[at].parent.value;
      ClimbOne(runs, t, i, at, above, visited, resources, parent);
      if parent in visited {
        RepeatFound(runs, t, i, depth, parent);
        return;
      }
      visited := visited + {parent};
      if parent in runs && runs[parent].ledger.Some? { resources := resources + {runs[parent].ledger.value}; }
      at, above := parent, above + [parent];
    }
  }

  lemma {:induction false} ChainEnds(runs: map<Task, Run>, t: Task, i: nat, n: nat)
    requires i <= n && |Ancestors(runs, t, i)| == i
    requires var at := (if i == 0 then t else Ancestors(runs, t, i)[i - 1]); at !in runs || runs[at].parent.None?
    ensures Ancestors(runs, t, n) == Ancestors(runs, t, i)
  {
    if i < n { ChainEnds(runs, t, i, n - 1); }
  }

  lemma {:induction false} ChainGrows(runs: map<Task, Run>, t: Task, i: nat, n: nat)
    requires i <= n
    ensures Ancestors(runs, t, i) <= Ancestors(runs, t, n)
    ensures Ledgers(runs, Ancestors(runs, t, i)) <= Ledgers(runs, Ancestors(runs, t, n))
  {
    if i < n {
      ChainGrows(runs, t, i, n - 1);
      var near := Ancestors(runs, t, n - 1);
      if Ancestors(runs, t, n) != near {
        assert Ancestors(runs, t, n)[..|near|] == near;
      }
    }
  }

  lemma RepeatFound(runs: map<Task, Run>, t: Task, i: nat, n: nat, parent: Task)
    requires i < n && Ancestors(runs, t, i + 1) == Ancestors(runs, t, i) + [parent]
    requires parent in [t] + Ancestors(runs, t, i)
    ensures Ledgers(runs, Ancestors(runs, t, i)) <= Ledgers(runs, Ancestors(runs, t, n))
    ensures !NoDup([t] + Ancestors(runs, t, n))
  {
    ChainGrows(runs, t, i, n);
    ChainGrows(runs, t, i + 1, n);
    RepeatShows(t, Ancestors(runs, t, i), parent, Ancestors(runs, t, n));
  }

  lemma RepeatShows(t: Task, above: seq<Task>, parent: Task, all: seq<Task>)
    requires above + [parent] <= all && parent in [t] + above
    ensures !NoDup([t] + all)
  {
    var i := IndexOf([t] + above, parent);
    assert ([t] + all)[i] == ([t] + above)[i] && ([t] + all)[|above| + 1] == parent;
  }
}
