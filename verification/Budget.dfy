/** The budget ledger of a task tree: post-charged calls, their quota account and their audit table. */
module Budget {
  import opened Common

  /** Names the account slot of a call. */
  datatype Id = Id(text: string)

  /** The slot that opening a ledger registers. */
  const LEDGER := Id("__ledger__")

  /** What charges are accepted up to. */
  function Headroom(budget: int): int {
    1000 * budget
  }

  /** The quota account of one scope. */
  datatype Account = Account(reserved: map<Id, int>, pending: int)

  const EMPTY := Account(map[], 0)

  datatype Outcome = Reserved | AlreadyReserved | LimitExceeded

  function OutcomeOf(a: Account, id: Id, units: int, limit: int): Outcome {
    if id in a.reserved then AlreadyReserved
    else if a.pending + units > limit then LimitExceeded
    else Reserved
  }

  function Reserve(a: Account, id: Id, units: int, limit: int): Account {
    if OutcomeOf(a, id, units, limit) == Reserved
    then Account(a.reserved[id := units], a.pending + units)
    else a
  }

  /** The account after a settlement; a cost of zero or less is not recorded. */
  function Charge(a: Account, id: Id, units: int, budget: int): Account {
    if units <= 0 then a else Reserve(a, id, units, Headroom(budget))
  }

  /** The audit table after a settlement: one row for each call, the first one stays. */
  function Audited(audit: map<Id, int>, id: Id, units: int): map<Id, int> {
    if units <= 0 || id in audit then audit else audit[id := units]
  }

  /** The sum of all charges on a map. */
  ghost function Total(m: map<Id, int>): int {
    if m == map[] then 0 else var id :| id in m; m[id] + Total(m - {id})
  }

  lemma {:induction false} TotalRemove(m: map<Id, int>, id: Id)
    requires id in m
    ensures Total(m) == m[id] + Total(m - {id})
    decreases |m|
  {
    var first :| first in m && Total(m) == m[first] + Total(m - {first});
    if first != id {
      TotalRemove(m - {first}, id);
      TotalRemove(m - {id}, first);
      assert m - {first} - {id} == m - {id} - {first};
    }
  }

  lemma TotalAdd(m: map<Id, int>, id: Id, units: int)
    requires id !in m
    ensures Total(m[id := units]) == Total(m) + units
  {
    TotalRemove(m[id := units], id);
    assert m[id := units] - {id} == m;
  }

  lemma ReserveKeepsTotal(a: Account, id: Id, units: int, limit: int)
    requires Balanced(a)
    ensures Balanced(Reserve(a, id, units, limit))
  {
    if id !in a.reserved { TotalAdd(a.reserved, id, units); }
  }

  /** An account whose pending total is the sum of its reservations. */
  ghost predicate Balanced(a: Account) {
    a.pending == Total(a.reserved)
  }

  class Quota {
    var pending: map<string, int>
    var reserved: map<string, map<Id, int>>

    function At(scope: string): Account
      reads this
    {
      Account(if scope in reserved then reserved[scope] else map[], if scope in pending then pending[scope] else 0)
    }

    ghost predicate Valid()
      reads this
    {
      forall scope :: Balanced(At(scope))
    }

    constructor ()
      ensures Valid() && forall scope :: At(scope) == EMPTY
    {
      pending, reserved := map[], map[];
    }

    /** Reserves under `id` once; other scopes keep their accounts. */
    method ReserveUnits(scope: string, id: Id, units: int, limit: int) returns (outcome: Outcome)
      requires Valid()
      modifies this
      ensures Valid()
      ensures outcome == OutcomeOf(old(At(scope)), id, units, limit)
      ensures At(scope) == Reserve(old(At(scope)), id, units, limit)
      ensures forall other :: other != scope ==> At(other) == old(At(other))
    {
      ReserveKeepsTotal(At(scope), id, units, limit);
      var current := if scope in pending then pending[scope] else 0;
      if scope !in reserved {
        reserved := reserved[scope := map[]];
      }
      if id in reserved[scope] {
        outcome := AlreadyReserved;
      } else if current + units > limit {
        outcome := LimitExceeded;
      } else {
        reserved := reserved[scope := reserved[scope][id := units]];
        pending := pending[scope := current + units];
        outcome := Outcome.Reserved;
      }
      assert At(scope) == Reserve(old(At(scope)), id, units, limit);
      forall other ensures Balanced(At(other)) {
        if other != scope { assert At(other) == old(At(other)) && old(Balanced(At(other))); }
      }
    }
  }

  /** An audit table with the call id as its primary key. */
  class AuditTable {
    var rows: map<Id, int>

    constructor ()
      ensures rows == map[]
    {
      rows := map[];
    }

    method RecordCharge(id: Id, units: int)
      modifies this
      ensures rows == if id in old(rows) then old(rows) else old(rows)[id := units]
    {
      if id !in rows { rows := rows[id := units]; }
    }
  }

  datatype BudgetError = OpenFailed | Exhausted

  class BudgetLedger {
    const quota: Quota
    const audit: AuditTable
    const scope: string
    const budget: int

    constructor (quota: Quota, audit: AuditTable, scope: string, budget: int)
      ensures this.quota == quota && this.audit == audit && this.scope == scope && this.budget == budget
    {
      this.quota, this.audit, this.scope, this.budget := quota, audit, scope, budget;
    }

    /** Opens the ledger; opening again never resets what was consumed. */
    method Open() returns (r: Result<(), BudgetError>)
      requires quota.Valid()
      modifies quota
      ensures quota.Valid()
      ensures quota.At(scope) == Reserve(old(quota.At(scope)), LEDGER, 0, budget)
      ensures quota.At(scope).pending == old(quota.At(scope).pending)
      ensures r.Err? <==> LEDGER !in old(quota.At(scope)).reserved && old(quota.At(scope).pending) > budget
    {
      var outcome := quota.ReserveUnits(scope, LEDGER, 0, budget);
      r := if outcome == LimitExceeded then Err(OpenFailed) else Ok(());
    }

    function Balance(): int
      reads quota
    {
      budget - quota.At(scope).pending
    }

    /** Admits a call if and only if the charges accepted so far, one for each call id, sum up to less than
        the budget. */
    method Check() returns (r: Result<(), BudgetError>)
      requires quota.Valid()
      ensures r.Ok? <==> Total(quota.At(scope).reserved) < budget
      ensures r.Err? ==> r.error == Exhausted
    {
      assert Balanced(quota.At(scope));
      r := if Balance() <= 0 then Err(Exhausted) else Ok(());
    }

    /** Settles a call in the account and the audit table; the audit row is written even when the
        account refuses the charge. */
    method Settle(units: int, id: Id) returns (balance: int)
      requires quota.Valid()
      modifies quota, audit
      ensures quota.Valid()
      ensures quota.At(scope) == Charge(old(quota.At(scope)), id, units, budget)
      ensures units > 0 && id !in old(quota.At(scope)).reserved ==>
        if Total(old(quota.At(scope)).reserved) + units <= 1000 * budget
        then id in quota.At(scope).reserved && quota.At(scope).reserved[id] == units &&
             balance == old(Balance()) - units
        else quota.At(scope) == old(quota.At(scope))
      ensures units <= 0 || id in old(quota.At(scope)).reserved ==> quota.At(scope) == old(quota.At(scope))
      ensures audit.rows == Audited(old(audit.rows), id, units)
      ensures balance == Balance() == budget - Total(quota.At(scope).reserved)
      ensures forall other :: other != scope ==> quota.At(other) == old(quota.At(other))
    {
      if units <= 0 {
        assert Balanced(quota.At(scope));
        return Balance();
      }
      assert Balanced(quota.At(scope));
      var outcome := quota.ReserveUnits(scope, id, units, Headroom(budget));
      assert Balanced(quota.At(scope));
      balance := Balance();
      audit.RecordCharge(id, units);
    }
  }

  // ---------- every run of the client protocol ----------

  /** One ledger and the client calls between their check and their settlement. */
  datatype State = State(account: Account, audit: map<Id, int>, inFlight: set<nat>)

  const INITIAL := State(EMPTY, map[], {})

  datatype Step =
    | OpenLedger
    | Admit(call: nat)
    | Settle(call: nat, id: Id, units: int)
    | Abandon(call: nat)

  predicate Enabled(budget: int, s: State, step: Step) {
    match step
    case OpenLedger => true
    case Admit(call) => call !in s.inFlight && budget - s.account.pending > 0
    case Settle(call, _, _) => call in s.inFlight
    case Abandon(call) => call in s.inFlight
  }

  function Next(budget: int, s: State, step: Step): State {
    match step
    case OpenLedger => s.(account := Reserve(s.account, LEDGER, 0, budget))
    case Admit(call) => s.(inFlight := s.inFlight + {call})
    case Settle(call, id, units) =>
      State(Charge(s.account, id, units, budget), Audited(s.audit, id, units), s.inFlight - {call})
    case Abandon(call) => s.(inFlight := s.inFlight - {call})
  }

  function After(budget: int, steps: seq<Step>): State {
    if steps == [] then INITIAL else Next(budget, After(budget, steps[..|steps| - 1]), steps[|steps| - 1])
  }

  predicate Legal(budget: int, steps: seq<Step>) {
    steps != [] ==>
      && Legal(budget, steps[..|steps| - 1])
      && Enabled(budget, After(budget, steps[..|steps| - 1]), steps[|steps| - 1])
  }

  /** Conservation: what a run has consumed is the sum of one charge for each accepted call id. */
  lemma {:induction false} Conservation(budget: int, steps: seq<Step>)
    ensures Balanced(After(budget, steps).account)
  {
    if steps != [] {
      var init, step := steps[..|steps| - 1], steps[|steps| - 1];
      Conservation(budget, init);
      var a := After(budget, init).account;
      match step {
        case OpenLedger => ReserveKeepsTotal(a, LEDGER, 0, budget);
        case Settle(_, id, units) => ReserveKeepsTotal(a, id, units, Headroom(budget));
        case _ =>
      }
    }
  }

  /** A charge counts once: later settlements and openings never change or drop it. */
  lemma {:induction false} FirstChargeStays(budget: int, steps: seq<Step>, more: seq<Step>, id: Id)
    requires id in After(budget, steps).account.reserved
    ensures var before, after := After(budget, steps).account, After(budget, steps + more).account;
      id in after.reserved && after.reserved[id] == before.reserved[id]
  {
    if more == [] {
      assert steps + more == steps;
    } else {
      assert (steps + more)[..|steps + more| - 1] == steps + more[..|more| - 1];
      FirstChargeStays(budget, steps, more[..|more| - 1], id);
    }
  }

  /** A settlement is recorded as it is, overspent or not: under a new id it is accepted if and only if the charges so
      far and its own stay within a thousand times the budget, and lowers the balance by exactly its units; any other
      settlement leaves the account as it was. */
  lemma SettlementIsRecorded(budget: int, steps: seq<Step>, call: nat, id: Id, units: int)
    ensures var a, a' := After(budget, steps).account, After(budget, steps + [Settle(call, id, units)]).account;
      if units > 0 && id !in a.reserved && Total(a.reserved) + units <= 1000 * budget
      then a'.reserved == a.reserved[id := units] && budget - a'.pending == budget - a.pending - units
      else a' == a
  {
    Conservation(budget, steps);
    assert (steps + [Settle(call, id, units)])[..|steps|] == steps;
  }

  /** Opening consumes nothing; it puts the ledger's slot on the account unless the budget is overspent by then. */
  lemma OpeningIsRecorded(budget: int, steps: seq<Step>)
    ensures var a, a' := After(budget, steps).account, After(budget, steps + [OpenLedger]).account;
      && a'.pending == a.pending
      && (LEDGER in a'.reserved <==> LEDGER in a.reserved || Total(a.reserved) <= budget)
      && forall id :: id != LEDGER ==>
           (id in a'.reserved <==> id in a.reserved) && (id in a.reserved ==> a'.reserved[id] == a.reserved[id])
  {
    Conservation(budget, steps);
    assert (steps + [OpenLedger])[..|steps|] == steps;
  }

  /** The overdraft floor: consumption never exceeds a thousand times the budget, ... */
  lemma {:induction false} Floor(budget: int, steps: seq<Step>)
    requires budget >= 0
    ensures 0 <= After(budget, steps).account.pending <= 1000 * budget
    ensures budget - After(budget, steps).account.pending >= -999 * budget
  {
    if steps != [] { Floor(budget, steps[..|steps| - 1]); }
  }

  /** ... and for every budget some run goes that far: one admitted call can spend it all. */
  lemma FloorIsAttained(budget: int, call: nat, id: Id) returns (steps: seq<Step>)
    requires budget > 0
    ensures Legal(budget, steps) && budget - After(budget, steps).account.pending == -999 * budget
  {
    var admit, settle := Admit(call), Settle(call, id, 1000 * budget);
    steps := [admit, settle];
    assert steps[..1] == [admit] && [admit][..0] == [];
    assert After(budget, []) == INITIAL && After(budget, [admit]) == Next(budget, INITIAL, admit);
  }

  /** At most `width` calls are in flight at once and none costs more than `cost`. */
  predicate Narrow(budget: int, steps: seq<Step>, width: nat, cost: nat) {
    steps != [] ==>
      var init, step := steps[..|steps| - 1], steps[|steps| - 1];
      && Narrow(budget, init, width, cost)
      && (step.Admit? ==> |After(budget, init).inFlight| < width)
      && (step.Settle? ==> step.units <= cost)
  }

  predicate Untouched(s: State) {
    s.account.pending == 0 && s.inFlight == {}
  }

  predicate Slack(budget: int, s: State, width: nat, cost: nat) {
    s.account.pending + cost * |s.inFlight| <= budget - 1 + cost * width
  }

  lemma Multiples(cost: nat, n: nat, m: nat)
    requires n <= m
    ensures cost * n <= cost * m
    ensures cost * (n + 1) == cost * n + cost
    ensures n > 0 ==> cost * (n - 1) == cost * n - cost
  {
  }

  lemma AdmitKeepsSlack(budget: int, s: State, call: nat, width: nat, cost: nat)
    requires Enabled(budget, s, Admit(call)) && |s.inFlight| < width
    ensures Slack(budget, Next(budget, s, Admit(call)), width, cost)
  {
    assert |s.inFlight + {call}| == |s.inFlight| + 1;
    Multiples(cost, |s.inFlight| + 1, width);
  }

  lemma EndKeepsSlack(budget: int, s: State, next: State, call: nat, width: nat, cost: nat)
    requires call in s.inFlight && next.inFlight == s.inFlight - {call}
    requires next.account.pending <= s.account.pending + cost
    requires Slack(budget, s, width, cost)
    ensures Slack(budget, next, width, cost)
  {
    assert |s.inFlight| == |next.inFlight| + 1;
    Multiples(cost, |next.inFlight|, |s.inFlight|);
  }

  lemma {:induction false} NarrowKeepsSlack(budget: int, steps: seq<Step>, width: nat, cost: nat)
    requires Legal(budget, steps) && Narrow(budget, steps, width, cost)
    ensures var s := After(budget, steps); Untouched(s) || Slack(budget, s, width, cost)
  {
    if steps != [] {
      var init, step := steps[..|steps| - 1], steps[|steps| - 1];
      NarrowKeepsSlack(budget, init, width, cost);
      var s := After(budget, init);
      match step {
        case OpenLedger =>
        case Admit(call) => AdmitKeepsSlack(budget, s, call, width, cost);
        case Settle(call, _, _) => EndKeepsSlack(budget, s, Next(budget, s, step), call, width, cost);
        case Abandon(call) => EndKeepsSlack(budget, s, Next(budget, s, step), call, width, cost);
      }
    }
  }

  /** Overshoot: post-charging can overspend a budget only by what is in flight at once. */
  lemma Overshoot(budget: int, steps: seq<Step>, width: nat, cost: nat)
    requires Legal(budget, steps) && Narrow(budget, steps, width, cost)
    ensures var used := After(budget, steps).account.pending; used <= 0 || used <= budget - 1 + cost * width
  {
    NarrowKeepsSlack(budget, steps, width, cost);
    var s := After(budget, steps);
    Multiples(cost, 0, |s.inFlight|);
  }

  // ---------- the bound is attained ----------

  /** Call ids that differ from each other and from the ledger's slot. */
  function Name(n: nat): Id {
    Id(seq(n, _ => 'c'))
  }

  lemma NamesDiffer(n: nat, m: nat)
    requires n != m
    ensures Name(n) != Name(m)
  {
    assert |Name(n).text| != |Name(m).text|;
  }

  ghost function FirstCalls(n: nat): (calls: set<nat>)
    ensures |calls| == n
    ensures forall m: nat :: m in calls <==> m < n
  {
    if n == 0 then {} else FirstCalls(n - 1) + {n - 1}
  }

  /** Some legal and narrow run ends in this state. */
  ghost predicate Attained(budget: int, width: nat, cost: nat, s: State) {
    exists steps :: Legal(budget, steps) && Narrow(budget, steps, width, cost) && After(budget, steps) == s
  }

  lemma StepAttained(budget: int, width: nat, cost: nat, s: State, step: Step)
    requires Attained(budget, width, cost, s) && Enabled(budget, s, step)
    requires step.Admit? ==> |s.inFlight| < width
    requires step.Settle? ==> step.units <= cost
    ensures Attained(budget, width, cost, Next(budget, s, step))
  {
    var steps :| Legal(budget, steps) && Narrow(budget, steps, width, cost) && After(budget, steps) == s;
    var more := steps + [step];
    assert more[..|more| - 1] == steps;
    assert Legal(budget, more) && Narrow(budget, more, width, cost) && After(budget, more) == Next(budget, s, step);
  }

  /** `used` is consumed, the names from `names` on are unused, and the calls below `open` are in flight. */
  ghost predicate Stands(s: State, used: int, names: nat, open: nat) {
    && s.account.pending == used
    && (forall n: nat :: names <= n ==> Name(n) !in s.account.reserved)
    && s.inFlight == FirstCalls(open)
  }

  lemma AdmitStands(budget: int, s: State, used: int, names: nat, open: nat)
    requires Stands(s, used, names, open)
    ensures Stands(Next(budget, s, Admit(open)), used, names, open + 1)
  {
  }

  lemma SettleStands(budget: int, s: State, used: int, names: nat, open: nat, units: nat)
    requires Stands(s, used, names, open + 1) && 0 < units && used + units <= Headroom(budget)
    ensures Stands(Next(budget, s, Settle(open, Name(names), units)), used + units, names + 1, open)
  {
    assert FirstCalls(open) == FirstCalls(open + 1) - {open};
    forall n: nat | names + 1 <= n ensures Name(n) != Name(names) { NamesDiffer(n, names); }
    assert Name(names) !in s.account.reserved;
  }

  lemma OneAdmitted(budget: int, width: nat, cost: nat, s: State, used: int, names: nat, open: nat) returns (s': State)
    requires Attained(budget, width, cost, s) && Stands(s, used, names, open) && used < budget && open < width
    ensures Attained(budget, width, cost, s') && Stands(s', used, names, open + 1)
  {
    s' := Next(budget, s, Admit(open));
    AdmitStands(budget, s, used, names, open);
    StepAttained(budget, width, cost, s, Admit(open));
  }

  lemma OneSettled(budget: int, width: nat, cost: nat, s: State, used: int, names: nat, open: nat, units: nat)
    returns (s': State)
    requires Attained(budget, width, cost, s) && Stands(s, used, names, open + 1)
    requires 0 < units <= cost && used + units <= Headroom(budget)
    ensures Attained(budget, width, cost, s') && Stands(s', used + units, names + 1, open)
  {
    s' := Next(budget, s, Settle(open, Name(names), units));
    SettleStands(budget, s, used, names, open, units);
    StepAttained(budget, width, cost, s, Settle(open, Name(names), units));
  }

  lemma StartStands(budget: int, width: nat, cost: nat)
    ensures Attained(budget, width, cost, INITIAL) && Stands(INITIAL, 0, 0, 0)
  {
    assert Legal(budget, []) && Narrow(budget, [], width, cost) && After(budget, []) == INITIAL;
  }

  lemma {:induction false} SpendOneByOne(budget: int, width: nat, cost: nat, n: nat) returns (s: State)
    requires n < budget && width > 0 && cost > 0
    ensures Attained(budget, width, cost, s) && Stands(s, n, n, 0)
  {
    if n == 0 {
      StartStands(budget, width, cost);
      s := INITIAL;
    } else {
      s := SpendOneByOne(budget, width, cost, n - 1);
      s := OneAdmitted(budget, width, cost, s, n - 1, n - 1, 0);
      s := OneSettled(budget, width, cost, s, n - 1, n - 1, 0, 1);
    }
  }

  lemma {:induction false} AdmitAll(budget: int, width: nat, cost: nat, used: nat, n: nat) returns (s: State)
    requires used < budget && n <= width && width > 0 && cost > 0
    ensures Attained(budget, width, cost, s) && Stands(s, used, used, n)
  {
    if n == 0 {
      s := SpendOneByOne(budget, width, cost, used);
    } else {
      s := AdmitAll(budget, width, cost, used, n - 1);
      s := OneAdmitted(budget, width, cost, s, used, used, n - 1);
    }
  }

  lemma {:induction false} SettleAll(budget: int, width: nat, cost: nat, n: nat, open: nat, used: int)
    returns (s: State, names: nat)
    requires budget > 0 && n + open == width && width > 0 && cost > 0
    requires used == budget - 1 + cost * n && used <= Headroom(budget)
    ensures Attained(budget, width, cost, s) && Stands(s, used, names, open)
  {
    Multiples(cost, n, n);
    if n == 0 {
      names := budget - 1;
      s := AdmitAll(budget, width, cost, used, open);
    } else {
      s, names := SettleAll(budget, width, cost, n - 1, open + 1, used - cost);
      s := OneSettled(budget, width, cost, s, used - cost, names, open, cost);
      names := names + 1;
    }
  }

  /** No better bound holds: within the headroom, some run overspends by exactly the bound of `Overshoot`. */
  lemma OvershootIsAttained(budget: int, width: nat, cost: nat) returns (steps: seq<Step>)
    requires budget > 0 && width > 0 && cost > 0
    requires budget - 1 + cost * width <= 1000 * budget
    ensures Legal(budget, steps) && Narrow(budget, steps, width, cost)
    ensures After(budget, steps).account.pending == budget - 1 + cost * width
  {
    var s, names := SettleAll(budget, width, cost, width, 0, budget - 1 + cost * width);
    steps :| Legal(budget, steps) && Narrow(budget, steps, width, cost) && After(budget, steps) == s;
  }

  // ---------- account and audit table ----------

  /** A settlement that the audit table records and the account does not: refused beyond the headroom,
      or filed under the ledger's own slot. */
  predicate Lost(budget: int, s: State, step: Step) {
    && step.Settle? && step.units > 0
    && (step.id == LEDGER || OutcomeOf(s.account, step.id, step.units, Headroom(budget)) == LimitExceeded)
  }

  predicate LosesNothing(budget: int, steps: seq<Step>) {
    steps != [] ==>
      && LosesNothing(budget, steps[..|steps| - 1])
      && !Lost(budget, After(budget, steps[..|steps| - 1]), steps[|steps| - 1])
  }

  /** The calls the account has charged. */
  function Charged(s: State): map<Id, int> {
    s.account.reserved - {LEDGER}
  }

  /** An audit row that the account does not have, and can no longer get. */
  predicate Missing(budget: int, s: State, id: Id) {
    && id in s.audit
    && (id != LEDGER ==>
          && (id in s.account.reserved ==> s.account.reserved[id] != s.audit[id])
          && s.account.pending + s.audit[id] > Headroom(budget))
  }

  ghost predicate Diverged(budget: int, s: State) {
    exists id :: Missing(budget, s, id)
  }

  lemma DivergedStays(budget: int, s: State, step: Step)
    requires Diverged(budget, s)
    ensures Diverged(budget, Next(budget, s, step))
  {
    var id :| Missing(budget, s, id);
    assert Missing(budget, Next(budget, s, step), id);
  }

  lemma LostMeansDiverged(budget: int, s: State, step: Step)
    requires s.audit == Charged(s) && Lost(budget, s, step)
    ensures Diverged(budget, Next(budget, s, step))
  {
    assert Missing(budget, Next(budget, s, step), step.id);
  }

  lemma KeptMeansEqual(budget: int, s: State, step: Step)
    requires s.audit == Charged(s) && !Lost(budget, s, step)
    ensures var t := Next(budget, s, step); t.audit == Charged(t)
  {
  }

  lemma {:induction false} AuditFollows(budget: int, steps: seq<Step>)
    ensures LosesNothing(budget, steps) ==> After(budget, steps).audit == Charged(After(budget, steps))
    ensures !LosesNothing(budget, steps) ==> Diverged(budget, After(budget, steps))
  {
    if steps != [] {
      var init, step := steps[..|steps| - 1], steps[|steps| - 1];
      AuditFollows(budget, init);
      var s := After(budget, init);
      if !LosesNothing(budget, init) {
        DivergedStays(budget, s, step);
      } else if Lost(budget, s, step) {
        LostMeansDiverged(budget, s, step);
      } else {
        KeptMeansEqual(budget, s, step);
      }
    }
  }

  /** The two ledgers agree, row by row, after a run if and only if the run lost no settlement: a
      divergence never heals, whatever is retried. */
  lemma AuditAgreesIff(budget: int, steps: seq<Step>)
    ensures var s := After(budget, steps); s.audit == Charged(s) <==> LosesNothing(budget, steps)
  {
    AuditFollows(budget, steps);
    var s := After(budget, steps);
    if !LosesNothing(budget, steps) {
      var id :| Missing(budget, s, id);
      assert id in Charged(s) ==> Charged(s)[id] != s.audit[id];
    }
  }
}
