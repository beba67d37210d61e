/** The snapshot view and the data rules on status drift, both tied to the folded record. */
module SnapshotRules {
  import opened Common
  import opened SnapshotFold

  /** A generation: task, step and execution. */
  type Key = (Option<Value>, Option<Value>, Option<Value>)

  function Part(row: Row, f: Field, missing: Option<Value>): Option<Value> {
    if f in row then row[f] else missing
  }

  /** The view reads a missing part as the empty string, the rules as no value. */
  function KeyOf(row: Row, missing: Option<Value>): Key {
    (Part(row, TaskId, missing), Part(row, StepName, missing), Part(row, ExecutionId, missing))
  }

  function ViewKey(row: Row): Key {
    KeyOf(row, Some(""))
  }

  /** The rows of one generation among the first `n`, in stream order. */
  function RowsOf(rows: seq<Row>, n: nat, key: Key): seq<Row>
    requires n <= |rows|
  {
    if n == 0 then []
    else RowsOf(rows, n - 1, key) + if ViewKey(rows[n - 1]) == key then [rows[n - 1]] else []
  }

  /** Two rows agree on a field, a missing one read as the empty string. */
  predicate Agree(a: Row, b: Row, f: Field) {
    (if f in a then a[f] else Some("")) == (if f in b then b[f] else Some(""))
  }

  predicate SameGeneration(a: Row, b: Row) {
    Agree(a, b, TaskId) && Agree(a, b, StepName) && Agree(a, b, ExecutionId)
  }

  /** The rows among the first `n` that agree with `row` on task, step and execution, in stream order. */
  function Fellows(rows: seq<Row>, n: nat, row: Row): seq<Row>
    requires n <= |rows|
  {
    if n == 0 then [] else Fellows(rows, n - 1, row) + if SameGeneration(rows[n - 1], row) then [rows[n - 1]] else []
  }

  lemma {:induction false} FellowsAreGroup(rows: seq<Row>, n: nat, row: Row)
    requires n <= |rows|
    ensures RowsOf(rows, n, ViewKey(row)) == Fellows(rows, n, row)
  {
    if n > 0 { FellowsAreGroup(rows, n - 1, row); }
  }

  /** Row `i` goes into the record of `key`. */
  predicate Filed(rows: seq<Row>, i: nat, key: Key)
    requires i < |rows|
  {
    RowsOf(rows, i + 1, key) == RowsOf(rows, i, key) + [rows[i]]
  }

  /** Two rows go into the same record if and only if they agree on task, step and execution. */
  lemma FiledTogetherIff(rows: seq<Row>, i: nat, j: nat)
    requires i < |rows| && j < |rows|
    ensures (exists key :: Filed(rows, i, key) && Filed(rows, j, key)) <==> SameGeneration(rows[i], rows[j])
  {
    FiledUnder(rows, i);
    FiledUnder(rows, j);
    assert ViewKey(rows[i]) == ViewKey(rows[j]) <==> SameGeneration(rows[i], rows[j]);
    assert Filed(rows, i, ViewKey(rows[i]));
  }

  lemma FiledUnder(rows: seq<Row>, i: nat)
    requires i < |rows|
    ensures forall key :: Filed(rows, i, key) <==> key == ViewKey(rows[i])
  {
    forall key ensures Filed(rows, i, key) <==> key == ViewKey(rows[i]) {
      var before := RowsOf(rows, i, key);
      assert |before + []| != |before + [rows[i]]|;
    }
  }

  function GroupAt(grouped: map<Key, seq<Row>>, key: Key): seq<Row> {
    if key in grouped then grouped[key] else []
  }

  method GroupRows(rows: seq<Row>) returns (grouped: map<Key, seq<Row>>)
    ensures forall key :: GroupAt(grouped, key) == RowsOf(rows, |rows|, key)
  {
    grouped := map[];
    for i := 0 to |rows|
      invariant forall key :: GroupAt(grouped, key) == RowsOf(rows, i, key)
    {
      var key := ViewKey(rows[i]);
      grouped := grouped[key := GroupAt(grouped, key) + [rows[i]]];
    }
  }

  function RecordAt(view: map<Key, Record>, key: Key): Option<Record> {
    if key in view then Some(view[key]) else None
  }

  /** `SnapshotView._fold`: each generation gets the fold of its own rows, whatever is interleaved,
      and a generation without rows gets no record. */
  method FoldView(rows: seq<Row>) returns (view: map<Key, Record>)
    ensures forall key :: RecordAt(view, key) == Fold(RowsOf(rows, |rows|, key))
    ensures forall i :: 0 <= i < |rows| ==> RecordAt(view, ViewKey(rows[i])) == Fold(Fellows(rows, |rows|, rows[i]))
    ensures forall i, j :: 0 <= i < |rows| && 0 <= j < |rows| ==>
      (ViewKey(rows[i]) == ViewKey(rows[j]) <==> SameGeneration(rows[i], rows[j]))
  {
    forall i | 0 <= i < |rows| ensures RowsOf(rows, |rows|, ViewKey(rows[i])) == Fellows(rows, |rows|, rows[i]) {
      FellowsAreGroup(rows, |rows|, rows[i]);
    }
    var grouped := GroupRows(rows);
    view := map[];
    var todo := grouped.Keys;
    while todo != {}
      invariant todo <= grouped.Keys
      invariant forall key :: RecordAt(view, key) == if key in todo then None else Fold(GroupAt(grouped, key))
      decreases |todo|
    {
      var key :| key in todo;
      var record := FoldRows(grouped[key]);
      if record.Some? { view := view[key := record.value]; }
      todo := todo - {key};
    }
  }

  /** The operation of an envelope; anything but the two snapshot operations is no operation here. */
  datatype Op = Save | SaveTerminal | NoOp

  /** `Skipped` is an envelope with metadata, or no object at all. */
  datatype Line = Line(op: Op, data: Row) | Skipped

  predicate IsSnapshotRow(line: Line) {
    line.Line? && (line.op != NoOp || ExecutionId in line.data)
  }

  /** The rows a rule compares. */
  datatype Kind = Terminals | WithOp | WithoutOp

  predicate IsOf(line: Line, kind: Kind) {
    && IsSnapshotRow(line)
    && match kind
       case Terminals => line.op == SaveTerminal
       case WithOp => line.op != NoOp
       case WithoutOp => line.op == NoOp
  }

  function StatusOf(data: Row): Value {
    if Get(data, StatusField).Some? then Get(data, StatusField).value else ""
  }

  function RuleKey(line: Line): Key
    requires line.Line?
  {
    KeyOf(line.data, None)
  }

  predicate Asserts(line: Line, key: Key, kind: Kind) {
    IsOf(line, kind) && RuleKey(line) == key && StatusOf(line.data) != ""
  }

  /** The last non-empty status among the first `n` lines of this key and kind; empty when there is none. */
  function LastStatus(lines: seq<Line>, n: nat, key: Key, kind: Kind): Value
    requires n <= |lines|
  {
    if n == 0 then ""
    else if Asserts(lines[n - 1], key, kind) then StatusOf(lines[n - 1].data)
    else LastStatus(lines, n - 1, key, kind)
  }

  /** Line `i` of kind `kind` contradicts the last status its key has among `base` lines. */
  predicate Drifts(lines: seq<Line>, i: nat, kind: Kind, base: Kind) {
    && i < |lines|
    && IsOf(lines[i], kind)
    && StatusOf(lines[i].data) != ""
    && var last := LastStatus(lines, i, RuleKey(lines[i]), base);
       last != "" && StatusOf(lines[i].data) != last
  }

  /** The line is of this kind, agrees with `row` on task, step and execution, and carries a status. */
  predicate Says(line: Line, row: Row, kind: Kind) {
    && line.Line?
    && Get(line.data, TaskId) == Get(row, TaskId) && Get(line.data, StepName) == Get(row, StepName)
    && Get(line.data, ExecutionId) == Get(row, ExecutionId)
    && StatusOf(line.data) != ""
    && match kind
       case Terminals => line.op == SaveTerminal
       case WithOp => line.op == Save || line.op == SaveTerminal
       case WithoutOp => line.op == NoOp && ExecutionId in line.data
  }

  lemma AssertsMeans(line: Line, row: Row, kind: Kind)
    ensures Asserts(line, KeyOf(row, None), kind) <==> Says(line, row, kind)
  {
  }

  /** Line `i`, of kind `kind`, has another status than line `j`, the last one of kind `base` before it on the same
      task, step and execution. */
  predicate Contradicts(lines: seq<Line>, j: nat, i: nat, kind: Kind, base: Kind) {
    && j < i < |lines| && lines[i].Line? && Says(lines[i], lines[i].data, kind)
    && Says(lines[j], lines[i].data, base) && StatusOf(lines[j].data) != StatusOf(lines[i].data)
    && forall k :: j < k < i ==> !Says(lines[k], lines[i].data, base)
  }

  /** What is remembered is the status of the last line that carries one. */
  lemma {:induction false} LastSaid(lines: seq<Line>, n: nat, row: Row, kind: Kind) returns (j: nat)
    requires n <= |lines|
    ensures if LastStatus(lines, n, KeyOf(row, None), kind) == ""
      then forall k :: 0 <= k < n ==> !Says(lines[k], row, kind)
      else j < n && Says(lines[j], row, kind) && (forall k :: j < k < n ==> !Says(lines[k], row, kind)) &&
           StatusOf(lines[j].data) == LastStatus(lines, n, KeyOf(row, None), kind)
  {
    j := 0;
    if n > 0 {
      AssertsMeans(lines[n - 1], row, kind);
      if Says(lines[n - 1], row, kind) { j := n - 1; } else { j := LastSaid(lines, n - 1, row, kind); }
    }
  }

  /** A line drifts if and only if it contradicts an earlier one. */
  lemma DriftsIff(lines: seq<Line>, i: nat, kind: Kind, base: Kind)
    ensures Drifts(lines, i, kind, base) <==> exists j: nat :: Contradicts(lines, j, i, kind, base)
  {
    if i < |lines| && lines[i].Line? {
      var row := lines[i].data;
      AssertsMeans(lines[i], row, kind);
      var j := LastSaid(lines, i, row, base);
      if Drifts(lines, i, kind, base) { assert Contradicts(lines, j, i, kind, base); }
    }
  }

  datatype Finding = Finding(row: nat, degraded: bool)

  predicate IsFinding(lines: seq<Line>, f: Finding) {
    if f.degraded then Drifts(lines, f.row, WithoutOp, WithoutOp) else Drifts(lines, f.row, WithOp, Terminals)
  }

  /** What a finding says about the rows. */
  ghost predicate Justified(lines: seq<Line>, f: Finding) {
    if f.degraded then exists j: nat :: Contradicts(lines, j, f.row, WithoutOp, WithoutOp)
    else exists j: nat :: Contradicts(lines, j, f.row, WithOp, Terminals)
  }

  ghost predicate Exact(lines: seq<Line>, n: nat, findings: seq<Finding>, degraded: bool) {
    && (forall f :: f in findings <==> f.row < n && (f.degraded ==> degraded) && IsFinding(lines, f))
    && forall a, b :: 0 <= a < b < |findings| ==> findings[a].row < findings[b].row
  }

  function StatusAt(known: map<Key, Value>, key: Key): Value {
    if key in known then known[key] else ""
  }

  ghost predicate Tracks(known: map<Key, Value>, lines: seq<Line>, n: nat, kind: Kind)
    requires n <= |lines|
  {
    && (forall key :: key in known ==> known[key] != "")
    && forall key :: StatusAt(known, key) == LastStatus(lines, n, key, kind)
  }

  lemma OneMoreLine(lines: seq<Line>, n: nat, findings: seq<Finding>, degraded: bool, found: seq<Finding>)
    requires n < |lines| && Exact(lines, n, findings, degraded)
    requires forall f :: f in found <==> f.row == n && (f.degraded ==> degraded) && IsFinding(lines, f)
    requires |found| <= 1
    ensures Exact(lines, n + 1, findings + found, degraded)
  {
    forall a, b | 0 <= a < b < |findings + found|
      ensures (findings + found)[a].row < (findings + found)[b].row
    {
      assert (findings + found)[a] in findings;
      if b >= |findings| { assert (findings + found)[b] in found; }
    }
  }

  /** DR-SNP-001: reports, in order, exactly the rows that contradict the last terminal status of their
      key, and among rows without an operation, marked degraded, those that contradict the one before. */
  method StatusDrift(lines: seq<Line>) returns (findings: seq<Finding>)
    ensures Exact(lines, |lines|, findings, true)
    ensures forall f :: f in findings <==> Justified(lines, f)
  {
    forall f ensures IsFinding(lines, f) <==> Justified(lines, f) {
      DriftsIff(lines, f.row, WithoutOp, WithoutOp);
      DriftsIff(lines, f.row, WithOp, Terminals);
    }
    findings := [];
    var terminal, seen: map<Key, Value> := map[], map[];
    for i := 0 to |lines|
      invariant Tracks(terminal, lines, i, Terminals)
      invariant Tracks(seen, lines, i, WithoutOp)
      invariant Exact(lines, i, findings, true)
    {
      var line, found := lines[i], [];
      if IsSnapshotRow(line) {
        var key, status := RuleKey(line), StatusOf(line.data);
        if line.op != NoOp {
          if key in terminal && status != "" && status != terminal[key] {
            found := [Finding(i, false)];
          }
          if line.op == SaveTerminal && status != "" {
            terminal := terminal[key := status];
          }
        } else {
          if key in seen && status != "" && status != seen[key] {
            found := [Finding(i, true)];
          }
          if status != "" {
            seen := seen[key := status];
          }
        }
      }
      OneMoreLine(lines, i, findings, true, found);
      findings := findings + found;
    }
  }

  /** DR-SNP-002: the operation sequence after a terminal row. Reports exactly the rows that DR-SNP-001
      reports undegraded, although it gives up at once on a stream without operations. */
  method IllegalSequence(lines: seq<Line>) returns (findings: seq<Finding>)
    ensures Exact(lines, |lines|, findings, false)
    ensures forall f :: f in findings <==> !f.degraded && Justified(lines, f)
  {
    forall f ensures IsFinding(lines, f) <==> Justified(lines, f) {
      DriftsIff(lines, f.row, WithoutOp, WithoutOp);
      DriftsIff(lines, f.row, WithOp, Terminals);
    }
    findings := [];
    if !exists i :: 0 <= i < |lines| && IsOf(lines[i], WithOp) {
      return;
    }
    var terminal: map<Key, Value> := map[];
    for i := 0 to |lines|
      invariant Tracks(terminal, lines, i, Terminals)
      invariant Exact(lines, i, findings, false)
    {
      var line, found := lines[i], [];
      if IsOf(line, WithOp) {
        var key, status := RuleKey(line), StatusOf(line.data);
        if key in terminal && status != "" && status != terminal[key] {
          found := [Finding(i, false)];
        }
        if line.op == SaveTerminal && status != "" {
          terminal := terminal[key := status];
        }
      }
      OneMoreLine(lines, i, findings, false, found);
      findings := findings + found;
    }
  }

  /** The payloads of one key and kind among the first `n` lines. */
  function PayloadsOf(lines: seq<Line>, n: nat, key: Key, kind: Kind): seq<Row>
    requires n <= |lines|
  {
    if n == 0 then []
    else
      var before := PayloadsOf(lines, n - 1, key, kind);
      if IsOf(lines[n - 1], kind) && RuleKey(lines[n - 1]) == key then before + [lines[n - 1].data] else before
  }

  /** The status of the record folded from those payloads. */
  function FoldedStatus(lines: seq<Line>, n: nat, key: Key, kind: Kind): Value
    requires n <= |lines|
  {
    var record := Fold(PayloadsOf(lines, n, key, kind));
    if record.Some? && StatusField in record.value then record.value[StatusField] else ""
  }

  lemma {:induction false} LastStatusOverwrites(lines: seq<Line>, n: nat, key: Key, kind: Kind)
    requires n <= |lines|
    ensures var last := LastStatus(lines, n, key, kind);
      LastOverwrite(PayloadsOf(lines, n, key, kind), StatusField) == if last == "" then None else Some(last)
  {
    if n > 0 {
      LastStatusOverwrites(lines, n - 1, key, kind);
      if IsOf(lines[n - 1], kind) && RuleKey(lines[n - 1]) == key {
        var before, data := PayloadsOf(lines, n - 1, key, kind), lines[n - 1].data;
        assert (before + [data])[..|before|] == before;
      }
    }
  }

  lemma {:induction false} NoOverwriteAtAll(rows: seq<Row>, f: Field)
    requires rows != [] && LastOverwrite(rows, f).None?
    ensures !Overwrites(f, Get(rows[0], f))
  {
    if |rows| > 1 { NoOverwriteAtAll(rows[..|rows| - 1], f); }
  }

  /** What the rules track is the status of the folded record. */
  lemma {:induction false} FoldedStatusIsLast(lines: seq<Line>, n: nat, key: Key, kind: Kind)
    requires n <= |lines|
    ensures FoldedStatus(lines, n, key, kind) == LastStatus(lines, n, key, kind)
  {
    var rows := PayloadsOf(lines, n, key, kind);
    LastStatusOverwrites(lines, n, key, kind);
    if rows != [] {
      FoldMeans(rows, StatusField);
      if LastOverwrite(rows, StatusField).None? { NoOverwriteAtAll(rows, StatusField); }
    }
  }

  /** Line `i` changes the folded status of `key`. */
  predicate ChangesStatus(lines: seq<Line>, i: nat, key: Key, kind: Kind) {
    i < |lines| && FoldedStatus(lines, i, key, kind) != FoldedStatus(lines, i + 1, key, kind)
  }

  /** Line `i` is an undegraded finding about `key`. */
  predicate Reported(lines: seq<Line>, i: nat, key: Key) {
    Drifts(lines, i, WithOp, Terminals) && RuleKey(lines[i]) == key
  }

  lemma {:induction false} TerminalIsRemembered(lines: seq<Line>, j: nat, n: nat, key: Key)
    requires j < n <= |lines| && Asserts(lines[j], key, Terminals)
    ensures LastStatus(lines, n, key, Terminals) != ""
  {
    if j < n - 1 { TerminalIsRemembered(lines, j, n - 1, key); }
  }

  /** Until a finding, the terminal status a key has is its folded status. */
  lemma {:induction false} QuietMeansSettled(lines: seq<Line>, n: nat, key: Key)
    requires n <= |lines| && LastStatus(lines, n, key, Terminals) != ""
    requires forall i :: 0 <= i < n ==> !Reported(lines, i, key)
    ensures LastStatus(lines, n, key, WithOp) == LastStatus(lines, n, key, Terminals)
  {
    assert !Reported(lines, n - 1, key);
    if LastStatus(lines, n - 1, key, Terminals) != "" { QuietMeansSettled(lines, n - 1, key); }
  }

  /** The terminal line behind a key's terminal status. */
  lemma {:induction false} TerminalBehind(lines: seq<Line>, n: nat, key: Key) returns (j: nat)
    requires n <= |lines| && LastStatus(lines, n, key, Terminals) != ""
    ensures j < n && Asserts(lines[j], key, Terminals)
    ensures StatusOf(lines[j].data) == LastStatus(lines, n, key, Terminals)
  {
    j := n - 1;
    if !Asserts(lines[j], key, Terminals) { j := TerminalBehind(lines, n - 1, key); }
  }

  /** Two different statuses have a change between them. */
  lemma {:induction false} ChangeBetween(lines: seq<Line>, lo: nat, hi: nat, key: Key, kind: Kind) returns (i: nat)
    requires lo <= hi <= |lines|
    requires LastStatus(lines, lo, key, kind) != LastStatus(lines, hi, key, kind)
    ensures lo <= i < hi && ChangesStatus(lines, i, key, kind)
    decreases hi - lo
  {
    i := lo;
    FoldedStatusIsLast(lines, lo, key, kind);
    FoldedStatusIsLast(lines, lo + 1, key, kind);
    if !ChangesStatus(lines, i, key, kind) { i := ChangeBetween(lines, lo + 1, hi, key, kind); }
  }

  /** The folded status of `key` changes at line `k`, after its terminal line `j`. */
  predicate ChangedAfter(lines: seq<Line>, j: nat, k: nat, key: Key) {
    j < k < |lines| && Asserts(lines[j], key, Terminals) && ChangesStatus(lines, k, key, WithOp)
  }

  lemma ContradictedLine(lines: seq<Line>, i: nat, key: Key) returns (j: nat)
    requires Reported(lines, i, key)
    ensures j < i < |lines| && Asserts(lines[j], key, Terminals) && Asserts(lines[i], key, WithOp)
    ensures StatusOf(lines[j].data) != StatusOf(lines[i].data)
  {
    j := TerminalBehind(lines, i, key);
  }

  /** Soundness: behind a finding there is a terminal row, and a change of folded status since. */
  lemma ReportedMeansChanged(lines: seq<Line>, i: nat, key: Key) returns (j: nat, k: nat)
    requires Reported(lines, i, key)
    ensures ChangedAfter(lines, j, k, key)
  {
    j := ContradictedLine(lines, i, key);
    k := ChangeBetween(lines, j + 1, i + 1, key, WithOp);
  }

  lemma QuietMeansUnchanged(lines: seq<Line>, j: nat, k: nat, key: Key)
    requires j < k < |lines| && Asserts(lines[j], key, Terminals)
    requires forall r :: 0 <= r <= k ==> !Reported(lines, r, key)
    ensures !ChangesStatus(lines, k, key, WithOp)
  {
    TerminalIsRemembered(lines, j, k, key);
    QuietMeansSettled(lines, k, key);
    FoldedStatusIsLast(lines, k, key, WithOp);
    FoldedStatusIsLast(lines, k + 1, key, WithOp);
    assert !Reported(lines, k, key);
  }

  /** Completeness: a change of folded status after a terminal row is found, there or earlier. */
  lemma ChangedMeansReported(lines: seq<Line>, j: nat, k: nat, key: Key)
    requires ChangedAfter(lines, j, k, key)
    ensures exists i :: 0 <= i <= k && Reported(lines, i, key)
  {
    if forall r :: 0 <= r <= k ==> !Reported(lines, r, key) {
      QuietMeansUnchanged(lines, j, k, key);
    }
  }

  /** DR-SNP-001 in terms of the record: a key has an undegraded finding if and only if the status folded
      from its operations changes after one of its terminal rows that carries a status. */
  lemma DriftIffRecordChanges(lines: seq<Line>, key: Key)
    ensures (exists i: nat :: Reported(lines, i, key)) <==> exists j: nat, k: nat :: ChangedAfter(lines, j, k, key)
  {
    if i: nat :| Reported(lines, i, key) {
      var j, k := ReportedMeansChanged(lines, i, key);
    }
    if j: nat, k: nat :| ChangedAfter(lines, j, k, key) {
      ChangedMeansReported(lines, j, k, key);
    }
  }

  /** Degraded findings: exactly the rows without an operation that change an already folded status. */
  lemma DegradedDriftIsChange(lines: seq<Line>, i: nat, key: Key)
    requires i < |lines| && lines[i].Line? && RuleKey(lines[i]) == key
    ensures Drifts(lines, i, WithoutOp, WithoutOp)
       <==> FoldedStatus(lines, i, key, WithoutOp) != "" && ChangesStatus(lines, i, key, WithoutOp)
  {
    FoldedStatusIsLast(lines, i, key, WithoutOp);
    FoldedStatusIsLast(lines, i + 1, key, WithoutOp);
  }
}
