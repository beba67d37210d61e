/** Reconstructing snapshot records from an append-only stream of payloads. */
module SnapshotFold {
  import opened Common

  type Value = string

  datatype Field =
    | TaskId | StepName | ExecutionId | StatusField | CreatedAt | UpdatedAt
    | ParentTaskId | InputPointer | OutputPointer | ErrorField | Cost | Model | ExpireAt
    | Other(name: string)

  /** A payload: a field may be absent, present with no value, or present with a value. */
  type Row = map<Field, Option<Value>>

  type Record = map<Field, Value>

  /** Fields merged to complete the record. */
  const MERGE_FIELDS: set<Field> :=
    {ParentTaskId, InputPointer, OutputPointer, ErrorField, Cost, Model, ExpireAt}

  function Get(row: Row, f: Field): Option<Value> {
    if f in row then row[f] else None
  }

  function Lookup(record: Record, f: Field): Option<Value> {
    if f in record then Some(record[f]) else None
  }

  /** Whether a later row that carries `value` for field `f` overwrites it: merge fields and the update
      time when there is a value, the status when it is also not empty, nothing else. */
  predicate Overwrites(f: Field, value: Option<Value>) {
    && value.Some?
    && if f == StatusField then value.value != "" else f == UpdatedAt || f in MERGE_FIELDS
  }

  /** The record a first row creates. */
  function Created(row: Row): Record {
    map f | f in row && row[f].Some? :: row[f].value
  }

  /** What a later row overwrites. */
  function Overlay(row: Row): Record {
    map f | f in row && Overwrites(f, row[f]) :: row[f].value
  }

  /** The record of one generation. */
  function Fold(rows: seq<Row>): Option<Record> {
    if rows == [] then None
    else
      var before, last := Fold(rows[..|rows| - 1]), rows[|rows| - 1];
      if before.None? then Some(Created(last)) else Some(before.value + Overlay(last))
  }

  lemma SameLookups(a: Record, b: Record)
    requires forall f :: Lookup(a, f) == Lookup(b, f)
    ensures a == b
  {
    forall f ensures f in a <==> f in b {
      assert Lookup(a, f) == Lookup(b, f);
    }
    forall f | f in a ensures f in b && a[f] == b[f] {
      assert Lookup(a, f) == Lookup(b, f);
    }
  }

  lemma LookupMerged(record: Record, row: Row, f: Field)
    ensures Lookup(record + Overlay(row), f)
         == if Overwrites(f, Get(row, f)) then Get(row, f) else Lookup(record, f)
  {
  }

  /** The merge fields of one row, written into the record one by one. */
  method MergeFields(record: Record, row: Row) returns (merged: Record)
    ensures forall f :: Lookup(merged, f)
                     == if f in MERGE_FIELDS && Get(row, f).Some? then Get(row, f) else Lookup(record, f)
  {
    merged := record;
    var todo, done := MERGE_FIELDS, {};
    while todo != {}
      invariant done + todo == MERGE_FIELDS
      invariant forall f :: Lookup(merged, f)
                         == if f in done && Get(row, f).Some? then Get(row, f) else Lookup(record, f)
      decreases |todo|
    {
      var field :| field in todo;
      todo, done := todo - {field}, done + {field};
      if Get(row, field).Some? { merged := merged[field := Get(row, field).value]; }
    }
  }

  /** One later row, merged into the record. */
  method MergeRow(record: Record, row: Row) returns (merged: Record)
    ensures merged == record + Overlay(row)
  {
    merged := MergeFields(record, row);
    var status := Get(row, StatusField);
    if status.Some? && status.value != "" { merged := merged[StatusField := status.value]; }
    var updatedAt := Get(row, UpdatedAt);
    if updatedAt.Some? { merged := merged[UpdatedAt := updatedAt.value]; }
    forall f ensures Lookup(merged, f) == Lookup(record + Overlay(row), f) {
      LookupMerged(record, row, f);
    }
    SameLookups(merged, record + Overlay(row));
  }

  /** `fold_snapshot_rows`. */
  method FoldRows(rows: seq<Row>) returns (record: Option<Record>)
    ensures record == Fold(rows)
  {
    record := None;
    for i := 0 to |rows|
      invariant record == Fold(rows[..i])
    {
      assert rows[..i + 1][..i] == rows[..i];
      if record.None? {
        record := Some(Created(rows[i]));
      } else {
        var merged := MergeRow(record.value, rows[i]);
        record := Some(merged);
      }
    }
    assert rows[..|rows|] == rows;
  }

  /** The value written by the last row that overwrites `f`. */
  function LastOverwrite(rows: seq<Row>, f: Field): Option<Value> {
    if rows == [] then None
    else if Overwrites(f, Get(rows[|rows| - 1], f)) then Get(rows[|rows| - 1], f)
    else LastOverwrite(rows[..|rows| - 1], f)
  }

  /** What a folded field means: the last row that overwrites it decides, and otherwise the first row does.
      So the creation time and unknown fields are the first row's, and nothing is ever erased. */
  lemma {:induction false} FoldMeans(rows: seq<Row>, f: Field)
    requires rows != []
    ensures Fold(rows).Some?
    ensures Lookup(Fold(rows).value, f)
         == if LastOverwrite(rows, f).Some? then LastOverwrite(rows, f) else Get(rows[0], f)
  {
    var init, last := rows[..|rows| - 1], rows[|rows| - 1];
    if init != [] {
      FoldMeans(init, f);
      LookupMerged(Fold(init).value, last, f);
    }
  }

  /** A field that later rows complete or update, spelled out. */
  predicate Mutable(f: Field) {
    match f
    case ParentTaskId => true
    case InputPointer => true
    case OutputPointer => true
    case ErrorField => true
    case Cost => true
    case Model => true
    case ExpireAt => true
    case UpdatedAt => true
    case StatusField => true
    case TaskId => false
    case StepName => false
    case ExecutionId => false
    case CreatedAt => false
    case Other(_) => false
  }

  /** The row says something about `f`: an empty status says nothing. */
  predicate Says(row: Row, f: Field) {
    Get(row, f).Some? && (f == StatusField ==> Get(row, f).value != "")
  }

  lemma OverwritesMeans(row: Row, f: Field)
    ensures Overwrites(f, Get(row, f)) <==> Mutable(f) && Says(row, f)
  {
  }

  /** The last row that says something about a pointer, the error, the cost, the model, the expiry, the update time or
      the status decides what the record shows. */
  lemma {:induction false} LastWordShows(rows: seq<Row>, k: nat, f: Field)
    requires k < |rows| && Mutable(f) && Says(rows[k], f)
    requires forall j :: k < j < |rows| ==> !Says(rows[j], f)
    ensures Fold(rows).Some? && Lookup(Fold(rows).value, f) == Get(rows[k], f)
  {
    var init, last := rows[..|rows| - 1], rows[|rows| - 1];
    if k < |init| {
      assert forall j :: k < j < |init| ==> rows[j] == init[j];
      LastWordShows(init, k, f);
    } else if init != [] {
      FoldMeans(init, f);
    }
    OverwritesMeans(last, f);
    if init != [] { LookupMerged(Fold(init).value, last, f); }
  }

  /** The identity of the record, its creation time and unknown fields are the first row's, and so is a field about
      which no later row says anything. */
  lemma {:induction false} FirstRowStays(rows: seq<Row>, f: Field)
    requires rows != [] && (Mutable(f) ==> forall j :: 0 < j < |rows| ==> !Says(rows[j], f))
    ensures Fold(rows).Some? && Lookup(Fold(rows).value, f) == Get(rows[0], f)
  {
    var init, last := rows[..|rows| - 1], rows[|rows| - 1];
    if init != [] {
      assert forall j :: 0 < j < |init| ==> rows[j] == init[j];
      FirstRowStays(init, f);
      OverwritesMeans(last, f);
      LookupMerged(Fold(init).value, last, f);
    }
  }

  /** A last row without an update time does not clear the one on record. */
  lemma LastRowKeepsUpdateTime(first: Row, last: Row, at: Value)
    requires Get(first, UpdatedAt) == Some(at) && Get(last, UpdatedAt).None?
    ensures Fold([first, last]).Some? && Lookup(Fold([first, last]).value, UpdatedAt) == Some(at)
  {
    assert [first, last][..1] == [first] && [first][..0] == [];
    FoldMeans([first, last], UpdatedAt);
  }

  function AsRow(record: Record): Row {
    map f | f in record :: Some(record[f])
  }

  /** All overlays of a segment, merged. */
  function Overlays(rows: seq<Row>): Record {
    if rows == [] then map[] else Overlays(rows[..|rows| - 1]) + Overlay(rows[|rows| - 1])
  }

  lemma LookupOverlay(record: Record, f: Field)
    ensures Lookup(Overlay(AsRow(record)), f)
         == if Overwrites(f, Lookup(record, f)) then Lookup(record, f) else None
  {
  }

  lemma OverlayOfCreated(row: Row)
    ensures Overlay(AsRow(Created(row))) == Overlay(row)
  {
    forall f ensures Lookup(Overlay(AsRow(Created(row))), f) == Lookup(Overlay(row), f) {
      LookupOverlay(Created(row), f);
    }
    SameLookups(Overlay(AsRow(Created(row))), Overlay(row));
  }

  lemma OverlayOfMerged(record: Record, row: Row)
    ensures Overlay(AsRow(record + Overlay(row))) == Overlay(AsRow(record)) + Overlay(row)
  {
    var left, right := Overlay(AsRow(record + Overlay(row))), Overlay(AsRow(record)) + Overlay(row);
    forall f ensures Lookup(left, f) == Lookup(right, f) {
      LookupOverlay(record + Overlay(row), f);
      LookupMerged(record, row, f);
      LookupOverlay(record, f);
      LookupMerged(Overlay(AsRow(record)), row, f);
    }
    SameLookups(left, right);
  }

  lemma MergeAssociative(a: Record, b: Record, c: Record)
    ensures a + b + c == a + (b + c)
  {
  }

  /** A folded segment, used as a row, overwrites exactly what its rows would have overwritten one by one. */
  lemma {:induction false} SegmentOverlay(rows: seq<Row>)
    requires rows != []
    ensures Fold(rows).Some? && Overlay(AsRow(Fold(rows).value)) == Overlays(rows)
  {
    var init, last := rows[..|rows| - 1], rows[|rows| - 1];
    if init == [] {
      OverlayOfCreated(last);
      assert Overlays(init) + Overlay(last) == Overlay(last);
    } else {
      SegmentOverlay(init);
      OverlayOfMerged(Fold(init).value, last);
    }
  }

  lemma {:induction false} FoldSegment(a: seq<Row>, rows: seq<Row>)
    requires a != []
    ensures Fold(a).Some? && Fold(a + rows) == Some(Fold(a).value + Overlays(rows))
  {
    if rows == [] {
      assert a + rows == a;
      assert Fold(a).value + Overlays(rows) == Fold(a).value;
    } else {
      var init, last := rows[..|rows| - 1], rows[|rows| - 1];
      assert (a + rows)[..|a + rows| - 1] == a + init;
      FoldSegment(a, init);
      MergeAssociative(Fold(a).value, Overlays(init), Overlay(last));
    }
  }

  /** Log compaction: replacing any non-empty segment of the stream by its own fold changes nothing. */
  lemma CompactionPreservesFold(a: seq<Row>, segment: seq<Row>, b: seq<Row>)
    requires segment != []
    ensures Fold(segment).Some? && Fold(a + [AsRow(Fold(segment).value)] + b) == Fold(a + segment + b)
  {
    SegmentOverlay(segment);
    var folded := AsRow(Fold(segment).value);
    CompactionPreservesPrefix(a, segment, folded);
    FoldSegment(a + [folded], b);
    FoldSegment(a + segment, b);
  }

  lemma FoldOfOne(row: Row)
    ensures Fold([row]) == Some(Created(row)) && Overlays([row]) == Overlay(row)
  {
    assert [row][..0] == [];
    assert map[] + Overlay(row) == Overlay(row);
  }

  lemma CreatedAgain(record: Record)
    ensures Created(AsRow(record)) == record
  {
  }

  lemma CompactionPreservesPrefix(a: seq<Row>, segment: seq<Row>, folded: Row)
    requires segment != []
    requires Fold(segment).Some? && folded == AsRow(Fold(segment).value)
    requires Overlay(folded) == Overlays(segment)
    ensures Fold(a + [folded]) == Fold(a + segment)
  {
    if a == [] {
      assert a + [folded] == [folded] && a + segment == segment;
      FoldOfOne(folded);
      CreatedAgain(Fold(segment).value);
    } else {
      FoldSegment(a, [folded]);
      FoldSegment(a, segment);
      FoldOfOne(folded);
    }
  }
}
