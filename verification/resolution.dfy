/** The timing half of `convert_eaf_to_data_frame`: the slot lookup that
    times aligned annotations, and the propagation passes, repeated until the
    number of untimed rows stops changing, that time reference annotations. */
module Resolution {
  import opened Wrappers
  import opened Errors
  import opened EafDocument

  /** The times of a fully timed row. */
  datatype Times = Times(start: int, end: int)

  /** One row of the annotation table while times are being resolved.
      `annotationRef` is the table's index: None (a null) for aligned
      annotations, the target id for reference annotations. */
  datatype Row = Row(
    annotationRef: Option<string>,
    annotationId: string,
    tierId: string,
    participant: Option<string>,
    value: Option<string>,
    start: Option<int>,
    end: Option<int>)

  /** A row that survives `dropna` on (annotation_id, start, end) and so
      supplies its times to the snapshot. */
  predicate IsSource(row: Row) {
    row.start.Some? && row.end.Some?
  }

  function TimesOf(row: Row): Times
    requires IsSource(row)
  {
    Times(row.start.value, row.end.value)
  }

  /** `b` is `a` with possibly different times. */
  predicate SameExceptTimes(a: Row, b: Row) {
    a.(start := b.start, end := b.end) == b
  }

  /** Every annotation id occurs at most once (the EAF format requires it). */
  predicate UniqueIds(rows: seq<Row>) {
    forall i, j :: 0 <= i < j < |rows| ==> rows[i].annotationId != rows[j].annotationId
  }

  /** Some timed row carries id `id`. */
  ghost predicate HasSource(rows: seq<Row>, id: string) {
    exists i :: 0 <= i < |rows| && IsSource(rows[i]) && rows[i].annotationId == id
  }

  /** Two timed rows carry the same id. */
  ghost predicate SharedSourceId(rows: seq<Row>) {
    exists i, j :: 0 <= i < j < |rows| && IsSource(rows[i]) && IsSource(rows[j]) && rows[i].annotationId == rows[j].annotationId
  }

  /** Reference rows enter resolution without times, because they name no
      time slot for the merges to match. */
  predicate Initial(rows: seq<Row>) {
    forall i :: 0 <= i < |rows| && rows[i].annotationRef.Some? ==> rows[i].start.None? && rows[i].end.None?
  }

  // ---------------------------------------------------------------------------
  // Aligned timing: the two left merges with the time-slot table

  /** The TIME_VALUE a left merge attaches for slot id `slotId`: null when no
      such slot exists or the slot has no value. */
  function SlotValue(slots: map<string, Option<int>>, slotId: string): Option<int> {
    if slotId in slots then slots[slotId] else None
  }

  /** The row of one parsed annotation after both merges. */
  function InitialRow(slots: map<string, Option<int>>, a: RawAnnotation): (row: Row)
    ensures row.annotationId == a.annotationId && row.tierId == a.tierId
    ensures row.participant == a.participant && row.value == a.value
    ensures row.annotationRef.Some? <==> a.kind.Reference?
    ensures a.kind.Reference? ==> row.annotationRef == Some(a.kind.target) && row.start.None? && row.end.None?
    ensures a.kind.Aligned? ==>
              && (row.start.Some? <==> a.kind.slotRef1 in slots && slots[a.kind.slotRef1].Some?)
              && (row.start.Some? ==> row.start.value == slots[a.kind.slotRef1].value)
              && (row.end.Some? <==> a.kind.slotRef2 in slots && slots[a.kind.slotRef2].Some?)
              && (row.end.Some? ==> row.end.value == slots[a.kind.slotRef2].value)
  {
    match a.kind
    case Aligned(ref1, ref2) =>
      Row(None, a.annotationId, a.tierId, a.participant, a.value, SlotValue(slots, ref1), SlotValue(slots, ref2))
    case Reference(target) =>
      Row(Some(target), a.annotationId, a.tierId, a.participant, a.value, None, None)
  }

  /** The annotation table after the merges, one row per parsed annotation in
      parse order. */
  function InitialRows(slots: map<string, Option<int>>, raws: seq<RawAnnotation>): (rows: seq<Row>)
    ensures |rows| == |raws|
    ensures forall k :: 0 <= k < |raws| ==> rows[k] == InitialRow(slots, raws[k])
    ensures Initial(rows)
  {
    seq(|raws|, k requires 0 <= k < |raws| => InitialRow(slots, raws[k]))
  }

  // ---------------------------------------------------------------------------
  // Counting untimed rows (`annotations.start.isnull().sum()`)

  function Unresolved(rows: seq<Row>): nat {
    if |rows| == 0 then 0 else (if rows[0].start.None? then 1 else 0) + Unresolved(rows[1..])
  }

  /** If every row timed in `a` is timed in `b`, then `b` has at most as many
      untimed rows, and the same number only when exactly the same rows are
      timed. */
  lemma {:induction false} UnresolvedMonotone(a: seq<Row>, b: seq<Row>)
    requires |a| == |b|
    requires forall i :: 0 <= i < |a| && a[i].start.Some? ==> b[i].start.Some?
    ensures Unresolved(b) <= Unresolved(a)
    ensures Unresolved(b) == Unresolved(a) ==> forall i :: 0 <= i < |a| ==> (a[i].start.Some? <==> b[i].start.Some?)
  {
    if |a| > 0 {
      assert forall i :: 0 <= i < |a| - 1 ==> a[1..][i] == a[i + 1] && b[1..][i] == b[i + 1];
      UnresolvedMonotone(a[1..], b[1..]);
      if Unresolved(b) == Unresolved(a) {
        forall i | 0 <= i < |a|
          ensures a[i].start.Some? <==> b[i].start.Some?
        {
          if i > 0 {
            assert a[i] == a[1..][i - 1] && b[i] == b[1..][i - 1];
          }
        }
      }
    }
  }

  /** No row is untimed exactly when the count is zero. */
  lemma {:induction false} UnresolvedZero(rows: seq<Row>)
    ensures Unresolved(rows) == 0 <==> forall i :: 0 <= i < |rows| ==> rows[i].start.Some?
  {
    if |rows| > 0 {
      UnresolvedZero(rows[1..]);
      assert forall i :: 1 <= i < |rows| ==> rows[i] == rows[1..][i - 1];
    }
  }

  // ---------------------------------------------------------------------------
  // One propagation pass (`annotations.update(...)`)

  /** The snapshot a pass copies from: the times of every timed row, keyed by
      annotation id. Indexing by a repeated id fails. */
  function Snapshot(rows: seq<Row>): (r: Result<map<string, Times>, Error>)
    ensures r.Failure? <==> SharedSourceId(rows)
    ensures r.Failure? ==> r.error.DuplicateAnnotationId?
    ensures r.Success? ==> forall id :: id in r.value <==> HasSource(rows, id)
    ensures r.Success? ==>
              forall i :: 0 <= i < |rows| && IsSource(rows[i]) ==>
                rows[i].annotationId in r.value && r.value[rows[i].annotationId] == TimesOf(rows[i])
  {
    if |rows| == 0 then Success(map[])
    else
      var prefix := rows[..|rows| - 1];
      var last := rows[|rows| - 1];
      assert forall i :: 0 <= i < |rows| - 1 ==> rows[i] == prefix[i];
      var snap :- Snapshot(prefix);
      if !IsSource(last) then Success(snap)
      else if last.annotationId in snap then Failure(DuplicateAnnotationId(last.annotationId))
      else Success(snap[last.annotationId := TimesOf(last)])
  }

  /** What a pass does to one row: a row whose index matches a snapshot key
      takes that key's start and end; every other row is left alone. */
  function Receive(row: Row, snap: map<string, Times>): (out: Row)
    ensures SameExceptTimes(row, out)
  {
    if row.annotationRef.Some? && row.annotationRef.value in snap then
      var t := snap[row.annotationRef.value];
      row.(start := Some(t.start), end := Some(t.end))
    else
      row
  }

  function Propagate(rows: seq<Row>, snap: map<string, Times>): (out: seq<Row>)
    ensures |out| == |rows|
    ensures forall i :: 0 <= i < |rows| ==> out[i] == Receive(rows[i], snap)
  {
    seq(|rows|, i requires 0 <= i < |rows| => Receive(rows[i], snap))
  }

  /** One pass of the resolution loop. */
  function Pass(rows: seq<Row>): (r: Result<seq<Row>, Error>)
    ensures r.Failure? <==> SharedSourceId(rows)
    ensures r.Failure? ==> r.error.DuplicateAnnotationId?
    ensures r.Success? ==> |r.value| == |rows|
    ensures r.Success? ==> forall i :: 0 <= i < |rows| ==> SameExceptTimes(rows[i], r.value[i])
    // aligned rows have a null index and are never written
    ensures r.Success? ==> forall i :: 0 <= i < |rows| && rows[i].annotationRef.None? ==> r.value[i] == rows[i]
    // a row is written only when its index names a timed row
    ensures r.Success? ==>
              forall i :: 0 <= i < |rows| && r.value[i] != rows[i] ==>
                rows[i].annotationRef.Some? && HasSource(rows, rows[i].annotationRef.value)
    // a row whose index names a timed row receives exactly that row's times
    ensures r.Success? ==>
              forall i, j :: 0 <= i < |rows| && 0 <= j < |rows| && IsSource(rows[j])
                             && rows[i].annotationRef == Some(rows[j].annotationId) ==>
                r.value[i].start == rows[j].start && r.value[i].end == rows[j].end
    ensures r.Success? ==> forall i :: 0 <= i < |rows| && rows[i].start.Some? ==> r.value[i].start.Some?
    ensures r.Success? ==> Unresolved(r.value) <= Unresolved(rows)
  {
    var snap :- Snapshot(rows);
    var next := Propagate(rows, snap);
    UnresolvedMonotone(rows, next);
    Success(next)
  }

  // ---------------------------------------------------------------------------
  // The resolution loop

  /** The loop of `convert_eaf_to_data_frame` from its first pass on. `before`
      is the count the next pass's result is compared with: 0 for the first
      pass (the code overwrites the initial count with 0 before it), then the
      count left by the previous pass. It stops as soon as a pass leaves the
      count equal to `before`. */
  function Relax(rows: seq<Row>, before: nat): (r: Result<seq<Row>, Error>)
    ensures r.Failure? ==> r.error.DuplicateAnnotationId?
    ensures r.Success? ==> |r.value| == |rows|
    ensures r.Success? ==> forall i :: 0 <= i < |rows| ==> SameExceptTimes(rows[i], r.value[i])
    ensures r.Success? ==> forall i :: 0 <= i < |rows| && rows[i].annotationRef.None? ==> r.value[i] == rows[i]
    ensures r.Success? ==> forall i :: 0 <= i < |rows| && rows[i].start.Some? ==> r.value[i].start.Some?
    ensures r.Success? ==> Unresolved(r.value) <= Unresolved(rows)
    decreases Unresolved(rows), if before == Unresolved(rows) then 0 else 1
  {
    var next :- Pass(rows);
    if Unresolved(next) == before then Success(next)
    else Relax(next, Unresolved(next))
  }

  /** Resolution as the code runs it: no pass at all when every row already
      has a start, otherwise passes until the count stops changing. */
  function Resolve(rows: seq<Row>): (r: Result<seq<Row>, Error>)
    ensures r.Failure? ==> r.error.DuplicateAnnotationId?
    ensures r.Success? ==> |r.value| == |rows|
    ensures r.Success? ==> forall i :: 0 <= i < |rows| ==> SameExceptTimes(rows[i], r.value[i])
    ensures r.Success? ==> forall i :: 0 <= i < |rows| && rows[i].annotationRef.None? ==> r.value[i] == rows[i]
    ensures r.Success? ==> forall i :: 0 <= i < |rows| && rows[i].start.Some? ==> r.value[i].start.Some?
    ensures r.Success? ==> Unresolved(r.value) <= Unresolved(rows)
  {
    if Unresolved(rows) == 0 then Success(rows) else Relax(rows, 0)
  }

  /** `n` passes in a row, for reasoning about how many passes a chain needs. */
  function Passes(rows: seq<Row>, n: nat): Result<seq<Row>, Error> {
    if n == 0 then Success(rows)
    else
      var prev :- Passes(rows, n - 1);
      Pass(prev)
  }
}
