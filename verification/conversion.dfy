/** `convert_eaf_to_data_frame` end to end: parse, merge slot times, resolve
    references, cast times to integers, add the duration and project the
    output columns. `ConvertAsWritten` is the function as the code runs it;
    `Convert` is the same pipeline without the missing-column failures that
    make documents lacking reference annotations unconvertible (see the
    README's findings), and is what the rest of the model builds on. */
module Conversion {
  import opened Wrappers
  import opened Errors
  import opened EafDocument
  import opened Resolution
  import opened ReferenceChains

  /** One output row; the fields are the output columns in their fixed
      order: tier_id, participant, start, end, duration, value. */
  datatype OutputRow = OutputRow(
    tierId: string,
    participant: Option<string>,
    start: int,
    end: int,
    duration: int,
    value: Option<string>)

  /** `o` is the projection of the timed row `row`. */
  predicate Projects(row: Row, o: OutputRow) {
    && o.tierId == row.tierId
    && o.participant == row.participant
    && row.start == Some(o.start)
    && row.end == Some(o.end)
    && o.duration == o.end - o.start
    && o.value == row.value
  }

  function Project(row: Row): (o: OutputRow)
    requires IsSource(row)
    ensures Projects(row, o)
  {
    OutputRow(row.tierId, row.participant, row.start.value, row.end.value,
              row.end.value - row.start.value, row.value)
  }

  /** The integer casts of start and then end, the duration column and the
      column projection. A cast fails when its column holds a null. */
  function Finish(rows: seq<Row>): (r: Result<seq<OutputRow>, Error>)
    ensures r.Success? <==> forall i :: 0 <= i < |rows| ==> rows[i].start.Some? && rows[i].end.Some?
    ensures r.Success? ==> |r.value| == |rows| && forall i :: 0 <= i < |rows| ==> Projects(rows[i], r.value[i])
    ensures (exists i :: 0 <= i < |rows| && rows[i].start.None?) ==> r == Failure(UnresolvedTimes("start"))
    ensures (forall i :: 0 <= i < |rows| ==> rows[i].start.Some?) && r.Failure? ==> r == Failure(UnresolvedTimes("end"))
  {
    if exists i :: 0 <= i < |rows| && rows[i].start.None? then Failure(UnresolvedTimes("start"))
    else if exists i :: 0 <= i < |rows| && rows[i].end.None? then Failure(UnresolvedTimes("end"))
    else Success(seq(|rows|, i requires 0 <= i < |rows| => Project(rows[i])))
  }

  /** Every annotation id occurs once. */
  predicate UniqueAnnotationIds(raws: seq<RawAnnotation>) {
    forall i, j :: 0 <= i < j < |raws| ==> raws[i].annotationId != raws[j].annotationId
  }

  /** Merge, resolution and finishing of an already parsed annotation table. */
  function ConvertParsed(slots: map<string, Option<int>>, raws: seq<RawAnnotation>): (r: Result<seq<OutputRow>, Error>)
    ensures r.Success? ==> |r.value| == |raws|
    ensures r.Success? ==>
              forall k :: 0 <= k < |raws| ==>
                && r.value[k].tierId == raws[k].tierId
                && r.value[k].participant == raws[k].participant
                && r.value[k].value == raws[k].value
                && r.value[k].duration == r.value[k].end - r.value[k].start
  {
    var resolved :- Resolve(InitialRows(slots, raws));
    Finish(resolved)
  }

  /** The conversion used by the rest of the model. */
  function Convert(doc: Document): (r: Result<seq<OutputRow>, Error>)
    ensures r.Success? ==> |r.value| == AnnotationCount(doc.tiers)
    ensures r.Success? ==>
              && ParseDocument(doc).Success?
              && var raws := ParseDocument(doc).value;
              && |r.value| == |raws|
              && forall k :: 0 <= k < |raws| ==>
                   && r.value[k].tierId == raws[k].tierId
                   && r.value[k].participant == raws[k].participant
                   && r.value[k].value == raws[k].value
                   && r.value[k].duration == r.value[k].end - r.value[k].start
  {
    var raws :- ParseDocument(doc);
    ConvertParsed(doc.timeSlots, raws)
  }

  /** Annotation k of tier t yields the row at `RecordIndex(doc.tiers, t, k)`,
      and that row carries tier t's id and participant. */
  lemma ConvertKeepsTierPositions(doc: Document)
    requires Convert(doc).Success?
    ensures forall t, k :: 0 <= t < |doc.tiers| && 0 <= k < |doc.tiers[t].annotations| ==>
              && RecordIndex(doc.tiers, t, k) < |Convert(doc).value|
              && Convert(doc).value[RecordIndex(doc.tiers, t, k)].tierId == doc.tiers[t].tierId
              && Convert(doc).value[RecordIndex(doc.tiers, t, k)].participant == doc.tiers[t].participant
  {
  }

  /** The data frame built from the parsed records has a column only when
      some record has that key, and the code indexes three of them: the
      merges need `time_slot_id` (right-hand key, resolved first) and
      `time_slot_ref_1`, and `set_index` needs `annotation_ref`. */
  function MissingColumnError(slots: map<string, Option<int>>, raws: seq<RawAnnotation>): (e: Option<Error>)
    ensures e.None? <==>
              |slots| > 0
              && (exists k :: 0 <= k < |raws| && raws[k].kind.Aligned?)
              && (exists k :: 0 <= k < |raws| && raws[k].kind.Reference?)
    ensures e.Some? ==> e.value.MissingColumn?
  {
    if |slots| == 0 then Some(MissingColumn("time_slot_id"))
    else if !exists k :: 0 <= k < |raws| && raws[k].kind.Aligned? then Some(MissingColumn("time_slot_ref_1"))
    else if !exists k :: 0 <= k < |raws| && raws[k].kind.Reference? then Some(MissingColumn("annotation_ref"))
    else None
  }

  /** `convert_eaf_to_data_frame` exactly as written. */
  function ConvertAsWritten(doc: Document): (r: Result<seq<OutputRow>, Error>)
    ensures ParseDocument(doc).Success? && MissingColumnError(doc.timeSlots, ParseDocument(doc).value).None? ==>
              r == Convert(doc)
    ensures ParseDocument(doc).Failure? ==> r == Convert(doc)
    ensures ParseDocument(doc).Success? && MissingColumnError(doc.timeSlots, ParseDocument(doc).value).Some? ==>
              r == Failure(MissingColumnError(doc.timeSlots, ParseDocument(doc).value).value)
  {
    var raws :- ParseDocument(doc);
    match MissingColumnError(doc.timeSlots, raws)
    case Some(e) => Failure(e)
    case None => ConvertParsed(doc.timeSlots, raws)
  }
}
