/** A worked document: a main tier A1 with one aligned annotation and its
    subtier A1@P2 with one reference annotation pointing at it. The
    reference row inherits its target's window, and the ordered output puts
    the main tier's row first. */
module Scenarios {
  import opened Wrappers
  import opened Errors
  import opened EafDocument
  import opened Resolution
  import opened ReferenceChains
  import opened Conversion
  import opened ConversionProperties
  import opened Ordering

  /** An aligned annotation `x` with valued slots and a reference annotation
      `y` naming it convert to two rows over `x`'s window. */
  lemma AlignedAndReferenceConvert(doc: Document, x: RawAnnotation, y: RawAnnotation, start: int, end: int)
    requires ParseDocument(doc) == Success([x, y])
    requires x.kind.Aligned?
    requires SlotValue(doc.timeSlots, x.kind.slotRef1) == Some(start)
    requires SlotValue(doc.timeSlots, x.kind.slotRef2) == Some(end)
    requires y.kind == Reference(x.annotationId) && y.annotationId != x.annotationId
    ensures Convert(doc) == Success([OutputRow(x.tierId, x.participant, start, end, end - start, x.value),
                                     OutputRow(y.tierId, y.participant, start, end, end - start, y.value)])
  {
    AlignedAndReferenceRows(doc, x, y, start, end);
    PairOfRows(Convert(doc).value, OutputRow(x.tierId, x.participant, start, end, end - start, x.value),
                                   OutputRow(y.tierId, y.participant, start, end, end - start, y.value));
  }

  /** The two rows of that document, one at a time. */
  lemma AlignedAndReferenceRows(doc: Document, x: RawAnnotation, y: RawAnnotation, start: int, end: int)
    requires ParseDocument(doc) == Success([x, y])
    requires x.kind.Aligned?
    requires SlotValue(doc.timeSlots, x.kind.slotRef1) == Some(start)
    requires SlotValue(doc.timeSlots, x.kind.slotRef2) == Some(end)
    requires y.kind == Reference(x.annotationId) && y.annotationId != x.annotationId
    ensures Convert(doc).Success? && |Convert(doc).value| == 2
    ensures Convert(doc).value[0] == OutputRow(x.tierId, x.participant, start, end, end - start, x.value)
    ensures Convert(doc).value[1] == OutputRow(y.tierId, y.participant, start, end, end - start, y.value)
  {
    var raws := [x, y];
    AlignedAndReferenceGrounded(doc, x, y, start, end);
    var out := Convert(doc).value;
    AlignedRow(doc, raws, out, 0, start, end);
    assert UniqueAnnotationIds(raws);
    ReferenceRow(doc, raws, out, 1, 0);
  }

  /** The whole output row of an aligned annotation over valued slots. */
  lemma AlignedRow(doc: Document, raws: seq<RawAnnotation>, out: seq<OutputRow>, k: nat, start: int, end: int)
    requires ParseDocument(doc) == Success(raws)
    requires Convert(doc) == Success(out)
    requires k < |raws| && raws[k].kind.Aligned?
    requires SlotValue(doc.timeSlots, raws[k].kind.slotRef1) == Some(start)
    requires SlotValue(doc.timeSlots, raws[k].kind.slotRef2) == Some(end)
    ensures out[k] == OutputRow(raws[k].tierId, raws[k].participant, start, end, end - start, raws[k].value)
  {
    ConvertAlignedTimes(doc, raws, out, k);
  }

  /** The whole output row of a reference annotation, with unique ids. */
  lemma ReferenceRow(doc: Document, raws: seq<RawAnnotation>, out: seq<OutputRow>, k: nat, j: nat)
    requires ParseDocument(doc) == Success(raws)
    requires UniqueAnnotationIds(raws)
    requires Convert(doc) == Success(out)
    requires k < |raws| && j < |raws|
    requires raws[k].kind == Reference(raws[j].annotationId)
    ensures out[k] == OutputRow(raws[k].tierId, raws[k].participant, out[j].start, out[j].end,
                                out[j].end - out[j].start, raws[k].value)
  {
    ConvertReferenceTimes(doc, raws, out, k, j);
  }

  lemma PairOfRows(out: seq<OutputRow>, p: OutputRow, q: OutputRow)
    requires |out| == 2 && out[0] == p && out[1] == q
    ensures out == [p, q]
  {
  }

  /** Both rows of that document end a chain from `x`. */
  lemma AlignedAndReferenceGrounded(doc: Document, x: RawAnnotation, y: RawAnnotation, start: int, end: int)
    requires ParseDocument(doc) == Success([x, y])
    requires x.kind.Aligned?
    requires SlotValue(doc.timeSlots, x.kind.slotRef1) == Some(start)
    requires SlotValue(doc.timeSlots, x.kind.slotRef2) == Some(end)
    requires y.kind == Reference(x.annotationId) && y.annotationId != x.annotationId
    ensures Convert(doc).Success?
  {
    var rows := InitialRows(doc.timeSlots, [x, y]);
    assert IsSource(rows[0]) && rows[0].annotationRef.None?;
    assert rows[1].annotationRef == Some(rows[0].annotationId);
    SourceAndReferenceGrounded(rows);
    assert UniqueAnnotationIds([x, y]);
    GroundedDocumentsConvert(doc, [x, y]);
  }

  /** A timed aligned row and a row naming it: each ends a chain. */
  lemma SourceAndReferenceGrounded(rows: seq<Row>)
    requires |rows| == 2
    requires IsSource(rows[0]) && rows[0].annotationRef.None?
    requires rows[1].annotationRef == Some(rows[0].annotationId)
    ensures Grounded(rows)
  {
    assert IsChain(rows, [0]);
    assert Linked(rows, [0, 1], 1);
    assert IsChain(rows, [0, 1]);
    assert EndsChain(rows, 0) && EndsChain(rows, 1);
  }

  /** Two distinct rows, sorted, are in the only order their keys allow. */
  lemma SortTwo(r: seq<OutputRow>, p: OutputRow, q: OutputRow)
    requires multiset(r) == multiset{p, q} && Sorted(r)
    requires RowLeq(p, q) && !RowLeq(q, p)
    ensures r == [p, q]
  {
    assert |r| == |multiset(r)| == 2;
    assert r == [r[0], r[1]];
    assert multiset(r) == multiset{r[0], r[1]};
    assert RowLeq(r[0], r[1]);
  }

  /** With the same window, the main tier's row is written before the
      subtier's in ordered mode, and in parse order otherwise. */
  lemma MainTierAndSubtierOrdered(doc: Document, x: RawAnnotation, y: RawAnnotation, start: int, end: int)
    requires ParseDocument(doc) == Success([x, y])
    requires x.kind.Aligned?
    requires SlotValue(doc.timeSlots, x.kind.slotRef1) == Some(start)
    requires SlotValue(doc.timeSlots, x.kind.slotRef2) == Some(end)
    requires y.kind == Reference(x.annotationId) && y.annotationId != x.annotationId
    requires !IsSubtier(x.tierId) && IsSubtier(y.tierId)
    ensures ConvertToTxt(doc, true) == Success([OutputRow(x.tierId, x.participant, start, end, end - start, x.value),
                                               OutputRow(y.tierId, y.participant, start, end, end - start, y.value)])
    ensures ConvertToTxt(doc, false) == ConvertToTxt(doc, true)
  {
    AlignedAndReferenceConvert(doc, x, y, start, end);
    var p := OutputRow(x.tierId, x.participant, start, end, end - start, x.value);
    var q := OutputRow(y.tierId, y.participant, start, end, end - start, y.value);
    assert multiset([p, q]) == multiset{p, q};
    SortTwo(ConvertToTxt(doc, true).value, p, q);
  }

  /** Slots ts1 = 0, ts2 = 1000, ts3 = 1000, ts4 = 2000; tier A1 of P1 holds
      aligned annotation a1 with text `text` over ts1 to ts2; tier A1@P2 of
      P2 holds reference annotation a2 "0." naming a1. */
  function ParentAndSubtier(text: string): Document {
    Document(
      map["ts1" := Some(0), "ts2" := Some(1000), "ts3" := Some(1000), "ts4" := Some(2000)],
      [ TierNode("A1", Some("P1"),
                 [AnnotationNode(Some(AlignableNode("a1", "ts1", "ts2", Some(ValueNode(Some(text))))), None)]),
        TierNode("A1@P2", Some("P2"),
                 [AnnotationNode(None, Some(RefNode("a2", "a1", Some(ValueNode(Some("0."))))))]) ])
  }

  function ParentRecord(text: string): RawAnnotation {
    RawAnnotation(Aligned("ts1", "ts2"), "a1", Some("P1"), "A1", Some(text))
  }

  function SubtierRecord(): RawAnnotation {
    RawAnnotation(Reference("a1"), "a2", Some("P2"), "A1@P2", Some("0."))
  }

  /** A tier holding one annotation parses to that annotation's record. */
  lemma SingleAnnotationTier(tier: TierNode, raw: RawAnnotation)
    requires |tier.annotations| == 1
    requires ParseAnnotation(tier.annotations[0], tier) == Success(raw)
    ensures ParseAnnotations(tier.annotations, tier) == Success([raw])
  {
    assert tier.annotations[1..] == [];
    assert [raw] + [] == [raw];
  }

  lemma ParentAndSubtierParses(text: string)
    ensures ParseDocument(ParentAndSubtier(text)) == Success([ParentRecord(text), SubtierRecord()])
  {
    var doc := ParentAndSubtier(text);
    var t0 := doc.tiers[0];
    var t1 := doc.tiers[1];
    SingleAnnotationTier(t0, ParentRecord(text));
    SingleAnnotationTier(t1, SubtierRecord());
    assert doc.tiers[1..] == [t1];
    assert doc.tiers[1..][1..] == [];
    assert ParseTiers(doc.tiers[1..]) == Success([SubtierRecord()]);
    assert [ParentRecord(text)] + [SubtierRecord()] == [ParentRecord(text), SubtierRecord()];
  }

  /** The scenario meets the conditions of `MainTierAndSubtierOrdered`. */
  lemma ParentAndSubtierShape(text: string)
    ensures ParseDocument(ParentAndSubtier(text)) == Success([ParentRecord(text), SubtierRecord()])
    ensures SlotValue(ParentAndSubtier(text).timeSlots, "ts1") == Some(0)
    ensures SlotValue(ParentAndSubtier(text).timeSlots, "ts2") == Some(1000)
    ensures !IsSubtier("A1") && IsSubtier("A1@P2")
  {
    ParentAndSubtierParses(text);
    assert "A1@P2"[2] == '@';
  }

  /** The two output rows: the reference row inherits start 0, end 1000 and
      duration 1000, and the main tier's row comes first. */
  lemma ParentAndSubtierConverts(text: string)
    ensures ConvertToTxt(ParentAndSubtier(text), true)
            == Success([OutputRow("A1", Some("P1"), 0, 1000, 1000, Some(text)),
                        OutputRow("A1@P2", Some("P2"), 0, 1000, 1000, Some("0."))])
  {
    ParentAndSubtierShape(text);
    MainTierAndSubtierOrdered(ParentAndSubtier(text), ParentRecord(text), SubtierRecord(), 0, 1000);
  }
}
