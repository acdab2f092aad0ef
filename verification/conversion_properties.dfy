/** What a successful or failed conversion says about the document: aligned
    rows carry their slot values, reference rows their target's times,
    every grounded reference chain converts, references that lead nowhere
    make the whole conversion fail, and the documents without reference
    annotations that the code as written rejects convert under `Convert`. */
module ConversionProperties {
  import opened Wrappers
  import opened Errors
  import opened EafDocument
  import opened Resolution
  import opened ReferenceChains
  import opened Conversion

  /** An aligned annotation's output times are the values of its
      TIME_SLOT_REF1 and TIME_SLOT_REF2 slots. */
  lemma ConvertAlignedTimes(doc: Document, raws: seq<RawAnnotation>, out: seq<OutputRow>, k: nat)
    requires ParseDocument(doc) == Success(raws)
    requires Convert(doc) == Success(out)
    requires k < |raws| && raws[k].kind.Aligned?
    ensures raws[k].kind.slotRef1 in doc.timeSlots && doc.timeSlots[raws[k].kind.slotRef1] == Some(out[k].start)
    ensures raws[k].kind.slotRef2 in doc.timeSlots && doc.timeSlots[raws[k].kind.slotRef2] == Some(out[k].end)
    ensures out[k].duration == out[k].end - out[k].start
  {
    var rows := InitialRows(doc.timeSlots, raws);
    var resolved := Resolve(rows).value;
    assert resolved[k] == rows[k];
    assert Projects(resolved[k], out[k]);
  }

  /** With unique annotation ids, a reference annotation's output times are
      exactly those of the annotation it names. */
  lemma ConvertReferenceTimes(doc: Document, raws: seq<RawAnnotation>, out: seq<OutputRow>, k: nat, j: nat)
    requires ParseDocument(doc) == Success(raws)
    requires UniqueAnnotationIds(raws)
    requires Convert(doc) == Success(out)
    requires k < |raws| && j < |raws|
    requires raws[k].kind == Reference(raws[j].annotationId)
    ensures out[k].start == out[j].start && out[k].end == out[j].end
  {
    var rows := InitialRows(doc.timeSlots, raws);
    ResolveReachesFixpoint(rows);
    var resolved := Resolve(rows).value;
    assert Projects(resolved[k], out[k]) && Projects(resolved[j], out[j]);
    assert resolved[k].annotationRef == Some(resolved[j].annotationId);
  }

  /** With unique annotation ids the only way conversion of a parsed table
      fails is a row left without times. */
  lemma UniqueIdsFailOnlyOnUntimedRows(slots: map<string, Option<int>>, raws: seq<RawAnnotation>)
    requires UniqueAnnotationIds(raws)
    ensures ConvertParsed(slots, raws).Failure? ==> ConvertParsed(slots, raws).error.UnresolvedTimes?
  {
    ResolveReachesFixpoint(InitialRows(slots, raws));
  }

  /** Every row of the merged table ends a chain from a timed aligned
      annotation. */
  ghost predicate Grounded(rows: seq<Row>) {
    forall k :: 0 <= k < |rows| ==> EndsChain(rows, k)
  }

  /** Row `k` is the last row of some chain. */
  ghost predicate EndsChain(rows: seq<Row>, k: nat) {
    exists c :: IsChain(rows, c) && c[|c| - 1] == k
  }

  /** When every annotation is reached by a chain of references from an
      aligned annotation whose slots both have values, conversion succeeds,
      and each row carries the times of the head of its chain. */
  lemma GroundedDocumentsConvert(doc: Document, raws: seq<RawAnnotation>)
    requires ParseDocument(doc) == Success(raws)
    requires UniqueAnnotationIds(raws)
    requires Grounded(InitialRows(doc.timeSlots, raws))
    ensures Convert(doc).Success?
  {
    var rows := InitialRows(doc.timeSlots, raws);
    InitialRowsUniqueIds(doc.timeSlots, raws);
    GroundedRowsResolve(rows);
    assert Finish(Resolve(rows).value).Success?;
  }

  /** Distinct annotation ids stay distinct in the merged table. */
  lemma InitialRowsUniqueIds(slots: map<string, Option<int>>, raws: seq<RawAnnotation>)
    requires UniqueAnnotationIds(raws)
    ensures UniqueIds(InitialRows(slots, raws))
  {
  }

  /** Resolution of a grounded table leaves no row without times. */
  lemma GroundedRowsResolve(rows: seq<Row>)
    requires Initial(rows) && UniqueIds(rows)
    requires Grounded(rows)
    ensures Resolve(rows).Success?
    ensures forall k :: 0 <= k < |rows| ==> Resolve(rows).value[k].start.Some? && Resolve(rows).value[k].end.Some?
  {
    ResolveReachesFixpoint(rows);
    forall k | 0 <= k < |rows|
      ensures Resolve(rows).value[k].start.Some? && Resolve(rows).value[k].end.Some?
    {
      assert EndsChain(rows, k);
      var c :| IsChain(rows, c) && c[|c| - 1] == k;
      ResolveTimesChains(rows, c);
    }
  }

  /** A non-empty set of reference annotations that only name each other or
      ids no annotation has makes the whole conversion fail: no row is
      emitted. */
  lemma StuckReferencesFail(doc: Document, raws: seq<RawAnnotation>, stuck: set<nat>)
    requires ParseDocument(doc) == Success(raws)
    requires stuck != {}
    requires forall i :: i in stuck ==>
               && i < |raws|
               && raws[i].kind.Reference?
               && forall j :: 0 <= j < |raws| && raws[j].annotationId == raws[i].kind.target ==> j in stuck
    ensures Convert(doc).Failure?
  {
    var rows := InitialRows(doc.timeSlots, raws);
    assert StuckSet(rows, stuck);
    if Resolve(rows).Success? {
      ResolveKeepsStuck(rows, stuck);
      var i :| i in stuck;
      assert Resolve(rows).value[i].start.None?;
    }
  }

  /** A reference to an id that no annotation carries makes conversion fail. */
  lemma DanglingReferenceFails(doc: Document, raws: seq<RawAnnotation>, k: nat)
    requires ParseDocument(doc) == Success(raws)
    requires k < |raws| && raws[k].kind.Reference?
    requires forall j :: 0 <= j < |raws| ==> raws[j].annotationId != raws[k].kind.target
    ensures Convert(doc).Failure?
  {
    StuckReferencesFail(doc, raws, {k});
  }

  /** Two reference annotations that name each other make conversion fail:
      the loop stops instead of running forever, and the cast then fails. */
  lemma ReferenceCycleFails(doc: Document, raws: seq<RawAnnotation>, k: nat, j: nat)
    requires ParseDocument(doc) == Success(raws)
    requires UniqueAnnotationIds(raws)
    requires k < |raws| && j < |raws|
    requires raws[k].kind == Reference(raws[j].annotationId)
    requires raws[j].kind == Reference(raws[k].annotationId)
    ensures Convert(doc).Failure?
  {
    var stuck := {k, j};
    forall i, l | i in stuck && 0 <= l < |raws| && raws[l].annotationId == raws[i].kind.target
      ensures l in stuck
    {
      var other := if i == k then j else k;
      assert raws[i].kind.target == raws[other].annotationId;
      assert l == other;
    }
    StuckReferencesFail(doc, raws, stuck);
  }

  /** When every aligned annotation's first slot value is at most its second,
      every output row has a non-negative duration. */
  lemma ConvertDurationsNonNegative(doc: Document, raws: seq<RawAnnotation>)
    requires ParseDocument(doc) == Success(raws)
    requires forall k :: 0 <= k < |raws| && raws[k].kind.Aligned? ==>
               var s1 := SlotValue(doc.timeSlots, raws[k].kind.slotRef1);
               var s2 := SlotValue(doc.timeSlots, raws[k].kind.slotRef2);
               s1.Some? && s2.Some? ==> s1.value <= s2.value
    ensures Convert(doc).Success? ==> forall k :: 0 <= k < |Convert(doc).value| ==> Convert(doc).value[k].duration >= 0
  {
    if Convert(doc).Success? {
      var out := Convert(doc).value;
      var rows := InitialRows(doc.timeSlots, raws);
      assert OrderedTimes(rows);
      ResolveKeepsOrderedTimes(rows);
      var resolved := Resolve(rows).value;
      forall k | 0 <= k < |out|
        ensures out[k].duration >= 0
      {
        assert Projects(resolved[k], out[k]);
      }
    }
  }

  // ---------------------------------------------------------------------------
  // Documents without reference annotations

  /** As written, a document with no REF_ANNOTATION at all (including one
      with no annotations) cannot be converted: a column the code indexes
      does not exist. */
  lemma NoReferencesFailAsWritten(doc: Document)
    requires ParseDocument(doc).Success?
    requires forall k :: 0 <= k < |ParseDocument(doc).value| ==> ParseDocument(doc).value[k].kind.Aligned?
    ensures ConvertAsWritten(doc).Failure? && ConvertAsWritten(doc).error.MissingColumn?
  {
  }

  /** Under `Convert`, a document whose annotations are all aligned, with
      values for every slot they name, converts, each row carrying its two
      slot values. */
  lemma AlignedOnlyDocumentsConvert(doc: Document, raws: seq<RawAnnotation>)
    requires ParseDocument(doc) == Success(raws)
    requires forall k :: 0 <= k < |raws| ==>
               && raws[k].kind.Aligned?
               && SlotValue(doc.timeSlots, raws[k].kind.slotRef1).Some?
               && SlotValue(doc.timeSlots, raws[k].kind.slotRef2).Some?
    ensures Convert(doc).Success?
    ensures forall k :: 0 <= k < |raws| ==>
              && Some(Convert(doc).value[k].start) == doc.timeSlots[raws[k].kind.slotRef1]
              && Some(Convert(doc).value[k].end) == doc.timeSlots[raws[k].kind.slotRef2]
  {
    var rows := InitialRows(doc.timeSlots, raws);
    UnresolvedZero(rows);
    var out := Convert(doc).value;
    forall k | 0 <= k < |raws|
      ensures Some(out[k].start) == doc.timeSlots[raws[k].kind.slotRef1]
      ensures Some(out[k].end) == doc.timeSlots[raws[k].kind.slotRef2]
    {
      assert Projects(rows[k], out[k]);
    }
  }

  /** The smallest such document: one tier A1 of participant P1 with one
      aligned annotation "hello" over slots ts1 = 0 and ts2 = 1000. */
  function OneAlignedAnnotation(): Document {
    Document(
      map["ts1" := Some(0), "ts2" := Some(1000)],
      [TierNode("A1", Some("P1"),
                [AnnotationNode(Some(AlignableNode("a1", "ts1", "ts2", Some(ValueNode(Some("hello"))))), None)])])
  }

  function OneAlignedRecord(): RawAnnotation {
    RawAnnotation(Aligned("ts1", "ts2"), "a1", Some("P1"), "A1", Some("hello"))
  }

  lemma OneAlignedAnnotationParses()
    ensures ParseDocument(OneAlignedAnnotation()) == Success([OneAlignedRecord()])
  {
    var doc := OneAlignedAnnotation();
    var raw := OneAlignedRecord();
    var tier := doc.tiers[0];
    assert ParseAnnotation(tier.annotations[0], tier) == Success(raw);
    assert tier.annotations[1..] == [];
    assert ParseAnnotations(tier.annotations[1..], tier) == Success([]);
    assert [raw] + [] == [raw];
    assert ParseAnnotations(tier.annotations, tier) == Success([raw]);
    assert ParseTiers(doc.tiers[1..]) == Success([]);
  }

  /** The code as written rejects it. */
  lemma OneAlignedAnnotationFailsAsWritten()
    ensures ConvertAsWritten(OneAlignedAnnotation()) == Failure(MissingColumn("annotation_ref"))
  {
    OneAlignedAnnotationParses();
    assert OneAlignedRecord().kind.Aligned?;
    assert MissingColumnError(OneAlignedAnnotation().timeSlots, [OneAlignedRecord()]) == Some(MissingColumn("annotation_ref"));
  }

  /** Under `Convert`, a document holding one aligned annotation whose two
      slots have values yields exactly that annotation's row. */
  lemma SingleAlignedAnnotationConverts(doc: Document, raw: RawAnnotation, start: int, end: int)
    requires ParseDocument(doc) == Success([raw])
    requires raw.kind.Aligned?
    requires SlotValue(doc.timeSlots, raw.kind.slotRef1) == Some(start)
    requires SlotValue(doc.timeSlots, raw.kind.slotRef2) == Some(end)
    ensures Convert(doc) == Success([OutputRow(raw.tierId, raw.participant, start, end, end - start, raw.value)])
  {
    AlignedOnlyDocumentsConvert(doc, [raw]);
    var out := Convert(doc).value;
    assert |out| == 1;
    assert out == [OutputRow(raw.tierId, raw.participant, start, end, end - start, raw.value)];
  }

  /** `Convert` yields its single row. */
  lemma OneAlignedAnnotationConverts()
    ensures Convert(OneAlignedAnnotation()) == Success([OutputRow("A1", Some("P1"), 0, 1000, 1000, Some("hello"))])
  {
    OneAlignedAnnotationParses();
    SingleAlignedAnnotationConverts(OneAlignedAnnotation(), OneAlignedRecord(), 0, 1000);
  }
}
