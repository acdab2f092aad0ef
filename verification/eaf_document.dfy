/** The parsed EAF document and the step that turns every ANNOTATION element
    into a flat record tagged with its kind and its tier's context
    (`_parse_annotation` and the annotation half of `_parse_eaf`). */
module EafDocument {
  import opened Wrappers
  import opened Errors

  /** An ANNOTATION_VALUE element. `text` is None for an element with no text,
      which is how ElementTree reports `<ANNOTATION_VALUE/>`. */
  datatype ValueNode = ValueNode(text: Option<string>)

  /** An ALIGNABLE_ANNOTATION element: its id, its two time-slot references
      and its ANNOTATION_VALUE child, if it has one. */
  datatype AlignableNode = AlignableNode(
    annotationId: string,
    slotRef1: string,
    slotRef2: string,
    valueNode: Option<ValueNode>)

  /** A REF_ANNOTATION element: its id, the id of the annotation it refers to
      and its ANNOTATION_VALUE child, if it has one. */
  datatype RefNode = RefNode(
    annotationId: string,
    annotationRef: string,
    valueNode: Option<ValueNode>)

  /** An ANNOTATION element, seen through the two lookups the parser makes:
      its first ALIGNABLE_ANNOTATION child and its first REF_ANNOTATION child. */
  datatype AnnotationNode = AnnotationNode(
    alignable: Option<AlignableNode>,
    reference: Option<RefNode>)

  /** A TIER element: the two attributes every nested annotation inherits and
      its ANNOTATION children in document order. PARTICIPANT is optional in
      EAF, so a tier without one yields None. */
  datatype TierNode = TierNode(
    tierId: string,
    participant: Option<string>,
    annotations: seq<AnnotationNode>)

  /** The document after XML reading: TIME_ORDER as a table from
      TIME_SLOT_ID to TIME_VALUE (None for a slot without a TIME_VALUE), and
      the TIER elements in document order. */
  datatype Document = Document(
    timeSlots: map<string, Option<int>>,
    tiers: seq<TierNode>)

  /** How an annotation gets its times: from two time slots, or from the
      annotation whose id it names. */
  datatype Kind = Aligned(slotRef1: string, slotRef2: string) | Reference(target: string)

  /** One parsed annotation with the context of its tier. */
  datatype RawAnnotation = RawAnnotation(
    kind: Kind,
    annotationId: string,
    participant: Option<string>,
    tierId: string,
    value: Option<string>)

  /** The parser picks `find('ALIGNABLE_ANNOTATION') or find('REF_ANNOTATION')`.
      An element is truthy only when it has children, and the only child of
      an ALIGNABLE_ANNOTATION is its ANNOTATION_VALUE; so the aligned child
      is taken exactly when it exists and has a value node. */
  predicate TakesAlignable(node: AnnotationNode) {
    node.alignable.Some? && node.alignable.value.valueNode.Some?
  }

  /** The reference child is taken when the aligned one is not and it exists
      with a value node (without one, reading the value fails). */
  predicate TakesReference(node: AnnotationNode) {
    !TakesAlignable(node) && node.reference.Some? && node.reference.value.valueNode.Some?
  }

  /** Classifies one ANNOTATION of `tier` and copies the tier context. */
  function ParseAnnotation(node: AnnotationNode, tier: TierNode): (r: Result<RawAnnotation, Error>)
    ensures r.Success? <==> TakesAlignable(node) || TakesReference(node)
    ensures r.Success? ==> r.value.tierId == tier.tierId && r.value.participant == tier.participant
    ensures r.Success? && r.value.kind.Aligned? <==> TakesAlignable(node)
    ensures r.Success? && r.value.kind.Reference? <==> TakesReference(node)
    ensures TakesAlignable(node) ==>
              var a := node.alignable.value;
              && r.value.kind == Aligned(a.slotRef1, a.slotRef2)
              && r.value.annotationId == a.annotationId
              && r.value.value == a.valueNode.value.text
    ensures TakesReference(node) ==>
              var f := node.reference.value;
              && r.value.kind == Reference(f.annotationRef)
              && r.value.annotationId == f.annotationId
              && r.value.value == f.valueNode.value.text
    ensures !TakesAlignable(node) && node.reference.None? ==> r == Failure(NoAnnotationChild(tier.tierId))
    ensures !TakesAlignable(node) && node.reference.Some? && node.reference.value.valueNode.None? ==>
              r == Failure(NoAnnotationValue(tier.tierId))
  {
    if TakesAlignable(node) then
      var a := node.alignable.value;
      Success(RawAnnotation(Aligned(a.slotRef1, a.slotRef2), a.annotationId,
                            tier.participant, tier.tierId, a.valueNode.value.text))
    else
      match node.reference
      case None => Failure(NoAnnotationChild(tier.tierId))
      case Some(f) =>
        match f.valueNode
        case None => Failure(NoAnnotationValue(tier.tierId))
        case Some(v) =>
          Success(RawAnnotation(Reference(f.annotationRef), f.annotationId,
                                tier.participant, tier.tierId, v.text))
  }

  /** Parses the annotations `nodes` of `tier` in order, stopping at the first
      one that fails. */
  function ParseAnnotations(nodes: seq<AnnotationNode>, tier: TierNode): (r: Result<seq<RawAnnotation>, Error>)
    ensures r.Success? <==> forall k :: 0 <= k < |nodes| ==> ParseAnnotation(nodes[k], tier).Success?
    ensures r.Success? ==> |r.value| == |nodes|
    ensures r.Success? ==> forall k :: 0 <= k < |nodes| ==> Success(r.value[k]) == ParseAnnotation(nodes[k], tier)
    ensures r.Failure? ==>
              exists k :: 0 <= k < |nodes| && ParseAnnotation(nodes[k], tier) == Failure(r.error)
                          && forall l :: 0 <= l < k ==> ParseAnnotation(nodes[l], tier).Success?
  {
    if |nodes| == 0 then Success([])
    else
      var head :- ParseAnnotation(nodes[0], tier);
      var rest :- ParseAnnotations(nodes[1..], tier);
      assert forall k :: 1 <= k < |nodes| ==> nodes[k] == nodes[1..][k - 1];
      Success([head] + rest)
  }

  /** The number of ANNOTATION elements under `tiers`. */
  function AnnotationCount(tiers: seq<TierNode>): nat {
    if |tiers| == 0 then 0 else |tiers[0].annotations| + AnnotationCount(tiers[1..])
  }

  /** The count of a prefix of tiers splits into the first tier's
      annotations and the count of the rest of the prefix. */
  lemma AnnotationCountPrefixes(tiers: seq<TierNode>)
    requires |tiers| > 0
    ensures AnnotationCount(tiers[..0]) == 0
    ensures forall t :: 1 <= t <= |tiers| ==>
              AnnotationCount(tiers[..t]) == |tiers[0].annotations| + AnnotationCount(tiers[1..][..t - 1])
  {
    forall t | 1 <= t <= |tiers|
      ensures AnnotationCount(tiers[..t]) == |tiers[0].annotations| + AnnotationCount(tiers[1..][..t - 1])
    {
      assert tiers[..t][1..] == tiers[1..][..t - 1];
    }
  }

  /** Where annotation `k` of tier `t` lands in the document's annotation
      table: after every annotation of the tiers before `t`. */
  function RecordIndex(tiers: seq<TierNode>, t: nat, k: nat): nat
    requires t <= |tiers|
  {
    AnnotationCount(tiers[..t]) + k
  }

  /** Every annotation's record is at its `RecordIndex` in `records`. */
  ghost predicate AtTierPositions(tiers: seq<TierNode>, records: seq<RawAnnotation>) {
    forall t, k :: 0 <= t < |tiers| && 0 <= k < |tiers[t].annotations| ==>
      && RecordIndex(tiers, t, k) < |records|
      && Success(records[RecordIndex(tiers, t, k)]) == ParseAnnotation(tiers[t].annotations[k], tiers[t])
  }

  /** The first tier's records followed by the rest's records are at their
      tier positions. */
  lemma ConcatAtTierPositions(tiers: seq<TierNode>, head: seq<RawAnnotation>, rest: seq<RawAnnotation>)
    requires |tiers| > 0
    requires |head| == |tiers[0].annotations|
    requires forall k :: 0 <= k < |head| ==> Success(head[k]) == ParseAnnotation(tiers[0].annotations[k], tiers[0])
    requires AtTierPositions(tiers[1..], rest)
    ensures AtTierPositions(tiers, head + rest)
  {
    AnnotationCountPrefixes(tiers);
    var records := head + rest;
    forall t, k | 0 <= t < |tiers| && 0 <= k < |tiers[t].annotations|
      ensures RecordIndex(tiers, t, k) < |records|
      ensures Success(records[RecordIndex(tiers, t, k)]) == ParseAnnotation(tiers[t].annotations[k], tiers[t])
    {
      if t == 0 {
        assert records[k] == head[k];
      } else {
        var u: nat := t - 1;
        assert tiers[t] == tiers[1..][u];
        var i := RecordIndex(tiers[1..], u, k);
        assert i < |rest| && Success(rest[i]) == ParseAnnotation(tiers[1..][u].annotations[k], tiers[1..][u]);
        assert RecordIndex(tiers, t, k) == |head| + i;
        assert records[|head| + i] == rest[i];
      }
    }
  }

  /** The annotation records of all `tiers`, tier by tier and, within a tier,
      in document order; the first annotation that fails aborts the parse.
      Annotation `k` of tier `t` becomes the record at
      `RecordIndex(tiers, t, k)`. */
  function ParseTiers(tiers: seq<TierNode>): (r: Result<seq<RawAnnotation>, Error>)
    ensures r.Success? <==>
              forall t, k :: 0 <= t < |tiers| && 0 <= k < |tiers[t].annotations| ==>
                ParseAnnotation(tiers[t].annotations[k], tiers[t]).Success?
    ensures r.Success? ==> |r.value| == AnnotationCount(tiers)
    ensures r.Success? ==> AtTierPositions(tiers, r.value)
    ensures r.Failure? ==>
              exists t, k :: 0 <= t < |tiers| && 0 <= k < |tiers[t].annotations|
                             && ParseAnnotation(tiers[t].annotations[k], tiers[t]) == Failure(r.error)
                             && (forall u, l :: 0 <= u < t && 0 <= l < |tiers[u].annotations| ==>
                                   ParseAnnotation(tiers[u].annotations[l], tiers[u]).Success?)
                             && forall l :: 0 <= l < k ==> ParseAnnotation(tiers[t].annotations[l], tiers[t]).Success?
  {
    if |tiers| == 0 then Success([])
    else
      var head :- ParseAnnotations(tiers[0].annotations, tiers[0]);
      var rest :- ParseTiers(tiers[1..]);
      assert forall t :: 1 <= t < |tiers| ==> tiers[t] == tiers[1..][t - 1];
      ConcatAtTierPositions(tiers, head, rest);
      Success(head + rest)
  }

  /** The annotation table of a document (`_parse_eaf`, annotation part). */
  function ParseDocument(doc: Document): Result<seq<RawAnnotation>, Error> {
    ParseTiers(doc.tiers)
  }
}
