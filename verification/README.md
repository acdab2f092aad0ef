# eaf2txt conversion core in Dafny

This project models how eaf2txt turns an ELAN annotation file (EAF) into rows
of `tier_id, participant, start, end, duration, value`, and proves
properties of that model. It covers three steps:

- **Parsing annotations.** An ANNOTATION holds either an
  ALIGNABLE_ANNOTATION, which names two time slots, or a REF_ANNOTATION,
  which names another annotation's id. Each is read together with the
  TIER_ID and PARTICIPANT of its tier.
- **Resolving times.** Aligned annotations take their times from the
  time-slot table through two left merges. Reference annotations then copy
  times from the annotation they name. This copying is a pass over the
  whole table, repeated until the number of rows without a start stops
  changing. The times are then cast to integers, the duration is added and
  the output columns are projected.
- **Ordering.** With `order` set, rows are sorted by the key
  (start, end, is_subtier, tier_id). A tier is a subtier when its id
  contains `@`.

The document is given already read from XML:

- a map from TIME_SLOT_ID to an optional integer TIME_VALUE;
- a sequence of tiers, each holding its annotation nodes.

A missing child element, a missing PARTICIPANT attribute or empty element
text is an `Option`; the other attributes are taken as present. Data-frame
nulls are `Option` too. The failures modelled are the cases of
`Errors.Error`: a missing annotation child or value, a missing column, a
duplicate id in the snapshot, and a null left for the integer cast.
Failures that come from fixed-width integers are not modelled (see Left
out).

Modules:

| module | contents |
|---|---|
| `Wrappers` | `Option` and `Result` |
| `Errors` | the error cases |
| `EafDocument` | the XML-shaped input and parsing |
| `Resolution` | the merged table, one pass and the loop |
| `ReferenceChains` | the invariant of the loop, what it resolves and what it never resolves |
| `Conversion` | casting, duration, projection, and the whole conversion |
| `ConversionProperties` | end-to-end properties of the conversion |
| `Ordering` | the ordered mode |
| `Scenarios` | a worked two-tier document |

Two conversions are defined:

- `Conversion.ConvertAsWritten` is the code as written, including its
  missing-column failures (see Findings).
- `Conversion.Convert` is the intended conversion, and the rest of the
  model builds on it.

## Model

| member | source | states |
|---|---|---|
| EafDocument.ParseAnnotation | eaf2txt/eaf2txt.py:20-37 | Parsing succeeds exactly when the node takes its alignable child (present, with an ANNOTATION_VALUE child) or else has a reference child with one. The record's kind is aligned exactly when the alignable branch is taken. It copies the slot refs or the target id, the annotation id, the tier's id and participant, and the value text. A node with neither child fails with NoAnnotationChild; a chosen child without ANNOTATION_VALUE fails with NoAnnotationValue. |
| EafDocument.ParseAnnotations | eaf2txt/eaf2txt.py:58-60 | A tier's annotations parse exactly when each one does. On success the records are the annotations' records in order. On failure the error is that of the first annotation that fails: every annotation before it parses. |
| EafDocument.ParseTiers | eaf2txt/eaf2txt.py:56-60 | Parsing succeeds exactly when every annotation of every tier parses. It yields as many records as there are annotations. Annotation k of tier t becomes the record at position (annotations of tiers before t) + k, and that record is the one parsed from it with its own tier's context. On failure the error is that of the first failing annotation in document order: all earlier tiers, and all earlier annotations of its tier, parse. |
| EafDocument.ConcatAtTierPositions | eaf2txt/eaf2txt.py:57-60 | The first tier's records followed by the other tiers' records put every annotation's record at its document position. |
| Resolution.InitialRow | eaf2txt/eaf2txt.py:69-79 | An aligned row has a start exactly when its TIME_SLOT_REF1 names a slot with a value, and then that value; the same holds for the end and TIME_SLOT_REF2. A reference row has no times and is indexed by its target id. All other fields are copied. |
| Resolution.InitialRows | eaf2txt/eaf2txt.py:69-79 | The merged table has one row per record, in order, and no reference row has times. |
| Resolution.UnresolvedMonotone | eaf2txt/eaf2txt.py:89-95 | If every row timed before is still timed, the count of rows without a start does not grow. It stays the same only when exactly the same rows are timed. |
| Resolution.UnresolvedZero | eaf2txt/eaf2txt.py:89-91 | The count of rows without a start is zero exactly when every row has a start. |
| Resolution.Snapshot | eaf2txt/eaf2txt.py:94 | The timed rows keyed by annotation id. Building it fails (DuplicateAnnotationId) exactly when two timed rows share an id. Its keys are exactly the ids of timed rows, and each key maps to that row's times. |
| Resolution.Pass | eaf2txt/eaf2txt.py:93-94 | A pass fails exactly when two timed rows share an id. Otherwise it changes only times, never writes an aligned row, and writes a row only when its index names a timed row. Such a row gets exactly that row's start and end. A timed row stays timed, and the untimed count never grows. |
| Resolution.Relax | eaf2txt/eaf2txt.py:88-95 | The loop from its first pass on can fail only with DuplicateAnnotationId. Otherwise only reference rows' times change, timed rows stay timed and the untimed count does not grow. |
| Resolution.Resolve | eaf2txt/eaf2txt.py:88-96 | The whole loop, with no pass when every row has a start. It can fail only with DuplicateAnnotationId, and keeps the other rows' fields and aligned rows unchanged. |
| ReferenceChains.PassKeepsTimedRows | eaf2txt/eaf2txt.py:93-94 | When reference times came from the rows they name, a pass leaves every timed row exactly as it was. |
| ReferenceChains.PassKeepsConsistent | eaf2txt/eaf2txt.py:93-94 | A pass keeps the loop's invariant: a reference row has both times or neither, and any it has are those of a timed row with the id it names. |
| ReferenceChains.PassStallIsFixpoint | eaf2txt/eaf2txt.py:91-95 | A pass that leaves the untimed count unchanged changes nothing, so the count test detects a true fixpoint. |
| ReferenceChains.UniqueIdsPass | eaf2txt/eaf2txt.py:94 | With unique ids a pass succeeds and ids stay unique. |
| ReferenceChains.RelaxReachesFixpoint | eaf2txt/eaf2txt.py:88-95 | With unique ids the loop succeeds and stops at a table the next pass leaves unchanged, with the invariant and unique ids intact. This includes the first test, which compares with 0. |
| ReferenceChains.ResolveReachesFixpoint | eaf2txt/eaf2txt.py:88-96 | With unique ids, resolving a freshly merged table succeeds and ends at a fixpoint of the pass, with the invariant and unique ids intact. |
| ReferenceChains.RelaxKeepsConsistent | eaf2txt/eaf2txt.py:88-95 | The loop keeps the invariant. |
| ReferenceChains.ResolveKeepsConsistent | eaf2txt/eaf2txt.py:88-96 | Every reference row the loop times carries the times of a timed row with the id it names. |
| ReferenceChains.ClosedTimesChain | eaf2txt/eaf2txt.py:81-95 | In a table where every row naming a timed row already has that row's times, as at a fixpoint of the pass, every row of a reference chain carries the times of its aligned head. |
| ReferenceChains.ResolveTimesChains | eaf2txt/eaf2txt.py:81-96 | With unique ids, every row of a chain from a timed aligned annotation, of any depth, ends with the head's start and end. |
| ReferenceChains.PassesKeepShape | eaf2txt/eaf2txt.py:93-94 | With unique ids, any number of passes succeeds, keeps ids unique, keeps the merged table's shape and leaves aligned rows alone. |
| ReferenceChains.PassAdvancesChain | eaf2txt/eaf2txt.py:93-94 | If exactly depths 0 to n of a chain are timed with the head's times, one pass times exactly depths 0 to n+1. |
| ReferenceChains.InitialChainUntimed | eaf2txt/eaf2txt.py:69-79 | Before any pass, only a chain's head is timed. |
| ReferenceChains.ChainAfterZero | eaf2txt/eaf2txt.py:69-81 | Before any pass, of a chain only the head (depth 0) is timed, and the table has its merged shape. |
| ReferenceChains.ChainAfterStep | eaf2txt/eaf2txt.py:93-94 | If after some passes exactly depths 0 to m of a chain are timed with the head's times, the next pass succeeds and times exactly depths 0 to m+1, keeping ids, aligned rows and all fields but the times. |
| ReferenceChains.ChainAfterPasses | eaf2txt/eaf2txt.py:88-95 | After n passes, the chain row at depth m is timed exactly when m <= n, and then with the head's times. |
| ReferenceChains.PassesTimeChainByDepth | eaf2txt/eaf2txt.py:81-95 | The same, for the table n passes produce: a chain k references deep needs k passes, because each pass copies from a snapshot taken before it. |
| ReferenceChains.ChainSurvives | eaf2txt/eaf2txt.py:93-94 | Passes keep a chain a chain. |
| ReferenceChains.PassKeepsStuck | eaf2txt/eaf2txt.py:93-94 | A pass times no row of a stuck set: references that name only each other or ids no row carries. |
| ReferenceChains.RelaxKeepsStuck | eaf2txt/eaf2txt.py:88-95 | The loop times no row of a stuck set. |
| ReferenceChains.ResolveKeepsStuck | eaf2txt/eaf2txt.py:88-96 | Resolution leaves every row of a stuck set without a start. |
| ReferenceChains.FixpointLeavesOnlyBrokenRows | eaf2txt/eaf2txt.py:91-95 | At a fixpoint, an untimed reference row names no timed row. |
| ReferenceChains.PassKeepsOrderedTimes | eaf2txt/eaf2txt.py:93-94 | If every timed row starts no later than it ends, this still holds after a pass. |
| ReferenceChains.RelaxKeepsOrderedTimes | eaf2txt/eaf2txt.py:88-95 | The same holds after the loop. |
| ReferenceChains.ResolveKeepsOrderedTimes | eaf2txt/eaf2txt.py:88-96 | The same holds after resolution. |
| Conversion.Project | eaf2txt/eaf2txt.py:101-104 | A timed row projects to its tier id, participant, start, end, end − start and value. |
| Conversion.Finish | eaf2txt/eaf2txt.py:98-104 | The casts succeed exactly when every row has a start and an end. Then each output row is the projection of its row. A missing start fails the start cast first; otherwise a missing end fails the end cast. |
| Conversion.ConvertParsed | eaf2txt/eaf2txt.py:69-104 | On success there is one output row per record, in parse order, with the record's tier id, participant and value, and duration = end − start. |
| Conversion.Convert | eaf2txt/eaf2txt.py:65-104 | On success the document parsed, and there is one row per annotation, in document order. Each row carries its record's tier id, participant and value, and duration = end − start. |
| Conversion.ConvertKeepsTierPositions | eaf2txt/eaf2txt.py:56-60 | When conversion succeeds, the row of annotation k of tier t sits at that annotation's document position (annotations of tiers before t, plus k). It carries tier t's id and participant. |
| Conversion.MissingColumnError | eaf2txt/eaf2txt.py:69-79 | There is no missing-column error exactly when the slot table is non-empty and there are both an aligned and a reference record. The columns are checked in the order time_slot_id, time_slot_ref_1, annotation_ref. |
| Conversion.ConvertAsWritten | eaf2txt/eaf2txt.py:65-104 | The code as written. It agrees with `Convert` whenever parsing fails or no column is missing. When the parsed table lacks a column the merges or `set_index` need (an empty slot table, no aligned record, or no reference record), it fails with that MissingColumn error instead. |
| ConversionProperties.ConvertAlignedTimes | eaf2txt/eaf2txt.py:69-79 | An aligned annotation's output start and end are the values of its TIME_SLOT_REF1 and TIME_SLOT_REF2 slots. |
| ConversionProperties.ConvertReferenceTimes | eaf2txt/eaf2txt.py:81-96 | With unique ids, a reference annotation's output times equal those of the annotation it names. |
| ConversionProperties.UniqueIdsFailOnlyOnUntimedRows | eaf2txt/eaf2txt.py:93-100 | With unique ids, a conversion failure is always a failed integer cast. |
| ConversionProperties.GroundedDocumentsConvert | eaf2txt/eaf2txt.py:65-104 | If ids are unique and every annotation ends a chain from a timed aligned annotation, conversion succeeds. |
| ConversionProperties.GroundedRowsResolve | eaf2txt/eaf2txt.py:81-96 | Resolving a merged table with unique ids in which every row ends such a chain succeeds and leaves no row without a start or an end. |
| ConversionProperties.StuckReferencesFail | eaf2txt/eaf2txt.py:91-100 | A non-empty set of reference annotations that name only each other or missing ids makes the whole conversion fail. |
| ConversionProperties.DanglingReferenceFails | eaf2txt/eaf2txt.py:91-100 | A reference to an id no annotation carries makes the conversion fail. |
| ConversionProperties.ReferenceCycleFails | eaf2txt/eaf2txt.py:91-100 | Two references that name each other make the loop stop, and the conversion fail. |
| ConversionProperties.ConvertDurationsNonNegative | eaf2txt/eaf2txt.py:101 | If every aligned annotation's first slot value is at most its second, every duration is non-negative. |
| ConversionProperties.NoReferencesFailAsWritten | eaf2txt/eaf2txt.py:87 | As written, a parsed document without reference annotations fails with a missing column. |
| ConversionProperties.AlignedOnlyDocumentsConvert | eaf2txt/eaf2txt.py:69-104 | Under `Convert`, a document of aligned annotations whose slots all have values converts, each row carrying its slot values. |
| ConversionProperties.OneAlignedAnnotationParses | eaf2txt/eaf2txt.py:20-37 | The one-annotation document parses to its single record. |
| ConversionProperties.OneAlignedAnnotationFailsAsWritten | eaf2txt/eaf2txt.py:87 | As written, the one-annotation document fails with MissingColumn("annotation_ref"). |
| ConversionProperties.SingleAlignedAnnotationConverts | eaf2txt/eaf2txt.py:65-104 | Under `Convert`, a document with one aligned annotation over valued slots yields exactly that annotation's row. |
| ConversionProperties.OneAlignedAnnotationConverts | eaf2txt/eaf2txt.py:65-104 | Under `Convert`, the one-annotation document yields the row A1, P1, 0, 1000, 1000, "hello". |
| Ordering.StrLeqTotal | eaf2txt/eaf2txt.py:120 | Python's code-point string order is total. |
| Ordering.StrLeqTransitive | eaf2txt/eaf2txt.py:120 | The string order is transitive. |
| Ordering.StrLeqAntisymmetric | eaf2txt/eaf2txt.py:120 | Strings that sort both ways are equal. |
| Ordering.KeyLeqTotal | eaf2txt/eaf2txt.py:118-120 | The (start, end, is_subtier, tier_id) order is total. |
| Ordering.KeyLeqTransitive | eaf2txt/eaf2txt.py:118-120 | The key order is transitive. |
| Ordering.KeyLeqAntisymmetric | eaf2txt/eaf2txt.py:118-120 | Keys that sort both ways are equal. |
| Ordering.Insert | eaf2txt/eaf2txt.py:120 | Inserting into sorted rows adds exactly that row and keeps them sorted. |
| Ordering.SortRows | eaf2txt/eaf2txt.py:117-122 | The sorted rows are a permutation of the input and are ordered by the key. |
| Ordering.ConvertToTxt | eaf2txt/eaf2txt.py:116-122 | Succeeds exactly when the conversion does, with the same error. In ordered mode the rows are a sorted permutation of the conversion's; otherwise they are the same rows in parse order. |
| Ordering.SortedPermutationsAgreeOnKeys | eaf2txt/eaf2txt.py:117-122 | Two sorted arrangements of the same rows list the same keys in the same order. So the ordered output is fixed up to the order of rows with identical keys. |
| Ordering.MainTierBeforeSubtier | eaf2txt/eaf2txt.py:118-120 | In rows sorted by the key, as the ordered output is, of two rows over the same window the main tier's row comes before the subtier's. |
| Scenarios.AlignedAndReferenceConvert | eaf2txt/eaf2txt.py:65-104 | An aligned annotation over valued slots and a reference naming it convert to two rows over the aligned annotation's window. |
| Scenarios.MainTierAndSubtierOrdered | eaf2txt/eaf2txt.py:116-122 | For such a pair on a main tier and a subtier, the ordered output is the main tier's row, then the subtier's. This is also the parse order. |
| Scenarios.AlignedRow | eaf2txt/eaf2txt.py:69-104 | An aligned annotation over valued slots yields the row with its tier, participant and value, its two slot values, and their difference. |
| Scenarios.ReferenceRow | eaf2txt/eaf2txt.py:81-104 | With unique ids, a reference annotation yields the row with its own tier, participant and value and the window of the annotation it names. |
| Scenarios.ParentAndSubtierParses | eaf2txt/eaf2txt.py:56-60 | The two-tier document parses to its two records in tier order. |
| Scenarios.ParentAndSubtierConverts | eaf2txt/eaf2txt.py:65-122 | Whatever the parent's text, the two-tier document's ordered output is A1, P1, 0, 1000, 1000 with that text, then A1@P2, P2, 0, 1000, 1000, "0.". |

## Left out

- Reading the XML file (`_parse_eaf`, lines 40-62): the document arrives as datatypes. Attribute values other than PARTICIPANT are taken as present.
- Converting TIME_VALUE strings to integers: slot values are already integers, and `astype(int)` is modelled only as failing on nulls.
- Conversion.Finish: integers are unbounded. `astype(int)` at lines 99-100 gives fixed-width integers (int64, or a 32-bit C long on some platforms), which fail with OverflowError on out-of-range times, and `end - start` at line 101 is fixed-width arithmetic that can wrap. Neither failure nor wrap-around is modelled; times are taken to fit.
- Duplicate TIME_SLOT_IDs: the slot table is a map. A left merge on a repeated slot id would duplicate rows, and that is not modelled.
- Writing the .txt file and its separator and column options (lines 124-129), `cli.py` and `db.py`: file and database output, outside the conversion.
- Ordering.SortRows: the model does not state that the sort keeps the parse order of rows with equal keys. The sort's stability is a property of the data-frame library, so only sortedness and permutation are stated. `Ordering.SortedPermutationsAgreeOnKeys` states how far the output is determined.
- Conversion.Convert: does not promise that end >= start. The code does not check it; `ConversionProperties.ConvertDurationsNonNegative` states when it holds.
- Conversion.MissingColumnError: the order in which the three missing columns are reported follows the data-frame library's key checks (the right-hand merge key first). The code itself does not fix it.
- The per-participant summary statistics are not part of this model: no code for them is in the repository's conversion module.
- The loop's first test compares the first pass's count with 0 rather than with the initial count. This is modelled as written. `ReferenceChains.PassStallIsFixpoint` shows the stop is still at a fixpoint.
- An ANNOTATION_VALUE with no text gives a null value (`None`). The code is followed here, not an empty string.

## Findings

| source | as written | input that shows it | evidently intended | confidence | as-written member | corrected member |
|---|---|---|---|---|---|---|
| eaf2txt/eaf2txt.py:87 | `set_index('annotation_ref')` needs a column that exists only when some annotation is a REF_ANNOTATION. The merges at lines 69-79 likewise need time_slot_ref_1 and a non-empty slot table. | One tier A1 of P1 holding one aligned annotation "hello" over ts1 = 0 and ts2 = 1000 fails with a KeyError on annotation_ref. | A document of aligned annotations only converts to one row per annotation. | not executed | ConversionProperties.OneAlignedAnnotationFailsAsWritten | ConversionProperties.OneAlignedAnnotationConverts |
| eaf2txt/eaf2txt.py:69-87 | Every parsed document without reference annotations fails with a missing column. | Any such document, e.g. the one above. | Such documents convert whenever their slots have values. | not executed | ConversionProperties.NoReferencesFailAsWritten | ConversionProperties.AlignedOnlyDocumentsConvert |
