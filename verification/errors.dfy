/** The ways a conversion aborts. The converter raises the first one it meets
    and writes no rows. */
module Errors {

  datatype Error =
      /** An ANNOTATION whose child lookup found nothing usable: the code then
          reads `.tag` of a missing element. */
    | NoAnnotationChild(tierId: string)
      /** The chosen annotation child has no ANNOTATION_VALUE element. */
    | NoAnnotationValue(tierId: string)
      /** A data frame column the code indexes does not exist, because no
          parsed record carried that key. */
    | MissingColumn(column: string)
      /** Two timed rows share an ANNOTATION_ID, so the snapshot used by a
          propagation pass cannot be indexed by id. */
    | DuplicateAnnotationId(annotationId: string)
      /** Some row still lacks a start (or end) time when the times are cast
          to integers; `column` names the column that failed. */
    | UnresolvedTimes(column: string)
}
