/**
 * The record both normalisers produce: one check-run annotation, the shape of an
 * element of `output.annotations` in GitHub's check-run update request.
 */
module Annotations {
  import opened Wrappers

  datatype Level = Notice | Warning | Failure

  /**
   * `startColumn`/`endColumn` are optional: GitHub accepts them only on an
   * annotation whose start and end line coincide.
   */
  datatype Annotation = Annotation(
    path: string,
    startLine: int,
    endLine: int,
    startColumn: Option<int>,
    endColumn: Option<int>,
    level: Level,
    title: string,
    message: string)

  /** Column fields are present exactly on single-line annotations. */
  predicate ColumnsOnlyOnSingleLine(a: Annotation) {
    && (a.startColumn.Some? <==> a.startLine == a.endLine)
    && (a.endColumn.Some? <==> a.startLine == a.endLine)
  }
}
