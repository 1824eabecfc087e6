/**
 * The records the Vale backend reports, already parsed from its JSON output.
 * Only the fields the extension reads are kept.
 */
module ValeJson {

  /** The three severities Vale assigns to an alert. */
  datatype ValeSeverity = Suggestion | Warning | Error

  /** The fix Vale attaches to an alert; the extension only looks at its name. */
  datatype ValeAction = ValeAction(name: string, params: seq<string>)

  /**
   * One alert. `line` is 1-based within the text that was submitted;
   * `spanStart` and `spanEnd` are `Span[0]` and `Span[1]` (1-based columns).
   * An empty `matchText` marks a document-level readability metric.
   */
  datatype Alert = Alert(
    check: string,
    message: string,
    severity: ValeSeverity,
    line: int,
    spanStart: int,
    spanEnd: int,
    matchText: string,
    action: ValeAction)

  /** One key of the result object: a style namespace and its alerts, in order. */
  datatype Namespace = Namespace(key: string, alerts: seq<Alert>)

}
