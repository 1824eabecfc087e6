/**
 * The helpers of `src/features/vsUtils.ts` that turn Vale alerts into editor objects
 * and find the paragraph around the caret.
 */
module Utils {
  import opened Wrappers
  import opened ValeJson
  import opened Host
  import opened JsStrings

  /** A Vale severity as an editor severity. Never `Hint`; no two Vale severities share one. */
  function ToSeverity(severity: ValeSeverity): (d: DiagnosticSeverity)
    ensures severity == ValeSeverity.Suggestion <==> d == DiagnosticSeverity.Information
    ensures severity == ValeSeverity.Warning <==> d == DiagnosticSeverity.Warning
    ensures severity == ValeSeverity.Error <==> d == DiagnosticSeverity.Error
    ensures d != DiagnosticSeverity.Hint
  {
    match severity
    case Suggestion => DiagnosticSeverity.Information
    case Warning => DiagnosticSeverity.Warning
    case Error => DiagnosticSeverity.Error
  }

  const RemoveAction: string := "remove"

  /** The title of the quick fix that applies `suggestion` to `alert`. */
  function ToTitle(alert: Alert, suggestion: string): (title: string)
    ensures alert.action.name == RemoveAction ==> title == "Remove '" + alert.matchText + "'"
    ensures alert.action.name != RemoveAction ==> title == "Replace with '" + suggestion + "'"
  {
    if alert.action.name == RemoveAction then "Remove '" + alert.matchText + "'"
    else "Replace with '" + suggestion + "'"
  }

  /**
   * A title tells which edit the fix makes: it starts with "Remove '" exactly when the
   * alert's action is a removal. A removal title does not depend on the suggestion, and
   * different suggestions give different replacement titles.
   */
  lemma TitleAnnouncesEdit(alert: Alert, s1: string, s2: string)
    ensures var t := ToTitle(alert, s1);
      |t| >= 8 && (t[..8] == "Remove '" <==> alert.action.name == RemoveAction)
    ensures alert.action.name == RemoveAction ==> ToTitle(alert, s1) == ToTitle(alert, s2)
    ensures alert.action.name != RemoveAction && ToTitle(alert, s1) == ToTitle(alert, s2) ==> s1 == s2
  {
    var prefix := "Replace with '";
    if alert.action.name != RemoveAction {
      assert ToTitle(alert, s1)[2] == 'p';
      if ToTitle(alert, s1) == ToTitle(alert, s2) {
        var t1, t2 := ToTitle(alert, s1), ToTitle(alert, s2);
        assert |s1| == |s2|;
        forall i | 0 <= i < |s1| ensures s1[i] == s2[i] {
          assert t1[|prefix| + i] == s1[i];
          assert t2[|prefix| + i] == s2[i];
        }
      }
    }
  }

  /**
   * The single-line range of an alert: its line moved by `offset` (the first line of the
   * text that was submitted) and made zero-based, its span start made zero-based, its span
   * end kept as the exclusive end.
   */
  function DiagnosticRange(alert: Alert, offset: int): (r: Range)
    ensures r.start.line == r.end.line == alert.line - 1 + offset
    ensures r.start.character == alert.spanStart - 1 && r.end.character == alert.spanEnd
  {
    var line := (alert.line - 1) + offset;
    Range(Position(line, alert.spanStart - 1), Position(line, alert.spanEnd))
  }

  /**
   * On a document that has not changed since the lint, the text under an alert's range is
   * its `Match` whenever Vale reported the match at the 1-based inclusive span of that line:
   * the stale check of a quick fix lets the fix through.
   */
  lemma RangeReadsMatch(doc: TextDocument, alert: Alert, offset: int)
    requires WellFormed(doc)
    requires 0 <= alert.line - 1 + offset < |doc.lines|
    requires 1 <= alert.spanStart <= alert.spanEnd + 1
    requires alert.spanEnd <= |doc.lines[alert.line - 1 + offset].text|
    requires alert.matchText == doc.lines[alert.line - 1 + offset].text[alert.spanStart - 1..alert.spanEnd]
    ensures GetText(doc, DiagnosticRange(alert, offset)) == alert.matchText
  {
    SingleLineText(doc, DiagnosticRange(alert, offset));
  }

  /**
   * The rule file `<styles>/<name[0]>/<name[1]>.yml` for `name = check.split('.')`. A check
   * without a dot has no `name[1]`; string concatenation then spells it "undefined".
   */
  function RuleFile(styles: string, check: string): (path: string)
    ensures |path| > |styles| + 4 && path[..|styles| + 1] == styles + "/" && path[|path| - 4..] == ".yml"
  {
    var name := Split(check, '.');
    styles + "/" + name[0] + "/" + (if |name| > 1 then name[1] else "undefined") + ".yml"
  }

  /** A check "Style.Rule" names the file `<styles>/Style/Rule.yml`. */
  lemma RuleFileOfCheck(styles: string, style: string, rule: string)
    requires '.' !in style && '.' !in rule
    ensures RuleFile(styles, style + "." + rule) == styles + "/" + style + "/" + rule + ".yml"
  {
    SplitAtFirst(style, '.', rule);
    SplitNoSep(rule, '.');
    assert Split(style + "." + rule, '.') == [style, rule];
  }

  /** Whatever follows a second dot of the check is ignored. */
  lemma RuleFileIgnoresRest(styles: string, style: string, rule: string, tail: string)
    requires '.' !in style && '.' !in rule
    ensures RuleFile(styles, style + "." + rule + "." + tail) == styles + "/" + style + "/" + rule + ".yml"
  {
    SplitAtFirst(rule, '.', tail);
    assert style + "." + rule + "." + tail == style + "." + (rule + "." + tail);
    SplitAtFirst(style, '.', rule + "." + tail);
    var name := Split(style + "." + rule + "." + tail, '.');
    assert name == [style, rule] + Split(tail, '.');
    assert name[0] == style && name[1] == rule;
  }

  /** A check without a dot yields the path `<styles>/<check>/undefined.yml`. */
  lemma RuleFileWithoutDot(styles: string, check: string)
    requires '.' !in check
    ensures RuleFile(styles, check) == styles + "/" + check + "/undefined.yml"
  {
    SplitNoSep(check, '.');
  }

  /** The "View rule" link, present exactly when the rule file exists. */
  function RuleLink(styles: string, check: string, ruleExists: string -> bool): (info: Option<RelatedInformation>)
    ensures info.Some? <==> ruleExists(RuleFile(styles, check))
    ensures info.Some? ==> info.value.location == Location(RuleFile(styles, check), Position(0, 0))
    ensures info.Some? ==> info.value.message == "View rule"
  {
    var rule := RuleFile(styles, check);
    if ruleExists(rule) then Some(RelatedInformation(Location(rule, Position(0, 0)), "View rule")) else None
  }

  /** `d` is the diagnostic `toDiagnostic` makes of `alert`. */
  predicate IsDiagnosticOf(d: Diagnostic, alert: Alert, styles: string, backend: string, offset: int,
                           ruleExists: string -> bool)
  {
    && d.range == DiagnosticRange(alert, offset)
    && d.message == alert.message
    && d.severity == ToSeverity(alert.severity)
    && d.source == backend
    && d.code == alert.check
    && d.relatedInformation == RuleLink(styles, alert.check, ruleExists)
  }

  /** Converts an alert to a new diagnostic; whether a file exists is asked of `ruleExists`. */
  method ToDiagnostic(alert: Alert, styles: string, backend: string, offset: int, ruleExists: string -> bool)
    returns (d: Diagnostic)
    ensures fresh(d)
    ensures IsDiagnosticOf(d, alert, styles, backend, offset, ruleExists)
  {
    var range := DiagnosticRange(alert, offset);
    var related := RuleLink(styles, alert.check, ruleExists);
    d := new Diagnostic(range, alert.message, ToSeverity(alert.severity), backend, alert.check, related);
  }

  /** The first line of the paragraph holding `line`: go up while the line above is not blank. */
  function ParagraphStart(lines: seq<TextLine>, line: nat): (s: nat)
    requires line < |lines|
    ensures s <= line
    ensures forall k :: s <= k < line ==> !lines[k].isEmptyOrWhitespace
    ensures s > 0 ==> lines[s - 1].isEmptyOrWhitespace
    decreases line
  {
    if line > 0 && !lines[line - 1].isEmptyOrWhitespace then ParagraphStart(lines, line - 1) else line
  }

  /** The last line of the paragraph holding `line`: go down while the line below is not blank. */
  function ParagraphEnd(lines: seq<TextLine>, line: nat): (e: nat)
    requires line < |lines|
    ensures line <= e < |lines|
    ensures forall k :: line < k <= e ==> !lines[k].isEmptyOrWhitespace
    ensures e < |lines| - 1 ==> lines[e + 1].isEmptyOrWhitespace
    decreases |lines| - line
  {
    if line < |lines| - 1 && !lines[line + 1].isEmptyOrWhitespace then ParagraphEnd(lines, line + 1) else line
  }

  /** The paragraph around the editor's selection, from column 0 to the end of its last line. */
  function ParagraphRange(editor: TextEditor): (r: Range)
    requires ValidEditor(editor)
  {
    var lines := editor.document.lines;
    var last := ParagraphEnd(lines, editor.selection.end.line);
    Range(Position(ParagraphStart(lines, editor.selection.start.line), 0), Position(last, |lines[last].text|))
  }

  /**
   * `r` is a paragraph around the selection: it widens the selection's lines over non-blank
   * lines only, stops at a blank line or the document's edge on both sides, and spans whole lines.
   */
  predicate IsParagraph(editor: TextEditor, r: Range)
    requires ValidEditor(editor)
  {
    var lines := editor.document.lines;
    var sel := editor.selection;
    && 0 <= r.start.line <= sel.start.line
    && sel.end.line <= r.end.line < |lines|
    && (forall k :: r.start.line <= k < sel.start.line ==> !lines[k].isEmptyOrWhitespace)
    && (r.start.line > 0 ==> lines[r.start.line - 1].isEmptyOrWhitespace)
    && (forall k :: sel.end.line < k <= r.end.line ==> !lines[k].isEmptyOrWhitespace)
    && (r.end.line < |lines| - 1 ==> lines[r.end.line + 1].isEmptyOrWhitespace)
    && r.start.character == 0
    && r.end.character == |lines[r.end.line].text|
  }

  /** `ParagraphRange` is a paragraph around the selection, and the only one. */
  lemma ParagraphRangeUnique(editor: TextEditor, r: Range)
    requires ValidEditor(editor)
    ensures IsParagraph(editor, r) <==> r == ParagraphRange(editor)
  {
  }

  /** `extractParagraph`: widens the selection up and down to the paragraph around it. */
  method ExtractParagraph(editor: TextEditor) returns (r: Range)
    requires ValidEditor(editor)
    ensures r == ParagraphRange(editor)
    ensures IsParagraph(editor, r)
  {
    var lines := editor.document.lines;
    var startLine := editor.selection.start.line;
    var endLine := editor.selection.end.line;

    while startLine > 0 && !lines[startLine - 1].isEmptyOrWhitespace
      invariant 0 <= startLine <= editor.selection.start.line
      invariant ParagraphStart(lines, startLine) == ParagraphStart(lines, editor.selection.start.line)
    {
      startLine := startLine - 1;
    }

    while endLine < |lines| - 1 && !lines[endLine + 1].isEmptyOrWhitespace
      invariant editor.selection.end.line <= endLine < |lines|
      invariant ParagraphEnd(lines, endLine) == ParagraphEnd(lines, editor.selection.end.line)
    {
      endLine := endLine + 1;
    }

    r := Range(Position(startLine, 0), Position(endLine, |lines[endLine].text|));
    ParagraphRangeUnique(editor, r);
  }

  /** The text sent for a windowed lint and the line it starts at in the document. */
  datatype EditorContext = EditorContext(content: string, offset: int)

  /**
   * The context of the active editor: with none, empty text at offset 0; otherwise the
   * paragraph around the selection, its lines joined by the document's line ending, at the
   * paragraph's first line.
   */
  function ContextOf(editor: Option<TextEditor>): (ctx: EditorContext)
    requires editor.Some? ==> ValidEditor(editor.value)
    ensures editor.None? ==> ctx == EditorContext("", 0)
    ensures editor.Some? ==>
      var p := ParagraphRange(editor.value);
      && ctx.offset == p.start.line
      && ctx.content == JoinLines(editor.value.document.lines[p.start.line..p.end.line + 1],
                                  editor.value.document.eol)
  {
    match editor
    case None => EditorContext("", 0)
    case Some(e) =>
      var p := ParagraphRange(e);
      WholeLinesText(e.document.lines, e.document.eol, p.start.line, p.end.line);
      EditorContext(GetText(e.document, p), p.start.line)
  }

  /** `findContext`. */
  method FindContext(editor: Option<TextEditor>) returns (ctx: EditorContext)
    requires editor.Some? ==> ValidEditor(editor.value)
    ensures ctx == ContextOf(editor)
  {
    ctx := EditorContext("", 0);
    if editor.None? {
      return;
    }
    var range := ExtractParagraph(editor.value);
    ctx := EditorContext(GetText(editor.value.document, range), range.start.line);
  }

}
