/**
 * The parts of the editor host that the extension reads and produces:
 * positions and ranges, text documents and editors, diagnostics and edits.
 */
module Host {
  import opened Wrappers

  /** A document URI in its string form. */
  type Uri = string

  /** A zero-based line and character. */
  datatype Position = Position(line: int, character: int)

  datatype Range = Range(start: Position, end: Position)

  /** `a` comes strictly before `b` in the document. */
  predicate IsBefore(a: Position, b: Position)
  {
    a.line < b.line || (a.line == b.line && a.character < b.character)
  }

  /** A line of text; whether it is blank is computed by the host. */
  datatype TextLine = TextLine(text: string, isEmptyOrWhitespace: bool)

  datatype TextDocument = TextDocument(uri: Uri, fileName: string, lines: seq<TextLine>, eol: string)

  /** The host never hands out a document without lines: an empty file has one empty line. */
  predicate WellFormed(doc: TextDocument)
  {
    |doc.lines| >= 1
  }

  /** A selection; the host orders its ends so that `start` is not after `end`. */
  datatype Selection = Selection(start: Position, end: Position)

  datatype TextEditor = TextEditor(document: TextDocument, selection: Selection)

  predicate ValidEditor(editor: TextEditor)
  {
    && WellFormed(editor.document)
    && 0 <= editor.selection.start.line <= editor.selection.end.line < |editor.document.lines|
  }

  /** Clamps a position into the document, the way the host does before reading text. */
  function ValidatePosition(doc: TextDocument, p: Position): (q: Position)
    requires WellFormed(doc)
    ensures 0 <= q.line < |doc.lines| && 0 <= q.character <= |doc.lines[q.line].text|
    ensures 0 <= p.line < |doc.lines| && 0 <= p.character <= |doc.lines[p.line].text| ==> q == p
  {
    var n := |doc.lines|;
    if p.line < 0 then Position(0, 0)
    else if p.line >= n then Position(n - 1, |doc.lines[n - 1].text|)
    else if p.character < 0 then Position(p.line, 0)
    else if p.character > |doc.lines[p.line].text| then Position(p.line, |doc.lines[p.line].text|)
    else p
  }

  /** The text from column `sc` of line `sl` to column `ec` of line `el`, lines joined by `eol`. */
  function LinesText(lines: seq<TextLine>, eol: string, sl: nat, sc: nat, el: nat, ec: nat): string
    requires sl <= el < |lines|
    requires sc <= |lines[sl].text| && ec <= |lines[el].text|
    requires sl == el ==> sc <= ec
    decreases el - sl
  {
    if sl == el then lines[sl].text[sc..ec]
    else lines[sl].text[sc..] + eol + LinesText(lines, eol, sl + 1, 0, el, ec)
  }

  /** `document.getText(range)`: the text under the range after clamping both ends. */
  function GetText(doc: TextDocument, r: Range): string
    requires WellFormed(doc)
  {
    var s := ValidatePosition(doc, r.start);
    var e := ValidatePosition(doc, r.end);
    if IsBefore(e, s) then "" else LinesText(doc.lines, doc.eol, s.line, s.character, e.line, e.character)
  }

  /** The texts of `lines`, separated by `eol`. */
  function JoinLines(lines: seq<TextLine>, eol: string): string
    requires |lines| >= 1
  {
    if |lines| == 1 then lines[0].text else lines[0].text + eol + JoinLines(lines[1..], eol)
  }

  /** Reading whole lines gives those lines joined by the document's line ending. */
  lemma {:induction false} WholeLinesText(lines: seq<TextLine>, eol: string, sl: nat, el: nat)
    requires sl <= el < |lines|
    ensures LinesText(lines, eol, sl, 0, el, |lines[el].text|) == JoinLines(lines[sl..el + 1], eol)
    decreases el - sl
  {
    if sl < el {
      WholeLinesText(lines, eol, sl + 1, el);
      assert lines[sl..el + 1][1..] == lines[sl + 1..el + 1];
    }
  }

  /** A range inside one line reads exactly the characters between its two columns. */
  lemma SingleLineText(doc: TextDocument, r: Range)
    requires WellFormed(doc)
    requires 0 <= r.start.line == r.end.line < |doc.lines|
    requires 0 <= r.start.character <= r.end.character <= |doc.lines[r.start.line].text|
    ensures GetText(doc, r) == doc.lines[r.start.line].text[r.start.character..r.end.character]
  {
  }

  datatype DiagnosticSeverity = Error | Warning | Information | Hint

  /** A place in a file: the file's path and a position in it. */
  datatype Location = Location(path: string, position: Position)

  datatype RelatedInformation = RelatedInformation(location: Location, message: string)

  /**
   * A diagnostic is an object: the provider finds it again in its lists by identity.
   * All of its fields are set before the extension hands it out and never change later.
   */
  class Diagnostic {
    const range: Range
    const message: string
    const severity: DiagnosticSeverity
    const source: string
    const code: string
    const relatedInformation: Option<RelatedInformation>

    constructor (range: Range, message: string, severity: DiagnosticSeverity,
                 source: string, code: string, relatedInformation: Option<RelatedInformation>)
      ensures this.range == range && this.message == message && this.severity == severity
      ensures this.source == source && this.code == code
      ensures this.relatedInformation == relatedInformation
    {
      this.range := range;
      this.message := message;
      this.severity := severity;
      this.source := source;
      this.code := code;
      this.relatedInformation := relatedInformation;
    }
  }

  /** A workspace edit holding one text edit. */
  datatype WorkspaceEdit =
    | Replace(uri: Uri, range: Range, newText: string)
    | Delete(uri: Uri, range: Range)

}
