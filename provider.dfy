/**
 * The lint-result bookkeeping of `src/features/vsProvider.ts`: the class
 * `ValeServerProvider`, which chooses what to send to Vale, turns the reply into
 * diagnostics, remembers which alert each diagnostic came from, offers quick fixes
 * and applies them.
 */
module Provider {
  import opened Wrappers
  import opened ValeJson
  import opened Host
  import opened JsArrays
  import opened Utils

  // ---------------------------------------------------------------- scope policy

  /** What a Vale Server lint submits: the paragraph around the caret, or the whole file. */
  datatype Scope = Window | WholeFile

  /**
   * The `vale.server.lintContext` policy: a negative limit always lints the paragraph,
   * 0 always the whole file, a positive limit the paragraph once the document has at
   * least that many lines.
   */
  function ChooseScope(limit: int, lineCount: int): (scope: Scope)
    ensures scope == Window <==> limit < 0 || (limit > 0 && lineCount >= limit)
    ensures limit == 0 ==> scope == WholeFile
    ensures limit < 0 ==> scope == Window
    ensures limit > 0 ==> (scope == Window <==> lineCount >= limit)
  {
    if limit < 0 || (limit > 0 && lineCount >= limit) then Window else WholeFile
  }

  /** The settings `doVale` reads: `vale.core.useCLI` and `vale.server.lintContext`. */
  datatype Config = Config(useCLI: bool, lintContext: int)

  /** The backend call a lint pass makes. */
  datatype LintRequest =
    | PostString(text: string, fileName: string)  // POST /vale with the text and the file's format
    | PostFile(fileName: string)                  // POST /file with the file's path
    | RunCli(fileName: string)                    // the local `vale` executable on the file

  /** The request `doVale` makes for an eligible document. */
  function LintRequestFor(config: Config, doc: TextDocument, editor: Option<TextEditor>): (req: LintRequest)
    requires editor.Some? ==> ValidEditor(editor.value)
    ensures config.useCLI ==> req == RunCli(doc.fileName)
    ensures !config.useCLI && ChooseScope(config.lintContext, |doc.lines|) == WholeFile ==> req == PostFile(doc.fileName)
    ensures !config.useCLI && ChooseScope(config.lintContext, |doc.lines|) == Window ==>
      req == PostString(ContextOf(editor).content, doc.fileName)
  {
    if config.useCLI then RunCli(doc.fileName)
    else if ChooseScope(config.lintContext, |doc.lines|) == Window then PostString(ContextOf(editor).content, doc.fileName)
    else PostFile(doc.fileName)
  }

  /**
   * The line of the document where the submitted text starts: the paragraph's first line
   * for a windowed lint, 0 otherwise.
   */
  function LintOffset(config: Config, doc: TextDocument, editor: Option<TextEditor>): (offset: int)
    requires editor.Some? ==> ValidEditor(editor.value)
    ensures offset >= 0
    ensures config.useCLI || ChooseScope(config.lintContext, |doc.lines|) == WholeFile || editor.None? ==> offset == 0
    ensures !config.useCLI && ChooseScope(config.lintContext, |doc.lines|) == Window && editor.Some? ==>
      offset == ParagraphRange(editor.value).start.line
  {
    if !config.useCLI && ChooseScope(config.lintContext, |doc.lines|) == Window then ContextOf(editor).offset else 0
  }

  // ---------------------------------------------------------------- reading the reply

  function IsMetric(alert: Alert): bool
  {
    alert.matchText == ""
  }

  /** The positional alerts of `alerts` (non-empty `Match`), in their order. */
  function Positional(alerts: seq<Alert>): (p: seq<Alert>)
    ensures |p| <= |alerts|
    ensures forall i :: 0 <= i < |p| ==> !IsMetric(p[i])
  {
    if alerts == [] then []
    else
      var last := alerts[|alerts| - 1];
      Positional(alerts[..|alerts| - 1]) + (if IsMetric(last) then [] else [last])
  }

  /**
   * Every positional alert gives exactly one entry, as often as it occurs; a metric alert
   * gives none.
   */
  lemma {:induction false} PositionalCounts(alerts: seq<Alert>, a: Alert)
    ensures multiset(Positional(alerts))[a] == if IsMetric(a) then 0 else multiset(alerts)[a]
  {
    if alerts != [] {
      var init := alerts[..|alerts| - 1];
      PositionalCounts(init, a);
      assert alerts == init + [alerts[|alerts| - 1]];
    }
  }

  /** Filtering a concatenation filters each part. */
  lemma {:induction false} PositionalAppend(a: seq<Alert>, b: seq<Alert>)
    ensures Positional(a + b) == Positional(a) + Positional(b)
    decreases |b|
  {
    if b != [] {
      var init := b[..|b| - 1];
      PositionalAppend(a, init);
      assert (a + b)[..|a + b| - 1] == a + init;
      assert (a + b)[|a + b| - 1] == b[|b| - 1];
    } else {
      assert a + b == a;
    }
  }

  /** All alerts of the reply, namespace after namespace. */
  function Flatten(namespaces: seq<Namespace>): seq<Alert>
  {
    if namespaces == [] then []
    else Flatten(namespaces[..|namespaces| - 1]) + namespaces[|namespaces| - 1].alerts
  }

  /** The alerts `handleJSON` turns into diagnostics, in the order of its two loops. */
  function PositionalAlerts(namespaces: seq<Namespace>): seq<Alert>
  {
    if namespaces == [] then []
    else PositionalAlerts(namespaces[..|namespaces| - 1]) + Positional(namespaces[|namespaces| - 1].alerts)
  }

  /** The diagnostics are the positional alerts of the whole reply, in namespace-then-index order. */
  lemma {:induction false} PositionalAlertsIsFilter(namespaces: seq<Namespace>)
    ensures PositionalAlerts(namespaces) == Positional(Flatten(namespaces))
  {
    if namespaces != [] {
      var init := namespaces[..|namespaces| - 1];
      PositionalAlertsIsFilter(init);
      PositionalAppend(Flatten(init), namespaces[|namespaces| - 1].alerts);
    }
  }

  predicate HasMetric(alerts: seq<Alert>)
  {
    exists i :: 0 <= i < |alerts| && IsMetric(alerts[i])
  }

  /**
   * The status-bar text after a reply: for the last namespace holding a metric alert,
   * the message of that namespace's FIRST alert (not of the metric alert itself).
   */
  function Readability(namespaces: seq<Namespace>): (status: Option<string>)
    ensures status.Some? ==>
      exists k :: 0 <= k < |namespaces| && HasMetric(namespaces[k].alerts) && status.value == namespaces[k].alerts[0].message
  {
    if namespaces == [] then None
    else
      var last := namespaces[|namespaces| - 1];
      if HasMetric(last.alerts) then Some(last.alerts[0].message) else Readability(namespaces[..|namespaces| - 1])
  }

  /** The status text is left alone exactly when no namespace holds a metric alert. */
  lemma {:induction false} ReadabilityNone(namespaces: seq<Namespace>)
    ensures Readability(namespaces).None? <==> forall k :: 0 <= k < |namespaces| ==> !HasMetric(namespaces[k].alerts)
  {
    if namespaces != [] {
      var init := namespaces[..|namespaces| - 1];
      ReadabilityNone(init);
      assert forall k :: 0 <= k < |init| ==> init[k] == namespaces[k];
    }
  }

  /** The last namespace with a metric alert decides the status text. */
  lemma {:induction false} ReadabilityOfLastMetricNamespace(namespaces: seq<Namespace>, k: int)
    requires 0 <= k < |namespaces| && HasMetric(namespaces[k].alerts)
    requires forall j :: k < j < |namespaces| ==> !HasMetric(namespaces[j].alerts)
    ensures Readability(namespaces) == Some(namespaces[k].alerts[0].message)
    decreases |namespaces|
  {
    if k < |namespaces| - 1 {
      var init := namespaces[..|namespaces| - 1];
      assert init[k] == namespaces[k];
      ReadabilityOfLastMetricNamespace(init, k);
    }
  }

  /** A metric alert placed after a positional one shows the positional alert's message. */
  lemma StatusShowsFirstAlertOfNamespace(key: string, positional: Alert, metric: Alert)
    requires !IsMetric(positional) && IsMetric(metric)
    ensures Readability([Namespace(key, [positional, metric])]) == Some(positional.message)
    ensures PositionalAlerts([Namespace(key, [positional, metric])]) == [positional]
  {
    var ns := [Namespace(key, [positional, metric])];
    assert IsMetric([positional, metric][1]);
    assert [positional, metric][..1] == [positional];
    assert [positional][..0] == [];
    assert Positional([positional]) == [positional];
    assert Positional([positional, metric]) == [positional];
    assert ns[..0] == [];
    assert PositionalAlerts(ns) == PositionalAlerts(ns[..0]) + Positional(ns[0].alerts);
  }

  /** The status text once the reply is handled: the readability message, or the old text. */
  function StatusText(readability: Option<string>, prior: string): string
  {
    match readability
    case Some(m) => m
    case None => prior
  }

  /** One more alert of a namespace, as `handleJSON`'s inner loop sees it. */
  lemma AlertStep(alerts: seq<Alert>, i: int)
    requires 0 <= i < |alerts|
    ensures Positional(alerts[..i + 1]) == Positional(alerts[..i]) + (if IsMetric(alerts[i]) then [] else [alerts[i]])
    ensures HasMetric(alerts[..i + 1]) <==> HasMetric(alerts[..i]) || IsMetric(alerts[i])
  {
    assert alerts[..i + 1][..i] == alerts[..i];
    assert alerts[..i + 1][i] == alerts[i];
    if HasMetric(alerts[..i + 1]) && !IsMetric(alerts[i]) {
      var k :| 0 <= k < i + 1 && IsMetric(alerts[..i + 1][k]);
      assert k < i && alerts[..i][k] == alerts[..i + 1][k];
    }
    if HasMetric(alerts[..i]) {
      var k :| 0 <= k < i && IsMetric(alerts[..i][k]);
      assert alerts[..i + 1][k] == alerts[..i][k];
    }
  }

  /** One more namespace, as `handleJSON`'s outer loop sees it. */
  lemma NamespaceStep(namespaces: seq<Namespace>, n: int)
    requires 0 <= n < |namespaces|
    ensures PositionalAlerts(namespaces[..n + 1]) == PositionalAlerts(namespaces[..n]) + Positional(namespaces[n].alerts)
    ensures Readability(namespaces[..n + 1]) ==
      if HasMetric(namespaces[n].alerts) then Some(namespaces[n].alerts[0].message) else Readability(namespaces[..n])
  {
    assert namespaces[..n + 1][..n] == namespaces[..n];
    assert namespaces[..n + 1][n] == namespaces[n];
  }

  // ---------------------------------------------------------------- the alert index

  /** The key under which an alert is remembered: its diagnostic's message and range. */
  datatype AlertKey = AlertKey(message: string, range: Range)

  function KeyOf(d: Diagnostic): AlertKey
  {
    AlertKey(d.message, d.range)
  }

  function AlertKeyOf(alert: Alert, offset: int): AlertKey
  {
    AlertKey(alert.message, DiagnosticRange(alert, offset))
  }

  /** Two alerts share a key exactly when they share message, line and span. */
  lemma AlertKeyCollision(a: Alert, b: Alert, offset: int)
    ensures AlertKeyOf(a, offset) == AlertKeyOf(b, offset) <==>
      a.message == b.message && a.line == b.line && a.spanStart == b.spanStart && a.spanEnd == b.spanEnd
  {
  }

  /** `m` after writing each alert under its key, in order. */
  function Indexed(m: map<AlertKey, Alert>, alerts: seq<Alert>, offset: int): (index: map<AlertKey, Alert>)
    ensures m.Keys <= index.Keys
    ensures forall i :: 0 <= i < |alerts| ==> AlertKeyOf(alerts[i], offset) in index
  {
    if alerts == [] then m
    else
      var last := alerts[|alerts| - 1];
      Indexed(m, alerts[..|alerts| - 1], offset)[AlertKeyOf(last, offset) := last]
  }

  /** The index holds the old keys and the key of every alert, and nothing else. */
  lemma {:induction false} IndexedKeys(m: map<AlertKey, Alert>, alerts: seq<Alert>, offset: int)
    ensures Indexed(m, alerts, offset).Keys == m.Keys + set a | a in alerts :: AlertKeyOf(a, offset)
  {
    if alerts != [] {
      var init := alerts[..|alerts| - 1];
      IndexedKeys(m, init, offset);
      assert alerts == init + [alerts[|alerts| - 1]];
    }
  }

  /** An alert stays under its key unless a later alert has the same key. */
  lemma {:induction false} IndexedLastWins(m: map<AlertKey, Alert>, alerts: seq<Alert>, offset: int, i: int)
    requires 0 <= i < |alerts|
    requires forall j :: i < j < |alerts| ==> AlertKeyOf(alerts[j], offset) != AlertKeyOf(alerts[i], offset)
    ensures AlertKeyOf(alerts[i], offset) in Indexed(m, alerts, offset)
    ensures Indexed(m, alerts, offset)[AlertKeyOf(alerts[i], offset)] == alerts[i]
  {
    if i < |alerts| - 1 {
      var init := alerts[..|alerts| - 1];
      assert init[i] == alerts[i];
      IndexedLastWins(m, init, offset, i);
    }
  }

  /** Keys that no alert has keep their old entry. */
  lemma {:induction false} IndexedKeepsOthers(m: map<AlertKey, Alert>, alerts: seq<Alert>, offset: int, k: AlertKey)
    requires k in m
    requires forall j :: 0 <= j < |alerts| ==> AlertKeyOf(alerts[j], offset) != k
    ensures k in Indexed(m, alerts, offset) && Indexed(m, alerts, offset)[k] == m[k]
  {
    if alerts != [] {
      IndexedKeepsOthers(m, alerts[..|alerts| - 1], offset, k);
    }
  }

  // ---------------------------------------------------------------- diagnostics and fixes

  /** The `source` of the diagnostics: which backend produced them. */
  function BackendLabel(useCLI: bool): (source: string)
    ensures source == "Vale" <==> useCLI
    ensures source == "Vale" || source == "Vale Server"
  {
    if useCLI then "Vale" else "Vale Server"
  }

  /** `ds` are the diagnostics `toDiagnostic` makes of `alerts`, one each, in order. */
  predicate ProjectsAll(ds: seq<Diagnostic>, alerts: seq<Alert>, styles: string, backend: string, offset: int,
                        ruleExists: string -> bool)
    decreases |ds|
  {
    && |ds| == |alerts|
    && (ds != [] ==>
      && ProjectsAll(ds[..|ds| - 1], alerts[..|alerts| - 1], styles, backend, offset, ruleExists)
      && IsDiagnosticOf(ds[|ds| - 1], alerts[|alerts| - 1], styles, backend, offset, ruleExists))
  }

  /** Each diagnostic of a projection is made from the alert at its own position. */
  lemma {:induction false} ProjectsAllAt(ds: seq<Diagnostic>, alerts: seq<Alert>, styles: string, backend: string,
                                         offset: int, ruleExists: string -> bool, i: int)
    requires ProjectsAll(ds, alerts, styles, backend, offset, ruleExists)
    requires 0 <= i < |ds|
    ensures IsDiagnosticOf(ds[i], alerts[i], styles, backend, offset, ruleExists)
    decreases |ds|
  {
    if i < |ds| - 1 {
      ProjectsAllAt(ds[..|ds| - 1], alerts[..|alerts| - 1], styles, backend, offset, ruleExists, i);
    }
  }

  /** Indexing one more alert writes it under its key. */
  lemma IndexedStep(m: map<AlertKey, Alert>, alerts: seq<Alert>, a: Alert, offset: int)
    ensures Indexed(m, alerts + [a], offset) == Indexed(m, alerts, offset)[AlertKeyOf(a, offset) := a]
  {
    assert (alerts + [a])[..|alerts|] == alerts;
  }

  /** Indexing two lists of alerts one after the other indexes their concatenation. */
  lemma {:induction false} IndexedAppend(m: map<AlertKey, Alert>, a: seq<Alert>, b: seq<Alert>, offset: int)
    ensures Indexed(m, a + b, offset) == Indexed(Indexed(m, a, offset), b, offset)
    decreases |b|
  {
    if b == [] {
      assert a + b == a;
    } else {
      var init := b[..|b| - 1];
      IndexedAppend(m, a, init, offset);
      assert (a + b)[..|a + b| - 1] == a + init;
      assert (a + b)[|a + b| - 1] == b[|b| - 1];
    }
  }

  /** Projecting one more alert extends the projected list. */
  lemma ProjectsAllStep(ds: seq<Diagnostic>, alerts: seq<Alert>, d: Diagnostic, a: Alert, styles: string,
                        backend: string, offset: int, ruleExists: string -> bool)
    requires ProjectsAll(ds, alerts, styles, backend, offset, ruleExists)
    requires IsDiagnosticOf(d, a, styles, backend, offset, ruleExists)
    ensures ProjectsAll(ds + [d], alerts + [a], styles, backend, offset, ruleExists)
  {
    assert (ds + [d])[..|ds|] == ds && (alerts + [a])[..|alerts|] == alerts;
  }

  /** Appending `b` is appending all of `b` but its last element, then that element. */
  lemma AppendLast<T>(a: seq<T>, b: seq<T>)
    requires b != []
    ensures a + b[..|b| - 1] + [b[|b| - 1]] == a + b
  {
    assert b == b[..|b| - 1] + [b[|b| - 1]];
  }

  /** Projecting two lists of alerts one after the other projects their concatenation. */
  lemma {:induction false} ProjectsAllAppend(ds: seq<Diagnostic>, alerts: seq<Alert>, ds2: seq<Diagnostic>, alerts2: seq<Alert>,
                          styles: string, backend: string, offset: int, ruleExists: string -> bool)
    requires ProjectsAll(ds, alerts, styles, backend, offset, ruleExists)
    requires ProjectsAll(ds2, alerts2, styles, backend, offset, ruleExists)
    ensures ProjectsAll(ds + ds2, alerts + alerts2, styles, backend, offset, ruleExists)
    decreases |ds2|
  {
    if ds2 == [] {
      assert ds + ds2 == ds && alerts + alerts2 == alerts;
    } else {
      var n := |ds2| - 1;
      ProjectsAllAppend(ds, alerts, ds2[..n], alerts2[..n], styles, backend, offset, ruleExists);
      ProjectsAllAt(ds2, alerts2, styles, backend, offset, ruleExists, n);
      ProjectsAllStep(ds + ds2[..n], alerts + alerts2[..n], ds2[n], alerts2[n], styles, backend, offset, ruleExists);
      AppendLast(ds, ds2);
      AppendLast(alerts, alerts2);
    }
  }

  /**
   * The key of every published diagnostic is in the index after the pass, and finds the
   * diagnostic's own alert unless a later alert of the pass has the same message and range.
   */
  lemma DiagnosticKeysFindAlerts(ds: seq<Diagnostic>, alerts: seq<Alert>, styles: string, backend: string,
                                 offset: int, ruleExists: string -> bool, m: map<AlertKey, Alert>, i: int)
    requires ProjectsAll(ds, alerts, styles, backend, offset, ruleExists)
    requires 0 <= i < |ds|
    ensures KeyOf(ds[i]) in Indexed(m, alerts, offset)
    ensures (forall j :: i < j < |alerts| ==> AlertKeyOf(alerts[j], offset) != KeyOf(ds[i])) ==>
      Indexed(m, alerts, offset)[KeyOf(ds[i])] == alerts[i]
  {
    ProjectsAllAt(ds, alerts, styles, backend, offset, ruleExists, i);
    IndexedKeys(m, alerts, offset);
    assert alerts[i] in alerts;
    if forall j :: i < j < |alerts| ==> AlertKeyOf(alerts[j], offset) != KeyOf(ds[i]) {
      IndexedLastWins(m, alerts, offset, i);
    }
  }

  const CommandId: string := "ValeServerProvider.runCodeAction"
  const QuickFix: string := "quickfix"

  /** What the quick-fix command is called with. */
  datatype FixArguments = FixArguments(document: TextDocument, diagnostic: Diagnostic, error: string,
                                       suggestion: string, action: string)

  datatype Command = Command(title: string, command: string, arguments: FixArguments)

  datatype CodeAction = CodeAction(title: string, kind: string, command: Command)

  /** The quick fix offering `suggestion` for `alert`. */
  function QuickFixAction(document: TextDocument, diagnostic: Diagnostic, alert: Alert, suggestion: string)
    : (action: CodeAction)
    ensures action.kind == QuickFix && action.command.command == CommandId
    ensures action.title == action.command.title == ToTitle(alert, suggestion)
    ensures action.command.arguments == FixArguments(document, diagnostic, alert.matchText, suggestion, alert.action.name)
  {
    var title := ToTitle(alert, suggestion);
    CodeAction(title, QuickFix,
      Command(title, CommandId, FixArguments(document, diagnostic, alert.matchText, suggestion, alert.action.name)))
  }

  /** Why `provideCodeActions` rejects. */
  datatype ActionsError =
    | ServerUnreachable  // the /suggest request failed
    | AlertUndefined     // no alert under the diagnostic's key, and there is a suggestion to title

  datatype ActionsResult = Actions(actions: seq<CodeAction>) | Rejected(error: ActionsError)

  /**
   * The edit of a quick fix: replace the range with the suggestion, or, for a removal,
   * delete it with its end moved one character further so no double space is left.
   */
  function FixEdit(uri: Uri, range: Range, suggestion: string, action: string): (edit: WorkspaceEdit)
    ensures action != RemoveAction ==> edit == Replace(uri, range, suggestion)
    ensures action == RemoveAction ==>
      edit.Delete? && edit.uri == uri && edit.range.start == range.start &&
      edit.range.end == Position(range.end.line, range.end.character + 1)
  {
    if action != RemoveAction then Replace(uri, range, suggestion)
    else Delete(uri, Range(range.start, Position(range.end.line, range.end.character + 1)))
  }

  /**
   * A fix titled "Remove '...'" deletes, any other fix replaces; on the same range the
   * deletion ends exactly one character after the replacement.
   */
  lemma TitleMatchesEdit(document: TextDocument, diagnostic: Diagnostic, alert: Alert, suggestion: string,
                         other: string)
    requires other != RemoveAction
    ensures var a := QuickFixAction(document, diagnostic, alert, suggestion);
      var edit := FixEdit(document.uri, diagnostic.range, a.command.arguments.suggestion, a.command.arguments.action);
      |a.title| >= 8 && (a.title[..8] == "Remove '" <==> edit.Delete?)
    ensures FixEdit(document.uri, diagnostic.range, suggestion, RemoveAction).range.end.character ==
      FixEdit(document.uri, diagnostic.range, suggestion, other).range.end.character + 1
  {
    TitleAnnouncesEdit(alert, suggestion, suggestion);
  }

  /** What running a quick fix does. */
  datatype FixOutcome =
    | Applied(edit: WorkspaceEdit)  // the edit handed to the workspace
    | OutOfDate                     // the text under the range is no longer the alert's match
    | NoDiagnosticList              // no list was ever stored for the document: `indexOf` of undefined throws

  // ---------------------------------------------------------------- the provider

  class ValeServerProvider {
    /** Alert of every diagnostic of the last lint pass, by message and range (all documents share it). */
    var alertMap: map<AlertKey, Alert>
    /** The diagnostics last published for each document. */
    var diagnosticMap: map<Uri, seq<Diagnostic>>
    /** The host's diagnostic collection. */
    var collection: map<Uri, seq<Diagnostic>>
    /** The readability status-bar item. */
    var statusText: string
    var statusVisible: bool
    var stylesPath: string
    var useCLI: bool

    /** The collection shows what the provider stored, and no list holds a diagnostic twice. */
    ghost predicate Valid()
      reads this
    {
      && collection == diagnosticMap
      && forall uri :: uri in diagnosticMap ==> Distinct(diagnosticMap[uri])
    }

    /** The state after `activate`: empty maps, the backend mode and the styles directory. */
    constructor (useCLI: bool, stylesPath: string)
      ensures Valid()
      ensures alertMap == map[] && diagnosticMap == map[] && collection == map[]
      ensures statusText == "" && !statusVisible
      ensures this.useCLI == useCLI && this.stylesPath == stylesPath
    {
      alertMap := map[];
      diagnosticMap := map[];
      collection := map[];
      statusText := "";
      statusVisible := false;
      this.useCLI := useCLI;
      this.stylesPath := stylesPath;
    }

    method UpdateStatusBarItem(message: string)
      modifies this`statusText, this`statusVisible
      ensures statusText == message && statusVisible
    {
      statusText := message;
      statusVisible := true;
    }

    /** The state a handled reply leaves, from the index, lists and status text before it. */
    ghost predicate Published(namespaces: seq<Namespace>, uri: Uri, offset: int, ruleExists: string -> bool,
                              alerts0: map<AlertKey, Alert>, lists0: map<Uri, seq<Diagnostic>>, status0: string)
      reads this
    {
      var positional := PositionalAlerts(namespaces);
      && uri in diagnosticMap
      && ProjectsAll(diagnosticMap[uri], positional, stylesPath, BackendLabel(useCLI), offset, ruleExists)
      && diagnosticMap == lists0[uri := diagnosticMap[uri]]
      && collection == diagnosticMap
      && alertMap == Indexed(alerts0, positional, offset)
      && statusVisible == Readability(namespaces).Some?
      && statusText == StatusText(Readability(namespaces), status0)
    }

    /**
     * Where the inner loop of `handleJSON` stands after the first `i` alerts of a namespace:
     * `created` projects their positional alerts, holds no diagnostic twice and none of
     * `prior`; the index has each positional alert written over `index0`; the status shows
     * the namespace's first message once a metric alert was seen.
     */
    ghost predicate AlertsHandled(alerts: seq<Alert>, i: int, created: seq<Diagnostic>, styles: string,
                                  backend: string, offset: int, ruleExists: string -> bool, prior: seq<Diagnostic>,
                                  index0: map<AlertKey, Alert>, visible0: bool, text0: string)
      requires 0 <= i <= |alerts|
      reads this
    {
      && ProjectsAll(created, Positional(alerts[..i]), styles, backend, offset, ruleExists)
      && Distinct(created)
      && (forall d <- created :: d !in prior)
      && alertMap == Indexed(index0, Positional(alerts[..i]), offset)
      && statusVisible == (HasMetric(alerts[..i]) || visible0)
      && statusText == if HasMetric(alerts[..i]) then alerts[0].message else text0
    }

    /**
     * One pass of the inner loop of `handleJSON`, for `alerts[i]`: a metric alert shows the
     * namespace's first message in the status bar; a positional alert gets a new
     * diagnostic, appended to `created`, and is stored under the diagnostic's key.
     */
    method HandleAlert(alerts: seq<Alert>, i: int, styles: string, backend: string, offset: int,
                       ruleExists: string -> bool, created0: seq<Diagnostic>, ghost prior: seq<Diagnostic>,
                       ghost index0: map<AlertKey, Alert>, ghost visible0: bool, ghost text0: string)
      returns (created: seq<Diagnostic>)
      requires 0 <= i < |alerts|
      requires AlertsHandled(alerts, i, created0, styles, backend, offset, ruleExists, prior, index0, visible0, text0)
      modifies this`alertMap, this`statusText, this`statusVisible
      ensures AlertsHandled(alerts, i + 1, created, styles, backend, offset, ruleExists, prior, index0, visible0, text0)
    {
      AlertStep(alerts, i);
      created := created0;
      if alerts[i].matchText == "" {
        assert Positional(alerts[..i + 1]) == Positional(alerts[..i]);
        UpdateStatusBarItem(alerts[0].message);
      } else {
        assert Positional(alerts[..i + 1]) == Positional(alerts[..i]) + [alerts[i]];
        var d := ToDiagnostic(alerts[i], styles, backend, offset, ruleExists);
        assert d !in prior && d !in created;
        IndexedStep(index0, Positional(alerts[..i]), alerts[i], offset);
        ProjectsAllStep(created, Positional(alerts[..i]), d, alerts[i], styles, backend, offset, ruleExists);
        DistinctAppend(created, [d]);
        alertMap := alertMap[KeyOf(d) := alerts[i]];
        created := created + [d];
      }
    }

    /**
     * The inner loop of `handleJSON`, over the alerts of one namespace: each positional
     * alert gets a new diagnostic, returned in order in `created` (none of them in `prior`)
     * and stored in the index; a metric alert shows the namespace's first message.
     */
    method HandleAlerts(alerts: seq<Alert>, styles: string, backend: string, offset: int,
                        ruleExists: string -> bool, ghost prior: seq<Diagnostic>)
      returns (created: seq<Diagnostic>)
      modifies this`alertMap, this`statusText, this`statusVisible
      ensures ProjectsAll(created, Positional(alerts), styles, backend, offset, ruleExists)
      ensures Distinct(created) && forall d <- created :: d !in prior
      ensures alertMap == Indexed(old(alertMap), Positional(alerts), offset)
      ensures statusVisible == (HasMetric(alerts) || old(statusVisible))
      ensures statusText == if HasMetric(alerts) then alerts[0].message else old(statusText)
    {
      created := [];
      var i := 0;
      assert alerts[..0] == [];
      while i < |alerts|
        invariant 0 <= i <= |alerts|
        invariant AlertsHandled(alerts, i, created, styles, backend, offset, ruleExists, prior,
                                old(alertMap), old(statusVisible), old(statusText))
      {
        created := HandleAlert(alerts, i, styles, backend, offset, ruleExists, created, prior,
                               old(alertMap), old(statusVisible), old(statusText));
        i := i + 1;
      }
      assert alerts[..i] == alerts;
    }

    /**
     * The outer loop of `handleJSON`, over the namespaces of a parsed reply: the
     * diagnostics of each namespace follow those of the namespaces before it.
     */
    method HandleNamespaces(namespaces: seq<Namespace>, styles: string, backend: string, offset: int,
                            ruleExists: string -> bool)
      returns (diagnostics: seq<Diagnostic>)
      modifies this`alertMap, this`statusText, this`statusVisible
      ensures ProjectsAll(diagnostics, PositionalAlerts(namespaces), styles, backend, offset, ruleExists)
      ensures Distinct(diagnostics)
      ensures alertMap == Indexed(old(alertMap), PositionalAlerts(namespaces), offset)
      ensures statusVisible == (Readability(namespaces).Some? || old(statusVisible))
      ensures statusText == StatusText(Readability(namespaces), old(statusText))
    {
      diagnostics := [];
      var n := 0;
      while n < |namespaces|
        invariant 0 <= n <= |namespaces|
        invariant ProjectsAll(diagnostics, PositionalAlerts(namespaces[..n]), styles, backend, offset, ruleExists)
        invariant Distinct(diagnostics)
        invariant alertMap == Indexed(old(alertMap), PositionalAlerts(namespaces[..n]), offset)
        invariant statusVisible == (Readability(namespaces[..n]).Some? || old(statusVisible))
        invariant statusText == StatusText(Readability(namespaces[..n]), old(statusText))
      {
        var created := HandleAlerts(namespaces[n].alerts, styles, backend, offset, ruleExists, diagnostics);
        NamespaceStep(namespaces, n);
        IndexedAppend(old(alertMap), PositionalAlerts(namespaces[..n]), Positional(namespaces[n].alerts), offset);
        ProjectsAllAppend(diagnostics, PositionalAlerts(namespaces[..n]), created, Positional(namespaces[n].alerts),
                          styles, backend, offset, ruleExists);
        DistinctAppend(diagnostics, created);
        diagnostics := diagnostics + created;
        n := n + 1;
      }
      assert namespaces[..n] == namespaces;
    }

    /**
     * `handleJSON`: one new diagnostic per positional alert, published for the document
     * and stored with each alert in the index; metric alerts only set the status text.
     * A reply that does not parse (`None`) changes nothing.
     */
    method HandleJSON(body: Option<seq<Namespace>>, doc: TextDocument, offset: int, ruleExists: string -> bool)
      requires Valid()
      modifies this`alertMap, this`diagnosticMap, this`collection, this`statusText, this`statusVisible
      ensures Valid()
      ensures body.None? ==>
        && alertMap == old(alertMap) && diagnosticMap == old(diagnosticMap) && collection == old(collection)
        && statusText == old(statusText) && statusVisible == old(statusVisible)
      ensures body.Some? ==>
        Published(body.value, doc.uri, offset, ruleExists, old(alertMap), old(diagnosticMap), old(statusText))
    {
      if body.None? {
        return;
      }
      statusVisible := false;
      var diagnostics := HandleNamespaces(body.value, stylesPath, BackendLabel(useCLI), offset, ruleExists);
      collection := collection[doc.uri := diagnostics];
      diagnosticMap := diagnosticMap[doc.uri := diagnostics];
    }

    /**
     * `doVale`: an ineligible document changes nothing. Otherwise the whole alert index is
     * emptied (for every document), the backend mode is read, the request is chosen by the
     * scope policy and the reply is handled at the offset of the submitted text. A reply
     * that failed or did not parse (`None`) leaves the emptied index and the old lists.
     */
    method DoVale(doc: TextDocument, eligible: bool, config: Config, activeEditor: Option<TextEditor>,
                  response: Option<seq<Namespace>>, ruleExists: string -> bool)
      returns (request: Option<LintRequest>)
      requires Valid()
      requires activeEditor.Some? ==> ValidEditor(activeEditor.value)
      modifies this`alertMap, this`diagnosticMap, this`collection, this`statusText, this`statusVisible, this`useCLI
      ensures Valid()
      ensures !eligible ==>
        && request.None?
        && alertMap == old(alertMap) && diagnosticMap == old(diagnosticMap) && collection == old(collection)
        && statusText == old(statusText) && statusVisible == old(statusVisible) && useCLI == old(useCLI)
      ensures eligible ==> useCLI == config.useCLI && request == Some(LintRequestFor(config, doc, activeEditor))
      ensures eligible && response.None? ==>
        && alertMap == map[] && diagnosticMap == old(diagnosticMap) && collection == old(collection)
        && statusText == old(statusText) && statusVisible == old(statusVisible)
      ensures eligible && response.Some? ==>
        Published(response.value, doc.uri, LintOffset(config, doc, activeEditor), ruleExists,
                  map[], old(diagnosticMap), old(statusText))
    {
      if !eligible {
        return None;
      }
      alertMap := map[];
      useCLI := config.useCLI;
      if !useCLI {
        var limit := config.lintContext;
        if limit < 0 || (limit > 0 && |doc.lines| >= limit) {
          var ctx := FindContext(activeEditor);
          request := Some(PostString(ctx.content, doc.fileName));
          HandleJSON(response, doc, ctx.offset, ruleExists);
        } else {
          request := Some(PostFile(doc.fileName));
          HandleJSON(response, doc, 0, ruleExists);
        }
      } else {
        request := Some(RunCli(doc.fileName));
        HandleJSON(response, doc, 0, ruleExists);
      }
    }

    /**
     * `provideCodeActions`: nothing without a diagnostic or in CLI mode; otherwise one quick
     * fix per suggestion of the /suggest reply, in order, for the alert stored under the
     * first diagnostic's key.
     */
    method ProvideCodeActions(document: TextDocument, contextDiagnostics: seq<Diagnostic>,
                              suggestions: Option<seq<string>>)
      returns (result: ActionsResult)
      ensures |contextDiagnostics| == 0 || useCLI ==> result == Actions([])
      ensures |contextDiagnostics| > 0 && !useCLI ==>
        var d := contextDiagnostics[0];
        && (suggestions.None? ==> result == Rejected(ServerUnreachable))
        && (suggestions.Some? && KeyOf(d) !in alertMap ==>
              result == if |suggestions.value| == 0 then Actions([]) else Rejected(AlertUndefined))
        && (suggestions.Some? && KeyOf(d) in alertMap ==>
              && result.Actions?
              && |result.actions| == |suggestions.value|
              && forall i :: 0 <= i < |suggestions.value| ==>
                   result.actions[i] == QuickFixAction(document, d, alertMap[KeyOf(d)], suggestions.value[i]))
    {
      if |contextDiagnostics| == 0 || useCLI {
        return Actions([]);
      }
      var diagnostic := contextDiagnostics[0];
      var key := KeyOf(diagnostic);
      var alert := if key in alertMap then Some(alertMap[key]) else None;
      if suggestions.None? {
        return Rejected(ServerUnreachable);
      }
      var body := suggestions.value;
      var actions: seq<CodeAction> := [];
      var idx := 0;
      while idx < |body|
        invariant 0 <= idx <= |body|
        invariant idx > 0 ==> alert.Some?
        invariant |actions| == idx
        invariant forall j :: 0 <= j < idx ==> actions[j] == QuickFixAction(document, diagnostic, alert.value, body[j])
      {
        if alert.None? {
          return Rejected(AlertUndefined);
        }
        var suggestion := body[idx];
        var title := ToTitle(alert.value, suggestion);
        var action := CodeAction(title, QuickFix,
          Command(title, CommandId,
            FixArguments(document, diagnostic, alert.value.matchText, suggestion, alert.value.action.name)));
        actions := actions + [action];
        idx := idx + 1;
      }
      return Actions(actions);
    }

    /**
     * `runCodeAction`: when the text under the diagnostic's range is still the alert's
     * match, one element is spliced out of the document's list at the diagnostic's index
     * (the last one when it is not found), the list is published again and the fix's edit
     * is returned; otherwise nothing changes. The alert index is left as it is.
     */
    method RunCodeAction(document: TextDocument, diagnostic: Diagnostic, error: string, suggestion: string,
                         action: string)
      returns (outcome: FixOutcome)
      requires Valid() && WellFormed(document)
      modifies this`diagnosticMap, this`collection
      ensures Valid()
      ensures error != GetText(document, diagnostic.range) ==>
        outcome == OutOfDate && diagnosticMap == old(diagnosticMap) && collection == old(collection)
      ensures error == GetText(document, diagnostic.range) && document.uri !in old(diagnosticMap) ==>
        outcome == NoDiagnosticList && diagnosticMap == old(diagnosticMap) && collection == old(collection)
      ensures error == GetText(document, diagnostic.range) && document.uri in old(diagnosticMap) ==>
        var list := old(diagnosticMap)[document.uri];
        && diagnosticMap == old(diagnosticMap)[document.uri := SpliceOne(list, IndexOf(list, diagnostic))]
        && collection == diagnosticMap
        && outcome == Applied(FixEdit(document.uri, diagnostic.range, suggestion, action))
    {
      var docError := GetText(document, diagnostic.range);
      if error == docError {
        if document.uri !in diagnosticMap {
          return NoDiagnosticList;
        }
        var diagnostics := diagnosticMap[document.uri];
        var index := IndexOf(diagnostics, diagnostic);
        SpliceOneDistinct(diagnostics, index);
        diagnostics := SpliceOne(diagnostics, index);

        diagnosticMap := diagnosticMap[document.uri := diagnostics];
        collection := collection[document.uri := diagnostics];

        var edit;
        if action != RemoveAction {
          edit := Replace(document.uri, diagnostic.range, suggestion);
        } else {
          var range := Range(diagnostic.range.start,
                             Position(diagnostic.range.end.line, diagnostic.range.end.character + 1));
          edit := Delete(document.uri, range);
        }
        return Applied(edit);
      } else {
        return OutOfDate;
      }
    }

    /** `dispose`: the collection is cleared and both maps are emptied. */
    method Dispose()
      modifies this`alertMap, this`diagnosticMap, this`collection
      ensures Valid()
      ensures alertMap == map[] && diagnosticMap == map[] && collection == map[]
    {
      collection := map[];
      diagnosticMap := map[];
      alertMap := map[];
    }
  }

}
