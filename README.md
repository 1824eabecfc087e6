# vale-vscode: lint-result bookkeeping

This project models the part of the vale-vscode extension that sits between the Vale
linter and the editor. It covers:

- which text a lint pass sends to Vale Server: the whole file, or the paragraph around the
  caret;
- how Vale's JSON reply becomes editor diagnostics;
- how the provider remembers which alert each diagnostic came from;
- how it builds quick fixes;
- how it applies a fix and drops the fixed diagnostic.

The editor, the network and the file system are inputs to the model:

- a document is a sequence of lines, each with its text and the host's "blank" flag;
- the parsed reply is an `Option` of a sequence of (namespace, alerts) pairs;
- the existence of a rule file is a predicate parameter;
- the suggestions of a `/suggest` call are an `Option` of a sequence of strings.

Modules:

- `Wrappers`: `Option`.
- `ValeJson`: Vale's alert records.
- `Host`: positions, ranges, documents, editors, diagnostics and edits as the extension
  sees them. `document.getText` clamps both ends of the range. A `Diagnostic` is a class,
  because the provider finds it again by identity.
- `JsStrings`: `String.prototype.split` with a one-character separator.
- `JsArrays`: `Array.prototype.indexOf` and `splice(start, 1)`. A negative start counts
  from the end, so `splice(-1, 1)` drops the last element.
- `Utils`: the helpers of `src/features/vsUtils.ts`. `ExtractParagraph` keeps the two
  `while` loops of the source.
- `Provider`: the class `ValeServerProvider` of `src/features/vsProvider.ts`.
  - Its fields are `alertMap`, `diagnosticMap`, the host's diagnostic collection, the
    status-bar text and visibility, `stylesPath` and `useCLI`.
  - The methods update these fields in place.
  - The nested loop of `handleJSON` is split into three methods: one alert, one namespace,
    all namespaces. Each is proved against the specification functions `Positional`,
    `PositionalAlerts`, `Indexed` and `Readability`.
  - The class invariant `Valid` says two things. The collection always shows what the
    provider stored. No stored list holds the same diagnostic object twice, which is what
    makes `indexOf` + `splice` remove exactly the fixed diagnostic.

The model follows the code, including these behaviours one might not expect:

- The alert index is a single map for all documents. Every lint pass of an eligible
  document empties it, including entries for other documents. It is not kept per document.
- Applying a fix removes the diagnostic from the stored list and the collection. It does
  not remove the alert from the index.
- A lint request that fails, or a reply that does not parse, leaves the old diagnostics in
  place. The alert index has already been emptied by then, though.
- A metric alert (one with an empty `Match`) puts the message of its namespace's FIRST
  alert in the status bar, not its own message.
- An unknown severity is not an error path. The switch in `toSeverity` covers only three
  values, and the model's severity type has exactly those three.

## Model

| member | source | states |
|---|---|---|
| `Utils.ToSeverity` | src/features/vsUtils.ts:45-54 | suggestion, warning and error map to Information, Warning and Error. Each holds in both directions, so no two severities share a result. `Hint` is never produced. |
| `Utils.ToTitle` | src/features/vsUtils.ts:62-68 | a removal is titled `Remove '<Match>'`; any other action is titled `Replace with '<suggestion>'` |
| `Utils.TitleAnnouncesEdit` | src/features/vsUtils.ts:62-68 | a title starts with `Remove '` exactly when the action is `remove`. A removal title does not depend on the suggestion. Different suggestions give different replacement titles. |
| `Utils.DiagnosticRange` | src/features/vsUtils.ts:97-102 | the range lies on one line, `Line-1+offset`. It starts at `Span[0]-1` and ends at `Span[1]`. |
| `Utils.RangeReadsMatch` | src/features/vsProvider.ts:170-172 | on a document unchanged since the lint, the text under an alert's range is its `Match` whenever Vale reported the match at the 1-based inclusive span of line `Line-1+offset`. The stale check therefore lets such a fix through. |
| `Utils.RuleFile` | src/features/vsUtils.ts:110-111 | the rule path lies under `<styles>/` and ends in `.yml` |
| `Utils.RuleFileOfCheck` | src/features/vsUtils.ts:110-111 | the check `Style.Rule` names the rule file `<styles>/Style/Rule.yml` |
| `Utils.RuleFileIgnoresRest` | src/features/vsUtils.ts:110-111 | segments after a second dot of the check do not change the rule file |
| `Utils.RuleFileWithoutDot` | src/features/vsUtils.ts:110-111 | a check without a dot names `<styles>/<check>/undefined.yml`, because the missing `name[1]` is spelled "undefined" |
| `Utils.RuleLink` | src/features/vsUtils.ts:110-116 | the `View rule` link at position (0,0) of the rule file is present if and only if that file exists |
| `Utils.ToDiagnostic` | src/features/vsUtils.ts:91-118 | the result is a new diagnostic object. It has the alert's range, message, mapped severity, the backend as source, the check as code, and the rule link. |
| `Utils.ParagraphStart` | src/features/vsUtils.ts:158-160 | the start is at or above the line, every line between is non-blank, and the line above the start is blank or absent |
| `Utils.ParagraphEnd` | src/features/vsUtils.ts:162-165 | the end is at or below the line and inside the document, every line between is non-blank, and the line below the end is blank or absent |
| `Utils.ParagraphRangeUnique` | src/features/vsUtils.ts:154-171 | a range is a maximal paragraph around the selection if and only if it equals `ParagraphRange`. Such a range spans whole lines, only non-blank lines widen it, and it is bounded by blank lines or the document's edges. |
| `Utils.ExtractParagraph` | src/features/vsUtils.ts:154-171 | the two loops return exactly the paragraph around the selection |
| `Utils.ContextOf` | src/features/vsUtils.ts:173-186 | with no editor, the context is empty text at offset 0. Otherwise the text is the paragraph's lines joined by the document's line ending, and the offset is the paragraph's first line. |
| `Utils.FindContext` | src/features/vsUtils.ts:173-186 | `findContext` returns the context `ContextOf` describes |
| `Host.ValidatePosition` | src/features/vsProvider.ts:170 | a position read from the document is clamped into it; a position already inside is kept |
| `Host.SingleLineText` | src/features/vsProvider.ts:170 | the text under a one-line range is the characters between its two columns |
| `Host.WholeLinesText` | src/features/vsUtils.ts:182 | reading whole lines gives those lines joined by the line ending |
| `JsStrings.Split` | src/features/vsUtils.ts:110 | `split` gives at least one piece, and no piece holds the separator |
| `JsStrings.JoinSplit` | src/features/vsUtils.ts:110 | joining the pieces of a split gives the string back |
| `JsStrings.SplitJoin` | src/features/vsUtils.ts:110 | splitting a join of separator-free pieces gives the pieces back |
| `JsStrings.SplitNoSep` | src/features/vsUtils.ts:110 | a string without the separator splits into itself |
| `JsStrings.SplitAtFirst` | src/features/vsUtils.ts:110 | the first separator ends the first piece |
| `JsArrays.IndexOf` | src/features/vsProvider.ts:176 | the result is -1 exactly when the element is absent; otherwise it is the first index holding it |
| `JsArrays.SpliceStart` | src/features/vsProvider.ts:178 | the start of `splice` counts back from the end when negative, and is clamped into the array |
| `JsArrays.SpliceOne` | src/features/vsProvider.ts:178 | `splice(start, 1)` removes one element when the start is in range, and never adds any |
| `JsArrays.SpliceOneDistinct` | src/features/vsProvider.ts:174-178 | splicing one element out of a list without duplicates leaves a list without duplicates |
| `JsArrays.SpliceIndexOfPresent` | src/features/vsProvider.ts:174-178 | on a list without duplicates, `splice(indexOf(d), 1)` removes exactly `d`. It keeps the order of the rest, and `d` is gone. |
| `JsArrays.SpliceIndexOfAbsent` | src/features/vsProvider.ts:174-178 | when `d` is not in the list, `splice(indexOf(d), 1)` drops the last diagnostic |
| `JsArrays.DistinctIndices` | src/features/vsProvider.ts:174-178 | a list is distinct exactly when no two positions hold the same object |
| `Provider.ChooseScope` | src/features/vsProvider.ts:33-36 | the paragraph window is chosen if and only if `limit < 0` or `0 < limit <= lineCount`. A limit of 0 always lints the whole file. |
| `Provider.LintRequestFor` | src/features/vsProvider.ts:31-55 | CLI mode runs `vale` on the file. Otherwise the window posts the paragraph's text and the whole-file scope posts the file. |
| `Provider.LintOffset` | src/features/vsProvider.ts:36-45 | the alert lines are moved by the paragraph's first line for a windowed lint, and by 0 otherwise |
| `Provider.Positional` | src/features/vsProvider.ts:87-99 | the alerts that become diagnostics: never one with an empty `Match`, and never more than the namespace has |
| `Provider.PositionalCounts` | src/features/vsProvider.ts:87-99 | every alert with a non-empty `Match` gives one diagnostic per occurrence; an alert with an empty `Match` gives none |
| `Provider.PositionalAppend` | src/features/vsProvider.ts:85-101 | filtering a concatenation of alert lists filters each list |
| `Provider.PositionalAlertsIsFilter` | src/features/vsProvider.ts:85-101 | the diagnostics follow the positional alerts of the whole reply in namespace-then-index order |
| `Provider.Readability` | src/features/vsProvider.ts:85-90 | a status message, when there is one, is the FIRST alert's message of some namespace that holds a metric alert |
| `Provider.ReadabilityNone` | src/features/vsProvider.ts:84-90 | the status text is left alone, and the item stays hidden, exactly when no namespace holds a metric alert |
| `Provider.ReadabilityOfLastMetricNamespace` | src/features/vsProvider.ts:85-90 | the last namespace with a metric alert decides the status text: the message of that namespace's first alert |
| `Provider.StatusShowsFirstAlertOfNamespace` | src/features/vsProvider.ts:88-90 | a metric alert after a positional one shows the positional alert's message, and only the positional alert becomes a diagnostic |
| `Provider.AlertKeyCollision` | src/features/vsProvider.ts:95 | two alerts share a modelled index key, the pair (message, range), exactly when they share message, line and span. The source's key is a string built with the host's form of a range, which is not modelled. |
| `Provider.Indexed` | src/features/vsProvider.ts:95-96 | writing the alerts of a pass keeps every old key and adds the key of every alert |
| `Provider.IndexedKeys` | src/features/vsProvider.ts:95-96 | after indexing, the keys are the old keys plus the key of every alert, and nothing else |
| `Provider.IndexedLastWins` | src/features/vsProvider.ts:95-96 | an alert is found under its key unless a later alert has the same key |
| `Provider.IndexedKeepsOthers` | src/features/vsProvider.ts:95-96 | a key that no alert of the pass has keeps its old entry |
| `Provider.IndexedAppend` | src/features/vsProvider.ts:85-101 | indexing two namespaces in turn is the same as indexing their alerts together |
| `Provider.ProjectsAllAt` | src/features/vsProvider.ts:92-98 | the i-th diagnostic of a pass is made from the i-th positional alert |
| `Provider.ProjectsAllAppend` | src/features/vsProvider.ts:85-101 | the diagnostics of two namespaces, one after the other, project their alerts one after the other |
| `Provider.DiagnosticKeysFindAlerts` | src/features/vsProvider.ts:92-98 | each published diagnostic's key is in the index. It finds that diagnostic's own alert unless a later alert of the pass has the same message and range. This is stated for the modelled key (message, range). |
| `Provider.BackendLabel` | src/features/vsProvider.ts:82 | the diagnostics' source is "Vale" exactly in CLI mode, and "Vale Server" otherwise |
| `Provider.QuickFixAction` | src/features/vsProvider.ts:143-158 | a quick fix whose action and command carry the same `toTitle` title. Its command is the provider's fix command, with the document, the diagnostic, the alert's `Match`, the suggestion and the alert's action name as arguments. |
| `Provider.FixEdit` | src/features/vsProvider.ts:185-195 | a non-`remove` action replaces the range with the suggestion; `remove` deletes the range with its end moved one character right |
| `Provider.TitleMatchesEdit` | src/features/vsProvider.ts:142-195 | a quick fix titled `Remove '…'` deletes and any other replaces. On the same range, the deletion ends exactly one character after the replacement. |
| `Provider.ValeServerProvider.constructor` | src/features/vsProvider.ts:11-16 | the provider starts with the two empty maps declared here. `activate` (src/features/vsProvider.ts:215-219) adds an empty collection, a hidden status item, and the backend mode and styles directory. |
| `Provider.ValeServerProvider.UpdateStatusBarItem` | src/features/vsProvider.ts:107-110 | the status item shows the message and is visible |
| `Provider.ValeServerProvider.HandleAlert` | src/features/vsProvider.ts:88-99 | one alert keeps the loop invariant of the inner loop. A metric alert shows the namespace's first message. A positional alert appends a new diagnostic, distinct from all others, and writes the alert under its key. |
| `Provider.ValeServerProvider.HandleAlerts` | src/features/vsProvider.ts:87-100 | the diagnostics of a namespace project its positional alerts in order. They are pairwise distinct and new to the pass. The index gains each alert under its key. The status shows the first message exactly when a metric alert occurs. |
| `Provider.ValeServerProvider.HandleNamespaces` | src/features/vsProvider.ts:85-101 | the diagnostics of the reply project `PositionalAlerts` in order and are pairwise distinct. The index is `Indexed` over them. The status text is `Readability` of the reply, or the old text. |
| `Provider.ValeServerProvider.HandleJSON` | src/features/vsProvider.ts:79-105 | a reply that does not parse changes nothing. Otherwise the document's list and the collection both hold exactly one diagnostic per positional alert, in order. Other documents' lists are unchanged. The index is the old one with every alert written under its key. The status is hidden unless a metric alert occurs. The class invariant is kept. |
| `Provider.ValeServerProvider.DoVale` | src/features/vsProvider.ts:21-56 | an ineligible document changes nothing. An eligible one empties the whole index and reads the backend mode. The request is chosen by the scope policy. The reply is handled at the offset of the submitted text. A failed or unparsable reply leaves the old lists. |
| `Provider.ValeServerProvider.ProvideCodeActions` | src/features/vsProvider.ts:112-165 | there are no actions without a diagnostic or in CLI mode. An unreachable server rejects. A missing alert rejects as soon as there is a suggestion. Otherwise there is one quick fix per suggestion, in order, titled by `toTitle` and carrying the alert's `Match` and action. |
| `Provider.ValeServerProvider.RunCodeAction` | src/features/vsProvider.ts:167-203 | stale text changes nothing and applies nothing. Matching text splices the diagnostic's `indexOf` position out of the document's list, republishes the list and returns the fix's edit. A document without a stored list fails. No list ever holds a duplicate. |
| `Provider.ValeServerProvider.Dispose` | src/features/vsProvider.ts:234-243 | the collection is cleared and both maps are empty |

## Left out

- `readBinaryLocation` and `readFileLocation` (src/features/vsUtils.ts:9-38): they read
  the editor configuration and search `PATH` through libraries outside this code.
- `runInWorkspace`, `postFile`, `postString`, `getStylesPath` and `runVale`: process
  spawning and HTTP. Their outcome is the `response` parameter of `DoVale`: `None` when
  the call failed or its output did not parse.
- `Provider.ValeServerProvider.DoVale`: does not model `runVale` reading the styles
  directory again (`getStylesPath(true)`) in CLI mode. `stylesPath` keeps the value it was
  activated with, because that value comes from a process the model does not run.
- The `/suggest` request in `provideCodeActions`: its reply is the `suggestions`
  parameter, and `None` stands for a failed request.
- `JSON.parse` and `JSON.stringify`: the reply arrives already parsed. An alert record
  with missing fields is not representable.
- `isElligibleDocument`: it queries the host and shows a popup, so it is the `eligible`
  parameter.
- `fs.existsSync`: it is the `ruleExists` predicate.
- `path.join` normalisation, `path.extname` and `path.dirname`: the rule path is built by
  plain concatenation with `/`, and the `PostString` request carries the file name rather
  than its extension.
- The string form of a `vscode.Range` inside the index key: the host's `toString` is not
  visible, so the key is the pair (message, range).
- `vscode.Range`'s swapping of reversed ends, and its error on negative lines or columns:
  ranges are kept as built.
- Columns and line lengths count Dafny characters (Unicode code points), not UTF-16 code
  units as the editor does. On a line holding a character outside the Basic Multilingual
  Plane, the model's columns after that character, paragraph end columns and `getText`
  results differ from the editor's.
- Whether a line is blank, and the length of the document: both are given by the host.
- `activate`: the command and event registration, and removing a closed document's entry
  from the collection. The constructor stands for the state `activate` leaves.
- Disposing the host objects (the command, the status item, the collection itself): only
  the effect on the provider's state is modelled.
- Interleaving of asynchronous lint passes: each operation runs to completion.
- Error popups and console logging.
- Severities other than suggestion, warning and error: the reply type cannot hold them.
- `Provider.ValeServerProvider.HandleJSON`: does not state that the published diagnostics
  are newly created objects. It states that they are pairwise distinct, which is what
  `runCodeAction` relies on.
