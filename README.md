# BECA extension core, modelled in Dafny

This project models the client-side logic of the BECA VS Code extension, a
coding assistant whose answers come from a backend service. The model covers:

- **The chat view's task tracker and conversation log** (`BecaProvider`).
  The first message of a conversation opens a fixed five-step task. Keyword
  rules on the lower-cased reply advance the step statuses. One `taskUpdated`
  is posted per step whose status actually changes. Every log entry is
  posted to the webview, and `newTask` resets the log after confirmation.
- **The webview's reducer** (`App.tsx`), which receives those posts. The model
  proves that a webview which received everything the host posted shows
  exactly the host's log and task.
- **The diagnostic pipeline.** A queue of pending document URIs is drained by
  one 3000 ms debounce timer. A parser turns `Line N: text` mentions in
  review text into whole-line, severity-classified diagnostics, with a
  file-level hint on the word `improve`.
- **The completion provider.** It has a 2000 ms admission gate and a prefix
  gate, and its `parseSuggestions` takes fenced code blocks up to a cap,
  falling back to the first non-blank line.
- **The hover provider**, with a cache keyed by `fsPath:word` that serves an
  entry for 300000 ms, and that stores only successful answers.
- **The save watcher.** It holds the language allow-list and extracts the
  bullet lines of a review, keeping at most five.
- **The HTML helpers** `escapeHtml` (chained and table-driven variants) and
  `formatMarkdown`.

## How the model is built

- The modules follow the source files:

  | module | file |
  |---|---|
  | `BecaView` | `beca_view.dfy` |
  | `WebviewApp` | `webview_app.dfy` |
  | `WebviewTypes` | `webview_types.dfy` |
  | `Diagnostics` | `diagnostic_provider.dfy` |
  | `Completion` | `completion_provider.dfy` |
  | `Hovering` | `hover_provider.dfy` |
  | `FileWatching` | `file_watcher.dfy` |
  | `Markup` | `markup.dfy` |

- Two shared modules support them:
  - `JsText` gives JavaScript string semantics: `trim` with the `\s` set, `toLowerCase` for ASCII keywords, `split`, `includes`, `substring`, and the decimal rendering of numbers.
  - `EditorHost` gives documents, positions, the backend's reply and the context window that the providers send.
- Objects whose fields the source updates are classes with those fields:
  - `BecaProvider` keeps the log, the task, whether a view is attached, and a ghost trace `sent` of every message posted.
  - `DiagnosticProvider` keeps the pending queue, the timer deadline and the collection.
  - `CompletionProvider` keeps `lastRequest`.
  - `HoverProvider` keeps the cache map.
- Each method is proved against a pure function of the old state, such as `UserTurn`, `HoverFor` or `Complete`. The properties are lemmas about those functions.
- The regular expressions are hand-written scanners. For each one, lemmas pin down the match it finds:
  - the greedy and lazy choices;
  - the leftmost match of a global scan;
  - that `.` refuses line terminators.
- Clock readings (`Date.now()`), generated ids and timestamps, the backend's answers and the user's dialog choices are parameters.

### Behaviour the model keeps as the code has it

The model keeps each of these behaviours of the code, surprising as some are:

- A reply containing "exploring" or "found" on a fresh task posts **two** `taskUpdated` messages, one per step update (`BecaView.FreshTaskExploreReply`).
- A code-block label always ends in `...`, even when the first line is short (`Completion.CodeSuggestionShape`).
- Diagnostic messages carry the prefix `BECA: `.
- The `improve` test is case-sensitive (`Diagnostics.DiagnosticsShape`).
- The hover cache has no in-flight deduplication: concurrent misses each ask the backend.
- The completion rate limit is one clock per provider. It is not per document or per key.
- The first bullet marker of the save watcher is the three-character string U+201A U+00C4 U+00A2. Only its first character is stripped, so the insight keeps the other two (`FileWatching.BulletLeavesTwoCharacters`).
- `sortText` `"0" + index` keeps the parse order only below ten items: `"010"` sorts before `"02"` (`Completion.SortTextTenBeforeTwo`).

## Model

| member | source | states |
|---|---|---|
| BecaView.CreatedTask | views/becaProvider.js:121-134 | the new task has steps with ids 1..5 in order and their fixed titles, step 1 in progress and steps 2-5 pending, status active, and a title that is the first min(100, length) characters of the request |
| BecaView.FindStepFirst | views/becaProvider.js:176 | `find` returns the first step with the id, and nothing only when no step has it |
| BecaView.ApplyFrame | views/becaProvider.js:176-178 | one step update keeps the id, title, creation time, status and step count; only the named step's status can change; the task changes exactly when that step exists with a different status |
| BecaView.StepChangeOnWellFormed | views/becaProvider.js:173-178 | on a task with steps 1..5, an update takes effect exactly when its id is one of 1..5 and that step's status differs |
| BecaView.AdvanceFaithful | views/becaProvider.js:173-184 | a run of step updates keeps the task's shape, posts only snapshots that differ from the task before them, posts the task it ends in last, and only appends to what was posted |
| BecaView.ProgressKeepsShape | views/becaProvider.js:142-171 | the keyword heuristic keeps the fixed shape and ids, never posts a no-op snapshot, and its last snapshot is the task it leaves |
| BecaView.RulesInOrder | views/becaProvider.js:148-170 | the five rules applied one after another, each firing or not, are the whole heuristic in source order |
| BecaView.FreshTaskExploreReply | views/becaProvider.js:145-156 | on a fresh task, a reply that hits only the explore rule gives statuses in-progress, completed, in-progress, pending, pending and exactly two snapshots |
| BecaView.TestingReplySkipsSteps | views/becaProvider.js:163-166 | on a fresh task, a reply hitting only "testing" completes step 4 while steps 2 and 3 stay pending |
| BecaView.AfterReplyHidesThinking | views/becaProvider.js:85-118 | whatever the backend does, the first post after the call is `thinking false`, and one or two log entries follow |
| BecaView.TurnParts | views/becaProvider.js:53-119 | a non-blank turn appends the user entry and then the reply's entries, leaves the reply handling's task in place, and posts the opening followed by the reply's posts |
| BecaView.BlankMessageIgnored | views/becaProvider.js:54 | an empty or whitespace-only message changes nothing and posts nothing |
| BecaView.StringReplyEntry | views/becaProvider.js:87-107 | with a string reply the heuristic cannot throw, and exactly one entry follows: the answer on success, an error otherwise |
| BecaView.TurnAppendsTwoEntries | views/becaProvider.js:57-107 | with a string reply, a non-blank message appends exactly two entries: the user's text, then an assistant entry or an error entry |
| BecaView.OpeningShape | views/becaProvider.js:57-71 | the opening posts are the user entry, `thinking true`, and `taskCreated` for the new task when there was none |
| BecaView.TurnThinkingBrackets | views/becaProvider.js:57-118 | `thinking true` is the second post, and the first `thinking false` follows it, with no other thinking post between them |
| BecaView.TurnKeepsExistingTask | views/becaProvider.js:69-71 | a message sent while a task exists keeps that task's id, title and step shape |
| BecaView.TurnCreatesTask | views/becaProvider.js:69-71 | the first non-blank message without a task opens the fixed-shape task and posts it |
| BecaView.ReplayUpdates | views/becaProvider.js:179-182 | replaying `taskUpdated` snapshots shows the last one and leaves the webview's log alone |
| BecaView.AfterReplyMirrors | views/becaProvider.js:85-118 | a webview that mirrors the host before the backend call still mirrors it after receiving what the reply handling posted |
| BecaView.OpeningMirrors | views/becaProvider.js:57-71 | a mirroring webview that receives the opening posts shows the log with the user entry and the turn's task |
| BecaView.TurnMirrors | views/becaProvider.js:53-119 | a webview that mirrored the host before a turn mirrors it after receiving everything the turn posted |
| BecaView.NewTaskResets | views/becaProvider.js:268-279 | with a non-empty log and no "Yes", nothing changes and nothing is posted; otherwise the log empties, the task is dropped, and one `fullUpdate` with no explored files brings any webview state back in line |
| BecaView.BecaProvider.constructor | views/becaProvider.js:7-13 | empty log, no task, no view, nothing posted |
| BecaView.BecaProvider.SendToWebview | views/becaProvider.js:226-230 | a message is posted exactly when a view is attached |
| BecaView.BecaProvider.ResolveWebviewView | views/becaProvider.js:15-34 | the view is attached, the state is unchanged, and one full-state snapshot is posted |
| BecaView.BecaProvider.UpdateWebview | views/becaProvider.js:232-241 | posts the log, the task and an empty explored-file list |
| BecaView.BecaProvider.AddMessage | views/becaProvider.js:218-224 | the entry is appended to the log and posted |
| BecaView.BecaProvider.SendThinking | views/becaProvider.js:64-65 | posts the flag and keeps the mirror invariant |
| BecaView.BecaProvider.CreateTask | views/becaProvider.js:121-140 | the current task becomes `CreatedTask` and `taskCreated` is posted with it |
| BecaView.BecaProvider.UpdateTaskStep | views/becaProvider.js:173-184 | without a task nothing happens; otherwise one `taskUpdated` is posted exactly when the step exists with a different status, and the task becomes `Apply` of the update |
| BecaView.BecaProvider.UpdateTaskProgress | views/becaProvider.js:142-171 | without a task nothing happens; otherwise the task and the posted snapshots are those of `ProgressFor` on the reply |
| BecaView.BecaProvider.FireRule | views/becaProvider.js:148-170 | one rule posts its one or two updates in order when its test holds, and nothing otherwise |
| BecaView.BecaProvider.UpdateTaskStepFrom | views/becaProvider.js:173-184 | one update extends the heuristic's run by `Step` |
| BecaView.BecaProvider.HandleUserMessage | views/becaProvider.js:53-119 | the new log and task and the posted messages are those of `UserTurn` on the old state |
| BecaView.BecaProvider.Converse | views/becaProvider.js:57-118 | a non-blank message runs the opening and then the handling of the reply |
| BecaView.BecaProvider.OpenTurn | views/becaProvider.js:57-71 | the user entry is appended, the turn's task is current, and the opening is posted |
| BecaView.BecaProvider.ReceiveReply | views/becaProvider.js:82-118 | the handling of the reply equals `AfterReply` for a returned or thrown call |
| BecaView.BecaProvider.ReceiveAnswer | views/becaProvider.js:87-117 | on success the answer (or "No response from BECA") is logged, then the heuristic runs; a missing reply text throws in it and the catch logs an error |
| BecaView.BecaProvider.Catch | views/becaProvider.js:109-117 | `thinking false` and then the error entry are posted, and the entry is appended |
| BecaView.BecaProvider.StartNewTask | views/becaProvider.js:268-282 | the new state and posts are those of `NewTaskOutcome` for the dialog's answer |
| BecaView.BecaProvider.ApplyFileEdit | views/becaProvider.js:186-216 | the task stays; a successful write logs a system entry and a failed one an error entry, and exactly that entry is posted |
| BecaView.BecaProvider.HandleMessage | views/becaProvider.js:36-51 | `sendMessage` runs the user turn, `newTask` the reset, `approveEdit` the file edit (the task stays, the edit's entry is appended and posted), and every other request changes nothing |
| WebviewApp.Receive | webview-ui/src/App.tsx:14-35 | no message touches the input box; only `thinking` changes the flag; only `messageAdded` and `fullUpdate` change the messages |
| WebviewApp.ReplayConcat | webview-ui/src/App.tsx:14-35 | replaying two batches in order is replaying their concatenation |
| WebviewApp.ReplayAddedAppends | webview-ui/src/App.tsx:18-20 | one `messageAdded` per entry appends exactly those entries and changes nothing else |
| WebviewApp.ReplayAddedRebuildsHistory | webview-ui/src/App.tsx:18-20 | from an empty webview, the `messageAdded` stream rebuilds the host's log exactly |
| WebviewApp.FullUpdateResyncs | webview-ui/src/App.tsx:30-33 | a `fullUpdate` makes any state show the snapshot's log and task, and leaves the thinking flag and the input alone |
| WebviewApp.UnrecognisedIsIgnored | webview-ui/src/App.tsx:17-34 | a message of unknown type changes nothing |
| WebviewApp.SendInput | webview-ui/src/App.tsx:41-50 | blank input posts nothing and keeps the state; otherwise the untrimmed input is posted as `sendMessage` and the input is cleared |
| WebviewApp.KeyPress | webview-ui/src/App.tsx:52-57 | Enter without Shift runs `sendMessage`: a non-blank input is posted and cleared, a blank one posts nothing; every other key posts nothing and changes nothing |
| WebviewApp.RequestNewTask | webview-ui/src/App.tsx:59-63 | `newTask` is posted exactly when the user confirms, and the state is unchanged |
| Diagnostics.SkipWhitespace | providers/diagnosticProvider.js:116 | the greedy `\s*` ends at the first non-whitespace character at or after the start |
| Diagnostics.SkipDigits | providers/diagnosticProvider.js:116 | the greedy `\d+` ends at the first non-digit at or after the start |
| Diagnostics.LazyLineIff | providers/diagnosticProvider.js:116 | the lazy group with its newline-or-end tail succeeds exactly when the rest of the line from the start is non-empty and ends in a newline or the end of the text, and then takes all of it |
| Diagnostics.TryTailLatest | providers/diagnosticProvider.js:116 | backtracking `\s*` reports the latest start whose rest of the line the lazy group accepts, and reports nothing only when every start fails |
| Diagnostics.SpansShape | providers/diagnosticProvider.js:116 | group 1 is a run of digits and group 2 the rest of a line |
| Diagnostics.MatchAtShape | providers/diagnosticProvider.js:116 | a match has at least one digit and a non-empty group 2 with no line terminator that runs to the end of its line |
| Diagnostics.SearchLeftmost | providers/diagnosticProvider.js:116-119 | `exec` reports the leftmost match at or after `lastIndex`, and nothing only when none exists |
| Diagnostics.SeverityIgnoresCase | providers/diagnosticProvider.js:133-140 | severity is Error on "error" or "bug", else Information on "info" or "suggestion", else Warning, whatever the letter case; never Hint |
| Diagnostics.LineDiagnostic | providers/diagnosticProvider.js:120-149 | a match gives a diagnostic exactly when its 1-based number names a line of the document |
| Diagnostics.LineDiagnosticShape | providers/diagnosticProvider.js:120-149 | an in-range match gives the whole line n-1 from column 0 to its length, the message "BECA: " plus the trimmed group, source "BECA" and the keyword severity |
| Diagnostics.LineDiagnostics | providers/diagnosticProvider.js:119-151 | out-of-range matches are dropped, never clamped: there are at most as many diagnostics as matches, and none exactly when no match names a line |
| Diagnostics.LineDiagnosticsOnWholeLine | providers/diagnosticProvider.js:119-151 | every line diagnostic covers one whole line of the document and is never a hint |
| Diagnostics.DiagnosticsShape | providers/diagnosticProvider.js:153-164 | the result is either the line diagnostics or the single Hint at (0,0,0,0), the hint appearing exactly when no in-range line was named and the case-sensitive "improve" occurs; with neither, the result is empty |
| Diagnostics.LineReportSpans | providers/diagnosticProvider.js:116 | in a well-formed `Line <digits>: <text>` report, group 1 is the digits and group 2 the text |
| Diagnostics.LineReportMatches | providers/diagnosticProvider.js:116-119 | a well-formed one-line report holds exactly one match, spanning the whole report |
| Diagnostics.LineReportDiagnostic | providers/diagnosticProvider.js:116-149 | a well-formed report naming line n of the document gives exactly one diagnostic on the whole line n-1, with "BECA: " and the trimmed text, and the keyword severity, e.g. a Warning for "Line 2: unused variable" on a three-line document |
| Diagnostics.EnqueueIsSetAdd | providers/diagnosticProvider.js:54-59 | queueing acts as an insertion-ordered set add for eligible documents: the URI is present afterwards, a duplicate adds nothing, and nothing is lost or reordered; ineligible documents change nothing |
| Diagnostics.FindDocument | providers/diagnosticProvider.js:77 | the document found is open and has the URI, and none is found only when no open document has it |
| Diagnostics.StillOpenExactlyOnce | providers/diagnosticProvider.js:76-78 | the pass visits exactly the pending URIs that still have an open document, each once, and only open documents |
| Diagnostics.AnalyzedAllOutside | providers/diagnosticProvider.js:82-84 | a URI outside the pass keeps its diagnostics |
| Diagnostics.AnalyzedAllInside | providers/diagnosticProvider.js:82-84 | each document of the pass ends as if analysed alone |
| Diagnostics.AnalyzedAllEffect | providers/diagnosticProvider.js:82-106 | the pass leaves other URIs untouched, and each analysed document holds what its analysis stored, or its old entry when nothing was stored |
| Diagnostics.ScanFromMatches | providers/diagnosticProvider.js:119-151 | scanning one `exec` at a time gives the diagnostics of all matches in order |
| Diagnostics.ScanLines | providers/diagnosticProvider.js:116-151 | the `exec` loop gives one diagnostic per in-range match, in match order |
| Diagnostics.ParseDiagnostics | providers/diagnosticProvider.js:111-165 | the result equals `DiagnosticsFor`, the loop followed by the `improve` fallback |
| Diagnostics.DiagnosticProvider.constructor | providers/diagnosticProvider.js:8-28 | empty collection; every open document is scheduled in order, so the queue is their eligible URIs and the timer is set to now + 3000 exactly when one of them is eligible |
| Diagnostics.EnqueueAllMembers | providers/diagnosticProvider.js:25-27 | scheduling a list of documents queues each eligible URI once and nothing else |
| Diagnostics.DiagnosticProvider.ScheduleAnalysis | providers/diagnosticProvider.js:52-70 | non-`file` or dirty documents change nothing; otherwise the URI is set-added to the queue and the one deadline moves to now + 3000 |
| Diagnostics.DiagnosticProvider.OnDocumentChange | providers/diagnosticProvider.js:33-40 | documents are scheduled on change only while `autoReview` is on |
| Diagnostics.DiagnosticProvider.OnDocumentOpen | providers/diagnosticProvider.js:45-47 | an opened document is scheduled regardless of the setting |
| Diagnostics.DiagnosticProvider.ClearDiagnostics | providers/diagnosticProvider.js:170-172 | only that document's entry is removed |
| Diagnostics.DiagnosticProvider.ClearAll | providers/diagnosticProvider.js:177-179 | the collection is emptied |
| Diagnostics.DiagnosticProvider.AnalyzeDocument | providers/diagnosticProvider.js:90-106 | the parsed diagnostics are stored only for a successful reply with non-empty text; anything else, a thrown call included, changes nothing |
| Diagnostics.DiagnosticProvider.AnalyzePendingDocuments | providers/diagnosticProvider.js:75-85 | the queue empties and the still-open queued documents are analysed in queue order |
| EditorHost.ContextWindow | providers/completionProvider.js:43-44 | for a cursor inside the document, the window holds the cursor's line, stays within lines 0..lineCount-1, and is cut only at the document's ends |
| Completion.SkipWord | providers/completionProvider.js:89 | the greedy `[\w]*` ends inside the text, at or after its start |
| Completion.SkipWordRun | providers/completionProvider.js:89 | every character the run passes is a word character |
| Completion.NextFenceIsFence | providers/completionProvider.js:89 | the fence found is three backticks |
| Completion.NextFenceIsFirst | providers/completionProvider.js:89 | no fence starts between the search start and the fence found, nor anywhere when none is found |
| Completion.BlockAtShape | providers/completionProvider.js:89 | a match is a fence, word characters, a newline, a non-empty group, and the first fence after the group's first character |
| Completion.FindBlockIsMatch | providers/completionProvider.js:89-93 | `exec` returns a match starting where it reports, at or after `lastIndex` |
| Completion.FindBlockLeftmost | providers/completionProvider.js:89-93 | no match starts between `lastIndex` and the match returned |
| Completion.BlocksInOrder | providers/completionProvider.js:93 | successive matches do not overlap and come in text order |
| Completion.CodeSuggestionShape | providers/completionProvider.js:94-98 | the insert text is the trimmed block, and the label is its first line cut to 50 characters followed by "..." |
| Completion.FilterHead | providers/completionProvider.js:105 | the filtered lines are empty exactly when no line is kept; otherwise they start with the first kept line |
| Completion.NoneKeptBefore | providers/completionProvider.js:105 | every line before the first kept one fails the test |
| Completion.ParseSuggestions | providers/completionProvider.js:85-116 | the loop's result equals `Suggestions`: the code suggestions of the first blocks up to the cap, else the generic fallback |
| Completion.SuggestionsCases | providers/completionProvider.js:93-115 | with a positive cap and some block, the result is the first min(cap, blocks) code suggestions in order; otherwise a non-empty answer gives exactly the generic suggestion and an empty one gives none |
| Completion.GenericSuggestionShape | providers/completionProvider.js:104-113 | the fallback inserts the first non-blank line, or the first 100 characters when all are blank; its label is that text cut to 50 characters, and its documentation is the whole answer |
| Completion.ItemsOfKeepSuggestions | providers/completionProvider.js:58-70 | item k carries suggestion k's texts, the fixed detail, and the sort key "0" + k |
| Completion.SortTextKeepsOrder | providers/completionProvider.js:67 | for indexes below ten, the sort keys order items as they were parsed |
| Completion.SortTextTenBeforeTwo | providers/completionProvider.js:67 | the key of item 10 sorts before the key of item 2 |
| Completion.CompleteGates | providers/completionProvider.js:30-76 | the backend is asked exactly when the trimmed line prefix has at least three characters, about a window of at most 16 lines around the cursor; every successful non-empty answer gives at least one item; and the items never outnumber the cap (or one, for the fallback) |
| Completion.CompletionProvider.constructor | providers/completionProvider.js:8-12 | `lastRequest` starts at 0 |
| Completion.CompletionProvider.ProvideCompletionItems | providers/completionProvider.js:22-77 | a request under 2000 ms after the last admitted one gives no items and keeps `lastRequest`; any other request sets `lastRequest` to now, even when the prefix gate then gives no items, and returns `Complete` |
| Hovering.ShortWordIgnored | providers/hoverProvider.js:22-30 | no word, or one shorter than three characters, gives nothing, asks nothing and leaves the cache |
| Hovering.FreshEntryServed | providers/hoverProvider.js:33-38 | an entry younger than 300000 ms (strictly) is returned without asking the backend, and the cache stays |
| Hovering.MissAsksBackend | providers/hoverProvider.js:41-69 | otherwise the backend is asked about at most 11 lines around the cursor, inside the document; a successful answer with text is shown under the heading and stored with the later clock reading; any other outcome shows nothing and leaves the cache, a stale entry included |
| Hovering.OtherEntriesUntouched | providers/hoverProvider.js:33-64 | a request changes at most the entry under its own key |
| Hovering.ShownHoverIsCached | providers/hoverProvider.js:37-69 | a hover that is shown is the one cached under its key afterwards |
| Hovering.StoredHoverLifetime | providers/hoverProvider.js:34-67 | a stored hover is served for the same file and word until 300000 ms after it was stored, and from then on the backend is asked again |
| Hovering.CacheKeyInjective | providers/hoverProvider.js:33 | for words without ':', the key determines the path and the word |
| Hovering.HoverProvider.constructor | providers/hoverProvider.js:8-11 | the cache starts empty |
| Hovering.HoverProvider.ProvideHover | providers/hoverProvider.js:20-76 | the hover, the backend window and the new cache are those of `HoverFor` |
| Hovering.HoverProvider.ClearCache | providers/hoverProvider.js:81-83 | the cache is empty |
| FileWatching.CodeLanguagesShape | watchers/fileWatcher.js:80-86 | the allow-list holds 13 distinct ids, and the React variants are not code files |
| FileWatching.MarkedIff | watchers/fileWatcher.js:99 | a trimmed line is marked exactly when it starts with U+201A U+00C4 U+00A2, '-' or '*' |
| FileWatching.InsightsOfConcat | watchers/fileWatcher.js:97-102 | the insights of two runs of lines are those of each, in line order |
| FileWatching.InsightsOfOneLine | watchers/fileWatcher.js:98-101 | one line gives one insight exactly when it is marked, and at most one |
| FileWatching.InsightsCount | watchers/fileWatcher.js:97-102 | there are as many insights as marked lines |
| FileWatching.KeyInsights | watchers/fileWatcher.js:104 | at most five insights are returned |
| FileWatching.ExtractKeyInsights | watchers/fileWatcher.js:93-105 | the loop's result equals `KeyInsights`, so has at most five entries |
| FileWatching.KeyInsightsShape | watchers/fileWatcher.js:94-104 | the result is the first min(5, marked lines) insights in line order, and empty when no line is marked |
| FileWatching.BareDashIsEmpty | watchers/fileWatcher.js:100 | a line that trims to "-" gives the empty insight |
| FileWatching.BulletLeavesTwoCharacters | watchers/fileWatcher.js:99-100 | a bulleted line's insight still starts with U+00C4 U+00A2 |
| FileWatching.OnFileSaveGates | watchers/fileWatcher.js:22-73 | with `autoReview` off or a non-code file, nothing happens; a notice appears only after a successful review with one to five insights; a panel opens only on "View Details" and shows those insights |
| Markup.ReplaceCharConcat | commands/index.js:419 | a global one-character replace works piece by piece |
| Markup.ReplaceCharAbsent | commands/index.js:419-423 | text without the pattern character is unchanged |
| Markup.EscapeHtmlConcat | commands/index.js:417-424 | escaping a concatenation escapes each part |
| Markup.EscapeHtmlOneChar | commands/index.js:419-423 | on one character, the chain gives that character's entity, or the character itself |
| Markup.EscapeHtmlIsPerCharacter | commands/index.js:417-424 | the chained replaces equal the table-driven per-character version of views/sidebar.js:296-304 |
| Markup.EscapeHtmlRemovesMarkup | commands/index.js:417-424 | the output holds no `<`, `>`, `"` or `'` |
| Markup.EscapeHtmlAmpersand | commands/index.js:419-423 | every `&` in the output begins `&amp;`, `&lt;`, `&gt;`, `&quot;` or `&#039;` |
| Markup.EscapeHtmlPlainText | commands/index.js:417-424 | text without the five characters is unchanged |
| Markup.EscapeHtmlLength | commands/index.js:417-424 | the output length is the input length plus 4·#&, 3·#<, 3·#>, 5·#" and 5·#' |
| Markup.FormatMarkdownHasNoNewline | commands/index.js:426-433 | the output holds no newline |
| Markup.FormatMarkdownOnlyBreaks | commands/index.js:429-432 | without `*` or backticks, the only change is each newline becoming `<br>` |
| Markup.FormatMarkdownPlainText | commands/index.js:426-433 | text without `*`, backticks and newlines is unchanged |
| Markup.WrapSpan | commands/index.js:431-432 | a single-line span between two single-character delimiters, in which the delimiter does not occur, is wrapped in the tags |
| Markup.FormatMarkdownItalic | commands/index.js:430-432 | `*t*` becomes `<em>t</em>` for non-empty one-line `t` without `*` or backticks |

## Left out

- HTTP transport, prompt text and backend behaviour: replies are parameters (`Reply`), including a thrown call.
- Clocks, timers and concurrency. `Date.now()` is a parameter. The debounce timer is a deadline field, and its firing is `AnalyzePendingDocuments`. Awaited calls do not interleave.
- Diagnostics.DiagnosticProvider.constructor: every open document is scheduled at the one instant `now`; time passing between two `scheduleAnalysis` calls of the `forEach` is not modelled.
- Generated ids and ISO timestamps are opaque parameters (`Stamp`, `TurnStamps`).
- HTML templates (`getHtmlContent`, `getReviewHTML`), JSX rendering, CSS, webview options, and the markdown objects' `isTrusted`/`supportHtml` flags.
- Dialogs and notifications: their answers are parameters, and the "Edit rejected", "Started new task" and write-success notices are not modelled.
- `vscode` objects (`Diagnostic`, `Range`, `Hover`, `CompletionItem`, `MarkdownString`) become plain datatypes. The completion's `token` and `context` and the hover's `token` are ignored, as in the source.
- The workspace folder and `fs.writeFile` in `applyFileEdit`: the write's failure reason is a parameter.
- Lengths are counted in Unicode scalar values, not UTF-16 code units. On text outside the Basic Multilingual Plane this matters for `substring(0, 50)`, `substring(0, 100)`, the 3-character prefix gate, the 3-character word gate, the end column `line.text.length` of a line diagnostic (`Diagnostics.LineDiagnosticShape`), and the completion prefix `substr(0, position.character)`, whose `character` counts UTF-16 units.
- `JsText.LowerChar` folds only what can create or break an ASCII keyword. Every other character is kept.
- Completion.SortTextKeepsOrder: stated only below ten items, because the source's order breaks there (`Completion.SortTextTenBeforeTwo`).
- `Completion.Complete` reads the line and the cursor column from the document. The 10000-column window end and the window's text are not modelled, because only the lines matter.
- FileWatching.OnFileSave: a successful reply without text makes `split` throw inside the progress callback. Nothing catches it, and the model shows no notice. `withProgress` and its title are not modelled.
- `dispose` of the diagnostic provider: listener and collection disposal is editor plumbing.
- Markup.FormatMarkdownItalic and Markup.WrapSpan state the span rewrite for simple spans only. The general behaviour of the three span passes is defined by `Markup.Wrap` and `Markup.CloseAt`, which follow JavaScript's lazy `(.+?)` and global scan.
- The other copies of `escapeHtml` (commands/askBeca.js and others) are not part of this model. They are the same chain or the same table as the two modelled here.
- The commands' editor, clipboard and terminal glue, the status bar, the sidebar's HTML, activation and configuration reading are out of scope. Configuration values are parameters.
