# Luau script editor: the editing surface, modelled in Dafny

This project models the editing surface of a browser-based Luau script
editor (the `CodeEditor` React component in `components/code-editor.tsx`).
It covers:

- the tab (document) manager: create, open a file, select, close with the
  unsaved-changes question, delete, save, and edit content;
- the word detector that finds the identifier-like token touching the caret;
- the autocomplete engine: the static Luau catalog, the case-insensitive
  prefix filter capped at ten, the suggestion pop-up with its keyboard
  navigation, and the edit made when a suggestion is accepted;
- the integer part of the cursor locator (line, column, the pop-up's `top`)
  and the gutter's line count;
- the synchronous part of the two dispatch actions (execute and inject): the
  empty-script guard, the busy flags, and how a thrown value becomes the
  message shown under the editor.

Layout, one module per file:

- `wrappers.dfy`: `Option`.
- `js_strings.dfy`: the JavaScript string primitives the component relies on.
  These are `substring` (clamping), `startsWith`/`endsWith`,
  `toLowerCase` on ASCII, `trim` with the ECMAScript white-space set, and
  decimal printing of a number.
- `seqs.dfy`: order-preserving subsequences.
- `words.dfy`: `getCurrentWord`.
- `autocomplete.dfy`: catalog, filter, pop-up state, navigation, accepted edit.
- `geometry.dfy`: line/column/top and line count.
- `dispatch.dfy`: blank guard, error rewriting and classification.
- `tabs.dfy`: the tab record and the pure list operations on tabs (`find`,
  `filter`, `map`), the download name, and closing as a function on a
  `Session` (tab list plus active id).
- `editor.dfy`: class `CodeEditor`. Its fields are the component's React
  state. Its methods are the event handlers, each proved against the
  functions above.

Modelling choices:

- The filter, the candidate list and the pop-up take the suggestion list as
  an argument. The editor holds it in the constant field `catalog`, which
  its constructor sets to `Catalog` (`LUAU_SUGGESTIONS`); every handler
  then reads the same list, as the component reads its module constant.
- `showSuggestions`, `filteredSuggestions` and `selectedSuggestionIndex` are
  one field, `popup: Popup = Hidden | Visible(items, selected)`. While the
  pop-up is hidden, the source keeps a stale list. Nothing reads it:
  `handleKeyDown` returns early and the list is rendered only when shown.
- Tab ids are `"tab-" + now`, where `now` stands for `Date.now()` and is a
  parameter. Creating or opening a tab requires that this id is not in use.
- `confirm()` answers are boolean parameters. A failed file read is the
  `None` case of the file's text. The textarea's caret is an optional
  parameter (`None` when the textarea is missing).
- The source field `label` of a suggestion is called `name` here, because
  `label` is a Dafny keyword.
- The `lineCount` state is not a field. The component recomputes it from
  the active tab after every change, so it is `Geometry.LineCount` of the
  active tab's content.

Behaviour worth noting:

- `applySuggestion` replaces only the part of the word left of the stored
  caret (`text[start..cursor)`). Text after the caret is kept, including the
  rest of the word: accepting `print` at `pri|nt` gives `printnt`
  (`AppliedKeepsWordTail`). The replaced span is the whole detected word only
  when the caret ends the word (`AppliedAtWordEnd`).
- `.` is a word character, so the word at offsets 0, 4 and 9 of
  `task.wait(1)` is `task.wait` (`TaskWaitExamples`).
- The download name appends `.lua` unless the name already ends in `.lua`.
  Any other extension is kept and `.lua` is added after it, so `a.txt`
  becomes `a.txt.lua`.
  An empty `path` is falsy and falls through to the name.
- Selecting a tab sets the active id with no existence check. Only ids of
  rendered tabs reach it, so `SelectTab` requires the id to be present.
- No time-out, HTTP-error or network-failure message can reach the screen.
  The `fetch` promise is neither awaited nor linked to the abort controller,
  and its failures go only to the console. The classification is modelled as
  written. It applies to a value thrown inside the inner `try` around
  `fetch`, the only part of the handlers the inner `catch` sees.
- The inner `catch` reads `.name` of whatever was thrown. For `null` or
  `undefined` that read itself throws a `TypeError`, and the outer `catch`
  reports that error's message. Its wording is the browser engine's; the
  model uses the V8 wording ("Cannot read properties of null (reading
  'name')"). A value that is not an `Error` but has `name` `AbortError` is
  reported as a time-out, like an abort `Error`.
- `closeTab` with an id that is not open, while exactly one tab is open,
  resets that tab without asking about unsaved changes. The UI never does
  this: it closes only rendered tabs or the active one.
  `CloseKeepsUnsaved` states the guarantee for open ids.

## Model

| member | source | states |
|---|---|---|
| JsStrings.TrimEmptyIffBlank | components/code-editor.tsx:402 | `code.trim()` is empty exactly when every character is ECMAScript white space or a line terminator |
| JsStrings.NatToStringRoundTrip | components/code-editor.tsx:203 | the decimal text of a number reads back as that number, so the printed clock value determines the id |
| Tabs.TabIdInjective | components/code-editor.tsx:259 | tab ids made from different clock readings differ |
| Words.WordStart | components/code-editor.tsx:489-492 | the left end is at most the caret, only word characters lie between it and the caret, and the character before it is not a word character or does not exist |
| Words.WordEnd | components/code-editor.tsx:495-498 | the right end is at least the caret and within the text, only word characters lie between the caret and it, and the character at it is not a word character or does not exist |
| Words.CurrentWord | components/code-editor.tsx:487-501 | the word consists of ASCII letters, digits, `_` and `.` only; it is the text between the two ends; it is empty past the end of the text |
| Words.CurrentWordEmptyIff | components/code-editor.tsx:487-501 | the word is empty exactly when neither neighbour of the caret is a word character |
| Words.MaximalSpanUnique | components/code-editor.tsx:487-501 | any span that contains the caret, holds only word characters and cannot be extended on either side is the detected span |
| Words.ScanWordStart | components/code-editor.tsx:618-620 | the left-scanning loop stops exactly at the word's left end |
| Words.GetCurrentWord | components/code-editor.tsx:487-501 | the two scanning loops and the cut return the maximal word touching the caret |
| Words.TaskWaitExamples | components/code-editor.tsx:490-500 | on `task.wait(1)` the word at offsets 0, 4 and 9 is `task.wait`, at 10 it is `1`, at the end it is empty |
| Autocomplete.Filter | components/code-editor.tsx:561-562 | every kept entry comes from the list and its lower-cased label starts with the lower-cased word |
| Autocomplete.FilterComplete | components/code-editor.tsx:561-562 | no matching entry is left out |
| Autocomplete.FilterCount | components/code-editor.tsx:561-562 | each matching record is kept exactly as often as it occurs and every other record is dropped, so repeated records are counted right |
| Autocomplete.FilterKeepsOrder | components/code-editor.tsx:561-562 | the kept entries appear in catalog order |
| Autocomplete.Candidates | components/code-editor.tsx:561-563 | at most ten candidates, each a catalog entry matching the word |
| Autocomplete.CandidatesExact | components/code-editor.tsx:556-563 | the candidates are a subsequence of the catalog. They are the first min(10, matches) of the full matching list. When at most ten entries match, every matching entry is offered |
| Autocomplete.PopupFor | components/code-editor.tsx:560-579 | the pop-up is shown exactly when the word is non-empty and some catalog entry matches; it then offers the candidates with the first one highlighted |
| Autocomplete.SelectNext | components/code-editor.tsx:592 | ArrowDown keeps the highlight inside the list: above the last entry it moves down by exactly one, and on the last entry it stays |
| Autocomplete.SelectPrevious | components/code-editor.tsx:595 | ArrowUp moves the highlight up by one and leaves it on the first entry |
| Autocomplete.Navigate | components/code-editor.tsx:587-595 | after any run of arrow keys and ignored keys with the pop-up open, the highlight is still inside the list |
| Autocomplete.RepeatAtBoundary | components/code-editor.tsx:590-595 | repeating ArrowDown at the last entry, or ArrowUp at the first, changes nothing |
| Autocomplete.CatalogShape | components/code-editor.tsx:73-157 | the catalog has 48 entries; `type` and `typeof` each appear as a keyword and as a function, and the two records of each label differ |
| Autocomplete.Applied | components/code-editor.tsx:615-625 | the new content is the text before the word's left end, then the value, then the text from the caret on (the value is appended when the caret is past the end) |
| Autocomplete.AppliedCaret | components/code-editor.tsx:638 | the new caret sits right after the inserted value, and the text that followed the old caret starts there; with the stored caret past the end it is that caret plus the value's length |
| Autocomplete.AppliedShape | components/code-editor.tsx:618-639 | the text before the word is kept and the value sits just before the new caret. The text after the old caret follows the new caret. Only word characters were replaced |
| Autocomplete.AppliedAtWordEnd | components/code-editor.tsx:618-625 | when the caret ends the word, exactly the detected word is replaced |
| Autocomplete.AppliedKeepsWordTail | components/code-editor.tsx:622-625 | with the caret inside a word the tail of the word survives (`pri|nt` + `print` gives `printnt`) |
| Geometry.SplitLines | components/code-editor.tsx:521 | splitting at `\n` gives at least one piece and no piece holds a `\n` |
| Geometry.JoinSplitLines | components/code-editor.tsx:521 | joining the pieces with `\n` gives back the text |
| Geometry.SplitLinesCount | components/code-editor.tsx:521-522 | there is one more piece than line breaks |
| Geometry.LastLineIsTail | components/code-editor.tsx:521-523 | the last piece is the text after the last line break, or the whole text when there is none |
| Geometry.CaretLocation | components/code-editor.tsx:519-523 | the line index is the number of `\n` before the caret. The column is the number of characters since the last one |
| Geometry.AnchorTop | components/code-editor.tsx:535-537 | the pop-up's top is 24 pixels per line break before the caret, plus 24, plus 8 |
| Geometry.CountNewlinesPrefix | components/code-editor.tsx:196 | a prefix has no more line breaks than the whole text |
| Geometry.LineCount | components/code-editor.tsx:196 | the line count is at least one and equals the number of lines the text splits into at `\n` |
| Geometry.CaretWithinLineCount | components/code-editor.tsx:196 | every caret is on a line the gutter numbers, and a caret at the end is on the last one |
| Dispatch.TrimsToEmpty | components/code-editor.tsx:402 | the `!code.trim()` guard holds exactly for a script of white space only |
| Dispatch.Rethrown | components/code-editor.tsx:438-442 | `null` and `undefined` give way to the `TypeError` their `.name` read raises; a value named `AbortError`, an `Error` or not, becomes an `Error` with the time-out message; anything else is rethrown unchanged; nothing nullish comes out |
| Dispatch.RethrownStable | components/code-editor.tsx:438-442 | a value that has passed the inner `catch` is not changed by passing it again |
| Dispatch.FailureMessage | components/code-editor.tsx:448-456 | the message starts with the action's prefix. It continues with the network message for a `TypeError` "Failed to fetch", the `message` of any other error, or `String(value)` for a non-error (`null`, `undefined` or another value) |
| Dispatch.AbortReportsTimeout | components/code-editor.tsx:438-456 | an aborted request is reported with the time-out message, whether or not the value is an `Error`, and that message differs from the network-failure message |
| Dispatch.NullReportsNameRead | components/code-editor.tsx:438-456 | a thrown `null` is reported with the message of the `TypeError` its `.name` read raises, not as `null` |
| Tabs.Find | components/code-editor.tsx:220 | a tab is found exactly when its id is open, and the found tab is in the list with that id |
| Tabs.FindUnique | components/code-editor.tsx:191 | with distinct ids the tab found is the one holding the id |
| Tabs.Without | components/code-editor.tsx:236 | the remaining tabs are exactly the tabs with another id |
| Tabs.WithoutShape | components/code-editor.tsx:236 | filtering keeps the order and the distinct ids, and removes exactly one tab when the id is open |
| Tabs.MapWhere | components/code-editor.tsx:546 | mapping changes exactly the tabs with the id and keeps the length |
| Tabs.MapWhereOne | components/code-editor.tsx:301 | with distinct ids, an id-preserving edit replaces exactly one tab and keeps ids and their distinctness |
| Tabs.EditActive | components/code-editor.tsx:546 | editing through the active id replaces the active tab by its edited form, leaves every other tab, and keeps the invariant |
| Tabs.NewTab | components/code-editor.tsx:203-209 | the new tab is empty, saved and not loaded from a file; its id reads back as the clock reading and its name `Script n` reads back as one more than the number of open tabs |
| Tabs.OpenedTab | components/code-editor.tsx:259-266 | the opened tab holds the file text verbatim, is saved, is named after the file and remembers it as its path; its id reads back as the clock reading; saving it at once offers the file's own name |
| Tabs.DownloadName | components/code-editor.tsx:292 | a non-empty path is used as is; otherwise the name if it ends in `.lua`, else the name plus `.lua`; the result then always ends in `.lua` |
| Tabs.OpenThenSave | components/code-editor.tsx:258-301 | a file opened and saved straight away is offered with the same content under the same file name |
| Tabs.Active | components/code-editor.tsx:191 | the active tab is a member of the list. It has the active id when that id is open, else it is the first tab |
| Tabs.Close | components/code-editor.tsx:215-243 | closing keeps the invariant: at least one tab, distinct ids, an active id that is open; declining to discard an unsaved tab leaves the session unchanged |
| Tabs.CloseRemovesTarget | components/code-editor.tsx:236-242 | closing one of several tabs removes exactly that tab and keeps the rest in order. The last remaining tab becomes active only if the closed tab was active |
| Tabs.CloseLastResets | components/code-editor.tsx:229-233 | closing the only tab leaves the single default tab (`tab-1`, "New Script", empty, saved), active |
| Tabs.CloseKeepsUnsaved | components/code-editor.tsx:220-227 | closing an open tab without confirmation never drops an unsaved tab |
| Editor.Accepted | components/code-editor.tsx:622-625 | the accepted tab is the same document, now unsaved; its text keeps what preceded the word, holds the value just before the new caret, and keeps what followed the old caret right after it; with the stored caret past the end, the value is appended |
| Editor.AcceptAt | components/code-editor.tsx:614-625 | the left scan and the two `substring` calls produce exactly the accepted text, and the caret lands right after the value |
| Editor.CodeEditor.constructor | components/code-editor.tsx:160-188 | the editor starts with the Luau catalog as its suggestion list, the default tab active, the pop-up hidden, and no busy flag or message |
| Editor.CodeEditor.ActiveTab | components/code-editor.tsx:191 | the active tab is in the list and, with the invariant, carries the active id (the `tabs[0]` fallback is never taken) |
| Editor.CodeEditor.CreateNewTab | components/code-editor.tsx:202-212 | appends an empty saved tab named `Script n+1` with a fresh id, makes it active, keeps the invariant |
| Editor.CodeEditor.SelectTab | components/code-editor.tsx:705 | makes the clicked tab active |
| Editor.CodeEditor.CloseTab | components/code-editor.tsx:215-243 | the new tab list and active id are those of `Close`, so a declined discard changes nothing |
| Editor.CodeEditor.DeleteActiveTab | components/code-editor.tsx:385-395 | declined: nothing changes; confirmed: the active tab is closed as by `Close` |
| Editor.CodeEditor.OpenFile | components/code-editor.tsx:253-279 | a read file becomes a new saved, active tab. Its name and path are the file name and its content is the file text verbatim. A failed read changes nothing |
| Editor.CodeEditor.SaveFile | components/code-editor.tsx:282-302 | offers the active tab's content under its download name and marks only that tab saved, content unchanged |
| Editor.CodeEditor.UpdateTabContent | components/code-editor.tsx:543-582 | only the active tab takes the content and becomes unsaved, even when the content is unchanged. With a caret, the word at the caret decides the pop-up and the anchor follows the caret |
| Editor.CodeEditor.ReplaceActiveContent | components/code-editor.tsx:546 | only the active tab takes the content and becomes unsaved; the invariant is kept |
| Editor.CodeEditor.RefreshSuggestions | components/code-editor.tsx:552-579 | the caret and current word are stored; the pop-up is the one for that word over the editor's catalog, and the anchor moves only when the pop-up shows |
| Editor.CodeEditor.ApplySuggestion | components/code-editor.tsx:610-644 | only the active tab changes, to the accepted content, unsaved. The pop-up hides and the caret goes right after the inserted value |
| Editor.CodeEditor.HandleKeyDown | components/code-editor.tsx:585-607 | keys are ignored while hidden. Arrows move the highlight within bounds. Tab and Enter accept the highlighted candidate. Escape hides without touching content. Other keys pass through |
| Editor.CodeEditor.DismissOnClick | components/code-editor.tsx:677-681 | a click in the textarea hides the pop-up |
| Editor.CodeEditor.Execute | components/code-editor.tsx:398-462 | a blank script sets "Cannot execute empty code", sends nothing and leaves the busy flag. Otherwise the script is sent (or the throw is classified) and the busy flag ends cleared |
| Editor.CodeEditor.Inject | components/code-editor.tsx:325-382 | sends the fixed `inject` payload (or classifies the throw with the injection prefix) and ends with its busy flag cleared |

## Left out

- Syntax highlighting (`luauSyntax`, `highlightLuau`): the Prism grammar and tokenizer are an external library configured by regular expressions.
- The pop-up's `left` coordinate: it comes from measuring rendered text in an off-screen DOM element.
- The network request, its promise chain, the `AbortController` and the 10-second timer. The request's outcome never reaches the component's state. `Execute` and `Inject` take only an optional value thrown inside the inner `try` around `fetch`.
- The file picker, the Blob download, the clipboard copy with its `copySuccess` indicator, and the `alert`/`confirm` dialogs. Dialog answers are parameters; the download is returned as a value.
- React wiring: effects, scroll synchronisation, focus and caret placement through `setTimeout` (the new caret is returned instead), and the global key listener that only suppresses default actions. Stale closures are left out too: `handleKeyDown`'s dependency list and the `tabs` that `handleFileSelect` captured before its `await`. The model always reads current state.
- Concurrency between the asynchronous file read and other handlers.
- Text encoding: strings are sequences of Unicode scalar values, while JavaScript indexes UTF-16 code units. Offsets differ for characters outside the Basic Multilingual Plane.
- Case folding beyond ASCII: `ToLower` maps only `A`-`Z`. This is exact for the catalog labels and for every word the detector returns, which are ASCII.
- Dispatch.Thrown: an `Error` object whose `name` property was reassigned is modelled by that name, except that a `TypeError` is always named `TypeError`; renaming a `TypeError` to `AbortError` is not modelled.
- The rendering (JSX) of the tab bar, buttons, gutter, pop-up and messages.
