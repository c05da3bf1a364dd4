# Task list store, modelled in Dafny

A model of the state logic of a browser to-do list (`script.js`). The page keeps its tasks as a JSON array under the `tasks` key of `localStorage` and the selected view under the `filter` key. The load, add, toggle, save-edit, delete and clear-completed handlers read the whole array, transform it with `filter`, `map` or `push`, and write it back; `checkCompletedStatus` and `filterTasks` read it and query it with `some` and `filter`. The clear-all handler only removes the key, and a filter click only stores the filter name. The model has:

- `JsString`: `String.prototype.trim`, used by both validation guards.
- `JsArray`: `filter`, `map` and `some` over sequences. `Filter` is fully specified: its result is a subsequence of the input and holds every kept value exactly as often as the input does.
- `TaskList`: the stored `Task`, the raw array `Entry` (`null`, a value without a numeric id, or a task), and each handler's callback as a function on raw entries. The lemmas give the frame, order and idempotence properties of each one.
- `TaskApp.TaskStore`: a class with one field per piece of page state and one method per handler. The fields are the two storage keys, `currentFilter`, `taskBeingEdited`, the overlay's visibility and the clear-completed button's `disabled` flag. Each method's contract ties the new state to the `TaskList` function of the old state. `Valid()` says every stored entry is a task. `Load` establishes it and every other handler keeps it.
- `Scenarios`: three sessions with the page (load, add-complete-clear, blank input), replayed against the `TaskApp` contracts and the `TaskList` lemmas.

Notes on behaviour, taken from the code:

- `addTask` stores the input as typed, not trimmed. The trimmed text is used only to reject blank input. Save-edit stores the trimmed text.
- Closing the edit overlay hides it. A click on the backdrop hides it too. Neither clears `taskBeingEdited`. Only a successful save clears it.
- `deleteTask` and the clear-all handler do not call `checkCompletedStatus`. The button's `disabled` flag keeps its old value there, and the model says so. Every other handler that changes storage or the filter refreshes the flag, directly or through `filterTasks`, and the model sets it to `!HasCompleted(stored)`. The pen, close and backdrop handlers and both blank-input paths leave it alone, and so does the model.
- Loading checks only the id (`typeof task.id === 'number'`). `completed` is read by JavaScript truthiness everywhere. The model therefore keeps each entry's truthiness, and that truthiness decides every operation.
- A filter name other than `all`, `completed` or `pending` shows nothing. An empty stored filter name reads back as `all`.
- `Delete` also removes `null` entries, and the clear-completed filter removes every falsy entry.

## Model

| member | source | states |
|---|---|---|
| JsString.TrimStart | script.js:157 | the result is no longer than the input (TrimStartCuts says which part is kept) |
| JsString.TrimStartCuts | script.js:157 | the leading cut keeps a suffix; everything cut is white space and what is kept does not start with white space |
| JsString.TrimEnd | script.js:157 | the result is no longer than the input (TrimEndCuts says which part is kept) |
| JsString.TrimEndCuts | script.js:157 | the trailing cut keeps a prefix; everything cut is white space and what is kept does not end with white space |
| JsString.Trim | script.js:157 | the result is no longer than the input |
| JsString.TrimEnds | script.js:157 | the trimmed string neither starts nor ends with white space |
| JsString.TrimWindow | script.js:157 | `trim` returns a window of its input with only white space outside it |
| JsString.TrimEmptyIff | script.js:17 | an input trims to `''` exactly when every character is white space (the add and save guards) |
| JsString.TrimUnchanged | script.js:157 | a string with no white space at either end trims to itself |
| JsString.TrimIdempotent | script.js:157 | trimming twice equals trimming once |
| JsArray.Filter | script.js:30 | `filter` keeps exactly the elements that pass, and is no longer than its input |
| JsArray.FilterCount | script.js:30 | each kept value occurs as often as in the input; other values do not occur |
| JsArray.FilterIsSubsequence | script.js:30 | `filter` preserves the order of what it keeps |
| JsArray.FilterIdempotent | script.js:190 | filtering twice with one callback equals filtering once |
| JsArray.FilterUnchangedIff | script.js:30 | `filter` returns its input exactly when every element passes |
| JsArray.FilterEmptyIff | script.js:206-210 | `filter` returns `[]` exactly when no element passes |
| JsArray.FilterCongruent | script.js:230 | callbacks that agree on the elements give the same result |
| JsArray.FilterPartition | script.js:206-210 | complementary callbacks split the input: the multisets add up to it, and so do the lengths |
| JsArray.Map | script.js:114-119 | `map` keeps the length and applies the callback at every position |
| JsArray.MapInvolution | script.js:114-119 | mapping twice with a self-inverse callback restores the input |
| JsArray.Any | script.js:237 | `some` holds exactly when some element satisfies the callback |
| TaskList.Sanitise | script.js:29-31 | loading leaves only tasks, exactly the tasks of the stored array |
| TaskList.SanitiseKeepsOrder | script.js:30 | load keeps the tasks in their original order and multiplicity and drops everything else |
| TaskList.SanitiseIdempotent | script.js:29-31 | sanitising a sanitised list changes nothing |
| TaskList.SanitiseUnchangedIff | script.js:29-31 | load leaves a stored list unchanged exactly when every entry is a task (save/load round trip) |
| TaskList.Append | script.js:83 | `push` appends exactly one entry at the end and leaves the earlier entries unchanged |
| TaskList.AppendKeepsInvariants | script.js:74-84 | adding a task keeps a well-formed list well formed; with a clock past every stored id, ids stay unique |
| TaskList.Toggle | script.js:114-119 | the toggled list has the same length, no `null`, and the same entries carrying the id at the same positions (ToggleFrame gives each entry) |
| TaskList.ToggleFrame | script.js:113-120 | toggle flips `completed` on exactly the tasks with that id; id, text, length, order and other entries are unchanged |
| TaskList.ToggleTwice | script.js:113-120 | toggling the same id twice restores the list |
| TaskList.ToggleCommutes | script.js:113-120 | toggles of two ids commute |
| TaskList.ToggleKeepsIds | script.js:113-120 | toggling keeps the list well formed and every id in place |
| TaskList.Rename | script.js:167-172 | saving keeps the length and every entry's `completed` truthiness (RenameFrame gives each entry) |
| TaskList.RenameFrame | script.js:166-172 | the edited id's tasks get the new text with id and flag kept; every other entry is unchanged, and so is everything when no edit is open |
| TaskList.RenameIdempotent | script.js:166-172 | saving the same text twice equals saving once |
| TaskList.RenameKeepsFlags | script.js:166-172 | saving keeps the list well formed and `null`-free and changes no `completed` flag |
| TaskList.Delete | script.js:188-191 | after a delete no `null` and no task with that id remain, and every other entry survives |
| TaskList.DeleteKeepsOrder | script.js:190 | survivors keep their relative order and multiplicity |
| TaskList.DeleteIdempotent | script.js:188-191 | deleting twice equals deleting once |
| TaskList.DeleteKeepsWellFormed | script.js:188-191 | deleting keeps a task-only list task-only |
| TaskList.ParseFilter | script.js:204-210 | a name is unrecognised exactly when it is not `all`, `completed` or `pending`, and an unrecognised name is kept as it is |
| TaskList.FilterNameRoundTrip | script.js:39-40 | the stored filter name and the filter value correspond one to one |
| TaskList.InitialFilter | script.js:12 | with no stored filter, or an empty one, the view is `all`; otherwise it is the stored name parsed, so always a canonical value |
| TaskList.InitialFilterRestores | script.js:12 | a stored filter name survives a reload exactly when it is not empty |
| TaskList.Visible | script.js:206-210 | a view is an order-preserving sublist of the stored list (VisibleAllAndUnknown and VisiblePartition say which) |
| TaskList.VisibleAllAndUnknown | script.js:204-210 | `all` shows the whole list; an unknown filter shows nothing |
| TaskList.VisiblePartition | script.js:206-210 | `completed` and `pending` show the ordered sublists of completed and of pending entries and together partition the list |
| TaskList.ClearCompleted | script.js:228-233 | clear-completed keeps exactly the truthy, uncompleted entries and leaves no `null` |
| TaskList.HasCompleted | script.js:235-239 | the query holds exactly when some entry is completed |
| TaskList.ClearCompletedClears | script.js:228-238 | after clear-completed no entry is completed, and clearing again changes nothing |
| TaskList.ClearCompletedIsPendingView | script.js:206-230 | on a task-only list, clear-completed keeps exactly what the `pending` view shows |
| TaskList.HasCompletedIffVisible | script.js:235-239 | the query holds exactly when the `completed` view is non-empty |
| TaskApp.TaskStore.constructor | script.js:11-12 | at start no edit is open, and the filter is read from storage with `all` as default |
| TaskApp.TaskStore.CheckCompletedStatus | script.js:235-239 | the clear-completed button is disabled exactly when no stored entry is completed |
| TaskApp.TaskStore.Load | script.js:28-48 | storage is replaced by its sanitised form (so `Valid()` holds) and the button state is refreshed |
| TaskApp.TaskStore.VisibleTasks | script.js:204-210 | the list `filterTasks` renders is an order-preserving sublist of storage: the stored list under `all`, empty under an unknown filter, and the completed or the pending entries otherwise |
| TaskApp.TaskStore.SelectFilter | script.js:38-44 | the filter becomes the clicked name, is persisted as given, and the button state is refreshed |
| TaskApp.TaskStore.SubmitTask | script.js:62-89 | blank input (the same guard as the Enter key handler at lines 15-24) shows the message and changes nothing; otherwise exactly one new task is appended and the message is cleared |
| TaskApp.TaskStore.ToggleTask | script.js:113-121 | storage becomes its toggle for the row's id and the button state is refreshed |
| TaskApp.TaskStore.OpenEdit | script.js:129-134 | the overlay is shown and `taskBeingEdited` becomes the row's id |
| TaskApp.TaskStore.CloseEdit | script.js:146-148 | the overlay is hidden; storage and `taskBeingEdited` are unchanged |
| TaskApp.TaskStore.ClickOverlay | script.js:150-154 | only a click on the backdrop hides the overlay; nothing else changes |
| TaskApp.TaskStore.SaveEdit | script.js:156-180 | a blank draft shows the message and changes nothing; otherwise the edited tasks get the trimmed text, the edit closes and `taskBeingEdited` becomes null |
| TaskApp.TaskStore.DeleteTask | script.js:188-191 | storage becomes its delete for the id; the button state is unchanged |
| TaskApp.TaskStore.ClickRow | script.js:103-134 | a body click toggles, the edit icon opens the edit, and the delete icon deletes without toggling |
| TaskApp.TaskStore.ClearAll | script.js:221-226 | with confirmation storage becomes empty, and without it nothing changes |
| TaskApp.TaskStore.ClearCompletedTasks | script.js:228-233 | storage keeps exactly the pending tasks and afterwards the button is disabled |

## Left out

- Rendering: `displayTasks` markup, `highlightActiveFilterButton`, the span class flip at line 110, the in-place text update at line 175, the clearing of the input fields (lines 86 and 177), and line 133, which fills the edit field with the task's text. These are DOM updates with no stored state.
- TaskApp.TaskStore.SaveEdit: assumes the query at line 175 finds the edited row. It fails when the edited row leaves the page while the overlay is open: a pen click during the delete fade (lines 193-200), or during the 200 ms before `filterTasks` re-renders (lines 212-218). The source then writes storage at line 174 but throws at line 175, so the overlay stays open and `taskBeingEdited` keeps its id; the model closes the edit in that case too.
- Timers: the fade transitions and the 200 ms delay before `filterTasks` re-renders. The refresh is modelled as immediate.
- The canvas animation (lines 241-291): floating point, `Math.random` and drawing. It is decorative.
- `JSON.parse` and `localStorage`: storage is the parsed array. Unparsable text, which makes `JSON.parse` throw, is not modelled. A stored value that is not an array is not modelled either, nor is the reset to `[]` at line 81.
- `Date.now()`, `confirm()`, the typed input, the edit draft and the clicked filter button's name are method parameters.
- TaskList.Toggle: requires no `null` entry. The `map` callback reads `null.id` and throws a TypeError, and that exception outcome is not modelled. The stored list after loading has no `null`.
- TaskList.Visible: under `completed` or `pending` it requires no `null` entry, because the `filter` callback reads `null.completed` on every entry and throws.
- TaskList.HasCompleted: requires no `null` entry, which is stronger than the source needs. `some` at line 237 stops at the first completed entry, so `[completed task, null]` gives true there; only a `null` before every completed entry throws.
- TaskList.ToggleTwice: `completed` is kept only as its truthiness. The source's `!t.completed` stores a boolean, so a stored truthy non-boolean such as `1` comes back as `true` after two toggles. The lemma's equality therefore holds of the source only up to truthiness.
- TaskList.Task: ids are integers. A stored id that is a non-integer number, `NaN` or `Infinity` is not modelled. Nor is a task whose `userText` is missing or not a string.
- TaskList.Rename: an entry whose `id` is literally `null` matches `taskBeingEdited === null` in the source. The model treats such an entry as never matching.
- JsString.IsWhiteSpace: characters are Unicode scalar values, while JavaScript strings are UTF-16 code units. All white space that `trim` strips lies in the Basic Multilingual Plane, so the result is the same.
