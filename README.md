# Todo list: a Dafny model of the task-list state

The application is a single React component (`src/App.jsx`) that keeps an
ordered list of tasks `{id, text, completed}` and the text of an input field.
Submitting the form appends a task, a checkbox flips a task's `completed`
flag, a button deletes a task, and the page shows the list split into an
"active" and a "completed" column with a count above each. The list is read
from the browser's `localStorage` when the component mounts and written back
whenever it changes.

Every handler builds a new list from the old one (array spread, `map`,
`filter`) and replaces the state, so the model is functional: datatypes for
the task and the state, functions from the old state to the new one, and
lemmas about them.

- `text.dfy`, module `Text`: `String.prototype.trim` and the blank-input test.
- `sequences.dfy`, module `Sequences`: `Array.prototype.filter` and the
  notions of subsequence and interleaving used to say that filters keep order.
- `todos.dfy`, module `TodoList`: the task record, the state, `addTodo`,
  `toggleTodo`, `deleteTodo` and the two views.
- `app.dfy`, module `App`: the store entry, loading at mount, the write-through
  after each change, user actions as events, and a sample session.

Three points of behaviour are easy to get wrong; the model does what the code
does:

- The stored text of a new task is the input exactly as typed; only the
  blankness test trims it (`src/App.jsx:24-27`). It is not stored trimmed.
- A stored entry that `JSON.parse` rejects is not read as an empty list: the
  parse throws inside the state initialiser and the component does not mount
  (`src/App.jsx:9`). `App.Startup` returns `None` for it.
- An empty stored string is falsy and gives an empty list, like a missing entry.

## Model

| member | source | states |
|---|---|---|
| `Text.LeadingBlanks` | src/App.jsx:24 | the count is the length of the whitespace run at the start: every character before it is whitespace and the one at it, if any, is not |
| `Text.TrailingBlanks` | src/App.jsx:24 | the count is the length of the whitespace run at the end: every character in the last `n` is whitespace and the one before them, if any, is not |
| `Text.Trim` | src/App.jsx:24 | the trimmed text is no longer than the input and, when not empty, neither starts nor ends with whitespace |
| `Text.TrimIsCoreSlice` | src/App.jsx:24 | `trim` returns a contiguous slice `s[i..j]` of the input, everything outside it is whitespace, and a non-empty slice neither starts nor ends with whitespace |
| `Text.TrimEmptyIffBlank` | src/App.jsx:24 | the trimmed input is empty (falsy) exactly when every character of the input is whitespace |
| `Sequences.Filter` | src/App.jsx:18-19 | `filter` returns no more elements than it got, and every element it returns passes the test |
| `Sequences.FilterMembers` | src/App.jsx:18-19 | every element a filter returns is an element of its input, and every element of the input that passes the test is returned |
| `Sequences.FilterIsSubsequence` | src/App.jsx:42 | a filter's result is an order-preserving subsequence of its input |
| `Sequences.FilterSplitInterleaves` | src/App.jsx:18-19 | a filter and the filter with the opposite test interleave to the input |
| `Sequences.InterleavingSubsequences` | src/App.jsx:18-19 | the parts of an interleaving are order-preserving subsequences of the whole |
| `Sequences.InterleavingMultiset` | src/App.jsx:18-19 | the parts of an interleaving hold exactly the elements of the whole with multiplicity, and their lengths add up to its length |
| `Sequences.FilterAppend` | src/App.jsx:18-19 | filtering a concatenation is concatenating the filtered parts |
| `Sequences.FilterIdempotent` | src/App.jsx:42 | filtering again with the same test changes nothing |
| `Sequences.FilterLength` | src/App.jsx:42 | the result is shorter than the input by the number of elements that fail the test |
| `Sequences.FilterUnchangedIffAllKept` | src/App.jsx:42 | a filter returns its input unchanged exactly when every element passes the test |
| `TodoList.ActiveTodos` | src/App.jsx:18 | every task in the active column is not completed |
| `TodoList.CompletedTodos` | src/App.jsx:19 | every task in the completed column is completed |
| `TodoList.ViewsPartition` | src/App.jsx:18-19 | the two columns interleave to the list, each keeps list order, a task is in the active column exactly when it is not completed and in the completed one exactly when it is, and the two counts shown at lines 62 and 82 add up to the number of tasks |
| `TodoList.AddTodo` | src/App.jsx:22-33 | blank input leaves the list and the input as they were; otherwise exactly one task is appended after the unchanged earlier tasks, carrying the given id, the untrimmed input and `completed = false`, and the input is cleared |
| `TodoList.AddTodoViews` | src/App.jsx:24-30 | after a successful add the new task is last in the active column and the completed column is unchanged |
| `TodoList.AddTodoKeepsIdsUnique` | src/App.jsx:25-30 | if the new id is not in use and ids were unique, they stay unique |
| `TodoList.ToggleTodo` | src/App.jsx:35-39 | toggling keeps the length of the list |
| `TodoList.ToggleTodoAt` | src/App.jsx:36-38 | every task keeps its position, id and text; `completed` changes exactly on the tasks whose id matches; other tasks are unchanged |
| `TodoList.ToggleTodoTwice` | src/App.jsx:36-38 | toggling the same id twice gives back the original list |
| `TodoList.ToggleTodoUnchangedIffAbsent` | src/App.jsx:36-38 | toggling leaves the list unchanged exactly when no task has the id |
| `TodoList.ToggleTodoActiveCount` | src/App.jsx:36-38 | the active count after a toggle is the old one minus the matching active tasks plus the matching completed ones |
| `TodoList.ToggleTodoKeepsIdsUnique` | src/App.jsx:36-38 | toggling keeps ids unique |
| `TodoList.DeleteTodo` | src/App.jsx:41-43 | no remaining task has the id, every remaining task was in the list, and every task with another id remains |
| `TodoList.DeleteTodoKeepsOrder` | src/App.jsx:42 | the remaining tasks keep their relative order |
| `TodoList.DeleteTodoLength` | src/App.jsx:42 | the list shrinks by the number of tasks with the id |
| `TodoList.DeleteTodoIdempotent` | src/App.jsx:42 | deleting the same id again changes nothing |
| `TodoList.DeleteTodoUnchangedIffAbsent` | src/App.jsx:42 | deleting leaves the list unchanged exactly when no task has the id |
| `TodoList.FilterKeepsIdsUnique` | src/App.jsx:42 | any filter of a list with unique ids has unique ids |
| `TodoList.DeleteTodoKeepsIdsUnique` | src/App.jsx:42 | deleting keeps ids unique |
| `TodoList.CountWithIdUnique` | src/App.jsx:42 | with unique ids an id is carried by one task if present and by none otherwise |
| `TodoList.DeleteTodoUniqueDropsOne` | src/App.jsx:42 | with unique ids, deleting a present id removes exactly one task and deleting an absent one removes none |
| `App.LoadTodos` | src/App.jsx:8-9 | reading fails exactly on an entry `JSON.parse` rejects; a missing entry and a stored empty string both give the empty list |
| `App.SaveTodos` | src/App.jsx:15 | the saved entry reads back as exactly the saved list, whatever was stored before |
| `App.Startup` | src/App.jsx:6-16 | mounting fails exactly on an unparseable entry; with no entry the list is empty; with a saved list that list is shown; the shown list is what reading the entry gives; the input starts empty and the store holds the shown list |
| `App.Step` | src/App.jsx:14-43 | every user action keeps the store equal to the list on the page; typing changes only the input; a blank submission changes nothing; a non-blank submission gives the `addTodo` state and stores its list; a checkbox click or a delete click replaces the list with the toggled or filtered one, keeps the input and stores the new list |
| `App.Run` | src/App.jsx:14-16 | any sequence of actions keeps the store equal to the list on the page |
| `App.ReloadRestoresList` | src/App.jsx:8-15 | after any actions since a successful mount, mounting again shows the last list with an empty input |
| `App.DeleteIsDurable` | src/App.jsx:15-42 | after a delete, from any session, what the store reads back has no task with that id |
| `App.TypeAndSubmit` | src/App.jsx:24-31 | typing a non-blank text and submitting it appends one active task with that text, clears the input and stores the new list |
| `App.BlankSubmit` | src/App.jsx:24 | typing a blank text and submitting it changes only the input field; the list and the store stay as they were |
| `App.AddTickAddScenario` | src/App.jsx:18-43 | from an empty store, add, tick, add: the active column holds the second task, the completed column the first, the input is empty, and a blank submission afterwards changes only the input |
| `App.BuyMilkScenario` | src/App.jsx:18-43 | the same session with "Buy milk" and "Walk dog" |
| `App.RunAppend` | src/App.jsx:14-16 | running two batches of actions is running one after the other |

## Left out

- Rendering: the JSX, the form, the checkbox and button wiring and
  `e.preventDefault()` (`src/App.jsx:23`, `44-103`). User actions enter the
  model as `App.Event` values.
- `Date.now()` as the id source: the new id is a parameter of `AddTodo` and of
  the `Submitted` event. Nothing guarantees distinct ids, so uniqueness is only
  proved to be preserved when the caller supplies a fresh id.
- `localStorage` and JSON: the entry is abstracted to a missing entry, an empty
  string, the encoding of a list, or text `JSON.parse` rejects. Valid JSON that
  is not a list of tasks (for example `null` or `5`) cannot be represented:
  in the code it parses without error and the component then throws at
  `todos.filter` (`src/App.jsx:18`).
- React scheduling: the write-through effect is modelled as running right
  after each handler that replaced the list, and once at mount.
- `trim` whitespace is the fixed set of ECMAScript WhiteSpace and
  LineTerminator code points, with the space separators of current Unicode;
  strings are sequences of Unicode scalar values, not UTF-16 code units.
- Ids are unbounded integers, not JavaScript numbers.
- The indexed-store variant of the application, its timestamps and its
  "clear completed" operation are not part of this model.
