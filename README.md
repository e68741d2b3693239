# Task-manager state store

A model of the in-memory state held by the `App` component of the
imperative task manager (`gestor-tareas-imperativo/app.js`). The state has
three parts:

- the users, an ordered list of `{name, tasks}`, where each task is `{text, completed}`;
- the selected user, an optional index into that list;
- the theme, light or dark.

The component hands eight commands to its views. These are `addUser`,
`selectUser`, `deselectUser`, `addTask`, `toggleTask`, `deleteTask`,
`editTask` and `toggleTheme`. The sidebar also shows a
"completed / total" count for the selected user.

Files and modules:

- `text.dfy` (module `Text`) models JavaScript's `String.prototype.trim`
  (ECMA-262, section 22.1.3.32). It removes leading and trailing WhiteSpace
  and LineTerminator code points (ECMA-262, sections 12.2 and 12.3).
- `tasks.dfy` (module `Tasks`) holds the `Task` and `User` values. It also
  holds the `filter(t => t.completed)` view and the per-task edits
  `Toggled`, `Removed` and `Edited`, which specify the store's task
  commands. Lemmas there relate each edit to the completed count.
- `store.dfy` (module `AppState`) holds the `Store` class. Its fields are
  `users`, `sel` and `theme`, and it has one method per command. Its
  invariant `Valid()` says two things. The selection is absent or a valid
  index. Every name and task text is non-empty and trimmed.
- `session.dfy` (module `Session`) holds short command sequences with the
  states they must reach: trimmed names in insertion order, no-ops without a
  selection, toggling twice, the 1 / 2 count, editing, deleting, and the
  theme alternating.

Rejected input is always a silent no-op. This covers a string that trims to
empty, and a task command issued with no user selected. Each method's
`ensures` states the whole new state for both cases. It also states that the
other fields are unchanged. Every method keeps `Valid()`, and no command
removes a user. So a valid selection stays valid after any later command.

Index policy. The source does no bounds checks. The model handles indices as
follows:

- `SelectUser` requires `index < |users|`. JavaScript would store any index,
  but the sidebar would then fail when it reads `users[index].name`.
- `ToggleTask` requires a valid task index when a user is selected.
  JavaScript fails on `undefined.completed` otherwise.
- `EditTask` requires a valid task index only when a user is selected and the
  trimmed text is non-empty. In the other cases the source returns before it
  reads the task.
- `DeleteTask` needs no precondition. `splice(i, 1)` with `i` at or past the
  end removes nothing, and the model does the same. The code defines this
  case, so the model does not treat it as a caller error.

## Model

| member | source | states |
|---|---|---|
| `Text.Trim` | gestor-tareas-imperativo/app.js:18-19 | `name.trim()` has white space at neither end, is no longer than its input, and is empty exactly when the input is all white space (the `!name.trim()` guard) |
| `Text.SkipLeading` | gestor-tareas-imperativo/app.js:18 | the scan for the left end of the trimmed text stops at the first non-white-space character and passes only white space |
| `Text.SkipTrailing` | gestor-tareas-imperativo/app.js:18 | the scan for the right end stops after the last non-white-space character and passes only white space |
| `Text.TrimIsSlice` | gestor-tareas-imperativo/app.js:18-19 | the trimmed string is a contiguous slice of the input, and what is cut off before and after it is white space only |
| `Text.TrimOfTrimmed` | gestor-tareas-imperativo/app.js:94-95 | a string that is already trimmed comes back unchanged, so the sidebar's pre-trim followed by the store's trim stores the same name |
| `Text.TrimIdempotent` | gestor-tareas-imperativo/app.js:94-95 | trimming twice gives what trimming once gives |
| `Tasks.CompletedTasks` | gestor-tareas-imperativo/app.js:130 | `tasks.filter(t => t.completed)` is never longer than the list |
| `Tasks.CompletedTasksExact` | gestor-tareas-imperativo/app.js:130 | the filter holds only completed tasks of the list and every completed task of it, and it is the whole list exactly when every task is completed |
| `Tasks.CompletedTasksConcat` | gestor-tareas-imperativo/app.js:130 | the filter of a concatenation is the concatenation of the filters, so the filter keeps the list's order |
| `Tasks.CompletedCount` | gestor-tareas-imperativo/app.js:130 | the completed count never exceeds the total, and is zero exactly when no task is completed |
| `Tasks.Toggled` | gestor-tareas-imperativo/app.js:40-41 | after a toggle, task `i` keeps its text and has its flag flipped; the length and every other task are unchanged |
| `Tasks.Removed` | gestor-tareas-imperativo/app.js:48 | `splice(i, 1)` shortens the list by one; tasks before `i` stay in place and tasks after it move down one place, in order |
| `Tasks.Edited` | gestor-tareas-imperativo/app.js:56 | after an edit, task `i` has the new text and keeps its flag; the length and every other task are unchanged |
| `Tasks.ToggledTwice` | gestor-tareas-imperativo/app.js:37-43 | toggling the same task twice restores the task list |
| `Tasks.CompletedCountToggled` | gestor-tareas-imperativo/app.js:40-41 | a toggle moves the completed count by exactly one, up when the task was open and down when it was done, and keeps the total |
| `Tasks.CompletedCountRemoved` | gestor-tareas-imperativo/app.js:48 | deleting a task lowers the completed count by one exactly when that task was completed |
| `Tasks.CompletedCountEdited` | gestor-tareas-imperativo/app.js:56 | editing a task's text leaves the completed count unchanged |
| `Tasks.CompletedCountAppended` | gestor-tareas-imperativo/app.js:33 | a newly added task is open, so adding it leaves the completed count unchanged while the total grows by one |
| `AppState.Flip` | gestor-tareas-imperativo/app.js:61 | toggling the theme always gives the other theme |
| `AppState.FlipTwice` | gestor-tareas-imperativo/app.js:60-62 | toggling the theme twice restores it |
| `AppState.Store.constructor` | gestor-tareas-imperativo/app.js:8-10 | the initial state has no users, no selection and the light theme, and satisfies the invariant |
| `AppState.Store.AddUser` | gestor-tareas-imperativo/app.js:17-20 | a name that trims to empty changes nothing; otherwise exactly one user `{Trim(name), []}` is appended after the unchanged earlier users; selection and theme are unchanged; the invariant is kept |
| `AppState.Store.SelectUser` | gestor-tareas-imperativo/app.js:22-24 | the selection becomes `index`; users and theme are unchanged |
| `AppState.Store.DeselectUser` | gestor-tareas-imperativo/app.js:26-28 | the selection becomes none; users and theme are unchanged |
| `AppState.Store.AddTask` | gestor-tareas-imperativo/app.js:30-35 | with no selection or a blank text nothing changes; otherwise the selected user keeps their name and gets `{Trim(text), false}` appended, and every other user is unchanged |
| `AppState.Store.ToggleTask` | gestor-tareas-imperativo/app.js:37-43 | with no selection nothing changes; otherwise the selected user's tasks become `Toggled(tasks, i)`, their name and every other user are unchanged |
| `AppState.Store.DeleteTask` | gestor-tareas-imperativo/app.js:45-50 | with no selection, or an index at or past the end, nothing changes; otherwise the selected user's tasks become `Removed(tasks, i)`, their name and every other user are unchanged |
| `AppState.Store.EditTask` | gestor-tareas-imperativo/app.js:52-58 | with no selection or a blank text nothing changes; otherwise the selected user's tasks become `Edited(tasks, i, Trim(newText))`, their name and every other user are unchanged |
| `AppState.Store.ToggleTheme` | gestor-tareas-imperativo/app.js:60-62 | the theme becomes `Flip` of the old theme; users and selection are unchanged |
| `AppState.Store.Progress` | gestor-tareas-imperativo/app.js:130 | the sidebar's pair is (completed, total) for the user: the total is the length of the task list, the completed count never exceeds it, and it is zero exactly when no task is done |

## Left out

- React rendering (`Sidebar`, `Main`, `TaskList`, `TaskItem`, app.js:88-221): layout and event wiring, no state of the store.
- The views' text buffers (app.js:91, :145) and the sidebar's own pre-trim (app.js:93-97): these are transient UI state. The store trims again, and `TrimOfTrimmed` shows that is harmless.
- The `useEffect` that writes `document.body.className` (app.js:12-14): a DOM side effect.
- The `prompt` dialog and its `null` check (app.js:200-201): the browser's input mechanism. Only the resulting `EditTask(i, s)` call is modelled.
- The `createContext`/`Provider` wiring (app.js:4-5, :64-85) and the `ReactDOM` mount (app.js:224-226): plumbing that only passes the store to the views.
- React's `setState` batching and stale closures. Each command is one atomic transition on the current state.
- The aliasing caused by the shallow `[...users]` copy (app.js:32, :39, :47, :55). The nested task arrays of the previous snapshot are mutated in place too. The model's users are values, so there is no earlier snapshot to alias.
- Negative indices. All indices are `nat`. JavaScript's `splice(-1, 1)` would remove the last task, and `tasks[-1]` is `undefined`.
- AppState.Store.SelectUser: requires `index < |users|`. The source stores any number, and an out-of-range selection would break the invariant and the sidebar.
- AppState.Store.ToggleTask: requires a valid task index when a user is selected. The source fails at run time otherwise.
- AppState.Store.EditTask: requires a valid task index when a user is selected and the text is not blank. The source fails at run time otherwise.
- The theme is the enumeration `Light | Dark`, not a string. The source only ever stores `"light"` or `"dark"`. "Anything other than light becomes light" is then the same as "dark becomes light".
- The WhiteSpace set follows the Unicode category Zs in its current version. ECMA-262 fixes no Unicode version, and the set has changed over time (U+180E left Zs in Unicode 6.3).
