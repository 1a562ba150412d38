# A to-do card and its reducers, in Dafny

This project models the state logic of a small React to-do widget. The widget is a
card where the user types a task and presses Enter to add it. Clicking a row toggles
the task's completion. Each row's "..." menu offers Edit and Delete. Three filter
buttons (All, Pending, Completed) choose which tasks are shown, and "Clear All" empties
the list.

- `TodoData` (`todo_data.dfy`): the value types of `src/data/todo.ts`. These are `Todo`
  (ID, name, completion flag), `Filter` and `Anchor`. The anchor is reduced to the ID
  of the task whose menu is open. The module also defines the words the properties
  use: `HasId`, `UniqueIds`, `IsSubsequence` and `Toggled`.
- `HooksReducer` (`hooks_reducer.dfy`): the reducer the card uses. Its state is the
  task list, the task under edit, the open menu and the filter. `Step` is
  `todoReducer`, a total function over a closed `Action` datatype with seven kinds.
  Update and delete address tasks by `taskID`.
- `StoreReducer` (`store_reducer.dfy`): an older reducer over the task list alone. It
  has add, clear, and toggle and delete by list index.
- `JsString` (`js_string.dfy`): `String.prototype.trim` as the card uses it. It strips
  ECMAScript white space and line terminators from both ends.
- `TodoCard` (`todo_card.dfy`): the card component. Two parts are pure: the filter
  projection `FilteredTodoList` and the title shortening `DisplayTitle`. The event
  handlers are methods of a class `TodoCard`. Its `state` field is the `useReducer`
  state and its `inputValue` field is the text in the new-task box. `Dispatch` applies
  one reducer step, and each handler issues the same one or two dispatches as the
  component. A few client methods at the end drive the card through typical sessions.

Behaviour is modelled as the code has it:

- CLEAR_ALL empties the list but keeps the task under edit and the open menu.
- DELETE_TODO in the reducer keeps the task under edit. Only the card's `deleteTodo`
  handler also closes the menu.
- Committing an edit stores the working name without any blank check. Only adding a
  task trims and rejects blank input.
- Clicking a row toggles the task even while it is under edit. The edit state only
  disables the checkbox inside the row, and the click handler sits on the row's
  enclosing box.
- A title is shortened when its length is 25 or more. A name of exactly 25 characters
  is therefore shown whole with "..." appended.
- Task IDs come from the clock, so they are distinct only if no two tasks are added in
  the same millisecond. The model passes the clock reading in as `now`. It proves that
  distinct IDs are kept whenever `now` is not already in the list.

## Model

| member | source | states |
|---|---|---|
| `TodoData.Toggled` | src/store/reducer.ts:57 | flipping a task keeps its ID and its name and inverts its completion flag |
| `JsString.Trim` | src/components/TodoCard/TodoCard.tsx:35 | the trimmed name is no longer than the input and has no white space at either end |
| `JsString.TrimIsSlice` | src/components/TodoCard/TodoCard.tsx:35 | the trimmed name is some contiguous slice of the input such that everything cut off on either side of it is white space |
| `JsString.TrimUnique` | src/components/TodoCard/TodoCard.tsx:35 | any non-empty slice that starts and ends with a non-white-space character and has only white space outside it is the trimmed name, so the slice of `TrimIsSlice` is the only one |
| `JsString.TrimEmptyIffBlank` | src/components/TodoCard/TodoCard.tsx:35-37 | the trimmed name is empty exactly when the input is empty or all white space, which is when `if (taskName)` fails |
| `HooksReducer.InitialStateIsEmpty` | src/hooks/reducer.ts:63-68 | the initial state has no tasks, no task under edit, no open menu and filter `All`; its list has distinct IDs |
| `HooksReducer.Replace` | src/hooks/reducer.ts:81-85 | the mapped list has the length of the original |
| `HooksReducer.ReplaceAt` | src/hooks/reducer.ts:81-85 | at each position, an entry with the payload's ID becomes the payload and any other entry is kept |
| `HooksReducer.ReplaceKeepsIds` | src/hooks/reducer.ts:81-85 | updating never changes the ID at any position |
| `HooksReducer.ReplaceAbsent` | src/hooks/reducer.ts:78-86 | updating an ID that is not in the list leaves the list identical |
| `HooksReducer.RemoveId` | src/hooks/reducer.ts:91-93 | deleting never lengthens the list |
| `HooksReducer.RemoveIdIsSubsequence` | src/hooks/reducer.ts:91-93 | the remaining entries keep their order: the result is a subsequence of the list |
| `HooksReducer.RemoveIdCounts` | src/hooks/reducer.ts:91-93 | every entry with the deleted ID is gone, and every other entry occurs as often as before |
| `HooksReducer.RemoveIdMembers` | src/hooks/reducer.ts:91-93 | an entry survives exactly when its ID differs from the deleted one |
| `HooksReducer.RemoveIdAbsent` | src/hooks/reducer.ts:88-94 | deleting an absent ID leaves the list identical |
| `HooksReducer.RemoveIdRemoves` | src/hooks/reducer.ts:88-94 | after a delete the ID is absent, and the list got shorter exactly when the ID was present |
| `HooksReducer.Step` | src/hooks/reducer.ts:70-123 | add, update, delete and clear change the list alone, and the three setters leave the list alone; add lengthens the list by one, update keeps its length and delete never lengthens it. Each action is stated in full by `AddTodoAppends`, `UpdateTodoReplaces`, `DeleteTodoFilters`, `ClearTodoEmpties` and `SettersTouchOneField` |
| `HooksReducer.AddTodoAppends` | src/hooks/reducer.ts:72-76 | ADD_TODO makes the list one longer, keeps the old list as a prefix and puts the payload last |
| `HooksReducer.UpdateTodoReplaces` | src/hooks/reducer.ts:78-86 | UPDATE_TODO keeps length and order, matching entries become the payload and the rest are unchanged; an unknown ID leaves the whole state unchanged |
| `HooksReducer.DeleteTodoFilters` | src/hooks/reducer.ts:88-94 | DELETE_TODO keeps, in order, exactly the entries with another ID, each as often as it occurred, and leaves none with the deleted ID; applying it twice with the same task equals applying it once |
| `HooksReducer.ClearTodoEmpties` | src/hooks/reducer.ts:96-100 | CLEAR_ALL empties the list and keeps the task under edit, the open menu and the filter |
| `HooksReducer.SettersTouchOneField` | src/hooks/reducer.ts:102-118 | SET_EDITING_TODO, SET_ANCHOREL and SET_FILTER each replace their own field and leave the other three fields as they were |
| `HooksReducer.StepKeepsUniqueIds` | src/hooks/reducer.ts:72-100 | every action keeps the list's IDs pairwise distinct, provided an added task's ID is not already present |
| `StoreReducer.ToggleAt` | src/store/reducer.ts:55-58 | toggling by index keeps the length |
| `StoreReducer.ToggleAtOnly` | src/store/reducer.ts:55-58 | only the entry at the given index changes, and it changes to the same task with its flag flipped |
| `StoreReducer.ToggleAtTwice` | src/store/reducer.ts:55-58 | toggling the same index twice restores the list |
| `StoreReducer.ToggleAtOutOfRange` | src/store/reducer.ts:55-58 | toggling an index outside the list leaves it identical |
| `StoreReducer.DeleteAt` | src/store/reducer.ts:65-67 | deleting by index shortens the list by one exactly when the index is a position of the list, and otherwise keeps its length |
| `StoreReducer.DeleteAtSplices` | src/store/reducer.ts:65-67 | deleting an index inside the list gives the part before it followed by the part after it |
| `StoreReducer.DeleteAtOutOfRange` | src/store/reducer.ts:65-67 | deleting an index outside the list leaves it identical |
| `StoreReducer.InitialStateIsEmpty` | src/store/reducer.ts:39-41 | the initial state has no tasks, so toggling or deleting any index leaves it unchanged |
| `StoreReducer.Step` | src/store/reducer.ts:44-79 | add lengthens the list by one, toggle keeps its length, delete shortens it by one exactly when the index is a position of the list, and clear empties it. Each action is stated in full by `AddTodoAppends`, `ToggleTodoFlipsOne`, `DeleteTodoShifts` and `ClearTodoEmpties` |
| `StoreReducer.AddTodoAppends` | src/store/reducer.ts:46-50 | ADD_TODO makes the list one longer, keeps the old list as a prefix and puts the payload last |
| `StoreReducer.ToggleTodoFlipsOne` | src/store/reducer.ts:52-60 | TOGGLE_TODO keeps the length and every ID and name, and flips the flag at the given index only; applied twice it is the identity, and it is a no-op for an index outside the list |
| `StoreReducer.DeleteTodoShifts` | src/store/reducer.ts:62-68 | DELETE_TODO at an index inside the list shortens it by one, keeps the earlier entries and moves the later ones down by one; an index outside the list changes nothing |
| `StoreReducer.ClearTodoEmpties` | src/store/reducer.ts:70-74 | CLEAR_ALL yields the initial (empty) state from any state |
| `TodoCard.FilterBy` | src/components/TodoCard/TodoCard.tsx:91-95 | the rendered list is never longer than the task list |
| `TodoCard.FilterByIsSubsequence` | src/components/TodoCard/TodoCard.tsx:91-95 | the rendered list never reorders tasks: it is a subsequence of the task list |
| `TodoCard.FilterByCounts` | src/components/TodoCard/TodoCard.tsx:91-95 | a shown task occurs as often as in the list, and a hidden one not at all |
| `TodoCard.FilteredTodoList` | src/components/TodoCard/TodoCard.tsx:91-95 | the rendered list is an order-preserving selection from the task list, and under `All` it is the whole list. `Shown` is the callback passed to `filter` (all tasks, the pending ones or the completed ones); `FilteredTodoListSelects` and `FilterPendingCompletedPartition` state exactly which tasks each filter keeps |
| `TodoCard.FilteredTodoListSelects` | src/components/TodoCard/TodoCard.tsx:91-95 | `filteredTodoList` is an order-preserving subsequence of `todoList` holding exactly the tasks the active filter shows, with their multiplicities |
| `TodoCard.FilterAllIsIdentity` | src/components/TodoCard/TodoCard.tsx:91-92 | under `All` the rendered list is the whole task list |
| `TodoCard.FilterPendingCompletedPartition` | src/components/TodoCard/TodoCard.tsx:93-94 | the `Pending` and `Completed` views together hold every task exactly once, their lengths add up to the list's, and no task is in both |
| `TodoCard.ClearEmptiesEveryView` | src/components/TodoCard/TodoCard.tsx:91-95 | after CLEAR_ALL the rendered list is empty under every filter |
| `TodoCard.DisplayTitle` | src/components/TodoCard/TodoCard.tsx:220-222 | the shown title has at most 28 characters; a name shorter than 25 is shown whole, and a longer one as its first 25 characters followed by "..." |
| `TodoCard.DisplayTitleOf25` | src/components/TodoCard/TodoCard.tsx:220-222 | a name of exactly 25 characters is shown whole with "..." appended |
| `TodoCard.ToggleClickTwice` | src/components/TodoCard/TodoCard.tsx:186-188 | with distinct IDs, a row click flips that task's flag and no other entry, and a second click on the re-rendered task restores the state |
| `TodoCard.TodoCard.constructor` | src/components/TodoCard/TodoCard.tsx:24 | a mounted card starts in the reducer's initial state with an empty input box |
| `TodoCard.TodoCard.Dispatch` | src/components/TodoCard/TodoCard.tsx:24 | a dispatch replaces the state by one reducer step |
| `TodoCard.TodoCard.HandleFilterChange` | src/components/TodoCard/TodoCard.tsx:28-30 | the filter becomes the chosen one; the list, the task under edit and the open menu are unchanged |
| `TodoCard.TodoCard.CreateNewTodo` | src/components/TodoCard/TodoCard.tsx:32-51 | on Enter with a non-blank input, appends a pending task named by the trimmed input with ID `now` and clears the box; otherwise nothing changes; the stored name is non-empty with no white space at its ends; distinct IDs are kept when `now` is new |
| `TodoCard.TodoCard.ClearAllTodo` | src/components/TodoCard/TodoCard.tsx:53-55 | the list becomes empty; the task under edit, the open menu and the filter are unchanged |
| `TodoCard.TodoCard.UpdateTodo` | src/components/TodoCard/TodoCard.tsx:57-62 | entries with the task's ID become the task, the others and the rest of the state are unchanged, and distinct IDs stay distinct |
| `TodoCard.TodoCard.DeleteTodo` | src/components/TodoCard/TodoCard.tsx:64-67 | the task's ID is gone, the rest of the list is an order-preserving subsequence, the menu is closed, and the task under edit and the filter are unchanged |
| `TodoCard.TodoCard.SetEditClick` | src/components/TodoCard/TodoCard.tsx:69-71 | the given task becomes the task under edit; nothing else changes |
| `TodoCard.TodoCard.EditChange` | src/components/TodoCard/TodoCard.tsx:203-206 | the working copy under edit becomes the rendered task with the typed text as its name |
| `TodoCard.TodoCard.HandleEditSubmit` | src/components/TodoCard/TodoCard.tsx:73-81 | on Enter while a task is under edit, entries with the rendered task's ID get its ID and flag and the working name (blank or not), and the edit ends; otherwise nothing changes |
| `TodoCard.TodoCard.HandleEllipsisClick` | src/components/TodoCard/TodoCard.tsx:83-89 | clicking the menu icon of the task whose menu is open closes it, and any other click opens that task's menu; nothing else changes |
| `TodoCard.TodoCard.ToggleClick` | src/components/TodoCard/TodoCard.tsx:186-188 | entries with the rendered task's ID become that task with its flag flipped, whether or not it is under edit; nothing else changes |
| `TodoCard.FilterScenario` | src/components/TodoCard/TodoCard.tsx:91-95 | after adding "Buy milk" and "Walk dog", the pending view shows both; after clicking "Buy milk", the pending view shows only "Walk dog" and the completed view only "Buy milk" |
| `TodoCard.BlankInputScenario` | src/components/TodoCard/TodoCard.tsx:35-47 | pressing Enter on a box holding only spaces adds nothing and leaves the text in the box |
| `TodoCard.EditScenario` | src/components/TodoCard/TodoCard.tsx:73-81 | adding "X", editing it to "Y" and pressing Enter stores "Y" under the same ID and ends the edit |
| `TodoCard.MenuScenario` | src/components/TodoCard/TodoCard.tsx:83-89 | two clicks on a task's menu icon from closed open it and then close it |
| `TodoCard.TwoMenuClicks` | src/components/TodoCard/TodoCard.tsx:83-89 | from any card with no menu open, or with another task's menu open, two clicks on one task's menu icon leave no menu open and change nothing else |

## Left out

- Rendering is not modelled: JSX, MUI components, styling, CSS and popup placement (most of `src/components/TodoCard/TodoCard.tsx`). `src/components/Filter/Filters.tsx` and `src/App.tsx` only wire up the UI, so they are left out too.
- Events are not modelled. A key press is the boolean `enterPressed`. The DOM element behind a menu anchor is dropped, and only its task ID is kept.
- The `console.log` of the list in `createNewTodo` is output only and is left out.
- `new Date().getTime()` is a clock read. It becomes the parameter `now` of `CreateNewTodo`.
- React's `useReducer` scheduling and re-rendering are not modelled. A dispatch applies the reducer at once. Each handler reads the state before its own dispatches, as the rendered closure does.
- The `default: throw` branches of both reducers cannot be reached, because `Action` is a closed datatype.
- `TodoModel` in `src/components/interface` is not part of this model. The older reducer assumes it has the shape of `TodoModel` in `src/data/todo.ts`.
- A JavaScript number is modelled as an unbounded integer. That covers task IDs and the index payloads of the older reducer. Fractional, NaN and unsafe-integer values are not modelled.
- UPDATE_TODO replaces a matching entry by the payload. `{ ...todo, ...payload }` equals the payload only because every payload carries all three fields. Extra properties on a payload object are not modelled.
- TodoCard.DisplayTitle: counts Unicode scalar values, while JavaScript's `length` and `substring` count UTF-16 code units. For characters outside the Basic Multilingual Plane the cut point differs, and the source can split a surrogate pair.
- JsString.Trim: the white-space set is written out from ECMAScript's WhiteSpace and LineTerminator productions as of Unicode 15. A code point added to category Zs later is not included.
