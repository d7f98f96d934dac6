# A verified model of the todo app's list and set logic

The application is a client-side todo list written in React. This project
models the logic beneath the components:

- the todo store, with append, remove by id and set-completed;
- the selection store, an ordered list of selected ids;
- the due-date classifier (overdue, due today);
- the flat filter-and-sort views (`useFilteredTodos`, the todo list component);
- the grouped view, which puts todos into year → month buckets;
- the urgent-todo export text, the copy button's status machine, and the
  bulk actions over the selection;
- the variant style tables, the add form's validation, and the status counters.

One Dafny module models each core source file. `Seqs` holds the JavaScript
array operations they share (`filter`, `sort`, `includes`, `join`) and the
facts proved about them.

Modelling decisions:

- A todo is a `datatype`. Its `endAt` is `Option<int>`, in epoch milliseconds.
  A due date counts as present only when it is `Some(v)` with `v != 0`. This
  keeps the JavaScript test `!todo.endAt`, which also treats 0 as absent.
- An absent `note` or `url` is the empty string, which is what the
  application's truthiness tests distinguish.
- The clock enters as the parameters `startOfToday` (local midnight today)
  and `startOfTomorrow`. The calendar enters as the parameters `yearMonthOf`
  (for `getFullYear` / `getMonth() + 1`) and `dateString` (for
  `toLocaleDateString("ja-JP")`). The add form receives `new Date(endAtStr)`
  as the number `parsedEndAt`.
- `crypto.randomUUID()` becomes a `newId` parameter. The answer to
  `window.confirm` and the outcome of the clipboard write become boolean
  parameters. The two-second reset timer becomes the explicit `Timeout` event.
- Stores whose state the source replaces (`todoAtom`, `selectionAtom`, the
  component state of the todo list, the form and the copy button) are classes
  with `seq` or scalar fields. Each method's `ensures` ties the new field value
  to a specification function of the old one. Those functions carry the
  proved properties.
- `Array.prototype.sort` is modelled as a stable insertion sort,
  `Seqs.Sort`, driven by the source's comparator written out exactly. Under
  the date comparators, two undated todos compare inconsistently: each says
  "greater" in both orders, or "smaller" in both. The flat views therefore
  state only permutation and placement facts about undated todos. For dated
  todos, sortedness is proved from a total preorder that the comparator
  respects. The grouped view's contracts do fix each bucket as the model's
  sort of it, so the order inside its `no-date` bucket is the model's
  insertion order (see "## Left out").
- The grouping loop of `useGroupedTodos` is a method over a map of maps. It
  records the key insertion order (`Object.keys`) in `years` / `months`, and
  its invariant says the map holds exactly the non-empty buckets of the todos
  seen so far. The bucket sort runs as two nested loops over the keys. The
  year and month ordering is functional, as in the source.
- The bulk toggle of the selection is not self-inverse: when only some of
  the ids were selected, the second call deselects all of them
  (`Selection.ToggledManyTwiceFromSome`, `Selection.ToggledManyNotSelfInverse`).
- `date-desc` places undated todos first in `useFilteredTodos.ts` and last
  in `todoList.tsx`. Each module keeps its own comparator.

## Model

| member | source | states |
|---|---|---|
| `DateJudge.IsOverdue` | src/features/todo/utils/dateJudge.ts:2-9 | false when completed or when `endAt` is absent or 0; otherwise holds iff `endAt < startOfToday` |
| `DateJudge.IsDueToday` | src/features/todo/utils/dateJudge.ts:12-22 | false when completed or when `endAt` is absent or 0; otherwise holds iff `startOfToday <= endAt < startOfTomorrow` |
| `DateJudge.OverdueExcludesDueToday` | src/features/todo/utils/dateJudge.ts:8-21 | a todo is never both overdue and due today |
| `DateJudge.LaterIsNeither` | src/features/todo/utils/dateJudge.ts:2-22 | a todo due at or after the start of tomorrow is neither overdue nor due today |
| `Todos.Appended` | src/features/todo/todoAtom.ts:15-20 | `addTodo` adds exactly one todo at the end, not completed, with the given id and fields; earlier todos are unchanged |
| `Todos.Removed` | src/features/todo/todoAtom.ts:21-23 | `removeTodo` keeps exactly the todos with a different id, each as often as before, in order; a no-op when the id is absent |
| `Todos.WithCompleted` | src/features/todo/todoAtom.ts:24-28 | `setCompleted` changes only `completed`, and only on todos with the id; length and order are kept |
| `Todos.WithCompletedIdempotent` | src/features/todo/todoAtom.ts:24-28 | setting the same completion twice is the same as once |
| `Todos.AddThenRemove` | src/features/todo/todoAtom.ts:15-23 | adding under a fresh id and then removing that id restores the list |
| `Todos.AppendedKeepsUniqueIds` | src/features/todo/todoAtom.ts:15-20 | adding under a fresh id keeps ids unique |
| `Todos.RemovedKeepsUniqueIds` | src/features/todo/todoAtom.ts:21-23 | removing keeps ids unique |
| `Todos.WithCompletedKeepsUniqueIds` | src/features/todo/todoAtom.ts:24-28 | setting completion keeps ids unique |
| `Todos.TodoStore.AddTodo` | src/features/todo/todoAtom.ts:15-20 | the store's list becomes the appended list; with a fresh id, unique ids stay unique |
| `Todos.TodoStore.RemoveTodo` | src/features/todo/todoAtom.ts:21-23 | the store's list becomes the list without that id; unique ids stay unique |
| `Todos.TodoStore.SetCompleted` | src/features/todo/todoAtom.ts:24-28 | the store's list becomes the list with that id's completion set; unique ids stay unique |
| `Todos.Updated` | src/features/todo/todoList.tsx:12-16 | the edit replaces the title and due date of the todos with that id; ids, completion, notes and URLs stay, and other todos are unchanged |
| `Todos.TodoStore.UpdateTodo` | src/features/todo/todoList.tsx:12-16 | the title and due date of the todos with that id are replaced; nothing else changes |
| `TodoOrder.KeepOrder` | src/features/todo/filter/useFilteredTodos.ts:14 | the "none" comparator reports every pair as equal |
| `TodoOrder.DatedAscUndatedLast` | src/features/todo/filter/useFilteredTodos.ts:15-19 | negative exactly when the first todo strictly precedes the second in the order "dated ascending, undated last"; positive when it strictly follows, and also for two undated todos in either order |
| `TodoOrder.DatedDescUndatedFirst` | src/features/todo/filter/useFilteredTodos.ts:20-24 | positive exactly when the first todo strictly follows the second in the order "undated first, dated descending"; negative when it strictly precedes, and also for two undated todos in either order |
| `TodoOrder.DatedDescUndatedLast` | src/features/todo/todoList.tsx:63-68 | negative exactly when the first todo strictly precedes the second in the order "dated descending, undated last"; positive when it strictly follows, and also for two undated todos in either order |
| `TodoOrder.SortKeepOrder` | src/features/todo/filter/useFilteredTodos.ts:14 | sorting with `() => 0` leaves the order unchanged |
| `TodoOrder.SortDatedAscUndatedLast` | src/features/todo/filter/useFilteredTodos.ts:15-19 | ascending comparator: a permutation, no dated todo after an undated one, dated todos non-decreasing by `endAt` |
| `TodoOrder.SortDatedDescUndatedFirst` | src/features/todo/filter/useFilteredTodos.ts:20-24 | descending comparator with undated first: a permutation, no undated todo after a dated one, dated todos non-increasing |
| `TodoOrder.SortDatedDescUndatedLast` | src/features/todo/todoList.tsx:63-68 | descending comparator with undated last: a permutation, undated todos last, dated todos non-increasing |
| `FilteredTodos.Filtered` | src/features/todo/filter/useFilteredTodos.ts:6-10 | `active` and `completed` keep exactly the incomplete and complete todos, each as often as in the input, in order; `all` and any unknown value keep the list |
| `FilteredTodos.FilteredAndSortedTodos` | src/features/todo/filter/useFilteredTodos.ts:30-35 | the result is a permutation of the filtered list |
| `FilteredTodos.UnsortedKeepsFilterOrder` | src/features/todo/filter/useFilteredTodos.ts:13-14 | `none` and any unknown sort value return the filtered list in its order |
| `FilteredTodos.DateAscOrder` | src/features/todo/filter/useFilteredTodos.ts:15-19 | `date-asc`: dated todos come first and are non-decreasing, undated ones come after |
| `FilteredTodos.DateDescOrder` | src/features/todo/filter/useFilteredTodos.ts:20-24 | `date-desc`: undated todos come first, then dated ones, non-increasing |
| `TodoList.IsOverdue` | src/features/todo/todoList.tsx:40-45 | the component's own test agrees with the shared classifier: incomplete, dated and before today |
| `TodoList.SortedTodos` | src/features/todo/todoList.tsx:47-69 | the rows are a permutation of the filtered todos; `date-asc` and `date-desc` sort dated todos ascending and descending, undated last; other sort values keep the filter order; other filter values keep all todos |
| `TodoList.TodoListState.StartEditing` | src/features/todo/todoList.tsx:129 | the clicked todo becomes the one being edited; a pending deletion is kept |
| `TodoList.TodoListState.CancelEditing` | src/features/todo/todoList.tsx:101 | nothing is being edited any more; a pending deletion is kept |
| `TodoList.TodoListState.HandleUpdate` | src/features/todo/todoList.tsx:12-18 | applies the edit to the store, then clears `editingId` |
| `TodoList.TodoListState.HandleDelete` | src/features/todo/todoList.tsx:20-26 | a completed todo is removed at once; an incomplete one only becomes the pending confirmation and nothing is removed |
| `TodoList.TodoListState.ConfirmDelete` | src/features/todo/todoList.tsx:28-33 | a pending id is removed from the store and cleared; with nothing pending nothing changes |
| `TodoList.TodoListState.CancelDelete` | src/features/todo/todoList.tsx:35-37 | clears the pending id and removes nothing |
| `GroupedTodos.Filtered` | src/features/todo/filter/useGroupedTodos.ts:6-9 | `active` keeps exactly the incomplete todos, `completed` exactly the complete ones, each as often as in the input, in order |
| `GroupedTodos.GroupsOfPut` | src/features/todo/filter/useGroupedTodos.ts:41-62 | one `push` keeps the dictionary equal to the non-empty buckets of the todos seen so far, with each key listed once |
| `GroupedTodos.Push` | src/features/todo/filter/useGroupedTodos.ts:42-61 | the loop body puts an undated todo under `no-date`/`no-date` and a dated one under its year and month, creating missing entries |
| `GroupedTodos.GroupByYearMonth` | src/features/todo/filter/useGroupedTodos.ts:39-62 | after the loop the dictionary holds exactly the non-empty buckets of the filtered todos |
| `GroupedTodos.NoDateYearShape` | src/features/todo/filter/useGroupedTodos.ts:44-47 | the `no-date` year has exactly the one month `no-date` |
| `GroupedTodos.BucketCompareOrder` | src/features/todo/filter/useGroupedTodos.ts:12-27 | used on its own, the `completed` comparator puts undated todos first and dated ones latest first; the `active` comparator puts dated ones earliest first and undated ones last |
| `GroupedTodos.SortBuckets` | src/features/todo/filter/useGroupedTodos.ts:65-70 | every bucket is replaced by its sorted version; keys are unchanged |
| `GroupedTodos.CompareYears` | src/features/todo/filter/useGroupedTodos.ts:73-84 | negative when the first year comes strictly before the second in the filter's year order, positive when after, zero for equal years |
| `GroupedTodos.CompareMonths` | src/features/todo/filter/useGroupedTodos.ts:96-102 | negative when the first month comes strictly before the second in the filter's month order, positive when after; zero for equal months and whenever `no-date` is involved |
| `GroupedTodos.SortedYearsOrdered` | src/features/todo/filter/useGroupedTodos.ts:73-84 | the sorted years are strictly ordered: ascending with `no-date` last, or for `completed` `no-date` first and then descending; no year twice |
| `GroupedTodos.SortedMonthsOrdered` | src/features/todo/filter/useGroupedTodos.ts:96-102 | the months of a dated year are strictly ascending, or descending for `completed`; no month twice |
| `GroupedTodos.AssembleBuckets` | src/features/todo/filter/useGroupedTodos.ts:87-109 | every month group holds its own sorted, non-empty bucket; the `no-date` year has one month, `no-date` |
| `GroupedTodos.AssembleKeysDistinct` | src/features/todo/filter/useGroupedTodos.ts:73-109 | no year appears twice in the output, and no month twice within a year |
| `GroupedTodos.AssemblePermutation` | src/features/todo/filter/useGroupedTodos.ts:87-109 | concatenating all output buckets gives a permutation of the filtered todos |
| `GroupedTodos.BucketsInOwnBuckets` | src/features/todo/filter/useGroupedTodos.ts:41-70 | every todo sits under its own year and month key; each bucket is ascending by `endAt` for `active` and descending for `completed` |
| `GroupedTodos.NoDateBucketIsUndated` | src/features/todo/filter/useGroupedTodos.ts:42-47 | the `no-date` bucket holds exactly the undated todos, each as often as in the input |
| `GroupedTodos.GroupTodos` | src/features/todo/filter/useGroupedTodos.ts:33-110 | the whole hook: own buckets, sorted buckets, a permutation of the filtered list, ordered years and months, the `no-date` shape, and an empty result exactly for no filtered todos |
| `Selection.Toggled` | src/features/todo/selection/selectionAtom.ts:9-15 | an absent id is appended at the end; a present id is removed everywhere with the other ids kept in order and as often as before; no duplicates are introduced |
| `Selection.ToggledFlips` | src/features/todo/selection/selectionAtom.ts:9-15 | one toggle flips whether the id is selected |
| `Selection.ToggledMany` | src/features/todo/selection/selectionAtom.ts:24-36 | all selected: exactly those ids are removed, the rest keep their order and their counts; otherwise the old list is a prefix followed by the unselected ids in argument order, and all ids end up selected; no duplicates are introduced |
| `Selection.ToggledManyEmpty` | src/features/todo/selection/selectionAtom.ts:27-31 | with no ids the bulk toggle changes nothing |
| `Selection.ToggledManyTwiceFromNone` | src/features/todo/selection/selectionAtom.ts:24-36 | toggling twice restores the selection when none of the ids was selected |
| `Selection.ToggledManyTwiceFromSome` | src/features/todo/selection/selectionAtom.ts:24-36 | when some but not all ids were selected, toggling twice deselects all of them, so the original is lost |
| `Selection.ToggledManyTwiceFromAll` | src/features/todo/selection/selectionAtom.ts:24-36 | when all ids were selected, toggling twice moves them to the end in argument order |
| `Selection.ToggledManyNotSelfInverse` | src/features/todo/selection/selectionAtom.ts:24-36 | a concrete selection that two bulk toggles do not restore |
| `Selection.SelectionStore.ToggleSelection` | src/features/todo/selection/selectionAtom.ts:9-15 | the stored list becomes the toggled list |
| `Selection.SelectionStore.ClearSelection` | src/features/todo/selection/selectionAtom.ts:17-19 | the stored list becomes empty |
| `Selection.SelectionStore.ToggleMultipleSelection` | src/features/todo/selection/selectionAtom.ts:24-36 | the stored list becomes the bulk-toggled list |
| `Selection.SelectionStore.IsSelected` | src/features/todo/selection/selectionAtom.ts:21 | an id is selected iff the `every` test of the bulk toggle holds for that id alone |
| `Selection.SelectionStore.AreAllSelected` | src/features/todo/selection/selectionAtom.ts:39-42 | false for no ids; otherwise holds iff every id is selected |
| `Selection.SelectionStore.SelectedCount` | src/features/todo/selection/selectionAtom.ts:47 | at most `|ids|`; positive iff some id is selected, below `|ids|` iff some id is not |
| `Selection.SelectionStore.AreSomeSelected` | src/features/todo/selection/selectionAtom.ts:45-49 | holds iff some id is selected and some id is not |
| `Selection.SelectionStore.AllExcludesSome` | src/features/todo/selection/selectionAtom.ts:39-49 | the checkbox is never both checked and indeterminate |
| `Clipboard.FilterUrgentTodos` | src/features/todo/utils/clipboardUtils.ts:9-17 | keeps exactly the incomplete todos that are overdue or due today, each as often as in the input, in input order |
| `Clipboard.UrgentAreDueBeforeTomorrow` | src/features/todo/utils/clipboardUtils.ts:9-17 | no completed todo and no todo due tomorrow or later is returned |
| `Clipboard.UrgentExample` | src/features/todo/utils/clipboardUtils.ts:9-17 | of a todo due yesterday, one due today and a completed one, exactly the first two are urgent, in order |
| `Clipboard.Label` | src/features/todo/utils/clipboardUtils.ts:31-36 | the overdue label appears iff overdue, the due-today label iff due today, and never both |
| `Clipboard.NoteLine` | src/features/todo/utils/clipboardUtils.ts:40 | the note line is present iff the note is non-empty |
| `Clipboard.UrlLine` | src/features/todo/utils/clipboardUtils.ts:41 | the URL line is present iff the URL is non-empty |
| `Clipboard.FormatTodosAsText` | src/features/todo/utils/clipboardUtils.ts:24-27 | no todos format to `該当するタスクはありません` |
| `Clipboard.FormatSingle` | src/features/todo/utils/clipboardUtils.ts:29-45 | one todo formats to its own block |
| `Clipboard.FormatSnoc` | src/features/todo/utils/clipboardUtils.ts:29-45 | each further todo appends a blank line and its block, so blocks appear in input order |
| `TodoVariant.GetTodoVariant` | src/features/todo/utils/todoVariant.ts:11-20 | completed beats overdue, overdue beats due today, otherwise default; completed always yields `completed` |
| `TodoVariant.ContainerStyle` | src/features/todo/utils/todoVariant.ts:27-35 | the overdue and due-today containers, and only they, start with the thick border `border-2` |
| `TodoVariant.ContainerStylesDistinct` | src/features/todo/utils/todoVariant.ts:27-35 | the container table gives the four variants four different styles |
| `TodoVariant.TitleColourUrlDependence` | src/features/todo/utils/todoVariant.ts:50-55 | only the due-today and default colours depend on the URL |
| `TodoVariant.TitleStyle` | src/features/todo/utils/todoVariant.ts:43-58 | the title style is the base, the colour and, with a URL, the hover underline, one space apart; trimming removes only the space an absent underline leaves |
| `TodoVariant.TitleStyleShape` | src/features/todo/utils/todoVariant.ts:43-58 | the title style starts with the base and has no trailing space |
| `TodoVariant.TitleStyleUnderline` | src/features/todo/utils/todoVariant.ts:43-58 | the title style contains `hover:underline` iff there is a URL |
| `TodoVariant.DateStyle` | src/features/todo/utils/todoVariant.ts:65-76 | the date style is `text-sm ` followed by the table entry |
| `TodoVariant.DateStyleCompletedIsDefault` | src/features/todo/utils/todoVariant.ts:65-76 | completed and default todos get the same date style |
| `TodoForm.Validate` | src/features/todo/todoForm.tsx:15-37 | the first failing check decides the message: empty title, then a title over 100, then a date before today; the error is empty iff all checks pass |
| `TodoForm.SubmittedEndAt` | src/features/todo/todoForm.tsx:39-42 | the submitted due date is absent iff the date field is empty |
| `TodoForm.TodayIsAccepted` | src/features/todo/todoForm.tsx:28-37 | a due date equal to the start of today passes |
| `TodoForm.TodoFormState.OnSubmit` | src/features/todo/todoForm.tsx:9-42 | the error is the validation result; on success the todo is appended once, and on failure the store is unchanged |
| `BulkActions.SelectedTodos` | src/features/todo/selection/bulkActions.tsx:11 | exactly the todos whose id is selected, each as often as in the store, in store order |
| `BulkActions.CompletedAllPointwise` | src/features/todo/selection/bulkActions.tsx:14-19 | completing the ids one at a time completes exactly the todos with a selected id and changes nothing else |
| `BulkActions.RemovedAllIsFilter` | src/features/todo/selection/bulkActions.tsx:22-33 | removing the ids one at a time keeps exactly the todos with an unselected id, in order |
| `BulkActions.MarkdownList` | src/features/todo/selection/bulkActions.tsx:37 | no todos give the empty text; one todo gives `- ` and its title |
| `BulkActions.MarkdownListSnoc` | src/features/todo/selection/bulkActions.tsx:37 | each further todo adds a line break and its `- ` item at the end |
| `BulkActions.BulkActionsPanel.Visible` | src/features/todo/selection/bulkActions.tsx:46-49 | the panel renders iff the selection is non-empty |
| `BulkActions.BulkActionsPanel.HandleBulkComplete` | src/features/todo/selection/bulkActions.tsx:14-19 | the loop completes every selected id in turn, then the selection is empty |
| `BulkActions.BulkActionsPanel.HandleBulkDelete` | src/features/todo/selection/bulkActions.tsx:22-33 | when confirmed, the loop removes every selected id and the selection is emptied; when declined nothing changes |
| `CopyButton.ButtonStyle` | src/features/todo/copyButton/todoCopyButton.tsx:31-40 | each status has its own style, with idle taking the default branch |
| `CopyButton.ButtonText` | src/features/todo/copyButton/todoCopyButton.tsx:42-51 | each status has its own label, with idle taking the default branch |
| `CopyButton.Disabled` | src/features/todo/copyButton/todoCopyButton.tsx:58 | the button is disabled iff a result is showing or no todo is urgent |
| `CopyButton.ShowsCount` | src/features/todo/copyButton/todoCopyButton.tsx:63-67 | the count message shows iff the status is idle and some todo is urgent |
| `CopyButton.ShowsCountIffEnabled` | src/features/todo/copyButton/todoCopyButton.tsx:58-67 | the count message shows iff the button is enabled, that is iff the status is idle and some todo is urgent |
| `CopyButton.CopyButtonState.HandleCopy` | src/features/todo/copyButton/todoCopyButton.tsx:18-29 | the copied text is the formatted urgent todos; the status becomes success or error by the write's outcome |
| `CopyButton.CopyButtonState.Timeout` | src/features/todo/copyButton/todoCopyButton.tsx:24-27 | the timer returns the status to idle |
| `TodoStatus.TotalCount` | src/features/todo/todoStatus.tsx:6 | the total is the list's length, which is the number of active plus the number of completed todos |
| `TodoStatus.CompletedCount` | src/features/todo/todoStatus.tsx:7 | at most the total; zero iff no todo is completed, the total iff all are |
| `TodoStatus.ActiveCount` | src/features/todo/todoStatus.tsx:6-8 | equals the number of incomplete todos, lies between 0 and the total, and adds up with the completed count to the total |
| `TodoStatus.AddCountsActive` | src/features/todo/todoStatus.tsx:6-8 | adding a todo adds one to the total and to the active count, and none to the completed count |

## Left out

- React and jotai plumbing (`useMemo`, `useAtom`, `useState`) is left out. The hooks are functions of their inputs, and the stores are plain objects.
- The persisted filter and sort preference (`atomWithStorage` under the key `"todo-filter"`) is left out. Filter and sort values are plain string parameters.
- Calendar and locale arithmetic is left out: `new Date(...)`, `getFullYear`, `getMonth`, `setHours`, `setDate`, time zones, daylight saving time, `toLocaleDateString`, and how `"YYYY-MM-DD"` is parsed. These values enter as parameters.
- Clipboard writes, `window.confirm`, `alert`, `crypto.randomUUID` and `setTimeout` are foreign calls. Their outcomes enter as parameters or events.
- `copyToClipboard` itself is not modelled. Only its success flag is.
- `Seqs.Sort`: `Array.prototype.sort` sorts the array in place with an engine-defined algorithm. The model sorts a sequence (a value) with a stable insertion sort, so in-place update and aliasing of the sorted arrays are not captured. With the inconsistent comparators, the engine's order among undated todos is also not captured. The flat views claim only permutation and placement for undated todos.
- `GroupedTodos.GroupTodos`: its contract (through `BucketsOf`) fixes every bucket as the model's insertion sort of it, including the `no-date` bucket. There the comparator is inconsistent, so the order of undated todos is the model's insertion order and not necessarily any engine's; only the bucket's contents (`GroupedTodos.NoDateBucketIsUndated`) are independent of the engine.
- `GroupedTodos.Filtered` requires the filter to be `active` or `completed`. The grouped hook's table has no other entries, and any other value would hand `undefined` to `filter`.
- The grouped view's month comparator converts `no-date` with `Number`, which yields NaN. Sorting reads that as 0. The model keeps this in `CompareMonths`, but the `no-date` year never reaches that comparator.
- `Object.keys` lists integer-like keys in numeric order rather than insertion order. The model records insertion order. The final year and month order does not depend on this, because both are fully sorted afterwards.
- `Todos.TodoStore.UpdateTodo`: `updateTodo` is not defined in `todoAtom.ts`, yet `todoList.tsx` calls it. The model merges the edited title and due date into the todos with that id and keeps `id` and `completed`.
- `TodoForm.Validate`: titles are sequences of Unicode scalar values, whereas JavaScript's `length` counts UTF-16 code units. A date field that does not parse (`NaN`) is not modelled, because `parsedEndAt` is always a number.
- The rendering-only components are left out: the edit form, item views, modals, filter bars, input dialogs, the page and the keyboard shortcut.
