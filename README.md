# TaskFlow task core in Dafny

A verified model of the logic at the centre of TaskFlow, a browser task manager:

- the in-memory **task service**: a class holding the task list, with `create`, `update` and `delete`
  changing it in place, plus read-only queries (by id, category or status; overdue, due today,
  upcoming) and a statistics summary;
- the **user-preferences service**: one settings object, shallow-merged by `update` and restored by `reset`;
- the **task list**'s query pipeline:
  - drop subtasks, then search, category and status filters;
  - sort in place, then truncate to `limit`;
  - the handlers that replace or remove a task by id;
- the **task form**: its required-field validation, its change handler, and the `taskData` object it submits;
- the **task card**: the checkbox status toggle, the overdue flag, the due-date colour and label,
  the status badge colour, and the category lookup.

Modules, one per source file, plus four shared ones:

| file | module | models |
|---|---|---|
| wrappers.dfy | `Wrappers` | `Option` (null/undefined) and `Result` (thrown errors) |
| seqs.dfy | `Seqs` | `filter`, `findIndex`, `find` |
| strings.dfy | `Strings` | `toLowerCase`, `includes`, `trim`, string order |
| task_model.dfy | `TaskModel` | the task record, `updates` objects, the merge and the `create` literal |
| task_service.dfy | `TaskRepository` | `src/services/api/taskService.js` |
| user_preferences_service.dfy | `UserPreferences` | `src/services/api/userPreferencesService.js` |
| task_list.dfy | `TaskList` | `src/components/organisms/TaskList.jsx` |
| task_form.dfy | `TaskForm` | `src/components/molecules/TaskForm.jsx` |
| task_card.dfy | `TaskCard` | `src/components/molecules/TaskCard.jsx` |

How the model is built:
- **State.** The two services are classes whose methods reassign their field (`tasks: seq<Task>`,
  `preferences: map<string, Json>`). Their contracts state the whole new state in terms of the old one.
- **Queries.** The service's queries are functions over the task sequence.
- **Sorting.** The list's `filtered.sort(...)` is an insertion sort on an array, in place; like the engine's sort it is stable.
- **Clock and ids.** `now`, the start of today and of tomorrow, `nextWeek` and the generated id are parameters.
- **Behaviour worth noting:**
  - `create` always sets `status` to `pending`, even when the caller passes one, because `status` follows the caller's keys in the object literal.
  - A caller-supplied `id` replaces the generated one, because `id` precedes the caller's keys.
  - `getStats` creates a new `Date` for each task it tests; the model uses one `now`.
  - The task service has no subtask operations (`createSubtask`, `getSubtasks`, progress), so the model has none.

## Model

| member | source | states |
|---|---|---|
| Seqs.Filter | src/services/api/taskService.js:55 | a filter keeps exactly the elements satisfying the test and is no longer than its input |
| Seqs.FilterConcat | src/services/api/taskService.js:53-61 | filtering distributes over concatenation, so kept tasks stay in storage order |
| Seqs.FilterSubMultiset | src/services/api/taskService.js:55 | a filter never invents or duplicates an element |
| Seqs.FilterDropsOne | src/components/organisms/TaskList.jsx:104 | a test that only one position fails removes exactly that element and keeps the rest in order |
| Seqs.FilterAll | src/components/organisms/TaskList.jsx:104 | a test every element passes keeps the whole sequence |
| Seqs.FilterLength | src/services/api/taskService.js:100-105 | the length of a filter is the number of positions whose element passes the test |
| Seqs.CountWhereSnoc | src/services/api/taskService.js:100-105 | appending one element adds one to the count exactly when it passes the test |
| Seqs.FilterPrefix | src/components/organisms/TaskList.jsx:90-92 | filtering a prefix gives a prefix of the filtered whole |
| Seqs.FirstIndex | src/services/api/taskService.js:35 | `findIndex` gives the first matching index, or none exactly when no element matches |
| Seqs.Find | src/services/api/taskService.js:17 | `find` gives the element at the first matching index, or none exactly when no element matches |
| Strings.ToLower | src/components/organisms/TaskList.jsx:58-59 | lower-casing keeps the length and maps each ASCII capital to its small letter |
| Strings.IncludesIff | src/components/organisms/TaskList.jsx:58-59 | `includes` holds exactly when the term occurs as a contiguous slice |
| Strings.IncludesEmpty | src/components/organisms/TaskList.jsx:56 | the empty term occurs in every string |
| Strings.LessIrreflexive | src/components/organisms/TaskList.jsx:79 | no string sorts strictly before itself |
| Strings.LessAsymmetric | src/components/organisms/TaskList.jsx:79 | two strings never sort strictly before each other |
| Strings.LessTransitive | src/components/organisms/TaskList.jsx:79 | the string order is transitive |
| Strings.LessTotal | src/components/organisms/TaskList.jsx:79 | of two different strings one sorts strictly before the other |
| Strings.TrimStart | src/components/molecules/TaskForm.jsx:47 | drops exactly the leading whitespace: a suffix of the input, everything removed is whitespace, and what is left starts with a non-space if anything is left |
| Strings.TrimEnd | src/components/molecules/TaskForm.jsx:47 | drops exactly the trailing whitespace: a prefix of the input, everything removed is whitespace, and what is left ends with a non-space if anything is left |
| Strings.Trim | src/components/molecules/TaskForm.jsx:47 | `trim()` is no longer than its input and starts and ends with a non-space when not empty |
| Strings.TrimStartEmptyIff | src/components/molecules/TaskForm.jsx:47 | dropping leading whitespace leaves nothing exactly for whitespace-only input |
| Strings.TrimEndEmptyIff | src/components/molecules/TaskForm.jsx:47 | dropping trailing whitespace leaves nothing exactly for whitespace-only input |
| Strings.IsBlank | src/components/molecules/TaskForm.jsx:47 | `!s.trim()` holds exactly for whitespace-only input |
| Strings.TrimEmptyIff | src/components/molecules/TaskForm.jsx:47 | `trim()` is empty exactly when the string is whitespace only |
| Strings.TrimShape | src/components/molecules/TaskForm.jsx:47 | the trimmed string occurs in the original at some position with only whitespace before and after it |
| TaskModel.Merge | src/services/api/taskService.js:39 | `{ ...task, ...updates }`: each field takes the update's value when that key is present and keeps the stored value otherwise |
| TaskModel.MergeNoChanges | src/services/api/taskService.js:39 | merging an empty `updates` object changes nothing |
| TaskModel.MergeIdempotent | src/services/api/taskService.js:39 | merging the same updates twice equals merging once |
| TaskModel.StatusRoundTrip | src/services/api/taskService.js:39 | setting the status to completed and back to its old value restores the record |
| TaskModel.NewRecord | src/services/api/taskService.js:23-28 | the new record is `pending` with `createdAt` now, the caller's id wins over the generated one, other fields come from the caller |
| TaskModel.NewRecordIgnoresStatusAndCreatedAt | src/services/api/taskService.js:26-27 | a caller's `status` and `createdAt` have no effect on the new record |
| TaskModel.AsPatch | src/components/molecules/TaskForm.jsx:70-78 | submitting the form as an update overwrites title, description, category, due date and reminder (an empty reminder clears a stored one); id, status, createdAt and parentTaskId change only when the data has them |
| TaskRepository.IndexOfId | src/services/api/taskService.js:35 | the index `update` and `delete` act on is the first with that id; none exactly when no task has it |
| TaskRepository.FindById | src/services/api/taskService.js:15-19 | `getById` returns the first task with that id, or null exactly when none has it |
| TaskRepository.FilterByCategory | src/services/api/taskService.js:53-56 | `getByCategory` lists exactly the tasks with that category |
| TaskRepository.FilterByStatus | src/services/api/taskService.js:58-61 | `getByStatus` lists exactly the tasks with that status, one entry per matching record |
| TaskRepository.OverdueTasks | src/services/api/taskService.js:63-70 | `getOverdue` lists exactly the tasks not completed with due date before now, one entry per matching record |
| TaskRepository.TasksDueToday | src/services/api/taskService.js:72-83 | `getDueToday` lists exactly the tasks due from the start of today up to, not including, the start of tomorrow, whatever their status |
| TaskRepository.UpcomingTasks | src/services/api/taskService.js:85-95 | `getUpcoming` lists exactly the tasks not completed due after now and no later than a week ahead |
| TaskRepository.OverdueUpcomingDisjoint | src/services/api/taskService.js:63-95 | no task is both overdue and upcoming |
| TaskRepository.DueTodayKeepsCompleted | src/services/api/taskService.js:72-83 | a completed task due today is listed as due today but never as overdue |
| TaskRepository.RoundedPercent | src/services/api/taskService.js:113 | the completion rate is the percentage rounded to the nearest integer, half up, within 0..100; 0 for no tasks; 100 when all are completed |
| TaskRepository.StatusCountsBound | src/services/api/taskService.js:100-102 | completed, pending and in-progress counts together never exceed the total |
| TaskRepository.OverdueCountBound | src/services/api/taskService.js:100-105 | overdue plus completed never exceed the total |
| TaskRepository.ComputeStats | src/services/api/taskService.js:97-115 | `getStats`: total is the task count; completed, pending, in-progress and overdue are the numbers of records passing each test; the rate is the rounded percentage; all zero for no tasks |
| TaskRepository.TaskService.constructor | src/services/api/taskService.js:6-8 | the service starts with exactly the initial tasks |
| TaskRepository.TaskService.GetAll | src/services/api/taskService.js:10-13 | `getAll` returns the stored tasks in stored order |
| TaskRepository.TaskService.GetById | src/services/api/taskService.js:15-19 | `getById` returns the first stored task with that id, or null exactly when none has it |
| TaskRepository.TaskService.GetByCategory | src/services/api/taskService.js:53-56 | `getByCategory` lists exactly the stored tasks in that category |
| TaskRepository.TaskService.GetByStatus | src/services/api/taskService.js:58-61 | `getByStatus` lists exactly the stored tasks with that status, one entry per matching record |
| TaskRepository.TaskService.GetOverdue | src/services/api/taskService.js:63-70 | `getOverdue` lists exactly the stored tasks not completed and due before now, one entry per matching record |
| TaskRepository.TaskService.GetDueToday | src/services/api/taskService.js:72-83 | `getDueToday` lists exactly the stored tasks due from the start of today up to the start of tomorrow |
| TaskRepository.TaskService.GetUpcoming | src/services/api/taskService.js:85-95 | `getUpcoming` lists exactly the stored tasks not completed, due after now and no later than a week ahead |
| TaskRepository.TaskService.GetStats | src/services/api/taskService.js:97-115 | `getStats` over the stored tasks: the total, the number of records passing each status and overdue test, and the rounded rate |
| TaskRepository.TaskService.Create | src/services/api/taskService.js:21-31 | `create` appends the new record at the end and returns it; nothing else changes |
| TaskRepository.TaskService.Update | src/services/api/taskService.js:33-41 | `update` throws "Task not found" and changes nothing for an unknown id; otherwise only the first task with that id changes, to the old record merged with the updates, which is returned |
| TaskRepository.TaskService.Delete | src/services/api/taskService.js:43-51 | `delete` throws "Task not found" and changes nothing for an unknown id; otherwise removes exactly the first task with that id and returns true |
| TaskRepository.CreateThenFind | src/services/api/taskService.js:15-31 | a task created with an id nobody has is found by `getById`, and ids stay unique |
| TaskRepository.UpdateThenFind | src/services/api/taskService.js:15-41 | after an update that keeps the id, `getById` returns the merged record |
| TaskRepository.UpdateKeepsUniqueIds | src/services/api/taskService.js:39 | an update that keeps the id keeps ids unique |
| TaskRepository.DeleteRemovesOne | src/services/api/taskService.js:49 | `splice` removes one record, shortens the list by one and keeps the others in order |
| TaskRepository.DeleteThenFind | src/services/api/taskService.js:15-51 | with unique ids a deleted task is no longer found and a second delete throws |
| TaskRepository.EmptyStats | src/services/api/taskService.js:97-115 | statistics of no tasks are all zero |
| TaskRepository.OverdueScenario | src/services/api/taskService.js:63-70 | a pending task due a day ago is overdue and counted once in the statistics |
| UserPreferences.MergePreferences | src/services/api/userPreferencesService.js:17 | after the merge every updated key has the new value and every other key its old one |
| UserPreferences.MergeEmpty | src/services/api/userPreferencesService.js:17 | `update({})` changes nothing |
| UserPreferences.MergeIdempotent | src/services/api/userPreferencesService.js:17 | applying the same updates twice equals applying them once |
| UserPreferences.MergeLaterWins | src/services/api/userPreferencesService.js:17 | two updates equal one whose shared keys take the later values |
| UserPreferences.UserPreferencesService.constructor | src/services/api/userPreferencesService.js:6-8 | the preferences start as the defaults |
| UserPreferences.UserPreferencesService.Get | src/services/api/userPreferencesService.js:10-13 | `get` returns the current preferences |
| UserPreferences.UserPreferencesService.Update | src/services/api/userPreferencesService.js:15-19 | `update` merges the updates (keys of the updates win, all other keys unchanged) and returns the new preferences |
| UserPreferences.UserPreferencesService.Reset | src/services/api/userPreferencesService.js:21-25 | `reset` restores exactly the defaults and returns them |
| UserPreferences.ResetAfterUpdates | src/services/api/userPreferencesService.js:15-25 | after any updates, reset gives the defaults, and a second reset still gives them |
| TaskList.Selected | src/components/organisms/TaskList.jsx:53-71 | the selection invents and duplicates no task |
| TaskList.SelectedMembers | src/components/organisms/TaskList.jsx:53-71 | a task is selected exactly when it is stored, not a subtask, and matches the search, category and status filters that are switched on |
| TaskList.SubsetOfSelected | src/components/organisms/TaskList.jsx:53-71 | every task drawn from the selection passes all filters |
| TaskList.SearchMatchesSubstring | src/components/organisms/TaskList.jsx:56-61 | with a non-empty term, every selected task's lower-cased title or description contains the lower-cased term |
| TaskList.UnfilteredKeepsRoots | src/components/organisms/TaskList.jsx:53-71 | empty search, no category and status 'all' keep exactly the tasks that are not subtasks |
| TaskList.BeforeAsymmetric | src/components/organisms/TaskList.jsx:74-87 | the comparator never puts two tasks strictly before each other |
| TaskList.NotBeforeTransitive | src/components/organisms/TaskList.jsx:74-87 | "not strictly after" is transitive for every sort key |
| TaskList.NotLessTransitive | src/components/organisms/TaskList.jsx:79-81 | "not strictly after" is transitive for the string order |
| TaskList.KeepsTiesTransitive | src/components/organisms/TaskList.jsx:74-87 | keeping the order of tied tasks composes across passes |
| TaskList.UnsortedKeepsAll | src/components/organisms/TaskList.jsx:84-85 | when the comparator always returns 0, keeping the order of ties keeps the whole list |
| TaskList.SwapKeepsTies | src/components/organisms/TaskList.jsx:74-87 | swapping adjacent tasks that compare strictly keeps the order within every group of tied tasks |
| TaskList.SortKeyOf | src/components/organisms/TaskList.jsx:75-85 | a sort key outside dueDate, title, status and createdAt falls to the default case, which orders nothing |
| TaskList.Before | src/components/organisms/TaskList.jsx:74-87 | the comparator is negative only for one of the four keys and never for a task against itself |
| TaskList.SwapStep | src/components/organisms/TaskList.jsx:74-87 | swapping the moving element past a left neighbour it sorts before keeps the pass's invariant: the multiset, the order of tied tasks, and the partial sortedness |
| TaskList.InsertDone | src/components/organisms/TaskList.jsx:74-87 | once the moving element stops, the whole prefix is sorted |
| TaskList.InsertAt | src/components/organisms/TaskList.jsx:74-87 | one insertion pass sorts one more element into the prefix, permutes the array, keeps tied tasks in their order, and moves nothing for an unknown key |
| TaskList.SortTasks | src/components/organisms/TaskList.jsx:74-87 | the in-place sort leaves the array sorted by the key, a permutation of its input, with every group of tied tasks in its original order (stable); with an unknown key it is unchanged |
| TaskList.SliceEnd | src/components/organisms/TaskList.jsx:91 | `slice(0, limit)` ends at min(limit, length) for a non-negative limit and drops -limit elements from the end for a negative one |
| TaskList.ApplyLimit | src/components/organisms/TaskList.jsx:90-92 | the limited list is a prefix; a zero limit keeps everything; a positive limit gives at most `limit` tasks and fewer only when the list is shorter |
| TaskList.SortedPrefix | src/components/organisms/TaskList.jsx:74-92 | in a sorted list nothing after a prefix sorts strictly before anything in it |
| TaskList.LimitOfSorted | src/components/organisms/TaskList.jsx:74-92 | truncating a sorted permutation gives a sorted sub-multiset of the selection, of the limited length, with nothing left out sorting before anything kept |
| TaskList.ApplyFilters | src/components/organisms/TaskList.jsx:53-71 | the step-by-step filtering yields the selection |
| TaskList.FilterAndSortTasks | src/components/organisms/TaskList.jsx:51-95 | the result invents and duplicates no task, contains no subtask, passes every filter, is sorted by the key, has the limited length, and leaves out only tasks that sort no earlier than any shown; tasks with equal keys appear in stored order, each group a prefix of its group in the selection; with an unknown key it is the selection in stored order, limited |
| TaskList.ReplaceById | src/components/organisms/TaskList.jsx:97-101 | `handleTaskUpdate` keeps the length, replaces every task with the id and leaves the others alone |
| TaskList.RemoveById | src/components/organisms/TaskList.jsx:103-105 | `handleTaskDelete` drops every task with the id and keeps every other |
| TaskList.ReplaceAgreesWithUpdate | src/components/organisms/TaskList.jsx:97-101 | with unique ids the list's replace matches the service's `update` at the found index |
| TaskList.RemoveAgreesWithDelete | src/components/organisms/TaskList.jsx:103-105 | with unique ids the list's remove matches the service's `delete`: the others stay in order |
| TaskForm.RequiredMessage | src/components/molecules/TaskForm.jsx:47-57 | exactly title, category and due date have a (non-empty) required-field message |
| TaskForm.NoKeysIffEmpty | src/components/molecules/TaskForm.jsx:61 | `Object.keys(errors).length === 0` holds exactly for the empty error object |
| TaskForm.ValidateForm | src/components/molecules/TaskForm.jsx:44-61 | the errors name exactly the failing fields among title (blank after trim), category and due date, with their messages; description and reminder never fail; valid exactly when there are no errors |
| TaskForm.WhitespaceTitleRejected | src/components/molecules/TaskForm.jsx:47-49 | a whitespace-only title fails validation |
| TaskForm.WithField | src/components/molecules/TaskForm.jsx:95 | the changed field gets the value and every other field is unchanged |
| TaskForm.HandleChange | src/components/molecules/TaskForm.jsx:93-100 | `handleChange` edits only the named field; it blanks only that field's error, and only when that error was set |
| TaskForm.TaskData | src/components/molecules/TaskForm.jsx:70-74 | the submitted data carries the form's fields and the parsed due date; the reminder is null exactly when its input is empty |
| TaskForm.CreatedFromForm | src/components/molecules/TaskForm.jsx:70-81 | a task created from the form is pending, takes the generated id, has no parent, and has no reminder exactly when the input was empty |
| TaskForm.HandleSubmit | src/components/molecules/TaskForm.jsx:63-91 | an invalid form sends nothing; a new task goes to `create`; an edit goes to `update` with the task's id |
| TaskCard.ToggledStatus | src/components/molecules/TaskCard.jsx:24 | `completed` toggles to `pending`, every other status to `completed` |
| TaskCard.ToggleTwice | src/components/molecules/TaskCard.jsx:24 | two toggles restore `pending` and `completed`; `in-progress` returns as `pending` |
| TaskCard.IsOverdue | src/components/molecules/TaskCard.jsx:17 | the overdue flag is never set on a completed task |
| TaskCard.CardOverdueMatchesService | src/components/molecules/TaskCard.jsx:17 | with `isPast` read at now, the card's flag agrees with the service's overdue list |
| TaskCard.DueDateColor | src/components/molecules/TaskCard.jsx:50-55 | completed wins over overdue, overdue over due today, due today over the default colour |
| TaskCard.DueDateLabel | src/components/molecules/TaskCard.jsx:57-62 | overdue wins over due today, due today over this week, this week over the full date |
| TaskCard.CompletedNeverOverdue | src/components/molecules/TaskCard.jsx:17-62 | a completed task is never labelled overdue and always gets the completed colour |
| TaskCard.StatusColor | src/components/molecules/TaskCard.jsx:64-70 | `completed` is success, `in-progress` primary, anything else default |
| TaskCard.FindCategory | src/components/molecules/TaskCard.jsx:15 | the card's category is the first with the task's category id, none exactly when no category has it |
| TaskCard.BadgeShownIff | src/components/molecules/TaskCard.jsx:129-133 | the category badge is shown exactly when some category has the task's category id |
| TaskCard.HandleStatusToggle | src/components/molecules/TaskCard.jsx:21-33 | the toggle updates the stored task's status and passes the result to the list; on "Task not found" both are unchanged |
| TaskCard.HandleDelete | src/components/molecules/TaskCard.jsx:35-48 | a confirmed delete removes the first stored task with the id and the list's copies of it; a cancelled or failed one changes nothing |
| TaskCard.ToggleTwiceRestoresTask | src/components/molecules/TaskCard.jsx:24-25 | two toggles of a pending or completed task restore the stored record |

## Left out

- Asynchrony: the `delay` timers and promises of both services are gone; every operation is synchronous.
- Copies: the spreads that hand out copies (`[...this.tasks]`, `{ ...task }`) are identities, because Dafny values are immutable.
- Calendar arithmetic:
  - Timestamps are integers.
  - Parsing (`new Date(...)`) and the local-time `setHours`/`setDate` boundaries are not modelled; `now`, the start of today and of tomorrow, and `nextWeek` are parameters.
  - date-fns `isPast`/`isToday`/`isThisWeek`/`format` become boolean inputs and a `DueDateText` tag.
- Form date parsing: the form's `new Date(...).toISOString()` is a `parseDate` parameter. An unparsable date makes `toISOString` throw; that case is not modelled.
- TaskRepository.ComputeStats: reads one `now` for every task, where `getStats` creates a new `Date` per task. Results differ only if the clock moves during the scan.
- Id generation: `Date.now().toString()` is a `freshId` parameter. The source does not guarantee unique ids, so the lemmas that need them say so in their `requires`.
- TaskRepository.RoundedPercent: computes `Math.round` exactly on the rational `completed * 100 / total`. Floating-point error at exact half-way points is not modelled.
- String handling:
  - `localeCompare` is a lexicographic code-point order.
  - `toLowerCase` lower-cases ASCII letters only.
  - `trim` removes exactly the ECMAScript whitespace and line-terminator characters.
- Record typing:
  - A task has exactly the nine modelled fields.
  - `create`'s argument carries the five form fields; any of `id`, `status`, `createdAt` and `parentTaskId` may be missing.
  - Extra keys, missing required fields and non-string ids or categories are not modelled.
  - An absent description is the empty string, which never matches a non-empty search term, just as `undefined?.includes(...)` never does.
- `limit`: an integer, with `undefined` written as 0; non-integer values are not modelled.
- Rendering: React state updates, framer-motion animation, toasts and `window.location` are not modelled. `window.confirm` is the `confirmed` input of TaskCard.HandleDelete.
- Stored errors: `validateForm`'s `setErrors` becomes a returned error map.
- Out of scope: SearchBar's debounce timer, CategoryFilter's select toggle, and the Settings, Categories, Dashboard and Tasks pages are not part of this model.
- UpcomingTasks.jsx is not part of this model. It tests `parent_task_id`, while TaskList.jsx tests `parentTaskId`; the model uses `parentTaskId` only.
- Subtask operations (`createSubtask`, `getSubtasks`, subtask progress) do not exist in the task service and are not modelled.
