# Task list engine — a Dafny model

This project models the task-list engine of a small React to-do application.

**The task page** (`src/pages/TasksPage.jsx`) keeps several pieces of state:
- a task list, and project and priority caches;
- five user preferences and a new-task form;
- a *grace window*: a task just completed stays in the active list for 4 seconds, held by a timer per task.

It derives three lists from the tasks: active, completed today and history. "Today" begins at 03:00, not at midnight. The active list can be sorted by priority.

**Writes** to the remote store come in two kinds:
- *Optimistic*: change locally first, reload everything if the store refuses.
- *Confirmed*: change locally only once the store has accepted the write.

**Components** around the page add small state machines and pure helpers:
- the task table's new-task row and inline save;
- the inline text editor (`EditableText`) and its save/revert rules;
- the project picker, with its recency sort and "add new" flow;
- the project filter's membership toggle;
- the coloured project tag, which reads a `#rrggbb` colour with `parseInt(…, 16)`.

**How the outside world is modelled.**
- Every call to the remote store is an input. A boolean `ok` says whether the store accepted the call. The rows, ids and creation times the store assigns are parameters.
- Each method returns the writes it sends (`sent: seq<Write>`). Where the page reloads on failure, it also returns `reload`.
- The server's ordering of fetched rows is a precondition on those rows. Examples: tasks newest first, priorities by level.
- Time is integer milliseconds on the wall clock of the reference zone.
- A timer is a handle in a map, and it fires through an explicit event: `Page.Expire` for the page, `Editor.Fire` for the editor.
- The browser's random colour pick is the parameter `pick`.
- A confirmation dialog's answer is the parameter `confirmed`.

Files, one module each:

- `wrappers.dfy`, `seqs.dfy`, `keyboard.dfy`: `Option`, subsequence and no-duplicate predicates, and the keys the handlers test.
- `records.dfy`: tasks, projects, priorities and settings. Also object-spread patches, the `map`/`filter`/`find` updates the page applies, and the writes sent to the store.
- `text.dfy`: `String.prototype.trim` with ECMAScript's white-space set, and blankness.
- `day_boundary.dfy`: `isToday`.
- `task_views.dfy`: the three views and the priority sort.
- `tasks_page.dfy`: the page as a class, `TasksPage.Page`.
- `task_table.dfy`: the table's handlers acting on a `Page`.
- `editable_text.dfy`: the editor as a class, `EditableText.Editor`.
- `project_selector.dfy`: the project lookup, the recency sort and the picker as a class, `ProjectSelector.Selector`.
- `project_filter.dfy`: the filter toggle.
- `tag.dfy`: `parseInt(…, 16)`, `slice`, number formatting and the tag render.

**Invariants kept by the page and the editor.**
- In `Page.Valid`, the page's `timeoutRefs` map (task id → handle) and its scheduled callbacks (handle → task id) are inverse maps. Handles are never reused. While the page is mounted, the ids with a timer are exactly the ids in their grace window.
- The store's rule that a task has a completion time exactly when it is completed (`AllWellFormed`) is kept by every page method that changes tasks. `FetchTasks` assumes the store's rows obey it. `UpdateTaskField` keeps it only for a field other than `completed` and `completed_at`, since a single write of one of those two can break it.
- `Editor.Valid` states that every scheduled editor timer has a handle below `nextTimer`, so a newly set timer never reuses a handle. The ref `blurTimeout` may still name a timer that has already been cleared, as it does in the source.

## Model

| member | source | states |
|---|---|---|
| DayBoundary.Cutover | src/pages/TasksPage.jsx:39-64 | the cutover is an instant at 03:00 and `now` lies in the half-open day that starts there; before 03:00 that is the previous calendar day's 03:00 |
| DayBoundary.CutoverIsLatestThreeAm | src/pages/TasksPage.jsx:49-56 | any 03:00 instant whose day contains `now` is the cutover, so the cutover is unique |
| DayBoundary.IsTodayIffSameShiftedDay | src/pages/TasksPage.jsx:39-64 | a completion time is "today" exactly when it and `now`, both shifted back three hours, fall on the same calendar day (the window is `>=` the cutover and `<` the next one) |
| DayBoundary.BoundaryIsThreeAm | src/pages/TasksPage.jsx:49-63 | a task completed at 02:30 is still "today" at 02:59 and is history at 03:01 |
| TaskViews.Select | src/pages/TasksPage.jsx:251-276 | a view holds exactly the tasks of the list that satisfy its filter, and is no longer than the list |
| TaskViews.SelectIsSubsequence | src/pages/TasksPage.jsx:251-276 | every view keeps the tasks in their order in the list |
| TaskViews.ViewsCount | src/pages/TasksPage.jsx:251-276 | the active, today and history views together hold each task as often as the list does |
| TaskViews.ViewsPartition | src/pages/TasksPage.jsx:251-276 | every task is in exactly one view, the view sizes add up to the list's size, and every task in its grace window is active |
| TaskViews.ExpiryMovesTask | src/pages/TasksPage.jsx:379-386 | when a completed task's grace window ends it leaves the active view and goes to today's list if completed today, else to the history |
| TaskViews.Prioritised | src/pages/TasksPage.jsx:278-290 | holds exactly the tasks whose priority id is truthy (not null, not 0) |
| TaskViews.Unprioritised | src/pages/TasksPage.jsx:278-290 | holds exactly the tasks whose priority id is null or 0 |
| TaskViews.InsertByLevelPermutes | src/pages/TasksPage.jsx:278-290 | inserting by level adds exactly one occurrence of the task |
| TaskViews.InsertByLevelMembers | src/pages/TasksPage.jsx:278-290 | the inserted list holds the new task and the old ones, nothing else |
| TaskViews.InsertByLevelSorted | src/pages/TasksPage.jsx:278-290 | inserting into a list in non-increasing level keeps it so |
| TaskViews.InsertByLevelStable | src/pages/TasksPage.jsx:278-290 | the tasks of each level keep their order, the new one coming first among its level |
| TaskViews.ByLevelDescFacts | src/pages/TasksPage.jsx:278-290 | the level sort is a permutation, in non-increasing level (a missing level counts as 0), and equal levels keep their order |
| TaskViews.PrioritisedSplit | src/pages/TasksPage.jsx:278-290 | the prioritised and unprioritised tasks together are the list, as a multiset |
| TaskViews.PrioritisedAppend | src/pages/TasksPage.jsx:278-290 | picking the prioritised tasks distributes over concatenation |
| TaskViews.ConcatIsOrdered | src/pages/TasksPage.jsx:278-290 | sorted prioritised tasks followed by unprioritised ones put every prioritised task first, in non-increasing level |
| TaskViews.SortedActiveTasksIsPriorityOrdered | src/pages/TasksPage.jsx:278-290 | sorting off: the sorted view is the active view; sorting on: a permutation of it, prioritised before unprioritised, non-increasing level, equal levels in their original order (unprioritised tasks' mutual order is not promised) |
| Records.ApplyPatch | src/pages/TasksPage.jsx:403-413 | a spread never changes a task's id, owner or creation time |
| Records.EditWhere | src/pages/TasksPage.jsx:403-413 | every task with the id gets the patch, every other task stays as it was, in place |
| Records.CompletionPatchKeepsWellFormed | src/pages/TasksPage.jsx:403-413 | a completion patch sets the flag, sets `completed_at` to `now` when completing and null otherwise, keeps the task well formed and changes nothing else |
| Records.EditWhereKeepsWellFormed | src/pages/TasksPage.jsx:403-413 | a completion edit keeps a well-formed list well formed |
| Records.PatchKeepsWellFormed | src/pages/TasksPage.jsx:166-214 | a patch that names neither `completed` nor `completed_at` keeps a task well formed |
| Records.EditWhereKeepsAllWellFormed | src/pages/TasksPage.jsx:453-483 | such a patch applied by id keeps a well-formed list well formed |
| Records.WithoutId | src/pages/TasksPage.jsx:305 | the filtered list holds exactly the tasks without that id |
| Records.WithoutIdIsSubsequence | src/pages/TasksPage.jsx:305 | the kept tasks stay in their order |
| Records.WithoutIdCounts | src/pages/TasksPage.jsx:305 | every task with the id is dropped, and every other task occurs as often as before |
| Records.FindTask | src/pages/TasksPage.jsx:332-333 | the result, if any, is the first task with the id; none exactly when no task has it |
| Records.FindProject | src/pages/TasksPage.jsx:171 | the cached project with the id, none exactly when the id is null or not cached |
| Records.FindPriority | src/pages/TasksPage.jsx:459-461 | the cached priority with the id, none exactly when the id is null or not cached |
| Records.TouchProject | src/pages/TasksPage.jsx:203-209 | the project with the id gets `last_used_at = now`, every other project is unchanged |
| Records.Set | src/pages/TasksPage.jsx:557-579 | one preference takes the new value and the other four keep theirs |
| TasksPage.StoredId | src/pages/TasksPage.jsx:174-183 | a falsy id (null or 0) is stored as null, any other id as itself |
| TasksPage.NewTaskRecord | src/pages/TasksPage.jsx:426-436 | an inserted task is open, well formed, with no project and no priority |
| TasksPage.AppendedTaskIsOutOfOrder | src/pages/TasksPage.jsx:441 | appending a newer task breaks the newest-first order the store sends, which putting it first would keep |
| TasksPage.PaletteIsHex | src/pages/TasksPage.jsx:218-226 | every palette colour is a well-formed `#rrggbb` colour |
| TasksPage.CompletionEditFacts | src/pages/TasksPage.jsx:403-413 | after a completion edit every task with the id has the new flag, and a well-formed list stays so |
| TasksPage.AppendKeepsWellFormed | src/pages/TasksPage.jsx:441 | appending a well-formed record keeps the list well formed |
| TasksPage.Page.constructor | src/pages/TasksPage.jsx:72-97 | empty lists, "Loading...", default preferences (confetti, sound, completed and history shown; priority sort off), closed empty form, no grace windows or timers |
| TasksPage.Page.FetchTasks | src/pages/TasksPage.jsx:131-158 | the store's rows replace the list on success, the list stays on failure, loading ends either way; well-formedness is kept |
| TasksPage.Page.FetchProjects | src/pages/TasksPage.jsx:112-128 | the store's rows replace the cache on success only |
| TasksPage.Page.FetchPriorities | src/pages/TasksPage.jsx:582-597 | the store's rows replace the cache on success only |
| TasksPage.Page.ToggleTask | src/pages/TasksPage.jsx:324-421 | unknown id: nothing; else writes the negated flag and time; effects only when completing by click and enabled; a refused write changes nothing; an accepted one edits just that task, and completing restarts the task's one timer and keeps it active while un-completing ends its window; timer invariant and well-formedness kept |
| TasksPage.Page.ApplyCompletion | src/pages/TasksPage.jsx:372-413 | the accepted toggle: the list takes the completion patch and the grace window starts (one fresh timer, old one cleared) or ends (timer cleared and forgotten) |
| TasksPage.Page.StartGraceWindow | src/pages/TasksPage.jsx:372-400 | any running timer of the id is cleared, the id enters the grace set, exactly one new timer is set for it |
| TasksPage.Page.EndGraceWindow | src/pages/TasksPage.jsx:389-399 | the id's timer is cleared and removed from the map, and the id leaves the grace set |
| TasksPage.Page.Expire | src/pages/TasksPage.jsx:379-386 | the firing timer's task leaves the grace set and the timer map, after which it is active exactly when not completed |
| TasksPage.Page.Unmount | src/pages/TasksPage.jsx:313-322 | every timer is cleared and the ref map emptied |
| TasksPage.Page.UpdateTaskProject | src/pages/TasksPage.jsx:166-214 | the task's project id (null when falsy) and display copy are set at once; a refused write asks for a reload and stops; otherwise a chosen project is marked used now locally whatever the second write's outcome |
| TasksPage.Page.UpdateTaskPriority | src/pages/TasksPage.jsx:453-483 | the task's priority id (null when falsy) and display copy are set at once; a refused write asks for a reload |
| TasksPage.Page.AddNewProject | src/pages/TasksPage.jsx:217-248 | inserts the name with a palette colour; on success appends and returns exactly that project, whose colour is valid hex; on failure changes and returns nothing |
| TasksPage.Page.AddTask | src/pages/TasksPage.jsx:423-451 | blank text does nothing; otherwise inserts the untrimmed text with no project or priority; on success appends exactly the returned record and resets the form; on failure changes nothing |
| TasksPage.Page.DeleteTask | src/pages/TasksPage.jsx:293-310 | nothing without confirmation; else sends the delete and on success removes exactly the tasks with the id and keeps the others in their order and number; on failure keeps the list and alerts |
| TasksPage.Page.UpdateTaskField | src/pages/TasksPage.jsx:485-501 | sends the one field and sets it locally only on success |
| TasksPage.Page.FetchSettings | src/pages/TasksPage.jsx:504-543 | a row replaces all five preferences; "PGRST116" stores the defaults and keeps what is held; any other error changes nothing |
| TasksPage.Page.UpdateSetting | src/pages/TasksPage.jsx:546-555 | sends exactly the one column write |
| TasksPage.Page.ToggleSetting | src/pages/TasksPage.jsx:557-579 | the preference flips, the others stay, and the flipped value is what is persisted |
| TasksPage.ToggleTwiceRestores | src/pages/TasksPage.jsx:557-579 | flipping a preference twice restores the preferences |
| TaskTable.ActiveRowsEditableIffOpen | src/components/TaskTable.jsx:166-265 | a row's editors are disabled while its task is in its grace window, such a task is shown in the active table, and the editable active rows are exactly the open tasks |
| TaskTable.HandleSortToggle | src/components/TaskTable.jsx:62-66 | the priority sort flips and that new value is persisted under `sort_by_priority` |
| TaskTable.HandleTaskSave | src/components/TaskTable.jsx:68-85 | the task's text changes at once, every other task stays, and a refused write asks for a reload |
| TaskTable.HandleStartAddingTask | src/components/TaskTable.jsx:119-121 | the new-task form opens |
| TaskTable.SetNewTask | src/components/TaskTable.jsx:297-300 | typing sets the form text |
| TaskTable.ChooseNewProject | src/components/TaskTable.jsx:306-314 | the form's project picker sets its project |
| TaskTable.ChooseNewPriority | src/components/TaskTable.jsx:316-322 | the form's priority picker sets its priority |
| TaskTable.HandleNewTaskKeyDown | src/components/TaskTable.jsx:87-109 | Enter adds the task only when the text is not blank; Escape closes and clears the form; any other key does nothing |
| TaskTable.HandleNewTaskBlur | src/components/TaskTable.jsx:111-117 | leaving non-blank text adds the task; blank text only closes the form |
| Text.TrimStart | src/components/EditableText.jsx:12 | removes exactly the leading white space |
| Text.TrimEnd | src/components/EditableText.jsx:12 | removes exactly the trailing white space |
| Text.BlankIffAllSpace | src/components/EditableText.jsx:12-23 | a text is blank exactly when every character is white space |
| Text.BlankIffTrimEmpty | src/components/EditableText.jsx:12-23 | a text is blank exactly when trimming leaves nothing |
| Text.TrimIsSlice | src/components/EditableText.jsx:26-29 | the trimmed text is a contiguous piece of the text |
| Text.TrimCutsOnlySpace | src/components/EditableText.jsx:26-29 | only white space is cut off either side |
| Text.TrimHasNoPadding | src/components/EditableText.jsx:26-29 | the trimmed text neither starts nor ends with white space |
| Text.TrimIdempotent | src/components/EditableText.jsx:26-29 | trimming twice is trimming once |
| EditableText.SaveOf | src/components/EditableText.jsx:11-30 | a save happens exactly when the text is not blank and differs, untrimmed, from the value; what is saved is the trimmed, non-empty, unpadded text |
| EditableText.SavedTextIsStable | src/components/EditableText.jsx:11-30 | saved text is already trimmed, and saving it again against itself saves nothing |
| EditableText.PaddingIsSaved | src/components/EditableText.jsx:26 | adding a leading space to the current value triggers a save of the same trimmed text (the comparison is untrimmed) |
| EditableText.Editor.constructor | src/components/EditableText.jsx:4-8 | not editing, the edit text is the value or "", no pending save |
| EditableText.Editor.HandleSave | src/components/EditableText.jsx:11-30 | the pending blur save is cleared; blank text restores the value without saving; other text is saved (per `SaveOf`) exactly once; editing ends |
| EditableText.Editor.HandleKeyDown | src/components/EditableText.jsx:32-49 | Enter and Tab (without Shift) save; Escape reverts to the value and ends editing without saving; other keys change nothing |
| EditableText.Editor.Change | src/components/EditableText.jsx:154 | typing sets the edit text only |
| EditableText.Editor.SetProps | src/components/EditableText.jsx:4 | new props replace the value and the disabled flag only |
| EditableText.Editor.Resync | src/components/EditableText.jsx:53-57 | while not editing, a differing edit text is reset to the value; otherwise nothing changes |
| EditableText.Editor.HandleStartEditing | src/components/EditableText.jsx:93-97 | editing starts only when not disabled |
| EditableText.Editor.HandleDisplayKeyDown | src/components/EditableText.jsx:99-107 | Enter or Space starts editing, only when not disabled |
| EditableText.Editor.ScheduleSave | src/components/EditableText.jsx:78-83 | blur sets exactly one fresh timer with its delay and records it as the pending save |
| EditableText.Editor.HandleFocus | src/components/EditableText.jsx:85-91 | focus cancels and forgets the pending save |
| EditableText.Editor.Fire | src/components/EditableText.jsx:78-83 | a timer firing performs the save of `HandleSave` |
| EditableText.Editor.HandleClickOutside | src/components/EditableText.jsx:109-145 | a click inside does nothing; outside on an interactive element schedules a save; elsewhere outside saves at once |
| EditableText.Editor.Cleanup | src/components/EditableText.jsx:139-144 | the cleanup of the click-outside effect (run when editing starts or ends, when `handleSave` changes, and on unmount, like the unmount cleanup at lines 69-76) clears the timer the ref names, keeps the ref and changes nothing else |
| ProjectSelector.CurrentProject | src/components/ProjectSelector.jsx:55-57 | the selected id is the task's project id when set, else `projectId`; the result is the cached project with that id, none exactly when there is none |
| ProjectSelector.NameCompare | src/components/ProjectSelector.jsx:65 | a three-way comparison result |
| ProjectSelector.NameCompareAntisymmetric | src/components/ProjectSelector.jsx:65 | swapping the names negates the comparison, which is 0 exactly for equal names |
| ProjectSelector.NameCompareTransitive | src/components/ProjectSelector.jsx:65 | the name order is transitive |
| ProjectSelector.ProjectCompareIsTotalPreorder | src/components/ProjectSelector.jsx:59-66 | the recency comparator is total, antisymmetric and transitive, and ties exactly on the same time or the same name of unused projects |
| ProjectSelector.InsertByRecencyMembers | src/components/ProjectSelector.jsx:59-66 | insertion adds exactly one occurrence of the project |
| ProjectSelector.PrependSortedByRecency | src/components/ProjectSelector.jsx:59-66 | a project not after any of a sorted list keeps it sorted in front |
| ProjectSelector.InsertByRecencySorted | src/components/ProjectSelector.jsx:59-66 | insertion keeps a list sorted by the comparator |
| ProjectSelector.InsertByRecencyStable | src/components/ProjectSelector.jsx:59-66 | projects that tie keep their order, the new one first |
| ProjectSelector.SortedProjectsPermutes | src/components/ProjectSelector.jsx:59-66 | the sorted list is a permutation of the projects |
| ProjectSelector.SortedProjectsSorted | src/components/ProjectSelector.jsx:59-66 | the sorted list is ordered by the comparator |
| ProjectSelector.SortedProjectsStable | src/components/ProjectSelector.jsx:59-66 | projects that tie keep their original order |
| ProjectSelector.SortedProjectsOrder | src/components/ProjectSelector.jsx:59-66 | used projects first, most recent first, equal times not broken by name, unused ones by name, and a permutation |
| ProjectSelector.Selector.constructor | src/components/ProjectSelector.jsx:32-42 | closed, not adding, empty name, no context menu |
| ProjectSelector.Selector.HandleOpen | src/components/ProjectSelector.jsx:143-153 | a disabled picker does not open |
| ProjectSelector.Selector.HandleSelect | src/components/ProjectSelector.jsx:155-162 | reports the task id (null without a task) and the chosen id (null for "No project"), then closes |
| ProjectSelector.Selector.HandleClickOutside | src/components/ProjectSelector.jsx:69-94 | an outside click closes an open picker and its add-new row unless a context menu is open |
| ProjectSelector.Selector.OpenContextMenu | src/components/ProjectSelector.jsx:194-202 | the context menu opens for that project |
| ProjectSelector.Selector.CloseContextMenu | src/components/ProjectSelector.jsx:232 | the context menu closes |
| ProjectSelector.Selector.HandleWindowResize | src/components/ProjectSelector.jsx:127-141 | a resize closes an open context menu and otherwise changes nothing |
| ProjectSelector.Selector.StartAddingNew | src/components/ProjectSelector.jsx:290-292 | the add-new row opens |
| ProjectSelector.Selector.SetName | src/components/ProjectSelector.jsx:307-309 | typing sets the new name |
| ProjectSelector.Selector.HandleAddNew | src/components/ProjectSelector.jsx:164-182 | a blank name does nothing; otherwise the trimmed name is requested, a returned project is selected for the task, and the row is cleared and closed |
| ProjectSelector.Selector.HandleKeyDown | src/components/ProjectSelector.jsx:184-193 | Enter adds as `HandleAddNew`; Escape leaves the add-new row and clears the name; other keys do nothing |
| ProjectFilter.RemoveAll | src/components/ProjectFilter.jsx:24-25 | removes the id and keeps every other id present |
| ProjectFilter.RemoveAllCounts | src/components/ProjectFilter.jsx:24-25 | removes exactly the occurrences of the id, every other id keeping its count |
| ProjectFilter.RemoveAllIsSubsequence | src/components/ProjectFilter.jsx:24-25 | the remaining ids keep their order |
| ProjectFilter.ToggleCases | src/components/ProjectFilter.jsx:22-30 | an absent id is appended at the end, a present one removed everywhere |
| ProjectFilter.ToggleFlipsSelection | src/components/ProjectFilter.jsx:22-34 | a toggle negates the id's selection and leaves every other id's |
| ProjectFilter.RemoveAllKeepsNoDuplicates | src/components/ProjectFilter.jsx:24-25 | removal keeps a duplicate-free list so |
| ProjectFilter.ToggleKeepsNoDuplicates | src/components/ProjectFilter.jsx:22-30 | toggling keeps a duplicate-free list so |
| ProjectFilter.RemoveAllOfAbsent | src/components/ProjectFilter.jsx:24-25 | removing an absent id changes nothing |
| ProjectFilter.RemoveAllAppend | src/components/ProjectFilter.jsx:24-27 | removing an id just appended is removing it from the list before |
| ProjectFilter.ToggleTwice | src/components/ProjectFilter.jsx:22-30 | toggling twice selects the same ids; an absent id gives back the list, a present one moves to the end |
| Tag.HexDigitValue | src/components/ui/tag.jsx:6-8 | a hex digit's value is below 16 |
| Tag.HexRun | src/components/ui/tag.jsx:6-8 | the longest prefix of hex digits |
| Tag.ParseIntHex | src/components/ui/tag.jsx:6-8 | `parseInt(…, 16)` is NaN exactly when no hex digit follows the white space, sign and `0x` prefix |
| Tag.Slice | src/components/ui/tag.jsx:6-8 | `slice` with clamped bounds: the exact piece when the bounds are in range |
| Tag.NatToString | src/components/ui/tag.jsx:9 | a number is written as a non-empty run of decimal digits |
| Tag.NatToStringRoundTrip | src/components/ui/tag.jsx:9 | the decimal text reads back as the number, without a leading zero |
| Tag.Byte | src/components/ui/tag.jsx:6-8 | two hex digits make a value in 0..255 |
| Tag.HexChar | src/components/ui/tag.jsx:6-8 | the digit written for a value reads back as that value |
| Tag.HexDigitIsPlain | src/components/ui/tag.jsx:6-8 | a hex digit is not white space, a sign or an `x` |
| Tag.ParseHexPair | src/components/ui/tag.jsx:6-8 | two hex digits parse to their byte |
| Tag.ParseHexDigit | src/components/ui/tag.jsx:6-8 | one hex digit parses to its value |
| Tag.ParseEmptyIsNaN | src/components/ui/tag.jsx:6-8 | the empty text parses to NaN |
| Tag.ParseNonHex | src/components/ui/tag.jsx:6-8 | a pair starting with a character that is not hex, white space or a sign parses to NaN |
| Tag.ChannelIsParseOfPair | src/components/ui/tag.jsx:6-8 | a channel is the parse of its two characters |
| Tag.ChannelOfHexPair | src/components/ui/tag.jsx:6-8 | a hex pair's channel is its byte |
| Tag.ChannelText | src/components/ui/tag.jsx:6-9 | a hex pair's channel is written as that byte in decimal |
| Tag.RgbaOfTexts | src/components/ui/tag.jsx:9 | the rgba text is the three channel texts and the alpha in order |
| Tag.WellFormedColours | src/components/ui/tag.jsx:5-17 | for `#rrggbb`, light and medium are `rgba(r, g, b, …)` of the same three bytes, with alpha "0.1" and "0.4" |
| Tag.HexColorRoundTrip | src/components/ui/tag.jsx:5-17 | writing three bytes as `#rrggbb` gives a well-formed colour whose channels read back as those bytes |
| Tag.ShortFormChannels | src/components/ui/tag.jsx:6-8 | `#abc` reads as the channels 171, 12 and NaN |
| Tag.SmallNumerals | src/components/ui/tag.jsx:9 | 0, 12 and 171 are written "0", "12" and "171" |
| Tag.ShortFormIsMisread | src/components/ui/tag.jsx:5-10 | the light colour of `#abc` is `rgba(171, 12, NaN, 0.1)` |
| Tag.NonHexChannels | src/components/ui/tag.jsx:6-8 | `#zz0000` reads as NaN, 0 and 0 |
| Tag.NonHexChannelIsNaN | src/components/ui/tag.jsx:5-10 | the light colour of `#zz0000` is `rgba(NaN, 0, 0, 0.1)` |
| Tag.Render | src/components/ui/tag.jsx:20-36 | the border class only for variants other than "completed"; background the light colour; border transparent for "completed", else the medium colour; text colour the input; title and text the name |

## Left out

- Remote store: queries, joins and error messages are not modelled. Each call is an `ok` input plus the rows it returns. The server's orderings (`NewestFirst`, `ByLevel`, `RecentFirst`) and its completion rule for fetched tasks (`AllWellFormed`) are preconditions, not proved.
- `isToday` time-zone conversion (the `toLocaleString` reinterpretation, daylight saving, `setDate`) is not modelled. The model uses one wall clock in integer milliseconds, and `now` is a parameter rather than a fresh `new Date()` per task.
- Side effects are reduced to inputs and outputs:
  - Confetti, sound, scroll restoration, and the blur plus 50 ms wait before a toggle. Confetti and sound are returned as booleans.
  - `confirm` is the `confirmed` input; `alert` is the `alerted` output.
  - `Math.random` is the `pick` input.
- Concurrency:
  - Async handlers are atomic and sequential. Interleavings of pending writes are not modelled.
  - Stale closures are not modelled: `toggleTask` reading an old `tasks`, and a scheduled editor save running an old `handleSave`.
- Errors and timing details:
  - TasksPage.Page.ToggleTask: an unknown id does nothing. In the browser, reading `.completed` of `undefined` throws.
  - Handlers that run after unmount are not modelled.
  - The editor's 150 ms and 100 ms blur delays are recorded but not compared.
- `localeCompare` is modelled as code-point order. Locale collation is not modelled.
- Rendering is not modelled: dropdown positioning, portals, scroll and resize listeners beyond closing the context menu, focus and caret placement, and the markup.
- Other files are not part of this model:
  - `PrioritySelector.jsx`: its lookup duplicates the project lookup.
  - `ProjectContextMenu.jsx`, `Auth.jsx`, `App.jsx`, `SettingsSidebar.jsx`, `TagsList.jsx` and `StarButton.jsx`.
- Project deletion and recolouring are left out: the page never supplies `onDelete` or `onColorChange`.
- The unused `startEditing`/`saveEdit`/`cancelEdit` of `src/pages/TasksPage.jsx:599-618` are left out.

## Where design and code differ

The model follows the code in each case:

- `addTask` inserts neither the project nor the priority chosen in the form. It does reset both afterwards.
- `fetchSettings` changes nothing in memory on an error other than "PGRST116". On "PGRST116" it stores the defaults but keeps the preferences it holds.
- `addTask` inserts the text as typed, untrimmed. Only the blank test trims it.
- `parseInt(…, 16)` is modelled as the language defines it, including NaN, so ill-formed colours are covered too: `#abc` and `#zz0000` render `NaN` channels.
- An id of 0 is falsy, as in the browser:
  - `StoredId` stores null for it, `UpdateTaskProject` does not mark project 0 as used, and an open context menu for project 0 does not block an outside click.
  - The priority sort counts a task with priority id 0 as unprioritised (`HasPriority`).
