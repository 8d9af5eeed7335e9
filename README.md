# Task and category client: a Dafny model

This project models the core of a task/to-do web client. Users keep tasks
(title, description, category, priority, due date, completion and archive
flags) and categories (name, colour, icon, a derived task count). The core has
three parts:

- **Two in-memory services.** `TaskService` and `CategoryService` each own a
  table of records and offer find, create, update and delete operations.
- **Task views.** A combined view (`MainFeature`), plus the today, upcoming,
  all-tasks and two archive pages. Each loads the tables, selects tasks by
  archive flag, due date and a search query, and toggles completion. The
  archive pages also restore and permanently delete tasks.
- **Category screens.** Two pages, a form modal and a quick-add row. The pages
  attach live task counts to categories and create, edit and delete
  categories. They refuse to delete a category that still has non-archived
  tasks.

## How the model is built

- **Records are JavaScript objects.** An object is a finite map from field
  name to a primitive `Value`. An absent field reads as `undefined`. The
  object spread is map union, where the right-hand side wins.
- **Truthiness and equality.** `Truthy` is JavaScript truthiness. `===` on
  primitive values is equality of `Value`.
- **Timestamps.** An ISO timestamp is an `Instant` in milliseconds. The local
  time zone is a fixed UTC offset carried in a `Clock`.
- **Services are classes.** They keep the same `tasks`/`categories` sequence
  fields that the source mutates in place. Their methods state the new table
  exactly: append, replace at the first index with the id, or remove at that
  index. A missing id is the `Err` path.
- **Pages are classes.** Each page is a class whose fields are its React
  state. Each handler is a method that takes the service object it calls.
  - A handler also takes `remoteError: Option<string>`: `Some` stands for a
    remote call that throws, with its message.
  - The user's answer to a confirmation dialog is `confirmed: bool`.
  - The id a service would draw from the clock is a parameter, and so is
    "now".
- **Sync invariants.** Every page has an `InSync` invariant: what the page
  shows equals what reloading it would show. For example, the today page
  holds the whole table, the all-tasks page holds the non-archived
  selection, and the categories pages hold the categories with freshly
  counted tasks.
  - Every handler that calls a service preserves `InSync`. For the handlers
    that look records up by id, this holds when ids are unique.
  - The preservation proofs are the `Reconcile` lemmas. Each one shows that
    the page's local patch of its list equals recomputing the list from the
    updated table.
- **Selections.** `Selects(r, s, p)` says `r` is `s` with exactly the
  elements satisfying `p`, in order and with their multiplicities. Every
  filter is specified this way, and `SelectsUnique` proves that this fixes
  the result.

## Model

| member | source | states |
|---|---|---|
| TaskServices.NewTaskRecord | src/services/api/taskService.js:26-32 | a created task has the caller's fields plus `createdAt` = now, `completedAt` null and `archived` false; its id is the caller's `id` if given, else the generated one |
| TaskServices.NewTaskIsActive | src/services/api/taskService.js:24-35 | a created task is never archived, has no completion time, and is consistent exactly when the caller did not mark it completed |
| TaskServices.TaskService.constructor | src/services/api/taskService.js:6-8 | the table starts as a copy of the seed data |
| TaskServices.TaskService.GetAll | src/services/api/taskService.js:10-13 | returns the whole table in order |
| TaskServices.TaskService.GetById | src/services/api/taskService.js:15-22 | fails with "Task not found" exactly when no task has the id; otherwise returns the first task with it |
| TaskServices.TaskService.Create | src/services/api/taskService.js:24-35 | the table gains exactly the new record at its end, and that record is returned |
| TaskServices.TaskService.Update | src/services/api/taskService.js:37-46 | a missing id fails and leaves the table alone; otherwise only the first task with the id changes, to its spread with the updates, and is returned |
| TaskServices.TaskService.Delete | src/services/api/taskService.js:48-57 | a missing id fails and leaves the table alone; otherwise exactly the first task with the id is removed |
| TaskServices.TaskService.GetByCategory | src/services/api/taskService.js:59-62 | exactly the tasks whose `categoryId` equals the argument, in table order |
| TaskServices.TaskService.GetCompleted | src/services/api/taskService.js:64-67 | exactly the completed, non-archived tasks, in table order |
| TaskServices.TaskService.GetArchived | src/services/api/taskService.js:69-72 | exactly the archived tasks, in table order |
| CategoryServices.NewCategoryRecord | src/services/api/categoryService.js:26-31 | a created category has the caller's fields, `taskCount` 0 and `order` equal to the table length before the call; its id is the caller's if given |
| CategoryServices.CategoryService.constructor | src/services/api/categoryService.js:6-8 | the table starts as a copy of the seed data |
| CategoryServices.CategoryService.GetAll | src/services/api/categoryService.js:10-13 | returns the whole table in order |
| CategoryServices.CategoryService.GetById | src/services/api/categoryService.js:15-22 | fails with "Category not found" exactly when no category has the id; otherwise returns the first with it |
| CategoryServices.CategoryService.Create | src/services/api/categoryService.js:24-34 | appends exactly the new record, whose order is the old table length |
| CategoryServices.CategoryService.Update | src/services/api/categoryService.js:36-45 | a missing id fails unchanged; otherwise only the first category with the id becomes its spread with the updates |
| CategoryServices.CategoryService.Delete | src/services/api/categoryService.js:47-56 | a missing id fails unchanged; otherwise exactly the first category with the id is removed |
| CategoryServices.CategoryService.UpdateTaskCount | src/services/api/categoryService.js:58-66 | a missing id fails unchanged; otherwise only that category's `taskCount` is overwritten |
| Records.Spread | src/services/api/taskService.js:44 | the spread has the keys of both objects, and the right-hand object wins on every shared key |
| Records.FindIndex | src/services/api/taskService.js:39 | -1 exactly when no record has the id; otherwise the first index with it |
| Records.Find | src/components/MainFeature.jsx:78 | absent exactly when no record has the id; otherwise the record at `FindIndex` |
| Records.RemoveAt | src/services/api/taskService.js:55 | one element shorter, with the prefix kept and the suffix shifted down; the multiset loses exactly the removed element |
| Records.MessageOr | src/components/MainFeature.jsx:33 | an error's message when it is non-empty, else the fallback text |
| Text.TrimStart | src/components/MainFeature.jsx:97 | drops exactly the leading white space and line terminators |
| Text.TrimEnd | src/components/MainFeature.jsx:97 | drops exactly the trailing white space and line terminators |
| Text.Trim | src/components/organisms/QuickAddTaskSection.jsx:13 | the trimmed string is no longer than the input and neither starts nor ends with white space |
| Text.TrimEmptyIffBlank | src/components/organisms/QuickAddTaskSection.jsx:13 | a trimmed title is empty exactly when every character is white space or a line terminator |
| Text.ToLower | src/components/MainFeature.jsx:68-69 | same length, each character lowered, and no upper-case letter left |
| Text.ToLowerIdempotent | src/components/MainFeature.jsx:68-69 | lowering twice is lowering once |
| Text.Includes | src/components/MainFeature.jsx:68-69 | true exactly when the needle occurs at some position of the haystack |
| Dates.StartOfDay | src/components/MainFeature.jsx:52 | local midnight is at or before the instant, less than a day before it, and on a local day boundary |
| Dates.SameDayIsWindow | src/components/MainFeature.jsx:47 | two instants share a local day exactly when the first lies in the 24 hours from the second's local midnight |
| Dates.IsToday | src/components/MainFeature.jsx:47 | an instant is today exactly when it lies in the day starting at local midnight of now |
| Dates.DateOf | src/components/MainFeature.jsx:47 | an ISO timestamp denotes its instant; a number denotes that many milliseconds, null the epoch and a boolean 0 or 1 ms; `undefined` and an unparsed string denote no date |
| TaskFilters.DueToday | src/components/MainFeature.jsx:46-48 | a task is due today exactly when its due date is set, denotes an instant, and lies in the 24 hours from today's local midnight |
| TaskFilters.DueAfterStartOfToday | src/components/MainFeature.jsx:51-53 | a task is upcoming exactly when it is due today but not at midnight itself, or due on a later day |
| TaskFilters.MatchesQuery | src/components/MainFeature.jsx:66-70 | a match needs a string title; every task with a string title matches the empty query |
| TaskFilters.SearchIgnoresQueryCase | src/components/MainFeature.jsx:66-71 | the search gives the same answer for a query and its lower-cased form |
| TaskFilters.TodayVersusUpcoming | src/components/MainFeature.jsx:45-53 | a task due today is also due after the start of today, except one due exactly at local midnight |
| TaskFilters.LaterDayIsUpcomingOnly | src/components/MainFeature.jsx:45-53 | a task due on or after the next local midnight is upcoming and not today |
| TaskFilters.ActiveTasks | src/components/pages/AllTasksPage.jsx:22 | exactly the non-archived tasks, in order, with multiplicities |
| TaskFilters.ArchiveSelection | src/pages/Archive.jsx:27 | exactly the tasks that are archived or completed, in order, with multiplicities |
| TaskMutations.TogglePayload | src/components/MainFeature.jsx:79-82 | the payload flips `completed` and sets `completedAt` to now when completing, or to null when un-completing |
| TaskMutations.ToggleMerged | src/components/MainFeature.jsx:76-94 | the toggled task has the opposite completion, its completion time agrees with its flag, and no other field changes |
| TaskMutations.ToggleTwice | src/components/MainFeature.jsx:76-94 | toggling twice restores the completion flag; the completion time is null exactly when the task started incomplete; no other field changes |
| TaskMutations.RestoreLeavesArchive | src/pages/Archive.jsx:38-51 | a restored task is neither archived nor completed and has no completion time, so it leaves the archive selection |
| TaskMutations.ReplaceById | src/components/MainFeature.jsx:84 | same length; every record with the id becomes the new record, and every other record stays in place |
| TaskMutations.ReplaceByIdKeepsIds | src/components/MainFeature.jsx:84 | replacing by a record with the same id keeps every position's id |
| TaskMutations.RemoveById | src/pages/Archive.jsx:46 | exactly the records without the id, in order |
| TaskMutations.DefaultCategoryId | src/components/MainFeature.jsx:103 | the first category's id when it is truthy, else null; the today, upcoming and all-tasks pages pass their quick-add section this same default |
| TaskMutations.QuickAddPayload | src/components/organisms/QuickAddTaskSection.jsx:16-24 | the quick-add payload carries the title and category id and is not completed, not archived and has no completion time |
| MainFeatureView.ByView | src/components/MainFeature.jsx:40-63 | the view stage never grows the list and keeps only tasks of the list that the view's test accepts |
| MainFeatureView.ByViewKeeps | src/components/MainFeature.jsx:40-63 | the staged view filters equal one filter by the view's test |
| MainFeatureView.FilterTasks | src/components/MainFeature.jsx:40-74 | exactly the tasks the view and the query let through, in order, with multiplicities |
| MainFeatureView.ArchivedOnlyInArchive | src/components/MainFeature.jsx:41-59 | views other than archive never list an archived task; the archive view lists exactly the archived tasks |
| MainFeatureView.DueLaterTodayInBothViews | src/components/MainFeature.jsx:45-53 | a non-archived task due today, but not exactly at local midnight, is listed by both the today and the upcoming view |
| MainFeatureView.EmptyQueryListsWholeView | src/components/MainFeature.jsx:66-71 | an empty query lists the whole view; any query lists at most that many tasks |
| MainFeatureView.ProgressCounts | src/components/MainFeature.jsx:149-150 | the totals are the non-archived tasks and the completed ones among them, so completed never exceeds total |
| MainFeatureView.MainFeature.constructor | src/components/MainFeature.jsx:8-16 | the props are kept; lists are empty, no error, and the quick-add row is closed and empty |
| MainFeatureView.MainFeature.LoadData | src/components/MainFeature.jsx:22-38 | success holds both tables (in sync); failure keeps the lists and records the message or "Failed to load data" |
| MainFeatureView.MainFeature.HandleTaskComplete | src/components/MainFeature.jsx:76-94 | an unlisted task or failed call changes nothing; otherwise the stored task gets the toggle and every listed copy is replaced by it; keeps the page in sync when ids are unique |
| MainFeatureView.MainFeature.HandleQuickAdd | src/components/MainFeature.jsx:96-117 | a blank title or failed call changes nothing; otherwise the created record is appended to table and list, the title is cleared and the row closed; keeps the page in sync |
| MainFeatureView.MainFeature.AppendQuickAdd | src/components/MainFeature.jsx:100-112 | the record created from the sent data ends both the table and the list, and the row is cleared and closed |
| MainFeatureView.MainFeature.OpenQuickAdd | src/components/MainFeature.jsx:225 | the quick-add row is shown |
| MainFeatureView.MainFeature.CloseQuickAdd | src/components/MainFeature.jsx:308 | the quick-add row is hidden |
| MainFeatureView.MainFeature.SetQuickTaskTitle | src/components/MainFeature.jsx:294 | the title becomes the typed value |
| TodayView.TodayTasks | src/components/pages/TodayPage.jsx:38-42 | exactly the non-archived tasks due today, in order, with multiplicities |
| TodayView.TodayAgreesWithMainFeature | src/components/pages/TodayPage.jsx:38-42 | the page lists what the combined view lists for "today" with no query |
| TodayView.TodayCounts | src/components/pages/TodayPage.jsx:76-78 | the total is the page's list and the completed count is its completed tasks, never more than the total |
| TodayView.TodayPage.constructor | src/components/pages/TodayPage.jsx:10-14 | empty lists and no error |
| TodayView.TodayPage.LoadData | src/components/pages/TodayPage.jsx:16-32 | success holds both tables (in sync); failure keeps the lists and records the message or "Failed to load data" |
| TodayView.TodayPage.HandleTaskComplete | src/components/pages/TodayPage.jsx:44-62 | as in the combined view: the stored toggle replaces every listed copy; keeps the page in sync when ids are unique |
| TodayView.TodayPage.HandleAddTask | src/components/pages/TodayPage.jsx:64-68 | a failed call is passed back with nothing changed; otherwise the created record is appended to table and list and returned |
| UpcomingView.UpcomingTasks | src/components/pages/UpcomingPage.jsx:37-41 | exactly the non-archived tasks due after local midnight, in order, with multiplicities |
| UpcomingView.UpcomingAgreesWithMainFeature | src/components/pages/UpcomingPage.jsx:37-41 | the page lists what the combined view lists for "upcoming" with no query |
| UpcomingView.TodayAndUpcomingOverlap | src/components/pages/UpcomingPage.jsx:37-41 | a task on the today page is also upcoming exactly when it is not due at local midnight; one due on a later day is only upcoming |
| UpcomingView.UpcomingPage.constructor | src/components/pages/UpcomingPage.jsx:9-13 | empty lists and no error |
| UpcomingView.UpcomingPage.LoadData | src/components/pages/UpcomingPage.jsx:15-31 | success holds both tables (in sync); failure keeps the lists and records the message or the fallback |
| UpcomingView.UpcomingPage.HandleTaskComplete | src/components/pages/UpcomingPage.jsx:43-61 | the stored toggle replaces every listed copy; keeps the page in sync when ids are unique |
| UpcomingView.UpcomingPage.HandleAddTask | src/components/pages/UpcomingPage.jsx:63-67 | a failed call is passed back unchanged; otherwise the created record is appended and returned |
| AllTasksView.AllAgreesWithMainFeature | src/components/pages/AllTasksPage.jsx:22 | the page's load filter is the combined view's "all" with no query |
| AllTasksView.ToggleKeepsArchived | src/components/pages/AllTasksPage.jsx:36-54 | toggling never changes whether a task is archived |
| AllTasksView.AllTasksPage.constructor | src/components/pages/AllTasksPage.jsx:8-12 | empty lists and no error |
| AllTasksView.AllTasksPage.LoadData | src/components/pages/AllTasksPage.jsx:14-30 | success holds the non-archived selection (in sync); failure keeps the lists and records the message or the fallback |
| AllTasksView.AllTasksPage.HandleTaskComplete | src/components/pages/AllTasksPage.jsx:36-54 | the stored toggle replaces every listed copy; the list stays the non-archived selection of the table when ids are unique |
| AllTasksView.AllTasksPage.HandleAddTask | src/components/pages/AllTasksPage.jsx:56-60 | a failed call is passed back unchanged; otherwise the created record is appended, and the list stays the non-archived selection |
| ArchiveView.Archive.constructor | src/pages/Archive.jsx:8-12 | empty lists and no error |
| ArchiveView.Archive.LoadData | src/pages/Archive.jsx:18-36 | success holds the archived-or-completed selection (in sync); failure keeps the lists and records the message or "Failed to load archived tasks" |
| ArchiveView.Archive.HandleRestoreTask | src/pages/Archive.jsx:38-51 | a missing id or failed call changes nothing; otherwise the stored task is un-archived and un-completed and drops off the list; keeps the page in sync when ids are unique |
| ArchiveView.Archive.HandlePermanentDelete | src/pages/Archive.jsx:53-65 | no confirmation, a missing id or a failed call changes nothing; otherwise the task leaves table and list; keeps the page in sync when ids are unique |
| ArchivePageView.ArchivePage.constructor | src/components/pages/ArchivePage.jsx:7-11 | empty lists and no error |
| ArchivePageView.ArchivePage.LoadData | src/components/pages/ArchivePage.jsx:13-31 | success holds the archived-or-completed selection (in sync); failure keeps the lists and records the message or the fallback |
| ArchivePageView.ArchivePage.HandleRestoreTask | src/components/pages/ArchivePage.jsx:37-50 | the stored task is restored and drops off the list; keeps the page in sync when ids are unique |
| ArchivePageView.ArchivePage.HandlePermanentDelete | src/components/pages/ArchivePage.jsx:52-64 | a confirmed delete removes the task from table and list; keeps the page in sync when ids are unique |
| CategoryRules.TaskCount | src/pages/Categories.jsx:44-47 | a category's count is at most the number of tasks, and zero when there are none |
| CategoryRules.DeleteBlocked | src/pages/Categories.jsx:98-99 | only a category that exists can block deletion; a numeric count blocks exactly when it is above zero |
| CategoryRules.HasFilledName | src/pages/Categories.jsx:60 | the name guard passes exactly when the name is a string that is non-empty once trimmed |
| CategoryRules.TaskCountPositive | src/pages/Categories.jsx:44-47 | a category's count is positive exactly when some non-archived task references it |
| CategoryRules.WithTaskCounts | src/pages/Categories.jsx:44-47 | same length, each category with `taskCount` set to its live count |
| CategoryRules.SameCountsSameCategories | src/pages/Categories.jsx:44-47 | two task lists giving every category the same count give the same counted categories |
| CategoryRules.CountsIgnoreTaskOrder | src/pages/Categories.jsx:44-47 | the counts depend only on the multiset of tasks |
| CategoryRules.SkipUncountedTask | src/pages/Categories.jsx:44-47 | a task that does not count toward a category can be dropped without changing its count |
| CategoryRules.UnreferencedTaskCountsNowhere | src/pages/Categories.jsx:44-47 | a task referencing no listed category changes no count |
| CategoryRules.DeleteBlockedIffReferenced | src/pages/Categories.jsx:97-115 | on counted categories, deletion is refused exactly when some non-archived task references the category |
| CategoryRules.FindIndexAgrees | src/pages/Categories.jsx:97-115 | two tables with the same ids position by position find every id at the same index |
| CategoryRules.ReplaceKeepingCount | src/pages/Categories.jsx:89 | every category with the updated id becomes the update with its old count; the others are kept |
| CategoryRules.ReplaceKeepsDeleteGuard | src/pages/Categories.jsx:89 | an update never changes whether a delete would be refused |
| CategoryRules.FieldOr | src/pages/Archive.jsx:67-75 | always truthy: the first matching category's field when truthy, else the fallback |
| CategoryRules.CategoryName | src/pages/Archive.jsx:67-70 | the category's truthy name, else "Uncategorized" |
| CategoryRules.CategoryColor | src/pages/Archive.jsx:72-75 | the category's truthy colour, else "#6B7280"; the combined view colours its tasks with the same rule |
| Reconcile.ReplaceInSelection | src/components/pages/AllTasksPage.jsx:36-54 | replacing by id on a selection equals selecting from the table with that record replaced, when the record keeps its membership |
| Reconcile.LeaveSelection | src/pages/Archive.jsx:38-51 | dropping the id from a selection equals selecting from the table whose record was replaced by one that fails the selection |
| Reconcile.DeleteFromSelection | src/pages/Archive.jsx:53-65 | dropping the id from a selection equals selecting from the table without that record |
| Reconcile.AppendToSelection | src/components/pages/AllTasksPage.jsx:56-60 | appending a record that passes the selection equals selecting from the extended table |
| Reconcile.ReplaceInTable | src/components/MainFeature.jsx:84 | with unique ids, replacing by id is updating the one position holding the id |
| Reconcile.UpdateKeepsCounts | src/pages/Categories.jsx:76-95 | patching an id-preserving update into counted categories equals counting the updated table afresh |
| Reconcile.DeleteKeepsCounts | src/pages/Categories.jsx:97-115 | removing the deleted category from counted categories equals counting the table without it |
| Reconcile.CreateKeepsCounts | src/pages/Categories.jsx:59-74 | appending an unreferenced new category with count 0 equals counting the extended table |
| CategoriesView.EditPayload | src/pages/Categories.jsx:83-87 | the update sends exactly name, colour and icon of the edited category, never its id or count |
| CategoriesView.EmptyFormHasShape | src/pages/Categories.jsx:68 | the reset form has the three fields with a listed colour and icon |
| CategoriesView.Categories.constructor | src/pages/Categories.jsx:7-18 | empty lists, no error, modals closed, the create form at its defaults |
| CategoriesView.Categories.LoadData | src/pages/Categories.jsx:34-57 | success holds the counted categories and the tasks (in sync); failure keeps the lists and records the message or "Failed to load categories" |
| CategoriesView.Categories.HandleCreateCategory | src/pages/Categories.jsx:59-74 | a blank name or failed call changes nothing; otherwise the created category is appended to table and page, the form resets and the modal closes; keeps the page in sync for an unused fresh id |
| CategoriesView.Categories.CreateStored | src/pages/Categories.jsx:63-69 | the created category ends table and page; the form resets and the modal closes |
| CategoriesView.Categories.HandleUpdateCategory | src/pages/Categories.jsx:76-95 | nothing edited, a blank name or a failed call changes nothing; otherwise the stored category gets the edit and the page copy keeps its count; keeps the page in sync when ids are unique |
| CategoriesView.Categories.SaveEdit | src/pages/Categories.jsx:82-90 | a missing id changes nothing; otherwise the first category with it gets the edited name, colour and icon in the table, the page copy is patched keeping its count, and the edit form closes; counted categories stay counted when ids are unique |
| CategoriesView.Categories.HandleDeleteCategory | src/pages/Categories.jsx:97-115 | asks for confirmation exactly when the category has no non-archived tasks; a referenced category is never deleted; a confirmed delete removes it from table and page; keeps the page in sync when ids are unique |
| CategoriesView.Categories.DeleteStored | src/pages/Categories.jsx:108-110 | a missing id changes nothing; otherwise the category leaves table and page |
| CategoriesView.Categories.OpenCreateModal | src/pages/Categories.jsx:178 | the create modal is shown |
| CategoriesView.Categories.CloseCreateModal | src/pages/Categories.jsx:265 | the create modal is hidden |
| CategoriesView.Categories.SetNewCategoryName | src/pages/Categories.jsx:282 | the form's name becomes the typed value; the other fields are kept |
| CategoriesView.Categories.SetNewCategoryColor | src/pages/Categories.jsx:294 | the form's colour becomes the picked option; the other fields are kept |
| CategoriesView.Categories.SetNewCategoryIcon | src/pages/Categories.jsx:310 | the form's icon becomes the picked option; the other fields are kept |
| CategoriesView.Categories.StartEditing | src/pages/Categories.jsx:235 | the edit modal holds a copy of the category |
| CategoriesView.Categories.CancelEditing | src/pages/Categories.jsx:355 | no category is being edited |
| CategoriesView.Categories.SetEditingField | src/pages/Categories.jsx:372-400 | the edited field takes the value and every other field is kept |
| CategoriesPageView.UpdatesExisting | src/components/pages/CategoriesPage.jsx:46 | data without an id creates; a string id updates exactly when it is non-empty |
| CategoriesPageView.SaveRoutesByForm | src/components/pages/CategoriesPage.jsx:44-55 | a form submission is saved as an update exactly when it was opened on a category with a truthy id |
| CategoriesPageView.CategoriesPage.constructor | src/components/pages/CategoriesPage.jsx:10-15 | empty list, no error, form closed |
| CategoriesPageView.CategoriesPage.LoadData | src/components/pages/CategoriesPage.jsx:17-38 | success holds the counted categories (in sync); failure keeps the list and records the message or the fallback |
| CategoriesPageView.CategoriesPage.HandleSaveCategory | src/components/pages/CategoriesPage.jsx:44-62 | data with a truthy id updates that category (keeping its count), other data creates one with count 0; a failed call or missing id keeps the form open; keeps the page in sync |
| CategoriesPageView.CategoriesPage.CreateStored | src/components/pages/CategoriesPage.jsx:52-55 | the created category, with count 0, ends table and page |
| CategoriesPageView.CategoriesPage.UpdateStored | src/components/pages/CategoriesPage.jsx:46-50 | a missing id changes nothing; otherwise the category is patched in table and page |
| CategoriesPageView.CategoriesPage.HandleDeleteCategory | src/components/pages/CategoriesPage.jsx:64-82 | asks exactly when the category has no non-archived tasks; a confirmed delete removes it from table and page; keeps the page in sync when ids are unique |
| CategoriesPageView.CategoriesPage.DeleteStored | src/components/pages/CategoriesPage.jsx:75-77 | a missing id changes nothing; otherwise the category leaves table and page |
| CategoriesPageView.CategoriesPage.OpenCreateModal | src/components/pages/CategoriesPage.jsx:97 | the form is shown |
| CategoriesPageView.CategoriesPage.StartEditing | src/components/pages/CategoriesPage.jsx:112 | the form is shown on the category |
| CategoriesPageView.CategoriesPage.CloseForm | src/components/pages/CategoriesPage.jsx:121-124 | the form is hidden and nothing is being edited |
| CategoryFormView.FormFor | src/components/organisms/CategoryFormModal.jsx:28-38 | the form holds name, colour and icon: the category's when editing, the defaults otherwise |
| CategoryFormView.Submitted | src/components/organisms/CategoryFormModal.jsx:52-58 | a new category submits the form alone; an edit submits the category with the form's fields over it, keeping its id and every other field |
| CategoryFormView.SubmittedIdMarksEdit | src/components/organisms/CategoryFormModal.jsx:52-58 | the submitted data has a truthy id exactly when the form edits a category with a truthy id |
| CategoryFormView.CategoryForm.constructor | src/components/organisms/CategoryFormModal.jsx:22-38 | the form starts from `FormFor` the given category |
| CategoryFormView.CategoryForm.SetCategory | src/components/organisms/CategoryFormModal.jsx:28-38 | a new category prop resets the form to `FormFor` it |
| CategoryFormView.CategoryForm.HandleChange | src/components/organisms/CategoryFormModal.jsx:40-42 | only the name changes |
| CategoryFormView.CategoryForm.HandleColorChange | src/components/organisms/CategoryFormModal.jsx:44-46 | only the colour changes |
| CategoryFormView.CategoryForm.HandleIconChange | src/components/organisms/CategoryFormModal.jsx:48-50 | only the icon changes |
| CategoryFormView.CategoryForm.HandleSubmit | src/components/organisms/CategoryFormModal.jsx:52-58 | saves exactly when the name is not blank, and then hands over `Submitted` |
| QuickAddView.QuickAddedTaskIsDueToday | src/components/organisms/QuickAddTaskSection.jsx:16-24 | a quick-added task shows on the today page, and on the upcoming page exactly when it was not added at local midnight |
| QuickAddView.QuickAddSection.constructor | src/components/organisms/QuickAddTaskSection.jsx:9-10 | closed and empty |
| QuickAddView.QuickAddSection.HandleAdd | src/components/organisms/QuickAddTaskSection.jsx:12-31 | sends exactly when the title is not blank, and sends the quick-add payload; success clears and closes, failure changes nothing |
| QuickAddView.QuickAddSection.Open | src/components/organisms/QuickAddTaskSection.jsx:44 | the input is shown |
| QuickAddView.QuickAddSection.Cancel | src/components/organisms/QuickAddTaskSection.jsx:40 | the input is hidden and the title kept |
| QuickAddView.QuickAddSection.SetTitle | src/components/organisms/QuickAddTaskSection.jsx:38 | the title becomes the typed value |

## Behaviour the model makes explicit

- **Title check on create.** Only the quick-add paths check the title before
  creating a task (`MainFeature` and the quick-add section). The pages'
  `HandleAddTask` and the services accept any data.
- **Failed adds reach the caller.** The pages' `HandleAddTask` passes a
  failed create on to its caller; here it returns `Err`, and the quick-add
  section catches it.
- **Today and upcoming overlap.** "Upcoming" means "after local midnight of
  today", so it overlaps "today". `TodayAndUpcomingOverlap` states exactly
  where.
- **Archive selection.** The archive pages load tasks that are archived *or
  completed*. The combined view's archive view lists the archived tasks
  only.
- **No field mapping.** The services are in-memory and keep records as they
  are given, with no snake_case or numeric-id field mapping. The model has
  none either.

## Left out

- Delays, `Promise.all` concurrency, the loading flag, toasts, rendering,
  animations and routing. They change no state the model tracks.
- Remote failures are the `remoteError` parameter, one per handler. When
  both tables are loaded at once, one failure stands for either call
  failing. Which call failed is not modelled.
- Generated ids (`Date.now()`) and the current time are parameters. Whether
  a generated id is fresh is a hypothesis of the sync clauses, not a fact
  the model derives.
- Dates:
  - ISO strings are `Instant`s, and a date string is never parsed.
  - The time zone is a fixed UTC offset, so daylight-saving changes are
    not modelled.
  - date-fns is modelled only through `isToday`, `isAfter` and
    `startOfDay`.
- `Text.ToLower` lowers ASCII letters only.
- TaskFilters.MatchesQuery: while a query is set, a task whose title is not
  a string, or whose description is set but not a string, makes the source's
  search throw during rendering. The model has no exceptions in rendering:
  such a task matches no non-empty query, and a non-string description never
  matches.
- Default props are not modelled: the combined view's `view` and
  `searchQuery` and the form modal's `category` are always passed explicitly
  to the constructors (`view = 'today'`, `searchQuery = ''` and
  `category = null` are the source's defaults).
- Records.Positive: the delete guard compares `taskCount` with `>`, which
  would convert a numeric string to a number. The model treats every string
  as not positive. Every count the model writes is a number, so this only
  matters for a string count put there by some other code.
- The completion percentage (floating point), `getPriorityColor` and
  `formatDueDate` in the combined view are left out. They only format
  output.
- The combined view's `handleTaskEdit` and its selected-task modal state are
  left out. No operation in this core reads them.
- Duplicate ids: every sync clause that looks records up by id assumes
  unique ids in the table. With duplicates, the pages replace or drop every
  copy while the services touch only the first.
- The page handlers read their list as it was when the handler started.
  React's stale closures across interleaved calls are not modelled.
- Aliasing through `updateTaskCount`, which mutates a stored record in
  place, is not modelled. The service returns a copy and replaces the table
  entry.
- Mock seed data, the service singletons and `new Date()` inside the
  services are not modelled.
- The pages that call a service only through a ghost parameter (the
  categories pages' task service) do not read tasks from it at run time.
  It is there only to state the sync invariant.
