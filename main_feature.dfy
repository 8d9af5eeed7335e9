/** The combined task view (src/components/MainFeature.jsx): one component that
    shows the today, upcoming, completed, archive or all view of the task list,
    narrowed by a search query, with completion toggling and a quick-add row. */
module MainFeatureView {
  import opened Records
  import opened Seqs
  import opened Dates
  import opened Text
  import opened TaskFilters
  import opened TaskMutations
  import opened TaskServices
  import opened CategoryServices
  import opened CategoryRules
  import opened Reconcile

  /** The view switch on its own: the archive view keeps the archived tasks of
      the whole list; every other view keeps non-archived tasks, narrowed by the
      view's own test (none for a view name the switch does not know). */
  predicate ViewKeeps(t: Obj, view: string, clock: Clock)
  {
    if view == "archive" then IsArchived(t)
    else if view == "today" then IsActive(t) && DueToday(t, clock)
    else if view == "upcoming" then IsActive(t) && DueAfterStartOfToday(t, clock)
    else if view == "completed" then IsActive(t) && IsCompleted(t)
    else IsActive(t)
  }

  /** A task is listed when its view keeps it and, for a non-empty query, it matches the query. */
  predicate Shown(t: Obj, view: string, searchQuery: string, clock: Clock)
  {
    ViewKeeps(t, view, clock) && (searchQuery == "" || MatchesQuery(t, searchQuery))
  }

  /** The first two stages of `filterTasks`: drop archived tasks, then apply the
      view's filter (the archive view starts again from the whole list). */
  function ByView(tasks: seq<Obj>, view: string, clock: Clock): (r: seq<Obj>)
    ensures |r| <= |tasks|
    ensures forall x | x in r :: x in tasks && ViewKeeps(x, view, clock)
  {
    var active := Filter(tasks, IsActive);
    if view == "today" then Filter(active, t => DueToday(t, clock))
    else if view == "upcoming" then Filter(active, t => DueAfterStartOfToday(t, clock))
    else if view == "completed" then Filter(active, IsCompleted)
    else if view == "archive" then Filter(tasks, IsArchived)
    else active
  }

  lemma ByViewKeeps(tasks: seq<Obj>, view: string, clock: Clock)
    ensures ByView(tasks, view, clock) == Filter(tasks, t => ViewKeeps(t, view, clock))
  {
    var keeps := t => ViewKeeps(t, view, clock);
    if view == "today" {
      FilterFilter(tasks, IsActive, t => DueToday(t, clock), keeps);
    } else if view == "upcoming" {
      FilterFilter(tasks, IsActive, t => DueAfterStartOfToday(t, clock), keeps);
    } else if view == "completed" {
      FilterFilter(tasks, IsActive, IsCompleted, keeps);
    } else if view == "archive" {
      FilterCongruent(tasks, IsArchived, keeps);
    } else {
      FilterCongruent(tasks, IsActive, keeps);
    }
  }

  /** `filterTasks`: exactly the tasks the view and the query let through, in
      list order, each as often as the list holds it. */
  function FilterTasks(tasks: seq<Obj>, view: string, searchQuery: string, clock: Clock): (r: seq<Obj>)
    ensures Selects(r, tasks, t => Shown(t, view, searchQuery, clock))
  {
    var byView := ByView(tasks, view, clock);
    var r := if searchQuery != "" then Filter(byView, t => MatchesQuery(t, searchQuery)) else byView;
    assert r == Filter(tasks, t => Shown(t, view, searchQuery, clock)) by {
      ByViewKeeps(tasks, view, clock);
      if searchQuery != "" {
        FilterFilter(tasks, t => ViewKeeps(t, view, clock), t => MatchesQuery(t, searchQuery),
                     t => Shown(t, view, searchQuery, clock));
      } else {
        FilterCongruent(tasks, t => ViewKeeps(t, view, clock), t => Shown(t, view, searchQuery, clock));
      }
    }
    FilterSelects(tasks, t => Shown(t, view, searchQuery, clock));
    r
  }

  /** An archived task is listed by the archive view only; a listed task of any
      other view is not archived. */
  lemma ArchivedOnlyInArchive(t: Obj, view: string, clock: Clock)
    requires view != "archive"
    ensures ViewKeeps(t, view, clock) ==> !IsArchived(t)
    ensures ViewKeeps(t, "archive", clock) <==> IsArchived(t)
  {
  }

  /** A non-archived task due today, but not at local midnight itself, is listed
      by both the today and the upcoming view. */
  lemma DueLaterTodayInBothViews(t: Obj, clock: Clock)
    requires IsActive(t) && DueToday(t, clock)
    requires DateOf(Get(t, "dueDate")).value != StartOfDay(clock.now, clock.utcOffset)
    ensures ViewKeeps(t, "today", clock) && ViewKeeps(t, "upcoming", clock)
  {
    TodayVersusUpcoming(t, clock);
  }

  /** With an empty query every task of the view is listed; the search only narrows. */
  lemma EmptyQueryListsWholeView(tasks: seq<Obj>, view: string, searchQuery: string, clock: Clock)
    ensures FilterTasks(tasks, view, "", clock) == Filter(tasks, t => ViewKeeps(t, view, clock))
    ensures |FilterTasks(tasks, view, searchQuery, clock)| <= |FilterTasks(tasks, view, "", clock)|
  {
    ByViewKeeps(tasks, view, clock);
    if searchQuery != "" {
      assert FilterTasks(tasks, view, searchQuery, clock)
          == Filter(ByView(tasks, view, clock), t => MatchesQuery(t, searchQuery));
    }
  }

  /** The progress counts, completed over total among non-archived tasks: the
      completed count is the number of non-archived tasks that are completed,
      so it never exceeds the total. */
  function ProgressCounts(tasks: seq<Obj>): (r: (nat, nat))
    ensures r.1 == |ActiveTasks(tasks)|
    ensures r.0 == |Filter(ActiveTasks(tasks), IsCompleted)|
    ensures r.0 <= r.1
  {
    FilterFilter(tasks, IsActive, IsCompleted, IsCompletedActive);
    (|Filter(tasks, IsCompletedActive)|, |Filter(tasks, IsActive)|)
  }

  /** What `handleQuickAdd` sends: the quick-add payload filed under the first category. */
  function QuickAddData(title: string, categories: seq<Obj>, now: int): Obj
  {
    QuickAddPayload(title, DefaultCategoryId(categories), now)
  }

  class MainFeature {
    const view: string
    const searchQuery: string
    var tasks: seq<Obj>
    var categories: seq<Obj>
    var error: Value
    var showQuickAdd: bool
    var quickTaskTitle: string

    /** Mounting with the `view` and `searchQuery` props; the initial load is a separate step. */
    constructor (view: string, searchQuery: string)
      ensures this.view == view && this.searchQuery == searchQuery
      ensures tasks == [] && categories == [] && error == Null
      ensures !showQuickAdd && quickTaskTitle == ""
    {
      this.view := view;
      this.searchQuery := searchQuery;
      tasks := [];
      categories := [];
      error := Null;
      showQuickAdd := false;
      quickTaskTitle := "";
    }

    /** The page shows what a reload would show. */
    ghost predicate InSync(taskSvc: TaskService)
      reads this, taskSvc
    {
      tasks == taskSvc.tasks
    }

    /** `loadData`: both tables on success; on failure the error message (or
        "Failed to load data") and the lists as they were. */
    method LoadData(taskSvc: TaskService, categorySvc: CategoryService, remoteError: Option<string>)
      modifies this`tasks, this`categories, this`error
      ensures remoteError.None? ==> InSync(taskSvc) && categories == categorySvc.categories && error == Null
      ensures remoteError.Some? ==>
                tasks == old(tasks) && categories == old(categories)
                && error == Str(MessageOr(remoteError.value, "Failed to load data"))
    {
      error := Null;
      if remoteError.Some? {
        error := Str(MessageOr(remoteError.value, "Failed to load data"));
        return;
      }
      tasks := taskSvc.GetAll();
      categories := categorySvc.GetAll();
    }

    /** `handleTaskComplete`: sends the toggle for the listed task with the id
        and, when the update succeeds, puts the stored record in place of every
        listed task with that id. A task not on the list fails before any call. */
    method HandleTaskComplete(taskSvc: TaskService, taskId: Value, now: int, remoteError: Option<string>)
      modifies this`tasks, taskSvc
      ensures var task := Find(old(tasks), taskId);
              var i := FindIndex(old(taskSvc.tasks), taskId);
              if task.None? || remoteError.Some? || i == -1 then
                tasks == old(tasks) && taskSvc.tasks == old(taskSvc.tasks)
              else
                var updated := Spread(old(taskSvc.tasks)[i], TogglePayload(task.value, now));
                taskSvc.tasks == old(taskSvc.tasks)[i := updated]
                && tasks == ReplaceById(old(tasks), taskId, updated)
      ensures old(InSync(taskSvc)) && UniqueIds(old(taskSvc.tasks)) ==> InSync(taskSvc)
    {
      var task := Find(tasks, taskId);
      if task.None? || remoteError.Some? {
        return;
      }
      ghost var i := FindIndex(taskSvc.tasks, taskId);
      ghost var before := tasks;
      var r := taskSvc.Update(taskId, TogglePayload(task.value, now));
      if r.Ok? {
        tasks := ReplaceById(tasks, taskId, r.value);
        if before == old(taskSvc.tasks) && UniqueIds(before) {
          ReplaceInTable(before, i, r.value, taskId);
        }
      }
    }

    /** `handleQuickAdd`: a blank title does nothing; otherwise the quick-add
        task is created with the first category's id, appended, and the row is
        cleared and closed. A failed call leaves everything as it was. */
    method HandleQuickAdd(taskSvc: TaskService, freshId: string, now: int, remoteError: Option<string>)
      modifies this`tasks, this`quickTaskTitle, this`showQuickAdd, taskSvc
      ensures Trim(old(quickTaskTitle)) == "" || remoteError.Some? ==>
                tasks == old(tasks) && taskSvc.tasks == old(taskSvc.tasks)
                && quickTaskTitle == old(quickTaskTitle) && showQuickAdd == old(showQuickAdd)
      ensures Trim(old(quickTaskTitle)) != "" && remoteError.None? ==>
                var created := NewTaskRecord(QuickAddData(old(quickTaskTitle), categories, now), freshId, now);
                taskSvc.tasks == old(taskSvc.tasks) + [created] && tasks == old(tasks) + [created]
                && quickTaskTitle == "" && !showQuickAdd
      ensures old(InSync(taskSvc)) ==> InSync(taskSvc)
    {
      if Trim(quickTaskTitle) == "" || remoteError.Some? {
        return;
      }
      AppendQuickAdd(taskSvc, QuickAddData(quickTaskTitle, categories, now), freshId, now);
    }

    /** The success path of a quick add: create the task from `data`, append the
        stored record, then clear and close the row. */
    method AppendQuickAdd(taskSvc: TaskService, data: Obj, freshId: string, now: int)
      modifies this`tasks, this`quickTaskTitle, this`showQuickAdd, taskSvc
      ensures var created := NewTaskRecord(data, freshId, now);
              taskSvc.tasks == old(taskSvc.tasks) + [created] && tasks == old(tasks) + [created]
      ensures quickTaskTitle == "" && !showQuickAdd
    {
      var created := taskSvc.Create(data, freshId, now);
      tasks := tasks + [created];
      quickTaskTitle := "";
      showQuickAdd := false;
    }

    /** The "Add New Task" and "Add new task" buttons open the quick-add row. */
    method OpenQuickAdd()
      modifies this`showQuickAdd
      ensures showQuickAdd
    {
      showQuickAdd := true;
    }

    /** The close button hides the row and keeps the typed title. */
    method CloseQuickAdd()
      modifies this`showQuickAdd
      ensures !showQuickAdd
    {
      showQuickAdd := false;
    }

    /** Typing into the quick-add input. */
    method SetQuickTaskTitle(value: string)
      modifies this`quickTaskTitle
      ensures quickTaskTitle == value
    {
      quickTaskTitle := value;
    }
  }
}
