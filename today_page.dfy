/** The today page (src/components/pages/TodayPage.jsx): the whole task list is
    kept, and the page shows the non-archived tasks due today with a progress
    summary over them. */
module TodayView {
  import opened Records
  import opened Seqs
  import opened Dates
  import opened TaskFilters
  import opened TaskMutations
  import opened TaskServices
  import opened CategoryServices
  import opened Reconcile
  import MainFeatureView

  /** The page's own test: not archived and due today. */
  predicate OnToday(t: Obj, clock: Clock)
  {
    IsActive(t) && DueToday(t, clock)
  }

  /** `filterTasks`: the non-archived tasks due today, in list order. */
  function TodayTasks(tasks: seq<Obj>, clock: Clock): (r: seq<Obj>)
    ensures Selects(r, tasks, t => OnToday(t, clock))
  {
    FilterSelects(tasks, t => OnToday(t, clock));
    Filter(tasks, t => OnToday(t, clock))
  }

  /** The page shows what the combined view shows for "today" with no query. */
  lemma TodayAgreesWithMainFeature(tasks: seq<Obj>, clock: Clock)
    ensures TodayTasks(tasks, clock) == MainFeatureView.FilterTasks(tasks, "today", "", clock)
  {
    MainFeatureView.EmptyQueryListsWholeView(tasks, "today", "", clock);
    FilterCongruent(tasks, t => OnToday(t, clock), t => MainFeatureView.ViewKeeps(t, "today", clock));
  }

  /** The progress summary: completed and total over today's tasks; the
      completed count never exceeds the total. */
  function TodayCounts(tasks: seq<Obj>, clock: Clock): (r: (nat, nat))
    ensures r.1 == |TodayTasks(tasks, clock)|
    ensures r.0 == |Filter(tasks, t => OnToday(t, clock) && IsCompleted(t))|
    ensures r.0 <= r.1
  {
    var current := TodayTasks(tasks, clock);
    FilterFilter(tasks, t => OnToday(t, clock), IsCompleted, t => OnToday(t, clock) && IsCompleted(t));
    (|Filter(current, IsCompleted)|, |current|)
  }

  class TodayPage {
    var tasks: seq<Obj>
    var categories: seq<Obj>
    var error: Value

    constructor ()
      ensures tasks == [] && categories == [] && error == Null
    {
      tasks := [];
      categories := [];
      error := Null;
    }

    /** The page holds what a reload would hold. */
    ghost predicate InSync(taskSvc: TaskService)
      reads this, taskSvc
    {
      tasks == taskSvc.tasks
    }

    /** `loadData`: both tables on success; on failure the error message (or
        "Failed to load data") and the lists as they were. */
    method LoadData(taskSvc: TaskService, categorySvc: CategoryService, remoteError: Option<string>)
      modifies this`tasks, this`categories, this`error
      ensures remoteError.None? ==> InSync(taskSvc) && categories == categorySvc.categories && error == Null
      ensures remoteError.Some? ==>
                tasks == old(tasks) && categories == old(categories)
                && error == Str(MessageOr(remoteError.value, "Failed to load data"))
    {
      error := Null;
      if remoteError.Some? {
        error := Str(MessageOr(remoteError.value, "Failed to load data"));
        return;
      }
      tasks := taskSvc.GetAll();
      categories := categorySvc.GetAll();
    }

    /** `handleTaskComplete`: toggles the listed task with the id and puts the
        stored record in place of every listed task with that id. A task not
        on the list throws before any call, and the error is swallowed. */
    method HandleTaskComplete(taskSvc: TaskService, taskId: Value, now: int, remoteError: Option<string>)
      modifies this`tasks, taskSvc
      ensures var task := Find(old(tasks), taskId);
              var i := FindIndex(old(taskSvc.tasks), taskId);
              if task.None? || remoteError.Some? || i == -1 then
                tasks == old(tasks) && taskSvc.tasks == old(taskSvc.tasks)
              else
                var updated := Spread(old(taskSvc.tasks)[i], TogglePayload(task.value, now));
                taskSvc.tasks == old(taskSvc.tasks)[i := updated]
                && tasks == ReplaceById(old(tasks), taskId, updated)
      ensures old(InSync(taskSvc)) && UniqueIds(old(taskSvc.tasks)) ==> InSync(taskSvc)
    {
      var task := Find(tasks, taskId);
      if task.None? || remoteError.Some? {
        return;
      }
      ghost var i := FindIndex(taskSvc.tasks, taskId);
      ghost var before := tasks;
      var r := taskSvc.Update(taskId, TogglePayload(task.value, now));
      if r.Ok? {
        tasks := ReplaceById(tasks, taskId, r.value);
        if before == old(taskSvc.tasks) && UniqueIds(before) {
          ReplaceInTable(before, i, r.value, taskId);
        }
      }
    }

    /** `handleAddTask`: creates the task, appends the stored record and hands
        it back; a failed call is passed on to the caller and changes nothing. */
    method HandleAddTask(taskSvc: TaskService, newTaskData: Obj, freshId: string, now: int,
                         remoteError: Option<string>) returns (r: Result<Obj>)
      modifies this`tasks, taskSvc
      ensures remoteError.Some? ==>
                r == Err(remoteError.value) && tasks == old(tasks) && taskSvc.tasks == old(taskSvc.tasks)
      ensures remoteError.None? ==>
                r == Ok(NewTaskRecord(newTaskData, freshId, now))
                && taskSvc.tasks == old(taskSvc.tasks) + [r.value] && tasks == old(tasks) + [r.value]
      ensures old(InSync(taskSvc)) ==> InSync(taskSvc)
    {
      if remoteError.Some? {
        return Err(remoteError.value);
      }
      var created := taskSvc.Create(newTaskData, freshId, now);
      tasks := tasks + [created];
      r := Ok(created);
    }
  }
}
