/** The upcoming page (src/components/pages/UpcomingPage.jsx): the whole task
    list is kept, and the page shows the non-archived tasks due after the start
    of today, which includes the rest of today. */
module UpcomingView {
  import opened Records
  import opened Seqs
  import opened Dates
  import opened TaskFilters
  import opened TaskMutations
  import opened TaskServices
  import opened CategoryServices
  import opened Reconcile
  import MainFeatureView
  import TodayView

  /** The page's own test: not archived and due after local midnight today. */
  predicate OnUpcoming(t: Obj, clock: Clock)
  {
    IsActive(t) && DueAfterStartOfToday(t, clock)
  }

  /** `filterTasks`: the non-archived tasks due after the start of today, in list order. */
  function UpcomingTasks(tasks: seq<Obj>, clock: Clock): (r: seq<Obj>)
    ensures Selects(r, tasks, t => OnUpcoming(t, clock))
  {
    FilterSelects(tasks, t => OnUpcoming(t, clock));
    Filter(tasks, t => OnUpcoming(t, clock))
  }

  /** The page shows what the combined view shows for "upcoming" with no query. */
  lemma UpcomingAgreesWithMainFeature(tasks: seq<Obj>, clock: Clock)
    ensures UpcomingTasks(tasks, clock) == MainFeatureView.FilterTasks(tasks, "upcoming", "", clock)
  {
    MainFeatureView.EmptyQueryListsWholeView(tasks, "upcoming", "", clock);
    FilterCongruent(tasks, t => OnUpcoming(t, clock), t => MainFeatureView.ViewKeeps(t, "upcoming", clock));
  }

  /** The two pages overlap: a task on the today page is also upcoming unless
      it is due at local midnight itself, and a task due on a later day is
      upcoming and not on the today page. */
  lemma TodayAndUpcomingOverlap(tasks: seq<Obj>, clock: Clock)
    ensures forall t | t in TodayView.TodayTasks(tasks, clock) ::
              t in UpcomingTasks(tasks, clock)
              <==> DateOf(Get(t, "dueDate")).value != StartOfDay(clock.now, clock.utcOffset)
    ensures forall t | t in tasks && IsActive(t) && Truthy(Get(t, "dueDate")) && DateOf(Get(t, "dueDate")).Some?
                       && DateOf(Get(t, "dueDate")).value >= StartOfDay(clock.now, clock.utcOffset) + DayMs ::
              t in UpcomingTasks(tasks, clock) && t !in TodayView.TodayTasks(tasks, clock)
  {
    forall t | t in TodayView.TodayTasks(tasks, clock)
      ensures t in UpcomingTasks(tasks, clock)
              <==> DateOf(Get(t, "dueDate")).value != StartOfDay(clock.now, clock.utcOffset)
    {
      TodayVersusUpcoming(t, clock);
    }
    forall t | t in tasks && IsActive(t) && Truthy(Get(t, "dueDate")) && DateOf(Get(t, "dueDate")).Some?
               && DateOf(Get(t, "dueDate")).value >= StartOfDay(clock.now, clock.utcOffset) + DayMs
      ensures t in UpcomingTasks(tasks, clock) && t !in TodayView.TodayTasks(tasks, clock)
    {
      LaterDayIsUpcomingOnly(t, clock);
    }
  }

  class UpcomingPage {
    var tasks: seq<Obj>
    var categories: seq<Obj>
    var error: Value

    constructor ()
      ensures tasks == [] && categories == [] && error == Null
    {
      tasks := [];
      categories := [];
      error := Null;
    }

    /** The page holds what a reload would hold. */
    ghost predicate InSync(taskSvc: TaskService)
      reads this, taskSvc
    {
      tasks == taskSvc.tasks
    }

    /** `loadData`: both tables on success; on failure the error message (or
        "Failed to load data") and the lists as they were. */
    method LoadData(taskSvc: TaskService, categorySvc: CategoryService, remoteError: Option<string>)
      modifies this`tasks, this`categories, this`error
      ensures remoteError.None? ==> InSync(taskSvc) && categories == categorySvc.categories && error == Null
      ensures remoteError.Some? ==>
                tasks == old(tasks) && categories == old(categories)
                && error == Str(MessageOr(remoteError.value, "Failed to load data"))
    {
      error := Null;
      if remoteError.Some? {
        error := Str(MessageOr(remoteError.value, "Failed to load data"));
        return;
      }
      tasks := taskSvc.GetAll();
      categories := categorySvc.GetAll();
    }

    /** `handleTaskComplete`: toggles the listed task with the id and puts the
        stored record in place of every listed task with that id. A task not
        on the list throws before any call, and the error is swallowed. */
    method HandleTaskComplete(taskSvc: TaskService, taskId: Value, now: int, remoteError: Option<string>)
      modifies this`tasks, taskSvc
      ensures var task := Find(old(tasks), taskId);
              var i := FindIndex(old(taskSvc.tasks), taskId);
              if task.None? || remoteError.Some? || i == -1 then
                tasks == old(tasks) && taskSvc.tasks == old(taskSvc.tasks)
              else
                var updated := Spread(old(taskSvc.tasks)[i], TogglePayload(task.value, now));
                taskSvc.tasks == old(taskSvc.tasks)[i := updated]
                && tasks == ReplaceById(old(tasks), taskId, updated)
      ensures old(InSync(taskSvc)) && UniqueIds(old(taskSvc.tasks)) ==> InSync(taskSvc)
    {
      var task := Find(tasks, taskId);
      if task.None? || remoteError.Some? {
        return;
      }
      ghost var i := FindIndex(taskSvc.tasks, taskId);
      ghost var before := tasks;
      var r := taskSvc.Update(taskId, TogglePayload(task.value, now));
      if r.Ok? {
        tasks := ReplaceById(tasks, taskId, r.value);
        if before == old(taskSvc.tasks) && UniqueIds(before) {
          ReplaceInTable(before, i, r.value, taskId);
        }
      }
    }

    /** `handleAddTask`: creates the task, appends the stored record and hands
        it back; a failed call is passed on to the caller and changes nothing. */
    method HandleAddTask(taskSvc: TaskService, newTaskData: Obj, freshId: string, now: int,
                         remoteError: Option<string>) returns (r: Result<Obj>)
      modifies this`tasks, taskSvc
      ensures remoteError.Some? ==>
                r == Err(remoteError.value) && tasks == old(tasks) && taskSvc.tasks == old(taskSvc.tasks)
      ensures remoteError.None? ==>
                r == Ok(NewTaskRecord(newTaskData, freshId, now))
                && taskSvc.tasks == old(taskSvc.tasks) + [r.value] && tasks == old(tasks) + [r.value]
      ensures old(InSync(taskSvc)) ==> InSync(taskSvc)
    {
      if remoteError.Some? {
        return Err(remoteError.value);
      }
      var created := taskSvc.Create(newTaskData, freshId, now);
      tasks := tasks + [created];
      r := Ok(created);
    }
  }
}
