/** The all-tasks page (src/components/pages/AllTasksPage.jsx): unlike the
    today and upcoming pages it keeps only the non-archived tasks in its list. */
module AllTasksView {
  import opened Records
  import opened Seqs
  import opened TaskFilters
  import opened TaskMutations
  import opened TaskServices
  import opened CategoryServices
  import opened Reconcile
  import Dates
  import MainFeatureView

  /** The page lists what the combined view lists for "all" with no query. */
  lemma AllAgreesWithMainFeature(tasks: seq<Obj>, clock: Dates.Clock)
    ensures ActiveTasks(tasks) == MainFeatureView.FilterTasks(tasks, "all", "", clock)
  {
    MainFeatureView.EmptyQueryListsWholeView(tasks, "all", "", clock);
    FilterCongruent(tasks, IsActive, t => MainFeatureView.ViewKeeps(t, "all", clock));
  }

  /** Toggling completion never moves a task into or out of the archive. */
  lemma ToggleKeepsArchived(base: Obj, task: Obj, now: int)
    ensures IsActive(Spread(base, TogglePayload(task, now))) == IsActive(base)
  {
    assert Get(Spread(base, TogglePayload(task, now)), "archived") == Get(base, "archived");
  }

  class AllTasksPage {
    var tasks: seq<Obj>
    var categories: seq<Obj>
    var error: Value

    constructor ()
      ensures tasks == [] && categories == [] && error == Null
    {
      tasks := [];
      categories := [];
      error := Null;
    }

    /** The page holds the non-archived part of what a reload would return. */
    ghost predicate InSync(taskSvc: TaskService)
      reads this, taskSvc
    {
      tasks == ActiveTasks(taskSvc.tasks)
    }

    /** `loadData`: the non-archived tasks and all categories on success; on
        failure the error message (or "Failed to load data") and the lists as they were. */
    method LoadData(taskSvc: TaskService, categorySvc: CategoryService, remoteError: Option<string>)
      modifies this`tasks, this`categories, this`error
      ensures remoteError.None? ==> InSync(taskSvc) && categories == categorySvc.categories && error == Null
      ensures remoteError.None? ==> forall j | 0 <= j < |tasks| :: IsActive(tasks[j])
      ensures remoteError.Some? ==>
                tasks == old(tasks) && categories == old(categories)
                && error == Str(MessageOr(remoteError.value, "Failed to load data"))
    {
      error := Null;
      if remoteError.Some? {
        error := Str(MessageOr(remoteError.value, "Failed to load data"));
        return;
      }
      var all := taskSvc.GetAll();
      tasks := ActiveTasks(all);
      categories := categorySvc.GetAll();
    }

    /** `handleTaskComplete`: toggles the listed task with the id and puts the
        stored record in place of every listed task with that id. A task not
        on the list throws before any call, and the error is swallowed. */
    method HandleTaskComplete(taskSvc: TaskService, taskId: Value, now: int, remoteError: Option<string>)
      modifies this`tasks, taskSvc
      ensures var task := Find(old(tasks), taskId);
              var i := FindIndex(old(taskSvc.tasks), taskId);
              if task.None? || remoteError.Some? || i == -1 then
                tasks == old(tasks) && taskSvc.tasks == old(taskSvc.tasks)
              else
                var updated := Spread(old(taskSvc.tasks)[i], TogglePayload(task.value, now));
                taskSvc.tasks == old(taskSvc.tasks)[i := updated]
                && tasks == ReplaceById(old(tasks), taskId, updated)
      ensures old(InSync(taskSvc)) && UniqueIds(old(taskSvc.tasks)) ==> InSync(taskSvc)
    {
      var task := Find(tasks, taskId);
      if task.None? || remoteError.Some? {
        return;
      }
      ghost var i := FindIndex(taskSvc.tasks, taskId);
      ghost var before := tasks;
      var r := taskSvc.Update(taskId, TogglePayload(task.value, now));
      if r.Ok? {
        tasks := ReplaceById(tasks, taskId, r.value);
        if before == ActiveTasks(old(taskSvc.tasks)) && UniqueIds(old(taskSvc.tasks)) {
          ToggleKeepsArchived(old(taskSvc.tasks)[i], task.value, now);
          ReplaceInSelection(old(taskSvc.tasks), i, r.value, IsActive, taskId);
        }
      }
    }

    /** `handleAddTask`: creates the task, appends the stored record and hands
        it back; a failed call is passed on to the caller and changes nothing.
        A created task is never archived, so the list stays the non-archived part. */
    method HandleAddTask(taskSvc: TaskService, newTaskData: Obj, freshId: string, now: int,
                         remoteError: Option<string>) returns (r: Result<Obj>)
      modifies this`tasks, taskSvc
      ensures remoteError.Some? ==>
                r == Err(remoteError.value) && tasks == old(tasks) && taskSvc.tasks == old(taskSvc.tasks)
      ensures remoteError.None? ==>
                r == Ok(NewTaskRecord(newTaskData, freshId, now))
                && taskSvc.tasks == old(taskSvc.tasks) + [r.value] && tasks == old(tasks) + [r.value]
      ensures old(InSync(taskSvc)) ==> InSync(taskSvc)
    {
      if remoteError.Some? {
        return Err(remoteError.value);
      }
      ghost var before := taskSvc.tasks;
      var created := taskSvc.Create(newTaskData, freshId, now);
      tasks := tasks + [created];
      r := Ok(created);
      NewTaskIsActive(newTaskData, freshId, now);
      AppendToSelection(before, created, IsActive);
    }
  }
}
