/** The archive page (src/pages/Archive.jsx): lists the tasks that are archived
    or completed, lets the user restore one or delete it for good, and shows
    each task's category by name and color. */
module ArchiveView {
  import opened Records
  import opened Seqs
  import opened TaskFilters
  import opened TaskMutations
  import opened TaskServices
  import opened CategoryServices
  import opened CategoryRules
  import opened Reconcile

  class Archive {
    var tasks: seq<Obj>
    var categories: seq<Obj>
    var error: Value

    constructor ()
      ensures tasks == [] && categories == [] && error == Null
    {
      tasks := [];
      categories := [];
      error := Null;
    }

    /** The page holds the archived-or-completed part of what a reload would return. */
    ghost predicate InSync(taskSvc: TaskService)
      reads this, taskSvc
    {
      tasks == ArchiveSelection(taskSvc.tasks)
    }

    /** `loadData`: the archived or completed tasks and all categories on
        success; on failure the error message (or "Failed to load archived
        tasks") and the lists as they were. */
    method LoadData(taskSvc: TaskService, categorySvc: CategoryService, remoteError: Option<string>)
      modifies this`tasks, this`categories, this`error
      ensures remoteError.None? ==> InSync(taskSvc) && categories == categorySvc.categories && error == Null
      ensures remoteError.None? ==> forall j | 0 <= j < |tasks| :: InArchiveSelection(tasks[j])
      ensures remoteError.Some? ==>
                tasks == old(tasks) && categories == old(categories)
                && error == Str(MessageOr(remoteError.value, "Failed to load archived tasks"))
    {
      error := Null;
      if remoteError.Some? {
        error := Str(MessageOr(remoteError.value, "Failed to load archived tasks"));
        return;
      }
      var all := taskSvc.GetAll();
      tasks := ArchiveSelection(all);
      categories := categorySvc.GetAll();
    }

    /** `handleRestoreTask`: un-archives and un-completes the stored task and,
        when that succeeds, drops every listed task with the id. The update is
        sent whether or not the task is listed. */
    method HandleRestoreTask(taskSvc: TaskService, taskId: Value, remoteError: Option<string>)
      modifies this`tasks, taskSvc
      ensures var i := FindIndex(old(taskSvc.tasks), taskId);
              if remoteError.Some? || i == -1 then
                tasks == old(tasks) && taskSvc.tasks == old(taskSvc.tasks)
              else
                taskSvc.tasks == old(taskSvc.tasks)[i := Spread(old(taskSvc.tasks)[i], RestorePayload)]
                && tasks == RemoveById(old(tasks), taskId)
      ensures old(InSync(taskSvc)) && UniqueIds(old(taskSvc.tasks)) ==> InSync(taskSvc)
    {
      if remoteError.Some? {
        return;
      }
      ghost var i := FindIndex(taskSvc.tasks, taskId);
      ghost var before := tasks;
      var r := taskSvc.Update(taskId, RestorePayload);
      if r.Ok? {
        tasks := RemoveById(tasks, taskId);
        if before == ArchiveSelection(old(taskSvc.tasks)) && UniqueIds(old(taskSvc.tasks)) {
          RestoreLeavesArchive(old(taskSvc.tasks)[i]);
          LeaveSelection(old(taskSvc.tasks), i, r.value, InArchiveSelection, taskId);
        }
      }
    }

    /** `handlePermanentDelete`: nothing unless the user confirms; then deletes
        the stored task and, when that succeeds, drops every listed task with the id. */
    method HandlePermanentDelete(taskSvc: TaskService, taskId: Value, confirmed: bool, remoteError: Option<string>)
      modifies this`tasks, taskSvc
      ensures var i := FindIndex(old(taskSvc.tasks), taskId);
              if !confirmed || remoteError.Some? || i == -1 then
                tasks == old(tasks) && taskSvc.tasks == old(taskSvc.tasks)
              else
                taskSvc.tasks == RemoveAt(old(taskSvc.tasks), i) && tasks == RemoveById(old(tasks), taskId)
      ensures old(InSync(taskSvc)) && UniqueIds(old(taskSvc.tasks)) ==> InSync(taskSvc)
    {
      if !confirmed || remoteError.Some? {
        return;
      }
      ghost var i := FindIndex(taskSvc.tasks, taskId);
      ghost var before := tasks;
      var r := taskSvc.Delete(taskId);
      if r.Ok? {
        tasks := RemoveById(tasks, taskId);
        if before == ArchiveSelection(old(taskSvc.tasks)) && UniqueIds(old(taskSvc.tasks)) {
          DeleteFromSelection(old(taskSvc.tasks), i, InArchiveSelection, taskId);
        }
      }
    }
  }
}
