/** The in-memory task table (src/services/api/taskService.js). Each service
    call is one synchronous step; the artificial delays are not modelled. */
module TaskServices {
  import opened Records
  import opened Seqs
  import opened TaskFilters

  const TaskNotFound: string := "Task not found"

  /** What `delete` resolves to: `{ success: true }`. */
  const DeleteReply: Obj := map["success" := Bool(true)]

  /** The record `create` stores: the generated id, then the caller's fields
      (an `id` among them replaces the generated one), then `createdAt`,
      `completedAt` and `archived`, which always override the caller's. */
  function NewTaskRecord(data: Obj, freshId: string, now: int): (r: Obj)
    ensures r.Keys == data.Keys + {"id", "createdAt", "completedAt", "archived"}
    ensures Get(r, "id") == if "id" in data then data["id"] else Str(freshId)
    ensures Get(r, "createdAt") == Instant(now)
    ensures Get(r, "completedAt") == Null && Get(r, "archived") == Bool(false)
    ensures forall k | k !in {"id", "createdAt", "completedAt", "archived"} :: Get(r, k) == Get(data, k)
  {
    map["id" := Str(freshId)] + data + map["createdAt" := Instant(now), "completedAt" := Null, "archived" := Bool(false)]
  }

  /** A created task is never archived and has no completion time, whatever the
      caller sent; it satisfies the completion invariant exactly when the
      caller did not mark it completed. */
  lemma NewTaskIsActive(data: Obj, freshId: string, now: int)
    ensures var r := NewTaskRecord(data, freshId, now);
            IsActive(r) && !HasCompletionTime(r) && (CompletionConsistent(r) <==> !IsCompleted(data))
  {
    var r := NewTaskRecord(data, freshId, now);
    assert Get(r, "completed") == Get(data, "completed");
  }

  class TaskService {
    var tasks: seq<Obj>

    /** The table starts as a copy of the seed data. */
    constructor (seed: seq<Obj>)
      ensures tasks == seed
    {
      tasks := seed;
    }

    /** A copy of the whole table, in order. */
    method GetAll() returns (r: seq<Obj>)
      ensures r == tasks
    {
      r := tasks;
    }

    /** The first task with the id, or "Task not found". */
    method GetById(id: Value) returns (r: Result<Obj>)
      ensures r.Err? <==> forall j | 0 <= j < |tasks| :: !HasId(tasks[j], id)
      ensures r.Err? ==> r.message == TaskNotFound
      ensures r.Ok? ==> r.value == tasks[FindIndex(tasks, id)]
    {
      var i := FindIndex(tasks, id);
      if i == -1 {
        r := Err(TaskNotFound);
      } else {
        r := Ok(tasks[i]);
      }
    }

    /** Appends the new record and returns it. */
    method Create(data: Obj, freshId: string, now: int) returns (r: Obj)
      modifies this
      ensures r == NewTaskRecord(data, freshId, now)
      ensures tasks == old(tasks) + [r]
    {
      r := NewTaskRecord(data, freshId, now);
      tasks := tasks + [r];
    }

    /** Merges `updates` into the first task with the id; every other task is left alone. */
    method Update(id: Value, updates: Obj) returns (r: Result<Obj>)
      modifies this
      ensures var i := FindIndex(old(tasks), id);
              if i == -1 then r == Err(TaskNotFound) && tasks == old(tasks)
              else r == Ok(Spread(old(tasks)[i], updates)) && tasks == old(tasks)[i := r.value]
    {
      var i := FindIndex(tasks, id);
      if i == -1 {
        r := Err(TaskNotFound);
      } else {
        var merged := Spread(tasks[i], updates);
        tasks := tasks[i := merged];
        r := Ok(merged);
      }
    }

    /** Removes the first task with the id; the others keep their order. */
    method Delete(id: Value) returns (r: Result<Obj>)
      modifies this
      ensures var i := FindIndex(old(tasks), id);
              if i == -1 then r == Err(TaskNotFound) && tasks == old(tasks)
              else r == Ok(DeleteReply) && tasks == RemoveAt(old(tasks), i)
    {
      var i := FindIndex(tasks, id);
      if i == -1 {
        r := Err(TaskNotFound);
      } else {
        tasks := RemoveAt(tasks, i);
        r := Ok(DeleteReply);
      }
    }

    /** Exactly the tasks whose `categoryId` is the argument, in table order. */
    method GetByCategory(categoryId: Value) returns (r: seq<Obj>)
      ensures Selects(r, tasks, t => Get(t, "categoryId") == categoryId)
    {
      r := Filter(tasks, t => Get(t, "categoryId") == categoryId);
      FilterSelects(tasks, t => Get(t, "categoryId") == categoryId);
    }

    /** Exactly the completed, non-archived tasks, in table order. */
    method GetCompleted() returns (r: seq<Obj>)
      ensures Selects(r, tasks, IsCompletedActive)
    {
      r := Filter(tasks, IsCompletedActive);
      FilterSelects(tasks, IsCompletedActive);
    }

    /** Exactly the archived tasks, in table order. */
    method GetArchived() returns (r: seq<Obj>)
      ensures Selects(r, tasks, IsArchived)
    {
      r := Filter(tasks, IsArchived);
      FilterSelects(tasks, IsArchived);
    }
  }
}
