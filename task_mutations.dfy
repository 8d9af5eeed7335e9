/** What the task pages send to the task service and how they reconcile their
    local list with the reply. The pages differ only in which of these they use. */
module TaskMutations {
  import opened Records
  import opened Seqs
  import opened TaskFilters

  /** The update a completion toggle sends: `completed` flipped, and
      `completedAt` stamped when the task becomes completed, cleared otherwise. */
  function TogglePayload(task: Obj, now: int): (p: Obj)
    ensures p.Keys == {"completed", "completedAt"}
    ensures p["completed"].Bool? && IsCompleted(p) != IsCompleted(task)
    ensures CompletionConsistent(p)
    ensures HasCompletionTime(p) ==> p["completedAt"] == Instant(now)
    ensures !HasCompletionTime(p) ==> p["completedAt"] == Null
  {
    map["completed" := Bool(!IsCompleted(task)),
        "completedAt" := if !IsCompleted(task) then Instant(now) else Null]
  }

  /** Merged into the stored task (as the task service does), the toggle flips
      completion, restores the completion invariant and touches nothing else. */
  lemma ToggleMerged(task: Obj, now: int)
    ensures var t := Spread(task, TogglePayload(task, now));
            && IsCompleted(t) != IsCompleted(task)
            && CompletionConsistent(t)
            && forall k | k != "completed" && k != "completedAt" :: Get(t, k) == Get(task, k)
  {
    var p := TogglePayload(task, now);
    var t := Spread(task, p);
    assert Get(t, "completed") == p["completed"] && Get(t, "completedAt") == p["completedAt"];
  }

  /** Toggling twice gives `completed` back its original truth value, and leaves
      `completedAt` null exactly when the task was originally not completed. */
  lemma ToggleTwice(task: Obj, now1: int, now2: int)
    ensures var once := Spread(task, TogglePayload(task, now1));
            var twice := Spread(once, TogglePayload(once, now2));
            && Get(twice, "completed") == Bool(IsCompleted(task))
            && (Get(twice, "completedAt") == Null <==> !IsCompleted(task))
            && forall k | k != "completed" && k != "completedAt" :: Get(twice, k) == Get(task, k)
  {
    var once := Spread(task, TogglePayload(task, now1));
    ToggleMerged(task, now1);
    ToggleMerged(once, now2);
  }

  /** The update a restore sends: not archived, not completed, no completion time. */
  const RestorePayload: Obj := map["archived" := Bool(false), "completed" := Bool(false), "completedAt" := Null]

  /** A restored task leaves the archive selection, satisfies the completion
      invariant and keeps every other field. */
  lemma RestoreLeavesArchive(task: Obj)
    ensures var t := Spread(task, RestorePayload);
            && !InArchiveSelection(t)
            && CompletionConsistent(t)
            && forall k | k !in RestorePayload :: Get(t, k) == Get(task, k)
  {
    var t := Spread(task, RestorePayload);
    assert Get(t, "archived") == Bool(false) && Get(t, "completed") == Bool(false);
    assert Get(t, "completedAt") == Null;
  }

  /** Every task with the id becomes `rec`,
      every other task stays where and what it was. */
  function ReplaceById(s: seq<Obj>, id: Value, rec: Obj): (r: seq<Obj>)
    ensures |r| == |s|
    ensures forall i | 0 <= i < |s| :: r[i] == if HasId(s[i], id) then rec else s[i]
  {
    if s == [] then []
    else [if HasId(s[0], id) then rec else s[0]] + ReplaceById(s[1..], id, rec)
  }

  /** Replacing a task by a record with the same id keeps every position's id. */
  lemma ReplaceByIdKeepsIds(s: seq<Obj>, id: Value, rec: Obj)
    requires HasId(rec, id)
    ensures var r := ReplaceById(s, id, rec);
            forall i | 0 <= i < |s| :: Get(r[i], "id") == Get(s[i], "id")
  {
  }

  /** The tasks whose id differs from `id`, in order. */
  function RemoveById(s: seq<Obj>, id: Value): (r: seq<Obj>)
    ensures Selects(r, s, t => !HasId(t, id))
    ensures forall i | 0 <= i < |r| :: !HasId(r[i], id)
  {
    FilterSelects(s, t => !HasId(t, id));
    Filter(s, t => !HasId(t, id))
  }

  /** The first category's id when it is truthy, else null. */
  function DefaultCategoryId(categories: seq<Obj>): (v: Value)
    ensures Truthy(v) <==> |categories| > 0 && Truthy(Get(categories[0], "id"))
    ensures Truthy(v) ==> v == Get(categories[0], "id")
    ensures !Truthy(v) ==> v == Null
  {
    if |categories| == 0 then Null
    else if Truthy(Get(categories[0], "id")) then Get(categories[0], "id")
    else Null
  }

  /** The task a quick add sends: the typed title, an empty description, the
      default category, medium priority, due now, neither completed nor archived. */
  function QuickAddPayload(title: string, categoryId: Value, now: int): (p: Obj)
    ensures p.Keys == {"title", "description", "categoryId", "priority", "dueDate", "completed", "archived"}
    ensures p["title"] == Str(title) && p["categoryId"] == categoryId
    ensures p["description"] == Str("") && p["priority"] == Str("medium") && p["dueDate"] == Instant(now)
    ensures !IsCompleted(p) && IsActive(p) && !HasCompletionTime(p)
  {
    map["title" := Str(title), "description" := Str(""), "categoryId" := categoryId,
        "priority" := Str("medium"), "dueDate" := Instant(now),
        "completed" := Bool(false), "archived" := Bool(false)]
  }
}
