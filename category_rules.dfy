/** The category logic both categories pages share: the task-count
    aggregation, the rule that a category with tasks cannot be deleted, the
    reconciliation after an update, and the form's name check and defaults. */
module CategoryRules {
  import opened Records
  import opened Seqs
  import opened Text
  import opened TaskFilters

  const ColorOptions: seq<string> := ["#5B21B6", "#3B82F6", "#10B981", "#F59E0B", "#EF4444", "#8B5CF6", "#06B6D4", "#84CC16"]
  const IconOptions: seq<string> := ["Tag", "Briefcase", "Code", "Users", "User", "Home", "Star", "Heart", "Zap", "Target", "Calendar", "Clock"]

  /** A task counts toward a category when it references the category's id and is not archived. */
  predicate CountsToward(t: Obj, category: Obj)
  {
    Get(t, "categoryId") == Get(category, "id") && !IsArchived(t)
  }

  /** The number of non-archived tasks that reference the category. */
  function TaskCount(category: Obj, tasks: seq<Obj>): (c: nat)
    ensures c <= |tasks|
    ensures tasks == [] ==> c == 0
  {
    |Filter(tasks, t => CountsToward(t, category))|
  }

  /** A category's count is positive exactly when some non-archived task references it. */
  lemma TaskCountPositive(category: Obj, tasks: seq<Obj>)
    ensures TaskCount(category, tasks) > 0 <==> exists j | 0 <= j < |tasks| :: CountsToward(tasks[j], category)
  {
    var kept := Filter(tasks, t => CountsToward(t, category));
    if |kept| > 0 {
      assert kept[0] in kept;
    }
    if exists j | 0 <= j < |tasks| :: CountsToward(tasks[j], category) {
      var j :| 0 <= j < |tasks| && CountsToward(tasks[j], category);
      assert tasks[j] in kept;
    }
  }

  /** Every category with its `taskCount` field set to its current count. */
  function WithTaskCounts(categories: seq<Obj>, tasks: seq<Obj>): (r: seq<Obj>)
    ensures |r| == |categories|
    ensures forall i | 0 <= i < |r| :: r[i] == categories[i]["taskCount" := Num(TaskCount(categories[i], tasks))]
  {
    if categories == [] then []
    else [categories[0]["taskCount" := Num(TaskCount(categories[0], tasks))]] + WithTaskCounts(categories[1..], tasks)
  }

  /** Aggregating over two task lists gives the same categories when every
      category counts the same in both. */
  lemma SameCountsSameCategories(categories: seq<Obj>, tasks1: seq<Obj>, tasks2: seq<Obj>)
    requires forall i | 0 <= i < |categories| :: TaskCount(categories[i], tasks1) == TaskCount(categories[i], tasks2)
    ensures WithTaskCounts(categories, tasks1) == WithTaskCounts(categories, tasks2)
  {
    var r1, r2 := WithTaskCounts(categories, tasks1), WithTaskCounts(categories, tasks2);
    assert forall i | 0 <= i < |r1| :: r1[i] == r2[i];
  }

  /** The counts do not depend on the order in which the tasks arrive. */
  lemma CountsIgnoreTaskOrder(categories: seq<Obj>, tasks1: seq<Obj>, tasks2: seq<Obj>)
    requires multiset(tasks1) == multiset(tasks2)
    ensures WithTaskCounts(categories, tasks1) == WithTaskCounts(categories, tasks2)
  {
    forall i | 0 <= i < |categories|
      ensures TaskCount(categories[i], tasks1) == TaskCount(categories[i], tasks2)
    {
      FilterCountIsOrderFree(tasks1, tasks2, t => CountsToward(t, categories[i]));
    }
    SameCountsSameCategories(categories, tasks1, tasks2);
  }

  /** A task that does not count toward a category can be removed from the list
      without changing that category's count. */
  lemma SkipUncountedTask(category: Obj, before: seq<Obj>, t: Obj, after: seq<Obj>)
    requires !CountsToward(t, category)
    ensures TaskCount(category, before + [t] + after) == TaskCount(category, before + after)
  {
    var p := u => CountsToward(u, category);
    FilterConcat(before + [t], after, p);
    FilterConcat(before, [t], p);
    FilterConcat(before, after, p);
    assert Filter([t], p) == [];
  }

  /** A task that references no listed category (or is archived) adds to no count. */
  lemma UnreferencedTaskCountsNowhere(categories: seq<Obj>, before: seq<Obj>, t: Obj, after: seq<Obj>)
    requires forall i | 0 <= i < |categories| :: !CountsToward(t, categories[i])
    ensures WithTaskCounts(categories, before + [t] + after) == WithTaskCounts(categories, before + after)
  {
    forall i | 0 <= i < |categories|
      ensures TaskCount(categories[i], before + [t] + after) == TaskCount(categories[i], before + after)
    {
      SkipUncountedTask(categories[i], before, t, after);
    }
    SameCountsSameCategories(categories, before + [t] + after, before + after);
  }

  /** The delete guard: the first category with the id has a positive
      `taskCount`. An unknown id never blocks; a numeric count blocks exactly
      when it is above zero. */
  function DeleteBlocked(categories: seq<Obj>, id: Value): (b: bool)
    ensures b ==> FindIndex(categories, id) != -1
    ensures var c := Find(categories, id);
            c.Some? && Get(c.value, "taskCount").Num? ==> (b <==> Get(c.value, "taskCount").n > 0)
  {
    var c := Find(categories, id);
    c.Some? && Positive(Get(c.value, "taskCount"))
  }

  /** On freshly aggregated categories, deletion is refused exactly when a
      non-archived task references the category. */
  lemma DeleteBlockedIffReferenced(categories: seq<Obj>, tasks: seq<Obj>, id: Value)
    ensures DeleteBlocked(WithTaskCounts(categories, tasks), id)
            <==> Find(categories, id).Some?
                 && exists j | 0 <= j < |tasks| :: CountsToward(tasks[j], Find(categories, id).value)
  {
    var r := WithTaskCounts(categories, tasks);
    forall i | 0 <= i < |r| ensures Get(r[i], "id") == Get(categories[i], "id") {
    }
    FindIndexAgrees(categories, r, id);
    var i := FindIndex(categories, id);
    if i != -1 {
      var c := categories[i];
      assert Find(categories, id).value == c;
      assert Find(r, id).value == c["taskCount" := Num(TaskCount(c, tasks))];
      assert Get(Find(r, id).value, "taskCount") == Num(TaskCount(c, tasks));
      TaskCountPositive(c, tasks);
    }
  }

  /** Two lists whose records carry the same ids position by position have the
      same first index for every id. */
  lemma {:induction false} FindIndexAgrees(s: seq<Obj>, t: seq<Obj>, id: Value)
    requires |s| == |t|
    requires forall i | 0 <= i < |s| :: Get(s[i], "id") == Get(t[i], "id")
    decreases |s|
    ensures FindIndex(s, id) == FindIndex(t, id)
  {
    if s != [] {
      FindIndexAgrees(s[1..], t[1..], id);
    }
  }

  /** Every displayed category with the updated record's id becomes the updated
      record, keeping the count it showed; the others stay as they were. */
  function ReplaceKeepingCount(categories: seq<Obj>, updated: Obj): (r: seq<Obj>)
    ensures |r| == |categories|
    ensures forall i | 0 <= i < |r| ::
              r[i] == if HasId(categories[i], Get(updated, "id"))
                      then updated["taskCount" := Get(categories[i], "taskCount")]
                      else categories[i]
  {
    if categories == [] then []
    else
      var c := categories[0];
      [if HasId(c, Get(updated, "id")) then updated["taskCount" := Get(c, "taskCount")] else c]
        + ReplaceKeepingCount(categories[1..], updated)
  }

  /** An update never changes any category's displayed count, so it never
      changes which categories can be deleted. */
  lemma ReplaceKeepsDeleteGuard(categories: seq<Obj>, updated: Obj, id: Value)
    ensures DeleteBlocked(ReplaceKeepingCount(categories, updated), id) == DeleteBlocked(categories, id)
  {
    var r := ReplaceKeepingCount(categories, updated);
    forall i | 0 <= i < |r| ensures Get(r[i], "id") == Get(categories[i], "id")
                              && Get(r[i], "taskCount") == Get(categories[i], "taskCount") {
    }
    FindIndexAgrees(categories, r, id);
  }

  /** The field of the
      first category with the id when that field is truthy, else the fallback. */
  function FieldOr(categories: seq<Obj>, id: Value, key: string, fallback: Value): (v: Value)
    requires Truthy(fallback)
    ensures Truthy(v)
    ensures v == fallback
            || exists i | 0 <= i < |categories| :: HasId(categories[i], id) && v == Get(categories[i], key)
    ensures var c := Find(categories, id);
            c.Some? && Truthy(Get(c.value, key)) ==> v == Get(c.value, key)
    ensures Find(categories, id).None? ==> v == fallback
  {
    var c := Find(categories, id);
    if c.Some? && Truthy(Get(c.value, key)) then Get(c.value, key) else fallback
  }

  /** `getCategoryName`: the category's name, or "Uncategorized". */
  function CategoryName(categories: seq<Obj>, id: Value): (v: Value)
    ensures Truthy(v)
    ensures Find(categories, id).None? ==> v == Str("Uncategorized")
    ensures var c := Find(categories, id);
            c.Some? ==> v == if Truthy(Get(c.value, "name")) then Get(c.value, "name") else Str("Uncategorized")
  {
    FieldOr(categories, id, "name", Str("Uncategorized"))
  }

  /** `getCategoryColor`: the category's color, or the neutral grey "#6B7280". */
  function CategoryColor(categories: seq<Obj>, id: Value): (v: Value)
    ensures Truthy(v)
    ensures Find(categories, id).None? ==> v == Str("#6B7280")
    ensures var c := Find(categories, id);
            c.Some? ==> v == if Truthy(Get(c.value, "color")) then Get(c.value, "color") else Str("#6B7280")
  {
    FieldOr(categories, id, "color", Str("#6B7280"))
  }

  /** The name guard passes: the name is a string that is not empty once
      trimmed. A name that is not a string makes the trim throw, which also
      stops the handler. */
  function HasFilledName(form: Obj): (b: bool)
    ensures b <==> Get(form, "name").Str? && Trim(Get(form, "name").s) != ""
  {
    var name := Get(form, "name");
    if name.Str? then TrimEmptyIffBlank(name.s); !IsBlank(name.s) else false
  }

  /** `{ name: '', color: '#5B21B6', icon: 'Tag' }`: the empty form, first color and first icon. */
  const EmptyForm: Obj := map["name" := Str(""), "color" := Str(ColorOptions[0]), "icon" := Str(IconOptions[0])]
}
