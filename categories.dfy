/** The categories page (src/pages/Categories.jsx): lists the categories with
    the number of non-archived tasks in each, and creates, edits and deletes
    categories through a create form and an edit form of its own. */
module CategoriesView {
  import opened Records
  import opened Seqs
  import opened TaskServices
  import opened CategoryServices
  import opened CategoryRules
  import opened TaskMutations
  import opened Reconcile

  /** What an edit sends: the edited name, color and icon, and nothing else,
      so the stored id and order are kept. */
  function EditPayload(editing: Obj): (p: Obj)
    ensures p.Keys == {"name", "color", "icon"}
    ensures "id" !in p && "taskCount" !in p
    ensures forall k | k in p :: p[k] == Get(editing, k)
  {
    map["name" := Get(editing, "name"), "color" := Get(editing, "color"), "icon" := Get(editing, "icon")]
  }

  /** The create form holds exactly a string name, one of the offered colors and one of the offered icons. */
  predicate FormShape(form: Obj)
  {
    && form.Keys == {"name", "color", "icon"}
    && form["name"].Str?
    && form["color"].Str? && form["color"].s in ColorOptions
    && form["icon"].Str? && form["icon"].s in IconOptions
  }

  /** The empty form has the create form's shape. */
  lemma EmptyFormHasShape()
    ensures FormShape(EmptyForm)
  {
    assert EmptyForm["color"].s == ColorOptions[0];
    assert EmptyForm["icon"].s == IconOptions[0];
  }

  class Categories {
    var categories: seq<Obj>
    var tasks: seq<Obj>
    var error: Value
    var showCreateModal: bool
    var editingCategory: Option<Obj>
    var newCategory: Obj

    /** The create form always has the empty form's shape. */
    ghost predicate Valid()
      reads this
    {
      FormShape(newCategory)
    }

    constructor ()
      ensures Valid()
      ensures categories == [] && tasks == [] && error == Null
      ensures !showCreateModal && editingCategory.None? && newCategory == EmptyForm
    {
      categories := [];
      tasks := [];
      error := Null;
      showCreateModal := false;
      editingCategory := None;
      newCategory := EmptyForm;
      EmptyFormHasShape();
    }

    /** The page holds what a reload would hold: the stored categories with
        freshly counted tasks, and the stored tasks. */
    ghost predicate InSync(categorySvc: CategoryService, taskSvc: TaskService)
      reads this, categorySvc, taskSvc
    {
      categories == WithTaskCounts(categorySvc.categories, taskSvc.tasks) && tasks == taskSvc.tasks
    }

    /** `loadData`: every category with the count of non-archived tasks that
        reference it, and the tasks; on failure the error message (or "Failed
        to load categories") and the lists as they were. */
    method LoadData(categorySvc: CategoryService, taskSvc: TaskService, remoteError: Option<string>)
      modifies this`categories, this`tasks, this`error
      ensures remoteError.None? ==> InSync(categorySvc, taskSvc) && error == Null
      ensures remoteError.None? ==>
                forall i | 0 <= i < |categories| ::
                  Get(categories[i], "taskCount") == Num(TaskCount(categorySvc.categories[i], taskSvc.tasks))
      ensures remoteError.Some? ==>
                categories == old(categories) && tasks == old(tasks)
                && error == Str(MessageOr(remoteError.value, "Failed to load categories"))
    {
      error := Null;
      if remoteError.Some? {
        error := Str(MessageOr(remoteError.value, "Failed to load categories"));
        return;
      }
      var categoriesData := categorySvc.GetAll();
      var tasksData := taskSvc.GetAll();
      categories := WithTaskCounts(categoriesData, tasksData);
      tasks := tasksData;
    }

    /** `handleCreateCategory`: a blank name does nothing; otherwise the form is
        stored, the stored record (with a zero count) is appended, and the form
        is reset and closed. A failed call leaves everything as it was. */
    method HandleCreateCategory(categorySvc: CategoryService, ghost taskSvc: TaskService, freshId: string,
                                remoteError: Option<string>)
      requires Valid()
      modifies this`categories, this`newCategory, this`showCreateModal, categorySvc
      ensures Valid()
      ensures !HasFilledName(old(newCategory)) || remoteError.Some? ==>
                categorySvc.categories == old(categorySvc.categories) && categories == old(categories)
                && newCategory == old(newCategory) && showCreateModal == old(showCreateModal)
      ensures HasFilledName(old(newCategory)) && remoteError.None? ==>
                var created := NewCategoryRecord(old(newCategory), freshId, |old(categorySvc.categories)|);
                categorySvc.categories == old(categorySvc.categories) + [created]
                && categories == old(categories) + [created]
                && newCategory == EmptyForm && !showCreateModal
      ensures old(InSync(categorySvc, taskSvc)) && Unreferenced(taskSvc.tasks, Str(freshId)) ==>
                InSync(categorySvc, taskSvc)
    {
      if !HasFilledName(newCategory) || remoteError.Some? {
        return;
      }
      CreateStored(categorySvc, taskSvc.tasks, freshId);
      EmptyFormHasShape();
    }

    /** The success path of a create: the form is stored, the stored record is
        appended, and the form is reset and closed. */
    method CreateStored(categorySvc: CategoryService, ghost tasks: seq<Obj>, freshId: string)
      modifies this`categories, this`newCategory, this`showCreateModal, categorySvc
      ensures var created := NewCategoryRecord(old(newCategory), freshId, |old(categorySvc.categories)|);
              categorySvc.categories == old(categorySvc.categories) + [created]
              && categories == old(categories) + [created]
      ensures newCategory == EmptyForm && !showCreateModal
      ensures old(categories) == WithTaskCounts(old(categorySvc.categories), tasks)
              && "id" !in old(newCategory) && Unreferenced(tasks, Str(freshId)) ==>
                categories == WithTaskCounts(categorySvc.categories, tasks)
    {
      ghost var before := categorySvc.categories;
      var created := categorySvc.Create(newCategory, freshId);
      categories := categories + [created];
      if "id" !in old(newCategory) && Unreferenced(tasks, Str(freshId)) {
        assert Get(created, "id") == Str(freshId);
        CreateKeepsCounts(before, tasks, created);
      }
      newCategory := EmptyForm;
      showCreateModal := false;
    }

    /** `handleUpdateCategory`: with no category being edited or a blank name,
        nothing; otherwise sends the edited name, color and icon and, when that
        succeeds, patches the stored record into the list keeping the displayed
        count, and closes the edit form. */
    method HandleUpdateCategory(categorySvc: CategoryService, ghost taskSvc: TaskService, remoteError: Option<string>)
      modifies this`categories, this`editingCategory, categorySvc
      ensures var editing := old(editingCategory);
              var i := if editing.Some? then FindIndex(old(categorySvc.categories), Get(editing.value, "id")) else -1;
              if editing.None? || !HasFilledName(editing.value) || remoteError.Some? || i == -1 then
                categorySvc.categories == old(categorySvc.categories) && categories == old(categories)
                && editingCategory == old(editingCategory)
              else
                var updated := Spread(old(categorySvc.categories)[i], EditPayload(editing.value));
                categorySvc.categories == old(categorySvc.categories)[i := updated]
                && categories == ReplaceKeepingCount(old(categories), updated)
                && editingCategory.None?
      ensures old(InSync(categorySvc, taskSvc)) && UniqueIds(old(categorySvc.categories)) ==> InSync(categorySvc, taskSvc)
    {
      if editingCategory.None? || !HasFilledName(editingCategory.value) || remoteError.Some? {
        return;
      }
      SaveEdit(categorySvc, taskSvc.tasks, editingCategory.value);
    }

    /** The call part of an update: the stored category with the edited id gets
        the edited name, color and icon; when the call succeeds the listed one
        is patched keeping its displayed count and the edit form closes. */
    method SaveEdit(categorySvc: CategoryService, ghost tasks: seq<Obj>, editing: Obj)
      modifies this`categories, this`editingCategory, categorySvc
      ensures var i := FindIndex(old(categorySvc.categories), Get(editing, "id"));
              if i == -1 then
                categorySvc.categories == old(categorySvc.categories) && categories == old(categories)
                && editingCategory == old(editingCategory)
              else
                var updated := Spread(old(categorySvc.categories)[i], EditPayload(editing));
                categorySvc.categories == old(categorySvc.categories)[i := updated]
                && categories == ReplaceKeepingCount(old(categories), updated)
                && editingCategory.None?
      ensures old(categories) == WithTaskCounts(old(categorySvc.categories), tasks)
              && UniqueIds(old(categorySvc.categories)) ==>
                categories == WithTaskCounts(categorySvc.categories, tasks)
    {
      ghost var before := categorySvc.categories;
      var id := Get(editing, "id");
      ghost var i := FindIndex(before, id);
      var changes := EditPayload(editing);
      var r := categorySvc.Update(id, changes);
      if r.Ok? {
        categories := ReplaceKeepingCount(categories, r.value);
        editingCategory := None;
        if UniqueIds(before) {
          UpdateKeepsCounts(before, tasks, i, changes);
        }
      }
    }

    /** `handleDeleteCategory`: a category whose displayed count is positive is
        refused before the user is asked; otherwise, once confirmed, the stored
        category is deleted and every listed category with the id is dropped.
        `asked` tells whether the confirmation was shown. */
    method HandleDeleteCategory(categorySvc: CategoryService, ghost taskSvc: TaskService, categoryId: Value,
                                confirmed: bool, remoteError: Option<string>) returns (asked: bool)
      modifies this`categories, categorySvc
      ensures asked <==> !DeleteBlocked(old(categories), categoryId)
      ensures var i := FindIndex(old(categorySvc.categories), categoryId);
              if !asked || !confirmed || remoteError.Some? || i == -1 then
                categorySvc.categories == old(categorySvc.categories) && categories == old(categories)
              else
                categorySvc.categories == RemoveAt(old(categorySvc.categories), i)
                && categories == RemoveById(old(categories), categoryId)
      ensures old(InSync(categorySvc, taskSvc)) && UniqueIds(old(categorySvc.categories)) ==> InSync(categorySvc, taskSvc)
      ensures var c := Find(old(categorySvc.categories), categoryId);
              old(InSync(categorySvc, taskSvc)) && c.Some?
              && (exists j | 0 <= j < |taskSvc.tasks| :: CountsToward(taskSvc.tasks[j], c.value))
              ==> !asked && categorySvc.categories == old(categorySvc.categories)
    {
      DeleteBlockedIffReferenced(categorySvc.categories, taskSvc.tasks, categoryId);
      if DeleteBlocked(categories, categoryId) {
        return false;
      }
      asked := true;
      if !confirmed || remoteError.Some? {
        return;
      }
      DeleteStored(categorySvc, taskSvc.tasks, categoryId);
    }

    /** The confirmed part of a delete: the stored category goes and, when the
        call succeeds, the listed one with it. */
    method DeleteStored(categorySvc: CategoryService, ghost tasks: seq<Obj>, categoryId: Value)
      modifies this`categories, categorySvc
      ensures var i := FindIndex(old(categorySvc.categories), categoryId);
              if i == -1 then
                categorySvc.categories == old(categorySvc.categories) && categories == old(categories)
              else
                categorySvc.categories == RemoveAt(old(categorySvc.categories), i)
                && categories == RemoveById(old(categories), categoryId)
      ensures old(categories) == WithTaskCounts(old(categorySvc.categories), tasks)
              && UniqueIds(old(categorySvc.categories)) ==>
                categories == WithTaskCounts(categorySvc.categories, tasks)
    {
      ghost var before := categorySvc.categories;
      ghost var i := FindIndex(before, categoryId);
      var r := categorySvc.Delete(categoryId);
      if r.Ok? {
        categories := RemoveById(categories, categoryId);
        if UniqueIds(before) {
          DeleteKeepsCounts(before, tasks, i, categoryId);
        }
      }
    }

    /** The "New Category" buttons open the create form. */
    method OpenCreateModal()
      modifies this`showCreateModal
      ensures showCreateModal
    {
      showCreateModal := true;
    }

    /** The close and cancel buttons hide the create form and keep what was typed. */
    method CloseCreateModal()
      modifies this`showCreateModal
      ensures !showCreateModal
    {
      showCreateModal := false;
    }

    /** Typing a name into the create form. */
    method SetNewCategoryName(name: string)
      requires Valid()
      modifies this`newCategory
      ensures Valid()
      ensures Get(newCategory, "name") == Str(name)
      ensures forall k | k != "name" :: Get(newCategory, k) == Get(old(newCategory), k)
    {
      newCategory := Spread(newCategory, map["name" := Str(name)]);
    }

    /** Picking one of the offered colors in the create form. */
    method SetNewCategoryColor(color: string)
      requires Valid() && color in ColorOptions
      modifies this`newCategory
      ensures Valid()
      ensures Get(newCategory, "color") == Str(color)
      ensures forall k | k != "color" :: Get(newCategory, k) == Get(old(newCategory), k)
    {
      newCategory := Spread(newCategory, map["color" := Str(color)]);
    }

    /** Picking one of the offered icons in the create form. */
    method SetNewCategoryIcon(icon: string)
      requires Valid() && icon in IconOptions
      modifies this`newCategory
      ensures Valid()
      ensures Get(newCategory, "icon") == Str(icon)
      ensures forall k | k != "icon" :: Get(newCategory, k) == Get(old(newCategory), k)
    {
      newCategory := Spread(newCategory, map["icon" := Str(icon)]);
    }

    /** The edit button opens the edit form on a copy of the listed category. */
    method StartEditing(category: Obj)
      modifies this`editingCategory
      ensures editingCategory == Some(category)
    {
      editingCategory := Some(category);
    }

    /** The close and cancel buttons drop the edit. */
    method CancelEditing()
      modifies this`editingCategory
      ensures editingCategory.None?
    {
      editingCategory := None;
    }

    /** Changing one field of the category being edited; the others, the id
        among them, are kept. With no edit open the result holds that field alone. */
    method SetEditingField(key: string, value: Value)
      requires key in {"name", "color", "icon"}
      modifies this`editingCategory
      ensures editingCategory.Some?
      ensures Get(editingCategory.value, key) == value
      ensures forall k | k != key ::
                Get(editingCategory.value, k) == if old(editingCategory).Some? then Get(old(editingCategory).value, k) else Undefined
    {
      var base := if editingCategory.Some? then editingCategory.value else map[];
      editingCategory := Some(Spread(base, map[key := value]));
    }
  }
}
