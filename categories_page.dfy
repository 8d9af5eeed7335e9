/** The refactored categories page (src/components/pages/CategoriesPage.jsx):
    the categories with their task counts, one save handler for the shared
    category form that updates or creates depending on the submitted id, and
    deletion guarded by the count. */
module CategoriesPageView {
  import opened Records
  import opened Seqs
  import opened TaskServices
  import opened CategoryServices
  import opened CategoryRules
  import opened TaskMutations
  import opened Reconcile
  import CategoryFormView

  /** The save handler takes the update path exactly for a form submitted
      while editing a category with a truthy id. */
  lemma SaveRoutesByForm(category: Option<Obj>, form: Obj)
    requires form.Keys == {"name", "color", "icon"}
    ensures UpdatesExisting(CategoryFormView.Submitted(category, form))
            <==> category.Some? && Truthy(Get(category.value, "id"))
  {
    CategoryFormView.SubmittedIdMarksEdit(category, form);
  }

  /** The branch the save handler takes: update when the data carries a truthy
      id. Data without an id always creates; a string id updates exactly when
      it is non-empty. */
  function UpdatesExisting(categoryData: Obj): (b: bool)
    ensures b ==> "id" in categoryData
    ensures Get(categoryData, "id").Str? ==> (b <==> Get(categoryData, "id").s != "")
  {
    Truthy(Get(categoryData, "id"))
  }

  class CategoriesPage {
    var categories: seq<Obj>
    var error: Value
    var showCreateModal: bool
    var editingCategory: Option<Obj>

    constructor ()
      ensures categories == [] && error == Null && !showCreateModal && editingCategory.None?
    {
      categories := [];
      error := Null;
      showCreateModal := false;
      editingCategory := None;
    }

    /** The page holds the stored categories with freshly counted tasks. */
    ghost predicate InSync(categorySvc: CategoryService, taskSvc: TaskService)
      reads this, categorySvc, taskSvc
    {
      categories == WithTaskCounts(categorySvc.categories, taskSvc.tasks)
    }

    /** The category form is shown while creating or editing. */
    predicate FormShown()
      reads this
    {
      showCreateModal || editingCategory.Some?
    }

    /** `loadData`: every category with the count of non-archived tasks that
        reference it; on failure the error message (or "Failed to load
        categories") and the list as it was. */
    method LoadData(categorySvc: CategoryService, taskSvc: TaskService, remoteError: Option<string>)
      modifies this`categories, this`error
      ensures remoteError.None? ==> InSync(categorySvc, taskSvc) && error == Null
      ensures remoteError.None? ==>
                forall i | 0 <= i < |categories| ::
                  Get(categories[i], "taskCount") == Num(TaskCount(categorySvc.categories[i], taskSvc.tasks))
      ensures remoteError.Some? ==>
                categories == old(categories)
                && error == Str(MessageOr(remoteError.value, "Failed to load categories"))
    {
      error := Null;
      if remoteError.Some? {
        error := Str(MessageOr(remoteError.value, "Failed to load categories"));
        return;
      }
      var categoriesData := categorySvc.GetAll();
      var tasksData := taskSvc.GetAll();
      categories := WithTaskCounts(categoriesData, tasksData);
    }

    /** `handleSaveCategory`: data with a truthy id updates that category and
        patches the stored record into the list keeping the displayed count;
        other data creates a category appended with a zero count. Success
        closes the form; a failed call leaves everything as it was. */
    method HandleSaveCategory(categorySvc: CategoryService, ghost taskSvc: TaskService, categoryData: Obj,
                              freshId: string, remoteError: Option<string>)
      modifies this`categories, this`editingCategory, this`showCreateModal, categorySvc
      ensures var id := Get(categoryData, "id");
              remoteError.Some? || (UpdatesExisting(categoryData) && FindIndex(old(categorySvc.categories), id) == -1) ==>
                categorySvc.categories == old(categorySvc.categories) && categories == old(categories)
                && editingCategory == old(editingCategory) && showCreateModal == old(showCreateModal)
      ensures var i := FindIndex(old(categorySvc.categories), Get(categoryData, "id"));
              UpdatesExisting(categoryData) && remoteError.None? && i != -1 ==>
                var updated := Spread(old(categorySvc.categories)[i], categoryData);
                categorySvc.categories == old(categorySvc.categories)[i := updated]
                && categories == ReplaceKeepingCount(old(categories), updated)
                && editingCategory.None? && !showCreateModal
      ensures !UpdatesExisting(categoryData) && remoteError.None? ==>
                var created := NewCategoryRecord(categoryData, freshId, |old(categorySvc.categories)|);
                categorySvc.categories == old(categorySvc.categories) + [created]
                && categories == old(categories) + [created]
                && editingCategory.None? && !showCreateModal
      ensures var created := NewCategoryRecord(categoryData, freshId, |old(categorySvc.categories)|);
              old(InSync(categorySvc, taskSvc)) && UniqueIds(old(categorySvc.categories))
              && (UpdatesExisting(categoryData) || Unreferenced(taskSvc.tasks, Get(created, "id"))) ==>
                InSync(categorySvc, taskSvc)
    {
      if remoteError.Some? {
        return;
      }
      var ok := true;
      if UpdatesExisting(categoryData) {
        ok := UpdateStored(categorySvc, taskSvc.tasks, Get(categoryData, "id"), categoryData);
      } else {
        CreateStored(categorySvc, taskSvc.tasks, categoryData, freshId);
      }
      if ok {
        editingCategory := None;
        showCreateModal := false;
      }
    }

    /** The create path of a save: the stored record is appended with its count set to zero. */
    method CreateStored(categorySvc: CategoryService, ghost tasks: seq<Obj>, categoryData: Obj, freshId: string)
      modifies this`categories, categorySvc
      ensures var created := NewCategoryRecord(categoryData, freshId, |old(categorySvc.categories)|);
              categorySvc.categories == old(categorySvc.categories) + [created]
              && categories == old(categories) + [created]
      ensures var created := NewCategoryRecord(categoryData, freshId, |old(categorySvc.categories)|);
              old(categories) == WithTaskCounts(old(categorySvc.categories), tasks)
              && Unreferenced(tasks, Get(created, "id")) ==>
                categories == WithTaskCounts(categorySvc.categories, tasks)
    {
      ghost var before := categorySvc.categories;
      var created := categorySvc.Create(categoryData, freshId);
      assert created["taskCount" := Num(0)] == created by {
        assert "taskCount" in created && created["taskCount"] == Num(0);
      }
      categories := categories + [created["taskCount" := Num(0)]];
      if Unreferenced(tasks, Get(created, "id")) {
        CreateKeepsCounts(before, tasks, created);
      }
    }

    /** `handleDeleteCategory`: a category whose displayed count is positive is
        refused before the user is asked; otherwise, once confirmed, the stored
        category is deleted and every listed category with the id is dropped.
        `asked` tells whether the confirmation was shown. */
    method HandleDeleteCategory(categorySvc: CategoryService, ghost taskSvc: TaskService, categoryId: Value,
                                confirmed: bool, remoteError: Option<string>) returns (asked: bool)
      modifies this`categories, categorySvc
      ensures asked <==> !DeleteBlocked(old(categories), categoryId)
      ensures var i := FindIndex(old(categorySvc.categories), categoryId);
              if !asked || !confirmed || remoteError.Some? || i == -1 then
                categorySvc.categories == old(categorySvc.categories) && categories == old(categories)
              else
                categorySvc.categories == RemoveAt(old(categorySvc.categories), i)
                && categories == RemoveById(old(categories), categoryId)
      ensures old(InSync(categorySvc, taskSvc)) && UniqueIds(old(categorySvc.categories)) ==> InSync(categorySvc, taskSvc)
      ensures var c := Find(old(categorySvc.categories), categoryId);
              old(InSync(categorySvc, taskSvc)) && c.Some?
              && (exists j | 0 <= j < |taskSvc.tasks| :: CountsToward(taskSvc.tasks[j], c.value))
              ==> !asked && categorySvc.categories == old(categorySvc.categories)
    {
      DeleteBlockedIffReferenced(categorySvc.categories, taskSvc.tasks, categoryId);
      if DeleteBlocked(categories, categoryId) {
        return false;
      }
      asked := true;
      if !confirmed || remoteError.Some? {
        return;
      }
      DeleteStored(categorySvc, taskSvc.tasks, categoryId);
    }

    /** The call part of an update: the stored category with the id gets the
        changes and, when the call succeeds, the listed one is patched keeping
        its displayed count. `ok` tells whether the call succeeded. */
    method UpdateStored(categorySvc: CategoryService, ghost tasks: seq<Obj>, id: Value, changes: Obj)
      returns (ok: bool)
      modifies this`categories, categorySvc
      ensures var i := FindIndex(old(categorySvc.categories), id);
              if i == -1 then
                !ok && categorySvc.categories == old(categorySvc.categories) && categories == old(categories)
              else
                var updated := Spread(old(categorySvc.categories)[i], changes);
                ok && categorySvc.categories == old(categorySvc.categories)[i := updated]
                && categories == ReplaceKeepingCount(old(categories), updated)
      ensures old(categories) == WithTaskCounts(old(categorySvc.categories), tasks)
              && UniqueIds(old(categorySvc.categories)) && ("id" in changes ==> changes["id"] == id) ==>
                categories == WithTaskCounts(categorySvc.categories, tasks)
    {
      ghost var before := categorySvc.categories;
      ghost var i := FindIndex(before, id);
      var r := categorySvc.Update(id, changes);
      ok := r.Ok?;
      if ok {
        categories := ReplaceKeepingCount(categories, r.value);
        if UniqueIds(before) && ("id" in changes ==> changes["id"] == id) {
          UpdateKeepsCounts(before, tasks, i, changes);
        }
      }
    }

    /** The confirmed part of a delete: the stored category goes and, when the
        call succeeds, the listed one with it. */
    method DeleteStored(categorySvc: CategoryService, ghost tasks: seq<Obj>, categoryId: Value)
      modifies this`categories, categorySvc
      ensures var i := FindIndex(old(categorySvc.categories), categoryId);
              if i == -1 then
                categorySvc.categories == old(categorySvc.categories) && categories == old(categories)
              else
                categorySvc.categories == RemoveAt(old(categorySvc.categories), i)
                && categories == RemoveById(old(categories), categoryId)
      ensures old(categories) == WithTaskCounts(old(categorySvc.categories), tasks)
              && UniqueIds(old(categorySvc.categories)) ==>
                categories == WithTaskCounts(categorySvc.categories, tasks)
    {
      ghost var before := categorySvc.categories;
      ghost var i := FindIndex(before, categoryId);
      var r := categorySvc.Delete(categoryId);
      if r.Ok? {
        categories := RemoveById(categories, categoryId);
        if UniqueIds(before) {
          DeleteKeepsCounts(before, tasks, i, categoryId);
        }
      }
    }

    /** The "New Category" buttons open the form for a new category. */
    method OpenCreateModal()
      modifies this`showCreateModal
      ensures showCreateModal && FormShown()
    {
      showCreateModal := true;
    }

    /** Editing a listed category opens the form on it. */
    method StartEditing(category: Obj)
      modifies this`editingCategory
      ensures editingCategory == Some(category) && FormShown()
    {
      editingCategory := Some(category);
    }

    /** Closing the form ends both creating and editing. */
    method CloseForm()
      modifies this`showCreateModal, this`editingCategory
      ensures !showCreateModal && editingCategory.None? && !FormShown()
    {
      showCreateModal := false;
      editingCategory := None;
    }
  }
}
