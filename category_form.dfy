/** The category form (src/components/organisms/CategoryFormModal.jsx): a name,
    color and icon form that starts empty for a new category or from the
    category being edited, and hands the result to its save callback. */
module CategoryFormView {
  import opened Records
  import opened Text
  import opened CategoryRules

  /** The form's contents for a category prop: the category's name, color and
      icon, or the empty form when there is none. */
  function FormFor(category: Option<Obj>): (f: Obj)
    ensures f.Keys == {"name", "color", "icon"}
    ensures category.None? ==> f == EmptyForm
    ensures category.Some? ==> forall k | k in f :: f[k] == Get(category.value, k)
  {
    match category
    case None => EmptyForm
    case Some(c) => map["name" := Get(c, "name"), "color" := Get(c, "color"), "icon" := Get(c, "icon")]
  }

  /** What a submit hands to the save callback: the edited category with the
      form laid over it, or the form alone for a new category. */
  function Submitted(category: Option<Obj>, form: Obj): (data: Obj)
    requires form.Keys == {"name", "color", "icon"}
    ensures category.None? ==> data == form && "id" !in data
    ensures category.Some? ==> data.Keys == category.value.Keys + form.Keys
    ensures category.Some? ==> Get(data, "id") == Get(category.value, "id")
    ensures category.Some? ==> forall k | k !in form :: Get(data, k) == Get(category.value, k)
    ensures forall k | k in form :: Get(data, k) == form[k]
  {
    match category
    case None => form
    case Some(c) => Spread(c, form)
  }

  /** The save callback can tell an edit from a creation by the id alone: the
      submitted data has a truthy id exactly when an existing category with a
      truthy id is being edited. */
  lemma SubmittedIdMarksEdit(category: Option<Obj>, form: Obj)
    requires form.Keys == {"name", "color", "icon"}
    ensures Truthy(Get(Submitted(category, form), "id"))
            <==> category.Some? && Truthy(Get(category.value, "id"))
  {
    if category.None? {
      assert Get(form, "id") == Undefined;
    }
  }

  class CategoryForm {
    var category: Option<Obj>
    var formData: Obj

    /** The form always holds exactly a name, a color and an icon. */
    ghost predicate Valid()
      reads this
    {
      formData.Keys == {"name", "color", "icon"}
    }

    /** Mounting: the empty form, at once replaced by the effect with the form for the prop. */
    constructor (category: Option<Obj>)
      ensures Valid()
      ensures this.category == category && formData == FormFor(category)
    {
      this.category := category;
      formData := FormFor(category);
    }

    /** A new `category` prop: the effect reloads the form from it, discarding edits. */
    method SetCategory(category: Option<Obj>)
      modifies this
      ensures Valid()
      ensures this.category == category && formData == FormFor(category)
    {
      this.category := category;
      formData := FormFor(category);
    }

    /** `handleChange`: typing a name; color and icon are kept. */
    method HandleChange(name: string)
      requires Valid()
      modifies this`formData
      ensures Valid()
      ensures formData == old(formData)["name" := Str(name)]
    {
      formData := Spread(formData, map["name" := Str(name)]);
    }

    /** `handleColorChange`: picking a color; name and icon are kept. */
    method HandleColorChange(color: string)
      requires Valid()
      modifies this`formData
      ensures Valid()
      ensures formData == old(formData)["color" := Str(color)]
    {
      formData := Spread(formData, map["color" := Str(color)]);
    }

    /** `handleIconChange`: picking an icon; name and color are kept. */
    method HandleIconChange(icon: string)
      requires Valid()
      modifies this`formData
      ensures Valid()
      ensures formData == old(formData)["icon" := Str(icon)]
    {
      formData := Spread(formData, map["icon" := Str(icon)]);
    }

    /** `handleSubmit`: a blank name is refused and nothing is saved; otherwise
        the submitted data goes to the save callback. */
    method HandleSubmit() returns (saved: Option<Obj>)
      requires Valid()
      ensures saved.Some? <==> HasFilledName(formData)
      ensures saved.Some? ==> saved.value == Submitted(category, formData)
    {
      if !HasFilledName(formData) {
        return None;
      }
      saved := Some(Submitted(category, formData));
    }
  }
}
