/** The in-memory category table (src/services/api/categoryService.js). Each
    service call is one synchronous step; the artificial delays are not modelled. */
module CategoryServices {
  import opened Records

  const CategoryNotFound: string := "Category not found"

  /** What `delete` resolves to: `{ success: true }`. */
  const DeleteReply: Obj := map["success" := Bool(true)]

  /** The record `create` stores: the generated id, then the caller's fields
      (an `id` among them replaces the generated one), then `taskCount: 0` and
      `order` set to the table length, which always override the caller's. */
  function NewCategoryRecord(data: Obj, freshId: string, order: nat): (r: Obj)
    ensures r.Keys == data.Keys + {"id", "taskCount", "order"}
    ensures Get(r, "id") == if "id" in data then data["id"] else Str(freshId)
    ensures Get(r, "taskCount") == Num(0) && Get(r, "order") == Num(order)
    ensures forall k | k !in {"id", "taskCount", "order"} :: Get(r, k) == Get(data, k)
  {
    map["id" := Str(freshId)] + data + map["taskCount" := Num(0), "order" := Num(order)]
  }

  class CategoryService {
    var categories: seq<Obj>

    /** The table starts as a copy of the seed data. */
    constructor (seed: seq<Obj>)
      ensures categories == seed
    {
      categories := seed;
    }

    /** A copy of the whole table, in order. */
    method GetAll() returns (r: seq<Obj>)
      ensures r == categories
    {
      r := categories;
    }

    /** The first category with the id, or "Category not found". */
    method GetById(id: Value) returns (r: Result<Obj>)
      ensures r.Err? <==> forall j | 0 <= j < |categories| :: !HasId(categories[j], id)
      ensures r.Err? ==> r.message == CategoryNotFound
      ensures r.Ok? ==> r.value == categories[FindIndex(categories, id)]
    {
      var i := FindIndex(categories, id);
      if i == -1 {
        r := Err(CategoryNotFound);
      } else {
        r := Ok(categories[i]);
      }
    }

    /** Appends the new record, numbered after the existing ones, and returns it. */
    method Create(data: Obj, freshId: string) returns (r: Obj)
      modifies this
      ensures r == NewCategoryRecord(data, freshId, |old(categories)|)
      ensures categories == old(categories) + [r]
    {
      r := NewCategoryRecord(data, freshId, |categories|);
      categories := categories + [r];
    }

    /** Merges `updates` into the first category with the id; every other one is left alone. */
    method Update(id: Value, updates: Obj) returns (r: Result<Obj>)
      modifies this
      ensures var i := FindIndex(old(categories), id);
              if i == -1 then r == Err(CategoryNotFound) && categories == old(categories)
              else r == Ok(Spread(old(categories)[i], updates)) && categories == old(categories)[i := r.value]
    {
      var i := FindIndex(categories, id);
      if i == -1 {
        r := Err(CategoryNotFound);
      } else {
        var merged := Spread(categories[i], updates);
        categories := categories[i := merged];
        r := Ok(merged);
      }
    }

    /** Removes the first category with the id; the others keep their order. */
    method Delete(id: Value) returns (r: Result<Obj>)
      modifies this
      ensures var i := FindIndex(old(categories), id);
              if i == -1 then r == Err(CategoryNotFound) && categories == old(categories)
              else r == Ok(DeleteReply) && categories == RemoveAt(old(categories), i)
    {
      var i := FindIndex(categories, id);
      if i == -1 {
        r := Err(CategoryNotFound);
      } else {
        categories := RemoveAt(categories, i);
        r := Ok(DeleteReply);
      }
    }

    /** Writes `taskCount` of the first category with the id and nothing else. */
    method UpdateTaskCount(id: Value, count: Value) returns (r: Result<Obj>)
      modifies this
      ensures var i := FindIndex(old(categories), id);
              if i == -1 then r == Err(CategoryNotFound) && categories == old(categories)
              else r == Ok(old(categories)[i]["taskCount" := count])
                   && categories == old(categories)[i := r.value]
    {
      var i := FindIndex(categories, id);
      if i != -1 {
        var written := categories[i]["taskCount" := count];
        categories := categories[i := written];
        r := Ok(written);
        return;
      }
      r := Err(CategoryNotFound);
    }
  }
}
