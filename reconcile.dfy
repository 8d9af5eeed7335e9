/** Why the pages may patch their local lists instead of reloading: each local
    edit a page makes after a successful service call leaves the list equal to
    what a reload would show, as long as no two records share an id. */
module Reconcile {
  import opened Records
  import opened Seqs
  import opened TaskMutations
  import opened CategoryRules

  /** No record in `s` carries the id. */
  predicate NoId(s: seq<Obj>, id: Value)
  {
    forall j | 0 <= j < |s| :: !HasId(s[j], id)
  }

  /** With unique ids, the records before and after the one holding an id do not hold it. */
  lemma UniqueSplit(s: seq<Obj>, i: int, id: Value)
    requires UniqueIds(s) && 0 <= i < |s| && HasId(s[i], id)
    ensures NoId(s[..i], id) && NoId(s[i + 1..], id)
  {
    forall j | 0 <= j < i ensures !HasId(s[..i][j], id) {
      assert s[..i][j] == s[j];
    }
    var b := s[i + 1..];
    forall j | 0 <= j < |b| ensures !HasId(b[j], id) {
      assert b[j] == s[i + 1 + j];
    }
  }

  /** Filtering cannot introduce an id. */
  lemma FilterNoId(s: seq<Obj>, p: Obj -> bool, id: Value)
    requires NoId(s, id)
    ensures NoId(Filter(s, p), id)
  {
    var f := Filter(s, p);
    forall j | 0 <= j < |f| ensures !HasId(f[j], id) {
      assert f[j] in s;
    }
  }

  lemma ReplaceByIdConcat(a: seq<Obj>, b: seq<Obj>, id: Value, x: Obj)
    ensures ReplaceById(a + b, id, x) == ReplaceById(a, id, x) + ReplaceById(b, id, x)
  {
    var l, r := ReplaceById(a + b, id, x), ReplaceById(a, id, x) + ReplaceById(b, id, x);
    forall j | 0 <= j < |l| ensures l[j] == r[j] {
      if j < |a| {
        assert (a + b)[j] == a[j];
      } else {
        assert (a + b)[j] == b[j - |a|];
      }
    }
  }

  /** Splits a selection around position `i`. */
  lemma SplitSelection(s: seq<Obj>, i: int, x: Obj, p: Obj -> bool)
    requires 0 <= i < |s|
    ensures Filter(s, p) == Filter(s[..i], p) + Filter([s[i]], p) + Filter(s[i + 1..], p)
    ensures Filter(s[i := x], p) == Filter(s[..i], p) + Filter([x], p) + Filter(s[i + 1..], p)
  {
    var a, b := s[..i], s[i + 1..];
    assert s == a + [s[i]] + b;
    assert s[i := x] == a + [x] + b;
    FilterConcat(a + [s[i]], b, p);
    FilterConcat(a, [s[i]], p);
    FilterConcat(a + [x], b, p);
    FilterConcat(a, [x], p);
  }

  /** Replacing the records with an id by `x` on a selection is the selection of the
      table in which the record with that id became `x`, provided `x` passes
      the selection exactly when the old record did. */
  lemma ReplaceInSelection(s: seq<Obj>, i: int, x: Obj, p: Obj -> bool, id: Value)
    requires UniqueIds(s) && 0 <= i < |s| && HasId(s[i], id)
    requires p(x) == p(s[i])
    ensures ReplaceById(Filter(s, p), id, x) == Filter(s[i := x], p)
  {
    var a, b := s[..i], s[i + 1..];
    SplitSelection(s, i, x, p);
    UniqueSplit(s, i, id);
    FilterNoId(a, p, id);
    FilterNoId(b, p, id);
    ReplaceByIdConcat(Filter(a, p) + Filter([s[i]], p), Filter(b, p), id, x);
    ReplaceByIdConcat(Filter(a, p), Filter([s[i]], p), id, x);
    assert ReplaceById(Filter(a, p), id, x) == Filter(a, p);
    assert ReplaceById(Filter(b, p), id, x) == Filter(b, p);
    assert ReplaceById(Filter([s[i]], p), id, x) == Filter([x], p);
  }

  /** Removing an id held only by the records in the middle leaves the two ends. */
  lemma RemoveIdBetween(a: seq<Obj>, m: seq<Obj>, b: seq<Obj>, id: Value)
    requires NoId(a, id) && NoId(b, id)
    requires forall j | 0 <= j < |m| :: HasId(m[j], id)
    ensures RemoveById(a + m + b, id) == a + b
  {
    var q := t => !HasId(t, id);
    FilterAll(a, q);
    FilterAll(b, q);
    FilterNone(m, q);
    assert Filter(a, q) == a;
    assert Filter(m, q) == [];
    assert Filter(b, q) == b;
    FilterConcat(a, m, q);
    assert Filter(a + m, q) == a;
    FilterConcat(a + m, b, q);
    assert Filter(a + m + b, q) == a + b;
  }

  /** Filtering a sequence with one element singled out, piece by piece. */
  lemma FilterSplit3(a: seq<Obj>, x: Obj, b: seq<Obj>, p: Obj -> bool)
    ensures Filter(a + [x] + b, p) == Filter(a, p) + Filter([x], p) + Filter(b, p)
  {
    FilterConcat(a, [x], p);
    FilterConcat(a + [x], b, p);
  }

  /** A selection splits around position `i`. */
  lemma FilterAround(s: seq<Obj>, i: int, p: Obj -> bool)
    requires 0 <= i < |s|
    ensures Filter(s, p) == Filter(s[..i], p) + Filter([s[i]], p) + Filter(s[i + 1..], p)
  {
    var a, b := s[..i], s[i + 1..];
    assert s == a + [s[i]] + b;
    FilterSplit3(a, s[i], b, p);
  }

  /** The selection of the table without position `i` is the selection of
      what lies on either side of it. */
  lemma FilterWithout(s: seq<Obj>, i: int, p: Obj -> bool)
    requires 0 <= i < |s|
    ensures Filter(RemoveAt(s, i), p) == Filter(s[..i], p) + Filter(s[i + 1..], p)
  {
    FilterConcat(s[..i], s[i + 1..], p);
  }

  /** Dropping the id from a selection is the selection of the table from which
      the record with that id was deleted. */
  lemma DeleteFromSelection(s: seq<Obj>, i: int, p: Obj -> bool, id: Value)
    requires UniqueIds(s) && 0 <= i < |s| && HasId(s[i], id)
    ensures RemoveById(Filter(s, p), id) == Filter(RemoveAt(s, i), p)
  {
    FilterAround(s, i, p);
    FilterWithout(s, i, p);
    UniqueSplit(s, i, id);
    FilterNoId(s[..i], p, id);
    FilterNoId(s[i + 1..], p, id);
    var fm := Filter([s[i]], p);
    forall j | 0 <= j < |fm| ensures HasId(fm[j], id) {
      assert fm[j] in [s[i]];
    }
    RemoveIdBetween(Filter(s[..i], p), fm, Filter(s[i + 1..], p), id);
  }

  /** Dropping the id from a selection is the selection of the table in which
      the record with that id became `x`, when `x` fails the selection. */
  lemma LeaveSelection(s: seq<Obj>, i: int, x: Obj, p: Obj -> bool, id: Value)
    requires UniqueIds(s) && 0 <= i < |s| && HasId(s[i], id)
    requires !p(x)
    ensures RemoveById(Filter(s, p), id) == Filter(s[i := x], p)
  {
    DeleteFromSelection(s, i, p, id);
    ReplacedByFailing(s, i, x, p);
  }

  /** A record replaced by one that fails the selection might as well have been deleted. */
  lemma ReplacedByFailing(s: seq<Obj>, i: int, x: Obj, p: Obj -> bool)
    requires 0 <= i < |s| && !p(x)
    ensures Filter(s[i := x], p) == Filter(RemoveAt(s, i), p)
  {
    var a, b := s[..i], s[i + 1..];
    assert s[i := x] == a + [x] + b;
    assert RemoveAt(s, i) == a + b;
    FilterNone([x], p);
    FilterConcat(a, [x], p);
    FilterConcat(a + [x], b, p);
    FilterConcat(a, b, p);
  }

  /** A record that passes the selection and is appended to the table is
      appended to the selection. */
  lemma AppendToSelection(s: seq<Obj>, x: Obj, p: Obj -> bool)
    requires p(x)
    ensures Filter(s, p) + [x] == Filter(s + [x], p)
  {
    FilterConcat(s, [x], p);
  }

  /** On the whole table, replacing by id is replacing the one record with that id. */
  lemma ReplaceInTable(s: seq<Obj>, i: int, x: Obj, id: Value)
    requires UniqueIds(s) && 0 <= i < |s| && HasId(s[i], id)
    ensures ReplaceById(s, id, x) == s[i := x]
  {
    var r := ReplaceById(s, id, x);
    forall j | 0 <= j < |s| ensures r[j] == s[i := x][j] {
      if j != i {
        assert Get(s[i], "id") != Get(s[j], "id");
      }
    }
  }

  /** An update that keeps the category's id, patched into freshly counted
      categories while keeping the displayed count, gives what counting afresh
      over the updated category table gives. */
  lemma UpdateKeepsCounts(table: seq<Obj>, tasks: seq<Obj>, i: int, updates: Obj)
    requires UniqueIds(table) && 0 <= i < |table|
    requires Get(Spread(table[i], updates), "id") == Get(table[i], "id")
    ensures var updated := Spread(table[i], updates);
            ReplaceKeepingCount(WithTaskCounts(table, tasks), updated)
              == WithTaskCounts(table[i := updated], tasks)
  {
    var updated := Spread(table[i], updates);
    var l, r := ReplaceKeepingCount(WithTaskCounts(table, tasks), updated), WithTaskCounts(table[i := updated], tasks);
    FilterCongruent(tasks, t => CountsToward(t, table[i]), t => CountsToward(t, updated));
    forall j | 0 <= j < |table| ensures l[j] == r[j] {
      UpdateKeepsCountAt(table, tasks, i, updated, j);
    }
  }

  /** One position of `UpdateKeepsCounts`. */
  lemma UpdateKeepsCountAt(table: seq<Obj>, tasks: seq<Obj>, i: int, updated: Obj, j: int)
    requires UniqueIds(table) && 0 <= i < |table| && 0 <= j < |table|
    requires Get(updated, "id") == Get(table[i], "id")
    requires TaskCount(updated, tasks) == TaskCount(table[i], tasks)
    ensures ReplaceKeepingCount(WithTaskCounts(table, tasks), updated)[j]
              == WithTaskCounts(table[i := updated], tasks)[j]
  {
    var page := WithTaskCounts(table, tasks);
    assert Get(page[j], "id") == Get(table[j], "id");
    if j != i {
      assert Get(table[i], "id") != Get(table[j], "id") by {
        if i < j {} else {}
      }
    }
  }

  /** Counting distributes over concatenation of the category table. */
  lemma {:induction false} WithTaskCountsConcat(a: seq<Obj>, b: seq<Obj>, tasks: seq<Obj>)
    ensures WithTaskCounts(a + b, tasks) == WithTaskCounts(a, tasks) + WithTaskCounts(b, tasks)
  {
    if a == [] {
      assert a + b == b;
    } else {
      assert (a + b)[0] == a[0] && (a + b)[1..] == a[1..] + b;
      WithTaskCountsConcat(a[1..], b, tasks);
    }
  }

  /** Counting keeps every category's id. */
  lemma CountedNoId(s: seq<Obj>, tasks: seq<Obj>, id: Value)
    requires NoId(s, id)
    ensures NoId(WithTaskCounts(s, tasks), id)
  {
    var r := WithTaskCounts(s, tasks);
    forall j | 0 <= j < |r| ensures !HasId(r[j], id) {
      assert Get(r[j], "id") == Get(s[j], "id");
    }
  }

  /** Deleting a category from freshly counted categories gives what counting
      afresh over the table without it gives. */
  lemma DeleteKeepsCounts(table: seq<Obj>, tasks: seq<Obj>, i: int, id: Value)
    requires UniqueIds(table) && 0 <= i < |table| && HasId(table[i], id)
    ensures RemoveById(WithTaskCounts(table, tasks), id) == WithTaskCounts(RemoveAt(table, i), tasks)
  {
    var a, b := table[..i], table[i + 1..];
    assert table == a + [table[i]] + b;
    assert RemoveAt(table, i) == a + b;
    WithTaskCountsConcat(a + [table[i]], b, tasks);
    WithTaskCountsConcat(a, [table[i]], tasks);
    WithTaskCountsConcat(a, b, tasks);
    UniqueSplit(table, i, id);
    CountedNoId(a, tasks, id);
    CountedNoId(b, tasks, id);
    var m := WithTaskCounts([table[i]], tasks);
    assert HasId(m[0], id);
    RemoveIdBetween(WithTaskCounts(a, tasks), m, WithTaskCounts(b, tasks), id);
  }

  /** No task is filed under the category id, archived or not. */
  predicate Unreferenced(tasks: seq<Obj>, id: Value)
  {
    forall j | 0 <= j < |tasks| :: Get(tasks[j], "categoryId") != id
  }

  /** A new category with a zero count, appended to freshly counted categories,
      gives what counting afresh gives, provided no non-archived task already
      references its id. */
  lemma CreateKeepsCounts(table: seq<Obj>, tasks: seq<Obj>, c: Obj)
    requires Get(c, "taskCount") == Num(0)
    requires forall j | 0 <= j < |tasks| :: !CountsToward(tasks[j], c)
    ensures WithTaskCounts(table, tasks) + [c] == WithTaskCounts(table + [c], tasks)
  {
    TaskCountPositive(c, tasks);
    assert "taskCount" in c;
    assert c["taskCount" := Num(0)] == c;
    var l, r := WithTaskCounts(table, tasks) + [c], WithTaskCounts(table + [c], tasks);
    forall j | 0 <= j < |l| ensures l[j] == r[j] {
      assert (table + [c])[j] == if j < |table| then table[j] else c;
    }
  }
}
