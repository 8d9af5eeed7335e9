/** The records the core passes around are plain JavaScript objects. They are
    modelled as finite maps from field name to a primitive value; a field that
    is absent reads as `undefined`, and the object spread of `a` and then `b` is
    map union (the right operand wins on shared keys). */
module Records {

  datatype Option<T> = None | Some(value: T)

  /** A service call or handler step that either yields a value or throws. */
  datatype Result<T> = Ok(value: T) | Err(message: string)

  /** A JavaScript primitive as it occurs in a task or category field.
      `Instant(ms)` stands for an ISO-8601 timestamp string (what
      `new Date().toISOString()` returns), identified by the instant it
      denotes in milliseconds since the epoch. Numbers are integers. */
  datatype Value = Undefined | Null | Bool(b: bool) | Num(n: int) | Str(s: string) | Instant(ms: int)

  type Obj = map<string, Value>

  /** What a page's `loadData` receives from its two parallel `getAll` calls. */
  datatype Snapshot = Snapshot(tasks: seq<Obj>, categories: seq<Obj>)

  /** An error's message when it is non-empty, else the fallback text. */
  function MessageOr(message: string, fallback: string): (r: string)
    ensures r != "" <== fallback != ""
    ensures message != "" ==> r == message
    ensures message == "" ==> r == fallback
  {
    if message != "" then message else fallback
  }

  /** `o[key]`: an absent field reads as `undefined`. */
  function Get(o: Obj, key: string): Value
  {
    if key in o then o[key] else Undefined
  }

  /** JavaScript truthiness. A timestamp string is never empty, so it is truthy. */
  predicate Truthy(v: Value)
  {
    match v
    case Undefined => false
    case Null => false
    case Bool(b) => b
    case Num(n) => n != 0
    case Str(s) => s != ""
    case Instant(_) => true
  }

  /** The greater-than-zero test for the values a count field holds (a string is not coerced). */
  predicate Positive(v: Value)
  {
    match v
    case Num(n) => n > 0
    case Bool(b) => b
    case _ => false
  }

  /** The object spread of `base` and then `over`: the keys of both, with `over` winning. */
  function Spread(base: Obj, over: Obj): (r: Obj)
    ensures r.Keys == base.Keys + over.Keys
    ensures forall k :: Get(r, k) == if k in over then over[k] else Get(base, k)
  {
    base + over
  }

  /** The record's id is strictly equal to `id`. */
  predicate HasId(o: Obj, id: Value)
  {
    Get(o, "id") == id
  }

  /** Array `findIndex` by id: the first index whose record has the id, or -1. */
  function FindIndex(s: seq<Obj>, id: Value): (i: int)
    ensures -1 <= i < |s|
    ensures 0 <= i ==> HasId(s[i], id) && forall j | 0 <= j < i :: !HasId(s[j], id)
    ensures i == -1 <==> forall j | 0 <= j < |s| :: !HasId(s[j], id)
  {
    if s == [] then -1
    else if HasId(s[0], id) then 0
    else
      var k := FindIndex(s[1..], id);
      if k == -1 then -1 else k + 1
  }

  /** Array `find` by id: the first record with the id, if any. */
  function Find(s: seq<Obj>, id: Value): (r: Option<Obj>)
    ensures r.None? <==> forall j | 0 <= j < |s| :: !HasId(s[j], id)
    ensures r.Some? ==> exists i | 0 <= i < |s| :: s[i] == r.value && HasId(s[i], id)
                                                && forall j | 0 <= j < i :: !HasId(s[j], id)
  {
    var i := FindIndex(s, id);
    if i == -1 then None else Some(s[i])
  }

  /** No two records share an id: what the id generators aim for. */
  predicate UniqueIds(s: seq<Obj>)
  {
    forall i, j | 0 <= i < j < |s| :: Get(s[i], "id") != Get(s[j], "id")
  }

  /** `s.splice(i, 1)` on a copy: the record at `i` leaves, the others keep their order. */
  function RemoveAt(s: seq<Obj>, i: nat): (r: seq<Obj>)
    requires i < |s|
    ensures |r| == |s| - 1
    ensures forall j | 0 <= j < i :: r[j] == s[j]
    ensures forall j | i <= j < |r| :: r[j] == s[j + 1]
    ensures multiset(r) == multiset(s) - multiset{s[i]}
  {
    assert s == s[..i] + [s[i]] + s[i + 1..];
    s[..i] + s[i + 1..]
  }
}
