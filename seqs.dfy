/** Order-preserving selection over sequences: the `Array.prototype.filter`
    calls the core is built from, and a declarative statement of what such a
    call returns. */
module Seqs {

  /** `r` is obtained from `s` by deleting elements; the order of the rest is kept.
      Greedy matching: the head of `r` is matched with the first equal element. */
  ghost predicate SubseqOf<T>(r: seq<T>, s: seq<T>)
    decreases |s|
  {
    if r == [] then true
    else if s == [] then false
    else if r[0] == s[0] then SubseqOf(r[1..], s[1..])
    else SubseqOf(r, s[1..])
  }

  /** `r` is exactly the elements of `s` that satisfy `p`: in the order of `s`,
      nothing else, and each with the multiplicity it has in `s`. */
  ghost predicate Selects<T>(r: seq<T>, s: seq<T>, p: T -> bool)
  {
    && SubseqOf(r, s)
    && (forall i | 0 <= i < |r| :: p(r[i]))
    && (forall x | x in s && p(x) :: multiset(r)[x] == multiset(s)[x])
  }

  /** `s.filter(p)`. */
  function Filter<T>(s: seq<T>, p: T -> bool): (r: seq<T>)
    ensures |r| <= |s|
    ensures forall x | x in r :: x in s && p(x)
    ensures forall x {:trigger x in r} | x in s && p(x) :: x in r
  {
    if s == [] then []
    else if p(s[0]) then [s[0]] + Filter(s[1..], p)
    else Filter(s[1..], p)
  }

  /** A subsequence never holds an element more often than the sequence it comes from. */
  lemma {:induction false} SubseqOfMultiset<T>(r: seq<T>, s: seq<T>)
    requires SubseqOf(r, s)
    ensures multiset(r) <= multiset(s)
    decreases |s|
  {
    if r != [] {
      assert s == [s[0]] + s[1..];
      if r[0] == s[0] {
        SubseqOfMultiset(r[1..], s[1..]);
        assert r == [r[0]] + r[1..];
      } else {
        SubseqOfMultiset(r, s[1..]);
      }
    }
  }

  /** `Filter` keeps every element satisfying `p` as often as `s` holds it, and no other. */
  lemma {:induction false} FilterMultiset<T>(s: seq<T>, p: T -> bool, x: T)
    ensures multiset(Filter(s, p))[x] == if p(x) then multiset(s)[x] else 0
  {
    if s != [] {
      FilterMultiset(s[1..], p, x);
      assert s == [s[0]] + s[1..];
      assert multiset(s)[x] == multiset([s[0]])[x] + multiset(s[1..])[x];
      if p(s[0]) {
        var r := Filter(s, p);
        assert r == [s[0]] + Filter(s[1..], p);
        assert multiset(r)[x] == multiset([s[0]])[x] + multiset(Filter(s[1..], p))[x];
      }
    }
  }

  /** `Filter` keeps the order of what it keeps. */
  lemma {:induction false} FilterSubseq<T>(s: seq<T>, p: T -> bool)
    ensures SubseqOf(Filter(s, p), s)
  {
    if s != [] {
      FilterSubseq(s[1..], p);
      var rest := Filter(s[1..], p);
      if p(s[0]) {
        assert Filter(s, p) == [s[0]] + rest;
        assert Filter(s, p)[1..] == rest;
      } else {
        assert rest != [] ==> p(rest[0]) && rest[0] != s[0];
      }
    }
  }

  /** `Filter` returns what `Selects` describes. */
  lemma FilterSelects<T>(s: seq<T>, p: T -> bool)
    ensures Selects(Filter(s, p), s, p)
  {
    FilterSubseq(s, p);
    forall x | x in s && p(x) ensures multiset(Filter(s, p))[x] == multiset(s)[x] {
      FilterMultiset(s, p, x);
    }
  }

  /** ... and nothing else does: `Selects` determines its result uniquely. */
  lemma {:induction false} SelectsUnique<T>(r: seq<T>, s: seq<T>, p: T -> bool)
    requires Selects(r, s, p)
    ensures r == Filter(s, p)
    decreases |s|
  {
    if s != [] {
      var a, t := s[0], s[1..];
      assert s == [a] + t;
      if r != [] && r[0] == a {
        assert r == [a] + r[1..];
        assert p(a);
        forall x | x in t && p(x) ensures multiset(r[1..])[x] == multiset(t)[x] {
          assert x in s;
          assert multiset(r)[x] == multiset([a])[x] + multiset(r[1..])[x];
          assert multiset(s)[x] == multiset([a])[x] + multiset(t)[x];
        }
        SelectsUnique(r[1..], t, p);
      } else {
        assert SubseqOf(r, t);
        if p(a) {
          SubseqOfMultiset(r, t);
          assert false;
        }
        forall x | x in t && p(x) ensures multiset(r)[x] == multiset(t)[x] {
          assert x in s;
          assert multiset(s)[x] == multiset([a])[x] + multiset(t)[x];
        }
        SelectsUnique(r, t, p);
      }
    }
  }

  /** Filtering twice is filtering once by the conjunction. */
  lemma {:induction false} FilterFilter<T>(s: seq<T>, p: T -> bool, q: T -> bool, pq: T -> bool)
    requires forall x :: pq(x) == (p(x) && q(x))
    ensures Filter(Filter(s, p), q) == Filter(s, pq)
  {
    if s != [] {
      FilterFilter(s[1..], p, q, pq);
    }
  }

  /** Filters by pointwise-equal predicates agree. */
  lemma {:induction false} FilterCongruent<T>(s: seq<T>, p: T -> bool, q: T -> bool)
    requires forall x :: p(x) == q(x)
    ensures Filter(s, p) == Filter(s, q)
  {
    if s != [] {
      FilterCongruent(s[1..], p, q);
    }
  }

  /** A filter that every element passes returns its input. */
  lemma {:induction false} FilterAll<T>(s: seq<T>, p: T -> bool)
    requires forall j | 0 <= j < |s| :: p(s[j])
    ensures Filter(s, p) == s
  {
    if s != [] {
      assert p(s[0]);
      FilterAll(s[1..], p);
    }
  }

  /** A filter that no element passes returns nothing. */
  lemma {:induction false} FilterNone<T>(s: seq<T>, p: T -> bool)
    requires forall j | 0 <= j < |s| :: !p(s[j])
    ensures Filter(s, p) == []
  {
    if s != [] {
      assert !p(s[0]);
      FilterNone(s[1..], p);
    }
  }

  /** Filtering distributes over concatenation. */
  lemma {:induction false} FilterConcat<T>(a: seq<T>, b: seq<T>, p: T -> bool)
    ensures Filter(a + b, p) == Filter(a, p) + Filter(b, p)
  {
    if a != [] {
      var head := if p(a[0]) then [a[0]] else [];
      assert a + b != [] && (a + b)[0] == a[0] && (a + b)[1..] == a[1..] + b;
      assert Filter(a + b, p) == head + Filter(a[1..] + b, p);
      assert Filter(a, p) == head + Filter(a[1..], p);
      FilterConcat(a[1..], b, p);
    } else {
      assert a + b == b;
    }
  }

  /** How many elements a filter keeps depends only on the multiset of the input,
      not on its order. */
  lemma FilterCountIsOrderFree<T(!new)>(s1: seq<T>, s2: seq<T>, p: T -> bool)
    requires multiset(s1) == multiset(s2)
    ensures |Filter(s1, p)| == |Filter(s2, p)|
  {
    var f1, f2 := Filter(s1, p), Filter(s2, p);
    forall x ensures multiset(f1)[x] == multiset(f2)[x] {
      FilterMultiset(s1, p, x);
      FilterMultiset(s2, p, x);
    }
    assert multiset(f1) == multiset(f2);
  }
}
