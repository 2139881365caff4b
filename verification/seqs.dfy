/**
 * The list operations the application performs on query results and in-memory
 * arrays: filtering (a query's equality and range filters, `Array.filter`),
 * mapping (`Array.map`), filter-then-map (a `forEach` that pushes some of the
 * items it visits) and a lookup of the first matching row (a foreign-key join).
 */
module Seqs {
  import opened Wrappers

  /** The elements of `s` that satisfy `p`, in their original order. */
  function Filter<T(!new)>(s: seq<T>, p: T -> bool): (r: seq<T>)
    ensures |r| <= |s|
  {
    if s == [] then []
    else
      var init := Filter(s[..|s| - 1], p);
      assert s == s[..|s| - 1] + [s[|s| - 1]];
      if p(s[|s| - 1]) then init + [s[|s| - 1]] else init
  }

  /** `f` applied to every element of `s`. */
  function Map<T, U>(s: seq<T>, f: T -> U): (r: seq<U>)
    ensures |r| == |s|
    ensures forall i :: 0 <= i < |s| ==> r[i] == f(s[i])
  {
    seq(|s|, i requires 0 <= i < |s| => f(s[i]))
  }

  /**
   * The visit of `s` in order that keeps `f(x).value` for every `x` with
   * `f(x) != None`: a `forEach` whose body pushes at most one item.
   */
  function FilterMap<T(!new), U(!new)>(s: seq<T>, f: T -> Option<U>): (r: seq<U>)
    ensures |r| <= |s|
  {
    if s == [] then []
    else
      var init := FilterMap(s[..|s| - 1], f);
      assert s == s[..|s| - 1] + [s[|s| - 1]];
      match f(s[|s| - 1])
      case Some(y) => init + [y]
      case None => init
  }

  /** The elements a filter keeps are exactly those of `s` that pass the test. */
  lemma {:induction false} FilterMembers<T(!new)>(s: seq<T>, p: T -> bool)
    ensures forall x :: x in Filter(s, p) <==> x in s && p(x)
    decreases |s|
  {
    if s != [] {
      FilterMembers(s[..|s| - 1], p);
      assert s == s[..|s| - 1] + [s[|s| - 1]];
    }
  }

  /** A filter-map yields exactly the values `f` gives to elements of `s`. */
  lemma {:induction false} FilterMapMembers<T(!new), U(!new)>(s: seq<T>, f: T -> Option<U>)
    ensures forall y :: y in FilterMap(s, f) <==> exists x :: x in s && f(x) == Some(y)
    decreases |s|
  {
    if s != [] {
      FilterMapMembers(s[..|s| - 1], f);
      assert s == s[..|s| - 1] + [s[|s| - 1]];
    }
  }

  /** The first element of `s` that satisfies `p`, if any. */
  function FindFirst<T(!new)>(s: seq<T>, p: T -> bool): (r: Option<T>)
    ensures r.Some? ==> r.value in s && p(r.value)
    ensures r.None? <==> forall x :: x in s ==> !p(x)
  {
    if s == [] then None
    else if p(s[0]) then Some(s[0])
    else
      assert forall x :: x in s ==> x == s[0] || x in s[1..];
      FindFirst(s[1..], p)
  }

  lemma {:induction false} FilterConcat<T(!new)>(a: seq<T>, b: seq<T>, p: T -> bool)
    ensures Filter(a + b, p) == Filter(a, p) + Filter(b, p)
    decreases |b|
  {
    if b == [] {
      assert a + b == a;
    } else {
      var n := |b| - 1;
      assert (a + b)[..|a + b| - 1] == a + b[..n];
      FilterConcat(a, b[..n], p);
    }
  }

  lemma {:induction false} FilterMapConcat<T(!new), U(!new)>(a: seq<T>, b: seq<T>, f: T -> Option<U>)
    ensures FilterMap(a + b, f) == FilterMap(a, f) + FilterMap(b, f)
    decreases |b|
  {
    if b == [] {
      assert a + b == a;
    } else {
      var n := |b| - 1;
      assert (a + b)[..|a + b| - 1] == a + b[..n];
      FilterMapConcat(a, b[..n], f);
    }
  }

  /** Filtering twice by the same test is filtering once. */
  lemma {:induction false} FilterIdempotent<T(!new)>(s: seq<T>, p: T -> bool)
    ensures Filter(Filter(s, p), p) == Filter(s, p)
    decreases |s|
  {
    if s != [] {
      var n := |s| - 1;
      FilterIdempotent(s[..n], p);
      FilterMembers(s[..n], p);
      if p(s[n]) {
        FilterConcat(Filter(s[..n], p), [s[n]], p);
        assert Filter([s[n]], p) == [s[n]] by {
          assert [s[n]][..0] == [];
        }
      }
    }
  }

  /** A filter that every element passes leaves the sequence as it is. */
  lemma {:induction false} FilterKeepsAll<T(!new)>(s: seq<T>, p: T -> bool)
    requires forall x :: x in s ==> p(x)
    ensures Filter(s, p) == s
    decreases |s|
  {
    if s != [] {
      var n := |s| - 1;
      assert s == s[..n] + [s[n]];
      FilterKeepsAll(s[..n], p);
    }
  }

  /** A filter-map that yields a value for every element yields exactly one item per element. */
  lemma {:induction false} FilterMapTotal<T(!new), U(!new)>(s: seq<T>, f: T -> Option<U>)
    requires forall x :: x in s ==> f(x).Some?
    ensures |FilterMap(s, f)| == |s|
    decreases |s|
  {
    if s != [] {
      var n := |s| - 1;
      assert s[n] in s;
      assert forall x :: x in s[..n] ==> x in s;
      FilterMapTotal(s[..n], f);
    }
  }

  /** A filter-map yields one item for each element that the test `p` accepts. */
  lemma {:induction false} FilterMapLength<T(!new), U(!new)>(s: seq<T>, f: T -> Option<U>, p: T -> bool)
    requires forall x :: x in s ==> (f(x).Some? <==> p(x))
    ensures |FilterMap(s, f)| == |Filter(s, p)|
    decreases |s|
  {
    if s != [] {
      var n := |s| - 1;
      assert s[n] in s;
      assert forall x :: x in s[..n] ==> x in s;
      FilterMapLength(s[..n], f, p);
      assert |FilterMap(s, f)| == |FilterMap(s[..n], f)| + (if f(s[n]).Some? then 1 else 0);
      assert |Filter(s, p)| == |Filter(s[..n], p)| + (if p(s[n]) then 1 else 0);
    }
  }

  /** Filtering by two tests gives the same sequence in either order. */
  lemma {:induction false} FilterCommutes<T(!new)>(s: seq<T>, p: T -> bool, q: T -> bool)
    ensures Filter(Filter(s, p), q) == Filter(Filter(s, q), p)
    decreases |s|
  {
    if s != [] {
      var n := |s| - 1;
      var init, x := s[..n], s[n];
      FilterCommutes(init, p, q);
      FilterSingleton(x, p);
      FilterSingleton(x, q);
      FilterConcat(Filter(init, p), Filter([x], p), q);
      FilterConcat(Filter(init, q), Filter([x], q), p);
    }
  }

  /** A filter keeps every occurrence of an element that passes, and none of one that does not. */
  lemma {:induction false} FilterCount<T(!new)>(s: seq<T>, p: T -> bool)
    ensures forall x :: multiset(Filter(s, p))[x] == if p(x) then multiset(s)[x] else 0
    decreases |s|
  {
    if s != [] {
      var n := |s| - 1;
      FilterCount(s[..n], p);
      assert s == s[..n] + [s[n]];
      assert multiset(s) == multiset(s[..n]) + multiset{s[n]};
    }
  }

  /** Sequences with the same elements keep the same elements under a filter. */
  lemma FilterMultiset<T(!new)>(s: seq<T>, t: seq<T>, p: T -> bool)
    requires multiset(s) == multiset(t)
    ensures multiset(Filter(s, p)) == multiset(Filter(t, p))
  {
    FilterCount(s, p);
    FilterCount(t, p);
    forall x ensures multiset(Filter(s, p))[x] == multiset(Filter(t, p))[x] {
    }
  }

  lemma EmptyWithoutMembers<T>(s: seq<T>)
    ensures (forall x :: x !in s) ==> s == []
  {
    if s != [] {
      assert s[0] in s;
    }
  }

  lemma FilterSingleton<T(!new)>(x: T, p: T -> bool)
    ensures Filter([x], p) == if p(x) then [x] else []
  {
    assert [x][..0] == [];
  }

  lemma FilterMapSingleton<T(!new), U(!new)>(x: T, f: T -> Option<U>)
    ensures FilterMap([x], f) == if f(x).Some? then [f(x).value] else []
  {
    assert [x][..0] == [];
  }

  /** One more step of a filter-map loop. */
  lemma FilterMapStep<T(!new), U(!new)>(s: seq<T>, i: nat, f: T -> Option<U>)
    requires i < |s|
    ensures FilterMap(s[..i + 1], f) == FilterMap(s[..i], f) + (if f(s[i]).Some? then [f(s[i]).value] else [])
  {
    assert s[..i + 1][..i] == s[..i];
  }

  lemma MapConcat<T, U>(a: seq<T>, b: seq<T>, f: T -> U)
    ensures Map(a + b, f) == Map(a, f) + Map(b, f)
  {
  }
}
