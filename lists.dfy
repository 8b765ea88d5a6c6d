/**
 * The array operations the site's pipelines are built from: `filter` and a stable
 * `sort` driven by a comparator (`Array.prototype.sort` is stable). A comparator
 * `(a, b) => number` is represented by `before(a, b)`, which holds when the
 * comparator's value is `<= 0`, so that `a` may stay in front of `b`.
 */
module Lists {

  /** `s.filter(p)`. */
  function Filter<T(!new)>(s: seq<T>, p: T -> bool): (r: seq<T>)
    ensures |r| <= |s|
    ensures forall i :: 0 <= i < |r| ==> p(r[i])
    ensures forall x :: x in r <==> x in s && p(x)
    ensures multiset(r) <= multiset(s)
  {
    if s == [] then []
    else
      var rest := Filter(s[..|s| - 1], p);
      assert s == s[..|s| - 1] + [s[|s| - 1]];
      if p(s[|s| - 1]) then rest + [s[|s| - 1]] else rest
  }

  /** `s.map(f)`. */
  function Map<T, U>(s: seq<T>, f: T -> U): (r: seq<U>)
    ensures |r| == |s| && forall i :: 0 <= i < |s| ==> r[i] == f(s[i])
  {
    seq(|s|, i requires 0 <= i < |s| => f(s[i]))
  }

  lemma {:induction false} MapSnoc<T, U>(s: seq<T>, x: T, f: T -> U)
    ensures Map(s + [x], f) == Map(s, f) + [f(x)]
  {
    var a := Map(s + [x], f);
    var b := Map(s, f) + [f(x)];
    forall k | 0 <= k < |a| ensures a[k] == b[k] {
      if k < |s| {
        assert (s + [x])[k] == s[k];
      }
    }
  }

  lemma {:induction false} MapCompose<T, U, V>(s: seq<T>, f: T -> U, g: U -> V, h: T -> V)
    requires forall x :: h(x) == g(f(x))
    ensures Map(s, h) == Map(Map(s, f), g)
  {
  }

  lemma {:induction false} MapCons<T, U>(x: T, s: seq<T>, f: T -> U)
    ensures Map([x] + s, f) == [f(x)] + Map(s, f)
  {
    var a := Map([x] + s, f);
    var b := [f(x)] + Map(s, f);
    forall k | 0 <= k < |a| ensures a[k] == b[k] {
      if k > 0 {
        assert ([x] + s)[k] == s[k - 1];
      }
    }
  }

  lemma {:induction false} TakeSnoc<T>(s: seq<T>, i: nat)
    requires i < |s|
    ensures s[..i + 1] == s[..i] + [s[i]]
  {
  }

  lemma {:induction false} DropSnoc<T>(s: seq<T>, x: T)
    requires |s| >= 1
    ensures (s + [x])[1..] == s[1..] + [x]
  {
  }

  lemma {:induction false} FilterAppend<T(!new)>(a: seq<T>, b: seq<T>, p: T -> bool)
    ensures Filter(a + b, p) == Filter(a, p) + Filter(b, p)
  {
    if b == [] {
      assert a + b == a;
    } else {
      var b' := b[..|b| - 1];
      var x := b[|b| - 1];
      assert (a + b)[..|a + b| - 1] == a + b';
      assert (a + b)[|a + b| - 1] == x;
      FilterAppend(a, b', p);
      if p(x) {
        assert Filter(a + b, p) == Filter(a + b', p) + [x];
        assert Filter(b, p) == Filter(b', p) + [x];
      } else {
        assert Filter(a + b, p) == Filter(a + b', p);
        assert Filter(b, p) == Filter(b', p);
      }
    }
  }

  /** Filtering a sequence every element of which passes keeps it whole. */
  lemma {:induction false} FilterAll<T(!new)>(s: seq<T>, p: T -> bool)
    requires forall i :: 0 <= i < |s| ==> p(s[i])
    ensures Filter(s, p) == s
  {
    if s != [] {
      FilterAll(s[..|s| - 1], p);
      assert s == s[..|s| - 1] + [s[|s| - 1]];
    }
  }

  /** Filtering with a stronger predicate after a weaker one is filtering with the stronger
      one alone. */
  lemma {:induction false} FilterNarrow<T(!new)>(s: seq<T>, p: T -> bool, q: T -> bool)
    requires forall x :: q(x) ==> p(x)
    ensures Filter(Filter(s, p), q) == Filter(s, q)
    decreases |s|
  {
    if s != [] {
      var s' := s[..|s| - 1];
      var x := s[|s| - 1];
      FilterNarrow(s', p, q);
      if p(x) {
        FilterAppend(Filter(s', p), [x], q);
      }
    }
  }

  /** A weaker predicate keeps at least as many elements. */
  lemma {:induction false} FilterCountMonotone<T(!new)>(s: seq<T>, p: T -> bool, q: T -> bool)
    requires forall x :: p(x) ==> q(x)
    ensures |Filter(s, p)| <= |Filter(s, q)|
    decreases |s|
  {
    if s != [] {
      FilterCountMonotone(s[..|s| - 1], p, q);
    }
  }

  /** A comparator that orders every pair one way or the other, consistently. */
  ghost predicate TotalPreorder<T(!new)>(before: (T, T) -> bool) {
    && (forall a, b :: before(a, b) || before(b, a))
    && (forall a, b, c :: before(a, b) && before(b, c) ==> before(a, c))
  }

  ghost predicate SortedBy<T>(s: seq<T>, before: (T, T) -> bool) {
    forall i, j :: 0 <= i < j < |s| ==> before(s[i], s[j])
  }

  /** Insert `x` behind every element that may stay in front of it. */
  function Insert<T>(x: T, s: seq<T>, before: (T, T) -> bool): (r: seq<T>)
    ensures multiset(r) == multiset(s) + multiset{x}
    ensures |r| == |s| + 1
  {
    if s == [] then [x]
    else if !before(s[0], x) then [x] + s
    else
      assert s == [s[0]] + s[1..];
      [s[0]] + Insert(x, s[1..], before)
  }

  /** A stable sort: later elements are inserted behind earlier equal ones. */
  function SortBy<T>(s: seq<T>, before: (T, T) -> bool): (r: seq<T>)
    ensures multiset(r) == multiset(s)
    ensures |r| == |s|
  {
    if s == [] then []
    else
      assert s == s[..|s| - 1] + [s[|s| - 1]];
      Insert(s[|s| - 1], SortBy(s[..|s| - 1], before), before)
  }

  /** What `Insert` returns holds the inserted element and the original ones only. */
  lemma InsertMembers<T>(x: T, s: seq<T>, before: (T, T) -> bool)
    ensures forall y :: y in Insert(x, s, before) ==> y == x || y in s
  {
    var r := Insert(x, s, before);
    forall y | y in r
      ensures y == x || y in s
    {
      assert y in multiset(r);
    }
  }

  /** An element in front of every element of a sorted sequence may head it. */
  lemma {:induction false} ConsSorted<T>(a: T, rest: seq<T>, before: (T, T) -> bool)
    requires SortedBy(rest, before)
    requires forall y :: y in rest ==> before(a, y)
    ensures SortedBy([a] + rest, before)
  {
    var r := [a] + rest;
    forall i, j | 0 <= i < j < |r|
      ensures before(r[i], r[j])
    {
      assert r[j] == rest[j - 1];
      if i == 0 {
        assert r[j] in rest;
      } else {
        assert r[i] == rest[i - 1];
      }
    }
  }

  lemma {:induction false} InsertSorted<T(!new)>(x: T, s: seq<T>, before: (T, T) -> bool)
    requires TotalPreorder(before)
    requires SortedBy(s, before)
    ensures SortedBy(Insert(x, s, before), before)
  {
    if s != [] {
      if !before(s[0], x) {
        assert before(x, s[0]);
        assert forall y :: y in s ==> before(x, y) by {
          forall y | y in s
            ensures before(x, y)
          {
            var k :| 0 <= k < |s| && s[k] == y;
            if k > 0 {
              assert before(s[0], s[k]);
            }
          }
        }
        ConsSorted(x, s, before);
      } else {
        var tail := s[1..];
        assert SortedBy(tail, before);
        InsertSorted(x, tail, before);
        InsertMembers(x, tail, before);
        forall y | y in tail
          ensures before(s[0], y)
        {
          var k :| 0 <= k < |tail| && tail[k] == y;
          assert s[k + 1] == y;
        }
        ConsSorted(s[0], Insert(x, tail, before), before);
      }
    }
  }

  /** The result of `SortBy` is ordered by the comparator. */
  lemma {:induction false} SortBySorted<T(!new)>(s: seq<T>, before: (T, T) -> bool)
    requires TotalPreorder(before)
    ensures SortedBy(SortBy(s, before), before)
  {
    if s != [] {
      SortBySorted(s[..|s| - 1], before);
      InsertSorted(s[|s| - 1], SortBy(s[..|s| - 1], before), before);
    }
  }

  /** The result of `SortBy` holds exactly the input's elements. */
  lemma SortByMembers<T(!new)>(s: seq<T>, before: (T, T) -> bool)
    ensures forall x :: x in SortBy(s, before) <==> x in s
  {
    var r := SortBy(s, before);
    forall x ensures x in r <==> x in s {
      assert x in r <==> x in multiset(r);
      assert x in s <==> x in multiset(s);
    }
  }

  /** In a sequence without repeats every value occurs at most once. */
  lemma {:induction false} DistinctOnce<T>(s: seq<T>, x: T)
    requires forall i, j :: 0 <= i < j < |s| ==> s[i] != s[j]
    ensures multiset(s)[x] <= 1
  {
    if s != [] {
      var init, last := s[..|s| - 1], s[|s| - 1];
      forall i, j | 0 <= i < j < |init| ensures init[i] != init[j] {
        assert init[i] == s[i] && init[j] == s[j];
      }
      DistinctOnce(init, x);
      assert s == init + [last];
      if x == last {
        forall i | 0 <= i < |init| ensures init[i] != x {
          assert init[i] == s[i];
        }
        assert x !in init;
      }
    }
  }

  /** A value at two positions occurs at least twice. */
  lemma {:induction false} RepeatCounted<T>(s: seq<T>, i: nat, j: nat)
    requires i < j < |s|
    ensures s[i] == s[j] ==> multiset(s)[s[i]] >= 2
  {
    assert s == s[..i] + [s[i]] + s[i + 1..j] + [s[j]] + s[j + 1..];
  }

  /** A rearrangement of a sequence without repeats has no repeats. */
  lemma {:induction false} DistinctPermutation<T>(s: seq<T>, t: seq<T>)
    requires multiset(s) == multiset(t)
    requires forall i, j :: 0 <= i < j < |s| ==> s[i] != s[j]
    ensures forall i, j :: 0 <= i < j < |t| ==> t[i] != t[j]
  {
    forall i, j | 0 <= i < j < |t| ensures t[i] != t[j] {
      DistinctOnce(s, t[i]);
      RepeatCounted(t, i, j);
    }
  }
}
