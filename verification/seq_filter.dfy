/**
 * Kotlin's `List.filter`: the order-preserving sub-list of the elements that
 * satisfy a predicate. Used for the accessibility-service allow-list and for
 * the application-list filters.
 */
module SeqFilter {

  /** `a` can be obtained from `b` by deleting elements, keeping the order. */
  predicate IsSubsequence<T(==)>(a: seq<T>, b: seq<T>)
    decreases |b|
  {
    if |a| == 0 then true
    else if |b| == 0 then false
    else if a[0] == b[0] then IsSubsequence(a[1..], b[1..])
    else IsSubsequence(a, b[1..])
  }

  function Filter<T(==)>(s: seq<T>, keep: T -> bool): (r: seq<T>)
    ensures |r| <= |s|
    ensures forall x | x in r :: x in s && keep(x)
    ensures forall i | 0 <= i < |s| && keep(s[i]) :: s[i] in r
    ensures IsSubsequence(r, s)
    ensures forall x | x in multiset(r) :: multiset(r)[x] == (if keep(x) then multiset(s)[x] else 0)
  {
    if |s| == 0 then []
    else if keep(s[0]) then
      assert s == [s[0]] + s[1..];
      [s[0]] + Filter(s[1..], keep)
    else
      assert s == [s[0]] + s[1..];
      Filter(s[1..], keep)
  }

  /** Number of elements of `s` that satisfy `keep`. */
  function Count<T>(s: seq<T>, keep: T -> bool): nat
  {
    if |s| == 0 then 0
    else (if keep(s[0]) then 1 else 0) + Count(s[1..], keep)
  }

  /** The filtered list holds exactly the satisfying elements, counted with multiplicity. */
  lemma {:induction false} FilterLength<T>(s: seq<T>, keep: T -> bool)
    ensures |Filter(s, keep)| == Count(s, keep)
  {
    if |s| > 0 {
      FilterLength(s[1..], keep);
    }
  }

  /**
   * Filtering by a predicate and by its negation splits the list: the two
   * results together are a permutation of it, and their lengths add up.
   */
  lemma {:induction false} FilterPartition<T>(s: seq<T>, keep: T -> bool, drop: T -> bool)
    requires forall x :: drop(x) == !keep(x)
    ensures |Filter(s, keep)| + |Filter(s, drop)| == |s|
    ensures multiset(Filter(s, keep)) + multiset(Filter(s, drop)) == multiset(s)
  {
    if |s| > 0 {
      FilterPartition(s[1..], keep, drop);
      assert s == [s[0]] + s[1..];
    }
  }

  /** A predicate that holds everywhere keeps the list unchanged. */
  lemma {:induction false} FilterAll<T>(s: seq<T>, keep: T -> bool)
    requires forall i | 0 <= i < |s| :: keep(s[i])
    ensures Filter(s, keep) == s
  {
    if |s| > 0 {
      FilterAll(s[1..], keep);
      assert s == [s[0]] + s[1..];
    }
  }

  /** Kotlin's `map`: the image of every element, in order. */
  function Map<T, U>(s: seq<T>, f: T -> U): (r: seq<U>)
    ensures |r| == |s|
    ensures forall i | 0 <= i < |s| :: r[i] == f(s[i])
  {
    seq(|s|, i requires 0 <= i < |s| => f(s[i]))
  }

  lemma MapCons<T, U>(x: T, t: seq<T>, f: T -> U)
    ensures Map([x] + t, f) == [f(x)] + Map(t, f)
  {
    var a := Map([x] + t, f);
    var b := [f(x)] + Map(t, f);
    assert |a| == |b|;
    forall i | 0 <= i < |a|
      ensures a[i] == b[i]
    {
      if i > 0 {
        assert ([x] + t)[i] == t[i - 1];
      }
    }
  }

  /**
   * Kotlin's `filter { keep }.map { f }`: the images of the satisfying
   * elements, in order.
   */
  function FilterMap<T, U(==)>(s: seq<T>, keep: T -> bool, f: T -> U): (r: seq<U>)
    ensures |r| == Count(s, keep)
    ensures IsSubsequence(r, Map(s, f))
    ensures forall y | y in r :: exists i :: 0 <= i < |s| && keep(s[i]) && f(s[i]) == y
    ensures forall i | 0 <= i < |s| && keep(s[i]) :: f(s[i]) in r
    ensures r == Map(Filter(s, keep), f)
  {
    if |s| == 0 then []
    else
      var rest := FilterMap(s[1..], keep, f);
      assert Map(s, f)[1..] == Map(s[1..], f);
      assert forall i | 0 < i < |s| :: s[i] == s[1..][i - 1];
      if keep(s[0]) then
        MapCons(s[0], Filter(s[1..], keep), f);
        [f(s[0])] + rest
      else
        SubsequenceOfTail(rest, Map(s, f));
        rest
  }

  /** Every sequence is a subsequence of itself. */
  lemma {:induction false} SubsequenceReflexive<T>(s: seq<T>)
    ensures IsSubsequence(s, s)
  {
    if |s| > 0 {
      SubsequenceReflexive(s[1..]);
    }
  }

  /** Dropping the first element of `a` keeps it a subsequence of `b`. */
  lemma {:induction false} SubsequenceDropFirst<T>(a: seq<T>, b: seq<T>)
    requires |a| > 0 && IsSubsequence(a, b)
    ensures IsSubsequence(a[1..], b)
    decreases |b|, 1
  {
    if a[0] == b[0] {
      SubsequenceOfTail(a[1..], b);
    } else {
      SubsequenceDropFirst(a, b[1..]);
      SubsequenceOfTail(a[1..], b);
    }
  }

  /** A subsequence of the tail of `b` is a subsequence of `b`. */
  lemma {:induction false} SubsequenceOfTail<T>(a: seq<T>, b: seq<T>)
    requires |b| > 0 && IsSubsequence(a, b[1..])
    ensures IsSubsequence(a, b)
    decreases |b|, 0
  {
    if |a| > 0 && a[0] == b[0] {
      SubsequenceDropFirst(a, b[1..]);
    }
  }

  /** Filtering commutes with a map that never changes whether an element is kept. */
  lemma {:induction false} FilterMapCommute<T>(s: seq<T>, keep: T -> bool, g: T -> T)
    requires forall x :: keep(g(x)) == keep(x)
    ensures Filter(Map(s, g), keep) == Map(Filter(s, keep), g)
  {
    if |s| > 0 {
      FilterMapCommute(s[1..], keep, g);
      assert s == [s[0]] + s[1..];
      MapCons(s[0], s[1..], g);
      if keep(s[0]) {
        MapCons(s[0], Filter(s[1..], keep), g);
      }
    }
  }
}
