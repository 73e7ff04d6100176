/** Helpers the annotation session is built from: `max` and `min` on
    integers, the order-preserving filter behind Python's list comprehensions
    with an `if`, and the sorted, duplicate-free list behind
    `sorted(set(...))`. */
module SeqUtil {

  function Max(a: int, b: int): int { if a < b then b else a }

  function Min(a: int, b: int): int { if a < b then a else b }

  /** The elements of `s` that satisfy `keep`, in their original order
      (`[x for x in s if keep(x)]`). */
  function Filter<T(!new)>(s: seq<T>, keep: T -> bool): (r: seq<T>)
    ensures |r| <= |s|
    ensures forall x :: x in r <==> x in s && keep(x)
    ensures (forall x :: x in s ==> keep(x)) ==> r == s
  {
    if s == [] then []
    else
      var rest := Filter(s[1..], keep);
      assert s == [s[0]] + s[1..];
      if keep(s[0]) then [s[0]] + rest else rest
  }

  /** An element that passes the test occurs in the result as often as in
      the input. */
  lemma {:induction false} FilterKeepsCount<T(!new)>(s: seq<T>, keep: T -> bool, x: T)
    requires keep(x)
    ensures multiset(Filter(s, keep))[x] == multiset(s)[x]
  {
    if s != [] {
      assert s == [s[0]] + s[1..];
      FilterKeepsCount(s[1..], keep, x);
    }
  }

  /** Filtering distributes over concatenation: what survives of an earlier
      part comes before what survives of a later part. */
  lemma {:induction false} FilterConcat<T(!new)>(s: seq<T>, t: seq<T>, keep: T -> bool)
    ensures Filter(s + t, keep) == Filter(s, keep) + Filter(t, keep)
  {
    if s == [] {
      assert s + t == t;
    } else {
      assert (s + t)[1..] == s[1..] + t;
      FilterConcat(s[1..], t, keep);
    }
  }

  /** Filtering a list in which only `x` fails the test removes just `x`. */
  lemma {:induction false} FilterRemovesOne<T(!new)>(pre: seq<T>, x: T, post: seq<T>, keep: T -> bool)
    requires forall y :: y in pre ==> keep(y)
    requires forall y :: y in post ==> keep(y)
    requires !keep(x)
    ensures Filter(pre + [x] + post, keep) == pre + post
  {
    var front := pre + [x];
    assert Filter([x], keep) == [] by {
      assert [x][1..] == [];
    }
    assert Filter(front, keep) == pre by {
      FilterConcat(pre, [x], keep);
    }
    FilterConcat(front, post, keep);
    assert pre + [x] + post == front + post;
  }

  predicate StrictlyIncreasing(s: seq<int>)
  {
    forall i, j :: 0 <= i < j < |s| ==> s[i] < s[j]
  }

  /** Adds `x` to a strictly increasing list, keeping it strictly increasing
      and free of duplicates. */
  function InsertSorted(x: int, s: seq<int>): (r: seq<int>)
    requires StrictlyIncreasing(s)
    ensures StrictlyIncreasing(r)
    ensures forall y :: y in r <==> y == x || y in s
  {
    if s == [] then [x]
    else if x < s[0] then [x] + s
    else if x == s[0] then s
    else
      var rest := InsertSorted(x, s[1..]);
      forall j | 0 <= j < |rest| ensures s[0] < rest[j] {
        assert rest[j] in rest;
        if rest[j] != x {
          var k :| 1 <= k < |s| && s[k] == rest[j];
        }
      }
      [s[0]] + rest
  }

  /** `sorted(set(xs))`: the distinct values of `xs` in increasing order. */
  function SortedDistinct(xs: seq<int>): (r: seq<int>)
    ensures StrictlyIncreasing(r)
    ensures forall y :: y in r <==> y in xs
  {
    if xs == [] then []
    else
      var init := xs[..|xs| - 1];
      assert xs == init + [xs[|xs| - 1]];
      InsertSorted(xs[|xs| - 1], SortedDistinct(init))
  }

  /** A strictly increasing list is determined by its elements, so
      `SortedDistinct(xs)` is the one sorted list of the set of `xs`. */
  lemma {:induction false} SortedUnique(a: seq<int>, b: seq<int>)
    requires StrictlyIncreasing(a) && StrictlyIncreasing(b)
    requires forall y :: y in a <==> y in b
    ensures a == b
  {
    if a != [] || b != [] {
      assert a != [] ==> a[0] in a && a[0] in b;
      assert b != [] ==> b[0] in b && b[0] in a;
      assert a != [] && b != [];
      var ka :| 0 <= ka < |a| && a[ka] == b[0];
      var kb :| 0 <= kb < |b| && b[kb] == a[0];
      assert a[0] <= b[0] && b[0] <= a[0];
      forall y
        ensures y in a[1..] <==> y in b[1..]
      {
        if y in a[1..] {
          var k :| 1 <= k < |a| && a[k] == y;
          assert y in a && y in b;
          var m :| 0 <= m < |b| && b[m] == y;
          assert m != 0 && b[1..][m - 1] == y;
        }
        if y in b[1..] {
          var k :| 1 <= k < |b| && b[k] == y;
          assert y in b && y in a;
          var m :| 0 <= m < |a| && a[m] == y;
          assert m != 0 && a[1..][m - 1] == y;
        }
      }
      SortedUnique(a[1..], b[1..]);
    }
  }
}
