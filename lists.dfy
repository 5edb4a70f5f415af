/** Order-preserving filtering, the shape of the list comprehensions that drop
    excluded entries and keep only files in tree_builder.py, and the
    element-wise map that tells each element whether it is the last one,
    the shape of the `is_last = i == len(...) - 1` loops. */
module Lists {

  /** The elements of `s` that satisfy `keep`, in their original order. */
  function Filter<T(==,!new)>(keep: T -> bool, s: seq<T>): (r: seq<T>)
    ensures |r| <= |s|
    ensures forall x :: x in r <==> x in s && keep(x)
    decreases |s|
  {
    if s == [] then []
    else Filter(keep, s[..|s| - 1]) + (if keep(s[|s| - 1]) then [s[|s| - 1]] else [])
  }

  /** Filtering distributes over concatenation: what one part keeps does not
      depend on the other part. */
  lemma {:induction false} FilterConcat<T(!new)>(keep: T -> bool, a: seq<T>, b: seq<T>)
    ensures Filter(keep, a + b) == Filter(keep, a) + Filter(keep, b)
    decreases |b|
  {
    if b == [] {
      assert a + b == a;
    } else {
      var b' := b[..|b| - 1];
      assert (a + b)[..|a + b| - 1] == a + b';
      assert (a + b)[|a + b| - 1] == b[|b| - 1];
      FilterConcat(keep, a, b');
    }
  }

  /** A filter that rejects every element yields nothing. */
  lemma {:induction false} FilterNone<T(!new)>(keep: T -> bool, s: seq<T>)
    requires forall x :: x in s ==> !keep(x)
    ensures Filter(keep, s) == []
    decreases |s|
  {
    if s != [] {
      assert s[|s| - 1] in s;
      FilterNone(keep, s[..|s| - 1]);
    }
  }

  /** A one-element sequence whose element is kept is its own filter. */
  lemma FilterSingle<T(!new)>(keep: T -> bool, x: T)
    requires keep(x)
    ensures Filter(keep, [x]) == [x]
  {
  }

  lemma ConcatAssoc<T>(a: seq<T>, b: seq<T>, c: seq<T>)
    ensures a + (b + c) == a + b + c
  {
  }

  lemma AppendAssoc<T>(a: seq<T>, b: seq<T>, c: seq<T>, d: seq<T>)
    ensures a + b + c + d == a + (b + c + d)
  {
  }

  /** Filtering a prefix one element further. */
  lemma FilterStep<T(!new)>(keep: T -> bool, s: seq<T>, k: nat)
    requires k < |s|
    ensures Filter(keep, s[..k + 1]) == Filter(keep, s[..k]) + (if keep(s[k]) then [s[k]] else [])
  {
    assert s[..k + 1][..k] == s[..k];
  }

  /** Dropping an element the filter rejects changes nothing. */
  lemma FilterDrop<T(!new)>(keep: T -> bool, a: seq<T>, x: T, b: seq<T>)
    requires !keep(x)
    ensures Filter(keep, a + [x] + b) == Filter(keep, a + b)
  {
    FilterConcat(keep, a + [x], b);
    FilterConcat(keep, a, [x]);
    FilterConcat(keep, a, b);
    assert Filter(keep, [x]) == [] by {
      assert [x][..0] == [];
    }
    assert Filter(keep, a) + [] == Filter(keep, a);
  }

  /** Dropping an element that one of two successive filters rejects changes nothing. */
  lemma FilterTwiceDrop<T(!new)>(outer: T -> bool, inner: T -> bool, a: seq<T>, x: T, b: seq<T>)
    requires !(inner(x) && outer(x))
    ensures Filter(outer, Filter(inner, a + [x] + b)) == Filter(outer, Filter(inner, a + b))
  {
    if !inner(x) {
      FilterDrop(inner, a, x, b);
    } else {
      FilterConcat(inner, a + [x], b);
      FilterConcat(inner, a, [x]);
      FilterConcat(inner, a, b);
      assert [x][..0] == [];
      FilterDrop(outer, Filter(inner, a), x, Filter(inner, b));
    }
  }

  /** Two complementary filters split a sequence into two parts that together
      hold each element as often as the sequence does. */
  lemma {:induction false} FilterPartition<T(!new)>(keep: T -> bool, other: T -> bool, s: seq<T>)
    requires forall x :: other(x) == !keep(x)
    ensures multiset(Filter(keep, s)) + multiset(Filter(other, s)) == multiset(s)
    decreases |s|
  {
    if s != [] {
      var s', x := s[..|s| - 1], s[|s| - 1];
      FilterPartition(keep, other, s');
      assert s == s' + [x];
      assert multiset(s) == multiset(s') + multiset{x};
      if keep(x) {
        assert Filter(keep, s) == Filter(keep, s') + [x] && Filter(other, s) == Filter(other, s');
      } else {
        assert Filter(keep, s) == Filter(keep, s') && Filter(other, s) == Filter(other, s') + [x];
      }
    }
  }

  /** `f(s[k], k == |s| - 1)` for each `k` from `i` on. */
  function MarkLast<T, U>(f: (T, bool) -> U, s: seq<T>, i: nat): seq<U>
    requires i <= |s|
    decreases |s| - i
  {
    if i == |s| then [] else [f(s[i], i == |s| - 1)] + MarkLast(f, s, i + 1)
  }

  /** `MarkLast` element by element: one result per element, and only the
      element at the end of `s` is told it is last. */
  lemma {:induction false} MarkLastAt<T, U>(f: (T, bool) -> U, s: seq<T>, i: nat)
    requires i <= |s|
    ensures |MarkLast(f, s, i)| == |s| - i
    ensures forall j :: 0 <= j < |s| - i ==> MarkLast(f, s, i)[j] == f(s[i + j], i + j == |s| - 1)
    decreases |s| - i
  {
    if i < |s| {
      MarkLastAt(f, s, i + 1);
      assert MarkLast(f, s, i) == [f(s[i], i == |s| - 1)] + MarkLast(f, s, i + 1);
    }
  }

  /** A result for element `i` put in front of `MarkLast` from `i + 1` is `MarkLast` from `i`. */
  lemma MarkLastCons<T, U>(f: (T, bool) -> U, s: seq<T>, i: nat, x: U, r: seq<U>, out: seq<U>)
    requires i < |s|
    requires x == f(s[i], i == |s| - 1) && r == MarkLast(f, s, i + 1) && out == [x] + r
    ensures out == MarkLast(f, s, i)
  {
  }

  /** One step of a loop that builds `MarkLast(f, s, 0)` by appending. */
  lemma MarkLastStep<T, U>(f: (T, bool) -> U, s: seq<T>, i: nat, done: seq<U>)
    requires i < |s|
    requires done + MarkLast(f, s, i) == MarkLast(f, s, 0)
    ensures done + [f(s[i], i == |s| - 1)] + MarkLast(f, s, i + 1) == MarkLast(f, s, 0)
  {
    assert done + [f(s[i], i == |s| - 1)] + MarkLast(f, s, i + 1)
        == done + ([f(s[i], i == |s| - 1)] + MarkLast(f, s, i + 1));
  }

  /** `cur` is what remains of `all` after some of its first elements. */
  ghost predicate IsSuffix<T>(all: seq<T>, cur: seq<T>)
  {
    |cur| <= |all| && all[|all| - |cur|..] == cur
  }

  lemma SuffixRefl<T>(all: seq<T>)
    ensures IsSuffix(all, all)
  {
    assert all[0..] == all;
  }

  /** Being a suffix is transitive. */
  lemma SuffixTrans<T>(all: seq<T>, prev: seq<T>, cur: seq<T>)
    requires IsSuffix(all, prev) && IsSuffix(prev, cur)
    ensures IsSuffix(all, cur)
  {
    assert all[|all| - |cur|..] == all[|all| - |prev|..][|prev| - |cur|..];
  }
}
