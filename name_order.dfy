/** Python's ordering of `str` values (code point by code point, a proper
    prefix first) and the ascending sort that `list.sort()` performs on the
    entry names of one directory. */
module NameOrder {
  import opened Filesystem

  /** `a <= b` on Python strings: the first differing code point decides,
      and a prefix of a string sorts before it. */
  predicate NameLe(a: string, b: string)
    ensures |a| <= |b| && a == b[..|a|] ==> NameLe(a, b)
    ensures |a| > 0 && |b| > 0 && a[0] != b[0] ==> (NameLe(a, b) <==> a[0] < b[0])
    decreases |a|
  {
    |a| == 0 || (|b| > 0 && (a[0] < b[0] || (a[0] == b[0] && NameLe(a[1..], b[1..]))))
  }

  /** With equal first characters, the rest of the two names decides. Together
      with NameLe's own contract this fixes the order completely. */
  lemma NameLeTail(a: string, b: string)
    requires |a| > 0 && |b| > 0 && a[0] == b[0]
    ensures NameLe(a, b) <==> NameLe(a[1..], b[1..])
  {
  }

  lemma {:induction false} NameLeReflexive(a: string)
    ensures NameLe(a, a)
    decreases |a|
  {
    if |a| > 0 { NameLeReflexive(a[1..]); }
  }

  lemma {:induction false} NameLeAntisymmetric(a: string, b: string)
    requires NameLe(a, b) && NameLe(b, a)
    ensures a == b
    decreases |a|
  {
    if |a| > 0 {
      NameLeAntisymmetric(a[1..], b[1..]);
      assert a == [a[0]] + a[1..] && b == [b[0]] + b[1..];
    }
  }

  lemma {:induction false} NameLeTransitive(a: string, b: string, c: string)
    requires NameLe(a, b) && NameLe(b, c)
    ensures NameLe(a, c)
    decreases |a|
  {
    if |a| > 0 && a[0] == b[0] && b[0] == c[0] {
      NameLeTransitive(a[1..], b[1..], c[1..]);
    }
  }

  lemma {:induction false} NameLeTotal(a: string, b: string)
    ensures NameLe(a, b) || NameLe(b, a)
    decreases |a|
  {
    if |a| > 0 && |b| > 0 && a[0] == b[0] {
      NameLeTotal(a[1..], b[1..]);
    }
  }

  predicate SortedByName(s: seq<Node>)
  {
    forall i, j {:trigger NameLe(s[i].name, s[j].name)} :: 0 <= i < j < |s| ==> NameLe(s[i].name, s[j].name)
  }

  /** Inserts `x` before the first entry whose name is not below it. */
  function InsertByName(x: Node, s: seq<Node>): (r: seq<Node>)
    ensures |r| == |s| + 1
    decreases |s|
  {
    if s == [] || NameLe(x.name, s[0].name) then [x] + s
    else [s[0]] + InsertByName(x, s[1..])
  }

  /** Inserting adds `x` and keeps every other entry. */
  lemma {:induction false} InsertByNamePermutes(x: Node, s: seq<Node>)
    ensures multiset(InsertByName(x, s)) == multiset(s) + multiset{x}
    decreases |s|
  {
    if s != [] && !NameLe(x.name, s[0].name) {
      InsertByNamePermutes(x, s[1..]);
      assert s == [s[0]] + s[1..];
    }
  }

  /** Putting `x` in front of a sorted sequence whose head it does not exceed keeps it sorted. */
  lemma ConsSorted(x: Node, s: seq<Node>)
    requires SortedByName(s)
    requires s == [] || NameLe(x.name, s[0].name)
    ensures SortedByName([x] + s)
  {
    forall j | 0 < j <= |s|
      ensures NameLe(x.name, ([x] + s)[j].name)
    {
      if j > 1 { NameLeTransitive(x.name, s[0].name, s[j - 1].name); }
    }
  }

  lemma {:induction false} InsertByNameSorted(x: Node, s: seq<Node>)
    requires SortedByName(s)
    ensures SortedByName(InsertByName(x, s))
    decreases |s|
  {
    if s == [] || NameLe(x.name, s[0].name) {
      ConsSorted(x, s);
    } else {
      NameLeTotal(x.name, s[0].name);
      var t := InsertByName(x, s[1..]);
      InsertByNameSorted(x, s[1..]);
      InsertByNamePermutes(x, s[1..]);
      if t != [] {
        assert t[0] in multiset(t);
        if t[0] != x {
          assert t[0] in multiset(s[1..]);
          var j :| 0 <= j < |s[1..]| && s[1..][j] == t[0];
          assert s[j + 1] == t[0];
        }
      }
      ConsSorted(s[0], t);
    }
  }

  /** Ascending order of entry names, as Python's list.sort(). */
  function SortByName(s: seq<Node>): (r: seq<Node>)
    ensures SortedByName(r)
    decreases |s|
  {
    if s == [] then []
    else
      var rest := SortByName(s[1..]);
      InsertByNameSorted(s[0], rest);
      InsertByName(s[0], rest)
  }

  /** Sorting keeps every entry, each as often as it occurs. */
  lemma {:induction false} SortByNamePermutes(s: seq<Node>)
    ensures multiset(SortByName(s)) == multiset(s)
    decreases |s|
  {
    if s != [] {
      SortByNamePermutes(s[1..]);
      InsertByNamePermutes(s[0], SortByName(s[1..]));
      assert s == [s[0]] + s[1..];
    }
  }

  /** Sorting keeps exactly the members of the group. */
  lemma SortByNameMembers(s: seq<Node>)
    ensures forall x :: x in SortByName(s) <==> x in s
  {
    SortByNamePermutes(s);
    forall x
      ensures x in SortByName(s) <==> x in s
    {
      assert x in SortByName(s) <==> x in multiset(SortByName(s));
    }
  }
}
