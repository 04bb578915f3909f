/** Lists as the program uses them: filtered by a query and sorted by a key.  Python's sort is stable,
    so rows that tie keep the order in which they were created. */
module Sequences {

  datatype Option<+T> = None | Some(value: T)

  function Filter<T(!new)>(s: seq<T>, p: T -> bool): (r: seq<T>)
    ensures |r| <= |s|
    ensures forall x :: x in r <==> x in s && p(x)
  {
    if s == [] then []
    else if p(s[0]) then [s[0]] + Filter(s[1..], p)
    else Filter(s[1..], p)
  }

  lemma {:induction false} FilterAppend<T(!new)>(a: seq<T>, b: seq<T>, p: T -> bool)
    ensures Filter(a + b, p) == Filter(a, p) + Filter(b, p)
  {
    if a == [] {
      assert a + b == b;
    } else {
      assert (a + b)[0] == a[0] && (a + b)[1..] == a[1..] + b;
      FilterAppend(a[1..], b, p);
    }
  }

  function Repeat<T>(x: T, n: nat): (s: seq<T>)
    ensures |s| == n && forall i :: 0 <= i < n ==> s[i] == x
  {
    if n == 0 then [] else [x] + Repeat(x, n - 1)
  }

  /** Appending the next element of a list to what has been appended so far. */
  lemma AppendNext<T>(base: seq<T>, s: seq<T>, i: nat)
    requires i < |s|
    ensures base + s[..i] + [s[i]] == base + s[..i + 1]
  {
    assert s[..i] + [s[i]] == s[..i + 1];
  }

  lemma {:induction false} FilterAll<T(!new)>(s: seq<T>, p: T -> bool)
    requires forall x :: x in s ==> p(x)
    ensures Filter(s, p) == s
  {
    if s != [] {
      FilterAll(s[1..], p);
    }
  }

  lemma {:induction false} FilterNone<T(!new)>(s: seq<T>, p: T -> bool)
    requires forall x :: x in s ==> !p(x)
    ensures Filter(s, p) == []
  {
    if s != [] {
      FilterNone(s[1..], p);
    }
  }

  /** Filtering by q alone is enough when p already implies it on every element. */
  lemma {:induction false} FilterAgain<T(!new)>(s: seq<T>, p: T -> bool, q: T -> bool)
    requires forall x :: x in s && q(x) ==> p(x)
    ensures Filter(Filter(s, p), q) == Filter(s, q)
  {
    if s != [] {
      FilterAgain(s[1..], p, q);
    }
  }

  lemma {:induction false} FilterSame<T(!new)>(s: seq<T>, p: T -> bool, q: T -> bool)
    requires forall x :: x in s ==> p(x) == q(x)
    ensures Filter(s, p) == Filter(s, q)
  {
    if s != [] {
      FilterSame(s[1..], p, q);
    }
  }

  /** No two elements share a key. */
  ghost predicate DistinctBy<T, K>(s: seq<T>, key: T -> K) {
    forall i, j :: 0 <= i < j < |s| ==> key(s[i]) != key(s[j])
  }

  lemma {:induction false} FilterDistinct<T(!new), K>(s: seq<T>, p: T -> bool, key: T -> K)
    requires DistinctBy(s, key)
    ensures DistinctBy(Filter(s, p), key)
  {
    if s != [] {
      FilterDistinct(s[1..], p, key);
      forall x | x in Filter(s[1..], p) ensures key(x) != key(s[0]) {
        var j :| 0 <= j < |s[1..]| && s[1..][j] == x;
        assert s[j + 1] == x;
      }
    }
  }

  ghost predicate TotalPreorder<T(!new)>(le: (T, T) -> bool) {
    && (forall a, b :: le(a, b) || le(b, a))
    && (forall a, b, c :: le(a, b) && le(b, c) ==> le(a, c))
  }

  ghost predicate Sorted<T(!new)>(s: seq<T>, le: (T, T) -> bool) {
    forall i, j :: 0 <= i < j < |s| ==> le(s[i], s[j])
  }

  function Insert<T(!new)>(x: T, s: seq<T>, le: (T, T) -> bool): (r: seq<T>)
    ensures |r| == |s| + 1
    ensures multiset(r) == multiset(s) + multiset{x}
  {
    if s == [] then [x]
    else if le(x, s[0]) then [x] + s
    else
      assert multiset(s) == multiset{s[0]} + multiset(s[1..]) by { assert s == [s[0]] + s[1..]; }
      [s[0]] + Insert(x, s[1..], le)
  }

  /** A stable sort: an element never overtakes an equal one. */
  function Sort<T(!new)>(s: seq<T>, le: (T, T) -> bool): (r: seq<T>)
    ensures |r| == |s|
    ensures multiset(r) == multiset(s)
  {
    if s == [] then []
    else
      assert multiset(s) == multiset{s[0]} + multiset(s[1..]) by { assert s == [s[0]] + s[1..]; }
      Insert(s[0], Sort(s[1..], le), le)
  }

  lemma SortMembers<T(!new)>(s: seq<T>, le: (T, T) -> bool)
    ensures forall x :: x in Sort(s, le) <==> x in s
  {
    forall x ensures x in Sort(s, le) <==> x in s {
      assert x in s <==> x in multiset(s);
      assert x in Sort(s, le) <==> x in multiset(Sort(s, le));
    }
  }

  lemma InsertMember<T(!new)>(x: T, s: seq<T>, le: (T, T) -> bool, y: T)
    requires y in Insert(x, s, le)
    ensures y == x || y in s
  {
    assert y in multiset(Insert(x, s, le));
    if y != x {
      assert y in multiset(s);
    }
  }

  lemma {:induction false} InsertSorted<T(!new)>(x: T, s: seq<T>, le: (T, T) -> bool)
    requires TotalPreorder(le) && Sorted(s, le)
    ensures Sorted(Insert(x, s, le), le)
  {
    if s != [] {
      if le(x, s[0]) {
        forall j | 0 <= j < |s| ensures le(x, s[j]) {
          assert j == 0 || le(s[0], s[j]);
        }
      } else {
        var t := Insert(x, s[1..], le);
        InsertSorted(x, s[1..], le);
        forall j | 0 <= j < |t| ensures le(s[0], t[j]) {
          InsertMember(x, s[1..], le, t[j]);
        }
      }
    }
  }

  lemma {:induction false} SortSorted<T(!new)>(s: seq<T>, le: (T, T) -> bool)
    requires TotalPreorder(le)
    ensures Sorted(Sort(s, le), le)
  {
    if s != [] {
      SortSorted(s[1..], le);
      InsertSorted(s[0], Sort(s[1..], le), le);
    }
  }

  lemma {:induction false} SortOfSorted<T(!new)>(s: seq<T>, le: (T, T) -> bool)
    requires Sorted(s, le)
    ensures Sort(s, le) == s
  {
    if s != [] {
      SortOfSorted(s[1..], le);
      if |s| > 1 {
        assert le(s[0], s[1]);
      }
    }
  }

  lemma {:induction false} FilterInsert<T(!new)>(x: T, s: seq<T>, le: (T, T) -> bool, p: T -> bool)
    requires TotalPreorder(le) && Sorted(s, le)
    ensures Filter(Insert(x, s, le), p) == if p(x) then Insert(x, Filter(s, p), le) else Filter(s, p)
  {
    if s != [] {
      if le(x, s[0]) {
        assert ([x] + s)[1..] == s;
        var f := Filter(s, p);
        if f != [] {
          assert f[0] in s;
          var j :| 0 <= j < |s| && s[j] == f[0];
          assert j == 0 || le(s[0], s[j]);
          assert le(x, f[0]);
        }
      } else {
        FilterInsert(x, s[1..], le, p);
      }
    }
  }

  /** Sorting and then selecting is selecting and then sorting: a stable sort treats sublists alike. */
  lemma {:induction false} FilterSort<T(!new)>(s: seq<T>, le: (T, T) -> bool, p: T -> bool)
    requires TotalPreorder(le)
    ensures Filter(Sort(s, le), p) == Sort(Filter(s, p), le)
  {
    if s != [] {
      FilterSort(s[1..], le, p);
      SortSorted(s[1..], le);
      FilterInsert(s[0], Sort(s[1..], le), le, p);
    }
  }

  lemma {:induction false} InsertDistinct<T(!new), K>(x: T, s: seq<T>, le: (T, T) -> bool, key: T -> K)
    requires DistinctBy(s, key) && forall y :: y in s ==> key(y) != key(x)
    ensures DistinctBy(Insert(x, s, le), key)
  {
    if s != [] && !le(x, s[0]) {
      InsertDistinct(x, s[1..], le, key);
      forall y | y in Insert(x, s[1..], le) ensures key(y) != key(s[0]) {
        InsertMember(x, s[1..], le, y);
        if y in s[1..] {
          var j :| 0 <= j < |s[1..]| && s[1..][j] == y;
          assert s[j + 1] == y;
        }
      }
    }
  }

  lemma {:induction false} SortDistinct<T(!new), K>(s: seq<T>, le: (T, T) -> bool, key: T -> K)
    requires DistinctBy(s, key)
    ensures DistinctBy(Sort(s, le), key)
  {
    if s != [] {
      SortDistinct(s[1..], le, key);
      SortMembers(s[1..], le);
      forall y | y in s[1..] ensures key(y) != key(s[0]) {
        var j :| 0 <= j < |s[1..]| && s[1..][j] == y;
        assert s[j + 1] == y;
      }
      InsertDistinct(s[0], Sort(s[1..], le), le, key);
    }
  }
}
