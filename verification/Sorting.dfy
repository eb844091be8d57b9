/** A stable sort by a comparison, standing for the built-in sort, and the
    facts its uses need: it keeps the elements, it orders them, and an order that decides
    between any two different elements leaves only one sorted arrangement. */
module Sorting {

  ghost predicate TotalPreorder<T(!new)>(le: (T, T) -> bool) {
    && (forall x, y :: le(x, y) || le(y, x))
    && (forall x, y, z :: le(x, y) && le(y, z) ==> le(x, z))
  }

  ghost predicate Sorted<T>(s: seq<T>, le: (T, T) -> bool) {
    forall i, j | 0 <= i < j < |s| :: le(s[i], s[j])
  }

  // No two different elements of s tie.
  ghost predicate Decided<T>(s: seq<T>, le: (T, T) -> bool) {
    forall x, y | x in s && y in s && le(x, y) && le(y, x) :: x == y
  }

  ghost predicate Distinct<T>(s: seq<T>) {
    forall i, j | 0 <= i < j < |s| :: s[i] != s[j]
  }

  function Insert<T(!new)>(x: T, s: seq<T>, le: (T, T) -> bool): (r: seq<T>)
    ensures |r| == |s| + 1
    ensures forall y :: y in r <==> y == x || y in s
  {
    if |s| == 0 then [x]
    else if le(x, s[0]) then [x] + s
    else [s[0]] + Insert(x, s[1..], le)
  }

  function Sort<T(!new)>(s: seq<T>, le: (T, T) -> bool): (r: seq<T>)
    ensures |r| == |s|
    ensures forall y :: y in r <==> y in s
  {
    if |s| == 0 then [] else Insert(s[0], Sort(s[1..], le), le)
  }

  lemma ConsSorted<T>(h: T, t: seq<T>, le: (T, T) -> bool)
    requires Sorted(t, le) && forall y | y in t :: le(h, y)
    ensures Sorted([h] + t, le)
  {
    var s := [h] + t;
    forall i, j | 0 <= i < j < |s| ensures le(s[i], s[j]) {
      assert s[j] == t[j - 1] && t[j - 1] in t;
    }
  }

  lemma ConsDistinct<T>(h: T, t: seq<T>)
    requires Distinct(t) && h !in t
    ensures Distinct([h] + t)
  {
    var s := [h] + t;
    forall i, j | 0 <= i < j < |s| ensures s[i] != s[j] {
      assert s[j] == t[j - 1] && t[j - 1] in t;
    }
  }

  lemma {:induction false} InsertSorts<T(!new)>(x: T, s: seq<T>, le: (T, T) -> bool)
    requires TotalPreorder(le) && Sorted(s, le)
    ensures Sorted(Insert(x, s, le), le)
  {
    if |s| > 0 && !le(x, s[0]) {
      InsertSorts(x, s[1..], le);
      ConsSorted(s[0], Insert(x, s[1..], le), le);
    } else if |s| > 0 {
      forall y | y in s ensures le(x, y) {
        var i :| 0 <= i < |s| && s[i] == y;
        assert le(s[0], y) || i == 0;
      }
      ConsSorted(x, s, le);
    }
  }

  lemma {:induction false} SortSorts<T(!new)>(s: seq<T>, le: (T, T) -> bool)
    requires TotalPreorder(le)
    ensures Sorted(Sort(s, le), le)
  {
    if |s| > 0 {
      SortSorts(s[1..], le);
      InsertSorts(s[0], Sort(s[1..], le), le);
    }
  }

  lemma {:induction false} InsertDistinct<T(!new)>(x: T, s: seq<T>, le: (T, T) -> bool)
    requires Distinct(s) && x !in s
    ensures Distinct(Insert(x, s, le))
  {
    if |s| > 0 && !le(x, s[0]) {
      InsertDistinct(x, s[1..], le);
      ConsDistinct(s[0], Insert(x, s[1..], le));
    } else {
      ConsDistinct(x, s);
    }
  }

  lemma {:induction false} SortDistinct<T(!new)>(s: seq<T>, le: (T, T) -> bool)
    requires Distinct(s)
    ensures Distinct(Sort(s, le))
  {
    if |s| > 0 {
      SortDistinct(s[1..], le);
      InsertDistinct(s[0], Sort(s[1..], le), le);
    }
  }

  lemma {:induction false} InsertPermutes<T(!new)>(x: T, s: seq<T>, le: (T, T) -> bool)
    ensures multiset(Insert(x, s, le)) == multiset(s) + multiset{x}
  {
    if |s| > 0 {
      assert s == [s[0]] + s[1..];
      if !le(x, s[0]) { InsertPermutes(x, s[1..], le); }
    }
  }

  lemma {:induction false} SortPermutes<T(!new)>(s: seq<T>, le: (T, T) -> bool)
    ensures multiset(Sort(s, le)) == multiset(s)
  {
    if |s| > 0 {
      SortPermutes(s[1..], le);
      InsertPermutes(s[0], Sort(s[1..], le), le);
      assert s == [s[0]] + s[1..];
    }
  }

  // Two sorted arrangements of the same distinct elements are equal when none tie.
  lemma {:induction false} SortedUnique<T(!new)>(a: seq<T>, b: seq<T>, le: (T, T) -> bool)
    requires Distinct(a) && Distinct(b) && forall x :: x in a <==> x in b
    requires Sorted(a, le) && Sorted(b, le) && Decided(a, le)
    ensures a == b
    decreases |a|
  {
    assert |b| > 0 ==> b[0] in a;
    if |a| > 0 {
      assert a[0] in b && b[0] in a;
      assert a[0] == b[0];
      forall x ensures x in a[1..] <==> x in b[1..] {
        assert x in a[1..] <==> x in a && x != a[0];
        assert x in b[1..] <==> x in b && x != b[0];
      }
      SortedUnique(a[1..], b[1..], le);
      assert a == [a[0]] + a[1..] && b == [b[0]] + b[1..];
    }
  }

  /** The elements of a dictionary or set in some order, as iterating over it yields them. */
  method Enumerate<T(==,!new)>(s: set<T>) returns (r: seq<T>)
    ensures Distinct(r)
    ensures forall x :: x in r <==> x in s
  {
    r := [];
    var rest := s;
    while rest != {}
      invariant rest <= s
      invariant Distinct(r)
      invariant forall x :: x in r <==> x in s && x !in rest
      decreases |rest|
    {
      var x :| x in rest;
      r, rest := r + [x], rest - {x};
    }
  }
}
