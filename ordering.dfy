/**
 * Python's ordering of `str` values (code point by code point, a proper
 * prefix first) and the three ways the generator sorts string lists:
 * `sorted(xs)`, `sorted(list(set(xs)))` and `sorted(list(s))` for a set `s`.
 */
module Ordering {

  /** `a <= b` on Python strings. */
  predicate LessEq(a: string, b: string)
  {
    a == [] || (b != [] && (a[0] < b[0] || (a[0] == b[0] && LessEq(a[1..], b[1..]))))
  }

  lemma {:induction false} LessEqReflexive(a: string)
    ensures LessEq(a, a)
  {
    if a != [] {
      LessEqReflexive(a[1..]);
    }
  }

  lemma {:induction false} LessEqTotal(a: string, b: string)
    ensures LessEq(a, b) || LessEq(b, a)
  {
    if a != [] && b != [] && a[0] == b[0] {
      LessEqTotal(a[1..], b[1..]);
    }
  }

  lemma {:induction false} LessEqAntisymmetric(a: string, b: string)
    requires LessEq(a, b) && LessEq(b, a)
    ensures a == b
  {
    if a != [] {
      LessEqAntisymmetric(a[1..], b[1..]);
      assert a == [a[0]] + a[1..] && b == [b[0]] + b[1..];
    }
  }

  lemma {:induction false} LessEqTransitive(a: string, b: string, c: string)
    requires LessEq(a, b) && LessEq(b, c)
    ensures LessEq(a, c)
  {
    if a != [] && a[0] == b[0] && b[0] == c[0] {
      LessEqTransitive(a[1..], b[1..], c[1..]);
    }
  }

  /** Non-decreasing, as `sorted` leaves a list. */
  predicate Sorted(s: seq<string>)
  {
    forall i, j :: 0 <= i < j < |s| ==> LessEq(s[i], s[j])
  }

  /** Increasing, as `sorted(set(...))` leaves a list: sorted and free of duplicates. */
  predicate StrictlySorted(s: seq<string>)
  {
    forall i, j :: 0 <= i < j < |s| ==> LessEq(s[i], s[j]) && s[i] != s[j]
  }

  /** Putting in front of a sorted list an element no larger than its head keeps it sorted. */
  lemma SortedCons(x: string, s: seq<string>)
    requires Sorted(s)
    requires s != [] ==> LessEq(x, s[0])
    ensures Sorted([x] + s)
  {
    forall j | 0 < j < |s| + 1
      ensures LessEq(([x] + s)[0], ([x] + s)[j])
    {
      if j > 1 {
        LessEqTransitive(x, s[0], s[j - 1]);
      }
    }
  }

  /** The strict counterpart of `SortedCons`. */
  lemma StrictlySortedCons(x: string, s: seq<string>)
    requires StrictlySorted(s)
    requires s != [] ==> LessEq(x, s[0]) && x != s[0]
    ensures StrictlySorted([x] + s)
  {
    forall j | 0 < j < |s| + 1
      ensures LessEq(([x] + s)[0], ([x] + s)[j]) && ([x] + s)[0] != ([x] + s)[j]
    {
      if j > 1 {
        LessEqTransitive(x, s[0], s[j - 1]);
        if x == s[j - 1] {
          LessEqAntisymmetric(x, s[0]);
        }
      }
    }
  }

  /** One step of insertion sort. */
  function Insert(x: string, s: seq<string>): (r: seq<string>)
    requires Sorted(s)
    ensures Sorted(r)
    ensures multiset(r) == multiset(s) + multiset{x}
  {
    if s == [] then [x]
    else if LessEq(x, s[0]) then
      SortedCons(x, s);
      [x] + s
    else
      LessEqTotal(x, s[0]);
      var t := Insert(x, s[1..]);
      assert s == [s[0]] + s[1..];
      assert t[0] in multiset(t);
      SortedCons(s[0], t);
      [s[0]] + t
  }

  /** `sorted(xs)`: the same elements, with their multiplicities, in order. */
  function Sort(xs: seq<string>): (r: seq<string>)
    ensures Sorted(r)
    ensures multiset(r) == multiset(xs)
  {
    if xs == [] then []
    else
      assert xs == [xs[0]] + xs[1..];
      Insert(xs[0], Sort(xs[1..]))
  }

  /** Sorting keeps exactly the elements it was given. */
  lemma SortMembers(xs: seq<string>)
    ensures forall y :: y in Sort(xs) <==> y in xs
  {
    forall y
      ensures y in Sort(xs) <==> y in xs
    {
      assert y in Sort(xs) <==> y in multiset(Sort(xs));
      assert y in xs <==> y in multiset(xs);
    }
  }

  /** One step of insertion into an increasing list, skipping an element already there. */
  function InsertUnique(x: string, s: seq<string>): (r: seq<string>)
    requires StrictlySorted(s)
    ensures StrictlySorted(r)
    ensures forall y :: y in r <==> y == x || y in s
  {
    if s == [] then [x]
    else if x == s[0] then s
    else if LessEq(x, s[0]) then
      StrictlySortedCons(x, s);
      [x] + s
    else
      LessEqTotal(x, s[0]);
      var t := InsertUnique(x, s[1..]);
      assert s == [s[0]] + s[1..];
      assert t[0] in t;
      assert s[0] !in s[1..];
      StrictlySortedCons(s[0], t);
      [s[0]] + t
  }

  /** `sorted(list(set(xs)))`: each element of `xs` once, in increasing order. */
  function SortedDedup(xs: seq<string>): (r: seq<string>)
    ensures StrictlySorted(r)
    ensures forall y :: y in r <==> y in xs
  {
    if xs == [] then []
    else
      assert xs == [xs[0]] + xs[1..];
      InsertUnique(xs[0], SortedDedup(xs[1..]))
  }

  /**
   * An increasing list is determined by its elements: whatever order
   * `list(s)` enumerates a set in, `sorted` of it is the same list.
   */
  lemma {:induction false} StrictlySortedUnique(a: seq<string>, b: seq<string>)
    requires StrictlySorted(a) && StrictlySorted(b)
    requires forall y :: y in a <==> y in b
    ensures a == b
  {
    if a != [] && b != [] {
      assert a[0] in b && b[0] in a;
      var i :| 0 <= i < |b| && b[i] == a[0];
      var j :| 0 <= j < |a| && a[j] == b[0];
      LessEqReflexive(a[0]);
      assert LessEq(b[0], a[0]) by { if i > 0 { assert LessEq(b[0], b[i]); } }
      assert LessEq(a[0], b[0]) by { if j > 0 { assert LessEq(a[0], a[j]); } }
      LessEqAntisymmetric(a[0], b[0]);
      assert a == [a[0]] + a[1..] && b == [b[0]] + b[1..];
      assert a[0] !in a[1..] && b[0] !in b[1..];
      forall y
        ensures y in a[1..] <==> y in b[1..]
      {
        assert y in a <==> y == a[0] || y in a[1..];
        assert y in b <==> y == b[0] || y in b[1..];
      }
      StrictlySortedUnique(a[1..], b[1..]);
    } else {
      HeadIsMember(a);
      HeadIsMember(b);
    }
  }

  lemma HeadIsMember(s: seq<string>)
    ensures s != [] ==> s[0] in s
  {
  }

  /**
   * `sorted(list(s))` for a set `s`: the set is enumerated in an arbitrary
   * order, one element at a time, and the result does not depend on it.
   */
  method SortedList(s: set<string>) returns (r: seq<string>)
    ensures StrictlySorted(r)
    ensures forall y :: y in r <==> y in s
  {
    r := [];
    var rest := s;
    while rest != {}
      invariant rest <= s
      invariant StrictlySorted(r)
      invariant forall y :: y in r <==> y in s && y !in rest
      decreases rest
    {
      var x :| x in rest;
      r := InsertUnique(x, r);
      rest := rest - {x};
    }
  }
}
