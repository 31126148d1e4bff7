/** The query operators the two stores use: `Where` (a filter that keeps
    the order of the rows), and `OrderBy`, `OrderByDescending` and
    `SortByDescending` (a sort by a total preorder). */
module Ordering {

  /** `le` is total and transitive: a key comparison such as "created no
      earlier than". */
  ghost predicate TotalPreorder<T(!new)>(le: (T, T) -> bool)
  {
    && (forall a, b :: le(a, b) || le(b, a))
    && (forall a, b, c :: le(a, b) && le(b, c) ==> le(a, c))
  }

  /** Every element comes no later than, by `le`, every element after it. */
  ghost predicate SortedBy<T>(s: seq<T>, le: (T, T) -> bool)
  {
    forall i, j :: 0 <= i < j < |s| ==> le(s[i], s[j])
  }

  /** `Where(p)`: the elements satisfying `p`, each as often as in `s`. */
  function Filter<T(!new)>(s: seq<T>, p: T -> bool): (r: seq<T>)
    ensures forall x :: multiset(r)[x] == if p(x) then multiset(s)[x] else 0
    ensures forall x :: x in r <==> x in s && p(x)
  {
    if s == [] then []
    else
      var rest := Filter(s[1..], p);
      assert s == [s[0]] + s[1..];
      if p(s[0]) then [s[0]] + rest else rest
  }

  /** Two conditions that hold of the same elements select the same rows,
      in the same order. */
  lemma {:induction false} FilterAgrees<T(!new)>(s: seq<T>, p: T -> bool, q: T -> bool)
    requires forall x :: p(x) == q(x)
    ensures Filter(s, p) == Filter(s, q)
  {
    if s != [] {
      FilterAgrees(s[1..], p, q);
    }
  }

  /** Puts `x` into the sorted `s` before the first element it comes no later than. */
  function Insert<T(!new)>(x: T, s: seq<T>, le: (T, T) -> bool): (r: seq<T>)
    requires TotalPreorder(le) && SortedBy(s, le)
    ensures SortedBy(r, le)
    ensures multiset(r) == multiset(s) + multiset{x}
  {
    if s == [] || le(x, s[0]) then
      assert forall j :: 0 <= j < |s| ==> le(s[0], s[j]);
      ConsSorted(x, s, le);
      [x] + s
    else
      var rest := Insert(x, s[1..], le);
      assert s == [s[0]] + s[1..];
      HeadBelowInsert(x, s, rest, le);
      ConsSorted(s[0], rest, le);
      [s[0]] + rest
  }

  /** The head of a sorted `s` that `x` does not come before comes no later
      than anything `Insert` makes of `x` and the tail. */
  lemma HeadBelowInsert<T(!new)>(x: T, s: seq<T>, rest: seq<T>, le: (T, T) -> bool)
    requires TotalPreorder(le) && SortedBy(s, le) && s != [] && !le(x, s[0])
    requires multiset(rest) == multiset(s[1..]) + multiset{x}
    ensures forall j :: 0 <= j < |rest| ==> le(s[0], rest[j])
  {
    forall j | 0 <= j < |rest| ensures le(s[0], rest[j]) {
      assert rest[j] in multiset(rest);
      if rest[j] != x {
        assert rest[j] in multiset(s[1..]);
        var k :| 0 <= k < |s[1..]| && s[1..][k] == rest[j];
        assert s[k + 1] == rest[j];
      }
    }
  }

  /** An element no later than every element of a sorted sequence can be
      put in front of it. */
  lemma ConsSorted<T>(a: T, s: seq<T>, le: (T, T) -> bool)
    requires SortedBy(s, le) && forall j :: 0 <= j < |s| ==> le(a, s[j])
    ensures SortedBy([a] + s, le)
  {
    var r := [a] + s;
    forall i, j | 0 <= i < j < |r| ensures le(r[i], r[j]) {
      if i > 0 {
        assert r[i] == s[i - 1] && r[j] == s[j - 1];
      } else {
        assert r[j] == s[j - 1];
      }
    }
  }

  /** An ordering of `s` by `le` (insertion sort). Which of two equivalent
      elements comes first is not part of the contract. */
  function SortBy<T(!new)>(s: seq<T>, le: (T, T) -> bool): (r: seq<T>)
    requires TotalPreorder(le)
    ensures SortedBy(r, le)
    ensures multiset(r) == multiset(s)
  {
    if s == [] then []
    else
      assert s == [s[0]] + s[1..];
      Insert(s[0], SortBy(s[1..], le), le)
  }

  /** A query result: the elements of `s` that satisfy `p`, each as often as
      in `s`, in `le` order. */
  lemma {:induction false} SortedFilter<T(!new)>(s: seq<T>, p: T -> bool, le: (T, T) -> bool)
    requires TotalPreorder(le)
    ensures var r := SortBy(Filter(s, p), le);
      && SortedBy(r, le)
      && (forall x :: multiset(r)[x] == if p(x) then multiset(s)[x] else 0)
      && (forall x :: x in r <==> x in s && p(x))
  {
    var f := Filter(s, p);
    var r := SortBy(f, le);
    assert multiset(r) == multiset(f);
    forall x ensures x in r <==> x in s && p(x) {
      assert x in r <==> x in multiset(r);
      assert x in f <==> x in multiset(f);
    }
  }
}
