/**
 * The array built-ins the frontend calls on its stored lists:
 * `filter`, `findIndex` and `some`, over Dafny sequences.
 */
module Seqs {

  /** `a` is `b` with some elements deleted, the rest in their original order. */
  ghost predicate IsSubsequence<T>(a: seq<T>, b: seq<T>)
    decreases |b|
  {
    || a == []
    || (b != [] && ((a[0] == b[0] && IsSubsequence(a[1..], b[1..])) || IsSubsequence(a, b[1..])))
  }

  /** `s.filter(p)`. */
  function Filter<T(==,!new)>(p: T -> bool, s: seq<T>): (r: seq<T>)
    ensures |r| <= |s|
    ensures forall x :: x in r <==> x in s && p(x)
    ensures forall i :: 0 <= i < |r| ==> p(r[i])
    ensures IsSubsequence(r, s)
    decreases |s|
  {
    if s == [] then []
    else if p(s[0]) then [s[0]] + Filter(p, s[1..])
    else Filter(p, s[1..])
  }

  lemma {:induction false} FilterConcat<T(!new)>(p: T -> bool, a: seq<T>, b: seq<T>)
    ensures Filter(p, a + b) == Filter(p, a) + Filter(p, b)
    decreases |a|
  {
    if a == [] {
      assert a + b == b;
    } else {
      assert (a + b)[1..] == a[1..] + b;
      FilterConcat(p, a[1..], b);
    }
  }

  /** One step of `Filter`. */
  lemma FilterCons<T(!new)>(p: T -> bool, s: seq<T>)
    requires s != []
    ensures Filter(p, s) == (if p(s[0]) then [s[0]] else []) + Filter(p, s[1..])
  {
  }

  /** Regrouping the multisets of two concatenations. */
  lemma MultisetRegroup<T>(a: seq<T>, b: seq<T>, c: seq<T>, d: seq<T>)
    ensures multiset(a + b) + multiset(c + d) == (multiset(a) + multiset(c)) + (multiset(b) + multiset(d))
  {
  }

  /** An element goes to exactly one of two complementary one-element filters. */
  lemma HeadGoesOneWay<T>(head: T, inP: bool)
    ensures var hp: seq<T> := if inP then [head] else [];
      var hq: seq<T> := if !inP then [head] else [];
      multiset(hp) + multiset(hq) == multiset{head}
  {
  }

  /** Two complementary filters split the elements between them, each exactly once. */
  lemma {:induction false} FilterPartition<T(!new)>(p: T -> bool, q: T -> bool, s: seq<T>)
    requires forall x :: q(x) == !p(x)
    ensures multiset(Filter(p, s)) + multiset(Filter(q, s)) == multiset(s)
    decreases |s|
  {
    if s != [] {
      var head, tail := s[0], s[1..];
      var hp: seq<T> := if p(head) then [head] else [];
      var hq: seq<T> := if q(head) then [head] else [];
      assert q(head) == !p(head);
      FilterCons(p, s);
      FilterCons(q, s);
      MultisetRegroup(hp, Filter(p, tail), hq, Filter(q, tail));
      HeadGoesOneWay(head, p(head));
      FilterPartition(p, q, tail);
      assert s == [head] + tail;
    }
  }

  /** Two complementary filters have lengths adding up to the list's. */
  lemma FilterPartitionLength<T(!new)>(p: T -> bool, q: T -> bool, s: seq<T>)
    requires forall x :: q(x) == !p(x)
    ensures |Filter(p, s)| + |Filter(q, s)| == |s|
  {
    FilterPartition(p, q, s);
    assert |multiset(Filter(p, s))| + |multiset(Filter(q, s))| == |multiset(s)|;
  }

  /** Every sequence is a subsequence of itself. */
  lemma {:induction false} SubsequenceOfItself<T>(s: seq<T>)
    ensures IsSubsequence(s, s)
    decreases |s|
  {
    if s != [] {
      SubsequenceOfItself(s[1..]);
    }
  }

  /** Predicates that agree on the elements of `s` filter it alike. */
  lemma {:induction false} FilterAgrees<T(!new)>(p: T -> bool, q: T -> bool, s: seq<T>)
    requires forall i :: 0 <= i < |s| ==> p(s[i]) == q(s[i])
    ensures Filter(p, s) == Filter(q, s)
    decreases |s|
  {
    if s != [] {
      FilterAgrees(p, q, s[1..]);
    }
  }

  /** A filter keeps every element when the predicate holds throughout. */
  lemma {:induction false} FilterAll<T(!new)>(p: T -> bool, s: seq<T>)
    requires forall i :: 0 <= i < |s| ==> p(s[i])
    ensures Filter(p, s) == s
    decreases |s|
  {
    if s != [] {
      FilterAll(p, s[1..]);
    }
  }

  /** A filter keeps nothing when the predicate fails throughout. */
  lemma {:induction false} FilterNone<T(!new)>(p: T -> bool, s: seq<T>)
    requires forall i :: 0 <= i < |s| ==> !p(s[i])
    ensures Filter(p, s) == []
    decreases |s|
  {
    if s != [] {
      FilterNone(p, s[1..]);
    }
  }

  /** The positions of `s` whose element satisfies `p`. */
  ghost function Positions<T(!new)>(p: T -> bool, s: seq<T>): set<nat> {
    set i: nat | i < |s| && p(s[i])
  }

  /** Appending an element adds its position exactly when it satisfies `p`. */
  lemma PositionsSnoc<T(!new)>(p: T -> bool, init: seq<T>, last: T)
    ensures Positions(p, init + [last]) == Positions(p, init) + (if p(last) then {|init|} else {})
  {
    var s := init + [last];
    forall i: nat | i < |init|
      ensures s[i] == init[i]
    {
    }
  }

  /** A filter keeps one element for each position that satisfies the predicate. */
  lemma {:induction false} FilterLengthIsPositionCount<T(!new)>(p: T -> bool, s: seq<T>)
    ensures |Filter(p, s)| == |Positions(p, s)|
    decreases |s|
  {
    if s != [] {
      var init, last := s[..|s| - 1], s[|s| - 1];
      FilterLengthIsPositionCount(p, init);
      assert s == init + [last];
      FilterConcat(p, init, [last]);
      PositionsSnoc(p, init, last);
      assert |init| !in Positions(p, init);
    }
  }

  /** `s.findIndex(p)`: the first position satisfying `p`, or -1. */
  function FindIndex<T(==)>(p: T -> bool, s: seq<T>): (i: int)
    ensures -1 <= i < |s|
    ensures i == -1 <==> forall j :: 0 <= j < |s| ==> !p(s[j])
    ensures i >= 0 ==> p(s[i]) && forall j :: 0 <= j < i ==> !p(s[j])
    decreases |s|
  {
    if s == [] then -1
    else if p(s[0]) then 0
    else
      var k := FindIndex(p, s[1..]);
      if k == -1 then -1 else k + 1
  }

  /** `s.some(p)`. */
  predicate SomeMatch<T(==,!new)>(p: T -> bool, s: seq<T>) {
    exists x :: x in s && p(x)
  }
}
