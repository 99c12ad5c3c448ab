/** Facts about sequences used as JavaScript arrays. */
module Seqs {

  /** No element occurs twice: the "appears at most once" invariant of every entity list. */
  ghost predicate NoDup<T>(s: seq<T>) {
    forall i, j :: 0 <= i < j < |s| ==> s[i] != s[j]
  }

  /** `r` can be obtained from `s` by deleting elements, so it keeps `s`'s order. */
  predicate IsSubsequence<T(==)>(r: seq<T>, s: seq<T>) {
    if r == [] then true
    else if s == [] then false
    else if r[0] == s[0] then IsSubsequence(r[1..], s[1..])
    else IsSubsequence(r, s[1..])
  }

  /** Appending an element that is not yet present keeps a list duplicate-free. */
  lemma NoDupAppend<T>(s: seq<T>, x: T)
    requires NoDup(s) && x !in s
    ensures NoDup(s + [x])
  {
  }

  /** In a duplicate-free list every present element occurs exactly once. */
  lemma {:induction false} NoDupOccursOnce<T>(s: seq<T>, x: T)
    requires NoDup(s) && x in s
    ensures multiset(s)[x] == 1
  {
    if s[0] == x {
      assert x !in s[1..];
      assert s == [s[0]] + s[1..];
    } else {
      assert s == [s[0]] + s[1..];
      NoDupOccursOnce(s[1..], x);
    }
  }

  /** `Array.prototype.filter`: the elements of `s` satisfying `p`, in their original order. */
  function Filter<T(!new)>(s: seq<T>, p: T -> bool): (r: seq<T>)
    ensures forall x :: x in r <==> x in s && p(x)
    ensures IsSubsequence(r, s)
    ensures |r| <= |s|
  {
    if s == [] then []
    else if p(s[0]) then [s[0]] + Filter(s[1..], p)
    else Filter(s[1..], p)
  }

  /** A filter that no element passes yields the empty list. */
  lemma FilterNone<T(!new)>(s: seq<T>, p: T -> bool)
    requires forall x :: x in s ==> !p(x)
    ensures Filter(s, p) == []
  {
  }

  /** A subsequence of a duplicate-free list is duplicate-free. */
  lemma {:induction false} SubsequenceNoDup<T>(r: seq<T>, s: seq<T>)
    requires IsSubsequence(r, s) && NoDup(s)
    ensures NoDup(r)
    ensures forall x :: x in r ==> x in s
  {
    if r == [] {
    } else if r[0] == s[0] {
      SubsequenceNoDup(r[1..], s[1..]);
      assert r == [r[0]] + r[1..];
      assert s[0] !in s[1..];
    } else {
      SubsequenceNoDup(r, s[1..]);
    }
  }

  lemma {:induction false} SubsequenceRefl<T>(s: seq<T>)
    ensures IsSubsequence(s, s)
  {
    if s != [] {
      SubsequenceRefl(s[1..]);
    }
  }

  /** Dropping the head of a list leaves a subsequence of it. */
  lemma {:induction false} SubsequenceOfCons<T>(x: T, s: seq<T>)
    ensures IsSubsequence(s, [x] + s)
  {
    if s == [] {
    } else if s[0] == x {
      assert ([x] + s)[1..] == s;
      SubsequenceOfCons(s[0], s[1..]);
      assert [s[0]] + s[1..] == s;
    } else {
      assert ([x] + s)[1..] == s;
      SubsequenceRefl(s);
    }
  }
}
