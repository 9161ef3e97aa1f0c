/** Order-preserving sequence utilities: the filter behind every SELECT of the
    model and the first-occurrence de-duplication that JavaScript's `Set`
    performs when it is built from an array. */
module Seqs {

  /** The elements of `s` that satisfy `f`, in their original order. */
  function Filter<T(!new)>(s: seq<T>, f: T -> bool): (r: seq<T>)
    ensures |r| <= |s|
    ensures forall x :: x in r <==> x in s && f(x)
    decreases |s|
  {
    if |s| == 0 then []
    else
      assert s == s[..|s| - 1] + [s[|s| - 1]];
      Filter(s[..|s| - 1], f) + (if f(s[|s| - 1]) then [s[|s| - 1]] else [])
  }

  /** No element occurs twice. */
  predicate NoDup<T(==)>(s: seq<T>) {
    forall i, j :: 0 <= i < j < |s| ==> s[i] != s[j]
  }

  /** The index of the first occurrence of `x` in `s`. */
  function IndexOf<T(==)>(s: seq<T>, x: T): (k: nat)
    requires x in s
    ensures k < |s| && s[k] == x
    ensures forall j :: 0 <= j < k ==> s[j] != x
  {
    if s[0] == x then 0 else 1 + IndexOf(s[1..], x)
  }

  /** The first two elements of a sequence, when it has them, are members. */
  lemma HeadMembers<T>(s: seq<T>)
    ensures |s| > 0 ==> s[0] in s
    ensures |s| > 1 ==> s[1] in s
  {
  }

  /** Appending an element does not move the first occurrence of an element
      already present, and a new element first occurs at the end. */
  lemma IndexOfSnoc<T>(s: seq<T>, x: T)
    requires |s| > 0 && x in s
    ensures x in s[..|s| - 1] ==> IndexOf(s, x) == IndexOf(s[..|s| - 1], x)
    ensures x !in s[..|s| - 1] ==> IndexOf(s, x) == |s| - 1
  {
    var k := IndexOf(s, x);
    if x in s[..|s| - 1] {
      var m := IndexOf(s[..|s| - 1], x);
      assert s[m] == x;
      assert k <= m;
      assert s[..|s| - 1][k] == x;
    }
  }

  /** JavaScript's `[...new Set(s)]`: each value once, at the place of its
      first occurrence. */
  function Unique<T(==,!new)>(s: seq<T>): (r: seq<T>)
    ensures NoDup(r)
    ensures forall x :: x in r <==> x in s
    decreases |s|
  {
    if |s| == 0 then []
    else
      assert s == s[..|s| - 1] + [s[|s| - 1]];
      var u := Unique(s[..|s| - 1]);
      if s[|s| - 1] in u then u else u + [s[|s| - 1]]
  }

  /** The elements of `r` appear in the order of their first occurrence in `s`. */
  predicate FirstOccurrenceOrder<T(==)>(r: seq<T>, s: seq<T>) {
    forall i, j :: 0 <= i < j < |r| ==> r[i] in s && r[j] in s && IndexOf(s, r[i]) < IndexOf(s, r[j])
  }

  /** `Unique` keeps the order of first occurrence. */
  lemma {:induction false} UniqueOrder<T(!new)>(s: seq<T>)
    ensures FirstOccurrenceOrder(Unique(s), s)
    decreases |s|
  {
    if |s| > 0 {
      var pre := s[..|s| - 1];
      var u := Unique(pre);
      UniqueOrder(pre);
      var r := Unique(s);
      forall i, j | 0 <= i < j < |r|
        ensures r[i] in s && r[j] in s && IndexOf(s, r[i]) < IndexOf(s, r[j])
      {
        assert r[i] in pre;
        IndexOfSnoc(s, r[i]);
        IndexOfSnoc(s, r[j]);
        if j < |u| {
          assert r[j] in pre;
          assert r[i] == u[i] && r[j] == u[j];
        } else {
          assert r[j] == s[|s| - 1] && r[j] !in pre;
          assert IndexOf(pre, r[i]) < |pre|;
        }
      }
    }
  }
}
