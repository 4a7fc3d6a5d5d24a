/**
 Output slots of a funnel are numbered 0, 1, ..., size-1. This module holds the
 facts about such numberings that the funnel's ordering argument rests on: a
 list of slot numbers that is a sub-multiset of 0..n-1 is duplicate-free and
 bounded by n, and one that equals 0..n-1 as a multiset names every slot.
 */
module Slots {

  /** The slot numbers 0, 1, ..., n-1 in increasing order. */
  function Range(n: nat): seq<nat>
  {
    seq(n, i requires 0 <= i => i)
  }

  /** No slot number occurs twice in `s`. */
  predicate Distinct(s: seq<nat>)
  {
    forall i, j :: 0 <= i < j < |s| ==> s[i] != s[j]
  }

  /** Inserting x anywhere adds one x to the multiset. */
  lemma MultisetInsert(a: seq<nat>, x: nat, b: seq<nat>)
    ensures multiset((a + [x]) + b) == multiset(a + b) + multiset{x}
  {
    calc {
      multiset((a + [x]) + b);
      multiset(a) + multiset{x} + multiset(b);
      multiset(a + b) + multiset{x};
    }
  }

  lemma RangeSucc(n: nat)
    ensures Range(n + 1) == Range(n) + [n]
  {
    assert forall i :: 0 <= i < n + 1 ==> Range(n + 1)[i] == (Range(n) + [n])[i];
  }

  /** Each number below n occurs exactly once in Range(n), and no other number occurs. */
  lemma {:induction false} RangeCount(n: nat, x: nat)
    ensures multiset(Range(n))[x] == if x < n then 1 else 0
  {
    if n > 0 {
      var last: nat := n - 1;
      RangeSucc(last);
      RangeCount(last, x);
      assert multiset(Range(n)) == multiset(Range(last)) + multiset{last};
    } else {
      assert Range(0) == [];
    }
  }

  /** A value found at two different positions of `s` is counted at least twice. */
  lemma TwiceCounted(s: seq<nat>, i: nat, j: nat)
    requires i < j < |s| && s[i] == s[j]
    ensures multiset(s)[s[i]] >= 2
  {
    assert s == s[..j] + [s[j]] + s[j + 1..];
    assert s[i] in s[..j];
    assert multiset(s) == multiset(s[..j]) + multiset{s[j]} + multiset(s[j + 1..]);
  }

  /** Slot numbers that fit inside 0..n-1 as a multiset are distinct and below n. */
  lemma {:induction false} WithinRange(s: seq<nat>, n: nat)
    requires multiset(s) <= multiset(Range(n))
    ensures Distinct(s)
    ensures forall k :: k in s ==> k < n
  {
    forall k | k in s
      ensures k < n
    {
      RangeCount(n, k);
    }
    forall i, j | 0 <= i < j < |s|
      ensures s[i] != s[j]
    {
      if s[i] == s[j] {
        TwiceCounted(s, i, j);
        RangeCount(n, s[i]);
        assert false;
      }
    }
  }

  /** Slot numbers equal to 0..n-1 as a multiset name every slot below n. */
  lemma {:induction false} CoversRange(s: seq<nat>, n: nat)
    requires multiset(s) == multiset(Range(n))
    ensures |s| == n
    ensures forall k :: 0 <= k < n ==> k in s
  {
    assert |s| == |multiset(s)| == |multiset(Range(n))| == n;
    forall k | 0 <= k < n
      ensures k in s
    {
      RangeCount(n, k);
      assert multiset(s)[k] == 1;
    }
  }

  /** A concatenation without repeats splits into two repeat-free, disjoint halves. */
  lemma DistinctSplit(a: seq<nat>, b: seq<nat>)
    ensures Distinct(a + b) ==> Distinct(a) && Distinct(b)
    ensures Distinct(a + b) ==> forall k :: k in a ==> k !in b
  {
    if !Distinct(a + b) {
      return;
    }
    forall i, j | 0 <= i < j < |a|
      ensures a[i] != a[j]
    {
      assert a[i] == (a + b)[i] && a[j] == (a + b)[j];
    }
    forall i, j | 0 <= i < j < |b|
      ensures b[i] != b[j]
    {
      assert b[i] == (a + b)[|a| + i] && b[j] == (a + b)[|a| + j];
    }
    forall k | k in a
      ensures k !in b
    {
      var i :| 0 <= i < |a| && a[i] == k;
      forall j | 0 <= j < |b|
        ensures b[j] != k
      {
        assert (a + b)[i] == a[i] && (a + b)[|a| + j] == b[j];
      }
    }
  }
}
