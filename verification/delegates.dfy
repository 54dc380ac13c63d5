/** Invocation lists of .NET multicast delegates, as the `+=` and `-=`
    operators on an event field use them.

    A delegate is immutable; `e += d` replaces the field by a new list with
    `d` at the end, and `e -= d` replaces it by a new list from which the
    LAST entry equal to `d` is removed (nothing happens when there is none).
    Entries are compared with `==`, which for a delegate bound to an
    instance method means "same target object and same method".
 */
module Delegates {

  /** Index of the last entry of `s` equal to `x`, or -1 when there is none. */
  function LastIndexOf<T(==)>(s: seq<T>, x: T): (i: int)
    ensures -1 <= i < |s|
    ensures i == -1 <==> x !in s
    ensures 0 <= i ==> s[i] == x && x !in s[i + 1..]
  {
    if |s| == 0 then -1
    else if s[|s| - 1] == x then |s| - 1
    else LastIndexOf(s[..|s| - 1], x)
  }

  /** `s -= x`: scans from the end and drops the first entry equal to `x`
      that it meets. */
  function RemoveLast<T(==)>(s: seq<T>, x: T): (r: seq<T>)
    ensures x !in s ==> r == s
    ensures x in s ==> |r| == |s| - 1
  {
    if |s| == 0 then []
    else if s[|s| - 1] == x then s[..|s| - 1]
    else RemoveLast(s[..|s| - 1], x) + [s[|s| - 1]]
  }

  /** What `-=` leaves is the list with its last `x` cut out: the entries
      before it and the entries after it, each in their old order. */
  lemma {:induction false} RemoveLastSplice<T>(s: seq<T>, x: T)
    requires x in s
    ensures RemoveLast(s, x) == s[..LastIndexOf(s, x)] + s[LastIndexOf(s, x) + 1..]
  {
    var init, last := s[..|s| - 1], s[|s| - 1];
    if last != x {
      assert x in init by {
        var k :| 0 <= k < |s| && s[k] == x;
        assert k < |s| - 1 && init[k] == x;
      }
      RemoveLastSplice(init, x);
      var i := LastIndexOf(init, x);
      assert LastIndexOf(s, x) == i;
      assert s[..i] == init[..i];
      assert s[i + 1..] == init[i + 1..] + [last];
    }
  }

  /** The occurrence `-=` removes is the one after which `x` no longer
      appears: whatever precedes it, including earlier copies of `x`, stays. */
  lemma RemoveLastSplit<T>(a: seq<T>, x: T, b: seq<T>)
    requires x !in b
    ensures RemoveLast(a + [x] + b, x) == a + b
  {
    var s := a + [x] + b;
    var i := LastIndexOf(s, x);
    RemoveLastSplice(s, x);
    assert s[|a|] == x && s[|a| + 1..] == b;
    assert i == |a|;
    assert s[..i] == a;
  }

  /** `-=` takes away exactly one occurrence when there is one, and
      nothing else: the multiset of entries loses one copy of `x`. */
  lemma {:induction false} RemoveLastMultiset<T>(s: seq<T>, x: T)
    ensures multiset(RemoveLast(s, x)) == multiset(s) - multiset{x}
  {
    if |s| > 0 {
      var init, last := s[..|s| - 1], s[|s| - 1];
      assert s == init + [last];
      if last != x {
        RemoveLastMultiset(init, x);
        assert RemoveLast(s, x) == RemoveLast(init, x) + [last];
      }
    }
  }

  /** An entry subscribed at most once is gone after one `-=`; every other
      entry keeps its number of occurrences. */
  lemma RemoveLastGone<T>(s: seq<T>, x: T)
    requires multiset(s)[x] <= 1
    ensures x !in RemoveLast(s, x)
    ensures forall y :: y != x ==> multiset(RemoveLast(s, x))[y] == multiset(s)[y]
  {
    RemoveLastMultiset(s, x);
    assert multiset(RemoveLast(s, x))[x] == 0;
  }

  /** The entries of `s` that are distinct from each other. */
  predicate Distinct<T(==)>(s: seq<T>)
  {
    forall i, j :: 0 <= i < j < |s| ==> s[i] != s[j]
  }

  /** A list without repeated entries has at most one copy of each value. */
  lemma {:induction false} DistinctCount<T>(s: seq<T>, x: T)
    requires Distinct(s)
    ensures multiset(s)[x] <= 1
  {
    if |s| > 0 {
      var init, last := s[..|s| - 1], s[|s| - 1];
      assert s == init + [last];
      assert Distinct(init);
      DistinctCount(init, x);
      if last == x {
        assert x !in init by {
          forall k | 0 <= k < |init| ensures init[k] != x {
            assert s[k] != s[|s| - 1];
          }
        }
      }
    }
  }

  /** `-=` never adds an entry. */
  lemma RemoveLastSubset<T>(s: seq<T>, x: T)
    ensures forall y :: y in RemoveLast(s, x) ==> y in s
  {
    RemoveLastMultiset(s, x);
    forall y | y in RemoveLast(s, x) ensures y in s {
      assert y in multiset(RemoveLast(s, x));
    }
  }

  /** Removing one entry from a list without repeats leaves a list without
      repeats. */
  lemma RemoveLastDistinct<T>(s: seq<T>, x: T)
    requires Distinct(s)
    ensures Distinct(RemoveLast(s, x))
  {
    if x in s {
      var i := LastIndexOf(s, x);
      var r := RemoveLast(s, x);
      RemoveLastSplice(s, x);
      forall a, b | 0 <= a < b < |r| ensures r[a] != r[b] {
        var a' := if a < i then a else a + 1;
        var b' := if b < i then b else b + 1;
        assert r[a] == s[a'] && r[b] == s[b'];
      }
    }
  }
}
