/** The C library's qsort, as far as its callers may rely on it: some ordering of the
    same elements.  Equal elements may come out in any order. */
module Sorting {

  ghost predicate Ordering<T(!new)>(le: (T, T) -> bool) {
    && (forall x, y :: le(x, y) || le(y, x))
    && (forall x, y, z :: le(x, y) && le(y, z) ==> le(x, z))
  }

  ghost predicate SortedBy<T>(s: seq<T>, le: (T, T) -> bool) {
    forall i, j | 0 <= i < j < |s| :: le(s[i], s[j])
  }

  lemma InsertSorted<T>(s: seq<T>, le: (T, T) -> bool, x: T, k: nat)
    requires SortedBy(s, le) && k <= |s|
    requires forall i | 0 <= i < k :: le(s[i], x)
    requires forall i | k <= i < |s| :: le(x, s[i])
    ensures SortedBy(s[..k] + [x] + s[k..], le)
    ensures multiset(s[..k] + [x] + s[k..]) == multiset(s) + multiset{x}
  {
    assert s == s[..k] + s[k..];
  }

  method QSort<T(!new)>(s: seq<T>, le: (T, T) -> bool) returns (r: seq<T>)
    requires Ordering(le)
    ensures SortedBy(r, le) && multiset(r) == multiset(s)
  {
    r := [];
    for i := 0 to |s|
      invariant SortedBy(r, le) && multiset(r) == multiset(s[..i])
    {
      var x, k := s[i], 0;
      while k < |r| && le(r[k], x)
        invariant k <= |r| && forall j | 0 <= j < k :: le(r[j], x)
      {
        k := k + 1;
      }
      assert forall j | k <= j < |r| :: le(x, r[j]) by {
        if k < |r| { assert le(x, r[k]); }
      }
      InsertSorted(r, le, x, k);
      assert s[..i + 1] == s[..i] + [x];
      r := r[..k] + [x] + r[k..];
    }
    assert s[..|s|] == s;
  }

  /** Sorting loses and invents no element. */
  lemma SameMembers<T>(s: seq<T>, t: seq<T>)
    requires multiset(s) == multiset(t)
    ensures |s| == |t| && forall x :: x in s <==> x in t
  {
    assert |multiset(s)| == |s| && |multiset(t)| == |t|;
    forall x
      ensures x in s <==> x in t
    {
      assert x in s <==> x in multiset(s);
    }
  }
}
