/** BGP communities: arrays of 32-bit values, kept sorted without repetition, standing for
    sets (bgpd/bgp_community.c). */
module Community {
  import opened Options
  import opened SortedSets
  import opened Sorting

  // ---- One-pass inclusion -----------------------------------------------------------

  /** `small` can be read off `big` from left to right. */
  predicate Embeds(big: seq<u32>, small: seq<u32>) {
    if small == [] then true
    else if big == [] then false
    else if big[0] == small[0] then Embeds(big[1..], small[1..])
    else Embeds(big[1..], small)
  }

  lemma {:induction false} EmbedsNeedsRoom(big: seq<u32>, small: seq<u32>)
    requires |big| < |small|
    ensures !Embeds(big, small)
  {
    if big != [] { EmbedsNeedsRoom(big[1..], if big[0] == small[0] then small[1..] else small); }
  }

  lemma TailElems(s: seq<u32>)
    requires s != [] && Increasing(s)
    ensures Increasing(s[1..]) && Elems(s) == Elems(s[1..]) + {s[0]}
    ensures s[0] !in Elems(s[1..]) && forall x <- Elems(s) :: s[0] <= x
  {
    assert s == [s[0]] + s[1..];
    forall x <- Elems(s[1..])
      ensures s[0] < x
    {
      var k :| 0 <= k < |s[1..]| && s[1..][k] == x;
      assert s[k + 1] == x;
    }
  }

  /** On sorted values without repetition the one pass decides set inclusion. */
  lemma {:induction false} EmbedsIsSubset(big: seq<u32>, small: seq<u32>)
    requires Increasing(big) && Increasing(small)
    ensures Embeds(big, small) <==> Elems(small) <= Elems(big)
  {
    if small != [] {
      TailElems(small);
      if big != [] {
        TailElems(big);
        if big[0] == small[0] {
          EmbedsIsSubset(big[1..], small[1..]);
        } else {
          EmbedsIsSubset(big[1..], small);
          assert big[0] in Elems(big) && small[0] in Elems(small);
          assert Elems(small) <= Elems(big) ==> big[0] < small[0];
        }
      } else {
        assert small[0] in Elems(small);
      }
    }
  }

  /** community_match */
  method Match(com1: Option<seq<u32>>, com2: Option<seq<u32>>) returns (r: bool)
    ensures com1.None? || com2.None? ==> (r <==> com1.None? && com2.None?)
    ensures com1.Some? && com2.Some? ==> (r <==> Embeds(com1.value, com2.value))
    ensures com1.Some? && com2.Some? && Increasing(com1.value) && Increasing(com2.value) ==>
              (r <==> Elems(com2.value) <= Elems(com1.value))
  {
    if com1.None? && com2.None? { return true; }
    if com1.None? || com2.None? { return false; }
    var big, small := com1.value, com2.value;
    if Increasing(big) && Increasing(small) { EmbedsIsSubset(big, small); }
    if |big| < |small| {
      EmbedsNeedsRoom(big, small);
      return false;
    }
    var i, j := 0, 0;
    while i < |big| && j < |small|
      invariant 0 <= i <= |big| && 0 <= j <= |small|
      invariant Embeds(big, small) <==> Embeds(big[i..], small[j..])
    {
      assert big[i..][1..] == big[i + 1..] && small[j..][1..] == small[j + 1..];
      if big[i] == small[j] { j := j + 1; }
      i := i + 1;
    }
    r := j == |small|;
  }

  // ---- Deletion ---------------------------------------------------------------------

  /** The sequence without the first occurrence of `x`. */
  function Deleted(s: seq<u32>, x: u32): (r: seq<u32>)
    ensures |r| <= |s|
  {
    if s == [] then [] else if s[0] == x then s[1..] else [s[0]] + Deleted(s[1..], x)
  }

  lemma {:induction false} DeletedIsDifference(s: seq<u32>, x: u32)
    requires Increasing(s)
    ensures Increasing(Deleted(s, x)) && Elems(Deleted(s, x)) == Elems(s) - {x}
  {
    if s != [] {
      TailElems(s);
      DeletedIsDifference(s[1..], x);
      if s[0] != x { Cons(s[0], Deleted(s[1..], x)); }
    }
  }

  lemma {:induction false} DeletedAt(s: seq<u32>, x: u32, i: nat)
    requires i < |s| && s[i] == x && forall k | 0 <= k < i :: s[k] != x
    ensures Deleted(s, x) == s[..i] + s[i + 1..]
  {
    if i > 0 {
      DeletedAt(s[1..], x, i - 1);
      assert s[..i] == [s[0]] + s[1..][..i - 1] && s[1..][i..] == s[i + 1..];
    }
  }

  /** A list deleted from itself, from position `i` on: the list shrinks under the loop. */
  function SelfDiff(s: seq<u32>, i: nat): seq<u32>
    decreases |s| - i
  {
    if i < |s| then SelfDiff(Deleted(s, s[i]), i + 1) else s
  }

  function EverySecond(s: seq<u32>): seq<u32> {
    if |s| < 2 then [] else [s[1]] + EverySecond(s[2..])
  }

  lemma DropOne(s: seq<u32>, i: nat)
    requires i + 1 < |s|
    ensures var t := s[..i] + s[i + 1..];
            t[..i + 1] + EverySecond(t[i + 1..]) == s[..i] + EverySecond(s[i..])
  {
    var t, rest := s[..i] + s[i + 1..], EverySecond(s[i + 2..]);
    assert t[..i + 1] == s[..i] + [s[i + 1]] && t[i + 1..] == s[i + 2..];
    assert s[i..][2..] == s[i + 2..] && s[i..][1] == s[i + 1];
    assert (s[..i] + [s[i + 1]]) + rest == s[..i] + ([s[i + 1]] + rest);
  }

  lemma {:induction false} SelfDiffFrom(s: seq<u32>, i: nat)
    requires Increasing(s) && i <= |s|
    ensures SelfDiff(s, i) == s[..i] + EverySecond(s[i..])
    decreases |s| - i
  {
    if i == |s| {
      assert s[i..] == [] && s[..i] + [] == s;
    } else {
      DeletedAt(s, s[i], i);
      DeletedIsDifference(s, s[i]);
      var t := Deleted(s, s[i]);
      if i + 1 < |s| {
        SelfDiffFrom(t, i + 1);
        DropOne(s, i);
      } else {
        assert t == s[..i] && EverySecond(s[i..]) == [];
      }
    }
  }

  /** Deleting increasing values from themselves keeps every second one, so it leaves nothing,
      as the difference would, only if there is at most one. */
  lemma SelfDiffHalves(s: seq<u32>)
    requires Increasing(s)
    ensures SelfDiff(s, 0) == EverySecond(s)
    ensures SelfDiff(s, 0) == [] <==> |s| <= 1
  {
    SelfDiffFrom(s, 0);
    assert s[..0] == [] && s[0..] == s;
  }

  lemma {:induction false} DeletedAbsent(s: seq<u32>, x: u32)
    requires x !in s
    ensures Deleted(s, x) == s
  {
    if s != [] {
      DeletedAbsent(s[1..], x);
      assert s == [s[0]] + s[1..];
    }
  }

  function Diff(s: seq<u32>, xs: seq<u32>): seq<u32>
    decreases xs
  {
    if xs == [] then s else Diff(Deleted(s, xs[0]), xs[1..])
  }

  /** Deleting the values of one community from another is set difference. */
  lemma {:induction false} DiffIsDifference(s: seq<u32>, xs: seq<u32>)
    requires Increasing(s)
    ensures Increasing(Diff(s, xs)) && Elems(Diff(s, xs)) == Elems(s) - Elems(xs)
    decreases xs
  {
    if xs != [] {
      DeletedIsDifference(s, xs[0]);
      DiffIsDifference(Deleted(s, xs[0]), xs[1..]);
      assert xs == [xs[0]] + xs[1..];
      assert Elems(xs) == {xs[0]} + Elems(xs[1..]);
    }
  }

  class Com {
    var val: seq<u32>

    constructor (v: seq<u32>)
      ensures val == v
    {
      val := v;
    }

    /** community_include */
    method Include(v: u32) returns (r: bool)
      ensures r <==> v in val
    {
      for i := 0 to |val|
        invariant v !in val[..i]
      {
        if val[i] == v { return true; }
      }
      assert val[..|val|] == val;
      r := false;
    }

    /** community_add_val */
    method AddVal(v: u32)
      modifies this
      ensures val == old(val) + [v]
    {
      val := val + [v];
    }

    /** community_del_val: on sorted values, the value leaves the set. */
    method DelVal(v: u32)
      modifies this
      ensures val == Deleted(old(val), v)
    {
      var i := 0;
      while i < |val|
        invariant 0 <= i <= |val| && val == old(val) && forall k | 0 <= k < i :: val[k] != v
      {
        if val[i] == v {
          DeletedAt(val, v, i);
          val := val[..i] + val[i + 1..];
          return;
        }
        i := i + 1;
      }
      DeletedAbsent(val, v);
    }

    /** community_delete.  A community deleted from itself loses every second value. */
    method Delete(com2: Com)
      modifies this
      ensures com2 != this ==> val == Diff(old(val), com2.val)
      ensures com2 != this && Increasing(old(val)) ==> Increasing(val) && Elems(val) == Elems(old(val)) - Elems(com2.val)
      ensures com2 == this ==> val == SelfDiff(old(val), 0)
    {
      var i := 0;
      while i < |com2.val|
        invariant 0 <= i && (com2 != this ==> i <= |com2.val|)
        invariant com2 != this ==> Diff(val, com2.val[i..]) == Diff(old(val), com2.val)
        invariant com2 == this ==> SelfDiff(val, i) == SelfDiff(old(val), 0)
        decreases |com2.val| - i
      {
        assert com2.val[i..][1..] == com2.val[i + 1..];
        DelVal(com2.val[i]);
        i := i + 1;
      }
      if com2 != this && Increasing(old(val)) { DiffIsDifference(old(val), com2.val); }
    }

    /** community_merge */
    method Merge(com2: Com)
      modifies this
      ensures val == old(val) + old(com2.val)
    {
      val := val + com2.val;
    }

    /** community_uniq_sort: the same values, sorted and without repetition. */
    method UniqSort() returns (new_com: Com)
      ensures fresh(new_com) && Increasing(new_com.val) && Elems(new_com.val) == Elems(val)
      ensures new_com.val == SortedUnique(val)
    {
      new_com := new Com([]);
      for i := 0 to |val|
        invariant fresh(new_com) && Unrepeated(new_com.val) && Elems(new_com.val) == Elems(val[..i])
      {
        var present := new_com.Include(val[i]);
        assert val[..i + 1] == val[..i] + [val[i]];
        assert Elems(val[..i + 1]) == Elems(val[..i]) + {val[i]};
        if !present {
          assert Elems(new_com.val + [val[i]]) == Elems(new_com.val) + {val[i]};
          new_com.AddVal(val[i]);
        } else {
          assert val[i] in Elems(new_com.val);
        }
      }
      assert val[..|val|] == val;
      var sorted := QSort(new_com.val, LessEq);
      SameMembers(new_com.val, sorted);
      UnrepeatedSorted(new_com.val, sorted);
      assert Elems(sorted) == Elems(new_com.val);
      new_com.val := sorted;
      IncreasingUnique(sorted, SortedUnique(val));
    }

    /** community_cmp decides equality of the stored values, where either community may be
        missing; on sorted values without repetition, equality of the sets. */
    static method Cmp(com1: Com?, com2: Com?) returns (r: bool)
      ensures com1 == null || com2 == null ==> (r <==> com1 == com2)
      ensures com1 != null && com2 != null ==> (r <==> com1.val == com2.val)
      ensures com1 != null && com2 != null && Increasing(com1.val) && Increasing(com2.val) ==>
                (r <==> Elems(com1.val) == Elems(com2.val))
    {
      if com1 == null && com2 == null { return true; }
      if com1 == null || com2 == null { return false; }
      r := |com1.val| == |com2.val| && com1.val == com2.val;
      if Increasing(com1.val) && Increasing(com2.val) && Elems(com1.val) == Elems(com2.val) {
        IncreasingUnique(com1.val, com2.val);
      }
    }

    /** Merging and then sorting, as multipath aggregation does, is union. */
    method MergeUniq(com2: Com) returns (u: Com)
      modifies this
      ensures Increasing(u.val) && Elems(u.val) == Elems(old(val)) + Elems(old(com2.val))
    {
      Merge(com2);
      assert Elems(val) == Elems(old(val)) + Elems(old(com2.val));
      u := UniqSort();
    }
  }

  predicate LessEq(x: u32, y: u32) { x <= y }

  predicate Unrepeated(s: seq<u32>) { forall i, j | 0 <= i < j < |s| :: s[i] != s[j] }

  lemma UnrepeatedSorted(s: seq<u32>, t: seq<u32>)
    requires Unrepeated(s) && multiset(s) == multiset(t) && SortedBy(t, LessEq)
    ensures Increasing(t)
  {
    forall i, j | 0 <= i < j < |t|
      ensures t[i] < t[j]
    {
      assert LessEq(t[i], t[j]);
      if t[i] == t[j] {
        TwiceInSeq(t, i, j);
        OnceInSeq(s, t[i]);
        assert false;
      }
    }
  }

  lemma TwiceInSeq(t: seq<u32>, i: nat, j: nat)
    requires i < j < |t| && t[i] == t[j]
    ensures multiset(t)[t[i]] >= 2
  {
    assert t == t[..i] + [t[i]] + t[i + 1..j] + [t[j]] + t[j + 1..];
  }

  lemma {:induction false} OnceInSeq(s: seq<u32>, x: u32)
    requires Unrepeated(s)
    ensures multiset(s)[x] <= 1
  {
    if s != [] {
      assert s == [s[0]] + s[1..];
      OnceInSeq(s[1..], x);
      assert forall k | 0 <= k < |s| - 1 :: s[1..][k] == s[k + 1] != s[0];
      assert s[0] !in multiset(s[1..]);
    }
  }
}
