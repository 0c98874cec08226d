/** Sorted sequences of 32-bit numbers standing for sets: members of AS_SETs and
    community values. */
module SortedSets {

  type u32 = x: int | 0 <= x < 0x1_0000_0000

  predicate Increasing(s: seq<u32>) {
    forall i, j | 0 <= i < j < |s| :: s[i] < s[j]
  }

  function Elems(s: seq<u32>): set<u32> { set x | x in s }

  function Insert(x: u32, s: seq<u32>): seq<u32> {
    if s == [] || x < s[0] then [x] + s
    else if x == s[0] then s
    else [s[0]] + Insert(x, s[1..])
  }

  lemma Cons(x: u32, s: seq<u32>)
    requires Increasing(s)
    ensures Elems([x] + s) == Elems(s) + {x}
    ensures (forall y <- Elems(s) :: x < y) ==> Increasing([x] + s)
  {
    var t := [x] + s;
    if forall y <- Elems(s) :: x < y {
      forall i, j | 0 <= i < j < |t|
        ensures t[i] < t[j]
      {
        assert t[j] == s[j - 1] && s[j - 1] in Elems(s);
        if i > 0 { assert t[i] == s[i - 1]; }
      }
    }
  }

  lemma ConsBehind(x: u32, h: u32, t: seq<u32>, r: seq<u32>)
    requires Increasing([h] + t) && Increasing(r) && Elems(r) == Elems(t) + {x} && h < x
    ensures Increasing([h] + r) && Elems([h] + r) == Elems([h] + t) + {x}
  {
    var s := [h] + t;
    forall y <- Elems(t)
      ensures h < y
    {
      var k :| 0 <= k < |t| && t[k] == y;
      assert s[k + 1] == y && s[0] == h;
    }
    Cons(h, r);
  }

  lemma {:induction false} InsertKeepsOrder(x: u32, s: seq<u32>)
    requires Increasing(s)
    ensures Increasing(Insert(x, s)) && Elems(Insert(x, s)) == Elems(s) + {x}
  {
    if s == [] || x < s[0] {
      Cons(x, s);
    } else if x == s[0] {
      assert s[0] in Elems(s);
    } else {
      assert s == [s[0]] + s[1..];
      InsertKeepsOrder(x, s[1..]);
      ConsBehind(x, s[0], s[1..], Insert(x, s[1..]));
    }
  }

  /** The strictly increasing sequence with the members of `s`. */
  function SortedUnique(s: seq<u32>): (r: seq<u32>)
    ensures Increasing(r) && Elems(r) == Elems(s)
  {
    if s == [] then []
    else
      var t := SortedUnique(s[1..]);
      InsertKeepsOrder(s[0], t);
      assert s == [s[0]] + s[1..];
      Insert(s[0], t)
  }

  /** A set has only one increasing listing. */
  lemma {:induction false} IncreasingUnique(s: seq<u32>, t: seq<u32>)
    requires Increasing(s) && Increasing(t) && Elems(s) == Elems(t)
    ensures s == t
  {
    assert s != [] ==> s[0] in Elems(s);
    assert t != [] ==> t[0] in Elems(t);
    if s != [] {
      assert s == [s[0]] + s[1..] && t == [t[0]] + t[1..];
      assert s[0] == t[0];
      assert Elems(s[1..]) == Elems(s) - {s[0]};
      assert Elems(t[1..]) == Elems(t) - {t[0]};
      IncreasingUnique(s[1..], t[1..]);
    }
  }

  ghost function Listing(s: set<u32>): (r: seq<u32>)
    ensures Increasing(r) && Elems(r) == s
  {
    ListingExists(s);
    var r: seq<u32> :| Increasing(r) && Elems(r) == s;
    r
  }

  lemma {:induction false} ListingExists(s: set<u32>)
    ensures exists r: seq<u32> :: Increasing(r) && Elems(r) == s
  {
    if s == {} {
      assert Increasing([]) && Elems([]) == s;
    } else {
      var x :| x in s;
      ListingExists(s - {x});
      var t: seq<u32> :| Increasing(t) && Elems(t) == s - {x};
      InsertKeepsOrder(x, t);
      assert Elems(Insert(x, t)) == s;
    }
  }
}
