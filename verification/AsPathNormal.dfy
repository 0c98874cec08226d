/** The in-place operations of bgpd/bgp_aspath.c on segment lists. */
module AsPathNormal {
  import opened SortedSets
  import opened AsSegments
  import opened Sorting

  predicate Ascending(x: ASN, y: ASN) { x <= y }

  /** A sorted sequence without its repetitions. */
  function Weeded(s: seq<ASN>): seq<ASN> {
    if |s| <= 1 then s
    else
      var w := Weeded(s[..|s| - 1]);
      if s[|s| - 2] == s[|s| - 1] then w else w + [s[|s| - 1]]
  }

  lemma {:induction false} WeededIsSet(s: seq<ASN>)
    requires SortedBy(s, Ascending)
    ensures Increasing(Weeded(s)) && Elems(Weeded(s)) == Elems(s)
    ensures s != [] ==> Weeded(s) != [] && Weeded(s)[|Weeded(s)| - 1] == s[|s| - 1]
  {
    if |s| > 1 {
      var t, x := s[..|s| - 1], s[|s| - 1];
      WeededIsSet(t);
      assert Ascending(t[|t| - 1], x);
      assert t[|t| - 1] in Elems(t);
      assert Elems(s) == Elems(t) + {x} by { assert s == t + [x]; }
      if t[|t| - 1] != x { assert Elems(Weeded(t) + [x]) == Elems(Weeded(t)) + {x}; }
    }
  }

  /** The loop of assegment_normalise that weeds out duplicates in place. */
  method Weed(sorted: seq<ASN>) returns (r: seq<ASN>)
    ensures r == Weeded(sorted)
  {
    var a, tail, i := sorted, 0, 1;
    while i < |a|
      invariant |a| == |sorted| && tail < i && (a != [] ==> i <= |a|)
      invariant forall j | i <= j < |a| :: a[j] == sorted[j]
      invariant a != [] ==> a[tail] == sorted[i - 1] && a[..tail + 1] == Weeded(sorted[..i])
    {
      assert sorted[..i + 1][..i] == sorted[..i];
      if a[tail] != a[i] {
        tail := tail + 1;
        a := a[tail := a[i]];
      }
      i := i + 1;
    }
    r := if |a| > 0 then a[..tail + 1] else a;
    assert a != [] ==> sorted[..i] == sorted;
  }

  /** The SET branch of assegment_normalise: qsort, then weed out duplicates. */
  method SortAndWeed(asns: seq<ASN>) returns (r: seq<ASN>)
    ensures r == SortedUnique(asns)
  {
    var a := QSort(asns, Ascending);
    SameMembers(asns, a);
    r := Weed(a);
    WeededIsSet(a);
    assert Elems(a) == Elems(asns);
    IncreasingUnique(r, SortedUnique(asns));
  }

  lemma MergeStep(a: seq<ASN>, b: seq<ASN>, rest: Path)
    ensures Normalise([Segment(AsSequence, a)] + ([Segment(AsSequence, b)] + rest))
         == Normalise([Segment(AsSequence, a + b)] + rest)
  {
    var sa, sb, sab := Segment(AsSequence, a), Segment(AsSequence, b), Segment(AsSequence, a + b);
    assert ([sa] + ([sb] + rest))[1..] == [sb] + rest && ([sb] + rest)[1..] == rest && ([sab] + rest)[1..] == rest;
    var n := Normalise(rest);
    if n != [] && n[0].kind == AsSequence { assert a + (b + n[0].asns) == a + b + n[0].asns; }
  }

  /** assegment_normalise walks the list once: `done` is the part behind the pinned
      segment, `next` the part after it. */
  method NormaliseSegments(head: Path) returns (done: Path)
    ensures done == Normalise(head)
  {
    done := [];
    var next := head;
    while next != []
      invariant Normalise(head) == done + Normalise(next)
      decreases |next|
    {
      var pin := next[0];
      ghost var at := next;
      next := next[1..];
      assert at == [pin] + next;
      if IsSet(pin.kind) {
        var asns := SortAndWeed(pin.asns);
        assert Canon(pin) == pin.(asns := asns);
        assert Normalise(at) == [pin.(asns := asns)] + Normalise(next);
        Associative(done, [pin.(asns := asns)], Normalise(next));
        pin := pin.(asns := asns);
      } else {
        while next != [] && pin.kind == next[0].kind == AsSequence
          invariant Normalise(head) == done + Normalise([pin] + next) && !IsSet(pin.kind) && |next| < |at|
          decreases |next|
        {
          MergeStep(pin.asns, next[0].asns, next[1..]);
          assert next == [next[0]] + next[1..];
          pin, next := pin.(asns := pin.asns + next[0].asns), next[1..];
        }
        NormaliseIsNormal(next);
        assert ([pin] + next)[1..] == next;
        assert Normalise([pin] + next) == [pin] + Normalise(next);
        Associative(done, [pin], Normalise(next));
      }
      done := done + [pin];
    }
  }

  // ---- Counting and comparing -------------------------------------------------

  /** Steps outside confederations. */
  function NumHops(hs: seq<Hop>): nat {
    if hs == [] then 0 else (if hs[0].One? || hs[0].SetOf? then 1 else 0) + NumHops(hs[1..])
  }

  /** Steps inside confederations; a confederation sequence counts all its members. */
  function NumConfeds(hs: seq<Hop>): nat {
    if hs == [] then 0
    else (match hs[0] case ConfedOne(r) => |r| case ConfedSetOf(_) => 1 case _ => 0) + NumConfeds(hs[1..])
  }

  lemma {:induction false} CountsAdd(a: seq<Hop>, b: seq<Hop>)
    ensures NumHops(a + b) == NumHops(a) + NumHops(b)
    ensures NumConfeds(a + b) == NumConfeds(a) + NumConfeds(b)
  {
    if a == [] {
      assert a + b == b;
    } else {
      CountsAdd(a[1..], b);
      assert (a + b)[1..] == a[1..] + b;
    }
  }

  lemma {:induction false} SequenceCounts(asns: seq<ASN>)
    ensures NumHops(SegHops(Segment(AsSequence, asns))) == |asns|
    ensures NumConfeds(SegHops(Segment(AsSequence, asns))) == 0
  {
    if asns != [] {
      SequenceCounts(asns[1..]);
      assert Ones(asns)[1..] == Ones(asns[1..]);
    }
  }

  lemma PrefixHops(p: Path, i: nat)
    requires i < |p|
    ensures Hops(p[..i + 1]) == Hops(p[..i]) + SegHops(p[i])
  {
    assert p[..i + 1] == p[..i] + [p[i]];
    HopsAppend(p[..i], [p[i]]);
  }

  /** aspath_count_hops and aspath_count_confeds: both depend only on what the path says,
      so normalising cannot change them. */
  method CountHopsAndConfeds(p: Path) returns (hops: nat, confeds: nat)
    ensures hops == NumHops(Hops(p)) && confeds == NumConfeds(Hops(p))
    ensures hops == NumHops(Hops(Normalise(p))) && confeds == NumConfeds(Hops(Normalise(p)))
  {
    hops, confeds := 0, 0;
    for i := 0 to |p|
      invariant hops == NumHops(Hops(p[..i])) && confeds == NumConfeds(Hops(p[..i]))
    {
      PrefixHops(p, i);
      CountsAdd(Hops(p[..i]), SegHops(p[i]));
      match p[i].kind {
        case AsSequence => SequenceCounts(p[i].asns); hops := hops + |p[i].asns|;
        case AsSet => hops := hops + 1;
        case ConfedSequence => confeds := confeds + |p[i].asns|;
        case ConfedSet => confeds := confeds + 1;
      }
    }
    assert p[..|p|] == p;
    NormalisePreservesHops(p);
  }

  /** aspath_cmp decides structural equality. */
  method AspathCmp(p: Path, q: Path) returns (same: bool)
    ensures same <==> p == q
  {
    var i := 0;
    while i < |p| || i < |q|
      invariant i <= |p| && i <= |q| && p[..i] == q[..i]
      decreases |p| - i
    {
      if i >= |p| || i >= |q| { return false; }
      if p[i].kind != q[i].kind { return false; }
      if |p[i].asns| != |q[i].asns| { return false; }
      for j := 0 to |p[i].asns|
        invariant p[i].asns[..j] == q[i].asns[..j]
      {
        if p[i].asns[j] != q[i].asns[j] { return false; }
      }
      assert p[i].asns == p[i].asns[..|p[i].asns|] == q[i].asns;
      assert p[..i + 1] == p[..i] + [p[i]] && q[..i + 1] == q[..i] + [q[i]];
      i := i + 1;
    }
    assert p[..i] == p && q[..i] == q;
    same := true;
  }
}
