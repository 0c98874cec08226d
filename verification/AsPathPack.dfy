/** aspath_put on any path: the loop that packs AS_SEQUENCEs together, and exactly when what
    it writes is right. */
module AsPathPack {
  import opened Bytes
  import opened AsSegments
  import opened AsPathWire
  import opened AsPathPut

  /** ASSEGMENTS_PACKABLE */
  predicate Packable(s: Segment, t: Segment) {
    s.kind == t.kind == AsSequence && |s.asns| + |t.asns| <= AS_SEGMENT_MAX
  }

  /** Where the run of segments packed onto segment `i` ends, if it reaches `n`. */
  function RunEnd(p: Path, i: nat, n: nat): (e: nat)
    requires i < n <= |p|
    ensures n <= e <= |p| && (forall j | n <= j < e :: Packable(p[i], p[j]))
    ensures e < |p| ==> !Packable(p[i], p[e])
    decreases |p| - n
  {
    if n < |p| && Packable(p[i], p[n]) then RunEnd(p, i, n + 1) else n
  }

  function End(p: Path, i: nat): (e: nat)
    requires i < |p|
    ensures i < e <= |p|
  {
    RunEnd(p, i, i + 1)
  }

  /** All members, in order. */
  function Members(p: Path): seq<ASN> {
    if p == [] then [] else p[0].asns + Members(p[1..])
  }

  /** The bytes written for segment `i` and those packed onto it.  The length byte counts the
      segment itself and the last one packed. */
  function Record(p: Path, i: nat, use32: bool): seq<byte>
    requires i < |p|
  {
    var s, e := p[i], End(p, i);
    if e > i + 1 then
      [Code(AsSequence), |s.asns| + |p[e - 1].asns|] + PutAsns(s.asns + Members(p[i + 1..e]), use32)
    else if s.asns == [] then [Code(s.kind), 0]
    else PiecesWireable(s, 0); PutSegments(Pieces(s, 0), use32)
  }

  /** What is charged for them. */
  function Charge(p: Path, i: nat, use32: bool): nat
    requires i < |p|
  {
    Charged(|p[i].asns|, 0, use32) + DataSize(|Members(p[i + 1..End(p, i)])|, use32)
  }

  function PutAll(p: Path, i: nat, use32: bool): seq<byte>
    requires i <= |p|
    decreases |p| - i
  {
    if i == |p| then [] else Record(p, i, use32) + PutAll(p, End(p, i), use32)
  }

  function ChargeAll(p: Path, i: nat, use32: bool): nat
    requires i <= |p|
    decreases |p| - i
  {
    if i == |p| then 0 else Charge(p, i, use32) + ChargeAll(p, End(p, i), use32)
  }

  // ---- The method ---------------------------------------------------------------------

  lemma {:induction false} PutAsnsAppend(a: seq<ASN>, b: seq<ASN>, use32: bool)
    ensures PutAsns(a + b, use32) == PutAsns(a, use32) + PutAsns(b, use32)
  {
    if a == [] {
      assert a + b == b;
    } else {
      PutAsnsAppend(a[1..], b, use32);
      assert (a + b)[1..] == a[1..] + b;
      Associative(PutAsn(a[0], use32), PutAsns(a[1..], use32), PutAsns(b, use32));
    }
  }

  lemma {:induction false} MembersAppend(p: Path, s: Segment)
    ensures Members(p + [s]) == Members(p) + s.asns
  {
    if p == [] {
      assert [s][1..] == [] && s.asns + [] == s.asns;
    } else {
      MembersAppend(p[1..], s);
      assert (p + [s])[1..] == p[1..] + [s];
      Associative(p[0].asns, Members(p[1..]), s.asns);
    }
  }

  /** The bytes with `more` behind them and the byte at `at` set to `v`. */
  function Patched(s: seq<byte>, more: seq<byte>, at: nat, v: byte): seq<byte>
    requires at < |s|
  {
    (s + more)[at := v]
  }

  lemma PatchedMore(s: seq<byte>, more: seq<byte>, at: nat, v: byte, last: seq<byte>, w: byte)
    requires at < |s|
    ensures at < |Patched(s, more, at, v)| && Patched(Patched(s, more, at, v), last, at, w) == Patched(s, more + last, at, w)
    ensures Patched(s, [], at, s[at]) == s
  {
  }

  /** The segments up to `next` have been packed onto segment `i`, which made `s` of `s0`. */
  ghost predicate PackedUpTo(s0: seq<byte>, p: Path, i: nat, written: nat, lenp: nat, use32: bool, s: seq<byte>, next: nat, packed: nat)
    requires i < |p| && written <= |p[i].asns| && lenp < |s0|
  {
    && i < next <= |p| && packed == |Members(p[i + 1..next])|
    && (next == i + 1 ==> s == s0)
    && (next > i + 1 ==>
          && |p[i].asns| - written + |p[next - 1].asns| < 256
          && s == Patched(s0, PutAsns(Members(p[i + 1..next]), use32), lenp, |p[i].asns| - written + |p[next - 1].asns|))
  }

  lemma PackStep(s0: seq<byte>, p: Path, i: nat, written: nat, lenp: nat, use32: bool, s: seq<byte>, next: nat, packed: nat)
    requires i < |p| && written <= |p[i].asns| && lenp < |s0| && PackedUpTo(s0, p, i, written, lenp, use32, s, next, packed)
    requires next < |p| && Packable(p[i], p[next])
    ensures lenp < |s|
    ensures var s' := (s + PutAsns(p[next].asns, use32))[lenp := |p[i].asns| - written + |p[next].asns|];
            PackedUpTo(s0, p, i, written, lenp, use32, s', next + 1, packed + |p[next].asns|)
  {
    var run, last, w := p[i + 1..next], PutAsns(p[next].asns, use32), |p[i].asns| - written + |p[next].asns|;
    assert run + [p[next]] == p[i + 1..next + 1];
    MembersAppend(run, p[next]);
    PutAsnsAppend(Members(run), p[next].asns, use32);
    if next > i + 1 {
      PatchedMore(s0, PutAsns(Members(run), use32), lenp, |p[i].asns| - written + |p[next - 1].asns|, last, w);
    } else {
      assert [] + last == last;
    }
  }

  /** The packing loop of aspath_put: following AS_SEQUENCEs that fit are appended to the
      segment just written, whose length byte, at `lenp`, is overwritten each time. */
  method Pack(s0: seq<byte>, p: Path, i: nat, written: nat, lenp: nat, use32: bool)
    returns (s: seq<byte>, next: nat, packed: nat)
    requires i < |p| && written <= |p[i].asns| && lenp < |s0|
    ensures next == End(p, i) && PackedUpTo(s0, p, i, written, lenp, use32, s, next, packed)
  {
    s, next, packed := s0, i + 1, 0;
    while next < |p| && Packable(p[i], p[next])
      invariant PackedUpTo(s0, p, i, written, lenp, use32, s, next, packed) && RunEnd(p, i, next) == End(p, i)
    {
      PackStep(s0, p, i, written, lenp, use32, s, next, packed);
      s := s + PutAsns(p[next].asns, use32);
      s := s[lenp := |p[i].asns| - written + |p[next].asns|];
      packed := packed + |p[next].asns|;
      next := next + 1;
    }
  }

  /** A segment of at most 255 members is written as it stands. */
  lemma ShortRecord(s: Segment, use32: bool)
    requires 0 < |s.asns| <= AS_SEGMENT_MAX
    ensures Wireable(Pieces(s, 0)) && PutSegments(Pieces(s, 0), use32) == [Code(s.kind), |s.asns|] + PutAsns(s.asns, use32)
  {
    assert s.(asns := s.asns[0..]) == s;
    PiecesStep(s, 0, use32);
  }

  /** What the packing loop leaves of a record is the whole record. */
  lemma RecordPatched(p: Path, i: nat, use32: bool, s0: seq<byte>, out: seq<byte>, s: seq<byte>, packed: nat)
    requires i < |p| && End(p, i) > i + 1
    requires out == [Code(p[i].kind), |p[i].asns|] + PutAsns(p[i].asns, use32)
    requires PackedUpTo(s0 + out, p, i, 0, |s0| + 1, use32, s, End(p, i), packed)
    ensures s == s0 + Record(p, i, use32)
  {
    var more := Members(p[i + 1..End(p, i)]);
    assert Packable(p[i], p[i + 1]) && Packable(p[i], p[End(p, i) - 1]);
    var v := |p[i].asns| + |p[End(p, i) - 1].asns|;
    var a, b := PutAsns(p[i].asns, use32), PutAsns(more, use32);
    PutAsnsAppend(p[i].asns, more, use32);
    assert Record(p, i, use32) == [Code(AsSequence), v] + (a + b);
    PatchAt(s0, Code(AsSequence), |p[i].asns|, a, b, v);
  }

  lemma PatchAt(s0: seq<byte>, c: byte, n: byte, a: seq<byte>, b: seq<byte>, v: byte)
    ensures Patched(s0 + ([c, n] + a), b, |s0| + 1, v) == s0 + ([c, v] + (a + b))
  {
  }

  /** One round of the loop of aspath_put, for the segment at `i`. */
  method PutFrom(p: Path, i: nat, use32: bool, s0: seq<byte>) returns (s: seq<byte>, next: nat, bytes: nat)
    requires i < |p|
    ensures s == s0 + Record(p, i, use32) && next == End(p, i) && bytes == Charge(p, i, use32)
  {
    var out, written, charged := PutOwn(p[i], use32);
    var lenp := |s0| + |out| - Size(|p[i].asns| - written, use32) + 1;
    var packed;
    s, next, packed := Pack(s0 + out, p, i, written, lenp, use32);
    if next > i + 1 {
      assert Packable(p[i], p[i + 1]);
      RecordPatched(p, i, use32, s0, out, s, packed);
    }
    bytes := charged + Size(|p[i].asns| - written + packed, use32);
  }

  /** A segment by itself, which may be empty. */
  method PutOwn(seg: Segment, use32: bool) returns (out: seq<byte>, written: nat, charged: nat)
    ensures seg.asns == [] ==> out == [Code(seg.kind), 0]
    ensures seg.asns != [] ==> Wireable(Pieces(seg, 0)) && out == PutSegments(Pieces(seg, 0), use32)
    ensures |seg.asns| <= AS_SEGMENT_MAX ==> written == 0 && out == [Code(seg.kind), |seg.asns|] + PutAsns(seg.asns, use32)
    ensures written <= |seg.asns| && |out| >= Size(|seg.asns| - written, use32)
    ensures charged + Size(|seg.asns| - written, use32) == Charged(|seg.asns|, 0, use32)
  {
    out, written, charged := [Code(seg.kind), 0], 0, 0;
    if seg.asns != [] {
      out, written, charged := PutSplit(seg, use32);
      if |seg.asns| <= AS_SEGMENT_MAX { ShortRecord(seg, use32); }
    }
  }

  lemma RecordSize(p: Path, i: nat, use32: bool)
    requires i < |p|
    ensures |Record(p, i, use32)| >= Size(|p[i].asns|, use32)
  {
    if End(p, i) == i + 1 && p[i].asns != [] {
      PiecesWireable(p[i], 0);
      PiecesSize(p[i], 0, use32);
    }
  }

  /** aspath_put into a stream with `space` bytes left: whole records are written up to the
      first segment that by itself no longer fits. */
  method AspathPut(p: Path, use32: bool, space: nat) returns (s: seq<byte>, bytes: nat, ghost stop: nat)
    ensures p == [] || p[0].asns == [] ==> s == [] && bytes == 0
    ensures p != [] && p[0].asns != [] ==>
              && stop <= |p| && (stop < |p| ==> Size(|p[stop].asns|, use32) > space - |s|)
              && s + PutAll(p, stop, use32) == PutAll(p, 0, use32)
              && bytes + ChargeAll(p, stop, use32) == ChargeAll(p, 0, use32)
    ensures p != [] && p[0].asns != [] && |PutAll(p, 0, use32)| <= space ==>
              s == PutAll(p, 0, use32) && bytes == ChargeAll(p, 0, use32)
  {
    s, bytes, stop := [], 0, 0;
    if p == [] || p[0].asns == [] { return; }
    var i := 0;
    ghost var all := PutAll(p, 0, use32);
    while i < |p| && Size(|p[i].asns|, use32) <= space - |s|
      invariant i <= |p|
      invariant s + PutAll(p, i, use32) == all && bytes + ChargeAll(p, i, use32) == ChargeAll(p, 0, use32)
    {
      var n;
      ghost var was, rest := s, PutAll(p, End(p, i), use32);
      ghost var rec := Record(p, i, use32);
      s, i, n := PutFrom(p, i, use32, s);
      Associative(was, rec, rest);
      bytes := bytes + n;
    }
    stop := i;
    if i == |p| {
      assert s + [] == s;
    } else {
      RecordSize(p, i, use32);
    }
  }

  // ---- What is written ----------------------------------------------------------------

  function Joined(p: Path, i: nat): Segment
    requires i < |p|
  {
    p[i].(asns := p[i].asns + Members(p[i + 1..End(p, i)]))
  }

  /** The path with the packed segments joined. */
  function Packed(p: Path, i: nat): Path
    requires i <= |p|
    decreases |p| - i
  {
    if i == |p| then [] else [Joined(p, i)] + Packed(p, End(p, i))
  }

  /** At most one segment is packed onto any other. */
  predicate RightlyPacked(p: Path, i: nat)
    requires i <= |p|
    decreases |p| - i
  {
    i == |p| || (End(p, i) <= i + 2 && RightlyPacked(p, End(p, i)))
  }

  lemma {:induction false} MembersOfNonEmpty(p: Path)
    requires NoEmptySegment(p)
    ensures |Members(p)| >= |p| && (p != [] ==> |Members(p)| >= |p[|p| - 1].asns| + |p| - 1)
  {
    if p != [] {
      assert p[0] in p;
      MembersOfNonEmpty(p[1..]);
    }
  }

  lemma {:induction false} PackedNonEmpty(p: Path, i: nat)
    requires i <= |p| && NoEmptySegment(p)
    ensures NoEmptySegment(Packed(p, i))
    decreases |p| - i
  {
    if i < |p| {
      assert p[i] in p;
      PackedNonEmpty(p, End(p, i));
    }
  }

  /** A record with at most one packed segment is the joined segment as it should be written;
      one with more is too short, or has the wrong length byte. */
  lemma RecordIs(p: Path, i: nat, use32: bool)
    requires i < |p| && NoEmptySegment(p)
    ensures Joined(p, i).asns != [] && Wireable(Pieces(Joined(p, i), 0))
    ensures var r, w := Record(p, i, use32), PutSegments(Pieces(Joined(p, i), 0), use32);
            && |r| <= |w|
            && (End(p, i) <= i + 2 ==> r == w)
            && (End(p, i) > i + 2 ==> |r| < |w| || (2 <= |r| == |w| && r[1] != w[1]))
  {
    var s, e, j := p[i], End(p, i), Joined(p, i);
    assert s in p;
    PiecesWireable(j, 0);
    if e == i + 1 {
      assert Members(p[i + 1..e]) == [] && s.asns + [] == s.asns;
    } else {
      PackedRecordIs(p, i, use32);
    }
  }

  /** The last packed segment is all that was packed if and only if it is the only one. */
  lemma PackedMembers(p: Path, i: nat)
    requires i < |p| && NoEmptySegment(p) && End(p, i) > i + 1
    ensures var e := End(p, i);
            && Packable(p[i], p[e - 1])
            && (e == i + 2 ==> Members(p[i + 1..e]) == p[e - 1].asns)
            && (e > i + 2 ==> |Members(p[i + 1..e])| > |p[e - 1].asns|)
  {
    var e := End(p, i);
    var run := p[i + 1..e];
    assert run[|run| - 1] == p[e - 1];
    MembersOfNonEmpty(run);
    if e == i + 2 {
      assert run == [p[i + 1]] && run[1..] == [];
      assert Members(run) == p[i + 1].asns + Members(run[1..]) == p[i + 1].asns;
    }
  }

  lemma PackedRecordIs(p: Path, i: nat, use32: bool)
    requires i < |p| && NoEmptySegment(p) && End(p, i) > i + 1 && Wireable(Pieces(Joined(p, i), 0))
    ensures var r, w := Record(p, i, use32), PutSegments(Pieces(Joined(p, i), 0), use32);
            && |r| <= |w|
            && (End(p, i) == i + 2 ==> r == w)
            && (End(p, i) > i + 2 ==> |r| < |w| || (2 <= |r| == |w| && r[1] != w[1]))
  {
    var j := Joined(p, i);
    assert Packable(p[i], p[i + 1]) && p[i] in p;
    PackedMembers(p, i);
    if |j.asns| <= AS_SEGMENT_MAX {
      ShortRecord(j, use32);
    } else {
      LongPieces(j, use32);
    }
  }

  /** A segment that must be split takes a second header. */
  lemma LongPieces(s: Segment, use32: bool)
    requires |s.asns| > AS_SEGMENT_MAX && Wireable(Pieces(s, 0))
    ensures |PutSegments(Pieces(s, 0), use32)| > Size(|s.asns|, use32)
  {
    PiecesStep(s, 0, use32);
    PiecesWireable(s, AS_SEGMENT_MAX);
    PiecesSize(s, AS_SEGMENT_MAX, use32);
  }

  /** Any path of non-empty segments is written as the path with its packed segments joined if
      and only if at most one segment is packed onto any other. */
  lemma {:induction false} PackedRight(p: Path, i: nat, use32: bool)
    requires i <= |p| && NoEmptySegment(p)
    ensures NoEmptySegment(Packed(p, i)) && |PutAll(p, i, use32)| <= |Encode(Packed(p, i), use32)|
    ensures PutAll(p, i, use32) == Encode(Packed(p, i), use32) <==> RightlyPacked(p, i)
    decreases |p| - i
  {
    PackedNonEmpty(p, i);
    if i < |p| {
      var e := End(p, i);
      PackedRight(p, e, use32);
      RecordIs(p, i, use32);
      EncodeCons(Packed(p, i), use32);
      var r, w := Record(p, i, use32), PutSegments(Pieces(Joined(p, i), 0), use32);
      Cancel(r, PutAll(p, e, use32), w, Encode(Packed(p, e), use32));
    }
  }

  lemma Cancel(r: seq<byte>, y: seq<byte>, w: seq<byte>, f: seq<byte>)
    requires |r| <= |w| && |y| <= |f|
    ensures |r + y| <= |w + f|
    ensures r + y == w + f <==> r == w && y == f
  {
    if r + y == w + f {
      assert r == (r + y)[..|r|] && w == (w + f)[..|r|];
      assert y == (r + y)[|r|..] && f == (w + f)[|r|..];
    }
  }

  lemma {:induction false} MembersHops(p: Path)
    requires forall s <- p :: s.kind == AsSequence
    ensures Ones(Members(p)) == Hops(p)
  {
    if p != [] {
      assert p[0] in p;
      MembersHops(p[1..]);
      OnesAppend(p[0].asns, Members(p[1..]));
    }
  }

  lemma JoinedHops(p: Path, i: nat)
    requires i < |p|
    ensures SegHops(Joined(p, i)) == SegHops(p[i]) + Hops(p[i + 1..End(p, i)])
  {
    var run := p[i + 1..End(p, i)];
    if run == [] {
      assert p[i].asns + [] == p[i].asns;
    } else {
      assert Packable(p[i], p[i + 1]);
      MembersHops(run);
      OnesAppend(p[i].asns, Members(run));
    }
  }

  /** Joining packed segments does not change what the path says. */
  lemma {:induction false} PackedHops(p: Path, i: nat)
    requires i <= |p|
    ensures Hops(Packed(p, i)) == Hops(p[i..])
    decreases |p| - i
  {
    if i < |p| {
      var e := End(p, i);
      PackedHops(p, e);
      JoinedHops(p, i);
      HopsFrom(p, i, e);
      assert Packed(p, i)[1..] == Packed(p, e);
    }
  }

  lemma HopsFrom(p: Path, i: nat, e: nat)
    requires i < e <= |p|
    ensures Hops(p[i..]) == (SegHops(p[i]) + Hops(p[i + 1..e])) + Hops(p[e..])
  {
    assert p[i..][1..] == p[i + 1..e] + p[e..];
    HopsAppend(p[i + 1..e], p[e..]);
    Associative(SegHops(p[i]), Hops(p[i + 1..e]), Hops(p[e..]));
  }

  lemma NormalEnd(p: Path, i: nat)
    requires Normal(p) && i < |p|
    ensures End(p, i) == i + 1
  {
    if i + 1 < |p| { assert !(p[i].kind == AsSequence && p[i + 1].kind == AsSequence); }
  }

  lemma {:induction false} NormalPacksNothing(p: Path, i: nat)
    requires Normal(p) && i <= |p|
    ensures Packed(p, i) == p[i..] && RightlyPacked(p, i)
    decreases |p| - i
  {
    if i < |p| {
      NormalEnd(p, i);
      NormalPacksNothing(p, i + 1);
      NothingJoined(p, i, true);
    }
  }

  lemma {:induction false} NormalCharge(p: Path, i: nat, use32: bool)
    requires Normal(p) && i <= |p|
    ensures ChargeAll(p, i, use32) == ChargedPath(p[i..], use32)
    decreases |p| - i
  {
    if i < |p| {
      NormalEnd(p, i);
      NormalCharge(p, i + 1, use32);
      NothingJoined(p, i, use32);
      assert p[i..][1..] == p[i + 1..];
    }
  }

  lemma NothingJoined(p: Path, i: nat, use32: bool)
    requires i < |p| && End(p, i) == i + 1
    ensures Joined(p, i) == p[i] && Charge(p, i, use32) == Charged(|p[i].asns|, 0, use32)
  {
    assert p[i + 1..i + 1] == [] && p[i].asns + [] == p[i].asns;
  }

  /** A normal path is written as its split form. */
  lemma NormalIsPutAsIs(p: Path, use32: bool)
    requires Normal(p) && NoEmptySegment(p)
    ensures PutAll(p, 0, use32) == Encode(p, use32) && ChargeAll(p, 0, use32) == ChargedPath(p, use32)
  {
    NormalPacksNothing(p, 0);
    NormalCharge(p, 0, use32);
    PackedRight(p, 0, use32);
    assert p[0..] == p;
  }

  /** Three AS_SEQUENCEs of one member: the length byte says two. */
  lemma ThreeAreMiscounted(a: ASN, b: ASN, c: ASN)
    ensures var p := [Segment(AsSequence, [a]), Segment(AsSequence, [b]), Segment(AsSequence, [c])];
            !RightlyPacked(p, 0) && |PutAll(p, 0, true)| == Size(3, true) && PutAll(p, 0, true)[1] == 2
  {
    var p := [Segment(AsSequence, [a]), Segment(AsSequence, [b]), Segment(AsSequence, [c])];
    assert RunEnd(p, 0, 2) == RunEnd(p, 0, 3) == 3;
    assert End(p, 0) == 3;
    assert p[1..3] == [p[1]] + [p[2]];
    assert Members([p[1]]) == [b] + Members([p[1]][1..]) == [b] + [] == [b];
    MembersAppend([p[1]], p[2]);
    assert |Members(p[1..3])| == 2;
    assert PutAll(p, 3, true) == [];
  }
}
