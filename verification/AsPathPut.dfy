/** aspath_put: writing a path, with overlong segments split at 255 members, and exactly
    when the parser gets the same path back. */
module AsPathPut {
  import opened Options
  import opened Bytes
  import opened AsSegments
  import opened AsPathWire

  predicate NoEmptySegment(p: Path) { forall s <- p :: s.asns != [] }

  /** The pieces written for a segment once `written` members have been written.  Every
      full piece repeats the first 255 members: the write does not advance with `written`. */
  function Pieces(s: Segment, written: nat): Path
    requires written <= |s.asns|
    decreases |s.asns| - written
  {
    if |s.asns| - written > AS_SEGMENT_MAX
    then [s.(asns := s.asns[..AS_SEGMENT_MAX])] + Pieces(s, written + AS_SEGMENT_MAX)
    else [s.(asns := s.asns[written..])]
  }

  function Split(p: Path): Path {
    if p == [] then [] else Pieces(p[0], 0) + Split(p[1..])
  }

  lemma {:induction false} PiecesWireable(s: Segment, written: nat)
    requires written < |s.asns|
    ensures Wireable(Pieces(s, written))
    decreases |s.asns| - written
  {
    if |s.asns| - written > AS_SEGMENT_MAX { PiecesWireable(s, written + AS_SEGMENT_MAX); }
  }

  lemma {:induction false} SplitWireable(p: Path)
    requires NoEmptySegment(p)
    ensures Wireable(Split(p))
  {
    if p != [] {
      PiecesWireable(p[0], 0);
      SplitWireable(p[1..]);
    }
  }

  /** The bytes of a path of non-empty segments. */
  function Encode(p: Path, use32: bool): seq<byte>
    requires NoEmptySegment(p)
  {
    SplitWireable(p);
    PutSegments(Split(p), use32)
  }

  /** The count aspath_put adds up for one segment: each full piece is charged for all
      members written so far. */
  function Charged(n: nat, written: nat, use32: bool): nat
    requires written <= n
    decreases n - written
  {
    if n - written > AS_SEGMENT_MAX
    then Size(written + AS_SEGMENT_MAX, use32) + Charged(n, written + AS_SEGMENT_MAX, use32)
    else Size(n - written, use32)
  }

  function ChargedPath(p: Path, use32: bool): nat {
    if p == [] then 0 else Charged(|p[0].asns|, 0, use32) + ChargedPath(p[1..], use32)
  }

  lemma {:induction false} PutSegmentsAppend(p: Path, q: Path, use32: bool)
    requires Wireable(p) && Wireable(q)
    ensures Wireable(p + q)
    ensures PutSegments(p + q, use32) == PutSegments(p, use32) + PutSegments(q, use32)
  {
    if p == [] {
      assert p + q == q;
    } else {
      PutSegmentsAppend(p[1..], q, use32);
      assert (p + q)[1..] == p[1..] + q && (p + q)[0] == p[0];
      Associative(PutSegment(p[0], use32), PutSegments(p[1..], use32), PutSegments(q, use32));
    }
  }

  lemma {:induction false} PiecesSize(s: Segment, written: nat, use32: bool)
    requires written < |s.asns| && Wireable(Pieces(s, written))
    ensures |PutSegments(Pieces(s, written), use32)| >= Size(|s.asns| - written, use32)
    ensures Charged(|s.asns|, written, use32) >= |PutSegments(Pieces(s, written), use32)|
    ensures written == 0 ==> (Charged(|s.asns|, 0, use32) == |PutSegments(Pieces(s, 0), use32)| <==> |s.asns| <= 510)
    ensures written >= 255 && |s.asns| - written > 255 ==>
              Charged(|s.asns|, written, use32) > |PutSegments(Pieces(s, written), use32)|
    decreases |s.asns| - written
  {
    if |s.asns| - written > AS_SEGMENT_MAX {
      var first, more := s.(asns := s.asns[..AS_SEGMENT_MAX]), Pieces(s, written + AS_SEGMENT_MAX);
      PiecesWireable(s, written + AS_SEGMENT_MAX);
      assert Pieces(s, written)[1..] == more;
      PiecesSize(s, written + AS_SEGMENT_MAX, use32);
    }
  }

  lemma {:induction false} EncodeCons(p: Path, use32: bool)
    requires NoEmptySegment(p) && p != []
    ensures Wireable(Pieces(p[0], 0))
    ensures Encode(p, use32) == PutSegments(Pieces(p[0], 0), use32) + Encode(p[1..], use32)
  {
    PiecesWireable(p[0], 0);
    SplitWireable(p[1..]);
    PutSegmentsAppend(Pieces(p[0], 0), Split(p[1..]), use32);
  }

  /** The returned count is the number of bytes written exactly when no segment has more
      than 510 members; otherwise it is too large. */
  lemma {:induction false} CountIsBytes(p: Path, use32: bool)
    requires NoEmptySegment(p)
    ensures ChargedPath(p, use32) >= |Encode(p, use32)|
    ensures ChargedPath(p, use32) == |Encode(p, use32)| <==> forall s <- p :: |s.asns| <= 510
  {
    if p != [] {
      EncodeCons(p, use32);
      PiecesSize(p[0], 0, use32);
      CountIsBytes(p[1..], use32);
      assert p == [p[0]] + p[1..];
    }
  }

  // ---- One segment ---------------------------------------------------------------

  lemma PiecesStep(seg: Segment, written: nat, use32: bool)
    requires written < |seg.asns|
    ensures Wireable(Pieces(seg, written))
    ensures |seg.asns| - written > AS_SEGMENT_MAX ==>
              && Wireable(Pieces(seg, written + AS_SEGMENT_MAX))
              && PutSegments(Pieces(seg, written), use32)
              == PutSegment(seg.(asns := seg.asns[..AS_SEGMENT_MAX]), use32) + PutSegments(Pieces(seg, written + AS_SEGMENT_MAX), use32)
    ensures |seg.asns| - written <= AS_SEGMENT_MAX ==>
              PutSegments(Pieces(seg, written), use32) == PutSegment(seg.(asns := seg.asns[written..]), use32)
  {
    PiecesWireable(seg, written);
    if |seg.asns| - written > AS_SEGMENT_MAX {
      PiecesWireable(seg, written + AS_SEGMENT_MAX);
      assert Pieces(seg, written)[1..] == Pieces(seg, written + AS_SEGMENT_MAX);
    } else {
      var last := seg.(asns := seg.asns[written..]);
      assert PutSegments([last], use32) == PutSegment(last, use32) + PutSegments([], use32);
    }
  }

  /** The first `written` members have been written to `out`, of `want`, and charged. */
  ghost predicate Splitting(seg: Segment, use32: bool, out: seq<byte>, written: nat, charged: nat, want: seq<byte>) {
    && written < |seg.asns| && Wireable(Pieces(seg, written)) && (|seg.asns| <= AS_SEGMENT_MAX ==> written == 0)
    && out + PutSegments(Pieces(seg, written), use32) == want
    && charged + Charged(|seg.asns|, written, use32) == Charged(|seg.asns|, 0, use32)
  }

  lemma SplittingStep(seg: Segment, use32: bool, out: seq<byte>, written: nat, charged: nat, want: seq<byte>)
    requires Splitting(seg, use32, out, written, charged, want) && |seg.asns| - written > AS_SEGMENT_MAX
    ensures var written' := written + AS_SEGMENT_MAX;
            Splitting(seg, use32, out + PutSegment(seg.(asns := seg.asns[..AS_SEGMENT_MAX]), use32), written',
                      charged + Size(written', use32), want)
  {
    PiecesStep(seg, written, use32);
    Associative(out, PutSegment(seg.(asns := seg.asns[..AS_SEGMENT_MAX]), use32),
                PutSegments(Pieces(seg, written + AS_SEGMENT_MAX), use32));
  }

  /** One segment of aspath_put: full pieces while more than 255 members remain, then the rest. */
  method PutSplit(seg: Segment, use32: bool) returns (out: seq<byte>, written: nat, charged: nat)
    requires seg.asns != []
    ensures Wireable(Pieces(seg, 0)) && out == PutSegments(Pieces(seg, 0), use32)
    ensures written < |seg.asns| <= written + AS_SEGMENT_MAX && (|seg.asns| <= AS_SEGMENT_MAX ==> written == 0)
    ensures charged + Size(|seg.asns| - written, use32) == Charged(|seg.asns|, 0, use32)
    ensures |out| >= Size(|seg.asns| - written, use32)
  {
    out, written, charged := [], 0, 0;
    PiecesWireable(seg, 0);
    ghost var want := PutSegments(Pieces(seg, 0), use32);
    assert out + want == want;
    while |seg.asns| - written > AS_SEGMENT_MAX
      invariant Splitting(seg, use32, out, written, charged, want)
    {
      SplittingStep(seg, use32, out, written, charged, want);
      out := out + PutSegment(seg.(asns := seg.asns[..AS_SEGMENT_MAX]), use32);
      written := written + AS_SEGMENT_MAX;
      charged := charged + Size(written, use32);
    }
    PiecesStep(seg, written, use32);
    out := out + PutSegment(seg.(asns := seg.asns[written..]), use32);
  }

  // ---- Round trip ----------------------------------------------------------------

  /** What the peer's parser makes of the written bytes, for any path of non-empty segments. */
  lemma ParseOfEncode(p: Path, use32: bool)
    requires NoEmptySegment(p)
    ensures Parsed(Encode(p, use32), |Encode(p, use32)|, use32) == Some(Normalise(TransPath(Split(p), use32)))
  {
    SplitWireable(p);
    var b := Encode(p, use32);
    GetPutSegments(Split(p), use32);
    EncodedSize(Split(p), use32);
    assert b[..|b|] == b;
    if b == [] { assert Split(p) == [] && TransPath(Split(p), use32) == []; }
  }

  lemma {:induction false} EncodedSize(p: Path, use32: bool)
    requires Wireable(p)
    ensures |PutSegments(p, use32)| % 2 == 0 && (p != [] ==> |PutSegments(p, use32)| >= 4)
  {
    if p != [] {
      EncodedSize(p[1..], use32);
      var n, m := |p[0].asns|, |PutSegments(p[1..], use32)| / 2;
      assert |PutSegments(p, use32)| == 2 * (1 + (if use32 then 2 * n else n) + m);
    }
  }

  /** From `written` on, every full piece of 255 members equals the first one. */
  predicate RepeatsFirst(s: seq<ASN>, written: nat)
    requires written <= |s|
    decreases |s| - written
  {
    |s| - written > AS_SEGMENT_MAX ==>
      s[written..written + AS_SEGMENT_MAX] == s[..AS_SEGMENT_MAX] && RepeatsFirst(s, written + AS_SEGMENT_MAX)
  }

  /** A segment that is written back unharmed: it needs no split, or it is an AS_SEQUENCE
      whose full pieces are all alike (so any AS_SEQUENCE of up to 510 members). */
  predicate SurvivesSplit(s: Segment) {
    |s.asns| <= AS_SEGMENT_MAX || (s.kind == AsSequence && RepeatsFirst(s.asns, 0))
  }

  /** Every segment of at most 255 members survives, and every AS_SEQUENCE of at most 510. */
  lemma ShortSequenceSurvives(s: Segment)
    requires |s.asns| <= 255 || (s.kind == AsSequence && |s.asns| <= 510)
    ensures SurvivesSplit(s)
  {
  }

  lemma {:induction false} SequencePieces(s: Segment, written: nat)
    requires s.kind == AsSequence && written < |s.asns|
    ensures |Hops(Pieces(s, written))| == |s.asns| - written
    ensures Hops(Pieces(s, written)) == Ones(s.asns[written..]) <==> RepeatsFirst(s.asns, written)
    decreases |s.asns| - written
  {
    var a := s.asns[written..];
    if |a| <= AS_SEGMENT_MAX {
      assert Hops([s.(asns := a)]) == Ones(a);
    } else {
      var w := written + AS_SEGMENT_MAX;
      var first, mine, tail := s.asns[..AS_SEGMENT_MAX], s.asns[written..w], s.asns[w..];
      SequencePieces(s, w);
      assert Pieces(s, written)[1..] == Pieces(s, w);
      var h := Hops(Pieces(s, w));
      assert Hops(Pieces(s, written)) == Ones(first) + h;
      assert a == mine + tail;
      OnesAppend(mine, tail);
      if Ones(first) + h == Ones(mine) + Ones(tail) {
        assert Ones(first) == (Ones(first) + h)[..AS_SEGMENT_MAX] == Ones(mine);
        assert h == (Ones(first) + h)[AS_SEGMENT_MAX..] == Ones(tail);
        OnesInjective(first, mine);
      }
    }
  }

  lemma {:induction false} OtherPieces(s: Segment, written: nat)
    requires s.kind != AsSequence && written < |s.asns|
    ensures |Hops(Pieces(s, written))| >= 1
    ensures |s.asns| - written > AS_SEGMENT_MAX ==> |Hops(Pieces(s, written))| >= 2
    decreases |s.asns| - written
  {
    if |s.asns| - written > AS_SEGMENT_MAX {
      OtherPieces(s, written + AS_SEGMENT_MAX);
      assert Pieces(s, written)[1..] == Pieces(s, written + AS_SEGMENT_MAX);
    }
  }

  /** Splitting one segment never shortens what it says, and leaves it alone exactly when
      the segment survives. */
  lemma PiecesHops(s: Segment)
    requires s.asns != []
    ensures |Hops(Pieces(s, 0))| >= |SegHops(s)|
    ensures Hops(Pieces(s, 0)) == SegHops(s) <==> SurvivesSplit(s)
  {
    assert s.asns[0..] == s.asns;
    if s.kind == AsSequence {
      SequencePieces(s, 0);
    } else {
      OtherPieces(s, 0);
      if |s.asns| <= AS_SEGMENT_MAX { assert Hops([s]) == SegHops(s); }
    }
  }

  lemma {:induction false} SplitHops(p: Path)
    requires NoEmptySegment(p)
    ensures |Hops(Split(p))| >= |Hops(p)|
    ensures Hops(Split(p)) == Hops(p) <==> forall s <- p :: SurvivesSplit(s)
  {
    if p != [] {
      var x, y, xs, ys := SegHops(p[0]), Hops(Pieces(p[0], 0)), Hops(p[1..]), Hops(Split(p[1..]));
      HopsAppend(Pieces(p[0], 0), Split(p[1..]));
      PiecesHops(p[0]);
      SplitHops(p[1..]);
      assert p == [p[0]] + p[1..];
      if y + ys == x + xs {
        assert |y + ys| == |x + xs|;
        assert y == (y + ys)[..|x|] == x;
        assert ys == (y + ys)[|x|..] == xs;
      }
    }
  }

  predicate Fits16(p: Path) { forall s <- p :: forall a <- s.asns :: a <= BGP_AS_MAX }

  lemma TransFits(p: Path, use32: bool)
    requires use32 || Fits16(p)
    ensures TransPath(p, use32) == p
  {
    forall i | 0 <= i < |p|
      ensures TransPath(p, use32)[i] == p[i]
    {
      assert p[i] in p;
      assert forall j | 0 <= j < |p[i].asns| :: p[i].asns[j] in p[i].asns;
      assert TransAll(p[i].asns, use32) == p[i].asns;
    }
  }

  lemma {:induction false} PiecesMembers(s: Segment, written: nat)
    requires written <= |s.asns|
    ensures forall t <- Pieces(s, written) :: t.kind == s.kind && forall a <- t.asns :: a in s.asns
    decreases |s.asns| - written
  {
    if |s.asns| - written > AS_SEGMENT_MAX { PiecesMembers(s, written + AS_SEGMENT_MAX); }
  }

  lemma {:induction false} SplitFits(p: Path)
    requires Fits16(p)
    ensures Fits16(Split(p))
  {
    if p != [] {
      PiecesMembers(p[0], 0);
      SplitFits(p[1..]);
      assert p[0] in p;
    }
  }

  /** Wire round trip: a normal path of non-empty segments (of 16-bit numbers in 2-byte
      mode) comes back from the parser unchanged if and only if each of its segments
      survives splitting. */
  lemma WireRoundTrip(p: Path, use32: bool)
    requires Normal(p) && NoEmptySegment(p) && (use32 || Fits16(p))
    ensures Parsed(Encode(p, use32), |Encode(p, use32)|, use32) == Some(p) <==> forall s <- p :: SurvivesSplit(s)
  {
    ParseOfEncode(p, use32);
    if !use32 { SplitFits(p); }
    TransFits(Split(p), use32);
    SplitWireable(p);
    NormaliseIdempotent(p);
    assert NoEmptySequence(Split(p)) && NoEmptySequence(p);
    NormaliseIsCanonical(Split(p), p);
    SplitHops(p);
  }

  /** `n` different AS numbers. */
  function Numbered(n: nat): (s: seq<ASN>)
    requires n < 1000
    ensures |s| == n
  {
    seq(n, i requires 0 <= i < n => i + 1)
  }

  /** An AS_SET of 256 members does not come back: it is written as two sets. */
  lemma BigSetIsLost(use32: bool)
    ensures var p := [Segment(AsSet, Numbered(256))];
            && Normal(p) && NoEmptySegment(p)
            && Parsed(Encode(p, use32), |Encode(p, use32)|, use32) != Some(p)
  {
    var p := [Segment(AsSet, Numbered(256))];
    assert p[0] in p && !SurvivesSplit(p[0]);
    WireRoundTrip(p, use32);
  }

  /** An AS_SEQUENCE of 511 members does not come back, since its second piece repeats the
      first, and the count returned for it is not the number of bytes written. */
  lemma LongSequenceIsLost(use32: bool)
    ensures var p := [Segment(AsSequence, Numbered(511))];
            && Normal(p) && NoEmptySegment(p)
            && Parsed(Encode(p, use32), |Encode(p, use32)|, use32) != Some(p)
            && ChargedPath(p, use32) > |Encode(p, use32)|
  {
    var a := Numbered(511);
    var p := [Segment(AsSequence, a)];
    assert a[255] == 256 && a[0] == 1;
    assert a[255..510][0] != a[..255][0];
    assert !RepeatsFirst(a, 255);
    assert a[0..255] == a[..255];
    assert p[0] in p && !SurvivesSplit(p[0]);
    WireRoundTrip(p, use32);
    CountIsBytes(p, use32);
  }
}
