/** The bytes of AS_PATH: exactly which byte strings the parser accepts, and what they look
    like (section 4.3 of RFC 4271, and RFC 4893 for 4-byte numbers). */
module AsPathBytes {
  import opened Options
  import opened Bytes
  import opened AsSegments
  import opened AsPathWire
  import opened AsPathPut

  lemma PutGetAsn(b: seq<byte>, use32: bool)
    requires |b| >= Width(use32)
    ensures PutAsn(GetAsn(b, use32), use32) == b[..Width(use32)] && (use32 || GetAsn(b, use32) <= BGP_AS_MAX)
  {
    if use32 {
      var a: int, b0: int, b1: int, b2: int, b3: int := GetAsn(b, true), b[0], b[1], b[2], b[3];
      assert a == 256 * (256 * (256 * b0 + b1) + b2) + b3;
      assert a / 256 == 256 * (256 * b0 + b1) + b2 && a % 256 == b3;
      assert a / 0x1_0000 == 256 * b0 + b1 && a / 256 % 256 == b2;
      assert a / 0x100_0000 == b0 && a / 0x1_0000 % 256 == b1;
    }
  }

  lemma {:induction false} PutGetAsns(b: seq<byte>, n: nat, use32: bool)
    requires |b| >= DataSize(n, use32)
    ensures PutAsns(GetAsns(b, n, use32), use32) == b[..DataSize(n, use32)]
    ensures use32 || forall a <- GetAsns(b, n, use32) :: a <= BGP_AS_MAX
  {
    if n > 0 {
      var w := Width(use32);
      PutGetAsn(b, use32);
      PutGetAsns(b[w..], n - 1, use32);
      assert GetAsns(b, n, use32)[1..] == GetAsns(b[w..], n - 1, use32);
      assert b[..DataSize(n, use32)] == b[..w] + b[w..][..DataSize(n - 1, use32)];
    }
  }

  lemma FirstIsWritten(b: seq<byte>, use32: bool, s: Segment)
    requires |b| > 2 && b[1] > 0 && Size(b[1], use32) <= |b| && OfCode(b[0]).Some?
    requires s == Segment(OfCode(b[0]).value, GetAsns(b[2..], b[1], use32))
    ensures |s.asns| == b[1] && PutSegment(s, use32) == b[..Size(b[1], use32)] && (use32 || Fits16([s]))
  {
    PutGetAsns(b[2..], b[1], use32);
    assert Code(s.kind) == b[0];
    assert b[..Size(b[1], use32)] == [b[0], b[1]] + b[2..][..DataSize(b[1], use32)];
  }

  lemma {:induction false} ParsedIsWritten(b: seq<byte>, use32: bool, p: Path)
    requires GetSegments(b, use32) == Some(p)
    ensures Wireable(p) && (use32 || Fits16(p)) && PutSegments(p, use32) == b
    decreases |b|
  {
    if b == [] {
      assert p == [];
    } else {
      var size := Size(b[1], use32);
      assert p != [] && GetSegments(b[size..], use32) == Some(p[1..]);
      FirstIsWritten(b, use32, p[0]);
      ParsedIsWritten(b[size..], use32, p[1..]);
      MoreIsWritten(b, size, use32, p);
    }
  }

  lemma {:induction false} MoreIsWritten(b: seq<byte>, size: nat, use32: bool, p: Path)
    requires size <= |b| && p != [] && 1 <= |p[0].asns| <= AS_SEGMENT_MAX && PutSegment(p[0], use32) == b[..size]
    requires Wireable(p[1..]) && PutSegments(p[1..], use32) == b[size..] && (use32 || (Fits16([p[0]]) && Fits16(p[1..])))
    ensures Wireable(p) && (use32 || Fits16(p)) && PutSegments(p, use32) == b
  {
    assert p == [p[0]] + p[1..] && b == b[..size] + b[size..];
    assert p[0] in [p[0]];
  }

  /** The parser accepts exactly what can be written: bytes parse to the segments `p` if and only
      if each of these has 1 to 255 members (of 16 bits in 2-byte mode) and writing them gives
      the bytes.  So unknown types, empty segments and truncation are refused. */
  lemma AcceptsExactly(b: seq<byte>, use32: bool, p: Path)
    ensures GetSegments(b, use32) == Some(p) <==> Wireable(p) && (use32 || Fits16(p)) && PutSegments(p, use32) == b
  {
    if GetSegments(b, use32) == Some(p) {
      ParsedIsWritten(b, use32, p);
    }
    if Wireable(p) && (use32 || Fits16(p)) && PutSegments(p, use32) == b {
      GetPutSegments(p, use32);
      TransFits(p, use32);
    }
  }

  /** What the peer refuses when it parses an attribute of `length` bytes. */
  lemma RefusesExactly(s: seq<byte>, length: nat, use32: bool)
    ensures Parsed(s, length, use32) == None <==>
              && length > 0
              && (|| |s| < length || length % 2 != 0
                  || !exists p :: Wireable(p) && (use32 || Fits16(p)) && PutSegments(p, use32) == s[..length])
  {
    if 0 < length <= |s| && length % 2 == 0 {
      var b := s[..length];
      if GetSegments(b, use32).Some? {
        AcceptsExactly(b, use32, GetSegments(b, use32).value);
      }
      if p :| Wireable(p) && (use32 || Fits16(p)) && PutSegments(p, use32) == b {
        AcceptsExactly(b, use32, p);
      }
    }
  }

  /** One segment in bytes: its type (1 to 4), its length, and the numbers, high byte first; a
      2-byte speaker writes 23456 for a number that does not fit. */
  lemma Layout(a: ASN, big: ASN)
    requires a < 0x10000 <= big
    ensures PutSegments([Segment(AsSet, [a])], false) == [1, 1, a / 256, a % 256]
    ensures PutSegments([Segment(AsSequence, [a, big])], false) == [2, 2, a / 256, a % 256, 91, 160]
    ensures PutSegments([Segment(ConfedSequence, [a])], true) == [3, 1, 0, 0, a / 256, a % 256]
    ensures PutSegments([Segment(ConfedSet, [0x01020304])], true) == [4, 1, 1, 2, 3, 4]
  {
    OneSegment(Segment(AsSet, [a]), false);
    OneSegment(Segment(AsSequence, [a, big]), false);
    OneSegment(Segment(ConfedSequence, [a]), true);
    OneSegment(Segment(ConfedSet, [0x01020304]), true);
    assert [a, big][1..] == [big] && [big][1..] == [] && [a][1..] == [];
    assert PutAsns([a], false) == [a / 256, a % 256] + [];
    assert PutAsns([big], false) == [91, 160] + [];
    assert PutAsns([a, big], false) == [a / 256, a % 256] + PutAsns([big], false);
    assert PutAsns([a], true) == [0, 0, a / 256, a % 256] + [];
    assert PutAsns([0x01020304], true) == [1, 2, 3, 4] + [];
  }

  lemma OneSegment(s: Segment, use32: bool)
    requires 0 < |s.asns| <= 255
    ensures PutSegments([s], use32) == [Code(s.kind), |s.asns|] + PutAsns(s.asns, use32)
  {
    assert [s][1..] == [];
    assert PutSegments([s], use32) == PutSegment(s, use32) + [];
  }
}
