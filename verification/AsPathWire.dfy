/** The wire format of AS_PATH: aspath_put and assegments_parse. */
module AsPathWire {
  import opened Options
  import opened Bytes
  import opened AsSegments
  import opened AsPathNormal

  const AS_SEGMENT_MAX := 255
  const BGP_AS_MAX: ASN := 65535
  const BGP_AS_TRANS: ASN := 23456

  function Code(k: SegType): byte {
    match k case AsSet => 1 case AsSequence => 2 case ConfedSequence => 3 case ConfedSet => 4
  }

  function OfCode(b: byte): Option<SegType> {
    if b == 1 then Some(AsSet) else if b == 2 then Some(AsSequence)
    else if b == 3 then Some(ConfedSequence) else if b == 4 then Some(ConfedSet) else None
  }

  function Width(use32: bool): nat { if use32 then 4 else 2 }

  /** ASSEGMENT_DATA_SIZE */
  function DataSize(n: nat, use32: bool): nat { if use32 then 4 * n else 2 * n }

  /** ASSEGMENT_SIZE */
  function Size(n: nat, use32: bool): nat { 2 + DataSize(n, use32) }

  /** What a 2-byte speaker writes for an AS number. */
  function Trans(a: ASN, use32: bool): ASN { if use32 || a <= BGP_AS_MAX then a else BGP_AS_TRANS }

  function TransAll(s: seq<ASN>, use32: bool): seq<ASN> {
    seq(|s|, i requires 0 <= i < |s| => Trans(s[i], use32))
  }

  function TransPath(p: Path, use32: bool): Path {
    seq(|p|, i requires 0 <= i < |p| => p[i].(asns := TransAll(p[i].asns, use32)))
  }

  // ---- AS numbers ------------------------------------------------------------

  function PutAsn(a: ASN, use32: bool): (b: seq<byte>)
    ensures |b| == Width(use32)
  {
    if use32 then [a / 0x100_0000, a / 0x1_0000 % 256, a / 256 % 256, a % 256]
    else var t: int := Trans(a, use32); [t / 256, t % 256]
  }

  function GetAsn(b: seq<byte>, use32: bool): ASN
    requires |b| >= Width(use32)
  {
    var hi: int, lo: int := b[0], b[1];
    if use32 then
      var lo2: int, lo3: int := b[2], b[3];
      hi * 0x100_0000 + lo * 0x1_0000 + lo2 * 256 + lo3
    else hi * 256 + lo
  }

  lemma {:induction false} GetPutAsn(a: ASN, use32: bool, rest: seq<byte>)
    ensures GetAsn(PutAsn(a, use32) + rest, use32) == Trans(a, use32)
  {
    if use32 {
      var x, y, z := a / 256, a / 0x1_0000, a / 0x100_0000;
      assert y == x / 256 && z == y / 256;
      assert x == 256 * (x / 256) + x % 256 && y == 256 * (y / 256) + y % 256 && a == 256 * x + a % 256;
    }
  }

  function PutAsns(s: seq<ASN>, use32: bool): (b: seq<byte>)
    ensures |b| == DataSize(|s|, use32)
  {
    if s == [] then [] else PutAsn(s[0], use32) + PutAsns(s[1..], use32)
  }

  function GetAsns(b: seq<byte>, n: nat, use32: bool): (s: seq<ASN>)
    requires |b| >= DataSize(n, use32)
    ensures |s| == n
  {
    if n == 0 then [] else [GetAsn(b, use32)] + GetAsns(b[Width(use32)..], n - 1, use32)
  }

  lemma {:induction false} GetPutAsns(s: seq<ASN>, use32: bool, rest: seq<byte>)
    ensures GetAsns(PutAsns(s, use32) + rest, |s|, use32) == TransAll(s, use32)
  {
    if s != [] {
      var b, more := PutAsn(s[0], use32), PutAsns(s[1..], use32);
      assert b + more + rest == b + (more + rest);
      GetPutAsn(s[0], use32, more + rest);
      assert (b + (more + rest))[Width(use32)..] == more + rest;
      GetPutAsns(s[1..], use32, rest);
      assert TransAll(s, use32) == [Trans(s[0], use32)] + TransAll(s[1..], use32);
    }
  }

  // ---- Segments ---------------------------------------------------------------

  function PutSegment(s: Segment, use32: bool): (b: seq<byte>)
    requires |s.asns| <= AS_SEGMENT_MAX
    ensures |b| == Size(|s.asns|, use32)
  {
    [Code(s.kind), |s.asns|] + PutAsns(s.asns, use32)
  }

  /** A list the wire can carry as it stands: 1 to 255 members per segment. */
  predicate Wireable(p: Path) { forall s <- p :: 1 <= |s.asns| <= AS_SEGMENT_MAX }

  function PutSegments(p: Path, use32: bool): seq<byte>
    requires Wireable(p)
  {
    if p == [] then [] else PutSegment(p[0], use32) + PutSegments(p[1..], use32)
  }

  /** The segments in `b`, or None where assegments_parse returns -1. */
  function GetSegments(b: seq<byte>, use32: bool): Option<Path>
  {
    if b == [] then Some([])
    else if |b| <= 2 then None
    else
      var kind, n := OfCode(b[0]), b[1];
      if Size(n, use32) > |b| || n == 0 || kind.None? then None
      else
        match GetSegments(b[Size(n, use32)..], use32)
        case None => None
        case Some(p) => Some([Segment(kind.value, GetAsns(b[2..], n, use32))] + p)
  }

  /** The segment as it is read back. */
  function TransSegment(s: Segment, use32: bool): Segment { s.(asns := TransAll(s.asns, use32)) }

  lemma GetPutSegment(s: Segment, use32: bool, rest: seq<byte>)
    requires 1 <= |s.asns| <= AS_SEGMENT_MAX
    ensures GetSegments(PutSegment(s, use32) + rest, use32)
         == match GetSegments(rest, use32)
            case None => None
            case Some(p) => Some([TransSegment(s, use32)] + p)
  {
    var data := PutAsns(s.asns, use32);
    var b := PutSegment(s, use32) + rest;
    assert b == [Code(s.kind), |s.asns|] + (data + rest);
    assert b[2..] == data + rest;
    GetPutAsns(s.asns, use32, rest);
    assert b[Size(|s.asns|, use32)..] == rest;
    assert OfCode(b[0]) == Some(s.kind) && b[1] == |s.asns|;
  }

  lemma TransCons(p: Path, use32: bool)
    requires p != []
    ensures TransPath(p, use32) == [TransSegment(p[0], use32)] + TransPath(p[1..], use32)
  {
  }

  lemma {:induction false} GetPutSegments(p: Path, use32: bool)
    requires Wireable(p)
    ensures GetSegments(PutSegments(p, use32), use32) == Some(TransPath(p, use32))
  {
    if p == [] {
      assert PutSegments(p, use32) == [] && TransPath(p, use32) == [];
    } else {
      assert p[0] in p;
      GetPutSegments(p[1..], use32);
      GetPutSegment(p[0], use32, PutSegments(p[1..], use32));
      TransCons(p, use32);
    }
  }

  /** What parsing `length` bytes of the stream `s` yields. */
  function Parsed(s: seq<byte>, length: nat, use32: bool): Option<Path> {
    if length == 0 then Some([])
    else if |s| < length || |s| < 2 || length % 2 != 0 then None
    else
      match GetSegments(s[..length], use32)
      case None => None
      case Some(p) => Some(Normalise(p))
  }

  lemma {:induction false} GetAsnsStep(b: seq<byte>, i: nat, n: nat, use32: bool)
    requires i < n && |b| >= DataSize(n, use32)
    ensures GetAsns(b, i + 1, use32) == GetAsns(b, i, use32) + [GetAsn(b[DataSize(i, use32)..], use32)]
  {
    var w, last := Width(use32), GetAsn(b[DataSize(i, use32)..], use32);
    if i == 0 {
      assert b[0..] == b;
      assert GetAsns(b, 1, use32) == [last] + GetAsns(b[w..], 0, use32);
    } else {
      GetAsnsStep(b[w..], i - 1, n - 1, use32);
      assert b[w..][DataSize(i - 1, use32)..] == b[DataSize(i, use32)..];
      Associative([GetAsn(b, use32)], GetAsns(b[w..], i - 1, use32), [last]);
    }
  }

  /** The inner loop of assegments_parse: read `n` AS numbers. */
  method ReadAsns(b: seq<byte>, n: nat, use32: bool) returns (asns: seq<ASN>)
    requires |b| >= DataSize(n, use32)
    ensures asns == GetAsns(b, n, use32)
  {
    asns := [];
    for i := 0 to n
      invariant asns == GetAsns(b, i, use32)
    {
      GetAsnsStep(b, i, n, use32);
      asns := asns + [GetAsn(b[DataSize(i, use32)..], use32)];
    }
  }

  /** assegments_parse */
  method AssegmentsParse(s: seq<byte>, length: nat, use32: bool) returns (result: Option<Path>)
    ensures result == Parsed(s, length, use32)
  {
    if length == 0 { return Some([]); }
    if |s| < length || |s| < 2 || length % 2 != 0 { return None; }
    var head: Path := [];
    var rest := s[..length];
    assert forall p: Path :: head + p == p;
    while rest != []
      invariant match GetSegments(rest, use32)
                case None => GetSegments(s[..length], use32) == None
                case Some(p) => GetSegments(s[..length], use32) == Some(head + p)
      decreases |rest|
    {
      if |rest| <= 2 { return None; }
      var kind, n := OfCode(rest[0]), rest[1];
      if Size(n, use32) > |rest| || n == 0 { return None; }
      if kind.None? { return None; }
      var asns := ReadAsns(rest[2..], n, use32);
      rest := rest[Size(n, use32)..];
      ghost var old_head := head;
      head := head + [Segment(kind.value, asns)];
      assert forall p: Path :: old_head + ([Segment(kind.value, asns)] + p) == head + p;
    }
    var segs := NormaliseSegments(head);
    assert head + [] == head;
    result := Some(segs);
  }
}
