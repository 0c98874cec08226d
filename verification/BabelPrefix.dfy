/** Prefixes on the wire: mask_prefix, v4mapped and network_prefix. */
module BabelPrefix {
  import opened Options
  import opened Bytes

  const V4PREFIX: seq<byte> := [0, 0, 0, 0, 0, 0, 0, 0, 0, 0, 0xFF, 0xFF]

  /** v4mapped */
  predicate V4Mapped(a: seq<byte>) { |a| >= 12 && a[..12] == V4PREFIX }

  /** The top `r` bits of a byte. */
  function TopBits(b: byte, r: nat): (t: byte)
    requires 1 <= r <= 7
    ensures t < 255
  {
    var x: int := b;
    match r
    case 1 => x / 128 * 128
    case 2 => x / 64 * 64
    case 3 => x / 32 * 32
    case 4 => x / 16 * 16
    case 5 => x / 8 * 8
    case 6 => x / 4 * 4
    case 7 => x / 2 * 2
  }

  /** What mask_prefix leaves of byte `i` of an address. */
  function MaskByte(b: byte, plen: nat, i: nat): byte {
    if 8 * i + 8 <= plen then b else if plen <= 8 * i then 0 else TopBits(b, plen - 8 * i)
  }

  /** The value of the lowest of the top `r` bits. */
  function Weight(r: nat): int
    requires 1 <= r <= 7
  {
    match r case 1 => 128 case 2 => 64 case 3 => 32 case 4 => 16 case 5 => 8 case 6 => 4 case 7 => 2
  }

  /** Of the byte in which the prefix ends the bits beyond it go, and no others: what is left is the
      largest multiple of the weight of its last bit that is not above it. */
  lemma MaskCutsBits(b: byte, plen: nat, i: nat, n: nat)
    requires 8 * i < plen < 8 * i + 8
    ensures var m: int, weight := MaskByte(b, plen, i), Weight(plen - 8 * i);
            m <= b && (n * weight <= b ==> n * weight <= m) && exists q: nat :: m == q * weight
  {
    var weight, x: int := Weight(plen - 8 * i), b;
    var q: nat := x / weight;
    assert MaskByte(b, plen, i) == q * weight;
    if n > q {
      assert n * weight >= (q + 1) * weight;
    }
  }

  /** mask_prefix */
  function MaskPrefix(p: seq<byte>, plen: nat): (m: seq<byte>)
    requires |p| == 16
    ensures |m| == 16
  {
    seq(16, i requires 0 <= i < 16 => MaskByte(p[i], plen, i))
  }

  /** A prefix already masked to its length, as all prefixes in babeld's tables are. */
  predicate Masked(p: seq<byte>, plen: nat) { |p| == 16 && plen <= 128 && MaskPrefix(p, plen) == p }

  lemma MaskedTail(p: seq<byte>, plen: nat)
    requires Masked(p, plen)
    ensures p == p[..(plen + 7) / 8] + Zeros(16 - (plen + 7) / 8)
  {
    var pb := (plen + 7) / 8;
    assert forall i | pb <= i < 16 :: MaskPrefix(p, plen)[i] == 0;
  }

  /** A masked IPv6 prefix shorter than 96 bits is never v4-mapped. */
  lemma ShortNotV4(p: seq<byte>, plen: nat)
    requires Masked(p, plen) && plen < 96
    ensures !V4Mapped(p)
  {
    assert MaskPrefix(p, plen)[11] == MaskByte(p[11], plen, 11) < 255;
    assert V4PREFIX[11] == 255 && |p| >= 12 && p[..12][11] == p[11];
  }

  /** An address from its first bytes. */
  function Filled(head: seq<byte>, more: seq<byte>): (p: seq<byte>)
    requires |head| + |more| <= 16
    ensures |p| == 16
  {
    head + more + Zeros(16 - |head| - |more|)
  }

  lemma FilledAgain(p: seq<byte>, plen: nat, k: nat)
    requires Masked(p, plen) && k <= (plen + 7) / 8
    ensures Filled(p[..k], p[k..(plen + 7) / 8]) == p
  {
    MaskedTail(p, plen);
    assert p[..(plen + 7) / 8] == p[..k] + p[k..(plen + 7) / 8];
  }

  /** network_prefix: the prefix and the number of bytes used, or None for -1.  `dp` is the
      default prefix, `p` the bytes available; `plen` is -1 for an address. */
  function NetworkPrefix(ae: byte, plen: int, omitted: nat, p: seq<byte>, dp: Option<seq<byte>>): (r: Option<(seq<byte>, int)>)
    requires plen >= -1 && (dp.Some? ==> |dp.value| == 16)
    ensures r.Some? ==> |r.value.0| == 16
  {
    var pb := if plen >= 0 then (plen + 7) / 8 else if ae == 1 then 4 else 16;
    var full := if plen < 0 then 128 else if ae == 1 then plen + 96 else plen;
    if pb > 16 then None
    else if ae == 0 then Some((MaskPrefix(Zeros(16), full), 0))
    else if ae == 1 then
      if omitted > 4 || pb > 4 || (pb > omitted && |p| < pb - omitted) then None
      else if omitted > 0 && (dp.None? || !V4Mapped(dp.value)) then None
      else
        var head := if omitted > 0 then dp.value[..12 + omitted] else V4PREFIX;
        var more := if pb > omitted then p[..pb - omitted] else [];
        Some((MaskPrefix(Filled(head, more), full), pb - omitted))
    else if ae == 2 then
      if omitted > 16 || (pb > omitted && |p| < pb - omitted) then None
      else if omitted > 0 && (dp.None? || V4Mapped(dp.value)) then None
      else
        var head := if omitted > 0 then dp.value[..omitted] else [];
        var more := if pb > omitted then p[..pb - omitted] else [];
        Some((MaskPrefix(Filled(head, more), full), pb - omitted))
    else if ae == 3 then
      if pb > 8 && |p| < pb - 8 then None
      else
        var more := if pb > 8 then p[..pb - 8] else [];
        Some((MaskPrefix(Filled([0xFE, 0x80, 0, 0, 0, 0, 0, 0], more), full), pb - 8))
    else None
  }

  /** What the sender leaves of an IPv6 prefix is enough to rebuild it. */
  lemma RebuildV6(p: seq<byte>, plen: nat, omit: nat, dp: Option<seq<byte>>, rest: seq<byte>)
    requires Masked(p, plen) && omit <= plen / 8
    requires omit > 0 ==> dp.Some? && |dp.value| == 16 && !V4Mapped(dp.value) && dp.value[..omit] == p[..omit]
    requires dp.Some? ==> |dp.value| == 16
    ensures NetworkPrefix(2, plen, omit, p[omit..(plen + 7) / 8] + rest, dp) == Some((p, (plen + 7) / 8 - omit))
  {
    var pb := (plen + 7) / 8;
    FilledAgain(p, plen, omit);
    assert (p[omit..pb] + rest)[..pb - omit] == p[omit..pb];
    assert p[..0] == [];
  }

  lemma RebuildV4(p: seq<byte>, plen: nat, dp: Option<seq<byte>>, rest: seq<byte>)
    requires Masked(p, plen) && plen >= 96 && V4Mapped(p)
    requires dp.Some? ==> |dp.value| == 16
    ensures NetworkPrefix(1, plen - 96, 0, p[12..12 + (plen - 96 + 7) / 8] + rest, dp)
         == Some((p, (plen - 96 + 7) / 8))
  {
    var pb := (plen - 96 + 7) / 8;
    assert (plen + 7) / 8 == 12 + pb;
    FilledAgain(p, plen, 12);
    assert (p[12..12 + pb] + rest)[..pb] == p[12..12 + pb];
  }

  /** An IPv4 next hop, sent as four bytes. */
  lemma RebuildNextHop(a: seq<byte>, rest: seq<byte>)
    requires |a| == 4
    ensures NetworkPrefix(1, -1, 0, a + rest, None) == Some((V4PREFIX + a, 4))
  {
    assert (a + rest)[..4] == a;
    assert Filled(V4PREFIX, a) == V4PREFIX + a;
    assert MaskPrefix(V4PREFIX + a, 128) == V4PREFIX + a;
  }
}
