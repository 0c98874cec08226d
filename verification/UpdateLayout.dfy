/** Updates in bytes, as section 4.4.9 of RFC 6126 lays them out, and what the receiver makes of
    any update whatever, not only of those this sender writes. */
module UpdateLayout {
  import opened Options
  import opened Bytes
  import opened Seqno
  import opened BabelPrefix
  import opened UpdateCodec

  /** An update for an IPv6 prefix at the head of a packet: the router-id, and the update with the
      bytes of the prefix, which the receiver is told to remember. */
  lemma LayoutV6(u: Update, ipv4: Option<seq<byte>>)
    requires ValidUpdate(u) && !IsV4(u) && u.channels.None? && !(u.plen == 128 && u.prefix[8..] == u.id)
    requires ipv4.Some? ==> |ipv4.value| == 4
    ensures var pb := (u.plen + 7) / 8;
            Encoded(NOTHING_SAID, ipv4, u)
            == [6, 10, 0, 0] + u.id
               + [8, 10 + pb, 2, 0x80, u.plen, 0, u.interval / 256, u.interval % 256,
                  u.seqno / 256, u.seqno % 256, u.metric / 256, u.metric % 256] + u.prefix[..pb]
  {
    var pb := (u.plen + 7) / 8;
    assert u.prefix[0..pb] == u.prefix[..pb];
    assert NhPart(NOTHING_SAID, ipv4, u) == [];
    assert IdPart(NOTHING_SAID, u).0 == [6, 10, 0, 0] + u.id;
    BodyBytes(2, 0x80, u.plen, 0, u, u.prefix[..pb]);
  }

  /** ... and for an IPv4 prefix, with the next hop in front. */
  lemma LayoutV4(u: Update, a: seq<byte>)
    requires ValidUpdate(u) && IsV4(u) && u.channels.None? && |a| == 4
    ensures var pb := (u.plen - 96 + 7) / 8;
            Encoded(NOTHING_SAID, Some(a), u)
            == [7, 6, 1, 0] + a + [6, 10, 0, 0] + u.id
               + [8, 10 + pb, 1, 0, u.plen - 96, 0, u.interval / 256, u.interval % 256,
                  u.seqno / 256, u.seqno % 256, u.metric / 256, u.metric % 256] + u.prefix[12..12 + pb]
  {
    var bytes := u.prefix[12..12 + (u.plen - 96 + 7) / 8];
    assert NhPart(NOTHING_SAID, Some(a), u) == [7, 6, 1, 0] + a;
    assert IdPart(NOTHING_SAID, u).0 == [6, 10, 0, 0] + u.id;
    assert UpdateBody(NOTHING_SAID, u) == Body(1, 0, u.plen - 96, 0, u, bytes);
    BodyBytes(1, 0, u.plen - 96, 0, u, bytes);
  }

  /** ... and for an IPv6 prefix after others of the same router-id: the leading bytes it shares with
      the remembered prefix are left out, and it is to be remembered itself from 48 bits on. */
  lemma LayoutNext(c: Comp, u: Update, ipv4: Option<seq<byte>>, k: nat)
    requires ValidUpdate(u) && !IsV4(u) && u.channels.None? && (ipv4.Some? ==> |ipv4.value| == 4)
    requires ValidComp(c) && c.id == Some(u.id) && c.prefix.Some? && k <= u.plen / 8
    requires forall i | 0 <= i < k :: c.prefix.value[i] == u.prefix[i]
    requires k < u.plen / 8 ==> c.prefix.value[k] != u.prefix[k]
    ensures var pb := (u.plen + 7) / 8;
            Encoded(c, ipv4, u)
            == [8, 10 + pb - k, 2, if u.plen >= 48 then 0x80 else 0, u.plen, k, u.interval / 256, u.interval % 256,
                u.seqno / 256, u.seqno % 256, u.metric / 256, u.metric % 256] + u.prefix[k..pb]
  {
    var pb := (u.plen + 7) / 8;
    assert c.prefix.value[..k] == u.prefix[..k];
    CommonIs(c.prefix.value, u.prefix, u.plen / 8, k);
    assert NhPart(c, ipv4, u) == [] && IdPart(c, u) == ([], 0);
    assert UpdateBody(c, u) == Body(2, if u.plen >= 48 then 0x80 else 0, u.plen, k, u, u.prefix[k..pb]);
    BodyBytes(2, if u.plen >= 48 then 0x80 else 0, u.plen, k, u, u.prefix[k..pb]);
  }

  /** The channels of the path stand behind the prefix: 2, how many, and the channels. */
  lemma LayoutChannels(ae: byte, flags: byte, plen: byte, omit: byte, u: Update, bytes: seq<byte>)
    requires ValidUpdate(u) && u.channels.Some?
    ensures Body(ae, flags, plen, omit, u, bytes)
            == Body(ae, flags, plen, omit, u.(channels := None), bytes) + [2, |u.channels.value|] + u.channels.value
  {
    assert bytes + [] == bytes;
  }

  lemma BodyBytes(ae: byte, flags: byte, plen: byte, omit: byte, u: Update, bytes: seq<byte>)
    requires ValidUpdate(u) && u.channels.None? && |bytes| <= 16
    ensures Tlv(MESSAGE_UPDATE, Body(ae, flags, plen, omit, u, bytes))
            == [8, 10 + |bytes|, ae, flags, plen, omit, u.interval / 256, u.interval % 256,
                u.seqno / 256, u.seqno % 256, u.metric / 256, u.metric % 256] + bytes
  {
    assert bytes + [] == bytes;
  }

  /** A wildcard retraction. */
  lemma LayoutWildcard(seqno: u16)
    ensures WildcardTlv(seqno) == [8, 10, 0, 0x40, 0, 0, 0xFF, 0xFF, seqno / 256, seqno % 256, 0xFF, 0xFF]
  {
  }

  // ---- The receiver -------------------------------------------------------------------

  /** The 16-bit number at `i`, high byte first. */
  function At(b: seq<byte>, i: nat): u16
    requires i + 1 < |b|
  {
    var hi: int, lo: int := b[i], b[i + 1];
    256 * hi + lo
  }

  /** What is passed on of any update message: the numbers it carries, the prefix length (96 more
      for IPv4), and the router-id told last or in this very message. */
  lemma HeardFields(d: Dec, env: Env, body: seq<byte>, o: Output)
    requires ValidDec(d) && o in OnTlv(d, env, 8, body).1 && o.RouteUpdate?
    ensures |body| >= 10 && OnTlv(d, env, 8, body).1 == [o] && body[0] in {1, 2, 3}
    ensures o.interval == At(body, 4) && o.seqno == At(body, 6) && o.metric == At(body, 8)
    ensures var plen: int := body[2]; o.plen == if body[0] == 1 then plen + 96 else plen
    ensures var flags: int := body[1];
            if flags / 64 % 2 == 0 then d.id == Some(o.id)
            else |o.prefix| == 16 && o.id == if body[0] == 1 then [0, 0, 0, 0] + o.prefix[12..] else o.prefix[8..]
    ensures body[0] == 1 ==> env.hasV4 && d.v4nh.Some? && o.nexthop == d.v4nh
    ensures body[0] != 1 ==> o.nexthop == d.v6nh
  {
  }

  /** What is remembered of it: the router-id, and the prefix if the message says so. */
  lemma HeardState(d: Dec, env: Env, body: seq<byte>, o: Output)
    requires ValidDec(d) && o in OnTlv(d, env, 8, body).1 && o.RouteUpdate? && |body| >= 10
    ensures var d', flags: int := OnTlv(d, env, 8, body).0, body[1];
            && d'.id == Some(o.id) && d'.v4nh == d.v4nh && d'.v6nh == d.v6nh
            && d'.v4p == (if flags / 128 == 1 && body[0] == 1 then Some(o.prefix) else d.v4p)
            && d'.v6p == (if flags / 128 == 1 && body[0] != 1 then Some(o.prefix) else d.v6p)
  {
  }

  /** The prefix of an IPv6 update has up to 128 bits and all its bytes, and those left out are
      remembered. */
  predicate PrefixReadable(d: Dec, body: seq<byte>)
    requires |body| >= 10
  {
    var plen: int, omitted: int := body[2], body[3];
    var pb := (plen + 7) / 8;
    && pb <= 16 && omitted <= pb && |body| >= 10 + pb - omitted
    && (omitted > 0 ==> d.v6p.Some? && !V4Mapped(d.v6p.value) && (body[1] == 1 ==> d.v4p.Some?))
  }

  /** Exactly when an IPv6 update is passed on: its prefix can be read and the router-id is known. */
  lemma HeardExactly(d: Dec, env: Env, body: seq<byte>)
    requires ValidDec(d) && |body| >= 10 && body[0] == 2
    ensures var flags: int := body[1];
            OnTlv(d, env, 8, body).1 != [] <==> PrefixReadable(d, body) && (flags / 64 % 2 == 1 || d.id.Some?)
  {
  }

  /** ... and an IPv4 update that leaves nothing out: it has up to 32 bits and a next hop told
      before, and the interface has an IPv4 address. */
  lemma HeardExactlyV4(d: Dec, env: Env, body: seq<byte>)
    requires ValidDec(d) && |body| >= 10 && body[0] == 1 && body[3] == 0
    ensures var plen: int, flags: int := body[2], body[1];
            var pb := (plen + 7) / 8;
            OnTlv(d, env, 8, body).1 != [] <==>
              && pb <= 4 && |body| >= 10 + pb && (flags / 64 % 2 == 1 || d.id.Some?) && d.v4nh.Some? && env.hasV4
  {
  }

  /** An IPv4 prefix that is passed on is mapped into IPv6, and has the bytes of the message. */
  lemma HeardV4Prefix(d: Dec, env: Env, body: seq<byte>, o: Output, i: nat)
    requires ValidDec(d) && o in OnTlv(d, env, 8, body).1 && o.RouteUpdate? && |body| >= 10
    requires body[0] == 1 && body[3] == 0 && i < 4
    ensures |o.prefix| == 16 && o.prefix[..12] == [0, 0, 0, 0, 0, 0, 0, 0, 0, 0, 0xFF, 0xFF]
    ensures var plen: int := body[2];
            && (8 * i + 8 <= plen ==> 10 + i < |body| && o.prefix[12 + i] == body[10 + i])
            && (plen <= 8 * i ==> o.prefix[12 + i] == 0)
  {
  }

  /** An IPv6 prefix that is passed on: the bytes left out are those of the remembered prefix, the
      others those of the message, masked to the length; beyond it there are none. */
  lemma HeardPrefix(d: Dec, env: Env, body: seq<byte>, o: Output, i: nat)
    requires ValidDec(d) && o in OnTlv(d, env, 8, body).1 && o.RouteUpdate? && |body| >= 10 && body[0] == 2 && i < 16
    ensures |o.prefix| == 16
    ensures body[3] > 0 ==> d.v6p.Some?
    ensures var plen: int, omitted: int := body[2], body[3];
            && (8 * i + 8 <= plen && i < omitted ==> o.prefix[i] == d.v6p.value[i])
            && (8 * i + 8 <= plen && i >= omitted ==> 10 + i - omitted < |body| && o.prefix[i] == body[10 + i - omitted])
            && (plen <= 8 * i ==> o.prefix[i] == 0)
  {
  }

  /** A link-local prefix is passed on as one. */
  lemma HeardLinkLocal(d: Dec, env: Env, body: seq<byte>, o: Output, i: nat)
    requires ValidDec(d) && o in OnTlv(d, env, 8, body).1 && o.RouteUpdate? && |body| >= 10 && body[0] == 3
    requires i < 16 && 8 * i + 8 <= body[2]
    ensures |o.prefix| == 16
    ensures i < 8 ==> o.prefix[i] == [0xFE, 0x80, 0, 0, 0, 0, 0, 0][i]
    ensures i >= 8 ==> i + 2 < |body| && o.prefix[i] == body[i + 2]
  {
  }

  /** The channels that are passed on: none on a faraway interface; else those the message tells,
      or without attributes none for a metric below 256, and otherwise that all interfere. */
  lemma HeardChannels(d: Dec, env: Env, body: seq<byte>, o: Output, ch: seq<byte>)
    requires ValidDec(d) && o in OnTlv(d, env, 8, body).1 && o.RouteUpdate? && |body| >= 10 && body[0] == 2
    requires var pb: int := (body[2] + 7) / 8; pb >= body[3]
    ensures var end: int := 10 + (body[2] + 7) / 8 - body[3];
            && end <= |body|
            && (env.faraway ==> o.channels == [])
            && (!env.faraway && |body| == end ==> o.channels == if At(body, 8) < 256 then [] else [255])
            && (!env.faraway && |ch| <= 8 && 0 !in ch && body[end..] == [2, |ch|] + ch ==> o.channels == ch)
  {
    var end: int := 10 + (body[2] + 7) / 8 - body[3];
    if |ch| <= 8 && 0 !in ch && body[end..] == [2, |ch|] + ch {
      OneAttribute(ch, if At(body, 8) < 256 then [] else [255]);
    }
  }

  lemma OneAttribute(ch: seq<byte>, before: seq<byte>)
    requires |ch| <= 8 && 0 !in ch
    ensures Attributes([2, |ch|] + ch, before) == ch
  {
    var a := [2, |ch|] + ch;
    assert a[2..2 + |ch|] == ch && a[2 + |ch|..] == [];
  }

  /** The neighbour's routes are retracted exactly by a wildcard update with infinite metric, whose
      prefix is not too long and leaves out nothing that is not remembered. */
  lemma HeardRetraction(d: Dec, env: Env, body: seq<byte>)
    requires ValidDec(d)
    ensures RetractAll in OnTlv(d, env, 8, body).1 <==>
            && |body| >= 10 && body[0] == 0 && body[8] == 0xFF && body[9] == 0xFF && body[2] <= 128
            && (body[3] == 0 || if body[1] == 1 then d.v4p.Some? else d.v6p.Some?)
  {
  }

  /** An update that is too short, or an IPv6 one whose prefix cannot be read, is dropped; if it was
      to be remembered, nothing is remembered any more. */
  lemma BrokenForgets(d: Dec, env: Env, body: seq<byte>)
    requires ValidDec(d)
    requires |body| < 10 || (body[0] == 2 && !PrefixReadable(d, body))
    ensures OnTlv(d, env, 8, body).1 == []
    ensures var d', flag := OnTlv(d, env, 8, body).0, |body| < 2 || body[1] >= 128;
            if flag then d' == Dec(d.id, None, None, d.v4nh, d.v6nh) else d' == d
  {
  }

  /** Whether the default prefix may be used is decided by the flags, where the address encoding
      is meant: an IPv4 update that leaves bytes out, after an IPv4 prefix to be remembered and
      no IPv6 one, is dropped. */
  lemma OmittedV4IsDropped()
    ensures var p := V4PREFIX + [10, 0, 0, 0];
            var d := Dec(Some([1, 2, 3, 4, 5, 6, 7, 8]), Some(p), None, Some(p), None);
            var body := [1, 0, 16, 1, 0, 0, 0, 1, 0, 1, 7];
            OnTlv(d, Env(true, false), 8, body) == (d, [])
  {
  }

  /** Exactly then is an IPv4 update that leaves bytes out understood: an IPv6 prefix is remembered
      as well.  What it is understood as does not depend on that prefix. */
  lemma OmittedV4Needs(d: Dec, env: Env, body: seq<byte>, other: seq<byte>)
    requires ValidDec(d) && |body| >= 10 && body[0] == 1 && body[1] != 1 && body[3] > 0 && |other| == 16
    ensures OnTlv(d, env, 8, body).1 == if d.v6p.None? then [] else OnTlv(d.(v6p := Some(other)), env, 8, body).1
  {
  }
}
