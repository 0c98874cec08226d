/** The receiver undoes what the sender elides: whatever items share a packet, parsing it
    gives back what was put in, in order. */
module UpdateRoundTrip {
  import opened Options
  import opened Bytes
  import opened Seqno
  import opened BabelPrefix
  import opened UpdateCodec

  /** Whatever the sender believes it has said, the receiver has heard. */
  ghost predicate InSync(c: Comp, d: Dec) {
    && ValidDec(d) && d.v6nh == None
    && (c.id.Some? ==> d.id == c.id)
    && (c.nh.Some? ==> |c.nh.value| == 4 && d.v4nh == Some(V4PREFIX + c.nh.value))
    && (c.prefix.Some? ==> |c.prefix.value| == 16 && !V4Mapped(c.prefix.value) && d.v6p == c.prefix)
  }

  function ReadChannels(env: Env, u: Update): seq<byte> {
    if env.faraway then [] else if u.channels.Some? then u.channels.value else DefaultChannels(u.metric)
  }

  /** What the receiver is meant to make of an update. */
  function Expected(env: Env, ipv4: Option<seq<byte>>, u: Update): seq<Output> {
    if IsV4(u) && (ipv4.None? || !env.hasV4) then []
    else [RouteUpdate(u.id, u.prefix, u.plen, u.seqno, u.metric, u.interval,
                      if IsV4(u) then Some(V4PREFIX + ipv4.value) else None, ReadChannels(env, u))]
  }

  // ---- Whole messages -----------------------------------------------------------------

  function Then(out: seq<Output>, r: Option<(Dec, seq<Output>)>): Option<(Dec, seq<Output>)> {
    if r.None? then None else Some((r.value.0, out + r.value.1))
  }

  lemma ThenThen(o1: seq<Output>, o2: seq<Output>, r: Option<(Dec, seq<Output>)>)
    ensures Then(o1, Then(o2, r)) == Then(o1 + o2, r) && Then([], r) == r
  {
    if r.Some? {
      assert o1 + (o2 + r.value.1) == o1 + o2 + r.value.1;
      assert [] + r.value.1 == r.value.1;
    }
  }

  /** The parser over a whole number of messages, with the state it ends in; None if the
      last message is cut short. */
  function Run(d: Dec, env: Env, b: seq<byte>): (r: Option<(Dec, seq<Output>)>)
    requires ValidDec(d)
    ensures r.Some? ==> ValidDec(r.value.0)
    decreases |b|
  {
    if b == [] then Some((d, []))
    else if b[0] == 0 then Run(d, env, b[1..])
    else if |b| < 2 then None
    else
      var len: int := b[1];
      if |b| < 2 + len then None
      else
        var (d1, out) := OnTlv(d, env, b[0], b[2..2 + len]);
        Then(out, Run(d1, env, b[2 + len..]))
  }

  /** On whole messages nothing is lost: this is what the packet loop does. */
  lemma {:induction false} RunDecodes(d: Dec, env: Env, b: seq<byte>)
    requires ValidDec(d) && Run(d, env, b).Some?
    ensures Decode(d, env, b) == Run(d, env, b).value.1
    decreases |b|
  {
    if b == [] {
    } else if b[0] == 0 {
      RunDecodes(d, env, b[1..]);
    } else {
      var len: int := b[1];
      RunDecodes(OnTlv(d, env, b[0], b[2..2 + len]).0, env, b[2 + len..]);
    }
  }

  lemma {:induction false} RunTlv(d: Dec, env: Env, t: byte, body: seq<byte>)
    requires ValidDec(d) && t != 0 && |body| < 256
    ensures Run(d, env, Tlv(t, body)) == Some(OnTlv(d, env, t, body))
  {
    var b := Tlv(t, body);
    assert b[2..2 + |body|] == body && b[2 + |body|..] == [];
    var out := OnTlv(d, env, t, body).1;
    assert out + [] == out;
  }

  lemma {:induction false} RunAppend(d: Dec, env: Env, b: seq<byte>, c: seq<byte>)
    requires ValidDec(d) && Run(d, env, b).Some?
    ensures Run(d, env, b + c) == Then(Run(d, env, b).value.1, Run(Run(d, env, b).value.0, env, c))
    decreases |b|
  {
    if b == [] {
      assert b + c == c;
      ThenThen([], [], Run(d, env, c));
    } else if b[0] == 0 {
      assert (b + c)[1..] == b[1..] + c;
      RunAppend(d, env, b[1..], c);
    } else {
      var len: int := b[1];
      assert (b + c)[2..2 + len] == b[2..2 + len] && (b + c)[2 + len..] == b[2 + len..] + c;
      var (d1, out) := OnTlv(d, env, b[0], b[2..2 + len]);
      var (d2, more) := Run(d1, env, b[2 + len..]).value;
      RunAppend(d1, env, b[2 + len..], c);
      ThenThen(out, more, Run(d2, env, c));
    }
  }

  /** Messages that are put one after the other are heard one after the other. */
  lemma RunTwo(d: Dec, d1: Dec, d2: Dec, env: Env, b: seq<byte>, c: seq<byte>, o1: seq<Output>, o2: seq<Output>)
    requires ValidDec(d) && ValidDec(d1)
    requires Run(d, env, b) == Some((d1, o1)) && Run(d1, env, c) == Some((d2, o2))
    ensures Run(d, env, b + c) == Some((d2, o1 + o2))
  {
    RunAppend(d, env, b, c);
  }

  // ---- One update ---------------------------------------------------------------------

  lemma {:induction false} ReadsChannels(ch: seq<byte>, default: seq<byte>)
    requires |ch| <= DIVERSITY_HOPS && 0 !in ch
    ensures Attributes(ChannelBytes(Some(ch)), default) == ch
  {
    var a := ChannelBytes(Some(ch));
    assert a[2..2 + |ch|] == ch && a[2 + |ch|..] == [];
  }

  lemma BodyFields(ae: byte, flags: byte, plen: byte, omit: byte, u: Update, bytes: seq<byte>)
    requires ValidUpdate(u)
    ensures var b := Body(ae, flags, plen, omit, u, bytes);
            && b[0] == ae && b[1] == flags && b[2] == plen && b[3] == omit
            && GetShort(b[4..]) == u.interval && GetShort(b[6..]) == u.seqno && GetShort(b[8..]) == u.metric
            && b[10..] == bytes + ChannelBytes(u.channels)
            && b[10 + |bytes|..] == ChannelBytes(u.channels)
  {
    var b := Body(ae, flags, plen, omit, u, bytes);
    var tail := bytes + ChannelBytes(u.channels);
    assert b[4..] == Short(u.interval) + (Short(u.seqno) + Short(u.metric) + tail);
    assert b[6..] == Short(u.seqno) + (Short(u.metric) + tail);
    assert b[8..] == Short(u.metric) + tail;
    GetShortOfShort(u.interval, Short(u.seqno) + Short(u.metric) + tail);
    GetShortOfShort(u.seqno, Short(u.metric) + tail);
    GetShortOfShort(u.metric, tail);
    assert b[10..] == tail && b[10 + |bytes|..] == tail[|bytes|..];
  }

  /** The body of an update from which the receiver, in state `d`, can rebuild the prefix,
      and which leaves it in state `d'` knowing the router-id. */
  ghost predicate Rebuilds(d: Dec, d': Dec, ae: byte, flags: byte, plen: byte, omit: byte, u: Update, bytes: seq<byte>) {
    && ValidUpdate(u) && ValidDec(d) && (ae == 1 || ae == 2)
    && u.plen == (if ae == 1 then 96 else 0) + plen
    && (omit > 0 ==> flags != 1 && d.v6p.Some?)
    && NetworkPrefix(ae, plen, omit, bytes + ChannelBytes(u.channels), if ae == 1 then d.v4p else d.v6p)
       == Some((u.prefix, |bytes|))
    && d' == Noted(d, ae, flags, u.prefix) && d'.id == Some(u.id)
    && (ae == 1 ==> d.v4nh.Some?)
  }

  function Passed(d: Dec, env: Env, ae: byte, u: Update): seq<Output> {
    if ae == 1 && !env.hasV4 then []
    else [RouteUpdate(u.id, u.prefix, u.plen, u.seqno, u.metric, u.interval,
                      if ae == 1 then d.v4nh else d.v6nh, ReadChannels(env, u))]
  }

  /** The tail of an accepted update: ids, next hop and channels come out as meant. */
  lemma AcceptsUpdate(d: Dec, env: Env, ae: byte, flags: byte, plen: byte, omit: byte, u: Update, bytes: seq<byte>)
    requires ValidUpdate(u) && (ae == 1 || ae == 2) && d.id == Some(u.id) && (ae == 1 ==> d.v4nh.Some?)
    requires u.plen == (if ae == 1 then 96 else 0) + plen
    ensures Accepted(d, env, Body(ae, flags, plen, omit, u, bytes), u.prefix, |bytes|) == Passed(d, env, ae, u)
  {
    BodyFields(ae, flags, plen, omit, u, bytes);
    if u.channels.Some? { ReadsChannels(u.channels.value, DefaultChannels(u.metric)); }
  }

  /** The update branch, once the prefix is known to be rebuilt. */
  lemma OnRebuilt(d: Dec, d': Dec, env: Env, ae: byte, flags: byte, plen: byte, omit: byte, u: Update, bytes: seq<byte>)
    requires Rebuilds(d, d', ae, flags, plen, omit, u, bytes)
    ensures OnTlv(d, env, MESSAGE_UPDATE, Body(ae, flags, plen, omit, u, bytes))
         == (d', Accepted(d', env, Body(ae, flags, plen, omit, u, bytes), u.prefix, |bytes|))
  {
    BodyFields(ae, flags, plen, omit, u, bytes);
  }

  /** An update whose prefix can be rebuilt is passed on whole. */
  lemma HearsRebuilt(d: Dec, d': Dec, env: Env, ae: byte, flags: byte, plen: byte, omit: byte, u: Update, bytes: seq<byte>)
    requires Rebuilds(d, d', ae, flags, plen, omit, u, bytes)
    ensures OnTlv(d, env, MESSAGE_UPDATE, Body(ae, flags, plen, omit, u, bytes)) == (d', Passed(d, env, ae, u))
  {
    OnRebuilt(d, d', env, ae, flags, plen, omit, u, bytes);
    AcceptsUpdate(d', env, ae, flags, plen, omit, u, bytes);
  }

  /** What the receiver notes of an IPv6 update keeps it in step. */
  lemma NotesV6(c: Comp, d: Dec, ipv4: Option<seq<byte>>, u: Update)
    requires ValidUpdate(u) && !IsV4(u) && InSync(c.(id := None), d)
    requires IdPart(c, u).1 == 0 ==> d.id == Some(u.id)
    ensures var d' := Noted(d, 2, PrefixFlag(c, u) + IdPart(c, u).1, u.prefix);
            InSync(CompAfter(c, ipv4, u), d') && d'.id == Some(u.id) && ValidDec(d')
  {
    if u.plen < 96 { ShortNotV4(u.prefix, u.plen); }
  }

  ghost predicate RebuildsBody(d: Dec, d': Dec, ae: byte, body: seq<byte>, u: Update) {
    exists flags: byte, plen: byte, omit: byte, bytes: seq<byte> ::
      Rebuilds(d, d', ae, flags, plen, omit, u, bytes) && body == Body(ae, flags, plen, omit, u, bytes)
  }

  lemma RebuildsFrom(d: Dec, d': Dec, ae: byte, flags: byte, plen: byte, omit: byte, u: Update, bytes: seq<byte>)
    requires Rebuilds(d, d', ae, flags, plen, omit, u, bytes)
    ensures RebuildsBody(d, d', ae, Body(ae, flags, plen, omit, u, bytes), u)
  {
  }

  lemma HearsBody(d: Dec, d': Dec, env: Env, ae: byte, body: seq<byte>, u: Update)
    requires ValidDec(d) && RebuildsBody(d, d', ae, body, u)
    ensures OnTlv(d, env, MESSAGE_UPDATE, body) == (d', Passed(d, env, ae, u))
  {
    var flags: byte, plen: byte, omit: byte, bytes :|
      Rebuilds(d, d', ae, flags, plen, omit, u, bytes) && body == Body(ae, flags, plen, omit, u, bytes);
    HearsRebuilt(d, d', env, ae, flags, plen, omit, u, bytes);
  }

  lemma RebuildsPrefixV6(c: Comp, d: Dec, u: Update)
    requires ValidUpdate(u) && !IsV4(u) && InSync(c.(id := None), d)
    requires IdPart(c, u).1 == 0 ==> d.id == Some(u.id)
    ensures var omit, flags := OmitV6(c, u), PrefixFlag(c, u) + IdPart(c, u).1;
            Rebuilds(d, Noted(d, 2, flags, u.prefix), 2, flags, u.plen, omit, u, u.prefix[omit..(u.plen + 7) / 8])
  {
    RebuildV6(u.prefix, u.plen, OmitV6(c, u), d.v6p, ChannelBytes(u.channels));
    NotesV6(c, d, None, u);
  }

  /** The update TLV for an IPv6 prefix, once the router-id is settled. */
  lemma RebuildsV6(c: Comp, d: Dec, u: Update)
    requires ValidUpdate(u) && !IsV4(u) && InSync(c.(id := None), d)
    requires IdPart(c, u).1 == 0 ==> d.id == Some(u.id)
    ensures RebuildsBody(d, Noted(d, 2, PrefixFlag(c, u) + IdPart(c, u).1, u.prefix), 2, UpdateBody(c, u), u)
  {
    var omit, flags := OmitV6(c, u), PrefixFlag(c, u) + IdPart(c, u).1;
    RebuildsPrefixV6(c, d, u);
    UpdateBodyV6(c, u);
    RebuildsFrom(d, Noted(d, 2, flags, u.prefix), 2, flags, u.plen, omit, u, u.prefix[omit..(u.plen + 7) / 8]);
  }

  lemma UpdateBodyV6(c: Comp, u: Update)
    requires ValidUpdate(u) && ValidComp(c) && !IsV4(u)
    ensures var omit, flags := OmitV6(c, u), PrefixFlag(c, u) + IdPart(c, u).1;
            UpdateBody(c, u) == Body(2, flags, u.plen, omit, u, u.prefix[omit..(u.plen + 7) / 8])
  {
  }

  lemma RebuildsPrefixV4(d: Dec, u: Update)
    requires ValidUpdate(u) && IsV4(u) && ValidDec(d) && d.id == Some(u.id) && d.v4nh.Some?
    ensures Rebuilds(d, d, 1, 0, u.plen - 96, 0, u, u.prefix[12..12 + (u.plen - 96 + 7) / 8])
  {
    RebuildV4(u.prefix, u.plen, d.v4p, ChannelBytes(u.channels));
  }

  lemma RebuildsV4(c: Comp, d: Dec, u: Update)
    requires ValidUpdate(u) && IsV4(u) && ValidDec(d) && d.id == Some(u.id) && d.v4nh.Some? && ValidComp(c)
    ensures RebuildsBody(d, d, 1, UpdateBody(c, u), u)
  {
    RebuildsPrefixV4(d, u);
    RebuildsFrom(d, d, 1, 0, u.plen - 96, 0, u, u.prefix[12..12 + (u.plen - 96 + 7) / 8]);
  }

  lemma HearsNh(d: Dec, env: Env, a: seq<byte>)
    requires ValidDec(d) && |a| == 4
    ensures OnTlv(d, env, MESSAGE_NH, [1, 0] + a) == (d.(v4nh := Some(V4PREFIX + a)), [])
  {
    assert ([1, 0] + a)[2..] == a + [];
    RebuildNextHop(a, []);
  }

  lemma HearsId(d: Dec, env: Env, id: seq<byte>)
    requires ValidDec(d) && |id| == 8
    ensures OnTlv(d, env, MESSAGE_ROUTER_ID, [0, 0] + id) == (d.(id := Some(id)), [])
  {
    assert ([0, 0] + id)[2..10] == id;
  }

  /** The receiver after the next-hop part. */
  function HeardNh(d: Dec, ipv4: Option<seq<byte>>, u: Update): Dec {
    if IsV4(u) && ipv4.Some? then d.(v4nh := Some(V4PREFIX + ipv4.value)) else d
  }

  /** The NH part of an IPv4 update brings the receiver's next hop up to date. */
  lemma {:induction false} RunNhPart(c: Comp, d: Dec, env: Env, ipv4: Option<seq<byte>>, u: Update)
    requires ValidUpdate(u) && InSync(c, d) && (ipv4.Some? ==> |ipv4.value| == 4)
    ensures Run(d, env, NhPart(c, ipv4, u)) == Some((HeardNh(d, ipv4, u), []))
  {
    if NhPart(c, ipv4, u) != [] {
      HearsNh(d, env, ipv4.value);
      RunTlv(d, env, MESSAGE_NH, [1, 0] + ipv4.value);
    }
  }

  /** So does the router-id part: afterwards the id is known, unless the prefix will tell. */
  lemma {:induction false} RunIdPart(c: Comp, d: Dec, env: Env, u: Update) returns (d': Dec)
    requires ValidUpdate(u) && InSync(c, d)
    ensures InSync(c.(id := None), d') && d'.v4nh == d.v4nh
    ensures IdPart(c, u).1 == 0 ==> d'.id == Some(u.id)
    ensures Run(d, env, IdPart(c, u).0) == Some((d', []))
  {
    d' := d;
    if IdPart(c, u).0 != [] {
      HearsId(d, env, u.id);
      RunTlv(d, env, MESSAGE_ROUTER_ID, [0, 0] + u.id);
      d' := d.(id := Some(u.id));
    }
  }

  /** The update TLV, after the parts before it. */
  lemma {:induction false} RunUpdateTlv(c: Comp, d: Dec, env: Env, ipv4: Option<seq<byte>>, u: Update) returns (d': Dec)
    requires ValidUpdate(u) && InSync(c.(id := None), d) && (ipv4.Some? ==> |ipv4.value| == 4)
    requires IsV4(u) ==> ipv4.Some? && c.nh == ipv4
    requires IdPart(c, u).1 == 0 ==> d.id == Some(u.id)
    ensures InSync(CompAfter(c, ipv4, u), d')
    ensures Run(d, env, Tlv(MESSAGE_UPDATE, UpdateBody(c, u))) == Some((d', Expected(env, ipv4, u)))
  {
    RunTlv(d, env, MESSAGE_UPDATE, UpdateBody(c, u));
    if IsV4(u) {
      d' := d;
      RebuildsV4(c, d, u);
      HearsBody(d, d', env, 1, UpdateBody(c, u), u);
    } else {
      d' := Noted(d, 2, PrefixFlag(c, u) + IdPart(c, u).1, u.prefix);
      NotesV6(c, d, ipv4, u);
      RebuildsV6(c, d, u);
      HearsBody(d, d', env, 2, UpdateBody(c, u), u);
    }
  }

  /** Compression round trip for one update: whatever was said before, the receiver gets the
      router-id, prefix, length, seqno, metric, next hop and channels that were sent, and
      stays in step with the sender. */
  lemma {:induction false} RunEncoded(c: Comp, d: Dec, env: Env, ipv4: Option<seq<byte>>, u: Update) returns (d': Dec)
    requires ValidUpdate(u) && InSync(c, d) && (ipv4.Some? ==> |ipv4.value| == 4)
    ensures InSync(CompAfter(c, ipv4, u), d')
    ensures Run(d, env, Encoded(c, ipv4, u)) == Some((d', Expected(env, ipv4, u)))
  {
    if IsV4(u) && ipv4.None? {
      d' := d;
    } else {
      var nh, id, tlv := NhPart(c, ipv4, u), IdPart(c, u).0, Tlv(MESSAGE_UPDATE, UpdateBody(c, u));
      var c1 := c.(nh := if IsV4(u) then ipv4 else c.nh);
      assert IdPart(c1, u) == IdPart(c, u) && UpdateBody(c1, u) == UpdateBody(c, u);
      var d1 := HeardNh(d, ipv4, u);
      RunNhPart(c, d, env, ipv4, u);
      var d2 := RunIdPart(c1, d1, env, u);
      d' := RunUpdateTlv(c1, d2, env, ipv4, u);
      var out := Expected(env, ipv4, u);
      RunTwo(d1, d2, d', env, id, tlv, [], out);
      RunTwo(d, d1, d', env, nh, id + tlv, [], [] + out);
      assert [] + ([] + out) == out;
    }
  }

  // ---- Whole packets ------------------------------------------------------------------

  /** What an interface is asked to put into its packets: an update (with the interface's
      IPv4 address at the time), a wildcard retraction, or a message of another kind. */
  datatype Item =
    | Upd(u: Update, ipv4: Option<seq<byte>>)
    | Wildcard(seqno: u16)
    | Other(t: byte, body: seq<byte>)

  predicate ValidItem(i: Item) {
    match i
    case Upd(u, ipv4) => ValidUpdate(u) && (ipv4.Some? ==> |ipv4.value| == 4) && (IsV4(u) ==> ipv4.Some?)
    case Wildcard(_) => true
    case Other(t, body) => t !in {0, MESSAGE_ROUTER_ID, MESSAGE_NH, MESSAGE_UPDATE} && |body| < 256
  }

  function Written(c: Comp, i: Item): (b: seq<byte>)
    requires ValidItem(i) && ValidComp(c)
    ensures b != []
  {
    match i
    case Upd(u, ipv4) => Encoded(c, ipv4, u)
    case Wildcard(seqno) => WildcardTlv(seqno)
    case Other(t, body) => Tlv(t, body)
  }

  function Said(c: Comp, i: Item): (c': Comp)
    requires ValidItem(i) && ValidComp(c)
    ensures ValidComp(c')
  {
    match i
    case Upd(u, ipv4) => CompAfter(c, ipv4, u)
    case Wildcard(_) => c.(id := None)
    case Other(_, _) => c
  }

  function Heard(env: Env, i: Item): seq<Output>
    requires ValidItem(i)
  {
    match i
    case Upd(u, ipv4) => Expected(env, ipv4, u)
    case Wildcard(_) => [RetractAll]
    case Other(_, _) => []
  }

  ghost predicate ValidItems(s: seq<Item>) { forall i <- s :: ValidItem(i) }

  /** What the sender believes to have said after `s`. */
  ghost function SaidAll(s: seq<Item>): (c: Comp)
    requires ValidItems(s)
    ensures ValidComp(c)
  {
    if s == [] then NOTHING_SAID else Said(SaidAll(s[..|s| - 1]), s[|s| - 1])
  }

  /** The body of a packet of the items `s`. */
  ghost function WrittenAll(s: seq<Item>): seq<byte>
    requires ValidItems(s)
  {
    if s == [] then [] else WrittenAll(s[..|s| - 1]) + Written(SaidAll(s[..|s| - 1]), s[|s| - 1])
  }

  lemma WrittenNext(s: seq<Item>, i: Item)
    requires ValidItems(s) && ValidItem(i)
    ensures ValidItems(s + [i])
    ensures WrittenAll(s + [i]) == WrittenAll(s) + Written(SaidAll(s), i)
    ensures SaidAll(s + [i]) == Said(SaidAll(s), i)
  {
    assert (s + [i])[..|s|] == s;
  }

  ghost function HeardAll(env: Env, s: seq<Item>): seq<Output>
    requires ValidItems(s)
  {
    if s == [] then [] else HeardAll(env, s[..|s| - 1]) + Heard(env, s[|s| - 1])
  }

  lemma HearsWildcard(d: Dec, env: Env, seqno: u16)
    requires ValidDec(d)
    ensures Run(d, env, WildcardTlv(seqno)) == Some((d.(id := Some(Zeros(8))), [RetractAll]))
  {
    var body := Fields(0, 0x40, 0, 0, 0xFFFF, seqno, 0xFFFF);
    RunTlv(d, env, MESSAGE_UPDATE, body);
    assert body[8..] == Short(0xFFFF) + [];
    GetShortOfShort(0xFFFF, []);
    assert MaskPrefix(Zeros(16), 0) == Zeros(16);
    assert Zeros(16)[8..] == Zeros(8);
  }

  lemma RunItem(c: Comp, d: Dec, env: Env, i: Item) returns (d': Dec)
    requires ValidItem(i) && InSync(c, d)
    ensures ValidComp(c) && InSync(Said(c, i), d')
    ensures Run(d, env, Written(c, i)) == Some((d', Heard(env, i)))
  {
    match i
    case Upd(u, ipv4) => d' := RunEncoded(c, d, env, ipv4, u);
    case Wildcard(seqno) =>
      HearsWildcard(d, env, seqno);
      d' := d.(id := Some(Zeros(8)));
    case Other(t, body) =>
      RunTlv(d, env, t, body);
      d' := d;
  }

  /** The round trip for all the items of a packet; the body is a whole number of messages. */
  lemma {:induction false} RunItems(env: Env, s: seq<Item>) returns (d: Dec)
    requires ValidItems(s)
    ensures InSync(SaidAll(s), d)
    ensures Run(NOTHING_HEARD, env, WrittenAll(s)) == Some((d, HeardAll(env, s)))
    decreases |s|
  {
    if s == [] {
      d := NOTHING_HEARD;
    } else {
      var n, i := s[..|s| - 1], s[|s| - 1];
      var d1 := RunItems(env, n);
      d := RunItem(SaidAll(n), d1, env, i);
      RunTwo(NOTHING_HEARD, d1, d, env, WrittenAll(n), Written(SaidAll(n), i), HeardAll(env, n), Heard(env, i));
    }
  }

  /** Parsing the body of a packet gives exactly the updates and retractions put into it, in
      order, each with its own router-id, prefix, length, seqno, metric and next hop. */
  lemma PacketRoundTrip(env: Env, s: seq<Item>)
    requires ValidItems(s)
    ensures Decode(NOTHING_HEARD, env, WrittenAll(s)) == HeardAll(env, s)
  {
    var d := RunItems(env, s);
    RunDecodes(NOTHING_HEARD, env, WrittenAll(s));
  }
}
