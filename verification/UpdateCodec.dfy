/** The update part of the Babel packet format (section 4.4 of RFC 6126) as babeld writes
    and reads it: router-id, next-hop and prefix elision by the sender, and the parser's
    state that undoes it. */
module UpdateCodec {
  import opened Options
  import opened Bytes
  import opened Seqno
  import opened BabelPrefix

  const MESSAGE_ROUTER_ID: byte := 6
  const MESSAGE_NH: byte := 7
  const MESSAGE_UPDATE: byte := 8
  const DIVERSITY_HOPS := 8
  const BABEL_IF_CHANNEL_INTERFERING: byte := 255

  /** One call of really_send_update; `metric` already includes the output filter, and
      `channels` is None unless channel diversity is on. */
  datatype Update = Update(
    id: seq<byte>, prefix: seq<byte>, plen: nat, seqno: u16, metric: u16, interval: u16,
    channels: Option<seq<byte>>)

  predicate ValidUpdate(u: Update) {
    && |u.id| == 8 && Masked(u.prefix, u.plen)
    && (u.channels.Some? ==> |u.channels.value| <= DIVERSITY_HOPS && 0 !in u.channels.value)
  }

  predicate IsV4(u: Update) { u.plen >= 96 && V4Mapped(u.prefix) }

  // ---- Sender -----------------------------------------------------------------------

  /** The have_buffered_... fields of an interface: what the packet under construction has
      already said. */
  datatype Comp = Comp(id: Option<seq<byte>>, nh: Option<seq<byte>>, prefix: Option<seq<byte>>)

  predicate ValidComp(c: Comp) { c.prefix.Some? ==> |c.prefix.value| == 16 }

  const NOTHING_SAID := Comp(None, None, None)

  function Tlv(t: byte, body: seq<byte>): (b: seq<byte>)
    requires |body| < 256
    ensures |b| == |body| + 2
  {
    [t, |body|] + body
  }

  function IdTlv(id: seq<byte>): seq<byte>
    requires |id| == 8
  {
    Tlv(MESSAGE_ROUTER_ID, [0, 0] + id)
  }

  function NhTlv(a: seq<byte>): seq<byte>
    requires |a| == 4
  {
    Tlv(MESSAGE_NH, [1, 0] + a)
  }

  /** How many leading bytes of `b` repeat those of `a`, up to `n`. */
  function Common(a: seq<byte>, b: seq<byte>, n: nat): (k: nat)
    requires n <= |a| && n <= |b|
    ensures k <= n && a[..k] == b[..k] && (k < n ==> a[k] != b[k])
  {
    if n == 0 || a[0] != b[0] then 0
    else
      var k := 1 + Common(a[1..], b[1..], n - 1);
      assert a[..k] == [a[0]] + a[1..][..k - 1] && b[..k] == [b[0]] + b[1..][..k - 1];
      k
  }

  lemma CommonIs(a: seq<byte>, b: seq<byte>, n: nat, k: nat)
    requires n <= |a| && n <= |b| && k <= n && a[..k] == b[..k] && (k < n ==> a[k] != b[k])
    ensures Common(a, b, n) == k
  {
    var c := Common(a, b, n);
    assert forall i | 0 <= i < c :: a[i] == a[..c][i] == b[i];
    assert forall i | 0 <= i < k :: a[i] == a[..k][i] == b[i];
  }

  function ChannelBytes(ch: Option<seq<byte>>): seq<byte>
    requires ch.Some? ==> |ch.value| <= DIVERSITY_HOPS
  {
    if ch.None? then [] else [2, |ch.value|] + ch.value
  }

  /** The fixed part of an update. */
  function Fields(ae: byte, flags: byte, plen: byte, omit: byte, interval: u16, seqno: u16, metric: u16): (b: seq<byte>)
    ensures |b| == 10
  {
    [ae, flags, plen, omit] + Short(interval) + Short(seqno) + Short(metric)
  }

  function Body(ae: byte, flags: byte, plen: byte, omit: byte, u: Update, bytes: seq<byte>): (b: seq<byte>)
    requires ValidUpdate(u)
    ensures |b| == 10 + |bytes| + |ChannelBytes(u.channels)|
  {
    Fields(ae, flags, plen, omit, u.interval, u.seqno, u.metric) + (bytes + ChannelBytes(u.channels))
  }

  /** The router-id part: nothing if already said, a flag if the prefix holds it, a TLV
      otherwise. */
  function IdPart(c: Comp, u: Update): (seq<byte>, byte)
    requires ValidUpdate(u)
  {
    if c.id == Some(u.id) then ([], 0)
    else if !IsV4(u) && u.plen == 128 && u.prefix[8..] == u.id then ([], 0x40)
    else (IdTlv(u.id), 0)
  }

  function OmitV6(c: Comp, u: Update): (k: nat)
    requires ValidUpdate(u) && ValidComp(c)
    ensures k <= u.plen / 8
  {
    if c.prefix.None? then 0 else Common(c.prefix.value, u.prefix, u.plen / 8)
  }

  function PrefixFlag(c: Comp, u: Update): byte {
    if c.prefix.None? || u.plen >= 48 then 0x80 else 0
  }

  /** The body of the update TLV for an IPv4 prefix, which is never shortened. */
  function BodyV4(u: Update, idFlag: byte): (b: seq<byte>)
    requires ValidUpdate(u) && IsV4(u)
    ensures |b| <= 24
  {
    Body(1, idFlag, u.plen - 96, 0, u, u.prefix[12..12 + (u.plen - 96 + 7) / 8])
  }

  /** ... and for an IPv6 prefix, without the bytes the receiver knows already. */
  function BodyV6(c: Comp, u: Update, idFlag: byte): (b: seq<byte>)
    requires ValidUpdate(u) && !IsV4(u) && ValidComp(c) && idFlag < 0x80
    ensures |b| <= 36
  {
    var omit := OmitV6(c, u);
    Body(2, PrefixFlag(c, u) + idFlag, u.plen, omit, u, u.prefix[omit..(u.plen + 7) / 8])
  }

  /** The body of the update TLV. */
  function UpdateBody(c: Comp, u: Update): (b: seq<byte>)
    requires ValidUpdate(u) && ValidComp(c)
    ensures |b| <= 36
  {
    if IsV4(u) then BodyV4(u, IdPart(c, u).1) else BodyV6(c, u, IdPart(c, u).1)
  }

  function NhPart(c: Comp, ipv4: Option<seq<byte>>, u: Update): seq<byte>
    requires ipv4.Some? ==> |ipv4.value| == 4
  {
    if IsV4(u) && ipv4.Some? && c.nh != ipv4 then NhTlv(ipv4.value) else []
  }

  /** Everything really_send_update writes.  An IPv4 update is dropped on an interface
      without IPv4 address. */
  function Encoded(c: Comp, ipv4: Option<seq<byte>>, u: Update): (b: seq<byte>)
    requires ValidUpdate(u) && ValidComp(c) && (ipv4.Some? ==> |ipv4.value| == 4)
    ensures |b| <= 60
  {
    if IsV4(u) && ipv4.None? then [] else NhPart(c, ipv4, u) + (IdPart(c, u).0 + Tlv(MESSAGE_UPDATE, UpdateBody(c, u)))
  }

  function CompAfter(c: Comp, ipv4: Option<seq<byte>>, u: Update): Comp {
    if IsV4(u) && ipv4.None? then c
    else if IsV4(u) then Comp(Some(u.id), ipv4, c.prefix)
    else Comp(Some(u.id), c.nh, if PrefixFlag(c, u) != 0 then Some(u.prefix) else c.prefix)
  }

  /** send_wildcard_retraction */
  function WildcardTlv(seqno: u16): seq<byte> {
    Tlv(MESSAGE_UPDATE, Fields(0, 0x40, 0, 0, 0xFFFF, seqno, 0xFFFF))
  }

  // ---- Receiver ----------------------------------------------------------------------

  /** The parser's variables, None while have_... is 0. */
  datatype Dec = Dec(
    id: Option<seq<byte>>, v4p: Option<seq<byte>>, v6p: Option<seq<byte>>,
    v4nh: Option<seq<byte>>, v6nh: Option<seq<byte>>)

  const NOTHING_HEARD := Dec(None, None, None, None, None)

  predicate ValidDec(d: Dec) {
    && (d.v4p.Some? ==> |d.v4p.value| == 16) && (d.v6p.Some? ==> |d.v6p.value| == 16)
  }

  /** The receiving interface: has an IPv4 address; is marked as faraway. */
  datatype Env = Env(hasV4: bool, faraway: bool)

  /** What the parser hands on: a call of update_route (a next hop of None stands for the
      neighbour's own address), or of retract_neighbour_routes. */
  datatype Output =
    | RouteUpdate(id: seq<byte>, prefix: seq<byte>, plen: nat, seqno: u16, metric: u16, interval: u16,
                  nexthop: Option<seq<byte>>, channels: seq<byte>)
    | RetractAll

  /** parse_route_attributes */
  function Attributes(a: seq<byte>, ch: seq<byte>): seq<byte>
    decreases |a|
  {
    if a == [] then ch
    else if a[0] == 0 then Attributes(a[1..], ch)
    else if |a| < 2 || a[1] > |a| then ch
    else
      var len: nat := if a[0] == 2 && a[1] > DIVERSITY_HOPS then DIVERSITY_HOPS else a[1];
      if a[0] == 2 then
        if |a| < 2 + len || 0 in a[2..2 + len] then ch
        else Attributes(a[2 + len..], a[2..2 + len])
      else if |a| < 2 + len then ch
      else Attributes(a[2 + len..], ch)
  }

  function DefaultChannels(metric: u16): seq<byte> {
    if metric < 256 then [] else [BABEL_IF_CHANNEL_INTERFERING]
  }

  predicate HasPrefixFlag(flags: byte) { flags >= 0x80 }
  predicate HasIdFlag(flags: byte) { flags % 0x80 >= 0x40 }

  /** The state after the prefix of an update has been rebuilt. */
  function Noted(d: Dec, ae: byte, flags: byte, prefix: seq<byte>): Dec
    requires |prefix| == 16
  {
    var d1 := if !HasPrefixFlag(flags) then d
              else if ae == 1 then d.(v4p := Some(prefix)) else d.(v6p := Some(prefix));
    if !HasIdFlag(flags) then d1
    else if ae == 1 then d1.(id := Some([0, 0, 0, 0] + prefix[12..])) else d1.(id := Some(prefix[8..]))
  }

  function OnUpdate(d: Dec, env: Env, body: seq<byte>): (Dec, seq<Output>)
    requires ValidDec(d)
  {
    if |body| < 10 then
      (if |body| < 2 || HasPrefixFlag(body[1]) then d.(v4p := None, v6p := None) else d, [])
    else
      var ae, flags, plen, omitted := body[0], body[1], body[2], body[3];
      var r := if omitted == 0 || (if flags == 1 then d.v4p.Some? else d.v6p.Some?)
               then NetworkPrefix(ae, plen, omitted, body[10..], if ae == 1 then d.v4p else d.v6p)
               else None;
      if r.None? || r.value.1 < 0 then
        (if HasPrefixFlag(flags) then d.(v4p := None, v6p := None) else d, [])
      else
        var d' := Noted(d, ae, flags, r.value.0);
        (d', Accepted(d', env, body, r.value.0, r.value.1))
  }

  /** The rest of the update branch, once the prefix is known and `used` bytes of it were read. */
  function Accepted(d: Dec, env: Env, body: seq<byte>, prefix: seq<byte>, used: nat): seq<Output>
    requires |body| >= 10
  {
    var ae, metric := body[0], GetShort(body[8..]);
    var plen: int := body[2];
    if d.id.None? && ae != 0 then []
    else if ae == 0 then (if metric < 0xFFFF then [] else [RetractAll])
    else if ae == 1 && (d.v4nh.None? || !env.hasV4) then []
    else
      var channels :=
        if env.faraway then []
        else if 10 + used < |body| then Attributes(body[10 + used..], DefaultChannels(metric))
        else DefaultChannels(metric);
      [RouteUpdate(d.id.value, prefix, plen + (if ae == 1 then 96 else 0), GetShort(body[6..]), metric, GetShort(body[4..]),
                   if ae == 1 then d.v4nh else d.v6nh, channels)]
  }

  /** One message of the packet loop. */
  function OnTlv(d: Dec, env: Env, t: byte, body: seq<byte>): (r: (Dec, seq<Output>))
    requires ValidDec(d)
    ensures ValidDec(r.0)
  {
    if t == MESSAGE_ROUTER_ID then
      (d.(id := if |body| < 10 then None else Some(body[2..10])), [])
    else if t == MESSAGE_NH then
      var r := if |body| < 2 then None else NetworkPrefix(body[0], -1, 0, body[2..], None);
      if r.None? || r.value.1 < 0 then (d.(v4nh := None, v6nh := None), [])
      else if body[0] == 1 then (d.(v4nh := Some(r.value.0)), [])
      else (d.(v6nh := Some(r.value.0)), [])
    else if t == MESSAGE_UPDATE then OnUpdate(d, env, body)
    else (d, [])
  }

  /** The packet loop of parse_packet over the body of a packet; a message that claims to
      extend past the end stops it. */
  function Decode(d: Dec, env: Env, b: seq<byte>): seq<Output>
    requires ValidDec(d)
    decreases |b|
  {
    if b == [] then []
    else if b[0] == 0 then Decode(d, env, b[1..])
    else if |b| < 2 then []
    else
      var len: int := b[1];
      if |b| < 2 + len then []
      else
        var (d', out) := OnTlv(d, env, b[0], b[2..2 + len]);
        out + Decode(d', env, b[2 + len..])
  }
}
