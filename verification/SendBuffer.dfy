/** The send side of an interface: messages are written byte by byte into the send buffer,
    which is flushed as a packet whenever the next group might not fit. */
module SendBuffer {
  import opened Options
  import opened Bytes
  import opened Seqno
  import opened BabelTypes
  import opened BabelPrefix
  import opened Sorting
  import opened UpdateCodec
  import opened UpdateRoundTrip
  import opened UpdateBatch

  const BUCKET_TOKENS_MAX := 200
  const BUCKET_TOKENS_PER_SEC := 40
  const GROUP := 60   // 20 + 12 + 28, the worst case reserved for an update

  /** What the rest of the daemon sets: if_up, the interface's IPv4 address, the announced
      interval, the routing tables and the output filter. */
  datatype Config = Config(
    up: bool, ipv4: Option<seq<byte>>, interval: u16, tables: Tables, filter: (RouterId, Dest) -> nat)

  predicate ValidAdvert(a: Advert) {
    && |a.id| == 8 && Masked(a.dest.prefix, a.dest.plen)
    && (a.channels.Some? ==> |a.channels.value| <= DIVERSITY_HOPS && 0 !in a.channels.value)
  }

  predicate ValidInstalled(r: Installed) { |r.id| == 8 && |r.channels| <= CHANNELS && 0 !in r.channels }

  ghost predicate ValidConfig(g: Config) {
    && (g.ipv4.Some? ==> |g.ipv4.value| == 4) && |g.tables.myid| == 8
    && forall d <- g.tables.installed :: ValidInstalled(g.tables.installed[d])
  }

  ghost predicate MaskedAll(q: seq<Dest>) { forall d <- q :: Masked(d.prefix, d.plen) }

  lemma DecisionValid(g: Config, d: Dest)
    requires ValidConfig(g) && Masked(d.prefix, d.plen) && !Decide(g.tables, d).Hidden?
    ensures ValidAdvert(Decide(g.tables, d).a)
  {
  }

  function ToUpdate(g: Config, a: Advert): Update {
    var add := g.filter(a.id, a.dest);
    var metric: int := if a.metric + add < INFINITY then a.metric + add else INFINITY;
    Update(a.id, a.dest.prefix, a.dest.plen, a.seqno, metric, g.interval,
           if g.tables.diversity then a.channels else None)
  }

  /** The interface is up and the output filter lets the prefix through. */
  predicate Considers(g: Config, a: Advert) { g.up && g.filter(a.id, a.dest) < INFINITY }

  /** What a call of really_send_update puts, if it puts anything. */
  ghost function Admitted(g: Config, a: Advert): seq<Item> {
    if !Considers(g, a) || (IsV4Dest(a.dest) && g.ipv4.None?) then []
    else [Upd(ToUpdate(g, a), g.ipv4)]
  }

  ghost function AdmittedAll(g: Config, p: seq<Advert>): seq<Item> {
    if p == [] then [] else Admitted(g, p[0]) + AdmittedAll(g, p[1..])
  }

  /** `items` is what flushing the queue `q` puts. */
  ghost predicate FlushOf(g: Config, q: seq<Dest>, items: seq<Item>) {
    if q == [] || !g.up then items == [] else BatchOf(g, q, items)
  }

  ghost predicate BatchOf(g: Config, q: seq<Dest>, items: seq<Item>) {
    exists b :: IsBatch(q, b) && items == AdmittedAll(g, Plan(g.tables, b, None))
  }

  /** Asking for `space` bytes with `room` left and the queue `q` puts `items` and leaves `q'`:
      the buffer is flushed, and the queue with it, exactly when there is too little room. */
  ghost predicate MadeRoom(g: Config, room: int, space: nat, q: seq<Dest>, items: seq<Item>, q': seq<Dest>) {
    if room >= space then items == [] && q' == q else q' == [] && FlushOf(g, q, items)
  }

  function NextLast(t: Tables, d: Dest, last: Option<Dest>): Option<Dest> {
    if last != Some(d) && Decide(t, d).Known? then Some(d) else last
  }

  ghost function PutNow(g: Config, d: Dest, last: Option<Dest>): seq<Item> {
    if last == Some(d) || Decide(g.tables, d).Hidden? then [] else Admitted(g, Decide(g.tables, d).a)
  }

  /** `items` is what the first `i` prefixes of the batch put. */
  ghost predicate Planned(g: Config, b: seq<Dest>, i: nat, last: Option<Dest>, items: seq<Item>) {
    i <= |b| && AdmittedAll(g, Plan(g.tables, b, None)) == items + AdmittedAll(g, Plan(g.tables, b[i..], last))
  }

  lemma PlannedNone(g: Config, b: seq<Dest>)
    ensures Planned(g, b, 0, None, [])
  {
    assert b[0..] == b;
  }

  lemma PlannedNext(g: Config, b: seq<Dest>, i: nat, last: Option<Dest>, items: seq<Item>)
    requires i < |b| && Planned(g, b, i, last, items)
    ensures Planned(g, b, i + 1, NextLast(g.tables, b[i], last), items + PutNow(g, b[i], last))
  {
    assert b[i..][1..] == b[i + 1..];
    var rest := Plan(g.tables, b[i + 1..], NextLast(g.tables, b[i], last));
    if last != Some(b[i]) && !Decide(g.tables, b[i]).Hidden? {
      assert Plan(g.tables, b[i..], last) == [Decide(g.tables, b[i]).a] + rest;
      assert ([Decide(g.tables, b[i]).a] + rest)[1..] == rest;
    }
  }

  lemma PlannedAll(g: Config, q: seq<Dest>, b: seq<Dest>, last: Option<Dest>, items: seq<Item>)
    requires IsBatch(q, b) && Planned(g, b, |b|, last, items)
    ensures BatchOf(g, q, items)
  {
    assert b[|b|..] == [] && items + [] == items;
  }

  /** How many updates a fresh queue has room for: a full dump, and a full packet. */
  function UpdateRoom(bufsize: nat, estimate: nat): (n: nat)
    ensures n >= estimate + 4 && n >= bufsize / 16 && (n == estimate + 4 || n == bufsize / 16)
  {
    if estimate + 4 < bufsize / 16 then bufsize / 16 else estimate + 4
  }

  // ---- Rate limit ---------------------------------------------------------------------

  /** Tokens come back, up to a maximum, only once all have been used. */
  function Refilled(bucket: int, seconds: int): int {
    if bucket > 0 || seconds <= 0 then bucket
    else if seconds * BUCKET_TOKENS_PER_SEC < BUCKET_TOKENS_MAX then seconds * BUCKET_TOKENS_PER_SEC
    else BUCKET_TOKENS_MAX
  }

  /** What is left of the tokens, and when they were last given out. */
  datatype Bucket = Bucket(tokens: int, time: int)

  /** check_bucket: the bucket afterwards, and whether the packet may leave. */
  function Asked(b: Bucket, now: int): (Bucket, bool) {
    var tokens := Refilled(b.tokens, now - b.time);
    (Bucket(if tokens > 0 then tokens - 1 else tokens, if b.tokens > 0 then b.time else now), tokens > 0)
  }

  /** How many packets leave when it is asked at these times. */
  function Granted(b: Bucket, times: seq<int>): nat
    decreases |times|
  {
    if times == [] then 0
    else (if Asked(b, times[0]).1 then 1 else 0) + Granted(Asked(b, times[0]).0, times[1..])
  }

  ghost predicate Rising(from: int, times: seq<int>) {
    forall i | 0 <= i < |times| :: from <= times[i] && forall j | i < j < |times| :: times[i] <= times[j]
  }

  /** The rate limit: whenever packets are offered, no more leave than the tokens there are and 40
      for every second that passes. */
  lemma {:induction false} RateLimit(b: Bucket, times: seq<int>, last: int)
    requires b.tokens >= 0 && b.time <= last && Rising(b.time, times) && forall t <- times :: t <= last
    ensures Granted(b, times) <= b.tokens + 40 * (last - b.time)
    decreases |times|
  {
    if times != [] {
      assert times[0] in times && forall t <- times[1..] :: t in times;
      RateLimit(Asked(b, times[0]).0, times[1..], last);
    }
  }

  /** ... and after five idle seconds a burst of 200 may leave at once, and no more. */
  lemma {:induction false} Burst(b: Bucket, now: int, n: nat)
    requires b.tokens == 0 && now - b.time >= 5
    ensures Granted(b, seq(n, _ => now)) == if n <= 200 then n else 200
  {
    if n > 0 {
      var times := seq(n, _ => now);
      assert times[1..] == seq(n - 1, _ => now);
      Spend(Asked(b, now).0, now, n - 1);
    }
  }

  lemma {:induction false} Spend(b: Bucket, now: int, n: nat)
    requires b.tokens >= 0 && now == b.time
    ensures Granted(b, seq(n, _ => now)) == if n <= b.tokens then n else b.tokens
    decreases n
  {
    if n > 0 {
      var times := seq(n, _ => now);
      assert times[1..] == seq(n - 1, _ => now);
      Spend(Asked(b, now).0, now, n - 1);
    }
  }

  // ---- Packets ------------------------------------------------------------------------

  /** A flushed packet, and whether the rate limiter let it out. */
  datatype Packet = Packet(bytes: seq<byte>, sent: bool)

  function Framed(body: seq<byte>): seq<byte>
    requires |body| < 0x10000
  {
    [42, 2] + Short(|body|) + body
  }

  /** The packets flushed, the items in each, and the items of the packet under
      construction with what they have said. */
  datatype Sent = Sent(flushed: seq<Packet>, sent: seq<seq<Item>>, current: seq<Item>, comp: Comp)

  ghost predicate PacketOf(p: Packet, s: seq<Item>) {
    ValidItems(s) && |WrittenAll(s)| < 0x10000 && p.bytes == Framed(WrittenAll(s))
  }

  /** Every packet flushed is its header and the bytes of its items, and `bytes` are those
      of the current items. */
  ghost predicate Ok(s: Sent, bytes: seq<byte>) {
    && |s.sent| == |s.flushed| && (forall k | 0 <= k < |s.sent| :: PacketOf(s.flushed[k], s.sent[k]))
    && ValidItems(s.current) && bytes == WrittenAll(s.current) && s.comp == SaidAll(s.current)
  }

  ghost function Flat(s: seq<seq<Item>>): seq<Item> {
    if s == [] then [] else Flat(s[..|s| - 1]) + s[|s| - 1]
  }

  /** All items ever put, in order. */
  ghost function Log(s: Sent): seq<Item> { Flat(s.sent) + s.current }

  /** The effect of a flush: an empty buffer makes no packet. */
  ghost function Emitted(s: Sent, bytes: seq<byte>, ok: bool): Sent
    requires |bytes| < 0x10000
  {
    if bytes == [] then s.(current := [], comp := NOTHING_SAID)
    else s.(flushed := s.flushed + [Packet(Framed(bytes), ok)], sent := s.sent + [s.current],
            current := [], comp := NOTHING_SAID)
  }

  lemma EmittedOk(s: Sent, bytes: seq<byte>, ok: bool)
    requires Ok(s, bytes) && |bytes| < 0x10000
    ensures Ok(Emitted(s, bytes, ok), []) && Log(Emitted(s, bytes, ok)) == Log(s)
  {
    assert bytes == [] ==> s.current == [];
    assert (s.sent + [s.current])[..|s.sent|] == s.sent;
  }

  lemma PutOk(s: Sent, bytes: seq<byte>, i: Item)
    requires Ok(s, bytes) && ValidItem(i)
    ensures var s' := s.(current := s.current + [i], comp := Said(s.comp, i));
            Ok(s', bytes + Written(s.comp, i)) && Log(s') == Log(s) + [i]
  {
    WrittenNext(s.current, i);
  }

  lemma Associative<T>(a: seq<T>, b: seq<T>, c: seq<T>)
    ensures a + (b + c) == (a + b) + c
  {
  }

  lemma Regroup3(a: seq<byte>, b: seq<byte>, c: seq<byte>, d: seq<byte>)
    ensures a + b + c + d == a + (b + (c + d))
  {
  }

  lemma EncodedIs(c: Comp, ipv4: Option<seq<byte>>, u: Update, was: seq<byte>)
    requires ValidItem(Upd(u, ipv4)) && ValidComp(c)
    ensures was + NhPart(c, ipv4, u) + IdPart(c, u).0 + Tlv(MESSAGE_UPDATE, UpdateBody(c, u)) == was + Encoded(c, ipv4, u)
  {
    Regroup3(was, NhPart(c, ipv4, u), IdPart(c, u).0, Tlv(MESSAGE_UPDATE, UpdateBody(c, u)));
  }

  class Interface {
    const sendbuf: array<byte>
    var buffered: nat
    var comp: Comp             // the have_buffered_... fields
    var queue: seq<Dest>       // buffered_updates
    var updateBufsize: nat     // how many of them there is room for
    var flushed: seq<Packet>
    var bucket: int
    var bucketTime: int
    var config: Config
    ghost var sent: seq<seq<Item>>
    ghost var current: seq<Item>

    ghost predicate Sized()
      reads this
    {
      64 <= sendbuf.Length < 0x10000 && buffered <= sendbuf.Length
    }

    ghost function Contents(): (s: seq<byte>)
      requires Sized()
      reads this, sendbuf
      ensures |s| == buffered
    {
      sendbuf[..buffered]
    }

    ghost function State(): Sent
      reads this
    {
      Sent(flushed, sent, current, comp)
    }

    ghost predicate Queued()
      reads this
    {
      ValidConfig(config) && |queue| <= updateBufsize && MaskedAll(queue)
    }

    /** Between messages. */
    ghost predicate Valid()
      reads this, sendbuf
    {
      Sized() && Queued() && Ok(State(), Contents())
    }

    function Room(): int
      reads this
    {
      sendbuf.Length - buffered
    }

    /** interface_up: room for at least two messages whatever the MTU */
    constructor (mtu: nat, config: Config, now: int)
      requires ValidConfig(config) && mtu < 0x10000 + 64
      ensures Valid() && fresh(sendbuf) && queue == [] && Log(State()) == []
      ensures sendbuf.Length == (if mtu < 128 then 128 else mtu) - 64
    {
      var m := if mtu < 128 then 128 else mtu;
      sendbuf := new byte[m - 64];
      buffered, comp, queue, updateBufsize, flushed := 0, NOTHING_SAID, [], 0, [];
      bucket, bucketTime := BUCKET_TOKENS_MAX, now;
      this.config := config;
      sent, current := [], [];
    }

    // ---- Bytes ------------------------------------------------------------------------

    /** accumulate_byte */
    method AccumulateByte(v: byte)
      requires Sized() && Room() >= 1
      modifies `buffered, sendbuf
      ensures Sized() && Contents() == old(Contents()) + [v]
    {
      sendbuf[buffered] := v;
      buffered := buffered + 1;
    }

    /** accumulate_short */
    method AccumulateShort(v: u16)
      requires Sized() && Room() >= 2
      modifies `buffered, sendbuf
      ensures Sized() && Contents() == old(Contents()) + Short(v)
    {
      sendbuf[buffered] := v / 256;
      sendbuf[buffered + 1] := v % 256;
      buffered := buffered + 2;
    }

    /** accumulate_bytes */
    method AccumulateBytes(v: seq<byte>)
      requires Sized() && Room() >= |v|
      modifies `buffered, sendbuf
      ensures Sized() && Contents() == old(Contents()) + v
    {
      forall i | 0 <= i < |v| {
        sendbuf[buffered + i] := v[i];
      }
      buffered := buffered + |v|;
    }

    /** end_message, whose assertion is its precondition */
    method EndMessage(t: byte, len: nat)
      requires Sized() && buffered >= len + 2
      requires sendbuf[buffered - len - 2] == t && sendbuf[buffered - len - 1] == len
    {
    }

    // ---- Flushing ---------------------------------------------------------------------

    /** check_bucket */
    method CheckBucket(now: int) returns (ok: bool)
      modifies `bucket, `bucketTime
      ensures ok <==> old(bucket) > 0 || now > old(bucketTime)
      ensures bucket == Refilled(old(bucket), now - old(bucketTime)) - (if ok then 1 else 0)
      ensures bucketTime == if old(bucket) > 0 then old(bucketTime) else now
      ensures (Bucket(bucket, bucketTime), ok) == Asked(Bucket(old(bucket), old(bucketTime)), now)
    {
      if bucket <= 0 {
        var seconds := now - bucketTime;
        if seconds > 0 {
          bucket := if seconds * BUCKET_TOKENS_PER_SEC < BUCKET_TOKENS_MAX
                    then seconds * BUCKET_TOKENS_PER_SEC else BUCKET_TOKENS_MAX;
        }
        bucketTime := now;
      }
      ok := bucket > 0;
      if ok { bucket := bucket - 1; }
    }

    /** flushbuf: whatever is buffered leaves as one packet, after the queued updates. */
    method FlushBuf(now: int) returns (ghost items: seq<Item>)
      requires Valid()
      modifies `buffered, `comp, `queue, `updateBufsize, `flushed, `bucket, `bucketTime, `sent, `current, sendbuf
      ensures Valid() && buffered == 0 && queue == [] && current == [] && comp == NOTHING_SAID
      ensures updateBufsize == if old(queue) == [] then old(updateBufsize) else 0
      ensures FlushOf(config, old(queue), items) && Log(State()) == old(Log(State())) + items
      decreases |queue|, 2
    {
      items := FlushUpdates(now);
      EmptyBuffer(now);
    }

    method EmptyBuffer(now: int)
      requires Valid()
      modifies `buffered, `comp, `flushed, `bucket, `bucketTime, `sent, `current
      ensures Valid() && buffered == 0 && current == [] && comp == NOTHING_SAID && Log(State()) == old(Log(State()))
    {
      var ok := EmitPacket(now);
    }

    /** The second half of flushbuf. */
    method EmitPacket(now: int) returns (ok: bool)
      requires Valid()
      modifies `buffered, `comp, `flushed, `bucket, `bucketTime, `sent, `current
      ensures Valid() && buffered == 0
      ensures State() == Emitted(old(State()), old(Contents()), ok)
      ensures Log(State()) == old(Log(State()))
    {
      ok := false;
      ghost var s, bytes := State(), Contents();
      if buffered > 0 {
        ok := CheckBucket(now);
        flushed := flushed + [Packet(Framed(sendbuf[..buffered]), ok)];
        sent := sent + [current];
      }
      buffered := 0;
      comp := NOTHING_SAID;
      current := [];
      EmittedOk(s, bytes, ok);
      assert State() == Emitted(s, bytes, ok) && Contents() == [];
    }

    /** ensure_space, and the test at the head of start_message */
    method EnsureSpace(now: int, space: nat) returns (ghost items: seq<Item>)
      requires Valid() && space <= sendbuf.Length
      modifies `buffered, `comp, `queue, `updateBufsize, `flushed, `bucket, `bucketTime, `sent, `current, sendbuf
      ensures Valid() && Room() >= space && MadeRoom(config, old(Room()), space, old(queue), items, queue)
      ensures old(Room()) >= space ==> State() == old(State()) && Contents() == old(Contents())
      ensures old(queue) == [] || old(Room()) >= space ==> updateBufsize == old(updateBufsize)
      ensures Log(State()) == old(Log(State())) + items
      decreases |queue|, 3
    {
      items := [];
      if sendbuf.Length - buffered < space {
        items := FlushBuf(now);
      }
    }

    /** The last two lines of start_message, and all it does where ensure_space has made room. */
    method PutHeader(t: byte, len: byte)
      requires Sized() && Room() >= len + 2
      modifies `buffered, sendbuf
      ensures Sized() && Contents() == old(Contents()) + [t, len]
    {
      AccumulateByte(t);
      AccumulateByte(len);
    }

    /** The header of a message stands after the contents `c`. */
    ghost predicate Begun(c: seq<byte>, t: byte, len: byte)
      reads this, sendbuf
    {
      Sized() && Queued() && Room() >= len && Ok(State(), c) && Contents() == c + [t, len]
    }

    /** start_message; `c` is what the buffer holds before the new message. */
    method StartMessage(now: int, t: byte, len: byte) returns (ghost items: seq<Item>, ghost c: seq<byte>)
      requires Valid() && len + 2 <= sendbuf.Length
      modifies `buffered, `comp, `queue, `updateBufsize, `flushed, `bucket, `bucketTime, `sent, `current, sendbuf
      ensures Begun(c, t, len)
      ensures MadeRoom(config, old(Room()), len + 2, old(queue), items, queue)
      ensures old(Room()) >= len + 2 ==> State() == old(State()) && c == old(Contents())
      ensures Log(State()) == old(Log(State())) + items
    {
      items := EnsureSpace(now, len + 2);
      c := Contents();
      PutHeader(t, len);
    }

    // ---- Updates ----------------------------------------------------------------------

    method SendNh(a: seq<byte>)
      requires Sized() && Room() >= 8 && |a| == 4
      modifies `buffered, sendbuf
      ensures Sized() && Contents() == old(Contents()) + NhTlv(a)
    {
      PutHeader(MESSAGE_NH, 6);
      AccumulateByte(1);
      AccumulateByte(0);
      AccumulateBytes(a);
      assert Contents() == old(Contents()) + NhTlv(a);
      EndMessage(MESSAGE_NH, 6);
    }

    method SendId(id: seq<byte>)
      requires Sized() && Room() >= 12 && |id| == 8
      modifies `buffered, sendbuf
      ensures Sized() && Contents() == old(Contents()) + IdTlv(id)
    {
      PutHeader(MESSAGE_ROUTER_ID, 10);
      AccumulateShort(0);
      AccumulateBytes(id);
      assert Contents() == old(Contents()) + IdTlv(id);
      EndMessage(MESSAGE_ROUTER_ID, 10);
    }

    method PutFlags(ae: byte, flags: byte, plen: byte, omit: byte)
      requires Sized() && Room() >= 4
      modifies `buffered, sendbuf
      ensures Sized() && Contents() == old(Contents()) + [ae, flags, plen, omit]
    {
      AccumulateByte(ae);
      AccumulateByte(flags);
      AccumulateByte(plen);
      AccumulateByte(omit);
    }

    method PutFields(ae: byte, flags: byte, plen: byte, omit: byte, interval: u16, seqno: u16, metric: u16)
      requires Sized() && Room() >= 10
      modifies `buffered, sendbuf
      ensures Sized() && Contents() == old(Contents()) + Fields(ae, flags, plen, omit, interval, seqno, metric)
    {
      PutFlags(ae, flags, plen, omit);
      AccumulateShort(interval);
      AccumulateShort(seqno);
      AccumulateShort(metric);
    }

    method PutTail(u: Update, bytes: seq<byte>)
      requires Sized() && ValidUpdate(u) && Room() >= |bytes| + |ChannelBytes(u.channels)|
      modifies `buffered, sendbuf
      ensures Sized() && Contents() == old(Contents()) + (bytes + ChannelBytes(u.channels))
    {
      AccumulateBytes(bytes);
      if u.channels.Some? {
        PutChannels(u.channels.value);
        Associative(old(Contents()), bytes, ChannelBytes(u.channels));
      }
    }

    method PutChannels(c: seq<byte>)
      requires Sized() && |c| < 256 && Room() >= |c| + 2
      modifies `buffered, sendbuf
      ensures Sized() && Contents() == old(Contents()) + ([2, |c|] + c)
    {
      PutHeader(2, |c|);
      AccumulateBytes(c);
      Associative(old(Contents()), [2, |c|], c);
    }

    method SendBody(ae: byte, flags: byte, plen: byte, omit: byte, u: Update, bytes: seq<byte>)
      requires Sized() && ValidUpdate(u) && |bytes| <= 16 && Room() >= 38
      modifies `buffered, sendbuf
      ensures Sized() && Contents() == old(Contents()) + Tlv(MESSAGE_UPDATE, Body(ae, flags, plen, omit, u, bytes))
    {
      var len := 10 + |bytes| + (if u.channels.Some? then |u.channels.value| + 2 else 0);
      PutHeader(MESSAGE_UPDATE, len);
      PutFields(ae, flags, plen, omit, u.interval, u.seqno, u.metric);
      PutTail(u, bytes);
      ghost var base, tail := old(Contents()), bytes + ChannelBytes(u.channels);
      Regroup3(base, [MESSAGE_UPDATE, len], Fields(ae, flags, plen, omit, u.interval, u.seqno, u.metric), tail);
      assert Contents()[|base|] == MESSAGE_UPDATE && Contents()[|base| + 1] == len;
      EndMessage(MESSAGE_UPDATE, len);
    }

    /** The loop that counts how many leading bytes of the prefix the receiver knows. */
    method OmittedBytes(u: Update) returns (omit: nat)
      requires ValidUpdate(u) && ValidComp(comp)
      ensures omit == OmitV6(comp, u)
    {
      omit := 0;
      if comp.prefix.Some? {
        var p := comp.prefix.value;
        while omit < u.plen / 8 && p[omit] == u.prefix[omit]
          invariant omit <= u.plen / 8 && p[..omit] == u.prefix[..omit]
        {
          omit := omit + 1;
        }
        CommonIs(p, u.prefix, u.plen / 8, omit);
      }
    }

    /** The messages of one IPv4 update. */
    method SendV4(u: Update)
      requires Sized() && ValidItem(Upd(u, config.ipv4)) && ValidComp(comp) && Room() >= GROUP && IsV4(u)
      modifies `buffered, `comp, sendbuf
      ensures Sized() && Contents() == old(Contents()) + Encoded(old(comp), config.ipv4, u)
      ensures comp == CompAfter(old(comp), config.ipv4, u)
    {
      SendNextHop(u);
      var flags := SendRouterId(u);
      SendBody(1, flags, u.plen - 96, 0, u, u.prefix[12..12 + (u.plen - 96 + 7) / 8]);
      EncodedIs(old(comp), config.ipv4, u, old(Contents()));
    }

    /** The messages of one IPv6 update. */
    method SendV6(u: Update)
      requires Sized() && ValidItem(Upd(u, config.ipv4)) && ValidComp(comp) && Room() >= GROUP && !IsV4(u)
      modifies `buffered, `comp, sendbuf
      ensures Sized() && Contents() == old(Contents()) + Encoded(old(comp), config.ipv4, u)
      ensures comp == CompAfter(old(comp), config.ipv4, u)
    {
      var flags := SendRouterId(u);
      SendBodyV6(u, flags);
      EncodedIs(old(comp), config.ipv4, u, old(Contents()));
      assert old(Contents()) + [] == old(Contents());
    }

    method SendBodyV6(u: Update, flags: byte)
      requires Sized() && ValidUpdate(u) && ValidComp(comp) && Room() >= 38 && flags < 0x80 && !IsV4(u)
      modifies `buffered, `comp, sendbuf
      ensures Sized() && Contents() == old(Contents()) + Tlv(MESSAGE_UPDATE, BodyV6(old(comp), u, flags))
      ensures comp == if PrefixFlag(old(comp), u) != 0 then old(comp).(prefix := Some(u.prefix)) else old(comp)
    {
      var omit := OmittedBytes(u);
      var flags' := flags;
      if comp.prefix.None? || u.plen >= 48 { flags' := flags + 0x80; }
      assert flags' == PrefixFlag(comp, u) + flags;
      SendBody(2, flags', u.plen, omit, u, u.prefix[omit..(u.plen + 7) / 8]);
      assert Body(2, flags', u.plen, omit, u, u.prefix[omit..(u.plen + 7) / 8]) == BodyV6(comp, u, flags);
      if flags' >= 0x80 { comp := comp.(prefix := Some(u.prefix)); }
    }

    method SendNextHop(u: Update)
      requires Sized() && config.ipv4.Some? && |config.ipv4.value| == 4 && IsV4(u) && Room() >= 8
      modifies `buffered, `comp, sendbuf
      ensures Sized() && Contents() == old(Contents()) + NhPart(old(comp), config.ipv4, u)
      ensures comp == old(comp).(nh := config.ipv4)
    {
      if comp.nh != config.ipv4 {
        SendNh(config.ipv4.value);
        comp := comp.(nh := config.ipv4);
      }
    }

    method SendRouterId(u: Update) returns (flags: byte)
      requires Sized() && ValidUpdate(u) && Room() >= 12
      modifies `buffered, `comp, sendbuf
      ensures Sized() && Contents() == old(Contents()) + IdPart(old(comp), u).0 && flags == IdPart(old(comp), u).1
      ensures comp == old(comp).(id := Some(u.id))
    {
      flags := 0;
      if comp.id != Some(u.id) {
        if !IsV4(u) && u.plen == 128 && u.prefix[8..] == u.id {
          flags := 0x40;
        } else {
          SendId(u.id);
        }
        comp := comp.(id := Some(u.id));
      }
    }

    /** The group of messages of one update, for which room has been reserved: no flush
        falls inside it. */
    method SendGroup(u: Update)
      requires Valid() && ValidItem(Upd(u, config.ipv4)) && Room() >= GROUP
      modifies `buffered, `comp, `current, sendbuf
      ensures Valid() && Log(State()) == old(Log(State())) + [Upd(u, config.ipv4)]
    {
      if IsV4(u) { SendV4(u); } else { SendV6(u); }
      current := current + [Upd(u, config.ipv4)];
      PutOk(old(State()), old(Contents()), Upd(u, config.ipv4));
    }

    /** really_send_update: what making room puts, and then the update. */
    method ReallySendUpdate(now: int, a: Advert) returns (ghost items: seq<Item>)
      requires Valid() && ValidAdvert(a)
      modifies `buffered, `comp, `queue, `updateBufsize, `flushed, `bucket, `bucketTime, `sent, `current, sendbuf
      ensures Valid() && Log(State()) == old(Log(State())) + items + Admitted(config, a)
      ensures MadeRoom(config, old(Room()), if Considers(config, a) then GROUP else 0, old(queue), items, queue)
      ensures old(queue) == [] ==> updateBufsize == old(updateBufsize)
      ensures old(Room()) >= GROUP ==> flushed == old(flushed)
      decreases |queue|, 8
    {
      items := [];
      if !config.up || config.filter(a.id, a.dest) >= INFINITY { return; }
      items := EnsureSpace(now, GROUP);
      if IsV4Dest(a.dest) && config.ipv4.None? { return; }
      SendGroup(ToUpdate(config, a));
    }

    /** flushupdates */
    method FlushUpdates(now: int) returns (ghost items: seq<Item>)
      requires Valid()
      modifies `buffered, `comp, `queue, `updateBufsize, `flushed, `bucket, `bucketTime, `sent, `current, sendbuf
      ensures Valid() && queue == [] && updateBufsize == if old(queue) == [] then old(updateBufsize) else 0
      ensures FlushOf(config, old(queue), items) && Log(State()) == old(Log(State())) + items
      decreases |queue|, 1
    {
      items := [];
      if |queue| > 0 {
        var b := queue;
        queue := [];
        updateBufsize := 0;
        if config.up {
          items := SendBatch(now, b, Log(State()));
        }
      }
    }

    /** The queue is empty and `items` have been put since the log was `l`. */
    ghost predicate Progress(l: seq<Item>, items: seq<Item>)
      reads this, sendbuf
    {
      Valid() && queue == [] && updateBufsize == 0 && Log(State()) == l + items
    }

    /** One pass of the loop of flushupdates. */
    method SendOne(now: int, d: Dest, last: Option<Dest>, ghost l: seq<Item>, ghost items: seq<Item>)
      returns (last': Option<Dest>)
      requires Progress(l, items) && Masked(d.prefix, d.plen)
      modifies `buffered, `comp, `queue, `updateBufsize, `flushed, `bucket, `bucketTime, `sent, `current, sendbuf
      ensures Progress(l, items + PutNow(config, d, last))
      ensures last' == NextLast(config.tables, d, last)
      decreases |queue|, 9
    {
      last' := last;
      if last != Some(d) {
        var a := Decide(config.tables, d);
        if !a.Hidden? {
          DecisionValid(config, d);
          ghost var none := ReallySendUpdate(now, a.a);
          if a.Known? { last' := Some(d); }
        }
      }
    }

    method SendBatch(now: int, q: seq<Dest>, ghost l: seq<Item>) returns (ghost items: seq<Item>)
      requires Progress(l, []) && MaskedAll(q)
      modifies `buffered, `comp, `queue, `updateBufsize, `flushed, `bucket, `bucketTime, `sent, `current, sendbuf
      ensures Progress(l, items) && BatchOf(config, q, items)
      decreases |queue|, 10
    {
      var b := SortBatch(q);
      items := [];
      var last := None;
      PlannedNone(config, b);
      for i := 0 to |b|
        invariant Progress(l, items) && Planned(config, b, i, last, items)
      {
        PlannedNext(config, b, i, last, items);
        ghost var put := PutNow(config, b[i], last);
        last := SendOne(now, b[i], last, l, items);
        items := items + put;
      }
      PlannedAll(config, q, b, last, items);
    }

    /** The sort at the head of flushupdates. */
    method SortBatch(q: seq<Dest>) returns (b: seq<Dest>)
      requires MaskedAll(q)
      ensures IsBatch(q, b) && MaskedAll(b)
    {
      var t, entries := config.tables, [];
      for i := 0 to |q|
        invariant entries == Entries(t, q)[..i]
      {
        var id := if q[i] in t.installed then t.installed[q[i]].id else t.myid;
        entries := entries + [Buffered(q[i], id)];
      }
      assert entries == Entries(t, q);
      CompareIsTotalOrder();
      var s := QSort(entries, Before);
      SortedIsBatch(t, q, s);
      b := Dests(s);
      SameMembers(q, b);
    }

    /** buffer_update; `estimate` is the number of installed and redistributed routes. */
    method BufferUpdate(now: int, d: Dest, estimate: nat) returns (ghost items: seq<Item>)
      requires Valid() && Masked(d.prefix, d.plen)
      modifies `buffered, `comp, `queue, `updateBufsize, `flushed, `bucket, `bucketTime, `sent, `current, sendbuf
      ensures Valid() && Log(State()) == old(Log(State())) + items
      ensures if 0 < |old(queue)| == old(updateBufsize)
              then queue == [d] && FlushOf(config, old(queue), items)
              else queue == old(queue) + [d] && items == []
      ensures updateBufsize == if 0 < |old(queue)| < old(updateBufsize) || (old(queue) == [] && old(updateBufsize) > 0)
                               then old(updateBufsize) else UpdateRoom(sendbuf.Length, estimate)
    {
      items := [];
      if |queue| > 0 && |queue| >= updateBufsize {
        items := FlushUpdates(now);
      }
      if updateBufsize == 0 {
        updateBufsize := UpdateRoom(sendbuf.Length, estimate);
      }
      queue := queue + [d];
    }

    // ---- Other messages ---------------------------------------------------------------

    /** send_wildcard_retraction: what making room puts, and then the retraction. */
    method SendWildcardRetraction(now: int) returns (ghost items: seq<Item>)
      requires Valid()
      modifies `buffered, `comp, `queue, `updateBufsize, `flushed, `bucket, `bucketTime, `sent, `current, sendbuf
      ensures Valid() && MadeRoom(config, old(Room()), if config.up then 12 else 0, old(queue), items, queue)
      ensures Log(State()) == old(Log(State())) + items + (if config.up then [Wildcard(config.tables.myseqno)] else [])
      ensures old(Room()) >= 12 ==> flushed == old(flushed)
    {
      items := [];
      if config.up {
        ghost var c;
        items, c := StartMessage(now, MESSAGE_UPDATE, 10);
        FinishWildcard(config.tables.myseqno, c);
      }
    }

    method FinishWildcard(seqno: u16, ghost c: seq<byte>)
      requires Begun(c, MESSAGE_UPDATE, 10)
      modifies `buffered, `comp, `current, sendbuf
      ensures Valid() && Log(State()) == old(Log(State())) + [Wildcard(seqno)]
    {
      PutWildcard(seqno, c);
      PutOk(State(), c, Wildcard(seqno));
      comp := comp.(id := None);
      current := current + [Wildcard(seqno)];
    }

    method PutWildcard(seqno: u16, ghost c: seq<byte>)
      requires Begun(c, MESSAGE_UPDATE, 10)
      modifies `buffered, sendbuf
      ensures Sized() && Contents() == c + WildcardTlv(seqno)
    {
      PutFields(0, 0x40, 0, 0, 0xFFFF, seqno, 0xFFFF);
      Associative(c, [MESSAGE_UPDATE, 10], Fields(0, 0x40, 0, 0, 0xFFFF, seqno, 0xFFFF));
      assert Contents()[|c|] == MESSAGE_UPDATE && Contents()[|c| + 1] == 10;
      EndMessage(MESSAGE_UPDATE, 10);
    }

    /** Any other message (a hello, an IHU, a request): what making room puts, and then it. */
    method SendOther(now: int, t: byte, body: seq<byte>) returns (ghost items: seq<Item>)
      requires Valid() && ValidItem(Other(t, body)) && |body| + 2 <= sendbuf.Length
      modifies `buffered, `comp, `queue, `updateBufsize, `flushed, `bucket, `bucketTime, `sent, `current, sendbuf
      ensures Valid() && MadeRoom(config, old(Room()), |body| + 2, old(queue), items, queue)
      ensures Log(State()) == old(Log(State())) + items + [Other(t, body)]
      ensures old(Room()) >= |body| + 2 ==> flushed == old(flushed)
    {
      ghost var c;
      items, c := StartMessage(now, t, |body|);
      FinishOther(t, body, c);
    }

    method FinishOther(t: byte, body: seq<byte>, ghost c: seq<byte>)
      requires ValidItem(Other(t, body)) && Begun(c, t, |body|)
      modifies `buffered, `current, sendbuf
      ensures Valid() && Log(State()) == old(Log(State())) + [Other(t, body)]
    {
      PutBody(t, body, c);
      PutOk(State(), c, Other(t, body));
      current := current + [Other(t, body)];
    }

    method PutBody(t: byte, body: seq<byte>, ghost c: seq<byte>)
      requires |body| < 256 && Begun(c, t, |body|)
      modifies `buffered, sendbuf
      ensures Sized() && Contents() == c + Tlv(t, body)
    {
      AccumulateBytes(body);
      Associative(c, [t, |body|], body);
      assert Contents()[|c|] == t && Contents()[|c| + 1] == |body|;
      EndMessage(t, |body|);
    }
  }
}
