/** parse_packet, as far as updates are concerned, and what it makes of the packets an
    interface flushes. */
module PacketParser {
  import opened Bytes
  import opened UpdateCodec
  import opened UpdateRoundTrip
  import opened SendBuffer

  /** The body of a packet; a length that exceeds the packet is cut down to it. */
  function PacketBody(p: seq<byte>): seq<byte>
    requires |p| >= 4
  {
    var n := GetShort(p[2..]);
    if n + 4 > |p| then p[4..] else p[4..4 + n]
  }

  predicate Accepts(linkLocal: bool, p: seq<byte>) { linkLocal && |p| >= 4 && p[0] == 42 && p[1] == 2 }

  function Parsed(linkLocal: bool, env: Env, p: seq<byte>): seq<Output> {
    if Accepts(linkLocal, p) then Decode(NOTHING_HEARD, env, PacketBody(p)) else []
  }

  /** `out` is what the messages before `i` said, and `d` the state they left. */
  ghost predicate At(env: Env, b: seq<byte>, i: nat, d: Dec, out: seq<Output>) {
    i <= |b| && ValidDec(d) && Decode(NOTHING_HEARD, env, b) == out + Decode(d, env, b[i..])
  }

  lemma AtPad(env: Env, b: seq<byte>, i: nat, d: Dec, out: seq<Output>)
    requires At(env, b, i, d, out) && i < |b| && b[i] == 0
    ensures At(env, b, i + 1, d, out)
  {
    assert b[i..][1..] == b[i + 1..];
  }

  lemma AtEnd(env: Env, b: seq<byte>, i: nat, d: Dec, out: seq<Output>)
    requires At(env, b, i, d, out)
    requires i == |b| || (b[i] != 0 && (i + 2 > |b| || i + 2 + b[i + 1] > |b|))
    ensures out == Decode(NOTHING_HEARD, env, b)
  {
    assert Decode(d, env, b[i..]) == [];
  }

  /** How the parser goes past one message. */
  lemma {:induction false} DecodeStep(d: Dec, d': Dec, env: Env, b: seq<byte>, more: seq<Output>)
    requires ValidDec(d) && |b| >= 2 && b[0] != 0 && 2 + b[1] <= |b|
    requires OnTlv(d, env, b[0], b[2..2 + b[1]]) == (d', more)
    ensures ValidDec(d') && Decode(d, env, b) == more + Decode(d', env, b[2 + b[1]..])
  {
  }

  lemma {:induction false} DecodeStepAt(env: Env, b: seq<byte>, i: nat, len: nat, d: Dec, d': Dec, more: seq<Output>)
    requires ValidDec(d) && i + 2 + len <= |b| && b[i] != 0 && b[i + 1] == len
    requires OnTlv(d, env, b[i], b[i + 2..i + 2 + len]) == (d', more)
    ensures ValidDec(d') && Decode(d, env, b[i..]) == more + Decode(d', env, b[i + 2 + len..])
  {
    var rest := b[i..];
    assert rest[2..2 + len] == b[i + 2..i + 2 + len] && rest[2 + len..] == b[i + 2 + len..];
    DecodeStep(d, d', env, rest, more);
  }

  lemma AtMore(env: Env, b: seq<byte>, i: nat, j: nat, d: Dec, out: seq<Output>, d': Dec, more: seq<Output>)
    requires At(env, b, i, d, out) && j <= |b| && ValidDec(d')
    requires Decode(d, env, b[i..]) == more + Decode(d', env, b[j..])
    ensures At(env, b, j, d', out + more)
  {
    var end := Decode(d', env, b[j..]);
    assert out + (more + end) == out + more + end;
  }

  /** One message, at `i`. */
  method ParseMessage(env: Env, b: seq<byte>, i: nat, d: Dec, ghost out: seq<Output>) returns (d': Dec, more: seq<Output>)
    requires At(env, b, i, d, out) && i + 2 <= |b| && i + 2 + b[i + 1] <= |b| && b[i] != 0
    ensures At(env, b, i + 2 + b[i + 1], d', out + more)
  {
    var len: int := b[i + 1];
    var r := OnTlv(d, env, b[i], b[i + 2..i + 2 + len]);
    d', more := r.0, r.1;
    DecodeStepAt(env, b, i, len, d, d', more);
    AtMore(env, b, i, i + 2 + len, d, out, d', more);
  }

  /** The packet loop. */
  method ParseBody(env: Env, b: seq<byte>) returns (out: seq<Output>)
    ensures out == Decode(NOTHING_HEARD, env, b)
  {
    var d, i := NOTHING_HEARD, 0;
    out := [];
    assert b[0..] == b;
    while i < |b|
      invariant i <= |b| && At(env, b, i, d, out)
    {
      if b[i] == 0 {
        AtPad(env, b, i, d, out);
        i := i + 1;
        continue;
      }
      if i + 2 > |b| || i + 2 + b[i + 1] > |b| { break; }
      var d', more := ParseMessage(env, b, i, d, out);
      d, out, i := d', out + more, i + 2 + b[i + 1];
    }
    AtEnd(env, b, i, d, out);
  }

  /** parse_packet; `linkLocal` tells whether the sender's address is a link-local one. */
  method ParsePacket(linkLocal: bool, env: Env, packet: seq<byte>) returns (out: seq<Output>)
    ensures out == Parsed(linkLocal, env, packet)
  {
    out := [];
    if !linkLocal { return; }
    if |packet| < 4 || packet[0] != 42 || packet[1] != 2 { return; }
    var bodylen := GetShort(packet[2..]);
    if bodylen + 4 > |packet| { bodylen := |packet| - 4; }
    assert packet[4..4 + bodylen] == PacketBody(packet);
    out := ParseBody(env, packet[4..4 + bodylen]);
  }

  lemma FramedBody(body: seq<byte>)
    requires |body| < 0x10000
    ensures Accepts(true, Framed(body)) && PacketBody(Framed(body)) == body
  {
    var p := Framed(body);
    assert p[2..] == Short(|body|) + body;
    GetShortOfShort(|body|, body);
    assert p[4..4 + |body|] == body;
  }

  /** The body of a packet of these items is a whole number of messages. */
  ghost predicate Whole(env: Env, s: seq<Item>) {
    ValidItems(s) && Run(NOTHING_HEARD, env, WrittenAll(s)).Some?
  }

  /** Every packet an interface has ever flushed is a whole number of messages, and a
      neighbour that parses it hears exactly the items put into it. */
  lemma FlushedParses(env: Env, s: Sent, bytes: seq<byte>, k: nat)
    requires Ok(s, bytes) && k < |s.flushed|
    ensures Whole(env, s.sent[k])
    ensures Parsed(true, env, s.flushed[k].bytes) == HeardAll(env, s.sent[k])
  {
    assert PacketOf(s.flushed[k], s.sent[k]);
    FramedBody(WrittenAll(s.sent[k]));
    PacketRoundTrip(env, s.sent[k]);
    var d := RunItems(env, s.sent[k]);
  }

  /** What a neighbour hears that receives all of these packets. */
  ghost function ParsedAll(env: Env, ps: seq<Packet>): seq<Output> {
    if ps == [] then [] else ParsedAll(env, ps[..|ps| - 1]) + Parsed(true, env, ps[|ps| - 1].bytes)
  }

  lemma {:induction false} HeardConcat(env: Env, a: seq<Item>, b: seq<Item>)
    requires ValidItems(a) && ValidItems(b)
    ensures ValidItems(a + b) && HeardAll(env, a + b) == HeardAll(env, a) + HeardAll(env, b)
    decreases |b|
  {
    if b == [] {
      assert a + b == a;
    } else {
      var n, x := b[..|b| - 1], b[|b| - 1];
      assert (a + b)[..|a + b| - 1] == a + n && (a + b)[|a + b| - 1] == x;
      HeardConcat(env, a, n);
    }
  }

  lemma {:induction false} FlatHeard(env: Env, s: Sent, bytes: seq<byte>, n: nat)
    requires Ok(s, bytes) && n <= |s.sent|
    ensures ValidItems(Flat(s.sent[..n]))
    ensures ParsedAll(env, s.flushed[..n]) == HeardAll(env, Flat(s.sent[..n]))
    decreases n
  {
    if n > 0 {
      FlatHeard(env, s, bytes, n - 1);
      FlushedParses(env, s, bytes, n - 1);
      assert s.sent[..n][..n - 1] == s.sent[..n - 1] && s.flushed[..n][..n - 1] == s.flushed[..n - 1];
      assert PacketOf(s.flushed[n - 1], s.sent[n - 1]);
      HeardConcat(env, Flat(s.sent[..n - 1]), s.sent[n - 1]);
    }
  }

  /** Conservation: what the packets say, followed by what is still in the buffer, is all
      that was ever put, in order; nothing is lost, repeated or garbled between updates,
      batches and packets. */
  lemma NothingLost(env: Env, s: Sent, bytes: seq<byte>)
    requires Ok(s, bytes)
    ensures ValidItems(Log(s))
    ensures ParsedAll(env, s.flushed) + HeardAll(env, s.current) == HeardAll(env, Log(s))
  {
    FlatHeard(env, s, bytes, |s.sent|);
    assert s.sent[..|s.sent|] == s.sent && s.flushed[..|s.sent|] == s.flushed;
    HeardConcat(env, Flat(s.sent), s.current);
  }
}
