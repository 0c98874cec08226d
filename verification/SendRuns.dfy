/** Runs of the send side of an interface. */
module SendRuns {
  import opened Bytes
  import opened BabelTypes
  import opened BabelPrefix
  import opened UpdateCodec
  import opened UpdateRoundTrip
  import opened SendBuffer
  import opened PacketParser

  datatype Op =
    | Announce(d: Dest, estimate: nat)
    | FlushQueue
    | FlushPacket
    | RetractAllRoutes
    | Message(t: byte, body: seq<byte>)
    | Reconfigure(config: Config)

  /** Prefixes are masked, and other messages fit into the smallest buffer. */
  ghost predicate ValidOp(op: Op) {
    match op
    case Announce(d, _) => Masked(d.prefix, d.plen)
    case Message(t, body) => ValidItem(Other(t, body)) && |body| <= 62
    case Reconfigure(g) => ValidConfig(g)
    case _ => true
  }

  /** What an operation depends on, and all that has been put so far. */
  datatype View = View(room: int, bufsize: nat, queue: seq<Dest>, updateBufsize: nat, config: Config, log: seq<Item>)

  ghost function ViewOf(i: Interface): View
    reads i
  {
    View(i.Room(), i.sendbuf.Length, i.queue, i.updateBufsize, i.config, Log(i.State()))
  }

  /** The queue takes `d`; a full one is flushed first. */
  ghost predicate Enqueues(v: View, d: Dest, estimate: nat, items: seq<Item>, v': View) {
    && (if 0 < |v.queue| == v.updateBufsize then v'.queue == [d] && FlushOf(v.config, v.queue, items)
        else v'.queue == v.queue + [d] && items == [])
    && v'.updateBufsize == (if |v.queue| < v.updateBufsize then v.updateBufsize else UpdateRoom(v.bufsize, estimate))
  }

  /** `op` puts `items`, and then `last`. */
  ghost predicate Puts(v: View, op: Op, items: seq<Item>, last: seq<Item>, v': View) {
    && v'.log == v.log + items + last && v'.bufsize == v.bufsize
    && v'.config == (if op.Reconfigure? then op.config else v.config)
    && match op
       case Announce(d, estimate) => Enqueues(v, d, estimate, items, v') && last == []
       case FlushQueue => v'.queue == [] && FlushOf(v.config, v.queue, items) && last == []
       case FlushPacket => v'.queue == [] && v'.room == v.bufsize && FlushOf(v.config, v.queue, items) && last == []
       case RetractAllRoutes =>
         && MadeRoom(v.config, v.room, if v.config.up then 12 else 0, v.queue, items, v'.queue)
         && last == (if v.config.up then [Wildcard(v.config.tables.myseqno)] else [])
       case Message(t, body) =>
         MadeRoom(v.config, v.room, |body| + 2, v.queue, items, v'.queue) && last == [Other(t, body)]
       case Reconfigure(_) => v'.queue == v.queue && items == [] && last == []
  }

  ghost predicate PutsTo(v: View, op: Op, v': View) { exists items, last :: Puts(v, op, items, last, v') }

  method Perform(i: Interface, op: Op, now: int) returns (ghost items: seq<Item>, ghost last: seq<Item>)
    requires i.Valid() && ValidOp(op)
    modifies i, i.sendbuf
    ensures i.Valid() && Puts(old(ViewOf(i)), op, items, last, ViewOf(i))
  {
    items, last := [], [];
    match op
    case Announce(d, estimate) => items := i.BufferUpdate(now, d, estimate);
    case FlushQueue => items := i.FlushUpdates(now);
    case FlushPacket => items := i.FlushBuf(now);
    case RetractAllRoutes =>
      items := i.SendWildcardRetraction(now);
      last := if i.config.up then [Wildcard(i.config.tables.myseqno)] else [];
    case Message(t, body) =>
      items := i.SendOther(now, t, body);
      last := [Other(t, body)];
    case Reconfigure(g) => i.config := g;
  }

  /** The operations lead through the views `vs`. */
  ghost predicate Through(ops: seq<(Op, int)>, vs: seq<View>) {
    |vs| == |ops| + 1 && forall n | 0 <= n < |ops| :: PutsTo(vs[n], ops[n].0, vs[n + 1])
  }

  method RunOps(i: Interface, ops: seq<(Op, int)>) returns (ghost vs: seq<View>)
    requires i.Valid() && forall o <- ops :: ValidOp(o.0)
    modifies i, i.sendbuf
    ensures i.Valid() && Through(ops, vs) && vs[0] == old(ViewOf(i)) && vs[|ops|] == ViewOf(i)
    decreases |ops|
  {
    if ops == [] {
      vs := [ViewOf(i)];
    } else {
      var n := |ops| - 1;
      assert ops[n] in ops && ops == ops[..n] + [ops[n]];
      vs := RunOps(i, ops[..n]);
      ghost var items, last := Perform(i, ops[n].0, ops[n].1);
      ThroughAppend(ops[..n], vs, ops[n], ViewOf(i));
      vs := vs + [ViewOf(i)];
    }
  }

  lemma ThroughAppend(ops: seq<(Op, int)>, vs: seq<View>, o: (Op, int), v: View)
    requires Through(ops, vs) && PutsTo(vs[|ops|], o.0, v)
    ensures Through(ops + [o], vs + [v])
  {
    var ops', vs' := ops + [o], vs + [v];
    forall n | 0 <= n < |ops'|
      ensures PutsTo(vs'[n], ops'[n].0, vs'[n + 1])
    {
      assert n < |ops| ==> vs'[n] == vs[n] && vs'[n + 1] == vs[n + 1] && ops'[n] == ops[n];
    }
  }

  /** After any sequence of operations: the log is what the operations put, one after the
      other; the buffer has not overflowed; every packet flushed is a whole number of messages;
      and a neighbour that parses the packets hears the log, in order, up to what is still in
      the buffer. */
  method RunAll(i: Interface, ops: seq<(Op, int)>, env: Env) returns (ghost vs: seq<View>)
    requires i.Valid() && forall o <- ops :: ValidOp(o.0)
    modifies i, i.sendbuf
    ensures Through(ops, vs) && vs[0] == old(ViewOf(i)) && vs[|ops|] == ViewOf(i)
    ensures i.buffered <= i.sendbuf.Length
    ensures |i.sent| == |i.flushed| && forall k | 0 <= k < |i.sent| :: PacketOf(i.flushed[k], i.sent[k]) && Whole(env, i.sent[k])
    ensures ValidItems(i.current) && ValidItems(vs[|ops|].log)
    ensures ParsedAll(env, i.flushed) + HeardAll(env, i.current) == HeardAll(env, vs[|ops|].log)
  {
    vs := RunOps(i, ops);
    NothingLost(env, i.State(), i.Contents());
    forall k | 0 <= k < |i.sent|
      ensures Whole(env, i.sent[k])
    {
      FlushedParses(env, i.State(), i.Contents(), k);
    }
  }
}
