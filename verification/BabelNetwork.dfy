/** Loop freedom of a network of babeld routers.

    A network is a set of routers (each an `Engine`), the update messages that are
    still in flight, and each router's own sequence number.  Messages may be lost,
    duplicated, delayed and reordered.  Routers take the elementary steps of
    `BabelEngine` in any order. */
module BabelNetwork {
  import opened Seqno
  import opened BabelTypes
  import opened BabelEngine

  /** Routers are named by their router-id. */
  type Node = RouterId

  datatype Message = Message(from: Addr, src: SourceKey, seqno: u16, metric: u16)

  datatype Net = Net(
    engines: map<Node, Engine>,
    myseqno: map<Node, u16>,
    owner: map<Addr, Node>,     // which router sends from which link address
    msgs: set<Message>,
    now: int)

  datatype Step =
      /** a router changes its own table; no message is involved */
    | Local(u: Node, ev: Event)
      /** update_route, called by the packet parser */
    | Receive(u: Node, m: Message, ev: Event)
      /** flushupdates on an installed route: update_source, and an update with the
          route's metric plus whatever the output filter adds */
    | Send(u: Node, ev: Event, from: Addr, out: u16)
      /** flushupdates on a redistributed route, or the retraction of an unknown prefix */
    | Originate(u: Node, from: Addr, dest: Dest, metric: u16)
    | BumpSeqno(u: Node)
    | Lose(m: Message)
    | Tick(t: int)

  /** The event carries exactly what the message says, learnt through its sender. */
  predicate Carries(u: Node, m: Message, ev: Event) {
    match ev
    case CreateSource(k, initial) => k == m.src && initial == m.seqno
    case Learn(key, src, seqno, refmetric, _, _, _) =>
      && src == m.src && seqno == m.seqno && refmetric == m.metric
      && key.neigh.address == m.from && src.id != u
    case Add(r) =>
      && r.src == m.src && r.seqno == m.seqno && r.refmetric == m.metric
      && r.neigh.address == m.from && r.src.id != u
    case _ => false
  }

  predicate IsLocal(ev: Event) {
    || ev.Install? || ev.Switch? || ev.Uninstall? || ev.Flush? || ev.SetCost? || ev.Expire? || ev.Retract?
    || ev.DropSource? || ev.ClampSource?
  }

  /** The metric of the advertised route, before the output filter. */
  function SentMetric(net: Net, u: Node, ev: Event): u16
    requires u in net.engines && ev.Advertise? && ev.key in net.engines[u].routes
  {
    AdvertisedMetric(net.engines[u], net.engines[u].routes[ev.key], ev.interferes)
  }

  ghost predicate StepEnabled(net: Net, s: Step) {
    match s
    case Local(u, ev) =>
      u in net.engines && IsLocal(ev) && Enabled(net.engines[u], net.now, ev)
    case Receive(u, m, ev) =>
      u in net.engines && m in net.msgs && Carries(u, m, ev) && Enabled(net.engines[u], net.now, ev)
    case Send(u, ev, from, out) =>
      && u in net.engines && ev.Advertise? && Enabled(net.engines[u], net.now, ev)
      && from in net.owner && net.owner[from] == u && out >= SentMetric(net, u, ev)
    case Originate(u, from, _, _) =>
      u in net.engines && u in net.myseqno && from in net.owner && net.owner[from] == u
    case BumpSeqno(u) => u in net.myseqno
    case Lose(m) => true
    case Tick(t) => t >= net.now
  }

  ghost function Next(net: Net, s: Step): Net
    requires StepEnabled(net, s)
  {
    match s
    case Local(u, ev) => net.(engines := net.engines[u := Apply(net.engines[u], net.now, ev)])
    case Receive(u, _, ev) => net.(engines := net.engines[u := Apply(net.engines[u], net.now, ev)])
    case Send(u, ev, from, out) =>
      var r := net.engines[u].routes[ev.key];
      net.(engines := net.engines[u := Apply(net.engines[u], net.now, ev)],
           msgs := net.msgs + {Message(from, r.src, r.seqno, out)})
    case Originate(u, from, dest, metric) =>
      net.(msgs := net.msgs + {Message(from, SourceKey(u, dest), net.myseqno[u], metric)})
    case BumpSeqno(u) => net.(myseqno := net.myseqno[u := SeqnoPlus(net.myseqno[u], 1)])
    case Lose(m) => net.(msgs := net.msgs - {m})
    case Tick(t) => net.(now := t)
  }

  /** Routers start with empty tables and nothing in flight. */
  ghost predicate Init(net: Net) {
    && net.msgs == {}
    && forall u <- net.engines :: net.engines[u].routes == map[] && net.engines[u].srcs == map[]
  }

  // ---- Hypotheses on a run ------------------------------------------------

  /** Seen from `base`, all sequence numbers in use for `k` lie in one half circle. */
  ghost predicate LiveFrom(net: Net, k: SourceKey, base: u16) {
    && (forall m <- net.msgs :: m.src == k ==> InWindow(m.seqno, base))
    && (forall u <- net.engines :: k in net.engines[u].srcs ==> InWindow(net.engines[u].srcs[k].seqno, base))
    && (forall u <- net.engines, rk <- net.engines[u].routes ::
          net.engines[u].routes[rk].src == k ==> InWindow(net.engines[u].routes[rk].seqno, base))
    && (k.id in net.myseqno ==> InWindow(net.myseqno[k.id], base))
  }

  ghost predicate SeqnosSpanHalf(net: Net, k: SourceKey) {
    exists base: u16 :: LiveFrom(net, k, base)
  }

  /** The entry for `k`, if any, is not older than SOURCE_GC_TIME. */
  ghost predicate Current(e: Engine, k: SourceKey, now: int) { k in e.srcs ==> !Stale(e.srcs[k], now) }

  /** The step decides about an installed route by the entry for `k`, updates that entry, or
      removes it. */
  ghost predicate Uses(e: Engine, ev: Event, k: SourceKey) {
    match ev
    case Install(key) => key in e.routes && e.routes[key].src == k
    case Switch(_, to) => to in e.routes && e.routes[to].src == k
    case Learn(key, src, _, refmetric, _, _, _) =>
      src == k && refmetric < INFINITY && key in e.routes && e.routes[key].installed
    case Advertise(key, interferes) =>
      key in e.routes && e.routes[key].src == k && AdvertisedMetric(e, e.routes[key], interferes) < INFINITY
    case DropSource(k') => k' == k
    case _ => false
  }

  /** A router relies on an entry for `k` that is past SOURCE_GC_TIME, or drops it.  Stale
      entries that nobody uses, and those of other sources, do no harm. */
  ghost predicate ActsOnStale(net: Net, s: Step, k: SourceKey) {
    && (s.Local? || s.Receive? || s.Send?) && s.u in net.engines
    && Uses(net.engines[s.u], s.ev, k) && !Current(net.engines[s.u], k, net.now)
  }

  /** A finite, unfeasible update for the source of an installed route that has been
      retracted: the one case in which a route becomes installed and finite without
      ever passing the feasibility condition. */
  ghost predicate Revives(net: Net, s: Step) {
    && s.Receive? && s.u in net.engines && s.ev.Learn?
    && s.ev.key in net.engines[s.u].routes && s.ev.src in net.engines[s.u].srcs
    && var e := net.engines[s.u];
       var r := e.routes[s.ev.key];
       && r.installed && r.src == s.ev.src && r.refmetric == INFINITY && s.ev.refmetric < INFINITY
       && !UpdateFeasible(e.srcs[s.ev.src], net.now, s.ev.seqno, s.ev.refmetric)
  }

  /** ... and the neighbour it goes through is not known to be closer to `k`. */
  ghost predicate Breaks(net: Net, s: Step, k: SourceKey) {
    Revives(net, s) && s.ev.src == k && !Below(net, k, s.u, s.ev.key.neigh.address)
  }

  /** `trace` is a run of the network taking `steps`. */
  ghost predicate Run(trace: seq<Net>, steps: seq<Step>) {
    && |trace| == |steps| + 1
    && Init(trace[0])
    && forall i | 0 <= i < |steps| :: StepEnabled(trace[i], steps[i]) && trace[i + 1] == Next(trace[i], steps[i])
  }

  ghost predicate Hypotheses(trace: seq<Net>, steps: seq<Step>, k: SourceKey)
    requires Run(trace, steps)
  {
    && (forall i | 0 <= i < |trace| :: SeqnosSpanHalf(trace[i], k))
    && (forall i | 0 <= i < |steps| :: !ActsOnStale(trace[i], steps[i], k) && !Breaks(trace[i], steps[i], k))
  }

  // ---- Forwarding loops ---------------------------------------------------

  /** Router `u` forwards to `v` for source `k`: an installed finite-metric route. */
  ghost predicate Forwards(net: Net, k: SourceKey, u: Node, rk: RouteKey, v: Node) {
    && u in net.engines && rk in net.engines[u].routes
    && var r := net.engines[u].routes[rk];
       && r.installed && r.src == k && r.Metric() < INFINITY
       && rk.neigh.address in net.owner && net.owner[rk.neigh.address] == v
  }

  /** `cycle` is a forwarding loop, `via[i]` being the route used by `cycle[i]`. */
  ghost predicate Loop(net: Net, k: SourceKey, cycle: seq<Node>, via: seq<RouteKey>) {
    && 0 < |cycle| == |via|
    && forall i | 0 <= i < |cycle| :: Forwards(net, k, cycle[i], via[i], cycle[(i + 1) % |cycle|])
  }

  // ---- The invariant ------------------------------------------------------

  /** Router `v` is the origin of `k`, or its feasibility distance is at least as good
      as (s, m). */
  ghost predicate Vouches(net: Net, k: SourceKey, a: Addr, s: u16, m: u16) {
    && a in net.owner
    && var v := net.owner[a];
       && v in net.engines
       && (v == k.id || (k in net.engines[v].srcs &&
                         AtLeast(net.engines[v].srcs[k].seqno, net.engines[v].srcs[k].metric, s, m)))
  }

  /** The neighbour is the origin of `k`, or its feasibility distance is strictly
      better than that of `u`. */
  ghost predicate Below(net: Net, k: SourceKey, u: Node, a: Addr)
    requires u in net.engines
  {
    && a in net.owner
    && var v := net.owner[a];
       && v in net.engines
       && k in net.engines[u].srcs
       && (v == k.id || (k in net.engines[v].srcs &&
                         Better(net.engines[v].srcs[k].seqno, net.engines[v].srcs[k].metric,
                                net.engines[u].srcs[k].seqno, net.engines[u].srcs[k].metric)))
  }

  /** What holds of one route to `k` in the table of `u`. */
  ghost predicate RouteOk(net: Net, k: SourceKey, u: Node, rk: RouteKey, r: Route)
    requires u in net.engines
  {
    && u != k.id
    && k in net.engines[u].srcs
    && (r.refmetric < INFINITY ==> Vouches(net, k, rk.neigh.address, r.seqno, r.refmetric))
    && (r.refmetric < INFINITY && r.installed ==> Below(net, k, u, rk.neigh.address))
  }

  ghost predicate Inv(net: Net, k: SourceKey) {
    && (forall m <- net.msgs :: m.src == k && m.metric < INFINITY ==> Vouches(net, k, m.from, m.seqno, m.metric))
    && (forall u <- net.engines, rk <- net.engines[u].routes ::
          net.engines[u].routes[rk].src == k ==> RouteOk(net, k, u, rk, net.engines[u].routes[rk]))
  }

  ghost predicate TablesOk(net: Net) {
    forall u <- net.engines :: WellFormed(net.engines[u]) && OneInstalled(net.engines[u])
  }

  // ---- Order of feasibility distances inside a half circle -----------------

  function Rank(base: u16, s: u16, m: u16): int {
    Offset(s, base) * 0x10000 + (0xFFFF - m)
  }

  lemma BetterIsRank(base: u16, s: u16, m: u16, s': u16, m': u16)
    requires InWindow(s, base) && InWindow(s', base)
    ensures Better(s, m, s', m') <==> Rank(base, s, m) > Rank(base, s', m')
    ensures AtLeast(s, m, s', m') <==> Rank(base, s, m) >= Rank(base, s', m')
  {
    CompareIsOffsetOrder(s, s', base);
    if Offset(s, base) == Offset(s', base) {
      assert s == s';
    }
  }

  // ---- Preservation -------------------------------------------------------

  /** A change to the table of `u` that leaves the distance for `k` alone keeps the
      invariant as soon as every route to `k` in the new table is justified. */
  lemma LocalChange(net: Net, k: SourceKey, u: Node, e': Engine, net': Net)
    requires Inv(net, k) && u in net.engines
    requires net' == net.(engines := net.engines[u := e'])
    requires k in net.engines[u].srcs ==>
               k in e'.srcs && e'.srcs[k].seqno == net.engines[u].srcs[k].seqno && e'.srcs[k].metric == net.engines[u].srcs[k].metric
    requires forall rk <- e'.routes :: e'.routes[rk].src == k ==> RouteOk(net', k, u, rk, e'.routes[rk])
    ensures Inv(net', k)
  {
    forall m <- net'.msgs | m.src == k && m.metric < INFINITY
      ensures Vouches(net', k, m.from, m.seqno, m.metric)
    {
      assert Vouches(net, k, m.from, m.seqno, m.metric);
    }
    forall w <- net'.engines, rk <- net'.engines[w].routes | net'.engines[w].routes[rk].src == k
      ensures RouteOk(net', k, w, rk, net'.engines[w].routes[rk])
    {
      if w != u {
        assert RouteOk(net, k, w, rk, net.engines[w].routes[rk]);
      }
    }
  }

  lemma InstallKeeps(net: Net, k: SourceKey, u: Node, ev: Event)
    requires Inv(net, k) && SeqnosSpanHalf(net, k) && !ActsOnStale(net, Local(u, ev), k)
    requires StepEnabled(net, Local(u, ev)) && (ev.Install? || ev.Switch?)
    ensures Inv(Next(net, Local(u, ev)), k)
  {
    var e := net.engines[u];
    var e' := Apply(e, net.now, ev);
    var net' := Next(net, Local(u, ev));
    var key := if ev.Install? then ev.key else ev.to;
    forall rk <- e'.routes | e'.routes[rk].src == k
      ensures RouteOk(net', k, u, rk, e'.routes[rk])
    {
      assert RouteOk(net, k, u, rk, e.routes[rk]);
      if rk == key && e.routes[rk].refmetric < INFINITY {
        FeasibleIsBelow(net, k, u, rk.neigh.address, e.routes[rk].seqno, e.routes[rk].refmetric);
      }
    }
    LocalChange(net, k, u, e', net');
  }

  /** A vouched-for route that passes the feasibility condition leads to a neighbour
      with a strictly better feasibility distance. */
  lemma FeasibleIsBelow(net: Net, k: SourceKey, u: Node, a: Addr, s: u16, m: u16)
    requires SeqnosSpanHalf(net, k) && u in net.engines && Current(net.engines[u], k, net.now)
    requires k in net.engines[u].srcs && m < INFINITY
    requires Vouches(net, k, a, s, m)
    requires UpdateFeasible(net.engines[u].srcs[k], net.now, s, m)
    requires forall base: u16 :: LiveFrom(net, k, base) ==> InWindow(s, base)
    ensures Below(net, k, u, a)
  {
    var v := net.owner[a];
    if v != k.id {
      var base: u16 :| LiveFrom(net, k, base);
      var fv, fu := net.engines[v].srcs[k], net.engines[u].srcs[k];
      BetterIsRank(base, fv.seqno, fv.metric, s, m);
      BetterIsRank(base, s, m, fu.seqno, fu.metric);
      BetterIsRank(base, fv.seqno, fv.metric, fu.seqno, fu.metric);
    }
  }

  /** The local steps that neither install a route nor learn one. */
  lemma OtherLocalKeeps(net: Net, k: SourceKey, u: Node, ev: Event)
    requires Inv(net, k) && StepEnabled(net, Local(u, ev)) && !ev.Install? && !ev.Switch?
    requires !ActsOnStale(net, Local(u, ev), k)
    ensures Inv(Next(net, Local(u, ev)), k)
  {
    var e := net.engines[u];
    var e' := Apply(e, net.now, ev);
    var net' := Next(net, Local(u, ev));
    forall rk <- e'.routes | e'.routes[rk].src == k
      ensures RouteOk(net', k, u, rk, e'.routes[rk])
    {
      assert RouteOk(net, k, u, rk, e.routes[rk]);
    }
    LocalChange(net, k, u, e', net');
  }

  lemma ReceiveKeeps(net: Net, k: SourceKey, u: Node, m: Message, ev: Event)
    requires Inv(net, k) && SeqnosSpanHalf(net, k) && !ActsOnStale(net, Receive(u, m, ev), k)
    requires StepEnabled(net, Receive(u, m, ev)) && !Breaks(net, Receive(u, m, ev), k)
    ensures Inv(Next(net, Receive(u, m, ev)), k)
  {
    var e := net.engines[u];
    var e' := Apply(e, net.now, ev);
    var net' := Next(net, Receive(u, m, ev));
    forall rk <- e'.routes | e'.routes[rk].src == k
      ensures RouteOk(net', k, u, rk, e'.routes[rk])
    {
      if ev.Learn? && rk == ev.key {
        var r := Learned(e, net.now, ev);
        if r.refmetric < INFINITY {
          assert Vouches(net, k, m.from, m.seqno, m.metric);
          if r.installed && UpdateFeasible(e.srcs[k], net.now, r.seqno, r.refmetric) {
            FeasibleIsBelow(net, k, u, rk.neigh.address, r.seqno, r.refmetric);
          } else if r.installed {
            assert RouteOk(net, k, u, rk, e.routes[rk]);
          }
        }
      } else if ev.Add? && rk == ev.route.Key() {
        assert Vouches(net, k, m.from, m.seqno, m.metric);
      } else {
        assert RouteOk(net, k, u, rk, e.routes[rk]);
      }
    }
    LocalChange(net, k, u, e', net');
  }

  /** Advertising a route only improves the sender's distance, and never beyond the
      distance of the neighbour the route goes through. */
  lemma SendKeeps(net: Net, k: SourceKey, s: Step)
    requires TablesOk(net) && Inv(net, k) && SeqnosSpanHalf(net, k) && !ActsOnStale(net, s, k)
    requires s.Send? && StepEnabled(net, s)
    ensures Inv(Next(net, s), k)
  {
    if net.engines[s.u].routes[s.ev.key].src == k {
      SendImproves(net, k, s);
    } else {
      SameForSource(net, k, Next(net, s));
    }
  }

  /** A step that changes neither routes nor the distances for `k`, and sends nothing
      for `k` except from its origin. */
  lemma SameForSource(net: Net, k: SourceKey, net': Net)
    requires Inv(net, k)
    requires net'.owner == net.owner && net'.engines.Keys == net.engines.Keys
    requires forall w <- net.engines :: net'.engines[w].routes == net.engines[w].routes
    requires forall w <- net.engines :: k in net.engines[w].srcs <==> k in net'.engines[w].srcs
    requires forall w <- net.engines :: k in net.engines[w].srcs ==> net'.engines[w].srcs[k] == net.engines[w].srcs[k]
    requires forall m <- net'.msgs :: m.src == k ==>
               m in net.msgs || (m.from in net.owner && net.owner[m.from] in net.engines && net.owner[m.from] == k.id)
    ensures Inv(net', k)
  {
    forall m <- net'.msgs | m.src == k && m.metric < INFINITY
      ensures Vouches(net', k, m.from, m.seqno, m.metric)
    {
      if m in net.msgs { assert Vouches(net, k, m.from, m.seqno, m.metric); }
    }
    forall w <- net'.engines, rk <- net'.engines[w].routes | net'.engines[w].routes[rk].src == k
      ensures RouteOk(net', k, w, rk, net'.engines[w].routes[rk])
    {
      assert RouteOk(net, k, w, rk, net.engines[w].routes[rk]);
    }
  }

  /** From `net` to `net'` only the distance of `u` for `k` changes, and it does not get worse. */
  ghost predicate Improves(net: Net, k: SourceKey, base: u16, u: Node, net': Net) {
    && LiveFrom(net, k, base)
    && net'.owner == net.owner && net'.engines.Keys == net.engines.Keys
    && (forall w <- net.engines :: w != u ==> net'.engines[w] == net.engines[w])
    && u in net.engines && k in net.engines[u].srcs && k in net'.engines[u].srcs
    && var fd, fd' := net.engines[u].srcs[k], net'.engines[u].srcs[k];
       InWindow(fd'.seqno, base) && Rank(base, fd'.seqno, fd'.metric) >= Rank(base, fd.seqno, fd.metric)
  }

  lemma VouchesImproves(net: Net, k: SourceKey, base: u16, u: Node, net': Net, a: Addr, s: u16, m: u16)
    requires Improves(net, k, base, u, net') && InWindow(s, base)
    requires Vouches(net, k, a, s, m)
    ensures Vouches(net', k, a, s, m)
  {
    var v := net.owner[a];
    if v == u && v != k.id {
      BetterIsRank(base, net.engines[u].srcs[k].seqno, net.engines[u].srcs[k].metric, s, m);
      BetterIsRank(base, net'.engines[u].srcs[k].seqno, net'.engines[u].srcs[k].metric, s, m);
    }
  }

  lemma BelowImproves(net: Net, k: SourceKey, base: u16, u: Node, net': Net, w: Node, a: Addr)
    requires Improves(net, k, base, u, net')
    requires w in net.engines && w != u && Below(net, k, w, a)
    ensures Below(net', k, w, a)
  {
    var v, fw := net.owner[a], net.engines[w].srcs[k];
    if v == u && v != k.id {
      BetterIsRank(base, net.engines[u].srcs[k].seqno, net.engines[u].srcs[k].metric, fw.seqno, fw.metric);
      BetterIsRank(base, net'.engines[u].srcs[k].seqno, net'.engines[u].srcs[k].metric, fw.seqno, fw.metric);
    }
  }

  /** The sender stays above the neighbour it routes through: that neighbour vouches for
      (seqno, refmetric), and what is advertised is strictly worse. */
  lemma SenderStaysAbove(net: Net, k: SourceKey, base: u16, s: Step)
    requires Inv(net, k) && LiveFrom(net, k, base) && !ActsOnStale(net, s, k)
    requires s.Send? && StepEnabled(net, s) && WellFormed(net.engines[s.u])
    requires net.engines[s.u].routes[s.ev.key].src == k
    requires net.engines[s.u].routes[s.ev.key].refmetric < INFINITY
    ensures Below(Next(net, s), k, s.u, s.ev.key.neigh.address)
  {
    var u, e := s.u, net.engines[s.u];
    var r, metric := e.routes[s.ev.key], SentMetric(net, s.u, s.ev);
    assert RouteOk(net, k, u, s.ev.key, r);
    var v, fu, fu' := net.owner[s.ev.key.neigh.address], e.srcs[k], Next(net, s).engines[u].srcs[k];
    if v != k.id {
      var fv := net.engines[v].srcs[k];
      BetterIsRank(base, fv.seqno, fv.metric, r.seqno, r.refmetric);
      BetterIsRank(base, fv.seqno, fv.metric, fu.seqno, fu.metric);
      assert v != u;
      BetterIsRank(base, fv.seqno, fv.metric, fu'.seqno, fu'.metric);
    }
  }

  lemma SameInstalled(e: Engine, k1: RouteKey, k2: RouteKey)
    requires WellFormed(e) && OneInstalled(e) && k1 in e.routes && k2 in e.routes
    requires e.routes[k1].installed && e.routes[k2].installed && e.routes[k1].src == e.routes[k2].src
    ensures k1 == k2
  {
    assert e.routes[k1].Key() == k1 && e.routes[k2].Key() == k2;
  }

  /** After a send every message for `k`, the new one included, is vouched for. */
  lemma SendMessageOk(net: Net, k: SourceKey, base: u16, s: Step, m: Message)
    requires Inv(net, k) && LiveFrom(net, k, base) && !ActsOnStale(net, s, k)
    requires s.Send? && StepEnabled(net, s) && net.engines[s.u].routes[s.ev.key].src == k
    requires m in Next(net, s).msgs && m.src == k && m.metric < INFINITY
    ensures Vouches(Next(net, s), k, m.from, m.seqno, m.metric)
  {
    SentIsImprovement(net, k, base, s);
    if m in net.msgs {
      VouchesImproves(net, k, base, s.u, Next(net, s), m.from, m.seqno, m.metric);
    } else {
      var fd' := Next(net, s).engines[s.u].srcs[k];
      BetterIsRank(base, fd'.seqno, fd'.metric, m.seqno, m.metric);
    }
  }

  /** The next hop of an installed finite route stays below when `s.u` sends. */
  lemma SendInstalledOk(net: Net, k: SourceKey, base: u16, s: Step, w: Node, rk: RouteKey)
    requires TablesOk(net) && Inv(net, k) && LiveFrom(net, k, base) && !ActsOnStale(net, s, k)
    requires s.Send? && StepEnabled(net, s) && net.engines[s.u].routes[s.ev.key].src == k
    requires w in net.engines && rk in net.engines[w].routes && net.engines[w].routes[rk].src == k
    requires net.engines[w].routes[rk].refmetric < INFINITY && net.engines[w].routes[rk].installed
    ensures Below(Next(net, s), k, w, rk.neigh.address)
  {
    assert RouteOk(net, k, w, rk, net.engines[w].routes[rk]);
    if w == s.u {
      SameInstalled(net.engines[w], rk, s.ev.key);
      SenderStaysAbove(net, k, base, s);
    } else {
      SentIsImprovement(net, k, base, s);
      BelowImproves(net, k, base, s.u, Next(net, s), w, rk.neigh.address);
    }
  }

  lemma SendRouteOk(net: Net, k: SourceKey, base: u16, s: Step, w: Node, rk: RouteKey)
    requires TablesOk(net) && Inv(net, k) && LiveFrom(net, k, base) && !ActsOnStale(net, s, k)
    requires s.Send? && StepEnabled(net, s) && net.engines[s.u].routes[s.ev.key].src == k
    requires w in net.engines && rk in net.engines[w].routes && net.engines[w].routes[rk].src == k
    ensures RouteOk(Next(net, s), k, w, rk, net.engines[w].routes[rk])
  {
    var q := net.engines[w].routes[rk];
    assert RouteOk(net, k, w, rk, q);
    if q.refmetric < INFINITY {
      SentIsImprovement(net, k, base, s);
      VouchesImproves(net, k, base, s.u, Next(net, s), rk.neigh.address, q.seqno, q.refmetric);
      if q.installed { SendInstalledOk(net, k, base, s, w, rk); }
    }
  }

  lemma SendImproves(net: Net, k: SourceKey, s: Step)
    requires TablesOk(net) && Inv(net, k) && SeqnosSpanHalf(net, k) && !ActsOnStale(net, s, k)
    requires s.Send? && StepEnabled(net, s) && net.engines[s.u].routes[s.ev.key].src == k
    ensures Inv(Next(net, s), k)
  {
    var net' := Next(net, s);
    var base: u16 :| LiveFrom(net, k, base);
    forall m <- net'.msgs | m.src == k && m.metric < INFINITY
      ensures Vouches(net', k, m.from, m.seqno, m.metric)
    {
      SendMessageOk(net, k, base, s, m);
    }
    forall w <- net'.engines, rk <- net'.engines[w].routes | net'.engines[w].routes[rk].src == k
      ensures RouteOk(net', k, w, rk, net'.engines[w].routes[rk])
    {
      SendRouteOk(net, k, base, s, w, rk);
    }
  }

  lemma SentIsImprovement(net: Net, k: SourceKey, base: u16, s: Step)
    requires LiveFrom(net, k, base) && !ActsOnStale(net, s, k)
    requires s.Send? && StepEnabled(net, s) && net.engines[s.u].routes[s.ev.key].src == k
    ensures Improves(net, k, base, s.u, Next(net, s))
    ensures var r, metric, fd' := net.engines[s.u].routes[s.ev.key], SentMetric(net, s.u, s.ev), Next(net, s).engines[s.u].srcs[k];
            metric < INFINITY ==> Rank(base, fd'.seqno, fd'.metric) >= Rank(base, r.seqno, metric)
  {
    var e := net.engines[s.u];
    var r, metric, fd := e.routes[s.ev.key], SentMetric(net, s.u, s.ev), e.srcs[k];
    CompareIsOffsetOrder(fd.seqno, r.seqno, base);
    CompareIsOffsetOrder(r.seqno, fd.seqno, base);
    assert SeqnoCompare(fd.seqno, r.seqno) < 0 <==> Offset(fd.seqno, base) < Offset(r.seqno, base);
    assert Offset(fd.seqno, base) == Offset(r.seqno, base) ==> fd.seqno == r.seqno;
  }

  // ---- Runs ---------------------------------------------------------------

  lemma InitInv(net: Net, k: SourceKey)
    requires Init(net)
    ensures TablesOk(net) && Inv(net, k)
  {
  }

  lemma BreaksInv(net: Net, k: SourceKey, s: Step)
    requires StepEnabled(net, s) && Breaks(net, s, k)
    ensures !Inv(Next(net, s), k)
  {
    var net', rk := Next(net, s), s.ev.key;
    assert net'.engines[s.u].routes[rk] == Learned(net.engines[s.u], net.now, s.ev);
    assert !Below(net', k, s.u, rk.neigh.address);
    assert !RouteOk(net', k, s.u, rk, net'.engines[s.u].routes[rk]);
  }

  lemma StepKeepsTables(net: Net, s: Step)
    requires TablesOk(net) && StepEnabled(net, s)
    ensures TablesOk(Next(net, s))
  {
    if s.Local? || s.Receive? || s.Send? {
      ApplyKeepsWellFormed(net.engines[s.u], net.now, s.ev);
      ApplyKeepsOneInstalled(net.engines[s.u], net.now, s.ev);
    }
  }

  /** A step keeps the invariant if and only if it does not revive a retracted installed
      route through a neighbour that is not closer. */
  lemma StepKeeps(net: Net, k: SourceKey, s: Step)
    requires TablesOk(net) && Inv(net, k) && SeqnosSpanHalf(net, k) && !ActsOnStale(net, s, k)
    requires StepEnabled(net, s)
    ensures Inv(Next(net, s), k) <==> !Breaks(net, s, k)
  {
    if Breaks(net, s, k) {
      BreaksInv(net, k, s);
      return;
    }
    match s {
      case Local(u, ev) =>
        if ev.Install? || ev.Switch? { InstallKeeps(net, k, u, ev); } else { OtherLocalKeeps(net, k, u, ev); }
      case Receive(u, m, ev) => ReceiveKeeps(net, k, u, m, ev);
      case Send(_, _, _, _) => SendKeeps(net, k, s);
      case _ => SameForSource(net, k, Next(net, s));
    }
  }

  /** Along any admissible run every successor of a forwarding router is the origin or
      has a strictly better feasibility distance than that router. */
  lemma {:induction false} RunInv(trace: seq<Net>, steps: seq<Step>, k: SourceKey, i: nat)
    requires Run(trace, steps) && Hypotheses(trace, steps, k) && i < |trace|
    ensures TablesOk(trace[i]) && Inv(trace[i], k)
  {
    if i == 0 {
      InitInv(trace[0], k);
    } else {
      RunInv(trace, steps, k, i - 1);
      StepKeepsTables(trace[i - 1], steps[i - 1]);
      StepKeeps(trace[i - 1], k, steps[i - 1]);
    }
  }

  lemma HopRank(net: Net, k: SourceKey, base: u16, u: Node, rk: RouteKey, v: Node)
    requires Inv(net, k) && LiveFrom(net, k, base) && Forwards(net, k, u, rk, v) && v != k.id
    ensures k in net.engines[u].srcs && v in net.engines && k in net.engines[v].srcs
    ensures Rank(base, net.engines[v].srcs[k].seqno, net.engines[v].srcs[k].metric)
          > Rank(base, net.engines[u].srcs[k].seqno, net.engines[u].srcs[k].metric)
  {
    assert RouteOk(net, k, u, rk, net.engines[u].routes[rk]);
    BetterIsRank(base, net.engines[v].srcs[k].seqno, net.engines[v].srcs[k].metric,
                 net.engines[u].srcs[k].seqno, net.engines[u].srcs[k].metric);
  }

  lemma {:induction false} RankGrows(net: Net, k: SourceKey, base: u16, cycle: seq<Node>, via: seq<RouteKey>, i: nat)
    requires Inv(net, k) && LiveFrom(net, k, base) && Loop(net, k, cycle, via) && i < |cycle|
    requires forall j | 0 <= j < |cycle| :: cycle[j] in net.engines && cycle[j] != k.id && k in net.engines[cycle[j]].srcs
    ensures Rank(base, net.engines[cycle[i]].srcs[k].seqno, net.engines[cycle[i]].srcs[k].metric)
         >= Rank(base, net.engines[cycle[0]].srcs[k].seqno, net.engines[cycle[0]].srcs[k].metric)
  {
    if i > 0 {
      RankGrows(net, k, base, cycle, via, i - 1);
      assert (i - 1 + 1) % |cycle| == i;
      HopRank(net, k, base, cycle[i - 1], via[i - 1], cycle[i]);
    }
  }

  lemma InvLoopFree(net: Net, k: SourceKey, cycle: seq<Node>, via: seq<RouteKey>)
    requires Inv(net, k) && SeqnosSpanHalf(net, k)
    ensures !Loop(net, k, cycle, via)
  {
    if Loop(net, k, cycle, via) {
      var base: u16 :| LiveFrom(net, k, base);
      forall j | 0 <= j < |cycle|
        ensures cycle[j] in net.engines && cycle[j] != k.id && k in net.engines[cycle[j]].srcs
      {
        assert Forwards(net, k, cycle[j], via[j], cycle[(j + 1) % |cycle|]);
        assert RouteOk(net, k, cycle[j], via[j], net.engines[cycle[j]].routes[via[j]]);
      }
      var n := |cycle| - 1;
      RankGrows(net, k, base, cycle, via, n);
      assert (n + 1) % |cycle| == 0;
      HopRank(net, k, base, cycle[n], via[n], cycle[0]);
    }
  }

  /** Loop freedom: in every state of every run that keeps the hypotheses, no set of
      routers forwards in a circle for any one source. */
  lemma LoopFreedom(trace: seq<Net>, steps: seq<Step>, k: SourceKey, i: nat, cycle: seq<Node>, via: seq<RouteKey>)
    requires Run(trace, steps) && Hypotheses(trace, steps, k) && i < |trace|
    ensures !Loop(trace[i], k, cycle, via)
  {
    RunInv(trace, steps, k, i);
    InvLoopFree(trace[i], k, cycle, via);
  }

  /** The same under conditions each router can test on its own before a step: it relies on
      no stale entry for `k`, and takes no unfeasible finite update for an installed
      retracted route to `k`. */
  lemma LoopFreedomByLocalTest(trace: seq<Net>, steps: seq<Step>, k: SourceKey, i: nat, cycle: seq<Node>, via: seq<RouteKey>)
    requires Run(trace, steps) && i < |trace|
    requires forall j | 0 <= j < |trace| :: SeqnosSpanHalf(trace[j], k)
    requires forall j | 0 <= j < |steps| :: !ActsOnStale(trace[j], steps[j], k)
    requires forall j | 0 <= j < |steps| :: Revives(trace[j], steps[j]) ==> steps[j].ev.src != k
    ensures !Loop(trace[i], k, cycle, via)
  {
    LoopFreedom(trace, steps, k, i, cycle, via);
  }
}
