/** The send side meets the network: what a flush puts, when the tables it consults are those of
    the route table, is what the steps `Send` and `Originate` of the network say. */
module FlushMessages {
  import opened Options
  import opened Bytes
  import opened Seqno
  import opened BabelTypes
  import opened BabelEngine
  import opened BabelNetwork
  import opened SlotTable
  import opened RouteSpec
  import opened RouteTable
  import opened UpdateCodec
  import opened UpdateRoundTrip
  import opened UpdateBatch
  import opened SendBuffer

  /** How an interface sees the routes: which interfere with it, and the channels of each route
      and of the interface it goes through. */
  datatype Link = Link(ifindex: int, interferes: RouteKey -> bool, channels: RouteKey -> seq<byte>, ifchannel: RouteKey -> int)

  /** A router as flushupdates sees it: its tables, what it redistributes, its own sequence
      number and kernel metric, and the options of the interface. */
  datatype Speaker = Speaker(
    me: RouterId, myseqno: u16, kernelMetric: int, e: Engine, xr: Redistributed,
    link: Link, splitHorizon: bool, diversity: bool)

  ghost predicate Sound(s: Speaker) { One(s.e.routes) && WellFormed(s.e) }

  ghost function Seen(s: Speaker, k: RouteKey): Installed
    requires k in s.e.routes
  {
    var r := s.e.routes[k];
    Installed(r.src.id, r.seqno, AdvertisedMetric(s.e, r, s.link.interferes(k)),
              s.link.channels(k), s.link.ifchannel(k), k.neigh.ifindex == s.link.ifindex)
  }

  /** The tables of the router. */
  ghost function TablesOf(s: Speaker): Tables
    requires Sound(s)
  {
    Tables(s.me, s.myseqno, s.kernelMetric, s.xr,
           map k | k in s.e.routes && s.e.routes[k].installed :: k.dest := Seen(s, k),
           s.splitHorizon, s.diversity)
  }

  /** `k` is the installed route to `d`. */
  ghost predicate Leads(s: Speaker, d: Dest, k: RouteKey) { k in s.e.routes && s.e.routes[k].installed && k.dest == d }

  ghost predicate NoneLeads(s: Speaker, d: Dest) { forall k :: !Leads(s, d, k) }

  lemma TablesAre(s: Speaker, d: Dest)
    requires Sound(s)
    ensures d in TablesOf(s).installed <==> !NoneLeads(s, d)
    ensures forall k :: Leads(s, d, k) ==> TablesOf(s).installed[d] == Seen(s, k)
  {
    if d in TablesOf(s).installed {
      var k :| k in s.e.routes && s.e.routes[k].installed && k.dest == d;
      assert Leads(s, d, k);
    }
  }

  // ---- What is said of a prefix -------------------------------------------------------

  /** The redistributed route is announced: no route is installed, or its metric is not above that
      of babeld's kernel routes. */
  ghost predicate OwnWins(s: Speaker, d: Dest) { d in s.xr && (NoneLeads(s, d) || s.xr[d] <= s.kernelMetric) }

  /** The metric told of a route: with its full cost if it interferes, and otherwise with the cost
      scaled by diversity_factor / 256, rounded, but always above what the neighbour told. */
  function Told(r: Route, interferes: bool, factor: nat): nat {
    var full := r.refmetric + r.cost + r.addMetric;
    var scaled := r.refmetric + (factor * r.cost + 128) / 256 + r.addMetric;
    var m := if interferes then full else if scaled > r.refmetric then scaled else r.refmetric + 1;
    if m < 0xFFFF then m else 0xFFFF
  }

  /** An announcement for the router's own prefix `a.dest`. */
  ghost predicate Own(s: Speaker, a: Advert) {
    OwnWins(s, a.dest) && a.id == s.me && a.seqno == s.myseqno && a.metric == s.xr[a.dest]
  }

  /** An announcement of the installed route `k`, with its source and its sequence number. */
  ghost predicate Passed(s: Speaker, a: Advert, k: RouteKey) {
    && !OwnWins(s, a.dest) && Leads(s, a.dest, k) && !(s.splitHorizon && k.neigh.ifindex == s.link.ifindex)
    && a.id == s.e.routes[k].src.id && a.seqno == s.e.routes[k].seqno
    && a.metric == Told(s.e.routes[k], s.link.interferes(k), s.e.diversityFactor)
    && a.channels == Some(Path(s.link.ifchannel(k), s.link.channels(k)))
  }

  /** Up to eight channels: that of the interface first, 255 if unknown and none if it never
      interferes. */
  function Path(ifchannel: int, channels: seq<byte>): seq<byte> {
    if ifchannel == -2 then channels
    else
      var all := [if 0 < ifchannel < 256 then ifchannel else 255] + channels;
      if |all| > 8 then all[..8] else all
  }

  /** A retraction of a prefix to which there is no route. */
  ghost predicate Retracts(s: Speaker, a: Advert) {
    a.dest !in s.xr && NoneLeads(s, a.dest) && a.id == s.me && a.seqno == s.myseqno && a.metric == 0xFFFF
  }

  ghost predicate Honest(s: Speaker, a: Advert) { Own(s, a) || Retracts(s, a) || exists k :: Passed(s, a, k) }

  lemma DecideIs(s: Speaker, d: Dest)
    requires Sound(s)
    ensures var r := Decide(TablesOf(s), d);
            && (r.Known? ==> Own(s, r.a) || exists k :: Passed(s, r.a, k))
            && (r.Gone? ==> Retracts(s, r.a))
            && (r.Hidden? ==> !OwnWins(s, d) && s.splitHorizon && exists k :: Leads(s, d, k) && k.neigh.ifindex == s.link.ifindex)
  {
    if NoneLeads(s, d) {
      TablesAre(s, d);
    } else {
      var k :| Leads(s, d, k);
      DecideInstalled(s, d, k);
    }
  }

  lemma DecideInstalled(s: Speaker, d: Dest, k: RouteKey)
    requires Sound(s) && Leads(s, d, k)
    ensures var r := Decide(TablesOf(s), d);
            && (OwnWins(s, d) ==> r.Known? && Own(s, r.a))
            && (!OwnWins(s, d) && s.splitHorizon && k.neigh.ifindex == s.link.ifindex ==> r.Hidden?)
            && (!OwnWins(s, d) && !(s.splitHorizon && k.neigh.ifindex == s.link.ifindex) ==> r.Known? && Passed(s, r.a, k))
  {
    TablesAre(s, d);
    ToldIs(s.e, s.e.routes[k], s.link.interferes(k));
    ChannelsAre(Seen(s, k));
  }

  lemma ToldIs(e: Engine, r: Route, interferes: bool)
    ensures AdvertisedMetric(e, r, interferes) == Told(r, interferes, e.diversityFactor)
  {
  }

  lemma ChannelsAre(r: Installed)
    ensures PathChannels(r) == Path(r.ifchannel, r.channels)
  {
    if r.ifchannel != -2 {
      var first: byte := if 0 < r.ifchannel <= 255 then r.ifchannel else 255;
      assert |r.channels| >= 8 ==> ([first] + r.channels)[..8] == [first] + r.channels[..7];
    }
  }

  /** Every advertisement of a flush is the router's own prefix, its installed route, or the
      retraction of a prefix that is gone, exactly as the tables have it. */
  lemma FlushIsHonest(s: Speaker, b: seq<Dest>, a: Advert)
    requires Sound(s) && a in Plan(TablesOf(s), b, None)
    ensures a.dest in b && Honest(s, a)
  {
    PlanSays(TablesOf(s), b, None, a);
    DecideIs(s, a.dest);
  }

  /** How often one flush of the queue announces a prefix: once if it is redistributed or has a
      route that split horizon does not hide, and as often as it was queued if it is gone. */
  lemma FlushCounts(s: Speaker, q: seq<Dest>, b: seq<Dest>, d: Dest)
    requires Sound(s) && IsBatch(q, b)
    ensures OwnWins(s, d) ==> Count(Plan(TablesOf(s), b, None), d) == if d in q then 1 else 0
    ensures forall k :: !OwnWins(s, d) && Leads(s, d, k) ==>
              Count(Plan(TablesOf(s), b, None), d)
              == if d in q && !(s.splitHorizon && k.neigh.ifindex == s.link.ifindex) then 1 else 0
    ensures d !in s.xr && NoneLeads(s, d) ==> Count(Plan(TablesOf(s), b, None), d) == multiset(q)[d]
  {
    FlushAdvertisesOnce(TablesOf(s), q, b, d);
    DecideIs(s, d);
    TablesAre(s, d);
  }

  // ---- Messages -----------------------------------------------------------------------

  /** The update as the network sees it, sent from the address `from`. */
  function MessageOf(u: Update, from: Addr): Message {
    Message(from, SourceKey(u.id, Dest(u.prefix, u.plen)), u.seqno, u.metric)
  }

  /** The metric with what the output filter adds. */
  function Filtered(metric: u16, add: nat): u16 { if metric + add < 0xFFFF then metric + add else 0xFFFF }

  /** The interface runs on the router `s` of the network. */
  ghost predicate RunsOn(net: Net, s: Speaker, from: Addr, g: Config) {
    && Sound(s) && s.me in net.engines && net.engines[s.me] == s.e && s.me in net.myseqno && net.myseqno[s.me] == s.myseqno
    && from in net.owner && net.owner[from] == s.me && g.tables == TablesOf(s)
  }

  /** A step by which router `u` sends `m` and nothing else. */
  ghost predicate Says(net: Net, u: Node, step: Step, m: Message) {
    && (step.Send? || step.Originate?) && step.u == u && StepEnabled(net, step)
    && Next(net, step).msgs == net.msgs + {m}
  }

  /** The step of the network for an advertisement of the plan. */
  lemma AdvertIsStep(net: Net, s: Speaker, from: Addr, g: Config, a: Advert) returns (step: Step)
    requires RunsOn(net, s, from, g) && Honest(s, a)
    ensures Says(net, s.me, step, MessageOf(ToUpdate(g, a), from))
    ensures ToUpdate(g, a).metric == Filtered(a.metric, g.filter(a.id, a.dest))
    ensures (exists k :: Passed(s, a, k)) ==>
              exists k :: Passed(s, a, k) && step == Send(s.me, Advertise(k, s.link.interferes(k)), from, ToUpdate(g, a).metric)
  {
    var m := ToUpdate(g, a).metric;
    if k :| Passed(s, a, k) {
      PassedIsSend(net, s, from, g, a, k);
      step := Send(s.me, Advertise(k, s.link.interferes(k)), from, m);
    } else {
      step := Originate(s.me, from, a.dest, m);
    }
  }

  lemma PassedIsSend(net: Net, s: Speaker, from: Addr, g: Config, a: Advert, k: RouteKey)
    requires RunsOn(net, s, from, g) && Passed(s, a, k)
    ensures var u := ToUpdate(g, a);
            Says(net, s.me, Send(s.me, Advertise(k, s.link.interferes(k)), from, u.metric), MessageOf(u, from))
  {
    assert Filed(s.e.routes[k], k, s.e.srcs);
    ToldIs(s.e, s.e.routes[k], s.link.interferes(k));
  }

  lemma {:induction false} AdmittedFrom(g: Config, p: seq<Advert>, item: Item) returns (a: Advert)
    requires item in AdmittedAll(g, p)
    ensures a in p && item == Upd(ToUpdate(g, a), g.ipv4) && g.filter(a.id, a.dest) < 0xFFFF
  {
    if item in Admitted(g, p[0]) {
      a := p[0];
    } else {
      a := AdmittedFrom(g, p[1..], item);
    }
  }

  /** The update `u` tells what `a` says, with what the output filter adds to the metric, the update
      interval of the interface, and the channels if they are to be told. */
  ghost predicate Tells(g: Config, u: Update, a: Advert) {
    && u.id == a.id && Dest(u.prefix, u.plen) == a.dest && u.seqno == a.seqno
    && u.metric == Filtered(a.metric, g.filter(a.id, a.dest)) && u.interval == g.interval
    && (g.tables.diversity ==> u.channels == a.channels) && (!g.tables.diversity ==> u.channels == None)
  }

  /** Every update that a flush of the queue puts is honest. */
  lemma PutIsHonest(s: Speaker, g: Config, q: seq<Dest>, items: seq<Item>, item: Item) returns (a: Advert)
    requires Sound(s) && g.tables == TablesOf(s) && FlushOf(g, q, items) && item in items
    ensures a.dest in q && Honest(s, a) && item == Upd(ToUpdate(g, a), g.ipv4) && Tells(g, item.u, a)
  {
    var b :| IsBatch(q, b) && items == AdmittedAll(g, Plan(g.tables, b, None));
    a := AdmittedFrom(g, Plan(g.tables, b, None), item);
    FlushIsHonest(s, b, a);
    assert a.dest in multiset(b);
  }

  /** ... and a message that the router sends in
      the network model: the advertisement of an installed route, or the announcement of its own
      prefix. */
  lemma FlushIsSends(net: Net, s: Speaker, from: Addr, g: Config, q: seq<Dest>, items: seq<Item>, item: Item)
    returns (step: Step, a: Advert)
    requires RunsOn(net, s, from, g) && FlushOf(g, q, items) && item in items
    ensures a.dest in q && Honest(s, a) && item.Upd? && Tells(g, item.u, a)
    ensures Says(net, s.me, step, MessageOf(item.u, from))
  {
    a := PutIsHonest(s, g, q, items, item);
    step := AdvertIsStep(net, s, from, g, a);
  }

  // ---- Nothing is kept back -----------------------------------------------------------

  /** Nothing stands in the way of the advertisement: the filter lets it through, and for an IPv4
      prefix the interface has an IPv4 address. */
  predicate Unhindered(g: Config, a: Advert) {
    g.filter(a.id, a.dest) < 0xFFFF && (IsV4Dest(a.dest) ==> g.ipv4.Some?)
  }

  lemma {:induction false} AdvertIsPut(g: Config, p: seq<Advert>, a: Advert)
    requires g.up && a in p && Unhindered(g, a)
    ensures Upd(ToUpdate(g, a), g.ipv4) in AdmittedAll(g, p)
  {
    if a == p[0] {
      assert Upd(ToUpdate(g, a), g.ipv4) in Admitted(g, a);
    } else {
      AdvertIsPut(g, p[1..], a);
    }
  }

  lemma {:induction false} CountedIsThere(p: seq<Advert>, d: Dest) returns (a: Advert)
    requires Count(p, d) > 0
    ensures a in p && a.dest == d
  {
    if p[0].dest == d {
      a := p[0];
    } else {
      a := CountedIsThere(p[1..], d);
    }
  }

  /** Split horizon does not hide what is said of `d`. */
  ghost predicate Visible(s: Speaker, d: Dest) {
    OwnWins(s, d) || !s.splitHorizon || forall k :: Leads(s, d, k) ==> k.neigh.ifindex != s.link.ifindex
  }

  ghost predicate Put(g: Config, items: seq<Item>, a: Advert) { exists item <- items :: item.Upd? && Tells(g, item.u, a) }

  /** On an interface that is up, a flush tells of every queued prefix that split horizon does not
      hide, unless its advertisement is hindered. */
  lemma FlushTells(s: Speaker, g: Config, q: seq<Dest>, items: seq<Item>, d: Dest) returns (a: Advert)
    requires Sound(s) && g.tables == TablesOf(s) && g.up && FlushOf(g, q, items) && d in q
    requires Visible(s, d)
    ensures a.dest == d && Honest(s, a) && (Unhindered(g, a) ==> Put(g, items, a))
  {
    var b :| IsBatch(q, b) && items == AdmittedAll(g, Plan(g.tables, b, None));
    FlushCounts(s, q, b, d);
    assert d in multiset(q);
    a := CountedIsThere(Plan(g.tables, b, None), d);
    FlushIsHonest(s, b, a);
    if Unhindered(g, a) {
      AdvertIsPut(g, Plan(g.tables, b, None), a);
      assert Tells(g, ToUpdate(g, a), a);
    }
  }

  // ---- The objects --------------------------------------------------------------------

  /** The interface consults the table `t`, which is that of the router `s`. */
  ghost predicate Consults(t: Table, s: Speaker, g: Config)
    reads t, t.sources, t.xroutes
  {
    && s.me == t.myid && s.kernelMetric == t.kernelMetric && s.e == t.Exact() && s.xr == t.Redist()
    && (Sound(s) ==> g.tables == TablesOf(s))
  }

  lemma TableIsSound(t: Table, s: Speaker, g: Config)
    requires t.Valid() && Consults(t, s, g)
    ensures Sound(s) && g.tables == TablesOf(s)
  {
    LinkedOne(t.slots, t.routes);
  }

  /** flushupdates on an interface that consults the table: whatever is put tells the truth about
      the table, and every queued prefix that split horizon does not hide is told of. */
  method FlushTable(t: Table, i: Interface, now: int, ghost s: Speaker) returns (ghost items: seq<Item>)
    requires t.Valid() && i.Valid() && Consults(t, s, i.config)
    modifies i, i.sendbuf
    ensures t.Valid() && i.Valid() && i.queue == [] && Log(i.State()) == old(Log(i.State())) + items
    ensures forall item <- items :: item.Upd? && exists a: Advert :: Honest(s, a) && Tells(i.config, item.u, a)
    ensures forall d <- old(i.queue) :: i.config.up && Visible(s, d) ==>
              exists a: Advert :: a.dest == d && Honest(s, a) && (Unhindered(i.config, a) ==> Put(i.config, items, a))
  {
    TableIsSound(t, s, i.config);
    ghost var q, g := i.queue, i.config;
    items := i.FlushUpdates(now);
    forall item | item in items
      ensures item.Upd? && exists a: Advert :: Honest(s, a) && Tells(g, item.u, a)
    {
      var a := PutIsHonest(s, g, q, items, item);
    }
    forall d | d in q && g.up && Visible(s, d)
      ensures exists a: Advert :: a.dest == d && Honest(s, a) && (Unhindered(g, a) ==> Put(g, items, a))
    {
      var a := FlushTells(s, g, q, items, d);
    }
  }
}
