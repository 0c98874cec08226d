/** Runs of the route table: every operation keeps the tables in agreement and is an operation
    of `BabelSystem`, so that networks of such tables are free of loops. */
module RouteRuns {
  import opened Seqno
  import opened BabelTypes
  import opened BabelEngine
  import opened BabelNetwork
  import opened SlotTable
  import opened RouteSpec
  import opened RouteTable
  import opened BabelSystem
  import X = XrouteTable

  ghost function RouterOf(t: Table): Router
    reads t, t.sources, t.xroutes
  {
    Router(t.Exact(), t.Redist(), t.allowDuplicates)
  }

  // ---- One operation ------------------------------------------------------------------

  /** One operation at time `now`; one on a route that is not there does nothing. */
  method Perform(t: Table, op: Op, now: int) returns (ghost evs: seq<Event>, ghost more: seq<Event>)
    requires t.Valid() && ValidOp(op)
    modifies t, t.kernel, t.sources, t.xroutes
    ensures t.Valid() && OpTo(t.myid, old(RouterOf(t)), op, now, evs, more, RouterOf(t))
  {
    match op
    case Update(_, _, _) => evs, more := PerformUpdate(t, op, now);
    case NewCost(_, _, _) => evs, more := PerformNewCost(t, op, now);
    case FlushOp(_) => evs, more := PerformFlush(t, op, now);
    case Say(_, _) => evs, more := PerformSay(t, op, now);
    case GcSources => evs, more := PerformGc(t, op, now);
    case Redistribute(_, _) => evs, more := PerformRedistribute(t, op, now);
    case Withdraw(_) => evs, more := PerformWithdraw(t, op, now);
  }

  method PerformUpdate(t: Table, op: Op, now: int) returns (ghost evs: seq<Event>, ghost more: seq<Event>)
    requires t.Valid() && ValidOp(op) && op.Update?
    modifies t`slots, t`routes, t.kernel, t.sources
    ensures t.Valid() && OpTo(t.myid, old(RouterOf(t)), op, now, evs, more, RouterOf(t))
  {
    ghost var e := t.Exact();
    ghost var all;
    all, more := t.UpdateRoute(op.h, op.filtered, op.martian, now);
    evs := if Rejected(t.myid, op) then [] else Created(e, op.h) + Taken(WithSource(e, op.h, now), op.h, now);
    assert evs + more == all;
  }

  method PerformNewCost(t: Table, op: Op, now: int) returns (ghost evs: seq<Event>, ghost more: seq<Event>)
    requires t.Valid() && ValidOp(op) && op.NewCost?
    modifies t`slots, t`routes, t.kernel, t.sources
    ensures t.Valid() && OpTo(t.myid, old(RouterOf(t)), op, now, evs, more, RouterOf(t))
  {
    evs, more := [], [];
    ghost var e := t.Exact();
    var r := t.FindRoute(op.key);
    if r.Some? {
      ghost var all;
      all, more := t.UpdateRouteMetric(op.key, op.cost, op.add, now);
      evs := Recosting(e, op.key, op.cost, op.add, now);
      assert evs + more == all;
    } else {
      NoSteps(e, now);
    }
  }

  method PerformFlush(t: Table, op: Op, now: int) returns (ghost evs: seq<Event>, ghost more: seq<Event>)
    requires t.Valid() && op.FlushOp?
    modifies t`slots, t`routes, t.kernel, t.sources
    ensures t.Valid() && OpTo(t.myid, old(RouterOf(t)), op, now, evs, more, RouterOf(t))
  {
    evs, more := [], [];
    ghost var e := t.Exact();
    var r := t.FindRoute(op.key);
    if r.Some? {
      ghost var all;
      all, more := t.FlushRoute(op.key, now);
      evs := Flushing(e, op.key);
      assert evs + more == all;
    } else {
      NoSteps(e, now);
    }
  }

  method PerformSay(t: Table, op: Op, now: int) returns (ghost evs: seq<Event>, ghost more: seq<Event>)
    requires t.Valid() && op.Say?
    modifies t.sources
    ensures t.Valid() && OpTo(t.myid, old(RouterOf(t)), op, now, evs, more, RouterOf(t))
  {
    evs, more := [], [];
    NoSteps(t.Exact(), now);
    var r := t.FindRoute(op.key);
    if r.Some? && r.value.installed {
      evs := t.AdvertiseRoute(op.key, op.interferes, now);
      assert evs + more == evs;
    }
  }

  lemma NoSteps(e: Engine, now: int)
    ensures Trace(e, now, [] + [], e)
  {
    var none: seq<Event> := [];
    assert none + none == none;
    TraceNone(e, now);
  }

  method PerformGc(t: Table, op: Op, now: int) returns (ghost evs: seq<Event>, ghost more: seq<Event>)
    requires t.Valid() && op.GcSources?
    modifies t.sources
    ensures t.Valid() && OpTo(t.myid, old(RouterOf(t)), op, now, evs, more, RouterOf(t))
  {
    more := [];
    evs := t.ExpireSources(now);
    assert evs + more == evs;
  }

  /** Only the metric of `x` changes. */
  lemma MetricsSet(view: map<Dest, X.Xroute>, view': map<Dest, X.Xroute>, x: X.Xroute)
    requires view' == view[x.dest := if x.dest in view then view[x.dest].(metric := x.metric) else x]
    ensures (map d | d in view' :: view'[d].metric) == (map d | d in view :: view[d].metric)[x.dest := x.metric]
  {
  }

  method PerformRedistribute(t: Table, op: Op, now: int) returns (ghost evs: seq<Event>, ghost more: seq<Event>)
    requires t.Valid() && op.Redistribute?
    modifies t`slots, t`routes, t.kernel, t.xroutes
    ensures t.Valid() && OpTo(t.myid, old(RouterOf(t)), op, now, evs, more, RouterOf(t))
  {
    more := [];
    var changed;
    changed, evs := t.AddNewXroute(op.x, op.martian, now);
    assert evs + more == evs;
    assert changed == Accepted(old(RouterOf(t)), op);
    if changed { MetricsSet(old(t.xroutes.view), t.xroutes.view, op.x); }
  }

  method PerformWithdraw(t: Table, op: Op, now: int) returns (ghost evs: seq<Event>, ghost more: seq<Event>)
    requires t.Valid() && op.Withdraw?
    modifies t.xroutes
    ensures t.Valid() && OpTo(t.myid, old(RouterOf(t)), op, now, evs, more, RouterOf(t))
  {
    evs, more := [], [];
    NoSteps(t.Exact(), now);
    t.DeleteXroute(op.d);
    assert t.Redist() == old(t.Redist()) - {op.d};
  }

  /** The table is in order and belongs to router `u`, whose state is `r`. */
  ghost predicate Realises(t: Table, u: Node, r: Router)
    reads t, t.kernel, t.sources, t.xroutes
  {
    t.Valid() && t.myid == u && RouterOf(t) == r
  }

  method PerformAt(t: Table, u: Node, ghost r: Router, op: Op, now: int) returns (ghost r': Router)
    requires Realises(t, u, r) && ValidOp(op)
    modifies t, t.kernel, t.sources, t.xroutes
    ensures OneTo(u, op, now, r, r') && Realises(t, u, r')
  {
    ghost var evs, more := Perform(t, op, now);
    r' := RouterOf(t);
  }

  // ---- Sequences of operations --------------------------------------------------------

  /** The operations lead through the states `rs`. */
  ghost predicate OpsTo(me: RouterId, ops: seq<(Op, int)>, rs: seq<Router>) {
    |rs| == |ops| + 1 && forall i | 0 <= i < |ops| :: OneTo(me, ops[i].0, ops[i].1, rs[i], rs[i + 1])
  }

  method RunOps(t: Table, ops: seq<(Op, int)>) returns (ghost rs: seq<Router>)
    requires t.Valid() && forall o <- ops :: ValidOp(o.0)
    modifies t, t.kernel, t.sources, t.xroutes
    ensures OpsTo(t.myid, ops, rs) && rs[0] == old(RouterOf(t)) && Realises(t, t.myid, rs[|ops|])
    decreases |ops|
  {
    if ops == [] {
      rs := [RouterOf(t)];
    } else {
      var n := |ops| - 1;
      assert ops[n] in ops && ops == ops[..n] + [ops[n]];
      rs := RunOps(t, ops[..n]);
      ghost var r := PerformAt(t, t.myid, rs[n], ops[n].0, ops[n].1);
      OpsAppend(t.myid, ops[..n], rs, ops[n], r);
      rs := rs + [r];
    }
  }

  /** After any sequence of operations, at any times: the tables are what the operations lead
      to, one after the other; the slots are ordered and hold each route once; the kernel has
      exactly the installed routes, each with its next hop, interface and metric; every source
      counts exactly its users; and no prefix has both a redistributed and an installed route,
      unless duplicates are allowed. */
  method RunAll(t: Table, ops: seq<(Op, int)>) returns (ghost rs: seq<Router>)
    requires t.Valid() && forall o <- ops :: ValidOp(o.0)
    modifies t, t.kernel, t.sources, t.xroutes
    ensures OpsTo(t.myid, ops, rs) && rs[0] == old(RouterOf(t)) && rs[|ops|] == RouterOf(t)
    ensures Linked(t.slots, t.routes) && One(t.routes)
    ensures t.kernel.fib == Fib(t.kernelMetric, t.routes) && Mirrors(t.kernel.fib, t.kernelMetric, t.routes)
    ensures Counted(t.routes, t.sources.table, multiset{})
    ensures Exclusive(t.routes, t.xroutes.view.Keys, t.allowDuplicates)
  {
    rs := RunOps(t, ops);
    LinkedOne(t.slots, t.routes);
    FibMirrors(t.kernelMetric, t.routes);
  }

  lemma OpsAppend(me: RouterId, ops: seq<(Op, int)>, rs: seq<Router>, o: (Op, int), r: Router)
    requires OpsTo(me, ops, rs) && OneTo(me, o.0, o.1, rs[|ops|], r)
    ensures OpsTo(me, ops + [o], rs + [r])
  {
    var ops', rs' := ops + [o], rs + [r];
    forall i | 0 <= i < |ops'|
      ensures OneTo(me, ops'[i].0, ops'[i].1, rs'[i], rs'[i + 1])
    {
      if i < |ops| {
        assert rs'[i] == rs[i] && rs'[i + 1] == rs[i + 1] && ops'[i] == ops[i];
      }
    }
  }

  // ---- Networks of tables -------------------------------------------------------------

  /** Everything a table may change. */
  ghost function Footprint(t: Table): set<object> { {t, t.kernel, t.sources, t.xroutes} }

  /** No two routers share anything. */
  ghost predicate Apart(tables: map<Node, Table>) {
    forall u <- tables, v <- tables :: u != v ==> Footprint(tables[u]) !! Footprint(tables[v])
  }

  ghost predicate AllRealise(tables: map<Node, Table>, rs: map<Node, Router>)
    reads tables.Values, set t | t in tables.Values :: t.kernel
    reads set t | t in tables.Values :: t.sources, set t | t in tables.Values :: t.xroutes
  {
    tables.Keys == rs.Keys && forall u <- tables :: Realises(tables[u], u, rs[u])
  }

  ghost predicate OthersRealise(tables: map<Node, Table>, rs: map<Node, Router>, u: Node)
    reads tables.Values, set t | t in tables.Values :: t.kernel
    reads set t | t in tables.Values :: t.sources, set t | t in tables.Values :: t.xroutes
  {
    tables.Keys == rs.Keys && forall v <- tables :: v != u ==> Realises(tables[v], v, rs[v])
  }

  lemma Gather(tables: map<Node, Table>, rs: map<Node, Router>, u: Node, r: Router)
    requires u in tables && Realises(tables[u], u, r) && OthersRealise(tables, rs, u)
    ensures AllRealise(tables, rs[u := r])
  {
    var rs' := rs[u := r];
    assert rs'.Keys == tables.Keys;
    forall v <- tables
      ensures Realises(tables[v], v, rs'[v])
    {
      assert v != u ==> rs'[v] == rs[v];
    }
  }

  /** One of the tables runs an operation; the others stay as they are. */
  method PerformAlone(tables: map<Node, Table>, ghost rs: map<Node, Router>, u: Node, op: Op, now: int) returns (ghost r': Router)
    requires u in tables && u in rs && Apart(tables) && ValidOp(op)
    requires Realises(tables[u], u, rs[u]) && OthersRealise(tables, rs, u)
    modifies tables[u], tables[u].kernel, tables[u].sources, tables[u].xroutes
    ensures OneTo(u, op, now, rs[u], r') && Realises(tables[u], u, r') && OthersRealise(tables, rs, u)
  {
    assert forall v <- tables :: v != u ==> Footprint(tables[u]) !! Footprint(tables[v]);
    r' := PerformAt(tables[u], u, rs[u], op, now);
  }

  method PerformIn(tables: map<Node, Table>, ghost rs: map<Node, Router>, u: Node, op: Op, now: int) returns (ghost r': Router)
    requires u in tables && Apart(tables) && AllRealise(tables, rs) && ValidOp(op)
    modifies tables[u], tables[u].kernel, tables[u].sources, tables[u].xroutes
    ensures OneTo(u, op, now, rs[u], r') && AllRealise(tables, rs[u := r'])
  {
    r' := PerformAlone(tables, rs, u, op, now);
    Gather(tables, rs, u, r');
  }

  /** The states of the routers of `s`. */
  ghost function Routers(s: System): map<Node, Router> { map u | u in s.net.engines && s.Has(u) :: s.At(u) }

  /** Two systems that differ in router `u` alone. */
  lemma RoutersWith(s: System, s': System, u: Node, r: Router)
    requires s.Has(u) && s'.net.engines == s.net.engines[u := r.e] && s'.xr == s.xr[u := r.xr]
    requires s'.allow == s.allow[u := r.allowDuplicates]
    ensures Routers(s') == Routers(s)[u := r]
  {
    var a, b := Routers(s'), Routers(s)[u := r];
    assert a.Keys == b.Keys;
  }

  /** One of the tables runs an operation: the system acts. */
  method ActAt(tables: map<Node, Table>, ghost s: System, u: Node, op: Op, now: int) returns (ghost s': System)
    requires now == s.net.now && u in tables && Apart(tables) && AllRealise(tables, Routers(s))
    requires ValidOp(op) && !op.Say? && (op.Update? ==> MessageOf(op.h) in s.net.msgs)
    modifies tables[u], tables[u].kernel, tables[u].sources, tables[u].xroutes
    ensures ActTo(s, Operate(u, op), s') && AllRealise(tables, Routers(s'))
  {
    assert u in Routers(s);
    ghost var r' := PerformIn(tables, Routers(s), u, op, now);
    s' := s.With(u, r');
    RoutersWith(s, s', u, r');
  }

  /** One of the tables says an installed route: the system sends. */
  method SendAt(tables: map<Node, Table>, ghost s: System, u: Node, key: RouteKey, interferes: bool, from: Addr, out: u16, now: int)
    returns (ghost s': System)
    requires now == s.net.now && u in tables && Apart(tables) && AllRealise(tables, Routers(s))
    requires from in s.net.owner && s.net.owner[from] == u
    requires key in tables[u].routes && tables[u].routes[key].installed
    requires out >= AdvertisedMetric(tables[u].Exact(), tables[u].routes[key], interferes)
    modifies tables[u], tables[u].kernel, tables[u].sources, tables[u].xroutes
    ensures ActTo(s, Other(Send(u, Advertise(key, interferes), from, out)), s') && AllRealise(tables, Routers(s'))
  {
    assert u in Routers(s) && Realises(tables[u], u, s.At(u));
    ghost var r' := PerformIn(tables, Routers(s), u, Say(key, interferes), now);
    SayIsSend(s, u, key, interferes, from, out, r');
    s' := s.(net := Next(s.net, Send(u, Advertise(key, interferes), from, out)));
    RoutersWith(s, s', u, r');
  }
}
