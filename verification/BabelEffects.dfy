/** What the operations of a router achieve, in numbers: when an update is taken, what the
    table holds afterwards, how long a route lives, and what an advertisement leaves. */
module BabelEffects {
  import opened Options
  import opened Seqno
  import opened BabelTypes
  import opened BabelEngine
  import opened BabelNetwork
  import opened SlotTable
  import opened RouteSpec
  import opened BabelSystem

  // ---- Feasibility --------------------------------------------------------------------

  /** An update is feasible exactly if it is a retraction, the entry has not been refreshed for
      200 seconds, or it ranks strictly above the entry. */
  lemma FeasibleIsRank(src: Source, now: int, s: u16, m: u16, base: u16)
    requires InWindow(s, base) && InWindow(src.seqno, base)
    ensures UpdateFeasible(src, now, s, m) <==>
              m == 0xFFFF || now - src.time > 200 || Rank(base, s, m) > Rank(base, src.seqno, src.metric)
  {
    BetterIsRank(base, s, m, src.seqno, src.metric);
  }

  /** Advertising (s, m) leaves the better of it and the entry, refreshed now; an entry that has
      not been refreshed for 200 seconds is forgotten; a retraction changes nothing. */
  lemma AdvertisedIsBest(src: Source, now: int, s: u16, m: u16, base: u16)
    requires InWindow(s, base) && InWindow(src.seqno, base)
    ensures var src' := UpdateSource(src, now, s, m);
            if m == 0xFFFF then src' == src
            else if now - src.time > 200 then src' == Source(s, m, now)
            else
              && src'.time == now
              && Rank(base, src'.seqno, src'.metric)
                 == if Rank(base, s, m) > Rank(base, src.seqno, src.metric) then Rank(base, s, m)
                    else Rank(base, src.seqno, src.metric)
  {
    BetterIsRank(base, s, m, src.seqno, src.metric);
    CompareIsOffsetOrder(src.seqno, s, base);
    CompareIsOffsetOrder(s, src.seqno, base);
  }

  // ---- Decisions change nothing but which routes are installed ------------------------

  /** From `a` to `b` nothing changes but which of the routes to `d` are installed. */
  ghost predicate Reelects(a: Routes, b: Routes, d: Dest) {
    SameButInstalled(a, b) && forall k <- a :: k.dest != d ==> b[k] == a[k]
  }

  lemma JudgedSame(e: Engine, now: int, xr: Redistributed, allow: int, key: RouteKey)
    requires key in e.routes && e.routes[key].src in e.srcs
    ensures Reelects(e.routes, Judged(e, now, xr, allow, key), key.dest)
  {
  }

  lemma ChangedSame(e: Engine, key: RouteKey, oldmetric: u16, now: int, xr: Redistributed, allow: int, routes': Routes)
    requires key in e.routes && e.routes[key].src in e.srcs && ChangedTo(e, key, oldmetric, now, xr, allow, routes')
    ensures Reelects(e.routes, routes', key.dest)
  {
    if !e.routes[key].installed {
      JudgedSame(e, now, xr, allow, key);
    } else if e.routes[key].Metric() > oldmetric {
      var b :| BestTo(e, key.dest, key, b, now) &&
        routes' == if e.routes[b].Metric() <= e.routes[key].Metric() - 96 then Judged(e, now, xr, allow, b) else e.routes;
      JudgedSame(e, now, xr, allow, b);
    }
  }

  lemma LostSame(e: Engine, d: Dest, now: int, xr: Redistributed, allow: int, routes': Routes)
    requires LostTo(e, d, now, xr, allow, routes')
    ensures Reelects(e.routes, routes', d)
  {
    if exists k <- e.routes :: k.dest == d {
      var head, b :| BestTo(e, d, head, b, now) && routes' == Judged(e, now, xr, allow, b);
      JudgedSame(e, now, xr, allow, b);
    }
  }

  lemma SettledSame(e: Engine, key: RouteKey, oldmetric: u16, lost: bool, now: int, xr: Redistributed, allow: int, routes': Routes)
    requires key in e.routes && e.routes[key].src in e.srcs && SettledTo(e, key, oldmetric, lost, now, xr, allow, routes')
    ensures Reelects(e.routes, routes', key.dest)
  {
    if lost {
      var mid :| ChangedTo(e, key, oldmetric, now, xr, allow, mid) && LostTo(e.(routes := mid), key.dest, now, xr, allow, routes');
      ChangedSame(e, key, oldmetric, now, xr, allow, mid);
      LostSame(e.(routes := mid), key.dest, now, xr, allow, routes');
    } else {
      ChangedSame(e, key, oldmetric, now, xr, allow, routes');
    }
  }

  // ---- Updates ------------------------------------------------------------------------

  /** The update is new to the router: it has no entry for the source, or one that has not been
      refreshed for 200 seconds or ranks below the update. */
  ghost predicate Improves(e: Engine, h: Heard, now: int, base: u16) {
    h.Src() in e.srcs ==>
      var src := e.srcs[h.Src()];
      now - src.time > 200 || Rank(base, h.seqno, h.refmetric) > Rank(base, src.seqno, src.metric)
  }

  /** The update gets past the tests at the head of update_route. */
  predicate Passes(me: RouterId, op: Op) {
    op.Update? && op.h.id != me && !op.martian && op.filtered < 0xFFFF
  }

  lemma ImprovesIsFeasible(e: Engine, h: Heard, now: int, base: u16)
    requires h.refmetric < 0xFFFF && (h.Src() in e.srcs ==> InWindow(h.seqno, base) && InWindow(e.srcs[h.Src()].seqno, base))
    ensures UpdateFeasible(WithSource(e, h, now).srcs[h.Src()], now, h.seqno, h.refmetric) <==> Improves(e, h, now, base)
  {
    if h.Src() in e.srcs {
      FeasibleIsRank(e.srcs[h.Src()], now, h.seqno, h.refmetric, base);
    }
  }

  /** The metric of a route before it is capped. */
  function Total(q: Route): nat { q.refmetric + q.cost + q.addMetric }

  /** No redistributed route stands in the way of the prefix. */
  predicate Free(r: Router, d: Dest) { d in r.xr ==> 0 <= r.allowDuplicates && r.xr[d] < r.allowDuplicates }

  /** A route of metric `total` may replace `q`: both are finite and it is better by 64, or `q`
      is not finite any more. */
  predicate Beats(total: nat, q: Route) { total < 0xFFFF && (Total(q) >= 0xFFFF || Total(q) >= total + 64) }

  /** A finite update whose route is not installed gets it installed if and only if it improves
      on what is known of the source, no redistributed route stands in the way, and it beats
      the route that is installed, if any.  So for a prefix with no route at all a newer
      sequence number always suffices. */
  lemma UpdateInstalls(me: RouterId, r: Router, op: Op, now: int, r': Router, base: u16)
    requires OneTo(me, op, now, r, r') && Passes(me, op) && op.h.refmetric < 0xFFFF
    requires op.h.Key() in r.e.routes ==> !r.e.routes[op.h.Key()].installed
    requires op.h.Src() in r.e.srcs ==> InWindow(op.h.seqno, base) && InWindow(r.e.srcs[op.h.Src()].seqno, base)
    ensures op.h.Key() in r'.e.routes && r'.e.routes[op.h.Key()].installed <==>
              && Improves(r.e, op.h, now, base) && Free(r, op.h.dest)
              && forall k <- r.e.routes :: k.dest == op.h.dest && r.e.routes[k].installed ==>
                   Beats(op.h.refmetric + op.h.cost + op.h.add, r.e.routes[k])
  {
    var h, key := op.h, op.h.Key();
    var e1 := WithSource(r.e, h, now);
    ImprovesIsFeasible(r.e, h, now, base);
    if key in e1.routes {
      var q := Learned(e1, now, Taken(e1, h, now)[0]);
      var e2 := e1.(routes := e1.routes[key := q]);
      assert ChangedTo(e2, key, e1.routes[key].Metric(), now, r.xr, r.allowDuplicates, r'.e.routes);
      JudgedInstalls(e1, e2, now, r, key, q);
    } else if Taken(e1, h, now) != [] {
      JudgedInstalls(e1, e1.(routes := e1.routes[key := h.NewRoute(now)]), now, r, key, h.NewRoute(now));
    }
  }

  lemma JudgedInstalls(e: Engine, e2: Engine, now: int, r: Router, key: RouteKey, q: Route)
    requires e2 == e.(routes := e.routes[key := q]) && q.src in e.srcs && !q.installed
    requires key in e.routes ==> !e.routes[key].installed
    ensures var routes' := Judged(e2, now, r.xr, r.allowDuplicates, key);
            && key in routes'
            && (routes'[key].installed <==>
                  && UpdateFeasible(e.srcs[q.src], now, q.seqno, q.refmetric) && Free(r, key.dest)
                  && forall k <- e.routes :: k.dest == key.dest && e.routes[k].installed ==> Beats(Total(q), e.routes[k]))
  {
    assert forall k <- e.routes :: k != key ==> e2.routes[k] == e.routes[k];
    assert forall k <- e2.routes :: e2.routes[k].installed ==> k in e.routes && e2.routes[k] == e.routes[k];
  }

  /** What a passed update leaves of the route it names: its own source, sequence number, metric
      and cost, and a hold time of six intervals, at least 15 seconds.  A new route is kept if
      it is finite and feasible or unfeasible ones are kept; a known one is always rewritten, and
      refreshed exactly if the same holds. */
  lemma UpdateTold(me: RouterId, r: Router, op: Op, now: int, r': Router, base: u16)
    requires OneTo(me, op, now, r, r') && Passes(me, op)
    requires op.h.Src() in r.e.srcs ==> InWindow(op.h.seqno, base) && InWindow(r.e.srcs[op.h.Src()].seqno, base)
    ensures var h, key := op.h, op.h.Key();
            var good := h.refmetric < 0xFFFF && (r.e.keepUnfeasible || Improves(r.e, h, now, base));
            && (key in r'.e.routes <==> key in r.e.routes || good)
            && (key in r'.e.routes ==>
                  var q := r'.e.routes[key];
                  && q.src == SourceKey(h.id, h.dest) && q.seqno == h.seqno && q.refmetric == h.refmetric
                  && q.cost == h.cost && q.addMetric == h.add
                  && q.holdTime >= 15 && (q.holdTime == 15 || q.holdTime == 4 * h.interval / 100 + h.interval / 50)
                  && q.holdTime >= 4 * h.interval / 100 + h.interval / 50
                  && q.time == if good then now else r.e.routes[key].time)
  {
    var h, key := op.h, op.h.Key();
    var e1 := WithSource(r.e, h, now);
    if h.refmetric < 0xFFFF { ImprovesIsFeasible(r.e, h, now, base); }
    if key in e1.routes {
      var was, q := e1.routes[key], Learned(e1, now, Taken(e1, h, now)[0]);
      SettledSame(e1.(routes := e1.routes[key := q]), key, was.Metric(), was.installed && !q.installed,
                  now, r.xr, r.allowDuplicates, r'.e.routes);
    } else if Taken(e1, h, now) != [] {
      JudgedSame(e1.(routes := e1.routes[key := h.NewRoute(now)]), now, r.xr, r.allowDuplicates, key);
    }
  }

  /** An update that is not let past the tests at the head of update_route changes nothing. */
  lemma RefusedChangesNothing(me: RouterId, r: Router, op: Op, now: int, r': Router)
    requires OneTo(me, op, now, r, r') && op.Update? && !Passes(me, op)
    ensures r' == r
  {
    var evs, more :| OpTo(me, r, op, now, evs, more, r');
    assert evs + more == [];
  }

  /** An update leaves the routes through other neighbours and next hops as they are, but for which
      of them is installed, and the routes to other prefixes altogether. */
  lemma OthersKept(me: RouterId, r: Router, op: Op, now: int, r': Router, k: RouteKey)
    requires OneTo(me, op, now, r, r') && Passes(me, op) && k != op.h.Key()
    ensures k in r'.e.routes <==> k in r.e.routes
    ensures k in r.e.routes ==> r'.e.routes[k].(installed := false) == r.e.routes[k].(installed := false)
    ensures k in r.e.routes && k.dest != op.h.dest ==> r'.e.routes[k] == r.e.routes[k]
  {
    var h, key := op.h, op.h.Key();
    var e1 := WithSource(r.e, h, now);
    if key in e1.routes {
      var was, q := e1.routes[key], Learned(e1, now, Taken(e1, h, now)[0]);
      var e2 := e1.(routes := e1.routes[key := q]);
      SettledSame(e2, key, was.Metric(), was.installed && !q.installed, now, r.xr, r.allowDuplicates, r'.e.routes);
      assert k in e2.routes <==> k in r.e.routes;
    } else if Taken(e1, h, now) != [] {
      var e2 := e1.(routes := e1.routes[key := h.NewRoute(now)]);
      JudgedSame(e2, now, r.xr, r.allowDuplicates, key);
      assert k in e2.routes <==> k in r.e.routes;
    }
  }

  /** A flush removes exactly the route, and leaves the others as they are, but for which of those
      to its prefix is installed. */
  lemma FlushRemoves(me: RouterId, r: Router, op: Op, now: int, r': Router)
    requires OneTo(me, op, now, r, r') && op.FlushOp? && op.key in r.e.routes
    ensures Reelects(r.e.routes - {op.key}, r'.e.routes, op.key.dest)
    ensures !r.e.routes[op.key].installed ==> r'.e.routes == r.e.routes - {op.key}
  {
    if r.e.routes[op.key].installed {
      LostSame(r.e.(routes := r.e.routes - {op.key}), op.key.dest, now, r.xr, r.allowDuplicates, r'.e.routes);
    }
  }

  // ---- Metric changes and lifetime ----------------------------------------------------

  /** A route refreshed within its hold time keeps what it was told and gets its new cost; one
      that was not is retracted, with a sequence number newer than the source's. */
  lemma MetricKept(me: RouterId, r: Router, op: Op, now: int, r': Router)
    requires OneTo(me, op, now, r, r') && op.NewCost? && op.key in r.e.routes
    ensures r'.e.routes.Keys == r.e.routes.Keys && r.e.routes[op.key].src in r.e.srcs
    ensures var q, q' := r.e.routes[op.key], r'.e.routes[op.key];
            && q'.src == q.src && q'.time == q.time && q'.holdTime == q.holdTime
            && (now - q.time <= q.holdTime ==>
                  q'.seqno == q.seqno && q'.refmetric == q.refmetric && q'.cost == op.cost && q'.addMetric == op.add)
            && (now - q.time > q.holdTime ==> q'.refmetric == 0xFFFF)
            && (now - q.time > q.holdTime && q.refmetric < 0xFFFF ==>
                  Total(q') >= 0xFFFF && q'.seqno == (r.e.srcs[q.src].seqno + 1) % 0x10000)
  {
    var e, q := r.e, r.e.routes[op.key];
    var p := if !q.Expired(now) then Recosted(q, op.cost, op.add) else if q.refmetric < INFINITY then ExpiredRoute(e, op.key) else q;
    if !q.Expired(now) || q.refmetric < INFINITY {
      assert AfterTo(e, op.key, p, now, r.xr, r.allowDuplicates, r'.e.routes);
      if p.Metric() != q.Metric() {
        ChangedSame(e.(routes := e.routes[op.key := p]), op.key, q.Metric(), now, r.xr, r.allowDuplicates, r'.e.routes);
      }
    }
  }

  /** Six announced intervals, at least 15 seconds. */
  function Lifetime(interval: u16): nat {
    var t := 4 * interval / 100 + interval / 50;
    if t < 15 then 15 else t
  }

  /** A route told by a finite update that improves on the source, and looked at after `t1 - t0`
      seconds, is retracted then if and only if its lifetime has passed. */
  lemma ToldIsKept(me: RouterId, r0: Router, op: Op, t0: int, r1: Router, cost: u16, add: u16, t1: int, r2: Router, base: u16)
    requires OneTo(me, op, t0, r0, r1) && Passes(me, op) && op.h.refmetric < 0xFFFF && Improves(r0.e, op.h, t0, base)
    requires op.h.Src() in r0.e.srcs ==> InWindow(op.h.seqno, base) && InWindow(r0.e.srcs[op.h.Src()].seqno, base)
    requires OneTo(me, NewCost(op.h.Key(), cost, add), t1, r1, r2)
    ensures op.h.Key() in r2.e.routes
    ensures r2.e.routes[op.h.Key()].refmetric == (if t1 - t0 > Lifetime(op.h.interval) then 0xFFFF else op.h.refmetric)
  {
    UpdateTold(me, r0, op, t0, r1, base);
    MetricKept(me, r1, NewCost(op.h.Key(), cost, add), t1, r2);
  }

  /** An unexpired, feasible route to the prefix. */
  ghost predicate Usable(e: Engine, k: RouteKey, d: Dest, now: int) {
    && k in e.routes && k.dest == d && now - e.routes[k].time <= e.routes[k].holdTime && e.routes[k].src in e.srcs
    && UpdateFeasible(e.srcs[e.routes[k].src], now, e.routes[k].seqno, e.routes[k].refmetric)
  }

  /** Another usable route to the prefix of `key` is better than `metric` by 96. */
  ghost predicate Outdone(e: Engine, key: RouteKey, metric: int, now: int) {
    exists k :: k != key && Usable(e, k, key.dest, now) && Total(e.routes[k]) + 96 <= metric
  }

  /** An installed route that gets worse stays installed if and only if it is not outdone. */
  lemma WorseIsReplaced(me: RouterId, r: Router, op: Op, now: int, r': Router)
    requires OneTo(me, op, now, r, r') && op.NewCost? && op.key in r.e.routes && One(r.e.routes) && Free(r, op.key.dest)
    requires var q := r.e.routes[op.key];
             && q.installed && now - q.time <= q.holdTime
             && Total(q) < 0xFFFF && Total(q) < q.refmetric + op.cost + op.add
    ensures var total := r.e.routes[op.key].refmetric + op.cost + op.add;
            && op.key in r'.e.routes
            && (r'.e.routes[op.key].installed <==> !Outdone(r.e, op.key, if total < 0xFFFF then total else 0xFFFF, now))
  {
    var e, q := r.e, r.e.routes[op.key];
    var p := Recosted(q, op.cost, op.add);
    var e1 := e.(routes := e.routes[op.key := p]);
    assert ChangedTo(e1, op.key, q.Metric(), now, r.xr, r.allowDuplicates, r'.e.routes);
    OutdoneElsewhere(e, op.key, p, p.Metric(), now);
    ChangedIsReplaced(e1, op.key, q.Metric(), now, r, r'.e.routes);
  }

  lemma OutdoneElsewhere(e: Engine, key: RouteKey, p: Route, metric: int, now: int)
    requires key in e.routes
    ensures Outdone(e.(routes := e.routes[key := p]), key, metric, now) <==> Outdone(e, key, metric, now)
  {
    var e1 := e.(routes := e.routes[key := p]);
    if Outdone(e1, key, metric, now) {
      var k :| k != key && Usable(e1, k, key.dest, now) && Total(e1.routes[k]) + 96 <= metric;
      assert Usable(e, k, key.dest, now);
    }
    if Outdone(e, key, metric, now) {
      var k :| k != key && Usable(e, k, key.dest, now) && Total(e.routes[k]) + 96 <= metric;
      assert Usable(e1, k, key.dest, now);
    }
  }

  lemma ChangedIsReplaced(e: Engine, key: RouteKey, oldmetric: u16, now: int, r: Router, routes': Routes)
    requires key in e.routes && e.routes[key].src in e.srcs && ChangedTo(e, key, oldmetric, now, r.xr, r.allowDuplicates, routes')
    requires One(e.routes) && e.routes[key].installed && Free(r, key.dest) && e.routes[key].Metric() > oldmetric
    ensures key in routes' && (routes'[key].installed <==> !Outdone(e, key, e.routes[key].Metric(), now))
  {
    var b :| BestTo(e, key.dest, key, b, now) &&
      routes' == if e.routes[b].Metric() <= e.routes[key].Metric() - 96 then Judged(e, now, r.xr, r.allowDuplicates, b) else e.routes;
    forall k | Usable(e, k, key.dest, now)
      ensures e.routes[b].Metric() <= e.routes[k].Metric()
    {
      assert Candidate(e, e.routes[k], true, None, now);
    }
    if e.routes[b].Metric() <= e.routes[key].Metric() - 96 {
      assert b != key && Usable(e, b, key.dest, now);
    }
  }

  /** `b` is installed, and no finite route to the prefix has a smaller metric. */
  ghost predicate Foremost(routes: Routes, d: Dest, b: RouteKey) {
    && b in routes && b.dest == d && routes[b].installed
    && forall k <- routes :: k.dest == d ==> Total(routes[b]) <= Total(routes[k]) || Total(routes[k]) >= 0xFFFF
  }

  lemma BestTakesOver(e: Engine, d: Dest, head: RouteKey, b: RouteKey, now: int, r: Router)
    requires BestTo(e, d, head, b, now) && Free(r, d) && NoneAt(e.routes, d)
    requires forall k <- e.routes :: k.dest == d ==> Usable(e, k, d, now)
    ensures Foremost(Judged(e, now, r.xr, r.allowDuplicates, b), d, b)
  {
    assert Usable(e, b, d, now);
    JudgedSame(e, now, r.xr, r.allowDuplicates, b);
    forall k <- e.routes | k.dest == d
      ensures Total(e.routes[b]) <= Total(e.routes[k]) || Total(e.routes[k]) >= 0xFFFF
    {
      assert Usable(e, k, d, now);
      assert Candidate(e, e.routes[k], true, None, now);
    }
  }

  /** When the installed route is flushed and every route left to the prefix is usable, one of
      the least metric takes over. */
  lemma FlushFallsBack(me: RouterId, r: Router, op: Op, now: int, r': Router, some: RouteKey)
    requires OneTo(me, op, now, r, r') && op.FlushOp? && op.key in r.e.routes && r.e.routes[op.key].installed
    requires One(r.e.routes) && Free(r, op.key.dest) && some != op.key && some in r.e.routes && some.dest == op.key.dest
    requires forall k <- r.e.routes :: k != op.key && k.dest == op.key.dest ==> Usable(r.e, k, op.key.dest, now)
    ensures exists b :: Foremost(r'.e.routes, op.key.dest, b)
  {
    var e1, d := r.e.(routes := r.e.routes - {op.key}), op.key.dest;
    assert some in e1.routes;
    var head, b :| BestTo(e1, d, head, b, now) && r'.e.routes == Judged(e1, now, r.xr, r.allowDuplicates, b);
    forall k <- e1.routes | k.dest == d
      ensures Usable(e1, k, d, now)
    {
      assert Usable(r.e, k, d, now);
    }
    BestTakesOver(e1, d, head, b, now, r);
  }

  // ---- Sources and redistribution -----------------------------------------------------

  /** Garbage collection keeps a source if and only if a route uses it or it was refreshed within
      200 seconds, changes no distance, and sets times in the future back to now. */
  lemma SourcesKept(me: RouterId, r: Router, op: Op, now: int, r': Router, k: SourceKey)
    requires OneTo(me, op, now, r, r') && op.GcSources?
    ensures r'.e.routes == r.e.routes && r'.xr == r.xr
    ensures k in r'.e.srcs <==>
              k in r.e.srcs && (now - r.e.srcs[k].time <= 200 || exists rk :: rk in r.e.routes && r.e.routes[rk].src == k)
    ensures k in r'.e.srcs ==>
              && r'.e.srcs[k].seqno == r.e.srcs[k].seqno && r'.e.srcs[k].metric == r.e.srcs[k].metric
              && r'.e.srcs[k].time == if r.e.srcs[k].time > now then now else r.e.srcs[k].time
  {
  }

  /** Of a prefix redistributed more than once the least metric is kept; others, martians and
      infinite metrics change nothing. */
  lemma LeastIsRedistributed(me: RouterId, r: Router, op: Op, now: int, r': Router, d: Dest)
    requires OneTo(me, op, now, r, r') && op.Redistribute?
    ensures var counts := d == op.x.dest && !op.martian && op.x.metric < 0xFFFF;
            && (d in r'.xr <==> d in r.xr || counts)
            && (d in r'.xr ==> r'.xr[d] == if counts && (d in r.xr ==> op.x.metric < r.xr[d]) then op.x.metric else r.xr[d])
  {
  }

  /** What redistribution does to the routes: one to the prefix is uninstalled exactly if the
      redistributed routes changed and duplicates are not allowed or the new metric is below
      allow_duplicates; nothing else changes. */
  lemma RedistributedGivesWay(me: RouterId, r: Router, op: Op, now: int, r': Router, k: RouteKey)
    requires OneTo(me, op, now, r, r') && op.Redistribute? && k in r.e.routes
    ensures var takes := !op.martian && op.x.metric < 0xFFFF && (op.x.dest in r.xr ==> op.x.metric < r.xr[op.x.dest]);
            var off := takes && k.dest == op.x.dest && (r.allowDuplicates < 0 || op.x.metric < r.allowDuplicates);
            k in r'.e.routes && r'.e.routes[k] == if off then r.e.routes[k].(installed := false) else r.e.routes[k]
  {
    var evs, more :| OpTo(me, r, op, now, evs, more, r');
    assert evs + more == evs;
    var es :| Through(es, r.e, now, evs, r'.e);
    UninstalledOnly(es, now, evs, op.x.dest, k, |evs|);
  }

  lemma {:induction false} UninstalledOnly(es: seq<Engine>, now: int, evs: seq<Event>, d: Dest, k: RouteKey, i: nat)
    requires |es| == |evs| + 1 && Through(es, es[0], now, evs, es[|evs|]) && i <= |evs| && k in es[0].routes
    requires forall ev <- evs :: ev.Uninstall? && ev.key.dest == d
    ensures k in es[i].routes && es[i].routes[k].(installed := false) == es[0].routes[k].(installed := false)
    ensures k.dest != d ==> es[i].routes[k] == es[0].routes[k]
    ensures es[i].routes[k].installed ==> es[0].routes[k].installed
    ensures i == 0 ==> es[i].routes[k] == es[0].routes[k]
  {
    if i > 0 {
      UninstalledOnly(es, now, evs, d, k, i - 1);
      assert evs[i - 1] in evs && es[i] == Apply(es[i - 1], now, evs[i - 1]);
    }
  }

  /** Advertising an installed route leaves the routes alone and its source with the better of
      what it had and what is said, refreshed now. */
  lemma SayRefreshes(me: RouterId, r: Router, key: RouteKey, interferes: bool, now: int, r': Router, base: u16)
    requires OneTo(me, Say(key, interferes), now, r, r') && key in r.e.routes && r.e.routes[key].installed
    ensures r.e.routes[key].src in r.e.srcs && r'.e.routes == r.e.routes
    ensures var q := r.e.routes[key];
            var src, src', m := r.e.srcs[q.src], r'.e.srcs[q.src], AdvertisedMetric(r.e, q, interferes);
            InWindow(q.seqno, base) && InWindow(src.seqno, base) ==>
              if m == 0xFFFF then src' == src
              else if now - src.time > 200 then src' == Source(q.seqno, m, now)
              else
                && src'.time == now
                && Rank(base, src'.seqno, src'.metric)
                   == if Rank(base, q.seqno, m) > Rank(base, src.seqno, src.metric) then Rank(base, q.seqno, m)
                      else Rank(base, src.seqno, src.metric)
  {
    var evs, more :| OpTo(me, r, Say(key, interferes), now, evs, more, r');
    assert evs + more == [Advertise(key, interferes)];
    var es :| Through(es, r.e, now, evs + more, r'.e);
    assert es[1] == Apply(es[0], now, (evs + more)[0]);
    var q := r.e.routes[key];
    var src := r.e.srcs[q.src];
    if InWindow(q.seqno, base) && InWindow(src.seqno, base) {
      AdvertisedIsBest(src, now, q.seqno, AdvertisedMetric(r.e, q, interferes), base);
    }
  }
}
