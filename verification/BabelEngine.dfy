/** One router's routing state and the elementary changes that the functions of
    babeld/route.c and babeld/source.c make to it.  Every function of the route
    table is a sequence of these changes (see `RouteTable`), and the network
    model (see `BabelNetwork`) interleaves them freely. */
module BabelEngine {
  import opened Seqno
  import opened BabelTypes

  /** Routes by key, feasibility distances by source, and the options keep_unfeasible
      and diversity_factor. */
  datatype Engine = Engine(
    routes: map<RouteKey, Route>, srcs: map<SourceKey, Source>,
    keepUnfeasible: bool, diversityFactor: nat)

  datatype Event =
    | CreateSource(k: SourceKey, initial: u16)
      /** update_route on a route already in the table */
    | Learn(key: RouteKey, src: SourceKey, seqno: u16, refmetric: u16, cost: u16, add: u16, hold: u16)
      /** update_route on a route not in the table */
    | Add(route: Route)
    | Install(key: RouteKey)
    | Switch(from: RouteKey, to: RouteKey)
    | Uninstall(key: RouteKey)
    | Flush(key: RouteKey)
    | SetCost(key: RouteKey, cost: u16, add: u16)
    | Expire(key: RouteKey)
    | Retract(key: RouteKey)
      /** update_source, called when an installed route is advertised */
    | Advertise(key: RouteKey, interferes: bool)
      /** expire_sources on a stale source that no route uses */
    | DropSource(k: SourceKey)
      /** expire_sources on a source whose time lies in the future */
    | ClampSource(k: SourceKey)

  /** route_feasible */
  predicate RouteFeasible(e: Engine, now: int, r: Route)
    requires r.src in e.srcs
  {
    UpdateFeasible(e.srcs[r.src], now, r.seqno, r.refmetric)
  }

  /** No route to `dest` is installed. */
  ghost predicate NoneInstalled(e: Engine, dest: Dest) {
    forall k <- e.routes :: k.dest == dest ==> !e.routes[k].installed
  }

  /** The metric flushupdates puts into an update for an installed route. */
  function AdvertisedMetric(e: Engine, r: Route, interferes: bool): u16 {
    if interferes then r.Metric() else r.MetricNoninterfering(e.diversityFactor)
  }

  /** Each route is filed under its own key, costs at least 1, and its source is in the
      source table. */
  ghost predicate WellFormed(e: Engine) {
    forall k <- e.routes :: Filed(e.routes[k], k, e.srcs)
  }

  predicate Filed(r: Route, k: RouteKey, srcs: map<SourceKey, Source>) {
    r.Key() == k && r.cost >= 1 && r.src in srcs
  }

  /** At most one route per destination is installed. */
  ghost predicate OneInstalled(e: Engine) {
    forall k1 <- e.routes, k2 <- e.routes ::
      e.routes[k1].installed && e.routes[k2].installed && k1.dest == k2.dest ==> k1 == k2
  }

  ghost predicate Enabled(e: Engine, now: int, ev: Event) {
    match ev
    case CreateSource(k, _) => k !in e.srcs
    case Learn(key, src, _, _, cost, _, _) =>
      key in e.routes && src in e.srcs && src.dest == key.dest && cost >= 1
    case Add(r) =>
      r.Key() !in e.routes && r.src in e.srcs && !r.installed && r.refmetric < INFINITY && r.cost >= 1
    case Install(key) =>
      && key in e.routes && e.routes[key].src in e.srcs
      && RouteFeasible(e, now, e.routes[key])
      && NoneInstalled(e, key.dest)
    case Switch(from, to) =>
      && from in e.routes && to in e.routes && from.dest == to.dest && from != to
      && e.routes[from].installed
      && e.routes[to].src in e.srcs && RouteFeasible(e, now, e.routes[to])
    case Uninstall(key) => key in e.routes
    case Flush(key) => key in e.routes && !e.routes[key].installed
    case SetCost(key, cost, _) => key in e.routes && cost >= 1
    case Expire(key) => key in e.routes && e.routes[key].src in e.srcs
    case Retract(key) => key in e.routes
    case Advertise(key, _) =>
      key in e.routes && e.routes[key].installed && e.routes[key].src in e.srcs
    case DropSource(k) => k in e.srcs && Stale(e.srcs[k], now) && Unused(e, k)
    case ClampSource(k) => k in e.srcs && e.srcs[k].time > now
  }

  /** No route uses the source. */
  ghost predicate Unused(e: Engine, k: SourceKey) { forall rk <- e.routes :: e.routes[rk].src != k }

  /** The record update_route leaves for a known route.  An unfeasible update to an
      installed route is stored all the same; the route stays installed unless the
      update names another source. */
  function Learned(e: Engine, now: int, ev: Event): (r: Route)
    requires ev.Learn? && ev.key in e.routes && ev.src in e.srcs
  {
    var prev := e.routes[ev.key];
    var feasible := UpdateFeasible(e.srcs[ev.src], now, ev.seqno, ev.refmetric);
    prev.(src := ev.src, seqno := ev.seqno, refmetric := ev.refmetric,
         cost := ev.cost, addMetric := ev.add, holdTime := ev.hold,
         time := if (feasible || e.keepUnfeasible) && ev.refmetric < INFINITY then now else prev.time,
         installed := prev.installed && (feasible || ev.src == prev.src))
  }

  ghost function Apply(e: Engine, now: int, ev: Event): Engine
    requires Enabled(e, now, ev)
  {
    match ev
    case CreateSource(k, initial) => e.(srcs := e.srcs[k := Source(initial, INFINITY, now)])
    case Learn(key, _, _, _, _, _, _) => e.(routes := e.routes[key := Learned(e, now, ev)])
    case Add(r) => e.(routes := e.routes[r.Key() := r])
    case Install(key) => e.(routes := e.routes[key := e.routes[key].(installed := true)])
    case Switch(from, to) =>
      e.(routes := e.routes[from := e.routes[from].(installed := false)]
                           [to := e.routes[to].(installed := true)])
    case Uninstall(key) => e.(routes := e.routes[key := e.routes[key].(installed := false)])
    case Flush(key) => e.(routes := e.routes - {key})
    case SetCost(key, cost, add) =>
      e.(routes := e.routes[key := e.routes[key].(cost := cost, addMetric := add)])
    case Expire(key) =>
      var r := e.routes[key];
      e.(routes := e.routes[key := r.(seqno := SeqnoPlus(e.srcs[r.src].seqno, 1),
                                      refmetric := INFINITY, cost := INFINITY, addMetric := 0)])
    case Retract(key) =>
      e.(routes := e.routes[key := e.routes[key].(refmetric := INFINITY, cost := INFINITY, addMetric := 0)])
    case Advertise(key, interferes) =>
      var r := e.routes[key];
      e.(srcs := e.srcs[r.src := UpdateSource(e.srcs[r.src], now, r.seqno, AdvertisedMetric(e, r, interferes))])
    case DropSource(k) => e.(srcs := e.srcs - {k})
    case ClampSource(k) => e.(srcs := e.srcs[k := e.srcs[k].(time := now)])
  }

  /** Every elementary change keeps routes filed under their keys with live sources. */
  lemma ApplyKeepsWellFormed(e: Engine, now: int, ev: Event)
    requires WellFormed(e) && Enabled(e, now, ev)
    ensures WellFormed(Apply(e, now, ev))
  {
    var e' := Apply(e, now, ev);
    forall k <- e'.routes
      ensures Filed(e'.routes[k], k, e'.srcs)
    {
      assert k in e.routes ==> Filed(e.routes[k], k, e.srcs);
    }
  }

  /** ... and at most one route per destination installed. */
  lemma ApplyKeepsOneInstalled(e: Engine, now: int, ev: Event)
    requires OneInstalled(e) && Enabled(e, now, ev)
    ensures OneInstalled(Apply(e, now, ev))
  {
    var e' := Apply(e, now, ev);
    forall k1 <- e'.routes, k2 <- e'.routes
      | e'.routes[k1].installed && e'.routes[k2].installed && k1.dest == k2.dest
      ensures k1 == k2
    {
      if ev.Install? {
        assert k1 != ev.key ==> k1 in e.routes && e.routes[k1].installed && k1.dest != ev.key.dest;
        assert k2 != ev.key ==> k2 in e.routes && e.routes[k2].installed && k2.dest != ev.key.dest;
      } else if ev.Switch? {
        assert k1 != ev.to ==> k1 != ev.from && k1 in e.routes && e.routes[k1].installed;
        assert k2 != ev.to ==> k2 != ev.from && k2 in e.routes && e.routes[k2].installed;
        assert k1 == ev.to || k1.dest != ev.to.dest;
        assert k2 == ev.to || k2.dest != ev.to.dest;
      } else {
        assert k1 in e.routes && e.routes[k1].installed;
        assert k2 in e.routes && e.routes[k2].installed;
      }
    }
  }
}
