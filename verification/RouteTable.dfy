/** babeld's route table (babeld/route.c) with the tables it must stay consistent with. */
module RouteTable {
  import opened Options
  import opened Seqno
  import opened BabelTypes
  import opened BabelEngine
  import opened SlotTable
  import opened KernelFib
  import opened RouteSpec
  import S = SourceTable
  import X = XrouteTable

  class Table {
    var slots: seq<Slot>
    ghost var routes: Routes

    const sources: S.Sources
    const xroutes: X.Xroutes
    const kernel: Kernel
    const myid: RouterId
    const kernelMetric: int
    const allowDuplicates: int
    const keepUnfeasible: bool
    const diversityFactor: nat

    constructor (myid: RouterId, kernelMetric: int, allowDuplicates: int, keepUnfeasible: bool, diversityFactor: nat)
      ensures Valid() && fresh(sources) && fresh(xroutes) && fresh(kernel) && routes == map[]
      ensures Exact() == Engine(map[], map[], keepUnfeasible, diversityFactor)
    {
      slots, routes := [], map[];
      sources := new S.Sources();
      xroutes := new X.Xroutes();
      kernel := new Kernel();
      this.myid, this.kernelMetric, this.allowDuplicates := myid, kernelMetric, allowDuplicates;
      this.keepUnfeasible, this.diversityFactor := keepUnfeasible, diversityFactor;
      new;
      assert Fib(kernelMetric, routes) == {};
    }

    /** The slots hold the routes, and the kernel exactly the installed ones. */
    ghost predicate Consistent()
      reads this, kernel
    {
      Linked(slots, routes) && kernel.fib == Fib(kernelMetric, routes)
    }

    /** What the decisions need: the sources of all routes are there. */
    ghost predicate Working()
      reads this, sources, xroutes, kernel
    {
      Consistent() && sources.Valid() && xroutes.Valid() && Sourced(routes, sources.table)
    }

    /** All the tables agree. */
    ghost predicate Valid()
      reads this, sources, xroutes, kernel
    {
      && Consistent() && sources.Valid() && xroutes.Valid()
      && Books(routes, sources.table, multiset{}, xroutes.view.Keys, allowDuplicates)
    }

    /** All the tables agree but for the source `s`, which has one user too many on the books. */
    ghost predicate Owing(s: SourceKey)
      reads this, sources, xroutes, kernel
    {
      && Consistent() && sources.Valid() && xroutes.Valid()
      && Books(routes, sources.table, multiset{s}, xroutes.view.Keys, allowDuplicates)
    }

    /** The state as `BabelEngine` sees it. */
    ghost function Exact(): Engine
      reads this, sources
    {
      Engine(routes, SrcsOf(sources.table), keepUnfeasible, diversityFactor)
    }

    // ---- Slots ------------------------------------------------------------------------

    /** Where a route is; -1 if nowhere. */
    method Locate(key: RouteKey) returns (i: int, j: nat)
      requires Linked(slots, routes)
      ensures i >= 0 <==> key in routes
      ensures i >= 0 ==> && i < |slots| && slots[i] == Linear(slots, key.dest) && Head(slots[i]) == key.dest
                         && j < |slots[i]| && slots[i][j] == routes[key]
                         && Holds(slots[i], key.dest, routes) && Placed(slots[i][j], j, key.dest, routes)
    {
      var n;
      i, n := FindRouteSlot(slots, key.dest);
      j := 0;
      assert Holds(Linear(slots, key.dest), key.dest, routes);
      if i >= 0 {
        while j < |slots[i]|
          invariant j <= |slots[i]| && forall x | 0 <= x < j :: slots[i][x].Key() != key
        {
          assert Placed(slots[i][j], j, key.dest, routes);
          if slots[i][j].neigh == key.neigh && slots[i][j].nexthop == key.nexthop { return; }
          j := j + 1;
        }
        i := -1;
      }
    }

    /** find_route */
    method FindRoute(key: RouteKey) returns (r: Option<Route>)
      requires Linked(slots, routes)
      ensures r == if key in routes then Some(routes[key]) else None
    {
      var i, j := Locate(key);
      r := if i < 0 then None else Some(slots[i][j]);
    }

    /** find_installed_route */
    method FindInstalledRoute(d: Dest) returns (r: Option<Route>)
      requires Linked(slots, routes)
      ensures r.None? ==> NoneAt(routes, d)
      ensures r.Some? ==> && r.value.installed && r.value.src.dest == d
                          && r.value.Key() in routes && routes[r.value.Key()] == r.value
    {
      var i, n := FindRouteSlot(slots, d);
      assert Holds(Linear(slots, d), d, routes);
      r := None;
      if i >= 0 {
        assert Placed(slots[i][0], 0, d, routes);
        if slots[i][0].installed { return Some(slots[i][0]); }
      }
      forall k <- routes | k.dest == d
        ensures !routes[k].installed
      {
        if routes[k].installed { InstalledIsHead(slots, routes, k); }
      }
    }

    /** A write through a route pointer, which does not install the route. */
    method SetRoute(key: RouteKey, r: Route)
      requires Linked(slots, routes) && key in routes && r.Key() == key && (r.installed ==> routes[key].installed)
      modifies `slots, `routes
      ensures Linked(slots, routes) && routes == old(routes)[key := r]
    {
      var i, j := Locate(key);
      var s := slots[i][j := r];
      HoldsSet(slots[i], key.dest, routes, j, r);
      SetSlot(slots, i, s);
      LinkedUpdate(slots, slots[i := s], routes, routes[key := r], key.dest, s);
      slots, routes := slots[i := s], routes[key := r];
    }

    /** The end of install_route: the route is marked, and moved to the head of its slot. */
    method MarkInstalled(key: RouteKey)
      requires Linked(slots, routes) && key in routes && NoneAt(routes, key.dest)
      modifies `slots, `routes
      ensures Linked(slots, routes) && routes == old(routes)[key := old(routes)[key].(installed := true)]
    {
      var i, j := Locate(key);
      var r := slots[i][j].(installed := true);
      NotInstalled(slots[i], key.dest, routes);
      HoldsInstall(slots[i], key.dest, routes, j, r);
      var s := MoveInstalled(slots[i][j := r], key, j);
      SetSlot(slots, i, s);
      LinkedUpdate(slots, slots[i := s], routes, routes[key := r], key.dest, s);
      slots, routes := slots[i := s], routes[key := r];
    }

    /** move_installed_route: the walk for the predecessor, and the relinking.  The route comes
        to the head and the others keep their order. */
    method MoveInstalled(s: Slot, key: RouteKey, ghost j: nat) returns (s': Slot)
      requires j < |s| && forall i | 0 <= i < |s| :: s[i].Key() == key <==> i == j
      ensures s' == [s[j]] + Without(s, key) && s' == Moved(s, j)
    {
      WithoutIs(s, key, j);
      s' := s;
      if s[0].Key() != key {
        var n := 0;
        while s[n + 1].Key() != key
          invariant n < j
          decreases j - n
        {
          n := n + 1;
        }
        s' := [s[n + 1]] + (s[..n + 1] + s[n + 2..]);
      }
    }

    /** insert_route */
    method InsertRoute(r: Route)
      requires Linked(slots, routes) && r.Key() !in routes && !r.installed
      modifies `slots, `routes
      ensures Linked(slots, routes) && routes == old(routes)[r.Key() := r]
    {
      var d := r.src.dest;
      var i, n := FindRouteSlot(slots, d);
      assert Holds(Linear(slots, d), d, routes);
      HoldsAppend(Linear(slots, d), d, routes, r);
      var slots', s;
      if i < 0 {
        s := [r];
        assert [] + [r] == s;
        InsertSlot(slots, n, s);
        slots' := slots[..n] + [s] + slots[n..];
      } else {
        s := slots[i] + [r];
        SetSlot(slots, i, s);
        slots' := slots[i := s];
      }
      LinkedUpdate(slots, slots', routes, routes[r.Key() := r], d, s);
      slots, routes := slots', routes[r.Key() := r];
    }

    /** The middle of flush_route: the route leaves its slot, and an empty slot the table. */
    method RemoveRoute(key: RouteKey)
      requires Linked(slots, routes) && key in routes && !routes[key].installed
      modifies `slots, `routes
      ensures Linked(slots, routes) && routes == old(routes) - {key}
    {
      var i, j := Locate(key);
      var s := slots[i][..j] + slots[i][j + 1..];
      HoldsRemove(slots[i], key.dest, routes, j);
      var slots';
      if s == [] {
        RemoveSlot(slots, i);
        slots' := slots[..i] + slots[i + 1..];
      } else {
        assert Placed(s[0], 0, key.dest, routes - {key});
        SetSlot(slots, i, s);
        slots' := slots[i := s];
      }
      LinkedUpdate(slots, slots', routes, routes - {key}, key.dest, s);
      slots, routes := slots', routes - {key};
    }

    // ---- Kernel -----------------------------------------------------------------------

    /** In a consistent table the kernel has exactly the installed routes, with their next hops,
        interfaces and metrics. */
    lemma KernelMirrors()
      requires Consistent()
      ensures Mirrors(kernel.fib, kernelMetric, routes)
    {
      LinkedOne(slots, routes);
      FibMirrors(kernelMetric, routes);
    }

    /** install_route */
    method InstallRoute(key: RouteKey)
      requires Consistent() && key in routes
      modifies `slots, `routes, kernel
      ensures Consistent()
      ensures routes == if NoneAt(old(routes), key.dest) then Elected(old(routes), key) else old(routes)
    {
      LinkedOne(slots, routes);
      var r := FindRoute(key);
      if r.value.installed { return; }
      var head := FindInstalledRoute(key.dest);
      if head.Some? { return; }
      FibAdd(kernelMetric, routes, r.value.(installed := true));
      ElectedInstall(routes, key);
      kernel.Add(EntryOf(kernelMetric, r.value));
      MarkInstalled(key);
    }

    /** uninstall_route */
    method UninstallRoute(key: RouteKey)
      requires Consistent() && key in routes
      modifies `slots, `routes, kernel
      ensures Consistent() && routes == old(routes)[key := old(routes)[key].(installed := false)]
    {
      LinkedOne(slots, routes);
      var r := FindRoute(key);
      if !r.value.installed {
        assert routes == routes[key := routes[key].(installed := false)];
        return;
      }
      FibDrop(kernelMetric, routes, r.value.(installed := false));
      kernel.Flush(EntryOf(kernelMetric, r.value));
      SetRoute(key, r.value.(installed := false));
    }

    /** switch_routes */
    method SwitchRoutes(from: Option<RouteKey>, key: RouteKey)
      requires Consistent() && key in routes
      requires from.Some? ==> from.value in routes && from.value.dest == key.dest && from.value != key
      modifies `slots, `routes, kernel
      ensures Consistent()
      ensures from.None? ==>
                routes == if NoneAt(old(routes), key.dest) then Elected(old(routes), key) else old(routes)
      ensures from.Some? ==>
                routes == if old(routes)[from.value].installed then Elected(old(routes), key) else old(routes)
    {
      if from.None? {
        InstallRoute(key);
        return;
      }
      LinkedOne(slots, routes);
      var old' := FindRoute(from.value);
      var new' := FindRoute(key);
      if !old'.value.installed { return; }
      ElectedSwitch(routes, from.value, key);
      FibDrop(kernelMetric, routes, old'.value.(installed := false));
      FibAdd(kernelMetric, routes[from.value := old'.value.(installed := false)], new'.value.(installed := true));
      kernel.Modify(EntryOf(kernelMetric, old'.value), EntryOf(kernelMetric, new'.value));
      SetRoute(from.value, old'.value.(installed := false));
      MarkInstalled(key);
    }

    /** change_route_metric */
    method ChangeRouteMetric(key: RouteKey, refmetric: u16, cost: u16, add: u16)
      requires Consistent() && key in routes
      modifies `slots, `routes, kernel
      ensures Consistent()
      ensures routes == old(routes)[key := old(routes)[key].(refmetric := refmetric, cost := cost, addMetric := add)]
    {
      LinkedOne(slots, routes);
      var r := FindRoute(key);
      var r' := r.value.(refmetric := refmetric, cost := cost, addMetric := add);
      var was, now := KernelMetric(kernelMetric, r.value.Metric()), KernelMetric(kernelMetric, r'.Metric());
      if r.value.installed {
        FibSwap(kernelMetric, routes, r');
        if was != now { kernel.Modify(EntryOf(kernelMetric, r.value), EntryOf(kernelMetric, r')); }
      } else {
        FibQuiet(kernelMetric, routes, key, r');
      }
      SetRoute(key, r');
    }

    /** retract_route */
    method RetractRoute(key: RouteKey)
      requires Consistent() && key in routes
      modifies `slots, `routes, kernel
      ensures Consistent()
      ensures routes == old(routes)[key := old(routes)[key].(refmetric := INFINITY, cost := INFINITY, addMetric := 0)]
    {
      ChangeRouteMetric(key, INFINITY, INFINITY, 0);
    }

    // ---- Decisions --------------------------------------------------------------------

    /** route_feasible */
    method Feasible(r: Route, now: int) returns (b: bool)
      requires sources.Valid() && r.src in sources.table
      ensures b == RouteFeasible(Exact(), now, r)
    {
      var e := sources.Get(r.src);
      b := UpdateFeasible(e.src, now, r.seqno, r.refmetric);
    }

    /** find_best_route */
    method FindBestRoute(d: Dest, feasible: bool, exclude: Option<Neighbour>, now: int) returns (best: Option<Route>)
      requires Linked(slots, routes) && sources.Valid() && Sourced(routes, sources.table)
      ensures best.None? <==> Linear(slots, d) == []
      ensures best.Some? ==> Best(Exact(), Linear(slots, d), |Linear(slots, d)|, best.value, feasible, exclude, now)
      ensures best.Some? ==> best.value.src.dest == d && best.value.Key() in routes && routes[best.value.Key()] == best.value
    {
      var i, n := FindRouteSlot(slots, d);
      if i < 0 { return None; }
      assert Holds(slots[i], d, routes);
      var r := BestIn(slots[i], d, feasible, exclude, now);
      ghost var x :| 0 <= x < |slots[i]| && slots[i][x] == r;
      assert Placed(slots[i][x], x, d, routes);
      best := Some(r);
    }

    /** The walk of find_best_route along a slot. */
    method BestIn(s: Slot, ghost d: Dest, feasible: bool, exclude: Option<Neighbour>, now: int) returns (r: Route)
      requires s != [] && Holds(s, d, routes) && sources.Valid() && Sourced(routes, sources.table)
      ensures r in s && Best(Exact(), s, |s|, r, feasible, exclude, now)
    {
      r := s[0];
      var j := 1;
      while j < |s|
        invariant 1 <= j <= |s| && Best(Exact(), s, j, r, feasible, exclude, now)
      {
        assert Placed(s[j], j, d, routes);
        var f := true;
        if feasible { f := Feasible(s[j], now); }
        if !s[j].Expired(now) && f && (exclude.None? || s[j].neigh != exclude.value) && s[j].Metric() < r.Metric() {
          r := s[j];
        }
        j := j + 1;
      }
    }

    ghost function Redist(): Redistributed
      reads xroutes
    {
      map d | d in xroutes.view :: xroutes.view[d].metric
    }

    /** The tests of consider_route; `from` is the installed route, if any. */
    method Considered(key: RouteKey, now: int) returns (wins: bool, from: Option<RouteKey>)
      requires Linked(slots, routes) && sources.Valid() && xroutes.Valid()
      requires key in routes && routes[key].src in sources.table
      ensures wins <==> Wins(Exact(), now, Redist(), allowDuplicates, key)
      ensures wins && from.None? ==> NoneAt(routes, key.dest)
      ensures wins && from.Some? ==> from.value in routes && routes[from.value].installed
      ensures wins && from.Some? ==> from.value.dest == key.dest && from.value != key
    {
      wins, from := false, None;
      LinkedOne(slots, routes);
      var r := FindRoute(key);
      if r.value.installed { return; }
      var f := Feasible(r.value, now);
      if !f { return; }
      var x := xroutes.Find(key.dest);
      if x < |xroutes.list| && (allowDuplicates < 0 || xroutes.list[x].metric >= allowDuplicates) { return; }
      var installed := FindInstalledRoute(key.dest);
      if installed.Some? {
        from := Some(installed.value.Key());
        if r.value.Metric() >= INFINITY { return; }
        if installed.value.Metric() < INFINITY && installed.value.Metric() < r.value.Metric() + 64 { return; }
      }
      wins := true;
    }

    /** consider_route: exactly when the route wins does it become the installed one. */
    method ConsiderRoute(key: RouteKey, now: int) returns (ghost evs: seq<Event>)
      requires Working() && key in routes
      modifies `slots, `routes, kernel
      ensures Working() && Trace(old(Exact()), now, evs, Exact()) && Electing(evs, key.dest) && |evs| <= 1
      ensures Steers(old(routes), routes, xroutes.view.Keys, allowDuplicates)
      ensures routes == if Wins(old(Exact()), now, Redist(), allowDuplicates, key) then Elected(old(routes), key)
                        else old(routes)
    {
      evs := [];
      TraceNone(Exact(), now);
      var wins, from := Considered(key, now);
      if wins {
        LinkedOne(slots, routes);
        ElectedSteers(routes, key, xroutes.view.Keys, allowDuplicates);
        SteersSourced(routes, Elected(routes, key), sources.table, xroutes.view.Keys, allowDuplicates);
        evs := ElectedTrace(Exact(), now, from, key);
        SwitchRoutes(from, key);
      }
    }

    /** route_changed: a route that got worse may be replaced, one that is not installed is
        reconsidered. */
    method RouteChanged(key: RouteKey, oldmetric: u16, now: int) returns (ghost evs: seq<Event>)
      requires Working() && key in routes
      modifies `slots, `routes, kernel
      ensures Working() && Trace(old(Exact()), now, evs, Exact()) && Electing(evs, key.dest)
      ensures Steers(old(routes), routes, xroutes.view.Keys, allowDuplicates)
      ensures ChangedTo(old(Exact()), key, oldmetric, now, Redist(), allowDuplicates, routes)
    {
      evs := [];
      TraceNone(Exact(), now);
      var r := FindRoute(key);
      if r.value.installed {
        if r.value.Metric() > oldmetric {
          var better := BetterThan(key, now);
          if better.Metric() <= r.value.Metric() - 96 {
            evs := ConsiderRoute(better.Key(), now);
          }
        }
      } else {
        evs := ConsiderRoute(key, now);
      }
    }

    /** The best route to the prefix of an installed one, which at least is there itself. */
    method BetterThan(key: RouteKey, now: int) returns (better: Route)
      requires Working() && key in routes && routes[key].installed
      ensures BestTo(Exact(), key.dest, key, better.Key(), now) && routes[better.Key()] == better
    {
      LinkedOne(slots, routes);
      InstalledIsHead(slots, routes, key);
      var best := FindBestRoute(key.dest, true, None, now);
      better := best.value;
      BestIsBestTo(Exact(), slots, key.dest, better, now);
    }

    /** route_lost, if an installed route was lost: the best route left is considered. */
    method RouteLost(d: Dest, lost: bool, now: int) returns (ghost evs: seq<Event>)
      requires Working()
      modifies `slots, `routes, kernel
      ensures Working() && Trace(old(Exact()), now, evs, Exact()) && Electing(evs, d)
      ensures Steers(old(routes), routes, xroutes.view.Keys, allowDuplicates)
      ensures if lost then LostTo(old(Exact()), d, now, Redist(), allowDuplicates, routes) else routes == old(routes)
    {
      evs := [];
      TraceNone(Exact(), now);
      if lost {
        var best := FindBestRoute(d, true, None, now);
        assert Holds(Linear(slots, d), d, routes);
        if best.Some? {
          BestIsBestTo(Exact(), slots, d, best.value, now);
          evs := ConsiderRoute(best.value.Key(), now);
        }
      }
    }

    // ---- Updates ----------------------------------------------------------------------

    /** A write to fields that the kernel does not see. */
    method WriteRoute(key: RouteKey, r: Route)
      requires Consistent() && key in routes && r.Key() == key
      requires r.installed == routes[key].installed && r.Metric() == routes[key].Metric()
      modifies `slots, `routes
      ensures Consistent() && routes == old(routes)[key := r]
    {
      LinkedOne(slots, routes);
      if r.installed {
        FibSwap(kernelMetric, routes, r);
      } else {
        FibQuiet(kernelMetric, routes, key, r);
      }
      SetRoute(key, r);
    }

    /** The writes of update_route to a known route. */
    method RewriteRoute(key: RouteKey, src: SourceKey, seqno: u16, refmetric: u16, cost: u16, add: u16, hold: u16, time: int)
      requires Consistent() && key in routes && src.dest == key.dest
      modifies `slots, `routes, kernel
      ensures Consistent()
      ensures routes == old(routes)[key := old(routes)[key].(src := src, time := time, seqno := seqno,
                          refmetric := refmetric, cost := cost, addMetric := add, holdTime := hold)]
    {
      LinkedOne(slots, routes);
      var r := FindRoute(key);
      var a := r.value.(src := src, time := time, seqno := seqno);
      WriteRoute(key, a);
      ChangeRouteMetric(key, refmetric, cost, add);
      ghost var b := a.(refmetric := refmetric, cost := cost, addMetric := add);
      assert routes == old(routes)[key := a][key := b];
      r := FindRoute(key);
      LinkedOne(slots, routes);
      WriteRoute(key, r.value.(holdTime := hold));
      SetThrice(old(routes), key, a, b, b.(holdTime := hold));
    }

    /** An installed route whose neighbour switches to a source for which the update is not
        feasible is uninstalled. */
    method DropUnfeasible(key: RouteKey, src: SourceKey, feasible: bool) returns (lost: bool)
      requires Consistent() && key in routes
      modifies `slots, `routes, kernel
      ensures Consistent()
      ensures routes == old(routes)[key := old(routes)[key].(
                installed := old(routes)[key].installed && (feasible || src == old(routes)[key].src))]
      ensures lost <==> old(routes)[key].installed && !routes[key].installed
    {
      lost := false;
      var r := FindRoute(key);
      if !feasible && r.value.installed && src != r.value.src {
        UninstallRoute(key);
        lost := true;
      }
      assert !lost ==> routes == routes[key := routes[key]];
    }

    /** The head of update_route's branch for a known route: one Learn step, and the new source
        is retained. */
    method LearnRoute(key: RouteKey, src: SourceKey, seqno: u16, refmetric: u16, cost: u16, add: u16, hold: u16, now: int)
      returns (lost: bool)
      requires Working() && key in routes && src in sources.table && src.dest == key.dest && cost >= 1
      modifies `slots, `routes, kernel, sources
      ensures Working() && sources.table == S.Retained(old(sources.table), src)
      ensures routes == old(routes)[key := Learned(old(Exact()), now, Learn(key, src, seqno, refmetric, cost, add, hold))]
      ensures lost <==> old(routes)[key].installed && !routes[key].installed
    {
      var e := sources.Get(src);
      var feasible := UpdateFeasible(e.src, now, seqno, refmetric);
      ghost var r := Learned(Exact(), now, Learn(key, src, seqno, refmetric, cost, add, hold));
      LearnSourced(routes, sources.table, key, r);
      lost := DropUnfeasible(key, src, feasible);
      ghost var r1 := routes[key];
      sources.Retain(src);
      var was := FindRoute(key);
      var time := if (feasible || keepUnfeasible) && refmetric < INFINITY then now else was.value.time;
      RewriteRoute(key, src, seqno, refmetric, cost, add, hold, time);
      SetTwice(old(routes), key, r1, r);
    }

    /** The decisions after a change: route_changed, then route_lost if the route was dropped. */
    method Settle(key: RouteKey, oldmetric: u16, lost: bool, now: int) returns (ghost evs: seq<Event>)
      requires Working() && key in routes
      modifies `slots, `routes, kernel
      ensures Working() && Trace(old(Exact()), now, evs, Exact()) && Electing(evs, key.dest)
      ensures Steers(old(routes), routes, xroutes.view.Keys, allowDuplicates)
      ensures SettledTo(old(Exact()), key, oldmetric, lost, now, Redist(), allowDuplicates, routes)
    {
      ghost var e := Exact();
      evs := RouteChanged(key, oldmetric, now);
      ghost var e1, mid := Exact(), routes;
      ghost var more := RouteLost(key.dest, lost, now);
      TraceConcat(e, now, evs, e1, more, Exact());
      SteersTwice(old(routes), mid, routes, xroutes.view.Keys, allowDuplicates);
      ElectingConcat(evs, more, key.dest);
      evs := evs + more;
    }

    /** LearnRoute with the books: the old source is owed a release. */
    method LearnHeard(h: Heard, now: int) returns (was: Route, lost: bool)
      requires Valid() && h.Key() in routes && h.Src() in sources.table && h.cost >= 1
      modifies `slots, `routes, kernel, sources
      ensures Working() && Owing(was.src) && was == old(routes)[h.Key()]
      ensures Exact() == old(Exact()).(routes :=
                old(routes)[h.Key() := Learned(old(Exact()), now, Taken(old(Exact()), h, now)[0])])
      ensures lost <==> was.installed && !routes[h.Key()].installed
    {
      ghost var e := Exact();
      var r := FindRoute(h.Key());
      was := r.value;
      MoveBooks(routes, sources.table, xroutes.view.Keys, allowDuplicates, h.Key(), Learned(e, now, Taken(e, h, now)[0]));
      lost := LearnRoute(h.Key(), h.Src(), h.seqno, h.refmetric, h.cost, h.add, HoldTime(h.interval), now);
    }

    /** update_route for a route in the table, up to release_source. */
    method UpdateKeepingSource(h: Heard, now: int) returns (src: SourceKey, ghost evs: seq<Event>, ghost more: seq<Event>)
      requires Valid() && h.Key() in routes && h.Src() in sources.table && h.cost >= 1
      modifies `slots, `routes, kernel, sources
      ensures Owing(src) && Trace(old(Exact()), now, evs, Exact())
      ensures evs == Taken(old(Exact()), h, now) + more && Electing(more, h.dest)
      ensures UpdatedTo(old(Exact()), h, now, Redist(), allowDuplicates, routes)
    {
      ghost var e, ev := Exact(), Taken(Exact(), h, now)[0];
      TraceLearn(e, now, ev);
      var was, lost := LearnHeard(h, now);
      src := was.src;
      ghost var e1, mid := Exact(), routes;
      more := Settle(h.Key(), was.Metric(), lost, now);
      SteersBooks(mid, routes, sources.table, multiset{src}, xroutes.view.Keys, allowDuplicates);
      evs := [ev] + more;
      TraceConcat(e, now, [ev], e1, more, Exact());
      SettledIsUpdated(e, h, now, Redist(), allowDuplicates, mid[h.Key()], routes);
    }

    /** update_route for a route in the table. */
    method UpdateKnown(h: Heard, now: int) returns (ghost evs: seq<Event>, ghost more: seq<Event>)
      requires Valid() && h.Key() in routes && h.Src() in sources.table && h.cost >= 1
      modifies `slots, `routes, kernel, sources
      ensures Valid() && Trace(old(Exact()), now, evs, Exact())
      ensures evs == Taken(old(Exact()), h, now) + more && Electing(more, h.dest)
      ensures UpdatedTo(old(Exact()), h, now, Redist(), allowDuplicates, routes)
    {
      var src;
      src, evs, more := UpdateKeepingSource(h, now);
      ReleaseOld(src);
    }

    /** update_route for a route that is not in the table and is to be added. */
    method AddRoute(h: Heard, now: int) returns (ghost evs: seq<Event>, ghost more: seq<Event>)
      requires Valid() && h.Key() !in routes && h.Src() in sources.table && h.cost >= 1 && h.refmetric < INFINITY
      modifies `slots, `routes, kernel, sources
      ensures Valid() && Trace(old(Exact()), now, evs, Exact())
      ensures evs == [Event.Add(h.NewRoute(now))] + more && Electing(more, h.dest)
      ensures routes == Judged(old(Exact()).(routes := old(routes)[h.Key() := h.NewRoute(now)]), now, Redist(), allowDuplicates, h.Key())
    {
      ghost var e, xr := Exact(), xroutes.view.Keys;
      var r := h.NewRoute(now);
      TraceAdd(e, now, r);
      AddBooks(routes, sources.table, xr, allowDuplicates, r);
      FibQuiet(kernelMetric, routes, h.Key(), r);
      sources.Retain(h.Src());
      InsertRoute(r);
      ghost var e1, mid := Exact(), routes;
      more := ConsiderRoute(h.Key(), now);
      SteersBooks(mid, routes, sources.table, multiset{}, xr, allowDuplicates);
      evs := [Event.Add(r)] + more;
      TraceConcat(e, now, [Event.Add(r)], e1, more, Exact());
    }

    /** The search for a source in update_route, creating it if need be. */
    method NeedSource(h: Heard, now: int)
      requires Valid()
      modifies sources
      ensures Valid() && h.Src() in sources.table
      ensures Exact() == WithSource(old(Exact()), h, now)
      ensures Trace(old(Exact()), now, Created(old(Exact()), h), Exact())
    {
      ghost var e, t := Exact(), sources.table;
      var found := sources.Find(h.Src(), true, h.seqno, now);
      if h.Src() in t {
        TraceNone(e, now);
      } else {
        TraceCreate(e, now, h.Src(), h.seqno);
        CreateBooks(routes, t, xroutes.view.Keys, allowDuplicates,
                    S.Entry(h.Src(), Source(h.seqno, INFINITY, now), 0));
      }
    }

    /** update_route after the filters. */
    method TakeUpdate(h: Heard, now: int) returns (ghost evs: seq<Event>, ghost more: seq<Event>)
      requires Valid() && h.Src() in sources.table && h.cost >= 1
      modifies `slots, `routes, kernel, sources
      ensures Valid() && Trace(old(Exact()), now, evs, Exact())
      ensures evs == Taken(old(Exact()), h, now) + more && Electing(more, h.dest)
      ensures UpdatedTo(old(Exact()), h, now, Redist(), allowDuplicates, routes)
    {
      evs, more := [], [];
      TraceNone(Exact(), now);
      var route := FindRoute(h.Key());
      var e := sources.Get(h.Src());
      if route.Some? {
        evs, more := UpdateKnown(h, now);
      } else if h.refmetric < INFINITY && (keepUnfeasible || UpdateFeasible(e.src, now, h.seqno, h.refmetric)) {
        evs, more := AddRoute(h, now);
      }
    }

    method AcceptUpdate(h: Heard, now: int) returns (ghost evs: seq<Event>, ghost more: seq<Event>)
      requires Valid() && h.cost >= 1
      modifies `slots, `routes, kernel, sources
      ensures Valid() && Trace(old(Exact()), now, evs, Exact()) && Electing(more, h.dest)
      ensures evs == Created(old(Exact()), h) + Taken(WithSource(old(Exact()), h, now), h, now) + more
      ensures UpdatedTo(WithSource(old(Exact()), h, now), h, now, Redist(), allowDuplicates, routes)
    {
      ghost var e := Exact();
      NeedSource(h, now);
      ghost var e1 := Exact();
      ghost var rest;
      rest, more := TakeUpdate(h, now);
      TraceConcat(e, now, Created(e, h), e1, rest, Exact());
      evs := Created(e, h) + rest;
      Regroup(Created(e, h), Taken(e1, h, now), more);
    }

    /** update_route.  Whatever arrives, every table stays valid, and what happens is a run of
        the steps of `BabelEngine` that the network model knows. */
    method UpdateRoute(h: Heard, filtered: int, martian: bool, now: int) returns (ghost evs: seq<Event>, ghost more: seq<Event>)
      requires Valid() && h.cost >= 1 && (filtered < INFINITY ==> filtered == h.add)
      modifies `slots, `routes, kernel, sources
      ensures Valid() && Trace(old(Exact()), now, evs, Exact()) && Electing(more, h.dest)
      ensures if h.id == myid || martian || filtered >= INFINITY then evs == [] && more == []
              else evs == Created(old(Exact()), h) + Taken(WithSource(old(Exact()), h, now), h, now) + more
                   && UpdatedTo(WithSource(old(Exact()), h, now), h, now, Redist(), allowDuplicates, routes)
    {
      evs, more := [], [];
      TraceNone(Exact(), now);
      if h.id != myid && !martian && filtered < INFINITY {
        evs, more := AcceptUpdate(h, now);
      }
    }

    // ---- Other operations -------------------------------------------------------------

    /** update_route_metric; `cost` and `add` are what the neighbour and the filter say now. */
    method UpdateRouteMetric(key: RouteKey, cost: u16, add: u16, now: int) returns (ghost evs: seq<Event>, ghost more: seq<Event>)
      requires Valid() && key in routes && cost >= 1
      modifies `slots, `routes, kernel
      ensures Valid() && Trace(old(Exact()), now, evs, Exact()) && Electing(more, key.dest)
      ensures evs == (if !old(routes)[key].Expired(now) then [SetCost(key, cost, add)]
                      else if old(routes)[key].refmetric < INFINITY then [Expire(key)] else []) + more
      ensures MetricTo(old(Exact()), key, cost, add, now, Redist(), allowDuplicates, routes)
    {
      evs, more := [], [];
      TraceNone(Exact(), now);
      var r := FindRoute(key);
      if !r.value.Expired(now) {
        evs, more := RecostRoute(key, cost, add, now);
      } else if r.value.refmetric < INFINITY {
        evs, more := ExpireRoute(key, now);
      }
    }

    /** route_changed, if the metric changed; the books stay in order. */
    method Reconsider(key: RouteKey, oldmetric: u16, changed: bool, now: int) returns (ghost more: seq<Event>)
      requires Valid() && key in routes
      modifies `slots, `routes, kernel
      ensures Valid() && Trace(old(Exact()), now, more, Exact()) && Electing(more, key.dest)
      ensures if changed then ChangedTo(old(Exact()), key, oldmetric, now, Redist(), allowDuplicates, routes)
              else routes == old(routes)
    {
      more := [];
      ghost var mid := routes;
      TraceNone(Exact(), now);
      if changed {
        more := RouteChanged(key, oldmetric, now);
        SteersBooks(mid, routes, sources.table, multiset{}, xroutes.view.Keys, allowDuplicates);
      }
    }

    method RecostRoute(key: RouteKey, cost: u16, add: u16, now: int) returns (ghost evs: seq<Event>, ghost more: seq<Event>)
      requires Valid() && key in routes && cost >= 1
      modifies `slots, `routes, kernel
      ensures Valid() && Trace(old(Exact()), now, evs, Exact()) && Electing(more, key.dest)
      ensures evs == [SetCost(key, cost, add)] + more
      ensures AfterTo(old(Exact()), key, Recosted(old(routes)[key], cost, add), now, Redist(), allowDuplicates, routes)
    {
      ghost var e := Exact();
      var r := FindRoute(key);
      TraceCost(e, now, key, cost, add);
      SetBooks(routes, sources.table, multiset{}, xroutes.view.Keys, allowDuplicates, key, Recosted(r.value, cost, add));
      ChangeRouteMetric(key, r.value.refmetric, cost, add);
      ghost var e1 := Exact();
      var r1 := FindRoute(key);
      more := Reconsider(key, r.value.Metric(), r1.value.Metric() != r.value.Metric(), now);
      TraceConcat(e, now, [SetCost(key, cost, add)], e1, more, Exact());
      evs := [SetCost(key, cost, add)] + more;
    }

    method ExpireRoute(key: RouteKey, now: int) returns (ghost evs: seq<Event>, ghost more: seq<Event>)
      requires Valid() && key in routes
      modifies `slots, `routes, kernel
      ensures Valid() && Trace(old(Exact()), now, evs, Exact()) && Electing(more, key.dest)
      ensures evs == [Expire(key)] + more
      ensures AfterTo(old(Exact()), key, ExpiredRoute(old(Exact()), key), now, Redist(), allowDuplicates, routes)
    {
      ghost var e := Exact();
      var r := FindRoute(key);
      WriteExpired(key, now);
      ghost var e1 := Exact();
      more := Reconsider(key, r.value.Metric(), r.value.Metric() < INFINITY, now);
      TraceConcat(e, now, [Expire(key)], e1, more, Exact());
      evs := [Expire(key)] + more;
    }

    /** The writes to an expired route: a newer sequence number, and the retraction. */
    method WriteExpired(key: RouteKey, now: int)
      requires Valid() && key in routes
      modifies `slots, `routes, kernel
      ensures Valid() && routes == old(routes)[key := ExpiredRoute(old(Exact()), key)]
      ensures Trace(old(Exact()), now, [Expire(key)], Exact())
    {
      LinkedOne(slots, routes);
      var r := FindRoute(key);
      var src := sources.Get(r.value.src);
      var r1 := r.value.(seqno := SeqnoPlus(src.src.seqno, 1));
      ghost var r' := r1.(refmetric := INFINITY, cost := INFINITY, addMetric := 0);
      TraceExpire(Exact(), now, key);
      SetBooks(routes, sources.table, multiset{}, xroutes.view.Keys, allowDuplicates, key, r');
      SetTwice(routes, key, r1, r');
      WriteRoute(key, r1);
      RetractRoute(key);
    }

    /** flush_route up to route_lost */
    method DropRoute(key: RouteKey)
      requires Consistent() && key in routes
      modifies `slots, `routes, kernel
      ensures Consistent() && routes == old(routes) - {key}
    {
      UninstallRoute(key);
      ghost var off := routes[key];
      FibQuiet(kernelMetric, routes, key, off);
      RemoveRoute(key);
      assert old(routes)[key := off] - {key} == old(routes) - {key};
    }

    /** flush_route up to release_source */
    method DropAndElect(key: RouteKey, now: int) returns (ghost evs: seq<Event>, ghost more: seq<Event>)
      requires Working() && key in routes
      modifies `slots, `routes, kernel
      ensures Working() && Trace(old(Exact()), now, evs, Exact())
      ensures evs == Flushing(old(Exact()), key) + more && Electing(more, key.dest)
      ensures Steers(old(routes) - {key}, routes, xroutes.view.Keys, allowDuplicates)
      ensures FlushedTo(old(Exact()), key, now, Redist(), allowDuplicates, routes)
    {
      ghost var e := Exact();
      TraceFlush(e, now, key);
      var r := FindRoute(key);
      DropRoute(key);
      ghost var e1 := Exact();
      more := RouteLost(key.dest, r.value.installed, now);
      evs := Flushing(e, key) + more;
      TraceConcat(e, now, Flushing(e, key), e1, more, Exact());
    }

    /** The release_source at the end of update_route and flush_route: the count is positive. */
    method ReleaseOld(s: SourceKey)
      requires Owing(s)
      modifies sources
      ensures Valid() && Exact() == old(Exact())
    {
      ReleaseBooks(routes, sources.table, s, xroutes.view.Keys, allowDuplicates);
      sources.Release(s);
    }

    method FlushKeepingSource(key: RouteKey, now: int) returns (src: SourceKey, ghost evs: seq<Event>, ghost more: seq<Event>)
      requires Valid() && key in routes
      modifies `slots, `routes, kernel
      ensures Owing(src) && routes.Keys == old(routes).Keys - {key} && Trace(old(Exact()), now, evs, Exact())
      ensures evs == Flushing(old(Exact()), key) + more && Electing(more, key.dest)
      ensures FlushedTo(old(Exact()), key, now, Redist(), allowDuplicates, routes)
    {
      ghost var xr, mid := xroutes.view.Keys, routes - {key};
      var r := FindRoute(key);
      src := r.value.src;
      FlushBooks(routes, sources.table, xr, allowDuplicates, key);
      evs, more := DropAndElect(key, now);
      SteersBooks(mid, routes, sources.table, multiset{src}, xr, allowDuplicates);
    }

    /** flush_route */
    method FlushRoute(key: RouteKey, now: int) returns (ghost evs: seq<Event>, ghost more: seq<Event>)
      requires Valid() && key in routes
      modifies `slots, `routes, kernel, sources
      ensures Valid() && routes.Keys == old(routes).Keys - {key} && Trace(old(Exact()), now, evs, Exact())
      ensures evs == Flushing(old(Exact()), key) + more && Electing(more, key.dest)
      ensures FlushedTo(old(Exact()), key, now, Redist(), allowDuplicates, routes)
    {
      var src;
      src, evs, more := FlushKeepingSource(key, now);
      ReleaseOld(src);
    }

    /** flushupdates on an installed route: update_source with what is sent. */
    method AdvertiseRoute(key: RouteKey, interferes: bool, now: int) returns (ghost evs: seq<Event>)
      requires Valid() && key in routes && routes[key].installed
      modifies sources
      ensures Valid() && Trace(old(Exact()), now, evs, Exact()) && evs == [Advertise(key, interferes)]
    {
      ghost var e, t := Exact(), sources.table;
      var r := FindRoute(key);
      var m := if interferes then r.value.Metric() else r.value.MetricNoninterfering(diversityFactor);
      sources.Update(r.value.src, r.value.seqno, m, now);
      evs := [Advertise(key, interferes)];
      TraceOne(e, now, evs[0]);
      AdvertiseBooks(routes, t, xroutes.view.Keys, allowDuplicates, sources.table[r.value.src]);
      assert sources.table == t[r.value.src := sources.table[r.value.src]];
    }

    /** expire_sources: exactly the stale sources that no route uses go away. */
    method ExpireSources(now: int) returns (ghost evs: seq<Event>)
      requires Valid()
      modifies sources
      ensures Valid() && Exact() == Collected(old(Exact()), now)
      ensures Trace(old(Exact()), now, evs, Exact()) && Collecting(evs)
    {
      evs := TraceCollect(Exact(), now);
      KeptIsCollected(Exact(), sources.table, now);
      ExpireBooks(routes, sources.table, xroutes.view.Keys, allowDuplicates, now);
      sources.Expire(now);
    }

    /** xroute_add_new_route; `x.metric` is what redistribute_filter says. */
    method AddNewXroute(x: X.Xroute, martian: bool, now: int) returns (changed: bool, ghost evs: seq<Event>)
      requires Valid()
      modifies `slots, `routes, kernel, xroutes
      ensures Valid() && Trace(old(Exact()), now, evs, Exact()) && (forall ev <- evs :: ev.Uninstall? && ev.key.dest == x.dest)
      ensures changed <==> !martian && x.metric < INFINITY
                           && (x.dest in old(xroutes.view) ==> x.metric < old(xroutes.view)[x.dest].metric)
      ensures changed ==> xroutes.view == old(xroutes.view)[x.dest :=
                if x.dest in old(xroutes.view) then old(xroutes.view)[x.dest].(metric := x.metric) else x]
      ensures !(allowDuplicates < 0 || x.metric < allowDuplicates) ==> evs == []
      ensures !changed ==> xroutes.view == old(xroutes.view) && evs == []
      ensures changed && (allowDuplicates < 0 || x.metric < allowDuplicates) ==> NoneAt(routes, x.dest)
    {
      changed, evs := false, [];
      TraceNone(Exact(), now);
      if martian || x.metric >= INFINITY { return; }
      ghost var xr := xroutes.view.Keys;
      var rc := xroutes.Add(x);
      if rc > 0 {
        changed := true;
        evs := MakeRoom(x, xr, now);
        assert xroutes.view.Keys == xr + {x.dest};
      }
    }

    /** The installed route to a newly redistributed prefix is uninstalled. */
    method MakeRoom(x: X.Xroute, ghost xr: set<Dest>, now: int) returns (ghost evs: seq<Event>)
      requires Consistent() && Books(routes, sources.table, multiset{}, xr, allowDuplicates)
      modifies `slots, `routes, kernel
      ensures Consistent() && Books(routes, sources.table, multiset{}, xr + {x.dest}, allowDuplicates)
      ensures Trace(old(Exact()), now, evs, Exact()) && forall ev <- evs :: ev.Uninstall? && ev.key.dest == x.dest
      ensures if allowDuplicates < 0 || x.metric < allowDuplicates then NoneAt(routes, x.dest) else evs == []
    {
      evs := [];
      TraceNone(Exact(), now);
      var route := FindInstalledRoute(x.dest);
      if route.Some? && (allowDuplicates < 0 || x.metric < allowDuplicates) {
        evs := GiveWay(route.value.Key(), xr, now);
      }
      RedistributeBooks(routes, sources.table, xr, allowDuplicates, x.dest);
    }

    method GiveWay(key: RouteKey, ghost xr: set<Dest>, now: int) returns (ghost evs: seq<Event>)
      requires Consistent() && Books(routes, sources.table, multiset{}, xr, allowDuplicates)
      requires key in routes && routes[key].installed
      modifies `slots, `routes, kernel
      ensures Consistent() && Books(routes, sources.table, multiset{}, xr, allowDuplicates) && NoneAt(routes, key.dest)
      ensures Trace(old(Exact()), now, evs, Exact()) && evs == [Uninstall(key)]
    {
      LinkedOne(slots, routes);
      evs := [Uninstall(key)];
      UninstallBooks(Exact(), sources.table, xr, allowDuplicates, key, now);
      UninstallRoute(key);
    }

    /** babel_ipv6_route_delete: a redistributed route goes away. */
    method DeleteXroute(d: Dest)
      requires Valid()
      modifies xroutes
      ensures Valid() && xroutes.view == old(xroutes.view) - {d}
    {
      var i := xroutes.Find(d);
      if i < |xroutes.list| { xroutes.Flush(i); }
    }
  }
}
