/** What the route table must agree with: the kernel's table, the reference counts of the
    source table, the redistributed routes, and the steps of `BabelEngine`. */
module RouteSpec {
  import opened Options
  import opened Seqno
  import opened BabelTypes
  import opened BabelEngine
  import opened BabelNetwork
  import opened SlotTable
  import opened KernelFib
  import S = SourceTable

  // ---- Kernel -------------------------------------------------------------------------

  /** metric_to_kernel */
  function KernelMetric(km: int, metric: u16): int { if metric < INFINITY then km else KERNEL_INFINITY }

  function EntryOf(km: int, r: Route): FibEntry {
    FibEntry(r.src.dest, r.nexthop, r.neigh.ifindex, KernelMetric(km, r.Metric()))
  }

  /** The kernel table that goes with `routes`: one entry for every installed route. */
  ghost function Fib(km: int, routes: Routes): set<FibEntry> {
    set k | k in routes && routes[k].installed :: EntryOf(km, routes[k])
  }

  ghost predicate Keyed(routes: Routes) { forall k <- routes :: routes[k].Key() == k }

  /** At most one installed route per prefix. */
  ghost predicate One(routes: Routes) {
    forall k1 <- routes, k2 <- routes ::
      routes[k1].installed && routes[k2].installed && k1.dest == k2.dest ==> k1 == k2
  }

  lemma LinkedOne(slots: seq<Slot>, routes: Routes)
    requires Linked(slots, routes)
    ensures One(routes) && Keyed(routes)
  {
    forall k1 <- routes, k2 <- routes
      | routes[k1].installed && routes[k2].installed && k1.dest == k2.dest
      ensures k1 == k2
    {
      InstalledIsHead(slots, routes, k1);
      InstalledIsHead(slots, routes, k2);
      assert Holds(Linear(slots, k1.dest), k1.dest, routes);
    }
    forall k <- routes
      ensures routes[k].Key() == k
    {
      assert Holds(Linear(slots, k.dest), k.dest, routes);
    }
  }

  ghost predicate NoneAt(routes: Routes, d: Dest) {
    forall k <- routes :: k.dest == d ==> !routes[k].installed
  }

  /** What the kernel should have of an installed route: the way through its next hop, and on
      the neighbour's interface; metric 0xFFFF, unreachable, once the route is not finite. */
  ghost predicate Shows(e: FibEntry, km: int, k: RouteKey, r: Route) {
    && e.dest == k.dest && e.gate == k.nexthop && e.ifindex == k.neigh.ifindex
    && e.metric == if r.refmetric + r.cost + r.addMetric < 0xFFFF then km else 0xFFFF
  }

  /** The kernel table has exactly one entry for the prefix of every installed route, which shows
      that route, and no other entry. */
  ghost predicate Mirrors(fib: set<FibEntry>, km: int, routes: Routes) {
    && (forall k <- routes :: routes[k].installed ==> exists e :: e in fib && Shows(e, km, k, routes[k]))
    && (forall e <- fib, e' <- fib :: e.dest == e'.dest ==> e == e')
    && (forall e <- fib :: exists k :: k in routes && routes[k].installed && k.dest == e.dest)
  }

  lemma FibMirrors(km: int, routes: Routes)
    requires One(routes) && Keyed(routes)
    ensures Mirrors(Fib(km, routes), km, routes)
  {
    var fib := Fib(km, routes);
    forall k <- routes | routes[k].installed
      ensures exists e :: e in fib && Shows(e, km, k, routes[k])
    {
      assert routes[k].Key() == k;
      assert EntryOf(km, routes[k]) in fib && Shows(EntryOf(km, routes[k]), km, k, routes[k]);
    }
    forall e <- fib
      ensures exists k :: k in routes && routes[k].installed && k.dest == e.dest
    {
      var k :| k in routes && routes[k].installed && EntryOf(km, routes[k]) == e;
      assert routes[k].Key() == k;
    }
    forall e <- fib, e' <- fib | e.dest == e'.dest
      ensures e == e'
    {
      var k :| k in routes && routes[k].installed && EntryOf(km, routes[k]) == e;
      var k' :| k' in routes && routes[k'].installed && EntryOf(km, routes[k']) == e';
      assert routes[k].Key() == k && routes[k'].Key() == k';
    }
  }

  /** A route becomes installed: one entry more. */
  lemma FibAdd(km: int, routes: Routes, r: Route)
    requires r.installed && (r.Key() in routes ==> !routes[r.Key()].installed)
    ensures Fib(km, routes[r.Key() := r]) == Fib(km, routes) + {EntryOf(km, r)} && Shows(EntryOf(km, r), km, r.Key(), r)
  {
    var routes' := routes[r.Key() := r];
    assert routes'[r.Key()] == r;
    forall e | e in Fib(km, routes)
      ensures e in Fib(km, routes')
    {
      var k :| k in routes && routes[k].installed && EntryOf(km, routes[k]) == e;
      assert k in routes' && routes'[k] == routes[k];
    }
  }

  /** An installed route is uninstalled: one entry less. */
  lemma FibDrop(km: int, routes: Routes, r: Route)
    requires One(routes) && Keyed(routes) && r.Key() in routes && routes[r.Key()].installed && !r.installed
    ensures Fib(km, routes[r.Key() := r]) == Fib(km, routes) - {EntryOf(km, routes[r.Key()])}
    ensures EntryOf(km, routes[r.Key()]) in Fib(km, routes)
    ensures Shows(EntryOf(km, routes[r.Key()]), km, r.Key(), routes[r.Key()])
  {
    var routes', x := routes[r.Key() := r], EntryOf(km, routes[r.Key()]);
    forall e | e in Fib(km, routes) && e != x
      ensures e in Fib(km, routes')
    {
      var k :| k in routes && routes[k].installed && EntryOf(km, routes[k]) == e;
      assert k in routes' && routes'[k] == routes[k];
    }
    forall e | e in Fib(km, routes')
      ensures e in Fib(km, routes) && e != x
    {
      var k :| k in routes' && routes'[k].installed && EntryOf(km, routes'[k]) == e;
      assert k in routes && routes[k] == routes'[k] && routes[k].Key() == k;
      assert k.dest != r.Key().dest;
    }
  }

  lemma FibSwap(km: int, routes: Routes, r: Route)
    requires One(routes) && Keyed(routes) && r.Key() in routes && routes[r.Key()].installed && r.installed
    ensures Fib(km, routes[r.Key() := r]) == Fib(km, routes) - {EntryOf(km, routes[r.Key()])} + {EntryOf(km, r)}
    ensures EntryOf(km, routes[r.Key()]) in Fib(km, routes)
    ensures Shows(EntryOf(km, routes[r.Key()]), km, r.Key(), routes[r.Key()]) && Shows(EntryOf(km, r), km, r.Key(), r)
  {
    var off := r.(installed := false);
    FibDrop(km, routes, off);
    FibAdd(km, routes[r.Key() := off], r);
    assert routes[r.Key() := off][r.Key() := r] == routes[r.Key() := r];
  }

  /** Routes that are not installed do not show. */
  lemma FibQuiet(km: int, routes: Routes, k: RouteKey, r: Route)
    requires !r.installed && (k in routes ==> !routes[k].installed)
    ensures Fib(km, routes[k := r]) == Fib(km, routes) && Fib(km, routes - {k}) == Fib(km, routes)
  {
    var a, b := routes[k := r], routes - {k};
    forall e | e in Fib(km, routes)
      ensures e in Fib(km, a) && e in Fib(km, b)
    {
      var x :| x in routes && routes[x].installed && EntryOf(km, routes[x]) == e;
      assert x in a && a[x] == routes[x] && x in b && b[x] == routes[x];
    }
  }

  // ---- Reference counts ---------------------------------------------------------------

  ghost function Users(routes: Routes, s: SourceKey): set<RouteKey> {
    set k | k in routes && routes[k].src == s
  }

  /** Every source of a route is in the table, and counts as many users as it has, plus those
      of `extra` that an operation under way has not released yet. */
  ghost predicate Counted(routes: Routes, t: S.Table, extra: multiset<SourceKey>) {
    && (forall k <- routes :: routes[k].src in t)
    && (forall s <- extra :: s in t)
    && (forall s <- t :: t[s].count == |Users(routes, s)| + extra[s])
  }

  ghost predicate SameButInstalled(a: Routes, b: Routes) {
    a.Keys == b.Keys && forall k <- a :: a[k].(installed := false) == b[k].(installed := false)
  }

  lemma CountedSame(a: Routes, b: Routes, t: S.Table, extra: multiset<SourceKey>)
    requires Counted(a, t, extra) && SameSources(a, b)
    ensures Counted(b, t, extra)
  {
    forall s <- t
      ensures t[s].count == |Users(b, s)| + extra[s]
    {
      assert Users(b, s) == Users(a, s);
    }
  }

  ghost predicate SameSources(a: Routes, b: Routes) {
    a.Keys == b.Keys && forall k <- a :: a[k].src == b[k].src
  }

  /** How the number of users changes when a route is written. */
  lemma UsersSet(routes: Routes, k: RouteKey, r: Route, s: SourceKey)
    ensures |Users(routes[k := r], s)| == |Users(routes, s)|
              - (if k in routes && routes[k].src == s then 1 else 0) + (if r.src == s then 1 else 0)
  {
    var a, b := Users(routes, s), Users(routes[k := r], s);
    if r.src == s {
      assert b == a + {k};
    } else {
      assert b == a - {k};
    }
  }

  /** A new route retains its source. */
  lemma CountedAdd(routes: Routes, t: S.Table, extra: multiset<SourceKey>, r: Route)
    requires Counted(routes, t, extra) && r.Key() !in routes && r.src in t
    ensures Counted(routes[r.Key() := r], S.Retained(t, r.src), extra)
  {
    var routes', t' := routes[r.Key() := r], S.Retained(t, r.src);
    forall s <- t'
      ensures t'[s].count == |Users(routes', s)| + extra[s]
    {
      UsersSet(routes, r.Key(), r, s);
    }
  }

  /** A route that changes its source retains the new one and still holds the old one. */
  lemma CountedMove(routes: Routes, t: S.Table, extra: multiset<SourceKey>, k: RouteKey, r: Route)
    requires Counted(routes, t, extra) && k in routes && r.src in t
    ensures Counted(routes[k := r], S.Retained(t, r.src), extra + multiset{routes[k].src})
  {
    var was, routes', t' := routes[k].src, routes[k := r], S.Retained(t, r.src);
    forall s <- t'
      ensures t'[s].count == |Users(routes', s)| + (extra + multiset{was})[s]
    {
      UsersSet(routes, k, r, s);
    }
  }

  /** A route leaves the table before its source is released. */
  lemma CountedRemove(routes: Routes, t: S.Table, extra: multiset<SourceKey>, k: RouteKey)
    requires Counted(routes, t, extra) && k in routes
    ensures Counted(routes - {k}, t, extra + multiset{routes[k].src})
  {
    var was, routes' := routes[k].src, routes - {k};
    forall s <- t
      ensures t[s].count == |Users(routes', s)| + (extra + multiset{was})[s]
    {
      assert Users(routes', s) == if s == was then Users(routes, s) - {k} else Users(routes, s);
    }
  }

  /** So a release never underflows, and settles the account. */
  lemma CountedRelease(routes: Routes, t: S.Table, extra: multiset<SourceKey>, s: SourceKey)
    requires Counted(routes, t, extra) && s in extra
    ensures s in t && t[s].count > 0 && Counted(routes, S.Released(t, s), extra - multiset{s})
  {
    var t' := S.Released(t, s);
    forall x <- t'
      ensures t'[x].count == |Users(routes, x)| + (extra - multiset{s})[x]
    {
      assert x in t;
    }
    forall x <- extra - multiset{s} ensures x in t' { assert x in extra; }
  }

  /** Creating a source nobody uses yet, or advertising through one, keeps the counts. */
  lemma CountedCreate(routes: Routes, t: S.Table, extra: multiset<SourceKey>, e: S.Entry)
    requires Counted(routes, t, extra) && (if e.key in t then e.count == t[e.key].count else e.count == 0)
    ensures Counted(routes, t[e.key := e], extra)
  {
    if e.key !in t { assert Users(routes, e.key) == {}; }
  }

  /** Expiry never frees a source still in use. */
  lemma CountedExpire(routes: Routes, t: S.Table, now: int)
    requires Counted(routes, t, multiset{})
    ensures Counted(routes, S.TableKept(t, now), multiset{})
  {
    var t' := S.TableKept(t, now);
    forall k <- routes
      ensures routes[k].src in t'
    {
      var s := routes[k].src;
      assert k in Users(routes, s) && s in t;
      assert t[s].count == |Users(routes, s)|;
    }
  }

  // ---- Engine -------------------------------------------------------------------------

  ghost function SrcsOf(t: S.Table): map<SourceKey, Source> { map s | s in t :: t[s].src }

  /** Taking the steps `evs` in order, each of them enabled, leads from `e` to `e'`. */
  ghost predicate Trace(e: Engine, now: int, evs: seq<Event>, e': Engine) {
    exists es: seq<Engine> :: Through(es, e, now, evs, e')
  }

  ghost predicate Through(es: seq<Engine>, e: Engine, now: int, evs: seq<Event>, e': Engine) {
    && |es| == |evs| + 1 && es[0] == e && es[|evs|] == e'
    && forall i | 0 <= i < |evs| :: Enabled(es[i], now, evs[i]) && es[i + 1] == Apply(es[i], now, evs[i])
  }

  lemma TraceNone(e: Engine, now: int)
    ensures Trace(e, now, [], e)
  {
    assert Through([e], e, now, [], e);
  }

  lemma TraceOne(e: Engine, now: int, ev: Event)
    requires Enabled(e, now, ev)
    ensures Trace(e, now, [ev], Apply(e, now, ev))
  {
    assert Through([e, Apply(e, now, ev)], e, now, [ev], Apply(e, now, ev));
  }

  lemma TraceConcat(e: Engine, now: int, evs: seq<Event>, e1: Engine, more: seq<Event>, e2: Engine)
    requires Trace(e, now, evs, e1) && Trace(e1, now, more, e2)
    ensures Trace(e, now, evs + more, e2)
  {
    var a :| Through(a, e, now, evs, e1);
    var b :| Through(b, e1, now, more, e2);
    var es, all, n := a + b[1..], evs + more, |evs|;
    forall i | 0 <= i < |all|
      ensures Enabled(es[i], now, all[i]) && es[i + 1] == Apply(es[i], now, all[i])
    {
      if i < n {
        assert all[i] == evs[i] && es[i] == a[i] && es[i + 1] == a[i + 1];
      } else {
        assert all[i] == more[i - n] && es[i] == b[i - n] && es[i + 1] == b[i + 1 - n];
      }
    }
    assert Through(es, e, now, all, e2);
  }

  // ---- Decisions ----------------------------------------------------------------------

  /** Redistributed routes by prefix, with their metrics. */
  type Redistributed = map<Dest, u16>

  /** No prefix has both a redistributed and an installed route, unless duplicates are
      allowed. */
  ghost predicate Exclusive(routes: Routes, xr: set<Dest>, allowDuplicates: int) {
    allowDuplicates < 0 ==> forall k <- routes :: routes[k].installed ==> k.dest !in xr
  }

  /** consider_route installs `key`: it is not installed and feasible, no redistributed route
      stands in the way, and it beats the installed route, if any, by 64 or more. */
  ghost predicate Wins(e: Engine, now: int, xr: Redistributed, allowDuplicates: int, key: RouteKey)
    requires key in e.routes && e.routes[key].src in e.srcs
  {
    var r, d := e.routes[key], key.dest;
    && !r.installed && RouteFeasible(e, now, r)
    && !(d in xr && (allowDuplicates < 0 || xr[d] >= allowDuplicates))
    && forall k <- e.routes :: k.dest == d && e.routes[k].installed ==>
         r.Metric() < INFINITY && (e.routes[k].Metric() >= INFINITY || e.routes[k].Metric() >= r.Metric() + 64)
  }

  /** The routes after `key` has become the installed route to its prefix. */
  ghost function Elected(routes: Routes, key: RouteKey): Routes {
    map k | k in routes :: if k.dest == key.dest then routes[k].(installed := k == key) else routes[k]
  }

  lemma ElectedInstall(routes: Routes, key: RouteKey)
    requires key in routes && NoneAt(routes, key.dest)
    ensures Elected(routes, key) == routes[key := routes[key].(installed := true)]
  {
    var a, b := Elected(routes, key), routes[key := routes[key].(installed := true)];
    forall k <- routes ensures a[k] == b[k] { }
  }

  lemma ElectedSwitch(routes: Routes, from: RouteKey, key: RouteKey)
    requires One(routes) && key in routes && from in routes && from != key && from.dest == key.dest
    requires routes[from].installed
    ensures Elected(routes, key)
         == routes[from := routes[from].(installed := false)][key := routes[key].(installed := true)]
  {
    var a := Elected(routes, key);
    var b := routes[from := routes[from].(installed := false)][key := routes[key].(installed := true)];
    forall k <- routes ensures a[k] == b[k] { }
  }

  /** Every step installs a route to `d`, or switches to one. */
  ghost predicate Electing(evs: seq<Event>, d: Dest) {
    forall ev <- evs :: (ev.Install? && ev.key.dest == d) || (ev.Switch? && ev.to.dest == d)
  }

  /** What the routes must satisfy beside their place in the slots and in the kernel. */
  ghost predicate Books(routes: Routes, t: S.Table, extra: multiset<SourceKey>, xr: set<Dest>, allowDuplicates: int) {
    && Counted(routes, t, extra) && Exclusive(routes, xr, allowDuplicates)
    && forall k <- routes :: routes[k].cost >= 1
  }

  /** From `a` to `b` nothing changes but which routes are installed, and none becomes so
      beside a redistributed route, unless duplicates are allowed. */
  ghost predicate Steers(a: Routes, b: Routes, xr: set<Dest>, allowDuplicates: int) {
    && SameButInstalled(a, b)
    && (allowDuplicates < 0 ==> forall k <- b :: b[k].installed && !a[k].installed ==> k.dest !in xr)
  }

  lemma ElectedSteers(routes: Routes, key: RouteKey, xr: set<Dest>, allowDuplicates: int)
    requires key in routes && (allowDuplicates < 0 ==> key.dest !in xr)
    ensures Steers(routes, Elected(routes, key), xr, allowDuplicates)
  {
  }

  lemma SteersTwice(a: Routes, b: Routes, c: Routes, xr: set<Dest>, allowDuplicates: int)
    requires Steers(a, b, xr, allowDuplicates) && Steers(b, c, xr, allowDuplicates)
    ensures Steers(a, c, xr, allowDuplicates)
  {
  }

  lemma SteersBooks(a: Routes, b: Routes, t: S.Table, extra: multiset<SourceKey>, xr: set<Dest>, allowDuplicates: int)
    requires Books(a, t, extra, xr, allowDuplicates) && Steers(a, b, xr, allowDuplicates)
    ensures Books(b, t, extra, xr, allowDuplicates)
  {
    assert forall k <- a :: a[k].(installed := false) == b[k].(installed := false);
    assert SameSources(a, b);
    CountedSame(a, b, t, extra);
  }

  ghost predicate Sourced(routes: Routes, t: S.Table) { forall k <- routes :: routes[k].src in t }

  lemma SteersSourced(a: Routes, b: Routes, t: S.Table, xr: set<Dest>, allowDuplicates: int)
    requires Sourced(a, t) && Steers(a, b, xr, allowDuplicates)
    ensures Sourced(b, t)
  {
    assert forall k <- a :: a[k].(installed := false) == b[k].(installed := false);
  }

  /** The step by which a feasible route replaces the installed route `from`, or none. */
  lemma ElectedTrace(e: Engine, now: int, from: Option<RouteKey>, key: RouteKey) returns (evs: seq<Event>)
    requires key in e.routes && e.routes[key].src in e.srcs && RouteFeasible(e, now, e.routes[key]) && One(e.routes)
    requires from.None? ==> NoneAt(e.routes, key.dest)
    requires from.Some? ==> from.value in e.routes && e.routes[from.value].installed
    requires from.Some? ==> from.value.dest == key.dest && from.value != key
    ensures Trace(e, now, evs, e.(routes := Elected(e.routes, key))) && Electing(evs, key.dest) && |evs| == 1
  {
    if from.Some? {
      evs := [Switch(from.value, key)];
      TraceOne(e, now, evs[0]);
      ElectedSwitch(e.routes, from.value, key);
    } else {
      evs := [Install(key)];
      TraceOne(e, now, evs[0]);
      ElectedInstall(e.routes, key);
    }
  }

  /** A route find_best_route may choose: not expired, feasible if that is asked for, and not
      through the excluded neighbour. */
  ghost predicate Candidate(e: Engine, r: Route, feasible: bool, exclude: Option<Neighbour>, now: int) {
    && !r.Expired(now) && (feasible ==> r.src in e.srcs && RouteFeasible(e, now, r))
    && (exclude.Some? ==> r.neigh != exclude.value)
  }

  /** `r` has the least metric among the head of the slot, whatever its state, and the
      candidates among the first `n` routes. */
  ghost predicate Best(e: Engine, s: Slot, n: nat, r: Route, feasible: bool, exclude: Option<Neighbour>, now: int) {
    && s != [] && r in s && (r == s[0] || (Candidate(e, r, feasible, exclude, now) && r.Metric() < s[0].Metric()))
    && forall j | 1 <= j < n && j < |s| :: Candidate(e, s[j], feasible, exclude, now) ==> r.Metric() <= s[j].Metric()
  }

  /** find_best_route returns the best of the candidates, as its comment says, if and only if the
      head of the slot is one, or a candidate behind it is better than the head. */
  lemma BestIsBestCandidate(e: Engine, s: Slot, r: Route, feasible: bool, exclude: Option<Neighbour>, now: int)
    requires Best(e, s, |s|, r, feasible, exclude, now)
    ensures && Candidate(e, r, feasible, exclude, now)
            && (forall j | 0 <= j < |s| :: Candidate(e, s[j], feasible, exclude, now) ==> r.Metric() <= s[j].Metric())
            <==>
            || Candidate(e, s[0], feasible, exclude, now)
            || exists j :: 1 <= j < |s| && Candidate(e, s[j], feasible, exclude, now) && s[j].Metric() < s[0].Metric()
  {
    if r != s[0] {
      var j :| 0 <= j < |s| && s[j] == r;
    }
  }

  /** The same without the slot: `b` has the least metric among the route `head` and the
      unexpired feasible routes to the prefix. */
  ghost predicate BestTo(e: Engine, d: Dest, head: RouteKey, b: RouteKey, now: int) {
    && head in e.routes && head.dest == d && b in e.routes && b.dest == d && e.routes[b].src in e.srcs
    && (b == head || Candidate(e, e.routes[b], true, None, now))
    && e.routes[b].Metric() <= e.routes[head].Metric()
    && forall k <- e.routes :: k.dest == d && Candidate(e, e.routes[k], true, None, now) ==>
         e.routes[b].Metric() <= e.routes[k].Metric()
  }

  lemma BestIsBestTo(e: Engine, slots: seq<Slot>, d: Dest, b: Route, now: int)
    requires Linked(slots, e.routes) && (forall k <- e.routes :: e.routes[k].src in e.srcs)
    requires Best(e, Linear(slots, d), |Linear(slots, d)|, b, true, None, now)
    ensures BestTo(e, d, Linear(slots, d)[0].Key(), b.Key(), now)
  {
    var s := Linear(slots, d);
    assert Holds(s, d, e.routes);
    assert Placed(s[0], 0, d, e.routes);
    var x :| 0 <= x < |s| && s[x] == b;
    assert Placed(s[x], x, d, e.routes);
    forall k <- e.routes | k.dest == d && Candidate(e, e.routes[k], true, None, now)
      ensures b.Metric() <= e.routes[k].Metric()
    {
      var j :| 0 <= j < |s| && s[j] == e.routes[k];
    }
  }

  /** The routes after `key` has been considered. */
  ghost function Judged(e: Engine, now: int, xr: Redistributed, allowDuplicates: int, key: RouteKey): Routes
    requires key in e.routes && e.routes[key].src in e.srcs
  {
    if Wins(e, now, xr, allowDuplicates, key) then Elected(e.routes, key) else e.routes
  }

  /** What route_changed may leave: a route that is not installed is considered; for an
      installed one that got worse, a best route is, if it is better by 96. */
  ghost predicate ChangedTo(e: Engine, key: RouteKey, oldmetric: u16, now: int, xr: Redistributed, allowDuplicates: int, routes': Routes)
    requires key in e.routes && e.routes[key].src in e.srcs
  {
    var r := e.routes[key];
    if !r.installed then routes' == Judged(e, now, xr, allowDuplicates, key)
    else if r.Metric() <= oldmetric then routes' == e.routes
    else exists b :: BestTo(e, key.dest, key, b, now) &&
           routes' == if e.routes[b].Metric() <= r.Metric() - 96 then Judged(e, now, xr, allowDuplicates, b) else e.routes
  }

  /** What route_lost may leave: a best route is considered, if there is any route. */
  ghost predicate LostTo(e: Engine, d: Dest, now: int, xr: Redistributed, allowDuplicates: int, routes': Routes) {
    if forall k <- e.routes :: k.dest != d then routes' == e.routes
    else exists head, b :: BestTo(e, d, head, b, now) && routes' == Judged(e, now, xr, allowDuplicates, b)
  }

  /** Both in turn, after an update in which an installed route may have been dropped. */
  ghost predicate SettledTo(e: Engine, key: RouteKey, oldmetric: u16, lost: bool, now: int, xr: Redistributed,
                            allowDuplicates: int, routes': Routes)
    requires key in e.routes && e.routes[key].src in e.srcs
  {
    if !lost then ChangedTo(e, key, oldmetric, now, xr, allowDuplicates, routes')
    else exists mid :: ChangedTo(e, key, oldmetric, now, xr, allowDuplicates, mid)
                       && LostTo(e.(routes := mid), key.dest, now, xr, allowDuplicates, routes')
  }

  lemma SetTwice(routes: Routes, k: RouteKey, a: Route, b: Route)
    ensures routes[k := a][k := b] == routes[k := b]
  {
  }

  lemma SetThrice(routes: Routes, k: RouteKey, a: Route, b: Route, c: Route)
    ensures routes[k := a][k := b][k := c] == routes[k := c]
  {
  }

  lemma LearnSourced(routes: Routes, t: S.Table, key: RouteKey, r: Route)
    requires Sourced(routes, t) && r.src in t
    ensures Sourced(routes[key := r], S.Retained(t, r.src))
  {
  }

  // ---- Updates ------------------------------------------------------------------------

  /** The hold time of a route announced every `interval` hundredths of a second. */
  function HoldTime(interval: u16): u16 {
    var h := 4 * interval / 100 + interval / 50;
    if h < 15 then 15 else h
  }

  /** A known route is rewritten, retaining its new source before the old one is released. */
  lemma MoveBooks(routes: Routes, t: S.Table, xr: set<Dest>, allowDuplicates: int, key: RouteKey, r: Route)
    requires Books(routes, t, multiset{}, xr, allowDuplicates) && key in routes && r.src in t && r.cost >= 1
    requires r.installed ==> routes[key].installed
    ensures Books(routes[key := r], S.Retained(t, r.src), multiset{routes[key].src}, xr, allowDuplicates)
    ensures SrcsOf(S.Retained(t, r.src)) == SrcsOf(t)
  {
    CountedMove(routes, t, multiset{}, key, r);
    assert multiset{} + multiset{routes[key].src} == multiset{routes[key].src};
  }

  lemma ReleaseBooks(routes: Routes, t: S.Table, s: SourceKey, xr: set<Dest>, allowDuplicates: int)
    requires Books(routes, t, multiset{s}, xr, allowDuplicates)
    ensures s in t && t[s].count > 0 && Books(routes, S.Released(t, s), multiset{}, xr, allowDuplicates)
    ensures SrcsOf(S.Released(t, s)) == SrcsOf(t)
  {
    CountedRelease(routes, t, multiset{s}, s);
    assert multiset{s} - multiset{s} == multiset{};
  }

  lemma AddBooks(routes: Routes, t: S.Table, xr: set<Dest>, allowDuplicates: int, r: Route)
    requires Books(routes, t, multiset{}, xr, allowDuplicates) && r.Key() !in routes && r.src in t && r.cost >= 1
    requires !r.installed
    ensures Books(routes[r.Key() := r], S.Retained(t, r.src), multiset{}, xr, allowDuplicates)
    ensures SrcsOf(S.Retained(t, r.src)) == SrcsOf(t)
  {
    CountedAdd(routes, t, multiset{}, r);
  }

  lemma CreateBooks(routes: Routes, t: S.Table, xr: set<Dest>, allowDuplicates: int, e: S.Entry)
    requires Books(routes, t, multiset{}, xr, allowDuplicates) && e.key !in t && e.count == 0
    ensures Books(routes, t[e.key := e], multiset{}, xr, allowDuplicates)
    ensures SrcsOf(t[e.key := e]) == SrcsOf(t)[e.key := e.src]
  {
    CountedCreate(routes, t, multiset{}, e);
  }

  /** A route is rewritten without a change of source. */
  lemma SetBooks(routes: Routes, t: S.Table, extra: multiset<SourceKey>, xr: set<Dest>, allowDuplicates: int, key: RouteKey, r: Route)
    requires Books(routes, t, extra, xr, allowDuplicates) && key in routes && r.src == routes[key].src && r.cost >= 1
    requires r.installed ==> routes[key].installed
    ensures Books(routes[key := r], t, extra, xr, allowDuplicates)
  {
    CountedSame(routes, routes[key := r], t, extra);
  }

  lemma RemoveBooks(routes: Routes, t: S.Table, xr: set<Dest>, allowDuplicates: int, key: RouteKey)
    requires Books(routes, t, multiset{}, xr, allowDuplicates) && key in routes
    ensures Books(routes - {key}, t, multiset{routes[key].src}, xr, allowDuplicates)
  {
    CountedRemove(routes, t, multiset{}, key);
    assert multiset{} + multiset{routes[key].src} == multiset{routes[key].src};
  }

  // ---- Operations as steps ------------------------------------------------------------

  lemma TraceLearn(e: Engine, now: int, ev: Event)
    requires ev.Learn? && ev.key in e.routes && ev.src in e.srcs && ev.src.dest == ev.key.dest && ev.cost >= 1
    ensures Trace(e, now, [ev], e.(routes := e.routes[ev.key := Learned(e, now, ev)]))
  {
    TraceOne(e, now, ev);
  }

  lemma TraceAdd(e: Engine, now: int, r: Route)
    requires r.Key() !in e.routes && r.src in e.srcs && !r.installed && r.refmetric < INFINITY && r.cost >= 1
    ensures Trace(e, now, [Event.Add(r)], e.(routes := e.routes[r.Key() := r]))
  {
    TraceOne(e, now, Event.Add(r));
  }

  lemma TraceCreate(e: Engine, now: int, k: SourceKey, seqno: u16)
    requires k !in e.srcs
    ensures Trace(e, now, [CreateSource(k, seqno)], e.(srcs := e.srcs[k := Source(seqno, INFINITY, now)]))
  {
    TraceOne(e, now, CreateSource(k, seqno));
  }

  lemma ElectingConcat(a: seq<Event>, b: seq<Event>, d: Dest)
    requires Electing(a, d) && Electing(b, d)
    ensures Electing(a + b, d)
  {
  }

  /** An update as update_route sees it, with the link cost and what the input filter adds. */
  datatype Heard = Heard(
    id: RouterId, dest: Dest, seqno: u16, refmetric: u16, interval: u16,
    neigh: Neighbour, nexthop: Addr, cost: u16, add: u16)
  {
    function Src(): SourceKey { SourceKey(id, dest) }
    function Key(): RouteKey { RouteKey(dest, neigh, nexthop) }
    function NewRoute(now: int): Route {
      Route(Src(), neigh, nexthop, seqno, refmetric, cost, add, now, HoldTime(interval), false)
    }
  }

  /** The source an update brings along, if it is new. */
  function Created(e: Engine, h: Heard): seq<Event> {
    if h.Src() in e.srcs then [] else [CreateSource(h.Src(), h.seqno)]
  }

  ghost function WithSource(e: Engine, h: Heard, now: int): Engine {
    if h.Src() in e.srcs then e else e.(srcs := e.srcs[h.Src() := Source(h.seqno, INFINITY, now)])
  }

  /** What an update does to the route it names: a known one is rewritten, whatever the
      update; a new one is added unless it is a retraction or unfeasible (and unfeasible
      routes are not kept). */
  ghost function Taken(e: Engine, h: Heard, now: int): seq<Event>
    requires h.Src() in e.srcs
  {
    if h.Key() in e.routes then
      [Learn(h.Key(), h.Src(), h.seqno, h.refmetric, h.cost, h.add, HoldTime(h.interval))]
    else if h.refmetric >= INFINITY then []
    else if !UpdateFeasible(e.srcs[h.Src()], now, h.seqno, h.refmetric) && !e.keepUnfeasible then []
    else [Event.Add(h.NewRoute(now))]
  }

  /** The routes an update may leave: those after its step, and after the decisions that
      follow. */
  ghost predicate UpdatedTo(e: Engine, h: Heard, now: int, xr: Redistributed, allowDuplicates: int, routes': Routes)
    requires h.Src() in e.srcs
  {
    var key := h.Key();
    if Taken(e, h, now) == [] then routes' == e.routes
    else if key in e.routes then
      var was, r := e.routes[key], Learned(e, now, Taken(e, h, now)[0]);
      SettledTo(e.(routes := e.routes[key := r]), key, was.Metric(), was.installed && !r.installed,
                now, xr, allowDuplicates, routes')
    else
      routes' == Judged(e.(routes := e.routes[key := h.NewRoute(now)]), now, xr, allowDuplicates, key)
  }

  /** A known route is settled after its Learn step. */
  lemma SettledIsUpdated(e: Engine, h: Heard, now: int, xr: Redistributed, allowDuplicates: int, r: Route, routes': Routes)
    requires h.Src() in e.srcs && h.Key() in e.routes && r == Learned(e, now, Taken(e, h, now)[0])
    requires var was := e.routes[h.Key()];
             SettledTo(e.(routes := e.routes[h.Key() := r]), h.Key(), was.Metric(), was.installed && !r.installed,
                       now, xr, allowDuplicates, routes')
    ensures UpdatedTo(e, h, now, xr, allowDuplicates, routes')
  {
  }

  lemma Regroup(a: seq<Event>, b: seq<Event>, c: seq<Event>)
    ensures a + (b + c) == (a + b) + c
  {
  }

  /** Every step of an update carries the message, or is local to the router; these are the
      steps of the network model. */
  lemma UpdateSteps(e: Engine, h: Heard, now: int, me: RouterId, more: seq<Event>, ev: Event)
    requires h.id != me && Electing(more, h.dest)
    requires ev in Created(e, h) + Taken(WithSource(e, h, now), h, now) + more
    ensures Carries(me, Message(h.neigh.address, h.Src(), h.seqno, h.refmetric), ev) || IsLocal(ev)
  {
  }

  lemma TraceExpire(e: Engine, now: int, key: RouteKey)
    requires key in e.routes && e.routes[key].src in e.srcs
    ensures Trace(e, now, [Expire(key)],
              e.(routes := e.routes[key := e.routes[key].(seqno := SeqnoPlus(e.srcs[e.routes[key].src].seqno, 1),
                                                         refmetric := INFINITY, cost := INFINITY, addMetric := 0)]))
  {
    TraceOne(e, now, Expire(key));
  }

  lemma TraceCost(e: Engine, now: int, key: RouteKey, cost: u16, add: u16)
    requires key in e.routes && cost >= 1
    ensures Trace(e, now, [SetCost(key, cost, add)], e.(routes := e.routes[key := e.routes[key].(cost := cost, addMetric := add)]))
  {
    TraceOne(e, now, SetCost(key, cost, add));
  }

  /** Uninstalling a route, if it is installed, and then removing it. */
  function Flushing(e: Engine, key: RouteKey): seq<Event>
    requires key in e.routes
  {
    if e.routes[key].installed then [Uninstall(key), Flush(key)] else [Flush(key)]
  }

  lemma TraceFlush(e: Engine, now: int, key: RouteKey)
    requires key in e.routes
    ensures Trace(e, now, Flushing(e, key), e.(routes := e.routes - {key}))
  {
    if e.routes[key].installed {
      TraceOne(e, now, Uninstall(key));
      var e1 := Apply(e, now, Uninstall(key));
      TraceOne(e1, now, Flush(key));
      assert e1.routes - {key} == e.routes - {key};
      TraceConcat(e, now, [Uninstall(key)], e1, [Flush(key)], e.(routes := e.routes - {key}));
      assert [Uninstall(key)] + [Flush(key)] == Flushing(e, key);
    } else {
      TraceOne(e, now, Flush(key));
    }
  }

  /** How the uninstalled route leaves the books. */
  lemma FlushBooks(routes: Routes, t: S.Table, xr: set<Dest>, allowDuplicates: int, key: RouteKey)
    requires Books(routes, t, multiset{}, xr, allowDuplicates) && key in routes
    ensures Books(routes - {key}, t, multiset{routes[key].src}, xr, allowDuplicates) && Sourced(routes - {key}, t)
    ensures routes[key := routes[key].(installed := false)] - {key} == routes - {key}
  {
    RemoveBooks(routes, t, xr, allowDuplicates, key);
  }

  lemma AdvertiseBooks(routes: Routes, t: S.Table, xr: set<Dest>, allowDuplicates: int, e: S.Entry)
    requires Books(routes, t, multiset{}, xr, allowDuplicates) && e.key in t && e.count == t[e.key].count
    ensures Books(routes, t[e.key := e], multiset{}, xr, allowDuplicates)
    ensures SrcsOf(t[e.key := e]) == SrcsOf(t)[e.key := e.src]
  {
    CountedCreate(routes, t, multiset{}, e);
  }

  lemma ExpireBooks(routes: Routes, t: S.Table, xr: set<Dest>, allowDuplicates: int, now: int)
    requires Books(routes, t, multiset{}, xr, allowDuplicates)
    ensures Books(routes, S.TableKept(t, now), multiset{}, xr, allowDuplicates)
  {
    CountedExpire(routes, t, now);
  }

  /** Uninstalling the one route to its prefix that is installed. */
  lemma UninstallBooks(e: Engine, t: S.Table, xr: set<Dest>, allowDuplicates: int, key: RouteKey, now: int)
    requires Books(e.routes, t, multiset{}, xr, allowDuplicates) && One(e.routes)
    requires key in e.routes && e.routes[key].installed
    ensures var routes' := e.routes[key := e.routes[key].(installed := false)];
            && Books(routes', t, multiset{}, xr, allowDuplicates) && NoneAt(routes', key.dest)
            && Trace(e, now, [Uninstall(key)], e.(routes := routes'))
  {
    TraceOne(e, now, Uninstall(key));
    SetBooks(e.routes, t, multiset{}, xr, allowDuplicates, key, e.routes[key].(installed := false));
  }

  /** A prefix without installed route may be redistributed. */
  lemma RedistributeBooks(routes: Routes, t: S.Table, xr: set<Dest>, allowDuplicates: int, d: Dest)
    requires Books(routes, t, multiset{}, xr, allowDuplicates) && (allowDuplicates < 0 ==> NoneAt(routes, d))
    ensures Books(routes, t, multiset{}, xr + {d}, allowDuplicates)
  {
  }

  function Recosted(r: Route, cost: u16, add: u16): Route { r.(cost := cost, addMetric := add) }

  function ExpiredRoute(e: Engine, key: RouteKey): Route
    requires key in e.routes && e.routes[key].src in e.srcs
  {
    e.routes[key].(seqno := SeqnoPlus(e.srcs[e.routes[key].src].seqno, 1), refmetric := INFINITY, cost := INFINITY, addMetric := 0)
  }

  /** The routes after `key` has become `r`: route_changed follows if its metric changed. */
  ghost predicate AfterTo(e: Engine, key: RouteKey, r: Route, now: int, xr: Redistributed, allowDuplicates: int, routes': Routes)
    requires key in e.routes && r.src in e.srcs
  {
    var e1 := e.(routes := e.routes[key := r]);
    if r.Metric() == e.routes[key].Metric() then routes' == e1.routes
    else ChangedTo(e1, key, e.routes[key].Metric(), now, xr, allowDuplicates, routes')
  }

  /** What update_route_metric may leave. */
  ghost predicate MetricTo(e: Engine, key: RouteKey, cost: u16, add: u16, now: int, xr: Redistributed, allowDuplicates: int, routes': Routes)
    requires key in e.routes && e.routes[key].src in e.srcs
  {
    if !e.routes[key].Expired(now) then AfterTo(e, key, Recosted(e.routes[key], cost, add), now, xr, allowDuplicates, routes')
    else if e.routes[key].refmetric < INFINITY then AfterTo(e, key, ExpiredRoute(e, key), now, xr, allowDuplicates, routes')
    else routes' == e.routes
  }

  /** What flush_route may leave: the other routes, with route_lost if the route was installed. */
  ghost predicate FlushedTo(e: Engine, key: RouteKey, now: int, xr: Redistributed, allowDuplicates: int, routes': Routes)
    requires key in e.routes
  {
    var e1 := e.(routes := e.routes - {key});
    if e.routes[key].installed then LostTo(e1, key.dest, now, xr, allowDuplicates, routes') else routes' == e1.routes
  }

  // ---- Garbage collection -------------------------------------------------------------

  function ClampTime(s: Source, now: int): Source { if s.time > now then s.(time := now) else s }

  ghost predicate Garbage(e: Engine, k: SourceKey, now: int)
    requires k in e.srcs
  {
    Stale(ClampTime(e.srcs[k], now), now) && Unused(e, k)
  }

  /** The tables after expire_sources: stale sources that no route uses are gone, and no time
      lies in the future. */
  ghost function Collected(e: Engine, now: int): Engine { CollectedIn(e, now, e.srcs.Keys) }

  /** The same when only the sources in `done` have been looked at. */
  ghost function CollectedIn(e: Engine, now: int, done: set<SourceKey>): Engine {
    e.(srcs := map k | k in e.srcs && !(k in done && Garbage(e, k, now)) ::
                 if k in done then ClampTime(e.srcs[k], now) else e.srcs[k])
  }

  ghost predicate Collecting(evs: seq<Event>) { forall ev <- evs :: ev.DropSource? || ev.ClampSource? }

  lemma CollectOne(e: Engine, now: int, done: set<SourceKey>, k: SourceKey) returns (evs: seq<Event>)
    requires k in e.srcs && k !in done
    ensures Trace(CollectedIn(e, now, done), now, evs, CollectedIn(e, now, done + {k})) && Collecting(evs)
  {
    var a, b := CollectedIn(e, now, done), CollectedIn(e, now, done + {k});
    if Garbage(e, k, now) {
      evs := [DropSource(k)];
      TraceOne(a, now, evs[0]);
      assert a.srcs - {k} == b.srcs;
    } else if e.srcs[k].time > now {
      evs := [ClampSource(k)];
      TraceOne(a, now, evs[0]);
      assert a.srcs[k := a.srcs[k].(time := now)] == b.srcs;
    } else {
      evs := [];
      TraceNone(a, now);
      assert a.srcs == b.srcs;
    }
  }

  /** Once all have been looked at, the collection is complete. */
  lemma CollectedAll(e: Engine, now: int, done: set<SourceKey>)
    requires e.srcs.Keys <= done
    ensures CollectedIn(e, now, done) == Collected(e, now)
  {
    var a, b := CollectedIn(e, now, done).srcs, Collected(e, now).srcs;
    assert a.Keys == b.Keys;
    assert a == b;
  }

  lemma {:induction false} CollectRest(e: Engine, now: int, done: set<SourceKey>, todo: set<SourceKey>) returns (evs: seq<Event>)
    requires todo == e.srcs.Keys - done
    ensures Trace(CollectedIn(e, now, done), now, evs, Collected(e, now)) && Collecting(evs)
    decreases |todo|
  {
    if todo == {} {
      evs := [];
      forall k | k in e.srcs
        ensures k in done
      {
        assert k !in todo;
      }
      CollectedAll(e, now, done);
      TraceNone(Collected(e, now), now);
    } else {
      var k :| k in todo;
      var first := CollectOne(e, now, done, k);
      var rest := CollectRest(e, now, done + {k}, todo - {k});
      TraceConcat(CollectedIn(e, now, done), now, first, CollectedIn(e, now, done + {k}), rest, Collected(e, now));
      evs := first + rest;
    }
  }

  /** Garbage collection is a sequence of steps of the engine. */
  lemma TraceCollect(e: Engine, now: int) returns (evs: seq<Event>)
    ensures Trace(e, now, evs, Collected(e, now)) && Collecting(evs)
  {
    evs := CollectRest(e, now, {}, e.srcs.Keys);
    assert CollectedIn(e, now, {}).srcs == e.srcs;
  }

  /** With exact counts expire_sources, which goes by the counts, collects exactly the garbage. */
  lemma KeptIsCollected(e: Engine, t: S.Table, now: int)
    requires Counted(e.routes, t, multiset{}) && e.srcs == SrcsOf(t)
    ensures SrcsOf(S.TableKept(t, now)) == Collected(e, now).srcs
  {
    forall k | k in t
      ensures t[k].count == 0 <==> Unused(e, k)
    {
      if Unused(e, k) {
        assert Users(e.routes, k) == {};
      } else {
        var rk :| rk in e.routes && e.routes[rk].src == k;
        assert rk in Users(e.routes, k);
      }
    }
  }
}
