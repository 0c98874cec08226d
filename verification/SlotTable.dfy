/** The shape of the route table: slots ordered by prefix, each the list of the routes to
    one prefix with the installed route, if any, at its head. */
module SlotTable {
  import opened Bytes
  import opened BabelTypes

  type Slot = seq<Route>
  type Routes = map<RouteKey, Route>

  // ---- Order --------------------------------------------------------------------------

  /** route_compare */
  function CompareDest(a: Dest, b: Dest): int {
    if Memcmp(a.prefix, b.prefix) != 0 then Memcmp(a.prefix, b.prefix) else a.plen - b.plen
  }

  lemma CompareDestAntisymmetric(a: Dest, b: Dest)
    ensures CompareDest(a, b) == -CompareDest(b, a)
    ensures CompareDest(a, b) == 0 <==> a == b
  {
    MemcmpAntisymmetric(a.prefix, b.prefix);
  }

  lemma CompareDestTransitive(a: Dest, b: Dest, c: Dest)
    requires CompareDest(a, b) < 0 && CompareDest(b, c) < 0
    ensures CompareDest(a, c) < 0
  {
    MemcmpAntisymmetric(a.prefix, b.prefix);
    MemcmpAntisymmetric(b.prefix, c.prefix);
    MemcmpTransitive(a.prefix, b.prefix, c.prefix);
  }

  function Head(s: Slot): Dest
    requires s != []
  {
    s[0].src.dest
  }

  /** Slots are non-empty and strictly ordered by prefix. */
  ghost predicate Ordered(slots: seq<Slot>) {
    && (forall i | 0 <= i < |slots| :: slots[i] != [])
    && (forall i, j | 0 <= i < j < |slots| :: CompareDest(Head(slots[i]), Head(slots[j])) < 0)
  }

  /** Simple search: the first slot for `d`, or nothing. */
  function Linear(slots: seq<Slot>, d: Dest): Slot {
    if slots == [] then []
    else if slots[0] != [] && Head(slots[0]) == d then slots[0]
    else Linear(slots[1..], d)
  }

  lemma {:induction false} LinearAt(slots: seq<Slot>, i: nat)
    requires Ordered(slots) && i < |slots|
    ensures Linear(slots, Head(slots[i])) == slots[i]
    decreases i
  {
    if i > 0 {
      CompareDestAntisymmetric(Head(slots[0]), Head(slots[i]));
      LinearAt(slots[1..], i - 1);
    }
  }

  lemma {:induction false} LinearMissing(slots: seq<Slot>, d: Dest)
    requires forall i | 0 <= i < |slots| :: slots[i] != [] && Head(slots[i]) != d
    ensures Linear(slots, d) == []
  {
    if slots != [] { LinearMissing(slots[1..], d); }
  }

  /** What the simple search finds is a slot for `d`, or there is none. */
  lemma {:induction false} LinearFound(slots: seq<Slot>, d: Dest)
    requires forall i | 0 <= i < |slots| :: slots[i] != []
    ensures Linear(slots, d) == [] ==> forall i | 0 <= i < |slots| :: Head(slots[i]) != d
    ensures Linear(slots, d) != [] ==> exists i | 0 <= i < |slots| :: slots[i] == Linear(slots, d) && Head(slots[i]) == d
  {
    if slots != [] && Head(slots[0]) != d {
      LinearFound(slots[1..], d);
      if Linear(slots, d) != [] {
        var i :| 0 <= i < |slots[1..]| && slots[1..][i] == Linear(slots[1..], d) && Head(slots[1..][i]) == d;
        assert slots[i + 1] == Linear(slots, d);
      } else {
        assert forall i | 1 <= i < |slots| :: slots[i] == slots[1..][i - 1];
      }
    }
  }

  /** find_route_slot: binary search.  It finds the slot the simple search finds; if there
      is none, `n` is where one belongs. */
  method FindRouteSlot(slots: seq<Slot>, d: Dest) returns (i: int, n: nat)
    requires Ordered(slots)
    ensures if i >= 0 then i < |slots| && slots[i] == Linear(slots, d) && Head(slots[i]) == d
            else Linear(slots, d) == [] && Belongs(slots, d, n)
  {
    if |slots| < 1 { return -1, 0; }
    var p, g := 0, |slots| - 1;
    while p <= g
      invariant 0 <= p <= g + 1 <= |slots|
      invariant forall j | 0 <= j < p :: CompareDest(Head(slots[j]), d) < 0
      invariant forall j | g < j < |slots| :: CompareDest(d, Head(slots[j])) < 0
      decreases g + 1 - p
    {
      var m := (p + g) / 2;
      var c := CompareDest(d, Head(slots[m]));
      CompareDestAntisymmetric(d, Head(slots[m]));
      if c == 0 {
        LinearAt(slots, m);
        return m, 0;
      } else if c < 0 {
        forall j | m <= j < |slots|
          ensures CompareDest(d, Head(slots[j])) < 0
        {
          if m < j { CompareDestTransitive(d, Head(slots[m]), Head(slots[j])); }
        }
        g := m - 1;
      } else {
        forall j | 0 <= j <= m
          ensures CompareDest(Head(slots[j]), d) < 0
        {
          if j < m { CompareDestTransitive(Head(slots[j]), Head(slots[m]), d); }
        }
        p := m + 1;
      }
    }
    forall j | 0 <= j < |slots|
      ensures Head(slots[j]) != d
    {
      CompareDestAntisymmetric(d, Head(slots[j]));
    }
    LinearMissing(slots, d);
    return -1, p;
  }

  ghost predicate Belongs(slots: seq<Slot>, d: Dest, n: nat)
    requires Ordered(slots)
  {
    && n <= |slots|
    && (forall j | 0 <= j < n :: CompareDest(Head(slots[j]), d) < 0)
    && (forall j | n <= j < |slots| :: CompareDest(d, Head(slots[j])) < 0)
  }

  /** `slots'` differs from `slots` in the slot for `d` only, which is `s`. */
  ghost predicate Replaces(slots: seq<Slot>, slots': seq<Slot>, d: Dest, s: Slot) {
    && Ordered(slots') && Linear(slots', d) == s
    && forall x: Dest | x != d :: Linear(slots', x) == Linear(slots, x)
  }

  /** A search for another prefix goes the same way in two tables with the same slots but for
      one. */
  lemma LinearSame(slots: seq<Slot>, slots': seq<Slot>, x: Dest)
    requires Ordered(slots) && Ordered(slots')
    requires forall i | 0 <= i < |slots| && Head(slots[i]) == x :: slots[i] in slots'
    requires forall i | 0 <= i < |slots'| && Head(slots'[i]) == x :: slots'[i] in slots
    ensures Linear(slots', x) == Linear(slots, x)
  {
    LinearFound(slots, x);
    LinearFound(slots', x);
    if Linear(slots, x) != [] {
      var i :| 0 <= i < |slots| && slots[i] == Linear(slots, x) && Head(slots[i]) == x;
      var j :| 0 <= j < |slots'| && slots'[j] == slots[i];
      LinearAt(slots', j);
    }
  }

  lemma SetSlot(slots: seq<Slot>, i: nat, s: Slot)
    requires Ordered(slots) && i < |slots| && s != [] && Head(s) == Head(slots[i])
    ensures Replaces(slots, slots[i := s], Head(s), s)
  {
    var slots' := slots[i := s];
    LinearAt(slots', i);
    forall x: Dest | x != Head(s)
      ensures Linear(slots', x) == Linear(slots, x)
    {
      forall k | 0 <= k < |slots| && Head(slots[k]) == x ensures slots[k] in slots' { assert slots'[k] == slots[k]; }
      forall k | 0 <= k < |slots'| && Head(slots'[k]) == x ensures slots'[k] in slots { assert slots'[k] == slots[k]; }
      LinearSame(slots, slots', x);
    }
  }

  function Inserted(slots: seq<Slot>, n: nat, s: Slot): seq<Slot>
    requires n <= |slots|
  {
    slots[..n] + [s] + slots[n..]
  }

  lemma InsertedAt(slots: seq<Slot>, n: nat, s: Slot, k: nat)
    requires n <= |slots| && k <= |slots|
    ensures Inserted(slots, n, s)[k] == if k < n then slots[k] else if k == n then s else slots[k - 1]
  {
  }

  lemma InsertOrdered(slots: seq<Slot>, n: nat, s: Slot)
    requires Ordered(slots) && s != [] && Belongs(slots, Head(s), n)
    ensures Ordered(Inserted(slots, n, s))
  {
    var slots' := Inserted(slots, n, s);
    forall i | 0 <= i < |slots'| ensures slots'[i] != [] { InsertedAt(slots, n, s, i); }
    forall i, j | 0 <= i < j < |slots'|
      ensures CompareDest(Head(slots'[i]), Head(slots'[j])) < 0
    {
      InsertedAt(slots, n, s, i);
      InsertedAt(slots, n, s, j);
    }
  }

  lemma InsertSlot(slots: seq<Slot>, n: nat, s: Slot)
    requires Ordered(slots) && s != [] && Belongs(slots, Head(s), n)
    ensures Replaces(slots, Inserted(slots, n, s), Head(s), s)
  {
    var slots' := Inserted(slots, n, s);
    InsertOrdered(slots, n, s);
    InsertedAt(slots, n, s, n);
    LinearAt(slots', n);
    forall x: Dest | x != Head(s)
      ensures Linear(slots', x) == Linear(slots, x)
    {
      forall k | 0 <= k < |slots| && Head(slots[k]) == x
        ensures slots[k] in slots'
      {
        InsertedAt(slots, n, s, if k < n then k else k + 1);
      }
      forall k | 0 <= k < |slots'| && Head(slots'[k]) == x
        ensures slots'[k] in slots
      {
        InsertedAt(slots, n, s, k);
      }
      LinearSame(slots, slots', x);
    }
  }

  lemma RemoveSlot(slots: seq<Slot>, i: nat)
    requires Ordered(slots) && i < |slots|
    ensures Replaces(slots, slots[..i] + slots[i + 1..], Head(slots[i]), [])
  {
    var slots', d := slots[..i] + slots[i + 1..], Head(slots[i]);
    assert forall k | 0 <= k < i :: slots'[k] == slots[k];
    assert forall k | i < k < |slots| :: slots'[k - 1] == slots[k];
    assert forall k | i <= k < |slots'| :: slots'[k] == slots[k + 1];
    assert Ordered(slots');
    forall k | 0 <= k < |slots'|
      ensures Head(slots'[k]) != d
    {
      CompareDestAntisymmetric(Head(slots'[k]), d);
    }
    LinearMissing(slots', d);
    forall x: Dest | x != d
      ensures Linear(slots', x) == Linear(slots, x)
    {
      LinearSame(slots, slots', x);
    }
  }

  // ---- Contents -----------------------------------------------------------------------

  /** The slot `s` holds exactly the routes to `d`, each once, an installed one at its head. */
  ghost predicate Holds(s: Slot, d: Dest, routes: Routes) {
    && (forall j | 0 <= j < |s| :: Placed(s[j], j, d, routes))
    && (forall i, j | 0 <= i < j < |s| :: s[i].Key() != s[j].Key())
    && (forall k <- routes :: k.dest == d ==> routes[k] in s && routes[k].Key() == k)
  }

  ghost predicate Placed(r: Route, j: nat, d: Dest, routes: Routes) {
    r.src.dest == d && r.Key() in routes && routes[r.Key()] == r && (r.installed ==> j == 0)
  }

  /** The slots hold exactly `routes`. */
  ghost predicate Linked(slots: seq<Slot>, routes: Routes) {
    Ordered(slots) && forall d: Dest :: Holds(Linear(slots, d), d, routes)
  }

  ghost predicate SameElsewhere(routes: Routes, routes': Routes, d: Dest) {
    forall k: RouteKey | k.dest != d :: (k in routes <==> k in routes') && (k in routes ==> routes[k] == routes'[k])
  }

  /** Changing one slot and the routes to its prefix together keeps the table. */
  lemma LinkedUpdate(slots: seq<Slot>, slots': seq<Slot>, routes: Routes, routes': Routes, d: Dest, s: Slot)
    requires Linked(slots, routes) && Replaces(slots, slots', d, s)
    requires Holds(s, d, routes') && SameElsewhere(routes, routes', d)
    ensures Linked(slots', routes')
  {
    forall x: Dest
      ensures Holds(Linear(slots', x), x, routes')
    {
      if x != d { HoldsSame(Linear(slots, x), x, routes, routes', d); }
    }
  }

  lemma HoldsSame(s: Slot, x: Dest, routes: Routes, routes': Routes, d: Dest)
    requires Holds(s, x, routes) && SameElsewhere(routes, routes', d) && x != d
    ensures Holds(s, x, routes')
  {
    forall j | 0 <= j < |s|
      ensures Placed(s[j], j, x, routes')
    {
      assert Placed(s[j], j, x, routes);
    }
  }

  /** A route rewritten in place. */
  lemma HoldsSet(s: Slot, d: Dest, routes: Routes, j: nat, r: Route)
    requires Holds(s, d, routes) && j < |s| && r.Key() == s[j].Key() && (r.installed ==> j == 0)
    ensures Holds(s[j := r], d, routes[r.Key() := r]) && SameElsewhere(routes, routes[r.Key() := r], d)
  {
    var s', routes' := s[j := r], routes[r.Key() := r];
    assert Placed(s[j], j, d, routes);
    forall i | 0 <= i < |s'|
      ensures Placed(s'[i], i, d, routes')
    {
      assert Placed(s[i], i, d, routes);
      assert i != j ==> s[i].Key() != s[j].Key();
    }
    forall k <- routes' | k.dest == d
      ensures routes'[k] in s' && routes'[k].Key() == k
    {
      if k == r.Key() {
        assert s'[j] == r;
      } else {
        var i :| 0 <= i < |s| && s[i] == routes[k];
        assert Placed(s[i], i, d, routes);
        assert s'[i] == routes'[k];
      }
    }
  }

  function Moved(s: Slot, j: nat): (s': Slot)
    requires j < |s|
    ensures |s'| == |s|
  {
    [s[j]] + s[..j] + s[j + 1..]
  }

  /** The other routes of a slot, in their order. */
  function Without(s: Slot, key: RouteKey): Slot {
    if s == [] then [] else (if s[0].Key() == key then [] else [s[0]]) + Without(s[1..], key)
  }

  lemma {:induction false} WithoutAbsent(s: Slot, key: RouteKey)
    requires forall i | 0 <= i < |s| :: s[i].Key() != key
    ensures Without(s, key) == s
  {
    if s != [] { WithoutAbsent(s[1..], key); }
  }

  lemma {:induction false} WithoutIs(s: Slot, key: RouteKey, j: nat)
    requires j < |s| && forall i | 0 <= i < |s| :: s[i].Key() == key <==> i == j
    ensures Without(s, key) == s[..j] + s[j + 1..]
  {
    if j == 0 {
      WithoutAbsent(s[1..], key);
    } else {
      WithoutIs(s[1..], key, j - 1);
      assert s[..j] == [s[0]] + s[1..][..j - 1] && s[1..][j..] == s[j + 1..];
    }
  }

  /** Where an element of a slot was before the move, and where it is after. */
  function From(i: nat, j: nat): nat { if i == 0 then j else if i <= j then i - 1 else i }
  function To(i: nat, j: nat): nat { if i == j then 0 else if i < j then i + 1 else i }

  lemma MovedFrom(s: Slot, j: nat, i: nat)
    requires j < |s| && i < |s|
    ensures From(i, j) < |s| && Moved(s, j)[i] == s[From(i, j)]
  {
  }

  lemma MovedTo(s: Slot, j: nat, i: nat)
    requires j < |s| && i < |s|
    ensures To(i, j) < |s| && Moved(s, j)[To(i, j)] == s[i]
  {
  }

  /** move_installed_route: a route is taken to the head; none of the others is installed. */
  lemma HoldsMove(s: Slot, d: Dest, routes: Routes, j: nat)
    requires Holds(s, d, routes) && j < |s| && (forall i | 0 <= i < |s| && i != j :: !s[i].installed)
    ensures Holds(Moved(s, j), d, routes)
  {
    var s' := Moved(s, j);
    forall i | 0 <= i < |s'|
      ensures Placed(s'[i], i, d, routes)
    {
      MovedFrom(s, j, i);
      assert Placed(s[From(i, j)], From(i, j), d, routes);
    }
    forall k <- routes | k.dest == d
      ensures routes[k] in s' && routes[k].Key() == k
    {
      var i :| 0 <= i < |s| && s[i] == routes[k];
      MovedTo(s, j, i);
    }
    forall a, b | 0 <= a < b < |s'|
      ensures s'[a].Key() != s'[b].Key()
    {
      MovedFrom(s, j, a);
      MovedFrom(s, j, b);
      assert s[From(a, j)].Key() != s[From(b, j)].Key();
    }
  }

  /** A route is marked as installed and taken to the head of a slot without installed route. */
  lemma HoldsInstall(s: Slot, d: Dest, routes: Routes, j: nat, r: Route)
    requires Holds(s, d, routes) && j < |s| && r.Key() == s[j].Key()
    requires forall i | 0 <= i < |s| :: !s[i].installed
    ensures Holds(Moved(s[j := r], j), d, routes[r.Key() := r]) && SameElsewhere(routes, routes[r.Key() := r], d)
    ensures Moved(s[j := r], j)[0] == r
  {
    HoldsMove(s, d, routes, j);
    HoldsSet(Moved(s, j), d, routes, 0, r);
    assert Moved(s[j := r], j) == Moved(s, j)[0 := r];
  }

  lemma NotInstalled(s: Slot, d: Dest, routes: Routes)
    requires Holds(s, d, routes) && forall k <- routes :: k.dest == d ==> !routes[k].installed
    ensures forall i | 0 <= i < |s| :: !s[i].installed
  {
    forall i | 0 <= i < |s|
      ensures !s[i].installed
    {
      assert Placed(s[i], i, d, routes);
    }
  }

  lemma HoldsAppend(s: Slot, d: Dest, routes: Routes, r: Route)
    requires Holds(s, d, routes) && r.src.dest == d && r.Key() !in routes && !r.installed
    ensures Holds(s + [r], d, routes[r.Key() := r]) && SameElsewhere(routes, routes[r.Key() := r], d)
  {
    var s', routes' := s + [r], routes[r.Key() := r];
    forall i | 0 <= i < |s'|
      ensures Placed(s'[i], i, d, routes')
    {
      if i < |s| { assert Placed(s[i], i, d, routes); }
    }
    forall k <- routes' | k.dest == d
      ensures routes'[k] in s' && routes'[k].Key() == k
    {
      if k == r.Key() {
        assert s'[|s|] == r;
      } else {
        var i :| 0 <= i < |s| && s[i] == routes[k];
        assert s'[i] == routes'[k];
      }
    }
  }

  lemma HoldsRemove(s: Slot, d: Dest, routes: Routes, j: nat)
    requires Holds(s, d, routes) && j < |s| && !s[j].installed
    ensures Holds(s[..j] + s[j + 1..], d, routes - {s[j].Key()}) && SameElsewhere(routes, routes - {s[j].Key()}, d)
  {
    var s', routes' := s[..j] + s[j + 1..], routes - {s[j].Key()};
    assert Placed(s[j], j, d, routes);
    forall i | 0 <= i < |s'|
      ensures Placed(s'[i], i, d, routes')
    {
      var i0 := if i < j then i else i + 1;
      assert s'[i] == s[i0] && Placed(s[i0], i0, d, routes);
      assert s[i0].Key() != s[j].Key();
    }
    forall k <- routes' | k.dest == d
      ensures routes'[k] in s' && routes'[k].Key() == k
    {
      var i :| 0 <= i < |s| && s[i] == routes[k];
      assert Placed(s[i], i, d, routes);
      assert s'[if i < j then i else i - 1] == s[i];
    }
  }

  /** At most one route to a prefix is installed, and it is the head of its slot. */
  lemma InstalledIsHead(slots: seq<Slot>, routes: Routes, k: RouteKey)
    requires Linked(slots, routes) && k in routes && routes[k].installed
    ensures var s := Linear(slots, k.dest); s != [] && s[0] == routes[k]
  {
    var s := Linear(slots, k.dest);
    assert Holds(s, k.dest, routes);
    var j :| 0 <= j < |s| && s[j] == routes[k];
    assert Placed(s[j], j, k.dest, routes);
  }
}
