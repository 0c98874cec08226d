/** A run of three routers, operation by operation, that ends in a forwarding loop although
    all sequence numbers are equal and no source is stale: router A installs a retracted
    route through B and then takes an unfeasible update for it. */
module BabelLoopExample {
  import opened Options
  import opened Seqno
  import opened BabelTypes
  import opened BabelEngine
  import opened BabelNetwork
  import opened RouteSpec
  import opened BabelSystem

  const O: Node := [0]
  const A: Node := [1]
  const B: Node := [2]
  const atO: Addr := [10]
  const atA: Addr := [11]
  const atB: Addr := [12]
  const D := Dest([], 0)
  const K := SourceKey(O, D)

  const AviaO := RouteKey(D, Neighbour(atO, 1), atO)
  const AviaB := RouteKey(D, Neighbour(atB, 1), atB)
  const BviaO := RouteKey(D, Neighbour(atO, 1), atO)
  const BviaA := RouteKey(D, Neighbour(atA, 1), atA)

  function Rt(k: RouteKey, refmetric: u16, cost: u16, installed: bool): Route {
    Route(K, k.neigh, k.nexthop, 1, refmetric, cost, 0, 0, 60, installed)
  }

  function Eng(routes: map<RouteKey, Route>, metric: u16): Engine {
    Engine(routes, map[K := Source(1, metric, 0)], false, 256)
  }

  const Empty := Engine(map[], map[], false, 256)

  /** A router that redistributes nothing and does not allow duplicates. */
  function Plain(e: Engine): Router { Router(e, map[], -1) }

  function Mk(a: Engine, b: Engine, msgs: set<Message>): System {
    System(Net(map[O := Empty, A := a, B := b], map[O := 1], map[atO := O, atA := A, atB := B], msgs, 0),
           map[O := map[], A := map[], B := map[]], map[O := -1, A := -1, B := -1])
  }

  const FromO := Message(atO, K, 1, 0)
  const FromB := Message(atB, K, 1, 10)
  const FromA := Message(atA, K, 1, 1)
  const Retraction := Message(atB, K, 1, INFINITY)
  const LateFromB := Message(atB, K, 1, 101)

  const M1 := {FromO}
  const M2 := {FromO, FromB}
  const M3 := {FromO, FromB, FromA}
  const M4 := {FromO, FromB, FromA, Retraction}
  const M5 := {FromO, FromB, FromA, Retraction, LateFromB}

  /** The message as it arrives over a link of cost `cost`, announced every 10 seconds. */
  function Arriving(m: Message, cost: u16): Op {
    Update(Heard(O, D, 1, m.metric, 1000, Neighbour(m.from, 1), m.from, cost, 0), 0, false)
  }

  /** The tables of A and B before and after each operation, and inside it. */
  const A1 := Eng(map[AviaB := Rt(AviaB, 10, 100, false)], INFINITY)
  const A2 := Eng(map[AviaB := Rt(AviaB, 10, 100, true)], INFINITY)
  const A3 := Eng(map[AviaB := Rt(AviaB, 10, 100, true), AviaO := Rt(AviaO, 0, 1, false)], INFINITY)
  const A4 := Eng(map[AviaB := Rt(AviaB, 10, 100, false), AviaO := Rt(AviaO, 0, 1, true)], INFINITY)
  const A5 := Eng(map[AviaB := Rt(AviaB, 10, 100, false), AviaO := Rt(AviaO, 0, 1, true)], 1)
  const A6 := Eng(map[AviaB := Rt(AviaB, INFINITY, 100, false), AviaO := Rt(AviaO, 0, 1, true)], 1)
  const A7 := Eng(map[AviaB := Rt(AviaB, INFINITY, 100, false)], 1)
  const A8 := Eng(map[AviaB := Rt(AviaB, INFINITY, 100, true)], 1)
  const A9 := Eng(map[AviaB := Rt(AviaB, 101, 100, true)], 1)

  const B1 := Eng(map[BviaO := Rt(BviaO, 0, 10, false)], INFINITY)
  const B2 := Eng(map[BviaO := Rt(BviaO, 0, 10, true)], INFINITY)
  const B3 := Eng(map[BviaO := Rt(BviaO, 0, 10, true)], 10)
  const B4 := Eng(map[BviaO := Rt(BviaO, 0, INFINITY, true)], 10)
  const B5 := Eng(map[BviaO := Rt(BviaO, 0, INFINITY, true), BviaA := Rt(BviaA, 1, 100, false)], 10)
  const B6 := Eng(map[BviaO := Rt(BviaO, 0, INFINITY, false), BviaA := Rt(BviaA, 1, 100, true)], 10)

  // ---- Runs ---------------------------------------------------------------------------

  /** No router has a stale source entry. */
  ghost predicate NoneStale(net: Net) {
    forall u <- net.engines, k <- net.engines[u].srcs :: !Stale(net.engines[u].srcs[k], net.now)
  }

  /** A run that ends in `s`, in which sequence numbers stay within half a circle and no
      source entry is ever stale. */
  ghost predicate RunTo(trace: seq<System>, acts: seq<Act>, s: System) {
    && SystemRun(trace, acts) && trace[|acts|] == s
    && forall i | 0 <= i < |trace| :: SeqnosSpanHalf(trace[i].net, K) && NoneStale(trace[i].net)
  }

  /** Every sequence number in the table is 1 and every source entry is of time 0. */
  ghost predicate Ones(e: Engine) {
    && (forall k <- e.srcs :: e.srcs[k].seqno == 1 && e.srcs[k].time == 0)
    && (forall rk <- e.routes :: e.routes[rk].seqno == 1)
  }

  ghost predicate Quiet(a: Engine, b: Engine, msgs: set<Message>) {
    Ones(a) && Ones(b) && forall m <- msgs :: m.seqno == 1
  }

  /** The state with tables `a` and `b` and messages `msgs` is reached. */
  ghost predicate Reached(a: Engine, b: Engine, msgs: set<Message>) {
    Quiet(a, b, msgs) && exists trace, acts :: RunTo(trace, acts, Mk(a, b, msgs))
  }

  lemma QuietIsGood(a: Engine, b: Engine, msgs: set<Message>)
    requires Quiet(a, b, msgs)
    ensures SeqnosSpanHalf(Mk(a, b, msgs).net, K) && NoneStale(Mk(a, b, msgs).net)
  {
    var net := Mk(a, b, msgs).net;
    assert forall u <- net.engines :: Ones(net.engines[u]);
    assert LiveFrom(net, K, 1);
  }

  lemma RunOn(trace: seq<System>, acts: seq<Act>, s: System, act: Act, s': System)
    requires RunTo(trace, acts, s) && ActTo(s, act, s') && SeqnosSpanHalf(s'.net, K) && NoneStale(s'.net)
    ensures RunTo(trace + [s'], acts + [act], s')
  {
    RunAppend(trace, acts, act, s');
  }

  lemma Extend(a: Engine, b: Engine, msgs: set<Message>, act: Act, a': Engine, b': Engine, msgs': set<Message>)
    requires Reached(a, b, msgs) && ActTo(Mk(a, b, msgs), act, Mk(a', b', msgs')) && Quiet(a', b', msgs')
    ensures Reached(a', b', msgs')
  {
    var trace, acts :| RunTo(trace, acts, Mk(a, b, msgs));
    QuietIsGood(a', b', msgs');
    RunOn(trace, acts, Mk(a, b, msgs), act, Mk(a', b', msgs'));
  }

  /** Replacing the tables of one router. */
  lemma Replaced(a: Engine, b: Engine, msgs: set<Message>, e: Engine)
    ensures var s := Mk(a, b, msgs);
            && s.Has(A) && s.At(A) == Plain(a) && s.With(A, Plain(e)) == Mk(e, b, msgs)
            && s.Has(B) && s.At(B) == Plain(b) && s.With(B, Plain(e)) == Mk(a, e, msgs)
  {
    var s := Mk(a, b, msgs);
    assert s.With(A, Plain(e)).xr == s.xr && s.With(A, Plain(e)).allow == s.allow;
    assert s.With(B, Plain(e)).xr == s.xr && s.With(B, Plain(e)).allow == s.allow;
  }

  /** The operation takes the tables of `u` from `e` to `e'`. */
  ghost predicate Runs(u: Node, op: Op, msgs: set<Message>, e: Engine, e': Engine) {
    && ValidOp(op) && !op.Say? && (op.Update? ==> MessageOf(op.h) in msgs) && Ones(e')
    && OneTo(u, op, 0, Plain(e), Plain(e'))
  }

  lemma AtA(a: Engine, b: Engine, msgs: set<Message>, op: Op, a': Engine)
    requires Reached(a, b, msgs) && Runs(A, op, msgs, a, a')
    ensures Reached(a', b, msgs)
  {
    Replaced(a, b, msgs, a');
    Extend(a, b, msgs, Operate(A, op), a', b, msgs);
  }

  lemma AtB(a: Engine, b: Engine, msgs: set<Message>, op: Op, b': Engine)
    requires Reached(a, b, msgs) && Runs(B, op, msgs, b, b')
    ensures Reached(a, b', msgs)
  {
    Replaced(a, b, msgs, b');
    Extend(a, b, msgs, Operate(B, op), a, b', msgs);
  }

  /** The router may advertise its installed route `key`, saying `m`. */
  ghost predicate Says(e: Engine, key: RouteKey, from: Addr, m: Message, e': Engine) {
    && Enabled(e, 0, Advertise(key, true)) && e' == Apply(e, 0, Advertise(key, true)) && Ones(e')
    && m == Message(from, e.routes[key].src, 1, e.routes[key].Metric()) && e.routes[key].seqno == 1
  }

  lemma SentByA(a: Engine, b: Engine, msgs: set<Message>, key: RouteKey, m: Message, a': Engine)
    requires Reached(a, b, msgs) && Says(a, key, atA, m, a')
    ensures Reached(a', b, msgs + {m})
  {
    Replaced(a, b, msgs, a');
    Extend(a, b, msgs, Other(Send(A, Advertise(key, true), atA, m.metric)), a', b, msgs + {m});
  }

  lemma SentByB(a: Engine, b: Engine, msgs: set<Message>, key: RouteKey, m: Message, b': Engine)
    requires Reached(a, b, msgs) && Says(b, key, atB, m, b')
    ensures Reached(a, b', msgs + {m})
  {
    Replaced(a, b, msgs, b');
    Extend(a, b, msgs, Other(Send(B, Advertise(key, true), atB, m.metric)), a, b', msgs + {m});
  }

  // ---- The run ------------------------------------------------------------------------

  /** O announces the prefix. */
  lemma Originated()
    ensures Reached(Empty, Empty, M1)
  {
    QuietIsGood(Empty, Empty, {});
    assert RunTo([Mk(Empty, Empty, {})], [], Mk(Empty, Empty, {}));
    Extend(Empty, Empty, {}, Other(Originate(O, atO, D, 0)), Empty, Empty, M1);
  }

  /** The new route `key` wins over `from`, if that is installed, which leads to `e'`. */
  ghost predicate Replaces(e: Engine, from: Option<RouteKey>, key: RouteKey, e': Engine) {
    && key in e.routes && e.routes[key].src in e.srcs && Wins(e, 0, map[], -1, key)
    && One(e.routes) && e' == e.(routes := Elected(e.routes, key)) && Ones(e')
    && (from.None? ==> NoneAt(e.routes, key.dest))
    && (from.Some? ==> && from.value in e.routes && e.routes[from.value].installed
                       && from.value.dest == key.dest && from.value != key)
  }

  /** A feasible update for a new route that wins. */
  lemma Takes(u: Node, h: Heard, msgs: set<Message>, e: Engine, from: Option<RouteKey>, e2: Engine, e': Engine)
    requires h.id != u && h.cost >= 1 && h.add == 0 && h.refmetric < INFINITY && MessageOf(h) in msgs
    requires h.Key() !in e.routes && Replaces(e2, from, h.Key(), e')
    requires var e1 := WithSource(e, h, 0); e2 == e1.(routes := e1.routes[h.Key() := h.NewRoute(0)])
    ensures Runs(u, Update(h, 0, false), msgs, e, e')
  {
    var e1 := WithSource(e, h, 0);
    if h.Src() in e.srcs { TraceNone(e, 0); } else { TraceCreate(e, 0, h.Src(), h.seqno); }
    TraceAdd(e1, 0, h.NewRoute(0));
    TraceConcat(e, 0, Created(e, h), e1, Taken(e1, h, 0), e2);
    var more := ElectedTrace(e2, 0, from, h.Key());
    var evs := Created(e, h) + Taken(e1, h, 0);
    TraceConcat(e, 0, evs, e2, more, e');
    assert OpTo(u, Plain(e), Update(h, 0, false), 0, evs, more, Plain(e'));
  }

  /** B hears it and installs the route. */
  lemma BTakesO()
    ensures Runs(B, Arriving(FromO, 10), M1, Empty, B2)
  {
    assert Elected(B1.routes, BviaO) == B2.routes;
    Takes(B, Arriving(FromO, 10).h, M1, Empty, None, B1, B2);
  }

  /** A hears B and installs the route through it. */
  lemma ATakesB()
    ensures Runs(A, Arriving(FromB, 100), M2, Empty, A2)
  {
    assert Elected(A1.routes, AviaB) == A2.routes;
    Takes(A, Arriving(FromB, 100).h, M2, Empty, None, A1, A2);
  }

  lemma OWins()
    ensures Wins(A3, 0, map[], -1, AviaO) && Elected(A3.routes, AviaO) == A4.routes
  {
  }

  lemma OReplacesB()
    ensures Replaces(A3, Some(AviaB), AviaO, A4) && A3.routes == A2.routes[AviaO := Rt(AviaO, 0, 1, false)]
  {
    OWins();
  }

  /** A hears O and switches to it. */
  lemma ATakesO()
    ensures Runs(A, Arriving(FromO, 1), M2, A2, A4)
  {
    OReplacesB();
    Takes(A, Arriving(FromO, 1).h, M2, A2, Some(AviaB), A3, A4);
  }

  /** B's link to O fails; no other route is there to take over. */
  lemma BLosesO()
    ensures Runs(B, NewCost(BviaO, INFINITY, 0), M3, B3, B4)
  {
    var evs: seq<Event>, more: seq<Event> := [SetCost(BviaO, INFINITY, 0)], [];
    assert BestTo(B4, D, BviaO, BviaO, 0);
    assert ChangedTo(B4, BviaO, 10, 0, map[], -1, B4.routes);
    assert evs + more == [SetCost(BviaO, INFINITY, 0)];
    assert Through([B3, B4], B3, 0, evs + more, B4);
    assert OpTo(B, Plain(B3), NewCost(BviaO, INFINITY, 0), 0, evs, more, Plain(B4));
  }

  /** A hears B's retraction and keeps the route through O. */
  lemma AHearsRetraction()
    ensures Runs(A, Arriving(Retraction, 100), M4, A5, A6)
  {
    var evs: seq<Event>, more: seq<Event> := [Learn(AviaB, K, 1, INFINITY, 100, 0, 60)], [];
    assert A6.routes[AviaO].installed;
    assert !Wins(A6, 0, map[], -1, AviaB);
    assert evs + more == [Learn(AviaB, K, 1, INFINITY, 100, 0, 60)];
    assert Through([A5, A6], A5, 0, evs + more, A6);
    assert OpTo(A, Plain(A5), Arriving(Retraction, 100), 0, evs, more, Plain(A6));
  }

  /** The retracted route is the best that is left. */
  lemma Left()
    ensures LostTo(A7, D, 0, map[], -1, A8.routes) && A6.routes - {AviaO} == A7.routes
  {
    assert AviaB in A7.routes && AviaB.dest == D;
    assert BestTo(A7, D, AviaB, AviaB, 0);
    assert Wins(A7, 0, map[], -1, AviaB);
    assert Elected(A7.routes, AviaB) == A8.routes;
  }

  /** A loses the route through O and falls back to the retracted one. */
  lemma ALosesO()
    ensures Runs(A, FlushOp(AviaO), M4, A6, A8)
  {
    Left();
    TraceFlush(A6, 0, AviaO);
    TraceOne(A7, 0, Install(AviaB));
    assert A7.routes[AviaB := Rt(AviaB, INFINITY, 100, true)] == A8.routes;
    TraceConcat(A6, 0, Flushing(A6, AviaO), A7, [Install(AviaB)], A8);
    assert OpTo(A, Plain(A6), FlushOp(AviaO), 0, Flushing(A6, AviaO), [Install(AviaB)], Plain(A8));
  }

  lemma AWins()
    ensures Wins(B5, 0, map[], -1, BviaA) && Elected(B5.routes, BviaA) == B6.routes
  {
  }

  lemma AReplacesO()
    ensures Replaces(B5, Some(BviaO), BviaA, B6) && B5.routes == B4.routes[BviaA := Rt(BviaA, 1, 100, false)]
  {
    AWins();
  }

  /** B hears A's old update and switches to it. */
  lemma BTakesA()
    ensures Runs(B, Arriving(FromA, 100), M4, B4, B6)
  {
    AReplacesO();
    Takes(B, Arriving(FromA, 100).h, M4, B4, Some(BviaO), B5, B6);
  }

  /** A takes the unfeasible update for its installed, retracted route. */
  lemma ARevivesB()
    ensures Runs(A, Arriving(LateFromB, 100), M5, A8, A9)
  {
    var evs: seq<Event>, more: seq<Event> := [Learn(AviaB, K, 1, 101, 100, 0, 60)], [];
    assert A8.routes[AviaB := Rt(AviaB, 101, 100, true)] == A9.routes;
    assert evs + more == [Learn(AviaB, K, 1, 101, 100, 0, 60)];
    assert Through([A8, A9], A8, 0, evs + more, A9);
    assert OpTo(A, Plain(A8), Arriving(LateFromB, 100), 0, evs, more, Plain(A9));
  }

  /** Each router advertises its route as the messages say. */
  lemma Sayings()
    ensures Says(B2, BviaO, atB, FromB, B3) && Says(A4, AviaO, atA, FromA, A5)
    ensures Says(B4, BviaO, atB, Retraction, B4) && Says(B6, BviaA, atB, LateFromB, B6)
  {
  }

  lemma Step1()
    ensures Reached(Empty, B2, M1)
  {
    Originated();
    BTakesO();
    AtB(Empty, Empty, M1, Arriving(FromO, 10), B2);
  }

  lemma Step2()
    ensures Reached(Empty, B3, M2)
  {
    Step1();
    Sayings();
    SentByB(Empty, B2, M1, BviaO, FromB, B3);
    assert M1 + {FromB} == M2;
  }

  lemma Step3()
    ensures Reached(A2, B3, M2)
  {
    Step2();
    ATakesB();
    AtA(Empty, B3, M2, Arriving(FromB, 100), A2);
  }

  lemma Step4()
    ensures Reached(A4, B3, M2)
  {
    Step3();
    ATakesO();
    AtA(A2, B3, M2, Arriving(FromO, 1), A4);
  }

  lemma Step5()
    ensures Reached(A5, B3, M3)
  {
    Step4();
    Sayings();
    SentByA(A4, B3, M2, AviaO, FromA, A5);
    assert M2 + {FromA} == M3;
  }

  lemma Step6()
    ensures Reached(A5, B4, M3)
  {
    Step5();
    BLosesO();
    AtB(A5, B3, M3, NewCost(BviaO, INFINITY, 0), B4);
  }

  lemma Step7()
    ensures Reached(A5, B4, M4)
  {
    Step6();
    Sayings();
    SentByB(A5, B4, M3, BviaO, Retraction, B4);
    assert M3 + {Retraction} == M4;
  }

  lemma Step8()
    ensures Reached(A6, B4, M4)
  {
    Step7();
    AHearsRetraction();
    AtA(A5, B4, M4, Arriving(Retraction, 100), A6);
  }

  lemma Step9()
    ensures Reached(A8, B4, M4)
  {
    Step8();
    ALosesO();
    AtA(A6, B4, M4, FlushOp(AviaO), A8);
  }

  lemma Step10()
    ensures Reached(A8, B6, M4)
  {
    Step9();
    BTakesA();
    AtB(A8, B4, M4, Arriving(FromA, 100), B6);
  }

  lemma Step11()
    ensures Reached(A8, B6, M5)
  {
    Step10();
    Sayings();
    SentByB(A8, B6, M4, BviaA, LateFromB, B6);
    assert M4 + {LateFromB} == M5;
  }

  lemma Step12()
    ensures Reached(A9, B6, M5)
  {
    Step11();
    ARevivesB();
    AtA(A8, B6, M5, Arriving(LateFromB, 100), A9);
  }

  lemma LoopAtEnd()
    ensures Loop(Mk(A9, B6, M5).net, K, [A, B], [AviaB, BviaA])
  {
    assert Forwards(Mk(A9, B6, M5).net, K, A, AviaB, B);
    assert Forwards(Mk(A9, B6, M5).net, K, B, BviaA, A);
  }

  /** Without the condition on revived routes loop freedom fails: a run of the operations that
      keeps every other hypothesis ends with A and B forwarding to each other. */
  lemma LoopIsReachable()
    ensures exists trace: seq<System>, acts: seq<Act> ::
              RunTo(trace, acts, Mk(A9, B6, M5)) && Loop(trace[|acts|].net, K, [A, B], [AviaB, BviaA])
  {
    Step12();
    var trace, acts :| RunTo(trace, acts, Mk(A9, B6, M5));
    LoopAtEnd();
  }
}
