/** A network of routers that run the operations of the route table, one whole operation at
    a time, and its loop freedom. */
module BabelSystem {
  import opened Seqno
  import opened BabelTypes
  import opened BabelEngine
  import opened BabelNetwork
  import opened XrouteTable
  import opened RouteSpec

  // ---- Operations ---------------------------------------------------------------------

  datatype Op =
    | Update(h: Heard, filtered: int, martian: bool)
    | NewCost(key: RouteKey, cost: u16, add: u16)
    | FlushOp(key: RouteKey)
    | Say(key: RouteKey, interferes: bool)
    | GcSources
    | Redistribute(x: Xroute, martian: bool)
    | Withdraw(d: Dest)

  /** Link costs are at least 1, and the filter says what the update carries. */
  predicate ValidOp(op: Op) {
    match op
    case Update(h, filtered, _) => h.cost >= 1 && (filtered < INFINITY ==> filtered == h.add)
    case NewCost(_, cost, _) => cost >= 1
    case _ => true
  }

  /** One router: its tables, its redistributed routes, and its option allow_duplicates. */
  datatype Router = Router(e: Engine, xr: Redistributed, allowDuplicates: int)

  predicate Rejected(me: RouterId, op: Op)
    requires op.Update?
  {
    op.h.id == me || op.martian || op.filtered >= INFINITY
  }

  /** xroute_add_new_route changes the table of redistributed routes. */
  predicate Accepted(r: Router, op: Op)
    requires op.Redistribute?
  {
    !op.martian && op.x.metric < INFINITY && (op.x.dest in r.xr ==> op.x.metric < r.xr[op.x.dest])
  }

  /** The first steps of update_route_metric. */
  function Recosting(e: Engine, key: RouteKey, cost: u16, add: u16, now: int): seq<Event>
    requires key in e.routes
  {
    if !e.routes[key].Expired(now) then [SetCost(key, cost, add)]
    else if e.routes[key].refmetric < INFINITY then [Expire(key)] else []
  }

  /** The steps of an operation: those that are determined, and the elections that follow. */
  ghost predicate Steps(me: RouterId, r: Router, op: Op, now: int, evs: seq<Event>, more: seq<Event>) {
    match op
    case Update(h, _, _) =>
      if Rejected(me, op) then evs == [] && more == []
      else evs == Created(r.e, h) + Taken(WithSource(r.e, h, now), h, now) && Electing(more, h.dest)
    case NewCost(key, cost, add) =>
      if key !in r.e.routes then evs == [] && more == []
      else evs == Recosting(r.e, key, cost, add, now) && Electing(more, key.dest)
    case FlushOp(key) =>
      if key !in r.e.routes then evs == [] && more == []
      else evs == Flushing(r.e, key) && Electing(more, key.dest)
    case Say(key, interferes) =>
      && evs == (if key in r.e.routes && r.e.routes[key].installed then [Advertise(key, interferes)] else [])
      && more == []
    case GcSources => Collecting(evs) && more == []
    case Redistribute(x, _) =>
      && (forall ev <- evs :: ev.Uninstall? && ev.key.dest == x.dest) && more == []
      && ((Accepted(r, op) && (r.allowDuplicates < 0 || x.metric < r.allowDuplicates)) || evs == [])
    case Withdraw(_) => evs == [] && more == []
  }

  /** What the operation leaves. */
  ghost predicate Leaves(me: RouterId, r: Router, op: Op, now: int, r': Router) {
    && r'.allowDuplicates == r.allowDuplicates
    && (op.Redistribute? || op.Withdraw? || r'.xr == r.xr)
    && match op
       case Update(h, _, _) =>
         !Rejected(me, op) ==> UpdatedTo(WithSource(r.e, h, now), h, now, r.xr, r.allowDuplicates, r'.e.routes)
       case NewCost(key, cost, add) =>
         key in r.e.routes ==> && r.e.routes[key].src in r.e.srcs
                               && MetricTo(r.e, key, cost, add, now, r.xr, r.allowDuplicates, r'.e.routes)
       case FlushOp(key) => key in r.e.routes ==> FlushedTo(r.e, key, now, r.xr, r.allowDuplicates, r'.e.routes)
       case Say(_, _) => true
       case GcSources => r'.e == Collected(r.e, now)
       case Redistribute(x, _) =>
         && r'.xr == (if Accepted(r, op) then r.xr[x.dest := x.metric] else r.xr)
         && (Accepted(r, op) && (r.allowDuplicates < 0 || x.metric < r.allowDuplicates) ==> NoneAt(r'.e.routes, x.dest))
       case Withdraw(d) => r'.xr == r.xr - {d}
  }

  /** The operation leads from `r` to `r'`, by the steps `evs` and the elections `more`. */
  ghost predicate OpTo(me: RouterId, r: Router, op: Op, now: int, evs: seq<Event>, more: seq<Event>, r': Router) {
    Trace(r.e, now, evs + more, r'.e) && Steps(me, r, op, now, evs, more) && Leaves(me, r, op, now, r')
  }

  ghost predicate OneTo(me: RouterId, op: Op, now: int, r: Router, r': Router) {
    exists evs, more :: OpTo(me, r, op, now, evs, more, r')
  }

  // ---- Systems ------------------------------------------------------------------------

  /** Routers are named by their router-id.  `net` has their tables and the messages. */
  datatype System = System(net: Net, xr: map<Node, Redistributed>, allow: map<Node, int>)
  {
    ghost predicate Has(u: Node) { u in net.engines && u in xr && u in allow }

    ghost function At(u: Node): Router
      requires Has(u)
    {
      Router(net.engines[u], xr[u], allow[u])
    }

    ghost function With(u: Node, r: Router): System {
      System(net.(engines := net.engines[u := r.e]), xr[u := r.xr], allow[u := r.allowDuplicates])
    }
  }

  datatype Act =
      /** a router runs an operation; an update is one that is in flight */
    | Operate(u: Node, op: Op)
      /** a router sends, a message is lost, or time passes */
    | Other(step: Step)

  function MessageOf(h: Heard): Message { Message(h.neigh.address, h.Src(), h.seqno, h.refmetric) }

  ghost predicate ActTo(s: System, a: Act, s': System) {
    match a
    case Operate(u, op) =>
      && s.Has(u) && ValidOp(op) && !op.Say? && (op.Update? ==> MessageOf(op.h) in s.net.msgs)
      && exists r' :: OneTo(u, op, s.net.now, s.At(u), r') && s' == s.With(u, r')
    case Other(step) =>
      && !step.Local? && !step.Receive? && StepEnabled(s.net, step)
      && s' == s.(net := Next(s.net, step))
  }

  /** The operation may consult or drop the router's entry for `k`. */
  ghost predicate Touches(e: Engine, op: Op, k: SourceKey, now: int) {
    match op
    case Update(h, _, _) => h.dest == k.dest
    case NewCost(key, _, _) => key.dest == k.dest
    case FlushOp(key) => key.dest == k.dest
    case GcSources => k in e.srcs && Garbage(e, k, now)
    case _ => false
  }

  /** A finite, unfeasible update for an installed, retracted route to `k`. */
  ghost predicate RevivesOp(e: Engine, op: Op, k: SourceKey, now: int) {
    && op.Update? && op.h.Src() == k && op.h.Key() in e.routes && k in e.srcs
    && var r := e.routes[op.h.Key()];
       && r.installed && r.src == k && r.refmetric == INFINITY && op.h.refmetric < INFINITY
       && !UpdateFeasible(e.srcs[k], now, op.h.seqno, op.h.refmetric)
  }

  /** The entry for `k` is current if the act may consult or drop it, and no retracted
      installed route to `k` is revived through a neighbour that is not below. */
  ghost predicate Harmless(s: System, a: Act, k: SourceKey) {
    match a
    case Operate(u, op) =>
      s.Has(u) ==> && (Touches(s.net.engines[u], op, k, s.net.now) ==> Current(s.net.engines[u], k, s.net.now))
                   && (RevivesOp(s.net.engines[u], op, k, s.net.now) ==> Below(s.net, k, u, op.h.neigh.address))
    case Other(step) => !ActsOnStale(s.net, step, k)
  }

  ghost predicate SystemRun(trace: seq<System>, acts: seq<Act>) {
    && |trace| == |acts| + 1 && Init(trace[0].net)
    && forall i | 0 <= i < |acts| :: ActTo(trace[i], acts[i], trace[i + 1])
  }

  lemma RunAppend(trace: seq<System>, acts: seq<Act>, a: Act, s: System)
    requires SystemRun(trace, acts) && ActTo(trace[|acts|], a, s)
    ensures SystemRun(trace + [s], acts + [a])
  {
    var trace', acts' := trace + [s], acts + [a];
    assert trace'[0] == trace[0];
    forall i | 0 <= i < |acts'|
      ensures ActTo(trace'[i], acts'[i], trace'[i + 1])
    {
      assert i < |acts| ==> trace'[i] == trace[i] && trace'[i + 1] == trace[i + 1] && acts'[i] == acts[i];
    }
  }

  /** The hypotheses of loop freedom for `k`, at operations. */
  ghost predicate Hypothesised(trace: seq<System>, acts: seq<Act>, k: SourceKey)
    requires |trace| == |acts| + 1
  {
    && (forall i | 0 <= i < |trace| :: SeqnosSpanHalf(trace[i].net, k))
    && (forall i | 0 <= i < |acts| :: Harmless(trace[i], acts[i], k))
  }

  // ---- Inside an operation ------------------------------------------------------------

  /** The network with the tables of `u` replaced. */
  ghost function With(net: Net, u: Node, e: Engine): Net { net.(engines := net.engines[u := e]) }

  function StepFor(u: Node, m: Message, ev: Event): Step {
    if IsLocal(ev) then Local(u, ev) else Receive(u, m, ev)
  }

  /** The step is local, or carries the message `m`. */
  ghost predicate Proper(net: Net, u: Node, m: Message, ev: Event) {
    IsLocal(ev) || (Carries(u, m, ev) && m in net.msgs)
  }

  lemma StepsWith(net: Net, u: Node, m: Message, ev: Event, e: Engine)
    requires u in net.engines && Enabled(e, net.now, ev) && Proper(net, u, m, ev)
    ensures StepEnabled(With(net, u, e), StepFor(u, m, ev))
    ensures Next(With(net, u, e), StepFor(u, m, ev)) == With(net, u, Apply(e, net.now, ev))
  {
    assert With(net, u, e).engines[u := Apply(e, net.now, ev)] == With(net, u, Apply(e, net.now, ev)).engines;
  }

  /** Neither hypothesis is violated inside the operation, step by step. */
  ghost predicate Safe(net: Net, u: Node, m: Message, k: SourceKey, e: Engine, ev: Event) {
    && SeqnosSpanHalf(With(net, u, e), k)
    && !ActsOnStale(With(net, u, e), StepFor(u, m, ev), k) && !Breaks(With(net, u, e), StepFor(u, m, ev), k)
  }

  lemma {:induction false} EventsKeep(net: Net, u: Node, m: Message, k: SourceKey, es: seq<Engine>, evs: seq<Event>, i: nat)
    requires u in net.engines && TablesOk(net) && Inv(net, k) && i <= |evs|
    requires |es| == |evs| + 1 && Through(es, net.engines[u], net.now, evs, es[|evs|])
    requires forall ev <- evs :: Proper(net, u, m, ev)
    requires forall j | 0 <= j < i :: Safe(net, u, m, k, es[j], evs[j])
    ensures TablesOk(With(net, u, es[i])) && Inv(With(net, u, es[i]), k)
  {
    if i == 0 {
      assert With(net, u, es[0]).engines == net.engines;
    } else {
      var j := i - 1;
      EventsKeep(net, u, m, k, es, evs, j);
      assert evs[j] in evs && Safe(net, u, m, k, es[j], evs[j]);
      StepsWith(net, u, m, evs[j], es[j]);
      StepKeepsTables(With(net, u, es[j]), StepFor(u, m, evs[j]));
      StepKeeps(With(net, u, es[j]), k, StepFor(u, m, evs[j]));
    }
  }

  /** What a router does when a message arrives, or of its own accord, extends any run of the
      network: one elementary step after the other. */
  lemma {:induction false} OperationExtendsRun(trace: seq<Net>, steps: seq<Step>, u: Node, m: Message, evs: seq<Event>, e': Engine)
    returns (trace': seq<Net>, steps': seq<Step>)
    requires Run(trace, steps) && u in trace[|steps|].engines
    requires Trace(trace[|steps|].engines[u], trace[|steps|].now, evs, e')
    requires forall ev <- evs :: Proper(trace[|steps|], u, m, ev)
    ensures Run(trace', steps') && steps <= steps' && trace <= trace' && |steps'| == |steps| + |evs|
    ensures trace'[|steps'|] == With(trace[|steps|], u, e')
    decreases |evs|
  {
    var n, net := |evs| - 1, trace[|steps|];
    var es :| Through(es, net.engines[u], net.now, evs, e');
    if evs == [] {
      trace', steps' := trace, steps;
      assert net.engines[u := e'] == net.engines;
    } else {
      assert Through(es[..n + 1], net.engines[u], net.now, evs[..n], es[n]);
      trace', steps' := OperationExtendsRun(trace, steps, u, m, evs[..n], es[n]);
      assert evs[n] in evs;
      StepsWith(net, u, m, evs[n], es[n]);
      StepAppend(trace', steps', StepFor(u, m, evs[n]));
      trace' := trace' + [With(net, u, e')];
      steps' := steps' + [StepFor(u, m, evs[n])];
    }
  }

  lemma StepAppend(trace: seq<Net>, steps: seq<Step>, s: Step)
    requires Run(trace, steps) && StepEnabled(trace[|steps|], s)
    ensures Run(trace + [Next(trace[|steps|], s)], steps + [s])
  {
    var trace', steps' := trace + [Next(trace[|steps|], s)], steps + [s];
    assert trace'[0] == trace[0];
    forall i | 0 <= i < |steps'|
      ensures StepEnabled(trace'[i], steps'[i]) && trace'[i + 1] == Next(trace'[i], steps'[i])
    {
      assert i < |steps| ==> trace'[i] == trace[i] && trace'[i + 1] == trace[i + 1] && steps'[i] == steps[i];
    }
  }

  // ---- Sequence numbers inside an operation -------------------------------------------

  /** All sequence numbers for `k` in the tables lie in the half circle from `base`. */
  ghost predicate EngineIn(e: Engine, k: SourceKey, base: u16) {
    && (k in e.srcs ==> InWindow(e.srcs[k].seqno, base))
    && forall rk <- e.routes :: e.routes[rk].src == k ==> InWindow(e.routes[rk].seqno, base)
  }

  lemma LiveWith(net: Net, u: Node, k: SourceKey, base: u16, e: Engine)
    requires u in net.engines && LiveFrom(net, k, base)
    ensures LiveFrom(With(net, u, e), k, base) <==> EngineIn(e, k, base)
  {
    var net' := With(net, u, e);
    assert net'.engines[u] == e;
    if EngineIn(e, k, base) {
      assert LiveFrom(net', k, base);
    }
  }

  /** Every step but an expiry uses only numbers that are in the tables or in the message. */
  lemma ApplyIn(net: Net, u: Node, m: Message, k: SourceKey, base: u16, e: Engine, ev: Event)
    requires LiveFrom(net, k, base) && EngineIn(e, k, base) && Enabled(e, net.now, ev)
    requires Proper(net, u, m, ev) && !ev.Expire?
    ensures EngineIn(Apply(e, net.now, ev), k, base)
  {
  }

  lemma {:induction false} AllIn(net: Net, u: Node, m: Message, k: SourceKey, base: u16, es: seq<Engine>, evs: seq<Event>, i: nat)
    requires u in net.engines && LiveFrom(net, k, base) && i <= |evs|
    requires |es| == |evs| + 1 && Through(es, net.engines[u], net.now, evs, es[|evs|])
    requires forall ev <- evs :: Proper(net, u, m, ev) && !ev.Expire?
    ensures EngineIn(es[i], k, base)
  {
    if i > 0 {
      AllIn(net, u, m, k, base, es, evs, i - 1);
      assert evs[i - 1] in evs;
      ApplyIn(net, u, m, k, base, es[i - 1], evs[i - 1]);
    }
  }

  /** Elections change no sequence number. */
  lemma {:induction false} ElectingIn(es: seq<Engine>, now: int, evs: seq<Event>, k: SourceKey, base: u16, i: nat, from: nat, d: Dest)
    requires |es| == |evs| + 1 && Through(es, es[0], now, evs, es[|evs|]) && from <= i <= |evs|
    requires Electing(evs[from..], d) && EngineIn(es[|evs|], k, base)
    ensures EngineIn(es[i], k, base)
    decreases |evs| - i
  {
    if i < |evs| {
      ElectingIn(es, now, evs, k, base, i + 1, from, d);
      assert evs[i] == evs[from..][i - from] && evs[i] in evs[from..];
      assert es[i + 1] == Apply(es[i], now, evs[i]);
      forall rk <- es[i].routes | es[i].routes[rk].src == k
        ensures InWindow(es[i].routes[rk].seqno, base)
      {
        assert rk in es[i + 1].routes && es[i + 1].routes[rk].src == k;
        assert es[i + 1].routes[rk].seqno == es[i].routes[rk].seqno;
      }
    }
  }

  // ---- Stale entries inside an operation ----------------------------------------------

  lemma {:induction false} AllCurrent(es: seq<Engine>, now: int, evs: seq<Event>, k: SourceKey, i: nat)
    requires |es| == |evs| + 1 && Through(es, es[0], now, evs, es[|evs|]) && i <= |evs|
    requires Current(es[0], k, now)
    ensures Current(es[i], k, now)
  {
    if i > 0 {
      AllCurrent(es, now, evs, k, i - 1);
      assert es[i] == Apply(es[i - 1], now, evs[i - 1]);
    }
  }

  /** Collection only removes entries. */
  lemma {:induction false} OnlyShrinks(es: seq<Engine>, now: int, evs: seq<Event>, k: SourceKey, i: nat, j: nat)
    requires |es| == |evs| + 1 && Through(es, es[0], now, evs, es[|evs|]) && i <= j <= |evs| && Collecting(evs)
    ensures k in es[j].srcs ==> k in es[i].srcs
    decreases j - i
  {
    if i < j {
      OnlyShrinks(es, now, evs, k, i, j - 1);
      assert evs[j - 1] in evs && es[j] == Apply(es[j - 1], now, evs[j - 1]);
    }
  }

  /** The step is about routes to `d`. */
  ghost predicate Concerns(ev: Event, d: Dest) {
    match ev
    case CreateSource(k, _) => true
    case Learn(key, src, _, _, _, _, _) => key.dest == d && src.dest == d
    case Add(_) => true
    case Install(key) => key.dest == d
    case Switch(_, to) => to.dest == d
    case Advertise(_, _) => false
    case DropSource(_) => false
    case _ => true
  }

  lemma ElsewhereUnused(e: Engine, ev: Event, k: SourceKey, d: Dest)
    requires WellFormed(e) && Concerns(ev, d) && d != k.dest
    ensures !Uses(e, ev, k)
  {
    if ev.Install? && ev.key in e.routes { assert Filed(e.routes[ev.key], ev.key, e.srcs); }
    if ev.Switch? && ev.to in e.routes { assert Filed(e.routes[ev.to], ev.to, e.srcs); }
  }

  lemma {:induction false} AllWellFormed(es: seq<Engine>, now: int, evs: seq<Event>, i: nat)
    requires |es| == |evs| + 1 && Through(es, es[0], now, evs, es[|evs|]) && i <= |evs| && WellFormed(es[0])
    ensures WellFormed(es[i])
  {
    if i > 0 {
      AllWellFormed(es, now, evs, i - 1);
      ApplyKeepsWellFormed(es[i - 1], now, evs[i - 1]);
    }
  }

  // ---- One operation ------------------------------------------------------------------

  /** Router `u` runs `op`, going through the states `es` of its tables. */
  ghost predicate Acting(s: System, u: Node, op: Op, evs: seq<Event>, more: seq<Event>, r': Router, es: seq<Engine>) {
    && s.Has(u) && ValidOp(op) && !op.Say? && (op.Update? ==> MessageOf(op.h) in s.net.msgs)
    && Steps(u, s.At(u), op, s.net.now, evs, more) && Leaves(u, s.At(u), op, s.net.now, r')
    && |es| == |evs + more| + 1 && Through(es, s.net.engines[u], s.net.now, evs + more, r'.e)
  }

  function MsgOf(op: Op): Message {
    if op.Update? then MessageOf(op.h) else Message([], SourceKey([], Dest([], 0)), 0, 0)
  }

  lemma OpProper(s: System, u: Node, op: Op, evs: seq<Event>, more: seq<Event>, r': Router, es: seq<Engine>)
    requires Acting(s, u, op, evs, more, r', es)
    ensures forall ev <- evs + more :: Proper(s.net, u, MsgOf(op), ev)
  {
    forall ev <- evs + more
      ensures Proper(s.net, u, MsgOf(op), ev)
    {
      if op.Update? {
        UpdateSteps(s.net.engines[u], op.h, s.net.now, u, more, ev);
      } else if ev !in more {
        assert ev in evs;
      }
    }
  }

  /** All states inside the operation keep sequence numbers in a half circle. */
  lemma OpSpan(s: System, u: Node, op: Op, evs: seq<Event>, more: seq<Event>, r': Router, es: seq<Engine>, k: SourceKey, j: nat)
    requires Acting(s, u, op, evs, more, r', es) && j <= |evs + more|
    requires SeqnosSpanHalf(s.net, k) && SeqnosSpanHalf(s.With(u, r').net, k)
    ensures SeqnosSpanHalf(With(s.net, u, es[j]), k)
  {
    if op.NewCost? && evs == [Expire(op.key)] && j > 0 {
      var base': u16 :| LiveFrom(s.With(u, r').net, k, base');
      ExpirySpan(s, u, op, evs, more, r', es, k, base', j);
    } else {
      var base: u16 :| LiveFrom(s.net, k, base);
      if j == 0 {
        assert With(s.net, u, es[0]).engines == s.net.engines;
        assert LiveFrom(With(s.net, u, es[0]), k, base);
      } else {
        OpProper(s, u, op, evs, more, r', es);
        NoExpiry(s, u, op, evs, more, r', es);
        AllIn(s.net, u, MsgOf(op), k, base, es, evs + more, j);
        LiveWith(s.net, u, k, base, es[j]);
        assert LiveFrom(With(s.net, u, es[j]), k, base);
      }
    }
  }

  /** After an expiry the numbers that the operation ends with are already there. */
  lemma ExpirySpan(s: System, u: Node, op: Op, evs: seq<Event>, more: seq<Event>, r': Router, es: seq<Engine>,
                   k: SourceKey, base: u16, j: nat)
    requires Acting(s, u, op, evs, more, r', es) && 0 < j <= |evs + more|
    requires op.NewCost? && evs == [Expire(op.key)] && LiveFrom(s.With(u, r').net, k, base)
    ensures SeqnosSpanHalf(With(s.net, u, es[j]), k)
  {
    var end := s.With(u, r').net;
    assert With(end, u, r'.e).engines == end.engines;
    LiveWith(end, u, k, base, r'.e);
    assert (evs + more)[1..] == more;
    ElectingIn(es, s.net.now, evs + more, k, base, j, 1, op.key.dest);
    LiveWith(end, u, k, base, es[j]);
    assert With(end, u, es[j]).engines == With(s.net, u, es[j]).engines;
    assert LiveFrom(With(s.net, u, es[j]), k, base);
  }

  lemma NoExpiry(s: System, u: Node, op: Op, evs: seq<Event>, more: seq<Event>, r': Router, es: seq<Engine>)
    requires Acting(s, u, op, evs, more, r', es) && !(op.NewCost? && evs == [Expire(op.key)])
    ensures forall ev <- evs + more :: !ev.Expire?
  {
    forall ev <- evs + more
      ensures !ev.Expire?
    {
      if ev !in more { assert ev in evs; }
    }
  }

  /** The destination `op` is about, or one that is not `k`'s. */
  function DestOf(op: Op, k: SourceKey): Dest {
    match op
    case Update(h, _, _) => h.dest
    case NewCost(key, _, _) => key.dest
    case FlushOp(key) => key.dest
    case _ => if k.dest.plen == 0 then Dest([], 1) else Dest([], 0)
  }

  lemma OpConcerns(s: System, u: Node, op: Op, evs: seq<Event>, more: seq<Event>, r': Router, es: seq<Engine>, k: SourceKey)
    requires Acting(s, u, op, evs, more, r', es) && !op.GcSources? && !Touches(s.net.engines[u], op, k, s.net.now)
    ensures DestOf(op, k) != k.dest && forall ev <- evs + more :: Concerns(ev, DestOf(op, k))
  {
    forall ev <- evs + more
      ensures Concerns(ev, DestOf(op, k))
    {
      if ev !in more { assert ev in evs; }
    }
  }

  /** No step inside a harmless operation acts on a stale entry for `k`. */
  lemma OpNotStale(s: System, u: Node, op: Op, evs: seq<Event>, more: seq<Event>, r': Router, es: seq<Engine>, k: SourceKey, j: nat)
    requires Acting(s, u, op, evs, more, r', es) && j < |evs + more|
    requires WellFormed(s.net.engines[u]) && Harmless(s, Operate(u, op), k)
    ensures !ActsOnStale(With(s.net, u, es[j]), StepFor(u, MsgOf(op), (evs + more)[j]), k)
  {
    var all, now := evs + more, s.net.now;
    assert all[j] in all;
    if op.GcSources? {
      OnlyShrinks(es, now, all, k, 0, j);
      OnlyShrinks(es, now, all, k, j + 1, |all|);
      assert es[j + 1] == Apply(es[j], now, all[j]);
      assert k in es[0].srcs ==> !Garbage(es[0], k, now);
      assert k in es[0].srcs ==> k in es[|all|].srcs;
    } else if Touches(s.net.engines[u], op, k, now) {
      AllCurrent(es, now, all, k, j);
    } else {
      OpConcerns(s, u, op, evs, more, r', es, k);
      AllWellFormed(es, now, all, j);
      ElsewhereUnused(es[j], all[j], k, DestOf(op, k));
    }
  }

  /** An operation learns at most once, what its update says, after the entry is there. */
  lemma OneLearn(s: System, u: Node, op: Op, evs: seq<Event>, more: seq<Event>, r': Router, es: seq<Engine>, j: nat)
    requires Acting(s, u, op, evs, more, r', es) && j < |evs + more| && (evs + more)[j].Learn?
    ensures op.Update? && j == |Created(s.net.engines[u], op.h)| && es[j] == WithSource(s.net.engines[u], op.h, s.net.now)
    ensures var ev := (evs + more)[j];
            ev.key == op.h.Key() && ev.src == op.h.Src() && ev.seqno == op.h.seqno && ev.refmetric == op.h.refmetric
  {
    var all := evs + more;
    assert all[j] in all;
    assert op.Update? && all[j] in evs;
    assert j == |Created(s.net.engines[u], op.h)|;
    if j == 1 {
      assert es[1] == Apply(es[0], s.net.now, all[0]);
    }
  }

  /** ... nor revives a retracted installed route to `k`. */
  lemma OpNotBreaking(s: System, u: Node, op: Op, evs: seq<Event>, more: seq<Event>, r': Router, es: seq<Engine>, k: SourceKey, j: nat)
    requires Acting(s, u, op, evs, more, r', es) && j < |evs + more|
    requires WellFormed(s.net.engines[u]) && Harmless(s, Operate(u, op), k)
    ensures !Breaks(With(s.net, u, es[j]), StepFor(u, MsgOf(op), (evs + more)[j]), k)
  {
    var e, ev := s.net.engines[u], (evs + more)[j];
    if ev.Learn? && ev.src == k {
      OneLearn(s, u, op, evs, more, r', es, j);
      if ev.key in e.routes {
        assert Filed(e.routes[ev.key], ev.key, e.srcs);
        assert es[j] == e ==> With(s.net, u, es[j]).engines == s.net.engines;
      }
    }
  }

  lemma OperateKeeps(s: System, u: Node, op: Op, evs: seq<Event>, more: seq<Event>, r': Router, es: seq<Engine>, k: SourceKey)
    requires Acting(s, u, op, evs, more, r', es)
    requires TablesOk(s.net) && Inv(s.net, k) && Harmless(s, Operate(u, op), k)
    requires SeqnosSpanHalf(s.net, k) && SeqnosSpanHalf(s.With(u, r').net, k)
    ensures TablesOk(s.With(u, r').net) && Inv(s.With(u, r').net, k)
  {
    var all := evs + more;
    OpProper(s, u, op, evs, more, r', es);
    forall j | 0 <= j < |all|
      ensures Safe(s.net, u, MsgOf(op), k, es[j], all[j])
    {
      OpSpan(s, u, op, evs, more, r', es, k, j);
      OpNotStale(s, u, op, evs, more, r', es, k, j);
      OpNotBreaking(s, u, op, evs, more, r', es, k, j);
    }
    EventsKeep(s.net, u, MsgOf(op), k, es, all, |all|);
    assert s.With(u, r').net == With(s.net, u, r'.e);
  }

  /** A router that says its installed route `key` sends an update with at least its metric. */
  lemma SayIsSend(s: System, u: Node, key: RouteKey, interferes: bool, from: Addr, out: u16, r': Router)
    requires s.Has(u) && OneTo(u, Say(key, interferes), s.net.now, s.At(u), r')
    requires key in s.net.engines[u].routes && s.net.engines[u].routes[key].installed
    requires from in s.net.owner && s.net.owner[from] == u
    requires out >= AdvertisedMetric(s.net.engines[u], s.net.engines[u].routes[key], interferes)
    ensures StepEnabled(s.net, Send(u, Advertise(key, interferes), from, out))
    ensures Next(s.net, Send(u, Advertise(key, interferes), from, out)).engines == s.net.engines[u := r'.e]
    ensures s.xr == s.xr[u := r'.xr] && s.allow == s.allow[u := r'.allowDuplicates]
  {
    var evs, more :| OpTo(u, s.At(u), Say(key, interferes), s.net.now, evs, more, r');
    assert evs + more == [Advertise(key, interferes)];
    var es :| Through(es, s.net.engines[u], s.net.now, evs + more, r'.e);
    assert es[1] == Apply(es[0], s.net.now, (evs + more)[0]);
  }

  // ---- Runs ---------------------------------------------------------------------------

  lemma ActKeeps(s: System, a: Act, s': System, k: SourceKey)
    requires ActTo(s, a, s') && TablesOk(s.net) && Inv(s.net, k) && Harmless(s, a, k)
    requires SeqnosSpanHalf(s.net, k) && SeqnosSpanHalf(s'.net, k)
    ensures TablesOk(s'.net) && Inv(s'.net, k)
  {
    match a
    case Operate(u, op) =>
      var r' :| OneTo(u, op, s.net.now, s.At(u), r') && s' == s.With(u, r');
      var evs, more :| OpTo(u, s.At(u), op, s.net.now, evs, more, r');
      var es :| Through(es, s.net.engines[u], s.net.now, evs + more, r'.e);
      OperateKeeps(s, u, op, evs, more, r', es, k);
    case Other(step) =>
      StepKeepsTables(s.net, step);
      StepKeeps(s.net, k, step);
  }

  lemma {:induction false} SystemInv(trace: seq<System>, acts: seq<Act>, k: SourceKey, i: nat)
    requires SystemRun(trace, acts) && Hypothesised(trace, acts, k) && i < |trace|
    ensures TablesOk(trace[i].net) && Inv(trace[i].net, k)
  {
    if i == 0 {
      InitInv(trace[0].net, k);
    } else {
      SystemInv(trace, acts, k, i - 1);
      ActKeeps(trace[i - 1], acts[i - 1], trace[i], k);
    }
  }

  /** Loop freedom of the operations: however the routers' updates, metric changes, flushes,
      garbage collections, redistributions and sends are interleaved, and whatever messages
      are lost, repeated or delayed, no routers forward in a circle for `k`. */
  lemma SystemLoopFreedom(trace: seq<System>, acts: seq<Act>, k: SourceKey, i: nat, cycle: seq<Node>, via: seq<RouteKey>)
    requires SystemRun(trace, acts) && Hypothesised(trace, acts, k) && i < |trace|
    ensures !Loop(trace[i].net, k, cycle, via)
  {
    SystemInv(trace, acts, k, i);
    InvLoopFree(trace[i].net, k, cycle, via);
  }
}
