/** The BGP session state machine (bgpd/bgp_fsm.c) of a configured peer. */
module PeerFsm {

  datatype Status = Idle | Connect | Active | OpenSent | OpenConfirm | Established | Clearing | Deleted

  datatype Event =
    | BgpStart | BgpStop | TcpOpen | TcpClosed | TcpOpenFailed | TcpFatalError
    | ConnectRetryExpired | HoldTimerExpired | KeepaliveExpired
    | ReceiveOpen | ReceiveKeepalive | ReceiveUpdate | ReceiveNotification | ClearingCompleted

  datatype Handler =
    | Start | Stop | StopWithError | Ignore | ConnectSuccess | ConnectFail | Reconnect | FsmOpen
    | HoldtimeExpire | KeepaliveSend | Establish | FsmKeepalive | FsmUpdate | ClearingDone

  datatype Timer = TStart | TConnect | THold | TKeepalive | TRouteadv

  /** What bgp_connect comes back with: no socket, or a socket and the state of the
      connection attempt. */
  datatype Attempt = NoSocket | Socket(fd: nat)

  /** Settings that may change from event to event.  `suppressed`: shut down or over the
      prefix limit; `inactive`: no address family active; `wait`: waiting for a graceful
      restart; `holdtime`: the negotiated hold time. */
  datatype Config = Config(suppressed: bool, inactive: bool, passive: bool, wait: bool, holdtime: nat)

  datatype Input = Input(event: Event, attempt: Attempt, config: Config)

  /** `clears` counts the calls of bgp_clear_route_all. */
  datatype Peer = Peer(
    status: Status, fd: int, established: nat, dropped: nat, clears: nat, vStart: nat, timers: set<Timer>)

  /** The FSM table. */
  function Table(s: Status, e: Event): (Handler, Status) {
    match s
    case Idle =>
      (match e
       case BgpStart => (Start, Connect)
       case BgpStop => (Stop, Idle) case TcpOpen => (Stop, Idle) case TcpClosed => (Stop, Idle)
       case TcpFatalError => (Stop, Idle)
       case _ => (Ignore, Idle))
    case Connect =>
      (match e
       case BgpStart => (Ignore, Connect)
       case BgpStop => (Stop, Idle)
       case TcpOpen => (ConnectSuccess, OpenSent)
       case TcpClosed => (Stop, Idle)
       case TcpOpenFailed => (ConnectFail, Active)
       case TcpFatalError => (ConnectFail, Idle)
       case ConnectRetryExpired => (Reconnect, Connect)
       case ReceiveNotification => (Stop, Idle)
       case _ => (Ignore, Idle))
    case Active =>
      (match e
       case BgpStart => (Ignore, Active)
       case BgpStop => (Stop, Idle)
       case TcpOpen => (ConnectSuccess, OpenSent)
       case TcpClosed => (Stop, Idle)
       case TcpOpenFailed => (Ignore, Active)
       case ConnectRetryExpired => (Start, Connect)
       case ReceiveNotification => (StopWithError, Idle)
       case _ => (Ignore, Idle))
    case OpenSent =>
      (match e
       case BgpStart => (Ignore, OpenSent)
       case BgpStop => (Stop, Idle)
       case TcpOpen => (Stop, Active) case TcpClosed => (Stop, Active)
       case TcpOpenFailed => (Stop, Active) case TcpFatalError => (Stop, Active)
       case HoldTimerExpired => (HoldtimeExpire, Idle)
       case ReceiveOpen => (FsmOpen, OpenConfirm)
       case ReceiveNotification => (StopWithError, Idle)
       case _ => (Ignore, Idle))
    case OpenConfirm =>
      (match e
       case BgpStart => (Ignore, OpenConfirm)
       case BgpStop => (Stop, Idle) case TcpOpen => (Stop, Idle) case TcpClosed => (Stop, Idle)
       case TcpOpenFailed => (Stop, Idle) case TcpFatalError => (Stop, Idle)
       case HoldTimerExpired => (HoldtimeExpire, Idle)
       case KeepaliveExpired => (Ignore, OpenConfirm)
       case ReceiveKeepalive => (Establish, Established)
       case ReceiveNotification => (StopWithError, Idle)
       case _ => (Ignore, Idle))
    case Established =>
      (match e
       case BgpStart => (Ignore, Established)
       case HoldTimerExpired => (HoldtimeExpire, Clearing)
       case KeepaliveExpired => (KeepaliveSend, Established)
       case ReceiveKeepalive => (FsmKeepalive, Established)
       case ReceiveUpdate => (FsmUpdate, Established)
       case ReceiveNotification => (StopWithError, Clearing)
       case ClearingCompleted => (Ignore, Idle)
       case _ => (Stop, Clearing))
    case Clearing =>
      (match e
       case BgpStart => (Ignore, Clearing)
       case ClearingCompleted => (ClearingDone, Idle)
       case _ => (Stop, Clearing))
    case Deleted => (Ignore, Deleted)
  }

  // ---- Handlers -----------------------------------------------------------------------

  /** bgp_stop */
  function Stopped(p: Peer): Peer {
    p.(dropped := if p.status == Established then p.dropped + 1 else p.dropped,
       timers := {}, fd := if p.fd >= 0 then -1 else p.fd)
  }

  /** bgp_stop_with_error */
  function StoppedWithError(p: Peer): Peer {
    Stopped(p.(vStart := if p.vStart * 2 >= 120 then 120 else p.vStart * 2))
  }

  /** bgp_start: false when it returns -1. */
  function Started(p: Peer, i: Input): (Peer, bool) {
    if i.config.suppressed then (p, false)
    else if i.config.passive then (p, true)
    else (p.(fd := if i.attempt.NoSocket? then -1 else i.attempt.fd), true)
  }

  /** bgp_fsm_change_status */
  function Changed(p: Peer, s: Status): Peer {
    p.(status := s, clears := if s == Clearing || s == Deleted then p.clears + 1 else p.clears)
  }

  /** bgp_establish */
  function NowEstablished(p: Peer): Peer {
    var q := Changed(p.(established := p.established + 1, vStart := 5), Established);
    q.(timers := q.timers + {TRouteadv})
  }

  /** The handler's effect; false when it returns -1. */
  function Handled(p: Peer, h: Handler, i: Input): (Peer, bool) {
    match h
    case Start => Started(p, i)
    case Stop => (Stopped(p), true)
    case StopWithError => (StoppedWithError(p), true)
    case Ignore => (p, true)
    case ConnectSuccess => (p, p.fd >= 0)
    case ConnectFail => (Stopped(p), true)
    case Reconnect => (Started(Stopped(p), i).0, true)
    case FsmOpen => (p.(timers := p.timers - {THold}), true)
    case HoldtimeExpire => (Stopped(p), true)
    case KeepaliveSend => (p, true)
    case Establish => (NowEstablished(p), true)
    case FsmKeepalive => (p.(timers := p.timers - {THold}), true)
    case FsmUpdate => (p.(timers := p.timers - {THold}), true)
    case ClearingDone => (Stopped(p), true)
  }

  /** bgp_timer_set */
  function TimersSet(p: Peer, c: Config): Peer {
    var session := if c.holdtime == 0 then {} else {THold, TKeepalive};
    var t := match p.status
      case Idle => if c.suppressed || c.inactive then {} else {TStart}
      case Connect => {TConnect}
      case Active => if c.passive || c.wait then {} else {TConnect}
      case OpenSent => if c.holdtime == 0 then {} else {THold}
      case OpenConfirm => session
      case Established => session + (p.timers * {TRouteadv})
      case Clearing => {}
      case Deleted => {};
    p.(timers := t)
  }

  /** bgp_event */
  function Step(p: Peer, i: Input): Peer {
    var (h, next) := Table(p.status, i.event);
    var (q, go) := Handled(p, h, i);
    if !go then q
    else TimersSet(if next != q.status then Changed(q, next) else q, i.config)
  }

  // ---- Runs ---------------------------------------------------------------------------

  predicate Fresh(p: Peer) {
    p.status == Idle && p.established == 0 && p.dropped == 0 && p.fd == -1 && p.timers <= {TStart}
  }

  ghost predicate Run(trace: seq<Peer>, inputs: seq<Input>) {
    && |trace| == |inputs| + 1 && Fresh(trace[0])
    && forall i | 0 <= i < |inputs| :: trace[i + 1] == Step(trace[i], inputs[i])
  }

  lemma RunAppend(trace: seq<Peer>, inputs: seq<Input>, i: Input)
    requires Run(trace, inputs)
    ensures Run(trace + [Step(trace[|inputs|], i)], inputs + [i])
  {
  }

  function Up(p: Peer): nat { if p.status == Established then 1 else 0 }

  function Allowed(s: Status): set<Timer> {
    match s
    case Idle => {TStart}
    case Connect => {TConnect}
    case Active => {TConnect}
    case OpenSent => {THold}
    case OpenConfirm => {THold, TKeepalive}
    case Established => {THold, TKeepalive, TRouteadv}
    case Clearing => {}
    case Deleted => {}
  }

  /** The socket is open while a session is being set up or is up, and closed while its
      routes are being cleared; only timers of the current state run. */
  predicate Sound(p: Peer) {
    && (p.status == OpenSent || p.status == OpenConfirm || p.status == Established ==> p.fd >= 0)
    && p.fd >= -1 && (p.status == Clearing ==> p.fd == -1)
    && p.timers <= Allowed(p.status)
    && p.status != Deleted
  }

  /** What the table says about sessions coming up and going down. */
  lemma TableFacts(s: Status, e: Event)
    ensures var (h, next) := Table(s, e);
            && (h == Establish <==> s == OpenConfirm && e == ReceiveKeepalive)
            && (next == Established ==> s == Established || h == Establish)
            && (h == Establish ==> next == Established)
            && (next == OpenConfirm && s != OpenConfirm ==> s == OpenSent && e == ReceiveOpen)
            && (next == OpenSent && s != OpenSent ==> h == ConnectSuccess)
            && (s == Established && e != ClearingCompleted ==> next == Established || next == Clearing)
            && (s == Established && next == Established ==> h == Ignore || h == KeepaliveSend || h == FsmKeepalive || h == FsmUpdate)
            && (s == Established && next == Clearing ==> h == Stop || h == StopWithError || h == HoldtimeExpire)
            && (next == Clearing ==> s == Established || s == Clearing)
            && (next == Deleted ==> s == Deleted)
  {
  }

  lemma TableSteady(s: Status, e: Event)
    ensures var (h, next) := Table(s, e);
            && (s == Clearing && next == Clearing ==> h == Ignore || h == Stop)
            && (s == Established && e == ClearingCompleted ==> h == Ignore && next == Idle)
            && (next == s == OpenSent || next == s == OpenConfirm ==> h == Ignore)
            && (next == OpenConfirm && s == OpenSent ==> h == FsmOpen)
            && (h == Start || h == Reconnect || h == ConnectSuccess ==> s == Idle || s == Connect || s == Active)
            && (h == Reconnect || h == Start ==> next == Connect)
            && (h == ConnectSuccess ==> next == OpenSent)
  {
  }

  /** What the handlers do to the counters and the socket. */
  lemma HandlerFacts(p: Peer, h: Handler, i: Input)
    ensures var q := Handled(p, h, i).0;
            && q.status == (if h == Establish then Established else p.status)
            && q.clears == p.clears
            && q.established == p.established + (if h == Establish then 1 else 0)
            && q.dropped == p.dropped + (if p.status == Established && Stops(h) then 1 else 0)
            && (p.fd >= -1 && Stops(h) && h != Reconnect ==> q.fd == -1)
            && (!Stops(h) && h != Start ==> q.fd == p.fd)
  {
  }

  predicate Stops(h: Handler) {
    h == Stop || h == StopWithError || h == ConnectFail || h == Reconnect || h == HoldtimeExpire || h == ClearingDone
  }

  /** bgp_event moves to the table's next state unless the handler objects. */
  lemma StepFacts(p: Peer, i: Input)
    ensures var (h, next) := Table(p.status, i.event);
            var (q, go) := Handled(p, h, i);
            var r := Step(p, i);
            && r.status == (if go then next else p.status)
            && r.fd == q.fd && r.established == q.established && r.dropped == q.dropped
            && r.clears == p.clears + (if go && next != q.status && (next == Clearing || next == Deleted) then 1 else 0)
  {
    TableFacts(p.status, i.event);
    HandlerFacts(p, Table(p.status, i.event).0, i);
  }

  lemma StepTimers(p: Peer, i: Input)
    requires p.timers <= Allowed(p.status)
    ensures Step(p, i).timers <= Allowed(Step(p, i).status)
  {
    var (h, next) := Table(p.status, i.event);
    var (q, go) := Handled(p, h, i);
    TableFacts(p.status, i.event);
    HandlerFacts(p, h, i);
    if !go { assert q.timers <= p.timers; }
  }

  lemma StepSound(p: Peer, i: Input)
    requires Sound(p)
    ensures Sound(Step(p, i))
  {
    TableFacts(p.status, i.event);
    TableSteady(p.status, i.event);
    HandlerFacts(p, Table(p.status, i.event).0, i);
    StepFacts(p, i);
    StepTimers(p, i);
  }

  /** Sessions counted beyond those dropped and the one that is up. */
  function Surplus(p: Peer): int { p.established - p.dropped - Up(p) }

  predicate Loses(p: Peer, i: Input) { p.status == Established && i.event == ClearingCompleted }

  /** The surplus grows exactly by a Clearing_Completed delivered to an established peer, which
      ends the session without counting it as dropped. */
  lemma StepBalance(p: Peer, i: Input)
    ensures Surplus(Step(p, i)) == Surplus(p) + if Loses(p, i) then 1 else 0
  {
    TableFacts(p.status, i.event);
    TableSteady(p.status, i.event);
    HandlerFacts(p, Table(p.status, i.event).0, i);
    StepFacts(p, i);
  }

  /** How often, in the first `n` events, Clearing_Completed came to an established peer. */
  ghost function Lost(trace: seq<Peer>, inputs: seq<Input>, n: nat): nat
    requires n <= |inputs| < |trace|
  {
    if n == 0 then 0 else Lost(trace, inputs, n - 1) + if Loses(trace[n - 1], inputs[n - 1]) then 1 else 0
  }

  /** What a step does to the surplus and to soundness. */
  predicate Accounted(p: Peer, i: Input, q: Peer) {
    Surplus(q) == Surplus(p) + (if Loses(p, i) then 1 else 0) && (Sound(p) ==> Sound(q))
  }

  ghost predicate AllAccounted(trace: seq<Peer>, inputs: seq<Input>) {
    && |trace| == |inputs| + 1 && Surplus(trace[0]) == 0 && Sound(trace[0])
    && forall i | 0 <= i < |inputs| :: Accounted(trace[i], inputs[i], trace[i + 1])
  }

  lemma RunIsAccounted(trace: seq<Peer>, inputs: seq<Input>)
    requires Run(trace, inputs)
    ensures AllAccounted(trace, inputs)
  {
    forall i | 0 <= i < |inputs|
      ensures Accounted(trace[i], inputs[i], trace[i + 1])
    {
      StepAccounted(trace[i], inputs[i]);
    }
  }

  lemma StepAccounted(p: Peer, i: Input)
    ensures Accounted(p, i, Step(p, i))
  {
    StepBalance(p, i);
    if Sound(p) { StepSound(p, i); }
  }

  lemma {:induction false} AccountedUpTo(trace: seq<Peer>, inputs: seq<Input>, n: nat)
    requires AllAccounted(trace, inputs) && n <= |inputs|
    ensures Surplus(trace[n]) == Lost(trace, inputs, n) && Sound(trace[n])
  {
    if n > 0 {
      AccountedUpTo(trace, inputs, n - 1);
      assert Accounted(trace[n - 1], inputs[n - 1], trace[n]);
    }
  }

  lemma {:induction false} NoneLost(trace: seq<Peer>, inputs: seq<Input>, n: nat)
    requires |trace| == |inputs| + 1 && n <= |inputs|
    ensures Lost(trace, inputs, n) == 0 <==> forall i | 0 <= i < n :: !Loses(trace[i], inputs[i])
  {
    if n > 0 { NoneLost(trace, inputs, n - 1); }
  }

  /** In every run the socket and the timers fit the state, and the sessions counted are those
      dropped and the one that is up if and only if no Clearing_Completed came to an
      established peer; each one that did left a session uncounted. */
  lemma RunInvariant(trace: seq<Peer>, inputs: seq<Input>, n: nat)
    requires Run(trace, inputs) && n < |trace|
    ensures Sound(trace[n]) && trace[n].established == trace[n].dropped + Up(trace[n]) + Lost(trace, inputs, n)
    ensures trace[n].established == trace[n].dropped + Up(trace[n]) <==>
              forall i | 0 <= i < n :: !Loses(trace[i], inputs[i])
  {
    RunIsAccounted(trace, inputs);
    AccountedUpTo(trace, inputs, n);
    NoneLost(trace, inputs, n);
  }

  const Normally := Config(false, false, false, false, 180)

  /** A Clearing_Completed that comes to an established peer: a run after which one session
      has been counted, none dropped, and none is up. */
  lemma SessionLost() returns (trace: seq<Peer>, inputs: seq<Input>)
    ensures Run(trace, inputs) && |inputs| == 5 && Loses(trace[4], inputs[4])
    ensures var q := trace[|inputs|];
            q.status == Idle && q.established == 1 && q.dropped == 0 && q.established != q.dropped + Up(q)
  {
    var at := (e: Event) => Input(e, Socket(3), Normally);
    inputs := [at(BgpStart), at(TcpOpen), at(ReceiveOpen), at(ReceiveKeepalive), at(ClearingCompleted)];
    var p0 := Peer(Idle, -1, 0, 0, 0, 5, {});
    var p1 := Step(p0, inputs[0]);
    var p2 := Step(p1, inputs[1]);
    var p3 := Step(p2, inputs[2]);
    var p4 := Step(p3, inputs[3]);
    assert p4.status == Established && p4.established == 1 && p4.dropped == 0;
    trace := [p0, p1, p2, p3, p4, Step(p4, inputs[4])];
  }

  /** From `p` to `q`: Established is entered only from OpenConfirm on a KEEPALIVE,
      OpenConfirm only from OpenSent on an OPEN; Established is left only for Clearing, with
      the socket closed and a new clearing of all routes, unless a session is lost. */
  predicate Gate(p: Peer, i: Input, q: Peer) {
    && (p.status != Established && q.status == Established ==> p.status == OpenConfirm && i.event == ReceiveKeepalive)
    && (p.status != OpenConfirm && q.status == OpenConfirm ==> p.status == OpenSent && i.event == ReceiveOpen)
    && (p.status == Established && q.status != Established && !Loses(p, i) ==>
          q.status == Clearing && q.fd == -1 && q.clears == p.clears + 1)
    && q.clears >= p.clears
  }

  lemma StepGates(p: Peer, i: Input)
    requires p.fd >= -1
    ensures Gate(p, i, Step(p, i))
  {
    TableFacts(p.status, i.event);
    HandlerFacts(p, Table(p.status, i.event).0, i);
    StepFacts(p, i);
  }

  ghost predicate Gated(trace: seq<Peer>, inputs: seq<Input>) {
    && |trace| == |inputs| + 1 && trace[0].status == Idle
    && forall i | 0 <= i < |inputs| :: Gate(trace[i], inputs[i], trace[i + 1])
  }

  lemma RunIsGated(trace: seq<Peer>, inputs: seq<Input>)
    requires Run(trace, inputs)
    ensures Gated(trace, inputs)
  {
    forall i | 0 <= i < |inputs|
      ensures Gate(trace[i], inputs[i], trace[i + 1])
    {
      RunInvariant(trace, inputs, i);
      StepGates(trace[i], inputs[i]);
    }
  }

  /** The OPEN that led to the OpenConfirm state at time i. */
  lemma {:induction false} OpenBefore(trace: seq<Peer>, inputs: seq<Input>, i: nat) returns (j: nat)
    requires Gated(trace, inputs) && i < |trace| && trace[i].status == OpenConfirm
    ensures j < i && trace[j].status == OpenSent && inputs[j].event == ReceiveOpen
    ensures forall m | j < m <= i :: trace[m].status == OpenConfirm
  {
    assert Gate(trace[i - 1], inputs[i - 1], trace[i]);
    if trace[i - 1].status == OpenConfirm {
      j := OpenBefore(trace, inputs, i - 1);
    } else {
      j := i - 1;
    }
  }

  /** A session comes up only after an OPEN in OpenSent and then a KEEPALIVE in OpenConfirm,
      with the peer staying in OpenConfirm in between. */
  lemma EstablishedAfterHandshake(trace: seq<Peer>, inputs: seq<Input>, i: nat)
    requires Run(trace, inputs) && i < |inputs|
    requires trace[i].status != Established && trace[i + 1].status == Established
    ensures trace[i].status == OpenConfirm && inputs[i].event == ReceiveKeepalive
    ensures exists j :: 0 <= j < i && trace[j].status == OpenSent && inputs[j].event == ReceiveOpen &&
                        forall m | j < m <= i :: trace[m].status == OpenConfirm
  {
    RunIsGated(trace, inputs);
    assert Gate(trace[i], inputs[i], trace[i + 1]);
    var j := OpenBefore(trace, inputs, i);
  }

  lemma {:induction false} ClearsGrow(trace: seq<Peer>, inputs: seq<Input>, i: nat, k: nat)
    requires Gated(trace, inputs) && i <= k < |trace|
    ensures trace[i].clears <= trace[k].clears
  {
    if i < k {
      ClearsGrow(trace, inputs, i, k - 1);
      assert Gate(trace[k - 1], inputs[k - 1], trace[k]);
    }
  }

  /** The moment a session that is up at time i and down at time m went down. */
  lemma {:induction false} WentDown(trace: seq<Peer>, inputs: seq<Input>, i: nat, m: nat) returns (j: nat)
    requires Gated(trace, inputs) && i < m < |trace| && forall x | i <= x < m :: !Loses(trace[x], inputs[x])
    requires trace[i].status == Established && trace[m].status != Established
    ensures i < j <= m && trace[j].status == Clearing && trace[j].fd == -1 && trace[i].clears < trace[j].clears
    decreases m
  {
    if trace[m - 1].status == Established {
      assert Gate(trace[m - 1], inputs[m - 1], trace[m]);
      ClearsGrow(trace, inputs, i, m - 1);
      j := m;
    } else {
      j := WentDown(trace, inputs, i, m - 1);
    }
  }

  /** Between two sessions the socket is closed and all routes are cleared, unless the first
      was lost to a Clearing_Completed. */
  lemma BetweenSessions(trace: seq<Peer>, inputs: seq<Input>, i: nat, m: nat, k: nat)
    requires Run(trace, inputs) && i < m < k < |trace| && forall x | i <= x < m :: !Loses(trace[x], inputs[x])
    requires trace[i].status == Established && trace[m].status != Established && trace[k].status == Established
    ensures exists j :: i < j <= m && trace[j].status == Clearing && trace[j].fd == -1 &&
                        trace[i].clears < trace[j].clears <= trace[k].clears
  {
    RunIsGated(trace, inputs);
    var j := WentDown(trace, inputs, i, m);
    ClearsGrow(trace, inputs, j, k);
  }

  // ---- What each event does ------------------------------------------------------------

  /** The OPEN has been sent and the session is being set up or is up. */
  predicate InSession(s: Status) { s == OpenSent || s == OpenConfirm || s == Established }

  /** Events that must end a session. */
  predicate Fatal(e: Event) {
    e == BgpStop || e == TcpClosed || e == TcpFatalError || e == HoldTimerExpired || e == ReceiveNotification
  }

  /** Events that an established session outlives. */
  predicate Harmless(e: Event) { e == BgpStart || e == KeepaliveExpired || e == ReceiveKeepalive || e == ReceiveUpdate }

  /** Where a step leads, by the state that it leads to; what is not listed goes to Idle. */
  lemma StatusMoves(p: Peer, i: Input)
    ensures var s, e, t := p.status, i.event, Step(p, i).status;
            && (t == Established <==> (s == OpenConfirm && e == ReceiveKeepalive) || (s == Established && Harmless(e)))
            && (t == OpenConfirm <==> || (s == OpenSent && e == ReceiveOpen)
                                      || (s == OpenConfirm && (e == BgpStart || e == KeepaliveExpired)))
            && (t == OpenSent <==> || ((s == Connect || s == Active) && e == TcpOpen && p.fd >= 0)
                                   || (s == OpenSent && e == BgpStart))
            && (t == Connect <==> || (s == Idle && e == BgpStart && !i.config.suppressed)
                                  || (s == Active && e == ConnectRetryExpired && !i.config.suppressed)
                                  || (s == Connect && (e == BgpStart || e == ConnectRetryExpired || (e == TcpOpen && p.fd < 0))))
            && (t == Clearing <==> || (s == Established && !Harmless(e) && e != ClearingCompleted)
                                   || (s == Clearing && e != ClearingCompleted))
            && (t == Deleted <==> s == Deleted)
  {
    TableFacts(p.status, i.event);
    StepFacts(p, i);
  }

  lemma ActiveMoves(p: Peer, i: Input)
    ensures var s, e, t := p.status, i.event, Step(p, i).status;
            t == Active <==>
              || (s == Connect && e == TcpOpenFailed)
              || (s == OpenSent && (e == TcpOpen || e == TcpClosed || e == TcpOpenFailed || e == TcpFatalError))
              || (s == Active && (|| e == BgpStart || e == TcpOpenFailed || (e == TcpOpen && p.fd < 0)
                                  || (e == ConnectRetryExpired && i.config.suppressed)))
  {
    StepFacts(p, i);
  }

  /** A connection is attempted. */
  predicate Opens(p: Peer, i: Input) {
    && !i.config.suppressed && !i.config.passive
    && (|| (p.status == Idle && i.event == BgpStart)
        || ((p.status == Connect || p.status == Active) && i.event == ConnectRetryExpired))
  }

  /** The event closes the socket in this state. */
  predicate Closes(s: Status, e: Event) {
    && s != Deleted
    && match e
       case BgpStart => false
       case BgpStop => true
       case TcpClosed => true
       case TcpOpen => s != Connect && s != Active
       case TcpFatalError => s != Active
       case TcpOpenFailed => s != Idle && s != Active
       case ConnectRetryExpired => s == Connect || s == Established || s == Clearing
       case HoldTimerExpired => InSession(s) || s == Clearing
       case ReceiveOpen => s == Established || s == Clearing
       case ReceiveNotification => s != Idle
       case _ => s == Clearing
  }

  lemma SocketMoves(p: Peer, i: Input)
    ensures Step(p, i).fd == if Opens(p, i) then (if i.attempt.NoSocket? then -1 else i.attempt.fd)
                             else if Closes(p.status, i.event) && p.fd >= 0 then -1
                             else p.fd
  {
    StepFacts(p, i);
  }

  /** Sessions are counted when they come up, and as dropped when they go to Clearing; the routes
      are cleared exactly then. */
  lemma CounterMoves(p: Peer, i: Input)
    requires p.status != Deleted
    ensures var q := Step(p, i);
            && q.established == p.established + (if p.status != Established && q.status == Established then 1 else 0)
            && q.dropped == p.dropped + (if p.status == Established && q.status == Clearing then 1 else 0)
            && q.clears == p.clears + (if p.status == Established && q.status == Clearing then 1 else 0)
  {
    TableFacts(p.status, i.event);
    TableSteady(p.status, i.event);
    HandlerFacts(p, Table(p.status, i.event).0, i);
    StepFacts(p, i);
  }

  /** After a NOTIFICATION on a connection the next start waits twice as long, up to two minutes;
      a session that comes up sets the wait back to five seconds. */
  lemma DelayMoves(p: Peer, i: Input)
    ensures var doubles := i.event == ReceiveNotification && (p.status == Active || InSession(p.status));
            Step(p, i).vStart == if doubles then (if 2 * p.vStart < 120 then 2 * p.vStart else 120)
                                 else if p.status == OpenConfirm && i.event == ReceiveKeepalive then 5
                                 else p.vStart
  {
  }

  /** The event is refused: a suppressed peer is not started, and a connection without socket is
      none. */
  predicate Refused(p: Peer, i: Input) {
    || (i.config.suppressed && ((p.status == Idle && i.event == BgpStart) || (p.status == Active && i.event == ConnectRetryExpired)))
    || ((p.status == Connect || p.status == Active) && i.event == TcpOpen && p.fd < 0)
  }

  /** Which timers run after a step, timer by timer. */
  lemma TimersAfter(p: Peer, i: Input)
    ensures var q, c := Step(p, i), i.config;
            if Refused(p, i) then q.timers == p.timers
            else
              && (TStart in q.timers <==> q.status == Idle && !c.suppressed && !c.inactive)
              && (TConnect in q.timers <==> q.status == Connect || (q.status == Active && !c.passive && !c.wait))
              && (THold in q.timers <==> c.holdtime > 0 && InSession(q.status))
              && (TKeepalive in q.timers <==> c.holdtime > 0 && (q.status == OpenConfirm || q.status == Established))
              && (TRouteadv in q.timers <==>
                    q.status == Established && (p.status != Established || TRouteadv in p.timers))
  {
    TableFacts(p.status, i.event);
    StepFacts(p, i);
  }

  /** A fatal event ends a session, whatever its stage, and closes its socket. */
  lemma FatalEnds(p: Peer, i: Input)
    requires InSession(p.status) && Fatal(i.event) && p.fd >= -1
    ensures !InSession(Step(p, i).status) && Step(p, i).fd == -1
  {
    StatusMoves(p, i);
    SocketMoves(p, i);
  }

  lemma {:induction false} OpenSince(trace: seq<Peer>, inputs: seq<Input>, a: nat, i: nat) returns (m: nat)
    requires Gated(trace, inputs) && a < i < |trace|
    requires trace[a].status != OpenConfirm && trace[a].status != Established
    requires trace[i].status == OpenConfirm || trace[i].status == Established
    ensures a <= m < i && trace[m].status == OpenSent && inputs[m].event == ReceiveOpen
  {
    assert Gate(trace[i - 1], inputs[i - 1], trace[i]);
    if trace[i - 1].status == OpenConfirm || trace[i - 1].status == Established {
      m := OpenSince(trace, inputs, a, i - 1);
    } else {
      m := i - 1;
    }
  }

  /** After a fatal event no session is up again without a new OPEN in OpenSent. */
  lemma FatalNeedsNewOpen(trace: seq<Peer>, inputs: seq<Input>, j: nat, i: nat)
    requires Run(trace, inputs) && j < i < |trace|
    requires InSession(trace[j].status) && Fatal(inputs[j].event) && trace[i].status == Established
    ensures exists m :: j < m < i && trace[m].status == OpenSent && inputs[m].event == ReceiveOpen
  {
    RunIsGated(trace, inputs);
    RunInvariant(trace, inputs, j);
    FatalEnds(trace[j], inputs[j]);
    var m := OpenSince(trace, inputs, j + 1, i);
  }

  /** A peer that is allowed to start and gets a connection, an OPEN and a KEEPALIVE is up. */
  lemma HandshakeSucceeds(p: Peer, c: Config, fd: nat, a: Attempt)
    requires p.status == Idle && !c.suppressed && !c.passive
    ensures var up := Step(Step(Step(Step(p, Input(BgpStart, Socket(fd), c)), Input(TcpOpen, a, c)),
                                Input(ReceiveOpen, a, c)), Input(ReceiveKeepalive, a, c));
            up.status == Established && up.fd == fd && up.established == p.established + 1
  {
    var p1 := Step(p, Input(BgpStart, Socket(fd), c));
    StatusMoves(p, Input(BgpStart, Socket(fd), c));
    SocketMoves(p, Input(BgpStart, Socket(fd), c));
    CounterMoves(p, Input(BgpStart, Socket(fd), c));
    var p2 := Step(p1, Input(TcpOpen, a, c));
    Moves(p1, Input(TcpOpen, a, c));
    var p3 := Step(p2, Input(ReceiveOpen, a, c));
    Moves(p2, Input(ReceiveOpen, a, c));
    Moves(p3, Input(ReceiveKeepalive, a, c));
  }

  lemma Moves(p: Peer, i: Input)
    requires InSession(p.status) || p.status == Connect
    requires !Closes(p.status, i.event) && !Opens(p, i)
    ensures Step(p, i).fd == p.fd
    ensures p.status == Connect && i.event == TcpOpen && p.fd >= 0 ==> Step(p, i).status == OpenSent
    ensures p.status == OpenSent && i.event == ReceiveOpen ==> Step(p, i).status == OpenConfirm
    ensures p.status == OpenConfirm && i.event == ReceiveKeepalive ==> Step(p, i).status == Established
    ensures Step(p, i).established == p.established + if p.status != Established && Step(p, i).status == Established then 1 else 0
  {
    StatusMoves(p, i);
    SocketMoves(p, i);
    CounterMoves(p, i);
  }

  /** A peer that falls back to Idle has closed its socket if and only if it had none or the event
      is one that closes it; one that is out of place, say a KEEPALIVE in OpenSent, does not. */
  lemma IdleSocket(p: Peer, i: Input)
    requires Sound(p) && p.status != Idle && Step(p, i).status == Idle
    ensures Step(p, i).fd == -1 <==> p.fd == -1 || Closes(p.status, i.event)
  {
    StatusMoves(p, i);
    SocketMoves(p, i);
  }

  lemma IdleWithSocket()
    ensures var p := Peer(OpenSent, 3, 0, 0, 0, 5, {THold});
            var q := Step(p, Input(ReceiveKeepalive, NoSocket, Normally));
            Sound(p) && q.status == Idle && q.fd == 3
  {
  }

  // ---- The peer object -----------------------------------------------------------------

  /** A struct peer, changed in place by the handlers. */
  class Session {
    var status: Status
    var fd: int
    var established: nat
    var dropped: nat
    var clears: nat
    var vStart: nat
    var timers: set<Timer>

    function View(): Peer
      reads this
    {
      Peer(status, fd, established, dropped, clears, vStart, timers)
    }

    constructor ()
      ensures Fresh(View()) && Sound(View())
    {
      status, fd, established, dropped, clears, vStart, timers := Idle, -1, 0, 0, 0, 5, {};
    }

    /** The socket is closed and no timer runs; a session that was up counts as dropped. */
    method BgpStop()
      modifies `dropped, `timers, `fd
      ensures (fd == -1 || old(fd) < 0) && timers == {} && dropped == old(dropped) + Up(old(View()))
      ensures View() == Stopped(old(View()))
    {
      if status == Established { dropped := dropped + 1; }
      timers := {};
      if fd >= 0 { fd := -1; }
    }

    /** As bgp_stop, and the next attempt waits twice as long, up to two minutes. */
    method BgpStopWithError()
      modifies `dropped, `timers, `fd, `vStart
      ensures vStart <= 120 && (vStart == 2 * old(vStart) || vStart == 120 <= 2 * old(vStart))
      ensures View() == StoppedWithError(old(View()))
    {
      vStart := vStart * 2;
      if vStart >= 60 * 2 { vStart := 60 * 2; }
      BgpStop();
    }

    /** Only the socket may change, and only for an active peer that is not suppressed. */
    method BgpStart(i: Input) returns (ok: bool)
      modifies `fd
      ensures ok <==> !i.config.suppressed
      ensures i.config.suppressed || i.config.passive ==> fd == old(fd)
      ensures (View(), ok) == Started(old(View()), i)
    {
      if i.config.suppressed { return false; }
      if i.config.passive { return true; }
      match i.attempt {
        case NoSocket => fd := -1;
        case Socket(f) => fd := f;
      }
      ok := true;
    }

    /** The routes are cleared exactly on entering Clearing or Deleted. */
    method ChangeStatus(s: Status)
      modifies `status, `clears
      ensures status == s && clears >= old(clears) && (clears > old(clears) <==> s == Clearing || s == Deleted)
      ensures View() == Changed(old(View()), s)
    {
      if s == Clearing || s == Deleted { clears := clears + 1; }
      status := s;
    }

    /** One more session, and the timer for advertisements runs. */
    method BgpEstablish()
      modifies `vStart, `established, `status, `clears, `timers
      ensures status == Established && established == old(established) + 1 && TRouteadv in timers
      ensures View() == NowEstablished(old(View()))
    {
      vStart := 5;
      established := established + 1;
      ChangeStatus(Established);
      timers := timers + {TRouteadv};
    }

    /** Only timers of the state run; none for holding or keepalives without a hold time. */
    method TimerSet(c: Config)
      modifies `timers
      ensures timers <= Allowed(status) && (c.holdtime == 0 ==> timers !! {THold, TKeepalive})
      ensures View() == TimersSet(old(View()), c)
    {
      var running := timers * {TRouteadv};
      timers := {};
      match status {
        case Idle => if !c.suppressed && !c.inactive { timers := {TStart}; }
        case Connect => timers := {TConnect};
        case Active => if !c.passive && !c.wait { timers := {TConnect}; }
        case OpenSent => if c.holdtime != 0 { timers := {THold}; }
        case OpenConfirm => if c.holdtime != 0 { timers := {THold, TKeepalive}; }
        case Established =>
          timers := running;
          if c.holdtime != 0 { timers := {THold, TKeepalive} + timers; }
        case Clearing =>
        case Deleted =>
      }
    }

    method Dispatch(h: Handler, i: Input) returns (ok: bool)
      modifies this
      ensures (View(), ok) == Handled(old(View()), h, i)
    {
      ok := true;
      match h {
        case Start => ok := BgpStart(i);
        case Stop => BgpStop();
        case StopWithError => BgpStopWithError();
        case Ignore =>
        case ConnectSuccess => ok := fd >= 0;
        case ConnectFail => BgpStop();
        case Reconnect =>
          BgpStop();
          var ignored := BgpStart(i);
        case FsmOpen => timers := timers - {THold};
        case HoldtimeExpire => BgpStop();
        case KeepaliveSend =>
        case Establish => BgpEstablish();
        case FsmKeepalive => timers := timers - {THold};
        case FsmUpdate => timers := timers - {THold};
        case ClearingDone => BgpStop();
      }
    }

    /** bgp_event */
    method BgpEvent(i: Input)
      modifies this
      ensures View() == Step(old(View()), i)
      ensures old(Sound(View())) ==> Sound(View())
    {
      var (h, next) := Table(status, i.event);
      ghost var before := View();
      var ok := Dispatch(h, i);
      if ok {
        if next != status { ChangeStatus(next); }
        TimerSet(i.config);
      }
      if Sound(before) { StepSound(before, i); }
    }

    /** A new peer handles any events: what it goes through is a run, so the socket and the
        timers fit its state and the sessions counted are those dropped, the one that is up,
        and those lost to a Clearing_Completed. */
    method HandleAll(inputs: seq<Input>) returns (ghost trace: seq<Peer>)
      requires Fresh(View())
      modifies this
      ensures Run(trace, inputs) && trace[0] == old(View()) && trace[|inputs|] == View()
      ensures Sound(View()) && established == dropped + Up(View()) + Lost(trace, inputs, |inputs|)
    {
      trace := [View()];
      for n := 0 to |inputs|
        invariant Run(trace, inputs[..n]) && trace[0] == old(View()) && trace[n] == View()
      {
        BgpEvent(inputs[n]);
        RunAppend(trace, inputs[..n], inputs[n]);
        assert inputs[..n] + [inputs[n]] == inputs[..n + 1];
        trace := trace + [View()];
      }
      assert inputs[..|inputs|] == inputs;
      RunInvariant(trace, inputs, |inputs|);
    }
  }
}
