/** The entities of babeld's routing engine and its pure decision functions. */
module BabelTypes {
  import opened Bytes
  import opened Seqno

  const INFINITY: u16 := 0xFFFF
  const SOURCE_GC_TIME := 200

  type RouterId = seq<byte>
  type Addr = seq<byte>

  /** A destination: 16 prefix bytes (masked) and a prefix length. */
  datatype Dest = Dest(prefix: seq<byte>, plen: nat)

  datatype SourceKey = SourceKey(id: RouterId, dest: Dest)

  /** The feasibility distance kept for a source. */
  datatype Source = Source(seqno: u16, metric: u16, time: int)

  datatype Neighbour = Neighbour(address: Addr, ifindex: int)

  datatype RouteKey = RouteKey(dest: Dest, neigh: Neighbour, nexthop: Addr)

  datatype Route = Route(
    src: SourceKey, neigh: Neighbour, nexthop: Addr,
    seqno: u16, refmetric: u16, cost: u16, addMetric: u16,
    time: int, holdTime: u16, installed: bool)
  {
    function Key(): RouteKey { RouteKey(src.dest, neigh, nexthop) }

    /** route_metric */
    function Metric(): u16 {
      if refmetric + cost + addMetric < INFINITY then refmetric + cost + addMetric else INFINITY
    }

    /** route_metric_noninterfering, `factor` being diversity_factor */
    function MetricNoninterfering(factor: nat): u16 {
      var m := refmetric + (factor * cost + 128) / 256 + addMetric;
      var m' := if m <= refmetric + 1 then refmetric + 1 else m;
      if m' < INFINITY then m' else INFINITY
    }

    /** route_expired */
    predicate Expired(now: int) { time < now - holdTime }
  }

  predicate Stale(src: Source, now: int) { src.time < now - SOURCE_GC_TIME }

  /** (s, m) is a strictly better feasibility distance than (s', m'). */
  predicate Better(s: u16, m: u16, s': u16, m': u16) {
    SeqnoCompare(s, s') > 0 || (s == s' && m < m')
  }

  predicate AtLeast(s: u16, m: u16, s': u16, m': u16) {
    Better(s, m, s', m') || (s == s' && m == m')
  }

  /** update_feasible: section 3.5.1 of RFC 6126. */
  predicate UpdateFeasible(src: Source, now: int, seqno: u16, refmetric: u16) {
    || Stale(src, now)
    || refmetric >= INFINITY
    || SeqnoCompare(seqno, src.seqno) > 0
    || (src.seqno == seqno && refmetric < src.metric)
  }

  /** update_source: section 3.7.3 of RFC 6126. */
  function UpdateSource(src: Source, now: int, seqno: u16, metric: u16): Source {
    if metric >= INFINITY then src
    else if Stale(src, now) || SeqnoCompare(src.seqno, seqno) < 0 || (src.seqno == seqno && src.metric > metric)
    then Source(seqno, metric, now)
    else src.(time := now)
  }
}
