/** What one flush of the buffered updates advertises (flushupdates): the batch is sorted,
    repeated prefixes are skipped, and each prefix is looked up in the tables. */
module UpdateBatch {
  import opened Options
  import opened Bytes
  import opened Seqno
  import opened BabelTypes
  import opened BabelPrefix
  import opened Sorting

  const CHANNELS := 8
  const CHANNEL_INTERFERING: byte := 255
  const CHANNEL_NONINTERFERING := -2

  /** An installed route as this interface is to advertise it: `metric` is already the
      interfering or the non-interfering one; `ifchannel` is the channel of the route's own
      interface; `here` tells that it is the interface we are sending on. */
  datatype Installed = Installed(
    id: RouterId, seqno: u16, metric: u16, channels: seq<byte>, ifchannel: int, here: bool)

  /** The tables flushupdates consults, and the options it obeys. */
  datatype Tables = Tables(
    myid: RouterId, myseqno: u16, kernelMetric: int,
    xroutes: map<Dest, u16>, installed: map<Dest, Installed>,
    splitHorizon: bool, diversity: bool)

  /** The arguments of one call of really_send_update; no channels for a length of -1. */
  datatype Advert = Advert(id: RouterId, dest: Dest, seqno: u16, metric: u16, channels: Option<seq<byte>>)

  /** Channels of a route, with that of its own interface put in front. */
  function PathChannels(r: Installed): seq<byte> {
    if r.ifchannel == CHANNEL_NONINTERFERING then r.channels
    else
      var first: byte := if 0 < r.ifchannel <= 255 then r.ifchannel else CHANNEL_INTERFERING;
      [first] + (if |r.channels| < CHANNELS then r.channels else r.channels[..CHANNELS - 1])
  }

  datatype Decision =
      /** a redistributed route, or the installed route, is advertised */
    | Known(a: Advert)
      /** an installed route is not told to the link it goes through */
    | Hidden
      /** there is nothing to advertise any more */
    | Gone(a: Advert)

  function Decide(t: Tables, d: Dest): (r: Decision)
    ensures !r.Hidden? ==> r.a.dest == d
  {
    if d in t.xroutes && (d !in t.installed || t.xroutes[d] <= t.kernelMetric) then
      Known(Advert(t.myid, d, t.myseqno, t.xroutes[d], Some([])))
    else if d in t.installed then
      var r := t.installed[d];
      if t.splitHorizon && r.here then Hidden
      else Known(Advert(r.id, d, r.seqno, r.metric, Some(PathChannels(r))))
    else
      Gone(Advert(t.myid, d, t.myseqno, INFINITY, None))
  }

  /** The loop over the sorted batch; `last` is the prefix last advertised. */
  function Plan(t: Tables, b: seq<Dest>, last: Option<Dest>): seq<Advert> {
    if b == [] then []
    else if last == Some(b[0]) then Plan(t, b[1..], last)
    else
      match Decide(t, b[0])
      case Known(a) => [a] + Plan(t, b[1..], Some(b[0]))
      case Hidden => Plan(t, b[1..], last)
      case Gone(a) => [a] + Plan(t, b[1..], last)
  }

  // ---- The order of a batch -----------------------------------------------------------

  datatype Buffered = Buffered(dest: Dest, id: RouterId)

  predicate IsV4Dest(d: Dest) { d.plen >= 96 && V4Mapped(d.prefix) }

  /** The prefix holds the router-id. */
  predicate HoldsId(b: Buffered) {
    !IsV4Dest(b.dest) && b.dest.plen == 128 && |b.dest.prefix| >= 8 && b.dest.prefix[8..] == b.id
  }

  /** compare_buffered_updates */
  function Compare(a: Buffered, b: Buffered): int {
    if Memcmp(a.id, b.id) != 0 then Memcmp(a.id, b.id)
    else if IsV4Dest(a.dest) != IsV4Dest(b.dest) then (if IsV4Dest(a.dest) then 1 else -1)
    else if HoldsId(a) != HoldsId(b) then (if HoldsId(a) then -1 else 1)
    else if a.dest.plen != b.dest.plen then b.dest.plen - a.dest.plen
    else Memcmp(a.dest.prefix, b.dest.prefix)
  }

  predicate Before(a: Buffered, b: Buffered) { Compare(a, b) <= 0 }

  /** The comparison is antisymmetric, and zero only on equal entries. */
  lemma CompareAntisymmetric(a: Buffered, b: Buffered)
    ensures Compare(a, b) < 0 <==> Compare(b, a) > 0
    ensures Compare(a, b) == 0 <==> a == b
  {
    MemcmpAntisymmetric(a.id, b.id);
    MemcmpAntisymmetric(a.dest.prefix, b.dest.prefix);
  }

  lemma CompareTransitive(a: Buffered, b: Buffered, c: Buffered)
    requires Compare(a, b) <= 0 && Compare(b, c) <= 0
    ensures Compare(a, c) <= 0
  {
    MemcmpAntisymmetric(a.id, b.id);
    MemcmpAntisymmetric(b.id, c.id);
    MemcmpAntisymmetric(a.id, c.id);
    MemcmpTransitive(a.id, b.id, c.id);
    if Memcmp(a.dest.prefix, b.dest.prefix) <= 0 && Memcmp(b.dest.prefix, c.dest.prefix) <= 0 {
      MemcmpTransitive(a.dest.prefix, b.dest.prefix, c.dest.prefix);
    }
  }

  /** So it is a total order, as qsort demands. */
  lemma CompareIsTotalOrder()
    ensures Ordering(Before)
  {
    forall x: Buffered, y: Buffered
      ensures Before(x, y) || Before(y, x)
    {
      CompareAntisymmetric(x, y);
    }
    forall x: Buffered, y: Buffered, z: Buffered | Before(x, y) && Before(y, z)
      ensures Before(x, z)
    {
      CompareTransitive(x, y, z);
    }
  }

  /** The router-id under which a prefix is filed in the batch. */
  function Origin(t: Tables, d: Dest): RouterId {
    if d in t.installed then t.installed[d].id else t.myid
  }

  function Entries(t: Tables, q: seq<Dest>): seq<Buffered> {
    seq(|q|, i requires 0 <= i < |q| => Buffered(q[i], Origin(t, q[i])))
  }

  function Dests(b: seq<Buffered>): (r: seq<Dest>)
    ensures |r| == |b|
  {
    seq(|b|, i requires 0 <= i < |b| => b[i].dest)
  }

  /** Equal prefixes are next to each other. */
  ghost predicate Grouped(b: seq<Dest>) {
    forall i, j, k | 0 <= i <= j <= k < |b| && b[i] == b[k] :: b[j] == b[i]
  }

  /** `b` is the queue `q` as the flush goes through it. */
  ghost predicate IsBatch(q: seq<Dest>, b: seq<Dest>) {
    multiset(b) == multiset(q) && Grouped(b)
  }

  ghost predicate WithOrigins(t: Tables, s: seq<Buffered>) {
    forall b <- s :: b.id == Origin(t, b.dest)
  }

  lemma {:induction false} DestsCount(t: Tables, s: seq<Buffered>, d: Dest)
    requires WithOrigins(t, s)
    ensures multiset(Dests(s))[d] == multiset(s)[Buffered(d, Origin(t, d))]
    decreases |s|
  {
    if s != [] {
      var n, x := s[..|s| - 1], s[|s| - 1];
      assert s == n + [x] && Dests(s) == Dests(n) + [x.dest];
      DestsCount(t, n, d);
    }
  }

  /** Sorting by the comparison groups equal prefixes, since all entries for a prefix carry
      the same router-id. */
  lemma SortedIsBatch(t: Tables, q: seq<Dest>, s: seq<Buffered>)
    requires SortedBy(s, Before) && multiset(s) == multiset(Entries(t, q))
    ensures IsBatch(q, Dests(s))
  {
    SameMembers(s, Entries(t, q));
    assert Dests(Entries(t, q)) == q;
    forall d: Dest
      ensures multiset(Dests(s))[d] == multiset(q)[d]
    {
      DestsCount(t, s, d);
      DestsCount(t, Entries(t, q), d);
    }
    forall i, j, k | 0 <= i <= j <= k < |s| && Dests(s)[i] == Dests(s)[k]
      ensures Dests(s)[j] == Dests(s)[i]
    {
      assert s[i] in s && s[k] in s;
      if i < j < k {
        assert Before(s[i], s[j]) && Before(s[j], s[k]);
        CompareAntisymmetric(s[i], s[j]);
      }
    }
  }

  /** How a sorted batch is arranged: prefixes with the same router-id stand together, and among
      them IPv6 comes before IPv4, the prefix that holds the router-id first, and longer prefixes
      before shorter ones. */
  lemma SortedIsArranged(s: seq<Buffered>, i: nat, j: nat)
    requires SortedBy(s, Before) && i < j < |s|
    ensures forall k :: i <= k <= j && s[i].id == s[j].id ==> s[k].id == s[i].id
    ensures var a, b := s[i].dest, s[j].dest;
            s[i].id == s[j].id ==>
              && (IsV4Dest(a) ==> IsV4Dest(b))
              && (IsV4Dest(a) == IsV4Dest(b) && HoldsId(s[j]) ==> HoldsId(s[i]))
              && (IsV4Dest(a) == IsV4Dest(b) && HoldsId(s[i]) == HoldsId(s[j]) ==> a.plen >= b.plen)
  {
    MemcmpAntisymmetric(s[i].id, s[j].id);
    assert Before(s[i], s[j]);
    forall k | i < k < j && s[i].id == s[j].id
      ensures s[k].id == s[i].id
    {
      assert Before(s[i], s[k]) && Before(s[k], s[j]);
      MemcmpAntisymmetric(s[i].id, s[k].id);
    }
  }

  // ---- De-duplication ----------------------------------------------------------------

  function Count(p: seq<Advert>, d: Dest): nat {
    if p == [] then 0 else (if p[0].dest == d then 1 else 0) + Count(p[1..], d)
  }

  /** The last prefix advertised comes first, if it comes at all, and was a known one. */
  ghost predicate Following(t: Tables, b: seq<Dest>, last: Option<Dest>) {
    last.Some? ==> Decide(t, last.value).Known? && (last.value in b ==> b[0] == last.value)
  }

  lemma FollowingNext(t: Tables, b: seq<Dest>, last: Option<Dest>)
    requires b != [] && Grouped(b) && Following(t, b, last)
    ensures Grouped(b[1..])
    ensures Following(t, b[1..], last)
    ensures Decide(t, b[0]).Known? ==> Following(t, b[1..], Some(b[0]))
  {
    forall i, j, k | 0 <= i <= j <= k < |b[1..]| && b[1..][i] == b[1..][k]
      ensures b[1..][j] == b[1..][i]
    {
      assert b[i + 1] == b[k + 1] && b[j + 1] == b[i + 1];
    }
    forall x | x in b[1..] && b[0] == x
      ensures b[1] == x
    {
      var k :| 0 <= k < |b[1..]| && b[1..][k] == x;
      assert b[k + 1] == b[0];
    }
  }

  /** How often `d` is advertised. */
  function Times(t: Tables, b: seq<Dest>, last: Option<Dest>, d: Dest): nat {
    match Decide(t, d)
    case Known(_) => if d in b && last != Some(d) then 1 else 0
    case Hidden => 0
    case Gone(_) => multiset(b)[d]
  }

  lemma TimesNext(t: Tables, b: seq<Dest>, last: Option<Dest>, d: Dest)
    requires b != [] && Following(t, b, last)
    ensures last == Some(b[0]) ==> Times(t, b, last, d) == Times(t, b[1..], last, d)
    ensures last != Some(b[0]) && Decide(t, b[0]).Known?
            ==> Times(t, b, last, d) == (if d == b[0] then 1 else 0) + Times(t, b[1..], Some(b[0]), d)
    ensures last != Some(b[0]) && Decide(t, b[0]).Hidden? ==> Times(t, b, last, d) == Times(t, b[1..], last, d)
    ensures last != Some(b[0]) && Decide(t, b[0]).Gone?
            ==> Times(t, b, last, d) == (if d == b[0] then 1 else 0) + Times(t, b[1..], last, d)
  {
    assert b == [b[0]] + b[1..];
  }

  lemma {:induction false} PlanCounts(t: Tables, b: seq<Dest>, last: Option<Dest>, d: Dest)
    requires Grouped(b) && Following(t, b, last)
    ensures Count(Plan(t, b, last), d) == Times(t, b, last, d)
    decreases |b|
  {
    if b != [] {
      FollowingNext(t, b, last);
      TimesNext(t, b, last, d);
      var last' := if last != Some(b[0]) && Decide(t, b[0]).Known? then Some(b[0]) else last;
      PlanCounts(t, b[1..], last', d);
      if last != Some(b[0]) && !Decide(t, b[0]).Hidden? {
        assert Plan(t, b, last)[1..] == Plan(t, b[1..], last');
      }
    }
  }

  /** Batch de-duplication: whatever prefixes are queued, and however often, one flush
      advertises a prefix with a winning redistributed route or an installed route learnt
      elsewhere exactly once, one with neither once for every time it was queued, and none
      that split horizon hides. */
  lemma FlushAdvertisesOnce(t: Tables, q: seq<Dest>, b: seq<Dest>, d: Dest)
    requires IsBatch(q, b)
    ensures Count(Plan(t, b, None), d) ==
            match Decide(t, d)
            case Known(_) => if d in q then 1 else 0
            case Hidden => 0
            case Gone(_) => multiset(q)[d]
  {
    PlanCounts(t, b, None, d);
    SameMembers(q, b);
  }

  /** Every advertisement says what the tables say of a queued prefix. */
  lemma {:induction false} PlanSays(t: Tables, b: seq<Dest>, last: Option<Dest>, a: Advert)
    requires a in Plan(t, b, last)
    ensures a.dest in b && !Decide(t, a.dest).Hidden? && Decide(t, a.dest).a == a
    decreases |b|
  {
    if last != Some(b[0]) && !Decide(t, b[0]).Hidden? && Decide(t, b[0]).a == a {
    } else if last != Some(b[0]) && Decide(t, b[0]).Known? {
      PlanSays(t, b[1..], Some(b[0]), a);
    } else {
      PlanSays(t, b[1..], last, a);
    }
  }
}
