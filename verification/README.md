# Quagga routing daemons: a verified model of babeld and bgpd cores

This project models three parts of Quagga and proves properties of them.

* **Babel (babeld).** The feasibility condition of section 3.5.1 of RFC 6126 and the
  feasibility distances of section 3.7.3, as steps of a network of routers (`BabelTypes`,
  `BabelEngine`, `BabelNetwork`) and as whole operations of its routers (`BabelSystem`,
  `BabelEffects`, `BabelLoopExample`); the route table with the kernel table, the
  reference-counted source table and the redistributed routes (`SlotTable`, `SourceTable`,
  `XrouteTable`, `KernelFib`, `RouteSpec`, `RouteTable`, `RouteRuns`); the packet format of
  section 4.4 with its compressor, send buffer, update batches and parser (`BabelPrefix`,
  `UpdateCodec`, `UpdateLayout`, `UpdateRoundTrip`, `UpdateBatch`, `SendBuffer`, `PacketParser`,
  `SendRuns`); and what is sent, against the route table and the network (`FlushMessages`).
* **AS paths (bgpd).** Segments, their meaning and normal form (`AsSegments`, `AsPathNormal`),
  the wire format (`AsPathWire`, `AsPathPut`, `AsPathPack`, `AsPathBytes`), the text format (`AsPathText`), the
  recovery of 4-byte AS numbers of section 4.2.3 of RFC 4893 (`AsPathAs4`) and interning
  (`AsPathIntern`, `AsPathRuns`).
* **Multipath, communities and sessions (bgpd).** `Multipath` works on doubly linked paths in
  place, `Community` on value arrays, `PeerFsm` on the transition table and its handlers.

`Seqno`, `Bytes`, `Options`, `Sorting` and `SortedSets` hold what several modules need.

Code that updates state in place is modelled by classes, arrays and methods with loops; each
method is proved against a function of the old state, and the properties are proved about
those functions. Lists that the C code links through `next` pointers are sequences, except
for multipath, where the links are the point. A pointer to a Babel route is the key (prefix,
neighbour, next hop) under which `find_route` finds it.

How the route table and the network model meet: `BabelSystem.OpTo` says what an operation of a
router (an update, a metric change, a flush, an advertisement, garbage collection of sources, a
change of redistribution) does to its tables, as a list of `BabelEngine` steps and as the state
they lead to. `RouteRuns.Perform` proves that the operations of `RouteTable.Table` do exactly
this, `RouteRuns.RunAll` says it of any sequence of operations on one table, and
`RouteRuns.ActAt` and `RouteRuns.SendAt` of one table among those of several routers.
`BabelSystem.SystemLoopFreedom` is loop freedom for any interleaving of such operations with
sends, losses and the passing of time. `BabelEffects` says what an operation achieves in terms of
the update, the clock and the tables before it, without the functions that compute it: when a
route gets installed, for how long it stays, what replaces it. `FlushMessages` does the same for
what is sent, and shows that every update put into a packet is a send step of the network.

The hypotheses of loop freedom are about one source `k`: the sequence numbers in use for `k` lie
in half a circle; no router consults or drops an entry for `k` older than SOURCE_GC_TIME (stale
entries that are not used, and those of other sources, do no harm); and no update revives a
retracted installed route to `k` through a neighbour that is not known to be closer.

## What the code does not do

Some properties one would expect hold only under a condition. Each has a lemma giving the
condition, both ways, and where it is not obvious a concrete input.

* Loop freedom fails when an unfeasible finite update reaches an installed route that has been
  retracted. The comment at babeld/route.c:716-719 says such an update is ignored; the code
  stores it, so the route becomes finite again while installed.
  `BabelLoopExample.LoopIsReachable` is a run of three routers, operation by operation, that
  ends in a forwarding loop; `BabelNetwork.StepKeeps` shows that the invariant survives a step exactly if it is not of
  this kind.
* find_best_route returns the best of the routes it is asked for, as its comment at
  babeld/route.c:584 says, exactly if the head of the slot is one of them or a better one stands
  behind it (`RouteSpec.BestIsBestCandidate`).
* An IPv4 update that leaves out bytes of its prefix is understood exactly if an IPv6 prefix is
  remembered as well: the test at babeld/message.c:359 looks at the flags instead of the address
  encoding (`UpdateLayout.OmittedV4Needs`, `UpdateLayout.OmittedV4IsDropped`).
* `seqno_compare` is not antisymmetric at distance 2^15 (`Seqno.CompareAntisymmetry`).
* `aspath_put` writes the first 255 members again for every full piece after the first, and
  counts the bytes of a piece as if it held all members written so far. The round trip and the
  count hold exactly under the conditions in `AsPathPut.WireRoundTrip` and
  `AsPathPut.CountIsBytes`; `AsPathPut.BigSetIsLost` and `AsPathPut.LongSequenceIsLost` are
  inputs for which they fail.
* When `aspath_put` packs several AS_SEQUENCEs onto one, the length byte counts only the last of
  them. What is written is right exactly if at most one is packed onto any other
  (`AsPathPack.PackedRight`, `AsPathPack.ThreeAreMiscounted`).
* Printed AS paths lose empty AS_SEQUENCE segments and the border between adjacent ones
  (`AsPathText.TextRoundTrip`, `AsPathText.TextLosesEmpty`, `AsPathText.TextJoinsAdjacent`).
* When AS4_PATH has more hops than AS_PATH it is not ignored, as section 4.2.3 of RFC 4893 asks,
  but kept behind all the hops of AS_PATH; the code says so itself (`AsPathAs4.ShorterIsKept`).
* The order of paths by next hop is not transitive: a path without further next hops equals
  paths that differ in them. `Multipath.NexthopCmpTransitive` says exactly when it fails,
  `Multipath.NexthopCmpNotTransitive` is an example.
* A peer that falls back to Idle keeps its socket exactly if the event is not one of those that
  close it (`PeerFsm.IdleSocket`, `PeerFsm.IdleWithSocket`).
* A community deleted from itself keeps every second value (`Community.SelfDiffHalves`).
* A Clearing_Completed event delivered to an established peer ends the session without
  counting it as dropped (`PeerFsm.RunInvariant`, `PeerFsm.SessionLost`).

## Model

| member | source | states |
|---|---|---|
| `Seqno.CompareIsOffsetOrder` | babeld/util.h:69-77 | inside any half circle of 2^15 numbers the comparison is the linear order of the distances from its start |
| `Seqno.CompareAntisymmetry` | babeld/util.h:69-88 | the comparison is antisymmetric exactly when the distance is not 2^15; elsewhere it agrees with the sign of seqno_minus, and adding one always gives a newer number |
| `BabelEngine.ApplyKeepsWellFormed` | babeld/route.c:669-795 | every elementary change keeps each route under its own key, with a cost of at least 1 and a source that is in the source table |
| `BabelEngine.ApplyKeepsOneInstalled` | babeld/route.c:377-466 | every elementary change keeps at most one installed route per prefix |
| `BabelNetwork.BetterIsRank` | babeld/route.c:565-582 | on sequence numbers of one half circle the feasibility order of (seqno, metric) is a linear order |
| `BabelNetwork.FeasibleIsBelow` | babeld/route.c:565-582 | an update that passes the feasibility test, from a neighbour whose distance vouches for it, comes from a router strictly closer to the source; that the test passes exactly for such updates is `BabelEffects.FeasibleIsRank` |
| `BabelNetwork.InstallKeeps` | babeld/route.c:820-860 | installing or switching to a feasible route keeps the network invariant |
| `BabelNetwork.ReceiveKeeps` | babeld/route.c:669-795 | learning from a message keeps the invariant unless it revives a retracted installed route |
| `BabelNetwork.SentIsImprovement` | babeld/source.c:128-146 | advertising a route can only improve the sender's feasibility distance, which then is at least as good as what was sent |
| `BabelNetwork.SendImproves` | babeld/message.c:1011-1054 | sending keeps the invariant: whatever is in flight is vouched for by its sender, and the next hop of every installed finite route stays strictly closer |
| `BabelNetwork.BreaksInv` | babeld/route.c:716-743 | a step that revives a retracted installed route through a neighbour not known to be closer breaks the invariant |
| `BabelNetwork.StepKeeps` | babeld/route.c:669-860 | a step of any router keeps the invariant if and only if it is not such a revival |
| `BabelNetwork.RunInv` | babeld/route.c:565-582 | the invariant holds in every state of every run that meets the hypotheses |
| `BabelNetwork.LoopFreedom` | babeld/route.c:565-860 | in every state of every run of any network, with loss, duplication, reordering and garbage collection of sources, no cycle of routers forwards to each other for a source, if its live sequence numbers span less than 2^15, no router acts on a stale entry for it and no such revival for it occurs |
| `BabelNetwork.LoopFreedomByLocalTest` | babeld/route.c:716-743 | the same when the last condition is one that a router can test on its own table before it takes an update for the source |
| `BabelSystem.OpSpan` | babeld/route.c:211-983 | if sequence numbers for a source span less than 2^15 before and after an operation, they do so at every step inside it |
| `BabelSystem.OpNotStale` | babeld/source.c:128-166 | no step inside an operation acts on a stale entry if the entry is current before the operation, or is not touched by it; garbage collection drops only stale entries |
| `BabelSystem.OpNotBreaking` | babeld/route.c:716-743 | no step inside an operation revives a retracted installed route unless the update it starts from does |
| `BabelSystem.OperateKeeps` | babeld/route.c:211-983 | every whole operation of a router keeps the network invariant under these conditions, checked before it |
| `BabelSystem.OperationExtendsRun` | babeld/route.c:669-983 | the steps of an operation, garbage collection included, extend any run of the network model to one that ends with the router's new tables |
| `BabelSystem.SayIsSend` | babeld/message.c:1011-1054 | advertising an installed route is a send step of the network model, with any metric not below the route's |
| `BabelSystem.SystemLoopFreedom` | babeld/route.c:211-983 | however updates, metric changes, flushes, garbage collections, redistributions and sends of any number of routers are interleaved, and whatever is lost, repeated or delayed, no cycle of routers forwards to each other for a source, under the same three hypotheses stated of operations |
| `BabelLoopExample.LoopIsReachable` | babeld/route.c:716-743 | a concrete run of the operations of three routers, with no stale entry and sequence numbers in one half circle, that ends in a forwarding loop |
| `BabelEffects.FeasibleIsRank` | babeld/route.c:565-582 | an update passes the test if and only if it is a retraction, the entry is older than 200 seconds, or its (seqno, metric) ranks strictly above the entry: a newer seqno always does |
| `BabelEffects.AdvertisedIsBest` | babeld/source.c:128-146 | advertising leaves the better of what is said and the entry, refreshed; an entry older than 200 seconds is forgotten; a retraction changes nothing |
| `BabelEffects.UpdateInstalls` | babeld/route.c:669-860 | an update gets its route installed if and only if it improves on what is known of the source, no redistributed route stands in the way, and it beats every installed route to the prefix; with no route installed a newer seqno suffices |
| `BabelEffects.UpdateTold` | babeld/route.c:669-795 | the route named by an update has its source, seqno, metric and cost afterwards, a hold time of six intervals but at least 15 seconds, and is refreshed exactly if the update is finite and feasible or unfeasible ones are kept |
| `BabelEffects.OthersKept` | babeld/route.c:669-795 | an update changes no other route to its prefix but for which is installed, and no route to another prefix at all |
| `BabelEffects.RefusedChangesNothing` | babeld/route.c:684-704 | an update with the own router-id, for a martian prefix, or filtered out changes nothing |
| `BabelEffects.MetricKept` | babeld/route.c:609-632 | a route refreshed within its hold time keeps what it was told and gets the new cost; one that was not is retracted, with a seqno newer than its source |
| `BabelEffects.FlushRemoves` | babeld/route.c:211-260 | exactly the flushed route goes; of the others only which one to its prefix is installed may change |
| `BabelEffects.ToldIsKept` | babeld/route.c:514-632 | told by an improving update and looked at later, a route is retracted if and only if more than its lifetime has passed |
| `BabelEffects.WorseIsReplaced` | babeld/route.c:941-965 | an installed route that gets worse stays installed if and only if no usable route to the prefix is better by 96 |
| `BabelEffects.FlushFallsBack` | babeld/route.c:211-260 | when the installed route is flushed and those left are usable, one of the least metric takes over |
| `BabelEffects.SourcesKept` | babeld/source.c:148-166 | garbage collection keeps a source if and only if a route uses it or it was refreshed within 200 seconds, and changes no distance |
| `BabelEffects.LeastIsRedistributed` | babeld/xroute.c:162-193 | of a prefix redistributed more than once the least metric is kept; martians and infinite metrics change nothing |
| `BabelEffects.RedistributedGivesWay` | babeld/xroute.c:211-237 | a route to the prefix is uninstalled exactly if the redistributed routes changed and duplicates are not allowed or the metric is below allow_duplicates; no other route changes |
| `BabelEffects.SayRefreshes` | babeld/message.c:1023-1054 | advertising an installed route leaves the routes alone and its source with the better of what it had and what is said |
| `SlotTable.CompareDestAntisymmetric` | babeld/route.c:68-82 | the order of prefixes is antisymmetric and zero only on equal prefixes |
| `SlotTable.CompareDestTransitive` | babeld/route.c:68-82 | ... and transitive |
| `SlotTable.FindRouteSlot` | babeld/route.c:84-116 | on an ordered table the binary search finds what a search through all slots finds, and otherwise the place where the slot belongs |
| `SlotTable.SetSlot` | babeld/route.c:177-209 | changing one slot keeps the order and the result of every search for another prefix |
| `SlotTable.InsertSlot` | babeld/route.c:184-197 | inserting a slot where it belongs keeps the order and all other searches |
| `SlotTable.RemoveSlot` | babeld/route.c:229-244 | so does removing one, after which its prefix is not found |
| `SlotTable.HoldsMove` | babeld/route.c:359-375 | moving the installed route to the head keeps the contents of the slot |
| `SlotTable.InstalledIsHead` | babeld/route.c:64-66 | an installed route is the head of the slot of its prefix, so there is at most one |
| `SourceTable.Sources.Index` | babeld/source.c:59-71 | the linear search finds the entry with the key if and only if there is one |
| `SourceTable.Sources.Find` | babeld/source.c:53-91 | the table is unchanged if the source is there or is not to be created; otherwise it gains one entry with infinite metric, the given seqno and no users |
| `SourceTable.Sources.Retain` | babeld/source.c:93-99 | one user more, nothing else changes |
| `SourceTable.Sources.Release` | babeld/source.c:101-106 | one user less; the assertion that the count is positive is the precondition, proved at every call |
| `SourceTable.Sources.Flush` | babeld/source.c:108-126 | the entry goes if and only if it has no users |
| `SourceTable.Sources.Update` | babeld/source.c:128-146 | the distance is replaced exactly when it is stale or the new one is better; retractions change nothing |
| `SourceTable.Walk` | babeld/source.c:148-166 | the walk that removes entries as it goes leaves exactly those that are used or not stale |
| `SourceTable.Sources.Expire` | babeld/source.c:148-166 | ... so no source that a route uses is freed, whatever the clock |
| `XrouteTable.Xroutes.Find` | babeld/xroute.c:122-132 | finds the redistributed route to a prefix if and only if there is one |
| `XrouteTable.Xroutes.Flush` | babeld/xroute.c:134-160 | moving the last entry into the gap removes exactly the given prefix |
| `XrouteTable.Xroutes.Add` | babeld/xroute.c:162-193 | a known prefix keeps the smaller metric, a new one is added, and the return value tells whether the table changed |
| `KernelFib.Kernel.Modify` | babeld/kernel.c:125-145 | deleting and adding replaces exactly one entry, and doing nothing is right when gateway, interface and metric stay |
| `RouteSpec.FibAdd` | babeld/route.c:394-406 | installing a route adds exactly its entry: prefix, the route's next hop, its interface and the kernel metric, 0xFFFF for an unreachable route |
| `RouteSpec.FibDrop` | babeld/route.c:413-429 | uninstalling it removes exactly the entry that shows it |
| `RouteSpec.FibSwap` | babeld/route.c:468-494 | a metric change replaces exactly the entry that shows it, and what stays shows the new metric |
| `RouteSpec.FibMirrors` | babeld/route.c:377-494 | every installed route is shown by exactly one kernel entry, with its next hop, interface and metric, and every entry shows an installed route |
| `RouteSpec.BestIsBestCandidate` | babeld/route.c:584-607 | what find_best_route returns is the best of the routes asked for if and only if the head of the slot is one of them or a better one stands behind it |
| `RouteSpec.CountedMove` | babeld/route.c:737-771 | a route that changes its source leaves the old source with one user too many on the books, and all other counts exact |
| `RouteSpec.CountedRelease` | babeld/route.c:256-259 | releasing that source cannot underflow and makes all counts exact again |
| `RouteSpec.CountedExpire` | babeld/source.c:148-166 | with exact counts expiry keeps every source that is in use |
| `RouteSpec.UpdateSteps` | babeld/route.c:669-795 | every step of an accepted update carries the message that caused it or is local to the router |
| `RouteTable.Table.constructor` | babeld/route.c:52-62 | an empty table is valid |
| `RouteTable.Table.FindRoute` | babeld/route.c:118-137 | finds exactly the routes of the table |
| `RouteTable.Table.FindInstalledRoute` | babeld/route.c:139-148 | looking at the head of the slot finds the installed route if there is any |
| `RouteTable.Table.InsertRoute` | babeld/route.c:177-209 | the table gains exactly the new route and keeps its shape |
| `RouteTable.Table.MoveInstalled` | babeld/route.c:359-375 | the walk for the predecessor ends at it; the route comes first, and behind it are the routes with other keys, in their order |
| `RouteTable.Table.MarkInstalled` | babeld/route.c:405-406 | exactly this route becomes installed, at the head of its slot |
| `RouteTable.Table.KernelMirrors` | babeld/route.c:377-494 | in every consistent table the kernel entries are, field by field, those of the installed routes, and no others |
| `RouteTable.Table.InstallRoute` | babeld/route.c:377-411 | if no route to the prefix is installed this one becomes so, and the tables stay consistent, so by `KernelMirrors` the kernel forwards to its next hop; otherwise nothing changes |
| `RouteTable.Table.UninstallRoute` | babeld/route.c:413-429 | the route is not installed afterwards, and the tables stay consistent, so by `KernelMirrors` the kernel has no entry for it |
| `RouteTable.Table.SwitchRoutes` | babeld/route.c:431-466 | exactly the new route to the prefix is installed afterwards, and the tables stay consistent, so by `KernelMirrors` the kernel forwards to its next hop |
| `RouteTable.Table.ChangeRouteMetric` | babeld/route.c:468-494 | only the three metric fields change, and the kernel entry follows the metric |
| `RouteTable.Table.RetractRoute` | babeld/route.c:496-500 | the metric becomes infinite, and the kernel entry unreachable |
| `RouteTable.Table.Feasible` | babeld/route.c:502-506 | the feasibility test on the stored source, which `BabelEffects.FeasibleIsRank` describes |
| `RouteTable.Table.FindBestRoute` | babeld/route.c:584-607 | the least metric among the untested head of the slot and the unexpired, feasible, not excluded routes behind it |
| `RouteTable.Table.Considered` | babeld/route.c:820-848 | the tests of consider_route succeed exactly when the route is not installed, feasible, not shadowed by a redistributed route, and beats every installed route by 64 |
| `RouteTable.Table.ConsiderRoute` | babeld/route.c:820-860 | the route becomes the only installed one to its prefix if and only if it wins; this is one Install or Switch step, and exclusivity holds |
| `RouteTable.Table.RouteChanged` | babeld/route.c:941-965 | a route that is not installed is considered; an installed one that did not get worse stays; for one that did, a best route is considered if it is better by 96; only Install and Switch steps to the prefix are taken |
| `RouteTable.Table.RouteLost` | babeld/route.c:967-983 | a best route left, if there is any, is considered, by the same steps |
| `RouteTable.Table.LearnRoute` | babeld/route.c:711-750 | the writes to a known route, including the possible uninstall, make up exactly one Learn step, with the new source retained |
| `RouteTable.Table.UpdateKnown` | babeld/route.c:706-762 | a known route: the routes left are those after one Learn step and then route_changed and, if the route was dropped, route_lost; the old source is released without underflow; all tables stay consistent |
| `RouteTable.Table.AddRoute` | babeld/route.c:763-794 | a new route: one Add step, after which it is installed if and only if it wins; all tables stay consistent |
| `RouteTable.Table.UpdateRoute` | babeld/route.c:669-795 | for every update whatsoever: rejected ones change nothing, the others take exactly the stated steps and leave the routes these and the decisions lead to, and the slots, the kernel, the reference counts and exclusivity stay right |
| `RouteTable.Table.UpdateRouteMetric` | babeld/route.c:609-632 | an expired route is retracted with a newer seqno, another gets its new cost, route_changed follows exactly if the metric changed, and all tables stay consistent |
| `RouteTable.Table.FlushRoute` | babeld/route.c:211-260 | exactly this route goes, a best route left is considered if it was installed, its source is released without underflow, and all tables stay consistent |
| `RouteTable.Table.AdvertiseRoute` | babeld/message.c:1023-1054 | sending an installed route updates its source with the metric sent: one Advertise step |
| `RouteSpec.KeptIsCollected` | babeld/source.c:148-166 | going by reference counts, when these are exact, expiry removes exactly the stale sources that no route uses |
| `RouteTable.Table.ExpireSources` | babeld/source.c:148-166 | exactly the stale sources that no route uses go, times in the future are set back, all tables stay consistent, and this is a list of drop and clamp steps |
| `RouteTable.Table.AddNewXroute` | babeld/xroute.c:211-237 | a prefix is redistributed if and only if it is new or got better; its installed route is uninstalled exactly under the test on allow_duplicates, so with duplicates not allowed exclusivity holds |
| `RouteTable.Table.DeleteXroute` | babeld/xroute.c:106-120 | exactly the prefix goes, and all tables stay consistent |
| `RouteRuns.Perform` | babeld/route.c:211-983 | every operation of the table takes exactly the steps, and leaves exactly the state, that the system model allows, and keeps all tables consistent |
| `RouteRuns.RunAll` | babeld/route.c:211-983 | any sequence of operations, at any times, leads from the old to the new tables through states each of which follows from the one before by its operation; afterwards the slots hold each route once in order, the kernel has for every installed route exactly one entry with its prefix, next hop, interface and metric, and no others, every count is exact, and without duplicates no prefix is both redistributed and installed |
| `RouteRuns.ActAt` | babeld/route.c:211-983 | an operation of one table among the tables of several routers is an act of the system they make up |
| `RouteRuns.SendAt` | babeld/message.c:1011-1054 | advertising by one of them is a send of that system |
| `BabelPrefix.ShortNotV4` | babeld/message.c:838-839 | a masked prefix shorter than 96 bits is never taken for an IPv4 one |
| `BabelPrefix.MaskCutsBits` | babeld/util.c:224-238 | masking takes exactly the bits beyond the prefix from the byte in which it ends |
| `BabelPrefix.RebuildV6` | babeld/message.c:71-131 | the receiver rebuilds an IPv6 prefix from what the sender leaves of it and the prefix it remembers |
| `BabelPrefix.RebuildV4` | babeld/message.c:71-131 | and an IPv4 prefix from its own bytes |
| `BabelPrefix.RebuildNextHop` | babeld/message.c:180-185 | and an IPv4 next hop from four bytes |
| `UpdateCodec.Common` | babeld/message.c:860-864 | the omitted bytes are the longest common prefix, up to the whole bytes of the prefix length |
| `UpdateCodec.Encoded` | babeld/message.c:835-837 | an update with its router-id and next hop never takes more than the 60 bytes reserved for it |
| `UpdateLayout.LayoutV6` | babeld/message.c:812-908 | the bytes of an update for an IPv6 prefix at the head of a packet, as section 4.4.9 of RFC 6126 lays them out |
| `UpdateLayout.LayoutV4` | babeld/message.c:812-908 | ... and for an IPv4 prefix, with the next hop in front |
| `UpdateLayout.LayoutNext` | babeld/message.c:855-890 | ... and of one after others of the same router-id: the leading bytes shared with the remembered prefix are left out, and from 48 bits on it is to be remembered itself |
| `UpdateLayout.LayoutChannels` | babeld/message.c:890-906 | the channels stand behind the prefix, with their type and number |
| `UpdateLayout.LayoutWildcard` | babeld/message.c:1178-1205 | the bytes of a wildcard retraction |
| `UpdateLayout.HeardFields` | babeld/message.c:344-445 | of any update whatever: the seqno, metric, interval and prefix length passed on are those in its bytes, the router-id is the one told last or in the prefix, and IPv4 needs a next hop told and an IPv4 address |
| `UpdateLayout.HeardState` | babeld/message.c:374-392 | what is remembered of an update: its router-id, and its prefix exactly if the flag says so |
| `UpdateLayout.HeardExactly` | babeld/message.c:350-445 | an IPv6 update is passed on if and only if its prefix has at most 128 bits and all its bytes, those left out are remembered, and the router-id is known |
| `UpdateLayout.HeardExactlyV4` | babeld/message.c:350-445 | an IPv4 update that leaves nothing out is passed on if and only if it has at most 32 bits, all bytes, a known router-id and next hop, and the interface has an IPv4 address |
| `UpdateLayout.BrokenForgets` | babeld/message.c:350-371 | an update that is too short or whose prefix cannot be read is dropped, and if it was to be remembered nothing is remembered any more |
| `UpdateLayout.HeardRetraction` | babeld/message.c:403-409 | the neighbour's routes are retracted exactly by a well-formed wildcard update with infinite metric |
| `UpdateLayout.HeardChannels` | babeld/message.c:425-441 | the channels passed on: none on a faraway interface, those told, or by the metric |
| `UpdateLayout.HeardV4Prefix` | babeld/message.c:71-131 | an IPv4 prefix passed on is mapped into IPv6 and has the bytes of the message |
| `UpdateLayout.HeardLinkLocal` | babeld/message.c:71-131 | a link-local prefix passed on starts with fe80:: and goes on with the bytes of the message |
| `UpdateLayout.HeardPrefix` | babeld/message.c:71-131 | byte by byte, the IPv6 prefix passed on is that of the remembered prefix, then of the message, and zero beyond its length |
| `UpdateLayout.OmittedV4Needs` | babeld/message.c:358-365 | an IPv4 update that leaves bytes out is understood if and only if an IPv6 prefix is remembered too, and does not depend on which |
| `UpdateLayout.OmittedV4IsDropped` | babeld/message.c:358-365 | an IPv4 update after an IPv4 prefix to be remembered that is dropped for this |
| `UpdateRoundTrip.RunNhPart` | babeld/message.c:319-343 | after the next-hop part the receiver has the interface's IPv4 address as next hop |
| `UpdateRoundTrip.RunIdPart` | babeld/message.c:310-318 | after the router-id part the receiver knows the router-id, unless the prefix will tell |
| `UpdateRoundTrip.HearsRebuilt` | babeld/message.c:344-445 | an update whose prefix can be rebuilt is passed on with its own router-id, prefix, length, seqno, metric, interval, next hop and channels |
| `UpdateRoundTrip.RunEncoded` | babeld/message.c:812-908 | compression round trip for one update in any state of sender and receiver that agree, which agree again afterwards |
| `UpdateRoundTrip.HearsWildcard` | babeld/message.c:1178-1205 | a wildcard retraction is heard as one, and leaves a router-id that the sender does not rely on |
| `UpdateRoundTrip.RunItems` | babeld/message.c:812-1205 | any sequence of updates, wildcard retractions and other messages is a whole number of messages, heard item by item |
| `UpdateRoundTrip.PacketRoundTrip` | babeld/message.c:194-445 | parsing the body of a packet gives exactly what was put into it, in order |
| `UpdateBatch.CompareAntisymmetric` | babeld/message.c:910-942 | the comparison of buffered updates is antisymmetric and zero only on equal entries |
| `UpdateBatch.CompareTransitive` | babeld/message.c:910-942 | ... and transitive |
| `UpdateBatch.CompareIsTotalOrder` | babeld/message.c:910-942 | so it is a total order, as qsort demands |
| `UpdateBatch.SortedIsBatch` | babeld/message.c:977-985 | sorting by it puts equal prefixes next to each other |
| `UpdateBatch.SortedIsArranged` | babeld/message.c:910-942 | in the sorted batch equal router-ids stand together, and among them IPv6 comes before IPv4, the prefix holding the router-id first, and longer prefixes before shorter ones |
| `UpdateBatch.FlushAdvertisesOnce` | babeld/message.c:944-1068 | one flush of any queue advertises a prefix with a winning redistributed or visible installed route exactly once, one with neither as often as it was queued, one hidden by split horizon never |
| `UpdateBatch.PlanSays` | babeld/message.c:1000-1061 | every advertisement says what is decided of its prefix; what that is, against the route table, is `FlushMessages.FlushIsHonest` |
| `FlushMessages.FlushIsHonest` | babeld/message.c:1000-1061 | every advertisement of a flush is the router's own prefix with its own id and seqno, the installed route with the source's id, the route's seqno, and its metric, or the retraction of a prefix without route |
| `FlushMessages.FlushCounts` | babeld/message.c:944-1068 | how often a flush announces a prefix, by the installed and redistributed routes to it |
| `FlushMessages.AdvertIsStep` | babeld/message.c:1011-1054 | every such advertisement is a Send or Originate step of the network that adds exactly this message |
| `FlushMessages.FlushIsSends` | babeld/message.c:812-1061 | every update that a flush puts is honest, and such a step |
| `FlushMessages.FlushTells` | babeld/message.c:944-1068 | an interface that is up tells of every queued prefix that split horizon does not hide, unless the filter or a missing IPv4 address prevents it |
| `FlushMessages.FlushTable` | babeld/message.c:944-1068 | the same of the flush itself, on an interface that consults a route table |
| `SendBuffer.Interface.constructor` | babeld/babel_interface.c:525-540 | a new interface is valid and has room for at least 64 bytes, whatever the MTU up to 65599 |
| `SendBuffer.Interface.AccumulateBytes` | babeld/message.c:652-660 | exactly the bytes are appended |
| `SendBuffer.Interface.CheckBucket` | babeld/message.c:510-530 | a packet may leave exactly if tokens are left or time has passed since they ran out; tokens come back, up to a maximum, only once all are used |
| `SendBuffer.RateLimit` | babeld/message.c:510-530 | whenever packets are offered, no more leave than the tokens there are and 40 for every second |
| `SendBuffer.Burst` | babeld/message.c:510-530 | after five idle seconds exactly 200 of any number offered at once leave |
| `SendBuffer.Interface.EmitPacket` | babeld/message.c:543-571 | what is buffered leaves as one packet, an empty buffer as none, and the compression state is forgotten with it |
| `SendBuffer.Interface.FlushBuf` | babeld/message.c:532-572 | the queued updates go first; nothing that was put is lost, and the recursion with the batch ends |
| `SendBuffer.Interface.EnsureSpace` | babeld/message.c:610-616 | afterwards there is room; the buffer and the queue are flushed exactly if there was not, and otherwise nothing changes |
| `SendBuffer.Interface.StartMessage` | babeld/message.c:618-626 | the header stands behind whole messages, after a flush exactly if there was no room for the message |
| `SendBuffer.Interface.OmittedBytes` | babeld/message.c:860-864 | the loop finds the longest common prefix |
| `SendBuffer.Interface.SendGroup` | babeld/message.c:838-907 | with 60 bytes reserved the next-hop, router-id and update messages go into one packet: no flush falls between them |
| `SendBuffer.Interface.ReallySendUpdate` | babeld/message.c:812-908 | exactly the admitted update is put, with the filter's metric added and capped, after what a flush puts; a flush happens exactly if the update is considered and fewer than 60 bytes are free |
| `SendBuffer.Interface.SortBatch` | babeld/message.c:977-985 | the queue is reordered, losing and inventing nothing, with equal prefixes together |
| `SendBuffer.Interface.SendBatch` | babeld/message.c:987-1061 | exactly what the batch plans and the filter admits is put, in order; that this is the truth about the route table is `FlushMessages.FlushTable` |
| `SendBuffer.Interface.FlushUpdates` | babeld/message.c:944-1068 | the queue is empty afterwards and its batch has been put |
| `SendBuffer.Interface.BufferUpdate` | babeld/message.c:1082-1118 | the prefix is queued; the queue never exceeds its room, a full one is flushed first, and a fresh one has room for a full dump and a full packet |
| `SendBuffer.Interface.SendWildcardRetraction` | babeld/message.c:1178-1205 | if the interface is up the retraction is put, after a flush exactly if there was no room |
| `PacketParser.ParseBody` | babeld/message.c:242-503 | the packet loop computes the parser's meaning of the body |
| `PacketParser.ParsePacket` | babeld/message.c:194-504 | packets from other than link-local addresses or with another header are ignored, an excessive length is cut down |
| `PacketParser.FlushedParses` | babeld/message.c:532-572 | every packet an interface has flushed is a whole number of messages and parses to exactly the items put into it |
| `PacketParser.NothingLost` | babeld/message.c:532-908 | what all the packets say, followed by what is in the buffer, is everything that was put, in order |
| `SendRuns.Perform` | babeld/message.c:532-1205 | what each operation adds to the log of everything put: the batch of the queue when that is flushed, then its own item |
| `SendRuns.RunAll` | babeld/message.c:532-1205 | after any sequence of operations the log is what they put, one after the other, the buffer has not overflowed, every packet is whole, and the packets parse to the log up to what is still in the buffer |
| `AsSegments.NormaliseIdempotent` | bgpd/bgp_aspath.c:251-320 | normalising twice is normalising once, and exactly normal paths are fixed |
| `AsSegments.NormalisePreservesHops` | bgpd/bgp_aspath.c:251-320 | normalising preserves what a path says, step by step |
| `AsSegments.NormaliseIsCanonical` | bgpd/bgp_aspath.c:251-320 | two paths without empty sequences say the same if and only if they normalise to the same segments |
| `AsPathNormal.SortAndWeed` | bgpd/bgp_aspath.c:269-290 | a set becomes the increasing list of its members |
| `AsPathNormal.NormaliseSegments` | bgpd/bgp_aspath.c:251-320 | the walk with its pinned segment computes the normal form |
| `AsPathNormal.CountHopsAndConfeds` | bgpd/bgp_aspath.c:413-447 | the counts depend only on what the path says, so normalising keeps them |
| `AsPathAs4.CountsStep` | bgpd/bgp_aspath.c:413-447 | a number prepended outside is one hop more, one prepended inside a confederation one step more there, and a set of any size counts one of either |
| `AsPathNormal.AspathCmp` | bgpd/bgp_aspath.c:1821-1844 | the comparison is equality of segments |
| `AsPathWire.GetPutSegments` | bgpd/bgp_aspath.c:815-842 | reading written segments gives them back, with large numbers replaced by AS_TRANS in 16-bit mode |
| `AsPathWire.AssegmentsParse` | bgpd/bgp_aspath.c:676-771 | the parser yields the normal form of the segments, and fails on odd lengths, unknown types, empty segments and truncation |
| `AsPathBytes.AcceptsExactly` | bgpd/bgp_aspath.c:676-771 | bytes parse to segments if and only if these have 1 to 255 members each and writing them gives the bytes |
| `AsPathBytes.RefusesExactly` | bgpd/bgp_aspath.c:676-813 | an attribute is refused exactly if it is cut short, of odd length, or not what any segments are written as |
| `AsPathBytes.Layout` | bgpd/bgp_aspath.c:815-842 | a segment in bytes: type 1 to 4, length, and the numbers, high byte first, 23456 for those that do not fit |
| `AsPathPut.CountIsBytes` | bgpd/bgp_aspath.c:844-916 | the returned count is at least the bytes written, and equal exactly if no segment exceeds 510 members |
| `AsPathPut.PutSplit` | bgpd/bgp_aspath.c:867-884 | the loop writes full pieces and then the rest, as the split form says |
| `AsPathPack.Pack` | bgpd/bgp_aspath.c:886-909 | exactly the following sequences that fit behind the segment are appended, and the length byte counts the segment and the last of them |
| `AsPathPack.AspathPut` | bgpd/bgp_aspath.c:844-916 | for any path and any space: whole records are written up to the first segment that by itself no longer fits, all of them if there is enough space, and charged |
| `AsPathPack.NormalIsPutAsIs` | bgpd/bgp_aspath.c:844-916 | a normal path is written as its split form and charged for it |
| `AsPathPack.PackedRight` | bgpd/bgp_aspath.c:886-909 | any path of non-empty segments is written as the path with its packed segments joined if and only if at most one is packed onto any other |
| `AsPathPack.PackedHops` | bgpd/bgp_aspath.c:886-909 | joining packed segments does not change what the path says |
| `AsPathPack.ThreeAreMiscounted` | bgpd/bgp_aspath.c:886-909 | three sequences of one member are written with a length of two |
| `AsPathPut.ParseOfEncode` | bgpd/bgp_aspath.c:676-916 | parsing what was written gives the normal form of the split path |
| `AsPathPut.WireRoundTrip` | bgpd/bgp_aspath.c:676-916 | parsing gives back the path if and only if every segment survives its splitting, which sequences up to 510 and other segments up to 255 do |
| `AsPathPut.ShortSequenceSurvives` | bgpd/bgp_aspath.c:866-879 | a sequence of at most 510 members, or any segment of at most 255, survives |
| `AsPathPut.BigSetIsLost` | bgpd/bgp_aspath.c:866-879 | an AS_SET of 256 members does not come back |
| `AsPathPut.LongSequenceIsLost` | bgpd/bgp_aspath.c:866-879 | an AS_SEQUENCE of 511 different members does not come back, and its count is not the number of bytes |
| `AsPathAs4.ReconcileAs4` | bgpd/bgp_aspath.c:1432-1532 | the two-path walk computes the reconciled path, which `ReconcileMeaning`, `As4Recovery`, `As4RecoveryConfed` and `ShorterIsKept` pin down |
| `AsPathAs4.CopyHops` | bgpd/bgp_aspath.c:1461-1517 | the copying loop takes the leading hops that are missing |
| `AsPathAs4.ReconcileMeaning` | bgpd/bgp_aspath.c:1432-1532 | for all paths, the result says the leading hops of AS_PATH that cover its surplus, confederation steps included, followed by AS4_PATH, and is normal if AS4_PATH is |
| `AsPathAs4.AddAllHops` | bgpd/bgp_aspath.c:1354-1397 | prepending to a normal, confederation-free path of non-empty segments adds exactly the prepended hops |
| `AsPathAs4.TransHops` | bgpd/bgp_aspath.c:815-842 | replacing large numbers by AS_TRANS acts step by step, however the steps are cut into segments |
| `AsPathAs4.As4Recovery` | bgpd/bgp_attr.c:1347-1353 | whatever 2-byte speakers prepend to such a path, reconciliation recovers it exactly, even where AS_TRANS merges set members |
| `AsPathAs4.As4RecoveryConfed` | bgpd/bgp_aspath.c:1432-1532 | the same with any confederation segments in front of AS_PATH: none of them is lost |
| `AsPathAs4.ShorterIsKept` | bgpd/bgp_aspath.c:1445-1460 | if AS4_PATH has more hops than an AS_PATH without confederations, all hops of AS_PATH stay in front of it |
| `AsPathAs4.As4FromBytes` | bgpd/bgp_attr.c:2101-2120 | the same from the bytes of AS_PATH and AS4_PATH as they are sent, for paths whose segments survive splitting; without large numbers AS_PATH alone gives the path |
| `AsPathText.Str2Aspath` | bgpd/bgp_aspath.c:1740-1804 | the token loop computes the parse of the text |
| `AsPathText.TextLayout` | bgpd/bgp_aspath.c:506-606 | the delimiters and separators of each kind of segment in print |
| `AsPathText.TextReadsBack` | bgpd/bgp_aspath.c:506-606 | reparsing any printed path gives it back with empty sequences dropped and adjacent sequences joined |
| `AsPathText.TextRoundTrip` | bgpd/bgp_aspath.c:1674-1804 | so it gives back the same path if and only if it has no empty and no adjacent sequences |
| `AsPathText.TextLosesEmpty` | bgpd/bgp_aspath.c:506-606 | an empty sequence is printed as nothing and read back as the empty path |
| `AsPathText.TextJoinsAdjacent` | bgpd/bgp_aspath.c:506-606 | two adjacent sequences are read back as one |
| `AsPathText.MakeStr` | bgpd/bgp_aspath.c:506-606 | the printed text is complete and strictly shorter than the buffer, which grows as needed, so nothing is truncated and the final assertion holds |
| `AsPathIntern.PathTable.Lookup` | bgpd/bgp_aspath.c:1806-1844 | comparing by cached text finds the entry with the same segments if there is one |
| `AsPathIntern.PathTable.Intern` | bgpd/bgp_aspath.c:616-637 | returns the one entry with these segments and counts one more handle |
| `AsPathIntern.PathTable.Parse` | bgpd/bgp_aspath.c:779-813 | likewise for parsed bytes, and null exactly when parsing fails |
| `AsPathIntern.PathTable.Unintern` | bgpd/bgp_aspath.c:341-359 | one handle less; the entry goes exactly with its last handle |
| `AsPathIntern.PathTable.PointerEqualityIsPathEquality` | bgpd/bgp_attr.c:390-403 | of interned paths the pointers are equal if and only if the segments are |
| `AsPathRuns.RunAll` | bgpd/bgp_aspath.c:341-813 | after any sequence of parsing, interning and giving back, the references held stand for what the same operations make of a plain list of paths; references are equal exactly if their paths are, each entry counts how often its path is held, and there are no other entries |
| `Multipath.Dequeue` | bgpd/bgp_mpath.c:290-302 | the path leaves its chain, which stays linked, with its flag cleared |
| `Multipath.Enqueue` | bgpd/bgp_mpath.c:266-283 | the path joins the chain right behind the given one, wherever that is, and the chain stays linked |
| `Multipath.NexthopCmpIs` | bgpd/bgp_mpath.c:103-143 | the comparison is zero if and only if the next hops in force agree, negative exactly if the first comes first in them, and antisymmetric |
| `Multipath.NexthopCmpTransitive` | bgpd/bgp_mpath.c:103-143 | it is transitive unless the outer two are comparable in the other order and the middle one is not comparable with them, and then it is not |
| `Multipath.NexthopCmpNotTransitive` | bgpd/bgp_mpath.c:103-143 | three paths for which it is not |
| `Multipath.MpathCmpIs` | bgpd/bgp_mpath.c:145-172 | paths are ordered by next hop and then by peer, and equal only if both are |
| `Multipath.GreedyFacts` | bgpd/bgp_mpath.c:395-552 | greedy selection takes at most the allowed number of distinct paths of the list, without the best one, neighbours differing in the next-hop addresses in force |
| `Multipath.GreedyLeavesOut` | bgpd/bgp_mpath.c:395-552 | a path other than the best is left out only if it has the next hop of the one chosen before it or the allowed number is reached |
| `Multipath.Walk` | bgpd/bgp_mpath.c:438-520 | the ordered merge of the old chain with the list ends with the greedy selection linked behind the best path and everything else unlinked; no change signalled means the chain is as before, and for a sorted list the converse |
| `Multipath.MpathUpdate` | bgpd/bgp_mpath.c:395-552 | the whole update refines greedy selection, which `GreedyFacts` and `GreedyLeavesOut` describe, whatever the old chain was, for a new, the same or no best path |
| `Community.EmbedsIsSubset` | bgpd/bgp_community.c:410-437 | on increasing values the one-pass match is inclusion |
| `Community.Match` | bgpd/bgp_community.c:410-437 | the loop decides it, and missing communities match only each other |
| `Community.DiffIsDifference` | bgpd/bgp_community.c:64-112 | deleting value by value is set difference and keeps the order |
| `Community.Com.Include` | bgpd/bgp_community.c:133-145 | membership |
| `Community.Com.DelVal` | bgpd/bgp_community.c:64-97 | the first occurrence goes, the others keep their order |
| `Community.Com.Delete` | bgpd/bgp_community.c:99-112 | set difference of two communities; of one with itself, what the shrinking walk leaves |
| `Community.SelfDiffHalves` | bgpd/bgp_community.c:99-112 | that is every second of increasing values, so nothing only if there was at most one |
| `Community.Com.UniqSort` | bgpd/bgp_community.c:161-185 | the increasing list of the same values, in a new object |
| `Community.Com.Cmp` | bgpd/bgp_community.c:439-453 | equality of values, which on increasing ones is equality of sets; missing communities equal only each other |
| `Community.Com.MergeUniq` | bgpd/bgp_community.c:455-469 | merging and then sorting is union |
| `PeerFsm.TableFacts` | bgpd/bgp_fsm.c:909-1053 | the table enters Established only by the establish handler, which it runs only for a KEEPALIVE in OpenConfirm; where every other event leads is `StatusMoves` |
| `PeerFsm.StepSound` | bgpd/bgp_fsm.c:1074-1111 | every event on every peer keeps the socket open while a session is set up or up and closed while it clears, and only timers of the state running |
| `PeerFsm.HandlerFacts` | bgpd/bgp_fsm.c:434-879 | the stopping handlers close the socket and count a session that was up as dropped, establishing counts one more, and no other handler touches counters or socket, but starting the socket |
| `PeerFsm.StatusMoves` | bgpd/bgp_fsm.c:909-1053 | for every state and event, which state follows, stated by the state that is reached |
| `PeerFsm.SocketMoves` | bgpd/bgp_fsm.c:434-720 | exactly which events close the socket, and which open it |
| `PeerFsm.CounterMoves` | bgpd/bgp_fsm.c:400-577 | sessions are counted when they come up and as dropped when they go to Clearing, and routes are cleared exactly then |
| `PeerFsm.DelayMoves` | bgpd/bgp_fsm.c:580-593 | a NOTIFICATION on a connection doubles the wait before the next start, up to two minutes; a session that comes up sets it back to five seconds |
| `PeerFsm.TimersAfter` | bgpd/bgp_fsm.c:76-214 | timer by timer, when each runs after a step |
| `PeerFsm.FatalEnds` | bgpd/bgp_fsm.c:909-1053 | a NOTIFICATION, a closed or failed connection, an expired hold timer or a stop ends a session at whatever stage and closes its socket |
| `PeerFsm.FatalNeedsNewOpen` | bgpd/bgp_fsm.c:909-1053 | after such an event no run reaches Established again without a new OPEN in OpenSent |
| `PeerFsm.HandshakeSucceeds` | bgpd/bgp_fsm.c:909-1053 | a peer that may start and gets a connection, an OPEN and a KEEPALIVE is up |
| `PeerFsm.IdleSocket` | bgpd/bgp_fsm.c:909-1053 | a peer that falls back to Idle has closed its socket if and only if it had none or the event is one that closes it |
| `PeerFsm.IdleWithSocket` | bgpd/bgp_fsm.c:909-1053 | a KEEPALIVE in OpenSent after which an idle peer has its socket open |
| `PeerFsm.StepBalance` | bgpd/bgp_fsm.c:434-577 | established - dropped - (1 if established) never changes, but for a Clearing_Completed in Established, which adds one |
| `PeerFsm.RunInvariant` | bgpd/bgp_fsm.c:1074-1111 | in every state of every run the socket and the timers fit the state, and established = dropped + (1 if established) holds if and only if no Clearing_Completed has come to an established peer |
| `PeerFsm.SessionLost` | bgpd/bgp_fsm.c:1000-1018 | a run of five events after which one session is counted, none dropped and none up |
| `PeerFsm.EstablishedAfterHandshake` | bgpd/bgp_fsm.c:909-1053 | a session comes up only after an OPEN in OpenSent and then a KEEPALIVE in OpenConfirm, with nothing else in between |
| `PeerFsm.BetweenSessions` | bgpd/bgp_fsm.c:398-420 | between two sessions the peer was in Clearing with its socket closed and its routes were cleared anew, unless the first was lost to a Clearing_Completed |
| `PeerFsm.Session.BgpEvent` | bgpd/bgp_fsm.c:1074-1111 | an event does what table and handler say, which `StatusMoves`, `SocketMoves`, `CounterMoves` and `TimersAfter` pin down, and keeps a sound peer sound |
| `PeerFsm.Session.HandleAll` | bgpd/bgp_fsm.c:1074-1111 | what a new peer goes through on any events is a run of the table, so it is sound and its sessions are accounted for |

## Left out

- UpdateCodec.Decode: a message that claims to extend past the end of the body stops the parser; the code's tests at babeld/message.c:251-259 allow it two more bytes, whose contents are then undefined. The same holds for babeld/message.c:140-160.
- PacketParser.ParseBody: hellos, IHUs, acknowledgements and requests are recognised and skipped; what they do to the neighbour table is not modelled.
- PacketParser.ParsePacket: only the updates of a packet are passed on, for the same reason.
- RouteTable.Table.UpdateRoute: input filter, martian test and link cost are parameters; triggered updates and requests are not modelled; a request to the kernel and an allocation always succeed.
- RouteTable.Table.UpdateKnown: the request for a new sequence number after an unfeasible update is not modelled, because requests are not.
- RouteTable.Table.ConsiderRoute: the update it sends is not modelled; what an update says and what it does to the source is `AdvertiseRoute`.
- RouteTable.Table.RouteChanged: the triggered update for a route that stays is not modelled.
- RouteTable.Table.RouteLost: the update and the request sent when nothing is left are not modelled.
- RouteTable.Table.FindBestRoute: the head of a slot is not tested for feasibility or expiry, as in the code; `ConsiderRoute` tests feasibility again.
- RouteTable.Table.AddNewXroute: with duplicates allowed, consider_route and xroute_add_new_route compare the metric with allow_duplicates in opposite directions; the model does as the code does, and exclusivity is stated for duplicates not allowed.
- SourceTable.Sources.Retain: the assertion that the count stays below 0xffff is not modelled; counts are unbounded.
- SendBuffer.Interface.constructor: an MTU of 65600 or more, for which the 16-bit length of a packet could overflow, is not modelled.
- SendBuffer.Interface.SendBatch: update_source, called for each installed route that is sent, is `RouteTable.Table.AdvertiseRoute`; the send side sees the tables as they are.
- SendBuffer.Interface.FlushUpdates: satisfy_request is not modelled.
- AsPathPack.AspathPut: a split or packed segment of which the first piece fits but the rest does not runs into the end of the stream; what the stream library does then is not modelled.
- AsPathIntern.PathTable.Lookup: the chains of the hash table are one list, searched with the hash value compared first.
- PeerFsm.Session.BgpEvent: peers created for incoming connections (accept peers) are not modelled, nor is what handlers send.
- Multipath.MpathUpdate: the aggregate attribute computed afterwards is not modelled.
- Hellos, IHU, link costs, neighbour tables, requests, unicast buffers and resend queues of babeld: they feed the modelled core through parameters.
- retract_neighbour_routes and flush_all_routes: loops over `flush_route` and `retract_route`, whose index handling skips slots or uninstalls another slot's route.
- aspath_aggregate, aspath_prepend, aspath_filter_exclude and the other AS path queries: not part of the codecs and the normal form.
- Growth and shrinking of the route, source and xroute arrays (capacity only), and freeing of memory.
- Timers' jitter, sockets, threads, logging, configuration, zebra and SNMP.
- Communities' text form and hash, extended communities, flap dampening, filters: they would add easy members or depend on code outside the core.
