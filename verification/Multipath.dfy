/** BGP multipath: keeping the chain of multipaths on the best path in step with the list
    of equal paths (bgpd/bgp_mpath.c). */
module Multipath {
  import opened Options

  /** The next-hop part of the attributes; addresses are compared as numbers in network
      byte order, as memcmp does. */
  datatype Extra = Extra(len: nat, globalIn: nat, global: nat, local: nat)
  datatype Attr = Attr(nexthop: nat, extra: Option<Extra>)

  function Cmp(x: nat, y: nat): int { if x < y then -1 else if x > y then 1 else 0 }

  /** bgp_info_nexthop_cmp */
  function NexthopCmp(a: Attr, b: Attr): int {
    var c := Cmp(a.nexthop, b.nexthop);
    if c == 0 && a.extra.Some? && b.extra.Some? && a.extra.value.len == b.extra.value.len then
      var x, y := a.extra.value, b.extra.value;
      if x.len == 4 || x.len == 12 then Cmp(x.globalIn, y.globalIn)
      else if x.len == 16 then Cmp(x.global, y.global)
      else if x.len == 32 then
        if Cmp(x.global, y.global) != 0 then Cmp(x.global, y.global) else Cmp(x.local, y.local)
      else c
    else c
  }

  /** The further next hops are compared: both paths have them, of one of the known lengths. */
  predicate Comparable(a: Attr, b: Attr) {
    a.extra.Some? && b.extra.Some? && a.extra.value.len == b.extra.value.len && a.extra.value.len in {4, 12, 16, 32}
  }

  /** The addresses in force at that length agree: IPv4 ones at 4 and 12, the global IPv6 one at
      16, and both IPv6 ones at 32. */
  predicate SameExtra(x: Extra, y: Extra)
    requires x.len == y.len
  {
    && (x.len in {4, 12} ==> x.globalIn == y.globalIn)
    && (x.len in {16, 32} ==> x.global == y.global)
    && (x.len == 32 ==> x.local == y.local)
  }

  predicate ExtraBefore(x: Extra, y: Extra)
    requires x.len == y.len
  {
    || (x.len in {4, 12} && x.globalIn < y.globalIn)
    || (x.len in {16, 32} && x.global < y.global)
    || (x.len == 32 && x.global == y.global && x.local < y.local)
  }

  /** The paths go the same way. */
  predicate SameNexthop(a: Attr, b: Attr) {
    a.nexthop == b.nexthop && (Comparable(a, b) ==> SameExtra(a.extra.value, b.extra.value))
  }

  predicate NexthopBefore(a: Attr, b: Attr) {
    a.nexthop < b.nexthop || (a.nexthop == b.nexthop && Comparable(a, b) && ExtraBefore(a.extra.value, b.extra.value))
  }

  /** The comparison says what the addresses in force say. */
  lemma NexthopCmpIs(a: Attr, b: Attr)
    ensures NexthopCmp(a, b) == 0 <==> SameNexthop(a, b)
    ensures NexthopCmp(a, b) < 0 <==> NexthopBefore(a, b)
    ensures NexthopCmp(a, b) > 0 <==> NexthopBefore(b, a)
  {
  }

  /** It is not transitive: a path without further next hops equals paths that differ in them. */
  lemma NexthopCmpNotTransitive()
    ensures var a, b, c := Attr(1, Some(Extra(16, 0, 2, 0))), Attr(1, None), Attr(1, Some(Extra(16, 0, 1, 0)));
            NexthopCmp(a, b) <= 0 && NexthopCmp(b, c) <= 0 && NexthopCmp(a, c) > 0
  {
  }

  /** Exactly then it fails: all three have the same IPv4 next hop, the outer two are comparable
      in the other order, and the middle one is not comparable with them. */
  lemma NexthopCmpTransitive(a: Attr, b: Attr, c: Attr)
    requires NexthopCmp(a, b) <= 0 && NexthopCmp(b, c) <= 0
    ensures NexthopCmp(a, c) <= 0 <==>
              !(a.nexthop == b.nexthop == c.nexthop && Comparable(a, c) && !Comparable(a, b) && ExtraBefore(c.extra.value, a.extra.value))
  {
  }

  /** A bgp_info with its bgp_info_mpath. */
  class Info {
    const attr: Attr
    const remote: nat            // peer address
    var next: Info?              // mp_next
    var prev: Info?              // mp_prev
    var multipath: bool          // BGP_INFO_MULTIPATH
    var changed: bool            // BGP_INFO_MULTIPATH_CHG
    var count: nat               // mp_count
  }

  /** bgp_info_mpath_cmp */
  function MpathCmp(a: Info, b: Info): int {
    if NexthopCmp(a.attr, b.attr) != 0 then NexthopCmp(a.attr, b.attr) else Cmp(a.remote, b.remote)
  }

  /** Paths are ordered by next hop and then by peer, and equal only if both are. */
  lemma MpathCmpIs(a: Info, b: Info)
    ensures MpathCmp(a, b) == 0 <==> SameNexthop(a.attr, b.attr) && a.remote == b.remote
    ensures MpathCmp(a, b) < 0 <==> NexthopBefore(a.attr, b.attr) || (SameNexthop(a.attr, b.attr) && a.remote < b.remote)
    ensures MpathCmp(a, b) > 0 <==> MpathCmp(b, a) < 0
  {
    NexthopCmpIs(a.attr, b.attr);
    NexthopCmpIs(b.attr, a.attr);
  }

  // ---- Chains --------------------------------------------------------------------

  function At(s: seq<Info>, i: int): Info? { if 0 <= i < |s| then s[i] else null }

  ghost predicate Distinct(s: seq<Info>) {
    forall i, j | 0 <= i < j < |s| :: s[i] != s[j]
  }

  ghost predicate Links(s: seq<Info>, i: nat)
    requires i < |s|
    reads s`next, s`prev
  {
    s[i].next == At(s, i + 1) && s[i].prev == At(s, i - 1)
  }

  ghost predicate Linked(s: seq<Info>)
    reads s`next, s`prev
  {
    forall i | 0 <= i < |s| :: Links(s, i)
  }

  ghost predicate Loose(x: Info)
    reads x
  {
    x.next == null && x.prev == null && !x.multipath
  }

  /** Among the paths `all`, exactly those on the chains `r` and `n` are linked, in that
      order. */
  ghost predicate Shape(r: seq<Info>, n: seq<Info>, all: set<Info>)
    reads r, n, all
  {
    && Linked(r) && Linked(n) && Distinct(r) && Distinct(n)
    && (forall x <- r :: x in all && x !in n)
    && (forall x <- n :: x in all)
    && (forall x <- all :: x !in r && x !in n ==> Loose(x))
  }

  /** The chain `s` without `b`. */
  ghost function Minus(s: seq<Info>, b: Info): (t: seq<Info>)
    ensures b !in s ==> t == s
    ensures b in s ==> exists k :: 0 <= k < |s| && s[k] == b && t == s[..k] + s[k + 1..]
  {
    if b in s then
      var k :| 0 <= k < |s| && s[k] == b;
      s[..k] + s[k + 1..]
    else s
  }

  lemma MinusFacts(s: seq<Info>, b: Info)
    requires Distinct(s)
    ensures Distinct(Minus(s, b)) && forall x :: x in Minus(s, b) <==> x in s && x != b
    ensures s != [] && s[0] == b ==> Minus(s, b) == s[1..]
    ensures s != [] && s[0] != b ==> Minus(s, b) != [] && Minus(s, b)[0] == s[0]
  {
  }

  /** The links of bgp_info_mpath_dequeue: take `b`, which is on the chain `r` or loose,
      out of it. */
  method Unlink(b: Info, ghost r: seq<Info>)
    requires Linked(r) && Distinct(r) && (b in r || (b.next == null && b.prev == null))
    modifies r`next, r`prev, b`next, b`prev
    ensures Linked(Minus(r, b)) && b.next == null && b.prev == null
  {
    ghost var s := Minus(r, b);
    ghost var k := |r|;
    if b in r {
      k :| 0 <= k < |r| && r[k] == b && s == r[..k] + r[k + 1..];
      assert Links(r, k);
    }
    if b.prev != null { b.prev.next := b.next; }
    if b.next != null { b.next.prev := b.prev; }
    b.next, b.prev := null, null;
    forall i | 0 <= i < |s|
      ensures Links(s, i)
    {
      var j := if i < k then i else i + 1;
      assert s[i] == r[j] && r[j] != b && old(Links(r, j));
      assert At(s, i - 1) == (if j - 1 == k then At(r, k - 1) else At(r, j - 1));
      assert At(s, i + 1) == (if j + 1 == k then At(r, k + 1) else At(r, j + 1));
    }
  }

  function WithInserted(s: seq<Info>, k: nat, b: Info): seq<Info>
    requires k < |s|
  {
    s[..k + 1] + [b] + s[k + 1..]
  }

  /** The links of bgp_info_mpath_enqueue: put `b` behind `p` in the chain `n`. */
  method LinkBehind(p: Info, b: Info, ghost n: seq<Info>, ghost k: nat)
    requires Linked(n) && Distinct(n) && k < |n| && n[k] == p && b !in n
    modifies n`next, n`prev, b`next, b`prev
    ensures Linked(WithInserted(n, k, b))
  {
    assert Links(n, k);
    b.next := p.next;
    b.prev := p;
    if p.next != null { p.next.prev := b; }
    p.next := b;
    ghost var s := WithInserted(n, k, b);
    forall i | 0 <= i < |s|
      ensures Links(s, i)
    {
      if i != k + 1 { assert old(Links(n, if i <= k then i else i - 1)); }
    }
  }

  /** ... leaving a chain that `b` is not on as it is. */
  method UnlinkBeside(b: Info, ghost r: seq<Info>, ghost n: seq<Info>)
    requires Linked(r) && Distinct(r) && (b in r || (b.next == null && b.prev == null))
    requires Linked(n) && b !in n && forall x <- r :: x !in n
    modifies r`next, r`prev, b`next, b`prev
    ensures Linked(Minus(r, b)) && b.next == null && b.prev == null && Linked(n)
  {
    Unlink(b, r);
    forall i | 0 <= i < |n|
      ensures Links(n, i)
    {
      assert n[i] in n && n[i] !in r;
      assert n[i].next == old(n[i].next) && n[i].prev == old(n[i].prev);
      assert old(Links(n, i));
    }
  }

  /** bgp_info_mpath_dequeue of a path that is on the chain `r` or loose. */
  method Dequeue(b: Info, ghost r: seq<Info>, ghost n: seq<Info>, ghost all: set<Info>)
    requires Shape(r, n, all) && b in all && b !in n
    modifies r`next, r`prev, b`next, b`prev, b`multipath
    ensures Shape(Minus(r, b), n, all)
    ensures Loose(b)
  {
    MinusFacts(r, b);
    UnlinkBeside(b, r, n);
    b.multipath := false;
    forall x <- all | x !in Minus(r, b) && x !in n
      ensures Loose(x)
    {
      if x != b { assert x !in r && old(Loose(x)); }
    }
  }

  /** bgp_info_mpath_enqueue behind the path `p`, anywhere in the chain `n`. */
  method Enqueue(p: Info, b: Info, ghost r: seq<Info>, ghost n: seq<Info>, ghost k: nat, ghost all: set<Info>)
    requires Shape(r, n, all) && k < |n| && n[k] == p
    requires b in all && b !in r && b !in n
    modifies n`next, n`prev, b`next, b`prev, b`multipath
    ensures Shape(r, WithInserted(n, k, b), all)
    ensures b.multipath
  {
    LinkBehind(p, b, n, k);
    b.multipath := true;
    forall i | 0 <= i < |r|
      ensures Links(r, i)
    {
      assert old(Links(r, i)) && r[i] in r;
    }
  }

  // ---- Selection ------------------------------------------------------------------

  /** The simple rule: walk the list once, skip the best path, keep a path whose nexthop
      differs from the one kept before it, until `max` paths are in use. */
  function Greedy(list: seq<Info>, best: Info?, last: Info, count: nat, max: nat): seq<Info> {
    if list == [] then []
    else if count < max && list[0] != best && NexthopCmp(last.attr, list[0].attr) != 0
    then [list[0]] + Greedy(list[1..], best, list[0], count + 1, max)
    else Greedy(list[1..], best, last, count, max)
  }

  lemma {:induction false} GreedyFull(list: seq<Info>, best: Info?, last: Info, count: nat, max: nat)
    requires count >= max
    ensures Greedy(list, best, last, count, max) == []
  {
    if list != [] { GreedyFull(list[1..], best, last, count, max); }
  }

  /** At most max - 1 multipaths besides the best path, all from the list, in its order,
      none the best path, and no two neighbours with the same nexthop. */
  lemma {:induction false} GreedyFacts(list: seq<Info>, best: Info?, last: Info, count: nat, max: nat)
    ensures |Greedy(list, best, last, count, max)| <= if count < max then max - count else 0
    ensures forall x <- Greedy(list, best, last, count, max) :: x in list && x != best
    ensures Distinct(list) ==> Distinct(Greedy(list, best, last, count, max))
    ensures var g := [last] + Greedy(list, best, last, count, max);
            forall i | 0 <= i < |g| - 1 :: !SameNexthop(g[i].attr, g[i + 1].attr)
  {
    if list != [] { NexthopCmpIs(last.attr, list[0].attr); }
    if list != [] {
      var x := list[0];
      if count < max && x != best && NexthopCmp(last.attr, x.attr) != 0 {
        GreedyFacts(list[1..], best, x, count + 1, max);
        var h := [x] + Greedy(list[1..], best, x, count + 1, max);
        var g := [last] + h;
        assert forall i | 1 <= i < |g| :: g[i] == h[i - 1];
        assert Distinct(list) ==> x !in list[1..] && Distinct(list[1..]);
        assert forall i | 1 <= i < |h| :: h[i] in Greedy(list[1..], best, x, count + 1, max);
      } else {
        GreedyFacts(list[1..], best, last, count, max);
      }
    }
  }

  /** The path last chosen among the first `i` of the list, and how many were. */
  ghost function LastChosen(list: seq<Info>, best: Info?, last: Info, count: nat, max: nat, i: nat): (Info, nat)
    requires i <= |list|
  {
    var g := Greedy(list[..i], best, last, count, max);
    (if g == [] then last else g[|g| - 1], count + |g|)
  }

  lemma {:induction false} GreedyAppend(list: seq<Info>, x: Info, best: Info?, last: Info, count: nat, max: nat)
    ensures var g := Greedy(list, best, last, count, max);
            var l := if g == [] then last else g[|g| - 1];
            Greedy(list + [x], best, last, count, max)
            == if count + |g| < max && x != best && !SameNexthop(l.attr, x.attr) then g + [x] else g
  {
    if list == [] {
      assert list + [x] == [x] && [x][1..] == [];
      NexthopCmpIs(last.attr, x.attr);
    } else {
      assert (list + [x])[1..] == list[1..] + [x] && (list + [x])[0] == list[0];
      if count < max && list[0] != best && NexthopCmp(last.attr, list[0].attr) != 0 {
        GreedyAppend(list[1..], x, best, list[0], count + 1, max);
        var h := Greedy(list[1..], best, list[0], count + 1, max);
        assert [list[0]] + (h + [x]) == ([list[0]] + h) + [x];
      } else {
        GreedyAppend(list[1..], x, best, last, count, max);
      }
    }
  }

  /** Nothing is passed over: of the paths of the list, one that is not the best path is left out
      only if it goes the way of the path chosen before it, or the allowed number is reached. */
  lemma {:induction false} GreedyLeavesOut(list: seq<Info>, best: Info?, last: Info, count: nat, max: nat, i: nat)
    requires i < |list| && list[i] !in Greedy(list[..i + 1], best, last, count, max) && list[i] != best
    ensures SameNexthop(LastChosen(list, best, last, count, max, i).0.attr, list[i].attr)
            || LastChosen(list, best, last, count, max, i).1 >= max
  {
    assert list[..i] + [list[i]] == list[..i + 1];
    GreedyAppend(list[..i], list[i], best, last, count, max);
    var g := Greedy(list[..i], best, last, count, max);
    assert (g + [list[i]])[|g|] == list[i];
  }

  /** What is chosen from the list is chosen from each of its beginnings. */
  lemma {:induction false} GreedyGrows(list: seq<Info>, best: Info?, last: Info, count: nat, max: nat, i: nat)
    requires i <= |list|
    ensures Greedy(list[..i], best, last, count, max) <= Greedy(list, best, last, count, max)
    decreases |list| - i
  {
    if i == |list| {
      assert list[..i] == list;
    } else {
      GreedyGrows(list, best, last, count, max, i + 1);
      assert list[..i] + [list[i]] == list[..i + 1];
      GreedyAppend(list[..i], list[i], best, last, count, max);
    }
  }

  lemma StartChain(r: seq<Info>, b: Info, all: set<Info>)
    requires Shape(r, [], all) && b in all && b !in r
    ensures Shape(r, [b], all)
  {
    assert Loose(b);
    assert Links([b], 0);
  }

  /** Midway through the walk: `r` is what is left of the old chain, `n` the new chain so
      far, `list` the unvisited part of the list.  The new chain will be `goal`, and unless a
      change was noticed it is, up to here, the old chain `was`. */
  ghost predicate Walking(best: Info, r: seq<Info>, n: seq<Info>, list: seq<Info>, max: nat, changed: bool,
                          goal: seq<Info>, was: seq<Info>, all: set<Info>)
    reads r, n, all
  {
    && Shape(r, n, all)
    && n != [] && n[0] == best
    && Distinct(list)
    && (forall x <- list :: x in all && (x in n ==> x == best))
    && n + Greedy(list, best, n[|n| - 1], |n|, max) == goal
    && !best.multipath
    && (forall i | 1 <= i < |n| :: n[i].multipath)
    && (!changed ==> n + r == was)
  }

  /** The list is ordered as listnode_add_sort leaves it. */
  predicate Sorted(list: seq<Info>) {
    forall i, j | 0 <= i < j < |list| :: MpathCmp(list[j], list[i]) >= 0
  }

  /** The rest of the old chain is what the rest of the sorted list will select, and no
      change has been noticed. */
  predicate InStep(best: Info, r: seq<Info>, n: seq<Info>, list: seq<Info>, max: nat, changed: bool)
    requires n != []
  {
    Sorted(list) && r == Greedy(list, best, n[|n| - 1], |n|, max) && !changed
  }

  lemma {:induction false} InStepAhead(list: seq<Info>, best: Info?, last: Info, count: nat, max: nat)
    requires Sorted(list) && Greedy(list, best, last, count, max) != []
    ensures list != []
    ensures Greedy(list, best, last, count, max)[0] != list[0] ==>
              MpathCmp(Greedy(list, best, last, count, max)[0], list[0]) >= 0
  {
    GreedyFacts(list, best, last, count, max);
    var g := Greedy(list, best, last, count, max)[0];
    assert g in list;
  }

  /** In step, the path at the head of both lists is kept. */
  lemma {:induction false} InStepKeeps(best: Info, r: seq<Info>, n: seq<Info>, list: seq<Info>, max: nat)
    requires n != [] && InStep(best, r, n, list, max, false) && Distinct(list)
    requires r != [] && list != [] && r[0] == list[0]
    ensures |n| < max && NexthopCmp(n[|n| - 1].attr, list[0].attr) != 0
    ensures InStep(best, r[1..], n + [list[0]], list[1..], max, false)
  {
    var last := n[|n| - 1];
    GreedyFacts(list[1..], best, last, |n|, max);
    assert Greedy(list[1..], best, last, |n|, max) != [] ==> Greedy(list[1..], best, last, |n|, max)[0] in list[1..];
  }

  /** Dequeue and enqueue: `x`, from the old chain or loose, becomes the end of the new chain. */
  method Move(last: Info, x: Info, ghost r: seq<Info>, ghost n: seq<Info>, ghost all: set<Info>)
    requires Shape(r, n, all) && n != [] && n[|n| - 1] == last && x in all && x !in n
    modifies all`next, all`prev, x`multipath
    ensures Shape(Minus(r, x), n + [x], all) && x.multipath
  {
    Dequeue(x, r, n, all);
    MinusFacts(r, x);
    Enqueue(last, x, Minus(r, x), n, |n| - 1, all);
    assert WithInserted(n, |n| - 1, x) == n + [x];
  }

  lemma GreedyTakes(n: seq<Info>, list: seq<Info>, best: Info, last: Info, max: nat)
    requires list != [] && |n| < max && list[0] != best && NexthopCmp(last.attr, list[0].attr) != 0
    ensures n + Greedy(list, best, last, |n|, max)
         == (n + [list[0]]) + Greedy(list[1..], best, list[0], |n| + 1, max)
  {
    var rest := Greedy(list[1..], best, list[0], |n| + 1, max);
    assert n + ([list[0]] + rest) == (n + [list[0]]) + rest;
  }

  lemma Shift(n: seq<Info>, r: seq<Info>)
    requires r != []
    ensures n + r == (n + [r[0]]) + r[1..]
  {
    assert r == [r[0]] + r[1..];
  }

  /** An old multipath that is not in the list, or comes later in it, is purged. */
  method Purge(best: Info, cur: Info, list: seq<Info>, max: nat, changed: bool,
               ghost r: seq<Info>, ghost n: seq<Info>, ghost goal: seq<Info>, ghost was: seq<Info>, ghost all: set<Info>)
    requires Walking(best, r, n, list, max, changed, goal, was, all) && r != [] && cur == r[0]
    modifies all`next, all`prev, all`multipath
    ensures Walking(best, r[1..], n, list, max, true, goal, was, all)
  {
    assert r[0] in r;
    MinusFacts(r, cur);
    Dequeue(cur, r, n, all);
  }

  /** Both lists are at the same path: it was a multipath and may still be one. */
  method KeepOrDrop(best: Info, last: Info, cur: Info, list: seq<Info>, count: nat, max: nat, changed: bool,
                    ghost r: seq<Info>, ghost n: seq<Info>, ghost goal: seq<Info>, ghost was: seq<Info>, ghost all: set<Info>)
    returns (last': Info, count': nat, changed': bool, ghost n': seq<Info>)
    requires Walking(best, r, n, list, max, changed, goal, was, all) && last == n[|n| - 1] && count == |n|
    requires r != [] && list != [] && list[0] == cur == r[0]
    modifies all`next, all`prev, all`multipath
    ensures Walking(best, r[1..], n', list[1..], max, changed', goal, was, all)
    ensures last' == n'[|n'| - 1] && count' == |n'|
    ensures InStep(best, r, n, list, max, changed) ==> InStep(best, r[1..], n', list[1..], max, changed')
  {
    assert cur in r;
    if InStep(best, r, n, list, max, changed) { InStepKeeps(best, r, n, list, max); }
    if count < max && NexthopCmp(last.attr, cur.attr) != 0 {
      GreedyTakes(n, list, best, last, max);
      Shift(n, r);
      MinusFacts(r, cur);
      Move(last, cur, r, n, all);
      last', count', changed', n' := cur, count + 1, changed, n + [cur];
    } else {
      Purge(best, cur, list, max, changed, r, n, goal, was, all);
      last', count', changed', n' := last, count, true, n;
    }
  }

  /** A path from the list that was not a multipath, or is further down the old chain. */
  method TakeOrSkip(best: Info, last: Info, x: Info, list: seq<Info>, count: nat, max: nat, changed: bool,
                    ghost r: seq<Info>, ghost n: seq<Info>, ghost goal: seq<Info>, ghost was: seq<Info>, ghost all: set<Info>)
    returns (last': Info, count': nat, changed': bool, ghost r': seq<Info>, ghost n': seq<Info>)
    requires Walking(best, r, n, list, max, changed, goal, was, all) && last == n[|n| - 1] && count == |n|
    requires list != [] && list[0] == x && (r != [] ==> r[0] != x)
    modifies all`next, all`prev, all`multipath
    ensures Walking(best, r', n', list[1..], max, changed', goal, was, all)
    ensures last' == n'[|n'| - 1] && count' == |n'|
    ensures At(r', 0) == At(r, 0) && |r'| <= |r|
    ensures InStep(best, r, n, list, max, changed) ==> InStep(best, r', n', list[1..], max, changed')
  {
    last', count', changed', r', n' := last, count, changed, r, n;
    MinusFacts(r, x);
    if count < max && x != best && NexthopCmp(last.attr, x.attr) != 0 {
      GreedyTakes(n, list, best, last, max);
      Move(last, x, r, n, all);
      last', count', changed', r', n' := x, count + 1, true, Minus(r, x), n + [x];
    }
  }

  /** The variables of the walk fit its ghost state; `inStep` if nothing need change. */
  ghost predicate Midway(best: Info, last: Info, cur: Info?, list: seq<Info>, count: nat, max: nat, changed: bool, inStep: bool,
                         r: seq<Info>, n: seq<Info>, goal: seq<Info>, was: seq<Info>, all: set<Info>)
    reads r, n, all
  {
    && Walking(best, r, n, list, max, changed, goal, was, all)
    && cur == At(r, 0) && last == n[|n| - 1] && count == |n|
    && (inStep ==> InStep(best, r, n, list, max, changed))
  }

  /** One round of the walk. */
  method Advance(best: Info, last: Info, cur: Info?, list: seq<Info>, count: nat, max: nat, changed: bool, ghost inStep: bool,
                 ghost r: seq<Info>, ghost n: seq<Info>, ghost goal: seq<Info>, ghost was: seq<Info>, ghost all: set<Info>)
    returns (last': Info, cur': Info?, list': seq<Info>, count': nat, changed': bool, ghost r': seq<Info>, ghost n': seq<Info>)
    requires Midway(best, last, cur, list, count, max, changed, inStep, r, n, goal, was, all) && (list != [] || cur != null)
    modifies all`next, all`prev, all`multipath
    ensures Midway(best, last', cur', list', count', max, changed', inStep, r', n', goal, was, all)
    ensures |list'| + |r'| < |list| + |r|
  {
    last', cur', list', count', changed', r', n' := last, cur, list, count, changed, r, n;
    assert r != [] ==> Links(r, 0);
    if r != [] && inStep { InStepAhead(list, best, last, count, max); }
    var next := if cur != null then cur.next else null;
    if list != [] && list[0] == cur {
      last', count', changed', n' := KeepOrDrop(best, last, cur, list, count, max, changed, r, n, goal, was, all);
      list', cur', r' := list[1..], next, r[1..];
    } else if cur != null && (list == [] || MpathCmp(cur, list[0]) < 0) {
      Purge(best, cur, list, max, changed, r, n, goal, was, all);
      changed', cur', r' := true, next, r[1..];
    } else {
      last', count', changed', r', n' := TakeOrSkip(best, last, list[0], list, count, max, changed, r, n, goal, was, all);
      list' := list[1..];
    }
  }

  /** The walk over both lists, the new chain starting with `best`. */
  method Walk(best: Info, first: Info?, mpList: seq<Info>, max: nat, ghost chain: seq<Info>, ghost all: set<Info>)
    returns (count: nat, changed: bool, ghost n: seq<Info>)
    requires Shape(chain, [best], all) && first == At(chain, 0) && !best.multipath
    requires Distinct(mpList) && forall x <- mpList :: x in all
    modifies all`next, all`prev, all`multipath
    ensures n == [best] + Greedy(mpList, best, best, 1, max) && count == |n|
    ensures Shape([], n, all)
    ensures !best.multipath && forall x <- Greedy(mpList, best, best, 1, max) :: x.multipath
    ensures !changed ==> n == [best] + chain
    ensures Sorted(mpList) && n == [best] + chain ==> !changed
  {
    var last, cur, list := best, first, mpList;
    ghost var g := Greedy(mpList, best, best, 1, max);
    ghost var r, goal, was := chain, [best] + g, [best] + chain;
    ghost var inStep := Sorted(mpList) && goal == was;
    n, count, changed := [best], 1, false;
    assert goal[1..] == g && was[1..] == chain;
    while list != [] || cur != null
      invariant Midway(best, last, cur, list, count, max, changed, inStep, r, n, goal, was, all)
      decreases |list| + |r|
    {
      if cur == null && count >= max { break; }
      last, cur, list, count, changed, r, n := Advance(best, last, cur, list, count, max, changed, inStep, r, n, goal, was, all);
    }
    Arrived(best, r, n, list, max, changed, goal, was, all);
  }

  /** At the end of the walk the new chain is what was wanted. */
  lemma Arrived(best: Info, r: seq<Info>, n: seq<Info>, list: seq<Info>, max: nat, changed: bool,
                goal: seq<Info>, was: seq<Info>, all: set<Info>)
    requires Walking(best, r, n, list, max, changed, goal, was, all)
    requires r == [] && (list == [] || |n| >= max)
    ensures Shape([], n, all) && n == goal && (!changed ==> n == was)
    ensures forall x <- n[1..] :: x.multipath
  {
    if list != [] { GreedyFull(list, best, n[|n| - 1], |n|, max); }
    assert n + [] == n;
  }

  /** The same loop when there is no best path any more: every old multipath is purged. */
  method PurgeAll(first: Info?, ghost chain: seq<Info>, ghost all: set<Info>)
    requires Shape(chain, [], all) && first == At(chain, 0)
    modifies all`next, all`prev, all`multipath
    ensures Shape([], [], all)
  {
    var cur := first;
    ghost var r := chain;
    while cur != null
      invariant Shape(r, [], all) && cur == At(r, 0)
      decreases |r|
    {
      assert Links(r, 0) && cur in r;
      MinusFacts(r, cur);
      var next := cur.next;
      Dequeue(cur, r, [], all);
      cur, r := next, r[1..];
    }
  }

  /** What bgp_info_mpath_update may assume: `chain` is the chain hanging on `oldBest`, no
      other path is linked, and without a best path there is nothing to select from. */
  ghost predicate Ready(newBest: Info?, oldBest: Info?, mpList: seq<Info>, chain: seq<Info>, all: set<Info>)
    reads chain, all
  {
    && Shape(chain, [], all)
    && (oldBest == null ==> chain == []) && (oldBest != null ==> chain != [] && chain[0] == oldBest)
    && (newBest != null ==> newBest in all) && (newBest == null ==> mpList == [])
    && Distinct(mpList) && (forall x <- mpList :: x in all)
  }

  /** A new best path leaves the chain it may have been on. */
  method DetachNew(newBest: Info?, oldBest: Info?, ghost mpList: seq<Info>, ghost chain: seq<Info>, ghost all: set<Info>)
    returns (ghost r: seq<Info>)
    requires Ready(newBest, oldBest, mpList, chain, all)
    modifies all`next, all`prev, all`multipath
    ensures Shape(r, [], all)
    ensures newBest != null && newBest != oldBest ==> newBest !in r
    ensures if oldBest == null then r == [] else r != [] && r[0] == oldBest
    ensures newBest == oldBest ==> r == chain
  {
    r := chain;
    if newBest != null && newBest != oldBest {
      MinusFacts(r, newBest);
      Dequeue(newBest, r, [], all);
      r := Minus(r, newBest);
    }
  }

  /** The old best path leaves its chain, whose first multipath is returned. */
  method DetachOld(oldBest: Info, ghost r: seq<Info>, ghost all: set<Info>) returns (cur: Info?)
    requires Shape(r, [], all) && r != [] && r[0] == oldBest
    modifies all`next, all`prev, all`multipath
    ensures Shape(r[1..], [], all) && cur == At(r[1..], 0) && oldBest !in r[1..]
  {
    assert Links(r, 0) && oldBest in r;
    cur := oldBest.next;
    MinusFacts(r, oldBest);
    Dequeue(oldBest, r, [], all);
  }

  /** bgp_info_mpath_update.  `max` is maximum-paths for the kind of peer `newBest` has.
      Whatever the old chain was, the new one is the greedy selection; every other path is
      unlinked and unmarked; an unchanged best path without signal keeps its chain, and with
      a sorted list nothing is signalled when the selection stays the same. */
  method MpathUpdate(newBest: Info?, oldBest: Info?, mpList: seq<Info>, max: nat, ghost chain: seq<Info>, ghost all: set<Info>)
    returns (signalled: bool)
    requires Ready(newBest, oldBest, mpList, chain, all)
    modifies all
    ensures newBest == null ==> Shape([], [], all)
    ensures newBest != null ==>
              var g := Greedy(mpList, newBest, newBest, 1, max);
              && Shape([], [newBest] + g, all)
              && !newBest.multipath && (forall x <- g :: x.multipath)
              && newBest.count == |g|
              && newBest.changed == (old(newBest.changed) || signalled)
              && (newBest == oldBest && !signalled ==> [newBest] + g == chain)
              && (newBest == oldBest && Sorted(mpList) && [newBest] + g == chain && old(newBest.count) == |g| ==> !signalled)
    ensures oldBest != null && oldBest != newBest ==> oldBest.count == 0
  {
    var cur: Info?, oldCount := null, 0;
    ghost var r := DetachNew(newBest, oldBest, mpList, chain, all);
    if oldBest != null {
      oldCount := oldBest.count;
      oldBest.count := 0;
      cur := DetachOld(oldBest, r, all);
      r := r[1..];
    }
    assert newBest != null && newBest == oldBest ==> chain == [newBest] + r;
    signalled := false;
    if newBest == null {
      PurgeAll(cur, r, all);
    } else {
      signalled := Reselect(newBest, cur, mpList, max, oldCount, r, all);
    }
  }

  /** The walk from a best path, and what it leads to. */
  method Reselect(best: Info, cur: Info?, mpList: seq<Info>, max: nat, oldCount: nat, ghost r: seq<Info>, ghost all: set<Info>)
    returns (signalled: bool)
    requires Shape(r, [], all) && best in all && best !in r && cur == At(r, 0)
    requires Distinct(mpList) && forall x <- mpList :: x in all
    modifies all`next, all`prev, all`multipath, best`count, best`changed
    ensures var g := Greedy(mpList, best, best, 1, max);
            && Shape([], [best] + g, all)
            && !best.multipath && (forall x <- g :: x.multipath)
            && best.count == |g| && best.changed == (old(best.changed) || signalled)
            && (!signalled ==> g == r) && (Sorted(mpList) && g == r && oldCount == |g| ==> !signalled)
  {
    ghost var n;
    var count, changed;
    StartChain(r, best, all);
    count, changed, n := Walk(best, cur, mpList, max, r, all);
    assert n[1..] == Greedy(mpList, best, best, 1, max) && ([best] + r)[1..] == r;
    best.count := count - 1;
    signalled := changed || best.count != oldCount;
    if signalled { best.changed := true; }
  }
}
