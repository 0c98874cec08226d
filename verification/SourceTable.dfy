/** The source table (babeld/source.c): a list of feasibility distances, each with the
    number of routes that use it. */
module SourceTable {
  import opened Seqno
  import opened BabelTypes

  datatype Entry = Entry(key: SourceKey, src: Source, count: nat)

  type Table = map<SourceKey, Entry>

  /** The list, without repeated keys, holds exactly the entries of `t`. */
  ghost predicate Lists(list: seq<Entry>, t: Table) {
    && (forall i, j | 0 <= i < j < |list| :: list[i].key != list[j].key)
    && (forall i | 0 <= i < |list| :: list[i].key in t && t[list[i].key] == list[i])
    && (forall k <- t :: t[k] in list && t[k].key == k)
  }

  lemma ListsSet(list: seq<Entry>, t: Table, i: nat, e: Entry)
    requires Lists(list, t) && i < |list| && e.key == list[i].key
    ensures Lists(list[i := e], t[e.key := e])
  {
    var l, t' := list[i := e], t[e.key := e];
    assert l[i] == e;
    forall k | k in t'
      ensures t'[k] in l
    {
      if k != e.key {
        var j :| 0 <= j < |list| && list[j] == t[k];
        assert l[j] == t'[k];
      }
    }
  }

  lemma ListsCons(list: seq<Entry>, t: Table, e: Entry)
    requires Lists(list, t) && e.key !in t
    ensures Lists([e] + list, t[e.key := e])
  {
    var l := [e] + list;
    assert forall j | 0 <= j < |list| :: l[j + 1] == list[j];
    assert forall j | 1 <= j < |l| :: l[j] == list[j - 1];
  }

  lemma ListsRemove(list: seq<Entry>, t: Table, i: nat)
    requires Lists(list, t) && i < |list|
    ensures Lists(list[..i] + list[i + 1..], t - {list[i].key})
  {
    var l, t' := list[..i] + list[i + 1..], t - {list[i].key};
    forall k | k in t'
      ensures t'[k] in l
    {
      var j :| 0 <= j < |list| && list[j] == t[k];
      assert l[if j < i then j else j - 1] == t[k];
    }
  }

  lemma ListsTail(list: seq<Entry>, t: Table)
    requires Lists(list, t) && list != []
    ensures Lists(list[1..], t - {list[0].key}) && list[0].key in t && t[list[0].key] == list[0]
  {
    ListsRemove(list, t, 0);
    assert list[..0] + list[1..] == list[1..];
  }

  /** What expire_sources does to an entry it keeps: a time in the future is a sign that the
      clock was stepped. */
  function Clamped(e: Entry, now: int): Entry {
    if e.src.time > now then e.(src := e.src.(time := now)) else e
  }

  /** The entries it drops: stale ones no route uses. */
  predicate Dropped(e: Entry, now: int) { Stale(Clamped(e, now).src, now) && e.count == 0 }

  function Kept(list: seq<Entry>, now: int): seq<Entry> {
    if list == [] then []
    else if Dropped(list[0], now) then Kept(list[1..], now)
    else [Clamped(list[0], now)] + Kept(list[1..], now)
  }

  ghost function TableKept(t: Table, now: int): Table {
    map k | k in t && !Dropped(t[k], now) :: Clamped(t[k], now)
  }

  lemma TableKeptWithout(t: Table, k: SourceKey, now: int)
    requires k in t && t[k].key == k
    ensures TableKept(t, now) == if Dropped(t[k], now) then TableKept(t - {k}, now)
                                 else TableKept(t - {k}, now)[k := Clamped(t[k], now)]
    ensures k !in TableKept(t - {k}, now)
  {
  }

  lemma {:induction false} KeptLists(list: seq<Entry>, t: Table, now: int)
    requires Lists(list, t)
    ensures Lists(Kept(list, now), TableKept(t, now))
  {
    if list == [] {
      assert t == map[] && TableKept(t, now) == map[];
    } else {
      var e := list[0];
      ListsTail(list, t);
      KeptLists(list[1..], t - {e.key}, now);
      TableKeptWithout(t, e.key, now);
      if Dropped(e, now) {
        assert Kept(list, now) == Kept(list[1..], now);
      } else {
        ListsCons(Kept(list[1..], now), TableKept(t - {e.key}, now), Clamped(e, now));
        assert Kept(list, now) == [Clamped(e, now)] + Kept(list[1..], now);
      }
    }
  }

  lemma {:induction false} KeptNext(list: seq<Entry>, n: nat, now: int)
    requires n < |list|
    ensures Kept(list[..n + 1], now) == Kept(list[..n], now) + Kept([list[n]], now)
    decreases n
  {
    if n == 0 {
      assert list[..1] == [list[0]];
    } else {
      assert list[..n + 1][1..] == list[1..][..n] && list[..n][1..] == list[1..][..n - 1];
      KeptNext(list[1..], n - 1, now);
    }
  }

  /** The walk of expire_sources has dealt with the first `n` entries of `was`. */
  ghost predicate Walked(was: seq<Entry>, n: nat, list: seq<Entry>, i: nat, now: int) {
    n <= |was| && list == Kept(was[..n], now) + was[n..] && i == |Kept(was[..n], now)|
  }

  lemma WalkedNext(was: seq<Entry>, n: nat, list: seq<Entry>, i: nat, now: int)
    requires Walked(was, n, list, i, now) && i < |list|
    ensures n < |was| && list[i] == was[n]
    ensures if Dropped(was[n], now) then Walked(was, n + 1, list[..i] + list[i + 1..], i, now)
            else Walked(was, n + 1, list[i := Clamped(was[n], now)], i + 1, now)
  {
    var k := Kept(was[..n], now);
    assert n < |was| && was[n..] == [was[n]] + was[n + 1..];
    KeptNext(was, n, now);
    if Dropped(was[n], now) {
      assert Kept([was[n]], now) == [];
      assert list[..i] + list[i + 1..] == k + was[n + 1..];
    } else {
      assert Kept([was[n]], now) == [Clamped(was[n], now)];
      assert list[i := Clamped(was[n], now)] == k + [Clamped(was[n], now)] + was[n + 1..];
    }
  }

  function Retained(t: Table, s: SourceKey): Table
    requires s in t
  {
    t[s := t[s].(count := t[s].count + 1)]
  }

  function Released(t: Table, s: SourceKey): Table
    requires s in t && t[s].count > 0
  {
    t[s := t[s].(count := t[s].count - 1)]
  }

  class Sources {
    var list: seq<Entry>
    ghost var table: Table

    ghost predicate Valid()
      reads this
    {
      Lists(list, table)
    }

    constructor ()
      ensures Valid() && table == map[]
    {
      list, table := [], map[];
    }

    /** The search of find_source. */
    method Index(key: SourceKey) returns (i: nat)
      requires Valid()
      ensures i <= |list| && (i < |list| <==> key in table)
      ensures i < |list| ==> list[i] == table[key]
    {
      i := 0;
      while i < |list| && list[i].key != key
        invariant i <= |list| && forall j | 0 <= j < i :: list[j].key != key
      {
        i := i + 1;
      }
    }

    /** Writing through a source pointer. */
    method Set(key: SourceKey, e: Entry)
      requires Valid() && key in table && e.key == key
      modifies this
      ensures Valid() && table == old(table)[key := e]
    {
      var i := Index(key);
      ListsSet(list, table, i, e);
      list, table := list[i := e], table[key := e];
    }

    /** Reading through a source pointer. */
    method Get(key: SourceKey) returns (e: Entry)
      requires Valid() && key in table
      ensures e == table[key]
    {
      var i := Index(key);
      e := list[i];
    }

    /** find_source */
    method Find(key: SourceKey, create: bool, seqno: u16, now: int) returns (found: bool)
      requires Valid()
      modifies this
      ensures Valid() && (found <==> key in table)
      ensures if key in old(table) || !create then table == old(table)
              else table == old(table)[key := Entry(key, Source(seqno, INFINITY, now), 0)]
    {
      var i := Index(key);
      found := i < |list|;
      if !found && create {
        var e := Entry(key, Source(seqno, INFINITY, now), 0);
        ListsCons(list, table, e);
        list, table := [e] + list, table[key := e];
        found := true;
      }
    }

    /** retain_source */
    method Retain(key: SourceKey)
      requires Valid() && key in table
      modifies this
      ensures Valid() && table == Retained(old(table), key)
    {
      var e := Get(key);
      Set(key, e.(count := e.count + 1));
    }

    /** release_source, whose assertion is its precondition */
    method Release(key: SourceKey)
      requires Valid() && key in table && table[key].count > 0
      modifies this
      ensures Valid() && table == Released(old(table), key)
    {
      var e := Get(key);
      Set(key, e.(count := e.count - 1));
    }

    /** flush_source */
    method Flush(key: SourceKey) returns (ok: bool)
      requires Valid() && key in table
      modifies this
      ensures Valid() && (ok <==> old(table)[key].count == 0)
      ensures table == if ok then old(table) - {key} else old(table)
    {
      var i := Index(key);
      ok := list[i].count == 0;
      if ok {
        ListsRemove(list, table, i);
        list, table := list[..i] + list[i + 1..], table - {key};
      }
    }

    /** update_source */
    method Update(key: SourceKey, seqno: u16, metric: u16, now: int)
      requires Valid() && key in table
      modifies this
      ensures Valid()
      ensures table == old(table)[key := old(table)[key].(src := UpdateSource(old(table)[key].src, now, seqno, metric))]
    {
      var e := Get(key);
      var s := e.src;
      if metric < INFINITY {
        if Stale(s, now) || SeqnoCompare(s.seqno, seqno) < 0 || (s.seqno == seqno && s.metric > metric) {
          s := s.(seqno := seqno, metric := metric);
        }
        s := s.(time := now);
      }
      Set(key, e.(src := s));
    }

    /** expire_sources: what is left is every source that a route still uses or that is not
        stale, and nothing else changes than times found to lie in the future. */
    method Expire(now: int)
      requires Valid()
      modifies this
      ensures Valid() && table == TableKept(old(table), now)
    {
      KeptLists(list, table, now);
      list := Walk(list, now);
      table := TableKept(table, now);
    }
  }

  /** The walk of expire_sources along the list. */
  method Walk(was: seq<Entry>, now: int) returns (list: seq<Entry>)
    ensures list == Kept(was, now)
  {
    list := was;
    var i := 0;
    ghost var n := 0;
    assert was[..0] == [];
    while i < |list|
      invariant Walked(was, n, list, i, now)
      decreases |was| - n
    {
      WalkedNext(was, n, list, i, now);
      var e := list[i];
      if e.src.time > now { e := e.(src := e.src.(time := now)); }
      if Stale(e.src, now) && e.count == 0 {
        list := list[..i] + list[i + 1..];
      } else {
        list := list[i := e];
        i := i + 1;
      }
      n := n + 1;
    }
    assert was[..|was|] == was;
  }
}
