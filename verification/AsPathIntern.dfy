/** Hash-consing of AS paths: aspath_parse, aspath_intern and aspath_unintern over the
    hash table of lib/hash.c.  The chains of the table are kept as one list; choosing a
    chain by key modulo table size only skips backets whose key differs. */
module AsPathIntern {
  import opened Options
  import opened Bytes
  import opened AsSegments
  import opened AsPathNormal
  import opened AsPathWire
  import opened AsPathText

  class AsPath {
    var segments: Path
    var str: Option<string>
    var refcnt: nat

    constructor (segs: Path, s: Option<string>)
      ensures segments == segs && str == s && refcnt == 0
    {
      segments, str, refcnt := segs, s, 0;
    }
  }

  datatype Backet = Backet(key: nat, data: AsPath)

  /** The backets list the members of `entries` once each. */
  ghost predicate ListsOnce(backets: seq<Backet>, entries: set<AsPath>) {
    && (forall j | 0 <= j < |backets| :: backets[j].data in entries)
    && (forall j, k | 0 <= j < k < |backets| :: backets[j].data != backets[k].data)
    && (forall e <- entries :: Holds(backets, e))
  }

  ghost predicate Holds(backets: seq<Backet>, e: AsPath) {
    exists j :: 0 <= j < |backets| && backets[j].data == e
  }

  lemma ListsAdded(backets: seq<Backet>, entries: set<AsPath>, b: Backet)
    requires ListsOnce(backets, entries) && b.data !in entries
    ensures ListsOnce([b] + backets, entries + {b.data})
  {
    var more := [b] + backets;
    forall e <- entries + {b.data}
      ensures Holds(more, e)
    {
      if e == b.data {
        assert more[0].data == e;
      } else {
        var j :| 0 <= j < |backets| && backets[j].data == e;
        assert more[j + 1].data == e;
      }
    }
  }

  lemma ListsRemoved(backets: seq<Backet>, entries: set<AsPath>, j: nat)
    requires ListsOnce(backets, entries) && j < |backets|
    ensures ListsOnce(backets[..j] + backets[j + 1..], entries - {backets[j].data})
  {
    var less := backets[..j] + backets[j + 1..];
    forall e <- entries - {backets[j].data}
      ensures Holds(less, e)
    {
      var k :| 0 <= k < |backets| && backets[k].data == e;
      assert less[if k < j then k else k - 1].data == e;
    }
  }

  /** Entries are pairwise different and their cached text is current. */
  ghost predicate AllDifferent(entries: set<AsPath>)
    reads entries`segments, entries`str
  {
    && (forall e <- entries :: e.str == Some(PathText(e.segments)))
    && (forall e <- entries, f <- entries :: e.segments == f.segments ==> e == f)
  }

  /** Each entry counts the outstanding references to it. */
  ghost predicate AllCounted(entries: set<AsPath>, handles: multiset<AsPath>)
    reads entries`refcnt
  {
    && (forall e <- entries :: e.refcnt == handles[e])
    && (forall e <- handles :: e in entries)
  }

  lemma DifferentAdded(entries: set<AsPath>, a: AsPath)
    requires AllDifferent(entries) && a.str == Some(PathText(a.segments)) && forall e <- entries :: e.segments != a.segments
    ensures AllDifferent(entries + {a})
  {
  }

  lemma CountedAdded(entries: set<AsPath>, handles: multiset<AsPath>, a: AsPath)
    requires AllCounted(entries, handles) && a !in entries && a.refcnt == 0
    ensures AllCounted(entries + {a}, handles)
  {
    assert a !in handles;
  }

  lemma CountedRemoved(entries: set<AsPath>, handles: multiset<AsPath>, a: AsPath)
    requires AllCounted(entries, handles) && a in entries && a.refcnt == 0
    ensures AllCounted(entries - {a}, handles)
  {
    assert a !in handles;
  }

  class PathTable {
    const hash: string -> nat           // jhash
    var backets: seq<Backet>
    ghost var entries: set<AsPath>      // the paths in the table
    ghost var handles: multiset<AsPath> // references handed out and not yet returned

    /** The backets list the entries once each, under the hash of their text. */
    ghost predicate Listed()
      reads this`backets, this`entries, entries`segments
    {
      && ListsOnce(backets, entries)
      && (forall b <- backets :: b.data in entries && b.key == hash(PathText(b.data.segments)))
    }

    ghost predicate Canonical()
      reads this`entries, entries`segments, entries`str
    {
      AllDifferent(entries)
    }

    ghost predicate Counted()
      reads this`entries, this`handles, entries`refcnt
    {
      AllCounted(entries, handles)
    }

    /** ... of which there is at least one. */
    ghost predicate Valid()
      reads this, entries
    {
      Listed() && Canonical() && Counted() && forall e <- entries :: e.refcnt > 0
    }

    constructor (h: string -> nat)
      ensures Valid() && entries == {} && handles == multiset{} && hash == h
    {
      hash := h;
      backets := [];
      entries, handles := {}, multiset{};
    }

    /** hash_get without an allocator, also used by hash_release: the position of the
        entry with these segments, or the number of backets. */
    method Lookup(segs: Path, text: string) returns (j: nat)
      requires Listed() && text == PathText(segs)
      ensures j <= |backets|
      ensures j < |backets| ==> backets[j].data in entries && backets[j].data.segments == segs
      ensures j == |backets| ==> forall e <- entries :: e.segments != segs
    {
      var key := hash(text);
      j := 0;
      while j < |backets|
        invariant 0 <= j <= |backets| && forall k | 0 <= k < j :: backets[k].data.segments != segs
      {
        assert backets[j] in backets;
        if backets[j].key == key {
          var same := AspathCmp(backets[j].data.segments, segs);
          if same { return; }
        }
        j := j + 1;
      }
      assert forall e <- entries :: Holds(backets, e);
    }

    /** hash_get's insertion of a new backet at the head. */
    method AddBacket(a: AsPath)
      requires Listed() && a !in entries && a.str == Some(PathText(a.segments))
      modifies this`backets, this`entries
      ensures Listed() && entries == old(entries) + {a}
    {
      var b := Backet(hash(a.str.value), a);
      ListsAdded(backets, entries, b);
      backets, entries := [b] + backets, entries + {a};
    }

    method Add(a: AsPath)
      requires Listed() && Canonical() && Counted() && a !in entries
      requires a.str == Some(PathText(a.segments)) && a.refcnt == 0
      requires forall e <- entries :: e.segments != a.segments
      modifies this`backets, this`entries
      ensures Listed() && Canonical() && Counted() && entries == old(entries) + {a}
    {
      ghost var before := entries;
      AddBacket(a);
      DifferentAdded(before, a);
      CountedAdded(before, handles, a);
    }

    /** One more reference to an entry. */
    method Share(a: AsPath)
      requires Listed() && Canonical() && Counted() && a in entries
      modifies this`handles, a`refcnt
      ensures Listed() && Canonical() && Counted() && a.refcnt == old(a.refcnt) + 1
      ensures handles == old(handles) + multiset{a}
    {
      a.refcnt := a.refcnt + 1;
      handles := handles + multiset{a};
    }

    /** hash_get: the equal path in the table, or else `a` itself, now in the table. */
    method GetOrAdd(a: AsPath) returns (find: AsPath)
      requires Valid() && a !in entries && a.str == Some(PathText(a.segments)) && a.refcnt == 0
      modifies this`backets, this`entries
      ensures Listed() && Canonical() && Counted()
      ensures find in entries && find.segments == a.segments
      ensures entries == if find == a then old(entries) + {a} else old(entries)
      ensures forall e <- entries :: e != find ==> e.refcnt > 0
    {
      var j := Lookup(a.segments, a.str.value);
      if j < |backets| {
        find := backets[j].data;
      } else {
        Add(a);
        find := a;
      }
    }

    /** aspath_key_make's first step: compute the text if it is not cached. */
    method CacheText(a: AsPath)
      requires a !in entries && (a.str == None || a.str == Some(PathText(a.segments)))
      modifies a`str
      ensures a.str == Some(PathText(a.segments))
    {
      if a.str == None {
        var text, size := MakeStr(a.segments);
        a.str := Some(text);
      }
    }

    /** aspath_intern: the argument has no references yet and its text, if cached, is
        current.  Where an equal path is already in the table, that one is returned and
        the argument is dropped. */
    method Intern(a: AsPath) returns (find: AsPath)
      requires Valid() && a !in entries && a.refcnt == 0
      requires a.str == None || a.str == Some(PathText(a.segments))
      modifies this`backets, this`entries, this`handles, a, entries`refcnt
      ensures Valid() && find in entries && find.segments == old(a.segments)
      ensures handles == old(handles) + multiset{find}
      ensures entries == if find == a then old(entries) + {a} else old(entries)
      ensures find != a ==> find in old(entries)
    {
      CacheText(a);
      find := GetShared(a);
    }

    method GetShared(a: AsPath) returns (find: AsPath)
      requires Valid() && a !in entries && a.str == Some(PathText(a.segments)) && a.refcnt == 0
      modifies this`backets, this`entries, this`handles, a`refcnt, entries`refcnt
      ensures Valid() && find in entries && find.segments == a.segments
      ensures handles == old(handles) + multiset{find}
      ensures entries == if find == a then old(entries) + {a} else old(entries)
    {
      find := GetOrAdd(a);
      Share(find);
    }

    /** aspath_parse: like interning the parsed path, but a new object is made only if the
        table has no equal path.  Malformed bytes change nothing. */
    method Parse(s: seq<byte>, length: nat, use32: bool) returns (find: AsPath?)
      requires Valid()
      modifies this`backets, this`entries, this`handles, entries`refcnt
      ensures Valid() && (find == null <==> Parsed(s, length, use32) == None)
      ensures find != null ==> find in entries && Parsed(s, length, use32) == Some(find.segments)
      ensures find != null ==> handles == old(handles) + multiset{find} && entries == old(entries) + {find}
      ensures find != null && find !in old(entries) ==> fresh(find)
      ensures find == null ==> handles == old(handles) && entries == old(entries)
    {
      if length % 2 != 0 { return null; }
      var segs := AssegmentsParse(s, length, use32);
      if segs == None { return null; }
      find := GetOrDup(segs.value);
      Share(find);
    }

    /** hash_get with aspath_hash_alloc: the equal path in the table, or a new copy. */
    method GetOrDup(segs: Path) returns (find: AsPath)
      requires Valid()
      modifies this`backets, this`entries
      ensures Listed() && Canonical() && Counted()
      ensures find in entries && find.segments == segs
      ensures find in old(entries) || fresh(find)
      ensures entries == old(entries) + {find}
    {
      var text, size := MakeStr(segs);
      var j := Lookup(segs, text);
      if j < |backets| {
        find := backets[j].data;
      } else {
        find := new AsPath(segs, Some(text));
        Add(find);
      }
    }

    /** hash_release of the backet at `j`. */
    method Remove(j: nat)
      requires Listed() && Canonical() && j < |backets|
      modifies this`backets, this`entries
      ensures Listed() && Canonical() && entries == old(entries) - {old(backets)[j].data}
    {
      ListsRemoved(backets, entries, j);
      backets, entries := backets[..j] + backets[j + 1..], entries - {backets[j].data};
    }

    /** One reference less to an entry. */
    method Unshare(a: AsPath)
      requires Valid() && a in handles
      modifies this`handles, a`refcnt
      ensures Listed() && Canonical() && Counted() && handles == old(handles) - multiset{a}
      ensures forall e <- entries :: e != a ==> e.refcnt > 0
    {
      a.refcnt := a.refcnt - 1;
      handles := handles - multiset{a};
    }

    /** aspath_unintern: give a reference back; with the last one the entry goes. */
    method Unintern(a: AsPath)
      requires Valid() && a in handles
      modifies this`backets, this`entries, this`handles, a`refcnt
      ensures Valid() && handles == old(handles) - multiset{a}
      ensures entries == if a in handles then old(entries) else old(entries) - {a}
    {
      Unshare(a);
      if a.refcnt == 0 { Drop(a); }
    }

    /** The entry without references goes. */
    method Drop(a: AsPath)
      requires Listed() && Canonical() && Counted() && a in entries && a.refcnt == 0
      requires forall e <- entries :: e != a ==> e.refcnt > 0
      modifies this`backets, this`entries
      ensures Valid() && entries == old(entries) - {a}
    {
      ghost var before := entries;
      var j := Lookup(a.segments, a.str.value);
      Remove(j);
      CountedRemoved(before, handles, a);
    }

    /** Hash-consing: among references in use, pointer equality is equality of paths, so
        the pointer test in attrhash_cmp compares paths. */
    lemma PointerEqualityIsPathEquality(a: AsPath, b: AsPath)
      requires Valid() && a in handles && b in handles
      ensures a == b <==> a.segments == b.segments
    {
    }
  }
}
