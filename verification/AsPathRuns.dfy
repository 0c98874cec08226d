/** Runs of the table of AS paths: whatever is parsed, interned and given back, the references
    held stand for the paths they were made from, and equal paths share one entry. */
module AsPathRuns {
  import opened Options
  import opened Bytes
  import opened AsSegments
  import opened AsPathWire
  import opened AsPathIntern

  datatype Op =
    | ParseOp(s: seq<byte>, length: nat, use32: bool)
    | InternOp(segs: Path)
      /** gives back the k-th reference held */
    | UninternOp(k: nat)

  /** The same operation on a plain list of paths. */
  function Applied(vs: seq<Path>, op: Op): seq<Path> {
    match op
    case ParseOp(s, length, use32) =>
      var p := Parsed(s, length, use32);
      if p.Some? then vs + [p.value] else vs
    case InternOp(segs) => vs + [segs]
    case UninternOp(k) => if k < |vs| then vs[..k] + vs[k + 1..] else vs
  }

  function AppliedAll(vs: seq<Path>, ops: seq<Op>): seq<Path> {
    if ops == [] then vs else Applied(AppliedAll(vs, ops[..|ops| - 1]), ops[|ops| - 1])
  }

  /** The references stand for the paths `vs`. */
  ghost predicate StandFor(held: seq<AsPath>, vs: seq<Path>)
    reads held`segments
  {
    |held| == |vs| && forall k | 0 <= k < |held| :: held[k].segments == vs[k]
  }

  lemma StandForLess(held: seq<AsPath>, vs: seq<Path>, k: nat)
    requires StandFor(held, vs) && k < |held|
    ensures StandFor(held[..k] + held[k + 1..], vs[..k] + vs[k + 1..])
  {
    var held', vs' := held[..k] + held[k + 1..], vs[..k] + vs[k + 1..];
    forall i | 0 <= i < |held'|
      ensures held'[i].segments == vs'[i]
    {
      var j := if i < k then i else i + 1;
      assert held'[i] == held[j] && vs'[i] == vs[j];
    }
  }

  lemma StandForMore(held: seq<AsPath>, vs: seq<Path>, e: AsPath)
    requires StandFor(held, vs)
    ensures StandFor(held + [e], vs + [e.segments])
  {
  }

  /** The references `held` are all that is outstanding, and stand for the paths `vs`. */
  ghost predicate Holding(t: PathTable, held: seq<AsPath>, vs: seq<Path>)
    reads t, t.entries, held
  {
    t.Valid() && t.handles == multiset(held) && StandFor(held, vs)
  }

  method Do(t: PathTable, held: seq<AsPath>, op: Op, ghost vs: seq<Path>) returns (held': seq<AsPath>)
    requires Holding(t, held, vs)
    modifies t`backets, t`entries, t`handles, t.entries`refcnt
    ensures Holding(t, held', Applied(vs, op)) && fresh(t.entries - old(t.entries))
  {
    match op
    case ParseOp(s, length, use32) => held' := DoParse(t, held, s, length, use32, vs);
    case InternOp(segs) => held' := DoIntern(t, held, segs, vs);
    case UninternOp(k) =>
      held' := held;
      if k < |held| { held' := DoUnintern(t, held, k, vs); }
  }

  method DoParse(t: PathTable, held: seq<AsPath>, s: seq<byte>, length: nat, use32: bool, ghost vs: seq<Path>)
    returns (held': seq<AsPath>)
    requires Holding(t, held, vs)
    modifies t`backets, t`entries, t`handles, t.entries`refcnt
    ensures Holding(t, held', Applied(vs, ParseOp(s, length, use32))) && fresh(t.entries - old(t.entries))
  {
    var find := t.Parse(s, length, use32);
    held' := held;
    if find != null {
      StandForMore(held, vs, find);
      held' := held + [find];
    }
  }

  method DoIntern(t: PathTable, held: seq<AsPath>, segs: Path, ghost vs: seq<Path>) returns (held': seq<AsPath>)
    requires Holding(t, held, vs)
    modifies t`backets, t`entries, t`handles, t.entries`refcnt
    ensures Holding(t, held', vs + [segs]) && fresh(t.entries - old(t.entries))
  {
    var find := InternNew(t, segs);
    StandForMore(held, vs, find);
    held' := held + [find];
  }

  /** A new path is interned. */
  method InternNew(t: PathTable, segs: Path) returns (find: AsPath)
    requires t.Valid()
    modifies t`backets, t`entries, t`handles, t.entries`refcnt
    ensures t.Valid() && find in t.entries && find.segments == segs
    ensures t.handles == old(t.handles) + multiset{find} && fresh(t.entries - old(t.entries))
  {
    var a := new AsPath(segs, None);
    find := t.Intern(a);
  }

  method DoUnintern(t: PathTable, held: seq<AsPath>, k: nat, ghost vs: seq<Path>) returns (held': seq<AsPath>)
    requires Holding(t, held, vs) && k < |held|
    modifies t`backets, t`entries, t`handles, t.entries`refcnt
    ensures Holding(t, held', vs[..k] + vs[k + 1..]) && t.entries <= old(t.entries)
  {
    t.Unintern(held[k]);
    held' := held[..k] + held[k + 1..];
    OneLess(held, k);
    StandForLess(held, vs, k);
  }

  lemma OneLess<T>(s: seq<T>, k: nat)
    requires k < |s|
    ensures multiset(s[..k] + s[k + 1..]) == multiset(s) - multiset{s[k]}
  {
    assert s == s[..k] + [s[k]] + s[k + 1..];
  }

  lemma {:induction false} SameCounts(held: seq<AsPath>, vs: seq<Path>, e: AsPath, v: Path)
    requires |held| == |vs| && forall i | 0 <= i < |held| :: held[i] == e <==> vs[i] == v
    ensures multiset(held)[e] == multiset(vs)[v]
  {
    if held != [] {
      SameCounts(held[1..], vs[1..], e, v);
      assert held == [held[0]] + held[1..] && vs == [vs[0]] + vs[1..];
    }
  }

  /** Two references are the same exactly if their paths are, each entry counts how often its
      path is held, and there are no other entries. */
  ghost predicate Shared(t: PathTable, held: seq<AsPath>, vs: seq<Path>)
    reads t, t.entries, held
  {
    && |held| == |vs|
    && (forall i, j | 0 <= i < |held| && 0 <= j < |held| :: held[i] == held[j] <==> vs[i] == vs[j])
    && (forall i | 0 <= i < |held| :: held[i] in t.entries && held[i].refcnt == multiset(vs)[vs[i]])
    && (forall e <- t.entries :: e in held)
  }

  lemma HoldingShares(t: PathTable, held: seq<AsPath>, vs: seq<Path>)
    requires Holding(t, held, vs)
    ensures Shared(t, held, vs)
  {
    forall i | 0 <= i < |held|
      ensures held[i] in t.entries && held[i].refcnt == multiset(vs)[vs[i]]
    {
      assert held[i] in t.handles;
      assert forall j | 0 <= j < |held| :: held[j] in t.handles;
      SameCounts(held, vs, held[i], vs[i]);
    }
  }

  method RunOps(t: PathTable, ops: seq<Op>) returns (held: seq<AsPath>)
    requires Holding(t, [], [])
    modifies t`backets, t`entries, t`handles, t.entries`refcnt
    ensures Holding(t, held, AppliedAll([], ops)) && fresh(t.entries - old(t.entries))
    decreases |ops|
  {
    held := [];
    if ops != [] {
      var n := |ops| - 1;
      held := RunOps(t, ops[..n]);
      held := Do(t, held, ops[n], AppliedAll([], ops[..n]));
    }
  }

  /** Any sequence of operations on a new table: the references held stand for what the same
      operations make of a plain list of paths, with one entry for each different path. */
  method RunAll(h: string -> nat, ops: seq<Op>) returns (t: PathTable, held: seq<AsPath>)
    ensures Holding(t, held, AppliedAll([], ops)) && Shared(t, held, AppliedAll([], ops))
  {
    t := new PathTable(h);
    held := RunOps(t, ops);
    HoldingShares(t, held, AppliedAll([], ops));
  }
}
