/** Reconciling AS_PATH with AS4_PATH (aspath_reconcile_as4; section 4.2.3 of RFC 4893). */
module AsPathAs4 {
  import opened Options
  import opened SortedSets
  import opened AsSegments
  import opened AsPathNormal
  import opened AsPathWire
  import opened AsPathPut

  /** How many hops a step stands for; members of a confederation sequence count singly. */
  function Weight(h: Hop): nat { if h.ConfedOne? then |h.run| else 1 }

  /** The number of leading steps that cover `n` hops; no step is cut. */
  function Cover(hs: seq<Hop>, n: nat): (c: nat)
    ensures c <= |hs|
  {
    if hs == [] || n == 0 then 0
    else 1 + Cover(hs[1..], if n < Weight(hs[0]) then 0 else n - Weight(hs[0]))
  }

  /** How many members the copying loop takes from a segment when `n` hops are wanted. */
  function Cut(s: Segment, n: nat): (k: nat)
    ensures k <= |s.asns|
  {
    if s.kind == AsSequence && n < |s.asns| then n else |s.asns|
  }

  /** The hops still wanted after it. */
  function Left(s: Segment, n: nat): nat {
    var w := if IsSet(s.kind) then 1 else |s.asns|;
    if n < w then 0 else n - w
  }

  /** The segments the copying loop takes from AS_PATH for `n` hops. */
  function Taken(p: Path, n: nat): Path {
    if p == [] || n == 0 then []
    else [p[0].(asns := p[0].asns[..Cut(p[0], n)])] + Taken(p[1..], Left(p[0], n))
  }

  /** Surplus hops of AS_PATH over AS4_PATH; all its hops if there are too few. */
  function Surplus(a: Path, b: Path): nat {
    var n := NumHops(Hops(a)) + NumConfeds(Hops(a)) - NumHops(Hops(b));
    if n < 0 then NumHops(Hops(a)) else n
  }

  function Reconciled(a: Path, b: Path): Path {
    if Surplus(a, b) == 0 then b else Normalise(Taken(a, Surplus(a, b)) + b)
  }

  /** aspath_reconcile_as4 */
  method ReconcileAs4(aspath: Path, as4path: Path) returns (r: Path)
    ensures r == Reconciled(aspath, as4path)
  {
    var h: int, c: int, h4: int, c4: int;
    h, c := CountHopsAndConfeds(aspath);
    h4, c4 := CountHopsAndConfeds(as4path);
    var hops := h + c - h4;
    if hops < 0 { hops := h; }
    if hops == 0 { return as4path; }
    var newpath := CopyHops(aspath, hops);
    r := NormaliseSegments(newpath + as4path);
  }

  /** The copying loop of aspath_reconcile_as4. */
  method CopyHops(aspath: Path, wanted: nat) returns (newpath: Path)
    ensures newpath == Taken(aspath, wanted)
  {
    var seg, hops: int := aspath, wanted;
    newpath := [];
    while seg != [] && hops > 0
      invariant newpath + Taken(seg, if hops < 0 then 0 else hops) == Taken(aspath, wanted)
      decreases |seg|
    {
      var s := seg[0];
      var cpasns := |s.asns|;
      ghost var n: nat := hops;
      match s.kind {
        case AsSet => hops := hops - 1;
        case ConfedSet => hops := hops - 1;
        case ConfedSequence =>
          if hops < |s.asns| { hops := |s.asns|; }
          hops := hops - |s.asns|;
        case AsSequence =>
          cpasns := if |s.asns| < hops then |s.asns| else hops;
          hops := hops - |s.asns|;
      }
      assert cpasns == Cut(s, n) && Left(s, n) == if hops < 0 then 0 else hops;
      ghost var old_path := newpath;
      newpath := newpath + [s.(asns := s.asns[..cpasns])];
      seg := seg[1..];
      ghost var rest := Taken(seg, if hops < 0 then 0 else hops);
      assert old_path + ([s.(asns := s.asns[..cpasns])] + rest) == newpath + rest;
    }
  }

  // ---- Meaning ------------------------------------------------------------------

  lemma {:induction false} CoverOnes(a: seq<ASN>, hs: seq<Hop>, n: nat)
    ensures n <= |a| ==> Cover(Ones(a) + hs, n) == n
    ensures n > |a| ==> Cover(Ones(a) + hs, n) == |a| + Cover(hs, n - |a|)
  {
    if a == [] {
      assert Ones(a) + hs == hs;
    } else {
      assert (Ones(a) + hs)[1..] == Ones(a[1..]) + hs;
      if n > 0 { CoverOnes(a[1..], hs, n - 1); }
    }
  }

  lemma {:induction false} CoverStep(s: Segment, hs: seq<Hop>, n: nat)
    requires n > 0
    ensures var x := SegHops(s.(asns := s.asns[..Cut(s, n)]));
            && Cover(SegHops(s) + hs, n) == |x| + Cover(hs, Left(s, n))
            && (SegHops(s) + hs)[..Cover(SegHops(s) + hs, n)] == x + hs[..Cover(hs, Left(s, n))]
  {
    var k := Cut(s, n);
    if s.kind == AsSequence {
      CoverOnes(s.asns, hs, n);
      assert Ones(s.asns[..k]) == Ones(s.asns)[..k];
    } else {
      assert s.asns[..k] == s.asns;
      assert (SegHops(s) + hs)[1..] == hs;
    }
  }

  /** The loop takes whole steps from the front of AS_PATH, just enough to cover `n` hops. */
  lemma {:induction false} TakenHops(p: Path, n: nat)
    ensures Hops(Taken(p, n)) == Hops(p)[..Cover(Hops(p), n)]
  {
    if p != [] && n > 0 {
      TakenHops(p[1..], Left(p[0], n));
      assert Taken(p, n)[1..] == Taken(p[1..], Left(p[0], n));
      CoverStep(p[0], Hops(p[1..]), n);
    }
  }

  /** For all paths: the result says the leading steps of AS_PATH that cover its surplus
      hops, followed by AS4_PATH, and is in normal form whenever AS4_PATH is. */
  lemma ReconcileMeaning(a: Path, b: Path)
    ensures Hops(Reconciled(a, b)) == Hops(a)[..Cover(Hops(a), Surplus(a, b))] + Hops(b)
    ensures Normal(b) ==> Normal(Reconciled(a, b))
  {
    var n := Surplus(a, b);
    var t := Taken(a, n);
    TakenHops(a, n);
    if n > 0 {
      NormalisePreservesHops(t + b);
      HopsAppend(t, b);
      NormaliseIsNormal(t + b);
    }
  }

  // ---- Recovery -----------------------------------------------------------------

  predicate NoConfed(p: Path) { forall s <- p :: s.kind == AsSequence || s.kind == AsSet }

  lemma {:induction false} NoConfedHops(p: Path)
    requires NoConfed(p)
    ensures NumHops(Hops(p)) == |Hops(p)| && NumConfeds(Hops(p)) == 0
    ensures forall h <- Hops(p) :: h.One? || h.SetOf?
  {
    if p != [] {
      NoConfedHops(p[1..]);
      CountsAdd(SegHops(p[0]), Hops(p[1..]));
      if p[0].kind == AsSequence { SequenceCounts(p[0].asns); }
    }
  }

  lemma {:induction false} CoverPlain(hs: seq<Hop>, n: nat)
    requires n <= |hs| && forall h <- hs :: h.One? || h.SetOf?
    ensures Cover(hs, n) == n
  {
    if n > 0 {
      assert hs[0] in hs;
      CoverPlain(hs[1..], n - 1);
    }
  }

  /** aspath_add_seq: an empty first segment counts as an empty path, and what follows it is
      discarded. */
  function AddSeq(p: Path, asn: ASN): Path {
    if p == [] || p[0].asns == [] then [Segment(AsSequence, [asn])]
    else if p[0].kind == AsSequence then [Segment(AsSequence, [asn] + p[0].asns)] + p[1..]
    else [Segment(AsSequence, [asn])] + p
  }

  /** Routers ks[|ks|-1], ..., ks[0] prepend themselves in turn. */
  function AddAll(p: Path, ks: seq<ASN>): Path {
    if ks == [] then p else AddSeq(AddAll(p, ks[1..]), ks[0])
  }

  /** A normal path without confederations, none of whose segments is empty. */
  predicate Plain(p: Path) { Normal(p) && NoConfed(p) && NoEmptySegment(p) }

  lemma {:induction false} AddAllPlain(p: Path, ks: seq<ASN>)
    requires Plain(p)
    ensures Plain(AddAll(p, ks))
  {
    if ks != [] {
      AddAllPlain(p, ks[1..]);
      AddSeqPlain(AddAll(p, ks[1..]), ks[0]);
    }
  }

  lemma {:induction false} AddAllHops(p: Path, ks: seq<ASN>)
    requires Plain(p)
    ensures Hops(AddAll(p, ks)) == Ones(ks) + Hops(p)
  {
    if ks == [] {
      assert Ones(ks) + Hops(p) == Hops(p);
    } else {
      AddAllHops(p, ks[1..]);
      AddAllPlain(p, ks[1..]);
      AddSeqHops(AddAll(p, ks[1..]), ks[0]);
      OnesCons(ks, Hops(p));
    }
  }

  lemma OnesCons(ks: seq<ASN>, hs: seq<Hop>)
    requires ks != []
    ensures Ones([ks[0]]) + (Ones(ks[1..]) + hs) == Ones(ks) + hs
  {
    assert ks == [ks[0]] + ks[1..];
    OnesAppend([ks[0]], ks[1..]);
    Associative(Ones([ks[0]]), Ones(ks[1..]), hs);
  }

  lemma AddSeqHops(q: Path, asn: ASN)
    requires Plain(q)
    ensures Hops(AddSeq(q, asn)) == Ones([asn]) + Hops(q)
  {
    assert AddSeq(q, asn) == Join(Segment(AsSequence, [asn]), q);
    JoinHops(Segment(AsSequence, [asn]), q);
  }

  lemma AddSeqPlain(q: Path, asn: ASN)
    requires Plain(q)
    ensures Plain(AddSeq(q, asn))
  {
    var r := AddSeq(q, asn);
    if q != [] && q[0].kind == AsSequence {
      assert forall i | 1 <= i < |r| :: r[i] == q[i];
    } else {
      assert forall i | 1 <= i < |r| :: r[i] == q[i - 1];
    }
  }

  /** What AS_TRANS makes of one step: members of a set may coincide. */
  ghost function TransHop(h: Hop): Hop {
    match h
    case One(a) => One(Trans(a, false))
    case SetOf(m) => SetOf(set a | a in m :: Trans(a, false))
    case ConfedOne(run) => ConfedOne(TransAll(run, false))
    case ConfedSetOf(m) => ConfedSetOf(set a | a in m :: Trans(a, false))
  }

  ghost function TransSteps(hs: seq<Hop>): seq<Hop> { seq(|hs|, i requires 0 <= i < |hs| => TransHop(hs[i])) }

  lemma TransStepsAppend(a: seq<Hop>, b: seq<Hop>)
    ensures TransSteps(a + b) == TransSteps(a) + TransSteps(b)
  {
  }

  lemma TransElems(s: seq<ASN>)
    ensures Elems(TransAll(s, false)) == set a | a in Elems(s) :: Trans(a, false)
  {
    var t := TransAll(s, false);
    forall x | x in t
      ensures x in (set a | a in Elems(s) :: Trans(a, false))
    {
      var i :| 0 <= i < |t| && t[i] == x;
      assert s[i] in Elems(s);
    }
    forall a | a in Elems(s)
      ensures Trans(a, false) in t
    {
      var i :| 0 <= i < |s| && s[i] == a;
      assert t[i] == Trans(a, false);
    }
  }

  lemma TransSegmentHops(s: Segment)
    ensures SegHops(TransSegment(s, false)) == TransSteps(SegHops(s))
  {
    TransElems(s.asns);
  }

  /** Replacing 4-byte numbers by AS_TRANS acts step by step, so it does not depend on how the
      steps are cut into segments. */
  lemma {:induction false} TransHops(p: Path)
    ensures Hops(TransPath(p, false)) == TransSteps(Hops(p))
  {
    if p != [] {
      TransHops(p[1..]);
      TransSegmentHops(p[0]);
      TransStepsAppend(SegHops(p[0]), Hops(p[1..]));
      TransCons(p, false);
    }
  }

  lemma TransKeepsKinds(p: Path)
    requires NoConfed(p) && NoEmptySegment(p)
    ensures NoConfed(TransPath(p, false)) && NoEmptySegment(TransPath(p, false))
  {
    var q := TransPath(p, false);
    forall i | 0 <= i < |q|
      ensures (q[i].kind == AsSequence || q[i].kind == AsSet) && q[i].asns != []
    {
      assert p[i] in p;
    }
  }

  lemma CanonNotEmpty(s: Segment)
    requires s.asns != []
    ensures Canon(s).asns != []
  {
    assert s.asns[0] in Elems(s.asns);
  }

  lemma {:induction false} NormalisePlain(p: Path)
    requires NoConfed(p) && NoEmptySegment(p)
    ensures Plain(Normalise(p))
  {
    NormaliseIsNormal(p);
    if p != [] {
      NormalisePlain(p[1..]);
      CanonNotEmpty(p[0]);
      assert p[0] in p;
    }
  }

  /** AS4 recovery: a path `p` handed to a 2-byte speaker, with 4-byte numbers replaced by
      AS_TRANS, and prepended to by any number of 2-byte routers is recovered exactly by
      reconciling with AS4_PATH = `p`. */
  lemma As4Recovery(p: Path, ks: seq<ASN>)
    requires Plain(p)
    ensures Reconciled(AddAll(Normalise(TransPath(p, false)), ks), p) == AddAll(p, ks)
  {
    var q := Normalise(TransPath(p, false));
    TransHops(p);
    TransKeepsKinds(p);
    NormalisePlain(TransPath(p, false));
    NormalisePreservesHops(TransPath(p, false));
    RecoverySteps(p, q, ks);
    AddAllPlain(p, ks);
    AddAllPlain(q, ks);
    ReconciledNoEmpty(AddAll(q, ks), p);
    ReconcileMeaning(AddAll(q, ks), p);
    NormaliseIsCanonical(Reconciled(AddAll(q, ks), p), AddAll(p, ks));
    NormalIsFixed(Reconciled(AddAll(q, ks), p));
    NormalIsFixed(AddAll(p, ks));
  }

  /** Of a path with as many steps as `p`, exactly what was prepended is taken. */
  lemma RecoverySteps(p: Path, q: Path, ks: seq<ASN>)
    requires Plain(p) && Plain(q) && |Hops(q)| == |Hops(p)|
    ensures Hops(Reconciled(AddAll(q, ks), p)) == Hops(AddAll(p, ks))
  {
    var a := AddAll(q, ks);
    AddAllHops(q, ks);
    AddAllHops(p, ks);
    AddAllPlain(q, ks);
    NoConfedHops(a);
    NoConfedHops(p);
    CoverPlain(Hops(a), |ks|);
    assert Surplus(a, p) == |ks|;
    assert Hops(a)[..|ks|] == Ones(ks);
    ReconcileMeaning(a, p);
  }

  // ---- Confederations -----------------------------------------------------------

  /** Confederation segments, none of them empty. */
  predicate Confeds(cs: Path) { forall s <- cs :: (s.kind == ConfedSequence || s.kind == ConfedSet) && s.asns != [] }

  predicate ConfedHop(h: Hop) { (h.ConfedOne? && h.run != []) || h.ConfedSetOf? }

  lemma {:induction false} ConfedHops(cs: Path)
    requires Confeds(cs)
    ensures |Hops(cs)| == |cs| && NumHops(Hops(cs)) == 0 && forall h <- Hops(cs) :: ConfedHop(h)
  {
    if cs != [] {
      assert cs[0] in cs;
      ConfedHops(cs[1..]);
    }
  }

  /** Covering all of `c` and then `n` hops. */
  lemma {:induction false} CoverConfeds(c: seq<Hop>, hs: seq<Hop>, n: nat)
    requires forall h <- c :: ConfedHop(h)
    ensures Cover(c + hs, NumConfeds(c) + n) == |c| + Cover(hs, n)
  {
    if c == [] {
      assert c + hs == hs;
    } else {
      assert c[0] in c && (c + hs)[1..] == c[1..] + hs;
      CoverConfeds(c[1..], hs, n);
    }
  }

  lemma ConfedsInFront(cs: Path, p: Path)
    requires Normal(cs) && Confeds(cs) && Plain(p)
    ensures Normal(cs + p) && NoEmptySequence(cs + p) && Hops(cs + p) == Hops(cs) + Hops(p)
    ensures NumHops(Hops(cs + p)) == |Hops(p)| && NumConfeds(Hops(cs + p)) == NumConfeds(Hops(cs))
  {
    var a := cs + p;
    forall i | 0 <= i < |a| - 1
      ensures !(a[i].kind == AsSequence && a[i + 1].kind == AsSequence)
    {
      assert i < |cs| ==> cs[i] in cs;
      assert i >= |cs| ==> a[i] == p[i - |cs|] && a[i + 1] == p[i + 1 - |cs|];
    }
    assert forall i | 0 <= i < |a| :: i >= |cs| ==> a[i] == p[i - |cs|];
    HopsAppend(cs, p);
    ConfedHops(cs);
    NoConfedHops(p);
    CountsAdd(Hops(cs), Hops(p));
  }

  /** The same with confederation segments in front of AS_PATH, which AS4_PATH does not have:
      none of them is lost, however long they are. */
  lemma As4RecoveryConfed(cs: Path, p: Path, ks: seq<ASN>)
    requires Plain(p) && Normal(cs) && Confeds(cs)
    ensures Reconciled(cs + AddAll(Normalise(TransPath(p, false)), ks), p) == cs + AddAll(p, ks)
  {
    var q := Normalise(TransPath(p, false));
    TransHops(p);
    TransKeepsKinds(p);
    NormalisePlain(TransPath(p, false));
    NormalisePreservesHops(TransPath(p, false));
    AddAllPlain(q, ks);
    AddAllPlain(p, ks);
    var a, r := cs + AddAll(q, ks), cs + AddAll(p, ks);
    ConfedsInFront(cs, AddAll(q, ks));
    ConfedsInFront(cs, AddAll(p, ks));
    ConfedSteps(cs, p, q, ks);
    ReconcileMeaning(a, p);
    ReconciledNoEmpty(a, p);
    NormaliseIsCanonical(Reconciled(a, p), r);
    NormalIsFixed(Reconciled(a, p));
    NormalIsFixed(r);
  }

  lemma {:induction false} ConfedSteps(cs: Path, p: Path, q: Path, ks: seq<ASN>)
    requires Plain(p) && Plain(q) && |Hops(q)| == |Hops(p)| && Normal(cs) && Confeds(cs)
    ensures Hops(Reconciled(cs + AddAll(q, ks), p)) == Hops(cs + AddAll(p, ks))
  {
    ConfedSurplus(cs, p, q, ks);
    ReconcileMeaning(cs + AddAll(q, ks), p);
    AddAllPlain(p, ks);
    AddAllHops(p, ks);
    ConfedsInFront(cs, AddAll(p, ks));
    Associative(Hops(cs), Ones(ks), Hops(p));
  }

  /** What is taken of AS_PATH: the confederations and what was prepended. */
  lemma {:induction false} ConfedSurplus(cs: Path, p: Path, q: Path, ks: seq<ASN>)
    requires Plain(p) && Plain(q) && |Hops(q)| == |Hops(p)| && Normal(cs) && Confeds(cs)
    ensures var a := cs + AddAll(q, ks);
            Hops(a)[..Cover(Hops(a), Surplus(a, p))] == Hops(cs) + Ones(ks)
  {
    var b := AddAll(q, ks);
    AddAllPlain(q, ks);
    AddAllHops(q, ks);
    assert |Hops(b)| == |Hops(p)| + |ks|;
    SurplusCovers(cs, b, p, |ks|);
    TakeBoth(Hops(cs), Ones(ks), Hops(q), Hops(cs + b), Cover(Hops(cs + b), Surplus(cs + b, p)));
  }

  lemma {:induction false} SurplusCovers(cs: Path, b: Path, p: Path, n: nat)
    requires Plain(b) && Plain(p) && |Hops(b)| == |Hops(p)| + n && Normal(cs) && Confeds(cs)
    ensures Hops(cs + b) == Hops(cs) + Hops(b)
    ensures Cover(Hops(cs + b), Surplus(cs + b, p)) == |Hops(cs)| + n
  {
    var all, m := Hops(cs) + Hops(b), NumConfeds(Hops(cs)) + n;
    assert Hops(cs + b) == all && Surplus(cs + b, p) == m by { SurplusIs(cs, b, p); }
    assert Cover(all, m) == |Hops(cs)| + n by { ConfedCover(cs, b, n); }
  }

  lemma {:induction false} SurplusIs(cs: Path, b: Path, p: Path)
    requires Plain(b) && Plain(p) && |Hops(b)| >= |Hops(p)| && Normal(cs) && Confeds(cs)
    ensures Hops(cs + b) == Hops(cs) + Hops(b)
    ensures Surplus(cs + b, p) == NumConfeds(Hops(cs)) + |Hops(b)| - |Hops(p)|
  {
    ConfedsInFront(cs, b);
    NoConfedHops(p);
  }

  lemma {:induction false} ConfedCover(cs: Path, b: Path, n: nat)
    requires Confeds(cs) && NoConfed(b) && n <= |Hops(b)|
    ensures Cover(Hops(cs) + Hops(b), NumConfeds(Hops(cs)) + n) == |Hops(cs)| + n
  {
    NoConfedHops(b);
    ConfedHops(cs);
    CoverPlain(Hops(b), n);
    CoverConfeds(Hops(cs), Hops(b), n);
  }

  lemma TakeBoth(c: seq<Hop>, x: seq<Hop>, y: seq<Hop>, all: seq<Hop>, n: nat)
    requires all == c + (x + y) && n == |c| + |x|
    ensures all[..n] == c + x
  {
  }

  /** If AS4_PATH has more hops than AS_PATH, all of AS_PATH stays in front of it. */
  lemma ShorterIsKept(a: Path, b: Path)
    requires NoConfed(a) && |Hops(a)| < NumHops(Hops(b))
    ensures Hops(Reconciled(a, b)) == Hops(a) + Hops(b)
  {
    NoConfedHops(a);
    CoverPlain(Hops(a), |Hops(a)|);
    ReconcileMeaning(a, b);
    assert Hops(a)[..|Hops(a)|] == Hops(a);
  }

  /** aspath_add_confed_seq */
  function AddConfedSeq(p: Path, asn: ASN): Path {
    if p == [] || p[0].asns == [] then [Segment(ConfedSequence, [asn])]
    else if p[0].kind == ConfedSequence then [Segment(ConfedSequence, [asn] + p[0].asns)] + p[1..]
    else [Segment(ConfedSequence, [asn])] + p
  }

  /** What the counts count: a number prepended outside is one hop more, one prepended inside a
      confederation one step more there, and a set is one of either, whatever its size. */
  lemma {:induction false} CountsStep(p: Path, asn: ASN, asns: seq<ASN>)
    requires p != [] ==> p[0].asns != []
    ensures NumHops(Hops(AddSeq(p, asn))) == NumHops(Hops(p)) + 1
    ensures NumConfeds(Hops(AddSeq(p, asn))) == NumConfeds(Hops(p))
    ensures NumHops(Hops(AddConfedSeq(p, asn))) == NumHops(Hops(p))
    ensures NumConfeds(Hops(AddConfedSeq(p, asn))) == NumConfeds(Hops(p)) + 1
    ensures NumHops(Hops([Segment(AsSet, asns)] + p)) == NumHops(Hops(p)) + 1
    ensures NumConfeds(Hops([Segment(ConfedSet, asns)] + p)) == NumConfeds(Hops(p)) + 1
  {
    assert AddSeq(p, asn) == Join(Segment(AsSequence, [asn]), p);
    JoinHops(Segment(AsSequence, [asn]), p);
    SequenceCounts([asn]);
    CountsAdd(Ones([asn]), Hops(p));
    assert ([Segment(AsSet, asns)] + p)[1..] == p && ([Segment(ConfedSet, asns)] + p)[1..] == p;
    CountsAdd([SetOf(Elems(asns))], Hops(p));
    CountsAdd([ConfedSetOf(Elems(asns))], Hops(p));
    ConfedCounts(p, asn);
  }

  lemma {:induction false} ConfedCounts(p: Path, asn: ASN)
    requires p != [] ==> p[0].asns != []
    ensures NumHops(Hops(AddConfedSeq(p, asn))) == NumHops(Hops(p))
    ensures NumConfeds(Hops(AddConfedSeq(p, asn))) == NumConfeds(Hops(p)) + 1
  {
    var r := AddConfedSeq(p, asn);
    if p != [] && p[0].kind == ConfedSequence {
      assert r[1..] == p[1..];
      CountsAdd([ConfedOne(p[0].asns)], Hops(p[1..]));
      CountsAdd([ConfedOne([asn] + p[0].asns)], Hops(p[1..]));
    } else {
      assert r == [Segment(ConfedSequence, [asn])] + p && r[1..] == p;
      CountsAdd([ConfedOne([asn])], Hops(p));
    }
  }

  /** The same from the bytes: of what is sent for `p`, AS_PATH in 2-byte form and AS4_PATH in
      4-byte form, the receiver recovers `p` with all that was prepended on the way, if the
      segments survive splitting; and AS_PATH alone is `p` if all its numbers have 16 bits. */
  lemma As4FromBytes(p: Path, ks: seq<ASN>)
    requires Plain(p) && forall s <- p :: SurvivesSplit(s)
    ensures var a, b := Parsed(Encode(p, false), |Encode(p, false)|, false), Parsed(Encode(p, true), |Encode(p, true)|, true);
            && a.Some? && b == Some(p) && Reconciled(AddAll(a.value, ks), b.value) == AddAll(p, ks)
            && (Fits16(p) ==> a == Some(p))
  {
    WireRoundTrip(p, true);
    if Fits16(p) { WireRoundTrip(p, false); }
    ParseOfEncode(p, false);
    SplitHops(p);
    SplitWireable(p);
    TransHops(Split(p));
    TransHops(p);
    TransKeepsKinds(p);
    assert NoEmptySequence(TransPath(Split(p), false));
    NormaliseIsCanonical(TransPath(Split(p), false), TransPath(p, false));
    As4Recovery(p, ks);
  }

  lemma {:induction false} TakenNoEmpty(a: Path, n: nat)
    requires NoEmptySequence(a)
    ensures NoEmptySequence(Taken(a, n))
  {
    if a != [] && n > 0 {
      assert a[0] in a;
      TakenNoEmpty(a[1..], Left(a[0], n));
    }
  }

  lemma {:induction false} NormaliseNoEmpty(p: Path)
    requires NoEmptySequence(p)
    ensures NoEmptySequence(Normalise(p))
  {
    if p != [] {
      NormaliseNoEmpty(p[1..]);
      assert p[0] in p;
    }
  }

  lemma ReconciledNoEmpty(a: Path, b: Path)
    requires NoEmptySequence(a) && NoEmptySequence(b)
    ensures NoEmptySequence(Reconciled(a, b))
  {
    TakenNoEmpty(a, Surplus(a, b));
    NormaliseNoEmpty(Taken(a, Surplus(a, b)) + b);
  }
}
