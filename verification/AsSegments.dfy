/** AS_PATH segments of bgpd/bgp_aspath.c: their meaning and their normal form. */
module AsSegments {
  import opened SortedSets

  type ASN = u32

  datatype SegType = AsSet | AsSequence | ConfedSequence | ConfedSet

  datatype Segment = Segment(kind: SegType, asns: seq<ASN>)

  type Path = seq<Segment>

  predicate IsSet(k: SegType) { k == AsSet || k == ConfedSet }

  lemma Associative<T>(a: seq<T>, b: seq<T>, c: seq<T>)
    ensures a + (b + c) == (a + b) + c
  {
  }

  // ---- Meaning -------------------------------------------------------------

  /** What a path says, step by step: an AS_SEQUENCE is as many steps as it has members,
      every other segment is one step, and the order inside a set means nothing. */
  datatype Hop = One(asn: ASN) | SetOf(members: set<ASN>) | ConfedOne(run: seq<ASN>) | ConfedSetOf(confeds: set<ASN>)

  function Ones(a: seq<ASN>): seq<Hop> {
    seq(|a|, i requires 0 <= i < |a| => One(a[i]))
  }

  lemma OnesAppend(a: seq<ASN>, b: seq<ASN>)
    ensures Ones(a + b) == Ones(a) + Ones(b)
  {
  }

  lemma OnesInjective(a: seq<ASN>, b: seq<ASN>)
    requires Ones(a) == Ones(b)
    ensures a == b
  {
    forall i | 0 <= i < |a|
      ensures a[i] == b[i]
    {
      assert Ones(a)[i] == Ones(b)[i];
    }
  }

  function SegHops(s: Segment): seq<Hop> {
    match s.kind
    case AsSequence => Ones(s.asns)
    case AsSet => [SetOf(Elems(s.asns))]
    case ConfedSequence => [ConfedOne(s.asns)]
    case ConfedSet => [ConfedSetOf(Elems(s.asns))]
  }

  function Hops(p: Path): seq<Hop> {
    if p == [] then [] else SegHops(p[0]) + Hops(p[1..])
  }

  // ---- Normal form ---------------------------------------------------------

  function Canon(s: Segment): Segment {
    if IsSet(s.kind) then Segment(s.kind, SortedUnique(s.asns)) else s
  }

  /** Put `s` in front of a normal path, joining two AS_SEQUENCEs. */
  function Join(s: Segment, p: Path): Path {
    if s.kind == AsSequence && p != [] && p[0].kind == AsSequence
    then [Segment(AsSequence, s.asns + p[0].asns)] + p[1..]
    else [s] + p
  }

  function Normalise(p: Path): Path {
    if p == [] then [] else Join(Canon(p[0]), Normalise(p[1..]))
  }

  predicate Normal(p: Path) {
    && (forall i | 0 <= i < |p| :: IsSet(p[i].kind) ==> Increasing(p[i].asns))
    && (forall i | 0 <= i < |p| - 1 :: !(p[i].kind == AsSequence && p[i + 1].kind == AsSequence))
  }

  predicate NoEmptySequence(p: Path) {
    forall s <- p :: s.kind == AsSequence ==> s.asns != []
  }

  lemma {:induction false} NormaliseIsNormal(p: Path)
    ensures Normal(Normalise(p))
    ensures p != [] ==> Normalise(p) != [] && Normalise(p)[0].kind == p[0].kind
  {
    if p != [] { NormaliseIsNormal(p[1..]); }
  }

  lemma {:induction false} NormalIsFixed(p: Path)
    requires Normal(p)
    ensures Normalise(p) == p
  {
    if p != [] {
      NormalIsFixed(p[1..]);
      if IsSet(p[0].kind) { IncreasingUnique(p[0].asns, SortedUnique(p[0].asns)); }
      assert p == [p[0]] + p[1..];
    }
  }

  /** Normalising twice changes nothing more, and the normal paths are the fixed points. */
  lemma NormaliseIdempotent(p: Path)
    ensures Normalise(Normalise(p)) == Normalise(p)
    ensures Normalise(p) == p <==> Normal(p)
  {
    NormaliseIsNormal(p);
    NormalIsFixed(Normalise(p));
    if Normal(p) { NormalIsFixed(p); }
  }

  lemma {:induction false} HopsAppend(p: Path, q: Path)
    ensures Hops(p + q) == Hops(p) + Hops(q)
  {
    if p == [] {
      assert p + q == q;
    } else {
      assert (p + q)[1..] == p[1..] + q && (p + q)[0] == p[0];
      HopsAppend(p[1..], q);
      Associative(SegHops(p[0]), Hops(p[1..]), Hops(q));
    }
  }

  lemma JoinHops(s: Segment, p: Path)
    ensures Hops(Join(s, p)) == SegHops(s) + Hops(p)
  {
    if s.kind == AsSequence && p != [] && p[0].kind == AsSequence {
      var m := Segment(AsSequence, s.asns + p[0].asns);
      OnesAppend(s.asns, p[0].asns);
      assert ([m] + p[1..])[1..] == p[1..];
    } else {
      assert ([s] + p)[1..] == p;
    }
  }

  /** Normalising preserves what a path says. */
  lemma {:induction false} NormalisePreservesHops(p: Path)
    ensures Hops(Normalise(p)) == Hops(p)
  {
    if p != [] {
      NormalisePreservesHops(p[1..]);
      JoinHops(Canon(p[0]), Normalise(p[1..]));
      assert SegHops(Canon(p[0])) == SegHops(p[0]);
    }
  }

  // ---- The normal form is determined by the meaning --------------------------

  ghost function HopSegment(h: Hop): Segment {
    match h
    case One(a) => Segment(AsSequence, [a])
    case SetOf(s) => Segment(AsSet, Listing(s))
    case ConfedOne(r) => Segment(ConfedSequence, r)
    case ConfedSetOf(s) => Segment(ConfedSet, Listing(s))
  }

  /** The normal path that says `hs`. */
  ghost function Spell(hs: seq<Hop>): Path {
    if hs == [] then [] else Join(HopSegment(hs[0]), Spell(hs[1..]))
  }

  lemma JoinTwice(a: seq<ASN>, b: seq<ASN>, p: Path)
    ensures Join(Segment(AsSequence, a), Join(Segment(AsSequence, b), p)) == Join(Segment(AsSequence, a + b), p)
  {
    if p != [] && p[0].kind == AsSequence { assert a + (b + p[0].asns) == a + b + p[0].asns; }
  }

  lemma {:induction false} SpellSequence(asns: seq<ASN>, hs: seq<Hop>)
    requires asns != []
    ensures Spell(Ones(asns) + hs) == Join(Segment(AsSequence, asns), Spell(hs))
  {
    var a, rest := asns[0], asns[1..];
    assert asns == [a] + rest;
    assert (Ones(asns) + hs)[1..] == Ones(rest) + hs;
    assert Spell(Ones(asns) + hs) == Join(Segment(AsSequence, [a]), Spell(Ones(rest) + hs));
    if rest == [] {
      assert asns == [a] && Ones(rest) + hs == hs;
    } else {
      SpellSequence(rest, hs);
      JoinTwice([a], rest, Spell(hs));
    }
  }

  lemma {:induction false} NormaliseIsSpell(p: Path)
    requires NoEmptySequence(p)
    ensures Normalise(p) == Spell(Hops(p))
  {
    if p != [] {
      NormaliseIsSpell(p[1..]);
      var s, hs := p[0], Hops(p);
      if s.kind == AsSequence {
        SpellSequence(s.asns, Hops(p[1..]));
      } else {
        assert hs[1..] == Hops(p[1..]);
        if IsSet(s.kind) { IncreasingUnique(SortedUnique(s.asns), Listing(Elems(s.asns))); }
      }
    }
  }

  /** Canonical form: two paths without empty AS_SEQUENCEs say the same exactly when they
      normalise to the same segments. */
  lemma NormaliseIsCanonical(p: Path, q: Path)
    requires NoEmptySequence(p) && NoEmptySequence(q)
    ensures Hops(p) == Hops(q) <==> Normalise(p) == Normalise(q)
  {
    NormaliseIsSpell(p);
    NormaliseIsSpell(q);
    NormalisePreservesHops(p);
    NormalisePreservesHops(q);
  }
}
