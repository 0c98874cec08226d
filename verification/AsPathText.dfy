/** The text form of an AS path: aspath_make_str_count, aspath_gettoken and
    aspath_str2aspath. */
module AsPathText {
  import opened Options
  import opened AsSegments

  // ---- Printing --------------------------------------------------------------

  function Digit(d: int): char
    requires 0 <= d < 10
  {
    '0' + d as char
  }

  /** printf's %u */
  function Decimal(n: nat): string {
    if n < 10 then [Digit(n)] else Decimal(n / 10) + [Digit(n % 10)]
  }

  function Separator(k: SegType): char { if IsSet(k) then ',' else ' ' }

  /** aspath_delimiter_char; an AS_SEQUENCE has no delimiters. */
  function Open(k: SegType): string {
    match k case AsSet => "{" case ConfedSet => "[" case ConfedSequence => "(" case AsSequence => ""
  }

  function Close(k: SegType): string {
    match k case AsSet => "}" case ConfedSet => "]" case ConfedSequence => ")" case AsSequence => ""
  }

  function Members(asns: seq<ASN>, sep: char): string {
    if asns == [] then "" else if |asns| == 1 then Decimal(asns[0])
    else Decimal(asns[0]) + [sep] + Members(asns[1..], sep)
  }

  function SegText(s: Segment): string {
    Open(s.kind) + Members(s.asns, Separator(s.kind)) + Close(s.kind)
  }

  function PathText(p: Path): string {
    if p == [] then "" else if |p| == 1 then SegText(p[0])
    else SegText(p[0]) + (" " + PathText(p[1..]))
  }

  lemma MembersLayout(a: ASN, b: ASN, sep: char)
    ensures Members([a, b], sep) == Decimal(a) + [sep] + Decimal(b)
  {
    assert [a, b][1..] == [b];
  }

  /** How each kind of segment looks in print. */
  lemma TextLayout(a: ASN, b: ASN)
    ensures SegText(Segment(AsSequence, [a, b])) == Decimal(a) + " " + Decimal(b)
    ensures SegText(Segment(AsSet, [a, b])) == "{" + (Decimal(a) + "," + Decimal(b)) + "}"
    ensures SegText(Segment(ConfedSequence, [a, b])) == "(" + (Decimal(a) + " " + Decimal(b)) + ")"
    ensures SegText(Segment(ConfedSet, [a, b])) == "[" + (Decimal(a) + "," + Decimal(b)) + "]"
  {
    MembersLayout(a, b, ' ');
    MembersLayout(a, b, ',');
  }

  lemma DecimalLayout()
    ensures Decimal(0) == "0" && Decimal(64512) == "64512" && Decimal(23456) == "23456"
  {
    assert Decimal(64) == "64" && Decimal(645) == "645" && Decimal(6451) == "6451";
    assert Decimal(23) == "23" && Decimal(234) == "234" && Decimal(2345) == "2345";
  }

  // ---- Tokens ----------------------------------------------------------------

  datatype Token = Asval(asn: ASN) | Begin(kind: SegType) | End | Unknown

  predicate IsDigit(c: char) { '0' <= c <= '9' }

  predicate IsSpace(c: char) { c == ' ' || '\t' <= c <= '\r' }

  function SkipSeparators(s: string): (r: string)
    ensures |r| <= |s|
  {
    if s != "" && (IsSpace(s[0]) || s[0] == ',') then SkipSeparators(s[1..]) else s
  }

  /** Read digits into a 32-bit accumulator. */
  function ReadNumber(s: string, acc: ASN): (r: (ASN, string))
    ensures |r.1| <= |s|
  {
    if s != "" && IsDigit(s[0])
    then ReadNumber(s[1..], (acc * 10 + (s[0] as int - '0' as int)) % 0x1_0000_0000)
    else (acc, s)
  }

  /** aspath_gettoken: None at the end of the string. */
  function GetToken(s: string): (r: Option<(Token, string)>)
    ensures r.Some? && r.value.0 != Unknown ==> |r.value.1| < |s|
  {
    var p := SkipSeparators(s);
    if p == "" then None
    else if p[0] == '{' then Some((Begin(AsSet), p[1..]))
    else if p[0] == '(' then Some((Begin(ConfedSequence), p[1..]))
    else if p[0] == '[' then Some((Begin(ConfedSet), p[1..]))
    else if p[0] == '}' || p[0] == ')' || p[0] == ']' then Some((End, p[1..]))
    else if IsDigit(p[0]) then
      var (n, rest) := ReadNumber(p[1..], p[0] as int - '0' as int);
      Some((Asval(n), rest))
    else Some((Unknown, p))
  }

  /** All tokens up to the end or the first unknown one. */
  function Lex(s: string): seq<Token>
    decreases |s|
  {
    match GetToken(s)
    case None => []
    case Some((t, rest)) => if t == Unknown then [Unknown] else [t] + Lex(rest)
  }

  // ---- The token automaton of aspath_str2aspath --------------------------------

  /** Append a number to the last segment. */
  function AddLast(p: Path, a: ASN): Path {
    if p == [] then p else p[..|p| - 1] + [p[|p| - 1].(asns := p[|p| - 1].asns + [a])]
  }

  function Build(tokens: seq<Token>, p: Path, kind: SegType, needtype: bool): Option<Path> {
    if tokens == [] then Some(p)
    else
      match tokens[0]
      case Asval(a) => Build(tokens[1..], AddLast(if needtype then p + [Segment(kind, [])] else p, a), kind, false)
      case Begin(k) => Build(tokens[1..], p + [Segment(k, [])], k, false)
      case End => Build(tokens[1..], p, AsSequence, true)
      case Unknown => None
  }

  function ParsedText(s: string): Option<Path> { Build(Lex(s), [], AsSequence, true) }

  /** aspath_str2aspath */
  method Str2Aspath(str: string) returns (r: Option<Path>)
    ensures r == ParsedText(str)
  {
    var s, p: Path, kind, needtype := str, [], AsSequence, true;
    while true
      invariant Build(Lex(s), p, kind, needtype) == ParsedText(str)
      decreases |s|
    {
      var token := GetToken(s);
      if token == None { return Some(p); }
      ghost var before := Lex(s);
      s := token.value.1;
      match token.value.0 {
        case Asval(asn) =>
          assert before[1..] == Lex(s);
          if needtype {
            p := p + [Segment(kind, [])];
            needtype := false;
          }
          p := AddLast(p, asn);
        case Begin(k) =>
          assert before[1..] == Lex(s);
          kind := k;
          p := p + [Segment(kind, [])];
          needtype := false;
        case End =>
          assert before[1..] == Lex(s);
          kind := AsSequence;
          needtype := true;
        case Unknown => return None;
      }
    }
  }

  // ---- Reading back what was printed ---------------------------------------------

  lemma {:induction false} ReadDigit(d: int, rest: string, acc: ASN)
    requires 0 <= d < 10
    ensures ReadNumber([Digit(d)] + rest, acc) == ReadNumber(rest, (acc * 10 + d) % 0x1_0000_0000)
  {
    assert ([Digit(d)] + rest)[1..] == rest;
  }

  lemma {:induction false} ReadOneMore(digits: string, q: ASN, d: int, n: ASN, rest: string)
    requires 0 <= d < 10 && n == q * 10 + d
    requires ReadNumber(digits + ([Digit(d)] + rest), 0) == ReadNumber([Digit(d)] + rest, q)
    ensures ReadNumber((digits + [Digit(d)]) + rest, 0) == ReadNumber(rest, n)
  {
    Associative(digits, [Digit(d)], rest);
    ReadDigit(d, rest, q);
  }

  /** Digits already printed act on the accumulator as the number itself. */
  lemma {:induction false} ReadDecimal(n: ASN, rest: string)
    ensures ReadNumber(Decimal(n) + rest, 0) == ReadNumber(rest, n)
  {
    if n < 10 {
      ReadDigit(n, rest, 0);
    } else {
      ReadDecimal(n / 10, [Digit(n % 10)] + rest);
      ReadOneMore(Decimal(n / 10), n / 10, n % 10, n, rest);
    }
  }

  lemma {:induction false} DecimalStarts(n: nat)
    ensures Decimal(n) != "" && IsDigit(Decimal(n)[0])
  {
    if n >= 10 { DecimalStarts(n / 10); }
  }

  predicate Ends(rest: string) { rest == "" || !IsDigit(rest[0]) }

  /** A token that starts with a digit is the number read from there on. */
  lemma {:induction false} DigitToken(s: string)
    requires s != "" && IsDigit(s[0])
    ensures GetToken(s) == Some((Asval(ReadNumber(s, 0).0), ReadNumber(s, 0).1))
  {
    assert SkipSeparators(s) == s;
    assert ReadNumber(s, 0) == ReadNumber(s[1..], s[0] as int - '0' as int);
  }

  lemma {:induction false} NumberToken(n: ASN, rest: string)
    requires Ends(rest)
    ensures GetToken(Decimal(n) + rest) == Some((Asval(n), rest))
  {
    DecimalStarts(n);
    ReadDecimal(n, rest);
    DigitToken(Decimal(n) + rest);
    assert ReadNumber(rest, n) == (n, rest);
  }

  lemma {:induction false} LexNumber(n: ASN, rest: string)
    requires Ends(rest)
    ensures Lex(Decimal(n) + rest) == [Asval(n)] + Lex(rest)
  {
    NumberToken(n, rest);
  }

  lemma {:induction false} LexSeparator(c: char, rest: string)
    requires c == ' ' || c == ','
    ensures Lex([c] + rest) == Lex(rest)
  {
    assert ([c] + rest)[1..] == rest;
    assert SkipSeparators([c] + rest) == SkipSeparators(rest);
    assert GetToken([c] + rest) == GetToken(rest);
  }

  function Numbers(asns: seq<ASN>): seq<Token> {
    seq(|asns|, i requires 0 <= i < |asns| => Asval(asns[i]))
  }

  lemma NumbersCons(asns: seq<ASN>)
    requires asns != []
    ensures Numbers(asns) == [Asval(asns[0])] + Numbers(asns[1..])
  {
  }

  lemma {:induction false} MembersCons(asns: seq<ASN>, sep: char, rest: string)
    requires |asns| > 1
    ensures Members(asns, sep) + rest == Decimal(asns[0]) + ([sep] + (Members(asns[1..], sep) + rest))
  {
  }

  lemma {:induction false} LexMembers(asns: seq<ASN>, sep: char, rest: string)
    requires (sep == ' ' || sep == ',') && Ends(rest)
    ensures Lex(Members(asns, sep) + rest) == Numbers(asns) + Lex(rest)
  {
    if asns == [] {
      assert Members(asns, sep) + rest == rest;
    } else if |asns| == 1 {
      LexNumber(asns[0], rest);
      NumbersCons(asns);
    } else {
      var more := Members(asns[1..], sep) + rest;
      MembersCons(asns, sep, rest);
      LexNumber(asns[0], [sep] + more);
      LexSeparator(sep, more);
      LexMembers(asns[1..], sep, rest);
      NumbersCons(asns);
      Associative([Asval(asns[0])], Numbers(asns[1..]), Lex(rest));
    }
  }

  function SegTokens(s: Segment): seq<Token> {
    if s.kind == AsSequence then Numbers(s.asns) else [Begin(s.kind)] + Numbers(s.asns) + [End]
  }

  lemma {:induction false} LexDelimiter(k: SegType, rest: string)
    requires k != AsSequence
    ensures Lex(Open(k) + rest) == [Begin(k)] + Lex(rest)
    ensures Lex(Close(k) + rest) == [End] + Lex(rest)
    ensures Ends(Close(k) + rest)
  {
    assert SkipSeparators(Open(k) + rest) == Open(k) + rest;
    assert (Open(k) + rest)[1..] == rest;
    assert SkipSeparators(Close(k) + rest) == Close(k) + rest;
    assert (Close(k) + rest)[1..] == rest;
  }

  lemma {:induction false} LexSegment(s: Segment, rest: string)
    requires Ends(rest)
    ensures Lex(SegText(s) + rest) == SegTokens(s) + Lex(rest)
  {
    var k, sep := s.kind, Separator(s.kind);
    var m := Members(s.asns, sep);
    if k == AsSequence {
      assert SegText(s) + rest == m + rest;
      LexMembers(s.asns, sep, rest);
    } else {
      calc {
        Lex(SegText(s) + rest);
        { assert SegText(s) + rest == Open(k) + (m + (Close(k) + rest)); }
        Lex(Open(k) + (m + (Close(k) + rest)));
        { LexDelimiter(k, m + (Close(k) + rest)); }
        [Begin(k)] + Lex(m + (Close(k) + rest));
        { LexDelimiter(k, rest); LexMembers(s.asns, sep, Close(k) + rest); }
        [Begin(k)] + (Numbers(s.asns) + ([End] + Lex(rest)));
        SegTokens(s) + Lex(rest);
      }
    }
  }

  function PathTokens(p: Path): seq<Token> {
    if p == [] then [] else SegTokens(p[0]) + PathTokens(p[1..])
  }

  lemma {:induction false} LexPath(p: Path)
    ensures Lex(PathText(p)) == PathTokens(p)
  {
    if p == [] {
      assert Lex("") == [];
    } else if |p| == 1 {
      LexSegment(p[0], "");
      assert SegText(p[0]) + "" == SegText(p[0]) && PathTokens(p[1..]) == [];
    } else {
      var rest := PathText(p[1..]);
      LexSegment(p[0], " " + rest);
      LexSeparator(' ', rest);
      LexPath(p[1..]);
    }
  }

  /** What printing forgets: empty AS_SEQUENCEs, and the border between adjacent ones. */
  function Merge(p: Path): Path {
    if p == [] then []
    else if p[0].kind == AsSequence && p[0].asns == [] then Merge(p[1..])
    else Join(p[0], Merge(p[1..]))
  }

  /** Merge(p) glued to a path whose last segment is an open AS_SEQUENCE. */
  function Glue(q: Path, p: Path): Path
    requires q != []
  {
    q[..|q| - 1] + Join(q[|q| - 1], Merge(p))
  }

  lemma {:induction false} BuildNumbers(asns: seq<ASN>, rest: seq<Token>, q: Path, kind: SegType)
    requires q != []
    ensures Build(Numbers(asns) + rest, q, kind, false)
         == Build(rest, q[..|q| - 1] + [q[|q| - 1].(asns := q[|q| - 1].asns + asns)], kind, false)
  {
    var last := q[|q| - 1];
    if asns == [] {
      assert Numbers(asns) + rest == rest;
      assert last.asns + asns == last.asns;
      assert q == q[..|q| - 1] + [last];
    } else {
      NumbersCons(asns);
      assert (Numbers(asns) + rest)[1..] == Numbers(asns[1..]) + rest;
      var q' := AddLast(q, asns[0]);
      BuildNumbers(asns[1..], rest, q', kind);
      assert q'[..|q'| - 1] == q[..|q| - 1];
      assert last.asns + [asns[0]] + asns[1..] == last.asns + asns;
    }
  }

  /** A delimited segment is read back as printed. */
  lemma {:induction false} BuildDelimited(s: Segment, rest: seq<Token>, q: Path, kind: SegType, need: bool)
    requires s.kind != AsSequence
    ensures Build(SegTokens(s) + rest, q, kind, need) == Build(rest, q + [s], AsSequence, true)
  {
    var q' := q + [Segment(s.kind, [])];
    var tail := Numbers(s.asns) + ([End] + rest);
    assert SegTokens(s) + rest == [Begin(s.kind)] + tail;
    assert ([Begin(s.kind)] + tail)[1..] == tail;
    BuildNumbers(s.asns, [End] + rest, q', s.kind);
    assert q'[..|q'| - 1] + [s] == q + [s] && [] + s.asns == s.asns;
    assert ([End] + rest)[1..] == rest;
  }

  lemma {:induction false} BuildSequence(asns: seq<ASN>, rest: seq<Token>, q: Path)
    requires asns != []
    ensures Build(Numbers(asns) + rest, q, AsSequence, true)
         == Build(rest, q + [Segment(AsSequence, asns)], AsSequence, false)
  {
    NumbersCons(asns);
    var q' := q + [Segment(AsSequence, [asns[0]])];
    assert (Numbers(asns) + rest)[1..] == Numbers(asns[1..]) + rest;
    var q0 := q + [Segment(AsSequence, [])];
    assert q0[..|q0| - 1] == q && [] + [asns[0]] == [asns[0]];
    assert AddLast(q0, asns[0]) == q';
    BuildNumbers(asns[1..], rest, q', AsSequence);
    assert [asns[0]] + asns[1..] == asns;
    assert q'[..|q'| - 1] == q;
  }

  /** The automaton computes Merge, with `need` telling whether the last segment is closed. */
  lemma {:induction false} BuildPath(p: Path, q: Path, need: bool)
    requires !need ==> q != [] && q[|q| - 1].kind == AsSequence
    ensures Build(PathTokens(p), q, AsSequence, need) == Some(if need then q + Merge(p) else Glue(q, p))
    decreases p, 1
  {
    if p == [] {
      assert q + Merge(p) == q;
      if !need {
        assert Join(q[|q| - 1], Merge(p)) == [q[|q| - 1]];
        assert q == q[..|q| - 1] + [q[|q| - 1]];
      }
    } else if p[0].kind != AsSequence {
      BuildDelimited(p[0], PathTokens(p[1..]), q, AsSequence, need);
      BuildPath(p[1..], q + [p[0]], true);
      DelimitedStaysApart(p, q);
    } else {
      BuildPathSequence(p, q, need);
    }
  }

  lemma {:induction false} DelimitedStaysApart(p: Path, q: Path)
    requires p != [] && p[0].kind != AsSequence
    ensures q + [p[0]] + Merge(p[1..]) == q + Merge(p)
    ensures q != [] ==> Glue(q, p) == q + Merge(p)
  {
    Associative(q, [p[0]], Merge(p[1..]));
    if q != [] {
      var init, last := q[..|q| - 1], q[|q| - 1];
      assert q == init + [last];
      assert Join(last, Merge(p)) == [last] + Merge(p);
      Associative(init, [last], Merge(p));
    }
  }

  lemma {:induction false} BuildPathSequence(p: Path, q: Path, need: bool)
    requires p != [] && p[0].kind == AsSequence
    requires !need ==> q != [] && q[|q| - 1].kind == AsSequence
    ensures Build(PathTokens(p), q, AsSequence, need) == Some(if need then q + Merge(p) else Glue(q, p))
    decreases p, 0
  {
    var a, rest := p[0].asns, PathTokens(p[1..]);
    if a == [] {
      assert Numbers(a) + rest == rest;
      BuildPath(p[1..], q, need);
    } else if need {
      var q' := q + [p[0]];
      BuildSequence(a, rest, q);
      BuildPath(p[1..], q', false);
      assert q'[..|q'| - 1] == q;
    } else {
      var last := q[|q| - 1];
      var q' := q[..|q| - 1] + [last.(asns := last.asns + a)];
      BuildNumbers(a, rest, q, AsSequence);
      BuildPath(p[1..], q', false);
      assert q'[..|q'| - 1] == q[..|q| - 1];
      JoinTwice(last.asns, a, Merge(p[1..]));
    }
  }

  /** Reading back the text of any path gives the path with AS_SEQUENCEs merged. */
  lemma TextReadsBack(p: Path)
    ensures ParsedText(PathText(p)) == Some(Merge(p))
  {
    LexPath(p);
    BuildPath(p, [], true);
    assert [] + Merge(p) == Merge(p);
  }

  /** No two AS_SEQUENCEs touch. */
  predicate Separated(p: Path) {
    forall i | 0 <= i < |p| - 1 :: !(p[i].kind == AsSequence && p[i + 1].kind == AsSequence)
  }

  lemma PrintableCons(p: Path)
    requires p != []
    ensures NoEmptySequence(p) && Separated(p) <==>
              && !(p[0].kind == AsSequence && p[0].asns == [])
              && !(|p| > 1 && p[0].kind == p[1].kind == AsSequence)
              && NoEmptySequence(p[1..]) && Separated(p[1..])
  {
    var t := p[1..];
    assert p == [p[0]] + t;
    if Separated(t) && !(|p| > 1 && p[0].kind == p[1].kind == AsSequence) {
      forall i | 0 <= i < |p| - 1
        ensures !(p[i].kind == AsSequence && p[i + 1].kind == AsSequence)
      {
        if i > 0 { assert !(t[i - 1].kind == AsSequence && t[i].kind == AsSequence); }
      }
    }
    if Separated(p) {
      forall i | 0 <= i < |t| - 1
        ensures !(t[i].kind == AsSequence && t[i + 1].kind == AsSequence)
      {
        assert !(p[i + 1].kind == AsSequence && p[i + 2].kind == AsSequence);
      }
    }
  }

  lemma {:induction false} MergeShrinks(p: Path)
    ensures |Merge(p)| <= |p|
    ensures NoEmptySequence(p) && Separated(p) <==> Merge(p) == p
    ensures !(NoEmptySequence(p) && Separated(p)) ==> |Merge(p)| < |p|
  {
    if p != [] {
      MergeShrinks(p[1..]);
      PrintableCons(p);
      assert p == [p[0]] + p[1..];
    }
  }

  /** Text round trip: printing and reading back gives the same segments if and only if no
      AS_SEQUENCE is empty and no two are adjacent; in particular for every normal path of
      non-empty segments. */
  lemma TextRoundTrip(p: Path)
    ensures ParsedText(PathText(p)) == Some(p) <==> NoEmptySequence(p) && Separated(p)
    ensures Normal(p) && NoEmptySequence(p) ==> ParsedText(PathText(p)) == Some(p)
  {
    TextReadsBack(p);
    MergeShrinks(p);
  }

  /** An empty AS_SEQUENCE vanishes ... */
  lemma TextLosesEmpty()
    ensures ParsedText(PathText([Segment(AsSequence, [])])) == Some([])
  {
    TextReadsBack([Segment(AsSequence, [])]);
  }

  /** ... and adjacent ones run together. */
  lemma TextJoinsAdjacent(a: ASN, b: ASN)
    ensures ParsedText(PathText([Segment(AsSequence, [a]), Segment(AsSequence, [b])])) == Some([Segment(AsSequence, [a, b])])
  {
    var s, t := Segment(AsSequence, [a]), Segment(AsSequence, [b]);
    TextReadsBack([s, t]);
    assert [s, t][1..] == [t] && [t][1..] == [];
    assert Merge([t]) == Join(t, []) == [t] + [] == [t];
    assert Merge([s, t]) == Join(s, [t]);
    assert [a] + [b] == [a, b];
    assert Join(s, [t]) == [Segment(AsSequence, [a, b])];
  }

  // ---- The print buffer -----------------------------------------------------------

  const ASN_STR_LEN := 11
  const ASPATH_STR_DEFAULT_LEN := 32

  /** snprintf at the end of a buffer of `size` bytes: what does not fit, with the final
      NUL, is cut off. */
  function Snprintf(buf: string, size: nat, text: string): string {
    if |buf| + |text| < size then buf + text
    else if |buf| < size then buf + text[..size - 1 - |buf|]
    else buf
  }

  lemma {:induction false} DecimalLength(n: nat, digits: nat, bound: nat)
    requires n < bound && digits >= 1 && bound == Power10(digits)
    ensures |Decimal(n)| <= digits
  {
    if n >= 10 { DecimalLength(n / 10, digits - 1, bound / 10); }
  }

  function Power10(k: nat): nat { if k == 0 then 1 else 10 * Power10(k - 1) }

  /** A 32-bit AS number prints in at most ten characters. */
  lemma AsnLength(a: ASN)
    ensures |Decimal(a)| <= 10
  {
    assert Power10(3) == 1000;
    assert Power10(6) == 1_000_000;
    assert Power10(9) == 1_000_000_000;
    DecimalLength(a, 10, 10_000_000_000);
  }

  function TotalAsns(p: Path): nat { if p == [] then 0 else |p[0].asns| + TotalAsns(p[1..]) }

  /** assegment_count_asns from the first member on */
  method CountAsns(p: Path) returns (count: nat)
    ensures count == TotalAsns(p)
  {
    var seg := p;
    count := 0;
    while seg != []
      invariant count + TotalAsns(seg) == TotalAsns(p)
      decreases |seg|
    {
      count := count + |seg[0].asns|;
      seg := seg[1..];
    }
  }

  /** The loop over the members of one segment. */
  method PrintMembers(b0: string, size: nat, asns: seq<ASN>, sep: char) returns (buf: string)
    requires |b0| + |asns| * ASN_STR_LEN < size
    ensures buf == b0 + Members(asns, sep)
    ensures |buf| <= |b0| + |asns| * ASN_STR_LEN
  {
    buf := b0;
    assert asns[0..] == asns;
    for i := 0 to |asns|
      invariant buf + Members(asns[i..], sep) == b0 + Members(asns, sep)
      invariant |buf| <= |b0| + i * ASN_STR_LEN
    {
      AsnLength(asns[i]);
      ghost var before := buf;
      assert asns[i..][1..] == asns[i + 1..];
      buf := Snprintf(buf, size, Decimal(asns[i]));
      if i < |asns| - 1 {
        buf := Snprintf(buf, size, [sep]);
        assert before + (Decimal(asns[i]) + [sep] + Members(asns[i + 1..], sep)) == buf + Members(asns[i + 1..], sep);
      }
    }
    assert buf + "" == buf;
  }

  /** One segment with its delimiters, given room for SEGMENT_STR_LEN. */
  method PrintSegment(b0: string, size: nat, s: Segment) returns (buf: string)
    requires |b0| + |s.asns| * ASN_STR_LEN + 4 <= size
    ensures buf == b0 + SegText(s)
    ensures |buf| + 1 < size
  {
    buf := if s.kind != AsSequence then Snprintf(b0, size, Open(s.kind)) else b0;
    buf := PrintMembers(buf, size, s.asns, Separator(s.kind));
    if s.kind != AsSequence { buf := Snprintf(buf, size, Close(s.kind)); }
    assert buf == b0 + SegText(s);
  }

  lemma Reassociate(a: string, b: string, c: string, d: string)
    ensures a + (b + (c + d)) == a + b + c + d
  {
  }

  /** One round of the loop of aspath_make_str_count: grow the buffer if need be, print. */
  method PrintNext(b0: string, size0: nat, seg: Path) returns (buf: string, size: nat)
    requires seg != [] && |b0| < size0
    ensures buf + PathText(seg[1..]) == b0 + PathText(seg)
    ensures |buf| < size
  {
    var need := |b0| + |seg[0].asns| * ASN_STR_LEN + 4;
    size := if need > size0 then need else size0;
    buf := PrintSegment(b0, size, seg[0]);
    if |seg| > 1 {
      buf := Snprintf(buf, size, " ");
      Reassociate(b0, SegText(seg[0]), " ", PathText(seg[1..]));
    } else {
      assert PathText(seg[1..]) == "";
    }
  }

  /** aspath_make_str_count: the buffer is never too small, so nothing is cut off and the
      final assertion of the C code holds. */
  method MakeStr(p: Path) returns (buf: string, strSize: nat)
    ensures buf == PathText(p)
    ensures |buf| < strSize
  {
    if p == [] { return "", 1; }
    var count := CountAsns(p);
    strSize := if count * ASN_STR_LEN + 3 <= ASPATH_STR_DEFAULT_LEN then ASPATH_STR_DEFAULT_LEN else count * ASN_STR_LEN + 3;
    buf := "";
    var seg := p;
    while seg != []
      invariant buf + PathText(seg) == PathText(p)
      invariant |buf| < strSize
      decreases |seg|
    {
      buf, strSize := PrintNext(buf, strSize, seg);
      seg := seg[1..];
    }
    assert buf + "" == buf;
  }
}
