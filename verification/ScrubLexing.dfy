/** On a well-formed document the scanner reports exactly the tokens of the syntax tree. */
module ScrubLexing {
  import opened Common
  import opened ScrubScanner
  import opened ScrubJson

  // ----- Expected tokens -----

  function OneToken(p: Place, tok: Token, isKey: bool): seq<Item> {
    [Item(Reported(p).from, Reported(p).to, tok, isKey)]
  }

  /** A bracket at `at`, followed by the given number of blanks. */
  function Bracket(at: nat, blanks: nat, tok: Token, isKey: bool): seq<Item> {
    [Item(at + blanks, at + blanks + 1, tok, isKey)]
  }

  /** The tokens of a value; as a member of an object a colon string is flagged as a key. */
  function Toks(v: Json, off: nat, member: bool): (ts: seq<Item>)
    ensures |ts| > 0
    ensures ts[0].from == Reported(Whole(v, off)).from && ts[0].isMapKey == (member && ColonString(v))
    ensures ts[0].tok == match v { case Arr(_, _, _) => ArrayBegin case Obj(_, _, _) => ObjectBegin case _ => Literal }
    decreases v, 0
  {
    match v
    case Str(_, _) => OneToken(Whole(v, off), Literal, member && ColonString(v))
    case Lit(_, _) => OneToken(Whole(v, off), Literal, false)
    case Arr(ows, es, cws) =>
      var at := off + 1 + |ows|;
      Bracket(off, |ows|, ArrayBegin, false) + ElemToks(es, at) +
      Bracket(at + |RenderElems(es)|, |cws|, ArrayEnd, false)
    case Obj(ows, ms, cws) =>
      var at := off + 1 + |ows|;
      Bracket(off, |ows|, ObjectBegin, false) + MemberToks(ms, at, false) +
      Bracket(at + |RenderMembers(ms)|, |cws|, ObjectEnd, LastFlag(ms, false))
  }

  function ElemToks(es: Elems, off: nat): (ts: seq<Item>)
    decreases es, 0
  {
    match es
    case NoElem => []
    case Elem(v, comma, rest) => Toks(v, off, false) + ElemToks(rest, off + |Render(v)| + 1 + |comma|)
  }

  /** `prev` says that the value before these members was a colon string. */
  function MemberToks(ms: Members, off: nat, prev: bool): (ts: seq<Item>)
    decreases ms, 1
  {
    match ms
    case NoMember => []
    case Member(key, kws, colon, v, comma, rest) =>
      FirstToks(ms, off, prev) + MemberToks(rest, NextOffset(ms, off), ColonString(v))
  }

  /** The tokens of the first member. */
  function FirstToks(ms: Members, off: nat, prev: bool): (ts: seq<Item>)
    requires ms.Member?
    ensures |ts| > 1 && ts[0].tok == Literal
    decreases ms, 0
  {
    OneToken(Key(ms.key, off), Literal, KeyFlagged(ms.key, prev)) +
    Toks(ms.v, ValueOffset(ms.key, ms.kws, ms.colon, off), true)
  }

  /** The key flag of an object after its members. */
  predicate LastFlag(ms: Members, prev: bool) {
    if ms.NoMember? then prev else LastFlag(ms.rest, ColonString(ms.v))
  }

  // ----- Text at a position -----

  predicate At(s: seq<byte>, p: nat, t: seq<byte>) {
    p + |t| <= |s| && s[p..p + |t|] == t
  }

  lemma AtSplit(s: seq<byte>, p: nat, a: seq<byte>, b: seq<byte>)
    requires At(s, p, a + b)
    ensures At(s, p, a) && At(s, p + |a|, b)
  {
    assert s[p..p + |a|] == s[p..p + |a + b|][..|a|] == a;
    assert s[p + |a|..p + |a| + |b|] == s[p..p + |a + b|][|a|..] == b;
  }

  lemma AtByte(s: seq<byte>, p: nat, b: byte)
    requires At(s, p, [b])
    ensures p < |s| && s[p] == b
  {
    assert s[p] == s[p..p + 1][0];
  }

  lemma AtParts(a: seq<byte>, b: seq<byte>)
    ensures At(a + b, 0, a) && At(a + b, |a|, b)
  {
  }

  lemma Regroup(a: seq<Item>, b: seq<Item>, c: seq<Item>, d: seq<Item>)
    ensures a + (b + (c + d)) == a + b + c + d
  {
  }

  lemma NothingAt(s: seq<byte>, p: nat)
    requires p <= |s|
    ensures At(s, p, [])
  {
  }

  lemma AtFirst(s: seq<byte>, p: nat, t: seq<byte>)
    requires At(s, p, t) && t != []
    ensures p < |s| && s[p] == t[0]
  {
    assert s[p] == s[p..p + |t|][0];
  }

  /** A byte at which a token starts. */
  predicate Starts(s: seq<byte>, q: nat) {
    q < |s| && !IsWs(s[q]) && s[q] != NUL
  }

  /** After a value comes the end of the input, a comma, a closing bracket or another value. */
  predicate ValueEnds(s: seq<byte>, q: nat) {
    q == |s| || (Starts(s, q) && s[q] != COLON)
  }

  /** A literal also needs a delimiter behind it. Blanks are one only if it has more than one byte: a single
      byte is read together with the blanks after it. */
  predicate BareEnds(s: seq<byte>, t: seq<byte>, ws: seq<byte>, q: nat) {
    ValueEnds(s, q) && (q == |s| || IsDelimiter(s[q]) || (|t| > 1 && ws != []))
  }

  predicate Ends(s: seq<byte>, v: Json, q: nat) {
    if v.Lit? then BareEnds(s, v.text, v.ws, q) else ValueEnds(s, q)
  }

  lemma {:induction false} SkipBlank(s: seq<byte>, p: nat, ws: seq<byte>)
    requires At(s, p, ws) && Blank(ws)
    requires p + |ws| == |s| || !IsWs(s[p + |ws|])
    ensures SkipWs(s, p) == p + |ws|
    decreases |ws|
  {
    if ws != [] {
      AtSplit(s, p, ws[..1], ws[1..]) by { assert ws == ws[..1] + ws[1..]; }
      AtByte(s, p, ws[0]) by { assert ws[..1] == [ws[0]]; }
      SkipBlank(s, p + 1, ws[1..]);
    }
  }

  lemma BlankStarts(s: seq<byte>, p: nat, ws: seq<byte>)
    requires At(s, p, ws) && Blank(ws) && ws != []
    ensures p < |s| && IsDelimiter(s[p])
  {
    AtFirst(s, p, ws);
    assert ws[0] in ws;
  }

  lemma {:induction false} SkipNothing(s: seq<byte>, p: nat)
    requires p == |s| || (p < |s| && !IsWs(s[p]))
    ensures SkipWs(s, p) == p
  {
  }

  lemma {:induction false} SkipPastBlank(s: seq<byte>, p: nat, ws: seq<byte>)
    requires At(s, p, ws) && Blank(ws)
    ensures SkipWs(s, p) == SkipWs(s, p + |ws|)
    decreases |ws|
  {
    if ws != [] {
      AtSplit(s, p, ws[..1], ws[1..]) by { assert ws == ws[..1] + ws[1..]; }
      AtByte(s, p, ws[0]) by { assert ws[..1] == [ws[0]]; }
      SkipPastBlank(s, p + 1, ws[1..]);
    }
  }

  lemma {:induction false} ScanPastBlank(s: seq<byte>, p: nat, q: nat, pre: byte)
    requires p <= |s| && q <= |s| && SkipWs(s, p) == SkipWs(s, q)
    ensures ScanOne(s, p, pre) == ScanOne(s, q, pre)
  {
    hide SkipWs, StringEnd, LiteralEnd;
    assert ReadTok(s, p) == ReadTok(s, q);
  }

  lemma {:induction false} ItemsStep(s: seq<byte>, p: nat, stack: seq<ScanState>, pre: byte)
    requires p <= |s| && !ScanOne(s, p, pre).eof
    ensures var r := ScanOne(s, p, pre);
            ItemsFrom(s, p, stack, pre) == [Flagged(stack, r)] + ItemsFrom(s, r.p, NextStack(stack, r), NUL)
  {
    hide ScanOne;
  }

  lemma {:induction false} ItemsAtEnd(s: seq<byte>, stack: seq<ScanState>)
    ensures ItemsFrom(s, |s|, stack, NUL) == []
  {
  }

  lemma ItemsPastBlank(s: seq<byte>, p: nat, ws: seq<byte>, stack: seq<ScanState>, pre: byte)
    requires At(s, p, ws) && Blank(ws)
    ensures ItemsFrom(s, p, stack, pre) == ItemsFrom(s, p + |ws|, stack, pre)
  {
    hide ScanOne;
    SkipPastBlank(s, p, ws);
    ScanPastBlank(s, p, p + |ws|, pre);
  }

  lemma ItemsPastSeparator(s: seq<byte>, p: nat, ws: seq<byte>, stack: seq<ScanState>, pre: byte)
    requires p < |s| && (s[p] == COMMA || s[p] == COLON)
    requires At(s, p + 1, ws) && Blank(ws) && Starts(s, p + 1 + |ws|)
    ensures ItemsFrom(s, p, stack, pre) == ItemsFrom(s, p + 1 + |ws|, stack, s[p])
  {
    hide ScanOne, At, Blank;
    ScanSeparator(s, p, ws, pre);
  }

  lemma ScanSeparator(s: seq<byte>, p: nat, ws: seq<byte>, pre: byte)
    requires p < |s| && (s[p] == COMMA || s[p] == COLON)
    requires At(s, p + 1, ws) && Blank(ws) && Starts(s, p + 1 + |ws|)
    ensures ScanOne(s, p, pre) == ScanOne(s, p + 1 + |ws|, s[p])
  {
    hide At, Blank, SkipWs, StringEnd, LiteralEnd;
    SkipBlank(s, p + 1, ws);
    SkipNothing(s, p);
    assert ReadTok(s, p) == (s[p], p + 1);
    assert PeekTok(s, p + 1).1 == p + 1 + |ws|;
  }

  // ----- Single tokens -----

  lemma {:induction false} StringBodyEnds(s: seq<byte>, p: nat, c: seq<byte>)
    requires StringBody(c) && At(s, p, c + [QUOTE])
    ensures StringEnd(s, p) == p + |c| + 1
    decreases |c|
  {
    if c == [] {
      assert c + [QUOTE] == [QUOTE];
      AtByte(s, p, QUOTE);
    } else {
      var n := if c[0] == BACKSLASH then 2 else 1;
      assert c + [QUOTE] == c[..n] + (c[n..] + [QUOTE]);
      AtSplit(s, p, c[..n], c[n..] + [QUOTE]);
      assert s[p] == s[p..p + n][0] == c[0];
      StringBodyEnds(s, p + n, c[n..]);
    }
  }

  lemma {:induction false} DropLead(c: seq<byte>)
    requires StringBody(c)
    ensures StringBody(c[Lead(c)..])
  {
    if c != [] && IsWs(c[0]) {
      DropLead(c[1..]);
      assert c[Lead(c)..] == c[1..][Lead(c[1..])..];
    }
  }

  lemma {:induction false} StringBodyByte(c: seq<byte>)
    requires StringBody(c) && c != []
    ensures c[0] >= 32
  {
  }

  lemma {:induction false} ScanQuoted(s: seq<byte>, p: nat, c: seq<byte>, pre: byte)
    requires At(s, p, Quoted(c)) && StringBody(c)
    ensures var e := p + |c| + 2;
            ScanOne(s, p, pre) == Scan1(Item(p + Lead(c), e, Literal, false), pre, AfterLead(c), e, false)
  {
    hide At, SkipWs, StringEnd, LiteralEnd, Lead, StringBody, Quoted;
    QuotedText(s, p, c);
    assert ReadTok(s, p) == (QUOTE, p + 1);
    assert PeekTok(s, p + 1) == (AfterLead(c), p + 1 + Lead(c));
  }

  lemma QuotedParts(s: seq<byte>, p: nat, c: seq<byte>)
    requires At(s, p, Quoted(c))
    ensures var n := Lead(c);
            At(s, p, [QUOTE]) && At(s, p + 1, c[..n]) && At(s, p + 1 + n, c[n..] + [QUOTE])
  {
    hide At;
    var n := Lead(c);
    assert Quoted(c) == [QUOTE] + (c[..n] + (c[n..] + [QUOTE]));
    AtSplit(s, p, [QUOTE], c[..n] + (c[n..] + [QUOTE]));
    AtSplit(s, p + 1, c[..n], c[n..] + [QUOTE]);
  }

  lemma QuotedText(s: seq<byte>, p: nat, c: seq<byte>)
    requires At(s, p, Quoted(c)) && StringBody(c)
    ensures var q := p + 1 + Lead(c);
            && q < |s| && s[p] == QUOTE && SkipWs(s, p) == p
            && SkipWs(s, p + 1) == q && s[q] == AfterLead(c) && s[q] != NUL
            && StringEnd(s, q) == p + |c| + 2
  {
    hide At, SkipWs, StringEnd, Quoted;
    var n := Lead(c);
    QuotedParts(s, p, c);
    AtByte(s, p, QUOTE);
    DropLead(c);
    StringBodyEnds(s, p + 1 + n, c[n..]);
    AtFirst(s, p + 1 + n, c[n..] + [QUOTE]);
    if n < |c| { StringBodyByte(c[n..]); }
    SkipNothing(s, p);
    SkipBlank(s, p + 1, c[..n]);
  }

  /** The byte after the blanks behind a one-byte token, 0 at the end of the document. */
  function NextByte(s: seq<byte>, q: nat): byte {
    if q < |s| then s[q] else NUL
  }

  lemma {:induction false} ScanBracket(s: seq<byte>, p: nat, b: byte, ws: seq<byte>, tok: Token, pre: byte)
    requires At(s, p, [b] + ws) && Blank(ws)
    requires (b, tok) in {(LBRACKET, ArrayBegin), (RBRACKET, ArrayEnd), (LBRACE, ObjectBegin), (RBRACE, ObjectEnd)}
    requires p + 1 + |ws| == |s| || Starts(s, p + 1 + |ws|)
    ensures var q := p + 1 + |ws|;
            ScanOne(s, p, pre) == Scan1(Item(q - 1, q, tok, false), pre, NextByte(s, q), q, false)
  {
    hide At, SkipWs, StringEnd, LiteralEnd, Blank;
    AtSplit(s, p, [b], ws);
    AtByte(s, p, b);
    SkipBlank(s, p + 1, ws);
    SkipNothing(s, p);
  }

  lemma {:induction false} LiteralTextEnds(s: seq<byte>, p: nat, t: seq<byte>)
    requires At(s, p, t) && forall b <- t :: !IsDelimiter(b) && b != NUL
    requires p + |t| == |s| || IsDelimiter(s[p + |t|])
    ensures LiteralEnd(s, p) == p + |t|
    decreases |t|
  {
    if t != [] {
      AtSplit(s, p, t[..1], t[1..]) by { assert t == t[..1] + t[1..]; }
      AtByte(s, p, t[0]) by { assert t[..1] == [t[0]]; }
      LiteralTextEnds(s, p + 1, t[1..]);
    }
  }

  /** Where scanning stands after a literal: behind its blanks if the literal has only one byte. */
  lemma {:induction false} ScanBare(s: seq<byte>, p: nat, t: seq<byte>, ws: seq<byte>, pre: byte)
    requires At(s, p, t + ws) && LiteralText(t) && Blank(ws) && BareEnds(s, t, ws, p + |t| + |ws|)
    ensures var b := Reported(Whole(Lit(t, ws), p));
            var post := if |t| == 1 then NextByte(s, p + 1 + |ws|) else t[1];
            ScanOne(s, p, pre) == Scan1(Item(b.from, b.to, Literal, false), pre, post, b.to, false)
  {
    hide At, SkipWs, StringEnd, LiteralEnd, Blank;
    BareText(s, p, t, ws);
    assert ReadTok(s, p) == (t[0], p + 1);
    if |t| > 1 { assert t[1] in t; }
  }

  lemma BareText(s: seq<byte>, p: nat, t: seq<byte>, ws: seq<byte>)
    requires At(s, p, t + ws) && LiteralText(t) && Blank(ws) && BareEnds(s, t, ws, p + |t| + |ws|)
    ensures var q := if |t| == 1 then p + 1 + |ws| else p + 1;
            && p < |s| && s[p] == t[0] && !IsDelimiter(t[0]) && t[0] != NUL && SkipWs(s, p) == p
            && SkipWs(s, p + 1) == q && (|t| > 1 ==> q < |s| && s[q] == t[1])
            && LiteralEnd(s, q) == Reported(Whole(Lit(t, ws), p)).to
  {
    hide At, SkipWs, LiteralEnd, Blank;
    AtSplit(s, p, t, ws);
    assert t == [t[0]] + t[1..];
    AtSplit(s, p, [t[0]], t[1..]);
    AtByte(s, p, t[0]);
    assert t[0] in t;
    SkipNothing(s, p);
    if |t| == 1 {
      SkipBlank(s, p + 1, ws);
      LiteralTextEnds(s, p + 1 + |ws|, []) by { NothingAt(s, p + 1 + |ws|); }
    } else {
      LongBareText(s, p, t, ws);
    }
  }

  lemma LongBareText(s: seq<byte>, p: nat, t: seq<byte>, ws: seq<byte>)
    requires LiteralText(t) && |t| > 1 && Blank(ws) && BareEnds(s, t, ws, p + |t| + |ws|)
    requires At(s, p + 1, t[1..]) && At(s, p + |t|, ws)
    ensures p + 1 < |s| && s[p + 1] == t[1] && SkipWs(s, p + 1) == p + 1 && LiteralEnd(s, p + 1) == p + |t|
  {
    hide At, SkipWs, LiteralEnd, Blank;
    assert t[1] in t;
    AtFirst(s, p + 1, t[1..]);
    SkipNothing(s, p + 1);
    if ws != [] { BlankStarts(s, p + |t|, ws); }
    LiteralTextEnds(s, p + 1, t[1..]);
  }

  // ----- Values -----

  lemma {:induction false} RenderStarts(v: Json)
    requires WellFormed(v)
    ensures var r := Render(v); r != [] && !IsWs(r[0]) && r[0] != NUL && r[0] != COLON && r[0] != COMMA
  {
    if v.Lit? { assert v.text[0] in v.text; }
  }

  lemma {:induction false} StartsHere(s: seq<byte>, p: nat, v: Json, more: seq<byte>)
    requires WellFormed(v) && At(s, p, Render(v) + more)
    ensures Starts(s, p) && s[p] != COLON
  {
    RenderStarts(v);
    AtSplit(s, p, Render(v), more);
    assert s[p] == s[p..p + |Render(v)|][0];
  }

  // ----- Text of the parts -----

  lemma {:induction false} ArrayText(s: seq<byte>, p: nat, v: Json)
    requires v.Arr? && WellFormed(v) && At(s, p, Render(v))
    ensures var at := p + 1 + |v.ows|;
            var end := at + |RenderElems(v.elems)|;
            && At(s, p, [LBRACKET] + v.ows) && Starts(s, at) && s[at] != COLON
            && At(s, at, RenderElems(v.elems)) && end < |s| && s[end] == RBRACKET && At(s, end, [RBRACKET] + v.cws)
            && p + |Render(v)| == end + 1 + |v.cws|
  {
    hide At, Blank;
    var Arr(ows, es, cws) := v;
    var at := p + 1 + |ows|;
    var end := at + |RenderElems(es)|;
    AtSplit(s, p, [LBRACKET] + ows, RenderElems(es) + ([RBRACKET] + cws));
    AtSplit(s, at, RenderElems(es), [RBRACKET] + cws);
    AtSplit(s, end, [RBRACKET], cws);
    AtByte(s, end, RBRACKET);
    if es.Elem? { FirstElemStarts(s, at, es); }
  }

  lemma {:induction false} FirstElemStarts(s: seq<byte>, p: nat, es: Elems)
    requires es.Elem? && WellFormedElems(es) && At(s, p, RenderElems(es))
    ensures Starts(s, p) && s[p] != COLON
  {
    StartsHere(s, p, es.v, MoreElems(es.comma, es.rest));
  }

  /** Splits the text of a non-empty element list behind its first value. */
  lemma {:induction false} ElemsText(s: seq<byte>, p: nat, es: Elems)
    requires es.Elem? && WellFormedElems(es) && At(s, p, RenderElems(es))
    ensures var q := p + |Render(es.v)|;
            && At(s, p, Render(es.v))
            && (es.rest.Elem? ==> q < |s| && s[q] == COMMA && At(s, q + 1, es.comma) && Starts(s, q + 1 + |es.comma|)
                                  && At(s, q + 1 + |es.comma|, RenderElems(es.rest)))
            && p + |RenderElems(es)| == (if es.rest.NoElem? then q else q + 1 + |es.comma| + |RenderElems(es.rest)|)
  {
    hide At, Blank;
    var Elem(v, comma, rest) := es;
    var q := p + |Render(v)|;
    AtSplit(s, p, Render(v), MoreElems(comma, rest));
    if rest.Elem? {
      AtSplit(s, q, [COMMA] + comma, RenderElems(rest));
      AtSplit(s, q, [COMMA], comma);
      AtByte(s, q, COMMA);
      FirstElemStarts(s, q + 1 + |comma|, rest);
    }
  }

  lemma {:induction false} ObjectText(s: seq<byte>, p: nat, v: Json)
    requires v.Obj? && WellFormed(v) && At(s, p, Render(v))
    ensures var at := p + 1 + |v.ows|;
            var end := at + |RenderMembers(v.members)|;
            && At(s, p, [LBRACE] + v.ows) && Starts(s, at) && s[at] != COLON
            && At(s, at, RenderMembers(v.members)) && end < |s| && s[end] == RBRACE && At(s, end, [RBRACE] + v.cws)
            && p + |Render(v)| == end + 1 + |v.cws|
  {
    hide At, Blank;
    var Obj(ows, ms, cws) := v;
    var at := p + 1 + |ows|;
    var end := at + |RenderMembers(ms)|;
    AtSplit(s, p, [LBRACE] + ows, RenderMembers(ms) + ([RBRACE] + cws));
    AtSplit(s, at, RenderMembers(ms), [RBRACE] + cws);
    AtSplit(s, end, [RBRACE], cws);
    AtByte(s, end, RBRACE);
    if ms.Member? { FirstKeyStarts(s, at, ms); }
  }

  lemma {:induction false} FirstKeyStarts(s: seq<byte>, p: nat, ms: Members)
    requires ms.Member? && At(s, p, RenderMembers(ms))
    ensures Starts(s, p) && s[p] == QUOTE
  {
    assert RenderMembers(ms)[0] == QUOTE;
    assert s[p] == s[p..p + |RenderMembers(ms)|][0];
  }

  /** Splits the text of a non-empty member list around its first value. */
  lemma {:induction false} MembersText(s: seq<byte>, p: nat, ms: Members)
    requires ms.Member? && WellFormedMembers(ms) && At(s, p, RenderMembers(ms))
    ensures var k := p + |ms.key| + 2;
            var at := ValueOffset(ms.key, ms.kws, ms.colon, p);
            var q := at + |Render(ms.v)|;
            && At(s, p, Quoted(ms.key)) && At(s, k, ms.kws) && k + |ms.kws| < |s| && s[k + |ms.kws|] == COLON
            && At(s, k + |ms.kws| + 1, ms.colon) && At(s, at, Render(ms.v)) && Starts(s, at)
            && (ms.rest.Member? ==> q < |s| && s[q] == COMMA && At(s, q + 1, ms.comma) && Starts(s, q + 1 + |ms.comma|)
                                    && At(s, q + 1 + |ms.comma|, RenderMembers(ms.rest)))
            && p + |RenderMembers(ms)|
                 == if ms.rest.NoMember? then q else q + 1 + |ms.comma| + |RenderMembers(ms.rest)|
  {
    hide At, Quoted, StringBody, Blank;
    var Member(key, kws, colon, v, comma, rest) := ms;
    var k := p + |key| + 2;
    var at := ValueOffset(key, kws, colon, p);
    var q := at + |Render(v)|;
    var more := MoreMembers(comma, rest);
    KeyColonText(s, p, key, kws, colon, Render(v) + more);
    StartsHere(s, at, v, more);
    AtSplit(s, at, Render(v), more);
    if rest.Member? { RestText(s, q, comma, rest); }
  }

  lemma KeyColonText(s: seq<byte>, p: nat, key: seq<byte>, kws: seq<byte>, colon: seq<byte>, tail: seq<byte>)
    requires At(s, p, Quoted(key) + (kws + ([COLON] + (colon + tail))))
    ensures var k := p + |key| + 2;
            && At(s, p, Quoted(key)) && At(s, k, kws) && k + |kws| < |s| && s[k + |kws|] == COLON
            && At(s, k + |kws| + 1, colon) && At(s, ValueOffset(key, kws, colon, p), tail)
  {
    hide At, Quoted;
    var k := p + |key| + 2;
    AtSplit(s, p, Quoted(key), kws + ([COLON] + (colon + tail)));
    AtSplit(s, k, kws, [COLON] + (colon + tail));
    AtSplit(s, k + |kws|, [COLON], colon + tail);
    AtByte(s, k + |kws|, COLON);
    AtSplit(s, k + |kws| + 1, colon, tail);
  }

  lemma {:induction false} RestText(s: seq<byte>, q: nat, comma: seq<byte>, rest: Members)
    requires rest.Member? && At(s, q, MoreMembers(comma, rest))
    ensures q < |s| && s[q] == COMMA && At(s, q + 1, comma) && Starts(s, q + 1 + |comma|)
    ensures At(s, q + 1 + |comma|, RenderMembers(rest))
  {
    var tail := RenderMembers(rest);
    AtSplit(s, q, [COMMA] + comma, tail);
    AtSplit(s, q, [COMMA], comma);
    AtByte(s, q, COMMA);
    FirstKeyStarts(s, q + 1 + |comma|, rest);
  }

  // ----- Items of a value -----

  /** The stack once a value has been read: in an object the key flag is set only by a colon string. */
  function Settle(stack: seq<ScanState>, isKey: bool): seq<ScanState> {
    if InObject(stack) then stack[|stack| - 1 := ScanState(ObjectBegin, isKey)] else stack
  }

  /** The value may be read here: in an object only after a colon. */
  predicate ValueFits(stack: seq<ScanState>, pre: byte) {
    InObject(stack) ==> pre == COLON
  }

  lemma {:induction false} LexValue(s: seq<byte>, p: nat, stack: seq<ScanState>, pre: byte, v: Json)
    requires WellFormed(v) && At(s, p, Render(v)) && Ends(s, v, p + |Render(v)|) && ValueFits(stack, pre)
    ensures ItemsFrom(s, p, stack, pre)
              == Toks(v, p, InObject(stack)) + ItemsFrom(s, p + |Render(v)|, Settle(stack, ColonString(v)), NUL)
    decreases v, 0
  {
    hide ItemsFrom, At;
    match v
    case Str(c, ws) => LexString(s, p, stack, pre, c, ws);
    case Lit(t, ws) => LexBare(s, p, stack, pre, t, ws);
    case Arr(_, _, _) => LexArray(s, p, stack, pre, v);
    case Obj(_, _, _) => LexObject(s, p, stack, pre, v);
  }

  /** One item in value position. */
  lemma LexStep(s: seq<byte>, p: nat, stack: seq<ScanState>, pre: byte, tok: Token)
    requires p <= |s| && ValueFits(stack, pre) && (tok == Literal || Opens(tok))
    requires var r := ScanOne(s, p, pre); !r.eof && r.it.tok == tok && r.pre == pre
    ensures var r := ScanOne(s, p, pre);
            var settled := Settle(stack, r.post == COLON);
            var stack' := if Opens(tok) then settled + [ScanState(tok, false)] else settled;
            ItemsFrom(s, p, stack, pre)
              == [r.it.(isMapKey := InObject(stack) && r.post == COLON)] + ItemsFrom(s, r.p, stack', NUL)
  {
    hide ScanOne, ItemsFrom;
    ItemsStep(s, p, stack, pre);
  }

  lemma LexString(s: seq<byte>, p: nat, stack: seq<ScanState>, pre: byte, c: seq<byte>, ws: seq<byte>)
    requires StringBody(c) && Blank(ws) && At(s, p, Quoted(c) + ws) && ValueFits(stack, pre)
    ensures var v := Str(c, ws);
            ItemsFrom(s, p, stack, pre)
              == Toks(v, p, InObject(stack)) + ItemsFrom(s, p + |Render(v)|, Settle(stack, ColonString(v)), NUL)
  {
    hide At, ItemsFrom, ScanOne, StringBody, Lead, Quoted, Blank;
    AtSplit(s, p, Quoted(c), ws);
    ScanQuoted(s, p, c, pre);
    LexStep(s, p, stack, pre, Literal);
    ItemsPastBlank(s, p + |c| + 2, ws, Settle(stack, ColonString(Str(c, ws))), NUL);
  }

  lemma LexBare(s: seq<byte>, p: nat, stack: seq<ScanState>, pre: byte, t: seq<byte>, ws: seq<byte>)
    requires LiteralText(t) && Blank(ws) && At(s, p, t + ws) && BareEnds(s, t, ws, p + |t| + |ws|)
    requires ValueFits(stack, pre)
    ensures var v := Lit(t, ws);
            ItemsFrom(s, p, stack, pre)
              == Toks(v, p, InObject(stack)) + ItemsFrom(s, p + |Render(v)|, Settle(stack, false), NUL)
  {
    hide At, ItemsFrom, ScanOne, Blank;
    AtSplit(s, p, t, ws);
    ScanBare(s, p, t, ws, pre);
    if |t| > 1 { assert t[1] in t; }
    LexStep(s, p, stack, pre, Literal);
    if |t| > 1 { ItemsPastBlank(s, p + |t|, ws, Settle(stack, false), NUL); }
  }

  lemma CloseStack(outer: seq<ScanState>, top: ScanState, r: Scan1)
    requires Closes(r.it.tok) && !r.it.isMapKey && r.pre == NUL && r.post != COLON
    ensures NextStack(outer + [top], r) == outer
    ensures Flagged(outer + [top], r) == r.it.(isMapKey := top.tok == ObjectBegin && top.isKey)
  {
  }

  /** A closing bracket of the innermost container. */
  lemma {:induction false} LexClose(s: seq<byte>, p: nat, b: byte, ws: seq<byte>, outer: seq<ScanState>, top: ScanState)
    requires At(s, p, [b] + ws) && Blank(ws) && (b == RBRACKET || b == RBRACE) && ValueEnds(s, p + 1 + |ws|)
    ensures var tok := if b == RBRACKET then ArrayEnd else ObjectEnd;
            ItemsFrom(s, p, outer + [top], NUL)
              == Bracket(p, |ws|, tok, top.tok == ObjectBegin && top.isKey) + ItemsFrom(s, p + 1 + |ws|, outer, NUL)
  {
    hide ScanOne, At, ItemsFrom, Blank, NextStack, Flagged;
    var tok := if b == RBRACKET then ArrayEnd else ObjectEnd;
    ScanBracket(s, p, b, ws, tok, NUL);
    ItemsStep(s, p, outer + [top], NUL);
    CloseStack(outer, top, ScanOne(s, p, NUL));
  }

  lemma {:induction false} LexArray(s: seq<byte>, p: nat, stack: seq<ScanState>, pre: byte, v: Json)
    requires v.Arr? && WellFormed(v) && At(s, p, Render(v)) && ValueEnds(s, p + |Render(v)|) && ValueFits(stack, pre)
    ensures ItemsFrom(s, p, stack, pre)
              == Toks(v, p, InObject(stack)) + ItemsFrom(s, p + |Render(v)|, Settle(stack, false), NUL)
    decreases v.elems, 2
  {
    hide At, ItemsFrom, ScanOne, Blank, Render, RenderElems, ElemToks, WellFormedElems;
    var Arr(ows, es, cws) := v;
    var at := p + 1 + |ows|;
    ArrayText(s, p, v);
    ScanBracket(s, p, LBRACKET, ows, ArrayBegin, pre);
    LexStep(s, p, stack, pre, ArrayBegin);
    var top := ScanState(ArrayBegin, false);
    LexElems(s, at, Settle(stack, false) + [top], NUL, es);
    LexClose(s, at + |RenderElems(es)|, RBRACKET, cws, Settle(stack, false), top);
    Regroup(Bracket(p, |ows|, ArrayBegin, false), ElemToks(es, at),
            Bracket(at + |RenderElems(es)|, |cws|, ArrayEnd, false),
            ItemsFrom(s, p + |Render(v)|, Settle(stack, false), NUL));
  }

  lemma {:induction false} LexElems(s: seq<byte>, p: nat, stack: seq<ScanState>, pre: byte, es: Elems)
    requires WellFormedElems(es) && At(s, p, RenderElems(es)) && !InObject(stack)
    requires p + |RenderElems(es)| < |s| && s[p + |RenderElems(es)|] == RBRACKET
    requires es.NoElem? ==> pre == NUL
    ensures ItemsFrom(s, p, stack, pre) == ElemToks(es, p) + ItemsFrom(s, p + |RenderElems(es)|, stack, NUL)
    decreases es, 1
  {
    hide At, ItemsFrom, Blank;
    match es
    case NoElem =>
    case Elem(v, comma, rest) =>
      var q := p + |Render(v)|;
      ElemsText(s, p, es);
      LexValue(s, p, stack, pre, v);
      if rest.Elem? {
        ItemsPastSeparator(s, q, comma, stack, NUL);
        LexElems(s, q + 1 + |comma|, stack, COMMA, rest);
      }
  }

  lemma {:induction false} LexObject(s: seq<byte>, p: nat, stack: seq<ScanState>, pre: byte, v: Json)
    requires v.Obj? && WellFormed(v) && At(s, p, Render(v)) && ValueEnds(s, p + |Render(v)|) && ValueFits(stack, pre)
    ensures ItemsFrom(s, p, stack, pre)
              == Toks(v, p, InObject(stack)) + ItemsFrom(s, p + |Render(v)|, Settle(stack, false), NUL)
    decreases v.members, 2
  {
    hide At, ItemsFrom, ScanOne, Blank, Render, RenderMembers, MemberToks, WellFormedMembers, LastFlag;
    var Obj(ows, ms, cws) := v;
    var at := p + 1 + |ows|;
    var last := LastFlag(ms, false);
    ObjectText(s, p, v);
    ScanBracket(s, p, LBRACE, ows, ObjectBegin, pre);
    LexStep(s, p, stack, pre, ObjectBegin);
    LexMembers(s, at, Settle(stack, false), NUL, ms, false);
    LexClose(s, at + |RenderMembers(ms)|, RBRACE, cws, Settle(stack, false), ScanState(ObjectBegin, last));
    Regroup(Bracket(p, |ows|, ObjectBegin, false), MemberToks(ms, at, false),
            Bracket(at + |RenderMembers(ms)|, |cws|, ObjectEnd, last),
            ItemsFrom(s, p + |Render(v)|, Settle(stack, false), NUL));
  }

  lemma KeyOpens(outer: seq<ScanState>, prev: bool, r: Scan1)
    requires r.it.tok == Literal && r.pre != COLON
    ensures var stack, f := outer + [ScanState(ObjectBegin, prev)], !prev || r.post == COLON;
            Flagged(stack, r) == r.it.(isMapKey := f) && NextStack(stack, r) == outer + [ScanState(ObjectBegin, f)]
  {
  }

  lemma {:induction false} LexKey(s: seq<byte>, p: nat, outer: seq<ScanState>, pre: byte, key: seq<byte>, prev: bool)
    requires At(s, p, Quoted(key)) && StringBody(key) && pre != COLON
    ensures ItemsFrom(s, p, outer + [ScanState(ObjectBegin, prev)], pre)
              == OneToken(Key(key, p), Literal, KeyFlagged(key, prev)) +
            ItemsFrom(s, p + |key| + 2, outer + [ScanState(ObjectBegin, KeyFlagged(key, prev))], NUL)
  {
    hide ScanOne, At, ItemsFrom, StringBody, Lead, Quoted, NextStack, Flagged, KeyFlag, AfterLead, InObject;
    ScanQuoted(s, p, key, pre);
    ItemsStep(s, p, outer + [ScanState(ObjectBegin, prev)], pre);
    KeyOpens(outer, prev, ScanOne(s, p, pre));
  }

  lemma {:induction false} LexMembers(s: seq<byte>, p: nat, outer: seq<ScanState>, pre: byte, ms: Members, prev: bool)
    requires WellFormedMembers(ms) && At(s, p, RenderMembers(ms))
    requires p + |RenderMembers(ms)| < |s| && s[p + |RenderMembers(ms)|] == RBRACE
    requires pre != COLON && (ms.NoMember? ==> pre == NUL)
    ensures ItemsFrom(s, p, outer + [ScanState(ObjectBegin, prev)], pre)
              == MemberToks(ms, p, prev) +
            ItemsFrom(s, p + |RenderMembers(ms)|, outer + [ScanState(ObjectBegin, LastFlag(ms, prev))], NUL)
    decreases ms, 1
  {
    hide At, ItemsFrom, Blank, StringBody, Render, ColonString, FirstToks, ValueOffset;
    match ms
    case NoMember =>
    case Member(key, kws, colon, v, comma, rest) =>
      MembersText(s, p, ms);
      var q := ValueOffset(key, kws, colon, p) + |Render(v)|;
      LexFirst(s, p, outer, pre, ms, prev);
      if rest.Member? {
        ItemsPastSeparator(s, q, comma, outer + [ScanState(ObjectBegin, ColonString(v))], NUL);
        LexMembers(s, q + 1 + |comma|, outer, COMMA, rest, ColonString(v));
      }
  }

  lemma {:induction false} LexFirst(s: seq<byte>, p: nat, outer: seq<ScanState>, pre: byte, ms: Members, prev: bool)
    requires ms.Member? && WellFormedMembers(ms) && At(s, p, RenderMembers(ms)) && pre != COLON
    requires Ends(s, ms.v, ValueOffset(ms.key, ms.kws, ms.colon, p) + |Render(ms.v)|)
    ensures ItemsFrom(s, p, outer + [ScanState(ObjectBegin, prev)], pre)
         == FirstToks(ms, p, prev) +
            ItemsFrom(s, ValueOffset(ms.key, ms.kws, ms.colon, p) + |Render(ms.v)|,
                      outer + [ScanState(ObjectBegin, ColonString(ms.v))], NUL)
    decreases ms, 0
  {
    hide At, ItemsFrom, Blank, StringBody, Render, RenderMembers, Toks, KeyFlagged, ColonString, Ends, ValueOffset;
    var keyed := outer + [ScanState(ObjectBegin, KeyFlagged(ms.key, prev))];
    MembersText(s, p, ms);
    LexToColon(s, p, outer, pre, ms, prev);
    LexValue(s, ValueOffset(ms.key, ms.kws, ms.colon, p), keyed, COLON, ms.v);
    assert Settle(keyed, ColonString(ms.v)) == outer + [ScanState(ObjectBegin, ColonString(ms.v))];
  }

  /** The key of the first member, up to its value. */
  lemma {:induction false} LexToColon(s: seq<byte>, p: nat, outer: seq<ScanState>, pre: byte, ms: Members, prev: bool)
    requires ms.Member? && WellFormedMembers(ms) && At(s, p, RenderMembers(ms)) && pre != COLON
    ensures var f := KeyFlagged(ms.key, prev);
            ItemsFrom(s, p, outer + [ScanState(ObjectBegin, prev)], pre)
            == OneToken(Key(ms.key, p), Literal, f) +
               ItemsFrom(s, ValueOffset(ms.key, ms.kws, ms.colon, p), outer + [ScanState(ObjectBegin, f)], COLON)
  {
    hide At, ItemsFrom, Blank, StringBody, Render, RenderMembers, KeyFlagged, Ends;
    MembersText(s, p, ms);
    var keyed := outer + [ScanState(ObjectBegin, KeyFlagged(ms.key, prev))];
    var k := p + |ms.key| + 2;
    LexKey(s, p, outer, pre, ms.key, prev);
    ItemsPastBlank(s, k, ms.kws, keyed, NUL);
    ItemsPastSeparator(s, k + |ms.kws|, ms.colon, keyed, NUL);
  }

  /** The items of a whole document, with blanks in front of it. */
  lemma {:induction false} LexDocument(ws: seq<byte>, v: Json)
    requires Blank(ws) && WellFormed(v)
    ensures Items(ws + Render(v)) == Toks(v, |ws|, false)
  {
    hide At, ItemsFrom, Render, Toks, Blank, WellFormed;
    var s := ws + Render(v);
    AtParts(ws, Render(v));
    ItemsAtEnd(s, []);
    ItemsPastBlank(s, 0, ws, [], NUL);
    LexValue(s, |ws|, [], NUL, v);
  }
}
