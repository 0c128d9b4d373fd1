/** An input of several values one after the other, such as a log with one document to the row. */
module ScrubRows {
  import opened Common
  import opened ScrubScanner
  import opened ScrubPaths
  import opened ScrubStream
  import opened ScrubSafety
  import opened ScrubJson
  import opened ScrubLexing
  import opened ScrubDocument

  function RenderRows(vs: seq<Json>): seq<byte> {
    if vs == [] then [] else Render(vs[0]) + RenderRows(vs[1..])
  }

  function RowToks(vs: seq<Json>, off: nat): seq<Item>
    decreases |vs|
  {
    if vs == [] then [] else Toks(vs[0], off, false) + RowToks(vs[1..], off + |Render(vs[0])|)
  }

  function PickRows(vs: seq<Json>, off: nat, nodes: seq<Node>): seq<Place>
    decreases |vs|
  {
    if vs == [] then [] else Pick(vs[0], off, nodes) + PickRows(vs[1..], off + |Render(vs[0])|, nodes)
  }

  /** The two values are told apart: only two literals can run into each other. */
  predicate Apart(v: Json, next: Json) {
    v.Lit? && next.Lit? ==> |v.text| > 1 && v.ws != []
  }

  predicate AllApart(vs: seq<Json>) {
    forall i :: 0 < i < |vs| ==> Apart(vs[i - 1], vs[i])
  }

  lemma {:induction false} RowFollows(s: seq<byte>, p: nat, vs: seq<Json>)
    requires vs != [] && (forall v <- vs :: WellFormed(v)) && At(s, p, RenderRows(vs))
    requires p + |RenderRows(vs)| == |s|
    ensures var q := p + |Render(vs[0])|;
            && At(s, p, Render(vs[0])) && At(s, q, RenderRows(vs[1..])) && q + |RenderRows(vs[1..])| == |s|
            && ValueEnds(s, q)
            && if |vs| == 1 then q == |s| else q < |s| && Render(vs[1]) != [] && s[q] == Render(vs[1])[0]
  {
    hide At, WellFormed, Render;
    AtSplit(s, p, Render(vs[0]), RenderRows(vs[1..]));
    if |vs| > 1 {
      var q := p + |Render(vs[0])|;
      assert vs[1] in vs && vs[1..][0] == vs[1];
      RenderStarts(vs[1]);
      AtFirst(s, q, RenderRows(vs[1..]));
    }
  }

  /** A literal reads on into a literal it is not apart from. */
  lemma {:induction false} LiteralReadsOn(s: seq<byte>, p: nat, t: seq<byte>, ws: seq<byte>)
    requires At(s, p, t + ws) && LiteralText(t) && Blank(ws) && (|t| == 1 || ws == [])
    requires var q := p + |t| + |ws|; q < |s| && !IsDelimiter(s[q])
    ensures ItemsFrom(s, p, [], NUL) != [] && ItemsFrom(s, p, [], NUL)[0].to > p + |t| + |ws|
  {
    hide At, Blank, ItemsFrom, SkipWs, StringEnd, LiteralEnd, NextStack;
    LiteralStart(s, p, t, ws);
    assert ReadTok(s, p) == (t[0], p + 1);
    ItemsStep(s, p, [], NUL);
  }

  lemma {:induction false} LiteralStart(s: seq<byte>, p: nat, t: seq<byte>, ws: seq<byte>)
    requires At(s, p, t + ws) && LiteralText(t) && Blank(ws) && (|t| == 1 || ws == [])
    requires var q := p + |t| + |ws|; q < |s| && !IsDelimiter(s[q])
    ensures p < |s| && s[p] == t[0] && !IsDelimiter(t[0]) && t[0] != NUL && SkipWs(s, p) == p
    ensures var q := SkipWs(s, p + 1); q < |s| && LiteralEnd(s, if s[q] == NUL then q + 1 else q) > p + |t| + |ws|
  {
    hide At, Blank, SkipWs;
    AtSplit(s, p, t, ws);
    AtFirst(s, p, t);
    assert t[0] in t;
    SkipNothing(s, p);
    if |t| == 1 {
      SkipBlank(s, p + 1, ws);
    } else {
      LongLiteralStart(s, p, t);
    }
  }

  lemma {:induction false} LongLiteralStart(s: seq<byte>, p: nat, t: seq<byte>)
    requires At(s, p, t) && LiteralText(t) && |t| > 1 && p + |t| < |s| && !IsDelimiter(s[p + |t|])
    ensures p + 1 < |s| && s[p + 1] != NUL && SkipWs(s, p + 1) == p + 1 && LiteralEnd(s, p + 1) > p + |t|
  {
    hide At, SkipWs, LiteralEnd;
    assert t == [t[0]] + t[1..];
    AtSplit(s, p, [t[0]], t[1..]);
    assert t[1] in t;
    AtFirst(s, p + 1, t[1..]);
    SkipNothing(s, p + 1);
    ReadsThrough(s, p + 1, t[1..]);
  }

  lemma {:induction false} ReadsThrough(s: seq<byte>, p: nat, t: seq<byte>)
    requires At(s, p, t) && forall b <- t :: !IsDelimiter(b) && b != NUL
    requires p + |t| < |s| && !IsDelimiter(s[p + |t|])
    ensures LiteralEnd(s, p) > p + |t|
    decreases |t|
  {
    if t != [] {
      AtSplit(s, p, t[..1], t[1..]) by { assert t == t[..1] + t[1..]; }
      AtByte(s, p, t[0]) by { assert t[..1] == [t[0]]; }
      ReadsThrough(s, p + 1, t[1..]);
    }
  }

  lemma RenderOpens(v: Json)
    requires WellFormed(v)
    ensures Render(v) != [] && (!v.Lit? ==> IsDelimiter(Render(v)[0]))
  {
  }

  lemma {:induction false} FirstRow(s: seq<byte>, p: nat, vs: seq<Json>)
    requires vs != [] && (forall v <- vs :: WellFormed(v)) && At(s, p, RenderRows(vs))
    requires p + |RenderRows(vs)| == |s| && (|vs| > 1 ==> Apart(vs[0], vs[1]))
    ensures ItemsFrom(s, p, [], NUL) == Toks(vs[0], p, false) + ItemsFrom(s, p + |Render(vs[0])|, [], NUL)
  {
    hide At, ItemsFrom, Toks, RenderRows;
    RowFollows(s, p, vs);
    assert vs[0] in vs;
    if |vs| > 1 && vs[0].Lit? { RenderOpens(vs[1]) by { assert vs[1] in vs; } }
    LexValue(s, p, [], NUL, vs[0]);
  }

  lemma {:induction false} FirstRowsMerge(s: seq<byte>, p: nat, vs: seq<Json>)
    requires |vs| > 1 && (forall v <- vs :: WellFormed(v)) && At(s, p, RenderRows(vs))
    requires p + |RenderRows(vs)| == |s| && !Apart(vs[0], vs[1])
    ensures ItemsFrom(s, p, [], NUL) != RowToks(vs, p)
  {
    hide At, ItemsFrom, RenderRows, Blank;
    RowFollows(s, p, vs);
    assert vs[0] in vs && vs[1] in vs;
    assert vs[1].text[0] in vs[1].text;
    LiteralReadsOn(s, p, vs[0].text, vs[0].ws);
  }

  /** The scanner reports the tokens of the values one after the other if and only if no two literals run
      into each other. */
  lemma {:induction false} RowsLexIffApart(s: seq<byte>, p: nat, vs: seq<Json>)
    requires (forall v <- vs :: WellFormed(v)) && At(s, p, RenderRows(vs)) && p + |RenderRows(vs)| == |s|
    ensures ItemsFrom(s, p, [], NUL) == RowToks(vs, p) <==> AllApart(vs)
    decreases |vs|
  {
    hide At, Toks, WellFormed, Apart, ItemsFrom;
    if vs == [] {
      ItemsAtEnd(s, []);
    } else if |vs| > 1 && !Apart(vs[0], vs[1]) {
      FirstRowsMerge(s, p, vs);
    } else {
      RowFollows(s, p, vs);
      RowsLexIffApart(s, p + |Render(vs[0])|, vs[1..]);
      RowsLexStep(s, p, vs);
    }
  }

  lemma {:induction false} RowsLexStep(s: seq<byte>, p: nat, vs: seq<Json>)
    requires vs != [] && (forall v <- vs :: WellFormed(v)) && At(s, p, RenderRows(vs))
    requires p + |RenderRows(vs)| == |s| && (|vs| > 1 ==> Apart(vs[0], vs[1]))
    requires var q := p + |Render(vs[0])|;
             q <= |s| && (ItemsFrom(s, q, [], NUL) == RowToks(vs[1..], q) <==> AllApart(vs[1..]))
    ensures ItemsFrom(s, p, [], NUL) == RowToks(vs, p) <==> AllApart(vs)
  {
    hide At, Toks, WellFormed, Apart, AllApart, ItemsFrom, Render, RenderRows;
    var q := p + |Render(vs[0])|;
    FirstRow(s, p, vs);
    SameTail(Toks(vs[0], p, false), ItemsFrom(s, q, [], NUL), RowToks(vs[1..], q));
    ApartTail(vs);
  }

  lemma SameTail(a: seq<Item>, b: seq<Item>, c: seq<Item>)
    ensures a + b == a + c <==> b == c
  {
    if a + b == a + c { assert b == (a + b)[|a|..] == (a + c)[|a|..] == c; }
  }

  lemma ApartTail(vs: seq<Json>)
    requires vs != []
    ensures AllApart(vs) <==> (|vs| > 1 ==> Apart(vs[0], vs[1])) && AllApart(vs[1..])
  {
    hide Apart;
    if AllApart(vs) {
      forall i | 0 < i < |vs[1..]| ensures Apart(vs[1..][i - 1], vs[1..][i]) {
        assert Apart(vs[i + 1 - 1], vs[i + 1]);
      }
    }
    if (|vs| > 1 ==> Apart(vs[0], vs[1])) && AllApart(vs[1..]) {
      forall i | 0 < i < |vs| ensures Apart(vs[i - 1], vs[i]) {
        if i > 1 { assert Apart(vs[1..][i - 2], vs[1..][i - 1]); }
      }
    }
  }

  lemma {:induction false} WalkNext(input: seq<byte>, ts: seq<Item>, nodes: seq<Node>)
    requires !AtEnd(ts) && WalkValue(input, ts, nodes).Walked?
    ensures var v := WalkValue(input, ts, nodes);
            WalkAll(input, ts, nodes) == After(v.out, WalkAll(input, v.rest, nodes))
  {
    hide WalkValue;
  }

  lemma {:induction false} WalkRows(input: seq<byte>, off: nat, vs: seq<Json>, nodes: seq<Node>)
    requires (forall v <- vs :: WellFormed(v)) && At(input, off, RenderRows(vs)) && off + |RenderRows(vs)| == |input|
    ensures WalkAll(input, RowToks(vs, off), nodes) == Walked([], ReportedAll(PickRows(vs, off, nodes)))
    decreases |vs|
  {
    hide At, Toks, WellFormed, WalkValue, Pick;
    if vs != [] {
      var next := off + |Render(vs[0])|;
      RowFollows(input, off, vs);
      assert vs[0] in vs;
      WalkToks(input, vs[0], off, false, nodes, RowToks(vs[1..], next));
      WalkRows(input, next, vs[1..], nodes);
      WalkNext(input, RowToks(vs, off), nodes);
      ReportedConcat(Pick(vs[0], off, nodes), PickRows(vs[1..], next, nodes));
    }
  }

  /** Every value of such an input is scrubbed as it would be on its own, at its own place. */
  lemma {:induction false} RowsArePickedInTurn(ws: seq<byte>, vs: seq<Json>, ps: seq<Path>)
    requires Blank(ws) && (forall v <- vs :: WellFormed(v)) && AllApart(vs)
    ensures Indices(ws + RenderRows(vs), ps) == Found(ReportedAll(PickRows(vs, |ws|, GroupNodes(ps))))
  {
    hide At, ItemsFrom, RenderRows, RowToks, WalkAll, Blank, PickRows;
    var s := ws + RenderRows(vs);
    AtParts(ws, RenderRows(vs));
    ItemsPastBlank(s, 0, ws, [], NUL);
    RowsLexIffApart(s, |ws|, vs);
    WalkRows(s, |ws|, vs, GroupNodes(ps));
  }

  /** Two one-digit numbers with a blank between them are read as one literal, from the blank on. */
  lemma DigitsRunTogether()
    ensures var vs := [Lit([49], [32]), Lit([50], [])];
            RenderRows(vs) == [49, 32, 50] && Items(RenderRows(vs)) == [Item(1, 3, Literal, false)]
  {
    var s: seq<byte> := [49, 32, 50];
    var vs := [Lit([49], [32]), Lit([50], [])];
    assert vs[1..] == [vs[1]] && vs[1..][1..] == [];
    assert RenderRows(vs) == Render(vs[0]) + (Render(vs[1]) + []) == s;
    assert SkipWs(s, 0) == 0 && SkipWs(s, 1) == SkipWs(s, 2) == 2 && LiteralEnd(s, 2) == LiteralEnd(s, 3) == 3;
    assert ScanOne(s, 0, NUL) == Scan1(Item(1, 3, Literal, false), NUL, 50, 3, false);
    ItemsStep(s, 0, [], NUL);
    ItemsAtEnd(s, []);
  }

  // ----- What is selected and what is left -----

  function SelectRows(vs: seq<Json>, off: nat, ps: seq<Path>): seq<Place>
    decreases |vs|
  {
    if vs == [] then [] else Select(vs[0], off, ps, []) + SelectRows(vs[1..], off + |Render(vs[0])|, ps)
  }

  function CensoredRows(vs: seq<Json>, ps: seq<Path>, r: seq<byte>): seq<byte>
    decreases |vs|
  {
    if vs == [] then [] else Censored(vs[0], ps, [], r) + CensoredRows(vs[1..], ps, r)
  }

  lemma {:induction false} PickRowsIsSelectRows(vs: seq<Json>, off: nat, nodes: seq<Node>, ps: seq<Path>)
    requires Follows(nodes, ps, []) && forall v <- vs :: ColonFree(v) && KeysTight(v)
    ensures PickRows(vs, off, nodes) == SelectRows(vs, off, ps)
    decreases |vs|
  {
    hide Follows, ColonFree, KeysTight, Pick, Select;
    if vs != [] {
      PickIsSelect(vs[0], off, nodes, ps, []) by { assert vs[0] in vs; }
      PickRowsIsSelectRows(vs[1..], off + |Render(vs[0])|, nodes, ps);
    }
  }

  lemma {:induction false} SpliceRows(s: seq<byte>, vs: seq<Json>, off: nat, ps: seq<Path>, r: seq<byte>)
    requires (forall v <- vs :: WellFormed(v)) && At(s, off, RenderRows(vs)) && off + |RenderRows(vs)| == |s|
    ensures Yields(s, ActualAll(SelectRows(vs, off, ps)), r, off, |s|, CensoredRows(vs, ps, r))
    decreases |vs|
  {
    hide Yields, At, WellFormed, Select, Censored, Render;
    if vs == [] {
      YieldsText(s, r, off, []);
    } else {
      var next := off + |Render(vs[0])|;
      RowFollows(s, off, vs);
      SpliceValue(s, vs[0], off, ps, [], r) by { assert vs[0] in vs; }
      SpliceRows(s, vs[1..], next, ps, r);
      ActualConcat(Select(vs[0], off, ps, []), SelectRows(vs[1..], next, ps));
      YieldsConcat(s, r, off, ActualAll(Select(vs[0], off, ps, [])), Censored(vs[0], ps, [], r), next,
                   ActualAll(SelectRows(vs[1..], next, ps)), CensoredRows(vs[1..], ps, r), |s|);
    }
  }

  /** On every such input, if the selected parts are tight, scrub.JSON replaces exactly those parts in every
      one of the values and keeps everything else byte for byte. */
  lemma {:induction false} JSONCensorsRows(ws: seq<byte>, vs: seq<Json>, ps: seq<Path>, r: seq<byte>)
    requires Blank(ws) && AllApart(vs) && PublicPaths(ps)
    requires forall v <- vs :: WellFormed(v) && ColonFree(v) && KeysTight(v)
    requires forall p <- SelectRows(vs, |ws|, RespellAll(ps)) :: Tight(p)
    ensures JSONResult(ws + RenderRows(vs), ps, r) == Scrubbed(ws + CensoredRows(vs, RespellAll(ps), r))
  {
    hide At, RenderRows, CensoredRows, SelectRows, Indices, Blank, PublicPaths, Follows, WellFormed, ColonFree,
         KeysTight;
    var s, eff := ws + RenderRows(vs), RespellAll(ps);
    var places := SelectRows(vs, |ws|, eff);
    RowsArePickedInTurn(ws, vs, ps);
    TreeFollows(ps);
    PickRowsIsSelectRows(vs, |ws|, GroupNodes(ps), eff);
    ReportedIsActualIffTight(places);
    AtParts(ws, RenderRows(vs));
    SpliceRows(s, vs, |ws|, eff, r);
    YieldsBefore(s, r, 0, ws, ActualAll(places), CensoredRows(vs, eff, r), |s|);
  }
}
