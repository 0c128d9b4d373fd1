/** The main results about scrub.JSON: on a well-formed document it replaces exactly the outermost parts
    that the paths cover, at exactly described positions. */
module ScrubDocument {
  import opened Common
  import opened ScrubScanner
  import opened ScrubPaths
  import opened ScrubStream
  import opened ScrubSafety
  import opened ScrubJson
  import opened ScrubLexing

  // ----- Skipping a value -----

  lemma FirstElemToks(es: Elems, off: nat, post: seq<Item>)
    requires es.Elem?
    ensures ElemToks(es, off) + post
         == Toks(es.v, off, false) + (ElemToks(es.rest, off + |Render(es.v)| + 1 + |es.comma|) + post)
  {
  }

  lemma {:induction false} FirstMemberToks(ms: Members, off: nat, prev: bool, post: seq<Item>)
    requires ms.Member?
    ensures MemberToks(ms, off, prev) + post
         == FirstToks(ms, off, prev) + (MemberToks(ms.rest, NextOffset(ms, off), ColonString(ms.v)) + post)
  {
  }

  lemma {:induction false} SkipValueToks(v: Json, off: nat, member: bool, post: seq<Item>, depth: nat)
    ensures SkipFrom(Toks(v, off, member) + post, depth)
         == if depth == 0 then Skipped(post, Reported(Whole(v, off)).to) else SkipFrom(post, depth)
    decreases v, 0
  {
    hide RenderElems, RenderMembers, ElemToks, MemberToks, LastFlag, ColonString;
    var ts, at := Toks(v, off, member), off + 1 + if v.Arr? || v.Obj? then |v.ows| else 0;
    match v
    case Str(_, _) => assert (ts + post)[1..] == post;
    case Lit(_, _) => assert (ts + post)[1..] == post;
    case Arr(_, es, cws) =>
      var close := Bracket(at + |RenderElems(es)|, |cws|, ArrayEnd, false);
      assert (ts + post)[1..] == ElemToks(es, at) + (close + post);
      SkipElemToks(es, at, close + post, depth + 1);
      SkipClose(close[0], post, depth + 1);
    case Obj(_, ms, cws) =>
      var close := Bracket(at + |RenderMembers(ms)|, |cws|, ObjectEnd, LastFlag(ms, false));
      assert (ts + post)[1..] == MemberToks(ms, at, false) + (close + post);
      SkipMemberToks(ms, at, false, close + post, depth + 1);
      SkipClose(close[0], post, depth + 1);
  }

  lemma {:induction false} SkipClose(close: Item, post: seq<Item>, depth: nat)
    requires Closes(close.tok) && depth > 0
    ensures SkipFrom([close] + post, depth) == if depth == 1 then Skipped(post, close.to) else SkipFrom(post, depth - 1)
  {
    assert ([close] + post)[1..] == post;
  }

  lemma {:induction false} SkipElemToks(es: Elems, off: nat, post: seq<Item>, depth: nat)
    requires depth > 0
    ensures SkipFrom(ElemToks(es, off) + post, depth) == SkipFrom(post, depth)
    decreases es, 0
  {
    hide SkipFrom, Toks, Render;
    match es
    case NoElem => assert [] + post == post;
    case Elem(v, comma, rest) =>
      var next := off + |Render(v)| + 1 + |comma|;
      FirstElemToks(es, off, post);
      SkipValueToks(v, off, false, ElemToks(rest, next) + post, depth);
      SkipElemToks(rest, next, post, depth);
  }

  lemma {:induction false} SkipMemberToks(ms: Members, off: nat, prev: bool, post: seq<Item>, depth: nat)
    requires depth > 0
    ensures SkipFrom(MemberToks(ms, off, prev) + post, depth) == SkipFrom(post, depth)
    decreases ms, 2
  {
    hide SkipFrom, FirstToks, NextOffset, ColonString;
    match ms
    case NoMember => assert [] + post == post;
    case Member(key, kws, colon, v, comma, rest) =>
      FirstMemberToks(ms, off, prev, post);
      SkipFirstToks(ms, off, prev, MemberToks(rest, NextOffset(ms, off), ColonString(v)) + post, depth);
      SkipMemberToks(rest, NextOffset(ms, off), ColonString(v), post, depth);
  }

  lemma {:induction false} SkipFirstToks(ms: Members, off: nat, prev: bool, post: seq<Item>, depth: nat)
    requires ms.Member? && depth > 0
    ensures SkipFrom(FirstToks(ms, off, prev) + post, depth) == SkipFrom(post, depth)
    decreases ms, 1
  {
    hide Render, Toks;
    var at := ValueOffset(ms.key, ms.kws, ms.colon, off);
    assert (FirstToks(ms, off, prev) + post)[1..] == Toks(ms.v, at, true) + post;
    SkipValueToks(ms.v, at, true, post, depth);
  }

  // ----- Walking a value -----

  lemma {:induction false} QuotedItemText(input: seq<byte>, off: nat, c: seq<byte>, it: Item)
    requires At(input, off, Quoted(c)) && it.from == off + Lead(c) && it.to == off + |c| + 2
    ensures Text(input, it) == KeyText(c)
  {
    hide Lead, Quoted, At;
    SuffixText(input, off, Quoted(c), Lead(c));
  }

  lemma SuffixText(s: seq<byte>, p: nat, t: seq<byte>, n: nat)
    requires At(s, p, t) && n <= |t|
    ensures p + |t| <= |s| && s[p + n..p + |t|] == t[n..]
  {
    assert s[p..p + |t|][n..] == s[p + n..p + |t|];
  }

  lemma {:induction false} ItemNodes(input: seq<byte>, nodes: seq<Node>, it: Item)
    ensures CurrNodes(nodes, it) == Here(nodes, it.isMapKey, Text(input, it))
    ensures ValueNodes(input, nodes, it) == Behind(nodes, it.isMapKey, Text(input, it))
  {
    hide NameMatches, Spelled;
    if nodes != [] {
      ItemNodes(input, nodes[1..], it);
      NameMatchesIff(nodes[0].name, nodes[0].caseSensitive, Text(input, it));
    }
  }

  lemma {:induction false} PickNothing(v: Json, off: nat)
    ensures Pick(v, off, []) == []
    decreases v, 2
  {
    match v
    case Str(_, _) =>
    case Lit(_, _) =>
    case Arr(ows, es, _) => PickNoElems(es, off + 1 + |ows|);
    case Obj(ows, ms, _) => PickNoMembers(ms, off + 1 + |ows|, false);
  }

  lemma {:induction false} PickNoElems(es: Elems, off: nat)
    ensures PickElems(es, off, []) == []
    decreases es, 0
  {
    match es
    case NoElem =>
    case Elem(v, comma, rest) =>
      PickNothing(v, off);
      PickNoElems(rest, off + |Render(v)| + 1 + |comma|);
  }

  lemma {:induction false} PickNoMembers(ms: Members, off: nat, prev: bool)
    ensures PickMembers(ms, off, [], prev) == []
    decreases ms, 1
  {
    match ms
    case NoMember =>
    case Member(key, kws, colon, v, comma, rest) =>
      if ColonString(v) {
        PickNothingAtValue(ms, off);
      } else {
        PickNothing(v, ValueOffset(key, kws, colon, off));
        PickNoMembers(rest, NextOffset(ms, off), false);
      }
  }

  lemma {:induction false} PickNothingAtValue(ms: Members, off: nat)
    requires ms.Member?
    ensures PickAtValue(ms, off, []) == []
    decreases ms, 0
  {
    PickNothing(ms.v, ValueOffset(ms.key, ms.kws, ms.colon, off));
    PickNoMembers(ms.rest, NextOffset(ms, off), ColonString(ms.v));
    if ms.rest.Member? { PickNothingAtValue(ms.rest, NextOffset(ms, off)); }
  }

  /** The walker leaves the items behind the value and reports the picked places. */
  lemma {:induction false} WalkToks(input: seq<byte>, v: Json, off: nat, member: bool, nodes: seq<Node>,
                                    post: seq<Item>)
    requires WellFormed(v) && At(input, off, Render(v))
    ensures WalkValue(input, Toks(v, off, member) + post, nodes) == Walked(post, ReportedAll(Pick(v, off, nodes)))
    decreases v, 6
  {
    if ScrubNow(nodes) || nodes == [] {
      SkipValueToks(v, off, member, post, 0);
      if nodes == [] { PickNothing(v, off); }
    } else {
      match v
      case Str(_, _) => assert (Toks(v, off, member) + post)[1..] == post;
      case Lit(_, _) => assert (Toks(v, off, member) + post)[1..] == post;
      case Arr(_, _, _) => WalkInArray(input, v, off, member, nodes, post);
      case Obj(_, _, _) => WalkInObject(input, v, off, member, nodes, post);
    }
  }

  lemma {:induction false} WalkInArray(input: seq<byte>, v: Json, off: nat, member: bool, nodes: seq<Node>,
                                       post: seq<Item>)
    requires v.Arr? && WellFormed(v) && At(input, off, Render(v)) && !ScrubNow(nodes) && nodes != []
    ensures WalkValue(input, Toks(v, off, member) + post, nodes) == Walked(post, ReportedAll(Pick(v, off, nodes)))
    decreases v.elems, 1
  {
    hide At, RenderElems, ElemToks, PickElems, WalkArray, ReportedAll;
    var at := off + 1 + |v.ows|;
    var close := Bracket(at + |RenderElems(v.elems)|, |v.cws|, ArrayEnd, false);
    assert (Toks(v, off, member) + post)[1..] == ElemToks(v.elems, at) + ([close[0]] + post);
    ArrayText(input, off, v);
    WalkElems(input, v.elems, at, nodes, close[0], post);
  }

  lemma {:induction false} WalkInObject(input: seq<byte>, v: Json, off: nat, member: bool, nodes: seq<Node>,
                                        post: seq<Item>)
    requires v.Obj? && WellFormed(v) && At(input, off, Render(v)) && !ScrubNow(nodes) && nodes != []
    ensures WalkValue(input, Toks(v, off, member) + post, nodes) == Walked(post, ReportedAll(Pick(v, off, nodes)))
    decreases v.members, 7
  {
    hide At, RenderMembers, MemberToks, PickMembers, WalkObject, ReportedAll, LastFlag;
    var at := off + 1 + |v.ows|;
    var close := Bracket(at + |RenderMembers(v.members)|, |v.cws|, ObjectEnd, LastFlag(v.members, false));
    assert (Toks(v, off, member) + post)[1..] == MemberToks(v.members, at, false) + ([close[0]] + post);
    ObjectText(input, off, v);
    WalkMembers(input, v.members, at, nodes, false, close[0], post);
  }

  lemma {:induction false} WalkArrayStep(input: seq<byte>, ts: seq<Item>, nodes: seq<Node>)
    requires !AtEnd(ts) && ts[0].tok != ArrayEnd && WalkValue(input, ts, nodes).Walked?
    ensures var v := WalkValue(input, ts, nodes);
            WalkArray(input, ts, nodes) == After(v.out, WalkArray(input, v.rest, nodes))
  {
    hide WalkValue;
  }

  lemma {:induction false} WalkArrayEnd(input: seq<byte>, close: Item, post: seq<Item>, nodes: seq<Node>)
    requires close.tok == ArrayEnd
    ensures WalkArray(input, [] + ([close] + post), nodes) == Walked(post, [])
  {
    hide WalkValue;
    assert ([] + ([close] + post))[1..] == post;
  }

  lemma {:induction false} WalkObjectStep(input: seq<byte>, ts: seq<Item>, nodes: seq<Node>)
    requires !AtEnd(ts) && ts[0].tok != ObjectEnd && WalkMember(input, ts, nodes).Walked?
    ensures var m := WalkMember(input, ts, nodes);
            WalkObject(input, ts, nodes) == After(m.out, WalkObject(input, m.rest, nodes))
  {
    hide WalkMember;
  }

  lemma {:induction false} WalkObjectEnd(input: seq<byte>, close: Item, post: seq<Item>, nodes: seq<Node>)
    requires close.tok == ObjectEnd
    ensures WalkObject(input, [] + ([close] + post), nodes) == Walked(post, [])
  {
    hide WalkMember;
    assert ([] + ([close] + post))[1..] == post;
  }

  lemma {:induction false} WalkElems(input: seq<byte>, es: Elems, off: nat, nodes: seq<Node>, close: Item,
                                     post: seq<Item>)
    requires WellFormedElems(es) && (es.Elem? ==> At(input, off, RenderElems(es))) && close.tok == ArrayEnd
    ensures WalkArray(input, ElemToks(es, off) + ([close] + post), nodes)
         == Walked(post, ReportedAll(PickElems(es, off, nodes)))
    decreases es, 0
  {
    hide WalkArray, WalkValue, At, Render, Toks, Pick, ReportedAll;
    match es
    case NoElem => WalkArrayEnd(input, close, post, nodes);
    case Elem(v, comma, rest) =>
      ElemsText(input, off, es);
      var next := off + |Render(v)| + 1 + |comma|;
      var tail := ElemToks(rest, next) + ([close] + post);
      FirstElemToks(es, off, [close] + post);
      WalkToks(input, v, off, false, nodes, tail);
      WalkArrayStep(input, Toks(v, off, false) + tail, nodes);
      WalkElems(input, rest, next, nodes, close, post);
      ReportedConcat(Pick(v, off, nodes), PickElems(rest, next, nodes));
  }

  /** A literal in key position is left behind, and reported if its nodes say so. */
  lemma {:induction false} WalkKey(input: seq<byte>, key: seq<byte>, off: nat, isKey: bool, rest: seq<Item>,
                                   nodes: seq<Node>)
    ensures WalkValue(input, OneToken(Key(key, off), Literal, isKey) + rest, nodes)
         == Walked(rest, ReportedAll(PickKey(key, off, nodes)))
  {
    assert (OneToken(Key(key, off), Literal, isKey) + rest)[1..] == rest;
  }

  /** One round of the object loop that starts at a key. */
  lemma {:induction false} WalkKeyStep(input: seq<byte>, ms: Members, off: nat, nodes: seq<Node>, prev: bool,
                                       tail: seq<Item>)
    requires ms.Member? && WellFormedMembers(ms) && At(input, off, RenderMembers(ms))
    ensures var at := ValueOffset(ms.key, ms.kws, ms.colon, off);
            var f, text := KeyFlagged(ms.key, prev), KeyText(ms.key);
            var here := PickKey(ms.key, off, Here(nodes, f, text));
            var value := Toks(ms.v, at, true) + tail;
            WalkMember(input, FirstToks(ms, off, prev) + tail, nodes)
              == if ColonString(ms.v) then Walked(value, ReportedAll(here))
                 else Walked(tail, ReportedAll(here + Pick(ms.v, at, Behind(nodes, f, text))))
    decreases ms, 3
  {
    hide At, WalkValue, Render, Toks, Pick, CurrNodes, ValueNodes, Here, Behind, ReportedAll, KeyFlagged, PickKey;
    var at := ValueOffset(ms.key, ms.kws, ms.colon, off);
    var it := OneToken(Key(ms.key, off), Literal, KeyFlagged(ms.key, prev))[0];
    var value := Toks(ms.v, at, true) + tail;
    assert FirstToks(ms, off, prev) + tail == [it] + value;
    MembersText(input, off, ms);
    QuotedItemText(input, off, ms.key, it);
    ItemNodes(input, nodes, it);
    WalkKey(input, ms.key, off, it.isMapKey, value, CurrNodes(nodes, it));
    if !ColonString(ms.v) {
      WalkToks(input, ms.v, at, true, ValueNodes(input, nodes, it), tail);
      ReportedConcat(PickKey(ms.key, off, CurrNodes(nodes, it)), Pick(ms.v, at, ValueNodes(input, nodes, it)));
    }
  }

  /** The nodes for a value that stands in key position. */
  lemma {:induction false} ValueItemNodes(input: seq<byte>, v: Json, at: nat, nodes: seq<Node>)
    requires WellFormed(v) && At(input, at, Render(v))
    ensures var it, f := Toks(v, at, true)[0], ColonString(v);
            it.isMapKey == f && CurrNodes(nodes, it) == Here(nodes, f, ValueText(v))
            && ValueNodes(input, nodes, it) == Behind(nodes, f, ValueText(v))
  {
    var it := Toks(v, at, true)[0];
    ItemNodes(input, nodes, it);
    if ColonString(v) {
      AtSplit(input, at, Quoted(v.content), v.ws);
      QuotedItemText(input, at, v.content, it);
    }
  }

  /** One round of the object loop that starts at a value and does not take the next key for its value. */
  lemma {:induction false} WalkValueStep(input: seq<byte>, v: Json, at: nat, nodes: seq<Node>, tail: seq<Item>)
    requires WellFormed(v) && At(input, at, Render(v)) && !IsMapValue(tail)
    ensures WalkMember(input, Toks(v, at, true) + tail, nodes)
         == Walked(tail, ReportedAll(Pick(v, at, Here(nodes, ColonString(v), ValueText(v)))))
    decreases v, 7
  {
    hide At, WalkValue, Render, Pick, CurrNodes, ValueNodes, Here, ReportedAll, ColonString, ValueText;
    ValueItemNodes(input, v, at, nodes);
    WalkToks(input, v, at, true, Here(nodes, ColonString(v), ValueText(v)), tail);
    assert (Toks(v, at, true) + tail)[0] == Toks(v, at, true)[0];
  }

  /** One round that starts at a value and takes the next key for its value. */
  lemma {:induction false} WalkTwistedStep(input: seq<byte>, v: Json, at: nat, nodes: seq<Node>, key: seq<byte>,
                                           next: nat, tail: seq<Item>)
    requires WellFormed(v) && At(input, at, Render(v))
    ensures var f, text := ColonString(v), ValueText(v);
            WalkMember(input, Toks(v, at, true) + (OneToken(Key(key, next), Literal, false) + tail), nodes)
              == Walked(tail, ReportedAll(Pick(v, at, Here(nodes, f, text))
                                          + PickKey(key, next, Behind(nodes, f, text))))
    decreases v, 7
  {
    hide At, WalkValue, Render, Pick, CurrNodes, ValueNodes, Here, Behind, ReportedAll, ColonString, ValueText, PickKey;
    var f, text := ColonString(v), ValueText(v);
    var rest := OneToken(Key(key, next), Literal, false) + tail;
    ValueItemNodes(input, v, at, nodes);
    WalkToks(input, v, at, true, Here(nodes, f, text), rest);
    WalkKey(input, key, next, false, tail, Behind(nodes, f, text));
    assert (Toks(v, at, true) + rest)[0] == Toks(v, at, true)[0];
    ReportedConcat(Pick(v, at, Here(nodes, f, text)), PickKey(key, next, Behind(nodes, f, text)));
  }

  lemma {:induction false} WalkMembers(input: seq<byte>, ms: Members, off: nat, nodes: seq<Node>, prev: bool,
                                       close: Item, post: seq<Item>)
    requires WellFormedMembers(ms) && (ms.Member? ==> At(input, off, RenderMembers(ms))) && close.tok == ObjectEnd
    ensures WalkObject(input, MemberToks(ms, off, prev) + ([close] + post), nodes)
         == Walked(post, ReportedAll(PickMembers(ms, off, nodes, prev)))
    decreases ms, 6
  {
    hide WalkObject;
    match ms
    case NoMember => WalkObjectEnd(input, close, post, nodes);
    case Member(_, _, _, _, _, _) => WalkAtKey(input, ms, off, nodes, prev, close, post);
  }

  lemma {:induction false} PickMembersParts(ms: Members, off: nat, nodes: seq<Node>, prev: bool)
    requires ms.Member?
    ensures var f, text := KeyFlagged(ms.key, prev), KeyText(ms.key);
            var here := PickKey(ms.key, off, Here(nodes, f, text));
            var value := Pick(ms.v, ValueOffset(ms.key, ms.kws, ms.colon, off), Behind(nodes, f, text));
            PickMembers(ms, off, nodes, prev)
              == if ColonString(ms.v) then here + PickAtValue(ms, off, nodes)
                 else here + value + PickMembers(ms.rest, NextOffset(ms, off), nodes, false)
  {
    hide PickKey, Here, Behind, Pick, PickAtValue, KeyFlagged, KeyText;
  }

  lemma {:induction false} WalkAtKey(input: seq<byte>, ms: Members, off: nat, nodes: seq<Node>, prev: bool,
                                     close: Item, post: seq<Item>)
    requires ms.Member? && WellFormedMembers(ms) && At(input, off, RenderMembers(ms)) && close.tok == ObjectEnd
    ensures WalkObject(input, MemberToks(ms, off, prev) + ([close] + post), nodes)
         == Walked(post, ReportedAll(PickMembers(ms, off, nodes, prev)))
    decreases ms, 5
  {
    hide WalkObject, WalkMember, At, Render, RenderMembers, FirstToks, Toks, ReportedAll, Here, Behind, PickKey, Pick,
         PickMembers, PickAtValue, KeyFlagged, KeyText, MemberToks, NextOffset, ColonString;
    var tail := MemberToks(ms.rest, NextOffset(ms, off), ColonString(ms.v)) + ([close] + post);
    FirstMemberToks(ms, off, prev, [close] + post);
    WalkKeyStep(input, ms, off, nodes, prev, tail);
    WalkObjectStep(input, FirstToks(ms, off, prev) + tail, nodes);
    PickMembersParts(ms, off, nodes, prev);
    var f, text := KeyFlagged(ms.key, prev), KeyText(ms.key);
    var here := PickKey(ms.key, off, Here(nodes, f, text));
    if ColonString(ms.v) {
      WalkAtValue(input, ms, off, nodes, close, post);
      ReportedConcat(here, PickAtValue(ms, off, nodes));
    } else {
      NextText(input, ms, off);
      WalkMembers(input, ms.rest, NextOffset(ms, off), nodes, false, close, post);
      var value := Pick(ms.v, ValueOffset(ms.key, ms.kws, ms.colon, off), Behind(nodes, f, text));
      ReportedConcat(here + value, PickMembers(ms.rest, NextOffset(ms, off), nodes, false));
    }
  }

  lemma {:induction false} WalkAtValue(input: seq<byte>, ms: Members, off: nat, nodes: seq<Node>, close: Item,
                                       post: seq<Item>)
    requires ms.Member? && WellFormedMembers(ms) && At(input, off, RenderMembers(ms)) && close.tok == ObjectEnd
    ensures var at := ValueOffset(ms.key, ms.kws, ms.colon, off);
            var tail := MemberToks(ms.rest, NextOffset(ms, off), ColonString(ms.v)) + ([close] + post);
            WalkObject(input, Toks(ms.v, at, true) + tail, nodes)
              == Walked(post, ReportedAll(PickAtValue(ms, off, nodes)))
    decreases ms, 4
  {
    hide WalkObject, WalkMember, At, Render, Toks, ReportedAll, PickMembers, Here, Behind, PickKey, Pick, FirstToks;
    var at, next, rest := ValueOffset(ms.key, ms.kws, ms.colon, off), NextOffset(ms, off), ms.rest;
    var f, text := ColonString(ms.v), ValueText(ms.v);
    var tail := MemberToks(rest, next, f) + ([close] + post);
    var here := Pick(ms.v, at, Here(nodes, f, text));
    MembersText(input, off, ms);
    NextText(input, ms, off);
    if rest.Member? && !KeyFlagged(rest.key, f) {
      var at2, next2 := ValueOffset(rest.key, rest.kws, rest.colon, next), NextOffset(rest, next);
      var tail2 := Toks(rest.v, at2, true) + (MemberToks(rest.rest, next2, ColonString(rest.v)) + ([close] + post));
      SplitFirst(rest, next, f, [close] + post);
      WalkTwistedStep(input, ms.v, at, nodes, rest.key, next, tail2);
      WalkObjectStep(input, Toks(ms.v, at, true) + tail, nodes);
      WalkAtValue(input, rest, next, nodes, close, post);
      var key := PickKey(rest.key, next, Behind(nodes, f, text));
      ReportedConcat(here + key, PickAtValue(rest, next, nodes));
    } else {
      TailIsNoValue(rest, next, f, close, post);
      WalkValueStep(input, ms.v, at, nodes, tail);
      WalkObjectStep(input, Toks(ms.v, at, true) + tail, nodes);
      WalkMembers(input, rest, next, nodes, f, close, post);
      ReportedConcat(here, PickMembers(rest, next, nodes, f));
    }
  }

  lemma {:induction false} NextText(input: seq<byte>, ms: Members, off: nat)
    requires ms.Member? && WellFormedMembers(ms) && At(input, off, RenderMembers(ms))
    ensures ms.rest.Member? ==> At(input, NextOffset(ms, off), RenderMembers(ms.rest))
  {
    hide At, Render;
    MembersText(input, off, ms);
  }

  lemma {:induction false} SplitFirst(ms: Members, off: nat, prev: bool, post: seq<Item>)
    requires ms.Member?
    ensures var at := ValueOffset(ms.key, ms.kws, ms.colon, off);
            var tail := MemberToks(ms.rest, NextOffset(ms, off), ColonString(ms.v)) + post;
            MemberToks(ms, off, prev) + post
              == OneToken(Key(ms.key, off), Literal, KeyFlagged(ms.key, prev)) + (Toks(ms.v, at, true) + tail)
  {
    hide Toks;
    FirstMemberToks(ms, off, prev, post);
  }

  lemma {:induction false} TailIsNoValue(rest: Members, next: nat, f: bool, close: Item, post: seq<Item>)
    requires close.tok == ObjectEnd && (rest.Member? ==> KeyFlagged(rest.key, f))
    ensures !IsMapValue(MemberToks(rest, next, f) + ([close] + post))
  {
    hide Toks;
  }

  // ----- Main results -----

  /** For every well-formed document and every list of paths, the scrubber ends and reports what it picks. */
  lemma {:induction false} IndicesArePicked(ws: seq<byte>, v: Json, ps: seq<Path>)
    requires Blank(ws) && WellFormed(v)
    ensures Indices(ws + Render(v), ps) == Found(ReportedAll(Pick(v, |ws|, GroupNodes(ps))))
  {
    hide At, Toks, WalkValue, WalkAll, Items, Pick, Blank, WellFormed;
    var s, nodes := ws + Render(v), GroupNodes(ps);
    LexDocument(ws, v);
    AtParts(ws, Render(v));
    assert Toks(v, |ws|, false) + [] == Toks(v, |ws|, false);
    WalkToks(s, v, |ws|, false, nodes, []);
    WalkWhole(s, Toks(v, |ws|, false), nodes);
  }

  lemma {:induction false} WalkWhole(input: seq<byte>, ts: seq<Item>, nodes: seq<Node>)
    requires !AtEnd(ts) && WalkValue(input, ts, nodes).Walked? && WalkValue(input, ts, nodes).rest == []
    ensures WalkAll(input, ts, nodes) == WalkValue(input, ts, nodes)
  {
    hide WalkValue;
    assert WalkAll(input, [], nodes) == Walked([], []);
  }

  /** If no object of the document holds a colon string or a key that starts with a blank, what is reported
      is, in document order, exactly the outermost parts that the paths cover, each where Reported says; a
      case-sensitive name counts in the first spelling it was given. */
  lemma {:induction false} IndicesAreSelection(ws: seq<byte>, v: Json, ps: seq<Path>)
    requires Blank(ws) && WellFormed(v) && ColonFree(v) && KeysTight(v) && PublicPaths(ps)
    ensures Indices(ws + Render(v), ps) == Found(ReportedAll(Select(v, |ws|, RespellAll(ps), [])))
  {
    TreeFollows(ps);
    IndicesArePicked(ws, v, ps);
    PickIsSelect(v, |ws|, GroupNodes(ps), RespellAll(ps), []);
  }

  lemma {:induction false} TreeFollows(ps: seq<Path>)
    requires PublicPaths(ps)
    ensures Follows(GroupNodes(ps), RespellAll(ps), [])
    ensures CaseConsistent(ps) ==> Follows(GroupNodes(ps), ps, [])
  {
    forall ext: seq<Step> ensures NodesCover(GroupNodes(ps), ext) == Covered(RespellAll(ps), [] + ext) {
      assert [] + ext == ext;
      TreeCovers(ps, ext);
    }
    if CaseConsistent(ps) {
      forall ext: seq<Step> ensures NodesCover(GroupNodes(ps), ext) == Covered(ps, [] + ext) {
        assert [] + ext == ext;
        ConsistentTreeCovers(ps, ext);
      }
    }
  }

  /** If case-sensitive names are spelled consistently, the paths count as written. */
  lemma {:induction false} ConsistentIndicesAreSelection(ws: seq<byte>, v: Json, ps: seq<Path>)
    requires Blank(ws) && WellFormed(v) && ColonFree(v) && KeysTight(v) && PublicPaths(ps) && CaseConsistent(ps)
    ensures Indices(ws + Render(v), ps) == Found(ReportedAll(Select(v, |ws|, ps, [])))
  {
    TreeFollows(ps);
    IndicesArePicked(ws, v, ps);
    PickIsSelect(v, |ws|, GroupNodes(ps), ps, []);
  }

  /** The reported bounds are the true spans of the selected parts if and only if each of them is tight. */
  lemma {:induction false} SpansAreExactIffTight(ws: seq<byte>, v: Json, ps: seq<Path>)
    requires Blank(ws) && WellFormed(v) && ColonFree(v) && KeysTight(v) && PublicPaths(ps)
    ensures var places := Select(v, |ws|, RespellAll(ps), []);
            Indices(ws + Render(v), ps) == Found(ActualAll(places)) <==> forall p <- places :: Tight(p)
  {
    IndicesAreSelection(ws, v, ps);
    ReportedIsActualIffTight(Select(v, |ws|, RespellAll(ps), []));
  }

  // ----- The scrubbed document -----

  function TrailingWs(v: Json): seq<byte> {
    match v
    case Str(_, ws) => ws
    case Lit(_, ws) => ws
    case Arr(_, _, cws) => cws
    case Obj(_, _, cws) => cws
  }

  /** The text of v with every outermost covered part replaced and everything else kept byte for byte. */
  function Censored(v: Json, ps: seq<Path>, addr: seq<Step>, r: seq<byte>): seq<byte>
    decreases v, 0
  {
    if Covered(ps, addr) then r + TrailingWs(v)
    else match v
      case Str(_, _) => Render(v)
      case Lit(_, _) => Render(v)
      case Arr(ows, es, cws) => ([LBRACKET] + ows) + (CensoredElems(es, ps, addr, r) + ([RBRACKET] + cws))
      case Obj(ows, ms, cws) => ([LBRACE] + ows) + (CensoredMembers(ms, ps, addr, r) + ([RBRACE] + cws))
  }

  function CensoredElems(es: Elems, ps: seq<Path>, addr: seq<Step>, r: seq<byte>): seq<byte>
    decreases es, 0
  {
    match es
    case NoElem => []
    case Elem(v, comma, rest) =>
      Censored(v, ps, addr, r) + (if rest.NoElem? then [] else ([COMMA] + comma) + CensoredElems(rest, ps, addr, r))
  }

  function CensoredMembers(ms: Members, ps: seq<Path>, addr: seq<Step>, r: seq<byte>): seq<byte>
    decreases ms, 0
  {
    match ms
    case NoMember => []
    case Member(key, kws, colon, v, comma, rest) =>
      (if Covered(ps, addr + [KeyOf(Quoted(key))]) then r else Quoted(key)) +
      (kws + [COLON] + colon) +
      Censored(v, ps, addr + [Into(Quoted(key))], r) +
      (if rest.NoMember? then [] else ([COMMA] + comma) + CensoredMembers(rest, ps, addr, r))
  }

  /** Splicing the given bounds into the text t, which stands at lo, yields `want`. */
  ghost predicate Yields(s: seq<byte>, bs: seq<Bounds>, r: seq<byte>, lo: nat, hi: nat, want: seq<byte>) {
    hi <= |s| && Ordered(bs, lo, hi) && Splice(s, bs, r, lo, hi) == want
  }

  lemma YieldsText(s: seq<byte>, r: seq<byte>, lo: nat, t: seq<byte>)
    requires At(s, lo, t)
    ensures Yields(s, [], r, lo, lo + |t|, t)
  {
  }

  lemma YieldsConcat(s: seq<byte>, r: seq<byte>, lo: nat, a: seq<Bounds>, wantA: seq<byte>, mid: nat,
                     b: seq<Bounds>, wantB: seq<byte>, hi: nat)
    requires Yields(s, a, r, lo, mid, wantA) && Yields(s, b, r, mid, hi, wantB)
    ensures Yields(s, a + b, r, lo, hi, wantA + wantB)
  {
    SpliceConcat(s, a, b, r, lo, mid, hi);
  }

  /** Text before and after a stretch is kept. */
  lemma YieldsAround(s: seq<byte>, r: seq<byte>, lo: nat, before: seq<byte>, bs: seq<Bounds>, want: seq<byte>,
                     end: nat, after: seq<byte>)
    requires At(s, lo, before) && Yields(s, bs, r, lo + |before|, end, want) && At(s, end, after)
    ensures Yields(s, bs, r, lo, end + |after|, before + (want + after))
  {
    hide At, Yields;
    YieldsText(s, r, lo, before);
    YieldsText(s, r, end, after);
    YieldsConcat(s, r, lo + |before|, bs, want, end, [], after, end + |after|);
    YieldsConcat(s, r, lo, [], before, lo + |before|, bs + [], want + after, end + |after|);
    assert [] + (bs + []) == bs;
  }

  lemma YieldsReplaced(s: seq<byte>, r: seq<byte>, lo: nat, t: seq<byte>, after: seq<byte>)
    requires t != [] && At(s, lo, t) && At(s, lo + |t|, after)
    ensures Yields(s, [Bounds(lo, lo + |t|)], r, lo, lo + |t| + |after|, r + after)
  {
    var bs := [Bounds(lo, lo + |t|)];
    assert bs[1..] == [];
    assert s[lo..lo] == [];
  }

  /** The text of a value without the blanks behind it. */
  lemma CoreText(s: seq<byte>, v: Json, off: nat) returns (core: seq<byte>)
    requires WellFormed(v) && At(s, off, Render(v))
    ensures core != [] && At(s, off, core) && At(s, off + |core|, TrailingWs(v))
    ensures Actual(Whole(v, off)) == Bounds(off, off + |core|) && |Render(v)| == |core| + |TrailingWs(v)|
  {
    core := Render(v)[..|Render(v)| - |TrailingWs(v)|];
    assert Render(v) == core + TrailingWs(v);
    AtSplit(s, off, core, TrailingWs(v));
  }

  lemma {:induction false} SpliceValue(s: seq<byte>, v: Json, off: nat, ps: seq<Path>, addr: seq<Step>, r: seq<byte>)
    requires WellFormed(v) && At(s, off, Render(v))
    ensures Yields(s, ActualAll(Select(v, off, ps, addr)), r, off, off + |Render(v)|, Censored(v, ps, addr, r))
    decreases v, 0
  {
    hide Yields, At, Covered, RenderElems, RenderMembers, SelectElems, SelectMembers, CensoredElems, CensoredMembers;
    if Covered(ps, addr) {
      var core := CoreText(s, v, off);
      YieldsReplaced(s, r, off, core, TrailingWs(v));
      assert ActualAll([Whole(v, off)]) == [Actual(Whole(v, off))];
    } else {
      match v
      case Str(_, _) => YieldsText(s, r, off, Render(v));
      case Lit(_, _) => YieldsText(s, r, off, Render(v));
      case Arr(_, _, _) => SpliceArray(s, v, off, ps, addr, r);
      case Obj(_, _, _) => SpliceObject(s, v, off, ps, addr, r);
    }
  }

  lemma {:induction false} SpliceArray(s: seq<byte>, v: Json, off: nat, ps: seq<Path>, addr: seq<Step>, r: seq<byte>)
    requires v.Arr? && WellFormed(v) && At(s, off, Render(v)) && !Covered(ps, addr)
    ensures Yields(s, ActualAll(Select(v, off, ps, addr)), r, off, off + |Render(v)|, Censored(v, ps, addr, r))
    decreases v.elems, 1
  {
    hide Yields, At, Covered, RenderElems, SelectElems, CensoredElems;
    var Arr(ows, es, cws) := v;
    var at := off + 1 + |ows|;
    ArrayText(s, off, v);
    SpliceElems(s, es, at, ps, addr, r);
    YieldsAround(s, r, off, [LBRACKET] + ows, ActualAll(SelectElems(es, at, ps, addr)),
                 CensoredElems(es, ps, addr, r), at + |RenderElems(es)|, [RBRACKET] + cws);
  }

  lemma {:induction false} SpliceObject(s: seq<byte>, v: Json, off: nat, ps: seq<Path>, addr: seq<Step>, r: seq<byte>)
    requires v.Obj? && WellFormed(v) && At(s, off, Render(v)) && !Covered(ps, addr)
    ensures Yields(s, ActualAll(Select(v, off, ps, addr)), r, off, off + |Render(v)|, Censored(v, ps, addr, r))
    decreases v.members, 1
  {
    hide Yields, At, Covered, RenderMembers, SelectMembers, CensoredMembers;
    var Obj(ows, ms, cws) := v;
    var at := off + 1 + |ows|;
    ObjectText(s, off, v);
    SpliceMembers(s, ms, at, ps, addr, r);
    YieldsAround(s, r, off, [LBRACE] + ows, ActualAll(SelectMembers(ms, at, ps, addr)),
                 CensoredMembers(ms, ps, addr, r), at + |RenderMembers(ms)|, [RBRACE] + cws);
  }

  lemma {:induction false} ActualConcat(a: seq<Place>, b: seq<Place>)
    ensures ActualAll(a + b) == ActualAll(a) + ActualAll(b)
  {
  }

  lemma {:induction false} SpliceElems(s: seq<byte>, es: Elems, off: nat, ps: seq<Path>, addr: seq<Step>, r: seq<byte>)
    requires WellFormedElems(es) && At(s, off, RenderElems(es))
    ensures Yields(s, ActualAll(SelectElems(es, off, ps, addr)), r, off, off + |RenderElems(es)|,
                   CensoredElems(es, ps, addr, r))
    decreases es, 0
  {
    hide Yields, At, Render, Select, Censored, ActualAll;
    match es
    case NoElem => YieldsText(s, r, off, []);
    case Elem(v, comma, rest) =>
      ElemsText(s, off, es);
      SpliceValue(s, v, off, ps, addr, r);
      var q := off + |Render(v)|;
      var next := q + 1 + |comma|;
      var here, more := Select(v, off, ps, addr), SelectElems(rest, next, ps, addr);
      ActualConcat(here, more);
      assert ActualAll(here + more) == ActualAll(here) + ActualAll(more);
      if rest.NoElem? {
        assert here + more == here;
        assert Censored(v, ps, addr, r) + [] == Censored(v, ps, addr, r);
      } else {
        SpliceElems(s, rest, next, ps, addr, r);
        YieldsAfterComma(s, r, off, ActualAll(here), Censored(v, ps, addr, r), q, comma,
                         ActualAll(more), CensoredElems(rest, ps, addr, r), next + |RenderElems(rest)|);
      }
  }

  lemma CommaText(s: seq<byte>, q: nat, comma: seq<byte>)
    requires q < |s| && s[q] == COMMA && At(s, q + 1, comma)
    ensures At(s, q, [COMMA] + comma)
  {
  }

  lemma YieldsBefore(s: seq<byte>, r: seq<byte>, lo: nat, before: seq<byte>, bs: seq<Bounds>, want: seq<byte>, hi: nat)
    requires At(s, lo, before) && Yields(s, bs, r, lo + |before|, hi, want)
    ensures Yields(s, bs, r, lo, hi, before + want)
  {
    hide At, Yields;
    YieldsText(s, r, lo, before);
    YieldsConcat(s, r, lo, [], before, lo + |before|, bs, want, hi);
    assert [] + bs == bs;
  }

  /** Two stretches with a comma and its blanks between them. */
  lemma YieldsAfterComma(s: seq<byte>, r: seq<byte>, lo: nat, a: seq<Bounds>, wantA: seq<byte>, q: nat,
                         comma: seq<byte>,
                         b: seq<Bounds>, wantB: seq<byte>, hi: nat)
    requires Yields(s, a, r, lo, q, wantA) && q < |s| && s[q] == COMMA && At(s, q + 1, comma)
    requires Yields(s, b, r, q + 1 + |comma|, hi, wantB)
    ensures Yields(s, a + b, r, lo, hi, wantA + (([COMMA] + comma) + wantB))
  {
    hide Yields, At;
    CommaText(s, q, comma);
    YieldsBefore(s, r, q, [COMMA] + comma, b, wantB, hi);
    YieldsConcat(s, r, lo, a, wantA, q, b, ([COMMA] + comma) + wantB, hi);
  }

  /** The key and the colon of the first member. */
  lemma {:induction false} SpliceKey(s: seq<byte>, ms: Members, off: nat, r: seq<byte>, covered: bool)
    requires ms.Member? && WellFormedMembers(ms) && At(s, off, RenderMembers(ms))
    ensures var gap := ms.kws + [COLON] + ms.colon;
            Yields(s, ActualAll(if covered then [Key(ms.key, off)] else []), r, off,
                   ValueOffset(ms.key, ms.kws, ms.colon, off), (if covered then r else Quoted(ms.key)) + gap)
  {
    hide Yields, At, Quoted;
    var Member(key, kws, colon, v, comma, rest) := ms;
    var gap := kws + [COLON] + colon;
    assert RenderMembers(ms) == Quoted(key) + (gap + (Render(v) + MoreMembers(comma, rest)));
    AtSplit(s, off, Quoted(key), gap + (Render(v) + MoreMembers(comma, rest)));
    AtSplit(s, off + |key| + 2, gap, Render(v) + MoreMembers(comma, rest));
    if covered {
      YieldsReplaced(s, r, off, Quoted(key), gap);
      assert ActualAll([Key(key, off)]) == [Actual(Key(key, off))];
    } else {
      YieldsText(s, r, off, Quoted(key));
      YieldsText(s, r, off + |key| + 2, gap);
      YieldsConcat(s, r, off, [], Quoted(key), off + |key| + 2, [], gap, off + |key| + 2 + |gap|);
      var none: seq<Bounds> := [];
      assert none + none == none;
    }
  }

  lemma {:induction false} SpliceMembers(s: seq<byte>, ms: Members, off: nat, ps: seq<Path>, addr: seq<Step>,
                                         r: seq<byte>)
    requires WellFormedMembers(ms) && At(s, off, RenderMembers(ms))
    ensures Yields(s, ActualAll(SelectMembers(ms, off, ps, addr)), r, off, off + |RenderMembers(ms)|,
                   CensoredMembers(ms, ps, addr, r))
    decreases ms, 0
  {
    hide Yields, At, Render, Select, Censored, Covered, Quoted, ActualAll;
    match ms
    case NoMember => YieldsText(s, r, off, []);
    case Member(key, kws, colon, v, comma, rest) =>
      MembersText(s, off, ms);
      var covered := Covered(ps, addr + [KeyOf(Quoted(key))]);
      var k := if covered then [Key(key, off)] else [];
      var at := ValueOffset(key, kws, colon, off);
      var q := at + |Render(v)|;
      var next := q + 1 + |comma|;
      var inner := addr + [Into(Quoted(key))];
      SpliceKey(s, ms, off, r, covered);
      SpliceValue(s, v, at, ps, inner, r);
      var here, more := Select(v, at, ps, inner), SelectMembers(rest, next, ps, addr);
      var head := (if covered then r else Quoted(key)) + (kws + [COLON] + colon);
      YieldsConcat(s, r, off, ActualAll(k), head, at, ActualAll(here), Censored(v, ps, inner, r), q);
      ActualConcat(k, here);
      ActualConcat(k + here, more);
      if rest.NoMember? {
        assert k + here + more == k + here;
        assert head + Censored(v, ps, inner, r) + [] == head + Censored(v, ps, inner, r);
      } else {
        SpliceMembers(s, rest, next, ps, addr, r);
        YieldsAfterComma(s, r, off, ActualAll(k + here), head + Censored(v, ps, inner, r), q, comma,
                         ActualAll(more), CensoredMembers(rest, ps, addr, r), next + |RenderMembers(rest)|);
      }
  }

  /** On every such document, if the selected parts are tight, the result of scrub.JSON is the document with
      exactly those parts replaced. */
  lemma {:induction false} JSONCensorsDocument(ws: seq<byte>, v: Json, ps: seq<Path>, r: seq<byte>)
    requires Blank(ws) && WellFormed(v) && ColonFree(v) && KeysTight(v) && PublicPaths(ps)
    requires forall p <- Select(v, |ws|, RespellAll(ps), []) :: Tight(p)
    ensures JSONResult(ws + Render(v), ps, r) == Scrubbed(ws + Censored(v, RespellAll(ps), [], r))
  {
    hide At, Render, Censored, Select, Indices;
    var s, eff := ws + Render(v), RespellAll(ps);
    SpansAreExactIffTight(ws, v, ps);
    AtParts(ws, Render(v));
    SpliceValue(s, v, |ws|, eff, [], r);
    YieldsBefore(s, r, 0, ws, ActualAll(Select(v, |ws|, eff, [])), Censored(v, eff, [], r), |s|);
  }
}
