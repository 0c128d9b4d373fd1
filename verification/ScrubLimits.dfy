/** Where scrubbing falls short of the paths: colon strings, keys that start with a blank, and MapValue
    entries. */
module ScrubLimits {
  import opened Common
  import opened ScrubScanner
  import opened ScrubPaths
  import opened ScrubStream
  import opened ScrubJson
  import opened ScrubDocument

  // ----- Some values are never reported -----

  /** The values that are: colon strings, and whatever stands behind a key that starts with a blank. */
  predicate Offends(key: seq<byte>, v: Json) {
    ColonString(v) || Lead(key) > 0
  }

  /** Where the offending values among the members of v are reported to start. */
  function Offenders(v: Json, off: nat): set<nat>
    decreases v, 0
  {
    match v
    case Str(_, _) => {}
    case Lit(_, _) => {}
    case Arr(ows, es, _) => ElemOffenders(es, off + 1 + |ows|)
    case Obj(ows, ms, _) => MemberOffenders(ms, off + 1 + |ows|)
  }

  function ElemOffenders(es: Elems, off: nat): set<nat>
    decreases es, 0
  {
    match es
    case NoElem => {}
    case Elem(v, comma, rest) => Offenders(v, off) + ElemOffenders(rest, off + |Render(v)| + 1 + |comma|)
  }

  function ValueOffenders(key: seq<byte>, v: Json, at: nat): set<nat>
    decreases v, 1
  {
    if Offends(key, v) then {Reported(Whole(v, at)).from} else Offenders(v, at)
  }

  function MemberOffenders(ms: Members, off: nat): set<nat>
    decreases ms, 0
  {
    match ms
    case NoMember => {}
    case Member(key, kws, colon, v, _, rest) =>
      ValueOffenders(key, v, ValueOffset(key, kws, colon, off)) + MemberOffenders(rest, NextOffset(ms, off))
  }

  predicate Between(xs: set<nat>, lo: nat, hi: nat) {
    forall x <- xs :: lo <= x < hi
  }

  lemma {:induction false} OffendersInside(v: Json, off: nat)
    requires WellFormed(v)
    ensures Between(Offenders(v, off), Reported(Whole(v, off)).from + 1, off + |Render(v)|)
    decreases v, 0
  {
    match v
    case Str(_, _) =>
    case Lit(_, _) =>
    case Arr(ows, es, _) => ElemOffendersInside(es, off + 1 + |ows|);
    case Obj(ows, ms, _) => MemberOffendersInside(ms, off + 1 + |ows|);
  }

  lemma {:induction false} ElemOffendersInside(es: Elems, off: nat)
    requires WellFormedElems(es)
    ensures Between(ElemOffenders(es, off), off, off + |RenderElems(es)|)
    decreases es, 0
  {
    match es
    case NoElem =>
    case Elem(v, comma, rest) =>
      ReportedInside(v, off);
      OffendersInside(v, off);
      ElemOffendersInside(rest, off + |Render(v)| + 1 + |comma|);
      ElemsLength(es);
  }

  lemma {:induction false} ElemsLength(es: Elems)
    requires es.Elem?
    ensures |RenderElems(es)| == |Render(es.v)| + if es.rest.NoElem? then 0 else 1 + |es.comma| + |RenderElems(es.rest)|
  {
  }

  lemma {:induction false} ReportedInside(v: Json, off: nat)
    requires WellFormed(v)
    ensures off <= Reported(Whole(v, off)).from < off + |Render(v)|
  {
  }

  lemma {:induction false} MemberOffendersInside(ms: Members, off: nat)
    requires WellFormedMembers(ms)
    ensures Between(MemberOffenders(ms, off), off, off + |RenderMembers(ms)|)
    decreases ms, 0
  {
    match ms
    case NoMember =>
    case Member(key, kws, colon, v, comma, rest) =>
      var at := ValueOffset(key, kws, colon, off);
      ReportedInside(v, at);
      OffendersInside(v, at);
      MemberOffendersInside(rest, NextOffset(ms, off));
  }

  predicate IsQuoted(name: seq<byte>) {
    name != [] && name[0] == QUOTE
  }

  /** No node asks for a key or for a map value, and field names are written with their quotes. */
  predicate FieldNodes(nodes: seq<Node>) {
    forall n <- nodes ::
      ((n.kind == ObjectField && IsQuoted(n.name)) || n.kind == ScrubNode) && FieldNodes(n.children)
  }

  /** The text left of a key that starts with a blank matches no quoted name, in any case. */
  lemma {:induction false} BlankKeyMatchesNothing(key: seq<byte>, name: seq<byte>, caseSensitive: bool)
    requires Lead(key) > 0 && IsQuoted(name)
    ensures !NameMatches(name, caseSensitive, KeyText(key)) && !Spelled(name, caseSensitive, KeyText(key))
  {
    var text := KeyText(key);
    assert text[0] == key[Lead(key) - 1] && IsWs(text[0]);
    assert !SameLetter(text[0], name[0]);
    NameMatchesIff(name, caseSensitive, text);
  }

  lemma {:induction false} FieldAdvance(nodes: seq<Node>, s: Step)
    requires FieldNodes(nodes)
    ensures FieldNodes(Advance(nodes, s))
    ensures !s.Into? ==> Advance(nodes, s) == []
  {
    if nodes != [] {
      assert nodes[0] in nodes;
      FieldAdvance(nodes[1..], s);
    }
  }

  lemma {:induction false} NothingBehindBlankKey(nodes: seq<Node>, key: seq<byte>)
    requires FieldNodes(nodes) && Lead(key) > 0
    ensures Advance(nodes, Into(KeyText(key))) == []
  {
    hide KeyText, Spelled;
    if nodes != [] {
      assert nodes[0] in nodes;
      if nodes[0].kind == ObjectField {
        BlankKeyMatchesNothing(key, nodes[0].name, nodes[0].caseSensitive);
      }
      NothingBehindBlankKey(nodes[1..], key);
    }
  }

  /** What is picked between lo and hi avoids the given positions. */
  predicate Avoids(ps: seq<Place>, xs: set<nat>, lo: nat, hi: nat) {
    forall p <- ps :: lo <= Reported(p).from < hi && Reported(p).from !in xs
  }

  lemma AvoidsBoth(a: seq<Place>, xs: set<nat>, lo: nat, mid: nat, b: seq<Place>, ys: set<nat>, mid': nat, hi: nat)
    requires Avoids(a, xs, lo, mid) && Between(xs, lo, mid) && mid <= mid'
    requires Avoids(b, ys, mid', hi) && Between(ys, mid', hi) && lo <= mid' && (b == [] || mid <= hi)
    requires a == [] || mid <= hi
    ensures Avoids(a + b, xs + ys, lo, hi)
  {
    forall p <- a + b ensures lo <= Reported(p).from < hi && Reported(p).from !in xs + ys {
      if p in a {} else { assert p in b; }
    }
  }

  lemma AvoidsConcat(a: seq<Place>, b: seq<Place>, xs: set<nat>, lo: nat, hi: nat)
    requires Avoids(a, xs, lo, hi) && Avoids(b, xs, lo, hi)
    ensures Avoids(a + b, xs, lo, hi)
  {
  }

  lemma AvoidsInside(ps: seq<Place>, xs: set<nat>, lo: nat, hi: nat, lo': nat, hi': nat)
    requires Avoids(ps, xs, lo, hi) && lo' <= lo && hi <= hi'
    ensures Avoids(ps, xs, lo', hi')
  {
  }

  lemma {:induction false} PickAvoids(v: Json, off: nat, nodes: seq<Node>)
    requires WellFormed(v) && FieldNodes(nodes)
    ensures Avoids(Pick(v, off, nodes), Offenders(v, off), off, off + |Render(v)|)
    decreases v, 2
  {
    hide FieldNodes, RenderElems, RenderMembers, PickElems, PickMembers, ElemOffenders, MemberOffenders;
    if ScrubNow(nodes) {
      OffendersInside(v, off);
      ReportedInside(v, off);
    } else {
      hide Avoids;
      var end := off + |Render(v)|;
      match v
      case Str(_, _) => NothingAvoids({}, off, end);
      case Lit(_, _) => NothingAvoids({}, off, end);
      case Arr(ows, es, _) =>
        var at := off + 1 + |ows|;
        PickElemsAvoid(es, at, nodes);
        AvoidsInside(PickElems(es, at, nodes), ElemOffenders(es, at), at, at + |RenderElems(es)|, off, end);
      case Obj(ows, ms, _) =>
        var at := off + 1 + |ows|;
        PickMembersAvoid(ms, at, nodes, false);
        AvoidsInside(PickMembers(ms, at, nodes, false), MemberOffenders(ms, at), at, at + |RenderMembers(ms)|,
                     off, end);
    }
  }

  lemma NothingAvoids(xs: set<nat>, lo: nat, hi: nat)
    ensures Avoids([], xs, lo, hi)
  {
  }

  lemma {:induction false} PickElemsAvoid(es: Elems, off: nat, nodes: seq<Node>)
    requires WellFormedElems(es) && FieldNodes(nodes)
    ensures Avoids(PickElems(es, off, nodes), ElemOffenders(es, off), off, off + |RenderElems(es)|)
    decreases es, 0
  {
    hide Avoids, Between, Pick, Offenders, Render, FieldNodes;
    match es
    case NoElem => NothingAvoids({}, off, off);
    case Elem(v, comma, rest) =>
      var mid := off + |Render(v)|;
      PickAvoids(v, off, nodes);
      PickElemsAvoid(rest, mid + 1 + |comma|, nodes);
      OffendersInside(v, off);
      ElemOffendersInside(rest, mid + 1 + |comma|);
      WiderFrom(Offenders(v, off), Reported(Whole(v, off)).from + 1, off, mid);
      ElemsLength(es);
      if rest.NoElem? {
        assert Pick(v, off, nodes) + [] == Pick(v, off, nodes);
        assert Offenders(v, off) + {} == Offenders(v, off);
      } else {
        AvoidsBoth(Pick(v, off, nodes), Offenders(v, off), off, mid,
                   PickElems(rest, mid + 1 + |comma|, nodes), ElemOffenders(rest, mid + 1 + |comma|), mid + 1 + |comma|,
                   off + |RenderElems(es)|);
      }
  }

  lemma WiderFrom(xs: set<nat>, lo: nat, lo': nat, hi: nat)
    requires Between(xs, lo, hi) && lo' <= lo
    ensures Between(xs, lo', hi)
  {
  }

  /** Picks from the first value of ms and from its later members. */
  lemma {:induction false} FirstAndRestAvoid(ms: Members, off: nat, first: seq<Place>, more: seq<Place>)
    requires ms.Member? && WellFormedMembers(ms)
    requires var at := ValueOffset(ms.key, ms.kws, ms.colon, off);
             Avoids(first, ValueOffenders(ms.key, ms.v, at), at, at + |Render(ms.v)|)
    requires var next := NextOffset(ms, off);
             Avoids(more, MemberOffenders(ms.rest, next), next, next + |RenderMembers(ms.rest)|)
    requires ms.rest.NoMember? ==> more == []
    ensures Avoids(first + more, MemberOffenders(ms, off), off, off + |RenderMembers(ms)|)
  {
    var at, next := ValueOffset(ms.key, ms.kws, ms.colon, off), NextOffset(ms, off);
    var end := at + |Render(ms.v)|;
    ReportedInside(ms.v, at);
    OffendersInside(ms.v, at);
    MemberOffendersInside(ms.rest, next);
    assert Between(ValueOffenders(ms.key, ms.v, at), at, end);
    if ms.rest.NoMember? {
      assert first + more == first;
    } else {
      AvoidsBoth(first, ValueOffenders(ms.key, ms.v, at), at, end,
                 more, MemberOffenders(ms.rest, next), next, next + |RenderMembers(ms.rest)|);
    }
  }

  lemma {:induction false} PickKeyAvoids(ms: Members, off: nat, nodes: seq<Node>)
    requires ms.Member? && WellFormedMembers(ms)
    ensures Avoids(PickKey(ms.key, off, nodes), MemberOffenders(ms, off), off, off + |RenderMembers(ms)|)
  {
    var at := ValueOffset(ms.key, ms.kws, ms.colon, off);
    ReportedInside(ms.v, at);
    OffendersInside(ms.v, at);
    MemberOffendersInside(ms.rest, NextOffset(ms, off));
  }

  lemma {:induction false} PickMembersAvoid(ms: Members, off: nat, nodes: seq<Node>, prev: bool)
    requires WellFormedMembers(ms) && FieldNodes(nodes)
    ensures Avoids(PickMembers(ms, off, nodes, prev), MemberOffenders(ms, off), off, off + |RenderMembers(ms)|)
    decreases ms, 2
  {
    if ms.Member? { PickAtKeyAvoids(ms, off, nodes, prev); }
  }

  lemma {:induction false} PickAtKeyAvoids(ms: Members, off: nat, nodes: seq<Node>, prev: bool)
    requires ms.Member? && WellFormedMembers(ms) && FieldNodes(nodes)
    ensures Avoids(PickMembers(ms, off, nodes, prev), MemberOffenders(ms, off), off, off + |RenderMembers(ms)|)
    decreases ms, 1
  {
    hide Avoids, Pick, PickMembers, PickAtValue, Offenders, MemberOffenders, Render, RenderMembers, FieldNodes,
         WellFormed, ValueOffset, NextOffset, KeyText, KeyFlagged, Advance, ColonString;
    var at, f, text := ValueOffset(ms.key, ms.kws, ms.colon, off), KeyFlagged(ms.key, prev), KeyText(ms.key);
    FieldAdvance(nodes, if f then KeyOf(text) else Stray);
    PickMembersParts(ms, off, nodes, prev);
    if ColonString(ms.v) {
      PickAtValueAvoids(ms, off, nodes);
      assert [] + PickAtValue(ms, off, nodes) == PickAtValue(ms, off, nodes);
    } else {
      FieldAdvance(nodes, Into(text));
      NoFieldNodes();
      if Lead(ms.key) > 0 { NothingBehindBlankKey(nodes, ms.key); }
      PickBehindAvoids(ms, off, nodes, Behind(nodes, f, text));
      assert [] + Pick(ms.v, at, Behind(nodes, f, text)) == Pick(ms.v, at, Behind(nodes, f, text));
    }
  }

  lemma {:induction false} PickBehindAvoids(ms: Members, off: nat, nodes: seq<Node>, behind: seq<Node>)
    requires ms.Member? && WellFormedMembers(ms) && FieldNodes(nodes) && FieldNodes(behind)
    requires !ColonString(ms.v) && (Lead(ms.key) > 0 ==> behind == [])
    ensures Avoids(Pick(ms.v, ValueOffset(ms.key, ms.kws, ms.colon, off), behind)
                     + PickMembers(ms.rest, NextOffset(ms, off), nodes, false),
                   MemberOffenders(ms, off), off, off + |RenderMembers(ms)|)
    decreases ms, 0
  {
    hide Avoids, Pick, PickMembers, Offenders, MemberOffenders, Render, RenderMembers, FieldNodes,
         WellFormed, ValueOffset, NextOffset, ColonString;
    var at, next := ValueOffset(ms.key, ms.kws, ms.colon, off), NextOffset(ms, off);
    PickAvoids(ms.v, at, behind);
    ValueAvoids(ms, at, behind);
    PickMembersAvoid(ms.rest, next, nodes, false);
    NoMembersPicked(ms.rest, next, nodes, false);
    FirstAndRestAvoid(ms, off, Pick(ms.v, at, behind), PickMembers(ms.rest, next, nodes, false));
  }

  lemma {:induction false} ValueAvoids(ms: Members, at: nat, nodes: seq<Node>)
    requires ms.Member? && !ColonString(ms.v) && (Lead(ms.key) > 0 ==> nodes == [])
    requires Avoids(Pick(ms.v, at, nodes), Offenders(ms.v, at), at, at + |Render(ms.v)|)
    ensures Avoids(Pick(ms.v, at, nodes), ValueOffenders(ms.key, ms.v, at), at, at + |Render(ms.v)|)
  {
    hide Pick;
    PickNothing(ms.v, at);
  }

  lemma {:induction false} NoMembersPicked(ms: Members, off: nat, nodes: seq<Node>, prev: bool)
    ensures ms.NoMember? ==> PickMembers(ms, off, nodes, prev) == []
  {
  }

  lemma NoFieldNodes()
    ensures FieldNodes([])
  {
  }

  lemma {:induction false} PickAtValueAvoids(ms: Members, off: nat, nodes: seq<Node>)
    requires ms.Member? && WellFormedMembers(ms) && FieldNodes(nodes)
    ensures Avoids(PickAtValue(ms, off, nodes), MemberOffenders(ms, off), off, off + |RenderMembers(ms)|)
    decreases ms, 0
  {
    hide Pick, PickMembers, Offenders, MemberOffenders, Render, RenderMembers, FieldNodes, WellFormed, PickKey, Avoids,
         Advance, ValueText, ValueOffset, NextOffset, KeyFlagged;
    var at, next, rest := ValueOffset(ms.key, ms.kws, ms.colon, off), NextOffset(ms, off), ms.rest;
    var f, text := ColonString(ms.v), ValueText(ms.v);
    FieldAdvance(nodes, if f then KeyOf(text) else Stray);
    PickNothing(ms.v, at);
    var more := if rest.Member? && !KeyFlagged(rest.key, f)
                then PickKey(rest.key, next, Behind(nodes, f, text)) + PickAtValue(rest, next, nodes)
                else PickMembers(rest, next, nodes, f);
    if rest.Member? && !KeyFlagged(rest.key, f) {
      PickKeyAvoids(rest, next, Behind(nodes, f, text));
      PickAtValueAvoids(rest, next, nodes);
      AvoidsConcat(PickKey(rest.key, next, Behind(nodes, f, text)), PickAtValue(rest, next, nodes),
                   MemberOffenders(rest, next), next, next + |RenderMembers(rest)|);
    } else {
      PickMembersAvoid(rest, next, nodes, f);
    }
    NoMembersPicked(rest, next, nodes, f);
    NothingAvoids(ValueOffenders(ms.key, ms.v, at), at, at + |Render(ms.v)|);
    FirstAndRestAvoid(ms, off, [], more);
    assert PickAtValue(ms, off, nodes) == [] + more;
  }

  // ----- But some path selects one -----

  predicate FieldPath(p: Path) {
    p != [] && forall e <- p :: e.kind == ObjectField && IsQuoted(e.name)
  }

  lemma {:induction false} CoveredOne(p: Path, addr: seq<Step>)
    ensures Covered([p], addr) == PathCovers(p, addr)
  {
    assert p in [p];
  }

  lemma CoveredShift(e: Entry, p: Path, s: Step, addr: seq<Step>)
    requires EntryMatches(e, s)
    ensures Covered([[e] + p], [s] + addr) == Covered([p], addr)
  {
    CoveredOne([e] + p, [s] + addr);
    CoveredOne(p, addr);
    assert ([e] + p)[1..] == p && ([s] + addr)[1..] == addr;
  }

  /** Below a matching step, a path selects what its tail selects. */
  lemma {:induction false} SelectShift(v: Json, off: nat, e: Entry, p: Path, s: Step, addr: seq<Step>)
    requires EntryMatches(e, s)
    ensures Select(v, off, [[e] + p], [s] + addr) == Select(v, off, [p], addr)
    decreases v, 0
  {
    CoveredShift(e, p, s, addr);
    match v
    case Str(_, _) =>
    case Lit(_, _) =>
    case Arr(ows, es, _) => SelectElemsShift(es, off + 1 + |ows|, e, p, s, addr);
    case Obj(ows, ms, _) => SelectMembersShift(ms, off + 1 + |ows|, e, p, s, addr);
  }

  lemma {:induction false} SelectElemsShift(es: Elems, off: nat, e: Entry, p: Path, s: Step, addr: seq<Step>)
    requires EntryMatches(e, s)
    ensures SelectElems(es, off, [[e] + p], [s] + addr) == SelectElems(es, off, [p], addr)
    decreases es, 0
  {
    match es
    case NoElem =>
    case Elem(v, comma, rest) =>
      SelectShift(v, off, e, p, s, addr);
      SelectElemsShift(rest, off + |Render(v)| + 1 + |comma|, e, p, s, addr);
  }

  lemma {:induction false} SelectMembersShift(ms: Members, off: nat, e: Entry, p: Path, s: Step, addr: seq<Step>)
    requires EntryMatches(e, s)
    ensures SelectMembers(ms, off, [[e] + p], [s] + addr) == SelectMembers(ms, off, [p], addr)
    decreases ms, 0
  {
    hide Covered, Select, Render, Quoted;
    match ms
    case NoMember =>
    case Member(key, kws, colon, v, comma, rest) =>
      var k, i := KeyOf(Quoted(key)), Into(Quoted(key));
      assert [s] + addr + [k] == [s] + (addr + [k]);
      assert [s] + addr + [i] == [s] + (addr + [i]);
      CoveredShift(e, p, s, addr + [k]);
      SelectShift(v, ValueOffset(key, kws, colon, off), e, p, s, addr + [i]);
      SelectMembersShift(rest, NextOffset(ms, off), e, p, s, addr);
  }

  lemma {:induction false} SelectOffender(v: Json, off: nat) returns (p: Path, place: Place)
    requires !ColonFree(v) || !KeysTight(v)
    ensures FieldPath(p) && place in Select(v, off, [p], []) && Reported(place).from in Offenders(v, off)
    decreases v, 0
  {
    match v
    case Arr(ows, es, _) =>
      p, place := SelectElemOffender(es, off + 1 + |ows|);
      CoveredOne(p, []);
    case Obj(ows, ms, _) =>
      p, place := SelectMemberOffender(ms, off + 1 + |ows|);
      CoveredOne(p, []);
  }

  lemma {:induction false} SelectElemOffender(es: Elems, off: nat) returns (p: Path, place: Place)
    requires !ColonFreeElems(es) || !ElemKeysTight(es)
    ensures FieldPath(p) && place in SelectElems(es, off, [p], []) && Reported(place).from in ElemOffenders(es, off)
    decreases es, 0
  {
    var Elem(v, comma, rest) := es;
    if ColonFree(v) && KeysTight(v) {
      p, place := SelectElemOffender(rest, off + |Render(v)| + 1 + |comma|);
    } else {
      p, place := SelectOffender(v, off);
    }
  }

  lemma {:induction false} SelectMemberOffender(ms: Members, off: nat) returns (p: Path, place: Place)
    requires !ColonFreeMembers(ms) || !MemberKeysTight(ms)
    ensures FieldPath(p) && place in SelectMembers(ms, off, [p], []) && Reported(place).from in MemberOffenders(ms, off)
    decreases ms, 0
  {
    var Member(key, kws, colon, v, comma, rest) := ms;
    var at := ValueOffset(key, kws, colon, off);
    var e := Entry(ObjectField, Quoted(key), true);
    if Offends(key, v) {
      p, place := [e], Whole(v, at);
      CoveredOne([], []);
      InSelectMembers(ms, off, e, []);
      assert [e] + [] == [e];
      assert place in Select(v, at, [[]], []);
    } else if !ColonFree(v) || !KeysTight(v) {
      var q;
      q, place := SelectOffender(v, at);
      p := [e] + q;
      InSelectMembers(ms, off, e, q);
    } else {
      p, place := SelectMemberOffender(rest, NextOffset(ms, off));
    }
  }

  /** A path that names the first key selects in the members what its tail selects in the first value. */
  lemma {:induction false} InSelectMembers(ms: Members, off: nat, e: Entry, q: Path)
    requires ms.Member? && e == Entry(ObjectField, Quoted(ms.key), true)
    ensures forall place <- Select(ms.v, ValueOffset(ms.key, ms.kws, ms.colon, off), [q], []) ::
              place in SelectMembers(ms, off, [[e] + q], [])
  {
    hide Select, Covered, Render, Quoted;
    var s := Into(Quoted(ms.key));
    var at := ValueOffset(ms.key, ms.kws, ms.colon, off);
    SelectShift(ms.v, at, e, q, s, []);
    assert [s] + [] == [s] && [] + [s] == [s];
    var k := if Covered([[e] + q], [] + [KeyOf(Quoted(ms.key))]) then [Key(ms.key, off)] else [];
    var here, more := Select(ms.v, at, [[e] + q], [s]), SelectMembers(ms.rest, NextOffset(ms, off), [[e] + q], []);
    assert SelectMembers(ms, off, [[e] + q], []) == k + here + more;
    forall place <- here ensures place in k + here + more {}
  }

  lemma {:induction false} InsertFields(p: Path)
    requires forall e <- p :: e.kind == ObjectField && IsQuoted(e.name)
    ensures FieldNodes(Insert([], p))
  {
    if p != [] {
      assert p[0] in p;
      InsertFields(p[1..]);
    }
  }

  /** For a well-formed document, the reported bounds are the selection for every list of paths if and only
      if no object of the document holds a colon string or a key that starts with a blank. */
  lemma {:induction false} SelectionForAllPathsIff(ws: seq<byte>, v: Json)
    requires Blank(ws) && WellFormed(v)
    ensures (forall ps | PublicPaths(ps) ::
               Indices(ws + Render(v), ps) == Found(ReportedAll(Select(v, |ws|, RespellAll(ps), []))))
       <==> ColonFree(v) && KeysTight(v)
  {
    if ColonFree(v) && KeysTight(v) {
      forall ps | PublicPaths(ps)
        ensures Indices(ws + Render(v), ps) == Found(ReportedAll(Select(v, |ws|, RespellAll(ps), [])))
      {
        IndicesAreSelection(ws, v, ps);
      }
    } else {
      var ps := MissedOffender(ws, v);
    }
  }

  /** A list of paths for which a document with a colon string or such a key is scrubbed wrongly. */
  lemma MissedOffender(ws: seq<byte>, v: Json) returns (ps: seq<Path>)
    requires Blank(ws) && WellFormed(v) && (!ColonFree(v) || !KeysTight(v))
    ensures PublicPaths(ps)
    ensures Indices(ws + Render(v), ps) != Found(ReportedAll(Select(v, |ws|, RespellAll(ps), [])))
  {
    hide Select, Pick, Offenders, FieldNodes, Avoids, Reported, Render, Indices, ColonFree, KeysTight, WellFormed;
    var p, place := SelectOffender(v, |ws|);
    ps := [p];
    assert GroupNodes([]) == [] && [p][..0] == [];
    assert RespellAll(ps) == [] + [Respell([], p)] == [p];
    assert GroupNodes(ps) == Insert([], p);
    InsertFields(p);
    IndicesArePicked(ws, v, ps);
    PickAvoids(v, |ws|, GroupNodes(ps));
    NotReported(Select(v, |ws|, [p], []), Pick(v, |ws|, GroupNodes(ps)), place,
                Offenders(v, |ws|), |ws|, |ws| + |Render(v)|);
  }

  lemma {:induction false} NotReported(want: seq<Place>, got: seq<Place>, place: Place, xs: set<nat>, lo: nat, hi: nat)
    requires place in want && Reported(place).from in xs && Avoids(got, xs, lo, hi)
    ensures ReportedAll(want) != ReportedAll(got)
  {
    hide Reported;
    var i :| 0 <= i < |want| && want[i] == place;
    if |got| == |want| {
      assert got[i] in got;
      assert ReportedAll(got)[i] != ReportedAll(want)[i];
    }
  }

  /** An object with one member, reached by a path that names its key: selected, and reported if and only if
      the key does not start with a blank. */
  lemma {:induction false} NamedMemberIsFoundIff(key: seq<byte>, text: seq<byte>)
    requires StringBody(key) && LiteralText(text)
    ensures var v := Obj([], Member(key, [], [], Lit(text, []), [], NoMember), []);
            var p := [Entry(ObjectField, Quoted(key), true)];
            var place := Whole(v.members.v, |key| + 4);
            WellFormed(v) && ColonFree(v) && Select(v, 0, [p], []) == [place] &&
            Indices(Render(v), [p]) == Found(if Lead(key) == 0 then [Reported(place)] else [])
  {
    hide Quoted, Render, Reported, Select, Pick, Indices, GroupNodes;
    var lit := Lit(text, []);
    var ms := Member(key, [], [], lit, [], NoMember);
    var v, at := Obj([], ms, []), |key| + 4;
    var e := Entry(ObjectField, Quoted(key), true);
    assert Blank([]);
    assert WellFormed(lit);
    assert WellFormedMembers(ms);
    assert ColonFreeMembers(ms);
    SelectOneMember(ms, e);
    assert [] + Render(v) == Render(v);
    IndicesArePicked([], v, [[e]]);
    OneEntryTree(e);
    PickOneMember(ms, Node(ObjectField, Quoted(key), true, [Scrub]));
    assert ReportedAll([]) == [];
    assert ReportedAll([Whole(lit, at)]) == [Reported(Whole(lit, at))];
  }

  lemma OneEntryTree(e: Entry)
    ensures GroupNodes([[e]]) == [Node(e.kind, e.name, e.caseSensitive, [Scrub])]
  {
    assert [[e]][..0] == [] && [e][1..] == [];
    assert Insert([], []) == [Scrub];
    assert Insert([], [e]) == [] + [Node(e.kind, e.name, e.caseSensitive, [Scrub])];
  }

  lemma {:induction false} SelectOneMember(ms: Members, e: Entry)
    requires ms.Member? && ms.kws == ms.colon == [] && ms.v.Lit? && ms.rest.NoMember?
    requires e == Entry(ObjectField, Quoted(ms.key), true)
    ensures Select(Obj([], ms, []), 0, [[e]], []) == [Whole(ms.v, |ms.key| + 4)]
  {
    hide Covered;
    var k, i := KeyOf(Quoted(ms.key)), Into(Quoted(ms.key));
    CoveredOne([e], []);
    CoveredOne([e], [k]);
    CoveredOne([e], [i]);
    assert [e][1..] == [] && [] + [k] == [k] && [] + [i] == [i];
    assert SelectMembers(ms, 1, [[e]], []) == [] + [Whole(ms.v, |ms.key| + 4)] + [];
  }

  lemma {:induction false} PickOneMember(ms: Members, n: Node)
    requires ms.Member? && ms.kws == ms.colon == [] && ms.v.Lit? && ms.rest.NoMember?
    requires n == Node(ObjectField, Quoted(ms.key), true, [Scrub])
    ensures Pick(Obj([], ms, []), 0, [n]) == if Lead(ms.key) == 0 then [Whole(ms.v, |ms.key| + 4)] else []
  {
    var text := KeyText(ms.key);
    assert text == Quoted(ms.key) <==> Lead(ms.key) == 0;
    assert Advance([n], KeyOf(text)) == [];
    assert Advance([n], Into(text)) == if text == Quoted(ms.key) then [Scrub] else [];
    assert ScrubNow([Scrub]) by { assert Scrub in [Scrub]; }
    PickOneMemberParts(ms, n, Advance([n], KeyOf(text)), Advance([n], Into(text)));
  }

  lemma {:induction false} PickOneMemberParts(ms: Members, n: Node, k: seq<Node>, i: seq<Node>)
    requires ms.Member? && ms.v.Lit? && ms.rest.NoMember? && ms.kws == ms.colon == [] && n.kind == ObjectField
    requires k == Advance([n], KeyOf(KeyText(ms.key))) == [] && i == Advance([n], Into(KeyText(ms.key)))
    requires i == [] || i == [Scrub]
    ensures Pick(Obj([], ms, []), 0, [n]) == if i == [Scrub] then [Whole(ms.v, |ms.key| + 4)] else []
  {
    hide Advance, KeyText, Lead;
    if i == [Scrub] { assert Scrub in i; } else { PickNothing(ms.v, |ms.key| + 4); }
    PickMembersParts(ms, 1, [n], false);
    assert !ScrubNow([n]) && PickMembers(NoMember, NextOffset(ms, 1), [n], false) == [];
  }

  /** The field named " a" of {" a":1} is not scrubbed. */
  lemma BlankKeyIsMissed()
    ensures var name := [QUOTE, 32, 97, QUOTE];
            Indices([LBRACE] + name + [COLON, 49, RBRACE], [[Entry(ObjectField, name, true)]]) == Found([])
  {
    hide Indices, Select, WellFormed, ColonFree, Reported;
    var key: seq<byte> := [32, 97];
    var v := Obj([], Member(key, [], [], Lit([49], []), [], NoMember), []);
    assert key[1..] == [97] && [97][1..] == [];
    assert StringBody([97]) && StringBody(key);
    NamedMemberIsFoundIff(key, [49]);
    assert Quoted(key) == [QUOTE, 32, 97, QUOTE];
    OneMemberText(key, 49);
  }

  lemma {:induction false} OneMemberText(key: seq<byte>, digit: byte)
    ensures Render(Obj([], Member(key, [], [], Lit([digit], []), [], NoMember), []))
            == [LBRACE] + Quoted(key) + [COLON, digit, RBRACE]
  {
    hide Quoted;
    var lit := Lit([digit], []);
    assert Render(lit) == [digit] + [];
    assert RenderMembers(Member(key, [], [], lit, [], NoMember)) == Quoted(key) + [COLON, digit];
  }

  // ----- MapValue entries match nothing -----

  predicate HasMapValue(p: Path) {
    exists e <- p :: e.kind == MapValue
  }

  lemma {:induction false} MapValueCoversNothing(p: Path, addr: seq<Step>)
    requires HasMapValue(p) && Stray !in addr
    ensures !PathCovers(p, addr)
  {
    if p != [] && addr != [] && EntryMatches(p[0], addr[0]) {
      assert addr[0] in addr;
      assert HasMapValue(p[1..]) by {
        var e :| e in p && e.kind == MapValue;
        assert e in p[1..];
      }
      MapValueCoversNothing(p[1..], addr[1..]);
    }
  }

  lemma {:induction false} RespellKeepsKinds(children: seq<Node>, p: Path)
    ensures forall i :: 0 <= i < |p| ==> Respell(children, p)[i].kind == p[i].kind
    decreases |p|
  {
    if p != [] && !HasScrub(children) && FindMatch(children, p[0]) < |children| {
      RespellKeepsKinds(children[FindMatch(children, p[0])].children, p[1..]);
    }
  }

  lemma {:induction false} RespellAllKeepsMapValues(ps: seq<Path>)
    requires forall p <- ps :: HasMapValue(p)
    ensures forall p <- RespellAll(ps) :: HasMapValue(p)
  {
    if ps != [] {
      var before, p := ps[..|ps| - 1], ps[|ps| - 1];
      RespellAllKeepsMapValues(before);
      RespellKeepsKinds(GroupNodes(before), p);
      assert HasMapValue(p);
      var e :| e in p && e.kind == MapValue;
      var i :| 0 <= i < |p| && p[i] == e;
      assert Respell(GroupNodes(before), p)[i].kind == MapValue;
    }
  }

  lemma CoversNothing(ps: seq<Path>, addr: seq<Step>)
    requires (forall p <- ps :: HasMapValue(p)) && Stray !in addr
    ensures !Covered(ps, addr)
  {
    forall p <- ps ensures !PathCovers(p, addr) { MapValueCoversNothing(p, addr); }
  }

  /** Without a stray step, no address is covered. */
  ghost predicate Idle(nodes: seq<Node>) {
    forall addr: seq<Step> :: Stray !in addr ==> !NodesCover(nodes, addr)
  }

  lemma {:induction false} IdleStep(nodes: seq<Node>, s: Step)
    requires Idle(nodes) && s != Stray
    ensures !ScrubNow(nodes) && Idle(Advance(nodes, s))
  {
    assert !NodesCover(nodes, []);
    forall addr: seq<Step> | Stray !in addr ensures !NodesCover(Advance(nodes, s), addr) {
      assert ([s] + addr)[1..] == addr;
      assert !NodesCover(nodes, [s] + addr);
    }
  }

  lemma {:induction false} PicksNothing(v: Json, off: nat, nodes: seq<Node>)
    requires Idle(nodes) && ColonFree(v)
    ensures Pick(v, off, nodes) == []
    decreases v, 0
  {
    IdleStep(nodes, KeyOf([]));
    match v
    case Str(_, _) =>
    case Lit(_, _) =>
    case Arr(ows, es, _) => PicksNoElem(es, off + 1 + |ows|, nodes);
    case Obj(ows, ms, _) => PicksNoMember(ms, off + 1 + |ows|, nodes);
  }

  lemma {:induction false} PicksNoElem(es: Elems, off: nat, nodes: seq<Node>)
    requires Idle(nodes) && ColonFreeElems(es)
    ensures PickElems(es, off, nodes) == []
    decreases es, 0
  {
    hide Idle;
    match es
    case NoElem =>
    case Elem(v, comma, rest) =>
      PicksNothing(v, off, nodes);
      PicksNoElem(rest, off + |Render(v)| + 1 + |comma|, nodes);
  }

  lemma {:induction false} PicksNoMember(ms: Members, off: nat, nodes: seq<Node>)
    requires Idle(nodes) && ColonFreeMembers(ms)
    ensures PickMembers(ms, off, nodes, false) == []
    decreases ms, 0
  {
    hide Idle, KeyText, Render, Advance;
    match ms
    case NoMember =>
    case Member(key, kws, colon, v, comma, rest) =>
      var k, i := KeyOf(KeyText(key)), Into(KeyText(key));
      IdleStep(nodes, k);
      IdleStep(Advance(nodes, k), k);
      IdleStep(nodes, i);
      PicksNothing(v, ValueOffset(key, kws, colon, off), Advance(nodes, i));
      PicksNoMember(rest, NextOffset(ms, off), nodes);
  }

  /** A path with a MapValue entry never selects anything in a document without colon strings. */
  lemma {:induction false} MapValuePathsReportNothing(ws: seq<byte>, v: Json, ps: seq<Path>)
    requires Blank(ws) && WellFormed(v) && ColonFree(v) && PublicPaths(ps) && forall p <- ps :: HasMapValue(p)
    ensures Indices(ws + Render(v), ps) == Found([])
  {
    IndicesArePicked(ws, v, ps);
    RespellAllKeepsMapValues(ps);
    forall addr: seq<Step> | Stray !in addr ensures !NodesCover(GroupNodes(ps), addr) {
      TreeCovers(ps, addr);
      CoversNothing(RespellAll(ps), addr);
    }
    PicksNothing(v, |ws|, GroupNodes(ps));
  }
}
