/** JSON documents (RFC 8259, sections 2 to 7) as syntax trees that keep their whitespace, the places a
    list of paths selects in them, and where the scrubber will report those places. */
module ScrubJson {
  import opened Common
  import opened ScrubScanner
  import opened ScrubPaths
  import opened ScrubStream

  // ----- Documents -----

  /** Every token is followed by its own run of whitespace: `ws` after a scalar, `ows` and `cws` after an
      opening and a closing bracket, `kws`, `colon` and `comma` after a key, a colon and a comma.
      `comma` is only printed when another element follows. */
  datatype Json =
    | Str(content: seq<byte>, ws: seq<byte>)
    | Lit(text: seq<byte>, ws: seq<byte>)
    | Arr(ows: seq<byte>, elems: Elems, cws: seq<byte>)
    | Obj(ows: seq<byte>, members: Members, cws: seq<byte>)

  datatype Elems = NoElem | Elem(v: Json, comma: seq<byte>, rest: Elems)

  datatype Members =
    | NoMember
    | Member(key: seq<byte>, kws: seq<byte>, colon: seq<byte>, v: Json, comma: seq<byte>, rest: Members)

  predicate Blank(ws: seq<byte>) {
    forall b <- ws :: IsWs(b)
  }

  /** Characters between the quotes of a string: no control character, every quote escaped. */
  predicate StringBody(c: seq<byte>) {
    if c == [] then true
    else if c[0] == BACKSLASH then |c| >= 2 && c[1] >= 32 && StringBody(c[2..])
    else c[0] >= 32 && c[0] != QUOTE && StringBody(c[1..])
  }

  /** A number, true, false or null: bytes that neither delimit tokens nor are NUL. */
  predicate LiteralText(t: seq<byte>) {
    t != [] && forall b <- t :: !IsDelimiter(b) && b != NUL
  }

  predicate WellFormed(v: Json) {
    match v
    case Str(c, ws) => StringBody(c) && Blank(ws)
    case Lit(t, ws) => LiteralText(t) && Blank(ws)
    case Arr(ows, es, cws) => Blank(ows) && Blank(cws) && WellFormedElems(es)
    case Obj(ows, ms, cws) => Blank(ows) && Blank(cws) && WellFormedMembers(ms)
  }

  predicate WellFormedElems(es: Elems) {
    match es
    case NoElem => true
    case Elem(v, comma, rest) => WellFormed(v) && Blank(comma) && WellFormedElems(rest)
  }

  predicate WellFormedMembers(ms: Members) {
    match ms
    case NoMember => true
    case Member(key, kws, colon, v, comma, rest) =>
      StringBody(key) && Blank(kws) && Blank(colon) && WellFormed(v) && Blank(comma) && WellFormedMembers(rest)
  }

  function Quoted(c: seq<byte>): (r: seq<byte>)
    ensures |r| == |c| + 2
  {
    [QUOTE] + c + [QUOTE]
  }

  function Render(v: Json): (r: seq<byte>)
    decreases v, 0
  {
    match v
    case Str(c, ws) => Quoted(c) + ws
    case Lit(t, ws) => t + ws
    case Arr(ows, es, cws) => ([LBRACKET] + ows) + (RenderElems(es) + ([RBRACKET] + cws))
    case Obj(ows, ms, cws) => ([LBRACE] + ows) + (RenderMembers(ms) + ([RBRACE] + cws))
  }

  function RenderElems(es: Elems): seq<byte>
    decreases es, 0
  {
    match es
    case NoElem => []
    case Elem(v, comma, rest) => Render(v) + MoreElems(comma, rest)
  }

  function MoreElems(comma: seq<byte>, rest: Elems): seq<byte>
    decreases rest, 1
  {
    if rest.NoElem? then [] else ([COMMA] + comma) + RenderElems(rest)
  }

  function RenderMembers(ms: Members): seq<byte>
    decreases ms, 0
  {
    match ms
    case NoMember => []
    case Member(key, kws, colon, v, comma, rest) =>
      Quoted(key) + (kws + ([COLON] + (colon + (Render(v) + MoreMembers(comma, rest)))))
  }

  function MoreMembers(comma: seq<byte>, rest: Members): seq<byte>
    decreases rest, 1
  {
    if rest.NoMember? then [] else ([COMMA] + comma) + RenderMembers(rest)
  }

  // ----- Places -----

  /** How many blanks a string starts with. */
  function Lead(c: seq<byte>): (n: nat)
    ensures n <= |c|
    ensures forall k :: 0 <= k < n ==> IsWs(c[k])
    ensures n < |c| ==> !IsWs(c[n])
  {
    if c != [] && IsWs(c[0]) then 1 + Lead(c[1..]) else 0
  }

  /** The first non-blank behind the opening quote of a string. */
  function AfterLead(c: seq<byte>): byte {
    if Lead(c) < |c| then c[Lead(c)] else QUOTE
  }

  /** A string the scanner takes for a key wherever it stands in an object: its first non-blank is a colon. */
  predicate ColonString(v: Json) {
    v.Str? && AfterLead(v.content) == COLON
  }

  /** No member of an object in the document is such a string. */
  predicate ColonFree(v: Json) {
    match v
    case Str(_, _) => true
    case Lit(_, _) => true
    case Arr(_, es, _) => ColonFreeElems(es)
    case Obj(_, ms, _) => ColonFreeMembers(ms)
  }

  predicate ColonFreeElems(es: Elems) {
    match es
    case NoElem => true
    case Elem(v, _, rest) => ColonFree(v) && ColonFreeElems(rest)
  }

  predicate ColonFreeMembers(ms: Members) {
    match ms
    case NoMember => true
    case Member(_, _, _, v, _, rest) => !ColonString(v) && ColonFree(v) && ColonFreeMembers(rest)
  }

  /** No key in the document starts with a blank. */
  predicate KeysTight(v: Json) {
    match v
    case Str(_, _) => true
    case Lit(_, _) => true
    case Arr(_, es, _) => ElemKeysTight(es)
    case Obj(_, ms, _) => MemberKeysTight(ms)
  }

  predicate ElemKeysTight(es: Elems) {
    match es
    case NoElem => true
    case Elem(v, _, rest) => KeysTight(v) && ElemKeysTight(rest)
  }

  predicate MemberKeysTight(ms: Members) {
    match ms
    case NoMember => true
    case Member(key, _, _, v, _, rest) => Lead(key) == 0 && KeysTight(v) && MemberKeysTight(rest)
  }

  /** A value or a key of the document, at an offset. */
  datatype Place = Whole(v: Json, off: nat) | Key(key: seq<byte>, off: nat)

  /** Its span in the document, quotes and brackets included, surrounding whitespace not. */
  function Actual(p: Place): Bounds {
    match p
    case Key(key, off) => Bounds(off, off + |key| + 2)
    case Whole(Str(c, _), off) => Bounds(off, off + |c| + 2)
    case Whole(Lit(t, _), off) => Bounds(off, off + |t|)
    case Whole(Arr(ows, es, _), off) => Bounds(off, off + 1 + |ows| + |RenderElems(es)| + 1)
    case Whole(Obj(ows, ms, _), off) => Bounds(off, off + 1 + |ows| + |RenderMembers(ms)| + 1)
  }

  /** The span the scrubber reports: a token is placed by the byte before the next non-blank one, so blanks
      after the first byte of a token move its start, and its end too if the token has only one byte. */
  function Reported(p: Place): Bounds {
    match p
    case Key(key, off) => Bounds(off + Lead(key), off + |key| + 2)
    case Whole(Str(c, _), off) => Bounds(off + Lead(c), off + |c| + 2)
    case Whole(Lit(t, ws), off) => if |t| == 1 then Bounds(off + |ws|, off + |ws| + 1) else Bounds(off, off + |t|)
    case Whole(Arr(ows, es, cws), off) => Bounds(off + |ows|, off + 1 + |ows| + |RenderElems(es)| + |cws| + 1)
    case Whole(Obj(ows, ms, cws), off) => Bounds(off + |ows|, off + 1 + |ows| + |RenderMembers(ms)| + |cws| + 1)
  }

  /** No blank follows the first byte, nor the last one if that is a token of its own. */
  predicate Tight(p: Place) {
    match p
    case Key(key, _) => Lead(key) == 0
    case Whole(Str(c, _), _) => Lead(c) == 0
    case Whole(Lit(t, ws), _) => |t| == 1 ==> ws == []
    case Whole(Arr(ows, _, cws), _) => ows == [] && cws == []
    case Whole(Obj(ows, _, cws), _) => ows == [] && cws == []
  }

  function ReportedAll(ps: seq<Place>): (r: seq<Bounds>)
    ensures |r| == |ps|
    ensures forall i :: 0 <= i < |ps| ==> r[i] == Reported(ps[i])
  {
    if ps == [] then [] else [Reported(ps[0])] + ReportedAll(ps[1..])
  }

  function ActualAll(ps: seq<Place>): (r: seq<Bounds>)
    ensures |r| == |ps|
    ensures forall i :: 0 <= i < |ps| ==> r[i] == Actual(ps[i])
  {
    if ps == [] then [] else [Actual(ps[0])] + ActualAll(ps[1..])
  }

  lemma {:induction false} ReportedConcat(a: seq<Place>, b: seq<Place>)
    ensures ReportedAll(a + b) == ReportedAll(a) + ReportedAll(b)
  {
  }

  /** The spans of all the given places are reported exactly if and only if each of them is tight. */
  lemma {:induction false} ReportedIsActualIffTight(ps: seq<Place>)
    ensures ReportedAll(ps) == ActualAll(ps) <==> forall p <- ps :: Tight(p)
  {
    assert forall p: Place :: Reported(p) == Actual(p) <==> Tight(p);
    if ReportedAll(ps) == ActualAll(ps) {
      forall i | 0 <= i < |ps| ensures Tight(ps[i]) {
        assert ReportedAll(ps)[i] == ActualAll(ps)[i];
      }
    }
  }

  // ----- Reference selection -----

  function ValueOffset(key: seq<byte>, kws: seq<byte>, colon: seq<byte>, off: nat): nat {
    off + |key| + 2 + |kws| + 1 + |colon|
  }

  function NextOffset(ms: Members, off: nat): nat
    requires ms.Member?
  {
    ValueOffset(ms.key, ms.kws, ms.colon, off) + |Render(ms.v)| + 1 + |ms.comma|
  }

  /** The outermost parts of v covered by a path, in document order.  `addr` is the address of v: the steps
      through objects that lead to it, each by the key as it is written, quotes included; stepping into an
      array does not change the address. */
  function Select(v: Json, off: nat, ps: seq<Path>, addr: seq<Step>): seq<Place> {
    if Covered(ps, addr) then [Whole(v, off)]
    else match v
      case Str(_, _) => []
      case Lit(_, _) => []
      case Arr(ows, es, _) => SelectElems(es, off + 1 + |ows|, ps, addr)
      case Obj(ows, ms, _) => SelectMembers(ms, off + 1 + |ows|, ps, addr)
  }

  function SelectElems(es: Elems, off: nat, ps: seq<Path>, addr: seq<Step>): seq<Place> {
    match es
    case NoElem => []
    case Elem(v, comma, rest) =>
      Select(v, off, ps, addr) + SelectElems(rest, off + |Render(v)| + 1 + |comma|, ps, addr)
  }

  function SelectMembers(ms: Members, off: nat, ps: seq<Path>, addr: seq<Step>): seq<Place> {
    match ms
    case NoMember => []
    case Member(key, kws, colon, v, comma, rest) =>
      var at := ValueOffset(key, kws, colon, off);
      (if Covered(ps, addr + [KeyOf(Quoted(key))]) then [Key(key, off)] else []) +
      Select(v, at, ps, addr + [Into(Quoted(key))]) +
      SelectMembers(rest, NextOffset(ms, off), ps, addr)
  }

  // ----- What the walker picks, driven by the node tree -----

  /** What the scrubber compares with a field name: the quoted key from its reported start on. */
  function KeyText(key: seq<byte>): seq<byte> {
    Quoted(key)[Lead(key)..]
  }

  /** A key is flagged as one unless the value before it was a colon string. */
  predicate KeyFlagged(key: seq<byte>, prev: bool) {
    !prev || AfterLead(key) == COLON
  }

  /** The nodes for an item in key position, and for the value behind it. */
  function Here(nodes: seq<Node>, flagged: bool, text: seq<byte>): seq<Node> {
    Advance(nodes, if flagged then KeyOf(text) else Stray)
  }

  function Behind(nodes: seq<Node>, flagged: bool, text: seq<byte>): seq<Node> {
    if flagged then Advance(nodes, Into(text)) else []
  }

  function PickKey(key: seq<byte>, off: nat, nodes: seq<Node>): seq<Place> {
    if ScrubNow(nodes) then [Key(key, off)] else []
  }

  function Pick(v: Json, off: nat, nodes: seq<Node>): seq<Place>
    decreases v, 2
  {
    if ScrubNow(nodes) then [Whole(v, off)]
    else match v
      case Str(_, _) => []
      case Lit(_, _) => []
      case Arr(ows, es, _) => PickElems(es, off + 1 + |ows|, nodes)
      case Obj(ows, ms, _) => PickMembers(ms, off + 1 + |ows|, nodes, false)
  }

  function PickElems(es: Elems, off: nat, nodes: seq<Node>): seq<Place>
    decreases es, 0
  {
    match es
    case NoElem => []
    case Elem(v, comma, rest) => Pick(v, off, nodes) + PickElems(rest, off + |Render(v)| + 1 + |comma|, nodes)
  }

  /** The walker stands before a key; `prev` says that the value before it was a colon string. */
  function PickMembers(ms: Members, off: nat, nodes: seq<Node>, prev: bool): seq<Place>
    decreases ms, 1
  {
    match ms
    case NoMember => []
    case Member(key, kws, colon, v, comma, rest) =>
      var at := ValueOffset(key, kws, colon, off);
      var f, text := KeyFlagged(key, prev), KeyText(key);
      var here := PickKey(key, off, Here(nodes, f, text));
      if ColonString(v) then here + PickAtValue(ms, off, nodes)
      else here + Pick(v, at, Behind(nodes, f, text)) + PickMembers(rest, NextOffset(ms, off), nodes, false)
  }

  function ValueText(v: Json): seq<byte> {
    if v.Str? then KeyText(v.content) else []
  }

  /** The walker stands before the value of the first member, in key position. */
  function PickAtValue(ms: Members, off: nat, nodes: seq<Node>): seq<Place>
    requires ms.Member?
    decreases ms, 0
  {
    var Member(key, kws, colon, v, comma, rest) := ms;
    var at := ValueOffset(key, kws, colon, off);
    var next := NextOffset(ms, off);
    var f, text := ColonString(v), ValueText(v);
    var here := Pick(v, at, Here(nodes, f, text));
    if rest.Member? && !KeyFlagged(rest.key, f)
    then here + PickKey(rest.key, next, Behind(nodes, f, text)) + PickAtValue(rest, next, nodes)
    else here + PickMembers(rest, next, nodes, f)
  }

  /** The nodes left after the steps of addr cover what the paths cover beyond addr. */
  ghost predicate Follows(nodes: seq<Node>, ps: seq<Path>, addr: seq<Step>) {
    forall ext: seq<Step> :: NodesCover(nodes, ext) == Covered(ps, addr + ext)
  }

  lemma FollowsHere(nodes: seq<Node>, ps: seq<Path>, addr: seq<Step>)
    requires Follows(nodes, ps, addr)
    ensures ScrubNow(nodes) == Covered(ps, addr)
  {
    assert addr + [] == addr;
    assert NodesCover(nodes, []) == Covered(ps, addr + []);
  }

  lemma {:induction false} FollowsStep(nodes: seq<Node>, ps: seq<Path>, addr: seq<Step>, s: Step)
    requires Follows(nodes, ps, addr) && !ScrubNow(nodes)
    ensures Follows(Advance(nodes, s), ps, addr + [s])
  {
    forall ext: seq<Step>
      ensures NodesCover(Advance(nodes, s), ext) == Covered(ps, addr + [s] + ext)
    {
      assert addr + ([s] + ext) == addr + [s] + ext;
      assert ([s] + ext)[1..] == ext;
      assert NodesCover(nodes, [s] + ext) == Covered(ps, addr + ([s] + ext));
    }
  }

  lemma {:induction false} FollowsKey(nodes: seq<Node>, ps: seq<Path>, addr: seq<Step>, s: Step)
    requires Follows(nodes, ps, addr) && !ScrubNow(nodes)
    ensures ScrubNow(Advance(nodes, s)) == Covered(ps, addr + [s])
  {
    FollowsStep(nodes, ps, addr, s);
    FollowsHere(Advance(nodes, s), ps, addr + [s]);
  }

  /** On documents without colon strings and without keys that start with a blank, the walker picks exactly
      what the paths select. */
  lemma {:induction false} PickIsSelect(v: Json, off: nat, nodes: seq<Node>, ps: seq<Path>, addr: seq<Step>)
    requires Follows(nodes, ps, addr) && ColonFree(v) && KeysTight(v)
    ensures Pick(v, off, nodes) == Select(v, off, ps, addr)
    decreases v, 0
  {
    FollowsHere(nodes, ps, addr);
    if !ScrubNow(nodes) {
      match v
      case Str(_, _) =>
      case Lit(_, _) =>
      case Arr(ows, es, _) => PickElemsIsSelect(es, off + 1 + |ows|, nodes, ps, addr);
      case Obj(ows, ms, _) => PickMembersIsSelect(ms, off + 1 + |ows|, nodes, ps, addr);
    }
  }

  lemma {:induction false} PickElemsIsSelect(es: Elems, off: nat, nodes: seq<Node>, ps: seq<Path>, addr: seq<Step>)
    requires Follows(nodes, ps, addr) && ColonFreeElems(es) && ElemKeysTight(es)
    ensures PickElems(es, off, nodes) == SelectElems(es, off, ps, addr)
    decreases es, 0
  {
    hide Follows;
    match es
    case NoElem =>
    case Elem(v, comma, rest) =>
      PickIsSelect(v, off, nodes, ps, addr);
      PickElemsIsSelect(rest, off + |Render(v)| + 1 + |comma|, nodes, ps, addr);
  }

  lemma {:induction false} PickMembersIsSelect(ms: Members, off: nat, nodes: seq<Node>, ps: seq<Path>, addr: seq<Step>)
    requires Follows(nodes, ps, addr) && !ScrubNow(nodes) && ColonFreeMembers(ms) && MemberKeysTight(ms)
    ensures PickMembers(ms, off, nodes, false) == SelectMembers(ms, off, ps, addr)
    decreases ms, 0
  {
    hide Follows, Covered, ScrubNow, Advance, Render, Quoted;
    match ms
    case NoMember =>
    case Member(key, kws, colon, v, comma, rest) =>
      assert KeyText(key) == Quoted(key);
      var at, i := ValueOffset(key, kws, colon, off), Into(Quoted(key));
      FollowsStep(nodes, ps, addr, i);
      FollowsKey(nodes, ps, addr, KeyOf(Quoted(key)));
      PickIsSelect(v, at, Advance(nodes, i), ps, addr + [i]);
      PickMembersIsSelect(rest, NextOffset(ms, off), nodes, ps, addr);
  }
}
