/** Upper and lower case in documents (pkg/scrub/scrub.go): which fields a path finds, and what becomes of that
    when the keys of a document are written in other cases. */
module ScrubCase {
  import opened Common
  import opened ScrubScanner
  import opened ScrubPaths
  import opened ScrubStream
  import opened ScrubJson
  import opened ScrubDocument

  // ----- Documents that differ in the case of their keys -----

  predicate Recased(v: Json, w: Json) {
    match v
    case Str(_, _) => w == v
    case Lit(_, _) => w == v
    case Arr(ows, es, cws) => w.Arr? && w.ows == ows && w.cws == cws && RecasedElems(es, w.elems)
    case Obj(ows, ms, cws) => w.Obj? && w.ows == ows && w.cws == cws && RecasedMembers(ms, w.members)
  }

  predicate RecasedElems(es: Elems, fs: Elems) {
    match es
    case NoElem => fs.NoElem?
    case Elem(v, comma, rest) => fs.Elem? && fs.comma == comma && Recased(v, fs.v) && RecasedElems(rest, fs.rest)
  }

  predicate RecasedMembers(ms: Members, ns: Members) {
    match ms
    case NoMember => ns.NoMember?
    case Member(key, kws, colon, v, comma, rest) =>
      && ns.Member? && SameLetters(key, ns.key) && ns.kws == kws && ns.colon == colon && ns.comma == comma
      && Recased(v, ns.v) && RecasedMembers(rest, ns.rest)
  }

  lemma {:induction false} RecasedBody(c: seq<byte>, d: seq<byte>)
    requires SameLetters(c, d) && StringBody(c)
    ensures StringBody(d)
    decreases |c|
  {
    if c != [] {
      assert SameLetter(c[0], d[0]);
      if c[0] == BACKSLASH {
        assert SameLetter(c[1], d[1]);
        RecasedBody(c[2..], d[2..]);
      } else {
        RecasedBody(c[1..], d[1..]);
      }
    }
  }

  lemma {:induction false} RecasedLead(c: seq<byte>, d: seq<byte>)
    requires SameLetters(c, d)
    ensures Lead(c) == Lead(d) && (AfterLead(c) == COLON <==> AfterLead(d) == COLON)
    ensures SameLetters(KeyText(c), KeyText(d))
  {
    RecasedBlanks(c, d);
    var n := Lead(c);
    if n < |c| { assert SameLetter(c[n], d[n]); }
    var q, r := Quoted(c), Quoted(d);
    forall i | 0 <= i < |q| ensures SameLetter(q[i], r[i]) {
      if 0 < i <= |c| { assert q[i] == c[i - 1] && r[i] == d[i - 1]; }
    }
  }

  lemma {:induction false} RecasedBlanks(c: seq<byte>, d: seq<byte>)
    requires SameLetters(c, d)
    ensures Lead(c) == Lead(d)
    decreases |c|
  {
    if c != [] {
      assert SameLetter(c[0], d[0]);
      RecasedBlanks(c[1..], d[1..]);
    }
  }

  lemma {:induction false} RecasedForm(v: Json, w: Json)
    requires Recased(v, w) && WellFormed(v)
    ensures WellFormed(w) && |Render(w)| == |Render(v)| && ColonString(w) == ColonString(v)
    ensures v.Str? || v.Lit? ==> w == v
    decreases v
  {
    match v
    case Str(_, _) =>
    case Lit(_, _) =>
    case Arr(_, es, _) => RecasedElemsForm(es, w.elems);
    case Obj(_, ms, _) => RecasedMembersForm(ms, w.members);
  }

  lemma {:induction false} RecasedElemsForm(es: Elems, fs: Elems)
    requires RecasedElems(es, fs) && WellFormedElems(es)
    ensures WellFormedElems(fs) && |RenderElems(fs)| == |RenderElems(es)|
    decreases es
  {
    match es
    case NoElem =>
    case Elem(v, _, rest) =>
      RecasedForm(v, fs.v);
      RecasedElemsForm(rest, fs.rest);
  }

  lemma {:induction false} RecasedMembersForm(ms: Members, ns: Members)
    requires RecasedMembers(ms, ns) && WellFormedMembers(ms)
    ensures WellFormedMembers(ns) && |RenderMembers(ns)| == |RenderMembers(ms)|
    ensures ms.Member? ==> NextOffset(ns, 0) == NextOffset(ms, 0)
    decreases ms
  {
    match ms
    case NoMember =>
    case Member(key, _, _, v, _, rest) =>
      RecasedBody(key, ns.key);
      RecasedForm(v, ns.v);
      RecasedMembersForm(rest, ns.rest);
  }

  // ----- Paths without regard to case -----

  predicate BlindPaths(ps: seq<Path>) {
    forall p <- ps, e <- p :: e.kind == ObjectField ==> !e.caseSensitive
  }

  predicate BlindNodes(nodes: seq<Node>) {
    forall n <- nodes :: (n.kind == ObjectField ==> !n.caseSensitive) && BlindNodes(n.children)
  }

  lemma {:induction false} InsertBlind(children: seq<Node>, p: Path)
    requires BlindNodes(children) && forall e <- p :: e.kind == ObjectField ==> !e.caseSensitive
    ensures BlindNodes(Insert(children, p))
    decreases |p|
  {
    if p != [] && !HasScrub(children) {
      var i := FindMatch(children, p[0]);
      if i == |children| { InsertBlind([], p[1..]); } else { InsertBlind(children[i].children, p[1..]); }
    }
  }

  lemma {:induction false} GroupBlind(ps: seq<Path>)
    requires BlindPaths(ps)
    ensures BlindNodes(GroupNodes(ps))
  {
    if ps != [] {
      GroupBlind(ps[..|ps| - 1]);
      InsertBlind(GroupNodes(ps[..|ps| - 1]), ps[|ps| - 1]);
    }
  }

  lemma {:induction false} AdvanceBlind(nodes: seq<Node>, s: Step)
    requires BlindNodes(nodes)
    ensures BlindNodes(Advance(nodes, s))
  {
    if nodes != [] {
      assert nodes[0] in nodes;
      AdvanceBlind(nodes[1..], s);
    }
  }

  lemma SameLettersSame(a: seq<byte>, b: seq<byte>, name: seq<byte>)
    requires SameLetters(a, b)
    ensures SameLetters(a, name) <==> SameLetters(b, name)
  {
    if SameLetters(a, name) {
      forall i | 0 <= i < |b| ensures SameLetter(b[i], name[i]) {
        assert SameLetter(a[i], b[i]) && SameLetter(a[i], name[i]);
      }
    }
    if SameLetters(b, name) {
      forall i | 0 <= i < |a| ensures SameLetter(a[i], name[i]) {
        assert SameLetter(a[i], b[i]) && SameLetter(b[i], name[i]);
      }
    }
  }

  lemma {:induction false} AdvanceSame(nodes: seq<Node>, a: seq<byte>, b: seq<byte>)
    requires BlindNodes(nodes) && SameLetters(a, b)
    ensures Advance(nodes, Into(a)) == Advance(nodes, Into(b)) && Advance(nodes, KeyOf(a)) == Advance(nodes, KeyOf(b))
  {
    hide SameLetters;
    if nodes != [] {
      assert nodes[0] in nodes;
      AdvanceSame(nodes[1..], a, b);
      SameLettersSame(a, b, nodes[0].name);
    }
  }

  /** The nodes for a key and for its value are the same for both spellings. */
  lemma {:induction false} KeyNodesSame(nodes: seq<Node>, key: seq<byte>, key': seq<byte>, prev: bool)
    requires BlindNodes(nodes) && SameLetters(key, key')
    ensures KeyFlagged(key, prev) == KeyFlagged(key', prev)
    ensures var f := KeyFlagged(key, prev);
            Here(nodes, f, KeyText(key)) == Here(nodes, f, KeyText(key'))
    ensures var f := KeyFlagged(key, prev);
            && Behind(nodes, f, KeyText(key)) == Behind(nodes, f, KeyText(key'))
            && BlindNodes(Behind(nodes, f, KeyText(key)))
  {
    hide KeyText, Advance, SameLetters;
    RecasedLead(key, key');
    AdvanceSame(nodes, KeyText(key), KeyText(key'));
    AdvanceBlind(nodes, Into(KeyText(key)));
  }

  lemma SameLength(a: seq<byte>, b: seq<byte>)
    requires SameLetters(a, b)
    ensures |a| == |b|
  {
  }

  lemma {:induction false} PickKeySame(key: seq<byte>, key': seq<byte>, off: nat, nodes: seq<Node>)
    requires SameLetters(key, key')
    ensures ReportedAll(PickKey(key, off, nodes)) == ReportedAll(PickKey(key', off, nodes))
  {
    RecasedLead(key, key');
    assert ReportedAll([]) == [];
  }

  lemma {:induction false} WholeSame(v: Json, w: Json, off: nat)
    requires Recased(v, w) && WellFormed(v)
    ensures ReportedAll([Whole(v, off)]) == ReportedAll([Whole(w, off)])
  {
    RecasedForm(v, w);
    match v
    case Arr(_, es, _) => RecasedElemsForm(es, w.elems);
    case Obj(_, ms, _) => RecasedMembersForm(ms, w.members);
    case _ =>
  }

  lemma {:induction false} PickSame(v: Json, w: Json, off: nat, nodes: seq<Node>)
    requires Recased(v, w) && WellFormed(v) && BlindNodes(nodes)
    ensures ReportedAll(Pick(v, off, nodes)) == ReportedAll(Pick(w, off, nodes))
    decreases v, 3
  {
    hide BlindNodes, Recased, WellFormed, ReportedAll, Reported;
    if ScrubNow(nodes) {
      WholeSame(v, w, off);
    } else {
      RecasedParts(v, w);
      match v
      case Str(_, _) =>
      case Lit(_, _) =>
      case Arr(ows, es, _) => PickElemsSame(es, w.elems, off + 1 + |ows|, nodes);
      case Obj(ows, ms, _) => PickMembersSame(ms, w.members, off + 1 + |ows|, nodes, false);
    }
  }

  lemma RecasedParts(v: Json, w: Json)
    requires Recased(v, w) && WellFormed(v)
    ensures match v
            case Str(_, _) => w == v
            case Lit(_, _) => w == v
            case Arr(ows, es, _) => w.Arr? && w.ows == ows && RecasedElems(es, w.elems) && WellFormedElems(es)
            case Obj(ows, ms, _) => w.Obj? && w.ows == ows && RecasedMembers(ms, w.members) && WellFormedMembers(ms)
  {
  }

  lemma {:induction false} PickElemsSame(es: Elems, fs: Elems, off: nat, nodes: seq<Node>)
    requires RecasedElems(es, fs) && WellFormedElems(es) && BlindNodes(nodes)
    ensures ReportedAll(PickElems(es, off, nodes)) == ReportedAll(PickElems(fs, off, nodes))
    decreases es, 0
  {
    hide BlindNodes, Recased, WellFormed, ReportedAll, Pick, Render;
    match es
    case NoElem =>
    case Elem(v, comma, rest) =>
      var next := off + |Render(v)| + 1 + |comma|;
      RecasedForm(v, fs.v);
      PickSame(v, fs.v, off, nodes);
      PickElemsSame(rest, fs.rest, next, nodes);
      ReportedConcat(Pick(v, off, nodes), PickElems(rest, next, nodes));
      ReportedConcat(Pick(fs.v, off, nodes), PickElems(fs.rest, next, nodes));
  }

  /** The parts of two members that differ in case, and where they lie. */
  lemma {:induction false} MembersAlign(ms: Members, ns: Members, off: nat)
    requires RecasedMembers(ms, ns) && WellFormedMembers(ms) && ms.Member?
    ensures ns.Member? && SameLetters(ms.key, ns.key) && Recased(ms.v, ns.v) && RecasedMembers(ms.rest, ns.rest)
    ensures WellFormed(ms.v) && WellFormedMembers(ms.rest) && ColonString(ms.v) == ColonString(ns.v)
    ensures ValueOffset(ms.key, ms.kws, ms.colon, off) == ValueOffset(ns.key, ns.kws, ns.colon, off)
    ensures NextOffset(ms, off) == NextOffset(ns, off) && (ms.rest.Member? <==> ns.rest.Member?)
    ensures ColonString(ms.v) ==> ValueText(ms.v) == ValueText(ns.v)
  {
    hide WellFormed, Render;
    RecasedForm(ms.v, ns.v);
    SameLength(ms.key, ns.key);
  }

  lemma {:induction false} PickMembersSame(ms: Members, ns: Members, off: nat, nodes: seq<Node>, prev: bool)
    requires RecasedMembers(ms, ns) && WellFormedMembers(ms) && BlindNodes(nodes)
    ensures ReportedAll(PickMembers(ms, off, nodes, prev)) == ReportedAll(PickMembers(ns, off, nodes, prev))
    decreases ms, 2
  {
    hide BlindNodes, RecasedMembers, WellFormedMembers, ReportedAll, Pick, PickMembers, PickAtValue, PickKey,
         SameLetters, KeyFlagged, KeyText, Here, Behind, ValueOffset, NextOffset, ColonString, Recased, WellFormed;
    if ms.Member? {
      MembersAlign(ms, ns, off);
      var at, next := ValueOffset(ms.key, ms.kws, ms.colon, off), NextOffset(ms, off);
      KeyNodesSame(nodes, ms.key, ns.key, prev);
      var f := KeyFlagged(ms.key, prev);
      var here, behind := Here(nodes, f, KeyText(ms.key)), Behind(nodes, f, KeyText(ms.key));
      PickKeySame(ms.key, ns.key, off, here);
      PickMembersParts(ms, off, nodes, prev);
      PickMembersParts(ns, off, nodes, prev);
      var k, k' := PickKey(ms.key, off, here), PickKey(ns.key, off, here);
      if ColonString(ms.v) {
        PickAtValueSame(ms, ns, off, nodes);
        ReportedConcat(k, PickAtValue(ms, off, nodes));
        ReportedConcat(k', PickAtValue(ns, off, nodes));
      } else {
        PickSame(ms.v, ns.v, at, behind);
        PickMembersSame(ms.rest, ns.rest, next, nodes, false);
        ConcatThree(k, Pick(ms.v, at, behind), PickMembers(ms.rest, next, nodes, false));
        ConcatThree(k', Pick(ns.v, at, behind), PickMembers(ns.rest, next, nodes, false));
      }
    } else {
      NoMembersSame(ms, ns, off, nodes, prev);
    }
  }

  lemma ConcatThree(a: seq<Place>, b: seq<Place>, c: seq<Place>)
    ensures ReportedAll(a + b + c) == ReportedAll(a) + ReportedAll(b) + ReportedAll(c)
  {
    hide ReportedAll;
    ReportedConcat(a + b, c);
    ReportedConcat(a, b);
  }

  lemma NoMembersSame(ms: Members, ns: Members, off: nat, nodes: seq<Node>, prev: bool)
    requires RecasedMembers(ms, ns) && ms.NoMember?
    ensures PickMembers(ms, off, nodes, prev) == PickMembers(ns, off, nodes, prev)
  {
  }

  lemma {:induction false} PickAtValueSame(ms: Members, ns: Members, off: nat, nodes: seq<Node>)
    requires RecasedMembers(ms, ns) && WellFormedMembers(ms) && BlindNodes(nodes) && ms.Member? && ns.Member?
    ensures ReportedAll(PickAtValue(ms, off, nodes)) == ReportedAll(PickAtValue(ns, off, nodes))
    decreases ms, 1
  {
    hide BlindNodes, RecasedMembers, WellFormedMembers, ReportedAll, Pick, PickMembers, PickKey, SameLetters,
         KeyFlagged, KeyText, Advance, ValueOffset, NextOffset, ColonString, Recased, WellFormed, ValueText;
    MembersAlign(ms, ns, off);
    var at, next := ValueOffset(ms.key, ms.kws, ms.colon, off), NextOffset(ms, off);
    var f, text := ColonString(ms.v), ValueText(ms.v);
    var here, behind := Here(nodes, f, text), Behind(nodes, f, text);
    assert Here(nodes, f, ValueText(ns.v)) == here && Behind(nodes, f, ValueText(ns.v)) == behind;
    AdvanceBlind(nodes, if f then KeyOf(text) else Stray);
    PickSame(ms.v, ns.v, at, here);
    var h, h' := Pick(ms.v, at, here), Pick(ns.v, at, here);
    if ms.rest.Member? {
      var k, k' := ms.rest.key, ns.rest.key;
      MembersAlign(ms.rest, ns.rest, next);
      KeyNodesSame(nodes, k, k', f);
      if !KeyFlagged(k, f) {
        PickKeySame(k, k', next, behind);
        PickAtValueSame(ms.rest, ns.rest, next, nodes);
        ConcatThree(h, PickKey(k, next, behind), PickAtValue(ms.rest, next, nodes));
        ConcatThree(h', PickKey(k', next, behind), PickAtValue(ns.rest, next, nodes));
      } else {
        PickMembersSame(ms.rest, ns.rest, next, nodes, f);
        ReportedConcat(h, PickMembers(ms.rest, next, nodes, f));
        ReportedConcat(h', PickMembers(ns.rest, next, nodes, f));
      }
    } else {
      PickMembersSame(ms.rest, ns.rest, next, nodes, f);
      ReportedConcat(h, PickMembers(ms.rest, next, nodes, f));
      ReportedConcat(h', PickMembers(ns.rest, next, nodes, f));
    }
  }

  /** Writing any keys of any document in another case does not change what paths report that do not ask for case. */
  lemma {:induction false} KeyCaseIsIgnored(ws: seq<byte>, v: Json, w: Json, ps: seq<Path>)
    requires Blank(ws) && WellFormed(v) && Recased(v, w) && BlindPaths(ps)
    ensures WellFormed(w) && Indices(ws + Render(v), ps) == Indices(ws + Render(w), ps)
  {
    hide Indices, Pick, Recased, WellFormed, BlindNodes, BlindPaths, ReportedAll, GroupNodes, Render, Blank;
    RecasedForm(v, w);
    GroupBlind(ps);
    IndicesArePicked(ws, v, ps);
    IndicesArePicked(ws, w, ps);
    PickSame(v, w, |ws|, GroupNodes(ps));
  }

  // ----- The fields a name finds -----

  /** The values of the members whose key is the given one: exactly, or in any case. */
  function MembersNamed(ms: Members, off: nat, key: seq<byte>, caseSensitive: bool): seq<Place> {
    match ms
    case NoMember => []
    case Member(k, kws, colon, v, _, rest) =>
      (if k == key || (!caseSensitive && SameLetters(k, key)) then [Whole(v, ValueOffset(k, kws, colon, off))] else [])
      + MembersNamed(rest, NextOffset(ms, off), key, caseSensitive)
  }

  lemma CoveredByOne(e: Entry, addr: seq<Step>)
    ensures Covered([[e]], addr) <==> addr != [] && EntryMatches(e, addr[0])
  {
    assert [e] in [[e]] && [e][1..] == [];
    assert PathCovers([], if addr == [] then [] else addr[1..]);
  }

  lemma {:induction false} NothingElsewhere(v: Json, off: nat, e: Entry, addr: seq<Step>)
    requires addr != [] && !EntryMatches(e, addr[0])
    ensures Select(v, off, [[e]], addr) == []
    decreases v
  {
    hide Covered, EntryMatches;
    CoveredByOne(e, addr);
    match v
    case Str(_, _) =>
    case Lit(_, _) =>
    case Arr(ows, es, _) => NothingInElems(es, off + 1 + |ows|, e, addr);
    case Obj(ows, ms, _) => NothingInMembers(ms, off + 1 + |ows|, e, addr);
  }

  lemma {:induction false} NothingInElems(es: Elems, off: nat, e: Entry, addr: seq<Step>)
    requires addr != [] && !EntryMatches(e, addr[0])
    ensures SelectElems(es, off, [[e]], addr) == []
    decreases es
  {
    hide EntryMatches, Select;
    match es
    case NoElem =>
    case Elem(v, comma, rest) =>
      NothingElsewhere(v, off, e, addr);
      NothingInElems(rest, off + |Render(v)| + 1 + |comma|, e, addr);
  }

  lemma {:induction false} NothingInMembers(ms: Members, off: nat, e: Entry, addr: seq<Step>)
    requires addr != [] && !EntryMatches(e, addr[0])
    ensures SelectMembers(ms, off, [[e]], addr) == []
    decreases ms
  {
    hide EntryMatches, Select, Covered, Render, Quoted;
    match ms
    case NoMember =>
    case Member(key, kws, colon, v, _, rest) =>
      CoveredByOne(e, addr + [KeyOf(Quoted(key))]);
      NothingElsewhere(v, ValueOffset(key, kws, colon, off), e, addr + [Into(Quoted(key))]);
      NothingInMembers(rest, NextOffset(ms, off), e, addr);
  }

  lemma QuotedSpelled(a: seq<byte>, b: seq<byte>, caseSensitive: bool)
    ensures Spelled(Quoted(a), caseSensitive, Quoted(b)) <==> b == a || (!caseSensitive && SameLetters(b, a))
  {
    var q, r := Quoted(a), Quoted(b);
    assert a == q[1..|q| - 1] && b == r[1..|r| - 1];
    if SameLetters(r, q) {
      forall i | 0 <= i < |b| ensures SameLetter(b[i], a[i]) { assert SameLetter(r[i + 1], q[i + 1]); }
    }
    if SameLetters(b, a) {
      forall i | 0 <= i < |r| ensures SameLetter(r[i], q[i]) {
        if 0 < i <= |b| { assert r[i] == b[i - 1] && q[i] == a[i - 1]; }
      }
    }
  }

  lemma {:induction false} SelectNamed(ms: Members, off: nat, key: seq<byte>, caseSensitive: bool)
    ensures SelectMembers(ms, off, [[Entry(ObjectField, Quoted(key), caseSensitive)]], [])
            == MembersNamed(ms, off, key, caseSensitive)
    decreases ms
  {
    hide Select, Covered, Render, Quoted, SameLetters, Spelled;
    var e := Entry(ObjectField, Quoted(key), caseSensitive);
    match ms
    case NoMember =>
    case Member(k, kws, colon, v, _, rest) =>
      var at, into := ValueOffset(k, kws, colon, off), [Into(Quoted(k))];
      assert [] + [KeyOf(Quoted(k))] == [KeyOf(Quoted(k))] && [] + into == into;
      CoveredByOne(e, [KeyOf(Quoted(k))]);
      CoveredByOne(e, into);
      QuotedSpelled(key, k, caseSensitive);
      if Spelled(Quoted(key), caseSensitive, Quoted(k)) {
        SelectCovered(v, at, [[e]], into);
      } else {
        NothingElsewhere(v, at, e, into);
      }
      SelectNamed(rest, NextOffset(ms, off), key, caseSensitive);
  }

  lemma SelectCovered(v: Json, off: nat, ps: seq<Path>, addr: seq<Step>)
    requires Covered(ps, addr)
    ensures Select(v, off, ps, addr) == [Whole(v, off)]
  {
  }

  /** A path of one field name reports the values stored under that name in the document's object, in document
      order: under the key as it is written, and if the name does not ask for case under the key in any case. */
  lemma {:induction false} FieldNameFinds(ws: seq<byte>, v: Json, key: seq<byte>, caseSensitive: bool)
    requires Blank(ws) && WellFormed(v) && v.Obj? && ColonFree(v) && KeysTight(v)
    ensures Indices(ws + Render(v), [[Entry(ObjectField, Quoted(key), caseSensitive)]])
            == Found(ReportedAll(MembersNamed(v.members, |ws| + 1 + |v.ows|, key, caseSensitive)))
  {
    hide Indices, Render, ReportedAll, WellFormed, ColonFree, KeysTight, SelectMembers, Covered, Quoted;
    var e := Entry(ObjectField, Quoted(key), caseSensitive);
    assert PublicPaths([[e]]) && CaseConsistent([[e]]) by { OneEntryIsConsistent(e); }
    ConsistentIndicesAreSelection(ws, v, [[e]]);
    CoveredByOne(e, []);
    SelectNamed(v.members, |ws| + 1 + |v.ows|, key, caseSensitive);
  }

  lemma OneEntryIsConsistent(e: Entry)
    requires e.kind == ObjectField
    ensures PublicPaths([[e]]) && CaseConsistent([[e]])
  {
  }

  // ----- Another case is another name only if case counts -----

  predicate IsLetter(b: byte) {
    'A' as int <= b <= 'Z' as int || 'a' as int <= b <= 'z' as int
  }

  /** A key can be written in another case if and only if it has a letter. */
  lemma {:induction false} OtherCaseIff(key: seq<byte>)
    ensures (exists k: seq<byte> :: k != key && SameLetters(k, key)) <==> exists i :: 0 <= i < |key| && IsLetter(key[i])
  {
    if i :| 0 <= i < |key| && IsLetter(key[i]) {
      var b := key[i];
      var k := key[i := if b <= 'Z' as int then b + 32 else b - 32];
      assert k[i] != key[i] && SameLetters(k, key);
    }
    if k: seq<byte> :| k != key && SameLetters(k, key) {
      var i :| 0 <= i < |key| && k[i] != key[i];
      assert SameLetter(k[i], key[i]) && IsLetter(key[i]);
    }
  }

  /** Of an object whose keys are a given one in other cases, a name that asks for case finds nothing, and one
      that does not finds every member. */
  lemma {:induction false} OtherCaseIsLost(ms: Members, off: nat, key: seq<byte>)
    requires forall k <- KeysOf(ms) :: k != key && SameLetters(k, key)
    ensures MembersNamed(ms, off, key, true) == [] && |MembersNamed(ms, off, key, false)| == |KeysOf(ms)|
    decreases ms
  {
    if ms.Member? {
      assert ms.key in KeysOf(ms) && forall k <- KeysOf(ms.rest) :: k in KeysOf(ms);
      OtherCaseIsLost(ms.rest, NextOffset(ms, off), key);
    }
  }

  function KeysOf(ms: Members): seq<seq<byte>> {
    match ms
    case NoMember => []
    case Member(key, _, _, _, _, rest) => [key] + KeysOf(rest)
  }

  /** So a document loses the field, for paths that ask for case, when all its keys of that name change case. */
  lemma {:induction false} CaseChangeLosesField(ws: seq<byte>, v: Json, key: seq<byte>)
    requires Blank(ws) && WellFormed(v) && v.Obj? && ColonFree(v) && KeysTight(v)
    requires forall k <- KeysOf(v.members) :: k != key && SameLetters(k, key)
    ensures Indices(ws + Render(v), [[Entry(ObjectField, Quoted(key), true)]]) == Found([])
    ensures Indices(ws + Render(v), [[Entry(ObjectField, Quoted(key), false)]]).Found?
    ensures |Indices(ws + Render(v), [[Entry(ObjectField, Quoted(key), false)]]).bounds| == |KeysOf(v.members)|
  {
    hide Indices, Render, WellFormed, ColonFree, KeysTight, Quoted, SameLetters, KeysOf, MembersNamed;
    FieldNameFinds(ws, v, key, true);
    FieldNameFinds(ws, v, key, false);
    OtherCaseIsLost(v.members, |ws| + 1 + |v.ows|, key);
  }
}
