/** Scrub paths and the node tree that groupNodes builds from them (pkg/scrub/scrub.go). */
module ScrubPaths {
  import opened Common

  datatype Kind = ObjectField | MapKey | MapValue | ScrubNode

  datatype Entry = Entry(kind: Kind, name: seq<byte>, caseSensitive: bool)

  type Path = seq<Entry>

  datatype Node = Node(kind: Kind, name: seq<byte>, caseSensitive: bool, children: seq<Node>)

  const Scrub := Node(ScrubNode, [], false, [])

  /** A public path has no entry of the internal kind. */
  predicate PublicPath(p: Path) {
    forall e <- p :: e.kind != ScrubNode
  }

  predicate PublicPaths(ps: seq<Path>) {
    forall p <- ps :: PublicPath(p)
  }

  // ----- Name comparison -----

  function LowerByte(b: byte): byte {
    if 65 <= b <= 90 then b + 32 else b
  }

  function Lower(s: seq<byte>): (r: seq<byte>)
    ensures |r| == |s|
    ensures forall i :: 0 <= i < |s| ==> r[i] == LowerByte(s[i])
  {
    if s == [] then [] else [LowerByte(s[0])] + Lower(s[1..])
  }

  predicate EqualFold(a: seq<byte>, b: seq<byte>) {
    Lower(a) == Lower(b)
  }

  predicate NameMatches(name: seq<byte>, caseSensitive: bool, text: seq<byte>) {
    if caseSensitive then text == name else EqualFold(text, name)
  }

  /** The same byte, or the same ASCII letter in its two cases. */
  predicate SameLetter(a: byte, b: byte) {
    || a == b
    || ('A' as int <= a <= 'Z' as int && b - a == 'a' as int - 'A' as int)
    || ('a' as int <= a <= 'z' as int && a - b == 'a' as int - 'A' as int)
  }

  predicate SameLetters(a: seq<byte>, b: seq<byte>) {
    |a| == |b| && forall i :: 0 <= i < |a| ==> SameLetter(a[i], b[i])
  }

  /** What it means for a text to bear a name. */
  predicate Spelled(name: seq<byte>, caseSensitive: bool, text: seq<byte>) {
    if caseSensitive then text == name else SameLetters(text, name)
  }

  lemma EqualFoldIff(a: seq<byte>, b: seq<byte>)
    ensures EqualFold(a, b) <==> SameLetters(a, b)
  {
    if EqualFold(a, b) {
      forall i | 0 <= i < |a| ensures SameLetter(a[i], b[i]) { assert Lower(a)[i] == Lower(b)[i]; }
    }
    if SameLetters(a, b) {
      forall i | 0 <= i < |a| ensures Lower(a)[i] == Lower(b)[i] { assert SameLetter(a[i], b[i]); }
    }
  }

  /** Names are compared byte by byte, or letter by letter whatever the case. */
  lemma NameMatchesIff(name: seq<byte>, caseSensitive: bool, text: seq<byte>)
    ensures NameMatches(name, caseSensitive, text) <==> Spelled(name, caseSensitive, text)
  {
    EqualFoldIff(text, name);
  }

  // ----- What a list of paths means -----

  /** One step from an object towards its parts: to the value stored under a key, to the key itself, or to
      an item that stands where a key should but is not taken for one. */
  datatype Step = Into(key: seq<byte>) | KeyOf(key: seq<byte>) | Stray

  predicate EntryMatches(e: Entry, s: Step) {
    match s
    case Into(key) => e.kind == ObjectField && Spelled(e.name, e.caseSensitive, key)
    case KeyOf(_) => e.kind == MapKey
    case Stray => e.kind == MapValue
  }

  /** The path leads to the given address or to something around it. */
  predicate PathCovers(p: Path, addr: seq<Step>) {
    p == [] || (addr != [] && EntryMatches(p[0], addr[0]) && PathCovers(p[1..], addr[1..]))
  }

  predicate Covered(ps: seq<Path>, addr: seq<Step>) {
    exists p <- ps :: PathCovers(p, addr)
  }

  // ----- The node tree -----

  predicate ScrubNow(nodes: seq<Node>) {
    exists n <- nodes :: n.kind == ScrubNode
  }

  predicate NodeMatches(n: Node, s: Step) {
    EntryMatches(Entry(n.kind, n.name, n.caseSensitive), s)
  }

  /** The nodes that remain to be matched after a step. */
  function Advance(nodes: seq<Node>, s: Step): (r: seq<Node>) {
    if nodes == [] then []
    else (if NodeMatches(nodes[0], s) then nodes[0].children else []) + Advance(nodes[1..], s)
  }

  /** Walking the tree along the address meets a scrub node. */
  predicate NodesCover(nodes: seq<Node>, addr: seq<Step>)
    decreases |addr|
  {
    ScrubNow(nodes) || (addr != [] && NodesCover(Advance(nodes, addr[0]), addr[1..]))
  }

  // ----- groupNodes -----

  predicate SameEntry(n: Node, e: Entry) {
    && n.kind == e.kind
    && (e.kind == ObjectField ==>
          && n.caseSensitive == e.caseSensitive
          && if e.caseSensitive then EqualFold(e.name, n.name) else e.name == n.name)
  }

  /** Index of the first child that groupNodes considers the same as e, or the number of children. */
  function FindMatch(children: seq<Node>, e: Entry): (i: nat)
    ensures i <= |children|
    ensures i < |children| ==> SameEntry(children[i], e)
    ensures forall k :: 0 <= k < i ==> !SameEntry(children[k], e)
  {
    if children == [] || SameEntry(children[0], e) then 0 else 1 + FindMatch(children[1..], e)
  }

  predicate HasScrub(children: seq<Node>) {
    |children| == 1 && children[0].kind == ScrubNode
  }

  /** Children of a node after one path has been threaded through it. */
  function Insert(children: seq<Node>, p: Path): (r: seq<Node>)
    decreases |p|
  {
    if p == [] || HasScrub(children) then [Scrub]
    else
      var i := FindMatch(children, p[0]);
      if i == |children|
      then children + [Node(p[0].kind, p[0].name, p[0].caseSensitive, Insert([], p[1..]))]
      else children[i := children[i].(children := Insert(children[i].children, p[1..]))]
  }

  function GroupNodes(ps: seq<Path>): seq<Node> {
    if ps == [] then [] else Insert(GroupNodes(ps[..|ps| - 1]), ps[|ps| - 1])
  }

  // ----- The loops of groupNodes, with the parent as a path of child indices -----

  predicate IsPosition(nodes: seq<Node>, at: seq<nat>)
    decreases |at|
  {
    at == [] || (at[0] < |nodes| && IsPosition(nodes[at[0]].children, at[1..]))
  }

  /** The children of the node at a position; those of the root at the empty one. */
  function ChildrenAt(nodes: seq<Node>, at: seq<nat>): seq<Node>
    requires IsPosition(nodes, at)
    decreases |at|
  {
    if at == [] then nodes else ChildrenAt(nodes[at[0]].children, at[1..])
  }

  /** The tree with the children at a position replaced. */
  function WithChildren(nodes: seq<Node>, at: seq<nat>, kids: seq<Node>): seq<Node>
    requires IsPosition(nodes, at)
    decreases |at|
  {
    if at == [] then kids
    else nodes[at[0] := nodes[at[0]].(children := WithChildren(nodes[at[0]].children, at[1..], kids))]
  }

  lemma {:induction false} WithChildrenTwice(nodes: seq<Node>, at: seq<nat>, a: seq<Node>, b: seq<Node>)
    requires IsPosition(nodes, at)
    ensures var r := WithChildren(nodes, at, a);
            IsPosition(r, at) && ChildrenAt(r, at) == a && WithChildren(r, at, b) == WithChildren(nodes, at, b)
    decreases |at|
  {
    if at != [] { WithChildrenTwice(nodes[at[0]].children, at[1..], a, b); }
  }

  lemma {:induction false} OneDeeper(nodes: seq<Node>, at: seq<nat>, i: nat, kids: seq<Node>)
    requires IsPosition(nodes, at) && i < |ChildrenAt(nodes, at)|
    ensures var c := ChildrenAt(nodes, at);
            && IsPosition(nodes, at + [i]) && ChildrenAt(nodes, at + [i]) == c[i].children
            && WithChildren(nodes, at + [i], kids) == WithChildren(nodes, at, c[i := c[i].(children := kids)])
    decreases |at|
  {
    if at == [] {
      assert at + [i] == [i] && [i][1..] == [];
    } else {
      assert (at + [i])[1..] == at[1..] + [i];
      OneDeeper(nodes[at[0]].children, at[1..], i, kids);
    }
  }

  method FindChild(children: seq<Node>, e: Entry) returns (idx: int)
    ensures idx == if FindMatch(children, e) < |children| then FindMatch(children, e) else -1
  {
    for i := 0 to |children|
      invariant forall k :: 0 <= k < i ==> !SameEntry(children[k], e)
    {
      var c := children[i];
      if c.kind != e.kind { continue; }
      if e.kind != ObjectField { return i; }
      if e.caseSensitive != c.caseSensitive { continue; }
      var equal := if e.caseSensitive then EqualFold(e.name, c.name) else e.name == c.name;
      if equal { return i; }
    }
    idx := -1;
  }

  /** Threads one path: the parent moves down entry by entry, and where it stops the value is scrubbed. */
  method AddPath(root: seq<Node>, path: Path) returns (nodes: seq<Node>)
    ensures nodes == Insert(root, path)
  {
    hide Insert, FindMatch, WithChildren, ChildrenAt;
    nodes := root;
    var parent: seq<nat> := [];
    RootPosition(root, Insert(root, path));
    var i := 0;
    while i < |path|
      invariant i <= |path| && IsPosition(nodes, parent)
      invariant WithChildren(nodes, parent, Insert(ChildrenAt(nodes, parent), path[i..])) == Insert(root, path)
    {
      var children, e := ChildrenAt(nodes, parent), path[i];
      InsertStep(nodes, parent, path[i..]);
      assert path[i..][0] == e && path[i..][1..] == path[i + 1..];
      if HasScrub(children) { break; }
      var idx := FindChild(children, e);
      if idx == -1 {
        nodes := WithChildren(nodes, parent, children + [Node(e.kind, e.name, e.caseSensitive, [])]);
        parent := parent + [|children|];
      } else {
        parent := parent + [idx];
      }
      i := i + 1;
    }
    InsertEnds(ChildrenAt(nodes, parent), path[i..]);
    nodes := WithChildren(nodes, parent, [Scrub]);
  }

  lemma RootPosition(nodes: seq<Node>, kids: seq<Node>)
    ensures ChildrenAt(nodes, []) == nodes && WithChildren(nodes, [], kids) == kids
  {
  }

  lemma InsertEnds(children: seq<Node>, p: Path)
    ensures p == [] || HasScrub(children) ==> Insert(children, p) == [Scrub]
  {
  }

  /** Threading the rest of a path through the parent is threading its tail through the next parent. */
  lemma InsertStep(nodes: seq<Node>, parent: seq<nat>, p: Path)
    requires IsPosition(nodes, parent) && p != []
    ensures var c, e := ChildrenAt(nodes, parent), p[0];
            var i := FindMatch(c, e);
            var grown := WithChildren(nodes, parent, c + [Node(e.kind, e.name, e.caseSensitive, [])]);
            var all := WithChildren(nodes, parent, Insert(c, p));
            && (!HasScrub(c) && i < |c| ==>
                  IsPosition(nodes, parent + [i]) &&
                  WithChildren(nodes, parent + [i], Insert(ChildrenAt(nodes, parent + [i]), p[1..])) == all)
            && (!HasScrub(c) && i == |c| ==>
                  IsPosition(grown, parent + [i]) &&
                  WithChildren(grown, parent + [i], Insert(ChildrenAt(grown, parent + [i]), p[1..])) == all)
  {
    hide WithChildren, ChildrenAt, IsPosition;
    var c, e := ChildrenAt(nodes, parent), p[0];
    var i := FindMatch(c, e);
    if !HasScrub(c) {
      if i < |c| {
        OneDeeper(nodes, parent, i, Insert(c[i].children, p[1..]));
      } else {
        var n := Node(e.kind, e.name, e.caseSensitive, []);
        var sub := Insert([], p[1..]);
        var grown := WithChildren(nodes, parent, c + [n]);
        WithChildrenTwice(nodes, parent, c + [n], Insert(c, p));
        OneDeeper(grown, parent, i, sub);
        assert (c + [n])[i := n.(children := sub)] == c + [n.(children := sub)];
      }
    }
  }

  method BuildNodes(ps: seq<Path>) returns (nodes: seq<Node>)
    ensures nodes == GroupNodes(ps)
  {
    nodes := [];
    for i := 0 to |ps|
      invariant nodes == GroupNodes(ps[..i])
    {
      assert ps[..i + 1][..i] == ps[..i];
      nodes := AddPath(nodes, ps[i]);
    }
    assert ps[..|ps|] == ps;
  }

  /** The spelling a path gets when it is threaded through existing nodes: a case-sensitive name that
      an earlier path wrote in another case keeps the earlier spelling. */
  function Respell(children: seq<Node>, p: Path): (r: Path)
    ensures |r| == |p|
    decreases |p|
  {
    if p == [] || HasScrub(children) then p
    else
      var i := FindMatch(children, p[0]);
      if i == |children| then p
      else
        var c := children[i];
        [Entry(c.kind, c.name, c.caseSensitive)] + Respell(c.children, p[1..])
  }

  function RespellAll(ps: seq<Path>): (r: seq<Path>)
    ensures |r| == |ps|
  {
    if ps == [] then []
    else RespellAll(ps[..|ps| - 1]) + [Respell(GroupNodes(ps[..|ps| - 1]), ps[|ps| - 1])]
  }

  // ----- Proof that the tree means what the paths mean -----

  lemma {:induction false} AdvanceConcat(a: seq<Node>, b: seq<Node>, s: Step)
    ensures Advance(a + b, s) == Advance(a, s) + Advance(b, s)
  {
    if a == [] {
      assert a + b == b;
    } else {
      assert (a + b)[1..] == a[1..] + b;
      AdvanceConcat(a[1..], b, s);
    }
  }

  lemma ScrubNowConcat(a: seq<Node>, b: seq<Node>)
    ensures ScrubNow(a + b) == (ScrubNow(a) || ScrubNow(b))
  {
    if n :| n in a && n.kind == ScrubNode { assert n in a + b; }
    if n :| n in b && n.kind == ScrubNode { assert n in a + b; }
  }

  lemma {:induction false} CoverConcat(a: seq<Node>, b: seq<Node>, addr: seq<Step>)
    ensures NodesCover(a + b, addr) == (NodesCover(a, addr) || NodesCover(b, addr))
    decreases |addr|
  {
    ScrubNowConcat(a, b);
    if addr != [] {
      AdvanceConcat(a, b, addr[0]);
      CoverConcat(Advance(a, addr[0]), Advance(b, addr[0]), addr[1..]);
    }
  }

  lemma {:induction false} NoNodesCover(addr: seq<Step>)
    ensures !NodesCover([], addr)
    decreases |addr|
  {
    if addr != [] { NoNodesCover(addr[1..]); }
  }

  lemma {:induction false} CoverOne(n: Node, addr: seq<Step>)
    requires n.kind != ScrubNode
    ensures NodesCover([n], addr) == (addr != [] && NodeMatches(n, addr[0]) && NodesCover(n.children, addr[1..]))
  {
    if addr != [] {
      assert Advance([n], addr[0]) == if NodeMatches(n, addr[0]) then n.children else [];
      NoNodesCover(addr[1..]);
    }
  }

  /** Threading one more path adds exactly what its respelled form covers. */
  lemma {:induction false} InsertCovers(children: seq<Node>, p: Path, addr: seq<Step>)
    requires PublicPath(p)
    ensures NodesCover(Insert(children, p), addr)
            == (NodesCover(children, addr) || PathCovers(Respell(children, p), addr))
    decreases |p|
  {
    var r := Insert(children, p);
    if p == [] || HasScrub(children) {
      assert r[0].kind == ScrubNode;
      return;
    }
    var e, i := p[0], FindMatch(children, p[0]);
    assert PublicPath(p[1..]);
    if i == |children| {
      var n := Node(e.kind, e.name, e.caseSensitive, Insert([], p[1..]));
      CoverConcat(children, [n], addr);
      CoverOne(n, addr);
      if addr != [] {
        InsertCovers([], p[1..], addr[1..]);
        NoNodesCover(addr[1..]);
        assert Respell([], p[1..]) == p[1..];
      }
    } else {
      var c := children[i];
      var c' := c.(children := Insert(c.children, p[1..]));
      assert children == children[..i] + [c] + children[i + 1..];
      assert r == children[..i] + [c'] + children[i + 1..];
      CoverSplit(children[..i], c, children[i + 1..], addr);
      CoverSplit(children[..i], c', children[i + 1..], addr);
      CoverOne(c, addr);
      CoverOne(c', addr);
      if addr != [] { InsertCovers(c.children, p[1..], addr[1..]); }
    }
  }

  lemma {:induction false} CoverSplit(a: seq<Node>, n: Node, b: seq<Node>, addr: seq<Step>)
    ensures NodesCover(a + [n] + b, addr) == (NodesCover(a, addr) || NodesCover([n], addr) || NodesCover(b, addr))
  {
    CoverConcat(a + [n], b, addr);
    CoverConcat(a, [n], addr);
  }

  lemma CoveredConcat(a: seq<Path>, b: seq<Path>, addr: seq<Step>)
    ensures Covered(a + b, addr) == (Covered(a, addr) || Covered(b, addr))
  {
    if p :| p in a && PathCovers(p, addr) { assert p in a + b; }
    if p :| p in b && PathCovers(p, addr) { assert p in a + b; }
  }

  /** For every list of paths and every address, the tree and the respelled paths agree. */
  lemma {:induction false} TreeCovers(ps: seq<Path>, addr: seq<Step>)
    requires PublicPaths(ps)
    ensures NodesCover(GroupNodes(ps), addr) == Covered(RespellAll(ps), addr)
  {
    if ps == [] {
      NoNodesCover(addr);
    } else {
      var before, p := ps[..|ps| - 1], ps[|ps| - 1];
      TreeCovers(before, addr);
      InsertCovers(GroupNodes(before), p, addr);
      var q := Respell(GroupNodes(before), p);
      CoveredConcat(RespellAll(before), [q], addr);
      assert Covered([q], addr) == PathCovers(q, addr) by { assert q in [q]; }
    }
  }

  // ----- When no path is respelled -----

  /** Two entries whose names differ only by case are not both case-sensitive. */
  predicate Compatible(e: Entry, f: Entry) {
    e.kind == f.kind == ObjectField && e.caseSensitive && f.caseSensitive && SameLetters(e.name, f.name) ==>
      e.name == f.name
  }

  predicate PathsCompatible(p: Path, q: Path) {
    forall e <- p, f <- q :: Compatible(e, f)
  }

  predicate CaseConsistent(ps: seq<Path>) {
    forall p <- ps, q <- ps :: PathsCompatible(p, q)
  }

  /** Every name in the tree is compatible with e. */
  predicate NodesCompatible(nodes: seq<Node>, e: Entry) {
    forall n <- nodes :: Compatible(Entry(n.kind, n.name, n.caseSensitive), e) && NodesCompatible(n.children, e)
  }

  lemma {:induction false} InsertCompatible(children: seq<Node>, p: Path, e: Entry)
    requires PublicPath(p) && NodesCompatible(children, e) && forall f <- p :: Compatible(f, e)
    ensures NodesCompatible(Insert(children, p), e)
    decreases |p|
  {
    if p == [] || HasScrub(children) { return; }
    var i := FindMatch(children, p[0]);
    assert p[0] in p;
    assert PublicPath(p[1..]);
    if i == |children| {
      InsertCompatible([], p[1..], e);
    } else {
      assert children[i] in children;
      InsertCompatible(children[i].children, p[1..], e);
    }
  }

  lemma {:induction false} GroupCompatible(ps: seq<Path>, e: Entry)
    requires PublicPaths(ps) && forall p <- ps, f <- p :: Compatible(f, e)
    ensures NodesCompatible(GroupNodes(ps), e)
  {
    if ps != [] {
      GroupCompatible(ps[..|ps| - 1], e);
      InsertCompatible(GroupNodes(ps[..|ps| - 1]), ps[|ps| - 1], e);
    }
  }

  lemma {:induction false} RespellKeepsMeaning(children: seq<Node>, p: Path, addr: seq<Step>)
    requires forall e <- p :: NodesCompatible(children, e)
    ensures PathCovers(Respell(children, p), addr) == PathCovers(p, addr)
    decreases |p|
  {
    if p == [] || HasScrub(children) { return; }
    var i := FindMatch(children, p[0]);
    if i < |children| && addr != [] {
      var c := children[i];
      assert c in children && p[0] in p;
      assert Compatible(Entry(c.kind, c.name, c.caseSensitive), p[0]);
      forall e <- p[1..] ensures NodesCompatible(c.children, e) { assert e in p; }
      RespellKeepsMeaning(c.children, p[1..], addr[1..]);
    }
  }

  /** If case-sensitive names are written consistently, the tree covers exactly what the paths cover. */
  lemma {:induction false} ConsistentTreeCovers(ps: seq<Path>, addr: seq<Step>)
    requires PublicPaths(ps) && CaseConsistent(ps)
    ensures NodesCover(GroupNodes(ps), addr) == Covered(ps, addr)
  {
    if ps == [] {
      NoNodesCover(addr);
    } else {
      var before, p := ps[..|ps| - 1], ps[|ps| - 1];
      assert CaseConsistent(before) by { forall q <- before ensures q in ps {} }
      ConsistentTreeCovers(before, addr);
      InsertCovers(GroupNodes(before), p, addr);
      forall e <- p ensures NodesCompatible(GroupNodes(before), e) {
        forall q <- before, f <- q ensures Compatible(f, e) { assert q in ps && p in ps && PathsCompatible(q, p); }
        GroupCompatible(before, e);
      }
      RespellKeepsMeaning(GroupNodes(before), p, addr);
      CoveredConcat(before, [p], addr);
      assert before + [p] == ps;
      assert Covered([p], addr) == PathCovers(p, addr) by { assert p in [p]; }
    }
  }

  /** Without consistency it fails: of two case-sensitive spellings only the first is ever matched. */
  lemma {:induction false} SecondSpellingIsLost(e: Entry, f: Entry)
    requires !Compatible(e, f)
    ensures Covered([[e], [f]], [Into(f.name)]) && !NodesCover(GroupNodes([[e], [f]]), [Into(f.name)])
  {
    hide EqualFold, SameLetters;
    var addr := [Into(f.name)];
    EqualFoldIff(e.name, f.name);
    assert [f][1..] == [] && [e][1..] == [];
    assert PathCovers([f], addr) && [f] in [[e], [f]];
    assert [[e], [f]][..1] == [[e]] && [[e]][..0] == [];
    assert GroupNodes([]) == [] && Insert([], [e]) == [Node(e.kind, e.name, e.caseSensitive, Insert([], []))];
    assert GroupNodes([[e]]) == Insert([], [e]);
    assert EqualFold(f.name, e.name) by { FoldFlips(e.name, f.name); }
    assert Respell(GroupNodes([[e]]), [f]) == [e];
    assert RespellAll([[e], [f]]) == [[e], [e]];
    TreeCovers([[e], [f]], addr);
    assert !PathCovers([e], addr);
  }

  lemma FoldFlips(a: seq<byte>, b: seq<byte>)
    ensures EqualFold(a, b) == EqualFold(b, a)
  {
  }

  ghost predicate Over(ps: seq<Path>, es: iset<Entry>) {
    forall p <- ps, e <- p :: e in es
  }

  ghost predicate PairwiseCompatible(es: iset<Entry>) {
    forall e, f :: e in es && f in es ==> Compatible(e, f)
  }

  /** For any collection of entries: the tree covers what the paths cover, for all lists of paths made of
      them, if and only if no two of them are case-sensitive and differ only by case. */
  lemma {:induction false} GroupedFaithfullyIffCompatible(es: iset<Entry>)
    requires forall e :: e in es ==> e.kind != ScrubNode
    ensures (forall ps: seq<Path>, addr: seq<Step> ::
               Over(ps, es) ==> NodesCover(GroupNodes(ps), addr) == Covered(ps, addr)) <==> PairwiseCompatible(es)
  {
    hide NodesCover, GroupNodes, Covered, Compatible;
    if PairwiseCompatible(es) {
      forall ps: seq<Path>, addr: seq<Step> | Over(ps, es)
        ensures NodesCover(GroupNodes(ps), addr) == Covered(ps, addr)
      {
        ConsistentTreeCovers(ps, addr);
      }
    } else {
      var e, f :| e in es && f in es && !Compatible(e, f);
      SecondSpellingIsLost(e, f);
      assert Over([[e], [f]], es);
    }
  }
}
