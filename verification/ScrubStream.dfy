/** The stream walker of pkg/scrub/scrub.go: it pulls items from the scanner and follows the node tree.

    The walker is first written as functions on the list of items still to come, then as the stateful
    `stream` of the source, proved to compute the same.  One loop of the source never ends when an
    opening bracket that is being skipped is not closed; the model reports that outcome as `Spins`. */
module ScrubStream {
  import opened Common
  import opened ScrubScanner
  import opened ScrubPaths

  datatype Bounds = Bounds(from: nat, to: nat)

  // ----- Specification -----

  datatype Skip = SkipSpins | Skipped(rest: seq<Item>, end: nat)

  function Delta(t: Token): int {
    if Opens(t) then 1 else if Closes(t) then -1 else 0
  }

  /** Skipping on at the given bracket depth: it stops after the item that brings the depth to zero. */
  function SkipFrom(ts: seq<Item>, depth: int): (r: Skip)
    ensures r.Skipped? ==> |r.rest| < |ts|
  {
    if ts == [] then SkipSpins
    else
      var d := depth + Delta(ts[0].tok);
      if d <= 0 then Skipped(ts[1..], ts[0].to) else SkipFrom(ts[1..], d)
  }

  datatype Walk = Spins | Walked(rest: seq<Item>, out: seq<Bounds>)

  function After(out: seq<Bounds>, w: Walk): Walk {
    if w.Spins? then Spins else Walked(w.rest, out + w.out)
  }

  predicate AtEnd(ts: seq<Item>) {
    ts == [] || ts[0].tok == Unknown
  }

  function Text(input: seq<byte>, it: Item): seq<byte> {
    if it.from <= it.to <= |input| then input[it.from..it.to] else []
  }

  predicate KeptForKey(n: Node, it: Item) {
    (n.kind == MapKey && it.isMapKey) || (n.kind == MapValue && !it.isMapKey)
  }

  predicate KeptForValue(input: seq<byte>, n: Node, it: Item) {
    n.kind == ObjectField && it.isMapKey && NameMatches(n.name, n.caseSensitive, Text(input, it))
  }

  function CurrNodes(nodes: seq<Node>, it: Item): seq<Node> {
    if nodes == [] then []
    else (if KeptForKey(nodes[0], it) then nodes[0].children else []) + CurrNodes(nodes[1..], it)
  }

  function ValueNodes(input: seq<byte>, nodes: seq<Node>, it: Item): seq<Node> {
    if nodes == [] then []
    else (if KeptForValue(input, nodes[0], it) then nodes[0].children else []) + ValueNodes(input, nodes[1..], it)
  }

  /** An entry for keys at a key, or one for values at anything else. */
  predicate IsForPosition(n: Node, it: Item) {
    n.kind == if it.isMapKey then MapKey else MapValue
  }

  /** An entry for a field, at a key that bears its name. */
  predicate NamesKey(input: seq<byte>, n: Node, it: Item) {
    n.kind == ObjectField && it.isMapKey && Spelled(n.name, n.caseSensitive, Text(input, it))
  }

  /** Whose children are kept. */
  lemma {:induction false} ChosenNodes(input: seq<byte>, nodes: seq<Node>, it: Item)
    ensures forall c :: c in CurrNodes(nodes, it) <==> exists n <- nodes :: IsForPosition(n, it) && c in n.children
    ensures forall c :: c in ValueNodes(input, nodes, it)
                   <==> exists n <- nodes :: NamesKey(input, n, it) && c in n.children
  {
    hide NameMatches, Spelled, Text;
    if nodes != [] {
      ChosenNodes(input, nodes[1..], it);
      NameMatchesIff(nodes[0].name, nodes[0].caseSensitive, Text(input, it));
      assert forall n :: n in nodes <==> n == nodes[0] || n in nodes[1..];
    }
  }

  lemma NoNodesYet(input: seq<byte>, nodes: seq<Node>, it: Item)
    ensures [] + CurrNodes(nodes[0..], it) == CurrNodes(nodes, it)
    ensures [] + ValueNodes(input, nodes[0..], it) == ValueNodes(input, nodes, it)
  {
    assert nodes[0..] == nodes;
  }

  lemma AllNodes(input: seq<byte>, nodes: seq<Node>, it: Item, curr: seq<Node>, value: seq<Node>)
    ensures curr + CurrNodes(nodes[|nodes|..], it) == curr && value + ValueNodes(input, nodes[|nodes|..], it) == value
  {
  }

  /** Node i, before those behind it. */
  lemma OneNode(input: seq<byte>, nodes: seq<Node>, it: Item, i: nat, curr: seq<Node>, value: seq<Node>)
    requires i < |nodes|
    ensures curr + CurrNodes(nodes[i..], it)
            == (if KeptForKey(nodes[i], it) then curr + nodes[i].children else curr) + CurrNodes(nodes[i + 1..], it)
    ensures value + ValueNodes(input, nodes[i..], it)
            == (if KeptForValue(input, nodes[i], it) then value + nodes[i].children else value)
               + ValueNodes(input, nodes[i + 1..], it)
  {
    hide KeptForKey, KeptForValue;
    assert nodes[i..][1..] == nodes[i + 1..];
  }

  predicate IsMapValue(ts: seq<Item>) {
    ts != [] && !ts[0].isMapKey && (Opens(ts[0].tok) || ts[0].tok == Literal)
  }

  function WalkValue(input: seq<byte>, ts: seq<Item>, nodes: seq<Node>): (w: Walk)
    requires ts != []
    ensures w.Walked? ==> |w.rest| < |ts|
    decreases |ts|, 0
  {
    if ScrubNow(nodes) || nodes == [] then
      match SkipFrom(ts, 0)
      case SkipSpins => Spins
      case Skipped(rest, end) => Walked(rest, if ScrubNow(nodes) then [Bounds(ts[0].from, end)] else [])
    else if ts[0].tok == ObjectBegin then WalkObject(input, ts[1..], nodes)
    else if ts[0].tok == ArrayBegin then WalkArray(input, ts[1..], nodes)
    else Walked(ts[1..], [])
  }

  function WalkArray(input: seq<byte>, ts: seq<Item>, nodes: seq<Node>): (w: Walk)
    ensures w.Walked? ==> |w.rest| <= |ts|
    decreases |ts|, 1
  {
    if AtEnd(ts) then Walked(ts, [])
    else if ts[0].tok == ArrayEnd then Walked(ts[1..], [])
    else
      var v := WalkValue(input, ts, nodes);
      if v.Spins? then Spins else After(v.out, WalkArray(input, v.rest, nodes))
  }

  function WalkObject(input: seq<byte>, ts: seq<Item>, nodes: seq<Node>): (w: Walk)
    ensures w.Walked? ==> |w.rest| <= |ts|
    decreases |ts|, 2
  {
    if AtEnd(ts) then Walked(ts, [])
    else if ts[0].tok == ObjectEnd then Walked(ts[1..], [])
    else
      var m := WalkMember(input, ts, nodes);
      if m.Spins? then Spins else After(m.out, WalkObject(input, m.rest, nodes))
  }

  /** One round of the object loop: the current item, and the value after it if it was a key. */
  function WalkMember(input: seq<byte>, ts: seq<Item>, nodes: seq<Node>): (w: Walk)
    requires ts != []
    ensures w.Walked? ==> |w.rest| < |ts|
    decreases |ts|, 1
  {
    var k := WalkValue(input, ts, CurrNodes(nodes, ts[0]));
    if k.Spins? || !IsMapValue(k.rest) then k
    else After(k.out, WalkValue(input, k.rest, ValueNodes(input, nodes, ts[0])))
  }

  function WalkAll(input: seq<byte>, ts: seq<Item>, nodes: seq<Node>): (w: Walk)
    decreases |ts|
  {
    if AtEnd(ts) then Walked(ts, [])
    else
      var v := WalkValue(input, ts, nodes);
      if v.Spins? then Spins else After(v.out, WalkAll(input, v.rest, nodes))
  }

  datatype Outcome = Never | Found(bounds: seq<Bounds>)

  function Indices(input: seq<byte>, paths: seq<Path>): Outcome {
    match WalkAll(input, Items(input), GroupNodes(paths))
    case Spins => Never
    case Walked(_, out) => Found(out)
  }

  // ----- The stream -----

  class Stream {
    const s: Scanner
    const input: seq<byte>
    const rootNodes: seq<Node>
    var tok: Token
    var pos: Bounds
    var mapKey: bool
    var toScrub: seq<Bounds>
    var ended: bool               // the scanner has nothing more to report
    ghost var rest: seq<Item>     // the current item and everything after it

    ghost predicate Valid()
      reads this, s
    {
      && s.Valid() && s.input == input
      && ended == (rest == [])
      && (rest == [] ==> tok == Unknown && ItemsFrom(input, s.pos, s.stack, NUL) == [])
      && (rest != [] ==> rest[0] == Item(pos.from, pos.to, tok, mapKey) &&
                         rest[1..] == ItemsFrom(input, s.pos, s.stack, NUL))
    }

    constructor (input: seq<byte>, rootNodes: seq<Node>)
      ensures fresh(s) && s.Valid() && s.input == input == this.input && s.pos == 0 && s.stack == []
      ensures toScrub == [] && this.rootNodes == rootNodes
    {
      s := new Scanner(input);
      this.input, this.rootNodes := input, rootNodes;
      tok, pos, mapKey, toScrub, ended, rest := Unknown, Bounds(0, 0), false, [], false, [];
    }

    /** Moves to the next item. */
    method Next()
      requires s.Valid() && s.input == input
      modifies this, s
      ensures Valid() && rest == ItemsFrom(input, old(s.pos), old(s.stack), NUL) && toScrub == old(toScrub)
    {
      hide ItemsFrom;
      rest := ItemsFrom(input, s.pos, s.stack, NUL);
      var more := s.Next();
      ended := !more;
      if more {
        tok, pos, mapKey := s.it.tok, Bounds(s.it.from, s.it.to), s.it.isMapKey;
      } else {
        tok := Unknown;
      }
    }

    /** Skips one complete value; `spins` is the case in which the loop of the source never ends. */
    method SkipValue() returns (bounds: Bounds, spins: bool)
      requires Valid() && rest != []
      modifies this, s
      ensures Valid() && toScrub == old(toScrub)
      ensures spins == SkipFrom(old(rest), 0).SkipSpins?
      ensures !spins ==> SkipFrom(old(rest), 0) == Skipped(rest, bounds.to) && bounds.from == old(rest)[0].from
    {
      hide ItemsFrom;
      var start, end, depth := pos.from, pos.to, 0;
      spins := false;
      while true
        invariant Valid() && toScrub == old(toScrub)
        invariant !spins && start == old(rest)[0].from
        invariant SkipFrom(rest, depth) == SkipFrom(old(rest), 0)
        decreases |rest|
      {
        if ended { return Bounds(start, end), true; }
        if Opens(tok) { depth := depth + 1; } else if Closes(tok) { depth := depth - 1; }
        end := pos.to;
        Next();
        if depth <= 0 { break; }
      }
      bounds := Bounds(start, end);
    }

    method HasScrubNode(nodes: seq<Node>) returns (r: bool)
      ensures r == ScrubNow(nodes)
    {
      for i := 0 to |nodes|
        invariant forall k :: 0 <= k < i ==> nodes[k].kind != ScrubNode
      {
        if nodes[i].kind == ScrubNode { return true; }
      }
      return false;
    }

    method MatchingMapNodes(nodes: seq<Node>) returns (curr: seq<Node>, value: seq<Node>)
      requires Valid() && rest != []
      ensures curr == CurrNodes(nodes, rest[0]) && value == ValueNodes(input, nodes, rest[0])
      ensures forall c :: c in curr <==> exists n <- nodes :: IsForPosition(n, rest[0]) && c in n.children
      ensures forall c :: c in value <==> exists n <- nodes :: NamesKey(input, n, rest[0]) && c in n.children
    {
      hide ItemsFrom, NameMatches, CurrNodes, ValueNodes;
      curr, value := [], [];
      NoNodesYet(input, nodes, rest[0]);
      var i := 0;
      while i < |nodes|
        invariant i <= |nodes|
        invariant curr + CurrNodes(nodes[i..], rest[0]) == CurrNodes(nodes, rest[0])
        invariant value + ValueNodes(input, nodes[i..], rest[0]) == ValueNodes(input, nodes, rest[0])
      {
        var n := nodes[i];
        OneNode(input, nodes, rest[0], i, curr, value);
        if (n.kind == MapKey && mapKey) || (n.kind == MapValue && !mapKey) {
          curr := curr + n.children;
        } else if n.kind == ObjectField && mapKey {
          var text := if pos.from <= pos.to <= |input| then input[pos.from..pos.to] else [];
          if NameMatches(n.name, n.caseSensitive, text) { value := value + n.children; }
        }
        i := i + 1;
      }
      AllNodes(input, nodes, rest[0], curr, value);
      ChosenNodes(input, nodes, rest[0]);
    }

    method ProcessValue(nodes: seq<Node>) returns (spins: bool)
      requires Valid() && rest != []
      modifies this, s
      ensures Valid()
      ensures var w := WalkValue(input, old(rest), nodes);
              spins == w.Spins? && (!spins ==> w.rest == rest && toScrub == old(toScrub) + w.out)
      decreases |rest|, 0
    {
      hide ItemsFrom, WalkArray, WalkObject, SkipFrom;
      var now := HasScrubNode(nodes);
      if now {
        var bounds;
        bounds, spins := SkipValue();
        if !spins { toScrub := toScrub + [bounds]; }
      } else if |nodes| == 0 {
        var _, sp := SkipValue();
        spins := sp;
      } else if tok == ObjectBegin {
        spins := ProcessObject(nodes);
      } else if tok == ArrayBegin {
        spins := ProcessArray(nodes);
      } else {
        Next();
        spins := false;
      }
    }

    method ProcessArray(nodes: seq<Node>) returns (spins: bool)
      requires Valid() && rest != []
      modifies this, s
      ensures Valid()
      ensures var w := WalkArray(input, old(rest)[1..], nodes);
              spins == w.Spins? && (!spins ==> w.rest == rest && toScrub == old(toScrub) + w.out)
      decreases |rest| - 1, 1
    {
      hide ItemsFrom, WalkValue;
      ghost var all := WalkArray(input, rest[1..], nodes);
      ghost var out: seq<Bounds> := [];
      Next();
      while true
        invariant Valid() && |rest| < |old(rest)|
        invariant toScrub == old(toScrub) + out && all == After(out, WalkArray(input, rest, nodes))
        decreases |rest|
      {
        if tok == Unknown {
          return false;
        } else if tok == ArrayEnd {
          Next();
          return false;
        }
        ghost var v := WalkValue(input, rest, nodes);
        spins := ProcessValue(nodes);
        if spins { return; }
        out := out + v.out;
      }
    }

    method ProcessObject(nodes: seq<Node>) returns (spins: bool)
      requires Valid() && rest != []
      modifies this, s
      ensures Valid()
      ensures var w := WalkObject(input, old(rest)[1..], nodes);
              spins == w.Spins? && (!spins ==> w.rest == rest && toScrub == old(toScrub) + w.out)
      decreases |rest| - 1, 2
    {
      hide ItemsFrom, WalkMember;
      ghost var all := WalkObject(input, rest[1..], nodes);
      ghost var out: seq<Bounds> := [];
      Next();
      while true
        invariant Valid() && |rest| < |old(rest)|
        invariant toScrub == old(toScrub) + out && all == After(out, WalkObject(input, rest, nodes))
        decreases |rest|
      {
        if tok == Unknown {
          return false;
        } else if tok == ObjectEnd {
          Next();
          return false;
        }
        ghost var m := WalkMember(input, rest, nodes);
        spins := ProcessMember(nodes);
        if spins { return; }
        out := out + m.out;
      }
    }

    method ProcessMember(nodes: seq<Node>) returns (spins: bool)
      requires Valid() && rest != []
      modifies this, s
      ensures Valid()
      ensures var w := WalkMember(input, old(rest), nodes);
              spins == w.Spins? && (!spins ==> w.rest == rest && toScrub == old(toScrub) + w.out)
      decreases |rest|, 1
    {
      hide ItemsFrom, WalkValue, CurrNodes, ValueNodes;
      var curr, value := MatchingMapNodes(nodes);
      spins := ProcessValue(curr);
      if !spins && !mapKey && (Opens(tok) || tok == Literal) {
        spins := ProcessValue(value);
      }
    }

    method Process() returns (spins: bool)
      requires s.Valid() && s.input == input && s.pos == 0 && s.stack == [] && toScrub == []
      modifies this, s
      ensures Valid()
      ensures var w := WalkAll(input, Items(input), rootNodes);
              spins == w.Spins? && (!spins ==> toScrub == w.out)
    {
      hide ItemsFrom, WalkValue;
      ghost var all := WalkAll(input, Items(input), rootNodes);
      Next();
      spins := false;
      while tok != Unknown
        invariant Valid() && !spins
        invariant all == After(toScrub, WalkAll(input, rest, rootNodes))
        decreases |rest|
      {
        ghost var v := WalkValue(input, rest, rootNodes);
        spins := ProcessValue(rootNodes);
        if spins { return; }
      }
    }
  }

  /** The indices to replace, computed by the stateful scanner and walker. */
  method JSONIndices(input: seq<byte>, paths: seq<Path>) returns (r: Outcome)
    ensures r == Indices(input, paths)
  {
    var nodes := BuildNodes(paths);
    var str := new Stream(input, nodes);
    var spins := str.Process();
    r := if spins then Never else Found(str.toScrub);
  }
}
