/** Passes with any arguments: what they rewire, and the circles they cannot leave (parser/encoding/rpc.go). */
module TypeOpen {
  import opened TypeSubst
  import opened TypeLimits
  import opened TypeCells
  import opened TypeCopies
  import opened TypeInPlace
  import opened TypeSettled

  // ----- What a pass writes -----

  /** The link to k, a parameter, may become the link to its argument, and go on if that is a parameter again. */
  predicate Given(args: seq<nat>, st: Store, k: nat, k': nat) {
    var l := At(st, k).node;
    l.LParam? && l.idx < |args| && (k' == args[l.idx] || At(st, args[l.idx]).node.LParam?)
  }

  predicate Links(args: seq<nat>, st: Store, c: Cell, d: Cell) {
    && d.node == c.node && |d.kids| == |c.kids|
    && forall j :: 0 <= j < |c.kids| ==> d.kids[j] == c.kids[j] || Given(args, st, c.kids[j], d.kids[j])
  }

  predicate Rewired(args: seq<nat>, st: Store, st': Store) {
    |st'| == |st| && forall q :: 0 <= q < |st| ==> Links(args, st, st[q], st'[q])
  }

  lemma RewiredNode(args: seq<nat>, st: Store, st': Store, q: nat)
    requires Rewired(args, st, st')
    ensures Links(args, st, At(st, q), At(st', q))
  {
  }

  lemma RewiredTrans(args: seq<nat>, a: Store, b: Store, c: Store)
    requires Rewired(args, a, b) && Rewired(args, b, c)
    ensures Rewired(args, a, c)
  {
    hide Rewired, Given;
    assert |c| == |a| by { SameSize(args, a, b); SameSize(args, b, c); }
    forall q | 0 <= q < |a| ensures Links(args, a, a[q], c[q]) {
      RewiredNode(args, a, b, q);
      RewiredNode(args, b, c, q);
      forall j | 0 <= j < |a[q].kids|
        ensures c[q].kids[j] == a[q].kids[j] || Given(args, a, a[q].kids[j], c[q].kids[j])
      {
        GivenTrans(args, a, b, a[q].kids[j], b[q].kids[j], c[q].kids[j]);
      }
    }
    IsRewired(args, a, c);
  }

  lemma SameSize(args: seq<nat>, a: Store, b: Store)
    requires Rewired(args, a, b)
    ensures |a| == |b|
  {
  }

  lemma IsRewired(args: seq<nat>, a: Store, b: Store)
    requires |a| == |b| && forall q :: 0 <= q < |a| ==> Links(args, a, a[q], b[q])
    ensures Rewired(args, a, b)
  {
  }

  lemma GivenTrans(args: seq<nat>, a: Store, b: Store, k: nat, k': nat, k'': nat)
    requires Rewired(args, a, b)
    requires (k' == k || Given(args, a, k, k')) && (k'' == k' || Given(args, b, k', k''))
    ensures k'' == k || Given(args, a, k, k'')
  {
    RewiredNode(args, a, b, k);
    RewiredNode(args, a, b, k');
    var l := At(a, k).node;
    if l.LParam? && l.idx < |args| { RewiredNode(args, a, b, args[l.idx]); }
  }

  lemma RewiredSame(args: seq<nat>, st: Store)
    ensures Rewired(args, st, st)
  {
  }

  /** A pass only replaces links to parameters, and returns its type unless that is a parameter. */
  lemma {:induction false} PassRewires(st: Store, fuel: nat, r: nat, args: seq<nat>)
    requires Pass(st, fuel, r, args).Done?
    ensures var o, l := Pass(st, fuel, r, args), At(st, r).node;
            && Rewired(args, st, o.st)
            && (l.LParam? ==> o.st == st && l.idx < |args| && o.ref == args[l.idx])
            && (!l.LParam? ==> o.ref == r)
    decreases fuel, 0
  {
    hide PassKids, Rewired;
    RewiredSame(args, st);
    if Visible(At(st, r).node) { PassKidsRewires(st, fuel - 1, r, 0, |At(st, r).kids|, args); }
  }

  lemma {:induction false} PassKidsRewires(st: Store, fuel: nat, r: nat, i: nat, n: nat, args: seq<nat>)
    requires PassKids(st, fuel, r, i, n, args).Done?
    ensures var o := PassKids(st, fuel, r, i, n, args); Rewired(args, st, o.st) && o.ref == r
    decreases fuel, n + 1
  {
    hide Pass, PassKids, Rewired, SetKid;
    RewiredSame(args, st);
    PassKidsStep(st, fuel, r, i, n, args);
    if n > 0 && i < |At(st, r).kids| {
      var o := Pass(st, fuel, At(st, r).kids[i], args);
      PassRewires(st, fuel, At(st, r).kids[i], args);
      LinkRewires(st, fuel, r, i, args);
      var st2 := SetKid(o.st, r, i, o.ref);
      PassKidsRewires(st2, fuel, r, i + 1, n - 1, args);
      RewiredTrans(args, st, st2, PassKids(st2, fuel, r, i + 1, n - 1, args).st);
    }
  }

  lemma {:induction false} LinkRewires(st: Store, fuel: nat, r: nat, i: nat, args: seq<nat>)
    requires i < |At(st, r).kids| && Pass(st, fuel, At(st, r).kids[i], args).Done?
    requires var o, l := Pass(st, fuel, At(st, r).kids[i], args), At(st, At(st, r).kids[i]).node;
             && Rewired(args, st, o.st)
             && (l.LParam? ==> o.st == st && l.idx < |args| && o.ref == args[l.idx])
             && (!l.LParam? ==> o.ref == At(st, r).kids[i])
    ensures var o, l := Pass(st, fuel, At(st, r).kids[i], args), At(st, At(st, r).kids[i]).node;
            && Rewired(args, st, SetKid(o.st, r, i, o.ref))
            && (!l.LParam? ==> SetKid(o.st, r, i, o.ref) == o.st)
            && i < |At(SetKid(o.st, r, i, o.ref), r).kids| && At(SetKid(o.st, r, i, o.ref), r).kids[i] == o.ref
  {
    hide Pass;
    var o, l := Pass(st, fuel, At(st, r).kids[i], args), At(st, At(st, r).kids[i]).node;
    if !l.LParam? {
      RewiredNode(args, st, o.st, r);
      SameKid(o.st, r, i);
    }
  }

  // ----- Where a pass gets stuck -----

  /** Every cell is a parameter without an argument, or has a kid among the cells. */
  ghost predicate Stuck(st: Store, s: set<nat>, n: nat) {
    forall c <- s :: StuckCell(At(st, c), s, n)
  }

  ghost predicate StuckCell(c: Cell, s: set<nat>, n: nat) {
    || (c.node.LParam? && c.node.idx >= n)
    || (Visible(c.node) && exists i :: 0 <= i < |c.kids| && c.kids[i] in s)
  }

  lemma {:induction false} StuckLinkStays(args: seq<nat>, st: Store, st': Store, s: set<nat>, r: nat, i: nat)
    requires Rewired(args, st, st') && Stuck(st, s, |args|) && i < |At(st, r).kids| && At(st, r).kids[i] in s
    ensures i < |At(st', r).kids| && At(st', r).kids[i] == At(st, r).kids[i]
  {
    RewiredNode(args, st, st', r);
    assert StuckCell(At(st, At(st, r).kids[i]), s, |args|);
  }

  lemma {:induction false} StuckStays(args: seq<nat>, st: Store, st': Store, s: set<nat>)
    requires Rewired(args, st, st') && Stuck(st, s, |args|)
    ensures Stuck(st', s, |args|)
  {
    hide Rewired;
    forall c <- s ensures StuckCell(At(st', c), s, |args|) {
      assert StuckCell(At(st, c), s, |args|);
      RewiredNode(args, st, st', c);
      if Visible(At(st, c).node) {
        var i :| 0 <= i < |At(st, c).kids| && At(st, c).kids[i] in s;
        StuckLinkStays(args, st, st', s, c, i);
      }
    }
  }

  /** A pass that enters such cells does not return: it panics, or goes on for ever. */
  lemma {:induction false} StuckNeverDone(st: Store, fuel: nat, r: nat, s: set<nat>, args: seq<nat>)
    requires Stuck(st, s, |args|) && r in s
    ensures !Pass(st, fuel, r, args).Done?
    decreases fuel, 0
  {
    hide PassKids, Stuck;
    assert StuckCell(At(st, r), s, |args|) by { InStuck(st, s, |args|, r); }
    if fuel > 0 && Visible(At(st, r).node) {
      var i :| 0 <= i < |At(st, r).kids| && At(st, r).kids[i] in s;
      StuckKids(st, fuel - 1, r, 0, |At(st, r).kids|, i, s, args);
    }
  }

  lemma InStuck(st: Store, s: set<nat>, n: nat, c: nat)
    requires Stuck(st, s, n) && c in s
    ensures StuckCell(At(st, c), s, n)
  {
  }

  lemma {:induction false} StuckKids(st: Store, fuel: nat, r: nat, i: nat, n: nat, j: nat, s: set<nat>, args: seq<nat>)
    requires Stuck(st, s, |args|) && i <= j < i + n && j < |At(st, r).kids| && At(st, r).kids[j] in s
    ensures !PassKids(st, fuel, r, i, n, args).Done?
    decreases fuel, n + 1
  {
    hide Pass, PassKids, Stuck, Rewired, SetKid;
    PassKidsStep(st, fuel, r, i, n, args);
    if i == j {
      StuckNeverDone(st, fuel, At(st, r).kids[j], s, args);
    } else if Pass(st, fuel, At(st, r).kids[i], args).Done? {
      var o := Pass(st, fuel, At(st, r).kids[i], args);
      PassRewires(st, fuel, At(st, r).kids[i], args);
      LinkRewires(st, fuel, r, i, args);
      var st2 := SetKid(o.st, r, i, o.ref);
      StuckStays(args, st, st2, s);
      StuckLinkStays(args, st, st2, s, r, j);
      StuckKids(st2, fuel, r, i + 1, n - 1, j, s, args);
    }
  }

  // ----- A parameter out of range -----

  lemma {:induction false} StuckAt(st: Store, r: nat, u: Type, n: nat) returns (s: set<nat>)
    requires Denotes(st, r, u) && !InRange(u, n)
    ensures Stuck(st, s, n) && r in s
    decreases u
  {
    if u.Param? {
      s := {r};
    } else {
      InRangeByKids(u, n);
      var i :| 0 <= i < |Kids(u)| && !InRange(Kids(u)[i], n);
      var s' := StuckAt(st, st[r].kids[i], Kids(u)[i], n);
      s := s' + {r};
      StuckMore(st, s', n, r, i);
    }
  }

  lemma StuckMore(st: Store, s: set<nat>, n: nat, r: nat, i: nat)
    requires Stuck(st, s, n) && Visible(At(st, r).node) && i < |At(st, r).kids| && At(st, r).kids[i] in s
    ensures Stuck(st, s + {r}, n)
  {
    forall c <- s + {r} ensures StuckCell(At(st, c), s + {r}, n) {
      if c in s { InStuck(st, s, n, c); }
    }
  }

  /** Whatever the arguments are: a pass over a type with a parameter out of range does not return. */
  lemma {:induction false} OutOfRangeNeverDone(st: Store, fuel: nat, r: nat, u: Type, args: seq<nat>)
    requires Denotes(st, r, u) && !InRange(u, |args|)
    ensures !Pass(st, fuel, r, args).Done?
  {
    hide Pass, Stuck, Denotes, InRange;
    var s := StuckAt(st, r, u, |args|);
    StuckNeverDone(st, fuel, r, s, args);
  }

  // ----- Paths -----

  function Follow(st: Store, r: nat, path: seq<nat>): nat
    decreases |path|
  {
    if path == [] || path[0] >= |At(st, r).kids| then r else Follow(st, At(st, r).kids[path[0]], path[1..])
  }

  /** A pass goes down this path. */
  predicate Open(st: Store, r: nat, path: seq<nat>)
    decreases |path|
  {
    path == [] ||
    (Visible(At(st, r).node) && path[0] < |At(st, r).kids| && Open(st, At(st, r).kids[path[0]], path[1..]))
  }

  function OnPath(st: Store, r: nat, path: seq<nat>): set<nat>
    decreases |path|
  {
    if path == [] || path[0] >= |At(st, r).kids| then {} else {r} + OnPath(st, At(st, r).kids[path[0]], path[1..])
  }

  lemma {:induction false} FollowKept(args: seq<nat>, st: Store, st': Store, r: nat, path: seq<nat>)
    requires Rewired(args, st, st') && Open(st, r, path)
    ensures Open(st', r, path)
    ensures var e, e' := Follow(st, r, path), Follow(st', r, path); e' == e || Given(args, st, e, e')
    decreases |path|
  {
    hide Rewired;
    if path != [] {
      var k := At(st, r).kids[path[0]];
      RewiredNode(args, st, st', r);
      if |path| > 1 { FollowKept(args, st, st', k, path[1..]); }
    }
  }

  lemma {:induction false} FollowOn(st: Store, r: nat, p: seq<nat>, q: seq<nat>)
    requires Open(st, r, p)
    ensures Open(st, r, p + q) <==> Open(st, Follow(st, r, p), q)
    ensures Follow(st, r, p + q) == Follow(st, Follow(st, r, p), q)
    ensures OnPath(st, Follow(st, r, p), q) <= OnPath(st, r, p + q)
    decreases |p|
  {
    if p == [] {
      assert p + q == q;
    } else {
      assert (p + q)[1..] == p[1..] + q;
      FollowOn(st, At(st, r).kids[p[0]], p[1..], q);
    }
  }

  lemma {:induction false} OpenGrows(st: Store, st': Store, r: nat, path: seq<nat>)
    requires st <= st' && Open(st, r, path)
    ensures Open(st', r, path) && Follow(st', r, path) == Follow(st, r, path)
    decreases |path|
  {
    if path != [] { OpenGrows(st, st', At(st, r).kids[path[0]], path[1..]); }
  }

  /** The path ends at parameter i, or already at its argument. */
  predicate Aimed(st: Store, e: nat, i: nat, args: seq<nat>) {
    At(st, e).node == LParam(i) || (i < |args| && e == args[i])
  }

  lemma {:induction false} AimedStays(args: seq<nat>, st: Store, st': Store, r: nat, path: seq<nat>, i: nat)
    requires Rewired(args, st, st') && Open(st, r, path) && Aimed(st, Follow(st, r, path), i, args)
    requires i < |args| ==> !At(st, args[i]).node.LParam?
    ensures Open(st', r, path) && Aimed(st', Follow(st', r, path), i, args)
    ensures i < |args| && Follow(st, r, path) == args[i] ==> Follow(st', r, path) == args[i]
    ensures i < |args| ==> !At(st', args[i]).node.LParam?
  {
    hide Rewired, Open, Follow;
    FollowKept(args, st, st', r, path);
    RewiredNode(args, st, st', Follow(st, r, path));
    if i < |args| { RewiredNode(args, st, st', args[i]); }
  }

  /** After a pass, a path that ended at a parameter ends at its argument. */
  lemma {:induction false} FillPath(st: Store, fuel: nat, r: nat, path: seq<nat>, i: nat, args: seq<nat>)
    requires Pass(st, fuel, r, args).Done? && path != []
    requires Open(st, r, path) && Aimed(st, Follow(st, r, path), i, args)
    requires i < |args| ==> !At(st, args[i]).node.LParam?
    ensures var o := Pass(st, fuel, r, args); i < |args| && Open(o.st, r, path) && Follow(o.st, r, path) == args[i]
    decreases fuel, 0
  {
    hide Pass, PassKids, Aimed, Follow;
    assert fuel > 0 by { NoFuelForPass(st, r, args); }
    PassIsKids(st, fuel, r, args);
    FillKids(st, fuel - 1, r, 0, |At(st, r).kids|, path, i, args);
  }

  lemma NoFuelForPass(st: Store, r: nat, args: seq<nat>)
    ensures Pass(st, 0, r, args) == More
  {
  }

  lemma {:induction false} FillKids(st: Store, fuel: nat, r: nat, k: nat, n: nat, path: seq<nat>, i: nat,
                                    args: seq<nat>)
    requires PassKids(st, fuel, r, k, n, args).Done? && path != [] && k <= path[0] < k + n
    requires Open(st, r, path) && Aimed(st, Follow(st, r, path), i, args)
    requires i < |args| ==> !At(st, args[i]).node.LParam?
    ensures var o := PassKids(st, fuel, r, k, n, args);
            i < |args| && Open(o.st, r, path) && Follow(o.st, r, path) == args[i]
    decreases fuel, n + 1
  {
    hide Pass, PassKids, Rewired, SetKid, Follow, Aimed;
    PassKidsStep(st, fuel, r, k, n, args);
    var o := Pass(st, fuel, At(st, r).kids[k], args);
    PassRewires(st, fuel, At(st, r).kids[k], args);
    LinkRewires(st, fuel, r, k, args);
    var st2 := SetKid(o.st, r, k, o.ref);
    AimedStays(args, st, st2, r, path, i);
    if k < path[0] {
      FillKids(st2, fuel, r, k + 1, n - 1, path, i, args);
    } else {
      if |path| > 1 {
        OneOn(st, r, path);
        FillPath(st, fuel, At(st, r).kids[k], path[1..], i, args);
      }
      FilledKid(st, fuel, r, path, i, args);
      PassKidsRewires(st2, fuel, r, k + 1, n - 1, args);
      AimedStays(args, st2, PassKids(st2, fuel, r, k + 1, n - 1, args).st, r, path, i);
    }
  }

  lemma OneOn(st: Store, r: nat, path: seq<nat>)
    requires path != [] && Open(st, r, path)
    ensures Follow(st, r, path) == Follow(st, At(st, r).kids[path[0]], path[1..])
  {
  }

  lemma {:induction false} FilledKid(st: Store, fuel: nat, r: nat, path: seq<nat>, i: nat, args: seq<nat>)
    requires path != [] && Open(st, r, path) && Aimed(st, Follow(st, r, path), i, args)
    requires i < |args| ==> !At(st, args[i]).node.LParam?
    requires Pass(st, fuel, At(st, r).kids[path[0]], args).Done?
    requires var o, k := Pass(st, fuel, At(st, r).kids[path[0]], args), At(st, r).kids[path[0]];
             |path| > 1 ==> i < |args| && Open(o.st, k, path[1..]) && Follow(o.st, k, path[1..]) == args[i]
    requires var o := Pass(st, fuel, At(st, r).kids[path[0]], args);
             Open(SetKid(o.st, r, path[0], o.ref), r, path)
    ensures var o := Pass(st, fuel, At(st, r).kids[path[0]], args);
            i < |args| && Follow(SetKid(o.st, r, path[0], o.ref), r, path) == args[i]
  {
    hide Pass, Rewired, SetKid;
    var k := At(st, r).kids[path[0]];
    PassRewires(st, fuel, k, args);
    LinkRewires(st, fuel, r, path[0], args);
    var o := Pass(st, fuel, k, args);
    OneOn(st, r, path);
    OneOn(SetKid(o.st, r, path[0], o.ref), r, path);
    if |path| == 1 { assert path[1..] == []; }
  }

  // ----- Circles -----

  /** Every cell has a kid among the cells, where a pass would go. */
  ghost predicate Ring(st: Store, s: set<nat>) {
    forall c <- s :: RingCell(At(st, c), s)
  }

  ghost predicate RingCell(c: Cell, s: set<nat>) {
    Visible(c.node) && exists i :: 0 <= i < |c.kids| && c.kids[i] in s
  }

  /** From r one comes to a circle. */
  ghost predicate Circular(st: Store, r: nat) {
    exists s: set<nat> :: r in s && Ring(st, s)
  }

  /** Such a cell is no type at all. */
  lemma {:induction false} CircularIsNoType(st: Store, r: nat, u: Type)
    requires Circular(st, r)
    ensures !Denotes(st, r, u)
  {
    var s: set<nat> :| r in s && Ring(st, s);
    RingIsNoType(st, r, u, s);
  }

  lemma {:induction false} RingIsNoType(st: Store, r: nat, u: Type, s: set<nat>)
    requires r in s && Ring(st, s)
    ensures !Denotes(st, r, u)
    decreases u
  {
    assert RingCell(At(st, r), s);
    var i :| 0 <= i < |At(st, r).kids| && At(st, r).kids[i] in s;
    if i < |Kids(u)| { RingIsNoType(st, At(st, r).kids[i], Kids(u)[i], s); }
  }

  /** A pass over it never returns, whatever the arguments. */
  lemma {:induction false} CircularNeverDone(st: Store, fuel: nat, r: nat, args: seq<nat>)
    requires Circular(st, r)
    ensures !Pass(st, fuel, r, args).Done?
  {
    hide Pass;
    var s: set<nat> :| r in s && Ring(st, s);
    forall c <- s ensures StuckCell(At(st, c), s, |args|) { assert RingCell(At(st, c), s); }
    StuckNeverDone(st, fuel, r, s, args);
  }

  lemma {:induction false} CircularOver(st: Store, node: Label, r: nat)
    requires Circular(st, r) && Visible(node)
    ensures Circular(st + [Cell(node, [r])], |st|)
  {
    hide Ring, RingCell;
    var s: set<nat> :| r in s && Ring(st, s);
    var st', s' := st + [Cell(node, [r])], s + {|st|};
    forall c <- s' ensures RingCell(At(st', c), s') {
      if c in s {
        InRing(st, s, c);
        RingCellGrows(At(st, c), s, s');
      } else {
        assert At(st', c) == Cell(node, [r]);
        RingCellOver(node, r, s');
      }
    }
    IsRing(st', s');
  }

  lemma InRing(st: Store, s: set<nat>, c: nat)
    requires Ring(st, s) && c in s
    ensures c < |st| && RingCell(At(st, c), s)
  {
    assert RingCell(At(st, c), s);
  }

  lemma IsRing(st: Store, s: set<nat>)
    requires forall c <- s :: RingCell(At(st, c), s)
    ensures Ring(st, s)
  {
  }

  lemma RingCellGrows(c: Cell, s: set<nat>, s': set<nat>)
    requires RingCell(c, s) && s <= s'
    ensures RingCell(c, s')
  {
    var i :| 0 <= i < |c.kids| && c.kids[i] in s;
    assert c.kids[i] in s';
  }

  lemma RingCellOver(node: Label, r: nat, s: set<nat>)
    requires Visible(node) && r in s
    ensures RingCell(Cell(node, [r]), s)
  {
    assert Cell(node, [r]).kids[0] in s;
  }

  lemma {:induction false} PathRing(st: Store, r: nat, path: seq<nat>, s: set<nat>)
    requires Open(st, r, path) && OnPath(st, r, path) <= s && Follow(st, r, path) in s
    ensures forall c <- OnPath(st, r, path) :: RingCell(At(st, c), s)
    ensures path != [] ==> r in OnPath(st, r, path)
    decreases |path|
  {
    if path != [] {
      var k := At(st, r).kids[path[0]];
      PathRing(st, k, path[1..], s);
      assert k in s;
    }
  }

  /** A pass ties an argument that mentions its own parameter into a circle, if it comes by. */
  lemma {:induction false} TiePath(st: Store, fuel: nat, r: nat, p: seq<nat>, q: seq<nat>, i: nat, args: seq<nat>)
    requires Pass(st, fuel, r, args).Done? && i < |args| && !At(st, args[i]).node.LParam?
    requires Open(st, r, p) && Follow(st, r, p) == args[i]
    requires q != [] && Open(st, args[i], q) && Aimed(st, Follow(st, args[i], q), i, args)
    ensures var o := Pass(st, fuel, r, args); Circular(o.st, o.ref)
  {
    hide Pass, Rewired, Open, Follow, OnPath, Visible;
    var o := Pass(st, fuel, r, args);
    FollowOn(st, r, p, q);
    FillPath(st, fuel, r, p + q, i, args);
    PassRewires(st, fuel, r, args);
    AimedStays(args, st, o.st, r, p, i);
    FollowOn(o.st, r, p, q);
    assert o.ref == r by { OpenIsVisible(st, r, p + q); }
    var s := OnPath(o.st, r, p + q);
    PathRing(o.st, args[i], q, OnPath(o.st, args[i], q) + {args[i]});
    PathRing(o.st, r, p + q, s);
    assert Ring(o.st, s);
  }

  lemma OpenIsVisible(st: Store, r: nat, path: seq<nat>)
    requires path != [] && Open(st, r, path)
    ensures Visible(At(st, r).node)
  {
  }

  // ----- Declarations that tie their arguments -----

  lemma SeenByKids(u: Type, i: nat) returns (k: nat)
    requires Visible(LabelOf(u)) && i in Seen(u)
    ensures k < |Kids(u)| && i in Seen(Kids(u)[k])
  {
    match u
    case Struct(fs) =>
      SeenInFields(fs);
      k :| 0 <= k < |fs| && i in Seen(fs[k].typ);
    case Map(a, _) => k := if i in Seen(a) then 0 else 1;
    case List(_) => k := 0;
    case Config(_) => k := 0;
    case Pointer(_) => k := 0;
    case Optional(_) => k := 0;
    case Named(_, ts) =>
      SeenInTypes(ts);
      k :| 0 <= k < |ts| && i in Seen(ts[k]);
  }

  lemma {:induction false} PathTo(st: Store, r: nat, u: Type, i: nat) returns (path: seq<nat>)
    requires Denotes(st, r, u) && i in Seen(u)
    ensures Open(st, r, path) && At(st, Follow(st, r, path)).node == LParam(i) && (path == [] <==> u.Param?)
    decreases u
  {
    hide Seen;
    if u.Param? {
      path := [];
      assert u.idx == i by { SeenParam(u, i); }
    } else {
      assert Visible(LabelOf(u)) by { SeenVisible(u, i); }
      var k := SeenByKids(u, i);
      var rest := PathTo(st, st[r].kids[k], Kids(u)[k], i);
      path := [k] + rest;
      assert path[1..] == rest;
    }
  }

  lemma SeenParam(u: Type, i: nat)
    requires u.Param? && i in Seen(u)
    ensures u.idx == i
  {
  }

  lemma SeenVisible(u: Type, i: nat)
    requires !u.Param? && i in Seen(u)
    ensures Visible(LabelOf(u))
  {
  }

  /** The declaration is a pointer or option around a flat type with parameter i in it, and the argument for i
      is itself a type around parameter i. */
  ghost predicate SelfMention(ds: seq<Type>, id: nat, us: seq<Type>, i: nat) {
    && id < |ds| && IsWrapper(ds[id]) && IsFlat(Inside(ds[id])) && i in Seen(Inside(ds[id]))
    && i < |us| && !us[i].Param? && i in Seen(us[i])
  }

  lemma {:induction false} FlatStep(st: Store, n: nat, decls: seq<nat>, t: nat, u: Type, args: seq<nat>)
    requires Denotes(st, t, u) && IsFlat(u) && args != [] && Get(st, n, decls, t, args).Done?
    ensures n > 0 && Clone(st, n - 1, t).Done?
    ensures var c := Clone(st, n - 1, t);
            Get(st, n, decls, t, args) == PassKids(c.st, n - 1, c.ref, 0, |At(c.st, c.ref).kids|, args)
  {
    hide Clone, PassKids;
  }

  /** The flat type inside, after its own pass: parameter i has become the argument, which is as it was. */
  lemma {:induction false} FlatFilled(st: Store, n: nat, decls: seq<nat>, t: nat, u: Type, args: seq<nat>,
                                      us: seq<Type>, i: nat) returns (p: seq<nat>, q: seq<nat>)
    requires Denotes(st, t, u) && IsFlat(u) && AllDenote(st, args, us) && Get(st, n, decls, t, args).Done?
    requires i in Seen(u) && i < |us| && !us[i].Param? && i in Seen(us[i])
    ensures var o := Get(st, n, decls, t, args); Filled(o, p, q, i, args)
  {
    hide Get, Clone, PassKids, Denotes, Seen, Filled, Laid, LabelOf, Kids;
    assert args != [];
    FlatStep(st, n, decls, t, u, args);
    CloneCopies(st, n - 1, t, u);
    var c := Clone(st, n - 1, t);
    CopyDenotes(st, c, u);
    DenotesGrows(st, c.st, args[i], us[i]);
    p, q := CopyFilled(c.st, n - 1, c.ref, u, args, us[i], i);
  }

  /** Path p leads to the argument for i, and path q from there to parameter i or the argument again. */
  predicate Filled(o: Res, p: seq<nat>, q: seq<nat>, i: nat, args: seq<nat>) {
    && o.Done? && i < |args|
    && !At(o.st, args[i]).node.LParam? && Open(o.st, o.ref, p) && Follow(o.st, o.ref, p) == args[i]
    && q != [] && Open(o.st, args[i], q) && Aimed(o.st, Follow(o.st, args[i], q), i, args)
  }

  lemma {:induction false} CopyFilled(st: Store, n: nat, r: nat, u: Type, args: seq<nat>, a: Type, i: nat)
    returns (p: seq<nat>, q: seq<nat>)
    requires Denotes(st, r, u) && IsFlat(u) && i < |args| && Denotes(st, args[i], a)
    requires PassKids(st, n, r, 0, |At(st, r).kids|, args).Done?
    requires i in Seen(u) && !a.Param? && i in Seen(a)
    ensures Filled(PassKids(st, n, r, 0, |At(st, r).kids|, args), p, q, i, args)
  {
    hide PassKids, Denotes, Seen, Rewired, Open, Follow, LabelOf, Kids, Aimed;
    NotParam(st, args[i], a);
    p := PathTo(st, r, u, i);
    q := PathTo(st, args[i], a, i);
    var m := |At(st, r).kids|;
    assert p[0] < m by { PathBegins(st, r, p); }
    IsAimed(st, Follow(st, r, p), i, args);
    IsAimed(st, Follow(st, args[i], q), i, args);
    FillKids(st, n, r, 0, m, p, i, args);
    PassKidsRewires(st, n, r, 0, m, args);
    AimedStays(args, st, PassKids(st, n, r, 0, m, args).st, args[i], q, i);
  }

  lemma NotParam(st: Store, r: nat, t: Type)
    requires Denotes(st, r, t) && !t.Param?
    ensures !At(st, r).node.LParam?
  {
  }

  lemma IsAimed(st: Store, e: nat, i: nat, args: seq<nat>)
    requires At(st, e).node == LParam(i)
    ensures Aimed(st, e, i, args)
  {
  }

  lemma PathBegins(st: Store, r: nat, path: seq<nat>)
    requires path != [] && Open(st, r, path)
    ensures path[0] < |At(st, r).kids|
  {
  }

  lemma {:induction false} DeclIsCircular(st: Store, n: nat, decls: seq<nat>, d: nat, args: seq<nat>,
                                          decl: Type, us: seq<Type>, i: nat)
    requires Denotes(st, d, decl) && IsWrapper(decl) && IsFlat(Inside(decl)) && AllDenote(st, args, us)
    requires i in Seen(Inside(decl)) && i < |us| && !us[i].Param? && i in Seen(us[i])
    requires Get(st, n, decls, d, args).Done?
    ensures var o := Get(st, n, decls, d, args); Circular(o.st, o.ref)
  {
    hide Get, Clone, Pass, Denotes, Seen, Filled, Circular, Laid, Inside, LabelOf, Kids;
    var u := Inside(decl);
    WrapperNode(st, d, decl);
    WrapperDone(st, n, decls, d, args);
    CloneCopies(st, n - 1, At(st, d).kids[0], u);
    var c := Clone(st, n - 1, At(st, d).kids[0]);
    CopyDenotes(st, c, u);
    AllDenoteGrows(st, c.st, args, us);
    var p, q := FlatFilled(c.st, n - 2, decls, c.ref, u, args, us, i);
    WrappedTie(Get(c.st, n - 2, decls, c.ref, args), At(st, d).node, n - 1, p, q, i, args);
  }

  /** Looked up on its own, such a name gets a circle for a result, if any. */
  lemma {:induction false} SelfMentionIsCircular(st: Store, n: nat, decls: seq<nat>, t: nat, args: seq<nat>,
                                                 ds: seq<Type>, id: nat, us: seq<Type>, i: nat)
    requires AllDenote(st, decls, ds) && Denotes(st, t, Named(id, us)) && SelfMention(ds, id, us, i)
    requires Get(st, n, decls, t, args).Done?
    ensures var o := Get(st, n, decls, t, args); Circular(o.st, o.ref)
  {
    hide Get, Denotes, Seen, Circular, Inside, LabelOf, Kids;
    if n == 0 { NoFuel(st, decls, t, args); }
    NamedNode(st, t, id, us);
    NamedStep(st, n, decls, t, args);
    DeclIsCircular(st, n - 1, decls, decls[id], At(st, t).kids, ds[id], us, i);
  }

  lemma {:induction false} WrappedTie(o: Res, node: Label, n: nat, p: seq<nat>, q: seq<nat>, i: nat, args: seq<nat>)
    requires Filled(o, p, q, i, args) && Visible(node)
    requires Pass(o.st + [Cell(node, [o.ref])], n, |o.st|, args).Done?
    ensures var r := Pass(o.st + [Cell(node, [o.ref])], n, |o.st|, args); Circular(r.st, r.ref)
  {
    hide Pass, Circular;
    var st, w := o.st + [Cell(node, [o.ref])], |o.st|;
    OpenGrows(o.st, st, o.ref, p);
    OpenGrows(o.st, st, args[i], q);
    assert ([0] + p)[1..] == p;
    OpenIsVisible(o.st, args[i], q);
    TiePath(st, n, w, [0] + p, q, i, args);
  }

  /** In a pointer or option, with any arguments, such a name never gets a result. */
  lemma {:induction false} SelfMentionNeverDone(st: Store, n: nat, decls: seq<nat>, t: nat, args: seq<nat>,
                                                ds: seq<Type>, typ: Type, i: nat)
    requires AllDenote(st, decls, ds) && Denotes(st, t, typ) && IsWrapper(typ) && args != []
    requires Core(typ).Named? && SelfMention(ds, Core(typ).id, Core(typ).args, i)
    ensures !Get(st, n, decls, t, args).Done?
    decreases typ
  {
    hide Get, Clone, Pass, Denotes, SelfMention, Circular, Laid, LabelOf, Kids;
    WrapperNode(st, t, typ);
    if Get(st, n, decls, t, args).Done? {
      WrapperDone(st, n, decls, t, args);
      var b, u := At(st, t).kids[0], Inside(typ);
      CloneCopies(st, n - 1, b, u);
      var c := Clone(st, n - 1, b);
      CopyDenotes(st, c, u);
      AllDenoteGrows(st, c.st, decls, ds);
      var o := Get(c.st, n - 2, decls, c.ref, args);
      if IsWrapper(u) {
        SelfMentionNeverDone(c.st, n - 2, decls, c.ref, args, ds, u, i);
      } else {
        SelfMentionIsCircular(c.st, n - 2, decls, c.ref, args, ds, u.id, u.args, i);
        CircularOver(o.st, At(st, t).node, o.ref);
        CircularNeverDone(o.st + [Cell(At(st, t).node, [o.ref])], n - 1, |o.st|, args);
      }
    }
  }

  // ----- Arguments out of range -----

  lemma {:induction false} StillOutOfRange(u: Type, us: seq<Type>, i: nat, j: nat)
    requires InRange(u, |us|) && i in Seen(u) && i < |us| && j in Seen(us[i]) && j >= |us|
    ensures !InRange(Resolve(u, us), |us|)
  {
    hide Seen, InRange, Resolve;
    SeenAfterResolve(u, us);
    InRangeIffSeen(Resolve(u, us), |us|);
    assert j in Mentioned(us, Seen(u));
  }

  lemma {:induction false} FlatOutOfRange(st: Store, n: nat, decls: seq<nat>, t: nat, u: Type, args: seq<nat>,
                                          ds: seq<Type>, us: seq<Type>, i: nat, j: nat) returns (v: Type)
    requires IsCall(st, decls, t, args, ds, u, us) && IsFlat(u) && Get(st, n, decls, t, args).Done?
    requires i in Seen(u) && i < |us| && j in Seen(us[i]) && j >= |us|
    ensures var o := Get(st, n, decls, t, args); Denotes(o.st, o.ref, v) && !InRange(v, |us|)
  {
    hide Get, Denotes, Seen, InRange, Resolve, Alike, KeepsClosed;
    SettledOutcome(st, decls, t, args, ds, 0, u, us);
    StillOutOfRange(u, us, i, j);
    var o := Get(st, n, decls, t, args);
    v :| Denotes(o.st, o.ref, v) && Alike(Resolve(u, us), v);
    AlikeRange(Resolve(u, us), v, |us|);
  }

  lemma OverOutOfRange(st: Store, r: nat, v: Type, w: Type, n: nat)
    requires IsWrapper(w) && Denotes(st, r, v) && !InRange(v, n)
    ensures Denotes(st + [Cell(LabelOf(w), [r])], |st|, WithKids(w, [v])) && !InRange(WithKids(w, [v]), n)
  {
    DenotesGrows(st, st + [Cell(LabelOf(w), [r])], r, v);
  }

  lemma {:induction false} DeclOutOfRange(st: Store, n: nat, decls: seq<nat>, d: nat, args: seq<nat>,
                                          ds: seq<Type>, decl: Type, us: seq<Type>, i: nat, j: nat)
    requires IsCall(st, decls, d, args, ds, decl, us) && IsWrapper(decl) && IsFlat(Inside(decl))
    requires i in Seen(Inside(decl)) && i < |us| && j in Seen(us[i]) && j >= |us|
    ensures !Get(st, n, decls, d, args).Done?
  {
    hide Get, Clone, Pass, Denotes, Seen, Laid, Inside, LabelOf, Kids, InRange;
    var u := Inside(decl);
    WrapperNode(st, d, decl);
    if Get(st, n, decls, d, args).Done? {
      WrapperDone(st, n, decls, d, args);
      CloneCopies(st, n - 1, At(st, d).kids[0], u);
      var c := Clone(st, n - 1, At(st, d).kids[0]);
      CopyDenotes(st, c, u);
      GrownCall(st, c.st, decls, c.ref, args, ds, u, us);
      var v := FlatOutOfRange(c.st, n - 2, decls, c.ref, u, args, ds, us, i, j);
      var o := Get(c.st, n - 2, decls, c.ref, args);
      NodeOf(st, d, decl);
      OverOutOfRange(o.st, o.ref, v, decl, |us|);
      OutOfRangeNeverDone(o.st + [Cell(LabelOf(decl), [o.ref])], n - 1, |o.st|, WithKids(decl, [v]), args);
    }
  }

  /** A name whose declaration is a pointer or option around a flat type never gets a result if an argument for
      a parameter the declaration mentions itself mentions one beyond the arguments. */
  lemma {:induction false} WrappedDeclNeverDone(st: Store, n: nat, decls: seq<nat>, t: nat, args: seq<nat>,
                                                ds: seq<Type>, id: nat, us: seq<Type>, i: nat, j: nat)
    requires AllDenote(st, decls, ds) && Denotes(st, t, Named(id, us))
    requires id < |ds| && IsWrapper(ds[id]) && IsFlat(Inside(ds[id]))
    requires i in Seen(Inside(ds[id])) && i < |us| && j in Seen(us[i]) && j >= |us|
    ensures !Get(st, n, decls, t, args).Done?
  {
    hide Get, Denotes, Seen, Inside, LabelOf, Kids;
    if n == 0 {
      NoFuel(st, decls, t, args);
    } else {
      NamedNode(st, t, id, us);
      NamedStep(st, n, decls, t, args);
      DeclOutOfRange(st, n - 1, decls, decls[id], At(st, t).kids, ds, ds[id], us, i, j);
    }
  }
}
