/** How complete the recorded references of the type registry are (pkg/clientgen/types.go). */
module TypeRecord {
  import opened Common
  import opened TypeRegistry

  // ----- What the record of a declaration holds when its visit ends -----

  /** b can be reached from a by a walk that stays in the given zone. */
  ghost predicate Within(decls: seq<Decl>, zone: seq<nat>, a: nat, b: nat) {
    exists p: seq<nat> :: |p| >= 2 && WalkFromTo(decls, p, a, b) && forall x <- p :: x in zone
  }

  /** The declarations at k up to hi are those discovered during the visit of the one at k.  All of them are
      reached inside that stretch and have given it their records; its record holds nothing discovered later;
      and it has taken over the record of every earlier declaration that is referred to from the stretch,
      except for those that were still being visited themselves. */
  ghost predicate Tidy(decls: seq<Decl>, s: State, k: nat, hi: nat) {
    && Block(decls, s, k, hi)
    && (forall j :: k <= j < hi ==> RefsOf(s.refs, s.order[j]) <= RefsOf(s.refs, s.order[k]))
    && (forall j :: k < j < hi ==> Within(decls, s.order[k..hi], s.order[k], s.order[j]))
    && (forall b <- RefsOf(s.refs, s.order[k]) :: b in s.order[..hi])
    && (forall y, v :: y in s.order[k..hi] && v in s.order[..k] && Edge(decls, y, v) ==>
          RefsOf(s.refs, v) <= RefsOf(s.refs, s.order[k]) || Reach(decls, v, s.order[k]))
  }

  ghost predicate IsTidy(decls: seq<Decl>, s: State, k: nat) {
    exists hi: nat :: Tidy(decls, s, k, hi)
  }

  /** Only discovered declarations are recorded, and possibly d. */
  ghost predicate KnownBut(s: State, d: Option<nat>) {
    forall a, b :: b in RefsOf(s.refs, a) ==> b in s.order || d == Some(b)
  }

  /** What a visit on behalf of `curr` does beyond extending s to r. */
  ghost predicate Gains(decls: seq<Decl>, s: State, r: State, curr: Option<nat>) {
    && |s.order| <= |r.order|
    && (forall j :: |s.order| <= j < |r.order| ==> IsTidy(decls, r, j))
    && (forall j, v :: |s.order| <= j < |r.order| && v in s.order && curr != Some(v) && Edge(decls, r.order[j], v) ==>
          RefsOf(r.refs, v) <= RefsOf(r.refs, r.order[j]))
  }

  /** `curr` has taken over the records of what was discovered, and reaches it. */
  ghost predicate Absorbs(decls: seq<Decl>, s: State, r: State, c: nat, ids: seq<nat>) {
    && |s.order| <= |r.order|
    && (forall j :: |s.order| <= j < |r.order| ==> RefsOf(r.refs, r.order[j]) <= RefsOf(r.refs, c))
    && (forall j :: |s.order| <= j < |r.order| ==> Within(decls, [c] + r.order[|s.order|..], c, r.order[j]))
    && (forall id <- ids :: id != c ==> RefsOf(r.refs, id) <= RefsOf(r.refs, c))
  }

  lemma AddKeepsKnown(s: State, c: nat, tos: set<nat>, d: Option<nat>)
    requires KnownBut(s, None) && forall b <- tos :: b in s.order || d == Some(b)
    ensures KnownBut(AddRefs(s, c, tos), d)
  {
    var r := AddRefs(s, c, tos);
    forall a, b | b in RefsOf(r.refs, a) ensures b in s.order || d == Some(b) {
      if b !in tos { assert b in RefsOf(s.refs, a); }
    }
  }

  lemma WithinReaches(decls: seq<Decl>, zone: seq<nat>, a: nat, b: nat)
    requires Within(decls, zone, a, b)
    ensures Reach(decls, a, b)
  {
  }

  lemma WithinWider(decls: seq<Decl>, zone: seq<nat>, wide: seq<nat>, a: nat, b: nat)
    requires Within(decls, zone, a, b) && forall x <- zone :: x in wide
    ensures Within(decls, wide, a, b)
  {
  }

  lemma WithinEdge(decls: seq<Decl>, zone: seq<nat>, a: nat, b: nat)
    requires Edge(decls, a, b) && a in zone && b in zone
    ensures Within(decls, zone, a, b)
  {
    assert WalkFromTo(decls, [a, b], a, b);
  }

  lemma WithinPrefix(decls: seq<Decl>, zone: seq<nat>, c: nat, a: nat, b: nat)
    requires Edge(decls, c, a) && c in zone && Within(decls, zone, a, b)
    ensures Within(decls, zone, c, b)
  {
    var p: seq<nat> :| |p| >= 2 && WalkFromTo(decls, p, a, b) && forall x <- p :: x in zone;
    var q := [c] + p;
    forall i | 0 <= i < |q| - 1 ensures Edge(decls, q[i], q[i + 1]) {
      if i > 0 { assert Edge(decls, p[i - 1], p[i]); }
    }
    assert WalkFromTo(decls, q, c, b);
  }

  /** A finished visit stays tidy while the record of an earlier declaration that reaches it grows. */
  lemma {:induction false} TidyStays(decls: seq<Decl>, s: State, r: State, curr: Option<nat>, j: nat)
    requires IsTidy(decls, s, j) && OnlyGrows(s, r, curr) && Distinct(r.order) && j < |s.order|
    requires curr.Some? ==> curr.value in s.order[..j] && Reach(decls, curr.value, s.order[j])
    ensures IsTidy(decls, r, j)
  {
    hide Reach, Within, Block;
    var hi: nat :| Tidy(decls, s, j, hi);
    assert j < hi <= |s.order| by { BlockBounds(decls, s, j, hi); }
    BlockStays(decls, s, r, curr, j, hi);
    assert r.order[..hi] == s.order[..hi] && r.order[j..hi] == s.order[j..hi] && r.order[..j] == s.order[..j];
    forall i | j <= i < hi
      ensures r.order[i] == s.order[i] && RefsOf(r.refs, r.order[i]) == RefsOf(s.refs, s.order[i])
    {
      assert r.order[i] !in r.order[..j];
      assert s.order[i] in s.order;
    }
    forall y, v | y in r.order[j..hi] && v in r.order[..j] && Edge(decls, y, v)
      ensures RefsOf(r.refs, v) <= RefsOf(r.refs, r.order[j]) || Reach(decls, v, r.order[j])
    {
      assert v in s.order;
    }
    assert Tidy(decls, r, j, hi);
  }

  lemma BlockBounds(decls: seq<Decl>, s: State, k: nat, hi: nat)
    requires Block(decls, s, k, hi)
    ensures k < hi <= |s.order|
  {
  }

  lemma {:induction false} VisitDeclTidy(decls: seq<Decl>, s: State, d: nat)
    requires Known(decls, s) && d < |decls| && Distinct(s.order) && KnownBut(s, Some(d))
    ensures var r := VisitDecl(decls, s, d);
            && KnownBut(r, None) && Gains(decls, s, r, None)
            && (d !in s.order ==>
                  forall j :: |s.order| <= j < |r.order| ==> RefsOf(r.refs, r.order[j]) <= RefsOf(r.refs, d))
            && (d !in s.order ==>
                  forall j :: |s.order| < j < |r.order| ==> Within(decls, r.order[|s.order|..], d, r.order[j]))
    decreases Unseen(decls, s), 0
  {
    if d !in s.order {
      var ids, k := Refs(decls[d].typ), |s.order|;
      var s1 := s.(order := s.order + [d]);
      assert d in Unseen(decls, s) && d !in Unseen(decls, s1);
      DistinctSnoc(s.order, d);
      EdgesAreRefs(decls, d);
      VisitIdsTidy(decls, s1, Some(d), ids);
      VisitDeclExtends(decls, s, d);
      NewDeclTidy(decls, s, d, VisitIds(decls, s1, Some(d), ids));
    }
  }

  lemma {:induction false} NewDeclTidy(decls: seq<Decl>, s: State, d: nat, r: State)
    requires d < |decls| && d !in s.order && Block(decls, r, |s.order|, |r.order|) && s.order + [d] <= r.order
    requires var s1 := s.(order := s.order + [d]);
             Gains(decls, s1, r, Some(d)) && Absorbs(decls, s1, r, d, Refs(decls[d].typ)) && KnownBut(r, None)
    ensures Gains(decls, s, r, None)
    ensures forall j :: |s.order| <= j < |r.order| ==> RefsOf(r.refs, r.order[j]) <= RefsOf(r.refs, d)
    ensures forall j :: |s.order| < j < |r.order| ==> Within(decls, r.order[|s.order|..], d, r.order[j])
  {
    hide Within, Block, Reach, Edge;
    EdgesAreRefs(decls, d);
    var k, hi := |s.order|, |r.order|;
    assert r.order[k] == d && r.order[k..] == [d] + r.order[k + 1..];
    forall j, v | k <= j < hi && v in s.order && Edge(decls, r.order[j], v)
      ensures RefsOf(r.refs, v) <= RefsOf(r.refs, r.order[j])
    {
      if j == k { assert v in Refs(decls[d].typ); } else { assert v in s.order + [d]; }
    }
    assert r.order[k..hi] == r.order[k..] && r.order[..k] == s.order && r.order[..hi] == r.order;
    forall y, v | y in r.order[k..hi] && v in r.order[..k] && Edge(decls, y, v)
      ensures RefsOf(r.refs, v) <= RefsOf(r.refs, r.order[k])
    {
      var j :| k <= j < hi && r.order[j] == y;
    }
    assert Tidy(decls, r, k, hi);
    forall j | k <= j < hi ensures IsTidy(decls, r, j) {
      if j > k { assert j >= |s.order + [d]|; }
    }
  }

  lemma {:induction false} VisitIdTidy(decls: seq<Decl>, s: State, curr: Option<nat>, to: nat)
    requires Known(decls, s) && to < |decls| && Distinct(s.order) && KnownBut(s, None)
    requires curr.Some? ==> curr.value in s.order && Edge(decls, curr.value, to)
    ensures var r := VisitId(decls, s, curr, to);
            && KnownBut(r, None) && Gains(decls, s, r, curr)
            && (curr.Some? ==> Absorbs(decls, s, r, curr.value, [to]))
    decreases Unseen(decls, s), 1
  {
    if curr.None? {
      VisitDeclTidy(decls, s, to);
    } else {
      var c := curr.value;
      var s1 := AddRefs(s, c, {to});
      AddKeepsKnown(s, c, {to}, Some(to));
      VisitDeclTidy(decls, s1, to);
      VisitDeclExtends(decls, s1, to);
      VisitDeclDistinct(decls, s1, to);
      OneRefTidy(decls, s1, c, to, VisitDecl(decls, s1, to));
    }
  }

  lemma {:induction false} OneRefTidy(decls: seq<Decl>, s: State, c: nat, to: nat, m: State)
    requires c in s.order && Edge(decls, c, to) && OnlyGrows(s, m, None) && Distinct(m.order) && KnownBut(m, None)
    requires Gains(decls, s, m, None) && to in m.order
    requires to !in s.order ==> |s.order| < |m.order| && m.order[|s.order|] == to
    requires to !in s.order ==>
               forall j :: |s.order| <= j < |m.order| ==> RefsOf(m.refs, m.order[j]) <= RefsOf(m.refs, to)
    requires to !in s.order ==>
               forall j :: |s.order| < j < |m.order| ==> Within(decls, m.order[|s.order|..], to, m.order[j])
    requires to in s.order ==> m.order == s.order
    ensures var r := AddRefs(m, c, RefsOf(m.refs, to));
            KnownBut(r, None) && Gains(decls, s, r, Some(c)) && Absorbs(decls, s, r, c, [to])
  {
    hide Within, Block, Tidy;
    var k, r := |s.order|, AddRefs(m, c, RefsOf(m.refs, to));
    var zone := [c] + r.order[k..];
    assert OnlyGrows(m, r, Some(c));
    AddKeepsKnown(m, c, RefsOf(m.refs, to), None);
    forall j | k <= j < |m.order|
      ensures Within(decls, zone, c, r.order[j]) && r.order[j] != c && Reach(decls, c, r.order[j])
    {
      assert m.order[k] in m.order[k..] && m.order[j] in m.order[k..];
      if j == k {
        WithinEdge(decls, zone, c, to);
      } else {
        WithinWider(decls, m.order[k..], zone, to, m.order[j]);
        WithinPrefix(decls, zone, c, to, m.order[j]);
      }
      WithinReaches(decls, zone, c, r.order[j]);
      var i :| 0 <= i < |s.order| && s.order[i] == c;
      assert m.order[i] == c;
    }
    forall j | k <= j < |m.order| ensures IsTidy(decls, r, j) {
      assert c in m.order[..j] by { var i :| 0 <= i < |s.order| && s.order[i] == c; assert m.order[..j][i] == c; }
      TidyStays(decls, m, r, Some(c), j);
    }
  }

  lemma {:induction false} VisitIdsTidy(decls: seq<Decl>, s: State, curr: Option<nat>, ids: seq<nat>)
    requires Known(decls, s) && InRange(decls, ids) && Distinct(s.order) && KnownBut(s, None)
    requires curr.Some? ==> curr.value in s.order && forall id <- ids :: Edge(decls, curr.value, id)
    ensures var r := VisitIds(decls, s, curr, ids);
            && KnownBut(r, None) && Gains(decls, s, r, curr)
            && (curr.Some? ==> Absorbs(decls, s, r, curr.value, ids))
    decreases Unseen(decls, s), |ids| + 1
  {
    if ids != [] {
      var m := VisitId(decls, s, curr, ids[0]);
      VisitIdTidy(decls, s, curr, ids[0]);
      VisitIdExtends(decls, s, curr, ids[0]);
      VisitOne(decls, s, curr, ids[0]);
      VisitIdsDistinct(decls, s, curr, [ids[0]]);
      VisitIdsTidy(decls, m, curr, ids[1..]);
      VisitIdsExtends(decls, m, curr, ids[1..]);
      VisitIdsDistinct(decls, m, curr, ids[1..]);
      var r := VisitIds(decls, m, curr, ids[1..]);
      assert ids == [ids[0]] + ids[1..] && ids[0] in [ids[0]];
      GainsTrans(decls, s, m, r, curr);
      if curr.Some? { AbsorbsTrans(decls, s, m, r, curr.value, ids[0], ids[1..]); }
    }
  }

  lemma {:induction false} GainsTrans(decls: seq<Decl>, s: State, m: State, r: State, curr: Option<nat>)
    requires OnlyGrows(s, m, curr) && OnlyGrows(m, r, curr) && Distinct(r.order)
    requires Gains(decls, s, m, curr) && Gains(decls, m, r, curr)
    requires curr.Some? ==> curr.value in s.order && Absorbs(decls, s, m, curr.value, [])
    ensures Gains(decls, s, r, curr)
  {
    hide Within, Tidy;
    forall j | |s.order| <= j < |r.order| ensures IsTidy(decls, r, j) {
      if j < |m.order| {
        if curr.Some? {
          var c := curr.value;
          WithinReaches(decls, [c] + m.order[|s.order|..], c, m.order[j]);
          var i :| 0 <= i < |s.order| && s.order[i] == c;
          assert m.order[..j][i] == c;
        }
        TidyStays(decls, m, r, curr, j);
      }
    }
    forall j, v | |s.order| <= j < |r.order| && v in s.order && curr != Some(v) && Edge(decls, r.order[j], v)
      ensures RefsOf(r.refs, v) <= RefsOf(r.refs, r.order[j])
    {
      assert v in m.order;
      if j < |m.order| { assert r.order[j] == m.order[j]; }
    }
  }

  lemma {:induction false} AbsorbsTrans(decls: seq<Decl>, s: State, m: State, r: State, c: nat, id: nat, ids: seq<nat>)
    requires OnlyGrows(s, m, Some(c)) && OnlyGrows(m, r, Some(c)) && id in m.order
    requires Absorbs(decls, s, m, c, [id]) && Absorbs(decls, m, r, c, ids)
    ensures Absorbs(decls, s, r, c, [id] + ids)
  {
    hide Within;
    var zone := [c] + r.order[|s.order|..];
    assert id in [id];
    forall j | |s.order| <= j < |r.order|
      ensures RefsOf(r.refs, r.order[j]) <= RefsOf(r.refs, c) && Within(decls, zone, c, r.order[j])
    {
      if j < |m.order| {
        assert r.order[j] == m.order[j];
        ZoneGrows(s.order, m.order, r.order, c);
        WithinWider(decls, [c] + m.order[|s.order|..], zone, c, r.order[j]);
      } else {
        ZoneShrinks(s.order, m.order, r.order, c);
        WithinWider(decls, [c] + r.order[|m.order|..], zone, c, r.order[j]);
      }
    }
  }

  lemma ZoneGrows(a: seq<nat>, b: seq<nat>, z: seq<nat>, c: nat)
    requires a <= b <= z
    ensures forall x <- [c] + b[|a|..] :: x in [c] + z[|a|..]
  {
    assert b[|a|..] <= z[|a|..];
  }

  lemma ZoneShrinks(a: seq<nat>, b: seq<nat>, z: seq<nat>, c: nat)
    requires a <= b <= z
    ensures forall x <- [c] + z[|b|..] :: x in [c] + z[|a|..]
  {
    assert z[|b|..] == z[|a|..][|b| - |a|..];
  }

  // ----- Results -----

  function Final(decls: seq<Decl>, ids: seq<nat>): (s: State)
    requires WellFormed(decls) && InRange(decls, ids)
    ensures InRange(decls, s.order)
  {
    VisitIds(decls, State([], map[]), None, ids)
  }

  ghost predicate AllTidy(decls: seq<Decl>, s: State) {
    Distinct(s.order) && forall k :: 0 <= k < |s.order| ==> IsTidy(decls, s, k)
  }

  lemma {:induction false} FinalIsTidy(decls: seq<Decl>, ids: seq<nat>)
    requires WellFormed(decls) && InRange(decls, ids)
    ensures AllTidy(decls, Final(decls, ids))
  {
    var s0 := State([], map[]);
    VisitIdsTidy(decls, s0, None, ids);
    VisitIdsDistinct(decls, s0, None, ids);
  }

  /** a was discovered before b. */
  predicate Before(order: seq<nat>, a: nat, b: nat) {
    a in order && b in order && IndexOf(order, a) < IndexOf(order, b)
  }

  /** Every element of p is discovered, and no earlier than a. */
  predicate NotBefore(order: seq<nat>, p: seq<nat>, a: nat) {
    a in order && forall x <- p :: x in order && IndexOf(order, a) <= IndexOf(order, x)
  }

  lemma {:induction false} IndexUnique(order: seq<nat>, k: nat)
    requires Distinct(order) && k < |order|
    ensures IndexOf(order, order[k]) == k
  {
  }

  /** The step from p[i] on leads from the stretch at k up to hi to an earlier declaration. */
  predicate LeavesAt(order: seq<nat>, k: nat, hi: nat, p: seq<nat>, i: nat) {
    k <= hi <= |order| && i + 1 < |p| && p[i] in order[k..hi] && p[i + 1] in order[..k]
  }

  /** From the stretch of a visit, a walk stays in it until it meets an earlier declaration. */
  lemma {:induction false} WalkLeaves(decls: seq<Decl>, s: State, k: nat, hi: nat, p: seq<nat>)
    requires Block(decls, s, k, hi) && |p| > 0 && Walk(decls, p) && p[0] in s.order[k..hi]
    ensures p[|p| - 1] in s.order[k..hi] || exists i: nat :: LeavesAt(s.order, k, hi, p, i)
    decreases |p|
  {
    if |p| > 1 {
      var init := p[..|p| - 1];
      InitWalks(decls, p);
      WalkLeaves(decls, s, k, hi, init);
      if init[|init| - 1] in s.order[k..hi] {
        var y, v := p[|p| - 2], p[|p| - 1];
        var j :| k <= j < hi && s.order[j] == y;
        assert Edge(decls, y, v) && Closed(decls, s, y, hi);
        assert s.order[..hi] == s.order[..k] + s.order[k..hi];
        assert v in s.order[k..hi] || LeavesAt(s.order, k, hi, p, |p| - 2);
      } else {
        var i: nat :| LeavesAt(s.order, k, hi, init, i);
        assert LeavesAt(s.order, k, hi, p, i);
      }
    }
  }

  lemma InitWalks(decls: seq<Decl>, p: seq<nat>)
    requires Walk(decls, p) && |p| > 1
    ensures Walk(decls, p[..|p| - 1])
  {
    var init := p[..|p| - 1];
    forall i | 0 <= i < |init| - 1 ensures Edge(decls, init[i], init[i + 1]) { assert Edge(decls, p[i], p[i + 1]); }
  }

  /** Exactly what was discovered later and is reached without passing an earlier declaration is recorded:
      a declaration discovered after a is in the record of a if and only if some walk leads from a to it
      through declarations discovered no earlier than a. */
  lemma {:induction false} LaterIsRecordedIff(decls: seq<Decl>, ids: seq<nat>, a: nat, b: nat)
    requires WellFormed(decls) && InRange(decls, ids) && Before(Final(decls, ids).order, a, b)
    ensures var s := Final(decls, ids);
            b in RefsOf(s.refs, a) <==>
              exists p: seq<nat> :: |p| >= 2 && WalkFromTo(decls, p, a, b) && NotBefore(s.order, p, a)
  {
    hide Final;
    var s := Final(decls, ids);
    FinalIsTidy(decls, ids);
    var k := IndexOf(s.order, a);
    assert IsTidy(decls, s, k);
    var hi: nat :| Tidy(decls, s, k, hi);
    if b in RefsOf(s.refs, a) {
      InStretch(decls, s, k, hi, a, b);
    }
    if p: seq<nat> :| |p| >= 2 && WalkFromTo(decls, p, a, b) && NotBefore(s.order, p, a) {
      StretchIsRecorded(decls, s, k, hi, p);
    }
  }

  lemma {:induction false} InStretch(decls: seq<Decl>, s: State, k: nat, hi: nat, a: nat, b: nat)
    requires AllTidy(decls, s) && Tidy(decls, s, k, hi)
    requires s.order[k] == a && b in RefsOf(s.refs, a) && Before(s.order, a, b)
    ensures exists p: seq<nat> :: |p| >= 2 && WalkFromTo(decls, p, a, b) && NotBefore(s.order, p, a)
  {
    hide Block, Reach, IsTidy;
    assert k < hi <= |s.order| by { BlockBounds(decls, s, k, hi); }
    IndexUnique(s.order, k);
    var j :| 0 <= j < hi && s.order[j] == b;
    IndexUnique(s.order, j);
    assert Within(decls, s.order[k..hi], a, b);
    var p: seq<nat> :| |p| >= 2 && WalkFromTo(decls, p, a, b) && forall x <- p :: x in s.order[k..hi];
    forall x <- p ensures x in s.order && k <= IndexOf(s.order, x) {
      var i :| k <= i < hi && s.order[i] == x;
      IndexUnique(s.order, i);
    }
  }

  lemma {:induction false} StretchIsRecorded(decls: seq<Decl>, s: State, k: nat, hi: nat, p: seq<nat>)
    requires Distinct(s.order) && Block(decls, s, k, hi) && |p| >= 2 && Walk(decls, p)
    requires p[0] == s.order[k] && NotBefore(s.order, p, p[0]) && Before(s.order, p[0], p[|p| - 1])
    ensures p[|p| - 1] in RefsOf(s.refs, p[0])
  {
    IndexUnique(s.order, k);
    assert s.order[k] in s.order[k..hi];
    WalkLeaves(decls, s, k, hi, p);
    forall i | 0 <= i < k ensures s.order[i] !in p { IndexUnique(s.order, i); }
    var b := p[|p| - 1];
    assert b in s.order[k..hi];
    var j :| k <= j < hi && s.order[j] == b;
    IndexUnique(s.order, j);
  }

  /** Everything that can be reached is recorded, and nothing else. */
  ghost predicate Complete(decls: seq<Decl>, s: State, a: nat) {
    forall b :: b in RefsOf(s.refs, a) <==> Reach(decls, a, b)
  }

  /** a lies on a cycle with a declaration discovered before it. */
  ghost predicate Late(decls: seq<Decl>, s: State, a: nat) {
    exists v :: Before(s.order, v, a) && Reach(decls, a, v) && Reach(decls, v, a)
  }

  ghost predicate From(decls: seq<Decl>, a: nat, x: nat) {
    x == a || Reach(decls, a, x)
  }

  /** Gaps start at late declarations: if those reachable from a are complete, so is a. */
  lemma {:induction false} GapsStartLate(decls: seq<Decl>, ids: seq<nat>, a: nat)
    requires WellFormed(decls) && InRange(decls, ids) && a in Final(decls, ids).order
    requires forall x ::
               From(decls, a, x) && Late(decls, Final(decls, ids), x) ==> Complete(decls, Final(decls, ids), x)
    ensures Complete(decls, Final(decls, ids), a)
  {
    FinalIsTidy(decls, ids);
    VisitIdsSound(decls, State([], map[]), None, ids);
    TidyIsComplete(decls, Final(decls, ids), a);
  }

  lemma {:induction false} TidyIsComplete(decls: seq<Decl>, s: State, a: nat)
    requires AllTidy(decls, s) && Sound(decls, s.refs) && a in s.order
    requires forall x :: From(decls, a, x) && Late(decls, s, x) ==> Complete(decls, s, x)
    ensures Complete(decls, s, a)
    decreases IndexOf(s.order, a)
  {
    hide Reach, Tidy, Walk;
    if !Late(decls, s, a) {
      var k := IndexOf(s.order, a);
      assert IsTidy(decls, s, k);
      var hi: nat :| Tidy(decls, s, k, hi);
      forall v | v in s.order[..k] && Reach(decls, a, v) ensures Complete(decls, s, v) && !Reach(decls, v, a) {
        EarlierIsBefore(s.order, v, a);
        forall x | From(decls, v, x) ensures From(decls, a, x) {
          if x != v { ReachTrans(decls, a, v, x); }
        }
        TidyIsComplete(decls, s, v);
      }
      forall b | Reach(decls, a, b) ensures b in RefsOf(s.refs, a) {
        ReachedIsRecorded(decls, s, k, hi, b);
      }
    }
  }

  lemma {:induction false} IndexFirst(s: seq<nat>, x: nat, i: nat)
    requires i < |s| && s[i] == x
    ensures IndexOf(s, x) <= i
  {
    if s[0] != x { IndexFirst(s[1..], x, i - 1); }
  }

  lemma EarlierIsBefore(order: seq<nat>, v: nat, a: nat)
    requires a in order && v in order[..IndexOf(order, a)]
    ensures Before(order, v, a)
  {
    var i :| 0 <= i < IndexOf(order, a) && order[i] == v;
    IndexFirst(order, v, i);
  }

  lemma {:induction false} ReachedIsRecorded(decls: seq<Decl>, s: State, k: nat, hi: nat, b: nat)
    requires Tidy(decls, s, k, hi) && k < |s.order| && Reach(decls, s.order[k], b)
    requires forall v :: v in s.order[..k] && Reach(decls, s.order[k], v) ==>
               Complete(decls, s, v) && !Reach(decls, v, s.order[k])
    ensures b in RefsOf(s.refs, s.order[k])
  {
    var a := s.order[k];
    var p: seq<nat> :| |p| >= 2 && WalkFromTo(decls, p, a, b);
    var n := |p|;
    var init := p[..n - 1];
    assert a in s.order[k..hi];
    InitWalks(decls, p);
    WalkLeaves(decls, s, k, hi, init);
    if p[n - 2] in s.order[k..hi] {
      assert Edge(decls, p[n - 2], p[n - 1]);
      EdgeIsRecorded(decls, s, k, hi, p[n - 2], b);
    } else {
      var i: nat :| LeavesAt(s.order, k, hi, init, i);
      var y, v := p[i], p[i + 1];
      assert init[i] == y && init[i + 1] == v && Edge(decls, y, v);
      PrefixReaches(decls, p, i + 1);
      SuffixReaches(decls, p, i + 1);
    }
  }

  lemma {:induction false} EdgeIsRecorded(decls: seq<Decl>, s: State, k: nat, hi: nat, y: nat, v: nat)
    requires Tidy(decls, s, k, hi) && y in s.order[k..hi] && Edge(decls, y, v)
    ensures v in RefsOf(s.refs, s.order[k])
  {
    var j :| k <= j < hi && s.order[j] == y;
    assert Closed(decls, s, s.order[j], hi);
  }

  lemma {:induction false} PrefixReaches(decls: seq<Decl>, p: seq<nat>, i: nat)
    requires Walk(decls, p) && 0 < i < |p|
    ensures Reach(decls, p[0], p[i])
  {
    var q := p[..i + 1];
    forall t | 0 <= t < |q| - 1 ensures Edge(decls, q[t], q[t + 1]) { assert Edge(decls, p[t], p[t + 1]); }
    assert WalkFromTo(decls, q, p[0], p[i]);
  }

  lemma {:induction false} SuffixReaches(decls: seq<Decl>, p: seq<nat>, i: nat)
    requires Walk(decls, p) && i < |p| - 1
    ensures Reach(decls, p[i], p[|p| - 1])
  {
    var q := p[i..];
    forall t | 0 <= t < |q| - 1 ensures Edge(decls, q[t], q[t + 1]) { assert Edge(decls, p[i + t], p[i + t + 1]); }
    assert WalkFromTo(decls, q, p[i], p[|p| - 1]);
  }

  /** Where no two declarations reachable from a refer to each other, directly or not, the record of a is
      exactly what can be reached from it; a declaration may still refer to itself. */
  lemma {:induction false} CompleteWithoutCycles(decls: seq<Decl>, ids: seq<nat>, a: nat)
    requires WellFormed(decls) && InRange(decls, ids) && a in Final(decls, ids).order
    requires forall x, y :: From(decls, a, x) && Reach(decls, x, y) && Reach(decls, y, x) ==> x == y
    ensures forall b :: b in RefsOf(Final(decls, ids).refs, a) <==> Reach(decls, a, b)
  {
    hide Reach;
    GapsStartLate(decls, ids, a);
  }
}
