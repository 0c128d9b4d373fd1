/** What a call leaves alone: which types and declarations it cannot have rewritten (parser/encoding/rpc.go). */
module TypeFrame {
  import opened TypeSubst
  import opened TypeLimits
  import opened TypeCells
  import opened TypeCopies
  import opened TypeInPlace
  import opened TypeSettled

  // ----- Cells from before a call, and cells made by it -----

  /** A cell made since, or a closed type from before. */
  ghost predicate Fixed(st: Store, base: nat, k: nat) {
    base <= k || (base <= |st| && exists u :: Denotes(st[..base], k, u) && Closed(u))
  }

  ghost predicate AllFixed(st: Store, base: nat, ks: seq<nat>) {
    forall j :: 0 <= j < |ks| ==> Fixed(st, base, ks[j])
  }

  /** From the cells made since, only closed types from before can be reached. */
  ghost predicate Fenced(st: Store, base: nat) {
    base <= |st| && forall c :: base <= c < |st| ==> AllFixed(st, base, st[c].kids)
  }

  /** The cells from before are as they were, and the fence stands. */
  ghost predicate Untouched(st: Store, st': Store, base: nat) {
    base <= |st| && base <= |st'| && st'[..base] == st[..base] && Fenced(st', base)
  }

  lemma FixedStays(st: Store, st': Store, base: nat, k: nat)
    requires Fixed(st, base, k) && base <= |st| && base <= |st'| && st'[..base] == st[..base]
    ensures Fixed(st', base, k)
  {
  }

  lemma AllFixedStays(st: Store, st': Store, base: nat, ks: seq<nat>)
    requires AllFixed(st, base, ks) && base <= |st| && base <= |st'| && st'[..base] == st[..base]
    ensures AllFixed(st', base, ks)
  {
    hide Fixed;
    forall j | 0 <= j < |ks| ensures Fixed(st', base, ks[j]) { FixedStays(st, st', base, ks[j]); }
  }

  lemma ClosedIsFixed(st: Store, base: nat, k: nat, u: Type)
    requires base <= |st| && Denotes(st[..base], k, u) && Closed(u)
    ensures Fixed(st, base, k)
  {
  }

  // ----- A pass -----

  lemma {:induction false} PassFenced(st: Store, fuel: nat, r: nat, args: seq<nat>, base: nat)
    requires Fenced(st, base) && AllFixed(st, base, args) && Fixed(st, base, r) && Pass(st, fuel, r, args).Done?
    ensures var o := Pass(st, fuel, r, args); Untouched(st, o.st, base) && Fixed(o.st, base, o.ref)
    decreases fuel, 0
  {
    hide PassKids, AllFixed, Fenced;
    assert base <= |st| by { FenceIsInside(st, base); }
    if r < base {
      var u :| Denotes(st[..base], r, u) && Closed(u);
      OldPassed(st, fuel, r, args, base, u);
    } else if Visible(At(st, r).node) {
      PassKidsFenced(st, fuel - 1, r, 0, |At(st, r).kids|, args, base);
    } else if At(st, r).node.LParam? {
      OneFixed(st, base, args, At(st, r).node.idx);
    }
  }

  lemma FenceIsInside(st: Store, base: nat)
    requires Fenced(st, base)
    ensures base <= |st|
  {
  }

  lemma OneFixed(st: Store, base: nat, ks: seq<nat>, j: nat)
    requires AllFixed(st, base, ks) && j < |ks|
    ensures Fixed(st, base, ks[j])
  {
  }

  lemma {:induction false} OldPassed(st: Store, fuel: nat, r: nat, args: seq<nat>, base: nat, u: Type)
    requires base <= |st| && Denotes(st[..base], r, u) && Closed(u) && Pass(st, fuel, r, args).Done?
    ensures Pass(st, fuel, r, args) == Done(st, r)
  {
    hide Pass, Denotes, Closed, Height;
    var n := fuel + Height(u);
    DenotesGrows(st[..base], st, r, u);
    PassClosed(st, n, r, u, args);
    PassFuel(st, fuel, n, r, args);
  }

  lemma {:induction false} PassKidsFenced(st: Store, fuel: nat, r: nat, i: nat, n: nat, args: seq<nat>, base: nat)
    requires Fenced(st, base) && AllFixed(st, base, args) && base <= r && PassKids(st, fuel, r, i, n, args).Done?
    ensures var o := PassKids(st, fuel, r, i, n, args); Untouched(st, o.st, base) && o.ref == r
    decreases fuel, n + 1
  {
    hide Pass, PassKids, AllFixed, Fenced, Fixed, SetKid;
    PassKidsStep(st, fuel, r, i, n, args);
    assert base <= |st| by { FenceIsInside(st, base); }
    if n > 0 && i < |At(st, r).kids| {
      var k := At(st, r).kids[i];
      KidIsFixed(st, base, r, i);
      PassFenced(st, fuel, k, args, base);
      var o := Pass(st, fuel, k, args);
      var st2 := SetKid(o.st, r, i, o.ref);
      LinkFenced(o.st, base, r, i, o.ref);
      AllFixedStays(st, st2, base, args);
      PassKidsFenced(st2, fuel, r, i + 1, n - 1, args, base);
    }
  }

  lemma KidIsFixed(st: Store, base: nat, r: nat, i: nat)
    requires Fenced(st, base) && base <= r && i < |At(st, r).kids|
    ensures Fixed(st, base, At(st, r).kids[i])
  {
    assert AllFixed(st, base, st[r].kids);
  }

  lemma {:induction false} LinkFenced(st: Store, base: nat, r: nat, i: nat, k: nat)
    requires Fenced(st, base) && base <= r && Fixed(st, base, k)
    ensures Untouched(st, SetKid(st, r, i, k), base)
  {
    hide Fixed;
    var st2 := SetKid(st, r, i, k);
    assert st2[..base] == st[..base];
    forall c | base <= c < |st2| ensures AllFixed(st2, base, st2[c].kids) {
      assert AllFixed(st, base, st[c].kids);
      forall j | 0 <= j < |st2[c].kids| ensures Fixed(st2, base, st2[c].kids[j]) {
        FixedStays(st, st2, base, if c == r && j == i then k else st[c].kids[j]);
      }
    }
  }

  // ----- A copy -----

  /** Every cell made since links only to cells made since. */
  predicate Apart(st: Store, base: nat) {
    forall c, j :: base <= c < |st| && 0 <= j < |st[c].kids| ==> base <= st[c].kids[j]
  }

  predicate AllFrom(base: nat, ks: seq<nat>) {
    forall j :: 0 <= j < |ks| ==> base <= ks[j]
  }

  lemma {:induction false} CloneApart(st: Store, fuel: nat, r: nat, base: nat)
    requires base <= |st| && Apart(st, base) && Clone(st, fuel, r).Done?
    ensures var o := Clone(st, fuel, r); st <= o.st && |st| <= o.ref < |o.st| && Apart(o.st, base)
    decreases fuel, 0
  {
    CloneKidsApart(st, fuel - 1, At(st, r).kids, base);
  }

  lemma {:induction false} CloneKidsApart(st: Store, fuel: nat, rs: seq<nat>, base: nat)
    requires base <= |st| && Apart(st, base) && CloneKids(st, fuel, rs).Copied?
    ensures var o := CloneKids(st, fuel, rs); st <= o.st && AllFrom(base, o.refs) && Apart(o.st, base)
    decreases fuel, |rs| + 1
  {
    if rs != [] {
      CloneKidsApart(st, fuel, rs[..|rs| - 1], base);
      CloneApart(CloneKids(st, fuel, rs[..|rs| - 1]).st, fuel, rs[|rs| - 1], base);
    }
  }

  lemma {:induction false} CloneFenced(st: Store, fuel: nat, r: nat, base: nat)
    requires Fenced(st, base) && Clone(st, fuel, r).Done?
    ensures var o := Clone(st, fuel, r); st <= o.st && Untouched(st, o.st, base) && base <= o.ref < |o.st|
  {
    hide Clone, Fixed;
    CloneApart(st, fuel, r, |st|);
    var o := Clone(st, fuel, r);
    forall c | base <= c < |o.st| ensures AllFixed(o.st, base, o.st[c].kids) {
      if c < |st| {
        AllFixedStays(st, o.st, base, st[c].kids);
      } else {
        MadeIsFixed(o.st, base, o.st[c].kids);
      }
    }
  }

  lemma MadeIsFixed(st: Store, base: nat, ks: seq<nat>)
    requires AllFrom(base, ks)
    ensures AllFixed(st, base, ks)
  {
  }

  lemma {:induction false} CopyFenced(st: Store, fuel: nat, t: nat, args: seq<nat>, base: nat)
    requires Fenced(st, base) && AllFixed(st, base, args) && PassOverCopy(st, fuel, t, args).Done?
    ensures var o := PassOverCopy(st, fuel, t, args); Untouched(st, o.st, base) && Fixed(o.st, base, o.ref)
  {
    hide Clone, PassKids, AllFixed, Fenced;
    CloneFenced(st, fuel, t, base);
    var c := Clone(st, fuel, t);
    AllFixedStays(st, c.st, base, args);
    PassKidsFenced(c.st, fuel, c.ref, 0, |At(c.st, c.ref).kids|, args, base);
  }

  lemma {:induction false} OverFenced(st: Store, base: nat, node: Label, r: nat)
    requires Fenced(st, base) && Fixed(st, base, r)
    ensures Untouched(st, st + [Cell(node, [r])], base)
  {
    hide Fixed;
    var st' := st + [Cell(node, [r])];
    assert st'[..base] == st[..base];
    FixedStays(st, st', base, r);
    forall c | base <= c < |st'| ensures AllFixed(st', base, st'[c].kids) {
      if c < |st| {
        assert AllFixed(st, base, st[c].kids);
        AllFixedStays(st, st', base, st[c].kids);
      }
    }
  }

  // ----- A whole call -----

  /** A call on a type from before returns no open type from before, neither as it is nor inside its result:
      a name that stands by itself is given closed arguments, and what is returned as it is is closed. */
  predicate Tame(ds: seq<Type>, depth: nat, t: Type, ts: seq<Type>)
    decreases depth, 1
  {
    if IsWrapper(t) && ts != [] then TameInside(ds, depth, t)
    else if t.Named? then AllClosed(t.args) && TameInside(ds, depth, t)
    else ts == [] ==> Closed(t)
  }

  predicate TameInside(ds: seq<Type>, depth: nat, t: Type)
    decreases depth, 0
  {
    var c := Core(t);
    c.Named? && c.id < |ds| && depth > 0 ==> Tame(ds, depth - 1, ds[c.id], c.args)
  }

  lemma {:induction false} TameLess(ds: seq<Type>, d: nat, e: nat, t: Type, ts: seq<Type>)
    requires d <= e
    ensures Tame(ds, e, t, ts) ==> Tame(ds, d, t, ts)
    ensures TameInside(ds, e, t) ==> TameInside(ds, d, t)
    decreases d
  {
    hide Closed;
    var c := Core(t);
    if c.Named? && c.id < |ds| && d > 0 {
      TameLess(ds, d - 1, e - 1, ds[c.id], c.args);
      assert TameInside(ds, e, t) ==> Tame(ds, e - 1, ds[c.id], c.args);
    }
    assert TameInside(ds, e, t) ==> TameInside(ds, d, t);
  }

  lemma TameName(ds: seq<Type>, depth: nat, t: Type, ts: seq<Type>)
    requires t.Named? && t.id < |ds| && depth > 0
    ensures TameInside(ds, depth, t) ==> Tame(ds, depth - 1, ds[t.id], t.args)
    ensures Tame(ds, depth, t, ts) ==> AllClosed(t.args) && TameInside(ds, depth, t)
  {
    hide Closed;
  }

  ghost predicate TameCall(st: Store, base: nat, fuel: nat, t: nat, ds: seq<Type>, typ: Type, ts: seq<Type>) {
    if t < base then base <= |st| && Denotes(st[..base], t, typ) && Tame(ds, fuel, typ, ts)
    else Denotes(st, t, typ) && ts != [] && TameInside(ds, fuel, typ)
  }

  lemma {:induction false} GetFenced(st: Store, fuel: nat, decls: seq<nat>, t: nat, args: seq<nat>,
                                     ds: seq<Type>, typ: Type, ts: seq<Type>, base: nat)
    requires Fenced(st, base) && base <= |st| && AllDenote(st[..base], decls, ds) && AllFixed(st, base, args)
    requires TameCall(st, base, fuel, t, ds, typ, ts) && |args| == |ts| && Get(st, fuel, decls, t, args).Done?
    ensures var o := Get(st, fuel, decls, t, args); Untouched(st, o.st, base) && Fixed(o.st, base, o.ref)
    decreases fuel
  {
    hide Get, GetWrapped, Denotes, Closed, Fenced, AllFixed, Fixed, Tame, LabelOf, Kids;
    if fuel == 0 { NoFuel(st, decls, t, args); }
    TypeOfCall(st, base, fuel, t, ds, typ, ts);
    if typ.Named? {
      NameFenced(st, fuel, decls, t, args, ds, typ, ts, base);
      var k := At(st, t).kids;
      GetFenced(st, fuel - 1, decls, decls[typ.id], k, ds, ds[typ.id], typ.args, base);
    } else if IsWrapper(typ) && ts != [] {
      WrapperNode(st, t, typ);
      WrapperDone(st, fuel, decls, t, args);
      CloneFenced(st, fuel - 1, At(st, t).kids[0], base);
      var c := Clone(st, fuel - 1, At(st, t).kids[0]);
      InsideCall(st, base, fuel, t, ds, typ, ts, c);
      AllFixedStays(st, c.st, base, args);
      GetFenced(c.st, fuel - 2, decls, c.ref, args, ds, Inside(typ), ts, base);
      WrapFenced(c.st, Get(c.st, fuel - 2, decls, c.ref, args), At(st, t).node, fuel - 1, args, base);
    } else {
      LeafFenced(st, fuel, decls, t, args, ds, typ, ts, base);
    }
  }

  lemma {:induction false} TypeOfCall(st: Store, base: nat, fuel: nat, t: nat, ds: seq<Type>, typ: Type, ts: seq<Type>)
    requires base <= |st| && TameCall(st, base, fuel, t, ds, typ, ts)
    ensures Denotes(st, t, typ)
  {
    if t < base { DenotesGrows(st[..base], st, t, typ); }
  }

  lemma {:induction false} InsideCall(st: Store, base: nat, fuel: nat, t: nat, ds: seq<Type>, typ: Type, ts: seq<Type>,
                                      c: Res)
    requires base <= |st| && TameCall(st, base, fuel, t, ds, typ, ts) && IsWrapper(typ) && ts != [] && fuel > 1
    requires Denotes(st, t, typ) && At(st, t).kids != [] && Clone(st, fuel - 1, At(st, t).kids[0]) == c && c.Done?
    requires base <= c.ref && Denotes(st, At(st, t).kids[0], Inside(typ))
    ensures TameCall(c.st, base, fuel - 2, c.ref, ds, Inside(typ), ts)
  {
    hide Denotes, Closed, Clone, Tame;
    CloneCopies(st, fuel - 1, At(st, t).kids[0], Inside(typ));
    CopyDenotes(st, c, Inside(typ));
    TameWrapper(ds, fuel, typ, ts);
    TameLess(ds, fuel - 2, fuel, Inside(typ), ts);
  }

  lemma TameWrapper(ds: seq<Type>, depth: nat, t: Type, ts: seq<Type>)
    requires IsWrapper(t) && ts != [] && (Tame(ds, depth, t, ts) || TameInside(ds, depth, t))
    ensures TameInside(ds, depth, Inside(t))
  {
    assert Core(t) == Core(Inside(t));
  }

  lemma {:induction false} WrapFenced(st: Store, o: Res, node: Label, n: nat, args: seq<nat>, base: nat)
    requires o.Done? && Untouched(st, o.st, base) && Fixed(o.st, base, o.ref) && AllFixed(st, base, args)
    requires Pass(o.st + [Cell(node, [o.ref])], n, |o.st|, args).Done?
    ensures var p := Pass(o.st + [Cell(node, [o.ref])], n, |o.st|, args);
            Untouched(st, p.st, base) && Fixed(p.st, base, p.ref)
  {
    hide Pass, AllFixed, Fenced;
    var st3 := o.st + [Cell(node, [o.ref])];
    OverFenced(o.st, base, node, o.ref);
    AllFixedStays(st, st3, base, args);
    PassFenced(st3, n, |o.st|, args, base);
  }

  lemma {:induction false} NameFenced(st: Store, fuel: nat, decls: seq<nat>, t: nat, args: seq<nat>,
                                      ds: seq<Type>, typ: Type, ts: seq<Type>, base: nat)
    requires Fenced(st, base) && base <= |st| && AllDenote(st[..base], decls, ds) && typ.Named? && Denotes(st, t, typ)
    requires TameCall(st, base, fuel, t, ds, typ, ts) && Get(st, fuel, decls, t, args).Done? && fuel > 0
    ensures typ.id < |ds| && |At(st, t).kids| == |typ.args| && AllFixed(st, base, At(st, t).kids)
    ensures Get(st, fuel, decls, t, args) == Get(st, fuel - 1, decls, decls[typ.id], At(st, t).kids)
    ensures TameCall(st, base, fuel - 1, decls[typ.id], ds, ds[typ.id], typ.args)
  {
    hide Get, Closed, Fixed, Tame, TameInside;
    var ks := At(st, t).kids;
    assert typ.id < |decls| by { UnknownName(st, fuel, decls, t, args); }
    NamedStep(st, fuel, decls, t, args);
    TameName(ds, fuel, typ, ts);
    assert decls[typ.id] < base;
    if t < base {
      KidsOfNamed(st[..base], t, typ);
      forall j | 0 <= j < |ks| ensures Fixed(st, base, ks[j]) { ClosedIsFixed(st, base, ks[j], typ.args[j]); }
    } else {
      assert AllFixed(st, base, st[t].kids);
    }
  }

  lemma UnknownName(st: Store, fuel: nat, decls: seq<nat>, t: nat, args: seq<nat>)
    requires At(st, t).node.LNamed? && Get(st, fuel, decls, t, args).Done?
    ensures At(st, t).node.id < |decls|
  {
  }

  lemma {:induction false} LeafFenced(st: Store, fuel: nat, decls: seq<nat>, t: nat, args: seq<nat>,
                                      ds: seq<Type>, typ: Type, ts: seq<Type>, base: nat)
    requires Fenced(st, base) && base <= |st| && AllFixed(st, base, args) && Denotes(st, t, typ)
    requires TameCall(st, base, fuel, t, ds, typ, ts) && |args| == |ts|
    requires Get(st, fuel, decls, t, args).Done? && fuel > 0
    requires !typ.Named? && (IsWrapper(typ) ==> ts == [])
    ensures var o := Get(st, fuel, decls, t, args); Untouched(st, o.st, base) && Fixed(o.st, base, o.ref)
  {
    hide PassOverCopy, Fenced, AllFixed, Fixed, GetWrapped;
    if typ.Builtin? || typ.Literal? || ts == [] {
      assert Get(st, fuel, decls, t, args) == Done(st, t);
      if t < base { ClosedIsFixed(st, base, t, typ); } else { MadeFixed(st, base, t); }
    } else {
      assert Get(st, fuel, decls, t, args) == PassOverCopy(st, fuel - 1, t, args);
      CopyFenced(st, fuel - 1, t, args, base);
    }
  }

  lemma MadeFixed(st: Store, base: nat, k: nat)
    requires base <= k
    ensures Fixed(st, base, k)
  {
  }

  // ----- Calls that change nothing -----

  /** A tame call with closed arguments changes no cell there was, and its result is a closed type or made anew. */
  lemma {:induction false} TameKeepsStore(st: Store, fuel: nat, decls: seq<nat>, t: nat, args: seq<nat>,
                                          ds: seq<Type>, typ: Type, ts: seq<Type>)
    requires IsCall(st, decls, t, args, ds, typ, ts) && AllClosed(ts) && Tame(ds, fuel, typ, ts)
    requires Get(st, fuel, decls, t, args).Done?
    ensures st <= Get(st, fuel, decls, t, args).st
  {
    hide Get, Denotes, Closed, Tame;
    var base := |st|;
    assert st[..base] == st;
    forall j | 0 <= j < |args| ensures Fixed(st, base, args[j]) { ClosedIsFixed(st, base, args[j], ts[j]); }
    assert t < base by { NodeOf(st, t, typ); }
    GetFenced(st, fuel, decls, t, args, ds, typ, ts, base);
  }

  lemma {:induction false} PlainIsTame(ds: seq<Type>, depth: nat, d: nat, typ: Type, ts: seq<Type>)
    requires IsPlain(ds, depth, typ, |ts|, false)
    ensures Tame(ds, d, typ, ts)
    decreases depth, typ, 1
  {
    hide InScope, TameInside;
    PlainInside(ds, depth, d, typ, |ts|, false);
    assert ts == [] ==> Closed(typ);
  }

  lemma {:induction false} PlainInside(ds: seq<Type>, depth: nat, d: nat, typ: Type, n: nat, wrapped: bool)
    requires IsPlain(ds, depth, typ, n, wrapped)
    ensures TameInside(ds, d, typ)
    decreases depth, typ, 0
  {
    hide InScope, UnionsClosed;
    if IsWrapper(typ) {
      PlainInside(ds, depth, d, Inside(typ), n, true);
      assert Core(typ) == Core(Inside(typ));
    } else if typ.Named? && d > 0 {
      var decl, us := ds[typ.id], typ.args;
      assert us == [] ==> Closed(decl);
      if !IsFlat(decl) && !IsUnexpanded(decl, us) { PlainIsTame(ds, depth - 1, d - 1, decl, us); }
    }
  }

  /** The shapes that are made concrete on values are made concrete on cells: the result is a cell of exactly the
      expanded type, and every type and declaration there was is as it was, cell by cell. */
  lemma {:induction false} CellsExpand(st: Store, decls: seq<nat>, t: nat, args: seq<nat>,
                                       ds: seq<Type>, depth: nat, typ: Type, ts: seq<Type>)
    requires IsCall(st, decls, t, args, ds, typ, ts) && AllClosed(ts)
    requires IsPlain(ds, depth, typ, |ts|, false) && !IsUnexpanded(typ, ts)
    ensures exists fuel: nat :: Get(st, fuel, decls, t, args).Done?
    ensures forall fuel: nat :: Get(st, fuel, decls, t, args) != More ==>
              var o := Get(st, fuel, decls, t, args);
              o.Done? && Denotes(o.st, o.ref, Expand(ds, depth, typ, ts, false)) && st <= o.st
  {
    hide Get, GetConcrete, Settled, IsCall, KeepsClosed, IsPlain, Expand, Closed, Denotes, Tame;
    var u := Expand(ds, depth, typ, ts, false);
    PlainIsSettled(ds, depth, typ, ts, false);
    ConcreteIsExpansion(ds, depth, typ, ts);
    SettledOutcome(st, decls, t, args, ds, depth, typ, ts);
    forall fuel: nat | Get(st, fuel, decls, t, args) != More
      ensures var o := Get(st, fuel, decls, t, args); Denotes(o.st, o.ref, u) && st <= o.st
    {
      var o := Get(st, fuel, decls, t, args);
      ClosedLooks(o.st, o.ref, u);
      PlainIsTame(ds, depth, fuel, typ, ts);
      TameKeepsStore(st, fuel, decls, t, args, ds, typ, ts);
    }
  }
}
