/** When GetConcreteType returns and when it panics, for types with identity (parser/encoding/rpc.go). */
module TypeSettled {
  import opened TypeSubst
  import opened TypeLimits
  import opened TypeCells
  import opened TypeCopies
  import opened TypeInPlace

  // ----- A call on cells and the same call on values -----

  /** The cells of a call and the types they are. */
  predicate IsCall(st: Store, decls: seq<nat>, t: nat, args: seq<nat>, ds: seq<Type>, typ: Type, ts: seq<Type>) {
    AllDenote(st, decls, ds) && Denotes(st, t, typ) && AllDenote(st, args, ts)
  }

  /** The call went as the one on values did. */
  ghost predicate Matches(st: Store, o: Res, v: Outcome) {
    match v
    case Concrete(u) => o.Done? && Looks(o.st, o.ref, u) && KeepsClosed(st, o.st)
    case Unsupported => o == Unknown
    case Panics => o == Panic
    case Deeper => o == More
  }

  /** Every pass over a pointer or option is made with closed arguments.  (The other passes are over fresh
      copies, where it does not matter.) */
  predicate Settled(decls: seq<Type>, depth: nat, t: Type, args: seq<Type>)
    decreases depth
  {
    var c := Core(t);
    && (IsWrapper(t) ==> AllClosed(args))
    && (c.Named? && c.id < |decls| && depth > 0 && (IsWrapper(t) ==> args != []) ==>
          Settled(decls, depth - 1, decls[c.id], c.args))
  }

  lemma SettledFlat(ds: seq<Type>, depth: nat, t: Type, ts: seq<Type>)
    requires !IsWrapper(t) && !t.Named?
    ensures Settled(ds, depth, t, ts)
  {
  }

  lemma SettledName(ds: seq<Type>, depth: nat, t: Type, ts: seq<Type>)
    requires t.Named? && t.id < |ds| && depth > 0
    ensures Settled(ds, depth, t, ts) <==> Settled(ds, depth - 1, ds[t.id], t.args)
  {
  }

  lemma SettledWrapper(ds: seq<Type>, depth: nat, t: Type, ts: seq<Type>)
    requires IsWrapper(t) && ts != []
    ensures Settled(ds, depth, t, ts) <==> AllClosed(ts) && Settled(ds, depth, Inside(t), ts)
  {
    hide Closed;
    assert Core(t) == Core(Inside(t));
  }

  /** What a pointer or option is around, and the same around something else. */
  function Inside(t: Type): Type {
    match t
    case Pointer(b) => b
    case Optional(v) => v
    case _ => t
  }

  function Rewrap(t: Type, u: Type): Type {
    if t.Pointer? then Pointer(u) else Optional(u)
  }

  lemma KeepsGrown(st: Store, st': Store)
    requires st <= st'
    ensures KeepsClosed(st, st')
  {
    forall q, u | Denotes(st, q, u) && Closed(u) ensures Denotes(st', q, u) { DenotesGrows(st, st', q, u); }
  }

  lemma LooksSame(st: Store, r: nat, t: Type)
    requires Denotes(st, r, t)
    ensures Looks(st, r, t)
  {
    AlikeSame(t);
  }

  lemma CopyDenotes(st: Store, c: Res, t: Type)
    requires IsCopy(st, c, t)
    ensures Denotes(c.st, c.ref, t)
  {
    hide Denotes, Laid;
    LaidDenotes(c.st, c.ref, t, |st|);
    DenotesGrows(c.st[..c.ref + 1], c.st, c.ref, t);
  }

  lemma GrownCall(st: Store, st': Store, decls: seq<nat>, t: nat, args: seq<nat>, ds: seq<Type>, typ: Type,
                  ts: seq<Type>)
    requires st <= st' && AllDenote(st, decls, ds) && AllDenote(st, args, ts) && Denotes(st', t, typ)
    ensures IsCall(st', decls, t, args, ds, typ, ts)
  {
    AllDenoteGrows(st, st', decls, ds);
    AllDenoteGrows(st, st', args, ts);
  }

  // ----- A flat type or a union -----

  lemma {:induction false} CopyAgrees(st: Store, t: nat, args: seq<nat>, typ: Type, ts: seq<Type>)
    requires Denotes(st, t, typ) && AllDenote(st, args, ts)
    ensures var o := PassOverCopy(st, Height(typ), t, args);
            && (RestInRange(typ, 0, |ts|) ==> Matches(st, o, Concrete(WithKids(typ, ResolveAll(Kids(typ), ts)))))
            && (!RestInRange(typ, 0, |ts|) ==> o == Panic)
  {
    hide Denotes, Laid, Height, PassKids, Clone, ResolveAll, InRange, WithKids, Kids, Resolve, KeepsClosed, Looks;
    var n := Height(typ);
    CloneCopies(st, n, t, typ);
    var c := Clone(st, n, t);
    assert c.st[..|st|] == st;
    PassKidsFresh(c.st, n, c.ref, typ, |st|, |st|, args, ts);
    LaidNode(c.st, c.ref, typ, |st|);
    if RestInRange(typ, 0, |ts|) {
      PassedMatches(st, c.st, PassKids(c.st, n, c.ref, 0, |c.st[c.ref].kids|, args), c.ref,
                    WithKids(typ, ResolveAll(Kids(typ), ts)));
    }
  }

  lemma PassedMatches(st: Store, st1: Store, o: Res, r: nat, t: Type)
    requires st <= st1 && Passed(st1, o, r, |st|, t)
    ensures Matches(st, o, Concrete(t))
  {
    hide Denotes;
    DenotesGrows(o.st[..r + 1], o.st, o.ref, t);
    LooksSame(o.st, o.ref, t);
    assert st <= o.st;
    KeepsGrown(st, o.st);
  }

  lemma {:induction false} FlatIsCopy(decls: seq<Type>, depth: nat, t: Type, args: seq<Type>)
    requires IsFlat(t) || t.Union?
    requires args != []
    ensures GetConcrete(decls, depth, t, args)
            == if RestInRange(t, 0, |args|) then Concrete(WithKids(t, ResolveAll(Kids(t), args))) else Panics
  {
    if t.Union? {
      assert Kids(t) == t.types;
      assert RestInRange(t, 0, |args|) <==> forall i :: 0 <= i < |t.types| ==> InRange(t.types[i], |args|);
    } else {
      ResolveIsWithKids(t, args);
    }
  }

  // ----- A pointer or option -----

  lemma {:induction false} WrapAgrees(st: Store, o: Res, node: Label, u: Type, w: Type, args: seq<nat>, ts: seq<Type>)
    returns (n: nat)
    requires o.Done? && Looks(o.st, o.ref, u) && AllDenote(o.st, args, ts) && AllClosed(ts) && KeepsClosed(st, o.st)
    requires IsWrapper(w) && LabelOf(w) == node && Kids(w) == [u]
    ensures Matches(st, Pass(o.st + [Cell(node, [o.ref])], n, |o.st|, args), ResolveOrPanic(w, ts))
  {
    hide Pass, InRange, Resolve, Keeps, KeepsClosed, Slots, Closed, Height, Denotes, Alike;
    var v :| Denotes(o.st, o.ref, v) && Alike(u, v);
    var st3 := o.st + [Cell(node, [o.ref])];
    var w' := WithKids(w, [v]);
    WrapperLooks(o.st, o.ref, w, v);
    AllDenoteGrows(o.st, st3, args, ts);
    var b := HeightBound(ts);
    n := Height(w') + b;
    PartialSame(ts, w');
    PassInPlace(st3, n, |o.st|, w', w', args, ts, b);
    AlikeRange(w, w', |ts|);
    if InRange(w, |ts|) {
      AlikeResolve(w, w', ts);
      var p := Pass(st3, n, |o.st|, args);
      LooksAlike(p.st, p.ref, Resolve(w, ts), Resolve(w', ts));
      KeepsMeansClosed(ts, st3, p.st);
      KeepsGrown(o.st, st3);
      KeepsClosedTrans(st, o.st, st3);
      KeepsClosedTrans(st, st3, p.st);
    }
  }

  lemma KeepsClosedTrans(a: Store, b: Store, c: Store)
    requires KeepsClosed(a, b) && KeepsClosed(b, c)
    ensures KeepsClosed(a, c)
  {
    hide Denotes, Closed;
  }

  lemma LooksAlike(st: Store, r: nat, t: Type, u: Type)
    requires Alike(t, u) && Looks(st, r, u)
    ensures Looks(st, r, t)
  {
    hide Denotes, Alike;
    var v :| Denotes(st, r, v) && Alike(u, v);
    AlikeTrans(t, u, v);
  }

  lemma {:induction false} WrapperLooks(st: Store, r: nat, w: Type, v: Type)
    requires IsWrapper(w) && |Kids(w)| == 1 && Denotes(st, r, v) && Alike(Kids(w)[0], v)
    ensures Denotes(st + [Cell(LabelOf(w), [r])], |st|, WithKids(w, [v])) && Alike(w, WithKids(w, [v]))
  {
    DenotesGrows(st, st + [Cell(LabelOf(w), [r])], r, v);
  }

  lemma {:induction false} HeightBound(ts: seq<Type>) returns (b: nat)
    ensures Bounded(ts, b)
  {
    hide Height;
    b := 0;
    for i := 0 to |ts|
      invariant forall j :: 0 <= j < i ==> Height(ts[j]) <= b
    {
      if Height(ts[i]) > b { b := Height(ts[i]); }
    }
  }

  // ----- The whole call -----

  /** With closed arguments in every pass over a pointer or option, a call on cells goes as the one on values. */
  lemma {:induction false} GetAgrees(st: Store, decls: seq<nat>, t: nat, args: seq<nat>,
                                     ds: seq<Type>, depth: nat, typ: Type, ts: seq<Type>) returns (n: nat)
    requires IsCall(st, decls, t, args, ds, typ, ts) && Settled(ds, depth, typ, ts)
    requires !GetConcrete(ds, depth, typ, ts).Deeper?
    ensures Matches(st, Get(st, n, decls, t, args), GetConcrete(ds, depth, typ, ts))
    decreases depth, typ
  {
    hide Matches, Get, GetConcrete, Settled, Denotes, Kids, Closed;
    NodeOf(st, t, typ);
    if typ.Named? && typ.id < |ds| {
      SettledStep(ds, depth, typ, ts);
      KidsOfNamed(st, t, typ);
      n := GetAgrees(st, decls, decls[typ.id], st[t].kids, ds, depth - 1, ds[typ.id], typ.args);
      n := n + 1;
      NamedStep(st, n, decls, t, args);
    } else if IsWrapper(typ) && ts != [] {
      SettledStep(ds, depth, typ, ts);
      KidsOfWrapper(st, t, typ);
      var b, u := st[t].kids[0], Inside(typ);
      var h := Height(u);
      CloneCopies(st, h, b, u);
      var c := Clone(st, h, b);
      CopyDenotes(st, c, u);
      GrownCall(st, c.st, decls, c.ref, args, ds, u, ts);
      var m := GetAgrees(c.st, decls, c.ref, args, ds, depth, u, ts);
      n := WrapperAgrees(st, h, c, m, decls, t, args, ds, depth, typ, u, ts);
    } else {
      n := LeafAgrees(st, decls, t, args, ds, depth, typ, ts);
    }
  }

  lemma {:induction false} SettledStep(ds: seq<Type>, depth: nat, typ: Type, ts: seq<Type>)
    requires Settled(ds, depth, typ, ts) && !GetConcrete(ds, depth, typ, ts).Deeper?
    ensures typ.Named? && typ.id < |ds| ==>
              && depth > 0 && Settled(ds, depth - 1, ds[typ.id], typ.args)
              && GetConcrete(ds, depth, typ, ts) == GetConcrete(ds, depth - 1, ds[typ.id], typ.args)
    ensures IsWrapper(typ) && ts != [] ==>
              var u := Inside(typ);
              var v := GetConcrete(ds, depth, u, ts);
              && Settled(ds, depth, u, ts) && AllClosed(ts) && !v.Deeper?
              && GetConcrete(ds, depth, typ, ts)
                   == if v.Concrete? then ResolveOrPanic(Rewrap(typ, v.typ), ts) else v
  {
    hide Closed, ResolveOrPanic;
  }

  lemma KidsOfNamed(st: Store, t: nat, typ: Type)
    requires Denotes(st, t, typ) && typ.Named?
    ensures AllDenote(st, st[t].kids, typ.args)
  {
  }

  lemma KidsOfWrapper(st: Store, t: nat, typ: Type)
    requires Denotes(st, t, typ) && IsWrapper(typ)
    ensures |st[t].kids| == 1 && Denotes(st, st[t].kids[0], Inside(typ))
  {
    assert |Kids(typ)| == 1 && Kids(typ)[0] == Inside(typ);
  }

  lemma NamedStep(st: Store, n: nat, decls: seq<nat>, t: nat, args: seq<nat>)
    requires n > 0 && At(st, t).node.LNamed? && At(st, t).node.id < |decls|
    ensures Get(st, n, decls, t, args) == Get(st, n - 1, decls, decls[At(st, t).node.id], At(st, t).kids)
  {
  }

  lemma WrapperStep(st: Store, n: nat, decls: seq<nat>, t: nat, args: seq<nat>)
    requires n > 0 && (At(st, t).node.LPointer? || At(st, t).node.LOptional?) && args != []
    ensures Get(st, n, decls, t, args) == GetWrapped(st, n - 1, decls, At(st, t), args)
  {
    hide GetWrapped;
  }

  lemma WrapperNode(st: Store, t: nat, typ: Type)
    requires Denotes(st, t, typ) && IsWrapper(typ)
    ensures (At(st, t).node.LPointer? || At(st, t).node.LOptional?) && |At(st, t).kids| == 1
    ensures Denotes(st, At(st, t).kids[0], Inside(typ))
  {
    KidsOfWrapper(st, t, typ);
  }

  lemma NamedNode(st: Store, t: nat, id: nat, us: seq<Type>)
    requires Denotes(st, t, Named(id, us))
    ensures At(st, t).node == LNamed(id) && AllDenote(st, At(st, t).kids, us)
  {
    KidsOfNamed(st, t, Named(id, us));
  }

  lemma {:induction false} WrapperDone(st: Store, n: nat, decls: seq<nat>, t: nat, args: seq<nat>)
    requires (At(st, t).node.LPointer? || At(st, t).node.LOptional?) && args != [] && Get(st, n, decls, t, args).Done?
    ensures n > 1 && At(st, t).kids != [] && Clone(st, n - 1, At(st, t).kids[0]).Done?
    ensures var c := Clone(st, n - 1, At(st, t).kids[0]);
            var o := Get(c.st, n - 2, decls, c.ref, args);
            && o.Done?
            && Get(st, n, decls, t, args) == Pass(o.st + [Cell(At(st, t).node, [o.ref])], n - 1, |o.st|, args)
  {
    hide Get, Pass, Clone;
    if n == 0 { NoFuel(st, decls, t, args); }
    WrapperStep(st, n, decls, t, args);
  }

  lemma {:induction false} LeafAgrees(st: Store, decls: seq<nat>, t: nat, args: seq<nat>,
                                      ds: seq<Type>, depth: nat, typ: Type, ts: seq<Type>) returns (n: nat)
    requires IsCall(st, decls, t, args, ds, typ, ts)
    requires (typ.Named? ==> typ.id >= |ds|) && (IsWrapper(typ) ==> ts == [])
    ensures Matches(st, Get(st, n, decls, t, args), GetConcrete(ds, depth, typ, ts))
  {
    hide PassOverCopy, WithKids, ResolveAll, RestInRange, Looks, KeepsClosed, ResolveOrPanic, Height;
    LooksSame(st, t, typ);
    KeepsGrown(st, st);
    n := Height(typ) + 1;
    if (IsFlat(typ) || typ.Union?) && ts != [] {
      FlatIsCopy(ds, depth, typ, ts);
      CopyAgrees(st, t, args, typ, ts);
    }
  }

  /** The copy c of what is inside took h, and the call on that took m. */
  lemma {:induction false} WrapperAgrees(st: Store, h: nat, c: Res, m: nat, decls: seq<nat>, t: nat, args: seq<nat>,
                                         ds: seq<Type>, depth: nat, typ: Type, u: Type, ts: seq<Type>) returns (n: nat)
    requires IsCall(st, decls, t, args, ds, typ, ts) && AllClosed(ts) && ts != []
    requires typ == Pointer(u) || typ == Optional(u)
    requires At(st, t).kids != [] && Clone(st, h, At(st, t).kids[0]) == c && IsCopy(st, c, u)
    requires Matches(c.st, Get(c.st, m, decls, c.ref, args), GetConcrete(ds, depth, u, ts))
    requires var v := GetConcrete(ds, depth, u, ts);
             && !v.Deeper?
             && GetConcrete(ds, depth, typ, ts)
                  == if v.Concrete? then ResolveOrPanic(Rewrap(typ, v.typ), ts) else v
    ensures Matches(st, Get(st, n, decls, t, args), GetConcrete(ds, depth, typ, ts))
  {
    hide Pass, Get, GetWrapped, GetConcrete, Clone, Denotes, AllDenote, Closed, ResolveOrPanic, Keeps, KeepsClosed,
         Laid, Looks;
    NodeOf(st, t, typ);
    assert args != [] by { SameCount(st, args, ts); }
    var o, v := Get(c.st, m, decls, c.ref, args), GetConcrete(ds, depth, u, ts);
    var p := 0;
    if v.Concrete? {
      KeepsGrown(st, c.st);
      KeepsClosedTrans(st, c.st, o.st);
      ArgumentsStayClosed(st, o.st, args, ts);
      var w := Rewrap(typ, v.typ);
      p := WrapAgrees(st, o, LabelOf(typ), v.typ, w, args, ts);
    }
    n := h + m + p + 2;
    WrappedFuel(st, h, m, p, decls, t, args);
  }

  lemma SameCount(st: Store, rs: seq<nat>, ts: seq<Type>)
    requires AllDenote(st, rs, ts)
    ensures |rs| == |ts|
  {
  }

  /** The fuel for the copy, for the call on it and for the pass is enough for all three. */
  lemma {:induction false} WrappedFuel(st: Store, h: nat, m: nat, p: nat, decls: seq<nat>, t: nat, args: seq<nat>)
    requires var c := At(st, t); (c.node.LPointer? || c.node.LOptional?) && c.kids != [] && args != []
    requires Clone(st, h, At(st, t).kids[0]).Done?
    requires var c := Clone(st, h, At(st, t).kids[0]);
             var o := Get(c.st, m, decls, c.ref, args);
             o != More && (o.Done? ==> Pass(o.st + [Cell(At(st, t).node, [o.ref])], p, |o.st|, args) != More)
    ensures var c := Clone(st, h, At(st, t).kids[0]);
            var o := Get(c.st, m, decls, c.ref, args);
            Get(st, h + m + p + 2, decls, t, args)
              == if o.Done? then Pass(o.st + [Cell(At(st, t).node, [o.ref])], p, |o.st|, args) else o
  {
    hide Pass, Get, GetWrapped, Clone;
    var n := h + m + p + 2;
    var c := Clone(st, h, At(st, t).kids[0]);
    var o := Get(c.st, m, decls, c.ref, args);
    WrapperStep(st, n, decls, t, args);
    CloneFuel(st, h, n - 1, At(st, t).kids[0]);
    GetFuel(c.st, m, n - 2, decls, c.ref, args);
    WrappedStep(st, n - 1, decls, At(st, t), args);
    if o.Done? { PassFuel(o.st + [Cell(At(st, t).node, [o.ref])], p, n - 1, |o.st|, args); }
  }

  lemma WrappedStep(st: Store, n: nat, decls: seq<nat>, c: Cell, args: seq<nat>)
    requires n > 0 && c.kids != []
    ensures var b := Clone(st, n, c.kids[0]);
            b.Done? ==>
              var o := Get(b.st, n - 1, decls, b.ref, args);
              GetWrapped(st, n, decls, c, args)
                == if o.Done? then Pass(o.st + [Cell(c.node, [o.ref])], n, |o.st|, args) else o
  {
    hide Get, Pass, Clone;
  }

  lemma ArgumentsStayClosed(st: Store, st': Store, args: seq<nat>, ts: seq<Type>)
    requires KeepsClosed(st, st') && AllDenote(st, args, ts) && AllClosed(ts)
    ensures AllDenote(st', args, ts)
  {
    hide Denotes;
  }

  // ----- Without conditions: what never ends on values never ends on cells -----

  lemma {:induction false} DeeperNeedsMore(st: Store, fuel: nat, decls: seq<nat>, t: nat, args: seq<nat>,
                                           ds: seq<Type>, typ: Type, ts: seq<Type>)
    requires IsCall(st, decls, t, args, ds, typ, ts) && GetConcrete(ds, fuel, typ, ts).Deeper?
    ensures Get(st, fuel, decls, t, args) == More
    decreases fuel
  {
    hide Get, GetConcrete, Denotes, Kids, LabelOf, Inside, Laid;
    DeeperStep(ds, fuel, typ, ts);
    if fuel == 0 {
      NoFuel(st, decls, t, args);
    } else if typ.Named? {
      NamedNode(st, t, typ.id, typ.args);
      DeeperNeedsMore(st, fuel - 1, decls, decls[typ.id], At(st, t).kids, ds, ds[typ.id], typ.args);
      NamedStep(st, fuel, decls, t, args);
    } else {
      WrapperNode(st, t, typ);
      WrapperStep(st, fuel, decls, t, args);
      if fuel > 1 {
        var b, u := At(st, t).kids[0], Inside(typ);
        CloneCopies(st, fuel - 1, b, u);
        var c := Clone(st, fuel - 1, b);
        if c.Done? {
          CopyDenotes(st, c, u);
          GrownCall(st, c.st, decls, c.ref, args, ds, u, ts);
          DeeperNeedsMore(c.st, fuel - 2, decls, c.ref, args, ds, u, ts);
        }
      }
    }
  }

  lemma NoFuel(st: Store, decls: seq<nat>, t: nat, args: seq<nat>)
    ensures Get(st, 0, decls, t, args) == More
  {
  }

  lemma {:induction false} DeeperStep(ds: seq<Type>, depth: nat, typ: Type, ts: seq<Type>)
    requires GetConcrete(ds, depth, typ, ts).Deeper?
    ensures typ.Named? || (IsWrapper(typ) && ts != [])
    ensures typ.Named? && depth > 0 ==> typ.id < |ds| && GetConcrete(ds, depth - 1, ds[typ.id], typ.args).Deeper?
    ensures IsWrapper(typ) && depth > 1 ==>
              GetConcrete(ds, depth - 2, Inside(typ), ts).Deeper?
  {
    hide ResolveOrPanic;
    if IsWrapper(typ) && depth > 1 {
      var u := Inside(typ);
      assert GetConcrete(ds, depth, u, ts).Deeper?;
      if !GetConcrete(ds, depth - 2, u, ts).Deeper? { DepthIsEnough(ds, depth - 2, depth, u, ts); }
    }
  }

  // ----- When a call returns, when it panics, and with what -----

  /** A repeated visit means that the call never returns, whatever the store. */
  lemma {:induction false} RepeatedVisitNeverReturns(st: Store, decls: seq<nat>, t: nat, args: seq<nat>,
                                                     ds: seq<Type>, typ: Type, ts: seq<Type>)
    requires IsCall(st, decls, t, args, ds, typ, ts) && Repeats(ds, FirstVisit(ds, typ, ts != []))
    ensures forall fuel: nat :: Get(st, fuel, decls, t, args) == More
  {
    hide Get, GetConcrete, Repeats, FirstVisit;
    NeverReturnsIff(ds, typ, ts);
    forall fuel: nat ensures Get(st, fuel, decls, t, args) == More {
      DeeperNeedsMore(st, fuel, decls, t, args, ds, typ, ts);
    }
  }

  /** A settled call with any fuel needs more, or goes as the one on values; with enough fuel it does the latter. */
  lemma {:induction false} SettledOutcome(st: Store, decls: seq<nat>, t: nat, args: seq<nat>,
                                          ds: seq<Type>, depth: nat, typ: Type, ts: seq<Type>)
    requires IsCall(st, decls, t, args, ds, typ, ts) && Settled(ds, depth, typ, ts)
    requires !GetConcrete(ds, depth, typ, ts).Deeper?
    ensures forall fuel: nat :: Get(st, fuel, decls, t, args) == More
                                || Matches(st, Get(st, fuel, decls, t, args), GetConcrete(ds, depth, typ, ts))
    ensures exists fuel: nat :: Matches(st, Get(st, fuel, decls, t, args), GetConcrete(ds, depth, typ, ts))
  {
    hide Get, GetConcrete, Settled, IsCall, Looks, KeepsClosed;
    var n := GetAgrees(st, decls, t, args, ds, depth, typ, ts);
    forall fuel: nat | Get(st, fuel, decls, t, args) != More
      ensures Get(st, fuel, decls, t, args) == Get(st, n, decls, t, args)
    {
      if fuel <= n { GetFuel(st, fuel, n, decls, t, args); } else { GetFuel(st, n, fuel, decls, t, args); }
    }
  }

  /** A settled call never returns if and only if it enters a declaration twice with or twice without arguments. */
  lemma {:induction false} SettledReturnsIff(st: Store, decls: seq<nat>, t: nat, args: seq<nat>,
                                             ds: seq<Type>, typ: Type, ts: seq<Type>)
    requires IsCall(st, decls, t, args, ds, typ, ts) && Settled(ds, |ds| + 1, typ, ts)
    ensures (forall fuel: nat :: Get(st, fuel, decls, t, args) == More) <==> Repeats(ds, FirstVisit(ds, typ, ts != []))
  {
    hide Get, GetConcrete, Repeats, FirstVisit, Settled, IsCall, Looks, KeepsClosed;
    NeverReturnsIff(ds, typ, ts);
    if Repeats(ds, FirstVisit(ds, typ, ts != [])) {
      RepeatedVisitNeverReturns(st, decls, t, args, ds, typ, ts);
    } else {
      SettledOutcome(st, decls, t, args, ds, |ds| + 1, typ, ts);
    }
  }

  /** A settled call that returns panics if and only if a parameter gets out of range. */
  lemma {:induction false} SettledPanicsIff(st: Store, decls: seq<nat>, t: nat, args: seq<nat>,
                                            ds: seq<Type>, typ: Type, ts: seq<Type>)
    requires IsCall(st, decls, t, args, ds, typ, ts) && Settled(ds, |ds| + 1, typ, ts)
    requires !Repeats(ds, FirstVisit(ds, typ, ts != []))
    ensures (exists fuel: nat :: Get(st, fuel, decls, t, args) == Panic) <==> OutOfRange(ds, |ds| + 1, typ, ts)
  {
    hide Get, GetConcrete, Repeats, FirstVisit, Settled, IsCall, Looks, KeepsClosed, OutOfRange;
    NeverReturnsIff(ds, typ, ts);
    SettledOutcome(st, decls, t, args, ds, |ds| + 1, typ, ts);
    PanicsIffOutOfRange(ds, |ds| + 1, typ, ts);
  }

  lemma {:induction false} PlainIsSettled(ds: seq<Type>, depth: nat, typ: Type, ts: seq<Type>, wrapped: bool)
    requires IsPlain(ds, depth, typ, |ts|, wrapped) && AllClosed(ts)
    ensures Settled(ds, depth, typ, ts)
    decreases depth, typ
  {
    hide Closed, InScope, UnionsClosed;
    match typ
    case Pointer(b) => PlainIsSettled(ds, depth, b, ts, true);
    case Optional(v) => PlainIsSettled(ds, depth, v, ts, true);
    case Named(id, us) =>
      if !IsFlat(ds[id]) && !IsUnexpanded(ds[id], us) { PlainIsSettled(ds, depth - 1, ds[id], us, false); }
    case _ =>
  }

  lemma ClosedLooks(st: Store, r: nat, t: Type)
    requires Looks(st, r, t) && Closed(t)
    ensures Denotes(st, r, t)
  {
    hide Denotes;
    var v :| Denotes(st, r, v) && Alike(t, v);
    AlikeIsLoose(t, v);
    LooseClosed(t, v);
  }
}
