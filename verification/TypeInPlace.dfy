/** Passes with closed arguments: rewriting shared types in place does what values do (parser/encoding/rpc.go). */
module TypeInPlace {
  import opened TypeSubst
  import opened TypeCells

  // ----- Types on the way from before a pass to after it -----

  /** v is u, but for what stands where u has parameters. */
  predicate Loose(u: Type, v: Type)
    decreases u
  {
    u.Param? || (LabelOf(u) == LabelOf(v) && |Kids(u)| == |Kids(v)| &&
                 forall i :: 0 <= i < |Kids(u)| ==> Loose(Kids(u)[i], Kids(v)[i]))
  }

  /** v is u, but for parameters inside unions, where no pass goes. */
  predicate Alike(u: Type, v: Type)
    decreases u
  {
    && LabelOf(u) == LabelOf(v) && |Kids(u)| == |Kids(v)|
    && forall i :: 0 <= i < |Kids(u)| ==>
         if u.Union? then Loose(Kids(u)[i], Kids(v)[i]) else Alike(Kids(u)[i], Kids(v)[i])
  }

  /** v is u with some of its parameters replaced by their arguments. */
  predicate Partial(ts: seq<Type>, u: Type, v: Type)
    decreases u
  {
    if u.Param? then v == u || (u.idx < |ts| && v == ts[u.idx])
    else
      && LabelOf(u) == LabelOf(v) && |Kids(u)| == |Kids(v)|
      && forall i :: 0 <= i < |Kids(u)| ==>
           if u.Union? then Loose(Kids(u)[i], Kids(v)[i]) else Partial(ts, Kids(u)[i], Kids(v)[i])
  }

  lemma {:induction false} LooseSame(u: Type)
    ensures Loose(u, u)
    decreases u
  {
    forall i | 0 <= i < |Kids(u)| ensures Loose(Kids(u)[i], Kids(u)[i]) { LooseSame(Kids(u)[i]); }
  }

  lemma {:induction false} AlikeSame(u: Type)
    ensures Alike(u, u)
    decreases u
  {
    forall i | 0 <= i < |Kids(u)| ensures Loose(Kids(u)[i], Kids(u)[i]) && Alike(Kids(u)[i], Kids(u)[i]) {
      LooseSame(Kids(u)[i]);
      AlikeSame(Kids(u)[i]);
    }
  }

  lemma {:induction false} PartialSame(ts: seq<Type>, u: Type)
    ensures Partial(ts, u, u)
    decreases u
  {
    forall i | 0 <= i < |Kids(u)| ensures Loose(Kids(u)[i], Kids(u)[i]) && Partial(ts, Kids(u)[i], Kids(u)[i]) {
      LooseSame(Kids(u)[i]);
      PartialSame(ts, Kids(u)[i]);
    }
  }

  lemma {:induction false} LooseTrans(u: Type, v: Type, w: Type)
    requires Loose(u, v) && Loose(v, w)
    ensures Loose(u, w)
    decreases u
  {
    if !u.Param? {
      forall i | 0 <= i < |Kids(u)| ensures Loose(Kids(u)[i], Kids(w)[i]) {
        LooseTrans(Kids(u)[i], Kids(v)[i], Kids(w)[i]);
      }
    }
  }

  lemma {:induction false} AlikeTrans(u: Type, v: Type, w: Type)
    requires Alike(u, v) && Alike(v, w)
    ensures Alike(u, w)
    decreases u
  {
    forall i | 0 <= i < |Kids(u)|
      ensures if u.Union? then Loose(Kids(u)[i], Kids(w)[i]) else Alike(Kids(u)[i], Kids(w)[i])
    {
      if u.Union? {
        LooseTrans(Kids(u)[i], Kids(v)[i], Kids(w)[i]);
      } else {
        AlikeTrans(Kids(u)[i], Kids(v)[i], Kids(w)[i]);
      }
    }
  }

  lemma {:induction false} LooseClosed(u: Type, v: Type)
    requires Closed(u) && Loose(u, v)
    ensures u == v
    decreases u
  {
    ClosedByKids(u);
    forall i | 0 <= i < |Kids(u)| ensures Kids(u)[i] == Kids(v)[i] { LooseClosed(Kids(u)[i], Kids(v)[i]); }
    SameType(u, v);
  }

  lemma {:induction false} AlikeIsLoose(u: Type, v: Type)
    requires Alike(u, v)
    ensures Loose(u, v)
    decreases u
  {
    forall i | 0 <= i < |Kids(u)| ensures Loose(Kids(u)[i], Kids(v)[i]) {
      if !u.Union? { AlikeIsLoose(Kids(u)[i], Kids(v)[i]); }
    }
  }

  lemma {:induction false} PartialIsLoose(ts: seq<Type>, u: Type, v: Type)
    requires Partial(ts, u, v)
    ensures Loose(u, v)
    decreases u
  {
    if !u.Param? {
      forall i | 0 <= i < |Kids(u)| ensures Loose(Kids(u)[i], Kids(v)[i]) {
        if !u.Union? { PartialIsLoose(ts, Kids(u)[i], Kids(v)[i]); }
      }
    }
  }

  lemma PartialClosed(ts: seq<Type>, u: Type, v: Type)
    requires Closed(u) && Partial(ts, u, v)
    ensures u == v
  {
    PartialIsLoose(ts, u, v);
    LooseClosed(u, v);
  }

  lemma {:induction false} PartialTrans(ts: seq<Type>, u: Type, v: Type, w: Type)
    requires AllClosed(ts) && Partial(ts, u, v) && Partial(ts, v, w)
    ensures Partial(ts, u, w)
    decreases u
  {
    if u.Param? {
      if u != v { PartialClosed(ts, v, w); }
    } else {
      forall i | 0 <= i < |Kids(u)|
        ensures if u.Union? then Loose(Kids(u)[i], Kids(w)[i]) else Partial(ts, Kids(u)[i], Kids(w)[i])
      {
        if u.Union? {
          LooseTrans(Kids(u)[i], Kids(v)[i], Kids(w)[i]);
        } else {
          PartialTrans(ts, Kids(u)[i], Kids(v)[i], Kids(w)[i]);
        }
      }
    }
  }

  /** Where no parameter is left that a pass would meet, a pass in between changes nothing more. */
  lemma {:induction false} AlikePartial(ts: seq<Type>, u: Type, v: Type, w: Type)
    requires InRange(u, 0) && Alike(u, v) && Partial(ts, v, w)
    ensures Alike(u, w)
    decreases u
  {
    if !u.Union? { InRangeByKids(u, 0); }
    forall i | 0 <= i < |Kids(u)|
      ensures if u.Union? then Loose(Kids(u)[i], Kids(w)[i]) else Alike(Kids(u)[i], Kids(w)[i])
    {
      if u.Union? {
        LooseTrans(Kids(u)[i], Kids(v)[i], Kids(w)[i]);
      } else {
        AlikePartial(ts, Kids(u)[i], Kids(v)[i], Kids(w)[i]);
      }
    }
  }

  lemma {:induction false} AlikeRange(u: Type, v: Type, n: nat)
    requires Alike(u, v)
    ensures InRange(u, n) <==> InRange(v, n)
    decreases u
  {
    if Visible(LabelOf(u)) {
      InRangeByKids(u, n);
      InRangeByKids(v, n);
      forall i | 0 <= i < |Kids(u)| ensures InRange(Kids(u)[i], n) <==> InRange(Kids(v)[i], n) {
        AlikeRange(Kids(u)[i], Kids(v)[i], n);
      }
    }
  }

  lemma {:induction false} AlikeResolve(u: Type, v: Type, ts: seq<Type>)
    requires Alike(u, v) && InRange(u, |ts|)
    ensures InRange(v, |ts|) && Alike(Resolve(u, ts), Resolve(v, ts))
    decreases u
  {
    AlikeRange(u, v, |ts|);
    if u.Param? {
      AlikeSame(ts[u.idx]);
    } else if Visible(LabelOf(u)) {
      ResolveByKids(u, ts);
      ResolveByKids(v, ts);
      forall i | 0 <= i < |Kids(u)| ensures Alike(Resolve(Kids(u)[i], ts), Resolve(Kids(v)[i], ts)) {
        AlikeResolve(Kids(u)[i], Kids(v)[i], ts);
      }
    }
  }

  lemma {:induction false} ResolvedHasNone(t: Type, ts: seq<Type>)
    requires InRange(t, |ts|) && AllClosed(ts)
    ensures InRange(Resolve(t, ts), 0)
    decreases t
  {
    if t.Param? {
      ScopeIsRange(ts[t.idx], 0);
    } else if Visible(LabelOf(t)) {
      ResolveByKids(t, ts);
      forall i | 0 <= i < |Kids(t)| ensures InRange(Resolve(Kids(t)[i], ts), 0) { ResolvedHasNone(Kids(t)[i], ts); }
      InRangeByKids(Resolve(t, ts), 0);
    }
  }

  // ----- Stores before and after -----

  ghost predicate Kept(ts: seq<Type>, st: Store, q: nat, u: Type) {
    exists v :: Denotes(st, q, v) && Partial(ts, u, v)
  }

  /** Every cell is still what it was, but for parameters that have been replaced. */
  ghost predicate Keeps(ts: seq<Type>, st: Store, st': Store) {
    forall q, u :: Denotes(st, q, u) ==> Kept(ts, st', q, u)
  }

  ghost predicate KeepsClosed(st: Store, st': Store) {
    forall q, u :: Denotes(st, q, u) && Closed(u) ==> Denotes(st', q, u)
  }

  /** Only links to parameters have been replaced. */
  predicate Slots(st: Store, st': Store) {
    && |st'| == |st|
    && forall q :: 0 <= q < |st| ==> SameSlots(st, st[q], st'[q])
  }

  predicate SameSlots(st: Store, c: Cell, d: Cell) {
    && d.node == c.node && |d.kids| == |c.kids|
    && forall j :: 0 <= j < |c.kids| ==> d.kids[j] == c.kids[j] || At(st, c.kids[j]).node.LParam?
  }

  lemma SlotsTrans(a: Store, b: Store, c: Store)
    requires Slots(a, b) && Slots(b, c)
    ensures Slots(a, c)
  {
    forall q | 0 <= q < |a| ensures SameSlots(a, a[q], c[q]) {
      assert SameSlots(a, a[q], b[q]) && SameSlots(b, b[q], c[q]);
      forall j | 0 <= j < |a[q].kids| ensures c[q].kids[j] == a[q].kids[j] || At(a, a[q].kids[j]).node.LParam? {
        var k := a[q].kids[j];
        if k < |a| { assert SameSlots(a, a[k], b[k]); }
      }
    }
  }

  lemma KeepsSame(ts: seq<Type>, st: Store)
    ensures Keeps(ts, st, st) && Slots(st, st)
  {
    forall q, u | Denotes(st, q, u) ensures Kept(ts, st, q, u) { PartialSame(ts, u); }
  }

  lemma {:induction false} KeepsTrans(ts: seq<Type>, a: Store, b: Store, c: Store)
    requires AllClosed(ts) && Keeps(ts, a, b) && Keeps(ts, b, c)
    ensures Keeps(ts, a, c)
  {
    hide Denotes, Partial, Closed;
    forall q, u | Denotes(a, q, u) ensures Kept(ts, c, q, u) {
      assert Kept(ts, b, q, u);
      var v :| Denotes(b, q, v) && Partial(ts, u, v);
      assert Kept(ts, c, q, v);
      var w :| Denotes(c, q, w) && Partial(ts, v, w);
      PartialTrans(ts, u, v, w);
    }
  }

  lemma {:induction false} KeepsMeansClosed(ts: seq<Type>, st: Store, st': Store)
    requires Keeps(ts, st, st')
    ensures KeepsClosed(st, st')
  {
    hide Denotes, Partial, Closed;
    forall q, u | Denotes(st, q, u) && Closed(u) ensures Denotes(st', q, u) {
      assert Kept(ts, st', q, u);
      var v :| Denotes(st', q, v) && Partial(ts, u, v);
      PartialClosed(ts, u, v);
    }
  }

  // ----- One write -----

  /** The write of a pass: kid i of r, a parameter, gives way to its argument k. */
  predicate IsStep(ts: seq<Type>, st: Store, r: nat, i: nat, k: nat, t: Type) {
    && Denotes(st, r, t) && i < |Kids(t)|
    && var p := Kids(t)[i]; p.Param? && p.idx < |ts| && Closed(ts[p.idx]) && Denotes(st, k, ts[p.idx])
  }

  lemma {:induction false} StepKeepsClosed(ts: seq<Type>, st: Store, r: nat, i: nat, k: nat, t: Type, q: nat, u: Type)
    requires IsStep(ts, st, r, i, k, t) && Denotes(st, q, u) && Closed(u)
    ensures Denotes(SetKid(st, r, i, k), q, u)
    decreases u
  {
    var st2 := SetKid(st, r, i, k);
    ClosedByKids(u);
    assert q != r by {
      if q == r { DenotesOne(st, r, t, u); }
    }
    forall j | 0 <= j < |Kids(u)| ensures Denotes(st2, st2[q].kids[j], Kids(u)[j]) {
      StepKeepsClosed(ts, st, r, i, k, t, st2[q].kids[j], Kids(u)[j]);
    }
  }

  lemma {:induction false} Gather(ts: seq<Type>, st: Store, rs: seq<nat>, us: seq<Type>) returns (vs: seq<Type>)
    requires |rs| == |us| && forall j :: 0 <= j < |us| ==> Kept(ts, st, rs[j], us[j])
    ensures AllDenote(st, rs, vs) && forall j :: 0 <= j < |us| ==> Partial(ts, us[j], vs[j])
  {
    hide Denotes, Partial;
    vs := [];
    for n := 0 to |us|
      invariant |vs| == n && forall j :: 0 <= j < n ==> Denotes(st, rs[j], vs[j]) && Partial(ts, us[j], vs[j])
    {
      assert Kept(ts, st, rs[n], us[n]);
      var v :| Denotes(st, rs[n], v) && Partial(ts, us[n], v);
      vs := vs + [v];
    }
  }

  /** A node is kept if its kids are. */
  lemma {:induction false} NodeKept(ts: seq<Type>, st: Store, q: nat, u: Type)
    requires q < |st| && st[q].node == LabelOf(u) && |st[q].kids| == |Kids(u)|
    requires forall j :: 0 <= j < |Kids(u)| ==> Kept(ts, st, st[q].kids[j], Kids(u)[j])
    ensures Kept(ts, st, q, u)
  {
    var vs := Gather(ts, st, st[q].kids, Kids(u));
    var v := WithKids(u, vs);
    assert Denotes(st, q, v);
    if u.Param? {
      SameType(u, v);
    } else if u.Union? {
      forall j | 0 <= j < |vs| ensures Loose(Kids(u)[j], vs[j]) { PartialIsLoose(ts, Kids(u)[j], vs[j]); }
    }
  }

  lemma {:induction false} StepKept(ts: seq<Type>, st: Store, r: nat, i: nat, k: nat, t: Type, q: nat, u: Type)
    requires IsStep(ts, st, r, i, k, t) && Denotes(st, q, u)
    ensures Kept(ts, SetKid(st, r, i, k), q, u)
    decreases u
  {
    hide Kept, Closed;
    var st2 := SetKid(st, r, i, k);
    if q == r { DenotesOne(st, r, t, u); }
    forall j | 0 <= j < |Kids(u)| ensures Kept(ts, st2, st2[q].kids[j], Kids(u)[j]) {
      if q == r && j == i {
        ArgumentKept(ts, st, r, i, k, t);
      } else {
        StepKept(ts, st, r, i, k, t, st[q].kids[j], Kids(u)[j]);
      }
    }
    NodeKept(ts, st2, q, u);
  }

  lemma ArgumentKept(ts: seq<Type>, st: Store, r: nat, i: nat, k: nat, t: Type)
    requires IsStep(ts, st, r, i, k, t)
    ensures Kept(ts, SetKid(st, r, i, k), k, Kids(t)[i])
  {
    StepKeepsClosed(ts, st, r, i, k, t, k, ts[Kids(t)[i].idx]);
  }

  lemma {:induction false} StepKeeps(ts: seq<Type>, st: Store, r: nat, i: nat, k: nat, t: Type)
    requires IsStep(ts, st, r, i, k, t)
    ensures Keeps(ts, st, SetKid(st, r, i, k)) && Slots(st, SetKid(st, r, i, k))
  {
    forall q, u | Denotes(st, q, u) ensures Kept(ts, SetKid(st, r, i, k), q, u) {
      StepKept(ts, st, r, i, k, t, q, u);
    }
    assert Denotes(st, st[r].kids[i], Kids(t)[i]);
  }

  // ----- A whole pass -----

  lemma {:induction false} PassClosed(st: Store, fuel: nat, r: nat, t: Type, args: seq<nat>)
    requires Denotes(st, r, t) && Closed(t) && fuel >= Height(t)
    ensures Pass(st, fuel, r, args) == Done(st, r)
    decreases fuel, 0
  {
    hide Pass, PassKids, Height;
    ClosedByKids(t);
    assert fuel > 0;
    if t.Union? {
      UnionStays(st, fuel, r, args);
    } else {
      PassIsKids(st, fuel, r, args);
      forall j | 0 <= j < |Kids(t)| ensures Height(Kids(t)[j]) <= fuel - 1 { KidsAreLower(t, j); }
      PassKidsClosed(st, fuel - 1, r, 0, t, args);
    }
  }

  lemma UnionStays(st: Store, fuel: nat, r: nat, args: seq<nat>)
    requires fuel > 0 && At(st, r).node.LUnion?
    ensures Pass(st, fuel, r, args) == Done(st, r)
  {
  }

  lemma {:induction false} PassKidsClosed(st: Store, fuel: nat, r: nat, i: nat, t: Type, args: seq<nat>)
    requires Denotes(st, r, t) && i <= |Kids(t)|
    requires forall j :: 0 <= j < |Kids(t)| ==> Closed(Kids(t)[j]) && Height(Kids(t)[j]) <= fuel
    ensures PassKids(st, fuel, r, i, |Kids(t)| - i, args) == Done(st, r)
    decreases fuel, |Kids(t)| - i + 1
  {
    hide Pass, PassKids, Height, Closed;
    PassKidsStep(st, fuel, r, i, |Kids(t)| - i, args);
    if i < |Kids(t)| {
      PassClosed(st, fuel, st[r].kids[i], Kids(t)[i], args);
      SameKid(st, r, i);
      PassKidsClosed(st, fuel, r, i + 1, t, args);
    }
  }

  /** The cell is t, but for parameters inside unions. */
  ghost predicate Looks(st: Store, r: nat, t: Type) {
    exists v :: Denotes(st, r, v) && Alike(t, v)
  }

  /** A pass that went well: its result, and what it left alone. */
  ghost predicate InPlace(ts: seq<Type>, st: Store, r: nat, args: seq<nat>, o: Res, t: Type) {
    && o.Done? && Slots(st, o.st) && Keeps(ts, st, o.st) && Looks(o.st, o.ref, t)
    && var l := At(st, r).node;
       if l.LParam? && l.idx < |args| then o == Done(st, args[l.idx]) else o.ref == r
  }

  predicate Bounded(ts: seq<Type>, n: nat) {
    forall i :: 0 <= i < |ts| ==> Height(ts[i]) <= n
  }

  /** A pass with closed arguments over t0, some of whose parameters have already been replaced. */
  lemma {:induction false} PassInPlace(st: Store, fuel: nat, r: nat, t0: Type, t: Type, args: seq<nat>,
                                       ts: seq<Type>, n: nat)
    requires Denotes(st, r, t) && Partial(ts, t0, t) && AllDenote(st, args, ts) && AllClosed(ts) && Bounded(ts, n)
    requires fuel >= Height(t0) + n
    ensures InRange(t0, |ts|) ==>
              var o := Pass(st, fuel, r, args); o.Done? && InPlace(ts, st, r, args, o, Resolve(t0, ts))
    ensures !InRange(t0, |ts|) ==> Pass(st, fuel, r, args) == Panic
    decreases fuel, 0
  {
    hide Pass, PassKids, Height, InPlace, Closed, InRange, Resolve, Slots, Keeps, Denotes;
    if t0.Param? || t0.Union? {
      LeafInPlace(st, fuel, r, t0, t, args, ts, n);
    } else {
      assert At(st, r).node == LabelOf(t) && fuel > 0 && |At(st, r).kids| == |Kids(t)| by { NodeOf(st, r, t); }
      PassIsKids(st, fuel, r, args);
      forall j | 0 <= j < |Kids(t0)| ensures Height(Kids(t0)[j]) + n <= fuel - 1 { KidsAreLower(t0, j); }
      KidsInPlace(st, fuel - 1, r, 0, t0, t, args, ts, n);
      InRangeByKids(t0, |ts|);
    }
  }

  lemma NodeOf(st: Store, r: nat, t: Type)
    requires Denotes(st, r, t)
    ensures r < |st| && At(st, r) == st[r] && st[r].node == LabelOf(t) && |st[r].kids| == |Kids(t)| && Height(t) > 0
    ensures forall i :: 0 <= i < |Kids(t)| ==> Denotes(st, st[r].kids[i], Kids(t)[i])
  {
  }

  lemma {:induction false} LeafInPlace(st: Store, fuel: nat, r: nat, t0: Type, t: Type, args: seq<nat>,
                                       ts: seq<Type>, n: nat)
    requires Denotes(st, r, t) && Partial(ts, t0, t) && AllDenote(st, args, ts) && AllClosed(ts) && Bounded(ts, n)
    requires fuel >= Height(t0) + n && (t0.Param? || t0.Union?)
    ensures InRange(t0, |ts|) ==>
              var o := Pass(st, fuel, r, args); o.Done? && InPlace(ts, st, r, args, o, Resolve(t0, ts))
    ensures !InRange(t0, |ts|) ==> Pass(st, fuel, r, args) == Panic
  {
    hide Slots, Keeps, Height;
    KeepsSame(ts, st);
    if t0.Union? {
      assert Alike(t0, t);
    } else if t0.idx < |ts| {
      AlikeSame(ts[t0.idx]);
      if t == ts[t0.idx] {
        PassClosed(st, fuel, r, t, args);
        ClosedByKids(t);
      }
    }
  }

  /** In the middle of a pass: the kids before i are done, the others may have been reached by another way. */
  predicate Halfway(ts: seq<Type>, i: nat, t0: Type, t: Type) {
    && LabelOf(t) == LabelOf(t0) && |Kids(t)| == |Kids(t0)| && i <= |Kids(t0)|
    && (forall j :: 0 <= j < i ==> InRange(Kids(t0)[j], |ts|) && Alike(Resolve(Kids(t0)[j], ts), Kids(t)[j]))
    && (forall j :: i <= j < |Kids(t0)| ==> Partial(ts, Kids(t0)[j], Kids(t)[j]))
  }

  lemma {:induction false} KidsInPlace(st: Store, fuel: nat, r: nat, i: nat, t0: Type, t: Type,
                                       args: seq<nat>, ts: seq<Type>, n: nat)
    requires Visible(LabelOf(t0)) && Denotes(st, r, t) && Halfway(ts, i, t0, t)
    requires AllDenote(st, args, ts) && AllClosed(ts) && Bounded(ts, n)
    requires forall j :: 0 <= j < |Kids(t0)| ==> Height(Kids(t0)[j]) + n <= fuel
    ensures var o := PassKids(st, fuel, r, i, |Kids(t0)| - i, args);
            && (InRange(t0, |ts|) ==> o.Done? && InPlace(ts, st, r, args, o, Resolve(t0, ts)))
            && (!InRange(t0, |ts|) ==> o == Panic)
    decreases fuel, |Kids(t0)| - i + 1
  {
    hide Pass, PassKids, Height, InPlace, Closed, InRange, Resolve, Slots, Keeps, Alike, Partial, Denotes, LabelOf,
         Looks, SetKid;
    NodeOf(st, r, t);
    InRangeByKids(t0, |ts|);
    PassKidsStep(st, fuel, r, i, |Kids(t0)| - i, args);
    if i == |Kids(t0)| {
      AllInPlace(st, r, t0, t, args, ts);
    } else {
      var k, kt := st[r].kids[i], Kids(t0)[i];
      PassInPlace(st, fuel, k, kt, Kids(t)[i], args, ts, n);
      if InRange(kt, |ts|) {
        var o := Pass(st, fuel, k, args);
        var t2 := KidInPlace(st, o, r, i, t0, t, args, ts);
        var st2 := SetKid(o.st, r, i, o.ref);
        KidsInPlace(st2, fuel, r, i + 1, t0, t2, args, ts, n);
        var p := PassKids(st2, fuel, r, i + 1, |Kids(t0)| - i - 1, args);
        if InRange(t0, |ts|) { Chain(ts, st, st2, r, args, p, Resolve(t0, ts)); }
      }
    }
  }

  lemma {:induction false} AllInPlace(st: Store, r: nat, t0: Type, t: Type, args: seq<nat>, ts: seq<Type>)
    requires Visible(LabelOf(t0)) && Denotes(st, r, t) && Halfway(ts, |Kids(t0)|, t0, t)
    ensures InRange(t0, |ts|) && InPlace(ts, st, r, args, Done(st, r), Resolve(t0, ts))
  {
    hide Slots, Keeps, InRange, Resolve, Denotes, Partial, Alike, Kids;
    NodeOf(st, r, t);
    InRangeByKids(t0, |ts|);
    ResolveByKids(t0, ts);
    KeepsSame(ts, st);
    AlikeNode(Resolve(t0, ts), t);
  }

  lemma AlikeNode(u: Type, v: Type)
    requires Visible(LabelOf(u)) && LabelOf(u) == LabelOf(v) && |Kids(u)| == |Kids(v)|
    requires forall i :: 0 <= i < |Kids(u)| ==> Alike(Kids(u)[i], Kids(v)[i])
    ensures Alike(u, v)
  {
    hide Kids, Loose;
  }

  lemma Chain(ts: seq<Type>, st: Store, st2: Store, r: nat, args: seq<nat>, o: Res, t: Type)
    requires AllClosed(ts) && Slots(st, st2) && Keeps(ts, st, st2) && InPlace(ts, st2, r, args, o, t)
    requires Visible(At(st, r).node)
    ensures InPlace(ts, st, r, args, o, t)
  {
    hide Keeps, Looks, Closed;
    assert At(st2, r).node == At(st, r).node by {
      if r < |st| { assert SameSlots(st, st[r], st2[r]); }
    }
    SlotsTrans(st, st2, o.st);
    KeepsTrans(ts, st, st2, o.st);
  }

  /** One kid passed and linked: either a parameter gives way to its argument, or nothing is written. */
  lemma {:induction false} Link(st: Store, o: Res, r: nat, i: nat, kt: Type, t: Type, args: seq<nat>, ts: seq<Type>)
    requires Denotes(st, r, t) && i < |Kids(t)| && Partial(ts, kt, Kids(t)[i])
    requires AllDenote(st, args, ts) && AllClosed(ts) && InRange(kt, |ts|)
    requires InPlace(ts, st, st[r].kids[i], args, o, Resolve(kt, ts))
    ensures var st2 := SetKid(o.st, r, i, o.ref);
            && Slots(st, st2) && Keeps(ts, st, st2)
            && r < |st2| && i < |st2[r].kids| && Looks(st2, st2[r].kids[i], Resolve(kt, ts))
  {
    hide Keeps, Alike, Slots, Looks, Resolve, Closed, InRange, Partial, SetKid, Denotes, AllDenote, Kids;
    NodeOf(st, r, t);
    var k, p := st[r].kids[i], Kids(t)[i];
    NodeOf(st, k, p);
    if p.Param? {
      LinkArgument(st, o, r, i, kt, t, args, ts);
    } else {
      SlotKept(st, o.st, r, i);
    }
  }

  lemma {:induction false} LinkArgument(st: Store, o: Res, r: nat, i: nat, kt: Type, t: Type, args: seq<nat>,
                                        ts: seq<Type>)
    requires Denotes(st, r, t) && i < |Kids(t)| && Kids(t)[i].Param? && Partial(ts, kt, Kids(t)[i])
    requires AllDenote(st, args, ts) && AllClosed(ts) && InRange(kt, |ts|)
    requires InPlace(ts, st, st[r].kids[i], args, o, Resolve(kt, ts))
    ensures var st2 := SetKid(o.st, r, i, o.ref);
            && Slots(st, st2) && Keeps(ts, st, st2)
            && r < |st2| && i < |st2[r].kids| && Looks(st2, st2[r].kids[i], Resolve(kt, ts))
  {
    hide Keeps, Alike, Slots;
    var p := Kids(t)[i];
    NodeOf(st, st[r].kids[i], p);
    OnlyParamsBecomeParams(ts, kt, p);
    assert o == Done(st, args[p.idx]);
    StepKeeps(ts, st, r, i, args[p.idx], t);
    StepKeepsClosed(ts, st, r, i, args[p.idx], t, args[p.idx], ts[p.idx]);
    AlikeSame(ts[p.idx]);
  }

  lemma OnlyParamsBecomeParams(ts: seq<Type>, u: Type, v: Type)
    requires AllClosed(ts) && Partial(ts, u, v) && v.Param?
    ensures u == v
  {
    ClosedByKids(v);
  }

  lemma SlotKept(st: Store, st': Store, r: nat, i: nat)
    requires Slots(st, st') && r < |st| && i < |st[r].kids| && !At(st, st[r].kids[i]).node.LParam?
    ensures r < |st'| && i < |st'[r].kids| && st'[r].kids[i] == st[r].kids[i] && SetKid(st', r, i, st[r].kids[i]) == st'
  {
    assert SameSlots(st, st[r], st'[r]);
    SameKid(st', r, i);
  }

  lemma SameKid(st: Store, r: nat, i: nat)
    requires r < |st| && i < |st[r].kids|
    ensures SetKid(st, r, i, st[r].kids[i]) == st
  {
    assert st[r].kids[i := st[r].kids[i]] == st[r].kids;
  }

  lemma {:induction false} KidInPlace(st: Store, o: Res, r: nat, i: nat, t0: Type, t: Type, args: seq<nat>,
                                      ts: seq<Type>)
    returns (t2: Type)
    requires Denotes(st, r, t) && Halfway(ts, i, t0, t) && i < |Kids(t0)| && Visible(LabelOf(t0))
    requires AllDenote(st, args, ts) && AllClosed(ts) && InRange(Kids(t0)[i], |ts|)
    requires o.Done? && InPlace(ts, st, st[r].kids[i], args, o, Resolve(Kids(t0)[i], ts))
    ensures var st2 := SetKid(o.st, r, i, o.ref);
            && Slots(st, st2) && Keeps(ts, st, st2) && AllDenote(st2, args, ts)
            && Denotes(st2, r, t2) && Halfway(ts, i + 1, t0, t2)
  {
    hide InPlace, Slots, Alike, Resolve, InRange, Closed, Denotes, SetKid, Partial, Keeps, Looks, Kids, LabelOf;
    var st2 := SetKid(o.st, r, i, o.ref);
    NodeOf(st, r, t);
    Link(st, o, r, i, Kids(t0)[i], t, args, ts);
    ArgumentsStay(ts, st, st2, args);
    t2 := StillDenotes(ts, st, st2, r, t);
    LooksAtKid(st2, r, i, t2, Resolve(Kids(t0)[i], ts));
    StillHalfway(ts, i, t0, t, t2);
  }

  lemma ArgumentsStay(ts: seq<Type>, st: Store, st': Store, args: seq<nat>)
    requires Keeps(ts, st, st') && AllDenote(st, args, ts) && AllClosed(ts)
    ensures AllDenote(st', args, ts)
  {
    hide Denotes, Keeps;
    KeepsMeansClosed(ts, st, st');
  }

  lemma StillDenotes(ts: seq<Type>, st: Store, st': Store, r: nat, t: Type) returns (t2: Type)
    requires Keeps(ts, st, st') && Denotes(st, r, t)
    ensures Denotes(st', r, t2) && Partial(ts, t, t2)
  {
    hide Denotes, Partial;
    assert Kept(ts, st', r, t);
    t2 :| Denotes(st', r, t2) && Partial(ts, t, t2);
  }

  lemma LooksAtKid(st: Store, r: nat, i: nat, t: Type, u: Type)
    requires Denotes(st, r, t) && i < |st[r].kids| && Looks(st, st[r].kids[i], u)
    ensures i < |Kids(t)| && Alike(u, Kids(t)[i])
  {
    var v :| Denotes(st, st[r].kids[i], v) && Alike(u, v);
    DenotesOne(st, st[r].kids[i], v, Kids(t)[i]);
  }

  lemma PartialKids(ts: seq<Type>, u: Type, v: Type)
    requires Visible(LabelOf(u)) && Partial(ts, u, v)
    ensures LabelOf(u) == LabelOf(v) && |Kids(u)| == |Kids(v)|
    ensures forall j :: 0 <= j < |Kids(u)| ==> Partial(ts, Kids(u)[j], Kids(v)[j])
  {
  }

  lemma {:induction false} StillHalfway(ts: seq<Type>, i: nat, t0: Type, t: Type, t2: Type)
    requires Halfway(ts, i, t0, t) && i < |Kids(t0)| && Visible(LabelOf(t0)) && AllClosed(ts) && Partial(ts, t, t2)
    requires InRange(Kids(t0)[i], |ts|) && i < |Kids(t2)| && Alike(Resolve(Kids(t0)[i], ts), Kids(t2)[i])
    ensures Halfway(ts, i + 1, t0, t2)
  {
    hide Alike, Resolve, InRange, Closed, Partial, Kids;
    PartialKids(ts, t, t2);
    forall j | 0 <= j < i ensures Alike(Resolve(Kids(t0)[j], ts), Kids(t2)[j]) {
      ResolvedHasNone(Kids(t0)[j], ts);
      AlikePartial(ts, Resolve(Kids(t0)[j], ts), Kids(t)[j], Kids(t2)[j]);
    }
    forall j | i < j < |Kids(t0)| ensures Partial(ts, Kids(t0)[j], Kids(t2)[j]) {
      PartialTrans(ts, Kids(t0)[j], Kids(t)[j], Kids(t2)[j]);
    }
  }
}
