/** Copies of types, and a pass over a fresh copy (parser/encoding/rpc.go). */
module TypeCopies {
  import opened TypeSubst
  import opened TypeCells

  // ----- The layout of a copy -----

  /** Where the copy of the j-th kid begins, if the whole copy begins at lo. */
  function Start(lo: nat, kids: seq<nat>, j: nat): nat
    requires j <= |kids|
  {
    if j == 0 then lo else kids[j - 1] + 1
  }

  /** A copy fills the cells from lo to r: one kid behind the other, then the node itself. */
  predicate Laid(st: Store, r: nat, t: Type, lo: nat)
    decreases t
  {
    && lo <= r < |st| && st[r].node == LabelOf(t) && |st[r].kids| == |Kids(t)|
    && forall j {:trigger Start(lo, st[r].kids, j)} :: 0 <= j < |Kids(t)| ==>
         st[r].kids[j] < r && Laid(st, st[r].kids[j], Kids(t)[j], Start(lo, st[r].kids, j))
  }

  lemma {:induction false} StartInside(st: Store, r: nat, t: Type, lo: nat, j: nat)
    requires Laid(st, r, t, lo) && j <= |Kids(t)|
    ensures lo <= Start(lo, st[r].kids, j) <= r
    decreases j
  {
    if j > 0 {
      StartInside(st, r, t, lo, j - 1);
      assert Laid(st, st[r].kids[j - 1], Kids(t)[j - 1], Start(lo, st[r].kids, j - 1));
    }
  }

  lemma {:induction false} LaidKept(st: Store, st': Store, r: nat, t: Type, lo: nat)
    requires Laid(st, r, t, lo) && r < |st'| && forall q :: lo <= q <= r ==> st'[q] == st[q]
    ensures Laid(st', r, t, lo)
    decreases t
  {
    forall j | 0 <= j < |Kids(t)| ensures Laid(st', st[r].kids[j], Kids(t)[j], Start(lo, st[r].kids, j)) {
      StartInside(st, r, t, lo, j);
      LaidKept(st, st', st[r].kids[j], Kids(t)[j], Start(lo, st[r].kids, j));
    }
  }

  lemma {:induction false} LaidDenotes(st: Store, r: nat, t: Type, lo: nat)
    requires Laid(st, r, t, lo)
    ensures Denotes(st[..r + 1], r, t)
    decreases t
  {
    forall j | 0 <= j < |Kids(t)| ensures Denotes(st[..r + 1], st[r].kids[j], Kids(t)[j]) {
      var k := st[r].kids[j];
      LaidDenotes(st, k, Kids(t)[j], Start(lo, st[r].kids, j));
      DenotesGrows(st[..k + 1], st[..r + 1], k, Kids(t)[j]);
    }
  }

  predicate AllLaid(st: Store, ks: seq<nat>, ts: seq<Type>, lo: nat) {
    |ks| == |ts| &&
    forall j {:trigger Start(lo, ks, j)} :: 0 <= j < |ts| ==> ks[j] < |st| && Laid(st, ks[j], ts[j], Start(lo, ks, j))
  }

  /** The copy is a new stretch at the end of the store. */
  predicate IsCopy(st: Store, c: Res, t: Type) {
    c.Done? && st <= c.st && c.ref == |c.st| - 1 && |st| <= c.ref && Laid(c.st, c.ref, t, |st|)
  }

  predicate AreCopies(st: Store, c: Copy, ts: seq<Type>) {
    c.Copied? && st <= c.st && AllLaid(c.st, c.refs, ts, |st|) && Start(|st|, c.refs, |c.refs|) == |c.st|
  }

  /** Cloning a cell makes a copy of its type, if there is fuel. */
  lemma {:induction false} CloneCopies(st: Store, fuel: nat, r: nat, t: Type)
    requires Denotes(st, r, t)
    ensures Clone(st, fuel, r) == More || IsCopy(st, Clone(st, fuel, r), t)
    ensures fuel >= Height(t) ==> Clone(st, fuel, r) != More
    decreases fuel, 0
  {
    hide Laid, Height, AllLaid;
    if fuel > 0 {
      assert AllDenote(st, st[r].kids, Kids(t));
      CloneKidsCopies(st, fuel - 1, st[r].kids, Kids(t));
      if fuel >= Height(t) {
        forall i | 0 <= i < |Kids(t)| ensures Height(Kids(t)[i]) <= fuel - 1 { KidsAreLower(t, i); }
      }
      var k := CloneKids(st, fuel - 1, st[r].kids);
      if k.Copied? { NodeIsCopy(st, k, LabelOf(t), t); }
    }
  }

  lemma {:induction false} NodeIsCopy(st: Store, k: Copy, label': Label, t: Type)
    requires AreCopies(st, k, Kids(t)) && label' == LabelOf(t)
    ensures IsCopy(st, Done(k.st + [Cell(label', k.refs)], |k.st|), t)
  {
    var st' := k.st + [Cell(label', k.refs)];
    forall j | 0 <= j < |Kids(t)| ensures Laid(st', k.refs[j], Kids(t)[j], Start(|st|, k.refs, j)) {
      LaidKept(k.st, st', k.refs[j], Kids(t)[j], Start(|st|, k.refs, j));
    }
  }

  lemma {:induction false} CloneKidsCopies(st: Store, fuel: nat, rs: seq<nat>, ts: seq<Type>)
    requires AllDenote(st, rs, ts)
    ensures CloneKids(st, fuel, rs) == Endless || AreCopies(st, CloneKids(st, fuel, rs), ts)
    ensures (forall i :: 0 <= i < |ts| ==> Height(ts[i]) <= fuel) ==> CloneKids(st, fuel, rs) != Endless
    decreases fuel, |rs| + 1
  {
    if rs != [] {
      var n := |rs| - 1;
      CloneKidsCopies(st, fuel, rs[..n], ts[..n]);
      var k := CloneKids(st, fuel, rs[..n]);
      if k.Copied? {
        DenotesGrows(st, k.st, rs[n], ts[n]);
        CloneCopies(k.st, fuel, rs[n], ts[n]);
        var c := Clone(k.st, fuel, rs[n]);
        if c.Done? { OneMoreCopy(st, k, c, ts); }
      }
    }
  }

  lemma {:induction false} OneMoreCopy(st: Store, k: Copy, c: Res, ts: seq<Type>)
    requires ts != [] && AreCopies(st, k, ts[..|ts| - 1]) && IsCopy(k.st, c, ts[|ts| - 1])
    ensures AreCopies(st, Copied(c.st, k.refs + [c.ref]), ts)
  {
    hide Laid;
    var ks, n := k.refs + [c.ref], |ts| - 1;
    forall j | 0 <= j < |ts| ensures ks[j] < |c.st| && Laid(c.st, ks[j], ts[j], Start(|st|, ks, j)) {
      if j < n {
        assert ts[..n][j] == ts[j] && ks[j] == k.refs[j];
        EarlierCopyStays(st, k, c, ts[..n], j);
      }
    }
  }

  lemma EarlierCopyStays(st: Store, k: Copy, c: Res, ts: seq<Type>, j: nat)
    requires AreCopies(st, k, ts) && c.Done? && k.st <= c.st && j < |ts|
    ensures Laid(c.st, k.refs[j], ts[j], Start(|st|, k.refs, j))
  {
    LaidKept(k.st, c.st, k.refs[j], ts[j], Start(|st|, k.refs, j));
  }

  // ----- A pass over a fresh copy -----

  /** The arguments lie below the copy, so the pass does not meet them while it goes through it. */
  predicate Below(st: Store, base: nat, args: seq<nat>, ts: seq<Type>) {
    base <= |st| && AllDenote(st[..base], args, ts)
  }

  /** The pass over the copy from lo to r: it changes nothing outside, and the result is as for values. */
  predicate Passed(st: Store, o: Res, r: nat, lo: nat, t: Type) {
    && o.Done? && |o.st| == |st| && r < |st| && lo <= r + 1
    && (forall q :: 0 <= q < |st| && !(lo <= q <= r) ==> o.st[q] == st[q])
    && Denotes(o.st[..r + 1], o.ref, t)
  }

  /** Values and cells agree on a pass over a fresh copy, whatever the arguments. */
  lemma {:induction false} PassFresh(st: Store, fuel: nat, r: nat, t: Type, lo: nat, base: nat, args: seq<nat>,
                                     ts: seq<Type>)
    requires Laid(st, r, t, lo) && base <= lo && Below(st, base, args, ts) && fuel >= Height(t)
    ensures InRange(t, |ts|) ==> Passed(st, Pass(st, fuel, r, args), r, lo, Resolve(t, ts))
    ensures !InRange(t, |ts|) ==> Pass(st, fuel, r, args) == Panic
    decreases fuel, 0
  {
    hide InRange, Resolve, Laid, Passed, Below, Height, Pass, PassKids;
    if t.Param? || t.Union? {
      LeafFresh(st, fuel, r, t, lo, base, args, ts);
    } else {
      LaidNode(st, r, t, lo);
      PassIsKids(st, fuel, r, args);
      PassKidsFresh(st, fuel - 1, r, t, lo, base, args, ts);
      ResolveIsWithKids(t, ts);
    }
  }

  lemma LaidNode(st: Store, r: nat, t: Type, lo: nat)
    requires Laid(st, r, t, lo)
    ensures r < |st| && At(st, r) == st[r] && st[r].node == LabelOf(t) && Height(t) > 0
  {
  }

  lemma ResolveIsWithKids(t: Type, ts: seq<Type>)
    requires Visible(LabelOf(t))
    ensures InRange(t, |ts|) <==> RestInRange(t, 0, |ts|)
    ensures InRange(t, |ts|) ==> Resolve(t, ts) == WithKids(t, ResolveAll(Kids(t), ts))
  {
    hide Resolve, InRange;
    InRangeByKids(t, |ts|);
    if InRange(t, |ts|) {
      ResolveByKids(t, ts);
      SameType(Resolve(t, ts), WithKids(t, ResolveAll(Kids(t), ts)));
    }
  }

  lemma {:induction false} LeafFresh(st: Store, fuel: nat, r: nat, t: Type, lo: nat, base: nat, args: seq<nat>,
                                     ts: seq<Type>)
    requires Laid(st, r, t, lo) && base <= lo && Below(st, base, args, ts) && fuel > 0 && (t.Param? || t.Union?)
    ensures InRange(t, |ts|) ==> Passed(st, Pass(st, fuel, r, args), r, lo, Resolve(t, ts))
    ensures !InRange(t, |ts|) ==> Pass(st, fuel, r, args) == Panic
  {
    hide Denotes;
    if t.Union? {
      LaidDenotes(st, r, t, lo);
    } else if t.idx < |ts| {
      DenotesGrows(st[..base], st[..r + 1], args[t.idx], ts[t.idx]);
    }
  }

  /** All kids of a copy, from the first on. */
  lemma {:induction false} PassKidsFresh(st: Store, fuel: nat, r: nat, t: Type, lo: nat, base: nat, args: seq<nat>,
                                         ts: seq<Type>)
    requires Laid(st, r, t, lo) && base <= lo && Below(st, base, args, ts) && fuel + 1 >= Height(t)
    ensures var o := PassKids(st, fuel, r, 0, |st[r].kids|, args); var ks := Kids(t);
            && (RestInRange(t, 0, |ts|) ==> Passed(st, o, r, lo, WithKids(t, ResolveAll(ks, ts))) && o.ref == r)
            && (!RestInRange(t, 0, |ts|) ==> o == Panic)
    decreases fuel, |Kids(t)| + 2
  {
    hide InRange, Resolve, Passed, Below, Height, Denotes, Laid, Midway, WithKids, ResolveAll, PassKids, Pass;
    LaidNode(st, r, t, lo);
    forall i | 0 <= i < |Kids(t)| ensures Height(Kids(t)[i]) <= fuel { KidsAreLower(t, i); }
    LaidMidway(st, r, t, lo, ts);
    KidsFresh(st, fuel, r, 0, t, lo, st[r].kids, base, args, ts);
  }

  lemma {:induction false} LaidMidway(st: Store, r: nat, t: Type, lo: nat, ts: seq<Type>)
    requires Laid(st, r, t, lo)
    ensures |st[r].kids| == |Kids(t)| && Midway(st, r, 0, t, lo, st[r].kids, ts)
  {
    forall j | 0 <= j < |Kids(t)| ensures lo <= Start(lo, st[r].kids, j) <= st[r].kids[j] {
      StartInside(st, r, t, lo, j);
      assert Laid(st, st[r].kids[j], Kids(t)[j], Start(lo, st[r].kids, j));
    }
  }

  function ResolveAll(ks: seq<Type>, ts: seq<Type>): (r: seq<Type>)
    requires forall i :: 0 <= i < |ks| ==> InRange(ks[i], |ts|)
    ensures |r| == |ks| && forall i :: 0 <= i < |ks| ==> r[i] == Resolve(ks[i], ts)
  {
    seq(|ks|, i requires 0 <= i < |ks| => Resolve(ks[i], ts))
  }

  predicate InOrder(lo: nat, kids: seq<nat>, r: nat) {
    && (forall j :: 0 <= j < |kids| ==> lo <= kids[j] < r)
    && (forall j {:trigger Start(lo, kids, j)} :: 0 <= j < |kids| ==> lo <= Start(lo, kids, j) <= kids[j])
  }

  /** The type of a cell, all below n. */
  predicate DenotesBelow(st: Store, n: nat, r: nat, t: Type) {
    n <= |st| && Denotes(st[..n], r, t)
  }

  predicate Shaped(st: Store, r: nat, i: nat, t: Type, lo: nat, kids: seq<nat>) {
    && lo <= r < |st| && st[r].node == LabelOf(t) && |st[r].kids| == |kids| == |Kids(t)| && i <= |kids|
    && InOrder(lo, kids, r)
  }

  predicate KidsDone(st: Store, r: nat, i: nat, t: Type, lo: nat, kids: seq<nat>, ts: seq<Type>)
    requires Shaped(st, r, i, t, lo, kids)
  {
    forall j :: 0 <= j < i ==>
      InRange(Kids(t)[j], |ts|) && DenotesBelow(st, kids[j] + 1, st[r].kids[j], Resolve(Kids(t)[j], ts))
  }

  predicate KidsLeft(st: Store, r: nat, i: nat, t: Type, lo: nat, kids: seq<nat>)
    requires Shaped(st, r, i, t, lo, kids)
  {
    forall j {:trigger Start(lo, kids, j)} :: i <= j < |kids| ==>
      st[r].kids[j] == kids[j] && Laid(st, kids[j], Kids(t)[j], Start(lo, kids, j))
  }

  /** In the middle of the loop: the kids before i are done, those from i on still as they were laid out. */
  predicate Midway(st: Store, r: nat, i: nat, t: Type, lo: nat, kids: seq<nat>, ts: seq<Type>) {
    && Shaped(st, r, i, t, lo, kids)
    && KidsDone(st, r, i, t, lo, kids, ts) && KidsLeft(st, r, i, t, lo, kids)
  }

  predicate RestInRange(t: Type, i: nat, n: nat) {
    forall j :: i <= j < |Kids(t)| ==> InRange(Kids(t)[j], n)
  }

  lemma {:induction false} KidsFresh(st: Store, fuel: nat, r: nat, i: nat, t: Type, lo: nat, kids: seq<nat>,
                                     base: nat, args: seq<nat>, ts: seq<Type>)
    requires Midway(st, r, i, t, lo, kids, ts) && base <= lo && Below(st, base, args, ts)
    requires forall j :: 0 <= j < |Kids(t)| ==> Height(Kids(t)[j]) <= fuel
    ensures var o := PassKids(st, fuel, r, i, |kids| - i, args);
            && (RestInRange(t, i, |ts|) ==>
                  && RestInRange(t, 0, |ts|)
                  && Passed(st, o, r, lo, WithKids(t, ResolveAll(Kids(t), ts))) && o.ref == r)
            && (!RestInRange(t, i, |ts|) ==> o == Panic)
    decreases fuel, |kids| - i + 1
  {
    hide InRange, Resolve, Laid, Denotes, Height, WithKids, ResolveAll, Below, LabelOf, Pass, PassKids, KidsDone,
         DenotesBelow;
    PassKidsStep(st, fuel, r, i, |kids| - i, args);
    if i == |kids| {
      AllKidsDone(st, r, t, lo, kids, ts);
    } else {
      var k, kt := kids[i], Kids(t)[i];
      PassFresh(st, fuel, k, kt, Start(lo, kids, i), base, args, ts);
      if InRange(kt, |ts|) {
        var o := Pass(st, fuel, k, args);
        var st2 := SetKid(o.st, r, i, o.ref);
        NextKid(st, o, r, i, t, lo, kids, base, args, ts);
        KidsFresh(st2, fuel, r, i + 1, t, lo, kids, base, args, ts);
        assert RestInRange(t, i, |ts|) <==> RestInRange(t, i + 1, |ts|);
      }
    }
  }

  lemma {:induction false} AllKidsDone(st: Store, r: nat, t: Type, lo: nat, kids: seq<nat>, ts: seq<Type>)
    requires Midway(st, r, |kids|, t, lo, kids, ts)
    ensures RestInRange(t, 0, |ts|) && Denotes(st[..r + 1], r, WithKids(t, ResolveAll(Kids(t), ts)))
  {
    hide InRange, Resolve;
    forall j | 0 <= j < |kids| ensures Denotes(st[..r + 1], st[r].kids[j], Resolve(Kids(t)[j], ts)) {
      assert DenotesBelow(st, kids[j] + 1, st[r].kids[j], Resolve(Kids(t)[j], ts));
      DenotesGrows(st[..kids[j] + 1], st[..r + 1], st[r].kids[j], Resolve(Kids(t)[j], ts));
    }
  }

  lemma {:induction false} NextKid(st: Store, o: Res, r: nat, i: nat, t: Type, lo: nat, kids: seq<nat>,
                                   base: nat, args: seq<nat>, ts: seq<Type>)
    requires Midway(st, r, i, t, lo, kids, ts) && i < |kids| && base <= lo && Below(st, base, args, ts)
    requires InRange(Kids(t)[i], |ts|) && Passed(st, o, kids[i], Start(lo, kids, i), Resolve(Kids(t)[i], ts))
    ensures var st2 := SetKid(o.st, r, i, o.ref);
            && Midway(st2, r, i + 1, t, lo, kids, ts) && Below(st2, base, args, ts)
            && |st2| == |st| && forall q :: 0 <= q < |st| && !(lo <= q <= r) ==> st2[q] == st[q]
  {
    hide InRange, Resolve, Laid, Denotes, LabelOf, KidsDone, KidsLeft, AllDenote, DenotesBelow;
    var st2 := SetKid(o.st, r, i, o.ref);
    assert lo <= Start(lo, kids, i) <= kids[i] < r;
    assert st2[..base] == st[..base];
    NextDone(st, o, r, i, t, lo, kids, ts);
    NextLeft(st, o, r, i, t, lo, kids, Resolve(Kids(t)[i], ts));
  }

  lemma {:induction false} NextDone(st: Store, o: Res, r: nat, i: nat, t: Type, lo: nat, kids: seq<nat>, ts: seq<Type>)
    requires Shaped(st, r, i, t, lo, kids) && KidsDone(st, r, i, t, lo, kids, ts) && i < |kids|
    requires InRange(Kids(t)[i], |ts|) && Passed(st, o, kids[i], Start(lo, kids, i), Resolve(Kids(t)[i], ts))
    requires Shaped(SetKid(o.st, r, i, o.ref), r, i + 1, t, lo, kids) && Start(lo, kids, i) <= kids[i] < r
    ensures KidsDone(SetKid(o.st, r, i, o.ref), r, i + 1, t, lo, kids, ts)
  {
    hide InRange, Resolve, Denotes, LabelOf, DenotesBelow;
    var st2 := SetKid(o.st, r, i, o.ref);
    forall j | 0 <= j < i + 1 ensures DenotesBelow(st2, kids[j] + 1, st2[r].kids[j], Resolve(Kids(t)[j], ts)) {
      if j < i {
        BeforeStart(lo, kids, j, i, r);
        BelowStays(st, st2, kids[j] + 1, st[r].kids[j], Resolve(Kids(t)[j], ts));
      } else {
        ResultBelow(st, o, r, i, kids[i], Start(lo, kids, i), Resolve(Kids(t)[i], ts));
      }
    }
  }

  lemma {:induction false} NextLeft(st: Store, o: Res, r: nat, i: nat, t: Type, lo: nat, kids: seq<nat>, u: Type)
    requires Shaped(st, r, i, t, lo, kids) && KidsLeft(st, r, i, t, lo, kids) && i < |kids|
    requires Passed(st, o, kids[i], Start(lo, kids, i), u)
    requires Shaped(SetKid(o.st, r, i, o.ref), r, i + 1, t, lo, kids)
    ensures KidsLeft(SetKid(o.st, r, i, o.ref), r, i + 1, t, lo, kids)
  {
    hide Denotes, LabelOf, Laid;
    var st2 := SetKid(o.st, r, i, o.ref);
    forall j | i < j < |kids| ensures st2[r].kids[j] == kids[j] && Laid(st2, kids[j], Kids(t)[j], Start(lo, kids, j)) {
      BeforeStart(lo, kids, i, j, r);
      LaidKept(st, st2, kids[j], Kids(t)[j], Start(lo, kids, j));
    }
  }

  lemma ResultBelow(st: Store, o: Res, r: nat, i: nat, k: nat, lo: nat, t: Type)
    requires Passed(st, o, k, lo, t) && k < r
    ensures DenotesBelow(SetKid(o.st, r, i, o.ref), k + 1, o.ref, t)
  {
    assert SetKid(o.st, r, i, o.ref)[..k + 1] == o.st[..k + 1];
  }

  lemma BelowStays(st: Store, st': Store, n: nat, r: nat, t: Type)
    requires DenotesBelow(st, n, r, t) && |st'| == |st| && forall q :: 0 <= q < n ==> st'[q] == st[q]
    ensures DenotesBelow(st', n, r, t)
  {
    assert st'[..n] == st[..n];
  }

  lemma {:induction false} BeforeStart(lo: nat, kids: seq<nat>, j: nat, i: nat, r: nat)
    requires j < i < |kids| && InOrder(lo, kids, r)
    ensures kids[j] < Start(lo, kids, i) <= kids[i] < r
    decreases i
  {
    if j < i - 1 { BeforeStart(lo, kids, j, i - 1, r); }
    assert kids[i - 1] < Start(lo, kids, i);
  }
}
