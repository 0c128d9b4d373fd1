/** Two inputs on which types with identity and types as values differ (parser/encoding/rpc.go). */
module TypeExamples {
  import opened TypeSubst
  import opened TypeCells
  import opened TypeSettled

  // ----- An argument tied into a circle -----

  /** T[A] is a pointer to a struct of an A, V[A] is a pointer to T[[]A], and the call is for V[builtin]. */
  function SharedStore(name: string): Store {
    [Cell(LParam(0), []), Cell(LStruct([name]), [0]), Cell(LPointer, [1]),
     Cell(LParam(0), []), Cell(LList, [3]), Cell(LNamed(0), [4]), Cell(LPointer, [5]),
     Cell(LBuiltin(0), []), Cell(LNamed(1), [7])]
  }

  lemma {:induction false} SelfListNeverEnds(st: Store, fuel: nat, r: nat, args: seq<nat>)
    requires At(st, r) == Cell(LList, [r])
    ensures Pass(st, fuel, r, args) == More
    decreases fuel
  {
    if fuel > 0 { SelfListNeverEnds(st, fuel - 1, r, args); }
  }

  lemma {:induction false} OnlyKidNeverEnds(st: Store, fuel: nat, r: nat, args: seq<nat>)
    requires Visible(At(st, r).node) && |At(st, r).kids| == 1
    requires fuel > 0 ==> Pass(st, fuel - 1, At(st, r).kids[0], args) == More
    ensures Pass(st, fuel, r, args) == More
  {
  }

  lemma {:induction false} CopyNamed(name: string, n: nat)
    requires n >= 3
    ensures Clone(SharedStore(name), n, 5)
            == Done(SharedStore(name) + [Cell(LParam(0), []), Cell(LList, [9]), Cell(LNamed(0), [10])], 11)
  {
    var s := SharedStore(name);
    CopyLeaf(s, n - 2, 3);
    var s1 := s + [Cell(LParam(0), [])];
    CopyOver(s, n - 1, 4, s1, 9);
    var s2 := s1 + [Cell(LList, [9])];
    CopyOver(s, n, 5, s2, 10);
  }

  lemma CopyLeaf(st: Store, n: nat, r: nat)
    requires n > 0 && At(st, r).kids == []
    ensures Clone(st, n, r) == Done(st + [At(st, r)], |st|)
  {
  }

  lemma CopyOver(st: Store, n: nat, r: nat, st1: Store, k: nat)
    requires n > 0 && |At(st, r).kids| == 1 && Clone(st, n - 1, At(st, r).kids[0]) == Done(st1, k)
    ensures Clone(st, n, r) == Done(st1 + [Cell(At(st, r).node, [k])], |st1|)
  {
    var ks := At(st, r).kids;
    assert ks[..0] == [] && CloneKids(st, n - 1, []) == Copied(st, []);
    assert CloneKids(st, n - 1, ks) == Copied(st1, [k]);
  }

  lemma PassLeaf(st: Store, n: nat, r: nat, args: seq<nat>)
    requires n > 0 && At(st, r).node == LParam(0) && args != []
    ensures Pass(st, n, r, args) == Done(st, args[0])
  {
  }

  lemma PassOver(st: Store, n: nat, r: nat, args: seq<nat>, st1: Store, k: nat)
    requires n > 0 && Visible(At(st, r).node) && |At(st, r).kids| == 1
    requires Pass(st, n - 1, At(st, r).kids[0], args) == Done(st1, k)
    ensures PassKids(st, n - 1, r, 0, 1, args) == Done(SetKid(st1, r, 0, k), r)
    ensures Pass(st, n, r, args) == Done(SetKid(st1, r, 0, k), r)
  {
    hide Pass, PassKids;
    PassIsKids(st, n, r, args);
    PassKidsStep(st, n - 1, r, 0, 1, args);
    PassKidsStep(SetKid(st1, r, 0, k), n - 1, r, 1, 0, args);
  }

  lemma SetOnlyKid(st: Store, r: nat, k: nat)
    requires r < |st| && |st[r].kids| == 1
    ensures SetKid(st, r, 0, k) == st[r := Cell(st[r].node, [k])]
    ensures st[r].kids[0] == k ==> SetKid(st, r, 0, k) == st
  {
    assert st[r].kids[0 := k] == [k];
    if st[r].kids[0] == k { assert st[r].kids == [k] && st[r := st[r]] == st; }
  }

  /** The copies of T's struct, the second of which has got the cell of []A. */
  function SharedFlat(name: string): Store {
    SharedStore(name)
    + [Cell(LParam(0), []), Cell(LList, [9]), Cell(LNamed(0), [10])]
    + [Cell(LParam(0), []), Cell(LStruct([name]), [12])]
    + [Cell(LParam(0), []), Cell(LStruct([name]), [10])]
  }

  /** The struct of T. */
  lemma {:induction false} InnerStruct(name: string, n: nat)
    requires n >= 5
    ensures var s2 := SharedFlat(name)[..12];
            && Clone(s2, n, 1) == Done(SharedFlat(name)[..14], 13)
            && Get(SharedFlat(name)[..14], n - 1, [2, 6], 13, [10]) == Done(SharedFlat(name), 15)
  {
    hide Clone, Pass, PassKids;
    var s := SharedFlat(name);
    var s2, s3 := s[..12], s[..14];
    CopyLeaf(s2, n - 1, 0);
    assert s2 + [Cell(LParam(0), [])] == s[..13];
    CopyOver(s2, n, 1, s[..13], 12);
    assert s[..13] + [Cell(LStruct([name]), [12])] == s3;
    CopyLeaf(s3, n - 3, 12);
    CopyOver(s3, n - 2, 13, s[..15], 14);
    var s4 := s[..15] + [Cell(LStruct([name]), [14])];
    assert s3 + [Cell(LParam(0), [])] == s[..15];
    PassLeaf(s4, n - 2, 14, [10]);
    PassOver(s4, n - 1, 15, [10], s4, 10);
    SetOnlyKid(s4, 15, 10);
    assert s4[15 := Cell(LStruct([name]), [10])] == s;
  }

  /** T's own pass ties the list into a circle. */
  lemma {:induction false} InnerPass(name: string, n: nat)
    requires n >= 4
    ensures var s := SharedFlat(name) + [Cell(LPointer, [15])];
            Pass(s, n, 16, [10]) == Done(s[10 := Cell(LList, [10])], 16)
  {
    hide Pass, PassKids;
    var s := SharedFlat(name) + [Cell(LPointer, [15])];
    var s' := s[10 := Cell(LList, [10])];
    PassLeaf(s, n - 3, 9, [10]);
    PassOver(s, n - 2, 10, [10], s, 10);
    SetOnlyKid(s, 10, 10);
    PassOver(s, n - 1, 15, [10], s', 10);
    SetOnlyKid(s', 15, 10);
    PassOver(s, n, 16, [10], s', 15);
    SetOnlyKid(s', 16, 15);
  }

  lemma {:induction false} InnerCall(name: string, n: nat)
    requires n >= 7
    ensures var s := SharedFlat(name);
            Get(s[..12], n, [2, 6], 11, [7]) == Done((s + [Cell(LPointer, [15])])[10 := Cell(LList, [10])], 16)
  {
    hide Get, GetWrapped, Clone, Pass;
    var s2 := SharedFlat(name)[..12];
    NamedStep(s2, n, [2, 6], 11, [7]);
    WrapperStep(s2, n - 1, [2, 6], 2, [10]);
    InnerStruct(name, n - 2);
    WrappedStep(s2, n - 2, [2, 6], s2[2], [10]);
    InnerPass(name, n - 2);
  }

  lemma {:induction false} OuterPassNeverEnds(st: Store, fuel: nat, args: seq<nat>)
    requires At(st, 17) == Cell(LPointer, [16]) && At(st, 16) == Cell(LPointer, [15])
    requires At(st, 15).node.LStruct? && At(st, 15).kids == [10] && At(st, 10) == Cell(LList, [10])
    ensures Pass(st, fuel, 17, args) == More
  {
    hide Pass;
    SelfListNeverEnds(st, if fuel > 2 then fuel - 3 else 0, 10, args);
    OnlyKidNeverEnds(st, if fuel > 1 then fuel - 2 else 0, 15, args);
    OnlyKidNeverEnds(st, if fuel > 0 then fuel - 1 else 0, 16, args);
    OnlyKidNeverEnds(st, fuel, 17, args);
  }

  lemma {:induction false} SharedCallNeverReturns(name: string, fuel: nat)
    ensures Get(SharedStore(name), fuel, [2, 6], 8, []) == More
  {
    hide Get, GetWrapped, Clone, Pass, PassKids;
    var s, g := SharedStore(name), fuel + 12;
    NamedStep(s, g, [2, 6], 8, []);
    WrapperStep(s, g - 1, [2, 6], 6, [7]);
    CopyNamed(name, g - 2);
    assert s + [Cell(LParam(0), []), Cell(LList, [9]), Cell(LNamed(0), [10])] == SharedFlat(name)[..12];
    InnerCall(name, g - 3);
    WrappedStep(s, g - 2, [2, 6], s[6], [7]);
    var tied := (SharedFlat(name) + [Cell(LPointer, [15])])[10 := Cell(LList, [10])];
    OuterPassNeverEnds(tied + [Cell(LPointer, [16])], g - 2, [7]);
    if Get(s, fuel, [2, 6], 8, []) != More { GetFuel(s, fuel, g, [2, 6], 8, []); }
  }

  function SharedDecls(name: string): seq<Type> {
    [Pointer(Struct([Field(name, Param(0))])), Pointer(Named(0, [List(Param(0))]))]
  }

  lemma DenotesLeaf(st: Store, r: nat, t: Type)
    requires Kids(t) == [] && r < |st| && st[r] == Cell(LabelOf(t), [])
    ensures Denotes(st, r, t)
  {
  }

  lemma DenotesOver(st: Store, r: nat, t: Type, k: nat, u: Type)
    requires Kids(t) == [u] && r < |st| && st[r] == Cell(LabelOf(t), [k]) && Denotes(st, k, u)
    ensures Denotes(st, r, t)
  {
  }

  lemma OneField(name: string, t: Type, args: seq<Type>)
    ensures var s := Struct([Field(name, t)]);
            && Kids(s) == [t] && LabelOf(s) == LStruct([name]) && (InRange(s, |args|) <==> InRange(t, |args|))
            && (InRange(t, |args|) ==> Resolve(s, args) == Struct([Field(name, Resolve(t, args))]))
  {
    var s := Struct([Field(name, t)]);
    assert LabelOf(s).names == [name];
    assert InRange(s, |args|) <==> InRange(s.fields[0].typ, |args|);
    if InRange(t, |args|) { assert Resolve(s, args).fields == [Field(name, Resolve(t, args))]; }
  }

  lemma {:induction false} SharedCellsOfT(name: string)
    ensures Denotes(SharedStore(name), 2, Pointer(Struct([Field(name, Param(0))])))
  {
    hide Denotes;
    var s, f := SharedStore(name), Struct([Field(name, Param(0))]);
    OneField(name, Param(0), []);
    DenotesLeaf(s, 0, Param(0));
    DenotesOver(s, 1, f, 0, Param(0));
    DenotesOver(s, 2, Pointer(f), 1, f);
  }

  lemma {:induction false} SharedCellsOfV(name: string)
    ensures Denotes(SharedStore(name), 6, Pointer(Named(0, [List(Param(0))])))
  {
    hide Denotes;
    var s, l := SharedStore(name), List(Param(0));
    DenotesLeaf(s, 3, Param(0));
    DenotesOver(s, 4, l, 3, Param(0));
    DenotesOver(s, 5, Named(0, [l]), 4, l);
    DenotesOver(s, 6, Pointer(Named(0, [l])), 5, Named(0, [l]));
  }

  lemma {:induction false} SharedCells(name: string)
    ensures IsCall(SharedStore(name), [2, 6], 8, [], SharedDecls(name), Named(1, [Builtin(0)]), [])
  {
    hide Denotes;
    var s := SharedStore(name);
    SharedCellsOfT(name);
    SharedCellsOfV(name);
    DenotesLeaf(s, 7, Builtin(0));
    DenotesOver(s, 8, Named(1, [Builtin(0)]), 7, Builtin(0));
  }

  lemma {:induction false} SharedStructs(name: string)
    ensures var l := List(Param(0));
            && ResolveOrPanic(Struct([Field(name, Param(0))]), [l]) == Concrete(Struct([Field(name, l)]))
            && ResolveOrPanic(Pointer(Struct([Field(name, l)])), [l])
               == Concrete(Pointer(Struct([Field(name, List(l))])))
  {
    var l := List(Param(0));
    OneField(name, Param(0), [l]);
    OneField(name, l, [l]);
    assert InRange(l, 1) && Resolve(l, [l]) == List(l);
  }

  lemma {:induction false} SharedResult(name: string)
    ensures ResolveOrPanic(Pointer(Pointer(Struct([Field(name, List(List(Param(0))))]))), [Builtin(0)])
            == Concrete(Pointer(Pointer(Struct([Field(name, List(List(Builtin(0))))]))))
  {
    var l, b := List(List(Param(0))), [Builtin(0)];
    OneField(name, l, b);
    assert InRange(l, 1) && Resolve(l, b) == List(List(Builtin(0)));
    var s := Struct([Field(name, l)]);
    assert InRange(Pointer(s), 1) && Resolve(Pointer(s), b) == Pointer(Resolve(s, b));
  }

  lemma {:induction false} SharedOnValues(name: string)
    ensures GetConcrete(SharedDecls(name), 2, Named(1, [Builtin(0)]), [])
            == Concrete(Pointer(Pointer(Struct([Field(name, List(List(Builtin(0))))]))))
  {
    hide ResolveOrPanic;
    SharedStructs(name);
    SharedResult(name);
    var ds, l, b := SharedDecls(name), List(Param(0)), [Builtin(0)];
    assert GetConcrete(ds, 0, Struct([Field(name, Param(0))]), [l]) == Concrete(Struct([Field(name, l)]));
    assert GetConcrete(ds, 0, ds[0], [l]) == Concrete(Pointer(Struct([Field(name, List(l))])));
    assert GetConcrete(ds, 1, Named(0, [l]), b) == GetConcrete(ds, 0, ds[0], [l]);
    assert GetConcrete(ds, 1, ds[1], b) == Concrete(Pointer(Pointer(Struct([Field(name, List(List(Builtin(0))))]))));
  }

  /** On values the call returns a type, with no declaration entered twice and no parameter out of range;
      on cells it never returns. */
  lemma SharedArgumentNeverReturns(name: string)
    ensures IsCall(SharedStore(name), [2, 6], 8, [], SharedDecls(name), Named(1, [Builtin(0)]), [])
    ensures GetConcrete(SharedDecls(name), 2, Named(1, [Builtin(0)]), [])
            == Concrete(Pointer(Pointer(Struct([Field(name, List(List(Builtin(0))))]))))
    ensures forall fuel: nat :: Get(SharedStore(name), fuel, [2, 6], 8, []) == More
  {
    hide Get, GetConcrete;
    SharedCells(name);
    SharedOnValues(name);
    forall fuel: nat ensures Get(SharedStore(name), fuel, [2, 6], 8, []) == More { SharedCallNeverReturns(name, fuel); }
  }

  // ----- A declaration rewritten -----

  /** T[A] is a struct of an A and U[A] is T[[]A]; the call is for a pointer to U[A], with two builtins at hand. */
  function RenamedStore(name: string): Store {
    [Cell(LParam(0), []), Cell(LStruct([name]), [0]),
     Cell(LParam(0), []), Cell(LList, [2]), Cell(LNamed(0), [3]),
     Cell(LParam(0), []), Cell(LNamed(1), [5]), Cell(LPointer, [6]),
     Cell(LBuiltin(0), []), Cell(LBuiltin(1), [])]
  }

  /** What is made on the way: a copy of U[A], and two of T's struct, the second with U's own []A in it. */
  function RenamedFlat(name: string): Store {
    RenamedStore(name)
    + [Cell(LParam(0), []), Cell(LNamed(1), [10])]
    + [Cell(LParam(0), []), Cell(LStruct([name]), [3])]
  }

  lemma {:induction false} RenamedStruct(name: string, n: nat)
    requires n >= 4
    ensures Get(RenamedFlat(name)[..12], n, [1, 4], 1, [3]) == Done(RenamedFlat(name), 13)
  {
    hide Clone, Pass, PassKids;
    var s := RenamedFlat(name);
    var s1 := s[..12];
    CopyLeaf(s1, n - 2, 0);
    assert s1 + [Cell(LParam(0), [])] == s[..13];
    CopyOver(s1, n - 1, 1, s[..13], 12);
    var s2 := s[..13] + [Cell(LStruct([name]), [12])];
    PassLeaf(s2, n - 1, 12, [3]);
    PassOver(s2, n, 13, [3], s2, 3);
    SetOnlyKid(s2, 13, 3);
    assert s2[13 := Cell(LStruct([name]), [3])] == s;
  }

  lemma {:induction false} RenamedPass(name: string, n: nat)
    requires n >= 4
    ensures var s := RenamedFlat(name) + [Cell(LPointer, [13])];
            Pass(s, n, 14, [8]) == Done(s[3 := Cell(LList, [8])], 14)
  {
    hide Pass, PassKids;
    var s := RenamedFlat(name) + [Cell(LPointer, [13])];
    var s' := s[3 := Cell(LList, [8])];
    PassLeaf(s, n - 3, 2, [8]);
    PassOver(s, n - 2, 3, [8], s, 8);
    SetOnlyKid(s, 3, 8);
    PassOver(s, n - 1, 13, [8], s', 3);
    SetOnlyKid(s', 13, 3);
    PassOver(s, n, 14, [8], s', 13);
    SetOnlyKid(s', 14, 13);
  }

  /** The store after the call. */
  function RenamedAfter(name: string): Store {
    (RenamedFlat(name) + [Cell(LPointer, [13])])[3 := Cell(LList, [8])]
  }

  lemma {:induction false} RenamedCall(name: string, n: nat)
    requires n >= 8
    ensures Get(RenamedStore(name), n, [1, 4], 7, [8]) == Done(RenamedAfter(name), 14)
  {
    hide Get, GetWrapped, Clone, Pass;
    var s := RenamedStore(name);
    var s1 := RenamedFlat(name)[..12];
    WrapperStep(s, n, [1, 4], 7, [8]);
    CopyLeaf(s, n - 2, 5);
    CopyOver(s, n - 1, 6, s + [Cell(LParam(0), [])], 10);
    assert s + [Cell(LParam(0), [])] + [Cell(LNamed(1), [10])] == s1;
    NamedStep(s1, n - 2, [1, 4], 11, [8]);
    NamedStep(s1, n - 3, [1, 4], 4, [10]);
    RenamedStruct(name, n - 4);
    WrappedStep(s, n - 1, [1, 4], s[7], [8]);
    RenamedPass(name, n - 1);
  }

  function RenamedDecls(name: string, t: Type): seq<Type> {
    [Struct([Field(name, Param(0))]), Named(0, [List(t)])]
  }

  /** The cells of the declarations and of the call, with cell k as what U gives T a list of. */
  predicate RenamedCells(name: string, s: Store, k: nat) {
    && |s| >= 10 && s[0] == Cell(LParam(0), []) && s[1] == Cell(LStruct([name]), [0])
    && s[3] == Cell(LList, [k]) && s[4] == Cell(LNamed(0), [3])
    && s[5] == Cell(LParam(0), []) && s[6] == Cell(LNamed(1), [5]) && s[7] == Cell(LPointer, [6])
    && s[8] == Cell(LBuiltin(0), []) && s[9] == Cell(LBuiltin(1), [])
  }

  lemma {:induction false} RenamedT(name: string, s: Store, k: nat)
    requires RenamedCells(name, s, k)
    ensures Denotes(s, 1, Struct([Field(name, Param(0))]))
  {
    hide Denotes;
    OneField(name, Param(0), []);
    DenotesLeaf(s, 0, Param(0));
    DenotesOver(s, 1, Struct([Field(name, Param(0))]), 0, Param(0));
  }

  lemma {:induction false} RenamedU(name: string, s: Store, k: nat, t: Type)
    requires RenamedCells(name, s, k) && Denotes(s, k, t)
    ensures Denotes(s, 4, Named(0, [List(t)]))
  {
    hide Denotes;
    DenotesOver(s, 3, List(t), k, t);
    DenotesOver(s, 4, Named(0, [List(t)]), 3, List(t));
  }

  lemma {:induction false} RenamedPointer(name: string, s: Store, k: nat)
    requires RenamedCells(name, s, k)
    ensures Denotes(s, 7, Pointer(Named(1, [Param(0)])))
  {
    hide Denotes;
    var u := Named(1, [Param(0)]);
    DenotesLeaf(s, 5, Param(0));
    DenotesOver(s, 6, u, 5, Param(0));
    DenotesOver(s, 7, Pointer(u), 6, u);
  }

  lemma {:induction false} RenamedIsCall(name: string, s: Store, k: nat, t: Type, b: nat)
    requires RenamedCells(name, s, k) && Denotes(s, k, t) && b < 2
    ensures Denotes(s, 4, Named(0, [List(t)]))
    ensures IsCall(s, [1, 4], 7, [8 + b], RenamedDecls(name, t), Pointer(Named(1, [Param(0)])), [Builtin(b)])
  {
    hide Denotes;
    RenamedT(name, s, k);
    RenamedU(name, s, k, t);
    RenamedPointer(name, s, k);
    DenotesLeaf(s, 8 + b, Builtin(b));
  }

  lemma {:induction false} RenamedCellsHold(name: string)
    ensures RenamedCells(name, RenamedStore(name), 2) && Denotes(RenamedStore(name), 2, Param(0))
    ensures RenamedCells(name, RenamedAfter(name), 8) && Denotes(RenamedAfter(name), 8, Builtin(0))
  {
    hide Denotes;
    DenotesLeaf(RenamedStore(name), 2, Param(0));
    DenotesLeaf(RenamedAfter(name), 8, Builtin(0));
  }

  /** Pointers to U[A] on values, when U is T[[]t]. */
  lemma {:induction false} RenamedOnValues(name: string, t: Type, a: Type)
    requires InRange(t, 1)
    ensures GetConcrete(RenamedDecls(name, t), 2, Pointer(Named(1, [Param(0)])), [a])
            == Concrete(Pointer(Struct([Field(name, List(Resolve(t, [a])))])))
  {
    hide ResolveOrPanic;
    var ds, f, l := RenamedDecls(name, t), Struct([Field(name, Param(0))]), List(t);
    OneFieldResolved(name, Param(0), [l]);
    assert GetConcrete(ds, 0, f, [l]) == Concrete(Struct([Field(name, l)]));
    assert GetConcrete(ds, 2, Named(1, [Param(0)]), [a]) == GetConcrete(ds, 1, ds[1], [Param(0)]);
    OneFieldResolved(name, l, [a]);
  }

  lemma OneFieldResolved(name: string, t: Type, args: seq<Type>)
    requires InRange(t, |args|)
    ensures var s, r := Struct([Field(name, t)]), Struct([Field(name, Resolve(t, args))]);
            ResolveOrPanic(s, args) == Concrete(r) && ResolveOrPanic(Pointer(s), args) == Concrete(Pointer(r))
  {
    hide InRange, Resolve;
    OneField(name, t, args);
    PointerResolved(Struct([Field(name, t)]), args);
  }

  lemma PointerResolved(t: Type, args: seq<Type>)
    requires InRange(t, |args|)
    ensures InRange(Pointer(t), |args|) && Resolve(Pointer(t), args) == Pointer(Resolve(t, args))
  {
  }

  lemma RenamedIsSettled(name: string, t: Type, a: Type)
    requires Closed(a)
    ensures Settled(RenamedDecls(name, t), 2, Pointer(Named(1, [Param(0)])), [a])
  {
    hide Settled;
    var ds, n := RenamedDecls(name, t), Named(1, [Param(0)]);
    SettledFlat(ds, 0, ds[0], [List(t)]);
    SettledName(ds, 1, ds[1], [Param(0)]);
    assert AllClosed([a]);
    SettledName(ds, 2, n, [a]);
    SettledWrapper(ds, 2, Pointer(n), [a]);
  }

  /** One call makes U[A] a T[[]builtin 0] for good: the same call for builtin 1 then gives a struct of builtin 0. */
  lemma {:induction false} CallChangesDeclaration(name: string, n: nat)
    requires n >= 8
    ensures var s, o := RenamedStore(name), Get(RenamedStore(name), n, [1, 4], 7, [8]);
            && o.Done? && Denotes(s, 4, Named(0, [List(Param(0))])) && Denotes(o.st, 4, Named(0, [List(Builtin(0))]))
            && GetConcrete(RenamedDecls(name, Param(0)), 2, Pointer(Named(1, [Param(0)])), [Builtin(1)])
                 == Concrete(Pointer(Struct([Field(name, List(Builtin(1)))])))
            && forall m: nat :: Get(o.st, m, [1, 4], 7, [9]) == More
                                || Matches(o.st, Get(o.st, m, [1, 4], 7, [9]),
                                           Concrete(Pointer(Struct([Field(name, List(Builtin(0)))]))))
  {
    hide Get, GetConcrete, Denotes, IsCall, Settled, RenamedStore, RenamedAfter, RenamedDecls, RenamedCells, Matches;
    RenamedCall(name, n);
    RenamedCellsHold(name);
    RenamedIsCall(name, RenamedStore(name), 2, Param(0), 0);
    RenamedIsCall(name, RenamedAfter(name), 8, Builtin(0), 1);
    RenamedIsSettled(name, Builtin(0), Builtin(1));
    RenamedOnValues(name, Param(0), Builtin(1));
    RenamedOnValues(name, Builtin(0), Builtin(1));
    SettledOutcome(RenamedAfter(name), [1, 4], 7, [9], RenamedDecls(name, Builtin(0)), 2,
                   Pointer(Named(1, [Param(0)])), [Builtin(1)]);
  }
}
