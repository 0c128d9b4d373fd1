/** GetConcreteType and resolveTypeParams on types with identity (parser/encoding/rpc.go).

    A schema type is a cell in a store.  A pass of resolveTypeParams rewrites cells in place and puts the very
    cell of an argument wherever its parameter stands, so arguments come to be shared, are rewritten where
    they stand, and can even be tied into a circle.  Every call takes fuel; `More` says that it needs more. */
module TypeCells {
  import opened TypeSubst

  // ----- Types, node by node -----

  datatype Label =
    | LParam(idx: nat)
    | LBuiltin(kind: nat)
    | LLiteral(text: string)
    | LStruct(names: seq<string>)
    | LMap
    | LList
    | LConfig
    | LPointer
    | LOptional
    | LUnion
    | LNamed(id: nat)

  function LabelOf(t: Type): Label {
    match t
    case Param(i) => LParam(i)
    case Builtin(k) => LBuiltin(k)
    case Literal(s) => LLiteral(s)
    case Struct(fs) => LStruct(seq(|fs|, i requires 0 <= i < |fs| => fs[i].name))
    case Map(_, _) => LMap
    case List(_) => LList
    case Config(_) => LConfig
    case Pointer(_) => LPointer
    case Optional(_) => LOptional
    case Union(_) => LUnion
    case Named(id, _) => LNamed(id)
  }

  function Kids(t: Type): (ks: seq<Type>)
    ensures forall i :: 0 <= i < |ks| ==> (t decreases to ks[i])
  {
    match t
    case Param(_) => []
    case Builtin(_) => []
    case Literal(_) => []
    case Struct(fs) => seq(|fs|, i requires 0 <= i < |fs| => fs[i].typ)
    case Map(k, v) => [k, v]
    case List(e) => [e]
    case Config(e) => [e]
    case Pointer(b) => [b]
    case Optional(v) => [v]
    case Union(ts) => ts
    case Named(_, ts) => ts
  }

  /** The same node with other kids. */
  function WithKids(t: Type, ks: seq<Type>): (r: Type)
    requires |ks| == |Kids(t)|
    ensures LabelOf(r) == LabelOf(t) && Kids(r) == ks
  {
    match t
    case Param(_) => t
    case Builtin(_) => t
    case Literal(_) => t
    case Struct(fs) =>
      var r := Struct(seq(|fs|, i requires 0 <= i < |fs| => Field(fs[i].name, ks[i])));
      assert LabelOf(r).names == LabelOf(t).names && Kids(r) == ks;
      r
    case Map(_, _) => assert ks == [ks[0], ks[1]]; Map(ks[0], ks[1])
    case List(_) => List(ks[0])
    case Config(_) => Config(ks[0])
    case Pointer(_) => Pointer(ks[0])
    case Optional(_) => Optional(ks[0])
    case Union(_) => Union(ks)
    case Named(id, _) => Named(id, ks)
  }

  lemma SameType(a: Type, b: Type)
    requires LabelOf(a) == LabelOf(b) && Kids(a) == Kids(b)
    ensures a == b
  {
    if a.Struct? {
      forall i | 0 <= i < |a.fields| ensures |b.fields| == |a.fields| && a.fields[i] == b.fields[i] {
        assert LabelOf(a).names[i] == LabelOf(b).names[i] && Kids(a)[i] == Kids(b)[i];
      }
    }
  }

  /** A pass goes into these nodes. */
  predicate Visible(l: Label) {
    !l.LParam? && !l.LUnion?
  }

  lemma InRangeByKids(t: Type, n: nat)
    requires Visible(LabelOf(t))
    ensures InRange(t, n) <==> forall i :: 0 <= i < |Kids(t)| ==> InRange(Kids(t)[i], n)
  {
    var ks := Kids(t);
    if t.Map? { assert ks[0] == t.key && ks[1] == t.value; }
    if t.List? || t.Config? || t.Pointer? || t.Optional? { assert |ks| == 1 && InRange(t, n) <==> InRange(ks[0], n); }
    if t.Struct? { assert forall i :: 0 <= i < |ks| ==> ks[i] == t.fields[i].typ; }
  }

  lemma ResolveByKids(t: Type, args: seq<Type>)
    requires Visible(LabelOf(t)) && InRange(t, |args|)
    ensures forall i :: 0 <= i < |Kids(t)| ==> InRange(Kids(t)[i], |args|)
    ensures LabelOf(Resolve(t, args)) == LabelOf(t) && |Kids(Resolve(t, args))| == |Kids(t)|
    ensures forall i :: 0 <= i < |Kids(t)| ==> Kids(Resolve(t, args))[i] == Resolve(Kids(t)[i], args)
  {
    InRangeByKids(t, |args|);
  }

  lemma ClosedByKids(t: Type)
    ensures Closed(t) <==> !t.Param? && forall i :: 0 <= i < |Kids(t)| ==> Closed(Kids(t)[i])
  {
    var ks := Kids(t);
    if t.Map? { assert ks[0] == t.key && ks[1] == t.value; }
    if t.List? || t.Config? || t.Pointer? || t.Optional? { assert |ks| == 1 && Closed(t) <==> Closed(ks[0]); }
    if t.Struct? { assert forall i :: 0 <= i < |ks| ==> ks[i] == t.fields[i].typ; }
  }

  function Max(s: seq<nat>): (m: nat)
    ensures forall x <- s :: x <= m
  {
    if s == [] then 0
    else
      var m := Max(s[1..]);
      assert s == [s[0]] + s[1..];
      if s[0] > m then s[0] else m
  }

  function Height(t: Type): (h: nat)
    ensures h > 0
    decreases t, 1
  {
    1 + Max(KidHeights(t))
  }

  function KidHeights(t: Type): (hs: seq<nat>)
    ensures |hs| == |Kids(t)| && forall i :: 0 <= i < |hs| ==> hs[i] == Height(Kids(t)[i])
    decreases t, 0
  {
    var ks := Kids(t);
    seq(|ks|, j requires 0 <= j < |ks| => Height(ks[j]))
  }

  lemma KidsAreLower(t: Type, i: nat)
    requires i < |Kids(t)|
    ensures Height(Kids(t)[i]) < Height(t)
  {
    assert KidHeights(t)[i] in KidHeights(t);
  }

  // ----- Cells -----

  datatype Cell = Cell(node: Label, kids: seq<nat>)

  type Store = seq<Cell>

  function At(st: Store, r: nat): Cell {
    if r < |st| then st[r] else Cell(LBuiltin(0), [])
  }

  function SetKid(st: Store, r: nat, i: nat, k: nat): Store {
    if r < |st| && i < |st[r].kids| then st[r := st[r].(kids := st[r].kids[i := k])] else st
  }

  /** The cell r, with what hangs below it, is the type t. */
  predicate Denotes(st: Store, r: nat, t: Type)
    decreases t
  {
    && r < |st| && st[r].node == LabelOf(t) && |st[r].kids| == |Kids(t)|
    && forall i :: 0 <= i < |Kids(t)| ==> Denotes(st, st[r].kids[i], Kids(t)[i])
  }

  predicate AllDenote(st: Store, rs: seq<nat>, ts: seq<Type>) {
    |rs| == |ts| && forall i :: 0 <= i < |ts| ==> Denotes(st, rs[i], ts[i])
  }

  lemma {:induction false} DenotesOne(st: Store, r: nat, t: Type, u: Type)
    requires Denotes(st, r, t) && Denotes(st, r, u)
    ensures t == u
    decreases t
  {
    forall i | 0 <= i < |Kids(t)| ensures Kids(t)[i] == Kids(u)[i] {
      DenotesOne(st, st[r].kids[i], Kids(t)[i], Kids(u)[i]);
    }
    SameType(t, u);
  }

  lemma {:induction false} DenotesGrows(st: Store, st': Store, r: nat, t: Type)
    requires st <= st' && Denotes(st, r, t)
    ensures Denotes(st', r, t)
    decreases t
  {
    forall i | 0 <= i < |Kids(t)| ensures Denotes(st', st[r].kids[i], Kids(t)[i]) {
      DenotesGrows(st, st', st[r].kids[i], Kids(t)[i]);
    }
  }

  lemma AllDenoteGrows(st: Store, st': Store, rs: seq<nat>, ts: seq<Type>)
    requires st <= st' && AllDenote(st, rs, ts)
    ensures AllDenote(st', rs, ts)
  {
    forall i | 0 <= i < |ts| ensures Denotes(st', rs[i], ts[i]) { DenotesGrows(st, st', rs[i], ts[i]); }
  }

  // ----- The code -----

  datatype Res = Done(st: Store, ref: nat) | Unknown | Panic | More

  /** resolveTypeParams: kids are visited and replaced one after the other. */
  function Pass(st: Store, fuel: nat, r: nat, args: seq<nat>): Res
    decreases fuel, 0
  {
    if fuel == 0 then More
    else
      var c := At(st, r);
      if c.node.LParam? then (if c.node.idx < |args| then Done(st, args[c.node.idx]) else Panic)
      else if c.node.LUnion? then Done(st, r)
      else PassKids(st, fuel - 1, r, 0, |c.kids|, args)
  }

  /** The n kids of r from the i-th on. */
  function PassKids(st: Store, fuel: nat, r: nat, i: nat, n: nat, args: seq<nat>): Res
    decreases fuel, n + 1
  {
    if n == 0 || i >= |At(st, r).kids| then Done(st, r)
    else
      match Pass(st, fuel, At(st, r).kids[i], args)
      case Done(st1, k) => PassKids(SetKid(st1, r, i, k), fuel, r, i + 1, n - 1, args)
      case o => o
  }

  lemma PassIsKids(st: Store, fuel: nat, r: nat, args: seq<nat>)
    requires fuel > 0 && Visible(At(st, r).node)
    ensures Pass(st, fuel, r, args) == PassKids(st, fuel - 1, r, 0, |At(st, r).kids|, args)
  {
    hide PassKids;
  }

  lemma PassKidsStep(st: Store, fuel: nat, r: nat, i: nat, n: nat, args: seq<nat>)
    ensures n == 0 || i >= |At(st, r).kids| ==> PassKids(st, fuel, r, i, n, args) == Done(st, r)
    ensures n > 0 && i < |At(st, r).kids| ==>
              var o := Pass(st, fuel, At(st, r).kids[i], args);
              PassKids(st, fuel, r, i, n, args)
                == if o.Done? then PassKids(SetKid(o.st, r, i, o.ref), fuel, r, i + 1, n - 1, args) else o
  {
    hide Pass;
  }

  datatype Copy = Copied(st: Store, refs: seq<nat>) | Endless

  /** proto.Clone: kids first, then the node. */
  function Clone(st: Store, fuel: nat, r: nat): Res
    decreases fuel, 0
  {
    if fuel == 0 then More
    else
      var c := At(st, r);
      match CloneKids(st, fuel - 1, c.kids)
      case Copied(st1, ks) => Done(st1 + [Cell(c.node, ks)], |st1|)
      case Endless => More
  }

  function CloneKids(st: Store, fuel: nat, rs: seq<nat>): Copy
    decreases fuel, |rs| + 1
  {
    if rs == [] then Copied(st, [])
    else
      match CloneKids(st, fuel, rs[..|rs| - 1])
      case Endless => Endless
      case Copied(st1, ks) =>
        match Clone(st1, fuel, rs[|rs| - 1])
        case Done(st2, k) => Copied(st2, ks + [k])
        case _ => Endless
  }

  /** A copy of t with one pass over it. */
  function PassOverCopy(st: Store, fuel: nat, t: nat, args: seq<nat>): Res {
    match Clone(st, fuel, t)
    case Done(st1, t1) => PassKids(st1, fuel, t1, 0, |At(st1, t1).kids|, args)
    case o => o
  }

  /** GetConcreteType.  decls[i] is the cell of the type of declaration i.  The arguments of a name are its kids as
      they are when it is looked up: no pass made for it can come back to it, unless it was on a circle before.
      The copies of a union's types are made before the passes over them, which leave everything else alone. */
  function Get(st: Store, fuel: nat, decls: seq<nat>, t: nat, args: seq<nat>): Res
    decreases fuel
  {
    if fuel == 0 then More
    else
      var c := At(st, t);
      match c.node
      case LParam(_) => Unknown
      case LBuiltin(_) => Done(st, t)
      case LLiteral(_) => Done(st, t)
      case LNamed(id) => if id < |decls| then Get(st, fuel - 1, decls, decls[id], c.kids) else Panic
      case LPointer => if args == [] then Done(st, t) else GetWrapped(st, fuel - 1, decls, c, args)
      case LOptional => if args == [] then Done(st, t) else GetWrapped(st, fuel - 1, decls, c, args)
      case _ => if args == [] then Done(st, t) else PassOverCopy(st, fuel - 1, t, args)
  }

  /** A pointer or option: its copy is made concrete first, then put into a new node that gets a pass. */
  function GetWrapped(st: Store, fuel: nat, decls: seq<nat>, c: Cell, args: seq<nat>): Res
    decreases fuel
  {
    if fuel == 0 || c.kids == [] then More
    else
      match Clone(st, fuel, c.kids[0])
      case Done(st1, b) =>
        (match Get(st1, fuel - 1, decls, b, args)
         case Done(st2, r) => Pass(st2 + [Cell(c.node, [r])], fuel, |st2|, args)
         case o => o)
      case o => o
  }

  // ----- More fuel changes nothing -----

  lemma {:induction false} PassFuel(st: Store, f: nat, g: nat, r: nat, args: seq<nat>)
    requires f <= g && Pass(st, f, r, args) != More
    ensures Pass(st, g, r, args) == Pass(st, f, r, args)
    decreases f, 0
  {
    if Visible(At(st, r).node) { PassKidsFuel(st, f - 1, g - 1, r, 0, |At(st, r).kids|, args); }
  }

  lemma {:induction false} PassKidsFuel(st: Store, f: nat, g: nat, r: nat, i: nat, n: nat, args: seq<nat>)
    requires f <= g && PassKids(st, f, r, i, n, args) != More
    ensures PassKids(st, g, r, i, n, args) == PassKids(st, f, r, i, n, args)
    decreases f, n + 1
  {
    hide Pass, PassKids;
    PassKidsStep(st, f, r, i, n, args);
    PassKidsStep(st, g, r, i, n, args);
    if n > 0 && i < |At(st, r).kids| {
      var o := Pass(st, f, At(st, r).kids[i], args);
      PassFuel(st, f, g, At(st, r).kids[i], args);
      if o.Done? { PassKidsFuel(SetKid(o.st, r, i, o.ref), f, g, r, i + 1, n - 1, args); }
    }
  }

  lemma {:induction false} CloneFuel(st: Store, f: nat, g: nat, r: nat)
    requires f <= g && Clone(st, f, r) != More
    ensures Clone(st, g, r) == Clone(st, f, r)
    decreases f, 0
  {
    CloneKidsFuel(st, f - 1, g - 1, At(st, r).kids);
  }

  lemma {:induction false} CloneKidsFuel(st: Store, f: nat, g: nat, rs: seq<nat>)
    requires f <= g && CloneKids(st, f, rs) != Endless
    ensures CloneKids(st, g, rs) == CloneKids(st, f, rs)
    decreases f, |rs| + 1
  {
    if rs != [] {
      CloneKidsFuel(st, f, g, rs[..|rs| - 1]);
      CloneFuel(CloneKids(st, f, rs[..|rs| - 1]).st, f, g, rs[|rs| - 1]);
    }
  }

  lemma {:induction false} PassOverCopyFuel(st: Store, f: nat, g: nat, t: nat, args: seq<nat>)
    requires f <= g && PassOverCopy(st, f, t, args) != More
    ensures PassOverCopy(st, g, t, args) == PassOverCopy(st, f, t, args)
  {
    hide Clone, PassKids;
    CloneFuel(st, f, g, t);
    var c := Clone(st, f, t);
    if c.Done? { PassKidsFuel(c.st, f, g, c.ref, 0, |At(c.st, c.ref).kids|, args); }
  }

  /** A result does not depend on the fuel once there is enough. */
  lemma {:induction false} GetFuel(st: Store, f: nat, g: nat, decls: seq<nat>, t: nat, args: seq<nat>)
    requires f <= g && Get(st, f, decls, t, args) != More
    ensures Get(st, g, decls, t, args) == Get(st, f, decls, t, args)
    decreases f
  {
    hide GetWrapped, PassOverCopy;
    var c := At(st, t);
    if c.node.LNamed? {
      if c.node.id < |decls| { GetFuel(st, f - 1, g - 1, decls, decls[c.node.id], c.kids); }
    } else if args != [] {
      if c.node.LPointer? || c.node.LOptional? {
        GetWrappedFuel(st, f - 1, g - 1, decls, c, args);
      } else if Visible(c.node) || c.node.LUnion? {
        if !c.node.LBuiltin? && !c.node.LLiteral? { PassOverCopyFuel(st, f - 1, g - 1, t, args); }
      }
    }
  }

  lemma {:induction false} GetWrappedFuel(st: Store, f: nat, g: nat, decls: seq<nat>, c: Cell, args: seq<nat>)
    requires f <= g && GetWrapped(st, f, decls, c, args) != More
    ensures GetWrapped(st, g, decls, c, args) == GetWrapped(st, f, decls, c, args)
    decreases f
  {
    hide Clone, Pass, Get;
    CloneFuel(st, f, g, c.kids[0]);
    var b := Clone(st, f, c.kids[0]);
    if b.Done? {
      GetFuel(b.st, f - 1, g - 1, decls, b.ref, args);
      var o := Get(b.st, f - 1, decls, b.ref, args);
      if o.Done? { PassFuel(o.st + [Cell(c.node, [o.ref])], f, g, |o.st|, args); }
    }
  }
}
